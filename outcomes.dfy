/** Optional values and results with an error, used wherever the scripts
    either produce a value or raise / return an error marker. */
module Outcomes {

  datatype Option<+T> = None | Some(value: T)

  /** The exceptions the modelled scripts raise (or catch and report). */
  datatype Error =
    | IndexError                  // a list index past the end (`parts[1]` on a short row)
    | ValueError(message: string) // an explicit `raise ValueError(...)` or a failed `float(...)`
    | MissingFile(path: string)   // the splitters' `MissingFileException`
    | CopyFailed(path: string)    // `shutil.copy` from a source that does not exist
    | LibraryError(message: string) // an exception from a codec call the model does not look inside
    | NameError(name: string)     // a variable read before any assignment to it
    | ZeroDivisionError           // a division by a zero count

  datatype Result<+T> = Ok(value: T) | Err(error: Error)
}
