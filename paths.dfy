/** POSIX-style path operations as `os.path` and `pathlib` perform them on
    normalised paths: '/' separates components, no component is empty except a
    leading root, and no path ends in '/' except the root itself. */
module Paths {
  import opened Text

  const Sep: char := '/'

  /** The index of the last `c` in `s`, or -1. */
  function LastIndexOf(s: string, c: char): (i: int)
    ensures -1 <= i < |s|
    ensures i >= 0 ==> s[i] == c
    ensures forall j :: i < j < |s| ==> s[j] != c
  {
    if s == [] then -1
    else if s[|s| - 1] == c then |s| - 1
    else LastIndexOf(s[..|s| - 1], c)
  }

  /** `os.path.isabs` / `Path.is_absolute`. */
  predicate IsAbsolute(p: string) {
    |p| > 0 && p[0] == Sep
  }

  /** `os.path.basename` / `Path.name`: the text after the last separator. */
  function Basename(p: string): (r: string)
    ensures Sep !in r && |r| <= |p|
    ensures r == p[|p| - |r|..]
  {
    p[LastIndexOf(p, Sep) + 1..]
  }

  /** `os.path.dirname`: the text before the last separator; "/" for a path
      directly under the root, "" for a bare name. */
  function Dirname(p: string): (r: string)
    ensures |r| <= |p|
  {
    var i := LastIndexOf(p, Sep);
    if i < 0 then "" else if i == 0 then "/" else p[..i]
  }

  /** `str(Path(p))`: pathlib spells the empty path ".". */
  function PathText(p: string): string {
    if p == "" then "." else p
  }

  /** `os.path.join(a, b)`: an absolute `b` replaces `a`, and an empty `a`
      contributes nothing. */
  function Join(a: string, b: string): (r: string)
    ensures IsAbsolute(b) ==> r == b
    ensures EndsWith(r, b)
  {
    if IsAbsolute(b) || a == "" then b
    else if a[|a| - 1] == Sep then a + b
    else a + [Sep] + b
  }

  /** Joining a relative name onto a folder that does not end in a
      separator puts one separator between them. */
  lemma JoinUnder(a: string, b: string)
    requires a != [] && a[|a| - 1] != Sep && !IsAbsolute(b)
    ensures Join(a, b) == a + [Sep] + b
  {
  }

  /** Joining a separator-free name puts it last. */
  lemma JoinName(a: string, b: string)
    requires Sep !in b && b != ""
    ensures Basename(Join(a, b)) == b
  {
    var r := Join(a, b);
    assert r[|r| - |b|..] == b;
    assert forall k :: |r| - |b| <= k < |r| ==> r[k] == b[k - (|r| - |b|)];
    if |r| > |b| {
      assert r[|r| - |b| - 1] == Sep;
    }
  }

  /** `Path(a) / b`: as `os.path.join`, except that pathlib spells the
      current directory "." and drops it when joining. */
  function PathJoin(a: string, b: string): string {
    if a == "." then b else Join(a, b)
  }

  /** `Path(p).parent`: the folder, "." for a bare name. */
  function Parent(p: string): (r: string)
    ensures r != ""
  {
    PathText(Dirname(p))
  }

  /** `Path(p).name`: the final component; "." and the root have none. */
  function Name(p: string): (r: string)
    ensures Sep !in r
  {
    if p == "." then "" else Basename(p)
  }

  /** `Path(p).suffix`: the final component's text from its last dot, provided
      that dot is neither its first nor its last character. */
  function Suffix(p: string): (r: string)
    ensures r == "" || (r[0] == '.' && |r| >= 2)
    ensures EndsWith(Basename(p), r)
  {
    var name := Basename(p);
    var i := LastIndexOf(name, '.');
    if 0 < i < |name| - 1 then name[i..] else ""
  }

  /** `Path(p).stem`: the final component without its suffix. */
  function Stem(p: string): (r: string)
    ensures r + Suffix(p) == Basename(p)
  {
    var name := Basename(p);
    TailOfSuffix(name, Suffix(p));
    name[..|name| - |Suffix(p)|]
  }

  /** A text ending in `t` is its front followed by `t`. */
  lemma TailOfSuffix(s: string, t: string)
    requires EndsWith(s, t)
    ensures s[..|s| - |t|] + t == s
  {
  }

  /** A suffix of a suffix of `s` is a suffix of `s`. */
  lemma SuffixOfSuffix(s: string, b: string, t: string)
    requires |b| <= |s| && b == s[|s| - |b|..] && EndsWith(b, t)
    ensures EndsWith(s, t)
  {
    assert s[|s| - |t|..] == b[|b| - |t|..];
  }

  /** `Path(p).with_suffix(s)`: the path with its suffix replaced by `s`. */
  function WithSuffix(p: string, s: string): string
  {
    PathWithoutSuffix(p) + s
  }

  lemma {:induction false} LastIndexOfAppend(a: string, b: string, c: char)
    requires c !in b
    ensures LastIndexOf(a + b, c) == LastIndexOf(a, c)
  {
    if b != [] {
      assert (a + b)[..|a + b| - 1] == a + b[..|b| - 1];
      LastIndexOfAppend(a, b[..|b| - 1], c);
    } else {
      assert a + b == a;
    }
  }

  lemma SuffixHasNoSeparator(p: string)
    ensures Sep !in Suffix(p)
  {
    var name := Basename(p);
    var suf := Suffix(p);
    if suf != "" {
      var i := LastIndexOf(name, '.');
      assert suf == name[i..];
      forall k | 0 <= k < |suf| ensures suf[k] != Sep {
        assert suf[k] == name[i + k];
      }
    }
  }

  /** Two paths that agree up to and including a shared last separator
      have the same folder. */
  lemma SameFolder(p: string, q: string, i: int)
    requires i == LastIndexOf(p, Sep) == LastIndexOf(q, Sep)
    requires p[..i + 1] == q[..i + 1]
    ensures Dirname(p) == Dirname(q)
  {
    if i > 0 {
      assert p[..i] == p[..i + 1][..i];
      assert q[..i] == q[..i + 1][..i];
    }
  }

  /** Appending separator-free text after the last separator extends the
      final component by that text. */
  lemma BasenameOfAppend(a: string, b: string)
    requires Sep !in b
    ensures Basename(a + b) == Basename(a) + b
  {
    LastIndexOfAppend(a, b, Sep);
    var i := LastIndexOf(a, Sep);
    assert (a + b)[i + 1..] == a[i + 1..] + b;
  }

  lemma StemOfAppend(base: string, p: string)
    requires Basename(p) == Basename(base) + Suffix(p)
    ensures Stem(p) == Basename(base)
  {
    assert Stem(p) + Suffix(p) == Basename(base) + Suffix(p);
    assert Stem(p) == (Stem(p) + Suffix(p))[..|Stem(p)|];
  }

  /** Appending different separator-free texts to the same path leaves the
      same folder. */
  lemma FolderOfAppend(a: string, b: string, c: string)
    requires Sep !in b && Sep !in c
    ensures Dirname(a + b) == Dirname(a + c)
  {
    LastIndexOfAppend(a, b, Sep);
    LastIndexOfAppend(a, c, Sep);
    var i := LastIndexOf(a, Sep);
    assert (a + b)[..i + 1] == a[..i + 1] == (a + c)[..i + 1];
    SameFolder(a + b, a + c, i);
  }

  /** Replacing the suffix keeps the folder. */
  lemma WithSuffixKeepsFolder(p: string, s: string)
    requires Sep !in s
    ensures Dirname(WithSuffix(p, s)) == Dirname(p)
  {
    SuffixHasNoSeparator(p);
    FolderOfAppend(PathWithoutSuffix(p), Suffix(p), s);
  }

  /** Replacing the suffix renames only the final component: its stem
      followed by the new suffix. */
  lemma WithSuffixName(p: string, s: string)
    requires Sep !in s
    ensures Basename(WithSuffix(p, s)) == Stem(p) + s
  {
    var base := PathWithoutSuffix(p);
    SuffixHasNoSeparator(p);
    BasenameOfAppend(base, s);
    BasenameOfAppend(base, Suffix(p));
    StemOfAppend(base, p);
  }

  function PathWithoutSuffix(p: string): (r: string)
    ensures r + Suffix(p) == p
  {
    SuffixOfSuffix(p, Basename(p), Suffix(p));
    TailOfSuffix(p, Suffix(p));
    p[..|p| - |Suffix(p)|]
  }

  /** The extension `os.path.splitext` splits off: from the last dot of the
      final component, provided some character other than a dot precedes it
      in that component ("a." has extension ".", ".profile" has none). */
  function Extension(p: string): (r: string)
    ensures r == "" || r[0] == '.'
    ensures EndsWith(Basename(p), r)
  {
    var name := Basename(p);
    var i := LastIndexOf(name, '.');
    if i > 0 && exists j :: 0 <= j < i && name[j] != '.' then name[i..] else ""
  }

  /** `os.path.splitext(p)[0]`. */
  function SplitExtRoot(p: string): (r: string)
    ensures r + Extension(p) == p
  {
    SuffixOfSuffix(p, Basename(p), Extension(p));
    TailOfSuffix(p, Extension(p));
    p[..|p| - |Extension(p)|]
  }

  /** A plain file name: no separator, and some character other than a dot. */
  predicate PlainName(name: string) {
    Sep !in name && exists j :: 0 <= j < |name| && name[j] != '.'
  }

  /** A dot followed by text with neither a dot nor a separator. */
  predicate SimpleExtension(ext: string) {
    |ext| >= 1 && ext[0] == '.' && '.' !in ext[1..] && Sep !in ext
  }

  lemma ExtensionAt(p: string, i: int, j: int)
    requires Basename(p) == p && LastIndexOf(p, '.') == i && 0 <= j < i && p[j] != '.'
    ensures Extension(p) == p[i..]
  {
  }

  lemma BasenameOfName(name: string)
    requires Sep !in name
    ensures Basename(name) == name
  {
    LastIndexOfAppend("", name, Sep);
    assert "" + name == name;
  }

  lemma LastDotOf(name: string, ext: string)
    requires SimpleExtension(ext)
    ensures LastIndexOf(name + ext, '.') == |name|
  {
    var dotless := ext[1..];
    assert ext == ['.'] + dotless;
    assert name + ext == (name + ['.']) + dotless;
    LastIndexOfAppend(name + ['.'], dotless, '.');
  }

  /** `os.path.splitext` takes back off an extension appended to a plain
      name. */
  lemma {:induction false} RootOfName(name: string, ext: string)
    requires PlainName(name) && SimpleExtension(ext)
    ensures SplitExtRoot(name + ext) == name
  {
    var p := name + ext;
    BasenameOfName(name);
    BasenameOfAppend(name, ext);
    LastDotOf(name, ext);
    var j :| 0 <= j < |name| && name[j] != '.';
    assert p[j] == name[j];
    ExtensionAt(p, |name|, j);
    assert p[|name|..] == ext;
  }

  /** A separator-free name joined under a folder is the final component. */
  lemma NameUnder(dir: string, name: string)
    requires Sep !in name && name != ""
    ensures Basename(PathJoin(dir, name)) == name
  {
    if dir == "." {
      BasenameOfName(name);
    } else {
      JoinName(dir, name);
    }
  }

  /** The last separator of `dir/name` is the one before `name`. */
  lemma {:induction false} LastSeparatorBefore(dir: string, name: string)
    requires Sep !in name
    ensures LastIndexOf(dir + [Sep] + name, Sep) == |dir|
    decreases |name|
  {
    var f := dir + [Sep] + name;
    if name == [] {
      assert f[|f| - 1] == Sep;
    } else {
      assert f[|f| - 1] == name[|name| - 1] != Sep;
      assert f[..|f| - 1] == dir + [Sep] + name[..|name| - 1];
      LastSeparatorBefore(dir, name[..|name| - 1]);
    }
  }

  /** The folder and the name of `dir/name`. */
  lemma ParentAndName(dir: string, name: string)
    requires Sep !in name
    ensures Parent(dir + [Sep] + name) == if dir == "" then "/" else dir
    ensures Name(dir + [Sep] + name) == name
  {
    var f := dir + [Sep] + name;
    LastSeparatorBefore(dir, name);
    assert f[..|dir|] == dir;
    assert f[|dir| + 1..] == name;
    assert f != ".";
  }

  /** Appending text to the name of a folder `dir/name` that sits below
      another folder gives the path of a sibling of that folder. */
  lemma SiblingWithSuffix(dir: string, name: string, suffix: string)
    requires Sep !in name && name != ""
    requires dir == "" || (dir[|dir| - 1] != Sep && dir != ".")
    ensures PathJoin(Parent(dir + [Sep] + name), Name(dir + [Sep] + name) + suffix) == dir + [Sep] + name + suffix
  {
    ParentAndName(dir, name);
    var f := dir + [Sep] + name;
    var m := name + suffix;
    assert m[0] == name[0] != Sep;
    assert f + suffix == dir + [Sep] + m;
    if dir == "" {
      assert PathJoin(Parent(f), Name(f) + suffix) == Join("/", m) == "/" + m;
    } else {
      assert PathJoin(Parent(f), Name(f) + suffix) == Join(dir, m) == dir + [Sep] + m;
    }
  }

}
