/** The handful of Python `str` operations the scripts rely on: `split`,
    `strip`, `lower`, `startswith`/`endswith`, `replace`, decimal formatting of
    integers, `float(...)` on plain decimal text, and `<` on strings. */
module Text {
  import opened Outcomes

  // ---------------------------------------------------------------------------
  // Whitespace and strip()
  // ---------------------------------------------------------------------------

  /** The characters `str.isspace` accepts, which `str.strip()` removes: tab
      to carriage return, the separator controls 0x1c..0x1f, space, next line
      (0x85), no-break space (0xa0), the ogham space mark, the spaces
      0x2000..0x200a, the line and paragraph separators, the narrow
      no-break space, the medium mathematical space and the ideographic
      space. */
  predicate IsSpace(c: char) {
    var k := c as int;
    || k == 32 || 9 <= k <= 13 || 28 <= k <= 31
    || k == 0x85 || k == 0xa0 || k == 0x1680
    || 0x2000 <= k <= 0x200a || k == 0x2028 || k == 0x2029
    || k == 0x202f || k == 0x205f || k == 0x3000
  }

  predicate AllSpace(s: string) {
    forall i :: 0 <= i < |s| ==> IsSpace(s[i])
  }

  /** `s.lstrip()`: the longest suffix of `s` that does not start with whitespace. */
  function StripLeft(s: string): (r: string)
    ensures |r| <= |s| && r == s[|s| - |r|..]
    ensures AllSpace(s[..|s| - |r|])
    ensures r == [] || !IsSpace(r[0])
  {
    if s == [] || !IsSpace(s[0]) then s else StripLeft(s[1..])
  }

  /** `s.rstrip()`: the longest prefix of `s` that does not end with whitespace. */
  function StripRight(s: string): (r: string)
    ensures |r| <= |s| && r == s[..|r|]
    ensures AllSpace(s[|r|..])
    ensures r == [] || !IsSpace(r[|r| - 1])
  {
    if s == [] || !IsSpace(s[|s| - 1]) then s else StripRight(s[..|s| - 1])
  }

  /** `s.strip()`. */
  function Strip(s: string): (r: string)
    ensures r == [] || (!IsSpace(r[0]) && !IsSpace(r[|r| - 1]))
  {
    StripRight(StripLeft(s))
  }

  lemma StripLeftOfClean(s: string)
    requires s == [] || !IsSpace(s[0])
    ensures StripLeft(s) == s
  {
  }

  lemma StripRightOfClean(s: string)
    requires s == [] || !IsSpace(s[|s| - 1])
    ensures StripRight(s) == s
  {
  }

  /** Stripping twice is stripping once. */
  lemma StripIdempotent(s: string)
    ensures Strip(Strip(s)) == Strip(s)
  {
    var r := Strip(s);
    StripLeftOfClean(r);
    StripRightOfClean(r);
  }

  /** Stripping adds no character. */
  lemma StripKeepsOut(s: string, c: char)
    requires c !in s
    ensures c !in Strip(s)
  {
    var l := StripLeft(s);
    forall k | 0 <= k < |l| ensures l[k] != c {
      assert l[k] == s[|s| - |l| + k];
    }
    var r := StripRight(l);
    forall k | 0 <= k < |r| ensures r[k] != c {
      assert r[k] == l[k];
    }
  }

  /** A string without surrounding whitespace is its own strip. */
  lemma StripOfClean(s: string)
    requires s == [] || (!IsSpace(s[0]) && !IsSpace(s[|s| - 1]))
    ensures Strip(s) == s
  {
    StripLeftOfClean(s);
    StripRightOfClean(s);
  }

  // ---------------------------------------------------------------------------
  // split(sep) and its inverse
  // ---------------------------------------------------------------------------

  /** `s.split(sep)` for a one-character separator: the pieces between
      separators, including empty ones; never an empty list. */
  function Split(s: string, sep: char): (r: seq<string>)
    ensures |r| >= 1
    ensures forall i :: 0 <= i < |r| ==> sep !in r[i]
  {
    if s == [] then [""]
    else
      var rest := Split(s[1..], sep);
      if s[0] == sep then [""] + rest
      else [[s[0]] + rest[0]] + rest[1..]
  }

  /** `line.strip().split(',')`: the cells of a comma-separated line. */
  function CommaFields(line: string): (cells: seq<string>)
    ensures |cells| >= 1
    ensures forall i :: 0 <= i < |cells| ==> ',' !in cells[i]
  {
    Split(Strip(line), ',')
  }

  /** `sep.join(parts)`. */
  function Join(parts: seq<string>, sep: char): string
  {
    if parts == [] then ""
    else if |parts| == 1 then parts[0]
    else parts[0] + [sep] + Join(parts[1..], sep)
  }

  /** A text without the separator is a single piece. */
  lemma {:induction false} SplitWithoutSeparator(a: string, sep: char)
    requires sep !in a
    ensures Split(a, sep) == [a]
  {
    if a != [] {
      SplitWithoutSeparator(a[1..], sep);
      assert [a[0]] + a[1..] == a;
    }
  }

  /** The first separator ends the first piece. */
  lemma {:induction false} SplitAtSeparator(a: string, sep: char, b: string)
    requires sep !in a
    ensures Split(a + [sep] + b, sep) == [a] + Split(b, sep)
  {
    if a == [] {
      assert a + [sep] + b == [sep] + b;
      assert ([sep] + b)[1..] == b;
    } else {
      assert (a + [sep] + b)[1..] == a[1..] + [sep] + b;
      SplitAtSeparator(a[1..], sep, b);
      assert [a[0]] + a[1..] == a;
    }
  }

  /** Splitting a join gives back the pieces, provided no piece holds the
      separator. */
  lemma {:induction false} SplitJoin(parts: seq<string>, sep: char)
    requires |parts| >= 1
    requires forall i :: 0 <= i < |parts| ==> sep !in parts[i]
    ensures Split(Join(parts, sep), sep) == parts
  {
    if |parts| == 1 {
      SplitWithoutSeparator(parts[0], sep);
    } else {
      SplitJoin(parts[1..], sep);
      SplitAtSeparator(parts[0], sep, Join(parts[1..], sep));
    }
  }

  /** Splitting adds no character. */
  lemma {:induction false} SplitKeepsOut(s: string, sep: char, c: char)
    requires c !in s
    ensures forall i :: 0 <= i < |Split(s, sep)| ==> c !in Split(s, sep)[i]
  {
    if s != [] {
      SplitKeepsOut(s[1..], sep, c);
    }
  }

  /** The first piece of a split is the text before the first separator. */
  lemma {:induction false} SplitFirstPiece(s: string, sep: char)
    ensures |Split(s, sep)[0]| <= |s|
    ensures Split(s, sep)[0] == s[..|Split(s, sep)[0]|]
    ensures |Split(s, sep)[0]| == |s| || s[|Split(s, sep)[0]|] == sep
  {
    if s != [] && s[0] != sep {
      SplitFirstPiece(s[1..], sep);
      var r := Split(s[1..], sep);
      assert Split(s, sep)[0] == [s[0]] + r[0];
      assert [s[0]] + r[0] == s[..1 + |r[0]|];
    }
  }

  // ---------------------------------------------------------------------------
  // lower(), startswith(), endswith()
  // ---------------------------------------------------------------------------

  function LowerChar(c: char): char {
    if 'A' <= c <= 'Z' then (c as int + 32) as char else c
  }

  /** `s.lower()` on ASCII letters; other characters are kept as they are. */
  function Lower(s: string): (r: string)
    ensures |r| == |s|
  {
    seq(|s|, i requires 0 <= i < |s| => LowerChar(s[i]))
  }

  /** Lower-casing brings in no character other than a lower-case letter. */
  lemma LowerKeepsOut(s: string, c: char)
    requires c !in s && !('a' <= c <= 'z')
    ensures c !in Lower(s)
  {
    forall k | 0 <= k < |s| ensures Lower(s)[k] != c {
      assert Lower(s)[k] == LowerChar(s[k]);
    }
  }

  predicate StartsWith(s: string, prefix: string) {
    |prefix| <= |s| && s[..|prefix|] == prefix
  }

  predicate EndsWith(s: string, suffix: string) {
    |suffix| <= |s| && s[|s| - |suffix|..] == suffix
  }

  // ---------------------------------------------------------------------------
  // replace(pat, rep)
  // ---------------------------------------------------------------------------

  /** `s.replace(pat, rep)`: every non-overlapping occurrence of `pat`, found
      left to right, is replaced. */
  function Replace(s: string, pat: string, rep: string): string
    requires pat != []
  {
    if |s| < |pat| then s
    else if s[..|pat|] == pat then rep + Replace(s[|pat|..], pat, rep)
    else [s[0]] + Replace(s[1..], pat, rep)
  }

  /** Text that cannot start an occurrence of `pat` passes through unchanged. */
  lemma {:induction false} ReplaceSkips(a: string, b: string, pat: string, rep: string)
    requires pat != [] && pat[0] !in a
    ensures Replace(a + b, pat, rep) == a + Replace(b, pat, rep)
  {
    if a != [] {
      if |a + b| < |pat| {
        assert Replace(b, pat, rep) == b;
      } else {
        assert (a + b)[..|pat|][0] == a[0];
        assert (a + b)[1..] == a[1..] + b;
        ReplaceSkips(a[1..], b, pat, rep);
        assert [a[0]] + a[1..] == a;
      }
    } else {
      assert a + b == b;
    }
  }

  /** Replacing brings in no character that is in neither the text nor the
      replacement. */
  lemma {:induction false} ReplaceKeepsOut(s: string, pat: string, rep: string, c: char)
    requires pat != [] && c !in s && c !in rep
    ensures c !in Replace(s, pat, rep)
  {
    if |s| >= |pat| {
      if s[..|pat|] == pat {
        ReplaceKeepsOut(s[|pat|..], pat, rep, c);
      } else {
        ReplaceKeepsOut(s[1..], pat, rep, c);
      }
    }
  }

  /** `s.replace(c, "")` leaves no `c`. */
  lemma {:induction false} ReplaceRemoves(s: string, c: char)
    ensures c !in Replace(s, [c], "")
  {
    if |s| >= 1 {
      if s[..1] == [c] {
        ReplaceRemoves(s[1..], c);
      } else {
        assert s[0] != c;
        ReplaceRemoves(s[1..], c);
      }
    }
  }

  /** Does `pat` occur in `s`? */
  predicate HasOccurrence(s: string, pat: string) {
    exists i :: 0 <= i <= |s| && StartsWith(s[i..], pat)
  }

  /** A prefix in which no occurrence of `pat` starts passes through unchanged. */
  lemma {:induction false} ReplaceNone(a: string, b: string, pat: string, rep: string)
    requires pat != []
    requires forall i :: 0 <= i < |a| ==> !StartsWith((a + b)[i..], pat)
    ensures Replace(a + b, pat, rep) == a + Replace(b, pat, rep)
  {
    if a != [] {
      if |a + b| < |pat| {
        assert Replace(b, pat, rep) == b;
      } else {
        assert (a + b)[0..] == a + b;
        assert (a + b)[1..] == a[1..] + b;
        forall i | 0 <= i < |a[1..]| ensures !StartsWith((a[1..] + b)[i..], pat) {
          assert (a[1..] + b)[i..] == (a + b)[i + 1..];
        }
        ReplaceNone(a[1..], b, pat, rep);
        assert [a[0]] + a[1..] == a;
      }
    } else {
      assert a + b == b;
    }
  }

  /** An occurrence at the front is replaced. */
  lemma ReplaceAtFront(b: string, pat: string, rep: string)
    requires pat != []
    ensures Replace(pat + b, pat, rep) == rep + Replace(b, pat, rep)
  {
    assert (pat + b)[..|pat|] == pat;
    assert (pat + b)[|pat|..] == b;
  }

  // ---------------------------------------------------------------------------
  // Decimal integers: str(n) and int(...)
  // ---------------------------------------------------------------------------

  predicate IsDigit(c: char) { '0' <= c <= '9' }

  predicate AllDigits(s: string) { forall i :: 0 <= i < |s| ==> IsDigit(s[i]) }

  function DigitChar(d: nat): (c: char)
    requires d < 10
    ensures IsDigit(c) && c as int - '0' as int == d
  {
    ('0' as int + d) as char
  }

  /** `str(n)` for a natural number: decimal digits, no leading zero. */
  function NatToString(n: nat): (r: string)
    ensures |r| >= 1 && AllDigits(r)
    ensures n >= 10 ==> r[0] != '0'
  {
    if n < 10 then [DigitChar(n)] else NatToString(n / 10) + [DigitChar(n % 10)]
  }

  /** The value of a run of decimal digits (empty text is 0). */
  function DigitsValue(s: string): nat
    requires AllDigits(s)
  {
    if s == [] then 0 else DigitsValue(s[..|s| - 1]) * 10 + (s[|s| - 1] as int - '0' as int)
  }

  /** Reading back `str(n)` gives `n`. */
  lemma {:induction false} DigitsValueOfNatToString(n: nat)
    ensures DigitsValue(NatToString(n)) == n
  {
    if n >= 10 {
      DigitsValueOfNatToString(n / 10);
      var s := NatToString(n);
      assert s[..|s| - 1] == NatToString(n / 10);
    }
  }

  function Pow10(k: nat): (r: nat)
    ensures r >= 1
  {
    if k == 0 then 1 else 10 * Pow10(k - 1)
  }

  // ---------------------------------------------------------------------------
  // float(text) for plain decimal text
  // ---------------------------------------------------------------------------

  /** `float(s)` for an optional sign followed by digits with at most one
      decimal point and at least one digit; anything else is a `ValueError`,
      here `None`. */
  function ParseDecimal(s: string): (r: Option<real>)
    ensures r.Some? ==> |s| >= 1
  {
    if |s| > 0 && (s[0] == '-' || s[0] == '+') then
      match ParseUnsigned(s[1..])
      case None => None
      case Some(v) => Some(if s[0] == '-' then -v else v)
    else ParseUnsigned(s)
  }

  function ParseUnsigned(s: string): (r: Option<real>)
    ensures r.Some? ==> r.value >= 0.0
  {
    var parts := Split(s, '.');
    if |parts| > 2 then None
    else
      var whole := parts[0];
      var frac := if |parts| == 2 then parts[1] else "";
      if !AllDigits(whole) || !AllDigits(frac) || (whole == "" && frac == "") then None
      else Some(DigitsValue(whole) as real + DigitsValue(frac) as real / Pow10(|frac|) as real)
  }

  /** `float(str(n) + ".0") == n`: the KB columns the delivery splitter writes
      are read back exactly by the assemblers. */
  lemma ParseDecimalOfWholeNumber(n: nat)
    ensures ParseDecimal(NatToString(n) + ".0") == Some(n as real)
  {
    var d := NatToString(n);
    assert '.' !in d by {
      forall i | 0 <= i < |d| ensures d[i] != '.' { assert IsDigit(d[i]); }
    }
    SplitAtSeparator(d, '.', "0");
    SplitWithoutSeparator("0", '.');
    assert d + ".0" == d + ['.'] + "0";
    DigitsValueOfNatToString(n);
    assert DigitsValue("0") == 0 by { assert "0"[..0] == ""; }
  }

  // ---------------------------------------------------------------------------
  // Ordering of strings (code point by code point, as Python compares str)
  // ---------------------------------------------------------------------------

  predicate StrLessEq(a: string, b: string) {
    if a == [] then true
    else if b == [] then false
    else if a[0] != b[0] then a[0] < b[0]
    else StrLessEq(a[1..], b[1..])
  }

  lemma {:induction false} StrLessEqReflexive(a: string)
    ensures StrLessEq(a, a)
  {
    if a != [] {
      StrLessEqReflexive(a[1..]);
    }
  }

  lemma {:induction false} StrLessEqTotal(a: string, b: string)
    ensures StrLessEq(a, b) || StrLessEq(b, a)
  {
    if a != [] && b != [] && a[0] == b[0] {
      StrLessEqTotal(a[1..], b[1..]);
    }
  }

  lemma {:induction false} StrLessEqTransitive(a: string, b: string, c: string)
    requires StrLessEq(a, b) && StrLessEq(b, c)
    ensures StrLessEq(a, c)
  {
    if a != [] && b != [] && c != [] && a[0] == b[0] && b[0] == c[0] {
      StrLessEqTransitive(a[1..], b[1..], c[1..]);
    }
  }
}
