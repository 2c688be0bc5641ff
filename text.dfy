/**
 * Character-level string helpers shared by the models: the pieces of the Go
 * `strings`/`strconv` packages and of the C library (`strsep`, `strtol`,
 * `strncmp`, `isspace`) that the core relies on. Strings are `seq<char>`;
 * a character stands for one byte of ASCII text and for one decoded code point
 * where the Go code decodes UTF-8 (`strings.Fields`, `strings.TrimSpace`).
 */
module Text {
  import opened Wrappers

  /** Go's `unicode.IsSpace`, used by `strings.Fields` and `strings.TrimSpace`. */
  predicate IsGoSpace(c: char) {
    c == ' ' || c == '\t' || c == '\n' || c == '\U{000B}' || c == '\U{000C}' || c == '\r'
    || c == '\U{0085}' || c == '\U{00A0}' || c == '\U{1680}'
    || ('\U{2000}' <= c <= '\U{200A}') || c == '\U{2028}' || c == '\U{2029}'
    || c == '\U{202F}' || c == '\U{205F}' || c == '\U{3000}'
  }

  /** C's `isspace` in the "C" locale. */
  predicate IsCSpace(c: char) {
    c == ' ' || c == '\t' || c == '\n' || c == '\U{000B}' || c == '\U{000C}' || c == '\r'
  }

  predicate IsDigit(c: char) {
    '0' <= c <= '9'
  }

  predicate AllDigits(s: string) {
    forall i :: 0 <= i < |s| ==> IsDigit(s[i])
  }

  predicate HasPrefix(s: string, p: string) {
    |p| <= |s| && s[..|p|] == p
  }

  /** Value of a run of decimal digits, most significant first. */
  function DigitsValue(s: string): (v: nat)
    requires AllDigits(s)
  {
    if |s| == 0 then 0 else DigitsValue(s[..|s| - 1]) * 10 + (s[|s| - 1] as int - '0' as int)
  }

  /** Length of the longest prefix of `s` made of decimal digits. */
  function DigitRun(s: string): (n: nat)
    ensures n <= |s| && AllDigits(s[..n])
    ensures n < |s| ==> !IsDigit(s[n])
  {
    if |s| == 0 || !IsDigit(s[0]) then 0
    else
      var n := 1 + DigitRun(s[1..]);
      assert s[..n] == [s[0]] + s[1..][..n - 1];
      n
  }

  /** Decimal rendering of a natural number (`%d`, `%zu`). */
  function NatToDecimal(n: nat): (s: string)
    ensures |s| >= 1 && AllDigits(s)
    ensures DigitsValue(s) == n
  {
    if n < 10 then [('0' as int + n) as char]
    else
      var s := NatToDecimal(n / 10) + [('0' as int + n % 10) as char];
      assert s[..|s| - 1] == NatToDecimal(n / 10);
      s
  }

  /** Decimal rendering of an integer (`%d`): a leading '-' for negatives. */
  function IntToDecimal(i: int): (s: string)
    ensures i >= 0 ==> AllDigits(s) && DigitsValue(s) == i
    ensures i < 0 ==> |s| >= 2 && s[0] == '-' && AllDigits(s[1..]) && DigitsValue(s[1..]) == -i
  {
    if i < 0 then
      var d := NatToDecimal(-i);
      assert ("-" + d)[1..] == d;
      "-" + d
    else NatToDecimal(i)
  }

  /** The split of `s` at every occurrence of `sep` (Go's `strings.Split` with a one-character separator). */
  function Split(s: string, sep: char): (parts: seq<string>)
    ensures |parts| >= 1
    ensures forall i :: 0 <= i < |parts| ==> sep !in parts[i]
  {
    if |s| == 0 then [""]
    else if s[0] == sep then [""] + Split(s[1..], sep)
    else
      var rest := Split(s[1..], sep);
      [[s[0]] + rest[0]] + rest[1..]
  }

  /** Without a separator, `Split` yields the whole string. */
  lemma {:induction false} SplitNoSep(s: string, sep: char)
    requires sep !in s
    ensures Split(s, sep) == [s]
  {
    if |s| > 0 {
      SplitNoSep(s[1..], sep);
      assert [s[0]] + s[1..] == s;
    }
  }

  /** `Split` cuts at the first separator and continues on the rest. */
  lemma {:induction false} SplitFirst(x: string, sep: char, y: string)
    requires sep !in x
    ensures Split(x + [sep] + y, sep) == [x] + Split(y, sep)
  {
    if |x| == 0 {
      assert x + [sep] + y == [sep] + y;
      assert ([sep] + y)[1..] == y;
    } else {
      var s := x + [sep] + y;
      assert s[0] == x[0] && s[1..] == x[1..] + [sep] + y;
      SplitFirst(x[1..], sep, y);
      assert [x[0]] + x[1..] == x;
    }
  }

  /** Splitting a concatenation at a separator splits each side independently. */
  lemma {:induction false} SplitConcat(x: string, sep: char, y: string)
    ensures Split(x + [sep] + y, sep) == Split(x, sep) + Split(y, sep)
  {
    if |x| == 0 {
      assert x + [sep] + y == [sep] + y;
      assert ([sep] + y)[1..] == y;
    } else {
      var s := x + [sep] + y;
      assert s[0] == x[0] && s[1..] == x[1..] + [sep] + y;
      SplitConcat(x[1..], sep, y);
    }
  }

  /** Joins `parts` with `sep` in between (Go's `strings.Join`). */
  function Join(parts: seq<string>, sep: string): (s: string)
  {
    if |parts| == 0 then ""
    else if |parts| == 1 then parts[0]
    else parts[0] + sep + Join(parts[1..], sep)
  }

  /** Splitting a join at its one-character separator gives the parts back
    * when no part holds the separator. */
  lemma {:induction false} SplitJoin(parts: seq<string>, sep: char)
    requires |parts| >= 1 && forall i :: 0 <= i < |parts| ==> sep !in parts[i]
    ensures Split(Join(parts, [sep]), sep) == parts
  {
    if |parts| == 1 {
      SplitNoSep(parts[0], sep);
    } else {
      SplitJoin(parts[1..], sep);
      SplitFirst(parts[0], sep, Join(parts[1..], [sep]));
      assert parts == [parts[0]] + parts[1..];
    }
  }

  /** Index of the first occurrence of `c` in `s`, if any. */
  function IndexOf(s: string, c: char): (r: Option<nat>)
    ensures r.None? <==> c !in s
    ensures r.Some? ==> r.value < |s| && s[r.value] == c && c !in s[..r.value]
  {
    if |s| == 0 then None
    else if s[0] == c then Some(0)
    else
      match IndexOf(s[1..], c)
      case None => None
      case Some(k) =>
        assert s[..k + 1] == [s[0]] + s[1..][..k];
        Some(k + 1)
  }

  /** `strsep(&p, sep)` for a one-character separator: the token before the first
    * separator and the remainder after it (None when no separator was found). */
  function StrSep(s: string, sep: char): (r: (string, Option<string>))
    ensures r.1.None? ==> r.0 == s && sep !in s
    ensures r.1.Some? ==> s == r.0 + [sep] + r.1.value && sep !in r.0
  {
    match IndexOf(s, sep)
    case None => (s, None)
    case Some(k) =>
      assert s == s[..k] + [sep] + s[k + 1..];
      (s[..k], Some(s[k + 1..]))
  }

  /** `pat` occurs in `s` at index `k`. */
  predicate MatchAt(s: string, pat: string, k: int) {
    0 <= k && k + |pat| <= |s| && s[k..k + |pat|] == pat
  }

  /** Three separator-free fields joined by the separator split back into them. */
  lemma SplitThree(a: string, b: string, c: string, sep: char)
    requires sep !in a && sep !in b && sep !in c
    ensures Split(a + [sep] + b + [sep] + c, sep) == [a, b, c]
  {
    SplitNoSep(c, sep);
    SplitFirst(b, sep, c);
    assert a + [sep] + b + [sep] + c == a + [sep] + (b + [sep] + c);
    SplitFirst(a, sep, b + [sep] + c);
  }

  /** A match past the first character is a match in the rest of the string. */
  lemma MatchShift(s: string, pat: string, k: int)
    requires |s| > 0 && k >= 1
    ensures MatchAt(s, pat, k) <==> MatchAt(s[1..], pat, k - 1)
  {
    if k + |pat| <= |s| {
      assert s[1..][k - 1..k - 1 + |pat|] == s[k..k + |pat|];
    }
  }

  /** Index of the first occurrence of `pat` in `s` (Go's `bytes.Index`). */
  function Find(s: string, pat: string): (r: Option<nat>)
    ensures r.Some? ==> MatchAt(s, pat, r.value)
    ensures r.Some? ==> forall k :: 0 <= k < r.value ==> !MatchAt(s, pat, k)
    ensures r.None? ==> forall k :: !MatchAt(s, pat, k)
    decreases |s|
  {
    if |s| < |pat| then None
    else if s[..|pat|] == pat then Some(0)
    else
      match Find(s[1..], pat)
      case None =>
        forall k ensures !MatchAt(s, pat, k) {
          if k >= 1 { MatchShift(s, pat, k); }
        }
        None
      case Some(k) =>
        MatchShift(s, pat, k + 1);
        forall j | 0 <= j < k + 1 ensures !MatchAt(s, pat, j) {
          if j >= 1 { MatchShift(s, pat, j); }
        }
        Some(k + 1)
  }

  /** Every character of `s` is C space. */
  predicate AllCSpace(s: string) {
    forall i :: 0 <= i < |s| ==> IsCSpace(s[i])
  }

  /** Drops leading characters satisfying `IsCSpace`. */
  function TrimLeftC(s: string): (r: string)
    ensures |r| <= |s| && r == s[|s| - |r|..]
    ensures |r| > 0 ==> !IsCSpace(r[0])
  {
    if |s| > 0 && IsCSpace(s[0]) then TrimLeftC(s[1..]) else s
  }

  /** Drops trailing characters satisfying `IsCSpace`. */
  function TrimRightC(s: string): (r: string)
    ensures |r| <= |s| && r == s[..|r|]
    ensures |r| > 0 ==> !IsCSpace(r[|r| - 1])
  {
    if |s| > 0 && IsCSpace(s[|s| - 1]) then TrimRightC(s[..|s| - 1]) else s
  }

  /** Trimming of C whitespace at both ends (`strtrim`). */
  function TrimC(s: string): (r: string)
    ensures |r| > 0 ==> !IsCSpace(r[0]) && !IsCSpace(r[|r| - 1])
  {
    TrimRightC(TrimLeftC(s))
  }

  /** `TrimLeftC` removes C space and nothing else. */
  lemma {:induction false} TrimLeftCDropsSpace(s: string)
    ensures AllCSpace(s[..|s| - |TrimLeftC(s)|])
  {
    if |s| > 0 && IsCSpace(s[0]) {
      TrimLeftCDropsSpace(s[1..]);
      var k := |s| - |TrimLeftC(s)|;
      assert s[..k] == [s[0]] + s[1..][..k - 1];
    }
  }

  /** `TrimRightC` removes C space and nothing else. */
  lemma {:induction false} TrimRightCDropsSpace(s: string)
    ensures AllCSpace(s[|TrimRightC(s)|..])
  {
    if |s| > 0 && IsCSpace(s[|s| - 1]) {
      var p := s[..|s| - 1];
      TrimRightCDropsSpace(p);
      var k := |TrimRightC(s)|;
      assert s[k..] == p[k..] + [s[|s| - 1]];
    }
  }

  /** `strtrim` keeps one slice of its input and drops only C space around it. */
  lemma TrimCDropsSpace(s: string)
    ensures exists j :: TrimmedAt(s, TrimC(s), j)
  {
    var t := TrimLeftC(s);
    var r := TrimC(s);
    var j := |s| - |t|;
    TrimLeftCDropsSpace(s);
    TrimRightCDropsSpace(t);
    assert s[j + |r|..] == t[|r|..] && s[j..j + |r|] == r;
    assert TrimmedAt(s, r, j);
  }

  /** `r` is the slice of `s` at `j` with only C space before and after it. */
  predicate TrimmedAt(s: string, r: string, j: int) {
    0 <= j && j + |r| <= |s| && s[j..j + |r|] == r &&
    AllCSpace(s[..j]) && AllCSpace(s[j + |r|..])
  }

  /** A string that neither starts nor ends with C space is its own trim. */
  lemma TrimCKeeps(s: string)
    requires |s| == 0 || (!IsCSpace(s[0]) && !IsCSpace(s[|s| - 1]))
    ensures TrimC(s) == s
  {
  }

  /** A field of `strings.Fields`: non-empty and free of white space. */
  predicate IsWord(w: string) {
    |w| > 0 && forall k :: 0 <= k < |w| ==> !IsGoSpace(w[k])
  }

  /** Splits `s` into maximal runs of non-space characters (Go's `strings.Fields`). */
  function Fields(s: string): (fs: seq<string>)
    ensures forall i :: 0 <= i < |fs| ==> IsWord(fs[i])
    decreases |s|
  {
    if |s| == 0 then []
    else if IsGoSpace(s[0]) then Fields(s[1..])
    else
      var n := WordLength(s);
      [s[..n]] + Fields(s[n..])
  }

  /** Length of the leading run of non-space characters of `s`. */
  function WordLength(s: string): (n: nat)
    ensures n <= |s|
    ensures |s| > 0 && !IsGoSpace(s[0]) ==> n > 0
    ensures forall k :: 0 <= k < n ==> !IsGoSpace(s[k])
    ensures n < |s| ==> IsGoSpace(s[n])
  {
    if |s| == 0 || IsGoSpace(s[0]) then 0 else 1 + WordLength(s[1..])
  }

  /** A word followed by white space or the end is the next field. */
  lemma FieldsWord(w: string, rest: string)
    requires IsWord(w) && (|rest| == 0 || IsGoSpace(rest[0]))
    ensures Fields(w + rest) == [w] + Fields(rest)
  {
    var s := w + rest;
    assert forall k :: 0 <= k < |w| ==> s[k] == w[k];
    assert |rest| > 0 ==> s[|w|] == rest[0];
    assert WordLength(s) == |w|;
    assert s[..|w|] == w && s[|w|..] == rest;
  }

  /** A leading space separates nothing. */
  lemma FieldsSkipSpace(s: string)
    ensures Fields(" " + s) == Fields(s)
  {
    assert (" " + s)[1..] == s;
  }

  /** `strings.Fields` recovers words joined by single spaces. */
  lemma {:induction false} FieldsJoin(ws: seq<string>)
    requires forall i :: 0 <= i < |ws| ==> IsWord(ws[i])
    ensures Fields(Join(ws, " ")) == ws
  {
    if |ws| == 1 {
      FieldsWord(ws[0], "");
      assert ws[0] + "" == ws[0];
    } else if |ws| > 1 {
      var rest := Join(ws[1..], " ");
      FieldsSkipSpace(rest);
      FieldsWord(ws[0], " " + rest);
      AppendAssoc3(ws[0], " ", rest);
      FieldsJoin(ws[1..]);
      assert ws == [ws[0]] + ws[1..];
    }
  }

  /** Go's `strings.TrimSpace`. */
  function TrimGoSpace(s: string): (r: string)
    decreases |s|
  {
    if |s| > 0 && IsGoSpace(s[0]) then TrimGoSpace(s[1..])
    else if |s| > 0 && IsGoSpace(s[|s| - 1]) then TrimGoSpace(s[..|s| - 1])
    else s
  }

  /** A word ends at a space appended after it. */
  lemma WordLengthBeforeSpace(x: string, c: char)
    requires IsGoSpace(c)
    ensures WordLength(x + [c]) == WordLength(x)
  {
    var s := x + [c];
    assert forall k :: 0 <= k < |x| ==> s[k] == x[k];
    assert s[|x|] == c;
  }

  /** A trailing space separates nothing. */
  lemma {:induction false} FieldsDropTrailingSpace(x: string, c: char)
    requires IsGoSpace(c)
    ensures Fields(x + [c]) == Fields(x)
    decreases |x|
  {
    var s := x + [c];
    if |x| == 0 {
      assert s[1..] == [];
    } else if IsGoSpace(x[0]) {
      assert s[0] == x[0] && s[1..] == x[1..] + [c];
      FieldsDropTrailingSpace(x[1..], c);
    } else {
      var n := WordLength(x);
      WordLengthBeforeSpace(x, c);
      assert s[0] == x[0] && s[..n] == x[..n] && s[n..] == x[n..] + [c];
      FieldsDropTrailingSpace(x[n..], c);
    }
  }

  /** `strings.TrimSpace` does not change the fields of a string. */
  lemma {:induction false} FieldsTrimGoSpace(s: string)
    ensures Fields(TrimGoSpace(s)) == Fields(s)
    decreases |s|
  {
    if |s| > 0 && IsGoSpace(s[0]) {
      FieldsTrimGoSpace(s[1..]);
    } else if |s| > 0 && IsGoSpace(s[|s| - 1]) {
      var p := s[..|s| - 1];
      FieldsTrimGoSpace(p);
      FieldsDropTrailingSpace(p, s[|s| - 1]);
      assert p + [s[|s| - 1]] == s;
    }
  }

  /** C's `strtol(s, &end, 10)`: the parsed value and whether `*end` is the
    * terminating NUL (the whole string was consumed). Leading C space and one
    * optional sign are accepted; with no digits, `end` is `s` itself. */
  function Strtol(s: string): (r: (int, bool))
    ensures r.1 && |s| > 0 ==> exists k :: 0 <= k < |s| && IsDigit(s[k])
  {
    var t := TrimLeftC(s);
    match SignedDigits(t)
    case None => (0, |s| == 0)
    case Some(p) =>
      assert IsDigit(s[|s| - |t| + p.2]);
      (p.0, p.1)
  }

  /** The conversion after the leading space: an optional sign and the digit
    * run after it, with its value, whether it reaches the end of `t` and the
    * index of its first digit; None without digits. */
  function SignedDigits(t: string): (r: Option<(int, bool, nat)>)
    ensures r.Some? ==> r.value.2 < |t| && IsDigit(t[r.value.2])
  {
    var skip := if |t| > 0 && (t[0] == '-' || t[0] == '+') then 1 else 0;
    match DigitPrefix(t[skip..])
    case None => None
    case Some(p) =>
      var v: int := p.0;
      Some((if |t| > 0 && t[0] == '-' then -v else v, p.1, skip))
  }

  /** The value of the leading digit run of `u` and whether it spans all of
    * `u`; None when `u` does not start with a digit. */
  function DigitPrefix(u: string): (r: Option<(nat, bool)>)
    ensures r.Some? <==> |u| > 0 && IsDigit(u[0])
  {
    var n := DigitRun(u);
    if n == 0 then None else Some((DigitsValue(u[..n]), n == |u|))
  }

  /** The C string held by a buffer: everything before its first NUL. */
  function CString(buf: string): (s: string)
    ensures '\0' !in s && HasPrefix(buf, s)
    ensures |s| < |buf| ==> buf[|s|] == '\0'
  {
    match IndexOf(buf, '\0')
    case None => buf
    case Some(k) => buf[..k]
  }

  /** A NUL at index `k` ends the C string at or before `k`: what follows it is never read. */
  lemma CStringStop(buf: string, k: nat)
    requires k < |buf| && buf[k] == '\0'
    ensures CString(buf) == CString(buf[..k])
  {
    var s, t := CString(buf), CString(buf[..k]);
    assert forall i :: 0 <= i < |s| ==> s[i] == buf[i] && s[i] != '\0';
    assert forall i :: 0 <= i < |t| ==> t[i] == buf[i] && t[i] != '\0';
    assert |s| <= k;
    assert |t| == |s|;
  }

  /** `strsep` takes the first field of what `Split` returns and leaves the
    * rest of the fields behind it. */
  lemma SplitStrSep(s: string, sep: char)
    ensures Split(s, sep) == [StrSep(s, sep).0] +
      (if StrSep(s, sep).1.Some? then Split(StrSep(s, sep).1.value, sep) else [])
  {
    var r := StrSep(s, sep);
    if r.1.Some? {
      SplitFirst(r.0, sep, r.1.value);
    } else {
      SplitNoSep(s, sep);
    }
  }

  /** `strsep` stops at the first separator: the token is everything before it. */
  lemma StrSepAt(x: string, sep: char, y: string)
    requires sep !in x
    ensures StrSep(x + [sep] + y, sep) == (x, Some(y))
  {
    var s := x + [sep] + y;
    assert s[|x|] == sep;
    assert forall i :: 0 <= i < |x| ==> s[i] == x[i];
    assert s[..|x|] == x && s[|x| + 1..] == y;
  }

  /** A decimal number never contains ':'. */
  lemma DigitsHaveNoColon(s: string)
    requires AllDigits(s)
    ensures ':' !in s
  {
    forall i | 0 <= i < |s| ensures s[i] != ':' {
      assert IsDigit(s[i]);
    }
  }

  /** `strtol` on a plain decimal string consumes all of it and gives its value. */
  lemma StrtolDigits(s: string)
    requires |s| > 0 && AllDigits(s)
    ensures Strtol(s) == (DigitsValue(s), true)
  {
    StrtolValue("", s, "");
    AppendEmpty(s);
  }

  lemma {:induction false} DigitRunAll(s: string)
    requires AllDigits(s)
    ensures DigitRun(s) == |s|
  {
    if |s| > 0 {
      DigitRunAll(s[1..]);
    }
  }

  /** Leading C space is dropped up to the first other character. */
  lemma {:induction false} TrimLeftCSpaces(sp: string, t: string)
    requires AllCSpace(sp)
    requires |t| == 0 || !IsCSpace(t[0])
    ensures TrimLeftC(sp + t) == t
  {
    if |sp| == 0 {
      assert sp + t == t;
    } else {
      assert (sp + t)[0] == sp[0];
      assert (sp + t)[1..] == sp[1..] + t;
      TrimLeftCSpaces(sp[1..], t);
    }
  }

  /** `strtol` on C space, a run of digits and then a non-digit or the end:
    * the value of the digits, and success exactly when nothing follows them. */
  lemma StrtolValue(sp: string, d: string, rest: string)
    requires AllCSpace(sp)
    requires |d| > 0 && AllDigits(d)
    requires |rest| == 0 || !IsDigit(rest[0])
    ensures Strtol(sp + d + rest) == (DigitsValue(d), |rest| == 0)
  {
    TrimLeftCBeforeDigits(sp, d, rest);
    SignedDigitsOf(d, rest);
  }

  /** The same after a sign: '-' negates the value and '+' keeps it. */
  lemma StrtolSignedValue(sp: string, c: char, d: string, rest: string)
    requires AllCSpace(sp)
    requires c == '-' || c == '+'
    requires |d| > 0 && AllDigits(d)
    requires |rest| == 0 || !IsDigit(rest[0])
    ensures Strtol(sp + [c] + d + rest).0 == (if c == '-' then -(DigitsValue(d) as int) else DigitsValue(d))
    ensures Strtol(sp + [c] + d + rest).1 == (|rest| == 0)
  {
    DigitPrefixOf(d, rest);
    StrtolSignedRun(sp, c, d + rest, DigitsValue(d), |rest| == 0);
    AppendAssoc3(sp + [c], d, rest);
  }

  lemma StrtolSignedRun(sp: string, c: char, u: string, v: nat, whole: bool)
    requires AllCSpace(sp)
    requires c == '-' || c == '+'
    requires DigitPrefix(u) == Some((v, whole))
    ensures Strtol(sp + [c] + u) == (if c == '-' then -(v as int) else v, whole)
  {
    TrimLeftCBeforeSign(sp, c, u);
    SignedDigitsSigned(c, u, v, whole);
    var iv: int := v;
    StrtolAfterSpace(sp + [c] + u, [c] + u, if c == '-' then -iv else iv, whole, 1);
  }

  /** Without a digit after the space, `strtol` reports 0 and fails unless
    * the string is empty. */
  lemma StrtolNoDigits(sp: string, rest: string)
    requires AllCSpace(sp)
    requires |rest| > 0 ==> !IsDigit(rest[0]) && !IsCSpace(rest[0]) && rest[0] != '-' && rest[0] != '+'
    ensures Strtol(sp + rest) == (0, |sp + rest| == 0)
  {
    TrimLeftCSpaces(sp, rest);
    assert SignedDigits(rest) == None by {
      assert rest[0..] == rest;
    }
    StrtolAfterSpaceNone(sp + rest, rest);
  }

  /** A sign with no digit after it fails with 0. */
  lemma StrtolSignNoDigits(sp: string, c: char, rest: string)
    requires AllCSpace(sp)
    requires c == '-' || c == '+'
    requires |rest| == 0 || !IsDigit(rest[0])
    ensures Strtol(sp + [c] + rest) == (0, false)
  {
    var t := [c] + rest;
    assert sp + [c] + rest == sp + t;
    TrimLeftCSpaces(sp, t);
    assert SignedDigits(t) == None by {
      assert t[1..] == rest;
    }
    StrtolAfterSpaceNone(sp + t, t);
  }

  /** Leading space stops at the first digit. */
  lemma TrimLeftCBeforeDigits(sp: string, d: string, rest: string)
    requires AllCSpace(sp)
    requires |d| > 0 && IsDigit(d[0])
    ensures TrimLeftC(sp + d + rest) == d + rest
  {
    AppendAssoc3(sp, d, rest);
    assert (d + rest)[0] == d[0];
    TrimLeftCSpaces(sp, d + rest);
  }

  /** Leading space stops at a sign. */
  lemma TrimLeftCBeforeSign(sp: string, c: char, u: string)
    requires AllCSpace(sp)
    requires c == '-' || c == '+'
    ensures TrimLeftC(sp + [c] + u) == [c] + u
  {
    AppendAssoc3(sp, [c], u);
    TrimLeftCSpaces(sp, [c] + u);
  }

  lemma AppendEmpty(s: string)
    ensures "" + s + "" == s
  {
  }

  lemma AppendAssoc3(a: string, b: string, c: string)
    ensures a + b + c == a + (b + c)
  {
  }

  /** An unsigned digit run before a non-digit. */
  lemma SignedDigitsOf(d: string, rest: string)
    requires |d| > 0 && AllDigits(d)
    requires |rest| == 0 || !IsDigit(rest[0])
    ensures SignedDigits(d + rest) == Some((DigitsValue(d) as int, |rest| == 0, 0))
  {
    DigitPrefixOf(d, rest);
    SignedDigitsUnsigned(d + rest, DigitsValue(d), |rest| == 0);
  }

  /** `strtol` is decided by what follows the leading space. */
  lemma StrtolAfterSpace(s: string, t: string, v: int, whole: bool, k: nat)
    requires TrimLeftC(s) == t && SignedDigits(t) == Some((v, whole, k))
    ensures Strtol(s) == (v, whole)
  {
  }

  lemma StrtolAfterSpaceNone(s: string, t: string)
    requires TrimLeftC(s) == t && SignedDigits(t) == None
    ensures Strtol(s) == (0, |s| == 0)
  {
  }

  /** The digit run of a digit string followed by a non-digit is that string. */
  lemma DigitRunPrefix(d: string, rest: string)
    requires AllDigits(d)
    requires |rest| == 0 || !IsDigit(rest[0])
    ensures DigitRun(d + rest) == |d| && (d + rest)[..|d|] == d
  {
    var u := d + rest;
    assert forall k :: 0 <= k < |d| ==> u[k] == d[k];
    assert |rest| > 0 ==> u[|d|] == rest[0];
    assert u[..|d|] == d;
  }

  /** The digits `d` before a non-digit are what `DigitPrefix` reads. */
  lemma DigitPrefixOf(d: string, rest: string)
    requires |d| > 0 && AllDigits(d)
    requires |rest| == 0 || !IsDigit(rest[0])
    ensures DigitPrefix(d + rest) == Some((DigitsValue(d), |rest| == 0))
  {
    DigitRunPrefix(d, rest);
    DigitPrefixRun(d + rest, d);
  }

  /** A digit run `d` at the start of `u` is what `DigitPrefix` reads. */
  lemma DigitPrefixRun(u: string, d: string)
    requires |d| > 0 && DigitRun(u) == |d| && u[..|d|] == d
    ensures DigitPrefix(u) == Some((DigitsValue(d), |d| == |u|))
  {
  }

  lemma SignedDigitsUnsigned(u: string, v: nat, whole: bool)
    requires DigitPrefix(u) == Some((v, whole))
    ensures SignedDigits(u) == Some((v as int, whole, 0))
  {
    assert u[0..] == u;
  }

  lemma SignedDigitsSigned(c: char, u: string, v: nat, whole: bool)
    requires c == '-' || c == '+'
    requires DigitPrefix(u) == Some((v, whole))
    ensures SignedDigits([c] + u) == Some((if c == '-' then -(v as int) else v, whole, 1))
  {
    assert ([c] + u)[1..] == u;
  }

}
