/**
 * The annotation scanner of the symbol-annotation checker (`FindSymChecks` in
 * test/syms/main.go). Each source line holding `//libnickel` declares that a
 * range of firmware versions needs one of a list of symbols. The directory walk
 * and file reading are not modelled: the scanner receives the files in walk
 * order, each already split into lines.
 */
module Annotations {
  import opened Wrappers
  import opened Text

  const Marker: string := "//libnickel"
  const Library: string := "libnickel.so.1.0.0"

  /** One annotation: `file` is `path:line:col` with a 1-based column. */
  datatype SymCheck = SymCheck(file: string, library: string, startVersion: string,
                               endVersion: string, symbols: seq<string>)

  datatype SourceFile = SourceFile(path: string, lines: seq<string>)

  /** The position of a malformed annotation; it aborts the whole scan. */
  datatype ParseError = ParseError(path: string, line: nat, col: nat)

  /** Go's `filepath.Ext`: the suffix from the last '.' of the final path element. */
  function Ext(path: string): (e: string)
    ensures e == "" || (e[0] == '.' && |e| <= |path| && e == path[|path| - |e|..])
  {
    if |path| == 0 || path[|path| - 1] == '/' then ""
    else if path[|path| - 1] == '.' then "."
    else
      var e := Ext(path[..|path| - 1]);
      if e == "" then "" else e + [path[|path| - 1]]
  }

  /** Position `k` lies in the final element of `path`: no '/' from it on. */
  predicate InLastElement(path: string, k: int) {
    0 <= k < |path| && forall j :: k <= j < |path| ==> path[j] != '/'
  }

  /** A non-empty extension holds no '/' and no '.' after its leading dot;
    * being a suffix of the path, it therefore starts at the last '.' of the
    * final path element. */
  lemma {:induction false} ExtShape(path: string)
    ensures var e := Ext(path);
      e != "" ==> (forall k :: 0 <= k < |e| ==> e[k] != '/') && forall k :: 1 <= k < |e| ==> e[k] != '.'
  {
    if |path| > 0 && path[|path| - 1] != '/' && path[|path| - 1] != '.' {
      ExtShape(path[..|path| - 1]);
    }
  }

  /** The extension is empty exactly when the final path element has no '.'. */
  lemma {:induction false} ExtEmptyIff(path: string)
    ensures Ext(path) == "" <==> forall k :: InLastElement(path, k) ==> path[k] != '.'
  {
    if |path| == 0 {
    } else if path[|path| - 1] == '/' {
    } else if path[|path| - 1] == '.' {
      assert InLastElement(path, |path| - 1);
    } else {
      var init := path[..|path| - 1];
      ExtEmptyIff(init);
      forall k | 0 <= k < |init| ensures InLastElement(path, k) <==> InLastElement(init, k) {
        if InLastElement(init, k) {
          forall j | k <= j < |path| ensures path[j] != '/' {
            if j < |init| { assert path[j] == init[j]; }
          }
        }
      }
    }
  }

  /** A name ending in '.' and a dot-free, slash-free `x` has the extension "." + `x`,
    * whatever comes before it (`dir/name.c` has ".c"). */
  lemma {:induction false} ExtDotted(q: string, x: string)
    requires '.' !in x && '/' !in x
    ensures Ext(q + "." + x) == "." + x
  {
    if |x| == 0 {
      ExtDotEnd(q + "." + x);
    } else {
      var init, c := x[..|x| - 1], x[|x| - 1];
      assert x == init + [c];
      ExtDotted(q, init);
      AppendAssoc3(q + ".", init, [c]);
      ExtStep(q + "." + init, c);
      AppendAssoc3(".", init, [c]);
    }
  }

  lemma ExtDotEnd(path: string)
    requires |path| > 0 && path[|path| - 1] == '.'
    ensures Ext(path) == "."
  {
  }

  /** A character other than '/' and '.' extends a non-empty extension. */
  lemma ExtStep(path: string, c: char)
    requires c != '/' && c != '.' && Ext(path) != ""
    ensures Ext(path + [c]) == Ext(path) + [c]
  {
    assert (path + [c])[..|path|] == path;
  }

  /** Only C and C++ sources and headers are scanned. */
  predicate IsScanned(path: string) {
    Ext(path) in {".c", ".cc", ".cpp", ".h"}
  }

  /** The `path:line:col` location of an annotation. */
  function Location(path: string, line: nat, col: nat): string {
    path + ":" + NatToDecimal(line) + ":" + NatToDecimal(col)
  }

  /** What every scanned check satisfies: a location the scanner made, a
    * concrete start version, at least one symbol and the libnickel library. */
  ghost predicate WellFormed(c: SymCheck) {
    (exists path, line: nat, col: nat :: c.file == Location(path, line, col)) &&
    |c.symbols| >= 1 && c.startVersion != "*" && c.library == Library
  }

  /** True when the tokens after the marker do not form a valid annotation. */
  predicate Malformed(args: seq<string>) {
    |args| < 3 || args[0] == "*"
  }

  /** One line of `FindSymChecks`: no marker gives nothing; a marker followed by
    * fewer than three fields, or by `*` as the start version, is an error. */
  function ParseLine(path: string, line: nat, text: string): (r: Result<Option<SymCheck>, ParseError>)
    ensures r.Ok? && r.value.Some? ==> WellFormed(r.value.value)
  {
    match Find(text, Marker)
    case None => Ok(None)
    case Some(col) =>
      var args := Fields(TrimGoSpace(text[col + |Marker|..]));
      if Malformed(args) then Err(ParseError(path, line, col + 1))
      else Ok(Some(SymCheck(Location(path, line, col + 1), Library, args[0], args[1], args[2..])))
  }

  /** A line without the marker declares nothing. */
  lemma ParseLineNoMarker(path: string, line: nat, text: string)
    requires forall k :: !MatchAt(text, Marker, k)
    ensures ParseLine(path, line, text) == Ok(None)
  {
  }

  /** The line `pre` + marker + the words `args` separated by spaces, with no
    * marker in `pre`: an error at the 1-based column of the marker when the
    * words are malformed, and otherwise the check they spell, located there. */
  lemma ParseLineOf(path: string, line: nat, pre: string, args: seq<string>)
    requires forall k :: 0 <= k < |pre| ==> !MatchAt(pre + Marker, Marker, k)
    requires forall i :: 0 <= i < |args| ==> IsWord(args[i])
    ensures ParseLine(path, line, pre + Marker + " " + Join(args, " ")) ==
      if Malformed(args) then Err(ParseError(path, line, |pre| + 1))
      else Ok(Some(SymCheck(Location(path, line, |pre| + 1), Library, args[0], args[1], args[2..])))
  {
    WordsAfterMarker(pre, args);
    ParseLineAt(path, line, pre + Marker + " " + Join(args, " "), |pre|, args);
  }

  /** The marker of such a line is at `|pre|` and the words after it are `args`. */
  lemma WordsAfterMarker(pre: string, args: seq<string>)
    requires forall k :: 0 <= k < |pre| ==> !MatchAt(pre + Marker, Marker, k)
    requires forall i :: 0 <= i < |args| ==> IsWord(args[i])
    ensures var text := pre + Marker + " " + Join(args, " ");
      Find(text, Marker) == Some(|pre|) && Fields(TrimGoSpace(text[|pre| + |Marker|..])) == args
  {
    var after := " " + Join(args, " ");
    AppendAssoc3(pre + Marker, " ", Join(args, " "));
    MarkerFirstAt(pre, after);
    AfterMarker(pre, after);
    FieldsTrimGoSpace(after);
    FieldsSkipSpace(Join(args, " "));
    FieldsJoin(args);
  }

  lemma AfterMarker(pre: string, after: string)
    ensures (pre + Marker + after)[|pre| + |Marker|..] == after
  {
  }

  /** `ParseLine` once the marker column and the words after it are known. */
  lemma ParseLineAt(path: string, line: nat, text: string, col: nat, args: seq<string>)
    requires Find(text, Marker) == Some(col)
    requires Fields(TrimGoSpace(text[col + |Marker|..])) == args
    ensures ParseLine(path, line, text) ==
      if Malformed(args) then Err(ParseError(path, line, col + 1))
      else Ok(Some(SymCheck(Location(path, line, col + 1), Library, args[0], args[1], args[2..])))
  {
  }

  /** The marker after a marker-free `pre` is found at index `|pre|`. */
  lemma MarkerFirstAt(pre: string, after: string)
    requires forall k :: 0 <= k < |pre| ==> !MatchAt(pre + Marker, Marker, k)
    ensures Find(pre + Marker + after, Marker) == Some(|pre|)
  {
    var text := pre + Marker + after;
    assert text[|pre|..|pre| + |Marker|] == Marker;
    assert MatchAt(text, Marker, |pre|);
    var pm := pre + Marker;
    assert text[..|pm|] == pm;
    forall k | 0 <= k < |pre| ensures !MatchAt(text, Marker, k) {
      assert !MatchAt(pm, Marker, k);
      assert text[k..k + |Marker|] == text[..|pm|][k..k + |Marker|];
    }
  }

  /** The checks of the first `n` lines of a file (line numbers start at 1). */
  function ScanLines(path: string, lines: seq<string>, n: nat): Result<seq<SymCheck>, ParseError>
    requires n <= |lines|
  {
    if n == 0 then Ok([])
    else
      match ScanLines(path, lines, n - 1)
      case Err(e) => Err(e)
      case Ok(cs) =>
        match ParseLine(path, n, lines[n - 1])
        case Err(e) => Err(e)
        case Ok(None) => Ok(cs)
        case Ok(Some(c)) => Ok(cs + [c])
  }

  /** The checks of the first `n` files, in walk order then line order. */
  function ScanFiles(files: seq<SourceFile>, n: nat): Result<seq<SymCheck>, ParseError>
    requires n <= |files|
  {
    if n == 0 then Ok([])
    else
      match ScanFiles(files, n - 1)
      case Err(e) => Err(e)
      case Ok(cs) =>
        var f := files[n - 1];
        if !IsScanned(f.path) then Ok(cs)
        else
          match ScanLines(f.path, f.lines, |f.lines|)
          case Err(e) => Err(e)
          case Ok(fcs) => Ok(cs + fcs)
  }

  /** The per-file step of `FindSymChecks`: the lines of one file in order,
    * stopping at the first malformed annotation. */
  method ScanFile(f: SourceFile) returns (r: Result<seq<SymCheck>, ParseError>)
    ensures r == ScanLines(f.path, f.lines, |f.lines|)
  {
    var line := 0;
    var fileChecks: seq<SymCheck> := [];
    while line < |f.lines|
      invariant 0 <= line <= |f.lines|
      invariant ScanLines(f.path, f.lines, line) == Ok(fileChecks)
    {
      line := line + 1;
      var parsed := ParseLine(f.path, line, f.lines[line - 1]);
      if parsed.Err? {
        r := Err(parsed.error);
        ScanLinesStopsAtError(f.path, f.lines, line, |f.lines|);
        return;
      }
      if parsed.value.Some? {
        fileChecks := fileChecks + [parsed.value.value];
      }
    }
    r := Ok(fileChecks);
  }

  /** `FindSymChecks`: the checks of every scanned file in walk order, or the
    * first malformed annotation. */
  method FindSymChecks(files: seq<SourceFile>) returns (r: Result<seq<SymCheck>, ParseError>)
    ensures r == ScanFiles(files, |files|)
  {
    var checks: seq<SymCheck> := [];
    var i := 0;
    while i < |files|
      invariant 0 <= i <= |files|
      invariant ScanFiles(files, i) == Ok(checks)
    {
      var f := files[i];
      if IsScanned(f.path) {
        var fileChecks := ScanFile(f);
        if fileChecks.Err? {
          r := fileChecks;
          ScanFilesStopsAtError(files, i + 1, |files|);
          return;
        }
        checks := checks + fileChecks.value;
      }
      i := i + 1;
    }
    r := Ok(checks);
  }

  /** Once the scan of a prefix of the lines fails, it fails the same way for every longer prefix. */
  lemma {:induction false} ScanLinesStopsAtError(path: string, lines: seq<string>, n: nat, m: nat)
    requires n <= m <= |lines| && ScanLines(path, lines, n).Err?
    ensures ScanLines(path, lines, m) == ScanLines(path, lines, n)
    decreases m - n
  {
    if n < m {
      assert ScanLines(path, lines, n + 1) == ScanLines(path, lines, n);
      ScanLinesStopsAtError(path, lines, n + 1, m);
    }
  }

  /** Once the scan of a prefix of the files fails, it fails the same way for every longer prefix. */
  lemma {:induction false} ScanFilesStopsAtError(files: seq<SourceFile>, n: nat, m: nat)
    requires n <= m <= |files| && ScanFiles(files, n).Err?
    ensures ScanFiles(files, m) == ScanFiles(files, n)
    decreases m - n
  {
    if n < m {
      assert ScanFiles(files, n + 1) == ScanFiles(files, n);
      ScanFilesStopsAtError(files, n + 1, m);
    }
  }

  /** Line `k` (0-based) of `lines` has no marker or a well-formed annotation. */
  predicate LineOk(path: string, lines: seq<string>, k: nat)
    requires k < |lines|
  {
    ParseLine(path, k + 1, lines[k]).Ok?
  }

  /** Every line of a scanned file is acceptable. */
  predicate FileOk(f: SourceFile) {
    IsScanned(f.path) ==> forall k :: 0 <= k < |f.lines| ==> LineOk(f.path, f.lines, k)
  }

  lemma {:induction false} ScanLinesOkIff(path: string, lines: seq<string>, n: nat)
    requires n <= |lines|
    ensures ScanLines(path, lines, n).Ok? <==> forall k :: 0 <= k < n ==> LineOk(path, lines, k)
    ensures ScanLines(path, lines, n).Ok? ==> forall c :: c in ScanLines(path, lines, n).value ==> WellFormed(c)
  {
    if n > 0 {
      ScanLinesOkIff(path, lines, n - 1);
      var parsed := ParseLine(path, n, lines[n - 1]);
      assert LineOk(path, lines, n - 1) <==> parsed.Ok?;
      if ScanLines(path, lines, n - 1).Ok? && parsed.Ok? {
        assert forall k :: 0 <= k < n ==> LineOk(path, lines, k) by {
          forall k | 0 <= k < n ensures LineOk(path, lines, k) {
            if k < n - 1 { assert LineOk(path, lines, k); }
          }
        }
      }
    }
  }

  /** A file the scan accepts: unscanned, or with a successful line scan. */
  predicate FileScans(f: SourceFile) {
    IsScanned(f.path) ==> ScanLines(f.path, f.lines, |f.lines|).Ok?
  }

  /** One more file: the scan goes on exactly when that file scans, and then
    * adds that file's checks, if it is scanned, after the earlier ones. */
  lemma ScanFilesLast(files: seq<SourceFile>, n: nat)
    requires 0 < n <= |files|
    ensures ScanFiles(files, n).Ok? <==> ScanFiles(files, n - 1).Ok? && FileScans(files[n - 1])
    ensures ScanFiles(files, n).Ok? ==>
      ScanFiles(files, n).value == ScanFiles(files, n - 1).value +
        (if IsScanned(files[n - 1].path) then ScanLines(files[n - 1].path, files[n - 1].lines, |files[n - 1].lines|).value else [])
  {
    assert ScanFiles(files, n - 1).Ok? ==> ScanFiles(files, n - 1).value + [] == ScanFiles(files, n - 1).value;
  }

  lemma {:induction false} ScanFilesOkIff(files: seq<SourceFile>, n: nat)
    requires n <= |files|
    ensures ScanFiles(files, n).Ok? <==> forall i :: 0 <= i < n ==> FileScans(files[i])
  {
    if n > 0 {
      ScanFilesOkIff(files, n - 1);
      ScanFilesLast(files, n);
      if ScanFiles(files, n - 1).Ok? && FileScans(files[n - 1]) {
        forall i | 0 <= i < n ensures FileScans(files[i]) {
          if i < n - 1 { assert FileScans(files[i]); }
        }
      }
    }
  }

  /** Every check a successful scan returns was found in one of the scanned files. */
  lemma {:induction false} ScanFilesFrom(files: seq<SourceFile>, n: nat)
    requires n <= |files|
    ensures ScanFiles(files, n).Ok? ==> forall c :: c in ScanFiles(files, n).value ==>
      exists i :: 0 <= i < n && IsScanned(files[i].path) && ScanLines(files[i].path, files[i].lines, |files[i].lines|).Ok? && c in ScanLines(files[i].path, files[i].lines, |files[i].lines|).value
  {
    if n > 0 && ScanFiles(files, n).Ok? {
      ScanFilesFrom(files, n - 1);
      ScanFilesLast(files, n);
      forall c | c in ScanFiles(files, n).value
        ensures exists i :: 0 <= i < n && IsScanned(files[i].path) && ScanLines(files[i].path, files[i].lines, |files[i].lines|).Ok? && c in ScanLines(files[i].path, files[i].lines, |files[i].lines|).value
      {
        if c !in ScanFiles(files, n - 1).value {
          assert IsScanned(files[n - 1].path) && ScanLines(files[n - 1].path, files[n - 1].lines, |files[n - 1].lines|).Ok? && c in ScanLines(files[n - 1].path, files[n - 1].lines, |files[n - 1].lines|).value;
        }
      }
    }
  }

  /** The scan succeeds exactly when every line of every scanned file is
    * acceptable, and then every check is well formed. */
  lemma ScanOkIffAllLinesOk(files: seq<SourceFile>)
    ensures ScanFiles(files, |files|).Ok? <==> forall i :: 0 <= i < |files| ==> FileOk(files[i])
    ensures ScanFiles(files, |files|).Ok? ==> forall c :: c in ScanFiles(files, |files|).value ==> WellFormed(c)
  {
    ScanFilesOkIff(files, |files|);
    ScanFilesFrom(files, |files|);
    forall i | 0 <= i < |files| ensures FileScans(files[i]) <==> FileOk(files[i]) {
      ScanLinesOkIff(files[i].path, files[i].lines, |files[i].lines|);
    }
    if ScanFiles(files, |files|).Ok? {
      forall c | c in ScanFiles(files, |files|).value ensures WellFormed(c) {
        var i :| 0 <= i < |files| && IsScanned(files[i].path) && ScanLines(files[i].path, files[i].lines, |files[i].lines|).Ok? && c in ScanLines(files[i].path, files[i].lines, |files[i].lines|).value;
        ScanLinesOkIff(files[i].path, files[i].lines, |files[i].lines|);
      }
    }
  }

  /** Splitting a location on ':' gives back its path, line and column when the
    * path has no ':' (the reporter relies on this). */
  lemma LocationSplits(path: string, line: nat, col: nat)
    requires ':' !in path
    ensures Split(Location(path, line, col), ':') == [path, NatToDecimal(line), NatToDecimal(col)]
  {
    DigitsHaveNoColon(NatToDecimal(line));
    DigitsHaveNoColon(NatToDecimal(col));
    SplitThree(path, NatToDecimal(line), NatToDecimal(col), ':');
  }
}
