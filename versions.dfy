/**
 * The version comparator of the symbol-annotation checker (test/syms/main.go):
 * `splint` turns a dotted version into its integer segments and `versioncmp`
 * orders two versions, treating `*` as equal to everything.
 */
module Versions {
  import opened Text

  /** The wildcard endpoint of an annotation. */
  const Wildcard: string := "*"

  /** `strconv.ParseInt(p, 10, 64)` with the error discarded: an optional sign
    * followed by at least one decimal digit gives its value, anything else 0. */
  function ParseInt(p: string): int {
    if |p| > 0 && (p[0] == '+' || p[0] == '-') then
      if |p| > 1 && AllDigits(p[1..]) then
        (if p[0] == '-' then 0 - DigitsValue(p[1..]) else DigitsValue(p[1..]))
      else 0
    else if |p| > 0 && AllDigits(p) then DigitsValue(p)
    else 0
  }

  /** `ParseInt` applied to every element. */
  function ParseAll(parts: seq<string>): (ints: seq<int>)
    ensures |ints| == |parts|
    ensures forall i :: 0 <= i < |parts| ==> ints[i] == ParseInt(parts[i])
  {
    if |parts| == 0 then [] else ParseAll(parts[..|parts| - 1]) + [ParseInt(parts[|parts| - 1])]
  }

  /** The integer segments of a dotted version string. */
  function Segments(str: string): (ints: seq<int>)
  {
    ParseAll(Split(str, '.'))
  }

  /** Lexicographic comparison of integer sequences; a sequence that runs out
    * first is the smaller one. */
  function LexCmp(a: seq<int>, b: seq<int>): (r: int)
    ensures r == -1 || r == 0 || r == 1
  {
    if |a| == 0 && |b| == 0 then 0
    else if |b| == 0 then 1
    else if |a| == 0 then -1
    else if a[0] > b[0] then 1
    else if b[0] > a[0] then -1
    else LexCmp(a[1..], b[1..])
  }

  /** The order `versioncmp` computes. */
  function Compare(a: string, b: string): int {
    if a == Wildcard || b == Wildcard then 0 else LexCmp(Segments(a), Segments(b))
  }

  /** `splint`: one `ParseInt` per dot-separated part, in order. */
  method Splint(str: string) returns (ints: seq<int>)
    ensures ints == Segments(str)
  {
    var spl := Split(str, '.');
    ints := [];
    var i := 0;
    while i < |spl|
      invariant 0 <= i <= |spl|
      invariant ints == ParseAll(spl[..i])
    {
      assert spl[..i + 1][..i] == spl[..i];
      ints := ints + [ParseInt(spl[i])];
      i := i + 1;
    }
    assert spl[..|spl|] == spl;
  }

  /** `versioncmp`: wildcards compare equal to anything; other versions are
    * compared segment by segment. */
  method VersionCmp(a: string, b: string) returns (r: int)
    ensures r == Compare(a, b)
  {
    if a == Wildcard || b == Wildcard {
      return 0;
    }
    var aspl := Splint(a);
    var bspl := Splint(b);
    r := CompareSegments(aspl, bspl);
  }

  /** The loop of `versioncmp`: an index loop over the longer segment list
    * with early returns. */
  method CompareSegments(aspl: seq<int>, bspl: seq<int>) returns (r: int)
    ensures r == LexCmp(aspl, bspl)
  {
    var mlen := |aspl|;
    if |bspl| > mlen {
      mlen := |bspl|;
    }
    var i := 0;
    assert aspl[0..] == aspl && bspl[0..] == bspl;
    while i < mlen
      invariant 0 <= i <= |aspl| && i <= |bspl|
      invariant mlen == if |aspl| < |bspl| then |bspl| else |aspl|
      invariant LexCmp(aspl, bspl) == LexCmp(aspl[i..], bspl[i..])
    {
      LexCmpAt(aspl, bspl, i);
      if i == |bspl| {
        return 1;
      } else if i == |aspl| {
        return -1;
      } else if aspl[i] > bspl[i] {
        return 1;
      } else if bspl[i] > aspl[i] {
        return -1;
      }
      i := i + 1;
    }
    LexCmpAt(aspl, bspl, i);
    return 0;
  }

  /** `LexCmp` on the segments from index `i` on, one index at a time. */
  lemma LexCmpAt(a: seq<int>, b: seq<int>, i: nat)
    requires i <= |a| && i <= |b|
    ensures LexCmp(a[i..], b[i..]) ==
      if i == |a| && i == |b| then 0
      else if i == |b| then 1
      else if i == |a| then -1
      else if a[i] > b[i] then 1
      else if b[i] > a[i] then -1
      else LexCmp(a[i + 1..], b[i + 1..])
  {
    if i < |a| && i < |b| {
      assert a[i..][1..] == a[i + 1..] && b[i..][1..] == b[i + 1..];
    }
  }

  lemma {:induction false} LexCmpAntisymmetric(a: seq<int>, b: seq<int>)
    ensures LexCmp(a, b) == -LexCmp(b, a)
    decreases |a|
  {
    if |a| > 0 && |b| > 0 && a[0] == b[0] {
      LexCmpAntisymmetric(a[1..], b[1..]);
    }
  }

  lemma {:induction false} LexCmpZeroIffEqual(a: seq<int>, b: seq<int>)
    ensures LexCmp(a, b) == 0 <==> a == b
    decreases |a|
  {
    if |a| > 0 && |b| > 0 && a[0] == b[0] {
      LexCmpZeroIffEqual(a[1..], b[1..]);
      assert a == [a[0]] + a[1..] && b == [b[0]] + b[1..];
    } else if |a| > 0 && |b| > 0 {
      assert a[0] != b[0];
    }
  }

  lemma {:induction false} LexCmpTransitive(a: seq<int>, b: seq<int>, c: seq<int>)
    requires LexCmp(a, b) <= 0 && LexCmp(b, c) <= 0
    ensures LexCmp(a, c) <= 0
    ensures LexCmp(a, c) == 0 ==> LexCmp(a, b) == 0 && LexCmp(b, c) == 0
    decreases |a|
  {
    if |a| > 0 && |b| > 0 && |c| > 0 && a[0] == b[0] && b[0] == c[0] {
      LexCmpTransitive(a[1..], b[1..], c[1..]);
    }
  }

  /** A proper prefix sorts before the sequence it is a prefix of. */
  lemma {:induction false} LexCmpProperPrefix(a: seq<int>, b: seq<int>)
    requires |a| < |b| && b[..|a|] == a
    ensures LexCmp(a, b) == -1
    decreases |a|
  {
    if |a| > 0 {
      assert a[0] == b[..|a|][0];
      assert b[1..][..|a| - 1] == a[1..];
      LexCmpProperPrefix(a[1..], b[1..]);
    }
  }

  /** The wildcard compares equal to everything, on either side. */
  lemma WildcardComparesEqual(v: string)
    ensures Compare(Wildcard, v) == 0 && Compare(v, Wildcard) == 0
  {
  }

  /** Away from the wildcard, `Compare` is antisymmetric and its zero is equality of
    * the integer segments (not of the strings). */
  lemma CompareAntisymmetric(a: string, b: string)
    ensures Compare(a, b) == -Compare(b, a)
    ensures a != Wildcard && b != Wildcard ==> (Compare(a, b) == 0 <==> Segments(a) == Segments(b))
  {
    LexCmpAntisymmetric(Segments(a), Segments(b));
    LexCmpZeroIffEqual(Segments(a), Segments(b));
  }

  /** Away from the wildcard, `Compare` is transitive. */
  lemma CompareTransitive(a: string, b: string, c: string)
    requires a != Wildcard && b != Wildcard && c != Wildcard
    requires Compare(a, b) <= 0 && Compare(b, c) <= 0
    ensures Compare(a, c) <= 0
    ensures Compare(a, b) < 0 || Compare(b, c) < 0 ==> Compare(a, c) < 0
  {
    LexCmpTransitive(Segments(a), Segments(b), Segments(c));
  }

  /** A version whose segments extend another's sorts after it, e.g. "4.6" < "4.6.9960". */
  lemma ShorterSortsFirst(a: string, b: string)
    requires a != Wildcard && b != Wildcard
    requires |Segments(a)| < |Segments(b)| && Segments(b)[..|Segments(a)|] == Segments(a)
    ensures Compare(a, b) == -1 && Compare(b, a) == 1
  {
    LexCmpProperPrefix(Segments(a), Segments(b));
    LexCmpAntisymmetric(Segments(a), Segments(b));
  }

  /** A segment with a character that is neither a digit nor a leading sign parses as 0. */
  lemma NonNumericSegmentIsZero(p: string, k: nat)
    requires k < |p| && !IsDigit(p[k]) && !(k == 0 && (p[0] == '+' || p[0] == '-'))
    ensures ParseInt(p) == 0
  {
    if k > 0 && |p| > 0 && (p[0] == '+' || p[0] == '-') {
      assert !IsDigit(p[1..][k - 1]);
    }
  }

  lemma SplitLongExample()
    ensures Split("4.6.9960", '.') == ["4", "6", "9960"]
  {
    SplitNoSep("9960", '.');
    assert "4.6.9960" == "4" + "." + "6.9960" && "6.9960" == "6" + "." + "9960";
    SplitFirst("6", '.', "9960");
    SplitFirst("4", '.', "6.9960");
  }

  lemma ParseLongExample()
    ensures ParseAll(["4", "6", "9960"]) == [4, 6, 9960]
  {
    assert "9960"[..3] == "996" && "996"[..2] == "99" && "99"[..1] == "9";
    assert DigitsValue("9") == 9 && DigitsValue("99") == 99 && DigitsValue("996") == 996;
    assert AllDigits("9960") && ParseInt("9960") == 9960;
  }

  /** "4.6" sorts before "4.6.9960". */
  lemma ExamplePrefix()
    ensures Compare("4.6", "4.6.9960") == -1
  {
    SegmentsShortExample();
    SplitLongExample();
    ParseLongExample();
    assert Segments("4.6.9960") == [4, 6, 9960];
    ShorterSortsFirst("4.6", "4.6.9960");
  }

  lemma SegmentsShortExample()
    ensures Segments("4.6") == [4, 6]
  {
    SplitNoSep("6", '.');
    assert "4.6" == "4" + "." + "6";
    SplitFirst("4", '.', "6");
  }

  lemma SegmentsPaddedExample()
    ensures Segments("4.06") == [4, 6]
  {
    SplitNoSep("06", '.');
    assert "4.06" == "4" + "." + "06";
    SplitFirst("4", '.', "06");
    assert "06"[..1] == "0" && DigitsValue("06") == 6;
  }

  /** "4.06" and "4.6" compare equal although the strings differ. */
  lemma ExampleLeadingZero()
    ensures Compare("4.06", "4.6") == 0
  {
    SegmentsShortExample();
    SegmentsPaddedExample();
    CompareAntisymmetric("4.06", "4.6");
  }

  /** A non-numeric segment counts as 0: "4.x" and "4.0" compare equal. */
  lemma ExampleNonNumeric()
    ensures Compare("4.x", "4.0") == 0
  {
    SplitNoSep("x", '.'); SplitNoSep("0", '.');
    assert "4.x" == "4" + "." + "x" && "4.0" == "4" + "." + "0";
    SplitFirst("4", '.', "x"); SplitFirst("4", '.', "0");
    NonNumericSegmentIsZero("x", 0);
    assert Segments("4.x") == [4, 0];
    assert Segments("4.0") == [4, 0];
    CompareAntisymmetric("4.x", "4.0");
  }
}
