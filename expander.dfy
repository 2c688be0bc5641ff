/**
 * The expansion step of the symbol-annotation checker (the first loop of `main`
 * in test/syms/main.go): every scanned annotation is matched against the table
 * of firmware versions that have test data, producing for each version and
 * library the checks to run there, plus a warning for every version specifier
 * that names no known version.
 */
module Expander {
  import opened Text
  import opened Versions
  import opened Annotations

  /** The firmware versions with published test data, oldest first. */
  const KnownVersions: seq<string> := [
    "4.6.9960", "4.6.9995", "4.7.10075", "4.7.10364", "4.7.10413",
    "4.8.10956", "4.8.11073", "4.8.11090", "4.9.11311", "4.9.11314",
    "4.10.11591", "4.10.11655", "4.11.11911", "4.11.11976", "4.11.11980",
    "4.11.11982", "4.11.12019", "4.12.12111", "4.13.12638", "4.14.12777",
    "4.15.12920", "4.16.13162", "4.17.13651", "4.17.13694", "4.18.13737",
    "4.19.14123", "4.20.14601", "4.20.14617", "4.20.14622", "4.21.15015",
    "4.22.15190", "4.22.15268", "4.23.15505", "4.24.15672", "4.24.15676",
    "4.25.15875", "4.26.16704", "4.28.17623", "4.28.17820", "4.28.17826",
    "4.28.17925", "4.28.18220", "4.29.18730", "4.30.18838", "4.31.19086",
    "4.32.19501", "4.33.19608", "4.33.19611", "4.33.19759", "4.34.20097",
    "4.35.20400", "4.36.21095"
  ]

  /** version -> library -> the checks to run against that library of that version. */
  type Plan = map<string, map<string, seq<SymCheck>>>

  /** "no exact match for the base version in specifier ..." for one annotation. */
  datatype Warning = NoExactMatch(file: string, specifier: string)

  /** The version lies between the annotation's endpoints, both inclusive. */
  predicate InRange(c: SymCheck, v: string) {
    Compare(c.startVersion, v) <= 0 && Compare(v, c.endVersion) <= 0
  }

  /** The specifier is `*`, or is `v` itself or a dot-boundary prefix of it. */
  predicate ExactBase(spec: string, v: string) {
    spec == Wildcard || HasPrefix(v + ".", spec + ".")
  }

  predicate NoDup(vs: seq<string>) {
    forall i, j :: 0 <= i < j < |vs| ==> vs[i] != vs[j]
  }

  /** The checks planned for `lib` at `v`, none when there is no entry. */
  function Lookup(m: Plan, v: string, lib: string): seq<SymCheck> {
    if v in m && lib in m[v] then m[v][lib] else []
  }

  /** No empty entries: an inner map exists only once a check was added to it. */
  predicate Tidy(m: Plan) {
    forall v :: v in m ==> m[v] != map[] && forall lib :: lib in m[v] ==> m[v][lib] != []
  }

  /** Appends `c` to the checks of its library at `v`, creating the entries on demand. */
  function AddCheck(m: Plan, v: string, c: SymCheck): (m': Plan)
    ensures forall v', lib ::
              Lookup(m', v', lib) == Lookup(m, v', lib) + (if v' == v && lib == c.library then [c] else [])
    ensures m'.Keys == m.Keys + {v}
    ensures Tidy(m) ==> Tidy(m')
  {
    var inner := if v in m then m[v] else map[];
    var prev := if c.library in inner then inner[c.library] else [];
    m[v := inner[c.library := prev + [c]]]
  }

  /** How many of `vs` the specifier names exactly (`sm` / `em` in `test/syms/main.go`). */
  function CountExact(spec: string, vs: seq<string>): nat {
    if |vs| == 0 then 0
    else CountExact(spec, vs[..|vs| - 1]) + (if ExactBase(spec, vs[|vs| - 1]) then 1 else 0)
  }

  /** The plan after adding `c` at every version of `vs` in its range. */
  function ExpandCheck(m: Plan, c: SymCheck, vs: seq<string>): Plan {
    if |vs| == 0 then m
    else
      var m' := ExpandCheck(m, c, vs[..|vs| - 1]);
      if InRange(c, vs[|vs| - 1]) then AddCheck(m', vs[|vs| - 1], c) else m'
  }

  /** The warnings for one annotation: start specifier first, then end specifier. */
  function WarningsFor(c: SymCheck, vs: seq<string>): seq<Warning> {
    (if CountExact(c.startVersion, vs) == 0 then [NoExactMatch(c.file, c.startVersion)] else [])
    + (if CountExact(c.endVersion, vs) == 0 then [NoExactMatch(c.file, c.endVersion)] else [])
  }

  /** The plan and warnings after the first loop of `main` over annotations `sc`. */
  function Expand(sc: seq<SymCheck>, vs: seq<string>): (Plan, seq<Warning>) {
    if |sc| == 0 then (map[], [])
    else
      var (p, w) := Expand(sc[..|sc| - 1], vs);
      var c := sc[|sc| - 1];
      (ExpandCheck(p, c, vs), w + WarningsFor(c, vs))
  }

  /** The annotations of `sc` for `lib` whose range holds `v`, in scan order. */
  function Selected(sc: seq<SymCheck>, v: string, lib: string): (r: seq<SymCheck>)
    ensures forall c :: c in r <==> c in sc && c.library == lib && InRange(c, v)
    ensures |r| <= |sc|
  {
    if |sc| == 0 then []
    else
      var c := sc[|sc| - 1];
      Selected(sc[..|sc| - 1], v, lib) + (if c.library == lib && InRange(c, v) then [c] else [])
  }

  /** The body of the first loop of `main` for one annotation: counts the
    * exact base matches of both specifiers and files the annotation under every
    * version in its range. */
  method ExpandOne(plan0: Plan, c: SymCheck, versions: seq<string>) returns (plan: Plan, sm: nat, em: nat)
    ensures plan == ExpandCheck(plan0, c, versions)
    ensures sm == CountExact(c.startVersion, versions) && em == CountExact(c.endVersion, versions)
  {
    plan, sm, em := plan0, 0, 0;
    for j := 0 to |versions|
      invariant sm == CountExact(c.startVersion, versions[..j])
      invariant em == CountExact(c.endVersion, versions[..j])
      invariant plan == ExpandCheck(plan0, c, versions[..j])
    {
      var version := versions[j];
      ExpandStep(plan0, c, versions, j);
      CountStep(c.startVersion, versions, j);
      CountStep(c.endVersion, versions, j);
      if c.startVersion == Wildcard || HasPrefix(version + ".", c.startVersion + ".") {
        sm := sm + 1;
      }
      if c.endVersion == Wildcard || HasPrefix(version + ".", c.endVersion + ".") {
        em := em + 1;
      }
      var lo := VersionCmp(c.startVersion, version);
      var hi := VersionCmp(version, c.endVersion);
      if lo <= 0 && hi <= 0 {
        plan := FileUnder(plan, version, c);
      }
    }
    assert versions[..|versions|] == versions;
  }

  /** Files `c` under its library at `version`, creating the entries on demand. */
  method FileUnder(plan0: Plan, version: string, c: SymCheck) returns (plan: Plan)
    ensures plan == AddCheck(plan0, version, c)
  {
    plan := plan0;
    if version !in plan {
      plan := plan[version := map[]];
    }
    var prev := if c.library in plan[version] then plan[version][c.library] else [];
    plan := plan[version := plan[version][c.library := prev + [c]]];
  }

  /** One more version in the expansion of one annotation. */
  lemma ExpandStep(plan0: Plan, c: SymCheck, vs: seq<string>, j: nat)
    requires j < |vs|
    ensures ExpandCheck(plan0, c, vs[..j + 1]) ==
      if InRange(c, vs[j]) then AddCheck(ExpandCheck(plan0, c, vs[..j]), vs[j], c) else ExpandCheck(plan0, c, vs[..j])
  {
    assert vs[..j + 1][..j] == vs[..j];
  }

  /** One more version in the count of exact matches. */
  lemma CountStep(spec: string, vs: seq<string>, j: nat)
    requires j < |vs|
    ensures CountExact(spec, vs[..j + 1]) == CountExact(spec, vs[..j]) + (if ExactBase(spec, vs[j]) then 1 else 0)
  {
    assert vs[..j + 1][..j] == vs[..j];
  }

  /** The first loop of `main`: expands every annotation in scan order and
    * warns about each specifier that matched no version. */
  method ExpandChecks(sc: seq<SymCheck>, versions: seq<string>) returns (plan: Plan, warnings: seq<Warning>)
    ensures (plan, warnings) == Expand(sc, versions)
  {
    plan, warnings := map[], [];
    for i := 0 to |sc|
      invariant (plan, warnings) == Expand(sc[..i], versions)
    {
      var c := sc[i];
      ghost var w0 := warnings;
      var sm, em;
      plan, sm, em := ExpandOne(plan, c, versions);
      if sm == 0 {
        warnings := warnings + [NoExactMatch(c.file, c.startVersion)];
      }
      if em == 0 {
        warnings := warnings + [NoExactMatch(c.file, c.endVersion)];
      }
      assert warnings == w0 + WarningsFor(c, versions);
      assert sc[..i + 1][..i] == sc[..i];
    }
    assert sc[..|sc|] == sc;
  }

  /** A specifier draws a warning exactly when it is not `*` and is not the base of any listed version. */
  lemma {:induction false} CountExactZeroIff(spec: string, vs: seq<string>)
    ensures CountExact(spec, vs) == 0 <==> forall v :: v in vs ==> !ExactBase(spec, v)
  {
    if |vs| > 0 {
      var init := vs[..|vs| - 1];
      CountExactZeroIff(spec, init);
      assert vs == init + [vs[|vs| - 1]];
    }
  }

  /** Every warning names an annotation of `sc` and one of its specifiers that
    * matched none of `vs`, and every such specifier is warned about. */
  lemma {:induction false} WarningsExact(sc: seq<SymCheck>, vs: seq<string>, w: Warning)
    ensures w in Expand(sc, vs).1 <==>
              exists c :: c in sc && w.file == c.file &&
                          ((w.specifier == c.startVersion && CountExact(c.startVersion, vs) == 0) ||
                           (w.specifier == c.endVersion && CountExact(c.endVersion, vs) == 0))
  {
    if |sc| > 0 {
      var init := sc[..|sc| - 1];
      WarningsExact(init, vs, w);
      assert sc == init + [sc[|sc| - 1]];
    }
  }

  /** Adding one annotation over a duplicate-free version list extends exactly
    * the entries of its library at the versions of its range. */
  lemma {:induction false} ExpandCheckLookup(m: Plan, c: SymCheck, vs: seq<string>)
    requires NoDup(vs)
    ensures forall v, lib ::
              Lookup(ExpandCheck(m, c, vs), v, lib) ==
              Lookup(m, v, lib) + (if lib == c.library && v in vs && InRange(c, v) then [c] else [])
    ensures forall v :: v in ExpandCheck(m, c, vs) <==> v in m || (v in vs && InRange(c, v))
    ensures Tidy(m) ==> Tidy(ExpandCheck(m, c, vs))
  {
    if |vs| > 0 {
      var init, last := vs[..|vs| - 1], vs[|vs| - 1];
      NoDupInitLast(vs);
      ExpandCheckLookup(m, c, init);
      var m' := ExpandCheck(m, c, init);
      assert ExpandCheck(m, c, vs) == if InRange(c, last) then AddCheck(m', last, c) else m';
    }
  }

  /** The last version of a duplicate-free list is not among the others. */
  lemma NoDupInitLast(vs: seq<string>)
    requires NoDup(vs) && |vs| > 0
    ensures NoDup(vs[..|vs| - 1]) && vs[|vs| - 1] !in vs[..|vs| - 1]
    ensures forall v :: v in vs <==> v in vs[..|vs| - 1] || v == vs[|vs| - 1]
  {
    assert vs == vs[..|vs| - 1] + [vs[|vs| - 1]];
  }

  /** For a duplicate-free version list, the plan holds, for each listed
    * version and library, exactly the annotations of that library whose range
    * holds the version, in scan order; it has an entry for a version exactly
    * when some annotation covers it, and no empty entries. */
  lemma {:induction false} ExpandPlan(sc: seq<SymCheck>, vs: seq<string>)
    requires NoDup(vs)
    ensures forall v, lib :: Lookup(Expand(sc, vs).0, v, lib) == (if v in vs then Selected(sc, v, lib) else [])
    ensures forall v :: v in Expand(sc, vs).0 <==> v in vs && exists c :: c in sc && InRange(c, v)
    ensures Tidy(Expand(sc, vs).0)
  {
    if |sc| > 0 {
      var init, c := sc[..|sc| - 1], sc[|sc| - 1];
      assert sc == init + [c];
      ExpandPlan(init, vs);
      ExpandCheckLookup(Expand(init, vs).0, c, vs);
    }
  }

  /** Every annotation filed by `ExpandCheck` is the one added or was there before. */
  lemma {:induction false} ExpandCheckFrom(m: Plan, c: SymCheck, vs: seq<string>, v: string, lib: string)
    ensures forall d :: d in Lookup(ExpandCheck(m, c, vs), v, lib) ==> d == c || d in Lookup(m, v, lib)
  {
    if |vs| > 0 {
      ExpandCheckFrom(m, c, vs[..|vs| - 1], v, lib);
    }
  }

  /** The plan files only annotations it was given, whatever the version list. */
  lemma {:induction false} ExpandFrom(sc: seq<SymCheck>, vs: seq<string>, v: string, lib: string)
    ensures forall d :: d in Lookup(Expand(sc, vs).0, v, lib) ==> d in sc
  {
    if |sc| > 0 {
      var init := sc[..|sc| - 1];
      ExpandFrom(init, vs, v, lib);
      ExpandCheckFrom(Expand(init, vs).0, sc[|sc| - 1], vs, v, lib);
      assert sc == init + [sc[|sc| - 1]];
    }
  }

  /** A specifier that is the exact base of a version is at most that version,
    * and a proper base sorts strictly below it. */
  lemma ExactBaseOrder(spec: string, v: string)
    requires spec != Wildcard && v != Wildcard && ExactBase(spec, v)
    ensures Compare(spec, v) <= 0
    ensures v != spec ==> Compare(spec, v) == -1 && Compare(v, spec) == 1
  {
    var r := (v + ".")[|spec| + 1..];
    assert v + "." == spec + "." + r;
    if |r| == 0 {
      assert v == (v + ".")[..|v|] == (spec + ".")[..|spec|] == spec;
    }
    if v == spec {
      LexCmpZeroIffEqual(Segments(v), Segments(v));
    } else {
      assert |r| >= 1 && r[|r| - 1] == '.';
      var r' := r[..|r| - 1];
      assert v == spec + "." + r';
      SplitConcat(spec, '.', r');
      var a, b := Split(spec, '.'), Split(r', '.');
      assert ParseAll(a + b)[..|a|] == ParseAll(a);
      LexCmpProperPrefix(Segments(spec), Segments(v));
      LexCmpAntisymmetric(Segments(spec), Segments(v));
    }
  }

  /** An end specifier given as a bare base version (`4.20`) excludes every
    * build of that base (`4.20.14601`), although it passes the exact-match
    * warning. */
  lemma BaseEndExcludesBuilds(c: SymCheck, v: string)
    requires c.endVersion != Wildcard && v != Wildcard && v != c.endVersion
    requires ExactBase(c.endVersion, v)
    ensures CountExact(c.endVersion, [v]) == 1
    ensures !InRange(c, v)
  {
    ExactBaseOrder(c.endVersion, v);
    assert [v][..0] == [];
  }
}
