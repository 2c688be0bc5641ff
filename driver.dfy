/**
 * The driver of the symbol-annotation checker (`main` in test/syms/main.go,
 * after the expansion): versions in ascending order, the libraries of each in
 * string order, every planned check looked up in the library's dynamic
 * symbols. Fetching the test data (`GetPatcher`) and extracting and resolving
 * symbols (`patchlib`) are outside the model; they are the parameters `bin`
 * (what fetching and extraction give for a version and library) and `resolves`
 * (whether a symbol resolves in that binary).
 */
module Driver {
  import opened Wrappers
  import opened Text
  import opened Versions
  import opened Annotations
  import opened Expander
  import opened Ordering

  /** What `GetPatcher` and `ExtractDynsyms` give for one version and library. */
  datatype Binary = NoData | FetchFailed | ExtractFailed | Loaded

  /** A check none of whose symbols resolved in `lib` of `version`. */
  datatype Failure = Failure(check: SymCheck, lib: string, version: string)

  /** How the driver ends: a fatal fetch or extraction error (exit 1), a panic
    * on a location with fewer than three `:`-separated parts, or a complete run
    * with the failures in the order found. */
  datatype Outcome = Fatal(stage: string) | Crashed | Done(errs: seq<Failure>)

  type Oracle = (string, string) -> Binary
  type Resolver = (string, string, string) -> bool

  /** The order the version keys are sorted by. */
  predicate VersionLe(a: string, b: string) {
    Compare(a, b) <= 0
  }

  /** `%+s` of a string slice: the elements in brackets, separated by spaces. */
  function Bracketed(syms: seq<string>): string {
    "[" + Join(syms, " ") + "]"
  }

  /** The text of a failure in `errs`. */
  function ErrMessage(f: Failure): string {
    f.check.file + ": one of " + Bracketed(f.check.symbols) + " not found in " + f.lib + "@" + f.version
  }

  /** The text of a failure in its GitHub annotation. */
  function GhMessage(f: Failure): string {
    "one of symbols " + Bracketed(f.check.symbols) + " not found in " + f.lib + "@" + f.version
  }

  /** The `file=..,line=..,col=..` key of a location; none where taking the
    * third `:`-separated part would panic. */
  function GhKey(file: string): Option<string> {
    var spl := Split(file, ':');
    if |spl| < 3 then None else Some("file=" + spl[0] + ",line=" + spl[1] + ",col=" + spl[2])
  }

  /** Some symbol of the check resolves. */
  predicate Found(c: SymCheck, v: string, lib: string, resolves: Resolver) {
    exists s :: s in c.symbols && resolves(v, lib, s)
  }

  /** The failures of a group of checks, in order. */
  function Failures(cs: seq<SymCheck>, v: string, lib: string, resolves: Resolver): seq<Failure> {
    if |cs| == 0 then []
    else
      var c := cs[|cs| - 1];
      Failures(cs[..|cs| - 1], v, lib, resolves) + (if Found(c, v, lib, resolves) then [] else [Failure(c, lib, v)])
  }

  /** The groups of one version, one per library in the given order. */
  function Pairs(v: string, libs: seq<string>): (gs: seq<(string, string)>)
    ensures |gs| == |libs| && forall k :: 0 <= k < |libs| ==> gs[k] == (v, libs[k])
  {
    seq(|libs|, k requires 0 <= k < |libs| => (v, libs[k]))
  }

  /** The groups of one version, its libraries in string order. */
  ghost function Row(plan: Plan, v: string): seq<(string, string)> {
    if v in plan then Pairs(v, SortedKeys(plan[v].Keys)) else []
  }

  /** The (version, library) groups in the order the driver visits them. */
  ghost function Schedule(plan: Plan, order: seq<string>): seq<(string, string)> {
    if |order| == 0 then [] else Schedule(plan, order[..|order| - 1]) + Row(plan, order[|order| - 1])
  }

  /** Records one failure's message under its key. */
  function AddMessage(m: map<string, seq<string>>, f: Failure): map<string, seq<string>> {
    match GhKey(f.check.file)
    case None => m
    case Some(k) => m[k := (if k in m then m[k] else []) + [GhMessage(f)]]
  }

  /** `gherrs` after recording the failures `fs` on top of `m`. */
  function GroupFrom(m: map<string, seq<string>>, fs: seq<Failure>): map<string, seq<string>> {
    if |fs| == 0 then m else AddMessage(GroupFrom(m, fs[..|fs| - 1]), fs[|fs| - 1])
  }

  /** What one group does to a run that has found `errs` so far. */
  function Step(plan: Plan, errs: seq<Failure>, g: (string, string), bin: Oracle, resolves: Resolver): Outcome {
    match bin(g.0, g.1)
    case NoData => Done(errs)
    case FetchFailed => Fatal("get patcher")
    case ExtractFailed => Fatal("extract symbols")
    case Loaded =>
      var fs := Failures(Lookup(plan, g.0, g.1), g.0, g.1, resolves);
      if exists f :: f in fs && GhKey(f.check.file).None? then Crashed else Done(errs + fs)
  }

  /** The run continued from `o` over the groups `gs`: it stops at the first
    * fatal error or panic. */
  function Run(plan: Plan, o: Outcome, gs: seq<(string, string)>, bin: Oracle, resolves: Resolver): Outcome {
    if |gs| == 0 then o
    else
      match Run(plan, o, gs[..|gs| - 1], bin, resolves)
      case Done(errs) => Step(plan, errs, gs[|gs| - 1], bin, resolves)
      case stopped => stopped
  }

  /** `for k := range m { ks = append(ks, k) }`: the keys of a map in some order. */
  method CollectKeys<V>(m: map<string, V>) returns (ks: seq<string>)
    ensures Distinct(ks)
    ensures forall k :: k in ks <==> k in m
    ensures multiset(ks) == multiset(m.Keys)
  {
    ks := [];
    var rest := m.Keys;
    while rest != {}
      invariant rest <= m.Keys
      invariant forall k :: k in ks <==> k in m && k !in rest
      invariant Distinct(ks)
      invariant multiset(ks) + multiset(rest) == multiset(m.Keys)
      decreases |rest|
    {
      var k :| k in rest;
      ks := ks + [k];
      assert multiset(rest) == multiset(rest - {k}) + multiset{k};
      rest := rest - {k};
    }
  }

  /** Looks every symbol of the check up; true when at least one resolves. */
  method CheckSymbols(c: SymCheck, v: string, lib: string, resolves: Resolver) returns (f: bool)
    ensures f <==> Found(c, v, lib, resolves)
  {
    f := false;
    for k := 0 to |c.symbols|
      invariant f <==> exists j :: 0 <= j < k && resolves(v, lib, c.symbols[j])
    {
      if resolves(v, lib, c.symbols[k]) {
        f := true;
      }
    }
  }

  /** Records one failure in `errs` and under its key in `gherrs`; a location
    * without three `:`-separated parts panics instead. */
  method RecordFailure(failure: Failure, errs0: seq<Failure>, gherrs0: map<string, seq<string>>)
    returns (crashed: bool, errs: seq<Failure>, gherrs: map<string, seq<string>>)
    ensures crashed <==> GhKey(failure.check.file).None?
    ensures !crashed ==> errs == errs0 + [failure] && gherrs == AddMessage(gherrs0, failure)
  {
    errs := errs0 + [failure];
    gherrs := gherrs0;
    var spl := Split(failure.check.file, ':');
    if |spl| < 3 {
      crashed := true;
      return;
    }
    crashed := false;
    var key := "file=" + spl[0] + ",line=" + spl[1] + ",col=" + spl[2];
    gherrs := gherrs[key := (if key in gherrs then gherrs[key] else []) + [GhMessage(failure)]];
  }

  /** The checks of one loaded group, in order, each failure recorded as it is found. */
  method CheckGroup(cs: seq<SymCheck>, v: string, lib: string, resolves: Resolver,
                    errs0: seq<Failure>, gherrs0: map<string, seq<string>>)
    returns (crashed: bool, errs: seq<Failure>, gherrs: map<string, seq<string>>)
    ensures crashed <==> exists f :: f in Failures(cs, v, lib, resolves) && GhKey(f.check.file).None?
    ensures !crashed ==> errs == errs0 + Failures(cs, v, lib, resolves)
    ensures !crashed ==> gherrs == GroupFrom(gherrs0, Failures(cs, v, lib, resolves))
  {
    crashed, errs, gherrs := false, errs0, gherrs0;
    for i := 0 to |cs|
      invariant errs == errs0 + Failures(cs[..i], v, lib, resolves)
      invariant gherrs == GroupFrom(gherrs0, Failures(cs[..i], v, lib, resolves))
      invariant forall f :: f in Failures(cs[..i], v, lib, resolves) ==> GhKey(f.check.file).Some?
    {
      var check := cs[i];
      ghost var before := Failures(cs[..i], v, lib, resolves);
      FailuresStep(cs, i, v, lib, resolves);
      var found := CheckSymbols(check, v, lib, resolves);
      RecordedStep(errs0, gherrs0, before, found, Failure(check, lib, v));
      if !found {
        crashed, errs, gherrs := RecordFailure(Failure(check, lib, v), errs, gherrs);
        if crashed {
          FailureOfCheck(cs, i, v, lib, resolves);
          return;
        }
      }
    }
    assert cs[..|cs|] == cs;
  }

  /** Recording one more check's failure, if any, extends both the failure
    * list and the grouped messages by that failure. */
  lemma RecordedStep(errs0: seq<Failure>, gherrs0: map<string, seq<string>>, before: seq<Failure>, found: bool, failure: Failure)
    ensures errs0 + (before + (if found then [] else [failure])) == (errs0 + before) + (if found then [] else [failure])
    ensures GroupFrom(gherrs0, before + (if found then [] else [failure])) ==
            if found then GroupFrom(gherrs0, before) else AddMessage(GroupFrom(gherrs0, before), failure)
  {
    if found {
      assert before + [] == before;
    } else {
      GroupFromSnoc(gherrs0, before, failure);
    }
  }

  /** One more check adds its failure, if any, at the end. */
  lemma FailuresStep(cs: seq<SymCheck>, i: nat, v: string, lib: string, resolves: Resolver)
    requires i < |cs|
    ensures Failures(cs[..i + 1], v, lib, resolves) ==
            Failures(cs[..i], v, lib, resolves) + (if Found(cs[i], v, lib, resolves) then [] else [Failure(cs[i], lib, v)])
  {
    assert cs[..i + 1][..i] == cs[..i];
  }

  /** The failures of a group are exactly its checks that find none of their
    * symbols, for that version and library. */
  lemma {:induction false} FailuresMembers(cs: seq<SymCheck>, v: string, lib: string, resolves: Resolver)
    ensures forall f :: f in Failures(cs, v, lib, resolves) <==>
                          f.check in cs && f.lib == lib && f.version == v && !Found(f.check, v, lib, resolves)
  {
    if |cs| > 0 {
      FailuresMembers(cs[..|cs| - 1], v, lib, resolves);
      assert cs == cs[..|cs| - 1] + [cs[|cs| - 1]];
    }
  }

  /** A check that does not resolve is among the failures of its group. */
  lemma FailureOfCheck(cs: seq<SymCheck>, i: nat, v: string, lib: string, resolves: Resolver)
    requires i < |cs| && !Found(cs[i], v, lib, resolves)
    ensures Failure(cs[i], lib, v) in Failures(cs, v, lib, resolves)
  {
    FailuresMembers(cs, v, lib, resolves);
  }

  /** Recording one more failure is one more message. */
  lemma GroupFromSnoc(m: map<string, seq<string>>, fs: seq<Failure>, f: Failure)
    ensures GroupFrom(m, fs + [f]) == AddMessage(GroupFrom(m, fs), f)
  {
    assert (fs + [f])[..|fs|] == fs;
  }

  /** One library of one version: fetch the binary, skip it when there is no
    * data, stop on a fetch or extraction error, otherwise check its checks. */
  method CheckLib(plan: Plan, version: string, lib: string, bin: Oracle, resolves: Resolver,
                  errs0: seq<Failure>, gherrs0: map<string, seq<string>>)
    returns (outcome: Outcome, gherrs: map<string, seq<string>>)
    requires version in plan && lib in plan[version]
    requires gherrs0 == GroupFrom(map[], errs0)
    ensures outcome == Step(plan, errs0, (version, lib), bin, resolves)
    ensures outcome.Done? ==> gherrs == GroupFrom(map[], outcome.errs)
  {
    gherrs := gherrs0;
    var b := bin(version, lib);
    if b == NoData {
      return Done(errs0), gherrs;
    } else if b == FetchFailed {
      return Fatal("get patcher"), gherrs;
    } else if b == ExtractFailed {
      return Fatal("extract symbols"), gherrs;
    }
    var crashed, errs;
    crashed, errs, gherrs := CheckGroup(plan[version][lib], version, lib, resolves, errs0, gherrs0);
    if crashed {
      return Crashed, gherrs;
    }
    GroupFromAppend(map[], errs0, Failures(plan[version][lib], version, lib, resolves));
    outcome := Done(errs);
  }

  /** Every group names a planned version and one of its libraries. */
  predicate Planned(plan: Plan, gs: seq<(string, string)>) {
    forall k :: 0 <= k < |gs| ==> gs[k].0 in plan && gs[k].1 in plan[gs[k].0]
  }

  /** Checks the groups in order, continuing a run that has found `errs0` so
    * far, until a fatal error or panic stops it. */
  method CheckGroups(plan: Plan, gs: seq<(string, string)>, bin: Oracle, resolves: Resolver,
                     errs0: seq<Failure>, gherrs0: map<string, seq<string>>)
    returns (outcome: Outcome, gherrs: map<string, seq<string>>)
    requires Planned(plan, gs)
    requires gherrs0 == GroupFrom(map[], errs0)
    ensures outcome == Run(plan, Done(errs0), gs, bin, resolves)
    ensures outcome.Done? ==> gherrs == GroupFrom(map[], outcome.errs)
  {
    var errs := errs0;
    gherrs := gherrs0;
    for j := 0 to |gs|
      invariant Run(plan, Done(errs0), gs[..j], bin, resolves) == Done(errs)
      invariant gherrs == GroupFrom(map[], errs)
    {
      var o, g := CheckLib(plan, gs[j].0, gs[j].1, bin, resolves, errs, gherrs);
      assert Run(plan, Done(errs0), gs[..j + 1], bin, resolves) == o by {
        assert gs[..j + 1] == gs[..j] + [gs[j]];
        RunSnoc(plan, Done(errs0), gs[..j], gs[j], bin, resolves);
      }
      if !o.Done? {
        assert o == Run(plan, Done(errs0), gs, bin, resolves) by {
          assert gs == gs[..j + 1] + gs[j + 1..];
          RunAppend(plan, Done(errs0), gs[..j + 1], gs[j + 1..], bin, resolves);
          RunStopped(plan, o, gs[j + 1..], bin, resolves);
        }
        return o, g;
      }
      errs, gherrs := o.errs, g;
    }
    assert gs[..|gs|] == gs;
    outcome := Done(errs);
  }

  /** The libraries of one version, collected from the map and put through
    * `sort.Strings`: the increasing enumeration of its keys. */
  method SortedLibs(plan: Plan, version: string) returns (libs: seq<string>)
    requires version in plan
    ensures libs == SortedKeys(plan[version].Keys)
    ensures Planned(plan, Pairs(version, libs))
  {
    var libKeys := CollectKeys(plan[version]);
    libs := SortBy(libKeys, StrLe);
    SortStringsIsSortedKeys(libKeys, plan[version].Keys);
  }

  /** One version: its libraries in string order, continuing a run that has
    * found `errs0` so far. */
  method CheckVersion(plan: Plan, version: string, bin: Oracle, resolves: Resolver,
                      errs0: seq<Failure>, gherrs0: map<string, seq<string>>)
    returns (outcome: Outcome, gherrs: map<string, seq<string>>)
    requires version in plan
    requires gherrs0 == GroupFrom(map[], errs0)
    ensures outcome == Run(plan, Done(errs0), Row(plan, version), bin, resolves)
    ensures outcome.Done? ==> gherrs == GroupFrom(map[], outcome.errs)
  {
    var libs := SortedLibs(plan, version);
    outcome, gherrs := CheckGroups(plan, Pairs(version, libs), bin, resolves, errs0, gherrs0);
  }

  /** The main loop of the driver: the versions in ascending order, each
    * checked library by library, until every failure is recorded or a fatal
    * error or panic stops the run. */
  method Drive(plan: Plan, bin: Oracle, resolves: Resolver)
    returns (order: seq<string>, outcome: Outcome, gherrs: map<string, seq<string>>)
    ensures multiset(order) == multiset(plan.Keys)
    ensures AdjSorted(order, VersionLe)
    ensures outcome == Run(plan, Done([]), Schedule(plan, order), bin, resolves)
    ensures outcome.Done? ==> gherrs == GroupFrom(map[], outcome.errs)
  {
    var keys := CollectKeys(plan);
    order := SortBy(keys, VersionLe);
    VersionLeTotal(keys);
    SortByAdjSorted(keys, VersionLe);
    var errs: seq<Failure> := [];
    gherrs := map[];
    for i := 0 to |order|
      invariant Run(plan, Done([]), Schedule(plan, order[..i]), bin, resolves) == Done(errs)
      invariant gherrs == GroupFrom(map[], errs)
    {
      var version := order[i];
      OrderInPlan(plan, order, i);
      var o, g := CheckVersion(plan, version, bin, resolves, errs, gherrs);
      DriveStep(plan, order, i, bin, resolves);
      if !o.Done? {
        DriveStops(plan, order, i, bin, resolves);
        return order, o, g;
      }
      errs, gherrs := o.errs, g;
    }
    assert order[..|order|] == order;
    outcome := Done(errs);
  }

  /** Any two versions are ordered one way or the other. */
  lemma VersionLeTotal(keys: seq<string>)
    ensures TotalOn(keys, VersionLe)
  {
    forall a, b | a in keys && b in keys ensures VersionLe(a, b) || VersionLe(b, a) {
      CompareAntisymmetric(a, b);
    }
  }

  /** Every version of the order is planned. */
  lemma OrderInPlan(plan: Plan, order: seq<string>, i: nat)
    requires multiset(order) == multiset(plan.Keys) && i < |order|
    ensures order[i] in plan
  {
    assert order[i] in multiset(order);
  }

  /** Checking one more version continues the run with its row. */
  lemma DriveStep(plan: Plan, order: seq<string>, i: nat, bin: Oracle, resolves: Resolver)
    requires i < |order|
    ensures Run(plan, Done([]), Schedule(plan, order[..i + 1]), bin, resolves) ==
            Run(plan, Run(plan, Done([]), Schedule(plan, order[..i]), bin, resolves), Row(plan, order[i]), bin, resolves)
  {
    assert order[..i + 1][..i] == order[..i];
    RunAppend(plan, Done([]), Schedule(plan, order[..i]), Row(plan, order[i]), bin, resolves);
  }

  /** A run stopped within the first versions stays stopped over the rest. */
  lemma DriveStops(plan: Plan, order: seq<string>, i: nat, bin: Oracle, resolves: Resolver)
    requires i < |order| && !Run(plan, Done([]), Schedule(plan, order[..i + 1]), bin, resolves).Done?
    ensures Run(plan, Done([]), Schedule(plan, order), bin, resolves) ==
            Run(plan, Done([]), Schedule(plan, order[..i + 1]), bin, resolves)
  {
    ScheduleSplit(plan, order, i + 1);
    var rest := Schedule(plan, order)[|Schedule(plan, order[..i + 1])|..];
    RunAppend(plan, Done([]), Schedule(plan, order[..i + 1]), rest, bin, resolves);
    RunStopped(plan, Run(plan, Done([]), Schedule(plan, order[..i + 1]), bin, resolves), rest, bin, resolves);
  }

  /** The groups of a prefix of the versions begin the schedule. */
  lemma {:induction false} ScheduleSplit(plan: Plan, order: seq<string>, n: nat)
    requires n <= |order|
    ensures |Schedule(plan, order[..n])| <= |Schedule(plan, order)|
    ensures Schedule(plan, order) == Schedule(plan, order[..n]) + Schedule(plan, order)[|Schedule(plan, order[..n])|..]
  {
    if n < |order| {
      var init := order[..|order| - 1];
      assert init[..n] == order[..n];
      ScheduleSplit(plan, init, n);
    } else {
      assert order[..n] == order;
    }
  }

  /** Running over two stretches of groups is running over the first, then the second. */
  lemma {:induction false} RunAppend(plan: Plan, o: Outcome, gs: seq<(string, string)>, hs: seq<(string, string)>,
                                     bin: Oracle, resolves: Resolver)
    ensures Run(plan, o, gs + hs, bin, resolves) == Run(plan, Run(plan, o, gs, bin, resolves), hs, bin, resolves)
    decreases |hs|
  {
    if |hs| == 0 {
      assert gs + hs == gs;
    } else {
      assert (gs + hs)[..|gs + hs| - 1] == gs + hs[..|hs| - 1];
      RunAppend(plan, o, gs, hs[..|hs| - 1], bin, resolves);
    }
  }

  /** One more group continues a run that has not stopped by one `Step`. */
  lemma RunSnoc(plan: Plan, o: Outcome, gs: seq<(string, string)>, g: (string, string), bin: Oracle, resolves: Resolver)
    ensures Run(plan, o, gs + [g], bin, resolves) ==
            match Run(plan, o, gs, bin, resolves)
            case Done(errs) => Step(plan, errs, g, bin, resolves)
            case stopped => stopped
  {
    assert (gs + [g])[..|gs|] == gs;
  }

  /** A stopped run stays stopped. */
  lemma {:induction false} RunStopped(plan: Plan, o: Outcome, hs: seq<(string, string)>, bin: Oracle, resolves: Resolver)
    requires !o.Done?
    ensures Run(plan, o, hs, bin, resolves) == o
  {
    if |hs| > 0 {
      RunStopped(plan, o, hs[..|hs| - 1], bin, resolves);
    }
  }

  /** Recording two runs of failures one after the other records their concatenation. */
  lemma {:induction false} GroupFromAppend(m: map<string, seq<string>>, a: seq<Failure>, b: seq<Failure>)
    ensures GroupFrom(GroupFrom(m, a), b) == GroupFrom(m, a + b)
  {
    if |b| > 0 {
      GroupFromAppend(m, a, b[..|b| - 1]);
      assert (a + b)[..|a + b| - 1] == a + b[..|b| - 1];
    } else {
      assert a + b == a;
    }
  }

  /** A group that lets the run go on: no data for it, or a loaded binary in
    * which every failing check has a location with three parts. */
  predicate GroupOk(plan: Plan, g: (string, string), bin: Oracle, resolves: Resolver) {
    bin(g.0, g.1) == NoData ||
    (bin(g.0, g.1) == Loaded &&
     forall f :: f in Failures(Lookup(plan, g.0, g.1), g.0, g.1, resolves) ==> GhKey(f.check.file).Some?)
  }

  /** How a group that is not ok stops the run. */
  function Halt(b: Binary): Outcome {
    match b
    case FetchFailed => Fatal("get patcher")
    case ExtractFailed => Fatal("extract symbols")
    case _ => Crashed
  }

  /** The failures of the loaded groups among `gs`, group by group. */
  function AllFailures(plan: Plan, gs: seq<(string, string)>, bin: Oracle, resolves: Resolver): seq<Failure> {
    if |gs| == 0 then []
    else
      var g := gs[|gs| - 1];
      AllFailures(plan, gs[..|gs| - 1], bin, resolves) +
        (if bin(g.0, g.1) == Loaded then Failures(Lookup(plan, g.0, g.1), g.0, g.1, resolves) else [])
  }

  /** A run completes exactly when every group is ok, and then it has added the
    * failures of the loaded groups in order; otherwise it ends with what the
    * first group that is not ok does. */
  lemma {:induction false} RunOutcome(plan: Plan, errs: seq<Failure>, gs: seq<(string, string)>, bin: Oracle, resolves: Resolver)
    ensures Run(plan, Done(errs), gs, bin, resolves).Done? <==> forall k :: 0 <= k < |gs| ==> GroupOk(plan, gs[k], bin, resolves)
    ensures Run(plan, Done(errs), gs, bin, resolves).Done? ==>
              Run(plan, Done(errs), gs, bin, resolves).errs == errs + AllFailures(plan, gs, bin, resolves)
    ensures !Run(plan, Done(errs), gs, bin, resolves).Done? ==>
              exists k :: 0 <= k < |gs| && !GroupOk(plan, gs[k], bin, resolves) &&
                (forall j :: 0 <= j < k ==> GroupOk(plan, gs[j], bin, resolves)) &&
                Run(plan, Done(errs), gs, bin, resolves) == Halt(bin(gs[k].0, gs[k].1))
  {
    if |gs| > 0 {
      var init, g := gs[..|gs| - 1], gs[|gs| - 1];
      RunOutcome(plan, errs, init, bin, resolves);
      var prev := Run(plan, Done(errs), init, bin, resolves);
      if prev.Done? {
        assert forall k :: 0 <= k < |gs| - 1 ==> GroupOk(plan, gs[k], bin, resolves) by {
          forall k | 0 <= k < |gs| - 1 ensures GroupOk(plan, gs[k], bin, resolves) {
            assert gs[k] == init[k];
          }
        }
        if !GroupOk(plan, g, bin, resolves) {
          assert Run(plan, Done(errs), gs, bin, resolves) == Halt(bin(g.0, g.1));
        }
      } else {
        var k :| 0 <= k < |init| && !GroupOk(plan, init[k], bin, resolves) &&
                 (forall j :: 0 <= j < k ==> GroupOk(plan, init[j], bin, resolves)) &&
                 prev == Halt(bin(init[k].0, init[k].1));
        assert gs[k] == init[k];
        assert forall j :: 0 <= j < k ==> gs[j] == init[j];
      }
    }
  }

  /** A failure is among those of `gs` exactly when its group is among them and
    * loaded, its check is planned for that group and none of its symbols resolve. */
  lemma {:induction false} AllFailuresMembers(plan: Plan, gs: seq<(string, string)>, bin: Oracle, resolves: Resolver, f: Failure)
    ensures f in AllFailures(plan, gs, bin, resolves) <==>
              (f.version, f.lib) in gs && bin(f.version, f.lib) == Loaded &&
              f.check in Lookup(plan, f.version, f.lib) && !Found(f.check, f.version, f.lib, resolves)
  {
    if |gs| > 0 {
      var init, g := gs[..|gs| - 1], gs[|gs| - 1];
      AllFailuresMembers(plan, init, bin, resolves, f);
      FailuresMembers(Lookup(plan, g.0, g.1), g.0, g.1, resolves);
      assert gs == init + [g];
    }
  }

  /** The libraries of a planned version, each once. */
  lemma RowMembers(plan: Plan, v: string, g: (string, string))
    ensures g in Row(plan, v) <==> v in plan && g.0 == v && g.1 in plan[v]
  {
    if v in plan {
      var libs := SortedKeys(plan[v].Keys);
      if g in Row(plan, v) {
        var k :| 0 <= k < |libs| && Pairs(v, libs)[k] == g;
        assert libs[k] in libs;
      }
      if g.0 == v && g.1 in plan[v] {
        var k :| 0 <= k < |libs| && libs[k] == g.1;
        assert Pairs(v, libs)[k] == g;
      }
    }
  }

  /** The schedule visits exactly the planned (version, library) groups of the
    * versions in `order`. */
  lemma {:induction false} ScheduleCovers(plan: Plan, order: seq<string>, g: (string, string))
    ensures g in Schedule(plan, order) <==> g.0 in order && g.0 in plan && g.1 in plan[g.0]
  {
    if |order| > 0 {
      var init, v := order[..|order| - 1], order[|order| - 1];
      ScheduleCovers(plan, init, g);
      RowMembers(plan, v, g);
      assert order == init + [v];
    }
  }

  /** Every group of the schedule is planned. */
  lemma SchedulePlanned(plan: Plan, order: seq<string>)
    ensures Planned(plan, Schedule(plan, order))
  {
    var s := Schedule(plan, order);
    forall k | 0 <= k < |s| ensures s[k].0 in plan && s[k].1 in plan[s[k].0] {
      ScheduleCovers(plan, order, s[k]);
    }
  }

  /** The driver's run over every version completes exactly when every planned
    * group is ok; it then reports exactly the planned checks of the loaded
    * groups none of whose symbols resolve (groups without data contribute
    * nothing). */
  lemma DriveFailures(plan: Plan, order: seq<string>, bin: Oracle, resolves: Resolver, f: Failure)
    requires multiset(order) == multiset(plan.Keys)
    ensures Run(plan, Done([]), Schedule(plan, order), bin, resolves).Done? <==>
              forall v, lib :: v in plan && lib in plan[v] ==> GroupOk(plan, (v, lib), bin, resolves)
    ensures Run(plan, Done([]), Schedule(plan, order), bin, resolves).Done? ==>
              (f in Run(plan, Done([]), Schedule(plan, order), bin, resolves).errs <==>
                 f.version in plan && f.lib in plan[f.version] && bin(f.version, f.lib) == Loaded &&
                 f.check in plan[f.version][f.lib] && !Found(f.check, f.version, f.lib, resolves))
  {
    var s := Schedule(plan, order);
    RunOutcome(plan, [], s, bin, resolves);
    AllFailuresMembers(plan, s, bin, resolves, f);
    assert forall v :: v in order <==> v in plan by {
      forall v ensures v in order <==> v in plan {
        assert v in order <==> v in multiset(order);
      }
    }
    ScheduleCovers(plan, order, (f.version, f.lib));
    assert (forall k :: 0 <= k < |s| ==> GroupOk(plan, s[k], bin, resolves)) <==>
           (forall v, lib :: v in plan && lib in plan[v] ==> GroupOk(plan, (v, lib), bin, resolves)) by {
      if forall k :: 0 <= k < |s| ==> GroupOk(plan, s[k], bin, resolves) {
        forall v, lib | v in plan && lib in plan[v] ensures GroupOk(plan, (v, lib), bin, resolves) {
          ScheduleCovers(plan, order, (v, lib));
        }
      }
      if forall v, lib :: v in plan && lib in plan[v] ==> GroupOk(plan, (v, lib), bin, resolves) {
        SchedulePlanned(plan, order);
      }
    }
  }

  /** The messages of the failures in `fs` whose location has the key `k`, in order. */
  function Messages(fs: seq<Failure>, k: string): seq<string> {
    if |fs| == 0 then []
    else
      var f := fs[|fs| - 1];
      Messages(fs[..|fs| - 1], k) + (if GhKey(f.check.file) == Some(k) then [GhMessage(f)] else [])
  }

  /** `gherrs` holds a key exactly when some failure has that location, and
    * under it the messages of those failures in the order they were found. */
  lemma {:induction false} GroupFromMessages(fs: seq<Failure>, k: string)
    ensures k in GroupFrom(map[], fs) <==> Messages(fs, k) != []
    ensures k in GroupFrom(map[], fs) ==> GroupFrom(map[], fs)[k] == Messages(fs, k)
  {
    if |fs| > 0 {
      GroupFromMessages(fs[..|fs| - 1], k);
    }
  }

  /** A location made by the scanner always has three `:`-separated parts, so
    * recording its failure never panics. */
  lemma LocationHasKey(path: string, line: nat, col: nat)
    ensures GhKey(Location(path, line, col)).Some?
  {
    var l, c := NatToDecimal(line), NatToDecimal(col);
    assert Location(path, line, col) == path + [':'] + (l + [':'] + c);
    SplitConcat(path, ':', l + [':'] + c);
    SplitConcat(l, ':', c);
  }

  /** For a path without ':' the key names the path, line and column of the
    * annotation. */
  lemma LocationKey(path: string, line: nat, col: nat)
    requires ':' !in path
    ensures GhKey(Location(path, line, col)) ==
            Some("file=" + path + ",line=" + NatToDecimal(line) + ",col=" + NatToDecimal(col))
  {
    LocationSplits(path, line, col);
  }

  /** Without a wildcard among them, neighbours in version order make the
    * whole sequence ordered. */
  lemma {:induction false} VersionOrderSorted(order: seq<string>)
    requires AdjSorted(order, VersionLe) && Wildcard !in order
    ensures forall i, j :: 0 <= i < j < |order| ==> Compare(order[i], order[j]) <= 0
  {
    if |order| > 1 {
      var init := order[..|order| - 1];
      VersionOrderSorted(init);
      var n := |order| - 1;
      forall i, j | 0 <= i < j < |order| ensures Compare(order[i], order[j]) <= 0 {
        if j == n && i < n - 1 {
          assert Compare(init[i], init[n - 1]) <= 0;
          CompareTransitive(order[i], order[n - 1], order[n]);
        } else if j < n {
          assert Compare(init[i], init[j]) <= 0;
        }
      }
    }
  }

  /** The process exit status: a fatal error exits with 1, a Go panic with 2,
    * a complete run with 0 only when nothing failed. */
  function ExitStatus(o: Outcome): (status: nat)
    ensures status == 0 <==> o == Done([])
  {
    match o
    case Fatal(_) => 1
    case Crashed => 2
    case Done(errs) => if |errs| == 0 then 0 else 1
  }

  /** Every planned group is skipped for want of data, or loaded with every
    * planned check finding one of its symbols. */
  ghost predicate AllPass(plan: Plan, bin: Oracle, resolves: Resolver) {
    forall v, lib :: v in plan && lib in plan[v] ==>
      bin(v, lib) == NoData ||
      (bin(v, lib) == Loaded && forall c :: c in plan[v][lib] ==> Found(c, v, lib, resolves))
  }

  /** The driver exits with 0 exactly when every planned group passes. */
  lemma DriveSucceeds(plan: Plan, order: seq<string>, bin: Oracle, resolves: Resolver)
    requires multiset(order) == multiset(plan.Keys)
    ensures ExitStatus(Run(plan, Done([]), Schedule(plan, order), bin, resolves)) == 0 <==> AllPass(plan, bin, resolves)
  {
    if Run(plan, Done([]), Schedule(plan, order), bin, resolves) == Done([]) {
      SucceedsOnlyIfAllPass(plan, order, bin, resolves);
    }
    if AllPass(plan, bin, resolves) {
      AllPassSucceeds(plan, order, bin, resolves);
    }
  }

  lemma SucceedsOnlyIfAllPass(plan: Plan, order: seq<string>, bin: Oracle, resolves: Resolver)
    requires multiset(order) == multiset(plan.Keys)
    requires Run(plan, Done([]), Schedule(plan, order), bin, resolves) == Done([])
    ensures AllPass(plan, bin, resolves)
  {
    forall v, lib | v in plan && lib in plan[v] && bin(v, lib) != NoData
      ensures bin(v, lib) == Loaded && forall c :: c in plan[v][lib] ==> Found(c, v, lib, resolves)
    {
      DriveFailures(plan, order, bin, resolves, Failure(SymCheck("", "", "", "", []), lib, v));
      assert GroupOk(plan, (v, lib), bin, resolves);
      forall c | c in plan[v][lib] ensures Found(c, v, lib, resolves) {
        DriveFailures(plan, order, bin, resolves, Failure(c, lib, v));
      }
    }
  }

  lemma AllPassSucceeds(plan: Plan, order: seq<string>, bin: Oracle, resolves: Resolver)
    requires multiset(order) == multiset(plan.Keys)
    requires AllPass(plan, bin, resolves)
    ensures Run(plan, Done([]), Schedule(plan, order), bin, resolves) == Done([])
  {
    forall v, lib | v in plan && lib in plan[v] ensures GroupOk(plan, (v, lib), bin, resolves) {
      if bin(v, lib) == Loaded {
        AllFoundNoFailures(plan[v][lib], v, lib, resolves);
      }
    }
    DriveFailures(plan, order, bin, resolves, Failure(SymCheck("", "", "", "", []), "", ""));
    RunOutcome(plan, [], Schedule(plan, order), bin, resolves);
    SchedulePlanned(plan, order);
    AllFailuresEmpty(plan, Schedule(plan, order), bin, resolves);
  }

  /** A group whose checks all find a symbol has no failures. */
  lemma {:induction false} AllFoundNoFailures(cs: seq<SymCheck>, v: string, lib: string, resolves: Resolver)
    requires forall c :: c in cs ==> Found(c, v, lib, resolves)
    ensures Failures(cs, v, lib, resolves) == []
  {
    if |cs| > 0 {
      assert cs[|cs| - 1] in cs;
      assert forall c :: c in cs[..|cs| - 1] ==> c in cs;
      AllFoundNoFailures(cs[..|cs| - 1], v, lib, resolves);
    }
  }

  /** Groups each skipped or with every check finding a symbol add no failures. */
  lemma {:induction false} AllFailuresEmpty(plan: Plan, gs: seq<(string, string)>, bin: Oracle, resolves: Resolver)
    requires Planned(plan, gs)
    requires AllPass(plan, bin, resolves)
    ensures AllFailures(plan, gs, bin, resolves) == []
  {
    if |gs| > 0 {
      var g := gs[|gs| - 1];
      AllFailuresEmpty(plan, gs[..|gs| - 1], bin, resolves);
      if bin(g.0, g.1) == Loaded {
        AllFoundNoFailures(plan[g.0][g.1], g.0, g.1, resolves);
      }
    }
  }

  /** The GitHub annotation lines, one per key in the given order, its
    * messages joined by an encoded newline. */
  function AnnotationLines(gherrs: map<string, seq<string>>, keys: seq<string>): (lines: seq<string>)
    requires forall k :: k in keys ==> k in gherrs
    ensures |lines| == |keys|
    ensures forall i :: 0 <= i < |keys| ==> lines[i] == "::error " + keys[i] + "::" + Join(gherrs[keys[i]], "%0A")
  {
    if |keys| == 0 then []
    else
      var k := keys[|keys| - 1];
      AnnotationLines(gherrs, keys[..|keys| - 1]) + ["::error " + k + "::" + Join(gherrs[k], "%0A")]
  }

  /** What a complete run prints at the end and the status it exits with:
    * nothing and 0 without failures; otherwise `[FTL] check failed`, every
    * failure indented in the order found, under GitHub Actions one annotation
    * per location in string order, and 1. */
  method Report(errs: seq<Failure>, gherrs: map<string, seq<string>>, githubActions: bool)
    returns (lines: seq<string>, status: nat)
    ensures status == ExitStatus(Done(errs))
    ensures |errs| == 0 ==> lines == []
    ensures |errs| > 0 ==> |lines| >= |errs| + 1 && lines[0] == "[FTL] check failed"
    ensures |errs| > 0 ==> forall i :: 0 <= i < |errs| ==> lines[i + 1] == "        " + ErrMessage(errs[i])
    ensures |errs| > 0 ==>
              lines[|errs| + 1..] == (if githubActions then AnnotationLines(gherrs, SortedKeys(gherrs.Keys)) else [])
  {
    if |errs| == 0 {
      return [], 0;
    }
    lines := ["[FTL] check failed"];
    for i := 0 to |errs|
      invariant |lines| == i + 1 && lines[0] == "[FTL] check failed"
      invariant forall k :: 0 <= k < i ==> lines[k + 1] == "        " + ErrMessage(errs[k])
    {
      lines := lines + ["        " + ErrMessage(errs[i])];
    }
    if githubActions {
      var annotations := Annotate(gherrs);
      lines := lines + annotations;
    }
    status := 1;
  }

  /** The annotation lines of `gherrs`, its keys collected and put through
    * `sort.Strings`. */
  method Annotate(gherrs: map<string, seq<string>>) returns (lines: seq<string>)
    ensures lines == AnnotationLines(gherrs, SortedKeys(gherrs.Keys))
  {
    var collected := CollectKeys(gherrs);
    var keys := SortBy(collected, StrLe);
    SortStringsIsSortedKeys(collected, gherrs.Keys);
    lines := AnnotationsOf(gherrs, keys);
  }

  /** The printing loop: one annotation per key, in the order given. */
  method AnnotationsOf(gherrs: map<string, seq<string>>, keys: seq<string>) returns (lines: seq<string>)
    requires forall k :: k in keys ==> k in gherrs
    ensures lines == AnnotationLines(gherrs, keys)
  {
    lines := [];
    for i := 0 to |keys|
      invariant lines == AnnotationLines(gherrs, keys[..i])
    {
      assert keys[..i + 1][..i] == keys[..i];
      lines := lines + ["::error " + keys[i] + "::" + Join(gherrs[keys[i]], "%0A")];
    }
    assert keys[..|keys|] == keys;
  }

  /** A well-formed annotation's failure is always recorded under a key. */
  lemma WellFormedHasKey(c: SymCheck)
    requires WellFormed(c)
    ensures GhKey(c.file).Some?
  {
    var path, line: nat, col: nat :| c.file == Location(path, line, col);
    LocationHasKey(path, line, col);
  }

  /** When every planned check has a keyed location, a run never panics. */
  lemma {:induction false} KeyedNeverPanics(plan: Plan, gs: seq<(string, string)>, bin: Oracle, resolves: Resolver)
    requires forall v, lib, c :: c in Lookup(plan, v, lib) ==> GhKey(c.file).Some?
    ensures Run(plan, Done([]), gs, bin, resolves) != Crashed
  {
    if |gs| > 0 {
      var g := gs[|gs| - 1];
      KeyedNeverPanics(plan, gs[..|gs| - 1], bin, resolves);
      FailuresMembers(Lookup(plan, g.0, g.1), g.0, g.1, resolves);
    }
  }

  /** Planning scanned annotations never leads to a panic: every group that
    * stops the run stops it with a fetch or extraction error. */
  lemma ScannedNeverPanics(sc: seq<SymCheck>, vs: seq<string>, order: seq<string>, bin: Oracle, resolves: Resolver)
    requires forall c :: c in sc ==> WellFormed(c)
    ensures Run(Expand(sc, vs).0, Done([]), Schedule(Expand(sc, vs).0, order), bin, resolves) != Crashed
  {
    var plan := Expand(sc, vs).0;
    forall v, lib, c | c in Lookup(plan, v, lib) ensures GhKey(c.file).Some? {
      ExpandFrom(sc, vs, v, lib);
      WellFormedHasKey(c);
    }
    KeyedNeverPanics(plan, Schedule(plan, order), bin, resolves);
  }

  /** The whole checker (`main`): scan the annotations, plan them over the
    * known versions, check every group and report. A malformed annotation
    * exits with 1 before anything is checked. */
  method CheckRepository(files: seq<SourceFile>, bin: Oracle, resolves: Resolver, githubActions: bool)
    returns (warnings: seq<Warning>, lines: seq<string>, status: nat)
    ensures ScanFiles(files, |files|).Err? ==> status == 1
    ensures ScanFiles(files, |files|).Ok? ==> warnings == Expand(ScanFiles(files, |files|).value, KnownVersions).1
    ensures status == 0 <==>
              ScanFiles(files, |files|).Ok? && AllPass(Expand(ScanFiles(files, |files|).value, KnownVersions).0, bin, resolves)
    ensures status != 2
  {
    var found := FindSymChecks(files);
    if found.Err? {
      return [], [], 1;
    }
    var plan;
    plan, warnings := ExpandChecks(found.value, KnownVersions);
    var order, outcome, gherrs := Drive(plan, bin, resolves);
    DriveSucceeds(plan, order, bin, resolves);
    ScanOkIffAllLinesOk(files);
    ScannedNeverPanics(found.value, KnownVersions, order, bin, resolves);
    if outcome.Done? {
      lines, status := Report(outcome.errs, gherrs, githubActions);
    } else {
      lines, status := [], ExitStatus(outcome);
    }
  }
}
