/**
 * Menu item generators (src/generator.c, src/generator_c.c): the wrapper that
 * turns a generator's error into an error item and places every item at the
 * generator's location, and the three built-in generators `_test`,
 * `_test_time` and `kfmon`. The clock, `localtime`, `stat` and the KFMon
 * session are inputs.
 */
module Generators {
  import opened Wrappers
  import opened Text
  import opened MenuItems
  import opened KFMon

  /** `struct timespec`. */
  datatype Timespec = Timespec(sec: int, nsec: int)

  const Zero: Timespec := Timespec(0, 0)

  /** What a generator hands back: its item array (null for none), the size it
    * wrote (None when it left `*sz_out` alone), and its error. */
  datatype GenOutput = GenOutput(items: array?<MenuItem>, sz: Option<nat>, err: Option<string>)

  /** Null items, no size written, no error: nothing to update. */
  const NoUpdate: GenOutput := GenOutput(null, None, None)

  /** A menu item as `calloc` leaves it. */
  const BlankItem: MenuItem := MenuItem(NoLocation, "", [])

  // ---------------------------------------------------------------------
  // nm_generator_do

  /** The item that stands in for a failed generator. */
  function ErrorItem(desc: string, err: string, loc: Location): MenuItem {
    MenuItem(loc, "Generator error", [MenuAction(DbgMsg, desc + ": " + err, true, true)])
  }

  /** `s` with the first `n` items moved to `loc`. */
  function Relocated(s: seq<MenuItem>, n: nat, loc: Location): (r: seq<MenuItem>)
    requires n <= |s|
    ensures |r| == |s|
    ensures forall i :: 0 <= i < n ==> r[i] == s[i].(loc := loc)
    ensures forall i :: n <= i < |s| ==> r[i] == s[i]
  {
    if n == 0 then s else Relocated(s, n - 1, loc)[n - 1 := s[n - 1].(loc := loc)]
  }

  /** `nm_generator_do`: a generator error discards whatever items came back
    * and yields one error item; then every item is placed at `loc`. */
  method GeneratorDo(desc: string, loc: Location, out: GenOutput) returns (items: array?<MenuItem>, sz: Option<nat>)
    requires out.err.None? && out.items != null ==> out.sz.Some? && out.sz.value <= out.items.Length
    modifies if out.err.None? && out.items != null then {out.items} else {}
    ensures out.err.Some? ==> items != null && fresh(items) && sz == Some(1) && items[..] == [ErrorItem(desc, out.err.value, loc)]
    ensures out.err.None? ==> items == out.items && sz == out.sz
    ensures out.err.None? && items != null ==> items[..] == Relocated(old(items[..]), sz.value, loc)
  {
    items, sz := out.items, out.sz;
    if out.err.Some? {
      sz := Some(1);
      items := new MenuItem[1](_ => ErrorItem(desc, out.err.value, NoLocation));
    }
    if items != null {
      ghost var start := items[..];
      for i := 0 to sz.value
        invariant items[..] == Relocated(start, i, loc)
      {
        items[i] := items[i].(loc := loc);
      }
    }
  }

  // ---------------------------------------------------------------------
  // _test

  /** The count `_test` accepts: a whole `strtol` number from 0 to 10. */
  function TestCount(arg: string): (r: Option<nat>)
    ensures r.Some? ==> r.value <= 10
  {
    var (n, whole) := Strtol(arg);
    if |arg| > 0 && whole && 0 <= n <= 10 then Some(n) else None
  }

  function InvalidCount(arg: string): string {
    "invalid count '" + arg + "': must be an integer from 1-10"
  }

  /** The `k`th generated item (from 1). */
  function TestItem(k: nat): MenuItem {
    MenuItem(NoLocation, "Generated " + NatToDecimal(k), [MenuAction(DbgMsg, "Pressed", true, true)])
  }

  function TestItems(n: nat): (r: seq<MenuItem>)
    ensures |r| == n
  {
    seq(n, i requires 0 <= i => TestItem(i + 1))
  }

  /** `nm_generator__test`: with no update stored, `arg` items labelled
    * "Generated 1" onwards, after which the stored time is `now`. */
  method TestGenerator(arg: string, time: Timespec, now: Timespec) returns (out: GenOutput, timeOut: Timespec)
    ensures time != Zero ==> out == NoUpdate && timeOut == time
    ensures time == Zero && TestCount(arg).None? ==> out == GenOutput(null, None, Some(InvalidCount(arg))) && timeOut == time
    ensures time == Zero && TestCount(arg) == Some(0) ==> out == GenOutput(null, Some(0), None) && timeOut == time
    ensures time == Zero && TestCount(arg).Some? && TestCount(arg).value > 0 ==>
      out.items != null && fresh(out.items) && out.items[..] == TestItems(TestCount(arg).value) &&
      out.sz == TestCount(arg) && out.err.None? && timeOut == now
  {
    timeOut := time;
    if time.sec != 0 || time.nsec != 0 {
      return NoUpdate, timeOut;
    }
    var count := TestCount(arg);
    if count.None? {
      return GenOutput(null, None, Some(InvalidCount(arg))), timeOut;
    }
    var n := count.value;
    if n == 0 {
      return GenOutput(null, Some(0), None), timeOut;
    }
    var items := MakeTestItems(n);
    timeOut := now;
    out := GenOutput(items, Some(n), None);
  }

  /** The item loop of `nm_generator__test`: item `i` is labelled with
    * `i + 1`. */
  method MakeTestItems(n: nat) returns (items: array<MenuItem>)
    ensures fresh(items) && items[..] == TestItems(n)
  {
    items := new MenuItem[n](_ => BlankItem);
    for i := 0 to n
      invariant forall j :: 0 <= j < i ==> items[j] == TestItem(j + 1)
    {
      items[i] := TestItem(i + 1);
    }
  }

  /** A count written in digits is accepted exactly when it is at most 10. */
  lemma TestCountDigits(s: string)
    requires |s| > 0 && AllDigits(s)
    ensures TestCount(s) == if DigitsValue(s) <= 10 then Some(DigitsValue(s)) else None
  {
    StrtolDigits(s);
  }

  /** The generated items have pairwise different labels. */
  lemma TestLabelsDistinct(n: nat, i: nat, j: nat)
    requires i < j < n
    ensures TestItems(n)[i].lbl != TestItems(n)[j].lbl
  {
    var a, b := NatToDecimal(i + 1), NatToDecimal(j + 1);
    assert DigitsValue(a) != DigitsValue(b);
    var la, lb := "Generated " + a, "Generated " + b;
    assert la[10..] == a && lb[10..] == b;
    assert TestItems(n)[i].lbl == la && TestItems(n)[j].lbl == lb;
  }

  // ---------------------------------------------------------------------
  // _test_time

  /** The broken-down local time `localtime_r` gives. */
  datatype Clock = Clock(hour: nat, min: nat, sec: nat)

  /** `%02d`. */
  function Pad2(n: nat): string {
    if n < 10 then "0" + NatToDecimal(n) else NatToDecimal(n)
  }

  /** `%d:%02d:%02d`. */
  function TimeLabel(c: Clock): string {
    NatToDecimal(c.hour) + ":" + Pad2(c.min) + ":" + Pad2(c.sec)
  }

  function TimeItem(c: Clock): MenuItem {
    MenuItem(NoLocation, TimeLabel(c), [MenuAction(DbgMsg, "It worked!", true, true)])
  }

  /** An update was stored less than 10 seconds before `now`. */
  predicate RecentlyUpdated(time: Timespec, now: Timespec) {
    time.sec != 0 && now.sec - time.sec < 10
  }

  /** `nm_generator__test_time`: takes no argument and rebuilds its one item,
    * the local time, at most every 10 seconds, storing the seconds of `now`. */
  method TestTimeGenerator(arg: Option<string>, time: Timespec, now: Timespec, local: Clock) returns (out: GenOutput, timeOut: Timespec)
    ensures arg.Some? && |arg.value| > 0 ==>
      out == GenOutput(null, None, Some("_test_time does not accept any arguments")) && timeOut == time
    ensures !(arg.Some? && |arg.value| > 0) && RecentlyUpdated(time, now) ==> out == NoUpdate && timeOut == time
    ensures !(arg.Some? && |arg.value| > 0) && !RecentlyUpdated(time, now) ==>
      out.items != null && fresh(out.items) && out.items[..] == [TimeItem(local)] &&
      out.sz == Some(1) && out.err.None? && timeOut == time.(sec := now.sec)
  {
    timeOut := time;
    if arg.Some? && |arg.value| > 0 {
      return GenOutput(null, None, Some("_test_time does not accept any arguments")), timeOut;
    }
    if time.sec != 0 && now.sec - time.sec < 10 {
      return NoUpdate, timeOut;
    }
    var items := new MenuItem[1](_ => BlankItem);
    items[0] := TimeItem(local);
    timeOut := time.(sec := now.sec);
    out := GenOutput(items, Some(1), None);
  }

  /** An update at a nonzero time makes every call in the next 10 seconds a
    * no-update. */
  method TestTimeTwice(time: Timespec, now: Timespec, later: Timespec, local: Clock) returns (first: GenOutput, second: GenOutput)
    requires !RecentlyUpdated(time, now) && now.sec != 0 && now.sec <= later.sec < now.sec + 10
    ensures first.sz == Some(1) && second == NoUpdate
  {
    var t;
    first, t := TestTimeGenerator(None, time, now, local);
    second, t := TestTimeGenerator(None, t, later, local);
  }

  /** Two-digit padding reads back as the number. */
  lemma Pad2Digits(n: nat)
    requires n < 100
    ensures |Pad2(n)| == 2 && AllDigits(Pad2(n)) && DigitsValue(Pad2(n)) == n
  {
    if n < 10 {
      var d := NatToDecimal(n);
      assert "0" + d == ['0', d[0]];
      assert ['0', d[0]][..1] == ['0'];
    } else {
      var d := NatToDecimal(n);
      assert d == NatToDecimal(n / 10) + [('0' as int + n % 10) as char];
    }
  }

  /** The label splits at ':' into the hour, the minute and the second. */
  lemma TimeLabelFields(c: Clock)
    requires c.min < 60 && c.sec < 60
    ensures var f := Split(TimeLabel(c), ':');
      |f| == 3 && AllDigits(f[0]) && AllDigits(f[1]) && AllDigits(f[2]) &&
      DigitsValue(f[0]) == c.hour && DigitsValue(f[1]) == c.min && DigitsValue(f[2]) == c.sec
  {
    var parts := [NatToDecimal(c.hour), Pad2(c.min), Pad2(c.sec)];
    Pad2Digits(c.min);
    Pad2Digits(c.sec);
    forall i | 0 <= i < 3
      ensures ':' !in parts[i]
    {
      assert AllDigits(parts[i]);
    }
    assert Join(parts[2..], ":") == parts[2];
    assert Join(parts[1..], ":") == parts[1] + ":" + parts[2];
    assert Join(parts, ":") == TimeLabel(c);
    SplitJoin(parts, ':');
  }

  // ---------------------------------------------------------------------
  // kfmon

  /** The path of KFMon's IPC socket, whose modification time marks a change. */
  const IpcSocket: string := "/tmp/kfmon-ipc.ctl"

  /** The list command for the generator's argument: everything for "all",
    * only the watches shown in the UI for none, "" or "gui". */
  function KfmonCommand(arg: Option<string>): (r: Result<string, string>)
    ensures r.Ok? <==> arg.None? || arg.value == "" || arg.value == "gui" || arg.value == "all"
    ensures r.Ok? ==> r.value == if arg == Some("all") then "list" else "gui-list"
  {
    if arg.None? || arg.value == "" || arg.value == "gui" then Ok("gui-list")
    else if arg.value == "all" then Ok("list")
    else Err("invalid argument '" + arg.value + "': if specified, must be either gui or all")
  }

  function WatchItem(w: Watch): MenuItem {
    MenuItem(NoLocation, w.lbl, [MenuAction(Kfmon, w.filename, true, true)])
  }

  /** One item per watch, in list order. */
  function WatchItems(ws: seq<Watch>): (r: seq<MenuItem>)
    ensures |r| == |ws|
    ensures forall i :: 0 <= i < |ws| ==>
      r[i].loc == NoLocation && r[i].lbl == ws[i].lbl && r[i].actions == [MenuAction(Kfmon, ws[i].filename, true, true)]
  {
    if |ws| == 0 then [] else WatchItems(ws[..|ws| - 1]) + [WatchItem(ws[|ws| - 1])]
  }

  /** The session ends with a status within its events. */
  predicate Concludes(s: Session) {
    ListAnswer(s).0.Some?
  }

  /** The status a list request ends with. */
  function ListStatus(s: Session): Status
    requires Concludes(s)
  {
    ListAnswer(s).0.value
  }

  /** The watches a list request appends. */
  function ListWatches(s: Session): seq<Watch> {
    ListAnswer(s).1
  }

  /** The walk of the watch list in `nm_generator_kfmon`: an array of
    * `count` items, one per node in list order. */
  method ItemsOfList(list: WatchList) returns (items: array<MenuItem>)
    requires list.Valid() && list.count == |list.Contents|
    ensures fresh(items) && items[..] == WatchItems(list.Contents)
  {
    items := new MenuItem[list.count](_ => BlankItem);
    var node := list.head;
    ghost var i := 0;
    var k := 0;
    while node != null
      invariant 0 <= i <= |list.nodes| && k == i
      invariant node == (if i < |list.nodes| then list.nodes[i] else null)
      invariant forall j :: 0 <= j < i ==> items[j] == WatchItem(list.Contents[j])
      decreases |list.nodes| - i
    {
      items[k] := WatchItem(node.watch);
      node := node.next;
      i := i + 1;
      k := k + 1;
    }
    assert items[..] == WatchItems(list.Contents);
  }

  /** The list request of `nm_generator_kfmon` and the items made from its
    * answer; `updated` says whether the stored time is to be replaced. */
  method ListWatchItems(cmd: string, s: Session, errText: string) returns (out: GenOutput, updated: bool)
    requires ListReadsFit(s.events) && Concludes(s)
    ensures ListStatus(s) != Success ==> out == GenOutput(null, None, Some(ErrorMessage(ListStatus(s), errText))) && !updated
    ensures ListStatus(s) == Success && ListWatches(s) == [] ==> out == GenOutput(null, Some(0), None) && !updated
    ensures ListStatus(s) == Success && ListWatches(s) != [] ==>
      out.items != null && fresh(out.items) && out.items[..] == WatchItems(ListWatches(s)) &&
      out.sz == Some(|ListWatches(s)|) && out.err.None? && updated
  {
    var list := new WatchList();
    var status, sent := ListRequest(cmd, list, s);
    assert list.Contents == ListWatches(s);
    out, updated := ItemsOfAnswer(status.value, list, errText);
  }

  /** What `nm_generator_kfmon` makes of the list request's status and the
    * list it filled. */
  method ItemsOfAnswer(status: Status, list: WatchList, errText: string) returns (out: GenOutput, updated: bool)
    requires list.Valid() && list.count == |list.Contents|
    modifies list
    ensures status != Success ==> out == GenOutput(null, None, Some(ErrorMessage(status, errText))) && !updated
    ensures status == Success && old(list.Contents) == [] ==> out == GenOutput(null, Some(0), None) && !updated
    ensures status == Success && old(list.Contents) != [] ==>
      out.items != null && fresh(out.items) && out.items[..] == WatchItems(old(list.Contents)) &&
      out.sz == Some(|old(list.Contents)|) && out.err.None? && updated
  {
    if status != Success {
      return GenOutput(null, None, Some(ErrorMessage(status, errText))), false;
    }
    if list.count == 0 {
      return GenOutput(null, Some(0), None), false;
    }
    var items := ItemsOfList(list);
    var freed := list.Teardown();
    out, updated := GenOutput(items, Some(list.count), None), true;
  }

  /** `nm_generator_kfmon`: when the socket's modification time differs from
    * the stored one, lists KFMon's watches and makes one item per watch,
    * after which the stored time is the socket's. */
  method KfmonGenerator(arg: Option<string>, time: Timespec, stat: Result<Timespec, string>, s: Session, errText: string)
    returns (out: GenOutput, timeOut: Timespec)
    requires ListReadsFit(s.events) && Concludes(s)
    ensures stat.Err? ==>
      out == GenOutput(null, None, Some("error checking '" + IpcSocket + "': stat: " + stat.error)) && timeOut == time
    ensures stat == Ok(time) ==> out == NoUpdate && timeOut == time
    ensures stat.Ok? && stat.value != time && KfmonCommand(arg).Err? ==>
      out == GenOutput(null, None, Some(KfmonCommand(arg).error)) && timeOut == time
    ensures stat.Ok? && stat.value != time && KfmonCommand(arg).Ok? && ListStatus(s) != Success ==>
      out == GenOutput(null, None, Some(ErrorMessage(ListStatus(s), errText))) && timeOut == time
    ensures stat.Ok? && stat.value != time && KfmonCommand(arg).Ok? && ListStatus(s) == Success && ListWatches(s) == [] ==>
      out == GenOutput(null, Some(0), None) && timeOut == time
    ensures stat.Ok? && stat.value != time && KfmonCommand(arg).Ok? && ListStatus(s) == Success && ListWatches(s) != [] ==>
      out.items != null && fresh(out.items) && out.items[..] == WatchItems(ListWatches(s)) &&
      out.sz == Some(|ListWatches(s)|) && out.err.None? && timeOut == stat.value
  {
    timeOut := time;
    if stat.Err? {
      return GenOutput(null, None, Some("error checking '" + IpcSocket + "': stat: " + stat.error)), timeOut;
    }
    if time.sec == stat.value.sec && time.nsec == stat.value.nsec {
      return NoUpdate, timeOut;
    }
    var cmd := KfmonCommand(arg);
    if cmd.Err? {
      return GenOutput(null, None, Some(cmd.error)), timeOut;
    }
    var updated;
    out, updated := ListWatchItems(cmd.value, s, errText);
    if updated {
      timeOut := stat.value;
    }
  }
}
