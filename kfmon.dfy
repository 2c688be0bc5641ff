/**
 * The KFMon IPC client of src/kfmon.c: the command packet, the reply
 * classifiers, the parser of the watch list a `list` command returns, the
 * linked list the watches are stored in, the poll loop that waits for
 * replies, and the status-to-error mapping. The socket is not modelled: a
 * connection is the result of connecting, the result of sending, and the
 * sequence of poll events that follows, each read giving the bytes `xread`
 * returned.
 */
module KFMon {
  import opened Wrappers
  import opened Text
  import opened ErrState
  import opened MenuItems

  /** `kfmon_ipc_errno_e`. */
  datatype Status =
    | Success | ETimedOut | EPipe | ENoData | ReadFailure | SendFailure
    | SocketFailure | ConnectFailure | PollFailure | CallocFailure
    | ReplyReadFailure | ListParseFailure | ErrInvalidId | ErrInvalidName
    | WarnAlreadyRunning | WarnSpawnBlocked | WarnSpawnInhibited
    | ErrReallyMalformedCmd | ErrMalformedCmd | ErrInvalidCmd | UnknownReply | EAgain

  /** The numeric value of each status: 0 for success, then 512 upwards, clear of errno values. */
  function Code(s: Status): (c: int)
    ensures c == 0 <==> s == Success
    ensures s != Success ==> 512 <= c <= 532
  {
    match s
    case Success => 0
    case ETimedOut => 512
    case EPipe => 513
    case ENoData => 514
    case ReadFailure => 515
    case SendFailure => 516
    case SocketFailure => 517
    case ConnectFailure => 518
    case PollFailure => 519
    case CallocFailure => 520
    case ReplyReadFailure => 521
    case ListParseFailure => 522
    case ErrInvalidId => 523
    case ErrInvalidName => 524
    case WarnAlreadyRunning => 525
    case WarnSpawnBlocked => 526
    case WarnSpawnInhibited => 527
    case ErrReallyMalformedCmd => 528
    case ErrMalformedCmd => 529
    case ErrInvalidCmd => 530
    case UnknownReply => 531
    case EAgain => 532
  }

  /** `PIPE_BUF`: the size of the reply buffers. */
  const PipeBuf: nat := 4096

  /** The outcome of one `xread` on the socket: a failure, or the bytes read
    * (none at end of file). */
  datatype Read = ReadFailed | Received(data: string)

  // ---------------------------------------------------------------------
  // Replies to simple commands

  /** The reply word KFMon sends for each status a simple command can end with. */
  function ReplyWord(s: Status): Option<string> {
    match s
    case ErrInvalidId => Some("ERR_INVALID_ID")
    case WarnAlreadyRunning => Some("WARN_ALREADY_RUNNING")
    case WarnSpawnBlocked => Some("WARN_SPAWN_BLOCKED")
    case WarnSpawnInhibited => Some("WARN_SPAWN_INHIBITED")
    case ErrReallyMalformedCmd => Some("ERR_REALLY_MALFORMED_CMD")
    case ErrMalformedCmd => Some("ERR_MALFORMED_CMD")
    case ErrInvalidCmd => Some("ERR_INVALID_CMD")
    case Success => Some("OK")
    case _ => None
  }

  /** `handle_reply`: a failed read, end of file, or the first reply word the
    * reply starts with (`strncmp` against each word in turn). */
  function HandleReply(r: Read): (s: Status)
    ensures s != EAgain
  {
    match r
    case ReadFailed => ReplyReadFailure
    case Received(data) =>
      if |data| == 0 then ENoData
      else if HasPrefix(data, "ERR_INVALID_ID") then ErrInvalidId
      else if HasPrefix(data, "WARN_ALREADY_RUNNING") then WarnAlreadyRunning
      else if HasPrefix(data, "WARN_SPAWN_BLOCKED") then WarnSpawnBlocked
      else if HasPrefix(data, "WARN_SPAWN_INHIBITED") then WarnSpawnInhibited
      else if HasPrefix(data, "ERR_REALLY_MALFORMED_CMD") then ErrReallyMalformedCmd
      else if HasPrefix(data, "ERR_MALFORMED_CMD") then ErrMalformedCmd
      else if HasPrefix(data, "ERR_INVALID_CMD") then ErrInvalidCmd
      else if HasPrefix(data, "OK") then Success
      else UnknownReply
  }

  /** A string starting with a word agrees with the word at each of its indices. */
  lemma PrefixAt(d: string, w: string, k: nat)
    requires HasPrefix(d, w) && k < |w|
    ensures d[k] == w[k]
  {
    assert d[..|w|][k] == d[k];
  }

  /** A string starting with `w` does not start with a word that differs
    * from `w` at index `k`. */
  lemma Excludes(d: string, w: string, v: string, k: nat)
    requires HasPrefix(d, w) && k < |w| && k < |v| && w[k] != v[k]
    ensures !HasPrefix(d, v)
  {
    PrefixAt(d, w, k);
    if |v| <= |d| {
      assert d[..|v|][k] == d[k];
    }
  }

  /** A non-empty reply gets the status whose reply word it starts with, and
    * only then: no reply word is a prefix of another, so the order in which
    * they are tried does not matter. */
  lemma HandleReplyByWord(data: string, s: Status)
    requires |data| > 0 && ReplyWord(s).Some?
    ensures HandleReply(Received(data)) == s <==> HasPrefix(data, ReplyWord(s).value)
  {
    HandleReplyStartsWithWord(data);
    if HasPrefix(data, ReplyWord(s).value) {
      HandleReplyFindsWord(data, s);
    }
  }

  /** The status a reply gets is that of a word it starts with. */
  lemma HandleReplyStartsWithWord(data: string)
    requires |data| > 0
    ensures ReplyWord(HandleReply(Received(data))).Some? ==>
      HasPrefix(data, ReplyWord(HandleReply(Received(data))).value)
  {
    var s := HandleReply(Received(data));
    if HasPrefix(data, "ERR_INVALID_ID") {
      assert s == ErrInvalidId;
    } else if HasPrefix(data, "WARN_ALREADY_RUNNING") {
      assert s == WarnAlreadyRunning;
    } else if HasPrefix(data, "WARN_SPAWN_BLOCKED") {
      assert s == WarnSpawnBlocked;
    } else if HasPrefix(data, "WARN_SPAWN_INHIBITED") {
      assert s == WarnSpawnInhibited;
    } else if HasPrefix(data, "ERR_REALLY_MALFORMED_CMD") {
      assert s == ErrReallyMalformedCmd;
    } else if HasPrefix(data, "ERR_MALFORMED_CMD") {
      assert s == ErrMalformedCmd;
    } else if HasPrefix(data, "ERR_INVALID_CMD") {
      assert s == ErrInvalidCmd;
    } else if HasPrefix(data, "OK") {
      assert s == Success;
    } else {
      assert s == UnknownReply;
    }
  }

  /** A reply starting with a word gets that word's status. */
  lemma HandleReplyFindsWord(data: string, s: Status)
    requires |data| > 0 && ReplyWord(s).Some? && HasPrefix(data, ReplyWord(s).value)
    ensures HandleReply(Received(data)) == s
  {
    var w := ReplyWord(s).value;
    var invalidId, already, blocked, inhibited := "ERR_INVALID_ID", "WARN_ALREADY_RUNNING", "WARN_SPAWN_BLOCKED", "WARN_SPAWN_INHIBITED";
    var really, malformed := "ERR_REALLY_MALFORMED_CMD", "ERR_MALFORMED_CMD";
    match s
    case ErrInvalidId =>
    case WarnAlreadyRunning =>
      Excludes(data, w, invalidId, 0);
    case WarnSpawnBlocked =>
      Excludes(data, w, invalidId, 0);
      Excludes(data, w, already, 5);
    case WarnSpawnInhibited =>
      Excludes(data, w, invalidId, 0);
      Excludes(data, w, already, 5);
      Excludes(data, w, blocked, 11);
    case ErrReallyMalformedCmd =>
      Excludes(data, w, invalidId, 4);
      Excludes(data, w, already, 0);
      Excludes(data, w, blocked, 0);
      Excludes(data, w, inhibited, 0);
    case ErrMalformedCmd =>
      Excludes(data, w, invalidId, 4);
      Excludes(data, w, already, 0);
      Excludes(data, w, blocked, 0);
      Excludes(data, w, inhibited, 0);
      Excludes(data, w, really, 4);
    case ErrInvalidCmd =>
      Excludes(data, w, invalidId, 12);
      Excludes(data, w, already, 0);
      Excludes(data, w, blocked, 0);
      Excludes(data, w, inhibited, 0);
      Excludes(data, w, really, 4);
      Excludes(data, w, malformed, 4);
    case Success =>
      Excludes(data, w, invalidId, 0);
      Excludes(data, w, already, 0);
      Excludes(data, w, blocked, 0);
      Excludes(data, w, inhibited, 0);
      Excludes(data, w, really, 0);
      Excludes(data, w, malformed, 0);
      Excludes(data, w, "ERR_INVALID_CMD", 0);
  }

  /** A non-empty reply that starts with no reply word is unknown. */
  lemma HandleReplyUnknown(data: string)
    requires |data| > 0
    ensures HandleReply(Received(data)) == UnknownReply <==>
      forall s :: ReplyWord(s).Some? ==> !HasPrefix(data, ReplyWord(s).value)
  {
    var r := HandleReply(Received(data));
    if r != UnknownReply {
      assert ReplyWord(r).Some?;
      HandleReplyByWord(data, r);
    } else {
      forall s | ReplyWord(s).Some? ensures !HasPrefix(data, ReplyWord(s).value) {
        HandleReplyByWord(data, s);
      }
    }
  }

  // ---------------------------------------------------------------------
  // The watch list

  /** An 8-bit unsigned integer (`uint8_t`). */
  newtype uint8 = x: int | 0 <= x < 256

  /** `kfmon_watch_t`. */
  datatype Watch = Watch(idx: uint8, filename: string, lbl: string)

  /** `ULONG_MAX` on the 32-bit devices the client runs on. */
  const ULongMax: int := 0xFFFF_FFFF

  /** `(uint8_t) strtoul(s, NULL, 10)`: the leading decimal number, negated
    * modulo 2^32 after a minus sign, clamped to `ULONG_MAX` when out of range,
    * then cut to its low 8 bits. */
  function WatchIndex(s: string): uint8 {
    var v := Strtol(s).0;
    (if v > ULongMax || v < -ULongMax then 255 else v % 256) as uint8
  }

  /** A plain decimal index within range is kept modulo 256. */
  lemma WatchIndexTruncates(s: string)
    requires |s| > 0 && AllDigits(s) && DigitsValue(s) <= ULongMax
    ensures WatchIndex(s) as int == DigitsValue(s) % 256
  {
    StrtolDigits(s);
  }

  /** One line of a list reply, `id:filename[:label]`: the label defaults to
    * the file name; a line without ':' is malformed. */
  function ParseWatch(line: string): (w: Option<Watch>)
    ensures w.None? <==> ':' !in line
  {
    SplitStrSep(line, ':');
    var fields := Split(line, ':');
    if |fields| < 2 then None
    else Some(Watch(WatchIndex(fields[0]), fields[1], if |fields| >= 3 then fields[2] else fields[1]))
  }

  /** The line KFMon sends for a watch. */
  function WatchLine(w: Watch): string {
    NatToDecimal(w.idx as nat) + ":" + w.filename + ":" + w.lbl
  }

  /** Parsing the line KFMon sends for a watch gives the watch back when its
    * file name and label hold no ':'. */
  lemma ParseWatchLine(w: Watch)
    requires ':' !in w.filename && ':' !in w.lbl
    ensures ParseWatch(WatchLine(w)) == Some(w)
  {
    var id := NatToDecimal(w.idx as nat);
    DigitsHaveNoColon(id);
    SplitThree(id, w.filename, w.lbl, ':');
    assert WatchLine(w) == id + [':'] + w.filename + [':'] + w.lbl;
    IndexOfDecimal(w.idx);
    ParseThreeFields(WatchLine(w), id, w.filename, w.lbl);
  }

  /** An index written in decimal reads back as itself. */
  lemma IndexOfDecimal(i: uint8)
    ensures WatchIndex(NatToDecimal(i as nat)) == i
  {
    var id := NatToDecimal(i as nat);
    var n: int := i as int;
    assert 0 <= n < 256 && DigitsValue(id) == n;
    SmallMod(n);
    WatchIndexTruncates(id);
  }

  lemma SmallMod(n: int)
    requires 0 <= n < 256
    ensures n % 256 == n
  {
  }

  /** A line that splits into three fields is parsed field by field. */
  lemma ParseThreeFields(line: string, id: string, filename: string, lbl: string)
    requires Split(line, ':') == [id, filename, lbl]
    ensures ParseWatch(line) == Some(Watch(WatchIndex(id), filename, lbl))
  {
  }

  /** The watches of the lines of a list reply up to its first empty line,
    * and whether every one of them parsed. */
  function ParseLines(lines: seq<string>): (r: (bool, seq<Watch>))
    ensures |r.1| <= |lines|
  {
    if |lines| == 0 || lines[0] == "" then (true, [])
    else
      match ParseWatch(lines[0])
      case None => (false, [])
      case Some(w) =>
        var rest := ParseLines(lines[1..]);
        (rest.0, [w] + rest.1)
  }

  /** The number of lines before the first empty one. */
  function Leading(lines: seq<string>): (n: nat)
    ensures n <= |lines|
    ensures forall i :: 0 <= i < n ==> lines[i] != ""
    ensures n < |lines| ==> lines[n] == ""
  {
    if |lines| == 0 || lines[0] == "" then 0 else 1 + Leading(lines[1..])
  }

  /** The list parses exactly when every line before the first empty one has a
    * ':'; each such line then gives one watch, in order. */
  lemma ParseLinesSpec(lines: seq<string>)
    ensures ParseLines(lines).0 <==> forall i :: 0 <= i < Leading(lines) ==> ':' in lines[i]
    ensures ParseLines(lines).0 ==> (|ParseLines(lines).1| == Leading(lines) &&
      forall i :: 0 <= i < Leading(lines) ==> ParseLines(lines).1[i] == ParseWatch(lines[i]).value)
  {
    ParseLinesOkIff(lines);
    ParseLinesWatches(lines);
  }

  lemma {:induction false} ParseLinesOkIff(lines: seq<string>)
    ensures ParseLines(lines).0 <==> forall i :: 0 <= i < Leading(lines) ==> ':' in lines[i]
  {
    if |lines| > 0 && lines[0] != "" {
      ParseLinesOkIff(lines[1..]);
      var n := Leading(lines);
      assert n == 1 + Leading(lines[1..]);
      assert forall i :: 1 <= i < n ==> lines[i] == lines[1..][i - 1];
    }
  }

  lemma {:induction false} ParseLinesWatches(lines: seq<string>)
    ensures ParseLines(lines).0 ==> (|ParseLines(lines).1| == Leading(lines) &&
      forall i :: 0 <= i < Leading(lines) ==> Some(ParseLines(lines).1[i]) == ParseWatch(lines[i]))
  {
    if |lines| > 0 && lines[0] != "" {
      ParseLinesWatches(lines[1..]);
      var n := Leading(lines);
      assert n == 1 + Leading(lines[1..]);
      assert forall i :: 1 <= i < n ==> lines[i] == lines[1..][i - 1];
    }
  }

  /** Replies that answer some other command: KFMon's status words. */
  predicate IsControlReply(data: string) {
    HasPrefix(data, "WARN_") || HasPrefix(data, "ERR_") || HasPrefix(data, "OK")
  }

  /** `handle_list_reply` as a value: the status and the watches appended.
    * The reply is read as the C string its buffer holds, split into lines;
    * it is complete when its last byte is a NUL. */
  function ListReply(r: Read): (Status, seq<Watch>) {
    match r
    case ReadFailed => (ReplyReadFailure, [])
    case Received(data) =>
      if |data| == 0 then (ENoData, [])
      else if HasPrefix(data, "ERR_INVALID_CMD") then (ErrInvalidCmd, [])
      else if IsControlReply(data) then (UnknownReply, [])
      else
        var parsed := ParseLines(Split(CString(data), '\n'));
        if !parsed.0 then (ListParseFailure, parsed.1)
        else (if data[|data| - 1] == '\0' then Success else EAgain, parsed.1)
  }

  /** A reply to another command adds no watch: an unknown command is
    * reported as such, and any other status word is an unknown reply. */
  lemma ListReplyRejectsControl(data: string)
    requires IsControlReply(data)
    ensures ListReply(Received(data)).1 == []
    ensures ListReply(Received(data)).0 == (if HasPrefix(data, "ERR_INVALID_CMD") then ErrInvalidCmd else UnknownReply)
  {
  }

  /** "ERR_INVALID_CMD" is one of the "ERR_" status words. */
  lemma InvalidCmdIsErr(data: string)
    ensures HasPrefix(data, "ERR_INVALID_CMD") ==> HasPrefix(data, "ERR_")
  {
    if HasPrefix(data, "ERR_INVALID_CMD") {
      assert data[..4] == data[..15][..4];
    }
  }

  /** A list reply that parsed is complete exactly when its last byte is a NUL,
    * and is otherwise waiting for more. */
  lemma ListReplyEndOfText(data: string)
    requires |data| > 0 && !IsControlReply(data)
    requires ListReply(Received(data)).0 != ListParseFailure
    ensures ListReply(Received(data)).0 == Success <==> data[|data| - 1] == '\0'
    ensures ListReply(Received(data)).0 != Success ==> ListReply(Received(data)).0 == EAgain
  {
    InvalidCmdIsErr(data);
    var parsed := ParseLines(Split(CString(data), '\n'));
    assert ListReply(Received(data)) == (if data[|data| - 1] == '\0' then Success else EAgain, parsed.1);
  }

  class Node {
    var watch: Watch
    var next: Node?

    /** A node as `calloc` leaves it. */
    constructor ()
      ensures watch == Watch(0, "", "") && next == null
    {
      watch := Watch(0, "", "");
      next := null;
    }
  }

  /** `kfmon_watch_list_t`: a singly linked list with a head, a tail and a count. */
  class WatchList {
    var count: nat
    var head: Node?
    var tail: Node?
    /** The watches of the nodes, head to tail. */
    ghost var Contents: seq<Watch>
    ghost var nodes: seq<Node>
    ghost var Repr: set<object>

    ghost predicate Valid()
      reads this, Repr
    {
      this in Repr &&
      (forall i :: 0 <= i < |nodes| ==> nodes[i] in Repr) &&
      (forall i, j :: 0 <= i < j < |nodes| ==> nodes[i] != nodes[j]) &&
      (forall i :: 0 <= i < |nodes| - 1 ==> nodes[i].next == nodes[i + 1]) &&
      (|nodes| == 0 ==> head == null && tail == null) &&
      (|nodes| > 0 ==> head == nodes[0] && tail == nodes[|nodes| - 1] && tail.next == null) &&
      |Contents| == |nodes| &&
      (forall i :: 0 <= i < |nodes| ==> Contents[i] == nodes[i].watch)
    }

    /** The zero-initialised list. */
    constructor ()
      ensures Valid() && fresh(Repr)
      ensures count == 0 && Contents == []
    {
      count := 0;
      head := null;
      tail := null;
      nodes := [];
      Contents := [];
      Repr := {this};
    }

    /** `kfmon_grow_list`: a zeroed node becomes the new tail and the count
      * grows by one; the head moves only when the list was empty, and the old
      * tail is linked to the new node. */
    method Grow()
      requires Valid()
      modifies Repr
      ensures Valid() && fresh(Repr - old(Repr))
      ensures count == old(count) + 1
      ensures tail != null && fresh(tail) && nodes == old(nodes) + [tail]
      ensures old(head) == null ==> head == tail
      ensures old(head) != null ==> head == old(head)
      ensures old(tail) != null ==> old(tail).next == tail
      ensures Contents == old(Contents) + [Watch(0, "", "")]
    {
      var prev := tail;
      var node := new Node();
      count := count + 1;
      if head == null {
        head := node;
      }
      tail := node;
      if prev != null {
        prev.next := node;
      }
      nodes := nodes + [node];
      Contents := Contents + [node.watch];
      Repr := Repr + {node};
    }

    /** Stores `w` in the tail node, as the list handler does right after growing the list. */
    method SetTail(w: Watch)
      requires Valid() && |nodes| > 0
      modifies this, tail
      ensures Valid() && Repr == old(Repr) && nodes == old(nodes)
      ensures count == old(count)
      ensures Contents == old(Contents)[..|nodes| - 1] + [w]
    {
      tail.watch := w;
      Contents := Contents[..|nodes| - 1] + [w];
    }

    /** Grows the list and fills the new tail with `w`. */
    method Append(w: Watch)
      requires Valid()
      modifies Repr
      ensures Valid() && fresh(Repr - old(Repr))
      ensures count == old(count) + 1
      ensures Contents == old(Contents) + [w]
    {
      Grow();
      SetTail(w);
    }

    /** `kfmon_teardown_list`: every node is released, head to tail; head and
      * tail are cleared, and the count is left as it was. */
    method Teardown() returns (freed: seq<Watch>)
      requires Valid()
      modifies this
      ensures Valid() && head == null && tail == null && nodes == []
      ensures count == old(count)
      ensures freed == old(Contents)
    {
      var node := head;
      ghost var i := 0;
      freed := [];
      while node != null
        invariant 0 <= i <= |nodes|
        invariant node == (if i < |nodes| then nodes[i] else null)
        invariant freed == Contents[..i]
        decreases |nodes| - i
      {
        freed := freed + [node.watch];
        node := node.next;
        i := i + 1;
      }
      head := null;
      tail := null;
      nodes := [];
      Contents := [];
      Repr := {this};
    }
  }

  /** The three `strsep` calls that cut one line into index, file name and
    * label; a line without ':' leaves no file name. */
  method SplitWatchLine(line: string) returns (w: Option<Watch>)
    ensures w == ParseWatch(line)
  {
    var (id, afterId) := StrSep(line, ':');
    SplitStrSep(line, ':');
    if afterId.None? {
      return None;
    }
    var (filename, afterName) := StrSep(afterId.value, ':');
    SplitStrSep(afterId.value, ':');
    var lbl := filename;
    if afterName.Some? {
      lbl := StrSep(afterName.value, ':').0;
      SplitStrSep(afterName.value, ':');
    }
    return Some(Watch(WatchIndex(id), filename, lbl));
  }

  /** The lines still to parse when `p` is what `strsep` has left of the buffer. */
  function LinesOf(p: Option<string>): seq<string> {
    if p.Some? then Split(p.value, '\n') else []
  }

  /** `handle_list_reply`: classifies the reply like `ListReply` and appends
    * one node per parsed line to `list`, splitting the buffer line by line
    * with `strsep`. */
  method HandleListReply(list: WatchList, r: Read) returns (status: Status)
    requires list.Valid()
    modifies list.Repr
    ensures list.Valid() && fresh(list.Repr - old(list.Repr))
    ensures status == ListReply(r).0
    ensures list.Contents == old(list.Contents) + ListReply(r).1
    ensures list.count == old(list.count) + |ListReply(r).1|
  {
    if r.ReadFailed? {
      return ReplyReadFailure;
    }
    var data := r.data;
    if |data| == 0 {
      return ENoData;
    }
    if HasPrefix(data, "ERR_INVALID_CMD") {
      return ErrInvalidCmd;
    } else if HasPrefix(data, "WARN_") || HasPrefix(data, "ERR_") || HasPrefix(data, "OK") {
      return UnknownReply;
    }
    var eot := data[|data| - 1] == '\0';
    var whole := ParseLines(Split(CString(data), '\n'));
    assert ListReply(r) == (if !whole.0 then ListParseFailure else if eot then Success else EAgain, whole.1);
    var ok, added := ParseInto(list, CString(data));
    status := if !ok then ListParseFailure else if eot then Success else EAgain;
  }

  /** The result of parsing the lines `strsep` has left in `p`, after the
    * watches `added` were appended. */
  function Resume(added: seq<Watch>, p: Option<string>): (bool, seq<Watch>) {
    var r := ParseLines(LinesOf(p));
    (r.0, added + r.1)
  }

  /** `strsep` takes the first line off the lines left. */
  lemma LinesStep(p: string)
    ensures LinesOf(Some(p)) == [StrSep(p, '\n').0] + LinesOf(StrSep(p, '\n').1)
  {
    SplitStrSep(p, '\n');
  }

  /** `ParseLines` on a first line and the lines after it. */
  lemma ParseLinesCons(line: string, tail: seq<string>)
    ensures ParseLines([line] + tail) ==
      if line == "" then (true, [])
      else if ParseWatch(line).None? then (false, [])
      else (ParseLines(tail).0, [ParseWatch(line).value] + ParseLines(tail).1)
  {
    assert ([line] + tail)[0] == line && ([line] + tail)[1..] == tail;
  }

  /** One `strsep` of the line loop: an empty line ends the parse, a line
    * without ':' fails it, and any other line adds its watch. */
  lemma ResumeStep(added: seq<Watch>, p: string)
    ensures var (line, rest) := StrSep(p, '\n');
      Resume(added, Some(p)) ==
        if line == "" then (true, added)
        else if ParseWatch(line).None? then (false, added)
        else Resume(added + [ParseWatch(line).value], rest)
  {
    var (line, rest) := StrSep(p, '\n');
    LinesStep(p);
    ParseLinesCons(line, LinesOf(rest));
    var tail := ParseLines(LinesOf(rest));
    AppendNil(added);
    if line != "" && ParseWatch(line).Some? {
      AppendAssoc(added, [ParseWatch(line).value], tail.1);
    }
  }

  /** One iteration of the line loop of `handle_list_reply` on what `strsep`
    * has left of the buffer: an empty line ends the loop, a line without ':'
    * fails it, and any other line appends its watch to `list`. `done` says how
    * the loop ended, if it did; `rest` is what is left for the next iteration. */
  method NextLine(list: WatchList, pv: string, ghost c0: seq<Watch>, ghost n0: nat, ghost added: seq<Watch>)
    returns (done: Option<bool>, rest: Option<string>, ghost w: seq<Watch>)
    requires list.Valid() && list.Contents == c0 + added && list.count == n0 + |added|
    modifies list.Repr
    ensures list.Valid() && fresh(list.Repr - old(list.Repr))
    ensures list.Contents == c0 + (added + w) && list.count == n0 + |added + w|
    ensures done.Some? ==> Resume(added, Some(pv)) == (done.value, added + w)
    ensures done.None? ==> Resume(added, Some(pv)) == Resume(added + w, rest)
    ensures rest.Some? ==> |rest.value| < |pv|
  {
    var parsed;
    done, rest, parsed := CutLine(pv, added);
    w := [];
    AppendNil(added);
    if done.None? {
      w := AppendTo(list, parsed.value, c0, n0, added);
    }
  }

  /** The parsing half of one iteration of the line loop: `strsep` the next
    * line off, then end on an empty line, fail on a line without ':', or
    * give the watch the line holds. */
  method CutLine(pv: string, ghost added: seq<Watch>) returns (done: Option<bool>, rest: Option<string>, parsed: Option<Watch>)
    ensures done.Some? ==> Resume(added, Some(pv)) == (done.value, added)
    ensures done.None? <==> parsed.Some?
    ensures done.None? ==> Resume(added, Some(pv)) == Resume(added + [parsed.value], rest)
    ensures rest.Some? ==> |rest.value| < |pv|
  {
    var cut := StrSep(pv, '\n');
    var line := cut.0;
    rest := cut.1;
    if line == "" {
      ResumeCases(added, pv, line, rest, None);
      return Some(true), rest, None;
    }
    parsed := SplitWatchLine(line);
    ResumeCases(added, pv, line, rest, parsed);
    done := if parsed.None? then Some(false) else None;
  }

  /** Appends `x` to a list holding `c0 + added`. */
  method AppendTo(list: WatchList, x: Watch, ghost c0: seq<Watch>, ghost n0: nat, ghost added: seq<Watch>)
    returns (ghost w: seq<Watch>)
    requires list.Valid() && list.Contents == c0 + added && list.count == n0 + |added|
    modifies list.Repr
    ensures w == [x]
    ensures list.Valid() && fresh(list.Repr - old(list.Repr))
    ensures list.Contents == c0 + (added + w) && list.count == n0 + |added + w|
  {
    list.Append(x);
    w := [x];
    AppendAssoc(c0, added, w);
  }

  /** `ResumeStep` for the line and the rest that one `strsep` gives. */
  lemma ResumeCases(added: seq<Watch>, pv: string, line: string, rest: Option<string>, parsed: Option<Watch>)
    requires (line, rest) == StrSep(pv, '\n')
    requires line != "" ==> parsed == ParseWatch(line)
    ensures line == "" ==> Resume(added, Some(pv)) == (true, added)
    ensures line != "" && parsed.None? ==> Resume(added, Some(pv)) == (false, added)
    ensures line != "" && parsed.Some? ==> Resume(added, Some(pv)) == Resume(added + [parsed.value], rest)
    ensures rest.Some? ==> |rest.value| < |pv|
  {
    ResumeStep(added, pv);
  }

  /** Appending in two steps is appending once. */
  lemma AppendAssoc(a: seq<Watch>, b: seq<Watch>, c: seq<Watch>)
    ensures a + b + c == a + (b + c)
  {
  }

  lemma AppendNil(a: seq<Watch>)
    ensures a + [] == a
  {
  }

  lemma NilAppend(a: seq<Watch>)
    ensures [] + a == a
  {
  }

  /** The line loop of `handle_list_reply`: appends the watch of each line of
    * `text` before the first empty one, stopping at a line without ':'. */
  method ParseInto(list: WatchList, text: string) returns (ok: bool, ghost added: seq<Watch>)
    requires list.Valid()
    modifies list.Repr
    ensures list.Valid() && fresh(list.Repr - old(list.Repr))
    ensures (ok, added) == ParseLines(Split(text, '\n'))
    ensures list.Contents == old(list.Contents) + added
    ensures list.count == old(list.count) + |added|
  {
    var p: Option<string> := Some(text);
    var finished := false;
    ok := true;
    added := [];
    ghost var whole := ParseLines(Split(text, '\n'));
    NilAppend(whole.1);
    while !finished && p.Some?
      invariant list.Valid() && fresh(list.Repr - old(list.Repr))
      invariant list.Contents == old(list.Contents) + added
      invariant list.count == old(list.count) + |added|
      invariant finished ==> whole == (ok, added)
      invariant !finished ==> ok && Resume(added, p) == whole
      decreases if finished then 0 else 1, if p.Some? then |p.value| + 1 else 0
    {
      var done, rest, w := NextLine(list, p.value, old(list.Contents), old(list.count), added);
      added := added + w;
      if done.Some? {
        finished := true;
        ok := done.value;
      } else {
        p := rest;
      }
    }
    if !finished {
      AppendNil(added);
    }
  }

  // ---------------------------------------------------------------------
  // Waiting for replies

  /** What one `poll` call reports: interrupted by a signal, failed, timed
    * out, or ready with the POLLIN and POLLHUP flags (and, when POLLIN is set,
    * what the reply handler's read returns). */
  datatype Event = Interrupted | PollError | PollTimeout | Ready(pollin: bool, pollhup: bool, read: Read)

  /** The reply handler in use: `handle_list_reply` when a list is being
    * filled, `handle_reply` otherwise. */
  function Handle(listMode: bool, r: Read): (Status, seq<Watch>) {
    if listMode then ListReply(r) else (HandleReply(r), [])
  }

  /** What one poll does: the status the loop returns with, if it stops; the
    * retry count after it; and the watches the handler appended. */
  datatype Outcome = Outcome(stop: Option<Status>, retry: nat, added: seq<Watch>)

  /** One iteration of the `wait_for_replies` loop. */
  function Step(e: Event, attempts: nat, retry: nat, listMode: bool): (o: Outcome)
    ensures o.stop != Some(EAgain)
    ensures o.retry == retry + (if e == PollTimeout then 1 else 0)
    ensures o.stop == Some(ETimedOut) ==> o.retry >= attempts
    ensures o.stop.None? ==> o.retry < attempts || e.Interrupted? || (e.Ready? && e.pollin)
  {
    match e
    case Interrupted => Outcome(None, retry, [])
    case PollError => Outcome(Some(PollFailure), retry, [])
    case PollTimeout =>
      Outcome(if retry + 1 >= attempts then Some(ETimedOut) else None, retry + 1, [])
    case Ready(pollin, pollhup, read) =>
      if pollin then
        var (s, ws) := Handle(listMode, read);
        if s == Success then Outcome(Some(Success), retry, ws)
        else if pollhup then Outcome(Some(EPipe), retry, ws)
        else if s == EAgain then Outcome(None, retry, ws)
        else Outcome(Some(s), retry, ws)
      else if pollhup then Outcome(Some(EPipe), retry, [])
      else if retry >= attempts then Outcome(Some(ETimedOut), retry, [])
      else Outcome(None, retry, [])
  }

  /** `wait_for_replies` over a sequence of poll events, with `retry` timeouts
    * already counted: the status it returns (None when the events run out
    * before it returns) and the watches the handler appended. */
  function Wait(events: seq<Event>, attempts: nat, retry: nat, listMode: bool): (r: (Option<Status>, seq<Watch>))
    decreases |events|
  {
    if |events| == 0 then (None, [])
    else
      var o := Step(events[0], attempts, retry, listMode);
      if o.stop.Some? then (o.stop, o.added)
      else
        var more := Wait(events[1..], attempts, o.retry, listMode);
        (more.0, o.added + more.1)
  }

  /** The poll loop never hands back "try again": a handler asking for more
    * data makes it poll again. */
  lemma {:induction false} WaitNeverAgain(events: seq<Event>, attempts: nat, retry: nat, listMode: bool)
    ensures Wait(events, attempts, retry, listMode).0 != Some(EAgain)
    decreases |events|
  {
    if |events| > 0 {
      var o := Step(events[0], attempts, retry, listMode);
      WaitNeverAgain(events[1..], attempts, o.retry, listMode);
    }
  }

  /** The number of timed-out polls among `events`. */
  function Timeouts(events: seq<Event>): (n: nat)
    ensures n <= |events|
  {
    if |events| == 0 then 0 else (if events[0] == PollTimeout then 1 else 0) + Timeouts(events[1..])
  }

  /** The loop only gives up once the remaining attempts have all timed out. */
  lemma {:induction false} TimedOutAfterAttempts(events: seq<Event>, attempts: nat, retry: nat, listMode: bool)
    requires retry < attempts
    requires Wait(events, attempts, retry, listMode).0 == Some(ETimedOut)
    ensures Timeouts(events) >= attempts - retry
    decreases |events|
  {
    var o := Step(events[0], attempts, retry, listMode);
    if o.stop.None? && o.retry < attempts {
      TimedOutAfterAttempts(events[1..], attempts, o.retry, listMode);
    }
  }

  /** `n` timed-out polls in a row. */
  function TimeoutRun(n: nat): (r: seq<Event>)
    ensures |r| == n && Timeouts(r) == n
  {
    if n == 0 then [] else [PollTimeout] + TimeoutRun(n - 1)
  }

  /** And it does give up then: as many timeouts in a row as attempts remain
    * end the wait with a timeout, whatever follows. */
  lemma {:induction false} TimeoutsEndWait(n: nat, rest: seq<Event>, attempts: nat, retry: nat, listMode: bool)
    requires retry < attempts && n == attempts - retry
    ensures Wait(TimeoutRun(n) + rest, attempts, retry, listMode) == (Some(ETimedOut), [])
    decreases n
  {
    var events := TimeoutRun(n) + rest;
    assert events == [PollTimeout] + (TimeoutRun(n - 1) + rest);
    assert events[0] == PollTimeout && events[1..] == TimeoutRun(n - 1) + rest;
    if retry + 1 < attempts {
      TimeoutsEndWait(n - 1, rest, attempts, retry + 1, listMode);
      assert Step(events[0], attempts, retry, listMode) == Outcome(None, retry + 1, []);
      var more := Wait(events[1..], attempts, retry + 1, listMode);
      assert more == (Some(ETimedOut), []);
      assert Wait(events, attempts, retry, listMode) == (more.0, [] + more.1);
      assert [] + more.1 == [];
    }
  }

  /** The connection was hung up: a reply that is not a success ends the wait
    * with EPIPE, whatever the handler said. */
  lemma HangUpIsEPipe(read: Read, rest: seq<Event>, attempts: nat, retry: nat, listMode: bool)
    requires Handle(listMode, read).0 != Success
    ensures Wait([Ready(true, true, read)] + rest, attempts, retry, listMode).0 == Some(EPipe)
  {
  }

  /** A handler asking for more data neither stops the loop nor counts as a
    * timeout: the wait goes on exactly as if from the next event. */
  lemma AgainKeepsWaiting(read: Read, rest: seq<Event>, attempts: nat, retry: nat, listMode: bool)
    requires Handle(listMode, read).0 == EAgain
    ensures Wait([Ready(true, false, read)] + rest, attempts, retry, listMode) ==
      (Wait(rest, attempts, retry, listMode).0, Handle(listMode, read).1 + Wait(rest, attempts, retry, listMode).1)
  {
    var events := [Ready(true, false, read)] + rest;
    assert events[0] == Ready(true, false, read) && events[1..] == rest;
    StepAgain(read, attempts, retry, listMode);
  }

  lemma StepAgain(read: Read, attempts: nat, retry: nat, listMode: bool)
    requires Handle(listMode, read).0 == EAgain
    ensures Step(Ready(true, false, read), attempts, retry, listMode) == Outcome(None, retry, Handle(listMode, read).1)
  {
  }

  /** Every read of a list reply fits the buffer with room for a terminating NUL. */
  ghost predicate ListReadsFit(events: seq<Event>) {
    forall i :: 0 <= i < |events| && events[i].Ready? && events[i].read.Received? ==>
      |events[i].read.data| <= ListReadCap
  }

  /** The reply handler of one poll: the list handler when `list` is given,
    * the simple handler otherwise. */
  method HandleAny(read: Read, list: WatchList?,
                   ghost c0: seq<Watch>, ghost n0: nat, ghost added: seq<Watch>) returns (reply: Status, ws: seq<Watch>)
    requires list != null ==> (list.Valid() && list.Contents == c0 + added && list.count == n0 + |added|)
    modifies if list == null then {} else list.Repr
    ensures list == null ==> reply == HandleReply(read) && ws == []
    ensures list != null ==> reply == ListReply(read).0 && ws == ListReply(read).1
    ensures list != null ==> (list.Valid() && fresh(list.Repr - old(list.Repr)) &&
      list.Contents == c0 + (added + ws) && list.count == n0 + |added + ws|)
  {
    if list == null {
      reply := HandleReply(read);
      ws := [];
    } else {
      reply := HandleListReply(list, read);
      ws := ListReply(read).1;
      AppendAssoc(c0, added, ws);
    }
  }


  /** One iteration of the loop of `wait_for_replies`, calling the list
    * handler when `list` is given and the simple handler otherwise. */
  method Poll(e: Event, attempts: nat, retry: nat, list: WatchList?,
              ghost c0: seq<Watch>, ghost n0: nat, ghost added: seq<Watch>) returns (o: Outcome)
    requires list != null ==> (list.Valid() && list.Contents == c0 + added && list.count == n0 + |added|)
    modifies if list == null then {} else list.Repr
    ensures o == Step(e, attempts, retry, list != null)
    ensures list == null ==> o.added == []
    ensures list != null ==> (list.Valid() && fresh(list.Repr - old(list.Repr)) &&
      list.Contents == c0 + (added + o.added) && list.count == n0 + |added + o.added|)
  {
    match e {
      case Interrupted =>
        return Outcome(None, retry, []);
      case PollError =>
        return Outcome(Some(PollFailure), retry, []);
      case PollTimeout =>
        var r := retry + 1;
        return Outcome(if r >= attempts then Some(ETimedOut) else None, r, []);
      case Ready(pollin, pollhup, read) =>
        if pollin {
          var reply, ws := HandleAny(read, list, c0, n0, added);
          if reply != Success {
            if pollhup {
              return Outcome(Some(EPipe), retry, ws);
            } else if reply == EAgain {
              return Outcome(None, retry, ws);
            }
            return Outcome(Some(reply), retry, ws);
          }
          return Outcome(Some(Success), retry, ws);
        } else if pollhup {
          return Outcome(Some(EPipe), retry, []);
        } else if retry >= attempts {
          return Outcome(Some(ETimedOut), retry, []);
        }
        return Outcome(None, retry, []);
    }
  }

  /** A poll that stops the loop decides the whole wait. */
  lemma WaitStops(events: seq<Event>, i: nat, attempts: nat, retry: nat, listMode: bool)
    requires i < |events| && Step(events[i], attempts, retry, listMode).stop.Some?
    ensures Wait(events[i..], attempts, retry, listMode) ==
      (Step(events[i], attempts, retry, listMode).stop, Step(events[i], attempts, retry, listMode).added)
  {
    assert events[i..][0] == events[i];
  }

  /** A poll that does not stop the loop leaves the rest of the wait to the
    * next events, after the watches it appended. */
  lemma WaitGoesOn(events: seq<Event>, i: nat, attempts: nat, retry: nat, listMode: bool)
    requires i < |events| && Step(events[i], attempts, retry, listMode).stop.None?
    ensures Wait(events[i..], attempts, retry, listMode) ==
      (Wait(events[i + 1..], attempts, Step(events[i], attempts, retry, listMode).retry, listMode).0,
       Step(events[i], attempts, retry, listMode).added +
       Wait(events[i + 1..], attempts, Step(events[i], attempts, retry, listMode).retry, listMode).1)
  {
    assert events[i..][0] == events[i] && events[i..][1..] == events[i + 1..];
  }

  /** The poll of `events[i]`, with what it means for the whole wait: `w` is
    * the wait from `events[i]` on and `total` the whole wait, of which the
    * watches `added` are already in the list; `next` is the wait after
    * `events[i]`. */
  method PollNext(events: seq<Event>, i: nat, attempts: nat, retry: nat, list: WatchList?,
                  ghost c0: seq<Watch>, ghost n0: nat, ghost added: seq<Watch>,
                  ghost w: (Option<Status>, seq<Watch>), ghost total: (Option<Status>, seq<Watch>))
    returns (o: Outcome, ghost next: (Option<Status>, seq<Watch>))
    requires i < |events| && w == Wait(events[i..], attempts, retry, list != null)
    requires total.0 == w.0 && total.1 == added + w.1
    requires list != null ==> (list.Valid() && list.Contents == c0 + added && list.count == n0 + |added|)
    modifies if list == null then {} else list.Repr
    ensures o.stop.Some? ==> total == (o.stop, added + o.added)
    ensures o.stop.None? ==> next == Wait(events[i + 1..], attempts, o.retry, list != null)
    ensures o.stop.None? ==> total.0 == next.0 && total.1 == (added + o.added) + next.1
    ensures list == null ==> o.added == []
    ensures list != null ==> (list.Valid() && fresh(list.Repr - old(list.Repr)) &&
      list.Contents == c0 + (added + o.added) && list.count == n0 + |added + o.added|)
  {
    o := Poll(events[i], attempts, retry, list, c0, n0, added);
    if o.stop.Some? {
      WaitStops(events, i, attempts, retry, list != null);
      next := w;
    } else {
      WaitGoesOn(events, i, attempts, retry, list != null);
      next := Wait(events[i + 1..], attempts, o.retry, list != null);
      AppendAssoc(added, o.added, next.1);
    }
  }

  /** `wait_for_replies` with the list handler when `list` is given and the
    * simple handler otherwise. */
  method WaitForReplies(events: seq<Event>, attempts: nat, list: WatchList?) returns (status: Option<Status>)
    requires list != null ==> list.Valid()
    modifies if list == null then {} else list.Repr
    ensures status == Wait(events, attempts, 0, list != null).0
    ensures list != null ==> (list.Valid() && fresh(list.Repr - old(list.Repr)) &&
      list.Contents == old(list.Contents) + Wait(events, attempts, 0, true).1 &&
      list.count == old(list.count) + |Wait(events, attempts, 0, true).1|)
  {
    var retry := 0;
    var i := 0;
    ghost var added: seq<Watch> := [];
    ghost var c0 := if list == null then [] else list.Contents;
    ghost var n0 := if list == null then 0 else list.count;
    ghost var total := Wait(events, attempts, 0, list != null);
    assert events[0..] == events;
    ghost var rest := total;
    NilAppend(total.1);
    while i < |events|
      invariant 0 <= i <= |events|
      invariant rest == Wait(events[i..], attempts, retry, list != null)
      invariant total.0 == rest.0 && total.1 == added + rest.1
      invariant list != null ==> list.Valid() && fresh(list.Repr - old(list.Repr))
      invariant list != null ==> list.Contents == c0 + added && list.count == n0 + |added|
      invariant list == null ==> added == []
    {
      var o, next := PollNext(events, i, attempts, retry, list, c0, n0, added, rest, total);
      if o.stop.Some? {
        added := added + o.added;
        return o.stop;
      }
      added := added + o.added;
      rest := next;
      i := i + 1;
      retry := o.retry;
    }
    assert events[i..] == [];
    AppendNil(added);
    return None;
  }

  // ---------------------------------------------------------------------
  // The list reply buffer

  /** The `calloc`ed buffer the list handler reads into: the bytes read,
    * then zeros up to `PIPE_BUF`. */
  function ListBuffer(data: string): (b: string)
    requires |data| <= PipeBuf
    ensures |b| == PipeBuf && b[..|data|] == data
  {
    data + seq(PipeBuf - |data|, _ => '\0')
  }

  /** As written, the handler reads up to `PIPE_BUF` bytes into a buffer of
    * `PIPE_BUF` bytes, so a full read of non-NUL bytes leaves no terminator:
    * `strsep` then scans past the end of the buffer. */
  lemma UnterminatedListBuffer()
    ensures var data := seq(PipeBuf, _ => 'a');
      |data| <= PipeBuf && '\0' !in ListBuffer(data)
  {
    var data := seq(PipeBuf, _ => 'a');
    assert ListBuffer(data) == data;
    assert forall i :: 0 <= i < |data| ==> data[i] != '\0';
  }

  /** Reading at most `PIPE_BUF - 1` bytes keeps a NUL in the buffer. */
  const ListReadCap: nat := PipeBuf - 1

  /** With that cap the buffer always holds a NUL after the bytes read, and
    * the text `strsep` walks is exactly the C string of what was read. */
  lemma ListBufferTerminated(data: string)
    requires |data| <= ListReadCap
    ensures '\0' in ListBuffer(data)
    ensures CString(ListBuffer(data)) == CString(data)
  {
    var b := ListBuffer(data);
    assert b[|data|] == '\0';
    var s, t := CString(b), CString(data);
    assert forall i :: 0 <= i < |t| ==> t[i] == data[i] && data[i] == b[i] && t[i] != '\0';
    assert forall i :: 0 <= i < |s| ==> s[i] == b[i] && s[i] != '\0';
    if |t| < |data| {
      assert b[|t|] == '\0';
    }
    assert |s| == |t|;
  }

  // ---------------------------------------------------------------------
  // Requests

  /** The size of the stack buffer `send_ipc_command` formats the packet into. */
  const CmdBufSize: nat := 256

  /** The text `snprintf` is asked to produce: `cmd:arg`, or `cmd` alone. */
  function PacketText(cmd: string, arg: Option<string>): string {
    if arg.Some? then cmd + ":" + arg.value else cmd
  }

  /** As written, the packet length sent is the value `snprintf` returns plus
    * one for the NUL: the length of the whole text, even when it was cut to
    * fit the buffer. */
  function SentLengthAsWritten(cmd: string, arg: Option<string>): nat {
    |PacketText(cmd, arg)| + 1
  }

  /** A 255-character argument makes the sent length overrun the 256-byte
    * buffer the packet was formatted into. */
  lemma PacketOverRead()
    ensures var arg := Some(seq(255, _ => 'x'));
      SentLengthAsWritten("trigger", arg) == 264 && SentLengthAsWritten("trigger", arg) > CmdBufSize
  {
  }

  /** The packet sent: what fits of the text in the buffer, with its NUL, as
    * `send_ipc_command` means to send it. */
  function Packet(cmd: string, arg: Option<string>): (p: string)
    ensures 1 <= |p| <= CmdBufSize && p[|p| - 1] == '\0'
    ensures |PacketText(cmd, arg)| < CmdBufSize ==> p == PacketText(cmd, arg) + "\0"
    ensures |PacketText(cmd, arg)| >= CmdBufSize ==> p == PacketText(cmd, arg)[..CmdBufSize - 1] + "\0"
  {
    var text := PacketText(cmd, arg);
    (if |text| < CmdBufSize then text else text[..CmdBufSize - 1]) + "\0"
  }

  /** What KFMon reads back from a packet: the text up to the NUL, split at
    * its first ':' into the command and the argument. */
  function CommandOf(p: string): (string, Option<string>) {
    StrSep(CString(p), ':')
  }

  /** A packet that fits is read back as the command and argument it was
    * made from, when neither holds a NUL and the command holds no ':'. */
  lemma PacketRoundTrip(cmd: string, arg: Option<string>)
    requires |PacketText(cmd, arg)| < CmdBufSize
    requires ':' !in cmd && '\0' !in cmd && (arg.Some? ==> '\0' !in arg.value)
    ensures CommandOf(Packet(cmd, arg)) == (cmd, arg)
  {
    var text := PacketText(cmd, arg);
    var p := Packet(cmd, arg);
    assert '\0' !in text by {
      if arg.Some? {
        assert forall i :: 0 <= i < |text| ==> text[i] != '\0' by {
          forall i | 0 <= i < |text| ensures text[i] != '\0' {
            if i < |cmd| { assert text[i] == cmd[i]; }
            else if i > |cmd| { assert text[i] == arg.value[i - |cmd| - 1]; }
          }
        }
      }
    }
    CStringStop(p, |text|);
    assert p[..|text|] == text;
    CStringOfText(text);
    if arg.Some? {
      StrSepAt(cmd, ':', arg.value);
    }
  }

  /** How `connect_to_kfmon_socket` ended. */
  datatype Connect = Connected | SocketFailed | ConnectFailed

  /** How sending the packet in full ended. */
  datatype Send = Sent | SendPipeClosed | SendFailed

  /** One session with KFMon: connecting, sending, then the poll events. */
  datatype Session = Session(connect: Connect, send: Send, events: seq<Event>)

  /** Attempts of 500 ms each that a request waits for its reply. */
  const Attempts: nat := 4

  /** The status a session ends with before any reply is awaited, if any. */
  function Setup(s: Session): (r: Option<Status>)
    ensures r.None? <==> s.connect == Connected && s.send == Sent
  {
    match (s.connect, s.send)
    case (SocketFailed, _) => Some(SocketFailure)
    case (ConnectFailed, _) => Some(ConnectFailure)
    case (Connected, SendPipeClosed) => Some(EPipe)
    case (Connected, SendFailed) => Some(SendFailure)
    case (Connected, Sent) => None
  }

  /** `nm_kfmon_simple_request`: connect, send, then wait for one reply with
    * the simple handler; None when the events run out first. */
  function SimpleRequest(s: Session): (r: Option<Status>)
    ensures r != Some(EAgain)
  {
    WaitNeverAgain(s.events, Attempts, 0, false);
    if Setup(s).Some? then Setup(s) else Wait(s.events, Attempts, 0, false).0
  }

  /** Event `i` is a readable reply starting with "OK". */
  predicate OkReplyAt(events: seq<Event>, i: int) {
    0 <= i < |events| && events[i].Ready? && events[i].pollin &&
    events[i].read.Received? && HasPrefix(events[i].read.data, "OK")
  }

  /** The simple wait succeeds only on a reply starting with "OK". */
  lemma {:induction false} WaitSuccessNeedsOk(events: seq<Event>, attempts: nat, retry: nat)
    requires Wait(events, attempts, retry, false).0 == Some(Success)
    ensures exists i :: OkReplyAt(events, i)
    decreases |events|
  {
    var rest := events[1..];
    var e := events[0];
    var o := Step(e, attempts, retry, false);
    if o.stop.Some? {
      assert e.Ready? && e.pollin && HandleReply(e.read) == Success;
      HandleReplyByWord(e.read.data, Success);
      assert OkReplyAt(events, 0);
    } else {
      WaitSuccessNeedsOk(rest, attempts, o.retry);
      var i :| OkReplyAt(rest, i);
      assert events[i + 1] == rest[i];
      assert OkReplyAt(events, i + 1);
    }
  }

  /** A simple request succeeds only when connected, sent, and answered "OK". */
  lemma SimpleRequestSuccess(s: Session)
    requires SimpleRequest(s) == Some(Success)
    ensures s.connect == Connected && s.send == Sent
    ensures exists i :: OkReplyAt(s.events, i)
  {
    WaitSuccessNeedsOk(s.events, Attempts, 0);
  }

  /** What a list request over session `s` ends with: the status (none when
    * the replies run out) and the watches it appends. */
  function ListAnswer(s: Session): (Option<Status>, seq<Watch>) {
    if Setup(s).Some? then (Setup(s), []) else Wait(s.events, Attempts, 0, true)
  }

  /** `nm_kfmon_list_request`: connect, send the list command, then wait for
    * replies with the list handler, appending the watches to `list`. */
  method ListRequest(cmd: string, list: WatchList, s: Session) returns (status: Option<Status>, sent: Option<string>)
    requires list.Valid() && ListReadsFit(s.events)
    modifies list.Repr
    ensures list.Valid() && fresh(list.Repr - old(list.Repr))
    ensures sent == (if s.connect == Connected then Some(Packet(cmd, None)) else None)
    ensures status == ListAnswer(s).0 && status != Some(EAgain)
    ensures list.Contents == old(list.Contents) + ListAnswer(s).1
    ensures list.count == old(list.count) + |list.Contents| - |old(list.Contents)|
  {
    sent := None;
    if s.connect != Connected {
      return Setup(s), sent;
    }
    sent := Some(Packet(cmd, None));
    if s.send != Sent {
      return Setup(s), sent;
    }
    status := WaitForReplies(s.events, Attempts, list);
    WaitNeverAgain(s.events, Attempts, 0, true);
  }

  // ---------------------------------------------------------------------
  // Status to error

  /** The message `nm_kfmon_error_handler` sets for a failed status, with
    * `%m` rendered as `errText` (the text of `errno`). */
  function ErrorMessage(s: Status, errText: string): (m: string)
    requires s != Success
  {
    match s
    case ETimedOut => "Timed out waiting for KFMon"
    case EPipe => "KFMon closed the connection"
    case ENoData => "No more data to read"
    case ReadFailure => "read: " + errText
    case SendFailure => "send: " + errText
    case SocketFailure => "Failed to create local KFMon IPC socket (socket: " + errText + ")"
    case ConnectFailure => "KFMon IPC is down (connect: " + errText + ")"
    case PollFailure => "poll: " + errText
    case CallocFailure => "calloc: " + errText
    case ReplyReadFailure => "Failed to read KFMon's reply (" + errText + ")"
    case ListParseFailure => "Failed to parse the list of watches (no separator found)"
    case ErrInvalidId => "Requested to start an invalid watch index"
    case ErrInvalidName => "Requested to trigger an invalid watch filename (expected the basename of the image trigger)"
    case WarnAlreadyRunning => "Requested watch is already running"
    case WarnSpawnBlocked => "A spawn blocker is currently running"
    case WarnSpawnInhibited => "Spawns are currently inhibited"
    case ErrReallyMalformedCmd => "KFMon couldn't parse our command"
    case ErrMalformedCmd => "Bad command syntax"
    case ErrInvalidCmd => "Command wasn't recognized by KFMon"
    case UnknownReply => "We couldn't make sense of KFMon's reply"
    case EAgain => "Something went wrong"
  }

  /** `nm_kfmon_error_handler`: success clears the error and gives false;
    * any other status sets its message and gives true. */
  method ErrorHandler(reg: ErrorRegister, s: Status, errText: string) returns (failed: bool)
    requires reg.Valid()
    modifies reg, reg.buf, reg.tmp
    ensures reg.Valid()
    ensures failed <==> s != Success
    ensures reg.state == failed
    ensures s == Success ==> reg.buf[..] == old(reg.buf[..])
    ensures s != Success ==> reg.Message() == Stored(ErrorMessage(s, errText))
  {
    if s == Success {
      failed := reg.Set(None);
    } else {
      failed := reg.Set(Some(Formatted(ErrorMessage(s, errText))));
    }
  }

  /** `nm_kfmon_return_handler`: a silent result on success, otherwise no
    * result and the error set. */
  method ReturnHandler(reg: ErrorRegister, s: Status, errText: string) returns (r: Option<ActionResult>)
    requires reg.Valid()
    modifies reg, reg.buf, reg.tmp
    ensures reg.Valid()
    ensures r == (if s == Success then Some(Silent) else None)
    ensures reg.state <==> r.None?
    ensures s != Success ==> reg.Message() == Stored(ErrorMessage(s, errText))
  {
    var failed := ErrorHandler(reg, s, errText);
    r := if failed then None else Some(Silent);
  }

  /** The status the `kfmon` action reports for a trigger request: an invalid
    * index becomes an invalid name, since the watch was named by file. */
  function TriggerStatus(s: Status): (t: Status)
    ensures t != ErrInvalidId
    ensures (t == Success) == (s == Success)
    ensures s != ErrInvalidId ==> t == s
  {
    if s == ErrInvalidId then ErrInvalidName else s
  }

  /** A fresh register, one failed request: the register reports exactly that
    * failure's message, once. */
  method RequestFailureReported(s: Status, errText: string) returns (r: Option<ActionResult>, taken: Option<string>)
    requires s != Success
    ensures r == None
    ensures taken == Some(Stored(ErrorMessage(s, errText)))
  {
    var reg := new ErrorRegister();
    r := ReturnHandler(reg, s, errText);
    taken := reg.Take();
  }
}
