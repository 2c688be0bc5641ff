/**
 * The error register of src/util.c: a flag saying whether an error is pending
 * and a 2048-byte buffer holding its message, both per thread. Setting an
 * error formats the message into a scratch buffer, marks a message that did
 * not fit with "...", and copies the scratch buffer over the message buffer.
 * The formatting itself (`vsnprintf` and its arguments) is abstracted: the
 * register receives the text the format produced.
 */
module ErrState {
  import opened Wrappers
  import opened Text

  /** Size of the message buffer and of the scratch buffer, NUL included. */
  const BufSize: nat := 2048

  /** What `nm_err_set` is handed: the text its format produced, or the format
    * string itself when formatting failed (`vsnprintf` returned a negative count). */
  datatype Formatted = Formatted(text: string) | FormatFailed(fmt: string)

  /** The text written into the scratch buffer for `f`. */
  function Rendered(f: Formatted): string {
    match f
    case Formatted(t) => t
    case FormatFailed(fmt) => "error applying format to error string '" + fmt + "'"
  }

  /** The message readers see once `m` has been stored: `m` itself when it fits
    * the buffer, otherwise its first 2044 characters followed by "...", read
    * up to its first NUL. */
  function Stored(m: string): (s: string)
    ensures |s| < BufSize && '\0' !in s
  {
    CString(if |m| < BufSize then m else m[..BufSize - 4] + "...")
  }

  lemma CStringOfText(s: string)
    requires '\0' !in s
    ensures CString(s) == s
  {
  }

  /** A message without NUL that fits is stored unchanged. */
  lemma StoredFits(m: string)
    requires '\0' !in m && |m| < BufSize
    ensures Stored(m) == m
  {
    CStringOfText(m);
  }

  /** A message without NUL that does not fit is cut to 2047 characters, the
    * last three of which are dots. */
  lemma StoredTruncates(m: string)
    requires '\0' !in m && |m| >= BufSize
    ensures |Stored(m)| == BufSize - 1
    ensures Stored(m)[..BufSize - 4] == m[..BufSize - 4]
    ensures Stored(m)[BufSize - 4..] == "..."
  {
    var t := m[..BufSize - 4] + "...";
    assert '\0' !in t by {
      assert forall i :: 0 <= i < |t| ==> t[i] != '\0' by {
        forall i | 0 <= i < |t| ensures t[i] != '\0' {
          if i < BufSize - 4 { assert t[i] == m[i]; }
        }
      }
    }
    CStringOfText(t);
  }

  /** Storing a stored message again changes nothing. */
  lemma StoredIdempotent(m: string)
    ensures Stored(Stored(m)) == Stored(m)
  {
    CStringOfText(Stored(m));
  }

  /** A buffer that holds `m` followed by a NUL, or its cut form followed by
    * a NUL, reads as the stored form of `m`. */
  lemma BufferHolds(b: string, m: string)
    requires |b| == BufSize
    requires |m| < BufSize ==> b[..|m|] == m && b[|m|] == '\0'
    requires |m| >= BufSize ==> b[..BufSize - 1] == m[..BufSize - 4] + "..." && b[BufSize - 1] == '\0'
    ensures CString(b) == Stored(m)
  {
    if |m| < BufSize {
      CStringStop(b, |m|);
    } else {
      CStringStop(b, BufSize - 1);
    }
  }

  class ErrorRegister {
    /** `nm_err_state`: whether an error is pending. */
    var state: bool
    /** `nm_err_buf`: the message of the last error set. */
    const buf: array<char>
    /** `nm_err_buf_tmp`: the scratch buffer the message is formatted into. */
    const tmp: array<char>

    ghost predicate Valid()
      reads this
    {
      buf.Length == BufSize && tmp.Length == BufSize && buf != tmp
    }

    /** The message held in the buffer, as a C string. */
    function Message(): string
      reads this, buf
    {
      CString(buf[..])
    }

    /** The zero-initialised thread-local state. */
    constructor ()
      ensures Valid() && !state && Message() == ""
      ensures fresh(buf) && fresh(tmp)
    {
      state := false;
      buf := new char[BufSize](_ => '\0');
      tmp := new char[BufSize](_ => '\0');
    }

    /** `nm_err_peek`: the pending message, which stays pending. */
    function Peek(): (r: Option<string>)
      reads this, buf
      ensures r.Some? <==> state
    {
      if state then Some(Message()) else None
    }

    /** `nm_err`: the pending message, after which nothing is pending. */
    method Take() returns (r: Option<string>)
      requires Valid()
      modifies this
      ensures Valid() && !state
      ensures r == old(Peek())
      ensures Message() == old(Message())
    {
      if state {
        state := false;
        return Some(Message());
      }
      return None;
    }

    /** `vsnprintf` into the scratch buffer: as much of `m` as fits before a
      * terminating NUL, and the length `m` needed. */
    method Format(m: string) returns (len: nat)
      requires Valid()
      modifies tmp
      ensures len == |m|
      ensures |m| < BufSize ==> tmp[..|m|] == m && tmp[|m|] == '\0'
      ensures |m| >= BufSize ==> tmp[..BufSize - 1] == m[..BufSize - 1] && tmp[BufSize - 1] == '\0'
    {
      var n := if |m| < BufSize then |m| else BufSize - 1;
      for i := 0 to n
        invariant tmp[..i] == m[..i]
      {
        tmp[i] := m[i];
      }
      tmp[n] := '\0';
      len := |m|;
    }

    /** The marking of a message that did not fit: the last three
      * characters before the terminating NUL become dots. */
    method MarkCut(ghost m: string)
      requires Valid() && |m| >= BufSize
      requires tmp[..BufSize - 1] == m[..BufSize - 1] && tmp[BufSize - 1] == '\0'
      modifies tmp
      ensures tmp[..BufSize - 1] == m[..BufSize - 4] + "..." && tmp[BufSize - 1] == '\0'
    {
      tmp[BufSize - 2] := '.';
      tmp[BufSize - 3] := '.';
      tmp[BufSize - 4] := '.';
      assert tmp[..BufSize - 1] == m[..BufSize - 4] + "...";
    }

    /** The copy of the scratch buffer over the message buffer. */
    method CopyScratch()
      requires Valid()
      modifies buf
      ensures buf[..] == old(tmp[..]) && tmp[..] == old(tmp[..])
    {
      forall i | 0 <= i < BufSize {
        buf[i] := tmp[i];
      }
      assert buf[..] == tmp[..];
    }

    /** `nm_err_set`: no message clears the pending flag and leaves the buffer
      * alone; a message is stored (cut to fit) and made pending. The result
      * says whether an error is now pending. */
    method Set(msg: Option<Formatted>) returns (r: bool)
      requires Valid()
      modifies this, buf, tmp
      ensures Valid()
      ensures r == msg.Some? && state == r
      ensures msg.None? ==> buf[..] == old(buf[..])
      ensures msg.Some? ==> Message() == Stored(Rendered(msg.value))
    {
      state := msg.Some?;
      if msg.Some? {
        var m := Rendered(msg.value);
        var len := Format(m);
        if len >= BufSize {
          MarkCut(m);
        }
        ghost var scratch := tmp[..];
        CopyScratch();
        BufferHolds(scratch, m);
      }
      r := state;
    }
  }

  /** A message that is set is what a peek and the next take report; a second
    * take finds nothing pending. */
  method SetPeekTakeTwice(f: Formatted) returns (peeked: Option<string>, first: Option<string>, second: Option<string>)
    ensures peeked == Some(Stored(Rendered(f)))
    ensures first == peeked
    ensures second == None
  {
    var reg := new ErrorRegister();
    var pending := reg.Set(Some(f));
    peeked := reg.Peek();
    first := reg.Take();
    second := reg.Take();
  }

  /** Setting no message after a message leaves nothing pending, however the
    * previous message read. */
  method SetThenClear(f: Formatted) returns (pending: bool, peeked: Option<string>, taken: Option<string>)
    ensures !pending && peeked == None && taken == None
  {
    var reg := new ErrorRegister();
    var wasSet := reg.Set(Some(f));
    pending := reg.Set(None);
    peeked := reg.Peek();
    taken := reg.Take();
  }
}
