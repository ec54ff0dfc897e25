/** What the calls on a memcached socket do, as functions of everything the kernel answers. A script lists
    those answers in order; a script that ends while the call still loops is an unfinished run. */
module Wire {
  import opened CStrings

  type Errno = n: nat | 0 < n witness 1

  const EINTR: Errno := 4
  const EBADF: Errno := 9
  const EAGAIN: Errno := 11 // and EWOULDBLOCK
  const EINPROGRESS: Errno := 115
  const ECANCELED: Errno := 125

  const MAXSTATSZ: nat := 32768
  const END := "END\r\n"
  const ERROR := "ERROR"

  datatype Progress = Looping | Returned | Bailed

  function Min(a: nat, b: nat): nat {
    if a <= b then a else b
  }

  /** sk->timeout - labs(now - start), in milliseconds */
  function TimeRemaining(timeout: int, start: int, now: int): int {
    timeout - if now >= start then now - start else start - now
  }

  // ----- write

  /** What one turn of the write loop is answered: a count, or an errno and then the answer of poll. */
  datatype WriteEv = Wrote(n: nat, now: int) | WriteFails(errno: Errno, poll: Option<Errno>, now: int)

  datatype WriteState = WriteState(sent: nat, err: int, remaining: int, status: Progress)

  /** One turn for a command of n bytes. The kernel takes at most what it is offered. */
  function WriteStep(n: nat, timeout: int, start: int, st: WriteState, ev: WriteEv): WriteState
    requires st.sent < n
  {
    match ev
    case Wrote(m, now) =>
      var sent := st.sent + Min(m, n - st.sent);
      AfterWrite(n, st.(sent := sent, remaining := TimeRemaining(timeout, start, now)))
    case WriteFails(e, poll, now) =>
      if e != EAGAIN || st.remaining <= 0 then st.(err := e, status := Bailed)
      else if poll.Some? then st.(err := poll.value, status := Bailed)
      else AfterWrite(n, st.(err := e, remaining := TimeRemaining(timeout, start, now)))
  }

  function AfterWrite(n: nat, st: WriteState): WriteState {
    if st.sent < n && st.remaining < 0 then st.(status := Bailed)
    else if st.sent >= n then st.(status := Returned)
    else st
  }

  function WriteRun(n: nat, timeout: int, start: int, st: WriteState, script: seq<WriteEv>): WriteState
    requires st.sent <= n && (st.status == Looping ==> st.sent < n)
    decreases |script|
  {
    if st.status != Looping || script == [] then st
    else WriteRun(n, timeout, start, WriteStep(n, timeout, start, st, script[0]), script[1..])
  }

  function WriteStart(n: nat, timeout: int): WriteState {
    WriteState(0, 0, timeout, if n == 0 then Returned else Looping)
  }

  /** A prefix is sent, and the loop returns without bailing exactly when the prefix is everything. */
  lemma {:induction false} WriteDelivers(n: nat, timeout: int, start: int, st: WriteState, script: seq<WriteEv>)
    requires st.sent <= n && (st.status == Looping ==> st.sent < n)
    requires st.status == Returned ==> st.sent == n
    requires st.status == Bailed ==> st.sent < n
    ensures var r := WriteRun(n, timeout, start, st, script);
      st.sent <= r.sent <= n && (r.status == Returned <==> r.sent == n) && (r.status != Looping || r.sent < n)
    decreases |script|
  {
    if st.status == Looping && script != [] {
      WriteDelivers(n, timeout, start, WriteStep(n, timeout, start, st, script[0]), script[1..]);
    }
  }

  /** Whether any of the calls a run makes fails. */
  predicate RunFails(n: nat, timeout: int, start: int, st: WriteState, script: seq<WriteEv>)
    requires st.sent <= n && (st.status == Looping ==> st.sent < n)
    decreases |script|
  {
    st.status == Looping && script != [] &&
    (script[0].WriteFails? || RunFails(n, timeout, start, WriteStep(n, timeout, start, st, script[0]), script[1..]))
  }

  /** The return code tells whether some call failed on the way, not whether the command was delivered. */
  lemma {:induction false} WriteErrSticks(n: nat, timeout: int, start: int, st: WriteState, script: seq<WriteEv>)
    requires st.sent <= n && (st.status == Looping ==> st.sent < n)
    ensures WriteRun(n, timeout, start, st, script).err == 0 <==>
            st.err == 0 && !RunFails(n, timeout, start, st, script)
    decreases |script|
  {
    if st.status == Looping && script != [] {
      var st' := WriteStep(n, timeout, start, st, script[0]);
      WriteErrSticks(n, timeout, start, st', script[1..]);
    }
  }

  /** Both ways the code misleads: delivered but nonzero, and zero but closed. */
  lemma WriteCodeMisleads()
    ensures WriteRun(2, 10, 0, WriteStart(2, 10), [WriteFails(EAGAIN, None, 1), Wrote(2, 2)]) == WriteState(2, EAGAIN, 8, Returned)
    ensures WriteRun(2, 10, 0, WriteStart(2, 10), [Wrote(1, 11)]) == WriteState(1, 0, -1, Bailed)
  {
    var e1, e2 := WriteFails(EAGAIN, None, 1), Wrote(2, 2);
    assert [e1, e2][1..] == [e2] && [e2][1..] == [];
    var st := WriteState(0, EAGAIN, 9, Looping);
    assert WriteStep(2, 10, 0, WriteStart(2, 10), e1) == st;
    assert WriteStep(2, 10, 0, st, e2) == WriteState(2, EAGAIN, 8, Returned);
    assert WriteRun(2, 10, 0, st, [e2]) == WriteState(2, EAGAIN, 8, Returned);
  }

  /** The kernel takes k bytes: all offered bytes at last, and before that some of them while no time is missing, or
      none, when it would block, while time is left and poll works. */
  predicate Accepts(script: seq<WriteEv>, k: nat, timeout: int, start: int, remaining: int)
    decreases |script|
  {
    k == 0 ||
    (script != [] &&
     var left := TimeRemaining(timeout, start, script[0].now);
     match script[0]
     case Wrote(m, now) => m >= k || (left >= 0 && Accepts(script[1..], k - m, timeout, start, left))
     case WriteFails(e, poll, now) =>
       e == 11 && poll == None && remaining > 0 && left >= 0 && Accepts(script[1..], k, timeout, start, left))
  }

  /** The loop returns, everything sent, if and only if the kernel takes it all in this way. */
  lemma {:induction false} WriteReturnsExactly(n: nat, timeout: int, start: int, st: WriteState, script: seq<WriteEv>)
    requires st.sent <= n && st.status == if st.sent == n then Returned else Looping
    ensures WriteRun(n, timeout, start, st, script).status == Returned <==>
            Accepts(script, n - st.sent, timeout, start, st.remaining)
    decreases |script|
  {
    if st.status == Looping && script != [] {
      var st' := WriteStep(n, timeout, start, st, script[0]);
      if st'.status != Bailed {
        WriteReturnsExactly(n, timeout, start, st', script[1..]);
      }
    }
  }

  /** A clock that went back counts like one that went forward as far. */
  lemma ClockDistance(timeout: int, start: int, d: nat)
    ensures TimeRemaining(timeout, start, start + d) == TimeRemaining(timeout, start, start - d) == timeout - d
  {
  }

  // ----- read

  datatype ReadEv = Arrives(data: string, now: int) | ReadFails(errno: Errno, poll: Option<Errno>, now: int)

  datatype ReadState = ReadState(filled: string, err: int, remaining: int, done: bool, status: Progress)

  predicate WantsMore(len: nat, st: ReadState) {
    st.status == Looping && |st.filled| < len && !st.done
  }

  /** One turn of the read loop with room for len bytes. */
  function ReadStep(len: nat, timeout: int, start: int, st: ReadState, ev: ReadEv): (r: ReadState)
    requires |st.filled| <= len
    ensures |r.filled| <= len && st.filled <= r.filled
  {
    match ev
    case Arrives(data, now) =>
      var chunk := data[..Min(|data|, len - |st.filled|)];
      AfterRead(chunk == "", st.(filled := st.filled + chunk, err := 0, remaining := TimeRemaining(timeout, start, now)))
    case ReadFails(e, poll, now) =>
      if (e != EINTR && e != EAGAIN) || st.remaining <= 0 then st.(err := e, status := Bailed)
      else if poll.Some? then st.(err := poll.value, status := Bailed)
      else AfterRead(false, st.(err := e, remaining := TimeRemaining(timeout, start, now)))
  }

  function AfterRead(eof: bool, st: ReadState): ReadState {
    var text := CStr(st.filled);
    var st' := st.(done := st.done || eof || Contains(text, END));
    if Contains(text, ERROR) then st'.(err := ECANCELED, status := Bailed) else st'
  }

  /** The run of one call, and the answers it has not used. */
  function ReadRun(len: nat, timeout: int, start: int, st: ReadState, script: seq<ReadEv>): (r: (ReadState, seq<ReadEv>))
    requires |st.filled| <= len
    ensures |r.1| <= |script| && (WantsMore(len, st) && script != [] ==> |r.1| < |script|)
    ensures st.filled <= r.0.filled && |r.0.filled| <= len && (WantsMore(len, r.0) ==> r.1 == [])
    decreases |script|
  {
    if !WantsMore(len, st) || script == [] then (st, script)
    else ReadRun(len, timeout, start, ReadStep(len, timeout, start, st, script[0]), script[1..])
  }

  function ReadStart(remaining: int, done: bool): ReadState {
    ReadState("", 0, remaining, done, Looping)
  }

  /** With a zeroed buffer a finished call returns 0 exactly when it did not bail. */
  lemma {:induction false} ReadErrIsBail(len: nat, timeout: int, start: int, st: ReadState, script: seq<ReadEv>)
    requires |st.filled| <= len && st.status != Returned
    requires st.status == Bailed ==> st.err != 0
    requires st.status == Looping ==> (st.err == 0 || (!st.done && |st.filled| < len))
    requires WantsMore(len, st) ==> !Contains(CStr(st.filled), END)
    ensures var r := ReadRun(len, timeout, start, st, script).0;
      r.status != Returned && (!WantsMore(len, r) ==> (r.err == 0 <==> r.status != Bailed))
    decreases |script|
  {
    hide Contains, CStr;
    if WantsMore(len, st) && script != [] {
      ReadErrIsBail(len, timeout, start, ReadStep(len, timeout, start, st, script[0]), script[1..]);
    }
  }

  // ----- fragmentation

  /** A whole reply: its only END line is its last line, and it carries no error. */
  ghost predicate WholeReply(reply: string) {
    && NulFree(reply) && |reply| >= |END|
    && OccursAt(reply, END, |reply| - |END|)
    && (forall i: nat :: OccursAt(reply, END, i) ==> i == |reply| - |END|)
    && !Contains(reply, ERROR)
  }

  /** The script delivers exactly this text in non-empty pieces and fails only with EINTR and EAGAIN. The time
      limit matters to failed reads alone: each needs time left since the turn before, and a poll that works.
      A piece is welcome at any time. */
  predicate Delivers(script: seq<ReadEv>, text: string, timeout: int, start: int, remaining: int)
    decreases |script|
  {
    if script == [] then text == ""
    else
      var left := TimeRemaining(timeout, start, script[0].now);
      match script[0]
      case Arrives(data, now) =>
        data != "" && data <= text && Delivers(script[1..], text[|data|..], timeout, start, left)
      case ReadFails(e, poll, now) =>
        e in {EINTR, EAGAIN} && poll == None && remaining > 0 && text != "" &&
        Delivers(script[1..], text, timeout, start, left)
  }

  lemma ContainsPrefix(s: string, t: string, pat: string)
    requires s <= t && Contains(s, pat)
    ensures Contains(t, pat)
  {
    var i :| 0 <= i <= |s| && OccursAt(s, pat, i);
    assert t[i..i + |pat|] == s[i..i + |pat|];
    assert OccursAt(t, pat, i);
  }

  /** A part of a reply holds no END unless it is the whole. */
  lemma PartHasNoEnd(part: string, reply: string)
    requires WholeReply(reply) && part <= reply
    ensures CStr(part) == part && !Contains(part, ERROR)
    ensures Contains(part, END) <==> part == reply
  {
    CStrIs(part, part);
    if Contains(part, ERROR) {
      ContainsPrefix(part, reply, ERROR);
    }
    if Contains(part, END) {
      var i :| 0 <= i <= |part| && OccursAt(part, END, i);
      assert reply[i..i + |END|] == part[i..i + |END|];
      assert OccursAt(reply, END, i);
    }
    assert OccursAt(reply, END, |reply| - |END|);
  }

  /** However a reply is cut up and delayed, the buffer ends up holding it and the call succeeds. */
  lemma {:induction false} FragmentationRun(len: nat, timeout: int, start: int, st: ReadState, script: seq<ReadEv>,
                                            reply: string, rest: string)
    requires WholeReply(reply) && |reply| < len
    requires st.filled + rest == reply && rest != "" && !st.done && st.status == Looping
    requires Delivers(script, rest, timeout, start, st.remaining)
    ensures var (r, unused) := ReadRun(len, timeout, start, st, script);
      r.filled == reply && r.done && r.err == 0 && r.status == Looping && unused == []
    decreases |script|
  {
    hide Contains, WholeReply, CStr;
    var st' := ReadStep(len, timeout, start, st, script[0]);
    match script[0]
    case Arrives(data, now) =>
      assert st'.filled == st.filled + data;
      PartHasNoEnd(st.filled + data, reply);
      var rest' := rest[|data|..];
      assert st'.filled + rest' == reply;
      if rest' == "" {
        assert st'.filled == reply;
        DeliveredAll(script[1..], timeout, start, st'.remaining);
      } else {
        FragmentationRun(len, timeout, start, st', script[1..], reply, rest');
      }
    case ReadFails(e, poll, now) =>
      PartHasNoEnd(st.filled, reply);
      FragmentationRun(len, timeout, start, st', script[1..], reply, rest);
  }

  lemma DeliveredAll(script: seq<ReadEv>, timeout: int, start: int, remaining: int)
    requires Delivers(script, "", timeout, start, remaining)
    ensures script == []
  {
  }

  /** And only such scripts do that: a run that ends with the reply and nothing left over was a delivery. */
  lemma {:induction false} FragmentationOnly(len: nat, timeout: int, start: int, st: ReadState, script: seq<ReadEv>,
                                             reply: string, rest: string)
    requires WholeReply(reply) && |reply| < len
    requires st.filled + rest == reply && rest != "" && !st.done && st.status == Looping
    requires var (r, unused) := ReadRun(len, timeout, start, st, script);
      r.filled == reply && r.done && r.status == Looping && unused == []
    ensures Delivers(script, rest, timeout, start, st.remaining)
    decreases |script|
  {
    hide Contains, WholeReply, CStr;
    var st' := ReadStep(len, timeout, start, st, script[0]);
    match script[0]
    case Arrives(data, now) =>
      assert st'.filled <= reply;
      assert st'.filled == st.filled + data;
      SameText(st.filled, data, rest, reply);
      PartHasNoEnd(st'.filled, reply);
      var rest' := rest[|data|..];
      assert st'.filled + rest' == reply;
      if rest' != "" {
        assert data != "";
        FragmentationOnly(len, timeout, start, st', script[1..], reply, rest');
      }
    case ReadFails(e, poll, now) =>
      PartHasNoEnd(st.filled, reply);
      FragmentationOnly(len, timeout, start, st', script[1..], reply, rest);
  }

  /** Fragmentation independence, both ways: exactly the deliveries of a whole reply end with that reply in the
      buffer, nothing left over, no error and the socket open. */
  lemma FragmentationIndependence(len: nat, timeout: int, start: int, script: seq<ReadEv>, reply: string)
    requires WholeReply(reply) && |reply| < len
    ensures var (r, unused) := ReadRun(len, timeout, start, ReadStart(timeout, false), script);
      Delivers(script, reply, timeout, start, timeout) <==>
      r.(remaining := 0) == ReadState(reply, 0, 0, true, Looping) && unused == []
  {
    hide ReadRun, Delivers, WholeReply;
    assert "" + reply == reply;
    assert reply != "" by { WholeIsSome(reply); }
    if Delivers(script, reply, timeout, start, timeout) {
      FragmentationRun(len, timeout, start, ReadStart(timeout, false), script, reply, reply);
    } else if ReadRun(len, timeout, start, ReadStart(timeout, false), script).1 == [] {
      var r := ReadRun(len, timeout, start, ReadStart(timeout, false), script).0;
      if r.filled == reply && r.done && r.status == Looping {
        FragmentationOnly(len, timeout, start, ReadStart(timeout, false), script, reply, reply);
      }
    }
  }

  lemma WholeIsSome(reply: string)
    requires WholeReply(reply)
    ensures reply != ""
  {
  }

  /** A piece may come at the very limit, after a wait that used all the time. */
  lemma LatePieceDelivered(reply: string)
    requires reply != ""
    ensures Delivers([ReadFails(EAGAIN, None, 1), Arrives(reply, 10)], reply, 10, 0, 10)
  {
    var e1, e2 := ReadFails(EAGAIN, None, 1), Arrives(reply, 10);
    assert [e1, e2][1..] == [e2] && [e2][1..] == [] && reply[|reply|..] == "";
    assert Delivers([e2], reply, 10, 0, 9);
  }

  /** The same for an answer without an END line that fills the room exactly. */
  lemma {:induction false} ExactRun(timeout: int, start: int, st: ReadState, script: seq<ReadEv>, reply: string, rest: string)
    requires NulFree(reply) && !Contains(reply, END) && !Contains(reply, ERROR)
    requires st.filled + rest == reply && !st.done && st.status == Looping && (rest == "" ==> st.err == 0)
    requires Delivers(script, rest, timeout, start, st.remaining)
    ensures var (r, unused) := ReadRun(|reply|, timeout, start, st, script);
      r.filled == reply && r.err == 0 && r.status == Looping && unused == [] && !WantsMore(|reply|, r)
    decreases |script|
  {
    hide Contains, CStr;
    if rest != "" {
      var st' := ReadStep(|reply|, timeout, start, st, script[0]);
      match script[0]
      case Arrives(data, now) =>
        var rest' := rest[|data|..];
        assert st'.filled + rest' == reply && st'.filled == st.filled + data;
        PartIsClean(st'.filled, reply);
        ExactRun(timeout, start, st', script[1..], reply, rest');
      case ReadFails(e, poll, now) =>
        PartIsClean(st.filled, reply);
        ExactRun(timeout, start, st', script[1..], reply, rest);
    } else {
      DeliveredAll(script, timeout, start, st.remaining);
    }
  }

  lemma PartIsClean(part: string, reply: string)
    requires part <= reply && NulFree(reply) && !Contains(reply, END) && !Contains(reply, ERROR)
    ensures CStr(part) == part && !Contains(part, END) && !Contains(part, ERROR)
  {
    CStrIs(part, part);
    if Contains(part, END) {
      ContainsPrefix(part, reply, END);
    }
    if Contains(part, ERROR) {
      ContainsPrefix(part, reply, ERROR);
    }
  }

  // ----- the other ways a read ends

  /** Bytes that make no call end: no NUL, no END line, no error. */
  predicate Clean(text: string) {
    NulFree(text) && !Contains(text, "END\r\n") && !Contains(text, "ERROR")
  }

  /** The time left after the answers so far. */
  function LeftAfter(script: seq<ReadEv>, timeout: int, start: int, remaining: int): int {
    if script == [] then remaining else TimeRemaining(timeout, start, script[|script| - 1].now)
  }

  /** After a clean part has been delivered the call goes on from there. */
  lemma {:induction false} PartDelivered(len: nat, timeout: int, start: int, st: ReadState, d: seq<ReadEv>,
                                         more: seq<ReadEv>, part: string, rest: string)
    requires Clean(part) && |part| < len && st.filled + rest == part && !st.done && st.status == Looping
    requires Delivers(d, rest, timeout, start, st.remaining)
    ensures var s := ReadRun(len, timeout, start, st, d).0;
      && s.filled == part && !s.done && s.status == Looping && s.remaining == LeftAfter(d, timeout, start, st.remaining)
      && ReadRun(len, timeout, start, st, d + more) == ReadRun(len, timeout, start, s, more)
    decreases |d|
  {
    hide Contains, CStr, Clean;
    if d == [] {
      assert d + more == more;
    } else {
      assert (d + more)[1..] == d[1..] + more;
      var st' := ReadStep(len, timeout, start, st, d[0]);
      match d[0]
      case Arrives(data, now) =>
        var rest' := rest[|data|..];
        assert st'.filled + rest' == part && st'.filled == st.filled + data;
        CleanPart(st'.filled, part);
        PartDelivered(len, timeout, start, st', d[1..], more, part, rest');
      case ReadFails(e, poll, now) =>
        CleanPart(st.filled, part);
        PartDelivered(len, timeout, start, st', d[1..], more, part, rest);
    }
  }

  lemma CleanPart(part: string, text: string)
    requires part <= text && Clean(text)
    ensures CStr(part) == part && !Contains(part, END) && !Contains(part, ERROR)
  {
    PartIsClean(part, text);
  }

  /** A delivery that fills the room exactly ends the call, and what comes behind it stays unread. */
  lemma {:induction false} BufferFilled(timeout: int, start: int, st: ReadState, d: seq<ReadEv>, more: seq<ReadEv>,
                                        text: string, rest: string)
    requires Clean(text) && st.filled + rest == text && !st.done && st.status == Looping && (rest == "" ==> st.err == 0)
    requires Delivers(d, rest, timeout, start, st.remaining)
    ensures ReadRun(|text|, timeout, start, st, d + more) ==
            (ReadState(text, 0, LeftAfter(d, timeout, start, st.remaining), false, Looping), more)
    decreases |d|
  {
    hide Contains, CStr, Clean;
    if rest == "" {
      DeliveredAll(d, timeout, start, st.remaining);
      assert d + more == more && st.filled == text;
    } else {
      assert (d + more)[1..] == d[1..] + more;
      var st' := ReadStep(|text|, timeout, start, st, d[0]);
      match d[0]
      case Arrives(data, now) =>
        var rest' := rest[|data|..];
        assert st'.filled + rest' == text && st'.filled == st.filled + data;
        CleanPart(st'.filled, text);
        BufferFilled(timeout, start, st', d[1..], more, text, rest');
      case ReadFails(e, poll, now) =>
        CleanPart(st.filled, text);
        BufferFilled(timeout, start, st', d[1..], more, text, rest);
    }
  }

  /** A failure that cannot be waited out ends the call with its errno, and the socket with it: any errno but the
      two for waiting, or no time left, or a poll that fails. */
  lemma ReadBreaksOff(len: nat, timeout: int, start: int, d: seq<ReadEv>, part: string,
                      e: Errno, poll: Option<Errno>, now: int, more: seq<ReadEv>)
    requires Clean(part) && |part| < len && Delivers(d, part, timeout, start, timeout)
    requires var left := LeftAfter(d, timeout, start, timeout); e !in {4, 11} || left <= 0 || poll.Some?
    ensures var r := ReadRun(len, timeout, start, ReadStart(timeout, false), d + ([ReadFails(e, poll, now)] + more)).0;
      r.status == Bailed && r.filled == part &&
      r.err == if e in {4, 11} && LeftAfter(d, timeout, start, timeout) > 0 then poll.value else e
  {
    hide Contains, CStr, Delivers, Clean;
    var ev := ReadFails(e, poll, now);
    assert "" + part == part && ([ev] + more)[1..] == more;
    PartDelivered(len, timeout, start, ReadStart(timeout, false), d, [ev] + more, part, part);
    var s := ReadRun(len, timeout, start, ReadStart(timeout, false), d).0;
    var s' := ReadStep(len, timeout, start, s, ev);
    assert ReadRun(len, timeout, start, s', more) == (s', more);
  }

  /** The end of the stream ends the call without an error, with what has come, and leaves the socket open. */
  lemma ReadEndsAtEof(len: nat, timeout: int, start: int, d: seq<ReadEv>, part: string, now: int, more: seq<ReadEv>)
    requires Clean(part) && |part| < len && Delivers(d, part, timeout, start, timeout)
    ensures var r := ReadRun(len, timeout, start, ReadStart(timeout, false), d + ([Arrives("", now)] + more)).0;
      r.status == Looping && r.done && r.err == 0 && r.filled == part
  {
    hide Contains, CStr, Delivers;
    var ev := Arrives("", now);
    assert "" + part == part && ([ev] + more)[1..] == more && part + "" == part;
    PartDelivered(len, timeout, start, ReadStart(timeout, false), d, [ev] + more, part, part);
    PartIsClean(part, part);
    var s := ReadRun(len, timeout, start, ReadStart(timeout, false), d).0;
    var s' := ReadStep(len, timeout, start, s, ev);
    assert ReadRun(len, timeout, start, s', more) == (s', more);
  }

  /** A text with an error in it, before any END line and in any pieces, ends the call with ECANCELED and closes the socket. */
  lemma {:induction false} ReadEndsOnError(len: nat, timeout: int, start: int, st: ReadState, d: seq<ReadEv>,
                                           more: seq<ReadEv>, text: string, rest: string)
    requires NulFree(text) && !Contains(text, "END\r\n") && Contains(text, "ERROR") && |text| <= len
    requires st.filled + rest == text && !Contains(st.filled, "ERROR") && !st.done && st.status == Looping
    requires Delivers(d, rest, timeout, start, st.remaining)
    ensures var r := ReadRun(len, timeout, start, st, d + more).0; r.status == Bailed && r.err == 125
    decreases |d|
  {
    hide Contains, CStr;
    assert rest == "" ==> st.filled == text;
    assert (d + more)[1..] == d[1..] + more && (d + more)[0] == d[0];
    var st' := ReadStep(len, timeout, start, st, d[0]);
    match d[0]
    case Arrives(data, now) =>
      var rest' := rest[|data|..];
      assert st'.filled + rest' == text && st'.filled == st.filled + data;
      PartOfText(st'.filled, text);
      if Contains(st'.filled, "ERROR") {
        assert ReadRun(len, timeout, start, st', d[1..] + more).0 == st';
      } else {
        ReadEndsOnError(len, timeout, start, st', d[1..], more, text, rest');
      }
    case ReadFails(e, poll, now) =>
      PartOfText(st.filled, text);
      ReadEndsOnError(len, timeout, start, st', d[1..], more, text, rest);
  }

  lemma PartOfText(part: string, text: string)
    requires part <= text && NulFree(text) && !Contains(text, "END\r\n")
    ensures CStr(part) == part && !Contains(part, "END\r\n")
  {
    CStrIs(part, part);
    if Contains(part, "END\r\n") {
      ContainsPrefix(part, text, "END\r\n");
    }
  }

  /** The script begins with a delivery of this text; what it holds behind that does not matter. */
  predicate Fronts(script: seq<ReadEv>, text: string, timeout: int, start: int, remaining: int)
    decreases |script|
  {
    text == "" ||
    (script != [] &&
     var left := TimeRemaining(timeout, start, script[0].now);
     match script[0]
     case Arrives(data, now) =>
       data != "" && (text <= data || (data <= text && Fronts(script[1..], text[|data|..], timeout, start, left)))
     case ReadFails(e, poll, now) =>
       e in {4, 11} && poll == None && remaining > 0 && Fronts(script[1..], text, timeout, start, left))
  }

  /** With room for exactly this text, the call ends with it and without error if and only if it is delivered in front. */
  lemma {:induction false} ReadsTextExactly(timeout: int, start: int, st: ReadState, script: seq<ReadEv>, text: string, rest: string)
    requires Clean(text) && st.filled + rest == text && !st.done && st.status == Looping && (rest == "" ==> st.err == 0)
    ensures var r := ReadRun(|text|, timeout, start, st, script).0;
      (r.status == Looping && r.err == 0 && r.filled == text) <==> Fronts(script, rest, timeout, start, st.remaining)
    decreases |script|
  {
    hide Contains, CStr;
    if rest != "" && script != [] {
      var st' := ReadStep(|text|, timeout, start, st, script[0]);
      match script[0]
      case Arrives(data, now) =>
        var chunk := data[..Min(|data|, |rest|)];
        assert st'.filled == st.filled + chunk;
        SameText(st.filled, chunk, rest, text);
        if chunk == rest[..|chunk|] {
          var rest' := rest[|chunk|..];
          assert st'.filled + rest' == text;
          PartIsClean(st'.filled, text);
          if chunk != "" {
            ReadsTextExactly(timeout, start, st', script[1..], text, rest');
            assert rest' == "" <==> rest <= data;
          }
        }
      case ReadFails(e, poll, now) =>
        PartIsClean(st.filled, text);
        if st'.status == Looping {
          ReadsTextExactly(timeout, start, st', script[1..], text, rest);
        }
    }
  }

  lemma SameText(filled: string, chunk: string, rest: string, text: string)
    requires filled + rest == text && |chunk| <= |rest|
    ensures filled + chunk <= text ==> chunk == rest[..|chunk|]
  {
    if filled + chunk <= text {
      assert chunk == text[|filled|..|filled| + |chunk|];
    }
  }

  // ----- termination

  /** The clock never goes back, and a failed call together with its poll takes at least a millisecond. */
  predicate ClockRuns(script: seq<ReadEv>, since: int)
    decreases |script|
  {
    script == [] ||
    (script[0].now >= since + (if script[0].ReadFails? then 1 else 0) && ClockRuns(script[1..], script[0].now))
  }

  function Patience(len: nat, st: ReadState): nat
    requires |st.filled| <= len
  {
    len - |st.filled| + (if st.remaining > 0 then st.remaining else 0) + 1
  }

  /** Each turn uses up patience: a byte of room or a millisecond of the time limit. */
  lemma {:induction false} ReadTerminates(len: nat, timeout: int, start: int, st: ReadState, script: seq<ReadEv>, now: int)
    requires |st.filled| <= len && now >= start
    requires st.remaining == TimeRemaining(timeout, start, now)
    requires ClockRuns(script, now)
    ensures var (r, unused) := ReadRun(len, timeout, start, st, script);
      !WantsMore(len, r) || |script| < Patience(len, st)
    ensures |script| - |ReadRun(len, timeout, start, st, script).1| <= Patience(len, st)
    decreases |script|
  {
    hide Contains, CStr;
    if WantsMore(len, st) && script != [] {
      var st' := ReadStep(len, timeout, start, st, script[0]);
      if WantsMore(len, st') {
        ReadTerminates(len, timeout, start, st', script[1..], script[0].now);
      }
    }
  }

  /** sp_memcache_read turns at most len + timeout + 1 times. */
  lemma ReadIterationBound(len: nat, timeout: nat, start: int, script: seq<ReadEv>, done: bool)
    requires ClockRuns(script, start)
    ensures var (r, unused) := ReadRun(len, timeout, start, ReadStart(timeout, done), script);
      |script| - |unused| <= len + timeout + 1 && (|script| >= len + timeout + 1 ==> !WantsMore(len, r))
  {
    ReadTerminates(len, timeout, start, ReadStart(timeout, done), script, start);
  }
}
