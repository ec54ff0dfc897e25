/** Whose reply a visit reads. The server answers the commands of a connection in order, and the bytes of its
    answers arrive in order; a reply nobody reads stays in front of the next one. */
module Pipeline {
  import opened CStrings
  import opened StatsCache
  import opened StatsText
  import opened Wire
  import opened Session
  import opened Poller

  // ----- bytes in order

  /** The data read() hands out is the front of this stream, in any pieces, with any failures in between. */
  predicate Feeds(script: seq<ReadEv>, stream: string)
    decreases |script|
  {
    script == [] ||
    match script[0]
    case Arrives(data, now) => data != "" && data <= stream && Feeds(script[1..], stream[|data|..])
    case ReadFails(_, _, _) => Feeds(script[1..], stream)
  }

  /** A reader of whole replies stops behind the first one in the stream, if it does not bail or wait forever:
      what it has then begins with that reply, and is a part of the stream. */
  lemma {:induction false} ReadsFirst(len: nat, timeout: int, start: int, st: ReadState, script: seq<ReadEv>,
                                      first: string, more: string, rest: string)
    requires WholeReply(first) && NulFree(more) && |first + more| < len
    requires st.filled + rest == first + more && |st.filled| < |first| && !st.done && st.status == Looping
    requires Feeds(script, rest)
    ensures var r := ReadRun(len, timeout, start, st, script).0;
      WantsMore(len, r) || r.status == Bailed ||
      (r.status == Looping && r.done && r.err == 0 && first <= r.filled <= first + more)
    decreases |script|
  {
    hide Contains, WholeReply, CStr;
    var whole := first + more;
    PartOf(st.filled, rest, first, more);
    PartHasNoEnd(st.filled, first);
    if script != [] {
      var st' := ReadStep(len, timeout, start, st, script[0]);
      match script[0]
      case Arrives(data, now) =>
        assert st'.filled == st.filled + data;
        var rest' := rest[|data|..];
        assert st'.filled + rest' == whole;
        if |st'.filled| < |first| {
          PartOf(st'.filled, rest', first, more);
          PartHasNoEnd(st'.filled, first);
          ReadsFirst(len, timeout, start, st', script[1..], first, more, rest');
        } else {
          FirstSeen(st'.filled, rest', first, more);
        }
      case ReadFails(e, poll, now) =>
        if st'.status == Looping {
          ReadsFirst(len, timeout, start, st', script[1..], first, more, rest);
        }
    }
  }

  lemma PartOf(part: string, rest: string, first: string, more: string)
    requires part + rest == first + more && |part| < |first|
    ensures part <= first && part != first
  {
    assert part == (first + more)[..|part|] == first[..|part|];
  }

  /** Once the first reply is there, its END line shows. */
  lemma FirstSeen(part: string, rest: string, first: string, more: string)
    requires WholeReply(first) && NulFree(more)
    requires part + rest == first + more && |first| <= |part|
    ensures first <= part <= first + more
    ensures CStr(part) == part && Contains(part, END)
  {
    assert NulFree(first + more);
    hide Contains, WholeReply, CStr;
    assert part == (first + more)[..|part|];
    assert first == (first + more)[..|first|] == part[..|first|];
    CStrIs(part, part);
    PartHasNoEnd(first, first);
    ContainsPrefix(first, part, END);
  }

  /** The answer to the liveness command, eight bytes without an END line: a reader that is neither waiting nor
      closed has exactly those. */
  lemma {:induction false} ReadsExactly(timeout: int, start: int, st: ReadState, script: seq<ReadEv>,
                                        reply: string, rest: string)
    requires NulFree(reply) && !Contains(reply, END) && !Contains(reply, ERROR)
    requires st.filled + rest == reply && !st.done && st.status == Looping && (rest == "" ==> st.err == 0)
    requires Feeds(script, rest)
    ensures var r := ReadRun(|reply|, timeout, start, st, script).0;
      WantsMore(|reply|, r) || r.status == Bailed || (r.status == Looping && r.err == 0 && r.filled == reply)
    decreases |script|
  {
    hide Contains, CStr;
    if rest != "" && script != [] {
      var st' := ReadStep(|reply|, timeout, start, st, script[0]);
      match script[0]
      case Arrives(data, now) =>
        var rest' := rest[|data|..];
        assert st'.filled + rest' == reply && st'.filled == st.filled + data;
        PartIsClean(st'.filled, reply);
        ReadsExactly(timeout, start, st', script[1..], reply, rest');
      case ReadFails(e, poll, now) =>
        PartIsClean(st.filled, reply);
        if st'.status == Looping {
          ReadsExactly(timeout, start, st', script[1..], reply, rest);
        }
    }
  }

  // ----- one visit

  function Room(uri: string): nat {
    if uri == "health" then |LIVENESS_OK| else MAXSTATSZ
  }

  /** The bytes a visit reads, when it reads. */
  function Taken(plan: Plan, uri: string, ev: VisitEv): string {
    ReadRun(Room(uri), plan.readMs, ev.readStart, ReadStart(plan.readMs, false), ev.arrivals).0.filled
  }

  /** What is still to be read on the connection after a visit, when this was there before it. */
  function Unread(plan: Plan, uri: string, ev: VisitEv, late: string, reply: string): string {
    if Sent(plan, uri, ev).status != Returned then late
    else if Sent(plan, uri, ev).err != 0 then late + reply
    else (late + reply)[Min(|Taken(plan, uri, ev)|, |late + reply|)..]
  }

  /** The command went out whole, but the write reports an error: the socket stays open and nothing is read. */
  predicate LeavesReply(plan: Plan, uri: string, ev: VisitEv) {
    Sent(plan, uri, ev).status == Returned && Sent(plan, uri, ev).err != 0
  }

  /** A visit that finds nothing left over: the list of a stats uri becomes the stats of its own reply, or
      nothing, or it stays; and if the socket stays open then again nothing is left over, or exactly the reply
      that the visit left behind. */
  lemma InStepVisit(plan: Plan, uri: string, lastpoll: nat, ev: VisitEv, reply: string)
    requires ReplyTo(uri, reply) && Feeds(ev.arrivals, reply)
    ensures var e := UriEffect(uri, true, plan.writeMs, plan.readMs, lastpoll, ev);
      && (e.Installed? && uri != "health" ==> e.stats == if e.open then ParseStats(reply) else [])
      && (!e.Blocked? && e.open ==> Unread(plan, uri, ev, "", reply) == if LeavesReply(plan, uri, ev) then reply else "")
  {
    hide WriteRun, ReadRun, Feeds, ParseStats, StatsCommand, HealthStats, CStr;
    assert "" + reply == reply;
    WriteDelivers(|CommandOf(uri)|, plan.writeMs, ev.writeStart, WriteStart(|CommandOf(uri)|, plan.writeMs), ev.writes);
    if Sent(plan, uri, ev).status == Returned && Sent(plan, uri, ev).err == 0 {
      if uri == "health" {
        HealthReads(plan, ev);
      } else {
        StatReads(plan, ev, reply);
      }
    }
  }

  lemma HealthReads(plan: Plan, ev: VisitEv)
    requires Feeds(ev.arrivals, LIVENESS_OK)
    ensures var r := ReadRun(|LIVENESS_OK|, plan.readMs, ev.readStart, ReadStart(plan.readMs, false), ev.arrivals).0;
      WantsMore(|LIVENESS_OK|, r) || r.status == Bailed || r.filled == LIVENESS_OK
  {
    hide ReadRun, Feeds, Contains, CStr;
    StoredIsPlain();
    ReadsExactly(plan.readMs, ev.readStart, ReadStart(plan.readMs, false), ev.arrivals, LIVENESS_OK, LIVENESS_OK);
  }

  /** read_replies when its first buffer is the last. */
  lemma OneBuffer(timeout: int, start: int, script: seq<ReadEv>)
    ensures var r := ReadRun(MAXSTATSZ, timeout, start, ReadStart(timeout, false), script).0;
      var all := Replies(timeout, start, timeout, [], script);
      && (WantsMore(MAXSTATSZ, r) ==> !all.finished)
      && (r.status == Bailed && !WantsMore(MAXSTATSZ, r) ==> all.finished && all.bailed && all.stats == [])
      && (r.status == Looping && r.done && r.err == 0 ==> all == ReplyRun(ParseStats(CStr(r.filled)), 0, true, false))
  {
    hide ReadRun, ParseStats, Replies, CStr, Contains;
    var r := ReadRun(MAXSTATSZ, timeout, start, ReadStart(timeout, false), script).0;
    RepliesUnfold(timeout, start, timeout, [], script);
    assert [] + ParseStats(CStr(r.filled)) == ParseStats(CStr(r.filled));
  }

  /** What read_replies makes of a stream that begins with its own reply. */
  lemma StatReads(plan: Plan, ev: VisitEv, reply: string)
    requires WholeReply(reply) && |reply| < MAXSTATSZ && Feeds(ev.arrivals, reply)
    ensures var r := Replies(plan.readMs, ev.readStart, plan.readMs, [], ev.arrivals);
      && (r.finished ==> r.stats == if r.bailed then [] else ParseStats(reply))
      && (r.finished && !r.bailed ==>
            ReadRun(MAXSTATSZ, plan.readMs, ev.readStart, ReadStart(plan.readMs, false), ev.arrivals).0.filled == reply)
  {
    hide ReadRun, Feeds, ParseStats, WholeReply, Replies, CStr, Contains;
    var st := ReadStart(plan.readMs, false);
    WholeEnds(reply);
    assert "" + reply == reply + "" == reply;
    ReadsFirst(MAXSTATSZ, plan.readMs, ev.readStart, st, ev.arrivals, reply, "", reply);
    ReplyIsText(reply);
    OneBuffer(plan.readMs, ev.readStart, ev.arrivals);
    var r := ReadRun(MAXSTATSZ, plan.readMs, ev.readStart, st, ev.arrivals).0;
    assert reply <= r.filled <= reply ==> r.filled == reply;
  }

  // ----- a visit that finds an older reply

  lemma {:induction false} FieldsSplit(a: string, b: string, delims: string)
    requires a != "" && a[|a| - 1] in delims
    ensures Fields(a + b, delims) == Fields(a, delims) + Fields(b, delims)
    decreases |a|
  {
    var t := a + b;
    var n := SpanLength(a, delims);
    if n > 0 {
      SpanLengthIs(t, delims, n) by {
        assert t[..n] == a[..n];
      }
      assert t[..n] == a[..n] && t[n..] == a[n..] + b;
      FieldsSplit(a[n..], b, delims);
    } else {
      assert t[1..] == a[1..] + b;
      if |a| == 1 {
        assert a[1..] + b == b;
      } else {
        FieldsSplit(a[1..], b, delims);
      }
    }
  }

  lemma {:induction false} LinesJoin(a: seq<string>, b: seq<string>)
    ensures ParseLines(a + b) == ParseLines(a) + ParseLines(b)
  {
    hide ParseLine;
    if a == [] {
      assert a + b == b;
    } else {
      assert (a + b)[1..] == a[1..] + b;
      LinesJoin(a[1..], b);
    }
  }

  /** The older reply comes first: whatever else is read, the list begins with the stats of that one. */
  lemma OlderReplyFirst(plan: Plan, uri: string, lastpoll: nat, ev: VisitEv, older: string, more: string)
    requires uri != "health" && WholeReply(older) && NulFree(more) && |older + more| < MAXSTATSZ
    requires Feeds(ev.arrivals, older + more)
    requires var e := UriEffect(uri, true, plan.writeMs, plan.readMs, lastpoll, ev); e.Installed? && e.open
    ensures ParseStats(older) <= UriEffect(uri, true, plan.writeMs, plan.readMs, lastpoll, ev).stats
  {
    hide ReadRun, Feeds, ParseStats, WholeReply, WriteRun, StatsCommand, Replies, CStr, Contains;
    OneBuffer(plan.readMs, ev.readStart, ev.arrivals);
    OlderInBuffer(plan, ev, older, more);
  }

  lemma OlderInBuffer(plan: Plan, ev: VisitEv, older: string, more: string)
    requires WholeReply(older) && NulFree(more) && |older + more| < MAXSTATSZ
    requires Feeds(ev.arrivals, older + more)
    ensures var r := ReadRun(MAXSTATSZ, plan.readMs, ev.readStart, ReadStart(plan.readMs, false), ev.arrivals).0;
      WantsMore(MAXSTATSZ, r) || r.status == Bailed ||
      (r.status == Looping && r.done && r.err == 0 && ParseStats(older) <= ParseStats(CStr(r.filled)))
  {
    hide ReadRun, Feeds, ParseStats, WholeReply, CStr, Contains;
    var st := ReadStart(plan.readMs, false);
    var r := ReadRun(MAXSTATSZ, plan.readMs, ev.readStart, st, ev.arrivals).0;
    assert "" + (older + more) == older + more;
    WholeEnds(older);
    ReadsFirst(MAXSTATSZ, plan.readMs, ev.readStart, st, ev.arrivals, older, more, older + more);
    if !WantsMore(MAXSTATSZ, r) && r.status != Bailed {
      var extra := r.filled[|older|..];
      assert r.filled == older + extra;
      CStrOfPart(r.filled, older, more);
      StatsJoin(older, extra);
    }
  }

  lemma WholeEnds(reply: string)
    requires WholeReply(reply)
    ensures reply != "" && reply[|reply| - 1] == '\n' && NulFree(reply)
  {
    var i := |reply| - |END|;
    assert reply[i..i + |END|][4] == reply[|reply| - 1];
  }

  lemma CStrOfPart(part: string, a: string, b: string)
    requires NulFree(a) && NulFree(b) && part <= a + b
    ensures CStr(part) == part
  {
    CStrIs(part, part);
  }

  lemma StatsJoin(a: string, b: string)
    requires a != "" && a[|a| - 1] == '\n'
    ensures ParseStats(a + b) == ParseStats(a) + ParseStats(b)
  {
    hide Fields, ParseLines;
    FieldsSplit(a, b, "\r\n");
    LinesJoin(Fields(a, "\r\n"), Fields(b, "\r\n"));
  }

  // ----- whole runs

  /** What is left over on the open connection after a step of the walk; a new connection starts with nothing. */
  function LateAfter(plan: Plan, w: Walk, late: string, ev: VisitEv, reply: string): string
    requires Fits(plan, w)
  {
    if WalkStep(plan, w, ev).open then Unread(plan, plan.uris[w.next], ev, if w.open then late else "", reply) else ""
  }

  /** The server answers every command of the run, and its bytes arrive in order. */
  ghost predicate Served(plan: Plan, w: Walk, late: string, script: seq<VisitEv>, replies: seq<string>)
    requires Fits(plan, w) && |script| == |replies|
    decreases |script|
  {
    script == [] || w.blocked ||
    (&& ReplyTo(plan.uris[w.next], replies[0])
     && Feeds(script[0].arrivals, (if w.open then late else "") + replies[0])
     && Served(plan, WalkStep(plan, w, script[0]), LateAfter(plan, w, late, script[0], replies[0]), script[1..], replies[1..]))
  }

  /** At every moment of the run, nothing is left over on an open connection. */
  predicate InStep(plan: Plan, w: Walk, late: string, script: seq<VisitEv>, replies: seq<string>)
    requires Fits(plan, w) && |script| == |replies|
    decreases |script|
  {
    && (w.open && !w.blocked ==> late == "")
    && (script == [] || w.blocked ||
        InStep(plan, WalkStep(plan, w, script[0]), LateAfter(plan, w, late, script[0], replies[0]), script[1..], replies[1..]))
  }

  /** No visit leaves its reply behind on a connection that is used again. */
  predicate NoneLeft(plan: Plan, w: Walk, script: seq<VisitEv>)
    requires Fits(plan, w)
    decreases |script|
  {
    script == [] || w.blocked ||
    (var w' := WalkStep(plan, w, script[0]);
     (w'.open && !w'.blocked ==> !LeavesReply(plan, plan.uris[w.next], script[0])) && NoneLeft(plan, w', script[1..]))
  }

  /** Requests and replies stay in step throughout a run if and only if none of its writes, with the socket
      staying open for another visit, delivered the command and still returned an error. */
  lemma {:induction false} InStepExactly(plan: Plan, w: Walk, late: string, script: seq<VisitEv>, replies: seq<string>)
    requires Fits(plan, w) && |script| == |replies| && (w.open ==> late == "")
    requires Served(plan, w, late, script, replies)
    ensures InStep(plan, w, late, script, replies) <==> NoneLeft(plan, w, script)
    decreases |script|
  {
    hide ReplyTo, Feeds, LeavesReply, Unread, WalkStep, LateAfter;
    if script != [] && !w.blocked {
      var w' := WalkStep(plan, w, script[0]);
      var late' := LateAfter(plan, w, late, script[0], replies[0]);
      assert "" + replies[0] == replies[0];
      StepInStep(plan, w, late, script[0], replies[0]);
      if w'.open ==> late' == "" {
        InStepExactly(plan, w', late', script[1..], replies[1..]);
      }
    }
  }

  /** One step of a run that is in step. */
  lemma StepInStep(plan: Plan, w: Walk, late: string, ev: VisitEv, reply: string)
    requires Fits(plan, w) && !w.blocked && (w.open ==> late == "")
    requires ReplyTo(plan.uris[w.next], reply) && Feeds(ev.arrivals, reply)
    ensures var w' := WalkStep(plan, w, ev);
      w'.open && !w'.blocked ==>
        (LateAfter(plan, w, late, ev, reply) == "" <==> !LeavesReply(plan, plan.uris[w.next], ev))
    ensures var w' := WalkStep(plan, w, ev); var u := w.next;
      plan.uris[u] != "health" ==>
        w'.cache[u].list == w.cache[u].list || w'.cache[u].list == [] || w'.cache[u].list == ParseStats(reply)
    ensures var w' := WalkStep(plan, w, ev);
      forall j :: 0 <= j < |w.cache| && j != w.next ==> w'.cache[j] == w.cache[j]
  {
    hide UriEffect, Attempts, Connecting, ReplyTo, Feeds, LeavesReply, Unread, ParseStats;
    ReplyIsSome(plan.uris[w.next], reply);
    InStepVisit(plan, plan.uris[w.next], w.cache[w.next].lastpoll, ev, reply);
    ClosedEffect(plan, plan.uris[w.next], w.cache[w.next].lastpoll, ev);
  }

  lemma ReplyIsSome(uri: string, reply: string)
    requires ReplyTo(uri, reply)
    ensures reply != ""
  {
  }

  /** On a socket that could not be opened a stats visit changes nothing. */
  lemma ClosedEffect(plan: Plan, uri: string, lastpoll: nat, ev: VisitEv)
    ensures var e := UriEffect(uri, false, plan.writeMs, plan.readMs, lastpoll, ev);
      if uri == "health" then e.Installed? && !e.open else e == Kept(false)
  {
    hide WriteRun, HealthStats;
  }

  /** Some visit of uri j in the run was answered with these stats. */
  ghost predicate AnsweredWith(plan: Plan, w: Walk, script: seq<VisitEv>, replies: seq<string>, j: nat, list: seq<Stat>)
    requires Fits(plan, w) && |script| == |replies|
    decreases |script|
  {
    script != [] && !w.blocked &&
    ((w.next == j && list == ParseStats(replies[0])) ||
     AnsweredWith(plan, WalkStep(plan, w, script[0]), script[1..], replies[1..], j, list))
  }

  /** In a run that stays in step every list of a stats uri is the one it started with, or empty, or made of a
      reply to a command of that very uri. */
  lemma {:induction false} ListsAreOwn(plan: Plan, w: Walk, late: string, script: seq<VisitEv>, replies: seq<string>, j: nat)
    requires Fits(plan, w) && |script| == |replies| && j < |plan.uris| && plan.uris[j] != "health"
    requires Served(plan, w, late, script, replies)
    requires InStep(plan, w, late, script, replies)
    ensures var list := WalkRun(plan, w, script).cache[j].list;
      list == w.cache[j].list || list == [] || AnsweredWith(plan, w, script, replies, j, list)
    decreases |script|
  {
    hide ReplyTo, Feeds, LateAfter, WalkStep, ParseStats;
    if script != [] && !w.blocked {
      assert "" + replies[0] == replies[0];
      StepInStep(plan, w, late, script[0], replies[0]);
      ListsAreOwn(plan, WalkStep(plan, w, script[0]), LateAfter(plan, w, late, script[0], replies[0]),
                  script[1..], replies[1..], j);
    }
  }

  // ----- the failing input

  /** The kernel is full, then takes everything: the write delivers and returns EWOULDBLOCK. */
  const SLOW_WRITE := [WriteFails(EAGAIN, None, 0), Wrote(MAXSTATSZ, 0)]

  lemma SlowWriteLeaves(plan: Plan, uri: string, ev: VisitEv)
    requires plan.writeMs > 0 && ev.writes == SLOW_WRITE && ev.writeStart == 0
    ensures LeavesReply(plan, uri, ev)
  {
    var n := |CommandOf(uri)|;
    CommandFits(uri);
    var e1, e2 := SLOW_WRITE[0], SLOW_WRITE[1];
    assert SLOW_WRITE[1..] == [e2] && [e2][1..] == [];
    var st := WriteState(0, EAGAIN, plan.writeMs, Looping);
    assert WriteStep(n, plan.writeMs, 0, WriteStart(n, plan.writeMs), e1) == st;
    assert WriteStep(n, plan.writeMs, 0, st, e2) == WriteState(n, EAGAIN, plan.writeMs, Returned);
    assert WriteRun(n, plan.writeMs, 0, st, [e2]) == WriteState(n, EAGAIN, plan.writeMs, Returned);
  }

  lemma CommandFits(uri: string)
    ensures 0 < |CommandOf(uri)| < MAXSTATSZ
  {
  }

  /** After such a write the next uri's list becomes the stats of the reply to the uri before it. */
  lemma StaleList(plan: Plan, w: Walk, ev1: VisitEv, ev2: VisitEv, reply: string)
    requires Fits(plan, w) && w.open && !w.blocked && w.next + 1 < |plan.uris|
    requires plan.uris[w.next] != "health" && plan.uris[w.next + 1] != "health"
    requires plan.writeMs > 0 && ev1.writes == SLOW_WRITE && ev1.writeStart == 0
    requires Sent(plan, plan.uris[w.next + 1], ev2).status == Returned && Sent(plan, plan.uris[w.next + 1], ev2).err == 0
    requires WholeReply(reply) && |reply| < MAXSTATSZ && Delivers(ev2.arrivals, reply, plan.readMs, ev2.readStart, plan.readMs)
    ensures var w' := WalkRun(plan, w, [ev1, ev2]);
      Fits(plan, w') && w'.cache[w.next].list == w.cache[w.next].list && w'.cache[w.next + 1].list == ParseStats(reply)
  {
    hide WriteRun, Delivers, WholeReply, Replies, StatsCommand, ParseStats;
    SlowWriteLeaves(plan, plan.uris[w.next], ev1);
    PolledReply(plan.writeMs, plan.readMs, plan.uris[w.next + 1], ev2, reply);
    var w1 := WalkStep(plan, w, ev1);
    assert [ev1, ev2][1..] == [ev2] && [ev2][1..] == [];
    assert w1 == Advance(w, w.cache[w.next].list, ev1.time, true);
    var w2 := WalkStep(plan, w1, ev2);
    assert WalkRun(plan, w1, [ev2]) == w2;
  }
}
