/** What a visit leaves in the cache, told from what the kernel answers: every way a stats visit and a health
    visit can end. */
module Outcomes {
  import opened CStrings
  import opened Numerals
  import opened StatsCache
  import opened StatsText
  import opened Wire
  import opened Session
  import opened Poller
  import Pipeline

  // ----- the commands

  /** The command of a stats uri, cut off at 63 characters as snprintf does. */
  lemma StatsCommandText(uri: string)
    ensures |uri| <= 55 ==> StatsCommand(uri) == "stats " + uri + "\r\n"
    ensures |uri| > 55 ==> |StatsCommand(uri)| == 63 && StatsCommand(uri) <= "stats " + uri + "\r\n"
  {
  }

  /** The liveness command announces as many bytes as it sends. */
  lemma LivenessCommandText()
    ensures LIVENESS_CMD == "set __LIVENESS__ 0 0 " + Decimal(|"liveness chk"|) + "\r\n" + "liveness chk" + "\r\n"
    ensures CommandOf("health") == LIVENESS_CMD
  {
    assert |"liveness chk"| == 12;
    DecimalDigits(1, 2);
    DecimalDigits(0, 1);
    assert Decimal(12) == "1" + "2";
  }

  // ----- a stats visit

  /** The list is left alone if and only if the socket is closed or a call of the write failed; otherwise a visit
      that comes to an end replaces it. */
  lemma KeptExactly(writeMs: int, readMs: int, uri: string, ev: VisitEv, open: bool)
    requires StatEffect(open, writeMs, readMs, uri, ev) != Blocked
    ensures StatEffect(open, writeMs, readMs, uri, ev).Kept? <==>
            !open || RunFails(|StatsCommand(uri)|, writeMs, ev.writeStart, WriteStart(|StatsCommand(uri)|, writeMs), ev.writes)
  {
    hide WriteRun, RunFails, Replies, StatsCommand;
    var n := |StatsCommand(uri)|;
    WriteErrSticks(n, writeMs, ev.writeStart, WriteStart(n, writeMs), ev.writes);
  }

  /** The command is out, and no call of the write failed. */
  predicate CleanlySent(writeMs: int, uri: string, ev: VisitEv) {
    var n := |StatsCommand(uri)|;
    && Accepts(ev.writes, n, writeMs, ev.writeStart, writeMs)
    && !RunFails(n, writeMs, ev.writeStart, WriteStart(n, writeMs), ev.writes)
  }

  lemma SentMeans(writeMs: int, uri: string, ev: VisitEv)
    requires CleanlySent(writeMs, uri, ev)
    ensures var n := |StatsCommand(uri)|;
      var w := WriteRun(n, writeMs, ev.writeStart, WriteStart(n, writeMs), ev.writes);
      w.status == Returned && w.err == 0
  {
    hide WriteRun, RunFails, Accepts, StatsCommand;
    var n := |StatsCommand(uri)|;
    WriteErrSticks(n, writeMs, ev.writeStart, WriteStart(n, writeMs), ev.writes);
    WriteReturnsExactly(n, writeMs, ev.writeStart, WriteStart(n, writeMs), ev.writes);
  }

  lemma EffectOfBuffer(writeMs: int, readMs: int, uri: string, ev: VisitEv)
    requires CleanlySent(writeMs, uri, ev)
    ensures var r := ReadRun(32768, readMs, ev.readStart, ReadStart(readMs, false), ev.arrivals).0;
      var e := StatEffect(true, writeMs, readMs, uri, ev);
      && (r.status == Bailed ==> e == Installed([], false))
      && (r.status == Looping && r.done && r.err == 0 ==> e == Installed(ParseStats(CStr(r.filled)), true))
  {
    hide WriteRun, ReadRun, Replies, CleanlySent, StatsCommand, ParseStats, CStr;
    SentMeans(writeMs, uri, ev);
    Pipeline.OneBuffer(readMs, ev.readStart, ev.arrivals);
  }

  /** A write that runs out of time without a failing call closes the socket, and the list is emptied. */
  lemma LateWriteEmpties(writeMs: int, readMs: int, uri: string, ev: VisitEv, k: nat, now: int, more: seq<WriteEv>)
    requires ev.writes == [Wrote(k, now)] + more && k < |StatsCommand(uri)|
    requires now - ev.writeStart > writeMs && now >= ev.writeStart
    ensures StatEffect(true, writeMs, readMs, uri, ev) == Installed([], false)
  {
    hide StatsCommand;
    var n := |StatsCommand(uri)|;
    var st := WriteStep(n, writeMs, ev.writeStart, WriteStart(n, writeMs), ev.writes[0]);
    assert WriteRun(n, writeMs, ev.writeStart, st, ev.writes[1..]) == st;
  }

  /** A write that fails for good closes the socket, and the list stays as it was. */
  lemma FailedWriteKeeps(writeMs: int, readMs: int, uri: string, ev: VisitEv, e: Errno, poll: Option<Errno>, now: int, more: seq<WriteEv>)
    requires ev.writes == [WriteFails(e, poll, now)] + more && (e != 11 || writeMs <= 0 || poll.Some?)
    ensures StatEffect(true, writeMs, readMs, uri, ev) == Kept(false)
  {
    hide StatsCommand;
    var n := |StatsCommand(uri)|;
    var st := WriteStep(n, writeMs, ev.writeStart, WriteStart(n, writeMs), ev.writes[0]);
    assert WriteRun(n, writeMs, ev.writeStart, st, ev.writes[1..]) == st;
  }

  /** After the command is out: a read that breaks off, at the start or in the middle of the reply, by an errno, a
      time limit or a failing poll, empties the list. */
  lemma BrokenReadEmpties(writeMs: int, readMs: int, uri: string, ev: VisitEv, d: seq<ReadEv>, part: string,
                          e: Errno, poll: Option<Errno>, now: int, more: seq<ReadEv>)
    requires CleanlySent(writeMs, uri, ev) && ev.arrivals == d + ([ReadFails(e, poll, now)] + more)
    requires Clean(part) && |part| < 32768 && Delivers(d, part, readMs, ev.readStart, readMs)
    requires e !in {4, 11} || LeftAfter(d, readMs, ev.readStart, readMs) <= 0 || poll.Some?
    ensures StatEffect(true, writeMs, readMs, uri, ev) == Installed([], false)
  {
    hide CleanlySent, StatEffect, ReadRun, Clean, Delivers;
    ReadBreaksOff(32768, readMs, ev.readStart, d, part, e, poll, now, more);
    EffectOfBuffer(writeMs, readMs, uri, ev);
  }

  /** A server that answers with an error has its list emptied, whatever else it says. */
  lemma ErrorEmpties(writeMs: int, readMs: int, uri: string, ev: VisitEv, d: seq<ReadEv>, text: string, more: seq<ReadEv>)
    requires CleanlySent(writeMs, uri, ev) && ev.arrivals == d + more
    requires NulFree(text) && !Contains(text, "END\r\n") && Contains(text, "ERROR") && |text| <= 32768
    requires Delivers(d, text, readMs, ev.readStart, readMs)
    ensures StatEffect(true, writeMs, readMs, uri, ev) == Installed([], false)
  {
    hide CleanlySent, StatEffect, ReadRun, Delivers, Contains;
    assert "" + text == text && !Contains("", "ERROR") by { NoErrorInNothing(); }
    ReadEndsOnError(32768, readMs, ev.readStart, ReadStart(readMs, false), d, more, text, text);
    EffectOfBuffer(writeMs, readMs, uri, ev);
  }

  lemma NoErrorInNothing()
    ensures !Contains("", "ERROR")
  {
  }

  /** A server that closes the connection in the middle of a reply has the stats so far installed. */
  lemma EndOfFileInstalls(writeMs: int, readMs: int, uri: string, ev: VisitEv, d: seq<ReadEv>, part: string, now: int, more: seq<ReadEv>)
    requires CleanlySent(writeMs, uri, ev) && ev.arrivals == d + ([Arrives("", now)] + more)
    requires Clean(part) && |part| < 32768 && Delivers(d, part, readMs, ev.readStart, readMs)
    ensures StatEffect(true, writeMs, readMs, uri, ev) == Installed(ParseStats(part), true)
  {
    hide CleanlySent, StatEffect, ReadRun, Delivers, ParseStats;
    ReadEndsAtEof(32768, readMs, ev.readStart, d, part, now, more);
    CStrIs(part, part);
    EffectOfBuffer(writeMs, readMs, uri, ev);
  }

  /** A reply longer than the buffer: its stats are those of one buffer after another; but a first buffer without
      any ends the visit. */
  lemma LongReply(timeout: int, start: int, d1: seq<ReadEv>, d2: seq<ReadEv>, a: string, b: string)
    requires Clean(a) && |a| == 32768 && WholeReply(b) && |b| < 32768
    requires Delivers(d1, a, timeout, start, timeout) && Delivers(d2, b, timeout, start, LeftAfter(d1, timeout, start, timeout))
    ensures Replies(timeout, start, timeout, [], d1 + d2) ==
            ReplyRun(if ParseStats(a) == [] then [] else ParseStats(a) + ParseStats(b), 0, true, false)
  {
    hide Clean, WholeReply, Delivers, ReadRun, Replies, ParseStats, CStr;
    var left := LeftAfter(d1, timeout, start, timeout);
    assert "" + a == a && [] + ParseStats(a) == ParseStats(a);
    BufferFilled(timeout, start, ReadStart(timeout, false), d1, d2, a, a) by { assert a != ""; }
    RepliesUnfold(timeout, start, timeout, [], d1 + d2);
    CleanReads(a);
    FragmentationRun(32768, timeout, start, ReadStart(left, false), d2, b, b) by { WholeIsSome(b); assert "" + b == b; }
    RepliesUnfold(timeout, start, left, ParseStats(a), d2);
    ReplyIsText(b);
  }

  lemma CleanReads(text: string)
    requires Clean(text)
    ensures CStr(text) == text
  {
    CStrIs(text, text);
  }

  // ----- a health visit

  /** The server takes the whole command without a failing call and its answer begins with STORED, in time. */
  predicate AnswersStored(writeMs: int, readMs: int, ev: VisitEv) {
    var n := |LIVENESS_CMD|;
    && Accepts(ev.writes, n, writeMs, ev.writeStart, writeMs)
    && !RunFails(n, writeMs, ev.writeStart, WriteStart(n, writeMs), ev.writes)
    && Fronts(ev.arrivals, "STORED\r\n", readMs, ev.readStart, readMs)
  }

  lemma AliveExactly(open: bool, writeMs: int, readMs: int, ev: VisitEv)
    ensures Check(open, writeMs, readMs, ev).alive <==> open && AnswersStored(writeMs, readMs, ev)
  {
    hide WriteRun, ReadRun, RunFails, Accepts, Fronts, Contains, CStr;
    var n := |LIVENESS_CMD|;
    WriteErrSticks(n, writeMs, ev.writeStart, WriteStart(n, writeMs), ev.writes);
    WriteReturnsExactly(n, writeMs, ev.writeStart, WriteStart(n, writeMs), ev.writes);
    WriteDelivers(n, writeMs, ev.writeStart, WriteStart(n, writeMs), ev.writes);
    ReadsStored(readMs, ev);
  }

  lemma ReadsStored(readMs: int, ev: VisitEv)
    ensures var r := ReadRun(|LIVENESS_OK|, readMs, ev.readStart, ReadStart(readMs, false), ev.arrivals).0;
      !WantsMore(|LIVENESS_OK|, r) && r.err == 0 && CStr(r.filled) == LIVENESS_OK <==>
      Fronts(ev.arrivals, "STORED\r\n", readMs, ev.readStart, readMs)
  {
    hide ReadRun, Fronts, Contains, CStr;
    var st := ReadStart(readMs, false);
    StoredIsPlain();
    NoEndInNothing();
    ReadsTextExactly(readMs, ev.readStart, st, ev.arrivals, LIVENESS_OK, LIVENESS_OK);
    ReadErrIsBail(|LIVENESS_OK|, readMs, ev.readStart, st, ev.arrivals);
    AllOfIt(ReadRun(|LIVENESS_OK|, readMs, ev.readStart, st, ev.arrivals).0.filled);
  }

  /** Eight bytes that read as STORED are STORED. */
  lemma AllOfIt(filled: string)
    requires |filled| <= 8
    ensures CStr(filled) == "STORED\r\n" <==> filled == "STORED\r\n"
  {
    hide CStr;
    StoredIsPlain();
    if CStr(filled) == "STORED\r\n" {
      assert |CStr(filled)| == 8;
    }
  }

  /** The four stats of the health uri, with their names and values: the seconds since the last poll, as an
      unsigned 64-bit difference, or 0 before the first; the time; one or zero; and the milliseconds the exchange
      took, or 0 when the command failed. */
  lemma HealthReported(open: bool, writeMs: int, readMs: int, lastpoll: nat, ev: VisitEv)
    requires HealthEffect(open, writeMs, readMs, lastpoll, ev) != Blocked && lastpoll < 0x1_0000_0000_0000_0000
    requires ev.now < 0x1_0000_0000_0000_0000
    ensures var age := if lastpoll == 0 then 0 else if ev.now >= lastpoll then ev.now - lastpoll
                       else 0x1_0000_0000_0000_0000 - (lastpoll - ev.now);
      var alive := open && AnswersStored(writeMs, readMs, ev);
      var failed := !open ||
        RunFails(|LIVENESS_CMD|, writeMs, ev.writeStart, WriteStart(|LIVENESS_CMD|, writeMs), ev.writes);
      var millis := if failed || ev.answered <= ev.asked then 0 else ev.answered - ev.asked;
      var e := HealthEffect(open, writeMs, readMs, lastpoll, ev);
      e.Installed? &&
      e.stats == [Stat("statsAge", UINT64(age)), Stat("lastpoll", ALPHA(ev.timeText)),
                  Stat("liveness", UINT64(if alive then 1 else 0)), Stat("respTimeMs", UINT64(millis))]
  {
    hide WriteRun, ReadRun, RunFails, AnswersStored, CStr;
    AliveExactly(open, writeMs, readMs, ev);
    var n := |LIVENESS_CMD|;
    WriteErrSticks(n, writeMs, ev.writeStart, WriteStart(n, writeMs), ev.writes);
  }

  // ----- the walk

  /** Every visit that comes to an end dates its own entry, touches no other and hands on to the next uri, also
      when its list was left alone. */
  lemma VisitDates(plan: Plan, w: Walk, ev: VisitEv)
    requires Fits(plan, w) && !w.blocked && !WalkStep(plan, w, ev).blocked
    requires w.open || Attempts(ev.connects, 0).0 == 0
    ensures var w' := WalkStep(plan, w, ev);
      && w'.cache[w.next].lastpoll == ev.time
      && (forall j :: 0 <= j < |w.cache| && j != w.next ==> w'.cache[j] == w.cache[j])
      && w'.next == (w.next + 1) % |plan.uris| && (w'.next == 0 ==> !w'.open)
  {
    hide UriEffect, Attempts, Connecting;
  }
}
