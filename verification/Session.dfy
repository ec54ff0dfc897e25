/** One backend's socket: connect, write, read, disconnect, and the record of descriptors opened and closed. */
module Session {
  import opened CStrings
  import opened Tailq
  import opened StatsCache
  import opened StatsText
  import opened StatsParser
  import opened Wire

  // ----- the ledger of descriptors

  datatype SockEvent = Opened(fd: nat) | Closed(fd: nat)

  datatype Ledger = Nothing | Holding(fd: nat) | Broken

  /** Opening while one is open, or closing one that is not, breaks the ledger for good. */
  function Replay(log: seq<SockEvent>): Ledger {
    if log == [] then Nothing
    else
      match (Replay(log[..|log| - 1]), log[|log| - 1])
      case (Nothing, Opened(fd)) => Holding(fd)
      case (Holding(fd), Closed(fd')) => if fd == fd' then Nothing else Broken
      case _ => Broken
  }

  /** fd is -1 and nothing is open, or it is the one open socket. */
  predicate Owns(fd: int, log: seq<SockEvent>) {
    if fd == -1 then Replay(log) == Nothing else fd >= 0 && Replay(log) == Holding(fd)
  }

  /** What an unbroken ledger means: every open is followed by the close of the same socket before
      anything else, every close belongs to the open just before it, and so at every earlier moment too. */
  lemma {:induction false} LedgerAlternates(log: seq<SockEvent>, i: nat)
    requires Replay(log) != Broken && i < |log|
    ensures log[i].Opened? && i + 1 < |log| ==> log[i + 1] == Closed(log[i].fd)
    ensures log[i].Closed? ==> i > 0 && log[i - 1] == Opened(log[i].fd)
    ensures Replay(log[..i]) != Broken
    decreases |log|
  {
    var init, last := log[..|log| - 1], log[|log| - 1];
    LastEvent(log);
    if |init| > 0 {
      LastEvent(init);
    }
    if i < |init| {
      LedgerAlternates(init, i);
      assert init[..i] == log[..i];
    }
  }

  lemma LastEvent(log: seq<SockEvent>)
    requires Replay(log) != Broken && log != []
    ensures var init, last := log[..|log| - 1], log[|log| - 1];
      Replay(init) != Broken &&
      (last.Opened? ==> Replay(init) == Nothing && Replay(log) == Holding(last.fd)) &&
      (last.Closed? ==> Replay(init) == Holding(last.fd) && Replay(log) == Nothing)
  {
  }

  lemma Append(log: seq<SockEvent>, e: SockEvent)
    ensures Replay(log) == Nothing && e.Opened? ==> Replay(log + [e]) == Holding(e.fd)
    ensures e.Closed? && Replay(log) == Holding(e.fd) ==> Replay(log + [e]) == Nothing
  {
    assert (log + [e])[..|log|] == log;
  }

  // ----- connecting

  /** The answers to one connection attempt; connect, getsockopt and SO_ERROR answer errnos, 0 is success. */
  datatype ConnectEv = ConnectEv(sock: Option<nat>, fcntlFails: bool, connect: nat, pollTimesOut: bool,
                                 getsockopt: nat, soError: nat)

  /** The return code and whether a connected socket is left open. */
  function Connecting(ev: ConnectEv): (int, bool) {
    if ev.sock.None? || ev.fcntlFails then (0, false)
    else if ev.connect != 0 && ev.connect != EINPROGRESS then (ev.connect, false)
    else if ev.connect == EINPROGRESS && ev.pollTimesOut then (EINPROGRESS, false)
    else if ev.getsockopt != 0 then (ev.getsockopt, false)
    else if ev.soError != 0 then (ev.soError, false)
    else (0, true)
  }

  /** An attempt leaves a connected socket if and only if every call it needs succeeds; it reports the first
      error, but a socket or a mode that cannot be had is reported as 0. */
  lemma ConnectedExactly(ev: ConnectEv)
    ensures Connecting(ev).1 <==>
      ev.sock.Some? && !ev.fcntlFails && (ev.connect == 0 || (ev.connect == 115 && !ev.pollTimesOut)) &&
      ev.getsockopt == 0 && ev.soError == 0
    ensures Connecting(ev).0 == 0 <==> Connecting(ev).1 || ev.sock.None? || ev.fcntlFails
    ensures ev.sock.Some? && !ev.fcntlFails ==>
      (ev.connect !in {0, 115} ==> Connecting(ev).0 == ev.connect) &&
      (ev.connect == 115 && ev.pollTimesOut ==> Connecting(ev).0 == 115) &&
      (ev.connect == 0 && ev.getsockopt != 0 ==> Connecting(ev).0 == ev.getsockopt) &&
      (ev.connect == 0 && ev.getsockopt == 0 ==> Connecting(ev).0 == ev.soError)
  {
  }

  /** The descriptors one attempt opens and closes. */
  function Trace(ev: ConnectEv): seq<SockEvent> {
    match ev.sock
    case None => []
    case Some(s) => if Connecting(ev).1 then [Opened(s)] else [Opened(s), Closed(s)]
  }

  const RETRIES := 5

  /** How the six attempts of checkAndConnect end, from attempt i on: the code and the attempts made. */
  function Attempts(oracle: nat -> ConnectEv, i: nat): (r: (int, nat))
    requires i <= RETRIES + 1
    ensures i <= RETRIES ==> i < r.1 <= RETRIES + 1
    decreases RETRIES + 1 - i
  {
    if i > RETRIES then (0, i)
    else
      var err := Connecting(oracle(i)).0;
      if err == 0 || i == RETRIES then (err, i + 1) else Attempts(oracle, i + 1)
  }

  /** The attempts end with the first that reports 0, or with the sixth. */
  lemma {:induction false} AttemptsExactly(oracle: nat -> ConnectEv, i: nat, n: nat)
    requires i < n <= 6
    requires forall k :: i <= k < n - 1 ==> Connecting(oracle(k)).0 != 0
    requires Connecting(oracle(n - 1)).0 == 0 || n == 6
    ensures Attempts(oracle, i) == (Connecting(oracle(n - 1)).0, n)
    decreases n - i
  {
    if i < n - 1 {
      AttemptsExactly(oracle, i + 1, n);
    }
  }

  /** struct sp_memcache_socket_state */
  class SocketState {
    const start: int
    const timeout: int
    var bytesRcvd: nat
    var remaining: int

    constructor (start: int, timeout: int)
      ensures this.start == start && this.timeout == remaining == timeout && bytesRcvd == 0
    {
      this.start, this.timeout, remaining, bytesRcvd := start, timeout, timeout, 0;
    }
  }

  predicate Zeroed(b: string, i: nat) {
    i <= |b| && forall k :: i <= k < |b| ==> b[k] == '\0'
  }

  /** The stats a reply has added so far, the code, whether the call is over, and whether it closed the socket. */
  datatype ReplyRun = ReplyRun(stats: seq<Stat>, err: int, finished: bool, bailed: bool)

  function Replies(timeout: int, start: int, remaining: int, added: seq<Stat>, script: seq<ReadEv>): ReplyRun
    decreases |script|
  {
    var (r, rest) := ReadRun(MAXSTATSZ, timeout, start, ReadStart(remaining, false), script);
    if WantsMore(MAXSTATSZ, r) then ReplyRun(added, 0, false, false)
    else if r.status == Bailed then ReplyRun(added, if r.err == ECANCELED then 0 else r.err, true, true)
    else
      var added' := added + ParseStats(CStr(r.filled));
      if r.done || added' == [] then ReplyRun(added', 0, true, false)
      else Replies(timeout, start, r.remaining, added', rest)
  }

  /** However a whole reply is cut up and delayed, its stats come out, and the socket stays open. */
  lemma ReplyComesThrough(timeout: int, start: int, script: seq<ReadEv>, reply: string)
    requires WholeReply(reply) && |reply| < MAXSTATSZ && Delivers(script, reply, timeout, start, timeout)
    ensures Replies(timeout, start, timeout, [], script) == ReplyRun(ParseStats(reply), 0, true, false)
  {
    hide ParseStats, WholeReply, Delivers, ReadRun;
    FragmentationIndependence(MAXSTATSZ, timeout, start, script, reply);
    var (r, rest) := ReadRun(MAXSTATSZ, timeout, start, ReadStart(timeout, false), script);
    assert r.filled == reply && r.done && r.status == Looping;
    ReplyIsText(reply);
    assert [] + ParseStats(reply) == ParseStats(reply);
  }

  lemma ReplyIsText(reply: string)
    requires WholeReply(reply)
    ensures CStr(reply) == reply
  {
    CStrIs(reply, reply);
  }

  class Backend {
    var fd: int
    var lastError: int
    const connectMs: int
    const readMs: int
    const writeMs: int
    ghost var log: seq<SockEvent>
    ghost var wire: string // every byte the kernel has accepted from this backend

    constructor (connectMs: int, readMs: int, writeMs: int)
      ensures fd == -1 && Balanced() && log == [] && wire == ""
    {
      fd, lastError := -1, 0;
      this.connectMs, this.readMs, this.writeMs := connectMs, readMs, writeMs;
      log, wire := [], "";
    }

    ghost predicate Balanced()
      reads this`fd, this`log
    {
      Owns(fd, log)
    }

    /** The bail path of every call, and sp_memcache_disconnect. */
    method Close()
      requires Balanced()
      modifies this`fd, this`log
      ensures Balanced() && fd == -1
      ensures log == if old(fd) == -1 then old(log) else old(log) + [Closed(old(fd))]
    {
      if fd >= 0 {
        Append(log, Closed(fd));
        log := log + [Closed(fd)];
        fd := -1;
      }
    }

    /** sp_memcache_connect; its assertion is the first precondition. */
    method Connect(ev: ConnectEv) returns (err: int)
      requires fd == -1 && Balanced()
      modifies this`fd, this`log, this`lastError
      ensures Balanced()
      ensures err == Connecting(ev).0 && fd == if Connecting(ev).1 then ev.sock.value else -1
      ensures log == old(log) + Trace(ev)
      ensures lastError == if Connecting(ev).1 then old(lastError) else err
    {
      err := 0;
      if ev.sock.None? {
        lastError := err;
        return;
      }
      fd := ev.sock.value;
      Append(log, Opened(fd));
      log := log + [Opened(fd)];
      if !ev.fcntlFails {
        var connecting := true;
        if ev.connect != 0 {
          err := ev.connect;
          connecting := ev.connect == EINPROGRESS && !ev.pollTimesOut;
        }
        if connecting {
          err := ev.getsockopt;
          if err == 0 && ev.soError != 0 {
            err := ev.soError;
          }
          if err == 0 {
            return;
          }
        }
      }
      Close();
      lastError := err;
    }

    /** checkAndConnect: a nonzero result means six failed attempts and no open socket. */
    method CheckAndConnect(oracle: nat -> ConnectEv) returns (err: int, ghost attempts: nat)
      requires Balanced()
      modifies this`fd, this`log, this`lastError
      ensures Balanced() && old(log) <= log
      ensures old(fd) >= 0 ==> err == 0 && attempts == 0 && fd == old(fd) && log == old(log)
      ensures old(fd) == -1 ==> (err, attempts) == Attempts(oracle, 0) && attempts >= 1
      ensures old(fd) == -1 ==> var last := oracle(attempts - 1);
        (fd >= 0 <==> Connecting(last).1) && fd == if Connecting(last).1 then last.sock.value else -1
      ensures err != 0 ==> fd == -1 && attempts == RETRIES + 1
    {
      err, attempts := 0, 0;
      var i := 0;
      while i <= RETRIES
        invariant i <= RETRIES + 1 && Balanced() && old(log) <= log
        invariant old(fd) >= 0 ==> err == 0 && attempts == 0 && fd == old(fd) && log == old(log)
        invariant old(fd) == -1 ==> fd == -1 && attempts == i && (i > 0 ==> err != 0)
        invariant old(fd) == -1 && i <= RETRIES ==> Attempts(oracle, i) == Attempts(oracle, 0)
        invariant old(fd) == -1 && i > RETRIES ==> Attempts(oracle, 0) == (err, i) && !Connecting(oracle(i - 1)).1
        invariant err != 0 ==> old(fd) == -1
      {
        if fd < 0 {
          attempts := attempts + 1;
          err := Connect(oracle(i));
          if err == 0 {
            break;
          }
        }
        i := i + 1;
      }
    }

    /** sp_memcache_write. The return code is not the contract: the descriptor and the bytes are. */
    method Write(cmd: string, start: int, script: seq<WriteEv>) returns (err: int, finished: bool)
      requires Balanced()
      modifies this`fd, this`log, this`lastError, this`wire
      ensures Balanced() && old(log) <= log
      ensures old(fd) == -1 ==> finished && fd == -1 && wire == old(wire)
      ensures old(fd) == -1 ==> err == (if cmd == "" then 0 else EBADF) && lastError == (if cmd == "" then old(lastError) else err)
      ensures old(fd) >= 0 ==>
        var r := WriteRun(|cmd|, writeMs, start, WriteStart(|cmd|, writeMs), script);
        && r.sent <= |cmd| && wire == old(wire) + cmd[..r.sent]
        && finished == (r.status != Looping) && (finished ==> err == r.err)
        && fd == (if r.status == Bailed then -1 else old(fd))
        && lastError == (if r.status == Bailed then r.err else old(lastError))
        && (finished ==> (fd >= 0 <==> r.sent == |cmd|))
    {
      hide WriteRun, Replay;
      err, finished := 0, true;
      if fd < 0 { // every call on it answers EBADF
        if cmd != "" {
          err := EBADF;
          lastError := err;
        }
        return;
      }
      ghost var st0 := WriteStart(|cmd|, writeMs);
      WriteDelivers(|cmd|, writeMs, start, st0, script);
      var i, num, remaining, k := |cmd|, 0, writeMs, 0;
      var rest := cmd;
      var bail := false;
      assert script[0..] == script;
      while i > 0 && !bail && k < |script|
        invariant Balanced() && fd == old(fd) && log == old(log) && lastError == old(lastError) && k <= |script|
        invariant 0 <= num <= |rest| <= |cmd| && i == |rest| - num && rest == cmd[|cmd| - |rest|..]
        invariant wire == old(wire) + cmd[..|cmd| - i] && err >= 0
        invariant var st := WriteState(|cmd| - i, err, remaining, if bail then Bailed else if i == 0 then Returned else Looping);
          WriteRun(|cmd|, writeMs, start, st, script[k..]) == WriteRun(|cmd|, writeMs, start, st0, script)
        decreases |script| - k
      {
        ghost var st := WriteState(|cmd| - i, err, remaining, Looping);
        WriteUnfolds(|cmd|, writeMs, start, st, script, k);
        rest := rest[num..];
        match script[k] {
        case Wrote(m, now) =>
          num := Min(m, |rest|);
          PrefixGrows(cmd, |cmd| - i, num);
          wire := wire + rest[..num];
          remaining := TimeRemaining(writeMs, start, now);
          bail := i - num > 0 && remaining < 0;
        case WriteFails(e, poll, now) =>
          num, err := 0, e;
          if e == EAGAIN && remaining > 0 {
            if poll.Some? {
              err, bail := poll.value, true;
            } else {
              remaining := TimeRemaining(writeMs, start, now);
              bail := remaining < 0;
            }
          } else {
            bail := true;
          }
        }
        i := i - num;
        k := k + 1;
      }
      WriteStops(|cmd|, writeMs, start, script, k);
      if bail {
        Close();
        lastError := err;
      } else {
        finished := i == 0;
      }
    }

    /** sp_memcache_read into a zeroed buffer: what has arrived stands at its front, zeros behind. */
    method Read(data: array<char>, len: nat, sk: SocketState, done: bool, script: seq<ReadEv>)
      returns (err: int, done': bool, rest: seq<ReadEv>, finished: bool)
      requires Balanced() && len <= data.Length && Zeroed(data[..], 0)
      modifies this`fd, this`log, this`lastError, data, sk
      ensures Balanced() && old(log) <= log
      ensures old(fd) == -1 ==> fd == -1 && finished && rest == script && data[..] == old(data[..]) && done' == done &&
                                sk.remaining == old(sk.remaining) && err == if len > 0 && !done then EBADF else 0
      ensures old(fd) >= 0 ==>
        var (r, unused) := ReadRun(len, sk.timeout, sk.start, ReadStart(old(sk.remaining), done), script);
        && rest == unused && finished == !WantsMore(len, r)
        && Zeroed(data[..], |r.filled|) && data[..|r.filled|] == r.filled
        && sk.remaining == r.remaining
        && fd == (if r.status == Bailed then -1 else old(fd))
        && lastError == (if r.status == Bailed then r.err else old(lastError))
        && (finished ==> err == r.err && (r.status != Bailed ==> done' == r.done && sk.bytesRcvd == |r.filled|))
    {
      hide ReadRun, Contains, Replay;
      err, done', rest, finished := 0, done, script, true;
      var i := 0;
      if fd < 0 && i < len && !done' { // every call on it answers EBADF
        err := EBADF;
        lastError := err;
        return;
      }
      ghost var st0 := ReadStart(sk.remaining, done);
      ghost var filled := "";
      var bail := false;
      assert data[..0] == "";
      while i < len && !done' && !bail && rest != []
        invariant Balanced() && fd == old(fd) && log == old(log) && lastError == old(lastError)
        invariant |filled| == i <= len && data[..i] == filled && Zeroed(data[..], i)
        invariant fd < 0 ==> done' == done && rest == script && i == 0 && sk.remaining == old(sk.remaining) &&
                             data[..] == old(data[..]) && err == 0 && !bail
        invariant var st := ReadState(filled, err, sk.remaining, done', if bail then Bailed else Looping);
          ReadRun(len, sk.timeout, sk.start, st, rest) == ReadRun(len, sk.timeout, sk.start, st0, script)
        decreases |rest|
      {
        ghost var st := ReadState(filled, err, sk.remaining, done', Looping);
        ReadUnfolds(len, sk.timeout, sk.start, st, rest);
        var num := -1;
        match rest[0] {
        case Arrives(chunk, now) =>
          num := Min(|chunk|, len - i);
          err := 0;
          Fill(data, i, chunk[..num]);
          filled := filled + chunk[..num];
          i := i + num;
          sk.remaining := TimeRemaining(sk.timeout, sk.start, now);
        case ReadFails(e, poll, now) =>
          err := e;
          if (e == EINTR || e == EAGAIN) && sk.remaining > 0 {
            if poll.Some? {
              err, bail := poll.value, true;
            } else {
              sk.remaining := TimeRemaining(sk.timeout, sk.start, now);
            }
          } else {
            bail := true;
          }
        }
        if !bail {
          TextIsFilled(data[..], filled);
          if num == 0 || Contains(CStr(data[..]), END) {
            done' := true;
          }
          if Contains(CStr(data[..]), ERROR) {
            err, bail := ECANCELED, true;
          }
        }
        rest := rest[1..];
      }
      ReadStops(len, sk.timeout, sk.start, ReadState(filled, err, sk.remaining, done', if bail then Bailed else Looping), rest);
      if bail {
        Close();
        lastError := err;
      } else if i < len && !done' {
        finished := false;
      } else {
        sk.bytesRcvd := i;
      }
    }

    /** One turn of the reply loop: a zeroed buffer is read and, unless that failed, its stats are appended. */
    method ReadBuffer(stats: Head<Stat>, sk: SocketState, count: nat, script: seq<ReadEv>)
      returns (err: int, done: bool, rest: seq<ReadEv>, finished: bool, count': nat)
      requires Balanced() && stats.Valid() && Owned(stats.elems)
      modifies this`fd, this`log, this`lastError, sk, stats, (set e | e in stats.elems)`next, (set e | e in stats.elems)`prev
      ensures Balanced() && old(log) <= log
      ensures stats.Valid() && Owned(stats.elems) && (forall e :: e in stats.elems ==> e in old(stats.elems) || fresh(e))
      ensures old(fd) == -1 ==> err == EBADF && finished && fd == -1 && Items(stats.elems) == old(Items(stats.elems))
      ensures old(fd) >= 0 ==>
        var (r, unused) := ReadRun(MAXSTATSZ, sk.timeout, sk.start, ReadStart(old(sk.remaining), false), script);
        var added := if finished && err == 0 then ParseStats(CStr(r.filled)) else [];
        && finished == !WantsMore(MAXSTATSZ, r) && rest == unused && sk.remaining == r.remaining
        && fd == (if r.status == Bailed then -1 else old(fd))
        && (finished ==> err == r.err && (err == 0 && r.status != Bailed ==> done == r.done))
        && Items(stats.elems) == old(Items(stats.elems)) + added && count' == count + |added|
    {
      hide Head.Valid, ReadRun, ParseStats, Zeroed, CStr, Items, Replay, Contains;
      // A reply that fills the array leaves it without a NUL; the cell behind it is taken to hold one.
      var buffer := new char[MAXSTATSZ + 1](_ => '\0');
      BlankBuffer(buffer[..]);
      assert Items(stats.elems) + [] == Items(stats.elems);
      ghost var remaining := sk.remaining;
      err, done, rest, finished := Read(buffer, MAXSTATSZ, sk, false, script);
      count' := count;
      if finished && err == 0 {
        TextIsFilled(buffer[..], ReadRun(MAXSTATSZ, sk.timeout, sk.start, ReadStart(remaining, false), script).0.filled);
        count' := AddStats(stats, buffer, count);
      }
    }

    /** sp_memcache_read_replies: read and parse until the end of the reply. A server error counts as no error. */
    method ReadReplies(stats: Head<Stat>, start: int, script: seq<ReadEv>) returns (err: int, finished: bool)
      requires Balanced() && stats.Valid() && Owned(stats.elems)
      modifies this`fd, this`log, this`lastError, stats, (set e | e in stats.elems)`next, (set e | e in stats.elems)`prev
      ensures Balanced() && old(log) <= log && (finished ==> lastError == err)
      ensures stats.Valid() && Owned(stats.elems) && (forall e :: e in stats.elems ==> e in old(stats.elems) || fresh(e))
      ensures old(fd) == -1 ==> err == EBADF && finished && fd == -1 && Items(stats.elems) == old(Items(stats.elems))
      ensures old(fd) >= 0 ==>
        var r := Replies(readMs, start, readMs, [], script);
        && Items(stats.elems) == old(Items(stats.elems)) + r.stats && finished == r.finished
        && fd == (if r.bailed then -1 else old(fd)) && (finished ==> err == r.err)
    {
      hide Replies, Head.Valid, ReadRun, ParseStats, CStr, Items, Replay, Contains;
      var sk := new SocketState(start, readMs);
      var count, done := 0, false;
      var rest := script;
      ghost var added := [];
      err, finished := 0, true;
      assert Items(stats.elems) + [] == Items(stats.elems);
      while !done
        invariant Balanced() && old(log) <= log && fd == old(fd) && err == 0
        invariant stats.Valid() && Owned(stats.elems)
        invariant forall e :: e in stats.elems ==> e in old(stats.elems) || fresh(e)
        invariant fresh(sk) && sk.timeout == readMs && sk.start == start && count == |added|
        invariant Items(stats.elems) == old(Items(stats.elems)) + added
        invariant fd < 0 ==> !done && added == []
        invariant fd >= 0 && done ==> Replies(readMs, start, readMs, [], script) == ReplyRun(added, 0, true, false)
        invariant fd >= 0 && !done ==>
                    Replies(readMs, start, readMs, [], script) == Replies(readMs, start, sk.remaining, added, rest)
        decreases |rest|, !done
      {
        RepliesUnfold(readMs, start, sk.remaining, added, rest);
        ghost var items := ParseStats(CStr(ReadRun(MAXSTATSZ, readMs, start, ReadStart(sk.remaining, false), rest).0.filled));
        err, done, rest, finished, count := ReadBuffer(stats, sk, count, rest);
        if !finished {
          return;
        }
        if err == ECANCELED {
          err := 0;
          break;
        } else if err != 0 {
          break;
        }
        added := added + items;
        if count == 0 {
          done := true;
        }
      }
      lastError := err;
    }
  }

  lemma PrefixGrows(s: string, i: nat, n: nat)
    requires i + n <= |s|
    ensures s[..i] + s[i..][..n] == s[..i + n]
  {
  }

  lemma WriteUnfolds(n: nat, timeout: int, start: int, st: WriteState, script: seq<WriteEv>, k: nat)
    requires k < |script| && st.status == Looping && st.sent < n
    ensures WriteRun(n, timeout, start, st, script[k..]) ==
            WriteRun(n, timeout, start, WriteStep(n, timeout, start, st, script[k]), script[k + 1..])
  {
    assert script[k..][1..] == script[k + 1..];
  }

  lemma WriteStops(n: nat, timeout: int, start: int, script: seq<WriteEv>, k: nat)
    requires k <= |script|
    ensures forall st: WriteState ::
      st.sent <= n && (st.status == Looping ==> st.sent < n) && (st.status != Looping || k == |script|) ==>
        WriteRun(n, timeout, start, st, script[k..]) == st
  {
  }

  /** The bytes of one read(), stored from i on. */
  method Fill(data: array<char>, i: nat, chunk: string)
    requires i + |chunk| <= data.Length && Zeroed(data[..], i)
    modifies data
    ensures data[..i + |chunk|] == old(data[..i]) + chunk && Zeroed(data[..], i + |chunk|)
  {
    for k := 0 to |chunk|
      invariant data[..i + k] == old(data[..i]) + chunk[..k]
      invariant forall j :: i + k <= j < data.Length ==> data[j] == '\0'
    {
      data[i + k] := chunk[k];
      assert data[..i + k + 1] == data[..i + k] + [chunk[k]];
    }
  }

  lemma TextIsFilled(b: string, filled: string)
    requires filled <= b && Zeroed(b, |filled|)
    ensures CStr(b) == CStr(filled)
  {
    CStrIs(b, CStr(filled));
  }

  lemma ReadUnfolds(len: nat, timeout: int, start: int, st: ReadState, script: seq<ReadEv>)
    requires WantsMore(len, st) && script != []
    ensures ReadRun(len, timeout, start, st, script) ==
            ReadRun(len, timeout, start, ReadStep(len, timeout, start, st, script[0]), script[1..])
  {
  }

  lemma ReadStops(len: nat, timeout: int, start: int, st: ReadState, script: seq<ReadEv>)
    requires |st.filled| <= len && (!WantsMore(len, st) || script == [])
    ensures ReadRun(len, timeout, start, st, script) == (st, script)
  {
  }

  lemma BlankBuffer(b: string)
    requires forall k :: 0 <= k < |b| ==> b[k] == '\0'
    ensures Zeroed(b, 0)
  {
  }

  /** One round of the reply loop. */
  lemma RepliesUnfold(timeout: int, start: int, remaining: int, added: seq<Stat>, script: seq<ReadEv>)
    ensures var (r, rest) := ReadRun(MAXSTATSZ, timeout, start, ReadStart(remaining, false), script);
      && (!WantsMore(MAXSTATSZ, r) ==> (r.err == 0 <==> r.status != Bailed) && |rest| < |script|)
      && Replies(timeout, start, remaining, added, script) ==
         if WantsMore(MAXSTATSZ, r) then ReplyRun(added, 0, false, false)
         else if r.status == Bailed then ReplyRun(added, if r.err == ECANCELED then 0 else r.err, true, true)
         else
           var added' := added + ParseStats(CStr(r.filled));
           if r.done || added' == [] then ReplyRun(added', 0, true, false)
           else Replies(timeout, start, r.remaining, added', rest)
  {
    hide Contains, ParseStats, ReadRun;
    NoEndInNothing();
    if script == [] {
      ReadStops(MAXSTATSZ, timeout, start, ReadStart(remaining, false), script);
    }
    ReadErrIsBail(MAXSTATSZ, timeout, start, ReadStart(remaining, false), script);
  }

  lemma NoEndInNothing()
    ensures !Contains(CStr(""), END)
  {
  }
}
