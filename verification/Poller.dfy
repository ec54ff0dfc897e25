/** The poller thread: one stats or health request per uri, the cached list each leaves behind, and the
    loop over the uris with its reconnects. */
module Poller {
  import opened CStrings
  import opened Tailq
  import opened StatsCache
  import opened StatsText
  import opened Wire
  import opened Session

  const CMDSZ := 64
  const LIVENESS_CMD := "set __LIVENESS__ 0 0 12\r\nliveness chk\r\n"
  const LIVENESS_OK := "STORED\r\n"

  /** snprintf(statsCmd, CMDSZ, "stats %s\r\n", uri) */
  function StatsCommand(uri: string): (cmd: string)
    ensures cmd != ""
  {
    var whole := "stats " + uri + "\r\n";
    whole[..Min(|whole|, CMDSZ - 1)]
  }

  /** Everything the kernel and the clock answer during one visit of a uri; now is read by getHealth, time afterwards. */
  datatype VisitEv = VisitEv(connects: nat -> ConnectEv, writeStart: int, writes: seq<WriteEv>,
                             readStart: int, arrivals: seq<ReadEv>, now: nat, timeText: string, asked: int, answered: int,
                             time: nat)

  /** What a visit does to the cached list: still waiting, left alone, or replaced; and whether the socket
      is still open afterwards. */
  datatype Effect = Blocked | Kept(open: bool) | Installed(stats: seq<Stat>, open: bool)

  function StatEffect(open: bool, writeMs: int, readMs: int, uri: string, ev: VisitEv): Effect {
    var cmd := StatsCommand(uri);
    var w := WriteRun(|cmd|, writeMs, ev.writeStart, WriteStart(|cmd|, writeMs), ev.writes);
    if !open then Kept(false)
    else if w.status == Looping then Blocked
    else if w.err != 0 then Kept(w.status != Bailed)
    else if w.status == Bailed then Installed([], false)
    else
      var r := Replies(readMs, ev.readStart, readMs, [], ev.arrivals);
      if r.finished then Installed(r.stats, !r.bailed) else Blocked
  }

  function CommandOf(uri: string): (cmd: string)
    ensures cmd != ""
  {
    if uri == "health" then LIVENESS_CMD else StatsCommand(uri)
  }

  /** The bytes of a command that the kernel takes during a visit. */
  function Bytes(open: bool, cmd: string, writeMs: int, ev: VisitEv): string {
    if !open then ""
    else cmd[..Min(WriteRun(|cmd|, writeMs, ev.writeStart, WriteStart(|cmd|, writeMs), ev.writes).sent, |cmd|)]
  }

  /** Sent without a failing call, and answered by a whole reply: the cache becomes exactly the stats of that reply. */
  lemma PolledReply(writeMs: int, readMs: int, uri: string, ev: VisitEv, reply: string)
    requires var w := WriteRun(|StatsCommand(uri)|, writeMs, ev.writeStart, WriteStart(|StatsCommand(uri)|, writeMs), ev.writes);
      w.status == Returned && w.err == 0
    requires WholeReply(reply) && |reply| < MAXSTATSZ && Delivers(ev.arrivals, reply, readMs, ev.readStart, readMs)
    ensures StatEffect(true, writeMs, readMs, uri, ev) == Installed(ParseStats(reply), true)
  {
    hide WriteRun, WholeReply, Delivers, Replies, StatsCommand;
    ReplyComesThrough(readMs, ev.readStart, ev.arrivals, reply);
  }

  class UriEntry {
    const uri: string
    const stats: Head<Stat>
    var lastpoll: nat

    constructor (uri: string)
      ensures this.uri == uri && lastpoll == 0 && stats.Valid() && stats.elems == [] && fresh(stats)
    {
      this.uri := uri;
      lastpoll := 0;
      stats := new Head();
    }
  }

  lemma NoItems(list: seq<Stat>)
    ensures Items([]) == [] && Items([]) + list == list
  {
  }

  /** getStat */
  method GetStat(stats: Head<Stat>, uri: string, b: Backend, ev: VisitEv) returns (finished: bool)
    requires b.Balanced() && stats.Valid() && Owned(stats.elems)
    modifies b`fd, b`log, b`lastError, b`wire, stats, (set e | e in stats.elems)
    ensures b.Balanced() && old(b.log) <= b.log && stats.Valid() && Owned(stats.elems)
    ensures b.wire == old(b.wire) + Bytes(old(b.fd) >= 0, StatsCommand(uri), b.writeMs, ev)
    ensures match StatEffect(old(b.fd) >= 0, b.writeMs, b.readMs, uri, ev)
      case Blocked => !finished && stats.elems == old(stats.elems)
      case Kept(open) => finished && stats.elems == old(stats.elems) && open == (b.fd >= 0)
      case Installed(list, open) =>
        finished && Items(stats.elems) == list && Freed(old(stats.elems)) && open == (b.fd >= 0) &&
        forall e :: e in stats.elems ==> fresh(e)
  {
    hide Head.Valid, Replies, WriteRun, Items, StatsCommand;
    var err;
    err, finished := b.Write(StatsCommand(uri), ev.writeStart, ev.writes);
    if !finished {
      return;
    }
    var newStats := new Head<Stat>();
    NoItems(Replies(b.readMs, ev.readStart, b.readMs, [], ev.arrivals).stats);
    if err == 0 {
      err, finished := b.ReadReplies(newStats, ev.readStart, ev.arrivals);
      if finished {
        ReplaceStats(stats, newStats);
      }
    }
  }

  // ----- health

  datatype Pulse = Pulse(finished: bool, alive: bool, delta: nat, open: bool)

  /** The clock may have gone back in between. */
  function ResponseTime(ev: VisitEv): nat {
    if ev.answered < ev.asked then 0 else ev.answered - ev.asked
  }

  /** The liveness check: a set command and the first eight bytes of the answer. */
  function Check(open: bool, writeMs: int, readMs: int, ev: VisitEv): Pulse {
    var w := WriteRun(|LIVENESS_CMD|, writeMs, ev.writeStart, WriteStart(|LIVENESS_CMD|, writeMs), ev.writes);
    var delta := ResponseTime(ev);
    if !open then Pulse(true, false, 0, false)
    else if w.status == Looping then Pulse(false, false, 0, true)
    else if w.err != 0 then Pulse(true, false, 0, w.status != Bailed)
    else if w.status == Bailed then Pulse(true, false, delta, false)
    else
      var (r, rest) := ReadRun(|LIVENESS_OK|, readMs, ev.readStart, ReadStart(readMs, false), ev.arrivals);
      if WantsMore(|LIVENESS_OK|, r) then Pulse(false, false, 0, true)
      else Pulse(true, r.err == 0 && CStr(r.filled) == LIVENESS_OK, delta, r.status != Bailed)
  }

  /** A server that takes the command and answers STORED, in whatever pieces, is alive; a timeout is not needed. */
  lemma StoredIsAlive(writeMs: int, readMs: int, ev: VisitEv)
    requires var w := WriteRun(|LIVENESS_CMD|, writeMs, ev.writeStart, WriteStart(|LIVENESS_CMD|, writeMs), ev.writes);
      w.status == Returned && w.err == 0
    requires Delivers(ev.arrivals, LIVENESS_OK, readMs, ev.readStart, readMs)
    ensures Check(true, writeMs, readMs, ev) == Pulse(true, true, ResponseTime(ev), true)
  {
    hide WriteRun, ReadRun, Delivers, Contains, CStr;
    StoredIsPlain();
    ExactRun(readMs, ev.readStart, ReadStart(readMs, false), ev.arrivals, LIVENESS_OK, LIVENESS_OK);
  }

  lemma StoredIsPlain()
    ensures NulFree(LIVENESS_OK) && CStr(LIVENESS_OK) == LIVENESS_OK && "" + LIVENESS_OK == LIVENESS_OK
    ensures !Contains(LIVENESS_OK, END) && !Contains(LIVENESS_OK, ERROR)
  {
    CStrIs(LIVENESS_OK, LIVENESS_OK);
    forall i: nat ensures !OccursAt(LIVENESS_OK, END, i) && !OccursAt(LIVENESS_OK, ERROR, i) {
      if i + 5 <= |LIVENESS_OK| {
        assert LIVENESS_OK[i..i + 5][1] == LIVENESS_OK[i + 1] && END[1] == 'N' && ERROR[1] == 'R';
        assert LIVENESS_OK[i..i + 5][0] == LIVENESS_OK[i] && ERROR[0] == 'E';
      }
    }
  }

  /** The four stats of the health uri, in the order they are shown. */
  function HealthStats(age: nat, timeText: string, alive: bool, delta: nat): seq<Stat> {
    [Stat("statsAge", UINT64(age)), Stat("lastpoll", ALPHA(timeText)),
     Stat("liveness", UINT64(if alive then 1 else 0)), Stat("respTimeMs", UINT64(delta))]
  }

  /** uint64_t pollDelta */
  function StatsAge(lastpoll: nat, now: nat): nat {
    if lastpoll > 0 then (now - lastpoll) % SIZE_MODULUS else 0
  }

  /** The first half of getHealth: what the server answered. */
  method Probe(b: Backend, ev: VisitEv) returns (finished: bool, alive: bool, delta: nat)
    requires b.Balanced()
    modifies b`fd, b`log, b`lastError, b`wire
    ensures b.Balanced() && old(b.log) <= b.log
    ensures b.wire == old(b.wire) + Bytes(old(b.fd) >= 0, LIVENESS_CMD, b.writeMs, ev)
    ensures var p := Check(old(b.fd) >= 0, b.writeMs, b.readMs, ev);
      finished == p.finished && (finished ==> alive == p.alive && delta == p.delta && (b.fd >= 0 <==> p.open))
  {
    hide WriteRun, ReadRun, Zeroed, CStr, Contains;
    var sk := new SocketState(ev.readStart, b.readMs);
    var err, done, rest;
    alive, delta := false, 0;
    err, finished := b.Write(LIVENESS_CMD, ev.writeStart, ev.writes);
    if !finished || err != 0 {
      return;
    }
    var healthCmd := new char[CMDSZ](_ => '\0');
    BlankBuffer(healthCmd[..]);
    err, done, rest, finished := b.Read(healthCmd, |LIVENESS_OK|, sk, false, ev.arrivals);
    if !finished {
      return;
    }
    delta := ResponseTime(ev);
    if err == 0 {
      TextIsFilled(healthCmd[..], ReadRun(|LIVENESS_OK|, b.readMs, ev.readStart, ReadStart(b.readMs, false), ev.arrivals).0.filled);
      alive := CStr(healthCmd[..]) == LIVENESS_OK;
    }
  }

  /** Its second half: the old list goes, four new entries come. */
  method InstallHealth(stats: Head<Stat>, age: nat, timeText: string, alive: bool, delta: nat)
    requires stats.Valid() && Owned(stats.elems)
    modifies stats, (set e | e in stats.elems)
    ensures stats.Valid() && Owned(stats.elems) && Freed(old(stats.elems))
    ensures (forall e :: e in stats.elems ==> fresh(e)) && Items(stats.elems) == HealthStats(age, timeText, alive, delta)
  {
    hide Head.Valid, Items;
    RemoveOldStats(stats);
    NoItems([]);
    InsertNew(stats, Stat("statsAge", UINT64(age)));
    InsertNew(stats, Stat("lastpoll", ALPHA(timeText)));
    InsertNew(stats, Stat("liveness", UINT64(if alive then 1 else 0)));
    InsertNew(stats, Stat("respTimeMs", UINT64(delta)));
  }

  /** getHealth: the list is replaced even when the server is dead. */
  method GetHealth(stats: Head<Stat>, lastpoll: nat, b: Backend, ev: VisitEv) returns (finished: bool)
    requires b.Balanced() && stats.Valid() && Owned(stats.elems)
    modifies b`fd, b`log, b`lastError, b`wire, stats, (set e | e in stats.elems)
    ensures b.Balanced() && old(b.log) <= b.log && stats.Valid() && Owned(stats.elems)
    ensures b.wire == old(b.wire) + Bytes(old(b.fd) >= 0, LIVENESS_CMD, b.writeMs, ev)
    ensures match HealthEffect(old(b.fd) >= 0, b.writeMs, b.readMs, lastpoll, ev)
      case Blocked => !finished && stats.elems == old(stats.elems)
      case Kept(_) => false
      case Installed(list, open) =>
        finished && Items(stats.elems) == list && Freed(old(stats.elems)) && open == (b.fd >= 0) &&
        forall e :: e in stats.elems ==> fresh(e)
  {
    hide Head.Valid, Check, Items;
    var alive, delta;
    finished, alive, delta := Probe(b, ev);
    if finished {
      InstallHealth(stats, StatsAge(lastpoll, ev.now), ev.timeText, alive, delta);
    }
  }

  function HealthEffect(open: bool, writeMs: int, readMs: int, lastpoll: nat, ev: VisitEv): Effect {
    var p := Check(open, writeMs, readMs, ev);
    if p.finished then Installed(HealthStats(StatsAge(lastpoll, ev.now), ev.timeText, p.alive, p.delta), p.open) else Blocked
  }

  function UriEffect(uri: string, open: bool, writeMs: int, readMs: int, lastpoll: nat, ev: VisitEv): Effect {
    if uri == "health" then HealthEffect(open, writeMs, readMs, lastpoll, ev)
    else StatEffect(open, writeMs, readMs, uri, ev)
  }

  // ----- all uris, for as long as the run goes on

  ghost function Heads(entries: seq<UriEntry>): set<Head<Stat>> {
    set i | 0 <= i < |entries| :: entries[i].stats
  }

  ghost function Nodes(entries: seq<UriEntry>): set<Node<Stat>>
    reads (set i | 0 <= i < |entries| :: entries[i].stats)
  {
    set i, e | 0 <= i < |entries| && e in entries[i].stats.elems :: e
  }

  /** Every list is sound and all its nodes are live; no node is in two lists. */
  ghost predicate CacheSound(entries: seq<UriEntry>)
    reads (set i | 0 <= i < |entries| :: entries[i].stats)
    reads (set i, e | 0 <= i < |entries| && e in entries[i].stats.elems :: e)
  {
    && (forall i :: 0 <= i < |entries| ==> ListSound(entries[i].stats))
    && (forall i, j :: 0 <= i < |entries| && 0 <= j < |entries| && i != j ==> ListsApart(entries[i], entries[j]))
  }

  ghost predicate ListSound(stats: Head<Stat>)
    reads stats, (set e | e in stats.elems)
  {
    stats.Valid() && Owned(stats.elems)
  }

  ghost predicate ListsApart(a: UriEntry, b: UriEntry)
    reads a.stats, b.stats
  {
    a != b && a.stats != b.stats && Disjoint(a.stats.elems, b.stats.elems)
  }

  lemma ListParts(stats: Head<Stat>)
    ensures ListSound(stats) <==> stats.Valid() && Owned(stats.elems)
  {
  }

  lemma CacheParts(entries: seq<UriEntry>)
    requires CacheSound(entries)
    ensures forall i :: 0 <= i < |entries| ==> ListSound(entries[i].stats)
    ensures forall i, j :: 0 <= i < |entries| && 0 <= j < |entries| && i != j ==> ListsApart(entries[i], entries[j])
    ensures forall i, e :: 0 <= i < |entries| && e in entries[i].stats.elems ==> e in Nodes(entries)
    ensures forall i :: 0 <= i < |entries| ==> entries[i].stats in Heads(entries)
  {
  }

  /** The lists before a visit: apart from each other and all made of known nodes. */
  ghost predicate Before(lists: seq<seq<Node<Stat>>>, known: set<Node<Stat>>) {
    && (forall j, e :: 0 <= j < |lists| && e in lists[j] ==> e in known)
    && (forall j, k :: 0 <= j < |lists| && 0 <= k < |lists| && j != k ==> Disjoint(lists[j], lists[k]))
  }

  /** Replacing one list by nodes of its own or new ones keeps the cache sound. */
  lemma OneListChanged(entries: seq<UriEntry>, i: nat, lists: seq<seq<Node<Stat>>>, known: set<Node<Stat>>)
    requires i < |entries| == |lists| && Before(lists, known)
    requires forall j, k :: 0 <= j < |entries| && 0 <= k < |entries| && j != k ==>
               entries[j] != entries[k] && entries[j].stats != entries[k].stats
    requires forall j :: 0 <= j < |entries| ==> ListSound(entries[j].stats)
    requires forall j :: 0 <= j < |entries| && j != i ==> entries[j].stats.elems == lists[j]
    requires forall e :: e in entries[i].stats.elems ==> e in lists[i] || e !in known
    ensures CacheSound(entries)
    ensures forall n :: n in Nodes(entries) ==> n in known || n in entries[i].stats.elems
  {
    hide ListSound;
    forall j, k | 0 <= j < |entries| && 0 <= k < |entries| && j != k ensures ListsApart(entries[j], entries[k]) {
      assert Disjoint(lists[j], lists[k]);
    }
  }

  /** The request for one uri. */
  method Request(entry: UriEntry, b: Backend, ev: VisitEv) returns (finished: bool)
    requires b.Balanced() && ListSound(entry.stats)
    modifies b`fd, b`log, b`lastError, b`wire, entry.stats, (set e | e in entry.stats.elems)
    ensures b.Balanced() && old(b.log) <= b.log && ListSound(entry.stats)
    ensures forall e :: e in entry.stats.elems ==> e in old(entry.stats.elems) || fresh(e)
    ensures b.wire == old(b.wire) + Bytes(old(b.fd) >= 0, CommandOf(entry.uri), b.writeMs, ev)
    ensures match UriEffect(entry.uri, old(b.fd) >= 0, b.writeMs, b.readMs, entry.lastpoll, ev)
      case Blocked => !finished && entry.stats.elems == old(entry.stats.elems)
      case Kept(open) => finished && entry.stats.elems == old(entry.stats.elems) && open == (b.fd >= 0)
      case Installed(list, open) =>
        finished && Items(entry.stats.elems) == list && Freed(old(entry.stats.elems)) && open == (b.fd >= 0)
  {
    hide ListSound, StatEffect, HealthEffect, Items, Bytes;
    ListParts(entry.stats);
    if entry.uri == "health" {
      finished := GetHealth(entry.stats, entry.lastpoll, b, ev);
    } else {
      finished := GetStat(entry.stats, entry.uri, b, ev);
    }
    ListParts(entry.stats);
  }

  /** One visit; connecting has succeeded. */
  method PollUri(entries: seq<UriEntry>, i: nat, b: Backend, ev: VisitEv) returns (finished: bool)
    requires b.Balanced() && CacheSound(entries) && i < |entries|
    modifies b`fd, b`log, b`lastError, b`wire, entries[i], Heads(entries), Nodes(entries)
    ensures b.Balanced() && old(b.log) <= b.log && CacheSound(entries)
    ensures forall n :: n in Nodes(entries) ==> n in old(Nodes(entries)) || fresh(n)
    ensures forall j :: 0 <= j < |entries| && j != i ==> entries[j].stats.elems == old(entries[j].stats.elems)
    ensures b.wire == old(b.wire) + Bytes(old(b.fd) >= 0, CommandOf(entries[i].uri), b.writeMs, ev)
    ensures match UriEffect(entries[i].uri, old(b.fd) >= 0, b.writeMs, b.readMs, old(entries[i].lastpoll), ev)
      case Blocked => !finished && entries[i].stats.elems == old(entries[i].stats.elems)
      case Kept(open) => finished && entries[i].stats.elems == old(entries[i].stats.elems) && open == (b.fd >= 0)
      case Installed(list, open) =>
        finished && Items(entries[i].stats.elems) == list && Freed(old(entries[i].stats.elems)) && open == (b.fd >= 0)
    ensures entries[i].lastpoll == if finished then ev.time else old(entries[i].lastpoll)
  {
    hide ListSound, CacheSound, Heads, Nodes, UriEffect, Items, Bytes, CommandOf;
    var entry := entries[i];
    CacheParts(entries);
    ghost var known := Nodes(entries);
    ghost var lists := seq(|entries|, j requires 0 <= j < |entries| => old(entries[j].stats.elems));
    assert Before(lists, known) by {
      assert forall j, k :: 0 <= j < |entries| && 0 <= k < |entries| && j != k ==> ListsApart(entries[j], entries[k]);
    }
    finished := Request(entry, b, ev);
    assert forall j :: 0 <= j < |entries| && j != i ==>
      old(ListsApart(entries[i], entries[j])) && old(ListSound(entries[j].stats)) &&
      entries[j].stats.elems == old(entries[j].stats.elems) && ListSound(entries[j].stats);
    OneListChanged(entries, i, lists, known);
    if finished {
      entry.lastpoll := ev.time;
    }
  }

  // ----- the walk over the uris, on values

  /** What the cache holds for one uri. */
  datatype Seen = Seen(list: seq<Stat>, lastpoll: nat)

  datatype Plan = Plan(uris: seq<string>, writeMs: int, readMs: int)

  /** The cache, the uri whose turn it is, whether the socket is open, and whether a visit never came to an end. */
  datatype Walk = Walk(cache: seq<Seen>, next: nat, open: bool, blocked: bool)

  predicate Fits(plan: Plan, w: Walk) {
    |w.cache| == |plan.uris| && w.next < |plan.uris|
  }

  function Set(cache: seq<Seen>, i: nat, list: seq<Stat>, time: nat): seq<Seen>
    requires i < |cache|
  {
    cache[i := Seen(list, time)]
  }

  /** The uri's entry is updated; after the last one the socket is closed and the walk begins again. */
  function Advance(w: Walk, list: seq<Stat>, time: nat, open: bool): Walk
    requires w.next < |w.cache|
  {
    var cache := Set(w.cache, w.next, list, time);
    if w.next + 1 < |cache| then Walk(cache, w.next + 1, open, false) else Walk(cache, 0, false, false)
  }

  /** One visit: connect if need be, and start over when that fails; then one request. */
  function WalkStep(plan: Plan, w: Walk, ev: VisitEv): (w': Walk)
    requires Fits(plan, w)
    ensures Fits(plan, w')
  {
    var (err, attempts) := if w.open then (0, 0) else Attempts(ev.connects, 0);
    if err != 0 then w.(next := 0, open := false)
    else
      var open := w.open || Connecting(ev.connects(attempts - 1)).1;
      var seen := w.cache[w.next];
      match UriEffect(plan.uris[w.next], open, plan.writeMs, plan.readMs, seen.lastpoll, ev)
      case Blocked => w.(blocked := true)
      case Kept(open') => Advance(w, seen.list, ev.time, open')
      case Installed(list, open') => Advance(w, list, ev.time, open')
  }

  function WalkRun(plan: Plan, w: Walk, script: seq<VisitEv>): (w': Walk)
    requires Fits(plan, w)
    ensures Fits(plan, w')
    decreases |script|
  {
    if script == [] || w.blocked then w else WalkRun(plan, WalkStep(plan, w, script[0]), script[1..])
  }

  /** A connection attempt, or one of its retries, succeeds. */
  predicate Connects(oracle: nat -> ConnectEv) {
    var (err, attempts) := Attempts(oracle, 0);
    err == 0 && Connecting(oracle(attempts - 1)).1
  }

  /** How the write of a visit ends, on an open connection. */
  function Sent(plan: Plan, uri: string, ev: VisitEv): WriteState {
    var n := |CommandOf(uri)|;
    WriteRun(n, plan.writeMs, ev.writeStart, WriteStart(n, plan.writeMs), ev.writes)
  }

  /** What a server answers to the command of a uri. */
  ghost predicate ReplyTo(uri: string, reply: string) {
    if uri == "health" then reply == LIVENESS_OK else WholeReply(reply) && |reply| < MAXSTATSZ
  }

  /** The request goes out without a failing call, and the server's whole answer arrives in time, in any pieces. */
  ghost predicate Answered(plan: Plan, uri: string, ev: VisitEv, reply: string) {
    && Sent(plan, uri, ev).status == Returned && Sent(plan, uri, ev).err == 0
    && Delivers(ev.arrivals, reply, plan.readMs, ev.readStart, plan.readMs)
    && ReplyTo(uri, reply)
  }

  function Renewed(uri: string, lastpoll: nat, ev: VisitEv, reply: string): Seen {
    Seen(if uri == "health" then HealthStats(StatsAge(lastpoll, ev.now), ev.timeText, true, ResponseTime(ev))
         else ParseStats(reply),
         ev.time)
  }

  lemma AnsweredRenews(plan: Plan, uri: string, lastpoll: nat, ev: VisitEv, reply: string)
    requires Answered(plan, uri, ev, reply)
    ensures UriEffect(uri, true, plan.writeMs, plan.readMs, lastpoll, ev) ==
            Installed(Renewed(uri, lastpoll, ev, reply).list, true)
  {
    hide WriteRun, Delivers, WholeReply, StatEffect, Check, HealthStats, StatsCommand;
    if uri == "health" {
      StoredIsAlive(plan.writeMs, plan.readMs, ev);
    } else {
      PolledReply(plan.writeMs, plan.readMs, uri, ev, reply);
    }
  }

  /** The rest of a round that goes well renews every entry still to come, and ends with the socket closed. */
  lemma {:induction false} RoundRenews(plan: Plan, w: Walk, script: seq<VisitEv>, replies: seq<string>)
    requires Fits(plan, w) && !w.blocked && |script| == |replies| == |plan.uris| - w.next
    requires w.open || Connects(script[0].connects)
    requires forall k :: 0 <= k < |script| ==> Answered(plan, plan.uris[w.next + k], script[k], replies[k])
    ensures var w' := WalkRun(plan, w, script);
      && Fits(plan, w') && w' == Walk(w'.cache, 0, false, false)
      && (forall j :: 0 <= j < w.next ==> w'.cache[j] == w.cache[j])
      && (forall j :: w.next <= j < |plan.uris| ==>
            w'.cache[j] == Renewed(plan.uris[j], w.cache[j].lastpoll, script[j - w.next], replies[j - w.next]))
    decreases |script|
  {
    hide Answered, UriEffect, Renewed, Attempts, Connecting;
    var seen := Renewed(plan.uris[w.next], w.cache[w.next].lastpoll, script[0], replies[0]);
    AnsweredRenews(plan, plan.uris[w.next], w.cache[w.next].lastpoll, script[0], replies[0]);
    RenewedTime(plan.uris[w.next], w.cache[w.next].lastpoll, script[0], replies[0]);
    var w1 := WalkStep(plan, w, script[0]);
    assert w1.cache == w.cache[w.next := seen];
    if |script| > 1 {
      assert w1 == Walk(w1.cache, w.next + 1, true, false);
      forall k | 0 <= k < |script| - 1
        ensures Answered(plan, plan.uris[w1.next + k], script[1..][k], replies[1..][k])
      {
        assert Answered(plan, plan.uris[w.next + (k + 1)], script[k + 1], replies[k + 1]);
      }
      RoundRenews(plan, w1, script[1..], replies[1..]);
    } else {
      assert WalkRun(plan, w1, script[1..]) == w1;
    }
  }

  lemma RenewedTime(uri: string, lastpoll: nat, ev: VisitEv, reply: string)
    ensures Renewed(uri, lastpoll, ev, reply).lastpoll == ev.time
  {
  }

  /** A server that cannot be reached leaves the cache as it is, however long that lasts. */
  lemma {:induction false} UnreachableKeeps(plan: Plan, w: Walk, script: seq<VisitEv>)
    requires Fits(plan, w) && !w.open && !w.blocked && script != []
    requires forall k :: 0 <= k < |script| ==> Attempts(script[k].connects, 0).0 != 0
    ensures WalkRun(plan, w, script) == w.(next := 0)
    decreases |script|
  {
    hide Attempts;
    if |script| > 1 {
      UnreachableKeeps(plan, w.(next := 0), script[1..]);
    }
  }

  /** Some visit of this uri installs this list. */
  ghost predicate Installs(plan: Plan, uri: string, ev: VisitEv, list: seq<Stat>) {
    exists open, lastpoll, open' :: UriEffect(uri, open, plan.writeMs, plan.readMs, lastpoll, ev) == Installed(list, open')
  }

  /** In every run each cached list is the one it started with or one that a single visit of that same uri installed. */
  lemma {:induction false} ListsComeFromVisits(plan: Plan, w: Walk, script: seq<VisitEv>, j: nat)
    requires Fits(plan, w) && j < |plan.uris|
    ensures var w' := WalkRun(plan, w, script);
      && Fits(plan, w')
      && (w'.cache[j].list == w.cache[j].list ||
          exists k :: 0 <= k < |script| && Installs(plan, plan.uris[j], script[k], w'.cache[j].list))
    decreases |script|
  {
    if script != [] && !w.blocked {
      var w1 := WalkStep(plan, w, script[0]);
      StepInstalls(plan, w, script[0], j);
      hide Installs, WalkStep;
      ListsComeFromVisits(plan, w1, script[1..], j);
      var w' := WalkRun(plan, w1, script[1..]);
      if w'.cache[j].list != w1.cache[j].list {
        var k :| 0 <= k < |script[1..]| && Installs(plan, plan.uris[j], script[1..][k], w'.cache[j].list);
        assert Installs(plan, plan.uris[j], script[k + 1], w'.cache[j].list);
      }
    }
  }

  lemma StepInstalls(plan: Plan, w: Walk, ev: VisitEv, j: nat)
    requires Fits(plan, w) && j < |plan.uris|
    ensures var w' := WalkStep(plan, w, ev);
      w'.cache[j].list == w.cache[j].list || Installs(plan, plan.uris[j], ev, w'.cache[j].list)
  {
    hide UriEffect, Attempts, Connecting;
  }

  // ----- the walk over the uris, on the heap

  function PlanOf(b: Backend, entries: seq<UriEntry>): (plan: Plan)
    ensures |plan.uris| == |entries|
  {
    Plan(seq(|entries|, i requires 0 <= i < |entries| => entries[i].uri), b.writeMs, b.readMs)
  }

  ghost predicate Shows(entries: seq<UriEntry>, cache: seq<Seen>)
    reads (set i | 0 <= i < |entries| :: entries[i])`lastpoll
    reads (set i | 0 <= i < |entries| :: entries[i].stats)`elems
  {
    && |cache| == |entries|
    && forall i :: 0 <= i < |entries| ==> ShowsOne(entries[i], cache[i])
  }

  ghost predicate ShowsOne(entry: UriEntry, seen: Seen)
    reads entry`lastpoll, entry.stats`elems
  {
    seen == Seen(Items(entry.stats.elems), entry.lastpoll)
  }

  /** PollUri, seen on values: at most the uri's own entry changes. */
  method PollEntry(entries: seq<UriEntry>, i: nat, b: Backend, ev: VisitEv, ghost cache: seq<Seen>) returns (finished: bool)
    requires b.Balanced() && CacheSound(entries) && i < |entries| && |cache| == |entries| && Shows(entries, cache)
    modifies b`fd, b`log, b`lastError, b`wire, entries[i], Heads(entries), Nodes(entries)
    ensures b.Balanced() && old(b.log) <= b.log && CacheSound(entries)
    ensures forall n :: n in Nodes(entries) ==> n in old(Nodes(entries)) || fresh(n)
    ensures b.wire == old(b.wire) + Bytes(old(b.fd) >= 0, CommandOf(entries[i].uri), b.writeMs, ev)
    ensures match UriEffect(entries[i].uri, old(b.fd) >= 0, b.writeMs, b.readMs, cache[i].lastpoll, ev)
      case Blocked => !finished && Shows(entries, cache)
      case Kept(open) => finished && open == (b.fd >= 0) && Shows(entries, Set(cache, i, cache[i].list, ev.time))
      case Installed(list, open) => finished && open == (b.fd >= 0) && Shows(entries, Set(cache, i, list, ev.time))
  {
    hide CacheSound, Nodes, Heads, UriEffect, Items;
    CacheParts(entries);
    assert ShowsOne(entries[i], cache[i]);
    finished := PollUri(entries, i, b, ev);
    forall j | 0 <= j < |entries| && j != i ensures ShowsOne(entries[j], cache[j]) {
      assert old(ShowsOne(entries[j], cache[j])) && old(ListsApart(entries[i], entries[j]));
    }
  }

  /** One turn of the loop does one step of the walk. */
  method Visit(b: Backend, entries: seq<UriEntry>, i: nat, ev: VisitEv, ghost w: Walk) returns (next: nat, finished: bool)
    requires b.Balanced() && CacheSound(entries) && i < |entries| && |w.cache| == |entries|
    requires Shows(entries, w.cache) && w.next == i && w.open == (b.fd >= 0) && !w.blocked
    modifies b`fd, b`log, b`lastError, b`wire, entries[i], Heads(entries), Nodes(entries)
    ensures b.Balanced() && old(b.log) <= b.log && CacheSound(entries)
    ensures forall n :: n in Nodes(entries) ==> n in old(Nodes(entries)) || fresh(n)
    ensures b.wire == old(b.wire) + Bytes(w.open || Connects(ev.connects), CommandOf(entries[i].uri), b.writeMs, ev)
    ensures var w' := WalkStep(PlanOf(b, entries), w, ev);
      && Shows(entries, w'.cache) && next == w'.next && finished == !w'.blocked
      && (finished ==> w'.open == (b.fd >= 0))
  {
    hide CacheSound, Nodes, Heads, UriEffect, Attempts, Connecting, Shows, WriteRun, CommandOf;
    next, finished := 0, true;
    var err, attempts := b.CheckAndConnect(ev.connects);
    if err != 0 {
      return;
    }
    finished := PollEntry(entries, i, b, ev, w.cache);
    if finished && i + 1 < |entries| {
      next := i + 1;
    } else if finished {
      b.Close();
    } else {
      next := i;
    }
  }

  /** runBackend, from the empty lists on: the script lists the visits of an arbitrarily long run. */
  method RunBackend(b: Backend, entries: seq<UriEntry>, script: seq<VisitEv>, ghost cache: seq<Seen>)
    requires b.fd == -1 && b.Balanced() && CacheSound(entries)
    requires |cache| == |entries| && Shows(entries, cache)
    modifies b`fd, b`log, b`lastError, b`wire
    modifies (set e | e in entries), Heads(entries), Nodes(entries)
    ensures b.Balanced() && old(b.log) <= b.log && CacheSound(entries)
    ensures entries != [] ==> Shows(entries, WalkRun(PlanOf(b, entries), Walk(cache, 0, false, false), script).cache)
    ensures entries == [] ==> b.fd == -1 && b.log == old(b.log) && b.wire == old(b.wire)
  {
    if entries == [] { // every round only disconnects
      for k := 0 to |script|
        invariant b.fd == -1 && b.Balanced() && b.log == old(b.log) && b.wire == old(b.wire)
      {
        b.Close();
      }
      return;
    }
    var i: nat, finished := 0, true;
    ghost var plan := PlanOf(b, entries);
    ghost var w := Walk(cache, 0, false, false);
    assert script[0..] == script;
    for k := 0 to |script|
      invariant i < |entries| && b.Balanced() && old(b.log) <= b.log && CacheSound(entries)
      invariant forall n :: n in Nodes(entries) ==> n in old(Nodes(entries)) || fresh(n)
      invariant Fits(plan, w) && Shows(entries, w.cache) && w.next == i && w.open == (b.fd >= 0) && !w.blocked
      invariant WalkRun(plan, w, script[k..]) == WalkRun(plan, Walk(cache, 0, false, false), script)
    {
      hide CacheSound, Nodes, Heads, Shows, WalkStep;
      assert script[k..][0] == script[k] && script[k..][1..] == script[k + 1..];
      i, finished := Visit(b, entries, i, script[k], w);
      w := WalkStep(plan, w, script[k]);
      if !finished {
        return;
      }
    }
  }
}
