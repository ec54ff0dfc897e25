/** The reader/writer lock around the cached lists: one poller, any number of readers, every interleaving of
    their smallest steps. Two levels: the steps of the code, and an atomic cache that installs a whole list
    or prints a whole list in one step. */
module Snapshots {
  import opened CStrings
  import opened StatsCache

  type List = seq<Stat>

  datatype BackendState = HALTED | CONNECTING | POLLING

  // ----- the atomic cache

  datatype Install = Install(uri: nat, list: List)

  /** A place in a list as a reader finds it; Dead is a node that has been freed. */
  datatype Slot = Live(st: Stat) | Dead

  /** What a reader has printed, and how many lists had been installed when it gave the lock back. */
  datatype Report = Report(reader: nat, uri: nat, out: seq<Slot>, installed: nat)

  /** installs records the completed write sections, reports the completed prints. */
  datatype Atomic = Atomic(status: BackendState, installs: seq<Install>, reports: seq<Report>)

  /** The list of a uri after some installs: the latest, or the initial empty one. */
  function Current(installs: seq<Install>, uri: nat): List {
    if installs == [] then []
    else if installs[|installs| - 1].uri == uri then installs[|installs| - 1].list
    else Current(installs[..|installs| - 1], uri)
  }

  function Lives(list: List): seq<Slot> {
    seq(|list|, i requires 0 <= i < |list| => Live(list[i]))
  }

  ghost predicate AtomicStep(a: Atomic, b: Atomic) {
    || (exists status :: b == a.(status := status))
    || (exists i :: b == a.(installs := a.installs + [i]))
    || (exists r, u :: a.status == POLLING &&
          b == a.(reports := a.reports + [Report(r, u, Lives(Current(a.installs, u)), |a.installs|)]))
  }

  // ----- the code

  /** The assignments to bep->state: once at the start, and around each connection attempt. */
  datatype Goal = Halt | Conn(u: nat) | Poll(u: nat)

  function StatusOf(g: Goal): BackendState {
    match g case Halt => HALTED case Conn(_) => CONNECTING case Poll(_) => POLLING
  }

  /** Where the poller is: before, inside and at the end of a section that assigns the state; connecting;
      talking to the server; before and inside the section that replaces a list; or between two rounds. */
  datatype PollerPc =
    | WantState(g: Goal) | Storing(g: Goal) | Stored(g: Goal)
    | Connecting(u: nat) | Talking(u: nat)
    | WantInstall(u: nat, list: List) | Clearing(u: nat, list: List, freed: nat) | Filling(u: nat, list: List, moved: nat)
    | Resting

  datatype ReaderPc =
    | Idle
    | Asking(u: nat)
    | Checking(u: nat)
    | Printing(u: nat, out: seq<Slot>)
    | Printed(u: nat, out: seq<Slot>)
    | Refused(u: nat)

  datatype State = State(
    status: BackendState, cells: seq<seq<Slot>>, writer: bool, sharing: set<nat>, poller: PollerPc,
    readers: map<nat, ReaderPc>, installs: seq<Install>, reports: seq<Report>)

  /** What the environment chooses: whether a connection attempt works, what a request brings (None leaves
      the list alone), which reader moves, and which uri an idle reader asks for. */
  datatype Step = PollerMoves(connected: bool, reply: Option<List>) | ReaderMoves(r: nat, asks: nat)

  function Pc(s: State, r: nat): ReaderPc {
    if r in s.readers then s.readers[r] else Idle
  }

  function Visit(n: nat, u: nat): PollerPc {
    if u < n then WantState(Conn(u)) else Resting
  }

  /** One step of the poller; None when it has to wait for the lock. */
  function PollerStep(n: nat, s: State, connected: bool, reply: Option<List>): Option<State> {
    match s.poller
    case WantState(g) =>
      if s.writer || s.sharing != {} then None else Some(s.(writer := true, poller := Storing(g)))
    case Storing(g) => Some(s.(status := StatusOf(g), poller := Stored(g)))
    case Stored(g) =>
      var next := match g case Halt => Visit(n, 0) case Conn(u) => Connecting(u) case Poll(u) => Talking(u);
      Some(s.(writer := false, poller := next))
    case Connecting(u) => Some(s.(poller := if connected then WantState(Poll(u)) else Visit(n, 0)))
    case Talking(u) =>
      Some(s.(poller := match reply case Some(list) => WantInstall(u, list) case None => Visit(n, u + 1)))
    case WantInstall(u, list) =>
      if s.writer || s.sharing != {} then None else Some(s.(writer := true, poller := Clearing(u, list, 0)))
    case Clearing(u, list, k) =>
      if u >= |s.cells| then None
      else if k < |s.cells[u]| then
        Some(s.(cells := s.cells[u := s.cells[u][k := Dead]], poller := Clearing(u, list, k + 1)))
      else Some(s.(cells := s.cells[u := []], poller := Filling(u, list, 0)))
    case Filling(u, list, k) =>
      if u >= |s.cells| then None
      else if k < |list| then
        Some(s.(cells := s.cells[u := s.cells[u] + [Live(list[k])]], poller := Filling(u, list, k + 1)))
      else
        Some(s.(writer := false, installs := s.installs + [Install(u, list)], poller := Visit(n, u + 1)))
    case Resting => Some(s.(poller := Visit(n, 0)))
  }

  /** One step of a reader; None when it has to wait for the lock. */
  function ReaderStep(s: State, r: nat, asks: nat): Option<State> {
    match Pc(s, r)
    case Idle => if asks < |s.cells| then Some(s.(readers := s.readers[r := Asking(asks)])) else None
    case Asking(u) =>
      if s.writer then None else Some(s.(sharing := s.sharing + {r}, readers := s.readers[r := Checking(u)]))
    case Checking(u) =>
      Some(s.(readers := s.readers[r := if s.status == POLLING then Printing(u, []) else Refused(u)]))
    case Printing(u, out) =>
      if u >= |s.cells| then None
      else if |out| < |s.cells[u]| then Some(s.(readers := s.readers[r := Printing(u, out + [s.cells[u][|out|]])]))
      else Some(s.(readers := s.readers[r := Printed(u, out)]))
    case Printed(u, out) =>
      Some(s.(sharing := s.sharing - {r}, readers := s.readers[r := Idle],
              reports := s.reports + [Report(r, u, out, |s.installs|)]))
    case Refused(u) => Some(s.(sharing := s.sharing - {r}, readers := s.readers[r := Idle]))
  }

  function NextState(n: nat, s: State, step: Step): Option<State> {
    match step
    case PollerMoves(connected, reply) => PollerStep(n, s, connected, reply)
    case ReaderMoves(r, asks) => ReaderStep(s, r, asks)
  }

  function Start(n: nat): State {
    State(HALTED, seq(n, _ => []), false, {}, WantState(Halt), map[], [], [])
  }

  // ----- what every step keeps

  predicate Writing(pc: PollerPc) {
    pc.Storing? || pc.Stored? || pc.Clearing? || pc.Filling?
  }

  predicate Holding(pc: ReaderPc) {
    pc.Checking? || pc.Printing? || pc.Printed? || pc.Refused?
  }

  function UriOf(pc: PollerPc): Option<nat> {
    match pc
    case WantState(g) => GoalUri(g)
    case Storing(g) => GoalUri(g)
    case Stored(g) => GoalUri(g)
    case Resting => None
    case _ => Some(pc.u)
  }

  function GoalUri(g: Goal): Option<nat> {
    if g.Halt? then None else Some(g.u)
  }

  /** The list being replaced, while it is. */
  predicate Torn(s: State, u: nat) {
    (s.poller.Clearing? || s.poller.Filling?) && s.poller.u == u
  }

  predicate CellsWhole(s: State) {
    forall u :: 0 <= u < |s.cells| && !Torn(s, u) ==> s.cells[u] == Lives(Current(s.installs, u))
  }

  predicate ReaderSound(s: State, pc: ReaderPc) {
    match pc
    case Idle => true
    case Asking(u) => u < |s.cells|
    case Checking(u) => u < |s.cells|
    case Printing(u, out) => u < |s.cells| && s.status == POLLING && out <= Lives(Current(s.installs, u))
    case Printed(u, out) => u < |s.cells| && s.status == POLLING && out == Lives(Current(s.installs, u))
    case Refused(u) => true
  }

  ghost predicate Inv(n: nat, s: State) {
    && |s.cells| == n
    && (s.writer <==> Writing(s.poller))
    && (s.writer ==> s.sharing == {})
    && (forall r: nat :: r in s.sharing <==> Holding(Pc(s, r)))
    && (forall r: nat :: ReaderSound(s, Pc(s, r)))
    && (UriOf(s.poller).Some? ==> UriOf(s.poller).value < n)
    && CellsWhole(s)
    && (s.poller.Filling? ==> s.poller.moved <= |s.poller.list| && s.cells[s.poller.u] == Lives(s.poller.list[..s.poller.moved]))
  }

  function Abstract(s: State): Atomic {
    Atomic(s.status, s.installs, s.reports)
  }

  lemma StartSound(n: nat)
    ensures Inv(n, Start(n))
  {
  }

  lemma CurrentSnoc(installs: seq<Install>, i: Install, u: nat)
    ensures Current(installs + [i], u) == if i.uri == u then i.list else Current(installs, u)
  {
    assert (installs + [i])[..|installs|] == installs;
  }

  lemma LivesSnoc(list: List, k: nat)
    requires k < |list|
    ensures Lives(list[..k + 1]) == Lives(list[..k]) + [Live(list[k])]
  {
  }

  lemma NothingLives()
    ensures Lives([]) == []
  {
  }

  /** The steps that replace a list: node by node out, node by node in, and then it counts as installed. */
  lemma ReplacingKeeps(n: nat, s: State)
    requires Inv(n, s) && (s.poller.Clearing? || s.poller.Filling?)
    ensures var s' := PollerStep(n, s, false, None);
      s'.Some? ==> Inv(n, s'.value) && (Abstract(s'.value) == Abstract(s) || AtomicStep(Abstract(s), Abstract(s'.value)))
  {
    hide Current;
    var r := PollerStep(n, s, false, None);
    if r.Some? {
      var s' := r.value;
      NothingLives();
      assert forall q: nat :: Pc(s', q) == Pc(s, q);
      match s.poller
      case Clearing(u, list, k) =>
        assert list[..0] == [];
      case Filling(u, list, k) =>
        if k < |list| {
          LivesSnoc(list, k);
        } else {
          assert list[..k] == list;
          assert Abstract(s') == Abstract(s).(installs := s.installs + [Install(u, list)]);
          forall v | 0 <= v < |s.cells| ensures s'.cells[v] == Lives(Current(s'.installs, v)) {
            CurrentSnoc(s.installs, Install(u, list), v);
          }
        }
    }
  }

  /** A poller step keeps the invariant; it shows in the atomic cache as nothing, an assignment of the
      state, or the installation of one whole list. */
  lemma PollerKeeps(n: nat, s: State, connected: bool, reply: Option<List>)
    requires Inv(n, s)
    ensures var s' := PollerStep(n, s, connected, reply);
      s'.Some? ==> Inv(n, s'.value) && (Abstract(s'.value) == Abstract(s) || AtomicStep(Abstract(s), Abstract(s'.value)))
  {
    hide Current, Lives;
    var r := PollerStep(n, s, connected, reply);
    if s.poller.Clearing? || s.poller.Filling? {
      ReplacingKeeps(n, s);
    } else if r.Some? {
      var s' := r.value;
      assert forall q: nat :: Pc(s', q) == Pc(s, q);
      if s.poller.Storing? {
        assert Abstract(s') == Abstract(s).(status := StatusOf(s.poller.g));
      }
    }
  }

  /** A reader step keeps the invariant; it shows in the atomic cache as nothing, or as one print of the
      list that is current while the state is POLLING. */
  lemma ReaderKeeps(n: nat, s: State, r: nat, asks: nat)
    requires Inv(n, s)
    ensures var s' := ReaderStep(s, r, asks);
      s'.Some? ==> Inv(n, s'.value) && (Abstract(s'.value) == Abstract(s) || AtomicStep(Abstract(s), Abstract(s'.value)))
  {
    var next := ReaderStep(s, r, asks);
    if next.Some? {
      var s' := next.value;
      forall q: nat ensures (q in s'.sharing <==> Holding(Pc(s', q))) && ReaderSound(s', Pc(s', q)) {
        assert q != r ==> Pc(s', q) == Pc(s, q);
      }
      match Pc(s, r)
      case Printed(u, out) =>
        assert Abstract(s') == Abstract(s).(reports := s.reports + [Report(r, u, Lives(Current(s.installs, u)), |s.installs|)]);
      case _ =>
    }
  }

  // ----- whole runs

  /** A run: the states one after another, each reached by some step of the poller or of a reader. */
  ghost predicate IsRun(n: nat, run: seq<State>) {
    && run != [] && run[0] == Start(n)
    && forall i :: 0 <= i < |run| - 1 ==> Follows(n, run[i], run[i + 1])
  }

  ghost predicate Follows(n: nat, s: State, t: State) {
    exists step :: NextState(n, s, step) == Some(t)
  }

  lemma StepKeeps(n: nat, s: State, t: State)
    requires Inv(n, s) && Follows(n, s, t)
    ensures Inv(n, t) && (Abstract(t) == Abstract(s) || AtomicStep(Abstract(s), Abstract(t)))
  {
    hide Inv, AtomicStep, PollerStep, ReaderStep;
    var step :| NextState(n, s, step) == Some(t);
    match step
    case PollerMoves(connected, reply) => PollerKeeps(n, s, connected, reply);
    case ReaderMoves(r, asks) => ReaderKeeps(n, s, r, asks);
  }

  /** Every interleaving behaves like the atomic cache: each step is one atomic step or none. */
  lemma {:induction false} RunRefinesAtomic(n: nat, run: seq<State>, i: nat)
    requires IsRun(n, run) && i < |run|
    ensures Inv(n, run[i])
    ensures i > 0 ==> Abstract(run[i]) == Abstract(run[i - 1]) || AtomicStep(Abstract(run[i - 1]), Abstract(run[i]))
  {
    hide Inv, AtomicStep, Follows;
    if i == 0 {
      StartSound(n);
    } else {
      RunRefinesAtomic(n, run, i - 1);
      StepKeeps(n, run[i - 1], run[i]);
    }
  }

  /** What a reader prints is the initial empty list or exactly the list of one completed write section:
      the latest for its uri among those completed when it gave the lock back. */
  ghost predicate Snapshot(installs: seq<Install>, rep: Report) {
    && rep.installed <= |installs|
    && rep.out == Lives(Current(installs[..rep.installed], rep.uri))
  }

  lemma {:induction false} EveryReportIsSnapshot(n: nat, run: seq<State>, i: nat, k: nat)
    requires IsRun(n, run) && i < |run| && k < |run[i].reports|
    ensures Snapshot(run[i].installs, run[i].reports[k])
  {
    hide Inv, Follows, Current;
    if i > 0 {
      RunRefinesAtomic(n, run, i);
      var s, t := run[i - 1], run[i];
      if k < |s.reports| {
        EveryReportIsSnapshot(n, run, i - 1, k);
        assert t.reports[k] == s.reports[k] && s.installs <= t.installs;
        var m := s.reports[k].installed;
        assert t.installs[..m] == s.installs[..m];
      } else {
        assert t.installs[..|t.installs|] == t.installs;
      }
    }
  }

  /** The current list is an installed one, unless none was installed for the uri. */
  lemma {:induction false} CurrentWasInstalled(installs: seq<Install>, u: nat)
    ensures (exists j :: 0 <= j < |installs| && installs[j] == Install(u, Current(installs, u))) ||
            (Current(installs, u) == [] && forall j :: 0 <= j < |installs| ==> installs[j].uri != u)
  {
    if installs != [] && installs[|installs| - 1].uri != u {
      CurrentWasInstalled(installs[..|installs| - 1], u);
    } else if installs != [] {
      assert installs[|installs| - 1] == Install(u, Current(installs, u));
    }
  }

  /** While a reader prints, the state is POLLING, its list does not change, and no freed node is met. */
  lemma PrintUndisturbed(n: nat, run: seq<State>, i: nat, r: nat)
    requires IsRun(n, run) && i < |run| && Pc(run[i], r).Printing?
    ensures var s, u, out := run[i], Pc(run[i], r).u, Pc(run[i], r).out;
      && s.status == POLLING && !s.writer && u < |s.cells|
      && s.cells[u] == Lives(Current(s.installs, u)) && out <= s.cells[u]
    ensures i + 1 < |run| ==> run[i + 1].status == POLLING && run[i + 1].cells == run[i].cells
  {
    RunRefinesAtomic(n, run, i);
    assert ReaderSound(run[i], Pc(run[i], r)) && r in run[i].sharing;
    if i + 1 < |run| {
      assert Follows(n, run[i], run[i + 1]);
      var step :| NextState(n, run[i], step) == Some(run[i + 1]);
    }
  }

  // ----- who is refused

  /** In every run a reader is refused only in a state that is not POLLING. */
  lemma RefusedOnlyOutsidePolling(n: nat, run: seq<State>, i: nat, r: nat)
    requires IsRun(n, run) && i + 1 < |run| && Pc(run[i], r).Checking? && Pc(run[i + 1], r).Refused?
    ensures run[i].status != POLLING
  {
    assert Follows(n, run[i], run[i + 1]);
    var step :| NextState(n, run[i], step) == Some(run[i + 1]);
  }

  // ----- that a print comes about

  /** A reader's own steps, with nobody else moving. */
  function Alone(s: State, r: nat, asks: nat, k: nat): Option<State>
    decreases k
  {
    if k == 0 then Some(s)
    else
      match ReaderStep(s, r, asks)
      case None => None
      case Some(s') => Alone(s', r, asks, k - 1)
  }

  lemma {:induction false} PrintsRest(s: State, r: nat, u: nat, out: seq<Slot>)
    requires u < |s.cells| && Pc(s, r) == Printing(u, out) && out <= s.cells[u]
    ensures var done := s.(sharing := s.sharing - {r}, readers := s.readers[r := Idle],
                           reports := s.reports + [Report(r, u, s.cells[u], |s.installs|)]);
      Alone(s, r, u, |s.cells[u]| - |out| + 2) == Some(done)
    decreases |s.cells[u]| - |out|
  {
    var cell := s.cells[u];
    if |out| < |cell| {
      var s' := s.(readers := s.readers[r := Printing(u, out + [cell[|out|]])]);
      PrintsRest(s', r, u, out + [cell[|out|]]);
      assert s'.readers[r := Idle] == s.readers[r := Idle];
    } else {
      assert out == cell;
      var s1 := s.(readers := s.readers[r := Printed(u, out)]);
      var s2 := s1.(sharing := s.sharing - {r}, readers := s1.readers[r := Idle],
                    reports := s.reports + [Report(r, u, out, |s.installs|)]);
      assert Alone(s1, r, u, 1) == Some(s2) && s1.readers[r := Idle] == s.readers[r := Idle];
    }
  }

  /** From every reachable state in which nobody writes and the state is POLLING, an idle reader that asks for a
      uri gets, by its own steps alone, exactly the current list of that uri, and nothing else has changed. */
  lemma ReaderPrints(n: nat, s: State, r: nat, u: nat)
    requires Inv(n, s) && !s.writer && s.status == POLLING && Pc(s, r).Idle? && u < n
    ensures var list := Lives(Current(s.installs, u));
      Alone(s, r, u, |list| + 5) == Some(s.(readers := s.readers[r := Idle],
                                            reports := s.reports + [Report(r, u, list, |s.installs|)]))
  {
    assert !Holding(Pc(s, r)) && r !in s.sharing;
    assert s.cells[u] == Lives(Current(s.installs, u));
    var s1 := s.(readers := s.readers[r := Asking(u)]);
    assert ReaderStep(s, r, u) == Some(s1);
    WaitingPrints(s1, r, u);
    assert s1.readers[r := Idle] == s.readers[r := Idle];
  }

  /** The same for a reader that is waiting for the lock already. */
  lemma WaitingPrints(s: State, r: nat, u: nat)
    requires !s.writer && s.status == POLLING && Pc(s, r) == Asking(u) && u < |s.cells| && r !in s.sharing
    ensures Alone(s, r, u, |s.cells[u]| + 4) == Some(s.(readers := s.readers[r := Idle],
                                                        reports := s.reports + [Report(r, u, s.cells[u], |s.installs|)]))
  {
    hide Lives, Current;
    var s1 := s.(sharing := s.sharing + {r}, readers := s.readers[r := Checking(u)]);
    var s2 := s1.(readers := s1.readers[r := Printing(u, [])]);
    assert ReaderStep(s, r, u) == Some(s1) && ReaderStep(s1, r, u) == Some(s2);
    PrintsRest(s2, r, u, []);
    assert s2.readers[r := Idle] == s.readers[r := Idle] && s2.sharing - {r} == s.sharing;
    assert Alone(s1, r, u, |s.cells[u]| + 3) == Alone(s2, r, u, |s.cells[u]| + 2);
  }

  /** In every reachable state somebody who has the lock, or the poller, can move: no interleaving ends in a deadlock. */
  lemma NoDeadlock(n: nat, s: State, connected: bool, reply: Option<List>)
    requires Inv(n, s)
    ensures PollerStep(n, s, connected, reply).Some? || exists r :: r in s.sharing && ReaderStep(s, r, 0).Some?
  {
    hide Lives, Current;
    if s.sharing != {} {
      var r :| r in s.sharing;
      assert Holding(Pc(s, r)) && ReaderSound(s, Pc(s, r));
      assert ReaderStep(s, r, 0).Some?;
    }
  }

  // ----- that an installation comes about

  /** The poller's own steps, with nobody else moving. */
  function PollerAlone(n: nat, s: State, connected: bool, reply: Option<List>, k: nat): Option<State>
    decreases k
  {
    if k == 0 then Some(s)
    else
      match PollerStep(n, s, connected, reply)
      case None => None
      case Some(s') => PollerAlone(n, s', connected, reply, k - 1)
  }

  lemma {:induction false} PollerJoins(n: nat, s: State, connected: bool, reply: Option<List>, j: nat, k: nat)
    requires PollerAlone(n, s, connected, reply, j).Some?
    ensures PollerAlone(n, s, connected, reply, j + k) ==
            PollerAlone(n, PollerAlone(n, s, connected, reply, j).value, connected, reply, k)
    decreases j
  {
    hide PollerStep;
    if j > 0 {
      PollerJoins(n, PollerStep(n, s, connected, reply).value, connected, reply, j - 1, k);
    }
  }

  lemma {:induction false} Fills(n: nat, s: State, u: nat, list: List, k: nat, connected: bool, reply: Option<List>)
    requires s.poller == Filling(u, list, k) && u < |s.cells| && k <= |list| && s.cells[u] == Lives(list[..k])
    ensures PollerAlone(n, s, connected, reply, |list| - k + 1) ==
            Some(s.(cells := s.cells[u := Lives(list)], writer := false,
                    installs := s.installs + [Install(u, list)], poller := Visit(n, u + 1)))
    decreases |list| - k
  {
    hide Lives;
    if k < |list| {
      LivesSnoc(list, k);
      var s' := s.(cells := s.cells[u := s.cells[u] + [Live(list[k])]], poller := Filling(u, list, k + 1));
      Fills(n, s', u, list, k + 1, connected, reply);
      assert s'.cells[u := Lives(list)] == s.cells[u := Lives(list)];
    } else {
      assert list[..k] == list;
      assert s.cells[u := Lives(list)] == s.cells;
    }
  }

  lemma {:induction false} Clears(n: nat, s: State, u: nat, list: List, k: nat, connected: bool, reply: Option<List>)
    requires s.poller == Clearing(u, list, k) && u < |s.cells| && k <= |s.cells[u]|
    ensures PollerAlone(n, s, connected, reply, |s.cells[u]| - k + 1) ==
            Some(s.(cells := s.cells[u := []], poller := Filling(u, list, 0)))
    decreases |s.cells[u]| - k
  {
    if k < |s.cells[u]| {
      var s' := s.(cells := s.cells[u := s.cells[u][k := Dead]], poller := Clearing(u, list, k + 1));
      Clears(n, s', u, list, k + 1, connected, reply);
      assert s'.cells[u := []] == s.cells[u := []];
    }
  }

  /** From every reachable state in which the poller talks to the server for a uri and no reader holds the lock, a
      reply is installed, whole, by the poller's own steps. */
  lemma ReplyIsInstalled(n: nat, s: State, u: nat, list: List)
    requires Inv(n, s) && s.poller == Talking(u) && s.sharing == {}
    ensures PollerAlone(n, s, true, Some(list), |s.cells[u]| + |list| + 4) ==
            Some(s.(cells := s.cells[u := Lives(list)], installs := s.installs + [Install(u, list)], poller := Visit(n, u + 1)))
  {
    hide Lives, Current;
    NothingLives();
    assert list[..0] == [];
    var s1 := s.(poller := WantInstall(u, list));
    var s2 := s1.(writer := true, poller := Clearing(u, list, 0));
    assert PollerAlone(n, s, true, Some(list), 2) == Some(s2) by {
      assert PollerStep(n, s, true, Some(list)) == Some(s1) && PollerStep(n, s1, true, Some(list)) == Some(s2);
      assert PollerAlone(n, s1, true, Some(list), 1) == Some(s2);
    }
    Clears(n, s2, u, list, 0, true, Some(list));
    var s3 := s2.(cells := s2.cells[u := []], poller := Filling(u, list, 0));
    Fills(n, s3, u, list, 0, true, Some(list));
    PollerJoins(n, s2, true, Some(list), |s.cells[u]| + 1, |list| + 1);
    PollerJoins(n, s, true, Some(list), 2, |s.cells[u]| + |list| + 2);
    assert s3.cells[u := Lives(list)] == s.cells[u := Lives(list)];
  }

  /** Taking the lock, storing the state and giving the lock back. */
  lemma SectionStores(n: nat, s: State, g: Goal, connected: bool, reply: Option<List>)
    requires s.poller == WantState(g) && !s.writer && s.sharing == {} && !g.Halt?
    ensures PollerAlone(n, s, connected, reply, 3) ==
            Some(if g.Conn? then s.(status := CONNECTING, poller := Connecting(g.u)) else s.(status := POLLING, poller := Talking(g.u)))
  {
    var s1 := s.(writer := true, poller := Storing(g));
    var s2 := s1.(status := if g.Conn? then CONNECTING else POLLING, poller := Stored(g));
    assert PollerStep(n, s, connected, reply) == Some(s1) && PollerStep(n, s1, connected, reply) == Some(s2);
    var s3 := PollerStep(n, s2, connected, reply).value;
    assert PollerAlone(n, s2, connected, reply, 1) == Some(s3);
    assert PollerAlone(n, s1, connected, reply, 2) == Some(s3);
  }

  /** From the turn of a uri, a connection attempt that works leads to POLLING and to talking for that very uri. */
  lemma TurnIsTalked(n: nat, s: State, u: nat, reply: Option<List>)
    requires Inv(n, s) && s.poller == WantState(Conn(u)) && s.sharing == {}
    ensures PollerAlone(n, s, true, reply, 7) == Some(s.(status := POLLING, poller := Talking(u)))
  {
    hide Lives, Current;
    var s3 := s.(status := CONNECTING, poller := Connecting(u));
    SectionStores(n, s, Conn(u), true, reply);
    var s4 := s3.(poller := WantState(Poll(u)));
    var s7 := s.(status := POLLING, poller := Talking(u));
    SectionStores(n, s4, Poll(u), true, reply);
    PollerJoins(n, s, true, reply, 3, 4);
    assert PollerAlone(n, s3, true, reply, 4) == Some(s7);
  }

  /** The poller never stops: it starts with the first uri, starts over after a failed connection and after a
      round, and a uri whose server sends nothing to install hands on to the next. */
  lemma PollerGoesOn(n: nat, s: State, connected: bool, reply: Option<List>)
    requires n > 0
    ensures PollerAlone(n, Start(n), connected, reply, 3).Some? &&
            PollerAlone(n, Start(n), connected, reply, 3).value.poller == WantState(Conn(0))
    ensures s.poller == Resting ==> PollerStep(n, s, connected, reply) == Some(s.(poller := WantState(Conn(0))))
    ensures s.poller.Connecting? && !connected ==> PollerStep(n, s, connected, reply) == Some(s.(poller := WantState(Conn(0))))
    ensures s.poller.Talking? && reply == None ==>
            PollerStep(n, s, connected, reply) ==
            Some(s.(poller := if s.poller.u + 1 < n then WantState(Conn(s.poller.u + 1)) else Resting))
  {
    var s0 := Start(n);
    var s1 := PollerStep(n, s0, connected, reply).value;
    var s2 := PollerStep(n, s1, connected, reply).value;
    assert PollerAlone(n, s2, connected, reply, 1) == PollerStep(n, s2, connected, reply);
    assert PollerAlone(n, s1, connected, reply, 2) == PollerAlone(n, s2, connected, reply, 1);
  }

  /** The state tells what the poller is at, in every run: POLLING while it talks and installs, CONNECTING while it connects. */
  predicate StatusFits(s: State) {
    match s.poller
    case Talking(_) => s.status == POLLING
    case WantInstall(_, _) => s.status == POLLING
    case Clearing(_, _, _) => s.status == POLLING
    case Filling(_, _, _) => s.status == POLLING
    case Connecting(_) => s.status == CONNECTING
    case Stored(Halt) => s.status == HALTED
    case Stored(Conn(_)) => s.status == CONNECTING
    case Stored(Poll(_)) => s.status == POLLING
    case _ => true
  }

  lemma {:induction false} StatusAlwaysFits(n: nat, run: seq<State>, i: nat)
    requires IsRun(n, run) && i < |run|
    ensures StatusFits(run[i])
  {
    if i > 0 {
      StatusAlwaysFits(n, run, i - 1);
      assert Follows(n, run[i - 1], run[i]);
      var step :| NextState(n, run[i - 1], step) == Some(run[i]);
      StatusStays(n, run[i - 1], step);
    }
  }

  lemma StatusStays(n: nat, s: State, step: Step)
    requires StatusFits(s) && NextState(n, s, step).Some?
    ensures StatusFits(NextState(n, s, step).value)
  {
  }

  // ----- that a report answers what was asked

  /** A run with its steps written down. */
  ghost predicate IsLabelledRun(n: nat, run: seq<State>, steps: seq<Step>) {
    && |run| == |steps| + 1 && run[0] == Start(n)
    && forall i :: 0 <= i < |steps| ==> NextState(n, run[i], steps[i]) == Some(run[i + 1])
  }

  function UriAsked(pc: ReaderPc): Option<nat> {
    if pc.Idle? then None else Some(pc.u)
  }

  /** Before i, the reader was idle and asked for this uri. */
  ghost predicate AskedBefore(run: seq<State>, steps: seq<Step>, i: nat, r: nat, u: nat)
    requires |run| == |steps| + 1
  {
    exists j :: 0 <= j < i && j < |steps| && steps[j] == ReaderMoves(r, u) && Pc(run[j], r) == Idle
  }

  /** What a reader is at, and what it has reported, is always for a uri that it asked for. */
  lemma {:induction false} ReportsAnswer(n: nat, run: seq<State>, steps: seq<Step>, i: nat, r: nat)
    requires IsLabelledRun(n, run, steps) && i < |run|
    ensures UriAsked(Pc(run[i], r)).Some? ==> AskedBefore(run, steps, i, r, UriAsked(Pc(run[i], r)).value)
    ensures forall k :: 0 <= k < |run[i].reports| && run[i].reports[k].reader == r ==>
              AskedBefore(run, steps, i, r, run[i].reports[k].uri)
  {
    hide AskedBefore, Lives, Current;
    if i > 0 {
      var s, t, step := run[i - 1], run[i], steps[i - 1];
      ReportsAnswer(n, run, steps, i - 1, r);
      assert NextState(n, s, step) == Some(t);
      StillAsked(run, steps, i - 1, r);
      UriKept(n, s, step, r);
      if Pc(s, r).Idle? && !Pc(t, r).Idle? {
        AskedNow(run, steps, i - 1, r, step.asks);
      }
    }
  }

  lemma StillAsked(run: seq<State>, steps: seq<Step>, i: nat, r: nat)
    requires |run| == |steps| + 1 && i < |steps|
    ensures forall u: nat :: AskedBefore(run, steps, i, r, u) ==> AskedBefore(run, steps, i + 1, r, u)
  {
  }

  lemma AskedNow(run: seq<State>, steps: seq<Step>, i: nat, r: nat, u: nat)
    requires |run| == |steps| + 1 && i < |steps| && steps[i] == ReaderMoves(r, u) && Pc(run[i], r) == Idle
    ensures AskedBefore(run, steps, i + 1, r, u)
  {
  }

  /** One step: a reader starts on the uri it asks for, keeps it, and reports it. */
  lemma UriKept(n: nat, s: State, step: Step, r: nat)
    requires NextState(n, s, step).Some?
    ensures var t := NextState(n, s, step).value;
      && (Pc(s, r).Idle? && !Pc(t, r).Idle? ==> step == ReaderMoves(r, UriAsked(Pc(t, r)).value))
      && (!Pc(s, r).Idle? && !Pc(t, r).Idle? ==> UriAsked(Pc(t, r)) == UriAsked(Pc(s, r)))
      && s.reports <= t.reports
      && (forall k :: |s.reports| <= k < |t.reports| && t.reports[k].reader == r ==>
            UriAsked(Pc(s, r)) == Some(t.reports[k].uri))
  {
  }
}
