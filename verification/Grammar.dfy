/** What the configuration file builds: the settings structures and the code behind the grammar actions. */
module Settings {
  import opened CStrings
  import opened Numerals

  const DEFAULT_TIMEOUT_MS := 10000
  const DEFAULT_POLL_FREQ_MS := 5000
  const DEFAULT_WEBPAGE_REFRESH_FREQ_MS := 15000

  datatype Local = Local(
    fronthost: Option<string>, frontport: nat, backhost: Option<string>, backport: nat,
    connectMs: int, readMs: int, writeMs: int, pollfreqMs: int, refreshfreqMs: int,
    reporter: Option<string>)

  /** settings.local after memset. */
  const BLANK := Local(None, 0, None, 0, 0, 0, 0, 0, 0, None)

  datatype Backend = Backend(
    fronthost: string, frontport: nat, backhost: string, backport: nat,
    connectMs: int, readMs: int, writeMs: int, pollfreqMs: int, refreshfreqMs: int,
    reporter: string, uris: seq<string>)

  /** One setting of a proxy-mapping block, with the value its token carries. */
  datatype Stmt = Front(s: string) | Back(s: string) | Timeout(n: nat) | Poll(n: nat) | Refresh(n: nat) | Reporter(s: string)

  /** host2addr finds an address for this name. */
  type Resolver = string -> bool

  /** The start of a block resets the intervals and nothing else. */
  function ResetIntervals(l: Local): Local {
    l.(connectMs := DEFAULT_TIMEOUT_MS, readMs := DEFAULT_TIMEOUT_MS, writeMs := DEFAULT_TIMEOUT_MS,
       pollfreqMs := DEFAULT_POLL_FREQ_MS, refreshfreqMs := DEFAULT_WEBPAGE_REFRESH_FREQ_MS)
  }

  /** `$3 * 1000` in size_t, stored in an int. */
  function Milliseconds(n: nat): int {
    var low := n * 1000 % SIZE_MODULUS % 0x1_0000_0000;
    if low < 0x8000_0000 then low else low - 0x1_0000_0000
  }

  predicate ReporterMode(s: string) {
    s == "off" || s == "view" || s == "modify"
  }

  /** The host and the port of "host:port", or None when there is no colon. */
  function SplitHost(s: string): Option<(string, nat)> {
    var c := CStr(s);
    var i := IndexOf(c, ':');
    if i == |c| then None else Some((c[..i], StrtoulToUint16(c[i + 1..])))
  }

  /** The action of one setting; None is YYABORT. */
  function Apply(l: Local, st: Stmt): Option<Local> {
    match st
    case Front(s) =>
      (match SplitHost(s)
       case None => None
       case Some((host, port)) => Some(l.(fronthost := Some(host), frontport := port)))
    case Back(s) =>
      (match SplitHost(s)
       case None => None
       case Some((host, port)) => Some(l.(backhost := Some(host), backport := port)))
    case Timeout(n) =>
      var ms := Milliseconds(n);
      if ms <= 0 then None else Some(l.(connectMs := ms, readMs := ms, writeMs := ms))
    case Poll(n) =>
      var ms := Milliseconds(n);
      if ms <= 0 then None else Some(l.(pollfreqMs := ms))
    case Refresh(n) =>
      var ms := Milliseconds(n);
      if ms <= 0 then None else Some(l.(refreshfreqMs := ms))
    case Reporter(s) =>
      if ReporterMode(CStr(s)) then Some(l.(reporter := Some(CStr(s)))) else None
  }

  /** The settings of a block taken in order. */
  function ApplyAll(l: Local, sts: seq<Stmt>): Option<Local>
    decreases |sts|
  {
    if sts == [] then Some(l)
    else
      match Apply(l, sts[0])
      case None => None
      case Some(l') => ApplyAll(l', sts[1..])
  }

  /** backend_new and the uri loop of addProxy. No global interval is ever set, so LOCAL_OR_GLOBAL(x)
      is the local value; None is the lookup failure that leaves the process. */
  function BackendNew(resolves: Resolver, l: Local, uris: seq<string>): Option<Backend> {
    if l.backhost.None? || l.fronthost.None? then None
    else if !resolves(l.backhost.value) || !resolves(l.fronthost.value) then None
    else Some(Backend(l.fronthost.value, l.frontport, l.backhost.value, l.backport,
                      l.connectMs, l.readMs, l.writeMs, l.pollfreqMs, l.refreshfreqMs,
                      if l.reporter.Some? then l.reporter.value else "off", uris))
  }
}

/** The grammar: what a token stream makes the parser do, and the configurations it can stand for. */
module Grammar {
  import opened CStrings
  import opened Lexer
  import opened Settings

  /** yyparse returns 0, returns 1, or a syntax error or a failed lookup ends the process; and the backends
      added by then. Those added before YYABORT stay in the settings, and main starts them. */
  datatype Outcome = Accepted(proxies: seq<Backend>) | Aborted(proxies: seq<Backend>) | Exit(proxies: seq<Backend>)

  /** The part of the settings that outlives a block. */
  datatype State = State(local: Local, uris: seq<string>, proxies: seq<Backend>)

  const START := State(BLANK, [], [])

  function StmtOf(k: Kw, v: Token): Option<Stmt> {
    match (k, v)
    case (FRONT_END, Str(s)) => Some(Front(s))
    case (BACK_END, Str(s)) => Some(Back(s))
    case (TIMEOUT, Integer(n)) => Some(Timeout(n))
    case (POLL, Integer(n)) => Some(Poll(n))
    case (REFRESH, Integer(n)) => Some(Refresh(n))
    case (REPORTER, Str(s)) => Some(Reporter(s))
    case _ => None
  }

  function StmtAt(ts: seq<Token>): Option<Stmt> {
    if |ts| >= 4 && ts[0].Keyword? && ts[1] == Punct('=') && ts[3] == Punct(';') then StmtOf(ts[0].k, ts[2]) else None
  }

  predicate StartsStmt(ts: seq<Token>) {
    ts != [] && ts[0].Keyword? && ts[0].k !in {CONFIG, URI, MAPPING}
  }

  /** The action at the end of a block. */
  datatype Closing = Missing | Unresolved | Added(st: State)

  function Close(resolves: Resolver, st: State): Closing {
    if st.local.frontport == 0 || st.local.backport == 0 then Missing
    else
      match BackendNew(resolves, st.local, st.uris)
      case None => Unresolved
      case Some(b) => Added(st.(proxies := st.proxies + [b]))
  }

  function Parse(resolves: Resolver, ts: seq<Token>): Outcome {
    if |ts| >= 2 && ts[0] == Keyword(CONFIG) && ts[1] == Punct('{') then Statements(resolves, ts[2..], START) else Exit([])
  }

  function Statements(resolves: Resolver, ts: seq<Token>, st: State): Outcome
    decreases |ts|
  {
    if |ts| >= 3 && ts[0] == Keyword(URI) && ts[1].Str? && ts[2] == Punct(';') then
      Statements(resolves, ts[3..], st.(uris := st.uris + [CStr(ts[1].s)]))
    else if |ts| >= 2 && ts[0] == Keyword(MAPPING) && ts[1] == Punct('{') then
      Block(resolves, ts[2..], st.(local := ResetIntervals(st.local)))
    else if ts == [Punct('}')] then Accepted(st.proxies)
    else Exit(st.proxies)
  }

  /** Inside a block. A token that starts no setting makes the parser reduce, so the action at the end
      of the block runs before the parser looks whether that token is the closing brace. */
  function Block(resolves: Resolver, ts: seq<Token>, st: State): Outcome
    decreases |ts|
  {
    if StmtAt(ts).Some? then
      match Apply(st.local, StmtAt(ts).value)
      case None => Aborted(st.proxies)
      case Some(l) => Block(resolves, ts[4..], st.(local := l))
    else if StartsStmt(ts) || (ts != [] && ts[0] == TooLarge) then Exit(st.proxies)
    else
      match Close(resolves, st)
      case Missing => Aborted(st.proxies)
      case Unresolved => Exit(st.proxies)
      case Added(st') => if ts != [] && ts[0] == Punct('}') then Statements(resolves, ts[1..], st') else Exit(st'.proxies)
  }

  // ----- configurations as trees

  datatype Item = Uri(s: string) | Mapping(stmts: seq<Stmt>)

  function StmtTokens(st: Stmt): seq<Token> {
    match st
    case Front(s) => [Keyword(FRONT_END), Punct('='), Str(s), Punct(';')]
    case Back(s) => [Keyword(BACK_END), Punct('='), Str(s), Punct(';')]
    case Timeout(n) => [Keyword(TIMEOUT), Punct('='), Integer(n), Punct(';')]
    case Poll(n) => [Keyword(POLL), Punct('='), Integer(n), Punct(';')]
    case Refresh(n) => [Keyword(REFRESH), Punct('='), Integer(n), Punct(';')]
    case Reporter(s) => [Keyword(REPORTER), Punct('='), Str(s), Punct(';')]
  }

  function StmtsTokens(sts: seq<Stmt>): seq<Token> {
    if sts == [] then [] else StmtTokens(sts[0]) + StmtsTokens(sts[1..])
  }

  function ItemsTokens(items: seq<Item>): seq<Token> {
    if items == [] then [] else
      match items[0]
      case Uri(s) => [Keyword(URI), Str(s), Punct(';')] + ItemsTokens(items[1..])
      case Mapping(sts) => [Keyword(MAPPING), Punct('{')] + StmtsTokens(sts) + [Punct('}')] + ItemsTokens(items[1..])
  }

  function ConfigTokens(items: seq<Item>): seq<Token> {
    [Keyword(CONFIG), Punct('{')] + ItemsTokens(items) + [Punct('}')]
  }

  /** What a configuration means, item by item. */
  function Meaning(resolves: Resolver, items: seq<Item>, st: State): Outcome {
    if items == [] then Accepted(st.proxies) else
      match items[0]
      case Uri(s) => Meaning(resolves, items[1..], st.(uris := st.uris + [CStr(s)]))
      case Mapping(sts) =>
        match ApplyAll(ResetIntervals(st.local), sts)
        case None => Aborted(st.proxies)
        case Some(l) =>
          match Close(resolves, st.(local := l))
          case Missing => Aborted(st.proxies)
          case Unresolved => Exit(st.proxies)
          case Added(st') => Meaning(resolves, items[1..], st')
  }

  /** Parsing the tokens of any configuration does what the configuration means. */
  lemma ParseMeans(resolves: Resolver, items: seq<Item>)
    ensures Parse(resolves, ConfigTokens(items)) == Meaning(resolves, items, START)
  {
    assert ConfigTokens(items)[2..] == ItemsTokens(items) + [Punct('}')];
    StatementsMean(resolves, items, START);
  }

  lemma {:induction false} StatementsMean(resolves: Resolver, items: seq<Item>, st: State)
    ensures Statements(resolves, ItemsTokens(items) + [Punct('}')], st) == Meaning(resolves, items, st)
  {
    hide StmtsTokens, ApplyAll, Close, CStr;
    var ts := ItemsTokens(items) + [Punct('}')];
    if items == [] {
      assert ts == [Punct('}')];
    } else {
      var rest := ItemsTokens(items[1..]) + [Punct('}')];
      match items[0]
      case Uri(s) =>
        assert ts == [Keyword(URI), Str(s), Punct(';')] + rest;
        assert ts[3..] == rest;
        StatementsMean(resolves, items[1..], st.(uris := st.uris + [CStr(s)]));
      case Mapping(sts) =>
        assert ts == [Keyword(MAPPING), Punct('{')] + (StmtsTokens(sts) + ([Punct('}')] + rest));
        assert ts[2..] == StmtsTokens(sts) + ([Punct('}')] + rest);
        var st' := st.(local := ResetIntervals(st.local));
        BlockMeans(resolves, sts, [Punct('}')] + rest, st');
        var l := ApplyAll(st'.local, sts);
        if l.Some? {
          assert st'.(local := l.value) == st.(local := l.value);
          assert ([Punct('}')] + rest)[1..] == rest;
          var c := Close(resolves, st.(local := l.value));
          if c.Added? {
            StatementsMean(resolves, items[1..], c.st);
          }
        }
    }
  }

  lemma {:induction false} BlockMeans(resolves: Resolver, sts: seq<Stmt>, rest: seq<Token>, st: State)
    ensures Block(resolves, StmtsTokens(sts) + rest, st) ==
      match ApplyAll(st.local, sts)
      case None => Aborted(st.proxies)
      case Some(l) => Block(resolves, rest, st.(local := l))
  {
    var ts := StmtsTokens(sts) + rest;
    if sts == [] {
      assert ts == rest;
    } else {
      var tail := StmtsTokens(sts[1..]) + rest;
      assert ts == StmtTokens(sts[0]) + tail;
      assert ts[..4] == StmtTokens(sts[0]) && ts[4..] == tail;
      assert StmtAt(ts) == Some(sts[0]);
      var l := Apply(st.local, sts[0]);
      if l.Some? {
        BlockMeans(resolves, sts[1..], rest, st.(local := l.value));
      }
    }
  }

  /** Nothing else is accepted: an accepted token stream is the printed form of a configuration. */
  lemma AcceptedIsConfig(resolves: Resolver, ts: seq<Token>)
    requires Parse(resolves, ts).Accepted?
    ensures exists items :: ts == ConfigTokens(items) && Parse(resolves, ts) == Meaning(resolves, items, START)
  {
    var items := StatementsReadBack(resolves, ts[2..], START);
    assert ts == ConfigTokens(items);
    ParseMeans(resolves, items);
  }

  lemma {:induction false} StatementsReadBack(resolves: Resolver, ts: seq<Token>, st: State) returns (items: seq<Item>)
    requires Statements(resolves, ts, st).Accepted?
    ensures ts == ItemsTokens(items) + [Punct('}')]
    decreases |ts|
  {
    hide Block, StmtsTokens, CStr;
    if ts == [Punct('}')] {
      items := [];
    } else if ts[0] == Keyword(URI) {
      var more := StatementsReadBack(resolves, ts[3..], st.(uris := st.uris + [CStr(ts[1].s)]));
      items := [Uri(ts[1].s)] + more;
      assert items[1..] == more;
    } else {
      var sts, more := BlockReadBack(resolves, ts[2..], st.(local := ResetIntervals(st.local)));
      items := [Mapping(sts)] + more;
      assert items[1..] == more;
    }
  }

  lemma StmtTokensAt(ts: seq<Token>)
    requires StmtAt(ts).Some?
    ensures ts[..4] == StmtTokens(StmtAt(ts).value) && ts == StmtTokens(StmtAt(ts).value) + ts[4..]
  {
  }

  lemma {:induction false} BlockReadBack(resolves: Resolver, ts: seq<Token>, st: State)
    returns (sts: seq<Stmt>, items: seq<Item>)
    requires Block(resolves, ts, st).Accepted?
    ensures ts == StmtsTokens(sts) + ([Punct('}')] + (ItemsTokens(items) + [Punct('}')]))
    decreases |ts|
  {
    hide Close, Apply;
    var stmt := StmtAt(ts);
    if stmt.Some? {
      var more;
      more, items := BlockReadBack(resolves, ts[4..], st.(local := Apply(st.local, stmt.value).value));
      sts := [stmt.value] + more;
      var tail := [Punct('}')] + (ItemsTokens(items) + [Punct('}')]);
      assert sts[1..] == more;
      StmtTokensAt(ts);
      assert ts == StmtTokens(stmt.value) + (StmtsTokens(more) + tail);
      assert StmtTokens(stmt.value) + (StmtsTokens(more) + tail) == StmtTokens(stmt.value) + StmtsTokens(more) + tail;
    } else {
      sts := [];
      items := StatementsReadBack(resolves, ts[1..], Close(resolves, st).st);
      var rest := ItemsTokens(items) + [Punct('}')];
      assert ts == [Punct('}')] + rest;
      assert StmtsTokens(sts) + ([Punct('}')] + rest) == [Punct('}')] + rest;
    }
  }

  // ----- what every backend satisfies

  predicate Sound(b: Backend) {
    && 0 < b.frontport < 0x1_0000 && 0 < b.backport < 0x1_0000
    && ReporterMode(b.reporter)
    && b.connectMs == b.readMs == b.writeMs && 0 < b.connectMs < 0x8000_0000
    && 0 < b.pollfreqMs < 0x8000_0000 && 0 < b.refreshfreqMs < 0x8000_0000
  }

  predicate SoundLocal(l: Local) {
    && l.frontport < 0x1_0000 && l.backport < 0x1_0000
    && (l.reporter.Some? ==> ReporterMode(l.reporter.value))
    && l.connectMs == l.readMs == l.writeMs && 0 < l.connectMs < 0x8000_0000
    && 0 < l.pollfreqMs < 0x8000_0000 && 0 < l.refreshfreqMs < 0x8000_0000
  }

  /** For every token stream, accepted, refused or broken off, every backend ever added is sound. */
  lemma EveryBackendSound(resolves: Resolver, ts: seq<Token>)
    ensures forall b :: b in Parse(resolves, ts).proxies ==> Sound(b)
  {
    if |ts| >= 2 && ts[0] == Keyword(CONFIG) && ts[1] == Punct('{') {
      StatementsSound(resolves, ts[2..], START);
    }
  }

  lemma {:induction false} StatementsSound(resolves: Resolver, ts: seq<Token>, st: State)
    requires st.local == BLANK || SoundLocal(st.local)
    requires forall b :: b in st.proxies ==> Sound(b)
    ensures forall b :: b in Statements(resolves, ts, st).proxies ==> Sound(b)
    decreases |ts|
  {
    if |ts| >= 3 && ts[0] == Keyword(URI) && ts[1].Str? && ts[2] == Punct(';') {
      StatementsSound(resolves, ts[3..], st.(uris := st.uris + [CStr(ts[1].s)]));
    } else if |ts| >= 2 && ts[0] == Keyword(MAPPING) && ts[1] == Punct('{') {
      BlockSound(resolves, ts[2..], st.(local := ResetIntervals(st.local)));
    }
  }

  lemma {:induction false} BlockSound(resolves: Resolver, ts: seq<Token>, st: State)
    requires SoundLocal(st.local)
    requires forall b :: b in st.proxies ==> Sound(b)
    ensures forall b :: b in Block(resolves, ts, st).proxies ==> Sound(b)
    decreases |ts|
  {
    if StmtAt(ts).Some? {
      var l := Apply(st.local, StmtAt(ts).value);
      if l.Some? {
        BlockSound(resolves, ts[4..], st.(local := l.value));
      }
    } else {
      var c := Close(resolves, st);
      if c.Added? && ts != [] && ts[0] == Punct('}') {
        StatementsSound(resolves, ts[1..], c.st);
      }
    }
  }

  // ----- which of several interval settings counts

  function SecondsOf(st: Stmt, k: Kw): Option<nat> {
    match st
    case Timeout(n) => if k == TIMEOUT then Some(n) else None
    case Poll(n) => if k == POLL then Some(n) else None
    case Refresh(n) => if k == REFRESH then Some(n) else None
    case _ => None
  }

  function LastSeconds(sts: seq<Stmt>, k: Kw): Option<nat> {
    if sts == [] then None
    else if SecondsOf(sts[|sts| - 1], k).Some? then SecondsOf(sts[|sts| - 1], k)
    else LastSeconds(sts[..|sts| - 1], k)
  }

  function Interval(sts: seq<Stmt>, k: Kw, otherwise: int): int {
    match LastSeconds(sts, k)
    case Some(n) => Milliseconds(n)
    case None => otherwise
  }

  predicate IntervalsFrom(l: Local, sts: seq<Stmt>) {
    && l.connectMs == l.readMs == l.writeMs == Interval(sts, TIMEOUT, DEFAULT_TIMEOUT_MS)
    && l.pollfreqMs == Interval(sts, POLL, DEFAULT_POLL_FREQ_MS)
    && l.refreshfreqMs == Interval(sts, REFRESH, DEFAULT_WEBPAGE_REFRESH_FREQ_MS)
  }

  /** Whatever else a block holds, each interval comes from its last setting, or from the default. */
  lemma {:induction false} LastIntervalCounts(l: Local, sts: seq<Stmt>)
    requires ApplyAll(ResetIntervals(l), sts).Some?
    ensures IntervalsFrom(ApplyAll(ResetIntervals(l), sts).value, sts)
  {
    hide Apply;
    if sts != [] {
      hide IntervalsFrom, ApplyAll;
      var init, last := sts[..|sts| - 1], sts[|sts| - 1];
      assert sts == init + [last];
      ApplyAllSnoc(ResetIntervals(l), init, last);
      LastIntervalCounts(l, init);
      IntervalStep(ApplyAll(ResetIntervals(l), init).value, init, last);
    }
  }

  lemma IntervalStep(l: Local, sts: seq<Stmt>, st: Stmt)
    requires IntervalsFrom(l, sts) && Apply(l, st).Some?
    ensures IntervalsFrom(Apply(l, st).value, sts + [st])
  {
    hide Milliseconds, SplitHost, ReporterMode, Interval, CStr;
    IntervalSnoc(sts, st, TIMEOUT, DEFAULT_TIMEOUT_MS);
    IntervalSnoc(sts, st, POLL, DEFAULT_POLL_FREQ_MS);
    IntervalSnoc(sts, st, REFRESH, DEFAULT_WEBPAGE_REFRESH_FREQ_MS);
  }

  lemma IntervalSnoc(sts: seq<Stmt>, st: Stmt, k: Kw, otherwise: int)
    ensures Interval(sts + [st], k, otherwise) ==
            match SecondsOf(st, k) case Some(n) => Milliseconds(n) case None => Interval(sts, k, otherwise)
  {
    hide Milliseconds;
    assert (sts + [st])[..|sts|] == sts;
  }

  lemma {:induction false} ApplyAllSnoc(l: Local, sts: seq<Stmt>, st: Stmt)
    ensures ApplyAll(l, sts + [st]) == match ApplyAll(l, sts) case None => None case Some(l') => Apply(l', st)
    decreases |sts|
  {
    hide Apply;
    if sts == [] {
      assert (sts + [st])[1..] == [];
    } else {
      assert (sts + [st])[1..] == sts[1..] + [st];
      var l' := Apply(l, sts[0]);
      if l'.Some? {
        ApplyAllSnoc(l'.value, sts[1..], st);
      }
    }
  }

  // ----- where every backend comes from

  predicate BlockIntervals(b: Backend, sts: seq<Stmt>) {
    && b.connectMs == b.readMs == b.writeMs == Interval(sts, TIMEOUT, DEFAULT_TIMEOUT_MS)
    && b.pollfreqMs == Interval(sts, POLL, DEFAULT_POLL_FREQ_MS)
    && b.refreshfreqMs == Interval(sts, REFRESH, DEFAULT_WEBPAGE_REFRESH_FREQ_MS)
  }

  function BlockStart(sts: seq<Stmt>): seq<Token> {
    [Keyword(MAPPING), Punct('{')] + StmtsTokens(sts)
  }

  /** At i the stream opens a block with exactly these settings; if closed, the brace is behind them. */
  ghost predicate BlockStands(ts: seq<Token>, i: nat, sts: seq<Stmt>, closed: bool) {
    var j := i + |BlockStart(sts)|;
    && j <= |ts| && ts[i..j] == BlockStart(sts) && StmtAt(ts[j..]) == None
    && (closed ==> j < |ts| && ts[j] == Punct('}'))
  }

  ghost predicate FromBlock(b: Backend, ts: seq<Token>, closed: bool) {
    exists i: nat, sts :: BlockStands(ts, i, sts, closed) && BlockIntervals(b, sts)
  }

  /** Only the last backend of a run that ends the process may come from a block that was never closed. */
  ghost predicate AllFromBlocks(o: Outcome, ts: seq<Token>) {
    forall k :: 0 <= k < |o.proxies| ==> FromBlock(o.proxies[k], ts, !o.Exit? || k < |o.proxies| - 1)
  }

  /** For every token stream, every backend ever added has the intervals of a block of that stream: of its last
      setting of each kind, or the default. */
  lemma EveryBackendFromBlock(resolves: Resolver, ts: seq<Token>)
    ensures AllFromBlocks(Parse(resolves, ts), ts)
  {
    if |ts| >= 2 && ts[0] == Keyword(CONFIG) && ts[1] == Punct('{') {
      StatementsFromBlocks(resolves, ts, 2, START);
    }
  }

  lemma {:induction false} StatementsFromBlocks(resolves: Resolver, full: seq<Token>, n: nat, st: State)
    requires n <= |full|
    requires forall b :: b in st.proxies ==> FromBlock(b, full, true)
    ensures AllFromBlocks(Statements(resolves, full[n..], st), full)
    decreases |full| - n
  {
    hide Block, FromBlock, CStr;
    var ts := full[n..];
    ClosedIsEnough(full);
    if |ts| >= 3 && ts[0] == Keyword(URI) && ts[1].Str? && ts[2] == Punct(';') {
      assert ts[3..] == full[n + 3..];
      StatementsFromBlocks(resolves, full, n + 3, st.(uris := st.uris + [CStr(ts[1].s)]));
    } else if |ts| >= 2 && ts[0] == Keyword(MAPPING) && ts[1] == Punct('{') {
      assert ts[2..] == full[n + 2..];
      var st' := st.(local := ResetIntervals(st.local));
      FreshIntervals(st.local);
      assert full[n..n + 2] == BlockStart([]);
      BlockFromBlocks(resolves, full, n, [], st');
    }
  }

  /** Inside the block that opened at i, with these settings taken already. */
  lemma {:induction false} BlockFromBlocks(resolves: Resolver, full: seq<Token>, i: nat, sts: seq<Stmt>, st: State)
    requires i + |BlockStart(sts)| <= |full| && full[i..i + |BlockStart(sts)|] == BlockStart(sts)
    requires IntervalsFrom(st.local, sts)
    requires forall b :: b in st.proxies ==> FromBlock(b, full, true)
    ensures AllFromBlocks(Block(resolves, full[i + |BlockStart(sts)|..], st), full)
    decreases |full| - i - |BlockStart(sts)|
  {
    hide BlockStart, IntervalsFrom, Statements, Apply, StmtOf, FromBlock;
    var n := i + |BlockStart(sts)|;
    var ts := full[n..];
    ClosedIsEnough(full);
    if StmtAt(ts).Some? {
      var stmt := StmtAt(ts).value;
      var l := Apply(st.local, stmt);
      if l.Some? {
        BlockStartSnoc(full, i, sts);
        IntervalStep(st.local, sts, stmt);
        assert ts[4..] == full[n + 4..];
        BlockFromBlocks(resolves, full, i, sts + [stmt], st.(local := l.value));
      }
    } else {
      var c := Close(resolves, st);
      if c.Added? {
        var b := c.st.proxies[|st.proxies|];
        AddedFromBlock(full, i, sts, resolves, st, b);
        if ts != [] && ts[0] == Punct('}') {
          assert ts[1..] == full[n + 1..];
          StatementsFromBlocks(resolves, full, n + 1, c.st);
        }
      }
    }
  }

  lemma FreshIntervals(l: Local)
    ensures IntervalsFrom(ResetIntervals(l), [])
  {
  }

  lemma ClosedIsEnough(ts: seq<Token>)
    ensures forall b :: FromBlock(b, ts, true) ==> FromBlock(b, ts, false)
  {
    forall b | FromBlock(b, ts, true) ensures FromBlock(b, ts, false) {
      var i: nat, sts :| BlockStands(ts, i, sts, true) && BlockIntervals(b, sts);
      assert BlockStands(ts, i, sts, false);
    }
  }

  lemma {:induction false} StmtsTokensSnoc(sts: seq<Stmt>, stmt: Stmt)
    ensures StmtsTokens(sts + [stmt]) == StmtsTokens(sts) + StmtTokens(stmt)
  {
    hide StmtTokens;
    if sts == [] {
      assert [stmt][1..] == [];
      assert StmtsTokens([stmt]) == StmtTokens(stmt) + StmtsTokens([]);
    } else {
      assert (sts + [stmt])[1..] == sts[1..] + [stmt];
      StmtsTokensSnoc(sts[1..], stmt);
    }
  }

  /** One more setting behind those of the block. */
  lemma BlockStartSnoc(full: seq<Token>, i: nat, sts: seq<Stmt>)
    requires i + |BlockStart(sts)| <= |full| && full[i..i + |BlockStart(sts)|] == BlockStart(sts)
    requires StmtAt(full[i + |BlockStart(sts)|..]).Some?
    ensures var stmt := StmtAt(full[i + |BlockStart(sts)|..]).value;
      var n := |BlockStart(sts)| + 4;
      |BlockStart(sts + [stmt])| == n && i + n <= |full| && full[i..i + n] == BlockStart(sts + [stmt])
  {
    hide StmtsTokens, StmtTokens;
    var j := i + |BlockStart(sts)|;
    var ts := full[j..];
    var stmt := StmtAt(ts).value;
    StmtTokensAt(ts);
    StmtsTokensSnoc(sts, stmt);
    assert ts[..4] == full[j..j + 4];
    assert full[i..j + 4] == full[i..j] + full[j..j + 4];
  }

  lemma AddedFromBlock(full: seq<Token>, i: nat, sts: seq<Stmt>, resolves: Resolver, st: State, b: Backend)
    requires i + |BlockStart(sts)| <= |full| && full[i..i + |BlockStart(sts)|] == BlockStart(sts)
    requires StmtAt(full[i + |BlockStart(sts)|..]) == None
    requires IntervalsFrom(st.local, sts)
    requires Close(resolves, st).Added?
    requires b == Close(resolves, st).st.proxies[|st.proxies|]
    ensures var j := i + |BlockStart(sts)|; FromBlock(b, full, j < |full| && full[j] == Punct('}'))
  {
    hide StmtAt, BlockStart, Interval;
    var j := i + |BlockStart(sts)|;
    assert BlockStands(full, i, sts, j < |full| && full[j] == Punct('}'));
    assert BlockIntervals(b, sts);
  }
}
