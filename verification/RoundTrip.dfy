/** Configurations as an administrator thinks of them, and the theorem that writing one down and
    starting the proxy with it builds exactly the backends it describes. */
module RoundTrip {
  import opened CStrings
  import opened Numerals
  import opened Lexer
  import opened Settings
  import opened Grammar
  import opened Spelling

  datatype Setting =
    | FrontEnd(host: string, port: nat)
    | BackEnd(host: string, port: nat)
    | TimeoutSecs(n: nat)
    | PollSecs(n: nat)
    | RefreshSecs(n: nat)
    | ReporterIs(mode: string)

  datatype Section = GlobalUri(uri: string) | ProxyMapping(settings: seq<Setting>)

  const MAX_SECONDS := 2147483 // the last whole number of seconds whose milliseconds fit an int

  predicate GoodHost(host: string, port: nat) {
    NulFree(host) && ':' !in host && 1 <= port < 0x1_0000
  }

  predicate GoodSetting(s: Setting) {
    match s
    case FrontEnd(host, port) => GoodHost(host, port)
    case BackEnd(host, port) => GoodHost(host, port)
    case TimeoutSecs(n) => 1 <= n <= MAX_SECONDS
    case PollSecs(n) => 1 <= n <= MAX_SECONDS
    case RefreshSecs(n) => 1 <= n <= MAX_SECONDS
    case ReporterIs(mode) => ReporterMode(mode)
  }

  function HostPort(host: string, port: nat): string {
    host + ":" + Decimal(port)
  }

  function Written(s: Setting): Stmt {
    match s
    case FrontEnd(host, port) => Front(HostPort(host, port))
    case BackEnd(host, port) => Back(HostPort(host, port))
    case TimeoutSecs(n) => Timeout(n)
    case PollSecs(n) => Poll(n)
    case RefreshSecs(n) => Refresh(n)
    case ReporterIs(mode) => Reporter(mode)
  }

  function WrittenAll(ss: seq<Setting>): seq<Stmt> {
    seq(|ss|, i requires 0 <= i < |ss| => Written(ss[i]))
  }

  function WrittenConfig(cfg: seq<Section>): seq<Item> {
    seq(|cfg|, i requires 0 <= i < |cfg| =>
      match cfg[i]
      case GlobalUri(u) => Uri(u)
      case ProxyMapping(ss) => Mapping(WrittenAll(ss)))
  }

  // ----- what a block describes: the last setting of each kind, whatever the order

  function FrontOf(ss: seq<Setting>): Option<(string, nat)> {
    if ss == [] then None
    else if ss[|ss| - 1].FrontEnd? then Some((ss[|ss| - 1].host, ss[|ss| - 1].port)) else FrontOf(ss[..|ss| - 1])
  }

  function BackOf(ss: seq<Setting>): Option<(string, nat)> {
    if ss == [] then None
    else if ss[|ss| - 1].BackEnd? then Some((ss[|ss| - 1].host, ss[|ss| - 1].port)) else BackOf(ss[..|ss| - 1])
  }

  function TimeoutOf(ss: seq<Setting>): int {
    if ss == [] then DEFAULT_TIMEOUT_MS
    else if ss[|ss| - 1].TimeoutSecs? then 1000 * ss[|ss| - 1].n else TimeoutOf(ss[..|ss| - 1])
  }

  function PollOf(ss: seq<Setting>): int {
    if ss == [] then DEFAULT_POLL_FREQ_MS
    else if ss[|ss| - 1].PollSecs? then 1000 * ss[|ss| - 1].n else PollOf(ss[..|ss| - 1])
  }

  function RefreshOf(ss: seq<Setting>): int {
    if ss == [] then DEFAULT_WEBPAGE_REFRESH_FREQ_MS
    else if ss[|ss| - 1].RefreshSecs? then 1000 * ss[|ss| - 1].n else RefreshOf(ss[..|ss| - 1])
  }

  function ModeOf(ss: seq<Setting>): Option<string> {
    if ss == [] then None
    else if ss[|ss| - 1].ReporterIs? then Some(ss[|ss| - 1].mode) else ModeOf(ss[..|ss| - 1])
  }

  /** What a block inherits from the blocks before it: hosts, ports and the reporter mode, last ones first. */
  datatype Carried = Carried(front: Option<(string, nat)>, back: Option<(string, nat)>, mode: Option<string>)

  const NOTHING := Carried(None, None, None)

  function Carry(c: Carried, ss: seq<Setting>): Carried {
    Carried(if FrontOf(ss).Some? then FrontOf(ss) else c.front,
            if BackOf(ss).Some? then BackOf(ss) else c.back,
            if ModeOf(ss).Some? then ModeOf(ss) else c.mode)
  }

  predicate GoodSettings(ss: seq<Setting>) {
    forall i :: 0 <= i < |ss| ==> GoodSetting(ss[i])
  }

  /** With what it inherits, the block has a front end and a back end, and their hosts resolve. */
  predicate GoodBlock(ss: seq<Setting>, c: Carried, resolves: Resolver) {
    var own := Carry(c, ss);
    && GoodSettings(ss)
    && own.front.Some? && own.back.Some?
    && resolves(own.front.value.0) && resolves(own.back.value.0)
  }

  predicate GoodConfig(cfg: seq<Section>, c: Carried, resolves: Resolver) {
    cfg == [] ||
    match cfg[0]
    case GlobalUri(u) => NulFree(u) && GoodConfig(cfg[1..], c, resolves)
    case ProxyMapping(ss) => GoodBlock(ss, c, resolves) && GoodConfig(cfg[1..], Carry(c, ss), resolves)
  }

  function Described(ss: seq<Setting>, c: Carried, uris: seq<string>): Backend
    requires Carry(c, ss).front.Some? && Carry(c, ss).back.Some?
  {
    var own := Carry(c, ss);
    Backend(own.front.value.0, own.front.value.1, own.back.value.0, own.back.value.1,
            TimeoutOf(ss), TimeoutOf(ss), TimeoutOf(ss), PollOf(ss), RefreshOf(ss),
            if own.mode.Some? then own.mode.value else "off", uris)
  }

  /** One backend per block, in order, each with the global uris that came before it. */
  function DescribedAll(cfg: seq<Section>, c: Carried, uris: seq<string>, resolves: Resolver): seq<Backend>
    requires GoodConfig(cfg, c, resolves)
  {
    if cfg == [] then [] else
      match cfg[0]
      case GlobalUri(u) => DescribedAll(cfg[1..], c, uris + [u], resolves)
      case ProxyMapping(ss) => [Described(ss, c, uris)] + DescribedAll(cfg[1..], Carry(c, ss), uris, resolves)
  }

  // ----- the arithmetic of one setting

  /** Seconds become milliseconds exactly up to the largest int; beyond it the product wraps. */
  lemma MillisecondsExact(n: nat)
    ensures Milliseconds(n) == 1000 * n <==> n <= MAX_SECONDS
  {
  }

  /** The wrapped value can even be small and positive, and is then accepted. */
  lemma WrappedTimeoutAccepted(l: Local)
    ensures Apply(l, Timeout(4294968)) == Some(l.(connectMs := 704, readMs := 704, writeMs := 704))
  {
  }

  /** Whatever stands behind the first colon is what strtoul reads: a port that does not fit sixteen bits wraps. */
  lemma FirstColonSplits(host: string, rest: string)
    requires NulFree(host) && ':' !in host && NulFree(rest)
    ensures SplitHost(host + ":" + rest) == Some((host, StrtoulToUint16(rest)))
  {
    hide StrtoulToUint16;
    var s := host + ":" + rest;
    CStrIs(s, s);
    IndexOfIs(s, ':', |host|);
    assert s[..|host|] == host && s[|host| + 1..] == rest;
  }

  lemma HostPortSplits(host: string, port: nat)
    requires GoodHost(host, port)
    ensures SplitHost(HostPort(host, port)) == Some((host, port))
  {
    hide SplitHost, StrtoulToUint16, Decimal;
    FirstColonSplits(host, Decimal(port));
    assert "" + "" + Decimal(port) + "" == Decimal(port);
    StrtoulOfNumber("", "", port, "");
  }

  // ----- a block, wherever its local settings started

  function After(l: Local, ss: seq<Setting>): Local {
    var front, back, mode := FrontOf(ss), BackOf(ss), ModeOf(ss);
    var l1 := if front.Some? then l.(fronthost := Some(front.value.0), frontport := front.value.1) else l;
    var l2 := if back.Some? then l1.(backhost := Some(back.value.0), backport := back.value.1) else l1;
    var l3 := if mode.Some? then l2.(reporter := mode) else l2;
    l3.(connectMs := TimeoutOf(ss), readMs := TimeoutOf(ss), writeMs := TimeoutOf(ss),
        pollfreqMs := PollOf(ss), refreshfreqMs := RefreshOf(ss))
  }

  lemma {:induction false} BlockApplies(l: Local, ss: seq<Setting>)
    requires GoodSettings(ss)
    ensures ApplyAll(ResetIntervals(l), WrittenAll(ss)) == Some(After(ResetIntervals(l), ss))
  {
    if ss == [] {
      assert WrittenAll(ss) == [];
    } else {
      hide After, Apply, ApplyAll, WrittenAll, GoodSetting;
      var init, last := ss[..|ss| - 1], ss[|ss| - 1];
      BlockApplies(l, init);
      WrittenSnoc(ss);
      ApplyAllSnoc(ResetIntervals(l), WrittenAll(init), Written(last));
      SettingApplies(ResetIntervals(l), ss);
    }
  }

  lemma WrittenSnoc(ss: seq<Setting>)
    requires ss != []
    ensures WrittenAll(ss) == WrittenAll(ss[..|ss| - 1]) + [Written(ss[|ss| - 1])]
  {
  }

  lemma SettingApplies(l: Local, ss: seq<Setting>)
    requires ss != [] && GoodSetting(ss[|ss| - 1])
    ensures Apply(After(l, ss[..|ss| - 1]), Written(ss[|ss| - 1])) == Some(After(l, ss))
  {
    hide SplitHost, HostPort, Milliseconds;
    var last := ss[|ss| - 1];
    match last
    case FrontEnd(host, port) => HostPortSplits(host, port);
    case BackEnd(host, port) => HostPortSplits(host, port);
    case TimeoutSecs(n) => MillisecondsExact(n);
    case PollSecs(n) => MillisecondsExact(n);
    case RefreshSecs(n) => MillisecondsExact(n);
    case ReporterIs(mode) => CStrIs(mode, mode);
  }

  /** The effect of a whole block, wherever the local settings stood before it. */
  function BlockEffect(l: Local, ss: seq<Setting>): Option<Local> {
    ApplyAll(ResetIntervals(l), WrittenAll(ss))
  }

  /** A block is free of the blocks before it if and only if it gives a front end, a back end and a reporter. */
  lemma CarriesNothingExactly(ss: seq<Setting>)
    requires GoodSettings(ss)
    ensures (forall l, m :: BlockEffect(l, ss) == BlockEffect(m, ss)) <==>
            FrontOf(ss).Some? && BackOf(ss).Some? && ModeOf(ss).Some?
  {
    hide ApplyAll, FrontOf, BackOf, ModeOf, TimeoutOf, PollOf, RefreshOf, GoodSettings;
    forall l ensures BlockEffect(l, ss) == Some(After(ResetIntervals(l), ss)) {
      BlockApplies(l, ss);
    }
    var l, m := BLANK, BLANK.(frontport := 1, backport := 1, reporter := Some("off"));
    assert BlockEffect(l, ss) == BlockEffect(m, ss) ==> FrontOf(ss).Some? && BackOf(ss).Some? && ModeOf(ss).Some?;
  }

  /** An empty block right after another builds a second backend with the hosts, ports and mode of the first. */
  lemma EmptyBlockInherits(resolves: Resolver, ss: seq<Setting>)
    requires GoodBlock(ss, NOTHING, resolves)
    ensures var cfg := [ProxyMapping(ss), ProxyMapping([])];
      var b := Described(ss, NOTHING, []);
      && GoodConfig(cfg, NOTHING, resolves)
      && DescribedAll(cfg, NOTHING, [], resolves) ==
         [b, b.(connectMs := DEFAULT_TIMEOUT_MS, readMs := DEFAULT_TIMEOUT_MS, writeMs := DEFAULT_TIMEOUT_MS,
                pollfreqMs := DEFAULT_POLL_FREQ_MS, refreshfreqMs := DEFAULT_WEBPAGE_REFRESH_FREQ_MS)]
  {
    var first, second := ProxyMapping(ss), ProxyMapping([]);
    var c := Carry(NOTHING, ss);
    assert [first, second][1..] == [second] && [second][1..] == [];
    assert Carry(c, []) == c;
    assert GoodBlock([], c, resolves);
    assert GoodConfig([second], c, resolves);
    assert DescribedAll([second], c, [], resolves) == [Described([], c, [])];
  }

  // ----- from block to block

  /** The local settings hold what is carried over, and nothing else. */
  predicate Holds(l: Local, c: Carried) {
    && l.fronthost == (if c.front.Some? then Some(c.front.value.0) else None)
    && l.frontport == (if c.front.Some? then c.front.value.1 else 0)
    && l.backhost == (if c.back.Some? then Some(c.back.value.0) else None)
    && l.backport == (if c.back.Some? then c.back.value.1 else 0)
    && l.reporter == c.mode
    && (c.front.Some? ==> c.front.value.1 > 0) && (c.back.Some? ==> c.back.value.1 > 0)
  }

  lemma AfterHolds(l: Local, c: Carried, ss: seq<Setting>)
    requires Holds(l, c) && GoodSettings(ss)
    ensures Holds(After(ResetIntervals(l), ss), Carry(c, ss))
  {
    PortsPositive(ss);
  }

  lemma BlockBuilds(resolves: Resolver, l: Local, c: Carried, ss: seq<Setting>, st: State)
    requires Holds(l, c) && GoodBlock(ss, c, resolves)
    requires st.local == After(ResetIntervals(l), ss)
    ensures Close(resolves, st) == Added(st.(proxies := st.proxies + [Described(ss, c, st.uris)]))
  {
    AfterHolds(l, c, ss);
  }

  lemma {:induction false} PortsPositive(ss: seq<Setting>)
    requires GoodSettings(ss)
    ensures FrontOf(ss).Some? ==> FrontOf(ss).value.1 > 0
    ensures BackOf(ss).Some? ==> BackOf(ss).value.1 > 0
  {
    if ss != [] {
      PortsPositive(ss[..|ss| - 1]);
    }
  }

  lemma {:induction false} MeaningIsDescribed(resolves: Resolver, cfg: seq<Section>, c: Carried, st: State)
    requires GoodConfig(cfg, c, resolves) && Holds(st.local, c)
    ensures Meaning(resolves, WrittenConfig(cfg), st) == Accepted(st.proxies + DescribedAll(cfg, c, st.uris, resolves))
    decreases |cfg|
  {
    hide Close, ApplyAll, After, Described, GoodBlock, Carry, Holds;
    var items := WrittenConfig(cfg);
    if cfg != [] {
      var rest := cfg[1..];
      assert items[1..] == WrittenConfig(rest);
      match cfg[0]
      case GlobalUri(u) =>
        CStrIs(u, u);
        MeaningIsDescribed(resolves, rest, c, st.(uris := st.uris + [u]));
      case ProxyMapping(ss) =>
        GoodBlockSettings(ss, c, resolves);
        BlockApplies(st.local, ss);
        AfterHolds(st.local, c, ss);
        var st1 := st.(local := After(ResetIntervals(st.local), ss));
        BlockBuilds(resolves, st.local, c, ss, st1);
        var b := Described(ss, c, st.uris);
        var st2 := st1.(proxies := st.proxies + [b]);
        MeaningIsDescribed(resolves, rest, Carry(c, ss), st2);
        assert st.proxies + [b] + DescribedAll(rest, Carry(c, ss), st.uris, resolves) ==
               st.proxies + ([b] + DescribedAll(rest, Carry(c, ss), st.uris, resolves));
    }
  }

  lemma GoodBlockSettings(ss: seq<Setting>, c: Carried, resolves: Resolver)
    requires GoodBlock(ss, c, resolves)
    ensures GoodSettings(ss) && Carry(c, ss).front.Some? && Carry(c, ss).back.Some?
  {
  }

  // ----- writing it down

  lemma {:induction false} StmtsFenced(sts: seq<Stmt>)
    ensures Fenced(StmtsTokens(sts))
  {
    if sts != [] {
      StmtsFenced(sts[1..]);
      FencedConcat(StmtTokens(sts[0]), StmtsTokens(sts[1..]));
    }
  }

  lemma FencedConcat(a: seq<Token>, b: seq<Token>)
    requires Fenced(a) && Fenced(b)
    ensures Fenced(a + b)
  {
    var c := a + b;
    forall i | 0 <= i < |c| ensures FencedAt(c, i) {
      if i < |a| {
        assert FencedAt(a, i);
      } else {
        assert FencedAt(b, i - |a|);
      }
    }
  }

  lemma {:induction false} ItemsFenced(items: seq<Item>)
    ensures Fenced(ItemsTokens(items))
  {
    if items != [] {
      var rest := ItemsTokens(items[1..]);
      ItemsFenced(items[1..]);
      match items[0]
      case Uri(s) => FencedConcat([Keyword(URI), Str(s), Punct(';')], rest);
      case Mapping(sts) =>
        var open := [Keyword(MAPPING), Punct('{')];
        StmtsFenced(sts);
        FencedConcat(open, StmtsTokens(sts));
        FencedConcat(open + StmtsTokens(sts), [Punct('}')]);
        FencedConcat(open + StmtsTokens(sts) + [Punct('}')], rest);
    }
  }

  lemma ConfigFenced(items: seq<Item>)
    ensures Fenced(ConfigTokens(items))
  {
    var open := [Keyword(CONFIG), Punct('{')];
    ItemsFenced(items);
    FencedConcat(open, ItemsTokens(items));
    FencedConcat(open + ItemsTokens(items), [Punct('}')]);
  }

  /** The round trip. The text may spell every token in any way the lexer allows, with any blanks and
      comments in front of each, and end in anything that starts no token. */
  lemma ConfigRoundTrip(resolves: Resolver, cfg: seq<Section>, ps: seq<Piece>, tail: string)
    requires GoodConfig(cfg, NOTHING, resolves)
    requires Spelled(ps, ConfigTokens(WrittenConfig(cfg))) && !Scan(tail).Got?
    ensures Parse(resolves, Tokens(Render(ps, tail))) == Accepted(DescribedAll(cfg, NOTHING, [], resolves))
  {
    hide Spelled, Scan, Tokens, Render, Fenced, Parse, Meaning, ConfigTokens, GoodConfig, DescribedAll;
    var items := WrittenConfig(cfg);
    ConfigFenced(items);
    TokensOfRender(ps, ConfigTokens(items), tail);
    ParseMeans(resolves, items);
    MeaningIsDescribed(resolves, cfg, NOTHING, START);
    assert [] + DescribedAll(cfg, NOTHING, [], resolves) == DescribedAll(cfg, NOTHING, [], resolves);
  }

  // ----- the texts that are accepted

  lemma {:induction false} StmtsPlain(sts: seq<Stmt>)
    ensures forall token :: token in StmtsTokens(sts) ==> Plain(token)
  {
    if sts != [] {
      StmtsPlain(sts[1..]);
    }
  }

  lemma {:induction false} ItemsPlain(items: seq<Item>)
    ensures forall token :: token in ItemsTokens(items) ==> Plain(token)
  {
    if items != [] {
      ItemsPlain(items[1..]);
      if items[0].Mapping? {
        StmtsPlain(items[0].stmts);
      }
    }
  }

  /** A configuration written down in some spelling, and behind it something that starts no token. */
  ghost predicate ConfigText(text: string, items: seq<Item>) {
    exists ps, tail :: text == Render(ps, tail) && Spelled(ps, ConfigTokens(items)) && !Scan(tail).Got?
  }

  /** A text is accepted, with these backends, if and only if it is a configuration in some spelling that means
      these backends, followed by something that starts no token. */
  lemma AcceptedTextExactly(resolves: Resolver, text: string, proxies: seq<Backend>)
    ensures Parse(resolves, Tokens(text)) == Accepted(proxies) <==>
            exists items :: ConfigText(text, items) && Meaning(resolves, items, START) == Accepted(proxies)
  {
    hide Parse, Meaning, Tokens, Spelled, Render, Scan, ConfigTokens, Fenced;
    if Parse(resolves, Tokens(text)) == Accepted(proxies) {
      AcceptedIsConfig(resolves, Tokens(text));
      var items :| Tokens(text) == ConfigTokens(items) && Parse(resolves, Tokens(text)) == Meaning(resolves, items, START);
      ConfigPlain(items);
      var ps, tail := TextReadBack(text);
      assert ConfigText(text, items);
    }
    forall items | ConfigText(text, items) && Meaning(resolves, items, START) == Accepted(proxies)
      ensures Parse(resolves, Tokens(text)) == Accepted(proxies)
    {
      var ps, tail :| text == Render(ps, tail) && Spelled(ps, ConfigTokens(items)) && !Scan(tail).Got?;
      ConfigFenced(items);
      TokensOfRender(ps, ConfigTokens(items), tail);
      ParseMeans(resolves, items);
    }
  }

  lemma ConfigPlain(items: seq<Item>)
    ensures forall token :: token in ConfigTokens(items) ==> Plain(token)
  {
    ItemsPlain(items);
  }

  // ----- it can always be written down

  predicate Fits(section: Section) {
    match section
    case GlobalUri(u) => |u| < YYLEX_BUFFER_SIZE - 1
    case ProxyMapping(ss) => forall i :: 0 <= i < |ss| ==> SettingFits(ss[i])
  }

  predicate SettingFits(s: Setting) {
    match s
    case FrontEnd(host, port) => |HostPort(host, port)| < YYLEX_BUFFER_SIZE - 1
    case BackEnd(host, port) => |HostPort(host, port)| < YYLEX_BUFFER_SIZE - 1
    case _ => true
  }

  predicate AllWritable(ts: seq<Token>) {
    forall i :: 0 <= i < |ts| ==> Writable(ts[i])
  }

  function CanonicalPieces(ts: seq<Token>): seq<Piece>
    requires AllWritable(ts)
  {
    seq(|ts|, i requires 0 <= i < |ts| => Piece(" ", Canonical(ts[i])))
  }

  lemma CanonicalSpelled(ts: seq<Token>)
    requires AllWritable(ts)
    ensures Spelled(CanonicalPieces(ts), ts)
  {
    hide Spells, Canonical;
    var ps := CanonicalPieces(ts);
    forall i | 0 <= i < |ps| ensures IsGap(ps[i].gap, false) && Spells(ps[i].text, ts[i]) {
      CanonicalSpells(ts[i]);
    }
  }

  lemma {:induction false} StmtsWritable(ss: seq<Setting>)
    requires GoodSettings(ss) && forall i :: 0 <= i < |ss| ==> SettingFits(ss[i])
    ensures AllWritable(StmtsTokens(WrittenAll(ss)))
  {
    hide HostPort;
    if ss != [] {
      StmtsWritable(ss[1..]);
      assert WrittenAll(ss)[1..] == WrittenAll(ss[1..]);
      if ss[0].TimeoutSecs? || ss[0].PollSecs? || ss[0].RefreshSecs? {
        DecimalLength(ss[0].n, 7);
      }
    }
  }

  lemma {:induction false} DecimalLength(n: nat, k: nat)
    requires k > 0 && n < TenTo(k)
    ensures |Decimal(n)| <= k
  {
    if n >= 10 {
      DecimalLength(n / 10, k - 1);
    }
  }

  function TenTo(k: nat): nat {
    if k == 0 then 1 else 10 * TenTo(k - 1)
  }

  lemma WritableConcat(a: seq<Token>, b: seq<Token>)
    requires AllWritable(a) && AllWritable(b)
    ensures AllWritable(a + b)
  {
    hide Writable;
  }

  lemma {:induction false} ItemsWritable(cfg: seq<Section>, c: Carried, resolves: Resolver)
    requires GoodConfig(cfg, c, resolves) && forall i :: 0 <= i < |cfg| ==> Fits(cfg[i])
    ensures AllWritable(ItemsTokens(WrittenConfig(cfg)))
  {
    hide WrittenAll, AllWritable;
    if cfg == [] {
      assert AllWritable([]) by { NothingWritable(); }
    } else {
      var rest := ItemsTokens(WrittenConfig(cfg[1..]));
      ItemsWritable(cfg[1..], if cfg[0].GlobalUri? then c else Carry(c, cfg[0].settings), resolves);
      assert WrittenConfig(cfg)[1..] == WrittenConfig(cfg[1..]);
      match cfg[0]
      case GlobalUri(u) =>
        UriWritable(u);
        WritableConcat([Keyword(URI), Str(u), Punct(';')], rest);
      case ProxyMapping(ss) =>
        var open := [Keyword(MAPPING), Punct('{')];
        GoodBlockSettings(ss, c, resolves);
        StmtsWritable(ss);
        BracesWritable();
        WritableConcat(open, StmtsTokens(WrittenAll(ss)));
        WritableConcat(open + StmtsTokens(WrittenAll(ss)), [Punct('}')]);
        WritableConcat(open + StmtsTokens(WrittenAll(ss)) + [Punct('}')], rest);
    }
  }

  lemma NothingWritable()
    ensures AllWritable([])
  {
  }

  lemma UriWritable(u: string)
    requires |u| < YYLEX_BUFFER_SIZE - 1
    ensures AllWritable([Keyword(URI), Str(u), Punct(';')])
  {
  }

  lemma BracesWritable()
    ensures AllWritable([Keyword(MAPPING), Punct('{')]) && AllWritable([Keyword(CONFIG), Punct('{')])
    ensures AllWritable([Punct('}')])
  {
  }

  lemma ConfigWritable(cfg: seq<Section>, resolves: Resolver)
    requires GoodConfig(cfg, NOTHING, resolves) && forall i :: 0 <= i < |cfg| ==> Fits(cfg[i])
    ensures AllWritable(ConfigTokens(WrittenConfig(cfg)))
  {
    hide AllWritable, GoodConfig, Fits, WrittenConfig;
    var open := [Keyword(CONFIG), Punct('{')];
    ItemsWritable(cfg, NOTHING, resolves);
    BracesWritable();
    WritableConcat(open, ItemsTokens(WrittenConfig(cfg)));
    WritableConcat(open + ItemsTokens(WrittenConfig(cfg)), [Punct('}')]);
  }

  /** So every good configuration whose strings fit the buffer has a text, and that text comes back, whatever
      is written behind it, as long as that starts no token. */
  lemma PrintedConfigRoundTrip(resolves: Resolver, cfg: seq<Section>, tail: string)
    requires GoodConfig(cfg, NOTHING, resolves) && forall i :: 0 <= i < |cfg| ==> Fits(cfg[i])
    requires !Scan(tail).Got?
    ensures AllWritable(ConfigTokens(WrittenConfig(cfg)))
    ensures var text := Render(CanonicalPieces(ConfigTokens(WrittenConfig(cfg))), tail);
      Parse(resolves, Tokens(text)) == Accepted(DescribedAll(cfg, NOTHING, [], resolves))
  {
    hide *;
    ConfigWritable(cfg, resolves);
    CanonicalSpelled(ConfigTokens(WrittenConfig(cfg)));
    ConfigRoundTrip(resolves, cfg, CanonicalPieces(ConfigTokens(WrittenConfig(cfg))), tail);
  }
}
