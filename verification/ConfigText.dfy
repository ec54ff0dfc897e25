/** Configuration files word for word: what main builds from texts written out with the words of the manual. */
module ConfigText {
  import opened CStrings
  import opened Numerals
  import opened Lexer
  import opened Settings
  import opened Grammar
  import S = Spelling
  import R = RoundTrip

  // ----- pieces of text

  /** A string in quotes, with a backslash before each quote and backslash. */
  function Quoted(s: string): string {
    "\"" + S.Escaped(s) + "\""
  }

  function Line(word: string, value: string): string {
    " " + word + " = " + value + ";"
  }

  function End(host: string, port: nat): string {
    Quoted(host + ":" + Decimal(port))
  }

  predicate GoodEnd(host: string, port: nat) {
    NulFree(host) && ':' !in host && 1 <= port <= 65535 && |host + ":" + Decimal(port)| <= 4094
  }

  predicate GoodString(s: string) {
    NulFree(s) && |s| <= 4094
  }

  predicate GoodSeconds(n: nat) {
    1 <= n <= 2147483
  }

  lemma QuotedSpells(s: string)
    requires |s| <= 4094
    ensures S.Spells(Quoted(s), Str(s))
  {
    assert Quoted(s)[1..] == S.Escaped(s) + "\"";
    S.UnquoteEscaped(s);
  }

  lemma DecimalSpells(n: nat)
    requires GoodSeconds(n)
    ensures S.Spells(Decimal(n), Integer(n))
  {
    hide Decimal, Value;
    assert Decimal(n)[0] != '0' && |Decimal(n)| <= 7 by {
      assert R.TenTo(7) == 10000000;
      R.DecimalLength(n, 7);
    }
    assert !HexPrefix(Decimal(n));
    DecimalValue(n);
  }

  lemma LineTokens(word: string, k: Kw, value: string, v: Token, rest: string)
    requires S.Spells(word, Keyword(k)) && S.Spells(value, v) && (v.Str? || v.Integer?)
    ensures Tokens(Line(word, value) + rest) == [Keyword(k), Punct('='), v, Punct(';')] + Tokens(rest)
  {
    hide Tokens, S.Spells;
    var r3 := ";" + rest;
    var r2 := " " + value + r3;
    var r1 := " " + "=" + r2;
    PunctSpells();
    assert "" + ";" + rest == r3;
    S.TokenInFront("", ";", Punct(';'), rest);
    S.TokenInFront(" ", value, v, r3);
    S.TokenInFront(" ", "=", Punct('='), r2);
    S.TokenInFront(" ", word, Keyword(k), r1);
    assert Line(word, value) + rest == " " + word + r1;
  }

  lemma PunctSpells()
    ensures S.Spells(";", Punct(';')) && S.Spells("=", Punct('=')) && S.Spells("{", Punct('{')) && S.Spells("}", Punct('}'))
  {
  }

  /** A word and an opening brace. */
  lemma OpenTokens(gap: string, word: string, k: Kw, rest: string)
    requires S.IsGap(gap, false) && S.Spells(word, Keyword(k))
    ensures Tokens(gap + word + " {" + rest) == [Keyword(k), Punct('{')] + Tokens(rest)
  {
    hide Tokens, S.Spells, S.IsGap;
    PunctSpells();
    S.TokenInFront(" ", "{", Punct('{'), rest) by { assert S.IsGap(" ", false) by { BlankIsGap(); } }
    S.TokenInFront(gap, word, Keyword(k), " " + "{" + rest);
    assert gap + word + " {" + rest == gap + word + (" " + "{" + rest);
  }

  lemma BlankIsGap()
    ensures S.IsGap(" ", false) && S.IsGap("", false)
  {
  }

  lemma CloseTokens(rest: string)
    ensures Tokens(" }" + rest) == [Punct('}')] + Tokens(rest)
  {
    hide Tokens;
    PunctSpells();
    S.TokenInFront(" ", "}", Punct('}'), rest);
    assert " }" + rest == " " + "}" + rest;
  }

  lemma NothingLeft()
    ensures Tokens("") == []
  {
  }

  /** The nine words, each as the manual writes it. */
  lemma WordsOfTheManual()
    ensures S.Spells("memcache-stats-proxy-settings", Keyword(CONFIG))
    ensures S.Spells("uri", Keyword(URI))
    ensures S.Spells("proxy-mapping", Keyword(MAPPING))
    ensures S.Spells("front-end", Keyword(FRONT_END))
    ensures S.Spells("back-end", Keyword(BACK_END))
    ensures S.Spells("timeout", Keyword(TIMEOUT))
    ensures S.Spells("poll-interval", Keyword(POLL))
    ensures S.Spells("webpage-refresh-interval", Keyword(REFRESH))
    ensures S.Spells("memcache-reporter", Keyword(REPORTER))
  {
  }

  // ----- from lines to settings

  lemma LineInFront(word: string, k: Kw, value: string, v: Token, st: Stmt, rest: string, sts: seq<Stmt>, tail: seq<Token>)
    requires S.Spells(word, Keyword(k)) && S.Spells(value, v) && (v.Str? || v.Integer?)
    requires StmtTokens(st) == [Keyword(k), Punct('='), v, Punct(';')] && Tokens(rest) == StmtsTokens(sts) + tail
    ensures Tokens(Line(word, value) + rest) == StmtsTokens([st] + sts) + tail
  {
    hide Tokens, S.Spells, Line, StmtTokens;
    LineTokens(word, k, value, v, rest);
    assert ([st] + sts)[1..] == sts;
    assert StmtTokens(st) + (StmtsTokens(sts) + tail) == StmtTokens(st) + StmtsTokens(sts) + tail;
  }

  lemma ApplyInFront(l: Local, st: Stmt, sts: seq<Stmt>)
    ensures ApplyAll(l, [st] + sts) == match Apply(l, st) case None => None case Some(l') => ApplyAll(l', sts)
  {
    hide Apply;
    assert ([st] + sts)[1..] == sts;
  }

  lemma NoSettings(l: Local, tail: seq<Token>)
    ensures ApplyAll(l, []) == Some(l) && StmtsTokens([]) + tail == tail
  {
  }

  lemma EndApplies(l: Local, host: string, port: nat)
    requires GoodEnd(host, port)
    ensures Apply(l, Front(host + ":" + Decimal(port))) == Some(l.(fronthost := Some(host), frontport := port))
    ensures Apply(l, Back(host + ":" + Decimal(port))) == Some(l.(backhost := Some(host), backport := port))
  {
    hide SplitHost, Decimal;
    assert R.HostPort(host, port) == host + ":" + Decimal(port);
    R.HostPortSplits(host, port);
  }

  lemma SecondsApply(l: Local, n: nat)
    requires GoodSeconds(n)
    ensures Apply(l, Timeout(n)) == Some(l.(connectMs := 1000 * n, readMs := 1000 * n, writeMs := 1000 * n))
    ensures Apply(l, Poll(n)) == Some(l.(pollfreqMs := 1000 * n))
    ensures Apply(l, Refresh(n)) == Some(l.(refreshfreqMs := 1000 * n))
  {
    hide Milliseconds;
    R.MillisecondsExact(n);
  }

  lemma ModeApplies(l: Local, mode: string)
    requires NulFree(mode)
    ensures Apply(l, Reporter(mode)) == if mode in ["off", "view", "modify"] then Some(l.(reporter := Some(mode))) else None
  {
    hide CStr;
    CStrIs(mode, mode);
  }

  // ----- a file that says everything

  function FullConfig(uri: string, front: string, frontport: nat, back: string, backport: nat,
                      timeout: nat, poll: nat, refresh: nat, mode: string): string
  {
    "" + "memcache-stats-proxy-settings" + " {" +
    (" " + "uri" + (" " + Quoted(uri) + ("" + ";" +
    (" " + "proxy-mapping" + " {" +
    (Line("front-end", End(front, frontport)) +
    (Line("back-end", End(back, backport)) +
    (Line("timeout", Decimal(timeout)) +
    (Line("poll-interval", Decimal(poll)) +
    (Line("webpage-refresh-interval", Decimal(refresh)) +
    (Line("memcache-reporter", Quoted(mode)) +
    (" }" + (" }" + ""))))))))))))
  }

  function FullSettings(front: string, frontport: nat, back: string, backport: nat,
                        timeout: nat, poll: nat, refresh: nat, mode: string): seq<Stmt>
  {
    [Front(front + ":" + Decimal(frontport))] + ([Back(back + ":" + Decimal(backport))] +
    ([Timeout(timeout)] + ([Poll(poll)] + ([Refresh(refresh)] + ([Reporter(mode)] + [])))))
  }

  lemma FullApplies(front: string, frontport: nat, back: string, backport: nat,
                    timeout: nat, poll: nat, refresh: nat, mode: string)
    requires GoodEnd(front, frontport) && GoodEnd(back, backport) && NulFree(mode)
    requires GoodSeconds(timeout) && GoodSeconds(poll) && GoodSeconds(refresh)
    ensures ApplyAll(ResetIntervals(BLANK), FullSettings(front, frontport, back, backport, timeout, poll, refresh, mode)) ==
            if mode in ["off", "view", "modify"] then
              Some(Local(Some(front), frontport, Some(back), backport, 1000 * timeout, 1000 * timeout, 1000 * timeout,
                         1000 * poll, 1000 * refresh, Some(mode)))
            else None
  {
    hide Apply, ApplyAll, Decimal, GoodEnd, GoodSeconds;
    var s6 := [Reporter(mode)] + [];
    var s5 := [Refresh(refresh)] + s6;
    var s4 := [Poll(poll)] + s5;
    var s3 := [Timeout(timeout)] + s4;
    var s2 := [Back(back + ":" + Decimal(backport))] + s3;
    var l0 := ResetIntervals(BLANK);
    EndApplies(l0, front, frontport);
    ApplyInFront(l0, Front(front + ":" + Decimal(frontport)), s2);
    var l1 := l0.(fronthost := Some(front), frontport := frontport);
    EndApplies(l1, back, backport);
    ApplyInFront(l1, Back(back + ":" + Decimal(backport)), s3);
    var l2 := l1.(backhost := Some(back), backport := backport);
    SecondsApply(l2, timeout);
    ApplyInFront(l2, Timeout(timeout), s4);
    var l3 := l2.(connectMs := 1000 * timeout, readMs := 1000 * timeout, writeMs := 1000 * timeout);
    SecondsApply(l3, poll);
    ApplyInFront(l3, Poll(poll), s5);
    var l4 := l3.(pollfreqMs := 1000 * poll);
    SecondsApply(l4, refresh);
    ApplyInFront(l4, Refresh(refresh), s6);
    var l5 := l4.(refreshfreqMs := 1000 * refresh);
    ModeApplies(l5, mode);
    ApplyInFront(l5, Reporter(mode), []);
    NoSettings(l5.(reporter := Some(mode)), []);
  }

  lemma FullBlockTokens(front: string, frontport: nat, back: string, backport: nat,
                        timeout: nat, poll: nat, refresh: nat, mode: string, rest: string)
    requires GoodEnd(front, frontport) && GoodEnd(back, backport) && GoodString(mode)
    requires GoodSeconds(timeout) && GoodSeconds(poll) && GoodSeconds(refresh)
    ensures Tokens(Line("front-end", End(front, frontport)) +
                   (Line("back-end", End(back, backport)) +
                   (Line("timeout", Decimal(timeout)) +
                   (Line("poll-interval", Decimal(poll)) +
                   (Line("webpage-refresh-interval", Decimal(refresh)) +
                   (Line("memcache-reporter", Quoted(mode)) + rest)))))) ==
            StmtsTokens(FullSettings(front, frontport, back, backport, timeout, poll, refresh, mode)) + Tokens(rest)
  {
    hide Tokens, StmtsTokens, S.Spells, Line, Quoted, Decimal, AllDigits;
    var tail := Tokens(rest);
    WordsOfTheManual();
    QuotedSpells(front + ":" + Decimal(frontport));
    QuotedSpells(back + ":" + Decimal(backport));
    QuotedSpells(mode);
    DecimalSpells(timeout);
    DecimalSpells(poll);
    DecimalSpells(refresh);
    NoSettings(BLANK, tail);
    var r6 := Line("memcache-reporter", Quoted(mode)) + rest;
    LineInFront("memcache-reporter", REPORTER, Quoted(mode), Str(mode), Reporter(mode), rest, [], tail);
    var r5 := Line("webpage-refresh-interval", Decimal(refresh)) + r6;
    var s6 := [Reporter(mode)] + [];
    LineInFront("webpage-refresh-interval", REFRESH, Decimal(refresh), Integer(refresh), Refresh(refresh), r6, s6, tail);
    var r4 := Line("poll-interval", Decimal(poll)) + r5;
    var s5 := [Refresh(refresh)] + s6;
    LineInFront("poll-interval", POLL, Decimal(poll), Integer(poll), Poll(poll), r5, s5, tail);
    var r3 := Line("timeout", Decimal(timeout)) + r4;
    var s4 := [Poll(poll)] + s5;
    LineInFront("timeout", TIMEOUT, Decimal(timeout), Integer(timeout), Timeout(timeout), r4, s4, tail);
    var s3 := [Timeout(timeout)] + s4;
    var b := back + ":" + Decimal(backport);
    LineInFront("back-end", BACK_END, Quoted(b), Str(b), Back(b), r3, s3, tail);
    var f := front + ":" + Decimal(frontport);
    LineInFront("front-end", FRONT_END, Quoted(f), Str(f), Front(f), Line("back-end", Quoted(b)) + r3, [Back(b)] + s3, tail);
  }

  lemma ConfigAround(uri: string, body: string, sts: seq<Stmt>)
    requires GoodString(uri)
    requires Tokens(body) == StmtsTokens(sts) + Tokens(" }" + (" }" + ""))
    ensures Tokens("" + "memcache-stats-proxy-settings" + " {" +
                   (" " + "uri" + (" " + Quoted(uri) + ("" + ";" + (" " + "proxy-mapping" + " {" + body))))) ==
            ConfigTokens([Uri(uri), Mapping(sts)])
    ensures Tokens("" + "memcache-stats-proxy-settings" + " {" + (" " + "proxy-mapping" + " {" + body)) ==
            ConfigTokens([Mapping(sts)])
  {
    hide Tokens, StmtsTokens, S.Spells, S.IsGap, Quoted;
    WordsOfTheManual();
    PunctSpells();
    QuotedSpells(uri);
    BlankIsGap();
    CloseTokens(" }" + "");
    CloseTokens("");
    NothingLeft();
    var r4 := " " + "proxy-mapping" + " {" + body;
    OpenTokens(" ", "proxy-mapping", MAPPING, body);
    var r3 := "" + ";" + r4;
    S.TokenInFront("", ";", Punct(';'), r4);
    var r2 := " " + Quoted(uri) + r3;
    S.TokenInFront(" ", Quoted(uri), Str(uri), r3);
    S.TokenInFront(" ", "uri", Keyword(URI), r2);
    OpenTokens("", "memcache-stats-proxy-settings", CONFIG, " " + "uri" + r2);
    OpenTokens("", "memcache-stats-proxy-settings", CONFIG, r4);
    ItemsOf(uri, sts);
  }

  lemma ItemsOf(uri: string, sts: seq<Stmt>)
    ensures ItemsTokens([Mapping(sts)]) == [Keyword(MAPPING), Punct('{')] + (StmtsTokens(sts) + [Punct('}')])
    ensures ItemsTokens([Uri(uri), Mapping(sts)]) ==
            [Keyword(URI), Str(uri), Punct(';')] + ([Keyword(MAPPING), Punct('{')] + (StmtsTokens(sts) + [Punct('}')]))
  {
    hide StmtsTokens;
    assert [Mapping(sts)][1..] == [] && [Uri(uri), Mapping(sts)][1..] == [Mapping(sts)];
  }

  lemma OneBlock(resolves: Resolver, sts: seq<Stmt>, st: State)
    ensures Meaning(resolves, [Mapping(sts)], st) ==
      match ApplyAll(ResetIntervals(st.local), sts)
      case None => Aborted(st.proxies)
      case Some(l) =>
        match Close(resolves, st.(local := l))
        case Missing => Aborted(st.proxies)
        case Unresolved => Exit(st.proxies)
        case Added(st') => Accepted(st'.proxies)
  {
    assert [Mapping(sts)][1..] == [];
  }

  /** Every word in its place: the fields of the backend are what the file says, one by one. A reporter mode
      other than the three aborts, and a host that does not resolve ends the process. */
  lemma FullConfigBuilds(resolves: Resolver, uri: string, front: string, frontport: nat, back: string, backport: nat,
                         timeout: nat, poll: nat, refresh: nat, mode: string)
    requires GoodString(uri) && GoodEnd(front, frontport) && GoodEnd(back, backport) && GoodString(mode)
    requires GoodSeconds(timeout) && GoodSeconds(poll) && GoodSeconds(refresh)
    ensures Parse(resolves, Tokens(FullConfig(uri, front, frontport, back, backport, timeout, poll, refresh, mode))) ==
            if mode !in ["off", "view", "modify"] then Aborted([])
            else if resolves(front) && resolves(back) then
              Accepted([Backend(front, frontport, back, backport, 1000 * timeout, 1000 * timeout, 1000 * timeout,
                                1000 * poll, 1000 * refresh, mode, [uri])])
            else Exit([])
  {
    hide Tokens, Parse, ApplyAll, StmtsTokens, ConfigTokens, Line, Quoted, End, FullSettings, CStr, ResetIntervals, Decimal, AllDigits;
    var sts := FullSettings(front, frontport, back, backport, timeout, poll, refresh, mode);
    FullBlockTokens(front, frontport, back, backport, timeout, poll, refresh, mode, " }" + (" }" + ""));
    var body := Line("front-end", End(front, frontport)) + (Line("back-end", End(back, backport)) +
      (Line("timeout", Decimal(timeout)) + (Line("poll-interval", Decimal(poll)) +
      (Line("webpage-refresh-interval", Decimal(refresh)) + (Line("memcache-reporter", Quoted(mode)) + (" }" + (" }" + "")))))));
    ConfigAround(uri, body, sts);
    CStrIs(uri, uri);
    FullApplies(front, frontport, back, backport, timeout, poll, refresh, mode);
    ParseMeans(resolves, [Uri(uri), Mapping(sts)]);
    assert Tokens(FullConfig(uri, front, frontport, back, backport, timeout, poll, refresh, mode)) ==
           ConfigTokens([Uri(uri), Mapping(sts)]);
    assert [Uri(uri), Mapping(sts)][1..] == [Mapping(sts)] && [Mapping(sts)][1..] == [];
    assert [] + [uri] == [uri];
    var st := State(BLANK, [uri], []);
    assert Meaning(resolves, [Uri(uri), Mapping(sts)], START) == Meaning(resolves, [Mapping(sts)], st);
    OneBlock(resolves, sts, st);
  }

  // ----- a file that says only what it must

  function ShortConfig(front: string, frontport: nat, back: string, backport: nat): string {
    "" + "memcache-stats-proxy-settings" + " {" +
    (" " + "proxy-mapping" + " {" +
    (Line("front-end", End(front, frontport)) +
    (Line("back-end", End(back, backport)) +
    (" }" + (" }" + "")))))
  }

  /** Without the other settings: ten seconds of timeout, a poll every five, a refresh every fifteen, no reporter, no uri. */
  lemma ShortConfigBuilds(resolves: Resolver, front: string, frontport: nat, back: string, backport: nat)
    requires GoodEnd(front, frontport) && GoodEnd(back, backport) && resolves(front) && resolves(back)
    ensures Parse(resolves, Tokens(ShortConfig(front, frontport, back, backport))) ==
            Accepted([Backend(front, frontport, back, backport, 10000, 10000, 10000, 5000, 15000, "off", [])])
  {
    hide Tokens, Parse, Apply, ApplyAll, StmtsTokens, ConfigTokens, Line, Quoted, Decimal, S.Spells;
    var f, b, rest := front + ":" + Decimal(frontport), back + ":" + Decimal(backport), " }" + (" }" + "");
    var sts := [Front(f)] + ([Back(b)] + []);
    WordsOfTheManual();
    QuotedSpells(f);
    QuotedSpells(b);
    NoSettings(BLANK, Tokens(rest));
    LineInFront("back-end", BACK_END, Quoted(b), Str(b), Back(b), rest, [], Tokens(rest));
    LineInFront("front-end", FRONT_END, Quoted(f), Str(f), Front(f), Line("back-end", Quoted(b)) + rest, [Back(b)] + [], Tokens(rest));
    ConfigAround("", Line("front-end", Quoted(f)) + (Line("back-end", Quoted(b)) + rest), sts);
    var l0 := ResetIntervals(BLANK);
    EndApplies(l0, front, frontport);
    ApplyInFront(l0, Front(f), [Back(b)] + []);
    var l1 := l0.(fronthost := Some(front), frontport := frontport);
    EndApplies(l1, back, backport);
    ApplyInFront(l1, Back(b), []);
    NoSettings(l1.(backhost := Some(back), backport := backport), []);
    ParseMeans(resolves, [Mapping(sts)]);
    assert [Mapping(sts)][1..] == [];
  }

  /** With one end alone nothing is built, whichever it is. */
  lemma OneEndAborts(resolves: Resolver, word: string, host: string, port: nat)
    requires GoodEnd(host, port) && word in ["front-end", "back-end"]
    ensures Parse(resolves, Tokens("" + "memcache-stats-proxy-settings" + " {" +
              (" " + "proxy-mapping" + " {" + (Line(word, End(host, port)) + (" }" + (" }" + "")))))) == Aborted([])
  {
    hide Tokens, Parse, Apply, ApplyAll, StmtsTokens, ConfigTokens, Line, Quoted, Decimal, S.Spells;
    var e, rest := host + ":" + Decimal(port), " }" + (" }" + "");
    var st := if word == "front-end" then Front(e) else Back(e);
    var k := if word == "front-end" then FRONT_END else BACK_END;
    WordsOfTheManual();
    QuotedSpells(e);
    NoSettings(BLANK, Tokens(rest));
    LineInFront(word, k, Quoted(e), Str(e), st, rest, [], Tokens(rest));
    ConfigAround("", Line(word, Quoted(e)) + rest, [st] + []);
    var l0 := ResetIntervals(BLANK);
    EndApplies(l0, host, port);
    ApplyInFront(l0, st, []);
    NoSettings(Apply(l0, st).value, []);
    ParseMeans(resolves, [Mapping([st] + [])]);
    assert [Mapping([st] + [])][1..] == [];
  }

  /** A file that ends inside a block: the backend of that block is added before the missing brace ends the process. */
  lemma UnclosedBlockAdds(resolves: Resolver, front: string, frontport: nat, back: string, backport: nat)
    requires GoodEnd(front, frontport) && GoodEnd(back, backport) && resolves(front) && resolves(back)
    ensures Parse(resolves, Tokens("" + "memcache-stats-proxy-settings" + " {" + (" " + "proxy-mapping" + " {" +
              (Line("front-end", End(front, frontport)) + (Line("back-end", End(back, backport)) + ""))))) ==
            Exit([Backend(front, frontport, back, backport, 10000, 10000, 10000, 5000, 15000, "off", [])])
  {
    hide Tokens, Apply, ApplyAll, StmtsTokens, Line, Quoted, Decimal, S.Spells, S.IsGap;
    var f, b := front + ":" + Decimal(frontport), back + ":" + Decimal(backport);
    var sts := [Front(f)] + ([Back(b)] + []);
    WordsOfTheManual();
    BlankIsGap();
    NothingLeft();
    QuotedSpells(f);
    QuotedSpells(b);
    NoSettings(BLANK, []);
    LineInFront("back-end", BACK_END, Quoted(b), Str(b), Back(b), "", [], []);
    LineInFront("front-end", FRONT_END, Quoted(f), Str(f), Front(f), Line("back-end", Quoted(b)) + "", [Back(b)] + [], []);
    var body := Line("front-end", Quoted(f)) + (Line("back-end", Quoted(b)) + "");
    OpenTokens(" ", "proxy-mapping", MAPPING, body);
    OpenTokens("", "memcache-stats-proxy-settings", CONFIG, " " + "proxy-mapping" + " {" + body);
    var l0 := ResetIntervals(BLANK);
    EndApplies(l0, front, frontport);
    ApplyInFront(l0, Front(f), [Back(b)] + []);
    var l1 := l0.(fronthost := Some(front), frontport := frontport);
    EndApplies(l1, back, backport);
    ApplyInFront(l1, Back(b), []);
    NoSettings(l1.(backhost := Some(back), backport := backport), []);
    OpenBlock(resolves, sts);
  }

  lemma OpenBlock(resolves: Resolver, sts: seq<Stmt>)
    requires ApplyAll(ResetIntervals(BLANK), sts).Some?
    requires Close(resolves, START.(local := ApplyAll(ResetIntervals(BLANK), sts).value)).Added?
    ensures Parse(resolves, [Keyword(CONFIG), Punct('{')] + ([Keyword(MAPPING), Punct('{')] + (StmtsTokens(sts) + []))) ==
            Exit(Close(resolves, START.(local := ApplyAll(ResetIntervals(BLANK), sts).value)).st.proxies)
  {
    hide StmtsTokens, ApplyAll, Close;
    var ts := [Keyword(MAPPING), Punct('{')] + (StmtsTokens(sts) + []);
    assert ([Keyword(CONFIG), Punct('{')] + ts)[2..] == ts && ts[2..] == StmtsTokens(sts) + [];
    var st := START.(local := ResetIntervals(BLANK));
    BlockMeans(resolves, sts, [], st);
    assert Parse(resolves, [Keyword(CONFIG), Punct('{')] + ts) == Statements(resolves, ts, START);
    assert Statements(resolves, ts, START) == Block(resolves, StmtsTokens(sts) + [], st);
  }
}
