/** yyparse: the grammar driven over the scanner, with every string token living in the scanner's one buffer. */
module Yyparse {
  import opened CStrings
  import opened Numerals
  import opened Lexer
  import opened Settings
  import opened Grammar
  import opened Yylex

  /** Still parsing, yyparse returning 0 or 1, or the process gone, with the backends in memory at that point. */
  datatype Result = Running | Zero | One | Gone

  ghost predicate Reports(r: Result, proxies: seq<Backend>, o: Outcome) {
    match r
    case Running => false
    case Zero => o == Accepted(proxies)
    case One => o == Aborted(proxies)
    case Gone => o == Exit(proxies)
  }

  /** A string token in the buffer reads back as the literal up to its first NUL. */
  lemma StringInBuffer(b: string, s: string)
    requires |s| < |b| && b[..|s|] == s && b[|s|] == '\0'
    ensures CStr(b) == CStr(s)
  {
    CStrIs(b, CStr(s));
  }

  class Parser {
    const scanner: Scanner
    var local: Local // settings->local
    var uris: seq<string> // settings->global.uris
    var proxies: seq<Backend> // settings->proxies

    constructor (text: string)
      ensures scanner.Valid() && scanner.Rest() == text && Now() == START
      ensures fresh(scanner) && fresh(scanner.buffer)
    {
      scanner := new Scanner(text);
      local, uris, proxies := BLANK, [], [];
    }

    ghost function Now(): State
      reads this
    {
      State(local, uris, proxies)
    }

    /** yylex, seen from the token stream. */
    method Next() returns (code: Code)
      requires scanner.Valid()
      modifies scanner, scanner.buffer
      ensures scanner.Valid()
      ensures var ts := Tokens(old(scanner.Rest()));
        match code
        case EndOfFile => ts == []
        case Failed => ts == []
        case Exited => ts != [] && ts[0] == TooLarge
        case _ => ts != [] && ts[0] != TooLarge && scanner.Holds(code, ts[0]) && Tokens(scanner.Rest()) == ts[1..] &&
                  |scanner.Rest()| < |old(scanner.Rest())|
      ensures code.CHARACTER? ==> scanner.stringVal == old(scanner.stringVal)
      ensures code.CHARACTER? ==> scanner.buffer[..] == old(scanner.buffer[..])
    {
      hide Scan;
      code := scanner.YyLex();
    }

    method YyParse(resolves: Resolver) returns (r: Result)
      requires scanner.Valid() && Now() == START
      modifies this, scanner, scanner.buffer
      ensures Reports(r, proxies, Parse(resolves, Tokens(old(scanner.Rest()))))
    {
      hide Statements, Tokens;
      ghost var ts := Tokens(scanner.Rest());
      var code := Next();
      if code != WORD(CONFIG) {
        return Gone;
      }
      code := Next();
      if code != CHARACTER('{') {
        return Gone;
      }
      assert ts[1..][1..] == ts[2..];
      r := ParseStatements(resolves);
    }

    method ParseStatements(resolves: Resolver) returns (r: Result)
      requires scanner.Valid()
      modifies this, scanner, scanner.buffer
      ensures Reports(r, proxies, Statements(resolves, Tokens(old(scanner.Rest())), old(Now())))
    {
      hide Tokens, Block;
      while true
        invariant scanner.Valid()
        invariant Statements(resolves, Tokens(scanner.Rest()), Now()) ==
                  Statements(resolves, Tokens(old(scanner.Rest())), old(Now()))
        decreases |scanner.Rest()|
      {
        ghost var ts, st := Tokens(scanner.Rest()), Now();
        var code := Next();
        if code == WORD(URI) {
          r := ParseUri(ts);
          if r != Running {
            return;
          }
        } else if code == WORD(MAPPING) {
          r := ParseMapping(resolves, ts);
          if r != Running {
            return;
          }
        } else if code == CHARACTER('}') {
          code := Next();
          if code == EndOfFile || code == Failed {
            assert ts == [ts[0]] + ts[1..];
            return Zero;
          }
          return Gone;
        } else {
          return Gone;
        }
      }
    }

    /** '{', the intervals back to their defaults, and the block. */
    method ParseMapping(resolves: Resolver, ghost ts: seq<Token>) returns (r: Result)
      requires scanner.Valid()
      requires ts != [] && Tokens(scanner.Rest()) == ts[1..]
      modifies this, scanner, scanner.buffer
      ensures scanner.Valid() && (r == Running ==> |scanner.Rest()| < |old(scanner.Rest())|)
      ensures var o := if |ts| >= 2 && ts[1] == Punct('{') then
            Block(resolves, ts[2..], old(Now()).(local := ResetIntervals(old(local))))
          else Exit(old(proxies));
        if r == Running then o == Statements(resolves, Tokens(scanner.Rest()), Now()) else Reports(r, proxies, o)
    {
      hide Tokens, Block, Statements;
      var code := Next();
      if code != CHARACTER('{') {
        return Gone;
      }
      assert ts[1..][1..] == ts[2..];
      local := ResetIntervals(local);
      r := ParseBlock(resolves);
    }

    method ParseUri(ghost ts: seq<Token>) returns (r: Result)
      requires scanner.Valid()
      requires ts != [] && Tokens(scanner.Rest()) == ts[1..]
      modifies this`uris, scanner, scanner.buffer
      ensures scanner.Valid() && r in {Running, Gone} && (r == Running ==> |scanner.Rest()| < |old(scanner.Rest())|)
      ensures r == Running <==> |ts| >= 3 && ts[1].Str? && ts[2] == Punct(';')
      ensures r == Running ==> uris == old(uris) + [CStr(ts[1].s)] && Tokens(scanner.Rest()) == ts[3..]
    {
      hide Tokens;
      var code := Next();
      if code != STRING {
        return Gone;
      }
      assert ts[1..][1..] == ts[2..];
      var text := scanner.stringVal;
      code := Next();
      if code != CHARACTER(';') {
        return Gone;
      }
      assert ts[2..][1..] == ts[3..];
      AddGlobalUri(text, ts[1].s);
      return Running;
    }

    /** addGlobalUri(&settings->global, $2) */
    method AddGlobalUri(text: array<char>, ghost literal: string)
      requires |literal| < text.Length && text[..|literal|] == literal && text[|literal|] == '\0'
      modifies this`uris
      ensures uris == old(uris) + [CStr(literal)]
    {
      StringInBuffer(text[..], literal);
      uris := uris + [CStr(text[..])];
    }

    /** The settings of one block and the action at its end; on Running the block has been closed. */
    method ParseBlock(resolves: Resolver) returns (r: Result)
      requires scanner.Valid()
      modifies this, scanner, scanner.buffer
      ensures scanner.Valid() && (r == Running ==> |scanner.Rest()| < |old(scanner.Rest())|)
      ensures var o := Block(resolves, Tokens(old(scanner.Rest())), old(Now()));
        if r == Running then o == Statements(resolves, Tokens(scanner.Rest()), Now()) else Reports(r, proxies, o)
    {
      hide Tokens, Statements, Apply, Close;
      while true
        invariant scanner.Valid() && |scanner.Rest()| <= |old(scanner.Rest())|
        invariant Block(resolves, Tokens(scanner.Rest()), Now()) ==
                  Block(resolves, Tokens(old(scanner.Rest())), old(Now()))
        decreases |scanner.Rest()|
      {
        ghost var ts, st := Tokens(scanner.Rest()), Now();
        var code := Next();
        if code.WORD? && code.k !in {CONFIG, URI, MAPPING} {
          r := ParseSetting(code.k, ts);
          if r != Running {
            return;
          }
        } else if code == Exited {
          return Gone;
        } else {
          r := CloseBlock(resolves);
          if r == Running && code != CHARACTER('}') {
            r := Gone;
          }
          return;
        }
      }
    }

    /** '=' value ';' behind a setting's keyword. */
    method ReadSetting(k: Kw, ghost ts: seq<Token>) returns (ok: bool, number: nat, text: array<char>)
      requires scanner.Valid() && k !in {CONFIG, URI, MAPPING}
      requires ts != [] && ts[0] == Keyword(k) && Tokens(scanner.Rest()) == ts[1..]
      modifies scanner, scanner.buffer
      ensures scanner.Valid() && (ok <==> StmtAt(ts).Some?) && (ok ==> Tokens(scanner.Rest()) == ts[4..])
      ensures ok ==> |scanner.Rest()| < |old(scanner.Rest())|
      ensures ok && k in {TIMEOUT, POLL, REFRESH} ==> ts[2] == Integer(number)
      ensures ok && k in {FRONT_END, BACK_END, REPORTER} ==>
        var v := ts[2];
        v.Str? && text == scanner.buffer && |v.s| < text.Length && text[..|v.s|] == v.s && text[|v.s|] == '\0'
    {
      hide Tokens;
      ok, number, text := false, 0, scanner.buffer;
      var code := Next();
      if code != CHARACTER('=') {
        return;
      }
      assert ts[1..][1..] == ts[2..];
      code := Next();
      if code != if k == TIMEOUT || k == POLL || k == REFRESH then INTEGER else STRING {
        return;
      }
      assert ts[2..][1..] == ts[3..];
      number, text := scanner.intVal, scanner.stringVal;
      code := Next();
      if code != CHARACTER(';') {
        return;
      }
      assert ts[3..][1..] == ts[4..];
      ok := true;
    }

    /** '=' value ';' and the action, which runs before another token is read. */
    method ParseSetting(k: Kw, ghost ts: seq<Token>) returns (r: Result)
      requires scanner.Valid() && k !in {CONFIG, URI, MAPPING}
      requires ts != [] && ts[0] == Keyword(k) && Tokens(scanner.Rest()) == ts[1..]
      modifies this, scanner, scanner.buffer
      ensures scanner.Valid() && (r == Running ==> |scanner.Rest()| < |old(scanner.Rest())|)
      ensures uris == old(uris) && proxies == old(proxies)
      ensures match StmtAt(ts)
        case None => r == Gone
        case Some(stmt) =>
          match Apply(old(local), stmt)
          case None => r == One
          case Some(l) => r == Running && local == l && Tokens(scanner.Rest()) == ts[4..]
    {
      hide Tokens, Apply;
      var ok, number, text := ReadSetting(k, ts);
      if !ok {
        return Gone;
      }
      if k == TIMEOUT || k == POLL || k == REFRESH {
        ok := IntegerAction(k, number);
      } else {
        ok := StringAction(k, text, ts[2].s);
      }
      return if ok then Running else One;
    }

    method IntegerAction(k: Kw, n: nat) returns (ok: bool)
      requires k == TIMEOUT || k == POLL || k == REFRESH
      modifies this`local
      ensures var l := Apply(old(local), if k == TIMEOUT then Timeout(n) else if k == POLL then Poll(n) else Refresh(n));
        ok == l.Some? && (ok ==> local == l.value)
    {
      if k == TIMEOUT {
        local := local.(connectMs := Milliseconds(n));
        local := local.(readMs := Milliseconds(n));
        local := local.(writeMs := Milliseconds(n));
        ok := local.connectMs > 0;
      } else if k == POLL {
        local := local.(pollfreqMs := Milliseconds(n));
        ok := local.pollfreqMs > 0;
      } else {
        local := local.(refreshfreqMs := Milliseconds(n));
        ok := local.refreshfreqMs > 0;
      }
    }

    method StringAction(k: Kw, text: array<char>, ghost literal: string) returns (ok: bool)
      requires k == FRONT_END || k == BACK_END || k == REPORTER
      requires |literal| < text.Length && text[..|literal|] == literal && text[|literal|] == '\0'
      modifies this`local, text
      ensures var l := Apply(old(local),
          if k == FRONT_END then Front(literal) else if k == BACK_END then Back(literal) else Reporter(literal));
        ok == l.Some? && (ok ==> local == l.value)
    {
      if k == REPORTER {
        StringInBuffer(text[..], literal);
        local := local.(reporter := Some(CStr(text[..])));
        return ReporterMode(local.reporter.value);
      }
      var host, port;
      ok, host, port := CutHost(text, literal);
      if ok && k == FRONT_END {
        local := local.(fronthost := Some(host));
        local := local.(frontport := port);
      } else if ok {
        local := local.(backhost := Some(host));
        local := local.(backport := port);
      }
    }

    /** strchr for the colon, which is overwritten; the host is before it and the port after it. */
    method CutHost(text: array<char>, ghost literal: string) returns (ok: bool, host: string, port: nat)
      requires |literal| < text.Length && text[..|literal|] == literal && text[|literal|] == '\0'
      modifies text
      ensures match SplitHost(literal)
        case None => !ok
        case Some((h, p)) => ok && host == h && port == p
    {
      hide CStr, StrtoulToUint16;
      ghost var whole := text[..];
      StringInBuffer(whole, literal);
      ghost var c := CStr(literal);
      var i := 0;
      while text[i] != '\0' && text[i] != ':'
        invariant i <= |c| && text[..] == whole
        invariant forall j :: 0 <= j < i ==> c[j] != ':'
        decreases |c| - i
      {
        assert whole[i] == text[i] && i < |c|;
        i := i + 1;
      }
      assert whole[i] == text[i];
      IndexOfIs(c, ':', i);
      if text[i] == '\0' {
        return false, "", 0;
      }
      text[i] := '\0';
      CStrIs(text[..], c[..i]);
      host := CStr(text[..]);
      CStrIs(text[i + 1..], c[i + 1..]);
      port := StrtoulToUint16(CStr(text[i + 1..]));
      ok := true;
    }

    method CloseBlock(resolves: Resolver) returns (r: Result)
      modifies this`proxies
      ensures match Close(resolves, old(Now()))
        case Missing => r == One && proxies == old(proxies)
        case Unresolved => r == Gone && proxies == old(proxies)
        case Added(st) => r == Running && Now() == st
    {
      var failures := 0;
      if local.frontport == 0 {
        failures := failures + 1;
      }
      if local.backport == 0 {
        failures := failures + 1;
      }
      if failures > 0 {
        return One;
      }
      var bep := BackendNew(resolves, local, uris);
      if bep == None {
        return Gone;
      }
      proxies := proxies + [bep.value];
      return Running;
    }
  }

  /** What main does with the text of the configuration file. */
  method LoadSettings(text: string, resolves: Resolver) returns (r: Result, proxies: seq<Backend>)
    ensures Reports(r, proxies, Parse(resolves, Tokens(text)))
  {
    var parser := new Parser(text);
    r := parser.YyParse(resolves);
    proxies := parser.proxies;
  }
}
