/** Printing and reading back: every way of writing a token stream down lexes to that stream. */
module Spelling {
  import opened CStrings
  import opened Numerals
  import opened Lexer
  import opened Yylex

  /** White space and whole comments. */
  predicate IsGap(g: string, comment: bool) {
    if g == "" then !comment
    else if g[0] == '\n' then IsGap(g[1..], false)
    else if comment || g[0] == '#' then IsGap(g[1..], true)
    else IsSpace(g[0]) && IsGap(g[1..], false)
  }

  /** The characters that may stand for a token. Any escaping inside quotes and any numeral will do. */
  predicate Spells(text: string, token: Token) {
    match token
    case Keyword(k) => text == Spelling(k)
    case Punct(p) => text == [p] && IsPunct(p) && p !in "'\"#."
    case Integer(n) =>
      if HexPrefix(text) then SpellsDigits(16, text[2..], n)
      else text != "" && SpellsDigits(NumeralBase(text), text, n)
    case Str(s) => text != "" && text[0] == '"' && Unquote(text[1..], false) == Some((s, "")) && |s| < YYLEX_BUFFER_SIZE - 1
    case _ => false
  }

  predicate SpellsDigits(base: nat, ds: string, n: nat) {
    |ds| <= YYLEX_BUFFER_SIZE && AllDigits(ds) && AllAccepted(base, ds) && n == Value(base, ds) % SIZE_MODULUS
  }

  function NumeralBase(text: string): nat
    requires text != ""
  {
    if text[0] == '0' then 8 else 10
  }

  /** What may come right after a token without running into it. */
  predicate MayFollow(token: Token, rest: string) {
    && (token.Keyword? && rest != "" ==> !IsWordChar(rest[0]))
    && (token.Integer? && rest != "" ==> !IsDigit(rest[0]) && rest[0] !in ".xX")
  }

  lemma {:induction false} SkipGap(g: string, comment: bool, t: string)
    requires IsGap(g, comment)
    requires t == "" || (!IsSpace(t[0]) && t[0] != '#')
    ensures Skip(g + t, comment) == t
  {
    if g == "" {
      assert g + t == t;
    } else {
      assert (g + t)[1..] == g[1..] + t;
      SkipGap(g[1..], g[0] != '\n' && (comment || g[0] == '#'), t);
    }
  }

  lemma {:induction false} UnquoteAppend(t: string, escape: bool, rest: string)
    requires Unquote(t, escape).Some?
    ensures Unquote(t + rest, escape) == Some((Unquote(t, escape).value.0, Unquote(t, escape).value.1 + rest))
  {
    assert (t + rest)[1..] == t[1..] + rest;
    if !escape && t[0] == '"' {
    } else if !escape && t[0] == '\\' {
      UnquoteAppend(t[1..], true, rest);
    } else {
      UnquoteAppend(t[1..], false, rest);
    }
  }

  predicate Wordy(s: string) {
    AllWordChars(s) && 0 < |s| < YYLEX_BUFFER_SIZE - 1 && IsAlpha(s[0])
  }

  lemma SpellingIsWord(k: Kw)
    ensures Wordy(Spelling(k))
  {
    hide Wordy;
    match k
    case CONFIG => WordySettings();
    case MAPPING => WordyMapping();
    case REFRESH => WordyRefresh();
    case REPORTER => WordyReporter();
    case POLL => WordyPoll();
    case _ => WordyShort(k);
  }

  lemma WordySettings()
    ensures Wordy(Spelling(CONFIG))
  {
  }

  lemma WordyMapping()
    ensures Wordy(Spelling(MAPPING))
  {
  }

  lemma WordyRefresh()
    ensures Wordy(Spelling(REFRESH))
  {
  }

  lemma WordyReporter()
    ensures Wordy(Spelling(REPORTER))
  {
  }

  lemma WordyPoll()
    ensures Wordy(Spelling(POLL))
  {
  }

  lemma WordyShort(k: Kw)
    requires k in {URI, FRONT_END, BACK_END, TIMEOUT}
    ensures Wordy(Spelling(k))
  {
  }

  lemma SpellingFound(k: Kw)
    ensures Lookup(Spelling(k)) == Some(k)
  {
    hide Lookup, Spelling;
    SpellingInjective(k, Lookup(Spelling(k)).value);
  }

  lemma {:induction false} ScanSpelled(text: string, token: Token, rest: string)
    requires Spells(text, token) && MayFollow(token, rest)
    ensures text != "" && !IsSpace(text[0]) && text[0] != '#'
    ensures ScanToken(text + rest) == Got(token, rest)
  {
    hide Lookup, Spelling, Unquote, ScanDigits, ScanWord;
    var t := text + rest;
    match token
    case Keyword(k) =>
      SpellingIsWord(k);
      SpellingFound(k);
      WordDone(t, text, rest);
    case Punct(p) =>
      assert t[1..] == rest;
    case Integer(n) =>
      if HexPrefix(text) {
        assert t[2..] == text[2..] + rest;
        IntegerDone(16, t[2..], text[2..], rest);
      } else {
        IntegerDone(NumeralBase(text), t, text, rest);
        assert |text| > 1 ==> IsDigit(t[1]);
      }
    case Str(s) =>
      assert t[1..] == text[1..] + rest;
      UnquoteAppend(text[1..], false, rest);
      assert "" + rest == rest;
  }

  /** A token written down, with the blanks and comments in front of it. */
  datatype Piece = Piece(gap: string, text: string)

  function Render(ps: seq<Piece>, tail: string): string {
    if ps == [] then tail else ps[0].gap + (ps[0].text + Render(ps[1..], tail))
  }

  predicate Spelled(ps: seq<Piece>, ts: seq<Token>) {
    |ps| == |ts| && forall i :: 0 <= i < |ps| ==> IsGap(ps[i].gap, false) && Spells(ps[i].text, ts[i])
  }

  /** Keywords and numbers are each followed by punctuation that cannot run into them or, for keywords, a string. */
  predicate Fenced(ts: seq<Token>) {
    forall i :: 0 <= i < |ts| ==> FencedAt(ts, i)
  }

  predicate FencedAt(ts: seq<Token>, i: nat)
    requires i < |ts|
  {
    && (ts[i].Keyword? ==> i + 1 < |ts| && (ts[i + 1].Str? || (ts[i + 1].Punct? && ts[i + 1].p !in "-_")))
    && (ts[i].Integer? ==> i + 1 < |ts| && ts[i + 1].Punct?)
  }

  /** Reading inverts printing: any gaps, any spellings, and at the end anything that starts no token, be it
      blank, an unfinished comment, or characters the lexer refuses. */
  lemma {:induction false} TokensOfRender(ps: seq<Piece>, ts: seq<Token>, tail: string)
    requires Spelled(ps, ts) && Fenced(ts) && !Scan(tail).Got?
    ensures Tokens(Render(ps, tail)) == ts
  {
    if ts != [] {
      var rest := Render(ps[1..], tail);
      assert forall i :: 0 <= i < |ts[1..]| ==> FencedAt(ts, i + 1) ==> FencedAt(ts[1..], i);
      TokensOfRender(ps[1..], ts[1..], tail);
      FencedFollows(ps, ts, tail);
      ScanSpelled(ps[0].text, ts[0], rest);
      SkipGap(ps[0].gap, false, ps[0].text + rest);
    }
  }

  /** Two such ends: nothing at all, and a word that yylex answers with -1, which the parser takes for the end. */
  lemma HarmlessTails()
    ensures !Scan("").Got? && Scan("x") == NotAToken
  {
    var t := "x";
    assert Skip(t, false) == t;
    assert AllWordChars(t) && t == t + "";
    WordDone(t, t, "");
    assert forall k: Kw :: |Spelling(k)| > 1;
  }

  lemma SpelledStart(text: string, token: Token)
    requires Spells(text, token) && (token.Punct? || token.Str?)
    ensures text != "" && text[0] == if token.Punct? then token.p else '"'
    ensures token.Punct? ==> IsPunct(token.p) && token.p !in "'\"#."
  {
  }

  lemma FencedFollows(ps: seq<Piece>, ts: seq<Token>, tail: string)
    requires Spelled(ps, ts) && Fenced(ts) && ts != []
    ensures MayFollow(ts[0], Render(ps[1..], tail))
  {
    hide Spells;
    assert FencedAt(ts, 0);
    if ts[0].Keyword? || ts[0].Integer? {
      var p := ps[1];
      assert ps[1..][0] == p;
      SpelledStart(p.text, ts[1]);
      var rest := Render(ps[1..], tail);
      assert p.gap == "" ==> rest[0] == p.text[0];
      assert p.gap != "" ==> rest[0] == p.gap[0];
    }
  }

  /** One token at the front. */
  lemma TokenInFront(gap: string, text: string, token: Token, rest: string)
    requires IsGap(gap, false) && Spells(text, token) && MayFollow(token, rest)
    ensures Tokens(gap + text + rest) == [token] + Tokens(rest)
  {
    hide IsGap, Spells, MayFollow, Skip, ScanToken;
    ScanSpelled(text, token, rest);
    SkipGap(gap, false, text + rest);
    assert gap + text + rest == gap + (text + rest);
  }

  // ----- one canonical spelling

  function Escaped(s: string): string {
    if s == "" then "" else (if s[0] == '"' || s[0] == '\\' then "\\" else "") + [s[0]] + Escaped(s[1..])
  }

  lemma {:induction false} UnquoteEscaped(s: string)
    ensures Unquote(Escaped(s) + "\"", false) == Some((s, ""))
  {
    if s != "" {
      var t := Escaped(s[1..]) + "\"";
      UnquoteEscaped(s[1..]);
      assert [s[0]] + s[1..] == s;
      if s[0] == '"' || s[0] == '\\' {
        assert Escaped(s) + "\"" == ['\\', s[0]] + t;
        assert (['\\', s[0]] + t)[1..] == [s[0]] + t;
        assert ([s[0]] + t)[1..] == t;
      } else {
        assert Escaped(s) + "\"" == [s[0]] + t;
        assert ([s[0]] + t)[1..] == t;
      }
    } else {
      assert Escaped(s) + "\"" == "\"";
    }
  }

  /** Any way of escaping: a backslash in front of a character, whichever it is, stands for that character;
      quotes and backslashes cannot do without. */
  predicate Escapes(raw: string, s: string) {
    if raw == "" then s == ""
    else if raw[0] == '\\' then |raw| > 1 && s != "" && s[0] == raw[1] && Escapes(raw[2..], s[1..])
    else raw[0] != '"' && s != "" && s[0] == raw[0] && Escapes(raw[1..], s[1..])
  }

  /** A literal reads as s if and only if it is an escaping of s. */
  lemma {:induction false} LiteralExactly(raw: string, s: string)
    requires NoClosing(raw)
    ensures Unquote(raw + "\"", false) == Some((s, "")) <==> Escapes(raw, s)
    decreases |raw|
  {
    var t := raw + "\"";
    if raw != "" {
      assert t[1..] == raw[1..] + "\"";
      if raw[0] == '\\' {
        assert t[1..][1..] == raw[2..] + "\"";
        if s != "" {
          assert s == [s[0]] + s[1..];
          LiteralExactly(raw[2..], s[1..]);
        }
        OneMore(t, 2, raw[1], s);
      } else {
        if s != "" {
          assert s == [s[0]] + s[1..];
          LiteralExactly(raw[1..], s[1..]);
        }
        OneMore(t, 1, raw[0], s);
      }
    } else {
      assert t[1..] == "";
    }
  }

  /** No quote in the literal ends it, and no backslash escapes the closing quote. */
  predicate NoClosing(raw: string) {
    if raw == "" then true
    else if raw[0] == '\\' then |raw| > 1 && NoClosing(raw[2..])
    else raw[0] != '"' && NoClosing(raw[1..])
  }

  /** One character of a literal, taken off the front of its text. */
  lemma OneMore(t: string, k: nat, c: char, s: string)
    requires k <= |t| && Unquote(t, false) ==
      match Unquote(t[k..], false) case None => None case Some((r, rest)) => Some(([c] + r, rest))
    ensures Unquote(t, false) == Some((s, "")) <==>
            s != "" && s[0] == c && Unquote(t[k..], false) == Some((s[1..], ""))
  {
    hide Unquote;
    match Unquote(t[k..], false)
    case None =>
    case Some((r, rest)) =>
      assert ([c] + r)[1..] == r;
      assert s != "" ==> s == [s[0]] + s[1..];
  }

  /** Tokens a configuration is made of. */
  predicate Writable(token: Token) {
    match token
    case Keyword(_) => true
    case Punct(p) => p in "{}=;"
    case Integer(n) => n < SIZE_MODULUS && |Decimal(n)| <= YYLEX_BUFFER_SIZE
    case Str(s) => |s| < YYLEX_BUFFER_SIZE - 1
    case _ => false
  }

  function Canonical(token: Token): string
    requires Writable(token)
  {
    match token
    case Keyword(k) => Spelling(k)
    case Punct(p) => [p]
    case Integer(n) => Decimal(n)
    case Str(s) => "\"" + Escaped(s) + "\""
  }

  lemma CanonicalSpells(token: Token)
    requires Writable(token)
    ensures Spells(Canonical(token), token)
  {
    hide Spelling, Unquote, Escaped, Decimal;
    if token.Integer? {
      DecimalNumeral(token.n);
    } else if token.Str? {
      assert ("\"" + Escaped(token.s) + "\"")[1..] == Escaped(token.s) + "\"";
      UnquoteEscaped(token.s);
    }
  }

  lemma DecimalNumeral(n: nat)
    ensures var base := NumeralBase(Decimal(n)); Value(base, Decimal(n)) == n && AllAccepted(base, Decimal(n))
  {
    if n == 0 {
      ValueSnoc(8, "", '0');
      ValueOfNone(8);
      assert "" + ['0'] == Decimal(0);
    } else {
      DecimalValue(n);
    }
  }

  // ----- numbers with a point

  /** A fraction moved left of the point. */
  function Scaled(ds: string): real {
    Fraction(ds) * Pow10(|ds|)
  }

  lemma {:induction false} FractionValue(ds: string)
    ensures Scaled(ds) == Value(10, ds) as real
  {
    if ds != "" {
      hide Value, Scaled;
      var init, c := ds[..|ds| - 1], ds[|ds| - 1];
      assert ds == init + [c];
      FractionValue(init);
      ScaledSnoc(init, c);
      ValueSnoc(10, init, c);
    } else {
      ValueOfNone(10);
      assert Fraction(ds) == 0.0;
    }
  }

  lemma ScaledSnoc(ds: string, c: char)
    ensures Scaled(ds + [c]) == Scaled(ds) * 10.0 + DigitOf(c) as real
  {
    var p := Pow10(|ds|);
    assert (ds + [c])[..|ds|] == ds;
    assert Pow10(|ds + [c]|) == 10.0 * p;
    assert Fraction(ds + [c]) == Fraction(ds) + DigitOf(c) as real / (10.0 * p);
    hide Fraction, Pow10;
    AddPlace(Fraction(ds), DigitOf(c) as real, p);
  }

  lemma AddPlace(f: real, d: real, p: real)
    requires p > 0.0
    ensures (f + d / (10.0 * p)) * (10.0 * p) == f * p * 10.0 + d
  {
    var q := 10.0 * p;
    assert d / q * q == d;
    assert (f + d / q) * q == f * q + d / q * q;
  }

  lemma Distribute(a: real, b: real, p: real)
    ensures (a + b) * p == a * p + b * p
  {
  }

  /** A run that began as octal is read again in base ten when a point follows it. */
  lemma PointRestart(whole: string, frac: string, rest: string) returns (v: real)
    requires whole != "" && AllDigits(whole) && AllDigits(frac) && |whole| + |frac| <= YYLEX_BUFFER_SIZE
    requires AllAccepted(NumeralBase(whole), whole)
    requires rest == "" || !IsDigit(rest[0])
    ensures Scan(whole + "." + frac + rest) == Got(Float(v), rest)
    ensures v * Pow10(|frac|) == (Value(10, whole) % SIZE_MODULUS) as real * Pow10(|frac|) + Value(10, frac) as real
  {
    hide ScanDigits, Value, Fraction, Pow10, Skip, ScanChar, ScanString, ScanWord;
    var t := whole + "." + frac + rest;
    assert t[0] == whole[0] && (|whole| == 1 ==> t[1] == '.') && (|whole| > 1 ==> t[1] == whole[1]);
    assert "" + t == t;
    SkipGap("", false, t);
    FloatDone(NumeralBase(whole), t, whole, frac, rest);
    FractionValue(frac);
    v := FloatValue(whole, frac);
    Distribute((Value(10, whole) % SIZE_MODULUS) as real, Fraction(frac), Pow10(|frac|));
  }

  // ----- the line counter

  lemma {:induction false} SkipIsSuffix(s: string, comment: bool)
    ensures Skip(s, comment) == s[|s| - |Skip(s, comment)|..]
  {
    if s != "" && !(s[0] != '\n' && !comment && s[0] != '#' && !IsSpace(s[0])) {
      SkipIsSuffix(s[1..], s[0] != '\n' && (comment || s[0] == '#'));
    }
  }

  /** A token that is no quoted literal is a run of characters on one line. */
  lemma PlainLexeme(t: string) returns (k: nat)
    requires t != "" && ScanToken(t).Got? && !ScanToken(t).token.Str? && !ScanToken(t).token.CharLit?
    ensures k <= |t| && ScanToken(t).rest == t[k..] && '\n' !in t[..k]
  {
    hide Lookup, Unquote, Value, FloatValue;
    if IsDigit(t[0]) || t[0] == '.' {
      k := NumberLexeme(t);
    } else if IsAlpha(t[0]) {
      k := WordRun(t);
      assert forall i :: 0 <= i < k ==> IsWordChar(t[..k][i]);
    } else {
      k := 1;
    }
  }

  lemma NumberLexeme(t: string) returns (k: nat)
    requires t != "" && (IsDigit(t[0]) || t[0] == '.') && ScanNumber(t).Got?
    ensures k <= |t| && ScanNumber(t).rest == t[k..] && '\n' !in t[..k]
  {
    hide Value, FloatValue, AllAccepted;
    if HexPrefix(t) {
      k := DigitsLexeme(16, t[2..]);
      assert t[..k + 2] == [t[0], t[1]] + t[2..][..k];
      k := k + 2;
    } else {
      k := DigitsLexeme(if t[0] == '0' then 8 else 10, t);
    }
  }

  lemma DigitsLexeme(base: nat, t: string) returns (k: nat)
    requires ScanDigits(base, t).Got?
    ensures k <= |t| && ScanDigits(base, t).rest == t[k..] && '\n' !in t[..k]
  {
    hide Value, FloatValue, AllAccepted, DigitRun;
    var r := DigitRun(t);
    DigitsOneLine(t[..r]);
    if base != 16 && r < |t| && t[r] == '.' {
      var u := t[r + 1..];
      var f := DigitRun(u);
      DigitsOneLine(u[..f]);
      k := r + 1 + f;
      assert t[..k] == t[..r] + "." + u[..f];
    } else {
      k := r;
    }
  }

  lemma DigitsOneLine(ds: string)
    requires AllDigits(ds)
    ensures '\n' !in ds
  {
  }

  /** yylex counts a newline in the blanks before a token, and only a quoted literal can hold others:
      for every other token the count is that of all the characters consumed. */
  lemma LinesOutsideLiterals(s: string)
    requires Scan(s).Got? && !Scan(s).token.Str? && !Scan(s).token.CharLit?
    ensures |Scan(s).rest| < |s| && Scan(s).rest == s[|s| - |Scan(s).rest|..]
    ensures Newlines(s[..|s| - |Scan(s).rest|]) == Newlines(Gap(s))
  {
    hide ScanToken, Skip;
    var t := Skip(s, false);
    SkipIsSuffix(s, false);
    var k := PlainLexeme(t);
    assert s == Gap(s) + t;
    assert s[..|s| - |t[k..]|] == Gap(s) + t[..k];
  }

  // ----- from any text to its spelling

  /** The tokens a configuration may hold. */
  predicate Plain(token: Token) {
    token.Keyword? || token.Punct? || token.Integer? || token.Str?
  }

  lemma {:induction false} GapIsGap(s: string, comment: bool)
    requires Skip(s, comment) != ""
    ensures IsGap(s[..|s| - |Skip(s, comment)|], comment)
  {
    if s[0] != '\n' && !comment && s[0] != '#' && !IsSpace(s[0]) {
      assert s[..0] == "";
    } else {
      var comment' := s[0] != '\n' && (comment || s[0] == '#');
      GapIsGap(s[1..], comment');
      var g := s[..|s| - |Skip(s, comment)|];
      assert g[1..] == s[1..][..|s[1..]| - |Skip(s[1..], comment')|];
    }
  }

  /** A literal read off the front of a text reads the same on its own. */
  lemma {:induction false} UnquotePrefix(t: string, escape: bool)
    requires Unquote(t, escape).Some?
    ensures var (s, rest) := Unquote(t, escape).value;
      rest == t[|t| - |rest|..] && Unquote(t[..|t| - |rest|], escape) == Some((s, ""))
  {
    var (s, rest) := Unquote(t, escape).value;
    var u := t[..|t| - |rest|];
    if !escape && t[0] == '"' {
      assert u[1..] == "";
    } else {
      var escape' := !escape && t[0] == '\\';
      UnquotePrefix(t[1..], escape');
      assert u[1..] == t[1..][..|t[1..]| - |rest|];
    }
  }

  /** Every token comes from a spelling of it at the front of the text. */
  lemma LexemeSpells(t: string) returns (k: nat)
    requires t != "" && t[0] != '#' && ScanToken(t).Got? && Plain(ScanToken(t).token)
    ensures 0 < k <= |t| && ScanToken(t).rest == t[k..] && Spells(t[..k], ScanToken(t).token)
  {
    hide Lookup, Spelling, Unquote, ScanDigits, IsGap;
    var rest := ScanToken(t).rest;
    if t[0] == '"' {
      UnquotePrefix(t[1..], false);
      k := |t| - |rest|;
      assert t[..k][1..] == t[1..][..|t[1..]| - |rest|];
    } else if IsDigit(t[0]) || t[0] == '.' {
      k := NumeralSpells(t);
    } else if IsAlpha(t[0]) {
      k := WordRun(t);
    } else {
      k := 1;
    }
  }

  lemma NumeralSpells(t: string) returns (k: nat)
    requires t != "" && (IsDigit(t[0]) || t[0] == '.')
    requires ScanNumber(t).Got? && Plain(ScanNumber(t).token)
    ensures 0 < k <= |t| && ScanNumber(t).rest == t[k..] && Spells(t[..k], ScanNumber(t).token)
  {
    hide Value, FloatValue, AllAccepted, AllDigits, DigitRun;
    if HexPrefix(t) {
      var r := DigitRun(t[2..]);
      k := r + 2;
      assert t[..k][2..] == t[2..][..r];
    } else {
      k := DigitRun(t);
      assert k > 0;
      DigitsAreNoPrefix(t[..k]);
    }
  }

  lemma DigitsAreNoPrefix(ds: string)
    requires AllDigits(ds)
    ensures !HexPrefix(ds)
  {
  }

  /** Every text is spelled by its own tokens, up to an end that starts no token. */
  lemma {:induction false} TextReadBack(s: string) returns (ps: seq<Piece>, tail: string)
    requires forall token :: token in Tokens(s) ==> Plain(token)
    ensures s == Render(ps, tail) && Spelled(ps, Tokens(s)) && !Scan(tail).Got?
    decreases |s|
  {
    hide IsGap, Spells, ScanToken, Skip;
    if Scan(s).Got? {
      var t, rest := Skip(s, false), Scan(s).rest;
      assert Tokens(s) == [Scan(s).token] + Tokens(rest);
      var k := LexemeSpells(t);
      var more;
      more, tail := TextReadBack(rest);
      var p := Piece(Gap(s), t[..k]);
      ps := [p] + more;
      SkipIsSuffix(s, false);
      GapIsGap(s, false);
      assert ps[1..] == more;
      assert s == p.gap + (p.text + rest);
    } else {
      ps, tail := [], s;
    }
  }

  // ----- what is refused

  lemma RefusedDigits(d: char)
    requires IsDigit(d)
    ensures Refused(8, d) <==> d in "89"
    ensures Refused(16, d) <==> d == '9'
    ensures !Refused(10, d)
  {
  }

  /** A string of more than 4094 characters is no token, however it is written, and one of fewer is. */
  lemma StringLimit(raw: string, s: string, rest: string)
    requires NoClosing(raw) && Escapes(raw, s)
    ensures Scan("\"" + raw + "\"" + rest) == if |s| <= 4094 then Got(Str(s), rest) else NotAToken
  {
    hide Unquote, Escapes, NoClosing;
    var t := "\"" + raw + "\"" + rest;
    LiteralExactly(raw, s);
    UnquoteAppend(raw + "\"", false, rest);
    assert t[1..] == raw + "\"" + rest && "" + rest == rest;
    assert Skip(t, false) == t;
  }

  /** A run of more than 4096 digits is no token, and neither is one in octal with an eight or a nine. */
  lemma NumberLimit(ds: string, rest: string)
    requires ds != "" && AllDigits(ds) && (rest == "" || !IsDigit(rest[0]))
    requires |ds| > 4096 || (ds[0] == '0' && exists i :: 0 <= i < |ds| && ds[i] in "89")
    requires |ds| == 1 ==> rest == "" || rest[0] !in "xX"
    ensures Scan(ds + rest) == NotAToken
  {
    hide DigitRun, Value, FloatValue;
    var t := ds + rest;
    assert t[..|ds|] == ds;
    DigitRunIs(t, |ds|);
    assert t[0] == ds[0] && Skip(t, false) == t;
    assert |ds| > 1 ==> t[1] == ds[1];
    if |ds| <= 4096 {
      var i :| 0 <= i < |ds| && ds[i] in "89";
      assert Refused(8, t[..|ds|][i]);
    }
  }
}
