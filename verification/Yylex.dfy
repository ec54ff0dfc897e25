/** yylex itself: a stream with one character of pushback, one shared buffer, and a line counter. */
module Yylex {
  import opened CStrings
  import opened Numerals
  import opened Lexer

  /** What yylex returns. EndOfFile is 0, Failed is -1; both end the input for the parser. */
  datatype Code = INTEGER | FLOAT | STRING | CHAR | WORD(k: Kw) | CHARACTER(p: char) | EndOfFile | Failed | Exited

  class Scanner {
    const input: string
    const buffer: array<char> // yylex_buffer
    var pos: nat
    var pushed: Option<char>
    var lineno: nat
    // yylval
    var intVal: nat
    var doubleVal: real
    var charVal: char
    var stringVal: array<char>

    ghost predicate Valid()
      reads this`pos
    {
      pos <= |input| && buffer.Length == YYLEX_BUFFER_SIZE
    }

    /** The characters still to be read. */
    ghost function Rest(): string
      reads this`pos, this`pushed
      requires Valid()
    {
      (if pushed.Some? then [pushed.value] else "") + input[pos..]
    }

    /** The line counter is 1 plus the newlines of all gaps behind; equally, the gaps still ahead are all that
        is missing to the count of the whole input. */
    ghost predicate Counted()
      reads this`pos, this`pushed, this`lineno
      requires Valid()
    {
      lineno + LinesBetween(Rest()) == 1 + LinesBetween(input)
    }

    /** The token that a return code, yylval and the buffer stand for together. */
    ghost predicate Holds(code: Code, token: Token)
      reads this, buffer, stringVal
    {
      match token
      case Integer(n) => code == INTEGER && intVal == n
      case Float(v) => code == FLOAT && doubleVal == v
      case Str(s) => code == STRING && stringVal == buffer && |s| < buffer.Length &&
                     buffer[..|s|] == s && buffer[|s|] == '\0'
      case CharLit(c) => code == CHAR && charVal == c
      case Keyword(k) => code == WORD(k)
      case Punct(p) => code == CHARACTER(p)
      case TooLarge => code == Exited
    }

    /** The stream with the character in hand put back in front. */
    ghost function Ahead(ch: Option<char>): string
      reads this`pos, this`pushed
      requires Valid()
    {
      (if ch.Some? then [ch.value] else "") + Rest()
    }

    lemma AheadOf(ch: Option<char>)
      requires Valid()
      ensures ch.None? ==> Ahead(ch) == Rest()
      ensures ch.Some? ==> Ahead(ch) == [ch.value] + Rest() && Ahead(ch)[0] == ch.value && Ahead(ch)[1..] == Rest()
    {
    }

    constructor (text: string)
      ensures Valid() && Rest() == text && lineno == 1 && input == text && Counted() && fresh(buffer)
    {
      input := text;
      pos, pushed, lineno := 0, None, 1;
      intVal, doubleVal, charVal := 0, 0.0, '\0';
      var b := new char[YYLEX_BUFFER_SIZE];
      buffer, stringVal := b, b;
    }

    method Fgetc() returns (ch: Option<char>)
      requires Valid()
      modifies this`pos, this`pushed
      ensures Valid() && pushed == None
      ensures ch == if old(Rest()) == "" then None else Some(old(Rest())[0])
      ensures Rest() == if old(Rest()) == "" then "" else old(Rest())[1..]
      ensures Ahead(ch) == old(Rest())
    {
      if pushed.Some? {
        ch, pushed := pushed, None;
      } else if pos < |input| {
        ch, pos := Some(input[pos]), pos + 1;
      } else {
        ch := None;
      }
    }

    /** Only one character may be waiting: the standard promises no more. */
    method Ungetc(c: char)
      requires Valid() && pushed == None
      modifies this`pushed
      ensures Valid() && Rest() == [c] + old(Rest())
    {
      pushed := Some(c);
    }

    method SkipBlanks() returns (ch: Option<char>)
      requires Valid()
      modifies this`pos, this`pushed, this`lineno
      ensures Valid() && pushed == None
      ensures var t := Skip(old(Rest()), false);
        ch == (if t == "" then None else Some(t[0])) && Rest() == (if t == "" then "" else t[1..])
      ensures lineno == old(lineno) + Newlines(Gap(old(Rest())))
    {
      var comment := false;
      hide Rest, Skip, Gap, Newlines;
      ghost var s, k := Rest(), 0;
      NoNewlinesYet(s);
      while true
        invariant Valid()
        invariant k <= |s| && Rest() == s[k..]
        invariant Skip(s, false) == Skip(s[k..], comment)
        invariant lineno == old(lineno) + Newlines(s[..k])
        decreases |s| - k
      {
        ch := Fgetc();
        SkipStep(s, k, comment);
        if ch == None {
          return;
        }
        if ch.value == '\n' {
          lineno := lineno + 1;
          if comment {
            comment := false;
          }
        }
        if !comment {
          if ch.value == '#' {
            comment := true;
          } else if !IsSpace(ch.value) {
            return;
          }
        }
        k := k + 1;
      }
    }

    method ReadChar() returns (code: Code)
      requires Valid()
      modifies this`pos, this`pushed, this`charVal
      ensures Valid()
      ensures code in {CHAR, Failed}
      ensures code == CHAR <==> ScanChar(old(Rest())).Got?
      ensures code == CHAR ==> ScanChar(old(Rest())) == Got(CharLit(charVal), Rest())
    {
      var ch := Fgetc();
      if ch == None {
        return Failed;
      }
      if ch.value == '\\' {
        ch := Fgetc();
        if ch == None {
          return Failed;
        }
      }
      charVal := ch.value;
      ch := Fgetc();
      if ch == None || ch.value != '\'' {
        return Failed;
      }
      return CHAR;
    }

    method ReadString() returns (code: Code)
      requires Valid()
      modifies this`pos, this`pushed, this`stringVal, buffer
      ensures Valid() && code in {STRING, Failed}
      ensures match ScanString(old(Rest()))
        case Got(token, rest) => Holds(code, token) && Rest() == rest
        case _ => code == Failed
    {
      var size, done, escape := 0, false, false;
      var ch: Option<char> := None;
      ghost var whole := Unquote(Rest(), false);
      PrependEmpty(buffer[..size], whole);
      while !done && size < YYLEX_BUFFER_SIZE - 1
        invariant Valid()
        invariant size <= YYLEX_BUFFER_SIZE - 1
        invariant !done ==> whole == Prepend(buffer[..size], Unquote(Rest(), escape))
        invariant done ==> whole == if ch == None then None else Some((buffer[..size], Rest()))
        decreases |Rest()|, !done
      {
        ghost var before, prefix := Rest(), buffer[..size];
        assert prefix + "" == prefix;
        ch := Fgetc();
        if ch == None {
          done := true;
        } else if !escape && ch.value == '"' {
          done := true;
        } else if !escape && ch.value == '\\' {
          escape := true;
        } else {
          escape := false;
          buffer[size] := ch.value;
          size := size + 1;
          assert buffer[..size] == prefix + [before[0]];
          PrependStep(prefix, before[0], Unquote(Rest(), false));
        }
      }
      if ch == None || size >= YYLEX_BUFFER_SIZE - 1 {
        return Failed;
      }
      ghost var content := buffer[..size];
      buffer[size] := '\0';
      assert buffer[..size] == content;
      stringVal := buffer;
      return STRING;
    }

    method ReadWord(first: char) returns (code: Code)
      requires Valid() && pushed == None && IsAlpha(first)
      modifies this`pos, this`pushed, buffer
      ensures Valid() && (code.WORD? || code in {Failed, Exited})
      ensures match ScanWord([first] + old(Rest()))
        case Got(token, rest) => Holds(code, token) && (code != Exited ==> Rest() == rest)
        case _ => code == Failed
    {
      hide Rest, Ahead, Lookup, ScanWord, AllWordChars, IsWordChar, IsAlpha;
      ghost var text := [first] + Rest();
      var index, ch := 0, Some(first);
      assert buffer[..index] == "";
      NoWordYet(first);
      AheadOf(ch);
      while ch.Some? && IsWordChar(ch.value)
        invariant Valid() && index < YYLEX_BUFFER_SIZE - 1
        invariant pushed == None && (ch.None? ==> Rest() == "")
        invariant text == buffer[..index] + Ahead(ch)
        invariant AllWordChars(buffer[..index])
        decreases |Ahead(ch)|
      {
        ghost var ahead, word := Ahead(ch), buffer[..index];
        AheadOf(ch);
        MoreWord(word, ahead);
        buffer[index] := ch.value;
        index := index + 1;
        assert buffer[..index] == word + [ch.value];
        if index == YYLEX_BUFFER_SIZE - 1 {
          WordTooLarge(text, buffer[..index], ahead[1..]);
          return Exited;
        }
        ch := Fgetc();
        assert buffer[..index] == word + [ahead[0]];
      }
      AheadOf(ch);
      WordDone(text, buffer[..index], Ahead(ch));
      if ch.Some? {
        Ungetc(ch.value);
      }
      ghost var word := buffer[..index];
      buffer[index] := '\0';
      assert buffer[..index] == word;
      var found := FindToken(buffer[..index]);
      return if found.Some? then WORD(found.value) else Failed;
    }

    /** The search of the token table. */
    static method FindToken(name: string) returns (found: Option<Kw>)
      ensures found == Lookup(name)
    {
      hide Spelling;
      for i := 0 to |KEYWORDS|
        invariant forall k :: k in KEYWORDS[..i] ==> Spelling(k) != name
      {
        if Spelling(KEYWORDS[i]) == name {
          SpellingInjective(KEYWORDS[i], Lookup(name).value);
          return Some(KEYWORDS[i]);
        }
      }
      assert KEYWORDS[..|KEYWORDS|] == KEYWORDS;
      AllInTable();
      return None;
    }

    method ReadNumber(first: char) returns (code: Code)
      requires Valid() && pushed == None
      requires IsDigit(first) || first == '.'
      modifies this`pos, this`pushed, this`intVal, this`doubleVal, buffer
      ensures Valid() && code in {INTEGER, FLOAT, Failed}
      ensures match ScanNumber([first] + old(Rest()))
        case Got(token, rest) => Holds(code, token) && Rest() == rest
        case _ => code == Failed
    {
      hide Rest, ScanDigits;
      ghost var t := [first] + Rest();
      var base, ch := 10, Some(first);
      if first == '0' {
        ch := Fgetc();
        if ch == None {
          assert t == "0";
          intVal := 0;
          LoneZero();
          return INTEGER;
        }
        assert t[1] == ch.value;
        if ch.value == 'x' || ch.value == 'X' {
          base := 16;
          ch := Fgetc();
          assert Ahead(ch) == t[2..];
        } else {
          Ungetc(ch.value);
          base := 8;
          ch := Some('0');
          assert Ahead(ch) == t;
        }
      }
      code := ReadDigits(base, ch);
    }

    /** The digit loop of yylex. Every digit is saved, because a point turns an octal run decimal. */
    method ReadDigits(base0: nat, first: Option<char>) returns (code: Code)
      requires Valid() && (base0 == 8 || base0 == 10 || base0 == 16)
      requires first.None? ==> Rest() == ""
      requires pushed == None || (first.Some? && IsDigit(first.value))
      modifies this`pos, this`pushed, this`intVal, this`doubleVal, buffer
      ensures Valid() && code in {INTEGER, FLOAT, Failed}
      ensures match ScanDigits(base0, old(Ahead(first)))
        case Got(token, rest) => Holds(code, token) && Rest() == rest
        case _ => code == Failed
    {
      hide Rest, Ahead, ScanDigits, Reading, Value, AddDigit;
      ghost var text, w := Ahead(first), 0;
      ReadingStarts(base0, text);
      var base, ch, float, n := base0, first, false, 0;
      var acc := Accum(0, 0.0, 10.0);
      assert buffer[..n] == "";
      while ch.Some? && (IsDigit(ch.value) || (!float && ch.value == '.'))
        invariant Valid() && n <= YYLEX_BUFFER_SIZE && (base == 8 || base == 10 || base == 16)
        invariant ch.None? ==> Rest() == ""
        invariant pushed == None || (ch.Some? && IsDigit(ch.value))
        invariant Reading(base0, text, Ahead(ch), base, float, buffer[..n], w, acc)
        decreases |Ahead(ch)|
      {
        ghost var ahead, saved := Ahead(ch), buffer[..n];
        AheadOf(ch);
        if ch.value == '.' {
          if base == 16 {
            Ungetc(ch.value);
            ReadingEnds(base0, text, ahead, base, float, saved, w, acc);
            intVal := acc.integer;
            return INTEGER;
          }
          ReadingPoint(base0, text, ahead, base, saved, w, acc);
          var integer := acc.integer;
          if base == 8 {
            integer := DecimalAgain(n);
          }
          base, float := 10, true;
          acc := Accum(integer, integer as real, acc.denom);
          ch := Fgetc();
          assert Ahead(ch) == ahead[1..] && buffer[..n] == saved;
          continue;
        }
        if n >= YYLEX_BUFFER_SIZE {
          ReadingTooLong(base0, text, ahead, base, float, saved, w, acc);
          return Failed;
        }
        buffer[n] := ch.value;
        n := n + 1;
        assert buffer[..n] == saved + [ahead[0]];
        if Refused(base, ch.value) {
          ReadingRefused(base0, text, ahead, base, float, saved, w, acc);
          return Failed;
        }
        ReadingDigit(base0, text, ahead, base, float, saved, w, acc);
        acc := AddDigit(base, float, acc, ch.value);
        w := if float then w else n;
        ch := Fgetc();
        assert Ahead(ch) == ahead[1..] && buffer[..n] == saved + [ahead[0]];
      }
      AheadOf(ch);
      ReadingEnds(base0, text, Ahead(ch), base, float, buffer[..n], w, acc);
      if ch.Some? {
        Ungetc(ch.value);
      }
      if !float {
        intVal := acc.integer;
        return INTEGER;
      }
      doubleVal := acc.double;
      return FLOAT;
    }

    /** The restart: the saved octal digits, read again in base ten. */
    method DecimalAgain(n: nat) returns (integer: nat)
      requires Valid() && n <= YYLEX_BUFFER_SIZE && AllDigits(buffer[..n])
      ensures integer == Value(10, buffer[..n]) % SIZE_MODULUS
    {
      hide Value;
      integer := 0;
      assert buffer[..0] == "";
      ValueOfNone(10);
      for i := 0 to n
        invariant integer == Value(10, buffer[..i]) % SIZE_MODULUS
      {
        ValueSnoc(10, buffer[..i], buffer[i]);
        assert buffer[..i + 1] == buffer[..i] + [buffer[i]];
        WrapStep(Value(10, buffer[..i]), 10, DigitOf(buffer[i]));
        integer := (integer * 10 + DigitOf(buffer[i])) % SIZE_MODULUS;
      }
    }

    method YyLex() returns (code: Code)
      requires Valid()
      modifies this, buffer
      ensures Valid()
      ensures match Scan(old(Rest()))
        case Got(token, rest) => Holds(code, token) && (code != Exited ==> Rest() == rest)
        case EndOfInput => code == EndOfFile
        case NotAToken => code == Failed
      ensures lineno == old(lineno) + Newlines(Gap(old(Rest())))
      ensures old(Counted()) && code in {EndOfFile, Failed} ==> lineno == 1 + LinesBetween(input)
      ensures old(Counted()) && code !in {EndOfFile, Failed, Exited} ==> Counted()
      ensures code.CHARACTER? ==> stringVal == old(stringVal) && buffer[..] == old(buffer[..])
    {
      hide Rest, Ahead, Skip, Gap, Newlines, LinesBetween, ScanChar, ScanString, ScanNumber, ScanWord;
      ghost var t := Skip(Rest(), false);
      LinesStep(Rest());
      var ch := SkipBlanks();
      if ch == None {
        return EndOfFile;
      }
      assert t == [t[0]] + Rest();
      if ch.value == '\'' {
        code := ReadChar();
      } else if ch.value == '"' {
        code := ReadString();
      } else if IsDigit(ch.value) || ch.value == '.' {
        code := ReadNumber(ch.value);
      } else if IsAlpha(ch.value) {
        code := ReadWord(ch.value);
      } else if IsPunct(ch.value) {
        code := CHARACTER(ch.value);
      } else {
        code := Failed;
      }
    }
  }

  lemma LinesStep(s: string)
    ensures LinesBetween(s) == Newlines(Gap(s)) + match Scan(s) case Got(_, rest) => LinesBetween(rest) case _ => 0
  {
  }

  lemma NoNewlinesYet(s: string)
    ensures Newlines(s[..0]) == 0
  {
  }

  /** One turn of the blank-skipping loop, seen from the whole input. */
  lemma SkipStep(s: string, k: nat, comment: bool)
    requires k <= |s| && Skip(s, false) == Skip(s[k..], comment)
    ensures k == |s| ==> Skip(s, false) == "" && Gap(s) == s[..k]
    ensures k < |s| ==> s[k..][0] == s[k] && s[k..][1..] == s[k + 1..]
    ensures k < |s| ==> Newlines(s[..k + 1]) == Newlines(s[..k]) + if s[k] == '\n' then 1 else 0
    ensures k < |s| ==>
      if s[k] == '\n' then Skip(s, false) == Skip(s[k + 1..], false)
      else if comment || s[k] == '#' then Skip(s, false) == Skip(s[k + 1..], true)
      else if IsSpace(s[k]) then Skip(s, false) == Skip(s[k + 1..], false)
      else Skip(s, false) == s[k..] && Gap(s) == s[..k]
  {
    if k < |s| {
      assert s[..k + 1] == s[..k] + [s[k]];
    }
  }

  ghost function Prepend(p: string, r: Option<(string, string)>): Option<(string, string)> {
    if r.Some? then Some((p + r.value.0, r.value.1)) else None
  }

  lemma PrependEmpty(p: string, r: Option<(string, string)>)
    requires p == ""
    ensures Prepend(p, r) == r
  {
    if r.Some? {
      assert p + r.value.0 == r.value.0;
    }
  }

  lemma PrependStep(p: string, c: char, r: Option<(string, string)>)
    ensures Prepend(p, Prepend([c], r)) == Prepend(p + [c], r)
  {
    if r.Some? {
      assert p + ([c] + r.value.0) == p + [c] + r.value.0;
    }
  }

  lemma AllInTable()
    ensures forall k: Kw :: k in KEYWORDS
  {
    forall k: Kw ensures k in KEYWORDS {
      assert k == KEYWORDS[0] || k == KEYWORDS[1] || k == KEYWORDS[2] || k == KEYWORDS[3] || k == KEYWORDS[4] ||
             k == KEYWORDS[5] || k == KEYWORDS[6] || k == KEYWORDS[7] || k == KEYWORDS[8];
    }
  }

  lemma NoWordYet(first: char)
    requires IsAlpha(first)
    ensures AllWordChars("") && IsWordChar(first)
  {
  }

  lemma MoreWord(word: string, ahead: string)
    requires ahead != "" && AllWordChars(word) && IsWordChar(ahead[0])
    ensures AllWordChars(word + [ahead[0]])
    ensures word + ahead == word + [ahead[0]] + ahead[1..]
  {
  }

  lemma WordDone(text: string, word: string, ahead: string)
    requires text == word + ahead && |word| < YYLEX_BUFFER_SIZE - 1 && AllWordChars(word)
    requires ahead == "" || !IsWordChar(ahead[0])
    requires text != "" && IsAlpha(text[0])
    ensures ScanWord(text) == if Lookup(word).Some? then Got(Keyword(Lookup(word).value), ahead) else NotAToken
  {
    hide Lookup;
    var n := WordRun(text);
    assert text[..|word|] == word && text[|word|..] == ahead;
    assert n == |word|;
  }

  lemma WordTooLarge(text: string, word: string, ahead: string)
    requires text == word + ahead && |word| == YYLEX_BUFFER_SIZE - 1 && AllWordChars(word)
    requires text != "" && IsAlpha(text[0])
    ensures ScanWord(text).Got? && ScanWord(text).token == TooLarge
  {
    hide Lookup;
    assert WordRun(text) >= |word|;
  }

  lemma LoneZero()
    ensures ScanNumber("0") == Got(Integer(0), "")
  {
    DigitRunIs("0", 1);
    ValueSnoc(8, "", '0');
    assert "0"[..1] == "" + ['0'] && "0"[1..] == "";
  }

  /** The running values of the digit loop: the size_t, the double, and the next denominator. */
  datatype Accum = Accum(integer: int, double: real, denom: real)

  function AddDigit(base: nat, float: bool, acc: Accum, c: char): Accum
    requires acc.denom > 0.0
  {
    if float then
      acc.(double := acc.double + DigitOf(c) as real / acc.denom, denom := acc.denom * 10.0)
    else
      var scaled := acc.integer * base % SIZE_MODULUS;
      acc.(integer := (scaled + DigitOf(c)) % SIZE_MODULUS)
  }

  /** How far the digit loop has come: the text is the saved digits (with a point after the first w of
      them once one was seen) and then what lies ahead, and the running values belong to those digits. */
  ghost predicate Reading(base0: nat, text: string, ahead: string, base: nat, float: bool,
                          saved: string, w: nat, acc: Accum) {
    && w <= |saved| && AllDigits(saved) && AllAccepted(base0, saved[..w])
    && if float then
         && base == 10 && base0 != 16 && text == saved[..w] + "." + saved[w..] + ahead
         && acc.double == FloatValue(saved[..w], saved[w..]) && acc.denom == Pow10(|saved| - w + 1)
       else
         && base == base0 && w == |saved| && acc.denom == 10.0 && text == saved + ahead
         && acc.integer == Value(base0, saved) % SIZE_MODULUS
  }

  lemma ReadingStarts(base: nat, text: string)
    ensures Reading(base, text, text, base, false, "", 0, Accum(0, 0.0, 10.0))
  {
  }

  lemma ReadingDigit(base0: nat, text: string, ahead: string, base: nat, float: bool,
                     saved: string, w: nat, acc: Accum)
    requires Reading(base0, text, ahead, base, float, saved, w, acc)
    requires ahead != "" && IsDigit(ahead[0]) && !Refused(base, ahead[0])
    ensures acc.denom > 0.0
    ensures Reading(base0, text, ahead[1..], base, float, saved + [ahead[0]], if float then w else |saved| + 1,
                    AddDigit(base, float, acc, ahead[0]))
  {
    hide Value, Fraction, Pow10, ScanDigits;
    var c := ahead[0];
    assert ahead == [c] + ahead[1..];
    if float {
      assert (saved + [c])[..w] == saved[..w] && (saved + [c])[w..] == saved[w..] + [c];
      FractionSnoc(saved[w..], c);
    } else {
      assert saved[..w] == saved && (saved + [c])[..w + 1] == saved + [c];
      ValueSnoc(base, saved, c);
      WrapStep(Value(base, saved), base, DigitOf(c));
    }
  }

  /** At the point the saved run counts as decimal, whatever it was before. */
  lemma ReadingPoint(base0: nat, text: string, ahead: string, base: nat,
                     saved: string, w: nat, acc: Accum)
    requires Reading(base0, text, ahead, base, false, saved, w, acc)
    requires ahead != "" && ahead[0] == '.' && base in {8, 10}
    ensures AllDigits(saved)
    ensures base == 10 ==> acc.integer == Value(10, saved) % SIZE_MODULUS
    ensures var integer := Value(10, saved) % SIZE_MODULUS;
      Reading(base0, text, ahead[1..], 10, true, saved, w, Accum(integer, integer as real, acc.denom))
  {
    assert ahead == "." + ahead[1..] && saved[..w] == saved && saved[w..] == "";
    assert text == saved + "." + "" + ahead[1..];
  }

  lemma ReadingEnds(base0: nat, text: string, ahead: string, base: nat, float: bool,
                    saved: string, w: nat, acc: Accum)
    requires Reading(base0, text, ahead, base, float, saved, w, acc)
    requires |saved| <= YYLEX_BUFFER_SIZE
    requires ahead == "" || (!IsDigit(ahead[0]) && (float || base == 16 || ahead[0] != '.'))
    ensures acc.integer >= 0 || float
    ensures ScanDigits(base0, text) == Got(if float then Float(acc.double) else Integer(acc.integer), ahead)
  {
    if float {
      FloatDone(base0, text, saved[..w], saved[w..], ahead);
    } else {
      assert saved[..w] == saved;
      IntegerDone(base0, text, saved, ahead);
    }
  }

  lemma ReadingTooLong(base0: nat, text: string, ahead: string, base: nat, float: bool,
                       saved: string, w: nat, acc: Accum)
    requires Reading(base0, text, ahead, base, float, saved, w, acc)
    requires ahead != "" && IsDigit(ahead[0]) && |saved| >= YYLEX_BUFFER_SIZE
    ensures ScanDigits(base0, text) == NotAToken
  {
    hide Value, FloatValue, Fraction, Pow10, DigitRun;
    if float {
      var u := text[w + 1..];
      assert text[..w] == saved[..w] && text[w] == '.' && u == saved[w..] + ahead;
      DigitRunIs(text, w);
      assert u[|saved| - w] == ahead[0];
      assert DigitRun(u) > |saved| - w;
    } else {
      assert text[|saved|] == ahead[0];
      assert DigitRun(text) > |saved|;
    }
  }

  lemma ReadingRefused(base0: nat, text: string, ahead: string, base: nat, float: bool,
                       saved: string, w: nat, acc: Accum)
    requires Reading(base0, text, ahead, base, float, saved, w, acc)
    requires ahead != "" && IsDigit(ahead[0]) && Refused(base, ahead[0])
    ensures ScanDigits(base0, text) == NotAToken
  {
    assert text[|saved|] == ahead[0];
    var r := DigitRun(text);
    assert r > |saved|;
    assert text[..r][|saved|] == ahead[0];
  }

  lemma FractionSnoc(ds: string, c: char)
    ensures Fraction(ds + [c]) == Fraction(ds) + DigitOf(c) as real / Pow10(|ds| + 1)
    ensures Pow10(|ds| + 2) == Pow10(|ds| + 1) * 10.0
  {
    assert (ds + [c])[..|ds|] == ds;
  }

  lemma IntegerDone(base: nat, text: string, digits: string, ahead: string)
    requires text == digits + ahead && |digits| <= YYLEX_BUFFER_SIZE
    requires AllDigits(digits) && AllAccepted(base, digits)
    requires ahead == "" || (!IsDigit(ahead[0]) && (base == 16 || ahead[0] != '.'))
    ensures ScanDigits(base, text) == Got(Integer(Value(base, digits) % SIZE_MODULUS), ahead)
  {
    assert text[..|digits|] == digits && text[|digits|..] == ahead;
    DigitRunIs(text, |digits|);
  }

  lemma FloatDone(base: nat, text: string, whole: string, frac: string, ahead: string)
    requires base != 16 && text == whole + "." + frac + ahead && |whole| + |frac| <= YYLEX_BUFFER_SIZE
    requires AllDigits(whole) && AllAccepted(base, whole) && AllDigits(frac)
    requires ahead == "" || !IsDigit(ahead[0])
    ensures ScanDigits(base, text) == Got(Float(FloatValue(whole, frac)), ahead)
  {
    var u := text[|whole| + 1..];
    assert text[..|whole|] == whole && text[|whole|] == '.' && u == frac + ahead;
    DigitRunIs(text, |whole|);
    assert u[..|frac|] == frac && u[|frac|..] == ahead;
    DigitRunIs(u, |frac|);
  }
}
