/** What yylex recognises: each function reads a token off the front of the remaining input. */
module Lexer {
  import opened CStrings
  import opened Numerals

  const YYLEX_BUFFER_SIZE: nat := 4096

  /** The keyword tokens of the grammar. */
  datatype Kw = CONFIG | URI | MAPPING | FRONT_END | BACK_END | TIMEOUT | POLL | REFRESH | REPORTER

  const KEYWORDS := [CONFIG, URI, MAPPING, FRONT_END, BACK_END, TIMEOUT, POLL, REFRESH, REPORTER]

  /** Their entries in yytname. */
  function Spelling(k: Kw): string {
    match k
    case CONFIG => "memcache-stats-proxy-settings"
    case URI => "uri"
    case MAPPING => "proxy-mapping"
    case FRONT_END => "front-end"
    case BACK_END => "back-end"
    case TIMEOUT => "timeout"
    case POLL => "poll-interval"
    case REFRESH => "webpage-refresh-interval"
    case REPORTER => "memcache-reporter"
  }

  lemma SpellingInjective(k: Kw, l: Kw)
    requires Spelling(k) == Spelling(l)
    ensures k == l
  {
    assert Spelling(MAPPING)[1] == 'r' && Spelling(POLL)[1] == 'o';
  }

  datatype Token =
    | Integer(n: nat)
    | Float(v: real)
    | Str(s: string)
    | CharLit(c: char)
    | Keyword(k: Kw)
    | Punct(p: char)
    | TooLarge // "Keyword too large": yyerror leaves the process

  /** NotAToken is yylex returning -1; to the parser that is the end of the input, like EndOfInput. */
  datatype Scanned = Got(token: Token, rest: string) | EndOfInput | NotAToken

  /** What is left after white space and comments. */
  function Skip(s: string, comment: bool): (t: string)
    ensures |t| <= |s|
    ensures t != "" ==> !IsSpace(t[0]) && t[0] != '#'
  {
    if s == "" then s
    else if s[0] == '\n' then Skip(s[1..], false)
    else if comment || s[0] == '#' then Skip(s[1..], true)
    else if IsSpace(s[0]) then Skip(s[1..], false)
    else s
  }

  function Newlines(s: string): nat {
    multiset(s)['\n']
  }

  function Gap(s: string): string {
    s[..|s| - |Skip(s, false)|]
  }

  /** The contents of a quoted literal and what follows its closing quote. */
  function Unquote(t: string, escape: bool): (r: Option<(string, string)>)
    ensures r.Some? ==> |r.value.1| < |t|
    ensures r.Some? ==> |r.value.0| < |t|
  {
    if t == "" then None
    else if !escape && t[0] == '"' then Some(("", t[1..]))
    else if !escape && t[0] == '\\' then Unquote(t[1..], true)
    else
      match Unquote(t[1..], false)
      case None => None
      case Some((s, rest)) => Some(([t[0]] + s, rest))
  }

  function ScanString(t: string): (r: Scanned)
    ensures r != EndOfInput && (r.Got? ==> |r.rest| < |t|)
  {
    match Unquote(t, false)
    case None => NotAToken
    case Some((s, rest)) => if |s| < YYLEX_BUFFER_SIZE - 1 then Got(Str(s), rest) else NotAToken
  }

  function ScanChar(t: string): (r: Scanned)
    ensures r != EndOfInput && (r.Got? ==> |r.rest| < |t|)
  {
    var u := if t != "" && t[0] == '\\' then t[1..] else t;
    if |u| < 2 || u[1] != '\'' then NotAToken else Got(CharLit(u[0]), u[2..])
  }

  /** A digit the lexer refuses in this base; in hexadecimal it refuses 9, and letters end the run. */
  predicate Refused(base: nat, d: char) {
    (base == 8 && d >= '8') || (base == 16 && d >= '9')
  }

  predicate AllAccepted(base: nat, ds: string) {
    forall i :: 0 <= i < |ds| ==> !Refused(base, ds[i])
  }

  /** The value of the digits after a decimal point. */
  function Fraction(ds: string): real {
    if ds == "" then 0.0 else Fraction(ds[..|ds| - 1]) + DigitOf(ds[|ds| - 1]) as real / Pow10(|ds|)
  }

  function Pow10(n: nat): (p: real)
    ensures p >= 1.0
  {
    if n == 0 then 1.0 else 10.0 * Pow10(n - 1)
  }

  predicate HexPrefix(t: string) {
    |t| > 1 && t[0] == '0' && (t[1] == 'x' || t[1] == 'X')
  }

  /** A run of digits, and in octal or decimal possibly a point and a fraction: then the run is decimal. */
  function ScanDigits(base: nat, t: string): (r: Scanned)
    ensures r != EndOfInput && (r.Got? ==> |r.rest| <= |t|)
  {
    var r := DigitRun(t);
    if r > YYLEX_BUFFER_SIZE || !AllAccepted(base, t[..r]) then NotAToken
    else if base != 16 && r < |t| && t[r] == '.' then
      var f := DigitRun(t[r + 1..]);
      if r + f > YYLEX_BUFFER_SIZE then NotAToken
      else Got(Float(FloatValue(t[..r], t[r + 1..][..f])), t[r + 1..][f..])
    else Got(Integer(Value(base, t[..r]) % SIZE_MODULUS), t[r..])
  }

  function FloatValue(whole: string, frac: string): real {
    (Value(10, whole) % SIZE_MODULUS) as real + Fraction(frac)
  }

  function ScanNumber(t: string): (r: Scanned)
    requires t != "" && (IsDigit(t[0]) || t[0] == '.')
    ensures r != EndOfInput && (r.Got? ==> |r.rest| < |t|)
  {
    if HexPrefix(t) then ScanDigits(16, t[2..]) else ScanDigits(if t[0] == '0' then 8 else 10, t)
  }

  predicate IsWordChar(c: char) {
    IsAlnum(c) || c == '-' || c == '_'
  }

  predicate AllWordChars(s: string) {
    forall i :: 0 <= i < |s| ==> IsWordChar(s[i])
  }

  function WordRun(s: string): (n: nat)
    ensures n <= |s| && AllWordChars(s[..n])
    ensures n < |s| ==> !IsWordChar(s[n])
  {
    if s == "" || !IsWordChar(s[0]) then 0 else
      var n := 1 + WordRun(s[1..]);
      assert s[..n] == [s[0]] + s[1..][..n - 1];
      n
  }

  function Lookup(name: string): (k: Option<Kw>)
    ensures k.Some? ==> Spelling(k.value) == name
    ensures k.None? ==> forall l: Kw :: Spelling(l) != name
  {
    if name == Spelling(CONFIG) then Some(CONFIG)
    else if name == Spelling(URI) then Some(URI)
    else if name == Spelling(MAPPING) then Some(MAPPING)
    else if name == Spelling(FRONT_END) then Some(FRONT_END)
    else if name == Spelling(BACK_END) then Some(BACK_END)
    else if name == Spelling(TIMEOUT) then Some(TIMEOUT)
    else if name == Spelling(POLL) then Some(POLL)
    else if name == Spelling(REFRESH) then Some(REFRESH)
    else if name == Spelling(REPORTER) then Some(REPORTER)
    else None
  }

  function ScanWord(t: string): (r: Scanned)
    requires t != "" && IsAlpha(t[0])
    ensures r != EndOfInput && (r.Got? ==> |r.rest| < |t|)
  {
    var w := WordRun(t);
    if w >= YYLEX_BUFFER_SIZE - 1 then Got(TooLarge, t[w..])
    else
      match Lookup(t[..w])
      case Some(k) => Got(Keyword(k), t[w..])
      case None => NotAToken
  }

  /** The token at the front of input that starts with neither a blank nor a comment. */
  function ScanToken(t: string): (r: Scanned)
    requires t != ""
    ensures r != EndOfInput && (r.Got? ==> |r.rest| < |t|)
  {
    if t[0] == '\'' then ScanChar(t[1..])
    else if t[0] == '"' then ScanString(t[1..])
    else if IsDigit(t[0]) || t[0] == '.' then ScanNumber(t)
    else if IsAlpha(t[0]) then ScanWord(t)
    else if IsPunct(t[0]) then Got(Punct(t[0]), t[1..])
    else NotAToken
  }

  /** Every token shortens the input. */
  function Scan(s: string): (r: Scanned)
    ensures r.Got? ==> |r.rest| < |s|
  {
    var t := Skip(s, false);
    if t == "" then EndOfInput else ScanToken(t)
  }

  /** The newlines between the tokens: in the gap before each, and in the one before the end. */
  function LinesBetween(s: string): nat
    decreases |s|
  {
    Newlines(Gap(s)) + match Scan(s) case Got(_, rest) => LinesBetween(rest) case _ => 0
  }

  /** The tokens the parser gets to see. */
  function Tokens(s: string): seq<Token>
    decreases |s|
  {
    match Scan(s)
    case Got(token, rest) => [token] + Tokens(rest)
    case _ => []
  }
}
