/** Characters and NUL-terminated strings, as the C locale and the C string functions see them.
    A `string` stands for a run of bytes; the terminating NUL is written out where it matters. */
module CStrings {

  datatype Option<+T> = None | Some(value: T)

  const SIZE_MODULUS: int := 0x1_0000_0000_0000_0000 // size_t and unsigned long

  predicate IsDigit(c: char) {
    '0' <= c <= '9'
  }

  predicate IsSpace(c: char) {
    c == ' ' || '\t' <= c <= '\r'
  }

  predicate IsAlpha(c: char) {
    'a' <= c <= 'z' || 'A' <= c <= 'Z'
  }

  predicate IsAlnum(c: char) {
    IsAlpha(c) || IsDigit(c)
  }

  predicate IsPunct(c: char) {
    '!' <= c <= '~' && !IsAlnum(c)
  }

  /** The white space and the punctuation of the C locale, one by one. */
  lemma CharacterClasses(c: char)
    ensures IsSpace(c) <==> c as int in {9, 10, 11, 12, 13, 32}
    ensures IsPunct(c) <==> c in "!\"#$%&'()*+,-./" || c in ":;<=>?@" || c in "[\\]^_`" || c in "{|}~"
  {
    assert '!' <= c <= '/' ==> c == "!\"#$%&'()*+,-./"[c as int - 33];
    assert ':' <= c <= '@' ==> c == ":;<=>?@"[c as int - 58];
    assert '[' <= c <= '`' ==> c == "[\\]^_`"[c as int - 91];
    assert '{' <= c <= '~' ==> c == "{|}~"[c as int - 123];
  }

  predicate AllDigits(s: string) {
    forall i :: 0 <= i < |s| ==> IsDigit(s[i])
  }

  predicate NulFree(s: string) {
    forall i :: 0 <= i < |s| ==> s[i] != '\0'
  }

  /** What a `char *` to these bytes denotes: everything before the first NUL. */
  function CStr(s: string): (r: string)
    ensures r <= s && NulFree(r)
    ensures |r| < |s| ==> s[|r|] == '\0'
  {
    if s == [] || s[0] == '\0' then "" else [s[0]] + CStr(s[1..])
  }

  /** The three clauses above leave no other choice. */
  lemma {:induction false} CStrIs(s: string, t: string)
    requires t <= s && NulFree(t)
    requires |t| == |s| || s[|t|] == '\0'
    ensures CStr(s) == t
  {
    var r := CStr(s);
    assert |r| == |t|;
  }

  predicate OccursAt(s: string, pat: string, i: nat) {
    i + |pat| <= |s| && s[i..i + |pat|] == pat
  }

  /** strstr(s, pat) != NULL */
  predicate Contains(s: string, pat: string) {
    exists i | 0 <= i <= |s| :: OccursAt(s, pat, i)
  }

  /** The index strchr finds, or the length when it finds none. */
  function IndexOf(s: string, c: char): (i: nat)
    ensures i <= |s|
    ensures i < |s| ==> s[i] == c
    ensures forall j :: 0 <= j < i ==> s[j] != c
  {
    if s == [] || s[0] == c then 0 else 1 + IndexOf(s[1..], c)
  }

  lemma {:induction false} IndexOfIs(s: string, c: char, i: nat)
    requires i <= |s| && (i < |s| ==> s[i] == c)
    requires forall j :: 0 <= j < i ==> s[j] != c
    ensures IndexOf(s, c) == i
  {
  }
}

/** Numerals: the value of a run of digits, the usual decimal spelling, and the C conversions. */
module Numerals {
  import opened CStrings

  function DigitOf(c: char): int {
    c as int - '0' as int
  }

  /** The number a run of digits spells in the given base. */
  function Value(base: nat, ds: string): (v: int)
    ensures AllDigits(ds) ==> v >= 0
  {
    if ds == "" then 0 else Value(base, ds[..|ds| - 1]) * base + DigitOf(ds[|ds| - 1])
  }

  /** What printf("%u") writes. */
  function Decimal(n: nat): (ds: string)
    ensures |ds| > 0 && AllDigits(ds)
    ensures n > 0 ==> ds[0] != '0'
  {
    if n < 10 then [('0' as int + n) as char] else Decimal(n / 10) + [('0' as int + n % 10) as char]
  }

  lemma {:induction false} DecimalValue(n: nat)
    ensures Value(10, Decimal(n)) == n
  {
    if n >= 10 {
      DecimalValue(n / 10);
      assert Decimal(n)[..|Decimal(n)| - 1] == Decimal(n / 10);
    } else {
      assert Decimal(n)[..0] == "";
    }
  }

  /** The number of leading digits. */
  function DigitRun(s: string): (n: nat)
    ensures n <= |s| && AllDigits(s[..n])
    ensures n < |s| ==> !IsDigit(s[n])
  {
    if s == "" || !IsDigit(s[0]) then 0 else
      var n := 1 + DigitRun(s[1..]);
      assert s[..n] == [s[0]] + s[1..][..n - 1];
      n
  }

  lemma {:induction false} DigitRunIs(s: string, n: nat)
    requires n <= |s| && AllDigits(s[..n]) && (n < |s| ==> !IsDigit(s[n]))
    ensures DigitRun(s) == n
  {
  }

  function SpaceRun(s: string): (n: nat)
    ensures n <= |s|
    ensures forall i :: 0 <= i < n ==> IsSpace(s[i])
    ensures n < |s| ==> !IsSpace(s[n])
  {
    if s == "" || !IsSpace(s[0]) then 0 else 1 + SpaceRun(s[1..])
  }

  /** A subject sequence of the strto* family in base 10: sign and digits after white space. */
  datatype Subject = Subject(negative: bool, digits: string)

  function SubjectOf(s: string): (r: Subject)
    ensures AllDigits(r.digits)
  {
    SubjectAt(s[SpaceRun(s)..])
  }

  function SubjectAt(t: string): (r: Subject)
    ensures AllDigits(r.digits)
  {
    if t != "" && (t[0] == '-' || t[0] == '+') then Subject(t[0] == '-', LeadingDigits(t[1..]))
    else Subject(false, LeadingDigits(t))
  }

  function LeadingDigits(u: string): (ds: string)
    ensures AllDigits(ds)
  {
    u[..DigitRun(u)]
  }

  /** strtoul(s, NULL, 10), then stored in a uint16_t. */
  function StrtoulToUint16(s: string): (p: nat)
    ensures p < 0x1_0000
  {
    var sub := SubjectOf(s);
    var v := Value(10, sub.digits);
    var ul := if v >= SIZE_MODULUS then SIZE_MODULUS - 1 else if sub.negative then -v % SIZE_MODULUS else v;
    ul % 0x1_0000
  }

  /** sscanf(s, "%hd", &port): the sixteen bits stored, or None when nothing converts. */
  function ScanShort(s: string): (p: Option<nat>)
    ensures p.Some? ==> p.value < 0x1_0000
  {
    var sub := SubjectOf(s);
    if sub.digits == "" then None
    else
      var v := Value(10, sub.digits);
      var half := SIZE_MODULUS / 2;
      var l := if sub.negative then (if v > half then -half else -v) else if v >= half then half - 1 else v;
      Some(l % 0x1_0000)
  }

  /** size_t arithmetic one digit at a time loses nothing: reducing at every step or once is the same. */
  lemma {:induction false} WrapStep(v: int, base: nat, d: int)
    ensures ((v % SIZE_MODULUS) * base + d) % SIZE_MODULUS == (v * base + d) % SIZE_MODULUS
    ensures ((v % SIZE_MODULUS) * base % SIZE_MODULUS + d) % SIZE_MODULUS == (v * base + d) % SIZE_MODULUS
  {
    var q, r := v / SIZE_MODULUS, v % SIZE_MODULUS;
    assert v * base == (q * SIZE_MODULUS + r) * base == q * base * SIZE_MODULUS + r * base;
    WrapMultiple(q * base, r * base + d);
    WrapMultiple(r * base / SIZE_MODULUS, r * base % SIZE_MODULUS + d);
  }

  lemma WrapMultiple(k: int, x: int)
    ensures (k * SIZE_MODULUS + x) % SIZE_MODULUS == x % SIZE_MODULUS
  {
  }

  lemma ValueOfNone(base: nat)
    ensures Value(base, "") == 0
  {
  }

  lemma ValueSnoc(base: nat, ds: string, c: char)
    ensures Value(base, ds + [c]) == Value(base, ds) * base + DigitOf(c)
  {
    assert (ds + [c])[..|ds|] == ds;
  }

  // ----- decimal digits, one by one

  lemma DecimalDigits(n: nat, d: nat)
    requires d < 10
    ensures Decimal(d) == ["0123456789"[d]]
    ensures n > 0 ==> Decimal(10 * n + d) == Decimal(n) + ["0123456789"[d]]
  {
    assert "0123456789"[d] as int == 48 + d;
    assert (10 * n + d) / 10 == n && (10 * n + d) % 10 == d;
  }

  lemma ValueDigits(base: nat, ds: string, d: nat)
    requires d < 10
    ensures Value(base, "") == 0
    ensures Value(base, ds + ["0123456789"[d]]) == Value(base, ds) * base + d
  {
    assert "0123456789"[d] as int == 48 + d;
    ValueSnoc(base, ds, "0123456789"[d]);
  }

  predicate IsSign(s: string) {
    s == "" || s == "+" || s == "-"
  }

  /** Blanks, a sign and digits, and then something that is not a digit. */
  lemma SubjectOfNumber(blanks: string, sign: string, n: nat, t: string)
    requires (forall i :: 0 <= i < |blanks| ==> IsSpace(blanks[i])) && IsSign(sign)
    requires t == "" || !IsDigit(t[0])
    ensures SubjectOf(blanks + sign + Decimal(n) + t) == Subject(sign == "-", Decimal(n))
  {
    hide Decimal, SpaceRun, SubjectAt;
    var ds := Decimal(n);
    var v := SignedSubject(sign, ds, t);
    BlanksSkipped(blanks, v);
    assert blanks + sign + ds + t == blanks + v;
  }

  /** A sign and digits, seen from the front. */
  lemma SignedSubject(sign: string, ds: string, t: string) returns (v: string)
    requires IsSign(sign) && ds != "" && AllDigits(ds) && (t == "" || !IsDigit(t[0]))
    ensures v == sign + (ds + t) && v != "" && !IsSpace(v[0])
    ensures SubjectAt(v) == Subject(sign == "-", ds)
  {
    hide LeadingDigits;
    DigitsTaken(ds, t);
    var u := ds + t;
    v := sign + u;
    assert u[0] == ds[0];
    if sign == "" {
      assert v == u;
    } else {
      assert v[0] == sign[0] && v[1..] == u;
    }
  }

  lemma DigitsTaken(ds: string, t: string)
    requires AllDigits(ds) && (t == "" || !IsDigit(t[0]))
    ensures LeadingDigits(ds + t) == ds
  {
    hide DigitRun;
    assert (ds + t)[..|ds|] == ds;
    DigitRunIs(ds + t, |ds|);
  }

  lemma BlanksSkipped(blanks: string, v: string)
    requires (forall i :: 0 <= i < |blanks| ==> IsSpace(blanks[i])) && v != "" && !IsSpace(v[0])
    ensures (blanks + v)[SpaceRun(blanks + v)..] == v
  {
    hide SpaceRun;
    var s := blanks + v;
    assert s[|blanks|] == v[0] && s[|blanks|..] == v;
    SpacesEnd(s, |blanks|);
  }

  lemma {:induction false} SpacesEnd(s: string, k: nat)
    requires k < |s| && !IsSpace(s[k]) && forall i :: 0 <= i < k ==> IsSpace(s[i])
    ensures SpaceRun(s) == k
  {
    if k > 0 {
      SpacesEnd(s[1..], k - 1);
    }
  }

  /** strtoul of such a number, in sixteen bits: the number modulo 65536, negated behind a minus sign, and all
      ones when it does not fit an unsigned long. */
  lemma StrtoulOfNumber(blanks: string, sign: string, n: nat, t: string)
    requires (forall i :: 0 <= i < |blanks| ==> IsSpace(blanks[i])) && IsSign(sign)
    requires t == "" || !IsDigit(t[0])
    ensures StrtoulToUint16(blanks + sign + Decimal(n) + t) ==
            if n >= 0x1_0000_0000_0000_0000 then 65535 else if sign == "-" then (65536 - n % 65536) % 65536 else n % 65536
  {
    hide SubjectOf, Decimal, Value;
    SubjectOfNumber(blanks, sign, n, t);
    DecimalValue(n);
    if n < 0x1_0000_0000_0000_0000 {
      NegativeWraps(n);
    }
  }

  lemma NegativeWraps(n: int)
    requires 0 <= n < 0x1_0000_0000_0000_0000
    ensures -n % 0x1_0000_0000_0000_0000 % 65536 == (65536 - n % 65536) % 65536
  {
    var m := 0x1_0000_0000_0000_0000;
    if n > 0 {
      assert -n % m == m - n;
      var q, r := n / 65536, n % 65536;
      assert m - n == (0x1_0000_0000_0000 - q) * 65536 - r;
    }
  }

  /** And sscanf's %hd: the sixteen bits of the number, which is first brought into the range of a long. */
  lemma ScanShortOfNumber(blanks: string, sign: string, n: nat, t: string)
    requires (forall i :: 0 <= i < |blanks| ==> IsSpace(blanks[i])) && IsSign(sign)
    requires t == "" || !IsDigit(t[0])
    ensures ScanShort(blanks + sign + Decimal(n) + t) == Some(
      if sign == "-" then (if n > 0x8000_0000_0000_0000 then 0 else (65536 - n % 65536) % 65536)
      else if n >= 0x8000_0000_0000_0000 then 65535 else n % 65536)
  {
    hide SubjectOf, Decimal, Value;
    SubjectOfNumber(blanks, sign, n, t);
    DecimalValue(n);
  }
}
