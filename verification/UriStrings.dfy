/** uri_encode and uri_decode: percent-encoding as in sections 2.1 and 2.3 of RFC 3986, with '+' for a
    space as in section 17.13.4.1 of HTML 4.01. Characters are bytes of a signed char. */
module UriStrings {
  import opened CStrings

  type byte = c: char | c as int < 256 witness 'a'

  /** The value of a signed char. */
  function Signed(b: byte): int {
    if b as int < 128 then b as int else b as int - 256
  }

  /** Conversion of an int to char keeps the low eight bits. */
  function ToChar(n: int): byte {
    (n % 256) as char
  }

  function FromHex(c: byte): int {
    if IsDigit(c) then Signed(c) - '0' as int
    else
      var lower := if 'A' <= c <= 'Z' then Signed(c) + 32 else Signed(c);
      Signed(ToChar(lower - 'a' as int + 10))
  }

  const HEX: seq<byte> := "0123456789abcdef"

  /** hex[code & 15] */
  function ToHex(code: int): byte {
    HEX[code % 16]
  }

  /** The low k bits of x | y, in two's complement. */
  function BitOr(k: nat, x: int, y: int): (r: nat) {
    if k == 0 then 0 else (if x % 2 == 1 || y % 2 == 1 then 1 else 0) + 2 * BitOr(k - 1, x / 2, y / 2)
  }

  predicate Unreserved(c: char) {
    IsAlnum(c) || c == '-' || c == '_' || c == '.' || c == '~'
  }

  function EncodeByte(b: byte): seq<byte> {
    if Unreserved(b) then [b]
    else if b == ' ' then ['+']
    else ['%', ToHex(Signed(b) / 16), ToHex(Signed(b) % 16)]
  }

  function Encode(s: seq<byte>): seq<byte> {
    if s == [] then [] else EncodeByte(s[0]) + Encode(s[1..])
  }

  /** from_hex(a) << 4 | from_hex(b), stored in a char */
  function Merge(a: byte, b: byte): byte {
    ToChar(BitOr(8, FromHex(a) * 16, FromHex(b)))
  }

  function Decode(s: seq<byte>): seq<byte> {
    if s == [] then []
    else if s[0] == '%' then
      if |s| >= 3 then [Merge(s[1], s[2])] + Decode(s[3..]) else Decode(s[1..])
    else [if s[0] == '+' then ' ' else s[0]] + Decode(s[1..])
  }

  // ----- the round trip

  function Pow2(k: nat): nat {
    if k == 0 then 1 else 2 * Pow2(k - 1)
  }

  lemma {:induction false} BitOrZero(k: nat, h: nat)
    requires h < Pow2(k)
    ensures BitOr(k, h, 0) == h
  {
    if k > 0 {
      BitOrZero(k - 1, h / 2);
    }
  }

  lemma BitOrEven(k: nat, x: nat, y: nat)
    ensures BitOr(k + 1, 2 * x, y) == y % 2 + 2 * BitOr(k, x, y / 2)
  {
  }

  /** Two nibbles that do not overlap just add up. */
  lemma NibblesAdd(h: nat, l: nat)
    requires h < 16 && l < 16
    ensures BitOr(8, 16 * h, l) == 16 * h + l
  {
    hide BitOr;
    BitOrEven(7, 8 * h, l);
    BitOrEven(6, 4 * h, l / 2);
    BitOrEven(5, 2 * h, l / 4);
    BitOrEven(4, h, l / 8);
    assert l / 16 == 0 && Pow2(4) == 16;
    BitOrZero(4, h);
  }

  lemma HexInverts(code: int)
    ensures FromHex(ToHex(code)) == code % 16
  {
    var k := code % 16;
    assert HEX[k] == if k < 10 then ('0' as int + k) as char else ('a' as int + k - 10) as char;
  }

  lemma MergeInverts(b: byte)
    ensures Merge(ToHex(Signed(b) / 16), ToHex(Signed(b) % 16)) == b
  {
    hide BitOr, FromHex, ToHex;
    HexInverts(Signed(b) / 16);
    HexInverts(Signed(b) % 16);
    NibblesAdd(Signed(b) / 16 % 16, Signed(b) % 16);
  }

  lemma DecodeEncodedByte(b: byte, t: seq<byte>)
    ensures Decode(EncodeByte(b) + t) == [b] + Decode(t)
  {
    hide Merge, ToHex;
    var s := EncodeByte(b) + t;
    if Unreserved(b) || b == ' ' {
      assert s[1..] == t;
    } else {
      assert s[3..] == t;
      MergeInverts(b);
    }
  }

  /** Decoding is a left inverse of encoding, whatever follows the encoded part. */
  lemma {:induction false} DecodeEncoded(a: seq<byte>, t: seq<byte>)
    ensures Decode(Encode(a) + t) == a + Decode(t)
  {
    hide Decode, EncodeByte;
    if a == [] {
      assert Encode(a) + t == t;
    } else {
      assert Encode(a) + t == EncodeByte(a[0]) + (Encode(a[1..]) + t);
      DecodeEncodedByte(a[0], Encode(a[1..]) + t);
      DecodeEncoded(a[1..], t);
    }
  }

  lemma UriRoundTrip(s: seq<byte>)
    ensures Decode(Encode(s)) == s
  {
    DecodeEncoded(s, []);
    assert Encode(s) + [] == Encode(s);
  }

  predicate EncodedAlphabet(c: char) {
    Unreserved(c) || c == '+' || c == '%'
  }

  lemma {:induction false} EncodeShape(s: seq<byte>)
    ensures |s| <= |Encode(s)| <= 3 * |s|
    ensures forall i :: 0 <= i < |Encode(s)| ==> EncodedAlphabet(Encode(s)[i])
  {
    if s != [] {
      EncodeShape(s[1..]);
      HexInverts(Signed(s[0]) / 16);
      HexIsUnreserved(Signed(s[0]) / 16);
      HexIsUnreserved(Signed(s[0]) % 16);
    }
  }

  lemma HexIsUnreserved(code: int)
    ensures Unreserved(ToHex(code))
  {
    var k := code % 16;
    assert HEX[k] == if k < 10 then ('0' as int + k) as char else ('a' as int + k - 10) as char;
  }

  /** Decoding never grows the text, and leaves it alone exactly when there is nothing to decode. */
  lemma {:induction false} DecodeShape(s: seq<byte>)
    ensures |Decode(s)| <= |s|
    ensures '%' in s ==> |Decode(s)| < |s|
    ensures Decode(s) == s <==> '%' !in s && '+' !in s
  {
    hide Merge;
    if s != [] {
      DecodeShape(s[1..]);
      if s[0] == '%' && |s| >= 3 {
        DecodeShape(s[3..]);
      } else if s[0] != '%' {
        assert Decode(s)[1..] == Decode(s[1..]);
      }
    }
  }

  // ----- what the escapes stand for

  /** A hexadecimal digit of this value, in either case. */
  predicate HexDigit(v: nat, c: char) {
    v < 16 && (c == "0123456789abcdef"[v] || c == "0123456789ABCDEF"[v])
  }

  lemma HexDigitValue(v: nat, c: byte)
    requires HexDigit(v, c)
    ensures FromHex(c) == v
  {
    assert c as int == if v < 10 then 48 + v else if c == "0123456789abcdef"[v] then 87 + v else 55 + v;
  }

  /** Any two hexadecimal digits behind a percent sign, in upper or lower case, are the byte they spell. */
  lemma DecodeEscape(b: byte, h: byte, l: byte, t: seq<byte>)
    requires HexDigit(b as int / 16, h) && HexDigit(b as int % 16, l)
    ensures Decode(['%', h, l] + t) == [b] + Decode(t)
  {
    hide BitOr, FromHex, HexDigit;
    var s: seq<byte> := ['%', h, l] + t;
    HexDigitValue(b as int / 16, h);
    HexDigitValue(b as int % 16, l);
    NibblesAdd(b as int / 16, b as int % 16);
    assert s[3..] == t;
  }

  /** Everything else: a plus sign is a space, a percent sign too near the end is dropped, and all other bytes stay. */
  lemma DecodeRest(b: byte, t: seq<byte>)
    ensures Decode("+" + t) == " " + Decode(t)
    ensures b !in "%+" ==> Decode([b] + t) == [b] + Decode(t)
    ensures |t| < 2 ==> Decode("%" + t) == Decode(t)
  {
    hide Merge;
    assert ("+" + t)[1..] == t && ([b] + t)[1..] == t && ("%" + t)[1..] == t;
  }

  /** One way of writing s with escapes: any byte may be escaped, in either case, and those that mean something
      else as they stand must be; a space may be a plus sign. */
  predicate Encodes(e: seq<byte>, s: seq<byte>)
    decreases |s|
  {
    if s == [] then e == []
    else if e == [] then false
    else if e[0] == '%' then
      |e| >= 3 && HexDigit(s[0] as int / 16, e[1]) && HexDigit(s[0] as int % 16, e[2]) && Encodes(e[3..], s[1..])
    else s[0] == (if e[0] == '+' then ' ' else e[0]) && Encodes(e[1..], s[1..])
  }

  /** Decoding undoes every such way of writing, not only the one uri_encode chooses. */
  lemma {:induction false} DecodeAnyEncoding(e: seq<byte>, s: seq<byte>)
    requires Encodes(e, s)
    ensures Decode(e) == s
    decreases |s|
  {
    hide Decode, HexDigit;
    NothingCodes();
    if s != [] {
      assert s == [s[0]] + s[1..];
      if e[0] == '%' {
        assert e == ['%', e[1], e[2]] + e[3..];
        DecodeEscape(s[0], e[1], e[2], e[3..]);
        DecodeAnyEncoding(e[3..], s[1..]);
      } else {
        assert e == [e[0]] + e[1..];
        DecodeRest(e[0], e[1..]);
        DecodeAnyEncoding(e[1..], s[1..]);
      }
    }
  }

  /** And uri_encode's is one of them. */
  lemma {:induction false} EncodeEncodes(s: seq<byte>)
    ensures Encodes(Encode(s), s)
  {
    hide Encode, HexDigit, Unreserved;
    NothingCodes();
    if s != [] {
      var t := Encode(s[1..]);
      assert s == [s[0]] + s[1..];
      EncodeEncodes(s[1..]);
      EncodeByByte(s[0], s[1..]);
      UnreservedAre(s[0]);
      if Unreserved(s[0]) {
        assert ([s[0]] + t)[1..] == t;
      } else if s[0] == ' ' {
        assert ("+" + t)[1..] == t;
      } else {
        var h, l := "0123456789abcdef"[s[0] as int / 16], "0123456789abcdef"[s[0] as int % 16];
        LowerCase(s[0] as int / 16);
        LowerCase(s[0] as int % 16);
        assert (['%', h, l] + t)[3..] == t;
      }
    }
  }

  lemma LowerCase(v: nat)
    requires v < 16
    ensures HexDigit(v, "0123456789abcdef"[v])
  {
  }

  lemma UnreservedAre(c: char)
    ensures Unreserved(c) <==> 'A' <= c <= 'Z' || 'a' <= c <= 'z' || '0' <= c <= '9' || c in "-._~"
  {
  }

  lemma NibblesOf(b: byte)
    ensures ToHex(Signed(b) / 16) == "0123456789abcdef"[b as int / 16]
    ensures ToHex(Signed(b) % 16) == "0123456789abcdef"[b as int % 16]
  {
    assert Signed(b) / 16 % 16 == b as int / 16 && Signed(b) % 16 == b as int % 16;
  }

  /** Encoding a byte: the unreserved ones stay, a space is a plus sign, the others are two digits of their value. */
  lemma EncodeByByte(b: byte, t: seq<byte>)
    ensures Unreserved(b) ==> Encode([b] + t) == [b] + Encode(t)
    ensures b == ' ' ==> Encode([b] + t) == "+" + Encode(t)
    ensures !Unreserved(b) && b != ' ' ==>
            Encode([b] + t) == ['%', "0123456789abcdef"[b as int / 16], "0123456789abcdef"[b as int % 16]] + Encode(t)
  {
    NibblesOf(b);
    hide ToHex, Unreserved;
    assert ([b] + t)[1..] == t && !Unreserved(' ') by {
      UnreservedAre(' ');
    }
  }

  // ----- the loops

  lemma EncodeStep(s: seq<byte>, i: nat, done: seq<byte>)
    requires i < |s|
    ensures done + Encode(s[i..]) == done + EncodeByte(s[i]) + Encode(s[i + 1..])
  {
    assert s[i..][1..] == s[i + 1..];
  }

  lemma DecodeStep(s: seq<byte>, i: nat, done: seq<byte>)
    requires i < |s|
    ensures done + Decode(s[i..]) ==
      if s[i] != '%' then done + [if s[i] == '+' then ' ' else s[i]] + Decode(s[i + 1..])
      else if i + 2 < |s| then done + [Merge(s[i + 1], s[i + 2])] + Decode(s[i + 3..])
      else done + Decode(s[i + 1..])
  {
    hide Merge;
    assert s[i..][1..] == s[i + 1..];
    if i + 2 < |s| {
      assert s[i..][3..] == s[i + 3..];
    }
  }

  lemma ByteEncoded(c: byte)
    ensures EncodeByte(c) == if Unreserved(c) then [c] else if c == ' ' then ['+']
                             else ['%', ToHex(Signed(c) / 16), ToHex(Signed(c) % 16)]
  {
  }

  lemma EndsOf(s: seq<byte>)
    ensures s[0..] == s && s[|s|..] == [] && [] + s == s && s + [] == s
  {
  }

  lemma NothingCodes()
    ensures Encode([]) == [] && Decode([]) == []
  {
  }

  lemma EncodeNulFree(s: seq<byte>)
    ensures NulFree(Encode(s))
  {
    EncodeShape(s);
  }

  method UriEncode(str: seq<byte>) returns (buf: array<byte>)
    requires NulFree(str)
    ensures buf.Length == 3 * |str| + 1
    ensures CStr(buf[..]) == Encode(str)
  {
    hide Encode, EncodeByte, ToHex, CStr;
    buf := new byte[3 * |str| + 1];
    EndsOf(str);
    EndsOf(Encode(str));
    assert buf[..0] == [];
    var pstr, pbuf := 0, 0;
    while pstr < |str|
      invariant pstr <= |str| && pbuf <= 3 * pstr
      invariant Encode(str) == buf[..pbuf] + Encode(str[pstr..])
    {
      ghost var done := buf[..pbuf];
      var c := str[pstr];
      EncodeStep(str, pstr, done);
      ByteEncoded(c);
      if Unreserved(c) {
        buf[pbuf], pbuf := c, pbuf + 1;
      } else if c == ' ' {
        buf[pbuf], pbuf := '+', pbuf + 1;
      } else {
        buf[pbuf], pbuf := '%', pbuf + 1;
        buf[pbuf], pbuf := ToHex(Signed(c) / 16), pbuf + 1;
        buf[pbuf], pbuf := ToHex(Signed(c) % 16), pbuf + 1;
      }
      assert buf[..pbuf] == done + EncodeByte(c);
      pstr := pstr + 1;
    }
    ghost var done := buf[..pbuf];
    EndsOf(done);
    NothingCodes();
    buf[pbuf] := '\0';
    assert buf[..pbuf] == done;
    EncodeNulFree(str);
    CStrIs(buf[..], Encode(str));
  }

  /** The buffer holds the decoded bytes; read as a C string it ends at the first decoded NUL. */
  method UriDecode(str: seq<byte>) returns (buf: array<byte>)
    requires NulFree(str)
    ensures fresh(buf) && buf.Length == |str| + 1
    ensures |Decode(str)| < buf.Length && buf[..|Decode(str)|] == Decode(str) && buf[|Decode(str)|] == '\0'
    ensures CStr(buf[..]) == CStr(Decode(str))
  {
    hide Decode, Merge, CStr;
    buf := new byte[|str| + 1];
    EndsOf(str);
    EndsOf(Decode(str));
    assert buf[..0] == [];
    var pstr, pbuf := 0, 0;
    while pstr < |str|
      invariant pbuf <= pstr <= |str|
      invariant Decode(str) == buf[..pbuf] + Decode(str[pstr..])
    {
      ghost var done := buf[..pbuf];
      var c := str[pstr];
      DecodeStep(str, pstr, done);
      if c == '%' {
        if pstr + 2 < |str| {
          buf[pbuf], pbuf := Merge(str[pstr + 1], str[pstr + 2]), pbuf + 1;
          pstr := pstr + 2;
          assert buf[..pbuf] == done + [buf[pbuf - 1]];
        }
      } else if c == '+' {
        buf[pbuf], pbuf := ' ', pbuf + 1;
        assert buf[..pbuf] == done + [' '];
      } else {
        buf[pbuf], pbuf := c, pbuf + 1;
        assert buf[..pbuf] == done + [c];
      }
      pstr := pstr + 1;
    }
    ghost var done := buf[..pbuf];
    EndsOf(done);
    NothingCodes();
    buf[pbuf] := '\0';
    assert buf[..pbuf] == done;
    CStrIs(buf[..], CStr(Decode(str)));
  }
}
