/** From a generated link back to the parameters: the request line, the decoding, and the parameter scan. */
module Links {
  import opened CStrings
  import opened Numerals
  import opened UriStrings

  const MAX_METHOD := 15
  const MAX_URI := 1000

  // ----- the request line

  predicate NoSpaces(s: string) {
    forall i :: 0 <= i < |s| ==> !IsSpace(s[i])
  }

  /** The length of the leading run without white space. */
  function WordLength(s: string): (n: nat)
    ensures n <= |s| && NoSpaces(s[..n])
    ensures n < |s| ==> IsSpace(s[n])
  {
    if s == "" || IsSpace(s[0]) then 0 else
      var n := 1 + WordLength(s[1..]);
      assert s[..n] == [s[0]] + s[1..][..n - 1];
      n
  }

  /** One "%<max>s" of sscanf: what it stores and what it leaves. */
  function TakeWord(s: seq<byte>, max: nat): (r: (seq<byte>, seq<byte>)) {
    var t := s[SpaceRun(s)..];
    var n := if WordLength(t) <= max then WordLength(t) else max;
    (t[..n], t[n..])
  }

  /** sscanf(line, "%15s %1000s", method, uri) and the leading slash dropped. */
  function RequestUri(line: seq<byte>): seq<byte> {
    var uri := TakeWord(TakeWord(line, MAX_METHOD).1, MAX_URI).0;
    if uri != [] && uri[0] == '/' then uri[1..] else uri
  }

  /** The name the callback is looked up by: the uri up to its question mark, not decoded. */
  function Route(line: seq<byte>): seq<byte> {
    RequestUri(line)[..IndexOf(RequestUri(line), '?')]
  }

  // ----- the parameter scan

  datatype Params = Params(addr: Option<string>, port: nat, key: Option<string>)

  /** '?' and '&' become string ends. */
  function Cut(s: string): (t: string)
    ensures |t| == |s|
    ensures forall i :: 0 <= i < |s| ==> t[i] == if s[i] == '?' || s[i] == '&' then '\0' else s[i]
  {
    seq(|s|, i requires 0 <= i < |s| => if s[i] == '?' || s[i] == '&' then '\0' else s[i])
  }

  /** What the loop body does at one offset. */
  function Visit(t: string, c: nat, p: Params): Params {
    if OccursAt(t, "addr=", c) then p.(addr := Some(CStr(t[c + 5..])))
    else if OccursAt(t, "port=", c) then
      match ScanShort(CStr(t[c + 5..]))
      case Some(v) => p.(port := v)
      case None => p
    else if OccursAt(t, "key=", c) then p.(key := Some(CStr(t[c + 4..])))
    else p
  }

  function ScanTo(t: string, n: nat): Params {
    if n == 0 then Params(None, 0, None) else Visit(t, n - 1, ScanTo(t, n - 1))
  }

  /** The whole way of a request line: the name the callback compares, and the parameters it gets. */
  function Requested(line: seq<byte>): (string, Params) {
    var decoded: string := CStr(Decode(RequestUri(line)));
    (CStr(Cut(decoded)), ScanTo(Cut(decoded), |decoded|))
  }

  /** The parameter part of reporterCallback, on the decoded uri it owns. */
  method ReporterParams(uri: array<byte>) returns (base: string, p: Params)
    requires |CStr(uri[..])| < uri.Length
    modifies uri
    ensures var decoded := CStr(old(uri[..])); base == CStr(Cut(decoded)) && p == ScanTo(Cut(decoded), |decoded|)
    ensures uri[..] == Cut(CStr(old(uri[..]))) + old(uri[..])[|CStr(old(uri[..]))|..]
  {
    hide CStr, ScanTo;
    ghost var whole := uri[..];
    ghost var decoded := CStr(whole);
    ghost var t := Cut(decoded);
    var c := 0;
    while uri[c] != '\0'
      invariant c <= |decoded|
      invariant forall i :: 0 <= i < c ==> uri[i] == t[i]
      invariant forall i :: c <= i < uri.Length ==> uri[i] == whole[i]
      decreases |decoded| - c
    {
      assert decoded[c] == whole[c];
      if uri[c] == '?' || uri[c] == '&' {
        uri[c] := '\0';
      }
      c := c + 1;
    }
    var parseEnd := c;
    assert parseEnd == |decoded|;
    assert uri[..] == t + whole[|decoded|..];
    NoParams(t);
    p := Params(None, 0, None);
    c := 0;
    while c < parseEnd
      invariant c <= parseEnd && p == ScanTo(t, c)
      invariant uri[..] == t + whole[|decoded|..]
    {
      assert forall k :: 0 <= k <= uri.Length ==> uri[k..] == uri[..][k..];
      VisitInBuffer(t, whole[|decoded|..], c);
      ScanStep(t, c);
      if OccursAt(uri[..], "addr=", c) {
        p := p.(addr := Some(CStr(uri[c + 5..])));
      } else if OccursAt(uri[..], "port=", c) {
        var port := ScanShort(CStr(uri[c + 5..]));
        if port.Some? {
          p := p.(port := port.value);
        }
      } else if OccursAt(uri[..], "key=", c) {
        p := p.(key := Some(CStr(uri[c + 4..])));
      }
      c := c + 1;
    }
    CStrOfBuffer(t, whole[|decoded|..], 0);
    base := CStr(uri[..]);
  }

  lemma NoParams(t: string)
    ensures ScanTo(t, 0) == Params(None, 0, None)
  {
  }

  lemma ScanStep(t: string, c: nat)
    ensures ScanTo(t, c + 1) == Visit(t, c, ScanTo(t, c))
  {
  }

  /** strncmp and the string reads stop at the end of the string: what lies behind it never shows. */
  lemma VisitInBuffer(t: string, behind: string, c: nat)
    requires behind != "" && behind[0] == '\0' && c < |t|
    ensures OccursAt(t + behind, "addr=", c) == OccursAt(t, "addr=", c)
    ensures OccursAt(t + behind, "port=", c) == OccursAt(t, "port=", c)
    ensures OccursAt(t + behind, "key=", c) == OccursAt(t, "key=", c)
    ensures c + 5 <= |t| ==> CStr((t + behind)[c + 5..]) == CStr(t[c + 5..])
    ensures c + 4 <= |t| ==> CStr((t + behind)[c + 4..]) == CStr(t[c + 4..])
  {
    hide CStr;
    OccursInBuffer(t, behind, "addr=", c);
    OccursInBuffer(t, behind, "port=", c);
    OccursInBuffer(t, behind, "key=", c);
    if c + 5 <= |t| {
      CStrOfBuffer(t, behind, c + 5);
    }
    if c + 4 <= |t| {
      CStrOfBuffer(t, behind, c + 4);
    }
  }

  lemma OccursInBuffer(t: string, behind: string, pat: string, c: nat)
    requires behind != "" && behind[0] == '\0' && c < |t| && NulFree(pat)
    ensures OccursAt(t + behind, pat, c) == OccursAt(t, pat, c)
  {
    var s := t + behind;
    if c + |pat| <= |t| {
      assert s[c..c + |pat|] == t[c..c + |pat|];
    } else if c + |pat| <= |s| {
      assert s[c..c + |pat|][|t| - c] == '\0';
    }
  }

  lemma CStrOfBuffer(t: string, behind: string, i: nat)
    requires behind != "" && behind[0] == '\0' && i <= |t|
    ensures CStr((t + behind)[i..]) == CStr(t[i..])
    ensures i == 0 ==> CStr(t + behind) == CStr(t)
  {
    var r := CStr(t[i..]);
    var s := (t + behind)[i..];
    assert s == t[i..] + behind;
    CStrIs(s, r);
    if i == 0 {
      assert s == t + behind && t[i..] == t;
    }
  }

  // ----- the links

  type bytes = seq<byte>

  predicate AllUnreserved(s: string) {
    forall i :: 0 <= i < |s| ==> Unreserved(s[i])
  }

  /** The printf conversions the link builders use for a port. */
  datatype PortFormat = HD | HU | D

  function PortText(f: PortFormat, port: nat): (r: bytes)
    requires port < 0x1_0000
  {
    var n := if f.HD? && port >= 0x8000 then 0x1_0000 - port else port;
    var ds: string := Decimal(n);
    assert forall i :: 0 <= i < |ds| ==> IsDigit(ds[i]);
    if f.HD? && port >= 0x8000 then "-" + ds else ds
  }

  /** Up to the key: the links of the service page and of `actions`. */
  function Link(base: bytes, addr: bytes, port: bytes): bytes {
    base + "?addr=" + addr + "&port=" + port
  }

  /** What key_href prints: the key as it is, although an encoded copy was made. */
  function KeyLink(base: bytes, addr: bytes, port: bytes, key: bytes): bytes {
    Link(base, addr, port) + "&key=" + key
  }

  /** A browser's request for a link on this server. */
  function RequestLine(link: bytes): bytes {
    "GET /" + link + " HTTP/1.1\r\n"
  }

  lemma WordLengthIs(s: string, n: nat)
    requires n <= |s| && NoSpaces(s[..n]) && (n < |s| ==> IsSpace(s[n]))
    ensures WordLength(s) == n
  {
    hide WordLength;
    assert WordLength(s) == n;
  }

  lemma TakeWordIs(s: bytes, blank: string, w: bytes, rest: bytes, max: nat)
    requires s == blank + w + rest && |blank| <= 1 && (blank != "" ==> IsSpace(blank[0]))
    requires w != [] && NoSpaces(w) && |w| <= max && (rest == [] || IsSpace(rest[0]))
    ensures TakeWord(s, max) == (w, rest)
  {
    hide WordLength, SpaceRun;
    assert s[|blank|] == w[0];
    SpaceRunIs(s, |blank|);
    var t := s[|blank|..];
    assert t == w + rest && t[..|w|] == w && t[|w|..] == rest;
    WordLengthIs(t, |w|);
  }

  /** The request line gives back the link up to its first white space. */
  lemma RequestUriIs(link: bytes)
    requires WordLength(link) < MAX_URI
    ensures RequestUri(RequestLine(link)) == link[..WordLength(link)]
  {
    hide WordLength, TakeWord;
    var n := WordLength(link);
    var w: bytes, rest: bytes := "/" + link[..n], link[n..] + " HTTP/1.1\r\n";
    SlashWord("GET", link[..n]);
    assert link == link[..n] + link[n..];
    assert RequestLine(link) == "" + "GET" + (" " + w + rest);
    TakeWordIs(RequestLine(link), "", "GET", " " + w + rest, MAX_METHOD);
    TakeWordIs(" " + w + rest, " ", w, rest, MAX_URI);
    assert w[1..] == link[..n];
  }

  /** Any request line, from telnet or a browser: the second word, cut off after 1000 characters, without the one
      slash in front of it. */
  lemma SecondWord(verb: bytes, uri: bytes, more: bytes)
    requires 0 < |verb| <= 15 && NoSpaces(verb) && uri != [] && NoSpaces(uri) && more != [] && IsSpace(more[0])
    ensures var word := if |uri| <= 1000 then uri else uri[..1000];
      RequestUri(verb + " " + uri + more) == if word[0] == '/' then word[1..] else word
  {
    hide WordLength, TakeWord;
    var blank: bytes := " ";
    assert verb + " " + uri + more == "" + verb + (blank + uri + more);
    TakeWordIs(verb + " " + uri + more, "", verb, blank + uri + more, MAX_METHOD);
    TakeLongWord(uri, more);
  }

  lemma TakeLongWord(uri: bytes, more: bytes)
    requires uri != [] && NoSpaces(uri) && more != [] && IsSpace(more[0])
    ensures var blank: bytes := " ";
      TakeWord(blank + uri + more, 1000).0 == if |uri| <= 1000 then uri else uri[..1000]
  {
    hide WordLength, SpaceRun;
    var blank: bytes := " ";
    var s := blank + uri + more;
    assert s[1] == uri[0];
    SpaceRunIs(s, 1);
    assert s[1..] == uri + more && s[1..][..|uri|] == uri;
    WordLengthIs(s[1..], |uri|);
    assert |uri| > 1000 ==> s[1..][..1000] == uri[..1000];
  }

  lemma SlashWord(get: string, w: string)
    requires get == "GET" && NoSpaces(w)
    ensures NoSpaces(get) && NoSpaces("/" + w)
  {
  }

  lemma SpaceRunIs(s: string, n: nat)
    requires n <= 1 && n < |s| && !IsSpace(s[n]) && (n == 1 ==> IsSpace(s[0]))
    ensures SpaceRun(s) == n
  {
    assert n == 1 ==> s[1..][0] == s[1];
  }

  lemma {:induction false} DecodePlain(a: bytes, t: bytes)
    requires '%' !in a && '+' !in a
    ensures Decode(a + t) == a + Decode(t)
  {
    hide Merge;
    if a == [] {
      assert a + t == t;
    } else {
      assert (a + t)[1..] == a[1..] + t;
      DecodePlain(a[1..], t);
    }
  }

  /** The sixteen bits survive each of the three conversions. */
  lemma PortSurvives(f: PortFormat, port: nat)
    requires port < 0x1_0000
    ensures ScanShort(PortText(f, port)) == Some(port)
  {
    hide ScanShort, Decimal;
    var sign := if f.HD? && port >= 0x8000 then "-" else "";
    var n := if sign == "-" then 0x1_0000 - port else port;
    ScanShortOfNumber("", sign, n, "");
    assert "" + sign + Decimal(n) + "" == PortText(f, port);
  }

  // ----- all parameters come back

  /** The decoded link after the cut. */
  function CutLink(base: string, addr: string, port: string): string {
    base + "\0addr=" + addr + "\0port=" + port
  }

  predicate NoMarks(s: string) {
    forall i :: 0 <= i < |s| ==> s[i] !in "?&=%+\0" && !IsSpace(s[i])
  }

  lemma UnreservedNoMarks(s: string)
    requires AllUnreserved(s)
    ensures NoMarks(s) && NulFree(s)
  {
  }

  lemma PortNoMarks(f: PortFormat, port: nat)
    requires port < 0x1_0000
    ensures NoMarks(PortText(f, port)) && NulFree(PortText(f, port))
  {
    hide Decimal;
    var t := PortText(f, port);
    assert forall i :: 0 <= i < |t| ==> IsDigit(t[i]) || t[i] == '-';
  }

  /** Equals signs tell where the parameters are: each name matches at its own place and nowhere else. */
  lemma MarksOf(base: string, addr: string, port: string, key: string, c: nat)
    requires NoMarks(base) && NoMarks(addr) && NoMarks(port) && NoMarks(key)
    ensures var t, a, p := CutLink(base, addr, port) + "\0key=" + key, |base| + 1, |base| + |addr| + 7;
      && (OccursAt(t, "addr=", c) <==> c == a)
      && (OccursAt(t, "port=", c) <==> c == p)
      && (OccursAt(t, "key=", c) <==> c == p + |port| + 6)
  {
    var t, a, p := CutLink(base, addr, port) + "\0key=" + key, |base| + 1, |base| + |addr| + 7;
    var k := p + |port| + 6;
    assert t[a..a + 5] == "addr=" && t[p..p + 5] == "port=" && t[k..k + 4] == "key=";
    assert t[p - 1] == '\0' && t[k - 1] == '\0';
    EqualsAt(base, addr, port, key);
    assert "addr="[4] == '=' && "port="[4] == '=' && "key="[3] == '=';
    assert "addr="[0] == 'a' && "port="[0] == 'p' && "key="[0] == 'k';
    if OccursAt(t, "addr=", c) {
      assert t[c..c + 5][4] == t[c + 4] && t[c..c + 5][0] == t[c];
    }
    if OccursAt(t, "port=", c) {
      assert t[c..c + 5][4] == t[c + 4] && t[c..c + 5][0] == t[c];
    }
    if OccursAt(t, "key=", c) {
      assert t[c..c + 4][3] == t[c + 3] && t[c..c + 4][0] == t[c];
      assert t[a..a + 5][1] == t[a + 1] && t[p..p + 5][1] == t[p + 1];
    }
  }

  lemma EqualsAt(base: string, addr: string, port: string, key: string)
    requires NoMarks(base) && NoMarks(addr) && NoMarks(port) && NoMarks(key)
    ensures var t, p := CutLink(base, addr, port) + "\0key=" + key, |base| + |addr| + 7;
      forall i :: 0 <= i < |t| && t[i] == '=' ==> i == |base| + 5 || i == p + 4 || i == p + |port| + 9
  {
  }

  /** With every name in one place, the scan finds exactly those values. Without a key, k is past the end. */
  lemma {:induction false} ScanFinds(t: string, a: nat, p: nat, k: nat, n: nat)
    requires a + 5 <= |t| && p + 5 <= |t| && (k < |t| ==> k + 4 <= |t|)
    requires forall c: nat :: OccursAt(t, "addr=", c) <==> c == a
    requires forall c: nat :: OccursAt(t, "port=", c) <==> c == p
    requires forall c: nat :: OccursAt(t, "key=", c) <==> c == k && k < |t|
    requires a != p && a != k && p != k
    requires ScanShort(CStr(t[p + 5..])).Some?
    ensures ScanTo(t, n) == Params(
      if n > a then Some(CStr(t[a + 5..])) else None,
      if n > p then ScanShort(CStr(t[p + 5..])).value else 0,
      if n > k && k < |t| then Some(CStr(t[k + 4..])) else None)
  {
    hide OccursAt, CStr, ScanShort;
    if n > 0 {
      ScanFinds(t, a, p, k, n - 1);
    }
  }

  /** c is the last place before n where this name stands. */
  ghost predicate LastAt(t: string, name: string, n: nat, c: nat) {
    c < n && OccursAt(t, name, c) && forall d :: c < d < n ==> !OccursAt(t, name, d)
  }

  /** The scan of any text: each parameter is the one behind the last place of its name, whatever other names
      stand where; a port that does not convert leaves the one before; without any place there is no value. */
  lemma {:induction false} ScanIsLast(t: string, n: nat)
    ensures ScanTo(t, n).addr == None <==> forall c :: 0 <= c < n ==> !OccursAt(t, "addr=", c)
    ensures ScanTo(t, n).key == None <==> forall c :: 0 <= c < n ==> !OccursAt(t, "key=", c)
    ensures forall c: nat :: LastAt(t, "addr=", n, c) ==> ScanTo(t, n).addr == Some(CStr(t[c + 5..]))
    ensures forall c: nat :: LastAt(t, "key=", n, c) ==> ScanTo(t, n).key == Some(CStr(t[c + 4..]))
    ensures forall c: nat :: LastAt(t, "port=", n, c) && ScanShort(CStr(t[c + 5..])).Some? ==>
              ScanTo(t, n).port == ScanShort(CStr(t[c + 5..])).value
    ensures (forall c: nat :: c < n && OccursAt(t, "port=", c) ==> ScanShort(CStr(t[c + 5..])) == None) ==>
            ScanTo(t, n).port == 0
  {
    hide OccursAt, CStr, ScanShort;
    if n > 0 {
      ScanIsLast(t, n - 1);
      NamesApart(t, n - 1);
      NamesFit(t);
      var p := ScanTo(t, n - 1);
      forall c: nat | LastAt(t, "addr=", n, c) ensures ScanTo(t, n).addr == Some(CStr(t[c + 5..])) {
        assert c < n - 1 ==> LastAt(t, "addr=", n - 1, c);
      }
      forall c: nat | LastAt(t, "key=", n, c) ensures ScanTo(t, n).key == Some(CStr(t[c + 4..])) {
        assert c < n - 1 ==> LastAt(t, "key=", n - 1, c);
      }
      forall c: nat | LastAt(t, "port=", n, c) && ScanShort(CStr(t[c + 5..])).Some?
        ensures ScanTo(t, n).port == ScanShort(CStr(t[c + 5..])).value
      {
        assert c < n - 1 ==> LastAt(t, "port=", n - 1, c);
      }
    }
  }

  lemma NamesFit(t: string)
    ensures forall c: nat :: OccursAt(t, "addr=", c) ==> c + 5 <= |t|
    ensures forall c: nat :: OccursAt(t, "port=", c) ==> c + 5 <= |t|
    ensures forall c: nat :: OccursAt(t, "key=", c) ==> c + 4 <= |t|
  {
  }

  lemma NamesApart(t: string, c: nat)
    ensures OccursAt(t, "addr=", c) ==> c + 5 <= |t| && !OccursAt(t, "port=", c) && !OccursAt(t, "key=", c)
    ensures OccursAt(t, "port=", c) ==> c + 5 <= |t| && !OccursAt(t, "key=", c)
    ensures OccursAt(t, "key=", c) ==> c + 4 <= |t|
  {
    assert "addr="[0] == 'a' && "port="[0] == 'p' && "key="[0] == 'k';
    assert c + 5 <= |t| ==> t[c..c + 5][0] == t[c];
    assert c + 4 <= |t| ==> t[c..c + 4][0] == t[c];
  }

  lemma CutJoins(base: bytes, addr: bytes, port: bytes)
    requires NoMarks(base) && NoMarks(addr) && NoMarks(port)
    ensures Cut(Link(base, addr, port)) == CutLink(base, addr, port)
    ensures NoSpaces(Link(base, addr, port)) && NulFree(Link(base, addr, port))
    ensures '%' !in Link(base, addr, port) && '+' !in Link(base, addr, port)
  {
    var l, t := Link(base, addr, port), CutLink(base, addr, port);
    assert forall i :: 0 <= i < |l| ==>
      t[i] == (if l[i] == '?' || l[i] == '&' then '\0' else l[i]) && !IsSpace(l[i]) && l[i] !in "%+\0";
  }

  /** A link without whitespace and escapes reaches the callback as it was generated. */
  lemma PlainRequest(link: bytes)
    requires NoSpaces(link) && NulFree(link) && '%' !in link && '+' !in link && |link| < MAX_URI
    ensures Requested(RequestLine(link)) == (CStr(Cut(link)), ScanTo(Cut(link), |link|))
  {
    assert link[..|link|] == link;
    WordLengthIs(link, |link|);
    RequestUriIs(link);
    DecodeShape(link);
    CStrIs(link, link);
  }

  /** The links of the service page and of `actions`: base, address and port come back, and no key. */
  lemma LinkRoundTrip(base: bytes, addr: bytes, f: PortFormat, port: nat)
    requires AllUnreserved(base) && AllUnreserved(addr) && port < 0x1_0000
    requires |Link(base, addr, PortText(f, port))| < MAX_URI
    ensures Requested(RequestLine(Link(base, addr, PortText(f, port)))) == (base, Params(Some(addr), port, None))
  {
    hide CStr, ScanTo, Requested, RequestLine, AllUnreserved, ScanShort, PortText, Cut, OccursAt;
    var portText := PortText(f, port);
    UnreservedNoMarks(base);
    UnreservedNoMarks(addr);
    PortNoMarks(f, port);
    PortSurvives(f, port);
    CutJoins(base, addr, portText);
    PlainRequest(Link(base, addr, portText));
    var t, a, p := CutLink(base, addr, portText), |base| + 1, |base| + |addr| + 7;
    forall c: nat
      ensures OccursAt(t, "addr=", c) <==> c == a
      ensures OccursAt(t, "port=", c) <==> c == p
      ensures !OccursAt(t, "key=", c)
    {
      MarksOf(base, addr, portText, "", c);
      OccursInPrefix(t, "\0key=", "addr=", c);
      OccursInPrefix(t, "\0key=", "port=", c);
      OccursInPrefix(t, "\0key=", "key=", c);
      assert t + "\0key=" + "" == t + "\0key=";
    }
    CStrIs(t, base);
    CStrIs(t[a + 5..], addr);
    CStrIs(t[p + 5..], portText);
    ScanFinds(t, a, p, |t| + 1, |t|);
  }

  lemma OccursInPrefix(t: string, more: string, pat: string, c: nat)
    ensures c + |pat| <= |t| ==> OccursAt(t, pat, c) == OccursAt(t + more, pat, c)
    ensures c + |pat| > |t| ==> !OccursAt(t, pat, c)
  {
    if c + |pat| <= |t| {
      assert (t + more)[c..c + |pat|] == t[c..c + |pat|];
    }
  }

  lemma KeyLinkRequest(base: bytes, addr: bytes, port: bytes, key: bytes)
    requires NoMarks(base) && NoMarks(addr) && NoMarks(port) && NoMarks(key)
    requires |KeyLink(base, addr, port, key)| < MAX_URI
    ensures var t := CutLink(base, addr, port) + "\0key=" + key;
      Requested(RequestLine(KeyLink(base, addr, port, key))) == (CStr(t), ScanTo(t, |t|))
  {
    hide CStr, ScanTo, Requested, RequestLine;
    CutJoins(base, addr, port);
    var link := KeyLink(base, addr, port, key);
    assert Cut(link) == Cut(Link(base, addr, port)) + "\0key=" + key;
    PlainRequest(link);
  }

  /** The links of the key list: all four parameters come back. */
  lemma KeyLinkRoundTrip(base: bytes, addr: bytes, f: PortFormat, port: nat, key: bytes)
    requires AllUnreserved(base) && AllUnreserved(addr) && AllUnreserved(key) && port < 0x1_0000
    requires |KeyLink(base, addr, PortText(f, port), key)| < MAX_URI
    ensures Requested(RequestLine(KeyLink(base, addr, PortText(f, port), key))) == (base, Params(Some(addr), port, Some(key)))
  {
    hide CStr, ScanTo, Requested, RequestLine, KeyLink, AllUnreserved, NoMarks, ScanShort, PortText, OccursAt;
    var portText := PortText(f, port);
    UnreservedNoMarks(base);
    UnreservedNoMarks(addr);
    UnreservedNoMarks(key);
    PortNoMarks(f, port);
    PortSurvives(f, port);
    var t, a, p := CutLink(base, addr, portText) + "\0key=" + key, |base| + 1, |base| + |addr| + 7;
    var k := p + |portText| + 6;
    KeyLinkRequest(base, addr, portText, key);
    forall c: nat
      ensures OccursAt(t, "addr=", c) <==> c == a
      ensures OccursAt(t, "port=", c) <==> c == p
      ensures OccursAt(t, "key=", c) <==> c == k
    {
      MarksOf(base, addr, portText, key, c);
    }
    CStrIs(t, base);
    CStrIs(t[a + 5..], addr);
    CStrIs(t[p + 5..], portText);
    CStrIs(t[k + 4..], key);
    ScanFinds(t, a, p, k, |t|);
  }

  lemma RouteIsBase(base: bytes, more: bytes)
    requires AllUnreserved(base) && NoSpaces(base + "?" + more) && |base| + 1 + |more| < MAX_URI
    ensures Route(RequestLine(base + "?" + more)) == base
  {
    hide AllUnreserved, RequestLine, RequestUri;
    var link := base + "?" + more;
    UnreservedNoMarks(base);
    assert link[..|link|] == link;
    WordLengthIs(link, |link|);
    RequestUriIs(link);
    IndexOfIs(link, '?', |base|);
    assert link[..|base|] == base;
  }

  // ----- exactly which keys come back

  /** Characters that survive the request line, the decoding and the cut, and no later "key=". */
  predicate SafeKey(key: string) {
    && NoSpaces(key)
    && '%' !in key && '+' !in key && '?' !in key && '&' !in key
    && forall j :: 0 <= j < |key| ==> !OccursAt(key, "key=", j)
  }

  /** The key parameter is the one of the last match before n. */
  ghost predicate LastKey(t: string, n: nat, c: nat) {
    && c < n && OccursAt(t, "key=", c)
    && (forall d :: c < d < n ==> !OccursAt(t, "key=", d))
    && ScanTo(t, n).key == Some(CStr(t[c + 4..]))
  }

  lemma {:induction false} LastKeyExists(t: string, k: nat, n: nat) returns (c: nat)
    requires OccursAt(t, "key=", k) && k < n
    ensures k <= c && LastKey(t, n, c)
  {
    hide ScanTo, OccursAt, CStr, ScanShort;
    ScanStep(t, n - 1);
    OneNameAt(t, n - 1);
    if OccursAt(t, "key=", n - 1) {
      c := n - 1;
    } else {
      c := LastKeyExists(t, k, n - 1);
    }
  }

  /** The three names start with different letters, so the order of the tests does not matter. */
  lemma OneNameAt(t: string, c: nat)
    ensures OccursAt(t, "key=", c) ==> !OccursAt(t, "addr=", c) && !OccursAt(t, "port=", c)
  {
    assert "addr="[0] == 'a' && "port="[0] == 'p' && "key="[0] == 'k';
    assert c + 5 <= |t| ==> t[c..c + 5][0] == t[c];
    assert c + 4 <= |t| ==> t[c..c + 4][0] == t[c];
  }

  /** The front part of a key link after decoding and the cut, up to and with "key=". */
  function KeyFront(base: string, addr: string, port: string): string {
    CutLink(base, addr, port) + "\0key="
  }

  lemma KeyWord(front: bytes, key: bytes)
    requires NoSpaces(front)
    ensures WordLength(front + key) == |front| + WordLength(key)
    ensures (front + key)[..|front| + WordLength(key)] == front + key[..WordLength(key)]
  {
    hide WordLength;
    WordLengthIs(front + key, |front| + WordLength(key));
  }

  lemma CutFront(base: bytes, addr: bytes, port: bytes, u: string)
    requires NoMarks(base) && NoMarks(addr) && NoMarks(port)
    ensures var front: bytes := Link(base, addr, port) + "&key=";
      NoSpaces(front) && NulFree(front) && '%' !in front && '+' !in front &&
      Cut(front + u) == KeyFront(base, addr, port) + Cut(u)
  {
    CutJoins(base, addr, port);
    hide Link, CutLink;
    var front: bytes := Link(base, addr, port) + "&key=";
    assert Cut(front + u) == Cut(Link(base, addr, port)) + "\0key=" + Cut(u);
  }

  /** What the callback scans when the key is arbitrary: the front, then what is left of the key. */
  lemma KeyRequest(base: bytes, addr: bytes, port: bytes, key: bytes)
    requires NoMarks(base) && NoMarks(addr) && NoMarks(port) && NulFree(key)
    requires |KeyLink(base, addr, port, key)| < MAX_URI
    ensures var u := Cut(CStr(Decode(key[..WordLength(key)])));
      var t := KeyFront(base, addr, port) + u;
      Requested(RequestLine(KeyLink(base, addr, port, key))).1 == ScanTo(t, |t|)
  {
    hide WordLength, Decode, CStr, ScanTo, RequestLine, RequestUri, Cut, KeyFront, Link, NoMarks;
    var front: bytes := Link(base, addr, port) + "&key=";
    var word := key[..WordLength(key)];
    CutFront(base, addr, port, CStr(Decode(word)));
    KeyWord(front, key);
    RequestUriIs(front + key);
    DecodePlain(front, word);
    CStrIs(front + Decode(word), front + CStr(Decode(word)));
  }

  lemma KeyFrontMatches(base: string, addr: string, port: string, u: string)
    ensures var f := KeyFront(base, addr, port);
      |f| >= 4 && OccursAt(f + u, "key=", |f| - 4) && (f + u)[|f|..] == u &&
      forall c :: |f| - 4 < c < |f| ==> !OccursAt(f + u, "key=", c)
  {
    var f := KeyFront(base, addr, port);
    var t := f + u;
    assert t[|f| - 4..|f|] == "key=" && t[|f| - 3] == 'e' && t[|f| - 2] == 'y' && t[|f| - 1] == '=';
    forall c | |f| - 4 < c < |f| ensures !OccursAt(t, "key=", c) {
      if c + 4 <= |t| {
        assert t[c..c + 4][0] == t[c] && "key="[0] == 'k';
      }
    }
  }

  /** key_href prints the key unencoded, so a key comes back if and only if it holds no white space, none of
      the characters that decoding and the cut change, and no "key=" of its own. */
  lemma KeySurvivesExactly(base: bytes, addr: bytes, f: PortFormat, port: nat, key: bytes)
    requires AllUnreserved(base) && AllUnreserved(addr) && port < 0x1_0000 && NulFree(key)
    requires |KeyLink(base, addr, PortText(f, port), key)| < MAX_URI
    ensures Requested(RequestLine(KeyLink(base, addr, PortText(f, port), key))).1.key == Some(key) <==> SafeKey(key)
  {
    hide Requested, RequestLine, KeyLink, PortText, AllUnreserved, WordLength, Decode, Cut, KeyFront;
    var portText := PortText(f, port);
    UnreservedNoMarks(base);
    UnreservedNoMarks(addr);
    PortNoMarks(f, port);
    KeyRequest(base, addr, portText, key);
    var front := KeyFront(base, addr, portText);
    var word: bytes := key[..WordLength(key)];
    var u := Cut(CStr(Decode(word)));
    KeyFrontMatches(base, addr, portText, u);
    DecodeShape(word);
    KeyOfScan(front, u, key, word);
  }

  lemma KeyOfScan(front: string, u: string, key: bytes, word: bytes)
    requires |front| >= 4 && word == key[..WordLength(key)] && u == Cut(CStr(Decode(word))) && NulFree(key)
    requires OccursAt(front + u, "key=", |front| - 4) && (front + u)[|front|..] == u
    requires forall c :: |front| - 4 < c < |front| ==> !OccursAt(front + u, "key=", c)
    requires |Decode(word)| <= |word| && ('%' in word ==> |Decode(word)| < |word|)
    requires Decode(word) == word <==> '%' !in word && '+' !in word
    ensures ScanTo(front + u, |front + u|).key == Some(key) <==> SafeKey(key)
  {
    hide ScanTo, Decode, WordLength, CStr, Cut;
    var t := front + u;
    var c := LastKeyExists(t, |front| - 4, |t|);
    KeyInBuffer(front, u);
    if SafeKey(key) {
      SafeKeyStays(key, word);
      assert c >= |front| ==> !OccursAt(u, "key=", c - |front|);
      assert c == |front| - 4;
      CStrIs(key, key);
    }
    if ScanTo(t, |t|).key == Some(key) {
      assert |CStr(t[c + 4..])| <= |t| - (c + 4) && |CStr(Decode(word))| <= |Decode(word)|;
      assert c == |front| - 4 && word == key && CStr(u) == key;
      assert |CStr(u)| <= |u| && u == key;
      UncutIsPlain(key);
    }
  }

  /** Matches in the key are matches in the buffer, and the other way round behind the front. */
  lemma KeyInBuffer(front: string, u: string)
    ensures forall j: nat :: OccursAt(u, "key=", j) == OccursAt(front + u, "key=", |front| + j)
  {
    forall j: nat ensures OccursAt(u, "key=", j) == OccursAt(front + u, "key=", |front| + j) {
      if j + 4 <= |u| {
        assert (front + u)[|front| + j..|front| + j + 4] == u[j..j + 4];
      }
    }
  }

  lemma SafeKeyStays(key: bytes, word: bytes)
    requires SafeKey(key) && word == key[..WordLength(key)] && NulFree(key)
    requires Decode(word) == word <==> '%' !in word && '+' !in word
    ensures Cut(CStr(Decode(word))) == key
  {
    hide Decode;
    assert key[..|key|] == key;
    WordLengthIs(key, |key|);
    CStrIs(key, key);
  }

  /** A key that comes through decoding and the cut unchanged had nothing to change. */
  lemma UncutIsPlain(key: bytes)
    requires NulFree(key) && |Decode(key)| == |key|
    requires Cut(CStr(Decode(key))) == key
    ensures '?' !in key && '&' !in key && Decode(key) == key
  {
    hide Decode;
    var d: string := Decode(key);
    assert CStr(d) == d;
    assert forall i :: 0 <= i < |d| ==> key[i] == d[i] && d[i] != '?' && d[i] != '&';
  }

  lemma WordNulFree(s: bytes, max: nat)
    requires NulFree(s)
    ensures NulFree(TakeWord(s, max).0) && NulFree(TakeWord(s, max).1)
  {
    hide WordLength, SpaceRun;
    assert NulFree(s[SpaceRun(s)..]);
  }

  lemma RequestNulFree(line: bytes)
    requires NulFree(line)
    ensures NulFree(RequestUri(line))
  {
    hide TakeWord;
    WordNulFree(line, MAX_METHOD);
    WordNulFree(TakeWord(line, MAX_METHOD).1, MAX_URI);
  }

  /** The front end's way with a reporter request, buffer by buffer. */
  method HandleReporterRequest(line: bytes) returns (route: bytes, base: string, p: Params)
    requires NulFree(line)
    ensures route == Route(line)
    ensures (base, p) == Requested(line)
  {
    RequestNulFree(line);
    hide RequestUri, IndexOf, Decode, CStr, ScanTo, Cut;
    var uriStr := RequestUri(line);
    var decodedUri := UriDecode(uriStr);
    route := uriStr[..IndexOf(uriStr, '?')];
    base, p := ReporterParams(decodedUri);
  }
}
