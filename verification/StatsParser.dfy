/** The in-place parser of a reply buffer: one strtok_r walk over the lines and, inside each line,
    another over the words, both writing NULs into the same buffer. */
module StatsParser {
  import opened CStrings
  import opened Tailq
  import opened StatsCache
  import opened StatsText

  /** A string that starts at i and ends at z. */
  ghost predicate StringAt(b: string, i: nat, z: nat) {
    i <= z < |b| && b[z] == '\0' && NulFree(b[i..z])
  }

  function DelimRun(s: string, delims: string): (n: nat)
    ensures n <= |s| && AllIn(s[..n], delims)
    ensures n < |s| ==> s[n] !in delims
  {
    if s == "" || s[0] !in delims then 0 else
      var n := 1 + DelimRun(s[1..], delims);
      assert s[..n] == [s[0]] + s[1..][..n - 1];
      n
  }

  /** One call of strtok_r: where the token starts, where the next call goes on, and the buffer after it. */
  datatype Call = Call(tok: Option<nat>, save: nat, after: string)

  /** strtok_r from s on, in a buffer b whose string ends at z. */
  function Strtok(b: string, s: nat, delims: string, z: nat): Call
    requires s <= z < |b|
  {
    var i := s + DelimRun(b[s..z], delims);
    if i == z then Call(None, z, b)
    else
      var e := i + SpanLength(b[i..z], delims);
      if e == z then Call(Some(i), z, b) else Call(Some(i), e + 1, b[e := '\0'])
  }

  method Strspn(buf: array<char>, s: nat, delims: string, ghost z: nat) returns (i: nat)
    requires StringAt(buf[..], s, z)
    ensures i == s + DelimRun(buf[..][s..z], delims)
  {
    hide DelimRun;
    i := s;
    while buf[i] != '\0' && buf[i] in delims
      invariant s <= i <= z
      invariant forall k :: s <= k < i ==> buf[k] in delims
      decreases z - i
    {
      i := i + 1;
    }
    NulEnds(buf[..], s, z, i);
    DelimRunIs(buf[..][s..z], delims, i - s);
  }

  method Strcspn(buf: array<char>, i: nat, delims: string, ghost z: nat) returns (e: nat)
    requires StringAt(buf[..], i, z)
    ensures e == i + SpanLength(buf[..][i..z], delims)
  {
    hide SpanLength;
    e := i;
    while buf[e] != '\0' && buf[e] !in delims
      invariant i <= e <= z
      invariant forall k :: i <= k < e ==> buf[k] !in delims
      decreases z - e
    {
      e := e + 1;
    }
    NulEnds(buf[..], i, z, e);
    SpanLengthIs(buf[..][i..z], delims, e - i);
  }

  lemma NulEnds(b: string, s: nat, z: nat, i: nat)
    requires StringAt(b, s, z) && s <= i <= z
    ensures b[i] == '\0' <==> i == z
    ensures i < z ==> b[s..z][i - s] == b[i]
    ensures b[s..z][..i - s] == b[s..i]
  {
    if i < z {
      assert b[s..z][i - s] == b[i];
    }
  }

  method StrtokR(buf: array<char>, s: nat, delims: string, ghost z: nat) returns (tok: Option<nat>, save: nat)
    requires StringAt(buf[..], s, z) && '\0' !in delims
    modifies buf
    ensures Call(tok, save, buf[..]) == Strtok(old(buf[..]), s, delims, z)
  {
    hide DelimRun, SpanLength;
    ghost var b := buf[..];
    var i := Strspn(buf, s, delims, z);
    NulEnds(b, s, z, i);
    if buf[i] == '\0' {
      return None, i;
    }
    SliceOfSlice(b, s, z, i - s, z - s);
    var e := Strcspn(buf, i, delims, z);
    NulEnds(b, i, z, e);
    if buf[e] == '\0' {
      return Some(i), e;
    }
    buf[e] := '\0';
    assert buf[..] == b[e := '\0'];
    return Some(i), e + 1;
  }

  lemma DelimRunIs(s: string, delims: string, n: nat)
    requires n <= |s| && AllIn(s[..n], delims) && (n < |s| ==> s[n] !in delims)
    ensures DelimRun(s, delims) == n
  {
    assert DelimRun(s, delims) == n;
  }

  lemma FieldsStep(t: string, delims: string)
    ensures t == "" ==> Fields(t, delims) == []
    ensures t != "" && t[0] in delims ==> Fields(t, delims) == Fields(t[1..], delims)
  {
  }

  /** One strtok_r call takes the first field and leaves the others. */
  lemma FirstField(t: string, delims: string)
    ensures var r := DelimRun(t, delims);
      if r == |t| then Fields(t, delims) == []
      else
        var e := r + SpanLength(t[r..], delims);
        Fields(t, delims) == [t[r..e]] + Fields(if e == |t| then "" else t[e + 1..], delims)
  {
    hide Fields, DelimRun, SpanLength;
    var r := DelimRun(t, delims);
    assert t == t[..r] + t[r..];
    FieldsSkip(t[..r], t[r..], delims);
    if r < |t| {
      var e := r + SpanLength(t[r..], delims);
      assert t[r..] == t[r..e] + t[e..];
      assert t[r..][..e - r] == t[r..e];
      assert e < |t| ==> t[r..][e - r] == t[e];
      FieldsTake(t[r..e], t[e..], delims);
      FieldsStep(t[e..], delims);
      if e < |t| {
        assert t[e..][1..] == t[e + 1..];
      } else {
        FieldsStep("", delims);
      }
    } else {
      FieldsStep(t[r..], delims);
    }
  }

  lemma SliceOfSlice(b: string, s: nat, z: nat, i: nat, j: nat)
    requires s + i <= s + j <= z <= |b|
    ensures b[s..z][i..j] == b[s + i..s + j]
    ensures forall k :: s + i <= k < s + j ==> b[k] == b[s..z][k - s]
  {
    assert forall k :: 0 <= k < j - i ==> b[s..z][i..j][k] == b[s + i..s + j][k];
  }

  lemma StringReads(b: string, i: nat, e: nat)
    requires StringAt(b, i, e)
    ensures CStr(b[i..]) == b[i..e]
  {
    CStrIs(b[i..], b[i..e]);
  }

  lemma StringEnds(b: string, s: nat, z: nat)
    requires StringAt(b, s, z)
    ensures s <= z < |b| && StringAt(b, z, z)
  {
  }

  lemma TokenInside(b: string, s: nat, z: nat, i: nat, e: nat)
    requires StringAt(b, s, z) && s <= i <= e <= z
    ensures var after := if e == z then b else b[e := '\0'];
      StringAt(after, i, e) && CStr(after[i..]) == b[i..e]
  {
    var after := if e == z then b else b[e := '\0'];
    SliceOfSlice(b, s, z, i - s, e - s);
    assert after[i..e] == b[i..e];
    StringReads(after, i, e);
  }

  /** Two buffers that differ at most between lo and hi. */
  ghost predicate SameOutside(a: string, b: string, lo: nat, hi: nat) {
    |a| == |b| && forall k :: 0 <= k < |a| && (k < lo || hi <= k) ==> a[k] == b[k]
  }

  /** What a call leaves: the token reads back as the first field, and behind it there is still a string
      with the other fields. Nothing before s or behind the token changes. */
  lemma TokenCut(b: string, s: nat, delims: string, z: nat)
    requires StringAt(b, s, z) && '\0' !in delims
    ensures var c, fields := Strtok(b, s, delims, z), Fields(b[s..z], delims);
      && s <= c.save <= z && SameOutside(c.after, b, s, c.save) && StringAt(c.after, c.save, z)
      && (c.tok == None <==> fields == [])
      && (c.tok.Some? ==>
            && s <= c.tok.value && c.tok.value + |fields[0]| <= c.save
            && StringAt(c.after, c.tok.value, c.tok.value + |fields[0]|) && CStr(c.after[c.tok.value..]) == fields[0]
            && fields[1..] == Fields(c.after[c.save..z], delims))
  {
    hide Fields, DelimRun, SpanLength, CStr, StringAt;
    StringEnds(b, s, z);
    var t := b[s..z];
    FirstField(t, delims);
    var r := DelimRun(t, delims);
    var i := s + r;
    if r < |t| {
      SliceOfSlice(b, s, z, r, z - s);
      var e := i + SpanLength(b[i..z], delims);
      SliceOfSlice(b, s, z, r, e - s);
      TokenInside(b, s, z, i, e);
      if e < z {
        RestOfString(b, s, z, e);
      } else {
        assert b[z..z] == "";
      }
    }
  }

  lemma RestOfString(b: string, s: nat, z: nat, e: nat)
    requires StringAt(b, s, z) && s <= e < z
    ensures b[s..z][e - s + 1..] == b[e + 1..z]
    ensures StringAt(b[e := '\0'], e + 1, z) && b[e := '\0'][e + 1..z] == b[e + 1..z]
  {
    SliceOfSlice(b, s, z, e - s + 1, z - s);
    assert b[e := '\0'][e + 1..z] == b[e + 1..z];
  }

  /** Two calls on the words of one line. */
  lemma TwoWords(b: string, str: nat, z: nat)
    requires StringAt(b, str, z)
    ensures var c1 := Strtok(b, str, " ", z);
      var words := Fields(b[str..z], " ");
      && str <= c1.save <= z && StringAt(c1.after, c1.save, z) && SameOutside(c1.after, b, str, z)
      && (c1.tok == None ==> |words| == 0)
      && (c1.tok.Some? ==>
            var c2 := Strtok(c1.after, c1.save, " ", z);
            && c1.tok.value <= |b| && |words| >= 1 && CStr(c1.after[c1.tok.value..]) == words[0]
            && SameOutside(c2.after, b, str, z)
            && (c2.tok == None <==> |words| == 1)
            && (c2.tok.Some? ==> c2.tok.value <= |b| && CStr(c2.after[c2.tok.value..]) == words[1]))
  {
    hide Fields, Strtok, CStr;
    TokenCut(b, str, " ", z);
    var c1 := Strtok(b, str, " ", z);
    if c1.tok.Some? {
      TokenCut(c1.after, c1.save, " ", z);
    }
  }

  /** sp_memcache_stats_parse_basic: the first two words, or nothing; only the line itself is written. */
  method ParseBasic(buf: array<char>, str: nat, ghost z: nat) returns (name: Option<string>, value: Option<string>)
    requires StringAt(buf[..], str, z)
    modifies buf
    ensures var words := Fields(old(buf[..])[str..z], " ");
      if |words| < 2 then name == value == None else name == Some(words[0]) && value == Some(words[1])
    ensures SameOutside(buf[..], old(buf[..]), str, z)
  {
    hide Fields, Strtok, CStr, StringAt, SameOutside;
    name, value := None, None;
    TwoWords(buf[..], str, z);
    var tok, save := StrtokR(buf, str, " ", z);
    if tok.Some? {
      assert buf[tok.value..] == buf[..][tok.value..];
      name := Some(TokenAt(buf, tok.value));
      tok, save := StrtokR(buf, save, " ", z);
      if tok.Some? {
        assert buf[tok.value..] == buf[..][tok.value..];
        value := Some(TokenAt(buf, tok.value));
      } else {
        name := None; // don't return half a result
      }
    }
  }

  /** strdup(tok) */
  function TokenAt(buf: array<char>, tok: nat): string
    requires tok <= buf.Length
    reads buf
  {
    CStr(buf[tok..])
  }

  /** A line in the buffer, as strncmp and strtok_r see it with and without its prefix. */
  lemma LineInBuffer(b: string, tok: nat, e: nat)
    requires StringAt(b, tok, e)
    ensures var line, raw := b[tok..e], if PREFIX <= CStr(b[tok..]) then tok + |PREFIX| else tok;
      CStr(b[tok..]) == line && StringAt(b, raw, e) && b[raw..e] == WithoutPrefix(line)
  {
    StringReads(b, tok, e);
    if PREFIX <= b[tok..e] {
      SliceOfSlice(b, tok, e, |PREFIX|, e - tok);
      assert b[tok..e][|PREFIX|..] == b[tok + |PREFIX|..e];
      TokenInside(b, tok, e, tok + |PREFIX|, e);
    }
  }

  /** What the line walk still has to do: the current line and the fields behind it. */
  ghost predicate Pending(b: string, tok: Option<nat>, save: nat, z: nat, lines: seq<string>) {
    && save <= z < |b| && StringAt(b, save, z)
    && (tok == None ==> lines == [])
    && (tok.Some? ==>
          && lines != [] && tok.value + |lines[0]| <= save && StringAt(b, tok.value, tok.value + |lines[0]|)
          && b[tok.value..tok.value + |lines[0]|] == lines[0] && lines[1..] == Fields(b[save..z], "\r\n"))
  }

  lemma PendingAfterCall(b: string, s: nat, z: nat)
    requires StringAt(b, s, z)
    ensures var c := Strtok(b, s, "\r\n", z);
      Pending(c.after, c.tok, c.save, z, Fields(b[s..z], "\r\n"))
  {
    hide Fields, Strtok, CStr;
    TokenCut(b, s, "\r\n", z);
    var c := Strtok(b, s, "\r\n", z);
    if c.tok.Some? {
      StringReads(c.after, c.tok.value, c.tok.value + |Fields(b[s..z], "\r\n")[0]|);
    }
  }

  /** The current line in the buffer, and where its words start. */
  lemma PendingLine(b: string, tok: nat, save: nat, z: nat, lines: seq<string>)
    requires Pending(b, Some(tok), save, z, lines)
    ensures lines != [] && tok <= |b|
    ensures var e, raw := tok + |lines[0]|, if PREFIX <= CStr(b[tok..]) then tok + |PREFIX| else tok;
      tok <= raw <= e < |b| && StringAt(b, raw, e) && b[raw..e] == WithoutPrefix(lines[0])
  {
    LineInBuffer(b, tok, tok + |lines[0]|);
  }

  /** Writing inside the current line leaves the rest of the walk as it was. */
  lemma PendingKept(b: string, b': string, tok: nat, raw: nat, save: nat, z: nat, lines: seq<string>)
    requires Pending(b, Some(tok), save, z, lines) && lines != [] && tok <= raw <= tok + |lines[0]|
    requires SameOutside(b', b, raw, tok + |lines[0]|)
    ensures save <= z < |b'| && StringAt(b', save, z) && Fields(b'[save..z], "\r\n") == lines[1..]
  {
    assert b'[save..z] == b[save..z];
  }

  /** A line adds what its first two words say. */
  lemma LineAdds(lines: seq<string>)
    requires lines != []
    ensures ParseLines(lines) == Collected(lines[0]) + ParseLines(lines[1..])
    ensures var words := Fields(WithoutPrefix(lines[0]), " ");
      Collected(lines[0]) == if |words| < 2 then [] else [Stat(words[0], ALPHA(words[1]))]
  {
  }

  lemma WholeText(b: string)
    requires |CStr(b)| < |b|
    ensures StringAt(b, 0, |CStr(b)|) && b[0..|CStr(b)|] == CStr(b)
  {
  }

  function Collected(line: string): seq<Stat> {
    match ParseLine(line) case Some(st) => [st] case None => []
  }

  /** sp_memcache_stats_add_stats: the stats of the text in the buffer are appended, in order. */
  method AddStats(stats: Head<Stat>, buf: array<char>, num: nat) returns (num': nat)
    requires stats.Valid() && Owned(stats.elems) && |CStr(buf[..])| < buf.Length
    modifies buf, stats, (set e | e in stats.elems)`next, (set e | e in stats.elems)`prev
    ensures stats.Valid() && Owned(stats.elems)
    ensures forall e :: e in stats.elems ==> e in old(stats.elems) || fresh(e)
    ensures Items(stats.elems) == old(Items(stats.elems)) + ParseStats(CStr(old(buf[..])))
    ensures num' == num + |ParseStats(CStr(old(buf[..])))|
  {
    hide Fields, Strtok, CStr, StringAt, SameOutside, Pending, Head.Valid, Collected, WithoutPrefix, ParseLines, Items;
    num' := num;
    WholeText(buf[..]);
    ghost var text, z, done := CStr(buf[..]), |CStr(buf[..])|, [];
    ghost var lines := Fields(text, "\r\n");
    PendingAfterCall(buf[..], 0, z);
    var res: Option<nat>, save: nat := StrtokR(buf, 0, "\r\n", z);
    while res.Some?
      invariant stats.Valid() && Owned(stats.elems)
      invariant forall e :: e in stats.elems ==> e in old(stats.elems) || fresh(e)
      invariant Items(stats.elems) == old(Items(stats.elems)) + done && num' == num + |done|
      invariant ParseStats(text) == done + ParseLines(lines)
      invariant Pending(buf[..], res, save, z, lines)
      decreases |lines|
    {
      ghost var b := buf[..];
      PendingLine(b, res.value, save, z, lines);
      LineAdds(lines);
      assert b[res.value..] == buf[res.value..];
      var raw := if PREFIX <= TokenAt(buf, res.value) then res.value + |PREFIX| else res.value;
      var name, value := ParseBasic(buf, raw, res.value + |lines[0]|);
      PendingKept(b, buf[..], res.value, raw, save, z, lines);
      if name.Some? && value.Some? {
        assert forall e :: e in stats.elems ==> e in old(stats.elems) || fresh(e);
        InsertNew(stats, Stat(name.value, ALPHA(value.value)));
        num' := num' + 1;
      }
      done := done + Collected(lines[0]);
      lines := lines[1..];
      PendingAfterCall(buf[..], save, z);
      res, save := StrtokR(buf, save, "\r\n", z);
    }
    NothingPending(buf[..], save, z, lines);
  }

  lemma NothingPending(b: string, save: nat, z: nat, lines: seq<string>)
    requires Pending(b, None, save, z, lines)
    ensures lines == [] && ParseLines(lines) == []
  {
  }

  lemma {:induction false} PrintSnoc(stats: seq<Stat>, st: Stat)
    ensures PrintList(stats + [st]) == PrintList(stats) + PrintStat(st)
  {
    hide PrintStat;
    if stats == [] {
      assert (stats + [st])[1..] == [];
    } else {
      assert (stats + [st])[1..] == stats[1..] + [st];
      PrintSnoc(stats[1..], st);
    }
  }

  /** rawPrintStats: what a telnet client is sent. */
  method RawPrintStats(stats: Head<Stat>) returns (out: string)
    requires stats.Valid()
    ensures out == PrintStats(Items(stats.elems))
  {
    hide PrintList, PrintStat;
    out := "";
    stats.FirstIs();
    var entry := stats.first;
    ghost var i := 0;
    NothingPrinted(stats.elems);
    while entry != null
      invariant i <= |stats.elems| && entry == if i < |stats.elems| then stats.elems[i] else null
      invariant out == PrintList(Items(stats.elems[..i]))
      decreases |stats.elems| - i
    {
      stats.NextIs(i);
      assert Items(stats.elems[..i + 1]) == Items(stats.elems[..i]) + [entry.item];
      PrintSnoc(Items(stats.elems[..i]), entry.item);
      out := out + PrintStat(entry.item);
      entry := entry.next;
      i := i + 1;
    }
    assert stats.elems[..i] == stats.elems;
    out := out + "END\r\n";
  }

  lemma NothingPrinted(q: seq<Node<Stat>>)
    ensures PrintList(Items(q[..0])) == ""
  {
  }
}
