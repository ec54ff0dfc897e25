/** Stats as text: splitting at delimiters, one stat per line, and the matching printer. */
module StatsText {
  import opened CStrings
  import opened Numerals
  import opened StatsCache

  // ----- strtok_r, seen from outside

  function SpanLength(s: string, delims: string): (n: nat)
    ensures n <= |s| && forall i :: 0 <= i < n ==> s[i] !in delims
    ensures n < |s| ==> s[n] in delims
  {
    if s == "" || s[0] in delims then 0 else 1 + SpanLength(s[1..], delims)
  }

  /** The tokens a strtok_r loop visits. */
  function Fields(s: string, delims: string): seq<string>
    decreases |s|
  {
    if s == "" then []
    else if s[0] in delims then Fields(s[1..], delims)
    else [s[..SpanLength(s, delims)]] + Fields(s[SpanLength(s, delims)..], delims)
  }

  predicate AllIn(s: string, delims: string) {
    forall i :: 0 <= i < |s| ==> s[i] in delims
  }

  predicate NoneIn(s: string, delims: string) {
    forall i :: 0 <= i < |s| ==> s[i] !in delims
  }

  /** Fields kept apart by gaps; only the outer gaps may be empty. */
  predicate Apart(gaps: seq<string>, fields: seq<string>, delims: string) {
    && |gaps| == |fields| + 1
    && (forall i :: 0 <= i < |gaps| ==> AllIn(gaps[i], delims) && (0 < i < |fields| ==> gaps[i] != ""))
    && (forall i :: 0 <= i < |fields| ==> fields[i] != "" && NoneIn(fields[i], delims))
  }

  function Weave(gaps: seq<string>, fields: seq<string>): string
    requires |gaps| == |fields| + 1
  {
    if fields == [] then gaps[0] else gaps[0] + (fields[0] + Weave(gaps[1..], fields[1..]))
  }

  lemma {:induction false} FieldsSkip(g: string, s: string, delims: string)
    requires AllIn(g, delims)
    ensures Fields(g + s, delims) == Fields(s, delims)
  {
    if g == "" {
      assert g + s == s;
    } else {
      assert (g + s)[1..] == g[1..] + s;
      FieldsSkip(g[1..], s, delims);
    }
  }

  lemma SpanLengthIs(s: string, delims: string, n: nat)
    requires n <= |s| && NoneIn(s[..n], delims) && (n < |s| ==> s[n] in delims)
    ensures SpanLength(s, delims) == n
  {
    assert SpanLength(s, delims) == n;
  }

  lemma FieldsTake(f: string, s: string, delims: string)
    requires f != "" && NoneIn(f, delims) && (s == "" || s[0] in delims)
    ensures Fields(f + s, delims) == [f] + Fields(s, delims)
  {
    var t := f + s;
    assert t[0] == f[0] && t[..|f|] == f && t[|f|..] == s;
    SpanLengthIs(t, delims, |f|);
  }

  /** The fields are the maximal delimiter-free runs: no other cutting of the text is apart. */
  lemma {:induction false} FieldsOfWeave(gaps: seq<string>, fields: seq<string>, delims: string)
    requires Apart(gaps, fields, delims)
    ensures Fields(Weave(gaps, fields), delims) == fields
    decreases |fields|
  {
    if fields == [] {
      FieldsSkip(gaps[0], "", delims);
      assert gaps[0] + "" == gaps[0];
    } else {
      var rest := Weave(gaps[1..], fields[1..]);
      assert gaps[1..][0] == gaps[1] && AllIn(gaps[1], delims);
      assert |fields| > 1 ==> rest[0] == gaps[1][0];
      assert |fields| == 1 ==> rest == gaps[1];
      assert rest == "" || rest[0] in delims;
      FieldsOfWeave(gaps[1..], fields[1..], delims);
      FieldsTake(fields[0], rest, delims);
      FieldsSkip(gaps[0], fields[0] + rest, delims);
    }
  }

  lemma WeaveLonger(c: char, gaps: seq<string>, fields: seq<string>)
    requires |gaps| == |fields| + 1
    ensures Weave([[c] + gaps[0]] + gaps[1..], fields) == [c] + Weave(gaps, fields)
  {
    var longer := [[c] + gaps[0]] + gaps[1..];
    assert longer[1..] == gaps[1..];
    if fields != [] {
      var rest := fields[0] + Weave(gaps[1..], fields[1..]);
      assert [c] + gaps[0] + rest == [c] + (gaps[0] + rest);
    }
  }

  lemma FieldInFront(f: string, gaps: seq<string>, fields: seq<string>, delims: string)
    requires Apart(gaps, fields, delims) && f != "" && NoneIn(f, delims) && (fields != [] ==> gaps[0] != "")
    ensures Apart([""] + gaps, [f] + fields, delims) && Weave([""] + gaps, [f] + fields) == f + Weave(gaps, fields)
  {
    assert ([""] + gaps)[1..] == gaps && ([f] + fields)[1..] == fields;
    assert "" + (f + Weave(gaps, fields)) == f + Weave(gaps, fields);
  }

  lemma DelimInFront(c: char, gaps: seq<string>, fields: seq<string>, delims: string)
    requires Apart(gaps, fields, delims) && c in delims
    ensures var longer := [[c] + gaps[0]] + gaps[1..];
      Apart(longer, fields, delims) && Weave(longer, fields) == [c] + Weave(gaps, fields) && longer[0] != ""
  {
    hide Weave;
    WeaveLonger(c, gaps, fields);
  }

  lemma NoFields(delims: string)
    ensures Apart([""], [], delims) && Weave([""], []) == ""
  {
  }

  /** And every text is cut that way. */
  lemma {:induction false} FieldsCover(s: string, delims: string) returns (gaps: seq<string>)
    ensures Apart(gaps, Fields(s, delims), delims) && Weave(gaps, Fields(s, delims)) == s
    ensures s != "" && s[0] in delims ==> gaps[0] != ""
    decreases |s|
  {
    hide Apart, Weave;
    NoFields(delims);
    if s == "" {
      gaps := [""];
    } else if s[0] in delims {
      var more := FieldsCover(s[1..], delims);
      ApartLength(more, Fields(s, delims), delims);
      gaps := [[s[0]] + more[0]] + more[1..];
      DelimInFront(s[0], more, Fields(s, delims), delims);
      assert s == [s[0]] + s[1..];
    } else {
      var n := SpanLength(s, delims);
      var more := FieldsCover(s[n..], delims);
      ApartLength(more, Fields(s[n..], delims), delims);
      gaps := [""] + more;
      FieldInFront(s[..n], more, Fields(s[n..], delims), delims);
      assert s == s[..n] + s[n..];
    }
  }

  lemma ApartLength(gaps: seq<string>, fields: seq<string>, delims: string)
    requires Apart(gaps, fields, delims)
    ensures |gaps| == |fields| + 1
  {
  }

  // ----- one line, one stat

  const PREFIX := "STAT "

  function WithoutPrefix(line: string): string {
    if PREFIX <= line then line[|PREFIX|..] else line
  }

  /** Name and value are the first two words; a line with fewer adds nothing. */
  function ParseLine(line: string): Option<Stat> {
    var words := Fields(WithoutPrefix(line), " ");
    if |words| < 2 then None else Some(Stat(words[0], ALPHA(words[1])))
  }

  function ParseLines(lines: seq<string>): seq<Stat> {
    if lines == [] then []
    else (match ParseLine(lines[0]) case Some(st) => [st] case None => []) + ParseLines(lines[1..])
  }

  function ParseStats(text: string): seq<Stat> {
    ParseLines(Fields(text, "\r\n"))
  }

  function ValueText(v: StatValue): string {
    match v
    case ALPHA(s) => s
    case UINT64(n) => Decimal(n)
  }

  function PrintStat(st: Stat): string {
    PREFIX + st.name + " " + ValueText(st.value) + "\r\n"
  }

  function PrintList(stats: seq<Stat>): string {
    if stats == [] then "" else PrintStat(stats[0]) + PrintList(stats[1..])
  }

  function PrintStats(stats: seq<Stat>): string {
    PrintList(stats) + "END\r\n"
  }

  // ----- the relay

  predicate Word(s: string) {
    s != "" && NoneIn(s, " \r\n")
  }

  predicate Relayable(st: Stat) {
    st.value.ALPHA? && Word(st.name) && Word(st.value.s)
  }

  lemma LineParses(name: string, value: string)
    requires Word(name) && Word(value)
    ensures ParseLine(PREFIX + name + " " + value) == Some(Stat(name, ALPHA(value)))
  {
    var line := PREFIX + name + " " + value;
    assert line[|PREFIX|..] == name + (" " + value);
    FieldsTake(name, " " + value, " ");
    FieldsSkip(" ", value, " ");
    FieldsTake(value, "", " ");
    assert value + "" == value;
  }

  lemma LineSplits(line: string, rest: string)
    requires line != "" && NoneIn(line, "\r\n")
    ensures Fields(line + "\r\n" + rest, "\r\n") == [line] + Fields(rest, "\r\n")
  {
    assert line + "\r\n" + rest == line + ("\r\n" + rest);
    FieldsTake(line, "\r\n" + rest, "\r\n");
    FieldsSkip("\r\n", rest, "\r\n");
  }

  /** Printing a list of words and parsing the text gives the list back; END adds nothing. */
  lemma {:induction false} ParsePrinted(stats: seq<Stat>)
    requires forall i :: 0 <= i < |stats| ==> Relayable(stats[i])
    ensures ParseStats(PrintStats(stats)) == stats
  {
    hide ParseLine, Fields, Word;
    if stats == [] {
      assert PrintStats(stats) == "END" + "\r\n" + "";
      LineSplits("END", "");
      EndDrops();
      assert ParseLines(["END"] + []) == [];
    } else {
      var st := stats[0];
      ParsePrinted(stats[1..]);
      var line := PREFIX + st.name + " " + st.value.s;
      LineOfWords(st.name, st.value.s);
      assert PrintStats(stats) == line + "\r\n" + PrintStats(stats[1..]);
      LineSplits(line, PrintStats(stats[1..]));
      LineParses(st.name, st.value.s);
      assert ([line] + Fields(PrintStats(stats[1..]), "\r\n"))[1..] == Fields(PrintStats(stats[1..]), "\r\n");
    }
  }

  lemma LineOfWords(name: string, value: string)
    requires Word(name) && Word(value)
    ensures NoneIn(PREFIX + name + " " + value, "\r\n")
  {
  }

  lemma EndDrops()
    ensures ParseLine("END") == None && Fields("", "\r\n") == []
  {
    FieldsTake("END", "", " ");
    assert "END" + "" == "END" && Fields("", " ") == [];
  }

  lemma {:induction false} FieldsAreClean(s: string, delims: string)
    ensures forall i :: 0 <= i < |Fields(s, delims)| ==>
      Fields(s, delims)[i] != "" && NoneIn(Fields(s, delims)[i], delims) &&
      forall c :: c in Fields(s, delims)[i] ==> c in s
    decreases |s|
  {
    if s != "" {
      if s[0] in delims {
        FieldsAreClean(s[1..], delims);
      } else {
        FieldsAreClean(s[SpanLength(s, delims)..], delims);
      }
    }
  }

  lemma ParsedLineRelayable(line: string)
    requires NoneIn(line, "\r\n")
    ensures ParseLine(line).Some? ==> Relayable(ParseLine(line).value)
  {
    var raw := WithoutPrefix(line);
    FieldsAreClean(raw, " ");
    var words := Fields(raw, " ");
    if |words| >= 2 {
      WordOf(words[0], raw, line);
      WordOf(words[1], raw, line);
    }
  }

  lemma WordOf(word: string, raw: string, line: string)
    requires raw == WithoutPrefix(line) && NoneIn(line, "\r\n")
    requires word != "" && NoneIn(word, " ") && forall c :: c in word ==> c in raw
    ensures Word(word)
  {
    forall i | 0 <= i < |word| ensures word[i] !in " \r\n" {
      assert word[i] in raw;
      var k :| 0 <= k < |raw| && raw[k] == word[i];
      assert raw[k] == line[|line| - |raw| + k];
    }
  }

  lemma {:induction false} ParsedLinesRelayable(lines: seq<string>)
    requires forall i :: 0 <= i < |lines| ==> NoneIn(lines[i], "\r\n")
    ensures forall i :: 0 <= i < |ParseLines(lines)| ==> Relayable(ParseLines(lines)[i])
  {
    hide ParseLine, Relayable;
    if lines != [] {
      ParsedLineRelayable(lines[0]);
      ParsedLinesRelayable(lines[1..]);
    }
  }

  lemma ParsedRelayable(text: string)
    ensures forall i :: 0 <= i < |ParseStats(text)| ==> Relayable(ParseStats(text)[i])
  {
    FieldsAreClean(text, "\r\n");
    ParsedLinesRelayable(Fields(text, "\r\n"));
  }

  /** What the proxy relays parses to what it parsed, whatever the server sent. */
  lemma RelayFixpoint(text: string)
    ensures ParseStats(PrintStats(ParseStats(text))) == ParseStats(text)
  {
    ParsedRelayable(text);
    ParsePrinted(ParseStats(text));
  }
}
