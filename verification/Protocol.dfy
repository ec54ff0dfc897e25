/** The stats protocol with its words written out: what lines mean, what clients are sent, and when the text
    that is sent is itself a reply that can be polled. */
module Protocol {
  import opened CStrings
  import opened Numerals
  import opened StatsCache
  import opened StatsText
  import opened Wire
  import opened Session
  import opened Poller

  // ----- what the server's lines mean

  /** The first two words of a line, with or without the server's prefix, are name and value; a line with fewer
      words says nothing, and words behind the second do not count. */
  lemma LineMeans(gaps: seq<string>, words: seq<string>)
    requires Apart(gaps, words, " ")
    ensures var line := Weave(gaps, words);
      var meaning := if |words| < 2 then None else Some(Stat(words[0], ALPHA(words[1])));
      && ParseLine("STAT " + line) == meaning
      && (!("STAT " <= line) ==> ParseLine(line) == meaning)
  {
    hide Fields, Weave;
    var line := Weave(gaps, words);
    FieldsOfWeave(gaps, words, " ");
    assert ("STAT " + line)[5..] == line;
  }

  lemma StatLine(name: string, value: string)
    requires Word(name) && Word(value)
    ensures ParseLine("STAT " + name + " " + value) == Some(Stat(name, ALPHA(value)))
  {
    LineParses(name, value);
  }

  /** A reply is its lines, taken one by one. */
  lemma ReplyMeans(gaps: seq<string>, lines: seq<string>, line: string, more: seq<string>)
    requires Apart(gaps, lines, "\r\n")
    ensures ParseStats(Weave(gaps, lines)) == ParseLines(lines)
    ensures ParseLines([]) == []
    ensures ParseLine(line).Some? ==> ParseLines([line] + more) == [ParseLine(line).value] + ParseLines(more)
    ensures ParseLine(line) == None ==> ParseLines([line] + more) == ParseLines(more)
  {
    hide Fields, Weave, ParseLine;
    FieldsOfWeave(gaps, lines, "\r\n");
    assert ([line] + more)[1..] == more;
  }

  // ----- what a client is sent

  /** Line by line, a number in its decimal digits, and END. */
  lemma TextForClients(name: string, value: StatValue, more: seq<Stat>)
    ensures PrintStats([]) == "END\r\n"
    ensures PrintStats([Stat(name, value)] + more) ==
            "STAT " + name + " " + (match value case ALPHA(s) => s case UINT64(n) => Decimal(n)) + "\r\n" + PrintStats(more)
  {
    hide Decimal;
    assert ([Stat(name, value)] + more)[1..] == more;
  }

  // ----- when that text is a whole reply

  predicate Printable(st: Stat) {
    Word(st.name) && NulFree(st.name) && Word(ValueText(st.value)) && NulFree(ValueText(st.value))
  }

  predicate EndsInEnd(s: string) {
    |s| >= 3 && s[|s| - 3..] == "END"
  }

  /** Neither word can be taken for an error, nor the end of the line for the end of the reply. */
  predicate Harmless(st: Stat) {
    !Contains(st.name, "ERROR") && !Contains(ValueText(st.value), "ERROR") && !EndsInEnd(ValueText(st.value))
  }

  /** Character by character. */
  lemma OccursMeans(t: string, pat: string, i: nat)
    ensures OccursAt(t, pat, i) <==> i + |pat| <= |t| && forall k :: i <= k < i + |pat| ==> t[k] == pat[k - i]
  {
    if i + |pat| <= |t| && (forall k :: i <= k < i + |pat| ==> t[k] == pat[k - i]) {
      assert t[i..i + |pat|] == pat;
    }
    if OccursAt(t, pat, i) {
      assert forall k :: i <= k < i + |pat| ==> t[i..i + |pat|][k - i] == t[k];
    }
  }

  /** A separator that is not in the pattern parts the places where it can stand. */
  lemma OccursAcross(a: string, c: char, b: string, pat: string, i: nat)
    requires c !in pat
    ensures OccursAt(a + [c] + b, pat, i) && pat != "" ==> i + |pat| <= |a| || i > |a|
    ensures i + |pat| <= |a| ==> OccursAt(a + [c] + b, pat, i) == OccursAt(a, pat, i)
    ensures OccursAt(a + [c] + b, pat, |a| + 1 + i) == OccursAt(b, pat, i)
  {
    var t := a + [c] + b;
    assert t[|a|] == c;
    OccursMeans(t, pat, i);
    OccursMeans(a, pat, i);
    OccursMeans(b, pat, i);
    assert |a| + 1 + i + |pat| <= |t| ==> t[|a| + 1 + i..|a| + 1 + i + |pat|] == b[i..i + |pat|];
  }

  lemma ContainsAcross(a: string, c: char, b: string, pat: string)
    requires pat != "" && c !in pat
    ensures Contains(a + [c] + b, pat) <==> Contains(a, pat) || Contains(b, pat)
  {
    hide OccursAt;
    var t := a + [c] + b;
    forall i: nat
      ensures OccursAt(t, pat, i) ==> i + |pat| <= |a| || i > |a|
      ensures i + |pat| <= |a| ==> OccursAt(t, pat, i) == OccursAt(a, pat, i)
      ensures OccursAt(t, pat, |a| + 1 + i) == OccursAt(b, pat, i)
    {
      OccursAcross(a, c, b, pat, i);
    }
    Occurrence(a, pat);
    Occurrence(b, pat);
    Occurrence(t, pat);
    if Contains(a, pat) {
      var i: nat :| OccursAt(a, pat, i);
      assert OccursAt(t, pat, i);
    }
    if Contains(b, pat) {
      var i: nat :| OccursAt(b, pat, i);
      assert OccursAt(t, pat, |a| + 1 + i);
    }
    if Contains(t, pat) {
      var i: nat :| OccursAt(t, pat, i);
      if i > |a| {
        var j: nat := i - |a| - 1;
        assert OccursAt(b, pat, j) == OccursAt(t, pat, |a| + 1 + j);
      }
    }
  }

  lemma Occurrence(t: string, pat: string)
    ensures Contains(t, pat) <==> exists i: nat :: OccursAt(t, pat, i)
    ensures forall i: nat :: OccursAt(t, pat, i) ==> i + |pat| <= |t|
  {
    forall i: nat | OccursAt(t, pat, i) ensures Contains(t, pat) {
      assert 0 <= i <= |t|;
    }
  }

  lemma NoErrorIn(s: string)
    requires |s| < 5
    ensures !Contains(s, "ERROR")
  {
  }

  lemma ErrorInLine(name: string, value: string, rest: string)
    ensures Contains("STAT " + name + " " + value + "\r\n" + rest, "ERROR") <==>
            Contains(name, "ERROR") || Contains(value, "ERROR") || Contains(rest, "ERROR")
  {
    hide Contains;
    var t3 := "" + ['\n'] + rest;
    var t2 := value + ['\r'] + t3;
    var t1 := name + [' '] + t2;
    ContainsAcross("", '\n', rest, "ERROR");
    ContainsAcross(value, '\r', t3, "ERROR");
    ContainsAcross(name, ' ', t2, "ERROR");
    ContainsAcross("STAT", ' ', t1, "ERROR");
    NoErrorIn("STAT");
    NoErrorIn("");
    assert "STAT " + name + " " + value + "\r\n" + rest == "STAT" + [' '] + t1;
  }

  lemma EndMeans(t: string, i: nat)
    ensures OccursAt(t, "END\r\n", i) <==>
            i + 5 <= |t| && t[i] == 'E' && t[i + 1] == 'N' && t[i + 2] == 'D' && t[i + 3] == '\r' && t[i + 4] == '\n'
  {
    OccursMeans(t, "END\r\n", i);
  }

  /** END lines in a printed list: one for every value that ends so, and those of the rest. */
  lemma EndInLine(name: string, value: string, rest: string, i: nat)
    requires Word(name) && Word(value)
    ensures var line := "STAT " + name + " " + value + "\r\n";
      OccursAt(line + rest, "END\r\n", i) <==>
      (i == |line| - 5 && EndsInEnd(value)) || (i >= |line| && OccursAt(rest, "END\r\n", i - |line|))
  {
    var head := "STAT " + name + " ";
    var line := head + value + "\r\n";
    var t := line + rest;
    LineOfWords(name, value);
    assert head + value == PREFIX + name + " " + value;
    var n := |line|;
    assert t[n - 2] == '\r' && t[n - 1] == '\n' && t[n - 3 - |value|] == ' ';
    assert forall k :: 0 <= k < n - 2 ==> t[k] == (head + value)[k] && t[k] != '\r';
    EndMeans(t, i);
    if i >= n {
      EndMeans(rest, i - n);
    } else if i == n - 5 {
      assert |value| >= 3 ==> value[|value| - 3..] == t[i..i + 3] && t[i..i + 3] == [t[i], t[i + 1], t[i + 2]];
    }
  }

  ghost predicate OnlyLast(t: string) {
    |t| >= 5 && OccursAt(t, "END\r\n", |t| - 5) && forall i: nat :: OccursAt(t, "END\r\n", i) ==> i == |t| - 5
  }

  lemma {:induction false} PrintedParts(stats: seq<Stat>)
    requires forall i :: 0 <= i < |stats| ==> Printable(stats[i])
    ensures NulFree(PrintStats(stats)) && |PrintStats(stats)| >= 5
    ensures OccursAt(PrintStats(stats), "END\r\n", |PrintStats(stats)| - 5)
    ensures Contains(PrintStats(stats), "ERROR") <==>
            exists i :: 0 <= i < |stats| && (Contains(stats[i].name, "ERROR") || Contains(ValueText(stats[i].value), "ERROR"))
    ensures OnlyLast(PrintStats(stats)) <==> forall i :: 0 <= i < |stats| ==> !EndsInEnd(ValueText(stats[i].value))
  {
    hide Contains, OccursAt, Word, ValueText, EndsInEnd;
    if stats == [] {
      EndAlone();
    } else {
      var st, more := stats[0], stats[1..];
      var name, value, rest := st.name, ValueText(st.value), PrintStats(more);
      var line := "STAT " + name + " " + value + "\r\n";
      PrintedParts(more);
      assert PrintStats(stats) == line + rest;
      ErrorInLine(name, value, rest);
      forall i: nat
        ensures OccursAt(line + rest, "END\r\n", i) <==>
                (i == |line| - 5 && EndsInEnd(value)) || (i >= |line| && OccursAt(rest, "END\r\n", i - |line|))
      {
        EndInLine(name, value, rest, i);
      }
      OnlyLastStep(line, rest, EndsInEnd(value));
      assert forall i :: 0 <= i < |more| ==> more[i] == stats[i + 1];
      FirstOrMore(stats);
    }
  }

  lemma OnlyLastStep(line: string, rest: string, ends: bool)
    requires |line| >= 7 && |rest| >= 5 && OccursAt(rest, "END\r\n", |rest| - 5)
    requires forall i: nat :: OccursAt(line + rest, "END\r\n", i) <==>
               (i == |line| - 5 && ends) || (i >= |line| && OccursAt(rest, "END\r\n", i - |line|))
    ensures OccursAt(line + rest, "END\r\n", |line + rest| - 5)
    ensures OnlyLast(line + rest) <==> !ends && OnlyLast(rest)
  {
    hide OccursAt;
    assert |line + rest| - 5 == |line| + (|rest| - 5);
    var last: nat := |line| - 5;
    assert ends ==> OccursAt(line + rest, "END\r\n", last);
    if OnlyLast(line + rest) {
      forall i: nat | OccursAt(rest, "END\r\n", i) ensures i == |rest| - 5 {
        assert OccursAt(line + rest, "END\r\n", |line| + i);
      }
    }
  }

  lemma EndAlone()
    ensures PrintStats([]) == "END\r\n" && NulFree("END\r\n") && !Contains("END\r\n", "ERROR") && OnlyLast("END\r\n")
  {
    OccursMeans("END\r\n", "ERROR", 0);
    assert "END\r\n"[0..5] == "END\r\n";
  }

  /** A statement about all entries is one about the first and one about the others. */
  lemma FirstOrMore(stats: seq<Stat>)
    requires stats != []
    ensures forall i :: 0 <= i < |stats| ==> stats[i] == if i == 0 then stats[0] else stats[1..][i - 1]
  {
  }

  /** The text printed for a list of words is a whole reply if and only if every entry is harmless. */
  lemma PrintedIsReplyExactly(stats: seq<Stat>)
    requires forall i :: 0 <= i < |stats| ==> Printable(stats[i])
    ensures WholeReply(PrintStats(stats)) <==> forall i :: 0 <= i < |stats| ==> Harmless(stats[i])
  {
    hide Contains, OccursAt, Printable, ValueText, PrintStats, EndsInEnd;
    PrintedParts(stats);
  }

  /** A proxy that polls a proxy gets its list: same names, same values, same order. */
  lemma ChainedProxy(writeMs: int, readMs: int, uri: string, ev: VisitEv, stats: seq<Stat>)
    requires forall i :: 0 <= i < |stats| ==> Relayable(stats[i]) && Printable(stats[i]) && Harmless(stats[i])
    requires |PrintStats(stats)| < 32768
    requires var w := WriteRun(|StatsCommand(uri)|, writeMs, ev.writeStart, WriteStart(|StatsCommand(uri)|, writeMs), ev.writes);
      w.status == Returned && w.err == 0
    requires Delivers(ev.arrivals, PrintStats(stats), readMs, ev.readStart, readMs)
    ensures StatEffect(true, writeMs, readMs, uri, ev) == Installed(stats, true)
  {
    hide WriteRun, Delivers, StatsCommand, PrintStats, ParseStats, WholeReply, Printable, Harmless, Relayable;
    PrintedIsReplyExactly(stats);
    ParsePrinted(stats);
    PolledReply(writeMs, readMs, uri, ev, PrintStats(stats));
  }
}
