/** What the two topic parsers make of the quote converter's output: both
    read back one nugget per quote, with question `Quote`, the quote as
    description and consecutive ids. */
module QuoteRoundTrip {
  import opened Wrappers
  import opened Seqs
  import opened Text
  import opened Records
  import opened DataManager
  import opened TopicParser
  import opened ConvertQuotes

  predicate NoNewline(s: string)
  {
    forall j :: 0 <= j < |s| ==> s[j] != '\n'
  }

  /** A line as `readlines` returns it: a newline can only end it. */
  predicate FileLine(l: string)
  {
    forall j :: 0 <= j < |l| - 1 ==> l[j] != '\n'
  }

  /** The nuggets a parser should read from the entries of `qs`, numbered from
      `from`. */
  function QuoteNuggets(topicId: string, from: nat, qs: seq<string>): (r: seq<Nugget>)
    ensures |r| == |qs|
    decreases |qs|
  {
    if qs == [] then []
    else [Nugget(NuggetId(topicId, from), "Quote", JsTrim(qs[0]), topicId)] + QuoteNuggets(topicId, from + 1, qs[1..])
  }

  lemma {:induction false} QuoteNuggetsAt(topicId: string, from: nat, qs: seq<string>, k: nat)
    requires k < |qs|
    ensures QuoteNuggets(topicId, from, qs)[k] == Nugget(NuggetId(topicId, from + k), "Quote", JsTrim(qs[k]), topicId)
    decreases k
  {
    if k > 0 {
      QuoteNuggetsAt(topicId, from + 1, qs[1..], k - 1);
    }
  }

  lemma QuoteNuggetsIndexed(topicId: string, qs: seq<string>)
    ensures var ns := QuoteNuggets(topicId, 0, qs);
      forall k :: 0 <= k < |ns| ==> ns[k] == Nugget(NuggetId(topicId, k), "Quote", JsTrim(qs[k]), topicId)
  {
    forall k | 0 <= k < |qs|
      ensures QuoteNuggets(topicId, 0, qs)[k] == Nugget(NuggetId(topicId, k), "Quote", JsTrim(qs[k]), topicId)
    {
      QuoteNuggetsAt(topicId, 0, qs, k);
    }
  }

  // ---------------------------------------------------------------------
  // Splitting the body
  // ---------------------------------------------------------------------

  lemma SplitLine(a: string, b: string)
    requires NoNewline(a)
    ensures Split(a + "\n" + b, "\n") == [a] + Split(b, "\n")
  {
    var s := a + "\n" + b;
    forall j: nat | j < |a| ensures !OccursAt(s, "\n", j) {
      assert s[j..j + 1] == [a[j]];
    }
    SplitAt(a, "\n", b);
  }

  lemma SplitLast(a: string)
    requires NoNewline(a)
    ensures Split(a, "\n") == [a]
  {
    forall j: nat ensures !OccursAt(a, "\n", j) {
      if j + 1 <= |a| {
        assert a[j..j + 1] == [a[j]];
      }
    }
    SplitWhole(a, "\n");
  }

  /** The lines of the body: three per quote. */
  function QuoteLines(qs: seq<string>): seq<string>
  {
    if qs == [] then [] else ["T: Quote", "D: " + qs[0], ""] + QuoteLines(qs[1..])
  }

  lemma QuotePrefixClean(q: string)
    requires NoNewline(q)
    ensures NoNewline("D: " + q)
  {
  }

  /** The three lines of one entry, when something follows it. */
  lemma SplitEntryThen(q: string, b: string)
    requires NoNewline(q)
    ensures Split(Entry(q) + "\n" + b, "\n") == ["T: Quote", "D: " + q, ""] + Split(b, "\n")
  {
    var d := "D: " + q;
    QuotePrefixClean(q);
    var tail2 := "" + "\n" + b;
    var tail1 := d + "\n" + tail2;
    assert Entry(q) + "\n" + b == "T: Quote" + "\n" + tail1;
    SplitLine("T: Quote", tail1);
    SplitLine(d, tail2);
    SplitLine("", b);
  }

  /** The three lines of the last entry (its trailing newline gives the
      empty third line). */
  lemma SplitEntryLast(q: string)
    requires NoNewline(q)
    ensures Split(Entry(q), "\n") == ["T: Quote", "D: " + q, ""]
  {
    var d := "D: " + q;
    QuotePrefixClean(q);
    var tail1 := d + "\n" + "";
    assert Entry(q) == "T: Quote" + "\n" + tail1;
    SplitLine("T: Quote", tail1);
    SplitLine(d, "");
    SplitLast("");
  }

  /** A body of one quote is that quote's entry. */
  lemma BodyOne(qs: seq<string>)
    requires |qs| == 1
    ensures Body(qs) == Entry(qs[0])
  {
    assert Entries(qs) == [Entry(qs[0])] + Entries(qs[1..]);
  }

  /** A body of several quotes is the first entry, a newline and the body of
      the rest. */
  lemma BodyCons(qs: seq<string>)
    requires |qs| >= 2
    ensures Body(qs) == Entry(qs[0]) + "\n" + Body(qs[1..])
  {
    assert Entries(qs) == [Entry(qs[0])] + Entries(qs[1..]);
    JoinCons(Entry(qs[0]), Entries(qs[1..]), "\n");
  }

  lemma {:induction false} SplitBodyLines(qs: seq<string>)
    requires qs != [] && forall k :: 0 <= k < |qs| ==> NoNewline(qs[k])
    ensures Split(Body(qs), "\n") == QuoteLines(qs)
    decreases |qs|
  {
    var q := qs[0];
    var rest := qs[1..];
    assert QuoteLines(qs) == ["T: Quote", "D: " + q, ""] + QuoteLines(rest);
    if rest == [] {
      BodyOne(qs);
      SplitEntryLast(q);
      assert QuoteLines(rest) == [];
    } else {
      BodyCons(qs);
      SplitEntryThen(q, Body(rest));
      SplitBodyLines(rest);
    }
  }

  // ---------------------------------------------------------------------
  // The line scanner of the importer
  // ---------------------------------------------------------------------

  lemma QuestionLine()
    ensures JsTrim("T: Quote") == "T: Quote"
    ensures StartsWith("T: Quote", "T:") && JsTrim("T: Quote"[2..]) == "Quote"
  {
    TrimNoop(JsBlanks, "T: Quote");
    TaggedLine("T:", "Quote");
    assert "T:" + " " + "Quote" == "T: Quote";
    TrimNoop(JsBlanks, "Quote");
  }

  lemma AnswerLine(q: string)
    ensures var t := JsTrim("D: " + q);
      StartsWith(t, "D:") && !StartsWith(t, "T:") && JsTrim(t[2..]) == JsTrim(q)
  {
    TaggedLine("D:", q);
    assert "D:" + " " + q == "D: " + q;
  }

  /** One entry's three lines emit one nugget and leave nothing pending. */
  lemma ScanEntry(topicId: string, acc: seq<Nugget>, q: string, rest: seq<string>)
    ensures ScanFrom(topicId, ScanState("", acc), ["T: Quote", "D: " + q, ""] + rest)
         == ScanFrom(topicId, ScanState("", acc + [Nugget(NuggetId(topicId, |acc|), "Quote", JsTrim(q), topicId)]), rest)
  {
    QuestionLine();
    AnswerLine(q);
    var st := ScanState("", acc);
    var lines := ["T: Quote", "D: " + q, ""] + rest;
    assert lines == ["T: Quote"] + (["D: " + q] + ([""] + rest));
    assert ScanLine(topicId, st, "T: Quote") == ScanState("Quote", acc);
    assert ScanFrom(topicId, st, lines) == ScanFrom(topicId, ScanState("Quote", acc), ["D: " + q] + ([""] + rest)) by {
      assert lines[0] == "T: Quote" && lines[1..] == ["D: " + q] + ([""] + rest);
    }
    AnswerEmits(topicId, ScanState("Quote", acc), "D: " + q, [""] + rest);
    assert JsTrim("") == "";
    BlankLineSkipped(topicId, ScanState("", acc + [Nugget(NuggetId(topicId, |acc|), "Quote", JsTrim(q), topicId)]), "", rest);
  }

  lemma {:induction false} ScanQuoteLines(topicId: string, acc: seq<Nugget>, qs: seq<string>)
    ensures ScanFrom(topicId, ScanState("", acc), QuoteLines(qs))
         == ScanState("", acc + QuoteNuggets(topicId, |acc|, qs))
    decreases |qs|
  {
    if qs == [] {
      assert acc + [] == acc;
    } else {
      var n := Nugget(NuggetId(topicId, |acc|), "Quote", JsTrim(qs[0]), topicId);
      var acc' := acc + [n];
      var later := QuoteNuggets(topicId, |acc'|, qs[1..]);
      calc {
        ScanFrom(topicId, ScanState("", acc), QuoteLines(qs));
        { assert QuoteLines(qs) == ["T: Quote", "D: " + qs[0], ""] + QuoteLines(qs[1..]); }
        ScanFrom(topicId, ScanState("", acc), ["T: Quote", "D: " + qs[0], ""] + QuoteLines(qs[1..]));
        { ScanEntry(topicId, acc, qs[0], QuoteLines(qs[1..])); }
        ScanFrom(topicId, ScanState("", acc'), QuoteLines(qs[1..]));
        { ScanQuoteLines(topicId, acc', qs[1..]); }
        ScanState("", acc' + later);
        { assert QuoteNuggets(topicId, |acc|, qs) == [n] + later; }
        ScanState("", acc + QuoteNuggets(topicId, |acc|, qs));
      }
    }
  }

  /** A leading newline adds a blank first line, which the scanner skips. */
  lemma ScanLead(topicId: string, body: string)
    ensures ScanBody(topicId, "\n" + body) == ScanBody(topicId, body)
  {
    assert "\n" + body == "" + "\n" + body;
    SplitLine("", body);
    assert JsTrim("") == "";
    BlankLineSkipped(topicId, Start, "", Split(body, "\n"));
  }

  /** An empty body holds no nugget. */
  lemma ScanEmpty(topicId: string)
    ensures ScanBody(topicId, "") == []
  {
    SplitLast("");
    assert JsTrim("") == "";
    BlankLineSkipped(topicId, Start, "", []);
    assert [""] + [] == [""];
  }

  /** The importer's line scanner reads the converter's body (as the
      frontmatter parser hands it over, with or without the newline that
      follows the closing `---`) as one nugget per quote, numbered `0, 1, …`
      in quote order, each with question `Quote` and the trimmed quote as
      description. */
  lemma ScannerReadsQuotes(topicId: string, lead: string, qs: seq<string>)
    requires lead == "" || lead == "\n"
    requires forall k :: 0 <= k < |qs| ==> NoNewline(qs[k])
    ensures ScanBody(topicId, lead + Body(qs)) == QuoteNuggets(topicId, 0, qs)
  {
    var body := Body(qs);
    if lead == "\n" {
      ScanLead(topicId, body);
    } else {
      assert lead + body == body;
    }
    if qs == [] {
      assert body == "";
      ScanEmpty(topicId);
    } else {
      SplitBodyLines(qs);
      ScanQuoteLines(topicId, [], qs);
      assert [] + QuoteNuggets(topicId, 0, qs) == QuoteNuggets(topicId, 0, qs);
    }
  }

  // ---------------------------------------------------------------------
  // The section loader
  // ---------------------------------------------------------------------

  /** No two newlines in a row: the text holds no `\n\n` separator. */
  predicate NoBlankLine(s: string)
  {
    forall j :: 0 <= j < |s| - 1 ==> s[j] != '\n' || s[j + 1] != '\n'
  }

  lemma SplitSection(a: string, b: string)
    requires a != [] && NoBlankLine(a) && a[|a| - 1] != '\n'
    ensures Split(a + "\n\n" + b, "\n\n") == [a] + Split(b, "\n\n")
  {
    var s := a + "\n\n" + b;
    forall j: nat | j < |a| ensures !OccursAt(s, "\n\n", j) {
      if j + 1 < |a| {
        assert s[j..j + 2] == [a[j], a[j + 1]];
      } else {
        assert s[j..j + 2] == [a[j], '\n'];
      }
    }
    SplitAt(a, "\n\n", b);
  }

  lemma SplitSectionLast(a: string)
    requires NoBlankLine(a)
    ensures Split(a, "\n\n") == [a]
  {
    forall j: nat ensures !OccursAt(a, "\n\n", j) {
      if j + 2 <= |a| {
        assert a[j..j + 2] == [a[j], a[j + 1]];
      }
    }
    SplitWhole(a, "\n\n");
  }

  /** An entry without its trailing newline. */
  function Section(q: string): string
  {
    "T: Quote\nD: " + q
  }

  lemma SectionClean(lead: string, q: string)
    requires lead == "" || lead == "\n"
    requires NoNewline(q)
    ensures NoBlankLine(lead + Section(q)) && (lead + Section(q))[|lead + Section(q)| - 1] != '\n'
    ensures NoBlankLine(lead + Entry(q))
  {
    var s := lead + Section(q);
    var n := |lead|;
    assert s[n] == 'T' && s[n + 8] == '\n' && s[n + 9] == 'D';
    forall j | n + 12 <= j < |s| ensures s[j] == q[j - n - 12] {}
    forall j | 0 <= j < n + 12 && j != n - 1 && j != n + 8 ensures s[j] != '\n' {}
    assert s[|s| - 1] != '\n';
    var e := lead + Entry(q);
    assert e == s + "\n";
    forall j | 0 <= j < |e| - 1 ensures e[j] != '\n' || e[j + 1] != '\n' {
      if j < |s| - 1 {
        assert e[j] == s[j] && e[j + 1] == s[j + 1];
      }
    }
  }

  /** The sections of `lead + Body(qs)`: one per quote, the last one keeping
      the final newline. */
  function QuoteSections(lead: string, qs: seq<string>): (r: seq<string>)
    requires qs != []
    ensures |r| == |qs|
    decreases |qs|
  {
    if |qs| == 1 then [lead + Entry(qs[0])]
    else [lead + Section(qs[0])] + QuoteSections("", qs[1..])
  }

  lemma {:induction false} SplitBodySections(lead: string, qs: seq<string>)
    requires lead == "" || lead == "\n"
    requires qs != [] && forall k :: 0 <= k < |qs| ==> NoNewline(qs[k])
    ensures Split(lead + Body(qs), "\n\n") == QuoteSections(lead, qs)
    decreases |qs|
  {
    var q := qs[0];
    var rest := qs[1..];
    SectionClean(lead, q);
    if rest == [] {
      BodyOne(qs);
      SplitSectionLast(lead + Entry(q));
    } else {
      LeadBodyCons(lead, qs);
      SplitSection(lead + Section(q), Body(rest));
      SplitBodySections("", rest);
      assert "" + Body(rest) == Body(rest);
    }
  }

  lemma LeadBodyCons(lead: string, qs: seq<string>)
    requires |qs| >= 2
    ensures lead + Body(qs) == (lead + Section(qs[0])) + "\n\n" + Body(qs[1..])
  {
    BodyCons(qs);
    assert Entry(qs[0]) == Section(qs[0]) + "\n";
  }

  /** A string with a character outside the blank set does not trim away. */
  lemma VisibleNotBlank(w: Blanks, s: string, k: nat)
    requires k < |s| && !IsBlank(w, s[k])
    ensures Trim(w, s) != ""
  {
    var e := TrimEnd(w, s);
    TrimEndShape(w, s);
    TrimStartShape(w, e);
    assert k < |e|;
    assert e[k] == s[k];
  }

  lemma {:induction false} QuoteSectionsVisible(lead: string, qs: seq<string>)
    requires lead == "" || lead == "\n"
    requires qs != []
    ensures forall k :: 0 <= k < |qs| ==> NonBlank(QuoteSections(lead, qs)[k])
    decreases |qs|
  {
    var first := QuoteSections(lead, qs)[0];
    assert first[|lead|] == 'T';
    VisibleNotBlank(JsBlanks, first, |lead|);
    if |qs| > 1 {
      QuoteSectionsVisible("", qs[1..]);
      forall k | 1 <= k < |qs| ensures NonBlank(QuoteSections(lead, qs)[k]) {
        assert QuoteSections(lead, qs)[k] == QuoteSections("", qs[1..])[k - 1];
      }
    }
  }

  /** The loader's reading of one converted section's lines. */
  lemma ReadQuote(q: string, tail: seq<string>)
    requires tail == [] || tail == [""]
    ensures ReadRaw(Pair("", ""), ["T: Quote", "D: " + q] + tail) == Pair("Quote", JsTrim(q))
  {
    QuestionLine();
    AnswerLine(q);
    var lines := ["T: Quote", "D: " + q] + tail;
    var p1 := Pair("Quote", "");
    var p2 := Pair("Quote", JsTrim(q));
    assert ReadLine(Pair("", ""), JsTrim("T: Quote")) == p1;
    assert ReadLine(p1, JsTrim("D: " + q)) == p2;
    assert lines[0] == "T: Quote" && lines[1..] == ["D: " + q] + tail;
    assert ReadRaw(Pair("", ""), lines) == ReadRaw(p1, ["D: " + q] + tail);
    assert (["D: " + q] + tail)[1..] == tail;
    assert ReadRaw(p1, ["D: " + q] + tail) == ReadRaw(p2, tail);
    if tail != [] {
      assert JsTrim("") == "";
      assert ReadLine(p2, "") == p2;
      assert ReadRaw(p2, tail) == ReadRaw(p2, []);
    }
  }

  /** The raw lines of a section that is not the last one. */
  lemma SectionLines2(q: string)
    requires NoNewline(q)
    ensures Split(Section(q), "\n") == ["T: Quote", "D: " + q]
  {
    QuotePrefixClean(q);
    assert Section(q) == "T: Quote" + "\n" + ("D: " + q);
    SplitLine("T: Quote", "D: " + q);
    SplitLast("D: " + q);
  }

  /** A leading newline adds an empty first line. */
  lemma SplitLead(sec: string)
    ensures Split("\n" + sec, "\n") == [""] + Split(sec, "\n")
  {
    assert "\n" + sec == "" + "\n" + sec;
    SplitLine("", sec);
  }

  /** An empty first line changes nothing the loader reads. */
  lemma ReadEmptyFirst(lines: seq<string>)
    ensures ReadRaw(Pair("", ""), [""] + lines) == ReadRaw(Pair("", ""), lines)
  {
    assert JsTrim("") == "";
    assert ReadLine(Pair("", ""), "") == Pair("", "");
    assert ([""] + lines)[1..] == lines;
  }

  /** What the loader reads from a converted section. */
  lemma ReadConverted(lead: string, q: string, last: bool)
    requires lead == "" || lead == "\n"
    requires NoNewline(q)
    ensures ReadRaw(Pair("", ""), Split(lead + (if last then Entry(q) else Section(q)), "\n")) == Pair("Quote", JsTrim(q))
  {
    var sec := if last then Entry(q) else Section(q);
    var tail: seq<string> := if last then [""] else [];
    if last {
      SplitEntryLast(q);
      assert ["T: Quote", "D: " + q, ""] == ["T: Quote", "D: " + q] + tail;
    } else {
      SectionLines2(q);
      assert ["T: Quote", "D: " + q] == ["T: Quote", "D: " + q] + tail;
    }
    ReadQuote(q, tail);
    if lead == "\n" {
      SplitLead(sec);
      ReadEmptyFirst(Split(sec, "\n"));
    } else {
      assert lead + sec == sec;
    }
  }

  lemma SectionOfQuote(topicId: string, lead: string, q: string, last: bool, i: nat)
    requires lead == "" || lead == "\n"
    requires NoNewline(q)
    ensures SectionCandidate(topicId, lead + (if last then Entry(q) else Section(q)), i)
         == if JsTrim(q) != "" then Some(Nugget(NuggetId(topicId, i), "Quote", JsTrim(q), topicId)) else None
  {
    ReadConverted(lead, q, last);
  }

  lemma {:induction false} QuoteCandidates(topicId: string, lead: string, qs: seq<string>, from: nat)
    requires lead == "" || lead == "\n"
    requires qs != [] && forall k :: 0 <= k < |qs| ==> NoNewline(qs[k]) && JsTrim(qs[k]) != ""
    ensures KeepSome(Candidates(topicId, QuoteSections(lead, qs), from)) == QuoteNuggets(topicId, from, qs)
    decreases |qs|
  {
    var secs := QuoteSections(lead, qs);
    var n := Nugget(NuggetId(topicId, from), "Quote", JsTrim(qs[0]), topicId);
    SectionOfQuote(topicId, lead, qs[0], |qs| == 1, from);
    assert SectionCandidate(topicId, secs[0], from) == Some(n);
    var later := Candidates(topicId, secs[1..], from + 1);
    assert Candidates(topicId, secs, from) == [Some(n)] + later;
    assert KeepSome([Some(n)] + later) == [n] + KeepSome(later) by {
      assert ([Some(n)] + later)[1..] == later;
    }
    if |qs| == 1 {
      assert later == [];
    } else {
      assert secs[1..] == QuoteSections("", qs[1..]);
      QuoteCandidates(topicId, "", qs[1..], from + 1);
    }
  }

  /** The section loader reads the converter's body as the same nuggets as
      the line scanner, provided every quote keeps a character JavaScript's
      `trim` does not remove (an empty description drops the section). */
  lemma LoaderReadsQuotes(topicId: string, lead: string, qs: seq<string>)
    requires lead == "" || lead == "\n"
    requires forall k :: 0 <= k < |qs| ==> NoNewline(qs[k]) && JsTrim(qs[k]) != ""
    ensures SectionNuggets(topicId, lead + Body(qs)) == QuoteNuggets(topicId, 0, qs)
  {
    if qs == [] {
      assert Body(qs) == "";
      SplitSectionLast(lead);
      assert JsTrim("") == "";
      assert JsTrim("\n") == "";
      assert Sections(lead + Body(qs)) == [];
    } else {
      SplitBodySections(lead, qs);
      QuoteSectionsVisible(lead, qs);
      FilterAll(QuoteSections(lead, qs), NonBlank);
      QuoteCandidates(topicId, lead, qs, 0);
    }
  }

  /** A quote made of U+FEFF alone survives Python's `strip` but not
      JavaScript's `trim`: the scanner then emits a nugget with an empty
      description, ... */
  lemma ByteOrderMarkScanned(topicId: string)
    ensures ScanBody(topicId, Body(["\U{FEFF}"])) == [Nugget(NuggetId(topicId, 0), "Quote", "", topicId)]
  {
    var qs := ["\U{FEFF}"];
    assert JsTrim(qs[0]) == "";
    assert "" + Body(qs) == Body(qs);
    ScannerReadsQuotes(topicId, "", qs);
    assert QuoteNuggets(topicId, 0, qs) == [Nugget(NuggetId(topicId, 0), "Quote", "", topicId)];
  }

  /** The sections of a one-quote body. */
  lemma SingleQuoteSections(q: string)
    requires NoNewline(q)
    ensures Sections(Body([q])) == [Entry(q)]
  {
    SplitBodySections("", [q]);
    assert "" + Body([q]) == Body([q]);
    QuoteSectionsVisible("", [q]);
    FilterAll(QuoteSections("", [q]), NonBlank);
    assert QuoteSections("", [q]) == ["" + Entry(q)];
    assert "" + Entry(q) == Entry(q);
  }

  /** A quote that JavaScript trims to nothing yields no section nugget. */
  lemma InvisibleQuoteDropped(topicId: string, q: string)
    requires NoNewline(q) && JsTrim(q) == ""
    ensures SectionNuggets(topicId, Body([q])) == []
  {
    SingleQuoteSections(q);
    SectionOfQuote(topicId, "", q, true, 0);
    assert "" + Entry(q) == Entry(q);
    assert Candidates(topicId, [Entry(q)], 0) == [None];
  }

  /** ... while the section loader drops the section. */
  lemma ByteOrderMarkDropped(topicId: string)
    ensures SectionNuggets(topicId, Body(["\U{FEFF}"])) == []
  {
    assert JsTrim("\U{FEFF}") == "";
    InvisibleQuoteDropped(topicId, "\U{FEFF}");
  }

  // ---------------------------------------------------------------------
  // The converter's output
  // ---------------------------------------------------------------------

  /** Stripping a line read from a file removes its newline. */
  lemma StripNoNewline(l: string)
    requires FileLine(l)
    ensures NoNewline(PyStrip(l))
  {
    var e := TrimEnd(PyBlanks, l);
    var r := TrimStart(PyBlanks, e);
    TrimEndShape(PyBlanks, l);
    TrimStartShape(PyBlanks, e);
    TrimmedEnds(PyBlanks, l);
    forall j | 0 <= j < |r| ensures r[j] != '\n' {
      var i := |e| - |r| + j;
      assert r[j] == e[i] == l[i];
      if i == |l| - 1 {
        assert j == |r| - 1;
      }
    }
  }

  /** A quote that does not start with U+FEFF is visible to JavaScript's
      `trim`: apart from U+FEFF, every JavaScript blank is a Python one. */
  lemma QuoteVisible(q: string)
    requires q != "" && PyStrip(q) == q && q[0] != '\U{FEFF}'
    ensures JsTrim(q) != ""
  {
    TrimmedEnds(PyBlanks, q);
    VisibleNotBlank(JsBlanks, q, 0);
  }

  lemma {:induction false} QuotesClean(lines: seq<string>)
    requires forall k :: 0 <= k < |lines| ==> FileLine(lines[k])
    ensures forall k :: 0 <= k < |Quotes(lines)| ==>
      var q := Quotes(lines)[k]; q != "" && NoNewline(q) && PyStrip(q) == q
  {
    if lines != [] {
      var q0 := PyStrip(lines[0]);
      QuotesClean(lines[1..]);
      StripNoNewline(lines[0]);
      TrimmedEnds(PyBlanks, lines[0]);
      TrimNoop(PyBlanks, q0);
      assert StripAll(lines) == [q0] + StripAll(lines[1..]);
      assert Quotes(lines) == (if q0 != "" then [q0] else []) + Quotes(lines[1..]) by {
        assert ([q0] + StripAll(lines[1..]))[1..] == StripAll(lines[1..]);
      }
    }
  }

  /** The quotes of a file's lines hold no newline and, when none starts
      with U+FEFF, none trims to nothing in JavaScript. */
  lemma QuotesReadable(lines: seq<string>)
    requires forall k :: 0 <= k < |lines| ==> FileLine(lines[k])
    requires forall q :: q in Quotes(lines) ==> !StartsWith(q, "\U{FEFF}")
    ensures forall k :: 0 <= k < |Quotes(lines)| ==> NoNewline(Quotes(lines)[k]) && JsTrim(Quotes(lines)[k]) != ""
  {
    var qs := Quotes(lines);
    QuotesClean(lines);
    forall k | 0 <= k < |qs| ensures JsTrim(qs[k]) != "" {
      var q := qs[k];
      assert q in qs;
      assert q[..1] == [q[0]];
      QuoteVisible(q);
    }
  }

  /** Both topic parsers read the converter's output body the same way: one
      nugget per non-blank input line, in input order, numbered from 0, with
      question `Quote` and the stripped line, trimmed once more by JavaScript,
      as description. */
  lemma ConverterRoundTrip(topicId: string, lead: string, lines: seq<string>)
    requires lead == "" || lead == "\n"
    requires forall k :: 0 <= k < |lines| ==> FileLine(lines[k])
    requires forall q :: q in Quotes(lines) ==> !StartsWith(q, "\U{FEFF}")
    ensures var qs, content := Quotes(lines), lead + Body(Quotes(lines));
      && ScanBody(topicId, content) == QuoteNuggets(topicId, 0, qs)
      && SectionNuggets(topicId, content) == QuoteNuggets(topicId, 0, qs)
    ensures var ns := QuoteNuggets(topicId, 0, Quotes(lines));
      forall k :: 0 <= k < |ns| ==> ns[k] == Nugget(NuggetId(topicId, k), "Quote", JsTrim(Quotes(lines)[k]), topicId)
  {
    var qs := Quotes(lines);
    QuotesReadable(lines);
    ScannerReadsQuotes(topicId, lead, qs);
    LoaderReadsQuotes(topicId, lead, qs);
    QuoteNuggetsIndexed(topicId, qs);
  }
}
