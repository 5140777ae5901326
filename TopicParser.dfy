/** The server-side topic loader: a topic whose id is a slug of its name, and
    nuggets read section by section from the body; plus the older
    `parseNuggets` block parser. */
module TopicParser {
  import opened Wrappers
  import opened Text
  import opened Seqs
  import opened Records

  // ---------------------------------------------------------------------
  // The slug
  // ---------------------------------------------------------------------

  /** `replace(/\s+/g, '-')`: every maximal run of white space becomes one `-`. */
  function Hyphenate(s: string): (r: string)
    ensures |r| <= |s| && (s != [] ==> r != [])
    decreases |s|
  {
    if s == [] then []
    else if IsBlank(JsBlanks, s[0]) then "-" + Hyphenate(TrimStart(JsBlanks, s))
    else [s[0]] + Hyphenate(s[1..])
  }

  /** Hyphenation leaves no white space and adds no character but `-`. */
  lemma {:induction false} HyphenateChars(s: string)
    ensures forall k :: 0 <= k < |Hyphenate(s)| ==> !IsBlank(JsBlanks, Hyphenate(s)[k])
    ensures forall k :: 0 <= k < |Hyphenate(s)| ==> Hyphenate(s)[k] == '-' || Hyphenate(s)[k] in s
    decreases |s|
  {
    if s != [] {
      if IsBlank(JsBlanks, s[0]) {
        var t := TrimStart(JsBlanks, s);
        TrimStartShape(JsBlanks, s);
        HyphenateChars(t);
        assert forall c :: c in t ==> c in s;
      } else {
        HyphenateChars(s[1..]);
      }
    }
  }

  /** `name.toLowerCase().replace(/\s+/g, '-')`. */
  function Slug(name: string): string
  {
    Hyphenate(Lower(name))
  }

  predicate NoUpper(s: string)
  {
    forall k :: 0 <= k < |s| ==> !('A' <= s[k] <= 'Z')
  }

  lemma {:induction false} HyphenateNoBlanks(s: string)
    requires forall k :: 0 <= k < |s| ==> !IsBlank(JsBlanks, s[k])
    ensures Hyphenate(s) == s
  {
    if s != [] {
      HyphenateNoBlanks(s[1..]);
    }
  }

  /** A slug contains no white space, is empty only for an empty name, and
      slugging a slug gives it back. */
  lemma SlugShape(name: string)
    ensures forall k :: 0 <= k < |Slug(name)| ==> !IsBlank(JsBlanks, Slug(name)[k])
    ensures Slug(name) == "" <==> name == ""
    ensures Slug(Slug(name)) == Slug(name)
  {
    var s := Slug(name);
    HyphenateChars(Lower(name));
    assert NoUpper(s) by {
      forall k | 0 <= k < |s| ensures !('A' <= s[k] <= 'Z') {
        if s[k] != '-' {
          var j :| 0 <= j < |Lower(name)| && Lower(name)[j] == s[k];
        }
      }
    }
    assert Lower(s) == s;
    HyphenateNoBlanks(s);
  }

  /** A non-empty run of white space. */
  predicate BlankRun(w: string)
  {
    w != [] && forall k :: 0 <= k < |w| ==> IsBlank(JsBlanks, w[k])
  }

  lemma Assoc(a: string, b: string, c: string)
    ensures a + b + c == a + (b + c)
  {
  }

  /** Hyphenation works run by run: `a`, a non-empty run of white space and
      `b` become `a`'s hyphenation, one `-`, and `b`'s. */
  lemma {:induction false} HyphenateRun(a: string, w: string, b: string)
    requires a == [] || !IsBlank(JsBlanks, a[|a| - 1])
    requires BlankRun(w)
    requires b == [] || !IsBlank(JsBlanks, b[0])
    ensures Hyphenate(a + w + b) == Hyphenate(a) + "-" + Hyphenate(b)
    decreases |a|, 1
  {
    if a == [] {
      HyphenateRunEmptyHead(a, w, b);
    } else if IsBlank(JsBlanks, a[0]) {
      HyphenateRunBlankHead(a, w, b);
    } else {
      HyphenateRunSolidHead(a, w, b);
    }
  }

  lemma {:induction false} HyphenateRunBlankHead(a: string, w: string, b: string)
    requires a != [] && IsBlank(JsBlanks, a[0]) && !IsBlank(JsBlanks, a[|a| - 1])
    requires BlankRun(w)
    requires b == [] || !IsBlank(JsBlanks, b[0])
    ensures Hyphenate(a + w + b) == Hyphenate(a) + "-" + Hyphenate(b)
    decreases |a|, 0
  {
    var wb := w + b;
    var a' := TrimStart(JsBlanks, a);
    TrimStartBeforeSolid(a, wb);
    calc {
      Hyphenate(a + w + b);
      { Assoc(a, w, b); }
      Hyphenate(a + wb);
      { HyphenateBlankPrefix(a, wb); }
      "-" + Hyphenate(a' + wb);
      { Assoc(a', w, b); }
      "-" + Hyphenate(a' + w + b);
      { HyphenateRun(a', w, b); }
      "-" + (Hyphenate(a') + "-" + Hyphenate(b));
      { HyphenateBlankHead(a); }
      Hyphenate(a) + "-" + Hyphenate(b);
    }
  }

  /** White space leading a string that ends in a non-blank becomes one `-`,
      whatever follows. */
  lemma HyphenateBlankPrefix(a: string, y: string)
    requires a != [] && IsBlank(JsBlanks, a[0]) && !IsBlank(JsBlanks, a[|a| - 1])
    ensures Hyphenate(a + y) == "-" + Hyphenate(TrimStart(JsBlanks, a) + y)
  {
    TrimStartBeforeSolid(a, y);
    assert (a + y)[0] == a[0];
    HyphenateBlankHead(a + y);
  }

  /** A string starting with white space hyphenates to `-` and the rest
      after that run. */
  lemma HyphenateBlankHead(s: string)
    requires s != [] && IsBlank(JsBlanks, s[0])
    ensures Hyphenate(s) == "-" + Hyphenate(TrimStart(JsBlanks, s))
  {
  }

  lemma {:induction false} HyphenateRunSolidHead(a: string, w: string, b: string)
    requires a != [] && !IsBlank(JsBlanks, a[0]) && !IsBlank(JsBlanks, a[|a| - 1])
    requires BlankRun(w)
    requires b == [] || !IsBlank(JsBlanks, b[0])
    ensures Hyphenate(a + w + b) == Hyphenate(a) + "-" + Hyphenate(b)
    decreases |a|, 0
  {
    var s := a + w + b;
    calc {
      Hyphenate(s);
      { assert s[0] == a[0]; }
      [a[0]] + Hyphenate(s[1..]);
      { DropFirst(a, w, b); }
      [a[0]] + Hyphenate(a[1..] + w + b);
      { HyphenateRun(a[1..], w, b); }
      [a[0]] + (Hyphenate(a[1..]) + "-" + Hyphenate(b));
      Hyphenate(a) + "-" + Hyphenate(b);
    }
  }

  lemma DropFirst(a: string, w: string, b: string)
    requires a != []
    ensures (a + w + b)[1..] == a[1..] + w + b
  {
  }

  lemma HyphenateRunEmptyHead(a: string, w: string, b: string)
    requires a == []
    requires BlankRun(w)
    requires b == [] || !IsBlank(JsBlanks, b[0])
    ensures Hyphenate(a + w + b) == Hyphenate(a) + "-" + Hyphenate(b)
  {
    calc {
      Hyphenate(a + w + b);
      { assert a + w + b == w + b; }
      Hyphenate(w + b);
      { HyphenateRunStart(w, b); }
      "-" + Hyphenate(b);
      { assert Hyphenate(a) == []; }
      Hyphenate(a) + "-" + Hyphenate(b);
    }
  }

  lemma HyphenateRunStart(w: string, b: string)
    requires BlankRun(w)
    requires b == [] || !IsBlank(JsBlanks, b[0])
    ensures Hyphenate(w + b) == "-" + Hyphenate(b)
  {
    TrimStartBlankPrefix(JsBlanks, w, b);
    assert (w + b)[0] == w[0];
  }

  /** Leading white space of a string ending in a non-blank is trimmed
      without touching what follows. */
  lemma {:induction false} TrimStartBeforeSolid(a: string, y: string)
    requires a != [] && !IsBlank(JsBlanks, a[|a| - 1])
    ensures TrimStart(JsBlanks, a + y) == TrimStart(JsBlanks, a) + y
    ensures TrimStart(JsBlanks, a) != [] && !IsBlank(JsBlanks, TrimStart(JsBlanks, a)[|TrimStart(JsBlanks, a)| - 1])
  {
    if IsBlank(JsBlanks, a[0]) {
      assert (a + y)[1..] == a[1..] + y;
      TrimStartBeforeSolid(a[1..], y);
    }
  }

  /** The slug of `a`, a run of white space and `b` is the slug of `a`, a `-`
      and the slug of `b`. */
  lemma SlugRun(a: string, w: string, b: string)
    requires a == [] || !IsBlank(JsBlanks, a[|a| - 1])
    requires BlankRun(w)
    requires b == [] || !IsBlank(JsBlanks, b[0])
    ensures Slug(a + w + b) == Slug(a) + "-" + Slug(b)
  {
    assert Lower(a + w + b) == Lower(a) + Lower(w) + Lower(b);
    forall k | 0 <= k < |w| ensures Lower(w)[k] == w[k] {
      assert LowerChar(w[k]) == w[k];
    }
    assert Lower(w) == w;
    HyphenateRun(Lower(a), w, Lower(b));
  }

  // ---------------------------------------------------------------------
  // loadTopic
  // ---------------------------------------------------------------------

  /** The outcome of reading a topic file: it does not exist, reading or
      frontmatter parsing threw, or its frontmatter and body. */
  datatype TopicFile = Missing | Unreadable | Found(data: map<string, string>, content: string)

  const DefaultTopic := Topic("default", "Default Topic", "#4A90E2", None)

  function Field(data: map<string, string>, key: string): string
  {
    if key in data then data[key] else ""
  }

  /** The topic of a readable file: the id is the slug of the name (any `id`
      in the frontmatter is ignored), with `default`, `Default Topic` and
      `#4A90E2` standing in for a missing or empty name or colour. */
  function FileTopic(data: map<string, string>): (t: Topic)
    ensures t.id == (if Field(data, "name") == "" then "default" else Slug(data["name"]))
    ensures t.name == (if Field(data, "name") == "" then "Default Topic" else data["name"])
    ensures t.color == (if Field(data, "color") == "" then "#4A90E2" else data["color"])
    ensures t.description == None
  {
    var slug := Slug(Field(data, "name"));
    SlugShape(Field(data, "name"));
    Topic(if slug != "" then slug else "default",
          if Field(data, "name") != "" then data["name"] else "Default Topic",
          if Field(data, "color") != "" then data["color"] else "#4A90E2",
          None)
  }

  predicate NonBlank(s: string) { JsTrim(s) != "" }

  predicate NonEmpty(s: string) { s != "" }

  /** `content.split('\n\n').filter(section => section.trim())`. */
  function Sections(content: string): seq<string>
  {
    Filter(Split(content, "\n\n"), NonBlank)
  }

  /** `lines.map(line => line.trim())`. */
  function TrimAll(lines: seq<string>): (r: seq<string>)
    ensures |r| == |lines|
  {
    if lines == [] then [] else [JsTrim(lines[0])] + TrimAll(lines[1..])
  }

  /** `section.split('\n').map(line => line.trim()).filter(Boolean)`. */
  function SectionLines(section: string): seq<string>
  {
    Filter(TrimAll(Split(section, "\n")), NonEmpty)
  }

  /** The two texts a section collects. */
  datatype Pair = Pair(topicText: string, description: string)

  predicate IsQuestion(line: string) { StartsWith(line, "T:") }

  predicate IsAnswer(line: string) { !StartsWith(line, "T:") && StartsWith(line, "D:") }

  /** One line of a section: a `T:` line sets the question text, a `D:` line
      the description, each replacing what an earlier line set. */
  function ReadLine(p: Pair, line: string): Pair
  {
    if IsQuestion(line) then p.(topicText := JsTrim(line[2..]))
    else if StartsWith(line, "D:") then p.(description := JsTrim(line[2..]))
    else p
  }

  function ReadLines(p: Pair, lines: seq<string>): Pair
    decreases |lines|
  {
    if lines == [] then p else ReadLines(ReadLine(p, lines[0]), lines[1..])
  }

  /** The loader's line loop over the raw lines of a section: each line is
      trimmed first. */
  function ReadRaw(p: Pair, raw: seq<string>): Pair
    decreases |raw|
  {
    if raw == [] then p else ReadRaw(ReadLine(p, JsTrim(raw[0])), raw[1..])
  }

  /** Dropping the lines that trim to nothing changes nothing: an empty line
      starts with neither tag. So reading the trimmed raw lines is reading the
      section's filtered lines. */
  lemma {:induction false} ReadRawIsReadLines(p: Pair, raw: seq<string>)
    ensures ReadRaw(p, raw) == ReadLines(p, Filter(TrimAll(raw), NonEmpty))
    decreases |raw|
  {
    if raw != [] {
      var t := TrimAll(raw);
      assert t[0] == JsTrim(raw[0]) && t[1..] == TrimAll(raw[1..]);
      ReadRawIsReadLines(ReadLine(p, JsTrim(raw[0])), raw[1..]);
      if JsTrim(raw[0]) == "" {
        assert ReadLine(p, "") == p;
        assert Filter(t, NonEmpty) == Filter(t[1..], NonEmpty);
      } else {
        var f := Filter(t, NonEmpty);
        assert f == [t[0]] + Filter(t[1..], NonEmpty);
        assert f[0] == t[0] && f[1..] == Filter(t[1..], NonEmpty);
      }
    }
  }

  /** What one line does to each of the two texts. */
  lemma ReadLineTexts(p: Pair, line: string)
    ensures ReadLine(p, line).topicText == if IsQuestion(line) then JsTrim(line[2..]) else p.topicText
    ensures ReadLine(p, line).description == if IsAnswer(line) then JsTrim(line[2..]) else p.description
  {
  }

  predicate LastQuestionAt(lines: seq<string>, k: int)
  {
    0 <= k < |lines| && IsQuestion(lines[k]) && forall j :: k < j < |lines| ==> !IsQuestion(lines[j])
  }

  predicate LastAnswerAt(lines: seq<string>, k: int)
  {
    0 <= k < |lines| && IsAnswer(lines[k]) && forall j :: k < j < |lines| ==> !IsAnswer(lines[j])
  }

  /** Within a section the last `T:` line decides the question text; without
      one, the text is what it was. */
  lemma {:induction false} LastQuestionWins(p: Pair, lines: seq<string>)
    ensures (forall j :: 0 <= j < |lines| ==> !IsQuestion(lines[j])) ==>
              ReadLines(p, lines).topicText == p.topicText
    ensures forall k :: LastQuestionAt(lines, k) ==>
              ReadLines(p, lines).topicText == JsTrim(lines[k][2..])
    decreases |lines|
  {
    if lines != [] {
      var p' := ReadLine(p, lines[0]);
      ReadLineTexts(p, lines[0]);
      LastQuestionWins(p', lines[1..]);
      assert ReadLines(p, lines) == ReadLines(p', lines[1..]);
      forall k | LastQuestionAt(lines, k) ensures ReadLines(p, lines).topicText == JsTrim(lines[k][2..]) {
        if k > 0 {
          assert LastQuestionAt(lines[1..], k - 1);
        } else {
          assert forall j :: 0 <= j < |lines[1..]| ==> !IsQuestion(lines[1..][j]);
        }
      }
    }
  }

  /** Within a section the last `D:` line decides the description; without
      one, the description is what it was. */
  lemma {:induction false} LastAnswerWins(p: Pair, lines: seq<string>)
    ensures (forall j :: 0 <= j < |lines| ==> !IsAnswer(lines[j])) ==>
              ReadLines(p, lines).description == p.description
    ensures forall k :: LastAnswerAt(lines, k) ==>
              ReadLines(p, lines).description == JsTrim(lines[k][2..])
    decreases |lines|
  {
    if lines != [] {
      var p' := ReadLine(p, lines[0]);
      ReadLineTexts(p, lines[0]);
      LastAnswerWins(p', lines[1..]);
      assert ReadLines(p, lines) == ReadLines(p', lines[1..]);
      forall k | LastAnswerAt(lines, k) ensures ReadLines(p, lines).description == JsTrim(lines[k][2..]) {
        if k > 0 {
          assert LastAnswerAt(lines[1..], k - 1);
        } else {
          assert forall j :: 0 <= j < |lines[1..]| ==> !IsAnswer(lines[1..][j]);
        }
      }
    }
  }

  /** The nugget section `i` yields, if both its texts are non-empty. */
  function SectionCandidate(topicId: string, section: string, i: nat): (r: Option<Nugget>)
  {
    var p := ReadRaw(Pair("", ""), Split(section, "\n"));
    if p.topicText != "" && p.description != "" then
      Some(Nugget(NuggetId(topicId, i), p.topicText, p.description, topicId))
    else None
  }

  /** The candidates of `sections`, the first of them numbered `from`. */
  function Candidates(topicId: string, sections: seq<string>, from: nat): (r: seq<Option<Nugget>>)
    ensures |r| == |sections|
    decreases |sections|
  {
    if sections == [] then []
    else [SectionCandidate(topicId, sections[0], from)] + Candidates(topicId, sections[1..], from + 1)
  }

  lemma {:induction false} CandidatesAt(topicId: string, sections: seq<string>, from: nat, k: nat)
    requires k < |sections|
    ensures Candidates(topicId, sections, from)[k] == SectionCandidate(topicId, sections[k], from + k)
    decreases k
  {
    if k > 0 {
      CandidatesAt(topicId, sections[1..], from + 1, k - 1);
    }
  }

  /** The nuggets `loadTopic` reads from a body. */
  function SectionNuggets(topicId: string, content: string): seq<Nugget>
  {
    KeepSome(Candidates(topicId, Sections(content), 0))
  }

  /** `loadTopic`: the default topic and no nuggets for a missing or unreadable
      file, otherwise the slug-named topic and its section nuggets. */
  function Load(file: TopicFile): (Topic, seq<Nugget>)
  {
    match file
    case Found(data, content) =>
      var t := FileTopic(data);
      (t, SectionNuggets(t.id, content))
    case _ => (DefaultTopic, [])
  }

  /** Each non-blank section yields at most one nugget, in section order; a
      nugget's id carries the index of its section, so indices strictly
      increase but may skip sections without both texts; every complete
      section does yield its nugget; every nugget belongs to the topic and has
      both texts non-empty. */
  lemma SectionNuggetsShape(topicId: string, content: string)
    ensures var secs, ns := Sections(content), SectionNuggets(topicId, content);
      var ps := SomePositions(Candidates(topicId, secs, 0));
      && |ns| == |ps| <= |secs|
      && (forall k :: 0 <= k < |ns| ==>
            ps[k] < |secs| && ns[k].id == NuggetId(topicId, ps[k]) && ns[k].topicId == topicId
            && ns[k].topic != "" && ns[k].description != "")
      && (forall k :: 0 <= k < |ns| ==>
            ps[k] < |secs| && Pair(ns[k].topic, ns[k].description) == ReadLines(Pair("", ""), SectionLines(secs[ps[k]])))
      && (forall k, l :: 0 <= k < l < |ps| ==> ps[k] < ps[l])
      && (forall i :: 0 <= i < |secs| && SectionCandidate(topicId, secs[i], i).Some? ==> i in ps)
  {
    var secs := Sections(content);
    var cs := Candidates(topicId, secs, 0);
    var ns, ps := KeepSome(cs), SomePositions(cs);
    KeepSomeIndexed(cs);
    forall k | 0 <= k < |ns|
      ensures ns[k].id == NuggetId(topicId, ps[k]) && ns[k].topicId == topicId
      ensures ns[k].topic != "" && ns[k].description != ""
      ensures Pair(ns[k].topic, ns[k].description) == ReadLines(Pair("", ""), SectionLines(secs[ps[k]]))
    {
      CandidateShape(topicId, secs, ps[k]);
    }
    forall i | 0 <= i < |secs| && SectionCandidate(topicId, secs[i], i).Some?
      ensures i in ps
    {
      CandidatesAt(topicId, secs, 0, i);
    }
  }

  /** The candidate of section `i` is numbered `i`, belongs to the topic,
      has both texts non-empty, and carries the texts the section's lines
      give. */
  lemma CandidateShape(topicId: string, secs: seq<string>, i: nat)
    requires i < |secs|
    ensures var c := Candidates(topicId, secs, 0)[i];
      c.Some? ==> c.value.id == NuggetId(topicId, i) && c.value.topicId == topicId
                  && c.value.topic != "" && c.value.description != ""
                  && Pair(c.value.topic, c.value.description) == ReadLines(Pair("", ""), SectionLines(secs[i]))
  {
    CandidatesAt(topicId, secs, 0, i);
    SectionCandidateOf(topicId, secs[i], i, ReadLines(Pair("", ""), SectionLines(secs[i])));
  }

  /** The nuggets of one topic file have pairwise distinct ids. */
  lemma SectionNuggetIdsDistinct(topicId: string, content: string)
    ensures var ns := SectionNuggets(topicId, content);
      forall k, l :: 0 <= k < l < |ns| ==> ns[k].id != ns[l].id
  {
    var ns, ps := SectionNuggets(topicId, content), SomePositions(Candidates(topicId, Sections(content), 0));
    SectionNuggetsShape(topicId, content);
    forall k, l | 0 <= k < l < |ns| ensures ns[k].id != ns[l].id {
      if ns[k].id == ns[l].id { NuggetIdInjective(topicId, ps[k], topicId, ps[l]); }
    }
  }

  /** The line loop of one section in `loadTopic`: the last `T:` line gives
      the question text and the last `D:` line the description. */
  method ReadSection(section: string) returns (p: Pair)
    ensures p == ReadLines(Pair("", ""), SectionLines(section))
  {
    var raw := Split(section, "\n");
    var topicText, description := "", "";
    var j := 0;
    while j < |raw|
      invariant 0 <= j <= |raw|
      invariant ReadRaw(Pair(topicText, description), raw[j..]) == ReadRaw(Pair("", ""), raw)
    {
      assert raw[j..][0] == raw[j] && raw[j..][1..] == raw[j + 1..];
      var line := JsTrim(raw[j]);
      if StartsWith(line, "T:") {
        topicText := JsTrim(line[2..]);
      } else if StartsWith(line, "D:") {
        description := JsTrim(line[2..]);
      }
      j := j + 1;
    }
    assert raw[j..] == [];
    p := Pair(topicText, description);
    ReadRawIsReadLines(Pair("", ""), raw);
  }

  /** The section loop of `loadTopic`. */
  method LoadTopic(file: TopicFile) returns (topic: Topic, nuggets: seq<Nugget>)
    ensures (topic, nuggets) == Load(file)
  {
    if !file.Found? {
      return DefaultTopic, [];
    }
    topic := FileTopic(file.data);
    nuggets := ReadSections(topic.id, Sections(file.content));
  }

  /** The loop over the sections of a body, each yielding a nugget when it
      has both texts. */
  method ReadSections(topicId: string, sections: seq<string>) returns (nuggets: seq<Nugget>)
    ensures nuggets == KeepSome(Candidates(topicId, sections, 0))
  {
    nuggets := [];
    ghost var whole := KeepSome(Candidates(topicId, sections, 0));
    var i := 0;
    assert sections[i..] == sections;
    while i < |sections|
      invariant 0 <= i <= |sections|
      invariant nuggets + KeepSome(Candidates(topicId, sections[i..], i)) == whole
    {
      var p := ReadSection(sections[i]);
      SectionCandidateOf(topicId, sections[i], i, p);
      CandidatesFrom(topicId, sections, i);
      ghost var rest := Candidates(topicId, sections[i + 1..], i + 1);
      KeepSomeStep(nuggets, SectionCandidate(topicId, sections[i], i), rest, whole);
      if p.topicText != "" && p.description != "" {
        nuggets := nuggets + [Nugget(NuggetId(topicId, i), p.topicText, p.description, topicId)];
      }
      assert nuggets + KeepSome(rest) == whole;
      i := i + 1;
    }
  }

  /** The candidate of a section, in terms of the texts its line loop read. */
  lemma SectionCandidateOf(topicId: string, section: string, i: nat, p: Pair)
    requires p == ReadLines(Pair("", ""), SectionLines(section))
    ensures SectionCandidate(topicId, section, i)
      == if p.topicText != "" && p.description != "" then Some(Nugget(NuggetId(topicId, i), p.topicText, p.description, topicId)) else None
  {
    ReadRawIsReadLines(Pair("", ""), Split(section, "\n"));
  }

  /** The candidates from section `i` on: that section's, then the rest's. */
  lemma CandidatesFrom(topicId: string, sections: seq<string>, i: nat)
    requires i < |sections|
    ensures Candidates(topicId, sections[i..], i)
      == [SectionCandidate(topicId, sections[i], i)] + Candidates(topicId, sections[i + 1..], i + 1)
  {
    assert sections[i..][0] == sections[i] && sections[i..][1..] == sections[i + 1..];
  }

  // ---------------------------------------------------------------------
  // parseNuggets
  // ---------------------------------------------------------------------

  /** The characters the regex `.` does not match. */
  predicate IsLineTerminator(c: char)
  {
    c == '\n' || c == '\r' || c == '\U{2028}' || c == '\U{2029}'
  }

  /** The longest prefix without a line terminator. */
  function LineRest(s: string): (r: string)
    ensures |r| <= |s| && r == s[..|r|]
    ensures forall k :: 0 <= k < |r| ==> !IsLineTerminator(r[k])
    ensures |r| == |s| || IsLineTerminator(s[|r|])
  {
    if s != [] && !IsLineTerminator(s[0]) then [s[0]] + LineRest(s[1..]) else []
  }

  /** The group captured by `s.match(/<key>(.+)/)`: at the leftmost position
      where `key` is followed by at least one character other than a line
      terminator, everything up to the end of that line. */
  function Capture(s: string, key: string): (r: Option<string>)
    ensures r.Some? ==> r.value != "" && forall k :: 0 <= k < |r.value| ==> !IsLineTerminator(r.value[k])
    decreases |s|
  {
    if |s| <= |key| then None
    else if s[..|key|] == key && !IsLineTerminator(s[|key|]) then Some(LineRest(s[|key|..]))
    else Capture(s[1..], key)
  }

  /** `/<key>(.+)/` can match at `j`: `key` occurs there and a character
      other than a line terminator follows it. */
  predicate MatchAt(s: string, key: string, j: nat)
  {
    OccursAt(s, key, j) && j + |key| < |s| && !IsLineTerminator(s[j + |key|])
  }

  lemma MatchShift(s: string, key: string, j: nat)
    requires s != []
    ensures MatchAt(s, key, j + 1) <==> MatchAt(s[1..], key, j)
  {
    OccursShift(s, key, j);
    if j + 1 + |key| < |s| {
      assert s[j + 1 + |key|] == s[1..][j + |key|];
    }
  }

  /** The regex finds a match exactly when one exists, and captures the rest
      of the line after the leftmost one. */
  lemma CaptureLeftmost(s: string, key: string)
    ensures Capture(s, key).None? <==> forall j: nat :: !MatchAt(s, key, j)
    ensures forall j: nat :: MatchAt(s, key, j) && (forall i: nat :: i < j ==> !MatchAt(s, key, i)) ==>
              Capture(s, key) == Some(LineRest(s[j + |key|..]))
  {
    CaptureFound(s, key);
    forall j: nat | MatchAt(s, key, j) && (forall i: nat :: i < j ==> !MatchAt(s, key, i))
      ensures Capture(s, key) == Some(LineRest(s[j + |key|..]))
    {
      CaptureFirst(s, key, j);
    }
  }

  lemma {:induction false} CaptureFound(s: string, key: string)
    ensures Capture(s, key).None? <==> forall j: nat :: !MatchAt(s, key, j)
    decreases |s|
  {
    assert |s| >= |key| ==> s[0..|key|] == s[..|key|];
    if |s| <= |key| {
    } else if s[..|key|] == key && !IsLineTerminator(s[|key|]) {
      assert MatchAt(s, key, 0);
    } else {
      assert !MatchAt(s, key, 0);
      CaptureFound(s[1..], key);
      if Capture(s, key).None? {
        forall j: nat ensures !MatchAt(s, key, j) {
          if j > 0 {
            MatchShift(s, key, j - 1);
          }
        }
      } else {
        var j: nat :| MatchAt(s[1..], key, j);
        MatchShift(s, key, j);
      }
    }
  }

  lemma {:induction false} CaptureFirst(s: string, key: string, j: nat)
    requires MatchAt(s, key, j) && forall i: nat :: i < j ==> !MatchAt(s, key, i)
    ensures Capture(s, key) == Some(LineRest(s[j + |key|..]))
    decreases j
  {
    assert s[0..|key|] == s[..|key|];
    if j > 0 {
      assert !MatchAt(s, key, 0);
      MatchShift(s, key, j - 1);
      forall i: nat | i < j - 1 ensures !MatchAt(s[1..], key, i) {
        MatchShift(s, key, i);
      }
      CaptureFirst(s[1..], key, j - 1);
      assert s[1..][j - 1 + |key|..] == s[j + |key|..];
    }
  }

  /** The candidate block `i` yields: none unless both `T: ` and `D: ` match. */
  function BlockCandidate(block: string, i: nat): Option<Nugget>
  {
    match (Capture(block, "T: "), Capture(block, "D: "))
    case (Some(t), Some(d)) => Some(Nugget("nugget-" + Decimal(i), JsTrim(t), JsTrim(d), ""))
    case _ => None
  }

  /** `content.split('\n\n').filter(Boolean)`. */
  function Blocks(content: string): seq<string>
  {
    Filter(Split(content, "\n\n"), NonEmpty)
  }

  function BlockCandidates(blocks: seq<string>): (r: seq<Option<Nugget>>)
    ensures |r| == |blocks|
    ensures forall i :: 0 <= i < |blocks| ==> r[i] == BlockCandidate(blocks[i], i)
  {
    seq(|blocks|, i requires 0 <= i < |blocks| => BlockCandidate(blocks[i], i))
  }

  /** `parseNuggets`. */
  function ParseNuggets(content: string): seq<Nugget>
  {
    KeepSome(BlockCandidates(Blocks(content)))
  }

  /** `parseNuggets` yields at most one nugget per non-empty block, in block
      order; the nugget of block `i` has id `nugget-i` (indices strictly
      increase and may skip blocks without both matches), an empty `topicId`,
      and the trimmed captures of `T: ` and `D: `; a block with both matches
      is never dropped. */
  lemma ParseNuggetsShape(content: string)
    ensures var bs, ns := Blocks(content), ParseNuggets(content);
      var ps := SomePositions(BlockCandidates(bs));
      && |ns| == |ps| <= |bs|
      && (forall k :: 0 <= k < |ns| ==>
            ps[k] < |bs| && ns[k].id == "nugget-" + Decimal(ps[k]) && ns[k].topicId == ""
            && Capture(bs[ps[k]], "T: ").Some? && ns[k].topic == JsTrim(Capture(bs[ps[k]], "T: ").value)
            && Capture(bs[ps[k]], "D: ").Some? && ns[k].description == JsTrim(Capture(bs[ps[k]], "D: ").value))
      && (forall k, l :: 0 <= k < l < |ps| ==> ps[k] < ps[l])
      && (forall i :: 0 <= i < |bs| && Capture(bs[i], "T: ").Some? && Capture(bs[i], "D: ").Some? ==> i in ps)
  {
    KeepSomeIndexed(BlockCandidates(Blocks(content)));
  }
}
