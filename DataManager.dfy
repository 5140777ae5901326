/** The import pipeline of the data manager: the topic built from the
    frontmatter, the `T:`/`D:` line scanner, the merge into the stored
    collection, and the storage key holding that collection. */
module DataManager {
  import opened Wrappers
  import opened Text
  import opened Seqs
  import opened Records

  /** What the frontmatter parser yields for a document: either it failed, or
      the frontmatter as a key/value map and the body text after it. */
  datatype Matter = Malformed | Parsed(data: map<string, string>, content: string)

  datatype ImportError = UnreadableFrontmatter | MissingRequiredFields

  const DefaultColor := "#000000"

  /** `parsed.data[key]?.toString() || ''`. */
  function Field(data: map<string, string>, key: string): string
  {
    if key in data then data[key] else ""
  }

  /** The topic made from the frontmatter. It exists exactly when both `id`
      and `name` are present and non-empty; the colour falls back to black. */
  function FrontmatterTopic(data: map<string, string>): (r: Option<Topic>)
    ensures r.Some? <==> Field(data, "id") != "" && Field(data, "name") != ""
    ensures r.Some? ==> r.value.id == data["id"] && r.value.name == data["name"]
                        && r.value.description == None
    ensures r.Some? ==> r.value.color == (if Field(data, "color") != "" then data["color"] else DefaultColor)
  {
    var id, name, color := Field(data, "id"), Field(data, "name"), Field(data, "color");
    if id == "" || name == "" then None
    else Some(Topic(id, name, if color != "" then color else DefaultColor, None))
  }

  // ---------------------------------------------------------------------
  // The line scanner
  // ---------------------------------------------------------------------

  /** The scanner's variables: the pending question and the nuggets so far. */
  datatype ScanState = ScanState(question: string, nuggets: seq<Nugget>)

  const Start := ScanState("", [])

  /** One line of the scan. The line is trimmed; a blank line is skipped; a
      `T:` line replaces the pending question; a `D:` line with a pending
      question emits a nugget numbered after those already emitted and clears
      the question; anything else leaves the state alone. */
  function ScanLine(topicId: string, st: ScanState, raw: string): ScanState
  {
    var line := JsTrim(raw);
    if line == "" then st
    else if StartsWith(line, "T:") then ScanState(JsTrim(line[2..]), st.nuggets)
    else if StartsWith(line, "D:") && st.question != "" then
      ScanState("", st.nuggets + [Nugget(NuggetId(topicId, |st.nuggets|), st.question, JsTrim(line[2..]), topicId)])
    else st
  }

  /** The scan of `lines`, in order, from state `st`. */
  function ScanFrom(topicId: string, st: ScanState, lines: seq<string>): ScanState
    decreases |lines|
  {
    if lines == [] then st else ScanFrom(topicId, ScanLine(topicId, st, lines[0]), lines[1..])
  }

  /** The nuggets the scanner extracts from a document body. */
  function ScanBody(topicId: string, content: string): seq<Nugget>
  {
    ScanFrom(topicId, Start, Split(content, "\n")).nuggets
  }

  predicate IsQuestionLine(raw: string) { StartsWith(JsTrim(raw), "T:") }

  predicate IsAnswerLine(raw: string) { StartsWith(JsTrim(raw), "D:") }

  function CountQuestionLines(lines: seq<string>): nat
  {
    if lines == [] then 0
    else (if IsQuestionLine(lines[0]) then 1 else 0) + CountQuestionLines(lines[1..])
  }

  function CountAnswerLines(lines: seq<string>): nat
  {
    if lines == [] then 0
    else (if IsAnswerLine(lines[0]) then 1 else 0) + CountAnswerLines(lines[1..])
  }

  /** The nuggets of one import: ids `topicId-0, topicId-1, ...` in order, all
      owned by `topicId`, each with a non-empty question. */
  predicate WellFormedBatch(topicId: string, ns: seq<Nugget>)
  {
    forall k :: 0 <= k < |ns| ==>
      ns[k].id == NuggetId(topicId, k) && ns[k].topicId == topicId && ns[k].topic != ""
  }

  function Pending(question: string): nat { if question == "" then 0 else 1 }

  /** One line keeps the batch well formed. */
  lemma ScanLineKeepsBatch(topicId: string, st: ScanState, raw: string)
    requires WellFormedBatch(topicId, st.nuggets)
    ensures WellFormedBatch(topicId, ScanLine(topicId, st, raw).nuggets)
  {
    var line := JsTrim(raw);
    if line != "" && !StartsWith(line, "T:") && StartsWith(line, "D:") && st.question != "" {
      var n := Nugget(NuggetId(topicId, |st.nuggets|), st.question, JsTrim(line[2..]), topicId);
      var ns := st.nuggets + [n];
      assert ScanLine(topicId, st, raw) == ScanState("", ns);
      forall k | 0 <= k < |ns|
        ensures ns[k].id == NuggetId(topicId, k) && ns[k].topicId == topicId && ns[k].topic != ""
      {
        if k < |st.nuggets| { assert ns[k] == st.nuggets[k]; }
      }
    } else {
      assert ScanLine(topicId, st, raw).nuggets == st.nuggets;
    }
  }

  lemma ScanLineAppends(topicId: string, st: ScanState, raw: string)
    ensures var r := ScanLine(topicId, st, raw);
      |st.nuggets| <= |r.nuggets| && r.nuggets[..|st.nuggets|] == st.nuggets
  {
  }

  /** One line emits at most one nugget, only when it is a `D:` line, and only
      by consuming a pending question. */
  lemma ScanLineCounts(topicId: string, st: ScanState, raw: string)
    ensures var r := ScanLine(topicId, st, raw);
      |r.nuggets| <= |st.nuggets| + (if IsAnswerLine(raw) then 1 else 0)
    ensures var r := ScanLine(topicId, st, raw);
      |r.nuggets| + Pending(r.question)
         <= |st.nuggets| + Pending(st.question) + (if IsQuestionLine(raw) then 1 else 0)
  {
  }

  /** Scanning only appends, keeps the batch well formed, emits at most one
      nugget per `D:` line, and at most one per `T:` line (a question still
      pending at the end has used up its `T:` line without a nugget). */
  lemma {:induction false} ScanInvariant(topicId: string, st: ScanState, lines: seq<string>)
    requires WellFormedBatch(topicId, st.nuggets)
    ensures var r := ScanFrom(topicId, st, lines);
      && WellFormedBatch(topicId, r.nuggets)
      && |st.nuggets| <= |r.nuggets| && r.nuggets[..|st.nuggets|] == st.nuggets
      && |r.nuggets| <= |st.nuggets| + CountAnswerLines(lines)
      && |r.nuggets| + Pending(r.question) <= |st.nuggets| + Pending(st.question) + CountQuestionLines(lines)
    decreases |lines|
  {
    if lines != [] {
      var st' := ScanLine(topicId, st, lines[0]);
      ScanLineKeepsBatch(topicId, st, lines[0]);
      ScanLineCounts(topicId, st, lines[0]);
      ScanLineAppends(topicId, st, lines[0]);
      ScanInvariant(topicId, st', lines[1..]);
      var r := ScanFrom(topicId, st', lines[1..]);
      assert r == ScanFrom(topicId, st, lines);
      assert r.nuggets[..|st'.nuggets|][..|st.nuggets|] == r.nuggets[..|st.nuggets|];
    }
  }

  /** The batch of an import is well formed, its ids are pairwise distinct, and
      it has no more nuggets than the body has `D:` lines or `T:` lines. */
  lemma ScanBodyShape(topicId: string, content: string)
    ensures var ns, lines := ScanBody(topicId, content), Split(content, "\n");
      && WellFormedBatch(topicId, ns)
      && |ns| <= CountAnswerLines(lines) && |ns| <= CountQuestionLines(lines)
      && forall k, l :: 0 <= k < l < |ns| ==> ns[k].id != ns[l].id
  {
    var ns := ScanBody(topicId, content);
    ScanInvariant(topicId, Start, Split(content, "\n"));
    forall k, l | 0 <= k < l < |ns| ensures ns[k].id != ns[l].id {
      if ns[k].id == ns[l].id { NuggetIdInjective(topicId, k, topicId, l); }
    }
  }

  /** A blank line changes nothing. */
  lemma BlankLineSkipped(topicId: string, st: ScanState, blank: string, rest: seq<string>)
    requires JsTrim(blank) == ""
    ensures ScanFrom(topicId, st, [blank] + rest) == ScanFrom(topicId, st, rest)
  {
    assert ([blank] + rest)[1..] == rest;
  }

  /** A later `T:` line overwrites a question that was never answered. */
  lemma LaterQuestionWins(topicId: string, st: ScanState, t1: string, t2: string, rest: seq<string>)
    requires IsQuestionLine(t1) && IsQuestionLine(t2)
    ensures ScanFrom(topicId, st, [t1, t2] + rest) == ScanFrom(topicId, st, [t2] + rest)
  {
    assert ([t1, t2] + rest)[1..] == [t2] + rest;
    assert ([t2] + rest)[1..] == rest;
  }

  /** A `D:` line with no pending question is ignored. */
  lemma OrphanAnswerIgnored(topicId: string, st: ScanState, d: string, rest: seq<string>)
    requires st.question == "" && IsAnswerLine(d)
    ensures ScanFrom(topicId, st, [d] + rest) == ScanFrom(topicId, st, rest)
  {
    assert ([d] + rest)[1..] == rest;
  }

  /** A `D:` line answering a pending question appends one nugget with that
      question and the trimmed answer, and clears the question. */
  lemma AnswerEmits(topicId: string, st: ScanState, d: string, rest: seq<string>)
    requires st.question != "" && IsAnswerLine(d) && !IsQuestionLine(d)
    ensures ScanFrom(topicId, st, [d] + rest) ==
      ScanFrom(topicId, ScanState("", st.nuggets + [Nugget(NuggetId(topicId, |st.nuggets|), st.question,
                                                           JsTrim(JsTrim(d)[2..]), topicId)]), rest)
  {
    assert ([d] + rest)[1..] == rest;
  }

  /** The loop of `importData` that walks the body lines. */
  method ScanContent(topicId: string, content: string) returns (nuggets: seq<Nugget>)
    ensures nuggets == ScanBody(topicId, content)
    ensures WellFormedBatch(topicId, nuggets)
    ensures |nuggets| <= CountAnswerLines(Split(content, "\n"))
    ensures |nuggets| <= CountQuestionLines(Split(content, "\n"))
  {
    var lines := Split(content, "\n");
    nuggets := [];
    var question := "";
    var i := 0;
    while i < |lines|
      invariant 0 <= i <= |lines|
      invariant ScanFrom(topicId, ScanState(question, nuggets), lines[i..]) == ScanFrom(topicId, Start, lines)
    {
      assert lines[i..][0] == lines[i] && lines[i..][1..] == lines[i + 1..];
      var line := JsTrim(lines[i]);
      if line != "" {
        if StartsWith(line, "T:") {
          question := JsTrim(line[2..]);
        } else if StartsWith(line, "D:") && question != "" {
          nuggets := nuggets + [Nugget(NuggetId(topicId, |nuggets|), question, JsTrim(line[2..]), topicId)];
          question := "";
        }
      }
      i := i + 1;
    }
    ScanBodyShape(topicId, content);
  }

  // ---------------------------------------------------------------------
  // The merge
  // ---------------------------------------------------------------------

  function OtherTopic(id: string): Topic -> bool
  {
    (t: Topic) => t.id != id
  }

  /** The nuggets `importData` keeps: those whose `topicId` does NOT start
      with the imported id (a prefix test, not equality). */
  function OutsidePrefix(id: string): Nugget -> bool
  {
    (n: Nugget) => !StartsWith(n.topicId, id)
  }

  /** The stored collection after importing `topic` with `batch`. */
  function Merge(existing: Collection, topic: Topic, batch: seq<Nugget>): Collection
  {
    Collection(Filter(existing.topics, OtherTopic(topic.id)) + [topic],
               Filter(existing.nuggets, OutsidePrefix(topic.id)) + batch)
  }

  /** `getAllData`: the stored collection, or the empty one when the key is
      absent or does not parse. */
  function Stored(slot: Slot<Collection>): (c: Collection)
    ensures slot.Holds? ==> c == slot.value
    ensures !slot.Holds? ==> c == EmptyCollection
  {
    if slot.Holds? then slot.value else EmptyCollection
  }

  /** What `importData` computes from the stored value and the document:
      the error it throws, or the collection it writes and returns. */
  function Import(slot: Slot<Collection>, doc: Matter): Result<Collection, ImportError>
  {
    match doc
    case Malformed => Failure(UnreadableFrontmatter)
    case Parsed(data, content) =>
      match FrontmatterTopic(data)
      case None => Failure(MissingRequiredFields)
      case Some(topic) => Success(Merge(Stored(slot), topic, ScanBody(topic.id, content)))
  }

  /** An import fails exactly when the frontmatter cannot be read or lacks a
      non-empty `id` or `name`. */
  lemma ImportFailure(slot: Slot<Collection>, doc: Matter)
    ensures Import(slot, doc).Failure? <==>
      doc.Malformed? || Field(doc.data, "id") == "" || Field(doc.data, "name") == ""
  {
  }

  /** The merge puts the imported topic last and keeps only the other
      topics, in their old order. */
  lemma MergeTopics(existing: Collection, topic: Topic, batch: seq<Nugget>)
    ensures var ts := Merge(existing, topic, batch).topics;
      |ts| >= 1 && ts[|ts| - 1] == topic
    ensures var ts := Merge(existing, topic, batch).topics;
      forall k :: 0 <= k < |ts| - 1 ==> ts[k].id != topic.id
    ensures var ts := Merge(existing, topic, batch).topics;
      forall x :: x in ts[..|ts| - 1] <==> x in existing.topics && x.id != topic.id
    ensures var ts := Merge(existing, topic, batch).topics;
      Subseq(ts[..|ts| - 1], existing.topics)
    ensures var ts := Merge(existing, topic, batch).topics;
      forall x :: multiset(ts[..|ts| - 1])[x] == if x.id != topic.id then multiset(existing.topics)[x] else 0
  {
    var kept := Filter(existing.topics, OtherTopic(topic.id));
    var ts := Merge(existing, topic, batch).topics;
    assert ts[..|ts| - 1] == kept;
    forall k | 0 <= k < |kept| ensures kept[k].id != topic.id {
      assert OtherTopic(topic.id)(kept[k]);
    }
    forall x ensures x in kept <==> x in existing.topics && x.id != topic.id {
      FilterMembers(existing.topics, OtherTopic(topic.id), x);
    }
    FilterIsSubseq(existing.topics, OtherTopic(topic.id));
    forall x ensures multiset(kept)[x] == if x.id != topic.id then multiset(existing.topics)[x] else 0 {
      FilterMultiset(existing.topics, OtherTopic(topic.id), x);
    }
  }

  /** The merge drops the stored nuggets whose `topicId` starts with the
      imported id, keeps the others in order, and appends the batch. */
  lemma MergeNuggets(existing: Collection, topic: Topic, batch: seq<Nugget>)
    ensures var ns := Merge(existing, topic, batch).nuggets;
      |ns| >= |batch| && ns[|ns| - |batch|..] == batch
    ensures var ns := Merge(existing, topic, batch).nuggets;
      forall n :: n in ns[..|ns| - |batch|] <==> n in existing.nuggets && !StartsWith(n.topicId, topic.id)
    ensures var ns := Merge(existing, topic, batch).nuggets;
      Subseq(ns[..|ns| - |batch|], existing.nuggets)
    ensures var ns := Merge(existing, topic, batch).nuggets;
      forall n :: multiset(ns[..|ns| - |batch|])[n] == if !StartsWith(n.topicId, topic.id) then multiset(existing.nuggets)[n] else 0
  {
    var kept := Filter(existing.nuggets, OutsidePrefix(topic.id));
    var ns := Merge(existing, topic, batch).nuggets;
    assert ns[..|ns| - |batch|] == kept;
    forall n ensures n in kept <==> n in existing.nuggets && !StartsWith(n.topicId, topic.id) {
      FilterMembers(existing.nuggets, OutsidePrefix(topic.id), n);
    }
    FilterIsSubseq(existing.nuggets, OutsidePrefix(topic.id));
    forall n ensures multiset(kept)[n] == if !StartsWith(n.topicId, topic.id) then multiset(existing.nuggets)[n] else 0 {
      FilterMultiset(existing.nuggets, OutsidePrefix(topic.id), n);
    }
  }

  /** A successful import is the merge of the stored collection with the
      frontmatter topic and the scanned batch. */
  lemma ImportedCollection(slot: Slot<Collection>, data: map<string, string>, content: string)
    requires Import(slot, Parsed(data, content)).Success?
    ensures FrontmatterTopic(data).Some?
    ensures var t := FrontmatterTopic(data).value;
      Import(slot, Parsed(data, content)).value == Merge(Stored(slot), t, ScanBody(t.id, content))
  {
  }

  /** Merging the same topic and batch a second time changes nothing. */
  lemma MergeIdempotent(c: Collection, topic: Topic, batch: seq<Nugget>)
    requires forall k :: 0 <= k < |batch| ==> batch[k].topicId == topic.id
    ensures Merge(Merge(c, topic, batch), topic, batch) == Merge(c, topic, batch)
  {
    KeptTopicsStable(c.topics, topic);
    KeptNuggetsStable(c.nuggets, topic.id, batch);
  }

  lemma KeptTopicsStable(ts: seq<Topic>, topic: Topic)
    ensures var p := OtherTopic(topic.id);
      Filter(Filter(ts, p) + [topic], p) + [topic] == Filter(ts, p) + [topic]
  {
    var p := OtherTopic(topic.id);
    FilterAppend(Filter(ts, p), [topic], p);
    FilterTwice(ts, p);
    FilterNone([topic], p);
    assert Filter(ts, p) + [] == Filter(ts, p);
  }

  lemma KeptNuggetsStable(ns: seq<Nugget>, id: string, batch: seq<Nugget>)
    requires forall k :: 0 <= k < |batch| ==> batch[k].topicId == id
    ensures var q := OutsidePrefix(id);
      Filter(Filter(ns, q) + batch, q) + batch == Filter(ns, q) + batch
  {
    var q := OutsidePrefix(id);
    FilterAppend(Filter(ns, q), batch, q);
    FilterTwice(ns, q);
    forall k | 0 <= k < |batch| ensures !q(batch[k]) {
      assert batch[k].topicId[..|id|] == id;
    }
    FilterNone(batch, q);
    assert Filter(ns, q) + [] == Filter(ns, q);
  }

  /** Importing the same document twice stores what importing it once does. */
  lemma ImportIdempotent(slot: Slot<Collection>, doc: Matter)
    requires Import(slot, doc).Success?
    ensures Import(Holds(Import(slot, doc).value), doc) == Import(slot, doc)
  {
    var t := FrontmatterTopic(doc.data).value;
    var batch := ScanBody(t.id, doc.content);
    ScanBodyShape(t.id, doc.content);
    MergeIdempotent(Stored(slot), t, batch);
  }

  /** The prefix test reaches other topics: importing `js` removes the
      nuggets of a stored `js-basics` topic, while that topic itself stays. */
  lemma PrefixPurgeReachesSiblings(other: Nugget, basics: Topic, js: Topic)
    requires basics.id == "js-basics" && other.topicId == "js-basics" && js.id == "js"
    ensures Merge(Collection([basics], [other]), js, []) == Collection([basics, js], [])
  {
    assert StartsWith(other.topicId, js.id);
    assert Filter([other], OutsidePrefix(js.id)) == [];
    assert Filter([basics], OtherTopic(js.id)) == [basics];
  }

  // ---------------------------------------------------------------------
  // The storage key
  // ---------------------------------------------------------------------

  /** A call that changed the data key: `setItem` with a collection, or
      `removeItem`. */
  datatype Write = SetData(value: Collection) | RemoveData

  /** The data key of browser storage, with the log of writes made to it. */
  class DataStore {
    var slot: Slot<Collection>
    var writes: seq<Write>

    constructor(initial: Slot<Collection>)
      ensures slot == initial && writes == []
    {
      slot := initial;
      writes := [];
    }

    /** `getAllData`. */
    function GetAllData(): (c: Collection)
      reads this
      ensures !slot.Holds? ==> c == EmptyCollection
      ensures slot.Holds? ==> c == slot.value
    {
      Stored(slot)
    }

    /** `importData`: a failure leaves storage untouched; a success writes the
        merged collection exactly once and returns it. */
    method ImportData(doc: Matter) returns (r: Result<Collection, ImportError>)
      modifies this
      ensures r == Import(old(slot), doc)
      ensures r.Failure? ==> slot == old(slot) && writes == old(writes)
      ensures r.Success? ==> slot == Holds(r.value) && writes == old(writes) + [SetData(r.value)]
    {
      if doc.Malformed? {
        return Failure(UnreadableFrontmatter);
      }
      var topicOrNone := FrontmatterTopic(doc.data);
      if topicOrNone.None? {
        return Failure(MissingRequiredFields);
      }
      var topic := topicOrNone.value;
      var nuggets := ScanContent(topic.id, doc.content);
      var existing := GetAllData();
      var merged := Merge(existing, topic, nuggets);
      slot := Holds(merged);
      writes := writes + [SetData(merged)];
      r := Success(merged);
    }

    /** `clearData`: removes the key, after which reads give the empty
        collection. */
    method ClearData()
      modifies this
      ensures slot == Absent && writes == old(writes) + [RemoveData]
      ensures GetAllData() == EmptyCollection
    {
      slot := Absent;
      writes := writes + [RemoveData];
    }

    /** `exportData`: the collection that is serialised for download; the
        empty collection when nothing readable is stored. */
    method ExportData() returns (payload: Collection)
      ensures !slot.Holds? ==> payload == EmptyCollection
      ensures slot.Holds? ==> payload == slot.value
    {
      payload := GetAllData();
    }
  }
}
