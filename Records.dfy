/** The records shared by every part of the application: topics, nuggets
    (question/answer cards), the stored collection and progress entries. */
module Records {
  import opened Wrappers
  import opened Text

  /** A topic; `description` is optional, as in the application's type
      declarations. */
  datatype Topic = Topic(id: string, name: string, color: string, description: Option<string>)

  /** A card: `topic` holds the question, `description` the answer. */
  datatype Nugget = Nugget(id: string, topic: string, description: string, topicId: string)

  /** The value kept under the data key: `{topics, nuggets}`. */
  datatype Collection = Collection(topics: seq<Topic>, nuggets: seq<Nugget>)

  const EmptyCollection := Collection([], [])

  /** One entry of the progress map. `lastReviewed` is an ISO timestamp. */
  datatype ProgressEntry = ProgressEntry(completed: bool, lastReviewed: string)

  /** The value a browser storage key holds: nothing, text that does not parse,
      or a parsed value. */
  datatype Slot<T> = Absent | Corrupt | Holds(value: T)

  /** The id `${topicId}-${k}` given to a nugget. */
  function NuggetId(topicId: string, k: nat): string
  {
    topicId + "-" + Decimal(k)
  }

  /** Nugget ids never collide: the topic id and the number can both be read
      back from the id, because the number's digits contain no `-`. */
  lemma NuggetIdInjective(t1: string, k1: nat, t2: string, k2: nat)
    requires NuggetId(t1, k1) == NuggetId(t2, k2)
    ensures t1 == t2 && k1 == k2
  {
    var s := NuggetId(t1, k1);
    var d1, d2 := Decimal(k1), Decimal(k2);
    assert |t1| <= |t2| by {
      if |t2| < |t1| { DigitsAfterDash(t2, k2, |t1|); }
    }
    assert |t2| <= |t1| by {
      if |t1| < |t2| { DigitsAfterDash(t1, k1, |t2|); }
    }
    assert t1 == s[..|t1|] == t2;
    assert d1 == s[|t1| + 1..] == d2;
    DecimalInjective(k1, k2);
  }

  /** Past the topic id and its dash, a nugget id holds only digits. */
  lemma DigitsAfterDash(t: string, k: nat, p: nat)
    requires |t| < p < |NuggetId(t, k)|
    ensures NuggetId(t, k)[p] != '-'
  {
    assert NuggetId(t, k)[p] == Decimal(k)[p - |t| - 1];
  }

  const FallbackColor := "#000000"

  /** Topic `k` is the first one whose id is `id`. */
  predicate FirstWithId(topics: seq<Topic>, id: string, k: int)
  {
    0 <= k < |topics| && topics[k].id == id && forall j :: 0 <= j < k ==> topics[j].id != id
  }

  /** `topics.find(t => t.id === id)`. */
  function FindTopic(topics: seq<Topic>, id: string): (r: Option<Topic>)
    ensures r.Some? ==> exists k :: FirstWithId(topics, id, k) && r.value == topics[k]
    ensures r.None? ==> forall k :: 0 <= k < |topics| ==> topics[k].id != id
  {
    if topics == [] then None
    else if topics[0].id == id then
      assert FirstWithId(topics, id, 0);
      Some(topics[0])
    else
      var r := FindTopic(topics[1..], id);
      if r.Some? then
        var k :| FirstWithId(topics[1..], id, k) && r.value == topics[1..][k];
        assert FirstWithId(topics, id, k + 1);
        r
      else r
  }

  /** `topics.find(t => t.id === current?.topicId)?.color || '#000000'`:
      the colour of the first topic owning the current nugget, or black when
      there is no current nugget, no such topic, or its colour is empty. */
  function ColorOf(topics: seq<Topic>, current: Option<Nugget>): (c: string)
    ensures c != ""
    ensures current.Some? ==> forall k :: FirstWithId(topics, current.value.topicId, k) ==>
              c == (if topics[k].color != "" then topics[k].color else FallbackColor)
    ensures (current.None? || forall k :: 0 <= k < |topics| ==> topics[k].id != current.value.topicId)
              ==> c == FallbackColor
  {
    if current.None? then FallbackColor
    else match FindTopic(topics, current.value.topicId)
      case None => FallbackColor
      case Some(t) =>
        FirstIsUnique(topics, current.value.topicId);
        if t.color != "" then t.color else FallbackColor
  }

  lemma FirstIsUnique(topics: seq<Topic>, id: string)
    ensures forall k, l :: FirstWithId(topics, id, k) && FirstWithId(topics, id, l) ==> k == l
  {
  }
}
