/** Review mode: the nuggets that have a progress entry, in an order chosen
    by a random shuffle, paged through with a wrapping "Next Review". */
module ReviewMode {
  import opened Wrappers
  import opened Seqs
  import opened Records

  type Progress = map<string, ProgressEntry>

  function HasEntry(progress: Progress): Nugget -> bool
  {
    (n: Nugget) => n.id in progress
  }

  /** `nuggets.filter(nugget => progress[nugget.id])`: an entry is an object,
      so any nugget with an entry passes. */
  function Seen(ns: seq<Nugget>, progress: Progress): seq<Nugget>
  {
    Filter(ns, HasEntry(progress))
  }

  /** The seen nuggets are exactly the nuggets with a progress entry, in their
      original order. */
  lemma SeenExactly(ns: seq<Nugget>, progress: Progress)
    ensures forall n :: n in Seen(ns, progress) <==> n in ns && n.id in progress
    ensures Subseq(Seen(ns, progress), ns)
    ensures forall n :: multiset(Seen(ns, progress))[n] == if n.id in progress then multiset(ns)[n] else 0
  {
    forall n ensures n in Seen(ns, progress) <==> n in ns && n.id in progress {
      FilterMembers(ns, HasEntry(progress), n);
    }
    FilterIsSubseq(ns, HasEntry(progress));
    forall n ensures multiset(Seen(ns, progress))[n] == if n.id in progress then multiset(ns)[n] else 0 {
      FilterMultiset(ns, HasEntry(progress), n);
    }
  }

  /** `handleNext`: `(prev + 1) % length`, only reachable with a non-empty
      list (the button is not rendered otherwise). */
  function NextReview(i: nat, n: nat): (r: nat)
    requires n > 0
    ensures r < n
    ensures i < n ==> r == (if i == n - 1 then 0 else i + 1)
  {
    (i + 1) % n
  }

  /** What the component renders. */
  datatype View =
    | NothingToReview(message: string)
    | Reviewing(card: Option<Nugget>, position: int, total: nat, color: string)

  const EmptyMessage := "No nuggets to review yet. Start learning to build your review list!"

  /** The component's props and state. */
  class ReviewSession {
    var nuggets: seq<Nugget>
    var topics: seq<Topic>
    var reviewNuggets: seq<Nugget>
    var currentIndex: nat

    /** Mounting, before the effect has run: an empty review list at index 0. */
    constructor(ns: seq<Nugget>, ts: seq<Topic>)
      ensures nuggets == ns && topics == ts && reviewNuggets == [] && currentIndex == 0
    {
      nuggets := ns;
      topics := ts;
      reviewNuggets := [];
      currentIndex := 0;
    }

    /** The effect on mount and on a new nugget list: the review list becomes
        the shuffled seen nuggets, `shuffled` being the shuffle's outcome. The
        index is left as it was. */
    method Reload(ns: seq<Nugget>, progress: Progress, shuffled: seq<Nugget>)
      requires multiset(shuffled) == multiset(Seen(ns, progress))
      modifies this
      ensures nuggets == ns && topics == old(topics) && currentIndex == old(currentIndex)
      ensures reviewNuggets == shuffled
      ensures forall n :: n in reviewNuggets <==> n in ns && n.id in progress
      ensures |reviewNuggets| == |Seen(ns, progress)|
    {
      nuggets := ns;
      reviewNuggets := shuffled;
      SeenExactly(ns, progress);
      assert forall n :: n in shuffled <==> n in multiset(shuffled);
      assert |multiset(shuffled)| == |multiset(Seen(ns, progress))|;
    }

    /** "Next Review". */
    method HandleNext()
      requires |reviewNuggets| > 0
      modifies this
      ensures nuggets == old(nuggets) && topics == old(topics) && reviewNuggets == old(reviewNuggets)
      ensures currentIndex == NextReview(old(currentIndex), |reviewNuggets|)
      ensures currentIndex < |reviewNuggets|
    {
      currentIndex := (currentIndex + 1) % |reviewNuggets|;
    }

    /** `getCurrentTopicColor`. */
    function CurrentTopicColor(): string
      reads this
    {
      ColorOf(topics, if currentIndex < |reviewNuggets| then Some(reviewNuggets[currentIndex]) else None)
    }

    /** The rendered view: the empty-list message, or the current card (none
        when the index has run past a shorter list), the counter and the card's
        colour. */
    function Render(): (v: View)
      reads this
      ensures v.NothingToReview? <==> reviewNuggets == []
      ensures v.NothingToReview? ==> v.message == EmptyMessage
      ensures v.Reviewing? ==> v.total == |reviewNuggets| && v.position == currentIndex + 1
      ensures v.Reviewing? ==> (v.card.Some? <==> currentIndex < |reviewNuggets|)
      ensures v.Reviewing? && v.card.Some? ==> v.card.value == reviewNuggets[currentIndex]
      ensures v.Reviewing? ==> v.color != ""
    {
      if |reviewNuggets| == 0 then NothingToReview(EmptyMessage)
      else Reviewing(if currentIndex < |reviewNuggets| then Some(reviewNuggets[currentIndex]) else None,
                     currentIndex + 1, |reviewNuggets|, CurrentTopicColor())
    }
  }

  /** The index is not reset when the review list is recomputed: after paging
      to the second of two cards, a reload that leaves one card keeps index 1,
      past the end of the list, so the view has no card and shows position 2
      of 1; the next "Next Review" brings back the first card. */
  method StaleIndexScenario(a: Nugget, b: Nugget, t: string) returns (stale: View, recovered: View)
    requires a != b && a.id != b.id
    ensures stale == Reviewing(None, 2, 1, ColorOf([], None))
    ensures recovered == Reviewing(Some(a), 1, 1, ColorOf([], Some(a)))
  {
    var s := new ReviewSession([a, b], []);
    var p1 := map[a.id := ProgressEntry(true, t), b.id := ProgressEntry(true, t)];
    assert Seen([a, b], p1) == [a, b] by {
      assert Filter([b], HasEntry(p1)) == [b] by {
        assert [b][1..] == [];
      }
    }
    s.Reload([a, b], p1, [a, b]);
    s.HandleNext();
    assert s.currentIndex == 1;
    var p2 := map[a.id := ProgressEntry(true, t)];
    assert Seen([a], p2) == [a] by {
      assert [a][1..] == [];
    }
    s.Reload([a], p2, [a]);
    assert s.currentIndex == 1 && |s.reviewNuggets| == 1;
    stale := s.Render();
    s.HandleNext();
    assert s.currentIndex == 0;
    recovered := s.Render();
  }
}
