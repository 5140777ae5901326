/** The card carousel: a topic filter over the nugget list and an index that
    pages through the filtered list with wrap-around. The index is a
    JavaScript number, so paging an empty list makes it NaN. */
module NuggetCarousel {
  import opened Wrappers
  import opened Seqs
  import opened JsNumber
  import opened Records

  const AllTopics := "all"

  function OnTopic(sel: string): Nugget -> bool
  {
    (n: Nugget) => n.topicId == sel
  }

  /** The filter effect: every nugget for `all`, otherwise the nuggets of the
      selected topic. */
  function Visible(ns: seq<Nugget>, sel: string): seq<Nugget>
  {
    if sel == AllTopics then ns else Filter(ns, OnTopic(sel))
  }

  /** The filtered list keeps the original order and holds exactly the
      nuggets of the selected topic (all of them for `all`). */
  lemma VisibleExactly(ns: seq<Nugget>, sel: string)
    ensures sel == AllTopics ==> Visible(ns, sel) == ns
    ensures sel != AllTopics ==> forall n :: n in Visible(ns, sel) <==> n in ns && n.topicId == sel
    ensures Subseq(Visible(ns, sel), ns)
    ensures sel != AllTopics ==>
      forall n :: multiset(Visible(ns, sel))[n] == if n.topicId == sel then multiset(ns)[n] else 0
  {
    if sel != AllTopics {
      forall n ensures n in Visible(ns, sel) <==> n in ns && n.topicId == sel {
        FilterMembers(ns, OnTopic(sel), n);
      }
      FilterIsSubseq(ns, OnTopic(sel));
      forall n ensures multiset(Visible(ns, sel))[n] == if n.topicId == sel then multiset(ns)[n] else 0 {
        FilterMultiset(ns, OnTopic(sel), n);
      }
    } else {
      SubseqRefl(ns);
    }
  }

  /** `goToNext`: `(prev + 1) % length`. */
  function Next(i: Num, n: nat): Num
  {
    Rem(Add(i, Int(1)), Int(n))
  }

  /** `goToPrevious`: `(prev - 1 + length) % length`. */
  function Prev(i: Num, n: nat): Num
  {
    Rem(Add(Add(i, Int(-1)), Int(n)), Int(n))
  }

  /** On a non-empty list an in-range index moves one step forward, the last
      one wrapping to the first. */
  lemma NextWraps(i: int, n: nat)
    requires 0 <= i < n
    ensures Next(Int(i), n) == Int(if i == n - 1 then 0 else i + 1)
  {
    assert Next(Int(i), n) == Int((i + 1) % n);
    if i == n - 1 {
      ModUnique(i + 1, n, 1, 0);
    } else {
      ModUnique(i + 1, n, 0, i + 1);
    }
  }

  /** On a non-empty list an in-range index moves one step back, the first
      one wrapping to the last. */
  lemma PrevWraps(i: int, n: nat)
    requires 0 <= i < n
    ensures Prev(Int(i), n) == Int(if i == 0 then n - 1 else i - 1)
  {
    assert Prev(Int(i), n) == Int((i - 1 + n) % n);
    if i == 0 {
      ModUnique(n - 1, n, 0, n - 1);
    } else {
      ModUnique(i - 1 + n, n, 1, i - 1);
    }
  }

  /** Going forward then back, or back then forward, returns to the start. */
  lemma NextPrevInverse(i: int, n: nat)
    requires 0 <= i < n
    ensures Prev(Next(Int(i), n), n) == Int(i)
    ensures Next(Prev(Int(i), n), n) == Int(i)
  {
    NextWraps(i, n);
    PrevWraps(i, n);
    var j := if i == n - 1 then 0 else i + 1;
    PrevWraps(j, n);
    var h := if i == 0 then n - 1 else i - 1;
    NextWraps(h, n);
  }

  /** Paging an empty list, or paging from NaN, gives NaN. */
  lemma EmptyPaging(i: Num, n: nat)
    requires n == 0 || i.NaN?
    ensures Next(i, n) == NaN && Prev(i, n) == NaN
  {
  }

  /** `k` steps forward. */
  function NextTimes(i: Num, n: nat, k: nat): Num
  {
    if k == 0 then i else Next(NextTimes(i, n, k - 1), n)
  }

  lemma {:induction false} NextTimesMod(i: int, n: nat, k: nat)
    requires 0 <= i < n
    ensures NextTimes(Int(i), n, k) == Int((i + k) % n)
  {
    if k > 0 {
      NextTimesMod(i, n, k - 1);
      var j := (i + k - 1) % n;
      NextWraps(j, n);
      ModStep(i + k - 1, n);
    }
  }

  lemma ModStep(x: nat, n: nat)
    requires n > 0
    ensures (if x % n == n - 1 then 0 else x % n + 1) == (x + 1) % n
  {
    var q, r := x / n, x % n;
    assert x == q * n + r;
    if r == n - 1 {
      assert x + 1 == (q + 1) * n + 0;
      ModUnique(x + 1, n, q + 1, 0);
    } else {
      ModUnique(x + 1, n, q, r + 1);
    }
  }

  /** The remainder is the `r` of any decomposition `q * n + r` with
      `0 <= r < n`. */
  lemma ModUnique(x: int, n: int, q: int, r: int)
    requires n > 0 && 0 <= r < n && x == q * n + r
    ensures x % n == r
  {
    var q', r' := x / n, x % n;
    assert x == q' * n + r';
    assert (q - q') * n == r' - r;
    if q > q' {
      MulAtLeast(q - q', n);
    } else if q < q' {
      MulAtLeast(q' - q, n);
    }
  }

  lemma MulAtLeast(a: int, n: int)
    requires a >= 1 && n > 0
    ensures a * n >= n
  {
  }

  /** `n` steps forward through `n` cards return to the starting card. */
  lemma FullCircle(i: int, n: nat)
    requires 0 <= i < n
    ensures NextTimes(Int(i), n, n) == Int(i)
  {
    NextTimesMod(i, n, n);
    ModUnique(i + n, n, 1, i);
  }

  /** The nugget at a JavaScript index, `undefined` outside the list. */
  function At(ns: seq<Nugget>, i: Num): (r: Option<Nugget>)
    ensures r.Some? <==> i.Int? && 0 <= i.v < |ns|
    ensures r.Some? ==> r.value == ns[i.v]
  {
    if i.Int? && 0 <= i.v < |ns| then Some(ns[i.v]) else None
  }

  /** The carousel's state: its two props and its three state variables. */
  class Carousel {
    var nuggets: seq<Nugget>
    var topics: seq<Topic>
    var selectedTopic: string
    var filtered: seq<Nugget>
    var currentIndex: Num

    /** The filtered list follows the selection, and the index is in range
        whenever there is something to show (and 0 or NaN otherwise). */
    ghost predicate Valid()
      reads this
    {
      && filtered == Visible(nuggets, selectedTopic)
      && (|filtered| > 0 ==> currentIndex.Int? && 0 <= currentIndex.v < |filtered|)
      && (|filtered| == 0 ==> currentIndex == Int(0) || currentIndex.NaN?)
    }

    /** Mounting: index 0, every nugget shown, `all` selected. */
    constructor(ns: seq<Nugget>, ts: seq<Topic>)
      ensures nuggets == ns && topics == ts && selectedTopic == AllTopics
      ensures filtered == ns && currentIndex == Int(0)
      ensures Valid()
    {
      nuggets := ns;
      topics := ts;
      selectedTopic := AllTopics;
      filtered := ns;
      currentIndex := Int(0);
    }

    /** A new selection in the topic menu: the filter effect runs and the
        index goes back to 0. Selecting the current topic again is not a state
        change, so the effect does not run. */
    method SelectTopic(sel: string)
      requires Valid()
      modifies this
      ensures Valid()
      ensures nuggets == old(nuggets) && topics == old(topics) && selectedTopic == sel
      ensures sel != old(selectedTopic) ==> filtered == Visible(nuggets, sel) && currentIndex == Int(0)
      ensures sel == old(selectedTopic) ==> filtered == old(filtered) && currentIndex == old(currentIndex)
    {
      if sel != selectedTopic {
        selectedTopic := sel;
        filtered := Visible(nuggets, sel);
        currentIndex := Int(0);
      }
    }

    /** A new nugget list from the parent: the filter effect runs and the
        index goes back to 0. */
    method ReceiveNuggets(ns: seq<Nugget>)
      requires Valid()
      modifies this
      ensures Valid()
      ensures nuggets == ns && topics == old(topics) && selectedTopic == old(selectedTopic)
      ensures filtered == Visible(ns, selectedTopic) && currentIndex == Int(0)
    {
      nuggets := ns;
      filtered := Visible(ns, selectedTopic);
      currentIndex := Int(0);
    }

    /** `goToNext`. */
    method GoToNext()
      requires Valid()
      modifies this
      ensures Valid()
      ensures nuggets == old(nuggets) && topics == old(topics) && selectedTopic == old(selectedTopic)
      ensures filtered == old(filtered)
      ensures currentIndex == Next(old(currentIndex), |filtered|)
    {
      currentIndex := Rem(Add(currentIndex, Int(1)), Int(|filtered|));
    }

    /** `goToPrevious`. */
    method GoToPrevious()
      requires Valid()
      modifies this
      ensures Valid()
      ensures nuggets == old(nuggets) && topics == old(topics) && selectedTopic == old(selectedTopic)
      ensures filtered == old(filtered)
      ensures currentIndex == Prev(old(currentIndex), |filtered|)
    {
      currentIndex := Rem(Add(Add(currentIndex, Int(-1)), Int(|filtered|)), Int(|filtered|));
      if |filtered| > 0 {
        PrevWraps(old(currentIndex).v, |filtered|);
      }
    }

    /** `getCurrentTopicColor`. */
    function CurrentTopicColor(): string
      reads this
    {
      ColorOf(topics, At(filtered, currentIndex))
    }

    /** The card shown: the current nugget, and none for an empty list. */
    function Card(): Option<Nugget>
      reads this
    {
      if |filtered| > 0 then At(filtered, currentIndex) else None
    }

    /** The counter `currentIndex + 1 / length`. */
    function Counter(): (Num, nat)
      reads this
    {
      (Add(currentIndex, Int(1)), |filtered|)
    }

    /** In a valid state a non-empty list shows a card and a position between
        1 and its length. */
    lemma ShownPosition()
      requires Valid() && |filtered| > 0
      ensures Card() == Some(filtered[currentIndex.v])
      ensures Counter().0.Int? && 1 <= Counter().0.v <= Counter().1
    {
    }

    /** The colour of the card shown: its topic's colour when a topic with its
        id exists and has a non-empty colour, otherwise `#000000`. */
    lemma ShownColor()
      requires Valid() && |filtered| > 0
      ensures var id := filtered[currentIndex.v].topicId;
        && (forall k :: FirstWithId(topics, id, k) ==>
              CurrentTopicColor() == (if topics[k].color != "" then topics[k].color else FallbackColor))
        && ((forall k :: 0 <= k < |topics| ==> topics[k].id != id) ==> CurrentTopicColor() == FallbackColor)
    {
    }
  }
}
