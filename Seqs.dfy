/** Sequence combinators behind the source's `Array.prototype.filter`,
    `map(...).filter(...)` and `find`, with the facts the rest of the model relies on. */
module Seqs {
  import opened Wrappers

  /** `xs.filter(p)`: the elements satisfying `p`, in their original order. */
  function Filter<T>(xs: seq<T>, p: T -> bool): (r: seq<T>)
    ensures |r| <= |xs|
    ensures forall k :: 0 <= k < |r| ==> p(r[k])
  {
    if xs == [] then []
    else (if p(xs[0]) then [xs[0]] else []) + Filter(xs[1..], p)
  }

  /** `a` is obtained from `b` by deleting elements (order is kept). */
  ghost predicate Subseq<T>(a: seq<T>, b: seq<T>)
  {
    if a == [] then true
    else if b == [] then false
    else if a[0] == b[0] then Subseq(a[1..], b[1..])
    else Subseq(a, b[1..])
  }

  lemma {:induction false} SubseqRefl<T>(a: seq<T>)
    ensures Subseq(a, a)
  {
    if a != [] {
      SubseqRefl(a[1..]);
    }
  }

  /** Filtering keeps exactly the elements that satisfy the predicate. */
  lemma {:induction false} FilterMembers<T>(xs: seq<T>, p: T -> bool, x: T)
    ensures x in Filter(xs, p) <==> x in xs && p(x)
  {
    if xs != [] {
      FilterMembers(xs[1..], p, x);
      assert xs == [xs[0]] + xs[1..];
    }
  }

  /** Filtering keeps the relative order of what it keeps. */
  lemma {:induction false} FilterIsSubseq<T>(xs: seq<T>, p: T -> bool)
    ensures Subseq(Filter(xs, p), xs)
  {
    if xs != [] {
      FilterIsSubseq(xs[1..], p);
      var r := Filter(xs[1..], p);
      if p(xs[0]) {
        assert Filter(xs, p) == [xs[0]] + r;
        assert ([xs[0]] + r)[1..] == r;
      } else {
        assert Filter(xs, p) == r;
        SubseqDropHead(r, xs);
      }
    }
  }

  lemma {:induction false} SubseqDropHead<T>(a: seq<T>, b: seq<T>)
    requires b != [] && Subseq(a, b[1..])
    ensures Subseq(a, b)
    decreases |a| + |b|
  {
    if a != [] && a[0] == b[0] {
      // a[0] matches b[0]: it suffices that a[1..] is a subsequence of b[1..]
      SubseqTail(a, b[1..]);
    }
  }

  lemma {:induction false} SubseqTail<T>(a: seq<T>, b: seq<T>)
    requires a != [] && Subseq(a, b)
    ensures Subseq(a[1..], b)
    decreases |a| + |b|
  {
    if b == [] {
    } else if a[0] == b[0] {
      SubseqDropHead(a[1..], b);
    } else {
      SubseqTail(a, b[1..]);
      SubseqDropHead(a[1..], b);
    }
  }

  /** Filtering keeps every copy of an element that passes and no copy of
      one that does not. */
  lemma {:induction false} FilterMultiset<T>(xs: seq<T>, p: T -> bool, x: T)
    ensures multiset(Filter(xs, p))[x] == if p(x) then multiset(xs)[x] else 0
  {
    if xs != [] {
      FilterMultiset(xs[1..], p, x);
      assert xs == [xs[0]] + xs[1..];
      assert multiset(xs) == multiset([xs[0]]) + multiset(xs[1..]);
      var head := if p(xs[0]) then [xs[0]] else [];
      assert multiset(Filter(xs, p)) == multiset(head) + multiset(Filter(xs[1..], p));
    }
  }

  /** Filtering distributes over concatenation. */
  lemma {:induction false} FilterAppend<T>(xs: seq<T>, ys: seq<T>, p: T -> bool)
    ensures Filter(xs + ys, p) == Filter(xs, p) + Filter(ys, p)
  {
    if xs != [] {
      assert (xs + ys)[1..] == xs[1..] + ys;
      FilterAppend(xs[1..], ys, p);
    } else {
      assert xs + ys == ys;
    }
  }

  /** Filtering keeps everything when everything satisfies the predicate. */
  lemma {:induction false} FilterAll<T>(xs: seq<T>, p: T -> bool)
    requires forall k :: 0 <= k < |xs| ==> p(xs[k])
    ensures Filter(xs, p) == xs
  {
    if xs != [] {
      FilterAll(xs[1..], p);
    }
  }

  /** Filtering twice by the same predicate is filtering once. */
  lemma {:induction false} FilterTwice<T>(xs: seq<T>, p: T -> bool)
    ensures Filter(Filter(xs, p), p) == Filter(xs, p)
  {
    if xs != [] {
      var r' := Filter(xs[1..], p);
      FilterTwice(xs[1..], p);
      if p(xs[0]) {
        var r := [xs[0]] + r';
        assert Filter(xs, p) == r;
        assert r[0] == xs[0] && r[1..] == r';
        assert Filter(r, p) == [xs[0]] + Filter(r', p);
      } else {
        assert Filter(xs, p) == [] + r';
        assert [] + r' == r';
      }
    }
  }

  /** A sequence none of whose elements pass filters to nothing. */
  lemma {:induction false} FilterNone<T>(xs: seq<T>, p: T -> bool)
    requires forall k :: 0 <= k < |xs| ==> !p(xs[k])
    ensures Filter(xs, p) == []
  {
    if xs != [] {
      FilterNone(xs[1..], p);
    }
  }

  /** The values of the `Some` candidates, in order: the source's
      `map(... => null | item).filter(item => item !== null)` and the
      `if (...) push(...)` loops over indexed sections. */
  function KeepSome<T>(xs: seq<Option<T>>): (r: seq<T>)
    ensures |r| <= |xs|
  {
    if xs == [] then []
    else (if xs[0].Some? then [xs[0].value] else []) + KeepSome(xs[1..])
  }

  /** One step of a loop that keeps the `Some` candidates: with `acc` kept so
      far and `[c] + rest` still to go, keeping `c` leaves `rest` to go. */
  lemma KeepSomeStep<T>(acc: seq<T>, c: Option<T>, rest: seq<Option<T>>, whole: seq<T>)
    requires acc + KeepSome([c] + rest) == whole
    ensures c.Some? ==> (acc + [c.value]) + KeepSome(rest) == whole
    ensures c.None? ==> acc + KeepSome(rest) == whole
  {
    assert ([c] + rest)[0] == c && ([c] + rest)[1..] == rest;
    if c.None? {
      assert KeepSome([c] + rest) == KeepSome(rest);
    } else {
      assert KeepSome([c] + rest) == [c.value] + KeepSome(rest);
    }
  }

  /** The positions of `xs` holding a `Some`, in increasing order. */
  function SomePositions<T>(xs: seq<Option<T>>): seq<nat>
  {
    PositionsFrom(xs, 0)
  }

  /** The positions of `xs` holding a `Some`, counted from `base`. */
  function PositionsFrom<T>(xs: seq<Option<T>>, base: nat): seq<nat>
    decreases |xs|
  {
    if xs == [] then []
    else (if xs[0].Some? then [base] else []) + PositionsFrom(xs[1..], base + 1)
  }

  /** The kept values are exactly the candidates at the `Some` positions: the
      positions strictly increase, every kept value comes from its position,
      and every `Some` position is among them. */
  lemma KeepSomeIndexed<T>(xs: seq<Option<T>>)
    ensures |SomePositions(xs)| == |KeepSome(xs)|
    ensures forall k :: 0 <= k < |SomePositions(xs)| ==>
      SomePositions(xs)[k] < |xs| && xs[SomePositions(xs)[k]] == Some(KeepSome(xs)[k])
    ensures forall k, l :: 0 <= k < l < |SomePositions(xs)| ==> SomePositions(xs)[k] < SomePositions(xs)[l]
    ensures forall i :: 0 <= i < |xs| && xs[i].Some? ==> i in SomePositions(xs)
  {
    var r, ps := KeepSome(xs), SomePositions(xs);
    PositionsHold(xs, 0);
    forall k | 0 <= k < |ps| ensures ps[k] < |xs| && xs[ps[k]] == Some(r[k]) {
      assert ps[k] - 0 == ps[k];
    }
    PositionsIncrease(xs, 0);
    assert Increasing(ps);
    PositionsComplete(xs, 0);
    forall i | 0 <= i < |xs| && xs[i].Some? ensures i in ps {
      assert 0 + i == i;
    }
  }

  lemma {:induction false} PositionsHold<T>(xs: seq<Option<T>>, base: nat)
    ensures var r, ps := KeepSome(xs), PositionsFrom(xs, base);
      |ps| == |r| && forall k :: 0 <= k < |ps| ==> base <= ps[k] < base + |xs| && xs[ps[k] - base] == Some(r[k])
    decreases |xs|
  {
    if xs != [] {
      var tl := xs[1..];
      PositionsHold(tl, base + 1);
      var r', ps' := KeepSome(tl), PositionsFrom(tl, base + 1);
      var r, ps := KeepSome(xs), PositionsFrom(xs, base);
      if xs[0].Some? {
        assert r == [xs[0].value] + r' && ps == [base] + ps';
        forall k | 1 <= k < |ps| ensures base <= ps[k] < base + |xs| && xs[ps[k] - base] == Some(r[k]) {
          assert ps[k] == ps'[k - 1] && r[k] == r'[k - 1];
          assert xs[ps[k] - base] == tl[ps'[k - 1] - (base + 1)];
        }
      } else {
        assert r == r' && ps == ps';
        forall k | 0 <= k < |ps| ensures base <= ps[k] < base + |xs| && xs[ps[k] - base] == Some(r[k]) {
          assert xs[ps[k] - base] == tl[ps'[k] - (base + 1)];
        }
      }
    }
  }

  predicate Increasing(ps: seq<nat>)
  {
    forall k, l :: 0 <= k < l < |ps| ==> ps[k] < ps[l]
  }

  lemma {:induction false} PositionsIncrease<T>(xs: seq<Option<T>>, base: nat)
    ensures forall k :: 0 <= k < |PositionsFrom(xs, base)| ==> base <= PositionsFrom(xs, base)[k]
    ensures Increasing(PositionsFrom(xs, base))
    decreases |xs|
  {
    if xs != [] {
      var tl := xs[1..];
      PositionsIncrease(tl, base + 1);
      var ps', ps := PositionsFrom(tl, base + 1), PositionsFrom(xs, base);
      assert forall k :: 0 <= k < |ps'| ==> base + 1 <= ps'[k];
      if xs[0].Some? {
        assert ps == [base] + ps';
        forall k | 0 <= k < |ps| ensures base <= ps[k] {
          if k > 0 { assert ps[k] == ps'[k - 1]; }
        }
        forall k, l | 0 <= k < l < |ps| ensures ps[k] < ps[l] {
          assert ps[l] == ps'[l - 1];
          assert base + 1 <= ps'[l - 1];
          if k > 0 {
            assert ps[k] == ps'[k - 1];
          }
        }
      } else {
        assert ps == ps';
      }
    }
  }

  lemma {:induction false} PositionsComplete<T>(xs: seq<Option<T>>, base: nat)
    ensures var ps := PositionsFrom(xs, base); forall i :: 0 <= i < |xs| && xs[i].Some? ==> base + i in ps
    decreases |xs|
  {
    if xs != [] {
      var tl := xs[1..];
      PositionsComplete(tl, base + 1);
      var ps', ps := PositionsFrom(tl, base + 1), PositionsFrom(xs, base);
      var head: seq<nat> := if xs[0].Some? then [base] else [];
      assert ps == head + ps';
      forall i | 0 <= i < |xs| && xs[i].Some? ensures base + i in ps {
        if i > 0 {
          assert tl[i - 1] == xs[i];
          assert base + 1 + (i - 1) in ps';
        }
      }
    }
  }

  /** `array.find(p)`: the first element satisfying `p`, if any. */
  function Find<T>(xs: seq<T>, p: T -> bool): (r: Option<T>)
    ensures r.Some? ==> exists k :: 0 <= k < |xs| && xs[k] == r.value && p(xs[k])
                                  && forall j :: 0 <= j < k ==> !p(xs[j])
    ensures r.None? ==> forall k :: 0 <= k < |xs| ==> !p(xs[k])
  {
    if xs == [] then None
    else if p(xs[0]) then Some(xs[0])
    else
      var r := Find(xs[1..], p);
      assert r.Some? ==> exists k :: 0 <= k < |xs| && xs[k] == r.value && p(xs[k])
                                  && forall j :: 0 <= j < k ==> !p(xs[j]) by {
        if r.Some? {
          var k :| 0 <= k < |xs[1..]| && xs[1..][k] == r.value && p(xs[1..][k])
                   && forall j :: 0 <= j < k ==> !p(xs[1..][j]);
          assert forall j :: 0 <= j < k + 1 ==> !p(xs[j]) by {
            forall j | 0 <= j < k + 1 ensures !p(xs[j]) {
              if j > 0 { assert xs[j] == xs[1..][j - 1]; }
            }
          }
        }
      }
      r
  }
}
