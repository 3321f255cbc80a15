/** The bounded min-heap of serve/traverse.go, as a multiset of hits with the least one at the root. */
module TopHeap {
  import opened Bytes
  import opened Ranking

  function Parent(i: nat): nat
    requires i > 0
  {
    (i - 1) / 2
  }

  /** Every slot but the given one is no smaller than its parent. */
  ghost predicate OrderedExcept(hits: seq<Hit>, hole: int) {
    forall i :: 0 < i < |hits| && i != hole ==> hits[Parent(i)].score <= hits[i].score
  }

  ghost predicate Ordered(hits: seq<Hit>) {
    OrderedExcept(hits, -1)
  }

  lemma {:induction false} RootIsLeast(hits: seq<Hit>, i: nat)
    requires Ordered(hits) && i < |hits|
    ensures hits[0].score <= hits[i].score
  {
    if i > 0 {
      RootIsLeast(hits, Parent(i));
    }
  }

  lemma Children(i: nat)
    ensures Parent(2 * i + 1) == i && Parent(2 * i + 2) == i
    ensures forall c: nat :: c > 0 && Parent(c) == i ==> c == 2 * i + 1 || c == 2 * i + 2
    ensures forall c: nat :: c > 0 ==> Parent(c) < c
  {
  }

  /** The threshold of a heap bounded at k. */
  function Floor(hits: seq<Hit>, k: nat): nat
    requires k >= 1
  {
    if |hits| < k then 0 else hits[0].score
  }

  lemma FloorIsLeast(hits: seq<Hit>, k: nat, h: Hit)
    requires k >= 1 && Ordered(hits) && h in hits
    ensures Floor(hits, k) <= h.score
  {
    var i :| 0 <= i < |hits| && hits[i] == h;
    RootIsLeast(hits, i);
  }

  /** What offering a hit to a bounded heap may do to it. */
  ghost predicate Offered(hits: seq<Hit>, hits': seq<Hit>, k: nat, h: Hit)
    requires k >= 1
  {
    if |hits| < k then multiset(hits') == multiset(hits) + multiset{h}
    else if h.score <= hits[0].score then hits' == hits
    else multiset(hits') == multiset(hits) - multiset{hits[0]} + multiset{h}
  }

  function Swap(hits: seq<Hit>, i: nat, j: nat): (s: seq<Hit>)
    requires i < |hits| && j < |hits|
    ensures |s| == |hits| && s[i] == hits[j] && s[j] == hits[i]
    ensures forall m :: 0 <= m < |hits| && m != i && m != j ==> s[m] == hits[m]
    ensures multiset(s) == multiset(hits)
  {
    hits[i := hits[j]][j := hits[i]]
  }

  /** Sifting down at i: only i may be larger than its children, and they are no smaller than i's parent. */
  ghost predicate Sinking(hits: seq<Hit>, i: nat) {
    && (forall c :: 0 < c < |hits| && Parent(c) != i ==> hits[Parent(c)].score <= hits[c].score)
    && (forall c :: 0 < c < |hits| && Parent(c) == i && i > 0 ==> hits[Parent(i)].score <= hits[c].score)
  }

  lemma SinkEnds(hits: seq<Hit>, i: nat)
    requires Sinking(hits, i) && i < |hits|
    requires 2 * i + 1 < |hits| ==> hits[i].score <= hits[2 * i + 1].score
    requires 2 * i + 2 < |hits| ==> hits[i].score <= hits[2 * i + 2].score
    ensures Ordered(hits)
  {
    Children(i);
  }

  lemma SinkStep(hits: seq<Hit>, i: nat, m: nat)
    requires Sinking(hits, i) && i < m < |hits| && Parent(m) == i && hits[m].score < hits[i].score
    requires 2 * i + 1 < |hits| ==> hits[m].score <= hits[2 * i + 1].score
    requires 2 * i + 2 < |hits| ==> hits[m].score <= hits[2 * i + 2].score
    ensures Sinking(Swap(hits, i, m), m)
  {
    hide Swap;
    var s := Swap(hits, i, m);
    Children(i);
    Children(m);
    forall c | 0 < c < |s| && Parent(c) != m ensures s[Parent(c)].score <= s[c].score {
      if Parent(c) == i {
        assert c == 2 * i + 1 || c == 2 * i + 2;
      } else if c == i {
        assert hits[Parent(i)].score <= hits[m].score;
      } else {
        assert c != m && Parent(c) != m;
      }
    }
    forall c | 0 < c < |s| && Parent(c) == m && m > 0 ensures s[Parent(m)].score <= s[c].score {
      assert hits[Parent(c)].score <= hits[c].score && c != m && c != i;
    }
  }

  /** Sifting up at i: only i may be smaller than its parent, and its children are no smaller than that parent. */
  ghost predicate Rising(hits: seq<Hit>, i: nat) {
    && OrderedExcept(hits, i)
    && (forall c :: 0 < c < |hits| && Parent(c) == i && i > 0 ==> hits[Parent(i)].score <= hits[c].score)
  }

  lemma RiseStarts(hits: seq<Hit>)
    requires hits != [] && OrderedExcept(hits, |hits| - 1)
    ensures Rising(hits, |hits| - 1)
  {
    Children(|hits| - 1);
  }

  lemma RiseStep(hits: seq<Hit>, i: nat)
    requires Rising(hits, i) && 0 < i < |hits| && hits[Parent(i)].score > hits[i].score
    ensures Rising(Swap(hits, Parent(i), i), Parent(i))
  {
    var p, s := Parent(i), Swap(hits, Parent(i), i);
    Children(i);
    Children(p);
    forall c | 0 < c < |s| && c != p ensures s[Parent(c)].score <= s[c].score {
      if Parent(c) == p && c != i {
        assert hits[p].score <= hits[c].score;
      } else if Parent(c) == i {
        assert hits[Parent(i)].score <= hits[c].score;
      }
    }
    forall c | 0 < c < |s| && Parent(c) == p && p > 0 ensures s[Parent(p)].score <= s[c].score {
      assert hits[Parent(p)].score <= hits[p].score && (c != i ==> hits[p].score <= hits[c].score);
    }
  }

  lemma RiseEnds(hits: seq<Hit>, i: nat)
    requires Rising(hits, i) && i < |hits| && (i > 0 ==> hits[Parent(i)].score <= hits[i].score)
    ensures Ordered(hits)
  {
  }

  class Heap {
    const k: nat
    var hits: seq<Hit>

    ghost predicate Valid()
      reads this
    {
      k >= 1 && |hits| <= k && Ordered(hits)
    }

    constructor (k: nat)
      requires k >= 1
      ensures Valid() && this.k == k && hits == []
    {
      this.k := k;
      hits := [];
    }

    /** Floor of the hits: no document that scores at most this changes the result. */
    method Threshold() returns (theta: nat)
      requires Valid()
      ensures theta == Floor(hits, k)
    {
      if |hits| < k {
        return 0;
      }
      theta := hits[0].score;
    }

    /** The sift-up loop of offer. */
    method SiftUp()
      requires k >= 1 && 1 <= |hits| <= k && OrderedExcept(hits, |hits| - 1)
      modifies this`hits
      ensures Valid() && multiset(hits) == old(multiset(hits)) && |hits| == old(|hits|)
    {
      hide OrderedExcept, Rising, Swap;
      var i: nat := |hits| - 1;
      RiseStarts(hits);
      while i > 0
        invariant i < |hits| && |hits| == old(|hits|) && Rising(hits, i)
        invariant multiset(hits) == old(multiset(hits))
      {
        var p := Parent(i);
        if hits[p].score <= hits[i].score {
          break;
        }
        RiseStep(hits, i);
        hits := Swap(hits, p, i);
        i := p;
      }
      RiseEnds(hits, i);
    }

    /** The sift-down loop of offer. */
    method SiftDown()
      requires k >= 1 && 1 <= |hits| <= k && Sinking(hits, 0)
      modifies this`hits
      ensures Valid() && multiset(hits) == old(multiset(hits)) && |hits| == old(|hits|)
    {
      hide Sinking, Swap, OrderedExcept;
      var i := 0;
      while true
        invariant 0 <= i < |hits| && |hits| == old(|hits|)
        invariant Sinking(hits, i)
        invariant multiset(hits) == old(multiset(hits))
        decreases |hits| - i
      {
        var l, r := 2 * i + 1, 2 * i + 2;
        var m := i;
        if l < |hits| && hits[l].score < hits[m].score {
          m := l;
        }
        if r < |hits| && hits[r].score < hits[m].score {
          m := r;
        }
        if m == i {
          SinkEnds(hits, i);
          break;
        }
        SinkStep(hits, i, m);
        hits := Swap(hits, i, m);
        i := m;
      }
    }

    /** serve/traverse.go offer: keeps the best k of what was held and the new hit. */
    method Offer(d: u32, s: nat)
      requires Valid()
      modifies this`hits
      ensures Valid()
      ensures Offered(old(hits), hits, k, Hit(d, s))
      ensures |hits| == if old(|hits|) < k then old(|hits|) + 1 else k
    {
      if |hits| < k {
        hits := hits + [Hit(d, s)];
        SiftUp();
        return;
      }
      if s <= hits[0].score {
        return;
      }
      ghost var before := hits;
      assert before == [before[0]] + before[1..];
      hits := hits[0 := Hit(d, s)];
      assert Sinking(hits, 0);
      assert hits == [Hit(d, s)] + before[1..];
      assert multiset(hits) == multiset(before) - multiset{before[0]} + multiset{Hit(d, s)};
      SiftDown();
    }

    /** sorted: score descending, docid ascending. The library sort stands here as an insertion sort. */
    method Sorted() returns (out: seq<Hit>)
      ensures multiset(out) == multiset(hits) && |out| == |hits| && Canonical(out)
    {
      out := [];
      for i := 0 to |hits|
        invariant |out| == i && multiset(out) == multiset(hits[..i]) && Canonical(out)
      {
        assert hits[..i + 1] == hits[..i] + [hits[i]];
        out := Insert(out, hits[i]);
      }
      assert hits[..|hits|] == hits;
    }
  }

  method Insert(sorted: seq<Hit>, h: Hit) returns (out: seq<Hit>)
    requires Canonical(sorted)
    ensures Canonical(out) && multiset(out) == multiset(sorted) + multiset{h} && |out| == |sorted| + 1
  {
    var i: nat := |sorted|;
    while i > 0 && !Before(sorted[i - 1], h)
      invariant i <= |sorted|
      invariant forall j :: i <= j < |sorted| ==> Before(h, sorted[j])
    {
      i := i - 1;
    }
    out := sorted[..i] + [h] + sorted[i..];
    assert sorted == sorted[..i] + sorted[i..];
    InsertKeeps(sorted, i, h);
  }

  lemma InOrder(hits: seq<Hit>, i: nat, j: nat)
    requires Canonical(hits) && i < j < |hits|
    ensures Before(hits[i], hits[j])
  {
  }

  lemma InsertKeeps(sorted: seq<Hit>, i: nat, h: Hit)
    requires Canonical(sorted) && i <= |sorted| && (i > 0 ==> Before(sorted[i - 1], h))
    requires forall j :: i <= j < |sorted| ==> Before(h, sorted[j])
    ensures Canonical(sorted[..i] + [h] + sorted[i..])
  {
    var out := sorted[..i] + [h] + sorted[i..];
    forall a, b | 0 <= a < b < |out| ensures Before(out[a], out[b]) {
      hide Canonical;
      if b < i {
        InOrder(sorted, a, b);
      } else if b == i {
        if a < i - 1 {
          InOrder(sorted, a, i - 1);
        }
      } else if a > i {
        InOrder(sorted, a - 1, b - 1);
      } else if a < i {
        InOrder(sorted, a, b - 1);
      }
    }
  }
}
