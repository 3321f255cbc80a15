/** The checkpoint object of chain/ckpt.go: sorted, checksummed sections, and the maps they are read back into. */
module Checkpoint {
  // ----- a map as the list of its entries in key order -----

  ghost predicate Increasing<K, V>(es: seq<(K, V)>, rank: K -> nat) {
    forall i, j :: 0 <= i < j < |es| ==> rank(es[i].0) < rank(es[j].0)
  }

  /** The entries of m, each once, by increasing key. */
  ghost predicate Lists<K, V>(es: seq<(K, V)>, m: map<K, V>, rank: K -> nat) {
    && Increasing(es, rank)
    && (forall e :: e in es ==> e.0 in m && m[e.0] == e.1)
    && (forall k :: k in m ==> (k, m[k]) in es)
  }

  function Inserted<K, V>(es: seq<(K, V)>): map<K, V> {
    if es == [] then map[] else Inserted(es[..|es| - 1])[es[|es| - 1].0 := es[|es| - 1].1]
  }

  lemma {:induction false} InsertedKeys<K, V>(es: seq<(K, V)>, k: K)
    ensures k in Inserted(es) <==> exists i :: 0 <= i < |es| && es[i].0 == k
  {
    if es != [] {
      InsertedKeys(es[..|es| - 1], k);
      assert forall i :: 0 <= i < |es| - 1 ==> es[..|es| - 1][i] == es[i];
    }
  }

  lemma {:induction false} InsertedAt<K, V>(es: seq<(K, V)>, rank: K -> nat, i: nat)
    requires Increasing(es, rank) && i < |es|
    ensures es[i].0 in Inserted(es) && Inserted(es)[es[i].0] == es[i].1
  {
    var init := es[..|es| - 1];
    if i < |es| - 1 {
      InsertedAt(init, rank, i);
      assert init[i] == es[i] && rank(es[i].0) < rank(es[|es| - 1].0);
    }
  }

  /** Reading the entries back one by one gives the map they were listed from. */
  lemma ListingRestores<K, V>(es: seq<(K, V)>, m: map<K, V>, rank: K -> nat)
    requires Lists(es, m, rank)
    ensures Inserted(es) == m
  {
    var back := Inserted(es);
    forall k | k in back ensures k in m {
      InsertedKeys(es, k);
    }
    forall k | k in m ensures k in back {
      InsertedKeys(es, k);
      var i :| 0 <= i < |es| && es[i] == (k, m[k]);
    }
    forall k | k in m ensures back[k] == m[k] {
      var i :| 0 <= i < |es| && es[i] == (k, m[k]);
      InsertedAt(es, rank, i);
    }
  }

  /** There is one listing: the order a map is iterated in leaves no trace. */
  lemma {:induction false} OneListing<K, V>(a: seq<(K, V)>, b: seq<(K, V)>, m: map<K, V>, rank: K -> nat)
    requires Lists(a, m, rank) && Lists(b, m, rank)
    ensures a == b
  {
    SameAt(a, b, m, rank, |a|);
    SameAt(b, a, m, rank, |b|);
  }

  lemma {:induction false} SameAt<K, V>(a: seq<(K, V)>, b: seq<(K, V)>, m: map<K, V>, rank: K -> nat, n: nat)
    requires Lists(a, m, rank) && Lists(b, m, rank) && n <= |a|
    ensures n <= |b| && a[..n] == b[..n]
  {
    hide Lists;
    if n > 0 {
      SameAt(a, b, m, rank, n - 1);
      SameNext(a, b, m, rank, n - 1);
      assert a[..n] == a[..n - 1] + [a[n - 1]] && b[..n] == b[..n - 1] + [b[n - 1]];
    }
  }

  /** Listings that agree on their first n entries agree on the next. */
  lemma SameNext<K, V>(a: seq<(K, V)>, b: seq<(K, V)>, m: map<K, V>, rank: K -> nat, n: nat)
    requires Lists(a, m, rank) && Lists(b, m, rank) && n < |a| && n <= |b| && a[..n] == b[..n]
    ensures n < |b| && a[n] == b[n]
  {
    hide Lists;
    var i := NextIn(a, b, m, rank, n);
    var j := NextIn(b, a, m, rank, n);
  }

  /** The next entry of a stands in b too, at n or later. */
  lemma NextIn<K, V>(a: seq<(K, V)>, b: seq<(K, V)>, m: map<K, V>, rank: K -> nat, n: nat) returns (i: nat)
    requires Lists(a, m, rank) && Lists(b, m, rank) && n < |a| && n <= |b| && a[..n] == b[..n]
    ensures n <= i < |b| && b[i] == a[n]
    ensures n < i ==> rank(b[n].0) < rank(a[n].0)
  {
    hide Increasing;
    assert a[n] in a;
    i := Position(b, m, rank, a[n]);
    if i < n {
      assert b[i] == b[..n][i] == a[..n][i] == a[i];
      Apart(a, rank, i, n);
    } else if n < i {
      Apart(b, rank, n, i);
    }
  }

  lemma Apart<K, V>(es: seq<(K, V)>, rank: K -> nat, i: nat, j: nat)
    requires Increasing(es, rank) && i < j < |es|
    ensures rank(es[i].0) < rank(es[j].0)
  {
  }

  lemma Position<K, V>(es: seq<(K, V)>, m: map<K, V>, rank: K -> nat, e: (K, V)) returns (i: nat)
    requires Lists(es, m, rank) && e.0 in m && m[e.0] == e.1
    ensures i < |es| && es[i] == e
  {
    assert (e.0, m[e.0]) in es;
    i :| i < |es| && es[i] == e;
  }

  /** Sorted(maps.Keys(m)) and the lookups that follow it: keys arrive in any order and leave by rank. */
  method SortedEntries<K(==), V>(m: map<K, V>, rank: K -> nat) returns (es: seq<(K, V)>)
    requires forall a, b :: a in m && b in m && rank(a) == rank(b) ==> a == b
    ensures Lists(es, m, rank)
  {
    es := [];
    var rest := m.Keys;
    while rest != {}
      invariant rest <= m.Keys
      invariant Increasing(es, rank)
      invariant forall e :: e in es ==> e.0 in m && e.0 !in rest && m[e.0] == e.1
      invariant forall k :: k in m && k !in rest ==> (k, m[k]) in es
      decreases |rest|
    {
      var k :| k in rest;
      rest := rest - {k};
      es := InsertByRank(es, (k, m[k]), rank);
    }
  }

  method InsertByRank<K, V>(es: seq<(K, V)>, e: (K, V), rank: K -> nat) returns (out: seq<(K, V)>)
    requires Increasing(es, rank) && forall x :: x in es ==> rank(x.0) != rank(e.0)
    ensures Increasing(out, rank)
    ensures forall x :: x in out <==> x in es || x == e
  {
    var i := |es|;
    while i > 0 && rank(es[i - 1].0) > rank(e.0)
      invariant 0 <= i <= |es|
      invariant forall j :: i <= j < |es| ==> rank(es[j].0) > rank(e.0)
    {
      i := i - 1;
    }
    out := es[..i] + [e] + es[i..];
    InsertKeeps(es, i, e, rank);
  }

  lemma InsertKeeps<K, V>(es: seq<(K, V)>, i: nat, e: (K, V), rank: K -> nat)
    requires Increasing(es, rank) && i <= |es|
    requires i > 0 ==> rank(es[i - 1].0) < rank(e.0)
    requires forall j :: i <= j < |es| ==> rank(es[j].0) > rank(e.0)
    ensures var out := es[..i] + [e] + es[i..];
            Increasing(out, rank) && forall x :: x in out <==> x in es || x == e
  {
    var out := es[..i] + [e] + es[i..];
    InsertOrdered(es, i, e, rank);
    assert out[i] == e;
    forall x | x in es ensures x in out {
      var j :| 0 <= j < |es| && es[j] == x;
      assert out[if j < i then j else j + 1] == x;
    }
  }

  lemma InsertOrdered<K, V>(es: seq<(K, V)>, i: nat, e: (K, V), rank: K -> nat)
    requires Increasing(es, rank) && i <= |es|
    requires i > 0 ==> rank(es[i - 1].0) < rank(e.0)
    requires forall j :: i <= j < |es| ==> rank(es[j].0) > rank(e.0)
    ensures Increasing(es[..i] + [e] + es[i..], rank)
  {
    var out := es[..i] + [e] + es[i..];
    forall j, k | 0 <= j < k < |out| ensures rank(out[j].0) < rank(out[k].0) {
      hide Increasing;
      if j < i - 1 {
        Apart(es, rank, j, i - 1);
      }
      if k < i {
        Apart(es, rank, j, k);
      } else if i < j {
        Apart(es, rank, j - 1, k - 1);
      }
    }
  }
}
