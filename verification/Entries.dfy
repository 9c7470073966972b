// The finite map that a sorted sequence of entries stands for.

/** Entry sequences as maps from key ranks. */
module Entries {
  import opened TreeShape

  /** Strictly ascending ranks. */
  ghost predicate Sorted(s: seq<Entry>) {
    forall i, j :: 0 <= i < j < |s| ==> s[i].key.rank < s[j].key.rank
  }

  ghost function AsMap(s: seq<Entry>): map<int, Entry> {
    if s == [] then map[] else AsMap(s[..|s| - 1])[s[|s| - 1].key.rank := s[|s| - 1]]
  }

  ghost predicate AllBelow(s: seq<Entry>, key: Key) {
    forall e <- s :: e.key.rank < key.rank
  }

  ghost predicate AllAbove(s: seq<Entry>, key: Key) {
    forall e <- s :: key.rank < e.key.rank
  }

  /** The map holds the entry. */
  ghost predicate Has(m: map<int, Entry>, e: Entry) { e.key.rank in m && m[e.key.rank] == e }

  lemma {:induction false} AsMapRanks(s: seq<Entry>)
    ensures forall r <- AsMap(s) :: AsMap(s)[r] in s && AsMap(s)[r].key.rank == r
    ensures forall e <- s :: e.key.rank in AsMap(s)
  {
    if s != [] {
      AsMapRanks(s[..|s| - 1]);
    }
  }

  lemma {:induction false} AsMapConcat(a: seq<Entry>, b: seq<Entry>)
    ensures AsMap(a + b) == AsMap(a) + AsMap(b)
  {
    if b == [] {
      assert a + b == a;
    } else {
      var n := |b| - 1;
      AsMapConcat(a, b[..n]);
      assert (a + b)[..|a + b| - 1] == a + b[..n];
    }
  }

  lemma AsMapAround(a: seq<Entry>, e: Entry, b: seq<Entry>)
    ensures AsMap(a + [e] + b) == AsMap(a) + map[e.key.rank := e] + AsMap(b)
  {
    AsMapConcat(a + [e], b);
    AsMapConcat(a, [e]);
  }

  lemma {:induction false} SizeIsLength(s: seq<Entry>)
    requires Sorted(s)
    ensures |AsMap(s)| == |s|
  {
    if s != [] {
      SizeIsLength(s[..|s| - 1]);
      AsMapRanks(s[..|s| - 1]);
    }
  }

  /** A map has one ascending sequence. */
  lemma {:induction false} SortedUnique(a: seq<Entry>, b: seq<Entry>)
    requires Sorted(a) && Sorted(b) && AsMap(a) == AsMap(b)
    ensures a == b
  {
    SizeIsLength(a);
    SizeIsLength(b);
    if a != [] {
      var n := |a| - 1;
      LastIsMost(a);
      LastIsMost(b);
      assert a[n] == b[n];
      SortedUnique(a[..n], b[..n]);
    }
  }

  lemma LastIsMost(s: seq<Entry>)
    requires Sorted(s) && s != []
    ensures var e := s[|s| - 1];
      && e.key.rank in AsMap(s) && AsMap(s)[e.key.rank] == e && (forall r <- AsMap(s) :: r <= e.key.rank)
      && AsMap(s[..|s| - 1]) == AsMap(s) - {e.key.rank}
  {
    var rest, e := s[..|s| - 1], s[|s| - 1];
    assert s == rest + [e];
    assert AsMap(s) == AsMap(rest)[e.key.rank := e];
    hide *;
    RestIsBelow(rest, e);
    LastOfMap(AsMap(rest), e.key.rank, e, AsMap(s));
  }

  lemma LastOfMap(m: map<int, Entry>, r: int, e: Entry, n: map<int, Entry>)
    requires n == m[r := e] && forall q <- m :: q < r
    ensures m == n - {r} && forall q <- n :: q <= r
  {
  }

  lemma RestIsBelow(rest: seq<Entry>, e: Entry)
    requires Sorted(rest + [e])
    ensures forall r <- AsMap(rest) :: r < e.key.rank
  {
    AsMapRanks(rest);
    forall r <- AsMap(rest)
      ensures r < e.key.rank
    {
      var k :| 0 <= k < |rest| && rest[k] == AsMap(rest)[r];
      assert (rest + [e])[k] == rest[k] && (rest + [e])[|rest|] == e;
    }
  }

  lemma SortedAround(a: seq<Entry>, e: Entry, b: seq<Entry>)
    ensures Sorted(a + [e] + b) <==> Sorted(a + b) && AllBelow(a, e.key) && AllAbove(b, e.key)
  {
    if Sorted(a + [e] + b) {
      SortedApart(a, e, b);
    }
    if Sorted(a + b) && AllBelow(a, e.key) && AllAbove(b, e.key) {
      SortedTogether(a, e, b);
    }
  }

  lemma SortedApart(a: seq<Entry>, e: Entry, b: seq<Entry>)
    requires Sorted(a + [e] + b)
    ensures Sorted(a + b) && AllBelow(a, e.key) && AllAbove(b, e.key)
  {
    var s, t := a + [e] + b, a + b;
    assert forall i | 0 <= i < |t| :: t[i] == s[if i < |a| then i else i + 1];
    assert s[|a|] == e;
    assert forall i | 0 <= i < |a| :: a[i] == s[i];
    assert forall i | 0 <= i < |b| :: b[i] == s[|a| + 1 + i];
  }

  lemma SortedTogether(a: seq<Entry>, e: Entry, b: seq<Entry>)
    requires Sorted(a + b) && AllBelow(a, e.key) && AllAbove(b, e.key)
    ensures Sorted(a + [e] + b)
  {
    var s, t := a + [e] + b, a + b;
    assert forall i | 0 <= i < |s| && i != |a| :: s[i] == t[if i < |a| then i else i - 1];
    assert s[|a|] == e;
    forall i, j | 0 <= i < j < |s|
      ensures s[i].key.rank < s[j].key.rank
    {
      if i == |a| {
        assert s[j] == b[j - |a| - 1];
      } else if j == |a| {
        assert s[i] == a[i];
      }
    }
  }

  /** An entry put between smaller and larger ones. */
  lemma Inserted(a: seq<Entry>, e: Entry, b: seq<Entry>)
    requires Sorted(a + b) && AllBelow(a, e.key) && AllAbove(b, e.key)
    ensures Sorted(a + [e] + b) && e.key.rank !in AsMap(a + b)
    ensures AsMap(a + [e] + b) == AsMap(a + b)[e.key.rank := e]
  {
    SortedAround(a, e, b);
    AsMapAround(a, e, b);
    AsMapConcat(a, b);
    AsMapRanks(a);
    AsMapRanks(b);
  }

  /** An entry whose key compares equal takes the place of the old one. */
  lemma Replaced(a: seq<Entry>, e0: Entry, e: Entry, b: seq<Entry>)
    requires Sorted(a + [e0] + b) && e.key.rank == e0.key.rank
    ensures Sorted(a + [e] + b) && e.key.rank in AsMap(a + [e0] + b)
    ensures AsMap(a + [e0] + b)[e.key.rank] == e0
    ensures AsMap(a + [e] + b) == AsMap(a + [e0] + b)[e.key.rank := e]
  {
    SortedAround(a, e0, b);
    SortedAround(a, e, b);
    AsMapAround(a, e0, b);
    AsMapAround(a, e, b);
    AsMapRanks(b);
  }

  lemma Removed(a: seq<Entry>, e: Entry, b: seq<Entry>)
    requires Sorted(a + [e] + b)
    ensures Sorted(a + b) && e.key.rank in AsMap(a + [e] + b)
    ensures AsMap(a + b) == AsMap(a + [e] + b) - {e.key.rank}
  {
    SortedAround(a, e, b);
    AsMapAround(a, e, b);
    AsMapConcat(a, b);
    AsMapRanks(a);
    AsMapRanks(b);
  }

  /** Nothing between the smaller and the larger entries: the key is absent. */
  lemma Absent(a: seq<Entry>, b: seq<Entry>, key: Key)
    requires AllBelow(a, key) && AllAbove(b, key)
    ensures key.rank !in AsMap(a + b)
  {
    AsMapConcat(a, b);
    AsMapRanks(a);
    AsMapRanks(b);
  }

  /** Bounds for a search that turns left or right at `i`. */
  lemma Narrowed(a: seq<Entry>, l: seq<Entry>, i: Entry, r: seq<Entry>, b: seq<Entry>, key: Key)
    requires Sorted((a + l) + [i] + (r + b)) && AllBelow(a, key) && AllAbove(b, key)
    ensures key.rank < i.key.rank ==> AllAbove([i] + r + b, key)
    ensures key.rank > i.key.rank ==> AllBelow(a + l + [i], key)
  {
    SortedAround(a + l, i, r + b);
    if key.rank < i.key.rank {
      forall e <- [i] + r + b ensures key.rank < e.key.rank {
        assert e == i || e in r + b;
      }
    }
    if key.rank > i.key.rank {
      forall e <- a + l + [i] ensures e.key.rank < key.rank {
        assert e == i || e in a + l;
      }
    }
  }

  lemma InsertedSize(m: map<int, Entry>, r: int, e: Entry)
    ensures |m[r := e]| == |m| + if r in m then 0 else 1
  {
    assert m[r := e].Keys == m.Keys + {r};
  }

  lemma RemovedSize(m: map<int, Entry>, r: int)
    ensures |m - {r}| == |m| - if r in m then 1 else 0
    ensures r !in m ==> m - {r} == m
  {
    if r in m {
      assert m == (m - {r})[r := m[r]];
    } else {
      assert m - {r} == m;
    }
  }

  // ----- the listing of a map -----

  /** The ascending sequence of a map's entries. */
  ghost function Listing(m: map<int, Entry>): seq<Entry> {
    if exists s :: Sorted(s) && AsMap(s) == m then
      var s :| Sorted(s) && AsMap(s) == m;
      s
    else []
  }

  lemma ListingIs(s: seq<Entry>)
    requires Sorted(s)
    ensures Listing(AsMap(s)) == s
  {
    var t := Listing(AsMap(s));
    assert Sorted(t) && AsMap(t) == AsMap(s);
    SortedUnique(s, t);
  }
}
