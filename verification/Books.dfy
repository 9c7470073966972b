// What goes into a tree and what comes out again.

/** The pairs of a map as a multiset, and sums of ranks that tell multisets apart. */
module Books {
  import opened TreeShape
  import opened Entries

  /** Every entry is under the rank of its key. */
  ghost predicate WellKeyed(m: map<int, Entry>) { forall r <- m :: m[r].key.rank == r }

  /** The pairs that a map holds. */
  ghost function Pairs(m: map<int, Entry>): multiset<Entry> { multiset(set r | r in m :: m[r]) }

  lemma PairsWithout(m: map<int, Entry>, r: int)
    requires WellKeyed(m) && r in m
    ensures WellKeyed(m - {r}) && Pairs(m) == Pairs(m - {r}) + multiset{m[r]}
  {
    var a, b := set q | q in m :: m[q], set q | q in m - {r} :: m[q];
    assert m[r] in a && m[r] !in b;
    assert a == b + {m[r]} by {
      forall e <- a
        ensures e in b + {m[r]}
      {
        assert e.key.rank in m && m[e.key.rank] == e;
        assert e.key.rank != r ==> (m - {r})[e.key.rank] == e;
      }
    }
  }

  lemma PairsWith(m: map<int, Entry>, e: Entry)
    requires WellKeyed(m)
    ensures var r, n := e.key.rank, m[e.key.rank := e];
      && WellKeyed(n)
      && Pairs(n) + (if r in m then multiset{m[r]} else multiset{}) == Pairs(m) + multiset{e}
  {
    var r, n := e.key.rank, m[e.key.rank := e];
    PairsWithout(n, r);
    if r in m {
      PairsWithout(m, r);
      assert n - {r} == m - {r};
    } else {
      assert n - {r} == m;
    }
  }

  lemma {:induction false} PairsOfListing(s: seq<Entry>)
    requires Sorted(s)
    ensures WellKeyed(AsMap(s)) && Pairs(AsMap(s)) == multiset(s)
  {
    AsMapRanks(s);
    if s == [] {
      assert AsMap(s) == map[];
    } else {
      var n := |s| - 1;
      LastIsMost(s);
      PairsOfListing(s[..n]);
      PairsWithout(AsMap(s), s[n].key.rank);
      assert s == s[..n] + [s[n]];
    }
  }

  ghost function AnyOf(p: multiset<Entry>): Entry
    requires p != multiset{}
  {
    var e :| e in p;
    e
  }

  ghost function RankSum(p: multiset<Entry>): int {
    if p == multiset{} then 0 else AnyOf(p).key.rank + RankSum(p - multiset{AnyOf(p)})
  }

  lemma EitherOrder(p: multiset<Entry>, d: Entry, e: Entry)
    requires d in p && e in p && d != e
    ensures d in p - multiset{e} && e in p - multiset{d}
    ensures (p - multiset{d}) - multiset{e} == (p - multiset{e}) - multiset{d}
  {
  }

  lemma RankSumIs(p: multiset<Entry>)
    requires p != multiset{}
    ensures RankSum(p) == AnyOf(p).key.rank + RankSum(p - multiset{AnyOf(p)})
  {
  }

  lemma {:induction false} RankSumWithout(p: multiset<Entry>, e: Entry)
    requires e in p
    ensures RankSum(p) == e.key.rank + RankSum(p - multiset{e})
    decreases p
  {
    hide RankSum;
    var d := AnyOf(p);
    hide AnyOf;
    RankSumIs(p);
    if d != e {
      EitherOrder(p, d, e);
      RankSumWithout(p - multiset{d}, e);
      RankSumWithout(p - multiset{e}, d);
    }
  }

  lemma {:induction false} RankSumTogether(p: multiset<Entry>, q: multiset<Entry>)
    ensures RankSum(p + q) == RankSum(p) + RankSum(q)
    decreases q
  {
    if q == multiset{} {
      assert p + q == p;
    } else {
      var e :| e in q;
      RankSumTogether(p, q - multiset{e});
      RankSumWithout(q, e);
      RankSumWithout(p + q, e);
      assert p + q - multiset{e} == p + (q - multiset{e});
    }
  }

  /** The books: while nothing went wrong, what was put in was destroyed or is still held; afterwards the ranks put in
      outweigh the others for good. */
  ghost predicate Kept(put: multiset<Entry>, destroyed: multiset<Entry>, held: multiset<Entry>, wrong: bool) {
    if wrong then RankSum(destroyed) + RankSum(held) < RankSum(put) else put == destroyed + held
  }

  lemma KeptOn(put: multiset<Entry>, destroyed: multiset<Entry>, held: multiset<Entry>, wrong: bool,
               more: multiset<Entry>, gone: multiset<Entry>, held': multiset<Entry>)
    requires Kept(put, destroyed, held, wrong) && more + held == gone + held'
    ensures Kept(put + more, destroyed + gone, held', wrong)
  {
    RankSumTogether(put, more);
    RankSumTogether(destroyed, gone);
    RankSumTogether(more, held);
    RankSumTogether(gone, held');
    hide RankSum;
    assert !wrong ==> put + more == destroyed + (more + held);
  }

  lemma KeptWrongly(put: multiset<Entry>, destroyed: multiset<Entry>, held: multiset<Entry>, wrong: bool,
                    gone: Entry, removed: Entry, held': multiset<Entry>)
    requires Kept(put, destroyed, held, wrong) && held == held' + multiset{removed} && gone.key.rank < removed.key.rank
    ensures Kept(put, destroyed + multiset{gone}, held', true)
  {
    RankSumTogether(destroyed, multiset{gone});
    RankSumTogether(held', multiset{removed});
    RankSumTogether(destroyed, held);
    RankSumWithout(multiset{gone}, gone);
    RankSumWithout(multiset{removed}, removed);
  }

  /** The books balance if and only if nothing went wrong. */
  lemma KeptIff(put: multiset<Entry>, destroyed: multiset<Entry>, held: multiset<Entry>, wrong: bool)
    requires Kept(put, destroyed, held, wrong)
    ensures put == destroyed + held <==> !wrong
  {
    RankSumTogether(destroyed, held);
  }
}
