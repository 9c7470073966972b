// Threads that take steps in turn: what they pass through, and counting them by what they are doing.

module Threads {
  datatype Tid = Thread(number: int)

  /** `states` are what is passed through when thread `steps[i].0` takes step `steps[i].1`; `goes` says what a step
      does. */
  ghost predicate Leads<S, E>(states: seq<S>, steps: seq<(Tid, E)>, goes: (S, Tid, E, S) -> bool) {
    && |states| == |steps| + 1
    && forall i :: 0 <= i < |steps| ==> goes(states[i], steps[i].0, steps[i].1, states[i + 1])
  }

  /** One more step at the end. */
  lemma LeadsOn<S, E>(states: seq<S>, steps: seq<(Tid, E)>, goes: (S, Tid, E, S) -> bool, t: Tid, e: E, s: S)
    requires Leads(states, steps, goes) && goes(states[|steps|], t, e, s)
    ensures Leads(states + [s], steps + [(t, e)], goes)
  {
    var more, n := states + [s], steps + [(t, e)];
    forall i | 0 <= i < |n|
      ensures goes(more[i], n[i].0, n[i].1, more[i + 1])
    {
      assert more[i] == states[i];
      if i < |steps| {
        assert n[i] == steps[i] && more[i + 1] == states[i + 1];
      }
    }
  }

  /** One more step at the beginning. */
  lemma LeadsFrom<S, E>(s: S, t: Tid, e: E, states: seq<S>, steps: seq<(Tid, E)>, goes: (S, Tid, E, S) -> bool)
    requires Leads(states, steps, goes) && goes(s, t, e, states[0])
    ensures Leads([s] + states, [(t, e)] + steps, goes)
  {
    var more, n := [s] + states, [(t, e)] + steps;
    forall i | 0 <= i < |n|
      ensures goes(more[i], n[i].0, n[i].1, more[i + 1])
    {
      if i > 0 {
        assert more[i] == states[i - 1] && n[i] == steps[i - 1];
      }
    }
  }

  /** The threads whose state satisfies `f`. */
  function Having<P>(pc: map<Tid, P>, f: P -> bool): set<Tid> {
    set t | t in pc && f(pc[t])
  }

  lemma HavingMoved<P>(pc: map<Tid, P>, t: Tid, p: P, f: P -> bool)
    requires t in pc
    ensures Having(pc[t := p], f) == if f(p) then Having(pc, f) + {t} else Having(pc, f) - {t}
    ensures |Having(pc[t := p], f)| == |Having(pc, f)| + (if f(p) then 1 else 0) - (if f(pc[t]) then 1 else 0)
  {
    var a, b := Having(pc, f), Having(pc[t := p], f);
    assert b == if f(p) then a + {t} else a - {t};
    assert t in a <==> f(pc[t]);
  }

  /** A thread left out makes the bound strict. */
  lemma HavingOthers<P>(pc: map<Tid, P>, f: P -> bool, t: Tid)
    requires t in pc && !f(pc[t])
    ensures |Having(pc, f)| < |pc.Keys|
  {
    Subset(Having(pc, f), pc.Keys - {t});
  }

  lemma {:induction false} Subset<T>(a: set<T>, b: set<T>)
    requires a <= b
    ensures |a| <= |b|
  {
    if a != {} {
      var x :| x in a;
      Subset(a - {x}, b - {x});
    }
  }

  lemma Someone<T>(a: set<T>) returns (x: T)
    requires a != {}
    ensures x in a
  {
    x :| x in a;
  }

  lemma OnlyOne(a: set<Tid>, t: Tid, u: Tid)
    requires |a| <= 1 && t in a && u in a
    ensures t == u
  {
    Subset({t, u}, a);
  }
}
