// The condition variable that plibsys/src/pcondvariable-win.c emulates on Windows XP: a count of waiters,
// changed under the caller's mutex, and a semaphore to block on.

module CondVariableXP {
  import opened Threads

  /** A thread is blocked from counting itself as a waiter until its wait on the semaphore ends. */
  datatype Phase = Running | Blocked

  datatype State = State(waiters: int, permits: nat, pc: map<Tid, Phase>)

  /** `Enter` is the part of a wait before it gives the mutex up, `Return` the end of its wait on the
      semaphore with a permit taken, `Fail` its end without one. */
  datatype Event = Enter | Return | Fail | Signal | Broadcast

  function IsBlocked(): Phase -> bool { (p: Phase) => p == Blocked }

  function BlockedOf(pc: map<Tid, Phase>): set<Tid> { Having(pc, IsBlocked()) }

  ghost predicate Enabled(s: State, t: Tid, e: Event) {
    && t in s.pc
    && match e
       case Return => s.pc[t] == Blocked && 0 < s.permits
       case Fail => s.pc[t] == Blocked
       case _ => s.pc[t] == Running
  }

  function Next(s: State, t: Tid, e: Event): State {
    match e
    case Enter => s.(waiters := s.waiters + 1, pc := s.pc[t := Blocked])
    case Return => s.(permits := if s.permits == 0 then 0 else s.permits - 1, pc := s.pc[t := Running])
    case Fail => s.(waiters := s.waiters - 1, pc := s.pc[t := Running])
    case Signal => if 0 < s.waiters then s.(waiters := s.waiters - 1, permits := s.permits + 1) else s
    case Broadcast => if 0 < s.waiters then s.(waiters := 0, permits := s.permits + s.waiters) else s
  }

  ghost predicate Initial(s: State) {
    s.waiters == 0 && s.permits == 0 && forall t :: t in s.pc ==> s.pc[t] == Running
  }

  /** What a step does. */
  ghost function Goes(): (State, Tid, Event, State) -> bool {
    (s: State, t: Tid, e: Event, n: State) => Enabled(s, t, e) && n == Next(s, t, e)
  }

  /** A run passes through `states` when thread `steps[i].0` takes step `steps[i].1`. */
  ghost predicate Run(states: seq<State>, steps: seq<(Tid, Event)>) {
    Leads(states, steps, Goes()) && Initial(states[0])
  }

  lemma RunStep(states: seq<State>, steps: seq<(Tid, Event)>, n: nat)
    requires Run(states, steps) && 0 < n < |states|
    ensures |states| == |steps| + 1
    ensures Enabled(states[n - 1], steps[n - 1].0, steps[n - 1].1)
    ensures states[n] == Next(states[n - 1], steps[n - 1].0, steps[n - 1].1)
  {
    assert Goes()(states[n - 1], steps[n - 1].0, steps[n - 1].1, states[n - 1 + 1]);
  }

  /** Waiters not yet signalled and permits not yet taken make up the blocked threads. */
  ghost predicate Conserved(s: State) {
    s.waiters + s.permits == |BlockedOf(s.pc)|
  }

  lemma StepConserves(s: State, t: Tid, e: Event)
    requires Conserved(s) && Enabled(s, t, e)
    ensures Conserved(Next(s, t, e))
  {
    HavingMoved(s.pc, t, Blocked, IsBlocked());
    HavingMoved(s.pc, t, Running, IsBlocked());
  }

  /** In every run a step blocks its own thread if it starts to wait, lets it run otherwise, and moves no other; a
      permit goes to whoever returns, and to nobody else. */
  lemma StepMoves(states: seq<State>, steps: seq<(Tid, Event)>, n: nat)
    requires Run(states, steps) && n < |steps|
    ensures |states| == |steps| + 1
    ensures var (t, e), s, u := steps[n], states[n], states[n + 1];
      && t in s.pc && u.pc == s.pc[t := if e == Enter then Blocked else Running]
      && (e == Return ==> s.pc[t] == Blocked && u.permits + 1 == s.permits)
      && (e == Enter || e == Fail ==> u.permits == s.permits)
  {
    RunStep(states, steps, n + 1);
    var s, u := states[n], states[n + 1];
    assert u.pc == s.pc[steps[n].0 := if steps[n].1 == Enter then Blocked else Running];
  }

  ghost predicate NoFailure(steps: seq<(Tid, Event)>) {
    forall i :: 0 <= i < |steps| ==> steps[i].1 != Fail
  }

  /** Wake-ups are conserved over every run, waits that fail included. */
  lemma {:induction false} WakeupsConserved(states: seq<State>, steps: seq<(Tid, Event)>, n: nat)
    requires Run(states, steps) && n < |states|
    ensures Conserved(states[n])
    ensures NoFailure(steps) ==> 0 <= states[n].waiters
  {
    if n == 0 {
      assert BlockedOf(states[0].pc) == {};
    } else {
      WakeupsConserved(states, steps, n - 1);
      var s, t, e := states[n - 1], steps[n - 1].0, steps[n - 1].1;
      RunStep(states, steps, n);
      StepConserves(s, t, e);
    }
  }

  /** What a signal or broadcast lets go, in every run: a signal lets exactly one more thread return if any is still
      without a permit, and a broadcast gives every blocked thread a permit. Without failed waits there are never more
      permits than blocked threads. */
  lemma SignalReleases(states: seq<State>, steps: seq<(Tid, Event)>, n: nat)
    requires Run(states, steps) && n < |steps|
    ensures |states| == |steps| + 1
    ensures var blocked, permits := |BlockedOf(states[n].pc)|, states[n].permits;
      && (steps[n].1 == Signal ==> states[n + 1].permits == if permits < blocked then permits + 1 else permits)
      && (steps[n].1 == Broadcast ==> states[n + 1].permits == if permits < blocked then blocked else permits)
      && (steps[n].1 == Signal || steps[n].1 == Broadcast ==> states[n + 1].pc == states[n].pc)
      && (NoFailure(steps) ==> permits <= blocked)
  {
    WakeupsConserved(states, steps, n);
    RunStep(states, steps, n + 1);
  }

  /** How many steps are of the kind `e`. */
  function Tally(steps: seq<(Tid, Event)>, e: Event): nat {
    if steps == [] then 0 else Tally(steps[..|steps| - 1], e) + if steps[|steps| - 1].1 == e then 1 else 0
  }

  /** No wake-up comes from nowhere: without broadcasts there are never more returns than signals. */
  lemma {:induction false} NoSpuriousReturn(states: seq<State>, steps: seq<(Tid, Event)>, n: nat)
    requires Run(states, steps) && n < |states|
    requires forall i :: 0 <= i < |steps| ==> steps[i].1 != Broadcast
    ensures Tally(steps[..n], Return) + states[n].permits <= Tally(steps[..n], Signal)
  {
    if n != 0 {
      NoSpuriousReturn(states, steps, n - 1);
      assert steps[..n][..n - 1] == steps[..n - 1];
      RunStep(states, steps, n);
    }
  }

  /** Thread `t` has been blocked without a break up to state `n` since some signal or broadcast that gave a permit. */
  ghost predicate Meant(states: seq<State>, t: Tid, n: nat)
    requires n < |states|
  {
    exists j :: 0 <= j < n && Gives(states, j) && BlockedFrom(states, t, j, n)
  }

  /** Step `j` gives a permit. */
  predicate Gives(states: seq<State>, j: nat)
    requires j + 1 < |states|
  {
    states[j].permits < states[j + 1].permits
  }

  /** Permits come from signals and broadcasts that find a waiter in the count, and from nothing else. */
  lemma GiversAre(states: seq<State>, steps: seq<(Tid, Event)>, j: nat)
    requires Run(states, steps) && j < |steps|
    ensures |states| == |steps| + 1
    ensures Gives(states, j) <==> (steps[j].1 == Signal || steps[j].1 == Broadcast) && 0 < states[j].waiters
  {
    RunStep(states, steps, j + 1);
  }

  ghost predicate BlockedFrom(states: seq<State>, t: Tid, j: nat, n: nat)
    requires j <= n < |states|
  {
    forall k :: j <= k <= n ==> t in states[k].pc && states[k].pc[t] == Blocked
  }

  /** A thread that is let go anywhere in the run had been waiting when a signal or broadcast came. */
  ghost predicate NoneOvertakes(states: seq<State>, steps: seq<(Tid, Event)>)
    requires |states| == |steps| + 1
  {
    forall n, t :: 0 <= n < |states| && Enabled(states[n], t, Return) ==> Meant(states, t, n)
  }

  /** No thread starts to wait while there is a permit left. */
  ghost predicate EntersWithoutPermits(states: seq<State>, steps: seq<(Tid, Event)>)
    requires |states| == |steps| + 1
  {
    forall i :: 0 <= i < |steps| && steps[i].1 == Enter ==> states[i].permits == 0
  }

  /** Back to the signal or broadcast that the permits of state `n` began with. */
  lemma {:induction false} PermitsBegan(states: seq<State>, steps: seq<(Tid, Event)>, t: Tid, n: nat) returns (j: nat)
    requires Run(states, steps) && n < |states| == |steps| + 1 && EntersWithoutPermits(states, steps)
    requires Enabled(states[n], t, Return)
    ensures j < n && Gives(states, j) && BlockedFrom(states, t, j, n)
  {
    assert n > 0;
    RunStep(states, steps, n);
    var s, u, e := states[n - 1], steps[n - 1].0, steps[n - 1].1;
    assert e == Enter ==> s.permits == 0;
    assert t in s.pc && s.pc[t] == Blocked;
    if s.permits == 0 {
      return n - 1;
    }
    j := PermitsBegan(states, steps, t, n - 1);
  }

  /** Whoever has just started to wait was not waiting when the permits came. */
  lemma NewcomerNotMeant(states: seq<State>, steps: seq<(Tid, Event)>, i: nat)
    requires Run(states, steps) && i < |steps| && steps[i].1 == Enter && i + 1 < |states|
    ensures !Meant(states, steps[i].0, i + 1)
  {
    RunStep(states, steps, i + 1);
    assert !Gives(states, i) && states[i].pc[steps[i].0] == Running;
  }

  /** A permit goes to a thread that was waiting when it came, wherever in the run one is taken, if and only if no
      thread starts to wait while there is a permit left. */
  lemma OvertakingIff(states: seq<State>, steps: seq<(Tid, Event)>)
    requires Run(states, steps)
    ensures |states| == |steps| + 1
    ensures NoneOvertakes(states, steps) <==> EntersWithoutPermits(states, steps)
  {
    if EntersWithoutPermits(states, steps) {
      forall n, t | 0 <= n < |states| && Enabled(states[n], t, Return)
        ensures Meant(states, t, n)
      {
        var j := PermitsBegan(states, steps, t, n);
      }
    }
    if NoneOvertakes(states, steps) {
      forall i | 0 <= i < |steps| && steps[i].1 == Enter
        ensures states[i].permits == 0
      {
        RunStep(states, steps, i + 1);
        NewcomerNotMeant(states, steps, i);
        assert Enabled(states[i + 1], steps[i].0, Return) <==> states[i].permits != 0;
      }
    }
  }

  function Pair(p: Phase, q: Phase): map<Tid, Phase> { map[Thread(0) := p, Thread(1) := q, Thread(2) := Running] }

  function OvertakingStates(): seq<State> {
    [ State(0, 0, Pair(Running, Running)), State(1, 0, Pair(Blocked, Running)), State(0, 1, Pair(Blocked, Running)),
      State(1, 1, Pair(Blocked, Blocked)), State(1, 0, Pair(Blocked, Running)) ]
  }

  function OvertakingSteps(): seq<(Tid, Event)> {
    [(Thread(0), Enter), (Thread(2), Signal), (Thread(1), Enter), (Thread(1), Return)]
  }

  lemma OvertakingStep(i: nat)
    requires i < 4
    ensures var s, (t, e) := OvertakingStates()[i], OvertakingSteps()[i];
      Enabled(s, t, e) && OvertakingStates()[i + 1] == Next(s, t, e)
  {
    var none, one, two := Pair(Running, Running), Pair(Blocked, Running), Pair(Blocked, Blocked);
    if i == 0 {
      assert none[Thread(0) := Blocked] == one;
    } else if i == 1 {
    } else if i == 2 {
      assert one[Thread(1) := Blocked] == two;
    } else {
      assert two[Thread(1) := Running] == one;
    }
  }

  /** A permit that went astray: thread 0 waits, 2 signals, and thread 1, which starts to wait only then, takes the
      permit. Thread 0 stays blocked. */
  lemma LateWaiterOvertakes()
    ensures Run(OvertakingStates(), OvertakingSteps())
    ensures OvertakingStates()[4].pc == Pair(Blocked, Running)
    ensures forall e :: Enabled(OvertakingStates()[4], Thread(0), e) ==> e == Fail
  {
    forall i | 0 <= i < 4
      ensures var s, (t, e) := OvertakingStates()[i], OvertakingSteps()[i];
        Enabled(s, t, e) && OvertakingStates()[i + 1] == Next(s, t, e)
    {
      OvertakingStep(i);
    }
  }

  /** `PCondVariableXP`; `pc` follows the threads. */
  class CondVariable {
    var waiters: int
    var permits: nat
    ghost var pc: map<Tid, Phase>

    ghost function Now(): State
      reads this
    {
      State(waiters, permits, pc)
    }

    /** `pp_cond_variable_init_xp`. */
    constructor (ghost threads: set<Tid>)
      ensures Initial(Now()) && Conserved(Now()) && pc.Keys == threads
    {
      waiters, permits := 0, 0;
      pc := map t | t in threads :: Running;
      new;
      assert pc.Keys == threads && BlockedOf(pc) == {};
    }

    /** `pp_cond_variable_wait_xp`, up to the wait on the semaphore. */
    method WaitEnter(ghost t: Tid)
      requires Conserved(Now()) && Enabled(Now(), t, Enter)
      modifies this
      ensures Conserved(Now()) && Now() == old(Next(Now(), t, Enter))
    {
      StepConserves(Now(), t, Enter);
      waiters := waiters + 1;
      pc := pc[t := Blocked];
    }

    /** `pp_cond_variable_wait_xp`, from the end of the wait on the semaphore. */
    method WaitReturn(signalled: bool, ghost t: Tid) returns (ok: bool)
      requires Conserved(Now()) && Enabled(Now(), t, if signalled then Return else Fail)
      modifies this
      ensures Conserved(Now()) && Now() == old(Next(Now(), t, if signalled then Return else Fail))
      ensures ok == signalled
    {
      StepConserves(Now(), t, if signalled then Return else Fail);
      if signalled {
        permits := permits - 1;
      } else {
        waiters := waiters - 1;
      }
      pc := pc[t := Running];
      return signalled;
    }

    /** `pp_cond_variable_signal_xp`. */
    method DoSignal(ghost t: Tid)
      requires Conserved(Now()) && Enabled(Now(), t, Signal)
      modifies this
      ensures Conserved(Now()) && Now() == old(Next(Now(), t, Signal))
    {
      StepConserves(Now(), t, Signal);
      if waiters > 0 {
        waiters := waiters - 1;
        permits := permits + 1;
      }
    }

    /** `pp_cond_variable_broadcast_xp`. */
    method DoBroadcast(ghost t: Tid)
      requires Conserved(Now()) && Enabled(Now(), t, Broadcast)
      modifies this
      ensures Conserved(Now()) && Now() == old(Next(Now(), t, Broadcast))
    {
      StepConserves(Now(), t, Broadcast);
      var released := waiters;
      if released > 0 {
        waiters := 0;
        permits := permits + released;
      }
    }
  }
}
