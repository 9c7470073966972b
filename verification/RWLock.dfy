// The portable read-write lock of plibsys/src/prwlock-general.c: a mutex, two condition variables
// and two packed words.

/** The protocol as steps of threads, its safety and its freedom from lost wake-ups. */
module RWLock {
  import opened PackedWord
  import opened Threads

  datatype Role = Reader | Writer

  /** What one request is doing. A waiting thread is asleep in its condition variable until it is woken;
      an awake one still has to take the mutex back. */
  datatype Phase = Idle | Waiting(role: Role, awake: bool) | Holding(role: Role)

  datatype State = State(active: bv32, waiting: bv32, pc: map<Tid, Phase>)

  /** What a thread does in one section under the mutex; `Spurious` is a wake-up that nobody sent.
      `woken` are the threads that the signal or broadcast of an unlock releases. */
  datatype Event = Lock(role: Role) | Trylock(role: Role) | Resume(waitOk: bool) | Unlock(woken: set<Tid>) | Spurious

  function IsHolding(r: Role): Phase -> bool { (p: Phase) => p == Holding(r) }

  function IsWaiting(r: Role): Phase -> bool { (p: Phase) => p.Waiting? && p.role == r }

  function IsAsleep(r: Role): Phase -> bool { (p: Phase) => p == Waiting(r, false) }

  function Holders(pc: map<Tid, Phase>, r: Role): set<Tid> { Having(pc, IsHolding(r)) }

  function Waiters(pc: map<Tid, Phase>, r: Role): set<Tid> { Having(pc, IsWaiting(r)) }

  function Sleepers(pc: map<Tid, Phase>, r: Role): set<Tid> { Having(pc, IsAsleep(r)) }

  /** The threads of a state, by what they are doing. */
  datatype Crowd = Crowd(readers: set<Tid>, writers: set<Tid>,
                         waitingReaders: set<Tid>, waitingWriters: set<Tid>,
                         sleepingReaders: set<Tid>, sleepingWriters: set<Tid>)
  {
    predicate Unheld() { readers == {} && writers == {} }

    /** Awake and registered: due to look at the lock again. */
    function Awake(): set<Tid> { (waitingReaders - sleepingReaders) + (waitingWriters - sleepingWriters) }

    /** Sleeping readers have a writer ahead of them, and an unheld lock has an awake waiter if it has any. */
    predicate Lively() {
      && (sleepingReaders != {} && writers == {} ==> waitingWriters != {})
      && (Unheld() && waitingReaders + waitingWriters != {} ==> Awake() != {})
    }

    /** Nobody holds the lock, threads are registered as waiting, and none of them is awake. */
    predicate Stuck() { Unheld() && waitingReaders + waitingWriters != {} && Awake() == {} }

    /** Readers are asleep and no writer is there whose unlock could wake them. */
    predicate Forsaken() { sleepingReaders != {} && writers == {} && waitingWriters == {} }
  }

  function CrowdOf(pc: map<Tid, Phase>): Crowd {
    Crowd(Holders(pc, Reader), Holders(pc, Writer), Waiters(pc, Reader), Waiters(pc, Writer),
          Sleepers(pc, Reader), Sleepers(pc, Writer))
  }

  // ----- what the sections do to the packed words -----

  /** The condition under which a request need not wait. */
  predicate Free(active: bv32, r: Role) {
    match r
    case Reader => High(active) == 0
    case Writer => active == 0
  }

  function Granted(active: bv32, r: Role): bv32 {
    match r
    case Reader => SetLow(active, Low(active) + 1)
    case Writer => SetHigh(active, 1)
  }

  function Released(active: bv32, r: Role): bv32 {
    match r
    case Reader => if Low(active) == 0 then active else SetLow(active, Low(active) - 1)
    case Writer => SetHigh(active, 0)
  }

  function Registered(waiting: bv32, r: Role): bv32 {
    match r
    case Reader => SetLow(waiting, Low(waiting) + 1)
    case Writer => SetHigh(waiting, High(waiting) + 1)
  }

  function Deregistered(waiting: bv32, r: Role): bv32 {
    match r
    case Reader => SetLow(waiting, Low(waiting) - 1)
    case Writer => SetHigh(waiting, High(waiting) - 1)
  }

  datatype Call = NoCall | SignalWriters | BroadcastReaders

  /** The condition variable call at the end of an unlock. */
  function Wakes(active: bv32, waiting: bv32, r: Role): Call {
    match r
    case Reader => if Low(active) == 1 && High(waiting) != 0 then SignalWriters else NoCall
    case Writer =>
      if High(waiting) != 0 then SignalWriters
      else if Low(waiting) != 0 then BroadcastReaders
      else NoCall
  }

  /** A signal releases at least one sleeper if there is any, a broadcast releases them all. */
  predicate Releases(c: Crowd, call: Call, woken: set<Tid>) {
    match call
    case NoCall => woken == {}
    case SignalWriters => woken <= c.sleepingWriters && (c.sleepingWriters != {} ==> woken != {})
    case BroadcastReaders => woken == c.sleepingReaders
  }

  function Notified(pc: map<Tid, Phase>, woken: set<Tid>): map<Tid, Phase> {
    map t | t in pc :: if t in woken && pc[t].Waiting? then Waiting(pc[t].role, true) else pc[t]
  }

  // ----- steps and runs -----

  ghost predicate Enabled(s: State, t: Tid, e: Event) {
    && t in s.pc
    && match e
       case Lock(_) => s.pc[t] == Idle
       case Trylock(_) => s.pc[t] == Idle
       case Resume(_) => s.pc[t].Waiting? && s.pc[t].awake
       case Unlock(woken) =>
         s.pc[t].Holding? && Releases(CrowdOf(s.pc), Wakes(s.active, s.waiting, s.pc[t].role), woken)
       case Spurious => s.pc[t].Waiting? && !s.pc[t].awake
  }

  function Next(s: State, t: Tid, e: Event): State
    requires t in s.pc
  {
    match e
    case Lock(r) =>
      if Free(s.active, r) then State(Granted(s.active, r), s.waiting, s.pc[t := Holding(r)])
      else State(s.active, Registered(s.waiting, r), s.pc[t := Waiting(r, false)])
    case Trylock(r) =>
      if Free(s.active, r) then State(Granted(s.active, r), s.waiting, s.pc[t := Holding(r)])
      else s
    case Resume(waitOk) =>
      if !s.pc[t].Waiting? then s
      else
        var r := s.pc[t].role;
        if !waitOk then State(s.active, Deregistered(s.waiting, r), s.pc[t := Idle])
        else if Free(s.active, r) then State(Granted(s.active, r), Deregistered(s.waiting, r), s.pc[t := Holding(r)])
        else s.(pc := s.pc[t := Waiting(r, false)])
    case Unlock(woken) =>
      if !s.pc[t].Holding? then s
      else State(Released(s.active, s.pc[t].role), s.waiting, Notified(s.pc[t := Idle], woken))
    case Spurious =>
      if !s.pc[t].Waiting? then s else s.(pc := s.pc[t := Waiting(s.pc[t].role, true)])
  }

  ghost predicate Initial(s: State) {
    s.active == 0 && s.waiting == 0 && |s.pc.Keys| <= LIMIT && forall t :: t in s.pc ==> s.pc[t] == Idle
  }

  /** What a step does. */
  ghost function Goes(): (State, Tid, Event, State) -> bool {
    (s: State, t: Tid, e: Event, n: State) => Enabled(s, t, e) && n == Next(s, t, e)
  }

  /** A run passes through `states` when thread `steps[i].0` takes step `steps[i].1`. */
  ghost predicate Run(states: seq<State>, steps: seq<(Tid, Event)>) {
    Leads(states, steps, Goes()) && Initial(states[0])
  }

  // ----- the fields as numbers -----

  function Count(w: bv32, r: Role): nat {
    match r
    case Reader => LowCount(w)
    case Writer => HighCount(w)
  }

  lemma FreeCounts(active: bv32, r: Role)
    requires Top(active) == 0
    ensures Free(active, r) <==> Count(active, Writer) == 0 && (r == Writer ==> Count(active, Reader) == 0)
  {
    ZeroWord(active);
    ZeroCount(High(active));
  }

  lemma OneWriter(w: bv32)
    requires HighCount(w) == 0
    ensures HighCount(SetHigh(w, 1)) == 1 && Low(SetHigh(w, 1)) == Low(w) && Top(SetHigh(w, 1)) == Top(w)
  {
    SetHighGets(w, 1);
    SetHighKeeps(w, 1);
    assert Number(1) == 1;
  }

  lemma GrantedReader(w: bv32)
    requires LowCount(w) < LIMIT
    ensures var v := Granted(w, Reader);
      LowCount(v) == LowCount(w) + 1 && HighCount(v) == HighCount(w) && Top(v) == Top(w)
  {
    LowRaised(w);
  }

  lemma GrantedWriter(w: bv32)
    requires HighCount(w) == 0
    ensures var v := Granted(w, Writer); HighCount(v) == 1 && LowCount(v) == LowCount(w) && Top(v) == Top(w)
  {
    OneWriter(w);
  }

  lemma GrantedCounts(w: bv32, r: Role)
    requires Top(w) == 0 && Free(w, r) && Count(w, Reader) < LIMIT
    ensures Top(Granted(w, r)) == 0
    ensures forall q :: Count(Granted(w, r), q) == Count(w, q) + if q == r then 1 else 0
  {
    hide Granted, Top, LowCount, HighCount, Free;
    FreeCounts(w, r);
    if r == Reader {
      GrantedReader(w);
    } else {
      GrantedWriter(w);
    }
  }

  lemma ReleasedCounts(w: bv32, r: Role)
    requires Top(w) == 0 && 0 < Count(w, r) && Count(w, Writer) <= 1
    ensures Top(Released(w, r)) == 0
    ensures forall q :: Count(Released(w, r), q) == Count(w, q) - if q == r then 1 else 0
  {
    match r {
      case Reader =>
        ZeroCount(Low(w));
        LowLowered(w);
      case Writer =>
        SetHighGets(w, 0);
        SetHighKeeps(w, 0);
    }
  }

  lemma RegisteredCounts(w: bv32, r: Role)
    requires Top(w) == 0 && Count(w, r) < LIMIT
    ensures Top(Registered(w, r)) == 0
    ensures forall q :: Count(Registered(w, r), q) == Count(w, q) + if q == r then 1 else 0
  {
    match r {
      case Reader => LowRaised(w);
      case Writer => HighRaised(w);
    }
  }

  lemma DeregisteredCounts(w: bv32, r: Role)
    requires Top(w) == 0 && 0 < Count(w, r)
    ensures Top(Deregistered(w, r)) == 0
    ensures forall q :: Count(Deregistered(w, r), q) == Count(w, q) - if q == r then 1 else 0
  {
    match r {
      case Reader => LowLowered(w);
      case Writer => HighLowered(w);
    }
  }

  // ----- the threads as sets -----

  /** Thread `t` goes from phase `pc[t]` to `p`. */
  lemma Moves(pc: map<Tid, Phase>, t: Tid, p: Phase, r: Role)
    requires t in pc
    ensures pc[t := p].Keys == pc.Keys
    ensures Holders(pc[t := p], r) == if p == Holding(r) then Holders(pc, r) + {t} else Holders(pc, r) - {t}
    ensures |Holders(pc[t := p], r)| == |Holders(pc, r)| + Add(p == Holding(r)) - Add(pc[t] == Holding(r))
    ensures Waiters(pc[t := p], r) ==
              if p.Waiting? && p.role == r then Waiters(pc, r) + {t} else Waiters(pc, r) - {t}
    ensures |Waiters(pc[t := p], r)| ==
              |Waiters(pc, r)| + Add(p.Waiting? && p.role == r) - Add(pc[t].Waiting? && pc[t].role == r)
    ensures Sleepers(pc[t := p], r) ==
              if p == Waiting(r, false) then Sleepers(pc, r) + {t} else Sleepers(pc, r) - {t}
  {
    HavingMoved(pc, t, p, IsHolding(r));
    HavingMoved(pc, t, p, IsWaiting(r));
    HavingMoved(pc, t, p, IsAsleep(r));
  }

  function Add(b: bool): nat { if b then 1 else 0 }

  /** Waking threads moves nobody between the counted sets. */
  lemma Wakens(pc: map<Tid, Phase>, woken: set<Tid>)
    ensures Notified(pc, woken).Keys == pc.Keys
    ensures forall r :: Holders(Notified(pc, woken), r) == Holders(pc, r)
    ensures forall r :: Waiters(Notified(pc, woken), r) == Waiters(pc, r)
    ensures forall r :: Sleepers(Notified(pc, woken), r) == Sleepers(pc, r) - woken
  {
  }

  // ----- safety -----

  /** The four fields are the true numbers of threads, and nothing else is in the words. */
  ghost predicate Counted(s: State) {
    && Top(s.active) == 0 && Top(s.waiting) == 0
    && forall r :: Count(s.active, r) == |Holders(s.pc, r)| && Count(s.waiting, r) == |Waiters(s.pc, r)|
  }

  /** At most one writer, and never together with a reader. */
  ghost predicate Exclusive(s: State) {
    && |Holders(s.pc, Writer)| <= 1
    && (Holders(s.pc, Writer) == {} || Holders(s.pc, Reader) == {})
  }

  ghost predicate Safe(s: State) {
    |s.pc.Keys| <= LIMIT && Counted(s) && Exclusive(s)
  }

  /** A thread outside a counted set leaves room in its field. */
  lemma RoomFor(s: State, t: Tid, r: Role)
    requires Safe(s) && t in s.pc
    ensures s.pc[t] != Holding(r) ==> Count(s.active, r) < LIMIT
    ensures !IsWaiting(r)(s.pc[t]) ==> Count(s.waiting, r) < LIMIT
  {
    if s.pc[t] != Holding(r) {
      HavingOthers(s.pc, IsHolding(r), t);
    }
    if !IsWaiting(r)(s.pc[t]) {
      HavingOthers(s.pc, IsWaiting(r), t);
    }
  }

  /** A thread inside a counted set keeps its field above zero. */
  lemma Counts(s: State, t: Tid, r: Role)
    requires Safe(s) && t in s.pc
    ensures s.pc[t] == Holding(r) ==> 0 < Count(s.active, r)
    ensures IsWaiting(r)(s.pc[t]) ==> 0 < Count(s.waiting, r)
  {
    assert s.pc[t] == Holding(r) ==> t in Holders(s.pc, r);
    assert IsWaiting(r)(s.pc[t]) ==> t in Waiters(s.pc, r);
  }

  /** Thread `t` goes to phase `p` and the words follow. */
  ghost predicate Follows(s: State, t: Tid, p: Phase, active: bv32, waiting: bv32, r: Role)
    requires t in s.pc
  {
    && Count(active, r) == Count(s.active, r) + Add(p == Holding(r)) - Add(s.pc[t] == Holding(r))
    && Count(waiting, r) == Count(s.waiting, r) + Add(IsWaiting(r)(p)) - Add(IsWaiting(r)(s.pc[t]))
  }

  lemma StillCounted(s: State, t: Tid, p: Phase, active: bv32, waiting: bv32, r: Role)
    requires Counted(s) && t in s.pc && Follows(s, t, p, active, waiting, r)
    ensures var pc := s.pc[t := p]; Count(active, r) == |Holders(pc, r)| && Count(waiting, r) == |Waiters(pc, r)|
  {
    hide Count, Top;
    Moves(s.pc, t, p, r);
  }

  lemma StillExclusive(s: State, t: Tid, p: Phase)
    requires Counted(s) && Exclusive(s) && t in s.pc
    requires p.Holding? ==> Count(s.active, Writer) == 0 && (p.role == Writer ==> Count(s.active, Reader) == 0)
    ensures Exclusive(s.(pc := s.pc[t := p]))
  {
    hide Count, Top, Waiters, Sleepers;
    Moves(s.pc, t, p, Reader);
    Moves(s.pc, t, p, Writer);
  }

  lemma StillSafe(s: State, t: Tid, p: Phase, active: bv32, waiting: bv32)
    requires Safe(s) && t in s.pc && Top(active) == 0 && Top(waiting) == 0
    requires forall r :: Follows(s, t, p, active, waiting, r)
    requires p.Holding? ==> Count(s.active, Writer) == 0 && (p.role == Writer ==> Count(s.active, Reader) == 0)
    ensures Safe(State(active, waiting, s.pc[t := p]))
  {
    assert s.pc[t := p].Keys == s.pc.Keys;
    hide Count, Top, Having, Holders, Waiters, Sleepers;
    forall r
      ensures var pc := s.pc[t := p]; Count(active, r) == |Holders(pc, r)| && Count(waiting, r) == |Waiters(pc, r)|
    {
      StillCounted(s, t, p, active, waiting, r);
    }
    StillExclusive(s, t, p);
  }

  lemma LockSafe(s: State, t: Tid, r: Role)
    requires Safe(s) && Enabled(s, t, Lock(r))
    ensures Safe(Next(s, t, Lock(r)))
  {
    hide Count, Top, Granted, Registered, Free;
    RoomFor(s, t, Reader);
    RoomFor(s, t, Writer);
    FreeCounts(s.active, r);
    if Free(s.active, r) {
      GrantedCounts(s.active, r);
      StillSafe(s, t, Holding(r), Granted(s.active, r), s.waiting);
    } else {
      RegisteredCounts(s.waiting, r);
      StillSafe(s, t, Waiting(r, false), s.active, Registered(s.waiting, r));
    }
  }

  lemma ResumeSafe(s: State, t: Tid, waitOk: bool)
    requires Safe(s) && Enabled(s, t, Resume(waitOk))
    ensures Safe(Next(s, t, Resume(waitOk)))
  {
    hide Count, Top, Granted, Deregistered, Free;
    var r := s.pc[t].role;
    RoomFor(s, t, Reader);
    Counts(s, t, r);
    FreeCounts(s.active, r);
    DeregisteredCounts(s.waiting, r);
    if !waitOk {
      StillSafe(s, t, Idle, s.active, Deregistered(s.waiting, r));
    } else if Free(s.active, r) {
      GrantedCounts(s.active, r);
      StillSafe(s, t, Holding(r), Granted(s.active, r), Deregistered(s.waiting, r));
    } else {
      StillSafe(s, t, Waiting(r, false), s.active, s.waiting);
    }
  }

  lemma UnlockSafe(s: State, t: Tid, woken: set<Tid>)
    requires Safe(s) && t in s.pc && s.pc[t].Holding?
    ensures Safe(Next(s, t, Unlock(woken)))
  {
    hide Count, Top, Released, Notified;
    var r := s.pc[t].role;
    Counts(s, t, r);
    ReleasedCounts(s.active, r);
    StillSafe(s, t, Idle, Released(s.active, r), s.waiting);
    Wakens(s.pc[t := Idle], woken);
  }

  /** Every step of every thread keeps the lock safe, whether or not its wait fails. */
  lemma StepSafe(s: State, t: Tid, e: Event)
    requires Safe(s) && Enabled(s, t, e)
    ensures Safe(Next(s, t, e))
  {
    match e {
      case Lock(r) => LockSafe(s, t, r);
      case Trylock(r) => LockSafe(s, t, r);
      case Resume(waitOk) => ResumeSafe(s, t, waitOk);
      case Unlock(woken) => UnlockSafe(s, t, woken);
      case Spurious => StillSafe(s, t, Waiting(s.pc[t].role, true), s.active, s.waiting);
    }
  }

  // ----- what each section decides -----

  /** Nobody is in the way of a request: no other thread writes and, for a writer, none reads either. */
  ghost predicate Clear(pc: map<Tid, Phase>, r: Role) {
    forall v :: v in pc ==> pc[v] != Holding(Writer) && (r == Writer ==> pc[v] != Holding(Reader))
  }

  lemma FreeIffClear(s: State, r: Role)
    requires Counted(s)
    ensures Free(s.active, r) <==> Clear(s.pc, r)
  {
    FreeMeans(s, r);
    hide Free, Counted, Holders;
    NoHolder(s.pc, Writer);
    NoHolder(s.pc, Reader);
  }

  lemma NoHolder(pc: map<Tid, Phase>, r: Role)
    ensures Holders(pc, r) == {} <==> forall v :: v in pc ==> pc[v] != Holding(r)
  {
    forall v | v in pc && pc[v] == Holding(r)
      ensures Holders(pc, r) != {}
    {
      assert v in Holders(pc, r);
    }
  }

  /** What becomes of thread `t`, told from what the threads are doing. */
  ghost function Outcome(pc: map<Tid, Phase>, t: Tid, e: Event): Phase
    requires t in pc && ((e.Resume? || e.Spurious?) ==> pc[t].Waiting?)
  {
    match e
    case Lock(r) => if Clear(pc, r) then Holding(r) else Waiting(r, false)
    case Trylock(r) => if Clear(pc, r) then Holding(r) else Idle
    case Resume(waitOk) =>
      if !waitOk then Idle else if Clear(pc, pc[t].role) then Holding(pc[t].role) else Waiting(pc[t].role, false)
    case Unlock(_) => Idle
    case Spurious => Waiting(pc[t].role, true)
  }

  /** A step does with its own thread what the threads in its way decide; an unlock wakes others and nothing else
      happens to them. */
  lemma StepDecides(s: State, t: Tid, e: Event)
    requires Safe(s) && Enabled(s, t, e)
    ensures var pc := Next(s, t, e).pc;
      && pc.Keys == s.pc.Keys && pc[t] == Outcome(s.pc, t, e)
      && forall u :: u in pc && u != t ==>
           pc[u] == if e.Unlock? && u in e.woken then Waiting(s.pc[u].role, true) else s.pc[u]
  {
    WokenWait(s, t, e);
    match e {
      case Lock(r) => FreeIffClear(s, r);
      case Trylock(r) => FreeIffClear(s, r);
      case Resume(_) => FreeIffClear(s, s.pc[t].role);
      case Unlock(woken) =>
      case Spurious =>
    }
    hide Free, Clear, Safe, Enabled, Granted, Registered, Deregistered, Released;
  }

  /** Only waiting threads are woken, and the caller is not among them. */
  lemma WokenWait(s: State, t: Tid, e: Event)
    requires Enabled(s, t, e)
    ensures (e.Resume? || e.Spurious?) ==> s.pc[t].Waiting?
    ensures e.Unlock? ==> s.pc[t].Holding? && forall u :: u in e.woken ==> u in s.pc && s.pc[u].Waiting?
  {
    hide Wakes;
  }

  // ----- no lost wake-up -----

  function Put(s: set<Tid>, t: Tid, b: bool): set<Tid> { if b then s + {t} else s - {t} }

  /** The crowd after thread `t` went to phase `p`. */
  function Shifted(c: Crowd, t: Tid, p: Phase): Crowd {
    Crowd(Put(c.readers, t, p == Holding(Reader)), Put(c.writers, t, p == Holding(Writer)),
          Put(c.waitingReaders, t, p.Waiting? && p.role == Reader),
          Put(c.waitingWriters, t, p.Waiting? && p.role == Writer),
          Put(c.sleepingReaders, t, p == Waiting(Reader, false)),
          Put(c.sleepingWriters, t, p == Waiting(Writer, false)))
  }

  lemma CrowdShifts(pc: map<Tid, Phase>, t: Tid, p: Phase)
    requires t in pc
    ensures CrowdOf(pc[t := p]) == Shifted(CrowdOf(pc), t, p)
  {
    Moves(pc, t, p, Reader);
    Moves(pc, t, p, Writer);
  }

  function Woken(c: Crowd, woken: set<Tid>): Crowd {
    c.(sleepingReaders := c.sleepingReaders - woken, sleepingWriters := c.sleepingWriters - woken)
  }

  lemma CrowdWakens(pc: map<Tid, Phase>, woken: set<Tid>)
    ensures CrowdOf(Notified(pc, woken)) == Woken(CrowdOf(pc), woken)
  {
    Wakens(pc, woken);
  }

  /** Which threads a section finds in the way. */
  lemma FreeMeans(s: State, r: Role)
    requires Counted(s)
    ensures Free(s.active, r) <==> Holders(s.pc, Writer) == {} && (r == Writer ==> Holders(s.pc, Reader) == {})
  {
    FreeCounts(s.active, r);
  }

  /** The call that an unlock makes, told from the crowd once the holder has left. */
  function DueCall(c: Crowd, r: Role): Call {
    if r == Reader && c.readers != {} then NoCall
    else if c.waitingWriters != {} then SignalWriters
    else if r == Writer && c.waitingReaders != {} then BroadcastReaders
    else NoCall
  }

  lemma WakesCounts(active: bv32, waiting: bv32, r: Role)
    ensures Wakes(active, waiting, r) ==
      if r == Reader && LowCount(active) != 1 then NoCall
      else if HighCount(waiting) != 0 then SignalWriters
      else if r == Writer && LowCount(waiting) != 0 then BroadcastReaders
      else NoCall
  {
    ZeroCount(High(waiting));
    ZeroCount(Low(waiting));
    OneCount(Low(active));
  }

  lemma WakesMeans(s: State, t: Tid, r: Role)
    requires Counted(s) && t in s.pc && s.pc[t] == Holding(r)
    ensures Wakes(s.active, s.waiting, r) == DueCall(Shifted(CrowdOf(s.pc), t, Idle), r)
  {
    WakesCounts(s.active, s.waiting, r);
    FieldsMean(s);
    hide Wakes, Count, LowCount, HighCount, Top;
    Moves(s.pc, t, Idle, Reader);
    Moves(s.pc, t, Idle, Writer);
    assert t in Holders(s.pc, r) && t !in Waiters(s.pc, Reader) && t !in Waiters(s.pc, Writer);
    hide Holders, Waiters, Sleepers, Having;
    assert |Holders(s.pc, Reader) - {t}| == 0 <==> Holders(s.pc, Reader) - {t} == {};
  }

  lemma FieldsMean(s: State)
    requires Counted(s)
    ensures LowCount(s.active) == |Holders(s.pc, Reader)|
    ensures LowCount(s.waiting) == |Waiters(s.pc, Reader)| && HighCount(s.waiting) == |Waiters(s.pc, Writer)|
  {
    assert Count(s.active, Reader) == LowCount(s.active) && Count(s.waiting, Reader) == LowCount(s.waiting);
    assert Count(s.waiting, Writer) == HighCount(s.waiting);
  }

  lemma GrantLively(c: Crowd, t: Tid, r: Role)
    requires c.Lively() && c.writers == {} && (r == Reader ==> t !in c.waitingWriters)
    ensures Shifted(c, t, Holding(r)).Lively()
  {
    var d := Shifted(c, t, Holding(r));
    assert t in if r == Reader then d.readers else d.writers;
    if r == Reader {
      assert d.waitingWriters == c.waitingWriters && d.sleepingReaders <= c.sleepingReaders;
    }
  }

  /** Whoever goes to sleep has a holder in the way. */
  lemma SleepLively(c: Crowd, t: Tid, r: Role)
    requires t !in c.readers && t !in c.writers
    requires c.writers != {} || (r == Writer && c.readers != {})
    ensures Shifted(c, t, Waiting(r, false)).Lively()
  {
    var d := Shifted(c, t, Waiting(r, false));
    assert d.readers == c.readers && d.writers == c.writers;
    assert r == Writer ==> t in d.waitingWriters;
  }

  lemma WakeUpLively(c: Crowd, t: Tid, r: Role)
    requires c.Lively() && t in (if r == Reader then c.waitingReaders else c.waitingWriters)
    requires t !in c.readers && t !in c.writers && t !in (if r == Reader then c.waitingWriters else c.waitingReaders)
    ensures Shifted(c, t, Waiting(r, true)).Lively()
  {
    var d := Shifted(c, t, Waiting(r, true));
    assert t in d.Awake();
    assert d.writers == c.writers && d.sleepingReaders <= c.sleepingReaders;
    assert d.waitingWriters == c.waitingWriters;
  }

  /** A signal leaves some waiting writer awake. */
  lemma SignalWakes(c: Crowd, woken: set<Tid>)
    requires c.waitingWriters != {} && c.sleepingWriters <= c.waitingWriters
    requires Releases(c, SignalWriters, woken)
    ensures Woken(c, woken).Awake() != {}
  {
    var u := Someone(if c.sleepingWriters != {} then woken else c.waitingWriters);
    assert u in Woken(c, woken).Awake();
  }

  lemma BroadcastWakes(c: Crowd, woken: set<Tid>)
    requires c.waitingReaders != {} && Releases(c, BroadcastReaders, woken)
    ensures Woken(c, woken).Awake() != {} && Woken(c, woken).sleepingReaders == {}
  {
    var u := Someone(c.waitingReaders);
    assert u in Woken(c, woken).Awake();
  }

  /** The call of an unlock wakes someone whenever the lock is left unheld with waiters. `c` is the crowd
      once the holder has left. */
  lemma UnlockLively(c: Crowd, r: Role, woken: set<Tid>)
    requires r == Reader ==> (c.sleepingReaders != {} ==> c.waitingWriters != {})
    requires c.writers == {} && c.sleepingWriters <= c.waitingWriters && Releases(c, DueCall(c, r), woken)
    requires c.sleepingReaders <= c.waitingReaders
    ensures Woken(c, woken).Lively()
  {
    if DueCall(c, r) == SignalWriters {
      SignalWakes(c, woken);
    } else if DueCall(c, r) == BroadcastReaders {
      BroadcastWakes(c, woken);
    } else if c.readers == {} && c.waitingReaders != {} {
      var u := Someone(c.waitingReaders);
      assert u in Woken(c, woken).Awake();
    }
  }

  lemma CrowdMember(pc: map<Tid, Phase>, t: Tid)
    requires t in pc
    ensures var c := CrowdOf(pc);
      && (t in c.readers <==> pc[t] == Holding(Reader)) && (t in c.writers <==> pc[t] == Holding(Writer))
      && (t in c.waitingReaders <==> pc[t].Waiting? && pc[t].role == Reader)
      && (t in c.waitingWriters <==> pc[t].Waiting? && pc[t].role == Writer)
      && (t in c.sleepingReaders <==> pc[t] == Waiting(Reader, false))
      && (t in c.sleepingWriters <==> pc[t] == Waiting(Writer, false))
  {
  }

  lemma CrowdShape(pc: map<Tid, Phase>)
    ensures var c := CrowdOf(pc);
      c.sleepingWriters <= c.waitingWriters && c.sleepingReaders <= c.waitingReaders
  {
  }

  lemma HolderLeaves(c: Crowd, t: Tid, r: Role)
    requires t in (if r == Reader then c.readers else c.writers)
    requires |c.writers| <= 1 && (c.writers == {} || c.readers == {})
    requires t !in c.waitingReaders + c.waitingWriters + c.sleepingReaders + c.sleepingWriters
    ensures var d := Shifted(c, t, Idle);
      && d.writers == {} && d.waitingReaders == c.waitingReaders && d.waitingWriters == c.waitingWriters
      && d.sleepingReaders == c.sleepingReaders && d.sleepingWriters == c.sleepingWriters
  {
    if r == Writer {
      assert |c.writers - {t}| == 0;
    }
  }

  lemma UnlockStepLively(s: State, t: Tid, woken: set<Tid>)
    requires Safe(s) && CrowdOf(s.pc).Lively() && Enabled(s, t, Unlock(woken))
    ensures CrowdOf(Next(s, t, Unlock(woken)).pc).Lively()
  {
    var r, c := s.pc[t].role, CrowdOf(s.pc);
    var d := Shifted(c, t, Idle);
    WakesMeans(s, t, r);
    CrowdShifts(s.pc, t, Idle);
    CrowdWakens(s.pc[t := Idle], woken);
    CrowdMember(s.pc, t);
    CrowdShape(s.pc);
    HolderLeaves(c, t, r);
    hide Count, Top, Released, Wakes, CrowdOf, Notified;
    assert Releases(d, DueCall(d, r), woken);
    UnlockLively(d, r, woken);
  }

  /** A request that takes the lock or goes to sleep. */
  lemma AskLively(s: State, t: Tid, r: Role)
    requires Safe(s) && CrowdOf(s.pc).Lively() && t in s.pc && !s.pc[t].Holding?
    requires s.pc[t].Waiting? ==> s.pc[t].role == r
    ensures CrowdOf(s.pc[t := if Free(s.active, r) then Holding(r) else Waiting(r, false)]).Lively()
  {
    var c := CrowdOf(s.pc);
    assert t !in c.readers && t !in c.writers && (r == Reader ==> t !in c.waitingWriters);
    FreeMeans(s, r);
    if Free(s.active, r) {
      GrantLively(c, t, r);
      CrowdShifts(s.pc, t, Holding(r));
    } else {
      SleepLively(c, t, r);
      CrowdShifts(s.pc, t, Waiting(r, false));
    }
  }

  /** A wait of `t` that fails takes a wake-up with it: `t` is the only thread awake and leaves waiting ones behind, or
      it is the waiting writer that sleeping readers count on. */
  predicate Swallows(c: Crowd, t: Tid) {
    || (c.Unheld() && c.waitingReaders + c.waitingWriters != {t} && c.Awake() == {t})
    || (c.writers == {} && c.sleepingReaders != {} && c.waitingWriters == {t})
  }

  lemma GivesUpLively(c: Crowd, t: Tid)
    requires c.Lively() && t !in c.readers && t !in c.writers && t in c.Awake()
    requires t !in c.sleepingReaders && t !in c.sleepingWriters
    ensures Shifted(c, t, Idle).Lively() <==> !Swallows(c, t)
  {
    var d := Shifted(c, t, Idle);
    var waiting := c.waitingReaders + c.waitingWriters;
    assert d.readers == c.readers && d.writers == c.writers && d.sleepingReaders == c.sleepingReaders;
    assert d.waitingReaders + d.waitingWriters == waiting - {t} && d.Awake() == c.Awake() - {t};
    assert waiting - {t} == {} <==> waiting == {t};
    assert c.Awake() - {t} == {} <==> c.Awake() == {t};
    assert t in c.waitingWriters ==> (d.waitingWriters == {} <==> c.waitingWriters == {t});
  }

  lemma FailedStepLively(s: State, t: Tid)
    requires Safe(s) && CrowdOf(s.pc).Lively() && Enabled(s, t, Resume(false))
    ensures CrowdOf(Next(s, t, Resume(false)).pc).Lively() <==> !Swallows(CrowdOf(s.pc), t)
  {
    CrowdMember(s.pc, t);
    CrowdShifts(s.pc, t, Idle);
    GivesUpLively(CrowdOf(s.pc), t);
    hide CrowdOf, Shifted, Swallows, Deregistered;
  }

  /** A step keeps the lock lively if and only if it is not a failed wait that takes a wake-up with it. */
  lemma StepLively(s: State, t: Tid, e: Event)
    requires Safe(s) && CrowdOf(s.pc).Lively() && Enabled(s, t, e)
    ensures CrowdOf(Next(s, t, e).pc).Lively() <==> !(e == Resume(false) && Swallows(CrowdOf(s.pc), t))
  {
    if e == Resume(false) {
      FailedStepLively(s, t);
    } else {
      OtherStepLively(s, t, e);
    }
  }

  lemma OtherStepLively(s: State, t: Tid, e: Event)
    requires Safe(s) && CrowdOf(s.pc).Lively() && Enabled(s, t, e) && e != Resume(false)
    ensures CrowdOf(Next(s, t, e).pc).Lively()
  {
    var c, p := CrowdOf(s.pc), s.pc[t];
    match e {
      case Unlock(woken) => UnlockStepLively(s, t, woken);
      case Spurious =>
        assert t !in c.readers && t !in c.writers;
        assert t in c.waitingReaders <==> p.role == Reader;
        assert t in c.waitingWriters <==> p.role == Writer;
        WakeUpLively(c, t, p.role);
        CrowdShifts(s.pc, t, Waiting(p.role, true));
      case Trylock(r) => AskLively(s, t, r);
      case Lock(r) => AskLively(s, t, r);
      case Resume(_) => AskLively(s, t, p.role);
    }
  }

  // ----- whole runs -----

  lemma RunStep(states: seq<State>, steps: seq<(Tid, Event)>, n: nat)
    requires Run(states, steps) && 0 < n < |states|
    ensures |states| == |steps| + 1
    ensures Enabled(states[n - 1], steps[n - 1].0, steps[n - 1].1)
    ensures states[n] == Next(states[n - 1], steps[n - 1].0, steps[n - 1].1)
  {
    assert Goes()(states[n - 1], steps[n - 1].0, steps[n - 1].1, states[n - 1 + 1]);
  }

  lemma {:induction false} RunSafe(states: seq<State>, steps: seq<(Tid, Event)>, n: nat)
    requires Run(states, steps) && n < |states|
    ensures Safe(states[n])
  {
    hide *;
    if n == 0 {
      RunStart(states, steps);
    } else {
      RunStep(states, steps, n);
      RunSafe(states, steps, n - 1);
      StepSafe(states[n - 1], steps[n - 1].0, steps[n - 1].1);
    }
  }

  /** In every run a request is granted if and only if nobody is in its way: a read lock waits, and a try fails, only
      behind a writer, a write lock behind any holder. */
  lemma RunDecides(states: seq<State>, steps: seq<(Tid, Event)>, n: nat)
    requires Run(states, steps) && n < |steps|
    ensures |states| == |steps| + 1 && steps[n].0 in states[n].pc && steps[n].0 in states[n + 1].pc
    ensures var pc, (t, e), p := states[n].pc, steps[n], states[n + 1].pc[steps[n].0];
      && (e.Lock? ==> p == if Clear(pc, e.role) then Holding(e.role) else Waiting(e.role, false))
      && (e.Trylock? ==> p == if Clear(pc, e.role) then Holding(e.role) else pc[t])
      && (e == Resume(true) ==> pc[t].Waiting?)
      && (e == Resume(true) ==> p == if Clear(pc, pc[t].role) then Holding(pc[t].role) else Waiting(pc[t].role, false))
  {
    RunLength(states, steps);
    RunStep(states, steps, n + 1);
    RunSafe(states, steps, n);
    StepDecides(states[n], steps[n].0, steps[n].1);
    WokenWait(states[n], steps[n].0, steps[n].1);
    hide Run, Safe, Clear, Next;
  }

  lemma InitialSafe(s: State)
    requires Initial(s)
    ensures Safe(s) && CrowdOf(s.pc).Lively()
  {
    var c := CrowdOf(s.pc);
    assert c.readers == {} && c.writers == {} && c.waitingReaders == {} && c.waitingWriters == {};
    assert c.sleepingReaders == {};
    assert Number(0) == 0;
  }

  /** Safety over every run, waits that fail included: a writer is alone, and the packed fields are
      the true numbers of threads. */
  lemma MutualExclusion(states: seq<State>, steps: seq<(Tid, Event)>, n: nat, t: Tid, u: Tid)
    requires Run(states, steps) && n < |states|
    requires t in states[n].pc && u in states[n].pc && t != u
    ensures states[n].pc[t] == Holding(Writer) ==> !states[n].pc[u].Holding?
    ensures Counted(states[n])
  {
    RunSafe(states, steps, n);
    var pc := states[n].pc;
    if pc[t] == Holding(Writer) && pc[u].Holding? {
      assert t in Holders(pc, Writer) && u in Holders(pc, pc[u].role);
      OnlyOne(Holders(pc, Writer), t, u);
    }
  }

  /** No failed wait among the first `n` steps takes a wake-up with it. */
  ghost predicate NothingSwallowed(states: seq<State>, steps: seq<(Tid, Event)>, n: nat)
    requires n <= |steps| <= |states|
  {
    forall i :: 0 <= i < n && steps[i].1 == Resume(false) ==> !Swallows(CrowdOf(states[i].pc), steps[i].0)
  }

  ghost predicate AllLively(states: seq<State>, n: nat)
    requires n < |states|
  {
    forall i :: 0 <= i <= n ==> CrowdOf(states[i].pc).Lively()
  }

  lemma RunStart(states: seq<State>, steps: seq<(Tid, Event)>)
    requires Run(states, steps)
    ensures Safe(states[0]) && CrowdOf(states[0].pc).Lively()
  {
    InitialSafe(states[0]);
  }

  lemma RunLength(states: seq<State>, steps: seq<(Tid, Event)>)
    requires Run(states, steps)
    ensures |states| == |steps| + 1
  {
  }

  lemma OneMoreSwallowed(states: seq<State>, steps: seq<(Tid, Event)>, n: nat)
    requires 0 < n <= |steps| < |states|
    ensures NothingSwallowed(states, steps, n) <==>
      NothingSwallowed(states, steps, n - 1) &&
      !(steps[n - 1].1 == Resume(false) && Swallows(CrowdOf(states[n - 1].pc), steps[n - 1].0))
    ensures AllLively(states, n) <==> AllLively(states, n - 1) && CrowdOf(states[n].pc).Lively()
  {
    hide CrowdOf, Swallows;
  }

  lemma NoneSwallowed(states: seq<State>, steps: seq<(Tid, Event)>)
    requires |states| == |steps| + 1
    ensures NothingSwallowed(states, steps, 0) && (AllLively(states, 0) <==> CrowdOf(states[0].pc).Lively())
  {
    hide CrowdOf, Swallows;
  }

  /** Every state of a run is lively if and only if no failed wait takes a wake-up with it. */
  lemma {:induction false} RunLively(states: seq<State>, steps: seq<(Tid, Event)>, n: nat)
    requires Run(states, steps) && n < |states|
    ensures |states| == |steps| + 1
    ensures AllLively(states, n) <==> NothingSwallowed(states, steps, n)
    ensures NothingSwallowed(states, steps, n) ==> CrowdOf(states[n].pc).Lively()
  {
    hide *;
    RunLength(states, steps);
    if n == 0 {
      RunStart(states, steps);
      NoneSwallowed(states, steps);
    } else {
      RunStep(states, steps, n);
      RunSafe(states, steps, n - 1);
      RunLively(states, steps, n - 1);
      OneMoreSwallowed(states, steps, n);
      if NothingSwallowed(states, steps, n - 1) {
        StepLively(states[n - 1], steps[n - 1].0, steps[n - 1].1);
      }
    }
  }

  /** No wake-up is lost: when nobody holds the lock and some thread `t` is registered as waiting, some waiting
      thread is already awake, and it takes the lock as soon as it runs. */
  lemma NoLostWakeup(states: seq<State>, steps: seq<(Tid, Event)>, n: nat, t: Tid) returns (u: Tid)
    requires Run(states, steps) && n < |states|
    requires |states| == |steps| + 1 && NothingSwallowed(states, steps, n)
    requires t in states[n].pc && states[n].pc[t].Waiting?
    requires forall v :: v in states[n].pc ==> !states[n].pc[v].Holding?
    ensures Takes(states[n], u)
  {
    RunSafe(states, steps, n);
    RunLively(states, steps, n);
    hide NothingSwallowed, AllLively;
    u := AwakeTakes(states[n], t);
  }

  /** A way on from state `s` on which no wait fails. */
  ghost predicate WayOn(s: State, states: seq<State>, steps: seq<(Tid, Event)>) {
    Leads(states, steps, Goes()) && states[0] == s && forall i :: 0 <= i < |steps| ==> steps[i].1 != Resume(false)
  }

  /** A wake-up is missing: some way on, although no wait fails on it, ends in a stuck lock. */
  ghost predicate MayStick(s: State) {
    exists states: seq<State>, steps: seq<(Tid, Event)> ::
      WayOn(s, states, steps) && |states| == |steps| + 1 && CrowdOf(states[|steps|].pc).Stuck()
  }

  lemma WayStep(s: State, states: seq<State>, steps: seq<(Tid, Event)>, n: nat)
    requires WayOn(s, states, steps) && n < |steps|
    ensures |states| == |steps| + 1 && steps[n].1 != Resume(false)
    ensures Enabled(states[n], steps[n].0, steps[n].1) && states[n + 1] == Next(states[n], steps[n].0, steps[n].1)
  {
    assert Goes()(states[n], steps[n].0, steps[n].1, states[n + 1]);
  }

  lemma WayStart(s: State, states: seq<State>, steps: seq<(Tid, Event)>)
    requires WayOn(s, states, steps)
    ensures |states| == |steps| + 1 && states[0] == s
  {
  }

  lemma {:induction false} WayStaysLively(s: State, states: seq<State>, steps: seq<(Tid, Event)>, n: nat)
    requires Safe(s) && CrowdOf(s.pc).Lively() && WayOn(s, states, steps) && n <= |steps|
    ensures |states| == |steps| + 1 && Safe(states[n]) && CrowdOf(states[n].pc).Lively()
  {
    hide *;
    WayStart(s, states, steps);
    if n > 0 {
      WayStaysLively(s, states, steps, n - 1);
      WayStep(s, states, steps, n - 1);
      StepSafe(states[n - 1], steps[n - 1].0, steps[n - 1].1);
      StepLively(states[n - 1], steps[n - 1].0, steps[n - 1].1);
    }
  }

  lemma LivelyMeans(c: Crowd)
    ensures c.Lively() <==> !c.Forsaken() && !c.Stuck()
  {
  }

  lemma ForsakenLeft(c: Crowd, t: Tid)
    requires c.Forsaken() && t in c.readers
    requires t !in c.waitingReaders + c.waitingWriters + c.sleepingReaders + c.sleepingWriters
    ensures var d := Woken(Shifted(c, t, Idle), {});
      d.Forsaken() && d.readers == c.readers - {t} && d.Awake() == c.Awake()
  {
    var d := Woken(Shifted(c, t, Idle), {});
    assert d.sleepingReaders == c.sleepingReaders && d.sleepingWriters == c.sleepingWriters;
    assert d.waitingReaders == c.waitingReaders && d.waitingWriters == c.waitingWriters;
  }

  lemma ForsakenEntered(c: Crowd, t: Tid)
    requires c.Forsaken() && t in c.waitingReaders && t !in c.sleepingReaders && t !in c.sleepingWriters
    ensures var d := Shifted(c, t, Holding(Reader));
      d.Forsaken() && d.readers == c.readers + {t} && d.Awake() == c.Awake() - {t}
  {
    var d := Shifted(c, t, Holding(Reader));
    assert d.sleepingReaders == c.sleepingReaders && d.sleepingWriters == c.sleepingWriters;
  }

  lemma ForsakenStuck(c: Crowd)
    requires c.Forsaken() && c.readers == {} && c.Awake() == {} && c.sleepingReaders <= c.waitingReaders
    ensures c.Stuck()
  {
  }

  lemma AwakeReader(c: Crowd) returns (t: Tid)
    requires c.Forsaken() && c.Awake() != {}
    ensures t in c.Awake() && t in c.waitingReaders - c.sleepingReaders
  {
    t := Someone(c.Awake());
  }

  /** A reader that leaves wakes nobody. */
  lemma LeavesQuietly(s: State, t: Tid)
    requires Safe(s) && CrowdOf(s.pc).Forsaken() && t in s.pc && s.pc[t] == Holding(Reader)
    ensures Enabled(s, t, Unlock({}))
  {
    var d := Shifted(CrowdOf(s.pc), t, Idle);
    WakesMeans(s, t, Reader);
    hide Count, Top, Wakes, CrowdOf, Holders, Waiters, Sleepers, Safe;
    assert d.waitingWriters == {};
    assert DueCall(d, Reader) == NoCall;
  }

  lemma ReaderLeaves(s: State, t: Tid) returns (n: State)
    requires Safe(s) && CrowdOf(s.pc).Forsaken() && t in CrowdOf(s.pc).readers
    ensures Enabled(s, t, Unlock({})) && n == Next(s, t, Unlock({})) && Safe(n)
    ensures var c, d := CrowdOf(s.pc), CrowdOf(n.pc);
      d.Forsaken() && d.readers == c.readers - {t} && d.Awake() == c.Awake()
  {
    hide Count, Top, Released, Wakes, Notified, Safe, Enabled, Shifted, Woken, Crowd.Forsaken, Crowd.Awake;
    var c := CrowdOf(s.pc);
    assert t in s.pc;
    CrowdMember(s.pc, t);
    hide CrowdOf;
    LeavesQuietly(s, t);
    UnlockSafe(s, t, {});
    n := Next(s, t, Unlock({}));
    assert CrowdOf(n.pc) == Woken(Shifted(c, t, Idle), {}) by {
      CrowdShifts(s.pc, t, Idle);
      CrowdWakens(s.pc[t := Idle], {});
    }
    ForsakenLeft(c, t);
  }

  /** An awake reader takes the lock. */
  lemma ReaderEnters(s: State, t: Tid) returns (n: State)
    requires Safe(s) && CrowdOf(s.pc).Forsaken() && t in CrowdOf(s.pc).waitingReaders - CrowdOf(s.pc).sleepingReaders
    ensures Enabled(s, t, Resume(true)) && n == Next(s, t, Resume(true)) && Safe(n)
    ensures var c, d := CrowdOf(s.pc), CrowdOf(n.pc);
      d.Forsaken() && d.readers == c.readers + {t} && d.Awake() == c.Awake() - {t}
  {
    var c := CrowdOf(s.pc);
    assert t in s.pc;
    CrowdMember(s.pc, t);
    CrowdShifts(s.pc, t, Holding(Reader));
    FreeMeans(s, Reader);
    assert Free(s.active, Reader);
    hide Count, Top, Granted, Deregistered, Free, CrowdOf, Safe;
    ForsakenEntered(c, t);
    ResumeSafe(s, t, true);
    n := Next(s, t, Resume(true));
  }

  /** When readers sleep without a writer to wake them, all others may come and go until only sleepers are left. */
  lemma {:induction false} ForsakenSticks(s: State) returns (states: seq<State>, steps: seq<(Tid, Event)>)
    requires Safe(s) && CrowdOf(s.pc).Forsaken()
    ensures WayOn(s, states, steps) && |states| == |steps| + 1 && CrowdOf(states[|steps|].pc).Stuck()
    decreases |CrowdOf(s.pc).Awake()|, |CrowdOf(s.pc).readers|
  {
    var c := CrowdOf(s.pc);
    CrowdShape(s.pc);
    hide Safe, CrowdOf, Enabled, Next, WayOn, Crowd.Forsaken, Crowd.Stuck, Crowd.Awake;
    if c.Awake() != {} {
      var t := AwakeReader(c);
      var n := ReaderEnters(s, t);
      states, steps := ForsakenSticks(n);
      states, steps := WayFrom(s, t, Resume(true), n, states, steps);
    } else if c.readers != {} {
      var t := Someone(c.readers);
      var n := ReaderLeaves(s, t);
      states, steps := ForsakenSticks(n);
      states, steps := WayFrom(s, t, Unlock({}), n, states, steps);
    } else {
      ForsakenStuck(c);
      NoStep(s);
      states, steps := [s], [];
    }
  }

  lemma NoStep(s: State)
    ensures WayOn(s, [s], [])
  {
  }

  lemma WayFrom(s: State, t: Tid, e: Event, n: State, states: seq<State>, steps: seq<(Tid, Event)>)
    returns (more: seq<State>, longer: seq<(Tid, Event)>)
    requires Enabled(s, t, e) && n == Next(s, t, e) && e != Resume(false) && WayOn(n, states, steps)
    ensures |states| == |steps| + 1 && WayOn(s, more, longer)
    ensures |more| == |longer| + 1 && more[|longer|] == states[|steps|]
  {
    hide Enabled, Next;
    LeadsFrom(s, t, e, states, steps, Goes());
    more, longer := [s] + states, [(t, e)] + steps;
  }

  /** A safe state is lively if and only if no wake-up is missing in it. */
  lemma LivelyIff(s: State)
    requires Safe(s)
    ensures CrowdOf(s.pc).Lively() <==> !MayStick(s)
  {
    hide Safe, CrowdOf, WayOn, Crowd.Forsaken, Crowd.Stuck, Crowd.Lively;
    LivelyMeans(CrowdOf(s.pc));
    if CrowdOf(s.pc).Lively() {
      forall states: seq<State>, steps: seq<(Tid, Event)> | WayOn(s, states, steps)
        ensures |states| == |steps| + 1 && !CrowdOf(states[|steps|].pc).Stuck()
      {
        WayStart(s, states, steps);
        WayStaysLively(s, states, steps, |steps|);
        LivelyMeans(CrowdOf(states[|steps|].pc));
      }
    } else if CrowdOf(s.pc).Forsaken() {
      var states, steps := ForsakenSticks(s);
    } else {
      NoStep(s);
      var states, steps: seq<(Tid, Event)> := [s], [];
      assert states[|steps|] == s;
    }
  }

  /** Wake-ups are lost only by failed waits, and only by those that swallow one: no state of a run can come to a stuck
      lock without a further failed wait if and only if none of its failed waits swallowed a wake-up. */
  lemma LostOnlyIfSwallowed(states: seq<State>, steps: seq<(Tid, Event)>, n: nat)
    requires Run(states, steps) && n < |states|
    ensures |states| == |steps| + 1
    ensures NothingSwallowed(states, steps, n) <==> forall i :: 0 <= i <= n ==> !MayStick(states[i])
  {
    RunLively(states, steps, n);
    forall i | 0 <= i <= n
      ensures CrowdOf(states[i].pc).Lively() <==> !MayStick(states[i])
    {
      RunSafe(states, steps, i);
      LivelyIff(states[i]);
    }
    hide MayStick, NothingSwallowed, CrowdOf;
  }

  /** Thread `u` is awake and gets the lock as soon as it runs. */
  ghost predicate Takes(s: State, u: Tid) {
    && Enabled(s, u, Resume(true))
    && var v := Next(s, u, Resume(true));
    && u in v.pc && v.pc[u] == Holding(s.pc[u].role)
  }

  lemma FreeTakes(s: State, u: Tid)
    requires Enabled(s, u, Resume(true)) && Free(s.active, s.pc[u].role)
    ensures Takes(s, u)
  {
    hide Free, Granted, Deregistered;
  }

  lemma SomeoneAwake(pc: map<Tid, Phase>, t: Tid) returns (u: Tid)
    requires CrowdOf(pc).Lively() && t in pc && pc[t].Waiting?
    requires forall v :: v in pc ==> !pc[v].Holding?
    ensures u in pc && pc[u].Waiting? && pc[u].awake
  {
    var c := CrowdOf(pc);
    CrowdMember(pc, t);
    assert c.readers == {} && c.writers == {};
    u := Someone(c.Awake());
    assert u in pc;
    CrowdMember(pc, u);
  }

  lemma UnheldIsFree(s: State, r: Role)
    requires Counted(s) && forall v :: v in s.pc ==> !s.pc[v].Holding?
    ensures Free(s.active, r)
  {
    FreeMeans(s, r);
    hide Free, Count, Top;
    assert Holders(s.pc, Reader) == {} && Holders(s.pc, Writer) == {};
  }

  lemma AwakeTakes(s: State, t: Tid) returns (u: Tid)
    requires Safe(s) && CrowdOf(s.pc).Lively() && t in s.pc && s.pc[t].Waiting?
    requires forall v :: v in s.pc ==> !s.pc[v].Holding?
    ensures Takes(s, u)
  {
    hide Free, Counted, Exclusive, CrowdOf, Next;
    u := SomeoneAwake(s.pc, t);
    UnheldIsFree(s, s.pc[u].role);
    FreeTakes(s, u);
  }

  // A wait that fails may swallow the only signal. Thread 0 writes, 1 waits to read and 2 to write; the signal
  // goes to 2, whose wait fails, and 1 sleeps on although nobody holds the lock.

  function Trio(p: Phase, q: Phase, r: Phase): map<Tid, Phase> {
    map[Thread(0) := p, Thread(1) := q, Thread(2) := r]
  }

  const R_ASLEEP := Waiting(Reader, false)
  const W_ASLEEP := Waiting(Writer, false)

  function SwallowedStates(): seq<State> {
    [ State(0, 0, Trio(Idle, Idle, Idle)),
      State(0x8000, 0, Trio(Holding(Writer), Idle, Idle)),
      State(0x8000, 1, Trio(Holding(Writer), R_ASLEEP, Idle)),
      State(0x8000, 0x8001, Trio(Holding(Writer), R_ASLEEP, W_ASLEEP)),
      State(0, 0x8001, Trio(Idle, R_ASLEEP, Waiting(Writer, true))),
      State(0, 1, Trio(Idle, R_ASLEEP, Idle)) ]
  }

  function SwallowedSteps(): seq<(Tid, Event)> {
    [ (Thread(0), Lock(Writer)), (Thread(1), Lock(Reader)), (Thread(2), Lock(Writer)),
      (Thread(0), Unlock({Thread(2)})), (Thread(2), Resume(false)) ]
  }

  lemma SwallowedLocks()
    ensures var s, e := State(0, 0, Trio(Idle, Idle, Idle)), Lock(Writer);
      Enabled(s, Thread(0), e) && Next(s, Thread(0), e) == State(0x8000, 0, Trio(Holding(Writer), Idle, Idle))
    ensures var s, e := State(0x8000, 0, Trio(Holding(Writer), Idle, Idle)), Lock(Reader);
      Enabled(s, Thread(1), e) && Next(s, Thread(1), e) == State(0x8000, 1, Trio(Holding(Writer), R_ASLEEP, Idle))
    ensures var s, e := State(0x8000, 1, Trio(Holding(Writer), R_ASLEEP, Idle)), Lock(Writer);
      && Enabled(s, Thread(2), e)
      && Next(s, Thread(2), e) == State(0x8000, 0x8001, Trio(Holding(Writer), R_ASLEEP, W_ASLEEP))
  {
  }

  lemma SwallowedUnlock()
    ensures var s := State(0x8000, 0x8001, Trio(Holding(Writer), R_ASLEEP, W_ASLEEP));
      && Enabled(s, Thread(0), Unlock({Thread(2)}))
      && Next(s, Thread(0), Unlock({Thread(2)})) == State(0, 0x8001, Trio(Idle, R_ASLEEP, Waiting(Writer, true)))
  {
    var pc := Trio(Holding(Writer), R_ASLEEP, W_ASLEEP);
    assert Sleepers(pc, Writer) == {Thread(2)};
    assert High(0x8001) == 1 && SetHigh(0x8000, 0) == 0;
    assert Notified(pc[Thread(0) := Idle], {Thread(2)}) == Trio(Idle, R_ASLEEP, Waiting(Writer, true));
  }

  lemma SwallowedResume()
    ensures var s, e := State(0, 0x8001, Trio(Idle, R_ASLEEP, Waiting(Writer, true))), Resume(false);
      Enabled(s, Thread(2), e) && Next(s, Thread(2), e) == State(0, 1, Trio(Idle, R_ASLEEP, Idle))
  {
    assert SetHigh(0x8001, High(0x8001) - 1) == 1;
  }

  lemma SwallowedStep(i: nat)
    requires i < 5
    ensures Enabled(SwallowedStates()[i], SwallowedSteps()[i].0, SwallowedSteps()[i].1)
    ensures SwallowedStates()[i + 1] == Next(SwallowedStates()[i], SwallowedSteps()[i].0, SwallowedSteps()[i].1)
  {
    SwallowedLocks();
    SwallowedUnlock();
    SwallowedResume();
    hide Next, Enabled, Trio;
    if i == 0 {
    } else if i == 1 {
    } else if i == 2 {
    } else if i == 3 {
    } else {
    }
  }

  lemma SleeperIsStuck()
    ensures CrowdOf(Trio(Idle, R_ASLEEP, Idle)).Stuck()
  {
    CrowdMember(Trio(Idle, R_ASLEEP, Idle), Thread(1));
  }

  /** What a swallowed wake-up leads to: after this run nobody holds the lock, thread 1 is registered as waiting, and
      nothing but a spurious wake-up lets it go on. */
  lemma FailedWaitLosesWakeup()
    ensures Run(SwallowedStates(), SwallowedSteps())
    ensures var last := SwallowedStates()[5];
      && CrowdOf(last.pc).Stuck() && last.pc == Trio(Idle, Waiting(Reader, false), Idle)
      && forall e :: Enabled(last, Thread(1), e) ==> e == Spurious
  {
    SwallowedRun();
    SleeperIsStuck();
    hide Run, Next, CrowdOf, Crowd.Stuck;
  }

  lemma SwallowedRun()
    ensures Run(SwallowedStates(), SwallowedSteps())
  {
    forall i | 0 <= i < 5
      ensures Enabled(SwallowedStates()[i], SwallowedSteps()[i].0, SwallowedSteps()[i].1)
      ensures SwallowedStates()[i + 1] == Next(SwallowedStates()[i], SwallowedSteps()[i].0, SwallowedSteps()[i].1)
    {
      SwallowedStep(i);
    }
    hide Next, Enabled;
    assert Initial(SwallowedStates()[0]);
  }

  // ----- the functions themselves -----

  /** `PRWLock`. Each method is one section under the mutex: what a function does from taking the mutex, or from a
      wait that returned, to the next wait or to giving the mutex back. `pc` follows the threads. */
  class Lock {
    var active: bv32
    var waiting: bv32
    ghost var pc: map<Tid, Phase>

    ghost function Now(): State
      reads this
    {
      State(active, waiting, pc)
    }

    /** `p_rwlock_new`. */
    constructor (ghost threads: set<Tid>)
      requires |threads| <= LIMIT
      ensures Initial(Now()) && pc.Keys == threads
    {
      active, waiting := 0, 0;
      pc := map t | t in threads :: Idle;
      new;
      assert pc.Keys == threads;
    }

    /** What a step from the present state decides. */
    lemma Decides(t: Tid, e: Event)
      requires Enabled(Now(), t, e)
      ensures (e.Resume? || e.Spurious?) ==> pc[t].Waiting?
      ensures Safe(Now()) ==> t in Next(Now(), t, e).pc && Next(Now(), t, e).pc[t] == Outcome(pc, t, e)
    {
      WokenWait(Now(), t, e);
      if Safe(Now()) {
        StepDecides(Now(), t, e);
      }
    }

    /** `p_rwlock_reader_lock`, until it returns or waits. */
    method ReaderLock(ghost t: Tid) returns (granted: bool)
      requires Enabled(Now(), t, Event.Lock(Reader))
      modifies this
      ensures Now() == old(Next(Now(), t, Event.Lock(Reader))) && (granted <==> pc[t] == Holding(Reader))
      ensures old(Safe(Now())) ==> (granted <==> old(Clear(pc, Reader)))
    {
      Decides(t, Event.Lock(Reader));
      hide Clear, Safe;
      if High(active) != 0 {
        waiting := SetLow(waiting, Low(waiting) + 1);
        pc := pc[t := Waiting(Reader, false)];
        granted := false;
      } else {
        active := SetLow(active, Low(active) + 1);
        pc := pc[t := Holding(Reader)];
        granted := true;
      }
    }

    /** `p_rwlock_reader_lock`, when its wait returns: `again` if it goes back to waiting. */
    method ReaderResume(waitOk: bool, ghost t: Tid) returns (granted: bool, again: bool)
      requires Enabled(Now(), t, Resume(waitOk)) && pc[t].role == Reader
      modifies this
      ensures Now() == old(Next(Now(), t, Resume(waitOk)))
      ensures (granted <==> pc[t].Holding?) && (again <==> pc[t].Waiting?)
      ensures old(Safe(Now())) && waitOk ==> (granted <==> old(Clear(pc, Reader)))
    {
      Decides(t, Resume(waitOk));
      hide Clear, Safe;
      granted, again := false, false;
      if waitOk && High(active) != 0 {
        again := true;
        pc := pc[t := Waiting(Reader, false)];
      } else {
        waiting := SetLow(waiting, Low(waiting) - 1);
        pc := pc[t := Idle];
        if waitOk {
          active := SetLow(active, Low(active) + 1);
          granted := true;
          pc := pc[t := Holding(Reader)];
        }
      }
    }

    /** `p_rwlock_reader_trylock`. */
    method ReaderTrylock(ghost t: Tid) returns (granted: bool)
      requires Enabled(Now(), t, Trylock(Reader))
      modifies this
      ensures Now() == old(Next(Now(), t, Trylock(Reader))) && (granted <==> pc[t] == Holding(Reader))
      ensures old(Safe(Now())) ==> (granted <==> old(Clear(pc, Reader)))
    {
      Decides(t, Trylock(Reader));
      hide Clear, Safe;
      if High(active) != 0 {
        return false;
      }
      active := SetLow(active, Low(active) + 1);
      pc := pc[t := Holding(Reader)];
      granted := true;
    }

    /** `p_rwlock_reader_unlock`; `woken` are the threads that its signal releases. */
    method ReaderUnlock(ghost t: Tid, ghost woken: set<Tid>)
      requires Enabled(Now(), t, Unlock(woken)) && pc[t].role == Reader
      modifies this
      ensures Now() == old(Next(Now(), t, Unlock(woken)))
    {
      ghost var call := NoCall;
      var readerCount := Low(active);
      if readerCount != 0 {
        active := SetLow(active, readerCount - 1);
        if readerCount == 1 && High(waiting) != 0 {
          call := SignalWriters;
        }
      }
      assert Releases(CrowdOf(pc), call, woken);
      pc := Notified(pc[t := Idle], woken);
    }

    /** `p_rwlock_writer_lock`, until it returns or waits. */
    method WriterLock(ghost t: Tid) returns (granted: bool)
      requires Enabled(Now(), t, Event.Lock(Writer))
      modifies this
      ensures Now() == old(Next(Now(), t, Event.Lock(Writer))) && (granted <==> pc[t] == Holding(Writer))
      ensures old(Safe(Now())) ==> (granted <==> old(Clear(pc, Writer)))
    {
      Decides(t, Event.Lock(Writer));
      hide Clear, Safe;
      if active != 0 {
        waiting := SetHigh(waiting, High(waiting) + 1);
        pc := pc[t := Waiting(Writer, false)];
        granted := false;
      } else {
        active := SetHigh(active, 1);
        pc := pc[t := Holding(Writer)];
        granted := true;
      }
    }

    /** `p_rwlock_writer_lock`, when its wait returns. */
    method WriterResume(waitOk: bool, ghost t: Tid) returns (granted: bool, again: bool)
      requires Enabled(Now(), t, Resume(waitOk)) && pc[t].role == Writer
      modifies this
      ensures Now() == old(Next(Now(), t, Resume(waitOk)))
      ensures (granted <==> pc[t].Holding?) && (again <==> pc[t].Waiting?)
      ensures old(Safe(Now())) && waitOk ==> (granted <==> old(Clear(pc, Writer)))
    {
      Decides(t, Resume(waitOk));
      hide Clear, Safe;
      granted, again := false, false;
      if waitOk && active != 0 {
        again := true;
        pc := pc[t := Waiting(Writer, false)];
      } else {
        waiting := SetHigh(waiting, High(waiting) - 1);
        pc := pc[t := Idle];
        if waitOk {
          active := SetHigh(active, 1);
          granted := true;
          pc := pc[t := Holding(Writer)];
        }
      }
    }

    /** `p_rwlock_writer_trylock`. */
    method WriterTrylock(ghost t: Tid) returns (granted: bool)
      requires Enabled(Now(), t, Trylock(Writer))
      modifies this
      ensures Now() == old(Next(Now(), t, Trylock(Writer))) && (granted <==> pc[t] == Holding(Writer))
      ensures old(Safe(Now())) ==> (granted <==> old(Clear(pc, Writer)))
    {
      Decides(t, Trylock(Writer));
      hide Clear, Safe;
      if active != 0 {
        return false;
      }
      active := SetHigh(active, 1);
      pc := pc[t := Holding(Writer)];
      granted := true;
    }

    /** `p_rwlock_writer_unlock`; `woken` are the threads that its signal or broadcast releases. */
    method WriterUnlock(ghost t: Tid, ghost woken: set<Tid>)
      requires Enabled(Now(), t, Unlock(woken)) && pc[t].role == Writer
      modifies this
      ensures Now() == old(Next(Now(), t, Unlock(woken)))
    {
      ghost var call := NoCall;
      active := SetHigh(active, 0);
      if High(waiting) != 0 {
        call := SignalWriters;
      } else if Low(waiting) != 0 {
        call := BroadcastReaders;
      }
      assert Releases(CrowdOf(pc), call, woken);
      pc := Notified(pc[t := Idle], woken);
    }
  }
}
