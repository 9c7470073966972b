// The read-write lock that plibsys/src/prwlock-win.c emulates on Windows XP: one packed word, changed
// only by compare-and-exchange, and an event to block on.

module RWLockXP {
  import opened PackedWord
  import opened Threads

  datatype Role = Reader | Writer

  const MAX_SPIN := 4000

  /** What a thread is about to do. `tmp` is the word it last read; `spins` is the loop counter of the two
      start functions. A blocked thread is registered as waiting until it takes itself off again. */
  datatype Phase =
    | Idle
    | Ask(role: Role, spins: nat)
    | Grab(role: Role, tmp: bv32, spins: nat)
    | Enlist(role: Role, tmp: bv32, spins: nat)
    | Blocked(role: Role)
    | Awoken(role: Role)
    | Delist(role: Role, tmp: bv32)
    | TryAsk(role: Role)
    | TryGrab(role: Role, tmp: bv32)
    | Holding(role: Role)
    | Leaving(role: Role)
    | Drop(role: Role, tmp: bv32)

  datatype State = State(word: bv32, pc: map<Tid, Phase>)

  /** A thread enters one of the six functions, or goes on by one atomic access. */
  datatype Event = Start(role: Role) | Try(role: Role) | End | Go

  // ----- the macros on the word -----

  predicate IsWriter(w: bv32) { w & 0x40000000 != 0 }

  predicate IsClear(w: bv32) { w & 0x40007FFF == 0 }

  function SetWriter(w: bv32): bv32 { w | 0x40000000 }

  function UnsetWriter(w: bv32): bv32 { w & !0x40000000 }

  /** The test by which a start or try function decides that it may enter. */
  predicate FreeFor(w: bv32, r: Role) {
    match r
    case Reader => !IsWriter(w)
    case Writer => IsClear(w)
  }

  function Taken(w: bv32, r: Role): bv32 {
    match r
    case Reader => SetLow(w, Low(w) + 1)
    case Writer => SetWriter(w)
  }

  function Dropped(w: bv32, r: Role): bv32 {
    match r
    case Reader => SetLow(w, Low(w) - 1)
    case Writer => UnsetWriter(w)
  }

  function OneMoreWaits(w: bv32): bv32 { SetHigh(w, High(w) + 1) }

  function OneLessWaits(w: bv32): bv32 { SetHigh(w, High(w) - 1) }

  // ----- the steps -----

  /** What a thread does next after reading `w`. */
  function AfterRead(p: Phase, w: bv32): Phase
    requires p.Ask? || p.Awoken? || p.TryAsk? || p.Leaving?
  {
    match p
    case Ask(r, i) =>
      if FreeFor(w, r) then Grab(r, w, i)
      else if i < MAX_SPIN then Ask(r, i + 1)
      else Enlist(r, w, i)
    case Awoken(r) => Delist(r, w)
    case TryAsk(r) => if FreeFor(w, r) then TryGrab(r, w) else Idle
    case Leaving(Reader) => if Low(w) == 0 then Idle else Drop(Reader, w)
    case Leaving(Writer) =>
      if !IsWriter(w) then Idle
      else if High(w) != 0 then Leaving(Writer)
      else Drop(Writer, w)
  }

  predicate Exchanges(p: Phase) { p.Grab? || p.Enlist? || p.Delist? || p.TryGrab? || p.Drop? }

  /** The word that a compare-and-exchange puts in place of `p.tmp`. */
  function Offered(p: Phase): bv32
    requires Exchanges(p)
  {
    match p
    case Grab(r, tmp, _) => Taken(tmp, r)
    case TryGrab(r, tmp) => Taken(tmp, r)
    case Enlist(_, tmp, _) => OneMoreWaits(tmp)
    case Delist(_, tmp) => OneLessWaits(tmp)
    case Drop(r, tmp) => Dropped(tmp, r)
  }

  function AfterExchange(p: Phase, ok: bool): Phase
    requires Exchanges(p)
  {
    match p
    case Grab(r, _, i) => if ok then Holding(r) else Ask(r, i + 1)
    case TryGrab(r, _) => if ok then Holding(r) else Idle
    case Enlist(r, _, i) => if ok then Blocked(r) else Ask(r, i + 1)
    case Delist(r, _) => if ok then Ask(r, 1) else Awoken(r)
    case Drop(r, _) => if ok then Idle else Leaving(r)
  }

  ghost predicate Enabled(s: State, t: Tid, e: Event) {
    && t in s.pc
    && match e
       case Start(_) => s.pc[t] == Idle
       case Try(_) => s.pc[t] == Idle
       case End => s.pc[t].Holding?
       case Go => !s.pc[t].Idle? && !s.pc[t].Holding?
  }

  function Next(s: State, t: Tid, e: Event): State
    requires t in s.pc
  {
    var p := s.pc[t];
    match e
    case Start(r) => s.(pc := s.pc[t := Ask(r, 0)])
    case Try(r) => s.(pc := s.pc[t := TryAsk(r)])
    case End => if p.Holding? then s.(pc := s.pc[t := Leaving(p.role)]) else s
    case Go =>
      if Exchanges(p) then
        if s.word == p.tmp then State(Offered(p), s.pc[t := AfterExchange(p, true)])
        else s.(pc := s.pc[t := AfterExchange(p, false)])
      else if p.Blocked? then s.(pc := s.pc[t := Awoken(p.role)])
      else if p.Idle? || p.Holding? then s
      else s.(pc := s.pc[t := AfterRead(p, s.word)])
  }

  ghost predicate Initial(s: State) {
    s.word == 0 && |s.pc.Keys| <= LIMIT && forall t :: t in s.pc ==> s.pc[t] == Idle
  }

  /** What a step does. */
  ghost function Goes(): (State, Tid, Event, State) -> bool {
    (s: State, t: Tid, e: Event, n: State) => Enabled(s, t, e) && n == Next(s, t, e)
  }

  /** A run passes through `states` when thread `steps[i].0` takes step `steps[i].1`. */
  ghost predicate Run(states: seq<State>, steps: seq<(Tid, Event)>) {
    Leads(states, steps, Goes()) && Initial(states[0])
  }

  // ----- what the word says -----

  datatype Fields = Fields(readers: nat, waiting: nat, writer: bool)

  function FieldsOf(w: bv32): Fields { Fields(LowCount(w), HighCount(w), IsWriter(w)) }

  function IsHolder(r: Role): Phase -> bool {
    (p: Phase) => (p.Holding? || p.Leaving? || p.Drop?) && p.role == r
  }

  function IsRegistered(): Phase -> bool {
    (p: Phase) => p.Blocked? || p.Awoken? || p.Delist?
  }

  function Holders(pc: map<Tid, Phase>, r: Role): set<Tid> { Having(pc, IsHolder(r)) }

  function Registered(pc: map<Tid, Phase>): set<Tid> { Having(pc, IsRegistered()) }

  /** The reader field is the number of read holders, the waiting field the number of registered threads, and the
      writer bit is set exactly when there is a write holder. */
  ghost predicate Counted(s: State) {
    FieldsOf(s.word) ==
      Fields(|Holders(s.pc, Reader)|, |Registered(s.pc)|, Holders(s.pc, Writer) != {})
  }

  ghost predicate Exclusive(s: State) {
    && |Holders(s.pc, Writer)| <= 1
    && (Holders(s.pc, Writer) == {} || Holders(s.pc, Reader) == {})
  }

  /** What a thread still knows about the word it read. */
  predicate Knows(p: Phase) {
    match p
    case Grab(r, tmp, _) => FreeFor(tmp, r)
    case TryGrab(r, tmp) => FreeFor(tmp, r)
    case Enlist(r, tmp, i) => !FreeFor(tmp, r) && MAX_SPIN <= i
    case Drop(Reader, tmp) => Low(tmp) != 0
    case Drop(Writer, tmp) => IsWriter(tmp) && High(tmp) == 0
    case _ => true
  }

  ghost predicate Safe(s: State) {
    |s.pc.Keys| <= LIMIT && Counted(s) && Exclusive(s) && forall t :: t in s.pc ==> Knows(s.pc[t])
  }

  // ----- the macros on the fields -----

  lemma FreeFields(w: bv32, r: Role)
    ensures FreeFor(w, r) <==> !FieldsOf(w).writer && (r == Writer ==> FieldsOf(w).readers == 0)
  {
    assert IsClear(w) <==> !IsWriter(w) && Low(w) == 0;
    ZeroCount(Low(w));
  }

  lemma SameFlag(v: bv32, w: bv32)
    requires Top(v) == Top(w)
    ensures IsWriter(v) == IsWriter(w)
  {
    assert v & 0x40000000 == (v & 0xC0000000) & 0x40000000;
    assert w & 0x40000000 == (w & 0xC0000000) & 0x40000000;
  }

  lemma WriterFlag(w: bv32)
    ensures IsWriter(SetWriter(w)) && Low(SetWriter(w)) == Low(w) && High(SetWriter(w)) == High(w)
    ensures !IsWriter(UnsetWriter(w)) && Low(UnsetWriter(w)) == Low(w) && High(UnsetWriter(w)) == High(w)
  {
  }

  lemma TakenFields(w: bv32, r: Role)
    requires FieldsOf(w).readers < LIMIT
    ensures FieldsOf(Taken(w, r)) ==
      if r == Reader then FieldsOf(w).(readers := FieldsOf(w).readers + 1) else FieldsOf(w).(writer := true)
  {
    if r == Reader {
      LowRaised(w);
      SameFlag(Taken(w, r), w);
    } else {
      WriterFlag(w);
    }
  }

  lemma DroppedFields(w: bv32, r: Role)
    requires r == Reader ==> Low(w) != 0
    ensures r == Reader ==> 0 < FieldsOf(w).readers
    ensures FieldsOf(Dropped(w, r)) ==
      if r == Reader then FieldsOf(w).(readers := FieldsOf(w).readers - 1) else FieldsOf(w).(writer := false)
  {
    if r == Reader {
      ZeroCount(Low(w));
      LowLowered(w);
      SameFlag(Dropped(w, r), w);
    } else {
      WriterFlag(w);
    }
  }

  lemma WaitsFields(w: bv32)
    ensures var f := FieldsOf(w);
      && (f.waiting < LIMIT ==> FieldsOf(OneMoreWaits(w)) == f.(waiting := f.waiting + 1))
      && (0 < f.waiting ==> FieldsOf(OneLessWaits(w)) == f.(waiting := f.waiting - 1))
  {
    if HighCount(w) < LIMIT {
      HighRaised(w);
      SameFlag(OneMoreWaits(w), w);
    }
    if 0 < HighCount(w) {
      HighLowered(w);
      SameFlag(OneLessWaits(w), w);
    }
  }

  // ----- safety -----

  function Add(b: bool): nat { if b then 1 else 0 }

  lemma Moves(pc: map<Tid, Phase>, t: Tid, p: Phase)
    requires t in pc
    ensures pc[t := p].Keys == pc.Keys
    ensures forall r :: |Holders(pc[t := p], r)| == |Holders(pc, r)| + Add(IsHolder(r)(p)) - Add(IsHolder(r)(pc[t]))
    ensures |Registered(pc[t := p])| == |Registered(pc)| + Add(IsRegistered()(p)) - Add(IsRegistered()(pc[t]))
  {
    assert pc[t := p].Keys == pc.Keys;
    forall r
      ensures |Holders(pc[t := p], r)| == |Holders(pc, r)| + Add(IsHolder(r)(p)) - Add(IsHolder(r)(pc[t]))
    {
      HavingMoved(pc, t, p, IsHolder(r));
    }
    HavingMoved(pc, t, p, IsRegistered());
  }

  /** What the word should say once thread `t` goes to phase `p`. */
  function Due(s: State, t: Tid, p: Phase): Fields
    requires t in s.pc
  {
    var f, q := FieldsOf(s.word), s.pc[t];
    Fields(Less(f.readers + Add(IsHolder(Reader)(p)), Add(IsHolder(Reader)(q))),
           Less(f.waiting + Add(IsRegistered()(p)), Add(IsRegistered()(q))),
           if IsHolder(Writer)(p) == IsHolder(Writer)(q) then f.writer else IsHolder(Writer)(p))
  }

  function Less(a: nat, b: nat): nat { if b <= a then a - b else 0 }

  /** Thread `t` goes to phase `p` and the word follows. Only a thread that finds the word free becomes a holder. */
  lemma StillSafe(s: State, t: Tid, p: Phase, w: bv32)
    requires Safe(s) && t in s.pc && Knows(p) && FieldsOf(w) == Due(s, t, p)
    requires forall r :: IsHolder(r)(p) && !IsHolder(r)(s.pc[t]) ==> FreeFor(s.word, r)
    ensures Safe(State(w, s.pc[t := p]))
  {
    FreeFields(s.word, Reader);
    FreeFields(s.word, Writer);
    hide FieldsOf, FreeFor;
    Moves(s.pc, t, p);
    Inside(s.pc, t);
    hide Holders, Registered, Having;
    assert Counted(State(w, s.pc[t := p]));
    assert Exclusive(State(w, s.pc[t := p]));
  }

  /** A thread counted in a field keeps that field above zero. */
  lemma Inside(pc: map<Tid, Phase>, t: Tid)
    requires t in pc
    ensures forall r :: IsHolder(r)(pc[t]) ==> 0 < |Holders(pc, r)|
    ensures IsRegistered()(pc[t]) ==> 0 < |Registered(pc)|
  {
    assert forall r :: IsHolder(r)(pc[t]) ==> t in Holders(pc, r);
    assert IsRegistered()(pc[t]) ==> t in Registered(pc);
  }

  /** Thread `t` goes to phase `p`, which counts as its old one, and leaves the word alone. */
  lemma QuietSafe(s: State, t: Tid, p: Phase)
    requires Safe(s) && t in s.pc && Knows(p)
    requires IsRegistered()(p) == IsRegistered()(s.pc[t])
    requires forall r :: IsHolder(r)(p) == IsHolder(r)(s.pc[t])
    ensures Safe(s.(pc := s.pc[t := p]))
  {
    Inside(s.pc, t);
    StillSafe(s, t, p, s.word);
  }

  /** A holder that comes to release never finds the lock without its mark, so it does not take the early exit. */
  lemma NoEarlyExit(s: State, t: Tid)
    requires Safe(s) && t in s.pc && s.pc[t].Leaving?
    ensures AfterRead(s.pc[t], s.word) == Leaving(Writer) || AfterRead(s.pc[t], s.word) == Drop(s.pc[t].role, s.word)
  {
    Inside(s.pc, t);
    assert IsHolder(s.pc[t].role)(s.pc[t]);
    ZeroCount(Low(s.word));
  }

  lemma ReadSafe(s: State, t: Tid)
    requires Safe(s) && t in s.pc && (var p := s.pc[t]; p.Ask? || p.Awoken? || p.TryAsk? || p.Leaving?)
    ensures Safe(State(s.word, s.pc[t := AfterRead(s.pc[t], s.word)]))
  {
    var p := s.pc[t];
    if p.Leaving? {
      NoEarlyExit(s, t);
    }
    QuietSafe(s, t, AfterRead(p, s.word));
  }

  lemma RoomFor(s: State, t: Tid)
    requires Safe(s) && t in s.pc
    ensures !IsHolder(Reader)(s.pc[t]) ==> FieldsOf(s.word).readers < LIMIT
    ensures !IsRegistered()(s.pc[t]) ==> FieldsOf(s.word).waiting < LIMIT
  {
    if !IsHolder(Reader)(s.pc[t]) {
      HavingOthers(s.pc, IsHolder(Reader), t);
    }
    if !IsRegistered()(s.pc[t]) {
      HavingOthers(s.pc, IsRegistered(), t);
    }
  }

  lemma EnterFields(s: State, t: Tid, r: Role)
    requires Safe(s) && t in s.pc && (s.pc[t].Grab? || s.pc[t].TryGrab?) && s.pc[t].role == r
    ensures FieldsOf(Taken(s.word, r)) == Due(s, t, Holding(r))
  {
    hide FieldsOf, Taken, Dropped, OneMoreWaits, OneLessWaits, Safe, Having;
    RoomFor(s, t);
    TakenFields(s.word, r);
  }

  lemma EnlistFields(s: State, t: Tid, r: Role)
    requires Safe(s) && t in s.pc && s.pc[t].Enlist?
    ensures FieldsOf(OneMoreWaits(s.word)) == Due(s, t, Blocked(r))
  {
    hide FieldsOf, Taken, Dropped, OneMoreWaits, OneLessWaits, Safe, Having;
    RoomFor(s, t);
    WaitsFields(s.word);
  }

  lemma RegisteredMeans(s: State)
    requires Safe(s)
    ensures FieldsOf(s.word).waiting == |Registered(s.pc)|
  {
  }

  lemma DelistFields(s: State, t: Tid, r: Role)
    requires Safe(s) && t in s.pc && s.pc[t].Delist?
    ensures FieldsOf(OneLessWaits(s.word)) == Due(s, t, Ask(r, 1))
  {
    RegisteredMeans(s);
    hide FieldsOf, Taken, Dropped, OneMoreWaits, OneLessWaits, Safe, Having;
    Inside(s.pc, t);
    WaitsFields(s.word);
  }

  lemma DropFields(s: State, t: Tid, r: Role)
    requires Safe(s) && t in s.pc && s.pc[t] == Drop(r, s.word)
    ensures FieldsOf(Dropped(s.word, r)) == Due(s, t, Idle)
  {
    assert Knows(s.pc[t]);
    hide FieldsOf, Taken, Dropped, OneMoreWaits, OneLessWaits, Safe, Having;
    Inside(s.pc, t);
    DroppedFields(s.word, r);
  }

  lemma ExchangeFields(s: State, t: Tid)
    requires Safe(s) && t in s.pc && Exchanges(s.pc[t]) && s.word == s.pc[t].tmp
    ensures FieldsOf(Offered(s.pc[t])) == Due(s, t, AfterExchange(s.pc[t], true))
  {
    hide FieldsOf, Due, Taken, Dropped, OneMoreWaits, OneLessWaits, Safe;
    var p := s.pc[t];
    match p {
      case Grab(r, w, _) => EnterFields(s, t, r);
      case TryGrab(r, w) => EnterFields(s, t, r);
      case Enlist(r, w, _) => EnlistFields(s, t, r);
      case Delist(r, w) => DelistFields(s, t, r);
      case Drop(r, w) => DropFields(s, t, r);
      case _ =>
    }
  }

  lemma ExchangeFinds(p: Phase)
    requires Exchanges(p) && Knows(p)
    ensures Knows(AfterExchange(p, true)) && Knows(AfterExchange(p, false))
    ensures forall r :: IsHolder(r)(AfterExchange(p, true)) && !IsHolder(r)(p) ==> FreeFor(p.tmp, r)
    ensures IsRegistered()(AfterExchange(p, false)) == IsRegistered()(p)
    ensures forall r :: IsHolder(r)(AfterExchange(p, false)) == IsHolder(r)(p)
  {
  }

  lemma ExchangeSafe(s: State, t: Tid)
    requires Safe(s) && t in s.pc && Exchanges(s.pc[t])
    ensures Safe(Next(s, t, Go))
  {
    var p := s.pc[t];
    assert Knows(p);
    ExchangeFinds(p);
    hide FieldsOf, Due, Offered, FreeFor, AfterExchange, Exchanges, Safe, Knows, IsHolder, IsRegistered;
    if s.word == p.tmp {
      ExchangeFields(s, t);
      StillSafe(s, t, AfterExchange(p, true), Offered(p));
    } else {
      QuietSafe(s, t, AfterExchange(p, false));
    }
  }

  /** Every atomic step of every thread keeps the lock safe. */
  lemma StepSafe(s: State, t: Tid, e: Event)
    requires Safe(s) && Enabled(s, t, e)
    ensures Safe(Next(s, t, e))
  {
    hide Safe, Exchanges, AfterRead, AfterExchange, Offered;
    var p := s.pc[t];
    match e {
      case Start(r) => QuietSafe(s, t, Ask(r, 0));
      case Try(r) => QuietSafe(s, t, TryAsk(r));
      case End => QuietSafe(s, t, Leaving(p.role));
      case Go =>
        if Exchanges(p) {
          ExchangeSafe(s, t);
        } else {
          PlainSafe(s, t);
        }
    }
  }

  lemma PlainSafe(s: State, t: Tid)
    requires Safe(s) && Enabled(s, t, Go) && !Exchanges(s.pc[t])
    ensures Safe(Next(s, t, Go))
  {
    hide Safe, AfterRead, AfterExchange, Offered;
    if s.pc[t].Blocked? {
      QuietSafe(s, t, Awoken(s.pc[t].role));
    } else {
      ReadSafe(s, t);
    }
  }

  // ----- what each access decides -----

  /** Nobody is in the way of a request: there is no write holder and, for a writer, no read holder either. */
  ghost predicate Clear(pc: map<Tid, Phase>, r: Role) {
    forall v :: v in pc ==> !IsHolder(Writer)(pc[v]) && (r == Writer ==> !IsHolder(Reader)(pc[v]))
  }

  lemma NoHolder(pc: map<Tid, Phase>, r: Role)
    ensures Holders(pc, r) == {} <==> forall v :: v in pc ==> !IsHolder(r)(pc[v])
  {
    forall v | v in pc && IsHolder(r)(pc[v])
      ensures Holders(pc, r) != {}
    {
      assert v in Holders(pc, r);
    }
  }

  lemma FreeIffClear(s: State, r: Role)
    requires Safe(s)
    ensures FreeFor(s.word, r) <==> Clear(s.pc, r)
  {
    FreeFields(s.word, r);
    HoldersMean(s);
    hide FieldsOf, FreeFor, Holders, Safe, IsHolder;
    NoHolder(s.pc, Writer);
    NoHolder(s.pc, Reader);
  }

  lemma HoldersMean(s: State)
    requires Safe(s)
    ensures FieldsOf(s.word).writer <==> Holders(s.pc, Writer) != {}
    ensures FieldsOf(s.word).readers == 0 <==> Holders(s.pc, Reader) == {}
  {
  }

  /** What becomes of a thread in phase `p` that accesses the word `w`, told from what the threads are doing. A request
      goes on to its exchange if and only if nobody is in its way; a writer that leaves waits for those registered. An
      exchange succeeds if and only if the word is as it was read. */
  ghost function Outcome(pc: map<Tid, Phase>, p: Phase, w: bv32): Phase {
    match p
    case Ask(r, i) =>
      if Clear(pc, r) then Grab(r, w, i) else if i < MAX_SPIN then Ask(r, i + 1) else Enlist(r, w, i)
    case TryAsk(r) => if Clear(pc, r) then TryGrab(r, w) else Idle
    case Grab(r, tmp, i) => if w == tmp then Holding(r) else Ask(r, i + 1)
    case TryGrab(r, tmp) => if w == tmp then Holding(r) else Idle
    case Enlist(r, tmp, i) => if w == tmp then Blocked(r) else Ask(r, i + 1)
    case Blocked(r) => Awoken(r)
    case Awoken(r) => Delist(r, w)
    case Delist(r, tmp) => if w == tmp then Ask(r, 1) else Awoken(r)
    case Leaving(r) => if r == Writer && Registered(pc) != {} then Leaving(r) else Drop(r, w)
    case Drop(r, tmp) => if w == tmp then Idle else Leaving(r)
    case Idle => Idle
    case Holding(r) => Holding(r)
  }

  lemma ReadDecides(s: State, t: Tid)
    requires Safe(s) && t in s.pc && (var p := s.pc[t]; p.Ask? || p.Awoken? || p.TryAsk? || p.Leaving?)
    ensures AfterRead(s.pc[t], s.word) == Outcome(s.pc, s.pc[t], s.word)
  {
    FreeIffClear(s, Reader);
    FreeIffClear(s, Writer);
    if s.pc[t].Leaving? {
      NoEarlyExit(s, t);
      RegisteredMeans(s);
      ZeroCount(High(s.word));
    }
    hide FreeFor, Clear, Safe;
  }

  /** An access moves its own thread as the other threads decide, and no other thread. */
  lemma AccessDecides(s: State, t: Tid)
    requires Safe(s) && Enabled(s, t, Go)
    ensures var n := Next(s, t, Go);
      && n.pc == s.pc[t := Outcome(s.pc, s.pc[t], s.word)]
      && (n.word != s.word ==> Exchanges(s.pc[t]) && s.word == s.pc[t].tmp)
  {
    if !Exchanges(s.pc[t]) && !s.pc[t].Blocked? {
      ReadDecides(s, t);
    }
    hide AfterRead, Clear, Safe, FreeFor, Offered;
  }

  // ----- whole runs -----

  /** How many steps thread `t` has taken. */
  function Own(steps: seq<(Tid, Event)>, t: Tid): nat {
    if steps == [] then 0
    else Own(steps[..|steps| - 1], t) + if steps[|steps| - 1].0 == t then 1 else 0
  }

  lemma OwnStep(steps: seq<(Tid, Event)>, t: Tid, e: Event)
    ensures Own(steps + [(t, e)], t) == Own(steps, t) + 1
  {
    assert (steps + [(t, e)])[..|steps|] == steps;
  }

  lemma {:induction false} OwnGrows(some: seq<(Tid, Event)>, more: seq<(Tid, Event)>, t: Tid)
    requires some <= more
    ensures Own(some, t) <= Own(more, t)
  {
    if some != more {
      OwnGrows(some, more[..|more| - 1], t);
    }
  }

  lemma RunStep(states: seq<State>, steps: seq<(Tid, Event)>, n: nat)
    requires Run(states, steps) && 0 < n < |states|
    ensures |states| == |steps| + 1
    ensures Enabled(states[n - 1], steps[n - 1].0, steps[n - 1].1)
    ensures states[n] == Next(states[n - 1], steps[n - 1].0, steps[n - 1].1)
  {
    assert Goes()(states[n - 1], steps[n - 1].0, steps[n - 1].1, states[n - 1 + 1]);
  }

  lemma InitialSafe(s: State)
    requires Initial(s)
    ensures Safe(s)
  {
    assert Holders(s.pc, Reader) == {} && Holders(s.pc, Writer) == {} && Registered(s.pc) == {};
    assert Number(0) == 0;
  }

  lemma {:induction false} RunSafe(states: seq<State>, steps: seq<(Tid, Event)>, n: nat)
    requires Run(states, steps) && n < |states|
    ensures Safe(states[n])
  {
    if n == 0 {
      InitialSafe(states[0]);
    } else {
      RunStep(states, steps, n);
      hide *;
      RunSafe(states, steps, n - 1);
      StepSafe(states[n - 1], steps[n - 1].0, steps[n - 1].1);
    }
  }

  /** Under every interleaving of the atomic accesses a writer is alone, and the three fields of the word are the
      read holders, the registered threads and the presence of a write holder. */
  lemma MutualExclusion(states: seq<State>, steps: seq<(Tid, Event)>, n: nat, t: Tid, u: Tid)
    requires Run(states, steps) && n < |states|
    requires t in states[n].pc && u in states[n].pc && t != u
    ensures Counted(states[n])
    ensures IsHolder(Writer)(states[n].pc[t]) ==>
              !IsHolder(Writer)(states[n].pc[u]) && !IsHolder(Reader)(states[n].pc[u])
  {
    RunSafe(states, steps, n);
    var pc := states[n].pc;
    if IsHolder(Writer)(pc[t]) {
      assert t in Holders(pc, Writer);
      if IsHolder(Writer)(pc[u]) {
        OnlyOne(Holders(pc, Writer), t, u);
      }
      assert IsHolder(Reader)(pc[u]) ==> u in Holders(pc, Reader);
    }
  }

  /** In every interleaving an access ends as the threads decide: a request goes on to its exchange, and a try is not
      refused at once, if and only if nobody is in its way. */
  lemma RunDecides(states: seq<State>, steps: seq<(Tid, Event)>, n: nat)
    requires Run(states, steps) && n < |steps|
    ensures |states| == |steps| + 1 && steps[n].0 in states[n].pc
    ensures steps[n].1 == Go ==>
      states[n + 1].pc == states[n].pc[steps[n].0 := Outcome(states[n].pc, states[n].pc[steps[n].0], states[n].word)]
  {
    RunLength(states, steps);
    RunStep(states, steps, n + 1);
    RunSafe(states, steps, n);
    if steps[n].1 == Go {
      AccessDecides(states[n], steps[n].0);
    }
    hide Run, Safe, Next, Outcome;
  }

  lemma RunLength(states: seq<State>, steps: seq<(Tid, Event)>)
    requires Run(states, steps)
    ensures |states| == |steps| + 1
  {
  }

  /** From index `m` of the run on, thread `t` found somebody in its way. */
  ghost predicate Hindered(states: seq<State>, m: nat, r: Role) {
    exists k :: m < k < |states| && !Clear(states[k].pc, r)
  }

  /** From index `m` of the run on, others changed the word between two accesses of thread `t`. */
  ghost predicate Disturbed(states: seq<State>, steps: seq<(Tid, Event)>, t: Tid, m: nat)
    requires |states| == |steps| + 1
  {
    exists i, j :: m < i <= j < |steps| && Between(states, steps, t, i, j) && states[i].word != states[j].word
  }

  /** Step `i - 1` is an access of `t` and step `j` its next one. */
  ghost predicate Between(states: seq<State>, steps: seq<(Tid, Event)>, t: Tid, i: nat, j: nat)
    requires 0 < i <= j < |steps| < |states|
  {
    steps[i - 1] == (t, Go) && steps[j] == (t, Go) && forall k :: i <= k < j ==> steps[k].0 != t
  }

  lemma StopsHolding(s: State, t: Tid, e: Event, r: Role)
    requires Safe(s) && Enabled(s, t, e) && IsHolder(r)(s.pc[t]) && !IsHolder(r)(Next(s, t, e).pc[t])
    ensures s.pc[t] == Drop(r, s.word) && Next(s, t, e).word == Dropped(s.word, r)
  {
    if s.pc[t].Leaving? {
      NoEarlyExit(s, t);
    }
  }

  lemma DropMeans(s: State, t: Tid, r: Role)
    requires Safe(s) && t in s.pc && s.pc[t] == Drop(r, s.word)
    ensures r == Writer ==> |Registered(s.pc)| == 0
    ensures FieldsOf(s.word).writer == (r == Writer) && (r == Reader <==> 0 < FieldsOf(s.word).readers)
    ensures FieldsOf(Dropped(s.word, r)) ==
      if r == Reader then FieldsOf(s.word).(readers := FieldsOf(s.word).readers - 1) else Fields(0, 0, false)
  {
    Inside(s.pc, t);
    DroppedFields(s.word, r);
    assert Knows(s.pc[t]);
    ZeroCount(High(s.word));
    assert IsHolder(r)(s.pc[t]) && |Holders(s.pc, r)| > 0;
  }

  /** A holder stops holding only by an exchange that takes its own mark off the word; for a writer that word is
      then clear, since it had no thread registered as waiting. */
  lemma ReleaseIsAnExchange(states: seq<State>, steps: seq<(Tid, Event)>, n: nat, r: Role)
    requires Run(states, steps) && n < |steps|
    requires var t := steps[n].0;
      t in states[n].pc && t in states[n + 1].pc &&
      IsHolder(r)(states[n].pc[t]) && !IsHolder(r)(states[n + 1].pc[t])
    ensures r == Writer ==>
      FieldsOf(states[n].word) == Fields(0, 0, true) && FieldsOf(states[n + 1].word) == Fields(0, 0, false)
    ensures r == Reader ==>
      var f := FieldsOf(states[n].word);
      !f.writer && 0 < f.readers && FieldsOf(states[n + 1].word) == f.(readers := f.readers - 1)
  {
    var s, t := states[n], steps[n].0;
    RunSafe(states, steps, n);
    RunStep(states, steps, n + 1);
    StopsHolding(s, t, steps[n].1, r);
    hide Next, Enabled, Run;
    DropMeans(s, t, r);
  }

  // ----- the functions themselves -----

  /** Whatever the other threads do from state `m` to state `n`, thread `t` stays where it is. */
  lemma {:induction false} OthersKeep(states: seq<State>, steps: seq<(Tid, Event)>, m: nat, n: nat, t: Tid)
    requires Run(states, steps) && m <= n < |states| == |steps| + 1 && t in states[m].pc
    requires forall i :: m <= i < n ==> steps[i].0 != t
    ensures Safe(states[n]) && t in states[n].pc && states[n].pc[t] == states[m].pc[t]
    decreases n
  {
    RunSafe(states, steps, n);
    hide Safe;
    if m < n {
      OthersKeep(states, steps, m, n - 1, t);
      RunStep(states, steps, n);
    }
  }

  lemma RunGrows(states: seq<State>, steps: seq<(Tid, Event)>, t: Tid, e: Event)
    requires Run(states, steps) && |states| == |steps| + 1 && Enabled(states[|steps|], t, e)
    ensures Run(states + [Next(states[|steps|], t, e)], steps + [(t, e)])
  {
    var n := Next(states[|steps|], t, e);
    hide Enabled, Next, Initial;
    LeadsOn(states, steps, Goes(), t, e, n);
  }

  lemma ExchangeStep(s: State, t: Tid)
    requires t in s.pc && Exchanges(s.pc[t])
    ensures var ok, u := s.word == s.pc[t].tmp, Next(s, t, Go);
      && u.word == (if ok then Offered(s.pc[t]) else s.word) && t in u.pc && u.pc[t] == AfterExchange(s.pc[t], ok)
  {
    hide Offered, AfterExchange;
  }

  /** `PRWLockXP`. The loops of the source run until their exchange succeeds; here `turns` bounds them. `states` and
      `steps` are the run so far. */
  class Lock {
    var word: bv32
    ghost var pc: map<Tid, Phase>
    ghost var states: seq<State>
    ghost var steps: seq<(Tid, Event)>

    ghost function Now(): State
      reads this
    {
      State(word, pc)
    }

    /** The lock is where its run has led. */
    ghost predicate Valid()
      reads this
    {
      Run(states, steps) && |states| == |steps| + 1 && states[|steps|] == Now() && Safe(Now())
    }

    /** The run goes on from where it was. */
    twostate predicate Continues()
      reads this
    {
      old(states) <= states && old(steps) <= steps
    }

    /** The run ends with an access of thread `t` that it did not contain before. */
    twostate predicate Advances(t: Tid)
      reads this
    {
      |old(steps)| < |steps| < |states| && steps[|steps| - 1] == (t, Go) && old(Own(steps, t)) < Own(steps, t)
    }

    /** Thread `t` has gone at least `n` steps further. */
    twostate predicate Tries(t: Tid, n: nat)
      reads this
    {
      old(Own(steps, t)) + n <= Own(steps, t)
    }

    /** `pp_rwlock_init_xp`. */
    constructor (ghost threads: set<Tid>)
      requires |threads| <= LIMIT
      ensures Valid() && Initial(Now()) && steps == [] && pc.Keys == threads
    {
      word := 0;
      pc := map t | t in threads :: Idle;
      new;
      assert pc.Keys == threads;
      InitialSafe(Now());
      states, steps := [Now()], [];
    }

    ghost predicate At(t: Tid, p: Phase)
      reads this
    {
      Valid() && t in pc && pc[t] == p
    }

    /** Between two accesses of thread `t` the other threads take any number of steps. A caller learns
        nothing more about them than this contract says. */
    ghost method Interleave(t: Tid)
      requires Valid() && t in pc
      modifies this
      ensures Continues() && forall i :: |old(steps)| <= i < |steps| ==> steps[i].0 != t
      ensures At(t, old(pc[t]))
    {
    }

    /** Thread `t` takes step `e`, which changes no word. */
    ghost method Take(t: Tid, e: Event)
      requires Valid() && Enabled(Now(), t, e) && Next(Now(), t, e).word == word
      modifies this`pc, this`states, this`steps
      ensures Valid() && Continues() && Now() == old(Next(Now(), t, e)) && steps == old(steps) + [(t, e)]
    {
      StepSafe(Now(), t, e);
      RunGrows(states, steps, t, e);
      hide Safe, Run, Next, Enabled;
      pc := Next(Now(), t, e).pc;
      states, steps := states + [Now()], steps + [(t, e)];
    }

    ghost method Begin(t: Tid, e: Event)
      requires Valid() && Enabled(Now(), t, e) && Next(Now(), t, e).word == word
      modifies this`pc, this`states, this`steps
      ensures Valid() && Continues() && Tries(t, 0) && Now() == old(Next(Now(), t, e))
    {
      hide Safe, Run, Next, Enabled, Own;
      Take(t, e);
      OwnGrows(old(steps), steps, t);
    }

    /** `p_atomic_int_get`. */
    method AtomicGet(ghost t: Tid) returns (w: bv32)
      requires Valid() && t in pc && (pc[t].Ask? || pc[t].Awoken? || pc[t].TryAsk? || pc[t].Leaving?)
      modifies this`pc, this`states, this`steps
      ensures At(t, AfterRead(old(pc[t]), w)) && w == word && Now() == old(Next(Now(), t, Go))
      ensures Continues() && steps == old(steps) + [(t, Go)]
    {
      hide Safe, Run, AfterRead;
      w := word;
      Take(t, Go);
    }

    /** `p_atomic_int_compare_and_exchange`. */
    method CompareAndExchange(ghost t: Tid, tmp: bv32, counter: bv32) returns (ok: bool)
      requires Valid() && t in pc && Exchanges(pc[t]) && pc[t].tmp == tmp && Offered(pc[t]) == counter
      modifies this
      ensures At(t, AfterExchange(old(pc[t]), ok)) && ok == (old(word) == tmp) && Now() == old(Next(Now(), t, Go))
      ensures Continues() && steps == old(steps) + [(t, Go)]
    {
      hide Safe, Run, AfterExchange, Offered;
      assert Enabled(Now(), t, Go);
      hide Next, Enabled, Exchanges;
      StepSafe(Now(), t, Go);
      RunGrows(states, steps, t, Go);
      ExchangeStep(Now(), t);
      ghost var u := Next(Now(), t, Go);
      ok := word == tmp;
      if ok {
        word := counter;
      }
      pc := u.pc;
      states, steps := states + [u], steps + [(t, Go)];
      assert Now() == u;
    }

    /** A read of the word, after whatever the other threads do first. */
    method ReadWord(ghost t: Tid) returns (w: bv32)
      requires Valid() && t in pc && (pc[t].Ask? || pc[t].Awoken? || pc[t].TryAsk? || pc[t].Leaving?)
      modifies this
      ensures Continues() && Advances(t)
      ensures At(t, AfterRead(old(pc[t]), w)) && w == word
    {
      Interleave(t);
      OwnGrows(old(steps), steps, t);
      OwnStep(steps, t, Go);
      w := AtomicGet(t);
    }

    /** A compare-and-exchange, after whatever the other threads do first. */
    method Exchange(ghost t: Tid, tmp: bv32, counter: bv32) returns (ok: bool)
      requires Valid() && t in pc && Exchanges(pc[t]) && pc[t].tmp == tmp && Offered(pc[t]) == counter
      modifies this
      ensures Continues() && Advances(t)
      ensures At(t, AfterExchange(old(pc[t]), ok)) && (ok <==> states[|steps| - 1].word == tmp)
      ensures forall k :: |old(steps)| <= k < |steps| - 1 ==> steps[k].0 != t
    {
      hide Safe, Run, Own, Offered, AfterExchange;
      Interleave(t);
      OwnGrows(old(steps), steps, t);
      OwnStep(steps, t, Go);
      assert states[|steps|] == Now();
      hide Next;
      ok := CompareAndExchange(t, tmp, counter);
    }

    /** The wait on the event ends. */
    ghost method WakeUp(t: Tid, role: Role)
      requires At(t, Blocked(role))
      modifies this
      ensures At(t, Awoken(role)) && Continues() && Tries(t, 0)
    {
      hide Safe, Run, Own;
      Interleave(t);
      OwnGrows(old(steps), steps, t);
      Begin(t, Go);
    }

    /** The wait on the event, which may end at any time, and the loop that takes the thread off the waiting count. */
    method WaitAndDelist(ghost t: Tid, role: Role, turns: nat) returns (done: bool)
      requires At(t, Blocked(role))
      modifies this
      ensures Continues() && Tries(t, if done then 0 else turns)
      ensures if done then At(t, Ask(role, 1)) else At(t, Awoken(role))
    {
      hide Safe, Run, Own;
      WakeUp(t, role);
      done := false;
      for k := 0 to turns
        invariant At(t, Awoken(role)) && Continues() && Tries(t, k)
      {
        var tmp := ReadWord(t);
        var counter := SetHigh(tmp, High(tmp) - 1);
        done := Exchange(t, tmp, counter);
        if done {
          return;
        }
      }
    }

    /** What both start functions do once they have spun enough. */
    method EnlistAndWait(ghost t: Tid, role: Role, tmp: bv32, ghost i: nat, turns: nat)
      returns (enlisted: bool, delisted: bool)
      requires At(t, Enlist(role, tmp, i))
      modifies this
      ensures Continues() && Tries(t, 1) && (enlisted && !delisted ==> Tries(t, turns))
      ensures At(t, if !enlisted then Ask(role, i + 1) else if delisted then Ask(role, 1) else Awoken(role))
    {
      hide Safe, Run, Own, Clear, FreeFor;
      delisted := false;
      enlisted := Exchange(t, tmp, SetHigh(tmp, High(tmp) + 1));
      if enlisted {
        delisted := WaitAndDelist(t, role, turns);
      }
    }

    /** One turn of the loop of `pp_rwlock_start_read_xp`; `next` is the loop counter of the turn to come. */
    method StartReadTurn(ghost t: Tid, i: nat, turns: nat) returns (acquired: bool, stuck: bool, next: nat)
      requires At(t, Ask(Reader, i))
      modifies this
      ensures Continues() && Tries(t, 1) && (stuck ==> Tries(t, turns))
      ensures acquired ==> At(t, Holding(Reader)) && !stuck
      ensures !acquired && !stuck ==> At(t, Ask(Reader, next))
      ensures stuck ==> At(t, Awoken(Reader))
    {
      hide Safe, Run;
      acquired, stuck, next := false, false, i + 1;
      var tmp := ReadWord(t);
      if !IsWriter(tmp) {
        acquired := Exchange(t, tmp, SetLow(tmp, Low(tmp) + 1));
      } else if i >= MAX_SPIN {
        var enlisted, delisted := EnlistAndWait(t, Reader, tmp, i, turns);
        if enlisted {
          next := 1;
          stuck := !delisted;
        }
      }
    }

    /** `pp_rwlock_start_read_xp`. */
    method StartRead(ghost t: Tid, turns: nat) returns (acquired: bool)
      requires At(t, Idle)
      modifies this
      ensures Continues() && (acquired || Tries(t, turns))
      ensures Valid() && t in pc && (acquired ==> pc[t] == Holding(Reader))
    {
      hide Safe, Run, Own;
      Begin(t, Start(Reader));
      hide Next, Enabled;
      assert At(t, Ask(Reader, 0));
      var i := 0;
      for k := 0 to turns
        invariant At(t, Ask(Reader, i)) && Continues() && Tries(t, k)
      {
        var stuck;
        acquired, stuck, i := StartReadTurn(t, i, turns);
        if acquired || stuck {
          return;
        }
      }
      return false;
    }

    /** One turn of the loop of `pp_rwlock_start_write_xp`; `next` is the loop counter of the turn to come. */
    method StartWriteTurn(ghost t: Tid, i: nat, turns: nat) returns (acquired: bool, stuck: bool, next: nat)
      requires At(t, Ask(Writer, i))
      modifies this
      ensures Continues() && Tries(t, 1) && (stuck ==> Tries(t, turns))
      ensures acquired ==> At(t, Holding(Writer)) && !stuck
      ensures !acquired && !stuck ==> At(t, Ask(Writer, next))
      ensures stuck ==> At(t, Awoken(Writer))
    {
      hide Safe, Run;
      acquired, stuck, next := false, false, i + 1;
      var tmp := ReadWord(t);
      if IsClear(tmp) {
        acquired := Exchange(t, tmp, SetWriter(tmp));
      } else if i >= MAX_SPIN {
        var enlisted, delisted := EnlistAndWait(t, Writer, tmp, i, turns);
        if enlisted {
          next := 1;
          stuck := !delisted;
        }
      }
    }

    /** `pp_rwlock_start_write_xp`. */
    method StartWrite(ghost t: Tid, turns: nat) returns (acquired: bool)
      requires At(t, Idle)
      modifies this
      ensures Continues() && (acquired || Tries(t, turns))
      ensures Valid() && t in pc && (acquired ==> pc[t] == Holding(Writer))
    {
      hide Safe, Run, Own;
      Begin(t, Start(Writer));
      hide Next, Enabled;
      assert At(t, Ask(Writer, 0));
      var i := 0;
      for k := 0 to turns
        invariant At(t, Ask(Writer, i)) && Continues() && Tries(t, k)
      {
        var stuck;
        acquired, stuck, i := StartWriteTurn(t, i, turns);
        if acquired || stuck {
          return;
        }
      }
      return false;
    }

    /** A word that was read not to be free shows who is in the way. */
    lemma Refused(r: Role, m: nat)
      requires Valid() && m < |steps| && !FreeFor(word, r)
      ensures Hindered(states, m, r)
    {
      FreeIffClear(Now(), r);
      hide Safe, Run, Clear, FreeFor;
      assert !Clear(states[|steps|].pc, r);
    }

    /** An exchange that fails shows that the word changed since state `i`, where it was read. */
    lemma Lost(t: Tid, ok: bool, tmp: bv32, m: nat, i: nat, before: seq<State>)
      requires Valid() && m < i < |steps| && before <= states && i < |before| && before[i].word == tmp
      requires Between(states, steps, t, i, |steps| - 1) && (ok <==> states[|steps| - 1].word == tmp)
      ensures ok || Disturbed(states, steps, t, m)
    {
      hide Safe, Run, Between;
    }

    /** `pp_rwlock_start_read_try_xp`: refused only if, during the call, there was a writer or others changed the word
        between its two accesses. */
    method StartReadTry(ghost t: Tid) returns (acquired: bool)
      requires At(t, Idle)
      modifies this
      ensures Continues()
      ensures At(t, if acquired then Holding(Reader) else Idle)
      ensures acquired || Hindered(states, |old(steps)|, Reader) || Disturbed(states, steps, t, |old(steps)|)
    {
      hide Safe, Run, Clear;
      Take(t, Try(Reader));
      var tmp := ReadWord(t);
      if IsWriter(tmp) {
        Refused(Reader, |old(steps)|);
        return false;
      }
      ghost var i, before := |steps|, states;
      acquired := Exchange(t, tmp, SetLow(tmp, Low(tmp) + 1));
      Lost(t, acquired, tmp, |old(steps)|, i, before);
    }

    /** `pp_rwlock_start_write_try_xp`: refused only if, during the call, there was a holder or others changed the word
        between its two accesses. */
    method StartWriteTry(ghost t: Tid) returns (acquired: bool)
      requires At(t, Idle)
      modifies this
      ensures Continues()
      ensures At(t, if acquired then Holding(Writer) else Idle)
      ensures acquired || Hindered(states, |old(steps)|, Writer) || Disturbed(states, steps, t, |old(steps)|)
    {
      hide Safe, Run, Clear;
      Take(t, Try(Writer));
      var tmp := ReadWord(t);
      if IsClear(tmp) {
        ghost var i, before := |steps|, states;
        acquired := Exchange(t, tmp, SetWriter(tmp));
        Lost(t, acquired, tmp, |old(steps)|, i, before);
        return;
      }
      Refused(Writer, |old(steps)|);
      return false;
    }

    /** `pp_rwlock_end_read_xp`. */
    method EndRead(ghost t: Tid, turns: nat) returns (released: bool)
      requires At(t, Holding(Reader))
      modifies this
      ensures Continues() && (released || Tries(t, turns))
      ensures At(t, if released then Idle else Leaving(Reader))
    {
      hide Safe, Run, Own;
      Begin(t, End);
      hide Next, Enabled;
      for k := 0 to turns
        invariant At(t, Leaving(Reader)) && Continues() && Tries(t, k)
      {
        var tmp := ReadWord(t);
        var counter := Low(tmp);
        if counter == 0 {
          return true;
        }
        counter := SetLow(tmp, counter - 1);
        released := Exchange(t, tmp, counter);
        if released {
          return;
        }
      }
      return false;
    }

    /** `pp_rwlock_end_write_xp`; the two loops of the source are one here, since each turn of either reads afresh. */
    method EndWrite(ghost t: Tid, turns: nat) returns (released: bool)
      requires At(t, Holding(Writer))
      modifies this
      ensures Continues() && (released || Tries(t, turns))
      ensures At(t, if released then Idle else Leaving(Writer))
    {
      hide Safe, Run, Own;
      Begin(t, End);
      hide Next, Enabled;
      for k := 0 to turns
        invariant At(t, Leaving(Writer)) && Continues() && Tries(t, k)
      {
        var tmp := ReadWord(t);
        if !IsWriter(tmp) {
          return true;
        }
        if High(tmp) == 0 {
          released := Exchange(t, tmp, UnsetWriter(tmp));
          if released {
            return;
          }
        }
      }
      return false;
    }
  }
}
