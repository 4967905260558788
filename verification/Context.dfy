/**
  Coroutines made of threads: each context has its own thread, which runs only while its flag is
  set, and control is handed from one to the other through flags, mutexes and condition variables.
  A state machine with one transition for each access to shared state, over any number of contexts
  and any interleaving.
  */
module Context {
  import opened Options

  /** What a thread is about to do. */
  datatype Pc =
    | Absent            // not yet initialised
    | Running           // user code
    | Clear(to: nat)    // switch_to: clear the own flag
    | Hand(to: nat)     // set the other's flag
    | LockTo(to: nat)   // lock the other's mutex
    | Signal(to: nat)   // signal the other's condition, its mutex held
    | UnlockTo(to: nat)
    | LockOwn           // lock the own mutex
    | Check             // test the own flag, the own mutex held
    | Enter             // flag seen clear: enter the condition wait, the own mutex still held
    | Waiting           // in the condition wait, the mutex released
    | Woken             // out of the wait, the mutex not yet back
    | UnlockOwn
    | InitLock(born: nat)   // init: lock the own mutex
    | InitClear(born: nat)  // clear the own flag, the own mutex held
    | InitSpawn(born: nat)  // start the new thread

  datatype State = State(pc: seq<Pc>, flag: seq<bool>, owner: seq<Option<nat>>)
  {
    function Count(): nat { |pc| }

    predicate Sized() {
      |flag| == |pc| && |owner| == |pc|
    }
  }

  datatype Action =
    | Go(i: nat)                // the next step of thread i
    | Switch(i: nat, to: nat)   // user code of i calls switch_to
    | Init(i: nat, born: nat)  // user code of i initialises a context
    | Spurious(i: nat)          // a wait returns for no reason

  /** The mutex that a thread needs for its next step. */
  function Needs(i: nat, pc: Pc): Option<nat> {
    match pc
    case LockTo(t) => Some(t)
    case LockOwn => Some(i)
    case Woken => Some(i)
    case InitLock(_) => Some(i)
    case _ => None
  }

  predicate Enabled(s: State, a: Action)
    requires s.Sized()
  {
    match a
    case Go(i) =>
      && i < s.Count() && !s.pc[i].Absent? && !s.pc[i].Running? && !s.pc[i].Waiting?
      && (Needs(i, s.pc[i]).Some? ==> Needs(i, s.pc[i]).value < s.Count() && s.owner[Needs(i, s.pc[i]).value].None?)
    case Switch(i, t) => i < s.Count() && t < s.Count() && i != t && s.pc[i].Running? && !s.pc[t].Absent?
    case Init(i, n) => i < s.Count() && n < s.Count() && s.pc[i].Running? && s.pc[n].Absent?
    case Spurious(i) => i < s.Count() && s.pc[i].Waiting?
  }

  /** The next step of thread i. */
  function Advance(s: State, i: nat): State
    requires s.Sized() && i < s.Count()
  {
    var at := (p: Pc) => s.(pc := s.pc[i := p]);
    match s.pc[i]
    case Clear(t) => at(Hand(t)).(flag := s.flag[i := false])
    case Hand(t) => if t < s.Count() then at(LockTo(t)).(flag := s.flag[t := true]) else s
    case LockTo(t) => if t < s.Count() then at(Signal(t)).(owner := s.owner[t := Some(i)]) else s
    case Signal(t) =>
      if t < s.Count() && t != i && s.pc[t].Waiting? then s.(pc := s.pc[i := UnlockTo(t)][t := Woken])
        else at(UnlockTo(t))
    case UnlockTo(t) => if t < s.Count() then at(LockOwn).(owner := s.owner[t := None]) else s
    case LockOwn => at(Check).(owner := s.owner[i := Some(i)])
    case Check => if s.flag[i] then at(UnlockOwn) else at(Enter)
    case Enter => at(Waiting).(owner := s.owner[i := None])
    case Woken => at(Check).(owner := s.owner[i := Some(i)])
    case UnlockOwn => at(Running).(owner := s.owner[i := None])
    case InitLock(n) => at(InitClear(n)).(owner := s.owner[i := Some(i)])
    case InitClear(n) => at(InitSpawn(n)).(flag := s.flag[i := false])
    case InitSpawn(n) => if n < s.Count() && n != i then s.(pc := s.pc[i := Check][n := Clear(i)]) else s
    case _ => s
  }

  function Step(s: State, a: Action): State
    requires s.Sized() && Enabled(s, a)
  {
    match a
    case Go(i) => Advance(s, i)
    case Switch(i, t) => s.(pc := s.pc[i := Clear(t)])
    case Init(i, n) => s.(pc := s.pc[i := InitLock(n)])
    case Spurious(i) => s.(pc := s.pc[i := Woken])
  }

  /** The main context runs; no other exists. */
  function Start(n: nat): State
    requires n > 0
  {
    State(seq(n, i => if i == 0 then Running else Absent), seq(n, i => i == 0), seq(n, _ => None))
  }

  // ---------------------------------------------------------------------------------------
  // The invariant
  // ---------------------------------------------------------------------------------------

  /** In user code, or on the way out of it but not yet past handing over. */
  predicate Active(p: Pc) {
    p.Running? || p.Clear? || p.Hand? || p.InitLock? || p.InitClear? || p.InitSpawn?
  }

  /** The mutex that thread x with program counter p holds. */
  function Held(x: nat, p: Pc): Option<nat> {
    match p
    case Signal(t) => Some(t)
    case UnlockTo(t) => Some(t)
    case Check => Some(x)
    case Enter => Some(x)
    case UnlockOwn => Some(x)
    case InitClear(_) => Some(x)
    case InitSpawn(_) => Some(x)
    case _ => None
  }

  /** Mutexes are held by exactly the threads that are between their lock and their unlock. */
  ghost predicate Locks(pc: seq<Pc>, owner: seq<Option<nat>>) {
    && |owner| == |pc|
    && (forall x :: 0 <= x < |pc| && Held(x, pc[x]).Some? ==>
          Held(x, pc[x]).value < |pc| && owner[Held(x, pc[x]).value] == Some(x))
    && (forall m :: 0 <= m < |pc| && owner[m].Some? ==>
          owner[m].value < |pc| && Held(owner[m].value, pc[owner[m].value]) == Some(m))
  }

  /** Only h has control or is about to get it. */
  ghost predicate Baton(pc: seq<Pc>, flag: seq<bool>, h: nat) {
    && |flag| == |pc| && h < |pc| && !pc[h].Absent? && (Active(pc[h]) || flag[h])
    && (forall c :: 0 <= c < |pc| && c != h ==> !Active(pc[c]) && !flag[c])
    && (forall c :: 0 <= c < |pc| && pc[c].UnlockOwn? ==> flag[c])
    && (forall c :: 0 <= c < |pc| && (pc[c].Hand? || pc[c].InitSpawn?) ==> !flag[c])
  }

  /** Contexts named in program counters exist. */
  predicate Sound(n: nat, x: nat, p: Pc, pcs: seq<Pc>)
    requires |pcs| == n
  {
    match p
    case Clear(t) => t < n && t != x && !pcs[t].Absent?
    case Hand(t) => t < n && t != x && !pcs[t].Absent?
    case LockTo(t) => t < n && t != x
    case Signal(t) => t < n && t != x
    case UnlockTo(t) => t < n && t != x
    case InitLock(m) => m < n && m != x && pcs[m].Absent?
    case InitClear(m) => m < n && m != x && pcs[m].Absent?
    case InitSpawn(m) => m < n && m != x && pcs[m].Absent?
    case _ => true
  }

  ghost predicate AllSound(pc: seq<Pc>) {
    forall x :: 0 <= x < |pc| ==> Sound(|pc|, x, pc[x], pc)
  }

  predicate Signals(p: Pc, c: nat) {
    (p.LockTo? && p.to == c) || (p.Signal? && p.to == c)
  }

  ghost predicate Signalled(pc: seq<Pc>, c: nat) {
    exists x :: 0 <= x < |pc| && Signals(pc[x], c)
  }

  /** In the condition wait, or about to enter it because the flag was seen clear. */
  predicate Sleeps(p: Pc) {
    p.Waiting? || p.Enter?
  }

  /** No wake-up is lost: a context that sleeps although its flag is set is about to be signalled. */
  ghost predicate NoLostWakeup(pc: seq<Pc>, flag: seq<bool>) {
    |flag| == |pc| && forall c :: 0 <= c < |pc| && Sleeps(pc[c]) && flag[c] ==> Signalled(pc, c)
  }

  ghost predicate Inv(s: State, h: nat) {
    s.Sized() && Locks(s.pc, s.owner) && Baton(s.pc, s.flag, h) && AllSound(s.pc) && NoLostWakeup(s.pc, s.flag)
  }

  lemma {:induction false} StartInv(n: nat)
    requires n > 0
    ensures Inv(Start(n), 0)
  {
  }

  /** Who has control after a step. */
  function Next(s: State, a: Action, h: nat): nat
    requires s.Sized() && Enabled(s, a)
  {
    match a
    case Go(i) => if s.pc[i].Hand? then s.pc[i].to else if s.pc[i].InitSpawn? then s.pc[i].born else h
    case _ => h
  }

  // ---------------------------------------------------------------------------------------
  // Every step keeps the invariant
  // ---------------------------------------------------------------------------------------

  lemma {:induction false} LocksMoved(pc: seq<Pc>, owner: seq<Option<nat>>, i: nat, p: Pc)
    requires Locks(pc, owner) && i < |pc| && Held(i, p) == Held(i, pc[i])
    ensures Locks(pc[i := p], owner)
  {
  }

  lemma {:induction false} LocksTaken(pc: seq<Pc>, owner: seq<Option<nat>>, i: nat, p: Pc, m: nat)
    requires Locks(pc, owner) && i < |pc| && m < |pc| && owner[m].None? && Held(i, pc[i]).None? && Held(i, p) == Some(m)
    ensures Locks(pc[i := p], owner[m := Some(i)])
  {
  }

  lemma {:induction false} LocksReleased(pc: seq<Pc>, owner: seq<Option<nat>>, i: nat, p: Pc, m: nat)
    requires Locks(pc, owner) && i < |pc| && m < |pc| && Held(i, pc[i]) == Some(m) && Held(i, p).None?
    ensures Locks(pc[i := p], owner[m := None])
  {
  }

  lemma {:induction false} SoundMoved(pc: seq<Pc>, i: nat, p: Pc)
    requires AllSound(pc) && i < |pc| && Sound(|pc|, i, p, pc) && !pc[i].Absent? && !p.Absent?
    ensures AllSound(pc[i := p])
  {
    var qc := pc[i := p];
    forall x | 0 <= x < |qc|
      ensures Sound(|qc|, x, qc[x], qc)
    {
      assert Sound(|pc|, x, pc[x], pc);
    }
  }

  lemma {:induction false} BatonMoved(pc: seq<Pc>, flag: seq<bool>, h: nat, i: nat, p: Pc)
    requires Baton(pc, flag, h) && i < |pc| && !p.Absent? && (Active(p) ==> i == h) && (i == h ==> Active(p) || flag[h])
    requires (p.UnlockOwn? ==> flag[i]) && (p.Hand? || p.InitSpawn? ==> !flag[i])
    ensures Baton(pc[i := p], flag, h)
  {
  }

  lemma {:induction false} BatonCleared(pc: seq<Pc>, flag: seq<bool>, h: nat, p: Pc)
    requires Baton(pc, flag, h) && Active(p)
    ensures Baton(pc[h := p], flag[h := false], h)
  {
  }

  lemma {:induction false} BatonHanded(pc: seq<Pc>, flag: seq<bool>, h: nat, t: nat, p: Pc)
    requires Baton(pc, flag, h) && t < |pc| && t != h && !pc[t].Absent? && !flag[h] && p.LockTo?
    ensures Baton(pc[h := p], flag[t := true], t)
  {
  }

  lemma {:induction false} BatonSpawned(pc: seq<Pc>, flag: seq<bool>, h: nat, n: nat)
    requires Baton(pc, flag, h) && n < |pc| && n != h && !flag[h]
    ensures Baton(pc[h := Check][n := Clear(h)], flag, n)
  {
  }

  /** Thread i goes on from a point where it owed nobody a signal, or still owes it. */
  lemma {:induction false} WakeupMoved(pc: seq<Pc>, flag: seq<bool>, i: nat, p: Pc)
    requires NoLostWakeup(pc, flag) && i < |pc| && (Sleeps(p) ==> Sleeps(pc[i]) || !flag[i])
    requires (pc[i].LockTo? ==> p == Signal(pc[i].to)) && !pc[i].Signal?
    ensures NoLostWakeup(pc[i := p], flag)
  {
    var qc := pc[i := p];
    forall c | 0 <= c < |qc| && Sleeps(qc[c]) && flag[c]
      ensures Signalled(qc, c)
    {
      assert Signalled(pc, c);
      var x :| 0 <= x < |pc| && Signals(pc[x], c);
      assert Signals(qc[x], c);
    }
  }

  lemma {:induction false} WakeupCleared(pc: seq<Pc>, flag: seq<bool>, i: nat)
    requires NoLostWakeup(pc, flag) && i < |pc|
    ensures NoLostWakeup(pc, flag[i := false])
  {
  }

  /** A raised flag comes with a thread that is about to signal. */
  lemma {:induction false} WakeupHanded(pc: seq<Pc>, flag: seq<bool>, i: nat, t: nat)
    requires NoLostWakeup(pc, flag) && i < |pc| && t < |pc| && pc[i] == Hand(t)
    ensures NoLostWakeup(pc[i := LockTo(t)], flag[t := true])
  {
    WakeupMoved(pc, flag, i, LockTo(t));
    var qc := pc[i := LockTo(t)];
    assert Signals(qc[i], t);
    assert Signalled(qc, t);
  }

  /** While a context is between its test and its wait, nobody can signal it: both hold its mutex. */
  lemma {:induction false} SignalExcludes(pc: seq<Pc>, owner: seq<Option<nat>>, i: nat, t: nat)
    requires Locks(pc, owner) && i < |pc| && t < |pc| && t != i && pc[i] == Signal(t)
    ensures !pc[t].Enter?
  {
    assert owner[t] == Some(i);
  }

  /** A signal reaches the context if it sleeps, since it cannot be on its way into the wait. */
  lemma {:induction false} WakeupSignalled(pc: seq<Pc>, flag: seq<bool>, i: nat, t: nat, qc: seq<Pc>)
    requires NoLostWakeup(pc, flag) && i < |pc| && t < |pc| && t != i && pc[i] == Signal(t) && !pc[t].Enter?
    requires qc == if pc[t].Waiting? then pc[i := UnlockTo(t)][t := Woken] else pc[i := UnlockTo(t)]
    ensures NoLostWakeup(qc, flag)
  {
    forall c | 0 <= c < |qc| && Sleeps(qc[c]) && flag[c]
      ensures Signalled(qc, c)
    {
      assert Sleeps(pc[c]) && c != t;
      assert Signalled(pc, c);
      var x :| 0 <= x < |pc| && Signals(pc[x], c);
      assert Signals(qc[x], c);
    }
  }

  /** A step that changes nothing but the program counter of i. */
  lemma {:induction false} MoveInv(s: State, h: nat, i: nat, p: Pc)
    requires Inv(s, h) && i < s.Count() && !s.pc[i].Absent? && !p.Absent? && Sound(s.Count(), i, p, s.pc)
             && Held(i, p) == Held(i, s.pc[i])
    requires (Active(p) ==> i == h) && (i == h ==> Active(p) || s.flag[h])
    requires (p.UnlockOwn? ==> s.flag[i]) && !p.Hand? && !p.InitSpawn? && (Sleeps(p) ==>
             !s.flag[i]) && !s.pc[i].LockTo? && !s.pc[i].Signal?
    ensures Inv(s.(pc := s.pc[i := p]), h)
  {
    LocksMoved(s.pc, s.owner, i, p);
    SoundMoved(s.pc, i, p);
    BatonMoved(s.pc, s.flag, h, i, p);
    WakeupMoved(s.pc, s.flag, i, p);
  }

  lemma {:induction false} TakeInv(s: State, h: nat, i: nat, p: Pc, m: nat)
    requires Inv(s, h) && i < s.Count() && m < s.Count() && s.owner[m].None? && Held(i, s.pc[i]).None?
             && Held(i, p) == Some(m)
    requires !s.pc[i].Absent? && !p.Absent? && Sound(s.Count(), i, p, s.pc)
    requires (Active(p) <==> Active(s.pc[i])) && !p.UnlockOwn? && !p.InitSpawn? && !p.Enter?
    requires (s.pc[i].LockTo? ==> p == Signal(s.pc[i].to))
    ensures Inv(s.(pc := s.pc[i := p], owner := s.owner[m := Some(i)]), h)
  {
    LocksTaken(s.pc, s.owner, i, p, m);
    SoundMoved(s.pc, i, p);
    BatonMoved(s.pc, s.flag, h, i, p);
    WakeupMoved(s.pc, s.flag, i, p);
  }

  lemma {:induction false} ReleaseInv(s: State, h: nat, i: nat, p: Pc, m: nat)
    requires Inv(s, h) && i < s.Count() && m < s.Count() && Held(i, s.pc[i]) == Some(m) && Held(i, p).None?
    requires !p.Absent? && Sound(s.Count(), i, p, s.pc) && !s.pc[i].Signal?
    requires (Active(p) ==> i == h) && (i == h ==> Active(p) || s.flag[h]) && !p.Hand? && !p.LockTo?
    requires Sleeps(p) ==> Sleeps(s.pc[i])
    ensures Inv(s.(pc := s.pc[i := p], owner := s.owner[m := None]), h)
  {
    LocksReleased(s.pc, s.owner, i, p, m);
    SoundMoved(s.pc, i, p);
    BatonMoved(s.pc, s.flag, h, i, p);
    WakeupMoved(s.pc, s.flag, i, p);
  }

  lemma {:induction false} ClearInv(s: State, h: nat, p: Pc)
    requires Inv(s, h) && Active(s.pc[h]) && (p.Hand? || p.InitSpawn?) && Sound(s.Count(), h, p, s.pc)
             && Held(h, p) == Held(h, s.pc[h])
    ensures Inv(s.(pc := s.pc[h := p], flag := s.flag[h := false]), h)
  {
    LocksMoved(s.pc, s.owner, h, p);
    SoundMoved(s.pc, h, p);
    BatonCleared(s.pc, s.flag, h, p);
    WakeupMoved(s.pc, s.flag, h, p);
    WakeupCleared(s.pc[h := p], s.flag, h);
  }

  lemma {:induction false} HandInv(s: State, h: nat, t: nat)
    requires Inv(s, h) && s.pc[h] == Hand(t)
    ensures t < s.Count() && Inv(s.(pc := s.pc[h := LockTo(t)], flag := s.flag[t := true]), t)
  {
    assert Sound(s.Count(), h, s.pc[h], s.pc);
    LocksMoved(s.pc, s.owner, h, LockTo(t));
    SoundMoved(s.pc, h, LockTo(t));
    BatonHanded(s.pc, s.flag, h, t, LockTo(t));
    WakeupHanded(s.pc, s.flag, h, t);
  }

  lemma {:induction false} SignalInv(s: State, h: nat, i: nat, t: nat, qc: seq<Pc>)
    requires Inv(s, h) && i < s.Count() && t < s.Count() && t != i && s.pc[i] == Signal(t)
    requires qc == if s.pc[t].Waiting? then s.pc[i := UnlockTo(t)][t := Woken] else s.pc[i := UnlockTo(t)]
    ensures Inv(s.(pc := qc), h)
  {
    var mid := s.pc[i := UnlockTo(t)];
    LocksMoved(s.pc, s.owner, i, UnlockTo(t));
    SoundMoved(s.pc, i, UnlockTo(t));
    BatonMoved(s.pc, s.flag, h, i, UnlockTo(t));
    if s.pc[t].Waiting? {
      LocksMoved(mid, s.owner, t, Woken);
      SoundMoved(mid, t, Woken);
      BatonMoved(mid, s.flag, h, t, Woken);
    }
    SignalExcludes(s.pc, s.owner, i, t);
    WakeupSignalled(s.pc, s.flag, i, t, qc);
  }

  lemma {:induction false} SpawnInv(s: State, h: nat, n: nat)
    requires Inv(s, h) && s.pc[h] == InitSpawn(n)
    ensures n < s.Count() && n != h && Inv(s.(pc := s.pc[h := Check][n := Clear(h)]), n)
  {
    assert Sound(s.Count(), h, s.pc[h], s.pc);
    var mid := s.pc[h := Check];
    LocksMoved(s.pc, s.owner, h, Check);
    LocksMoved(mid, s.owner, n, Clear(h));
    SoundMoved(s.pc, h, Check);
    BornSound(mid, n, h);
    BatonSpawned(s.pc, s.flag, h, n);
    WakeupMoved(s.pc, s.flag, h, Check);
    WakeupMoved(mid, s.flag, n, Clear(h));
  }

  lemma {:induction false} BornSound(pc: seq<Pc>, n: nat, h: nat)
    requires AllSound(pc) && n < |pc| && h < |pc| && h != n && pc[n].Absent? && !pc[h].Absent?
    requires forall c :: 0 <= c < |pc| && c != h ==> !Active(pc[c])
    requires !Active(pc[h])
    ensures AllSound(pc[n := Clear(h)])
  {
    var qc := pc[n := Clear(h)];
    forall x | 0 <= x < |qc|
      ensures Sound(|qc|, x, qc[x], qc)
    {
      assert Sound(|pc|, x, pc[x], pc);
    }
  }

  lemma {:induction false} AdvanceInv(s: State, i: nat, h: nat)
    requires Inv(s, h) && Enabled(s, Go(i))
    ensures Inv(Advance(s, i), Next(s, Go(i), h))
  {
    match s.pc[i]
    case Check => CheckInv(s, i, h);
    case Enter => EnterInv(s, i, h);
    case LockOwn => OwnInv(s, i, h);
    case Woken => OwnInv(s, i, h);
    case UnlockOwn => OwnInv(s, i, h);
    case InitLock(n) => InitLockInv(s, i, h);
    case InitClear(n) => InitClearInv(s, i, h);
    case InitSpawn(n) => SpawnInv(s, h, n);
    case _ => SwitchInv(s, i, h);
  }

  /** A context takes or releases its own mutex. */
  lemma {:induction false} OwnInv(s: State, i: nat, h: nat)
    requires Inv(s, h) && Enabled(s, Go(i)) && (s.pc[i].LockOwn? || s.pc[i].Woken? || s.pc[i].UnlockOwn?)
    ensures Inv(Advance(s, i), h)
  {
    if s.pc[i].UnlockOwn? {
      ReleaseInv(s, h, i, Running, i);
    } else {
      TakeInv(s, h, i, Check, i);
    }
  }

  lemma {:induction false} InitLockInv(s: State, i: nat, h: nat)
    requires Inv(s, h) && Enabled(s, Go(i)) && s.pc[i].InitLock?
    ensures Inv(Advance(s, i), h)
  {
    var p := InitClear(s.pc[i].born);
    assert Sound(s.Count(), i, s.pc[i], s.pc);
    assert Sound(s.Count(), i, p, s.pc);
    TakeInv(s, h, i, p, i);
  }

  lemma {:induction false} InitClearInv(s: State, i: nat, h: nat)
    requires Inv(s, h) && Enabled(s, Go(i)) && s.pc[i].InitClear?
    ensures Inv(Advance(s, i), h)
  {
    assert Sound(s.Count(), i, s.pc[i], s.pc);
    ClearInv(s, h, InitSpawn(s.pc[i].born));
  }

  lemma {:induction false} SwitchInv(s: State, i: nat, h: nat)
    requires Inv(s, h) && Enabled(s, Go(i))
    requires s.pc[i].Clear? || s.pc[i].Hand? || s.pc[i].LockTo? || s.pc[i].Signal? || s.pc[i].UnlockTo?
    ensures Inv(Advance(s, i), Next(s, Go(i), h))
  {
    assert Sound(s.Count(), i, s.pc[i], s.pc);
    var t := s.pc[i].to;
    match s.pc[i]
    case Clear(_) => ClearInv(s, h, Hand(t));
    case Hand(_) => HandInv(s, h, t);
    case LockTo(_) => TakeInv(s, h, i, Signal(t), t);
    case Signal(_) => SignalInv(s, h, i, t, Advance(s, i).pc);
    case UnlockTo(_) => ReleaseInv(s, h, i, LockOwn, t);
  }

  lemma {:induction false} CheckInv(s: State, i: nat, h: nat)
    requires Inv(s, h) && i < s.Count() && s.pc[i].Check?
    ensures Inv(Advance(s, i), h)
  {
    if s.flag[i] {
      MoveInv(s, h, i, UnlockOwn);
    } else {
      MoveInv(s, h, i, Enter);
    }
  }

  /** Entering the wait: whoever raised the flag since the test still owes the signal. */
  lemma {:induction false} EnterInv(s: State, i: nat, h: nat)
    requires Inv(s, h) && i < s.Count() && s.pc[i].Enter?
    ensures Inv(Advance(s, i), h)
  {
    ReleaseInv(s, h, i, Waiting, i);
  }

  /** Every step of every thread keeps the invariant. */
  lemma {:induction false} StepInv(s: State, a: Action, h: nat)
    requires Inv(s, h) && Enabled(s, a)
    ensures Inv(Step(s, a), Next(s, a, h))
  {
    match a
    case Go(i) => AdvanceInv(s, i, h);
    case Switch(i, t) => MoveInv(s, h, i, Clear(t));
    case Init(i, n) => MoveInv(s, h, i, InitLock(n));
    case Spurious(i) => MoveInv(s, h, i, Woken);
  }

  // ---------------------------------------------------------------------------------------
  // Runs
  // ---------------------------------------------------------------------------------------

  /** The actions can be taken one after the other. */
  predicate Run(s: State, acts: seq<Action>)
    requires s.Sized()
    decreases |acts|
  {
    acts == [] || (Enabled(s, acts[0]) && Step(s, acts[0]).Sized() && Run(Step(s, acts[0]), acts[1..]))
  }

  function After(s: State, acts: seq<Action>): State
    requires s.Sized() && Run(s, acts)
    decreases |acts|
  {
    if acts == [] then s else After(Step(s, acts[0]), acts[1..])
  }

  /** In every interleaving somebody has control, or is about to get it, and nobody else has. */
  lemma {:induction false} RunInv(s: State, acts: seq<Action>, h: nat) returns (k: nat)
    requires Inv(s, h) && Run(s, acts)
    ensures Inv(After(s, acts), k)
    decreases |acts|
  {
    if acts == [] {
      k := h;
    } else {
      StepInv(s, acts[0], h);
      k := RunInv(Step(s, acts[0]), acts[1..], Next(s, acts[0], h));
    }
  }

  lemma {:induction false} RunStep(s: State, a: Action, acts: seq<Action>)
    requires s.Sized() && Enabled(s, a) && Step(s, a).Sized() && Run(Step(s, a), acts)
    ensures Run(s, [a] + acts) && After(s, [a] + acts) == After(Step(s, a), acts)
  {
    assert ([a] + acts)[1..] == acts;
  }

  /** The state in which the main context has started another one. */
  function Spawned(): State {
    State([Check, Clear(0)], [false, false], [Some(0), None])
  }

  /** The step from s to t by action a. */
  ghost predicate Leads(s: State, a: Action, t: State) {
    s.Sized() && t.Sized() && Enabled(s, a) && Step(s, a) == t
  }

  /** The state in which the main context holds its mutex to start another one. */
  function Starting(): State {
    State([InitClear(1), Absent], [true, false], [Some(0), None])
  }

  lemma {:induction false} LockSteps() returns (s1: State)
    ensures Leads(Start(2), Init(0, 1), s1) && Leads(s1, Go(0), Starting())
  {
    s1 := State([InitLock(1), Absent], [true, false], [None, None]);
    assert Start(2) == State([Running, Absent], [true, false], [None, None]);
  }

  lemma {:induction false} SpawnSteps() returns (s3: State)
    ensures Leads(Starting(), Go(0), s3) && Leads(s3, Go(0), Spawned())
  {
    s3 := State([InitSpawn(1), Absent], [false, false], [Some(0), None]);
  }

  lemma {:induction false} SpawnRun(acts: seq<Action>)
    requires Run(Spawned(), acts)
    ensures var all := [Init(0, 1)] + ([Go(0)] + ([Go(0)] + ([Go(0)] + acts)));
            Run(Start(2), all) && After(Start(2), all) == After(Spawned(), acts)
  {
    var s1 := LockSteps();
    var s3 := SpawnSteps();
    RunStep(s3, Go(0), acts);
    RunStep(Starting(), Go(0), [Go(0)] + acts);
    RunStep(s1, Go(0), [Go(0)] + ([Go(0)] + acts));
    RunStep(Start(2), Init(0, 1), [Go(0)] + ([Go(0)] + ([Go(0)] + acts)));
  }

  lemma {:induction false} RaceRun()
    ensures var acts := [Go(0)] + ([Go(1)] + ([Go(1)] + []));
            Run(Spawned(), acts) && After(Spawned(), acts) == State([Enter, LockTo(0)], [true, false], [Some(0), None])
  {
    var s5 := State([Enter, Clear(0)], [false, false], [Some(0), None]);
    var s6 := State([Enter, Hand(0)], [false, false], [Some(0), None]);
    var s7 := State([Enter, LockTo(0)], [true, false], [Some(0), None]);
    assert Run(s7, []) && After(s7, []) == s7;
    assert Enabled(s6, Go(1)) && Step(s6, Go(1)) == s7;
    RunStep(s6, Go(1), []);
    assert Enabled(s5, Go(1)) && Step(s5, Go(1)) == s6;
    RunStep(s5, Go(1), [Go(1)] + []);
    assert Enabled(Spawned(), Go(0)) && Step(Spawned(), Go(0)) == s5;
    RunStep(Spawned(), Go(0), [Go(1)] + ([Go(1)] + []));
  }

  /**
    The race that the mutex is for does occur: a flag is raised after its context has seen it clear
    and before the context waits.
    */
  lemma {:induction false} FlagRaisedBeforeWait() returns (acts: seq<Action>)
    ensures Run(Start(2), acts) && |After(Start(2), acts).pc| == |After(Start(2), acts).flag| == 2
    ensures After(Start(2), acts).pc[0].Enter? && After(Start(2), acts).flag[0]
  {
    acts := [Go(0)] + ([Go(1)] + ([Go(1)] + []));
    RaceRun();
    SpawnRun(acts);
    acts := [Init(0, 1)] + ([Go(0)] + ([Go(0)] + ([Go(0)] + acts)));
  }

  /** At no moment do two contexts execute user code. */
  lemma {:induction false} OneRuns(n: nat, acts: seq<Action>, x: nat, y: nat)
    requires n > 0 && Run(Start(n), acts) && x < |After(Start(n), acts).pc| && y < |After(Start(n), acts).pc|
    requires After(Start(n), acts).pc[x].Running? && After(Start(n), acts).pc[y].Running?
    ensures x == y
  {
    StartInv(n);
    var k := RunInv(Start(n), acts, 0);
  }

  // ---------------------------------------------------------------------------------------
  // Nobody is stuck
  // ---------------------------------------------------------------------------------------

  /** Some thread is in user code or can take its next step, without a wait returning for no reason. */
  ghost predicate CanGoOn(s: State)
    requires s.Sized()
  {
    exists i :: 0 <= i < s.Count() && (s.pc[i].Running? || Enabled(s, Go(i)))
  }

  /** Whoever holds a mutex can go on. */
  lemma {:induction false} OwnerGoesOn(s: State, h: nat, m: nat)
    requires Inv(s, h) && m < s.Count() && s.owner[m].Some?
    ensures CanGoOn(s)
  {
    var x := s.owner[m].value;
    assert Held(x, s.pc[x]) == Some(m);
    assert Enabled(s, Go(x));
  }

  /** A thread that needs a mutex goes on, or its owner does. */
  lemma {:induction false} NeedsGoesOn(s: State, h: nat, i: nat)
    requires Inv(s, h) && i < s.Count() && Needs(i, s.pc[i]).Some?
    ensures CanGoOn(s)
  {
    assert Sound(s.Count(), i, s.pc[i], s.pc);
    var m := Needs(i, s.pc[i]).value;
    if s.owner[m].None? {
      assert Enabled(s, Go(i));
    } else {
      OwnerGoesOn(s, h, m);
    }
  }

  /** In every state that satisfies the invariant, some thread can go on. */
  lemma {:induction false} SomebodyGoesOn(s: State, h: nat)
    requires Inv(s, h)
    ensures CanGoOn(s)
  {
    var p := s.pc[h];
    if p.Waiting? {
      assert Signalled(s.pc, h);
      var x: nat :| x < |s.pc| && Signals(s.pc[x], h);
      if s.pc[x].LockTo? {
        NeedsGoesOn(s, h, x);
      } else {
        assert Enabled(s, Go(x));
      }
    } else if Needs(h, p).Some? {
      NeedsGoesOn(s, h, h);
    } else {
      assert p.Running? || Enabled(s, Go(h));
    }
  }

  /** No interleaving reaches a state in which every context is blocked. */
  lemma {:induction false} NeverStuck(n: nat, acts: seq<Action>)
    requires n > 0 && Run(Start(n), acts)
    ensures After(Start(n), acts).Sized() && CanGoOn(After(Start(n), acts))
  {
    StartInv(n);
    var k := RunInv(Start(n), acts, 0);
    SomebodyGoesOn(After(Start(n), acts), k);
  }

  // ---------------------------------------------------------------------------------------
  // Control arrives where it was sent
  // ---------------------------------------------------------------------------------------

  /** The context that control is on its way to. */
  function HeirIn(pc: seq<Pc>, h: nat): nat
    requires h < |pc|
  {
    match pc[h] case Clear(t) => t case Hand(t) => t case _ => h
  }

  function Heir(s: State, h: nat): nat
    requires h < s.Count()
  {
    HeirIn(s.pc, h)
  }

  /** Where a thread stands after its next step. */
  function Moved(p: Pc, flag: bool): Pc {
    match p
    case Clear(t) => Hand(t)
    case Hand(t) => LockTo(t)
    case LockTo(t) => Signal(t)
    case Signal(t) => UnlockTo(t)
    case UnlockTo(_) => LockOwn
    case LockOwn => Check
    case Check => if flag then UnlockOwn else Enter
    case Enter => Waiting
    case Woken => Check
    case UnlockOwn => Running
    case InitLock(n) => InitClear(n)
    case InitClear(n) => InitSpawn(n)
    case InitSpawn(_) => Check
    case _ => p
  }

  /** The thread that this step wakes or starts, and where that one stands then. */
  function Roused(pc: seq<Pc>, i: nat): Option<(nat, Pc)>
    requires i < |pc|
  {
    match pc[i]
    case Signal(t) => if t < |pc| && pc[t].Waiting? then Some((t, Woken)) else None
    case InitSpawn(n) => Some((n, Clear(i)))
    case _ => None
  }

  /** The program counters after a step of thread i. */
  function Counters(pc: seq<Pc>, i: nat, flag: bool): (r: seq<Pc>)
    requires i < |pc|
    ensures |r| == |pc|
  {
    var qc := pc[i := Moved(pc[i], flag)];
    match Roused(pc, i)
    case Some((t, p)) => if t < |pc| then qc[t := p] else qc
    case None => qc
  }

  lemma {:induction false} GoCounters(s: State, h: nat, i: nat)
    requires Inv(s, h) && Enabled(s, Go(i))
    ensures Step(s, Go(i)).pc == Counters(s.pc, i, s.flag[i])
    ensures Roused(s.pc, i).Some? ==> Roused(s.pc, i).value.0 < s.Count() && Roused(s.pc, i).value.0 != i
  {
    assert Sound(s.Count(), i, s.pc[i], s.pc);
  }

  lemma {:induction false} GoHolder(s: State, h: nat, i: nat)
    requires Inv(s, h) && Enabled(s, Go(i))
    ensures Next(s, Go(i), h) < s.Count()
    ensures Next(s, Go(i), h) == match s.pc[i] case Hand(t) => t case InitSpawn(n) => n case _ => h
    ensures Active(s.pc[i]) ==> i == h
  {
    assert Sound(s.Count(), i, s.pc[i], s.pc);
  }

  /** Steps that are not taken by user code do not change it. */
  lemma {:induction false} HeirStays(s: State, a: Action, h: nat)
    requires Inv(s, h) && Enabled(s, a) && (a.Go? || a.Spurious?)
    ensures Next(s, a, h) < s.Count() && Step(s, a).Count() == s.Count()
    ensures Heir(Step(s, a), Next(s, a, h)) == Heir(s, h)
  {
    if a.Go? {
      GoCounters(s, h, a.i);
      GoHolder(s, h, a.i);
      HeirOfCounters(s.pc, a.i, s.flag[a.i], h, Next(s, a, h));
      assert Sound(s.Count(), a.i, s.pc[a.i], s.pc);
      if s.pc[a.i].Hand? {
        assert !Active(s.pc[s.pc[a.i].to]);
      }
    }
  }

  lemma {:induction false} HeirOfCounters(pc: seq<Pc>, i: nat, flag: bool, h: nat, k: nat)
    requires i < |pc| && h < |pc| && k < |pc| && (Active(pc[i]) ==> i == h)
    requires k == match pc[i] case Hand(t) => t case InitSpawn(n) => n case _ => h
    requires pc[i].Hand? ==> k != i && !Active(pc[k])
    requires Roused(pc, i).Some? ==> Roused(pc, i).value.0 < |pc| && Roused(pc, i).value.0 != i
    ensures HeirIn(Counters(pc, i, flag), k) == HeirIn(pc, h)
  {
  }

  /** Whoever executes user code has control, and it is not on its way to anybody else. */
  lemma {:induction false} RunnerIsHeir(s: State, h: nat, x: nat)
    requires Inv(s, h) && x < s.Count() && s.pc[x].Running?
    ensures x == h == Heir(s, h)
  {
  }

  /** The context that was switched to last; `first` if none was. */
  function LastCalled(acts: seq<Action>, first: nat): nat
    decreases |acts|
  {
    if acts == [] then first
    else if acts[|acts| - 1].Switch? then acts[|acts| - 1].to
    else LastCalled(acts[..|acts| - 1], first)
  }

  lemma {:induction false} CalledFirst(a: Action, acts: seq<Action>, first: nat)
    ensures LastCalled([a] + acts, first) == LastCalled(acts, if a.Switch? then a.to else first)
    decreases |acts|
  {
    var all := [a] + acts;
    if acts != [] {
      assert all[|all| - 1] == acts[|acts| - 1] && all[..|all| - 1] == [a] + acts[..|acts| - 1];
      CalledFirst(a, acts[..|acts| - 1], first);
    } else {
      assert all[..0] == [];
    }
  }

  /** Calls of user code: a switch sends control to its target, starting a context brings it back. */
  lemma {:induction false} HeirOfCall(s: State, a: Action, h: nat)
    requires Inv(s, h) && Enabled(s, a) && (a.Switch? || a.Init?)
    ensures Next(s, a, h) == h && h < s.Count() && Heir(Step(s, a), h) == if a.Switch? then a.to else Heir(s, h)
  {
    RunnerIsHeir(s, h, a.i);
  }

  lemma {:induction false} HeirOfRun(s: State, acts: seq<Action>, h: nat) returns (k: nat)
    requires Inv(s, h) && Run(s, acts)
    ensures Inv(After(s, acts), k) && Heir(After(s, acts), k) == LastCalled(acts, Heir(s, h))
    decreases |acts|
  {
    if acts == [] {
      k := h;
    } else {
      var a, rest := acts[0], acts[1..];
      assert acts == [a] + rest;
      StepInv(s, a, h);
      if a.Go? || a.Spurious? {
        HeirStays(s, a, h);
      } else {
        HeirOfCall(s, a, h);
      }
      CalledFirst(a, rest, Heir(s, h));
      k := HeirOfRun(Step(s, a), rest, Next(s, a, h));
    }
  }

  /** In every interleaving, only the context that was switched to last is in user code; at first the main one. */
  lemma {:induction false} WhoRuns(n: nat, acts: seq<Action>, x: nat)
    requires n > 0 && Run(Start(n), acts)
    requires x < |After(Start(n), acts).pc| && After(Start(n), acts).pc[x].Running?
    ensures x == LastCalled(acts, 0)
  {
    StartInv(n);
    var k := HeirOfRun(Start(n), acts, 0);
    RunnerIsHeir(After(Start(n), acts), k, x);
  }

  lemma {:induction false} CalledLater(acts: seq<Action>, first: nat, i: nat)
    requires first != i && forall j :: 0 <= j < |acts| && acts[j].Switch? ==> acts[j].to != i
    ensures LastCalled(acts, first) != i
    ensures (forall j :: 0 <= j < |acts| ==> !acts[j].Switch?) ==> LastCalled(acts, first) == first
    decreases |acts|
  {
    if acts != [] && !acts[|acts| - 1].Switch? {
      CalledLater(acts[..|acts| - 1], first, i);
    }
  }

  /**
    After a switch from i to another context: until somebody switches again, nobody but that context
    is in user code; until somebody switches to i, i is not.
    */
  lemma {:induction false} SwitchArrives(s: State, h: nat, i: nat, to: nat, acts: seq<Action>, x: nat)
    requires Inv(s, h) && Enabled(s, Switch(i, to)) && Run(s, [Switch(i, to)] + acts)
    requires var t := After(s, [Switch(i, to)] + acts); x < |t.pc| && t.pc[x].Running?
    ensures (forall j :: 0 <= j < |acts| ==> !acts[j].Switch?) ==> x == to
    ensures (forall j :: 0 <= j < |acts| && acts[j].Switch? ==> acts[j].to != i) ==> x != i
  {
    var all := [Switch(i, to)] + acts;
    var k := HeirOfRun(s, all, h);
    RunnerIsHeir(After(s, all), k, x);
    CalledFirst(Switch(i, to), acts, Heir(s, h));
    if forall j :: 0 <= j < |acts| && acts[j].Switch? ==> acts[j].to != i {
      CalledLater(acts, to, i);
    }
  }

  // ---------------------------------------------------------------------------------------
  // Every schedule gets there
  // ---------------------------------------------------------------------------------------

  /** How many more steps a thread can take, counting those of threads that it wakes or starts. */
  function Ahead(p: Pc): nat {
    match p
    case UnlockOwn => 1
    case Enter => 1
    case Check => 2
    case Woken => 3
    case LockOwn => 3
    case UnlockTo(_) => 4
    case Signal(_) => 8
    case LockTo(_) => 9
    case Hand(_) => 10
    case Clear(_) => 11
    case InitSpawn(_) => 14
    case InitClear(_) => 15
    case InitLock(_) => 16
    case _ => 0
  }

  function Total(pc: seq<Pc>): nat {
    if pc == [] then 0 else Ahead(pc[0]) + Total(pc[1..])
  }

  lemma {:induction false} TotalMoved(pc: seq<Pc>, i: nat, p: Pc)
    requires i < |pc|
    ensures Total(pc[i := p]) == Total(pc) - Ahead(pc[i]) + Ahead(p)
  {
    if i == 0 {
      assert pc[i := p][1..] == pc[1..];
    } else {
      assert pc[i := p][1..] == pc[1..][i - 1 := p];
      TotalMoved(pc[1..], i - 1, p);
    }
  }

  lemma {:induction false} StepsRunOut(s: State, h: nat, i: nat)
    requires Inv(s, h) && Enabled(s, Go(i))
    ensures Total(Step(s, Go(i)).pc) < Total(s.pc)
  {
    GoCounters(s, h, i);
    TotalOfCounters(s.pc, i, s.flag[i]);
  }

  lemma {:induction false} TotalOfCounters(pc: seq<Pc>, i: nat, flag: bool)
    requires i < |pc| && !pc[i].Absent? && !pc[i].Running? && !pc[i].Waiting?
    requires Roused(pc, i).Some? ==> Roused(pc, i).value.0 < |pc| && Roused(pc, i).value.0 != i
    ensures Total(Counters(pc, i, flag)) < Total(pc)
  {
    var p := Moved(pc[i], flag);
    TotalMoved(pc, i, p);
    match Roused(pc, i)
    case Some((t, q)) => TotalMoved(pc[i := p], t, q);
    case None =>
  }

  ghost predicate OnlyGo(acts: seq<Action>) {
    forall j :: 0 <= j < |acts| ==> acts[j].Go?
  }

  /** No thread can take another step, unless user code calls something or a wait returns for no reason. */
  ghost predicate Settled(s: State)
    requires s.Sized()
  {
    forall i :: 0 <= i < s.Count() ==> !Enabled(s, Go(i))
  }

  lemma {:induction false} GoRunEnds(s: State, acts: seq<Action>, h: nat)
    requires Inv(s, h) && Run(s, acts) && OnlyGo(acts)
    ensures After(s, acts).Sized() && |acts| + Total(After(s, acts).pc) <= Total(s.pc)
    decreases |acts|
  {
    if acts != [] {
      StepInv(s, acts[0], h);
      StepsRunOut(s, h, acts[0].i);
      GoRunEnds(Step(s, acts[0]), acts[1..], Next(s, acts[0], h));
    }
  }

  lemma {:induction false} NobodyCalled(acts: seq<Action>, first: nat)
    requires OnlyGo(acts)
    ensures LastCalled(acts, first) == first
    decreases |acts|
  {
    if acts != [] {
      NobodyCalled(acts[..|acts| - 1], first);
    }
  }

  /**
    However the threads are scheduled, they can take at most so many steps on their own, and when no
    step is left the context that control was sent to is in user code.
    */
  lemma {:induction false} EveryScheduleArrives(s: State, h: nat, acts: seq<Action>)
    requires Inv(s, h) && Run(s, acts) && OnlyGo(acts)
    ensures |acts| <= Total(s.pc) && After(s, acts).Sized()
    ensures Settled(After(s, acts)) ==> var t := After(s, acts); Heir(s, h) < |t.pc| && t.pc[Heir(s, h)].Running?
  {
    GoRunEnds(s, acts, h);
    var k := HeirOfRun(s, acts, h);
    NobodyCalled(acts, Heir(s, h));
    var t := After(s, acts);
    if Settled(t) {
      SomebodyGoesOn(t, k);
      var x :| 0 <= x < t.Count() && (t.pc[x].Running? || Enabled(t, Go(x)));
      RunnerIsHeir(t, k, x);
    }
  }

  /** There is such a schedule. */
  lemma {:induction false} SomeScheduleSettles(s: State, h: nat) returns (acts: seq<Action>)
    requires Inv(s, h)
    ensures Run(s, acts) && OnlyGo(acts) && After(s, acts).Sized() && Settled(After(s, acts))
    decreases Total(s.pc)
  {
    acts := [];
    if i: nat :| i < s.Count() && Enabled(s, Go(i)) {
      StepInv(s, Go(i), h);
      StepsRunOut(s, h, i);
      var rest := SomeScheduleSettles(Step(s, Go(i)), Next(s, Go(i), h));
      RunStep(s, Go(i), rest);
      acts := [Go(i)] + rest;
    }
  }

  /**
    A switch succeeds: the threads alone bring its target into user code, under every schedule that
    is carried on as far as it goes, and there is one.
    */
  lemma {:induction false} SwitchSucceeds(s: State, h: nat, i: nat, to: nat) returns (acts: seq<Action>)
    requires Inv(s, h) && Enabled(s, Switch(i, to))
    ensures var t := Step(s, Switch(i, to));
            && t.Sized() && Run(t, acts) && OnlyGo(acts)
            && var u := After(t, acts); to < |u.pc| && u.pc[to].Running?
  {
    var t := Step(s, Switch(i, to));
    StepInv(s, Switch(i, to), h);
    HeirOfCall(s, Switch(i, to), h);
    acts := SomeScheduleSettles(t, h);
    EveryScheduleArrives(t, h, acts);
  }

  /** A thread that is starting the context n, or has started it. */
  predicate Bearing(pc: seq<Pc>, i: nat, n: nat) {
    && i < |pc| && n < |pc|
    && (!pc[n].Absent? || pc[i] == InitLock(n) || pc[i] == InitClear(n) || pc[i] == InitSpawn(n))
  }

  lemma {:induction false} BearingStep(pc: seq<Pc>, x: nat, flag: bool, i: nat, n: nat)
    requires x < |pc| && !pc[x].Absent? && Bearing(pc, i, n)
    requires pc[x].InitSpawn? ==> pc[x].born < |pc| && pc[pc[x].born].Absent?
    requires Roused(pc, x).Some? ==> Roused(pc, x).value.0 < |pc| && Roused(pc, x).value.0 != x
    ensures Bearing(Counters(pc, x, flag), i, n)
  {
    var qc := Counters(pc, x, flag);
    if !pc[n].Absent? {
      assert !qc[n].Absent?;
    } else if x != i {
      assert qc[i] == pc[i];
    }
  }

  lemma {:induction false} BearingOn(s: State, acts: seq<Action>, h: nat, i: nat, n: nat)
    requires Inv(s, h) && Run(s, acts) && OnlyGo(acts) && Bearing(s.pc, i, n)
    ensures Bearing(After(s, acts).pc, i, n)
    decreases |acts|
  {
    if acts != [] {
      StepInv(s, acts[0], h);
      GoCounters(s, h, acts[0].i);
      assert Sound(s.Count(), acts[0].i, s.pc[acts[0].i], s.pc);
      BearingStep(s.pc, acts[0].i, s.flag[acts[0].i], i, n);
      BearingOn(Step(s, acts[0]), acts[1..], Next(s, acts[0], h), i, n);
    }
  }

  /** Initialising a context succeeds: under every schedule its creator gets control back, and the context exists. */
  lemma {:induction false} InitSucceeds(s: State, h: nat, i: nat, n: nat, acts: seq<Action>)
    requires Inv(s, h) && Enabled(s, Init(i, n)) && Step(s, Init(i, n)).Sized()
    requires Run(Step(s, Init(i, n)), acts) && OnlyGo(acts)
    ensures |acts| <= Total(s.pc) + 16 && After(Step(s, Init(i, n)), acts).Sized()
    ensures var u := After(Step(s, Init(i, n)), acts);
            Settled(u) ==> Enabled(u, Switch(i, n)) && i < |u.pc| && u.pc[i].Running?
  {
    var t := Step(s, Init(i, n));
    StepInv(s, Init(i, n), h);
    HeirOfCall(s, Init(i, n), h);
    RunnerIsHeir(s, h, i);
    TotalMoved(s.pc, i, InitLock(n));
    EveryScheduleArrives(t, h, acts);
    BearingOn(t, acts, h, i, n);
  }

  /** A wait that returns for no reason is entered again, and nothing has changed. */
  lemma {:induction false} SpuriousGoesBack(s: State, i: nat)
    requires s.Sized() && i < s.Count() && s.pc[i].Waiting? && !s.flag[i] && s.owner[i].None?
    ensures var acts := [Spurious(i)] + ([Go(i)] + ([Go(i)] + ([Go(i)] + [])));
            Run(s, acts) && After(s, acts) == s
  {
    var a := s.(pc := s.pc[i := Woken]);
    var b := s.(pc := s.pc[i := Check], owner := s.owner[i := Some(i)]);
    var c := s.(pc := s.pc[i := Enter], owner := s.owner[i := Some(i)]);
    assert a.pc[i := Check] == b.pc && b.pc[i := Enter] == c.pc && c.pc[i := Waiting] == s.pc;
    assert c.owner[i := None] == s.owner;
    assert Run(s, []) && After(s, []) == s;
    RunStep(c, Go(i), []);
    RunStep(b, Go(i), [Go(i)] + []);
    RunStep(a, Go(i), [Go(i)] + ([Go(i)] + []));
    RunStep(s, Spurious(i), [Go(i)] + ([Go(i)] + ([Go(i)] + [])));
  }
}
