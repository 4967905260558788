/**
  The fetch and execute loop of a hart: the fast form, which follows links between instruction cache
  entries, against the plain form, which fetches every instruction anew.
  */
module Execute {
  import opened Options

  const PC_SERIALIZE_BEFORE: nat := 3
  const PC_SERIALIZE_AFTER: nat := 5

  predicate InvalidPc(pc: nat) {
    pc % 2 == 1
  }

  datatype Fetched = Insn(bits: nat, length: nat) | FetchTrap(cause: nat)

  /**
    What executing an instruction gives: a new state and pc, and whether the instruction cache was
    flushed; or a trap.
    */
  datatype Executed<S> = Next(s: S, npc: nat, flushed: bool) | Trap(s: S, cause: nat)

  /** The processor seen from the loop: S is all of its state but pc and instruction cache. */
  datatype Env<!S> = Env(
    fetch: (S, nat) -> Fetched,
    exec: (S, nat, nat) -> Executed<S>,
    serialize: S -> S)

  /** Instructions return an even pc or one of the two markers; with any other the loop would abort. */
  ghost predicate Lawful<S(!new)>(env: Env<S>) {
    forall s, bits, pc :: env.exec(s, bits, pc).Next? && InvalidPc(env.exec(s, bits, pc).npc) ==>
      env.exec(s, bits, pc).npc == PC_SERIALIZE_BEFORE || env.exec(s, bits, pc).npc == PC_SERIALIZE_AFTER
  }

  // ---------------------------------------------------------------------------------------
  // The plain loop
  // ---------------------------------------------------------------------------------------

  datatype End = Count | Serialized | Trapped(at: nat, cause: nat)

  /** How a run of the loop ends: state, pc, retired instructions, and why. */
  datatype Result<S> = Result(s: S, pc: nat, instret: nat, end: End)

  /** Fetch, execute, advance, until n instructions have retired, one serialises, or one traps. */
  function Plain<S>(env: Env<S>, s: S, pc: nat, instret: nat, n: nat): Result<S>
    decreases n - instret
  {
    if instret >= n then Result(s, pc, instret, Count)
    else
      match env.fetch(s, pc)
      case FetchTrap(cause) => Result(s, pc, instret, Trapped(pc, cause))
      case Insn(bits, _) =>
        match env.exec(s, bits, pc)
        case Trap(t, cause) => Result(t, pc, instret, Trapped(pc, cause))
        case Next(t, npc, _) =>
          if InvalidPc(npc) then
            if npc == PC_SERIALIZE_BEFORE then Result(env.serialize(t), pc, instret, Serialized)
            else Result(t, pc, instret + 1, Serialized)
          else Plain(env, t, npc, instret + 1, n)
  }

  /**
    What an instruction that returns one of the markers 3 and 5 does: the loop ends and pc stays;
    with 3 the instruction has not retired and the hart is serialised, with 5 it has retired. Any
    even pc is where the loop goes on.
    */
  lemma {:induction false} MarkersEnd<S>(env: Env<S>, s: S, pc: nat, n: nat, t: S, npc: nat, flushed: bool)
    requires n > 0 && env.fetch(s, pc).Insn? && env.exec(s, env.fetch(s, pc).bits, pc) == Next(t, npc, flushed)
    ensures npc == 3 ==> Plain(env, s, pc, 0, n) == Result(env.serialize(t), pc, 0, Serialized)
    ensures npc == 5 ==> Plain(env, s, pc, 0, n) == Result(t, pc, 1, Serialized)
    ensures npc % 2 == 0 ==> Plain(env, s, pc, 0, n) == Plain(env, t, npc, 1, n)
  {
  }

  /** The plain loop retires at most n instructions, and on a trap exactly those before the faulting one. */
  lemma {:induction false} PlainBounded<S>(env: Env<S>, s: S, pc: nat, instret: nat, n: nat)
    requires instret <= n
    ensures var r := Plain(env, s, pc, instret, n);
            && instret <= r.instret <= n && (r.end.Count? ==> r.instret == n)
            && (r.end.Trapped? ==> r.end.at == r.pc && r.instret < n)
    decreases n - instret
  {
    if instret < n && env.fetch(s, pc).Insn? {
      var e := env.exec(s, env.fetch(s, pc).bits, pc);
      if e.Next? && !InvalidPc(e.npc) {
        PlainBounded(env, e.s, e.npc, instret + 1, n);
      }
    }
  }

  // ---------------------------------------------------------------------------------------
  // The instruction cache
  // ---------------------------------------------------------------------------------------

  const ICACHE_ENTRIES: nat := 1024

  /** An entry: the pc it is for, if any, the instruction, and the entry for the instruction behind it. */
  datatype Entry = Entry(tag: Option<nat>, bits: nat, next: nat)

  function Index(pc: nat): (i: nat)
    ensures i < ICACHE_ENTRIES
  {
    pc / 2 % ICACHE_ENTRIES
  }

  /** An entry that names a pc names an even one, and is in the place of that pc. */
  ghost predicate Placed(icache: seq<Entry>) {
    && |icache| == ICACHE_ENTRIES
    && forall i :: 0 <= i < |icache| ==>
         && icache[i].next < ICACHE_ENTRIES
         && (icache[i].tag.Some? ==> !InvalidPc(icache[i].tag.value) && i == Index(icache[i].tag.value))
  }

  function Flushed(icache: seq<Entry>): (r: seq<Entry>)
    ensures |r| == |icache|
  {
    seq(|icache|, i requires 0 <= i < |icache| => icache[i].(tag := None))
  }

  function FlushedIf(icache: seq<Entry>, flush: bool): (r: seq<Entry>)
    ensures |r| == |icache|
  {
    if flush then Flushed(icache) else icache
  }

  predicate Hit(icache: seq<Entry>, pc: nat)
    requires |icache| == ICACHE_ENTRIES
  {
    icache[Index(pc)].tag == Some(pc)
  }

  function Filled(icache: seq<Entry>, pc: nat, bits: nat, length: nat): (r: seq<Entry>)
    requires |icache| == ICACHE_ENTRIES
    ensures |r| == |icache|
  {
    icache[Index(pc) := Entry(Some(pc), bits, Index(pc + length))]
  }

  // ---------------------------------------------------------------------------------------
  // The loop through the instruction cache, without links
  // ---------------------------------------------------------------------------------------

  /** How a run ends, and the cache it leaves. */
  datatype Ran<S> = Ran(r: Result<S>, icache: seq<Entry>)

  /** The plain loop with a cache in front of the fetch: a hit is taken as it is, a miss is filled in. */
  function Through<S>(env: Env<S>, icache: seq<Entry>, s: S, pc: nat, instret: nat, n: nat): Ran<S>
    requires |icache| == ICACHE_ENTRIES
    decreases n - instret, 1
  {
    if instret >= n then Ran(Result(s, pc, instret, Count), icache)
    else if Hit(icache, pc) then Onward(env, icache, s, pc, instret, n)
    else
      match env.fetch(s, pc)
      case FetchTrap(cause) => Ran(Result(s, pc, instret, Trapped(pc, cause)), icache)
      case Insn(bits, length) => Onward(env, Filled(icache, pc, bits, length), s, pc, instret, n)
  }

  /** Executes the instruction that the cache holds for pc, and goes on. */
  function Onward<S>(env: Env<S>, icache: seq<Entry>, s: S, pc: nat, instret: nat, n: nat): Ran<S>
    requires |icache| == ICACHE_ENTRIES && instret < n
    decreases n - instret, 0
  {
    match env.exec(s, icache[Index(pc)].bits, pc)
    case Trap(t, cause) => Ran(Result(t, pc, instret, Trapped(pc, cause)), icache)
    case Next(t, npc, flushed) => After(env, FlushedIf(icache, flushed), t, pc, npc, instret, n)
  }

  /** What is left to do when the instruction at pc has been executed and gave npc. */
  function After<S>(env: Env<S>, icache: seq<Entry>, s: S, pc: nat, npc: nat, instret: nat, n: nat): Ran<S>
    requires |icache| == ICACHE_ENTRIES && instret < n
    decreases n - instret - 1, 2
  {
    if !InvalidPc(npc) then Through(env, icache, s, npc, instret + 1, n)
    else if npc == PC_SERIALIZE_BEFORE then Ran(Result(env.serialize(s), pc, instret, Serialized), icache)
    else Ran(Result(s, pc, instret + 1, Serialized), icache)
  }

  // ---------------------------------------------------------------------------------------
  // When the cache is not noticed
  // ---------------------------------------------------------------------------------------

  /** The two states hold the same code. */
  ghost predicate SameCode<S>(env: Env<S>, code: iset<nat>, s: S, t: S) {
    forall p :: p in code ==> env.fetch(s, p) == env.fetch(t, p)
  }

  /**
    The plain run stays inside the code, and an instruction of the run that changes the code also
    flushes the cache. Stores to other memory are free.
    */
  ghost predicate Steady<S>(env: Env<S>, code: iset<nat>, s: S, pc: nat, instret: nat, n: nat)
    decreases n - instret
  {
    instret < n ==>
      && pc in code
      && match env.fetch(s, pc)
         case FetchTrap(_) => true
         case Insn(bits, _) =>
           match env.exec(s, bits, pc)
           case Trap(_, _) => true
           case Next(t, npc, flushed) =>
             && (flushed || SameCode(env, code, s, t))
             && (npc == PC_SERIALIZE_BEFORE ==> SameCode(env, code, t, env.serialize(t)))
             && (InvalidPc(npc) || Steady(env, code, t, npc, instret + 1, n))
  }

  /** On a machine that never changes what can be fetched, every run is steady. */
  lemma {:induction false} FixedCodeSteady<S(!new)>(env: Env<S>, code: iset<nat>, s: S, pc: nat, instret: nat,
                                                        n: nat)
    requires forall s, bits, pc, p :: env.exec(s, bits, pc).Next? ==>
               env.fetch(env.exec(s, bits, pc).s, p) == env.fetch(s, p)
    requires forall s, p :: env.fetch(env.serialize(s), p) == env.fetch(s, p)
    requires forall p: nat :: p in code
    ensures Steady(env, code, s, pc, instret, n)
    decreases n - instret
  {
    if instret < n && env.fetch(s, pc).Insn? {
      var e := env.exec(s, env.fetch(s, pc).bits, pc);
      if e.Next? {
        FixedCodeSteady(env, code, e.s, e.npc, instret + 1, n);
      }
    }
  }

  /** Instructions may return either marker or any even pc. */
  lemma {:induction false} MarkersLawful()
    ensures Lawful(Env((s: bool, pc: nat) => Insn(0, 2),
              (s: bool, bits: nat, pc: nat) => Next(s, if bits < 2 then 3 + 2 * bits else 2 * bits, false),
              (s: bool) => s))
  {
  }

  /** Every entry that names a pc is about the code and holds what a fetch there gives. */
  ghost predicate Coherent<S>(env: Env<S>, code: iset<nat>, s: S, icache: seq<Entry>) {
    && |icache| == ICACHE_ENTRIES
    && forall i :: 0 <= i < |icache| && icache[i].tag.Some? ==>
         icache[i].tag.value in code && Cached(env.fetch(s, icache[i].tag.value), icache[i])
  }

  predicate Cached(f: Fetched, e: Entry) {
    f.Insn? && f.bits == e.bits
  }

  lemma {:induction false} StaysCoherent<S>(env: Env<S>, code: iset<nat>, s: S, t: S, icache: seq<Entry>, flush: bool)
    requires Coherent(env, code, s, icache) && (flush || SameCode(env, code, s, t))
    ensures Coherent(env, code, t, FlushedIf(icache, flush))
  {
    var c := FlushedIf(icache, flush);
    forall i | 0 <= i < |c| && c[i].tag.Some?
      ensures c[i].tag.value in code && Cached(env.fetch(t, c[i].tag.value), c[i])
    {
      assert !flush && c[i] == icache[i];
    }
  }

  /**
    A steady run through a coherent cache is the plain run, and leaves a coherent cache unless it
    ends in a trap.
    */
  lemma {:induction false} ThroughIsPlain<S>(env: Env<S>, code: iset<nat>, icache: seq<Entry>, s: S, pc: nat,
                                             instret: nat, n: nat)
    requires Coherent(env, code, s, icache) && Steady(env, code, s, pc, instret, n)
    ensures var g := Through(env, icache, s, pc, instret, n);
            && g.r == Plain(env, s, pc, instret, n)
            && (!g.r.end.Trapped? ==> Coherent(env, code, g.r.s, g.icache))
    decreases n - instret
  {
    if instret < n && env.fetch(s, pc).Insn? {
      var f := env.fetch(s, pc);
      var filled := if Hit(icache, pc) then icache else Filled(icache, pc, f.bits, f.length);
      assert Coherent(env, code, s, filled) && Cached(f, filled[Index(pc)]);
      assert Through(env, icache, s, pc, instret, n) == Onward(env, filled, s, pc, instret, n);
      var e := env.exec(s, f.bits, pc);
      if e.Next? {
        var c := FlushedIf(filled, e.flushed);
        StaysCoherent(env, code, s, e.s, filled, e.flushed);
        assert Onward(env, filled, s, pc, instret, n) == After(env, c, e.s, pc, e.npc, instret, n);
        if !InvalidPc(e.npc) {
          ThroughIsPlain(env, code, c, e.s, e.npc, instret + 1, n);
        } else if e.npc == PC_SERIALIZE_BEFORE {
          StaysCoherent(env, code, e.s, env.serialize(e.s), c, false);
        }
      }
    }
  }

  datatype Cell = Cell(word: nat, sum: nat)

  /** A machine whose one instruction adds its own bits to a sum and stores a 1 where it stands, without a flush. */
  const StoringCode: Env<Cell> := Env(
    (s: Cell, pc: nat) => Insn(s.word, 2),
    (s: Cell, bits: nat, pc: nat) => Next(Cell(1, s.sum + bits), pc, false),
    (s: Cell) => s)

  function NoEntries(): (r: seq<Entry>)
    ensures |r| == ICACHE_ENTRIES && Placed(r)
  {
    seq(ICACHE_ENTRIES, _ => Entry(None, 0, 0))
  }

  /** Code that is stored to without a flush: from an empty cache the old instruction is executed again. */
  lemma {:induction false} StoredCodeDiffers()
    ensures Plain(StoringCode, Cell(0, 0), 0, 0, 2).s == Cell(1, 1)
    ensures Through(StoringCode, NoEntries(), Cell(0, 0), 0, 0, 2).r.s == Cell(1, 0)
    ensures forall code :: !Steady(StoringCode, code, Cell(0, 0), 0, 0, 2)
  {
    var c := Filled(NoEntries(), 0, 0, 2);
    assert Onward(StoringCode, c, Cell(0, 0), 0, 0, 2) == Through(StoringCode, c, Cell(1, 0), 0, 1, 2);
    forall code: iset<nat>
      ensures !Steady(StoringCode, code, Cell(0, 0), 0, 0, 2)
    {
      if 0 in code {
        assert StoringCode.fetch(Cell(0, 0), 0) != StoringCode.fetch(Cell(1, 0), 0);
      }
    }
  }

  /** Instructions that jump to where their own bits say, and do nothing else. */
  function Telling<S>(env: Env<S>): Env<S> {
    env.(exec := (s: S, bits: nat, pc: nat) => Next(s, 2 * bits, false))
  }

  /** An entry that does not hold what a fetch gives is noticed: with the same code there are instructions that tell. */
  lemma {:induction false} StaleEntryTells<S>(env: Env<S>, icache: seq<Entry>, s: S, pc: nat)
    requires |icache| == ICACHE_ENTRIES && Hit(icache, pc) && !Cached(env.fetch(s, pc), icache[Index(pc)])
    ensures Through(Telling(env), icache, s, pc, 0, 1).r != Plain(Telling(env), s, pc, 0, 1)
  {
    assert Telling(env).fetch(s, pc) == env.fetch(s, pc);
  }

  // ---------------------------------------------------------------------------------------
  // The hart
  // ---------------------------------------------------------------------------------------

  datatype Access = Found(e: nat) | Failed(cause: nat)

  class Hart<S(!new)> {
    const env: Env<S>
    var s: S
    var pc: nat
    var icache: seq<Entry>

    constructor (env: Env<S>, s: S, pc: nat)
      requires Lawful(env) && !InvalidPc(pc)
      ensures this.env == env && this.s == s && this.pc == pc && icache == NoEntries() && Valid()
    {
      this.env, this.s, this.pc := env, s, pc;
      icache := NoEntries();
    }

    ghost predicate Valid()
      reads this
    {
      Lawful(env) && Placed(icache) && !InvalidPc(pc)
    }

    /** What is left to do from here. */
    ghost function Rest(instret: nat, n: nat): Ran<S>
      requires Valid()
      reads this
    {
      Through(env, icache, s, pc, instret, n)
    }

    /** The cache entry for a pc, filled in if need be. */
    method AccessICache(instret: nat, n: nat) returns (r: Access)
      requires Valid() && instret < n
      modifies this`icache
      ensures Valid() && Rest(instret, n) == old(Rest(instret, n))
      ensures match r
              case Found(e) => e == Index(pc) && icache[e].tag == Some(pc)
              case Failed(cause) => Rest(instret, n) == Ran(Result(s, pc, instret, Trapped(pc, cause)), icache)
    {
      var e := Index(pc);
      if icache[e].tag == Some(pc) {
        return Found(e);
      }
      match env.fetch(s, pc)
      case FetchTrap(cause) => return Failed(cause);
      case Insn(bits, length) =>
        icache := Filled(icache, pc, bits, length);
        return Found(e);
    }

    /** Executes the instruction of the entry for pc; the state is changed also when it traps. */
    method Execute(e: nat, instret: nat, n: nat) returns (r: Executed<S>)
      requires Valid() && instret < n && e == Index(pc) && icache[e].tag == Some(pc)
      modifies this`s, this`icache
      ensures Valid() && r.s == s
      ensures r.Trap? ==> old(Rest(instret, n)) == Ran(Result(s, pc, instret, Trapped(pc, r.cause)), icache)
      ensures r.Next? ==> old(Rest(instret, n)) == After(env, icache, s, pc, r.npc, instret, n)
      ensures r.Next? && InvalidPc(r.npc) ==> r.npc == PC_SERIALIZE_BEFORE || r.npc == PC_SERIALIZE_AFTER
    {
      assert Rest(instret, n) == Onward(env, icache, s, pc, instret, n);
      r := env.exec(s, icache[e].bits, pc);
      if r.Next? {
        icache := FlushedIf(icache, r.flushed);
      }
      s := r.s;
    }

    /** Executes instruction after instruction as long as the link from one entry leads to the next. */
    method FollowLinks(first: nat, done: nat, n: nat) returns (instret: nat, npc: nat, trap: Option<nat>)
      requires Valid() && done < n && first == Index(pc) && icache[first].tag == Some(pc)
      modifies this
      ensures Valid() && done <= instret < n
      ensures trap.Some? ==> old(Rest(done, n)) == Ran(Result(s, pc, instret, Trapped(pc, trap.value)), icache)
      ensures trap.None? ==> old(Rest(done, n)) == After(env, icache, s, pc, npc, instret, n)
      ensures trap.None? && InvalidPc(npc) ==> npc == PC_SERIALIZE_BEFORE || npc == PC_SERIALIZE_AFTER
    {
      ghost var goal := Rest(done, n);
      var e: nat := first;
      instret, npc, trap := done, pc, None;
      while true
        invariant done <= instret < n && Valid() && goal == Rest(instret, n)
        invariant e == Index(pc) && icache[e].tag == Some(pc)
        decreases n - instret
      {
        var x := Execute(e, instret, n);
        if x.Trap? {
          trap := Some(x.cause);
          return;
        }
        npc := x.npc;
        e := icache[e].next;
        if icache[e].tag != Some(npc) {
          return;
        }
        if instret + 1 == n {
          return;
        }
        instret := instret + 1;
        pc := npc;
      }
    }

    /**
      The fast loop, on any machine: links are never noticed, it ends as the loop through the cache
      does, with the same cache.
      */
    method FastLoop(n: nat) returns (r: Result<S>)
      requires Valid()
      modifies this
      ensures Ran(r, icache) == old(Rest(0, n)) && s == r.s && pc == r.pc && Valid()
    {
      ghost var goal := Rest(0, n);
      var instret := 0;
      while instret < n
        invariant instret <= n && Valid() && goal == Rest(instret, n)
        decreases n - instret
      {
        var access := AccessICache(instret, n);
        if access.Failed? {
          return Result(s, pc, instret, Trapped(pc, access.cause));
        }
        var npc, trap;
        instret, npc, trap := FollowLinks(access.e, instret, n);
        if trap.Some? {
          return Result(s, pc, instret, Trapped(pc, trap.value));
        }
        if InvalidPc(npc) {
          if npc == PC_SERIALIZE_BEFORE {
            s := env.serialize(s);
          } else {
            instret := instret + 1;
          }
          return Result(s, pc, instret, Serialized);
        }
        pc := npc;
        instret := instret + 1;
      }
      r := Result(s, pc, instret, Count);
    }

    /**
      On a steady run the fast loop ends like the plain loop: same state, same pc, same number of
      retired instructions, same reason.
      */
    method FastRun(n: nat, ghost code: iset<nat>) returns (r: Result<S>)
      requires Valid() && Coherent(env, code, s, icache) && Steady(env, code, s, pc, 0, n)
      modifies this
      ensures r == Plain(env, old(s), old(pc), 0, n) && s == r.s && pc == r.pc && Valid()
      ensures r.instret <= n && (r.end.Trapped? ==> r.end.at == pc && r.instret < n)
      ensures !r.end.Trapped? ==> Coherent(env, code, s, icache)
    {
      ThroughIsPlain(env, code, icache, s, pc, 0, n);
      PlainBounded(env, s, pc, 0, n);
      r := FastLoop(n);
    }
  }
}
