/**
  Writes to the protection registers: pmpaddr, pmpcfg and mseccfg (Smepmp). The class holds the
  registers and updates them in place; the functions give the meaning of each write on states,
  and the theorems speak about every sequence of writes.
  */
module PmpCsrs {
  import opened Pmp
  import opened Bits

  // ---------------------------------------------------------------------------------------
  // The meaning of one write
  // ---------------------------------------------------------------------------------------

  predicate NextLockedAndTor(s: State, i: nat)
    requires |s.entries| == MAX_PMP
  {
    i + 1 < MAX_PMP && !s.Rlb() && s.Locked(i + 1) && s.Mode(i + 1) == PMP_TOR
  }

  predicate AddrWritable(s: State, i: nat)
    requires |s.entries| == MAX_PMP && i < MAX_PMP
  {
    i < s.n && !(!s.Rlb() && s.Locked(i)) && !NextLockedAndTor(s, i)
  }

  function WriteAddr(s: State, i: nat, v: nat): State
    requires |s.entries| == MAX_PMP && i < MAX_PMP
  {
    if AddrWritable(s, i) then s.(entries := s.entries[i := s.entries[i].(val := v % PMPADDR_LIMIT)]) else s
  }

  /** Byte k of a register value. */
  function ByteOf(v: nat, k: nat): (b: nat)
    ensures b < 256
  {
    v / Pow2(8 * k) % 256
  }

  function Pack(l: bool, f: bool, e: bool, d: bool, c: bool, x: bool, w: bool, r: bool): bv8 {
    (if l then 0x80 else 0) | (if f then 0x40 else 0) | (if e then 0x20 else 0) | (if d then 0x10 else 0)
    | (if c then 0x08 else 0) | (if x then 0x04 else 0) | (if w then 0x02 else 0) | (if r then 0x01 else 0)
  }

  /** Binary digit k of a number. */
  predicate Bit(b: nat, k: nat) {
    if k == 0 then b % 2 == 1 else Bit(b / 2, k - 1)
  }

  /** A number below 256 as a byte, digit by digit, and back. */
  function ToByte(b: nat): bv8 {
    Pack(Bit(b, 7), Bit(b, 6), Bit(b, 5), Bit(b, 4), Bit(b, 3), Bit(b, 2), Bit(b, 1), Bit(b, 0))
  }

  function FromByte(c: bv8): (b: nat)
    ensures b < 256
  {
    (if c & 0x80 != 0 then 128 else 0) + (if c & 0x40 != 0 then 64 else 0)
    + (if c & 0x20 != 0 then 32 else 0) + (if c & 0x10 != 0 then 16 else 0)
    + (if c & 0x08 != 0 then 8 else 0) + (if c & 0x04 != 0 then 4 else 0)
    + (if c & 0x02 != 0 then 2 else 0) + (if c & 0x01 != 0 then 1 else 0)
  }

  /** Byte k of a pmpcfg register value, without the bits an entry does not have. */
  function CfgByte(v: nat, k: nat): bv8 {
    ToByte(ByteOf(v, k)) & 0x9F
  }

  /** Drops the reserved combinations of a new configuration byte. */
  function Legalize(mml: bool, lg: nat, c: bv8): bv8 {
    var c1 := if !mml && c & PMP_R == 0 then c & !PMP_W else c;
    if lg != 2 && c1 & PMP_A == PMP_NA4 then c1 | PMP_NAPOT else c1
  }

  /** A locked rule that machine mode could execute from, other than RWX = 111. */
  predicate MachineExecutable(c: bv8) {
    var x := c & PMP_X != 0;
    var w := c & PMP_W != 0;
    var r := c & PMP_R != 0;
    c & PMP_L != 0 && !(x && w && r) && (x || (w && !r))
  }

  function NewCfg(s: State, i: nat, byte: bv8): bv8
    requires |s.entries| == MAX_PMP && i < MAX_PMP
  {
    var c := Legalize(s.Mml(), s.lg, byte);
    if (s.Rlb() || !s.Locked(i)) && (s.Rlb() || !(s.Mml() && MachineExecutable(c)))
    then c
    else s.entries[i].cfg
  }

  function CfgEntry(s: State, i0: nat, count: nat, v: nat, i: nat): Entry
    requires |s.entries| == MAX_PMP && i < MAX_PMP && count <= 8
  {
    if i0 <= i < i0 + count && i < s.n
    then s.entries[i].(cfg := NewCfg(s, i, CfgByte(v, i - i0)))
    else s.entries[i]
  }

  /** Writes `count` configuration bytes, starting at entry i0. */
  function WriteCfg(s: State, i0: nat, count: nat, v: nat): State
    requires |s.entries| == MAX_PMP && count <= 8
  {
    s.(entries := seq(MAX_PMP, i requires 0 <= i < MAX_PMP => CfgEntry(s, i0, count, v, i)))
  }

  ghost predicate LockRecorded(s: State)
    requires s.n <= |s.entries|
  {
    exists i: nat :: i < s.n && s.Locked(i)
  }

  function SecValue(prev: bv64, v: bv64, lockRecorded: bool): bv64 {
    var rlbFree := !(lockRecorded && prev & MSECCFG_RLB == 0);
    (if rlbFree then (prev & !MSECCFG_RLB) | (v & MSECCFG_RLB) else prev) | (v & MSECCFG_MMWP) | (v & MSECCFG_MML)
  }

  ghost function WriteSec(s: State, v: bv64): State
    requires s.n <= |s.entries|
  {
    if s.n == 0 then s else s.(mseccfg := SecValue(s.mseccfg, v, LockRecorded(s)))
  }

  // ---------------------------------------------------------------------------------------
  // The register file
  // ---------------------------------------------------------------------------------------

  class PmpRegs {
    const n: nat
    const lg: nat
    const entries: array<Entry>
    var mseccfg: bv64
    /** Set by every write that has to discard cached translations. */
    var tlbFlushed: bool

    ghost predicate Valid()
      reads this, entries
    {
      entries.Length == MAX_PMP && State(n, lg, entries[..], mseccfg).Valid()
    }

    ghost function Regs(): State
      reads this, entries
    {
      State(n, lg, entries[..], mseccfg)
    }

    constructor (n: nat, lg: nat)
      requires n <= MAX_PMP && 2 <= lg < 64
      ensures Valid() && Regs() == Reset(n, lg)
      ensures fresh(entries)
    {
      this.n, this.lg, this.mseccfg, this.tlbFlushed := n, lg, 0, true;
      entries := new Entry[MAX_PMP](_ => Entry(0, 0));
      new;
      assert entries[..] == seq(MAX_PMP, _ => Entry(0, 0));
    }

    method WritePmpaddr(i: nat, v: nat) returns (written: bool)
      requires Valid() && i < MAX_PMP
      modifies this, entries
      ensures Valid()
      ensures written == (n != 0 && AddrWritable(old(Regs()), i))
      ensures Regs() == WriteAddr(old(Regs()), i, v)
      ensures Regs() != old(Regs()) ==> tlbFlushed
    {
      if n == 0 {
        return false;
      }
      var rlb := mseccfg & MSECCFG_RLB != 0;
      var locked := !rlb && entries[i].cfg & PMP_L != 0;
      var nextLockedAndTor := false;
      if i + 1 < MAX_PMP {
        nextLockedAndTor := !rlb && entries[i + 1].cfg & PMP_L != 0 && entries[i + 1].cfg & PMP_A == PMP_TOR;
      }
      if i < n && !locked && !nextLockedAndTor {
        entries[i] := Entry(v % PMPADDR_LIMIT, entries[i].cfg);
        assert entries[..] == old(entries[..])[i := entries[i]];
      } else {
        return false;
      }
      tlbFlushed := true;
      return true;
    }

    method WritePmpcfg(i0: nat, count: nat, v: nat) returns (written: bool)
      requires Valid() && i0 + count <= MAX_PMP && count <= 8
      modifies this, entries
      ensures Valid()
      ensures written <==> i0 < n && count > 0
      ensures Regs() == WriteCfg(old(Regs()), i0, count, v)
      ensures n != 0 ==> tlbFlushed
    {
      written := false;
      if n == 0 {
        assert entries[..] == WriteCfg(old(Regs()), i0, count, v).entries;
        return;
      }
      ghost var s := old(Regs());
      var rlb := mseccfg & MSECCFG_RLB != 0;
      var mml := mseccfg & MSECCFG_MML != 0;
      var i := i0;
      while i < i0 + count
        invariant i0 <= i <= i0 + count
        invariant written <==> i0 < n && i0 < i
        invariant unchanged(this)
        invariant forall j :: 0 <= j < MAX_PMP ==>
          entries[j] == if j < i then CfgEntry(s, i0, count, v, j) else old(entries[j])
      {
        if i < n {
          WriteByte(i, rlb, mml, CfgByte(v, i - i0), s);
          written := true;
        }
        i := i + 1;
      }
      assert entries[..] == WriteCfg(s, i0, count, v).entries;
      tlbFlushed := true;
    }

    /** Writes one configuration byte, unless the entry is locked or the rule may not be added. */
    method WriteByte(i: nat, rlb: bool, mml: bool, byte: bv8, ghost s: State)
      requires Valid() && i < n && s.Valid() && s.n == n && s.lg == lg && s.mseccfg == mseccfg
      requires rlb == (mseccfg & MSECCFG_RLB != 0) && mml == (mseccfg & MSECCFG_MML != 0) && entries[i] == s.entries[i]
      modifies entries
      ensures Valid() && entries[i] == s.entries[i].(cfg := NewCfg(s, i, byte))
      ensures forall j :: 0 <= j < MAX_PMP && j != i ==> entries[j] == old(entries[j])
    {
      var locked := entries[i].cfg & PMP_L != 0;
      if rlb || !locked {
        var cfg := Legalize(mml, lg, byte);
        if rlb || !(mml && MachineExecutable(cfg)) {
          entries[i] := Entry(entries[i].val, cfg);
        }
      }
    }

    /** Reads configuration bytes: each is put above those of the entries before it. */
    method ReadPmpcfg(i0: nat, count: nat) returns (v: nat)
      requires Valid() && i0 + count <= MAX_PMP
      ensures v == ReadCfg(Regs(), i0, count)
    {
      v := 0;
      var i, weight := i0, 1;
      ghost var s, left := Regs(), ReadCfg(Regs(), i0, count);
      ghost var goal := left;
      while i < i0 + count
        invariant i0 <= i <= i0 + count && left == ReadCfg(s, i, i0 + count - i)
        invariant goal == v + weight * left
      {
        var byte := FromByte(entries[i].cfg);
        ghost var rest := ReadCfg(s, i + 1, i0 + count - i - 1);
        Heavier(weight, byte, rest);
        v := v + byte * weight;
        weight := 256 * weight;
        i, left := i + 1, rest;
      }
    }

    /** Is any implemented entry locked, enabled or not? */
    method AnyLocked() returns (found: bool)
      requires Valid()
      ensures found <==> LockRecorded(Regs())
    {
      found := false;
      var i := 0;
      while i < n
        invariant i <= n
        invariant !found
        invariant forall j: nat :: j < i ==> !Regs().Locked(j)
      {
        if entries[i].cfg & PMP_L != 0 {
          assert Regs().Locked(i);
          return true;
        }
        i := i + 1;
      }
    }

    method WriteMseccfg(v: bv64) returns (written: bool)
      requires Valid()
      modifies this
      ensures Valid()
      ensures written == (n != 0)
      ensures Regs() == WriteSec(old(Regs()), v)
      ensures n != 0 ==> tlbFlushed
    {
      if n == 0 {
        return false;
      }
      var lockRecorded := AnyLocked();
      mseccfg := SecValue(mseccfg, v, lockRecorded);
      tlbFlushed := true;
      return true;
    }
  }

  // ---------------------------------------------------------------------------------------
  // Every run of writes
  // ---------------------------------------------------------------------------------------

  datatype Write =
    | Addr(i: nat, v: nat)
    | Cfg(i0: nat, count: nat, v: nat)
    | Sec(w: bv64)
  {
    predicate WellFormed() {
      match this
      case Addr(i, v) => i < MAX_PMP
      case Cfg(i0, count, _) => i0 + count <= MAX_PMP && count <= 8
      case Sec(w) => true
    }
  }

  ghost function Apply(s: State, w: Write): (r: State)
    requires s.Valid() && w.WellFormed()
    ensures r.Valid() && r.n == s.n && r.lg == s.lg
  {
    match w
    case Addr(i, v) => WriteAddr(s, i, v)
    case Cfg(i0, count, v) => WriteCfg(s, i0, count, v)
    case Sec(w) => WriteSec(s, w)
  }

  ghost function Run(s: State, ws: seq<Write>): (r: State)
    requires s.Valid() && forall w :: w in ws ==> w.WellFormed()
    ensures r.Valid() && r.n == s.n && r.lg == s.lg
    decreases |ws|
  {
    if ws == [] then s else Run(Apply(s, ws[0]), ws[1..])
  }

  /** Entry i is locked and the lock cannot be bypassed. */
  predicate HardLocked(s: State, i: nat)
    requires |s.entries| == MAX_PMP
  {
    i < s.n <= MAX_PMP && s.Locked(i) && !s.Rlb()
  }

  /** The registers that define what entry i matches are the same in s and t. */
  predicate SameRule(s: State, t: State, i: nat)
    requires |s.entries| == |t.entries| == MAX_PMP && i < MAX_PMP
  {
    && t.entries[i] == s.entries[i]
    && (s.Mode(i) == PMP_TOR && i > 0 ==> t.entries[i - 1].val == s.entries[i - 1].val)
  }

  lemma {:induction false} SecKeepsRlbClear(prev: bv64, v: bv64)
    requires prev & MSECCFG_RLB == 0
    ensures SecValue(prev, v, true) & MSECCFG_RLB == 0
  {
  }

  lemma {:induction false} SecSticky(prev: bv64, v: bv64, lockRecorded: bool)
    ensures prev & MSECCFG_MML != 0 ==> SecValue(prev, v, lockRecorded) & MSECCFG_MML != 0
    ensures prev & MSECCFG_MMWP != 0 ==> SecValue(prev, v, lockRecorded) & MSECCFG_MMWP != 0
  {
  }

  lemma {:induction false} StepKeepsLocked(s: State, w: Write, i: nat)
    requires s.Valid() && w.WellFormed() && HardLocked(s, i)
    ensures HardLocked(Apply(s, w), i) && SameRule(s, Apply(s, w), i)
  {
    match w
    case Addr(j, v) =>
    case Cfg(i0, count, v) =>
    case Sec(v) =>
      assert LockRecorded(s);
      SecKeepsRlbClear(s.mseccfg, v);
  }

  /**
    Once an entry is locked while RLB is 0, no sequence of register writes changes its address
    register, its permission bits or the lower bound it borrows as a TOR entry, and RLB stays 0.
    */
  lemma {:induction false} LockedRuleFrozen(s: State, ws: seq<Write>, i: nat)
    requires s.Valid() && (forall w :: w in ws ==> w.WellFormed()) && HardLocked(s, i)
    ensures HardLocked(Run(s, ws), i) && SameRule(s, Run(s, ws), i)
    decreases |ws|
  {
    if ws != [] {
      StepKeepsLocked(s, ws[0], i);
      LockedRuleFrozen(Apply(s, ws[0]), ws[1..], i);
    }
  }

  lemma {:induction false} SameRuleSameMatch(s: State, t: State, i: nat, a: nat)
    requires s.Valid() && t.Valid() && s.lg == t.lg && i < MAX_PMP && SameRule(s, t, i)
    ensures Match4(s, i, a) == Match4(t, i, a)
  {
  }

  /** The set of addresses a locked entry matches never changes. */
  lemma {:induction false} LockedRegionFrozen(s: State, ws: seq<Write>, i: nat, a: nat)
    requires s.Valid() && (forall w :: w in ws ==> w.WellFormed()) && HardLocked(s, i)
    ensures Match4(Run(s, ws), i, a) == Match4(s, i, a)
  {
    LockedRuleFrozen(s, ws, i);
    SameRuleSameMatch(s, Run(s, ws), i, a);
  }

  lemma {:induction false} MmlMmwpSticky(s: State, ws: seq<Write>)
    requires s.Valid() && (forall w :: w in ws ==> w.WellFormed())
    ensures s.Mml() ==> Run(s, ws).Mml()
    ensures s.Mmwp() ==> Run(s, ws).Mmwp()
    decreases |ws|
  {
    if ws != [] {
      if ws[0].Sec? {
        SecSticky(s.mseccfg, ws[0].w, LockRecorded(s));
      }
      MmlMmwpSticky(Apply(s, ws[0]), ws[1..]);
    }
  }

  // ---------------------------------------------------------------------------------------
  // Configurations stay legal
  // ---------------------------------------------------------------------------------------

  predicate LegalCfg(c: bv8, mml: bool, lg: nat) {
    && c & 0x60 == 0
    && (lg != 2 ==> c & PMP_A != PMP_NA4)
    && (!mml ==> !(c & PMP_W != 0 && c & PMP_R == 0))
  }

  ghost predicate AllLegal(s: State)
    requires |s.entries| == MAX_PMP
  {
    forall i :: 0 <= i < MAX_PMP ==> LegalCfg(s.entries[i].cfg, s.Mml(), s.lg)
  }

  lemma {:induction false} LegalizeIsLegal(mml: bool, lg: nat, c: bv8)
    requires c & 0x60 == 0
    ensures LegalCfg(Legalize(mml, lg, c), mml, lg)
  {
  }

  lemma {:induction false} CfgByteClean(v: nat, k: nat)
    ensures CfgByte(v, k) & 0x60 == 0
  {
    var x := ToByte(ByteOf(v, k));
    assert (x & 0x9F) & 0x60 == 0;
  }

  lemma {:induction false} StepKeepsLegal(s: State, w: Write)
    requires s.Valid() && w.WellFormed() && AllLegal(s)
    ensures AllLegal(Apply(s, w))
  {
    match w
    case Addr(j, v) =>
    case Cfg(i0, count, v) =>
      var t := Apply(s, w);
      forall i | 0 <= i < MAX_PMP
        ensures LegalCfg(t.entries[i].cfg, s.Mml(), s.lg)
      {
        CfgKeepsLegal(s, i0, count, v, i);
      }
    case Sec(v) => SecKeepsLegal(s, v);
  }

  lemma {:induction false} CfgKeepsLegal(s: State, i0: nat, count: nat, v: nat, i: nat)
    requires s.Valid() && count <= 8 && i < MAX_PMP && AllLegal(s)
    ensures LegalCfg(CfgEntry(s, i0, count, v, i).cfg, s.Mml(), s.lg)
  {
    if i0 <= i < i0 + count && i < s.n {
      CfgByteClean(v, i - i0);
      LegalizeIsLegal(s.Mml(), s.lg, CfgByte(v, i - i0));
    }
  }

  lemma {:induction false} SecKeepsLegal(s: State, v: bv64)
    requires s.Valid() && AllLegal(s)
    ensures AllLegal(WriteSec(s, v))
  {
    SecSticky(s.mseccfg, v, LockRecorded(s));
  }

  lemma {:induction false} RunKeepsLegal(s: State, ws: seq<Write>)
    requires s.Valid() && (forall w :: w in ws ==> w.WellFormed()) && AllLegal(s)
    ensures AllLegal(Run(s, ws))
    decreases |ws|
  {
    if ws != [] {
      StepKeepsLegal(s, ws[0]);
      RunKeepsLegal(Apply(s, ws[0]), ws[1..]);
    }
  }

  /** The registers after reset. */
  function Reset(n: nat, lg: nat): State {
    State(n, lg, seq(MAX_PMP, _ => Entry(0, 0)), 0)
  }

  lemma {:induction false} ResetLegal(n: nat, lg: nat)
    requires n <= MAX_PMP && 2 <= lg < 64
    ensures Reset(n, lg).Valid() && AllLegal(Reset(n, lg))
  {
  }

  /**
    From reset on, no entry ever holds a reserved configuration: no reserved bit, no NA4 with a
    coarser granularity, and no writable-but-unreadable rule unless MML is set.
    */
  lemma {:induction false} ReachableLegal(n: nat, lg: nat, ws: seq<Write>)
    requires n <= MAX_PMP && 2 <= lg < 64 && forall w :: w in ws ==> w.WellFormed()
    ensures Reset(n, lg).Valid() && Run(Reset(n, lg), ws).Valid() && AllLegal(Run(Reset(n, lg), ws))
  {
    ResetLegal(n, lg);
    RunKeepsLegal(Reset(n, lg), ws);
  }

  // ---------------------------------------------------------------------------------------
  // Lock-down: no new machine-mode code
  // ---------------------------------------------------------------------------------------

  /** MML is on and RLB can no longer be set. */
  ghost predicate LockedDown(s: State)
    requires s.Valid()
  {
    s.Mml() && exists i: nat :: HardLocked(s, i)
  }

  lemma {:induction false} FetchableIsMachineExecutable(s: State, i: nat)
    requires s.Valid() && i < MAX_PMP && s.Mml() && AccessOk(s, i, Fetch, PRV_M)
    ensures MachineExecutable(s.entries[i].cfg)
  {
  }

  lemma {:induction false} LockedDownStays(s: State, ws: seq<Write>)
    requires s.Valid() && (forall w :: w in ws ==> w.WellFormed()) && LockedDown(s)
    ensures LockedDown(Run(s, ws))
  {
    var i: nat :| HardLocked(s, i);
    LockedRuleFrozen(s, ws, i);
    MmlMmwpSticky(s, ws);
  }

  lemma {:induction false} StepAddsNoMachineCode(s: State, w: Write, i: nat)
    requires s.Valid() && w.WellFormed() && LockedDown(s) && i < s.n
    requires MachineExecutable(Apply(s, w).entries[i].cfg)
    ensures MachineExecutable(s.entries[i].cfg) && SameRule(s, Apply(s, w), i)
  {
    var j: nat :| HardLocked(s, j);
    match w
    case Addr(_, v) =>
      StepKeepsLocked(s, w, i);
    case Cfg(i0, count, v) =>
      assert Apply(s, w).entries[i] == CfgEntry(s, i0, count, v, i);
      StepKeepsLocked(s, w, i);
    case Sec(v) =>
  }

  lemma {:induction false} RunAddsNoMachineCode(s: State, ws: seq<Write>, i: nat)
    requires s.Valid() && (forall w :: w in ws ==> w.WellFormed()) && LockedDown(s) && i < s.n
    requires MachineExecutable(Run(s, ws).entries[i].cfg)
    ensures MachineExecutable(s.entries[i].cfg) && SameRule(s, Run(s, ws), i)
    decreases |ws|
  {
    if ws != [] {
      var s1 := Apply(s, ws[0]);
      LockedDownStays(s, [ws[0]]);
      assert Run(s, [ws[0]]) == s1;
      RunAddsNoMachineCode(s1, ws[1..], i);
      StepAddsNoMachineCode(s, ws[0], i);
    }
  }

  /** If a fetch is allowed from entry i on, some entry matches all of it and allows machine-mode fetches. */
  lemma {:induction false} AllowedFetchHasRule(s: State, i: nat, addr: nat, len: nat) returns (r: nat)
    requires s.Valid() && i <= s.n && s.Mml() && AllowedFrom(s, i, addr, len, Fetch, PRV_M)
    ensures r < s.n && AllSectors(MatchAt(s, r, addr), len) && AccessOk(s, r, Fetch, PRV_M)
    decreases s.n - i
  {
    if AnySector(MatchAt(s, i, addr), len) {
      r := i;
    } else {
      r := AllowedFetchHasRule(s, i + 1, addr, len);
    }
  }

  /**
    After lock-down, whatever is written to the registers, machine mode can fetch only from
    addresses that an executable machine-mode rule already covered at the time of lock-down.
    */
  lemma {:induction false} NoNewMachineCode(s: State, ws: seq<Write>, addr: nat, len: nat) returns (r: nat)
    requires s.Valid() && (forall w :: w in ws ==> w.WellFormed()) && LockedDown(s)
    requires Allowed(Run(s, ws), addr, len, Fetch, PRV_M)
    ensures r < s.n && MachineExecutable(s.entries[r].cfg) && AllSectors(MatchAt(s, r, addr), len)
  {
    var t := Run(s, ws);
    LockedDownStays(s, ws);
    r := AllowedFetchHasRule(t, 0, addr, len);
    FetchableIsMachineExecutable(t, r);
    RunAddsNoMachineCode(s, ws, r);
    forall o: nat | Sector(o, len)
      ensures MatchAt(s, r, addr)(o)
    {
      SameRuleSameMatch(s, t, r, (addr + o) % WORDS);
      assert MatchAt(t, r, addr)(o);
    }
  }

  // ---------------------------------------------------------------------------------------
  // What was written can be read
  // ---------------------------------------------------------------------------------------

  /** The value that reading `count` configuration bytes from entry i0 on gives, the first one lowest. */
  function ReadCfg(s: State, i0: nat, count: nat): nat
    requires |s.entries| == MAX_PMP && i0 + count <= MAX_PMP
    decreases count
  {
    if count == 0 then 0 else FromByte(s.entries[i0].cfg) + 256 * ReadCfg(s, i0 + 1, count - 1)
  }

  lemma {:induction false} Heavier(w: nat, b: nat, r: nat)
    ensures w * (b + 256 * r) == b * w + 256 * w * r
  {
    assert 256 * w * r == w * (256 * r);
  }

  /** A byte that an entry takes as it is, bit by bit. */
  predicate Acceptable(s: State, c: bv8) {
    && c & 0x60 == 0
    && (s.lg != 2 ==> c & 0x18 != 0x10)
    && (s.mseccfg & 1 == 0 ==> c & 0x03 != 0x02)
    && (s.mseccfg & 1 != 0 && s.mseccfg & 4 == 0 ==>
          c & 0x80 == 0 || c & 0x07 == 0x07 || (c & 0x04 == 0 && c & 0x03 != 0x02))
  }

  lemma {:induction false} AcceptableTaken(s: State, i: nat, c: bv8)
    requires s.Valid() && i < s.n && Acceptable(s, c) && (s.mseccfg & 4 != 0 || s.entries[i].cfg & 0x80 == 0)
    ensures NewCfg(s, i, c) == c && c & 0x9F == c
  {
  }

  lemma {:induction false} ByteBack(b: nat)
    requires b < 256
    ensures FromByte(ToByte(b)) == b
  {
    PackBits(Bit(b, 7), Bit(b, 6), Bit(b, 5), Bit(b, 4), Bit(b, 3), Bit(b, 2), Bit(b, 1), Bit(b, 0));
    DigitSum(b);
  }

  /** A number below 256 is made of its digits. */
  lemma {:induction false} DigitSum(b: nat)
    requires b < 256
    ensures b == 128 * Digit(Bit(b, 7)) + 64 * Digit(Bit(b, 6)) + 32 * Digit(Bit(b, 5)) + 16 * Digit(Bit(b, 4))
                 + 8 * Digit(Bit(b, 3)) + 4 * Digit(Bit(b, 2)) + 2 * Digit(Bit(b, 1)) + Digit(Bit(b, 0))
  {
    var q := b / 16;
    FourDigits(b);
    FourDigits(q);
    Skip(b, 0);
    Skip(b, 1);
    Skip(b, 2);
    Skip(b, 3);
    assert q / 16 == 0;
  }

  lemma {:induction false} Skip(b: nat, k: nat)
    ensures Bit(b, k + 4) == Bit(b / 16, k)
  {
    assert b / 2 / 2 / 2 / 2 == b / 16;
    assert Bit(b, k + 4) == Bit(b / 2, k + 3) == Bit(b / 2 / 2, k + 2) == Bit(b / 2 / 2 / 2, k + 1);
  }

  lemma {:induction false} FourDigits(b: nat)
    ensures b == 16 * (b / 16) + 8 * Digit(Bit(b, 3)) + 4 * Digit(Bit(b, 2)) + 2 * Digit(Bit(b, 1)) + Digit(Bit(b, 0))
  {
    var h, q := b / 2, b / 2 / 2;
    var o := q / 2;
    assert Bit(b, 1) == Bit(h, 0) && Bit(b, 2) == Bit(h, 1) == Bit(q, 0);
    assert Bit(b, 3) == Bit(h, 2) == Bit(q, 1) == Bit(o, 0);
    assert o / 2 == b / 16;
  }

  function Digit(b: bool): nat { if b then 1 else 0 }

  lemma {:induction false} PackBits(l: bool, f: bool, e: bool, d: bool, c: bool, x: bool, w: bool, r: bool)
    ensures FromByte(Pack(l, f, e, d, c, x, w, r)) ==
            128 * Digit(l) + 64 * Digit(f) + 32 * Digit(e) + 16 * Digit(d)
            + 8 * Digit(c) + 4 * Digit(x) + 2 * Digit(w) + Digit(r)
  {
  }

  /** The bytes of a value behind its first one. */
  lemma {:induction false} BytesBehind(v: nat, k: nat)
    ensures ByteOf(v, k + 1) == ByteOf(v / 256, k) && ByteOf(v, 0) == v % 256
  {
    DivTwice(v, 8 * k);
    assert 8 * (k + 1) == 8 * k + 8;
  }

  lemma {:induction false} DivTwice(v: nat, p: nat)
    ensures v / Pow2(p + 8) == v / 256 / Pow2(p)
  {
    ShrIsDiv(v, p + 8);
    ShrIsDiv(v, 8);
    ShrIsDiv(v / 256, p);
    assert Pow2(8) == 256;
    assert 8 + p == p + 8;
    ShrCompose(v, 8, p);
  }

  /** Entry j holds byte j - i0 of the value, for all bytes there are. */
  ghost predicate HoldsBytes(s: State, i0: nat, count: nat, v: nat)
    requires |s.entries| == MAX_PMP && i0 + count <= MAX_PMP
  {
    forall k: nat :: k < count ==> FromByte(s.entries[i0 + k].cfg) == ByteOf(v, k)
  }

  lemma {:induction false} BytesRead(s: State, i0: nat, count: nat, v: nat)
    requires |s.entries| == MAX_PMP && i0 + count <= MAX_PMP && HoldsBytes(s, i0, count, v) && v < Pow2(8 * count)
    ensures ReadCfg(s, i0, count) == v
    decreases count
  {
    if count > 0 {
      BytesBehind(v, 0);
      assert FromByte(s.entries[i0 + 0].cfg) == ByteOf(v, 0);
      forall k: nat | k < count - 1
        ensures FromByte(s.entries[i0 + 1 + k].cfg) == ByteOf(v / 256, k)
      {
        BytesBehind(v, k);
        assert FromByte(s.entries[i0 + (k + 1)].cfg) == ByteOf(v, k + 1);
      }
      Shorter(v, count);
      BytesRead(s, i0 + 1, count - 1, v / 256);
    }
  }

  lemma {:induction false} Shorter(v: nat, count: nat)
    requires count > 0 && v < Pow2(8 * count)
    ensures v / 256 < Pow2(8 * (count - 1))
  {
    var p := 8 * (count - 1);
    assert 8 * count == p + 8;
    Pow2Add(p, 8);
    assert Pow2(8) == 256;
  }

  /** Every implemented entry has its own byte of the value: entry i0 + k has bits 8k to 8k + 7. */
  lemma {:induction false} ByteWritten(s: State, i0: nat, count: nat, v: nat, k: nat)
    requires s.Valid() && count <= 8 && i0 + count <= s.n && k < count
    requires Acceptable(s, ToByte(v / Pow2(8 * k) % 256))
    requires s.mseccfg & 4 != 0 || s.entries[i0 + k].cfg & 0x80 == 0
    ensures FromByte(WriteCfg(s, i0, count, v).entries[i0 + k].cfg) == v / Pow2(8 * k) % 256
  {
    var b := ByteOf(v, k);
    var c := ToByte(b);
    assert FromByte(c) == b by {
      ByteBack(b);
    }
    TakenByte(s, i0, count, v, k, c);
  }

  lemma {:induction false} TakenByte(s: State, i0: nat, count: nat, v: nat, k: nat, c: bv8)
    requires s.Valid() && count <= 8 && i0 + count <= s.n && k < count && c == ToByte(ByteOf(v, k))
    requires Acceptable(s, c) && (s.mseccfg & 4 != 0 || s.entries[i0 + k].cfg & 0x80 == 0)
    ensures WriteCfg(s, i0, count, v).entries[i0 + k].cfg == c
  {
    AcceptableTaken(s, i0 + k, c);
  }

  /**
    Bytes that are acceptable, written to entries that are not locked or with the lock bypassed, are
    read back unchanged and in their order; all other entries keep theirs.
    */
  lemma {:induction false} CfgReadsBack(s: State, i0: nat, count: nat, v: nat)
    requires s.Valid() && count <= 8 && i0 + count <= s.n && v < Pow2(8 * count)
    requires forall k: nat :: k < count ==> Acceptable(s, ToByte(ByteOf(v, k)))
    requires s.mseccfg & 4 != 0 || forall j :: i0 <= j < i0 + count ==> s.entries[j].cfg & 0x80 == 0
    ensures ReadCfg(WriteCfg(s, i0, count, v), i0, count) == v
    ensures var t := WriteCfg(s, i0, count, v);
            forall j :: 0 <= j < MAX_PMP && !(i0 <= j < i0 + count) ==> t.entries[j] == s.entries[j]
  {
    var t := WriteCfg(s, i0, count, v);
    forall k: nat | k < count
      ensures FromByte(t.entries[i0 + k].cfg) == ByteOf(v, k)
    {
      assert Acceptable(s, ToByte(ByteOf(v, k)));
      ByteWritten(s, i0, count, v, k);
    }
    BytesRead(t, i0, count, v);
  }

  /**
    What becomes of a byte that is not acceptable: its lock, read and execute bit are kept, W goes
    without R unless MML is set, NA4 turns into NAPOT with a coarser granularity, reserved bits go.
    */
  lemma {:induction false} Legalized(s: State, i: nat, c: bv8)
    requires s.Valid() && i < s.n && s.mseccfg & 4 != 0
    ensures var d := NewCfg(s, i, c & 0x9F);
            && d & 0x85 == c & 0x85 && d & 0x60 == 0
            && (d & 0x02 == if s.mseccfg & 1 == 0 && c & 0x01 == 0 then 0 else c & 0x02)
            && (d & 0x18 == if s.lg != 2 && c & 0x18 == 0x10 then 0x18 else c & 0x18)
  {
  }

  /** With MML set and RLB clear, a new rule that machine mode could execute from changes nothing. */
  lemma {:induction false} ExecutableRefused(s: State, i: nat, c: bv8)
    requires s.Valid() && i < s.n && s.mseccfg & 1 != 0 && s.mseccfg & 4 == 0
    requires c & 0x80 != 0 && c & 0x07 != 0x07 && (c & 0x04 != 0 || c & 0x03 == 0x02)
    ensures NewCfg(s, i, c & 0x9F) == s.entries[i].cfg
  {
  }

  /** A lock that is not bypassed keeps the byte. */
  lemma {:induction false} LockedKept(s: State, i: nat, c: bv8)
    requires s.Valid() && i < s.n && s.mseccfg & 4 == 0 && s.entries[i].cfg & 0x80 != 0
    ensures NewCfg(s, i, c) == s.entries[i].cfg
  {
  }

  /** An address register that may be written holds the low 54 bits of the value, and the others keep theirs. */
  lemma {:induction false} AddrWritten(s: State, i: nat, v: nat)
    requires s.Valid() && i < s.n
    requires s.mseccfg & 4 == 0 ==> s.entries[i].cfg & 0x80 == 0
    requires s.mseccfg & 4 == 0 && i < 63 ==> s.entries[i + 1].cfg & 0x98 != 0x88
    ensures var t := WriteAddr(s, i, v);
            && t.entries[i].val == v % 0x40_0000_0000_0000 && t.entries[i].cfg == s.entries[i].cfg
            && (forall j :: 0 <= j < MAX_PMP && j != i ==> t.entries[j] == s.entries[j]) && t.mseccfg == s.mseccfg
  {
    if i < 63 && s.mseccfg & 4 == 0 {
      var c := s.entries[i + 1].cfg;
      assert c & 0x80 == 0 || c & 0x18 != 0x08;
    }
  }

  /** With the finest granularity it is read back, in every mode. */
  lemma {:induction false} AddrReadsBack(s: State, i: nat)
    requires s.Valid() && i < MAX_PMP && s.lg == 2
    ensures ReadAddr(s, i) == s.entries[i].val
  {
    OrZero(s.entries[i].val);
    TorRounds(s, i);
  }

  /** Some implemented entry has its lock bit set. */
  ghost predicate SomeLocked(s: State)
    requires s.Valid()
  {
    exists i :: 0 <= i < s.n && s.entries[i].cfg & 0x80 != 0
  }

  /**
    How mseccfg changes when v is written, bit by bit: MML and MMWP are set when they were or are
    written as one, RLB is as written unless it is clear and a lock is recorded, the rest stays.
    */
  predicate SecChange(prev: bv64, v: bv64, now: bv64, locked: bool) {
    && (now & 1 != 0 <==> prev & 1 != 0 || v & 1 != 0)
    && (now & 2 != 0 <==> prev & 2 != 0 || v & 2 != 0)
    && (now & 4 != 0 <==> v & 4 != 0 && (prev & 4 != 0 || !locked))
    && now & 0xFFFF_FFFF_FFFF_FFF8 == prev & 0xFFFF_FFFF_FFFF_FFF8
  }

  lemma {:induction false} SecWritten(s: State, v: bv64)
    requires s.Valid() && s.n > 0
    ensures SecChange(s.mseccfg, v, WriteSec(s, v).mseccfg, SomeLocked(s)) && WriteSec(s, v).entries == s.entries
  {
    RecordedLocks(s);
    SecBits(s.mseccfg, v, LockRecorded(s), WriteSec(s, v).mseccfg);
  }

  lemma {:induction false} RecordedLocks(s: State)
    requires s.Valid()
    ensures LockRecorded(s) == SomeLocked(s)
  {
    if i :| 0 <= i < s.n && s.entries[i].cfg & 0x80 != 0 {
      assert s.Locked(i);
    }
  }

  lemma {:induction false} SecBits(prev: bv64, v: bv64, lockRecorded: bool, now: bv64)
    requires now == SecValue(prev, v, lockRecorded)
    ensures SecChange(prev, v, now, lockRecorded)
  {
  }
}
