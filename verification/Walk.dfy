/**
  The single-stage page-table walk. Page-table entries are 64-bit words held in a map from
  physical address to entry; an address outside the map is one that neither memory nor a device
  answers. The walk returns its outcome together with the map after its accessed/dirty update,
  which it makes even when a later check still faults.
  */
module Walk {
  import opened Bits
  import opened Pmp

  /**
    A page-table entry, read as its bit fields; `rsvd` says that a reserved bit is set, `pbmt` is
    the two-bit memory type, and `soft` stands for the bits the walk never looks at.
    */
  datatype Pte = Pte(v: bool, r: bool, w: bool, x: bool, u: bool, a: bool, d: bool,
                     n: bool, pbmt: nat, rsvd: bool, soft: nat, ppn: nat)
  {
    predicate IsTable() { v && !r && !w && !x }

    /** Does the entry carry the accessed bit, and for a store the dirty bit? */
    predicate HasBits(t: AccessType) { a && (t == Store ==> d) }

    function WithBits(t: AccessType): Pte { this.(a := true, d := d || t == Store) }

    function NapotBits(): nat { if n then Ctz(ppn) + 1 else 0 }
  }

  type Memory = map<nat, Pte>

  datatype Vm = Vm(levels: nat, idxbits: nat, ptesize: nat, ptbase: nat)

  /** The parts of the privileged state a walk reads; all fixed between TLB flushes. */
  datatype Context = Context(xlen: nat, satpMode: nat, satpPpn: nat, sum: bool, mxr: bool,
                             pbmte: bool, hade: bool, svnapot: bool)
  {
    /** satp holds only the modes the register accepts. */
    predicate Valid() {
      || (xlen == 32 && satpMode in {0, 1})
      || (xlen == 64 && satpMode in {0, 8, 9, 10})
    }
  }

  function DecodeVm(c: Context, mode: nat): Vm {
    if mode == PRV_M || c.satpMode == 0 then Vm(0, 0, 0, 0)
    else if c.xlen == 32 then Vm(2, 10, 4, c.satpPpn * PGSIZE)
    else if c.satpMode == 8 then Vm(3, 9, 8, c.satpPpn * PGSIZE)
    else if c.satpMode == 9 then Vm(4, 9, 8, c.satpPpn * PGSIZE)
    else Vm(5, 9, 8, c.satpPpn * PGSIZE)
  }

  /** The protection check of a page-table access: address, length, load or store. */
  type Checker = (nat, nat, AccessType) -> bool

  /** Page tables are read and updated with supervisor privilege. */
  ghost function PteCheck(pmp: State): Checker
    requires pmp.Valid()
  {
    (pa: nat, len: nat, t: AccessType) => Allowed(pmp, pa, len, t, PRV_S)
  }

  datatype Outcome = Page(base: nat) | PageFault | AccessFault

  datatype Walked = Walked(out: Outcome, mem: Memory)

  // ---------------------------------------------------------------------------------------
  // One page-table entry
  // ---------------------------------------------------------------------------------------

  function Ctz(x: nat): nat {
    if x == 0 || x % 2 == 1 then 0 else 1 + Ctz(x / 2)
  }

  datatype Kind = Fault | Table | Leaf

  /** Attribute and reserved-bit checks that come before an entry is looked at as table or leaf. */
  predicate BadAttributes(c: Context, pte: Pte) {
    pte.rsvd || (!c.svnapot && pte.n) || (!c.pbmte && pte.pbmt != 0) || pte.pbmt == 3
  }

  predicate BadPermissions(c: Context, pte: Pte, t: AccessType, mode: nat) {
    || (if pte.u then mode == PRV_S && (t == Fetch || !c.sum) else mode != PRV_S)
    || !pte.v
    || (!pte.r && pte.w)
    || (match t
        case Fetch => !pte.x
        case Load => !pte.r && !(c.mxr && pte.x)
        case Store => !(pte.r && pte.w))
  }

  function Classify(c: Context, pte: Pte, t: AccessType, mode: nat): Kind {
    if BadAttributes(c, pte) then Fault
    else if pte.IsTable() then
      if pte.d || pte.a || pte.u || pte.n || pte.pbmt != 0 then Fault else Table
    else if BadPermissions(c, pte, t, mode) then Fault
    else Leaf
  }

  predicate BadNapot(pte: Pte, level: nat) {
    || (pte.n && (pte.ppn == 0 || level != 0))
    || (pte.NapotBits() != 0 && pte.NapotBits() != 4)
  }

  /** The physical page number a leaf assigns to the virtual page number vpn. */
  function LeafNumber(pte: Pte, ptshift: nat, vpn: nat): nat {
    var n := pte.NapotBits();
    Or(Or(pte.ppn - Low(pte.ppn, n), Low(vpn, n)), Low(vpn, ptshift))
  }

  /** The physical page a leaf assigns to the page that holds addr. */
  function LeafPage(pte: Pte, ptshift: nat, addr: nat): nat {
    LeafNumber(pte, ptshift, addr / PGSIZE) * PGSIZE
  }

  // ---------------------------------------------------------------------------------------
  // The walk
  // ---------------------------------------------------------------------------------------

  /** Where the entry for addr lies in the table at `base` of the given level. */
  function PteAddr(vm: Vm, level: nat, base: nat, addr: nat): nat {
    base + Low(Shr(addr, 12 + level * vm.idxbits), vm.idxbits) * vm.ptesize
  }

  /** The leaf case: superpage alignment, then the accessed/dirty update, then the NAPOT checks. */
  ghost function TakeLeaf(c: Context, ok: Checker, mem: Memory, vm: Vm, level: nat, pa: nat, addr: nat,
                          t: AccessType): Walked
    requires pa in mem
  {
    var pte := mem[pa];
    var ptshift := level * vm.idxbits;
    var complete := pte.HasBits(t);
    if Low(pte.ppn, ptshift) != 0 then Walked(PageFault, mem)
    else if !complete && !c.hade then Walked(PageFault, mem)
    else if !complete && !ok(pa, vm.ptesize, Store) then Walked(AccessFault, mem)
    else
      var mem' := if complete then mem else mem[pa := pte.WithBits(t)];
      Walked(if BadNapot(pte, level) then PageFault else Page(LeafPage(pte, ptshift, addr)), mem')
  }

  /** The walk from `i` remaining levels down, with the next table at `base`. */
  ghost function WalkFrom(c: Context, ok: Checker, mem: Memory, vm: Vm, i: nat, base: nat, addr: nat, t: AccessType,
                          mode: nat): Walked
    decreases i
  {
    if i == 0 then Walked(PageFault, mem)
    else
      var pa := PteAddr(vm, i - 1, base, addr);
      if !(ok(pa, vm.ptesize, Load) && pa in mem) then Walked(AccessFault, mem)
      else
        match Classify(c, mem[pa], t, mode)
        case Fault => Walked(PageFault, mem)
        case Table => WalkFrom(c, ok, mem, vm, i - 1, mem[pa].ppn * PGSIZE, addr, t, mode)
        case Leaf => TakeLeaf(c, ok, mem, vm, i - 1, pa, addr, t)
  }

  /** Bits xlen-1 .. va_bits-1 of the address are all equal. */
  predicate Canonical(c: Context, vm: Vm, addr: nat) {
    var vaBits := 12 + vm.levels * vm.idxbits;
    if vaBits > c.xlen then false
    else
      var msbs := Low(Shr(addr, vaBits - 1), c.xlen - vaBits + 1);
      msbs == 0 || msbs == Pow2(c.xlen - vaBits + 1) - 1
  }

  ghost function WalkSpec(c: Context, ok: Checker, mem: Memory, addr: nat, t: AccessType, mode: nat): Walked
  {
    var vm := DecodeVm(c, mode);
    if vm.levels == 0 then Walked(Page(PageOf(Low(addr, c.xlen))), mem)
    else if !Canonical(c, vm, addr) then Walked(PageFault, mem)
    else WalkFrom(c, ok, mem, vm, vm.levels, vm.ptbase, addr, t, mode)
  }

  method WalkTables(c: Context, pmp: State, mem: Memory, vm: Vm, levels: nat, addr: nat, t: AccessType, mode: nat)
    returns (r: Walked)
    requires pmp.Valid()
    ensures r == WalkFrom(c, PteCheck(pmp), mem, vm, levels, vm.ptbase, addr, t, mode)
  {
    ghost var goal := WalkFrom(c, PteCheck(pmp), mem, vm, levels, vm.ptbase, addr, t, mode);
    var base: nat := vm.ptbase;
    var i: nat := levels;
    while i > 0
      invariant goal == WalkFrom(c, PteCheck(pmp), mem, vm, i, base, addr, t, mode)
    {
      i := i - 1;
      var pa := PteAddr(vm, i, base, addr);
      var ok := PmpOk(pmp, pa, vm.ptesize, Load, PRV_S);
      if !ok || pa !in mem {
        return Walked(AccessFault, mem);
      }
      var pte := mem[pa];
      match Classify(c, pte, t, mode) {
        case Fault =>
          return Walked(PageFault, mem);
        case Table =>
          base := pte.ppn * PGSIZE;
        case Leaf =>
          r := LeafStep(c, pmp, mem, vm, i, pa, addr, t);
          return;
      }
    }
    return Walked(PageFault, mem);
  }

  method WalkAddress(c: Context, pmp: State, mem: Memory, addr: nat, t: AccessType, mode: nat) returns (r: Walked)
    requires pmp.Valid()
    ensures r == WalkSpec(c, PteCheck(pmp), mem, addr, t, mode)
  {
    var vm := DecodeVm(c, mode);
    if vm.levels == 0 {
      return Walked(Page(PageOf(Low(addr, c.xlen))), mem);
    }
    var levels := vm.levels;
    if !Canonical(c, vm, addr) {
      levels := 0;
    }
    r := WalkTables(c, pmp, mem, vm, levels, addr, t, mode);
  }

  method LeafStep(c: Context, pmp: State, mem: Memory, vm: Vm, level: nat, pa: nat, addr: nat, t: AccessType)
    returns (r: Walked)
    requires pmp.Valid() && pa in mem
    ensures r == TakeLeaf(c, PteCheck(pmp), mem, vm, level, pa, addr, t)
  {
    var pte := mem[pa];
    var ptshift := level * vm.idxbits;
    if Low(pte.ppn, ptshift) != 0 {
      return Walked(PageFault, mem);
    }
    var mem' := mem;
    if !pte.HasBits(t) {
      if !c.hade {
        return Walked(PageFault, mem);
      }
      var ok := PmpOk(pmp, pa, vm.ptesize, Store, PRV_S);
      if !ok {
        return Walked(AccessFault, mem);
      }
      mem' := mem[pa := pte.WithBits(t)];
    }
    if BadNapot(pte, level) {
      return Walked(PageFault, mem');
    }
    return Walked(Page(LeafPage(pte, ptshift, addr)), mem');
  }

  // ---------------------------------------------------------------------------------------
  // Accessed/dirty updates never disturb another walk
  // ---------------------------------------------------------------------------------------

  /** `q` is `p` with possibly more accessed/dirty bits, and equal to it if `p` points to a table. */
  predicate PteGrew(p: Pte, q: Pte) {
    && q == p.(a := q.a, d := q.d)
    && (p.a ==> q.a)
    && (p.d ==> q.d)
    && (p.IsTable() ==> p == q)
  }

  /** Page-table memory that differs only by accessed/dirty bits set in leaf entries. */
  ghost predicate Grew(m: Memory, n: Memory) {
    m.Keys == n.Keys && forall k :: k in m ==> PteGrew(m[k], n[k])
  }

  lemma {:induction false} GrewTransitive(m: Memory, n: Memory, o: Memory)
    requires Grew(m, n) && Grew(n, o)
    ensures Grew(m, o)
  {
  }

  lemma {:induction false} GrownKind(c: Context, p: Pte, q: Pte, t: AccessType, mode: nat)
    requires PteGrew(p, q)
    ensures Classify(c, p, t, mode) == Classify(c, q, t, mode)
  {
  }

  lemma {:induction false} LeafGrows(c: Context, ok: Checker, mem: Memory, vm: Vm, level: nat, pa: nat, addr: nat,
                                     t: AccessType)
    requires pa in mem && !mem[pa].IsTable()
    ensures Grew(mem, TakeLeaf(c, ok, mem, vm, level, pa, addr, t).mem)
  {
    var now := TakeLeaf(c, ok, mem, vm, level, pa, addr, t).mem;
    assert now == mem || now == mem[pa := mem[pa].WithBits(t)];
    BitsGrow(mem, pa, t);
  }

  lemma {:induction false} BitsGrow(mem: Memory, pa: nat, t: AccessType)
    requires pa in mem && !mem[pa].IsTable()
    ensures Grew(mem, mem) && Grew(mem, mem[pa := mem[pa].WithBits(t)])
  {
  }

  /** One level of a walk. */
  lemma {:induction false} WalkStep(c: Context, ok: Checker, mem: Memory, vm: Vm, i: nat, base: nat, addr: nat,
                                    t: AccessType, mode: nat)
    returns (pa: nat, next: Walked)
    requires i > 0
    ensures pa == PteAddr(vm, i - 1, base, addr)
    ensures var w := WalkFrom(c, ok, mem, vm, i, base, addr, t, mode);
            if ok(pa, vm.ptesize, Load) && pa in mem && Classify(c, mem[pa], t, mode) == Table then
              w == next && next == WalkFrom(c, ok, mem, vm, i - 1, mem[pa].ppn * PGSIZE, addr, t, mode)
            else if ok(pa, vm.ptesize, Load) && pa in mem && Classify(c, mem[pa], t, mode) == Leaf then
              !mem[pa].IsTable() && w == next && next == TakeLeaf(c, ok, mem, vm, i - 1, pa, addr, t)
            else w.mem == mem
  {
    pa := PteAddr(vm, i - 1, base, addr);
    next := WalkFrom(c, ok, mem, vm, i, base, addr, t, mode);
  }

  /** A walk, successful or not, only ever sets accessed/dirty bits in a leaf. */
  lemma {:induction false} WalkGrows(c: Context, ok: Checker, mem: Memory, vm: Vm, i: nat, base: nat, addr: nat,
                                     t: AccessType, mode: nat)
    ensures Grew(mem, WalkFrom(c, ok, mem, vm, i, base, addr, t, mode).mem)
    decreases i
  {
    if i > 0 {
      var pa, next := WalkStep(c, ok, mem, vm, i, base, addr, t, mode);
      if ok(pa, vm.ptesize, Load) && pa in mem {
        if Classify(c, mem[pa], t, mode) == Table {
          WalkGrows(c, ok, mem, vm, i - 1, mem[pa].ppn * PGSIZE, addr, t, mode);
        } else if Classify(c, mem[pa], t, mode) == Leaf {
          LeafGrows(c, ok, mem, vm, i - 1, pa, addr, t);
        }
      }
    }
  }

  lemma {:induction false} LeafStable(c: Context, ok: Checker, m: Memory, n: Memory, vm: Vm, level: nat, pa: nat,
                                      addr: nat, t: AccessType)
    requires Grew(m, n) && pa in m
    requires TakeLeaf(c, ok, m, vm, level, pa, addr, t).out.Page?
    ensures TakeLeaf(c, ok, n, vm, level, pa, addr, t).out == TakeLeaf(c, ok, m, vm, level, pa, addr, t).out
    ensures n[pa].HasBits(t) ==> TakeLeaf(c, ok, n, vm, level, pa, addr, t).mem == n
  {
  }

  /** A successful walk keeps succeeding with the same page when other walks have set their bits. */
  lemma {:induction false} WalkStable(c: Context, ok: Checker, m: Memory, n: Memory, vm: Vm, i: nat, base: nat,
                                      addr: nat, t: AccessType, mode: nat)
    requires Grew(m, n)
    requires WalkFrom(c, ok, m, vm, i, base, addr, t, mode).out.Page?
    ensures WalkFrom(c, ok, n, vm, i, base, addr, t, mode).out == WalkFrom(c, ok, m, vm, i, base, addr, t, mode).out
    decreases i
  {
    var pa := PteAddr(vm, i - 1, base, addr);
    GrownKind(c, m[pa], n[pa], t, mode);
    if Classify(c, m[pa], t, mode) == Table {
      WalkStable(c, ok, m, n, vm, i - 1, m[pa].ppn * PGSIZE, addr, t, mode);
    } else {
      LeafStable(c, ok, m, n, vm, i - 1, pa, addr, t);
    }
  }

  lemma {:induction false} WalkSpecGrows(c: Context, ok: Checker, mem: Memory, addr: nat, t: AccessType, mode: nat)
    ensures Grew(mem, WalkSpec(c, ok, mem, addr, t, mode).mem)
  {
    var vm := DecodeVm(c, mode);
    WalkGrows(c, ok, mem, vm, vm.levels, vm.ptbase, addr, t, mode);
  }

  lemma {:induction false} WalkSpecStable(c: Context, ok: Checker, m: Memory, n: Memory, addr: nat, t: AccessType,
                                          mode: nat)
    requires Grew(m, n) && WalkSpec(c, ok, m, addr, t, mode).out.Page?
    ensures WalkSpec(c, ok, n, addr, t, mode).out == WalkSpec(c, ok, m, addr, t, mode).out
  {
    var vm := DecodeVm(c, mode);
    if vm.levels != 0 {
      WalkStable(c, ok, m, n, vm, vm.levels, vm.ptbase, addr, t, mode);
    }
  }

  lemma {:induction false} LeafSettles(c: Context, ok: Checker, m: Memory, vm: Vm, level: nat, pa: nat, addr: nat,
                                       t: AccessType)
    requires pa in m && TakeLeaf(c, ok, m, vm, level, pa, addr, t).out.Page?
    ensures var m' := TakeLeaf(c, ok, m, vm, level, pa, addr, t).mem;
            pa in m' && m'[pa].HasBits(t) && (!m[pa].HasBits(t) ==> m' == m[pa := m[pa].WithBits(t)])
  {
  }

  /** In the memory `n` a successful walk leaves behind, or any later growth of it, the walk stores nothing. */
  lemma {:induction false} WalkSettles(c: Context, ok: Checker, m: Memory, n: Memory, vm: Vm, i: nat, base: nat,
                                       addr: nat, t: AccessType, mode: nat)
    requires WalkFrom(c, ok, m, vm, i, base, addr, t, mode).out.Page?
    requires Grew(m, n) && Grew(WalkFrom(c, ok, m, vm, i, base, addr, t, mode).mem, n)
    ensures WalkFrom(c, ok, n, vm, i, base, addr, t, mode) ==
            Walked(WalkFrom(c, ok, m, vm, i, base, addr, t, mode).out, n)
    decreases i
  {
    var pa := PteAddr(vm, i - 1, base, addr);
    GrownKind(c, m[pa], n[pa], t, mode);
    if Classify(c, m[pa], t, mode) == Table {
      WalkSettles(c, ok, m, n, vm, i - 1, m[pa].ppn * PGSIZE, addr, t, mode);
    } else {
      LeafSettles(c, ok, m, vm, i - 1, pa, addr, t);
      LeafStable(c, ok, m, n, vm, i - 1, pa, addr, t);
    }
  }

  /**
    A successful walk is idempotent: repeated on the memory it leaves behind, or on any memory
    later walks have added accessed/dirty bits to, it gives the same page and stores nothing.
    */
  lemma {:induction false} WalkIdempotent(c: Context, ok: Checker, m: Memory, n: Memory, addr: nat, t: AccessType,
                                          mode: nat)
    requires WalkSpec(c, ok, m, addr, t, mode).out.Page?
    requires Grew(WalkSpec(c, ok, m, addr, t, mode).mem, n)
    ensures WalkSpec(c, ok, n, addr, t, mode) == Walked(WalkSpec(c, ok, m, addr, t, mode).out, n)
  {
    WalkSpecGrows(c, ok, m, addr, t, mode);
    GrewTransitive(m, WalkSpec(c, ok, m, addr, t, mode).mem, n);
    var vm := DecodeVm(c, mode);
    if vm.levels != 0 {
      WalkSettles(c, ok, m, n, vm, vm.levels, vm.ptbase, addr, t, mode);
    }
  }

  // ---------------------------------------------------------------------------------------
  // A leaf maps its whole range linearly
  // ---------------------------------------------------------------------------------------

  /** How many page-number bits a leaf passes through: those of its superpage or 64 KiB NAPOT range. */
  function PassBits(pte: Pte, ptshift: nat): nat {
    if pte.n then 4 else ptshift
  }

  lemma {:induction false} LeafNumberValue(pte: Pte, level: nat, ptshift: nat, vpn: nat)
    requires !BadNapot(pte, level) && (pte.n ==> ptshift == 0) && Low(pte.ppn, ptshift) == 0
    ensures var k := PassBits(pte, ptshift);
            LeafNumber(pte, ptshift, vpn) == pte.ppn - Low(pte.ppn, k) + Low(vpn, k)
  {
    var n := pte.NapotBits();
    if pte.n {
      var high := pte.ppn - Low(pte.ppn, n);
      assert Or(high, Low(vpn, n)) == high + Low(vpn, n) by {
        LowCleared(pte.ppn, n);
        OrDisjoint(high, Low(vpn, n), n);
      }
      OrZero(high + Low(vpn, n));
    } else {
      assert Or(pte.ppn, 0) == pte.ppn by {
        OrZero(pte.ppn);
      }
      OrDisjoint(pte.ppn, Low(vpn, ptshift), ptshift);
    }
  }

  /** Low bits of an address: those of its page number, then the offset within the page. */
  lemma {:induction false} PageOffset(addr: nat, p: nat, k: nat)
    requires p == 12
    ensures Low(addr, p + k) == Low(addr / PGSIZE, k) * PGSIZE + addr % PGSIZE
  {
    LowSplit(addr, p, k);
    LowIsMod(addr, p);
    ShrIsDiv(addr, p);
    Pow2Values();
  }

  lemma {:induction false} SameRangeDifference(a: nat, b: nat, p: nat)
    requires Shr(a, p) == Shr(b, p)
    ensures Low(b, p) - Low(a, p) == b - a
  {
    SplitWord(a, p);
    SplitWord(b, p);
  }

  lemma {:induction false} OffsetDifference(x: nat, y: nat, r: nat, a: nat, b: nat, p: nat, k: nat)
    requires p == 12 && x == r + Low(a / PGSIZE, k) && y == r + Low(b / PGSIZE, k)
    requires Shr(a, p + k) == Shr(b, p + k)
    ensures y * PGSIZE + b % PGSIZE - (x * PGSIZE + a % PGSIZE) == b - a
  {
    PageOffset(a, p, k);
    PageOffset(b, p, k);
    SameRangeDifference(a, b, p + k);
  }

  /**
    A leaf maps its range linearly, for a superpage and for a NAPOT range alike: addresses of the
    range keep their distance.
    */
  lemma {:induction false} LeafLinear(pte: Pte, level: nat, ptshift: nat, a: nat, b: nat)
    requires !BadNapot(pte, level) && (pte.n ==> ptshift == 0) && Low(pte.ppn, ptshift) == 0
    requires var p := 12 + PassBits(pte, ptshift); Shr(a, p) == Shr(b, p)
    ensures LeafPage(pte, ptshift, b) + b % PGSIZE - (LeafPage(pte, ptshift, a) + a % PGSIZE) == b - a
  {
    var k := PassBits(pte, ptshift);
    LeafNumberValue(pte, level, ptshift, a / PGSIZE);
    LeafNumberValue(pte, level, ptshift, b / PGSIZE);
    OffsetDifference(LeafNumber(pte, ptshift, a / PGSIZE), LeafNumber(pte, ptshift, b / PGSIZE),
                     pte.ppn - Low(pte.ppn, k), a, b, 12, k);
  }

  /** The leaf a successful walk ends in, with its level. */
  ghost function LeafOf(c: Context, ok: Checker, mem: Memory, vm: Vm, i: nat, base: nat, addr: nat, t: AccessType,
                        mode: nat): (r: (Pte, nat))
    requires WalkFrom(c, ok, mem, vm, i, base, addr, t, mode).out.Page?
    ensures r.1 < i && Low(r.0.ppn, r.1 * vm.idxbits) == 0 && !BadNapot(r.0, r.1)
    ensures WalkFrom(c, ok, mem, vm, i, base, addr, t, mode).out == Page(LeafPage(r.0, r.1 * vm.idxbits, addr))
    decreases i
  {
    var pa := PteAddr(vm, i - 1, base, addr);
    if Classify(c, mem[pa], t, mode) == Table
    then LeafOf(c, ok, mem, vm, i - 1, mem[pa].ppn * PGSIZE, addr, t, mode)
    else (mem[pa], i - 1)
  }

  lemma {:induction false} SamePteAddr(vm: Vm, level: nat, leaf: nat, base: nat, a: nat, b: nat)
    requires leaf <= level && Shr(a, 12 + leaf * vm.idxbits) == Shr(b, 12 + leaf * vm.idxbits)
    ensures PteAddr(vm, level, base, a) == PteAddr(vm, level, base, b)
  {
    assert leaf * vm.idxbits <= level * vm.idxbits;
    ShrAbove(a, b, 12 + leaf * vm.idxbits, 12 + level * vm.idxbits);
  }

  /** Addresses of one superpage take the same path through the tables. */
  lemma {:induction false} SamePath(c: Context, ok: Checker, mem: Memory, vm: Vm, i: nat, base: nat, a: nat, b: nat,
                                    t: AccessType, mode: nat)
    requires WalkFrom(c, ok, mem, vm, i, base, a, t, mode).out.Page?
    requires var leaf := LeafOf(c, ok, mem, vm, i, base, a, t, mode).1;
             Shr(a, 12 + leaf * vm.idxbits) == Shr(b, 12 + leaf * vm.idxbits)
    ensures WalkFrom(c, ok, mem, vm, i, base, b, t, mode).out.Page?
    ensures LeafOf(c, ok, mem, vm, i, base, b, t, mode) == LeafOf(c, ok, mem, vm, i, base, a, t, mode)
    decreases i
  {
    var leaf := LeafOf(c, ok, mem, vm, i, base, a, t, mode).1;
    SamePteAddr(vm, i - 1, leaf, base, a, b);
    var pa := PteAddr(vm, i - 1, base, a);
    if Classify(c, mem[pa], t, mode) == Table {
      SamePath(c, ok, mem, vm, i - 1, mem[pa].ppn * PGSIZE, a, b, t, mode);
    }
  }

  lemma {:induction false} SameCanonical(c: Context, vm: Vm, leaf: nat, shift: nat, a: nat, b: nat)
    requires leaf < vm.levels && vm.idxbits > 0 && shift == leaf * vm.idxbits
    requires Shr(a, 12 + shift) == Shr(b, 12 + shift)
    ensures Canonical(c, vm, a) == Canonical(c, vm, b)
  {
    var vaBits := 12 + vm.levels * vm.idxbits;
    assert vm.levels * vm.idxbits >= (leaf + 1) * vm.idxbits == leaf * vm.idxbits + vm.idxbits;
    ShrAbove(a, b, 12 + shift, vaBits - 1);
  }

  lemma {:induction false} SuperpageDistance(pte: Pte, level: nat, shift: nat, a: nat, b: nat, x: nat, y: nat)
    requires Low(pte.ppn, shift) == 0 && !BadNapot(pte, level) && !pte.n
    requires Shr(a, 12 + shift) == Shr(b, 12 + shift)
    requires x == LeafPage(pte, shift, a) && y == LeafPage(pte, shift, b)
    ensures y + b % PGSIZE - (x + a % PGSIZE) == b - a
  {
    LeafLinear(pte, level, shift, a, b);
  }

  /** The superpage property for a walk of any table. */
  lemma {:induction false} TableSuperpageLinear(c: Context, ok: Checker, mem: Memory, vm: Vm, i: nat, base: nat,
                                                a: nat, b: nat,
                             t: AccessType, mode: nat, x: nat, pte: Pte, leaf: nat, shift: nat)
    returns (y: nat)
    requires WalkFrom(c, ok, mem, vm, i, base, a, t, mode).out == Page(x)
    requires LeafOf(c, ok, mem, vm, i, base, a, t, mode) == (pte, leaf) && !pte.n
    requires shift == leaf * vm.idxbits && Shr(a, 12 + shift) == Shr(b, 12 + shift)
    ensures WalkFrom(c, ok, mem, vm, i, base, b, t, mode).out == Page(y)
    ensures y + b % PGSIZE - (x + a % PGSIZE) == b - a
  {
    SamePath(c, ok, mem, vm, i, base, a, b, t, mode);
    y := LeafPage(pte, shift, b);
    SuperpageDistance(pte, leaf, shift, a, b, x, y);
  }

  lemma {:induction false} WalkOfTables(c: Context, ok: Checker, mem: Memory, vm: Vm, addr: nat, t: AccessType,
                                        mode: nat, x: nat)
    requires vm == DecodeVm(c, mode) && vm.levels > 0
    ensures WalkSpec(c, ok, mem, addr, t, mode).out == Page(x) <==>
            Canonical(c, vm, addr) && WalkFrom(c, ok, mem, vm, vm.levels, vm.ptbase, addr, t, mode).out == Page(x)
  {
  }

  /**
    A successful walk that ends in a leaf of some level translates every address of that leaf's
    superpage, and the physical addresses differ exactly as the virtual ones do.
    */
  lemma {:induction false} SuperpageLinear(c: Context, ok: Checker, mem: Memory, vm: Vm, pte: Pte, leaf: nat,
                                           shift: nat, a: nat, b: nat,
                        t: AccessType, mode: nat, x: nat)
    returns (y: nat)
    requires vm == DecodeVm(c, mode) && vm.levels > 0 && vm.idxbits > 0
    requires Canonical(c, vm, a) && WalkFrom(c, ok, mem, vm, vm.levels, vm.ptbase, a, t, mode).out == Page(x)
    requires LeafOf(c, ok, mem, vm, vm.levels, vm.ptbase, a, t, mode) == (pte, leaf) && !pte.n
    requires shift == leaf * vm.idxbits && Shr(a, 12 + shift) == Shr(b, 12 + shift)
    ensures WalkSpec(c, ok, mem, a, t, mode).out == Page(x) && WalkSpec(c, ok, mem, b, t, mode).out == Page(y)
    ensures y + b % PGSIZE - (x + a % PGSIZE) == b - a
  {
    y := TableSuperpageLinear(c, ok, mem, vm, vm.levels, vm.ptbase, a, b, t, mode, x, pte, leaf, shift);
    assert Canonical(c, vm, b) by {
      SameCanonical(c, vm, leaf, shift, a, b);
    }
    WalkOfTables(c, ok, mem, vm, a, t, mode, x);
    WalkOfTables(c, ok, mem, vm, b, t, mode, y);
  }

  lemma {:induction false} SamePpnSameNumber(p: Pte, q: Pte, ptshift: nat, vpn: nat)
    requires p.n == q.n && p.ppn == q.ppn
    ensures LeafNumber(p, ptshift, vpn) == LeafNumber(q, ptshift, vpn)
  {
  }

  /**
    Two walks that end in NAPOT leaves naming the same physical range, for addresses of the same
    64 KiB range, translate linearly too, although they read different entries.
    */
  lemma {:induction false} NapotLinear(c: Context, ok: Checker, mem: Memory, vm: Vm, i: nat, base: nat, a: nat, b: nat,
                    t: AccessType, mode: nat, x: nat, y: nat)
    requires WalkFrom(c, ok, mem, vm, i, base, a, t, mode).out == Page(x)
    requires WalkFrom(c, ok, mem, vm, i, base, b, t, mode).out == Page(y)
    requires var p := LeafOf(c, ok, mem, vm, i, base, a, t, mode).0;
             var q := LeafOf(c, ok, mem, vm, i, base, b, t, mode).0;
             p.n && q.n && p.ppn == q.ppn && Shr(a, 12 + 4) == Shr(b, 12 + 4)
    ensures y + b % PGSIZE - (x + a % PGSIZE) == b - a
  {
    var p, q := LeafOf(c, ok, mem, vm, i, base, a, t, mode).0, LeafOf(c, ok, mem, vm, i, base, b, t, mode).0;
    SamePpnSameNumber(p, q, 0, b / PGSIZE);
    LeafLinear(p, 0, 0, a, b);
  }

  // ---------------------------------------------------------------------------------------
  // What a walk depends on
  // ---------------------------------------------------------------------------------------

  lemma {:induction false} TablesSeePage(c: Context, ok: Checker, mem: Memory, vm: Vm, i: nat, base: nat, a: nat,
                                         b: nat,
                                         t: AccessType, mode: nat)
    requires Shr(a, 12) == Shr(b, 12) && a / PGSIZE == b / PGSIZE
    ensures WalkFrom(c, ok, mem, vm, i, base, a, t, mode) == WalkFrom(c, ok, mem, vm, i, base, b, t, mode)
    decreases i
  {
    if i > 0 {
      SamePteAddr(vm, i - 1, 0, base, a, b);
      var pa := PteAddr(vm, i - 1, base, a);
      if ok(pa, vm.ptesize, Load) && pa in mem && Classify(c, mem[pa], t, mode) == Table {
        TablesSeePage(c, ok, mem, vm, i - 1, mem[pa].ppn * PGSIZE, a, b, t, mode);
      }
    }
  }

  lemma {:induction false} UntranslatedPage(a: nat, b: nat, xlen: nat)
    requires a / PGSIZE == b / PGSIZE && xlen >= 12
    ensures PageOf(Low(a, xlen)) == PageOf(Low(b, xlen))
  {
    var p :| p == 12;
    UntranslatedOf(a, xlen, p);
    UntranslatedOf(b, xlen, p);
  }

  lemma {:induction false} UntranslatedOf(a: nat, xlen: nat, p: nat)
    requires p == 12 && xlen >= p
    ensures PageOf(Low(a, xlen)) == Low(a / PGSIZE, xlen - p) * PGSIZE
  {
    PageOffset(a, p, xlen - p);
    WholePages(Low(a / PGSIZE, xlen - p), a % PGSIZE);
  }

  lemma {:induction false} WholePages(n: nat, o: nat)
    requires o < PGSIZE
    ensures PageOf(n * PGSIZE + o) == n * PGSIZE
  {
  }

  lemma {:induction false} TranslatedPage(c: Context, ok: Checker, mem: Memory, vm: Vm, a: nat, b: nat, t: AccessType,
                                          mode: nat)
    requires c.Valid() && vm == DecodeVm(c, mode) && vm.levels != 0 && a / PGSIZE == b / PGSIZE
    ensures Canonical(c, vm, a) == Canonical(c, vm, b)
    ensures WalkFrom(c, ok, mem, vm, vm.levels, vm.ptbase, a, t, mode) ==
            WalkFrom(c, ok, mem, vm, vm.levels, vm.ptbase, b, t, mode)
  {
    assert Shr(a, 12) == Shr(b, 12) by {
      PageNumber(a, 12);
      PageNumber(b, 12);
    }
    assert 0 * vm.idxbits == 0;
    SameCanonical(c, vm, 0, 0, a, b);
    TablesSeePage(c, ok, mem, vm, vm.levels, vm.ptbase, a, b, t, mode);
  }

  /** The walk sees only the page number of the address. */
  lemma {:induction false} WalkSeesPage(c: Context, ok: Checker, mem: Memory, a: nat, b: nat, t: AccessType, mode: nat)
    requires c.Valid() && a / PGSIZE == b / PGSIZE
    ensures WalkSpec(c, ok, mem, a, t, mode) == WalkSpec(c, ok, mem, b, t, mode)
  {
    var vm := DecodeVm(c, mode);
    if vm.levels == 0 {
      UntranslatedPage(a, b, c.xlen);
    } else {
      TranslatedPage(c, ok, mem, vm, a, b, t, mode);
    }
  }

  lemma {:induction false} TablesSamePage(c: Context, ok: Checker, mem: Memory, vm: Vm, i: nat, base: nat, addr: nat,
                                          t: AccessType, u: AccessType, mode: nat)
    requires WalkFrom(c, ok, mem, vm, i, base, addr, t, mode).out.Page?
    requires WalkFrom(c, ok, mem, vm, i, base, addr, u, mode).out.Page?
    ensures WalkFrom(c, ok, mem, vm, i, base, addr, t, mode).out == WalkFrom(c, ok, mem, vm, i, base, addr, u, mode).out
    decreases i
  {
    var pa := PteAddr(vm, i - 1, base, addr);
    if mem[pa].IsTable() {
      TablesSamePage(c, ok, mem, vm, i - 1, mem[pa].ppn * PGSIZE, addr, t, u, mode);
    }
  }

  /** Walks of different access types that both succeed lead to the same page. */
  lemma {:induction false} SamePageForAllTypes(c: Context, ok: Checker, mem: Memory, addr: nat, t: AccessType,
                                               u: AccessType, mode: nat)
    requires WalkSpec(c, ok, mem, addr, t, mode).out.Page? && WalkSpec(c, ok, mem, addr, u, mode).out.Page?
    ensures WalkSpec(c, ok, mem, addr, t, mode).out == WalkSpec(c, ok, mem, addr, u, mode).out
  {
    var vm := DecodeVm(c, mode);
    if vm.levels != 0 {
      TablesSamePage(c, ok, mem, vm, vm.levels, vm.ptbase, addr, t, u, mode);
    }
  }

  lemma {:induction false} TablesAligned(c: Context, ok: Checker, mem: Memory, vm: Vm, i: nat, base: nat, addr: nat,
                                         t: AccessType, mode: nat)
    requires WalkFrom(c, ok, mem, vm, i, base, addr, t, mode).out.Page?
    ensures WalkFrom(c, ok, mem, vm, i, base, addr, t, mode).out.base % PGSIZE == 0
    decreases i
  {
    var pa := PteAddr(vm, i - 1, base, addr);
    if mem[pa].IsTable() {
      TablesAligned(c, ok, mem, vm, i - 1, mem[pa].ppn * PGSIZE, addr, t, mode);
    } else {
      LeafPageAligned(mem[pa], (i - 1) * vm.idxbits, addr);
    }
  }

  lemma {:induction false} LeafPageAligned(pte: Pte, ptshift: nat, addr: nat)
    ensures LeafPage(pte, ptshift, addr) % PGSIZE == 0
  {
  }

  lemma {:induction false} WalkAligned(c: Context, ok: Checker, mem: Memory, addr: nat, t: AccessType, mode: nat)
    requires WalkSpec(c, ok, mem, addr, t, mode).out.Page?
    ensures WalkSpec(c, ok, mem, addr, t, mode).out.base % PGSIZE == 0
  {
    var vm := DecodeVm(c, mode);
    if vm.levels != 0 {
      TablesAligned(c, ok, mem, vm, vm.levels, vm.ptbase, addr, t, mode);
    }
  }

  // ---------------------------------------------------------------------------------------
  // What a walk means
  // ---------------------------------------------------------------------------------------

  /** A translation scheme: levels of tables, address bits for each, and bytes for each entry. */
  datatype Scheme = Scheme(levels: nat, width: nat, size: nat)

  /** Sv32, Sv39, Sv48 and Sv57. */
  function SchemeOf(xlen: nat, satpMode: nat): Scheme {
    if xlen == 32 then Scheme(2, 10, 4)
    else if satpMode == 8 then Scheme(3, 9, 8)
    else if satpMode == 9 then Scheme(4, 9, 8)
    else Scheme(5, 9, 8)
  }

  /** How many address bits it translates. */
  function Translated(z: Scheme): (n: nat)
    ensures n >= 12
  {
    12 + z.levels * z.width
  }

  /** Where the entry for an address lies in the table of the given level: each level takes its own address bits. */
  function EntryAt(z: Scheme, level: nat, base: nat, addr: nat): nat {
    base + addr / Pow2(12 + z.width * level) % Pow2(z.width) * z.size
  }

  /** An entry that points to the next table: of all its flags only V is set. */
  predicate PointsOn(pte: Pte) {
    && pte.v && !pte.r && !pte.w && !pte.x && !pte.u && !pte.a && !pte.d && !pte.n && pte.pbmt == 0 && !pte.rsvd
  }

  /**
    A leaf lets an access through: it is valid, has X for a fetch, R, or X under MXR, for a load, and
    R and W for a store; user mode needs U, supervisor mode needs it clear, or SUM and no fetch.
    */
  predicate Permits(c: Context, pte: Pte, t: AccessType, mode: nat) {
    && pte.v && (pte.w ==> pte.r)
    && (t == Fetch ==> pte.x) && (t == Load ==> pte.r || (c.mxr && pte.x)) && (t == Store ==> pte.r && pte.w)
    && (mode != 1 ==> pte.u) && (mode == 1 && pte.u ==> c.sum && t != Fetch)
  }

  /**
    A leaf is well formed: no reserved bit, a memory type only with the extension for it, aligned to
    its level, and N only on the last level, with the extension for it, for a range of 64 KiB.
    */
  predicate WellFormed(c: Context, z: Scheme, pte: Pte, level: nat) {
    && !pte.rsvd && pte.pbmt != 3 && (pte.pbmt != 0 ==> c.pbmte) && pte.ppn % Pow2(z.width * level) == 0
    && (pte.n ==> c.svnapot && level == 0 && pte.ppn % 16 == 8)
  }

  /** Its accessed bit, and for a store its dirty bit, is set or may be set by the walk. */
  predicate Settable(c: Context, ok: Checker, z: Scheme, pte: Pte, pa: nat, t: AccessType) {
    (pte.a && (t == Store ==> pte.d)) || (c.hade && ok(pa, z.size, Store))
  }

  /** The page that it gives: its own, further on by the page-number bits below its level or range. */
  function PageGiven(z: Scheme, pte: Pte, level: nat, addr: nat): nat {
    if pte.n then pte.ppn / 16 * 16 * 4096 + addr / 4096 % 16 * 4096
    else pte.ppn * 4096 + addr / 4096 % Pow2(z.width * level) * 4096
  }

  /** From the table at base, i levels from the end, pointers lead to the entry at pa of level j; all can be read. */
  ghost predicate Reaches(ok: Checker, mem: Memory, z: Scheme, addr: nat, i: nat, base: nat, j: nat, pa: nat)
    decreases i
  {
    && i > j
    && var at := EntryAt(z, i - 1, base, addr);
       && ok(at, z.size, Load) && at in mem
       && if i - 1 == j then pa == at
          else PointsOn(mem[at]) && Reaches(ok, mem, z, addr, i - 1, mem[at].ppn * 4096, j, pa)
  }

  /** The leaf at pa of level j translates the address. */
  ghost predicate Translates(c: Context, ok: Checker, mem: Memory, z: Scheme, addr: nat, t: AccessType, mode: nat,
                             j: nat, pa: nat) {
    && pa in mem && Permits(c, mem[pa], t, mode) && WellFormed(c, z, mem[pa], j)
    && Settable(c, ok, z, mem[pa], pa, t)
  }

  /** The same scheme in the form that the code decodes it to. */
  predicate Decoded(z: Scheme, vm: Vm) {
    vm.levels == z.levels && vm.idxbits == z.width && vm.ptesize == z.size
  }

  lemma {:induction false} EntryAtIs(z: Scheme, vm: Vm, level: nat, base: nat, addr: nat)
    requires Decoded(z, vm)
    ensures PteAddr(vm, level, base, addr) == EntryAt(z, level, base, addr)
  {
    var p := 12 + level * vm.idxbits;
    assert level * vm.idxbits == z.width * level;
    ShrIsDiv(addr, p);
    LowIsMod(Shr(addr, p), vm.idxbits);
  }

  lemma {:induction false} CtzThree(x: nat)
    requires x != 0
    ensures Ctz(x) == 3 <==> x % 16 == 8
  {
    var a, b, c := x / 2, x / 4, x / 8;
    assert a / 2 == b && b / 2 == c;
    CtzStep(x);
    CtzStep(a);
    CtzStep(b);
    CtzStep(c);
  }

  lemma {:induction false} CtzStep(x: nat)
    ensures Ctz(x) == if x == 0 || x % 2 == 1 then 0 else 1 + Ctz(x / 2)
  {
  }

  /** The code's two tests of an entry against the bits of the entry. */
  lemma {:induction false} KindMeans(c: Context, pte: Pte, t: AccessType, mode: nat)
    ensures Classify(c, pte, t, mode) == Table <==> PointsOn(pte)
    ensures Classify(c, pte, t, mode) == Leaf <==>
            && Permits(c, pte, t, mode) && !pte.rsvd && pte.pbmt != 3 && (pte.pbmt != 0 ==> c.pbmte)
            && (pte.n ==> c.svnapot)
  {
  }

  lemma {:induction false} NapotMeans(pte: Pte, level: nat)
    ensures !BadNapot(pte, level) <==> (pte.n ==> level == 0 && pte.ppn % 16 == 8)
  {
    if pte.n && pte.ppn != 0 {
      CtzThree(pte.ppn);
    }
  }

  /** The page that the code computes, in plain arithmetic. */
  lemma {:induction false} PageGivenIs(z: Scheme, pte: Pte, level: nat, shift: nat, addr: nat)
    requires shift == z.width * level && pte.ppn % Pow2(shift) == 0 && (pte.n ==> level == 0 && pte.ppn % 16 == 8)
    ensures LeafPage(pte, shift, addr) == PageGiven(z, pte, level, addr)
  {
    var vpn := addr / PGSIZE;
    NapotMeans(pte, level);
    LowIsMod(pte.ppn, shift);
    LowIsMod(vpn, shift);
    LowIsMod(pte.ppn, 4);
    LowIsMod(vpn, 4);
    assert Pow2(4) == 16;
    if pte.n {
      assert shift == 0;
    }
    LeafNumberValue(pte, level, shift, vpn);
  }

  lemma {:induction false} LeafMeans(c: Context, ok: Checker, mem: Memory, z: Scheme, vm: Vm, level: nat, pa: nat,
                                     addr: nat, t: AccessType, mode: nat)
    requires Decoded(z, vm) && pa in mem && Classify(c, mem[pa], t, mode) == Leaf
    ensures var w := TakeLeaf(c, ok, mem, vm, level, pa, addr, t);
            && (w.out.Page? <==> Translates(c, ok, mem, z, addr, t, mode, level, pa))
            && (w.out.Page? ==> w.out.base == PageGiven(z, mem[pa], level, addr)
                                && w.mem == mem[pa := mem[pa].(a := true, d := mem[pa].d || t == Store)])
  {
    var pte, shift := mem[pa], z.width * level;
    LeafTaken(c, ok, mem, vm, level, pa, addr, t, shift);
    KindMeans(c, pte, t, mode);
    NapotMeans(pte, level);
    LowIsMod(pte.ppn, shift);
    if pte.ppn % Pow2(shift) == 0 && (pte.n ==> level == 0 && pte.ppn % 16 == 8) {
      PageGivenIs(z, pte, level, shift, addr);
    }
  }

  lemma {:induction false} LeafTaken(c: Context, ok: Checker, mem: Memory, vm: Vm, level: nat, pa: nat, addr: nat,
                                     t: AccessType, shift: nat)
    requires pa in mem && shift == vm.idxbits * level
    ensures var w, pte := TakeLeaf(c, ok, mem, vm, level, pa, addr, t), mem[pa];
            && (w.out.Page? <==> Low(pte.ppn, shift) == 0 && !BadNapot(pte, level)
                                 && (pte.HasBits(t) || (c.hade && ok(pa, vm.ptesize, Store))))
            && (w.out.Page? ==> w.out.base == LeafPage(pte, shift, addr)
                                && w.mem == mem[pa := pte.(a := true, d := pte.d || t == Store)])
  {
    var pte := mem[pa];
    assert level * vm.idxbits == shift;
    if pte.HasBits(t) {
      assert mem[pa := pte.(a := true, d := pte.d || t == Store)] == mem;
    }
  }

  /** A walk that gives a page has followed pointers to a leaf that translates the address. */
  lemma {:induction false} PageNeedsLeaf(c: Context, ok: Checker, mem: Memory, z: Scheme, vm: Vm, i: nat, base: nat,
                                         addr: nat, t: AccessType, mode: nat)
    returns (j: nat, pa: nat)
    requires Decoded(z, vm) && WalkFrom(c, ok, mem, vm, i, base, addr, t, mode).out.Page?
    ensures Reaches(ok, mem, z, addr, i, base, j, pa) && Translates(c, ok, mem, z, addr, t, mode, j, pa)
    decreases i
  {
    var at := PteAddr(vm, i - 1, base, addr);
    EntryAtIs(z, vm, i - 1, base, addr);
    KindMeans(c, mem[at], t, mode);
    if Classify(c, mem[at], t, mode) == Table {
      j, pa := PageNeedsLeaf(c, ok, mem, z, vm, i - 1, mem[at].ppn * PGSIZE, addr, t, mode);
    } else {
      j, pa := i - 1, at;
      LeafMeans(c, ok, mem, z, vm, j, pa, addr, t, mode);
    }
  }

  /** Such a leaf is enough, and only its accessed and dirty bit change. */
  lemma {:induction false} LeafGivesPage(c: Context, ok: Checker, mem: Memory, z: Scheme, vm: Vm, i: nat, base: nat,
                                         addr: nat, t: AccessType, mode: nat, j: nat, pa: nat)
    requires Decoded(z, vm) && Reaches(ok, mem, z, addr, i, base, j, pa)
    requires Translates(c, ok, mem, z, addr, t, mode, j, pa)
    ensures WalkFrom(c, ok, mem, vm, i, base, addr, t, mode) ==
            Walked(Page(PageGiven(z, mem[pa], j, addr)),
              mem[pa := mem[pa].(a := true, d := mem[pa].d || t == Store)])
    decreases i
  {
    var at := EntryAt(z, i - 1, base, addr);
    EntryAtIs(z, vm, i - 1, base, addr);
    KindMeans(c, mem[at], t, mode);
    if i - 1 == j {
      LeafMeans(c, ok, mem, z, vm, j, pa, addr, t, mode);
    } else {
      LeafGivesPage(c, ok, mem, z, vm, i - 1, mem[at].ppn * 4096, addr, t, mode, j, pa);
    }
  }

  /** The address is a number of so many bits, extended by its sign to xlen bits. */
  predicate SignExtended(addr: nat, bits: nat, xlen: nat)
    requires 0 < bits <= xlen
  {
    addr < Pow2(bits - 1) || addr >= Pow2(xlen) - Pow2(bits - 1)
  }

  lemma {:induction false} CanonicalMeans(c: Context, vm: Vm, addr: nat, bits: nat)
    requires bits == 12 + vm.levels * vm.idxbits <= c.xlen && addr < Pow2(c.xlen)
    ensures Canonical(c, vm, addr) <==> SignExtended(addr, bits, c.xlen)
  {
    var p, q := bits - 1, c.xlen - bits + 1;
    var top := Shr(addr, p);
    ShrIsDiv(addr, p);
    LowIsMod(top, q);
    assert p + q == c.xlen;
    Pow2Add(p, q);
    TopBitsMean(addr, Pow2(p), Pow2(q));
  }

  lemma {:induction false} TopBitsMean(a: nat, d: nat, m: nat)
    requires d > 0 && m > 0 && a < d * m
    ensures a / d % m == a / d
    ensures a / d == 0 <==> a < d
    ensures a / d == m - 1 <==> a >= d * m - d
  {
    var q, last := a / d, d * (m - 1);
    assert last == d * m - d;
    QuotientBelow(a, d, m);
    DivModUnique(q, m, 0, q);
    assert a == d * q + a % d;
    if a < d {
      DivModUnique(a, d, 0, a);
    }
    if a >= last {
      DivModUnique(a, d, m - 1, a - last);
    }
  }

  lemma {:induction false} QuotientBelow(a: nat, d: nat, m: nat)
    requires d > 0 && a < d * m
    ensures a / d < m
  {
    var q := a / d;
    assert a == d * q + a % d;
    assert q >= m ==> d * q >= d * m;
  }

  /** Some leaf can be reached that translates the address to this page. */
  ghost predicate Mapped(c: Context, ok: Checker, mem: Memory, z: Scheme, addr: nat, t: AccessType, mode: nat, x: nat) {
    exists j, pa :: Reaches(ok, mem, z, addr, z.levels, c.satpPpn * 4096, j, pa)
      && Translates(c, ok, mem, z, addr, t, mode, j, pa) && x == PageGiven(z, mem[pa], j, addr)
  }

  /**
    What a walk means, stated on the bits of the entries and in plain arithmetic. Machine mode and
    bare mode use the address as it is. Otherwise the walk gives a page if and only if the address is
    sign-extended from the bits that the scheme translates, and pointers lead from the table in satp
    to a well-formed leaf that permits the access; it is then the page that this leaf gives.
    */
  lemma {:induction false} WalkMeans(c: Context, ok: Checker, mem: Memory, addr: nat, t: AccessType, mode: nat, x: nat)
    requires c.Valid() && addr < Pow2(c.xlen)
    ensures var z := SchemeOf(c.xlen, c.satpMode);
            Translated(z) <= c.xlen &&
            (WalkSpec(c, ok, mem, addr, t, mode).out == Page(x) <==>
             if mode == 3 || c.satpMode == 0 then x == addr - addr % 4096
             else SignExtended(addr, Translated(z), c.xlen) && Mapped(c, ok, mem, z, addr, t, mode, x))
  {
    if mode == 3 || c.satpMode == 0 {
      WalkBare(c, ok, mem, addr, t, mode);
    } else {
      var z, vm := SchemeOf(c.xlen, c.satpMode), DecodeVm(c, mode);
      SchemeDecoded(c, mode, z, vm);
      WalkTranslates(c, ok, mem, addr, t, mode, x, z, vm);
    }
  }

  lemma {:induction false} SchemeDecoded(c: Context, mode: nat, z: Scheme, vm: Vm)
    requires c.Valid() && mode != 3 && c.satpMode != 0 && z == SchemeOf(c.xlen, c.satpMode) && vm == DecodeVm(c, mode)
    ensures Decoded(z, vm) && vm.levels > 0 && vm.ptbase == c.satpPpn * 4096 && Translated(z) <= c.xlen
    ensures Translated(z) == 12 + vm.levels * vm.idxbits
  {
  }

  lemma {:induction false} WalkTranslates(c: Context, ok: Checker, mem: Memory, addr: nat, t: AccessType, mode: nat,
                                          x: nat, z: Scheme, vm: Vm)
    requires addr < Pow2(c.xlen) && vm == DecodeVm(c, mode) && vm.levels > 0
    requires Decoded(z, vm) && vm.ptbase == c.satpPpn * 4096 && Translated(z) == 12 + vm.levels * vm.idxbits <= c.xlen
    ensures WalkSpec(c, ok, mem, addr, t, mode).out == Page(x) <==>
            SignExtended(addr, Translated(z), c.xlen) && Mapped(c, ok, mem, z, addr, t, mode, x)
  {
    CanonicalMeans(c, vm, addr, Translated(z));
    WalkOfTables(c, ok, mem, vm, addr, t, mode, x);
    MappedMeans(c, ok, mem, z, vm, addr, t, mode, x);
  }

  lemma {:induction false} WalkBare(c: Context, ok: Checker, mem: Memory, addr: nat, t: AccessType, mode: nat)
    requires addr < Pow2(c.xlen) && (mode == 3 || c.satpMode == 0)
    ensures WalkSpec(c, ok, mem, addr, t, mode) == Walked(Page(addr - addr % 4096), mem)
  {
    WholeAddress(addr, c.xlen);
  }

  lemma {:induction false} WholeAddress(addr: nat, xlen: nat)
    requires addr < Pow2(xlen)
    ensures Low(addr, xlen) == addr
  {
    LowIsMod(addr, xlen);
  }

  lemma {:induction false} MappedMeans(c: Context, ok: Checker, mem: Memory, z: Scheme, vm: Vm, addr: nat,
                                       t: AccessType, mode: nat, x: nat)
    requires Decoded(z, vm) && vm.ptbase == c.satpPpn * 4096
    ensures WalkFrom(c, ok, mem, vm, z.levels, vm.ptbase, addr, t, mode).out == Page(x) <==>
            Mapped(c, ok, mem, z, addr, t, mode, x)
  {
    if WalkFrom(c, ok, mem, vm, z.levels, vm.ptbase, addr, t, mode).out == Page(x) {
      var j, pa := PageNeedsLeaf(c, ok, mem, z, vm, z.levels, vm.ptbase, addr, t, mode);
      LeafGivesPage(c, ok, mem, z, vm, z.levels, vm.ptbase, addr, t, mode, j, pa);
    }
    if Mapped(c, ok, mem, z, addr, t, mode, x) {
      var j, pa :| Reaches(ok, mem, z, addr, z.levels, c.satpPpn * 4096, j, pa)
                   && Translates(c, ok, mem, z, addr, t, mode, j, pa) && x == PageGiven(z, mem[pa], j, addr);
      LeafGivesPage(c, ok, mem, z, vm, z.levels, vm.ptbase, addr, t, mode, j, pa);
    }
  }

  /** The one entry that a successful walk changes: afterwards it is marked accessed, and dirty after a store. */
  lemma {:induction false} WalkMarks(c: Context, ok: Checker, mem: Memory, addr: nat, t: AccessType, mode: nat)
    returns (j: nat, pa: nat)
    requires c.Valid() && mode != 3 && c.satpMode != 0 && WalkSpec(c, ok, mem, addr, t, mode).out.Page?
    ensures var z := SchemeOf(c.xlen, c.satpMode);
            Reaches(ok, mem, z, addr, z.levels, c.satpPpn * 4096, j, pa)
              && Translates(c, ok, mem, z, addr, t, mode, j, pa)
    ensures var w := WalkSpec(c, ok, mem, addr, t, mode);
            && w.mem == mem[pa := mem[pa].(a := true, d := mem[pa].d || t == Store)]
            && w.mem[pa].a && (t == Store ==> w.mem[pa].d)
  {
    var z, vm := SchemeOf(c.xlen, c.satpMode), DecodeVm(c, mode);
    j, pa := PageNeedsLeaf(c, ok, mem, z, vm, z.levels, vm.ptbase, addr, t, mode);
    LeafGivesPage(c, ok, mem, z, vm, z.levels, vm.ptbase, addr, t, mode, j, pa);
  }

  /** Pointers lead to an entry that cannot be read, or to a leaf whose bits have to be set and cannot be. */
  ghost predicate Blocked(c: Context, ok: Checker, mem: Memory, z: Scheme, addr: nat, t: AccessType, mode: nat,
                          i: nat, base: nat)
    decreases i
  {
    && i > 0
    && var at := EntryAt(z, i - 1, base, addr);
       if !ok(at, z.size, Load) || at !in mem then true
       else if PointsOn(mem[at]) then Blocked(c, ok, mem, z, addr, t, mode, i - 1, mem[at].ppn * 4096)
       else
         var pte := mem[at];
         && Permits(c, pte, t, mode) && WellFormed(c, z, pte.(n := false), i - 1) && (pte.n ==> c.svnapot)
         && !(pte.a && (t == Store ==> pte.d)) && c.hade && !ok(at, z.size, Store)
  }

  lemma {:induction false} LeafBlocked(c: Context, ok: Checker, mem: Memory, z: Scheme, vm: Vm, level: nat, pa: nat,
                                       addr: nat, t: AccessType)
    requires pa in mem && Decoded(z, vm)
    ensures TakeLeaf(c, ok, mem, vm, level, pa, addr, t).out.AccessFault? <==>
            && mem[pa].ppn % Pow2(z.width * level) == 0 && c.hade && !ok(pa, z.size, Store)
            && !(mem[pa].a && (t == Store ==> mem[pa].d))
  {
    assert level * vm.idxbits == z.width * level;
    LowIsMod(mem[pa].ppn, z.width * level);
  }

  /** Exactly then it is an access fault; every other failure is a page fault. */
  lemma {:induction false} BlockedMeans(c: Context, ok: Checker, mem: Memory, z: Scheme, vm: Vm, i: nat, base: nat,
                                        addr: nat, t: AccessType, mode: nat)
    requires Decoded(z, vm)
    ensures WalkFrom(c, ok, mem, vm, i, base, addr, t, mode).out.AccessFault? <==>
            Blocked(c, ok, mem, z, addr, t, mode, i, base)
    decreases i
  {
    if i > 0 {
      var at := EntryAt(z, i - 1, base, addr);
      EntryAtIs(z, vm, i - 1, base, addr);
      if ok(at, z.size, Load) && at in mem {
        KindMeans(c, mem[at], t, mode);
        if PointsOn(mem[at]) {
          BlockedMeans(c, ok, mem, z, vm, i - 1, mem[at].ppn * 4096, addr, t, mode);
        } else {
          LeafBlocked(c, ok, mem, z, vm, i - 1, at, addr, t);
        }
      }
    }
  }
}
