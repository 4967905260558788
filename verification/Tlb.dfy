/**
  The software TLB: three tag arrays, for fetches, loads and stores, that share one array of
  translations. On a hit the simulator skips the page-table walk and the protection check. The
  main result is that this is invisible: in every run of accesses, refills, flushes and protection
  register writes, the machine with the TLB gives the same replies, and leaves the same page
  tables, as one that translates and checks every access.
  */
module Tlb {
  import opened Options
  import opened Bits
  import opened Pmp
  import opened Walk
  import PmpCsrs

  const TLB_ENTRIES: nat := 256
  /** 2^63, the tag bit that asks for a trigger check. */
  const TLB_CHECK_TRIGGERS: nat := 0x8000_0000_0000_0000
  const INVALID: nat := WORDS - 1
  const VPNS: nat := 0x10_0000_0000_0000

  /** What is added to a virtual address to get the host and the physical address. */
  datatype TlbEntry = TlbEntry(hostOffset: int, targetOffset: int)

  function HostAt(toHost: nat -> Option<int>, p: nat, o: nat): Option<int> {
    toHost(p + o)
  }

  /** Host memory is contiguous within a page, and lies below the 56-bit physical limit. */
  ghost predicate HostLinear(toHost: nat -> Option<int>) {
    && (forall p: nat, o: nat :: p % PGSIZE == 0 && o < PGSIZE ==>
        HostAt(toHost, p, o) == if toHost(p).Some? then Some(toHost(p).value + o) else None)
    && (forall p: nat :: toHost(p).Some? ==> p < 0x100_0000_0000_0000)
  }

  /** The state an access depends on that stays fixed between flushes. */
  datatype Env = Env(prv: nat, mprv: bool, mpp: nat,
                     checkFetch: bool, checkLoad: bool, checkStore: bool,
                     walk: (Memory, nat, AccessType, nat) -> Walked,
                     allow: (nat, nat, AccessType, nat) -> bool,
                     homogeneous: nat -> bool,
                     toHost: nat -> Option<int>,
                     mmio: (nat, nat, AccessType) -> bool,
                     reservable: nat -> bool)
  {
    /** The protection check decides a homogeneous page as one unit. */
    ghost predicate ProtectionUniform() {
      forall page: nat, a1: nat, n1: nat, a2: nat, n2: nat, t: AccessType, mode: nat
        {:trigger AccessInPage(page, a1, n1), AccessInPage(page, a2, n2), allow(a1, n1, t, mode)} ::
        IsPage(page) && homogeneous(page) && AccessInPage(page, a1, n1) && AccessInPage(page, a2, n2) ==>
          allow(a1, n1, t, mode) == allow(a2, n2, t, mode)
    }

    /**
      What the TLB relies on about walks: they see only the page number, give a page start, set
      nothing but accessed/dirty bits, agree across access types, and are idempotent.
      */
    ghost predicate WalkerOk() {
      && (forall m: Memory, a: nat, b: nat, t: AccessType,
            mode: nat {:trigger walk(m, a, t, mode), walk(m, b, t, mode)} ::
          a / PGSIZE == b / PGSIZE ==> walk(m, a, t, mode) == walk(m, b, t, mode))
      && (forall m: Memory, a: nat, t: AccessType, mode: nat {:trigger walk(m, a, t, mode)} ::
          Grew(m, walk(m, a, t, mode).mem) && (walk(m, a, t, mode).out.Page? ==>
            walk(m, a, t, mode).out.base % PGSIZE == 0))
      && (forall m: Memory, a: nat, t: AccessType, u: AccessType,
            mode: nat {:trigger walk(m, a, t, mode), walk(m, a, u, mode)} ::
          walk(m, a, t, mode).out.Page? && walk(m, a, u, mode).out.Page? ==>
            walk(m, a, t, mode).out == walk(m, a, u, mode).out)
      && (forall m: Memory, n: Memory, a: nat, t: AccessType,
            mode: nat {:trigger walk(m, a, t, mode), walk(n, a, t, mode)} ::
          walk(m, a, t, mode).out.Page? && Grew(walk(m, a, t, mode).mem, n) ==>
            walk(n, a, t, mode) == Walked(walk(m, a, t, mode).out, n))
    }

    ghost predicate Valid() {
      WalkerOk() && HostLinear(toHost) && ProtectionUniform()
    }

    function Mode(t: AccessType): nat {
      if t != Fetch && mprv then mpp else prv
    }
  }

  /** An access that stays inside a page; `lr` is a load-reserved, `probe` a store that only checks. */
  datatype Request = Request(t: AccessType, addr: nat, len: nat, lr: bool, probe: bool)
  {
    predicate WellFormed() {
      && addr < WORDS
      && 0 < len && addr % PGSIZE + len <= PGSIZE
      && (lr ==> t == Load)
      && (probe ==> t == Store)
    }

    function Vpn(): (v: nat)
      requires WellFormed()
      ensures v < VPNS
    {
      addr / PGSIZE
    }
  }

  datatype Reply = Host(h: int) | Device(paddr: nat) | Checked | PageTrap | AccessTrap

  // ---------------------------------------------------------------------------------------
  // The machine without a TLB
  // ---------------------------------------------------------------------------------------

  ghost function Translate(e: Env, mem: Memory, r: Request): Walked {
    var w := e.walk(mem, r.addr, r.t, e.Mode(r.t));
    if w.out.Page? && !e.allow(w.out.base + r.addr % PGSIZE, r.len, r.t, e.Mode(r.t))
    then Walked(AccessFault, w.mem)
    else w
  }

  /** What an access to an allowed physical address answers. */
  function Serve(e: Env, r: Request, paddr: nat): Reply {
    if r.lr && !e.reservable(paddr) then AccessTrap
    else if r.probe then Checked
    else
      match e.toHost(paddr)
      case Some(h) => Host(h)
      case None => if e.mmio(paddr, r.len, r.t) then Device(paddr) else AccessTrap
  }

  function Respond(e: Env, r: Request, out: Outcome): Reply {
    match out
    case PageFault => PageTrap
    case AccessFault => AccessTrap
    case Page(base) => Serve(e, r, base + r.addr % PGSIZE)
  }

  ghost function Reference(e: Env, mem: Memory, r: Request): (Reply, Memory) {
    var w := Translate(e, mem, r);
    (Respond(e, r, w.out), w.mem)
  }

  // ---------------------------------------------------------------------------------------
  // The machine with a TLB
  // ---------------------------------------------------------------------------------------

  datatype Tlb = Tlb(insn: seq<nat>, load: seq<nat>, store: seq<nat>, data: seq<TlbEntry>)
  {
    predicate Sized() {
      |insn| == |load| == |store| == |data| == TLB_ENTRIES
    }

    function Tags(t: AccessType): seq<nat> {
      match t
      case Fetch => insn
      case Load => load
      case Store => store
    }
  }

  function Idx(vpn: nat): (i: nat)
    ensures i < TLB_ENTRIES
  {
    vpn % TLB_ENTRIES
  }

  /** Does the tag name the page, with or without the trigger bit? */
  predicate Names(tag: nat, vpn: nat) {
    tag % TLB_CHECK_TRIGGERS == vpn
  }

  predicate Hit(tlb: Tlb, r: Request)
    requires tlb.Sized() && r.WellFormed()
  {
    !r.lr && Names(tlb.Tags(r.t)[Idx(r.Vpn())], r.Vpn())
  }

  /** A tag that does not name the page being refilled is dropped. */
  function Keep(tag: nat, vpn: nat): nat {
    if Names(tag, vpn) then tag else INVALID
  }

  predicate ChecksTriggers(e: Env, t: AccessType) {
    match t
    case Fetch => e.checkFetch
    case Load => e.checkLoad
    case Store => e.checkStore
  }

  function NewTag(e: Env, t: AccessType, vpn: nat): nat {
    if ChecksTriggers(e, t) then vpn + TLB_CHECK_TRIGGERS else vpn
  }

  /** The tags of type t after a refill for an access of type u. */
  function RefillTags(e: Env, tags: seq<nat>, t: AccessType, u: AccessType, vpn: nat, homogeneous: bool): (r: seq<nat>)
    requires |tags| == TLB_ENTRIES
    ensures |r| == TLB_ENTRIES
  {
    var kept := tags[Idx(vpn) := Keep(tags[Idx(vpn)], vpn)];
    if t == u && homogeneous then kept[Idx(vpn) := NewTag(e, t, vpn)] else kept
  }

  function Refill(e: Env, tlb: Tlb, r: Request, paddr: nat, host: int): Tlb
    requires tlb.Sized() && r.WellFormed()
  {
    if e.mprv then tlb
    else Filled(e, tlb, r, e.homogeneous(PageOf(paddr)), TlbEntry(host - r.addr, paddr - r.addr))
  }

  /** The TLB with the three tags and the data of the request's page set. */
  function Filled(e: Env, tlb: Tlb, r: Request, homogeneous: bool, entry: TlbEntry): Tlb
    requires tlb.Sized() && r.WellFormed()
  {
    Tlb(RefillTags(e, tlb.insn, Fetch, r.t, r.Vpn(), homogeneous),
        RefillTags(e, tlb.load, Load, r.t, r.Vpn(), homogeneous),
        RefillTags(e, tlb.store, Store, r.t, r.Vpn(), homogeneous), tlb.data[Idx(r.Vpn()) := entry])
  }

  /** The TLB after a miss whose translation ended in `out`. */
  function AfterMiss(e: Env, tlb: Tlb, r: Request, out: Outcome): Tlb
    requires tlb.Sized() && r.WellFormed()
  {
    if out.Page? && !r.lr && Respond(e, r, out).Host?
    then Refill(e, tlb, r, out.base + r.addr % PGSIZE, Respond(e, r, out).h)
    else tlb
  }

  ghost function Step(e: Env, tlb: Tlb, mem: Memory, r: Request): (Reply, Tlb, Memory)
    requires tlb.Sized() && r.WellFormed()
  {
    if Hit(tlb, r) then
      (if r.probe then Checked else Host(tlb.data[Idx(r.Vpn())].hostOffset + r.addr), tlb, mem)
    else
      var w := Translate(e, mem, r);
      (Respond(e, r, w.out), AfterMiss(e, tlb, r, w.out), w.mem)
  }

  function Flushed(tlb: Tlb): Tlb {
    tlb.(insn := seq(TLB_ENTRIES, _ => INVALID), load := seq(TLB_ENTRIES, _ => INVALID),
      store := seq(TLB_ENTRIES, _ => INVALID))
  }

  // ---------------------------------------------------------------------------------------
  // The invariant
  // ---------------------------------------------------------------------------------------

  /** The page vpn translates to the physical page `base` for accesses of type t, and no walk stores anything. */
  ghost predicate Translates(e: Env, mem: Memory, t: AccessType, vpn: nat, base: nat) {
    && e.walk(mem, vpn * PGSIZE, t, e.prv) == Walked(Page(base), mem)
    && IsPage(base)
    && e.homogeneous(base)
    && e.allow(base, 1, t, e.prv)
  }

  ghost predicate EntryOk(e: Env, mem: Memory, t: AccessType, vpn: nat, hostOffset: int) {
    exists base: nat :: Translates(e, mem, t, vpn, base) && e.toHost(base) == Some(hostOffset + vpn * PGSIZE)
  }

  ghost predicate TagOk(e: Env, mem: Memory, t: AccessType, i: nat, tag: nat, hostOffset: int) {
    || tag == INVALID
    || (&& !e.mprv
        && tag < WORDS
        && tag % TLB_CHECK_TRIGGERS < VPNS
        && Idx(tag % TLB_CHECK_TRIGGERS) == i
        && EntryOk(e, mem, t, tag % TLB_CHECK_TRIGGERS, hostOffset))
  }

  ghost predicate Inv(e: Env, tlb: Tlb, mem: Memory) {
    && tlb.Sized()
    && forall t: AccessType, i: nat {:trigger tlb.Tags(t)[i]} ::
         i < TLB_ENTRIES ==> TagOk(e, mem, t, i, tlb.Tags(t)[i], tlb.data[i].hostOffset)
  }

  lemma {:induction false} FlushedInv(e: Env, tlb: Tlb, mem: Memory)
    requires tlb.Sized()
    ensures Inv(e, Flushed(tlb), mem)
  {
  }

  // ---------------------------------------------------------------------------------------
  // A hit answers what the machine without a TLB would answer
  // ---------------------------------------------------------------------------------------

  lemma {:induction false} SamePageAccess(base: nat, addr: nat, len: nat)
    requires IsPage(base) && 0 < len && addr % PGSIZE + len <= PGSIZE
    ensures AccessInPage(base, base + addr % PGSIZE, len) && AccessInPage(base, base, 1)
  {
  }

  lemma {:induction false} EntryAnswers(e: Env, mem: Memory, r: Request, hostOffset: int)
    requires e.Valid() && r.WellFormed() && !r.lr && !e.mprv
    requires EntryOk(e, mem, r.t, r.Vpn(), hostOffset)
    ensures Reference(e, mem, r) == (if r.probe then Checked else Host(hostOffset + r.addr), mem)
  {
    var base: nat :| Translates(e, mem, r.t, r.Vpn(), base) && e.toHost(base) == Some(hostOffset + r.Vpn() * PGSIZE);
    assert e.walk(mem, r.addr, r.t, e.prv) == e.walk(mem, r.Vpn() * PGSIZE, r.t, e.prv);
    SamePageAccess(base, r.addr, r.len);
    assert e.allow(base + r.addr % PGSIZE, r.len, r.t, e.prv);
    assert HostAt(e.toHost, base, r.addr % PGSIZE) == Some(hostOffset + r.Vpn() * PGSIZE + r.addr % PGSIZE);
  }

  lemma {:induction false} HitAnswers(e: Env, tlb: Tlb, mem: Memory, r: Request)
    requires e.Valid() && r.WellFormed() && Inv(e, tlb, mem) && Hit(tlb, r)
    ensures var s := Step(e, tlb, mem, r); Reference(e, mem, r) == (s.0, s.2)
  {
    var i := Idx(r.Vpn());
    var tag := tlb.Tags(r.t)[i];
    assert TagOk(e, mem, r.t, i, tag, tlb.data[i].hostOffset);
    assert tag != INVALID;
    EntryAnswers(e, mem, r, tlb.data[i].hostOffset);
  }

  lemma {:induction false} StepAnswers(e: Env, tlb: Tlb, mem: Memory, r: Request)
    requires e.Valid() && r.WellFormed() && Inv(e, tlb, mem)
    ensures var s := Step(e, tlb, mem, r); Reference(e, mem, r) == (s.0, s.2)
  {
    if Hit(tlb, r) {
      HitAnswers(e, tlb, mem, r);
    }
  }

  // ---------------------------------------------------------------------------------------
  // The invariant survives other walks' accessed/dirty updates and refills
  // ---------------------------------------------------------------------------------------

  lemma {:induction false} EntrySurvives(e: Env, m: Memory, n: Memory, t: AccessType, vpn: nat, hostOffset: int)
    requires e.Valid() && EntryOk(e, m, t, vpn, hostOffset) && Grew(m, n)
    ensures EntryOk(e, n, t, vpn, hostOffset)
  {
    var base: nat :| Translates(e, m, t, vpn, base) && e.toHost(base) == Some(hostOffset + vpn * PGSIZE);
    assert e.walk(n, vpn * PGSIZE, t, e.prv) == Walked(Page(base), n);
    assert Translates(e, n, t, vpn, base);
  }

  lemma {:induction false} InvSurvives(e: Env, tlb: Tlb, m: Memory, n: Memory)
    requires e.Valid() && Inv(e, tlb, m) && Grew(m, n)
    ensures Inv(e, tlb, n)
  {
    forall t: AccessType, i: nat | i < TLB_ENTRIES
      ensures TagOk(e, n, t, i, tlb.Tags(t)[i], tlb.data[i].hostOffset)
    {
      var tag := tlb.Tags(t)[i];
      assert TagOk(e, m, t, i, tag, tlb.data[i].hostOffset);
      if tag != INVALID {
        EntrySurvives(e, m, n, t, tag % TLB_CHECK_TRIGGERS, tlb.data[i].hostOffset);
      }
    }
  }

  /** A refill after an access of type u that went to host memory. */
  ghost predicate Refilled(e: Env, mem: Memory, r: Request, base: nat, host: int) {
    && r.WellFormed() && !e.mprv
    && e.walk(mem, r.addr, r.t, e.prv) == Walked(Page(base), mem)
    && e.allow(base + r.addr % PGSIZE, r.len, r.t, e.prv)
    && e.toHost(base + r.addr % PGSIZE) == Some(host)
  }

  /** The facts a refill provides about the page, phrased for the whole page. */
  lemma {:induction false} RefillPage(e: Env, mem: Memory, r: Request, base: nat, host: int)
    requires e.Valid() && Refilled(e, mem, r, base, host)
    ensures e.walk(mem, r.Vpn() * PGSIZE, r.t, e.prv) == Walked(Page(base), mem)
    ensures IsPage(base) && PageOf(base + r.addr % PGSIZE) == base
    ensures e.toHost(base) == Some(host - r.addr + r.Vpn() * PGSIZE)
    ensures e.homogeneous(base) ==> Translates(e, mem, r.t, r.Vpn(), base)
  {
    assert e.walk(mem, r.addr, r.t, e.prv) == e.walk(mem, r.Vpn() * PGSIZE, r.t, e.prv);
    var o := r.addr % PGSIZE;
    assert HostAt(e.toHost, base, o) == if e.toHost(base).Some? then Some(e.toHost(base).value + o) else None;
    SamePageAccess(base, r.addr, r.len);
  }

  /** An entry for the same page but another access type stays correct under the new host offset. */
  lemma {:induction false} SharedData(e: Env, mem: Memory, r: Request, base: nat, host: int, t: AccessType,
                                      hostOffset: int)
    requires e.Valid() && Refilled(e, mem, r, base, host)
    requires EntryOk(e, mem, t, r.Vpn(), hostOffset)
    ensures EntryOk(e, mem, t, r.Vpn(), host - r.addr)
  {
    RefillPage(e, mem, r, base, host);
    var b: nat :| Translates(e, mem, t, r.Vpn(), b) && e.toHost(b) == Some(hostOffset + r.Vpn() * PGSIZE);
    assert b == base;
  }

  lemma {:induction false} NewTagNames(e: Env, t: AccessType, vpn: nat)
    requires vpn < VPNS
    ensures NewTag(e, t, vpn) < WORDS && NewTag(e, t, vpn) % TLB_CHECK_TRIGGERS == vpn && NewTag(e, t, vpn) != INVALID
  {
  }

  lemma {:induction false} RefillTagOk(e: Env, tlb: Tlb, mem: Memory, r: Request, base: nat, host: int, t: AccessType)
    requires e.Valid() && Inv(e, tlb, mem) && Refilled(e, mem, r, base, host)
    ensures var i := Idx(r.Vpn());
            var tags := RefillTags(e, tlb.Tags(t), t, r.t, r.Vpn(), e.homogeneous(base));
            TagOk(e, mem, t, i, tags[i], host - r.addr)
  {
    var i := Idx(r.Vpn());
    var tag := tlb.Tags(t)[i];
    assert TagOk(e, mem, t, i, tag, tlb.data[i].hostOffset);
    RefillPage(e, mem, r, base, host);
    NewTagNames(e, t, r.Vpn());
    if t == r.t && e.homogeneous(base) {
      assert EntryOk(e, mem, t, r.Vpn(), host - r.addr);
    } else if Names(tag, r.Vpn()) && tag != INVALID {
      SharedData(e, mem, r, base, host, t, tlb.data[i].hostOffset);
    }
  }

  lemma {:induction false} RefillInv(e: Env, tlb: Tlb, mem: Memory, r: Request, base: nat, host: int)
    requires e.Valid() && Inv(e, tlb, mem) && Refilled(e, mem, r, base, host)
    ensures Inv(e, Refill(e, tlb, r, base + r.addr % PGSIZE, host), mem)
  {
    RefillPage(e, mem, r, base, host);
    var tlb' := Refill(e, tlb, r, base + r.addr % PGSIZE, host);
    forall t: AccessType, i: nat | i < TLB_ENTRIES
      ensures TagOk(e, mem, t, i, tlb'.Tags(t)[i], tlb'.data[i].hostOffset)
    {
      assert tlb'.Tags(t) == RefillTags(e, tlb.Tags(t), t, r.t, r.Vpn(), e.homogeneous(base));
      if i == Idx(r.Vpn()) {
        RefillTagOk(e, tlb, mem, r, base, host, t);
      } else {
        assert TagOk(e, mem, t, i, tlb.Tags(t)[i], tlb.data[i].hostOffset);
      }
    }
  }

  lemma {:induction false} TranslateGrows(e: Env, mem: Memory, r: Request)
    requires e.Valid()
    ensures Grew(mem, Translate(e, mem, r).mem)
  {
  }

  lemma {:induction false} GrewReflexive(m: Memory)
    ensures Grew(m, m)
  {
  }

  /** A miss that reaches host memory provides what a refill needs, in the updated page tables. */
  lemma {:induction false} MissRefills(e: Env, mem: Memory, r: Request)
    requires e.Valid() && r.WellFormed() && !e.mprv && !r.lr
    requires var w := Translate(e, mem, r); Respond(e, r, w.out).Host?
    ensures var w := Translate(e, mem, r); Refilled(e, w.mem, r, w.out.base, Respond(e, r, w.out).h)
  {
    var w := Translate(e, mem, r);
    GrewReflexive(w.mem);
    assert e.walk(w.mem, r.addr, r.t, e.prv) == Walked(w.out, w.mem);
  }

  lemma {:induction false} RefilledInv(e: Env, tlb: Tlb, mem: Memory, r: Request, base: nat, host: int)
    requires e.Valid() && r.WellFormed() && Inv(e, tlb, mem)
    requires !e.mprv ==> Refilled(e, mem, r, base, host)
    ensures Inv(e, Refill(e, tlb, r, base + r.addr % PGSIZE, host), mem)
  {
    if !e.mprv {
      RefillInv(e, tlb, mem, r, base, host);
    }
  }

  lemma {:induction false} AfterMissInv(e: Env, tlb: Tlb, mem: Memory, r: Request, w: Walked)
    requires e.Valid() && r.WellFormed() && Inv(e, tlb, w.mem) && w == Translate(e, mem, r)
    ensures Inv(e, AfterMiss(e, tlb, r, w.out), w.mem)
  {
    var reply := Respond(e, r, w.out);
    if reply.Host? && !r.lr {
      if !e.mprv {
        MissRefills(e, mem, r);
      }
      RefilledInv(e, tlb, w.mem, r, w.out.base, reply.h);
    }
  }

  lemma {:induction false} StepInv(e: Env, tlb: Tlb, mem: Memory, r: Request)
    requires e.Valid() && r.WellFormed() && Inv(e, tlb, mem)
    ensures var s := Step(e, tlb, mem, r); Inv(e, s.1, s.2)
  {
    if !Hit(tlb, r) {
      var w := Translate(e, mem, r);
      TranslateGrows(e, mem, r);
      InvSurvives(e, tlb, mem, w.mem);
      AfterMissInv(e, tlb, mem, r, w);
    }
  }

  // ---------------------------------------------------------------------------------------
  // The real walker and the real protection check
  // ---------------------------------------------------------------------------------------

  /** Where physical addresses lead: host memory, devices, and what may be reserved. */
  datatype Bus = Bus(toHost: nat -> Option<int>, mmio: (nat, nat, AccessType) -> bool, reservable: nat -> bool)

  datatype Machine = Machine(ctx: Context, pmp: State, prv: nat, mprv: bool, mpp: nat,
                             checkFetch: bool, checkLoad: bool, checkStore: bool)
  {
    ghost predicate Valid() { ctx.Valid() && pmp.Valid() }
  }

  ghost function WalkerOf(ctx: Context, pmp: State): (Memory, nat, AccessType, nat) -> Walked
    requires pmp.Valid()
  {
    var ok := PteCheck(pmp);
    (m: Memory, a: nat, t: AccessType, mode: nat) => WalkSpec(ctx, ok, m, a, t, mode)
  }

  ghost function AllowOf(pmp: State): (nat, nat, AccessType, nat) -> bool
    requires pmp.Valid()
  {
    (a: nat, len: nat, t: AccessType, mode: nat) => Allowed(pmp, a, len, t, mode)
  }

  ghost function HomogeneousOf(pmp: State): nat -> bool
    requires pmp.Valid()
  {
    (page: nat) => Homogeneous(pmp, page)
  }

  ghost function EnvOf(m: Machine, bus: Bus): Env
    requires m.Valid()
  {
    Env(m.prv, m.mprv, m.mpp, m.checkFetch, m.checkLoad, m.checkStore,
        WalkerOf(m.ctx, m.pmp), AllowOf(m.pmp), HomogeneousOf(m.pmp), bus.toHost, bus.mmio, bus.reservable)
  }

  lemma {:induction false} EnvWalkerOk(m: Machine, bus: Bus)
    requires m.Valid()
    ensures EnvOf(m, bus).WalkerOk()
  {
    var e := EnvOf(m, bus);
    var c, ok := m.ctx, PteCheck(m.pmp);
    forall x: Memory, a: nat, b: nat, t: AccessType, mode: nat | a / PGSIZE == b / PGSIZE
      ensures e.walk(x, a, t, mode) == e.walk(x, b, t, mode)
    {
      WalkSeesPage(c, ok, x, a, b, t, mode);
    }
    forall x: Memory, a: nat, t: AccessType, mode: nat
      ensures Grew(x, e.walk(x, a, t, mode).mem)
      ensures e.walk(x, a, t, mode).out.Page? ==> e.walk(x, a, t, mode).out.base % PGSIZE == 0
    {
      WalkSpecGrows(c, ok, x, a, t, mode);
      if e.walk(x, a, t, mode).out.Page? {
        WalkAligned(c, ok, x, a, t, mode);
      }
    }
    forall x: Memory, a: nat, t: AccessType, u: AccessType, mode: nat | e.walk(x, a, t, mode).out.Page?
      && e.walk(x, a, u, mode).out.Page?
      ensures e.walk(x, a, t, mode).out == e.walk(x, a, u, mode).out
    {
      SamePageForAllTypes(c, ok, x, a, t, u, mode);
    }
    forall x: Memory, y: Memory, a: nat, t: AccessType, mode: nat | e.walk(x, a, t, mode).out.Page?
      && Grew(e.walk(x, a, t, mode).mem, y)
      ensures e.walk(y, a, t, mode) == Walked(e.walk(x, a, t, mode).out, y)
    {
      WalkIdempotent(c, ok, x, y, a, t, mode);
    }
  }

  lemma {:induction false} EnvProtectionUniform(m: Machine, bus: Bus)
    requires m.Valid()
    ensures EnvOf(m, bus).ProtectionUniform()
  {
    var e := EnvOf(m, bus);
    forall page: nat, a1: nat, n1: nat, a2: nat, n2: nat, t: AccessType, mode: nat
      | IsPage(page) && e.homogeneous(page) && AccessInPage(page, a1, n1) && AccessInPage(page, a2, n2)
      ensures e.allow(a1, n1, t, mode) == e.allow(a2, n2, t, mode)
    {
      HomogeneousPageDecides(m.pmp, page, a1, n1, a2, n2, t, mode);
    }
  }

  /** The simulator's walker and protection check meet everything the TLB relies on. */
  lemma {:induction false} EnvValid(m: Machine, bus: Bus)
    requires m.Valid() && HostLinear(bus.toHost)
    ensures EnvOf(m, bus).Valid()
  {
    EnvWalkerOk(m, bus);
    EnvProtectionUniform(m, bus);
  }

  // ---------------------------------------------------------------------------------------
  // Every run
  // ---------------------------------------------------------------------------------------

  datatype Event = Access(r: Request) | FlushTlb | WritePmp(w: PmpCsrs.Write)
  {
    predicate WellFormed() {
      match this
      case Access(r) => r.WellFormed()
      case FlushTlb => true
      case WritePmp(w) => w.WellFormed()
    }
  }

  /** Does the register write discard cached translations? */
  predicate WriteFlushes(s: State, w: PmpCsrs.Write)
    requires |s.entries| == MAX_PMP && w.WellFormed()
  {
    s.n != 0 && (w.Addr? ==> PmpCsrs.AddrWritable(s, w.i))
  }

  lemma {:induction false} UnflushedWrite(s: State, w: PmpCsrs.Write)
    requires s.Valid() && w.WellFormed() && !WriteFlushes(s, w)
    ensures PmpCsrs.Apply(s, w) == s
  {
    if w.Cfg? {
      assert PmpCsrs.Apply(s, w).entries == s.entries;
    }
  }

  ghost function Write(m: Machine, w: PmpCsrs.Write): (r: Machine)
    requires m.Valid() && w.WellFormed()
    ensures r.Valid()
  {
    m.(pmp := PmpCsrs.Apply(m.pmp, w))
  }

  ghost predicate EventsOk(evs: seq<Event>) {
    forall i :: 0 <= i < |evs| ==> evs[i].WellFormed()
  }

  /** The replies and final page tables of a run on the machine without a TLB. */
  ghost function RunReference(m: Machine, bus: Bus, mem: Memory, evs: seq<Event>): (seq<Reply>, Memory)
    requires m.Valid() && EventsOk(evs)
    decreases |evs|
  {
    if evs == [] then ([], mem)
    else
      match evs[0]
      case Access(r) =>
        var (reply, mem') := Reference(EnvOf(m, bus), mem, r);
        var rest := RunReference(m, bus, mem', evs[1..]);
        ([reply] + rest.0, rest.1)
      case FlushTlb => RunReference(m, bus, mem, evs[1..])
      case WritePmp(w) => RunReference(Write(m, w), bus, mem, evs[1..])
  }

  /** The replies and final page tables of a run on the machine with a TLB. */
  ghost function RunCached(m: Machine, bus: Bus, tlb: Tlb, mem: Memory, evs: seq<Event>): (seq<Reply>, Memory)
    requires m.Valid() && EventsOk(evs) && tlb.Sized()
    decreases |evs|
  {
    if evs == [] then ([], mem)
    else
      match evs[0]
      case Access(r) =>
        var (reply, tlb', mem') := Step(EnvOf(m, bus), tlb, mem, r);
        var rest := RunCached(m, bus, tlb', mem', evs[1..]);
        ([reply] + rest.0, rest.1)
      case FlushTlb => RunCached(m, bus, Flushed(tlb), mem, evs[1..])
      case WritePmp(w) =>
        RunCached(Write(m, w), bus, if WriteFlushes(m.pmp, w) then Flushed(tlb) else tlb, mem, evs[1..])
  }

  lemma {:induction false} WriteInv(m: Machine, bus: Bus, tlb: Tlb, mem: Memory, w: PmpCsrs.Write)
    requires m.Valid() && w.WellFormed() && Inv(EnvOf(m, bus), tlb, mem)
    ensures Inv(EnvOf(Write(m, w), bus), if WriteFlushes(m.pmp, w) then Flushed(tlb) else tlb, mem)
  {
    if WriteFlushes(m.pmp, w) {
      FlushedInv(EnvOf(Write(m, w), bus), tlb, mem);
    } else {
      UnflushedWrite(m.pmp, w);
    }
  }

  /**
    The TLB is invisible: from any consistent state, every sequence of accesses, flushes and
    protection register writes gives the same replies and the same final page tables with the
    TLB as without it.
    */
  lemma {:induction false} TlbInvisible(m: Machine, bus: Bus, tlb: Tlb, mem: Memory, evs: seq<Event>)
    requires m.Valid() && EventsOk(evs) && HostLinear(bus.toHost) && Inv(EnvOf(m, bus), tlb, mem)
    ensures RunCached(m, bus, tlb, mem, evs) == RunReference(m, bus, mem, evs)
    decreases |evs|
  {
    if evs != [] {
      var e := EnvOf(m, bus);
      EnvValid(m, bus);
      match evs[0]
      case Access(r) =>
        StepAnswers(e, tlb, mem, r);
        StepInv(e, tlb, mem, r);
        var s := Step(e, tlb, mem, r);
        TlbInvisible(m, bus, s.1, s.2, evs[1..]);
      case FlushTlb =>
        FlushedInv(e, tlb, mem);
        TlbInvisible(m, bus, Flushed(tlb), mem, evs[1..]);
      case WritePmp(w) =>
        WriteInv(m, bus, tlb, mem, w);
        TlbInvisible(Write(m, w), bus, if WriteFlushes(m.pmp, w) then Flushed(tlb) else tlb, mem, evs[1..]);
    }
  }

  // ---------------------------------------------------------------------------------------
  // The memory management unit, updated in place
  // ---------------------------------------------------------------------------------------

  class Mmu {
    const insnTag: array<nat>
    const loadTag: array<nat>
    const storeTag: array<nat>
    const data: array<TlbEntry>
    const bus: Bus
    var m: Machine
    var ptes: Memory

    ghost predicate Shaped()
      reads this
    {
      && insnTag.Length == loadTag.Length == storeTag.Length == data.Length == TLB_ENTRIES
      && insnTag != loadTag && insnTag != storeTag && loadTag != storeTag
      && m.Valid()
    }

    ghost function Cache(): (c: Tlb)
      requires Shaped()
      reads this, insnTag, loadTag, storeTag, data
      ensures c.Sized()
    {
      Tlb(insnTag[..], loadTag[..], storeTag[..], data[..])
    }

    ghost predicate Valid()
      reads this, insnTag, loadTag, storeTag, data
    {
      Shaped() && HostLinear(bus.toHost) && Inv(EnvOf(m, bus), Cache(), ptes)
    }

    constructor (m: Machine, bus: Bus, ptes: Memory)
      requires m.Valid() && HostLinear(bus.toHost)
      ensures Valid() && this.m == m && this.bus == bus && this.ptes == ptes
    {
      this.m, this.bus, this.ptes := m, bus, ptes;
      insnTag := new nat[TLB_ENTRIES](_ => INVALID);
      loadTag := new nat[TLB_ENTRIES](_ => INVALID);
      storeTag := new nat[TLB_ENTRIES](_ => INVALID);
      data := new TlbEntry[TLB_ENTRIES](_ => TlbEntry(0, 0));
      new;
      assert Cache() == Flushed(Cache());
      FlushedInv(EnvOf(m, bus), Cache(), ptes);
    }

    method Flush()
      requires Shaped()
      modifies insnTag, loadTag, storeTag
      ensures Shaped() && Cache() == Flushed(old(Cache()))
    {
      forall i | 0 <= i < TLB_ENTRIES { insnTag[i] := INVALID; }
      forall i | 0 <= i < TLB_ENTRIES { loadTag[i] := INVALID; }
      forall i | 0 <= i < TLB_ENTRIES { storeTag[i] := INVALID; }
      assert Cache().insn == seq(TLB_ENTRIES, _ => INVALID);
      assert Cache().load == seq(TLB_ENTRIES, _ => INVALID);
      assert Cache().store == seq(TLB_ENTRIES, _ => INVALID);
    }

    /** Walks the tables, updating accessed/dirty bits, and checks the physical access. */
    method TranslateAccess(r: Request) returns (out: Outcome)
      requires Shaped() && r.WellFormed()
      modifies this`ptes
      ensures Walked(out, ptes) == Translate(EnvOf(m, bus), old(ptes), r)
    {
      var mode := if r.t != Fetch && m.mprv then m.mpp else m.prv;
      var w := WalkTablesOf(m, bus, ptes, r, mode);
      ptes := w.mem;
      out := w.out;
      if out.Page? {
        var ok := CheckOf(m, bus, out.base + r.addr % PGSIZE, r, mode);
        if !ok {
          out := AccessFault;
        }
        TranslateCases(EnvOf(m, bus), old(ptes), r, w, ok);
      } else {
        TranslateCases(EnvOf(m, bus), old(ptes), r, w, true);
      }
    }

    /** The part of a refill that concerns one tag array. */
    method RefillTagArray(tags: array<nat>, t: AccessType, r: Request, homogeneous: bool)
      requires Shaped() && r.WellFormed() && tags.Length == TLB_ENTRIES
      modifies tags
      ensures tags[..] == RefillTags(EnvOf(m, bus), old(tags[..]), t, r.t, r.Vpn(), homogeneous)
    {
      var idx := Idx(r.Vpn());
      if !Names(tags[idx], r.Vpn()) {
        tags[idx] := INVALID;
      }
      if t == r.t && homogeneous {
        var tag := r.Vpn();
        if (m.checkFetch && t == Fetch) || (m.checkLoad && t == Load) || (m.checkStore && t == Store) {
          tag := tag + TLB_CHECK_TRIGGERS;
        }
        tags[idx] := tag;
      }
      assert tags[..] == RefillTags(EnvOf(m, bus), old(tags[..]), t, r.t, r.Vpn(), homogeneous);
    }

    method RefillTlb(r: Request, paddr: nat, host: int)
      requires Shaped() && r.WellFormed() && IsPage(PageOf(paddr))
      modifies insnTag, loadTag, storeTag, data
      ensures Shaped() && Cache() == Refill(EnvOf(m, bus), old(Cache()), r, paddr, host)
    {
      if m.mprv {
        return;
      }
      var homogeneous := HomogeneousPage(m, bus, PageOf(paddr));
      Fill(r, homogeneous, TlbEntry(host - r.addr, paddr - r.addr));
    }

    /** Sets the three tags and the data of an entry. */
    method Fill(r: Request, homogeneous: bool, entry: TlbEntry)
      requires Shaped() && r.WellFormed()
      modifies insnTag, loadTag, storeTag, data
      ensures Shaped() && Cache() == Filled(EnvOf(m, bus), old(Cache()), r, homogeneous, entry)
    {
      RefillTagArray(insnTag, Fetch, r, homogeneous);
      RefillTagArray(loadTag, Load, r, homogeneous);
      RefillTagArray(storeTag, Store, r, homogeneous);
      data[Idx(r.Vpn())] := entry;
    }

    /** Serves an allowed access, and refills if host memory answered. */
    method ServeAccess(r: Request, base: nat) returns (reply: Reply)
      requires Shaped() && r.WellFormed() && HostLinear(bus.toHost)
      modifies insnTag, loadTag, storeTag, data
      ensures Shaped()
      ensures reply == Respond(EnvOf(m, bus), r, Page(base))
      ensures Cache() == AfterMiss(EnvOf(m, bus), old(Cache()), r, Page(base))
    {
      var paddr := base + r.addr % PGSIZE;
      if r.lr && !bus.reservable(paddr) {
        return AccessTrap;
      }
      if r.probe {
        return Checked;
      }
      match bus.toHost(paddr) {
        case Some(h) =>
          if !r.lr {
            RefillTlb(r, paddr, h);
          }
          return Host(h);
        case None =>
          if bus.mmio(paddr, r.len, r.t) {
            return Device(paddr);
          }
          return AccessTrap;
      }
    }

    /** A load, store or fetch that misses. */
    method Miss(r: Request) returns (reply: Reply)
      requires Shaped() && r.WellFormed() && HostLinear(bus.toHost)
      modifies this`ptes, insnTag, loadTag, storeTag, data
      ensures Shaped()
      ensures var w := Translate(EnvOf(m, bus), old(ptes), r);
              && ptes == w.mem
              && reply == Respond(EnvOf(m, bus), r, w.out)
              && Cache() == AfterMiss(EnvOf(m, bus), old(Cache()), r, w.out)
    {
      var out := TranslateAccess(r);
      match out {
        case PageFault => return PageTrap;
        case AccessFault => return AccessTrap;
        case Page(base) => reply := ServeAccess(r, base);
      }
    }

    /** The hit path, else the miss path. */
    method HitOrMiss(r: Request) returns (reply: Reply)
      requires Shaped() && r.WellFormed() && HostLinear(bus.toHost)
      modifies this`ptes, insnTag, loadTag, storeTag, data
      ensures Shaped()
      ensures (reply, Cache(), ptes) == Step(EnvOf(m, bus), old(Cache()), old(ptes), r)
    {
      var idx := Idx(r.Vpn());
      var tag := match r.t case Fetch => insnTag[idx] case Load => loadTag[idx] case Store => storeTag[idx];
      if !r.lr && Names(tag, r.Vpn()) {
        if r.probe {
          return Checked;
        }
        return Host(data[idx].hostOffset + r.addr);
      }
      reply := Miss(r);
    }

    /**
      One access. Whether it hits or misses, it answers what the machine without a TLB answers
      and leaves the page tables that machine leaves.
      */
    method Access(r: Request) returns (reply: Reply)
      requires Valid() && r.WellFormed()
      modifies this`ptes, insnTag, loadTag, storeTag, data
      ensures Valid()
      ensures (reply, ptes) == Reference(EnvOf(m, bus), old(ptes), r)
    {
      StepCorrect(m, bus, Cache(), ptes, r);
      reply := HitOrMiss(r);
    }
  }

  lemma {:induction false} StepCorrect(m: Machine, bus: Bus, tlb: Tlb, mem: Memory, r: Request)
    requires m.Valid() && HostLinear(bus.toHost) && r.WellFormed() && Inv(EnvOf(m, bus), tlb, mem)
    ensures var s := Step(EnvOf(m, bus), tlb, mem, r);
            Reference(EnvOf(m, bus), mem, r) == (s.0, s.2) && Inv(EnvOf(m, bus), s.1, s.2)
  {
    EnvValid(m, bus);
    StepAnswers(EnvOf(m, bus), tlb, mem, r);
    StepInv(EnvOf(m, bus), tlb, mem, r);
  }

  lemma {:induction false} TranslateCases(e: Env, mem: Memory, r: Request, w: Walked, ok: bool)
    requires w == e.walk(mem, r.addr, r.t, e.Mode(r.t))
    requires w.out.Page? ==> ok == e.allow(w.out.base + r.addr % PGSIZE, r.len, r.t, e.Mode(r.t))
    ensures Translate(e, mem, r) == Walked(if w.out.Page? && !ok then AccessFault else w.out, w.mem)
  {
  }

  method WalkTablesOf(m: Machine, bus: Bus, mem: Memory, r: Request, mode: nat) returns (w: Walked)
    requires m.Valid()
    ensures w == EnvOf(m, bus).walk(mem, r.addr, r.t, mode)
  {
    w := WalkAddress(m.ctx, m.pmp, mem, r.addr, r.t, mode);
  }

  method CheckOf(m: Machine, bus: Bus, paddr: nat, r: Request, mode: nat) returns (ok: bool)
    requires m.Valid()
    ensures ok == EnvOf(m, bus).allow(paddr, r.len, r.t, mode)
  {
    ok := PmpOk(m.pmp, paddr, r.len, r.t, mode);
  }

  method HomogeneousPage(m: Machine, bus: Bus, page: nat) returns (ok: bool)
    requires m.Valid() && IsPage(page)
    ensures ok == EnvOf(m, bus).homogeneous(page)
  {
    ok := PmpHomogeneous(m.pmp, page);
  }
}
