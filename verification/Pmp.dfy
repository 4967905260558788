/**
  Physical memory protection: the pmpaddr, pmpcfg and mseccfg registers, the check made on
  every physical access, and the test that lets a TLB entry stand for a whole page.
  Addresses are natural numbers below 2^64; wrap-around is written out where the code can wrap.
  */
module Pmp {
  import opened Bits

  const PMP_R: bv8 := 0x01
  const PMP_W: bv8 := 0x02
  const PMP_X: bv8 := 0x04
  const PMP_A: bv8 := 0x18
  const PMP_L: bv8 := 0x80
  const PMP_TOR: bv8 := 0x08
  const PMP_NA4: bv8 := 0x10
  const PMP_NAPOT: bv8 := 0x18

  const MSECCFG_MML: bv64 := 1
  const MSECCFG_MMWP: bv64 := 2
  const MSECCFG_RLB: bv64 := 4

  const PRV_S: nat := 1
  const PRV_M: nat := 3

  const MAX_PMP: nat := 64
  const PGSIZE: nat := 0x1000
  /** 2^64, the number of machine words. */
  const WORDS: nat := 0x1_0000_0000_0000_0000
  /** 2^54: a pmpaddr register holds address bits 55..2. */
  const PMPADDR_LIMIT: nat := 0x40_0000_0000_0000

  datatype AccessType = Fetch | Load | Store

  /** One pmpaddr register with the pmpcfg byte that belongs to it. */
  datatype Entry = Entry(val: nat, cfg: bv8)

  /** The whole protection state; `n` entries are implemented, `lg` is log2 of the granularity. */
  datatype State = State(n: nat, lg: nat, entries: seq<Entry>, mseccfg: bv64)
  {
    ghost predicate Valid() {
      && n <= MAX_PMP
      && |entries| == MAX_PMP
      && 2 <= lg < 64
      && forall i :: 0 <= i < MAX_PMP ==> entries[i].val < PMPADDR_LIMIT
    }

    predicate Mml() { mseccfg & MSECCFG_MML != 0 }

    predicate Mmwp() { mseccfg & MSECCFG_MMWP != 0 }

    predicate Rlb() { mseccfg & MSECCFG_RLB != 0 }

    predicate Locked(i: nat)
      requires i < |entries|
    {
      entries[i].cfg & PMP_L != 0
    }

    /** The address-matching mode, field A of the entry's pmpcfg byte. */
    function Mode(i: nat): bv8
      requires i < |entries|
    {
      entries[i].cfg & PMP_A
    }
  }

  // ---------------------------------------------------------------------------------------
  // Address matching
  // ---------------------------------------------------------------------------------------

  /** The 64-bit mask -(2^(lg - 2)). */
  function TorMask(lg: nat): nat
    requires 2 <= lg < 64
  {
    Pow2Monotone(lg - 2, 64);
    Pow2(64) - Pow2(lg - 2)
  }

  lemma {:induction false} AndAtMost(a: nat, b: nat)
    ensures And(a, b) <= a
  {
    if a != 0 && b != 0 {
      AndAtMost(a / 2, b / 2);
    }
  }

  /** Top of the range of entry i read as TOR; also the base of a TOR entry i + 1. */
  function TorPaddr(s: State, i: nat): (r: nat)
    requires s.Valid() && i < MAX_PMP
    ensures r < WORDS
  {
    AndAtMost(s.entries[i].val, TorMask(s.lg));
    4 * And(s.entries[i].val, TorMask(s.lg))
  }

  function TorBase(s: State, i: nat): (r: nat)
    requires s.Valid() && i < MAX_PMP
    ensures r < WORDS
  {
    if i == 0 then 0 else TorPaddr(s, i - 1)
  }

  /** The word whose trailing ones give the size of a NAPOT region. */
  function NapotWord(val: nat, na4: bool, lg: nat): (r: nat)
    requires val < PMPADDR_LIMIT && 2 <= lg < 64
    ensures r < Pow2(61) && Pow2(61) <= Pow2(64)
  {
    Pow2Values();
    Pow2Monotone(lg - 2, 61);
    OrBound(2 * val, if na4 then 0 else 1, 61);
    OrBound(Or(2 * val, if na4 then 0 else 1), Pow2(lg - 2) - 1, 61);
    Or(Or(2 * val, if na4 then 0 else 1), Pow2(lg - 2) - 1)
  }

  /** The address bits a NAPOT or NA4 entry with register value `val` compares. */
  function NapotMaskOf(val: nat, na4: bool, lg: nat): nat
    requires val < PMPADDR_LIMIT && 2 <= lg < 64
  {
    var mask := NapotWord(val, na4, lg);
    var ones := And(mask, Not(64, Inc(64, mask)));
    AndAtMost(mask, Not(64, Inc(64, mask)));
    4 * Not(64, ones) % WORDS
  }

  function NapotMask(s: State, i: nat): nat
    requires s.Valid() && i < MAX_PMP
  {
    NapotMaskOf(s.entries[i].val, s.Mode(i) == PMP_NA4, s.lg)
  }

  predicate Match4(s: State, i: nat, addr: nat)
    requires s.Valid() && i < MAX_PMP
  {
    if s.Mode(i) == 0 then false
    else if s.Mode(i) == PMP_TOR then TorBase(s, i) <= addr < TorPaddr(s, i)
    else And(Xor(addr, TorPaddr(s, i)), NapotMask(s, i)) == 0
  }

  /** The start of the page that holds x. */
  function PageOf(x: nat): nat {
    x - x % PGSIZE
  }

  /** The TOR half of `subset_match`, for a page-aligned block of PGSIZE bytes. */
  predicate TorHomogeneous(base: nat, tor: nat, page: nat) {
    var beginsAfterLower := page >= base;
    var beginsAfterUpper := page >= tor;
    var endsBeforeLower := PageOf(page) < PageOf(base);
    var endsBeforeUpper := PageOf(page) < PageOf(tor);
    endsBeforeLower || beginsAfterUpper || (beginsAfterLower && endsBeforeUpper)
  }

  /** The NAPOT/NA4 half of `subset_match`. */
  predicate NapotHomogeneous(napotMask: nat, tor: nat, page: nat) {
    And(WORDS - 1 - 2 * napotMask % WORDS, PGSIZE) != 0 || Xor(page, tor) / PGSIZE != 0
  }

  /** May entry i match a proper part of the page at `page`? */
  predicate SubsetMatch(s: State, i: nat, page: nat)
    requires s.Valid() && i < MAX_PMP
  {
    if s.Mode(i) == 0 then false
    else if s.Mode(i) == PMP_TOR then !TorHomogeneous(TorBase(s, i), TorPaddr(s, i), page)
    else !NapotHomogeneous(NapotMask(s, i), TorPaddr(s, i), page)
  }

  /** `page` is the start of a page of the 64-bit address space. */
  predicate IsPage(page: nat) {
    page % PGSIZE == 0 && page < WORDS
  }

  predicate InPage(page: nat, addr: nat) {
    page <= addr < page + PGSIZE
  }

  /** What entry i grants to an access it matches completely. */
  predicate AccessOk(s: State, i: nat, t: AccessType, mode: nat)
    requires s.Valid() && i < MAX_PMP
  {
    var cfg := s.entries[i].cfg;
    var x := cfg & PMP_X != 0;
    var w := cfg & PMP_W != 0;
    var r := cfg & PMP_R != 0;
    var l := cfg & PMP_L != 0;
    var prvm := mode == PRV_M;
    var normal := (t == Load && r) || (t == Store && w) || (t == Fetch && x);
    if s.Mml() then
      if x && w && r && l then t == Load
      else if !r && w then
        || (!l && x && (t == Load || t == Store))
        || (!l && !x && (t == Load || (t == Store && prvm)))
        || (l && t == Fetch)
        || (l && t == Load && x && prvm)
      else prvm == l && normal
    else (prvm && !l) || normal
  }

  // ---------------------------------------------------------------------------------------
  // The check of one access
  // ---------------------------------------------------------------------------------------

  /** Does entry i match the address `o` bytes into an access at `addr`? */
  function MatchAt(s: State, i: nat, addr: nat): nat -> bool
    requires s.Valid() && i < MAX_PMP
  {
    (o: nat) => Match4(s, i, (addr + o) % WORDS)
  }

  /** Offsets at which an access of `len` bytes is checked: one for each 4-byte step. */
  predicate Sector(o: nat, len: nat) {
    o < len && o % 4 == 0
  }

  ghost predicate AnySector(f: nat -> bool, len: nat) {
    exists o: nat :: Sector(o, len) && f(o)
  }

  ghost predicate AllSectors(f: nat -> bool, len: nat) {
    forall o: nat :: Sector(o, len) ==> f(o)
  }

  predicate NoMatchAllows(s: State, t: AccessType, mode: nat) {
    mode == PRV_M && !s.Mmwp() && (!s.Mml() || t == Load || t == Store)
  }

  /** The lowest-numbered entry from i on that matches any sector decides. */
  ghost predicate AllowedFrom(s: State, i: nat, addr: nat, len: nat, t: AccessType, mode: nat)
    requires s.Valid() && i <= s.n
    decreases s.n - i
  {
    if i == s.n then NoMatchAllows(s, t, mode)
    else if AnySector(MatchAt(s, i, addr), len) then AllSectors(MatchAt(s, i, addr), len) && AccessOk(s, i, t, mode)
    else AllowedFrom(s, i + 1, addr, len, t, mode)
  }

  ghost predicate Allowed(s: State, addr: nat, len: nat, t: AccessType, mode: nat)
    requires s.Valid()
  {
    s.n == 0 || AllowedFrom(s, 0, addr, len, t, mode)
  }

  /** The page test: no implemented entry may cut through the page. */
  ghost predicate Homogeneous(s: State, page: nat)
    requires s.Valid()
  {
    forall i: nat :: i < s.n ==> !SubsetMatch(s, i, page)
  }

  method MatchSectors(f: nat -> bool, len: nat) returns (anyMatch: bool, allMatch: bool)
    ensures anyMatch == AnySector(f, len)
    ensures allMatch == AllSectors(f, len)
  {
    anyMatch, allMatch := false, true;
    var offset := 0;
    while offset < len
      invariant offset % 4 == 0
      invariant anyMatch == exists o: nat :: o < offset && Sector(o, len) && f(o)
      invariant allMatch == forall o: nat :: o < offset && Sector(o, len) ==> f(o)
    {
      assert Sector(offset, len);
      var m := f(offset);
      anyMatch := anyMatch || m;
      allMatch := allMatch && m;
      offset := offset + 4;
    }
  }

  /** The check the simulator makes on every physical access. */
  method PmpOk(s: State, addr: nat, len: nat, t: AccessType, mode: nat) returns (ok: bool)
    requires s.Valid()
    ensures ok == Allowed(s, addr, len, t, mode)
  {
    if s.n == 0 {
      return true;
    }
    var i := 0;
    while i < s.n
      invariant i <= s.n
      invariant Allowed(s, addr, len, t, mode) == AllowedFrom(s, i, addr, len, t, mode)
    {
      var anyMatch, allMatch := MatchSectors(MatchAt(s, i, addr), len);
      if anyMatch {
        if !allMatch {
          return false;
        }
        return AccessOk(s, i, t, mode);
      }
      i := i + 1;
    }
    return NoMatchAllows(s, t, mode);
  }

  method PmpHomogeneous(s: State, page: nat) returns (ok: bool)
    requires s.Valid() && IsPage(page)
    ensures ok == Homogeneous(s, page)
  {
    var i := 0;
    while i < s.n
      invariant i <= s.n
      invariant forall j: nat :: j < i ==> !SubsetMatch(s, j, page)
    {
      var partial := SubsetMatch(s, i, page);
      if partial {
        return false;
      }
      i := i + 1;
    }
    return true;
  }

  // ---------------------------------------------------------------------------------------
  // A homogeneous page is decided as one unit
  // ---------------------------------------------------------------------------------------

  lemma {:induction false} ShiftedComplement(p: nat)
    requires p <= 61
    ensures 4 * (Pow2(64) - Pow2(p)) % WORDS == Pow2(64) - Pow2(p + 2)
    ensures 2 * (Pow2(64) - Pow2(p + 2)) % WORDS == Pow2(64) - Pow2(p + 3)
  {
    Pow2Values();
    Pow2Monotone(p, 61);
    assert Pow2(p + 3) == 2 * Pow2(p + 2) && Pow2(p + 2) == 2 * Pow2(p + 1) && Pow2(p + 1) == 2 * Pow2(p);
    DivModUnique(4 * (Pow2(64) - Pow2(p)), WORDS, 3, WORDS - Pow2(p + 2));
    DivModUnique(2 * (Pow2(64) - Pow2(p + 2)), WORDS, 1, WORDS - Pow2(p + 3));
  }

  lemma {:induction false} OnesBelow(k: nat)
    requires Pow2(k) - 1 < Pow2(61)
    ensures k <= 61 && Pow2(k) <= Pow2(64)
  {
    if k > 61 {
      Pow2Monotone(61, k);
    }
    Pow2Monotone(k, 64);
  }

  lemma {:induction false} NapotRegionSize(val: nat, na4: bool, lg: nat) returns (k: nat)
    requires val < PMPADDR_LIMIT && 2 <= lg < 64
    ensures k <= 61 && Pow2(k) <= Pow2(64)
    ensures NapotMaskOf(val, na4, lg) == 4 * (Pow2(64) - Pow2(k)) % WORDS
  {
    var mask := NapotWord(val, na4, lg);
    k := TrailingOnes(64, mask);
    OnesBelow(k);
    MaskOfOnes(val, na4, lg, mask, k);
  }

  lemma {:induction false} MaskOfOnes(val: nat, na4: bool, lg: nat, mask: nat, k: nat)
    requires val < PMPADDR_LIMIT && 2 <= lg < 64 && mask == NapotWord(val, na4, lg) && Pow2(k) <= Pow2(64)
    requires And(mask, Not(64, Inc(64, mask))) == Pow2(k) - 1
    ensures NapotMaskOf(val, na4, lg) == 4 * (Pow2(64) - Pow2(k)) % WORDS
  {
    var ones := Pow2(k) - 1;
    assert Not(64, ones) == Pow2(64) - Pow2(k);
    MaskOf(val, na4, lg, mask, ones);
  }

  lemma {:induction false} MaskOf(val: nat, na4: bool, lg: nat, mask: nat, ones: nat)
    requires val < PMPADDR_LIMIT && 2 <= lg < 64 && mask == NapotWord(val, na4, lg)
    requires ones == And(mask, Not(64, Inc(64, mask))) && ones < Pow2(64)
    ensures NapotMaskOf(val, na4, lg) == 4 * Not(64, ones) % WORDS
  {
  }

  /** A NAPOT or NA4 entry compares exactly the address bits from some position r up. */
  lemma {:induction false} NapotMaskShape(val: nat, na4: bool, lg: nat) returns (r: nat)
    requires val < PMPADDR_LIMIT && 2 <= lg < 64
    ensures 2 <= r <= 63 && Pow2(r) <= Pow2(64)
    ensures NapotMaskOf(val, na4, lg) == Pow2(64) - Pow2(r)
  {
    var k := NapotRegionSize(val, na4, lg);
    ShiftedComplement(k);
    r := k + 2;
    Pow2Monotone(r, 64);
  }

  lemma {:induction false} MaskWord(r: nat)
    requires 2 <= r <= 63
    ensures Pow2(r) <= Pow2(64) && WORDS - 1 - 2 * (Pow2(64) - Pow2(r)) % WORDS == Pow2(r + 1) - 1
    ensures PGSIZE == Pow2(12)
  {
    ShiftedComplement(r - 2);
    Pow2Monotone(r, 64);
    Pow2Monotone(r + 1, 64);
    Pow2Values();
  }

  lemma {:induction false} MaskTest(m: nat, r: nat)
    requires 2 <= r <= 63 && Pow2(r) <= Pow2(64) && m == Pow2(64) - Pow2(r)
    ensures And(WORDS - 1 - 2 * m % WORDS, PGSIZE) != 0 <==> r >= 12
  {
    MaskWord(r);
    AndSingleBit(r + 1, 12);
  }

  lemma {:induction false} PageNumber(x: nat, q: nat)
    requires q == 12
    ensures Shr(x, q) == x / PGSIZE
  {
    ShrIsDiv(x, q);
    Pow2Values();
  }

  lemma {:induction false} SamePage(page: nat, a: nat)
    requires IsPage(page)
    ensures InPage(page, a) <==> a / PGSIZE == page / PGSIZE
  {
  }

  lemma {:induction false} NapotMatches(m: nat, r: nat, tor: nat, addr: nat)
    requires r <= 63 && Pow2(r) <= Pow2(64) && m == Pow2(64) - Pow2(r) && addr < WORDS && tor < WORDS
    ensures And(Xor(addr, tor), m) == 0 <==> Shr(addr, r) == Shr(tor, r)
  {
    Pow2Values();
    SameHighBits(64, r, addr, tor);
  }

  lemma {:induction false} NapotTest(m: nat, r: nat, tor: nat, page: nat, q: nat)
    requires 2 <= r <= 63 && Pow2(r) <= Pow2(64) && m == Pow2(64) - Pow2(r) && q == 12
    ensures NapotHomogeneous(m, tor, page) <==> r >= q || Shr(page, q) != Shr(tor, q)
  {
    MaskTest(m, r);
    XorBelow(page, tor, q);
    PageNumber(Xor(page, tor), q);
  }

  lemma {:induction false} SamePageShr(page: nat, a: nat, q: nat)
    requires IsPage(page) && q == 12
    ensures InPage(page, a) <==> Shr(a, q) == Shr(page, q)
  {
    PageNumber(a, q);
    PageNumber(page, q);
    SamePage(page, a);
  }

  lemma {:induction false} NapotUniform(m: nat, r: nat, tor: nat, page: nat, a: nat)
    requires 2 <= r <= 63 && Pow2(r) <= Pow2(64) && m == Pow2(64) - Pow2(r) && tor < WORDS
    requires IsPage(page) && InPage(page, a) && NapotHomogeneous(m, tor, page)
    ensures And(Xor(a, tor), m) == 0 <==> And(Xor(page, tor), m) == 0
  {
    var q :| q == 12;
    NapotMatches(m, r, tor, a);
    NapotMatches(m, r, tor, page);
    NapotTest(m, r, tor, page, q);
    SamePageShr(page, a, q);
    HighBitsUniform(r, q, tor, a, page);
  }

  lemma {:induction false} TorUniform(base: nat, tor: nat, page: nat, a: nat)
    requires IsPage(page) && InPage(page, a) && TorHomogeneous(base, tor, page)
    ensures base <= a < tor <==> base <= page < tor
  {
  }

  /** An entry that passes the page test matches all of the page or none of it. */
  lemma {:induction false} EntryUniform(s: State, i: nat, page: nat, a: nat)
    requires s.Valid() && i < MAX_PMP && IsPage(page) && InPage(page, a)
    requires !SubsetMatch(s, i, page)
    ensures Match4(s, i, a) == Match4(s, i, page)
  {
    if s.Mode(i) == PMP_TOR {
      TorUniform(TorBase(s, i), TorPaddr(s, i), page, a);
    } else if s.Mode(i) != 0 {
      var r := NapotMaskShape(s.entries[i].val, s.Mode(i) == PMP_NA4, s.lg);
      NapotUniform(NapotMask(s, i), r, TorPaddr(s, i), page, a);
    }
  }

  /** An access of at least one byte, all of whose bytes lie in the page. */
  predicate AccessInPage(page: nat, addr: nat, len: nat) {
    page <= addr && 0 < len && addr + len <= page + PGSIZE
  }

  lemma {:induction false} SectorsUniform(f: nat -> bool, len: nat, v: bool)
    requires 0 < len && forall o: nat :: Sector(o, len) ==> f(o) == v
    ensures AnySector(f, len) == AllSectors(f, len) == v
  {
    assert Sector(0, len);
  }

  lemma {:induction false} EntryDecidesPage(s: State, i: nat, page: nat, addr: nat, len: nat)
    requires s.Valid() && i < MAX_PMP && IsPage(page) && AccessInPage(page, addr, len)
    requires !SubsetMatch(s, i, page)
    ensures AnySector(MatchAt(s, i, addr), len) == AllSectors(MatchAt(s, i, addr), len) == Match4(s, i, page)
  {
    var f := MatchAt(s, i, addr);
    forall o: nat | Sector(o, len)
      ensures f(o) == Match4(s, i, page)
    {
      EntryUniform(s, i, page, addr + o);
    }
    SectorsUniform(f, len, Match4(s, i, page));
  }

  lemma {:induction false} PageAllowedFrom(s: State, page: nat, i: nat,
                                           a1: nat, n1: nat, a2: nat, n2: nat, t: AccessType, mode: nat)
    requires s.Valid() && i <= s.n && IsPage(page) && Homogeneous(s, page)
    requires AccessInPage(page, a1, n1) && AccessInPage(page, a2, n2)
    ensures AllowedFrom(s, i, a1, n1, t, mode) == AllowedFrom(s, i, a2, n2, t, mode)
    decreases s.n - i
  {
    if i < s.n {
      EntryDecidesPage(s, i, page, a1, n1);
      EntryDecidesPage(s, i, page, a2, n2);
      PageAllowedFrom(s, page, i + 1, a1, n1, a2, n2, t, mode);
    }
  }

  /**
    If the page test accepts a page, every access inside the page gets the same answer, whatever
    its address and length, for each access type and privilege mode.
    */
  lemma {:induction false} HomogeneousPageDecides(s: State, page: nat, a1: nat, n1: nat, a2: nat, n2: nat,
                                                  t: AccessType, mode: nat)
    requires s.Valid() && IsPage(page) && Homogeneous(s, page)
    requires AccessInPage(page, a1, n1) && AccessInPage(page, a2, n2)
    ensures Allowed(s, a1, n1, t, mode) == Allowed(s, a2, n2, t, mode)
  {
    if s.n != 0 {
      PageAllowedFrom(s, page, 0, a1, n1, a2, n2, t, mode);
    }
  }

  lemma {:induction false} TorPartial(s: State, i: nat, page: nat) returns (hit: nat, miss: nat)
    requires s.Valid() && i < MAX_PMP && IsPage(page)
    requires s.Mode(i) == PMP_TOR && TorBase(s, i) < TorPaddr(s, i) && SubsetMatch(s, i, page)
    ensures InPage(page, hit) && InPage(page, miss) && Match4(s, i, hit) && !Match4(s, i, miss)
  {
    if page < TorBase(s, i) {
      hit, miss := TorBase(s, i), page;
    } else {
      hit, miss := page, TorPaddr(s, i);
    }
  }

  /** The address half a page away from x within the same page. */
  function OtherHalf(x: nat): nat {
    if x % PGSIZE < 0x800 then x + 0x800 else x - 0x800
  }

  lemma {:induction false} OtherHalfBound(x: nat)
    requires x < WORDS
    ensures OtherHalf(x) < WORDS
  {
  }

  lemma {:induction false} OtherHalfMisses(x: nat, r: nat, q: nat)
    requires r <= q == 11
    ensures Shr(OtherHalf(x), r) != Shr(x, r)
  {
    ShrCompose(x, r, q - r);
    ShrCompose(OtherHalf(x), r, q - r);
    ShrIsDiv(x, q);
    ShrIsDiv(OtherHalf(x), q);
    Pow2Values();
    assert Pow2(q + 1) == 2 * Pow2(q);
  }

  lemma {:induction false} OtherHalfInPage(page: nat, x: nat)
    requires IsPage(page) && InPage(page, x)
    ensures InPage(page, OtherHalf(x))
  {
  }

  lemma {:induction false} NapotPartial(m: nat, r: nat, tor: nat, page: nat, q: nat)
    requires 2 <= r <= 63 && Pow2(r) <= Pow2(64) && m == Pow2(64) - Pow2(r) && q == 12
    requires IsPage(page) && !NapotHomogeneous(m, tor, page)
    ensures r < q && InPage(page, tor) && InPage(page, OtherHalf(tor))
  {
    assert r < q && Shr(page, q) == Shr(tor, q) by {
      NapotTest(m, r, tor, page, q);
    }
    SamePageShr(page, tor, q);
    OtherHalfInPage(page, tor);
  }

  lemma {:induction false} NapotHitAndMiss(m: nat, r: nat, tor: nat)
    requires 2 <= r <= 11 && Pow2(r) <= Pow2(64) && m == Pow2(64) - Pow2(r) && tor < WORDS
    ensures And(Xor(tor, tor), m) == 0 && And(Xor(OtherHalf(tor), tor), m) != 0
  {
    NapotMatches(m, r, tor, tor);
    OtherHalfBound(tor);
    NapotMatches(m, r, tor, OtherHalf(tor));
    OtherHalfMisses(tor, r, 11);
  }

  /**
    The page test on one entry is exact, not only safe: it reports a partial match if and only if
    the entry matches some address of the page and misses another. The one family it over-reports
    is a TOR entry whose range is empty.
    */
  lemma {:induction false} SubsetMatchExact(s: State, i: nat, page: nat)
    requires s.Valid() && i < MAX_PMP && IsPage(page)
    requires s.Mode(i) == PMP_TOR ==> TorBase(s, i) < TorPaddr(s, i)
    ensures SubsetMatch(s, i, page) <==>
            exists a: nat, b: nat :: InPage(page, a) && InPage(page, b) && Match4(s, i, a) && !Match4(s, i, b)
  {
    if SubsetMatch(s, i, page) {
      if s.Mode(i) == PMP_TOR {
        var hit, miss := TorPartial(s, i, page);
      } else {
        var r := NapotMaskShape(s.entries[i].val, s.Mode(i) == PMP_NA4, s.lg);
        var tor := TorPaddr(s, i);
        NapotPartial(NapotMask(s, i), r, tor, page, 12);
        NapotHitAndMiss(NapotMask(s, i), r, tor);
        assert Match4(s, i, tor) && !Match4(s, i, OtherHalf(tor));
      }
    } else {
      forall a: nat, b: nat | InPage(page, a) && InPage(page, b)
        ensures Match4(s, i, a) == Match4(s, i, b)
      {
        EntryUniform(s, i, page, a);
        EntryUniform(s, i, page, b);
      }
    }
  }

  /** For an empty TOR range the test reports a partial match exactly when the page straddles both bounds. */
  lemma {:induction false} EmptyTorRange(s: State, i: nat, page: nat)
    requires s.Valid() && i < MAX_PMP && IsPage(page)
    requires s.Mode(i) == PMP_TOR && TorBase(s, i) >= TorPaddr(s, i)
    ensures forall a: nat :: !Match4(s, i, a)
    ensures SubsetMatch(s, i, page) <==> page < TorPaddr(s, i) && TorBase(s, i) < page + PGSIZE
  {
  }

  // ---------------------------------------------------------------------------------------
  // What an entry matches
  // ---------------------------------------------------------------------------------------

  /** What reading pmpaddr i gives: bits below the granularity read as ones or zeros. */
  function ReadAddr(s: State, i: nat): nat
    requires s.Valid() && i < MAX_PMP
  {
    if s.Mode(i) == PMP_NAPOT then NapotRead(s.entries[i].val, s.lg)
    else And(s.entries[i].val, TorMask(s.lg))
  }

  function NapotRead(val: nat, lg: nat): nat
    requires lg >= 2
  {
    Or(val, (Pow2(lg - 2) - 1) / 2)
  }

  lemma {:induction false} TorRounds(s: State, i: nat)
    requires s.Valid() && i < MAX_PMP
    ensures And(s.entries[i].val, TorMask(s.lg)) == s.entries[i].val - s.entries[i].val % Pow2(s.lg - 2)
  {
    Pow2Values();
    AndHighMask(64, s.lg - 2, s.entries[i].val);
  }

  /** Words of the granularity are four bytes each. */
  lemma {:induction false} WordsToBytes(v: nat, lg: nat)
    requires lg >= 2
    ensures 4 * (v - v % Pow2(lg - 2)) == 4 * v - 4 * v % Pow2(lg)
  {
    ModDigit(4 * v, lg);
    ModDigit(2 * v, lg - 1);
  }

  /**
    A TOR entry matches exactly the addresses from four times the register in front of it to four
    times its own, both rounded down to the granularity; entry 0 starts at 0.
    */
  lemma {:induction false} TorRegion(s: State, i: nat, a: nat)
    requires s.Valid() && i < MAX_PMP && s.entries[i].cfg & 0x18 == 0x08
    ensures var top := 4 * s.entries[i].val;
            var low := if i == 0 then 0 else 4 * s.entries[i - 1].val;
            Match4(s, i, a) <==> low - low % Pow2(s.lg) <= a < top - top % Pow2(s.lg)
  {
    TorTop(s, i);
    if i > 0 {
      TorTop(s, i - 1);
    }
  }

  lemma {:induction false} TorTop(s: State, i: nat)
    requires s.Valid() && i < MAX_PMP
    ensures TorPaddr(s, i) == 4 * s.entries[i].val - 4 * s.entries[i].val % Pow2(s.lg)
  {
    TorRounds(s, i);
    WordsToBytes(s.entries[i].val, s.lg);
  }

  /** An entry that is off matches nothing. */
  lemma {:induction false} OffRegion(s: State, i: nat, a: nat)
    requires s.Valid() && i < MAX_PMP && s.entries[i].cfg & 0x18 == 0
    ensures !Match4(s, i, a)
  {
  }

  lemma {:induction false} HalfOnes(g: nat) returns (j: nat)
    ensures (Pow2(g) - 1) / 2 == Pow2(j) - 1 && j <= g <= j + 1
  {
    j := if g == 0 then 0 else g - 1;
  }

  /** The word that the code builds is what the register reads as, with a one behind it. */
  lemma {:induction false} WordIsRead(val: nat, lg: nat)
    requires val < PMPADDR_LIMIT && 2 <= lg < 64
    ensures NapotWord(val, false, lg) == 2 * NapotRead(val, lg) + 1
  {
    var ones := Pow2(lg - 2) - 1;
    assert Or(2 * val, 1) == 2 * val + 1 by {
      OrDigits(2 * val, 1);
      OrZero(val);
    }
    OrDigits(2 * val + 1, ones);
    assert (2 * val + 1) / 2 == val && (2 * val + 1) % 2 == 1;
  }

  /** From how many ones it ends in follows which address bits are compared. */
  lemma {:induction false} NapotMaskIs(val: nat, lg: nat, k: nat)
    requires val < PMPADDR_LIMIT && 2 <= lg < 64 && Low(NapotRead(val, lg), k + 1) == Pow2(k) - 1
    ensures k + 3 <= 63 && Pow2(k + 3) <= Pow2(64) && NapotMaskOf(val, false, lg) == Pow2(64) - Pow2(k + 3)
  {
    var m := NapotWord(val, false, lg);
    WordIsRead(val, lg);
    var ones := OnesOfWord(m, NapotRead(val, lg), k, 64);
    MaskOfOnes(val, false, lg, m, ones);
    ShiftedComplement(ones);
    Pow2Monotone(k + 3, 64);
  }

  lemma {:induction false} OnesOfWord(m: nat, rd: nat, k: nat, n: nat) returns (ones: nat)
    requires n == 64 && m < Pow2(61) <= Pow2(n) && m == 2 * rd + 1 && Low(rd, k + 1) == Pow2(k) - 1
    ensures ones == k + 1 <= 61 && Pow2(ones) <= Pow2(64) && And(m, Not(n, Inc(n, m))) == Pow2(ones) - 1
  {
    ones := k + 1;
    OneMore(rd, k);
    OnesBelow(ones);
    ExactOnes(n, m, ones);
  }

  lemma {:induction false} OneMore(rd: nat, k: nat)
    requires Low(rd, k + 1) == Pow2(k) - 1
    ensures Low(2 * rd + 1, k + 2) == Pow2(k + 1) - 1 && Pow2(k + 1) - 1 <= 2 * rd + 1
  {
    assert (2 * rd + 1) / 2 == rd && (2 * rd + 1) % 2 == 1;
  }

  /** Above its trailing ones the register reads as it was written. */
  lemma {:induction false} ReadAbove(val: nat, lg: nat, k: nat)
    requires lg >= 2 && Low(NapotRead(val, lg), k + 1) == Pow2(k) - 1
    ensures lg - 2 <= k + 1 && Shr(NapotRead(val, lg), k + 1) == Shr(val, k + 1)
  {
    var j := HalfOnes(lg - 2);
    var rd := Or(val, Pow2(j) - 1);
    OrLowOnes(val, j);
    if k < j {
      FewerOnes(rd, j, k + 1);
    }
    ShrAbove(rd, val, j, k + 1);
  }

  /**
    A NAPOT entry whose register reads as a number that ends in a zero and k ones matches exactly one
    naturally aligned region of 2^(k + 3) bytes, the one whose number stands above these bits.
    */
  lemma {:induction false} NapotRegion(s: State, i: nat, k: nat, a: nat)
    requires s.Valid() && i < MAX_PMP && s.entries[i].cfg & 0x18 == 0x18 && a < WORDS
    requires ReadAddr(s, i) % Pow2(k + 1) == Pow2(k) - 1
    ensures Match4(s, i, a) <==> a / Pow2(k + 3) == ReadAddr(s, i) / Pow2(k + 1)
  {
    var rd := ReadAddr(s, i);
    LowIsMod(rd, k + 1);
    NapotMatch(s, i, k, a, rd);
    ShrIsDiv(a, k + 3);
    ShrIsDiv(rd, k + 1);
  }

  lemma {:induction false} NapotMatch(s: State, i: nat, k: nat, a: nat, rd: nat)
    requires s.Valid() && i < MAX_PMP && s.Mode(i) == PMP_NAPOT && a < WORDS
    requires rd == NapotRead(s.entries[i].val, s.lg) && Low(rd, k + 1) == Pow2(k) - 1
    ensures Match4(s, i, a) <==> Shr(a, k + 3) == Shr(rd, k + 1)
  {
    var r := k + 3;
    MaskHere(s, i, k, r, rd);
    assert Shr(TorPaddr(s, i), r) == Shr(rd, k + 1) by {
      ReadAbove(s.entries[i].val, s.lg, k);
      TopBits(s, i, k);
    }
    Compares(s, i, r, a);
  }

  lemma {:induction false} MaskHere(s: State, i: nat, k: nat, r: nat, rd: nat)
    requires s.Valid() && i < MAX_PMP && s.Mode(i) == PMP_NAPOT && r == k + 3
    requires rd == NapotRead(s.entries[i].val, s.lg) && Low(rd, k + 1) == Pow2(k) - 1
    ensures r <= 63 && Pow2(r) <= Pow2(64) && NapotMask(s, i) == Pow2(64) - Pow2(r)
  {
    NapotMaskIs(s.entries[i].val, s.lg, k);
  }

  /** A mask of all bits from r on compares these bits. */
  lemma {:induction false} Compares(s: State, i: nat, r: nat, a: nat)
    requires s.Valid() && i < MAX_PMP && s.Mode(i) != 0 && s.Mode(i) != PMP_TOR && a < WORDS
    requires r <= 63 && Pow2(r) <= Pow2(64) && NapotMask(s, i) == Pow2(64) - Pow2(r)
    ensures Match4(s, i, a) <==> Shr(a, r) == Shr(TorPaddr(s, i), r)
  {
    NapotMatches(NapotMask(s, i), r, TorPaddr(s, i), a);
  }

  lemma {:induction false} TopBits(s: State, i: nat, k: nat)
    requires s.Valid() && i < MAX_PMP && s.lg - 2 <= k + 1
    ensures Shr(TorPaddr(s, i), k + 3) == Shr(s.entries[i].val, k + 1)
  {
    var val, g := s.entries[i].val, s.lg - 2;
    TorRounds(s, i);
    LowIsMod(val, g);
    ShrCleared(val, g, k + 1);
    ShrFour(val - Low(val, g), k + 1);
  }

  lemma {:induction false} ShrFour(x: nat, k: nat)
    ensures Shr(4 * x, k + 2) == Shr(x, k)
  {
    assert Shr(4 * x, k + 2) == Shr(2 * x, k + 1);
  }

  /** An NA4 entry, which there is with a granularity of four bytes only, matches these four bytes. */
  lemma {:induction false} Na4Region(s: State, i: nat, a: nat)
    requires s.Valid() && i < MAX_PMP && s.entries[i].cfg & 0x18 == 0x10 && s.lg == 2 && a < WORDS
    ensures Match4(s, i, a) <==> a / 4 == s.entries[i].val
  {
    var val := s.entries[i].val;
    Na4Mask(val, 2);
    Compares(s, i, 2, a);
    Na4Bits(s, i);
    ShrIsDiv(a, 2);
    Pow2Values();
  }

  lemma {:induction false} Na4Bits(s: State, i: nat)
    requires s.Valid() && i < MAX_PMP && s.lg == 2
    ensures Shr(TorPaddr(s, i), 2) == s.entries[i].val
  {
    TorRounds(s, i);
    ShrFour(s.entries[i].val, 0);
  }

  lemma {:induction false} Na4Mask(val: nat, lg: nat)
    requires val < PMPADDR_LIMIT && lg == 2
    ensures Pow2(2) <= Pow2(64) && NapotMaskOf(val, true, lg) == Pow2(64) - Pow2(2)
  {
    Na4Word(val, lg);
    NoOnes(2 * val, 64);
    Pow2Monotone(2, 64);
    MaskOfOnes(val, true, lg, 2 * val, 0);
    ShiftedComplement(0);
  }

  lemma {:induction false} Na4Word(val: nat, lg: nat)
    requires val < PMPADDR_LIMIT && lg == 2
    ensures NapotWord(val, true, lg) == 2 * val
  {
    OrZero(2 * val);
  }

  lemma {:induction false} NoOnes(m: nat, n: nat)
    requires m % 2 == 0 && m < Pow2(n)
    ensures And(m, Not(n, Inc(n, m))) == Pow2(0) - 1
  {
    ExactOnes(n, m, 0);
  }

  // ---------------------------------------------------------------------------------------
  // Who may do what
  // ---------------------------------------------------------------------------------------

  /** The entry decides about the access: it matches all of it, and no earlier entry matches any of it. */
  ghost predicate DecidedBy(s: State, i: nat, addr: nat, len: nat)
    requires s.Valid()
  {
    && i < s.n && 0 < len && AllSectors(MatchAt(s, i, addr), len)
    && forall j: nat :: j < i ==> !AnySector(MatchAt(s, j, addr), len)
  }

  lemma {:induction false} FirstMatchFrom(s: State, k: nat, i: nat, addr: nat, len: nat, t: AccessType, mode: nat)
    requires s.Valid() && k <= i <= s.n && forall j: nat :: j < i ==> !AnySector(MatchAt(s, j, addr), len)
    ensures AllowedFrom(s, k, addr, len, t, mode) == AllowedFrom(s, i, addr, len, t, mode)
    decreases i - k
  {
    if k < i {
      FirstMatchFrom(s, k + 1, i, addr, len, t, mode);
    }
  }

  /**
    The rights that Smepmp gives with MML set, by the lock, read, write and execute bit of a rule:
    first those of machine mode, then those of the other modes.
    */
  const SMEPMP: seq<(set<AccessType>, set<AccessType>)> := [
    ({}, {}),                          // ----
    ({}, {Fetch}),                     // ---X
    ({Load, Store}, {Load}),           // --W-   shared data
    ({Load, Store}, {Load, Store}),    // --WX   shared data
    ({}, {Load}),                      // -R--
    ({}, {Load, Fetch}),               // -R-X
    ({}, {Load, Store}),               // -RW-
    ({}, {Load, Store, Fetch}),        // -RWX
    ({}, {}),                          // L---
    ({Fetch}, {}),                     // L--X
    ({Fetch}, {Fetch}),                // L-W-   shared code
    ({Load, Fetch}, {Fetch}),          // L-WX   shared code
    ({Load}, {}),                      // LR--
    ({Load, Fetch}, {}),               // LR-X
    ({Load, Store}, {}),               // LRW-
    ({Load}, {Load})                   // LRWX   shared data
  ]

  /** The number of a row: its lock, read, write and execute bit. */
  function RowOf(cfg: bv8): (i: nat)
    ensures i < 16
  {
    (if cfg & 0x80 != 0 then 8 else 0) + (if cfg & 0x01 != 0 then 4 else 0)
    + (if cfg & 0x02 != 0 then 2 else 0) + (if cfg & 0x04 != 0 then 1 else 0)
  }

  /**
    What the entry that decides grants. Without MML: anything to machine mode if it is not locked,
    else loads with R, stores with W and fetches with X. With MML: the row of the table.
    */
  lemma {:induction false} Granted(s: State, i: nat, addr: nat, len: nat, t: AccessType, mode: nat)
    requires s.Valid() && DecidedBy(s, i, addr, len)
    ensures var cfg := s.entries[i].cfg;
            Allowed(s, addr, len, t, mode) <==>
            if s.mseccfg & 1 == 0 then
              (mode == 3 && cfg & 0x80 == 0)
              || (match t case Load => cfg & 0x01 != 0 case Store => cfg & 0x02 != 0 case Fetch => cfg & 0x04 != 0)
            else if mode == 3 then t in SMEPMP[RowOf(cfg)].0 else t in SMEPMP[RowOf(cfg)].1
  {
    FirstMatchFrom(s, 0, i, addr, len, t, mode);
    assert Sector(0, len);
    assert AnySector(MatchAt(s, i, addr), len);
    assert Allowed(s, addr, len, t, mode) == AccessOk(s, i, t, mode);
    AccessTable(s, i, t, mode);
  }

  lemma {:induction false} AccessTable(s: State, i: nat, t: AccessType, mode: nat)
    requires s.Valid() && i < MAX_PMP
    ensures var cfg := s.entries[i].cfg;
            AccessOk(s, i, t, mode) <==>
            if s.mseccfg & 1 == 0 then
              (mode == 3 && cfg & 0x80 == 0)
              || (match t case Load => cfg & 0x01 != 0 case Store => cfg & 0x02 != 0 case Fetch => cfg & 0x04 != 0)
            else if mode == 3 then t in SMEPMP[RowOf(cfg)].0 else t in SMEPMP[RowOf(cfg)].1
  {
  }

  /** An access that the first entry to match it matches in part is refused. */
  lemma {:induction false} PartRefused(s: State, i: nat, addr: nat, len: nat, t: AccessType, mode: nat)
    requires s.Valid() && i < s.n && (forall j: nat :: j < i ==> !AnySector(MatchAt(s, j, addr), len))
    requires AnySector(MatchAt(s, i, addr), len) && !AllSectors(MatchAt(s, i, addr), len)
    ensures !Allowed(s, addr, len, t, mode)
  {
    FirstMatchFrom(s, 0, i, addr, len, t, mode);
  }

  /**
    What no entry matches is allowed to machine mode, unless MMWP is set, or MML is set and it is a
    fetch; to the other modes it is refused. Without any entries everything is allowed.
    */
  lemma {:induction false} UnmatchedGranted(s: State, addr: nat, len: nat, t: AccessType, mode: nat)
    requires s.Valid() && forall j: nat :: j < s.n ==> !AnySector(MatchAt(s, j, addr), len)
    ensures Allowed(s, addr, len, t, mode) <==>
            s.n == 0 || (mode == 3 && s.mseccfg & 2 == 0 && (s.mseccfg & 1 == 0 || t != Fetch))
  {
    FirstMatchFrom(s, 0, s.n, addr, len, t, mode);
  }
}
