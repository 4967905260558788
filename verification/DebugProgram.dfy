/**
  Abstract commands: the instructions that the debug module assembles for a register access, and
  what a hart has done once it executed them.
  */
module DebugProgram {
  import opened Bits
  import opened DebugIsa
  import opened DebugHart

  // ---------------------------------------------------------------------------------------
  // Assembling
  // ---------------------------------------------------------------------------------------

  datatype Config = Config(csrAccess: bool, fprAccess: bool)

  datatype Code = Words(words: seq<nat>) | Custom | NotSupported

  predicate IsFpu(regno: nat) {
    (0x1020 <= regno <= 0x103f) || FpCsr(regno)
  }

  /** Saves s0 and mstatus and switches the floating-point unit on. */
  function Prologue(): seq<nat> {
    [csrw(S0, CSR_DSCRATCH0), csrr(S0, CSR_MSTATUS), csrw(S0, CSR_DSCRATCH1), lui(S0, MSTATUS_FS / 0x1000),
      csrrs(ZERO, S0, CSR_MSTATUS)]
  }

  /** Restores mstatus and s0. */
  function Epilogue(): seq<nat> {
    [csrr(S0, CSR_DSCRATCH1), csrw(S0, CSR_MSTATUS), csrr(S0, CSR_DSCRATCH0)]
  }

  function CsrCode(write: bool, wide: bool, regno: nat): seq<nat> {
    if write then [if wide then ld(S0, ZERO, DATA) else lw(S0, ZERO, DATA), csrw(S0, regno)]
    else [csrr(S0, regno), if wide then sd(S0, ZERO, DATA) else sw(S0, ZERO, DATA)]
  }

  function GprCode(write: bool, wide: bool, r: nat): seq<nat> {
    [if write then (if wide then ld(r, ZERO, DATA) else lw(r, ZERO, DATA))
     else (if wide then sd(r, ZERO, DATA) else sw(r, ZERO, DATA))]
    + (if r == S0 && write then [csrw(S0, CSR_DSCRATCH0)] else [])
  }

  function FprCode(write: bool, wide: bool, r: nat): seq<nat> {
    [if write then (if wide then fld(r, ZERO, DATA) else flw(r, ZERO, DATA))
     else (if wide then fsd(r, ZERO, DATA) else fsw(r, ZERO, DATA))]
  }

  /** The words for moving a register to or from the data words. */
  function TransferCode(cfg: Config, write: bool, size: nat, regno: nat): Code {
    var wide := size == 3;
    if regno < 0x1000 && cfg.csrAccess then
      if size != 2 && size != 3 then NotSupported
      else if IsFpu(regno) then Words(Prologue() + CsrCode(write, wide, regno) + Epilogue())
      else Words([csrw(S0, CSR_DSCRATCH0)] + CsrCode(write, wide, regno) + [csrr(S0, CSR_DSCRATCH0)])
    else if 0x1000 <= regno < 0x1020 then
      if size != 2 && size != 3 then NotSupported else Words(GprCode(write, wide, regno - 0x1000))
    else if 0x1020 <= regno < 0x1040 && cfg.fprAccess then
      if size != 2 && size != 3 then NotSupported
      else Words(Prologue() + FprCode(write, wide, regno - 0x1020) + Epilogue())
    else if regno >= 0xc000 && regno % 2 == 1 then Custom
    else NotSupported
  }

  /** The length of the buffer that the words are written to. */
  const BUFFER: nat := 12

  /** The words of a command: the transfer, then a jump to the program buffer or a return to the debug ROM. */
  function CommandCode(cfg: Config, transfer: bool, write: bool, size: nat, regno: nat, postexec: bool): Code {
    var t := if transfer then TransferCode(cfg, write, size, regno) else Words([]);
    match t
    case Words(ws) => Words(ws + [if postexec && |ws| <= BUFFER then jal(ZERO, 4 * BUFFER - 4 * |ws|) else ebreak()])
    case _ => t
  }

  /** Every command fits in the buffer. */
  lemma {:induction false} CodeFits(cfg: Config, transfer: bool, write: bool, size: nat, regno: nat, postexec: bool)
    ensures var c := CommandCode(cfg, transfer, write, size, regno, postexec); c.Words? ==> 1 <= |c.words| <= BUFFER - 1
  {
  }

  // ---------------------------------------------------------------------------------------
  // What the parts do
  // ---------------------------------------------------------------------------------------

  ghost predicate Lawful(env: Env, h: Hart) {
    ScratchLaws(env) && StatusLaws(env) && h.Valid() && env.legal(h.csr[CSR_MSTATUS])
  }

  /** The CSRs with s0 and mstatus saved. */
  function Saved(h: Hart): Csrs
    requires h.Valid()
  {
    h.csr[CSR_DSCRATCH0 := h.gpr[S0]][CSR_DSCRATCH1 := h.csr[CSR_MSTATUS]]
  }

  lemma {:induction false} DecodedPrologue()
    ensures DecodeAll(Prologue()) ==
            [CsrWrite(0, S0, CSR_DSCRATCH0), CsrSet(S0, 0, CSR_MSTATUS), CsrWrite(0, S0, CSR_DSCRATCH1),
              LoadUpper(S0, 6), CsrSet(0, S0, CSR_MSTATUS)]
  {
    DecodesCsr(S0, CSR_DSCRATCH0);
    DecodesCsr(S0, CSR_MSTATUS);
    DecodesCsr(S0, CSR_DSCRATCH1);
    DecodesUpper(S0, 6);
  }

  function Restoring(): seq<Instr> {
    [CsrSet(S0, 0, CSR_DSCRATCH1), CsrWrite(0, S0, CSR_MSTATUS), CsrSet(S0, 0, CSR_DSCRATCH0)]
  }

  lemma {:induction false} DecodedEpilogue()
    ensures DecodeAll(Epilogue()) == Restoring()
  {
    DecodesCsr(S0, CSR_DSCRATCH0);
    DecodesCsr(S0, CSR_MSTATUS);
    DecodesCsr(S0, CSR_DSCRATCH1);
  }

  lemma {:induction false} Saves(env: Env, h: Hart)
    requires Lawful(env, h)
    ensures Steps(env, [CsrWrite(0, S0, CSR_DSCRATCH0)], h) == Next(h.(csr := h.csr[CSR_DSCRATCH0 := h.gpr[S0]]))
  {
    OneStep(env, CsrWrite(0, S0, CSR_DSCRATCH0), h);
  }

  lemma {:induction false} ThreeSteps(env: Env, i: Instr, j: Instr, k: Instr, h0: Hart, h1: Hart, h2: Hart, h3: Hart)
    requires h0.Valid() && RegsIn(i) && Exec(env, i, h0) == Next(h1)
    requires h1.Valid() && RegsIn(j) && Exec(env, j, h1) == Next(h2)
    requires h2.Valid() && RegsIn(k) && Exec(env, k, h2) == Next(h3)
    ensures Steps(env, [i, j, k], h0) == Next(h3)
  {
    OneStep(env, i, h0);
    OneStep(env, j, h1);
    OneStep(env, k, h2);
    StepsAppend(env, [i], [j, k], h0, h1);
    StepsAppend(env, [j], [k], h1, h2);
    assert [i] + [j, k] == [i, j, k] && [j] + [k] == [j, k];
  }

  lemma {:induction false} TwoSteps(env: Env, i: Instr, j: Instr, h0: Hart, h1: Hart, h2: Hart)
    requires h0.Valid() && RegsIn(i) && Exec(env, i, h0) == Next(h1)
    requires h1.Valid() && RegsIn(j) && Exec(env, j, h1) == Next(h2)
    ensures Steps(env, [i, j], h0) == Next(h2)
  {
    OneStep(env, i, h0);
    OneStep(env, j, h1);
    StepsAppend(env, [i], [j], h0, h1);
    assert [i] + [j] == [i, j];
  }

  /** The hart after the prologue. */
  function Prepared(env: Env, h: Hart): Hart
    requires h.Valid()
  {
    h.(gpr := h.gpr[S0 := MSTATUS_FS], csr := Saved(h)[CSR_MSTATUS := env.enabled(h.csr[CSR_MSTATUS])])
  }

  lemma {:induction false} PrologueFirst(env: Env, h: Hart, st: nat)
    requires Lawful(env, h) && st == h.csr[CSR_MSTATUS]
    ensures Steps(env,
                  [CsrWrite(0, S0, CSR_DSCRATCH0), CsrSet(S0, 0, CSR_MSTATUS), CsrWrite(0, S0, CSR_DSCRATCH1)], h) ==
            Next(h.(gpr := h.gpr[S0 := st], csr := Saved(h)))
  {
    var h1 := h.(csr := h.csr[CSR_DSCRATCH0 := h.gpr[S0]]);
    var h2 := h1.(gpr := h.gpr[S0 := st]);
    var h3 := h2.(csr := Saved(h));
    assert Exec(env, CsrWrite(0, S0, CSR_DSCRATCH0), h) == Next(h1);
    assert Exec(env, CsrSet(S0, 0, CSR_MSTATUS), h1) == Next(h2);
    assert Exec(env, CsrWrite(0, S0, CSR_DSCRATCH1), h2) == Next(h3);
    ThreeSteps(env, CsrWrite(0, S0, CSR_DSCRATCH0), CsrSet(S0, 0, CSR_MSTATUS), CsrWrite(0, S0, CSR_DSCRATCH1), h, h1,
      h2, h3);
  }

  lemma {:induction false} PrologueSecond(env: Env, h: Hart, st: nat)
    requires Lawful(env, h) && st == h.csr[CSR_MSTATUS]
    ensures Steps(env, [LoadUpper(S0, 6), CsrSet(0, S0, CSR_MSTATUS)], h) ==
            Next(h.(gpr := h.gpr[S0 := MSTATUS_FS], csr := h.csr[CSR_MSTATUS := env.enabled(st)]))
  {
    var h1 := h.(gpr := h.gpr[S0 := MSTATUS_FS]);
    var h2 := h1.(csr := h.csr[CSR_MSTATUS := env.enabled(st)]);
    assert Exec(env, LoadUpper(S0, 6), h) == Next(h1);
    assert Exec(env, CsrSet(0, S0, CSR_MSTATUS), h1) == Next(h2);
    TwoSteps(env, LoadUpper(S0, 6), CsrSet(0, S0, CSR_MSTATUS), h, h1, h2);
  }

  /** The prologue saves s0 and mstatus and switches the floating-point unit on. */
  lemma {:induction false} PrologueDoes(env: Env, h: Hart)
    requires Lawful(env, h)
    ensures Steps(env, DecodeAll(Prologue()), h) == Next(Prepared(env, h))
  {
    DecodedPrologue();
    var st := h.csr[CSR_MSTATUS];
    var k := h.(gpr := h.gpr[S0 := st], csr := Saved(h));
    var a := [CsrWrite(0, S0, CSR_DSCRATCH0), CsrSet(S0, 0, CSR_MSTATUS), CsrWrite(0, S0, CSR_DSCRATCH1)];
    var b := [LoadUpper(S0, 6), CsrSet(0, S0, CSR_MSTATUS)];
    PrologueFirst(env, h, st);
    PrologueSecond(env, k, st);
    StepsAppend(env, a, b, h, k);
    assert DecodeAll(Prologue()) == a + b;
    assert k.gpr[S0 := MSTATUS_FS] == h.gpr[S0 := MSTATUS_FS];
  }

  /** The epilogue gives s0 and mstatus the saved values. */
  lemma {:induction false} EpilogueDoes(env: Env, h: Hart, s0: nat, st: nat)
    requires ScratchLaws(env) && StatusLaws(env) && h.Valid() && env.legal(st)
    requires h.csr[CSR_DSCRATCH0] == s0 && h.csr[CSR_DSCRATCH1] == st
    ensures Steps(env, Restoring(), h) == Next(Restored(h, s0, st))
  {
    var h1 := h.(gpr := h.gpr[S0 := st]);
    var h2 := h1.(csr := h.csr[CSR_MSTATUS := st]);
    var h3 := h2.(gpr := h.gpr[S0 := s0]);
    assert Exec(env, CsrSet(S0, 0, CSR_DSCRATCH1), h) == Next(h1);
    assert Exec(env, CsrWrite(0, S0, CSR_MSTATUS), h1) == Next(h2);
    assert h2.gpr[S0 := s0] == h.gpr[S0 := s0];
    assert Exec(env, CsrSet(S0, 0, CSR_DSCRATCH0), h2) == Next(h3);
    ThreeSteps(env, CsrSet(S0, 0, CSR_DSCRATCH1), CsrWrite(0, S0, CSR_MSTATUS), CsrSet(S0, 0, CSR_DSCRATCH0), h, h1,
      h2, h3);
  }

  lemma {:induction false} DecodedCsr(write: bool, wide: bool, c: nat)
    requires c < 0x1000
    ensures DecodeAll(CsrCode(write, wide, c)) ==
            if write then [Load(S0, 0, DATA, wide), CsrWrite(0, S0, c)]
              else [CsrSet(S0, 0, c), Store(S0, 0, DATA, wide)]
  {
    DecodesMemory(S0);
    DecodesCsr(S0, c);
  }

  /** Moving a CSR through s0. */
  function CsrMoved(env: Env, write: bool, wide: bool, c: nat, h: Hart): Hart
    requires h.Valid()
  {
    if write then h.(gpr := h.gpr[S0 := Loaded(h, wide)], csr := WriteCsr(env, h.csr, c, Loaded(h, wide)))
    else Stored(h.(gpr := h.gpr[S0 := env.read(h.csr, c)]), env.read(h.csr, c), wide)
  }

  lemma {:induction false} CsrDoes(env: Env, write: bool, wide: bool, c: nat, h: Hart)
    requires h.Valid() && c < 0x1000 && CsrOk(env, h, c, write)
    ensures Steps(env, DecodeAll(CsrCode(write, wide, c)), h) == Next(CsrMoved(env, write, wide, c, h))
  {
    DecodedCsr(write, wide, c);
    if write {
      var h1 := h.(gpr := h.gpr[S0 := Loaded(h, wide)]);
      assert Exec(env, Load(S0, 0, DATA, wide), h) == Next(h1);
      TwoSteps(env, Load(S0, 0, DATA, wide), CsrWrite(0, S0, c), h, h1, CsrMoved(env, write, wide, c, h));
    } else {
      var h1 := h.(gpr := h.gpr[S0 := env.read(h.csr, c)]);
      assert Exec(env, CsrSet(S0, 0, c), h) == Next(h1);
      TwoSteps(env, CsrSet(S0, 0, c), Store(S0, 0, DATA, wide), h, h1, CsrMoved(env, write, wide, c, h));
    }
  }

  /** Moving a floating-point register. */
  function FprMoved(env: Env, write: bool, wide: bool, r: nat, h: Hart): Hart
    requires h.Valid() && r < 32
  {
    if write then h.(fpr := h.fpr[r := FLoaded(h, wide)], csr := Dirtied(env, h.csr)) else Stored(h, h.fpr[r], wide)
  }

  lemma {:induction false} FprDoes(env: Env, write: bool, wide: bool, r: nat, h: Hart)
    requires h.Valid() && r < 32 && env.fpOn(h.csr[CSR_MSTATUS])
    ensures Steps(env, DecodeAll(FprCode(write, wide, r)), h) == Next(FprMoved(env, write, wide, r, h))
  {
    DecodesMemory(r);
    var i := if write then FLoad(r, 0, DATA, wide) else FStore(r, 0, DATA, wide);
    assert DecodeAll(FprCode(write, wide, r)) == [i];
    OneStep(env, i, h);
  }

  /** Moving a general register; s0 is also kept in the scratch register. */
  function GprMoved(write: bool, wide: bool, r: nat, h: Hart): Hart
    requires h.Valid() && r < 32
  {
    if !write then Stored(h, h.gpr[r], wide)
    else
      var v := Loaded(h, wide);
      var k := SetReg(h, r, v);
      if r == S0 then k.(csr := h.csr[CSR_DSCRATCH0 := v]) else k
  }

  lemma {:induction false} GprDoes(env: Env, write: bool, wide: bool, r: nat, h: Hart)
    requires h.Valid() && r < 32 && ScratchLaws(env)
    ensures Steps(env, DecodeAll(GprCode(write, wide, r)), h) == Next(GprMoved(write, wide, r, h))
  {
    var code := DecodedGpr(write, wide, r);
    if r == S0 && write {
      var h1 := h.(gpr := h.gpr[S0 := Loaded(h, wide)]);
      TwoSteps(env, Load(r, 0, DATA, wide), CsrWrite(0, S0, CSR_DSCRATCH0), h, h1, GprMoved(write, wide, r, h));
    } else {
      OneStep(env, code[0], h);
    }
  }

  lemma {:induction false} DecodedGpr(write: bool, wide: bool, r: nat) returns (code: seq<Instr>)
    requires r < 32
    ensures code == DecodeAll(GprCode(write, wide, r))
    ensures code == [if write then Load(r, 0, DATA, wide) else Store(r, 0, DATA, wide)]
                    + if r == S0 && write then [CsrWrite(0, S0, CSR_DSCRATCH0)] else []
  {
    code := DecodeAll(GprCode(write, wide, r));
    DecodesMemory(r);
    DecodesCsr(S0, CSR_DSCRATCH0);
  }

  lemma {:induction false} DecodedSave() returns (save: seq<nat>, restore: seq<nat>)
    ensures save == [csrw(S0, CSR_DSCRATCH0)] && DecodeAll(save) == [CsrWrite(0, S0, CSR_DSCRATCH0)]
    ensures restore == [csrr(S0, CSR_DSCRATCH0)] && DecodeAll(restore) == [CsrSet(S0, 0, CSR_DSCRATCH0)]
  {
    save, restore := [csrw(S0, CSR_DSCRATCH0)], [csrr(S0, CSR_DSCRATCH0)];
    DecodesCsr(S0, CSR_DSCRATCH0);
  }

  // ---------------------------------------------------------------------------------------
  // What a transfer does
  // ---------------------------------------------------------------------------------------

  /** The hart when the register has been moved, with everything else as it was but the scratch registers. */
  function After(env: Env, write: bool, wide: bool, regno: nat, h: Hart): Hart
    requires h.Valid() && regno < 0x1040
  {
    var v := Loaded(h, wide);
    if FpCsr(regno) then
      if write then h.(csr := env.write(Prepared(env, h).csr, regno, v)[CSR_MSTATUS := h.csr[CSR_MSTATUS]])
      else Stored(h, env.read(h.csr, regno), wide).(csr := Saved(h))
    else if regno < 0x1000 then
      var m := h.csr[CSR_DSCRATCH0 := h.gpr[S0]];
      if write then h.(csr := env.write(m, regno, v)) else Stored(h, env.read(h.csr, regno), wide).(csr := m)
    else if regno < 0x1020 then GprMoved(write, wide, regno - 0x1000, h)
    else if write then h.(fpr := h.fpr[regno - 0x1020 := FLoaded(h, wide)], csr := Saved(h))
    else Stored(h, h.fpr[regno - 0x1020], wide).(csr := Saved(h))
  }

  /** A floating-point register or CSR needs a hart whose floating-point unit can be switched on. */
  predicate FpReady(env: Env, regno: nat, h: Hart)
    requires h.Valid()
  {
    IsFpu(regno) ==> env.fpOn(env.enabled(h.csr[CSR_MSTATUS]))
  }

  /** A CSR that exists and is not the register in which s0 is kept. */
  ghost predicate Reachable(env: Env, write: bool, regno: nat) {
    regno < 0x1000 ==> env.readable(regno) && (write ==> env.writable(regno)) && regno != CSR_DSCRATCH0
  }

  lemma {:induction false} AroundSteps(env: Env, a: seq<nat>, b: seq<nat>, c: seq<nat>, h: Hart, h1: Hart, h2: Hart)
    requires Steps(env, DecodeAll(a), h) == Next(h1) && Steps(env, DecodeAll(b), h1) == Next(h2)
    ensures Steps(env, DecodeAll(a + b + c), h) == Steps(env, DecodeAll(c), h2)
  {
    DecodeAppend(a + b, c);
    DecodeAppend(a, b);
    var x, y, z := DecodeAll(a), DecodeAll(b), DecodeAll(c);
    StepsAppend(env, x, y, h, h1);
    StepsAppend(env, x + y, z, h, h2);
  }

  /** Restoring s0 after a plain CSR was moved through it. */
  lemma {:induction false} PlainCsrEnds(env: Env, write: bool, wide: bool, c: nat, h: Hart, h1: Hart)
    requires Lawful(env, h) && c < 0x1000 && !FpCsr(c) && Reachable(env, write, c)
    requires h1 == h.(csr := h.csr[CSR_DSCRATCH0 := h.gpr[S0]])
    ensures Steps(env, [CsrSet(S0, 0, CSR_DSCRATCH0)], CsrMoved(env, write, wide, c, h1)) ==
            Next(After(env, write, wide, c, h))
  {
    var h2 := CsrMoved(env, write, wide, c, h1);
    assert env.read(h1.csr, c) == env.read(h.csr, c) by {
      if c != CSR_DSCRATCH1 {
        assert Alike(h.csr, h1.csr, false);
      }
    }
    OneStep(env, CsrSet(S0, 0, CSR_DSCRATCH0), h2);
    assert h2.gpr[S0 := h.gpr[S0]] == h.gpr;
  }

  lemma {:induction false} PlainCsrDoes(env: Env, write: bool, wide: bool, c: nat, h: Hart)
    requires Lawful(env, h) && c < 0x1000 && !FpCsr(c) && Reachable(env, write, c)
    ensures Steps(env, DecodeAll([csrw(S0, CSR_DSCRATCH0)] + CsrCode(write, wide, c) + [csrr(S0, CSR_DSCRATCH0)]), h) ==
            Next(After(env, write, wide, c, h))
  {
    var h1 := h.(csr := h.csr[CSR_DSCRATCH0 := h.gpr[S0]]);
    var save, restore := DecodedSave();
    Saves(env, h);
    CsrDoes(env, write, wide, c, h1);
    AroundSteps(env, save, CsrCode(write, wide, c), restore, h, h1, CsrMoved(env, write, wide, c, h1));
    PlainCsrEnds(env, write, wide, c, h, h1);
  }

  /** The hart with s0 and mstatus put back. */
  function Restored(h: Hart, s0: nat, st: nat): Hart
    requires h.Valid()
  {
    h.(gpr := h.gpr[S0 := s0], csr := h.csr[CSR_MSTATUS := st])
  }

  lemma {:induction false} FpCsrWritten(env: Env, wide: bool, c: nat, h: Hart, h1: Hart)
    requires Lawful(env, h) && FpCsr(c) && h1 == Prepared(env, h)
    ensures var h2 := CsrMoved(env, true, wide, c, h1);
            && h2.Valid() && h2.csr[CSR_DSCRATCH0] == h.gpr[S0] && h2.csr[CSR_DSCRATCH1] == h.csr[CSR_MSTATUS]
            && Restored(h2, h.gpr[S0], h.csr[CSR_MSTATUS]) == After(env, true, wide, c, h)
  {
    var v := Loaded(h, wide);
    var n := env.write(h1.csr, c, v);
    FpCsrKept(env, c, h1, v, n);
    DirtyRestored(env, n, h.csr[CSR_MSTATUS]);
    FpCsrSame(env, wide, c, h, h1, n);
  }

  lemma {:induction false} FpCsrSame(env: Env, wide: bool, c: nat, h: Hart, h1: Hart, n: Csrs)
    requires h.Valid() && FpCsr(c) && h1 == Prepared(env, h) && n == env.write(h1.csr, c, Loaded(h, wide))
    requires CSR_MSTATUS in n && CSR_DSCRATCH0 in n && CSR_DSCRATCH1 in n
    requires Dirtied(env, n)[CSR_MSTATUS := h.csr[CSR_MSTATUS]] == n[CSR_MSTATUS := h.csr[CSR_MSTATUS]]
    ensures CsrMoved(env, true, wide, c, h1).Valid()
    ensures Restored(CsrMoved(env, true, wide, c, h1), h.gpr[S0], h.csr[CSR_MSTATUS]) == After(env, true, wide, c, h)
  {
    var v := Loaded(h, wide);
    assert h.gpr[S0 := MSTATUS_FS][S0 := v][S0 := h.gpr[S0]] == h.gpr;
  }

  lemma {:induction false} FpCsrKept(env: Env, c: nat, h1: Hart, v: nat, n: Csrs)
    requires ScratchLaws(env) && StatusLaws(env) && FpCsr(c) && h1.Valid() && n == env.write(h1.csr, c, v)
    ensures CSR_MSTATUS in n && CSR_DSCRATCH0 in n && CSR_DSCRATCH1 in n
    ensures n[CSR_DSCRATCH0] == h1.csr[CSR_DSCRATCH0] && n[CSR_DSCRATCH1] == h1.csr[CSR_DSCRATCH1]
  {
  }

  lemma {:induction false} DirtyRestored(env: Env, n: Csrs, st: nat)
    requires CSR_MSTATUS in n
    ensures Dirtied(env, n)[CSR_MSTATUS := st] == n[CSR_MSTATUS := st]
  {
  }

  lemma {:induction false} FpCsrRead(env: Env, wide: bool, c: nat, h: Hart, h1: Hart)
    requires Lawful(env, h) && FpCsr(c) && h1 == Prepared(env, h)
    ensures var h2 := CsrMoved(env, false, wide, c, h1);
            && h2.Valid() && h2.csr[CSR_DSCRATCH0] == h.gpr[S0] && h2.csr[CSR_DSCRATCH1] == h.csr[CSR_MSTATUS]
            && Restored(h2, h.gpr[S0], h.csr[CSR_MSTATUS]) == After(env, false, wide, c, h)
  {
    var h2 := CsrMoved(env, false, wide, c, h1);
    assert h2.gpr[S0 := h.gpr[S0]] == h.gpr;
    assert env.read(h1.csr, c) == env.read(h.csr, c) by {
      assert Alike(h.csr, h1.csr, true);
    }
    assert h1.csr[CSR_MSTATUS := h.csr[CSR_MSTATUS]] == Saved(h);
  }

  lemma {:induction false} FpCsrDoes(env: Env, write: bool, wide: bool, c: nat, h: Hart)
    requires Lawful(env, h) && FpCsr(c) && Reachable(env, write, c) && FpReady(env, c, h)
    ensures Steps(env, DecodeAll(Prologue() + CsrCode(write, wide, c) + Epilogue()), h) ==
            Next(After(env, write, wide, c, h))
  {
    var h1 := Prepared(env, h);
    PrologueDoes(env, h);
    CsrDoes(env, write, wide, c, h1);
    AroundSteps(env, Prologue(), CsrCode(write, wide, c), Epilogue(), h, h1, CsrMoved(env, write, wide, c, h1));
    DecodedEpilogue();
    if write {
      FpCsrWritten(env, wide, c, h, h1);
    } else {
      FpCsrRead(env, wide, c, h, h1);
    }
    EpilogueDoes(env, CsrMoved(env, write, wide, c, h1), h.gpr[S0], h.csr[CSR_MSTATUS]);
  }

  lemma {:induction false} FprRestored(env: Env, write: bool, wide: bool, r: nat, h: Hart, h1: Hart)
    requires h.Valid() && r < 32 && h1 == Prepared(env, h)
    ensures var h2 := FprMoved(env, write, wide, r, h1);
            && h2.Valid() && h2.csr[CSR_DSCRATCH0] == h.gpr[S0] && h2.csr[CSR_DSCRATCH1] == h.csr[CSR_MSTATUS]
            && Restored(h2, h.gpr[S0], h.csr[CSR_MSTATUS]) == After(env, write, wide, 0x1020 + r, h)
  {
    var h2 := FprMoved(env, write, wide, r, h1);
    assert h2.gpr[S0 := h.gpr[S0]] == h.gpr;
    assert h2.csr[CSR_MSTATUS := h.csr[CSR_MSTATUS]] == Saved(h);
  }

  lemma {:induction false} FprTransferDoes(env: Env, write: bool, wide: bool, r: nat, h: Hart)
    requires Lawful(env, h) && r < 32 && FpReady(env, 0x1020 + r, h)
    ensures Steps(env, DecodeAll(Prologue() + FprCode(write, wide, r) + Epilogue()), h) ==
            Next(After(env, write, wide, 0x1020 + r, h))
  {
    var h1 := Prepared(env, h);
    PrologueDoes(env, h);
    FprDoes(env, write, wide, r, h1);
    AroundSteps(env, Prologue(), FprCode(write, wide, r), Epilogue(), h, h1, FprMoved(env, write, wide, r, h1));
    DecodedEpilogue();
    FprRestored(env, write, wide, r, h, h1);
    EpilogueDoes(env, FprMoved(env, write, wide, r, h1), h.gpr[S0], h.csr[CSR_MSTATUS]);
  }

  /** The words of a supported transfer, by kind of register. */
  lemma {:induction false} TransferShape(cfg: Config, write: bool, size: nat, regno: nat)
    requires TransferCode(cfg, write, size, regno).Words?
    ensures regno < 0x1040 && (size == 2 || size == 3)
    ensures TransferCode(cfg, write, size, regno).words ==
            if FpCsr(regno) then Prologue() + CsrCode(write, size == 3, regno) + Epilogue()
            else if regno < 0x1000 then [csrw(S0, CSR_DSCRATCH0)] + CsrCode(write, size ==
              3, regno) + [csrr(S0, CSR_DSCRATCH0)]
            else if regno < 0x1020 then GprCode(write, size == 3, regno - 0x1000)
            else Prologue() + FprCode(write, size == 3, regno - 0x1020) + Epilogue()
  {
  }

  /** Executing the code of a supported transfer moves the register and restores everything else. */
  lemma {:induction false} TransferDoes(cfg: Config, env: Env, write: bool, size: nat, regno: nat, h: Hart)
    requires TransferCode(cfg, write, size, regno).Words? && Lawful(env, h) && Reachable(env, write, regno)
             && FpReady(env, regno, h)
    ensures regno < 0x1040 && (size == 2 || size == 3)
    ensures Steps(env, DecodeAll(TransferCode(cfg, write, size, regno).words), h) ==
            Next(After(env, write, size == 3, regno, h))
  {
    var wide := size == 3;
    TransferShape(cfg, write, size, regno);
    if regno < 0x1000 {
      if FpCsr(regno) {
        FpCsrDoes(env, write, wide, regno, h);
      } else {
        PlainCsrDoes(env, write, wide, regno, h);
      }
    } else if regno < 0x1020 {
      GprDoes(env, write, wide, regno - 0x1000, h);
    } else {
      FprTransferDoes(env, write, wide, regno - 0x1020, h);
    }
  }

  /** The value that a register reads as. */
  function RegValue(env: Env, regno: nat, h: Hart): nat
    requires h.Valid() && regno < 0x1040
  {
    if regno < 0x1000 then env.read(h.csr, regno) else if regno < 0x1020 then h.gpr[regno - 0x1000]
      else h.fpr[regno - 0x1020]
  }

  /**
    What a transfer leaves alone: every general and floating-point register but the target, and
    mstatus unless a plain CSR was written. A read puts the register into the data words, a write
    leaves the data words alone and puts them into the register.
    */
  lemma {:induction false} TransferKeeps(env: Env, write: bool, wide: bool, regno: nat, h: Hart)
    requires Lawful(env, h) && regno < 0x1040 && Reachable(env, write, regno)
    ensures var k := After(env, write, wide, regno, h);
            && |k.gpr| == 32 && |k.fpr| == 32
            && (forall r :: 0 <= r < 32 && !(write && regno == 0x1000 + r) ==> k.gpr[r] == h.gpr[r])
            && (forall r :: 0 <= r < 32 && !(write && regno == 0x1020 + r) ==> k.fpr[r] == h.fpr[r])
            && (!write || FpCsr(regno) || regno >= 0x1000 ==>
                  CSR_MSTATUS in k.csr && k.csr[CSR_MSTATUS] == h.csr[CSR_MSTATUS])
            && (write ==> k.data0 == h.data0 && k.data1 == h.data1)
            && (write && 0x1000 < regno < 0x1020 ==> k.gpr[regno - 0x1000] == Loaded(h, wide))
            && (write && 0x1020 <= regno ==> k.fpr[regno - 0x1020] == FLoaded(h, wide))
            && (write && regno == 0x1000 ==> k == h)
            && (!write ==> k.data0 == RegValue(env, regno, h) % WORD)
            && (!write ==> k.data1 == if wide then RegValue(env, regno, h) / WORD % WORD else h.data1)
  {
    if FpCsr(regno) && write {
      assert CSR_MSTATUS in env.write(Prepared(env, h).csr, regno, Loaded(h, wide));
    }
  }

  // ---------------------------------------------------------------------------------------
  // Whole commands
  // ---------------------------------------------------------------------------------------

  lemma {:induction false} LastWord(env: Env, code: seq<Instr>, i: nat, h: Hart, postexec: bool)
    requires i < |code| && i < BUFFER && h.Valid() && code[i] == if postexec then Jump(0, 4 * BUFFER - 4 * i) else Break
    ensures Run(env, code, i, h) == if postexec then Jumped(h, 4 * BUFFER) else Stopped(h)
  {
  }

  lemma {:induction false} DecodedLast(i: nat, postexec: bool)
    requires i < BUFFER
    ensures Decode(if postexec then jal(ZERO, 4 * BUFFER - 4 * i) else ebreak()) == if postexec
            then Jump(0, 4 * BUFFER - 4 * i) else Break
  {
    if postexec {
      DecodesJump(4 * BUFFER - 4 * i);
    } else {
      DecodesBreak();
    }
  }

  /** What a command does, if it transfers anything. */
  function Performed(env: Env, transfer: bool, write: bool, wide: bool, regno: nat, h: Hart): Hart
    requires h.Valid() && (transfer ==> regno < 0x1040)
  {
    if transfer then After(env, write, wide, regno, h) else h
  }

  lemma {:induction false} StaysValid(env: Env, write: bool, wide: bool, regno: nat, h: Hart)
    requires Lawful(env, h) && regno < 0x1040 && Reachable(env, write, regno)
    ensures After(env, write, wide, regno, h).Valid()
  {
  }

  /**
    A hart that executes a buffer which starts with the code of a command performs the command and
    then stops, or goes on at the program buffer, which lies right behind the buffer.
    */
  lemma {:induction false} CommandRuns(cfg: Config, env: Env, transfer: bool, write: bool, size: nat, regno: nat,
                                       postexec: bool, buf: seq<nat>, h: Hart)
    requires var c := CommandCode(cfg, transfer, write, size, regno, postexec);
             c.Words? && |c.words| <= |buf| && buf[..|c.words|] == c.words
    requires Lawful(env, h) && (transfer ==> Reachable(env, write, regno) && FpReady(env, regno, h))
    ensures transfer ==> regno < 0x1040 && (size == 2 || size == 3)
    ensures Run(env, DecodeAll(buf), 0, h) ==
            var k := Performed(env, transfer, write, size == 3, regno, h);
              if postexec then Jumped(k, 4 * BUFFER) else Stopped(k)
  {
    var words := CommandCode(cfg, transfer, write, size, regno, postexec).words;
    var ws := CommandSteps(cfg, env, transfer, write, size, regno, postexec, words, h);
    RunsThrough(env, buf, ws, words, h, Performed(env, transfer, write, size == 3, regno, h), postexec);
  }

  lemma {:induction false} CommandSteps(cfg: Config, env: Env, transfer: bool, write: bool, size: nat, regno: nat,
                                        postexec: bool, words: seq<nat>, h: Hart)
    returns (ws: seq<nat>)
    requires CommandCode(cfg, transfer, write, size, regno, postexec) == Words(words)
    requires Lawful(env, h) && (transfer ==> Reachable(env, write, regno) && FpReady(env, regno, h))
    ensures transfer ==> regno < 0x1040 && (size == 2 || size == 3)
    ensures |ws| < BUFFER && words == ws + [if postexec then jal(ZERO, 4 * BUFFER - 4 * |ws|) else ebreak()]
    ensures var k := Performed(env, transfer, write, size == 3, regno, h);
            Steps(env, DecodeAll(ws), h) == Next(k) && k.Valid()
  {
    ws := CommandShape(cfg, transfer, write, size, regno, postexec, words);
    if transfer {
      WordsDo(cfg, env, write, size, regno, ws, h);
      StaysValid(env, write, size == 3, regno, h);
    }
  }

  lemma {:induction false} CommandShape(cfg: Config, transfer: bool, write: bool, size: nat, regno: nat,
                                        postexec: bool, words: seq<nat>)
    returns (ws: seq<nat>)
    requires CommandCode(cfg, transfer, write, size, regno, postexec) == Words(words)
    ensures |ws| < BUFFER && words == ws + [if postexec then jal(ZERO, 4 * BUFFER - 4 * |ws|) else ebreak()]
    ensures if transfer then TransferCode(cfg, write, size, regno) == Words(ws) else ws == []
  {
    CodeFits(cfg, transfer, write, size, regno, postexec);
    var t := if transfer then TransferCode(cfg, write, size, regno) else Words([]);
    ws := t.words;
  }

  lemma {:induction false} WordsDo(cfg: Config, env: Env, write: bool, size: nat, regno: nat, ws: seq<nat>, h: Hart)
    requires TransferCode(cfg, write, size, regno) == Words(ws) && Lawful(env, h) && Reachable(env, write, regno)
             && FpReady(env, regno, h)
    ensures regno < 0x1040 && (size == 2 || size == 3)
            && Steps(env, DecodeAll(ws), h) == Next(After(env, write, size == 3, regno, h))
  {
    TransferDoes(cfg, env, write, size, regno, h);
  }

  lemma {:induction false} RunsThrough(env: Env, buf: seq<nat>, ws: seq<nat>, words: seq<nat>, h: Hart, k: Hart,
                                       postexec: bool)
    requires |words| <= |buf| && buf[..|words|] == words
    requires |ws| < BUFFER && words == ws + [if postexec then jal(ZERO, 4 * BUFFER - 4 * |ws|) else ebreak()]
    requires Steps(env, DecodeAll(ws), h) == Next(k) && k.Valid()
    ensures Run(env, DecodeAll(buf), 0, h) == if postexec then Jumped(k, 4 * BUFFER) else Stopped(k)
  {
    var n := |ws|;
    var last := if postexec then jal(ZERO, 4 * BUFFER - 4 * n) else ebreak();
    var code := DecodedPrefix(buf, ws, last);
    DecodedLast(n, postexec);
    RunSteps(env, code, 0, n, h, k);
    LastWord(env, code, n, k, postexec);
  }

  lemma {:induction false} DecodedPrefix(buf: seq<nat>, ws: seq<nat>, last: nat) returns (code: seq<Instr>)
    requires |ws| < |buf| && buf[..|ws| + 1] == ws + [last]
    ensures code == DecodeAll(buf) && |ws| < |code| && code[0..|ws|] == DecodeAll(ws) && code[|ws|] == Decode(last)
  {
    var n := |ws|;
    code := DecodeAll(buf);
    assert buf == (ws + [last]) + buf[n + 1..];
    DecodeAppend(ws + [last], buf[n + 1..]);
    DecodeAppend(ws, [last]);
    assert (ws + [last])[n] == last;
  }

  /**
    A CSR that cannot be accessed traps with s0 saved in the scratch register, from which the debug
    ROM restores it, and with everything else as it was.
    */
  lemma {:induction false} MissingCsrTraps(env: Env, write: bool, wide: bool, c: nat, h: Hart)
    requires Lawful(env, h) && c < 0x1000 && !FpCsr(c) && !(env.readable(c) && (write ==> env.writable(c)))
    ensures var code := [csrw(S0, CSR_DSCRATCH0)] + CsrCode(write, wide, c) + [csrr(S0, CSR_DSCRATCH0)];
            var o := Steps(env, DecodeAll(code), h);
            && o.Trap? && |o.h.gpr| == 32 && o.h.csr == h.csr[CSR_DSCRATCH0 := h.gpr[S0]]
            && o.h.(gpr := o.h.gpr[S0 := h.gpr[S0]], csr := h.csr) == h
  {
    var h1 := h.(csr := h.csr[CSR_DSCRATCH0 := h.gpr[S0]]);
    var save, restore := DecodedSave();
    Saves(env, h);
    var body := if write then [Load(S0, 0, DATA, wide), CsrWrite(0, S0, c)]
      else [CsrSet(S0, 0, c), Store(S0, 0, DATA, wide)];
    assert DecodeAll(save + CsrCode(write, wide, c) + restore) ==
           [CsrWrite(0, S0, CSR_DSCRATCH0)] + (body + [CsrSet(S0, 0, CSR_DSCRATCH0)]) by {
      DecodedCsr(write, wide, c);
      DecodeAppend(save + CsrCode(write, wide, c), restore);
      DecodeAppend(save, CsrCode(write, wide, c));
    }
    StepsAppend(env, [CsrWrite(0, S0, CSR_DSCRATCH0)], body + [CsrSet(S0, 0, CSR_DSCRATCH0)], h, h1);
    if write {
      MissingWrite(env, wide, c, h, h1);
    } else {
      var tail := body + [CsrSet(S0, 0, CSR_DSCRATCH0)];
      assert tail[0] == CsrSet(S0, 0, c);
      assert Exec(env, tail[0], h1) == Trap(h1);
      assert h1.gpr[S0 := h.gpr[S0]] == h.gpr;
    }
  }

  lemma {:induction false} MissingWrite(env: Env, wide: bool, c: nat, h: Hart, h1: Hart)
    requires h.Valid() && h1.Valid() && h1.gpr == h.gpr && h1.data0 == h.data0 && h1.data1 == h.data1
             && !(env.readable(c) && env.writable(c))
    ensures Steps(env, [Load(S0, 0, DATA, wide), CsrWrite(0, S0, c)] + [CsrSet(S0, 0, CSR_DSCRATCH0)], h1) ==
            Trap(h1.(gpr := h.gpr[S0 := Loaded(h, wide)]))
    ensures h.gpr[S0 := Loaded(h, wide)][S0 := h.gpr[S0]] == h.gpr
  {
    var h2 := h1.(gpr := h.gpr[S0 := Loaded(h, wide)]);
    OneStep(env, Load(S0, 0, DATA, wide), h1);
    var rest := [CsrWrite(0, S0, c), CsrSet(S0, 0, CSR_DSCRATCH0)];
    assert [Load(S0, 0, DATA, wide), CsrWrite(0, S0, c)] + [CsrSet(S0, 0, CSR_DSCRATCH0)] ==
           [Load(S0, 0, DATA, wide)] + rest;
    StepsAppend(env, [Load(S0, 0, DATA, wide)], rest, h1, h2);
    assert Exec(env, rest[0], h2) == Trap(h2);
  }

  /** The words between prologue and epilogue. */
  function FpCode(write: bool, wide: bool, regno: nat): seq<nat>
    requires IsFpu(regno)
  {
    if regno < 0x1000 then CsrCode(write, wide, regno) else FprCode(write, wide, regno - 0x1020)
  }

  /** What the access itself does while the floating-point unit is off: it traps and leaves all but s0 alone. */
  lemma {:induction false} FpAccessTraps(env: Env, write: bool, wide: bool, regno: nat, rest: seq<Instr>, h: Hart,
                                         s0: nat)
    requires IsFpu(regno) && h.Valid() && !env.fpOn(h.csr[CSR_MSTATUS])
    ensures TrapsWith(Steps(env, DecodeAll(FpCode(write, wide, regno)) + rest, h), h, s0)
  {
    var code := DecodeAll(FpCode(write, wide, regno));
    if regno < 0x1000 {
      DecodedCsr(write, wide, regno);
      if write {
        FpCsrWriteTraps(env, wide, regno, rest, h, s0);
        assert code + rest == [Load(S0, 0, DATA, wide)] + ([CsrWrite(0, S0, regno)] + rest);
      } else {
        assert code == [CsrSet(S0, 0, regno), Store(S0, 0, DATA, wide)];
        FirstTraps(env, CsrSet(S0, 0, regno), code + rest, h);
      }
    } else {
      var i := DecodedFpr(write, wide, regno - 0x1020);
      FirstTraps(env, i, code + rest, h);
    }
  }

  /** A trap that leaves everything as it was but s0, which is put back. */
  predicate TrapsWith(o: Outcome, h: Hart, s0: nat)
    requires h.Valid()
  {
    o.Trap? && |o.h.gpr| == 32 && o.h.(gpr := o.h.gpr[S0 := s0]) == h.(gpr := h.gpr[S0 := s0])
  }

  lemma {:induction false} FirstTraps(env: Env, i: Instr, code: seq<Instr>, h: Hart)
    requires code != [] && code[0] == i && h.Valid() && RegsIn(i) && Exec(env, i, h) == Trap(h)
    ensures Steps(env, code, h) == Trap(h)
  {
  }

  lemma {:induction false} FpCsrWriteTraps(env: Env, wide: bool, c: nat, rest: seq<Instr>, h: Hart, s0: nat)
    requires FpCsr(c) && h.Valid() && !env.fpOn(h.csr[CSR_MSTATUS])
    ensures TrapsWith(Steps(env, [Load(S0, 0, DATA, wide)] + ([CsrWrite(0, S0, c)] + rest), h), h, s0)
  {
    var k := h.(gpr := h.gpr[S0 := Loaded(h, wide)]);
    var tail := [CsrWrite(0, S0, c)] + rest;
    OneStep(env, Load(S0, 0, DATA, wide), h);
    StepsAppend(env, [Load(S0, 0, DATA, wide)], tail, h, k);
    FirstTraps(env, CsrWrite(0, S0, c), tail, k);
    assert k.gpr[S0 := s0] == h.gpr[S0 := s0];
  }

  lemma {:induction false} DecodedFpr(write: bool, wide: bool, r: nat) returns (i: Instr)
    requires r < 32
    ensures DecodeAll(FprCode(write, wide, r)) == [i] && i == if write then FLoad(r, 0, DATA, wide)
            else FStore(r, 0, DATA, wide)
  {
    DecodesMemory(r);
    i := if write then FLoad(r, 0, DATA, wide) else FStore(r, 0, DATA, wide);
  }

  /**
    On a hart whose floating-point unit cannot be switched on, an access to one of its registers
    traps with s0 and mstatus saved in the scratch registers. The debug ROM restores s0; mstatus
    keeps the value it took when its FS bits were set, and everything else is as it was.
    */
  lemma {:induction false} FpuMissingTraps(env: Env, write: bool, wide: bool, regno: nat, h: Hart)
    requires Lawful(env, h) && IsFpu(regno) && !FpReady(env, regno, h)
    ensures var o := Steps(env, DecodeAll(Prologue() + FpCode(write, wide, regno) + Epilogue()), h);
            && o.Trap? && |o.h.gpr| == 32 && o.h.csr == Saved(h)[CSR_MSTATUS := env.enabled(h.csr[CSR_MSTATUS])]
            && o.h.(gpr := o.h.gpr[S0 := h.gpr[S0]], csr := h.csr) == h
  {
    var k, rest := Prepared(env, h), DecodeAll(Epilogue());
    var a, b := DecodeAll(Prologue()), DecodeAll(FpCode(write, wide, regno));
    assert DecodeAll(Prologue() + FpCode(write, wide, regno) + Epilogue()) == a + (b + rest) by {
      DecodeAppend(Prologue() + FpCode(write, wide, regno), Epilogue());
      DecodeAppend(Prologue(), FpCode(write, wide, regno));
    }
    PrologueDoes(env, h);
    StepsAppend(env, a, b + rest, h, k);
    FpAccessTraps(env, write, wide, regno, rest, k, h.gpr[S0]);
    assert k.gpr[S0 := h.gpr[S0]] == h.gpr;
  }

  /**
    The one register that cannot be written this way is the one in which s0 is kept: afterwards s0
    has the written value, so s0 survives exactly when the two agree.
    */
  lemma {:induction false} ScratchTakesS0(env: Env, wide: bool, h: Hart)
    requires Lawful(env, h)
    ensures var o := Steps(env, DecodeAll([csrw(S0, CSR_DSCRATCH0)] + CsrCode(true, wide,
            CSR_DSCRATCH0) + [csrr(S0, CSR_DSCRATCH0)]), h);
            o.Next? && |o.h.gpr| == 32 && (o.h.gpr == h.gpr <==> h.gpr[S0] == Loaded(h, wide))
  {
    var c := CSR_DSCRATCH0;
    var h1 := h.(csr := h.csr[c := h.gpr[S0]]);
    var save, restore := DecodedSave();
    Saves(env, h);
    CsrDoes(env, true, wide, c, h1);
    AroundSteps(env, save, CsrCode(true, wide, c), restore, h, h1, CsrMoved(env, true, wide, c, h1));
    ScratchReturns(env, wide, h, h1);
  }

  lemma {:induction false} ScratchReturns(env: Env, wide: bool, h: Hart, h1: Hart)
    requires Lawful(env, h) && h1 == h.(csr := h.csr[CSR_DSCRATCH0 := h.gpr[S0]])
    ensures var o := Steps(env, [CsrSet(S0, 0, CSR_DSCRATCH0)], CsrMoved(env, true, wide, CSR_DSCRATCH0, h1));
            o.Next? && |o.h.gpr| == 32 && (o.h.gpr == h.gpr <==> h.gpr[S0] == Loaded(h, wide))
  {
    var v := Loaded(h, wide);
    var h2 := CsrMoved(env, true, wide, CSR_DSCRATCH0, h1);
    assert h2.csr == h1.csr[CSR_DSCRATCH0 := v];
    OneStep(env, CsrSet(S0, 0, CSR_DSCRATCH0), h2);
    var g := h.gpr[S0 := v];
    assert g[S0 := v] == g && g[S0] == v;
  }
}
