/**
  A halted hart that executes instructions out of the debug module. How a control and status
  register takes a written value is left to an environment with a few laws.
  */
module DebugHart {
  import opened Bits
  import opened DebugIsa

  type Csrs = map<nat, nat>

  /** Registers of a hart, and the two data words of the debug module. */
  datatype Hart = Hart(gpr: seq<nat>, fpr: seq<nat>, csr: Csrs, data0: nat, data1: nat)
  {
    predicate Valid() {
      && |gpr| == 32 && |fpr| == 32 && gpr[0] == 0
      && CSR_MSTATUS in csr && CSR_DSCRATCH0 in csr && CSR_DSCRATCH1 in csr
    }
  }

  /**
    What depends on the hart: which CSRs can be read and written, what they read as, what writing
    does to the registers behind them, the values mstatus can hold, whether the floating-point unit
    is on for such a value, the value mstatus takes when its FS bits are set, and the value it has
    once a floating-point register was written.
    */
  datatype Env = Env(
    readable: nat -> bool,
    writable: nat -> bool,
    read: (Csrs, nat) -> nat,
    write: (Csrs, nat, nat) -> Csrs,
    legal: nat -> bool,
    fpOn: nat -> bool,
    enabled: nat -> nat,
    dirty: nat -> nat)

  predicate FpCsr(c: nat) {
    c == CSR_FFLAGS || c == CSR_FRM || c == CSR_FCSR
  }

  predicate Scratch(c: nat) {
    c == CSR_DSCRATCH0 || c == CSR_DSCRATCH1
  }

  /** The same but for the scratch registers and, if so wanted, mstatus. */
  ghost predicate Alike(m: Csrs, n: Csrs, status: bool) {
    forall c: nat :: !Scratch(c) && !(status && c == CSR_MSTATUS) ==> (c in m <==> c in n) && (c in m ==> m[c] == n[c])
  }

  /** The scratch registers are plain registers that no other access touches. */
  ghost predicate ScratchLaws(env: Env) {
    && (forall c: nat :: Scratch(c) ==> env.readable(c) && env.writable(c))
    && (forall m: Csrs, c: nat, v: nat :: Scratch(c) ==> env.write(m, c, v) == m[c := v])
    && (forall m: Csrs, c: nat :: Scratch(c) && c in m ==> env.read(m, c) == m[c])
    && (forall m: Csrs, n: Csrs, c: nat {:trigger env.read(m, c), env.read(n, c)} ::
          !Scratch(c) && Alike(m, n, false) ==> env.read(m, c) == env.read(n, c))
    && (forall m: Csrs, c: nat, v: nat, s: nat :: Scratch(s) && c != s && s in m ==>
          s in env.write(m, c, v) && env.write(m, c, v)[s] == m[s])
  }

  /** mstatus takes back a value it held, and setting its FS bits has a known effect. */
  ghost predicate StatusLaws(env: Env) {
    && env.readable(CSR_MSTATUS) && env.writable(CSR_MSTATUS)
    && (forall m: Csrs :: CSR_MSTATUS in m ==> env.read(m, CSR_MSTATUS) == m[CSR_MSTATUS])
    && (forall m: Csrs, v: nat :: env.legal(v) ==> env.write(m, CSR_MSTATUS, v) == m[CSR_MSTATUS := v])
    && (forall m: Csrs, v: nat :: env.legal(v) ==>
           env.write(m, CSR_MSTATUS, Or(v, MSTATUS_FS)) == m[CSR_MSTATUS := env.enabled(v)])
    && (forall m: Csrs, c: nat, v: nat :: CSR_MSTATUS in m ==> CSR_MSTATUS in env.write(m, c, v))
    && (forall m: Csrs, n: Csrs, c: nat {:trigger env.read(m, c), env.read(n, c)} :: FpCsr(c) && Alike(m, n, true) ==>
          env.read(m, c) == env.read(n, c))
  }

  // ---------------------------------------------------------------------------------------
  // Executing
  // ---------------------------------------------------------------------------------------

  datatype Outcome = Next(h: Hart) | Trap(h: Hart) | Stopped(h: Hart) | Jumped(h: Hart, dist: int)

  function SetReg(h: Hart, r: nat, v: nat): Hart
    requires |h.gpr| == 32 && r < 32
  {
    if r == 0 then h else h.(gpr := h.gpr[r := v])
  }

  /** The data words as the hart loads them. */
  function Loaded(h: Hart, wide: bool): nat {
    if wide then h.data1 * WORD + h.data0
    else if h.data0 >= WORD / 2 then h.data0 + (DWORD - WORD) else h.data0
  }

  /** A narrow value in a floating-point register has all upper bits set. */
  function FLoaded(h: Hart, wide: bool): nat {
    if wide then h.data1 * WORD + h.data0 else h.data0 + (DWORD - WORD)
  }

  function Stored(h: Hart, v: nat, wide: bool): Hart {
    if wide then h.(data0 := v % WORD, data1 := v / WORD % WORD) else h.(data0 := v % WORD)
  }

  /** The registers after a write to a floating-point register or CSR. */
  function Dirtied(env: Env, m: Csrs): Csrs
    requires CSR_MSTATUS in m
  {
    m[CSR_MSTATUS := env.dirty(m[CSR_MSTATUS])]
  }

  function WriteCsr(env: Env, m: Csrs, c: nat, v: nat): Csrs {
    var n := env.write(m, c, v);
    if FpCsr(c) && CSR_MSTATUS in n then Dirtied(env, n) else n
  }

  /** Can the CSR be accessed? The floating-point ones only while that unit is on. */
  predicate CsrOk(env: Env, h: Hart, c: nat, write: bool)
    requires h.Valid()
  {
    env.readable(c) && (write ==> env.writable(c)) && (FpCsr(c) ==> env.fpOn(h.csr[CSR_MSTATUS]))
  }

  predicate RegsIn(i: Instr) {
    match i
    case Load(rd, base, _, _) => rd < 32 && base < 32
    case Store(src, base, _, _) => src < 32 && base < 32
    case FLoad(rd, base, _, _) => rd < 32 && base < 32
    case FStore(src, base, _, _) => src < 32 && base < 32
    case CsrWrite(rd, rs1, _) => rd < 32 && rs1 < 32
    case CsrSet(rd, rs1, _) => rd < 32 && rs1 < 32
    case LoadUpper(rd, _) => rd < 32
    case Jump(rd, _) => rd < 32
    case _ => true
  }

  /** One instruction. Memory other than the data words is not part of this model. */
  function Exec(env: Env, i: Instr, h: Hart): Outcome
    requires h.Valid() && RegsIn(i)
  {
    match i
    case Load(rd, base, imm, wide) =>
      if h.gpr[base] + imm == DATA then Next(SetReg(h, rd, Loaded(h, wide))) else Trap(h)
    case Store(src, base, imm, wide) =>
      if h.gpr[base] + imm == DATA then Next(Stored(h, h.gpr[src], wide)) else Trap(h)
    case FLoad(rd, base, imm, wide) =>
      if h.gpr[base] + imm == DATA && env.fpOn(h.csr[CSR_MSTATUS]) then
        Next(h.(fpr := h.fpr[rd := FLoaded(h, wide)], csr := Dirtied(env, h.csr)))
      else Trap(h)
    case FStore(src, base, imm, wide) =>
      if h.gpr[base] + imm == DATA && env.fpOn(h.csr[CSR_MSTATUS]) then Next(Stored(h, h.fpr[src], wide)) else Trap(h)
    case CsrWrite(rd, rs1, c) =>
      if CsrOk(env, h, c, true) then
        Next(SetReg(h, rd, env.read(h.csr, c)).(csr := WriteCsr(env, h.csr, c, h.gpr[rs1])))
      else Trap(h)
    case CsrSet(rd, rs1, c) =>
      if CsrOk(env, h, c, rs1 != 0) then
        var was := env.read(h.csr, c);
        var r := SetReg(h, rd, was);
        Next(if rs1 == 0 then r else r.(csr := WriteCsr(env, h.csr, c, Or(was, h.gpr[rs1]))))
      else Trap(h)
    case LoadUpper(rd, imm) => Next(SetReg(h, rd, imm * 0x1000))
    case Jump(_, imm) => Jumped(h, imm)
    case Break => Stopped(h)
    case Illegal => Trap(h)
  }

  /** Several instructions in a row. */
  function Steps(env: Env, code: seq<Instr>, h: Hart): Outcome {
    if code == [] then Next(h)
    else if !h.Valid() || !RegsIn(code[0]) then Trap(h)
    else
      match Exec(env, code[0], h)
      case Next(k) => Steps(env, code[1..], k)
      case other => other
  }

  lemma {:induction false} StepsAppend(env: Env, a: seq<Instr>, b: seq<Instr>, h: Hart, k: Hart)
    requires Steps(env, a, h) == Next(k)
    ensures Steps(env, a + b, h) == Steps(env, b, k)
    decreases |a|
  {
    if a == [] {
      assert a + b == b;
    } else {
      assert (a + b)[0] == a[0] && (a + b)[1..] == a[1..] + b;
      StepsAppend(env, a[1..], b, Exec(env, a[0], h).h, k);
    }
  }

  lemma {:induction false} OneStep(env: Env, i: Instr, h: Hart)
    requires h.Valid() && RegsIn(i) && Exec(env, i, h).Next?
    ensures Steps(env, [i], h) == Next(Exec(env, i, h).h)
  {
    assert [i][1..] == [];
  }

  /** The instructions that a list of words decodes to. */
  function DecodeAll(ws: seq<nat>): (r: seq<Instr>)
    ensures |r| == |ws|
  {
    seq(|ws|, i requires 0 <= i < |ws| => Decode(ws[i]))
  }

  lemma {:induction false} DecodeAppend(a: seq<nat>, b: seq<nat>)
    ensures DecodeAll(a + b) == DecodeAll(a) + DecodeAll(b)
  {
  }

  /** Executes code from index i on until something other than the next instruction comes next. */
  function Run(env: Env, code: seq<Instr>, i: nat, h: Hart): Outcome
    requires i <= |code|
    decreases |code| - i
  {
    if i == |code| || !h.Valid() || !RegsIn(code[i]) then Trap(h)
    else
      match Exec(env, code[i], h)
      case Next(k) => Run(env, code, i + 1, k)
      case Jumped(k, d) => Jumped(k, 4 * i + d)
      case other => other
  }

  lemma {:induction false} RunOne(env: Env, code: seq<Instr>, i: nat, h: Hart, k: Hart)
    requires i < |code| && h.Valid() && RegsIn(code[i]) && Exec(env, code[i], h) == Next(k)
    ensures Run(env, code, i, h) == Run(env, code, i + 1, k)
  {
  }

  lemma {:induction false} FirstStep(env: Env, code: seq<Instr>, h: Hart, k: Hart) returns (m: Hart)
    requires code != [] && Steps(env, code, h) == Next(k)
    ensures h.Valid() && RegsIn(code[0]) && Exec(env, code[0], h) == Next(m) && Steps(env, code[1..], m) == Next(k)
  {
    m := Exec(env, code[0], h).h;
  }

  /** Straight-line code does what its instructions do one after the other. */
  lemma {:induction false} RunSteps(env: Env, code: seq<Instr>, i: nat, n: nat, h: Hart, k: Hart)
    requires i + n <= |code| && Steps(env, code[i..i + n], h) == Next(k)
    ensures Run(env, code, i, h) == Run(env, code, i + n, k)
    decreases n
  {
    if n > 0 {
      var part := code[i..i + n];
      assert part[1..] == code[i + 1..i + 1 + (n - 1)];
      var m := FirstStep(env, part, h, k);
      RunOne(env, code, i, h, m);
      RunSteps(env, code, i + 1, n - 1, m, k);
    }
  }
}
