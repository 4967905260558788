/**
  The instructions that the debug module hands to a hart: how opcodes.h assembles them and what a
  hart does with them.
  */
module DebugIsa {
  import opened Bits

  const WORD: nat := 0x1_0000_0000
  const DWORD: nat := 0x1_0000_0000_0000_0000

  const ZERO: nat := 0
  const S0: nat := 8

  const CSR_FFLAGS: nat := 1
  const CSR_FRM: nat := 2
  const CSR_FCSR: nat := 3
  const CSR_MSTATUS: nat := 0x300
  const CSR_DSCRATCH0: nat := 0x7b2
  const CSR_DSCRATCH1: nat := 0x7b3
  const MSTATUS_FS: nat := 0x6000

  /** Where the data words lie. */
  const DATA: nat := 0x380

  // ---------------------------------------------------------------------------------------
  // Assembling. The fields do not overlap, so that joining them is adding them.
  // ---------------------------------------------------------------------------------------

  function IType(imm: nat, base: nat, rd: nat, match_: nat): nat {
    imm % 0x1000 * 0x10_0000 + base * 0x8000 + rd * 0x80 + match_
  }

  function SType(imm: nat, src: nat, base: nat, match_: nat): nat {
    imm / 32 % 128 * 0x200_0000 + src * 0x10_0000 + base * 0x8000 + imm % 32 * 0x80 + match_
  }

  function lw(rd: nat, base: nat, offset: nat): nat { IType(offset, base, rd, 0x2003) }
  function ld(rd: nat, base: nat, offset: nat): nat { IType(offset, base, rd, 0x3003) }
  function flw(rd: nat, base: nat, offset: nat): nat { IType(offset, base, rd, 0x2007) }
  function fld(rd: nat, base: nat, offset: nat): nat { IType(offset, base, rd, 0x3007) }
  function sw(src: nat, base: nat, offset: nat): nat { SType(offset, src, base, 0x2023) }
  function sd(src: nat, base: nat, offset: nat): nat { SType(offset, src, base, 0x3023) }
  function fsw(src: nat, base: nat, offset: nat): nat { SType(offset, src, base, 0x2027) }
  function fsd(src: nat, base: nat, offset: nat): nat { SType(offset, src, base, 0x3027) }
  function csrw(source: nat, csr: nat): nat { csr * 0x10_0000 + source * 0x8000 + 0x1073 }
  function csrr(rd: nat, csr: nat): nat { csr * 0x10_0000 + rd * 0x80 + 0x2073 }
  function csrrs(rd: nat, rs1: nat, csr: nat): nat { csr * 0x10_0000 + rs1 * 0x8000 + rd * 0x80 + 0x2073 }
  function lui(rd: nat, imm: nat): nat { imm % 0x10_0000 * 0x1000 + rd * 0x80 + 0x37 }
  function ebreak(): nat { 0x10_0073 }

  function jal(rd: nat, imm: nat): nat {
    imm / 0x10_0000 % 2 * 0x8000_0000 + imm / 2 % 0x400 * 0x20_0000 + imm / 0x800 % 2 * 0x10_0000
    + imm / 0x1000 % 0x100 * 0x1000 + rd * 0x80 + 0x6f
  }

  // ---------------------------------------------------------------------------------------
  // Decoding
  // ---------------------------------------------------------------------------------------

  datatype Instr =
    | Load(rd: nat, base: nat, imm: int, wide: bool)
    | Store(src: nat, base: nat, imm: int, wide: bool)
    | FLoad(rd: nat, base: nat, imm: int, wide: bool)
    | FStore(src: nat, base: nat, imm: int, wide: bool)
    | CsrWrite(rd: nat, rs1: nat, csr: nat)
    | CsrSet(rd: nat, rs1: nat, csr: nat)
    | LoadUpper(rd: nat, upper: nat)
    | Jump(rd: nat, imm: int)
    | Break
    | Illegal

  function Signed(x: nat, half: nat): int {
    if x >= half then x - 2 * half else x
  }

  function Decode(w: nat): Instr {
    var opcode, f3 := w % 128, w / 0x1000 % 8;
    var rd, rs1, rs2, top := w / 0x80 % 32, w / 0x8000 % 32, w / 0x10_0000 % 32, w / 0x10_0000 % 0x1000;
    var immI := Signed(top, 0x800);
    var immS := Signed(w / 0x200_0000 % 128 * 32 + rd, 0x800);
    if opcode == 0x03 && (f3 == 2 || f3 == 3) then Load(rd, rs1, immI, f3 == 3)
    else if opcode == 0x07 && (f3 == 2 || f3 == 3) then FLoad(rd, rs1, immI, f3 == 3)
    else if opcode == 0x23 && (f3 == 2 || f3 == 3) then Store(rs2, rs1, immS, f3 == 3)
    else if opcode == 0x27 && (f3 == 2 || f3 == 3) then FStore(rs2, rs1, immS, f3 == 3)
    else if opcode == 0x73 && f3 == 1 then CsrWrite(rd, rs1, top)
    else if opcode == 0x73 && f3 == 2 then CsrSet(rd, rs1, top)
    else if w == 0x10_0073 then Break
    else if opcode == 0x37 then LoadUpper(rd, w / 0x1000 % 0x10_0000)
    else if opcode == 0x6f then
      Jump(rd, Signed(w / 0x8000_0000 % 2 * 0x10_0000 + w / 0x1000 % 0x100 * 0x1000 + w / 0x10_0000 % 2 * 0x800
                      + w / 0x20_0000 % 0x400 * 2, 0x10_0000))
    else Illegal
  }

  predicate Reg(r: nat) { r < 32 }

  /** A word by its fields. */
  function Fields(top: nat, rs1: nat, f3: nat, rd: nat, opcode: nat): nat {
    top * 0x10_0000 + rs1 * 0x8000 + f3 * 0x1000 + rd * 0x80 + opcode
  }

  lemma {:induction false} FieldsOf(top: nat, rs1: nat, f3: nat, rd: nat, opcode: nat, w: nat)
    requires top < 0x1000 && rs1 < 32 && f3 < 8 && rd < 32 && opcode < 128 && w == Fields(top, rs1, f3, rd, opcode)
    ensures w % 128 == opcode && w / 0x80 % 32 == rd && w / 0x1000 % 8 == f3 && w / 0x8000 % 32 == rs1
    ensures w / 0x10_0000 == top && w / 0x10_0000 % 0x1000 == top && w / 0x10_0000 % 32 == top % 32
            && w / 0x200_0000 % 128 == top / 32
  {
    var q3 := top * 32 + rs1;
    var q2 := q3 * 8 + f3;
    var q1 := q2 * 32 + rd;
    assert w == q1 * 0x80 + opcode && w / 0x80 == q1;
    assert w / 0x1000 == q2;
    assert w / 0x8000 == q3;
    assert w / 0x10_0000 == top;
    assert w / 0x200_0000 == top / 32;
  }

  /** Assembled loads and stores decode to what was assembled. */
  lemma {:induction false} DecodesMemory(r: nat)
    requires Reg(r)
    ensures Decode(lw(r, ZERO, DATA)) == Load(r, 0, DATA, false) && Decode(ld(r, ZERO, DATA)) == Load(r, 0, DATA, true)
    ensures Decode(sw(r, ZERO, DATA)) == Store(r, 0, DATA, false)
            && Decode(sd(r, ZERO, DATA)) == Store(r, 0, DATA, true)
    ensures Decode(flw(r, ZERO, DATA)) == FLoad(r, 0, DATA, false)
            && Decode(fld(r, ZERO, DATA)) == FLoad(r, 0, DATA, true)
    ensures Decode(fsw(r, ZERO, DATA)) == FStore(r, 0, DATA, false)
            && Decode(fsd(r, ZERO, DATA)) == FStore(r, 0, DATA, true)
  {
    FieldsOf(DATA, 0, 2, r, 0x03, lw(r, ZERO, DATA));
    FieldsOf(DATA, 0, 3, r, 0x03, ld(r, ZERO, DATA));
    FieldsOf(DATA, 0, 2, r, 0x07, flw(r, ZERO, DATA));
    FieldsOf(DATA, 0, 3, r, 0x07, fld(r, ZERO, DATA));
    FieldsOf(DATA + r, 0, 2, 0, 0x23, sw(r, ZERO, DATA));
    FieldsOf(DATA + r, 0, 3, 0, 0x23, sd(r, ZERO, DATA));
    FieldsOf(DATA + r, 0, 2, 0, 0x27, fsw(r, ZERO, DATA));
    FieldsOf(DATA + r, 0, 3, 0, 0x27, fsd(r, ZERO, DATA));
  }

  lemma {:induction false} DecodesCsr(r: nat, csr: nat)
    requires Reg(r) && csr < 0x1000
    ensures Decode(csrw(r, csr)) == CsrWrite(0, r, csr) && Decode(csrr(r, csr)) == CsrSet(r, 0, csr)
    ensures Decode(csrrs(ZERO, r, csr)) == CsrSet(0, r, csr)
  {
    FieldsOf(csr, r, 1, 0, 0x73, csrw(r, csr));
    FieldsOf(csr, 0, 2, r, 0x73, csrr(r, csr));
    FieldsOf(csr, r, 2, 0, 0x73, csrrs(ZERO, r, csr));
  }

  lemma {:induction false} DecodesUpper(r: nat, imm: nat)
    requires Reg(r) && imm < 0x10_0000
    ensures Decode(lui(r, imm)) == LoadUpper(r, imm)
  {
    var w := lui(r, imm);
    assert w == imm * 0x1000 + r * 0x80 + 0x37;
    FieldsOf(imm / 0x100, imm / 8 % 32, imm % 8, r, 0x37, w);
    assert w / 0x1000 == imm;
  }

  lemma {:induction false} DecodesBreak()
    ensures Decode(ebreak()) == Break
  {
  }

  lemma {:induction false} JumpFields(h: nat, w: nat)
    requires h < 0x400 && w == h * 0x20_0000 + 0x6f
    ensures w % 128 == 0x6f && w / 0x80 % 32 == 0 && w / 0x8000_0000 % 2 == 0
    ensures w / 0x1000 % 0x100 == 0 && w / 0x10_0000 % 2 == 0 && w / 0x20_0000 % 0x400 == h
  {
    FieldsOf(h * 2, 0, 0, 0, 0x6f, w);
    assert w / 0x20_0000 == h && w / 0x1000 == h * 0x200 && w / 0x8000_0000 == 0;
  }

  lemma {:induction false} DecodesJump(imm: nat)
    requires imm < 0x800 && imm % 2 == 0
    ensures Decode(jal(ZERO, imm)) == Jump(0, imm)
  {
    var w, h := jal(ZERO, imm), imm / 2;
    assert imm / 0x10_0000 % 2 == 0 && imm / 0x800 % 2 == 0 && imm / 0x1000 % 0x100 == 0;
    assert w == h * 0x20_0000 + 0x6f;
    JumpFields(h, w);
  }

  /** Some of the words as every RISC-V assembler writes them. */
  lemma {:induction false} KnownWords()
    ensures lw(S0, ZERO, DATA) == 0x3800_2403 && sw(S0, ZERO, DATA) == 0x3880_2023
    ensures ld(S0, ZERO, DATA) == 0x3800_3403 && sd(S0, ZERO, DATA) == 0x3880_3023
    ensures flw(1, ZERO, DATA) == 0x3800_2087 && fsw(1, ZERO, DATA) == 0x3810_2027
    ensures fld(1, ZERO, DATA) == 0x3800_3087 && fsd(1, ZERO, DATA) == 0x3810_3027
    ensures csrw(S0, CSR_DSCRATCH0) == 0x7b24_1073 && csrr(S0, CSR_DSCRATCH0) == 0x7b20_2473
    ensures csrrs(ZERO, S0, CSR_MSTATUS) == 0x3004_2073 && lui(S0, MSTATUS_FS / 0x1000) == 0x0000_6437
    ensures jal(ZERO, 0x30) == 0x0300_006f && ebreak() == 0x0010_0073
  {
  }
}
