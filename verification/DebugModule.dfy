/**
  The debug module as an object: its fields, and methods that update them as the debugger and the
  harts access the module.
  */
module DebugModule {
  import opened DebugIsa
  import P = DebugProgram
  import opened DebugProtocol

  datatype Stage = Emitted | Unsupported | CustomRegister

  /** What has been written behind the words ws for an access. */
  ghost predicate Accessed(access: P.Config, write: bool, size: nat, regno: nat, st: Stage, ws: seq<nat>,
                           xs: seq<nat>) {
    var sized, wide, fpu := size == 2 || size == 3, size == 3, P.IsFpu(regno);
    if regno < 0x1000 && access.csrAccess then
      var front := ws + if fpu then [] else [csrw(S0, CSR_DSCRATCH0)];
      if sized then st.Emitted? && xs == front + P.CsrCode(write, wide, regno) + (if fpu then []
        else [csrr(S0, CSR_DSCRATCH0)])
      else st.Unsupported? && xs == front + if write then [] else [csrr(S0, regno)]
    else if 0x1000 <= regno < 0x1020 then
      if sized then st.Emitted? && xs == ws + P.GprCode(write, wide, regno - 0x1000) else st.Unsupported? && xs == ws
    else if 0x1020 <= regno < 0x1040 && access.fprAccess then
      if sized then st.Emitted? && xs == ws + P.FprCode(write, wide, regno - 0x1020) else st.Unsupported? && xs == ws
    else xs == ws && st == if regno >= 0xc000 && regno % 2 == 1 then CustomRegister else Unsupported
  }

  /** With prologue and epilogue these are the words of the transfer. */
  lemma {:induction false} TransferParts(access: P.Config, write: bool, size: nat, regno: nat, st: Stage,
                                         ws: seq<nat>, xs: seq<nat>)
    requires Accessed(access, write, size, regno, st, ws, xs) && ws == if P.IsFpu(regno) then P.Prologue() else []
    ensures |xs| + (if P.IsFpu(regno) then 3 else 0) <= P.BUFFER - 2
    ensures var c := P.TransferCode(access, write, size, regno);
            match st
            case Emitted => c == P.Words(if P.IsFpu(regno) then xs + P.Epilogue() else xs)
            case Unsupported => c.NotSupported? && xs == Abandoned(access, write, regno)
            case CustomRegister => c.Custom? && xs == Abandoned(access, write, regno)
  {
  }

  /** The words of a transfer as part of a command. */
  function TransferPart(access: P.Config, c: nat): P.Code {
    if Transfer(c) then P.TransferCode(access, Writes(c), Size(c), Regno(c)) else P.Words([])
  }

  lemma {:induction false} CommandWords(access: P.Config, c: nat, ws: seq<nat>)
    requires TransferPart(access, c) == P.Words(ws) && |ws| <= P.BUFFER
    ensures CodeOf(access, c) == P.Words(ws + [LastWord(c, |ws|)])
  {
  }

  /** The last word of a command goes to the program buffer or returns. */
  function LastWord(c: nat, i: nat): nat
    requires i <= P.BUFFER
  {
    if Postexec(c) then jal(ZERO, 4 * P.BUFFER - 4 * i) else ebreak()
  }

  lemma {:induction false} CommandGivenUp(access: P.Config, c: nat)
    requires Transfer(c) && !TransferPart(access, c).Words?
    ensures CodeOf(access, c) == TransferPart(access, c)
  {
  }

  /** What becomes of the module when assembling a command has come to this end. */
  function Concluded(cfg: Config, s: State, st: Stage): State
    requires s.hartsel < |cfg.hartids| && |s.data| == 2
  {
    var n := Regno(s.command) - 0xc000;
    match st
    case Unsupported => s.(cmderr := NOTSUP)
    case CustomRegister =>
      if Writes(s.command) then s.(customBase := (s.data[0] - n) % WORD)
      else s.(data := [(n + s.customBase) % WORD, 0])
    case Emitted => s.(go := s.go + {Selected(cfg, s)}, rti := cfg.abstractRti, completed := false, busy := true)
  }

  lemma {:induction false} CommandConcluded(cfg: Config, access: P.Config, s: State, st: Stage, ws: seq<nat>)
    requires Valid(cfg, s) && Assembles(cfg, access)
    requires match st
             case Emitted => CodeOf(access, s.command) == P.Words(ws)
             case Unsupported =>
               CodeOf(access, s.command).NotSupported?
                 && ws == Abandoned(access, Writes(s.command), Regno(s.command))
             case CustomRegister =>
               CodeOf(access, s.command).Custom? && ws == Abandoned(access, Writes(s.command), Regno(s.command))
    ensures RunCode(cfg, s) == Concluded(cfg, s.(code := Over(ws, s.code)), st)
  {
    assert cfg.assemble(s.command) == CodeOf(access, s.command);
  }

  class Module {
    const cfg: Config
    const access: P.Config
    const data: array<nat>
    const prog: array<nat>
    const code: array<nat>
    var cmderr: bv3
    var busy: bool
    var completed: bool
    var rti: nat
    var command: nat
    var autoData: nat
    var autoProg: nat
    var go: set<nat>
    var halted: set<nat>
    var hartsel: nat
    var active: bool
    var available: seq<bool>
    var customBase: nat

    constructor (access: P.Config, progbufsize: nat, abstractRti: nat, impebreak: bool, hartids: seq<nat>)
      requires hartids != []
      ensures Ok() && fresh(data) && fresh(prog) && fresh(code)
      ensures !busy && cmderr == NONE && go == {} && halted == {} && !active
      ensures prog.Length == progbufsize + (if impebreak then 1 else 0) && (impebreak ==> prog[progbufsize] == ebreak())
    {
      this.access := access;
      cfg := ConfigFor(access, progbufsize, abstractRti, hartids);
      data := new nat[2](_ => 0);
      var size := progbufsize + (if impebreak then 1 else 0);
      prog := new nat[size](i => if i == progbufsize then ebreak() else 0);
      code := new nat[P.BUFFER](_ => 0);
      cmderr, busy, completed, rti, command, autoData, autoProg := NONE, false, false, 0, 0, 0, 0;
      go, halted, hartsel, active, available, customBase := {}, {}, 0, false, [true, true], 0;
      new;
      AssembledFits(cfg, access);
    }

    ghost function Value(): State
      reads this, data, prog, code
    {
      State(cmderr, busy, completed, rti, command, autoData, autoProg, data[..], prog[..], code[..],
            go, halted, hartsel, active, available, customBase)
    }

    ghost predicate Ok()
      reads this, data, prog, code
    {
      Valid(cfg, Value()) && Assembles(cfg, access) && data != prog && data != code && prog != code
    }

    // -------------------------------------------------------------------------------------
    // Assembling
    // -------------------------------------------------------------------------------------

    /** The buffer starts with the words ws; the rest is what was there. */
    ghost predicate Holds(ws: seq<nat>, was: seq<nat>)
      reads code
    {
      |was| == code.Length == P.BUFFER && |ws| <= P.BUFFER && code[..] == ws + was[|ws|..]
    }

    method Emit(i: nat, w: nat, ghost ws: seq<nat>, ghost was: seq<nat>) returns (j: nat, ghost xs: seq<nat>)
      requires Holds(ws, was) && i == |ws| < P.BUFFER
      modifies code
      ensures j == i + 1 && xs == ws + [w] && Holds(xs, was)
    {
      code[i] := w;
      j, xs := i + 1, ws + [w];
    }

    method EmitPrologue(i: nat, ghost ws: seq<nat>, ghost was: seq<nat>) returns (j: nat, ghost xs: seq<nat>)
      requires Holds(ws, was) && i == |ws| && i + 5 <= P.BUFFER
      modifies code
      ensures xs == ws + P.Prologue() && j == |xs| && Holds(xs, was)
    {
      ghost var a;
      j, a := Emit(i, csrw(S0, CSR_DSCRATCH0), ws, was);
      j, a := Emit(j, csrr(S0, CSR_MSTATUS), a, was);
      j, a := Emit(j, csrw(S0, CSR_DSCRATCH1), a, was);
      j, a := Emit(j, lui(S0, MSTATUS_FS / 0x1000), a, was);
      j, xs := Emit(j, csrrs(ZERO, S0, CSR_MSTATUS), a, was);
    }

    method EmitEpilogue(i: nat, ghost ws: seq<nat>, ghost was: seq<nat>) returns (j: nat, ghost xs: seq<nat>)
      requires Holds(ws, was) && i == |ws| && i + 3 <= P.BUFFER
      modifies code
      ensures xs == ws + P.Epilogue() && j == |xs| && Holds(xs, was)
    {
      ghost var a;
      j, a := Emit(i, csrr(S0, CSR_DSCRATCH1), ws, was);
      j, a := Emit(j, csrw(S0, CSR_MSTATUS), a, was);
      j, xs := Emit(j, csrr(S0, CSR_DSCRATCH0), a, was);
    }

    /** The words of a CSR access; false when the size is not supported, after a read was already emitted. */
    method EmitCsr(i: nat, write: bool, size: nat, regno: nat, ghost ws: seq<nat>, ghost was: seq<nat>)
      returns (ok: bool, j: nat, ghost xs: seq<nat>)
      requires Holds(ws, was) && i == |ws| && i + 2 <= P.BUFFER
      modifies code
      ensures ok == (size == 2 || size == 3) && j == |xs| && Holds(xs, was)
      ensures xs == ws + if ok then P.CsrCode(write, size == 3, regno) else if write then [] else [csrr(S0, regno)]
    {
      j, xs := i, ws;
      if write {
        if size == 2 {
          j, xs := Emit(j, lw(S0, ZERO, DATA), xs, was);
        } else if size == 3 {
          j, xs := Emit(j, ld(S0, ZERO, DATA), xs, was);
        } else {
          return false, j, xs;
        }
        j, xs := Emit(j, csrw(S0, regno), xs, was);
      } else {
        j, xs := Emit(j, csrr(S0, regno), xs, was);
        if size == 2 {
          j, xs := Emit(j, sw(S0, ZERO, DATA), xs, was);
        } else if size == 3 {
          j, xs := Emit(j, sd(S0, ZERO, DATA), xs, was);
        } else {
          return false, j, xs;
        }
      }
      ok := true;
    }

    method EmitGpr(i: nat, write: bool, size: nat, r: nat, ghost ws: seq<nat>, ghost was: seq<nat>)
      returns (ok: bool, j: nat, ghost xs: seq<nat>)
      requires Holds(ws, was) && i == |ws| && i + 2 <= P.BUFFER
      modifies code
      ensures ok == (size == 2 || size == 3) && j == |xs| && Holds(xs, was)
      ensures xs == ws + if ok then P.GprCode(write, size == 3, r) else []
    {
      j, xs := i, ws;
      if size == 2 {
        j, xs := Emit(j, if write then lw(r, ZERO, DATA) else sw(r, ZERO, DATA), xs, was);
      } else if size == 3 {
        j, xs := Emit(j, if write then ld(r, ZERO, DATA) else sd(r, ZERO, DATA), xs, was);
      } else {
        return false, j, xs;
      }
      if r == S0 && write {
        j, xs := Emit(j, csrw(S0, CSR_DSCRATCH0), xs, was);
      }
      ok := true;
    }

    method EmitFpr(i: nat, write: bool, size: nat, r: nat, ghost ws: seq<nat>, ghost was: seq<nat>)
      returns (ok: bool, j: nat, ghost xs: seq<nat>)
      requires Holds(ws, was) && i == |ws| && i + 1 <= P.BUFFER
      modifies code
      ensures ok == (size == 2 || size == 3) && j == |xs| && Holds(xs, was)
      ensures xs == ws + if ok then P.FprCode(write, size == 3, r) else []
    {
      j, xs := i, ws;
      if size == 2 {
        j, xs := Emit(j, if write then flw(r, ZERO, DATA) else fsw(r, ZERO, DATA), xs, was);
      } else if size == 3 {
        j, xs := Emit(j, if write then fld(r, ZERO, DATA) else fsd(r, ZERO, DATA), xs, was);
      } else {
        return false, j, xs;
      }
      ok := true;
    }

    /** The words of a transfer between the floating-point prologue and epilogue, where there are such. */
    method EmitAccess(i: nat, write: bool, size: nat, regno: nat, ghost ws: seq<nat>, ghost was: seq<nat>)
      returns (st: Stage, j: nat, ghost xs: seq<nat>)
      requires Holds(ws, was) && i == |ws| && i + 4 <= P.BUFFER
      modifies code
      ensures j == |xs| <= |ws| + 4 && Holds(xs, was)
      ensures Accessed(access, write, size, regno, st, ws, xs)
    {
      var ok;
      j, xs := i, ws;
      if regno < 0x1000 && access.csrAccess {
        if !P.IsFpu(regno) {
          j, xs := Emit(j, csrw(S0, CSR_DSCRATCH0), xs, was);
        }
        ok, j, xs := EmitCsr(j, write, size, regno, xs, was);
        if !ok {
          return Unsupported, j, xs;
        }
        if !P.IsFpu(regno) {
          j, xs := Emit(j, csrr(S0, CSR_DSCRATCH0), xs, was);
        }
      } else if 0x1000 <= regno < 0x1020 {
        ok, j, xs := EmitGpr(j, write, size, regno - 0x1000, xs, was);
        if !ok {
          return Unsupported, j, xs;
        }
      } else if 0x1020 <= regno < 0x1040 && access.fprAccess {
        ok, j, xs := EmitFpr(j, write, size, regno - 0x1020, xs, was);
        if !ok {
          return Unsupported, j, xs;
        }
      } else if regno >= 0xc000 && regno % 2 == 1 {
        return CustomRegister, j, xs;
      } else {
        return Unsupported, j, xs;
      }
      st := Emitted;
    }

    /** The words of a transfer. */
    method EmitTransfer(write: bool, size: nat, regno: nat, ghost was: seq<nat>)
      returns (st: Stage, i: nat, ghost ws: seq<nat>)
      requires Holds([], was)
      modifies code
      ensures i == |ws| <= P.BUFFER - 2 && Holds(ws, was)
      ensures var c := P.TransferCode(access, write, size, regno);
              match st
              case Emitted => c == P.Words(ws)
              case Unsupported => c.NotSupported? && ws == Abandoned(access, write, regno)
              case CustomRegister => c.Custom? && ws == Abandoned(access, write, regno)
    {
      i, ws := 0, [];
      if P.IsFpu(regno) {
        i, ws := EmitPrologue(i, ws, was);
      }
      ghost var front := ws;
      st, i, ws := EmitAccess(i, write, size, regno, ws, was);
      TransferParts(access, write, size, regno, st, front, ws);
      if st.Emitted? && P.IsFpu(regno) {
        i, ws := EmitEpilogue(i, ws, was);
      }
    }

    /** The words of a whole command. */
    method EmitCommand(ghost was: seq<nat>) returns (st: Stage, ghost ws: seq<nat>)
      requires Holds([], was)
      modifies code
      ensures Holds(ws, was)
      ensures match st
              case Emitted => CodeOf(access, command) == P.Words(ws)
              case Unsupported =>
                CodeOf(access, command).NotSupported? && ws == Abandoned(access, Writes(command), Regno(command))
              case CustomRegister =>
                CodeOf(access, command).Custom? && ws == Abandoned(access, Writes(command), Regno(command))
    {
      var i := 0;
      st, ws := Emitted, [];
      if Transfer(command) {
        st, i, ws := EmitTransfer(Writes(command), Size(command), Regno(command), was);
        if !st.Emitted? {
          CommandGivenUp(access, command);
          return;
        }
      }
      CommandWords(access, command, ws);
      i, ws := Emit(i, LastWord(command, i), ws, was);
    }

    // -------------------------------------------------------------------------------------
    // Commands
    // -------------------------------------------------------------------------------------

    method StartCommand()
      requires hartsel < |cfg.hartids|
      modifies this
      ensures Value() == var s := old(Value());
                         s.(go := s.go + {Selected(cfg, s)}, rti := cfg.abstractRti, completed := false, busy := true)
    {
      go := go + {cfg.hartids[hartsel]};
      rti := cfg.abstractRti;
      completed := false;
      busy := true;
    }

    /** Custom registers are answered by the module itself. */
    method AnswerCustom()
      requires data.Length == 2 && data != prog && data != code
      modifies this, data
      ensures Value() == var s, n := old(Value()), Regno(command) - 0xc000;
                         if Writes(s.command) then s.(customBase := (s.data[0] - n) % WORD)
                           else s.(data := [(n + s.customBase) % WORD, 0])
    {
      var n := Regno(command) - 0xc000;
      if Writes(command) {
        customBase := (data[0] - n) % WORD;
      } else {
        data[0] := (n + customBase) % WORD;
        data[1] := 0;
        assert data[..] == [(n + customBase) % WORD, 0];
      }
    }

    /** Assembles and starts the command, or answers it at once. */
    method RunCommand()
      requires Ok()
      modifies this, data, code
      ensures Value() == RunCode(cfg, old(Value()))
    {
      ghost var s, was := Value(), code[..];
      assert code[..] == [] + was[0..];
      var st;
      ghost var ws;
      st, ws := EmitCommand(was);
      CommandConcluded(cfg, access, s, st, ws);
      assert Value() == s.(code := Over(ws, was));
      Conclude(st);
    }

    /** Refuses a command, answers it at once or starts it. */
    method Conclude(st: Stage)
      requires hartsel < |cfg.hartids| && data.Length == 2 && data != prog && data != code
      modifies this, data
      ensures Value() == Concluded(cfg, old(Value()), st)
    {
      if st.Unsupported? {
        cmderr := NOTSUP;
      } else if st.CustomRegister? {
        AnswerCustom();
      } else {
        StartCommand();
      }
    }

    method PerformAbstractCommand()
      requires Ok()
      modifies this, data, code
      ensures Ok() && Value() == Perform(cfg, old(Value()))
    {
      PerformValid(cfg, Value());
      if cmderr != NONE {
        return;
      }
      if busy {
        cmderr := BUSY;
        return;
      }
      if !(hartsel < 2 ==> available[hartsel]) {
        cmderr := HALTRESUME;
        return;
      }
      if command / 0x100_0000 != 0 {
        cmderr := NOTSUP;
        return;
      }
      if cfg.hartids[hartsel] !in halted {
        cmderr := HALTRESUME;
        return;
      }
      RunCommand();
    }

    /** A read access of the debugger. */
    method Read(a: nat) returns (v: nat)
      requires Ok()
      modifies this, data, code
      ensures Ok() && Value() == DmiRead(cfg, old(Value()), a)
      ensures DmiValue(cfg, old(Value()), a).Some? ==> v == DmiValue(cfg, old(Value()), a).value
    {
      v := 0;
      if IsData(a) {
        var i := a - DM_DATA0;
        v := if busy then WORD - 1 else data[i];
        if busy && cmderr == NONE {
          cmderr := BUSY;
        }
        if !busy && Bit(autoData, i) {
          PerformAbstractCommand();
        }
      } else if IsProg(cfg, a) {
        var i := a - DM_PROGBUF0;
        v := if busy then WORD - 1 else prog[i];
        if !busy && Bit(autoProg, i) {
          PerformAbstractCommand();
        }
      } else if a == DM_ABSTRACTCS {
        v := cfg.progbufsize % 0x20 * 0x100_0000 + (if busy then 0x1000 else 0) + cmderr as nat * 0x100 + 2;
      } else if a == DM_ABSTRACTAUTO {
        v := autoProg * 0x1_0000 + autoData;
      }
    }

    method WriteData(i: nat, v: nat)
      requires Ok() && i < 2 && v < WORD
      modifies this, data, code
      ensures Value() == DmiWrite(cfg, old(Value()), DM_DATA0 + i, v)
    {
      ghost var s := Value();
      if !busy {
        data[i] := v;
      }
      if busy && cmderr == NONE {
        cmderr := BUSY;
      }
      if !busy && Bit(autoData, i) {
        PerformAbstractCommand();
      }
    }

    method WriteProg(i: nat, v: nat)
      requires Ok() && i < cfg.progbufsize && v < WORD
      modifies this, data, prog, code
      ensures Value() == DmiWrite(cfg, old(Value()), DM_PROGBUF0 + i, v)
    {
      if !busy {
        prog[i] := v;
      }
      if !busy && Bit(autoProg, i) {
        PerformAbstractCommand();
      }
    }

    method ResetModule()
      modifies this
      ensures Value() == Reset(old(Value()))
    {
      cmderr, busy, autoData, autoProg, hartsel := NONE, false, 0, 0, 0;
    }

    /** Selects a hart and resets harts. */
    method ControlHarts(v: nat)
      requires cfg.hartids != [] && |available| == 2
      modifies this
      ensures Value() == ControlledHarts(cfg, old(Value()), v)
    {
      var n := v / 0x40 % 0x400 * 0x400 + v / 0x1_0000 % 0x400;
      hartsel := if n < |cfg.hartids| then n else |cfg.hartids| - 1;
      var hart := cfg.hartids[hartsel];
      if v / 0x2000_0000 % 2 == 1 && (hart < 2 ==> available[hart]) {
        halted := halted - {hart};
      }
      if v / 2 % 2 == 1 {
        halted := {};
      }
    }

    method WriteControl(v: nat)
      requires Ok() && v < WORD
      modifies this
      ensures Value() == Control(cfg, old(Value()), v)
    {
      if !active && v % 2 == 1 {
        ResetModule();
      }
      active := v % 2 == 1;
      if active {
        ControlHarts(v);
      }
    }

    /** The registers that have no other effect than on fields, and the command register. */
    method WriteOther(a: nat, v: nat)
      requires Ok() && v < WORD && !IsData(a) && !IsProg(cfg, a) && a != DM_DMCONTROL
      modifies this, data, code
      ensures Value() == DmiWrite(cfg, old(Value()), a, v)
    {
      if a == DM_COMMAND {
        command := v;
        PerformAbstractCommand();
      } else if a == DM_ABSTRACTCS {
        cmderr := cmderr & !ErrField(v);
      } else if a == DM_ABSTRACTAUTO {
        autoProg, autoData := v / 0x1_0000 % 0x1_0000, v % 0x1000;
      } else if a == DM_CUSTOM {
        available := [v % 2 == 1, v / 2 % 2 == 1];
      }
    }

    /** A write access of the debugger. */
    method Write(a: nat, v: nat)
      requires Ok() && v < WORD
      modifies this, data, prog, code
      ensures Ok() && Value() == DmiWrite(cfg, old(Value()), a, v)
    {
      ghost var s := Value();
      ghost var goal := DmiWrite(cfg, s, a, v);
      WriteValid(cfg, s, a, v);
      WriteAny(a, v, goal);
    }

    /** Does what the register at address a is for. */
    method WriteAny(a: nat, v: nat, ghost goal: State)
      requires Ok() && v < WORD && goal == DmiWrite(cfg, Value(), a, v)
      modifies this, data, prog, code
      ensures Value() == goal
    {
      if IsData(a) {
        WriteData(a - DM_DATA0, v);
      } else if IsProg(cfg, a) {
        WriteProg(a - DM_PROGBUF0, v);
      } else if a == DM_DMCONTROL {
        WriteControl(v);
      } else {
        WriteOther(a, v);
      }
    }

    /** A store of a hart. */
    method HartStores(st: HartStore)
      requires Ok()
      modifies this, data, prog
      ensures Ok() && Value() == HartStored(cfg, old(Value()), st)
    {
      StoreValid(cfg, Value(), st);
      match st
      case StoreData(i, v) => StoreWord(st);
      case StoreProg(i, v) => StoreWord(st);
      case Halted(id) =>
        halted := halted + {id};
        if cfg.hartids[hartsel] == id && id !in go {
          completed := true;
        }
      case Going(id) => go := go - {id};
      case Resuming(id) => halted := halted - {id};
      case Exception => if cmderr == NONE { cmderr := EXCEPTION; }
    }

    /** A store to the data words or the program buffer. */
    method StoreWord(st: HartStore)
      requires Ok() && (st.StoreData? || st.StoreProg?)
      modifies data, prog
      ensures Value() == HartStored(cfg, old(Value()), st)
    {
      match st
      case StoreData(i, v) => if i < 2 && v < WORD { data[i] := v; }
      case StoreProg(i, v) => if i < prog.Length { prog[i] := v; }
    }

    /** One cycle in Run-Test/Idle. */
    method RunTestIdle()
      requires Ok()
      modifies this
      ensures Ok() && Value() == Idle(old(Value()))
    {
      if rti > 0 {
        rti := rti - 1;
      }
      if rti == 0 && busy && completed {
        busy := false;
      }
    }
  }
}
