/**
  The debug module between a debugger and the harts: abstract commands, the busy flag, the sticky
  command error, and the stores with which a hart reports back.
  */
module DebugProtocol {
  import opened Options
  import opened DebugIsa
  import P = DebugProgram
  import H = DebugHart
  import Bits

  const DM_DATA0: nat := 0x04
  const DM_DMCONTROL: nat := 0x10
  const DM_ABSTRACTCS: nat := 0x16
  const DM_COMMAND: nat := 0x17
  const DM_ABSTRACTAUTO: nat := 0x18
  const DM_CUSTOM: nat := 0x1f
  const DM_PROGBUF0: nat := 0x20

  const NONE: bv3 := 0
  const BUSY: bv3 := 1
  const NOTSUP: bv3 := 2
  const EXCEPTION: bv3 := 3
  const HALTRESUME: bv3 := 4

  /**
    Parameters of the module: the words it assembles for a command word, what it leaves in the buffer
    when it finds on the way that a command is not supported, the size of the program buffer, the
    delay of a command, and the ids of the harts.
    */
  datatype Config = Config(assemble: nat -> P.Code, leftover: nat -> seq<nat>, progbufsize: nat, abstractRti: nat,
    hartids: seq<nat>)

  /** Fields of the module. Harts are listed by id in sets. */
  datatype State = State(
    cmderr: bv3, busy: bool, completed: bool, rti: nat,
    command: nat, autoData: nat, autoProg: nat,
    data: seq<nat>, prog: seq<nat>, code: seq<nat>,
    go: set<nat>, halted: set<nat>,
    hartsel: nat, active: bool, available: seq<bool>, customBase: nat)

  ghost predicate Valid(cfg: Config, s: State) {
    && |s.data| == 2 && |s.prog| >= cfg.progbufsize && |s.code| == P.BUFFER && |s.available| == 2
    && (forall c :: cfg.assemble(c).Words? ==> |cfg.assemble(c).words| <= P.BUFFER)
          && (forall c :: |cfg.leftover(c)| <= P.BUFFER)
    && cfg.hartids != [] && s.hartsel < |cfg.hartids|
    && s.data[0] < WORD && s.data[1] < WORD && s.customBase < WORD
  }

  function Bit(v: nat, i: nat): bool {
    v / Pow(i) % 2 == 1
  }

  function Pow(i: nat): (r: nat)
    ensures r >= 1
  {
    if i == 0 then 1 else 2 * Pow(i - 1)
  }

  /** Fields of a command word. */
  function Size(c: nat): nat { c / 0x10_0000 % 8 }
  function Postexec(c: nat): bool { c / 0x4_0000 % 2 == 1 }
  function Transfer(c: nat): bool { c / 0x2_0000 % 2 == 1 }
  function Writes(c: nat): bool { c / 0x1_0000 % 2 == 1 }
  function Regno(c: nat): nat { c % 0x1_0000 }

  function Selected(cfg: Config, s: State): nat
    requires s.hartsel < |cfg.hartids|
  {
    cfg.hartids[s.hartsel]
  }

  predicate Available(s: State, hart: nat)
    requires |s.available| == 2
  {
    hart < 2 ==> s.available[hart]
  }

  // ---------------------------------------------------------------------------------------
  // Performing a command
  // ---------------------------------------------------------------------------------------

  function CodeOf(access: P.Config, c: nat): P.Code {
    P.CommandCode(access, Transfer(c), Writes(c), Size(c), Regno(c), Postexec(c))
  }

  /** What is already in the buffer when the register or its size turns out not to be supported. */
  function Abandoned(access: P.Config, write: bool, regno: nat): seq<nat> {
    (if P.IsFpu(regno) then P.Prologue() else [])
    + (if regno < 0x1000 && access.csrAccess then
         (if P.IsFpu(regno) then [] else [csrw(S0, CSR_DSCRATCH0)]) + (if write then [] else [csrr(S0, regno)])
       else [])
  }

  /** The module assembles commands for this configuration. */
  ghost predicate Assembles(cfg: Config, access: P.Config) {
    && (forall c: nat :: cfg.assemble(c) == CodeOf(access, c))
    && (forall c: nat :: cfg.leftover(c) == Abandoned(access, Writes(c), Regno(c)))
  }

  function ConfigFor(access: P.Config, progbufsize: nat, abstractRti: nat, hartids: seq<nat>): Config {
    Config((c: nat) => CodeOf(access, c), (c: nat) => Abandoned(access, Writes(c), Regno(c)), progbufsize,
      abstractRti, hartids)
  }

  /** The buffer with these words at its start. */
  function Over(words: seq<nat>, code: seq<nat>): seq<nat> {
    if |words| <= |code| then words + code[|words|..] else words
  }

  function RunCode(cfg: Config, s: State): State
    requires s.hartsel < |cfg.hartids| && |s.data| == 2
  {
    var c := s.command;
    match cfg.assemble(c)
    case Words(ws) =>
      s.(code := Over(ws, s.code), go := s.go + {Selected(cfg, s)}, rti := cfg.abstractRti, completed := false,
        busy := true)
    case Custom =>
      var n := Regno(c) - 0xc000;
      var t := s.(code := Over(cfg.leftover(c), s.code));
      if Writes(c) then t.(customBase := (s.data[0] - n) % WORD) else t.(data := [(n + s.customBase) % WORD, 0])
    case NotSupported =>
      s.(code := Over(cfg.leftover(c), s.code), cmderr := NOTSUP)
  }

  function Perform(cfg: Config, s: State): State
    requires Valid(cfg, s)
  {
    if s.cmderr != NONE then s
    else if s.busy then s.(cmderr := BUSY)
    else if !Available(s, s.hartsel) then s.(cmderr := HALTRESUME)
    else if s.command / 0x100_0000 != 0 then s.(cmderr := NOTSUP)
    else if Selected(cfg, s) !in s.halted then s.(cmderr := HALTRESUME)
    else RunCode(cfg, s)
  }

  // ---------------------------------------------------------------------------------------
  // The debugger
  // ---------------------------------------------------------------------------------------

  predicate IsData(a: nat) { DM_DATA0 <= a < DM_DATA0 + 2 }
  predicate IsProg(cfg: Config, a: nat) { DM_PROGBUF0 <= a < DM_PROGBUF0 + cfg.progbufsize }

  /** The module after a read access of the debugger. */
  function DmiRead(cfg: Config, s: State, a: nat): State
    requires Valid(cfg, s)
  {
    if IsData(a) then
      var t := if s.busy && s.cmderr == NONE then s.(cmderr := BUSY) else s;
      if !s.busy && Bit(s.autoData, a - DM_DATA0) then Perform(cfg, t) else t
    else if IsProg(cfg, a) then
      if !s.busy && Bit(s.autoProg, a - DM_PROGBUF0) then Perform(cfg, s) else s
    else s
  }

  /**
    The value that the debugger reads, where it depends on what is modelled: data words and program
    buffer, all ones while a command runs, abstractcs and abstractauto.
    */
  function DmiValue(cfg: Config, s: State, a: nat): Option<nat>
    requires Valid(cfg, s)
  {
    if IsData(a) then Some(if s.busy then WORD - 1 else s.data[a - DM_DATA0])
    else if IsProg(cfg, a) then Some(if s.busy then WORD - 1 else s.prog[a - DM_PROGBUF0])
    else if a == DM_ABSTRACTCS then
      Some(cfg.progbufsize % 0x20 * 0x100_0000 + (if s.busy then 0x1000 else 0) + s.cmderr as nat * 0x100 + 2)
    else if a == DM_ABSTRACTAUTO then Some(s.autoProg * 0x1_0000 + s.autoData)
    else None
  }

  /** The selected hart of a write to dmcontrol. */
  function SelectedBy(cfg: Config, v: nat): nat
    requires cfg.hartids != []
  {
    var n := v / 0x40 % 0x400 * 0x400 + v / 0x1_0000 % 0x400;
    if n < |cfg.hartids| then n else |cfg.hartids| - 1
  }

  function Reset(s: State): State {
    s.(cmderr := NONE, busy := false, autoData := 0, autoProg := 0, hartsel := 0)
  }

  /** A write to dmcontrol. */
  function Control(cfg: Config, s: State, v: nat): State
    requires Valid(cfg, s)
  {
    var t := if !s.active && v % 2 == 1 then Reset(s) else s;
    var u := t.(active := v % 2 == 1);
    if u.active then ControlledHarts(cfg, u, v) else u
  }

  /** Selects a hart and resets harts, which are not halted then. */
  function ControlledHarts(cfg: Config, s: State, v: nat): State
    requires cfg.hartids != [] && |s.available| == 2
  {
    var n := SelectedBy(cfg, v);
    var hart := cfg.hartids[n];
    s.(hartsel := n,
       halted := if v / 2 % 2 == 1 then {} else if v / 0x2000_0000 % 2 == 1
         && Available(s, hart) then s.halted - {hart} else s.halted)
  }

  /** Does the access reset the module? */
  predicate Resets(s: State, a: nat, v: nat) {
    a == DM_DMCONTROL && !s.active && v % 2 == 1
  }

  /** The module after a write access of the debugger. */
  function DmiWrite(cfg: Config, s: State, a: nat, v: nat): State
    requires Valid(cfg, s) && v < WORD
  {
    if IsData(a) then
      var t := if s.busy then s else s.(data := s.data[a - DM_DATA0 := v]);
      var u := if s.busy && s.cmderr == NONE then t.(cmderr := BUSY) else t;
      if !s.busy && Bit(s.autoData, a - DM_DATA0) then Perform(cfg, u) else u
    else if IsProg(cfg, a) then
      var t := if s.busy then s else s.(prog := s.prog[a - DM_PROGBUF0 := v]);
      if !s.busy && Bit(s.autoProg, a - DM_PROGBUF0) then Perform(cfg, t) else t
    else if a == DM_DMCONTROL then Control(cfg, s, v)
    else if a == DM_COMMAND then Perform(cfg, s.(command := v))
    else if a == DM_ABSTRACTCS then s.(cmderr := s.cmderr & !ErrField(v))
    else if a == DM_ABSTRACTAUTO then s.(autoProg := v / 0x1_0000 % 0x1_0000, autoData := v % 0x1000)
    else if a == DM_CUSTOM then s.(available := [v % 2 == 1, v / 2 % 2 == 1])
    else s
  }

  function ErrField(v: nat): bv3 {
    (v / 0x100 % 8) as bv3
  }

  // ---------------------------------------------------------------------------------------
  // The harts and time
  // ---------------------------------------------------------------------------------------

  datatype HartStore =
    | StoreData(i: nat, v: nat)
    | StoreProg(i: nat, v: nat)
    | Halted(id: nat)
    | Going(id: nat)
    | Resuming(id: nat)
    | Exception

  function HartStored(cfg: Config, s: State, st: HartStore): State
    requires Valid(cfg, s)
  {
    match st
    case StoreData(i, v) => if i < 2 && v < WORD then s.(data := s.data[i := v]) else s
    case StoreProg(i, v) => if i < |s.prog| then s.(prog := s.prog[i := v]) else s
    case Halted(id) =>
      var t := s.(halted := s.halted + {id});
      if Selected(cfg, s) == id && id !in s.go then t.(completed := true) else t
    case Going(id) => s.(go := s.go - {id})
    case Resuming(id) => s.(halted := s.halted - {id})
    case Exception => if s.cmderr == NONE then s.(cmderr := EXCEPTION) else s
  }

  /** One cycle in Run-Test/Idle. */
  function Idle(s: State): State {
    var t := if s.rti > 0 then s.(rti := s.rti - 1) else s;
    if t.rti == 0 && t.busy && t.completed then t.(busy := false) else t
  }

  // ---------------------------------------------------------------------------------------
  // Runs
  // ---------------------------------------------------------------------------------------

  datatype Event =
    | Read(a: nat)
    | Write_(a: nat, v: nat)
    | ByHart(st: HartStore)
    | Tick
    | HartReset(id: nat)

  function Step(cfg: Config, s: State, e: Event): State
    requires Valid(cfg, s)
  {
    match e
    case Read(a) => DmiRead(cfg, s, a)
    case Write_(a, v) => if v < WORD then DmiWrite(cfg, s, a, v) else s
    case ByHart(st) => HartStored(cfg, s, st)
    case Tick => Idle(s)
    case HartReset(id) => s.(halted := s.halted - {id})
  }

  lemma {:induction false} PerformValid(cfg: Config, s: State)
    requires Valid(cfg, s)
    ensures Valid(cfg, Perform(cfg, s))
  {
  }

  /** The words always fit in the buffer. */
  lemma {:induction false} AssembledFits(cfg: Config, access: P.Config)
    requires Assembles(cfg, access)
    ensures (forall c :: cfg.assemble(c).Words? ==> |cfg.assemble(c).words| <= P.BUFFER)
            && (forall c :: |cfg.leftover(c)| <= P.BUFFER)
  {
    forall c: nat | cfg.assemble(c).Words?
      ensures |cfg.assemble(c).words| <= P.BUFFER
    {
      P.CodeFits(access, Transfer(c), Writes(c), Size(c), Regno(c), Postexec(c));
    }
  }

  lemma {:induction false} ReadValid(cfg: Config, s: State, a: nat)
    requires Valid(cfg, s)
    ensures Valid(cfg, DmiRead(cfg, s, a))
  {
    if !s.busy {
      PerformValid(cfg, s);
    }
  }

  lemma {:induction false} ControlValid(cfg: Config, s: State, v: nat)
    requires Valid(cfg, s)
    ensures Valid(cfg, Control(cfg, s, v))
  {
  }

  lemma {:induction false} WriteValid(cfg: Config, s: State, a: nat, v: nat)
    requires Valid(cfg, s) && v < WORD
    ensures Valid(cfg, DmiWrite(cfg, s, a, v))
  {
    if IsData(a) {
      if !s.busy {
        PerformValid(cfg, s.(data := s.data[a - DM_DATA0 := v]));
      }
    } else if IsProg(cfg, a) {
      if !s.busy {
        PerformValid(cfg, s.(prog := s.prog[a - DM_PROGBUF0 := v]));
      }
    } else if a == DM_DMCONTROL {
      ControlValid(cfg, s, v);
    } else if a == DM_COMMAND {
      PerformValid(cfg, s.(command := v));
    }
  }

  lemma {:induction false} StepValid(cfg: Config, s: State, e: Event)
    requires Valid(cfg, s)
    ensures Valid(cfg, Step(cfg, s, e))
  {
    match e
    case Read(a) => ReadValid(cfg, s, a);
    case Write_(a, v) => if v < WORD { WriteValid(cfg, s, a, v); }
    case ByHart(st) => StoreValid(cfg, s, st);
    case _ =>
  }

  lemma {:induction false} StoreValid(cfg: Config, s: State, st: HartStore)
    requires Valid(cfg, s)
    ensures Valid(cfg, HartStored(cfg, s, st))
  {
  }

  function Run(cfg: Config, s: State, es: seq<Event>): State
    requires Valid(cfg, s)
    decreases |es|
  {
    if es == [] then s
    else
      StepValid(cfg, s, es[0]);
      Run(cfg, Step(cfg, s, es[0]), es[1..])
  }

  /** The access does not reset the module. */
  predicate Keeps(s: State, e: Event) {
    !(e.Write_? && Resets(s, e.a, e.v))
  }

  // ---------------------------------------------------------------------------------------
  // Busy
  // ---------------------------------------------------------------------------------------

  /** Data words, program buffer, assembled code and progress of the command. */
  predicate SameCommand(s: State, t: State) {
    && t.data == s.data && t.prog == s.prog && t.code == s.code && t.go == s.go
    && t.busy == s.busy && t.completed == s.completed && t.rti == s.rti
  }

  /** While a command runs, no access of the debugger gets through to it. */
  lemma {:induction false} BusyFreezes(cfg: Config, s: State, e: Event)
    requires Valid(cfg, s) && s.busy && Keeps(s, e) && (e.Read? || e.Write_?)
    ensures SameCommand(s, Step(cfg, s, e))
  {
    if e.Write_? && e.v < WORD {
      BusyWrite(cfg, s, e.a, e.v);
    }
  }

  lemma {:induction false} BusyWrite(cfg: Config, s: State, a: nat, v: nat)
    requires Valid(cfg, s) && s.busy && v < WORD && !Resets(s, a, v)
    ensures SameCommand(s, DmiWrite(cfg, s, a, v))
  {
    if a == DM_DMCONTROL {
      assert SameCommand(s, Control(cfg, s, v));
    }
  }

  /** What the store of a hart alone does to the data words and the program buffer. */
  function StoredOnly(data: seq<nat>, prog: seq<nat>, e: Event): (seq<nat>, seq<nat>) {
    match e
    case ByHart(StoreData(i, v)) => (if i < |data| && v < WORD then data[i := v] else data, prog)
    case ByHart(StoreProg(i, v)) => (data, if i < |prog| then prog[i := v] else prog)
    case _ => (data, prog)
  }

  /** The same for a whole run. */
  function HartOnly(data: seq<nat>, prog: seq<nat>, es: seq<Event>): (seq<nat>, seq<nat>)
    decreases |es|
  {
    if es == [] then (data, prog)
    else
      var x := StoredOnly(data, prog, es[0]);
      HartOnly(x.0, x.1, es[1..])
  }

  /** The command runs all the while, and the module is not reset. */
  predicate BusyThroughout(cfg: Config, s: State, es: seq<Event>)
    requires Valid(cfg, s)
    decreases |es|
  {
    s.busy && (es == [] || (Keeps(s, es[0]) && (StepValid(cfg, s, es[0]);
      BusyThroughout(cfg, Step(cfg, s, es[0]), es[1..]))))
  }

  lemma {:induction false} HartStep(cfg: Config, s: State, e: Event)
    requires Valid(cfg, s) && s.busy && !e.Read? && !e.Write_?
    ensures var t := Step(cfg, s, e); t.code == s.code && (t.data, t.prog) == StoredOnly(s.data, s.prog, e)
  {
    match e
    case ByHart(st) => StoreStep(cfg, s, st);
    case _ =>
  }

  lemma {:induction false} StoreStep(cfg: Config, s: State, st: HartStore)
    requires Valid(cfg, s)
    ensures var t := HartStored(cfg, s, st);
            t.code == s.code && (t.data, t.prog) == StoredOnly(s.data, s.prog, ByHart(st))
  {
    match st
    case StoreData(i, v) =>
    case StoreProg(i, v) =>
    case _ =>
  }

  /**
    As long as a command runs, the assembled code stays as it is, and data words and program buffer
    are what the harts' own stores made of them, whatever the debugger does meanwhile.
    */
  lemma {:induction false} OnlyHartsWhileBusy(cfg: Config, s: State, es: seq<Event>)
    requires Valid(cfg, s) && BusyThroughout(cfg, s, es)
    ensures var t := Run(cfg, s, es); t.busy && t.code == s.code && (t.data, t.prog) == HartOnly(s.data, s.prog, es)
    decreases |es|
  {
    if es != [] {
      var e := es[0];
      StepValid(cfg, s, e);
      if e.Read? || e.Write_? {
        BusyFreezes(cfg, s, e);
      } else {
        HartStep(cfg, s, e);
      }
      OnlyHartsWhileBusy(cfg, Step(cfg, s, e), es[1..]);
    }
  }

  // ---------------------------------------------------------------------------------------
  // Errors
  // ---------------------------------------------------------------------------------------

  /** The error bits that an event clears. */
  function Cleared(e: Event): bv3 {
    if e.Write_? && e.a == DM_ABSTRACTCS && e.v < WORD then ErrField(e.v) else 0
  }

  /** A pending error stays but for the bits the debugger clears, and no command starts meanwhile. */
  lemma {:induction false} ErrorBlocks(cfg: Config, s: State, e: Event)
    requires Valid(cfg, s) && s.cmderr != NONE && Keeps(s, e)
    ensures var t := Step(cfg, s, e);
            t.cmderr == s.cmderr & !Cleared(e) && t.code == s.code && t.go <= s.go && (t.busy ==> s.busy)
  {
    match e
    case Read(a) => BlockedRead(cfg, s, a);
    case Write_(a, v) => if v < WORD { BlockedWrite(cfg, s, a, v); }
    case ByHart(st) => BlockedStore(cfg, s, st);
    case _ =>
  }

  predicate Blocked(s: State, t: State) {
    t.code == s.code && t.go <= s.go && (t.busy ==> s.busy)
  }

  lemma {:induction false} BlockedRead(cfg: Config, s: State, a: nat)
    requires Valid(cfg, s) && s.cmderr != NONE
    ensures DmiRead(cfg, s, a) == s
  {
  }

  lemma {:induction false} BlockedWrite(cfg: Config, s: State, a: nat, v: nat)
    requires Valid(cfg, s) && s.cmderr != NONE && v < WORD && !Resets(s, a, v)
    ensures var t := DmiWrite(cfg, s, a, v);
            Blocked(s, t) && t.cmderr == if a == DM_ABSTRACTCS then s.cmderr & !ErrField(v) else s.cmderr
  {
    if IsData(a) || IsProg(cfg, a) {
      BlockedBuffers(cfg, s, a, v);
    } else if a == DM_DMCONTROL {
      BlockedControl(cfg, s, v);
    } else if a == DM_COMMAND {
      BlockedPerform(cfg, s.(command := v));
    }
  }

  /** Writes to data words and program buffer. */
  lemma {:induction false} BlockedBuffers(cfg: Config, s: State, a: nat, v: nat)
    requires Valid(cfg, s) && s.cmderr != NONE && v < WORD && (IsData(a) || IsProg(cfg, a))
    ensures a != DM_ABSTRACTCS
    ensures var t := DmiWrite(cfg, s, a, v); Blocked(s, t) && t.cmderr == s.cmderr
  {
    if IsData(a) {
      BlockedPerform(cfg, if s.busy then s else s.(data := s.data[a - DM_DATA0 := v]));
    } else {
      BlockedPerform(cfg, if s.busy then s else s.(prog := s.prog[a - DM_PROGBUF0 := v]));
    }
  }

  lemma {:induction false} BlockedControl(cfg: Config, s: State, v: nat)
    requires Valid(cfg, s) && !Resets(s, DM_DMCONTROL, v)
    ensures var t := Control(cfg, s, v); Blocked(s, t) && t.cmderr == s.cmderr
  {
  }

  lemma {:induction false} BlockedPerform(cfg: Config, s: State)
    requires Valid(cfg, s) && s.cmderr != NONE
    ensures Perform(cfg, s) == s
  {
  }

  lemma {:induction false} BlockedStore(cfg: Config, s: State, st: HartStore)
    requires Valid(cfg, s) && s.cmderr != NONE
    ensures var t := HartStored(cfg, s, st); Blocked(s, t) && t.cmderr == s.cmderr
  {
  }

  /** Over a whole run in which the debugger clears nothing, an error stays and nothing starts. */
  lemma {:induction false} ErrorSticks(cfg: Config, s: State, es: seq<Event>)
    requires Valid(cfg, s) && s.cmderr != NONE && NeverReset(cfg, s, es) && forall i :: 0 <= i < |es| ==>
             Cleared(es[i]) == 0
    ensures var t := Run(cfg, s, es); t.cmderr == s.cmderr && t.code == s.code && t.go <= s.go && (t.busy ==> s.busy)
    decreases |es|
  {
    if es != [] {
      StepValid(cfg, s, es[0]);
      ErrorBlocks(cfg, s, es[0]);
      assert Cleared(es[0]) == 0;
      ErrorSticks(cfg, Step(cfg, s, es[0]), es[1..]);
    }
  }

  predicate NeverReset(cfg: Config, s: State, es: seq<Event>)
    requires Valid(cfg, s)
    decreases |es|
  {
    es == [] || (Keeps(s, es[0]) && (StepValid(cfg, s, es[0]); NeverReset(cfg, Step(cfg, s, es[0]), es[1..])))
  }

  /** One error turns into another exactly when the debugger clears some of its bits but not all. */
  lemma {:induction false} ErrorReplaced(cfg: Config, s: State, e: Event)
    requires Valid(cfg, s) && s.cmderr != NONE && Keeps(s, e)
    ensures var t := Step(cfg, s, e).cmderr;
            t != s.cmderr && t != NONE <==> s.cmderr & Cleared(e) != 0 && s.cmderr & !Cleared(e) != 0
  {
    ErrorBlocks(cfg, s, e);
  }

  /** An exception whose lowest bit is cleared reads as an unsupported command. */
  lemma {:induction false} ExceptionBecomesNotSupported(cfg: Config, s: State)
    requires Valid(cfg, s) && s.cmderr == EXCEPTION
    ensures Step(cfg, s, Write_(DM_ABSTRACTCS, 0x100)).cmderr == NOTSUP
  {
  }

  // ---------------------------------------------------------------------------------------
  // From the command to its end
  // ---------------------------------------------------------------------------------------

  /** A command can start: no error is pending, none is running, the selected hart is there and halted. */
  predicate Ready(cfg: Config, s: State)
    requires Valid(cfg, s)
  {
    s.cmderr == NONE && !s.busy && Available(s, s.hartsel) && Selected(cfg, s) in s.halted
  }

  lemma {:induction false} CommandStarts(cfg: Config, s: State, c: nat)
    requires Valid(cfg, s) && Ready(cfg, s) && c < 0x100_0000 && cfg.assemble(c).Words?
    ensures var t := DmiWrite(cfg, s, DM_COMMAND, c); var ws := cfg.assemble(c).words;
            && t.busy && t.cmderr == NONE && !t.completed && t.rti == cfg.abstractRti
                 && t.go == s.go + {Selected(cfg, s)}
            && t.data == s.data && t.prog == s.prog && t.hartsel == s.hartsel && |ws| <= |t.code|
                 && t.code[..|ws|] == ws
  {
    var ws := cfg.assemble(c).words;
    assert (ws + s.code[|ws|..])[..|ws|] == ws;
  }

  /** Writing a command makes the hart that executes the buffer perform exactly this command. */
  lemma {:induction false} CommandPerformed(cfg: Config, access: P.Config, env: H.Env, s: State, c: nat, h: H.Hart)
    requires Valid(cfg, s) && Assembles(cfg, access) && Ready(cfg, s) && c < 0x100_0000 && cfg.assemble(c).Words?
    requires P.Lawful(env, h) && (Transfer(c) ==> P.Reachable(env, Writes(c), Regno(c)) && P.FpReady(env, Regno(c), h))
    ensures Transfer(c) ==> Regno(c) < 0x1040
    ensures var t := DmiWrite(cfg, s, DM_COMMAND, c);
            var k := P.Performed(env, Transfer(c), Writes(c), Size(c) == 3, Regno(c), h);
            t.busy && H.Run(env, H.DecodeAll(t.code), 0, h) == if Postexec(c) then H.Jumped(k, 4 * P.BUFFER)
              else H.Stopped(k)
  {
    CommandStarts(cfg, s, c);
    var t := DmiWrite(cfg, s, DM_COMMAND, c);
    P.CommandRuns(access, env, Transfer(c), Writes(c), Size(c), Regno(c), Postexec(c), t.code, h);
  }

  function Ticks(n: nat): seq<Event> {
    seq(n, _ => Tick)
  }

  lemma {:induction false} TicksEnd(cfg: Config, s: State, n: nat)
    requires Valid(cfg, s) && s.busy && s.completed && n >= 1 && n >= s.rti
    ensures var t := Run(cfg, s, Ticks(n)); !t.busy && t.data == s.data && t.prog == s.prog && t.cmderr == s.cmderr
    decreases n
  {
    var es := Ticks(n);
    assert es[0] == Tick && es[1..] == Ticks(n - 1);
    var t := Step(cfg, s, Tick);
    StepValid(cfg, s, Tick);
    if s.rti <= 1 {
      TicksIdle(cfg, t, n - 1);
    } else {
      TicksEnd(cfg, t, n - 1);
    }
  }

  lemma {:induction false} TicksIdle(cfg: Config, s: State, n: nat)
    requires Valid(cfg, s) && !s.busy
    ensures var t := Run(cfg, s, Ticks(n)); !t.busy && t.data == s.data && t.prog == s.prog && t.cmderr == s.cmderr
    decreases n
  {
    if n > 0 {
      var es := Ticks(n);
      assert es[0] == Tick && es[1..] == Ticks(n - 1);
      StepValid(cfg, s, Tick);
      TicksIdle(cfg, Step(cfg, s, Tick), n - 1);
    }
  }

  /**
    Once the hart has reported that it goes and that it halted again, and the delay is over, the
    command is done and its data is still there.
    */
  lemma {:induction false} CommandEnds(cfg: Config, s: State, n: nat)
    requires Valid(cfg, s) && s.busy && n >= 1 && n >= s.rti
    ensures var id := Selected(cfg, s);
            var t := Run(cfg, s, [ByHart(Going(id)), ByHart(Halted(id))] + Ticks(n));
            !t.busy && t.data == s.data && t.prog == s.prog && t.cmderr == s.cmderr
  {
    var id := Selected(cfg, s);
    var g, h := ByHart(Going(id)), ByHart(Halted(id));
    var es := [g, h] + Ticks(n);
    StepValid(cfg, s, g);
    var s1 := Step(cfg, s, g);
    StepValid(cfg, s1, h);
    var s2 := Step(cfg, s1, h);
    assert es[0] == g && es[1..][0] == h && es[1..][1..] == Ticks(n);
    TicksEnd(cfg, s2, n);
  }

  // ---------------------------------------------------------------------------------------
  // From the debugger's command to the debugger's data
  // ---------------------------------------------------------------------------------------

  lemma {:induction false} RunFirst(cfg: Config, s: State, e: Event, es: seq<Event>)
    requires Valid(cfg, s)
    ensures Valid(cfg, Step(cfg, s, e)) && Run(cfg, s, [e] + es) == Run(cfg, Step(cfg, s, e), es)
  {
    StepValid(cfg, s, e);
    assert ([e] + es)[1..] == es;
  }

  /** The data words of the module are those that the hart loads and stores. */
  predicate Shares(s: State, h: H.Hart) {
    s.data == [h.data0, h.data1]
  }

  /** The stores with which a hart fills the data words. */
  function StoresOf(k: H.Hart, wide: bool): seq<Event> {
    [ByHart(StoreData(0, k.data0))] + if wide then [ByHart(StoreData(1, k.data1))] else []
  }

  /** What happens while a hart performs a command: it goes, stores, reports that it halted, and time passes. */
  function Performance(id: nat, stores: seq<Event>, n: nat): seq<Event> {
    [ByHart(Going(id))] + (stores + ([ByHart(Halted(id))] + Ticks(n)))
  }

  lemma {:induction false} RunStores(cfg: Config, s: State, h: H.Hart, k: H.Hart, wide: bool, es: seq<Event>)
    requires Valid(cfg, s) && Shares(s, h) && k.data0 < WORD && k.data1 < WORD && (!wide ==> k.data1 == h.data1)
    ensures var t := s.(data := [k.data0, k.data1]);
            Valid(cfg, t) && Run(cfg, s, StoresOf(k, wide) + es) == Run(cfg, t, es)
  {
    var e0, e1 := ByHart(StoreData(0, k.data0)), ByHart(StoreData(1, k.data1));
    var u := s.(data := [k.data0, h.data1]);
    assert s.data[0 := k.data0] == u.data;
    if wide {
      assert StoresOf(k, wide) + es == [e0] + ([e1] + es);
      RunFirst(cfg, s, e0, [e1] + es);
      assert u.data[1 := k.data1] == [k.data0, k.data1];
      RunFirst(cfg, u, e1, es);
    } else {
      RunFirst(cfg, s, e0, es);
    }
  }

  /** A command that a hart performs ends with the hart's data words in the module. */
  lemma {:induction false} PerformanceEnds(cfg: Config, s: State, h: H.Hart, k: H.Hart, wide: bool, n: nat)
    requires Valid(cfg, s) && s.busy && Shares(s, h) && n >= 1 && n >= s.rti
    requires k.data0 < WORD && k.data1 < WORD && (!wide ==> k.data1 == h.data1)
    ensures var t := Run(cfg, s, Performance(Selected(cfg, s), StoresOf(k, wide), n));
            !t.busy && t.cmderr == s.cmderr && t.prog == s.prog && Shares(t, k)
  {
    var id := Selected(cfg, s);
    var halt := [ByHart(Halted(id))] + Ticks(n);
    RunFirst(cfg, s, ByHart(Going(id)), StoresOf(k, wide) + halt);
    var s1 := Step(cfg, s, ByHart(Going(id)));
    RunStores(cfg, s1, h, k, wide, halt);
    var s2 := s1.(data := [k.data0, k.data1]);
    RunFirst(cfg, s2, ByHart(Halted(id)), Ticks(n));
    TicksEnd(cfg, Step(cfg, s2, ByHart(Halted(id))), n);
  }

  /**
    Reading a register: the debugger writes the command, the selected hart executes the buffer, and
    once it has reported back and the delay is over, the data words hold the value of the register.
    */
  lemma {:induction false} RegisterRead(cfg: Config, access: P.Config, env: H.Env, s: State, c: nat, h: H.Hart, n: nat)
    requires Valid(cfg, s) && Assembles(cfg, access) && Ready(cfg, s) && c < 0x100_0000 && cfg.assemble(c).Words?
    requires Transfer(c) && !Writes(c) && !Postexec(c) && P.Lawful(env, h) && Shares(s, h)
    requires P.Reachable(env, false, Regno(c)) && P.FpReady(env, Regno(c), h) && n >= 1 && n >= cfg.abstractRti
    ensures Regno(c) < 0x1040
    ensures var s1 := DmiWrite(cfg, s, DM_COMMAND, c);
            var o := H.Run(env, H.DecodeAll(s1.code), 0, h);
            var v := P.RegValue(env, Regno(c), h);
            && o.Stopped?
            && var es := Performance(Selected(cfg, s), StoresOf(o.h, Size(c) == 3), n);
               var t := Run(cfg, s, [Write_(DM_COMMAND, c)] + es);
               && !t.busy && t.cmderr == NONE && Shares(t, o.h)
               && t.data == [v % WORD, if Size(c) == 3 then v / WORD % WORD else s.data[1]]
  {
    var wide := Size(c) == 3;
    CommandPerformed(cfg, access, env, s, c, h);
    CommandStarts(cfg, s, c);
    var k := P.Performed(env, true, false, wide, Regno(c), h);
    P.TransferKeeps(env, false, wide, Regno(c), h);
    var es := Performance(Selected(cfg, s), StoresOf(k, wide), n);
    RunFirst(cfg, s, Write_(DM_COMMAND, c), es);
    PerformanceEnds(cfg, DmiWrite(cfg, s, DM_COMMAND, c), h, k, wide, n);
  }

  /** Writing a register: afterwards the hart has the value of the data words, which are still there. */
  lemma {:induction false} RegisterWritten(cfg: Config, access: P.Config, env: H.Env, s: State, c: nat, h: H.Hart,
                                           n: nat)
    requires Valid(cfg, s) && Assembles(cfg, access) && Ready(cfg, s) && c < 0x100_0000 && cfg.assemble(c).Words?
    requires Transfer(c) && Writes(c) && !Postexec(c) && P.Lawful(env, h) && Shares(s, h) && Regno(c) >= 0x1001
    requires P.FpReady(env, Regno(c), h) && n >= 1 && n >= cfg.abstractRti
    ensures Regno(c) < 0x1040
    ensures var s1 := DmiWrite(cfg, s, DM_COMMAND, c);
            var o := H.Run(env, H.DecodeAll(s1.code), 0, h);
            && o.Stopped? && o.h.Valid()
            && P.RegValue(env, Regno(c), o.h) == (if Regno(c) < 0x1020 then H.Loaded(h, Size(c) == 3)
                 else H.FLoaded(h, Size(c) == 3))
            && var t := Run(cfg, s, [Write_(DM_COMMAND, c)] + Performance(Selected(cfg, s), [], n));
               !t.busy && t.cmderr == NONE && t.data == s.data && Shares(t, o.h)
  {
    var wide := Size(c) == 3;
    CommandPerformed(cfg, access, env, s, c, h);
    P.TransferKeeps(env, true, wide, Regno(c), h);
    P.StaysValid(env, true, wide, Regno(c), h);
    CommandGoesThrough(cfg, s, c, n);
  }

  /** A command that stores nothing, from the debugger's write to its end. */
  lemma {:induction false} CommandGoesThrough(cfg: Config, s: State, c: nat, n: nat)
    requires Valid(cfg, s) && Ready(cfg, s) && c < 0x100_0000 && cfg.assemble(c).Words? && n >= 1
             && n >= cfg.abstractRti
    ensures var t := Run(cfg, s, [Write_(DM_COMMAND, c)] + Performance(Selected(cfg, s), [], n));
            !t.busy && t.cmderr == NONE && t.data == s.data
  {
    CommandStarts(cfg, s, c);
    var s1, id := DmiWrite(cfg, s, DM_COMMAND, c), Selected(cfg, s);
    var es := [ByHart(Going(id)), ByHart(Halted(id))] + Ticks(n);
    assert Performance(id, [], n) == es;
    RunFirst(cfg, s, Write_(DM_COMMAND, c), es);
    CommandEnds(cfg, s1, n);
  }

  // ---------------------------------------------------------------------------------------
  // Commands as numbers
  // ---------------------------------------------------------------------------------------

  /** The fields of a register access lie where the debugger puts them; flags are given as 0 or 1. */
  lemma {:induction false} FieldsLie(size: nat, post: nat, transfer: nat, write: nat, regno: nat, c: nat)
    requires size < 8 && post < 2 && transfer < 2 && write < 2 && regno < 0x1_0000
    requires c == size * 0x10_0000 + post * 0x4_0000 + transfer * 0x2_0000 + write * 0x1_0000 + regno
    ensures c < 0x100_0000 && Size(c) == size && Regno(c) == regno
    ensures Postexec(c) == (post == 1) && Transfer(c) == (transfer == 1) && Writes(c) == (write == 1)
  {
    var top := 16 * size + 4 * post + 2 * transfer + write;
    AboveRegno(c, top, regno);
    TopFields(size, post, transfer, write, top);
  }

  lemma {:induction false} AboveRegno(c: nat, top: nat, regno: nat)
    requires c == top * 0x1_0000 + regno && regno < 0x1_0000
    ensures c / 0x1_0000 == top && c % 0x1_0000 == regno
    ensures c / 0x2_0000 == top / 2 && c / 0x4_0000 == top / 4 && c / 0x10_0000 == top / 16
  {
    assert c / 0x2_0000 == c / 0x1_0000 / 2 && c / 0x4_0000 == c / 0x1_0000 / 4 && c / 0x10_0000 == c / 0x1_0000 / 16;
  }

  lemma {:induction false} TopFields(size: nat, post: nat, transfer: nat, write: nat, top: nat)
    requires size < 8 && post < 2 && transfer < 2 && write < 2 && top == 16 * size + 4 * post + 2 * transfer + write
    ensures top / 16 % 8 == size && top / 4 % 2 == post && top / 2 % 2 == transfer && top % 2 == write
  {
    assert top / 2 == 8 * size + 2 * post + transfer && top / 4 == 4 * size + post && top / 16 == size;
  }

  /** The module when a command was written and performed with these stores, and n cycles have passed. */
  function Ran(cfg: Config, s: State, c: nat, stores: seq<Event>, n: nat): State
    requires Valid(cfg, s)
  {
    Run(cfg, s, [Write_(0x17, c)] + Performance(Selected(cfg, s), stores, n))
  }

  /** The debugger sees an idle module without error and these data words. */
  ghost predicate Shown(cfg: Config, t: State, d0: nat, d1: nat) {
    && Valid(cfg, t)
    && DmiValue(cfg, t, 0x16) == Some(cfg.progbufsize % 0x20 * 0x100_0000 + 2)
    && DmiValue(cfg, t, 0x04) == Some(d0) && DmiValue(cfg, t, 0x05) == Some(d1)
  }

  /** Registers that the module has access to: CSRs and floating-point registers if configured, general ones always. */
  predicate Supported(access: P.Config, regno: nat) {
    || (regno < 0x1000 && access.csrAccess) || 0x1000 <= regno < 0x1020
    || (0x1020 <= regno < 0x1040 && access.fprAccess)
  }

  lemma {:induction false} SupportedWords(cfg: Config, access: P.Config, c: nat)
    requires Assembles(cfg, access) && Transfer(c) && (Size(c) == 2 || Size(c) == 3) && Supported(access, Regno(c))
    ensures cfg.assemble(c).Words?
  {
    assert cfg.assemble(c) == CodeOf(access, c);
  }

  /** What the selected hart does when the debugger has written the command c: it executes the buffer. */
  ghost function Executed(cfg: Config, s: State, c: nat, env: H.Env, h: H.Hart): H.Outcome
    requires Valid(cfg, s) && c < WORD && h.Valid()
  {
    H.Run(env, H.DecodeAll(DmiWrite(cfg, s, 0x17, c).code), 0, h)
  }

  lemma {:induction false} RunValid(cfg: Config, s: State, es: seq<Event>)
    requires Valid(cfg, s)
    ensures Valid(cfg, Run(cfg, s, es))
    decreases |es|
  {
    if es != [] {
      StepValid(cfg, s, es[0]);
      RunValid(cfg, Step(cfg, s, es[0]), es[1..]);
    }
  }

  lemma {:induction false} IdleShows(cfg: Config, s: State, c: nat, stores: seq<Event>, n: nat)
    requires Valid(cfg, s) && !Ran(cfg, s, c, stores, n).busy && Ran(cfg, s, c, stores, n).cmderr == NONE
    ensures var t := Ran(cfg, s, c, stores, n); |t.data| == 2 && Shown(cfg, t, t.data[0], t.data[1])
  {
    RunValid(cfg, s, [Write_(0x17, c)] + Performance(Selected(cfg, s), stores, n));
  }

  lemma {:induction false} ReadsAs(cfg: Config, access: P.Config, env: H.Env, s: State, c: nat, wide: bool, regno: nat,
                                   h: H.Hart, n: nat) returns (o: H.Outcome)
    requires Valid(cfg, s) && Assembles(cfg, access) && Ready(cfg, s) && Supported(access, regno)
    requires c < 0x100_0000 && Transfer(c) && !Writes(c) && !Postexec(c) && Size(c) == (if wide then 3 else 2)
             && Regno(c) == regno
    requires P.Lawful(env, h) && Shares(s, h) && P.Reachable(env, false, regno) && P.FpReady(env, regno, h)
    requires n >= 1 && n >= cfg.abstractRti
    ensures o == Executed(cfg, s, c, env, h) && o.Stopped?
    ensures Shown(cfg, Ran(cfg, s, c, StoresOf(o.h, wide), n), P.RegValue(env, regno, h) % WORD,
              if wide then P.RegValue(env, regno, h) / WORD % WORD else s.data[1])
  {
    SupportedWords(cfg, access, c);
    RegisterRead(cfg, access, env, s, c, h, n);
    o := Executed(cfg, s, c, env, h);
    IdleShows(cfg, s, c, StoresOf(o.h, wide), n);
  }

  /**
    Reading a register, as the debugger sees it. It writes 0x220000 plus the register number to the
    command register, or 0x320000 for 64 bits; the selected hart executes the buffer and reports
    back. Then abstractcs reads as idle without error, and the data registers read as the value.
    */
  lemma {:induction false} DebuggerReads(cfg: Config, access: P.Config, env: H.Env, s: State, wide: bool, regno: nat,
                                         h: H.Hart, n: nat, c: nat) returns (o: H.Outcome)
    requires Valid(cfg, s) && Assembles(cfg, access) && Ready(cfg, s) && Supported(access, regno)
    requires P.Lawful(env, h) && Shares(s, h) && P.Reachable(env, false, regno) && P.FpReady(env, regno, h)
    requires n >= 1 && n >= cfg.abstractRti && c == regno + if wide then 0x32_0000 else 0x22_0000
    ensures o == Executed(cfg, s, c, env, h) && o.Stopped?
    ensures Shown(cfg, Ran(cfg, s, c, StoresOf(o.h, wide), n), P.RegValue(env, regno, h) % WORD,
              if wide then P.RegValue(env, regno, h) / WORD % WORD else s.data[1])
  {
    FieldsLie(if wide then 3 else 2, 0, 1, 0, regno, c);
    o := ReadsAs(cfg, access, env, s, c, wide, regno, h, n);
  }

  /** The value that data words d0 and d1 stand for. */
  function Moved(wide: bool, regno: nat, d0: nat, d1: nat): nat {
    if wide then d1 * 0x1_0000_0000 + d0
    else if regno < 0x1020 && d0 < 0x8000_0000 then d0
    else d0 + 0xFFFF_FFFF_0000_0000
  }

  lemma {:induction false} WritesAs(cfg: Config, access: P.Config, env: H.Env, s: State, c: nat, wide: bool, regno: nat,
                                    h: H.Hart, n: nat) returns (o: H.Outcome)
    requires Valid(cfg, s) && Assembles(cfg, access) && Ready(cfg, s) && Supported(access, regno)
    requires c < 0x100_0000 && Transfer(c) && Writes(c) && !Postexec(c) && Size(c) == (if wide then 3 else 2)
             && Regno(c) == regno
    requires P.Lawful(env, h) && Shares(s, h) && 0x1001 <= regno && P.FpReady(env, regno, h)
    requires n >= 1 && n >= cfg.abstractRti
    ensures o == Executed(cfg, s, c, env, h) && o.Stopped? && o.h.Valid()
    ensures P.RegValue(env, regno, o.h) == Moved(wide, regno, s.data[0], s.data[1])
    ensures Shown(cfg, Ran(cfg, s, c, [], n), s.data[0], s.data[1])
  {
    SupportedWords(cfg, access, c);
    RegisterWritten(cfg, access, env, s, c, h, n);
    o := Executed(cfg, s, c, env, h);
    IdleShows(cfg, s, c, [], n);
  }

  /**
    Writing a register, as the debugger sees it: with 0x230000 or 0x330000 plus its number. Then the
    register has the value of the data registers: as they are for 64 bits, else the lower one, with
    its sign in a general register and with all upper bits set in a floating-point register.
    */
  lemma {:induction false} DebuggerWrites(cfg: Config, access: P.Config, env: H.Env, s: State, wide: bool, regno: nat,
                                          h: H.Hart, n: nat, c: nat) returns (o: H.Outcome)
    requires Valid(cfg, s) && Assembles(cfg, access) && Ready(cfg, s) && Supported(access, regno)
    requires P.Lawful(env, h) && Shares(s, h) && 0x1001 <= regno && P.FpReady(env, regno, h)
    requires n >= 1 && n >= cfg.abstractRti && c == regno + if wide then 0x33_0000 else 0x23_0000
    ensures o == Executed(cfg, s, c, env, h) && o.Stopped? && o.h.Valid()
    ensures P.RegValue(env, regno, o.h) == Moved(wide, regno, s.data[0], s.data[1])
    ensures Shown(cfg, Ran(cfg, s, c, [], n), s.data[0], s.data[1])
  {
    FieldsLie(if wide then 3 else 2, 0, 1, 1, regno, c);
    o := WritesAs(cfg, access, env, s, c, wide, regno, h, n);
  }

  // ---------------------------------------------------------------------------------------
  // Registers of the module
  // ---------------------------------------------------------------------------------------

  /** A data word or a word of the program buffer that is written while no command runs reads back. */
  lemma {:induction false} WordReadsBack(cfg: Config, s: State, a: nat, v: nat, b: nat)
    requires Valid(cfg, s) && v < WORD && !s.busy && s.autoData == 0 && s.autoProg == 0
    requires 0x04 <= a < 0x06 || 0x20 <= a < 0x20 + cfg.progbufsize
    ensures var t := DmiWrite(cfg, s, a, v);
            && Valid(cfg, t) && DmiValue(cfg, t, a) == Some(v) && DmiRead(cfg, t, a) == t
            && (b != a ==> DmiValue(cfg, t, b) == DmiValue(cfg, s, b))
  {
    WriteValid(cfg, s, a, v);
    NoBits(a - (if a < 0x06 then 0x04 else 0x20));
  }

  lemma {:induction false} NoBits(i: nat)
    ensures !Bit(0, i)
  {
    assert 0 / Pow(i) == 0;
  }

  /** While a command runs such a write is lost, and the words read as all ones; on data words this is an error. */
  lemma {:induction false} BusyWordLost(cfg: Config, s: State, a: nat, v: nat)
    requires Valid(cfg, s) && v < WORD && s.busy && (0x04 <= a < 0x06 || 0x20 <= a < 0x20 + cfg.progbufsize)
    ensures var t := DmiWrite(cfg, s, a, v);
            && Valid(cfg, t) && t.data == s.data && t.prog == s.prog && DmiValue(cfg, t, a) == Some(0xFFFF_FFFF)
            && t.cmderr == (if a < 0x06 && s.cmderr == 0 then 1 else s.cmderr)
  {
    WriteValid(cfg, s, a, v);
  }

  /** What is written to abstractauto reads back, but for the bits it does not have. */
  lemma {:induction false} AutoReadsBack(cfg: Config, s: State, v: nat)
    requires Valid(cfg, s) && v < WORD
    ensures var t := DmiWrite(cfg, s, 0x18, v);
            Valid(cfg, t) && DmiValue(cfg, t, 0x18) == Some(v - v / 0x1000 % 0x10 * 0x1000)
  {
    WriteValid(cfg, s, 0x18, v);
  }

  /** With bit i of abstractauto set, reading data word i performs the command again; without it nothing happens. */
  lemma {:induction false} AutoExecutes(cfg: Config, s: State, v: nat, i: nat)
    requires Valid(cfg, s) && v < WORD && Ready(cfg, s) && i < 2
    requires s.command < 0x100_0000 && cfg.assemble(s.command).Words?
    ensures var t := DmiWrite(cfg, s, 0x18, v);
            && Valid(cfg, t)
            && var u := DmiRead(cfg, t, 0x04 + i);
               if (if i == 0 then v % 2 else v / 2 % 2) == 1 then u.busy && Selected(cfg, s) in u.go && u.cmderr == NONE
               else u == t && !u.busy
  {
    WriteValid(cfg, s, 0x18, v);
    AutoBit(v, i);
    AutoRead(cfg, DmiWrite(cfg, s, 0x18, v), i);
  }

  lemma {:induction false} AutoBit(v: nat, i: nat)
    requires i < 2
    ensures Bit(v % 0x1000, i) == ((if i == 0 then v % 2 else v / 2 % 2) == 1)
  {
    var q, r := v / 0x1000, v % 0x1000;
    LowTwo(v, q, r);
    assert Pow(0) == 1 && Pow(1) == 2 * Pow(0);
    assert Bit(r, i) == (r / Pow(i) % 2 == 1);
  }

  lemma {:induction false} LowTwo(v: nat, q: nat, r: nat)
    requires v == 0x1000 * q + r
    ensures r / 1 % 2 == v % 2 && r / 2 % 2 == v / 2 % 2
  {
    var h, b := r / 2, r % 2;
    var g, c := h / 2, h % 2;
    Bits.DivModUnique(v, 2, 0x800 * q + h, b);
    Bits.DivModUnique(0x800 * q + h, 2, 0x400 * q + g, c);
  }

  lemma {:induction false} AutoRead(cfg: Config, t: State, i: nat)
    requires Valid(cfg, t) && Ready(cfg, t) && i < 2 && t.command < 0x100_0000 && cfg.assemble(t.command).Words?
    ensures var u := DmiRead(cfg, t, 0x04 + i);
            if Bit(t.autoData, i) then u.busy && Selected(cfg, t) in u.go && u.cmderr == NONE else u == t
  {
  }

  /** Writing dmcontrol with dmactive selects the hart whose number is split over its two fields, or else the last. */
  lemma {:induction false} HartSelected(cfg: Config, s: State, n: nat)
    requires Valid(cfg, s) && n < 0x10_0000
    ensures var v := n % 0x400 * 0x1_0000 + n / 0x400 * 0x40 + 1;
            && v < WORD && DmiWrite(cfg, s, 0x10, v).active
            && DmiWrite(cfg, s, 0x10, v).hartsel == if n < |cfg.hartids| then n else |cfg.hartids| - 1
  {
    SelectFields(n % 0x400, n / 0x400, n % 0x400 * 0x1_0000 + n / 0x400 * 0x40 + 1);
  }

  lemma {:induction false} SelectFields(low: nat, high: nat, v: nat)
    requires low < 0x400 && high < 0x400 && v == low * 0x1_0000 + high * 0x40 + 1
    ensures v < WORD && v % 2 == 1 && v / 0x1_0000 % 0x400 == low && v / 0x40 % 0x400 == high
  {
    assert v / 0x40 == low * 0x400 + high;
    assert v / 0x1_0000 == low;
  }

  /** Writing ones over the error field of abstractcs clears the error. */
  lemma {:induction false} ErrorCleared(cfg: Config, s: State)
    requires Valid(cfg, s)
    ensures DmiWrite(cfg, s, 0x16, 0x700) == s.(cmderr := 0)
  {
    assert ErrField(0x700) == 7;
  }

  // ---------------------------------------------------------------------------------------
  // When a command ends
  // ---------------------------------------------------------------------------------------

  /** The hart with this id stays selected, and the module is not reset. */
  predicate StaysSelected(cfg: Config, s: State, es: seq<Event>, id: nat)
    requires Valid(cfg, s)
    decreases |es|
  {
    && Selected(cfg, s) == id
    && (es == [] || (Keeps(s, es[0]) && (StepValid(cfg, s, es[0]);
          StaysSelected(cfg, Step(cfg, s, es[0]), es[1..], id))))
  }

  /** A step of a command that has not ended: it ends neither before the hart goes nor before it halts again. */
  lemma {:induction false} BusyStep(cfg: Config, s: State, e: Event, id: nat)
    requires Valid(cfg, s) && s.busy && !s.completed && Selected(cfg, s) == id && Keeps(s, e)
    ensures var t := Step(cfg, s, e);
            && t.busy
            && (id in s.go && e != ByHart(Going(id)) ==> id in t.go && !t.completed)
            && (e != ByHart(Halted(id)) ==> !t.completed)
  {
    match e
    case Read(_) => BusyFreezes(cfg, s, e);
    case Write_(_, _) => BusyFreezes(cfg, s, e);
    case ByHart(st) => BusyStore(cfg, s, st, id);
    case _ =>
  }

  lemma {:induction false} BusyStore(cfg: Config, s: State, st: HartStore, id: nat)
    requires Valid(cfg, s) && s.busy && !s.completed && Selected(cfg, s) == id
    ensures var t := HartStored(cfg, s, st);
            && t.busy
            && (id in s.go && st != Going(id) ==> id in t.go && !t.completed)
            && (st != Halted(id) ==> !t.completed)
  {
  }

  /** Where an event occurs in a run, or the length of the run. */
  function FirstOf(es: seq<Event>, e: Event): (i: nat)
    ensures i <= |es| && (i < |es| ==> es[i] == e)
    decreases |es|
  {
    if es == [] || es[0] == e then 0 else 1 + FirstOf(es[1..], e)
  }

  /** As long as the hart does not report that it halted, the command runs. */
  lemma {:induction false} EndsAfterHalt(cfg: Config, s: State, es: seq<Event>, id: nat)
    requires Valid(cfg, s) && s.busy && !s.completed && StaysSelected(cfg, s, es, id) && !Run(cfg, s, es).busy
    ensures FirstOf(es, ByHart(Halted(id))) < |es|
    decreases |es|
  {
    if es[0] != ByHart(Halted(id)) {
      StepValid(cfg, s, es[0]);
      BusyStep(cfg, s, es[0], id);
      EndsAfterHalt(cfg, Step(cfg, s, es[0]), es[1..], id);
    }
  }

  /**
    A command ends only after the commanded hart has reported that it goes and, later, that it
    halted again, provided that this hart stays selected.
    */
  lemma {:induction false} EndsAfterRun(cfg: Config, s: State, es: seq<Event>, id: nat)
    requires Valid(cfg, s) && s.busy && !s.completed && id in s.go && StaysSelected(cfg, s, es, id)
             && !Run(cfg, s, es).busy
    ensures var i := FirstOf(es, ByHart(Going(id)));
            i < |es| && FirstOf(es[i + 1..], ByHart(Halted(id))) < |es| - i - 1
    decreases |es|
  {
    var e, rest := es[0], es[1..];
    StepValid(cfg, s, e);
    BusyStep(cfg, s, e, id);
    if e == ByHart(Going(id)) {
      EndsAfterHalt(cfg, Step(cfg, s, e), rest, id);
    } else {
      EndsAfterRun(cfg, Step(cfg, s, e), rest, id);
      var i := FirstOf(rest, ByHart(Going(id)));
      assert es[i + 2..] == rest[i + 1..];
    }
  }

  /**
    Without that proviso it can end earlier: the debugger selects another hart, which reports that
    it is halted; the busy flag drops although the commanded hart has not even begun.
    */
  lemma {:induction false} EndsBeforeRun(cfg: Config, s: State)
    requires Valid(cfg, s) && |cfg.hartids| >= 2 && s.hartsel == 0 && s.busy && s.active && s.rti <= 1
    requires Selected(cfg, s) in s.go && cfg.hartids[1] !in s.go && cfg.hartids[1] in s.halted
    ensures var es := [Write_(DM_DMCONTROL, 0x1_0001), ByHart(Halted(cfg.hartids[1])), Tick];
            var t := Run(cfg, s, es);
            !t.busy && Selected(cfg, s) in t.go
  {
    var w, h := Write_(DM_DMCONTROL, 0x1_0001), ByHart(Halted(cfg.hartids[1]));
    var es := [w, h, Tick];
    assert SelectedBy(cfg, 0x1_0001) == 1;
    var s1 := Step(cfg, s, w);
    assert s1 == s.(hartsel := 1);
    RunFirst(cfg, s, w, [h, Tick]);
    RunFirst(cfg, s1, h, [Tick]);
    var s2 := Step(cfg, s1, h);
    assert s2.completed && s2.busy;
    RunFirst(cfg, s2, Tick, []);
    assert es == [w] + [h, Tick] && [h, Tick] == [h] + [Tick] && [Tick] == [Tick] + [];
  }
}
