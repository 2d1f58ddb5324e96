/**
 Function prologues run forward on registers and memory, and the theorem that
 RtlVirtualUnwind undoes them (Microsoft x64 ABI, "x64 exception handling",
 "Unwind operation code" and "Unwind procedure").
 */
module Prologue {
  import opened Words
  import opened Memory
  import opened UnwindCodes
  import opened VirtualUnwind

  type Xmm = b: seq<Byte> | |b| == 16 witness seq<Byte>(16, (_: int) => 0)

  datatype Machine = Machine(cpu: Cpu, mem: Mem, xmm: Nibble -> Xmm)

  // ---- running forward ----------------------------------------------------

  /** How far the operation lowers Rsp. */
  function Lowered(op: Op): nat {
    match op
    case PushNonvol(_) => 8
    case AllocLarge(n) => 8 * n
    case AllocHuge(n) => n
    case AllocSmall(i) => 8 * i + 8
    case _ => 0
  }

  /** The bytes an operation stores, given Rsp before it: address and length. */
  function StoreOf(op: Op, f: Frame, sp: int): (int, nat) {
    match op
    case PushNonvol(_) => (sp - 8, 8)
    case SaveNonvol(_, k) => (f.base + 8 * k, 8)
    case SaveNonvolFar(_, o) => (f.base + o, 8)
    case SaveXmm128(_, k) => (f.base + 16 * k, 16)
    case SaveXmm128Far(_, o) => (f.base + o, 16)
    case _ => (sp, 0)
  }

  /** What it stores there. */
  function DataOf(op: Op, m: Machine): (data: seq<Byte>)
    ensures forall f: Frame, sp :: |data| == StoreOf(op, f, sp).1
  {
    match op
    case PushNonvol(r) => Put64(m.cpu.gpr[r])
    case SaveNonvol(r, _) => Put64(m.cpu.gpr[r])
    case SaveNonvolFar(r, _) => Put64(m.cpu.gpr[r])
    case SaveXmm128(r, _) => m.xmm(r)
    case SaveXmm128Far(r, _) => m.xmm(r)
    case _ => []
  }

  /** The instruction an operation stands for; MOV saves go to their offset from the frame base. */
  function Do(op: Op, f: Frame, m: Machine): Machine {
    var c := m.cpu;
    Machine(
      if op.SetFpReg? then SetReg(c, f.reg, Plus(Rsp(c), 16 * f.off))
      else if Lowered(op) > 0 then SetReg(c, RSP, Minus(Rsp(c), Lowered(op)))
      else c,
      if DataOf(op, m) == [] then m.mem else StoreBytes(m.mem, StoreOf(op, f, Rsp(c)).0, DataOf(op, m)),
      m.xmm)
  }

  function DoAll(ops: seq<Op>, f: Frame, m: Machine): Machine
    decreases |ops|
  {
    if ops == [] then m else DoAll(ops[1..], f, Do(ops[0], f, m))
  }

  // ---- well-formed prologues ----------------------------------------------

  /** The integer register the operation saves, if any. */
  function Saved(op: Op): (r: int)
    ensures -1 <= r < 16
  {
    match op
    case PushNonvol(r) => r
    case SaveNonvol(r, _) => r
    case SaveNonvolFar(r, _) => r
    case _ => -1
  }

  predicate Saves(ops: seq<Op>, r: Nibble) {
    exists i :: 0 <= i < |ops| && Saved(ops[i]) == r
  }

  /**
   `reg` is the frame register, 0 for none, and `pending` says that it is still to be set. It is set
   once; after that there are no pushes and it is not saved any more. Rsp is never named.
   */
  predicate WellFormed(ops: seq<Op>, reg: Nibble, pending: bool)
    decreases |ops|
  {
    if ops == [] then !pending
    else
      && Saved(ops[0]) != RSP
      && !ops[0].Unknown? && !ops[0].PushMachFrame?
      && (ops[0].SetFpReg? ==> pending)
      && (ops[0].PushNonvol? ==> reg == 0 || pending)
      && (reg != 0 && !pending ==> Saved(ops[0]) != reg)
      && WellFormed(ops[1..], reg, pending && !ops[0].SetFpReg?)
  }

  predicate WellFormedPrologue(ops: seq<Op>, f: Frame) {
    f.reg != RSP && WellFormed(ops, f.reg, f.reg != 0)
  }

  function Depth(ops: seq<Op>): nat {
    if ops == [] then 0 else Lowered(ops[0]) + Depth(ops[1..])
  }

  /** How far below the entry Rsp the frame base lies: where the frame register is set, else the end. */
  function BaseDepth(ops: seq<Op>): nat {
    if ops == [] || ops[0].SetFpReg? then 0 else Lowered(ops[0]) + BaseDepth(ops[1..])
  }

  /** The operation's store, and Rsp after it, stay inside the address space. */
  predicate FitsOp(op: Op, f: Frame, sp: int) {
    var (a, n) := StoreOf(op, f, sp);
    0 <= a && a + n <= TWO64 && Lowered(op) <= sp < TWO64
  }

  predicate Fits(ops: seq<Op>, f: Frame, sp: int)
    decreases |ops|
  {
    0 <= sp < TWO64 && (ops == [] || (FitsOp(ops[0], f, sp) && Fits(ops[1..], f, sp - Lowered(ops[0]))))
  }

  /** No operation stores into the `n` bytes at `a`. */
  predicate StoresMiss(ops: seq<Op>, f: Frame, sp: int, a: int, n: nat)
    decreases |ops|
  {
    ops == [] ||
    (var (b, k) := StoreOf(ops[0], f, sp);
     Apart(b, k, a, n) && StoresMiss(ops[1..], f, sp - Lowered(ops[0]), a, n))
  }

  /** No operation overwrites what an earlier one saved. */
  predicate StoresDisjoint(ops: seq<Op>, f: Frame, sp: int)
    decreases |ops|
  {
    ops == [] ||
    (var (b, k) := StoreOf(ops[0], f, sp);
     StoresMiss(ops[1..], f, sp - Lowered(ops[0]), b, k) && StoresDisjoint(ops[1..], f, sp - Lowered(ops[0])))
  }

  /** In `mem` the slot of every saved register holds that register's value in `g`. */
  predicate SlotsHold(ops: seq<Op>, f: Frame, sp: int, g: Cpu, mem: Mem)
    decreases |ops|
  {
    ops == [] ||
    ((Saved(ops[0]) >= 0 ==> Read64(mem, StoreOf(ops[0], f, sp).0) == g.gpr[Saved(ops[0])])
     && SlotsHold(ops[1..], f, sp - Lowered(ops[0]), g, mem))
  }

  /** `after` agrees with `before` on the slot of every saved register. */
  predicate SlotsKept(ops: seq<Op>, f: Frame, sp: int, before: Mem, after: Mem)
    decreases |ops|
  {
    ops == [] ||
    (var a := StoreOf(ops[0], f, sp).0;
     (Saved(ops[0]) >= 0 ==> Read64(after, a) == Read64(before, a))
     && SlotsKept(ops[1..], f, sp - Lowered(ops[0]), before, after))
  }

  // ---- the forward run ----------------------------------------------------

  lemma {:induction false} DoStores(op: Op, f: Frame, m: Machine)
    requires FitsOp(op, f, Rsp(m.cpu)) && !op.PushMachFrame? && !op.Unknown?
    requires f.reg != RSP
    ensures var m' := Do(op, f, m);
            && Rsp(m'.cpu) == Rsp(m.cpu) - Lowered(op)
            && (forall r: Nibble :: r != RSP && !(op.SetFpReg? && r == f.reg) ==> m'.cpu.gpr[r] == m.cpu.gpr[r])
            && (op.SetFpReg? ==> m'.cpu.gpr[f.reg] == Plus(Rsp(m.cpu), 16 * f.off))
            && (Saved(op) >= 0 ==> m'.mem == Store64(m.mem, StoreOf(op, f, Rsp(m.cpu)).0, m.cpu.gpr[Saved(op)]))
  {
  }

  lemma {:induction false} DoKeepsApartBytes(op: Op, f: Frame, m: Machine, a: int, n: nat)
    requires FitsOp(op, f, Rsp(m.cpu))
    requires 0 <= a && a + n <= TWO64
    requires var (b, k) := StoreOf(op, f, Rsp(m.cpu)); Apart(b, k, a, n)
    ensures ReadBytes(Do(op, f, m).mem, a, n) == ReadBytes(m.mem, a, n)
  {
    if DataOf(op, m) != [] {
      ReadUnaffected(m.mem, StoreOf(op, f, Rsp(m.cpu)).0, DataOf(op, m), a, n);
    }
  }

  lemma {:induction false} DoAllKeepsApartBytes(ops: seq<Op>, f: Frame, m: Machine, pending: bool, a: int, n: nat)
    requires WellFormed(ops, f.reg, pending) && f.reg != RSP && Fits(ops, f, Rsp(m.cpu))
    requires 0 <= a && a + n <= TWO64 && StoresMiss(ops, f, Rsp(m.cpu), a, n)
    ensures ReadBytes(DoAll(ops, f, m).mem, a, n) == ReadBytes(m.mem, a, n)
    decreases |ops|
  {
    if ops != [] {
      var op := ops[0];
      DoStores(op, f, m);
      DoKeepsApartBytes(op, f, m, a, n);
      DoAllKeepsApartBytes(ops[1..], f, Do(op, f, m), pending && !op.SetFpReg?, a, n);
    }
  }

  /** The frame register, once set, and the other registers except Rsp are as they were before. */
  predicate Untouched(f: Frame, pending: bool, r: Nibble) {
    r != RSP && (f.reg == 0 || pending || r != f.reg)
  }

  /** After the prologue each slot holds the register it saves, as it was on entry. */
  lemma {:induction false} PrologueSaves(ops: seq<Op>, f: Frame, m: Machine, pending: bool, g: Cpu)
    requires WellFormed(ops, f.reg, pending) && f.reg != RSP && (pending ==> f.reg != 0)
    requires Fits(ops, f, Rsp(m.cpu)) && StoresDisjoint(ops, f, Rsp(m.cpu))
    requires forall r: Nibble :: Untouched(f, pending, r) ==> m.cpu.gpr[r] == g.gpr[r]
    ensures SlotsHold(ops, f, Rsp(m.cpu), g, DoAll(ops, f, m).mem)
    decreases |ops|
  {
    if ops != [] {
      var op, sp := ops[0], Rsp(m.cpu);
      var m' := Do(op, f, m);
      DoStores(op, f, m);
      PrologueSaves(ops[1..], f, m', pending && !op.SetFpReg?, g);
      if Saved(op) >= 0 {
        var a := StoreOf(op, f, sp).0;
        Read64Stored(m.mem, a, m.cpu.gpr[Saved(op)]);
        DoAllKeepsApartBytes(ops[1..], f, m', pending && !op.SetFpReg?, a, 8);
      }
    }
  }

  /** Rsp, the frame register and the other registers after the prologue. */
  lemma {:induction false} PrologueRegisters(ops: seq<Op>, f: Frame, m: Machine, pending: bool)
    requires WellFormed(ops, f.reg, pending) && f.reg != RSP && (pending ==> f.reg != 0)
    requires Fits(ops, f, Rsp(m.cpu))
    ensures var e := DoAll(ops, f, m).cpu;
            && Rsp(e) == Rsp(m.cpu) - Depth(ops)
            && BaseDepth(ops) <= Depth(ops) <= Rsp(m.cpu)
            && (f.reg == 0 ==> BaseDepth(ops) == Depth(ops))
            && (pending ==> e.gpr[f.reg] == Plus(Rsp(m.cpu) - BaseDepth(ops), 16 * f.off))
            && (forall r: Nibble :: r != RSP && (r != f.reg || !pending) ==> e.gpr[r] == m.cpu.gpr[r])
    decreases |ops|
  {
    if ops != [] {
      var rest := ops[1..];
      DoStores(ops[0], f, m);
      PrologueRegisters(rest, f, Do(ops[0], f, m), pending && !ops[0].SetFpReg?);
    }
  }

  // ---- unwinding ----------------------------------------------------------

  function Reverse(ops: seq<Op>): seq<Op> {
    if ops == [] then [] else Reverse(ops[1..]) + [ops[0]]
  }

  /** The registers once the unwinder has gone back over `ops`, from a body context `b`. */
  predicate Restored(ops: seq<Op>, f: Frame, pending: bool, sp: int, g: Cpu, b: Cpu, s: Progress) {
    && !s.mach && s.cpu.rip == b.rip
    && (f.reg == 0 || pending ==> Rsp(s.cpu) == sp)
    && (forall r: Nibble :: r != RSP ==> s.cpu.gpr[r] == if Saves(ops, r) then g.gpr[r] else b.gpr[r])
  }

  lemma {:induction false} SavesFirst(ops: seq<Op>, r: Nibble)
    requires ops != []
    ensures Saves(ops, r) <==> Saved(ops[0]) == r || Saves(ops[1..], r)
  {
    if Saves(ops, r) {
      var i :| 0 <= i < |ops| && Saved(ops[i]) == r;
      if i > 0 {
        assert Saved(ops[1..][i - 1]) == r;
      }
    }
    if Saves(ops[1..], r) {
      var i :| 0 <= i < |ops[1..]| && Saved(ops[1..][i]) == r;
      assert Saved(ops[i + 1]) == r;
    }
  }

  lemma {:induction false} FrameRegisterNotSavedAfter(ops: seq<Op>, reg: Nibble)
    requires reg != 0 && WellFormed(ops, reg, false)
    ensures !Saves(ops, reg)
  {
    if ops != [] {
      SavesFirst(ops, reg);
      FrameRegisterNotSavedAfter(ops[1..], reg);
    }
  }

  lemma {:induction false} UndoReversed(ops: seq<Op>, f: Frame, pending: bool, sp: int, g: Cpu, b: Cpu, mem: Mem)
    requires WellFormed(ops, f.reg, pending) && f.reg != RSP && (pending ==> f.reg != 0)
    requires Fits(ops, f, sp) && SlotsHold(ops, f, sp, g, mem)
    requires f.reg == 0 ==> Rsp(b) == sp - Depth(ops)
    requires pending ==> Minus(b.gpr[f.reg], 16 * f.off) == sp - BaseDepth(ops)
    ensures Restored(ops, f, pending, sp, g, b, UndoAll(Reverse(ops), mem, f, Progress(b, false)))
    decreases |ops|
  {
    if ops != [] {
      var op := ops[0];
      var pending' := pending && !op.SetFpReg?;
      UndoReversed(ops[1..], f, pending', sp - Lowered(op), g, b, mem);
      var s := UndoAll(Reverse(ops[1..]), mem, f, Progress(b, false));
      UndoAllConcat(Reverse(ops[1..]), [op], mem, f, Progress(b, false));
      UndoFirst([op], op, [], mem, f, s);
      forall r: Nibble ensures Saves(ops, r) <==> Saved(op) == r || Saves(ops[1..], r) {
        SavesFirst(ops, r);
      }
      if op.SetFpReg? {
        FrameRegisterNotSavedAfter(ops[1..], f.reg);
      }
      UndoOne(op, f, sp, g, mem, s, f.reg == 0 || pending);
    }
  }

  /** Undoing one operation: Rsp is raised, when it is `known`, and the register saved comes back. */
  lemma {:induction false} UndoOne(op: Op, f: Frame, sp: int, g: Cpu, mem: Mem, s: Progress, known: bool)
    requires FitsOp(op, f, sp) && !op.PushMachFrame? && !op.Unknown? && Saved(op) != RSP
    requires known && !op.SetFpReg? ==> Rsp(s.cpu) == sp - Lowered(op)
    requires op.SetFpReg? ==> Minus(s.cpu.gpr[f.reg], 16 * f.off) == sp
    requires op.PushNonvol? ==> known
    requires Saved(op) >= 0 ==> Read64(mem, StoreOf(op, f, sp).0) == g.gpr[Saved(op)]
    ensures var s' := Undo(op, mem, f, s);
            && s'.mach == s.mach && s'.cpu.rip == s.cpu.rip
            && (known ==> Rsp(s'.cpu) == sp)
            && (forall r: Nibble :: r != RSP ==> s'.cpu.gpr[r] == if Saved(op) == r then g.gpr[r] else s.cpu.gpr[r])
  {
  }

  // ---- a whole activation -------------------------------------------------

  /** A function is entered by a call, or by an interrupt that pushed a machine frame. */
  datatype Entry = ByCall | ByInterrupt(errorCode: bool)

  /** The unwind operation that stands for the entry itself. */
  function EntryOps(e: Entry): seq<Op> {
    match e
    case ByCall => []
    case ByInterrupt(c) => [PushMachFrame(if c then 1 else 0)]
  }

  /** Bytes that the entry put on the stack: a return address, or Rip, CS, EFLAGS, Rsp, SS and perhaps a code. */
  function EntrySize(e: Entry): nat {
    match e
    case ByCall => 8
    case ByInterrupt(c) => if c then 48 else 40
  }

  /** Distance from Rsp on entry to the saved Rip. */
  function RipSlot(e: Entry): nat {
    if e == ByInterrupt(true) then 8 else 0
  }

  /** `start` is the context in which the function begins, when `caller` is the one it must return to. */
  predicate Entered(e: Entry, caller: Cpu, start: Cpu, mem: Mem) {
    && Rsp(start) + EntrySize(e) <= TWO64
    && (forall r: Nibble :: r != RSP ==> start.gpr[r] == caller.gpr[r])
    && Read64(mem, Rsp(start) + RipSlot(e)) == caller.rip
    && Rsp(caller) == if e.ByCall? then Wrap(Rsp(start) + 8) else Read64(mem, Rsp(start) + RipSlot(e) + 24)
  }

  /** What a body that runs between prologue and unwind must leave alone. */
  predicate BodyKeeps(e: Entry, ops: seq<Op>, f: Frame, sp: int, end: Machine, body: Machine) {
    && (if f.reg == 0 then Rsp(body.cpu) == Rsp(end.cpu) else body.cpu.gpr[f.reg] == end.cpu.gpr[f.reg])
    && SlotsKept(ops, f, sp, end.mem, body.mem)
    && Read64(body.mem, sp + RipSlot(e)) == Read64(end.mem, sp + RipSlot(e))
    && (e.ByInterrupt? ==> Read64(body.mem, sp + RipSlot(e) + 24) == Read64(end.mem, sp + RipSlot(e) + 24))
  }

  lemma {:induction false} StoresMissPart(ops: seq<Op>, f: Frame, sp: int, a: int, n: nat, b: int, k: nat)
    requires StoresMiss(ops, f, sp, a, n) && a <= b && b + k <= a + n
    ensures StoresMiss(ops, f, sp, b, k)
    decreases |ops|
  {
    if ops != [] {
      StoresMissPart(ops[1..], f, sp - Lowered(ops[0]), a, n, b, k);
    }
  }

  lemma {:induction false} KeptSlotsHold(ops: seq<Op>, f: Frame, sp: int, g: Cpu, before: Mem, after: Mem)
    requires SlotsHold(ops, f, sp, g, before) && SlotsKept(ops, f, sp, before, after)
    ensures SlotsHold(ops, f, sp, g, after)
    decreases |ops|
  {
    if ops != [] {
      KeptSlotsHold(ops[1..], f, sp - Lowered(ops[0]), g, before, after);
    }
  }

  /** The words the entry left on the stack are still there after prologue and body. */
  lemma {:induction false} EntryWordKept(e: Entry, ops: seq<Op>, f: Frame, start: Machine, k: nat)
    requires WellFormedPrologue(ops, f) && Fits(ops, f, Rsp(start.cpu)) && Rsp(start.cpu) + EntrySize(e) <= TWO64
    requires StoresMiss(ops, f, Rsp(start.cpu), Rsp(start.cpu), EntrySize(e)) && k + 8 <= EntrySize(e)
    ensures Read64(DoAll(ops, f, start).mem, Rsp(start.cpu) + k) == Read64(start.mem, Rsp(start.cpu) + k)
  {
    var sp := Rsp(start.cpu);
    StoresMissPart(ops, f, sp, sp, EntrySize(e), sp + k, 8);
    DoAllKeepsApartBytes(ops, f, start, f.reg != 0, sp + k, 8);
  }

  lemma {:induction false} FinishUnwind(e: Entry, caller: Cpu, sp: int, mem: Mem, f: Frame, s: Progress)
    requires !s.mach && Rsp(s.cpu) == sp && sp + EntrySize(e) <= TWO64
    requires Read64(mem, sp + RipSlot(e)) == caller.rip
    requires Rsp(caller) == if e.ByCall? then Wrap(sp + 8) else Read64(mem, sp + RipSlot(e) + 24)
    ensures var c := Finish(mem, UndoAll(EntryOps(e), mem, f, s));
            c.rip == caller.rip && Rsp(c) == Rsp(caller)
            && forall r: Nibble :: r != RSP ==> c.gpr[r] == s.cpu.gpr[r]
  {
    hide Read64;
    if e.ByInterrupt? {
      UndoFirst(EntryOps(e), EntryOps(e)[0], [], mem, f, s);
      PlusExact(sp, RipSlot(e));
      PlusExact(sp + RipSlot(e), 24);
    }
  }

  /**
   A body context `b` over memory `mem`, in a function entered with Rsp at `sp`, from which the caller's
   context can be recovered.
   */
  predicate Suspended(e: Entry, ops: seq<Op>, f: Frame, sp: int, caller: Cpu, b: Cpu, mem: Mem) {
    && WellFormedPrologue(ops, f) && Fits(ops, f, sp) && f.base == sp - BaseDepth(ops)
    && sp + EntrySize(e) <= TWO64
    && SlotsHold(ops, f, sp, caller, mem)
    && Read64(mem, sp + RipSlot(e)) == caller.rip
    && Rsp(caller) == (if e.ByCall? then Wrap(sp + 8) else Read64(mem, sp + RipSlot(e) + 24))
    && (if f.reg == 0 then Rsp(b) == sp - Depth(ops) else b.gpr[f.reg] == Plus(f.base, 16 * f.off))
  }

  /** Running the prologue and any body that keeps its bargain leaves such a context. */
  lemma {:induction false} PrologueSuspends(e: Entry, ops: seq<Op>, f: Frame, caller: Cpu, start: Machine,
          body: Machine)
    requires WellFormedPrologue(ops, f) && Fits(ops, f, Rsp(start.cpu))
    requires f.base == Rsp(start.cpu) - BaseDepth(ops)
    requires StoresDisjoint(ops, f, Rsp(start.cpu))
    requires StoresMiss(ops, f, Rsp(start.cpu), Rsp(start.cpu), EntrySize(e))
    requires Entered(e, caller, start.cpu, start.mem)
    requires BodyKeeps(e, ops, f, Rsp(start.cpu), DoAll(ops, f, start), body)
    ensures Suspended(e, ops, f, Rsp(start.cpu), caller, body.cpu, body.mem)
  {
    hide SlotsHold, SlotsKept, StoresMiss, StoresDisjoint, DoAll;
    BodySlotsHold(e, ops, f, caller, start, body);
    EntryKept(e, ops, f, caller, start, body);
    PrologueRegisters(ops, f, start, f.reg != 0);
  }

  lemma {:induction false} BodySlotsHold(e: Entry, ops: seq<Op>, f: Frame, caller: Cpu, start: Machine, body: Machine)
    requires WellFormedPrologue(ops, f) && Fits(ops, f, Rsp(start.cpu)) && StoresDisjoint(ops, f, Rsp(start.cpu))
    requires Entered(e, caller, start.cpu, start.mem)
    requires BodyKeeps(e, ops, f, Rsp(start.cpu), DoAll(ops, f, start), body)
    ensures SlotsHold(ops, f, Rsp(start.cpu), caller, body.mem)
  {
    PrologueSaves(ops, f, start, f.reg != 0, caller);
    KeptSlotsHold(ops, f, Rsp(start.cpu), caller, DoAll(ops, f, start).mem, body.mem);
  }

  lemma {:induction false} EntryKept(e: Entry, ops: seq<Op>, f: Frame, caller: Cpu, start: Machine, body: Machine)
    requires WellFormedPrologue(ops, f) && Fits(ops, f, Rsp(start.cpu))
    requires StoresMiss(ops, f, Rsp(start.cpu), Rsp(start.cpu), EntrySize(e))
    requires Entered(e, caller, start.cpu, start.mem)
    requires BodyKeeps(e, ops, f, Rsp(start.cpu), DoAll(ops, f, start), body)
    ensures var sp := Rsp(start.cpu);
            && Read64(body.mem, sp + RipSlot(e)) == caller.rip
            && Rsp(caller) == if e.ByCall? then Wrap(sp + 8) else Read64(body.mem, sp + RipSlot(e) + 24)
  {
    hide SlotsKept, StoresMiss, DoAll, Fits, WellFormed;
    EntryWordKept(e, ops, f, start, RipSlot(e));
    if e.ByInterrupt? {
      EntryWordKept(e, ops, f, start, RipSlot(e) + 24);
    }
  }

  /** What unwinding such a context yields. */
  predicate Recovered(ops: seq<Op>, f: Frame, caller: Cpu, b: Cpu, u: Unwound) {
    && u.cpu.rip == caller.rip && Rsp(u.cpu) == Rsp(caller)
    && (forall r: Nibble :: r != RSP ==> u.cpu.gpr[r] == if Saves(ops, r) then caller.gpr[r] else b.gpr[r])
    && u.establisher == f.base
  }

  lemma {:induction false} SuspendedUnwinds(e: Entry, ops: seq<Op>, f: Frame, sp: int, caller: Cpu, b: Cpu, mem: Mem,
                         kind: HandlerKind, base: U64, info: U64, chain: seq<U64>)
    requires Suspended(e, ops, f, sp, caller, b, mem)
    requires OpsOf(mem, chain) == Reverse(ops) + EntryOps(e)
    requires FrameReg(mem, info) == f.reg && FrameOff(mem, info) == f.off
    ensures Recovered(ops, f, caller, b, UnwindFrom(mem, kind, base, info, chain, b))
  {
    FrameBaseRecovered(ops, f, sp, b);
    UndoReversed(ops, f, f.reg != 0, sp, caller, b, mem);
    var s := UndoAll(Reverse(ops), mem, f, Progress(b, false));
    UndoAllConcat(Reverse(ops), EntryOps(e), mem, f, Progress(b, false));
    FinishUnwind(e, caller, sp, mem, f, s);
    assert UnwindFrom(mem, kind, base, info, chain, b).cpu == Finish(mem, UndoAll(EntryOps(e), mem, f, s));
  }

  lemma {:induction false} FrameBaseRecovered(ops: seq<Op>, f: Frame, sp: int, b: Cpu)
    requires WellFormedPrologue(ops, f) && Fits(ops, f, sp) && f.base == sp - BaseDepth(ops)
    requires if f.reg == 0 then Rsp(b) == sp - Depth(ops) else b.gpr[f.reg] == Plus(f.base, 16 * f.off)
    ensures f.reg != 0 ==> Minus(b.gpr[f.reg], 16 * f.off) == f.base
    ensures (if f.reg == 0 then Rsp(b) else Plus(b.gpr[f.reg], -16 * f.off)) == f.base
  {
    if f.reg == 0 {
      NoFrameBaseDepth(ops);
    }
  }

  lemma {:induction false} NoFrameBaseDepth(ops: seq<Op>)
    requires WellFormed(ops, 0, false)
    ensures BaseDepth(ops) == Depth(ops)
  {
    if ops != [] {
      NoFrameBaseDepth(ops[1..]);
    }
  }

  /**
   RtlVirtualUnwind undoes the prologue: whatever the body did to Rsp under a frame register, to the
   other registers and to the rest of memory, the caller's Rip, Rsp and every saved register come back.
   */
  lemma {:induction false} UnwindUndoesPrologue(e: Entry, ops: seq<Op>, f: Frame, caller: Cpu, start: Machine,
          body: Machine, kind: HandlerKind, base: U64, info: U64, links: nat)
    requires WellFormedPrologue(ops, f) && Fits(ops, f, Rsp(start.cpu))
    requires f.base == Rsp(start.cpu) - BaseDepth(ops)
    requires StoresDisjoint(ops, f, Rsp(start.cpu))
    requires StoresMiss(ops, f, Rsp(start.cpu), Rsp(start.cpu), EntrySize(e))
    requires Entered(e, caller, start.cpu, start.mem)
    requires BodyKeeps(e, ops, f, Rsp(start.cpu), DoAll(ops, f, start), body)
    requires ChainEnds(body.mem, base, info, links)
    requires OpsOf(body.mem, ChainOf(body.mem, base, info, links)) == Reverse(ops) + EntryOps(e)
    requires FrameReg(body.mem, info) == f.reg && FrameOff(body.mem, info) == f.off
    ensures Recovered(ops, f, caller, body.cpu, Unwind(body.mem, kind, base, info, links, body.cpu))
  {
    PrologueSuspends(e, ops, f, caller, start, body);
    SuspendedUnwinds(e, ops, f, Rsp(start.cpu), caller, body.cpu, body.mem, kind, base, info,
                     ChainOf(body.mem, base, info, links));
  }

  /** The same, from the code slots a compiler stores for the prologue in a single record. */
  lemma {:induction false} UnwindUndoesEncodedPrologue(e: Entry, ops: seq<Op>, f: Frame, caller: Cpu, start: Machine,
          body: Machine, kind: HandlerKind, base: U64, info: U64, at: seq<Byte>)
    requires WellFormedPrologue(ops, f) && Fits(ops, f, Rsp(start.cpu))
    requires f.base == Rsp(start.cpu) - BaseDepth(ops)
    requires StoresDisjoint(ops, f, Rsp(start.cpu))
    requires StoresMiss(ops, f, Rsp(start.cpu), Rsp(start.cpu), EntrySize(e))
    requires Entered(e, caller, start.cpu, start.mem)
    requires BodyKeeps(e, ops, f, Rsp(start.cpu), DoAll(ops, f, start), body)
    requires !Chained(body.mem, info)
    requires |at| == |Reverse(ops) + EntryOps(e)| && HoldsCodes(body.mem, info, Encode(Reverse(ops) + EntryOps(e), at))
    requires FrameReg(body.mem, info) == f.reg && FrameOff(body.mem, info) == f.off
    ensures Recovered(ops, f, caller, body.cpu, Unwind(body.mem, kind, base, info, 0, body.cpu))
  {
    var all := Reverse(ops) + EntryOps(e);
    WellFormedIsEncodable(ops, f.reg, f.reg != 0);
    ReverseKeepsOps(ops);
    DecodeEncode(all, at);
    OpsAreDecodedCodes(body.mem, info, Encode(all, at));
    assert OpsOf(body.mem, [info]) == Ops(body.mem, info) + OpsOf(body.mem, []);
    assert all + [] == all;
    UnwindUndoesPrologue(e, ops, f, caller, start, body, kind, base, info, 0);
  }

  lemma {:induction false} WellFormedIsEncodable(ops: seq<Op>, reg: Nibble, pending: bool)
    requires WellFormed(ops, reg, pending)
    ensures forall op :: op in ops ==> op.Encodable()
    decreases |ops|
  {
    if ops != [] {
      WellFormedIsEncodable(ops[1..], reg, pending && !ops[0].SetFpReg?);
      assert ops == [ops[0]] + ops[1..];
    }
  }

  lemma {:induction false} ReverseKeepsOps(ops: seq<Op>)
    ensures forall op :: op in Reverse(ops) ==> op in ops
  {
    if ops != [] {
      ReverseKeepsOps(ops[1..]);
    }
  }

  // ---- prologues without MOV saves ----------------------------------------

  /** Pushes, allocations and perhaps a frame register, but no saves by MOV. */
  predicate WithoutMoves(ops: seq<Op>) {
    forall op :: op in ops ==>
      op.PushNonvol? || op.AllocLarge? || op.AllocHuge? || op.AllocSmall? || op.SetFpReg?
  }

  /** Pushes and allocations alone never overwrite a saved register, the entry words or anything above them. */
  lemma {:induction false} PushesMiss(ops: seq<Op>, f: Frame, sp: int, a: int, n: nat)
    requires WithoutMoves(ops)
    requires sp <= a
    ensures StoresMiss(ops, f, sp, a, n) && StoresDisjoint(ops, f, sp)
    decreases |ops|
  {
    if ops != [] {
      var op := ops[0];
      var (b, k) := StoreOf(op, f, sp);
      PushesMiss(ops[1..], f, sp - Lowered(op), a, n);
      PushesMiss(ops[1..], f, sp - Lowered(op), b, k);
    }
  }

  /**
   A prologue of pushes and allocations is undone whatever it pushes: nothing need be said about where it
   stores, as long as it stays inside the address space.
   */
  lemma {:induction false} UnwindUndoesPushes(e: Entry, ops: seq<Op>, f: Frame, caller: Cpu, start: Machine,
          body: Machine, kind: HandlerKind, base: U64, info: U64, links: nat)
    requires WithoutMoves(ops) && WellFormedPrologue(ops, f) && Fits(ops, f, Rsp(start.cpu))
    requires f.base == Rsp(start.cpu) - BaseDepth(ops)
    requires Entered(e, caller, start.cpu, start.mem)
    requires BodyKeeps(e, ops, f, Rsp(start.cpu), DoAll(ops, f, start), body)
    requires ChainEnds(body.mem, base, info, links)
    requires OpsOf(body.mem, ChainOf(body.mem, base, info, links)) == Reverse(ops) + EntryOps(e)
    requires FrameReg(body.mem, info) == f.reg && FrameOff(body.mem, info) == f.off
    ensures Recovered(ops, f, caller, body.cpu, Unwind(body.mem, kind, base, info, links, body.cpu))
  {
    hide WithoutMoves, StoresMiss, StoresDisjoint, BodyKeeps, Entered, Recovered, Fits, WellFormed, DoAll;
    PushesMiss(ops, f, Rsp(start.cpu), Rsp(start.cpu), EntrySize(e));
    UnwindUndoesPrologue(e, ops, f, caller, start, body, kind, base, info, links);
  }
}
