/**
 RtlVirtualUnwind: one frame is unwound by interpreting its unwind codes over
 the registers and the stack.
 */
module VirtualUnwind {
  import opened Words
  import opened Memory
  import opened UnwindCodes

  /** The sixteen general registers, numbered as the unwind codes number them, and Rip. */
  type Cpu = c: RawCpu | |c.gpr| == 16 witness RawCpu(seq<U64>(16, (_: int) => 0), 0)

  datatype RawCpu = RawCpu(gpr: seq<U64>, rip: U64)

  function Rsp(c: Cpu): U64 {
    c.gpr[RSP]
  }

  function SetReg(c: Cpu, r: Nibble, v: U64): Cpu {
    c.(gpr := c.gpr[r := v])
  }

  /** Which handler the walk asks for: the search wants EHANDLER, the unwind wants UHANDLER. */
  datatype HandlerKind = EHandler | UHandler

  datatype RuntimeFunction = RuntimeFunction(begin: U32, end: U32, unwindData: U32)

  // ---- one record ---------------------------------------------------------

  predicate Wants(m: Mem, info: U64, kind: HandlerKind) {
    if kind.EHandler? then Flags(m, info) % 2 == 1 else Flags(m, info) / 2 % 2 == 1
  }

  predicate Chained(m: Mem, info: U64) {
    Flags(m, info) / 4 % 2 == 1
  }

  /** The record a chained record continues with. */
  function ParentOf(m: Mem, base: U64, info: U64): U64 {
    Wrap(base + Read32(m, Trailer(m, info) + 8))
  }

  /** Address and data pointer of the language handler stored after the code array. */
  function HandlerOf(m: Mem, base: U64, info: U64): (U64, U64) {
    (Wrap(base + Read32(m, Trailer(m, info))), Wrap(Trailer(m, info) + 4))
  }

  /** The stack base the saved-register offsets and the handlers refer to. */
  function FrameBase(m: Mem, info: U64, c: Cpu): U64 {
    if FrameReg(m, info) == 0 then Rsp(c)
    else Plus(c.gpr[FrameReg(m, info)], -16 * FrameOff(m, info))
  }

  // ---- the effect of operations -------------------------------------------

  /** What stays fixed while one frame is unwound. */
  datatype Frame = Frame(base: U64, reg: Nibble, off: Nibble)

  /** Registers so far, and whether a machine frame already supplied Rip and Rsp. */
  datatype Progress = Progress(cpu: Cpu, mach: bool)

  function Undo(op: Op, m: Mem, f: Frame, s: Progress): Progress {
    var c := s.cpu;
    match op
    case PushNonvol(r) =>
      var c' := SetReg(c, r, Read64(m, Rsp(c)));
      s.(cpu := SetReg(c', RSP, Plus(Rsp(c'), 8)))
    case AllocLarge(n) => s.(cpu := SetReg(c, RSP, Plus(Rsp(c), 8 * n)))
    case AllocHuge(n) => s.(cpu := SetReg(c, RSP, Plus(Rsp(c), n)))
    case AllocSmall(i) => s.(cpu := SetReg(c, RSP, Plus(Rsp(c), 8 * i + 8)))
    case SetFpReg => s.(cpu := SetReg(c, RSP, Plus(c.gpr[f.reg], -16 * f.off)))
    case SaveNonvol(r, k) => s.(cpu := SetReg(c, r, Read64(m, Plus(f.base, 8 * k))))
    case SaveNonvolFar(r, o) => s.(cpu := SetReg(c, r, Read64(m, Plus(f.base, o))))
    case PushMachFrame(i) =>
      var sp := if i == 0 then Rsp(c) else Plus(Rsp(c), 8);
      Progress(SetReg(c, RSP, Read64(m, Plus(sp, 24))).(rip := Read64(m, sp)), true)
    case _ => s
  }

  function UndoAll(ops: seq<Op>, m: Mem, f: Frame, s: Progress): Progress
    decreases |ops|
  {
    if ops == [] then s else UndoAll(ops[1..], m, f, Undo(ops[0], m, f, s))
  }

  lemma {:induction false} UndoFirst(ops: seq<Op>, op: Op, rest: seq<Op>, m: Mem, f: Frame, s: Progress)
    requires ops == [op] + rest
    ensures UndoAll(ops, m, f, s) == UndoAll(rest, m, f, Undo(op, m, f, s))
  {
    hide Undo;
    assert ops[1..] == rest;
  }

  lemma {:induction false} UndoNothing(m: Mem, f: Frame, s: Progress)
    ensures UndoAll([], m, f, s) == s
  {
  }

  /** The return address is popped unless a machine frame was. */
  function Finish(m: Mem, s: Progress): Cpu {
    if s.mach then s.cpu
    else SetReg(s.cpu, RSP, Plus(Rsp(s.cpu), 8)).(rip := Read64(m, Rsp(s.cpu)))
  }

  // ---- chains -------------------------------------------------------------

  /** The chain of records starting at `info` ends within `links` steps. */
  predicate ChainEnds(m: Mem, base: U64, info: U64, links: nat)
    decreases links
  {
    Chained(m, info) ==> links > 0 && ChainEnds(m, base, ParentOf(m, base, info), links - 1)
  }

  /** The records of the chain, innermost first. */
  function ChainOf(m: Mem, base: U64, info: U64, links: nat): (chain: seq<U64>)
    requires ChainEnds(m, base, info, links)
    ensures chain != [] && chain[0] == info
    decreases links
  {
    if Chained(m, info) then [info] + ChainOf(m, base, ParentOf(m, base, info), links - 1) else [info]
  }

  /** The operations of a list of records, one record after the other. */
  function OpsOf(m: Mem, chain: seq<U64>): seq<Op> {
    if chain == [] then [] else Ops(m, chain[0]) + OpsOf(m, chain[1..])
  }

  /** The handler after looking at the records of `chain`, given what was found before. */
  function HandlerIn(m: Mem, base: U64, chain: seq<U64>, kind: HandlerKind, found: (U64, U64)): (U64, U64)
    decreases |chain|
  {
    if chain == [] then found
    else HandlerIn(m, base, chain[1..], kind,
                   if Wants(m, chain[0], kind) && found.0 == 0 then HandlerOf(m, base, chain[0]) else found)
  }

  datatype Unwound = Unwound(cpu: Cpu, handler: U64, data: U64, establisher: U64)

  function UnwindFrom(m: Mem, kind: HandlerKind, base: U64, info: U64, chain: seq<U64>, c: Cpu): Unwound {
    var f := Frame(FrameBase(m, info, c), FrameReg(m, info), FrameOff(m, info));
    var h := HandlerIn(m, base, chain, kind, (0, 0));
    Unwound(Finish(m, UndoAll(OpsOf(m, chain), m, f, Progress(c, false))), h.0, h.1, f.base)
  }

  /** Unwinding the function whose record is at `info`, in a context `c`. */
  function Unwind(m: Mem, kind: HandlerKind, base: U64, info: U64, links: nat, c: Cpu): Unwound
    requires ChainEnds(m, base, info, links)
  {
    UnwindFrom(m, kind, base, info, ChainOf(m, base, info, links), c)
  }

  // ---- laws of the fold ---------------------------------------------------

  lemma {:induction false} UndoAllConcat(a: seq<Op>, b: seq<Op>, m: Mem, f: Frame, s: Progress)
    ensures UndoAll(a + b, m, f, s) == UndoAll(b, m, f, UndoAll(a, m, f, s))
    decreases |a|
  {
    if a == [] {
      assert a + b == b;
    } else {
      assert (a + b)[1..] == a[1..] + b;
      UndoAllConcat(a[1..], b, m, f, Undo(a[0], m, f, s));
    }
  }

  lemma {:induction false} ChainIgnoresBound(m: Mem, base: U64, info: U64, n: nat, k: nat)
    requires ChainEnds(m, base, info, n) && ChainEnds(m, base, info, k)
    ensures ChainOf(m, base, info, n) == ChainOf(m, base, info, k)
    decreases n
  {
    if Chained(m, info) {
      ChainIgnoresBound(m, base, ParentOf(m, base, info), n - 1, k - 1);
    }
  }

  // ---- the routine --------------------------------------------------------

  /** A CONTEXT record: `Rsp` is `gpr[4]`, as the register file lies in memory. */
  class Context {
    const gpr: array<U64>
    var rip: U64

    ghost predicate Valid()
      reads this
    {
      gpr.Length == 16
    }

    function Cpu(): Cpu
      requires Valid()
      reads this, gpr
    {
      RawCpu(gpr[..], rip)
    }

    /** Stores register `r`. */
    method Put(r: Nibble, v: U64)
      requires Valid()
      modifies gpr
      ensures Cpu() == SetReg(old(Cpu()), r, v)
    {
      gpr[r] := v;
      assert gpr[..] == old(gpr[..])[r := v];
    }

    /** Overwrites the whole record. */
    method Assign(c: Cpu)
      requires Valid()
      modifies this, gpr
      ensures Cpu() == c
    {
      forall i | 0 <= i < 16 {
        gpr[i] := c.gpr[i];
      }
      rip := c.rip;
      assert gpr[..] == c.gpr;
    }

    constructor Copy(c: Cpu)
      ensures Valid() && fresh(gpr) && Cpu() == c
    {
      gpr := new U64[16](i requires 0 <= i < 16 => c.gpr[i]);
      rip := c.rip;
      new;
      assert gpr[..] == c.gpr;
    }
  }

  /** Interprets the code at slot `i`, updating the context in place; `next` is the slot after it. */
  method ApplyCode(m: Mem, info: U64, i: nat, f: Frame, ctx: Context, machframe: bool) returns (next: nat, mach: bool)
    requires ctx.Valid()
    modifies ctx, ctx.gpr
    ensures next == i + Width(Code(m, info, i))
    ensures Progress(ctx.Cpu(), mach) == Undo(OpAt(CodesAt(m, info), i), m, f, Progress(old(ctx.Cpu()), machframe))
  {
    mach := machframe;
    var op := Code(m, info, i) / 256 % 16;
    var oi: Nibble := Code(m, info, i) / 256 / 16;
    if op == 0 {
      ctx.Put(oi, Read64(m, ctx.gpr[RSP]));
      ctx.Put(RSP, Plus(ctx.gpr[RSP], 8));
      next := i + 1;
    } else if op == 1 {
      if oi == 0 {
        ctx.Put(RSP, Plus(ctx.gpr[RSP], Code(m, info, i + 1) * 8));
        next := i + 2;
      } else {
        OperandWord(m, info, i);
        ctx.Put(RSP, Plus(ctx.gpr[RSP], Read32(m, info + 4 + 2 * (i + 1))));
        next := i + 3;
      }
    } else if op == 2 {
      ctx.Put(RSP, Plus(ctx.gpr[RSP], oi * 8 + 8));
      next := i + 1;
    } else if op == 3 {
      ctx.Put(RSP, Plus(ctx.gpr[f.reg], -(f.off * 16)));
      next := i + 1;
    } else if op == 4 {
      ctx.Put(oi, Read64(m, Plus(f.base, Code(m, info, i + 1) * 8)));
      next := i + 2;
    } else if op == 5 {
      OperandWord(m, info, i);
      ctx.Put(oi, Read64(m, Plus(f.base, Read32(m, info + 4 + 2 * (i + 1)))));
      next := i + 3;
    } else if op == 8 {
      next := i + 2;
    } else if op == 9 {
      next := i + 3;
    } else if op == 10 {
      var sp := ctx.gpr[RSP];
      if oi != 0 {
        sp := Plus(sp, 8);
      }
      ctx.rip := Read64(m, sp);
      ctx.Put(RSP, Read64(m, Plus(sp, 24)));
      mach := true;
      next := i + 1;
    } else {
      next := i + 1;
    }
  }

  /** The effect of the codes from slot `i` on. */
  function UndoFrom(m: Mem, info: U64, i: nat, f: Frame, s: Progress): Progress
    decreases Count(m, info) - i
  {
    if i >= Count(m, info) then s
    else UndoFrom(m, info, i + Width(Code(m, info, i)), f, Undo(OpAt(CodesAt(m, info), i), m, f, s))
  }

  lemma {:induction false} UndoFromIsUndoAll(m: Mem, info: U64, i: nat, f: Frame, s: Progress)
    ensures UndoFrom(m, info, i, f, s) == UndoAll(OpsFrom(CodesAt(m, info), i, Count(m, info)), m, f, s)
    decreases Count(m, info) - i
  {
    hide UndoFrom, Undo, UndoAll, OpAt, Width;
    var codes, n := CodesAt(m, info), Count(m, info);
    if i < n {
      var next := i + Width(codes(i));
      UndoFromStep(m, info, i, f, s);
      UndoFirst(OpsFrom(codes, i, n), OpAt(codes, i), OpsFrom(codes, next, n), m, f, s);
      UndoFromIsUndoAll(m, info, next, f, Undo(OpAt(codes, i), m, f, s));
    } else {
      UndoFromEnd(m, info, i, f, s);
      UndoNothing(m, f, s);
    }
  }

  /** Interprets all codes of the record at `info`. */
  method ApplyCodes(m: Mem, info: U64, f: Frame, ctx: Context, machframe: bool) returns (mach: bool)
    requires ctx.Valid()
    modifies ctx, ctx.gpr
    ensures Progress(ctx.Cpu(), mach) == UndoFrom(m, info, 0, f, Progress(old(ctx.Cpu()), machframe))
  {
    hide Undo, OpAt, UndoFrom, Width;
    mach := machframe;
    var i: nat := 0;
    ghost var total := UndoFrom(m, info, 0, f, Progress(ctx.Cpu(), mach));
    while i < Count(m, info)
      invariant UndoFrom(m, info, i, f, Progress(ctx.Cpu(), mach)) == total
      decreases Count(m, info) - i
    {
      UndoFromStep(m, info, i, f, Progress(ctx.Cpu(), mach));
      i, mach := ApplyCode(m, info, i, f, ctx, mach);
    }
    UndoFromEnd(m, info, i, f, Progress(ctx.Cpu(), mach));
  }

  lemma {:induction false} UndoFromStep(m: Mem, info: U64, i: nat, f: Frame, s: Progress)
    requires i < Count(m, info)
    ensures UndoFrom(m, info, i, f, s)
            == UndoFrom(m, info, i + Width(Code(m, info, i)), f, Undo(OpAt(CodesAt(m, info), i), m, f, s))
  {
    hide Undo, OpAt, Width;
  }

  lemma {:induction false} UndoFromEnd(m: Mem, info: U64, i: nat, f: Frame, s: Progress)
    requires i >= Count(m, info)
    ensures UndoFrom(m, info, i, f, s) == s
  {
    hide Undo, OpAt, Width;
  }

  /** A 32-bit operand is read across two code slots. */
  lemma {:induction false} OperandWord(m: Mem, info: U64, i: nat)
    ensures Read32(m, info + 4 + 2 * (i + 1)) == Code(m, info, i + 1) + 0x1_0000 * Code(m, info, i + 2)
  {
    var b := ReadBytes(m, info + 4 + 2 * (i + 1), 4);
    Get32Halves(b);
    assert b[..2] == ReadBytes(m, info + 4 + 2 * (i + 1), 2);
    assert b[2..] == ReadBytes(m, info + 4 + 2 * (i + 2), 2);
  }

  datatype ChainState = ChainState(progress: Progress, found: (U64, U64))

  /** The effect of the record at `info` and those it is chained to. */
  function UndoChain(m: Mem, kind: HandlerKind, base: U64, info: U64, links: nat, f: Frame, s: ChainState): ChainState
    requires ChainEnds(m, base, info, links)
    decreases links
  {
    var found := if Wants(m, info, kind) && s.found.0 == 0 then HandlerOf(m, base, info) else s.found;
    var s' := ChainState(UndoFrom(m, info, 0, f, s.progress), found);
    if Chained(m, info) then UndoChain(m, kind, base, ParentOf(m, base, info), links - 1, f, s') else s'
  }

  lemma {:induction false} UndoChainIsUndoAll(
      m: Mem, kind: HandlerKind, base: U64, info: U64, links: nat, f: Frame, s: ChainState)
    requires ChainEnds(m, base, info, links)
    ensures var chain := ChainOf(m, base, info, links);
            UndoChain(m, kind, base, info, links, f, s)
            == ChainState(UndoAll(OpsOf(m, chain), m, f, s.progress), HandlerIn(m, base, chain, kind, s.found))
    decreases links
  {
    var chain := ChainOf(m, base, info, links);
    var found := if Wants(m, info, kind) && s.found.0 == 0 then HandlerOf(m, base, info) else s.found;
    var s' := ChainState(UndoFrom(m, info, 0, f, s.progress), found);
    UndoFromIsUndoAll(m, info, 0, f, s.progress);
    if Chained(m, info) {
      UndoChainIsUndoAll(m, kind, base, ParentOf(m, base, info), links - 1, f, s');
      UndoAllConcat(Ops(m, info), OpsOf(m, chain[1..]), m, f, s.progress);
    } else {
      assert chain[1..] == [] && OpsOf(m, chain) == Ops(m, info) + [];
      assert Ops(m, info) + [] == Ops(m, info);
    }
  }

  /** `links` bounds the chain of records, which must not be cyclic. */
  method RtlVirtualUnwind(m: Mem, kind: HandlerKind, base: U64, fn: RuntimeFunction, ctx: Context, ghost links: nat)
    returns (handler: U64, hdata: U64, establisher: U64)
    requires ctx.Valid() && ChainEnds(m, base, Wrap(base + fn.unwindData), links)
    modifies ctx, ctx.gpr
    ensures Unwound(ctx.Cpu(), handler, hdata, establisher)
         == Unwind(m, kind, base, Wrap(base + fn.unwindData), links, old(ctx.Cpu()))
  {
    var info: U64 := Wrap(base + fn.unwindData);
    var frameReg := FrameReg(m, info);
    var frameOff: int := FrameOff(m, info);
    establisher := if frameReg != 0 then Plus(ctx.gpr[frameReg], -16 * frameOff) else ctx.gpr[RSP];
    handler, hdata := 0, 0;
    var mach := false;
    var f := Frame(establisher, frameReg, frameOff);
    UndoChainIsUndoAll(m, kind, base, info, links, f, ChainState(Progress(ctx.Cpu(), false), (0, 0)));
    mach, handler, hdata := ApplyChain(m, kind, base, info, f, ctx, links);
    if !mach {
      ctx.rip := Read64(m, ctx.gpr[RSP]);
      ctx.Put(RSP, Plus(ctx.gpr[RSP], 8));
    }
  }

  /** The loop over the chain of records. */
  method ApplyChain(m: Mem, kind: HandlerKind, base: U64, first: U64, f: Frame, ctx: Context, ghost links: nat)
    returns (mach: bool, handler: U64, hdata: U64)
    requires ctx.Valid() && ChainEnds(m, base, first, links)
    modifies ctx, ctx.gpr
    ensures ChainState(Progress(ctx.Cpu(), mach), (handler, hdata))
         == UndoChain(m, kind, base, first, links, f, ChainState(Progress(old(ctx.Cpu()), false), (0, 0)))
  {
    var info := first;
    mach, handler, hdata := false, 0, 0;
    ghost var left := links;
    ghost var total := UndoChain(m, kind, base, info, left, f, ChainState(Progress(ctx.Cpu(), mach), (0, 0)));
    while true
      invariant ChainEnds(m, base, info, left)
      invariant UndoChain(m, kind, base, info, left, f, ChainState(Progress(ctx.Cpu(), mach), (handler, hdata)))
                == total
      decreases left
    {
      mach := ApplyCodes(m, info, f, ctx, mach);
      if Wants(m, info, kind) && handler == 0 {
        handler := Wrap(base + Read32(m, Trailer(m, info)));
        hdata := Wrap(Trailer(m, info) + 4);
      }
      if !Chained(m, info) {
        break;
      }
      info := Wrap(base + Read32(m, Trailer(m, info) + 8));
      left := left - 1;
    }
  }
}
