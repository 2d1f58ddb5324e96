/**
 A thread's call stack as calls, running bodies and returns build it, and the
 theorem that the unwinder's walk visits exactly its activations.
 */
module CallStack {
  import opened Words
  import opened Memory
  import opened UnwindCodes
  import opened VirtualUnwind
  import opened FunctionTable
  import opened Prologue
  import UnwindRecords

  /** What the walk consults besides memory; `links` bounds every chain of unwind records. */
  datatype World = World(modules: Modules, links: nat)

  function InfoOf(e: Found): U64 {
    Wrap(e.base + e.fn.unwindData)
  }

  ghost predicate ChainsEnd(w: World, m: Mem) {
    forall pc: U64 :: FindEntry(w.modules, pc).Some? ==>
      var e := FindEntry(w.modules, pc).value; ChainEnds(m, e.base, InfoOf(e), w.links)
  }

  /** A leaf's caller: the return address is on top of the stack. */
  function PopReturn(m: Mem, c: Cpu): Cpu {
    SetReg(c, RSP, Plus(Rsp(c), 8)).(rip := Read64(m, Rsp(c)))
  }

  /** The context of the caller of `c`, before it is known whether the walk goes on. */
  function CallerOf(w: World, m: Mem, c: Cpu): Cpu
    requires ChainsEnd(w, m)
  {
    match FindEntry(w.modules, c.rip)
    case None => PopReturn(m, c)
    case Some(e) => Unwind(m, EHandler, e.base, InfoOf(e), w.links, c).cpu
  }

  /** The walk ends at a leaf with an implausible Rsp, or where the caller's Rip is 0. */
  predicate IsLast(w: World, m: Mem, c: Cpu)
    requires ChainsEnd(w, m)
  {
    (FindEntry(w.modules, c.rip).None? && Rsp(c) < 0x1_0000) || CallerOf(w, m, c).rip == 0
  }

  /** The contexts visited in at most `n` steps, innermost first. */
  function Walk(w: World, m: Mem, c: Cpu, n: nat): (visits: seq<Cpu>)
    requires ChainsEnd(w, m)
    ensures |visits| <= n && (n > 0 ==> visits != [] && visits[0] == c)
    decreases n
  {
    if n == 0 then []
    else if IsLast(w, m, c) then [c]
    else [c] + Walk(w, m, CallerOf(w, m, c), n - 1)
  }

  /**
   The walk, one step: a function without an entry is left by its return address, unless Rsp is below 0x10000; one
   with an entry is unwound; the walk ends where the Rip found is 0.
   */
  lemma {:induction false} WalkSteps(w: World, m: Mem, c: Cpu, n: nat)
    requires ChainsEnd(w, m) && n > 0
    ensures match FindEntry(w.modules, c.rip)
            case None =>
              var (sp: int, ret) := (c.gpr[4], UnwindRecords.Quad(m, c.gpr[4]));
              Walk(w, m, c, n) == if sp < 0x1_0000 || ret == 0 then [c]
                                  else [c] + Walk(w, m, RawCpu(c.gpr[4 := Wrap(sp + 8)], ret), n - 1)
            case Some(e) =>
              var u := Unwind(m, EHandler, e.base, InfoOf(e), w.links, c).cpu;
              Walk(w, m, c, n) == if u.rip == 0 then [c] else [c] + Walk(w, m, u, n - 1)
  {
    hide Read64, UnwindRecords.Quad, Unwind, ChainEnds;
    UnwindRecords.Read64Is(m, c.gpr[4]);
  }

  // ---- activations --------------------------------------------------------

  predicate NonVolatile(r: int) {
    r in {3, 5, 6, 7} || 12 <= r < 16
  }

  /** Equal in what a call preserves: Rip, Rsp and the nonvolatile registers. */
  predicate Alike(a: Cpu, b: Cpu) {
    a.rip == b.rip && Rsp(a) == Rsp(b) && forall r: Nibble :: NonVolatile(r) ==> a.gpr[r] == b.gpr[r]
  }

  datatype Shape =
    | Leaf
    | Framed(entry: Found, how: Entry, ops: seq<Op>, reg: Nibble, off: Nibble)
  {
    /** How the function is entered; a leaf is always called. */
    function How(): Entry {
      if Framed? then how else ByCall
    }
  }

  /** A function that has been entered and has not returned; `cpu` is where it stands now. */
  datatype Activation = Activation(cpu: Cpu, shape: Shape)

  predicate FrameFits(shape: Shape, sp: int)
    requires shape.Framed?
  {
    0 <= sp - BaseDepth(shape.ops) < TWO64
  }

  /** The frame of an activation entered with Rsp at `sp`. */
  function FrameAt(shape: Shape, sp: int): Frame
    requires shape.Framed? && FrameFits(shape, sp)
  {
    Frame(sp - BaseDepth(shape.ops), shape.reg, shape.off)
  }

  /** Rsp on entry: below a return address, or below the machine frame that an interrupt pushes at a multiple of 16. */
  function EntryRsp(shape: Shape, caller: Cpu): int {
    match shape.How()
    case ByCall => Rsp(caller) - 8
    case ByInterrupt(_) => Rsp(caller) / 16 * 16 - EntrySize(shape.How())
  }

  /** The unwind records of the function describe this prologue. */
  predicate Describes(w: World, m: Mem, shape: Shape)
    requires shape.Framed?
  {
    var (e, info) := (shape.entry, InfoOf(shape.entry));
    && ChainEnds(m, e.base, info, w.links)
    && OpsOf(m, ChainOf(m, e.base, info, w.links)) == Reverse(shape.ops) + EntryOps(shape.how)
    && FrameReg(m, info) == shape.reg && FrameOff(m, info) == shape.off
  }

  /** Every nonvolatile register the function does not save is as the caller left it. */
  predicate Preserves(a: Activation, caller: Cpu) {
    forall r: Nibble :: NonVolatile(r) && (a.shape.Framed? ==> !Saves(a.shape.ops, r))
      ==> a.cpu.gpr[r] == caller.gpr[r]
  }

  /** `a` was called by `caller`, or interrupted it, and can be unwound to it. */
  predicate Linked(w: World, m: Mem, a: Activation, caller: Cpu) {
    var sp := EntryRsp(a.shape, caller);
    && 0x1_0000 <= sp
    && Preserves(a, caller)
    && match a.shape
       case Leaf =>
         FindEntry(w.modules, a.cpu.rip) == None && Rsp(a.cpu) == sp && Read64(m, sp) == caller.rip
       case Framed(e, how, ops, reg, off) =>
         && FindEntry(w.modules, a.cpu.rip) == Some(e) && Describes(w, m, a.shape)
         && (reg != 0 ==> NonVolatile(reg) && Saves(ops, reg))
         && FrameFits(a.shape, sp)
         && Suspended(how, ops, FrameAt(a.shape, sp), sp, caller, a.cpu, m)
         && Rsp(a.cpu) <= FrameAt(a.shape, sp).base
  }

  /** The activations of a thread, innermost first; the outermost returns to `root`, whose Rip is 0. */
  datatype Thread = Thread(acts: seq<Activation>, root: Cpu, mem: Mem)

  function CallerCpu(acts: seq<Activation>, root: Cpu): Cpu
    requires acts != []
  {
    if |acts| > 1 then acts[1].cpu else root
  }

  predicate AllLinked(w: World, m: Mem, acts: seq<Activation>, root: Cpu)
    decreases |acts|
  {
    acts == [] ||
    (&& Linked(w, m, acts[0], CallerCpu(acts, root))
     && (|acts| > 1 ==> acts[1].cpu.rip != 0)
     && AllLinked(w, m, acts[1..], root))
  }

  ghost predicate Valid(w: World, t: Thread) {
    t.root.rip == 0 && ChainsEnd(w, t.mem) && AllLinked(w, t.mem, t.acts, t.root)
  }

  // ---- the walk -----------------------------------------------------------

  /** One step of the walk from a context alike `a.cpu` leads to one alike its caller. */
  lemma {:induction false} StepFindsCaller(w: World, m: Mem, a: Activation, caller: Cpu, c: Cpu)
    requires ChainsEnd(w, m) && Linked(w, m, a, caller) && Alike(c, a.cpu)
    ensures Alike(CallerOf(w, m, c), caller)
    ensures IsLast(w, m, c) <==> caller.rip == 0
    ensures a.shape.Framed? ==>
              FrameBase(m, InfoOf(a.shape.entry), c) == FrameAt(a.shape, EntryRsp(a.shape, caller)).base
  {
    var sp := EntryRsp(a.shape, caller);
    match a.shape
    case Leaf =>
    case Framed(e, how, ops, reg, off) =>
      var f := FrameAt(a.shape, sp);
      assert Suspended(how, ops, f, sp, caller, c, m);
      assert OpsOf(m, ChainOf(m, e.base, InfoOf(e), w.links)) == Reverse(ops) + EntryOps(how);
      SuspendedUnwinds(how, ops, f, sp, caller, c, m, EHandler, e.base, InfoOf(e),
                       ChainOf(m, e.base, InfoOf(e), w.links));
      assert FindEntry(w.modules, c.rip) == Some(e);
  }

  /** The visited contexts are those of the innermost activations, in what a call preserves. */
  predicate AlikeAll(visits: seq<Cpu>, acts: seq<Activation>) {
    |visits| <= |acts| && forall i :: 0 <= i < |visits| ==> Alike(visits[i], acts[i].cpu)
  }

  lemma {:induction false} AlikeFirst(c: Cpu, rest: seq<Cpu>, acts: seq<Activation>)
    requires acts != [] && Alike(c, acts[0].cpu) && AlikeAll(rest, acts[1..])
    ensures AlikeAll([c] + rest, acts)
  {
    forall i | 0 < i < |rest| + 1 ensures Alike(([c] + rest)[i], acts[i].cpu) {
      assert Alike(rest[i - 1], acts[1..][i - 1].cpu);
    }
  }

  /**
   The walk visits exactly the thread's activations, innermost first, up to the cap, and in each one
   sees its Rip, its Rsp and its nonvolatile registers.
   */
  lemma {:induction false} WalkVisitsActivations(w: World, m: Mem, acts: seq<Activation>, root: Cpu, c: Cpu, n: nat)
    requires ChainsEnd(w, m) && AllLinked(w, m, acts, root) && root.rip == 0
    requires acts != [] && Alike(c, acts[0].cpu)
    ensures var visits := Walk(w, m, c, n);
            |visits| == (if n < |acts| then n else |acts|) && AlikeAll(visits, acts)
    decreases n
  {
    hide Linked, Alike, CallerOf, IsLast;
    if n > 0 {
      StepFindsCaller(w, m, acts[0], CallerCpu(acts, root), c);
      if |acts| > 1 {
        var next := CallerOf(w, m, c);
        WalkVisitsActivations(w, m, acts[1..], root, next, n - 1);
        AlikeFirst(c, Walk(w, m, next, n - 1), acts);
      }
    }
  }

  /** Rsp and the frame base rise from each activation to its caller. */
  lemma {:induction false} LinkedRises(w: World, m: Mem, a: Activation, caller: Cpu)
    requires Linked(w, m, a, caller)
    ensures Rsp(a.cpu) < Rsp(caller)
    ensures a.shape.Framed? ==>
              Rsp(a.cpu) <= FrameAt(a.shape, EntryRsp(a.shape, caller)).base < Rsp(caller)
  {
  }

  /** From each visited context to the next Rsp strictly increases, so the walk ends without the cap. */
  lemma {:induction false} WalkRises(w: World, m: Mem, acts: seq<Activation>, root: Cpu, c: Cpu, n: nat, i: nat, j: nat)
    requires ChainsEnd(w, m) && AllLinked(w, m, acts, root) && root.rip == 0
    requires acts != [] && Alike(c, acts[0].cpu)
    requires i < j < |Walk(w, m, c, n)|
    ensures Rsp(Walk(w, m, c, n)[i]) < Rsp(Walk(w, m, c, n)[j])
  {
    hide AllLinked, Walk;
    WalkVisitsActivations(w, m, acts, root, c, n);
    assert Alike(Walk(w, m, c, n)[i], acts[i].cpu) && Alike(Walk(w, m, c, n)[j], acts[j].cpu);
    RspRises(w, m, acts, root, i, j);
  }

  lemma {:induction false} RspRises(w: World, m: Mem, acts: seq<Activation>, root: Cpu, i: nat, j: nat)
    requires AllLinked(w, m, acts, root) && i < j < |acts|
    ensures Rsp(acts[i].cpu) < Rsp(acts[j].cpu)
    decreases |acts|
  {
    hide Linked;
    if i > 0 {
      RspRises(w, m, acts[1..], root, i - 1, j - 1);
    } else {
      LinkedRises(w, m, acts[0], acts[1].cpu);
      if j > 1 {
        RspRises(w, m, acts[1..], root, 0, j - 1);
      }
    }
  }
}
