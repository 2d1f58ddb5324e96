/** Threads run by calling, being interrupted, computing and returning; every reachable call stack can be walked. */
module ThreadRuns {
  import opened Words
  import opened Memory
  import opened UnwindCodes
  import opened VirtualUnwind
  import opened FunctionTable
  import opened Prologue
  import opened CallStack

  // ---- how a thread runs --------------------------------------------------

  /** Memory the images occupy; code and unwind records live there, never the stack. */
  type Region = U64 -> bool

  /** How many bytes of the record at `info` the unwinder can look at. */
  function RecordSize(m: Mem, info: U64): (n: nat)
    ensures 4 + 2 * Count(m, info) + 12 <= n <= 528
  {
    4 + 2 * ((Count(m, info) + 1) / 2 * 2) + 12
  }

  ghost predicate RecordInside(m: Mem, info: U64, image: Region) {
    forall x: U64 :: Wrap(x - info) < RecordSize(m, info) ==> image(x)
  }

  ghost predicate ChainInside(m: Mem, base: U64, info: U64, links: nat, image: Region)
    decreases links
  {
    RecordInside(m, info, image) &&
    (Chained(m, info) && links > 0 ==> ChainInside(m, base, ParentOf(m, base, info), links - 1, image))
  }

  /** Every unwind record a lookup can lead to lies in the image region. */
  ghost predicate ImageClosed(w: World, m: Mem, image: Region) {
    forall pc: U64 :: FindEntry(w.modules, pc).Some? ==>
      var e := FindEntry(w.modules, pc).value; ChainInside(m, e.base, InfoOf(e), w.links, image)
  }

  ghost predicate ImageKept(image: Region, m: Mem, m': Mem) {
    forall x: U64 :: image(x) ==> m'(x) == m(x)
  }

  lemma {:induction false} RecordByteKept(image: Region, m: Mem, m': Mem, info: U64, k: nat)
    requires ImageKept(image, m, m') && RecordInside(m, info, image) && k < RecordSize(m, info)
    ensures m'(Wrap(info + k)) == m(Wrap(info + k))
  {
    WrapOffset(info, k);
  }

  lemma {:induction false} RecordBytesKept(image: Region, m: Mem, m': Mem, info: U64, k: nat, n: nat)
    requires ImageKept(image, m, m') && RecordInside(m, info, image)
    requires k + n <= RecordSize(m, info)
    ensures ReadBytes(m', info + k, n) == ReadBytes(m, info + k, n)
  {
    var after, before := ReadBytes(m', info + k, n), ReadBytes(m, info + k, n);
    forall i | 0 <= i < n ensures after[i] == before[i] {
      RecordByteKept(image, m, m', info, k + i);
    }
  }

  lemma {:induction false} OpsFromAgree(c: CodeArray, d: CodeArray, i: nat, n: nat)
    requires forall k: nat :: k < n + 2 ==> c(k) == d(k)
    ensures OpsFrom(c, i, n) == OpsFrom(d, i, n)
    decreases n - i
  {
    if i < n {
      OpsFromAgree(c, d, i + Width(c(i)), n);
    }
  }

  lemma {:induction false} HeaderKept(image: Region, m: Mem, m': Mem, info: U64)
    requires ImageKept(image, m, m') && RecordInside(m, info, image)
    ensures Flags(m', info) == Flags(m, info) && Count(m', info) == Count(m, info)
    ensures FrameReg(m', info) == FrameReg(m, info) && FrameOff(m', info) == FrameOff(m, info)
  {
    assert Wrap(info + 0) == info;
    RecordByteKept(image, m, m', info, 0);
    RecordByteKept(image, m, m', info, 2);
    RecordByteKept(image, m, m', info, 3);
  }

  lemma {:induction false} OpsKept(image: Region, m: Mem, m': Mem, info: U64)
    requires ImageKept(image, m, m') && RecordInside(m, info, image)
    ensures Ops(m', info) == Ops(m, info)
  {
    HeaderKept(image, m, m', info);
    var c', c := CodesAt(m', info), CodesAt(m, info);
    forall k: nat | k < Count(m, info) as int + 2 ensures c'(k) == c(k) {
      RecordBytesKept(image, m, m', info, 4 + 2 * k, 2);
      assert info + (4 + 2 * k) == info + 4 + 2 * k;
    }
    OpsFromAgree(c', c, 0, Count(m, info));
  }

  lemma {:induction false} ParentKept(image: Region, m: Mem, m': Mem, base: U64, info: U64)
    requires ImageKept(image, m, m') && RecordInside(m, info, image)
    ensures ParentOf(m', base, info) == ParentOf(m, base, info)
  {
    HeaderKept(image, m, m', info);
    var k := Trailer(m, info) + 8 - info;
    RecordBytesKept(image, m, m', info, k, 4);
    assert info + k == Trailer(m, info) + 8 == Trailer(m', info) + 8;
  }

  /** A record whose bytes are kept reads the same. */
  lemma {:induction false} RecordKept(image: Region, m: Mem, m': Mem, base: U64, info: U64)
    requires ImageKept(image, m, m') && RecordInside(m, info, image)
    ensures Flags(m', info) == Flags(m, info)
    ensures FrameReg(m', info) == FrameReg(m, info) && FrameOff(m', info) == FrameOff(m, info)
    ensures Ops(m', info) == Ops(m, info)
    ensures ParentOf(m', base, info) == ParentOf(m, base, info)
    ensures RecordInside(m', info, image)
  {
    HeaderKept(image, m, m', info);
    OpsKept(image, m, m', info);
    ParentKept(image, m, m', base, info);
  }

  lemma {:induction false} ChainKept(image: Region, m: Mem, m': Mem, base: U64, info: U64, links: nat)
    requires ImageKept(image, m, m') && ChainInside(m, base, info, links, image)
    requires ChainEnds(m, base, info, links)
    ensures ChainEnds(m', base, info, links) && ChainInside(m', base, info, links, image)
    ensures OpsOf(m', ChainOf(m', base, info, links)) == OpsOf(m, ChainOf(m, base, info, links))
    decreases links
  {
    RecordKept(image, m, m', base, info);
    if Chained(m, info) {
      ChainKept(image, m, m', base, ParentOf(m, base, info), links - 1);
    }
    var chain, chain' := ChainOf(m, base, info, links), ChainOf(m', base, info, links);
    assert chain'[0] == chain[0] == info;
    if Chained(m, info) {
      assert chain[1..] == ChainOf(m, base, ParentOf(m, base, info), links - 1);
      assert chain'[1..] == ChainOf(m', base, ParentOf(m', base, info), links - 1);
    }
  }

  lemma {:induction false} WorldKept(w: World, image: Region, m: Mem, m': Mem)
    requires ImageKept(image, m, m') && ImageClosed(w, m, image) && ChainsEnd(w, m)
    ensures ImageClosed(w, m', image) && ChainsEnd(w, m')
  {
    forall pc: U64 | FindEntry(w.modules, pc).Some?
      ensures var e := FindEntry(w.modules, pc).value;
              ChainEnds(m', e.base, InfoOf(e), w.links) && ChainInside(m', e.base, InfoOf(e), w.links, image)
    {
      var e := FindEntry(w.modules, pc).value;
      ChainKept(image, m, m', e.base, InfoOf(e), w.links);
    }
  }

  // ---- frames under writes ------------------------------------------------

  /** Where to return to is kept: the Rip, and after an interrupt the Rsp, that the entry put at `sp`. */
  predicate ReturnKept(e: Entry, sp: int, m: Mem, m': Mem) {
    && Read64(m', sp + RipSlot(e)) == Read64(m, sp + RipSlot(e))
    && (e.ByInterrupt? ==> Read64(m', sp + RipSlot(e) + 24) == Read64(m, sp + RipSlot(e) + 24))
  }

  /** What `a` needs of the stack: where to return to and the slots of its saved registers. */
  predicate FrameKept(a: Activation, caller: Cpu, m: Mem, m': Mem) {
    var sp := EntryRsp(a.shape, caller);
    && ReturnKept(a.shape.How(), sp, m, m')
    && (a.shape.Framed? && FrameFits(a.shape, sp) ==> SlotsKept(a.shape.ops, FrameAt(a.shape, sp), sp, m, m'))
  }

  predicate FramesKept(acts: seq<Activation>, root: Cpu, m: Mem, m': Mem)
    decreases |acts|
  {
    acts == [] || (FrameKept(acts[0], CallerCpu(acts, root), m, m') && FramesKept(acts[1..], root, m, m'))
  }

  lemma {:induction false} LinkedKept(w: World, image: Region, m: Mem, m': Mem, a: Activation, caller: Cpu)
    requires ImageKept(image, m, m') && ImageClosed(w, m, image) && ChainsEnd(w, m)
    requires Linked(w, m, a, caller) && FrameKept(a, caller, m, m')
    ensures Linked(w, m', a, caller)
  {
    hide Fits, WellFormed, SlotsHold, SlotsKept, FrameReg, FrameOff;
    if a.shape.Framed? {
      var (e, sp) := (a.shape.entry, EntryRsp(a.shape, caller));
      assert FindEntry(w.modules, a.cpu.rip) == Some(e);
      ChainKept(image, m, m', e.base, InfoOf(e), w.links);
      assert ChainInside(m, e.base, InfoOf(e), w.links, image);
      HeaderKept(image, m, m', InfoOf(e));
      KeptSlotsHold(a.shape.ops, FrameAt(a.shape, sp), sp, caller, m, m');
    }
  }

  lemma {:induction false} AllLinkedKept(w: World, image: Region, m: Mem, m': Mem, acts: seq<Activation>, root: Cpu)
    requires ImageKept(image, m, m') && ImageClosed(w, m, image) && ChainsEnd(w, m)
    requires AllLinked(w, m, acts, root) && FramesKept(acts, root, m, m')
    ensures AllLinked(w, m', acts, root)
    decreases |acts|
  {
    if acts != [] {
      LinkedKept(w, image, m, m', acts[0], CallerCpu(acts, root));
      AllLinkedKept(w, image, m, m', acts[1..], root);
    }
  }

  // ---- steps --------------------------------------------------------------

  datatype Step =
    /** The running function calls the one at `pc`, to return to `ret`; its prologue runs. */
    | Call(ret: U64, pc: U64, shape: Shape, xmm: Nibble -> Xmm)
    /** The one at `pc` interrupts the running function, with these words in the machine frame; its prologue runs. */
    | Interrupt(code: Option<U64>, cs: U64, flags: U64, ss: U64, pc: U64, shape: Shape, xmm: Nibble -> Xmm)
    /** The running function's body computes, ending with these registers and this memory. */
    | Run(cpu: Cpu, mem: Mem)
    /** The running function returns, leaving these registers to its caller. */
    | Return(cpu: Cpu)
  {
    /** A function is entered in the way its unwind records say. */
    predicate Enters() {
      || (Call? && shape.How() == ByCall)
      || (Interrupt? && shape.How() == ByInterrupt(code.Some?))
    }
  }

  function Current(t: Thread): Cpu {
    if t.acts == [] then t.root else t.acts[0].cpu
  }

  /** Where the function left behind will go on. */
  function Resumed(c: Cpu, s: Step): Cpu
    requires s.Enters()
  {
    if s.Call? then c.(rip := s.ret) else c
  }

  /** What the entry puts on the stack, at the callee's Rsp. */
  function EntryBytes(c: Cpu, s: Step): (b: seq<Byte>)
    requires s.Enters()
    ensures |b| == EntrySize(s.shape.How())
  {
    if s.Call? then Put64(s.ret)
    else
      (if s.code.Some? then Put64(s.code.value) else [])
      + Put64(c.rip) + Put64(s.cs) + Put64(s.flags) + Put64(Rsp(c)) + Put64(s.ss)
  }

  function ReturnsTo(acts: seq<Activation>, c: Cpu): seq<Activation> {
    if acts == [] then [] else [acts[0].(cpu := c)] + acts[1..]
  }

  /** There is a place for what the entry pushes, and for the frame. */
  predicate Placed(c: Cpu, s: Step) {
    && s.Enters() && 0x1_0000 <= EntryRsp(s.shape, c)
    && (s.shape.Framed? ==> FrameFits(s.shape, EntryRsp(s.shape, c)))
  }

  function BeforePrologue(m: Mem, c: Cpu, s: Step): Machine
    requires Placed(c, s)
  {
    var sp := EntryRsp(s.shape, c);
    Machine(SetReg(c, RSP, sp), StoreBytes(m, sp, EntryBytes(c, s)), s.xmm)
  }

  function AfterPrologue(m: Mem, c: Cpu, s: Step): Machine
    requires Placed(c, s)
  {
    if s.shape.Leaf? then BeforePrologue(m, c, s)
    else DoAll(s.shape.ops, FrameAt(s.shape, EntryRsp(s.shape, c)), BeforePrologue(m, c, s))
  }

  ghost predicate Allowed(w: World, image: Region, t: Thread, s: Step) {
    match s
    case Call(ret, _, _, _) =>
      && (if t.acts == [] then ret == 0
          else ret != 0 && FindEntry(w.modules, ret) == FindEntry(w.modules, Current(t).rip))
      && EntryAllowed(w, image, t, s)
    case Interrupt(_, _, _, _, _, _, _) =>
      t.acts != [] && Current(t).rip != 0 && EntryAllowed(w, image, t, s)
    case Run(cpu, mem) =>
      && t.acts != []
      && BodyAllowed(w, t.acts[0], CallerCpu(t.acts, t.root), cpu)
      && FramesKept(t.acts, t.root, t.mem, mem) && ImageKept(image, t.mem, mem)
    case Return(cpu) =>
      t.acts != [] && (|t.acts| > 1 ==> Alike(cpu, t.acts[1].cpu))
  }

  /** The entry and the prologue hit neither the image nor what older activations need. */
  ghost predicate EntryAllowed(w: World, image: Region, t: Thread, s: Step) {
    var c := Current(t);
    && Placed(c, s)
    && var (shape, sp) := (s.shape, EntryRsp(s.shape, c));
       && (forall x: U64 :: image(x) ==> Apart(sp, EntrySize(shape.How()), x, 1))
       && CalleeAllowed(w, t.mem, sp, s.pc, shape)
       && (shape.Framed? ==> PrologueClear(image, t, shape.ops, FrameAt(shape, sp), sp))
  }

  /** The function at `pc` has this shape; its prologue is well formed, fits and saves into disjoint slots. */
  predicate CalleeAllowed(w: World, m: Mem, sp: int, pc: U64, shape: Shape) {
    match shape
    case Leaf => FindEntry(w.modules, pc) == None
    case Framed(e, how, ops, reg, off) =>
      && FindEntry(w.modules, pc) == Some(e) && Describes(w, m, shape)
      && (reg != 0 ==> NonVolatile(reg) && Saves(ops, reg))
      && FrameFits(shape, sp)
      && (var f := FrameAt(shape, sp);
          && WellFormedPrologue(ops, f) && Fits(ops, f, sp)
          && StoresDisjoint(ops, f, sp) && StoresMiss(ops, f, sp, sp, EntrySize(how)))
  }

  /** The prologue's stores hit neither the image nor what older activations need. */
  ghost predicate PrologueClear(image: Region, t: Thread, ops: seq<Op>, f: Frame, sp: int) {
    && (forall x: U64 :: image(x) ==> StoresMiss(ops, f, sp, x, 1))
    && OlderMissed(t.acts, t.root, ops, f, sp)
  }

  /** A body may move Rsp only under a frame register, and keeps the nonvolatile registers it did not save. */
  predicate BodyAllowed(w: World, a: Activation, caller: Cpu, cpu: Cpu) {
    && FindEntry(w.modules, cpu.rip) == FindEntry(w.modules, a.cpu.rip)
    && (forall r: Nibble :: NonVolatile(r) && (a.shape.Framed? ==> !Saves(a.shape.ops, r))
          ==> cpu.gpr[r] == a.cpu.gpr[r])
    && (a.shape.Leaf? || a.shape.reg == 0 ==> Rsp(cpu) == Rsp(a.cpu))
    && (a.shape.Framed? && a.shape.reg != 0 ==>
          && cpu.gpr[a.shape.reg] == a.cpu.gpr[a.shape.reg]
          && FrameFits(a.shape, EntryRsp(a.shape, caller))
          && Rsp(cpu) <= FrameAt(a.shape, EntryRsp(a.shape, caller)).base)
  }

  /** The prologue's stores miss the slots of the saved registers of `ops`. */
  predicate SlotsMissed(ops: seq<Op>, f: Frame, sp: int, new_: seq<Op>, nf: Frame, nsp: int)
    decreases |ops|
  {
    ops == [] ||
    (&& (Saved(ops[0]) >= 0 ==> StoresMiss(new_, nf, nsp, StoreOf(ops[0], f, sp).0, 8))
     && SlotsMissed(ops[1..], f, sp - Lowered(ops[0]), new_, nf, nsp))
  }

  /** The prologue's stores miss what the older activations need. */
  predicate OlderMissed(acts: seq<Activation>, root: Cpu, ops: seq<Op>, f: Frame, sp: int)
    decreases |acts|
  {
    acts == [] ||
    (var (a, asp) := (acts[0], EntryRsp(acts[0].shape, CallerCpu(acts, root)));
     && StoresMiss(ops, f, sp, asp, EntrySize(a.shape.How()))
     && (a.shape.Framed? && FrameFits(a.shape, asp) ==>
           SlotsMissed(a.shape.ops, FrameAt(a.shape, asp), asp, ops, f, sp))
     && OlderMissed(acts[1..], root, ops, f, sp))
  }

  /** A new activation on top, behind its prologue. */
  function AfterEntry(t: Thread, s: Step): Thread
    requires Placed(Current(t), s)
  {
    var c := Current(t);
    var e := AfterPrologue(t.mem, c, s);
    Thread([Activation(e.cpu.(rip := s.pc), s.shape)] + ReturnsTo(t.acts, Resumed(c, s)), t.root, e.mem)
  }

  function After(t: Thread, s: Step): Thread
    requires s.Call? || s.Interrupt? ==> Placed(Current(t), s)
    requires s.Run? || s.Return? ==> t.acts != []
  {
    match s
    case Call(_, _, _, _) => AfterEntry(t, s)
    case Interrupt(_, _, _, _, _, _, _) => AfterEntry(t, s)
    case Run(cpu, mem) => Thread([t.acts[0].(cpu := cpu)] + t.acts[1..], t.root, mem)
    case Return(cpu) => Thread(ReturnsTo(t.acts[1..], cpu), t.root, t.mem)
  }

  // ---- the invariant ------------------------------------------------------

  /** Another context for the innermost activation that its body may reach keeps the stack linked. */
  lemma {:induction false} TopReplaced(w: World, m: Mem, acts: seq<Activation>, root: Cpu, c: Cpu)
    requires acts != [] && AllLinked(w, m, acts, root) && BodyAllowed(w, acts[0], CallerCpu(acts, root), c)
    ensures AllLinked(w, m, ReturnsTo(acts, c), root)
  {
    var acts' := ReturnsTo(acts, c);
    assert acts'[1..] == acts[1..];
    assert CallerCpu(acts', root) == CallerCpu(acts, root);
    LinkedAfterBody(w, m, acts[0], CallerCpu(acts, root), c);
  }

  lemma {:induction false} LinkedAfterBody(w: World, m: Mem, a: Activation, caller: Cpu, c: Cpu)
    requires Linked(w, m, a, caller) && BodyAllowed(w, a, caller, c)
    ensures Linked(w, m, a.(cpu := c), caller)
  {
  }

  /** What the entry pushes goes below everything the older activations need. */
  lemma {:induction false} StoreBelowKeepsSlots(ops: seq<Op>, f: Frame, pending: bool, sp: int, m: Mem, a: int,
          data: seq<Byte>)
    requires WellFormed(ops, f.reg, pending) && (pending ==> f.reg != 0)
    requires Fits(ops, f, sp) && 0 <= a && a + |data| <= f.base
    requires f.reg == 0 || pending ==> f.base == sp - BaseDepth(ops)
    ensures SlotsKept(ops, f, sp, m, StoreBytes(m, a, data))
    decreases |ops|
  {
    if ops != [] {
      var op := ops[0];
      if Saved(op) >= 0 {
        ReadUnaffected(m, a, data, StoreOf(op, f, sp).0, 8);
      }
      StoreBelowKeepsSlots(ops[1..], f, pending && !op.SetFpReg?, sp - Lowered(op), m, a, data);
    }
  }

  /** The words an entry put on the stack, and later stores that miss them. */
  lemma {:induction false} ReturnWordsKept(e: Entry, sp: int, m: Mem, a: int, data: seq<Byte>)
    requires 0 <= a && a + |data| <= sp && sp + EntrySize(e) <= TWO64
    ensures ReturnKept(e, sp, m, StoreBytes(m, a, data))
  {
    ReadUnaffected(m, a, data, sp + RipSlot(e), 8);
    if e.ByInterrupt? {
      ReadUnaffected(m, a, data, sp + RipSlot(e) + 24, 8);
    }
  }

  lemma {:induction false} StoreBelowKeepsFrames(w: World, m: Mem, acts: seq<Activation>, root: Cpu, a: int,
          data: seq<Byte>)
    requires AllLinked(w, m, acts, root) && 0 <= a && (acts != [] ==> a + |data| <= Rsp(acts[0].cpu))
    ensures FramesKept(acts, root, m, StoreBytes(m, a, data))
    decreases |acts|
  {
    if acts != [] {
      var caller := CallerCpu(acts, root);
      var sp := EntryRsp(acts[0].shape, caller);
      LinkedRises(w, m, acts[0], caller);
      ReturnWordsKept(acts[0].shape.How(), sp, m, a, data);
      if acts[0].shape.Framed? {
        var f := FrameAt(acts[0].shape, sp);
        StoreBelowKeepsSlots(acts[0].shape.ops, f, f.reg != 0, sp, m, a, data);
      }
      StoreBelowKeepsFrames(w, m, acts[1..], root, a, data);
    }
  }

  lemma {:induction false} MissedSlotsKept(ops: seq<Op>, f: Frame, sp: int, new_: seq<Op>, nf: Frame, m: Machine)
    requires SlotsMissed(ops, f, sp, new_, nf, Rsp(m.cpu)) && Fits(ops, f, sp)
    requires WellFormedPrologue(new_, nf) && Fits(new_, nf, Rsp(m.cpu))
    ensures SlotsKept(ops, f, sp, m.mem, DoAll(new_, nf, m).mem)
    decreases |ops|
  {
    if ops != [] {
      if Saved(ops[0]) >= 0 {
        DoAllKeepsApartBytes(new_, nf, m, nf.reg != 0, StoreOf(ops[0], f, sp).0, 8);
      }
      MissedSlotsKept(ops[1..], f, sp - Lowered(ops[0]), new_, nf, m);
    }
  }

  lemma {:induction false} MissedReturnKept(e: Entry, sp: int, ops: seq<Op>, f: Frame, m: Machine)
    requires WellFormedPrologue(ops, f) && Fits(ops, f, Rsp(m.cpu)) && 0 <= sp && sp + EntrySize(e) <= TWO64
    requires StoresMiss(ops, f, Rsp(m.cpu), sp, EntrySize(e))
    ensures ReturnKept(e, sp, m.mem, DoAll(ops, f, m).mem)
  {
    hide DoAll, StoresMiss, Fits, WellFormed;
    StoresMissPart(ops, f, Rsp(m.cpu), sp, EntrySize(e), sp + RipSlot(e), 8);
    DoAllKeepsApartBytes(ops, f, m, f.reg != 0, sp + RipSlot(e), 8);
    if e.ByInterrupt? {
      StoresMissPart(ops, f, Rsp(m.cpu), sp, EntrySize(e), sp + RipSlot(e) + 24, 8);
      DoAllKeepsApartBytes(ops, f, m, f.reg != 0, sp + RipSlot(e) + 24, 8);
    }
  }

  lemma {:induction false} PrologueKeepsFrames(w: World, mem: Mem, acts: seq<Activation>, root: Cpu,
                                               ops: seq<Op>, f: Frame, m: Machine)
    requires AllLinked(w, mem, acts, root) && OlderMissed(acts, root, ops, f, Rsp(m.cpu))
    requires WellFormedPrologue(ops, f) && Fits(ops, f, Rsp(m.cpu))
    ensures FramesKept(acts, root, m.mem, DoAll(ops, f, m).mem)
    decreases |acts|
  {
    if acts != [] {
      var sp := EntryRsp(acts[0].shape, CallerCpu(acts, root));
      MissedReturnKept(acts[0].shape.How(), sp, ops, f, m);
      if acts[0].shape.Framed? {
        MissedSlotsKept(acts[0].shape.ops, FrameAt(acts[0].shape, sp), sp, ops, f, m);
      }
      PrologueKeepsFrames(w, mem, acts[1..], root, ops, f, m);
    }
  }

  lemma {:induction false} SlotsKeptTwice(ops: seq<Op>, f: Frame, sp: int, m: Mem, m1: Mem, m2: Mem)
    requires SlotsKept(ops, f, sp, m, m1) && SlotsKept(ops, f, sp, m1, m2)
    ensures SlotsKept(ops, f, sp, m, m2)
    decreases |ops|
  {
    if ops != [] {
      SlotsKeptTwice(ops[1..], f, sp - Lowered(ops[0]), m, m1, m2);
    }
  }

  lemma {:induction false} FramesKeptTwice(acts: seq<Activation>, root: Cpu, m: Mem, m1: Mem, m2: Mem)
    requires FramesKept(acts, root, m, m1) && FramesKept(acts, root, m1, m2)
    ensures FramesKept(acts, root, m, m2)
    decreases |acts|
  {
    if acts != [] {
      var (a, sp) := (acts[0], EntryRsp(acts[0].shape, CallerCpu(acts, root)));
      if a.shape.Framed? && FrameFits(a.shape, sp) {
        SlotsKeptTwice(a.shape.ops, FrameAt(a.shape, sp), sp, m, m1, m2);
      }
      FramesKeptTwice(acts[1..], root, m, m1, m2);
    }
  }

  lemma {:induction false} SlotsKeptSame(ops: seq<Op>, f: Frame, sp: int, m: Mem)
    ensures SlotsKept(ops, f, sp, m, m)
    decreases |ops|
  {
    if ops != [] {
      SlotsKeptSame(ops[1..], f, sp - Lowered(ops[0]), m);
    }
  }

  /** A byte is memory read with length one. */
  lemma {:induction false} ByteOfRead(m: Mem, m': Mem, x: U64)
    requires ReadBytes(m, x, 1) == ReadBytes(m', x, 1)
    ensures m(x) == m'(x)
  {
    assert ReadBytes(m, x, 1)[0] == m(Wrap(x + 0)) && ReadBytes(m', x, 1)[0] == m'(Wrap(x + 0));
  }

  lemma {:induction false} StoreKeepsImage(image: Region, m: Mem, a: int, data: seq<Byte>)
    requires 0 <= a && a + |data| <= TWO64 && forall x: U64 :: image(x) ==> Apart(a, |data|, x, 1)
    ensures ImageKept(image, m, StoreBytes(m, a, data))
  {
    forall x: U64 | image(x) ensures StoreBytes(m, a, data)(x) == m(x) {
      ReadUnaffected(m, a, data, x, 1);
      ByteOfRead(StoreBytes(m, a, data), m, x);
    }
  }

  lemma {:induction false} PrologueKeepsImage(image: Region, ops: seq<Op>, f: Frame, m: Machine)
    requires WellFormedPrologue(ops, f) && Fits(ops, f, Rsp(m.cpu))
    requires forall x: U64 :: image(x) ==> StoresMiss(ops, f, Rsp(m.cpu), x, 1)
    ensures ImageKept(image, m.mem, DoAll(ops, f, m).mem)
  {
    forall x: U64 | image(x) ensures DoAll(ops, f, m).mem(x) == m.mem(x) {
      DoAllKeepsApartBytes(ops, f, m, f.reg != 0, x, 1);
      ByteOfRead(DoAll(ops, f, m).mem, m.mem, x);
    }
  }

  lemma {:induction false} EntryKeepsImage(w: World, image: Region, t: Thread, s: Step)
    requires EntryAllowed(w, image, t, s)
    ensures ImageKept(image, t.mem, AfterPrologue(t.mem, Current(t), s).mem)
  {
    hide WellFormed, Fits, StoresMiss, StoresDisjoint, Describes, OlderMissed, Saves, FindEntry, DoAll, EntryBytes;
    var (c, sp) := (Current(t), EntryRsp(s.shape, Current(t)));
    EntryFits(s.shape, c);
    StoreKeepsImage(image, t.mem, sp, EntryBytes(c, s));
    if s.shape.Framed? {
      PrologueKeepsImage(image, s.shape.ops, FrameAt(s.shape, sp), BeforePrologue(t.mem, c, s));
    }
  }

  lemma {:induction false} EntryFits(shape: Shape, c: Cpu)
    ensures EntryRsp(shape, c) + EntrySize(shape.How()) <= Rsp(c) < TWO64
  {
  }

  lemma {:induction false} ReadPart(m: Mem, a: int, n: nat, k: nat)
    requires k + 8 <= n
    ensures ReadBytes(m, a + k, 8) == ReadBytes(m, a, n)[k..k + 8]
  {
  }

  /** The words of a machine frame that the unwinder reads. */
  lemma {:induction false} FrameWords(c: Cpu, s: Step)
    requires s.Enters()
    ensures var (b, k) := (EntryBytes(c, s), RipSlot(s.shape.How()));
            && b[k..k + 8] == Put64(Resumed(c, s).rip)
            && (s.Interrupt? ==> b[k + 24..k + 32] == Put64(Rsp(c)))
  {
  }

  /** The callee starts as entered by a call or an interrupt. */
  lemma {:induction false} EntryFacts(m: Mem, c: Cpu, s: Step)
    requires Placed(c, s)
    ensures var start := BeforePrologue(m, c, s);
            && Rsp(start.cpu) == EntryRsp(s.shape, c)
            && Entered(s.shape.How(), Resumed(c, s), start.cpu, start.mem)
  {
    hide EntryBytes, ReadBytes;
    var (e, sp, start, b) := (s.shape.How(), EntryRsp(s.shape, c), BeforePrologue(m, c, s), EntryBytes(c, s));
    EntryFits(s.shape, c);
    FrameWords(c, s);
    ReadStored(m, sp, b);
    ReadPart(start.mem, sp, |b|, RipSlot(e));
    if s.Interrupt? {
      ReadPart(start.mem, sp, |b|, RipSlot(e) + 24);
    }
  }

  lemma {:induction false} PrologueKeepsFramesTwice(w: World, mem: Mem, acts: seq<Activation>, root: Cpu,
                                 ops: seq<Op>, f: Frame, start: Machine)
    requires AllLinked(w, mem, acts, root) && FramesKept(acts, root, mem, start.mem)
    requires OlderMissed(acts, root, ops, f, Rsp(start.cpu))
    requires WellFormedPrologue(ops, f) && Fits(ops, f, Rsp(start.cpu))
    ensures FramesKept(acts, root, mem, DoAll(ops, f, start).mem)
  {
    PrologueKeepsFrames(w, mem, acts, root, ops, f, start);
    FramesKeptTwice(acts, root, mem, start.mem, DoAll(ops, f, start).mem);
  }

  lemma {:induction false} EntryKeepsFrames(w: World, image: Region, t: Thread, s: Step)
    requires AllLinked(w, t.mem, t.acts, t.root) && EntryAllowed(w, image, t, s)
    ensures FramesKept(t.acts, t.root, t.mem, AfterPrologue(t.mem, Current(t), s).mem)
  {
    hide AllLinked, FramesKept, CalleeAllowed, PrologueClear, EntryBytes;
    var c, start := Current(t), BeforePrologue(t.mem, Current(t), s);
    var sp: U64 := EntryRsp(s.shape, c);
    EntryFits(s.shape, c);
    StoreBelowKeepsFrames(w, t.mem, t.acts, t.root, sp, EntryBytes(c, s));
    if s.shape.Framed? {
      ClearPrologue(w, image, t, sp, s.pc, s.shape, start);
    }
  }

  lemma {:induction false} ClearPrologue(w: World, image: Region, t: Thread, sp: U64, pc: U64, shape: Shape,
          start: Machine)
    requires AllLinked(w, t.mem, t.acts, t.root) && FramesKept(t.acts, t.root, t.mem, start.mem)
    requires Rsp(start.cpu) == sp && shape.Framed? && CalleeAllowed(w, t.mem, sp, pc, shape)
    requires PrologueClear(image, t, shape.ops, FrameAt(shape, sp), sp)
    ensures FramesKept(t.acts, t.root, t.mem, DoAll(shape.ops, FrameAt(shape, sp), start).mem)
  {
    PrologueKeepsFramesTwice(w, t.mem, t.acts, t.root, shape.ops, FrameAt(shape, sp), start);
  }

  lemma {:induction false} FramedCalleeSuspends(e: Entry, ops: seq<Op>, f: Frame, caller: Cpu, start: Machine, pc: U64)
    requires Entered(e, caller, start.cpu, start.mem)
    requires WellFormedPrologue(ops, f) && Fits(ops, f, Rsp(start.cpu)) && f.base == Rsp(start.cpu) - BaseDepth(ops)
    requires StoresDisjoint(ops, f, Rsp(start.cpu)) && StoresMiss(ops, f, Rsp(start.cpu), Rsp(start.cpu), EntrySize(e))
    ensures var end := DoAll(ops, f, start);
            && Suspended(e, ops, f, Rsp(start.cpu), caller, end.cpu.(rip := pc), end.mem)
            && Rsp(end.cpu) <= f.base
            && forall r: Nibble :: r != RSP && (r != f.reg || f.reg == 0) ==> end.cpu.gpr[r] == caller.gpr[r]
  {
    hide Fits, StoresDisjoint, StoresMiss, WellFormed, Suspended, DoAll, BaseDepth, Depth;
    var end := DoAll(ops, f, start);
    var body := end.(cpu := end.cpu.(rip := pc));
    assert BodyKeeps(e, ops, f, Rsp(start.cpu), end, body) by { SlotsKeptSame(ops, f, Rsp(start.cpu), end.mem); }
    PrologueSuspends(e, ops, f, caller, start, body);
    PrologueRegisters(ops, f, start, f.reg != 0);
  }

  /** The new activation can be unwound to its caller. */
  lemma {:induction false} CalleeLinked(w: World, caller: Cpu, start: Machine, end: Machine, pc: U64, shape: Shape)
    requires 0x1_0000 <= Rsp(start.cpu) == EntryRsp(shape, caller)
    requires Entered(shape.How(), caller, start.cpu, start.mem)
    requires CalleeAllowed(w, end.mem, Rsp(start.cpu), pc, shape)
    requires end == if shape.Leaf? then start else DoAll(shape.ops, FrameAt(shape, Rsp(start.cpu)), start)
    ensures Linked(w, end.mem, Activation(end.cpu.(rip := pc), shape), caller)
  {
    hide Suspended, DoAll, Fits, StoresDisjoint, StoresMiss, WellFormed, Describes;
    if shape.Framed? {
      FramedCalleeSuspends(shape.how, shape.ops, FrameAt(shape, Rsp(start.cpu)), caller, start, pc);
    }
  }

  lemma {:induction false} EntryKeepsOlder(w: World, image: Region, t: Thread, s: Step)
    requires Valid(w, t) && ImageClosed(w, t.mem, image) && Allowed(w, image, t, s) && (s.Call? || s.Interrupt?)
    ensures var m' := AfterPrologue(t.mem, Current(t), s).mem;
            && ImageClosed(w, m', image) && ChainsEnd(w, m')
            && AllLinked(w, m', ReturnsTo(t.acts, Resumed(Current(t), s)), t.root)
  {
    hide EntryAllowed, Placed, AfterPrologue, Allowed, AllLinked, FramesKept, ImageKept, ImageClosed, ChainsEnd;
    hide Resumed, BodyAllowed, ReturnsTo;
    EntryIsPlaced(w, image, t, s);
    var c, m' := Current(t), AfterPrologue(t.mem, Current(t), s).mem;
    EntryKeepsImage(w, image, t, s);
    WorldKept(w, image, t.mem, m');
    EntryKeepsFrames(w, image, t, s);
    AllLinkedKept(w, image, t.mem, m', t.acts, t.root);
    if t.acts != [] {
      ResumedInBody(w, image, t, s);
      TopReplaced(w, m', t.acts, t.root, Resumed(c, s));
    } else {
      NothingLinked(w, m', t.root, Resumed(c, s));
    }
  }

  lemma {:induction false} NothingLinked(w: World, m: Mem, root: Cpu, c: Cpu)
    ensures AllLinked(w, m, ReturnsTo([], c), root)
  {
  }

  /** Where the function left behind stands is a place its body may reach. */
  lemma {:induction false} ResumedInBody(w: World, image: Region, t: Thread, s: Step)
    requires AllLinked(w, t.mem, t.acts, t.root) && t.acts != []
    requires Allowed(w, image, t, s) && (s.Call? || s.Interrupt?)
    ensures BodyAllowed(w, t.acts[0], CallerCpu(t.acts, t.root), Resumed(Current(t), s))
  {
    hide EntryAllowed, Placed, Suspended, Describes, Saves, FindEntry, Preserves;
    assert EntryAllowed(w, image, t, s) && Placed(Current(t), s) by { EntryIsPlaced(w, image, t, s); }
    assert s.Enters() by { EntersPlaced(Current(t), s); }
  }

  lemma {:induction false} EntersPlaced(c: Cpu, s: Step)
    requires Placed(c, s)
    ensures s.Enters()
  {
  }

  lemma {:induction false} EntryIsPlaced(w: World, image: Region, t: Thread, s: Step)
    requires Allowed(w, image, t, s) && (s.Call? || s.Interrupt?)
    ensures EntryAllowed(w, image, t, s) && Placed(Current(t), s) && s.Enters()
    ensures if t.acts == [] then t.root.rip == 0 ==> Resumed(Current(t), s) == t.root
            else Resumed(Current(t), s).rip != 0
  {
    hide CalleeAllowed, PrologueClear, FrameFits;
  }

  lemma {:induction false} EntryLinksCallee(w: World, image: Region, t: Thread, s: Step)
    requires ChainsEnd(w, t.mem) && ImageClosed(w, t.mem, image) && EntryAllowed(w, image, t, s)
    ensures var e := AfterPrologue(t.mem, Current(t), s);
            Linked(w, e.mem, Activation(e.cpu.(rip := s.pc), s.shape), Resumed(Current(t), s))
  {
    hide Linked, ChainsEnd, ImageClosed, ImageKept, PrologueClear, DoAll, WellFormed, Fits, StoresDisjoint, StoresMiss;
    hide Saves, Describes, FindEntry, EntryBytes, Entered;
    var c, e := Current(t), AfterPrologue(t.mem, Current(t), s);
    var sp: U64 := EntryRsp(s.shape, c);
    if s.shape.Framed? {
      EntryKeepsImage(w, image, t, s);
      DescribesKept(w, image, t.mem, e.mem, s.pc, s.shape);
    }
    EntryFacts(t.mem, c, s);
    assert CalleeAllowed(w, e.mem, sp, s.pc, s.shape);
    CalleeLinked(w, Resumed(c, s), BeforePrologue(t.mem, c, s), e, s.pc, s.shape);
  }

  lemma {:induction false} EntryStaysValid(w: World, image: Region, t: Thread, s: Step)
    requires Valid(w, t) && ImageClosed(w, t.mem, image) && Allowed(w, image, t, s) && (s.Call? || s.Interrupt?)
    ensures Valid(w, After(t, s)) && ImageClosed(w, After(t, s).mem, image)
  {
    hide EntryAllowed, AfterPrologue, Placed, Allowed, AllLinked, Linked, ImageClosed, ChainsEnd, Resumed, ReturnsTo;
    EntryIsPlaced(w, image, t, s);
    var e := AfterPrologue(t.mem, Current(t), s);
    EntryKeepsOlder(w, image, t, s);
    EntryLinksCallee(w, image, t, s);
    CalleeOnTop(w, e.mem, Activation(e.cpu.(rip := s.pc), s.shape), t.acts, Resumed(Current(t), s), t.root);
  }

  lemma {:induction false} CalleeOnTop(w: World, m: Mem, a: Activation, acts: seq<Activation>, caller: Cpu, root: Cpu)
    requires Linked(w, m, a, caller) && AllLinked(w, m, ReturnsTo(acts, caller), root)
    requires if acts == [] then caller == root else caller.rip != 0
    ensures AllLinked(w, m, [a] + ReturnsTo(acts, caller), root)
  {
    var all := [a] + ReturnsTo(acts, caller);
    assert all[1..] == ReturnsTo(acts, caller);
    assert CallerCpu(all, root) == caller;
  }

  lemma {:induction false} DescribesKept(w: World, image: Region, m: Mem, m': Mem, pc: U64, shape: Shape)
    requires ImageKept(image, m, m') && ImageClosed(w, m, image) && ChainsEnd(w, m)
    requires shape.Framed? && FindEntry(w.modules, pc) == Some(shape.entry) && Describes(w, m, shape)
    ensures Describes(w, m', shape)
  {
    var e := shape.entry;
    assert ChainInside(m, e.base, InfoOf(e), w.links, image);
    ChainKept(image, m, m', e.base, InfoOf(e), w.links);
    HeaderKept(image, m, m', InfoOf(e));
  }

  /** Every step a thread may take keeps its stack walkable. */
  lemma {:induction false} StepStaysValid(w: World, image: Region, t: Thread, s: Step)
    requires Valid(w, t) && ImageClosed(w, t.mem, image) && Allowed(w, image, t, s)
    ensures Valid(w, After(t, s)) && ImageClosed(w, After(t, s).mem, image)
  {
    match s
    case Call(_, _, _, _) => EntryStaysValid(w, image, t, s);
    case Interrupt(_, _, _, _, _, _, _) => EntryStaysValid(w, image, t, s);
    case Run(cpu, mem) =>
      WorldKept(w, image, t.mem, mem);
      AllLinkedKept(w, image, t.mem, mem, t.acts, t.root);
      TopReplaced(w, mem, t.acts, t.root, cpu);
    case Return(cpu) =>
      if |t.acts| > 1 {
        TopReplaced(w, t.mem, t.acts[1..], t.root, cpu);
      }
  }

  // ---- runs ---------------------------------------------------------------

  ghost predicate AllAllowed(w: World, image: Region, t: Thread, steps: seq<Step>)
    decreases |steps|
  {
    steps == [] || (Allowed(w, image, t, steps[0]) && AllAllowed(w, image, After(t, steps[0]), steps[1..]))
  }

  ghost function AfterAll(w: World, image: Region, t: Thread, steps: seq<Step>): Thread
    requires AllAllowed(w, image, t, steps)
    decreases |steps|
  {
    if steps == [] then t else AfterAll(w, image, After(t, steps[0]), steps[1..])
  }

  lemma {:induction false} RunStaysValid(w: World, image: Region, t: Thread, steps: seq<Step>)
    requires Valid(w, t) && ImageClosed(w, t.mem, image) && AllAllowed(w, image, t, steps)
    ensures Valid(w, AfterAll(w, image, t, steps))
    decreases |steps|
  {
    if steps != [] {
      StepStaysValid(w, image, t, steps[0]);
      RunStaysValid(w, image, After(t, steps[0]), steps[1..]);
    }
  }

  /**
   From a thread that has called nothing yet, after any run of calls, interrupts, bodies and returns, the walk from the
   running context visits exactly the live activations, innermost first, as far as its cap of `n` goes.
   */
  lemma {:induction false} WalkIsTheCallStack(w: World, image: Region, root: Cpu, mem: Mem, steps: seq<Step>, n: nat)
    requires root.rip == 0 && ChainsEnd(w, mem) && ImageClosed(w, mem, image)
    requires AllAllowed(w, image, Thread([], root, mem), steps)
    ensures var t := AfterAll(w, image, Thread([], root, mem), steps);
            && ChainsEnd(w, t.mem)
            && (t.acts != [] ==>
                  var visits := Walk(w, t.mem, t.acts[0].cpu, n);
                  |visits| == (if n < |t.acts| then n else |t.acts|) && AlikeAll(visits, t.acts))
  {
    RunStaysValid(w, image, Thread([], root, mem), steps);
    var t := AfterAll(w, image, Thread([], root, mem), steps);
    if t.acts != [] {
      WalkVisitsActivations(w, t.mem, t.acts, t.root, t.acts[0].cpu, n);
    }
  }
}
