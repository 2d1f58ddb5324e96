/** Unwind records given by their bytes, and what unwinding through a chain of them does. */
module UnwindRecords {
  import opened Words
  import opened Memory
  import opened UnwindCodes
  import opened VirtualUnwind
  import ChainedInfo

  /**
   A record as a compiler lays it down: three flags, the prologue's size, the frame register and its scaled
   offset, the code slots, one more slot to make their number even, and what follows them.
   */
  datatype Record = Record(search: bool, unwind: bool, chained: bool, prologue: Byte, reg: Nibble, off: Nibble,
                           slots: seq<U16>, pad: U16, tail: seq<Byte>)

  function SlotBytes(slots: seq<U16>): (b: seq<Byte>)
    ensures |b| == 2 * |slots|
  {
    if slots == [] then [] else [slots[0] % 0x100, slots[0] / 0x100] + SlotBytes(slots[1..])
  }

  function Bit(on: bool, value: nat): nat {
    if on then value else 0
  }

  /** Its bytes: version 1 in the low three bits of the first, the flags 1, 2 and 4 above them. */
  function Bytes(r: Record): (b: seq<Byte>)
    requires |r.slots| < 0x100
  {
    [1 + 8 * (Bit(r.search, 1) + Bit(r.unwind, 2) + Bit(r.chained, 4)), r.prologue, |r.slots|, r.reg + 16 * r.off]
    + SlotBytes(r.slots)
    + (if |r.slots| % 2 == 1 then [r.pad % 0x100, r.pad / 0x100] else [])
    + r.tail
  }

  ghost predicate LiesAt(m: Mem, at: U64, r: Record) {
    |r.slots| < 0x100 && forall i :: 0 <= i < |Bytes(r)| ==> m(Wrap(at + i)) == Bytes(r)[i]
  }

  /** The 32-bit word that starts at byte `k`. */
  function Word(b: seq<Byte>, k: nat): U32
    requires k + 4 <= |b|
  {
    var w: int, x: int, y: int, z: int := b[k], b[k + 1], b[k + 2], b[k + 3];
    w + 0x100 * x + 0x1_0000 * y + 0x100_0000 * z
  }

  /** Where the bytes after the slots begin. */
  function TailAt(at: U64, r: Record): int
    requires |r.slots| < 0x100
  {
    at + |Bytes(r)| - |r.tail|
  }

  datatype Link = Link(at: U64, record: Record)

  /**
   Records of a chain: a chained one is followed by a function entry, whose third word says where the next
   record is; one with a handler is followed by the handler's address. Both are relative to the image base.
   */
  ghost predicate ChainLies(m: Mem, base: U64, links: seq<Link>)
    decreases |links|
  {
    && links != []
    && var (at, r) := (links[0].at, links[0].record);
       && LiesAt(m, at, r)
       && (r.search || r.unwind ==> |r.tail| >= 4)
       && (r.chained <==> |links| > 1)
       && (r.chained ==>
             && |r.tail| >= 12 && links[1].at == Wrap(base + Word(r.tail, 8))
             && ChainLies(m, base, links[1..]))
  }

  // ---- the accessors read the bytes ---------------------------------------

  lemma {:induction false} SlotByte(slots: seq<U16>, k: nat)
    requires k < |slots|
    ensures SlotBytes(slots)[2 * k] == slots[k] % 0x100 && SlotBytes(slots)[2 * k + 1] == slots[k] / 0x100
  {
    if k > 0 {
      SlotByte(slots[1..], k - 1);
      assert SlotBytes(slots)[2 * k..] == SlotBytes(slots[1..])[2 * (k - 1)..];
      assert SlotBytes(slots)[2 * k] == SlotBytes(slots[1..])[2 * (k - 1)];
      assert SlotBytes(slots)[2 * k + 1] == SlotBytes(slots[1..])[2 * (k - 1) + 1];
    }
  }

  lemma {:induction false} Read16Is(m: Mem, a: int)
    ensures Read16(m, a) == m(Wrap(a)) + 0x100 * m(Wrap(a + 1))
  {
    var b := ReadBytes(m, a, 2);
    assert b[1..][1..] == [] && b[0] == m(Wrap(a + 0)) && b[1] == m(Wrap(a + 1));
    assert FromLittleEndian(b[1..]) == b[1];
  }

  lemma {:induction false} Read32Is(m: Mem, a: int)
    ensures Read32(m, a)
            == m(Wrap(a)) + 0x100 * m(Wrap(a + 1)) + 0x1_0000 * m(Wrap(a + 2)) + 0x100_0000 * m(Wrap(a + 3))
  {
    var b := ReadBytes(m, a, 4);
    Get32Halves(b);
    assert b[..2] == ReadBytes(m, a, 2) && b[2..] == ReadBytes(m, a + 2, 2);
    Read16Is(m, a);
    Read16Is(m, a + 2);
  }

  lemma {:induction false} JoinedValue(x: seq<Byte>, y: seq<Byte>)
    ensures FromLittleEndian(x + y) == FromLittleEndian(x) + Pow256(|x|) * FromLittleEndian(y)
  {
    if x == [] {
      assert x + y == y;
    } else {
      assert (x + y)[1..] == x[1..] + y;
      JoinedValue(x[1..], y);
      var (a, b) := (Pow256(|x| - 1), FromLittleEndian(y));
      Reassociated(a, b);
      assert FromLittleEndian(x + y) == x[0] + 256 * (FromLittleEndian(x[1..]) + a * b);
    }
  }

  lemma {:induction false} Reassociated(a: nat, b: nat)
    ensures 256 * (a * b) == 256 * a * b
  {
  }

  /** The eight bytes at `a` as a number. */
  function Quad(m: Mem, a: int): U64 {
    m(Wrap(a)) + 0x100 * m(Wrap(a + 1)) + 0x1_0000 * m(Wrap(a + 2)) + 0x100_0000 * m(Wrap(a + 3))
    + 0x1_0000_0000 * m(Wrap(a + 4)) + 0x100_0000_0000 * m(Wrap(a + 5)) + 0x1_0000_0000_0000 * m(Wrap(a + 6))
    + 0x100_0000_0000_0000 * m(Wrap(a + 7))
  }

  lemma {:induction false} Read64Is(m: Mem, a: int)
    ensures Read64(m, a) == Quad(m, a)
  {
    hide FromLittleEndian, Pow256;
    var (b, lo, hi) := (ReadBytes(m, a, 8), ReadBytes(m, a, 4), ReadBytes(m, a + 4, 4));
    assert b == lo + hi;
    JoinedValue(lo, hi);
    PowersOf256();
    Read32Is(m, a);
    Read32Is(m, a + 4);
  }

  /** What undoing an operation that moves Rsp, the fourth register, does to the registers. */
  lemma {:induction false} StackMeanings(m: Mem, f: Frame, s: Progress, r: Nibble, n: U16, x: U32)
    ensures var (g, sp) := (s.cpu.gpr, s.cpu.gpr[4]);
            && (r != 4 ==> Undo(PushNonvol(r), m, f, s).cpu.gpr == g[r := Quad(m, sp)][4 := Wrap(sp + 8)])
            && Undo(PushNonvol(4), m, f, s).cpu.gpr == g[4 := Wrap(Quad(m, sp) + 8)]
            && Undo(AllocSmall(r), m, f, s).cpu.gpr == g[4 := Wrap(sp + 8 * r + 8)]
            && Undo(AllocLarge(n), m, f, s).cpu.gpr == g[4 := Wrap(sp + 8 * n)]
            && Undo(AllocHuge(x), m, f, s).cpu.gpr == g[4 := Wrap(sp + x)]
            && Undo(SetFpReg, m, f, s).cpu.gpr == g[4 := Wrap(g[f.reg] - 16 * f.off)]
  {
    hide Quad, Read64, Wrap;
    Read64Is(m, s.cpu.gpr[4]);
  }

  /** Saved registers come from the frame base on; saved XMM registers are left alone. */
  lemma {:induction false} SaveMeanings(m: Mem, f: Frame, s: Progress, r: Nibble, n: U16, x: U32)
    ensures Undo(SaveNonvol(r, n), m, f, s).cpu.gpr == s.cpu.gpr[r := Quad(m, Wrap(f.base + 8 * n))]
    ensures Undo(SaveNonvolFar(r, x), m, f, s).cpu.gpr == s.cpu.gpr[r := Quad(m, Wrap(f.base + x))]
    ensures Undo(SaveXmm128(r, n), m, f, s) == Undo(SaveXmm128Far(r, x), m, f, s) == s
  {
    hide Quad, Read64, Wrap;
    Read64Is(m, Wrap(f.base + 8 * n));
    Read64Is(m, Wrap(f.base + x));
  }

  /** A machine frame, behind an error code or not, gives Rip and Rsp; nothing else touches Rip. */
  lemma {:induction false} FrameMeanings(m: Mem, f: Frame, s: Progress, r: Nibble, op: Op)
    ensures !op.PushMachFrame? ==> Undo(op, m, f, s).cpu.rip == s.cpu.rip && Undo(op, m, f, s).mach == s.mach
    ensures var t := Undo(PushMachFrame(r), m, f, s);
            var top: int := s.cpu.gpr[4];
            var sp := if r == 0 then top else Wrap(top + 8);
            && t.mach && t.cpu.rip == Quad(m, sp) && t.cpu.gpr == s.cpu.gpr[4 := Quad(m, Wrap(sp + 24))]
  {
    hide Quad, Read64, Wrap;
    var top: int := s.cpu.gpr[4];
    var at := if r == 0 then top else Wrap(top + 8);
    Read64Is(m, at);
    Read64Is(m, Wrap(at + 24));
  }

  /** Without a machine frame the return address is taken from the stack. */
  lemma {:induction false} FinishMeanings(m: Mem, s: Progress)
    ensures s.mach ==> Finish(m, s) == s.cpu
    ensures !s.mach ==>
              var sp: int := s.cpu.gpr[4];
              Finish(m, s).rip == Quad(m, sp) && Finish(m, s).gpr == s.cpu.gpr[4 := Wrap(sp + 8)]
  {
    hide Quad, Read64;
    Read64Is(m, s.cpu.gpr[4]);
  }

  lemma {:induction false} ByteOf(m: Mem, at: U64, r: Record, i: nat)
    requires LiesAt(m, at, r) && i < |Bytes(r)|
    ensures m(Wrap(at + i)) == Bytes(r)[i]
  {
  }

  lemma {:induction false} HeaderBytes(r: Record)
    requires |r.slots| < 0x100
    ensures |Bytes(r)| >= 4 + 2 * |r.slots| + |r.tail|
    ensures Bytes(r)[0] == 1 + 8 * (Bit(r.search, 1) + Bit(r.unwind, 2) + Bit(r.chained, 4))
    ensures Bytes(r)[2] == |r.slots| && Bytes(r)[3] == r.reg + 16 * r.off
    ensures forall i :: 0 <= i < 2 * |r.slots| ==> Bytes(r)[4 + i] == SlotBytes(r.slots)[i]
    ensures |Bytes(r)| - |r.tail| == 4 + 2 * ((|r.slots| + 1) / 2 * 2)
    ensures forall i :: 0 <= i < |r.tail| ==> Bytes(r)[|Bytes(r)| - |r.tail| + i] == r.tail[i]
  {
  }

  lemma {:induction false} FlagsRead(m: Mem, at: U64, r: Record)
    requires LiesAt(m, at, r)
    ensures Wants(m, at, EHandler) == r.search && Wants(m, at, UHandler) == r.unwind && Chained(m, at) == r.chained
    ensures Count(m, at) == |r.slots| && FrameReg(m, at) == r.reg && FrameOff(m, at) == r.off
  {
    hide Bytes;
    HeaderBytes(r);
    ByteOf(m, at, r, 0);
    ByteOf(m, at, r, 2);
    ByteOf(m, at, r, 3);
    assert Wrap(at + 0) == at;
    var f := Bit(r.search, 1) + Bit(r.unwind, 2) + Bit(r.chained, 4);
    assert Flags(m, at) == (1 + 8 * f) / 8 == f;
  }

  lemma {:induction false} CodesRead(m: Mem, at: U64, r: Record)
    requires LiesAt(m, at, r)
    ensures HoldsCodes(m, at, r.slots)
  {
    hide Bytes, SlotBytes, Read16;
    HeaderBytes(r);
    FlagsRead(m, at, r);
    forall k | 0 <= k < |r.slots| ensures r.slots[k] == Code(m, at, k) {
      SlotByte(r.slots, k);
      ByteOf(m, at, r, 4 + 2 * k);
      ByteOf(m, at, r, 4 + 2 * k + 1);
      Read16Is(m, at + 4 + 2 * k);
      assert at + (4 + 2 * k) == at + 4 + 2 * k && at + (4 + 2 * k + 1) == at + 4 + 2 * k + 1;
    }
  }

  lemma {:induction false} TailByte(m: Mem, at: U64, r: Record, k: nat)
    requires LiesAt(m, at, r) && k < |r.tail|
    ensures m(Wrap(at + (|Bytes(r)| - |r.tail|) + k)) == r.tail[k]
  {
    hide Bytes;
    HeaderBytes(r);
    var t := |Bytes(r)| - |r.tail|;
    ByteOf(m, at, r, t + k);
    assert at + (t + k) == at + t + k;
  }

  lemma {:induction false} TailRead(m: Mem, at: U64, r: Record, k: nat)
    requires LiesAt(m, at, r) && k + 4 <= |r.tail|
    ensures Trailer(m, at) == TailAt(at, r) && Read32(m, Trailer(m, at) + k) == Word(r.tail, k)
  {
    hide Bytes, Read32;
    HeaderBytes(r);
    FlagsRead(m, at, r);
    var t := |Bytes(r)| - |r.tail|;
    Read32Is(m, at + t + k);
    TailByte(m, at, r, k);
    TailByte(m, at, r, k + 1);
    TailByte(m, at, r, k + 2);
    TailByte(m, at, r, k + 3);
    assert at + t + (k + 1) == at + t + k + 1;
    assert at + t + (k + 2) == at + t + k + 2 && at + t + (k + 3) == at + t + k + 3;
  }

  // ---- unwinding through a chain of records -------------------------------

  function Addresses(links: seq<Link>): (a: seq<U64>)
    ensures |a| == |links|
  {
    seq<U64>(|links|, (i: int) requires 0 <= i < |links| => links[i].at)
  }

  lemma {:induction false} ChainFound(m: Mem, base: U64, links: seq<Link>)
    requires ChainLies(m, base, links)
    ensures var info := links[0].at;
            ChainEnds(m, base, info, |links| - 1) && ChainOf(m, base, info, |links| - 1) == Addresses(links)
    decreases |links|
  {
    hide LiesAt, Word;
    var (at, r) := (links[0].at, links[0].record);
    FlagsRead(m, at, r);
    if r.chained {
      TailRead(m, at, r, 8);
      assert ParentOf(m, base, at) == links[1].at;
      ChainFound(m, base, links[1..]);
      assert Addresses(links) == [at] + Addresses(links[1..]);
    } else {
      assert Addresses(links) == [at];
    }
  }

  lemma {:induction false} LinkLies(m: Mem, base: U64, links: seq<Link>, i: nat)
    requires ChainLies(m, base, links) && i < |links|
    ensures LiesAt(m, links[i].at, links[i].record)
    ensures links[i].record.search || links[i].record.unwind ==> |links[i].record.tail| >= 4
    decreases i
  {
    hide LiesAt;
    if i > 0 {
      LinkLies(m, base, links[1..], i - 1);
    }
  }

  /** The record has a handler of the kind: the search asks for flag 1, the unwind for flag 2. */
  predicate Serves(r: Record, kind: HandlerKind, base: U64) {
    && (if kind.EHandler? then r.search else r.unwind)
    && |r.tail| >= 4 && Wrap(base + Word(r.tail, 0)) != 0
  }

  function AllSlots(links: seq<Link>): seq<U16> {
    if links == [] then [] else links[0].record.slots + AllSlots(links[1..])
  }

  /** All code slots of a chain decode, one record after the other. */
  lemma {:induction false} SlotsDecode(m: Mem, base: U64, links: seq<Link>)
    requires forall i :: 0 <= i < |links| ==>
               LiesAt(m, links[i].at, links[i].record) && Whole(links[i].record.slots)
    ensures Whole(AllSlots(links)) && OpsOf(m, Addresses(links)) == Decode(AllSlots(links))
    decreases |links|
  {
    hide LiesAt, Whole, Decode;
    if links == [] {
      NoSlots();
    } else {
      var (at, r) := (links[0].at, links[0].record);
      CodesRead(m, at, r);
      OpsAreDecodedCodes(m, at, r.slots);
      forall i | 0 <= i < |links[1..]|
        ensures LiesAt(m, links[1..][i].at, links[1..][i].record) && Whole(links[1..][i].record.slots)
      {
        assert links[1..][i] == links[i + 1];
      }
      SlotsDecode(m, base, links[1..]);
      assert Addresses(links)[1..] == Addresses(links[1..]);
      DecodeConcat(r.slots, AllSlots(links[1..]));
    }
  }

  lemma {:induction false} NoSlots()
    ensures Whole([]) && Decode([]) == []
  {
  }

  /** The frame base is the first record's frame register less 16 times its offset, or Rsp. */
  predicate BaseFrom(r: Record, c: Cpu, establisher: U64) {
    establisher == if r.reg == 0 then c.gpr[4] else Wrap(c.gpr[r.reg] - 16 * r.off)
  }

  /** The i-th record is the first that has a handler of the kind. */
  predicate FirstServing(links: seq<Link>, kind: HandlerKind, base: U64, i: nat) {
    i < |links| && Serves(links[i].record, kind, base)
    && forall j :: 0 <= j < i ==> !Serves(links[j].record, kind, base)
  }

  /** The handler and its data follow the slots of the first record that has one of the kind. */
  predicate HandlerFrom(links: seq<Link>, kind: HandlerKind, base: U64, handler: U64, data: U64) {
    && (forall i :: 0 <= i < |links| && FirstServing(links, kind, base, i) ==>
          && |links[i].record.slots| < 0x100
          && handler == Wrap(base + Word(links[i].record.tail, 0))
          && data == Wrap(TailAt(links[i].at, links[i].record) + 4))
    && ((forall i :: 0 <= i < |links| ==> !Serves(links[i].record, kind, base)) ==> handler == 0)
  }

  lemma {:induction false} HandlerRead(m: Mem, kind: HandlerKind, base: U64, at: U64, r: Record)
    requires LiesAt(m, at, r) && (r.search || r.unwind ==> |r.tail| >= 4)
    ensures ChainedInfo.Offers(m, base, at, kind) == Serves(r, kind, base)
    ensures Serves(r, kind, base) ==>
              HandlerOf(m, base, at) == (Wrap(base + Word(r.tail, 0)), Wrap(TailAt(at, r) + 4))
  {
    hide LiesAt, Word, Bytes;
    FlagsRead(m, at, r);
    if |r.tail| >= 4 {
      TailRead(m, at, r, 0);
    }
  }

  lemma {:induction false} HandlerFound(m: Mem, kind: HandlerKind, base: U64, links: seq<Link>, n: nat, c: Cpu)
    requires ChainLies(m, base, links) && ChainEnds(m, base, links[0].at, n)
    requires ChainOf(m, base, links[0].at, n) == Addresses(links)
    ensures var u := Unwind(m, kind, base, links[0].at, n, c); HandlerFrom(links, kind, base, u.handler, u.data)
  {
    hide LiesAt, Word, Bytes, Serves, ChainedInfo.Offers, HandlerOf, Unwind, TailAt, ChainLies;
    forall i | 0 <= i < |links|
      ensures ChainedInfo.Offers(m, base, Addresses(links)[i], kind) == Serves(links[i].record, kind, base)
    {
      LinkLies(m, base, links, i);
      HandlerRead(m, kind, base, links[i].at, links[i].record);
    }
    var u := Unwind(m, kind, base, links[0].at, n, c);
    forall i | 0 <= i < |links| && FirstServing(links, kind, base, i)
      ensures ServedBy(links, kind, base, u.handler, u.data, i)
    {
      LinkLies(m, base, links, i);
      HandlerRead(m, kind, base, links[i].at, links[i].record);
      ChainedInfo.UnwindReturnsFirstHandler(m, kind, base, links[0].at, n, c, i);
      HasTail(links[i].record, kind, base);
      FewSlots(m, links[i].at, links[i].record);
    }
    if forall i :: 0 <= i < |links| ==> !Serves(links[i].record, kind, base) {
      ChainedInfo.UnwindReturnsFirstHandler(m, kind, base, links[0].at, n, c, |links|);
    }
    HandlerPut(links, kind, base, u.handler, u.data);
  }

  predicate ServedBy(links: seq<Link>, kind: HandlerKind, base: U64, handler: U64, data: U64, i: nat) {
    && i < |links| && |links[i].record.slots| < 0x100 && |links[i].record.tail| >= 4
    && handler == Wrap(base + Word(links[i].record.tail, 0))
    && data == Wrap(TailAt(links[i].at, links[i].record) + 4)
  }

  lemma {:induction false} HandlerPut(links: seq<Link>, kind: HandlerKind, base: U64, handler: U64, data: U64)
    requires forall i :: 0 <= i < |links| && FirstServing(links, kind, base, i) ==>
               ServedBy(links, kind, base, handler, data, i)
    requires (forall i :: 0 <= i < |links| ==> !Serves(links[i].record, kind, base)) ==> handler == 0
    ensures HandlerFrom(links, kind, base, handler, data)
  {
    hide Word, TailAt;
  }

  lemma {:induction false} HasTail(r: Record, kind: HandlerKind, base: U64)
    requires Serves(r, kind, base)
    ensures |r.tail| >= 4
  {
  }

  lemma {:induction false} FewSlots(m: Mem, at: U64, r: Record)
    requires LiesAt(m, at, r)
    ensures |r.slots| < 0x100
  {
  }

  /**
   Unwinding by the bytes. For a chain of records lying in memory the unwinder goes from each chained record to
   the one its function entry names, undoes all their operations under the frame base that the first record's
   register and offset give, and returns the first handler of the kind with the address behind it.
   */
  lemma {:induction false} UnwindFollowsBytes(m: Mem, kind: HandlerKind, base: U64, links: seq<Link>, n: nat, c: Cpu)
    requires ChainLies(m, base, links)
    ensures ChainEnds(m, base, links[0].at, |links| - 1)
    ensures ChainEnds(m, base, links[0].at, n) ==>
              var (u, first) := (Unwind(m, kind, base, links[0].at, n, c), links[0].record);
              && BaseFrom(first, c, u.establisher) && HandlerFrom(links, kind, base, u.handler, u.data)
              && ((forall i :: 0 <= i < |links| ==> Whole(links[i].record.slots)) ==>
                    var f := Frame(u.establisher, first.reg, first.off);
                    u.cpu == Finish(m, UndoAll(Decode(AllSlots(links)), m, f, Progress(c, false))))
  {
    hide LiesAt, Whole, Decode, UndoAll, Finish, AllSlots, HandlerFrom, ChainLies;
    ChainFound(m, base, links);
    if ChainEnds(m, base, links[0].at, n) {
      ChainIgnoresBound(m, base, links[0].at, n, |links| - 1);
      HandlerFound(m, kind, base, links, n, c);
      LinkLies(m, base, links, 0);
      FlagsRead(m, links[0].at, links[0].record);
      if forall i :: 0 <= i < |links| ==> Whole(links[i].record.slots) {
        forall i | 0 <= i < |links| ensures LiesAt(m, links[i].at, links[i].record) {
          LinkLies(m, base, links, i);
        }
        SlotsDecode(m, base, links);
      }
    }
  }
}
