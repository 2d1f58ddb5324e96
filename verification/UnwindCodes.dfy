/**
 UNWIND_INFO records (Microsoft x64 ABI, "x64 exception handling"): the
 operations of a prologue, their code slots, and the records as they lie in memory.
 */
module UnwindCodes {
  import opened Words
  import opened Memory

  type Nibble = x: int | 0 <= x < 16

  const RSP: Nibble := 4

  /** One unwind operation; `SaveXmm128` keeps its place in the layout though the unwinder skips it. */
  datatype Op =
    | PushNonvol(reg: Nibble)
    | AllocLarge(units: U16)
    | AllocHuge(bytes: U32)
    | AllocSmall(info: Nibble)
    | SetFpReg
    | SaveNonvol(reg: Nibble, slot: U16)
    | SaveNonvolFar(reg: Nibble, offset: U32)
    | SaveXmm128(reg: Nibble, slot: U16)
    | SaveXmm128Far(reg: Nibble, offset: U32)
    | PushMachFrame(info: Nibble)
    | Unknown(code: Nibble)
  {
    /** A value that has an encoding of its own. */
    predicate Encodable() {
      Unknown? ==> code in {6, 7} || code >= 11
    }
  }

  /** How many 16-bit code slots the operation takes. */
  function Slots(op: Op): (n: nat)
    ensures 1 <= n <= 3
  {
    match op
    case AllocLarge(_) => 2
    case SaveNonvol(_, _) => 2
    case SaveXmm128(_, _) => 2
    case AllocHuge(_) => 3
    case SaveNonvolFar(_, _) => 3
    case SaveXmm128Far(_, _) => 3
    case _ => 1
  }

  /** The operation named by the slot `c0`, with the two slots that follow as operands. */
  function OpOf(c0: U16, c1: U16, c2: U16): Op {
    var code: Nibble := (c0 / 256) % 16;
    var info: Nibble := c0 / 256 / 16;
    if code == 0 then PushNonvol(info)
    else if code == 1 then (if info == 0 then AllocLarge(c1) else AllocHuge(c1 + 0x1_0000 * c2))
    else if code == 2 then AllocSmall(info)
    else if code == 3 then SetFpReg
    else if code == 4 then SaveNonvol(info, c1)
    else if code == 5 then SaveNonvolFar(info, c1 + 0x1_0000 * c2)
    else if code == 8 then SaveXmm128(info, c1)
    else if code == 9 then SaveXmm128Far(info, c1 + 0x1_0000 * c2)
    else if code == 10 then PushMachFrame(info)
    else Unknown(code)
  }

  /** How many code slots the operation starting with slot `c0` takes, itself included. */
  function Width(c0: U16): (n: nat)
    ensures 1 <= n <= 3
  {
    var code := (c0 / 256) % 16;
    if code == 1 then (if c0 / 256 / 16 == 0 then 2 else 3)
    else if code == 4 || code == 8 then 2
    else if code == 5 || code == 9 then 3
    else 1
  }

  /** The ABI's table: the slot's low byte is the prologue offset, then come four bits of code and four of info. */
  lemma {:induction false} SlotMeanings(at: Byte, r: Nibble, x: U16, y: U16)
    ensures var c0 := at + 0x1000 * r; OpOf(c0, x, y) == PushNonvol(r) && Width(c0) == 1
    ensures OpOf(at + 0x100, x, y) == AllocLarge(x) && Width(at + 0x100) == 2
    ensures OpOf(at + 0x1100, x, y) == AllocHuge(x + 0x1_0000 * y) && Width(at + 0x1100) == 3
    ensures var c0 := at + 0x200 + 0x1000 * r; OpOf(c0, x, y) == AllocSmall(r) && Width(c0) == 1
    ensures var c0 := at + 0x300 + 0x1000 * r; OpOf(c0, x, y) == SetFpReg && Width(c0) == 1
    ensures var c0 := at + 0x400 + 0x1000 * r; OpOf(c0, x, y) == SaveNonvol(r, x) && Width(c0) == 2
    ensures var c0 := at + 0x500 + 0x1000 * r; OpOf(c0, x, y) == SaveNonvolFar(r, x + 0x1_0000 * y) && Width(c0) == 3
    ensures var c0 := at + 0x800 + 0x1000 * r; OpOf(c0, x, y) == SaveXmm128(r, x) && Width(c0) == 2
    ensures var c0 := at + 0x900 + 0x1000 * r; OpOf(c0, x, y) == SaveXmm128Far(r, x + 0x1_0000 * y) && Width(c0) == 3
    ensures var c0 := at + 0xA00 + 0x1000 * r; OpOf(c0, x, y) == PushMachFrame(r) && Width(c0) == 1
  {
  }

  function OpCode(op: Op): Nibble {
    match op
    case PushNonvol(_) => 0
    case AllocLarge(_) => 1
    case AllocHuge(_) => 1
    case AllocSmall(_) => 2
    case SetFpReg => 3
    case SaveNonvol(_, _) => 4
    case SaveNonvolFar(_, _) => 5
    case SaveXmm128(_, _) => 8
    case SaveXmm128Far(_, _) => 9
    case PushMachFrame(_) => 10
    case Unknown(c) => c
  }

  function OpInfo(op: Op): Nibble {
    match op
    case PushNonvol(r) => r
    case AllocHuge(_) => 1
    case AllocSmall(i) => i
    case SaveNonvol(r, _) => r
    case SaveNonvolFar(r, _) => r
    case SaveXmm128(r, _) => r
    case SaveXmm128Far(r, _) => r
    case PushMachFrame(i) => i
    case _ => 0
  }

  /** The slots a compiler writes for `op` at prologue offset `at`. */
  function EncodeOp(op: Op, at: Byte): (codes: seq<U16>)
    ensures |codes| == Slots(op)
  {
    var head: U16 := at + 256 * (OpCode(op) + 16 * OpInfo(op));
    match op
    case AllocLarge(n) => [head, n]
    case AllocHuge(n) => [head, n % 0x1_0000, n / 0x1_0000]
    case SaveNonvol(_, s) => [head, s]
    case SaveNonvolFar(_, o) => [head, o % 0x1_0000, o / 0x1_0000]
    case SaveXmm128(_, s) => [head, s]
    case SaveXmm128Far(_, o) => [head, o % 0x1_0000, o / 0x1_0000]
    case _ => [head]
  }

  /** The code array of a list of operations; `at` holds the prologue offset stored with each. */
  function Encode(ops: seq<Op>, at: seq<Byte>): seq<U16>
    requires |at| == |ops|
  {
    if ops == [] then [] else EncodeOp(ops[0], at[0]) + Encode(ops[1..], at[1..])
  }

  /** A code array, indexed by slot; what lies past its end is whatever follows in memory. */
  type CodeArray = nat -> U16

  function OpAt(code: CodeArray, i: nat): Op {
    OpOf(code(i), code(i + 1), code(i + 2))
  }

  /** The operations from slot `i` up to slot `n`. */
  function OpsFrom(code: CodeArray, i: nat, n: nat): seq<Op>
    decreases n - i
  {
    if i >= n then [] else [OpAt(code, i)] + OpsFrom(code, i + Width(code(i)), n)
  }

  /** No operation from slot `i` on has operands that stick out past slot `n`. */
  predicate WellSlotted(code: CodeArray, i: nat, n: nat)
    decreases n - i
  {
    i == n || (i < n && WellSlotted(code, i + Width(code(i)), n))
  }

  /** An operation does not depend on slots past its own width. */
  lemma {:induction false} OpOfOwnSlots(c0: U16, c1: U16, c2: U16, d1: U16, d2: U16)
    requires Width(c0) > 1 ==> c1 == d1
    requires Width(c0) > 2 ==> c2 == d2
    ensures OpOf(c0, c1, c2) == OpOf(c0, d1, d2)
  {
  }

  /** A well-slotted stretch decodes to the same operations wherever it stands. */
  lemma {:induction false} OpsFromShifted(c: CodeArray, d: CodeArray, i: nat, n: nat, shift: int)
    requires 0 <= i + shift && WellSlotted(c, i, n)
    requires forall k :: i <= k < n ==> c(k) == d(k + shift)
    ensures WellSlotted(d, i + shift, n + shift)
    ensures OpsFrom(d, i + shift, n + shift) == OpsFrom(c, i, n)
    decreases n - i
  {
    hide OpOf, Width, WellSlotted, OpsFrom;
    OneSlot(c, i, n);
    WellSlottedBound(c, i, n);
    OneSlot(d, i + shift, n + shift);
    if i < n {
      var w := Width(c(i));
      WellSlottedBound(c, i + w, n);
      assert d(i + shift) == c(i);
      OpOfOwnSlots(c(i), c(i + 1), c(i + 2), d(i + shift + 1), d(i + shift + 2));
      OpsFromShifted(c, d, i + w, n, shift);
      assert i + w + shift == i + shift + w;
    }
  }

  /** The operation at a slot, and what follows it. */
  lemma {:induction false} OneSlot(c: CodeArray, i: nat, n: nat)
    ensures WellSlotted(c, i, n) <==> i == n || (i < n && WellSlotted(c, i + Width(c(i)), n))
    ensures OpsFrom(c, i, n) == if i >= n then [] else [OpAt(c, i)] + OpsFrom(c, i + Width(c(i)), n)
  {
    hide OpOf, Width;
  }

  lemma {:induction false} WellSlottedBound(c: CodeArray, i: nat, n: nat)
    requires WellSlotted(c, i, n)
    ensures i <= n
  {
  }

  lemma {:induction false} OpsFromSplit(c: CodeArray, i: nat, m: nat, n: nat)
    requires WellSlotted(c, i, m) && m <= n
    ensures OpsFrom(c, i, n) == OpsFrom(c, i, m) + OpsFrom(c, m, n)
    ensures WellSlotted(c, m, n) ==> WellSlotted(c, i, n)
    decreases m - i
  {
    if i < m {
      var next := i + Width(c(i));
      OpsFromSplit(c, next, m, n);
      Assoc([OpAt(c, i)], OpsFrom(c, next, m), OpsFrom(c, m, n));
    }
  }

  // ---- arrays given by a sequence -----------------------------------------

  function ArrayOf(codes: seq<U16>): CodeArray {
    (k: nat) => if k < |codes| then codes[k] else 0
  }

  predicate Whole(codes: seq<U16>) {
    WellSlotted(ArrayOf(codes), 0, |codes|)
  }

  function Decode(codes: seq<U16>): seq<Op> {
    OpsFrom(ArrayOf(codes), 0, |codes|)
  }

  /** Concatenated code arrays decode to the concatenated operations. */
  lemma {:induction false} DecodeConcat(a: seq<U16>, b: seq<U16>)
    requires Whole(a) && Whole(b)
    ensures Whole(a + b) && Decode(a + b) == Decode(a) + Decode(b)
  {
    DecodeJoined(ArrayOf(a), |a|, ArrayOf(b), |b|, ArrayOf(a + b));
  }

  lemma {:induction false} DecodeJoined(a: CodeArray, n: nat, b: CodeArray, k: nat, ab: CodeArray)
    requires WellSlotted(a, 0, n) && WellSlotted(b, 0, k)
    requires forall i :: 0 <= i < n ==> a(i) == ab(i + 0)
    requires forall i :: 0 <= i < k ==> b(i) == ab(i + n)
    ensures WellSlotted(ab, 0, n + k)
    ensures OpsFrom(ab, 0, n + k) == OpsFrom(a, 0, n) + OpsFrom(b, 0, k)
  {
    hide WellSlotted, OpsFrom;
    OpsFromShifted(a, ab, 0, n, 0);
    OpsFromShifted(b, ab, 0, k, n);
    OpsFromSplit(ab, 0, n, n + k);
  }

  lemma {:induction false} EncodedHead(op: Op, at: Byte)
    requires op.Encodable()
    ensures var e := EncodeOp(op, at); Width(e[0]) == |e| && Whole(e) && Decode(e) == [op]
  {
    var e := EncodeOp(op, at);
    assert e[0] / 256 == OpCode(op) + 16 * OpInfo(op);
    assert (e[0] / 256) % 16 == OpCode(op);
    assert e[0] / 256 / 16 == OpInfo(op);
    var c := ArrayOf(e);
    assert c(0) == e[0];
    assert |e| > 1 ==> c(1) == e[1];
    assert |e| > 2 ==> c(2) == e[2];
    assert OpAt(c, 0) == op;
    assert WellSlotted(c, |e|, |e|);
    assert OpsFrom(c, |e|, |e|) == [];
  }

  /** Decoding the code array of any list of operations gives the list back. */
  lemma {:induction false} DecodeEncode(ops: seq<Op>, at: seq<Byte>)
    requires |at| == |ops| && forall op :: op in ops ==> op.Encodable()
    ensures Whole(Encode(ops, at)) && Decode(Encode(ops, at)) == ops
  {
    if ops != [] {
      EncodedHead(ops[0], at[0]);
      DecodeEncode(ops[1..], at[1..]);
      DecodeConcat(EncodeOp(ops[0], at[0]), Encode(ops[1..], at[1..]));
      assert ops == [ops[0]] + ops[1..];
    }
  }

  // ---- records in memory -------------------------------------------------

  function Flags(m: Mem, info: U64): (f: nat)
    ensures f < 32
  {
    m(info) / 8
  }

  function Count(m: Mem, info: U64): Byte {
    m(Wrap(info + 2))
  }

  function FrameReg(m: Mem, info: U64): Nibble {
    m(Wrap(info + 3)) % 16
  }

  function FrameOff(m: Mem, info: U64): Nibble {
    m(Wrap(info + 3)) / 16
  }

  function Code(m: Mem, info: U64, k: nat): U16 {
    Read16(m, info + 4 + 2 * k)
  }

  function CodesAt(m: Mem, info: U64): CodeArray {
    (k: nat) => Code(m, info, k)
  }

  /** The code array is padded to an even number of slots; the handler or the chained entry follows. */
  function Trailer(m: Mem, info: U64): int {
    info + 4 + 2 * ((Count(m, info) + 1) / 2 * 2)
  }

  /** The operations of the record at `info`. */
  function Ops(m: Mem, info: U64): seq<Op> {
    OpsFrom(CodesAt(m, info), 0, Count(m, info))
  }

  /** The record at `info` holds exactly these codes. */
  predicate HoldsCodes(m: Mem, info: U64, codes: seq<U16>) {
    |codes| == Count(m, info) && forall k :: 0 <= k < |codes| ==> codes[k] == Code(m, info, k)
  }

  lemma {:induction false} OpsAreDecodedCodes(m: Mem, info: U64, codes: seq<U16>)
    requires HoldsCodes(m, info, codes) && Whole(codes)
    ensures Ops(m, info) == Decode(codes)
  {
    OpsFromShifted(ArrayOf(codes), CodesAt(m, info), 0, |codes|, 0);
  }
}
