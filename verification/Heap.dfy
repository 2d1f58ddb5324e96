/** ntdll's process heap: a bump allocator over chunks from the kernel, a size header before every block. */
module Heap {
  import opened Words
  import opened Memory

  const USER_TOP: nat := 0x8000_0000_0000
  const CHUNK: nat := 0x20_0000
  const MEGABYTE: nat := 0x10_0000

  // ---- sizes --------------------------------------------------------------

  /** Bytes a block takes, computed in 64 bits: the payload and its header, rounded up to 16. */
  function Need(size: U64): U64 {
    Wrap(size + 23) / 16 * 16
  }

  /** Bytes asked of the kernel for a block that takes `need`, computed in 64 bits. */
  function ChunkFor(need: U64): U64 {
    if need > CHUNK then Wrap(need + MEGABYTE - 1) / MEGABYTE * MEGABYTE else CHUNK
  }

  /** A request whose sizes, and whose end in the current chunk, can be computed in 64 bits. */
  predicate Sane(off: nat, size: U64) {
    size <= TWO64 - MEGABYTE - 8 && off + Need(size) < TWO64
  }

  /**
   Exactly for sane requests a block and its header fit what is taken for them, that fits a new chunk, and
   the test for room in the current chunk comes out right.
   */
  lemma {:induction false} NeedCovers(off: nat, cap: nat, size: U64)
    requires off <= cap <= USER_TOP
    ensures var need := Need(size);
            (need >= size + 8 && ChunkFor(need) >= need && (Plus(off, need) > cap <==> off + need > cap))
            <==> Sane(off, size)
  {
    var need := Need(size);
    if size + 23 < TWO64 {
      assert need >= size + 8 && need < size + 24;
      if need + MEGABYTE - 1 >= TWO64 {
        assert Wrap(need + MEGABYTE - 1) == need + MEGABYTE - 1 - TWO64;
      }
      assert Plus(off, need) == if off + need < TWO64 then off + need else off + need - TWO64;
    } else {
      assert Wrap(size + 23) == size + 23 - TWO64;
    }
  }

  /** In a chunk half used, a request of nearly the whole address space passes the test and moves the pointer back. */
  lemma {:induction false} WrappedRequest()
    ensures Plus(0x10_0100, Need(TWO64 - MEGABYTE - 16)) == 0x100 && !Sane(0x10_0100, TWO64 - MEGABYTE - 16)
  {
  }

  lemma {:induction false} NeedOf(size: U64)
    requires size < HALF64
    ensures size + 8 <= Need(size) < size + 24 && Need(size) % 16 == 0
    ensures Need(size) <= ChunkFor(Need(size)) < TWO64
  {
    NeedCovers(0, 0, size);
  }

  // ---- layout -------------------------------------------------------------

  /** A region the kernel has handed out. */
  datatype Chunk = Chunk(at: nat, size: nat)

  /** A block: where its header stands, its payload's size, the chunk it is in. */
  datatype Block = Block(at: nat, size: U64, home: nat)

  predicate ChunksApart(chunks: seq<Chunk>) {
    && (forall i :: 0 <= i < |chunks| ==> 0 < chunks[i].at && chunks[i].at + chunks[i].size <= USER_TOP)
    && (forall i, j :: 0 <= i < j < |chunks| ==> Apart(chunks[i].at, chunks[i].size, chunks[j].at, chunks[j].size))
  }

  /** A block with its header lies within its chunk, below the bump pointer if that is the current one. */
  predicate Placed(b: Block, chunks: seq<Chunk>, off: nat) {
    && b.size < HALF64 && b.home < |chunks|
    && var c := chunks[b.home];
       && c.at <= b.at && b.at + Need(b.size) <= c.at + c.size
       && (b.home == |chunks| - 1 ==> b.at + Need(b.size) <= c.at + off)
  }

  /** All blocks with their headers are within chunks and pairwise apart. */
  predicate BlocksApart(blocks: seq<Block>, chunks: seq<Chunk>, off: nat) {
    && (forall i :: 0 <= i < |blocks| ==> Placed(blocks[i], chunks, off))
    && (forall i, j :: 0 <= i < |blocks| && 0 <= j < |blocks| && i != j ==>
          Apart(blocks[i].at, Need(blocks[i].size), blocks[j].at, Need(blocks[j].size)))
  }

  predicate HeadersKept(mem: Mem, blocks: seq<Block>) {
    forall i :: 0 <= i < |blocks| ==> Read64(mem, blocks[i].at) == blocks[i].size
  }

  function Payload(mem: Mem, b: Block): (p: seq<Byte>)
    ensures |p| == b.size
  {
    ReadBytes(mem, b.at + 8, b.size)
  }

  function PayloadsOf(mem: Mem, blocks: seq<Block>): (p: seq<seq<Byte>>)
    ensures |p| == |blocks|
  {
    seq(|blocks|, (i: int) requires 0 <= i < |blocks| => Payload(mem, blocks[i]))
  }

  /** Memory is the same but for the `n` bytes at `a`. */
  ghost predicate SameOutside(m: Mem, m': Mem, a: nat, n: nat) {
    forall x: U64 :: !(a <= x < a + n) ==> m'(x) == m(x)
  }

  lemma {:induction false} ReadSame(m: Mem, m': Mem, a: nat, n: nat, at: nat, k: nat)
    requires SameOutside(m, m', a, n) && Apart(a, n, at, k) && at + k <= TWO64
    ensures ReadBytes(m', at, k) == ReadBytes(m, at, k)
  {
    var r, r' := ReadBytes(m, at, k), ReadBytes(m', at, k);
    forall i | 0 <= i < k ensures r'[i] == r[i] {
      assert Wrap(at + i) == at + i;
    }
  }

  /** A new chunk becomes the current one; the blocks stay placed. */
  lemma {:induction false} ChunkAdded(blocks: seq<Block>, chunks: seq<Chunk>, off: nat, c: Chunk)
    requires BlocksApart(blocks, chunks, off)
    ensures BlocksApart(blocks, chunks + [c], 0)
  {
    forall i | 0 <= i < |blocks| ensures Placed(blocks[i], chunks + [c], 0) {
      assert Placed(blocks[i], chunks, off);
    }
  }

  /** A block at the bump pointer is apart from every other. */
  lemma {:induction false} BlockAdded(blocks: seq<Block>, chunks: seq<Chunk>, off: nat, size: U64)
    requires ChunksApart(chunks) && BlocksApart(blocks, chunks, off) && chunks != [] && size < HALF64
    requires off + Need(size) <= chunks[|chunks| - 1].size
    ensures var b := Block(chunks[|chunks| - 1].at + off, size, |chunks| - 1);
            BlocksApart(blocks + [b], chunks, off + Need(size))
  {
    hide Need;
    var b := Block(chunks[|chunks| - 1].at + off, size, |chunks| - 1);
    forall i | 0 <= i < |blocks|
      ensures Placed(blocks[i], chunks, off + Need(size)) && Apart(blocks[i].at, Need(blocks[i].size), b.at, Need(size))
    {
      assert Placed(blocks[i], chunks, off);
    }
    var now := blocks + [b];
    forall i, j | 0 <= i < |now| && 0 <= j < |now| && i != j
      ensures Apart(now[i].at, Need(now[i].size), now[j].at, Need(now[j].size))
    {
    }
  }

  /** Bytes stored where no block stands leave every header and payload. */
  lemma {:induction false} StoredOutside(m: Mem, m': Mem, a: nat, n: nat, blocks: seq<Block>, chunks: seq<Chunk>,
          off: nat)
    requires ChunksApart(chunks) && BlocksApart(blocks, chunks, off) && HeadersKept(m, blocks)
    requires SameOutside(m, m', a, n)
    requires forall i :: 0 <= i < |blocks| ==> Apart(blocks[i].at, Need(blocks[i].size), a, n)
    ensures HeadersKept(m', blocks) && PayloadsOf(m', blocks) == PayloadsOf(m, blocks)
  {
    hide Need, SameOutside, Read64, ReadBytes;
    forall i | 0 <= i < |blocks|
      ensures Read64(m', blocks[i].at) == blocks[i].size && Payload(m', blocks[i]) == Payload(m, blocks[i])
    {
      BlockReadSame(m, m', a, n, blocks[i], chunks, off);
    }
  }

  lemma {:induction false} BlockReadSame(m: Mem, m': Mem, a: nat, n: nat, b: Block, chunks: seq<Chunk>, off: nat)
    requires ChunksApart(chunks) && Placed(b, chunks, off) && SameOutside(m, m', a, n)
    requires Apart(b.at, Need(b.size), a, n)
    ensures Read64(m', b.at) == Read64(m, b.at) && Payload(m', b) == Payload(m, b)
  {
    hide SameOutside, ReadBytes;
    NeedOf(b.size);
    ReadSame(m, m', a, n, b.at, 8);
    ReadSame(m, m', a, n, b.at + 8, b.size);
  }

  /** Bytes stored in one block's payload leave every header and every other payload. */
  lemma {:induction false} StoredInside(m: Mem, m': Mem, a: nat, n: nat, blocks: seq<Block>, chunks: seq<Chunk>,
          off: nat, k: nat)
    requires ChunksApart(chunks) && BlocksApart(blocks, chunks, off) && HeadersKept(m, blocks)
    requires SameOutside(m, m', a, n)
    requires k < |blocks| && blocks[k].at + 8 <= a && a + n <= blocks[k].at + 8 + blocks[k].size
    ensures HeadersKept(m', blocks)
    ensures PayloadsOf(m', blocks) == PayloadsOf(m, blocks)[k := Payload(m', blocks[k])]
  {
    hide Need, SameOutside, ReadBytes;
    assert Placed(blocks[k], chunks, off);
    NeedOf(blocks[k].size);
    forall i | 0 <= i < |blocks|
      ensures Read64(m', blocks[i].at) == blocks[i].size && (i != k ==> Payload(m', blocks[i]) == Payload(m, blocks[i]))
    {
      assert Placed(blocks[i], chunks, off);
      if i == k {
        ReadSame(m, m', a, n, blocks[k].at, 8);
      } else {
        BlockReadSame(m, m', a, n, blocks[i], chunks, off);
      }
    }
  }

  // ---- where blocks are placed ---------------------------------------------

  /** What the allocator keeps: the chunks granted, how far the current one is used, the blocks handed out. */
  datatype Holding = Holding(chunks: seq<Chunk>, off: nat, blocks: seq<Block>)

  /** The kernel grants `n` bytes at `bid` if they lie in user space, where it has granted nothing yet. */
  predicate Grants(chunks: seq<Chunk>, n: nat, bid: U64) {
    0 < bid && bid + n <= USER_TOP && forall c :: c in chunks ==> Apart(c.at, c.size, bid, n)
  }

  predicate FitsIn(h: Holding, need: nat) {
    h.chunks != [] && h.off + need <= h.chunks[|h.chunks| - 1].size
  }

  /** A request succeeds if the current chunk has room, or the kernel grants a new one. */
  predicate CanGive(h: Holding, size: U64, bid: U64) {
    FitsIn(h, Need(size)) || Grants(h.chunks, ChunkFor(Need(size)), bid)
  }

  /** The chunk a request of `need` bytes is served from: the current one, or a new one if that has no room. */
  function WithChunk(h: Holding, need: nat, bid: U64): Holding
    requires need < TWO64
  {
    if FitsIn(h, need) || !Grants(h.chunks, ChunkFor(need), bid) then h
    else Holding(h.chunks + [Chunk(bid, ChunkFor(need))], 0, h.blocks)
  }

  /** One more block, next in its chunk, if the request succeeds; every block stays where it is. */
  function Extended(h: Holding, size: U64, bid: U64): (g: Holding)
    ensures h.blocks <= g.blocks
  {
    if !CanGive(h, size, bid) then h
    else
      var w := WithChunk(h, Need(size), bid);
      var home := |w.chunks| - 1;
      Holding(w.chunks, w.off + Need(size), h.blocks + [Block(w.chunks[home].at + w.off, size, home)])
  }

  lemma {:induction false} ExtendedIs(h: Holding, size: U64, bid: U64, w: Holding)
    requires w == WithChunk(h, Need(size), bid)
    ensures CanGive(h, size, bid) <==> FitsIn(h, Need(size)) || Grants(h.chunks, ChunkFor(Need(size)), bid)
    ensures CanGive(h, size, bid) ==>
              && w.chunks != [] && w.blocks == h.blocks
              && var b := Block(w.chunks[|w.chunks| - 1].at + w.off, size, |w.chunks| - 1);
                 Extended(h, size, bid) == Holding(w.chunks, w.off + Need(size), h.blocks + [b])
    ensures !CanGive(h, size, bid) ==> w == h == Extended(h, size, bid)
  {
    hide Need, ChunkFor, Grants;
  }

  /**
   Where a block goes: `n` is its size with 8 bytes of header, rounded up to 16, and `c` what the kernel is asked
   for, 2 MiB or `n` rounded up to 1 MiB.
   */
  lemma {:induction false} BlockGoes(h: Holding, size: U64, bid: U64, n: nat, c: nat)
    requires size < HALF64 && n % 16 == 0 && size + 8 <= n < size + 24
    requires if n <= 0x20_0000 then c == 0x20_0000 else c % 0x10_0000 == 0 && n <= c < n + 0x10_0000
    ensures var last := |h.chunks| - 1;
            if h.chunks != [] && h.off + n <= h.chunks[last].size then
              && CanGive(h, size, bid)
              && Extended(h, size, bid)
                 == Holding(h.chunks, h.off + n, h.blocks + [Block(h.chunks[last].at + h.off, size, last)])
            else if Grants(h.chunks, c, bid) then
              && CanGive(h, size, bid)
              && Extended(h, size, bid)
                 == Holding(h.chunks + [Chunk(bid, c)], n, h.blocks + [Block(bid, size, last + 1)])
            else !CanGive(h, size, bid) && Extended(h, size, bid) == h
  {
    hide Grants, Need, ChunkFor;
    NeedIs(size, n);
    ChunkIs(n, c);
  }

  lemma {:induction false} NeedIs(size: U64, n: nat)
    requires size < HALF64 && n % 16 == 0 && size + 8 <= n < size + 24
    ensures Need(size) == n
  {
    NeedOf(size);
  }

  lemma {:induction false} ChunkIs(n: U64, c: nat)
    requires n < HALF64 + 24
    requires if n <= 0x20_0000 then c == 0x20_0000 else c % 0x10_0000 == 0 && n <= c < n + 0x10_0000
    ensures ChunkFor(n) == c
  {
    assert Wrap(n + MEGABYTE - 1) == n + MEGABYTE - 1;
  }

  // ---- what the calls do to the blocks a client holds ---------------------

  /** Blocks are named in the order they were handed out; `bid` is where the kernel would put a new chunk. */
  datatype Call =
    | Allocate(zero: bool, size: U64, bid: U64)
    | ReAllocate(which: Option<nat>, zero: bool, size: U64, bid: U64)
    | Free(i: nat)
    | Store(i: nat, k: nat, b: Byte)

  /** One more block: it starts with the bytes of `from` that fit, and goes on with zeros if asked. */
  predicate NewBlock(f: seq<seq<Byte>>, from: seq<Byte>, zero: bool, size: nat, g: seq<seq<Byte>>) {
    && |g| == |f| + 1 && g[..|f|] == f && |g[|f|]| == size
    && forall k :: 0 <= k < size ==> if k < |from| then g[|f|][k] == from[k] else (zero ==> g[|f|][k] == 0)
  }

  function Poked(p: seq<Byte>, k: nat, b: Byte): seq<Byte>
    requires k < |p|
  {
    p[k := b]
  }

  /** Payloads before and after a call. */
  predicate Step(f: seq<seq<Byte>>, call: Call, ok: bool, g: seq<seq<Byte>>) {
    match call
    case Allocate(zero, size, _) => if ok then NewBlock(f, [], zero, size, g) else g == f
    case ReAllocate(which, zero, size, _) =>
      && (which.Some? ==> which.value < |f|)
      && if ok then NewBlock(f, if which.Some? then f[which.value] else [], zero, size, g) else g == f
    case Free(_) => g == f
    case Store(i, k, b) => i < |f| && k < |f[i]| && g == f[i := Poked(f[i], k, b)]
  }

  /** Whether a call succeeds: an allocation if it can be given, anything else always. */
  predicate Works(h: Holding, call: Call) {
    match call
    case Allocate(_, size, bid) => CanGive(h, size, bid)
    case ReAllocate(_, _, size, bid) => CanGive(h, size, bid)
    case Free(_) => true
    case Store(_, _, _) => true
  }

  function Next(h: Holding, call: Call): (g: Holding)
    ensures h.blocks <= g.blocks
  {
    match call
    case Allocate(_, size, bid) => Extended(h, size, bid)
    case ReAllocate(_, _, size, bid) => Extended(h, size, bid)
    case Free(_) => h
    case Store(_, _, _) => h
  }

  /** What is held after a run. */
  function After(h: Holding, calls: seq<Call>): (g: Holding)
    ensures h.blocks <= g.blocks
  {
    if calls == [] then h else Next(After(h, calls[..|calls| - 1]), calls[|calls| - 1])
  }

  /** The calls that succeed in a run are those that can. */
  predicate Succeeded(h: Holding, calls: seq<Call>, oks: seq<bool>) {
    |oks| == |calls| && forall n :: 0 <= n < |calls| ==> oks[n] == Works(After(h, calls[..n]), calls[n])
  }

  lemma {:induction false} RunGrows(h: Holding, calls: seq<Call>, oks: seq<bool>, call: Call, ok: bool)
    requires Succeeded(h, calls, oks) && ok == Works(After(h, calls), call)
    ensures Succeeded(h, calls + [call], oks + [ok])
    ensures After(h, calls + [call]) == Next(After(h, calls), call)
  {
    hide Works, Next;
    var all := calls + [call];
    assert all[..|calls|] == calls;
    forall n | 0 <= n < |all| ensures (oks + [ok])[n] == Works(After(h, all[..n]), all[n]) {
      assert n < |calls| ==> all[..n] == calls[..n];
    }
  }

  lemma {:induction false} NothingDone(h: Holding, calls: seq<Call>)
    requires calls == []
    ensures Succeeded(h, calls, []) && After(h, calls) == h
  {
  }

  predicate Trace(payloads: seq<seq<seq<Byte>>>, calls: seq<Call>, oks: seq<bool>) {
    && |payloads| == |calls| + 1 && |oks| == |calls|
    && forall n :: 0 <= n < |calls| ==> Step(payloads[n], calls[n], oks[n], payloads[n + 1])
  }

  /** Over a whole run a block keeps its bytes except where the client stored into that very block. */
  lemma {:induction false} BlockKeptOverRun(payloads: seq<seq<seq<Byte>>>, calls: seq<Call>, oks: seq<bool>, n: nat,
          i: nat, k: nat)
    requires Trace(payloads, calls, oks) && n <= |calls| && i < |payloads[0]| && k < |payloads[0][i]|
    requires forall m :: 0 <= m < n && calls[m].Store? ==> calls[m].i != i || calls[m].k != k
    ensures i < |payloads[n]| && |payloads[n][i]| == |payloads[0][i]| && payloads[n][i][k] == payloads[0][i][k]
  {
    hide Step;
    if n > 0 {
      BlockKeptOverRun(payloads, calls, oks, n - 1, i, k);
      BlockKept(payloads[n - 1], calls[n - 1], oks[n - 1], payloads[n], i, k);
    }
  }

  lemma {:induction false} BlockKept(f: seq<seq<Byte>>, call: Call, ok: bool, g: seq<seq<Byte>>, i: nat, k: nat)
    requires Step(f, call, ok, g) && i < |f| && k < |f[i]|
    requires call.Store? ==> call.i != i || call.k != k
    ensures i < |g| && |g[i]| == |f[i]| && g[i][k] == f[i][k]
  {
    assert |g| > |f| ==> g[i] == g[..|f|][i];
  }

  // ---- the heap -----------------------------------------------------------

  function StoreByte(m: Mem, a: U64, b: Byte): Mem {
    (x: U64) => if x == a then b else m(x)
  }

  lemma {:induction false} StoreOutside(m: Mem, a: nat, b: seq<Byte>)
    requires a + |b| <= TWO64
    ensures SameOutside(m, StoreBytes(m, a, b), a, |b|)
  {
    var m' := StoreBytes(m, a, b);
    forall x: U64 | !(a <= x < a + |b|) ensures m'(x) == m(x) {
      if x < a {
        WrapIs(x - a, -1, x - a + TWO64);
      } else {
        WrapIs(x - a, 0, x - a);
      }
    }
  }

  lemma {:induction false} HeaderStored(m: Mem, a: nat, v: U64)
    requires a + 8 <= TWO64
    ensures SameOutside(m, Store64(m, a, v), a, 8) && Read64(Store64(m, a, v), a) == v
  {
    hide SameOutside, StoreBytes, Read64;
    Read64Stored(m, a, v);
    StoreOutside(m, a, Put64(v));
  }

  lemma {:induction false} ReadByte(m: Mem, a: nat, n: nat, k: nat)
    requires a + n <= TWO64 && k < n
    ensures ReadBytes(m, a, n)[k] == m(a + k)
  {
    assert Wrap(a + k) == a + k;
  }

  /** One byte copied extends the copy. */
  lemma {:induction false} ByteCopied(m: Mem, now: Mem, p: nat, s: nat, i: nat)
    requires p + i < TWO64 && s + i < TWO64 && Apart(s, i + 1, p, i + 1)
    requires SameOutside(m, now, p, i) && ReadBytes(now, p, i) == ReadBytes(m, s, i)
    ensures var next := StoreByte(now, p + i, now(s + i));
            SameOutside(m, next, p, i + 1) && ReadBytes(next, p, i + 1) == ReadBytes(m, s, i + 1)
  {
    var next := StoreByte(now, p + i, now(s + i));
    var copy, source := ReadBytes(next, p, i + 1), ReadBytes(m, s, i + 1);
    forall k | 0 <= k < i + 1 ensures copy[k] == source[k] {
      ReadByte(next, p, i + 1, k);
      ReadByte(m, s, i + 1, k);
      if k < i {
        ReadByte(now, p, i, k);
        ReadByte(m, s, i, k);
        assert ReadBytes(now, p, i)[k] == ReadBytes(m, s, i)[k];
      }
    }
  }

  lemma {:induction false} PayloadAdded(m: Mem, blocks: seq<Block>, b: Block)
    ensures PayloadsOf(m, blocks + [b]) == PayloadsOf(m, blocks) + [Payload(m, b)]
  {
  }

  class ProcessHeap {
    var mem: Mem
    var arena: nat
    var off: nat
    var cap: nat
    /** What the kernel has handed out, and the blocks clients hold, in order. */
    var chunks: seq<Chunk>
    var blocks: seq<Block>

    ghost predicate Valid()
      reads this
    {
      && ChunksApart(chunks) && BlocksApart(blocks, chunks, off) && HeadersKept(mem, blocks)
      && (arena == 0 ==> chunks == [] && off == cap == 0)
      && (arena != 0 ==> chunks != [] && chunks[|chunks| - 1] == Chunk(arena, cap) && off <= cap)
    }

    ghost function Held(): Holding
      reads this
    {
      Holding(chunks, off, blocks)
    }

    ghost function Payloads(): (p: seq<seq<Byte>>)
      reads this
      ensures |p| == |blocks|
    {
      PayloadsOf(mem, blocks)
    }

    constructor (mem: Mem)
      ensures Valid() && blocks == [] && chunks == [] && this.mem == mem
    {
      this.mem, arena, off, cap, chunks, blocks := mem, 0, 0, 0, [], [];
    }

    /** The kernel grants `n` bytes at `bid` if nothing it handed out is there, and otherwise refuses. */
    method NtVirtualAlloc(n: U64, bid: U64) returns (a: nat)
      requires ChunksApart(chunks)
      modifies `chunks
      ensures ChunksApart(chunks)
      ensures a == (if Grants(old(chunks), n, bid) then bid else 0) && (a != 0 <==> Grants(old(chunks), n, bid))
      ensures chunks == if a == 0 then old(chunks) else old(chunks) + [Chunk(a, n)]
    {
      if Grants(chunks, n, bid) {
        chunks := chunks + [Chunk(bid, n)];
        return bid;
      }
      a := 0;
    }

    /** The client now holds one more block, of `size` bytes at `p`. */
    ghost predicate Given(before: seq<Block>, p: nat, size: U64)
      reads this
    {
      && |blocks| == |before| + 1 && blocks[..|before|] == before
      && blocks[|before|].at + 8 == p && blocks[|before|].size == size
    }

    /** Makes sure the current chunk has room for `need` bytes, if the kernel must with a new one. */
    method EnsureChunk(need: U64, bid: U64) returns (room: bool)
      requires Valid() && off + need < TWO64 && need <= ChunkFor(need)
      modifies `arena, `off, `cap, `chunks
      ensures Valid() && room == FitsIn(Held(), need)
      ensures room == (FitsIn(old(Held()), need) || Grants(old(chunks), ChunkFor(need), bid))
      ensures Held() == WithChunk(old(Held()), need, bid)
    {
      hide ChunkFor, BlocksApart, HeadersKept, Grants;
      ChunkCap(chunks);
      if arena == 0 || Plus(off, need) > cap {
        var chunk := ChunkFor(need);
        var a := NtVirtualAlloc(chunk, bid);
        if a == 0 {
          return false;
        }
        ChunkAdded(blocks, old(chunks), off, Chunk(a, chunk));
        arena, off, cap := a, 0, chunk;
      }
      room := true;
    }

    static lemma {:induction false} ChunkCap(chunks: seq<Chunk>)
      requires ChunksApart(chunks)
      ensures chunks != [] ==> chunks[|chunks| - 1].size <= USER_TOP && chunks[|chunks| - 1].at > 0
    {
    }

    /** A block of `size` bytes with its header, from the current chunk or a new one; 0 if the kernel refuses. */
    method Bump(size: U64, bid: U64) returns (p: nat)
      requires Valid() && Sane(off, size)
      modifies this
      ensures Valid()
      ensures p != 0 <==> CanGive(old(Held()), size, bid)
      ensures Held() == Extended(old(Held()), size, bid)
      ensures p == 0 ==> blocks == old(blocks) && Payloads() == old(Payloads())
      ensures p != 0 ==> Given(old(blocks), p, size)
      ensures p != 0 ==> Payloads() == old(Payloads()) + [Payload(mem, blocks[|old(blocks)|])]
    {
      hide Need, ChunkFor, BlocksApart, HeadersKept, PayloadsOf, Payload, SameOutside, Store64, Grants;
      hide CanGive, Extended, WithChunk;
      ChunkCap(chunks);
      NeedCovers(off, cap, size);
      var need := Need(size);
      var room := EnsureChunk(need, bid);
      ExtendedIs(old(Held()), size, bid, Held());
      if !room {
        return 0;
      }
      p := arena + off;
      ChunkEnds(chunks);
      HeaderStored(mem, p, size);
      BlockAdded(blocks, chunks, off, size);
      HeaderFree(mem, Store64(mem, p, size), blocks, chunks, off, Block(p, size, |chunks| - 1));
      mem := Store64(mem, p, size);
      PayloadAdded(mem, blocks, Block(p, size, |chunks| - 1));
      blocks := blocks + [Block(p, size, |chunks| - 1)];
      off := off + need;
      p := p + 8;
    }

    static lemma {:induction false} ChunkEnds(chunks: seq<Chunk>)
      requires ChunksApart(chunks) && chunks != []
      ensures var c := chunks[|chunks| - 1]; 0 < c.at && c.at + c.size <= USER_TOP
    {
    }

    /** A header stored for a new block disturbs no other. */
    static lemma {:induction false} HeaderFree(m: Mem, m': Mem, blocks: seq<Block>, chunks: seq<Chunk>, off: nat,
            b: Block)
      requires ChunksApart(chunks) && BlocksApart(blocks, chunks, off) && HeadersKept(m, blocks)
      requires BlocksApart(blocks + [b], chunks, off + Need(b.size)) && b.size < HALF64
      requires SameOutside(m, m', b.at, 8) && Read64(m', b.at) == b.size
      ensures HeadersKept(m', blocks + [b]) && PayloadsOf(m', blocks) == PayloadsOf(m, blocks)
    {
      hide Need, SameOutside, Placed, Read64, PayloadsOf;
      NeedOf(b.size);
      forall i | 0 <= i < |blocks| ensures Apart(blocks[i].at, Need(blocks[i].size), b.at, 8) {
        var now := blocks + [b];
        assert Apart(now[i].at, Need(now[i].size), now[|blocks|].at, Need(now[|blocks|].size));
      }
      StoredOutside(m, m', b.at, 8, blocks, chunks, off);
    }

    /** Zeroes payload bytes `lo` to `hi` of the newest block. */
    method Clear(p: nat, lo: nat, hi: nat)
      requires Valid() && blocks != [] && p == blocks[|blocks| - 1].at + 8 && lo <= hi <= blocks[|blocks| - 1].size
      modifies `mem
      ensures Valid()
      ensures forall x: U64 :: mem(x) == if p + lo <= x < p + hi then 0 else old(mem)(x)
      ensures Payloads() == old(Payloads())[|blocks| - 1 := Payload(mem, blocks[|blocks| - 1])]
    {
      hide BlocksApart, HeadersKept, PayloadsOf, Payload;
      InUserSpace(blocks, chunks, off, |blocks| - 1);
      ghost var m := mem;
      for i := lo to hi
        invariant forall x: U64 :: mem(x) == if p + lo <= x < p + i then 0 else m(x)
      {
        mem := StoreByte(mem, p + i, 0);
      }
      StoredInside(m, mem, p + lo, hi - lo, blocks, chunks, off, |blocks| - 1);
    }

    static lemma {:induction false} InUserSpace(blocks: seq<Block>, chunks: seq<Chunk>, off: nat, k: nat)
      requires ChunksApart(chunks) && BlocksApart(blocks, chunks, off) && k < |blocks|
      ensures 0 < blocks[k].at && blocks[k].at + 8 + blocks[k].size <= USER_TOP
    {
      assert Placed(blocks[k], chunks, off);
      NeedOf(blocks[k].size);
    }

    static lemma {:induction false} CopyStarts(m: Mem, p: nat, s: nat)
      ensures SameOutside(m, m, p, 0) && ReadBytes(m, p, 0) == ReadBytes(m, s, 0)
    {
    }

    /** Copies `n` bytes from `s` to the start of the newest block. */
    method Copy(p: nat, s: nat, n: nat)
      requires Valid() && blocks != [] && p == blocks[|blocks| - 1].at + 8 && n <= blocks[|blocks| - 1].size
      requires s + n <= TWO64 && Apart(s, n, p, n) && p + n <= TWO64
      modifies `mem
      ensures Valid()
      ensures SameOutside(old(mem), mem, p, n) && ReadBytes(mem, p, n) == ReadBytes(old(mem), s, n)
      ensures Payloads() == old(Payloads())[|blocks| - 1 := Payload(mem, blocks[|blocks| - 1])]
    {
      hide BlocksApart, HeadersKept, PayloadsOf, Payload, SameOutside, ReadBytes;
      InUserSpace(blocks, chunks, off, |blocks| - 1);
      CopyStarts(mem, p, s);
      ghost var m := mem;
      for i := 0 to n
        invariant SameOutside(m, mem, p, i) && ReadBytes(mem, p, i) == ReadBytes(m, s, i)
      {
        ByteCopied(m, mem, p, s, i);
        mem := StoreByte(mem, p + i, mem(s + i));
      }
      StoredInside(m, mem, p, n, blocks, chunks, off, |blocks| - 1);
    }

    method RtlAllocateHeap(zero: bool, size: U64, bid: U64) returns (p: nat)
      requires Valid() && Sane(off, size)
      modifies this
      ensures Valid() && Step(old(Payloads()), Allocate(zero, size, bid), p != 0, Payloads())
      ensures (p != 0 <==> CanGive(old(Held()), size, bid)) && Held() == Extended(old(Held()), size, bid)
      ensures if p == 0 then blocks == old(blocks) else Given(old(blocks), p, size)
    {
      hide BlocksApart, HeadersKept, PayloadsOf, CanGive, Extended;
      ghost var f := Payloads();
      p := Bump(size, bid);
      if p != 0 {
        ghost var b := blocks[|f|];
        InUserSpace(blocks, chunks, off, |f|);
        if zero {
          Clear(p, 0, size);
          forall k: nat | k < size ensures Payload(mem, b)[k] == 0 {
            ReadByte(mem, p, size, k);
          }
        }
        assert Payloads()[..|f|] == f;
      }
    }

    method RtlReAllocateHeap(zero: bool, p: nat, size: U64, bid: U64, ghost which: Option<nat>) returns (np: nat)
      requires Valid() && Sane(off, size)
      requires if p == 0 then which == None
               else which.Some? && which.value < |blocks| && p == blocks[which.value].at + 8
      modifies this
      ensures Valid() && Step(old(Payloads()), ReAllocate(which, zero, size, bid), np != 0, Payloads())
      ensures (np != 0 <==> CanGive(old(Held()), size, bid)) && Held() == Extended(old(Held()), size, bid)
      ensures if np == 0 then blocks == old(blocks) else Given(old(blocks), np, size)
    {
      hide BlocksApart, HeadersKept, PayloadsOf, SameOutside, CanGive, Extended;
      if p == 0 {
        np := RtlAllocateHeap(zero, size, bid);
        return;
      }
      ghost var f, from := Payloads(), blocks[which.value];
      HeaderAt(mem, blocks, which.value);
      var was := Read64(mem, p - 8);
      np := Bump(size, bid);
      if np == 0 {
        return;
      }
      ghost var b, mid := blocks[|f|], mem;
      InUserSpace(blocks, chunks, off, |f|);
      InUserSpace(blocks, chunks, off, which.value);
      assert blocks[which.value] == blocks[..|f|][which.value] == from;
      PayloadsApart(blocks, chunks, off, which.value, |f|);
      PayloadAt(mid, blocks, which.value);
      var n := if was < size then was else size;
      Copy(np, p, n);
      ghost var copied := mem;
      if zero && size > was {
        Clear(np, was, size);
      }
      Reallocated(mid, copied, mem, from, b, zero);
      assert Payloads()[..|f|] == f;
    }

    static lemma {:induction false} HeaderAt(m: Mem, blocks: seq<Block>, i: nat)
      requires HeadersKept(m, blocks) && i < |blocks|
      ensures Read64(m, blocks[i].at) == blocks[i].size
    {
    }

    static lemma {:induction false} PayloadAt(m: Mem, blocks: seq<Block>, i: nat)
      requires i < |blocks|
      ensures PayloadsOf(m, blocks)[i] == Payload(m, blocks[i])
    {
    }

    static lemma {:induction false} Reallocated(mid: Mem, copied: Mem, now: Mem, from: Block, b: Block, zero: bool)
      requires b.at + 8 + b.size <= TWO64 && from.at + 8 + from.size <= TWO64
      requires var n := if from.size < b.size then from.size else b.size;
               && ReadBytes(copied, b.at + 8, n) == ReadBytes(mid, from.at + 8, n)
               && if zero && b.size > from.size
                  then forall x: U64 :: now(x) == if b.at + 8 + from.size <= x < b.at + 8 + b.size then 0 else copied(x)
                  else now == copied
      ensures forall k :: 0 <= k < b.size ==>
                if k < from.size then Payload(now, b)[k] == Payload(mid, from)[k]
                else (zero ==> Payload(now, b)[k] == 0)
    {
      var n := if from.size < b.size then from.size else b.size;
      forall k | 0 <= k < b.size
        ensures if k < from.size then Payload(now, b)[k] == Payload(mid, from)[k]
                else (zero ==> Payload(now, b)[k] == 0)
      {
        ReadByte(now, b.at + 8, b.size, k);
        if k < from.size {
          ReadByte(copied, b.at + 8, n, k);
          ReadByte(mid, from.at + 8, n, k);
          ReadByte(mid, from.at + 8, from.size, k);
        }
      }
    }

    static lemma {:induction false} PayloadsApart(blocks: seq<Block>, chunks: seq<Chunk>, off: nat, i: nat, j: nat)
      requires BlocksApart(blocks, chunks, off) && i < |blocks| && j < |blocks| && i != j
      ensures Apart(blocks[i].at, 8 + blocks[i].size, blocks[j].at, 8 + blocks[j].size)
    {
      hide Need;
      assert Placed(blocks[i], chunks, off) && Placed(blocks[j], chunks, off);
      NeedOf(blocks[i].size);
      NeedOf(blocks[j].size);
    }

    /** Nothing is given back. */
    method RtlFreeHeap(p: nat) returns (ok: bool)
      ensures ok
    {
      ok := true;
    }

    /** A client stores a byte of a payload it holds. */
    method ClientStore(i: nat, k: nat, b: Byte)
      requires Valid() && i < |blocks| && k < blocks[i].size
      modifies `mem
      ensures Valid() && Step(old(Payloads()), Store(i, k, b), true, Payloads())
    {
      hide BlocksApart, HeadersKept, PayloadsOf;
      InUserSpace(blocks, chunks, off, i);
      ghost var m, at := mem, blocks[i].at + 8;
      PayloadAt(m, blocks, i);
      mem := StoreByte(mem, blocks[i].at + 8 + k, b);
      StoredInside(m, mem, at + k, 1, blocks, chunks, off, i);
      ghost var was, now := Payload(m, blocks[i]), Payload(mem, blocks[i]);
      forall j | 0 <= j < |was| ensures now[j] == Poked(was, k, b)[j] {
        ReadByte(m, at, blocks[i].size, j);
        ReadByte(mem, at, blocks[i].size, j);
      }
      assert now == Poked(was, k, b);
    }

    // ---- runs -------------------------------------------------------------

    predicate Admissible(call: Call)
      reads this
    {
      match call
      case Allocate(_, size, _) => Sane(off, size)
      case ReAllocate(which, _, size, _) => Sane(off, size) && (which.Some? ==> which.value < |blocks|)
      case Free(i) => i < |blocks|
      case Store(i, k, _) => i < |blocks| && k < blocks[i].size
    }

    method Perform(call: Call) returns (ok: bool)
      requires Valid() && Admissible(call)
      modifies this
      ensures Valid() && Step(old(Payloads()), call, ok, Payloads())
      ensures ok == Works(old(Held()), call) && Held() == Next(old(Held()), call)
    {
      hide Step, BlocksApart, HeadersKept, PayloadsOf, CanGive, Extended;
      match call
      case Allocate(zero, size, bid) =>
        var p := RtlAllocateHeap(zero, size, bid);
        ok := p != 0;
      case ReAllocate(which, zero, size, bid) =>
        var p := if which.Some? then blocks[which.value].at + 8 else 0;
        var np := RtlReAllocateHeap(zero, p, size, bid, which);
        ok := np != 0;
      case Free(i) =>
        ok := RtlFreeHeap(blocks[i].at + 8);
        Freed(Payloads(), i, ok);
      case Store(i, k, b) =>
        ClientStore(i, k, b);
        ok := true;
    }

    static lemma {:induction false} Freed(f: seq<seq<Byte>>, i: nat, ok: bool)
      ensures Step(f, Free(i), ok, f)
    {
    }

    /**
     Makes the calls one after the other, up to the first that is not admissible. Blocks handed out stay where
     they are, new ones are placed as specified, and exactly the allocations succeed that can.
     */
    method Run(calls: seq<Call>) returns (done: nat, oks: seq<bool>, ghost payloads: seq<seq<seq<Byte>>>)
      requires Valid()
      modifies this
      ensures Valid() && done <= |calls| && (done == |calls| || !Admissible(calls[done]))
      ensures Trace(payloads, calls[..done], oks) && payloads[0] == old(Payloads()) && payloads[done] == Payloads()
      ensures Held() == After(old(Held()), calls[..done]) && Succeeded(old(Held()), calls[..done], oks)
      ensures old(blocks) <= blocks
    {
      hide Step, BlocksApart, HeadersKept, PayloadsOf, Admissible, Works, Next, Succeeded;
      assert Succeeded(Held(), calls[..0], []) by { NothingDone(Held(), calls[..0]); }
      done, oks, payloads := 0, [], [Payloads()];
      while done < |calls| && Admissible(calls[done])
        invariant Valid() && done <= |calls|
        invariant Trace(payloads, calls[..done], oks) && payloads[0] == old(Payloads()) && payloads[done] == Payloads()
        invariant Held() == After(old(Held()), calls[..done]) && Succeeded(old(Held()), calls[..done], oks)
        decreases |calls| - done
      {
        var ok := Perform(calls[done]);
        assert calls[..done + 1] == calls[..done] + [calls[done]];
        RunGrows(old(Held()), calls[..done], oks, calls[done], ok);
        oks, payloads, done := oks + [ok], payloads + [Payloads()], done + 1;
      }
    }
  }
}
