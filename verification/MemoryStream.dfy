/** combase's growable streams on a bump arena, refining byte files. */
module MemoryStream {
  import opened Words
  import opened StructPack
  import opened StreamFiles

  const ARENA: nat := 0x20_0000
  const STREAM_SIZE: nat := 48
  const FIRST_CAP: nat := 256

  // ---- capacities ---------------------------------------------------------

  /** 256 times a power of two. */
  function Cap(k: nat): nat {
    if k == 0 then FIRST_CAP else 2 * Cap(k - 1)
  }

  ghost predicate IsCap(c: nat) {
    exists k: nat :: c == Cap(k)
  }

  lemma {:induction false} CapsRise(j: nat, k: nat)
    requires j <= k
    ensures FIRST_CAP <= Cap(j) <= Cap(k)
    decreases k
  {
    if j < k {
      CapsRise(j, k - 1);
    } else if k > 0 {
      CapsRise(j - 1, k - 1);
    }
  }

  lemma {:induction false} LargestCap()
    ensures Cap(55) == HALF64
  {
    assert Cap(10) == 0x4_0000;
    assert Cap(20) == 0x1000_0000;
    assert Cap(30) == 0x40_0000_0000;
    assert Cap(40) == 0x1_0000_0000_0000;
    assert Cap(50) == 0x400_0000_0000_0000;
  }

  /** Doubling a capacity below 2^63 does not wrap. */
  lemma {:induction false} DoubleCap(c: nat)
    requires IsCap(c) && c < HALF64
    ensures IsCap(2 * c) && FIRST_CAP <= c && 2 * c <= HALF64
  {
    var k: nat :| c == Cap(k);
    LargestCap();
    CapsRise(0, k);
    if k >= 55 {
      CapsRise(55, k);
    }
    CapsRise(k + 1, 55);
    assert 2 * c == Cap(k + 1);
  }

  /** The capacity a buffer of `c` bytes grows to. */
  function Grown(c: nat, need: nat): nat
    requires c > 0
    decreases need - c
  {
    if c >= need then c else Grown(2 * c, need)
  }

  function NewCap(c: nat, need: nat): nat {
    Grown(if c == 0 then FIRST_CAP else c, need)
  }

  /** `c` after `turns` doublings in 64 bits. */
  function Doubled(c: U64, turns: nat): U64 {
    if turns == 0 then c else Wrap(2 * Doubled(c, turns - 1))
  }

  /** The doubling loop comes to an end exactly for needs of at most 2^63. */
  lemma {:induction false} DoublingEnds(c: U64, need: U64)
    requires IsCap(c)
    ensures (exists turns: nat :: Doubled(c, turns) >= need) <==> need <= HALF64
  {
    var k: nat :| c == Cap(k);
    LargestCap();
    if k >= 56 {
      assert Cap(56) == TWO64;
      CapsRise(56, k);
    }
    if need <= HALF64 {
      DoubledIs(c, k, 55 - k);
      assert Doubled(c, 55 - k) >= need;
    } else {
      forall turns: nat ensures Doubled(c, turns) < need {
        DoubledIs(c, k, turns);
        if k + turns <= 55 {
          CapsRise(k + turns, 55);
        }
      }
    }
  }

  /** A stream resized to 2^63 + 1 bytes doubles for ever. */
  lemma {:induction false} UnendingDoubling()
    ensures forall turns: nat :: Doubled(FIRST_CAP, turns) < HALF64 + 1
  {
    assert FIRST_CAP == Cap(0);
    DoublingEnds(FIRST_CAP, HALF64 + 1);
  }

  lemma {:induction false} DoubledIs(c: U64, k: nat, turns: nat)
    requires c == Cap(k) && k <= 55
    ensures Doubled(c, turns) == if k + turns <= 55 then Cap(k + turns) else 0
  {
    LargestCap();
    if turns > 0 {
      DoubledIs(c, k, turns - 1);
      if k + turns <= 55 {
        CapsRise(k + turns, 55);
      } else if k + turns == 56 {
        assert Doubled(c, turns - 1) == HALF64;
      }
    }
  }

  lemma {:induction false} CapRounded(c: nat)
    requires IsCap(c)
    ensures Round16(c) == c
  {
    var k: nat :| c == Cap(k);
    CapBy16(k);
  }

  lemma {:induction false} CapBy16(k: nat)
    ensures Cap(k) % 16 == 0
  {
    if k > 0 {
      CapBy16(k - 1);
    }
  }

  method GrowCap(cap: nat, need: U64) returns (ncap: U64)
    requires (cap == 0 || IsCap(cap)) && cap < need <= HALF64
    ensures ncap == NewCap(cap, need) && IsCap(ncap)
    ensures need <= ncap <= HALF64 && 2 * cap <= ncap && Round16(ncap) == ncap
  {
    ncap := if cap != 0 then cap else FIRST_CAP;
    assert IsCap(ncap) by { assert FIRST_CAP == Cap(0); }
    assert ncap <= HALF64;
    while ncap < need
      invariant IsCap(ncap) && cap <= ncap <= HALF64
      invariant Grown(ncap, need) == NewCap(cap, need)
      invariant ncap > cap ==> ncap >= 2 * cap
      decreases need - ncap
    {
      DoubleCap(ncap);
      ncap := Wrap(ncap * 2);
    }
    CapRounded(ncap);
  }

  // ---- layout of the arena ------------------------------------------------

  function Round16(n: nat): (r: nat)
    ensures n <= r < n + 16 && r % 16 == 0
  {
    (n + 15) / 16 * 16
  }

  /**
   The fields of a stream object, 48 bytes at `at` in the arena; its buffer is null exactly when `cap` is 0.
   `taken` counts the arena bytes ever taken for its buffers.
   */
  datatype Layout = Layout(at: nat, buf: nat, cap: nat, size: nat, pos: nat, taken: nat)

  predicate Disjoint(a: nat, n: nat, b: nat, m: nat) {
    n == 0 || m == 0 || a + n <= b || b + m <= a
  }

  /** A stream within the part of the arena already taken, its capacity grown geometrically. */
  ghost predicate Sound(l: Layout, off: nat) {
    && l.at + STREAM_SIZE <= off
    && l.size <= l.cap && l.pos < HALF64
    && (l.cap == 0 ==> l.taken == 0)
    && (l.cap > 0 ==>
          && IsCap(l.cap) && l.buf + l.cap <= off && l.taken <= 2 * l.cap - FIRST_CAP
          && Disjoint(l.at, STREAM_SIZE, l.buf, l.cap))
  }

  /** Neither the objects nor the buffers of two streams meet. */
  predicate Separate(l: Layout, m: Layout) {
    && Disjoint(l.buf, l.cap, m.buf, m.cap)
    && Disjoint(l.at, STREAM_SIZE, m.buf, m.cap)
    && Disjoint(m.at, STREAM_SIZE, l.buf, l.cap)
    && Disjoint(l.at, STREAM_SIZE, m.at, STREAM_SIZE)
  }

  ghost predicate SoundLayouts(ls: seq<Layout>, off: nat) {
    && off <= ARENA && off % 16 == 0
    && (forall i :: 0 <= i < |ls| ==> Sound(ls[i], off))
    && (forall i, j :: 0 <= i < |ls| && 0 <= j < |ls| && i != j ==> Separate(ls[i], ls[j]))
  }

  function Bytes(l: Layout, bytes: seq<Byte>): (b: seq<Byte>)
    ensures |b| <= l.size
  {
    if l.size == 0 || l.buf + l.size > |bytes| then [] else bytes[l.buf..l.buf + l.size]
  }

  /** The byte file a stream stands for. */
  function FileOf(l: Layout, bytes: seq<Byte>): File {
    File(Bytes(l, bytes), l.pos)
  }

  function FilesOf(ls: seq<Layout>, bytes: seq<Byte>): (f: seq<File>)
    ensures |f| == |ls|
  {
    seq(|ls|, (i: int) requires 0 <= i < |ls| => FileOf(ls[i], bytes))
  }

  /** The arena has moved on, nothing else has changed. */
  lemma {:induction false} MoreTaken(ls: seq<Layout>, off: nat, more: nat)
    requires SoundLayouts(ls, off) && off <= more <= ARENA && more % 16 == 0
    ensures SoundLayouts(ls, more)
  {
    forall i | 0 <= i < |ls| ensures Sound(ls[i], more) {
      assert Sound(ls[i], off);
    }
  }

  /** A stream may change its position, its size within its capacity, or move to a buffer not yet taken. */
  lemma {:induction false} LayoutChanged(ls: seq<Layout>, off: nat, more: nat, k: nat, l: Layout)
    requires SoundLayouts(ls, off) && off <= more <= ARENA && more % 16 == 0 && k < |ls|
    requires l.at == ls[k].at && Sound(l, more)
    requires (l.buf == ls[k].buf && l.cap == ls[k].cap) || off <= l.buf
    ensures SoundLayouts(ls[k := l], more)
  {
    hide IsCap;
    var ms := ls[k := l];
    forall i | 0 <= i < |ms| ensures Sound(ms[i], more) {
      assert Sound(ls[i], off);
    }
    forall i, j | 0 <= i < |ms| && 0 <= j < |ms| && i != j ensures Separate(ms[i], ms[j]) {
      assert Separate(ls[i], ls[j]) && Sound(ls[i], off) && Sound(ls[j], off);
    }
  }

  /** A new stream object takes bytes of its own. */
  lemma {:induction false} LayoutAdded(ls: seq<Layout>, off: nat, more: nat)
    requires SoundLayouts(ls, off) && off + STREAM_SIZE <= more <= ARENA && more % 16 == 0
    ensures SoundLayouts(ls + [Layout(off, 0, 0, 0, 0, 0)], more)
  {
    hide IsCap;
    var l := Layout(off, 0, 0, 0, 0, 0);
    var ms := ls + [l];
    forall i | 0 <= i < |ms| ensures Sound(ms[i], more) {
      if i < |ls| {
        assert Sound(ls[i], off);
      }
    }
    forall i, j | 0 <= i < |ms| && 0 <= j < |ms| && i != j ensures Separate(ms[i], ms[j]) {
      if i < |ls| {
        assert Sound(ls[i], off);
      }
      if j < |ls| {
        assert Sound(ls[j], off);
      }
      if i < |ls| && j < |ls| {
        assert Separate(ls[i], ls[j]);
      }
    }
  }

  /** Bytes stored in one stream's buffer, or past everything taken, are in no other stream's file. */
  lemma {:induction false} OtherFilesKept(ls: seq<Layout>, off: nat, bytes: seq<Byte>, at: nat, data: seq<Byte>, k: nat)
    requires SoundLayouts(ls, off) && |bytes| == ARENA && at + |data| <= ARENA && k < |ls|
    requires off <= at || (ls[k].buf <= at && at + |data| <= ls[k].buf + ls[k].cap)
    ensures forall i :: 0 <= i < |ls| && i != k ==> FileOf(ls[i], Patched(bytes, at, data)) == FileOf(ls[i], bytes)
    ensures off <= at ==> FileOf(ls[k], Patched(bytes, at, data)) == FileOf(ls[k], bytes)
  {
    hide IsCap, Patched;
    forall i | 0 <= i < |ls| && (i != k || off <= at)
      ensures FileOf(ls[i], Patched(bytes, at, data)) == FileOf(ls[i], bytes)
    {
      assert Sound(ls[i], off) && Sound(ls[k], off) && (i != k ==> Separate(ls[i], ls[k]));
      if ls[i].size > 0 && data != [] {
        PatchElsewhere(bytes, at, data, ls[i].buf, ls[i].size);
      } else if data == [] {
        PatchNothing(bytes, at);
      }
    }
  }

  lemma {:induction false} PatchElsewhere(bytes: seq<Byte>, at: nat, data: seq<Byte>, a: nat, n: nat)
    requires at + |data| <= |bytes| && a + n <= |bytes| && (a + n <= at || at + |data| <= a)
    ensures Patched(bytes, at, data)[a..a + n] == bytes[a..a + n]
  {
  }

  lemma {:induction false} PatchNothing(bytes: seq<Byte>, at: nat)
    requires at <= |bytes|
    ensures Patched(bytes, at, []) == bytes
  {
  }

  /** Bytes stored where no stream has any, as in a block of task memory, are in no file. */
  lemma {:induction false} TaskBytesKept(ls: seq<Layout>, bytes: seq<Byte>, at: nat, data: seq<Byte>)
    requires |bytes| == ARENA && at + |data| <= ARENA
    requires forall i :: 0 <= i < |ls| ==>
               ls[i].size <= ls[i].cap && (ls[i].size > 0 ==> ls[i].buf + ls[i].cap <= ARENA)
    requires forall i :: 0 <= i < |ls| ==> Disjoint(at, |data|, ls[i].buf, ls[i].cap)
    ensures FilesOf(ls, Patched(bytes, at, data)) == FilesOf(ls, bytes)
  {
    hide Patched;
    forall i | 0 <= i < |ls| ensures FileOf(ls[i], Patched(bytes, at, data)) == FileOf(ls[i], bytes) {
      assert Disjoint(at, |data|, ls[i].buf, ls[i].cap);
      if ls[i].size > 0 && data != [] {
        PatchElsewhere(bytes, at, data, ls[i].buf, ls[i].size);
      } else if data == [] {
        PatchNothing(bytes, at);
      }
    }
  }

  // ---- taking bytes off the arena -----------------------------------------

  /** The arena's next offset after a request, computed in 64 bits. */
  function Bumped(off: nat, cb: U64): Option<nat> {
    var n := Wrap(cb + 15) / 16 * 16;
    if n == 0 || Wrap(off + n) > ARENA then None else Some(Wrap(off + n))
  }

  /** A request whose rounded sum does not wrap, or that rounds to nothing. */
  predicate Fair(off: nat, cb: U64) {
    off + cb <= TWO64 - 16 || cb > TWO64 - 16
  }

  /** A granted request really moves the arena past its bytes exactly if it is fair. */
  lemma {:induction false} FairIff(off: nat, cb: U64)
    requires off <= ARENA && off % 16 == 0
    ensures (Bumped(off, cb).Some? ==> Bumped(off, cb).value >= off + cb) <==> Fair(off, cb)
    ensures Fair(off, cb) ==>
              Bumped(off, cb)
              == if cb == 0 || cb > TWO64 - 16 || off + Round16(cb) > ARENA then None else Some(off + Round16(cb))
  {
    if cb > TWO64 - 16 {
      assert Wrap(cb + 15) == cb + 15 - TWO64;
    } else {
      assert Wrap(cb + 15) == cb + 15;
      var n := Round16(cb);
      if off + cb <= TWO64 - 16 {
        RoundedSum(off, cb);
        assert Wrap(off + n) == off + n;
      } else {
        assert Wrap(off + n) == off + n - TWO64;
      }
    }
  }

  lemma {:induction false} RoundedSum(off: nat, cb: nat)
    requires off % 16 == 0 && off + cb <= TWO64 - 16
    ensures off + Round16(cb) <= TWO64 - 16
  {
  }

  /** With 0x100 bytes taken, asking for all but 16 of the address space succeeds and gives 16 of them back. */
  lemma {:induction false} UnfairRequest()
    ensures Bumped(0x100, TWO64 - 16) == Some(0xF0) && !Fair(0x100, TWO64 - 16)
  {
  }

  // ---- the books ----------------------------------------------------------

  /** A stream's capacity, and the bytes ever taken for its buffers. */
  datatype Account = Account(cap: nat, taken: nat)

  /** The arena's offset and every stream's account. */
  datatype Book = Book(off: nat, accounts: seq<Account>)

  function BookOf(ls: seq<Layout>, off: nat): (b: Book)
    ensures |b.accounts| == |ls| && b.off == off
  {
    Book(off, seq<Account>(|ls|, (i: int) requires 0 <= i < |ls| => Account(ls[i].cap, ls[i].taken)))
  }

  /** Whether the k-th stream can come to hold `need` bytes, in its buffer or in a larger one the arena has room for. */
  predicate CanHold(b: Book, k: nat, need: nat)
    requires k < |b.accounts|
  {
    need <= b.accounts[k].cap || b.off + Round16(NewCap(b.accounts[k].cap, need)) <= ARENA
  }

  /** The books once room for `need` bytes has been asked for: a larger buffer is taken if there must and can be one. */
  function Ensured(b: Book, k: nat, need: nat): Book {
    if k >= |b.accounts| || need <= b.accounts[k].cap || !CanHold(b, k, need) then b
    else
      var c := NewCap(b.accounts[k].cap, need);
      Book(b.off + Round16(c), b.accounts[k := Account(c, b.accounts[k].taken + Round16(c))])
  }

  lemma {:induction false} EnsuredIs(b: Book, k: nat, need: nat)
    requires k < |b.accounts|
    ensures need <= b.accounts[k].cap ==> CanHold(b, k, need) && Ensured(b, k, need) == b
    ensures need > b.accounts[k].cap ==>
              var c := NewCap(b.accounts[k].cap, need);
              && (CanHold(b, k, need) <==> b.off + Round16(c) <= ARENA)
              && Ensured(b, k, need)
                 == if CanHold(b, k, need)
                    then Book(b.off + Round16(c), b.accounts[k := Account(c, b.accounts[k].taken + Round16(c))]) else b
  {
    hide NewCap, Round16;
  }

  /** The books with one more stream, which has no buffer yet. */
  function Opened(b: Book): Book {
    Book(b.off + STREAM_SIZE, b.accounts + [Account(0, 0)])
  }

  /** A clone of a stream of `size` bytes needs an object and, if there are bytes to copy, a buffer. */
  predicate CanClone(b: Book, size: nat) {
    b.off + STREAM_SIZE <= ARENA && (size > 0 ==> CanHold(Opened(b), |b.accounts|, size))
  }

  /** Whether the target of a copy gets the bytes. */
  predicate Takes(f: seq<File>, b: Book, i: nat, target: Option<nat>, most: nat)
    requires i < |f| == |b.accounts|
  {
    target.Some? && target.value < |f| && CanHold(b, target.value, f[target.value].pos + |Available(f[i], most)|)
  }

  /** A call names streams there are. */
  predicate Names(call: Call, n: nat) {
    match call
    case New => true
    case Read(i, _) => i < n
    case Write(i, _) => i < n
    case Seek(i, _, _) => i < n
    case SetSize(i, _) => i < n
    case CopyTo(i, target, _) => i < n && (target.Some? ==> target.value < n)
    case Clone(i) => i < n
    case TaskAlloc(_) => true
  }

  /** The books after a call on the files `f`; the object of a clone that gets no buffer is lost. */
  function NextBook(f: seq<File>, b: Book, call: Call): Book
    requires |f| == |b.accounts| && Names(call, |f|)
  {
    match call
    case New => if b.off + STREAM_SIZE <= ARENA then Opened(b) else b
    case Read(_, _) => b
    case Write(i, data) => if data == [] then b else Ensured(b, i, f[i].pos + |data|)
    case Seek(_, _, _) => b
    case SetSize(i, size) => Ensured(b, i, size)
    case CopyTo(i, target, most) =>
      var data := Available(f[i], most);
      if target == None || data == [] then b else Ensured(b, target.value, f[target.value].pos + |data|)
    case Clone(i) =>
      var size := |f[i].content|;
      if CanClone(b, size) then (if size == 0 then Opened(b) else Ensured(Opened(b), |b.accounts|, size))
      else if b.off + STREAM_SIZE <= ARENA then b.(off := b.off + STREAM_SIZE)
      else b
    case TaskAlloc(most) => if Bumped(b.off, most) == None then b else b.(off := Bumped(b.off, most).value)
  }

  /** A call succeeds exactly if the arena has room for what it needs. */
  predicate Fares(f: seq<File>, b: Book, call: Call, r: Result)
    requires |f| == |b.accounts| && Names(call, |f|)
  {
    match call
    case New => r.code == Ok <==> b.off + STREAM_SIZE <= ARENA
    case Read(_, _) => true
    case Write(i, data) => r.code == Ok <==> data == [] || CanHold(b, i, f[i].pos + |data|)
    case Seek(_, _, _) => true
    case SetSize(i, size) => r.code == Ok <==> CanHold(b, i, size)
    case CopyTo(i, target, most) => r.count == if Takes(f, b, i, target, most) then |Available(f[i], most)| else 0
    case Clone(i) => r.code == Ok <==> CanClone(b, |f[i].content|)
    case TaskAlloc(most) => (r.code == Ok <==> Bumped(b.off, most) != None) && (r.code == Ok ==> r.count == b.off)
  }

  predicate Accounted(f: seq<File>, b: Book, call: Call, r: Result, c: Book) {
    |f| == |b.accounts| && Names(call, |f|) && Fares(f, b, call, r) && c == NextBook(f, b, call)
  }

  /** Over a run, every call fares as the arena allows, and leaves the books it should. */
  predicate AllAccounted(files: seq<seq<File>>, books: seq<Book>, calls: seq<Call>, results: seq<Result>) {
    && |files| == |books| == |calls| + 1 && |results| == |calls|
    && forall n :: 0 <= n < |calls| ==> Accounted(files[n], books[n], calls[n], results[n], books[n + 1])
  }

  // ---- what the arena's bytes were taken for ------------------------------

  function TakenFor(b: Book, k: nat): nat {
    if k < |b.accounts| then b.accounts[k].taken else 0
  }

  /** The bytes by which a call moves the arena on for the buffer of the k-th stream. */
  function Charge(a: Book, call: Call, b: Book, k: nat): int {
    match call
    case New => 0
    case Read(_, _) => 0
    case Write(i, _) => if i == k then b.off - a.off else 0
    case Seek(_, _, _) => 0
    case SetSize(i, _) => if i == k then b.off - a.off else 0
    case CopyTo(_, target, _) => if target == Some(k) then b.off - a.off else 0
    case Clone(_) => if k == |a.accounts| < |b.accounts| then b.off - a.off - STREAM_SIZE else 0
    case TaskAlloc(_) => 0
  }

  /** What the call moves the arena on for other things: stream objects and task memory. */
  predicate OtherwiseMoves(a: Book, call: Call, b: Book) {
    var moved := b.off - a.off;
    match call
    case New => moved == if |a.accounts| < |b.accounts| then STREAM_SIZE else 0
    case Read(_, _) => moved == 0
    case Write(_, _) => moved >= 0
    case Seek(_, _, _) => moved == 0
    case SetSize(_, _) => moved >= 0
    case CopyTo(_, target, _) => if target == None then moved == 0 else moved >= 0
    case Clone(_) => if |a.accounts| < |b.accounts| then moved >= STREAM_SIZE else moved == 0 || moved == STREAM_SIZE
    case TaskAlloc(most) => moved == 0 || moved == Round16(most)
  }

  /** The books after a call: every stream's account grows by what was taken for its buffer, and by nothing else. */
  ghost predicate Charged(a: Book, call: Call, b: Book) {
    && |a.accounts| <= |b.accounts| && OtherwiseMoves(a, call, b)
    && forall k: nat :: TakenFor(b, k) == TakenFor(a, k) + Charge(a, call, b, k)
  }

  ghost predicate Accounts(books: seq<Book>, calls: seq<Call>) {
    |books| == |calls| + 1 && forall n :: 0 <= n < |calls| ==> Charged(books[n], calls[n], books[n + 1])
  }

  /** All that the first `n` calls took for the buffers of the k-th stream. */
  function Total(books: seq<Book>, calls: seq<Call>, n: nat, k: nat): int
    requires |books| == |calls| + 1 && n <= |calls|
  {
    if n == 0 then 0 else Total(books, calls, n - 1, k) + Charge(books[n - 1], calls[n - 1], books[n], k)
  }

  /** Over a whole run a stream's account is the sum of all bytes the arena gave for its buffers. */
  lemma {:induction false} AccountsAddUp(books: seq<Book>, calls: seq<Call>, n: nat, k: nat)
    requires Accounts(books, calls) && n <= |calls|
    ensures TakenFor(books[n], k) == TakenFor(books[0], k) + Total(books, calls, n, k)
  {
    hide TakenFor, Charge, OtherwiseMoves;
    if n > 0 {
      AccountsAddUp(books, calls, n - 1, k);
      assert Charged(books[n - 1], calls[n - 1], books[n]);
    }
  }

  /** The books of a call that is no unfair request charge every byte to what it was taken for. */
  lemma {:induction false} AccountedCharges(f: seq<File>, a: Book, call: Call, r: Result, b: Book)
    requires Accounted(f, a, call, r, b) && a.off <= ARENA && a.off % 16 == 0
    requires call.TaskAlloc? ==> Fair(a.off, call.most)
    ensures Charged(a, call, b)
  {
    hide Available, NewCap, Round16, Bumped;
    if call.TaskAlloc? {
      FairIff(a.off, call.most);
    }
    forall k: nat ensures TakenFor(b, k) == TakenFor(a, k) + Charge(a, call, b, k) {
    }
  }

  /** The books see of a layout its capacity and what was taken. */
  lemma {:induction false} BookChanged(ls: seq<Layout>, off: nat, k: nat, l: Layout, more: nat)
    requires k < |ls|
    ensures BookOf(ls[k := l], more) == Book(more, BookOf(ls, off).accounts[k := Account(l.cap, l.taken)])
    ensures l.cap == ls[k].cap && l.taken == ls[k].taken ==> BookOf(ls[k := l], more) == BookOf(ls, more)
  {
  }

  lemma {:induction false} BookAt(ls: seq<Layout>, off: nat, k: nat)
    requires k < |ls|
    ensures BookOf(ls, off).accounts[k] == Account(ls[k].cap, ls[k].taken)
  {
  }

  lemma {:induction false} BookAdded(ls: seq<Layout>, off: nat, l: Layout, more: nat)
    ensures BookOf(ls + [l], more) == Book(more, BookOf(ls, off).accounts + [Account(l.cap, l.taken)])
  {
  }

  // ---- streams ------------------------------------------------------------

  class Stream {
    const at: nat
    var buf: nat
    var cap: nat
    var size: nat
    var pos: nat
    ghost var taken: nat

    constructor (at: nat)
      ensures this.at == at && buf == cap == size == pos == taken == 0
    {
      this.at, buf, cap, size, pos, taken := at, 0, 0, 0, 0, 0;
    }

    ghost function View(): Layout
      reads this
    {
      Layout(at, buf, cap, size, pos, taken)
    }

    /** How many bytes a read of `most` gets. */
    function OfferSize(most: nat): nat
      reads this
    {
      Min(most, if pos < size then size - pos else 0)
    }

    /** Where a seek counts from. */
    function Base(origin: U32): nat
      reads this
    {
      if origin == 1 then pos else if origin == 2 then size else 0
    }
  }

  /** The arena and the streams handed out so far, in order. */
  class ComHeap {
    const arena: array<Byte>
    var off: nat
    var streams: seq<Stream>

    ghost function Layouts(): (ls: seq<Layout>)
      reads this, streams
      ensures |ls| == |streams|
    {
      seq(|streams|, (i: int) requires 0 <= i < |streams| reads this, streams => streams[i].View())
    }

    ghost predicate Valid()
      reads this, streams
    {
      && arena.Length == ARENA
      && (forall i, j :: 0 <= i < j < |streams| ==> streams[i] != streams[j])
      && SoundLayouts(Layouts(), off)
    }

    ghost function Books(): Book
      reads this, streams
    {
      BookOf(Layouts(), off)
    }

    /** No buffer, or a power of two of 256 bytes that holds the size, all buffers ever taking less than twice it. */
    ghost predicate GrewGeometrically(s: Stream)
      reads s
    {
      if s.cap == 0 then s.size == 0 && s.taken == 0 else IsCap(s.cap) && s.size <= s.cap && s.taken < 2 * s.cap
    }

    ghost function Files(): (f: seq<File>)
      reads this, streams, arena
      ensures |f| == |streams|
    {
      FilesOf(Layouts(), arena[..])
    }

    constructor ()
      ensures Valid() && streams == [] && off == 0 && fresh(arena)
    {
      arena := new Byte[ARENA](_ => 0);
      off, streams := 0, [];
    }

    /** Takes `cb` bytes, rounded up to 16, off the arena; a fair request leaves it in order. */
    method ArenaAlloc(cb: U64) returns (r: Option<nat>)
      requires Valid()
      modifies `off
      ensures r == if Bumped(old(off), cb) == None then None else Some(old(off))
      ensures off == if r == None then old(off) else Bumped(old(off), cb).value
      ensures Layouts() == old(Layouts())
      ensures Fair(old(off), cb) ==>
                && Valid()
                && (r == None <==> cb == 0 || cb > TWO64 - 16 || old(off) + Round16(cb) > ARENA)
                && off == if r == None then old(off) else old(off) + Round16(cb)
    {
      hide SoundLayouts, Round16;
      ghost var ls, was := Layouts(), off;
      Aligned(ls, was);
      FairIff(was, cb);
      var n := Wrap(cb + 15) / 16 * 16;
      if n == 0 || Wrap(off + n) > ARENA {
        return None;
      }
      r := Some(off);
      off := Wrap(off + n);
      assert Layouts() == ls;
      if Fair(was, cb) {
        MoreTaken(ls, was, off);
      }
    }

    static lemma {:induction false} Aligned(ls: seq<Layout>, off: nat)
      requires SoundLayouts(ls, off)
      ensures off % 16 == 0 && off <= ARENA
    {
    }

    /** Makes room for `need` bytes, in a larger buffer if there must be one. */
    method StreamEnsure(k: nat, need: U64) returns (ok: bool)
      requires Valid() && k < |streams| && need <= HALF64
      modifies `off, arena, streams[k]
      ensures Valid() && ok == CanHold(old(Books()), k, need) && Books() == Ensured(old(Books()), k, need)
      ensures Files() == old(Files()) && (ok ==> need <= streams[k].cap)
      ensures streams[k].size == old(streams[k].size) && streams[k].pos == old(streams[k].pos)
      ensures !ok ==> off == old(off)
      ensures streams[k].taken - old(streams[k].taken) == off - old(off) >= 0
      ensures Layouts() == old(Layouts())[k := streams[k].View()]
    {
      hide SoundLayouts, Sound, NewCap, Patched, FileOf, FilesOf, Round16, Bumped, IsCap, BookOf;
      hide CanHold, Ensured;
      BookAt(Layouts(), off, k);
      EnsuredIs(Books(), k, need);
      assert Layouts() == Layouts()[k := streams[k].View()];
      var s := streams[k];
      if need <= s.cap {
        return true;
      }
      ghost var ls, bytes, was := Layouts(), arena[..], off;
      SoundAt(ls, off, k);
      var ncap := GrowCap(s.cap, need);
      var nb := ArenaAlloc(ncap);
      if nb == None {
        return false;
      }
      Aligned(Layouts(), off);
      PatchNothing(bytes, was);
      if s.cap != 0 && s.size != 0 {
        Patch(arena, nb.value, arena[s.buf..s.buf + s.size]);
      }
      s.buf, s.cap, s.taken := nb.value, ncap, s.taken + ncap;
      Moved(ls, was, off, bytes, arena[..], k, s.View());
      assert Layouts() == ls[k := s.View()];
      BookChanged(ls, was, k, s.View(), off);
      ok := true;
    }

    static lemma {:induction false} SoundAt(ls: seq<Layout>, off: nat, k: nat)
      requires SoundLayouts(ls, off) && k < |ls|
      ensures Sound(ls[k], off) && off <= ARENA && off % 16 == 0
      ensures ls[k].size <= ls[k].cap && ls[k].pos < HALF64
      ensures ls[k].cap > 0 ==> IsCap(ls[k].cap) && ls[k].buf + ls[k].cap <= off
    {
    }

    /** A stream moved to a larger buffer just taken, its bytes copied, is the same file. */
    static lemma {:induction false} Moved(ls: seq<Layout>, was: nat, off: nat, bytes: seq<Byte>, now: seq<Byte>, k: nat,
            l: Layout)
      requires SoundLayouts(ls, was) && k < |ls| && |bytes| == ARENA && off <= ARENA && off % 16 == 0
      requires var o := ls[k];
               && l.at == o.at && l.size == o.size && l.pos == o.pos && l.taken == o.taken + l.cap
               && l.buf == was && was + l.cap <= off && IsCap(l.cap) && l.cap > 0 && 2 * o.cap <= l.cap
               && now == Patched(bytes, was, Bytes(o, bytes))
      ensures SoundLayouts(ls[k := l], off) && FilesOf(ls[k := l], now) == FilesOf(ls, bytes)
    {
      hide IsCap, Patched, SoundLayouts, FileOf;
      SoundAt(ls, was, k);
      CapAtLeast(l.cap);
      LayoutChanged(ls, was, off, k, l);
      OtherFilesKept(ls, was, bytes, was, Bytes(ls[k], bytes), k);
      SameFile(ls[k], l, bytes, now);
      var f, g := FilesOf(ls, bytes), FilesOf(ls[k := l], now);
      forall i | 0 <= i < |ls| ensures f[i] == g[i] {
      }
    }

    static lemma {:induction false} CapAtLeast(c: nat)
      requires IsCap(c)
      ensures FIRST_CAP <= c
    {
      var k: nat :| c == Cap(k);
      CapsRise(0, k);
    }

    static lemma {:induction false} SameFile(o: Layout, l: Layout, bytes: seq<Byte>, now: seq<Byte>)
      requires l.size == o.size && l.pos == o.pos && l.buf + l.size <= |bytes|
      requires o.size > 0 ==> o.buf + o.size <= |bytes|
      requires now == Patched(bytes, l.buf, Bytes(o, bytes))
      ensures FileOf(l, now) == FileOf(o, bytes)
    {
    }

    // ---- the calls --------------------------------------------------------

    /** What the runtime assumes of a call: a stream it handed out, and requests and positions up to 2^63. */
    predicate Admissible(call: Call)
      reads this, streams
    {
      match call
      case New => true
      case Read(i, _) => i < |streams|
      case Write(i, data) => i < |streams| && |data| < 0x1_0000_0000 && streams[i].pos + |data| <= HALF64
      case Seek(i, move, origin) => i < |streams| && streams[i].Base(origin) + move < HALF64
      case SetSize(i, size) => i < |streams| && size <= HALF64
      case CopyTo(i, target, most) =>
        && i < |streams|
        && (target.Some? ==>
              && target.value < |streams|
              && streams[target.value].pos + streams[i].OfferSize(most) <= HALF64)
      case Clone(i) => i < |streams|
      case TaskAlloc(most) => Fair(off, most)
    }

    /** CreateStreamOnHGlobal's object: empty, no buffer. */
    method NewStream() returns (r: Result)
      requires Valid()
      modifies `off, `streams
      ensures Valid() && Step(old(Files()), New, r, Files())
      ensures r.code == Ok <==> old(off) + STREAM_SIZE <= ARENA
      ensures old(streams) <= streams && r.count == |old(streams)|
      ensures r.code == Ok ==> |streams| == |old(streams)| + 1 && fresh(streams[|old(streams)|])
      ensures r.code == Ok ==> var s := streams[|old(streams)|]; s.cap == s.size == s.taken == 0
      ensures r.code != Ok ==> streams == old(streams)
      ensures if r.code == Ok
              then Layouts() == old(Layouts()) + [Layout(old(off), 0, 0, 0, 0, 0)] && off == old(off) + STREAM_SIZE
              else off == old(off)
      ensures Accounted(old(Files()), old(Books()), New, r, Books())
    {
      hide SoundLayouts, FileOf;
      ghost var ls, was := Layouts(), off;
      Aligned(ls, was);
      assert Fair(was, STREAM_SIZE) && Round16(STREAM_SIZE) == STREAM_SIZE;
      var at := ArenaAlloc(STREAM_SIZE);
      if at == None {
        return Result(OutOfMemory, [], |streams|);
      }
      Aligned(Layouts(), off);
      LayoutAdded(ls, was, off);
      var s := new Stream(at.value);
      r := Result(Ok, [], |streams|);
      streams := streams + [s];
      assert Layouts() == ls + [Layout(was, 0, 0, 0, 0, 0)];
      BookAdded(ls, was, Layout(was, 0, 0, 0, 0, 0), off);
      FileAdded(ls, Layout(was, 0, 0, 0, 0, 0), arena[..]);
    }

    static lemma {:induction false} FileAdded(ls: seq<Layout>, l: Layout, bytes: seq<Byte>)
      ensures FilesOf(ls + [l], bytes) == FilesOf(ls, bytes) + [FileOf(l, bytes)]
      ensures l.size == 0 ==> FileOf(l, bytes) == File([], l.pos)
    {
    }

    /** A changed layout over unchanged bytes changes one file. */
    static lemma {:induction false} FileChanged(ls: seq<Layout>, k: nat, l: Layout, bytes: seq<Byte>)
      requires k < |ls|
      ensures FilesOf(ls[k := l], bytes) == FilesOf(ls, bytes)[k := FileOf(l, bytes)]
    {
      hide FileOf;
    }

    /** The bytes a read or a copy takes from the position on. */
    method Offer(k: nat, cb: nat) returns (data: seq<Byte>)
      requires Valid() && k < |streams|
      ensures data == Available(Files()[k], cb) && |data| <= cb && |data| <= ARENA
      ensures streams[k].pos + 2 * |data| < HALF64
      ensures |data| == streams[k].OfferSize(cb)
    {
      hide SoundLayouts, FileOf, FilesOf, Available;
      var s := streams[k];
      ghost var ls := Layouts();
      SoundAt(ls, off, k);
      FileAt(ls, k, arena[..]);
      LengthOf(ls[k], off, arena[..]);
      var n := s.OfferSize(cb);
      Offered(Files()[k], cb, n);
      data := [];
      if n != 0 {
        FileSlice(ls[k], arena[..], n);
        data := arena[s.buf + s.pos..s.buf + s.pos + n];
      }
    }

    /** The bytes at `at` belong to no stream: task memory, or past all that is taken. */
    ghost predicate OutsideStreams(at: nat, n: nat)
      reads this, streams
    {
      forall l :: l in Layouts() ==> Disjoint(at, n, l.buf, l.cap) && Disjoint(at, n, l.at, STREAM_SIZE)
    }

    /** Reads into `pv` from `at` on, which may be a block of task memory in the arena itself. */
    method Read(k: nat, pv: array<Byte>, at: nat, cb: U32) returns (r: Result)
      requires Valid() && k < |streams| && at + cb <= pv.Length && (pv == arena ==> OutsideStreams(at, cb))
      modifies pv, streams[k]
      ensures Valid() && Step(old(Files()), Call.Read(k, cb), r, Files())
      ensures pv[..] == Patched(old(pv[..]), at, r.data)
      ensures Accounted(old(Files()), old(Books()), Call.Read(k, cb), r, Books())
    {
      hide SoundLayouts, Patched, FileOf, FilesOf, Available, BookOf, IsCap;
      var s := streams[k];
      ghost var ls, bytes := Layouts(), arena[..];
      var data := Offer(k, cb);
      SoundAt(ls, off, k);
      Patch(pv, at, data);
      if pv == arena {
        AllSound(ls, off);
        PartOutside(ls, at, cb, |data|);
        TaskBytesKept(ls, bytes, at, data);
      }
      Positioned(ls, off, arena[..], k, s.pos + |data|);
      s.pos := s.pos + |data|;
      assert Layouts() == ls[k := s.View()];
      BookChanged(ls, off, k, s.View(), off);
      r := Result(if |data| == cb then Ok else Short, data, |data|);
    }

    static lemma {:induction false} AllSound(ls: seq<Layout>, off: nat)
      requires SoundLayouts(ls, off)
      ensures forall i :: 0 <= i < |ls| ==>
                ls[i].size <= ls[i].cap && (ls[i].size > 0 ==> ls[i].buf + ls[i].cap <= ARENA)
    {
      forall i | 0 <= i < |ls|
        ensures ls[i].size <= ls[i].cap && (ls[i].size > 0 ==> ls[i].buf + ls[i].cap <= ARENA)
      {
        assert Sound(ls[i], off);
      }
    }

    static lemma {:induction false} PartOutside(ls: seq<Layout>, at: nat, n: nat, m: nat)
      requires m <= n && forall l :: l in ls ==> Disjoint(at, n, l.buf, l.cap) && Disjoint(at, n, l.at, STREAM_SIZE)
      ensures forall i :: 0 <= i < |ls| ==> Disjoint(at, m, ls[i].buf, ls[i].cap)
    {
      forall i | 0 <= i < |ls| ensures Disjoint(at, m, ls[i].buf, ls[i].cap) {
        assert ls[i] in ls;
      }
    }

    method Seek(k: nat, move: int, origin: U32) returns (r: Result)
      requires Valid() && Admissible(Call.Seek(k, move, origin))
      modifies streams[k]
      ensures Valid() && Step(old(Files()), Call.Seek(k, move, origin), r, Files())
      ensures Accounted(old(Files()), old(Books()), Call.Seek(k, move, origin), r, Books())
    {
      hide SoundLayouts, FileOf, FilesOf, BookOf;
      var s := streams[k];
      ghost var ls := Layouts();
      SoundAt(ls, off, k);
      FileAt(ls, k, arena[..]);
      LengthOf(ls[k], off, arena[..]);
      var np := s.Base(origin) + move;
      if np < 0 {
        return Result(InvalidArg, [], 0);
      }
      Positioned(ls, off, arena[..], k, np);
      s.pos := np;
      assert Layouts() == ls[k := s.View()];
      BookChanged(ls, off, k, s.View(), off);
      r := Result(Ok, [], np);
    }

    /** Fails, changing no file, exactly when a larger buffer is needed and the arena has no room for it. */
    method SetSize(k: nat, newsize: U64) returns (r: Result)
      requires Valid() && Admissible(Call.SetSize(k, newsize))
      modifies `off, arena, streams[k]
      ensures Valid() && Step(old(Files()), Call.SetSize(k, newsize), r, Files())
      ensures r.code == Ok <==> CanHold(old(Books()), k, newsize)
      ensures Accounted(old(Files()), old(Books()), Call.SetSize(k, newsize), r, Books())
    {
      hide SoundLayouts, NewCap, Round16, FilesOf, FileOf, Resized, BookOf, CanHold, Ensured;
      var s := streams[k];
      var ok := StreamEnsure(k, newsize);
      if !ok {
        return Result(OutOfMemory, [], 0);
      }
      ghost var ls := Layouts();
      ResizedFile(ls, off, arena[..], k, newsize);
      s.size := newsize;
      assert Layouts() == ls[k := s.View()];
      BookChanged(ls, off, k, s.View(), off);
      r := Result(Ok, [], 0);
    }

    static lemma {:induction false} ResizedFile(ls: seq<Layout>, off: nat, bytes: seq<Byte>, k: nat, size: nat)
      requires SoundLayouts(ls, off) && k < |ls| && size <= ls[k].cap && |bytes| == ARENA
      ensures var l := ls[k].(size := size); var f := FilesOf(ls, bytes);
              && SoundLayouts(ls[k := l], off)
              && Resized(f[k], size, FileOf(l, bytes)) && FilesOf(ls[k := l], bytes) == f[k := FileOf(l, bytes)]
    {
      hide SoundLayouts, FilesOf;
      var l := ls[k].(size := size);
      SoundAt(ls, off, k);
      SoundResized(ls[k], off, size);
      LayoutChanged(ls, off, off, k, l);
      FileChanged(ls, k, l, bytes);
      FileAt(ls, k, bytes);
    }

    static lemma {:induction false} SoundResized(l: Layout, off: nat, size: nat)
      requires Sound(l, off) && size <= l.cap
      ensures Sound(l.(size := size), off)
    {
    }

    /** Fails, changing no file, exactly when a larger buffer is needed and the arena has no room for it. */
    method Write(k: nat, data: seq<Byte>) returns (r: Result)
      requires Valid() && Admissible(Call.Write(k, data))
      modifies `off, arena, streams[k]
      ensures Valid() && Step(old(Files()), Call.Write(k, data), r, Files())
      ensures r.code == Ok <==> data == [] || CanHold(old(Books()), k, old(streams[k].pos) + |data|)
      ensures streams[k].pos <= old(streams[k].pos) + |data|
      ensures streams[k].taken - old(streams[k].taken) == off - old(off) >= 0
      ensures Layouts() == old(Layouts())[k := streams[k].View()]
      ensures Accounted(old(Files()), old(Books()), Call.Write(k, data), r, Books())
    {
      hide SoundLayouts, NewCap, Round16, Patched, FileOf, FilesOf, Wrote, BookOf, IsCap, CanHold, Ensured;
      var s := streams[k];
      ghost var f := Files();
      ghost var before := Layouts();
      assert before == before[k := s.View()];
      FileAt(before, k, arena[..]);
      if |data| != 0 {
        var ok := StreamEnsure(k, s.pos + |data|);
        if !ok {
          return Result(OutOfMemory, [], 0);
        }
        ghost var ls, bytes := Layouts(), arena[..];
        SoundAt(ls, off, k);
        Patch(arena, s.buf + s.pos, data);
        s.pos := s.pos + |data|;
        if s.pos > s.size {
          s.size := s.pos;
        }
        Stored(ls, off, bytes, arena[..], k, data, s.View());
        assert Layouts() == ls[k := s.View()] == before[k := s.View()];
        BookChanged(ls, off, k, s.View(), off);
      } else {
        NothingWrote(f[k]);
        assert f == f[k := f[k]];
      }
      r := Result(Ok, [], |data|);
    }

    static lemma {:induction false} NothingWrote(f: File)
      ensures Wrote(f, [], f)
    {
    }

    static lemma {:induction false} Stored(ls: seq<Layout>, off: nat, bytes: seq<Byte>, now: seq<Byte>, k: nat,
            data: seq<Byte>, l: Layout)
      requires SoundLayouts(ls, off) && k < |ls| && |bytes| == ARENA && data != []
      requires var o := ls[k]; var end := o.pos + |data|;
               && end <= o.cap && o.buf + o.cap <= ARENA && now == Patched(bytes, o.buf + o.pos, data)
               && l == o.(pos := end, size := if end > o.size then end else o.size)
      ensures SoundLayouts(ls[k := l], off)
      ensures var f, g := FilesOf(ls, bytes), FilesOf(ls[k := l], now);
              Wrote(f[k], data, g[k]) && g == f[k := g[k]]
    {
      hide SoundLayouts, FileOf, Wrote, Patched;
      SoundAt(ls, off, k);
      SoundStored(ls[k], off, l);
      LayoutChanged(ls, off, off, k, l);
      OtherFilesKept(ls, off, bytes, ls[k].buf + ls[k].pos, data, k);
      FileWrote(ls[k], bytes, data, l);
      var f, g := FilesOf(ls, bytes), FilesOf(ls[k := l], now);
      forall i | 0 <= i < |ls| ensures g[i] == f[k := g[k]][i] {
      }
    }

    static lemma {:induction false} SoundStored(o: Layout, off: nat, l: Layout)
      requires Sound(o, off) && l == o.(pos := l.pos, size := l.size) && l.size <= o.cap && l.pos <= o.cap
      requires off <= ARENA
      ensures Sound(l, off)
    {
    }

    static lemma {:induction false} FileWrote(o: Layout, bytes: seq<Byte>, data: seq<Byte>, l: Layout)
      requires data != [] && o.size <= o.cap && o.pos + |data| <= o.cap && o.buf + o.cap <= |bytes|
      requires var end := o.pos + |data|; l == o.(pos := end, size := if end > o.size then end else o.size)
      ensures Wrote(FileOf(o, bytes), data, FileOf(l, Patched(bytes, o.buf + o.pos, data)))
    {
      hide Patched;
      var now := Patched(bytes, o.buf + o.pos, data);
      var f, g := FileOf(o, bytes), FileOf(l, now);
      PatchBytes(bytes, o.buf + o.pos, data);
      SliceOfSlice(now, l.buf, l.buf + l.size, o.pos, l.pos);
      forall k | 0 <= k < |f.content| && !(f.pos <= k < l.pos) ensures g.content[k] == f.content[k] {
        assert g.content[k] == now[l.buf + k] && f.content[k] == bytes[o.buf + k];
      }
    }

    static lemma {:induction false} PatchBytes(bytes: seq<Byte>, at: nat, data: seq<Byte>)
      requires at + |data| <= |bytes|
      ensures var now := Patched(bytes, at, data);
              && now[at..at + |data|] == data
              && forall j :: 0 <= j < |bytes| && !(at <= j < at + |data|) ==> now[j] == bytes[j]
    {
    }

    /** Bytes of a stream's file are bytes of its buffer. */
    static lemma {:induction false} FileSlice(l: Layout, bytes: seq<Byte>, n: nat)
      requires l.size > 0 && l.buf + l.size <= |bytes| && l.pos < l.size && n == Min(n, l.size - l.pos)
      ensures bytes[l.buf + l.pos..l.buf + l.pos + n] == Available(FileOf(l, bytes), n)
    {
      SliceOfSlice(bytes, l.buf, l.buf + l.size, l.pos, l.pos + n);
    }

    /** A position set within what can be addressed. */
    static lemma {:induction false} Positioned(ls: seq<Layout>, off: nat, bytes: seq<Byte>, k: nat, to: nat)
      requires SoundLayouts(ls, off) && k < |ls| && to < HALF64
      ensures FilesOf(ls, bytes)[k].pos == ls[k].pos
      ensures var l := ls[k].(pos := to);
              && SoundLayouts(ls[k := l], off)
              && FilesOf(ls[k := l], bytes) == FilesOf(ls, bytes)[k := FilesOf(ls, bytes)[k].(pos := to)]
    {
      hide SoundLayouts, FilesOf;
      var l := ls[k].(pos := to);
      SoundAt(ls, off, k);
      LayoutChanged(ls, off, off, k, l);
      FileChanged(ls, k, l, bytes);
      FileAt(ls, k, bytes);
    }

    static lemma {:induction false} FileAt(ls: seq<Layout>, k: nat, bytes: seq<Byte>)
      requires k < |ls|
      ensures FilesOf(ls, bytes)[k] == FileOf(ls[k], bytes) && FilesOf(ls, bytes)[k].pos == ls[k].pos
    {
    }

    static lemma {:induction false} LengthOf(l: Layout, off: nat, bytes: seq<Byte>)
      requires Sound(l, off) && off <= ARENA == |bytes|
      ensures |FileOf(l, bytes).content| == l.size && FileOf(l, bytes).pos == l.pos
    {
    }

    /** A file written onto itself from where it is read only moves on. */
    static lemma {:induction false} WroteItself(f: File, cb: nat, g: File)
      requires Available(f, cb) != [] && Wrote(f, Available(f, cb), g)
      ensures g == Advance(f, |Available(f, cb)|)
    {
      var data := Available(f, cb);
      forall k | 0 <= k < |f.content| ensures g.content[k] == f.content[k] {
        if f.pos <= k < f.pos + |data| {
          assert g.content[k] == g.content[f.pos..f.pos + |data|][k - f.pos] == data[k - f.pos];
          assert data[k - f.pos] == f.content[k];
        }
      }
    }

    /** The source moves on by what it offered; the target takes that exactly if it can hold it. */
    method CopyTo(k: nat, target: Option<nat>, cb: U64) returns (r: Result)
      requires Valid() && Admissible(Call.CopyTo(k, target, cb))
      modifies `off, arena, streams[k], if target.Some? then {streams[target.value]} else {}
      ensures Valid() && Step(old(Files()), Call.CopyTo(k, target, cb), r, Files())
      ensures r.count == if Takes(old(Files()), old(Books()), k, target, cb) then |r.data| else 0
      ensures Accounted(old(Files()), old(Books()), Call.CopyTo(k, target, cb), r, Books())
    {
      hide SoundLayouts, NewCap, FileOf, FilesOf, Wrote, Available, Step, BookOf, Round16, IsCap, CanHold, Accounted;
      var s := streams[k];
      ghost var f, books := Files(), Books();
      var data := Offer(k, cb);
      var w := Result(Ok, [], 0);
      if data != [] && target.Some? {
        w := Write(target.value, data);
        if target.value == k {
          OwnBytesFit(old(Layouts()), old(off), old(arena[..]), k, cb);
        }
      }
      ghost var ls := Layouts();
      SoundAt(ls, off, k);
      CopyStep(f, Files(), k, target, cb, w);
      CopyAccounted(f, books, k, target, cb, w, Files(), Books());
      Positioned(ls, off, arena[..], k, s.pos + |data|);
      s.pos := s.pos + |data|;
      assert Layouts() == ls[k := s.View()];
      BookChanged(ls, off, k, s.View(), off);
      r := Result(Ok, data, w.count);
    }

    /** What a stream offers lies within its capacity. */
    static lemma {:induction false} OwnBytesFit(ls: seq<Layout>, off: nat, bytes: seq<Byte>, k: nat, cb: nat)
      requires SoundLayouts(ls, off) && k < |ls| && |bytes| == ARENA
      requires Available(FilesOf(ls, bytes)[k], cb) != []
      ensures ls[k].pos + |Available(FilesOf(ls, bytes)[k], cb)| <= ls[k].cap
      ensures CanHold(BookOf(ls, off), k, ls[k].pos + |Available(FilesOf(ls, bytes)[k], cb)|)
    {
      hide FilesOf, FileOf;
      SoundAt(ls, off, k);
      FileAt(ls, k, bytes);
      LengthOf(ls[k], off, bytes);
    }

    /** A copy is accounted for as the write to its target is. */
    static lemma {:induction false} CopyAccounted(f: seq<File>, a: Book, k: nat, target: Option<nat>, cb: U64,
            w: Result, mid: seq<File>, b: Book)
      requires k < |f| == |a.accounts| && (target.Some? ==> target.value < |f|)
      requires var data := Available(f[k], cb);
               if target.Some? && data != [] then
                 && Step(f, Call.Write(target.value, data), w, mid)
                 && Accounted(f, a, Call.Write(target.value, data), w, b)
               else w.count == 0 && b == a
      ensures var r := Result(Ok, Available(f[k], cb), w.count);
              && Accounted(f, a, Call.CopyTo(k, target, cb), r, b)
              && r.count == if Takes(f, a, k, target, cb) then |r.data| else 0
    {
      hide Available, CanHold, Ensured, Wrote;
    }

    static lemma {:induction false} CopyStep(f: seq<File>, mid: seq<File>, k: nat, target: Option<nat>, cb: U64,
            w: Result)
      requires k < |f| == |mid|
      requires var data := Available(f[k], cb);
               if target.Some? && data != [] then
                 && target.value < |f| && Step(f, Call.Write(target.value, data), w, mid)
                 && (target.value == k ==> w.code == Ok)
               else mid == f && w.count == 0
      ensures var data := Available(f[k], cb);
              Step(f, Call.CopyTo(k, target, cb), Result(Ok, data, w.count), mid[k := Advance(mid[k], |data|)])
    {
      hide Available, Wrote;
      var data := Available(f[k], cb);
      if target.Some? && data != [] {
        if target.value == k {
          WroteItself(f[k], cb, mid[k]);
        }
      }
    }

    static lemma {:induction false} Offered(f: File, cb: nat, n: nat)
      requires n == Min(cb, if f.pos < |f.content| then |f.content| - f.pos else 0)
      ensures |Available(f, cb)| == n && Available(f, n) == Available(f, cb)
    {
    }

    /** A stream with a copy of the bytes and the same position; every other file is as before. */
    method Clone(k: nat) returns (r: Result)
      requires Valid() && k < |streams|
      modifies `off, `streams, arena
      ensures Valid() && Step(old(Files()), Call.Clone(k), r, Files())
      ensures old(streams) <= streams && forall i :: |old(streams)| <= i < |streams| ==> fresh(streams[i])
      ensures r.code == Ok <==> CanClone(old(Books()), |old(Files())[k].content|)
      ensures Accounted(old(Files()), old(Books()), Call.Clone(k), r, Books())
    {
      hide SoundLayouts, NewCap, Patched, FileOf, FilesOf, BookOf, Round16, IsCap, CanHold, Ensured, CanClone;
      hide Step, Accounted, Sound;
      var s := streams[k];
      ghost var f, books := Files(), Books();
      ghost var start := Layouts();
      SoundAt(start, off, k);
      FileAt(start, k, arena[..]);
      LengthOf(start[k], off, arena[..]);
      var made := NewStream();
      Made(f, books, made, Files(), Books());
      if made.code != Ok {
        assert Layouts() == start;
        NoneCloned(f, books, k, made);
        return made;
      }
      LastSet(f, File([], 0), k);
      var c := streams[made.count];
      if s.size != 0 {
        var ok := Duplicate(k);
        if !ok {
          ghost var ls := Layouts();
          Dropped(ls, off, arena[..]);
          streams := streams[..made.count];
          assert Layouts() == ls[..|ls| - 1] == start;
          assert Books() == Book(Opened(books).off, books.accounts);
          CloneAccounted(f, books, k, false, Books());
          return Result(OutOfMemory, [], 0);
        }
        assert Layouts() == start + [c.View()];
      } else {
        ghost var ls := Layouts();
        Repositioned(ls, off, arena[..], k, c.View().(pos := s.pos));
        c.pos := s.pos;
        assert Layouts() == ls[made.count := c.View()] == start + [c.View()];
        BookChanged(ls, off, made.count, c.View(), off);
      }
      CloneAccounted(f, books, k, true, Books());
      r := Result(Ok, [], made.count);
    }

    static lemma {:induction false} Made(f: seq<File>, a: Book, r: Result, g: seq<File>, b: Book)
      requires Step(f, New, r, g) && Accounted(f, a, New, r, b)
      ensures if r.code == Ok then g == f + [File([], 0)] && a.off + STREAM_SIZE <= ARENA && b == Opened(a)
              else g == f && r.code == OutOfMemory && b == a
      ensures |f| == |a.accounts|
    {
    }

    static lemma {:induction false} LastSet(f: seq<File>, last: File, k: nat)
      requires k < |f|
      ensures var g := f + [last]; g[|f| := g[k]] == f + [f[k]]
    {
    }

    static lemma {:induction false} NoneCloned(f: seq<File>, a: Book, k: nat, r: Result)
      requires k < |f| && Accounted(f, a, New, r, a) && r.code != Ok
      ensures !CanClone(a, |f[k].content|) && Accounted(f, a, Call.Clone(k), r, a)
      ensures r.code == OutOfMemory ==> Step(f, Call.Clone(k), r, f)
    {
    }

    /** With an object made, a clone is accounted for as making room for the bytes is. */
    static lemma {:induction false} CloneAccounted(f: seq<File>, a: Book, k: nat, ok: bool, b: Book)
      requires k < |f| == |a.accounts| && a.off + STREAM_SIZE <= ARENA
      requires var (n, size) := (|f|, |f[k].content|);
               if size == 0 then ok && b == Opened(a)
               else
                 && ok == CanHold(Opened(a), n, size)
                 && b == if ok then Ensured(Opened(a), n, size) else Book(Opened(a).off, a.accounts)
      ensures ok == CanClone(a, |f[k].content|)
      ensures forall r: Result :: (r.code == Ok <==> ok) ==> Accounted(f, a, Call.Clone(k), r, b)
      ensures forall r: Result :: r.code == Ok ==> Step(f, Call.Clone(k), r, f + [f[k]])
      ensures forall r: Result :: r.code == OutOfMemory ==> Step(f, Call.Clone(k), r, f)
    {
      hide CanHold, Ensured;
    }

    /** Makes the last stream, a new one, a copy of the k-th if there is room. */
    method Duplicate(k: nat) returns (ok: bool)
      requires Valid() && k + 1 < |streams| && 0 < streams[k].size && streams[|streams| - 1].cap == 0
      modifies `off, arena, streams[|streams| - 1]
      ensures Valid() && off - old(off) == streams[|streams| - 1].taken - old(streams[|streams| - 1].taken)
      ensures Layouts() == old(Layouts())[|streams| - 1 := streams[|streams| - 1].View()]
      ensures if ok then Files() == old(Files())[|streams| - 1 := old(Files())[k]]
              else Files() == old(Files()) && off == old(off)
      ensures ok == CanHold(old(Books()), |streams| - 1, streams[k].size)
      ensures Books() == if ok then Ensured(old(Books()), |streams| - 1, streams[k].size) else old(Books())
    {
      hide SoundLayouts, FilesOf, NewCap, Round16, IsCap, CanHold, BookOf;
      ghost var start := Layouts();
      SoundAt(start, off, k);
      ok := StreamEnsure(|streams| - 1, streams[k].size);
      if ok {
        Fill(k);
        assert Layouts() == start[|streams| - 1 := streams[|streams| - 1].View()];
      }
    }

    /** Copies the k-th stream's bytes, size and position into the last stream, which has room for them. */
    method Fill(k: nat)
      requires Valid() && k + 1 < |streams| && 0 < streams[k].size <= streams[|streams| - 1].cap
      modifies arena, streams[|streams| - 1]
      ensures Valid() && Files() == old(Files())[|streams| - 1 := old(Files())[k]]
      ensures Layouts() == old(Layouts())[|streams| - 1 := streams[|streams| - 1].View()]
      ensures streams[|streams| - 1].taken == old(streams[|streams| - 1].taken) && Books() == old(Books())
    {
      hide SoundLayouts, Patched, FileOf, FilesOf, Sound, IsCap, BookOf;
      var s, c := streams[k], streams[|streams| - 1];
      ghost var ls, bytes := Layouts(), arena[..];
      SoundAt(ls, off, k);
      SoundAt(ls, off, |ls| - 1);
      Patch(arena, c.buf, arena[s.buf..s.buf + s.size]);
      c.size := s.size;
      c.pos := s.pos;
      Copied(ls, off, bytes, k, c.View());
      assert Layouts() == ls[|ls| - 1 := c.View()];
      BookChanged(ls, off, |ls| - 1, c.View(), off);
    }

    /** An object that is not handed out is forgotten. */
    static lemma {:induction false} Dropped(ls: seq<Layout>, off: nat, bytes: seq<Byte>)
      requires SoundLayouts(ls, off) && ls != []
      ensures SoundLayouts(ls[..|ls| - 1], off) && FilesOf(ls[..|ls| - 1], bytes) == FilesOf(ls, bytes)[..|ls| - 1]
      ensures BookOf(ls[..|ls| - 1], off) == Book(off, BookOf(ls, off).accounts[..|ls| - 1])
    {
      hide Sound, Separate, FileOf;
    }

    /** The last stream, given a copy of the bytes of the k-th. */
    static lemma {:induction false} Copied(ls: seq<Layout>, off: nat, bytes: seq<Byte>, k: nat, l: Layout)
      requires SoundLayouts(ls, off) && k + 1 < |ls| && |bytes| == ARENA && ls[k].size > 0
      requires var o := ls[|ls| - 1]; l == o.(pos := ls[k].pos, size := ls[k].size) && ls[k].size <= o.cap
      ensures var now := Patched(bytes, l.buf, Bytes(ls[k], bytes)); var last := |ls| - 1;
              && SoundLayouts(ls[last := l], off)
              && FilesOf(ls[last := l], now) == FilesOf(ls, bytes)[last := FilesOf(ls, bytes)[k]]
    {
      hide SoundLayouts, Patched, FileOf, IsCap;
      var last, data := |ls| - 1, Bytes(ls[k], bytes);
      SoundAt(ls, off, k);
      SoundAt(ls, off, last);
      LayoutChanged(ls, off, off, last, l);
      OtherFilesKept(ls, off, bytes, l.buf, data, last);
      SameFile(ls[k], l, bytes, Patched(bytes, l.buf, data));
    }

    static lemma {:induction false} Repositioned(ls: seq<Layout>, off: nat, bytes: seq<Byte>, k: nat, l: Layout)
      requires SoundLayouts(ls, off) && k + 1 < |ls| && |bytes| == ARENA && ls[k].size == 0
      requires var o := ls[|ls| - 1]; l == o.(pos := ls[k].pos) && o.size == 0
      ensures var last := |ls| - 1;
              && SoundLayouts(ls[last := l], off)
              && FilesOf(ls[last := l], bytes) == FilesOf(ls, bytes)[last := FilesOf(ls, bytes)[k]]
    {
      hide SoundLayouts, FilesOf, IsCap;
      SoundAt(ls, off, k);
      SoundAt(ls, off, |ls| - 1);
      LayoutChanged(ls, off, off, |ls| - 1, l);
      FileChanged(ls, |ls| - 1, l, bytes);
      FileAt(ls, k, bytes);
    }

    /** CoTaskMemAlloc: for a fair request, bytes apart from every stream's. */
    method CoTaskMemAlloc(most: U64) returns (r: Result)
      requires Valid()
      modifies `off
      ensures Accounted(old(Files()), old(Books()), TaskAlloc(most), r, Books())
      ensures r.code == Ok <==> Bumped(old(off), most).Some?
      ensures off == if r.code == Ok then Bumped(old(off), most).value else old(off)
      ensures Fair(old(off), most) ==>
                && Valid() && Step(old(Files()), TaskAlloc(most), r, Files())
                && (r.code == Ok ==> OutsideStreams(r.count, most))
    {
      hide SoundLayouts, Round16, Bumped;
      ghost var ls, was := Layouts(), off;
      var p := ArenaAlloc(most);
      if p == None {
        return Result(OutOfMemory, [], 0);
      }
      forall l | l in Layouts() ensures Disjoint(was, most, l.buf, l.cap) && Disjoint(was, most, l.at, STREAM_SIZE) {
        var i :| 0 <= i < |ls| && ls[i] == l;
        SoundAt(ls, was, i);
      }
      r := Result(Ok, [], p.value);
    }

    // ---- runs -------------------------------------------------------------

    method Perform(call: Call) returns (r: Result)
      requires Valid() && Admissible(call)
      modifies this, arena, streams
      ensures Valid() && Step(old(Files()), call, r, Files())
      ensures old(streams) <= streams && forall i :: |old(streams)| <= i < |streams| ==> fresh(streams[i])
      ensures Accounted(old(Files()), old(Books()), call, r, Books()) && Charged(old(Books()), call, Books())
    {
      hide SoundLayouts, Step, FileOf, FilesOf, NewCap, Round16, Charged, Patched, Bumped, Accounted, BookOf;
      ghost var f, books := Files(), Books();
      Aligned(Layouts(), off);
      match call {
      case New => r := NewStream();
      case Read(i, cb) =>
        var pv := new Byte[cb](_ => 0);
        r := Read(i, pv, 0, cb);
      case Write(i, data) => r := Write(i, data);
      case Seek(i, move, origin) => r := Seek(i, move, origin);
      case SetSize(i, size) => r := SetSize(i, size);
      case CopyTo(i, target, most) => r := CopyTo(i, target, most);
      case Clone(i) => r := Clone(i);
      case TaskAlloc(most) => r := CoTaskMemAlloc(most);
      }
      AccountedCharges(f, books, call, r, Books());
    }

    /**
     Makes the calls one after the other, up to the first that is not admissible: a run of byte files. Streams
     handed out stay; a call succeeds exactly if the arena has room for what it needs; the books account for
     every byte taken, and every stream has grown geometrically.
     */
    method Run(calls: seq<Call>)
      returns (done: nat, results: seq<Result>, ghost files: seq<seq<File>>, ghost books: seq<Book>)
      requires Valid()
      modifies this, arena, streams
      ensures Valid() && done <= |calls| && (done == |calls| || !Admissible(calls[done]))
      ensures Trace(files, calls[..done], results) && files[0] == old(Files()) && files[done] == Files()
      ensures old(streams) <= streams && AllAccounted(files, books, calls[..done], results)
      ensures Accounts(books, calls[..done]) && books[0] == old(Books()) && books[done] == Books()
      ensures forall s :: s in streams ==> GrewGeometrically(s)
    {
      hide Step, FileOf, FilesOf, SoundLayouts, Admissible, Charged, Accounted, GrewGeometrically, BookOf;
      done, results, files, books := 0, [], [Files()], [Books()];
      while done < |calls| && Admissible(calls[done])
        invariant Valid() && done <= |calls| && old(streams) <= streams
        invariant forall i :: |old(streams)| <= i < |streams| ==> fresh(streams[i])
        invariant Trace(files, calls[..done], results) && files[0] == old(Files()) && files[done] == Files()
        invariant AllAccounted(files, books, calls[..done], results)
        invariant Accounts(books, calls[..done]) && books[0] == old(Books()) && books[done] == Books()
        decreases |calls| - done
      {
        var r := Perform(calls[done]);
        TraceGrows(files, calls[..done], results, calls[done], r, Files());
        AccountsGrow(files, books, calls[..done], results, calls[done], r, Files(), Books());
        assert calls[..done + 1] == calls[..done] + [calls[done]];
        results, files, books, done := results + [r], files + [Files()], books + [Books()], done + 1;
      }
      forall s | s in streams ensures GrewGeometrically(s) {
        var i :| 0 <= i < |streams| && streams[i] == s;
        SoundGrew(i);
      }
    }

    lemma {:induction false} SoundGrew(k: nat)
      requires Valid() && k < |streams|
      ensures GrewGeometrically(streams[k])
    {
      SoundAt(Layouts(), off, k);
    }

    static lemma {:induction false} AccountsGrow(files: seq<seq<File>>, books: seq<Book>, calls: seq<Call>,
            results: seq<Result>, call: Call, r: Result, f: seq<File>, now: Book)
      requires Accounts(books, calls) && AllAccounted(files, books, calls, results)
      requires Charged(books[|calls|], call, now) && Accounted(files[|calls|], books[|calls|], call, r, now)
      ensures Accounts(books + [now], calls + [call])
      ensures AllAccounted(files + [f], books + [now], calls + [call], results + [r])
    {
      hide Charged, Accounted;
    }

    static lemma {:induction false} TraceGrows(files: seq<seq<File>>, calls: seq<Call>, results: seq<Result>,
            call: Call, r: Result, now: seq<File>)
      requires Trace(files, calls, results) && Step(files[|calls|], call, r, now)
      ensures Trace(files + [now], calls + [call], results + [r])
    {
      hide Step;
    }
  }
}
