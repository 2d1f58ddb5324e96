/** What an in-memory stream should be: a byte file of its own, with a position. */
module StreamFiles {
  import opened Words

  /** The bytes of a file and where the next call reads or writes; the position may lie past the end. */
  datatype File = File(content: seq<Byte>, pos: nat)

  datatype Code = Ok | Short | OutOfMemory | InvalidArg

  /** How a call ends: its code, the bytes it delivers or stores, the count or position it reports. */
  datatype Result = Result(code: Code, data: seq<Byte>, count: nat)

  /** Streams are named in the order they were made. */
  datatype Call =
    | New
    | Read(i: nat, cb: U32)
    | Write(i: nat, data: seq<Byte>)
    | Seek(i: nat, move: int, origin: U32)
    | SetSize(i: nat, size: U64)
    | CopyTo(i: nat, target: Option<nat>, most: U64)
    | Clone(i: nat)
    | TaskAlloc(most: U64)

  function Min(a: nat, b: nat): nat {
    if a < b then a else b
  }

  /** The bytes a read of `cb` delivers. */
  function Available(f: File, cb: nat): seq<Byte> {
    if f.pos >= |f.content| then [] else f.content[f.pos..f.pos + Min(cb, |f.content| - f.pos)]
  }

  function Advance(f: File, n: nat): File {
    f.(pos := f.pos + n)
  }

  /** Writing puts the data at the position, moves past it and keeps every other byte; a gap may hold anything. */
  predicate Wrote(f: File, data: seq<Byte>, g: File) {
    var end := f.pos + |data|;
    && g.pos == end
    && |g.content| == (if data == [] || end < |f.content| then |f.content| else end)
    && (data != [] ==> g.content[f.pos..end] == data)
    && forall k :: 0 <= k < |f.content| && !(f.pos <= k < end) ==> g.content[k] == f.content[k]
  }

  /** Resizing keeps the position and the common part; what a growth exposes may hold anything. */
  predicate Resized(f: File, n: nat, g: File) {
    && g.pos == f.pos && |g.content| == n
    && forall k :: 0 <= k < n && k < |f.content| ==> g.content[k] == f.content[k]
  }

  function SeekBase(f: File, origin: U32): nat {
    if origin == 1 then f.pos else if origin == 2 then |f.content| else 0
  }

  /** One call leads from the files `f` to the files `g`. */
  predicate Step(f: seq<File>, call: Call, r: Result, g: seq<File>) {
    match call
    case New =>
      if r.code == Ok then g == f + [File([], 0)] else r.code == OutOfMemory && g == f
    case Read(i, cb) =>
      && i < |f| && r.data == Available(f[i], cb) && r.count == |r.data|
      && g == f[i := Advance(f[i], |r.data|)]
      && r.code == (if r.count == cb then Ok else Short)
    case Write(i, data) =>
      && i < |f| == |g|
      && if r.code == Ok then r.count == |data| && Wrote(f[i], data, g[i]) && g == f[i := g[i]]
         else r.code == OutOfMemory && r.count == 0 && data != [] && g == f
    case Seek(i, move, origin) =>
      && i < |f|
      && var to := SeekBase(f[i], origin) + move;
         if to >= 0 then r.code == Ok && r.count == to && g == f[i := f[i].(pos := to)]
         else r.code == InvalidArg && g == f
    case SetSize(i, size) =>
      && i < |f| == |g|
      && if r.code == Ok then Resized(f[i], size, g[i]) && g == f[i := g[i]]
         else r.code == OutOfMemory && g == f
    case CopyTo(i, target, most) =>
      && i < |f| == |g| && r.code == Ok
      && var data := Available(f[i], most);
         && r.data == data
         && if target == None || data == [] then r.count == 0 && g == f[i := Advance(f[i], |data|)]
            else CopiedTo(f, i, target.value, data, r.count, g)
    case Clone(i) =>
      i < |f| && if r.code == Ok then g == f + [f[i]] else r.code == OutOfMemory && g == f
    case TaskAlloc(_) =>
      g == f
  }

  /** The source moves on whether or not the target could take the bytes; a stream copied to itself moves twice. */
  predicate CopiedTo(f: seq<File>, i: nat, j: nat, data: seq<Byte>, wrote: nat, g: seq<File>)
    requires i < |f| == |g|
  {
    && j < |f|
    && if i == j then wrote == |data| && g == f[i := Advance(f[i], 2 * |data|)]
       else if wrote == |data| then Wrote(f[j], data, g[j]) && g == f[i := Advance(f[i], |data|)][j := g[j]]
       else wrote == 0 && g == f[i := Advance(f[i], |data|)]
  }

  // ---- consequences -------------------------------------------------------

  /** The bytes `data` are what the file holds from its position on: `most` of them, or fewer at its end. */
  predicate Offered(f: File, most: nat, data: seq<Byte>) {
    && |data| <= most && (|data| < most ==> f.pos + |data| >= |f.content|)
    && (data != [] ==> f.pos + |data| <= |f.content| && f.content[f.pos..f.pos + |data|] == data)
  }

  /** A read delivers what the file holds from its position on, moves past it, and says if it came out short. */
  lemma {:induction false} ReadDelivers(f: seq<File>, i: nat, cb: U32, r: Result, g: seq<File>)
    requires Step(f, Call.Read(i, cb), r, g)
    ensures i < |f| && Offered(f[i], cb, r.data) && r.count == |r.data|
    ensures g == f[i := File(f[i].content, f[i].pos + |r.data|)]
    ensures r.code == Ok <==> |r.data| == cb
    ensures r.code == Short <==> |r.data| < cb
  {
  }

  /** A seek counts from the position for origin 1, from the end for origin 2, and else from the start. */
  lemma {:induction false} SeekMoves(f: seq<File>, i: nat, move: int, origin: U32, r: Result, g: seq<File>)
    requires Step(f, Call.Seek(i, move, origin), r, g)
    ensures i < |f|
    ensures var to := move + (match origin
                              case 1 => f[i].pos
                              case 2 => |f[i].content|
                              case _ => 0);
            && (to >= 0 ==> r.code == Ok && r.count == to && g == f[i := File(f[i].content, to)])
            && (to < 0 ==> r.code == InvalidArg && g == f)
  {
  }

  /** A copy offers what a read would, and moves its source past it, whatever the target takes. */
  lemma {:induction false} CopyOffers(f: seq<File>, i: nat, target: Option<nat>, most: U64, r: Result, g: seq<File>)
    requires Step(f, Call.CopyTo(i, target, most), r, g)
    ensures i < |f| == |g| && r.code == Ok && Offered(f[i], most, r.data)
    ensures target != Some(i) ==> g[i] == File(f[i].content, f[i].pos + |r.data|)
    ensures target == Some(i) ==> g[i] == File(f[i].content, f[i].pos + 2 * |r.data|)
    ensures r.count == 0 || r.count == |r.data|
    ensures target.Some? && target.value != i && r.data != [] && r.count > 0 ==>
              var j := target.value;
              && j < |f| && g[j].pos == f[j].pos + |r.data| <= |g[j].content|
              && g[j].content[f[j].pos..g[j].pos] == r.data
              && forall k :: 0 <= k < |f[j].content| && !(f[j].pos <= k < g[j].pos) ==>
                   g[j].content[k] == f[j].content[k]
  {
  }

  /** What was written is what a later read, at the same place of the same bytes, starts with. */
  lemma {:induction false} WrittenReadsBack(f: File, data: seq<Byte>, g: File, h: File, cb: nat)
    requires Wrote(f, data, g) && h.content == g.content && h.pos == f.pos && |data| <= cb
    ensures data <= Available(h, cb)
  {
    if data != [] {
      var end := f.pos + |data|;
      var got := Available(h, cb);
      forall k | 0 <= k < |data| ensures got[k] == data[k] {
        assert data[k] == g.content[f.pos..end][k];
      }
    }
  }

  /** Writing twice in a row is writing the two pieces together. */
  lemma {:induction false} WritesJoin(f: File, a: seq<Byte>, b: seq<Byte>, g: File, h: File)
    requires Wrote(f, a, g) && Wrote(g, b, h)
    ensures Wrote(f, a + b, h)
  {
    var both, mid, end := a + b, f.pos + |a|, f.pos + |a| + |b|;
    if a == [] {
      assert g.content == f.content && both == b;
      return;
    }
    if b == [] {
      assert h.content == g.content && both == a;
      return;
    }
    forall k | f.pos <= k < end ensures h.content[k] == both[k - f.pos] {
      if k < mid {
        assert g.content[k] == g.content[f.pos..mid][k - f.pos];
      } else {
        assert h.content[k] == h.content[mid..end][k - mid];
      }
    }
    assert h.content[f.pos..end] == both;
  }

  /** The streams whose file a call may change. */
  function Subjects(call: Call): set<nat> {
    match call
    case New => {}
    case Read(i, _) => {i}
    case Write(i, _) => {i}
    case Seek(i, _, _) => {i}
    case SetSize(i, _) => {i}
    case CopyTo(i, target, _) => if target.Some? then {i, target.value} else {i}
    case Clone(_) => {}
    case TaskAlloc(_) => {}
  }

  lemma {:induction false} StepLeavesOthers(f: seq<File>, call: Call, r: Result, g: seq<File>, k: nat)
    requires Step(f, call, r, g) && k < |f| && k !in Subjects(call)
    ensures |f| <= |g| && g[k] == f[k]
  {
    hide Wrote, Resized, Available;
  }

  /** A run: files before and after every call. */
  predicate Trace(files: seq<seq<File>>, calls: seq<Call>, results: seq<Result>) {
    && |files| == |calls| + 1 && |results| == |calls|
    && forall n :: 0 <= n < |calls| ==> Step(files[n], calls[n], results[n], files[n + 1])
  }

  /** Over a whole run, a file no call is about stays as it was: no stream is an alias of another. */
  lemma {:induction false} RunLeavesOthers(files: seq<seq<File>>, calls: seq<Call>, results: seq<Result>, n: nat,
          k: nat)
    requires Trace(files, calls, results) && n <= |calls| && k < |files[0]|
    requires forall m :: 0 <= m < n ==> k !in Subjects(calls[m])
    ensures k < |files[n]| && files[n][k] == files[0][k]
  {
    hide Step, Subjects;
    if n > 0 {
      RunLeavesOthers(files, calls, results, n - 1, k);
      StepLeavesOthers(files[n - 1], calls[n - 1], results[n - 1], files[n], k);
    }
  }

  /** Calls that leave a stream's bytes alone: all but writing to it, directly or by a copy, and resizing it. */
  predicate KeepsContent(call: Call, k: nat) {
    match call
    case Write(i, _) => i != k
    case SetSize(i, _) => i != k
    case CopyTo(_, target, _) => target != Some(k)
    case _ => true
  }

  lemma {:induction false} StepKeepsContent(f: seq<File>, call: Call, r: Result, g: seq<File>, k: nat)
    requires Step(f, call, r, g) && k < |f| && KeepsContent(call, k)
    ensures |f| <= |g| && g[k].content == f[k].content
  {
    hide Wrote, Resized, Available;
  }

  lemma {:induction false} RunKeepsContent(files: seq<seq<File>>, calls: seq<Call>, results: seq<Result>, from: nat,
          n: nat, k: nat)
    requires Trace(files, calls, results) && from <= n <= |calls| && k < |files[from]|
    requires forall m :: from <= m < n ==> KeepsContent(calls[m], k)
    ensures k < |files[n]| && files[n][k].content == files[from][k].content
  {
    hide Step, KeepsContent;
    if n > from {
      RunKeepsContent(files, calls, results, from, n - 1, k);
      StepKeepsContent(files[n - 1], calls[n - 1], results[n - 1], files[n], k);
    }
  }

  /** Over a run, a read where a write was made starts with what was written, if nothing changed the bytes between. */
  lemma {:induction false} ReadFindsWrite(files: seq<seq<File>>, calls: seq<Call>, results: seq<Result>, w: nat, n: nat)
    requires Trace(files, calls, results) && w < n < |calls|
    requires calls[w].Write? && results[w].code == Ok && calls[n].Read? && calls[n].i == calls[w].i
    requires forall m :: w < m < n ==> KeepsContent(calls[m], calls[w].i)
    ensures var i, data := calls[w].i, calls[w].data;
            && i < |files[w]| && i < |files[n]|
            && (files[n][i].pos == files[w][i].pos && |data| <= calls[n].cb ==> data <= results[n].data)
  {
    hide KeepsContent, Wrote, Available;
    var i, data := calls[w].i, calls[w].data;
    assert Step(files[w], calls[w], results[w], files[w + 1]);
    RunKeepsContent(files, calls, results, w + 1, n, i);
    assert Step(files[n], calls[n], results[n], files[n + 1]);
    if files[n][i].pos == files[w][i].pos && |data| <= calls[n].cb {
      WrittenReadsBack(files[w][i], data, files[w + 1][i], files[n][i], calls[n].cb);
    }
  }

  /** A clone starts as its source and the two part ways: calls about one leave the other alone. */
  lemma {:induction false} CloneIsIndependent(files: seq<seq<File>>, calls: seq<Call>, results: seq<Result>, n: nat,
          i: nat)
    requires Trace(files, calls, results) && n <= |calls| && calls != [] && calls[0] == Clone(i)
    requires results[0].code == Ok
    requires n > 0 && i < |files[0]|
    ensures var c := |files[0]|;
            && ((forall m :: 0 < m < n ==> c !in Subjects(calls[m])) ==> c < |files[n]| && files[n][c] == files[0][i])
            && ((forall m :: 0 < m < n ==> i !in Subjects(calls[m])) ==> i < |files[n]| && files[n][i] == files[0][i])
  {
    hide Subjects;
    var c := |files[0]|;
    assert files[1] == files[0] + [files[0][i]];
    var fs, cs, rs := files[1..], calls[1..], results[1..];
    assert Trace(fs, cs, rs) by {
      forall m | 0 <= m < |cs| ensures Step(fs[m], cs[m], rs[m], fs[m + 1]) {
        assert Step(files[m + 1], calls[m + 1], results[m + 1], files[m + 2]);
      }
    }
    if forall m :: 0 < m < n ==> c !in Subjects(calls[m]) {
      RunLeavesOthers(fs, cs, rs, n - 1, c);
    }
    if forall m :: 0 < m < n ==> i !in Subjects(calls[m]) {
      RunLeavesOthers(fs, cs, rs, n - 1, i);
    }
  }
}
