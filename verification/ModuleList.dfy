/** The kernel's loaded-module list: sized by one call, filled by the next, walked by its offsets. */
module ModuleList {
  import opened Words
  import opened StructPack

  /** What the loader knows of a module; a name holds no terminator. */
  datatype Module = Module(base: U64, size: U32, name: Option<seq<Byte>>)

  type Modules = m: seq<Module> | NamesClosed(m)

  predicate NamesClosed(mods: seq<Module>) {
    forall i :: 0 <= i < |mods| && mods[i].name.Some? ==> 0 !in mods[i].name.value
  }

  const HEADER_SIZE: nat := 0x10
  const ENTRY_SIZE: nat := 0x140
  const PATH_AT: nat := 0x30
  const PATH_LIMIT: nat := 255
  const DEFAULT_SIZE: nat := 0x30_0000

  /** NextOffset, 22 unused, ImageBase, ImageSize, unused, LoadOrderIndex, unused, LoadCount, OffsetToFileName. */
  const ENTRY: Format := [2, 22, 8, 4, 4, 2, 2, 2, 2]

  const PREFIX: seq<Byte> :=
    ['\\' as int, 'S' as int, 'y' as int, 's' as int, 't' as int, 'e' as int, 'm' as int, 'R' as int,
     'o' as int, 'o' as int, 't' as int, '\\' as int, 's' as int, 'y' as int, 's' as int, 't' as int,
     'e' as int, 'm' as int, '3' as int, '2' as int, '\\' as int]

  const UNKNOWN: seq<Byte> :=
    ['u' as int, 'n' as int, 'k' as int, 'n' as int, 'o' as int, 'w' as int, 'n' as int, '.' as int, 's' as int,
     'y' as int, 's' as int]

  /** Bytes the whole list takes. */
  function ListSize(n: nat): nat {
    HEADER_SIZE + n * ENTRY_SIZE
  }

  // ---- what a caller reads ------------------------------------------------

  /** The characters from `at` up to a terminator or the end. */
  function CString(b: seq<Byte>, at: nat): seq<Byte>
    decreases |b| - at
  {
    if at >= |b| || b[at] == 0 then [] else [b[at]] + CString(b, at + 1)
  }

  datatype Seen = Seen(base: nat, size: nat, order: nat, loads: nat, name: seq<Byte>)

  lemma {:induction false} EntryFormat()
    ensures |ENTRY| == 9 && Size(ENTRY) == PATH_AT
    ensures Offset(ENTRY, 0) == 0 && Offset(ENTRY, 2) == 0x18 && Offset(ENTRY, 3) == 0x20
    ensures Offset(ENTRY, 5) == 0x28 && Offset(ENTRY, 7) == 0x2C && Offset(ENTRY, 8) == 0x2E
  {
    assert Offset(ENTRY, 4) == 0x24;
    assert Offset(ENTRY, 8) == 0x2E;
  }

  function SeenAt(b: seq<Byte>, e: nat): Seen
    requires e + ENTRY_SIZE <= |b|
  {
    EntryFormat();
    Seen(Field(ENTRY, b, e, 2), Field(ENTRY, b, e, 3), Field(ENTRY, b, e, 5), Field(ENTRY, b, e, 7),
         CString(b, e + PATH_AT + Field(ENTRY, b, e, 8)))
  }

  /** The entries met by following NextOffset from the one at `e` until it is zero. */
  function Walk(b: seq<Byte>, e: nat): seq<Seen>
    decreases |b| - e
  {
    EntryFormat();
    if e + ENTRY_SIZE > |b| then []
    else
      var next := Field(ENTRY, b, e, 0);
      [SeenAt(b, e)] + if next == 0 then [] else Walk(b, e + next)
  }

  /** A module as the list should show it: a default size for 0, the name cut so that its path fits. */
  function Shown(m: Module, i: nat): Seen {
    var name := if m.name.Some? then m.name.value else UNKNOWN;
    var room := PATH_LIMIT - |PREFIX|;
    Seen(m.base, if m.size == 0 then DEFAULT_SIZE else m.size, i % 0x1_0000, 1,
         if |name| <= room then name else name[..room])
  }

  // ---- the bytes of the list ----------------------------------------------

  function PathOf(m: Module): (p: seq<Byte>)
    ensures |p| <= PATH_LIMIT
  {
    PREFIX + Shown(m, 0).name
  }

  function FieldsOf(m: Module, i: nat, n: nat): seq<int> {
    var shown := Shown(m, i);
    [if i + 1 < n then ENTRY_SIZE else 0, 0, shown.base, shown.size, 0, shown.order, 0, shown.loads, |PREFIX|]
  }

  lemma {:induction false} FieldsFit(m: Module, i: nat, n: nat)
    ensures InRange(ENTRY, FieldsOf(m, i, n))
    ensures InRange(ENTRY, Blank())
  {
    PowersOf256();
    assert Pow256(22) > 0;
  }

  function EntryBytes(m: Module, i: nat, n: nat): (b: seq<Byte>)
    ensures |b| == ENTRY_SIZE
  {
    FieldsFit(m, i, n);
    EntryFormat();
    Packed(ENTRY, FieldsOf(m, i, n)) + PathOf(m) + Zeros(ENTRY_SIZE - PATH_AT - |PathOf(m)|)
  }

  /** The first `k` entries, one after the other. */
  function EntriesTo(mods: Modules, k: nat): (b: seq<Byte>)
    requires k <= |mods|
    ensures |b| == k * ENTRY_SIZE
  {
    if k == 0 then [] else EntriesTo(mods, k - 1) + EntryBytes(mods[k - 1], k - 1, |mods|)
  }

  function ListBytes(mods: Modules): (b: seq<Byte>)
    requires ListSize(|mods|) < 0x1_0000_0000
    ensures |b| == ListSize(|mods|)
  {
    Put32(|mods|) + Zeros(HEADER_SIZE - 4) + EntriesTo(mods, |mods|)
  }

  function Blank(): seq<int> {
    [0, 0, 0, 0, 0, 0, 0, 0, 0]
  }

  // ---- walking finds every module -----------------------------------------

  lemma {:induction false} CStringReads(b: seq<Byte>, at: nat, s: seq<Byte>)
    requires at + |s| < |b| && b[at..at + |s|] == s && 0 !in s && b[at + |s|] == 0
    ensures CString(b, at) == s
    decreases |s|
  {
    if s != [] {
      assert b[at] == b[at..at + |s|][0] == s[0];
      assert b[at + 1..at + |s|] == b[at..at + |s|][1..] == s[1..];
      CStringReads(b, at + 1, s[1..]);
    }
  }

  /** An entry's bytes show its module. */
  lemma {:induction false} EntryShows(b: seq<Byte>, e: nat, m: Module, i: nat, n: nat)
    requires e + ENTRY_SIZE <= |b| && b[e..e + ENTRY_SIZE] == EntryBytes(m, i, n)
    requires m.name.Some? ==> 0 !in m.name.value
    ensures SeenAt(b, e) == Shown(m, i)
    ensures |ENTRY| == 9 && e + Size(ENTRY) <= |b|
    ensures Field(ENTRY, b, e, 0) == if i + 1 < n then ENTRY_SIZE else 0
  {
    hide PathOf, FieldsOf, Packed, Field, Shown;
    EntryFormat();
    FieldsFit(m, i, n);
    FieldList(m, i, n);
    var fields, path := Packed(ENTRY, FieldsOf(m, i, n)), PathOf(m);
    var rest := Zeros(ENTRY_SIZE - PATH_AT - |path|);
    EntryParts(b, e, fields, path, rest);
    FieldsOfPacked(ENTRY, FieldsOf(m, i, n), b, e);
    NameInPath(b, e + PATH_AT, m);
  }

  lemma {:induction false} EntryParts(b: seq<Byte>, e: nat, fields: seq<Byte>, path: seq<Byte>, rest: seq<Byte>)
    requires e + |fields| + |path| + |rest| <= |b| && rest != []
    requires b[e..e + |fields| + |path| + |rest|] == fields + path + rest
    ensures b[e..e + |fields|] == fields
    ensures var at := e + |fields|; b[at..at + |path|] == path && b[at + |path|] == rest[0]
  {
    var n, k := |fields|, |fields| + |path|;
    var entry := fields + path + rest;
    SliceOfSlice(b, e, e + k + |rest|, 0, n);
    SliceOfSlice(b, e, e + k + |rest|, n, k);
    assert entry[0..n] == fields && entry[n..k] == path && entry[k] == rest[0];
  }

  lemma {:induction false} FieldList(m: Module, i: nat, n: nat)
    ensures var f, s := FieldsOf(m, i, n), Shown(m, i);
            && |f| == 9 && f[0] == (if i + 1 < n then ENTRY_SIZE else 0)
            && f[2] == s.base && f[3] == s.size && f[5] == s.order && f[7] == s.loads && f[8] == |PREFIX|
    ensures Shown(m, i).name == Shown(m, 0).name
  {
  }

  lemma {:induction false} NameInPath(b: seq<Byte>, at: nat, m: Module)
    requires at + |PathOf(m)| < |b| && b[at..at + |PathOf(m)|] == PathOf(m) && b[at + |PathOf(m)|] == 0
    requires m.name.Some? ==> 0 !in m.name.value
    ensures CString(b, at + |PREFIX|) == Shown(m, 0).name
  {
    hide Shown;
    var name := Shown(m, 0).name;
    ShownName(m);
    SliceOfSlice(b, at, at + |PathOf(m)|, |PREFIX|, |PathOf(m)|);
    assert PathOf(m)[|PREFIX|..] == name;
    CStringReads(b, at + |PREFIX|, name);
  }

  lemma {:induction false} ShownName(m: Module)
    requires m.name.Some? ==> 0 !in m.name.value
    ensures 0 !in Shown(m, 0).name && |Shown(m, 0).name| <= PATH_LIMIT - |PREFIX|
  {
  }

  /** What walking a list of these modules should meet from the k-th on. */
  function ShownFrom(mods: Modules, k: nat): seq<Seen>
    requires k <= |mods|
    decreases |mods| - k
  {
    if k == |mods| then [] else [Shown(mods[k], k)] + ShownFrom(mods, k + 1)
  }

  lemma {:induction false} EntryOf(mods: Modules, k: nat, j: nat)
    requires j < k <= |mods|
    ensures EntriesTo(mods, k)[j * ENTRY_SIZE..(j + 1) * ENTRY_SIZE] == EntryBytes(mods[j], j, |mods|)
    decreases k
  {
    hide EntryBytes;
    var before, last := EntriesTo(mods, k - 1), EntryBytes(mods[k - 1], k - 1, |mods|);
    if j < k - 1 {
      EntryOf(mods, k - 1, j);
      SliceOfLeft(before, last, j * ENTRY_SIZE, (j + 1) * ENTRY_SIZE);
    } else {
      SliceOfRight(before, last);
    }
  }

  lemma {:induction false} WalkFrom(b: seq<Byte>, mods: Modules, k: nat)
    requires ListSize(|mods|) <= |b| && k < |mods|
    requires b[HEADER_SIZE..ListSize(|mods|)] == EntriesTo(mods, |mods|)
    ensures Walk(b, HEADER_SIZE + k * ENTRY_SIZE) == ShownFrom(mods, k)
    decreases |mods| - k
  {
    hide EntriesTo, SeenAt, Shown, Field, Walk, Size, ShownFrom;
    var e := HEADER_SIZE + k * ENTRY_SIZE;
    EntryStands(b, mods, k);
    WalkStep(b, e);
    ShownStep(mods, k);
    if k + 1 < |mods| {
      WalkFrom(b, mods, k + 1);
      assert e + ENTRY_SIZE == HEADER_SIZE + (k + 1) * ENTRY_SIZE;
    } else {
      ShownEnd(mods);
    }
  }

  lemma {:induction false} ShownEnd(mods: Modules)
    ensures ShownFrom(mods, |mods|) == []
  {
  }

  lemma {:induction false} EntryStands(b: seq<Byte>, mods: Modules, k: nat)
    requires ListSize(|mods|) <= |b| && k < |mods|
    requires b[HEADER_SIZE..ListSize(|mods|)] == EntriesTo(mods, |mods|)
    ensures var e := HEADER_SIZE + k * ENTRY_SIZE;
            && e + ENTRY_SIZE <= |b| && |ENTRY| == 9 && e + Size(ENTRY) <= |b|
            && SeenAt(b, e) == Shown(mods[k], k)
            && Field(ENTRY, b, e, 0) == if k + 1 < |mods| then ENTRY_SIZE else 0
  {
    hide EntryBytes, EntriesTo, SeenAt, Shown, Field, Size;
    EntryOf(mods, |mods|, k);
    SliceOfSlice(b, HEADER_SIZE, ListSize(|mods|), k * ENTRY_SIZE, (k + 1) * ENTRY_SIZE);
    EntryShows(b, HEADER_SIZE + k * ENTRY_SIZE, mods[k], k, |mods|);
  }

  lemma {:induction false} WalkStep(b: seq<Byte>, e: nat)
    requires e + ENTRY_SIZE <= |b| && |ENTRY| == 9 && e + Size(ENTRY) <= |b|
    ensures var next := Field(ENTRY, b, e, 0);
            Walk(b, e) == [SeenAt(b, e)] + if next == 0 then [] else Walk(b, e + next)
  {
    hide SeenAt, Field;
  }

  /** Following NextOffset from the first entry visits every module once, in order, as it should be shown. */
  lemma {:induction false} WalkVisitsModules(b: seq<Byte>, mods: Modules)
    requires ListSize(|mods|) < 0x1_0000_0000 && ListSize(|mods|) <= |b|
    requires b[..ListSize(|mods|)] == ListBytes(mods) && mods != []
    ensures Walk(b, HEADER_SIZE) == seq(|mods|, (i: int) requires 0 <= i < |mods| => Shown(mods[i], i))
    ensures Get32(b[..4]) == |mods|
  {
    hide EntriesTo, Shown, Walk;
    var list := ListBytes(mods);
    assert b[HEADER_SIZE..ListSize(|mods|)] == list[HEADER_SIZE..] == EntriesTo(mods, |mods|);
    assert b[..4] == list[..4] == Put32(|mods|);
    WalkFrom(b, mods, 0);
    ShownLength(mods, 0);
    forall j | 0 <= j < |mods| ensures Walk(b, HEADER_SIZE)[j] == Shown(mods[j], j) {
      ShownInOrder(mods, 0, j);
    }
  }

  lemma {:induction false} ShownLength(mods: Modules, k: nat)
    requires k <= |mods|
    ensures |ShownFrom(mods, k)| == |mods| - k
    decreases |mods| - k
  {
    if k < |mods| {
      ShownLength(mods, k + 1);
    }
  }

  lemma {:induction false} ShownInOrder(mods: Modules, k: nat, j: nat)
    requires k <= j < |mods| && |ShownFrom(mods, k)| == |mods| - k
    ensures ShownFrom(mods, k)[j - k] == Shown(mods[j], j)
    decreases j - k
  {
    hide Shown, ShownFrom;
    ShownStep(mods, k);
    if k < j {
      ShownInOrder(mods, k + 1, j);
    }
  }

  lemma {:induction false} ShownStep(mods: Modules, k: nat)
    requires k < |mods|
    ensures ShownFrom(mods, k) == [Shown(mods[k], k)] + ShownFrom(mods, k + 1)
  {
    hide Shown;
  }

  /** The little-endian number in the `n` bytes at `at`. */
  function Num(b: seq<Byte>, at: nat, n: nat): nat
    requires at + n <= |b|
  {
    FromLittleEndian(b[at..at + n])
  }

  lemma {:induction false} NumberAt(b: seq<Byte>, e: nat, m: Module, i: nat, n: nat, k: nat, o: nat)
    requires e + ENTRY_SIZE <= |b| && b[e..e + ENTRY_SIZE] == EntryBytes(m, i, n)
    requires k < |ENTRY| && Offset(ENTRY, k) == o && o + ENTRY[k] <= PATH_AT
    ensures |FieldsOf(m, i, n)| == |ENTRY| && Num(b, e + o, ENTRY[k]) == FieldsOf(m, i, n)[k]
  {
    hide PathOf, FieldsOf, Packed;
    EntryFormat();
    FieldsFit(m, i, n);
    var fields, path := Packed(ENTRY, FieldsOf(m, i, n)), PathOf(m);
    EntryParts(b, e, fields, path, Zeros(ENTRY_SIZE - PATH_AT - |path|));
    FieldOfPacked(ENTRY, FieldsOf(m, i, n), b, e, k);
  }

  /** The k-th entry in the list, by the offsets a driver reads it at. */
  lemma {:induction false} ListLayout(b: seq<Byte>, mods: Modules, k: nat)
    requires ListSize(|mods|) < 0x1_0000_0000 && ListSize(|mods|) <= |b| && k < |mods|
    requires b[..ListSize(|mods|)] == ListBytes(mods)
    ensures var (e, m) := (0x10 + 0x140 * k, mods[k]);
            && e + 0x140 <= |b|
            && Num(b, e, 2) == (if k + 1 < |mods| then 0x140 else 0)
            && Num(b, e + 0x18, 8) == m.base && Num(b, e + 0x20, 4) == (if m.size == 0 then 0x30_0000 else m.size)
            && Num(b, e + 0x28, 2) == k % 0x1_0000 && Num(b, e + 0x2C, 2) == 1 && Num(b, e + 0x2E, 2) == 21
            && var path := PathOf(m);
               && |path| <= 255 && b[e + 0x30..e + 0x30 + |path|] == path && b[e + 0x30 + |path|] == 0
               && |path| >= 21 && (forall j :: 0 <= j < 21 ==> path[j] == "\\SystemRoot\\system32\\"[j] as int)
               && (m.name.Some? ==> path[21..] <= m.name.value
                                    && |path| == if |m.name.value| > 234 then 255 else 21 + |m.name.value|)
  {
    hide EntryBytes, EntriesTo, PathOf, FieldsOf, Num, Put32;
    var (e, m, n) := (HEADER_SIZE + k * ENTRY_SIZE, mods[k], |mods|);
    ListEntry(b, mods, k);
    EntryNumbers(b, e, m, k, n);
    EntryPath(b, e, m, k, n);
    PathSpelled(m);
  }

  lemma {:induction false} ListEntry(b: seq<Byte>, mods: Modules, k: nat)
    requires ListSize(|mods|) < 0x1_0000_0000 && ListSize(|mods|) <= |b| && k < |mods|
    requires b[..ListSize(|mods|)] == ListBytes(mods)
    ensures var e := HEADER_SIZE + k * ENTRY_SIZE;
            e + ENTRY_SIZE <= ListSize(|mods|) && b[e..e + ENTRY_SIZE] == EntryBytes(mods[k], k, |mods|)
  {
    hide EntryBytes, EntriesTo, Put32;
    EntryOf(mods, |mods|, k);
    assert b[HEADER_SIZE..ListSize(|mods|)] == b[..ListSize(|mods|)][HEADER_SIZE..] == EntriesTo(mods, |mods|);
    SliceOfSlice(b, HEADER_SIZE, ListSize(|mods|), k * ENTRY_SIZE, (k + 1) * ENTRY_SIZE);
  }

  lemma {:induction false} EntryNumbers(b: seq<Byte>, e: nat, m: Module, k: nat, n: nat)
    requires e + ENTRY_SIZE <= |b| && b[e..e + ENTRY_SIZE] == EntryBytes(m, k, n)
    ensures Num(b, e, 2) == (if k + 1 < n then 0x140 else 0)
    ensures Num(b, e + 0x18, 8) == m.base && Num(b, e + 0x20, 4) == (if m.size == 0 then 0x30_0000 else m.size)
    ensures Num(b, e + 0x28, 2) == k % 0x1_0000 && Num(b, e + 0x2C, 2) == 1 && Num(b, e + 0x2E, 2) == 21
  {
    hide EntryBytes, FieldsOf, Num;
    EntryFormat();
    NumberAt(b, e, m, k, n, 0, 0);
    NumberAt(b, e, m, k, n, 2, 0x18);
    NumberAt(b, e, m, k, n, 3, 0x20);
    NumberAt(b, e, m, k, n, 5, 0x28);
    NumberAt(b, e, m, k, n, 7, 0x2C);
    NumberAt(b, e, m, k, n, 8, 0x2E);
    FieldList(m, k, n);
  }

  lemma {:induction false} EntryPath(b: seq<Byte>, e: nat, m: Module, k: nat, n: nat)
    requires e + ENTRY_SIZE <= |b| && b[e..e + ENTRY_SIZE] == EntryBytes(m, k, n)
    ensures var path := PathOf(m); b[e + 0x30..e + 0x30 + |path|] == path && b[e + 0x30 + |path|] == 0
  {
    hide PathOf, FieldsOf, Packed;
    EntryFormat();
    FieldsFit(m, k, n);
    var path := PathOf(m);
    EntryParts(b, e, Packed(ENTRY, FieldsOf(m, k, n)), path, Zeros(ENTRY_SIZE - PATH_AT - |path|));
  }

  lemma {:induction false} PathSpelled(m: Module)
    ensures var path := PathOf(m);
            && |path| >= 21 && (forall j :: 0 <= j < 21 ==> path[j] == "\\SystemRoot\\system32\\"[j] as int)
            && (m.name.Some? ==> path[21..] <= m.name.value
                                 && |path| == if |m.name.value| > 234 then 255 else 21 + |m.name.value|)
  {
    var path := PathOf(m);
    assert path[..21] == PREFIX;
    forall j | 0 <= j < 21 ensures path[j] == "\\SystemRoot\\system32\\"[j] as int {
      assert path[j] == PREFIX[j];
      PrefixSpelled(j);
    }
  }

  lemma {:induction false} PrefixSpelled(j: nat)
    requires j < 21
    ensures |PREFIX| == 21 && PREFIX[j] == "\\SystemRoot\\system32\\"[j] as int
  {
    assert j in {0, 1, 2, 3, 4, 5, 6, 7, 8, 9, 10, 11, 12, 13, 14, 15, 16, 17, 18, 19, 20};
  }

  // ---- filling the buffer -------------------------------------------------

  /** Stores one field of the entry at `at`. */
  method StoreField(out: array<Byte>, at: nat, k: nat, v: nat, ghost values: seq<int>)
    requires InRange(ENTRY, values) && k < 9 == |ENTRY| && v < Pow256(ENTRY[k])
    requires at + PATH_AT <= out.Length && out[at..at + PATH_AT] == Packed(ENTRY, values)
    modifies out
    ensures InRange(ENTRY, values[k := v]) && out[at..at + PATH_AT] == Packed(ENTRY, values[k := v])
    ensures out[..at] == old(out[..at]) && out[at + PATH_AT..] == old(out[at + PATH_AT..])
  {
    hide InRange, Pow256, LittleEndian, Patched, PackedTo;
    EntryFormat();
    OffsetsRise(ENTRY, k + 1, 9);
    var o, w := Offset(ENTRY, k), LittleEndian(v, ENTRY[k]);
    ghost var s := out[..];
    ghost var entry := out[at..at + PATH_AT];
    PackedUpdate(ENTRY, values, 9, k, v);
    Patch(out, at + o, w);
    PatchInside(s, at, PATH_AT, o, w);
    assert out[at..at + PATH_AT] == out[..][at..at + PATH_AT];
    assert out[..at] == out[..][..at] && out[at + PATH_AT..] == out[..][at + PATH_AT..];
  }

  lemma {:induction false} PatchInside(s: seq<Byte>, at: nat, n: nat, o: nat, w: seq<Byte>)
    requires at + n <= |s| && o + |w| <= n
    ensures var p := Patched(s, at + o, w);
            && p[at..at + n] == Patched(s[at..at + n], o, w)
            && p[..at] == s[..at] && p[at + n..] == s[at + n..]
  {
  }

  /** The path: the prefix, then as much of the name as the limit leaves room for, then a terminator. */
  method BuildModulePath(dst: array<Byte>, at: nat, basename: seq<Byte>, ghost m: Module) returns (ofn: nat)
    requires at + PATH_LIMIT < dst.Length && basename == if m.name.Some? then m.name.value else UNKNOWN
    modifies dst
    ensures ofn == |PREFIX| && dst[..] == Patched(old(dst[..]), at, PathOf(m) + [0])
  {
    hide Patched, PathOf;
    ghost var s := dst[..];
    ghost var path := PathOf(m);
    PathUnits(m, basename);
    PatchNothing(s, at);
    assert path[..0] == [];
    var i: nat := 0;
    while i < |PREFIX| && i < 200
      invariant i <= |PREFIX| && dst.Length == |s| && dst[..] == Patched(s, at, path[..i])
    {
      PatchNext(s, at, path, i);
      dst[at + i] := PREFIX[i];
      i := i + 1;
    }
    ofn := i;
    var j: nat := 0;
    while j < |basename| && i < PATH_LIMIT
      invariant i == |PREFIX| + j <= PATH_LIMIT && j <= |basename|
      invariant i <= |path| && dst.Length == |s| && dst[..] == Patched(s, at, path[..i])
    {
      PatchNext(s, at, path, i);
      dst[at + i] := basename[j];
      i, j := i + 1, j + 1;
    }
    assert path[..i] == path;
    dst[at + i] := 0;
    PatchEnd(s, at, path);
  }

  lemma {:induction false} PathUnits(m: Module, basename: seq<Byte>)
    requires basename == if m.name.Some? then m.name.value else UNKNOWN
    ensures var path := PathOf(m);
            && |PREFIX| < 200 && |PREFIX| <= |path|
            && |path| == (var n := |PREFIX| + |basename|; if n < PATH_LIMIT then n else PATH_LIMIT)
            && (forall i :: 0 <= i < |PREFIX| ==> path[i] == PREFIX[i])
            && (forall i :: |PREFIX| <= i < |path| ==> path[i] == basename[i - |PREFIX|])
  {
  }

  lemma {:induction false} PatchNothing(s: seq<Byte>, at: nat)
    requires at <= |s|
    ensures Patched(s, at, []) == s
  {
  }

  lemma {:induction false} PatchNext(s: seq<Byte>, at: nat, path: seq<Byte>, i: nat)
    requires at + |path| <= |s| && i < |path|
    ensures Patched(s, at, path[..i])[at + i := path[i]] == Patched(s, at, path[..i + 1])
  {
  }

  lemma {:induction false} PatchEnd(s: seq<Byte>, at: nat, path: seq<Byte>)
    requires at + |path| < |s|
    ensures Patched(s, at, path)[at + |path| := 0] == Patched(s, at, path + [0])
  {
  }

  lemma {:induction false} BlankEntry()
    ensures InRange(ENTRY, Blank()) && Packed(ENTRY, Blank()) == Zeros(PATH_AT)
  {
    hide LittleEndian, Pow256;
    FieldsFit(Module(0, 0, None), 0, 0);
    EntryFormat();
    PackedZeros(ENTRY, Blank(), 9);
  }

  /** One entry, stored field by field over zeros; the rest of the buffer is left alone. */
  method FillEntry(out: array<Byte>, e: nat, m: Module, i: nat, n: nat)
    requires i < n && e + ENTRY_SIZE <= out.Length && out[e..e + ENTRY_SIZE] == Zeros(ENTRY_SIZE)
    modifies out
    ensures out[..] == Patched(old(out[..]), e, EntryBytes(m, i, n))
  {
    hide InRange, Packed, Patched, EntryBytes, PathOf, FieldsOf, Shown;
    ghost var s := out[..];
    var size := if m.size == 0 then DEFAULT_SIZE else m.size;
    PowersOf256();
    BlankEntry();
    FieldsAre(m, i, n);
    assert out[e..e + PATH_AT] == out[e..e + ENTRY_SIZE][..PATH_AT];
    ghost var v0 := Blank();
    StoreField(out, e, 0, if i < n - 1 then ENTRY_SIZE else 0, v0);
    ghost var v1 := v0[0 := if i < n - 1 then ENTRY_SIZE else 0];
    StoreField(out, e, 2, m.base, v1);
    ghost var v2 := v1[2 := m.base];
    StoreField(out, e, 3, size, v2);
    ghost var v3 := v2[3 := size];
    StoreField(out, e, 5, i % 0x1_0000, v3);
    ghost var v4 := v3[5 := i % 0x1_0000];
    StoreField(out, e, 7, 1, v4);
    ghost var v5 := v4[7 := 1];
    ghost var r := out[..];
    var ofn := BuildModulePath(out, e + PATH_AT, if m.name.Some? then m.name.value else UNKNOWN, m);
    PatchAfter(r, s, e, PathOf(m) + [0], out[..]);
    StoreField(out, e, 8, ofn, v5);
    EntryAssembled(s, out[..], e, m, i, n);
  }

  lemma {:induction false} FieldsAre(m: Module, i: nat, n: nat)
    requires i < n
    ensures Blank()[0 := if i < n - 1 then ENTRY_SIZE else 0][2 := m.base]
                   [3 := if m.size == 0 then DEFAULT_SIZE else m.size]
                   [5 := i % 0x1_0000][7 := 1][8 := |PREFIX|] == FieldsOf(m, i, n)
    ensures |ENTRY| == 9 && ENTRY[0] == 2 && ENTRY[2] == 8 && ENTRY[3] == 4
    ensures ENTRY[5] == ENTRY[7] == ENTRY[8] == 2
  {
  }

  /** Bytes written past the fields leave what is before them, and land where they would in the old buffer. */
  lemma {:induction false} PatchAfter(r: seq<Byte>, s: seq<Byte>, e: nat, p: seq<Byte>, after: seq<Byte>)
    requires |r| == |s| && e + PATH_AT + |p| <= |s| && r[e + PATH_AT..] == s[e + PATH_AT..]
    requires after == Patched(r, e + PATH_AT, p)
    ensures after[..e] == r[..e] && after[e..e + PATH_AT] == r[e..e + PATH_AT]
    ensures after[e + PATH_AT..] == p + s[e + PATH_AT + |p|..]
  {
  }

  lemma {:induction false} EntryAssembled(s: seq<Byte>, r: seq<Byte>, e: nat, m: Module, i: nat, n: nat)
    requires |r| == |s| && e + ENTRY_SIZE <= |s| && s[e..e + ENTRY_SIZE] == Zeros(ENTRY_SIZE)
    requires InRange(ENTRY, FieldsOf(m, i, n)) && r[..e] == s[..e]
    requires r[e..e + PATH_AT] == Packed(ENTRY, FieldsOf(m, i, n))
    requires r[e + PATH_AT..] == PathOf(m) + [0] + s[e + PATH_AT + |PathOf(m)| + 1..]
    ensures r == Patched(s, e, EntryBytes(m, i, n))
  {
    hide Packed, PathOf, FieldsOf;
    EntryFormat();
    var fields, path := Packed(ENTRY, FieldsOf(m, i, n)), PathOf(m);
    var rest := ENTRY_SIZE - PATH_AT - |path|;
    assert s[e + PATH_AT + |path| + 1..e + ENTRY_SIZE] == Zeros(rest - 1) by {
      SliceOfSlice(s, e, e + ENTRY_SIZE, PATH_AT + |path| + 1, ENTRY_SIZE);
    }
    assert s[e + PATH_AT + |path| + 1..] == Zeros(rest - 1) + s[e + ENTRY_SIZE..];
    assert Zeros(rest) == [0] + Zeros(rest - 1);
    assert r == r[..e] + r[e..e + PATH_AT] + r[e + PATH_AT..];
  }

  /** The list with its first `k` entries filled in. */
  function ListTo(mods: Modules, k: nat): (b: seq<Byte>)
    requires ListSize(|mods|) < 0x1_0000_0000 && k <= |mods|
    ensures |b| == ListSize(|mods|)
  {
    Put32(|mods|) + Zeros(HEADER_SIZE - 4) + EntriesTo(mods, k) + Zeros((|mods| - k) * ENTRY_SIZE)
  }

  lemma {:induction false} EntryAdded(s: seq<Byte>, mods: Modules, k: nat)
    requires ListSize(|mods|) < 0x1_0000_0000 && k < |mods| && ListSize(|mods|) <= |s|
    ensures var e := HEADER_SIZE + k * ENTRY_SIZE;
            && Patched(s, 0, ListTo(mods, k))[e..e + ENTRY_SIZE] == Zeros(ENTRY_SIZE)
            && Patched(Patched(s, 0, ListTo(mods, k)), e, EntryBytes(mods[k], k, |mods|))
               == Patched(s, 0, ListTo(mods, k + 1))
  {
    hide EntryBytes, Put32, Patched, Zeros;
    var header := Put32(|mods|) + Zeros(HEADER_SIZE - 4);
    var entry, left := EntryBytes(mods[k], k, |mods|), Zeros((|mods| - k - 1) * ENTRY_SIZE);
    var tail := s[ListSize(|mods|)..];
    ZerosSplit((|mods| - k - 1) * ENTRY_SIZE);
    Assoc(header, EntriesTo(mods, k), entry);
    PatchedStart(s, header + EntriesTo(mods, k), Zeros(ENTRY_SIZE) + left);
    PatchedStart(s, header + EntriesTo(mods, k) + entry, left);
    Replaced(header + EntriesTo(mods, k), Zeros(ENTRY_SIZE), entry, left + tail);
    Assoc(Zeros(ENTRY_SIZE), left, tail);
    Assoc(header + EntriesTo(mods, k), Zeros(ENTRY_SIZE), left + tail);
  }

  lemma {:induction false} ZerosSplit(n: nat)
    ensures Zeros(n + ENTRY_SIZE) == Zeros(ENTRY_SIZE) + Zeros(n)
  {
  }

  lemma {:induction false} PatchedStart(s: seq<Byte>, a: seq<Byte>, b: seq<Byte>)
    requires |a| + |b| <= |s|
    ensures Patched(s, 0, a + b) == a + (b + s[|a| + |b|..])
  {
  }

  lemma {:induction false} ListStart(s: seq<Byte>, mods: Modules)
    requires ListSize(|mods|) < 0x1_0000_0000 && ListSize(|mods|) <= |s|
    ensures Patched(Patched(s, 0, Zeros(ListSize(|mods|))), 0, Put32(|mods|)) == Patched(s, 0, ListTo(mods, 0))
    ensures ListTo(mods, |mods|) == ListBytes(mods)
  {
    hide Put32;
    var total := ListSize(|mods|);
    assert Patched(s, 0, Zeros(total)) == Zeros(total) + s[total..];
    assert (Zeros(total) + s[total..])[4..] == Zeros(total - 4) + s[total..];
    assert Zeros(total - 4) == Zeros(HEADER_SIZE - 4) + Zeros(|mods| * ENTRY_SIZE);
    assert ListTo(mods, 0) == Put32(|mods|) + Zeros(total - 4);
  }

  /** The list into `out`, if it is there and large enough; its size in any case. */
  method BuildModuleList(out: array?<Byte>, outcap: U32, mods: Modules) returns (total: U32)
    requires ListSize(|mods|) < 0x1_0000_0000 && (out != null ==> outcap <= out.Length)
    modifies out
    ensures total == ListSize(|mods|)
    ensures out != null ==>
              out[..] == if outcap < total then old(out[..]) else Patched(old(out[..]), 0, ListBytes(mods))
  {
    hide Patched, ListTo, ListBytes, EntryBytes, Put32;
    total := ListSize(|mods|);
    if out == null || outcap < total {
      return;
    }
    ghost var s := out[..];
    PatchNothing(s, 0);
    assert Zeros(0) == [];
    for z := 0 to total
      invariant out[..] == Patched(s, 0, Zeros(z))
    {
      ZeroNext(s, z);
      out[z] := 0;
    }
    ListStart(s, mods);
    Patch(out, 0, Put32(|mods|));
    var e := HEADER_SIZE;
    for i := 0 to |mods|
      invariant e == HEADER_SIZE + i * ENTRY_SIZE && out[..] == Patched(s, 0, ListTo(mods, i))
    {
      EntryAdded(s, mods, i);
      assert out[e..e + ENTRY_SIZE] == out[..][e..e + ENTRY_SIZE];
      FillEntry(out, e, mods[i], i, |mods|);
      e := e + ENTRY_SIZE;
    }
  }

  lemma {:induction false} ZeroNext(s: seq<Byte>, z: nat)
    requires z < |s|
    ensures Patched(s, 0, Zeros(z))[z := 0] == Patched(s, 0, Zeros(z + 1))
  {
  }

  // ---- the query ----------------------------------------------------------

  datatype Status = Success | InfoLengthMismatch

  /** The module classes of ZwQuerySystemInformation: a short buffer is refused untouched, with the size to bring. */
  method QueryModules(buf: array?<Byte>, buflen: U32, mods: Modules) returns (status: Status, ret: U32)
    requires ListSize(|mods|) < 0x1_0000_0000 && (buf != null ==> buflen <= buf.Length)
    modifies buf
    ensures ret == ListSize(|mods|)
    ensures status == if buf == null || buflen < ret then InfoLengthMismatch else Success
    ensures buf != null && status == InfoLengthMismatch ==> buf[..] == old(buf[..])
    ensures status == Success ==>
              && buf[..ret] == ListBytes(mods) && buf[ret..] == old(buf[ret..]) && Get32(buf[..4]) == |mods|
              && (mods != [] ==>
                    Walk(buf[..], HEADER_SIZE) == seq(|mods|, (i: int) requires 0 <= i < |mods| => Shown(mods[i], i)))
  {
    hide ListBytes, Walk, Shown;
    var need := BuildModuleList(null, 0, mods);
    ret := need;
    if buf == null || buflen < need {
      return InfoLengthMismatch, ret;
    }
    ghost var s := buf[..];
    ret := BuildModuleList(buf, buflen, mods);
    assert buf[..][..ret] == ListBytes(mods) && buf[..][ret..] == s[ret..];
    assert buf[..4] == buf[..][..4] == ListBytes(mods)[..4] by { ListHeader(mods); }
    ListHeader(mods);
    if mods != [] {
      WalkVisitsModules(buf[..], mods);
    }
    status := Success;
  }

  lemma {:induction false} ListHeader(mods: Modules)
    requires ListSize(|mods|) < 0x1_0000_0000
    ensures Get32(ListBytes(mods)[..4]) == |mods|
  {
    assert ListBytes(mods)[..4] == Put32(|mods|);
  }
}
