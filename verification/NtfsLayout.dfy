/** Where the bytes of the image's structures stand: offsets as a driver that mounts the image uses them. */
module NtfsLayout {
  import opened Words
  import opened StructPack
  import NtfsAttributes
  import NtfsIndex
  import MftRecord
  import NtfsMft
  import NtfsImage

  type Bytes = seq<Byte>

  /** The little-endian number in the `n` bytes at `at`. */
  function Num(b: Bytes, at: nat, n: nat): nat
    requires at + n <= |b|
  {
    FromLittleEndian(b[at..at + n])
  }

  /** A packed field stands at its offset. */
  lemma {:induction false} FieldAt(format: Format, values: seq<int>, b: Bytes, at: nat, k: nat, o: nat, n: nat)
    requires InRange(format, values) && k < |format| && at + Size(format) <= |b|
    requires b[at..at + Size(format)] == Packed(format, values)
    requires Offset(format, k) == o && format[k] == n
    ensures at + o + n <= |b| && Num(b, at + o, n) == values[k]
  {
    hide Packed;
    OffsetsRise(format, k + 1, |format|);
    FieldOfPacked(format, values, b, at, k);
  }

  /** All fields of a structure at the offsets given. */
  lemma {:induction false} FieldsAt(format: Format, values: seq<int>, b: Bytes, at: nat, offsets: seq<nat>)
    requires InRange(format, values) && at + Size(format) <= |b| && |offsets| == |format|
    requires b[at..at + Size(format)] == Packed(format, values)
    requires offsets != [] && offsets[0] == 0
    requires forall k :: 0 <= k < |format| - 1 ==> offsets[k + 1] == offsets[k] + format[k]
    ensures forall k :: 0 <= k < |format| ==>
              at + offsets[k] + format[k] <= |b| && Num(b, at + offsets[k], format[k]) == values[k]
  {
    hide Packed, Num;
    forall k | 0 <= k < |format|
      ensures at + offsets[k] + format[k] <= |b| && Num(b, at + offsets[k], format[k]) == values[k]
    {
      OffsetIs(format, offsets, k);
      FieldAt(format, values, b, at, k, offsets[k], format[k]);
    }
  }

  lemma {:induction false} OffsetIs(format: Format, offsets: seq<nat>, k: nat)
    requires |offsets| == |format| && k < |format| && offsets[0] == 0
    requires forall i :: 0 <= i < |format| - 1 ==> offsets[i + 1] == offsets[i] + format[i]
    ensures Offset(format, k) == offsets[k]
  {
    if k > 0 {
      OffsetIs(format, offsets, k - 1);
    }
  }

  // ---- attributes ---------------------------------------------------------

  lemma {:induction false} ResidentLayout(kind: nat, content: Bytes, name: Bytes, flags: nat, id: nat)
    requires NtfsAttributes.MakeResidentAttr(kind, content, name, flags, id).Some?
    ensures var b := NtfsAttributes.MakeResidentAttr(kind, content, name, flags, id).value;
            && |b| >= 24 + |name| && |b| % 8 == 0
            && Num(b, 0, 4) == kind && Num(b, 4, 4) == |b| && Num(b, 8, 1) == 0
            && Num(b, 9, 1) == |name| / 2 && Num(b, 0xA, 2) == (if name == [] then 0 else 24)
            && Num(b, 0xC, 2) == flags && Num(b, 0xE, 2) == id
            && b[24..24 + |name|] == name
            && var at := Num(b, 0x14, 2);
               && 24 + |name| <= at < 32 + |name| && at % 8 == 0
               && Num(b, 0x10, 4) == |content| && at + |content| <= |b| < at + |content| + 8
               && b[at..at + |content|] == content
  {
    hide Packed, InRange, Num;
    NtfsAttributes.ResidentSize();
    var fields := NtfsAttributes.ResidentFields(kind, content, name, flags, id);
    var b := NtfsAttributes.MakeResidentAttr(kind, content, name, flags, id).value;
    var (header, at) := (Packed(NtfsAttributes.RESIDENT, fields), NtfsAttributes.ContentOffset(name));
    var fill := Zeros(NtfsAttributes.ResidentLength(name, content) - at - |content|);
    NtfsAttributes.ResidentParts(header, name, Zeros(at - 24 - |name|), content, fill, b);
    assert b[0..0 + Size(NtfsAttributes.RESIDENT)] == header;
    FieldsAt(NtfsAttributes.RESIDENT, fields, b, 0, [0, 4, 8, 9, 10, 12, 14, 16, 20, 22, 23]);
    ResidentValues(kind, content, name, flags, id);
  }

  lemma {:induction false} ResidentValues(kind: nat, content: Bytes, name: Bytes, flags: nat, id: nat)
    ensures var (f, v) := (NtfsAttributes.RESIDENT, NtfsAttributes.ResidentFields(kind, content, name, flags, id));
            && f == [4, 4, 1, 1, 2, 2, 2, 4, 2, 1, 1]
            && v == [kind, NtfsAttributes.ResidentLength(name, content), 0, |name| / 2,
                     if name != [] then 24 else 0, flags, id, |content|, NtfsAttributes.ContentOffset(name), 0, 0]
  {
  }

  lemma {:induction false} NonResidentLayout(kind: nat, lcn: nat, clusters: nat, realSize: nat, id: nat)
    requires NtfsAttributes.MakeNonResidentAttr(kind, lcn, clusters, realSize, id).Some?
    ensures var b := NtfsAttributes.MakeNonResidentAttr(kind, lcn, clusters, realSize, id).value;
            && |b| >= 0x44 && |b| % 8 == 0
            && Num(b, 0, 4) == kind && Num(b, 4, 4) == |b| && Num(b, 8, 1) == 1 && Num(b, 9, 1) == 0
            && Num(b, 0xA, 2) == 0 && Num(b, 0xC, 2) == 0 && Num(b, 0xE, 2) == id
            && Num(b, 0x10, 8) == 0 && Num(b, 0x18, 8) == clusters - 1 && Num(b, 0x20, 2) == 0x40
            && Num(b, 0x28, 8) == clusters * 0x1000 && Num(b, 0x30, 8) == realSize && Num(b, 0x38, 8) == realSize
            && var (n, k) := (b[0x40] % 16, b[0x40] / 16);
               && n > 0 && k > 0 && 0x41 + n + k + 1 <= |b| && b[0x41 + n + k] == 0
               && Num(b, 0x41, n) == clusters && Num(b, 0x41 + n, k) == lcn
  {
    hide Packed, InRange, Num, NtfsAttributes.RunBytes, NtfsAttributes.NonResidentFields;
    NtfsAttributes.NonResidentSize();
    var run := NtfsAttributes.RunBytes(lcn, clusters).value;
    var length := RoundUp8(0x40 + |run|);
    var fields := NtfsAttributes.NonResidentFields(kind, clusters, realSize, id, length);
    var b := NtfsAttributes.MakeNonResidentAttr(kind, lcn, clusters, realSize, id).value;
    assert b[0..0 + Size(NtfsAttributes.NONRESIDENT)] == Packed(NtfsAttributes.NONRESIDENT, fields);
    NonResidentHeader(kind, clusters, realSize, id, length, b);
    RunLayout(lcn, clusters, Packed(NtfsAttributes.NONRESIDENT, fields), Zeros(length - 0x40 - |run|), b);
  }

  lemma {:induction false} NonResidentHeader(kind: nat, clusters: nat, realSize: nat, id: nat, length: nat, b: Bytes)
    requires var v := NtfsAttributes.NonResidentFields(kind, clusters, realSize, id, length);
             && InRange(NtfsAttributes.NONRESIDENT, v)
             && Size(NtfsAttributes.NONRESIDENT) == 0x40 <= |b|
             && b[0..0 + Size(NtfsAttributes.NONRESIDENT)] == Packed(NtfsAttributes.NONRESIDENT, v)
    ensures Num(b, 0, 4) == kind && Num(b, 4, 4) == length && Num(b, 8, 1) == 1 && Num(b, 9, 1) == 0
    ensures Num(b, 0xA, 2) == 0 && Num(b, 0xC, 2) == 0 && Num(b, 0xE, 2) == id
    ensures Num(b, 0x10, 8) == 0 && Num(b, 0x18, 8) == clusters - 1 && Num(b, 0x20, 2) == 0x40
    ensures Num(b, 0x28, 8) == clusters * 0x1000 && Num(b, 0x30, 8) == realSize && Num(b, 0x38, 8) == realSize
  {
    hide Packed, InRange, Num;
    var (f, v) := (NtfsAttributes.NONRESIDENT,
                   NtfsAttributes.NonResidentFields(kind, clusters, realSize, id, length));
    NonResidentValues(kind, clusters, realSize, id, length);
    var o: seq<nat> := [0, 4, 8, 9, 0xA, 0xC, 0xE, 0x10, 0x18, 0x20, 0x22, 0x24, 0x28, 0x30, 0x38];
    FieldsAt(f, v, b, 0, o);
    assert o[0] == 0 && o[1] == 4 && o[2] == 8 && o[3] == 9 && o[4] == 0xA && o[5] == 0xC && o[6] == 0xE;
    assert o[7] == 0x10 && o[8] == 0x18 && o[9] == 0x20 && o[12] == 0x28 && o[13] == 0x30 && o[14] == 0x38;
  }

  lemma {:induction false} NonResidentValues(kind: nat, clusters: nat, realSize: nat, id: nat, length: nat)
    ensures var (f, v) := (NtfsAttributes.NONRESIDENT,
                           NtfsAttributes.NonResidentFields(kind, clusters, realSize, id, length));
            && f == [4, 4, 1, 1, 2, 2, 2, 8, 8, 2, 2, 4, 8, 8, 8]
            && v == [kind, length, 1, 0, 0, 0, id, 0, clusters - 1, 0x40, 0, 0, clusters * 0x1000, realSize, realSize]
  {
  }

  lemma {:induction false} RunLayout(lcn: nat, clusters: nat, header: Bytes, fill: Bytes, b: Bytes)
    requires NtfsAttributes.RunBytes(lcn, clusters).Some? && |header| == 0x40
    requires b == header + NtfsAttributes.RunBytes(lcn, clusters).value + fill
    ensures |b| >= 0x44
    ensures var (n, k) := (b[0x40] % 16, b[0x40] / 16);
            && n > 0 && k > 0 && 0x41 + n + k + 1 <= |b| && b[0x41 + n + k] == 0
            && Num(b, 0x41, n) == clusters && Num(b, 0x41 + n, k) == lcn
  {
    hide NtfsAttributes.FieldBytes, FromLittleEndian;
    var (count, first) := (NtfsAttributes.FieldBytes(clusters), NtfsAttributes.FieldBytes(lcn));
    NtfsAttributes.FieldBytesRead(clusters);
    NtfsAttributes.FieldBytesRead(lcn);
    var head: Bytes := [16 * |first| + |count|];
    assert b[0x40] == head[0] && head[0] % 16 == |count| && head[0] / 16 == |first|;
    assert b[0x41..0x41 + |count|] == count;
    assert b[0x41 + |count|..0x41 + |count| + |first|] == first;
  }

  // ---- names and directories ----------------------------------------------

  lemma {:induction false} NameUnit(name: NtfsIndex.Name, j: nat)
    requires j < |name|
    ensures Num(NtfsIndex.Utf16(name), 2 * j, 2) == name[j]
  {
    var b := NtfsIndex.Utf16(name);
    if j == 0 {
      assert b[0..2] == Put16(name[0]);
    } else {
      NameUnit(name[1..], j - 1);
      assert b[2..] == NtfsIndex.Utf16(name[1..]);
      SliceOfSlice(b, 2, |b|, 2 * (j - 1), 2 * j);
      assert b[2..|b|] == b[2..];
    }
  }

  lemma {:induction false} FileNameLayout(f: NtfsIndex.FileName)
    requires NtfsIndex.FileNameBytes(f).Some?
    ensures var b := NtfsIndex.FileNameBytes(f).value;
            && |b| == 66 + 2 * |f.name|
            && Num(b, 0, 8) == f.parent
            && Num(b, 0x08, 8) == Num(b, 0x10, 8) == Num(b, 0x18, 8) == Num(b, 0x20, 8) == 0x01D6_0000_0000_0000
            && Num(b, 0x28, 8) == f.allocSize && Num(b, 0x30, 8) == f.realSize && Num(b, 0x38, 4) == f.flags
            && Num(b, 0x3C, 4) == 0 && Num(b, 0x40, 1) == |f.name| && Num(b, 0x41, 1) == 3
            && forall j :: 0 <= j < |f.name| ==> Num(b, 66 + 2 * j, 2) == f.name[j]
  {
    hide Packed, InRange, Num, NtfsIndex.Utf16;
    NtfsIndex.FileNameSize();
    var (b, fields) := (NtfsIndex.FileNameBytes(f).value, NtfsIndex.FileNameFields(f));
    assert b[0..0 + Size(NtfsIndex.FILE_NAME)] == Packed(NtfsIndex.FILE_NAME, fields);
    FieldsAt(NtfsIndex.FILE_NAME, fields, b, 0, [0, 8, 0x10, 0x18, 0x20, 0x28, 0x30, 0x38, 0x3C, 0x40, 0x41]);
    FileNameValues(f);
    var name := NtfsIndex.Utf16(f.name);
    forall j | 0 <= j < |f.name| ensures Num(b, 66 + 2 * j, 2) == f.name[j] {
      NameUnit(f.name, j);
      NumBehind(Packed(NtfsIndex.FILE_NAME, fields), name, 2 * j, 2);
    }
  }

  lemma {:induction false} NumBehind(a: Bytes, b: Bytes, at: nat, n: nat)
    requires at + n <= |b|
    ensures Num(a + b, |a| + at, n) == Num(b, at, n)
  {
    assert (a + b)[|a| + at..|a| + at + n] == b[at..at + n];
  }

  lemma {:induction false} FileNameValues(f: NtfsIndex.FileName)
    ensures NtfsIndex.FILE_NAME == [8, 8, 8, 8, 8, 8, 8, 4, 4, 1, 1]
    ensures var time := 0x01D6_0000_0000_0000;
            NtfsIndex.FileNameFields(f)
            == [f.parent, time, time, time, time, f.allocSize, f.realSize, f.flags, 0, |f.name|, 3]
  {
  }

  /** A directory entry; its key is a file name that calls the root the parent, whatever the directory. */
  lemma {:induction false} EntryLayout(e: NtfsIndex.IndexEntry)
    requires NtfsIndex.EntryBytes(e).Some?
    ensures var b := NtfsIndex.EntryBytes(e).value;
            && Num(b, 0, 8) == 0x1_0000_0000_0000 + e.rec && Num(b, 8, 2) == |b| && |b| % 8 == 0
            && Num(b, 0xC, 4) == 0
            && var n := Num(b, 0xA, 2);
               && 16 + n <= |b| < 16 + n + 8
               && var key := NtfsIndex.FileName(0x1_0000_0000_0000 + 5, e.name, e.flags, e.size, (e.size + 7) / 8 * 8);
                  NtfsIndex.FileNameBytes(key) == Some(b[16..16 + n])
  {
    hide Packed, InRange, Num, NtfsIndex.FileNameBytes;
    NtfsIndex.EntrySize();
    var (b, key) := (NtfsIndex.EntryBytes(e).value, NtfsIndex.FileNameBytes(NtfsIndex.KeyOf(e)).value);
    var fields := NtfsIndex.EntryFields(e, key);
    assert b[0..0 + Size(NtfsIndex.ENTRY)] == Packed(NtfsIndex.ENTRY, fields);
    FieldsAt(NtfsIndex.ENTRY, fields, b, 0, [0, 8, 0xA, 0xC]);
    assert NtfsIndex.ENTRY == [8, 2, 2, 4];
    assert fields == [0x1_0000_0000_0000 + e.rec, RoundUp8(16 + |key|), |key|, 0];
    assert b[16..16 + |key|] == key;
  }

  /** The directory's index: the entries start at 32, and the last one has flag 2. */
  lemma {:induction false} IndexRootLayout(entries: seq<NtfsIndex.IndexEntry>)
    requires NtfsIndex.IndexRootBytes(entries).Some?
    ensures var b := NtfsIndex.IndexRootBytes(entries).value;
            && |b| >= 48 && NtfsIndex.EntriesBytes(entries) == Some(b[32..|b| - 16])
            && Num(b, 0, 4) == 0x30 && Num(b, 4, 4) == 1 && Num(b, 8, 4) == 0x1000 && Num(b, 0xC, 1) == 1
            && Num(b, 0xD, 3) == 0 && Num(b, 0x10, 4) == 16 && Num(b, 0x14, 4) == Num(b, 0x18, 4) == |b| - 16
            && Num(b, 0x1C, 4) == 0
            && Num(b, |b| - 16, 8) == 0 && Num(b, |b| - 8, 2) == 16 && Num(b, |b| - 6, 2) == 0
            && Num(b, |b| - 4, 4) == 2
  {
    hide Packed, InRange, Num, NtfsIndex.EntriesBytes;
    NtfsIndex.RootSize();
    NtfsIndex.EntrySize();
    NtfsIndex.EndFits();
    var (b, all) := (NtfsIndex.IndexRootBytes(entries).value, NtfsIndex.EntriesBytes(entries).value);
    var fields := NtfsIndex.RootFields(|all| + 16);
    assert b[0..0 + Size(NtfsIndex.ROOT)] == Packed(NtfsIndex.ROOT, fields);
    FieldsAt(NtfsIndex.ROOT, fields, b, 0, [0, 4, 8, 0xC, 0xD, 0x10, 0x14, 0x18, 0x1C]);
    assert NtfsIndex.ROOT == [4, 4, 4, 1, 3, 4, 4, 4, 4];
    assert fields == [0x30, 1, 0x1000, 1, 0, 16, 16 + (|all| + 16), 16 + (|all| + 16), 0];
    assert b[32..|b| - 16] == all;
    var end := |b| - 16;
    assert b[end..end + Size(NtfsIndex.ENTRY)] == Packed(NtfsIndex.ENTRY, NtfsIndex.END_FIELDS);
    FieldsAt(NtfsIndex.ENTRY, NtfsIndex.END_FIELDS, b, end, [0, 8, 0xA, 0xC]);
    assert NtfsIndex.ENTRY == [8, 2, 2, 4] && NtfsIndex.END_FIELDS == [0, 16, 0, 2];
    assert end + 8 == |b| - 8 && end + 0xA == |b| - 6 && end + 0xC == |b| - 4;
  }

  // ---- records ------------------------------------------------------------

  /** A finished record: its header, the fixups, and the attributes from 0x40 on. */
  lemma {:induction false} RecordLayout(i: MftRecord.RecordInfo, attrs: seq<Bytes>)
    requires MftRecord.RecordFits(i, attrs)
    ensures var b := MftRecord.WithFixups(MftRecord.RawRecord(i, attrs));
            && b[0] == 'F' as int && b[1] == 'I' as int && b[2] == 'L' as int && b[3] == 'E' as int
            && Num(b, 0x04, 2) == 0x30 && Num(b, 0x06, 2) == 3 && Num(b, 0x08, 8) == 0
            && Num(b, 0x10, 2) == i.sequence && Num(b, 0x12, 2) == i.links && Num(b, 0x14, 2) == 0x40
            && Num(b, 0x16, 2) == (if i.inUse then 1 else 0) + (if i.isDir then 2 else 0)
            && Num(b, 0x1C, 4) == 0x400 && Num(b, 0x20, 8) == i.baseRef
            && Num(b, 0x28, 2) == i.number + 1 && Num(b, 0x2C, 4) == i.number
            && var used := Num(b, 0x18, 4); var n := |MftRecord.Concat(attrs)|;
               used % 8 == 0 && 0x48 + n <= used < 0x50 + n
  {
    hide Packed, InRange, Num, MftRecord.Concat;
    MftRecord.HeaderSize();
    var raw := MftRecord.RawRecord(i, attrs);
    var (b, fields) := (MftRecord.WithFixups(raw), MftRecord.HeaderFields(i, MftRecord.UsedBytes(attrs)));
    MftRecord.FixupsUndo(raw);
    assert raw[..0x30] == Packed(MftRecord.HEADER, fields);
    assert b[0..0 + Size(MftRecord.HEADER)] == b[..0x30];
    FieldsAt(MftRecord.HEADER, fields, b, 0,
             [0, 4, 6, 8, 0x10, 0x12, 0x14, 0x16, 0x18, 0x1C, 0x20, 0x28, 0x2A, 0x2C]);
    assert MftRecord.HEADER == [4, 2, 2, 8, 2, 2, 2, 2, 4, 4, 8, 2, 2, 4];
    assert fields == [0x454C_4946, 0x30, 3, 0, i.sequence, i.links, 0x40, MftRecord.FlagsOf(i),
                      MftRecord.UsedBytes(attrs), 0x400, i.baseRef, i.number + 1, 0, i.number];
    FourBytes(b, 0x46, 0x49, 0x4C, 0x45);
  }

  /**
   Both sectors of a record end in the number 1 that stands at 0x30; with the bytes kept behind it put back, the
   attributes follow one another from 0x40 on, then come four bytes 0xFF and zeros.
   */
  lemma {:induction false} FixupsLayout(i: MftRecord.RecordInfo, attrs: seq<Bytes>)
    requires MftRecord.RecordFits(i, attrs)
    ensures var (b, n) := (MftRecord.WithFixups(MftRecord.RawRecord(i, attrs)), |MftRecord.Concat(attrs)|);
            && |b| == 0x400 && b[0x30..0x32] == b[510..512] == b[1022..] == [1, 0]
            && var raw := b[..510] + b[0x32..0x34] + b[512..1022] + b[0x34..0x36];
               && 0x44 + n <= |raw| == 0x400 && raw[0x40..0x40 + n] == MftRecord.Concat(attrs)
               && raw[0x40 + n..0x44 + n] == [0xFF, 0xFF, 0xFF, 0xFF]
               && forall k :: 0x44 + n <= k < 0x400 ==> raw[k] == 0
  {
    hide Packed, InRange, MftRecord.Concat;
    MftRecord.HeaderSize();
    var (was, all) := (MftRecord.RawRecord(i, attrs), MftRecord.Concat(attrs));
    var b := MftRecord.WithFixups(was);
    FixupsStand(was);
    var raw := b[..510] + b[0x32..0x34] + b[512..1022] + b[0x34..0x36];
    MftRecord.FixupsUndo(was);
    assert raw == MftRecord.UndoFixups(b, 0x30);
    var head := Packed(MftRecord.HEADER, MftRecord.HeaderFields(i, MftRecord.UsedBytes(attrs))) + Zeros(16);
    AttributesStand(was, head, all, MftRecord.END_BYTES, raw);
  }

  lemma {:induction false} FixupsStand(raw: Bytes)
    requires |raw| == 0x400
    ensures var b := MftRecord.WithFixups(raw); b[0x30..0x32] == b[510..512] == b[1022..] == [1, 0]
  {
    var b := MftRecord.WithFixups(raw);
    assert b[0x30..0x32] == MftRecord.USN && b[510..512] == MftRecord.USN && b[1022..] == MftRecord.USN;
  }

  lemma {:induction false} AttributesStand(was: Bytes, head: Bytes, all: Bytes, end: Bytes, raw: Bytes)
    requires |head| == 0x40 && |end| == 4 && |was| == |raw| == 0x400 && 0x44 + |all| <= 0x400
    requires was == head + all + end + Zeros(0x400 - 0x44 - |all|) && raw[0x36..] == was[0x36..]
    ensures raw[0x40..0x40 + |all|] == all && raw[0x40 + |all|..0x44 + |all|] == end
    ensures forall k :: 0x44 + |all| <= k < 0x400 ==> raw[k] == 0
  {
    forall k | 0x40 <= k < 0x400 ensures raw[k] == was[k] {
      assert raw[k] == raw[0x36..][k - 0x36] && was[k] == was[0x36..][k - 0x36];
    }
    assert raw[0x40..0x40 + |all|] == was[0x40..0x40 + |all|];
    assert raw[0x40 + |all|..0x44 + |all|] == was[0x40 + |all|..0x44 + |all|];
  }

  lemma {:induction false} FourBytes(b: Bytes, w: Byte, x: Byte, y: Byte, z: Byte)
    requires |b| >= 4 && Num(b, 0, 4) == w as int + 0x100 * x as int + 0x1_0000 * y as int + 0x100_0000 * z as int
    ensures b[0] == w && b[1] == x && b[2] == y && b[3] == z
  {
    hide FromLittleEndian;
    var s := b[0..4];
    var (p, q, r) := (FromLittleEndian(s[1..]), FromLittleEndian(s[2..]), FromLittleEndian(s[3..]));
    FirstByte(s);
    FirstByte(s[1..]);
    FirstByte(s[2..]);
    FirstByte(s[3..]);
    assert s[1..][1..] == s[2..] && s[2..][1..] == s[3..] && s[3..][1..] == [];
    SameDigit(s[0], p, w, x + 0x100 * y + 0x1_0000 * z);
    SameDigit(s[1], q, x, y + 0x100 * z);
    SameDigit(s[2], r, y, z);
  }

  lemma {:induction false} FirstByte(s: Bytes)
    requires s != []
    ensures FromLittleEndian(s) == s[0] + 256 * FromLittleEndian(s[1..])
    ensures s[1..] == [] ==> FromLittleEndian(s) == s[0]
  {
  }

  lemma {:induction false} SameDigit(a: Byte, p: int, b: Byte, q: int)
    requires a + 256 * p == b + 256 * q
    ensures a == b && p == q
  {
  }

  /** The standard information of a record: four times, the permissions, and zeros. */
  lemma {:induction false} StdInfoLayout(flags: nat)
    requires InRange(NtfsMft.STD_INFO, NtfsMft.StdInfoFields(flags))
    ensures var b := Packed(NtfsMft.STD_INFO, NtfsMft.StdInfoFields(flags));
            && |b| == 0x30
            && Num(b, 0, 8) == Num(b, 8, 8) == Num(b, 0x10, 8) == Num(b, 0x18, 8) == 0x01D6_0000_0000_0000
            && Num(b, 0x20, 4) == flags && Num(b, 0x24, 4) == Num(b, 0x28, 4) == Num(b, 0x2C, 4) == 0
  {
    hide Packed, InRange, Num;
    var (f, v) := (NtfsMft.STD_INFO, NtfsMft.StdInfoFields(flags));
    var b := Packed(f, v);
    var o: seq<nat> := [0, 8, 0x10, 0x18, 0x20, 0x24, 0x28, 0x2C];
    NtfsMft.PermissionsRead(flags);
    assert b[0..0 + Size(f)] == b;
    FieldsAt(f, v, b, 0, o);
    assert o[4] == 0x20 && o[5] == 0x24 && o[6] == 0x28 && o[7] == 0x2C;
  }

  /** The attributes of a file: standard information, name, then data, or an index called $I30. */
  lemma {:induction false} AttributesLayout(f: NtfsMft.FileSpec)
    requires NtfsMft.AttrsOf(f).Some?
    ensures var attrs := NtfsMft.AttrsOf(f).value;
            && |attrs| == 3 && (forall k :: 0 <= k < 3 ==> |attrs[k]| >= 0x18 && Num(attrs[k], 4, 4) == |attrs[k]|)
            && Num(attrs[0], 0, 4) == 0x10 && Num(attrs[1], 0, 4) == 0x30
            && Num(attrs[2], 0, 4) == (if f.body.Directory? then 0x90 else 0x80)
    ensures f.body.Directory? ==>
              var b := NtfsMft.AttrsOf(f).value[2];
              && |b| >= 0x20 && Num(b, 9, 1) == 4 && Num(b, 0xA, 2) == 0x18
              && Num(b, 0x18, 2) == '$' as int && Num(b, 0x1A, 2) == 'I' as int
              && Num(b, 0x1C, 2) == '3' as int && Num(b, 0x1E, 2) == '0' as int
  {
    hide Packed, InRange, Num, NtfsAttributes.MakeResidentAttr, NtfsAttributes.MakeNonResidentAttr;
    hide NtfsIndex.FileNameBytes, NtfsIndex.IndexRootBytes, NtfsIndex.Utf16;
    var info := Packed(NtfsMft.STD_INFO, NtfsMft.StdInfoFields(f.name.flags));
    ResidentLayout(0x10, info, [], 0, 0);
    ResidentLayout(0x30, NtfsIndex.FileNameBytes(f.name).value, [], 0, 0);
    match f.body
    case Content(b) => ResidentLayout(0x80, b, [], 0, 0);
    case Clusters(lcn, clusters, size) => NonResidentLayout(0x80, lcn, clusters, size, 0);
    case Directory(entries) =>
      ResidentLayout(0x90, NtfsIndex.IndexRootBytes(entries).value, NtfsMft.I30, 0, 0);
      var b := NtfsMft.AttrsOf(f).value[2];
      I30Spelled();
      forall j | 0 <= j < 4 ensures Num(b, 0x18 + 2 * j, 2) == Num(NtfsMft.I30, 2 * j, 2) {
        NumInside(b, 0x18, NtfsMft.I30, 2 * j, 2);
      }
      assert Num(b, 0x18 + 2 * 0, 2) == Num(NtfsMft.I30, 2 * 0, 2);
      assert Num(b, 0x18 + 2 * 1, 2) == Num(NtfsMft.I30, 2 * 1, 2);
      assert Num(b, 0x18 + 2 * 2, 2) == Num(NtfsMft.I30, 2 * 2, 2);
      assert Num(b, 0x18 + 2 * 3, 2) == Num(NtfsMft.I30, 2 * 3, 2);
  }

  lemma {:induction false} I30Spelled()
    ensures |NtfsMft.I30| == 8
    ensures Num(NtfsMft.I30, 0, 2) == '$' as int && Num(NtfsMft.I30, 2, 2) == 'I' as int
    ensures Num(NtfsMft.I30, 4, 2) == '3' as int && Num(NtfsMft.I30, 6, 2) == '0' as int
  {
    hide Num, NtfsIndex.Utf16;
    var name := NtfsMft.Ascii("$I30");
    NameUnit(name, 0);
    NameUnit(name, 1);
    NameUnit(name, 2);
    NameUnit(name, 3);
  }

  lemma {:induction false} NumInside(b: Bytes, at: nat, part: Bytes, i: nat, n: nat)
    requires at + |part| <= |b| && b[at..at + |part|] == part && i + n <= |part|
    ensures Num(b, at + i, n) == Num(part, i, n)
  {
    SliceOfSlice(b, at, at + |part|, i, i + n);
  }

  // ---- the disk -----------------------------------------------------------

  /** The first sector of the image: one partition of type 7, from sector 2048 to the end. */
  lemma {:induction false} PartitionTable(sizeMib: int, dll: Bytes, child: Bytes)
    requires NtfsImage.FilesFit(sizeMib, |dll|, |child|) && NtfsImage.ImageOf(sizeMib, dll, child).Some?
    ensures var img := NtfsImage.ImageOf(sizeMib, dll, child).value;
            && |img| == sizeMib * 0x10_0000 >= 0x20_0000
            && Num(img, 0, 0x1BE) == 0 && Num(img, 0x1BE, 1) == 0x80 && Num(img, 0x1BF, 3) == 0x00_2120
            && Num(img, 0x1C2, 1) == 7 && Num(img, 0x1C3, 3) == 0xFF_FFFE && Num(img, 0x1C6, 4) == 2048
            && Num(img, 0x1CA, 4) == sizeMib * 2048 - 2048 && Num(img, 0x1CE, 48) == 0 && Num(img, 0x1FE, 2) == 0xAA55
  {
    hide Packed, InRange, Num, NtfsImage.ImageOf, Size;
    NtfsImage.SectorsPlaced(sizeMib, dll, child);
    var (img, sectors) := (NtfsImage.ImageOf(sizeMib, dll, child).value, NtfsImage.PartSectors(sizeMib));
    var (f, v) := (NtfsImage.MBR, NtfsImage.MbrFields(sectors));
    var o: seq<nat> := [0, 0x1BE, 0x1BF, 0x1C2, 0x1C3, 0x1C6, 0x1CA, 0x1CE, 0x1FE];
    FieldsAt(f, v, img, 0, o);
    assert o[1] == 0x1BE && o[2] == 0x1BF && o[3] == 0x1C2 && o[4] == 0x1C3 && o[5] == 0x1C6;
    assert o[6] == 0x1CA && o[7] == 0x1CE && o[8] == 0x1FE;
  }

  /** The first sector of the partition. */
  lemma {:induction false} BootSector(sizeMib: int, dll: Bytes, child: Bytes)
    requires NtfsImage.FilesFit(sizeMib, |dll|, |child|) && NtfsImage.ImageOf(sizeMib, dll, child).Some?
    ensures var img := NtfsImage.ImageOf(sizeMib, dll, child).value;
            && |img| >= 0x20_0000
            && Num(img, 0x10_0000, 3) == 0x9052EB && Num(img, 0x10_0003, 8) == 0x2020_2020_5346_544E
            && Num(img, 0x10_000B, 2) == 512 && Num(img, 0x10_000D, 1) == 8 && Num(img, 0x10_0015, 1) == 0xF8
            && Num(img, 0x10_0018, 2) == 63 && Num(img, 0x10_001A, 2) == 255 && Num(img, 0x10_001C, 4) == 2048
            && Num(img, 0x10_0024, 4) == 0x80_0080 && Num(img, 0x10_0028, 8) == sizeMib * 2048 - 2048
            && Num(img, 0x10_0030, 8) == 4 && Num(img, 0x10_0038, 8) == 8 && Num(img, 0x10_0040, 1) == 256 - 10
            && Num(img, 0x10_0044, 1) == 1 && Num(img, 0x10_0048, 8) == 0x1234_5678_90AB_CDEF
            && Num(img, 0x10_01FE, 2) == 0xAA55
  {
    hide Packed, InRange, Num, NtfsImage.ImageOf, Size;
    NtfsImage.SectorsPlaced(sizeMib, dll, child);
    var (img, sectors) := (NtfsImage.ImageOf(sizeMib, dll, child).value, NtfsImage.PartSectors(sizeMib));
    var (f, v) := (NtfsImage.VBR, NtfsImage.VbrFields(sectors));
    var o: seq<nat> := [0, 3, 0xB, 0xD, 0xE, 0x15, 0x16, 0x18, 0x1A, 0x1C, 0x20, 0x24, 0x28, 0x30, 0x38, 0x40, 0x41,
                        0x44, 0x45, 0x48, 0x50, 0x1FE];
    FieldsAt(f, v, img, 0x10_0000, o);
    assert o[1] == 3 && o[2] == 0xB && o[3] == 0xD && o[5] == 0x15 && o[7] == 0x18 && o[8] == 0x1A && o[9] == 0x1C;
    assert o[11] == 0x24 && o[12] == 0x28 && o[13] == 0x30 && o[14] == 0x38 && o[15] == 0x40 && o[17] == 0x44;
    assert o[19] == 0x48 && o[21] == 0x1FE;
  }

  /** The record in a slot of the table: its number, and whether it is unused (0), a file (1) or a directory (3). */
  lemma {:induction false} SlotLayout(k: nat, dllSize: nat, childSize: nat)
    requires k < NtfsMft.RecordCount(dllSize, childSize) && NtfsMft.SlotBytes(k, dllSize, childSize).Some?
    ensures var b := NtfsMft.SlotBytes(k, dllSize, childSize).value;
            && |b| == 0x400 && b[0] == 'F' as int && b[1] == 'I' as int && b[2] == 'L' as int && b[3] == 'E' as int
            && Num(b, 0x2C, 4) == k && Num(b, 0x10, 2) == Num(b, 0x12, 2) == 1 && Num(b, 0x20, 8) == 0
            && Num(b, 0x16, 2) == (if 12 <= k < 24 || (k == 27 && dllSize == 0) then 0
                                   else if k == 5 || k == 11 || k == 25 then 3 else 1)
  {
    hide Packed, InRange, Num, NtfsMft.AttrsOf, NtfsMft.Ascii, NtfsMft.AsciiBytes;
    hide MftRecord.RecordFits, MftRecord.RawRecord, MftRecord.WithFixups;
    match NtfsMft.SpecOf(k, dllSize, childSize)
    case None => RecordLayout(NtfsMft.HoleInfo(k), []);
    case Some(f) => RecordLayout(NtfsMft.InfoOfFile(f), NtfsMft.AttrsOf(f).value);
  }

  /** Each record starts a kilobyte after the one before, from cluster 4 on; the mirror covers numbers 16 to 19. */
  lemma {:induction false} TableLayout(sizeMib: int, dll: Bytes, child: Bytes, k: nat)
    requires NtfsImage.FilesFit(sizeMib, |dll|, |child|) && NtfsImage.ImageOf(sizeMib, dll, child).Some?
    requires k < (if |child| > 0 then 29 else if |dll| > 0 then 28 else 27)
    ensures var (img, at) := (NtfsImage.ImageOf(sizeMib, dll, child).value, 0x10_4000 + 0x400 * k);
            && at + 0x400 <= |img|
            && img[at] == 'F' as int && img[at + 1] == 'I' as int
            && img[at + 2] == 'L' as int && img[at + 3] == 'E' as int
            && Num(img, at + 0x2C, 4) == (if 16 <= k < 20 then k - 16 else k)
            && Num(img, at + 0x10, 2) == Num(img, at + 0x12, 2) == 1 && Num(img, at + 0x20, 8) == 0
            && Num(img, at + 0x16, 2) == (if 12 <= k < 16 || 20 <= k < 24 || (k == 27 && |dll| == 0) then 0
                                          else if k == 5 || k == 11 || k == 25 then 3 else 1)
  {
    hide Packed, InRange, Num, NtfsImage.ImageOf, NtfsMft.SlotBytes;
    NtfsImage.RecordsPlaced(sizeMib, dll, child, k);
    var (img, at) := (NtfsImage.ImageOf(sizeMib, dll, child).value, 0x10_4000 + 0x400 * k);
    SlotLayout(if 16 <= k < 20 then k - 16 else k, |dll|, |child|);
    assert NtfsImage.SlotOffset(k) == at && NtfsImage.SlotOffset(k + 1) == at + 0x400;
    var b := img[at..at + 0x400];
    NumInside(img, at, b, 0x2C, 4);
    NumInside(img, at, b, 0x10, 2);
    NumInside(img, at, b, 0x12, 2);
    NumInside(img, at, b, 0x20, 8);
    NumInside(img, at, b, 0x16, 2);
    assert b[0] == img[at] && b[1] == img[at + 1] && b[2] == img[at + 2] && b[3] == img[at + 3];
  }

  /** The embedded files lie at clusters 32 and 512. */
  lemma {:induction false} FilesLayout(sizeMib: int, dll: Bytes, child: Bytes)
    requires NtfsImage.FilesFit(sizeMib, |dll|, |child|) && NtfsImage.ImageOf(sizeMib, dll, child).Some?
    ensures var img := NtfsImage.ImageOf(sizeMib, dll, child).value;
            && (|dll| > 0 ==> 0x12_0000 + |dll| <= |img| && img[0x12_0000..0x12_0000 + |dll|] == dll)
            && (|child| > 0 ==> 0x30_0000 + |child| <= |img| && img[0x30_0000..0x30_0000 + |child|] == child)
  {
    hide Packed, InRange, NtfsMft.TableTo, NtfsImage.BootSectors, NtfsImage.Assigned, NtfsImage.WithFile;
    var mft := NtfsMft.TableTo(NtfsMft.RecordCount(|dll|, |child|), |dll|, |child|).value;
    NtfsImage.MftLength(|dll|, |child|);
    NtfsImage.TablePlaced(sizeMib, mft);
    NtfsImage.FilesPlaced(NtfsImage.WithTable(sizeMib, mft), sizeMib, dll, child);
  }
}
