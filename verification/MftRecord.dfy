/** MFT records: 1024 bytes with a header, attributes, an end marker and update-sequence fixups. */
module MftRecord {
  import opened Words
  import opened StructPack
  import NtfsAttributes

  const SECTOR: nat := 512
  const MFT_RECORD_SIZE: nat := 1024
  const USA_OFFSET: nat := 0x30
  const ATTRS_OFFSET: nat := 0x40
  const FILE_MAGIC: nat := 0x454C_4946

  type Bytes = seq<Byte>

  /**
   Magic, fixup array offset and count, log number, sequence, links, first attribute, flags, bytes used,
   bytes allocated, base record, next attribute id, 0, record number.
   */
  const HEADER: Format := [4, 2, 2, 8, 2, 2, 2, 2, 4, 4, 8, 2, 2, 4]

  const USED: nat := 8

  lemma {:induction false} HeaderSize()
    ensures |HEADER| == 14 && Size(HEADER) == 0x30
    ensures Offset(HEADER, 8) == 0x18 && Offset(HEADER, 9) == 0x1C && Offset(HEADER, 10) == 0x20
  {
    assert Offset(HEADER, 4) == 0x10;
    assert Offset(HEADER, 8) == 0x18;
    assert Offset(HEADER, 11) == 0x28;
  }

  datatype RecordInfo = RecordInfo(number: nat, isDir: bool, inUse: bool, baseRef: nat, sequence: nat, links: nat)

  function FlagsOf(i: RecordInfo): nat {
    (if i.inUse then 1 else 0) + (if i.isDir then 2 else 0)
  }

  function HeaderFields(i: RecordInfo, used: nat): seq<int> {
    [FILE_MAGIC, USA_OFFSET, 3, 0, i.sequence, i.links, ATTRS_OFFSET, FlagsOf(i), used, MFT_RECORD_SIZE,
     i.baseRef, i.number + 1, 0, i.number]
  }

  function Concat(parts: seq<Bytes>): Bytes {
    if parts == [] then [] else parts[0] + Concat(parts[1..])
  }

  lemma {:induction false} ConcatPlus(a: seq<Bytes>, b: seq<Bytes>)
    ensures Concat(a + b) == Concat(a) + Concat(b)
  {
    if a == [] {
      assert a + b == b;
    } else {
      assert (a + b)[1..] == a[1..] + b;
      ConcatPlus(a[1..], b);
      Assoc(a[0], Concat(a[1..]), Concat(b));
    }
  }

  const END_BYTES: Bytes := [0xFF, 0xFF, 0xFF, 0xFF]

  /** Bytes used: the end marker counts 8, rounded up. */
  function UsedBytes(attrs: seq<Bytes>): nat {
    RoundUp8(ATTRS_OFFSET + |Concat(attrs)| + 8)
  }

  /** All fields are in range and the attributes leave room for the end marker. */
  predicate RecordFits(i: RecordInfo, attrs: seq<Bytes>) {
    InRange(HEADER, HeaderFields(i, UsedBytes(attrs))) && ATTRS_OFFSET + |Concat(attrs)| + 4 <= MFT_RECORD_SIZE
  }

  /** The record before its fixups. */
  function RawRecord(i: RecordInfo, attrs: seq<Bytes>): (raw: Bytes)
    requires RecordFits(i, attrs)
    ensures |raw| == MFT_RECORD_SIZE
  {
    HeaderSize();
    Packed(HEADER, HeaderFields(i, UsedBytes(attrs))) + Zeros(16) + Concat(attrs) + END_BYTES
    + Zeros(MFT_RECORD_SIZE - ATTRS_OFFSET - |Concat(attrs)| - 4)
  }

  const USN: Bytes := [1, 0]

  /** The last two bytes of each sector move to the fixup array and make way for the sequence number. */
  function WithFixups(raw: Bytes): (b: Bytes)
    requires |raw| == MFT_RECORD_SIZE
    ensures |b| == MFT_RECORD_SIZE
  {
    raw[..0x30] + USN + raw[510..512] + raw[1022..] + raw[0x36..510] + USN + raw[512..1022] + USN
  }

  // ---- the reader ---------------------------------------------------------

  datatype FileRecord = FileRecord(info: RecordInfo, used: nat, attrs: seq<Bytes>)

  /** Both sectors end in the sequence number that starts the fixup array at `usa`. */
  predicate FixupsMatch(b: Bytes, usa: nat)
    requires |b| == MFT_RECORD_SIZE && usa + 6 <= |b|
  {
    b[510..512] == b[usa..usa + 2] && b[1022..] == b[usa..usa + 2]
  }

  function UndoFixups(b: Bytes, usa: nat): (raw: Bytes)
    requires |b| == MFT_RECORD_SIZE && usa + 6 <= |b|
    ensures |raw| == MFT_RECORD_SIZE
  {
    b[..510] + b[usa + 2..usa + 4] + b[512..1022] + b[usa + 4..usa + 6]
  }

  /** Attributes are walked by their lengths up to the end marker. */
  function WalkAttributes(b: Bytes, at: nat): Option<seq<Bytes>>
    decreases |b| - at
  {
    if at + 4 > |b| then None
    else if FromLittleEndian(b[at..at + 4]) == NtfsAttributes.END_MARKER then Some([])
    else if at + 8 > |b| then None
    else
      var length := FromLittleEndian(b[at + 4..at + 8]);
      if length < 8 || at + length > |b| then None
      else
        match WalkAttributes(b, at + length)
        case None => None
        case Some(rest) => Some([b[at..at + length]] + rest)
  }

  function ReadRecord(b: Bytes): Option<FileRecord> {
    HeaderSize();
    if |b| != MFT_RECORD_SIZE || Field(HEADER, b, 0, 0) != FILE_MAGIC || Field(HEADER, b, 0, 2) != 3 then None
    else
      var usa := Field(HEADER, b, 0, 1);
      if usa + 6 > |b| || !FixupsMatch(b, usa) then None
      else
        var raw := UndoFixups(b, usa);
        match WalkAttributes(raw, Field(HEADER, raw, 0, 6))
        case None => None
        case Some(attrs) =>
          var flags := Field(HEADER, raw, 0, 7);
          Some(FileRecord(
            RecordInfo(Field(HEADER, raw, 0, 13), flags / 2 % 2 == 1, flags % 2 == 1, Field(HEADER, raw, 0, 10),
                       Field(HEADER, raw, 0, 4), Field(HEADER, raw, 0, 5)),
            Field(HEADER, raw, 0, USED), attrs))
  }

  // ---- the round trip -----------------------------------------------------

  predicate AllAttributes(attrs: seq<Bytes>) {
    forall i :: 0 <= i < |attrs| ==> NtfsAttributes.IsAttribute(attrs[i])
  }

  lemma {:induction false} EndMarkerReads()
    ensures FromLittleEndian(END_BYTES) == NtfsAttributes.END_MARKER
  {
    assert END_BYTES[1..] == [0xFF, 0xFF, 0xFF] && END_BYTES[1..][1..] == [0xFF, 0xFF];
    assert END_BYTES[1..][1..][1..] == [0xFF] && END_BYTES[1..][1..][1..][1..] == [];
    assert FromLittleEndian([0xFF]) == 0xFF;
    assert FromLittleEndian([0xFF, 0xFF]) == 0xFFFF by { assert [0xFF, 0xFF][1..] == [0xFF]; }
    assert FromLittleEndian([0xFF, 0xFF, 0xFF]) == 0xFF_FFFF by { assert [0xFF, 0xFF, 0xFF][1..] == [0xFF, 0xFF]; }
  }

  lemma {:induction false} SlicesOfSlice(b: Bytes, at: nat, n: nat)
    requires at + n <= |b| && 8 <= n
    ensures b[at..at + 4] == b[at..at + n][0..4] && b[at + 4..at + 8] == b[at..at + n][4..8]
  {
    var s := b[at..at + n];
    forall k | 0 <= k < 4 ensures b[at + 4..at + 8][k] == s[4..8][k] {
      assert s[k + 4] == b[at + k + 4];
    }
  }

  lemma {:induction false} WalkReadsBack(attrs: seq<Bytes>, b: Bytes, at: nat)
    requires AllAttributes(attrs)
    requires var n := |Concat(attrs)|;
             at + n + 4 <= |b| && b[at..at + n] == Concat(attrs) && b[at + n..at + n + 4] == END_BYTES
    ensures WalkAttributes(b, at) == Some(attrs)
    decreases |attrs|
  {
    hide FromLittleEndian;
    EndMarkerReads();
    if attrs != [] {
      var a, rest := attrs[0], Concat(attrs[1..]);
      assert b[at..at + |a|] == (a + rest)[..|a|] == a;
      assert b[at + |a|..at + |a| + |rest|] == (a + rest)[|a|..];
      assert NtfsAttributes.IsAttribute(a);
      SlicesOfSlice(b, at, |a|);
      WalkReadsBack(attrs[1..], b, at + |a|);
      assert attrs == [a] + attrs[1..];
    }
  }

  /** Undoing the fixups restores everything outside the fixup array itself. */
  lemma {:induction false} FixupsUndo(raw: Bytes)
    requires |raw| == MFT_RECORD_SIZE
    ensures var b := WithFixups(raw);
            && b[..0x30] == raw[..0x30] && FixupsMatch(b, USA_OFFSET)
            && UndoFixups(b, USA_OFFSET)[..0x30] == raw[..0x30]
            && UndoFixups(b, USA_OFFSET)[0x36..] == raw[0x36..]
  {
    var b := WithFixups(raw);
    assert b[0x30..0x32] == USN && b[510..512] == USN && b[1022..] == USN;
    assert b[0x32..0x34] == raw[510..512] && b[0x34..0x36] == raw[1022..];
    assert b[0x36..510] == raw[0x36..510] && b[512..1022] == raw[512..1022];
    var u := UndoFixups(b, USA_OFFSET);
    assert u[..510] == b[..510] && u[510..512] == raw[510..512];
    assert u[512..1022] == raw[512..1022] && u[1022..] == raw[1022..];
    forall k | 0 <= k < MFT_RECORD_SIZE - 0x36 ensures u[0x36..][k] == raw[0x36..][k] {
      var i := k + 0x36;
      if i < 510 {
        assert u[i] == b[i] == b[0x36..510][k];
      } else if i < 512 {
        assert u[i] == u[510..512][i - 510];
      } else if i < 1022 {
        assert u[i] == u[512..1022][i - 512];
      } else {
        assert u[i] == u[1022..][i - 1022];
      }
    }
  }

  lemma {:induction false} RawParts(header: Bytes, attrs: Bytes, fill: Bytes, raw: Bytes)
    requires |header| == 0x30 && raw == header + Zeros(16) + attrs + END_BYTES + fill
    ensures raw[..0x30] == header && raw[0x40..0x40 + |attrs|] == attrs
    ensures raw[0x40 + |attrs|..0x40 + |attrs| + 4] == END_BYTES
  {
  }

  /** Checking and undoing the fixups and walking the attributes recovers exactly what was put in. */
  lemma {:induction false} RecordRoundTrip(i: RecordInfo, attrs: seq<Bytes>)
    requires RecordFits(i, attrs) && AllAttributes(attrs)
    ensures ReadRecord(WithFixups(RawRecord(i, attrs))) == Some(FileRecord(i, UsedBytes(attrs), attrs))
  {
    hide Field, Packed, Pow256, LittleEndian, FromLittleEndian, WithFixups, UndoFixups, FixupsMatch, Concat;
    hide WalkAttributes;
    HeaderSize();
    var fields := HeaderFields(i, UsedBytes(attrs));
    var raw := RawRecord(i, attrs);
    var b := WithFixups(raw);
    var undone := UndoFixups(b, USA_OFFSET);
    FixupsUndo(raw);
    RawParts(Packed(HEADER, fields), Concat(attrs), Zeros(MFT_RECORD_SIZE - ATTRS_OFFSET - |Concat(attrs)| - 4), raw);
    assert b[0..0 + Size(HEADER)] == b[..0x30] && undone[0..0 + Size(HEADER)] == undone[..0x30];
    FieldsOfPacked(HEADER, fields, b, 0);
    FieldsOfPacked(HEADER, fields, undone, 0);
    var n := |Concat(attrs)|;
    SameTail(undone, raw, 0x36, 0x40, 0x40 + n);
    SameTail(undone, raw, 0x36, 0x40 + n, 0x40 + n + 4);
    WalkReadsBack(attrs, undone, ATTRS_OFFSET);
  }

  lemma {:induction false} SameTail(s: Bytes, t: Bytes, a: nat, i: nat, j: nat)
    requires |s| == |t| && a <= i <= j <= |s| && s[a..] == t[a..]
    ensures s[i..j] == t[i..j]
  {
    forall k | i <= k < j ensures s[k] == t[k] {
      assert s[k] == s[a..][k - a] && t[k] == t[a..][k - a];
    }
  }

  // ---- building in place --------------------------------------------------

  /** The header up to field `k`, the rest of the record still zero. */
  function HeaderTo(fields: seq<int>, k: nat): Bytes
    requires InRange(HEADER, fields) && k <= |HEADER|
  {
    PackedTo(HEADER, fields, k) + Zeros(MFT_RECORD_SIZE - Offset(HEADER, k))
  }

  lemma {:induction false} NextField(fields: seq<int>, k: nat)
    requires InRange(HEADER, fields) && k < |HEADER|
    ensures Offset(HEADER, k) + HEADER[k] <= 0x30 && |HeaderTo(fields, k)| == MFT_RECORD_SIZE
    ensures Patched(HeaderTo(fields, k), Offset(HEADER, k), LittleEndian(fields[k], HEADER[k]))
            == HeaderTo(fields, k + 1)
    ensures fields[k] == 0 ==> HeaderTo(fields, k + 1) == HeaderTo(fields, k)
  {
    HeaderSize();
    OffsetsRise(HEADER, k + 1, |HEADER|);
    var o, w := Offset(HEADER, k), HEADER[k];
    assert Zeros(MFT_RECORD_SIZE - o) == Zeros(w) + Zeros(MFT_RECORD_SIZE - o - w);
    ZeroEndian(w);
    var before, v, rest := PackedTo(HEADER, fields, k), LittleEndian(fields[k], w), Zeros(MFT_RECORD_SIZE - o - w);
    assert HeaderTo(fields, k)[o + w..] == rest;
    Assoc(before, Zeros(w), rest);
  }

  method PutField(rec: array<Byte>, fields: seq<int>, k: nat)
    requires InRange(HEADER, fields) && k < |HEADER| && rec[..] == HeaderTo(fields, k)
    modifies rec
    ensures rec[..] == HeaderTo(fields, k + 1)
  {
    hide HeaderTo, Patched;
    NextField(fields, k);
    assert rec.Length == |rec[..]|;
    Patch(rec, Offset(HEADER, k), LittleEndian(fields[k], HEADER[k]));
  }

  /** Zero fields need no store. */
  lemma {:induction false} SkipField(fields: seq<int>, k: nat)
    requires InRange(HEADER, fields) && k < |HEADER| && fields[k] == 0
    ensures HeaderTo(fields, k + 1) == HeaderTo(fields, k)
  {
    NextField(fields, k);
  }

  /** The header, with the byte counts still to be filled in. */
  function EarlyFields(i: RecordInfo): seq<int> {
    HeaderFields(i, 0)[9 := 0]
  }

  lemma {:induction false} EarlyFieldsFit(i: RecordInfo, used: nat)
    requires InRange(HEADER, HeaderFields(i, used))
    ensures InRange(HEADER, EarlyFields(i))
  {
    var full, early := HeaderFields(i, used), EarlyFields(i);
    forall k | 0 <= k < |HEADER| ensures 0 <= early[k] < Pow256(HEADER[k]) {
      assert 0 <= full[k] < Pow256(HEADER[k]);
      assert k != 8 && k != 9 ==> early[k] == full[k];
    }
  }

  method WriteHeader(rec: array<Byte>, i: RecordInfo)
    requires InRange(HEADER, EarlyFields(i)) && rec[..] == Zeros(MFT_RECORD_SIZE)
    modifies rec
    ensures rec[..] == Packed(HEADER, EarlyFields(i)) + Zeros(MFT_RECORD_SIZE - 0x30)
  {
    hide InRange, HeaderTo, Packed, Offset, Zeros, Size, Pow256;
    var fields := EarlyFields(i);
    HeaderStart(fields);
    PutField(rec, fields, 0);
    PutField(rec, fields, 1);
    PutField(rec, fields, 2);
    PutField(rec, fields, 3);
    PutField(rec, fields, 4);
    PutField(rec, fields, 5);
    PutField(rec, fields, 6);
    PutField(rec, fields, 7);
    SkipField(fields, 8);
    SkipField(fields, 9);
    PutField(rec, fields, 10);
    PutField(rec, fields, 11);
    SkipField(fields, 12);
    PutField(rec, fields, 13);
  }

  lemma {:induction false} HeaderStart(fields: seq<int>)
    requires InRange(HEADER, fields)
    ensures |HEADER| == 14 && Size(HEADER) == 0x30
    ensures HeaderTo(fields, 0) == Zeros(MFT_RECORD_SIZE)
    ensures HeaderTo(fields, 14) == Packed(HEADER, fields) + Zeros(MFT_RECORD_SIZE - 0x30)
  {
    HeaderSize();
  }

  /** The record under construction: attributes so far, the rest still zero. */
  function WithAttributes(i: RecordInfo, attrs: Bytes): (rec: Bytes)
    requires InRange(HEADER, EarlyFields(i)) && ATTRS_OFFSET + |attrs| <= MFT_RECORD_SIZE
    ensures |rec| == MFT_RECORD_SIZE
  {
    HeaderSize();
    Packed(HEADER, EarlyFields(i)) + Zeros(16) + attrs + Zeros(MFT_RECORD_SIZE - ATTRS_OFFSET - |attrs|)
  }

  lemma {:induction false} ZerosSplit(n: nat, k: nat)
    ensures Zeros(n + k) == Zeros(n) + Zeros(k)
  {
  }

  /** Writing an attribute where the zeros begin. */
  lemma {:induction false} AttributeAppended(i: RecordInfo, attrs: Bytes, a: Bytes)
    requires InRange(HEADER, EarlyFields(i)) && ATTRS_OFFSET + |attrs| + |a| <= MFT_RECORD_SIZE
    ensures Patched(WithAttributes(i, attrs), ATTRS_OFFSET + |attrs|, a) == WithAttributes(i, attrs + a)
  {
    hide Packed;
    HeaderSize();
    var n := MFT_RECORD_SIZE - ATTRS_OFFSET - |attrs| - |a|;
    ZerosSplit(|a|, n);
    var before := Packed(HEADER, EarlyFields(i)) + Zeros(16) + attrs;
    var rec := WithAttributes(i, attrs);
    assert rec == before + Zeros(|a| + n);
    assert rec[..ATTRS_OFFSET + |attrs|] == before;
    assert rec[ATTRS_OFFSET + |attrs| + |a|..] == Zeros(n);
    Assoc(Packed(HEADER, EarlyFields(i)) + Zeros(16), attrs, a);
  }

  method WriteAttributes(rec: array<Byte>, i: RecordInfo, attrs: seq<Bytes>) returns (off: nat)
    requires InRange(HEADER, EarlyFields(i)) && ATTRS_OFFSET + |Concat(attrs)| <= MFT_RECORD_SIZE
    requires rec[..] == WithAttributes(i, [])
    modifies rec
    ensures off == ATTRS_OFFSET + |Concat(attrs)| && rec[..] == WithAttributes(i, Concat(attrs))
  {
    hide WithAttributes, InRange, Patched;
    off := ATTRS_OFFSET;
    assert attrs[..0] == [];
    for j := 0 to |attrs|
      invariant off == ATTRS_OFFSET + |Concat(attrs[..j])| <= MFT_RECORD_SIZE
      invariant rec[..] == WithAttributes(i, Concat(attrs[..j]))
    {
      PrefixConcat(attrs, j);
      AttributeAppended(i, Concat(attrs[..j]), attrs[j]);
      assert rec.Length == |rec[..]|;
      Patch(rec, off, attrs[j]);
      off := off + |attrs[j]|;
    }
    assert attrs[..|attrs|] == attrs;
  }

  lemma {:induction false} PrefixConcat(attrs: seq<Bytes>, j: nat)
    requires j < |attrs|
    ensures Concat(attrs[..j + 1]) == Concat(attrs[..j]) + attrs[j]
    ensures |Concat(attrs[..j + 1])| <= |Concat(attrs)|
  {
    assert attrs[..j + 1] == attrs[..j] + [attrs[j]];
    ConcatPlus(attrs[..j], [attrs[j]]);
    assert Concat([attrs[j]]) == attrs[j] + Concat([]);
    assert attrs == attrs[..j + 1] + attrs[j + 1..];
    ConcatPlus(attrs[..j + 1], attrs[j + 1..]);
  }

  /** Storing the two byte counts turns the early header into the final one. */
  lemma {:induction false} CountsStored(i: RecordInfo, used: nat, rest: Bytes)
    requires InRange(HEADER, HeaderFields(i, used)) && InRange(HEADER, EarlyFields(i))
    ensures var early, final := Packed(HEADER, EarlyFields(i)), Packed(HEADER, HeaderFields(i, used));
            && |early| == 0x30 && |final| == 0x30
            && Patched(Patched(early + rest, 0x18, LittleEndian(used, 4)), 0x1C, LittleEndian(MFT_RECORD_SIZE, 4))
               == final + rest
  {
    hide LittleEndian, Pow256, Packed, Patched;
    HeaderSize();
    var early := EarlyFields(i);
    CountFields(i, used);
    PackedUpdate(HEADER, early, 14, 8, used);
    PackedUpdate(HEADER, early[8 := used], 14, 9, MFT_RECORD_SIZE);
    PackedIs(early);
    PackedIs(early[8 := used]);
    PackedIs(early[8 := used][9 := MFT_RECORD_SIZE]);
    PatchPrefix(Packed(HEADER, early), rest, 0x18, LittleEndian(used, 4));
    PatchPrefix(Packed(HEADER, early[8 := used]), rest, 0x1C, LittleEndian(MFT_RECORD_SIZE, 4));
  }

  lemma {:induction false} CountFields(i: RecordInfo, used: nat)
    requires InRange(HEADER, HeaderFields(i, used))
    ensures |HEADER| == 14 && HEADER[8] == 4 && HEADER[9] == 4 && 0 <= used < Pow256(4) && MFT_RECORD_SIZE < Pow256(4)
    ensures EarlyFields(i)[8 := used][9 := MFT_RECORD_SIZE] == HeaderFields(i, used)
  {
    PowersOf256();
    assert HeaderFields(i, used)[8] == used;
  }

  lemma {:induction false} PackedIs(fields: seq<int>)
    requires InRange(HEADER, fields)
    ensures Packed(HEADER, fields) == PackedTo(HEADER, fields, 14) && |Packed(HEADER, fields)| == 0x30
  {
    HeaderSize();
  }

  /** The fixups, in place: each sector's last two bytes go to the array, the sequence number takes their place. */
  method ApplyFixups(rec: array<Byte>)
    requires rec.Length == MFT_RECORD_SIZE
    modifies rec
    ensures rec[..] == WithFixups(old(rec[..]))
  {
    hide Patched, FixupsTo, WithFixups;
    ghost var raw := rec[..];
    FixupsStart(raw);
    Patch(rec, USA_OFFSET, USN);
    for i := 0 to 2
      invariant rec.Length == MFT_RECORD_SIZE
      invariant rec[..] == FixupsTo(raw, i)
    {
      FixupsNext(raw, i);
      var end := (i + 1) * SECTOR - 2;
      var orig := rec[end..end + 2];
      assert orig == rec[..][end..end + 2];
      Patch(rec, USA_OFFSET + 2 + 2 * i, orig);
      Patch(rec, end, USN);
    }
  }

  lemma {:induction false} FixupsStart(raw: Bytes)
    requires |raw| == MFT_RECORD_SIZE
    ensures Patched(raw, USA_OFFSET, USN) == FixupsTo(raw, 0) && FixupsTo(raw, 2) == WithFixups(raw)
  {
  }

  lemma {:induction false} FixupsNext(raw: Bytes, i: nat)
    requires |raw| == MFT_RECORD_SIZE && i < 2
    ensures var (b, end) := (FixupsTo(raw, i), (i + 1) * SECTOR - 2);
            Patched(Patched(b, USA_OFFSET + 2 + 2 * i, b[end..end + 2]), end, USN) == FixupsTo(raw, i + 1)
  {
    hide Patched;
    if i == 0 {
      FirstFixup(raw);
    } else {
      SecondFixup(raw);
    }
  }

  lemma {:induction false} Cut(s: Bytes, i: nat, j: nat)
    requires i <= j <= |s|
    ensures s[i..] == s[i..j] + s[j..]
  {
  }

  lemma {:induction false} FirstFixup(raw: Bytes)
    requires |raw| == MFT_RECORD_SIZE
    ensures FixupsTo(raw, 0)[510..512] == raw[510..512]
    ensures Patched(Patched(FixupsTo(raw, 0), 0x32, raw[510..512]), 510, USN) == FixupsTo(raw, 1)
  {
    hide Patched;
    var start, last, middle := raw[..0x30] + USN, raw[510..512], raw[0x34..510];
    Cut(raw, 0x32, 0x34);
    Cut(raw, 0x34, 510);
    Cut(raw, 510, 512);
    var zero, rest := raw[0x32..0x34], middle + (last + raw[512..]);
    Assoc(start, zero, rest);
    Replaced(start, zero, last, rest);
    Assoc(start + last, middle, last + raw[512..]);
    Assoc(start + last + middle, last, raw[512..]);
    Replaced(start + last + middle, last, USN, raw[512..]);
    Assoc(start + zero, middle, last + raw[512..]);
    Assoc(start + zero + middle, last, raw[512..]);
    Replaced(start + zero + middle, last, last, raw[512..]);
  }

  lemma {:induction false} SecondFixup(raw: Bytes)
    requires |raw| == MFT_RECORD_SIZE
    ensures FixupsTo(raw, 1)[1022..1024] == raw[1022..1024]
    ensures Patched(Patched(FixupsTo(raw, 1), 0x34, raw[1022..1024]), 1022, USN) == FixupsTo(raw, 2)
  {
    hide Patched;
    var start, last, middle := raw[..0x30] + USN + raw[510..512], raw[1022..1024], raw[0x36..510];
    var sector, zero := raw[512..1022], raw[0x34..0x36];
    Cut(raw, 512, 1022);
    assert raw[0x34..510] == zero + middle && raw[1022..] == last;
    var rest := middle + USN + sector + last;
    assert FixupsTo(raw, 1) == start + zero + rest;
    Replaced(start, zero, last, rest);
    assert start + last + rest == start + last + middle + USN + sector + last + [];
    Replaced(start + last + middle + USN + sector, last, USN, []);
    assert start + zero + rest == start + zero + middle + USN + sector + last + [];
    Replaced(start + zero + middle + USN + sector, last, last, []);
    assert FixupsTo(raw, 2) == start + last + middle + USN + sector + USN + [];
  }

  /** The record once the sequence number and the first `i` sectors are done. */
  function FixupsTo(raw: Bytes, i: nat): (b: Bytes)
    requires |raw| == MFT_RECORD_SIZE && i <= 2
    ensures |b| == MFT_RECORD_SIZE
  {
    if i == 0 then raw[..0x30] + USN + raw[0x32..]
    else if i == 1 then raw[..0x30] + USN + raw[510..512] + raw[0x34..510] + USN + raw[512..]
    else WithFixups(raw)
  }

  /** A complete record, or None where packing fails. */
  method BuildMftRecord(i: RecordInfo, attrs: seq<Bytes>) returns (r: Option<Bytes>)
    ensures r == if RecordFits(i, attrs) then Some(WithFixups(RawRecord(i, attrs))) else None
  {
    hide InRange, Packed, WithFixups, WithAttributes, Concat;
    var used := UsedBytes(attrs);
    if !InRange(HEADER, HeaderFields(i, used)) || ATTRS_OFFSET + |Concat(attrs)| + 4 > MFT_RECORD_SIZE {
      return None;
    }
    EarlyFieldsFit(i, used);
    var rec := new Byte[MFT_RECORD_SIZE](_ => 0);
    assert rec[..] == Zeros(MFT_RECORD_SIZE);
    WriteHeader(rec, i);
    NoAttributes(i);
    var off := WriteAttributes(rec, i, attrs);
    assert rec.Length == |rec[..]|;
    Patch(rec, off, END_BYTES);
    Patch(rec, 0x18, LittleEndian(used, 4));
    Patch(rec, 0x1C, LittleEndian(MFT_RECORD_SIZE, 4));
    AttributesClosed(i, attrs);
    ApplyFixups(rec);
    r := Some(rec[..]);
  }

  lemma {:induction false} NoAttributes(i: RecordInfo)
    requires InRange(HEADER, EarlyFields(i))
    ensures WithAttributes(i, []) == Packed(HEADER, EarlyFields(i)) + Zeros(MFT_RECORD_SIZE - 0x30)
  {
    hide Packed;
    HeaderSize();
    ZerosSplit(16, MFT_RECORD_SIZE - 0x40);
  }

  lemma {:induction false} AttributesClosed(i: RecordInfo, attrs: seq<Bytes>)
    requires RecordFits(i, attrs) && InRange(HEADER, EarlyFields(i))
    ensures var n := ATTRS_OFFSET + |Concat(attrs)|;
            var ended := Patched(WithAttributes(i, Concat(attrs)), n, END_BYTES);
            Patched(Patched(ended, 0x18, LittleEndian(UsedBytes(attrs), 4)), 0x1C, LittleEndian(MFT_RECORD_SIZE, 4))
            == RawRecord(i, attrs)
  {
    hide Packed, InRange, Patched, LittleEndian, Concat;
    HeaderSize();
    var all := Concat(attrs);
    var rest := Zeros(16) + all + END_BYTES + Zeros(MFT_RECORD_SIZE - ATTRS_OFFSET - |all| - 4);
    AttributeAppended(i, all, END_BYTES);
    RestOfRecord(Packed(HEADER, EarlyFields(i)), all, rest);
    CountsStored(i, UsedBytes(attrs), rest);
    RestOfRecord(Packed(HEADER, HeaderFields(i, UsedBytes(attrs))), all, rest);
  }

  lemma {:induction false} RestOfRecord(header: Bytes, all: Bytes, rest: Bytes)
    requires ATTRS_OFFSET + |all| + 4 <= MFT_RECORD_SIZE
    requires rest == Zeros(16) + all + END_BYTES + Zeros(MFT_RECORD_SIZE - ATTRS_OFFSET - |all| - 4)
    ensures header + Zeros(16) + all + END_BYTES + Zeros(MFT_RECORD_SIZE - ATTRS_OFFSET - |all| - 4) == header + rest
    ensures header + Zeros(16) + (all + END_BYTES) + Zeros(MFT_RECORD_SIZE - ATTRS_OFFSET - |all + END_BYTES|)
         == header + rest
  {
  }
}
