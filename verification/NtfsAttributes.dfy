/** NTFS attributes: resident ones, non-resident ones with a single data run, and their readers. */
module NtfsAttributes {
  import opened Words
  import opened StructPack

  const CLUSTER: nat := 4096
  const ATTR_STANDARD_INFORMATION: nat := 0x10
  const ATTR_FILE_NAME: nat := 0x30
  const ATTR_DATA: nat := 0x80
  const ATTR_INDEX_ROOT: nat := 0x90
  const END_MARKER: nat := 0xFFFF_FFFF

  // ---- resident attributes ------------------------------------------------

  /** Type, length, non-resident, name length, name offset, flags, id, content length, content offset, 2 x 0. */
  const RESIDENT: Format := [4, 4, 1, 1, 2, 2, 2, 4, 2, 1, 1]

  lemma {:induction false} ResidentSize()
    ensures |RESIDENT| == 11 && Size(RESIDENT) == 24
  {
    assert Offset(RESIDENT, 11) == 24;
  }

  datatype Resident = Resident(kind: nat, name: seq<Byte>, flags: nat, id: nat, content: seq<Byte>)

  function ContentOffset(name: seq<Byte>): nat {
    RoundUp8(24 + |name|)
  }

  function ResidentLength(name: seq<Byte>, content: seq<Byte>): nat {
    RoundUp8(ContentOffset(name) + |content|)
  }

  function ResidentFields(kind: nat, content: seq<Byte>, name: seq<Byte>, flags: nat, id: nat): seq<int> {
    [kind, ResidentLength(name, content), 0, |name| / 2, if name != [] then 24 else 0, flags, id,
     |content|, ContentOffset(name), 0, 0]
  }

  /** A complete resident attribute; None where a field does not fit. */
  function MakeResidentAttr(kind: nat, content: seq<Byte>, name: seq<Byte>, flags: nat, id: nat): Option<seq<Byte>> {
    var fields := ResidentFields(kind, content, name, flags, id);
    if !InRange(RESIDENT, fields) then None
    else
      Some(Packed(RESIDENT, fields)
           + name + Zeros(ContentOffset(name) - 24 - |name|)
           + content + Zeros(ResidentLength(name, content) - ContentOffset(name) - |content|))
  }

  /** Reads a resident attribute that fills `b` exactly. */
  function ReadResident(b: seq<Byte>): Option<Resident> {
    ResidentSize();
    if |b| < 24 then None
    else
      var name, chars := Field(RESIDENT, b, 0, 4), Field(RESIDENT, b, 0, 3);
      var at, size := Field(RESIDENT, b, 0, 8), Field(RESIDENT, b, 0, 7);
      if Field(RESIDENT, b, 0, 1) != |b| || Field(RESIDENT, b, 0, 2) != 0 || name + 2 * chars > |b| || at + size > |b|
      then None
      else Some(Resident(Field(RESIDENT, b, 0, 0), b[name..name + 2 * chars],
                         Field(RESIDENT, b, 0, 5), Field(RESIDENT, b, 0, 6), b[at..at + size]))
  }

  lemma {:induction false} ResidentParts(header: seq<Byte>, name: seq<Byte>, pad: seq<Byte>, content: seq<Byte>,
          fill: seq<Byte>, b: seq<Byte>)
    requires b == header + name + pad + content + fill
    ensures b[..|header|] == header
    ensures b[|header|..|header| + |name|] == name
    ensures var at := |header| + |name| + |pad|; b[at..at + |content|] == content
  {
  }

  /** A resident attribute reads back as its type, name, flags, id and content: names are whole UTF-16 units. */
  lemma {:induction false} ResidentRoundTrip(kind: nat, content: seq<Byte>, name: seq<Byte>, flags: nat, id: nat)
    requires MakeResidentAttr(kind, content, name, flags, id).Some?
    ensures var read := ReadResident(MakeResidentAttr(kind, content, name, flags, id).value);
            && read.Some? && read.value.(name := name) == Resident(kind, name, flags, id, content)
            && (read.value.name == name <==> |name| % 2 == 0)
  {
    hide Field, Packed, Offset, Pow256, LittleEndian;
    ResidentSize();
    var fields := ResidentFields(kind, content, name, flags, id);
    var b := MakeResidentAttr(kind, content, name, flags, id).value;
    var header := Packed(RESIDENT, fields);
    ResidentParts(header, name, Zeros(ContentOffset(name) - 24 - |name|), content,
                  Zeros(ResidentLength(name, content) - ContentOffset(name) - |content|), b);
    assert b[0..0 + Size(RESIDENT)] == header;
    FieldsOfPacked(RESIDENT, fields, b, 0);
  }

  // ---- non-resident attributes --------------------------------------------

  /** The bytes of `v` without leading zeros, least significant first. */
  function MinimalBytes(v: nat): seq<Byte> {
    if v == 0 then [] else [v % 256] + MinimalBytes(v / 256)
  }

  function FieldBytes(v: nat): (b: seq<Byte>)
    ensures b != []
  {
    if v == 0 then [0] else MinimalBytes(v)
  }

  lemma {:induction false} FieldBytesRead(v: nat)
    ensures FromLittleEndian(MinimalBytes(v)) == v && FromLittleEndian(FieldBytes(v)) == v
  {
    if v > 0 {
      FieldBytesRead(v / 256);
      assert MinimalBytes(v)[1..] == MinimalBytes(v / 256);
    }
  }

  lemma {:induction false} MinimalBytesLength(v: nat, n: nat)
    requires v < Pow256(n)
    ensures |MinimalBytes(v)| <= n
  {
    if v > 0 {
      MinimalBytesLength(v / 256, n - 1);
    }
  }

  /** No other bytes that spell the value are fewer. */
  lemma {:induction false} FieldBytesShortest(v: nat, c: seq<Byte>)
    requires c != [] && FromLittleEndian(c) == v
    ensures |FieldBytes(v)| <= |c|
  {
    hide MinimalBytes, FromLittleEndian, Pow256;
    FromLittleEndianBound(c);
    MinimalBytesLength(v, |c|);
  }

  /** The bytes of a number in a run: at least one, and as few as spell it. */
  method MakeFieldBytes(v: nat) returns (b: seq<Byte>)
    ensures b == FieldBytes(v) && b != [] && FromLittleEndian(b) == v
    ensures forall c :: c != [] && FromLittleEndian(c) == v ==> |b| <= |c|
  {
    FieldBytesRead(v);
    forall c: seq<Byte> | c != [] && FromLittleEndian(c) == v ensures |FieldBytes(v)| <= |c| {
      FieldBytesShortest(v, c);
    }
    b := [];
    var left := v;
    while left > 0
      invariant b + MinimalBytes(left) == MinimalBytes(v)
    {
      Assoc(b, [left % 256], MinimalBytes(left / 256));
      b := b + [left % 256];
      left := left / 256;
    }
    assert b + [] == b;
    if b == [] {
      b := [0];
    }
  }

  /** Two's complement reading of little-endian bytes. */
  function SignedLittleEndian(b: seq<Byte>): int {
    if b != [] && b[|b| - 1] >= 0x80 then FromLittleEndian(b) - Pow256(|b|) else FromLittleEndian(b)
  }

  /** Read as a signed number the bytes give the value back exactly if the leading byte is below 0x80. */
  lemma {:induction false} SignedFieldBytes(v: nat)
    ensures SignedLittleEndian(FieldBytes(v)) == v <==> FieldBytes(v)[|FieldBytes(v)| - 1] < 0x80
  {
    FieldBytesRead(v);
    Pow256Positive(|FieldBytes(v)|);
  }

  lemma {:induction false} Pow256Positive(n: nat)
    ensures Pow256(n) > 0
  {
    if n > 0 {
      Pow256Positive(n - 1);
    }
  }

  /** One run: a header byte with the two sizes, the cluster count, the first cluster, and a terminator. */
  function RunBytes(lcn: nat, clusters: nat): Option<seq<Byte>> {
    var (count, first) := (FieldBytes(clusters), FieldBytes(lcn));
    if |first| > 15 || |count| > 15 then None else Some([16 * |first| + |count|] + count + first + [0])
  }

  datatype Run = Run(clusters: nat, lcn: int)

  /** The first run of a mapping-pairs array; its cluster number is signed. */
  function ReadRun(b: seq<Byte>): Option<Run> {
    if b == [] then None
    else
      var (n, k) := (b[0] % 16, b[0] / 16);
      if 1 + n + k > |b| then None
      else Some(Run(FromLittleEndian(b[1..1 + n]), SignedLittleEndian(b[1 + n..1 + n + k])))
  }

  lemma {:induction false} RunParts(head: seq<Byte>, count: seq<Byte>, first: seq<Byte>, rest: seq<Byte>, b: seq<Byte>)
    requires b == head + count + first + rest && |head| == 1
    ensures b[0] == head[0] && b[1..1 + |count|] == count && b[1 + |count|..1 + |count| + |first|] == first
  {
  }

  /** The run reads back, exactly when the first cluster's leading byte is below 0x80. */
  lemma {:induction false} RunRoundTrip(lcn: nat, clusters: nat, rest: seq<Byte>)
    requires RunBytes(lcn, clusters).Some?
    ensures var first := FieldBytes(lcn);
            ReadRun(RunBytes(lcn, clusters).value + rest) == Some(Run(clusters, lcn)) <==> first[|first| - 1] < 0x80
  {
    hide FieldBytes, MinimalBytes, SignedLittleEndian, FromLittleEndian, Pow256, ReadRun;
    var (count, first) := (FieldBytes(clusters), FieldBytes(lcn));
    var head := [16 * |first| + |count|];
    var b := RunBytes(lcn, clusters).value + rest;
    Assoc(head + count + first, [0], rest);
    RunParts(head, count, first, [0] + rest, b);
    RunOfParts(b, count, first);
    FieldBytesRead(clusters);
    SignedFieldBytes(lcn);
  }

  /** A run whose first cluster is 128 reads back as starting at cluster -128. */
  lemma {:induction false} SignedRun(clusters: nat)
    requires RunBytes(128, clusters).Some?
    ensures ReadRun(RunBytes(128, clusters).value) == Some(Run(clusters, -128))
  {
    hide ReadRun;
    var (count, first, b) := (FieldBytes(clusters), FieldBytes(128), RunBytes(128, clusters).value);
    assert first == [128] by { assert MinimalBytes(128) == [128] + MinimalBytes(0); }
    var head := [16 * |first| + |count|];
    RunParts(head, count, first, [0], b);
    RunOfParts(b, count, first);
    FieldBytesRead(clusters);
    assert Pow256(1) == 256 * Pow256(0);
    assert first[1..] == [] && FromLittleEndian(first) == 128;
  }

  lemma {:induction false} RunOfParts(b: seq<Byte>, count: seq<Byte>, first: seq<Byte>)
    requires |count| <= 15 && |first| <= 15 && 1 + |count| + |first| <= |b| && b[0] == 16 * |first| + |count|
    requires b[1..1 + |count|] == count && b[1 + |count|..1 + |count| + |first|] == first
    ensures ReadRun(b) == Some(Run(FromLittleEndian(count), SignedLittleEndian(first)))
  {
    hide SignedLittleEndian, FromLittleEndian;
    assert b[0] % 16 == |count| && b[0] / 16 == |first|;
  }

  /**
   Type, length, non-resident, name length, name offset, flags, id, starting VCN, last VCN, run offset,
   compression unit, padding, allocated size, real size, initialized size.
   */
  const NONRESIDENT: Format := [4, 4, 1, 1, 2, 2, 2, 8, 8, 2, 2, 4, 8, 8, 8]

  lemma {:induction false} NonResidentSize()
    ensures |NONRESIDENT| == 15 && Size(NONRESIDENT) == 0x40
  {
    assert Offset(NONRESIDENT, 7) == 16;
    assert Offset(NONRESIDENT, 11) == 36;
    assert Offset(NONRESIDENT, 15) == 0x40;
  }

  function NonResidentFields(kind: nat, clusters: nat, realSize: nat, id: nat, length: nat): seq<int> {
    [kind, length, 1, 0, 0, 0, id, 0, clusters - 1, 0x40, 0, 0, clusters * CLUSTER, realSize, realSize]
  }

  /** A non-resident attribute with one contiguous run. */
  function MakeNonResidentAttr(kind: nat, lcn: nat, clusters: nat, realSize: nat, id: nat): Option<seq<Byte>> {
    var run := RunBytes(lcn, clusters);
    if run.None? then None
    else
      var length := RoundUp8(0x40 + |run.value|);
      var fields := NonResidentFields(kind, clusters, realSize, id, length);
      if !InRange(NONRESIDENT, fields) then None
      else Some(Packed(NONRESIDENT, fields) + run.value + Zeros(length - 0x40 - |run.value|))
  }

  datatype NonResident = NonResident(kind: nat, id: nat, run: Run, realSize: nat)

  function ReadNonResident(b: seq<Byte>): Option<NonResident> {
    NonResidentSize();
    if |b| < 0x40 || Field(NONRESIDENT, b, 0, 1) != |b| || Field(NONRESIDENT, b, 0, 2) != 1
       || Field(NONRESIDENT, b, 0, 9) > |b|
    then None
    else
      match ReadRun(b[Field(NONRESIDENT, b, 0, 9)..])
      case None => None
      case Some(run) =>
        Some(NonResident(Field(NONRESIDENT, b, 0, 0), Field(NONRESIDENT, b, 0, 6), run, Field(NONRESIDENT, b, 0, 13)))
  }

  lemma {:induction false} NonResidentRoundTrip(kind: nat, lcn: nat, clusters: nat, realSize: nat, id: nat)
    requires MakeNonResidentAttr(kind, lcn, clusters, realSize, id).Some?
    ensures var first := FieldBytes(lcn);
            ReadNonResident(MakeNonResidentAttr(kind, lcn, clusters, realSize, id).value)
            == Some(NonResident(kind, id, Run(clusters, lcn), realSize))
            <==> first[|first| - 1] < 0x80
  {
    hide Field, Packed, Offset, Pow256, LittleEndian, FieldBytes, MinimalBytes, SignedLittleEndian, FromLittleEndian;
    hide ReadRun;
    NonResidentSize();
    var run := RunBytes(lcn, clusters).value;
    var length := RoundUp8(0x40 + |run|);
    var fields := NonResidentFields(kind, clusters, realSize, id, length);
    var b := MakeNonResidentAttr(kind, lcn, clusters, realSize, id).value;
    var header, fill := Packed(NONRESIDENT, fields), Zeros(length - 0x40 - |run|);
    assert b[0..0 + Size(NONRESIDENT)] == header;
    FieldsOfPacked(NONRESIDENT, fields, b, 0);
    assert b[0x40..] == run + fill;
    RunRoundTrip(lcn, clusters, fill);
  }

  // ---- attributes in general ----------------------------------------------

  /** Starts with a type other than the end marker and its own length. */
  predicate IsAttribute(b: seq<Byte>) {
    |b| >= 8 && FromLittleEndian(b[0..4]) != END_MARKER && FromLittleEndian(b[4..8]) == |b|
  }

  lemma {:induction false} ResidentIsAttribute(kind: nat, content: seq<Byte>, name: seq<Byte>, flags: nat, id: nat)
    requires MakeResidentAttr(kind, content, name, flags, id).Some? && kind != END_MARKER
    ensures IsAttribute(MakeResidentAttr(kind, content, name, flags, id).value)
  {
    hide Packed, Pow256, LittleEndian, FromLittleEndian;
    ResidentSize();
    var fields := ResidentFields(kind, content, name, flags, id);
    var b := MakeResidentAttr(kind, content, name, flags, id).value;
    assert b[0..0 + Size(RESIDENT)] == Packed(RESIDENT, fields);
    FieldsOfPacked(RESIDENT, fields, b, 0);
    assert Field(RESIDENT, b, 0, 0) == fields[0] && Field(RESIDENT, b, 0, 1) == fields[1];
  }

  lemma {:induction false} NonResidentIsAttribute(kind: nat, lcn: nat, clusters: nat, realSize: nat, id: nat)
    requires MakeNonResidentAttr(kind, lcn, clusters, realSize, id).Some? && kind != END_MARKER
    ensures IsAttribute(MakeNonResidentAttr(kind, lcn, clusters, realSize, id).value)
  {
    hide Packed, Pow256, LittleEndian, FromLittleEndian, RunBytes;
    NonResidentSize();
    var run := RunBytes(lcn, clusters).value;
    var fields := NonResidentFields(kind, clusters, realSize, id, RoundUp8(0x40 + |run|));
    var b := MakeNonResidentAttr(kind, lcn, clusters, realSize, id).value;
    assert b[0..0 + Size(NONRESIDENT)] == Packed(NONRESIDENT, fields);
    FieldsOfPacked(NONRESIDENT, fields, b, 0);
    assert Offset(NONRESIDENT, 0) == 0 && Offset(NONRESIDENT, 1) == 4 && Offset(NONRESIDENT, 2) == 8;
    assert Field(NONRESIDENT, b, 0, 0) == fields[0] && Field(NONRESIDENT, b, 0, 1) == fields[1];
  }
}
