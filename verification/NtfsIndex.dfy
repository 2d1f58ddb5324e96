/** $FILE_NAME contents and the $INDEX_ROOT of a directory, with their readers. */
module NtfsIndex {
  import opened Words
  import opened StructPack
  import NtfsAttributes

  /** A name within the Basic Multilingual Plane, one UTF-16 unit a character. */
  type Name = seq<U16>

  type RecordNo = n: nat | n < SEQUENCE_UNIT

  const SEQUENCE_UNIT: nat := 0x1_0000_0000_0000
  const MFT_REC_ROOT: RecordNo := 5
  const NS_WIN32_DOS: nat := 3
  const NT_TIME: nat := 0x01D6_0000_0000_0000

  /** A file reference: sequence number 1 above 48 bits of record number. */
  function FileRef(rec: RecordNo): nat {
    SEQUENCE_UNIT + rec
  }

  function Utf16(name: Name): (b: seq<Byte>)
    ensures |b| == 2 * |name|
  {
    if name == [] then [] else Put16(name[0]) + Utf16(name[1..])
  }

  function FromUtf16(b: seq<Byte>): Name {
    if |b| < 2 then [] else [Get16(b[..2])] + FromUtf16(b[2..])
  }

  lemma {:induction false} Utf16RoundTrip(name: Name)
    ensures FromUtf16(Utf16(name)) == name
  {
    if name != [] {
      var b := Utf16(name);
      assert b[..2] == Put16(name[0]) && b[2..] == Utf16(name[1..]);
      Utf16RoundTrip(name[1..]);
    }
  }

  // ---- file names ---------------------------------------------------------

  /** Parent, four times, allocated size, real size, flags, EA, name length, name space; the name follows. */
  const FILE_NAME: Format := [8, 8, 8, 8, 8, 8, 8, 4, 4, 1, 1]

  lemma {:induction false} FileNameSize()
    ensures |FILE_NAME| == 11 && Size(FILE_NAME) == 66
  {
    assert Offset(FILE_NAME, 6) == 48;
    assert Offset(FILE_NAME, 11) == 66;
  }

  datatype FileName = FileName(parent: nat, name: Name, flags: nat, realSize: nat, allocSize: nat)

  function FileNameFields(f: FileName): seq<int> {
    [f.parent, NT_TIME, NT_TIME, NT_TIME, NT_TIME, f.allocSize, f.realSize, f.flags, 0, |f.name|, NS_WIN32_DOS]
  }

  function FileNameBytes(f: FileName): Option<seq<Byte>> {
    if !InRange(FILE_NAME, FileNameFields(f)) then None
    else Some(Packed(FILE_NAME, FileNameFields(f)) + Utf16(f.name))
  }

  function ReadFileName(b: seq<Byte>): Option<FileName> {
    FileNameSize();
    if |b| < 66 || 66 + 2 * Field(FILE_NAME, b, 0, 9) > |b| then None
    else
      Some(FileName(Field(FILE_NAME, b, 0, 0), FromUtf16(b[66..66 + 2 * Field(FILE_NAME, b, 0, 9)]),
                    Field(FILE_NAME, b, 0, 7), Field(FILE_NAME, b, 0, 6), Field(FILE_NAME, b, 0, 5)))
  }

  lemma {:induction false} FileNameRoundTrip(f: FileName)
    requires FileNameBytes(f).Some?
    ensures ReadFileName(FileNameBytes(f).value) == Some(f)
  {
    hide Field, Packed, Offset, Pow256, LittleEndian, FromUtf16, Utf16;
    FileNameSize();
    var b := FileNameBytes(f).value;
    assert b[0..0 + Size(FILE_NAME)] == Packed(FILE_NAME, FileNameFields(f));
    FieldsOfPacked(FILE_NAME, FileNameFields(f), b, 0);
    assert b[66..66 + 2 * |f.name|] == Utf16(f.name);
    Utf16RoundTrip(f.name);
  }

  // ---- index entries ------------------------------------------------------

  /** Child reference, entry length, key length, flags; the key and padding follow. */
  const ENTRY: Format := [8, 2, 2, 4]

  lemma {:induction false} EntrySize()
    ensures |ENTRY| == 4 && Size(ENTRY) == 16
  {
    assert Offset(ENTRY, 4) == 16;
  }

  datatype IndexEntry = IndexEntry(rec: RecordNo, name: Name, flags: nat, size: nat)

  /** The key of an entry is the child's file name; its parent is always given as the root directory. */
  function KeyOf(e: IndexEntry): FileName {
    FileName(FileRef(MFT_REC_ROOT), e.name, e.flags, e.size, RoundUp8(e.size))
  }

  function EntryFields(e: IndexEntry, key: seq<Byte>): seq<int> {
    [FileRef(e.rec), RoundUp8(16 + |key|), |key|, 0]
  }

  function EntryBytes(e: IndexEntry): (b: Option<seq<Byte>>)
    ensures b.Some? ==> |b.value| >= 16
  {
    EntrySize();
    match FileNameBytes(KeyOf(e))
    case None => None
    case Some(key) =>
      if !InRange(ENTRY, EntryFields(e, key)) then None
      else Some(Packed(ENTRY, EntryFields(e, key)) + key + Zeros(RoundUp8(16 + |key|) - 16 - |key|))
  }

  function EntriesBytes(entries: seq<IndexEntry>): Option<seq<Byte>> {
    if entries == [] then Some([])
    else
      match (EntryBytes(entries[0]), EntriesBytes(entries[1..]))
      case (Some(e), Some(rest)) => Some(e + rest)
      case _ => None
  }

  /** The last entry has no key and carries flag 2. */
  const END_FIELDS: seq<int> := [0, 16, 0, 2]

  lemma {:induction false} EndFits()
    ensures InRange(ENTRY, END_FIELDS)
  {
    PowersOf256();
  }

  function EndEntry(): (b: seq<Byte>)
    ensures |b| == 16
  {
    EndFits();
    EntrySize();
    Packed(ENTRY, END_FIELDS)
  }

  /** Reads entries from `at` on up to the one flagged last. */
  function ReadEntries(b: seq<Byte>, at: nat): Option<seq<IndexEntry>>
    decreases |b| - at
  {
    EntrySize();
    if at + 16 > |b| then None
    else if Field(ENTRY, b, at, 3) / 2 % 2 == 1 then Some([])
    else
      var (size, keySize) := (Field(ENTRY, b, at, 1), Field(ENTRY, b, at, 2));
      if size < 16 || at + 16 + keySize > |b| then None
      else
        match (ReadFileName(b[at + 16..at + 16 + keySize]), ReadEntries(b, at + size))
        case (Some(key), Some(rest)) =>
          Some([IndexEntry(Field(ENTRY, b, at, 0) % SEQUENCE_UNIT, key.name, key.flags, key.realSize)] + rest)
        case _ => None
  }

  lemma {:induction false} EntryReadsBack(e: IndexEntry, b: seq<Byte>, at: nat)
    requires EntryBytes(e).Some? && at + |EntryBytes(e).value| <= |b|
    requires b[at..at + |EntryBytes(e).value|] == EntryBytes(e).value
    ensures at + 16 <= |b|
    ensures Size(ENTRY) == 16 && |ENTRY| == 4
    ensures Field(ENTRY, b, at, 0) == FileRef(e.rec) && Field(ENTRY, b, at, 1) == |EntryBytes(e).value|
    ensures Field(ENTRY, b, at, 3) == 0
    ensures at + 16 + Field(ENTRY, b, at, 2) <= |b|
    ensures ReadFileName(b[at + 16..at + 16 + Field(ENTRY, b, at, 2)]) == Some(KeyOf(e))
  {
    hide Field, Packed, Offset, Pow256, LittleEndian, ReadFileName, FileNameBytes;
    EntrySize();
    var key := FileNameBytes(KeyOf(e)).value;
    var entry := EntryBytes(e).value;
    assert b[at..at + Size(ENTRY)] == entry[..16] == Packed(ENTRY, EntryFields(e, key));
    FieldsOfPacked(ENTRY, EntryFields(e, key), b, at);
    assert entry[16..16 + |key|] == key;
    assert b[at + 16..at + 16 + |key|] == b[at..at + |entry|][16..16 + |key|];
    FileNameRoundTrip(KeyOf(e));
  }

  lemma {:induction false} EndReadsBack(b: seq<Byte>, at: nat)
    requires at + 16 <= |b| && b[at..at + 16] == EndEntry()
    ensures ReadEntries(b, at) == Some([])
  {
    hide Field, Packed, Offset;
    EntrySize();
    EndFits();
    assert b[at..at + Size(ENTRY)] == Packed(ENTRY, END_FIELDS);
    FieldOfPacked(ENTRY, END_FIELDS, b, at, 3);
  }

  /** Entries followed by the last one read back, wherever they stand. */
  lemma {:induction false} EntriesReadBack(entries: seq<IndexEntry>, b: seq<Byte>, at: nat)
    requires EntriesBytes(entries).Some?
    requires var n := |EntriesBytes(entries).value|;
             at + n + 16 <= |b| && b[at..at + n] == EntriesBytes(entries).value && b[at + n..at + n + 16] == EndEntry()
    ensures ReadEntries(b, at) == Some(entries)
  {
    hide Field, EntryBytes, EndEntry, ReadFileName, ReadEntries;
    if entries == [] {
      EndReadsBack(b, at);
    } else {
      var first, rest := EntryBytes(entries[0]).value, EntriesBytes(entries[1..]).value;
      var n := |first + rest|;
      SliceOfSlice(b, at, at + n, 0, |first|);
      SliceOfSlice(b, at, at + n, |first|, n);
      EntryReadsBack(entries[0], b, at);
      EntriesReadBack(entries[1..], b, at + |first|);
      EntryFirst(entries[0], entries[1..], b, at);
      assert entries == [entries[0]] + entries[1..];
    }
  }

  lemma {:induction false} EntryFirst(e: IndexEntry, rest: seq<IndexEntry>, b: seq<Byte>, at: nat)
    requires at + 16 <= |b| && Size(ENTRY) == 16 && |ENTRY| == 4
    requires Field(ENTRY, b, at, 0) == FileRef(e.rec) && Field(ENTRY, b, at, 1) >= 16 && Field(ENTRY, b, at, 3) == 0
    requires at + 16 + Field(ENTRY, b, at, 2) <= |b|
    requires ReadFileName(b[at + 16..at + 16 + Field(ENTRY, b, at, 2)]) == Some(KeyOf(e))
    requires ReadEntries(b, at + Field(ENTRY, b, at, 1)) == Some(rest)
    ensures ReadEntries(b, at) == Some([e] + rest)
  {
    hide Field, ReadFileName;
  }

  // ---- the index root -----------------------------------------------------

  /** Indexed type, collation, bytes and clusters per index record, padding; then the node header. */
  const ROOT: Format := [4, 4, 4, 1, 3, 4, 4, 4, 4]

  lemma {:induction false} RootSize()
    ensures |ROOT| == 9 && Size(ROOT) == 32
  {
    assert Offset(ROOT, 5) == 16;
    assert Offset(ROOT, 9) == 32;
  }

  function RootFields(n: nat): seq<int> {
    [NtfsAttributes.ATTR_FILE_NAME, 1, NtfsAttributes.CLUSTER, 1, 0, 16, 16 + n, 16 + n, 0]
  }

  /** The whole $INDEX_ROOT content for a directory's entries. */
  function IndexRootBytes(entries: seq<IndexEntry>): Option<seq<Byte>> {
    match EntriesBytes(entries)
    case None => None
    case Some(b) =>
      if !InRange(ROOT, RootFields(|b| + 16)) then None
      else Some(Packed(ROOT, RootFields(|b| + 16)) + (b + EndEntry()))
  }

  /** The first entry is found through the node header, which starts at 16. */
  function ReadIndexRoot(b: seq<Byte>): Option<seq<IndexEntry>> {
    RootSize();
    if |b| < 32 || Field(ROOT, b, 0, 0) != NtfsAttributes.ATTR_FILE_NAME then None
    else ReadEntries(b, 16 + Field(ROOT, b, 0, 5))
  }

  /** A directory's index reads back as exactly its entries, in order. */
  lemma {:induction false} IndexRootRoundTrip(entries: seq<IndexEntry>)
    requires IndexRootBytes(entries).Some?
    ensures ReadIndexRoot(IndexRootBytes(entries).value) == Some(entries)
  {
    hide Field, Packed, Offset, Pow256, LittleEndian, ReadEntries, EntriesBytes, EndEntry;
    RootSize();
    var all := EntriesBytes(entries).value;
    var b := IndexRootBytes(entries).value;
    var fields := RootFields(|all| + 16);
    assert b[0..0 + Size(ROOT)] == Packed(ROOT, fields);
    FieldsOfPacked(ROOT, fields, b, 0);
    assert b[32..32 + |all|] == all && b[32 + |all|..32 + |all| + 16] == EndEntry();
    EntriesReadBack(entries, b, 32);
  }

  method BuildRootIndex(entries: seq<IndexEntry>) returns (root: Option<seq<Byte>>)
    ensures root == IndexRootBytes(entries)
  {
    hide EntryBytes, EndEntry, Packed, InRange;
    var all: seq<Byte> := [];
    for i := 0 to |entries|
      invariant match (EntriesBytes(entries[i..]), EntriesBytes(entries))
                case (Some(rest), Some(whole)) => whole == all + rest
                case (None, None) => true
                case _ => false
    {
      var entry := EntryBytes(entries[i]);
      assert entries[i..][1..] == entries[i + 1..];
      if entry.None? {
        return None;
      }
      all := all + entry.value;
    }
    assert entries[|entries|..] == [] && all + [] == all;
    if !InRange(ROOT, RootFields(|all| + 16)) {
      return None;
    }
    root := Some(Packed(ROOT, RootFields(|all| + 16)) + (all + EndEntry()));
  }
}
