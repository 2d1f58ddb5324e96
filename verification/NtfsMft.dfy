/** The master file table of the image: which records there are and what they hold. */
module NtfsMft {
  import opened Words
  import opened StructPack
  import opened NtfsAttributes
  import opened NtfsIndex
  import opened MftRecord

  const FILE_ATTR_ARCHIVE: nat := 0x20
  const FILE_ATTR_DIRECTORY: nat := 0x1000_0000

  const MFT_REC_HELLO: RecordNo := 24
  const MFT_REC_DIR1: RecordNo := 25
  const MFT_REC_DIR1FILE: RecordNo := 26
  const MFT_REC_TESTLIB: RecordNo := 27
  const MFT_REC_CHILD: RecordNo := 28
  const TESTLIB_LCN: nat := 32
  const CHILD_LCN: nat := 512

  /** The UTF-16 units of a name given as text. */
  function Ascii(s: string): (name: Name)
    ensures |name| == |s|
  {
    seq<U16>(|s|, (i: int) requires 0 <= i < |s| => s[i] as int % 0x1_0000)
  }

  function AsciiBytes(s: string): (b: Bytes)
    ensures |b| == |s|
  {
    seq<Byte>(|s|, (i: int) requires 0 <= i < |s| => s[i] as int % 0x100)
  }

  /** Text in ASCII is spelled out character by character. */
  lemma {:induction false} AsciiSpells(s: string, k: nat)
    requires k < |s| && s[k] as int < 0x80
    ensures Ascii(s)[k] == s[k] as int && AsciiBytes(s)[k] == s[k] as int
  {
  }

  const HELLO_TXT: Bytes := AsciiBytes("Hello from MeuOS NTFS! Este arquivo foi lido do disco via IDE PIO.\r\n")
  const DIR1_FILE_TXT: Bytes := AsciiBytes("Arquivo dentro de dir1.\r\n")

  // ---- what a record holds ------------------------------------------------

  datatype Body =
    | Content(bytes: Bytes)
    | Directory(entries: seq<IndexEntry>)
    | Clusters(lcn: nat, clusters: nat, size: nat)

  datatype FileSpec = FileSpec(no: RecordNo, name: FileName, isDir: bool, body: Body)

  /** Four times, permissions, three zero words. */
  const STD_INFO: Format := [8, 8, 8, 8, 4, 4, 4, 4]

  function StdInfoFields(flags: nat): seq<int> {
    [NT_TIME, NT_TIME, NT_TIME, NT_TIME, flags, 0, 0, 0]
  }

  function StdInfoAttr(flags: nat): Option<Bytes> {
    if !InRange(STD_INFO, StdInfoFields(flags)) then None
    else MakeResidentAttr(ATTR_STANDARD_INFORMATION, Packed(STD_INFO, StdInfoFields(flags)), [], 0, 0)
  }

  function NameAttr(name: FileName): Option<Bytes> {
    match FileNameBytes(name)
    case None => None
    case Some(b) => MakeResidentAttr(ATTR_FILE_NAME, b, [], 0, 0)
  }

  const I30: Bytes := Utf16(Ascii("$I30"))

  function BodyAttr(body: Body): Option<Bytes> {
    match body
    case Content(b) => MakeResidentAttr(ATTR_DATA, b, [], 0, 0)
    case Directory(entries) =>
      (match IndexRootBytes(entries)
       case None => None
       case Some(b) => MakeResidentAttr(ATTR_INDEX_ROOT, b, I30, 0, 0))
    case Clusters(lcn, clusters, size) => MakeNonResidentAttr(ATTR_DATA, lcn, clusters, size, 0)
  }

  /** Every file's record has its standard information, its name and its body, in this order. */
  function AttrsOf(f: FileSpec): Option<seq<Bytes>> {
    match (StdInfoAttr(f.name.flags), NameAttr(f.name), BodyAttr(f.body))
    case (Some(s), Some(n), Some(b)) => Some([s, n, b])
    case _ => None
  }

  function InfoOfFile(f: FileSpec): RecordInfo {
    RecordInfo(f.no, f.isDir, true, 0, 1, 1)
  }

  function Complete(i: RecordInfo, attrs: seq<Bytes>): Option<Bytes> {
    if RecordFits(i, attrs) then Some(WithFixups(RawRecord(i, attrs))) else None
  }

  function FileRecordBytes(f: FileSpec): Option<Bytes> {
    match AttrsOf(f)
    case None => None
    case Some(attrs) => Complete(InfoOfFile(f), attrs)
  }

  /** A record number nobody uses. */
  function HoleInfo(no: nat): RecordInfo {
    RecordInfo(no, false, false, 0, 1, 1)
  }

  function HoleBytes(no: nat): Option<Bytes> {
    Complete(HoleInfo(no), [])
  }

  // ---- reading a file's record --------------------------------------------

  function KindOfAttr(a: Bytes): nat {
    if |a| < 4 then END_MARKER else FromLittleEndian(a[0..4])
  }

  /** The first attribute of a kind. */
  function FindAttr(attrs: seq<Bytes>, kind: nat): Option<Bytes> {
    if attrs == [] then None
    else if KindOfAttr(attrs[0]) == kind then Some(attrs[0])
    else FindAttr(attrs[1..], kind)
  }

  /** Where a file's data is: in the record itself, or in a run of clusters. */
  datatype Data = Inside(bytes: Bytes) | InRun(run: Run, size: nat)

  function ReadData(record: FileRecord): Option<Data> {
    match FindAttr(record.attrs, ATTR_DATA)
    case None => None
    case Some(a) =>
      match (ReadResident(a), ReadNonResident(a))
      case (Some(r), _) => Some(Inside(r.content))
      case (None, Some(r)) => Some(InRun(r.run, r.realSize))
      case _ => None
  }

  function ReadDirectory(record: FileRecord): Option<seq<IndexEntry>> {
    match FindAttr(record.attrs, ATTR_INDEX_ROOT)
    case None => None
    case Some(a) =>
      match ReadResident(a)
      case None => None
      case Some(r) => ReadIndexRoot(r.content)
  }

  /** The name a record gives its file. */
  function ReadName(record: FileRecord): Option<FileName> {
    match FindAttr(record.attrs, ATTR_FILE_NAME)
    case None => None
    case Some(a) =>
      match ReadResident(a)
      case None => None
      case Some(r) => ReadFileName(r.content)
  }

  /** The permissions in a record's standard information, behind four times. */
  function ReadPermissions(record: FileRecord): Option<nat> {
    match FindAttr(record.attrs, ATTR_STANDARD_INFORMATION)
    case None => None
    case Some(a) =>
      match ReadResident(a)
      case None => None
      case Some(r) => if |r.content| < 0x30 then None else Some(FromLittleEndian(r.content[0x20..0x24]))
  }

  lemma {:induction false} PermissionsRead(flags: nat)
    requires InRange(STD_INFO, StdInfoFields(flags))
    ensures var b := Packed(STD_INFO, StdInfoFields(flags));
            |b| == 0x30 && FromLittleEndian(b[0x20..0x24]) == flags
  {
    hide Packed, Pow256, LittleEndian, FromLittleEndian;
    assert Offset(STD_INFO, 4) == 0x20;
    assert Offset(STD_INFO, 8) == 0x30;
    var b := Packed(STD_INFO, StdInfoFields(flags));
    assert b[0..0 + Size(STD_INFO)] == b;
    FieldOfPacked(STD_INFO, StdInfoFields(flags), b, 0, 4);
  }

  lemma {:induction false} ResidentKind(kind: nat, content: Bytes, name: Bytes, flags: nat, id: nat)
    requires MakeResidentAttr(kind, content, name, flags, id).Some?
    ensures KindOfAttr(MakeResidentAttr(kind, content, name, flags, id).value) == kind
  {
    hide Packed, Pow256, LittleEndian, FromLittleEndian, Field, KindOfAttr, ResidentFields;
    ResidentSize();
    var fields := ResidentFields(kind, content, name, flags, id);
    KindFirst(kind, content, name, flags, id);
    var b := MakeResidentAttr(kind, content, name, flags, id).value;
    assert b[0..0 + Size(RESIDENT)] == Packed(RESIDENT, fields);
    FieldOfPacked(RESIDENT, fields, b, 0, 0);
    KindIsFirst(RESIDENT, b);
  }

  lemma {:induction false} KindFirst(kind: nat, content: Bytes, name: Bytes, flags: nat, id: nat)
    ensures var fields := ResidentFields(kind, content, name, flags, id); |fields| == 11 && fields[0] == kind
    ensures RESIDENT[0] == 4
  {
  }

  lemma {:induction false} KindIsFirst(format: Format, b: Bytes)
    requires format != [] && format[0] == 4 && Size(format) <= |b|
    ensures KindOfAttr(b) == Field(format, b, 0, 0)
  {
    FirstField(format, b);
  }

  lemma {:induction false} NonResidentKind(kind: nat, lcn: nat, clusters: nat, size: nat, id: nat)
    requires MakeNonResidentAttr(kind, lcn, clusters, size, id).Some?
    ensures KindOfAttr(MakeNonResidentAttr(kind, lcn, clusters, size, id).value) == kind
    ensures ReadResident(MakeNonResidentAttr(kind, lcn, clusters, size, id).value) == None
  {
    hide Packed, Pow256, LittleEndian, FromLittleEndian, RunBytes;
    NonResidentSize();
    ResidentSize();
    var run := RunBytes(lcn, clusters).value;
    var fields := NonResidentFields(kind, clusters, size, id, RoundUp8(0x40 + |run|));
    var b := MakeNonResidentAttr(kind, lcn, clusters, size, id).value;
    assert b[0..0 + Size(NONRESIDENT)] == Packed(NONRESIDENT, fields);
    FieldOfPacked(NONRESIDENT, fields, b, 0, 0);
    KindIsFirst(NONRESIDENT, b);
    FieldOfPacked(NONRESIDENT, fields, b, 0, 2);
    assert Offset(RESIDENT, 2) == 8 == Offset(NONRESIDENT, 2) && Offset(RESIDENT, 3) == 9 == Offset(NONRESIDENT, 3);
    assert Field(RESIDENT, b, 0, 2) == Field(NONRESIDENT, b, 0, 2);
  }

  predicate LcnReadable(lcn: nat) {
    FieldBytes(lcn)[|FieldBytes(lcn)| - 1] < 0x80
  }

  /** A complete file record reads back as in use, with its name, its permissions and the body's data or directory. */
  lemma {:induction false} FileRecordReads(f: FileSpec)
    requires FileRecordBytes(f).Some?
    ensures var r := ReadRecord(FileRecordBytes(f).value);
            && r.Some? && r.value.info == InfoOfFile(f)
            && ReadName(r.value) == Some(f.name) && ReadPermissions(r.value) == Some(f.name.flags)
            && match f.body
               case Content(b) => ReadData(r.value) == Some(Inside(b))
               case Directory(entries) => ReadDirectory(r.value) == Some(entries)
               case Clusters(lcn, clusters, size) =>
                 LcnReadable(lcn) ==> ReadData(r.value) == Some(InRun(Run(clusters, lcn), size))
  {
    hide ReadRecord, ReadResident, ReadNonResident, MakeResidentAttr, MakeNonResidentAttr, FileNameBytes;
    hide IndexRootBytes, ReadIndexRoot, IsAttribute, RecordFits, RawRecord, KindOfAttr, FindAttr, ReadFileName;
    var attrs := AttrsOf(f).value;
    var (s, n, b) := (attrs[0], attrs[1], attrs[2]);
    StdInfoReads(f.name.flags);
    NameReads(f.name);
    BodyReads(f.body);
    RecordRoundTrip(InfoOfFile(f), attrs);
    FindThree(attrs);
  }

  lemma {:induction false} StdInfoReads(flags: nat)
    requires StdInfoAttr(flags).Some?
    ensures var a := StdInfoAttr(flags).value;
            && IsAttribute(a) && KindOfAttr(a) == ATTR_STANDARD_INFORMATION
            && ReadResident(a).Some? && |ReadResident(a).value.content| == 0x30
            && FromLittleEndian(ReadResident(a).value.content[0x20..0x24]) == flags
  {
    hide ReadResident, MakeResidentAttr, IsAttribute, KindOfAttr, Packed, InRange;
    var b := Packed(STD_INFO, StdInfoFields(flags));
    PermissionsRead(flags);
    ResidentIsAttribute(ATTR_STANDARD_INFORMATION, b, [], 0, 0);
    ResidentKind(ATTR_STANDARD_INFORMATION, b, [], 0, 0);
    ResidentRoundTrip(ATTR_STANDARD_INFORMATION, b, [], 0, 0);
  }

  lemma {:induction false} NameReads(name: FileName)
    requires NameAttr(name).Some?
    ensures var a := NameAttr(name).value;
            && IsAttribute(a) && KindOfAttr(a) == ATTR_FILE_NAME
            && ReadResident(a).Some? && ReadFileName(ReadResident(a).value.content) == Some(name)
  {
    hide ReadResident, MakeResidentAttr, IsAttribute, KindOfAttr, FileNameBytes, ReadFileName;
    var b := FileNameBytes(name).value;
    FileNameRoundTrip(name);
    ResidentIsAttribute(ATTR_FILE_NAME, b, [], 0, 0);
    ResidentKind(ATTR_FILE_NAME, b, [], 0, 0);
    ResidentRoundTrip(ATTR_FILE_NAME, b, [], 0, 0);
  }

  lemma {:induction false} FindThree(attrs: seq<Bytes>)
    requires |attrs| == 3 && KindOfAttr(attrs[0]) != KindOfAttr(attrs[1])
    requires KindOfAttr(attrs[2]) != KindOfAttr(attrs[0]) && KindOfAttr(attrs[2]) != KindOfAttr(attrs[1])
    ensures FindAttr(attrs, KindOfAttr(attrs[0])) == Some(attrs[0])
    ensures FindAttr(attrs, KindOfAttr(attrs[1])) == Some(attrs[1])
    ensures FindAttr(attrs, KindOfAttr(attrs[2])) == Some(attrs[2])
  {
    hide KindOfAttr;
    var rest := attrs[1..];
    assert rest[1..] == [attrs[2]];
    assert FindAttr(rest[1..], KindOfAttr(attrs[2])) == Some(attrs[2]);
    assert FindAttr(rest, KindOfAttr(attrs[2])) == Some(attrs[2]);
    assert FindAttr(rest, KindOfAttr(attrs[1])) == Some(attrs[1]);
  }

  lemma {:induction false} BodyReads(body: Body)
    requires BodyAttr(body).Some?
    ensures var a := BodyAttr(body).value;
            && IsAttribute(a)
            && KindOfAttr(a) == (if body.Directory? then ATTR_INDEX_ROOT else ATTR_DATA)
            && match body
               case Content(b) => ReadResident(a).Some? && ReadResident(a).value.content == b
               case Directory(entries) =>
                 ReadResident(a).Some? && ReadIndexRoot(ReadResident(a).value.content) == Some(entries)
               case Clusters(lcn, clusters, size) =>
                 && ReadResident(a) == None
                 && (LcnReadable(lcn) ==>
                       ReadNonResident(a) == Some(NonResident(ATTR_DATA, 0, Run(clusters, lcn), size)))
  {
    hide ReadResident, ReadNonResident, MakeResidentAttr, MakeNonResidentAttr, IndexRootBytes, ReadIndexRoot;
    hide IsAttribute, KindOfAttr;
    match body
    case Content(b) =>
      ResidentIsAttribute(ATTR_DATA, b, [], 0, 0);
      ResidentKind(ATTR_DATA, b, [], 0, 0);
      ResidentRoundTrip(ATTR_DATA, b, [], 0, 0);
    case Directory(entries) =>
      var b := IndexRootBytes(entries).value;
      ResidentIsAttribute(ATTR_INDEX_ROOT, b, I30, 0, 0);
      ResidentKind(ATTR_INDEX_ROOT, b, I30, 0, 0);
      ResidentRoundTrip(ATTR_INDEX_ROOT, b, I30, 0, 0);
      IndexRootRoundTrip(entries);
    case Clusters(lcn, clusters, size) =>
      NonResidentIsAttribute(ATTR_DATA, lcn, clusters, size, 0);
      NonResidentKind(ATTR_DATA, lcn, clusters, size, 0);
      NonResidentRoundTrip(ATTR_DATA, lcn, clusters, size, 0);
  }

  // ---- the table ----------------------------------------------------------

  /** A file embedded in clusters: its size, and the clusters it takes. */
  function ClusterCount(size: nat): nat {
    (size + CLUSTER - 1) / CLUSTER
  }

  /** A metadata record: an empty file, or an empty directory. */
  function Basic(no: RecordNo, name: string, isDir: bool): FileSpec {
    FileSpec(no, FileName(FileRef(MFT_REC_ROOT), Ascii(name), FILE_ATTR_ARCHIVE, 0, 0), isDir,
             if isDir then Directory([]) else Content([]))
  }

  function Folder(no: RecordNo, name: string, entries: seq<IndexEntry>): FileSpec {
    FileSpec(no, FileName(FileRef(MFT_REC_ROOT), Ascii(name), FILE_ATTR_DIRECTORY, 0, 0), true, Directory(entries))
  }

  function TextFile(no: RecordNo, parent: RecordNo, name: string, text: Bytes): FileSpec {
    FileSpec(no, FileName(FileRef(parent), Ascii(name), FILE_ATTR_ARCHIVE, |text|, RoundUp8(|text|)), false,
             Content(text))
  }

  function ClusterFile(no: RecordNo, name: string, lcn: nat, size: nat): FileSpec {
    var clusters := ClusterCount(size);
    FileSpec(no, FileName(FileRef(MFT_REC_ROOT), Ascii(name), FILE_ATTR_ARCHIVE, size, clusters * CLUSTER), false,
             Clusters(lcn, clusters, size))
  }

  /** The root directory lists the files that are there. */
  function RootEntries(dllSize: nat, childSize: nat): seq<IndexEntry> {
    [IndexEntry(MFT_REC_HELLO, Ascii("hello.txt"), FILE_ATTR_ARCHIVE, |HELLO_TXT|),
     IndexEntry(MFT_REC_DIR1, Ascii("dir1"), FILE_ATTR_DIRECTORY, 0)]
    + (if dllSize > 0 then [IndexEntry(MFT_REC_TESTLIB, Ascii("testlib.dll"), FILE_ATTR_ARCHIVE, dllSize)] else [])
    + (if childSize > 0 then [IndexEntry(MFT_REC_CHILD, Ascii("child.exe"), FILE_ATTR_ARCHIVE, childSize)] else [])
  }

  function Dir1Entries(): seq<IndexEntry> {
    [IndexEntry(MFT_REC_DIR1FILE, Ascii("file.txt"), FILE_ATTR_ARCHIVE, |DIR1_FILE_TXT|)]
  }

  /** The file that record `no` describes, if any. */
  function SpecOf(no: nat, dllSize: nat, childSize: nat): Option<FileSpec> {
    if no == 0 then Some(Basic(0, "$MFT", false))
    else if no == 1 then Some(Basic(1, "$MFTMirr", false))
    else if no == 2 then Some(Basic(2, "$LogFile", false))
    else if no == 3 then Some(Basic(3, "$Volume", false))
    else if no == 4 then Some(Basic(4, "$AttrDef", false))
    else if no == MFT_REC_ROOT then Some(Folder(MFT_REC_ROOT, ".", RootEntries(dllSize, childSize)))
    else if no == 6 then Some(Basic(6, "$Bitmap", false))
    else if no == 7 then Some(Basic(7, "$Boot", false))
    else if no == 8 then Some(Basic(8, "$BadClus", false))
    else if no == 9 then Some(Basic(9, "$Secure", false))
    else if no == 10 then Some(Basic(10, "$UpCase", false))
    else if no == 11 then Some(Basic(11, "$Extend", true))
    else if no == MFT_REC_HELLO then Some(TextFile(MFT_REC_HELLO, MFT_REC_ROOT, "hello.txt", HELLO_TXT))
    else if no == MFT_REC_DIR1 then Some(Folder(MFT_REC_DIR1, "dir1", Dir1Entries()))
    else if no == MFT_REC_DIR1FILE then Some(TextFile(MFT_REC_DIR1FILE, MFT_REC_DIR1, "file.txt", DIR1_FILE_TXT))
    else if no == MFT_REC_TESTLIB && dllSize > 0 then
      Some(ClusterFile(MFT_REC_TESTLIB, "testlib.dll", TESTLIB_LCN, dllSize))
    else if no == MFT_REC_CHILD && childSize > 0 then
      Some(ClusterFile(MFT_REC_CHILD, "child.exe", CHILD_LCN, childSize))
    else None
  }

  function RecordCount(dllSize: nat, childSize: nat): nat {
    if childSize > 0 then 29 else if dllSize > 0 then 28 else 27
  }

  function SlotBytes(no: nat, dllSize: nat, childSize: nat): Option<Bytes> {
    match SpecOf(no, dllSize, childSize)
    case None => HoleBytes(no)
    case Some(f) => FileRecordBytes(f)
  }

  /** The first `n` records, one after the other. */
  function TableTo(n: nat, dllSize: nat, childSize: nat): Option<Bytes> {
    if n == 0 then Some([])
    else
      match (TableTo(n - 1, dllSize, childSize), SlotBytes(n - 1, dllSize, childSize))
      case (Some(before), Some(last)) => Some(before + last)
      case _ => None
  }

  method BuildAttrs(f: FileSpec) returns (attrs: Option<seq<Bytes>>)
    ensures attrs == AttrsOf(f)
  {
    hide MakeResidentAttr, MakeNonResidentAttr, FileNameBytes, IndexRootBytes, InRange, Packed;
    var std, name := StdInfoAttr(f.name.flags), NameAttr(f.name);
    var body := None;
    match f.body {
      case Directory(entries) =>
        var root := BuildRootIndex(entries);
        if root.Some? {
          body := MakeResidentAttr(ATTR_INDEX_ROOT, root.value, I30, 0, 0);
        }
      case Content(b) => body := MakeResidentAttr(ATTR_DATA, b, [], 0, 0);
      case Clusters(lcn, clusters, size) => body := MakeNonResidentAttr(ATTR_DATA, lcn, clusters, size, 0);
    }
    attrs := if std.Some? && name.Some? && body.Some? then Some([std.value, name.value, body.value]) else None;
  }

  /** One slot of the table: the file's record, or an unused one. */
  method BuildSlot(no: nat, dllSize: nat, childSize: nat) returns (b: Option<Bytes>)
    ensures b == SlotBytes(no, dllSize, childSize)
  {
    hide AttrsOf, SpecOf, RecordFits, RawRecord, WithFixups;
    var spec := SpecOf(no, dllSize, childSize);
    if spec.None? {
      b := BuildMftRecord(HoleInfo(no), []);
    } else {
      var attrs := BuildAttrs(spec.value);
      if attrs.None? {
        return None;
      }
      b := BuildMftRecord(InfoOfFile(spec.value), attrs.value);
    }
  }

  method BuildMft(dllSize: nat, childSize: nat) returns (mft: Option<Bytes>)
    ensures mft == TableTo(RecordCount(dllSize, childSize), dllSize, childSize)
  {
    hide SlotBytes;
    var n := RecordCount(dllSize, childSize);
    var all: Bytes := [];
    for i := 0 to n
      invariant TableTo(i, dllSize, childSize) == Some(all)
    {
      var b := BuildSlot(i, dllSize, childSize);
      if b.None? {
        TableFails(i + 1, n, dllSize, childSize);
        return None;
      }
      all := all + b.value;
    }
    mft := Some(all);
  }

  lemma {:induction false} TableFails(k: nat, n: nat, dllSize: nat, childSize: nat)
    requires k <= n && TableTo(k, dllSize, childSize) == None
    ensures TableTo(n, dllSize, childSize) == None
    decreases n
  {
    hide SlotBytes;
    if k < n {
      TableFails(k, n - 1, dllSize, childSize);
    }
  }

  lemma {:induction false} TableSlots(n: nat, k: nat, dllSize: nat, childSize: nat)
    requires TableTo(n, dllSize, childSize).Some? && k < n
    ensures SlotBytes(k, dllSize, childSize).Some?
    ensures |TableTo(n, dllSize, childSize).value| == n * MFT_RECORD_SIZE
    ensures (k + 1) * MFT_RECORD_SIZE <= n * MFT_RECORD_SIZE
    ensures TableTo(n, dllSize, childSize).value[k * MFT_RECORD_SIZE..(k + 1) * MFT_RECORD_SIZE]
         == SlotBytes(k, dllSize, childSize).value
    decreases n
  {
    hide SlotBytes;
    SlotLength(n - 1, dllSize, childSize);
    var before, last := TableTo(n - 1, dllSize, childSize).value, SlotBytes(n - 1, dllSize, childSize).value;
    if k < n - 1 {
      TableSlots(n - 1, k, dllSize, childSize);
      SliceOfLeft(before, last, k * MFT_RECORD_SIZE, (k + 1) * MFT_RECORD_SIZE);
    } else if n > 1 {
      TableSlots(n - 1, n - 2, dllSize, childSize);
      SliceOfRight(before, last);
    }
  }

  lemma {:induction false} SlotLength(no: nat, dllSize: nat, childSize: nat)
    requires SlotBytes(no, dllSize, childSize).Some?
    ensures |SlotBytes(no, dllSize, childSize).value| == MFT_RECORD_SIZE
  {
    hide SpecOf, RecordFits, RawRecord, AttrsOf, WithFixups;
  }
}
