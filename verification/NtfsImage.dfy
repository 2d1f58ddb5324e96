/** The disk image: partition table, boot sector, file table, mirror and file clusters, and the way back. */
module NtfsImage {
  import opened Words
  import opened StructPack
  import NtfsAttributes
  import opened NtfsIndex
  import opened MftRecord
  import opened NtfsMft

  const PART_START_LBA: nat := 2048
  const SECTORS_PER_CLUSTER: nat := 8
  const MFT_LCN: nat := 4
  const MFTMIRR_LCN: nat := 8
  const PART_OFFSET: nat := 0x10_0000

  // ---- the two special sectors --------------------------------------------

  /** 446 zero bytes, the partition entry (state, CHS, type, CHS, first sector, sector count), 48 zeros, mark. */
  const MBR: Format := [446, 1, 3, 1, 3, 4, 4, 48, 2]

  function MbrFields(sectors: int): seq<int> {
    [0, 0x80, 0x00_21_20, 0x07, 0xFF_FF_FE, PART_START_LBA, sectors, 0, 0xAA55]
  }

  /**
   Jump, OEM name, bytes per sector, sectors per cluster, zeros, media, zeros, sectors per track, heads, hidden
   sectors, zeros, drive, total sectors, $MFT cluster, $MFTMirr cluster, record size, zeros, index size, zeros,
   serial, zeros, mark.
   */
  const VBR: Format := [3, 8, 2, 1, 7, 1, 2, 2, 2, 4, 4, 4, 8, 8, 8, 1, 3, 1, 3, 8, 430, 2]

  function VbrFields(sectors: int): seq<int> {
    [0x90_52_EB, 0x2020_2020_5346_544E, SECTOR, SECTORS_PER_CLUSTER, 0, 0xF8, 0, 63, 255, PART_START_LBA, 0,
     0x0080_0080, sectors, MFT_LCN, MFTMIRR_LCN, 246, 0, 1, 0, 0x1234_5678_90AB_CDEF, 0, 0xAA55]
  }

  lemma {:induction false} MbrSize()
    ensures |MBR| == 9 && Size(MBR) == SECTOR
  {
    assert Offset(MBR, 9) == SECTOR;
  }

  lemma {:induction false} VbrSize()
    ensures |VBR| == 22 && Size(VBR) == SECTOR
  {
    assert Offset(VBR, 5) == 0x15;
    assert Offset(VBR, 9) == 0x1C;
    assert Offset(VBR, 15) == 0x40;
    assert Offset(VBR, 22) == SECTOR;
  }

  // ---- slice assignment ---------------------------------------------------

  /** Python's `img[a:a + len(x)] = x`: past the end the bytes are appended. */
  function Assigned(img: Bytes, a: nat, x: Bytes): Bytes {
    var lo := if a < |img| then a else |img|;
    var hi := if a + |x| < |img| then a + |x| else |img|;
    img[..lo] + x + img[hi..]
  }

  lemma {:induction false} AssignedInside(img: Bytes, a: nat, x: Bytes)
    requires a + |x| <= |img|
    ensures |Assigned(img, a, x)| == |img| && Assigned(img, a, x)[a..a + |x|] == x
  {
  }

  lemma {:induction false} AssignedElsewhere(img: Bytes, a: nat, x: Bytes, i: nat, j: nat)
    requires a + |x| <= |img| && i <= j <= |img| && (j <= a || a + |x| <= i)
    ensures |Assigned(img, a, x)| == |img| && Assigned(img, a, x)[i..j] == img[i..j]
  {
  }

  // ---- building -----------------------------------------------------------

  /** Where things go, in bytes from the start of the image. */
  function ClusterOffset(lcn: nat): nat {
    PART_OFFSET + lcn * NtfsAttributes.CLUSTER
  }

  function PartSectors(sizeMib: int): int {
    sizeMib * 2048 - PART_START_LBA
  }

  /** The image for the given size in MiB and the two embedded files; None where packing or allocation fails. */
  method BuildImage(sizeMib: int, dll: Bytes, child: Bytes) returns (img: Option<Bytes>)
    ensures img == ImageOf(sizeMib, dll, child)
  {
    hide InRange, Packed, Assigned, TableTo;
    var sectors := PartSectors(sizeMib);
    if sizeMib < 0 || !InRange(MBR, MbrFields(sectors)) || !InRange(VBR, VbrFields(sectors)) {
      return None;
    }
    SectorsNotNegative(sectors);
    var b := Zeros(sizeMib * 2048 * SECTOR);
    b := Assigned(b, 0, Packed(MBR, MbrFields(sectors)));
    var vbr := Packed(VBR, VbrFields(sectors));
    b := Assigned(b, PART_OFFSET, vbr);
    b := Assigned(b, BackupOffset(sectors), vbr);
    var mft := BuildMft(|dll|, |child|);
    if mft.None? {
      return None;
    }
    MftLength(|dll|, |child|);
    b := Assigned(b, ClusterOffset(MFT_LCN), mft.value);
    b := Assigned(b, ClusterOffset(MFTMIRR_LCN), mft.value[..4 * MFT_RECORD_SIZE]);
    if |dll| > 0 {
      b := Assigned(b, ClusterOffset(TESTLIB_LCN), dll);
    }
    if |child| > 0 {
      b := Assigned(b, ClusterOffset(CHILD_LCN), child);
    }
    img := Some(b);
  }

  /** The last sector of the partition holds a copy of the boot sector. */
  function BackupOffset(sectors: int): nat
    requires sectors >= 0
  {
    PART_OFFSET + sectors * SECTOR - SECTOR
  }

  lemma {:induction false} MftLength(dllSize: nat, childSize: nat)
    requires TableTo(RecordCount(dllSize, childSize), dllSize, childSize).Some?
    ensures |TableTo(RecordCount(dllSize, childSize), dllSize, childSize).value|
            == RecordCount(dllSize, childSize) * MFT_RECORD_SIZE
  {
    hide TableTo;
    TableSlots(RecordCount(dllSize, childSize), 0, dllSize, childSize);
  }

  lemma {:induction false} SectorsNotNegative(sectors: int)
    requires InRange(MBR, MbrFields(sectors))
    ensures sectors >= 0
  {
    assert MbrFields(sectors)[6] == sectors;
  }

  /** The image after the two boot sectors. */
  function BootSectors(sizeMib: nat): Bytes
    requires InRange(MBR, MbrFields(PartSectors(sizeMib))) && InRange(VBR, VbrFields(PartSectors(sizeMib)))
  {
    var sectors := PartSectors(sizeMib);
    SectorsNotNegative(sectors);
    var vbr := Packed(VBR, VbrFields(sectors));
    Assigned(Assigned(Assigned(Zeros(sizeMib * 2048 * SECTOR), 0, Packed(MBR, MbrFields(sectors))), PART_OFFSET, vbr),
             BackupOffset(sectors), vbr)
  }

  function WithFile(img: Bytes, lcn: nat, file: Bytes): Bytes {
    if |file| > 0 then Assigned(img, ClusterOffset(lcn), file) else img
  }

  function ImageOf(sizeMib: int, dll: Bytes, child: Bytes): Option<Bytes> {
    if sizeMib < 0 || !InRange(MBR, MbrFields(PartSectors(sizeMib))) || !InRange(VBR, VbrFields(PartSectors(sizeMib)))
    then None
    else
      match TableTo(RecordCount(|dll|, |child|), |dll|, |child|)
      case None => None
      case Some(mft) =>
        MftLength(|dll|, |child|);
        var img := Assigned(BootSectors(sizeMib), ClusterOffset(MFT_LCN), mft);
        var img' := Assigned(img, ClusterOffset(MFTMIRR_LCN), mft[..4 * MFT_RECORD_SIZE]);
        Some(WithFile(WithFile(img', TESTLIB_LCN, dll), CHILD_LCN, child))
  }

  // ---- where the bytes end up ---------------------------------------------

  /**
   The partition holds at least 1 MiB and the embedded files, whose cluster ranges do not overlap. A caller
   knows all of this beforehand.
   */
  predicate FilesFit(sizeMib: int, dllSize: nat, childSize: nat) {
    && 2 <= sizeMib <= 0x20_0000
    && (dllSize > 0 && childSize > 0 ==> ClusterOffset(TESTLIB_LCN) + dllSize <= ClusterOffset(CHILD_LCN))
    && (dllSize > 0 ==> ClusterOffset(TESTLIB_LCN) + dllSize <= sizeMib * 0x10_0000)
    && (childSize > 0 ==> ClusterOffset(CHILD_LCN) + childSize <= sizeMib * 0x10_0000)
  }

  /** The image before the embedded files are copied in. */
  function WithTable(sizeMib: nat, mft: Bytes): Bytes
    requires InRange(MBR, MbrFields(PartSectors(sizeMib))) && InRange(VBR, VbrFields(PartSectors(sizeMib)))
    requires |mft| >= 4 * MFT_RECORD_SIZE
  {
    Assigned(Assigned(BootSectors(sizeMib), ClusterOffset(MFT_LCN), mft), ClusterOffset(MFTMIRR_LCN),
             mft[..4 * MFT_RECORD_SIZE])
  }

  lemma {:induction false} BootSectorsPlaced(sizeMib: nat)
    requires 2 <= sizeMib
    requires InRange(MBR, MbrFields(PartSectors(sizeMib))) && InRange(VBR, VbrFields(PartSectors(sizeMib)))
    ensures var img := BootSectors(sizeMib);
            && |img| == sizeMib * 0x10_0000
            && Size(MBR) == SECTOR == Size(VBR)
            && img[0..SECTOR] == Packed(MBR, MbrFields(PartSectors(sizeMib)))
            && img[PART_OFFSET..PART_OFFSET + SECTOR] == Packed(VBR, VbrFields(PartSectors(sizeMib)))
  {
    hide InRange, Packed, Assigned, Size;
    MbrSize();
    VbrSize();
    var sectors := PartSectors(sizeMib);
    var (mbr, vbr) := (Packed(MBR, MbrFields(sectors)), Packed(VBR, VbrFields(sectors)));
    var i0 := Zeros(sizeMib * 2048 * SECTOR);
    var i1 := Assigned(i0, 0, mbr);
    var i2 := Assigned(i1, PART_OFFSET, vbr);
    AssignedInside(i0, 0, mbr);
    AssignedElsewhere(i1, PART_OFFSET, vbr, 0, SECTOR);
    AssignedInside(i1, PART_OFFSET, vbr);
    AssignedElsewhere(i2, BackupOffset(sectors), vbr, 0, SECTOR);
    AssignedElsewhere(i2, BackupOffset(sectors), vbr, PART_OFFSET, PART_OFFSET + SECTOR);
  }

  /** The table and its mirror: the boot sectors stay, and the mirror covers table bytes 16384 to 20480. */
  lemma {:induction false} TablePlaced(sizeMib: nat, mft: Bytes)
    requires 2 <= sizeMib
    requires InRange(MBR, MbrFields(PartSectors(sizeMib))) && InRange(VBR, VbrFields(PartSectors(sizeMib)))
    requires 27 * MFT_RECORD_SIZE <= |mft| <= 29 * MFT_RECORD_SIZE
    ensures var (img, at) := (WithTable(sizeMib, mft), ClusterOffset(MFT_LCN));
            && |img| == sizeMib * 0x10_0000
            && img[..PART_OFFSET + SECTOR] == BootSectors(sizeMib)[..PART_OFFSET + SECTOR]
            && img[at..at + 16 * MFT_RECORD_SIZE] == mft[..16 * MFT_RECORD_SIZE]
            && img[at + 16 * MFT_RECORD_SIZE..at + 20 * MFT_RECORD_SIZE] == mft[..4 * MFT_RECORD_SIZE]
            && img[at + 20 * MFT_RECORD_SIZE..at + |mft|] == mft[20 * MFT_RECORD_SIZE..]
  {
    hide InRange, Packed, Assigned, BootSectors;
    BootSectorsPlaced(sizeMib);
    var (at, mirror) := (ClusterOffset(MFT_LCN), ClusterOffset(MFTMIRR_LCN));
    var i0 := BootSectors(sizeMib);
    var i1 := Assigned(i0, at, mft);
    var four := mft[..4 * MFT_RECORD_SIZE];
    AssignedInside(i0, at, mft);
    AssignedElsewhere(i0, at, mft, 0, PART_OFFSET + SECTOR);
    AssignedElsewhere(i1, mirror, four, 0, PART_OFFSET + SECTOR);
    AssignedInside(i1, mirror, four);
    AssignedElsewhere(i1, mirror, four, at, at + 16 * MFT_RECORD_SIZE);
    AssignedElsewhere(i1, mirror, four, at + 20 * MFT_RECORD_SIZE, at + |mft|);
    assert i1[at..at + 16 * MFT_RECORD_SIZE] == i1[at..at + |mft|][..16 * MFT_RECORD_SIZE];
    assert i1[at + 20 * MFT_RECORD_SIZE..at + |mft|] == i1[at..at + |mft|][20 * MFT_RECORD_SIZE..];
  }

  /** The embedded files are where they were put, and nothing below cluster 32 is touched. */
  lemma {:induction false} FilesPlaced(img: Bytes, sizeMib: nat, dll: Bytes, child: Bytes)
    requires FilesFit(sizeMib, |dll|, |child|) && |img| == sizeMib * 0x10_0000
    ensures var b := WithFile(WithFile(img, TESTLIB_LCN, dll), CHILD_LCN, child);
            && |b| == |img| && ClusterOffset(TESTLIB_LCN) <= |img|
            && b[..ClusterOffset(TESTLIB_LCN)] == img[..ClusterOffset(TESTLIB_LCN)]
            && (|dll| > 0 ==> ClusterOffset(TESTLIB_LCN) + |dll| <= |b|
                              && b[ClusterOffset(TESTLIB_LCN)..ClusterOffset(TESTLIB_LCN) + |dll|] == dll)
            && (|child| > 0 ==> ClusterOffset(CHILD_LCN) + |child| <= |b|
                                && b[ClusterOffset(CHILD_LCN)..ClusterOffset(CHILD_LCN) + |child|] == child)
  {
    hide Assigned;
    var (d, c) := (ClusterOffset(TESTLIB_LCN), ClusterOffset(CHILD_LCN));
    var i1 := WithFile(img, TESTLIB_LCN, dll);
    if |dll| > 0 {
      AssignedInside(img, d, dll);
      AssignedElsewhere(img, d, dll, 0, d);
    }
    if |child| > 0 {
      AssignedInside(i1, c, child);
      AssignedElsewhere(i1, c, child, 0, d);
      if |dll| > 0 {
        AssignedElsewhere(i1, c, child, d, d + |dll|);
      }
    }
  }

  /** Where record `k` begins. */
  function SlotOffset(k: nat): nat {
    ClusterOffset(MFT_LCN) + k * MFT_RECORD_SIZE
  }

  /**
   Every record reads back as built, except 16 to 19: there the mirror lies, so they read back as records 0 to 3.
   */
  lemma {:induction false} RecordsPlaced(sizeMib: int, dll: Bytes, child: Bytes, k: nat)
    requires FilesFit(sizeMib, |dll|, |child|) && ImageOf(sizeMib, dll, child).Some?
    requires k < RecordCount(|dll|, |child|)
    ensures var img := ImageOf(sizeMib, dll, child).value;
            var slot := SlotBytes(if 16 <= k < 20 then k - 16 else k, |dll|, |child|);
            && slot.Some? && SlotOffset(k + 1) <= |img| == sizeMib * 0x10_0000
            && img[SlotOffset(k)..SlotOffset(k + 1)] == slot.value
  {
    hide InRange, Packed, Assigned, TableTo, SlotBytes, BootSectors, WithFile;
    var mft := TableTo(RecordCount(|dll|, |child|), |dll|, |child|).value;
    var j := if 16 <= k < 20 then k - 16 else k;
    MftLength(|dll|, |child|);
    TableSlots(RecordCount(|dll|, |child|), j, |dll|, |child|);
    TablePlaced(sizeMib, mft);
    var img := WithTable(sizeMib, mft);
    FilesPlaced(img, sizeMib, dll, child);
    SlotOfTable(ImageOf(sizeMib, dll, child).value, img, mft, k);
  }

  lemma {:induction false} SlotOfTable(final: Bytes, img: Bytes, mft: Bytes, k: nat)
    requires (k + 1) * MFT_RECORD_SIZE <= |mft| <= 29 * MFT_RECORD_SIZE && 27 * MFT_RECORD_SIZE <= |mft|
    requires |final| == |img| && ClusterOffset(TESTLIB_LCN) <= |img|
    requires final[..ClusterOffset(TESTLIB_LCN)] == img[..ClusterOffset(TESTLIB_LCN)]
    requires var at := ClusterOffset(MFT_LCN);
             && img[at..at + 16 * MFT_RECORD_SIZE] == mft[..16 * MFT_RECORD_SIZE]
             && img[at + 16 * MFT_RECORD_SIZE..at + 20 * MFT_RECORD_SIZE] == mft[..4 * MFT_RECORD_SIZE]
             && img[at + 20 * MFT_RECORD_SIZE..at + |mft|] == mft[20 * MFT_RECORD_SIZE..]
    ensures SlotOffset(k + 1) <= |final|
    ensures var j := if 16 <= k < 20 then k - 16 else k;
            final[SlotOffset(k)..SlotOffset(k + 1)] == mft[j * MFT_RECORD_SIZE..(j + 1) * MFT_RECORD_SIZE]
  {
    var at, n, lim := ClusterOffset(MFT_LCN), MFT_RECORD_SIZE, ClusterOffset(TESTLIB_LCN);
    assert SlotOffset(k) == at + k * n && SlotOffset(k + 1) == at + (k + 1) * n <= lim;
    SliceOfSlice(final, 0, lim, at + k * n, at + (k + 1) * n);
    SliceOfSlice(img, 0, lim, at + k * n, at + (k + 1) * n);
    if k < 16 {
      PartOfTable(img, mft, at, 0, 16 * n, k * n, n);
    } else if k < 20 {
      PartOfTable(img, mft, at + 16 * n, 0, 4 * n, (k - 16) * n, n);
    } else {
      PartOfTable(img, mft, at + 20 * n, 20 * n, |mft| - 20 * n, (k - 20) * n, n);
    }
  }

  /** Bytes of a part of the table are bytes of the image where that part was put. */
  lemma {:induction false} PartOfTable(img: Bytes, mft: Bytes, a: nat, b: nat, size: nat, i: nat, n: nat)
    requires a + size <= |img| && b + size <= |mft| && i + n <= size && img[a..a + size] == mft[b..b + size]
    ensures img[a + i..a + i + n] == mft[b + i..b + i + n]
  {
    SliceOfSlice(img, a, a + size, i, i + n);
    SliceOfSlice(mft, b, b + size, i, i + n);
  }

  // ---- the reader ---------------------------------------------------------

  /** A mounted partition: where it starts, its cluster size, where its file table starts, in bytes. */
  datatype Volume = Volume(part: nat, cluster: nat, mft: nat)

  function Product(a: nat, b: nat): nat {
    a * b
  }

  function ReadVolume(img: Bytes): Option<Volume> {
    MbrSize();
    VbrSize();
    if |img| < SECTOR || Field(MBR, img, 0, 8) != 0xAA55 || Field(MBR, img, 0, 3) != 0x07 then None
    else
      var part := Field(MBR, img, 0, 5) * SECTOR;
      if part + SECTOR > |img| || Field(VBR, img, part, 1) != 0x2020_2020_5346_544E
         || Field(VBR, img, part, 21) != 0xAA55
      then None
      else
        var cluster := Product(Field(VBR, img, part, 2), Field(VBR, img, part, 3));
        Some(Volume(part, cluster, part + Product(Field(VBR, img, part, 13), cluster)))
  }

  function ReadMft(img: Bytes, v: Volume, k: nat): Option<FileRecord> {
    var at := v.mft + k * MFT_RECORD_SIZE;
    if at + MFT_RECORD_SIZE > |img| then None else ReadRecord(img[at..at + MFT_RECORD_SIZE])
  }

  /** The bytes of a file, from its record or from its run of clusters. */
  function ReadFile(img: Bytes, v: Volume, k: nat): Option<Bytes> {
    match ReadMft(img, v, k)
    case None => None
    case Some(r) =>
      match ReadData(r)
      case None => None
      case Some(Inside(b)) => Some(b)
      case Some(InRun(run, size)) =>
        var at := v.part + run.lcn * v.cluster;
        if at < 0 || size > run.clusters * v.cluster || at + size > |img| then None else Some(img[at..at + size])
  }

  function FindName(entries: seq<IndexEntry>, name: Name): Option<RecordNo> {
    if entries == [] then None
    else if entries[0].name == name then Some(entries[0].rec)
    else FindName(entries[1..], name)
  }

  /** The record of the entry called `name` in directory `dir`. */
  function Lookup(img: Bytes, v: Volume, dir: RecordNo, name: Name): Option<RecordNo> {
    match ReadMft(img, v, dir)
    case None => None
    case Some(r) =>
      match ReadDirectory(r)
      case None => None
      case Some(entries) => FindName(entries, name)
  }

  /** The record a path leads to from directory `dir`. */
  function Resolve(img: Bytes, v: Volume, dir: RecordNo, path: seq<Name>): Option<RecordNo>
    decreases |path|
  {
    if path == [] then Some(dir)
    else
      match Lookup(img, v, dir, path[0])
      case None => None
      case Some(child) => Resolve(img, v, child, path[1..])
  }

  /** Reads a file by its path: partition table, boot sector, root directory, directories, data. */
  function ReadPath(img: Bytes, path: seq<Name>): Option<Bytes> {
    match ReadVolume(img)
    case None => None
    case Some(v) =>
      match Resolve(img, v, MFT_REC_ROOT, path)
      case None => None
      case Some(k) => ReadFile(img, v, k)
  }

  const VOLUME: Volume := Volume(PART_OFFSET, NtfsAttributes.CLUSTER, ClusterOffset(MFT_LCN))

  /** The partition table and the boot sector are in the finished image. */
  lemma {:induction false} SectorsPlaced(sizeMib: int, dll: Bytes, child: Bytes)
    requires FilesFit(sizeMib, |dll|, |child|) && ImageOf(sizeMib, dll, child).Some?
    ensures var (img, sectors) := (ImageOf(sizeMib, dll, child).value, PartSectors(sizeMib));
            && |img| == sizeMib * 0x10_0000
            && InRange(MBR, MbrFields(sectors)) && InRange(VBR, VbrFields(sectors))
            && Size(MBR) == SECTOR == Size(VBR)
            && img[0..SECTOR] == Packed(MBR, MbrFields(sectors))
            && img[PART_OFFSET..PART_OFFSET + SECTOR] == Packed(VBR, VbrFields(sectors))
  {
    hide InRange, Packed, Assigned, TableTo, BootSectors, WithFile, Offset, Size;
    var img := ImageOf(sizeMib, dll, child).value;
    var mft := TableTo(RecordCount(|dll|, |child|), |dll|, |child|).value;
    MftLength(|dll|, |child|);
    TablePlaced(sizeMib, mft);
    FilesPlaced(WithTable(sizeMib, mft), sizeMib, dll, child);
    BootSectorsPlaced(sizeMib);
    var boot := BootSectors(sizeMib);
    var table := WithTable(sizeMib, mft);
    assert img[0..SECTOR] == img[..ClusterOffset(TESTLIB_LCN)][0..SECTOR] == table[..PART_OFFSET + SECTOR][0..SECTOR];
    SliceOfSlice(img, 0, ClusterOffset(TESTLIB_LCN), PART_OFFSET, PART_OFFSET + SECTOR);
    SliceOfSlice(table, 0, ClusterOffset(TESTLIB_LCN), PART_OFFSET, PART_OFFSET + SECTOR);
    SliceOfSlice(table, 0, PART_OFFSET + SECTOR, PART_OFFSET, PART_OFFSET + SECTOR);
    SliceOfSlice(boot, 0, PART_OFFSET + SECTOR, PART_OFFSET, PART_OFFSET + SECTOR);
    assert boot[..PART_OFFSET + SECTOR][0..SECTOR] == boot[0..SECTOR];
  }

  lemma {:induction false} VolumeMounts(sizeMib: int, dll: Bytes, child: Bytes)
    requires FilesFit(sizeMib, |dll|, |child|) && ImageOf(sizeMib, dll, child).Some?
    ensures ReadVolume(ImageOf(sizeMib, dll, child).value) == Some(VOLUME)
  {
    hide ImageOf, InRange, Packed, Field, Offset, Size;
    var (img, sectors) := (ImageOf(sizeMib, dll, child).value, PartSectors(sizeMib));
    SectorsPlaced(sizeMib, dll, child);
    MbrSize();
    VbrSize();
    FieldsOfPacked(MBR, MbrFields(sectors), img, 0);
    FieldsOfPacked(VBR, VbrFields(sectors), img, PART_OFFSET);
  }

  /** The image's last sector is a copy of the boot sector, if no file reaches into it. */
  lemma {:induction false} BackupPlaced(sizeMib: int, dll: Bytes, child: Bytes)
    requires FilesFit(sizeMib, |dll|, |child|) && ImageOf(sizeMib, dll, child).Some?
    requires |dll| > 0 ==> 0x12_0000 + |dll| <= sizeMib * 0x10_0000 - 512
    requires |child| > 0 ==> 0x30_0000 + |child| <= sizeMib * 0x10_0000 - 512
    ensures var img := ImageOf(sizeMib, dll, child).value;
            |img| >= 0x20_0000 && img[|img| - 512..] == img[0x10_0000..0x10_0200]
  {
    hide InRange, Packed, Assigned, TableTo, Offset, Size;
    SectorsPlaced(sizeMib, dll, child);
    BootSectorsPlaced(sizeMib);
    var sectors := PartSectors(sizeMib);
    var (mbr, vbr) := (Packed(MBR, MbrFields(sectors)), Packed(VBR, VbrFields(sectors)));
    var mft := TableTo(RecordCount(|dll|, |child|), |dll|, |child|).value;
    MftLength(|dll|, |child|);
    var (end, last) := (sizeMib * 0x10_0000, BackupOffset(sectors));
    assert last == end - 512;
    var i0 := Assigned(Assigned(Zeros(sizeMib * 2048 * SECTOR), 0, mbr), PART_OFFSET, vbr);
    AssignedInside(Zeros(sizeMib * 2048 * SECTOR), 0, mbr);
    AssignedInside(Assigned(Zeros(sizeMib * 2048 * SECTOR), 0, mbr), PART_OFFSET, vbr);
    AssignedInside(i0, last, vbr);
    var i1 := BootSectors(sizeMib);
    AssignedElsewhere(i1, ClusterOffset(MFT_LCN), mft, last, end);
    var (i2, four) := (Assigned(i1, ClusterOffset(MFT_LCN), mft), mft[..4 * MFT_RECORD_SIZE]);
    AssignedElsewhere(i2, ClusterOffset(MFTMIRR_LCN), four, last, end);
    var i3 := Assigned(i2, ClusterOffset(MFTMIRR_LCN), four);
    FileElsewhere(i3, TESTLIB_LCN, dll, last, end);
    FileElsewhere(WithFile(i3, TESTLIB_LCN, dll), CHILD_LCN, child, last, end);
  }

  lemma {:induction false} FileElsewhere(img: Bytes, lcn: nat, file: Bytes, i: nat, j: nat)
    requires i <= j <= |img| && (|file| > 0 ==> ClusterOffset(lcn) + |file| <= i)
    ensures |WithFile(img, lcn, file)| == |img| && WithFile(img, lcn, file)[i..j] == img[i..j]
  {
    hide Assigned;
    if |file| > 0 {
      AssignedElsewhere(img, ClusterOffset(lcn), file, i, j);
    }
  }

  /** A file's own record, read from the image. */
  lemma {:induction false} FileRecordFound(sizeMib: int, dll: Bytes, child: Bytes, f: FileSpec)
    requires FilesFit(sizeMib, |dll|, |child|) && ImageOf(sizeMib, dll, child).Some?
    requires f.no < RecordCount(|dll|, |child|) && SpecOf(f.no, |dll|, |child|) == Some(f) && (f.no < 16 || f.no >= 20)
    ensures var r := ReadMft(ImageOf(sizeMib, dll, child).value, VOLUME, f.no);
            && r.Some? && r.value.info == InfoOfFile(f)
            && ReadName(r.value) == Some(f.name) && ReadPermissions(r.value) == Some(f.name.flags)
            && match f.body
               case Content(b) => ReadData(r.value) == Some(Inside(b))
               case Directory(entries) => ReadDirectory(r.value) == Some(entries)
               case Clusters(lcn, clusters, size) =>
                 LcnReadable(lcn) ==> ReadData(r.value) == Some(InRun(NtfsAttributes.Run(clusters, lcn), size))
  {
    hide ImageOf, SpecOf, FileRecordBytes, ReadRecord, ReadData, ReadDirectory, ReadName, ReadPermissions;
    RecordsPlaced(sizeMib, dll, child, f.no);
    FileRecordReads(f);
  }

  lemma {:induction false} TwoLcnsReadable()
    ensures LcnReadable(TESTLIB_LCN) && LcnReadable(CHILD_LCN)
  {
    assert NtfsAttributes.MinimalBytes(32) == [32];
    assert NtfsAttributes.MinimalBytes(2) == [2];
    assert NtfsAttributes.MinimalBytes(512) == [0] + NtfsAttributes.MinimalBytes(2);
  }

  lemma {:induction false} NameFoundAt(entries: seq<IndexEntry>, name: Name, i: nat)
    requires i < |entries| && entries[i].name == name && forall j :: 0 <= j < i ==> entries[j].name != name
    ensures FindName(entries, name) == Some(entries[i].rec)
  {
    if i > 0 {
      NameFoundAt(entries[1..], name, i - 1);
    }
  }

  lemma {:induction false} NamesFound(dllSize: nat, childSize: nat)
    ensures FindName(RootEntries(dllSize, childSize), Ascii("hello.txt")) == Some(MFT_REC_HELLO)
    ensures FindName(RootEntries(dllSize, childSize), Ascii("dir1")) == Some(MFT_REC_DIR1)
    ensures dllSize > 0 ==> FindName(RootEntries(dllSize, childSize), Ascii("testlib.dll")) == Some(MFT_REC_TESTLIB)
    ensures childSize > 0 ==> FindName(RootEntries(dllSize, childSize), Ascii("child.exe")) == Some(MFT_REC_CHILD)
    ensures FindName(Dir1Entries(), Ascii("file.txt")) == Some(MFT_REC_DIR1FILE)
  {
    hide FindName;
    var entries := RootEntries(dllSize, childSize);
    assert Ascii("hello.txt")[0] != Ascii("child.exe")[0];
    NameFoundAt(entries, Ascii("hello.txt"), 0);
    NameFoundAt(entries, Ascii("dir1"), 1);
    if dllSize > 0 {
      NameFoundAt(entries, Ascii("testlib.dll"), 2);
    }
    if childSize > 0 {
      NameFoundAt(entries, Ascii("child.exe"), if dllSize > 0 then 3 else 2);
    }
    NameFoundAt(Dir1Entries(), Ascii("file.txt"), 0);
  }

  /** Following a path of one name from the root, then the file's data. */
  lemma {:induction false} PathReads(sizeMib: int, dll: Bytes, child: Bytes, name: Name, f: FileSpec)
    requires FilesFit(sizeMib, |dll|, |child|) && ImageOf(sizeMib, dll, child).Some?
    requires f.no < RecordCount(|dll|, |child|) && SpecOf(f.no, |dll|, |child|) == Some(f) && f.no >= 20
    requires FindName(RootEntries(|dll|, |child|), name) == Some(f.no)
    ensures var image := ImageOf(sizeMib, dll, child).value; ReadPath(image, [name]) == ReadFile(image, VOLUME, f.no)
  {
    hide ImageOf, ReadVolume, ReadMft, ReadFile, ReadDirectory, FindName, ReadName, ReadPermissions;
    var img := ImageOf(sizeMib, dll, child).value;
    VolumeMounts(sizeMib, dll, child);
    FileRecordFound(sizeMib, dll, child, Folder(MFT_REC_ROOT, ".", RootEntries(|dll|, |child|)));
    assert Lookup(img, VOLUME, MFT_REC_ROOT, name) == Some(f.no);
    var path: seq<Name> := [name];
    assert path[1..] == [];
    assert Resolve(img, VOLUME, f.no, []) == Some(f.no);
  }

  /** Every file is read back from the finished image, by its path, byte for byte. */
  lemma {:induction false} FilesReadBack(sizeMib: int, dll: Bytes, child: Bytes)
    requires FilesFit(sizeMib, |dll|, |child|) && ImageOf(sizeMib, dll, child).Some?
    ensures var img := ImageOf(sizeMib, dll, child).value;
            && ReadPath(img, [Ascii("hello.txt")]) == Some(HELLO_TXT)
            && ReadPath(img, [Ascii("dir1"), Ascii("file.txt")]) == Some(DIR1_FILE_TXT)
            && (|dll| > 0 ==> ReadPath(img, [Ascii("testlib.dll")]) == Some(dll))
            && (|child| > 0 ==> ReadPath(img, [Ascii("child.exe")]) == Some(child))
  {
    TextReadsBack(sizeMib, dll, child);
    NestedTextReadsBack(sizeMib, dll, child);
    if |dll| > 0 {
      ClusterFileReadsBack(sizeMib, dll, child, MFT_REC_TESTLIB, "testlib.dll", TESTLIB_LCN, dll);
    }
    if |child| > 0 {
      ClusterFileReadsBack(sizeMib, dll, child, MFT_REC_CHILD, "child.exe", CHILD_LCN, child);
    }
  }

  lemma {:induction false} TextReadsBack(sizeMib: int, dll: Bytes, child: Bytes)
    requires FilesFit(sizeMib, |dll|, |child|) && ImageOf(sizeMib, dll, child).Some?
    ensures ReadPath(ImageOf(sizeMib, dll, child).value, [Ascii("hello.txt")]) == Some(HELLO_TXT)
  {
    hide ImageOf, ReadPath, ReadMft, ReadData, ReadDirectory, FindName, Ascii, AsciiBytes, ReadName, ReadPermissions;
    var f := TextFile(MFT_REC_HELLO, MFT_REC_ROOT, "hello.txt", HELLO_TXT);
    NamesFound(|dll|, |child|);
    FileRecordFound(sizeMib, dll, child, f);
    PathReads(sizeMib, dll, child, Ascii("hello.txt"), f);
  }

  lemma {:induction false} NestedTextReadsBack(sizeMib: int, dll: Bytes, child: Bytes)
    requires FilesFit(sizeMib, |dll|, |child|) && ImageOf(sizeMib, dll, child).Some?
    ensures ReadPath(ImageOf(sizeMib, dll, child).value, [Ascii("dir1"), Ascii("file.txt")]) == Some(DIR1_FILE_TXT)
  {
    hide ImageOf, ReadVolume, ReadMft, ReadData, ReadDirectory, FindName, Ascii, AsciiBytes, ReadName, ReadPermissions;
    var img := ImageOf(sizeMib, dll, child).value;
    var (dir1, file) := (Ascii("dir1"), Ascii("file.txt"));
    NamesFound(|dll|, |child|);
    VolumeMounts(sizeMib, dll, child);
    FileRecordFound(sizeMib, dll, child, Folder(MFT_REC_ROOT, ".", RootEntries(|dll|, |child|)));
    FileRecordFound(sizeMib, dll, child, Folder(MFT_REC_DIR1, "dir1", Dir1Entries()));
    FileRecordFound(sizeMib, dll, child, TextFile(MFT_REC_DIR1FILE, MFT_REC_DIR1, "file.txt", DIR1_FILE_TXT));
    assert Lookup(img, VOLUME, MFT_REC_ROOT, dir1) == Some(MFT_REC_DIR1);
    assert Lookup(img, VOLUME, MFT_REC_DIR1, file) == Some(MFT_REC_DIR1FILE);
    var rest: seq<Name> := [file];
    assert [dir1, file][1..] == rest && rest[1..] == [];
    assert Resolve(img, VOLUME, MFT_REC_DIR1FILE, []) == Some(MFT_REC_DIR1FILE);
    assert Resolve(img, VOLUME, MFT_REC_DIR1, [file]) == Some(MFT_REC_DIR1FILE);
  }

  lemma {:induction false} ClusterFileReadsBack(sizeMib: int, dll: Bytes, child: Bytes, no: RecordNo, name: string,
          lcn: nat, file: Bytes)
    requires FilesFit(sizeMib, |dll|, |child|) && ImageOf(sizeMib, dll, child).Some?
    requires |file| > 0
    requires (no, name, lcn, file) == (MFT_REC_TESTLIB, "testlib.dll", TESTLIB_LCN, dll)
             || (no, name, lcn, file) == (MFT_REC_CHILD, "child.exe", CHILD_LCN, child)
    ensures ReadPath(ImageOf(sizeMib, dll, child).value, [Ascii(name)]) == Some(file)
  {
    hide ReadPath, ReadMft, ReadData, FindName, Ascii, TableTo, InRange, Assigned, Packed, WithFile, BootSectors;
    hide ReadName, ReadPermissions;
    var img := ImageOf(sizeMib, dll, child).value;
    var f := ClusterFile(no, name, lcn, |file|);
    NamesFound(|dll|, |child|);
    TwoLcnsReadable();
    FileRecordFound(sizeMib, dll, child, f);
    PathReads(sizeMib, dll, child, Ascii(name), f);
    MftLength(|dll|, |child|);
    var mft := TableTo(RecordCount(|dll|, |child|), |dll|, |child|).value;
    TablePlaced(sizeMib, mft);
    FilesPlaced(WithTable(sizeMib, mft), sizeMib, dll, child);
    assert |file| <= ClusterCount(|file|) * NtfsAttributes.CLUSTER;
  }

  // ---- names in the image -------------------------------------------------

  /** The record an entry of directory `dir` leads to carries the entry's name, flags and size, and that directory. */
  predicate Carries(img: Bytes, dir: RecordNo, e: IndexEntry) {
    match ReadMft(img, VOLUME, e.rec)
    case None => false
    case Some(r) =>
      && r.info.number == e.rec && r.info.inUse && r.info.isDir == (e.flags == 0x1000_0000)
      && ReadPermissions(r) == Some(e.flags)
      && match ReadName(r)
         case None => false
         case Some(n) =>
           n.name == e.name && n.flags == e.flags && n.realSize == e.size && n.parent == 0x1_0000_0000_0000 + dir
  }

  lemma {:induction false} SpecCarries(sizeMib: int, dll: Bytes, child: Bytes, dir: RecordNo, e: IndexEntry,
          f: FileSpec)
    requires FilesFit(sizeMib, |dll|, |child|) && ImageOf(sizeMib, dll, child).Some?
    requires f.no < RecordCount(|dll|, |child|) && SpecOf(f.no, |dll|, |child|) == Some(f) && f.no >= 20
    requires f.no == e.rec && f.name.name == e.name && f.name.flags == e.flags && f.name.realSize == e.size
    requires f.name.parent == 0x1_0000_0000_0000 + dir && f.isDir == (e.flags == 0x1000_0000)
    ensures Carries(ImageOf(sizeMib, dll, child).value, dir, e)
  {
    hide ImageOf, SpecOf, ReadMft, ReadData, ReadDirectory, ReadName, ReadPermissions;
    FileRecordFound(sizeMib, dll, child, f);
  }

  /** Every entry of the two directories of the image leads to a record that carries it. */
  lemma {:induction false} EntriesNameRecords(sizeMib: int, dll: Bytes, child: Bytes, dir: RecordNo)
    requires FilesFit(sizeMib, |dll|, |child|) && ImageOf(sizeMib, dll, child).Some? && dir in {5, 25}
    ensures var img := ImageOf(sizeMib, dll, child).value;
            match ReadMft(img, VOLUME, dir)
            case None => false
            case Some(d) =>
              match ReadDirectory(d)
              case None => false
              case Some(entries) => entries != [] && forall e :: e in entries ==> Carries(img, dir, e)
  {
    hide ImageOf, ReadMft, ReadData, ReadDirectory, ReadName, ReadPermissions, Carries, Ascii, AsciiBytes;
    if dir == 5 {
      var entries := RootEntries(|dll|, |child|);
      FileRecordFound(sizeMib, dll, child, Folder(MFT_REC_ROOT, ".", entries));
      SpecCarries(sizeMib, dll, child, 5, entries[0], TextFile(MFT_REC_HELLO, MFT_REC_ROOT, "hello.txt", HELLO_TXT));
      SpecCarries(sizeMib, dll, child, 5, entries[1], Folder(MFT_REC_DIR1, "dir1", Dir1Entries()));
      if |dll| > 0 {
        SpecCarries(sizeMib, dll, child, 5, entries[2],
                    ClusterFile(MFT_REC_TESTLIB, "testlib.dll", TESTLIB_LCN, |dll|));
      }
      if |child| > 0 {
        var last := entries[|entries| - 1];
        SpecCarries(sizeMib, dll, child, 5, last, ClusterFile(MFT_REC_CHILD, "child.exe", CHILD_LCN, |child|));
      }
    } else {
      FileRecordFound(sizeMib, dll, child, Folder(MFT_REC_DIR1, "dir1", Dir1Entries()));
      SpecCarries(sizeMib, dll, child, 25, Dir1Entries()[0],
                  TextFile(MFT_REC_DIR1FILE, MFT_REC_DIR1, "file.txt", DIR1_FILE_TXT));
    }
  }

  /** The names NTFS gives its first twelve records. */
  const SYSTEM_NAMES: seq<string> :=
    ["$MFT", "$MFTMirr", "$LogFile", "$Volume", "$AttrDef", ".", "$Bitmap", "$Boot", "$BadClus", "$Secure", "$UpCase",
     "$Extend"]

  /** The image's first twelve records are the system's, in the root directory. */
  lemma {:induction false} SystemRecordsNamed(sizeMib: int, dll: Bytes, child: Bytes, k: RecordNo)
    requires FilesFit(sizeMib, |dll|, |child|) && ImageOf(sizeMib, dll, child).Some? && k < 12
    ensures match ReadMft(ImageOf(sizeMib, dll, child).value, VOLUME, k)
            case None => false
            case Some(r) =>
              && r.info.number == k && r.info.inUse && r.info.isDir == (k in {5, 11})
              && match ReadName(r)
                 case None => false
                 case Some(n) => n.name == Ascii(SYSTEM_NAMES[k]) && n.parent == 0x1_0000_0000_0000 + 5
  {
    hide ImageOf, ReadMft, ReadData, ReadDirectory, ReadName, ReadPermissions, Ascii, RootEntries;
    assert k in {0, 1, 2, 3, 4, 5, 6, 7, 8, 9, 10, 11};
    var f := SpecOf(k, |dll|, |child|).value;
    FileRecordFound(sizeMib, dll, child, f);
  }

  /** The index of the inner directory calls the root the parent of its file; the file's record knows better. */
  lemma {:induction false} KeyNamesRoot(e: IndexEntry)
    requires EntryBytes(e).Some?
    ensures var b := EntryBytes(e).value;
            |b| >= 24 && FromLittleEndian(b[16..24]) == 0x1_0000_0000_0000 + 5
  {
    hide Packed, Pow256, LittleEndian, FromLittleEndian;
    EntrySize();
    FileNameSize();
    var (b, key) := (EntryBytes(e).value, FileNameBytes(KeyOf(e)).value);
    assert b[16..16 + Size(FILE_NAME)] == Packed(FILE_NAME, FileNameFields(KeyOf(e)));
    FieldOfPacked(FILE_NAME, FileNameFields(KeyOf(e)), b, 16, 0);
    assert Offset(FILE_NAME, 1) == 8;
  }
}
