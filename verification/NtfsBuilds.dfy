/** The image builder does not fail: everything it packs is in range whenever the files fit. */
module NtfsBuilds {
  import opened Words
  import opened StructPack
  import opened NtfsAttributes
  import opened NtfsIndex
  import opened MftRecord
  import opened NtfsMft
  import opened NtfsImage

  /** A size no larger than the largest partition a partition table can describe. */
  predicate SmallSize(n: nat) {
    n <= 0x200_0000_0000
  }

  lemma {:induction false} ResidentBuilds(kind: nat, content: Bytes, name: Bytes)
    requires kind < 0x1_0000_0000 && |content| <= 600 && |name| <= 16
    ensures var a := MakeResidentAttr(kind, content, name, 0, 0);
            a.Some? && |a.value| <= 24 + |name| + |content| + 14
  {
    hide Packed, Pow256;
    ResidentSize();
    PowersOf256();
    var fields := ResidentFields(kind, content, name, 0, 0);
    forall k | 0 <= k < |RESIDENT| ensures 0 <= fields[k] < Pow256(RESIDENT[k]) {
      assert k in {0, 1, 2, 3, 4, 5, 6, 7, 8, 9, 10};
    }
  }

  lemma {:induction false} FileNameBuilds(f: FileName)
    requires f.parent < TWO64 && |f.name| <= 11 && f.flags < 0x1_0000_0000 && SmallSize(f.realSize)
    requires f.allocSize <= f.realSize + CLUSTER
    ensures FileNameBytes(f).Some? && |FileNameBytes(f).value| <= 88
  {
    hide Packed, Pow256;
    FileNameSize();
    PowersOf256();
    var fields := FileNameFields(f);
    forall k | 0 <= k < |FILE_NAME| ensures 0 <= fields[k] < Pow256(FILE_NAME[k]) {
      assert k in {0, 1, 2, 3, 4, 5, 6, 7, 8, 9, 10};
    }
  }

  predicate SmallEntry(e: IndexEntry) {
    |e.name| <= 11 && e.flags < 0x1_0000_0000 && SmallSize(e.size)
  }

  lemma {:induction false} EntryBuilds(e: IndexEntry)
    requires SmallEntry(e)
    ensures EntryBytes(e).Some? && |EntryBytes(e).value| <= 112
  {
    hide Packed, Pow256, FileNameBytes;
    EntrySize();
    PowersOf256();
    FileNameBuilds(KeyOf(e));
    var key := FileNameBytes(KeyOf(e)).value;
    var fields := EntryFields(e, key);
    forall k | 0 <= k < |ENTRY| ensures 0 <= fields[k] < Pow256(ENTRY[k]) {
      assert k in {0, 1, 2, 3};
    }
  }

  lemma {:induction false} EntriesBuild(entries: seq<IndexEntry>)
    requires forall i :: 0 <= i < |entries| ==> SmallEntry(entries[i])
    ensures EntriesBytes(entries).Some? && |EntriesBytes(entries).value| <= 112 * |entries|
  {
    hide EntryBytes;
    if entries != [] {
      EntryBuilds(entries[0]);
      EntriesBuild(entries[1..]);
    }
  }

  lemma {:induction false} IndexBuilds(entries: seq<IndexEntry>)
    requires |entries| <= 4 && forall i :: 0 <= i < |entries| ==> SmallEntry(entries[i])
    ensures IndexRootBytes(entries).Some? && |IndexRootBytes(entries).value| <= 500
  {
    hide Packed, Pow256, EntriesBytes, EndEntry;
    RootSize();
    PowersOf256();
    EntriesBuild(entries);
    var fields := RootFields(|EntriesBytes(entries).value| + 16);
    ThreeBytes();
    forall k | 0 <= k < |ROOT| ensures 0 <= fields[k] < Pow256(ROOT[k]) {
      assert k in {0, 1, 2, 3, 4, 5, 6, 7, 8};
    }
  }

  lemma {:induction false} ClustersBuild(lcn: nat, size: nat)
    requires lcn <= 512 && 0 < size && SmallSize(size)
    ensures var a := MakeNonResidentAttr(ATTR_DATA, lcn, ClusterCount(size), size, 0);
            a.Some? && |a.value| <= 96
  {
    hide Packed, Pow256, InRange, NonResidentFields, RunBytes;
    NonResidentSize();
    var clusters := ClusterCount(size);
    RunIsShort(lcn, clusters);
    var length := RoundUp8(0x40 + |RunBytes(lcn, clusters).value|);
    NonResidentFit(clusters, size, length);
  }

  lemma {:induction false} RunIsShort(lcn: nat, clusters: nat)
    requires lcn < TWO64 && clusters < TWO64
    ensures RunBytes(lcn, clusters).Some? && |RunBytes(lcn, clusters).value| <= 18
  {
    hide Pow256;
    PowersOf256();
    MinimalBytesLength(lcn, 8);
    MinimalBytesLength(clusters, 8);
  }

  lemma {:induction false} NonResidentFit(clusters: nat, size: nat, length: nat)
    requires 0 < clusters && clusters * CLUSTER < TWO64 && SmallSize(size) && length <= 96
    ensures InRange(NONRESIDENT, NonResidentFields(ATTR_DATA, clusters, size, 0, length))
  {
    hide Pow256, NonResidentFields;
    NonResidentSize();
    PowersOf256();
    var fields := NonResidentFields(ATTR_DATA, clusters, size, 0, length);
    NonResidentValues(clusters, size, length);
    NonResidentWidths();
    forall k | 0 <= k < |NONRESIDENT| ensures 0 <= fields[k] < Pow256(NONRESIDENT[k]) {
      assert k in {0, 1, 2, 3, 4, 5, 6, 7, 8, 9, 10, 11, 12, 13, 14};
    }
  }

  lemma {:induction false} NonResidentWidths()
    ensures var w := NONRESIDENT;
            && w[0] == w[11] == 4 && w[1] == 4 && w[2] == w[3] == 1 && w[4] == w[5] == w[6] == w[9] == w[10] == 2
            && w[7] == w[8] == w[12] == w[13] == w[14] == 8
  {
  }

  lemma {:induction false} NonResidentValues(clusters: nat, size: nat, length: nat)
    ensures var f := NonResidentFields(ATTR_DATA, clusters, size, 0, length);
            && |f| == 15 && f[0] == ATTR_DATA && f[1] == length && f[2] == 1
            && f[3] == f[4] == f[5] == f[6] == f[7] == 0
            && f[8] == clusters - 1 && f[9] == 0x40 && f[10] == f[11] == 0
            && f[12] == clusters * CLUSTER && f[13] == f[14] == size
  {
  }

  lemma {:induction false} RecordBuilds(i: RecordInfo, attrs: seq<Bytes>)
    requires i.number < 100 && i.baseRef == 0 && i.sequence == 1 && i.links == 1 && |Concat(attrs)| <= 900
    ensures Complete(i, attrs).Some?
  {
    hide Concat, RawRecord, WithFixups, Pow256;
    HeaderSize();
    PowersOf256();
    var fields := HeaderFields(i, UsedBytes(attrs));
    forall k | 0 <= k < |HEADER| ensures 0 <= fields[k] < Pow256(HEADER[k]) {
      assert k in {0, 1, 2, 3, 4, 5, 6, 7, 8, 9, 10, 11, 12, 13};
    }
  }

  lemma {:induction false} StdInfoBuilds(flags: nat)
    requires flags < 0x1_0000_0000
    ensures StdInfoAttr(flags).Some? && |StdInfoAttr(flags).value| <= 86
  {
    hide Packed, Pow256, MakeResidentAttr;
    PowersOf256();
    var fields := StdInfoFields(flags);
    assert Size(STD_INFO) == 48 by { assert Offset(STD_INFO, 4) == 32; assert Offset(STD_INFO, 8) == 48; }
    forall k | 0 <= k < |STD_INFO| ensures 0 <= fields[k] < Pow256(STD_INFO[k]) {
      assert k in {0, 1, 2, 3, 4, 5, 6, 7};
    }
    ResidentBuilds(ATTR_STANDARD_INFORMATION, Packed(STD_INFO, fields), []);
  }

  /** What the table's files have in common. */
  predicate SmallSpec(f: FileSpec) {
    && f.no < 100 && f.name.parent < TWO64 && |f.name.name| <= 11 && f.name.flags < 0x1_0000_0000
    && SmallSize(f.name.realSize) && f.name.allocSize <= f.name.realSize + CLUSTER
    && match f.body
       case Content(b) => |b| <= 100
       case Directory(entries) => |entries| <= 4 && forall i :: 0 <= i < |entries| ==> SmallEntry(entries[i])
       case Clusters(lcn, clusters, size) => lcn <= 512 && 0 < size && SmallSize(size) && clusters == ClusterCount(size)
  }

  lemma {:induction false} BodyBuilds(f: FileSpec)
    requires SmallSpec(f)
    ensures BodyAttr(f.body).Some? && |BodyAttr(f.body).value| <= 560
  {
    hide MakeResidentAttr, MakeNonResidentAttr, IndexRootBytes;
    match f.body
    case Content(b) => ResidentBuilds(ATTR_DATA, b, []);
    case Directory(entries) =>
      IndexBuilds(entries);
      ResidentBuilds(ATTR_INDEX_ROOT, IndexRootBytes(entries).value, I30);
    case Clusters(lcn, _, size) => ClustersBuild(lcn, size);
  }

  lemma {:induction false} FileBuilds(f: FileSpec)
    requires SmallSpec(f)
    ensures FileRecordBytes(f).Some?
  {
    hide MakeResidentAttr, BodyAttr, StdInfoAttr, FileNameBytes, Complete;
    StdInfoBuilds(f.name.flags);
    FileNameBuilds(f.name);
    ResidentBuilds(ATTR_FILE_NAME, FileNameBytes(f.name).value, []);
    BodyBuilds(f);
    var (s, n, b) := (StdInfoAttr(f.name.flags).value, NameAttr(f.name).value, BodyAttr(f.body).value);
    ConcatOfThree(s, n, b);
    RecordBuilds(InfoOfFile(f), [s, n, b]);
  }

  lemma {:induction false} ConcatOfThree(a: Bytes, b: Bytes, c: Bytes)
    ensures |Concat([a, b, c])| == |a| + |b| + |c|
  {
    assert [a, b, c][1..] == [b, c] && [b, c][1..] == [c] && [c][1..] == [];
    assert Concat([c]) == c + Concat([]);
    assert Concat([b, c]) == b + Concat([c]);
  }

  lemma {:induction false} SpecsAreSmall(no: nat, dllSize: nat, childSize: nat)
    requires SmallSize(dllSize) && SmallSize(childSize)
    ensures SpecOf(no, dllSize, childSize).Some? ==> SmallSpec(SpecOf(no, dllSize, childSize).value)
  {
    hide Ascii, AsciiBytes;
  }

  lemma {:induction false} TableBuilds(n: nat, dllSize: nat, childSize: nat)
    requires n <= 29 && SmallSize(dllSize) && SmallSize(childSize)
    ensures TableTo(n, dllSize, childSize).Some?
  {
    hide SpecOf, SmallSpec, FileRecordBytes, Complete;
    if n > 0 {
      TableBuilds(n - 1, dllSize, childSize);
      SpecsAreSmall(n - 1, dllSize, childSize);
      var spec := SpecOf(n - 1, dllSize, childSize);
      if spec.Some? {
        FileBuilds(spec.value);
      } else {
        RecordBuilds(HoleInfo(n - 1), []);
      }
    }
  }

  lemma {:induction false} Pow256AtLeast(n: nat)
    ensures Pow256(n) >= 1
  {
    if n > 0 {
      Pow256AtLeast(n - 1);
    }
  }

  lemma {:induction false} BootSectorsBuild(sizeMib: nat)
    requires 2 <= sizeMib <= 0x20_0000
    ensures InRange(MBR, MbrFields(PartSectors(sizeMib))) && InRange(VBR, VbrFields(PartSectors(sizeMib)))
  {
    hide Pow256;
    PowersOf256();
    ThreeBytes();
    Pow256AtLeast(446);
    Pow256AtLeast(48);
    Pow256AtLeast(430);
    Pow256AtLeast(7);
    var (mbr, vbr) := (MbrFields(PartSectors(sizeMib)), VbrFields(PartSectors(sizeMib)));
    forall k | 0 <= k < |MBR| ensures 0 <= mbr[k] < Pow256(MBR[k]) {
      assert k in {0, 1, 2, 3, 4, 5, 6, 7, 8};
    }
    forall k | 0 <= k < |VBR| ensures 0 <= vbr[k] < Pow256(VBR[k]) {
      assert k in {0, 1, 2, 3, 4, 5, 6, 7, 8, 9, 10, 11, 12, 13, 14, 15, 16, 17, 18, 19, 20, 21};
    }
  }

  lemma {:induction false} ThreeBytes()
    ensures Pow256(3) == 0x100_0000
  {
    PowersOf256();
    assert Pow256(3) == 256 * Pow256(2);
  }

  /** Whenever the files fit, the image is built. */
  lemma {:induction false} ImageBuilds(sizeMib: int, dll: Bytes, child: Bytes)
    requires FilesFit(sizeMib, |dll|, |child|)
    ensures ImageOf(sizeMib, dll, child).Some?
  {
    hide InRange, TableTo, Assigned, WithFile, BootSectors;
    BootSectorsBuild(sizeMib);
    TableBuilds(RecordCount(|dll|, |child|), |dll|, |child|);
  }
}
