/** The .pdata function table: the binary search of ntdll against the linear scan of the inspection tool. */
module FunctionTable {
  import opened Words
  import opened VirtualUnwind

  /** A loaded image: its base and its exception directory, empty when it has none. */
  datatype Image = Image(base: U64, table: Table)

  /** The directory size is a 32-bit byte count, 12 bytes an entry. */
  type Table = t: seq<RuntimeFunction> | 12 * |t| < 0x1_0000_0000 witness []

  /** Which image holds an address, as the kernel reports it. */
  type Modules = U64 -> Option<Image>

  datatype Found = Found(base: U64, fn: RuntimeFunction)

  predicate Covers(fn: RuntimeFunction, rva: U32) {
    fn.begin <= rva < fn.end
  }

  /** Sorted, disjoint, non-empty ranges. */
  ghost predicate Sorted(table: seq<RuntimeFunction>) {
    && (forall i :: 0 <= i < |table| ==> table[i].begin < table[i].end)
    && (forall i, j :: 0 <= i < j < |table| ==> table[i].end <= table[j].begin)
  }

  /** The first entry that covers `rva`. */
  function FirstCovering(table: seq<RuntimeFunction>, rva: U32): Option<RuntimeFunction> {
    if table == [] then None
    else if Covers(table[0], rva) then Some(table[0])
    else FirstCovering(table[1..], rva)
  }

  lemma {:induction false} FirstCoveringAt(table: seq<RuntimeFunction>, rva: U32, k: nat)
    requires k < |table| && Covers(table[k], rva)
    requires forall i :: 0 <= i < k ==> !Covers(table[i], rva)
    ensures FirstCovering(table, rva) == Some(table[k])
  {
    if k > 0 {
      FirstCoveringAt(table[1..], rva, k - 1);
    }
  }

  lemma {:induction false} FirstCoveringNone(table: seq<RuntimeFunction>, rva: U32)
    requires forall i :: 0 <= i < |table| ==> !Covers(table[i], rva)
    ensures FirstCovering(table, rva) == None
  {
    if table != [] {
      FirstCoveringNone(table[1..], rva);
    }
  }

  /** The tool's scan: the first entry that covers the address wins. */
  method LinearScan(table: seq<RuntimeFunction>, rva: U32) returns (found: Option<RuntimeFunction>)
    ensures found == FirstCovering(table, rva)
  {
    found := None;
    for i := 0 to |table|
      invariant found == None && forall k :: 0 <= k < i ==> !Covers(table[k], rva)
    {
      if table[i].begin <= rva < table[i].end {
        FirstCoveringAt(table, rva, i);
        return Some(table[i]);
      }
    }
    FirstCoveringNone(table, rva);
  }

  /** The entry that describes the function at `pc`. */
  function FindEntry(modules: Modules, pc: U64): Option<Found> {
    match modules(pc)
    case None => None
    case Some(image) =>
      if image.base == 0 then None
      else
        match FirstCovering(image.table, Wrap(pc - image.base) % 0x1_0000_0000)
        case None => None
        case Some(fn) => Some(Found(image.base, fn))
  }

  /** The entry reported is one of the image's that covers the address counted from the image's base. */
  lemma {:induction false} EntryFound(modules: Modules, pc: U64)
    ensures match FindEntry(modules, pc)
            case Some(found) =>
              && modules(pc).Some? && found.base == modules(pc).value.base > 0 && found.fn in modules(pc).value.table
              && found.fn.begin <= Wrap(pc - found.base) % 0x1_0000_0000 < found.fn.end
            case None =>
              modules(pc).Some? && modules(pc).value.base > 0 ==>
                forall e :: e in modules(pc).value.table ==>
                  !(e.begin <= Wrap(pc - modules(pc).value.base) % 0x1_0000_0000 < e.end)
  {
    if modules(pc).Some? && modules(pc).value.base > 0 {
      FirstCoveringCovers(modules(pc).value.table, Wrap(pc - modules(pc).value.base) % 0x1_0000_0000);
    }
  }

  lemma {:induction false} FirstCoveringCovers(table: seq<RuntimeFunction>, rva: U32)
    ensures match FirstCovering(table, rva)
            case Some(fn) => fn in table && fn.begin <= rva < fn.end
            case None => forall e :: e in table ==> !(e.begin <= rva < e.end)
  {
    if table != [] {
      assert table == [table[0]] + table[1..];
      FirstCoveringCovers(table[1..], rva);
    }
  }

  ghost predicate TablesSorted(modules: Modules) {
    forall pc: U64 :: modules(pc).Some? ==> Sorted(modules(pc).value.table)
  }

  /** Any entry returned covers the address; on a sorted table it is the one the linear scan finds. */
  method BinarySearch(table: Table, rva: U32) returns (found: Option<RuntimeFunction>)
    ensures found.Some? ==> found.value in table && Covers(found.value, rva)
    ensures Sorted(table) ==> found == FirstCovering(table, rva)
  {
    var lo, hi := 0, |table|;
    while lo < hi
      invariant 0 <= lo <= hi <= |table|
      invariant Sorted(table) ==> forall i :: 0 <= i < lo || hi <= i < |table| ==> !Covers(table[i], rva)
    {
      var mid := (lo + hi) % 0x1_0000_0000 / 2;
      if rva < table[mid].begin {
        hi := mid;
      } else if rva >= table[mid].end {
        lo := mid + 1;
      } else {
        if Sorted(table) {
          FirstCoveringAt(table, rva, mid);
        }
        return Some(table[mid]);
      }
    }
    if Sorted(table) {
      FirstCoveringNone(table, rva);
    }
    found := None;
  }

  method RtlLookupFunctionEntry(modules: Modules, pc: U64) returns (fn: Option<RuntimeFunction>, imgbase: U64)
    ensures imgbase == if modules(pc).Some? then modules(pc).value.base else 0
    ensures (modules(pc).Some? ==> Sorted(modules(pc).value.table)) ==>
              FindEntry(modules, pc) == if fn.Some? then Some(Found(imgbase, fn.value)) else None
    ensures fn.Some? ==>
              && modules(pc).Some? && imgbase > 0 && fn.value in modules(pc).value.table
              && fn.value.begin <= Wrap(pc - imgbase) % 0x1_0000_0000 < fn.value.end
    ensures fn.None? && imgbase > 0 && Sorted(modules(pc).value.table) ==>
              forall e :: e in modules(pc).value.table ==> !(e.begin <= Wrap(pc - imgbase) % 0x1_0000_0000 < e.end)
  {
    if modules(pc).None? || modules(pc).value.base == 0 {
      return None, 0;
    }
    imgbase := modules(pc).value.base;
    EntryFound(modules, pc);
    fn := BinarySearch(modules(pc).value.table, Wrap(pc - imgbase) % 0x1_0000_0000);
  }
}
