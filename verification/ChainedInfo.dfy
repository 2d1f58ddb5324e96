/** Chained unwind records act as one record, and the first handler in the chain is the one found. */
module ChainedInfo {
  import opened Words
  import opened Memory
  import opened UnwindCodes
  import opened VirtualUnwind

  function CodeList(m: Mem, info: U64): (codes: seq<U16>)
    ensures HoldsCodes(m, info, codes)
  {
    seq<U16>(Count(m, info), (k: int) requires 0 <= k => Code(m, info, k))
  }

  /** The code arrays of the records, one after the other. */
  function AllCodes(m: Mem, chain: seq<U64>): seq<U16> {
    if chain == [] then [] else CodeList(m, chain[0]) + AllCodes(m, chain[1..])
  }

  predicate AllWhole(m: Mem, chain: seq<U64>) {
    forall i :: 0 <= i < |chain| ==> Whole(CodeList(m, chain[i]))
  }

  lemma {:induction false} OpsOfCodes(m: Mem, chain: seq<U64>)
    requires AllWhole(m, chain)
    ensures Whole(AllCodes(m, chain)) && OpsOf(m, chain) == Decode(AllCodes(m, chain))
  {
    if chain != [] {
      var codes := CodeList(m, chain[0]);
      assert Whole(codes);
      assert AllWhole(m, chain[1..]) by {
        forall i | 0 <= i < |chain[1..]| ensures Whole(CodeList(m, chain[1..][i])) {
          assert chain[1..][i] == chain[i + 1];
        }
      }
      OpsOfCodes(m, chain[1..]);
      OpsAreDecodedCodes(m, chain[0], codes);
      DecodeConcat(codes, AllCodes(m, chain[1..]));
    }
  }

  /**
   A chain of records unwinds exactly as the single unchained record `merged` does that holds the
   child's frame register and all code arrays concatenated, child first.
   */
  lemma {:induction false} ChainActsAsOneRecord(m: Mem, kind: HandlerKind, base: U64, info: U64, links: nat,
          merged: U64, c: Cpu)
    requires ChainEnds(m, base, info, links) && AllWhole(m, ChainOf(m, base, info, links))
    requires !Chained(m, merged)
    requires HoldsCodes(m, merged, AllCodes(m, ChainOf(m, base, info, links)))
    requires FrameReg(m, merged) == FrameReg(m, info) && FrameOff(m, merged) == FrameOff(m, info)
    ensures var one, all := Unwind(m, kind, base, merged, 0, c), Unwind(m, kind, base, info, links, c);
            one.cpu == all.cpu && one.establisher == all.establisher
  {
    var chain := ChainOf(m, base, info, links);
    OpsOfCodes(m, chain);
    OpsAreDecodedCodes(m, merged, AllCodes(m, chain));
    assert OpsOf(m, [merged]) == Ops(m, merged) + OpsOf(m, [merged][1..]);
    assert OpsOf(m, [merged][1..]) == [];
    assert Ops(m, merged) + [] == Ops(m, merged);
    assert OpsOf(m, ChainOf(m, base, merged, 0)) == OpsOf(m, chain);
  }

  /** The record offers a handler of this kind; a handler at address 0 is none. */
  predicate Offers(m: Mem, base: U64, info: U64, kind: HandlerKind) {
    Wants(m, info, kind) && HandlerOf(m, base, info).0 != 0
  }

  lemma {:induction false} FoundHandlerStays(m: Mem, base: U64, chain: seq<U64>, kind: HandlerKind, found: (U64, U64))
    requires found.0 != 0
    ensures HandlerIn(m, base, chain, kind, found) == found
  {
    if chain != [] {
      FoundHandlerStays(m, base, chain[1..], kind, found);
    }
  }

  lemma {:induction false} FirstHandlerIn(m: Mem, base: U64, chain: seq<U64>, kind: HandlerKind, found: (U64, U64),
          i: nat)
    requires found.0 == 0 && i <= |chain|
    requires forall j :: 0 <= j < i ==> !Offers(m, base, chain[j], kind)
    requires i < |chain| ==> Offers(m, base, chain[i], kind)
    ensures i < |chain| ==> HandlerIn(m, base, chain, kind, found) == HandlerOf(m, base, chain[i])
    ensures i == |chain| ==> HandlerIn(m, base, chain, kind, found).0 == 0
    decreases |chain|
  {
    if chain != [] {
      if i == 0 {
        FoundHandlerStays(m, base, chain[1..], kind, HandlerOf(m, base, chain[0]));
      } else {
        assert !Offers(m, base, chain[0], kind);
        var found' := if Wants(m, chain[0], kind) then HandlerOf(m, base, chain[0]) else found;
        assert found'.0 == 0;
        forall j | 0 <= j < i - 1 ensures !Offers(m, base, chain[1..][j], kind) {
          assert chain[1..][j] == chain[j + 1];
        }
        FirstHandlerIn(m, base, chain[1..], kind, found', i - 1);
      }
    }
  }

  /** The handler and data returned are those of the first record in the chain that offers one, or none. */
  lemma {:induction false} UnwindReturnsFirstHandler(m: Mem, kind: HandlerKind, base: U64, info: U64, links: nat,
          c: Cpu, i: nat)
    requires ChainEnds(m, base, info, links)
    requires var chain := ChainOf(m, base, info, links);
             i <= |chain| && (forall j :: 0 <= j < i ==> !Offers(m, base, chain[j], kind))
             && (i < |chain| ==> Offers(m, base, chain[i], kind))
    ensures var chain, u := ChainOf(m, base, info, links), Unwind(m, kind, base, info, links, c);
            if i < |chain| then (u.handler, u.data) == HandlerOf(m, base, chain[i]) else u.handler == 0
  {
    FirstHandlerIn(m, base, ChainOf(m, base, info, links), kind, (0, 0), i);
  }
}
