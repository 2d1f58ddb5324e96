/** Byte-addressed memory of an x64 process; every address is readable. */
module Memory {
  import opened Words

  type Mem = U64 -> Byte

  /** The `n` bytes starting at address `a`. */
  function ReadBytes(m: Mem, a: int, n: nat): (b: seq<Byte>)
    ensures |b| == n
  {
    seq<Byte>(n, (i: int) => m(Wrap(a + i)))
  }

  function Read16(m: Mem, a: int): U16 {
    Get16(ReadBytes(m, a, 2))
  }

  function Read32(m: Mem, a: int): U32 {
    Get32(ReadBytes(m, a, 4))
  }

  function Read64(m: Mem, a: int): U64 {
    Get64(ReadBytes(m, a, 8))
  }

  /** Memory after storing the bytes `b` at `a`. */
  function StoreBytes(m: Mem, a: int, b: seq<Byte>): Mem {
    (x: U64) => if Wrap(x - a) < |b| then b[Wrap(x - a)] else m(x)
  }

  function Store64(m: Mem, a: int, v: U64): Mem {
    StoreBytes(m, a, Put64(v))
  }

  /** The `n` bytes at `a` and the `k` bytes at `b`, read as integer intervals, are apart. */
  predicate Apart(a: int, n: nat, b: int, k: nat) {
    a + n <= b || b + k <= a
  }

  lemma {:induction false} ReadStored(m: Mem, a: int, b: seq<Byte>)
    requires |b| < TWO64
    ensures ReadBytes(StoreBytes(m, a, b), a, |b|) == b
  {
    var r := ReadBytes(StoreBytes(m, a, b), a, |b|);
    forall i | 0 <= i < |b| ensures r[i] == b[i] {
      WrapOffset(a, i);
    }
  }

  lemma {:induction false} WrapOffset(a: int, i: int)
    requires 0 <= i < TWO64
    ensures Wrap(Wrap(a + i) - a) == i
  {
    var q := (a + i) / TWO64;
    assert Wrap(a + i) - a == i - q * TWO64;
    WrapIs(Wrap(a + i) - a, -q, i);
  }

  /** Quotient and remainder by 2^64 are unique. */
  lemma {:induction false} WrapIs(x: int, q: int, r: int)
    requires 0 <= r < TWO64 && x == q * TWO64 + r
    ensures Wrap(x) == r
  {
    assert x / TWO64 == q;
  }

  /** Reads are unaffected by a store to bytes that lie apart. */
  lemma {:induction false} ReadUnaffected(m: Mem, a: int, b: seq<Byte>, r: int, n: nat)
    requires 0 <= a && a + |b| <= TWO64 && 0 <= r && r + n <= TWO64
    requires Apart(a, |b|, r, n)
    ensures ReadBytes(StoreBytes(m, a, b), r, n) == ReadBytes(m, r, n)
  {
    var after, before := ReadBytes(StoreBytes(m, a, b), r, n), ReadBytes(m, r, n);
    forall i | 0 <= i < n ensures after[i] == before[i] {
      assert Wrap(r + i) == r + i;
      if r + i < a {
        WrapIs(r + i - a, -1, r + i - a + TWO64);
      } else {
        WrapIs(r + i - a, 0, r + i - a);
      }
      assert StoreBytes(m, a, b)(Wrap(r + i)) == m(Wrap(r + i));
    }
  }

  lemma {:induction false} Read64Stored(m: Mem, a: int, v: U64)
    ensures Read64(Store64(m, a, v), a) == v
  {
    ReadStored(m, a, Put64(v));
  }
}
