/**
 Machine words and their little-endian byte strings, shared by every component:
 the x64 memory of ntdll and the on-disk structures of the NTFS image.
 */
module Words {
  type Byte = x: int | 0 <= x < 0x100
  type U16 = x: int | 0 <= x < 0x1_0000
  type U32 = x: int | 0 <= x < 0x1_0000_0000
  type U64 = x: int | 0 <= x < TWO64

  const TWO64 := 0x1_0000_0000_0000_0000
  const HALF64: nat := 0x8000_0000_0000_0000

  datatype Option<+T> = None | Some(value: T)

  /** Unsigned 64-bit arithmetic wraps. */
  function Wrap(x: int): U64 {
    x % TWO64
  }

  function Plus(a: U64, k: int): U64 {
    Wrap(a + k)
  }

  function Minus(a: U64, k: int): U64 {
    Wrap(a - k)
  }

  lemma {:induction false} PlusExact(a: U64, k: int)
    requires 0 <= a + k < TWO64
    ensures Plus(a, k) == a + k && Minus(a, -k) == a + k
  {
  }

  function Pow256(n: nat): nat {
    if n == 0 then 1 else 256 * Pow256(n - 1)
  }

  /** The low `n` bytes of `v`, least significant first. */
  function LittleEndian(v: nat, n: nat): (b: seq<Byte>)
    ensures |b| == n
  {
    if n == 0 then [] else [v % 256] + LittleEndian(v / 256, n - 1)
  }

  function FromLittleEndian(b: seq<Byte>): nat {
    if b == [] then 0 else b[0] + 256 * FromLittleEndian(b[1..])
  }

  lemma {:induction false} PowersOf256()
    ensures Pow256(1) == 0x100 && Pow256(2) == 0x1_0000
    ensures Pow256(4) == 0x1_0000_0000 && Pow256(8) == TWO64
  {
    assert Pow256(1) == 256 * Pow256(0);
    assert Pow256(2) == 256 * Pow256(1);
    assert Pow256(3) == 256 * Pow256(2);
    assert Pow256(4) == 256 * Pow256(3);
    assert Pow256(5) == 256 * Pow256(4);
    assert Pow256(6) == 256 * Pow256(5);
    assert Pow256(7) == 256 * Pow256(6);
    assert Pow256(8) == 256 * Pow256(7);
  }

  /** Reading back a value that fits returns it. */
  lemma {:induction false} LittleEndianRoundTrip(v: nat, n: nat)
    requires v < Pow256(n)
    ensures FromLittleEndian(LittleEndian(v, n)) == v
  {
    if n > 0 {
      var b := LittleEndian(v, n);
      assert b[1..] == LittleEndian(v / 256, n - 1);
      LittleEndianRoundTrip(v / 256, n - 1);
    }
  }

  lemma {:induction false} FromLittleEndianBound(b: seq<Byte>)
    ensures FromLittleEndian(b) < Pow256(|b|)
  {
    if b != [] {
      FromLittleEndianBound(b[1..]);
    }
  }

  function Get16(b: seq<Byte>): (v: U16)
    requires |b| == 2
  {
    FromLittleEndianBound(b);
    PowersOf256();
    FromLittleEndian(b)
  }

  function Get32(b: seq<Byte>): (v: U32)
    requires |b| == 4
  {
    FromLittleEndianBound(b);
    PowersOf256();
    FromLittleEndian(b)
  }

  function Get64(b: seq<Byte>): (v: U64)
    requires |b| == 8
  {
    FromLittleEndianBound(b);
    PowersOf256();
    FromLittleEndian(b)
  }

  function Put16(v: U16): (b: seq<Byte>)
    ensures |b| == 2 && Get16(b) == v
  {
    PowersOf256();
    LittleEndianRoundTrip(v, 2);
    LittleEndian(v, 2)
  }

  function Put32(v: U32): (b: seq<Byte>)
    ensures |b| == 4 && Get32(b) == v
  {
    PowersOf256();
    LittleEndianRoundTrip(v, 4);
    LittleEndian(v, 4)
  }

  function Put64(v: U64): (b: seq<Byte>)
    ensures |b| == 8 && Get64(b) == v
  {
    PowersOf256();
    LittleEndianRoundTrip(v, 8);
    LittleEndian(v, 8)
  }

  /** A 32-bit word is its low half then its high half. */
  lemma {:induction false} Get32Halves(b: seq<Byte>)
    requires |b| == 4
    ensures Get32(b) == Get16(b[..2]) + 0x1_0000 * Get16(b[2..])
  {
    var lo, hi := b[..2], b[2..];
    assert FromLittleEndian(b[2..]) == b[2] + 256 * FromLittleEndian(b[3..]);
    assert b[1..][1..] == b[2..];
    assert FromLittleEndian(b[1..]) == b[1] + 256 * FromLittleEndian(b[2..]);
    assert lo[1..] == [b[1]] && lo[1..][1..] == [];
    assert FromLittleEndian(lo[1..]) == b[1];
  }

  lemma {:induction false} Assoc<T>(x: seq<T>, y: seq<T>, z: seq<T>)
    ensures x + y + z == x + (y + z)
  {
  }

  /** Slices of a concatenation that lie in one of its parts. */
  lemma {:induction false} SliceOfLeft<T>(x: seq<T>, y: seq<T>, i: nat, j: nat)
    requires i <= j <= |x|
    ensures (x + y)[i..j] == x[i..j]
  {
  }

  lemma {:induction false} SliceOfRight<T>(x: seq<T>, y: seq<T>)
    ensures (x + y)[|x|..|x| + |y|] == y
  {
  }

  /** A slice of a slice is a slice. */
  lemma {:induction false} SliceOfSlice<T>(s: seq<T>, a: nat, b: nat, i: nat, j: nat)
    requires a <= b <= |s| && i <= j <= b - a
    ensures s[a..b][i..j] == s[a + i..a + j]
  {
    forall k | 0 <= k < j - i ensures s[a..b][i..j][k] == s[a + i..a + j][k] {
      assert s[a..b][i + k] == s[a + i + k];
    }
  }
}
