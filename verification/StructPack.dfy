/** Python's `struct` packing of little-endian unsigned fields, and reading the fields back. */
module StructPack {
  import opened Words

  /** The widths in bytes of consecutive fields. */
  type Format = seq<nat>

  /** Where the k-th field begins. */
  function Offset(format: Format, k: nat): nat
    requires k <= |format|
    decreases k
  {
    if k == 0 then 0 else Offset(format, k - 1) + format[k - 1]
  }

  function Size(format: Format): nat {
    Offset(format, |format|)
  }

  /** Every value is in range for its field; packing anything else is an error. */
  predicate InRange(format: Format, values: seq<int>) {
    |format| == |values| && forall k :: 0 <= k < |format| ==> 0 <= values[k] < Pow256(format[k])
  }

  /** The first `k` fields, one after the other. */
  function PackedTo(format: Format, values: seq<int>, k: nat): (b: seq<Byte>)
    requires InRange(format, values) && k <= |format|
    ensures |b| == Offset(format, k)
    decreases k
  {
    if k == 0 then []
    else PackedTo(format, values, k - 1) + LittleEndian(values[k - 1], format[k - 1])
  }

  function Packed(format: Format, values: seq<int>): (b: seq<Byte>)
    requires InRange(format, values)
    ensures |b| == Size(format)
  {
    PackedTo(format, values, |format|)
  }

  lemma {:induction false} OffsetsRise(format: Format, j: nat, k: nat)
    requires j <= k <= |format|
    ensures Offset(format, j) <= Offset(format, k)
    decreases k
  {
    if j < k {
      OffsetsRise(format, j, k - 1);
    }
  }

  /** The k-th field of a record that starts at `at`. */
  function Field(format: Format, b: seq<Byte>, at: nat, k: nat): nat
    requires k < |format| && at + Size(format) <= |b|
  {
    OffsetsRise(format, k + 1, |format|);
    FromLittleEndian(b[at + Offset(format, k)..at + Offset(format, k + 1)])
  }

  lemma {:induction false} PackedField(format: Format, values: seq<int>, n: nat, k: nat)
    requires InRange(format, values) && k < n <= |format|
    ensures Offset(format, k + 1) <= Offset(format, n)
    ensures PackedTo(format, values, n)[Offset(format, k)..Offset(format, k + 1)] == LittleEndian(values[k], format[k])
    decreases n
  {
    var before := PackedTo(format, values, n - 1);
    if k < n - 1 {
      PackedField(format, values, n - 1, k);
    } else {
      assert (before + LittleEndian(values[k], format[k]))[|before|..] == LittleEndian(values[k], format[k]);
    }
  }

  /** Every field of a packed record reads back, wherever the record stands. */
  lemma {:induction false} FieldOfPacked(format: Format, values: seq<int>, b: seq<Byte>, at: nat, k: nat)
    requires InRange(format, values) && k < |format| && at + Size(format) <= |b|
    requires b[at..at + Size(format)] == Packed(format, values)
    ensures Field(format, b, at, k) == values[k]
  {
    PackedField(format, values, |format|, k);
    OffsetsRise(format, k + 1, |format|);
    var i, j := Offset(format, k), Offset(format, k + 1);
    SliceOfSlice(b, at, at + Size(format), i, j);
    LittleEndianRoundTrip(values[k], format[k]);
  }

  lemma {:induction false} FirstField(format: Format, b: seq<Byte>)
    requires format != [] && Size(format) <= |b|
    ensures format[0] <= |b| && Field(format, b, 0, 0) == FromLittleEndian(b[0..format[0]])
  {
    OffsetsRise(format, 1, |format|);
    assert Offset(format, 1) == format[0];
  }

  lemma {:induction false} FieldsOfPacked(format: Format, values: seq<int>, b: seq<Byte>, at: nat)
    requires InRange(format, values) && at + Size(format) <= |b|
    requires b[at..at + Size(format)] == Packed(format, values)
    ensures forall k :: 0 <= k < |format| ==> Field(format, b, at, k) == values[k]
  {
    forall k | 0 <= k < |format| ensures Field(format, b, at, k) == values[k] {
      FieldOfPacked(format, values, b, at, k);
    }
  }

  /** A record of zeros is zero bytes. */
  lemma {:induction false} PackedZeros(format: Format, values: seq<int>, k: nat)
    requires InRange(format, values) && k <= |format| && forall i :: 0 <= i < |values| ==> values[i] == 0
    ensures PackedTo(format, values, k) == Zeros(Offset(format, k))
    decreases k
  {
    hide LittleEndian, Pow256;
    if k > 0 {
      PackedZeros(format, values, k - 1);
      ZeroEndian(format[k - 1]);
    }
  }

  lemma {:induction false} ZeroEndian(n: nat)
    ensures LittleEndian(0, n) == Zeros(n)
  {
    if n > 0 {
      ZeroEndian(n - 1);
    }
  }

  function Zeros(n: int): (b: seq<Byte>)
    ensures |b| == if n > 0 then n else 0
  {
    seq<Byte>(if n > 0 then n else 0, (_: int) => 0)
  }

  /** Rounded up to a multiple of 8. */
  function RoundUp8(n: nat): (r: nat)
    ensures n <= r < n + 8 && r % 8 == 0
  {
    (n + 7) / 8 * 8
  }

  // ---- storing into a buffer ----------------------------------------------

  /** `s` with `b` in place of the bytes at `at`. */
  function Patched<T>(s: seq<T>, at: nat, b: seq<T>): (r: seq<T>)
    requires at + |b| <= |s|
    ensures |r| == |s|
  {
    s[..at] + b + s[at + |b|..]
  }

  /** Storing over the middle one of three parts. */
  lemma {:induction false} Replaced(a: seq<Byte>, was: seq<Byte>, now: seq<Byte>, rest: seq<Byte>)
    requires |was| == |now|
    ensures (a + was + rest)[|a|..|a| + |was|] == was
    ensures Patched(a + was + rest, |a|, now) == a + now + rest
  {
    var t := a + was + rest;
    assert t[..|a|] == a && t[|a| + |now|..] == rest;
  }

  method Patch<T>(rec: array<T>, at: nat, b: seq<T>)
    requires at + |b| <= rec.Length
    modifies rec
    ensures rec[..] == Patched(old(rec[..]), at, b)
  {
    forall i | 0 <= i < |b| {
      rec[at + i] := b[i];
    }
    assert rec[..at] == old(rec[..])[..at] && rec[at..at + |b|] == b && rec[at + |b|..] == old(rec[..])[at + |b|..];
    assert rec[..] == rec[..at] + rec[at..at + |b|] + rec[at + |b|..];
  }

  /** Storing a value where its field stands makes it that field of the packed record. */
  lemma {:induction false} PackedUpdate(format: Format, values: seq<int>, n: nat, k: nat, v: int)
    requires InRange(format, values) && k < n <= |format| && 0 <= v < Pow256(format[k])
    requires Offset(format, k) + format[k] <= Offset(format, n)
    ensures InRange(format, values[k := v])
    ensures Patched(PackedTo(format, values, n), Offset(format, k), LittleEndian(v, format[k]))
            == PackedTo(format, values[k := v], n)
    decreases n
  {
    hide LittleEndian, Pow256;
    var before := PackedTo(format, values, n - 1);
    if k < n - 1 {
      OffsetsRise(format, k + 1, n - 1);
      PackedUpdate(format, values, n - 1, k, v);
      PatchPrefix(before, LittleEndian(values[n - 1], format[n - 1]), Offset(format, k), LittleEndian(v, format[k]));
    } else {
      PackedSame(format, values, values[k := v], n - 1);
      PatchSuffix(before, LittleEndian(values[k], format[k]), LittleEndian(v, format[k]));
    }
  }

  lemma {:induction false} PackedSame(format: Format, a: seq<int>, b: seq<int>, n: nat)
    requires InRange(format, a) && InRange(format, b) && n <= |format| && a[..n] == b[..n]
    ensures PackedTo(format, a, n) == PackedTo(format, b, n)
  {
    if n > 0 {
      assert a[n - 1] == a[..n][n - 1] == b[..n][n - 1];
      assert a[..n - 1] == a[..n][..n - 1] == b[..n][..n - 1];
      PackedSame(format, a, b, n - 1);
    }
  }

  lemma {:induction false} PatchPrefix(s: seq<Byte>, rest: seq<Byte>, at: nat, b: seq<Byte>)
    requires at + |b| <= |s|
    ensures Patched(s + rest, at, b) == Patched(s, at, b) + rest
  {
    assert (s + rest)[..at] == s[..at];
    assert (s + rest)[at + |b|..] == s[at + |b|..] + rest;
  }

  lemma {:induction false} PatchSuffix(s: seq<Byte>, was: seq<Byte>, b: seq<Byte>)
    requires |was| == |b|
    ensures Patched(s + was, |s|, b) == s + b
  {
  }
}
