/** GUIDs as text: `{XXXXXXXX-XXXX-XXXX-XXXX-XXXXXXXXXXXX}`, printed and parsed by moving indices. */
module GuidText {
  import opened Words
  import opened StructPack
  import opened Formatter

  datatype GuidFields = Guid(data1: U32, data2: U16, data3: U16, data4: seq<Byte>)

  type Guid = g: GuidFields | |g.data4| == 8 witness NULL_GUID

  const NULL_GUID: GuidFields := GuidFields.Guid(0, 0, 0, [0, 0, 0, 0, 0, 0, 0, 0])

  const OPEN: U16 := '{' as int
  const CLOSE: U16 := '}' as int
  const DASH: U16 := '-' as int

  // ---- text ---------------------------------------------------------------

  /** The low `n` hexadecimal digits of `v`, in upper case. */
  function Hex(v: nat, n: nat): (t: Text)
    ensures |t| == n
  {
    if n == 0 then [] else Hex(v / 16, n - 1) + [DigitChar(v % 16, true)]
  }

  /** The number hexadecimal digits spell. */
  function HexValue(t: Text): nat
    requires AllHex(t)
  {
    if t == [] then 0 else HexValue(t[..|t| - 1]) * 16 + DigitValue(t[|t| - 1])
  }

  predicate IsHex(c: U16) {
    DigitValue(c) >= 0
  }

  predicate AllHex(t: Text) {
    forall i :: 0 <= i < |t| ==> IsHex(t[i])
  }

  function HexBytes(b: seq<Byte>): (t: Text)
    ensures |t| == 2 * |b|
  {
    if b == [] then [] else HexBytes(b[..|b| - 1]) + Hex(b[|b| - 1], 2)
  }

  /** The 36 characters of a GUID. */
  function Body(g: Guid): (t: Text)
    ensures |t| == 36
  {
    Hex(g.data1, 8) + [DASH] + Hex(g.data2, 4) + [DASH] + Hex(g.data3, 4) + [DASH]
    + HexBytes(g.data4[..2]) + [DASH] + HexBytes(g.data4[2..])
  }

  /** What StringFromGUID2 writes before the terminator. */
  function Printed(g: Guid): (t: Text)
    ensures |t| == 38
  {
    [OPEN] + Body(g) + [CLOSE]
  }

  /** A leading brace is optional; what follows the 36 characters is never looked at. */
  function Unbraced(s: Text): Text {
    if s != [] && s[0] == OPEN then s[1..] else s
  }

  predicate IsDashAt(i: nat) {
    i == 8 || i == 13 || i == 18 || i == 23
  }

  /** 8-4-4-4-12 hexadecimal digits, in either case. */
  predicate Accepted(s: Text) {
    var t := Unbraced(s);
    |t| >= 36 && forall i :: 0 <= i < 36 ==> if IsDashAt(i) then t[i] == DASH else IsHex(t[i])
  }

  /** The bytes spelled by pairs of digits. */
  function PairBytes(t: Text): (b: seq<Byte>)
    requires AllHex(t) && |t| % 2 == 0
    ensures |b| == |t| / 2
  {
    seq<Byte>(|t| / 2, (i: int) requires 0 <= i < |t| / 2 && IsHex(t[2 * i]) && IsHex(t[2 * i + 1]) =>
      DigitValue(t[2 * i]) * 16 + DigitValue(t[2 * i + 1]))
  }

  lemma {:induction false} HexValueBound(t: Text)
    requires AllHex(t)
    ensures HexValue(t) < Pow16(|t|)
  {
    if t != [] {
      HexValueBound(t[..|t| - 1]);
    }
  }

  function Pow16(n: nat): nat {
    if n == 0 then 1 else 16 * Pow16(n - 1)
  }

  lemma {:induction false} PowersOf16()
    ensures Pow16(4) == 0x1_0000 && Pow16(8) == 0x1_0000_0000
  {
    assert Pow16(4) == 0x1_0000;
  }

  /** The GUID an accepted string spells. */
  function Spelled(s: Text): (g: Guid)
    requires Accepted(s)
  {
    var t := Unbraced(s);
    PowersOf16();
    HexValueBound(t[..8]);
    HexValueBound(t[9..13]);
    HexValueBound(t[14..18]);
    GuidFields.Guid(HexValue(t[..8]), HexValue(t[9..13]), HexValue(t[14..18]),
                    PairBytes(t[19..23]) + PairBytes(t[24..36]))
  }

  function UpperChar(c: U16): U16 {
    if 'a' as int <= c <= 'z' as int then c - 32 else c
  }

  function Upper(t: Text): (u: Text)
    ensures |u| == |t|
  {
    seq<U16>(|t|, (i: int) requires 0 <= i < |t| => UpperChar(t[i]))
  }

  // ---- printing then parsing ----------------------------------------------

  lemma {:induction false} HexReads(v: nat, n: nat)
    requires v < Pow16(n)
    ensures AllHex(Hex(v, n)) && HexValue(Hex(v, n)) == v
  {
    if n > 0 {
      HexReads(v / 16, n - 1);
      DigitReads(v % 16, 16, true);
      var t := Hex(v, n);
      assert t[..n - 1] == Hex(v / 16, n - 1);
    }
  }

  lemma {:induction false} PairsAppend(t: Text, hi: U16, lo: U16)
    requires AllHex(t) && |t| % 2 == 0 && IsHex(hi) && IsHex(lo)
    ensures AllHex(t + [hi, lo])
    ensures PairBytes(t + [hi, lo]) == PairBytes(t) + [DigitValue(hi) * 16 + DigitValue(lo)]
  {
    hide DigitValue, IsHex;
    var u := t + [hi, lo];
    var n := |t| / 2;
    assert u[2 * n] == hi && u[2 * n + 1] == lo;
  }

  lemma {:induction false} HexBytesRead(b: seq<Byte>)
    ensures AllHex(HexBytes(b)) && PairBytes(HexBytes(b)) == b
  {
    hide DigitValue, DigitChar, Hex, AllHex, PairBytes;
    if b == [] {
      NothingSpelled();
    } else {
      var init, last := b[..|b| - 1], b[|b| - 1];
      HexBytesRead(init);
      TwoDigits(last);
      var d := Hex(last, 2);
      PairsAppend(HexBytes(init), d[0], d[1]);
      assert d == [d[0], d[1]];
      assert HexBytes(b) == HexBytes(init) + [d[0], d[1]];
      assert b == init + [last];
    }
  }

  lemma {:induction false} NothingSpelled()
    ensures AllHex([]) && PairBytes([]) == [] && HexBytes([]) == [] && Upper([]) == []
  {
  }

  lemma {:induction false} TwoDigits(v: Byte)
    ensures var t := Hex(v, 2); IsHex(t[0]) && IsHex(t[1]) && DigitValue(t[0]) * 16 + DigitValue(t[1]) == v
  {
    assert Hex(v, 2) == Hex(v / 16, 1) + [DigitChar(v % 16, true)];
    assert Hex(v / 16, 1) == [DigitChar(v / 16 % 16, true)];
    DigitReads(v / 16, 16, true);
    DigitReads(v % 16, 16, true);
  }

  /** Parsing the printed form gives the GUID back, whatever follows it. */
  lemma {:induction false} PrintedParses(g: Guid, rest: Text)
    ensures Accepted(Printed(g) + rest) && Spelled(Printed(g) + rest) == g
  {
    hide Hex, HexBytes, HexValue, PairBytes;
    var s := Printed(g) + rest;
    var t := Unbraced(s);
    assert t == Body(g) + ([CLOSE] + rest);
    BodyParts(g, t, [CLOSE] + rest);
    PowersOf16();
    HexReads(g.data1, 8);
    HexReads(g.data2, 4);
    HexReads(g.data3, 4);
    HexBytesRead(g.data4[..2]);
    HexBytesRead(g.data4[2..]);
    BodyAccepted(t);
    assert g.data4 == g.data4[..2] + g.data4[2..];
  }

  const FIGURES: string := "0123456789ABCDEF"

  /** The `n` characters from `at` on are the lowest hexadecimal figures of `v`. */
  predicate ShowsNumber(t: Text, at: nat, n: nat, v: nat)
    requires at + n <= |t|
  {
    forall i :: at <= i < at + n ==> t[i] == FIGURES[Nibble(v, at + n - 1 - i)] as int
  }

  /** The characters from `at` on are two figures for every byte of `b`. */
  predicate ShowsBytes(t: Text, at: nat, b: seq<Byte>)
    requires at + 2 * |b| <= |t|
  {
    forall j :: 0 <= j < |b| ==>
      t[at + 2 * j] == FIGURES[b[j] / 16] as int && t[at + 2 * j + 1] == FIGURES[b[j] % 16] as int
  }

  /** The printed form, character by character: the first three fields as numbers, then the bytes. */
  lemma {:induction false} PrintedCharacters(g: Guid)
    ensures var t := Printed(g);
            && t[0] == '{' as int && t[9] == t[14] == t[19] == t[24] == '-' as int && t[37] == '}' as int
            && ShowsNumber(t, 1, 8, g.data1) && ShowsNumber(t, 10, 4, g.data2) && ShowsNumber(t, 15, 4, g.data3)
            && ShowsBytes(t, 20, g.data4[..2]) && ShowsBytes(t, 25, g.data4[2..])
  {
    hide Hex, HexBytes, ShowsNumber, ShowsBytes;
    var t := Printed(g);
    assert t[1..] == Body(g) + [CLOSE];
    BodyParts(g, t[1..], [CLOSE]);
    assert t[9] == t[1..][8] && t[14] == t[1..][13] && t[19] == t[1..][18] && t[24] == t[1..][23];
    assert t[1..9] == t[1..][..8] && t[10..14] == t[1..][9..13] && t[15..19] == t[1..][14..18];
    assert t[20..24] == t[1..][19..23] && t[25..37] == t[1..][24..36];
    NumberShown(t, 1, 8, g.data1);
    NumberShown(t, 10, 4, g.data2);
    NumberShown(t, 15, 4, g.data3);
    BytesShown(t, 20, g.data4[..2]);
    BytesShown(t, 25, g.data4[2..]);
  }

  lemma {:induction false} NumberShown(t: Text, at: nat, n: nat, v: nat)
    requires at + n <= |t| && t[at..at + n] == Hex(v, n)
    ensures ShowsNumber(t, at, n, v)
  {
    hide Hex, Nibble;
    forall i | at <= i < at + n ensures t[i] == FIGURES[Nibble(v, at + n - 1 - i)] as int {
      assert t[i] == t[at..at + n][i - at];
      HexFigure(v, n, i - at);
    }
  }

  lemma {:induction false} BytesShown(t: Text, at: nat, b: seq<Byte>)
    requires at + 2 * |b| <= |t| && t[at..at + 2 * |b|] == HexBytes(b)
    ensures ShowsBytes(t, at, b)
  {
    hide HexBytes;
    forall j | 0 <= j < |b|
      ensures t[at + 2 * j] == FIGURES[b[j] / 16] as int && t[at + 2 * j + 1] == FIGURES[b[j] % 16] as int
    {
      var u := t[at..at + 2 * |b|];
      assert t[at + 2 * j] == u[2 * j] && t[at + 2 * j + 1] == u[2 * j + 1];
      ByteFigures(b, j);
    }
  }

  /** The four bits of `v` above the lowest 4 times `n`. */
  function Nibble(v: nat, n: nat): (d: nat)
    ensures d < 16
  {
    if n == 0 then v % 16 else Nibble(v / 16, n - 1)
  }

  lemma {:induction false} FigureOf(d: nat)
    requires d < 16
    ensures DigitChar(d, true) == FIGURES[d] as int
  {
  }

  lemma {:induction false} HexFigure(v: nat, n: nat, j: nat)
    requires j < n
    ensures Hex(v, n)[j] == FIGURES[Nibble(v, n - 1 - j)] as int
    decreases n
  {
    hide DigitChar;
    if j == n - 1 {
      FigureOf(v % 16);
    } else {
      HexFigure(v / 16, n - 1, j);
    }
  }

  lemma {:induction false} ByteFigures(b: seq<Byte>, j: nat)
    requires j < |b|
    ensures HexBytes(b)[2 * j] == FIGURES[b[j] / 16] as int && HexBytes(b)[2 * j + 1] == FIGURES[b[j] % 16] as int
    decreases |b|
  {
    hide Hex;
    if j < |b| - 1 {
      ByteFigures(b[..|b| - 1], j);
    } else {
      HexFigure(b[j], 2, 0);
      HexFigure(b[j], 2, 1);
      NibblesOfByte(b[j]);
    }
  }

  lemma {:induction false} NibblesOfByte(v: Byte)
    ensures Nibble(v, 1) == v / 16 && Nibble(v, 0) == v % 16
  {
    assert Nibble(v, 1) == Nibble(v / 16, 0);
  }

  lemma {:induction false} BodyParts(g: Guid, t: Text, rest: Text)
    requires t == Body(g) + rest
    ensures |t| >= 36 && t[8] == t[13] == t[18] == t[23] == DASH
    ensures t[..8] == Hex(g.data1, 8) && t[9..13] == Hex(g.data2, 4) && t[14..18] == Hex(g.data3, 4)
    ensures t[19..23] == HexBytes(g.data4[..2]) && t[24..36] == HexBytes(g.data4[2..])
  {
    hide Hex, HexBytes;
  }

  lemma {:induction false} BodyAccepted(t: Text)
    requires |t| >= 36 && t[8] == t[13] == t[18] == t[23] == DASH
    requires AllHex(t[..8]) && AllHex(t[9..13]) && AllHex(t[14..18]) && AllHex(t[19..23]) && AllHex(t[24..36])
    ensures forall i :: 0 <= i < 36 ==> if IsDashAt(i) then t[i] == DASH else IsHex(t[i])
  {
    hide IsHex;
    forall i | 0 <= i < 36 && !IsDashAt(i) ensures IsHex(t[i]) {
      if i < 8 {
        assert t[i] == t[..8][i];
      } else if i < 13 {
        assert t[i] == t[9..13][i - 9];
      } else if i < 18 {
        assert t[i] == t[14..18][i - 14];
      } else if i < 23 {
        assert t[i] == t[19..23][i - 19];
      } else {
        assert t[i] == t[24..36][i - 24];
      }
    }
  }

  // ---- parsing then printing ----------------------------------------------

  lemma {:induction false} DigitUpper(c: U16)
    requires IsHex(c)
    ensures 0 <= DigitValue(c) < 16 && DigitChar(DigitValue(c), true) == UpperChar(c)
  {
  }

  lemma {:induction false} HexPrints(t: Text)
    requires AllHex(t)
    ensures Hex(HexValue(t), |t|) == Upper(t)
  {
    if t != [] {
      var init, last := t[..|t| - 1], t[|t| - 1];
      HexPrints(init);
      DigitUpper(last);
      assert HexValue(t) / 16 == HexValue(init) && HexValue(t) % 16 == DigitValue(last);
      assert Upper(t) == Upper(init) + [UpperChar(last)];
    }
  }

  lemma {:induction false} PairsPrint(t: Text)
    requires AllHex(t) && |t| % 2 == 0
    ensures HexBytes(PairBytes(t)) == Upper(t)
  {
    hide DigitValue, DigitChar, Hex, UpperChar, PairBytes;
    if t == [] {
      NothingSpelled();
    } else {
      var init, hi, lo := t[..|t| - 2], t[|t| - 2], t[|t| - 1];
      PairsPrint(init);
      assert t == init + [hi, lo];
      PairsAppend(init, hi, lo);
      PairPrints(hi, lo);
      var b := PairBytes(t);
      assert b[..|b| - 1] == PairBytes(init);
      assert Upper(t) == Upper(init) + [UpperChar(hi), UpperChar(lo)];
    }
  }

  lemma {:induction false} PairPrints(hi: U16, lo: U16)
    requires IsHex(hi) && IsHex(lo)
    ensures Hex(DigitValue(hi) * 16 + DigitValue(lo), 2) == [UpperChar(hi), UpperChar(lo)]
  {
    hide DigitValue, DigitChar, UpperChar;
    DigitUpper(hi);
    DigitUpper(lo);
    var v := DigitValue(hi) * 16 + DigitValue(lo);
    assert Hex(v, 2) == Hex(v / 16, 1) + [DigitChar(v % 16, true)];
    assert Hex(v / 16, 1) == [DigitChar(v / 16 % 16, true)];
  }

  /** Printing what an accepted string spells gives its 36 characters in upper case, inside braces. */
  lemma {:induction false} ParsedPrints(s: Text)
    requires Accepted(s)
    ensures Printed(Spelled(s)) == [OPEN] + Upper(Unbraced(s)[..36]) + [CLOSE]
  {
    hide Hex, HexBytes, HexValue, PairBytes, UpperChar, DigitValue;
    var t, g := Unbraced(s), Spelled(s);
    HexPrints(t[..8]);
    HexPrints(t[9..13]);
    HexPrints(t[14..18]);
    PairsPrint(t[19..23]);
    PairsPrint(t[24..36]);
    assert g.data4[..2] == PairBytes(t[19..23]) && g.data4[2..] == PairBytes(t[24..36]);
    DashUpper();
    UpperParts(t);
  }

  lemma {:induction false} DashUpper()
    ensures UpperChar(DASH) == DASH
  {
  }

  lemma {:induction false} UpperParts(t: Text)
    requires |t| >= 36 && t[8] == t[13] == t[18] == t[23] == DASH && UpperChar(DASH) == DASH
    ensures Upper(t[..36]) == Upper(t[..8]) + [DASH] + Upper(t[9..13]) + [DASH] + Upper(t[14..18]) + [DASH]
                              + Upper(t[19..23]) + [DASH] + Upper(t[24..36])
  {
    hide UpperChar;
  }

  // ---- the two functions --------------------------------------------------

  /** Unit by unit, `b` after `a` at the start of the buffer. */
  lemma {:induction false} PatchedOn(s: Text, a: Text, b: Text)
    requires |a| + |b| <= |s|
    ensures Patched(Patched(s, 0, a), |a|, b) == Patched(s, 0, a + b)
  {
    assert Patched(s, 0, a)[..|a|] == a;
    assert Patched(s, 0, a)[|a| + |b|..] == s[|a| + |b|..];
  }

  method PutUnit(out: array<U16>, i: nat, c: U16, ghost s: Text, ghost done: Text) returns (next: nat)
    requires i == |done| < out.Length == |s| && out[..] == Patched(s, 0, done)
    modifies out
    ensures next == |done| + 1 && out[..] == Patched(s, 0, done + [c])
  {
    PatchedOn(s, done, [c]);
    out[i] := c;
    assert out[..] == Patched(Patched(s, 0, done), i, [c]);
    next := i + 1;
  }

  /** `v` shifted right by 4 times `n`. */
  function Shifted(v: nat, n: nat): nat {
    if n == 0 then v else Shifted(v, n - 1) / 16
  }

  /** A loop over the digits of `v`, from the one `n - 1` places up. */
  method PutHex(out: array<U16>, i: nat, v: nat, n: nat, ghost s: Text, ghost done: Text) returns (next: nat)
    requires i == |done| && i + n <= out.Length == |s| && out[..] == Patched(s, 0, done)
    modifies out
    ensures next == i + n && out[..] == Patched(s, 0, done + Hex(v, n))
  {
    hide Patched, DigitChar;
    next := i;
    ghost var t := Hex(v, n);
    assert done + t[..0] == done;
    for k := 0 to n
      invariant next == i + k && out[..] == Patched(s, 0, done + t[..k])
    {
      DigitAt(v, n, n - 1 - k);
      next := PutUnit(out, next, DigitChar(Shifted(v, n - 1 - k) % 16, true), s, done + t[..k]);
      assert done + t[..k] + [t[k]] == done + t[..k + 1];
    }
    assert t[..n] == t;
  }

  lemma {:induction false} DigitAt(v: nat, n: nat, k: nat)
    requires k < n
    ensures Hex(v, n)[n - 1 - k] == DigitChar(Shifted(v, k) % 16, true)
    decreases k
  {
    hide DigitChar;
    if k > 0 {
      DigitAt(v / 16, n - 1, k - 1);
      ShiftFirst(v, k);
    }
  }

  lemma {:induction false} ShiftFirst(v: nat, k: nat)
    requires k > 0
    ensures Shifted(v, k) == Shifted(v / 16, k - 1)
  {
    if k > 1 {
      ShiftFirst(v, k - 1);
    }
  }

  method PutHexBytes(out: array<U16>, i: nat, b: seq<Byte>, ghost s: Text, ghost done: Text) returns (next: nat)
    requires i == |done| && i + 2 * |b| <= out.Length == |s| && out[..] == Patched(s, 0, done)
    modifies out
    ensures next == i + 2 * |b| && out[..] == Patched(s, 0, done + HexBytes(b))
  {
    hide Patched, Hex;
    next := i;
    assert done + HexBytes(b[..0]) == done;
    for k := 0 to |b|
      invariant next == i + 2 * k && out[..] == Patched(s, 0, done + HexBytes(b[..k]))
    {
      next := PutHex(out, next, b[k], 2, s, done + HexBytes(b[..k]));
      assert b[..k + 1][..k] == b[..k];
      Assoc(done, HexBytes(b[..k]), Hex(b[k], 2));
    }
    assert b[..|b|] == b;
  }

  /** Writes the printed form and a terminator, 39 units, if they fit; otherwise returns 0 and writes nothing. */
  method StringFromGuid(g: Option<Guid>, out: array?<U16>, cch: int) returns (n: nat)
    requires out != null ==> cch <= out.Length
    modifies out
    ensures n == if g == None || out == null || cch < 39 then 0 else 39
    ensures out != null ==>
              out[..] == if n == 0 then old(out[..]) else Patched(old(out[..]), 0, Printed(g.value) + [0])
  {
    hide Patched, Hex, HexBytes;
    if g == None || out == null || cch < 39 {
      return 0;
    }
    var v: Guid := g.value;
    ghost var s := out[..];
    NothingPatched(s);
    n := PutUnit(out, 0, OPEN, s, []);
    ghost var t0 := [] + [OPEN];
    n := PutHex(out, n, v.data1, 8, s, t0);
    ghost var t1 := t0 + Hex(v.data1, 8);
    n := PutUnit(out, n, DASH, s, t1);
    n := PutHex(out, n, v.data2, 4, s, t1 + [DASH]);
    ghost var t2 := t1 + [DASH] + Hex(v.data2, 4);
    n := PutUnit(out, n, DASH, s, t2);
    n := PutHex(out, n, v.data3, 4, s, t2 + [DASH]);
    ghost var t3 := t2 + [DASH] + Hex(v.data3, 4);
    n := PutUnit(out, n, DASH, s, t3);
    n := PutHexBytes(out, n, v.data4[..2], s, t3 + [DASH]);
    ghost var t4 := t3 + [DASH] + HexBytes(v.data4[..2]);
    n := PutUnit(out, n, DASH, s, t4);
    n := PutHexBytes(out, n, v.data4[2..], s, t4 + [DASH]);
    ghost var t5 := t4 + [DASH] + HexBytes(v.data4[2..]);
    n := PutUnit(out, n, CLOSE, s, t5);
    n := PutUnit(out, n, 0, s, t5 + [CLOSE]);
    PrintedParts(v, t5 + [CLOSE]);
  }

  lemma {:induction false} NothingPatched(s: Text)
    ensures Patched(s, 0, []) == s
  {
  }

  lemma {:induction false} PrintedParts(g: Guid, t: Text)
    requires t == [] + [OPEN] + Hex(g.data1, 8) + [DASH] + Hex(g.data2, 4) + [DASH] + Hex(g.data3, 4) + [DASH]
                  + HexBytes(g.data4[..2]) + [DASH] + HexBytes(g.data4[2..]) + [CLOSE]
    ensures t == Printed(g)
  {
    hide Hex, HexBytes;
  }

  datatype Code = Ok | ClassString | InvalidArg

  class GuidCell {
    var value: Guid
  }

  /** `n` digits from `p` on, or false at the first unit that is none. */
  method ReadHex(s: Text, p: nat, n: nat) returns (ok: bool, v: nat)
    requires p <= |s|
    ensures ok <==> p + n <= |s| && AllHex(s[p..p + n])
    ensures ok ==> v == HexValue(s[p..p + n])
  {
    hide DigitValue, HexValue;
    v := 0;
    NoDigits();
    assert s[p..p] == [];
    for k := 0 to n
      invariant p + k <= |s| && AllHex(s[p..p + k]) && v == HexValue(s[p..p + k])
    {
      var h := DigitValue(UnitAt(s, p + k));
      if h < 0 {
        UnitEnds(s, p + k);
        assert p + n <= |s| ==> s[p + k] == s[p..p + n][k];
        return false, 0;
      }
      UnitEnds(s, p + k);
      HexAppend(s[p..p + k], s[p + k]);
      assert s[p..p + k + 1] == s[p..p + k] + [s[p + k]];
      v := v * 16 + h;
    }
    ok := true;
  }

  lemma {:induction false} NoDigits()
    ensures AllHex([]) && HexValue([]) == 0
  {
  }

  lemma {:induction false} HexAppend(t: Text, c: U16)
    requires AllHex(t) && IsHex(c)
    ensures AllHex(t + [c]) && HexValue(t + [c]) == HexValue(t) * 16 + DigitValue(c)
  {
    hide DigitValue, IsHex;
    var u := t + [c];
    assert u[..|u| - 1] == t;
  }

  lemma {:induction false} UnitEnds(s: Text, q: nat)
    ensures IsHex(UnitAt(s, q)) ==> q < |s|
  {
  }

  /** No digit stands past the end. */
  lemma {:induction false} UnitsEnd(s: Text, q: nat)
    ensures IsHex(UnitAt(s, q)) && IsHex(UnitAt(s, q + 1)) ==> q + 1 < |s|
  {
  }

  /** `n` bytes from `p` on, two digits each; both digits of a pair are read before either is looked at. */
  method ReadPairs(s: Text, p: nat, n: nat) returns (ok: bool, b: seq<Byte>)
    requires p <= |s|
    ensures ok <==> p + 2 * n <= |s| && AllHex(s[p..p + 2 * n])
    ensures ok ==> b == PairBytes(s[p..p + 2 * n])
  {
    hide DigitValue, PairBytes;
    b := [];
    NothingSpelled();
    assert s[p..p] == [];
    for k := 0 to n
      invariant p + 2 * k <= |s| && AllHex(s[p..p + 2 * k]) && b == PairBytes(s[p..p + 2 * k])
    {
      var q := p + 2 * k;
      var hi, lo := DigitValue(UnitAt(s, q)), DigitValue(UnitAt(s, q + 1));
      if hi < 0 || lo < 0 {
        UnitsEnd(s, q);
        assert p + 2 * n <= |s| ==> s[q] == s[p..p + 2 * n][2 * k] && s[q + 1] == s[p..p + 2 * n][2 * k + 1];
        return false, [];
      }
      UnitsEnd(s, q);
      PairsAppend(s[p..q], s[q], s[q + 1]);
      assert s[p..q + 2] == s[p..q] + [s[q], s[q + 1]];
      b := b + [hi * 16 + lo];
    }
    ok := true;
  }

  lemma {:induction false} AcceptedParts(t: Text)
    requires |t| >= 36 && forall i :: 0 <= i < 36 ==> if IsDashAt(i) then t[i] == DASH else IsHex(t[i])
    ensures t[8] == t[13] == t[18] == t[23] == DASH
    ensures AllHex(t[..8]) && AllHex(t[9..13]) && AllHex(t[14..18]) && AllHex(t[19..23]) && AllHex(t[24..36])
  {
    hide IsHex;
  }

  /** The GUID an accepted string spells, the null GUID for no string; otherwise an error and the null GUID. */
  method GuidFromStr(s: Option<Text>, g: GuidCell?) returns (c: Code)
    modifies g
    ensures c == if g == null then InvalidArg else if s == None || Accepted(s.value) then Ok else ClassString
    ensures g != null ==> g.value == if s.Some? && Accepted(s.value) then Spelled(s.value) else NULL_GUID
  {
    hide IsHex, AllHex, HexValue, PairBytes;
    if g == null {
      return InvalidArg;
    }
    g.value := NULL_GUID;
    if s == None {
      return Ok;
    }
    var t := if UnitAt(s.value, 0) == OPEN then s.value[1..] else s.value;
    if Accepted(s.value) {
      AcceptedParts(t);
    }
    var ok, d1 := ReadHex(t, 0, 8);
    if !ok || UnitAt(t, 8) != DASH {
      return ClassString;
    }
    var ok2, d2 := ReadHex(t, 9, 4);
    if !ok2 || UnitAt(t, 13) != DASH {
      return ClassString;
    }
    var ok3, d3 := ReadHex(t, 14, 4);
    if !ok3 || UnitAt(t, 18) != DASH {
      return ClassString;
    }
    var ok4, first := ReadPairs(t, 19, 2);
    if !ok4 || UnitAt(t, 23) != DASH {
      return ClassString;
    }
    var ok5, last := ReadPairs(t, 24, 6);
    if !ok5 {
      return ClassString;
    }
    assert t[0..8] == t[..8];
    BodyAccepted(t);
    ghost var want := Spelled(s.value);
    assert want.data1 == d1 && want.data2 == d2 && want.data3 == d3 && want.data4 == first + last;
    g.value := GuidFields.Guid(d1, d2, d3, first + last);
    c := Ok;
  }
}
