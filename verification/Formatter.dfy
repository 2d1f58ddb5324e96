/** The kernel's printf core: what a format expands to, and the interpreter that writes it. */
module Formatter {
  import opened Words

  /** Characters of either width; a text has no terminator of its own. */
  type Text = seq<U16>

  /** The unit at `i`; the terminator follows the last one. */
  function UnitAt(t: Text, i: nat): U16 {
    if i < |t| then t[i] else 0
  }

  // ---- integer fields -----------------------------------------------------

  /** Digits of `v`, most significant first. */
  function Digits(v: nat, base: nat, upper: bool): (d: Text)
    requires 2 <= base <= 16
    ensures d != []
  {
    if v < base then [DigitChar(v, upper)] else Digits(v / base, base, upper) + [DigitChar(v % base, upper)]
  }

  function DigitChar(d: nat, upper: bool): U16
    requires d < 16
  {
    if d < 10 then '0' as int + d else (if upper then 'A' else 'a') as int + d - 10
  }

  function DigitValue(c: U16): int {
    if '0' as int <= c <= '9' as int then c - '0' as int
    else if 'a' as int <= c <= 'f' as int then c - 'a' as int + 10
    else if 'A' as int <= c <= 'F' as int then c - 'A' as int + 10
    else -1
  }

  function Repeat(c: U16, n: int): (t: Text)
    ensures |t| == if n > 0 then n else 0
  {
    seq<U16>(if n > 0 then n else 0, (_: int) => c)
  }

  const SPACE: U16 := ' ' as int
  const ZERO: U16 := '0' as int
  const MINUS: U16 := '-' as int
  const PERCENT: U16 := '%' as int

  /** A number to be written: its sign, magnitude and base. */
  datatype Number = Number(negative: bool, magnitude: U64, base: nat, upper: bool) {
    predicate Valid() {
      base == 10 || base == 16
    }

    function Sign(): Text {
      if negative then [MINUS] else []
    }

    function Value(): int {
      if negative then -(magnitude as int) else magnitude
    }
  }

  /** A number in its field: padded with zeros after the sign, or with spaces on the other side. */
  function FieldText(n: Number, width: nat, zero: bool, left: bool): Text
    requires n.Valid()
  {
    var digits := Digits(n.magnitude, n.base, n.upper);
    var pad := width - |digits| - |n.Sign()|;
    if left then n.Sign() + digits + Repeat(SPACE, pad)
    else if zero then n.Sign() + Repeat(ZERO, pad) + digits
    else Repeat(SPACE, pad) + n.Sign() + digits
  }

  // ---- reading a field back -----------------------------------------------

  /** The number the leading digits of `t` spell, after `v`. */
  function ReadDigits(t: Text, base: nat, v: nat): nat {
    if t == [] || !(0 <= DigitValue(t[0]) < base) then v
    else ReadDigits(t[1..], base, v * base + DigitValue(t[0]))
  }

  function SkipSpaces(t: Text): Text {
    if t != [] && t[0] == SPACE then SkipSpaces(t[1..]) else t
  }

  /** strtoll: spaces, a sign, digits. */
  function ReadNumber(t: Text, base: nat): int {
    var s := SkipSpaces(t);
    if s != [] && s[0] == MINUS then -(ReadDigits(s[1..], base, 0) as int) else ReadDigits(s, base, 0)
  }

  lemma {:induction false} DigitReads(d: nat, base: nat, upper: bool)
    requires d < base <= 16
    ensures DigitValue(DigitChar(d, upper)) == d
  {
  }

  lemma {:induction false} ReadFirst(c: U16, rest: Text, base: nat, v: nat)
    requires 0 <= DigitValue(c) < base
    ensures ReadDigits([c] + rest, base, v) == ReadDigits(rest, base, v * base + DigitValue(c))
  {
    assert ([c] + rest)[1..] == rest;
  }

  lemma {:induction false} QuotientRemainder(v: nat, base: nat)
    requires base > 0
    ensures v / base * base + v % base == v
  {
  }

  lemma {:induction false} DigitsRead(v: nat, base: nat, upper: bool, rest: Text)
    requires 2 <= base <= 16
    ensures ReadDigits(Digits(v, base, upper) + rest, base, 0) == ReadDigits(rest, base, v)
    decreases v
  {
    hide DigitValue, DigitChar;
    if v < base {
      DigitReads(v, base, upper);
      var t := Digits(v, base, upper) + rest;
      assert t[0] == DigitChar(v, upper) && t[1..] == rest;
    } else {
      var last := [DigitChar(v % base, upper)];
      DigitReads(v % base, base, upper);
      DigitsRead(v / base, base, upper, last + rest);
      Assoc(Digits(v / base, base, upper), last, rest);
      ReadFirst(last[0], rest, base, v / base);
      QuotientRemainder(v, base);
    }
  }

  lemma {:induction false} ZerosRead(n: nat, base: nat, rest: Text)
    requires 2 <= base <= 16
    ensures ReadDigits(Repeat(ZERO, n) + rest, base, 0) == ReadDigits(rest, base, 0)
  {
    var t := Repeat(ZERO, n) + rest;
    if n == 0 {
      assert t == rest;
    } else {
      assert t[0] == ZERO && t[1..] == Repeat(ZERO, n - 1) + rest;
      ZerosRead(n - 1, base, rest);
    }
  }

  lemma {:induction false} SpacesSkipped(n: nat, rest: Text)
    ensures SkipSpaces(Repeat(SPACE, n) + rest) == SkipSpaces(rest)
  {
    var t := Repeat(SPACE, n) + rest;
    if n == 0 {
      assert t == rest;
    } else {
      assert t[0] == SPACE && t[1..] == Repeat(SPACE, n - 1) + rest;
      SpacesSkipped(n - 1, rest);
    }
  }

  lemma {:induction false} FirstDigit(v: nat, base: nat, upper: bool)
    requires 2 <= base <= 16
    ensures var c := Digits(v, base, upper)[0]; c != SPACE && c != MINUS
    decreases v
  {
    hide Digits, DigitChar;
    var q, d := Unfolded(v, base, upper);
    if v < base {
      DigitIsNeither(v, upper);
    } else {
      FirstDigit(q, base, upper);
    }
  }

  /** The digits of a number are those of a smaller one, then a last digit. */
  lemma {:induction false} Unfolded(v: nat, base: nat, upper: bool) returns (q: nat, d: nat)
    requires 2 <= base <= 16
    ensures d < base
    ensures if v < base then q == 0 && d == v && Digits(v, base, upper) == [DigitChar(v, upper)]
            else q < v && Digits(v, base, upper) == Digits(q, base, upper) + [DigitChar(d, upper)]
  {
    hide DigitChar;
    if v < base {
      q, d := 0, v;
    } else {
      q, d := v / base, v % base;
      assert base * q + d == v;
      TwiceAtMost(base, q);
    }
  }

  lemma {:induction false} TwiceAtMost(base: nat, q: nat)
    requires base >= 2
    ensures 2 * q <= base * q
  {
  }

  lemma {:induction false} DigitIsNeither(d: nat, upper: bool)
    requires d < 16
    ensures DigitChar(d, upper) != SPACE && DigitChar(d, upper) != MINUS
  {
  }

  /** The unsigned part of a field: zeros, digits, then spaces. */
  lemma {:induction false} MagnitudeReads(v: nat, base: nat, upper: bool, zeros: nat, spaces: nat)
    requires 2 <= base <= 16
    ensures var t := Repeat(ZERO, zeros) + Digits(v, base, upper) + Repeat(SPACE, spaces);
            ReadDigits(t, base, 0) == v && t != [] && t[0] != SPACE && t[0] != MINUS
  {
    var digits, tail := Digits(v, base, upper), Repeat(SPACE, spaces);
    Assoc(Repeat(ZERO, zeros), digits, tail);
    ZerosRead(zeros, base, digits + tail);
    DigitsRead(v, base, upper, tail);
    FirstDigit(v, base, upper);
    assert ReadDigits(tail, base, v) == v;
  }

  /** A field reads back as its number, and is as long as the larger of its width and its digits with sign. */
  lemma {:induction false} FieldReadsBack(n: Number, width: nat, zero: bool, left: bool)
    requires n.Valid()
    ensures var t := FieldText(n, width, zero, left);
            && ReadNumber(t, n.base) == n.Value()
            && |t| == (var m := |Digits(n.magnitude, n.base, n.upper)| + |n.Sign()|; if width > m then width else m)
  {
    hide Digits, ReadDigits;
    var digits := Digits(n.magnitude, n.base, n.upper);
    var gap := width - |digits| - |n.Sign()|;
    var pad := if gap > 0 then gap else 0;
    var zeros := if zero && !left then pad else 0;
    var spaces := if left then pad else 0;
    var body := Repeat(ZERO, zeros) + digits + Repeat(SPACE, spaces);
    var lead := if zero || left then 0 else pad;
    MagnitudeReads(n.magnitude, n.base, n.upper, zeros, spaces);
    FieldShape(n, width, zero, left, lead, body);
    SpacesSkipped(lead, n.Sign() + body);
    assert (n.Sign() + body)[|n.Sign()|..] == body;
    if n.negative {
      assert (n.Sign() + body)[1..] == body;
    } else {
      assert n.Sign() + body == body;
    }
  }

  lemma {:induction false} FieldShape(n: Number, width: nat, zero: bool, left: bool, lead: nat, body: Text)
    requires n.Valid()
    requires var digits := Digits(n.magnitude, n.base, n.upper);
             var gap := width - |digits| - |n.Sign()|;
             var pad := if gap > 0 then gap else 0;
             && lead == (if zero || left then 0 else pad)
             && body == Repeat(ZERO, if zero && !left then pad else 0) + digits + Repeat(SPACE, if left then pad else 0)
    ensures FieldText(n, width, zero, left) == Repeat(SPACE, lead) + (n.Sign() + body)
  {
    hide Digits;
  }

  predicate IsSmall(c: U16) {
    'a' as int <= c <= 'z' as int
  }

  predicate IsCapital(c: U16) {
    'A' as int <= c <= 'Z' as int
  }

  lemma {:induction false} DigitsCase(v: nat, base: nat, upper: bool)
    requires 2 <= base <= 16
    ensures forall c :: c in Digits(v, base, upper) ==> if upper then !IsSmall(c) else !IsCapital(c)
    decreases v
  {
    hide Digits, DigitChar, IsSmall, IsCapital;
    var q, d := Unfolded(v, base, upper);
    CaseOfDigit(d, upper);
    if v >= base {
      DigitsCase(q, base, upper);
    }
  }

  lemma {:induction false} CaseOfDigit(d: nat, upper: bool)
    requires d < 16
    ensures if upper then !IsSmall(DigitChar(d, upper)) else !IsCapital(DigitChar(d, upper))
  {
  }

  /** A field has capital letters, or small ones, as its number says, and never both. */
  lemma {:induction false} FieldCase(n: Number, width: nat, zero: bool, left: bool)
    requires n.Valid()
    ensures forall c :: c in FieldText(n, width, zero, left) ==> if n.upper then !IsSmall(c) else !IsCapital(c)
  {
    hide Digits;
    DigitsCase(n.magnitude, n.base, n.upper);
  }

  /** A number below 10^k takes at most k digits. */
  lemma {:induction false} DigitCount(v: nat, base: nat, upper: bool, k: nat)
    requires 10 <= base <= 16 && k > 0 && v < Pow10(k)
    ensures |Digits(v, base, upper)| <= k
    decreases k
  {
    hide DigitChar;
    if v >= base {
      QuotientShrinks(v, base);
      DigitCount(v / base, base, upper, k - 1);
    }
  }

  lemma {:induction false} QuotientShrinks(v: nat, base: nat)
    requires 10 <= base <= 16
    ensures v / base <= v / 10
  {
    assert base in {10, 11, 12, 13, 14, 15, 16};
  }

  function Pow10(k: nat): nat {
    if k == 0 then 1 else 10 * Pow10(k - 1)
  }

  lemma {:induction false} LargestNumber()
    ensures TWO64 <= Pow10(20)
  {
    assert Pow10(5) == 100000;
    assert Pow10(10) == 10000000000;
    assert Pow10(15) == 1000000000000000;
    assert Pow10(20) == 100000000000000000000;
  }

  /** A 64-bit number never takes more than 20 digits. */
  lemma {:induction false} TwentyDigits(v: U64, base: nat, upper: bool)
    requires 10 <= base <= 16
    ensures |Digits(v, base, upper)| <= 20
  {
    hide Digits, Pow10;
    LargestNumber();
    DigitCount(v, base, upper, 20);
  }
}
