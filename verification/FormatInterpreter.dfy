/** What a whole format expands to, and vfmt_core writing exactly that. */
module FormatInterpreter {
  import opened Words
  import opened Formatter
  import P = FormatPieces

  // ---- directives ---------------------------------------------------------

  function ParseFlags(fmt: Text, i: nat, zero: bool, left: bool): (bool, bool, nat)
    decreases |fmt| - i
  {
    if UnitAt(fmt, i) == ZERO then ParseFlags(fmt, i + 1, true, left)
    else if UnitAt(fmt, i) == MINUS then ParseFlags(fmt, i + 1, zero, true)
    else (zero, left, i)
  }

  predicate IsDecimal(c: U16) {
    '0' as int <= c <= '9' as int
  }

  function ParseWidth(fmt: Text, i: nat, width: nat): (nat, nat)
    decreases |fmt| - i
  {
    if IsDecimal(UnitAt(fmt, i)) then ParseWidth(fmt, i + 1, width * 10 + UnitAt(fmt, i) - ZERO) else (width, i)
  }

  /** Length modifiers: 1 for h, 2 for l, 3 for ll; w is ignored. */
  function ParseLength(fmt: Text, i: nat, length: nat): (nat, nat)
    decreases |fmt| - i
  {
    var c := UnitAt(fmt, i);
    if c == 'h' as int then ParseLength(fmt, i + 1, 1)
    else if c == 'l' as int then ParseLength(fmt, i + 1, if length == 2 then 3 else 2)
    else if c == 'w' as int then ParseLength(fmt, i + 1, length)
    else (length, i)
  }

  /** A directive: flags, width, length, conversion character, and where the format goes on. */
  datatype Directive = Directive(zero: bool, left: bool, width: nat, length: nat, conv: U16, next: nat)

  /** The directive whose flags start at `i`. */
  function ParseDirective(fmt: Text, i: nat): (d: Directive)
    ensures i <= d.next
  {
    var (zero, left, i1) := ParseFlags(fmt, i, false, false);
    var (width, i2) := ParseWidth(fmt, i1, 0);
    var (length, i3) := ParseLength(fmt, i2, 0);
    ParsersAdvance(fmt, i, i1, i2, zero, left);
    Directive(zero, left, width, length, UnitAt(fmt, i3), if i3 < |fmt| then i3 + 1 else i3)
  }

  lemma {:induction false} ParsersAdvance(fmt: Text, i: nat, i1: nat, i2: nat, zero: bool, left: bool)
    ensures i <= ParseFlags(fmt, i, false, false).2
    ensures i1 <= ParseWidth(fmt, i1, 0).1
    ensures i2 <= ParseLength(fmt, i2, 0).1
  {
    FlagsAdvance(fmt, i, false, false);
    WidthAdvances(fmt, i1, 0);
    LengthAdvances(fmt, i2, 0);
  }

  lemma {:induction false} FlagsAdvance(fmt: Text, i: nat, zero: bool, left: bool)
    ensures i <= ParseFlags(fmt, i, zero, left).2
    decreases |fmt| - i
  {
    if UnitAt(fmt, i) == ZERO {
      FlagsAdvance(fmt, i + 1, true, left);
    } else if UnitAt(fmt, i) == MINUS {
      FlagsAdvance(fmt, i + 1, zero, true);
    }
  }

  lemma {:induction false} WidthAdvances(fmt: Text, i: nat, width: nat)
    ensures i <= ParseWidth(fmt, i, width).1
    decreases |fmt| - i
  {
    if IsDecimal(UnitAt(fmt, i)) {
      WidthAdvances(fmt, i + 1, width * 10 + UnitAt(fmt, i) - ZERO);
    }
  }

  lemma {:induction false} LengthAdvances(fmt: Text, i: nat, length: nat)
    ensures i <= ParseLength(fmt, i, length).1
    decreases |fmt| - i
  {
    var c := UnitAt(fmt, i);
    if c == 'h' as int {
      LengthAdvances(fmt, i + 1, 1);
    } else if c == 'l' as int {
      LengthAdvances(fmt, i + 1, if length == 2 then 3 else 2);
    } else if c == 'w' as int {
      LengthAdvances(fmt, i + 1, length);
    }
  }

  // ---- arguments ----------------------------------------------------------

  /** Argument slots of 8 bytes, and the text at an address read as wide or narrow characters. */
  datatype Env = Env(args: nat -> U64, texts: (U64, bool) -> Text)

  function Signed(x: nat, bits: nat): int
    requires bits > 0 && x < bits
  {
    if x < bits / 2 then x else x - bits
  }

  /** The integer a conversion prints: d and i signed, the others unsigned. */
  function NumberOf(d: Directive, slot: U64): (n: Number)
    ensures n.Valid()
  {
    if d.conv == 'p' as int then Number(false, slot, 16, false)
    else if d.conv == 'd' as int || d.conv == 'i' as int then
      var v := if d.length >= 3 then Signed(slot, TWO64) else Signed(slot % 0x1_0000_0000, 0x1_0000_0000);
      var w := if d.length == 1 then Signed(v % 0x1_0000, 0x1_0000) else v;
      Number(w < 0, if w < 0 then -w else w, 10, false)
    else
      var v := if d.length >= 3 then slot else slot % 0x1_0000_0000;
      Number(false, if d.length == 1 then v % 0x1_0000 else v,
             if d.conv == 'u' as int then 10 else 16, d.conv == 'X' as int)
  }

  predicate IsInteger(conv: U16) {
    conv in {'d' as int, 'i' as int, 'u' as int, 'x' as int, 'X' as int, 'p' as int}
  }

  predicate IsText(conv: U16) {
    conv == 's' as int || conv == 'S' as int
  }

  /** A pointer conversion is 16 digits wide, padded with zeros. */
  function WidthOf(d: Directive): nat {
    if d.conv == 'p' as int then 16 else d.width
  }

  function IntegerText(d: Directive, slot: U64): Text {
    FieldText(NumberOf(d, slot), WidthOf(d), d.zero || d.conv == 'p' as int, d.left)
  }

  /** How many values a conversion's argument ranges over. */
  function RangeOf(d: Directive): int {
    if d.conv == 'p' as int || d.length >= 3 then TWO64 else if d.length == 1 then 0x1_0000 else 0x1_0000_0000
  }

  /** `v` is the number of the signed or unsigned range that is congruent to `slot`. */
  predicate Represents(v: int, slot: nat, range: int, signed: bool)
    requires range > 0
  {
    && v % range == slot % range
    && if signed then -range <= 2 * v < range else 0 <= v < range
  }

  predicate IsSigned(conv: U16) {
    conv == 'd' as int || conv == 'i' as int
  }

  /**
   What an integer conversion writes reads back as the argument, taken in the range the length names: in
   decimal for d, i and u, else in hexadecimal, whose letters are capitals for X alone.
   */
  lemma {:induction false} IntegerReadsBack(d: Directive, slot: U64)
    requires IsInteger(d.conv)
    ensures var base := if d.conv in {'d' as int, 'i' as int, 'u' as int} then 10 else 16;
            Represents(ReadNumber(IntegerText(d, slot), base), slot, RangeOf(d), IsSigned(d.conv))
    ensures forall c :: c in IntegerText(d, slot) ==> if d.conv == 'X' as int then !IsSmall(c) else !IsCapital(c)
    ensures |IntegerText(d, slot)| >= WidthOf(d)
  {
    hide FieldText, ReadNumber, Digits, Represents, Signed;
    var n := NumberOf(d, slot);
    FieldReadsBack(n, WidthOf(d), d.zero || d.conv == 'p' as int, d.left);
    FieldCase(n, WidthOf(d), d.zero || d.conv == 'p' as int, d.left);
    NumberIs(d, slot);
  }

  lemma {:induction false} NumberIs(d: Directive, slot: U64)
    requires IsInteger(d.conv)
    ensures Represents(NumberOf(d, slot).Value(), slot, RangeOf(d), IsSigned(d.conv))
  {
    var low := slot % 0x1_0000_0000;
    LowHalf(slot);
    if IsSigned(d.conv) {
      SignedIs(slot, TWO64);
      SignedIs(low, 0x1_0000_0000);
      var v := if d.length >= 3 then Signed(slot, TWO64) else Signed(low, 0x1_0000_0000);
      SignedIs(v % 0x1_0000, 0x1_0000);
      assert NumberOf(d, slot).Value() == if d.length == 1 then Signed(v % 0x1_0000, 0x1_0000) else v;
    }
  }

  lemma {:induction false} LowHalf(slot: nat)
    ensures var low := slot % 0x1_0000_0000;
            && low % 0x1_0000_0000 == low && low % 0x1_0000 == slot % 0x1_0000
            && (low - 0x1_0000_0000) % 0x1_0000 == slot % 0x1_0000
            && slot % 0x1_0000 % 0x1_0000 == slot % 0x1_0000
  {
  }

  lemma {:induction false} SignedIs(x: nat, range: nat)
    requires x < range && range in {0x1_0000, 0x1_0000_0000, TWO64}
    ensures Represents(Signed(x, range), x, range, true)
  {
  }

  const NULL_TEXT: Text := ['(' as int, 'n' as int, 'u' as int, 'l' as int, 'l' as int, ')' as int]

  /** What a buffer of wide or narrow characters holds after storing `c`. */
  function Stored(c: nat, wide: bool): U16 {
    if wide then c % 0x1_0000 else c % 0x100
  }

  function StoredText(t: Text, wide: bool): (s: Text)
    ensures |s| == |t|
  {
    seq<U16>(|t|, (i: int) requires 0 <= i < |t| => Stored(t[i], wide))
  }

  /** %s takes the buffer's own width, %S the other. */
  function TextArg(d: Directive, slot: U64, env: Env, wide: bool): Text {
    if slot == 0 then NULL_TEXT else env.texts(slot, if d.conv == 'S' as int then !wide else wide)
  }

  /** A format with its arguments, the width of its characters and the capacity of the buffer. */
  datatype Program = Program(fmt: Text, env: Env, wide: bool, cap: U64)

  /** One step through the format: the text it yields, where it goes on, arguments used, whether it ends. */
  datatype Item = Item(text: Text, next: nat, used: nat, ends: bool)

  /**
   What a directive does. A character argument is evaluated only if there is `room` for it; without room the
   position still advances by one, and the unit in the text is never stored.
   */
  function DirectiveItem(d: Directive, slot: U64, env: Env, wide: bool, room: bool): Item {
    if IsInteger(d.conv) then Item(IntegerText(d, slot), d.next, 1, false)
    else if d.conv == 'c' as int then
      Item([Stored(slot % 0x1_0000_0000, wide)], d.next, if room then 1 else 0, false)
    else if IsText(d.conv) then Item(StoredText(TextArg(d, slot, env, wide), wide), d.next, 1, false)
    else if d.conv == PERCENT then Item([PERCENT], d.next, 0, false)
    else if d.conv == 0 then Item([], d.next, 0, true)
    else Item([PERCENT, Stored(d.conv, wide)], d.next, 0, false)
  }

  function ItemAt(p: Program, i: nat, k: nat, room: bool): (item: Item)
    requires i < |p.fmt|
    ensures i < item.next
  {
    if p.fmt[i] != PERCENT then Item([Stored(p.fmt[i], p.wide)], i + 1, 0, false)
    else DirectiveItem(ParseDirective(p.fmt, i + 1), p.env.args(k), p.env, p.wide, room)
  }

  /** What the format from `i` on expands to, the next argument being the k-th and every directive having its own. */
  function Expand(p: Program, i: nat, k: nat): Text
    decreases |p.fmt| - i
  {
    if i >= |p.fmt| then []
    else
      var item := ItemAt(p, i, k, true);
      item.text + if item.ends then [] else Expand(p, item.next, k + item.used)
  }

  predicate HasRoom(p: Program, oi: nat) {
    oi + 1 < p.cap
  }

  /** What the interpreter puts out from position `oi` on, as it takes the arguments. */
  function Produced(p: Program, i: nat, k: nat, oi: nat): Text
    decreases |p.fmt| - i
  {
    if i >= |p.fmt| then []
    else
      var item := ItemAt(p, i, k, HasRoom(p, oi));
      item.text + if item.ends then [] else Produced(p, item.next, k + item.used, oi + |item.text|)
  }

  // ---- writing ------------------------------------------------------------

  /** `t` up to the place kept for the terminator. */
  function Clip(t: Text, at: nat, cap: nat): (c: Text)
    ensures |c| <= |t| && c == t[..|c|] && (at + |t| < cap ==> c == t)
  {
    if at + |t| < cap then t else if at + 1 < cap then t[..cap - 1 - at] else []
  }

  /** `s` with as much of `t` as fits written at `at`. */
  function Written(s: seq<U16>, cap: nat, at: nat, t: Text): (r: seq<U16>)
    requires cap <= |s|
    ensures |r| == |s|
  {
    var c := Clip(t, at, cap);
    if c == [] then s else s[..at] + c + s[at + |c|..]
  }

  lemma {:induction false} WrittenOn(s: seq<U16>, cap: nat, at: nat, a: Text, b: Text)
    requires cap <= |s|
    ensures Written(Written(s, cap, at, a), cap, at + |a|, b) == Written(s, cap, at, a + b)
  {
    hide Clip, Written;
    ClipsJoin(at, cap, a, b);
    if at + |a| + 1 < cap {
      var once, c := s[..at] + a + s[at + |a|..], Clip(b, at + |a|, cap);
      WrittenIs(s, cap, at, a, a);
      WrittenIs(once, cap, at + |a|, b, c);
      WrittenIs(s, cap, at, a + b, a + c);
      SplicesJoin(s, at, a, c);
    } else {
      WrittenNone(Written(s, cap, at, a), cap, at + |a|, b);
      SameWritten(s, cap, at, a + b, a);
    }
  }

  lemma {:induction false} WrittenIs(s: seq<U16>, cap: nat, at: nat, t: Text, c: Text)
    requires cap <= |s| && c == Clip(t, at, cap) && at + |c| <= |s|
    ensures Written(s, cap, at, t) == s[..at] + c + s[at + |c|..]
  {
  }

  lemma {:induction false} WrittenNone(s: seq<U16>, cap: nat, at: nat, t: Text)
    requires cap <= |s| && Clip(t, at, cap) == []
    ensures Written(s, cap, at, t) == s
  {
  }

  lemma {:induction false} SameWritten(s: seq<U16>, cap: nat, at: nat, t: Text, u: Text)
    requires cap <= |s| && Clip(t, at, cap) == Clip(u, at, cap)
    ensures Written(s, cap, at, t) == Written(s, cap, at, u)
  {
  }

  lemma {:induction false} ClipsJoin(at: nat, cap: nat, a: Text, b: Text)
    ensures at + |a| + 1 < cap ==> Clip(a, at, cap) == a && Clip(a + b, at, cap) == a + Clip(b, at + |a|, cap)
    ensures at + |a| + 1 >= cap ==> Clip(b, at + |a|, cap) == [] && Clip(a + b, at, cap) == Clip(a, at, cap)
    ensures at + 1 < cap ==> at + |Clip(a + b, at, cap)| < cap
  {
  }

  lemma {:induction false} SplicesJoin(s: seq<U16>, at: nat, a: Text, c: Text)
    requires at + |a| + |c| <= |s|
    ensures var once := s[..at] + a + s[at + |a|..];
            once[..at + |a|] + c + once[at + |a| + |c|..] == s[..at] + (a + c) + s[at + |a + c|..]
  {
    var once := s[..at] + a + s[at + |a|..];
    assert once[..at + |a|] == s[..at] + a;
    assert once[at + |a| + |c|..] == s[at + |a| + |c|..];
  }

  lemma {:induction false} WrittenNothing(s: seq<U16>, cap: nat, at: nat)
    requires cap <= |s|
    ensures Written(s, cap, at, []) == s
  {
  }

  /** Stores one unit if there is room for it and the terminator; the position advances in any case. */
  method Put(out: array<U16>, cap: nat, oi: nat, c: U16) returns (next: nat)
    requires cap <= out.Length
    modifies out
    ensures next == oi + 1
    ensures out[..] == Written(old(out[..]), cap, oi, [c])
  {
    if cap != 0 && oi + 1 < cap {
      out[oi] := c;
      assert out[..] == out[..oi] + [c] + out[oi + 1..];
    }
    next := oi + 1;
  }

  method PutText(out: array<U16>, cap: nat, oi: nat, t: Text, wide: bool) returns (next: nat)
    requires cap <= out.Length
    modifies out
    ensures next == oi + |t| && out[..] == Written(old(out[..]), cap, oi, StoredText(t, wide))
  {
    hide Written;
    next := oi;
    ghost var s := StoredText(t, wide);
    WrittenNothing(out[..], cap, oi);
    for i := 0 to |t|
      invariant next == oi + i && out[..] == Written(old(out[..]), cap, oi, s[..i])
    {
      WrittenOn(old(out[..]), cap, oi, s[..i], [s[i]]);
      next := Put(out, cap, next, Stored(t[i], wide));
      assert s[..i + 1] == s[..i] + [s[i]];
    }
    assert s[..|t|] == s;
  }

  method PutRepeat(out: array<U16>, cap: nat, oi: nat, c: U16, n: int) returns (next: nat)
    requires cap <= out.Length
    modifies out
    ensures next == oi + |Repeat(c, n)| && out[..] == Written(old(out[..]), cap, oi, Repeat(c, n))
  {
    hide Written;
    next := oi;
    var pad := n;
    WrittenNothing(out[..], cap, oi);
    ghost var done := 0;
    assert Repeat(c, 0) == [];
    while pad > 0
      invariant done == (if n > 0 then n else 0) - (if pad > 0 then pad else 0) >= 0
      invariant next == oi + done && out[..] == Written(old(out[..]), cap, oi, Repeat(c, done))
      decreases pad
    {
      WrittenOn(old(out[..]), cap, oi, Repeat(c, done), [c]);
      next := Put(out, cap, next, c);
      pad, done := pad - 1, done + 1;
      assert Repeat(c, done) == Repeat(c, done - 1) + [c];
    }
    assert Repeat(c, done) == Repeat(c, n);
  }

  /** Digits collected in reverse, at most 20 of the 24 slots used. */
  method ReverseDigits(n: Number) returns (rev: array<U16>, rn: nat)
    requires n.Valid()
    ensures fresh(rev) && rn <= 20 < rev.Length
    ensures var d := Digits(n.magnitude, n.base, n.upper);
            rn == |d| && forall i :: 0 <= i < rn ==> rev[i] == d[rn - 1 - i]
  {
    hide Digits, DigitChar;
    ghost var d := Digits(n.magnitude, n.base, n.upper);
    ZeroDigits(n.base, n.upper);
    TwentyDigits(n.magnitude, n.base, n.upper);
    rev := new U16[24](_ => 0);
    rn := 0;
    var uv: nat := n.magnitude;
    if uv == 0 {
      rev[0] := ZERO;
      return rev, 1;
    }
    while uv > 0
      invariant rn <= |d| && (uv == 0 ==> rn == |d|)
      invariant uv > 0 ==> rn < |d| && Digits(uv, n.base, n.upper) == d[..|d| - rn]
      invariant forall i :: 0 <= i < rn ==> rev[i] == d[|d| - 1 - i]
      decreases uv
    {
      LastDigit(uv, n.base, n.upper);
      assert d[|d| - rn - 1] == d[..|d| - rn][|d| - rn - 1];
      assert d[..|d| - rn][..|d| - rn - 1] == d[..|d| - rn - 1];
      rev[rn] := DigitChar(uv % n.base, n.upper);
      rn := rn + 1;
      uv := uv / n.base;
    }
  }

  lemma {:induction false} ZeroDigits(base: nat, upper: bool)
    requires 2 <= base <= 16
    ensures Digits(0, base, upper) == [ZERO]
  {
  }

  lemma {:induction false} LastDigit(v: nat, base: nat, upper: bool)
    requires 2 <= base <= 16 && v > 0
    ensures var d := Digits(v, base, upper);
            && d[|d| - 1] == DigitChar(v % base, upper)
            && (v / base == 0 ==> |d| == 1)
            && (v / base > 0 ==> |d| > 1 && d[..|d| - 1] == Digits(v / base, base, upper))
            && 0 <= v / base < v
  {
    hide DigitChar;
    QuotientFacts(v, base);
  }

  lemma {:induction false} QuotientFacts(v: nat, base: nat)
    requires 2 <= base && v > 0
    ensures v / base < v && (v / base == 0 <==> v < base) && 0 <= v % base < base
    ensures v < base ==> v % base == v
  {
    QuotientRemainder(v, base);
    if v >= base {
      assert v / base != 0;
    } else {
      SmallQuotient(v, base);
    }
  }

  lemma {:induction false} SmallQuotient(v: nat, base: nat)
    requires v < base
    ensures v / base == 0 && v % base == v
  {
  }

  /** The digits come out most significant first. */
  method PutReversed(out: array<U16>, cap: nat, oi: nat, rev: array<U16>, count: nat, ghost d: Text) returns (next: nat)
    requires rev != out && count == |d| && oi + count < cap <= out.Length && count <= rev.Length
    requires forall i :: 0 <= i < count ==> rev[i] == d[count - 1 - i]
    modifies out
    ensures next == oi + count && out[..] == Written(old(out[..]), cap, oi, d)
  {
    hide Written;
    next := oi;
    var rn: nat := count;
    WrittenNothing(out[..], cap, oi);
    assert d[..0] == [];
    while rn > 0
      invariant rn <= count && next == oi + count - rn && out[..] == Written(old(out[..]), cap, oi, d[..count - rn])
      decreases rn
    {
      if cap != 0 && next + 1 < cap {
        rn := rn - 1;
        WrittenOn(old(out[..]), cap, oi, d[..count - rn - 1], [d[count - rn - 1]]);
        assert d[..count - rn] == d[..count - rn - 1] + [d[count - rn - 1]];
        var _ := Put(out, cap, next, rev[rn]);
      }
      next := next + 1;
    }
    assert d[..count] == d;
  }

  /** Where the digits of a field end, from its start. */
  function DigitsEnd(n: Number, width: nat, zero: bool, left: bool): nat
    requires n.Valid()
  {
    if left then |n.Sign()| + |Digits(n.magnitude, n.base, n.upper)| else |FieldText(n, width, zero, left)|
  }

  method PutField(out: array<U16>, cap: nat, oi: nat, n: Number, width: nat, zero: bool, left: bool) returns (next: nat)
    requires n.Valid() && oi + DigitsEnd(n, width, zero, left) < cap <= out.Length
    modifies out
    ensures next == oi + |FieldText(n, width, zero, left)|
    ensures out[..] == Written(old(out[..]), cap, oi, FieldText(n, width, zero, left))
  {
    hide Written, Digits, Repeat, FieldText;
    var rev, rn := ReverseDigits(n);
    ghost var d := Digits(n.magnitude, n.base, n.upper);
    var pad := width - rn - if n.negative then 1 else 0;
    ghost var before := out[..];
    ghost var s1 := if !left && !zero then Repeat(SPACE, pad) else [];
    ghost var s2 := s1 + n.Sign();
    ghost var s3 := s2 + if !left && zero then Repeat(ZERO, pad) else [];
    assert s1 + [] == s1 && s2 + [] == s2;
    ghost var s4 := s3 + d;
    FieldParts(n, width, zero, left, s4);
    next := oi;
    WrittenNothing(before, cap, oi);
    if !left && !zero {
      next := PutRepeat(out, cap, next, SPACE, pad);
    }
    assert out[..] == Written(before, cap, oi, s1);
    WrittenOn(before, cap, oi, s1, n.Sign());
    WrittenNothing(out[..], cap, next);
    if n.negative {
      next := Put(out, cap, next, MINUS);
    }
    assert out[..] == Written(before, cap, oi, s2);
    WrittenNothing(out[..], cap, next);
    if !left && zero {
      WrittenOn(before, cap, oi, s2, Repeat(ZERO, pad));
      next := PutRepeat(out, cap, next, ZERO, pad);
    } else {
      assert s3 == s2;
    }
    assert out[..] == Written(before, cap, oi, s3);
    WrittenOn(before, cap, oi, s3, d);
    next := PutReversed(out, cap, next, rev, rn, d);
    if left {
      WrittenOn(before, cap, oi, s4, Repeat(SPACE, pad));
      next := PutRepeat(out, cap, next, SPACE, pad);
    } else {
      assert s4 + [] == s4;
    }
  }

  lemma {:induction false} FieldParts(n: Number, width: nat, zero: bool, left: bool, s4: Text)
    requires n.Valid()
    requires var d := Digits(n.magnitude, n.base, n.upper);
             var pad := width - |d| - |n.Sign()|;
             s4 == (if !left && !zero then Repeat(SPACE, pad) else []) + n.Sign()
                   + (if !left && zero then Repeat(ZERO, pad) else []) + d
    ensures var pad := width - |Digits(n.magnitude, n.base, n.upper)| - |n.Sign()|;
            && FieldText(n, width, zero, left) == s4 + (if left then Repeat(SPACE, pad) else [])
            && |FieldText(n, width, zero, left)| == |s4| + if left then |Repeat(SPACE, pad)| else 0
  {
    hide Digits, Repeat;
  }

  // ---- the interpreter ----------------------------------------------------

  method ReadFlags(fmt: Text, start: nat) returns (zero: bool, left: bool, fi: nat)
    ensures (zero, left, fi) == ParseFlags(fmt, start, false, false)
  {
    zero, left, fi := false, false, start;
    while true
      invariant ParseFlags(fmt, fi, zero, left) == ParseFlags(fmt, start, false, false)
      decreases |fmt| - fi
    {
      var f := UnitAt(fmt, fi);
      if f == ZERO {
        zero, fi := true, fi + 1;
      } else if f == MINUS {
        left, fi := true, fi + 1;
      } else {
        return;
      }
    }
  }

  method ReadWidth(fmt: Text, start: nat) returns (width: nat, fi: nat)
    ensures (width, fi) == ParseWidth(fmt, start, 0)
  {
    width, fi := 0, start;
    while IsDecimal(UnitAt(fmt, fi))
      invariant ParseWidth(fmt, fi, width) == ParseWidth(fmt, start, 0)
      decreases |fmt| - fi
    {
      width, fi := width * 10 + UnitAt(fmt, fi) - ZERO, fi + 1;
    }
  }

  method ReadLength(fmt: Text, start: nat) returns (length: nat, fi: nat)
    ensures (length, fi) == ParseLength(fmt, start, 0)
  {
    length, fi := 0, start;
    while true
      invariant ParseLength(fmt, fi, length) == ParseLength(fmt, start, 0)
      decreases |fmt| - fi
    {
      var m := UnitAt(fmt, fi);
      if m == 'h' as int {
        length, fi := 1, fi + 1;
      } else if m == 'l' as int {
        length, fi := if length == 2 then 3 else 2, fi + 1;
      } else if m == 'w' as int {
        fi := fi + 1;
      } else {
        return;
      }
    }
  }

  // ---- when the interpreter returns ---------------------------------------

  /** Where the digits of an integer directive end, from its start. */
  function DigitsOf(d: Directive, slot: U64): (n: nat) {
    DigitsEnd(NumberOf(d, slot), WidthOf(d), d.zero || d.conv == 'p' as int, d.left)
  }

  function DigitCountOf(d: Directive, slot: U64): nat {
    |Digits(NumberOf(d, slot).magnitude, NumberOf(d, slot).base, NumberOf(d, slot).upper)|
  }

  predicate DirectiveFinishes(d: Directive, slot: U64, oi: nat, cap: nat) {
    IsInteger(d.conv) ==> oi + DigitsOf(d, slot) < cap
  }

  /** No digit loop of the format is caught by a full buffer. */
  predicate Finishes(p: Program, i: nat, k: nat, oi: nat)
    decreases |p.fmt| - i
  {
    i < |p.fmt| ==>
      var item := ItemAt(p, i, k, HasRoom(p, oi));
      && (p.fmt[i] == PERCENT ==> DirectiveFinishes(ParseDirective(p.fmt, i + 1), p.env.args(k), oi, p.cap))
      && (item.ends || Finishes(p, item.next, k + item.used, oi + |item.text|))
  }

  lemma {:induction false} DigitsInside(d: Directive, slot: U64)
    ensures 1 <= DigitCountOf(d, slot) <= DigitsOf(d, slot) <= |IntegerText(d, slot)|
  {
    hide NumberOf, FieldText, Digits;
    FieldReadsBack(NumberOf(d, slot), WidthOf(d), d.zero || d.conv == 'p' as int, d.left);
  }

  /**
   The interpreter as a machine, with positions in 64 bits. At the top of its loop it takes an item; then it
   puts the units of a text or of the padding, one a step. In the digit loop of an integer it takes a digit
   only when there is room for one, while the position always advances.
   */
  datatype Machine =
    | Top(i: nat, k: nat, oi: U64)
    | Busy(before: nat, digits: nat, behind: nat, oi: U64, i: nat, k: nat, ends: bool)
    | Done(oi: U64)
  {
    predicate InDigits() {
      Busy? && before == 0 && digits > 0
    }

    /** Units still to be put. */
    function Left(): nat
      requires Busy?
    {
      before + digits + behind
    }
  }

  /** The test for room, computed in 64 bits: at the last position it succeeds. */
  predicate Room(p: Program, oi: U64) {
    p.cap > 0 && Wrap(oi + 1) < p.cap
  }

  function Step(p: Program, s: Machine): Machine {
    match s
    case Top(i, k, oi) => if i >= |p.fmt| then Done(oi) else TakeItem(p, i, k, oi)
    case Busy(before, digits, behind, oi, i, k, ends) =>
      if before > 0 then s.(before := before - 1, oi := Wrap(oi + 1))
      else if digits > 0 then s.(digits := if Room(p, oi) then digits - 1 else digits, oi := Wrap(oi + 1))
      else if behind > 0 then s.(behind := behind - 1, oi := Wrap(oi + 1))
      else if ends then Done(oi)
      else Top(i, k, oi)
    case Done(_) => s
  }

  predicate IntegerAt(p: Program, i: nat)
    requires i < |p.fmt|
  {
    p.fmt[i] == PERCENT && IsInteger(ParseDirective(p.fmt, i + 1).conv)
  }

  function TakeItem(p: Program, i: nat, k: nat, oi: U64): Machine
    requires i < |p.fmt|
  {
    var item := ItemAt(p, i, k, Room(p, oi));
    if IntegerAt(p, i) then
      var (d, slot) := (ParseDirective(p.fmt, i + 1), p.env.args(k));
      DigitsInside(d, slot);
      Busy(DigitsOf(d, slot) - DigitCountOf(d, slot), DigitCountOf(d, slot), |IntegerText(d, slot)| - DigitsOf(d, slot),
           oi, item.next, k + item.used, item.ends)
    else Busy(|item.text|, 0, 0, oi, item.next, k + item.used, item.ends)
  }

  /** The machine after `n` steps. */
  function After(p: Program, s: Machine, n: nat): Machine
    decreases n
  {
    if n == 0 then s else After(p, Step(p, s), n - 1)
  }

  lemma {:induction false} AfterPlus(p: Program, s: Machine, a: nat, b: nat)
    ensures After(p, s, a + b) == After(p, After(p, s, a), b)
    decreases a
  {
    hide Step;
    if a > 0 {
      AfterPlus(p, Step(p, s), a - 1, b);
    }
  }

  lemma {:induction false} OneStep(p: Program, s: Machine)
    ensures After(p, s, 1) == Step(p, s)
  {
    hide Step;
    assert After(p, s, 1) == After(p, Step(p, s), 0);
  }

  lemma {:induction false} WrapTwice(x: U64, n: nat)
    ensures Wrap(Wrap(x + 1) + n) == Wrap(x + 1 + n)
  {
  }

  /** The units before the digits are put, whatever room there is. */
  lemma {:induction false} PutsBefore(p: Program, s: Machine)
    requires s.Busy?
    ensures After(p, s, s.before) == s.(before := 0, oi := Wrap(s.oi + s.before))
    decreases if s.Busy? then s.before else 0
  {
    hide Wrap, Room;
    if s.before > 0 {
      var next := s.(before := s.before - 1, oi := Wrap(s.oi + 1));
      assert Step(p, s) == next;
      WrapTwice(s.oi, s.before - 1);
      PutsBefore(p, next);
    } else {
      WrapSmall(s.oi);
    }
  }

  lemma {:induction false} WrapSmall(x: nat)
    requires x < TWO64
    ensures Wrap(x) == x
  {
  }

  lemma {:induction false} PutsBehind(p: Program, s: Machine)
    requires s.Busy? && s.before == s.digits == 0
    ensures After(p, s, s.behind) == s.(behind := 0, oi := Wrap(s.oi + s.behind))
    decreases if s.Busy? then s.behind else 0
  {
    hide Wrap, Room;
    if s.behind > 0 {
      var next := s.(behind := s.behind - 1, oi := Wrap(s.oi + 1));
      assert Step(p, s) == next;
      WrapTwice(s.oi, s.behind - 1);
      PutsBehind(p, next);
    } else {
      WrapSmall(s.oi);
    }
  }

  /** With its digits taken, an item is run to its end. */
  lemma {:induction false} ItemLeft(p: Program, s: Machine)
    requires s.Busy? && s.before == s.digits == 0
    ensures var oi := Wrap(s.oi + s.behind);
            After(p, s, s.behind + 1) == if s.ends then Done(oi) else Top(s.i, s.k, oi)
  {
    hide Wrap, Room;
    PutsBehind(p, s);
    AfterPlus(p, s, s.behind, 1);
    OneStep(p, s.(behind := 0, oi := Wrap(s.oi + s.behind)));
  }

  /** An item is not at its end before as many steps as it has units. */
  lemma {:induction false} StillBusy(p: Program, s: Machine, n: nat)
    requires s.Busy? && n <= s.Left()
    ensures After(p, s, n).Busy?
    decreases n
  {
    hide Wrap, Room;
    if n > 0 {
      assert Step(p, s).Busy? && Step(p, s).Left() >= s.Left() - 1;
      StillBusy(p, Step(p, s), n - 1);
    }
  }

  lemma {:induction false} DoneStays(p: Program, s: Machine, n: nat)
    requires s.Done?
    ensures After(p, s, n) == s
    decreases n
  {
    if n > 0 {
      DoneStays(p, s, n - 1);
    }
  }

  // ---- one digit loop -----------------------------------------------------

  lemma {:induction false} DigitsRunOut(p: Program, s: Machine)
    requires s.Busy? && s.before == 0 && s.oi + s.digits < p.cap
    ensures After(p, s, s.digits) == s.(digits := 0, oi := s.oi + s.digits)
    decreases if s.Busy? then s.digits else 0
  {
    if s.digits > 0 {
      assert Wrap(s.oi + 1) == s.oi + 1;
      DigitsRunOut(p, Step(p, s));
    }
  }

  /** A caught loop goes on until the position wraps. */
  lemma {:induction false} DigitsStuck(p: Program, s: Machine, n: nat)
    requires s.InDigits() && s.oi + s.digits >= p.cap && s.oi + n < TWO64
    ensures var t := After(p, s, n); t.InDigits() && t.digits <= s.digits && t == s.(digits := t.digits, oi := s.oi + n)
    decreases n
  {
    if n > 0 {
      assert Wrap(s.oi + 1) == s.oi + 1;
      DigitsStuck(p, Step(p, s), n - 1);
    }
  }

  /** At its last value the position finds room, and then starts again at 0. */
  lemma {:induction false} DigitTakenAtWrap(p: Program, s: Machine)
    requires s.InDigits() && s.oi == TWO64 - 1 && p.cap > 0
    ensures Step(p, s) == s.(digits := s.digits - 1, oi := 0)
  {
    assert Wrap(s.oi + 1) == 0;
  }

  /** Every digit loop over a buffer with any room ends at last, if need be by writing from the buffer's start again. */
  lemma {:induction false} DigitsEndAtLast(p: Program, s: Machine) returns (n: nat)
    requires s.Busy? && s.before == 0 && p.cap > 0
    ensures var t := After(p, s, n); t.Busy? && t == s.(digits := 0, oi := t.oi)
    decreases if s.Busy? then s.digits else 0
  {
    hide Step;
    if s.digits == 0 {
      n := 0;
    } else if s.oi + s.digits < p.cap {
      DigitsRunOut(p, s);
      n := s.digits;
    } else {
      var m := TWO64 - 1 - s.oi;
      DigitsStuck(p, s, m);
      var t := After(p, s, m);
      DigitTakenAtWrap(p, t);
      OneStep(p, t);
      AfterPlus(p, s, m, 1);
      var u := Step(p, t);
      var rest := DigitsEndAtLast(p, u);
      AfterPlus(p, s, m + 1, rest);
      n := m + 1 + rest;
    }
  }

  lemma {:induction false} NoRoomEver(p: Program, s: Machine, n: nat)
    requires s.InDigits() && p.cap == 0
    ensures After(p, s, n).InDigits()
    decreases n
  {
    hide Wrap;
    if n > 0 {
      NoRoomEver(p, Step(p, s), n - 1);
    }
  }

  /**
   Before the position wraps, a digit loop is left exactly if all its digits fit before the terminator. In
   unbounded time it is left exactly if there is a buffer at all.
   */
  lemma {:induction false} DigitLoopEnds(p: Program, s: Machine)
    requires s.InDigits()
    ensures (exists n: nat :: s.oi + n < TWO64 && !After(p, s, n).InDigits()) <==> s.oi + s.digits < p.cap
    ensures (exists n: nat :: !After(p, s, n).InDigits()) <==> p.cap > 0
  {
    hide Step, Wrap;
    if s.oi + s.digits < p.cap {
      DigitsRunOut(p, s);
      assert !After(p, s, s.digits).InDigits();
    } else {
      forall n: nat | s.oi + n < TWO64 ensures After(p, s, n).InDigits() {
        DigitsStuck(p, s, n);
      }
    }
    if p.cap > 0 {
      var n := DigitsEndAtLast(p, s);
      assert !After(p, s, n).InDigits();
    } else {
      forall n: nat ensures After(p, s, n).InDigits() {
        NoRoomEver(p, s, n);
      }
    }
  }

  // ---- whole formats ------------------------------------------------------

  lemma {:induction false} FromTop(p: Program, i: nat, k: nat, oi: U64)
    ensures After(p, Top(i, k, oi), 1) == if i >= |p.fmt| then Done(oi) else TakeItem(p, i, k, oi)
  {
    hide TakeItem;
    OneStep(p, Top(i, k, oi));
  }

  /** What is taken up at the top of the loop, where the test for room needs no wrapping or never succeeds. */
  lemma {:induction false} Taken(p: Program, i: nat, k: nat, oi: U64, q: nat)
    requires i < |p.fmt| && (p.cap == 0 || (q == oi && oi + 1 < TWO64))
    ensures var item, s := ItemAt(p, i, k, HasRoom(p, q)), TakeItem(p, i, k, oi);
            && s.Busy? && s.Left() == |item.text| && s.oi == oi
            && s.i == item.next && s.k == k + item.used && s.ends == item.ends
    ensures var s := TakeItem(p, i, k, oi); s.digits > 0 <==> IntegerAt(p, i)
    ensures IntegerAt(p, i) ==>
              var (d, slot) := (ParseDirective(p.fmt, i + 1), p.env.args(k)); var s := TakeItem(p, i, k, oi);
              s.before + s.digits == DigitsOf(d, slot)
  {
    hide ParseDirective, DigitsOf, DigitCountOf, IntegerText, StoredText, TextArg, Stored;
    assert Room(p, oi) == HasRoom(p, q);
    if IntegerAt(p, i) {
      DigitsInside(ParseDirective(p.fmt, i + 1), p.env.args(k));
    }
  }

  lemma {:induction false} TakenAnyhow(p: Program, i: nat, k: nat, oi: U64)
    requires i < |p.fmt|
    ensures TakeItem(p, i, k, oi).Busy? && TakeItem(p, i, k, oi).i > i
  {
    hide ParseDirective, DigitsOf, DigitCountOf, IntegerText, ItemAt;
  }

  /** An item whose digits fit, if it has any, is run to its end in two more steps than it has units. */
  lemma {:induction false} ItemReturns(p: Program, i: nat, k: nat, oi: U64)
    requires i < |p.fmt| && oi + |ItemAt(p, i, k, HasRoom(p, oi)).text| + 1 < TWO64
    requires p.fmt[i] == PERCENT ==> DirectiveFinishes(ParseDirective(p.fmt, i + 1), p.env.args(k), oi, p.cap)
    ensures var item := ItemAt(p, i, k, HasRoom(p, oi));
            After(p, Top(i, k, oi), |item.text| + 2)
            == if item.ends then Done(oi + |item.text|) else Top(item.next, k + item.used, oi + |item.text|)
  {
    hide ParseDirective, DigitsOf, ItemAt, TakeItem, Step;
    FromTop(p, i, k, oi);
    Taken(p, i, k, oi, oi);
    var top, s := Top(i, k, oi), TakeItem(p, i, k, oi);
    AfterPlus(p, top, 1, s.before);
    PutsBefore(p, s);
    WrapSmall(oi + s.before);
    var t := s.(before := 0, oi := oi + s.before);
    AfterPlus(p, top, 1 + s.before, s.digits);
    if s.digits > 0 {
      DigitsRunOut(p, t);
    }
    var u := t.(digits := 0, oi := t.oi + s.digits);
    assert After(p, t, s.digits) == u;
    AfterPlus(p, top, 1 + s.before + s.digits, u.behind + 1);
    ItemLeft(p, u);
    WrapSmall(u.oi + u.behind);
  }

  /** A format with no digit loop caught is run to its end, at the length of what it puts out. */
  lemma {:induction false} FinishingReturns(p: Program, i: nat, k: nat, oi: U64) returns (n: nat)
    requires Finishes(p, i, k, oi) && oi + |Produced(p, i, k, oi)| + 1 < TWO64
    ensures After(p, Top(i, k, oi), n) == Done(oi + |Produced(p, i, k, oi)|)
    decreases |p.fmt| - i
  {
    hide ParseDirective, DirectiveItem, ItemAt, Step, DigitsOf, TakeItem, DirectiveFinishes, HasRoom;
    var s := Top(i, k, oi);
    if i >= |p.fmt| {
      FromTop(p, i, k, oi);
      n := 1;
    } else {
      var item := ItemAt(p, i, k, HasRoom(p, oi));
      ItemReturns(p, i, k, oi);
      n := |item.text| + 2;
      if !item.ends {
        var rest := FinishingReturns(p, item.next, k + item.used, oi + |item.text|);
        AfterPlus(p, s, n, rest);
        n := n + rest;
      }
    }
  }

  /** A format with a digit loop caught does not end before the position has wrapped. */
  lemma {:induction false} CaughtGoesOn(p: Program, i: nat, k: nat, oi: U64, n: nat)
    requires !Finishes(p, i, k, oi) && oi + n + 1 < TWO64
    ensures !After(p, Top(i, k, oi), n).Done?
    decreases |p.fmt| - i
  {
    hide ParseDirective, DirectiveItem, ItemAt, Step, DigitsOf, TakeItem, DirectiveFinishes, HasRoom;
    var top, item := Top(i, k, oi), ItemAt(p, i, k, HasRoom(p, oi));
    if n > 0 {
      FromTop(p, i, k, oi);
      Taken(p, i, k, oi, oi);
      AfterPlus(p, top, 1, n - 1);
      if n - 1 <= |item.text| {
        StillBusy(p, TakeItem(p, i, k, oi), n - 1);
      } else if p.fmt[i] == PERCENT && !DirectiveFinishes(ParseDirective(p.fmt, i + 1), p.env.args(k), oi, p.cap) {
        ItemCaught(p, i, k, oi, n - 1);
      } else {
        var m := |item.text| + 2;
        ItemReturns(p, i, k, oi);
        AfterPlus(p, top, m, n - m);
        CaughtGoesOn(p, item.next, k + item.used, oi + |item.text|, n - m);
      }
    }
  }

  lemma {:induction false} ItemCaught(p: Program, i: nat, k: nat, oi: U64, n: nat)
    requires i < |p.fmt| && p.fmt[i] == PERCENT && oi + n + 1 < TWO64
    requires !DirectiveFinishes(ParseDirective(p.fmt, i + 1), p.env.args(k), oi, p.cap)
    requires n >= TakeItem(p, i, k, oi).Left()
    ensures After(p, TakeItem(p, i, k, oi), n).InDigits()
  {
    hide ParseDirective, DigitsOf, Step, ItemAt, TakeItem;
    Taken(p, i, k, oi, oi);
    var s := TakeItem(p, i, k, oi);
    PutsBefore(p, s);
    WrapSmall(oi + s.before);
    AfterPlus(p, s, s.before, n - s.before);
    DigitsStuck(p, s.(before := 0, oi := oi + s.before), n - s.before);
  }

  /** With a buffer, or with no digit loop caught, the interpreter comes to an end at last. */
  lemma {:induction false} ReturnsAtLast(p: Program, i: nat, k: nat, oi: U64, q: nat) returns (n: nat)
    requires p.cap > 0 || Finishes(p, i, k, q)
    ensures After(p, Top(i, k, oi), n).Done?
    decreases |p.fmt| - i
  {
    hide ParseDirective, DirectiveItem, ItemAt, Step, DigitsOf, TakeItem, Wrap, HasRoom;
    var top := Top(i, k, oi);
    FromTop(p, i, k, oi);
    n := 1;
    if i < |p.fmt| {
      var s := TakeItem(p, i, k, oi);
      TakenAnyhow(p, i, k, oi);
      if p.cap == 0 {
        Taken(p, i, k, oi, q);
        NoIntegerWithoutBuffer(p, i, k, q);
      }
      var m := BusyEnds(p, s);
      AfterPlus(p, top, 1, m);
      n := 1 + m;
      if !s.ends {
        var rest := ReturnsAtLast(p, s.i, s.k, After(p, s, m).oi, q + |ItemAt(p, i, k, HasRoom(p, q)).text|);
        AfterPlus(p, top, 1 + m, rest);
        n := 1 + m + rest;
      }
    }
  }

  lemma {:induction false} NoIntegerWithoutBuffer(p: Program, i: nat, k: nat, q: nat)
    requires i < |p.fmt| && p.cap == 0
    ensures IntegerAt(p, i) ==> !Finishes(p, i, k, q)
    ensures !IntegerAt(p, i) && p.fmt[i] == PERCENT ==>
              DirectiveFinishes(ParseDirective(p.fmt, i + 1), p.env.args(k), q, p.cap)
  {
    hide ParseDirective, DigitsOf, ItemAt;
  }

  lemma {:induction false} BusyEnds(p: Program, s: Machine) returns (n: nat)
    requires s.Busy? && (p.cap > 0 || s.digits == 0)
    ensures var t := After(p, s, n); if s.ends then t.Done? else t.Top? && t.i == s.i && t.k == s.k
  {
    hide Step, Wrap;
    PutsBefore(p, s);
    var t := s.(before := 0, oi := Wrap(s.oi + s.before));
    var m := 0;
    if s.digits > 0 {
      m := DigitsEndAtLast(p, t);
    }
    AfterPlus(p, s, s.before, m);
    var u := After(p, t, m);
    assert u == t.(digits := 0, oi := u.oi);
    ItemLeft(p, u);
    AfterPlus(p, s, s.before + m, u.behind + 1);
    n := s.before + m + u.behind + 1;
  }

  /** Without a buffer a digit loop is never left. */
  lemma {:induction false} CaughtForEver(p: Program, i: nat, k: nat, oi: U64, q: nat, n: nat)
    requires p.cap == 0 && !Finishes(p, i, k, q)
    ensures !After(p, Top(i, k, oi), n).Done?
    decreases |p.fmt| - i
  {
    hide ParseDirective, DirectiveItem, ItemAt, Step, DigitsOf, TakeItem, DirectiveFinishes, HasRoom, Wrap;
    var top, item := Top(i, k, oi), ItemAt(p, i, k, HasRoom(p, q));
    if n > 0 {
      FromTop(p, i, k, oi);
      Taken(p, i, k, oi, q);
      NoIntegerWithoutBuffer(p, i, k, q);
      AfterPlus(p, top, 1, n - 1);
      var s := TakeItem(p, i, k, oi);
      if n - 1 <= s.Left() {
        StillBusy(p, s, n - 1);
      } else {
        PutsBefore(p, s);
        var t := s.(before := 0, oi := Wrap(oi + s.before));
        AfterPlus(p, s, s.before, n - 1 - s.before);
        if s.digits > 0 {
          NoRoomEver(p, t, n - 1 - s.before);
        } else {
          var m := t.behind + 1;
          ItemLeft(p, t);
          AfterPlus(p, t, m, n - 1 - s.before - m);
          CaughtForEver(p, s.i, s.k, After(p, t, m).oi, q + |item.text|, n - 1 - s.before - m);
        }
      }
    }
  }

  /**
   For every format and argument list: if no digit loop is caught, the interpreter returns, at the length of
   what it puts out; if one is, it makes at least 2^64 - 1 steps, so that its position wraps, and then returns
   exactly if there is a buffer.
   */
  lemma {:induction false} ReturnsIffFinishes(p: Program)
    ensures Finishes(p, 0, 0, 0) && |Produced(p, 0, 0, 0)| + 1 < TWO64 ==>
              exists n: nat :: After(p, Top(0, 0, 0), n) == Done(|Produced(p, 0, 0, 0)|)
    ensures !Finishes(p, 0, 0, 0) ==> forall n: nat :: n + 1 < TWO64 ==> !After(p, Top(0, 0, 0), n).Done?
    ensures (exists n: nat :: After(p, Top(0, 0, 0), n).Done?) <==> p.cap > 0 || Finishes(p, 0, 0, 0)
  {
    hide Finishes, After, Produced;
    if Finishes(p, 0, 0, 0) && |Produced(p, 0, 0, 0)| + 1 < TWO64 {
      var n := FinishingReturns(p, 0, 0, 0);
      assert After(p, Top(0, 0, 0), n) == Done(|Produced(p, 0, 0, 0)|);
    }
    if !Finishes(p, 0, 0, 0) {
      forall n: nat | n + 1 < TWO64 ensures !After(p, Top(0, 0, 0), n).Done? {
        CaughtGoesOn(p, 0, 0, 0, n);
      }
    }
    if p.cap > 0 || Finishes(p, 0, 0, 0) {
      var n := ReturnsAtLast(p, 0, 0, 0, 0);
      assert After(p, Top(0, 0, 0), n).Done?;
    } else {
      forall n: nat ensures !After(p, Top(0, 0, 0), n).Done? {
        CaughtForEver(p, 0, 0, 0, 0, n);
      }
    }
  }

  lemma {:induction false} PlainDirective(fmt: Text, i: nat)
    requires i < |fmt| && fmt[i] in {'c' as int, 'd' as int, 's' as int}
    ensures ParseDirective(fmt, i) == Directive(false, false, 0, 0, fmt[i], i + 1)
  {
    assert ParseFlags(fmt, i, false, false) == (false, false, i);
    assert ParseWidth(fmt, i, 0) == (0, i);
    assert ParseLength(fmt, i, 0) == (0, i);
  }

  /** With room for the terminator alone, "%d" takes 2^64 - 1 steps or more. */
  lemma {:induction false} CaughtDigits(env: Env, wide: bool, n: nat)
    ensures var p := Program([PERCENT, 'd' as int], env, wide, 1);
            !Finishes(p, 0, 0, 0) && (n + 1 < TWO64 ==> !After(p, Top(0, 0, 0), n).Done?)
  {
    hide ParseDirective, DigitsOf, ItemAt, After;
    var p := Program([PERCENT, 'd' as int], env, wide, 1);
    PlainDirective(p.fmt, 1);
    DigitsInside(ParseDirective(p.fmt, 1), env.args(0));
    if n + 1 < TWO64 {
      CaughtGoesOn(p, 0, 0, 0, n);
    }
  }

  // ---- when every directive has its own argument --------------------------

  /** Every directive that takes an argument takes its own, the k-th standing for the `own`-th. */
  predicate OwnArguments(p: Program, i: nat, k: nat, own: nat, oi: nat)
    decreases |p.fmt| - i
  {
    i < |p.fmt| ==>
      var item := ItemAt(p, i, k, HasRoom(p, oi));
      && (item.used > 0 ==> k == own)
      && (item.ends || OwnArguments(p, item.next, k + item.used, own + ItemAt(p, i, k, true).used, oi + |item.text|))
  }

  /** From `i` on some directive takes an argument even from a full buffer: an integer or a text. */
  predicate TakesLater(p: Program, i: nat)
    decreases |p.fmt| - i
  {
    i < |p.fmt| &&
    var item := ItemAt(p, i, 0, false);
    item.used > 0 || (!item.ends && TakesLater(p, item.next))
  }

  /** A character directive that finds the buffer full, and so takes no argument. */
  predicate SkipsArgument(p: Program, i: nat, oi: nat)
    requires i < |p.fmt|
  {
    p.fmt[i] == PERCENT && ParseDirective(p.fmt, i + 1).conv == 'c' as int && !HasRoom(p, oi)
  }

  /** No character directive met at a full buffer is followed by a directive that takes an argument. */
  predicate InStep(p: Program, i: nat, k: nat, oi: nat)
    decreases |p.fmt| - i
  {
    i < |p.fmt| ==>
      var item := ItemAt(p, i, k, HasRoom(p, oi));
      if SkipsArgument(p, i, oi) then !TakesLater(p, item.next)
      else item.ends || InStep(p, item.next, k + item.used, oi + |item.text|)
  }

  /** What an item is, whichever argument it has: only its text depends on that, and not at all if it takes none. */
  lemma {:induction false} ItemShape(p: Program, i: nat, k: nat, l: nat, room: bool)
    requires i < |p.fmt|
    ensures var a, b := ItemAt(p, i, k, room), ItemAt(p, i, l, room);
            a.next == b.next && a.used == b.used && a.ends == b.ends && (a.used == 0 ==> |a.text| == |b.text|)
    ensures var a, b := ItemAt(p, i, k, room), ItemAt(p, i, k, true);
            && a.next == b.next && a.text == b.text && a.ends == b.ends
            && b.used == if p.fmt[i] == PERCENT && ParseDirective(p.fmt, i + 1).conv == 'c' as int then 1 else a.used
  {
    hide ParseDirective, IntegerText, TextArg, Stored;
  }

  /** Once the count of arguments has fallen behind, with the buffer full, only directives that take none are right. */
  lemma {:induction false} BehindIff(p: Program, i: nat, k: nat, own: nat, oi: nat)
    requires k < own && !HasRoom(p, oi)
    ensures OwnArguments(p, i, k, own, oi) <==> !TakesLater(p, i)
    decreases |p.fmt| - i
  {
    hide ItemAt;
    if i < |p.fmt| {
      var item := ItemAt(p, i, k, false);
      ItemShape(p, i, k, 0, false);
      if item.used == 0 && !item.ends {
        BehindIff(p, item.next, k, own + ItemAt(p, i, k, true).used, oi + |item.text|);
      }
    }
  }

  /** Every directive gets its own argument exactly when no argument skipped at a full buffer precedes a taken one. */
  lemma {:induction false} OwnArgumentsIff(p: Program, i: nat, k: nat, oi: nat)
    ensures OwnArguments(p, i, k, k, oi) <==> InStep(p, i, k, oi)
    decreases |p.fmt| - i
  {
    hide ItemAt, TakesLater;
    if i < |p.fmt| {
      var room := HasRoom(p, oi);
      var item := ItemAt(p, i, k, room);
      ItemShape(p, i, k, 0, room);
      SkippedTakesNone(p, i, k, oi);
      if SkipsArgument(p, i, oi) {
        BehindIff(p, item.next, k, k + 1, oi + |item.text|);
      } else if !item.ends {
        OwnArgumentsIff(p, item.next, k + item.used, oi + |item.text|);
      }
    }
  }

  lemma {:induction false} SkippedTakesNone(p: Program, i: nat, k: nat, oi: nat)
    requires i < |p.fmt|
    ensures var a, b := ItemAt(p, i, k, HasRoom(p, oi)), ItemAt(p, i, k, true);
            if SkipsArgument(p, i, oi) then a.used == 0 && b.used == 1 && !a.ends else b.used == a.used
  {
    hide ParseDirective, IntegerText, TextArg, Stored;
  }

  /** One item of the format, as it is put out, as it is meant and as it is judged. */
  lemma {:induction false} OneItem(p: Program, i: nat, k: nat, oi: nat)
    requires i < |p.fmt|
    ensures var item := ItemAt(p, i, k, HasRoom(p, oi)); var (k', oi') := (k + item.used, oi + |item.text|);
            && Produced(p, i, k, oi) == item.text + (if item.ends then [] else Produced(p, item.next, k', oi'))
            && (InStep(p, i, k, oi) <==>
                  if SkipsArgument(p, i, oi) then !TakesLater(p, item.next)
                  else item.ends || InStep(p, item.next, k', oi'))
    ensures var item := ItemAt(p, i, k, true);
            Expand(p, i, k) == item.text + (if item.ends then [] else Expand(p, item.next, k + item.used))
  {
    hide ItemAt, SkipsArgument, TakesLater, HasRoom;
  }

  lemma {:induction false} NoItem(p: Program, i: nat, k: nat, oi: nat)
    requires i >= |p.fmt|
    ensures Produced(p, i, k, oi) == Expand(p, i, k) == [] && InStep(p, i, k, oi)
  {
  }

  /** With the buffer full and no argument taken any more, only the length matters, and it is as specified. */
  lemma {:induction false} BehindLength(p: Program, i: nat, k: nat, own: nat, oi: nat)
    requires !HasRoom(p, oi) && !TakesLater(p, i)
    ensures |Produced(p, i, k, oi)| == |Expand(p, i, own)|
    decreases |p.fmt| - i
  {
    hide ItemAt, Produced, Expand, InStep, TakesLater, SkipsArgument;
    if i >= |p.fmt| {
      NoItem(p, i, k, oi);
      NoItem(p, i, own, oi);
    } else {
      OneItem(p, i, k, oi);
      OneItem(p, i, own, oi);
      NoneLater(p, i);
      var item := ItemAt(p, i, k, false);
      ItemShape(p, i, k, 0, false);
      ItemShape(p, i, k, own, false);
      ItemShape(p, i, own, 0, false);
      if !item.ends {
        BehindLength(p, item.next, k, own + ItemAt(p, i, own, true).used, oi + |item.text|);
      }
    }
  }

  lemma {:induction false} NoneLater(p: Program, i: nat)
    requires i < |p.fmt| && !TakesLater(p, i)
    ensures var item := ItemAt(p, i, 0, false); item.used == 0 && (item.ends || !TakesLater(p, item.next))
  {
    hide ItemAt;
  }

  /** If every directive gets its own argument, the output is the expansion as far as the buffer shows it. */
  lemma {:induction false} InStepProduces(p: Program, i: nat, k: nat, oi: nat)
    requires InStep(p, i, k, oi)
    ensures |Produced(p, i, k, oi)| == |Expand(p, i, k)|
    ensures Clip(Produced(p, i, k, oi), oi, p.cap) == Clip(Expand(p, i, k), oi, p.cap)
    decreases |p.fmt| - i
  {
    hide ItemAt, TakesLater, SkipsArgument, Clip, Produced, Expand, InStep, HasRoom;
    if i >= |p.fmt| {
      NoItem(p, i, k, oi);
    } else {
      OneItem(p, i, k, oi);
      var item := ItemAt(p, i, k, HasRoom(p, oi));
      ItemShape(p, i, k, 0, HasRoom(p, oi));
      SkippedTakesNone(p, i, k, oi);
      if SkipsArgument(p, i, oi) {
        SkippedFull(p, i, k, oi);
        BehindLength(p, item.next, k, k + 1, oi + |item.text|);
        FullClips(Produced(p, i, k, oi), oi, p.cap);
        FullClips(Expand(p, i, k), oi, p.cap);
      } else if !item.ends {
        var next := oi + |item.text|;
        InStepProduces(p, item.next, k + item.used, next);
        ClipsJoin(oi, p.cap, item.text, Produced(p, item.next, k + item.used, next));
        ClipsJoin(oi, p.cap, item.text, Expand(p, item.next, k + item.used));
      }
    }
  }

  lemma {:induction false} SkippedFull(p: Program, i: nat, k: nat, oi: nat)
    requires i < |p.fmt| && SkipsArgument(p, i, oi)
    ensures oi + 1 >= p.cap && !HasRoom(p, oi) && !HasRoom(p, oi + |ItemAt(p, i, k, false).text|)
  {
    hide ItemAt, ParseDirective;
  }

  lemma {:induction false} FullClips(t: Text, at: nat, cap: nat)
    requires at + 1 >= cap
    ensures Clip(t, at, cap) == []
  {
  }

  /** An expansion that fits catches no digit loop, skips no argument, and is what the interpreter puts out. */
  lemma {:induction false} FittingFinishes(p: Program, i: nat, k: nat, oi: nat)
    requires oi + |Expand(p, i, k)| < p.cap
    ensures Finishes(p, i, k, oi) && InStep(p, i, k, oi) && Produced(p, i, k, oi) == Expand(p, i, k)
    decreases |p.fmt| - i
  {
    hide ParseDirective, DirectiveItem, DirectiveFinishes, ItemAt, TakesLater, SkipsArgument, Produced, Expand, InStep;
    hide HasRoom;
    if i >= |p.fmt| {
      NoItem(p, i, k, oi);
    } else {
      OneItem(p, i, k, oi);
      var item := ItemAt(p, i, k, HasRoom(p, oi));
      ItemShape(p, i, k, 0, HasRoom(p, oi));
      SkippedTakesNone(p, i, k, oi);
      ItemFits(p, i, k, oi);
      if !item.ends {
        FittingFinishes(p, item.next, k + item.used, oi + |item.text|);
      }
    }
  }

  lemma {:induction false} ItemFits(p: Program, i: nat, k: nat, oi: nat)
    requires i < |p.fmt| && oi + |ItemAt(p, i, k, true).text| < p.cap
    ensures p.fmt[i] == PERCENT ==> DirectiveFinishes(ParseDirective(p.fmt, i + 1), p.env.args(k), oi, p.cap)
    ensures !SkipsArgument(p, i, oi)
  {
    hide ParseDirective, IntegerText, TextArg, Stored, DigitsOf;
    if p.fmt[i] == PERCENT {
      DigitsInside(ParseDirective(p.fmt, i + 1), p.env.args(k));
    }
  }

  /** The text an argument stands for. */
  function TextAt(env: Env, k: nat, wide: bool): Text {
    if env.args(k) == 0 then NULL_TEXT else env.texts(env.args(k), wide)
  }

  /** The text directive at the end of "%c%s". */
  lemma {:induction false} LastText(p: Program, k: nat, oi: nat)
    requires p.fmt == [PERCENT, 'c' as int, PERCENT, 's' as int]
    ensures TakesLater(p, 2) && Finishes(p, 2, k, oi)
    ensures |Produced(p, 2, k, oi)| == |TextAt(p.env, k, p.wide)| == |Expand(p, 2, k)|
  {
    hide ParseDirective;
    PlainDirective(p.fmt, 3);
    assert Produced(p, 4, k + 1, oi + |TextAt(p.env, k, p.wide)|) == [];
  }

  /** With room for nothing, "%c%s" hands the character's argument to the text directive. */
  lemma {:induction false} SkippedArgument(env: Env, wide: bool)
    ensures var p := Program([PERCENT, 'c' as int, PERCENT, 's' as int], env, wide, 1);
            && Finishes(p, 0, 0, 0) && !InStep(p, 0, 0, 0) && !OwnArguments(p, 0, 0, 0, 0)
            && |Produced(p, 0, 0, 0)| == 1 + |TextAt(env, 0, wide)| && |Expand(p, 0, 0)| == 1 + |TextAt(env, 1, wide)|
  {
    hide ParseDirective, TakesLater, OwnArguments;
    var p := Program([PERCENT, 'c' as int, PERCENT, 's' as int], env, wide, 1);
    PlainDirective(p.fmt, 1);
    LastText(p, 0, 1);
    LastText(p, 1, 1);
    OwnArgumentsIff(p, 0, 0, 0);
  }

  // ---- formats piece by piece ---------------------------------------------

  lemma {:induction false} FigureIs(d: nat, upper: bool)
    requires d < 16
    ensures DigitChar(d, upper) == P.Figure(d, upper)
    ensures d < 10 ==> P.Figure(d, upper) == ZERO + d
  {
  }

  lemma {:induction false} NumeralIs(v: nat, base: nat, upper: bool)
    requires 2 <= base <= 16
    ensures Digits(v, base, upper) == P.Numeral(v, base, upper)
    decreases v
  {
    hide DigitChar, P.Figure;
    QuotientRemainder(v, base);
    FigureIs(v % base, upper);
    if v < base {
      SmallQuotient(v, base);
      assert [] + [P.Figure(v, upper)] == [P.Figure(v, upper)];
    } else {
      QuotientFacts(v, base);
      NumeralIs(v / base, base, upper);
    }
  }

  /** A numeral other than 0 has decimal figures, the first of them not 0. */
  lemma {:induction false} NumeralStarts(v: nat)
    requires v > 0
    ensures ZERO < P.Numeral(v, 10, false)[0] <= '9' as int
  {
    hide P.Figure;
    FigureIs(v % 10, false);
    if v >= 10 {
      NumeralStarts(v / 10);
    }
  }

  lemma {:induction false} WidthFolds(fmt: Text, i: nat, v: nat)
    requires var n := P.Numeral(v, 10, false); i + |n| <= |fmt| && fmt[i..i + |n|] == n
    ensures ParseWidth(fmt, i, 0) == ParseWidth(fmt, i + |P.Numeral(v, 10, false)|, v)
    decreases v
  {
    hide P.Numeral, ParseWidth;
    var n := P.Numeral(v, 10, false);
    var q, d := NumeralEnds(v);
    var m := if v < 10 then [] else P.Numeral(q, 10, false);
    var last := i + |m|;
    assert n[|m|] == ZERO + d;
    assert UnitAt(fmt, last) == fmt[i..i + |n|][|m|];
    if v >= 10 {
      assert fmt[i..last] == fmt[i..i + |n|][..|m|] == m;
      WidthFolds(fmt, i, q);
    }
    WidthStep(fmt, last, q, d);
  }

  /** The last figure of a numeral, behind the numeral of a tenth. */
  lemma {:induction false} NumeralEnds(v: nat) returns (q: nat, d: nat)
    ensures d < 10 && v == 10 * q + d && (v < 10 ==> q == 0) && (v >= 10 ==> q < v)
    ensures P.Numeral(v, 10, false) == (if v < 10 then [] else P.Numeral(q, 10, false)) + [ZERO + d]
  {
    hide P.Figure;
    q, d := v / 10, v % 10;
    FigureIs(d, false);
  }

  lemma {:induction false} WidthStep(fmt: Text, i: nat, width: nat, d: nat)
    requires d < 10 && UnitAt(fmt, i) == ZERO + d
    ensures ParseWidth(fmt, i, width) == ParseWidth(fmt, i + 1, width * 10 + d)
  {
  }

  lemma {:induction false} FlagsRead(fmt: Text, i: nat, flags: Text, zero: bool, left: bool)
    requires i + |flags| <= |fmt| && fmt[i..i + |flags|] == flags && UnitAt(fmt, i + |flags|) !in {ZERO, MINUS}
    requires forall f :: f in flags ==> f == ZERO || f == MINUS
    ensures ParseFlags(fmt, i, zero, left) == (zero || ZERO in flags, left || MINUS in flags, i + |flags|)
    decreases |flags|
  {
    if flags != [] {
      assert UnitAt(fmt, i) == fmt[i..i + |flags|][0] == flags[0];
      assert fmt[i + 1..i + 1 + |flags[1..]|] == fmt[i..i + |flags|][1..] == flags[1..];
      var (first, rest) := (flags[0], flags[1..]);
      assert flags == [first] + rest;
      forall f | f in rest ensures f == ZERO || f == MINUS {
        assert f in flags;
      }
      assert first in flags;
      FlagsRead(fmt, i + 1, rest, zero || first == ZERO, left || first == MINUS);
    }
  }

  function LengthOf(size: P.Size): nat {
    match size
    case Normal => 0
    case Short => 1
    case Long => 2
    case LongLong => 3
  }

  lemma {:induction false} LengthReads(fmt: Text, i: nat, w: bool, size: P.Size)
    requires var m := P.Modifiers(w, size);
             i + |m| <= |fmt| && fmt[i..i + |m|] == m && UnitAt(fmt, i + |m|) !in {'h' as int, 'l' as int, 'w' as int}
    ensures ParseLength(fmt, i, 0) == (LengthOf(size), i + |P.Modifiers(w, size)|)
  {
    hide ParseLength, P.SizeText;
    var (m, n) := (P.Modifiers(w, size), P.SizeText(size));
    if w {
      assert UnitAt(fmt, i) == fmt[i..i + |m|][0] == m[0] == 'w' as int;
      assert fmt[i + 1..i + 1 + |n|] == fmt[i..i + |m|][1..] == n;
      LengthStep(fmt, i, 0);
      SizeReads(fmt, i + 1, size);
    } else {
      assert m == n;
      SizeReads(fmt, i, size);
    }
  }

  lemma {:induction false} SizeReads(fmt: Text, i: nat, size: P.Size)
    requires var n := P.SizeText(size);
             i + |n| <= |fmt| && fmt[i..i + |n|] == n && UnitAt(fmt, i + |n|) !in {'h' as int, 'l' as int, 'w' as int}
    ensures ParseLength(fmt, i, 0) == (LengthOf(size), i + |P.SizeText(size)|)
  {
    hide ParseLength;
    var n := P.SizeText(size);
    LengthStep(fmt, i, 0);
    match size
    case Normal =>
    case Short =>
      assert UnitAt(fmt, i) == fmt[i..i + |n|][0] == 'h' as int;
      LengthStep(fmt, i + 1, 1);
    case Long =>
      assert UnitAt(fmt, i) == fmt[i..i + |n|][0] == 'l' as int;
      LengthStep(fmt, i + 1, 2);
    case LongLong =>
      assert UnitAt(fmt, i) == fmt[i..i + |n|][0] == 'l' as int;
      assert UnitAt(fmt, i + 1) == fmt[i..i + |n|][1] == 'l' as int;
      LengthStep(fmt, i + 1, 2);
      LengthStep(fmt, i + 2, 3);
  }

  lemma {:induction false} LengthStep(fmt: Text, i: nat, length: nat)
    ensures var c := UnitAt(fmt, i);
            ParseLength(fmt, i, length)
            == if c == 'h' as int then ParseLength(fmt, i + 1, 1)
               else if c == 'l' as int then ParseLength(fmt, i + 1, if length == 2 then 3 else 2)
               else if c == 'w' as int then ParseLength(fmt, i + 1, length)
               else (length, i)
  {
  }

  /** The directive behind the percent sign of a conversion. */
  function DirectiveOf(c: P.Piece, next: nat): Directive
    requires c.Conversion?
  {
    Directive(ZERO in c.flags, MINUS in c.flags, c.width, LengthOf(c.size), c.letter, next)
  }

  /** Where the parts of a conversion stand. */
  lemma {:induction false} PartsAt(fmt: Text, i: nat, a: Text, b: Text, c: Text, letter: U16)
    requires i + |a| + |b| + |c| + 1 <= |fmt| && fmt[i..i + |a| + |b| + |c| + 1] == a + b + c + [letter]
    ensures var (j, k) := (i + |a|, i + |a| + |b|);
            fmt[i..j] == a && fmt[j..k] == b && fmt[k..k + |c|] == c && fmt[k + |c|] == letter
  {
    var (t, n) := (a + b + c + [letter], |a| + |b| + |c| + 1);
    assert t[0..|a|] == a && t[|a|..|a| + |b|] == b && t[|a| + |b|..n - 1] == c && t[n - 1] == letter;
    SliceOfSlice(fmt, i, i + n, 0, |a|);
    SliceOfSlice(fmt, i, i + n, |a|, |a| + |b|);
    SliceOfSlice(fmt, i, i + n, |a| + |b|, n - 1);
    assert fmt[i..i + n][n - 1] == fmt[i + n - 1];
  }

  /** A conversion is read as it is written. */
  lemma {:induction false} DirectiveReads(fmt: Text, i: nat, c: P.Piece, wide: bool)
    requires c.Conversion? && P.Sound(c, wide)
    requires var n := |P.Spelling(c)|; i + n <= |fmt| && fmt[i..i + n] == P.Spelling(c)
    ensures fmt[i] == PERCENT
    ensures ParseDirective(fmt, i + 1) == DirectiveOf(c, i + |P.Spelling(c)|)
  {
    hide ParseFlags, ParseWidth, ParseLength, P.WidthText, P.Modifiers, P.Sound, UnitAt;
    var (a, b, m) := (c.flags, P.WidthText(c.width), P.Modifiers(c.w, c.size));
    var n := |P.Spelling(c)|;
    SpellingParts(fmt, i, c);
    PartsAt(fmt, i + 1, a, b, m, c.letter);
    var (i1, i2, i3) := (i + 1 + |a|, i + 1 + |a| + |b|, i + n - 1);
    ModifiersStart(fmt, i2, c, wide);
    WidthReads(fmt, i1, c.width);
    SoundFlags(c, wide);
    FlagsRead(fmt, i + 1, a, false, false);
    LengthReads(fmt, i2, c.w, c.size);
    assert UnitAt(fmt, i3) == c.letter by { UnitInside(fmt, i3); }
  }

  lemma {:induction false} UnitInside(fmt: Text, i: nat)
    requires i < |fmt|
    ensures UnitAt(fmt, i) == fmt[i]
  {
  }

  lemma {:induction false} SoundFlags(c: P.Piece, wide: bool)
    requires c.Conversion? && P.Sound(c, wide)
    ensures forall f :: f in c.flags ==> f == ZERO || f == MINUS
  {
  }

  lemma {:induction false} SpellingParts(fmt: Text, i: nat, c: P.Piece)
    requires c.Conversion?
    requires var n := |P.Spelling(c)|; i + n <= |fmt| && fmt[i..i + n] == P.Spelling(c)
    ensures fmt[i] == PERCENT
    ensures var n := |P.Spelling(c)|;
            && n == 2 + |c.flags| + |P.WidthText(c.width)| + |P.Modifiers(c.w, c.size)|
            && fmt[i + 1..i + n] == c.flags + P.WidthText(c.width) + P.Modifiers(c.w, c.size) + [c.letter]
  {
    hide P.WidthText, P.Modifiers;
    var n := |P.Spelling(c)|;
    assert fmt[i] == fmt[i..i + n][0];
    assert fmt[i + 1..i + n] == fmt[i..i + n][1..];
  }

  /** A width is read to its end, and does not start like a flag. */
  lemma {:induction false} WidthReads(fmt: Text, i: nat, width: nat)
    requires var n := |P.WidthText(width)|;
             && i + n <= |fmt| && fmt[i..i + n] == P.WidthText(width)
             && !IsDecimal(UnitAt(fmt, i + n)) && UnitAt(fmt, i + n) != MINUS
    ensures ParseWidth(fmt, i, 0) == (width, i + |P.WidthText(width)|)
    ensures UnitAt(fmt, i) !in {ZERO, MINUS}
  {
    hide ParseWidth, P.Numeral;
    var n := |P.WidthText(width)|;
    if width > 0 {
      NumeralStarts(width);
      assert UnitAt(fmt, i) == fmt[i..i + n][0];
      WidthFolds(fmt, i, width);
    }
    WidthStops(fmt, i + n, width);
  }

  lemma {:induction false} WidthStops(fmt: Text, i: nat, width: nat)
    requires !IsDecimal(UnitAt(fmt, i))
    ensures ParseWidth(fmt, i, width) == (width, i)
  {
  }

  lemma {:induction false} ModifiersStart(fmt: Text, i: nat, c: P.Piece, wide: bool)
    requires c.Conversion? && P.Sound(c, wide)
    requires var m := P.Modifiers(c.w, c.size); i + |m| < |fmt| && fmt[i..i + |m|] == m && fmt[i + |m|] == c.letter
    ensures !IsDecimal(UnitAt(fmt, i)) && UnitAt(fmt, i) != MINUS
    ensures UnitAt(fmt, i + |P.Modifiers(c.w, c.size)|) !in {'h' as int, 'l' as int, 'w' as int}
  {
    var m := P.Modifiers(c.w, c.size);
    if m != [] {
      assert fmt[i] == fmt[i..i + |m|][0] == m[0];
    }
  }

  lemma {:induction false} FillIs(c: U16, n: int)
    ensures Repeat(c, n) == P.Fill(c, n)
  {
    if n > 0 {
      FillIs(c, n - 1);
      assert Repeat(c, n) == [c] + Repeat(c, n - 1);
    }
  }

  lemma {:induction false} SameNumber(a: int, b: int, slot: nat, range: int, signed: bool)
    requires range in {0x1_0000, 0x1_0000_0000, TWO64}
    requires Represents(a, slot, range, signed) && Represents(b, slot, range, signed)
    ensures a == b
  {
  }

  lemma {:induction false} ValueIs(d: Directive, c: P.Piece, slot: U64)
    requires c.Conversion? && IsInteger(d.conv) && d.conv == c.letter && d.length == LengthOf(c.size)
    ensures NumberOf(d, slot).Value() == P.ValueOf(c.letter, c.size, slot)
  {
    hide NumberOf;
    NumberIs(d, slot);
    ValueRepresents(d, c, slot);
    SameNumber(NumberOf(d, slot).Value(), P.ValueOf(c.letter, c.size, slot), slot, RangeOf(d), IsSigned(d.conv));
  }

  lemma {:induction false} ValueRepresents(d: Directive, c: P.Piece, slot: U64)
    requires c.Conversion? && IsInteger(d.conv) && d.conv == c.letter && d.length == LengthOf(c.size)
    ensures Represents(P.ValueOf(c.letter, c.size, slot), slot, RangeOf(d), IsSigned(d.conv))
  {
  }

  lemma {:induction false} NumberTextIs(d: Directive, c: P.Piece, slot: U64)
    requires c.Conversion? && P.IsNumber(c.letter) && d == DirectiveOf(c, d.next)
    ensures IntegerText(d, slot) == P.NumberText(c.flags, c.width, c.size, c.letter, slot)
  {
    hide NumberOf, P.ValueOf, Digits, P.Numeral, Repeat, P.Fill;
    var n := NumberOf(d, slot);
    ValueIs(d, c, slot);
    NumberForm(d, slot);
    NumeralIs(n.magnitude, n.base, n.upper);
    var pad := WidthOf(d) - |Digits(n.magnitude, n.base, n.upper)| - |n.Sign()|;
    FillIs(SPACE, pad);
    FillIs(ZERO, pad);
  }

  lemma {:induction false} NumberForm(d: Directive, slot: U64)
    requires IsInteger(d.conv)
    ensures var n := NumberOf(d, slot);
            && n.base == (if d.conv in {'d' as int, 'i' as int, 'u' as int} then 10 else 16)
            && n.upper == (d.conv == 'X' as int) && (n.negative <==> n.Value() < 0)
  {
  }

  /** An item of the format is what its piece is meant to print. */
  lemma {:induction false} PieceItem(p: Program, i: nat, k: nat, c: P.Piece)
    requires P.Sound(c, p.wide)
    requires var n := |P.Spelling(c)|; i + n <= |p.fmt| && p.fmt[i..i + n] == P.Spelling(c)
    ensures ItemAt(p, i, k, true)
            == Item(P.PieceText(c, p.env.args(k), p.env.texts, p.wide), i + |P.Spelling(c)|, P.Takes(c), false)
  {
    hide ParseDirective, IntegerText, P.NumberText;
    var slot := p.env.args(k);
    assert p.fmt[i] == p.fmt[i..i + |P.Spelling(c)|][0];
    if c.Conversion? {
      DirectiveReads(p.fmt, i, c, p.wide);
      var d := ParseDirective(p.fmt, i + 1);
      if P.IsNumber(c.letter) {
        NumberTextIs(d, c, slot);
      } else {
        OtherItem(d, c, slot, p.env, p.wide);
      }
    }
  }

  lemma {:induction false} OtherItem(d: Directive, c: P.Piece, slot: U64, env: Env, wide: bool)
    requires c.Conversion? && P.Sound(c, wide) && !P.IsNumber(c.letter) && d == DirectiveOf(c, d.next)
    ensures DirectiveItem(d, slot, env, wide, true)
            == Item(P.PieceText(c, slot, env.texts, wide), d.next, P.Takes(c), false)
  {
    hide IntegerText, StoredText, TextArg, Stored, P.NumberText, P.Cut, P.Sound;
    UnitStored(c, slot, wide);
    if IsText(d.conv) {
      TextStored(d, slot, env, wide);
    }
  }

  lemma {:induction false} UnitStored(c: P.Piece, slot: U64, wide: bool)
    requires c.Conversion? && P.Sound(c, wide)
    ensures Stored(c.letter, wide) == c.letter && c.letter != 0
    ensures Stored(slot % 0x1_0000_0000, wide) == if wide then slot % 0x1_0000 else slot % 0x100
  {
    LowParts(slot);
  }

  lemma {:induction false} LowParts(x: nat)
    ensures x % 0x1_0000_0000 % 0x1_0000 == x % 0x1_0000 && x % 0x1_0000_0000 % 0x100 == x % 0x100
  {
    var (q, r) := (x / 0x1_0000_0000, x % 0x1_0000_0000);
    assert x == r + 0x1_0000 * (0x1_0000 * q) && x == r + 0x100 * (0x100_0000 * q);
    Dropped16(r, 0x1_0000 * q);
    Dropped8(r, 0x100_0000 * q);
  }

  lemma {:induction false} Dropped16(r: nat, k: nat)
    ensures (r + 0x1_0000 * k) % 0x1_0000 == r % 0x1_0000
  {
  }

  lemma {:induction false} Dropped8(r: nat, k: nat)
    ensures (r + 0x100 * k) % 0x100 == r % 0x100
  {
  }

  lemma {:induction false} TextStored(d: Directive, slot: U64, env: Env, wide: bool)
    requires IsText(d.conv)
    ensures StoredText(TextArg(d, slot, env, wide), wide)
            == if slot == 0 then P.NOTHING else P.Cut(env.texts(slot, wide == (d.conv == 's' as int)), wide)
  {
    var t := TextArg(d, slot, env, wide);
    if slot == 0 {
      NothingStored(wide);
    } else {
      assert StoredText(t, wide) == P.Cut(t, wide);
    }
  }

  lemma {:induction false} NothingStored(wide: bool)
    ensures StoredText(NULL_TEXT, wide) == P.NOTHING
  {
    var s := StoredText(NULL_TEXT, wide);
    assert |s| == 6 && s[0] == '(' as int && s[1] == 'n' as int && s[2] == 'u' as int;
    assert s[3] == 'l' as int && s[4] == 'l' as int && s[5] == ')' as int;
  }

  /** A format expands to what its pieces are meant to print. */
  lemma {:induction false} PiecesExpand(p: Program, i: nat, k: nat, pieces: seq<P.Piece>)
    requires P.AllSound(pieces, p.wide) && i <= |p.fmt| && p.fmt[i..] == P.Spelled(pieces)
    ensures Expand(p, i, k) == P.Meant(pieces, p.env.args, p.env.texts, p.wide, k)
    decreases |pieces|
  {
    hide ItemAt, P.Spelling, P.PieceText, P.Sound, P.Takes;
    if pieces != [] {
      var (c, rest) := (pieces[0], pieces[1..]);
      var n := |P.Spelling(c)|;
      assert p.fmt[i..i + n] == p.fmt[i..][..n] == P.Spelling(c);
      assert p.fmt[i + n..] == p.fmt[i..][n..] == P.Spelled(rest);
      assert p.fmt[i..] != [];
      PieceItem(p, i, k, c);
      PiecesExpand(p, i + n, k + P.Takes(c), rest);
    }
  }

  /** The switch on the conversion character; storing a character evaluates its argument only if there is room. */
  method PutDirective(out: array<U16>, cap: nat, oi: nat, d: Directive, slot: U64, env: Env, wide: bool)
    returns (next: nat, used: nat, ends: bool)
    requires cap <= out.Length && DirectiveFinishes(d, slot, oi, cap)
    modifies out
    ensures var item := DirectiveItem(d, slot, env, wide, oi + 1 < cap);
            && next == oi + |item.text| && used == item.used && ends == item.ends
            && out[..] == Written(old(out[..]), cap, oi, item.text)
  {
    hide Written, FieldText, Stored, NumberOf;
    ghost var before := out[..];
    WrittenNothing(before, cap, oi);
    next, used, ends := oi, 0, false;
    if IsInteger(d.conv) {
      next := PutField(out, cap, oi, NumberOf(d, slot), WidthOf(d), d.zero || d.conv == 'p' as int, d.left);
      used := 1;
    } else if d.conv == 'c' as int {
      if cap != 0 && oi + 1 < cap {
        used := 1;
      }
      next := Put(out, cap, oi, Stored(slot % 0x1_0000_0000, wide));
    } else if IsText(d.conv) {
      next := PutText(out, cap, oi, TextArg(d, slot, env, wide), wide);
      used := 1;
    } else if d.conv == PERCENT {
      next := Put(out, cap, oi, PERCENT);
    } else if d.conv == 0 {
      ends := true;
    } else {
      WrittenOn(before, cap, oi, [PERCENT], [Stored(d.conv, wide)]);
      assert [PERCENT] + [Stored(d.conv, wide)] == [PERCENT, Stored(d.conv, wide)];
      next := Put(out, cap, oi, PERCENT);
      next := Put(out, cap, next, Stored(d.conv, wide));
    }
  }

  /** The directive after a percent sign, its parts read by three loops. */
  method ReadDirective(fmt: Text, start: nat) returns (d: Directive)
    requires 0 !in fmt
    ensures d == ParseDirective(fmt, start)
  {
    var zero, left, i1 := ReadFlags(fmt, start);
    var width, i2 := ReadWidth(fmt, i1);
    var length, i3 := ReadLength(fmt, i2);
    var conv := UnitAt(fmt, i3);
    d := Directive(zero, left, width, length, conv, if conv != 0 then i3 + 1 else i3);
  }

  /** `s` after the format: what fits of the expansion, then the terminator. */
  function Formatted(s: seq<U16>, cap: nat, text: Text): (r: seq<U16>)
    requires cap <= |s|
    ensures |r| == |s|
  {
    var w := Written(s, cap, 0, text);
    if cap == 0 then w else w[if |text| < cap then |text| else cap - 1 := 0]
  }

  /** An expansion with room for its terminator is written whole; a longer one is cut to end in the last unit. */
  lemma {:induction false} FormattedText(s: seq<U16>, cap: nat, text: Text)
    requires 0 < cap <= |s|
    ensures var kept := if |text| < cap then text else text[..cap - 1];
            Formatted(s, cap, text) == kept + [0] + s[|kept| + 1..]
  {
    hide Clip;
    var kept := if |text| < cap then text else text[..cap - 1];
    assert Clip(text, 0, cap) == kept by { ClipIs(text, cap); }
    assert s[..0] + kept == kept;
    var w := kept + s[|kept|..];
    assert Written(s, cap, 0, text) == w;
    assert w[|kept| := 0] == kept + [0] + s[|kept| + 1..];
  }

  lemma {:induction false} ClipIs(text: Text, cap: nat)
    requires cap > 0
    ensures Clip(text, 0, cap) == if |text| < cap then text else text[..cap - 1]
  {
    if |text| < cap {
      assert Clip(text, 0, cap) == text;
    } else if cap == 1 {
      assert Clip(text, 0, cap) == [];
    }
  }

  /** One turn of the main loop: a character, or a directive. */
  method PutItem(out: array<U16>, p: Program, oi: nat, fi: nat, k: nat)
    returns (next: nat, after: nat, used: nat, ends: bool)
    requires p.cap <= out.Length && 0 !in p.fmt && fi < |p.fmt|
    requires p.fmt[fi] == PERCENT ==> DirectiveFinishes(ParseDirective(p.fmt, fi + 1), p.env.args(k), oi, p.cap)
    modifies out
    ensures var item := ItemAt(p, fi, k, HasRoom(p, oi));
            && next == oi + |item.text| && after == item.next && used == item.used && ends == item.ends
            && out[..] == Written(old(out[..]), p.cap, oi, item.text)
  {
    hide Written, ParseDirective, DirectiveItem, DirectiveFinishes, Stored;
    var c := p.fmt[fi];
    after := fi + 1;
    used, ends := 0, false;
    if c != PERCENT {
      next := Put(out, p.cap, oi, Stored(c, p.wide));
    } else {
      var d := ReadDirective(p.fmt, after);
      next, used, ends := PutDirective(out, p.cap, oi, d, p.env.args(k), p.env, p.wide);
      after := d.next;
      ItemNext(d, p.env.args(k), p.env, p.wide, HasRoom(p, oi));
    }
  }

  lemma {:induction false} ItemNext(d: Directive, slot: U64, env: Env, wide: bool, room: bool)
    ensures DirectiveItem(d, slot, env, wide, room).next == d.next
  {
    hide NumberOf, FieldText;
  }

  lemma {:induction false} ItemFirst(p: Program, i: nat, k: nat, oi: nat)
    requires i < |p.fmt| && Finishes(p, i, k, oi)
    ensures var item := ItemAt(p, i, k, HasRoom(p, oi));
            && Produced(p, i, k, oi)
               == item.text + (if item.ends then [] else Produced(p, item.next, k + item.used, oi + |item.text|))
            && (p.fmt[i] == PERCENT ==> DirectiveFinishes(ParseDirective(p.fmt, i + 1), p.env.args(k), oi, p.cap))
            && (item.ends || Finishes(p, item.next, k + item.used, oi + |item.text|))
  {
    hide ItemAt, ParseDirective, DirectiveFinishes;
  }

  lemma {:induction false} NothingLeft(p: Program, i: nat, k: nat, oi: nat)
    ensures i >= |p.fmt| ==> Produced(p, i, k, oi) == []
  {
    hide ItemAt;
  }

  lemma {:induction false} FormattedSame(s: seq<U16>, cap: nat, a: Text, b: Text)
    requires cap <= |s| && |a| == |b| && Clip(a, 0, cap) == Clip(b, 0, cap)
    ensures Formatted(s, cap, a) == Formatted(s, cap, b)
  {
  }

  lemma {:induction false} FormattedEnd(s: seq<U16>, cap: nat, text: Text, r: seq<U16>)
    requires cap <= |s| == |r|
    requires var w := Written(s, cap, 0, text);
             r == if cap == 0 then w else w[if |text| < cap then |text| else cap - 1 := 0]
    ensures r == Formatted(s, cap, text)
  {
  }

  /** A text without a percent sign that fits is put out as it is. */
  lemma {:induction false} PlainText(p: Program)
    requires 0 !in p.fmt && PERCENT !in p.fmt && |p.fmt| < p.cap && (p.wide || forall c :: c in p.fmt ==> c < 0x100)
    ensures Produced(p, 0, 0, 0) == p.fmt
  {
    hide ItemAt, Expand, Produced, Finishes, InStep;
    var pieces := P.Literals(p.fmt);
    P.LiteralsAre(p.fmt, p.wide, p.env.args, p.env.texts, 0);
    assert p.fmt[0..] == p.fmt;
    PiecesExpand(p, 0, 0, pieces);
    FittingFinishes(p, 0, 0, 0);
  }

  /** The buffer `after` is `before` with `t` and a terminator, cut to end in the last unit; `t` has that length. */
  predicate Holds(before: seq<U16>, cap: nat, t: Text, after: seq<U16>, length: int)
    requires cap <= |before|
  {
    && (|t| < cap ==> after == t + [0] + before[|t| + 1..])
    && (0 < cap <= |t| ==> after == t[..cap - 1] + [0] + before[cap..])
    && (cap == 0 ==> after == before)
    && (|t| < 0x8000_0000 ==> length == |t|)
  }

  lemma {:induction false} FormattedHolds(before: seq<U16>, cap: nat, t: Text, length: int)
    requires cap <= |before| && length == Signed(|t| % 0x1_0000_0000, 0x1_0000_0000)
    ensures Holds(before, cap, t, Formatted(before, cap, t), length)
  {
    if cap > 0 {
      hide Formatted;
      FormattedText(before, cap, t);
    }
  }

  /** Pieces that fit catch no digit loop and skip no argument. */
  lemma {:induction false} FittingPieces(p: Program, pieces: seq<P.Piece>)
    requires p.fmt == P.Spelled(pieces) && P.AllSound(pieces, p.wide)
    ensures var t := P.Meant(pieces, p.env.args, p.env.texts, p.wide, 0);
            t == Expand(p, 0, 0) && (|t| < p.cap ==> Finishes(p, 0, 0, 0) && InStep(p, 0, 0, 0))
  {
    hide Expand, InStep, Finishes, Produced, P.Spelled, P.AllSound, P.Meant;
    assert p.fmt[0..] == p.fmt;
    PiecesExpand(p, 0, 0, pieces);
    if |Expand(p, 0, 0)| < p.cap {
      FittingFinishes(p, 0, 0, 0);
    }
  }

  /** What a buffer and length that show what was put out say about the format's expansion and pieces. */
  lemma {:induction false} FormatOutcome(p: Program, before: seq<U16>, after: seq<U16>, length: int)
    requires p.cap <= |before| && 0 !in p.fmt && after == Formatted(before, p.cap, Produced(p, 0, 0, 0))
    requires length == Signed(|Produced(p, 0, 0, 0)| % 0x1_0000_0000, 0x1_0000_0000)
    ensures InStep(p, 0, 0, 0) ==>
              && after == Formatted(before, p.cap, Expand(p, 0, 0))
              && length == Signed(|Expand(p, 0, 0)| % 0x1_0000_0000, 0x1_0000_0000)
    ensures forall pieces :: p.fmt == P.Spelled(pieces) && P.AllSound(pieces, p.wide) ==>
              var t := P.Meant(pieces, p.env.args, p.env.texts, p.wide, 0);
              |t| < p.cap || InStep(p, 0, 0, 0) ==> Holds(before, p.cap, t, after, length)
    ensures PERCENT !in p.fmt && |p.fmt| < p.cap && (p.wide || forall c :: c in p.fmt ==> c < 0x100) ==>
              Holds(before, p.cap, p.fmt, after, length)
  {
    hide Expand, Produced, InStep, Formatted, P.Spelled, P.AllSound, P.Meant, Holds;
    FormattedHolds(before, p.cap, Produced(p, 0, 0, 0), length);
    if InStep(p, 0, 0, 0) {
      InStepProduces(p, 0, 0, 0);
      FormattedSame(before, p.cap, Produced(p, 0, 0, 0), Expand(p, 0, 0));
      FormattedHolds(before, p.cap, Expand(p, 0, 0), length);
    }
    forall pieces | p.fmt == P.Spelled(pieces) && P.AllSound(pieces, p.wide)
      ensures var t := P.Meant(pieces, p.env.args, p.env.texts, p.wide, 0);
              t == Expand(p, 0, 0) && (|t| < p.cap ==> InStep(p, 0, 0, 0))
    {
      FittingPieces(p, pieces);
    }
    if PERCENT !in p.fmt && |p.fmt| < p.cap && (p.wide || forall c :: c in p.fmt ==> c < 0x100) {
      PlainText(p);
    }
  }

  /**
   Writes what the format puts out and its terminator, and returns the length of it all. That is the format's
   expansion if no argument skipped at a full buffer is followed by one that is taken.
   */
  method VfmtCore(out: array<U16>, cap: U64, fmt: Text, env: Env, wide: bool) returns (length: int)
    requires cap <= out.Length && 0 !in fmt
    requires Finishes(Program(fmt, env, wide, cap), 0, 0, 0)
    modifies out
    ensures var p := Program(fmt, env, wide, cap);
            && out[..] == Formatted(old(out[..]), cap, Produced(p, 0, 0, 0))
            && length == Signed(|Produced(p, 0, 0, 0)| % 0x1_0000_0000, 0x1_0000_0000)
    ensures var p := Program(fmt, env, wide, cap);
            InStep(p, 0, 0, 0) ==>
              && out[..] == Formatted(old(out[..]), cap, Expand(p, 0, 0))
              && length == Signed(|Expand(p, 0, 0)| % 0x1_0000_0000, 0x1_0000_0000)
    ensures forall pieces :: fmt == P.Spelled(pieces) && P.AllSound(pieces, wide) ==>
              var t := P.Meant(pieces, env.args, env.texts, wide, 0);
              |t| < cap || InStep(Program(fmt, env, wide, cap), 0, 0, 0) ==>
                Holds(old(out[..]), cap, t, out[..], length)
    ensures PERCENT !in fmt && |fmt| < cap && (wide || forall c :: c in fmt ==> c < 0x100) ==>
              Holds(old(out[..]), cap, fmt, out[..], length)
  {
    hide Written, ParseDirective, DirectiveItem, DirectiveFinishes, ItemAt, Expand, Finishes, Produced, InStep;
    hide Formatted, P.Spelled, P.AllSound, P.Meant, Holds;
    var p := Program(fmt, env, wide, cap);
    ghost var before := out[..];
    ghost var whole := Produced(p, 0, 0, 0);
    ghost var done: Text := [];
    WrittenNothing(before, cap, 0);
    assert done + whole == whole;
    var oi: nat, fi: nat, k: nat := 0, 0, 0;
    var ends := false;
    while fi < |fmt| && !ends
      invariant oi == |done| && out[..] == Written(before, cap, 0, done)
      invariant ends ==> done == whole
      invariant !ends ==> done + Produced(p, fi, k, oi) == whole && Finishes(p, fi, k, oi)
      decreases |fmt| - fi, if ends then 0 else 1
    {
      ghost var item := ItemAt(p, fi, k, HasRoom(p, oi));
      ItemFirst(p, fi, k, oi);
      WrittenOn(before, cap, 0, done, item.text);
      ghost var rest := if item.ends then [] else Produced(p, item.next, k + item.used, oi + |item.text|);
      Assoc(done, item.text, rest);
      var used: nat;
      oi, fi, used, ends := PutItem(out, p, oi, fi, k);
      k, done := k + used, done + item.text;
    }
    NothingLeft(p, fi, k, oi);
    assert done + [] == done;
    if cap > 0 {
      out[if oi < cap then oi else cap - 1] := 0;
    }
    FormattedEnd(before, cap, whole, out[..]);
    length := Signed(oi % 0x1_0000_0000, 0x1_0000_0000);
    FormatOutcome(p, before, out[..], length);
  }
}
