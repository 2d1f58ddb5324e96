/** Formats as they are written, piece by piece, and what each piece is meant to print. */
module FormatPieces {
  import opened Words

  type Text = seq<U16>

  datatype Size = Normal | Short | Long | LongLong

  /** A character that stands for itself, or a conversion: flags, width (0 for none), a w, a size, the letter. */
  datatype Piece =
    | Literal(c: U16)
    | Conversion(flags: Text, width: nat, w: bool, size: Size, letter: U16)

  /** No terminator inside, and nothing that another reading of the format would take for a flag, width or size. */
  predicate Sound(p: Piece, wide: bool) {
    match p
    case Literal(c) => c != 0 && c != '%' as int && (wide || c < 0x100)
    case Conversion(flags, _, _, _, letter) =>
      && (forall f :: f in flags ==> f == '0' as int || f == '-' as int)
      && !('0' as int <= letter <= '9' as int) && letter != '-' as int
      && letter !in {0, 'h' as int, 'l' as int, 'w' as int} && (wide || letter < 0x100)
  }

  predicate AllSound(pieces: seq<Piece>, wide: bool) {
    forall p :: p in pieces ==> Sound(p, wide)
  }

  const DIGITS: string := "0123456789abcdef"
  const CAPITALS: string := "0123456789ABCDEF"

  function Figure(d: nat, capitals: bool): (c: U16)
    requires d < 16
    ensures c == (if capitals then CAPITALS else DIGITS)[d] as int
  {
    (if capitals then CAPITALS else DIGITS)[d] as int
  }

  function Numeral(v: nat, base: nat, capitals: bool): (t: Text)
    requires 2 <= base <= 16
    ensures t != []
  {
    (if v < base then [] else Numeral(v / base, base, capitals)) + [Figure(v % base, capitals)]
  }

  function SizeText(size: Size): Text {
    match size
    case Normal => []
    case Short => ['h' as int]
    case Long => ['l' as int]
    case LongLong => ['l' as int, 'l' as int]
  }

  function Spelling(p: Piece): (t: Text)
    ensures t != []
  {
    match p
    case Literal(c) => [c]
    case Conversion(flags, width, w, size, letter) =>
      ['%' as int] + (flags + WidthText(width) + Modifiers(w, size) + [letter])
  }

  function WidthText(width: nat): Text {
    if width == 0 then [] else Numeral(width, 10, false)
  }

  function Modifiers(w: bool, size: Size): Text {
    (if w then ['w' as int] else []) + SizeText(size)
  }

  /** The whole format. */
  function Spelled(pieces: seq<Piece>): Text {
    if pieces == [] then [] else Spelling(pieces[0]) + Spelled(pieces[1..])
  }

  // ---- meaning ------------------------------------------------------------

  /** The argument as the conversion takes it: 16, 32 or 64 bits, signed for d and i. */
  function ValueOf(letter: U16, size: Size, slot: U64): int {
    var range := if letter == 'p' as int || size == LongLong then TWO64
                 else if size == Short then 0x1_0000 else 0x1_0000_0000;
    var v := slot % range;
    if (letter == 'd' as int || letter == 'i' as int) && 2 * v >= range then v - range else v
  }

  function Fill(c: U16, n: int): (t: Text)
    ensures |t| == if n > 0 then n else 0
  {
    if n <= 0 then [] else [c] + Fill(c, n - 1)
  }

  /** A number at the left of its field, or at the right behind spaces, or behind zeros that follow the sign. */
  function InField(sign: Text, digits: Text, width: nat, zero: bool, left: bool): Text {
    var gap := width - |sign| - |digits|;
    if left then sign + digits + Fill(' ' as int, gap)
    else if zero then sign + Fill('0' as int, gap) + digits
    else Fill(' ' as int, gap) + sign + digits
  }

  function NumberText(flags: Text, width: nat, size: Size, letter: U16, slot: U64): Text {
    var v := ValueOf(letter, size, slot);
    var base := if letter in {'d' as int, 'i' as int, 'u' as int} then 10 else 16;
    var (sign, size) := if v < 0 then (['-' as int], -v) else ([], v);
    var pointer := letter == 'p' as int;
    InField(sign, Numeral(size, base, letter == 'X' as int), if pointer then 16 else width,
            pointer || '0' as int in flags, '-' as int in flags)
  }

  const NOTHING: Text := ['(' as int, 'n' as int, 'u' as int, 'l' as int, 'l' as int, ')' as int]

  /** Characters as they end up in a narrow buffer: their low bytes. */
  function Cut(t: Text, wide: bool): (s: Text)
    ensures |s| == |t| && forall i :: 0 <= i < |t| ==> s[i] == if wide then t[i] else t[i] % 0x100
  {
    seq<U16>(|t|, (i: int) requires 0 <= i < |t| => if wide then t[i] else t[i] % 0x100)
  }

  predicate IsNumber(letter: U16) {
    letter in {'d' as int, 'i' as int, 'u' as int, 'x' as int, 'X' as int, 'p' as int}
  }

  /** s takes a text of the buffer's own width, S one of the other. */
  function PieceText(p: Piece, slot: U64, texts: (U64, bool) -> Text, wide: bool): Text {
    match p
    case Literal(c) => [c]
    case Conversion(flags, width, _, size, letter) =>
      if IsNumber(letter) then NumberText(flags, width, size, letter, slot)
      else if letter == '%' as int then ['%' as int]
      else if letter == 'c' as int then [if wide then slot % 0x1_0000 else slot % 0x100]
      else if letter != 's' as int && letter != 'S' as int then ['%' as int, letter]
      else if slot == 0 then NOTHING
      else Cut(texts(slot, wide == (letter == 's' as int)), wide)
  }

  /** How many arguments a piece takes. */
  function Takes(p: Piece): nat {
    if p.Conversion? && (IsNumber(p.letter) || p.letter in {'c' as int, 's' as int, 'S' as int}) then 1 else 0
  }

  /** What the pieces are meant to print, the next argument being the k-th. */
  function Meant(pieces: seq<Piece>, args: nat -> U64, texts: (U64, bool) -> Text, wide: bool, k: nat): Text
    decreases |pieces|
  {
    if pieces == [] then []
    else PieceText(pieces[0], args(k), texts, wide) + Meant(pieces[1..], args, texts, wide, k + Takes(pieces[0]))
  }

  // ---- plain text ---------------------------------------------------------

  function Literals(t: Text): seq<Piece> {
    seq<Piece>(|t|, (i: int) requires 0 <= i < |t| => Literal(t[i]))
  }

  /** A text of characters that stand for themselves is spelled as it is and means itself. */
  lemma {:induction false} LiteralsAre(t: Text, wide: bool, args: nat -> U64, texts: (U64, bool) -> Text, k: nat)
    requires 0 !in t && '%' as int !in t && (wide || forall c :: c in t ==> c < 0x100)
    ensures AllSound(Literals(t), wide) && Spelled(Literals(t)) == t == Meant(Literals(t), args, texts, wide, k)
  {
    hide Spelled, Meant;
    forall p | p in Literals(t) ensures Sound(p, wide) {
      assert p.c in t;
    }
    LiteralsSpell(t, wide, args, texts, k);
  }

  lemma {:induction false} LiteralsSpell(t: Text, wide: bool, args: nat -> U64, texts: (U64, bool) -> Text, k: nat)
    ensures Spelled(Literals(t)) == t == Meant(Literals(t), args, texts, wide, k)
  {
    if t != [] {
      var (first, rest) := (Literal(t[0]), Literals(t[1..]));
      hide Literals;
      LiteralsSplit(t);
      LiteralsSpell(t[1..], wide, args, texts, k);
      assert ([first] + rest)[1..] == rest;
      assert Spelling(first) == [t[0]] == PieceText(first, args(k), texts, wide);
      assert t == [t[0]] + t[1..];
    }
  }

  lemma {:induction false} LiteralsSplit(t: Text)
    requires t != []
    ensures Literals(t) == [Literal(t[0])] + Literals(t[1..])
  {
  }
}
