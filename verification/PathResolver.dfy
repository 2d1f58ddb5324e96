/** The shell's path resolution: in-place editing of character buffers against a fold of components. */
module PathResolver {
  const SLASH: char := '\\'
  const BUFFER: nat := 256

  // ---- components ---------------------------------------------------------

  /** A directory on the volume as its components from the root. */
  type Path = seq<string>

  predicate ValidName(c: string) {
    c != "" && c != "." && c != ".." && forall i :: 0 <= i < |c| ==> PlainChar(c[i])
  }

  predicate PlainChar(c: char) {
    c != SLASH && c != '/' && c != '\0'
  }

  /** No empty component, no dots, no slash inside a component. */
  predicate Canonical(p: Path) {
    forall i :: 0 <= i < |p| ==> ValidName(p[i])
  }

  /** Every component after a slash. */
  function Joined(p: Path): string {
    if p == [] then "" else Joined(p[..|p| - 1]) + [SLASH] + p[|p| - 1]
  }

  /** The text of a path: the root is a lone slash. */
  function TextOf(p: Path): (t: string)
    ensures t != ""
  {
    if p == [] then [SLASH] else Joined(p)
  }

  /** Going from `p` to the component `c`. */
  function Enter(p: Path, c: string): Path {
    if c == "" || c == "." then p
    else if c == ".." then (if p == [] then [] else p[..|p| - 1])
    else p + [c]
  }

  function EnterAll(p: Path, cs: seq<string>): Path
    decreases |cs|
  {
    if cs == [] then p else Enter(EnterAll(p, cs[..|cs| - 1]), cs[|cs| - 1])
  }

  // ---- splitting ----------------------------------------------------------

  /** The first slash at or after `i`, or the end. */
  function SlashAt(t: string, i: nat): (n: nat)
    requires i <= |t|
    ensures i <= n <= |t| && (n < |t| ==> t[n] == SLASH)
    ensures forall k :: i <= k < n ==> t[k] != SLASH
    decreases |t| - i
  {
    if i == |t| || t[i] == SLASH then i else SlashAt(t, i + 1)
  }

  /** The first unit at or after `i` that is no slash, or the end. */
  function PastSlashes(t: string, i: nat): (n: nat)
    requires i <= |t|
    ensures i <= n <= |t| && (n < |t| ==> t[n] != SLASH)
    ensures forall k :: i <= k < n ==> t[k] == SLASH
    decreases |t| - i
  {
    if i == |t| || t[i] != SLASH then i else PastSlashes(t, i + 1)
  }

  /** The components from `i` on. */
  function SplitFrom(t: string, i: nat): seq<string>
    requires i <= |t|
    decreases |t| - i
  {
    if i == |t| then []
    else
      var n := SlashAt(t, i);
      [t[i..n]] + SplitFrom(t, PastSlashes(t, n))
  }

  function Slashed(t: string): (s: string)
    ensures |s| == |t|
  {
    seq(|t|, (i: int) requires 0 <= i < |t| => if t[i] == '/' then SLASH else t[i])
  }

  /** How much of an argument is a drive prefix. */
  function DriveLength(t: string): (n: nat)
    ensures n <= |t|
  {
    if |t| >= 2 && (t[0] == 'C' || t[0] == 'c') && t[1] == ':' then 2 else 0
  }

  predicate IsAbsolute(arg: string) {
    var t := Slashed(arg);
    DriveLength(t) < |t| && t[DriveLength(t)] == SLASH
  }

  /** Where the components of an argument begin. */
  function StartOf(arg: string): (n: nat)
    ensures n <= |arg|
  {
    DriveLength(Slashed(arg)) + if IsAbsolute(arg) then 1 else 0
  }

  /** The directory an argument is resolved from. */
  function FromPath(cwd: Path, arg: string): Path {
    if IsAbsolute(arg) then [] else cwd
  }

  function ComponentsOf(arg: string): seq<string> {
    SplitFrom(Slashed(arg), StartOf(arg))
  }

  /** What an argument names, seen from the directory `cwd`. */
  function Resolved(cwd: Path, arg: string): Path {
    EnterAll(FromPath(cwd, arg), ComponentsOf(arg))
  }

  // ---- the result is canonical --------------------------------------------

  predicate NoNul(t: string) {
    forall i :: 0 <= i < |t| ==> t[i] != '\0'
  }

  lemma {:induction false} EnterCanonical(p: Path, c: string)
    requires Canonical(p) && forall i :: 0 <= i < |c| ==> PlainChar(c[i])
    ensures Canonical(Enter(p, c))
  {
  }

  predicate Plain(cs: seq<string>) {
    forall i, k :: 0 <= i < |cs| && 0 <= k < |cs[i]| ==> PlainChar(cs[i][k])
  }

  lemma {:induction false} EnterAllCanonical(p: Path, cs: seq<string>)
    requires Canonical(p) && Plain(cs)
    ensures Canonical(EnterAll(p, cs))
    decreases |cs|
  {
    if cs != [] {
      var init := cs[..|cs| - 1];
      assert Plain(init) by {
        forall i, k | 0 <= i < |init| && 0 <= k < |init[i]| ensures PlainChar(init[i][k]) {
          assert init[i] == cs[i];
        }
      }
      EnterAllCanonical(p, init);
      EnterCanonical(EnterAll(p, init), cs[|cs| - 1]);
    }
  }

  lemma {:induction false} SplitPlain(t: string, i: nat)
    requires i <= |t| && NoNul(t) && '/' !in t
    ensures Plain(SplitFrom(t, i))
    decreases |t| - i
  {
    if i < |t| {
      var n := SlashAt(t, i);
      SplitPlain(t, PastSlashes(t, n));
      var cs := SplitFrom(t, i);
      forall j, k | 0 <= j < |cs| && 0 <= k < |cs[j]| ensures PlainChar(cs[j][k]) {
        if j > 0 {
          assert cs[j] == SplitFrom(t, PastSlashes(t, n))[j - 1];
        }
      }
    }
  }

  /** Whatever the argument, a canonical directory resolves to a canonical one. */
  lemma {:induction false} ResolvedCanonical(cwd: Path, arg: string)
    requires Canonical(cwd) && NoNul(arg)
    ensures Canonical(Resolved(cwd, arg))
  {
    SplitPlain(Slashed(arg), StartOf(arg));
    EnterAllCanonical(FromPath(cwd, arg), ComponentsOf(arg));
  }

  // ---- splitting joins up -------------------------------------------------

  /** The first slash is the only place with no slash before it. */
  lemma {:induction false} SlashIs(t: string, i: nat, n: nat)
    requires i <= n <= |t| && (n < |t| ==> t[n] == SLASH) && forall k :: i <= k < n ==> t[k] != SLASH
    ensures SlashAt(t, i) == n
  {
  }

  lemma {:induction false} PastIs(t: string, i: nat, n: nat)
    requires i <= n <= |t| && (n < |t| ==> t[n] != SLASH) && forall k :: i <= k < n ==> t[k] == SLASH
    ensures PastSlashes(t, i) == n
  {
  }

  lemma {:induction false} ShiftedAt(x: string, b: string, i: nat)
    requires i <= |b|
    ensures SlashAt(x + b, |x| + i) == |x| + SlashAt(b, i) && PastSlashes(x + b, |x| + i) == |x| + PastSlashes(b, i)
  {
    var t, n, m := x + b, SlashAt(b, i), PastSlashes(b, i);
    forall k | |x| + i <= k < |x| + n ensures t[k] != SLASH {
      assert t[k] == b[k - |x|];
    }
    SlashIs(t, |x| + i, |x| + n);
    forall k | |x| + i <= k < |x| + m ensures t[k] == SLASH {
      assert t[k] == b[k - |x|];
    }
    PastIs(t, |x| + i, |x| + m);
  }

  lemma {:induction false} SplitStep(t: string, i: nat, n: nat, m: nat)
    requires i < |t| && i <= n <= |t| && n == SlashAt(t, i) && m == PastSlashes(t, n)
    ensures i < m <= |t| && SplitFrom(t, i) == [t[i..n]] + SplitFrom(t, m)
  {
  }

  lemma {:induction false} SplitEnd(t: string)
    ensures SplitFrom(t, |t|) == []
  {
  }

  lemma {:induction false} SplitShift(x: string, b: string, i: nat)
    requires i <= |b|
    ensures SplitFrom(x + b, |x| + i) == SplitFrom(b, i)
    decreases |b| - i
  {
    hide SlashAt, PastSlashes, SplitFrom;
    if i < |b| {
      var n := SlashAt(b, i);
      var m := PastSlashes(b, n);
      ShiftedAt(x, b, i);
      ShiftedAt(x, b, n);
      assert (x + b)[|x| + i..|x| + n] == b[i..n];
      SplitStep(b, i, n, m);
      SplitStep(x + b, |x| + i, |x| + n, |x| + m);
      SplitShift(x, b, m);
    } else {
      SplitEnd(b);
      SplitEnd(x + b);
    }
  }

  /** The components of `a\b` are those of `a` followed by those of `b` past its leading slashes. */
  lemma {:induction false} SplitJoined(a: string, b: string, i: nat)
    requires i < |a|
    ensures SplitFrom(a + [SLASH] + b, i) == SplitFrom(a, i) + SplitFrom(b, PastSlashes(b, 0))
    decreases |a| - i
  {
    hide SlashAt, PastSlashes, SplitFrom;
    var t := a + [SLASH] + b;
    var n := SlashAt(a, i);
    var m := PastSlashes(a, n);
    SlashIs(t, i, n);
    SplitStep(a, i, n, m);
    assert t[i..n] == a[i..n];
    if m < |a| {
      PastIs(t, n, m);
      SplitStep(t, i, n, m);
      SplitJoined(a, b, m);
    } else {
      var q := PastSlashes(b, 0);
      forall k | n <= k < |a| + 1 + q ensures t[k] == SLASH {
        assert k > |a| ==> t[k] == b[k - |a| - 1];
      }
      PastIs(t, n, |a| + 1 + q);
      SplitStep(t, i, n, |a| + 1 + q);
      SplitShift(a + [SLASH], b, q);
      SplitEnd(a);
    }
  }

  lemma {:induction false} NoLeadingSlash(b: string)
    requires b != "" ==> b[0] != SLASH
    ensures PastSlashes(b, 0) == 0
  {
  }

  lemma {:induction false} EnterAllJoined(p: Path, x: seq<string>, y: seq<string>)
    ensures EnterAll(p, x + y) == EnterAll(EnterAll(p, x), y)
    decreases |y|
  {
    if y == [] {
      assert x + y == x;
    } else {
      assert (x + y)[..|x + y| - 1] == x + y[..|y| - 1];
      EnterAllJoined(p, x, y[..|y| - 1]);
    }
  }

  predicate Relative(arg: string) {
    DriveLength(Slashed(arg)) == 0 && !IsAbsolute(arg)
  }

  /** Resolving `a\b` is resolving `b` from where `a` leads. */
  lemma {:induction false} ResolvedJoined(cwd: Path, a: string, b: string)
    requires a != "" && Relative(a) && Relative(b)
    ensures Resolved(cwd, a + [SLASH] + b) == Resolved(Resolved(cwd, a), b)
  {
    var s, t := Slashed(a), Slashed(b);
    assert Slashed(a + [SLASH] + b) == s + [SLASH] + t;
    NoLeadingSlash(t);
    SplitJoined(s, t, 0);
    EnterAllJoined(cwd, SplitFrom(s, 0), SplitFrom(t, 0));
    assert (s + [SLASH] + t)[0] == s[0];
    assert DriveLength(s + [SLASH] + t) == 0;
  }

  // ---- resolving a resolved path ------------------------------------------

  lemma {:induction false} NameSplits(c: string)
    requires ValidName(c)
    ensures SplitFrom(c, 0) == [c]
  {
    SlashIs(c, 0, |c|);
    PastIs(c, |c|, |c|);
    assert c[0..|c|] == c;
  }

  lemma {:induction false} JoinedSplits(p: Path)
    requires Canonical(p) && p != []
    ensures |Joined(p)| >= 2 && Joined(p)[0] == SLASH && SplitFrom(Joined(p), 1) == p
  {
    hide SplitFrom, Joined;
    var init, c := p[..|p| - 1], p[|p| - 1];
    NameSplits(c);
    JoinedLast(p);
    assert p == init + [c];
    if init == [] {
      assert Joined(p) == [SLASH] + c;
      SplitShift([SLASH], c, 0);
    } else {
      JoinedSplits(init);
      NoLeadingSlash(c);
      SplitJoined(Joined(init), c, 1);
    }
  }

  lemma {:induction false} JoinedLast(p: Path)
    requires p != []
    ensures var init := p[..|p| - 1];
            Joined(p) == Joined(init) + [SLASH] + p[|p| - 1] && (init == [] ==> Joined(init) == "")
  {
  }

  lemma {:induction false} NamesEnter(p: Path)
    requires Canonical(p)
    ensures EnterAll([], p) == p
  {
    if p != [] {
      NamesEnter(p[..|p| - 1]);
      assert p == p[..|p| - 1] + [p[|p| - 1]];
    }
  }

  lemma {:induction false} JoinedPlain(p: Path)
    requires Canonical(p)
    ensures '/' !in Joined(p) && NoNul(Joined(p))
  {
    if p != [] {
      JoinedPlain(p[..|p| - 1]);
      assert ValidName(p[|p| - 1]);
    }
  }

  /** The text of a directory resolves to that directory from anywhere. */
  lemma {:induction false} TextResolves(cwd: Path, p: Path)
    requires Canonical(p)
    ensures NoNul(TextOf(p)) && TextOf(p)[0] == SLASH && Resolved(cwd, TextOf(p)) == p
  {
    var t := TextOf(p);
    JoinedPlain(p);
    assert Slashed(t) == t;
    if p == [] {
      assert SplitFrom(t, 1) == [];
    } else {
      JoinedSplits(p);
    }
    assert t[0] == SLASH && DriveLength(t) == 0 && StartOf(t) == 1;
    NamesEnter(p);
  }

  /** Resolving again what was resolved changes nothing. */
  lemma {:induction false} ResolvedIdempotent(cwd: Path, other: Path, arg: string)
    requires Canonical(cwd) && NoNul(arg)
    ensures Resolved(other, TextOf(Resolved(cwd, arg))) == Resolved(cwd, arg)
  {
    ResolvedCanonical(cwd, arg);
    TextResolves(other, Resolved(cwd, arg));
  }

  // ---- character buffers --------------------------------------------------

  /** The buffer holds the string `s` and its terminator. */
  ghost predicate Holds(a: array<char>, s: string)
    reads a
  {
    |s| < a.Length && a[..|s|] == s && a[|s|] == '\0' && NoNul(s)
  }

  method StringLength(a: array<char>, ghost s: string) returns (n: nat)
    requires Holds(a, s)
    ensures n == |s|
  {
    n := 0;
    while a[n] != '\0'
      invariant n <= |s|
      decreases |s| - n
    {
      n := n + 1;
    }
  }

  /** Copies a string over what `dst` holds from `at` on. */
  method CopyAt(dst: array<char>, at: nat, src: array<char>, ghost s: string)
    requires dst != src && Holds(src, s) && at + |s| < dst.Length && NoNul(dst[..at])
    modifies dst
    ensures Holds(dst, old(dst[..at]) + s)
  {
    var i := 0;
    while src[i] != '\0'
      invariant i <= |s| && dst[..at] == old(dst[..at]) && dst[at..at + i] == s[..i]
      decreases |s| - i
    {
      dst[at + i] := src[i];
      i := i + 1;
    }
    dst[at + i] := '\0';
    assert dst[..at + i] == dst[..at] + dst[at..at + i];
    assert s[..i] == s;
  }

  /** Copies an argument with every slash turned into a backslash. */
  method NormSlashes(dst: array<char>, arg: string)
    requires |arg| < dst.Length && NoNul(arg)
    modifies dst
    ensures Holds(dst, Slashed(arg))
  {
    var i := 0;
    while i < |arg|
      invariant i <= |arg| && dst[..i] == Slashed(arg)[..i]
    {
      dst[i] := if arg[i] == '/' then SLASH else arg[i];
      i := i + 1;
    }
    dst[i] := '\0';
    assert Slashed(arg)[..i] == Slashed(arg);
  }

  /** Cuts the last component off, leaving at least the root. */
  method GoUp(base: array<char>, ghost p: Path)
    requires Canonical(p) && Holds(base, TextOf(p))
    modifies base
    ensures Holds(base, TextOf(Enter(p, "..")))
  {
    ghost var t := TextOf(p);
    var n := StringLength(base, t);
    LastComponent(p);
    ghost var cut := if p == [] then 1 else |Joined(p[..|p| - 1])| + 1;
    while n > 1 && base[n - 1] != SLASH
      invariant 1 <= cut <= n <= |t|
    {
      assert base[n - 1] == base[..|t|][n - 1];
      n := n - 1;
    }
    assert n > 1 ==> base[n - 1] == base[..|t|][n - 1];
    if n > 1 {
      n := n - 1;
    }
    base[n] := '\0';
    ghost var up := TextOf(Enter(p, ".."));
    assert base[..n] == t[..n] == up;
    assert NoNul(up);
  }

  /** After the last slash of a path's text stands its last component. */
  lemma {:induction false} LastComponent(p: Path)
    requires Canonical(p)
    ensures p != [] ==>
              var n := |Joined(p[..|p| - 1])| + 1;
              && n < |TextOf(p)| && TextOf(p)[n - 1] == SLASH
              && (forall k :: n <= k < |TextOf(p)| ==> TextOf(p)[k] != SLASH)
              && TextOf(p)[..n - 1] == Joined(p[..|p| - 1])
              && TextOf(p)[0] == SLASH && (p[..|p| - 1] == [] <==> n == 1)
  {
    if p != [] {
      var init, c := p[..|p| - 1], p[|p| - 1];
      assert ValidName(c);
      var n := |Joined(init)| + 1;
      forall k | n <= k < |TextOf(p)| ensures TextOf(p)[k] != SLASH {
        assert TextOf(p)[k] == c[k - n];
      }
      JoinedSplits(p);
      if init != [] {
        JoinedSplits(init);
      }
    }
  }

  /** Adds a component after a slash, unless the slash is there already. */
  method Append(base: array<char>, comp: array<char>, ghost p: Path, ghost c: string)
    requires base != comp && Canonical(p) && ValidName(c) && Holds(base, TextOf(p)) && Holds(comp, c)
    requires |TextOf(p + [c])| < base.Length
    modifies base
    ensures Holds(base, TextOf(p + [c]))
  {
    ghost var t := TextOf(p);
    assert (p + [c])[..|p|] == p;
    assert TextOf(p + [c]) == Joined(p) + [SLASH] + c;
    var n := StringLength(base, t);
    LastComponent(p);
    LastUnit(p);
    assert base[n - 1] == base[..|t|][n - 1];
    if n == 0 || base[n - 1] != SLASH {
      base[n] := SLASH;
      n := n + 1;
    }
    base[n] := '\0';
    assert base[..n] == Joined(p) + [SLASH];
    n := StringLength(base, Joined(p) + [SLASH]);
    CopyAt(base, n, comp, c);
  }

  lemma {:induction false} LastUnit(p: Path)
    requires Canonical(p)
    ensures var t := TextOf(p); t[|t| - 1] == SLASH <==> p == []
  {
    LastComponent(p);
  }

  // ---- what an argument does to the text ----------------------------------

  /** Nothing and a dot stay; two dots cut the text at its last slash, and stay in the root. */
  lemma {:induction false} DotsResolve(cwd: Path, n: nat)
    requires Canonical(cwd) && n < |TextOf(cwd)| && TextOf(cwd)[n] == '\\' && '\\' !in TextOf(cwd)[n + 1..]
    ensures TextOf(Resolved(cwd, "")) == TextOf(Resolved(cwd, ".")) == TextOf(cwd)
    ensures TextOf(Resolved(cwd, "..")) == if n == 0 then "\\" else TextOf(cwd)[..n]
  {
    hide Joined, SplitFrom, EnterAll;
    OneComponent(cwd, ".");
    OneComponent(cwd, "..");
    SplitEnd("");
    assert Slashed("") == "" && ComponentsOf("") == [];
    NothingEntered(cwd);
    LastComponent(cwd);
    var t := TextOf(cwd);
    if cwd != [] {
      var m := |Joined(cwd[..|cwd| - 1])|;
      assert t[m] == SLASH;
      forall k | n < k < |t| ensures t[k] != SLASH {
        assert t[k] == t[n + 1..][k - n - 1];
      }
      assert n == m;
    }
  }

  lemma {:induction false} OneComponent(cwd: Path, c: string)
    requires c != "" && DriveLength(c) == 0 && forall i :: 0 <= i < |c| ==> PlainChar(c[i])
    ensures Resolved(cwd, c) == Enter(cwd, c)
  {
    hide Joined, SplitFrom, EnterAll, Enter;
    var n := |c|;
    assert Slashed(c) == c;
    SlashIs(c, 0, n);
    PastIs(c, n, n);
    SplitStep(c, 0, n, n);
    SplitEnd(c);
    assert c[0..n] == c && !IsAbsolute(c);
    assert ComponentsOf(c) == [c] + [] == [c];
    NothingEntered(cwd);
    LastEntered(cwd, [], c);
    assert [] + [c] == [c];
  }

  lemma {:induction false} LastEntered(p: Path, cs: seq<string>, c: string)
    ensures EnterAll(p, cs + [c]) == Enter(EnterAll(p, cs), c)
  {
    assert (cs + [c])[..|cs|] == cs;
  }

  /** A name is appended, after a slash unless the text is the root's. */
  lemma {:induction false} NameResolves(cwd: Path, name: string)
    requires Canonical(cwd) && name !in {"", ".", ".."} && '\\' !in name && '/' !in name && '\0' !in name
    requires !(|name| >= 2 && name[0] in {'C', 'c'} && name[1] == ':')
    ensures TextOf(Resolved(cwd, name)) == (if TextOf(cwd) == "\\" then "" else TextOf(cwd)) + "\\" + name
  {
    hide SplitFrom, EnterAll;
    OneComponent(cwd, name);
    JoinedLast(cwd + [name]);
    assert (cwd + [name])[..|cwd|] == cwd;
    LastUnit(cwd);
    if cwd != [] {
      LastComponent(cwd);
    }
  }

  /** The two slashes do the same, repeated ones do as one, and a drive prefix does nothing. */
  lemma {:induction false} SlashesAndDrives(cwd: Path, a: string, b: string)
    requires a != "" && a[0] !in {'\\', '/'} && !(|a| >= 2 && a[0] in {'C', 'c'} && a[1] == ':')
    ensures Resolved(cwd, a + "/" + b) == Resolved(cwd, a + "\\" + b)
    ensures Resolved(cwd, a + "\\" + "\\" + b) == Resolved(cwd, a + "\\" + b)
    ensures Resolved(cwd, "C:" + a) == Resolved(cwd, "c:" + a) == Resolved(cwd, a)
    ensures Resolved(cwd, "\\" + a) == Resolved([], a) == Resolved(cwd, "C:" + "\\" + a)
  {
    hide SplitFrom, EnterAll, PastSlashes;
    var s, t := Slashed(a), Slashed(b);
    assert Slashed(a + "/" + b) == s + "\\" + t == Slashed(a + "\\" + b);
    JoinedArgument(a, b);
    JoinedArgument(a, "\\" + b);
    assert Slashed("\\" + b) == "\\" + t;
    assert a + "\\" + "\\" + b == a + "\\" + ("\\" + b);
    OneSlashMore(t);
    PrefixedArgument("C:", a);
    PrefixedArgument("c:", a);
    PrefixedArgument("\\", a);
    PrefixedArgument("C:\\", a);
    assert "C:" + "\\" + a == "C:\\" + a;
  }

  lemma {:induction false} JoinedArgument(a: string, b: string)
    requires a != "" && a[0] !in {SLASH, '/'} && DriveLength(a) == 0
    ensures var t := Slashed(b);
            && ComponentsOf(a + [SLASH] + b) == SplitFrom(Slashed(a), 0) + SplitFrom(t, PastSlashes(t, 0))
            && !IsAbsolute(a + [SLASH] + b)
  {
    hide SplitFrom, PastSlashes;
    var s, t := Slashed(a), Slashed(b);
    var j := s + [SLASH] + t;
    assert Slashed(a + [SLASH] + b) == j;
    assert j[0] == s[0] && (|a| >= 2 ==> j[1] == s[1]) && (|a| == 1 ==> j[1] == SLASH);
    assert DriveLength(j) == 0;
    SplitJoined(s, t, 0);
  }

  lemma {:induction false} OneSlashMore(t: string)
    ensures var u := [SLASH] + t; SplitFrom(u, PastSlashes(u, 0)) == SplitFrom(t, PastSlashes(t, 0))
  {
    hide SplitFrom, PastSlashes;
    var n, u := PastSlashes(t, 0), [SLASH] + t;
    assert forall k :: 0 < k < |u| ==> u[k] == t[k - 1];
    PastIs(u, 0, 1 + n);
    SplitShift([SLASH], t, n);
  }

  /** The components behind a drive, a slash or both. */
  lemma {:induction false} PrefixedArgument(prefix: string, a: string)
    requires prefix in {"C:", "c:", "\\", "C:\\"} && a != "" && a[0] !in {SLASH, '/'} && DriveLength(a) == 0
    ensures ComponentsOf(prefix + a) == ComponentsOf(a) == SplitFrom(Slashed(a), 0)
    ensures IsAbsolute(prefix + a) == (prefix in {"\\", "C:\\"}) && !IsAbsolute(a)
  {
    hide SplitFrom;
    var s, j := Slashed(a), Slashed(prefix + a);
    assert j == prefix + s;
    assert s[0] == a[0] && DriveLength(s) == 0;
    assert j[0] == prefix[0];
    SplitShift(prefix, s, 0);
  }

  // ---- resolving ----------------------------------------------------------

  /** The argument and every text on the way fit the resolver's buffers of 256 characters. */
  predicate Fits(cwd: Path, arg: string) {
    && |arg| < BUFFER
    && forall n :: 0 <= n <= |ComponentsOf(arg)| ==> |TextAfter(cwd, arg, n)| < BUFFER
  }

  /** The text after the first `n` components. */
  function TextAfter(cwd: Path, arg: string, n: nat): string
    requires n <= |ComponentsOf(arg)|
  {
    TextOf(EnterAll(FromPath(cwd, arg), ComponentsOf(arg)[..n]))
  }

  /** From any directory whose text fits one may go up. */
  lemma {:induction false} GoingUpFits(cwd: Path)
    requires |TextOf(cwd)| < BUFFER
    ensures Fits(cwd, "..")
  {
    SlashIs("..", 0, 2);
    PastIs("..", 2, 2);
    SplitStep("..", 0, 2, 2);
    SplitEnd("..");
    assert Slashed("..") == "..";
    var cs := ComponentsOf("..");
    assert DriveLength("..") == 0 && !IsAbsolute("..") && ".."[0..2] == "..";
    assert cs == [".."] + [];
    forall n | 0 <= n <= |cs| ensures |TextAfter(cwd, "..", n)| < BUFFER {
      NothingEntered(cwd);
      if n == 1 {
        assert cs[..1] == [".."] && [".."][..0] == [];
        assert EnterAll(cwd, [".."]) == Enter(EnterAll(cwd, []), "..");
      } else {
        assert cs[..0] == [];
      }
    }
  }

  /** A name fits exactly if the text of the directory it leads to does. */
  lemma {:induction false} NameFits(cwd: Path, name: string)
    requires ValidName(name) && DriveLength(name) == 0 && |name| < BUFFER && |TextOf(cwd)| < BUFFER
    ensures Fits(cwd, name) <==> |TextOf(cwd + [name])| < BUFFER
  {
    hide Joined, SplitFrom, EnterAll;
    var n := |name|;
    assert Slashed(name) == name;
    SlashIs(name, 0, n);
    PastIs(name, n, n);
    SplitStep(name, 0, n, n);
    SplitEnd(name);
    assert name[0..n] == name;
    assert !IsAbsolute(name);
    assert ComponentsOf(name) == [name] + [] == [name];
    NameEntered(cwd, name);
    assert TextAfter(cwd, name, 0) == TextOf(cwd);
    assert TextAfter(cwd, name, 1) == TextOf(cwd + [name]);
  }

  lemma {:induction false} NameEntered(cwd: Path, name: string)
    requires ValidName(name)
    ensures EnterAll(cwd, [name][..0]) == cwd && EnterAll(cwd, [name][..1]) == cwd + [name]
  {
    assert [name][..0] == [] && [name][..1] == [name];
    assert EnterAll(cwd, [name]) == Enter(EnterAll(cwd, []), name);
  }

  /** From the root the longest word a command can take leads to a text of 256 characters, one too many. */
  lemma {:induction false} LongestNameOverruns(name: string)
    requires ValidName(name) && DriveLength(name) == 0 && |name| == BUFFER - 1
    ensures |TextOf([] + [name])| == BUFFER && !Fits([], name)
  {
    NameFits([], name);
    assert ([] + [name])[..0] == [];
    assert Joined([]) == "";
    assert TextOf([] + [name]) == Joined([]) + [SLASH] + name;
  }

  /** What components can add to a text. */
  function Weight(cs: seq<string>): nat {
    if cs == [] then 0 else Weight(cs[..|cs| - 1]) + 1 + |cs[|cs| - 1]|
  }

  lemma {:induction false} WeightFirst(c: string, rest: seq<string>)
    ensures Weight([c] + rest) == 1 + |c| + Weight(rest)
    decreases |rest|
  {
    var cs := [c] + rest;
    if rest == [] {
      assert cs[..0] == [];
      assert Weight(cs[..0]) == 0;
    } else {
      var init := rest[..|rest| - 1];
      assert cs[..|cs| - 1] == [c] + init && cs[|cs| - 1] == rest[|rest| - 1];
      WeightFirst(c, init);
    }
  }

  lemma {:induction false} SplitWeight(t: string, i: nat)
    requires i <= |t|
    ensures Weight(SplitFrom(t, i)) <= if i == |t| then 0 else 1 + |t| - i
    decreases |t| - i
  {
    hide SplitFrom, Weight;
    if i == |t| {
      SplitEnd(t);
      assert Weight([]) == 0 by { NoWeight(); }
    } else {
      var n := SlashAt(t, i);
      var m := PastSlashes(t, n);
      SplitStep(t, i, n, m);
      WeightFirst(t[i..n], SplitFrom(t, m));
      SplitWeight(t, m);
    }
  }

  lemma {:induction false} NoWeight()
    ensures Weight([]) == 0
  {
  }

  /** Entering the first `n` components adds no more to a text than all of them weigh. */
  lemma {:induction false} EnterAllLength(p: Path, cs: seq<string>, n: nat)
    requires n <= |cs|
    ensures |Joined(EnterAll(p, cs[..n]))| <= |Joined(p)| + Weight(cs)
    decreases |cs|
  {
    if n < |cs| {
      var init := cs[..|cs| - 1];
      assert init[..n] == cs[..n];
      EnterAllLength(p, init, n);
    } else if cs != [] {
      var init, c := cs[..n - 1], cs[n - 1];
      assert cs[..n] == cs;
      assert init[..n - 1] == init;
      EnterAllLength(p, init, n - 1);
      EnterLength(EnterAll(p, init), c);
    } else {
      NothingEntered(p);
    }
  }

  lemma {:induction false} EnterLength(p: Path, c: string)
    ensures |Joined(Enter(p, c))| <= |Joined(p)| + 1 + |c|
  {
    assert (p + [c])[..|p|] == p;
  }

  /** An argument that fits behind the directory without going up anywhere fits. */
  lemma {:induction false} ShortArgumentsFit(cwd: Path, arg: string)
    requires |arg| < BUFFER && |TextOf(cwd)| < BUFFER
    requires |Joined(FromPath(cwd, arg))| + 1 + |arg| - StartOf(arg) < BUFFER
    ensures Fits(cwd, arg)
  {
    hide SplitFrom, Weight, EnterAll, Joined;
    var cs := ComponentsOf(arg);
    SplitWeight(Slashed(arg), StartOf(arg));
    forall n | 0 <= n <= |cs| ensures |TextAfter(cwd, arg, n)| < BUFFER {
      EnterAllLength(FromPath(cwd, arg), cs, n);
    }
  }

  /** Copies the component at `p`, and returns where the next one begins. */
  method TakeComponent(tmp: array<char>, p: nat, comp: array<char>, ghost t: string) returns (next: nat)
    requires tmp != comp && Holds(tmp, t) && p < |t| < BUFFER == comp.Length
    modifies comp
    ensures Holds(comp, t[p..SlashAt(t, p)]) && next == PastSlashes(t, SlashAt(t, p))
  {
    ghost var n := SlashAt(t, p);
    next := p;
    var ci := 0;
    while tmp[next] != '\0' && tmp[next] != SLASH
      invariant p <= next <= n && ci == next - p && comp[..ci] == t[p..next]
      decreases n - next
    {
      assert tmp[next] == tmp[..|t|][next];
      if ci < 255 {
        comp[ci] := tmp[next];
        ci := ci + 1;
      }
      next := next + 1;
    }
    comp[ci] := '\0';
    while tmp[next] == SLASH
      invariant n <= next <= PastSlashes(t, n)
      decreases |t| - next
    {
      assert tmp[next] == tmp[..|t|][next];
      next := next + 1;
    }
  }

  /** Applies one component: none and a dot stay, two dots go up, a name goes down. */
  method EnterComponent(base: array<char>, comp: array<char>, ghost p: Path, ghost c: string)
    requires base != comp && Canonical(p) && Holds(base, TextOf(p)) && Holds(comp, c) && comp.Length >= 3
    requires forall i :: 0 <= i < |c| ==> PlainChar(c[i])
    requires |TextOf(Enter(p, c))| < base.Length
    modifies base
    ensures Holds(base, TextOf(Enter(p, c)))
  {
    ShortComponents(comp, c);
    if comp[0] == '\0' || (comp[0] == '.' && comp[1] == '\0') {
      return;
    }
    if comp[0] == '.' && comp[1] == '.' && comp[2] == '\0' {
      GoUp(base, p);
      return;
    }
    Append(base, comp, p, c);
  }

  lemma {:induction false} ShortComponents(comp: array<char>, c: string)
    requires Holds(comp, c) && comp.Length >= 3
    ensures comp[0] == '\0' <==> c == ""
    ensures comp[0] == '.' && comp[1] == '\0' <==> c == "."
    ensures comp[0] == '.' && comp[1] == '.' && comp[2] == '\0' <==> c == ".."
  {
    if |c| > 0 {
      assert comp[0] == comp[..|c|][0] == c[0];
    }
    if |c| > 1 {
      assert comp[1] == comp[..|c|][1] == c[1];
    }
    if |c| > 2 {
      assert comp[2] == comp[..|c|][2] == c[2];
    }
  }

  lemma {:induction false} UnitsOf(a: array<char>, t: string)
    requires Holds(a, t)
    ensures |t| < a.Length && a[|t|] == '\0' && forall k :: 0 <= k < |t| ==> a[k] == t[k] && t[k] != '\0'
  {
    forall k | 0 <= k < |t| ensures a[k] == t[k] {
      assert a[k] == a[..|t|][k];
    }
  }

  lemma {:induction false} RootText(base: array<char>)
    requires base.Length > 1 && base[0] == SLASH && base[1] == '\0'
    ensures Holds(base, TextOf([])) && Canonical([]) && Joined([]) == ""
  {
    assert base[..1] == [SLASH];
  }

  method CopyText(dst: array<char>, src: array<char>, ghost p: Path)
    requires dst != src && Holds(src, TextOf(p)) && dst.Length >= src.Length
    modifies dst
    ensures Holds(dst, TextOf(p))
  {
    CopyAt(dst, 0, src, TextOf(p));
    assert old(dst[..0]) + TextOf(p) == TextOf(p);
  }

  lemma {:induction false} NothingEntered(p: Path)
    ensures EnterAll(p, []) == p
  {
  }

  /** Taking in the component at `p`. */
  lemma {:induction false} ComponentEntered(t: string, p: nat, start: Path, done: seq<string>)
    requires NoNul(t) && '/' !in t && p < |t| && Canonical(EnterAll(start, done))
    ensures var n := SlashAt(t, p); var m := PastSlashes(t, n); var c := t[p..n]; var cur := EnterAll(start, done);
            && (forall i :: 0 <= i < |c| ==> PlainChar(c[i]))
            && Canonical(Enter(cur, c)) && EnterAll(start, done + [c]) == Enter(cur, c)
            && done + SplitFrom(t, p) == done + [c] + SplitFrom(t, m)
            && (m < |t| ==> n < m)
  {
    hide SplitFrom;
    var n := SlashAt(t, p);
    var c, cur := t[p..n], EnterAll(start, done);
    SplitStep(t, p, n, PastSlashes(t, n));
    assert (done + [c])[..|done|] == done;
    forall i | 0 <= i < |c| ensures PlainChar(c[i]) {
      assert t[p + i] != SLASH && t[p + i] in t;
    }
    EnterCanonical(cur, c);
  }

  lemma {:induction false} StepFits(cwd: Path, arg: string, done: seq<string>, c: string, rest: seq<string>)
    requires Fits(cwd, arg) && ComponentsOf(arg) == done + [c] + rest
    ensures |TextOf(EnterAll(FromPath(cwd, arg), done + [c]))| < BUFFER
  {
    hide TextOf, EnterAll, SplitFrom;
    var n := |done| + 1;
    assert ComponentsOf(arg)[..n] == done + [c];
    assert |TextAfter(cwd, arg, n)| < BUFFER;
  }

  /** Skips a drive prefix, and starts from the root or the current directory. */
  method BeginPath(tmp: array<char>, base: array<char>, cwd: array<char>, arg: string, ghost dir: Path) returns (p: nat)
    requires Holds(tmp, Slashed(arg)) && Canonical(dir) && Holds(cwd, TextOf(dir))
    requires cwd.Length == base.Length == tmp.Length == BUFFER
    requires base != tmp && base != cwd
    modifies base
    ensures p == StartOf(arg)
    ensures Canonical(FromPath(dir, arg)) && Holds(base, TextOf(FromPath(dir, arg)))
  {
    hide Holds, TextOf, Canonical, Joined;
    ghost var t := Slashed(arg);
    UnitsOf(tmp, t);
    p := 0;
    if (tmp[0] == 'C' || tmp[0] == 'c') && tmp[1] == ':' {
      p := 2;
    }
    assert p == DriveLength(t);
    if tmp[p] == SLASH {
      base[0] := SLASH;
      base[1] := '\0';
      RootText(base);
      p := p + 1;
    } else {
      CopyText(base, cwd, dir);
    }
  }

  /** An argument's absolute path, worked out component by component in a buffer. */
  method ResolveSubpath(arg: string, cwd: array<char>, out: array<char>, ghost dir: Path)
    requires NoNul(arg) && Canonical(dir) && Holds(cwd, TextOf(dir)) && cwd != out
    requires cwd.Length == out.Length == BUFFER && Fits(dir, arg)
    modifies out
    ensures Canonical(Resolved(dir, arg)) && Holds(out, TextOf(Resolved(dir, arg)))
  {
    hide Holds, SplitFrom, SlashAt, PastSlashes, TextOf, Canonical, Joined, EnterAll;
    var tmp := new char[BUFFER](_ => ' ');
    var base := new char[BUFFER](_ => ' ');
    var comp := new char[BUFFER](_ => ' ');
    ghost var t := Slashed(arg);
    NormSlashes(tmp, arg);
    var p := BeginPath(tmp, base, cwd, arg, dir);
    ghost var start := FromPath(dir, arg);
    ghost var all, done, cur := SplitFrom(t, p), [], start;
    NothingEntered(start);
    while tmp[p] != '\0'
      invariant p <= |t| && Holds(tmp, t) && Holds(base, TextOf(cur)) && Canonical(cur)
      invariant cur == EnterAll(start, done) && done + SplitFrom(t, p) == all
      decreases |t| - p
    {
      UnitsOf(tmp, t);
      ghost var n := SlashAt(t, p);
      ghost var c := t[p..n];
      ComponentEntered(t, p, start, done);
      StepFits(dir, arg, done, c, SplitFrom(t, PastSlashes(t, n)));
      var next := TakeComponent(tmp, p, comp, t);
      EnterComponent(base, comp, cur, c);
      cur, done := Enter(cur, c), done + [c];
      p := next;
    }
    UnitsOf(tmp, t);
    SplitEnd(t);
    assert done + [] == done;
    CopyText(out, base, cur);
  }

  // ---- the current directory ----------------------------------------------

  /** The first word of a command's arguments, cut to what the word buffer holds. */
  function FirstWord(args: string): (w: string)
    ensures |w| < BUFFER && (NoNul(args) ==> NoNul(w))
    decreases |args|
  {
    if args != "" && IsBlank(args[0]) then FirstWord(args[1..]) else args[..WordEnd(args, 0)]
  }

  predicate IsBlank(c: char) {
    c == ' ' || c == '\t'
  }

  function WordEnd(args: string, i: nat): (n: nat)
    requires i <= |args| && i < BUFFER
    ensures i <= n <= |args| && n < BUFFER
    decreases |args| - i
  {
    if i == |args| || IsBlank(args[i]) || i == BUFFER - 1 then i else WordEnd(args, i + 1)
  }

  /** What the kernel says of a path: whether it opens and whether a first entry can be listed. */
  datatype Answer = Answer(opens: bool, lists: bool)

  /** A cd command: its arguments, and the kernel as a function of the path asked about. */
  datatype Command = Cd(args: string, kernel: string -> Answer)

  /** The directory after a cd: where its argument leads, if that opens and lists or is the root. */
  function AfterCd(dir: Path, cd: Command): Path {
    var arg := FirstWord(cd.args);
    if arg == "" then dir
    else
      var to := Resolved(dir, arg);
      var answer := cd.kernel(TextOf(to));
      if answer.opens && (answer.lists || to == []) then to else dir
  }

  /** The directory after a run of cd commands. */
  function AfterAll(dir: Path, cds: seq<Command>): Path
    decreases |cds|
  {
    if cds == [] then dir else AfterAll(AfterCd(dir, cds[0]), cds[1..])
  }

  predicate CdFits(dir: Path, cd: Command) {
    NoNul(cd.args) && (FirstWord(cd.args) != "" ==> Fits(dir, FirstWord(cd.args)))
  }

  predicate AllFit(dir: Path, cds: seq<Command>)
    decreases |cds|
  {
    cds != [] ==> CdFits(dir, cds[0]) && AllFit(AfterCd(dir, cds[0]), cds[1..])
  }

  /** Over any run the directory stays canonical, and it is where it was or somewhere the kernel let a cd go. */
  lemma {:induction false} RunStaysCanonical(dir: Path, cds: seq<Command>)
    requires Canonical(dir) && forall i :: 0 <= i < |cds| ==> NoNul(cds[i].args)
    ensures Canonical(AfterAll(dir, cds))
    ensures var end := AfterAll(dir, cds);
            end == dir || exists i :: 0 <= i < |cds| && cds[i].kernel(TextOf(end)).opens
    decreases |cds|
  {
    if cds != [] {
      var arg := FirstWord(cds[0].args);
      ResolvedCanonical(dir, arg);
      RunStaysCanonical(AfterCd(dir, cds[0]), cds[1..]);
      var end := AfterAll(dir, cds);
      if end == AfterCd(dir, cds[0]) {
        assert end == dir || cds[0].kernel(TextOf(end)).opens;
      } else {
        var i :| 0 <= i < |cds[1..]| && cds[1..][i].kernel(TextOf(end)).opens;
        assert cds[i + 1].kernel(TextOf(end)).opens;
      }
    }
  }

  class Shell {
    const cwd: array<char>
    ghost var dir: Path

    /** The buffer g_cwd holds the text of a canonical directory. */
    ghost predicate Valid()
      reads this, cwd
    {
      cwd.Length == BUFFER && Canonical(dir) && Holds(cwd, TextOf(dir))
    }

    constructor ()
      ensures Valid() && dir == [] && fresh(cwd)
    {
      cwd := new char[BUFFER](i => if i == 0 then SLASH else '\0');
      dir := [];
      new;
      RootText(cwd);
    }

    method ChangeDirectory(cd: Command)
      requires Valid() && CdFits(dir, cd)
      modifies cwd, `dir
      ensures Valid() && dir == AfterCd(old(dir), cd)
      ensures var to := Resolved(old(dir), FirstWord(cd.args));
              var answer := cd.kernel(TextOf(to));
              dir == if FirstWord(cd.args) == "" || !answer.opens then old(dir)
                     else if answer.lists || TextOf(to) == "\\" then to
                     else old(dir)
    {
      var arg := Word(cd.args);
      if arg == "" {
        return;
      }
      var sub := new char[BUFFER](_ => ' ');
      ResolveSubpath(arg, cwd, sub, dir);
      ghost var to := Resolved(dir, arg);
      UnitsOf(sub, TextOf(to));
      var n := StringLength(sub, TextOf(to));
      var answer := cd.kernel(sub[..n]);
      if !answer.opens {
        return;
      }
      var root := sub[0] == SLASH && sub[1] == '\0';
      RootIs(to);
      if !answer.lists && !root {
        return;
      }
      CopyText(cwd, sub, to);
      dir := to;
    }

    method RunCommands(cds: seq<Command>)
      requires Valid() && AllFit(dir, cds)
      modifies cwd, `dir
      ensures Valid() && dir == AfterAll(old(dir), cds)
    {
      hide AfterCd;
      var i := 0;
      assert cds[0..] == cds;
      while i < |cds|
        invariant i <= |cds| && Valid() && AllFit(dir, cds[i..])
        invariant AfterAll(dir, cds[i..]) == AfterAll(old(dir), cds)
      {
        assert cds[i..][0] == cds[i] && cds[i..][1..] == cds[i + 1..];
        ChangeDirectory(cds[i]);
        i := i + 1;
      }
    }
  }

  /** The word stands at `n`, behind spaces and tabs, and ends at one, at the end, or at 255 characters. */
  predicate WordAt(args: string, n: nat, w: string) {
    && n + |w| <= |args| && args[n..n + |w|] == w && |w| <= 255
    && (forall k :: 0 <= k < n ==> args[k] == ' ' || args[k] == '\t')
    && ' ' !in w && '\t' !in w && (n == |args| || args[n] !in {' ', '\t'})
    && (n + |w| == |args| || args[n + |w|] in {' ', '\t'} || |w| == 255)
  }

  method Word(args: string) returns (w: string)
    ensures w == FirstWord(args)
    ensures exists n: nat :: WordAt(args, n, w)
  {
    var src := 0;
    assert args[0..] == args;
    while src < |args| && IsBlank(args[src])
      invariant src <= |args| && FirstWord(args[src..]) == FirstWord(args)
      invariant forall k :: 0 <= k < src ==> IsBlank(args[k])
    {
      assert args[src..][1..] == args[src + 1..];
      src := src + 1;
    }
    ghost var rest := args[src..];
    var i := 0;
    while src + i < |args| && !IsBlank(args[src + i]) && i < BUFFER - 1
      invariant i <= |rest| && i < BUFFER && WordEnd(rest, i) == WordEnd(rest, 0)
      invariant forall k :: src <= k < src + i ==> !IsBlank(args[k])
    {
      i := i + 1;
    }
    w := args[src..src + i];
    WordTaken(args, src, i);
    assert WordAt(args, src, w);
  }

  lemma {:induction false} WordTaken(args: string, src: nat, i: nat)
    requires src + i <= |args|
    ensures args[src..src + i] == args[src..][..i]
  {
  }

  lemma {:induction false} RootIs(p: Path)
    requires Canonical(p)
    ensures TextOf(p)[0] == SLASH && (|TextOf(p)| == 1 <==> p == [])
  {
    if p != [] {
      JoinedSplits(p);
    }
  }
}
