/** credui's sixteen slots of credentials, refining a map keyed by case-folded target. */
module CredentialVault {
  import opened Words
  import StructPack

  const MAX_CREDS: nat := 16
  const CRED_BLOB: nat := 256
  const CRED_NAME: nat := 64

  // ---- names --------------------------------------------------------------

  function Lower(c: char): char {
    if 'A' <= c <= 'Z' then (c as int + 32) as char else c
  }

  /** A name with its ASCII letters in lower case: the key it stands for. */
  function Fold(s: string): (f: string)
    ensures |f| == |s|
  {
    seq(|s|, (i: int) requires 0 <= i < |s| => Lower(s[i]))
  }

  /** The same letter, in the two cases. */
  predicate CasePair(a: char, b: char) {
    'A' <= a <= 'Z' && b as int == a as int + 32
  }

  /** Two names stand for one key exactly if they differ in the case of letters alone. */
  lemma {:induction false} SameKey(a: string, b: string)
    ensures Fold(a) == Fold(b) <==>
              |a| == |b| && forall i :: 0 <= i < |a| ==> a[i] == b[i] || CasePair(a[i], b[i]) || CasePair(b[i], a[i])
  {
    if Fold(a) == Fold(b) {
      forall i | 0 <= i < |a| ensures a[i] == b[i] || CasePair(a[i], b[i]) || CasePair(b[i], a[i]) {
        assert Lower(a[i]) == Fold(a)[i] == Fold(b)[i] == Lower(b[i]);
      }
    }
  }

  /** A name as a 64-character buffer keeps it. */
  function Cut(s: string): (c: string)
    ensures |c| < CRED_NAME && (|s| < CRED_NAME ==> c == s)
  {
    if |s| < CRED_NAME then s else s[..CRED_NAME - 1]
  }

  // ---- entries ------------------------------------------------------------

  datatype Entry = Entry(kind: U32, persist: U32, target: string, username: string, blob: seq<Byte>)

  /** A slot of the array; an unused one keeps what it last held. */
  datatype Slot = Slot(used: bool, kind: U32, persist: U32, target: string, username: string,
                       blob: seq<Byte>, blobSize: nat) {
    predicate Valid() {
      |target| < CRED_NAME && |username| < CRED_NAME && |blob| == CRED_BLOB && blobSize <= CRED_BLOB
    }

    function Key(): string {
      Fold(target)
    }

    function Content(): Entry
      requires blobSize <= |blob|
    {
      Entry(kind, persist, target, username, blob[..blobSize])
    }
  }

  type Slots = s: seq<Slot> | forall i :: 0 <= i < |s| ==> s[i].Valid()

  /** No two used slots stand for the same key. */
  predicate KeysDistinct(s: Slots) {
    forall i, j :: 0 <= i < j < |s| && s[i].used && s[j].used ==> s[i].Key() != s[j].Key()
  }

  type Vault = map<string, Entry>

  /** The map the slots stand for. */
  function VaultOf(s: Slots): (v: Vault)
    requires KeysDistinct(s)
  {
    map i | 0 <= i < |s| && s[i].used :: s[i].Key() := s[i].Content()
  }

  predicate HeldAt(s: Slots, i: int, k: string) {
    0 <= i < |s| && s[i].used && s[i].Key() == k
  }

  predicate Found(s: Slots, target: string) {
    exists i :: 0 <= i < |s| && HeldAt(s, i, Fold(target))
  }

  lemma {:induction false} HeldInVault(s: Slots, i: nat, k: string)
    requires KeysDistinct(s) && HeldAt(s, i, k)
    ensures k in VaultOf(s) && VaultOf(s)[k] == s[i].Content()
  {
    hide Fold;
  }

  /** The slot that holds a key of the map. */
  lemma {:induction false} Holder(s: Slots, k: string) returns (i: nat)
    requires KeysDistinct(s) && k in VaultOf(s)
    ensures HeldAt(s, i, k) && VaultOf(s)[k] == s[i].Content()
  {
    hide Fold;
    i :| 0 <= i < |s| && s[i].used && s[i].Key() == k;
  }

  /** The same two facts of maps given by slots that agree but for the one at `i`. */
  lemma {:induction false} Agree(s: Slots, t: Slots, i: nat, k: string)
    requires KeysDistinct(s) && KeysDistinct(t) && |s| == |t| && i < |s| && t == s[i := t[i]]
    requires !HeldAt(s, i, k) && !HeldAt(t, i, k)
    ensures (k in VaultOf(t) <==> k in VaultOf(s)) && (k in VaultOf(s) ==> VaultOf(t)[k] == VaultOf(s)[k])
  {
    hide VaultOf, KeysDistinct, Slot.Key, Slot.Content;
    if k in VaultOf(s) {
      var j := Holder(s, k);
      HeldInVault(t, j, k);
    }
    if k in VaultOf(t) {
      var j := Holder(t, k);
      HeldInVault(s, j, k);
    }
  }

  /**
   What storing an entry under a name of 64 characters or more does: it takes an unused slot if there is one,
   is never found again, and leaves two slots with one key exactly when the cut name was already there.
   */
  ghost predicate StoredCut(s: Slots, t: Slots, target: string, e: Entry) {
    KeysDistinct(s) &&
    if |VaultOf(s)| == MAX_CREDS then t == s
    else
      && (exists i :: 0 <= i < |s| && !s[i].used && PutAt(s, t, i, e))
      && !Found(t, target)
      && (KeysDistinct(t) <==> Fold(Cut(target)) !in VaultOf(s))
  }

  predicate PutAt(s: Slots, t: Slots, i: int, e: Entry) {
    0 <= i < |s| == |t| && t == s[i := t[i]] && t[i].used && t[i].Content() == e
  }

  /** What the API is told to keep; a null pointer is None. */
  datatype Credential = Credential(kind: U32, persist: U32, target: Option<string>, username: Option<string>,
                                   blob: Option<seq<Byte>>, size: U32) {
    /** A blob that is there has the size it claims. */
    predicate Valid() {
      blob.Some? ==> |blob.value| == size
    }

    /** The bytes the vault keeps: as many as fit, zeros if there is no blob. */
    function KeptBlob(): (b: seq<Byte>)
      requires Valid()
      ensures |b| <= CRED_BLOB
    {
      var n := if size > CRED_BLOB then CRED_BLOB else size;
      if blob.Some? then blob.value[..n] else StructPack.Zeros(n)
    }

    /** What the vault keeps of it: defaults for 0, names and blob cut to their buffers. */
    function Kept(): (e: Entry)
      requires Valid() && target.Some?
    {
      Entry(if kind != 0 then kind else 1, if persist != 0 then persist else 3, Cut(target.value),
            Cut(if username.Some? then username.value else ""), KeptBlob())
    }
  }

  /** `kept` is `s`, or its first 63 characters if that is longer. */
  predicate CutName(s: string, kept: string) {
    kept <= s && |kept| == if |s| > 63 then 63 else |s|
  }

  /** What is kept of a credential: kind 1 and persistence 3 for 0, names of at most 63 characters, a blob of 256. */
  lemma {:induction false} KeptFields(c: Credential)
    requires c.Valid() && c.target.Some?
    ensures var e := c.Kept();
            && e.kind == (if c.kind == 0 then 1 else c.kind) && e.persist == (if c.persist == 0 then 3 else c.persist)
            && CutName(c.target.value, e.target)
            && (match c.username
                case Some(u) => CutName(u, e.username)
                case None => e.username == "")
            && |e.blob| == (if c.size > 256 then 256 else c.size)
            && (match c.blob
                case Some(b) => e.blob <= b
                case None => forall i :: 0 <= i < |e.blob| ==> e.blob[i] == 0)
  {
  }

  // ---- storing and removing -----------------------------------------------

  /** A key not there yet goes into an unused slot. */
  lemma {:induction false} StoredNew(s: Slots, i: nat, e: Slot)
    requires KeysDistinct(s) && i < |s| && !s[i].used && e.used && e.Valid() && e.Key() !in VaultOf(s)
    ensures KeysDistinct(s[i := e]) && VaultOf(s[i := e]) == VaultOf(s)[e.Key() := e.Content()]
  {
    var t: Slots := s[i := e];
    assert KeysDistinct(t);
    SameVault(t, VaultOf(s)[e.Key() := e.Content()], s, i);
  }

  /** A key that is there is replaced where it is. */
  lemma {:induction false} StoredOver(s: Slots, i: nat, e: Slot)
    requires KeysDistinct(s) && i < |s| && s[i].used && e.used && e.Valid() && e.Key() == s[i].Key()
    ensures KeysDistinct(s[i := e]) && VaultOf(s[i := e]) == VaultOf(s)[e.Key() := e.Content()]
  {
    var t: Slots := s[i := e];
    assert KeysDistinct(t);
    SameVault(t, VaultOf(s)[e.Key() := e.Content()], s, i);
  }

  lemma {:induction false} SameVault(t: Slots, v: Vault, s: Slots, i: nat)
    requires |t| == |s| && i < |s| && KeysDistinct(t) && KeysDistinct(s) && t[i].used && t == s[i := t[i]]
    requires v == VaultOf(s)[t[i].Key() := t[i].Content()]
    requires s[i].used ==> s[i].Key() == t[i].Key()
    ensures VaultOf(t) == v
  {
    hide VaultOf, KeysDistinct, Slot.Key, Slot.Content;
    forall k ensures (k in VaultOf(t) <==> k in v) && (k in VaultOf(t) ==> VaultOf(t)[k] == v[k]) {
      if k == t[i].Key() {
        HeldInVault(t, i, k);
      } else {
        Agree(s, t, i, k);
      }
    }
  }

  /** Clearing a slot removes its key and nothing else. */
  lemma {:induction false} Removed(s: Slots, i: nat)
    requires KeysDistinct(s) && i < |s| && s[i].used
    ensures var t := s[i := s[i].(used := false)]; KeysDistinct(t) && VaultOf(t) == VaultOf(s) - {s[i].Key()}
  {
    hide VaultOf, Slot.Content;
    var t: Slots := s[i := s[i].(used := false)];
    assert KeysDistinct(t);
    var gone := s[i].Key();
    forall k
      ensures k in VaultOf(t) <==> k in VaultOf(s) && k != gone
      ensures k in VaultOf(t) ==> VaultOf(t)[k] == VaultOf(s)[k]
    {
      if k != gone {
        Agree(s, t, i, k);
      } else if k in VaultOf(t) {
        var j := Holder(t, k);
        assert false;
      }
    }
  }

  predicate AllUsed(s: Slots) {
    forall i :: 0 <= i < |s| ==> s[i].used
  }

  function UsedCount(s: Slots): nat {
    if s == [] then 0 else UsedCount(s[..|s| - 1]) + if s[|s| - 1].used then 1 else 0
  }

  /** The map has one key for every used slot. */
  lemma {:induction false} VaultSize(s: Slots)
    requires KeysDistinct(s)
    ensures |VaultOf(s)| == UsedCount(s)
  {
    if s == [] {
      assert VaultOf(s) == map[];
    } else {
      var init, last: Slot := s[..|s| - 1], s[|s| - 1];
      VaultSize(init);
      VaultSplits(s);
    }
  }

  lemma {:induction false} VaultSplits(s: Slots)
    requires KeysDistinct(s) && s != []
    ensures var init, last := s[..|s| - 1], s[|s| - 1];
            && KeysDistinct(init)
            && (last.used ==> last.Key() !in VaultOf(init) && VaultOf(s) == VaultOf(init)[last.Key() := last.Content()])
            && (!last.used ==> VaultOf(s) == VaultOf(init))
  {
    hide VaultOf, Slot.Content;
    var n := |s| - 1;
    var init: Slots, last := s[..n], s[n];
    assert KeysDistinct(init);
    forall k
      ensures if last.used && k == last.Key()
              then k in VaultOf(s) && VaultOf(s)[k] == last.Content() && k !in VaultOf(init)
              else (k in VaultOf(s) <==> k in VaultOf(init)) && (k in VaultOf(s) ==> VaultOf(s)[k] == VaultOf(init)[k])
    {
      KeySplits(s, k);
    }
  }

  lemma {:induction false} KeySplits(s: Slots, k: string)
    requires KeysDistinct(s) && s != [] && KeysDistinct(s[..|s| - 1])
    ensures var init, last := s[..|s| - 1], s[|s| - 1];
            if last.used && k == last.Key()
            then k in VaultOf(s) && VaultOf(s)[k] == last.Content() && k !in VaultOf(init)
            else (k in VaultOf(s) <==> k in VaultOf(init)) && (k in VaultOf(s) ==> VaultOf(s)[k] == VaultOf(init)[k])
  {
    hide VaultOf, Slot.Key, Slot.Content;
    var n := |s| - 1;
    var init: Slots := s[..n];
    if k in VaultOf(init) {
      var j := Holder(init, k);
      HeldInVault(s, j, k);
    }
    if s[n].used && k == s[n].Key() {
      HeldInVault(s, n, k);
    } else if k in VaultOf(s) {
      var j := Holder(s, k);
      HeldInVault(init, j, k);
    }
  }

  lemma {:induction false} CountBound(s: Slots)
    ensures UsedCount(s) <= |s| && (UsedCount(s) == |s| <==> AllUsed(s))
  {
    if s != [] {
      var init := s[..|s| - 1];
      CountBound(init);
      assert AllUsed(s) <==> AllUsed(init) && s[|s| - 1].used by {
        if AllUsed(init) && s[|s| - 1].used {
          forall i | 0 <= i < |s| ensures s[i].used {
            assert i < |init| ==> s[i] == init[i];
          }
        }
        if AllUsed(s) {
          forall i | 0 <= i < |init| ensures init[i].used {
            assert init[i] == s[i];
          }
        }
      }
    }
  }

  /** Every slot is used exactly when the map has as many keys as there are slots. */
  lemma {:induction false} FullVault(s: Slots)
    requires KeysDistinct(s)
    ensures |VaultOf(s)| <= |s| && (|VaultOf(s)| == |s| <==> AllUsed(s))
  {
    VaultSize(s);
    CountBound(s);
  }

  // ---- the calls ----------------------------------------------------------

  datatype Call =
    | Write(c: Credential)
    | Read(target: Option<string>)
    | Delete(target: Option<string>)
    | Confirm(target: Option<string>, keep: bool)
    | Enumerate
    | Prompt(p: Dialog)

  /** What a prompt is given: its target, the contents and sizes of its two buffers, two of its flags. */
  datatype Dialog = Dialog(target: Option<string>, user: string, userSize: U32, password: string, passSize: U32,
                           persist: bool, generic: bool) {
    function User(): string {
      Filled(user, "user", userSize)
    }

    function Password(): string {
      Filled(password, "pass", passSize)
    }

    function Kept(): (e: Entry)
      requires target.Some?
    {
      var b := BytesOf(Password());
      Entry(if generic then 1 else 2, 3, Cut(target.value), Cut(User()),
            if |b| < CRED_BLOB then b else b[..CRED_BLOB - 1])
    }

    /** Whether it is to store an entry under a name too long for its buffer. */
    predicate StoresLong() {
      persist && userSize != 0 && passSize != 0 && target.Some? && |target.value| >= CRED_NAME
    }
  }

  /** A buffer as a prompt leaves it: what was there, or a default cut to the buffer. */
  function Filled(s: string, default: string, size: U32): string {
    if s != "" then s
    else if size == 0 then ""
    else if |default| < size then default
    else default[..size - 1]
  }

  function BytesOf(s: string): (b: seq<Byte>)
    ensures |b| == |s|
  {
    seq<Byte>(|s|, (i: int) requires 0 <= i < |s| => s[i] as int % 256)
  }

  /** What was there is kept; an empty buffer gets as much of `default` as fits before the terminator. */
  predicate FilledIn(s: string, default: string, size: nat, r: string) {
    if s != "" then r == s else r <= default && |r| == if |default| < size then |default| else size - 1
  }

  /** What a prompt leaves in its buffers, and what it keeps if asked. */
  lemma {:induction false} PromptFields(d: Dialog)
    requires d.userSize > 0 && d.passSize > 0
    ensures FilledIn(d.user, "user", d.userSize, d.User()) && FilledIn(d.password, "pass", d.passSize, d.Password())
    ensures d.target.Some? ==>
              var (e, p) := (d.Kept(), d.Password());
              && e.kind == (if d.generic then 1 else 2) && e.persist == 3
              && CutName(d.target.value, e.target) && CutName(d.User(), e.username)
              && |e.blob| == (if |p| > 255 then 255 else |p|)
              && forall i :: 0 <= i < |e.blob| ==> e.blob[i] == p[i] as int % 256
  {
  }

  datatype Reply = Reply(ok: bool, entry: Option<Entry>, list: seq<Entry>, user: string, password: string)

  const YES: Reply := Reply(true, None, [], "", "")
  const NO: Reply := Reply(false, None, [], "", "")

  predicate Named(v: Vault, target: Option<string>) {
    target.Some? && Fold(target.value) in v
  }

  function Without(v: Vault, target: Option<string>): Vault {
    if target.Some? then v - {Fold(target.value)} else v
  }

  /** Whether the map can take an entry for `target`: the key is there, or fewer than 16 are. */
  predicate HasRoom(v: Vault, target: string) {
    Fold(target) in v || |v| < MAX_CREDS
  }

  function Stored(v: Vault, target: string, e: Entry): Vault {
    if HasRoom(v, target) then v[Fold(target) := e] else v
  }

  /** The list holds every entry of the map exactly once. */
  predicate Lists(v: Vault, list: seq<Entry>) {
    && |list| == |v|
    && (forall i :: 0 <= i < |list| ==> Fold(list[i].target) in v && v[Fold(list[i].target)] == list[i])
    && (forall i, j :: 0 <= i < j < |list| ==> Fold(list[i].target) != Fold(list[j].target))
  }

  predicate CallValid(call: Call) {
    call.Write? ==> call.c.Valid()
  }

  /** What a call replies, and the map it leaves. */
  predicate Step(v: Vault, call: Call, r: Reply, w: Vault)
    requires CallValid(call)
  {
    match call
    case Write(c) =>
      if c.target == None then !r.ok && w == v
      else r.ok == HasRoom(v, c.target.value) && w == Stored(v, c.target.value, c.Kept())
    case Read(t) =>
      w == v && r.ok == Named(v, t) && r.entry == if Named(v, t) then Some(v[Fold(t.value)]) else None
    case Delete(t) => r.ok == Named(v, t) && w == Without(v, t)
    case Confirm(t, keep) => r.ok == t.Some? && w == if keep then v else Without(v, t)
    case Enumerate => w == v && Lists(v, r.list) && r.ok == (v != map[])
    case Prompt(p) =>
      && r.ok == (p.userSize != 0 && p.passSize != 0)
      && (r.ok ==> r.user == p.User() && r.password == p.Password())
      && w == if r.ok && p.target.Some? && p.persist then Stored(v, p.target.value, p.Kept()) else v
  }

  // ---- runs ---------------------------------------------------------------

  predicate Trace(vaults: seq<Vault>, calls: seq<Call>, replies: seq<Reply>) {
    && |vaults| == |calls| + 1 && |replies| == |calls|
    && (forall n :: 0 <= n < |calls| ==> CallValid(calls[n]))
    && forall n :: 0 <= n < |calls| ==> Step(vaults[n], calls[n], replies[n], vaults[n + 1])
  }

  /** The key whose entry a call may change. */
  function Subject(call: Call): Option<string> {
    var t := match call
      case Write(c) => c.target
      case Read(_) => None
      case Delete(t) => t
      case Confirm(t, keep) => if keep then None else t
      case Enumerate => None
      case Prompt(p) => if p.persist then p.target else None;
    if t.Some? then Some(Fold(t.value)) else None
  }

  lemma {:induction false} StepKeepsOthers(v: Vault, call: Call, r: Reply, w: Vault, k: string)
    requires CallValid(call) && Step(v, call, r, w) && Subject(call) != Some(k)
    ensures (k in w <==> k in v) && (k in v ==> w[k] == v[k])
  {
    hide Fold, Lists;
  }

  lemma {:induction false} RunKeepsKey(vaults: seq<Vault>, calls: seq<Call>, replies: seq<Reply>, m: nat, n: nat,
          k: string)
    requires Trace(vaults, calls, replies) && m <= n <= |calls|
    requires forall i :: m <= i < n ==> Subject(calls[i]) != Some(k)
    ensures (k in vaults[n] <==> k in vaults[m]) && (k in vaults[m] ==> vaults[n][k] == vaults[m][k])
    decreases n
  {
    hide Step, Subject;
    if m < n {
      RunKeepsKey(vaults, calls, replies, m, n - 1, k);
      StepKeepsOthers(vaults[n - 1], calls[n - 1], replies[n - 1], vaults[n], k);
    }
  }

  /** A read finds what was last written under its name, in any letter case. */
  lemma {:induction false} ReadFindsLastWrite(vaults: seq<Vault>, calls: seq<Call>, replies: seq<Reply>, m: nat, n: nat)
    requires Trace(vaults, calls, replies) && m < n < |calls|
    requires calls[m].Write? && replies[m].ok && calls[n].Read? && calls[n].target.Some?
    requires calls[m].c.target.Some? && Fold(calls[n].target.value) == Fold(calls[m].c.target.value)
    requires forall i :: m < i < n ==> Subject(calls[i]) != Some(Fold(calls[n].target.value))
    ensures replies[n].ok && replies[n].entry == Some(calls[m].c.Kept())
  {
    hide Fold, Subject, Lists;
    RunKeepsKey(vaults, calls, replies, m + 1, n, Fold(calls[n].target.value));
    assert Step(vaults[m], calls[m], replies[m], vaults[m + 1]);
    assert Step(vaults[n], calls[n], replies[n], vaults[n + 1]);
  }

  /** A read after a delete or a refused confirmation finds nothing until the name is written again. */
  lemma {:induction false} ReadMissesDeleted(vaults: seq<Vault>, calls: seq<Call>, replies: seq<Reply>, m: nat, n: nat)
    requires Trace(vaults, calls, replies) && m < n < |calls|
    requires calls[m].Delete? || (calls[m].Confirm? && !calls[m].keep)
    requires calls[n].Read? && calls[n].target.Some? && calls[m].target.Some?
    requires Fold(calls[n].target.value) == Fold(calls[m].target.value)
    requires forall i :: m < i < n ==> Subject(calls[i]) != Some(Fold(calls[n].target.value))
    ensures !replies[n].ok && replies[n].entry == None
  {
    hide Fold, Subject, Lists;
    RunKeepsKey(vaults, calls, replies, m + 1, n, Fold(calls[n].target.value));
    assert Step(vaults[m], calls[m], replies[m], vaults[m + 1]);
    assert Step(vaults[n], calls[n], replies[n], vaults[n + 1]);
  }

  // ---- the slots ----------------------------------------------------------

  class CredentialStore {
    const slots: array<Slot>

    ghost predicate Shaped()
      reads slots
    {
      slots.Length == MAX_CREDS && forall i :: 0 <= i < slots.Length ==> slots[i].Valid()
    }

    ghost predicate Valid()
      reads slots
    {
      Shaped() && KeysDistinct(slots[..])
    }

    ghost function Vault(): Vault
      requires Valid()
      reads slots
    {
      VaultOf(slots[..])
    }

    constructor ()
      ensures Valid() && Vault() == map[] && fresh(slots)
    {
      slots := new Slot[MAX_CREDS](_ => Slot(false, 0, 0, "", "", StructPack.Zeros(CRED_BLOB), 0));
    }

    /** The comparison of names: letter by letter, capitals taken as small. */
    static method Same(a: string, b: string) returns (r: bool)
      ensures r <==> Fold(a) == Fold(b)
      ensures r <==>
                |a| == |b| && forall i :: 0 <= i < |a| ==> a[i] == b[i] || CasePair(a[i], b[i]) || CasePair(b[i], a[i])
    {
      SameKey(a, b);
      var i := 0;
      while i < |a| && i < |b|
        invariant i <= |a| && i <= |b| && forall k :: 0 <= k < i ==> Fold(a)[k] == Fold(b)[k]
      {
        var x, y := Lower(a[i]), Lower(b[i]);
        if x != y {
          assert Fold(a)[i] != Fold(b)[i];
          return false;
        }
        i := i + 1;
      }
      r := i == |a| && i == |b|;
    }

    method VaultFind(target: Option<string>) returns (i: int)
      requires Shaped()
      ensures -1 <= i < MAX_CREDS
      ensures i >= 0 ==> target.Some? && HeldAt(slots[..], i, Fold(target.value))
      ensures i < 0 && target.Some? ==> forall j :: 0 <= j < MAX_CREDS ==> !HeldAt(slots[..], j, Fold(target.value))
    {
      hide Fold;
      if target == None {
        return -1;
      }
      i := 0;
      while i < MAX_CREDS
        invariant 0 <= i <= MAX_CREDS
        invariant forall j :: 0 <= j < i ==> !HeldAt(slots[..], j, Fold(target.value))
      {
        if slots[i].used {
          var same := Same(slots[i].target, target.value);
          if same {
            return i;
          }
        }
        i := i + 1;
      }
      i := -1;
    }

    method VaultAlloc() returns (i: int)
      requires Shaped()
      ensures -1 <= i < MAX_CREDS && (i >= 0 ==> !slots[i].used)
      ensures i < 0 ==> AllUsed(slots[..])
    {
      i := 0;
      while i < MAX_CREDS
        invariant 0 <= i <= MAX_CREDS && forall j :: 0 <= j < i ==> slots[j].used
      {
        if !slots[i].used {
          return i;
        }
        i := i + 1;
      }
      i := -1;
    }

    /** Overwrites a slot: names cut to their buffers, the blob byte by byte. */
    method Fill(idx: nat, kind: U32, persist: U32, target: string, username: string, data: seq<Byte>)
      requires Shaped() && idx < MAX_CREDS && |data| <= CRED_BLOB
      modifies slots
      ensures Shaped() && slots[..] == old(slots[..])[idx := slots[idx]]
      ensures slots[idx].used && slots[idx].Content() == Entry(kind, persist, Cut(target), Cut(username), data)
    {
      slots[idx] := slots[idx].(used := true);
      slots[idx] := slots[idx].(kind := kind, persist := persist);
      slots[idx] := slots[idx].(target := Cut(target));
      slots[idx] := slots[idx].(username := Cut(username));
      ghost var filled := slots[idx];
      for i := 0 to |data|
        invariant slots.Length == MAX_CREDS && slots[idx] == filled.(blob := slots[idx].blob)
        invariant |slots[idx].blob| == CRED_BLOB && slots[idx].blob[..i] == data[..i]
        invariant forall j :: 0 <= j < slots.Length && j != idx ==> slots[j] == old(slots[j])
      {
        var blob: seq<Byte> := slots[idx].blob[i := data[i]];
        slots[idx] := slots[idx].(blob := blob);
      }
      slots[idx] := slots[idx].(blobSize := |data|);
      assert data[..|data|] == data;
    }

    /** The slot for a target: the one that holds it, or else the first unused one. */
    method SlotFor(target: string) returns (idx: int)
      requires Valid()
      ensures -1 <= idx < MAX_CREDS
      ensures idx < 0 ==> AllUsed(slots[..]) && Fold(target) !in Vault()
      ensures idx >= 0 ==> if slots[idx].used then HeldAt(slots[..], idx, Fold(target)) else Fold(target) !in Vault()
    {
      hide Fold, VaultOf, KeysDistinct;
      idx := VaultFind(Some(target));
      if idx < 0 {
        if Fold(target) in Vault() {
          var j := Holder(slots[..], Fold(target));
          assert false;
        }
        idx := VaultAlloc();
      }
    }

    /** A name of less than 64 characters refines the map, a longer one is kept cut. */
    method CredWrite(c: Credential) returns (ok: bool)
      requires Valid() && c.Valid()
      modifies slots
      ensures Shaped() && (c.target == None ==> !ok)
      ensures c.target == None || |c.target.value| < CRED_NAME ==>
                Valid() && Step(old(Vault()), Write(c), YES.(ok := ok), Vault())
      ensures c.target.Some? && |c.target.value| >= CRED_NAME ==>
                && ok == (|old(Vault())| < MAX_CREDS)
                && StoredCut(old(slots[..]), slots[..], c.target.value, c.Kept())
      ensures ok ==> (Found(slots[..], c.target.value) <==> |c.target.value| < CRED_NAME)
    {
      hide Fold, VaultOf, KeysDistinct;
      if c.target == None {
        return false;
      }
      FullVault(slots[..]);
      ghost var s := slots[..];
      var idx := SlotFor(c.target.value);
      if idx < 0 {
        return false;
      }
      var n := if c.size > CRED_BLOB then CRED_BLOB else c.size;
      Fill(idx, if c.kind != 0 then c.kind else 1, if c.persist != 0 then c.persist else 3, c.target.value,
           if c.username.Some? then c.username.value else "",
           if c.blob.Some? then c.blob.value[..n] else StructPack.Zeros(n));
      if |c.target.value| < CRED_NAME {
        ShortKept(s, idx, slots[idx], c.target.value);
      } else {
        LongKept(s, idx, slots[idx], c.target.value);
        assert PutAt(s, slots[..], idx, c.Kept());
      }
      ok := true;
    }

    /** What storing an entry for a short name in its slot does to the map. */
    static lemma {:induction false} ShortKept(s: Slots, i: nat, e: Slot, target: string)
      requires KeysDistinct(s) && i < |s| == MAX_CREDS && e.Valid() && e.used && e.target == Cut(target)
      requires if s[i].used then HeldAt(s, i, Fold(target)) else Fold(target) !in VaultOf(s)
      requires |target| < CRED_NAME
      ensures HasRoom(VaultOf(s), target) && KeysDistinct(s[i := e]) && Found(s[i := e], target)
      ensures VaultOf(s[i := e]) == Stored(VaultOf(s), target, e.Content())
    {
      hide Fold, VaultOf, KeysDistinct, Slot.Content;
      FullVault(s);
      if s[i].used {
        HeldInVault(s, i, Fold(target));
        StoredOver(s, i, e);
      } else {
        StoredNew(s, i, e);
      }
      var t: Slots := s[i := e];
      assert HeldAt(t, i, Fold(target));
    }

    /** And for a long one, which no slot holds. */
    static lemma {:induction false} LongKept(s: Slots, i: nat, e: Slot, target: string)
      requires KeysDistinct(s) && i < |s| == MAX_CREDS && e.Valid() && e.used && e.target == Cut(target)
      requires !s[i].used && |target| >= CRED_NAME
      ensures |VaultOf(s)| < MAX_CREDS && !Found(s[i := e], target)
      ensures KeysDistinct(s[i := e]) <==> Fold(Cut(target)) !in VaultOf(s)
    {
      hide Fold, VaultOf, Slot.Content;
      FullVault(s);
      var k := Fold(Cut(target));
      if k in VaultOf(s) {
        var j := Holder(s, k);
        var t: Slots := s[i := e];
        assert t[j].Key() == t[i].Key() && t[j].used;
      } else {
        assert forall j :: 0 <= j < |s| && s[j].used && s[j].Key() == k ==> HeldAt(s, j, k);
        forall j | 0 <= j < |s| ensures !HeldAt(s, j, k) {
          if HeldAt(s, j, k) {
            HeldInVault(s, j, k);
          }
        }
        DistinctWith(s, i, e);
      }
    }

    static lemma {:induction false} DistinctWith(s: Slots, i: nat, e: Slot)
      requires KeysDistinct(s) && i < |s| && e.Valid() && forall j :: 0 <= j < |s| ==> !HeldAt(s, j, e.Key())
      ensures KeysDistinct(s[i := e])
    {
      hide Fold;
      var t: Slots := s[i := e];
      forall j, l | 0 <= j < l < |t| && t[j].used && t[l].used ensures t[j].Key() != t[l].Key() {
        assert !HeldAt(s, j, e.Key()) && !HeldAt(s, l, e.Key());
      }
    }

    static lemma {:induction false} FoundIsNamed(s: Slots, i: int, target: Option<string>)
      requires KeysDistinct(s)
      requires if i >= 0 then target.Some? && HeldAt(s, i, Fold(target.value))
               else target.Some? ==> forall j :: 0 <= j < |s| ==> !HeldAt(s, j, Fold(target.value))
      ensures Named(VaultOf(s), target) <==> i >= 0
      ensures i >= 0 ==> VaultOf(s)[Fold(target.value)] == s[i].Content()
    {
      hide Fold, VaultOf, KeysDistinct, Slot.Content;
      if i >= 0 {
        HeldInVault(s, i, Fold(target.value));
      } else if Named(VaultOf(s), target) {
        var j := Holder(s, Fold(target.value));
        assert false;
      }
    }

    method CredRead(target: Option<string>) returns (entry: Option<Entry>)
      requires Valid()
      ensures Step(Vault(), Read(target), YES.(ok := entry.Some?, entry := entry), Vault())
    {
      hide Fold, VaultOf, KeysDistinct;
      var idx := VaultFind(target);
      FoundIsNamed(slots[..], idx, target);
      if idx < 0 {
        return None;
      }
      entry := Some(slots[idx].Content());
    }

    /** Clears the slot of a target, if there is one. */
    method Remove(target: Option<string>) returns (found: bool)
      requires Valid()
      modifies slots
      ensures Valid() && found == Named(old(Vault()), target) && Vault() == Without(old(Vault()), target)
    {
      hide Fold, VaultOf, KeysDistinct;
      ghost var s := slots[..];
      var idx := VaultFind(target);
      FoundIsNamed(slots[..], idx, target);
      found := idx >= 0;
      if idx >= 0 {
        Removed(s, idx);
        slots[idx] := slots[idx].(used := false);
        assert slots[..] == s[idx := slots[idx]];
      } else if target.Some? {
        assert VaultOf(s) - {Fold(target.value)} == VaultOf(s);
      }
    }

    method CredDelete(target: Option<string>) returns (ok: bool)
      requires Valid()
      modifies slots
      ensures Valid() && Step(old(Vault()), Delete(target), YES.(ok := ok), Vault())
    {
      ok := Remove(target);
    }

    /** A confirmation leaves what the prompt saved; a refusal removes it. */
    method CredUIConfirm(target: Option<string>, keep: bool) returns (ok: bool)
      requires Valid()
      modifies slots
      ensures Valid() && Step(old(Vault()), Confirm(target, keep), YES.(ok := ok), Vault())
    {
      if target == None {
        return false;
      }
      var idx := VaultFind(target);
      if keep {
        return true;
      }
      var _ := Remove(target);
      ok := true;
    }

    /** The used slots in order; an empty vault counts as a failure. */
    method CredEnumerate() returns (ok: bool, list: seq<Entry>)
      requires Valid()
      ensures Step(Vault(), Enumerate, YES.(ok := ok, list := list), Vault())
    {
      hide Fold, VaultOf, KeysDistinct, Slot.Content;
      list := [];
      ghost var at: seq<nat> := [];
      for i := 0 to MAX_CREDS
        invariant |list| == |at| == UsedCount(slots[..i])
        invariant forall m :: 0 <= m < |at| ==> at[m] < i && slots[at[m]].used && list[m] == slots[at[m]].Content()
        invariant forall m, n :: 0 <= m < n < |at| ==> at[m] < at[n]
      {
        assert slots[..i + 1][..i] == slots[..i];
        if slots[i].used {
          list, at := list + [slots[i].Content()], at + [i];
        }
      }
      assert slots[..MAX_CREDS] == slots[..];
      Listed(slots[..], list, at);
      ok := |list| != 0;
    }

    static lemma {:induction false} Listed(s: Slots, list: seq<Entry>, at: seq<nat>)
      requires KeysDistinct(s) && |list| == |at| == UsedCount(s)
      requires forall m :: 0 <= m < |at| ==> at[m] < |s| && s[at[m]].used && list[m] == s[at[m]].Content()
      requires forall m, n :: 0 <= m < n < |at| ==> at[m] < at[n]
      ensures Lists(VaultOf(s), list) && (VaultOf(s) != map[] <==> |list| != 0)
    {
      hide Fold, VaultOf, KeysDistinct, Slot.Key, Slot.Content, UsedCount;
      VaultSize(s);
      forall m | 0 <= m < |list|
        ensures Fold(list[m].target) in VaultOf(s) && VaultOf(s)[Fold(list[m].target)] == list[m]
      {
        ContentKey(s[at[m]]);
        HeldInVault(s, at[m], Fold(list[m].target));
      }
      forall m, n | 0 <= m < n < |list| ensures Fold(list[m].target) != Fold(list[n].target) {
        ContentKey(s[at[m]]);
        ContentKey(s[at[n]]);
        DistinctKeys(s, at[m], at[n]);
      }
    }

    static lemma {:induction false} ContentKey(slot: Slot)
      requires slot.Valid()
      ensures Fold(slot.Content().target) == slot.Key()
    {
    }

    static lemma {:induction false} DistinctKeys(s: Slots, i: nat, j: nat)
      requires KeysDistinct(s) && i < j < |s| && s[i].used && s[j].used
      ensures s[i].Key() != s[j].Key()
    {
    }

    /** Fills in defaults, and saves what is in the buffers if asked to; a full vault is not reported. */
    method CredUIPrompt(p: Dialog) returns (ok: bool, user: string, password: string)
      requires Valid()
      modifies slots
      ensures Shaped() && ok == (p.userSize != 0 && p.passSize != 0)
      ensures ok ==> user == p.User() && password == p.Password()
      ensures !p.StoresLong() ==> Valid() && Step(old(Vault()), Prompt(p), Reply(ok, None, [], user, password), Vault())
      ensures p.StoresLong() ==> StoredCut(old(slots[..]), slots[..], p.target.value, p.Kept())
    {
      hide Fold, VaultOf, KeysDistinct, Filled;
      user, password := p.user, p.password;
      if p.userSize == 0 || p.passSize == 0 {
        return false, user, password;
      }
      user, password := p.User(), p.Password();
      if p.target.Some? && p.persist {
        FullVault(slots[..]);
        ghost var s := slots[..];
        var idx := SlotFor(p.target.value);
        if idx >= 0 {
          var n := if |password| > CRED_BLOB - 1 then CRED_BLOB - 1 else |password|;
          Fill(idx, if p.generic then 1 else 2, 3, p.target.value, user, BytesOf(password)[..n]);
          assert BytesOf(password)[..|password|] == BytesOf(password);
          if |p.target.value| < CRED_NAME {
            ShortKept(s, idx, slots[idx], p.target.value);
          } else {
            LongKept(s, idx, slots[idx], p.target.value);
            assert PutAt(s, slots[..], idx, p.Kept());
          }
        }
      }
      ok := true;
    }

    // ---- runs -------------------------------------------------------------

    static predicate Admissible(call: Call) {
      match call
      case Write(c) => c.Valid() && (c.target.Some? ==> |c.target.value| < CRED_NAME)
      case Prompt(p) => !p.StoresLong()
      case _ => true
    }

    method Perform(call: Call) returns (r: Reply)
      requires Valid() && Admissible(call)
      modifies slots
      ensures Valid() && Step(old(Vault()), call, r, Vault())
    {
      hide Fold, VaultOf, KeysDistinct, Lists;
      r := NO;
      match call
      case Write(c) =>
        var ok := CredWrite(c);
        r := YES.(ok := ok);
      case Read(t) =>
        var e := CredRead(t);
        r := YES.(ok := e.Some?, entry := e);
      case Delete(t) =>
        var ok := CredDelete(t);
        r := YES.(ok := ok);
      case Confirm(t, keep) =>
        var ok := CredUIConfirm(t, keep);
        r := YES.(ok := ok);
      case Enumerate =>
        var ok, list := CredEnumerate();
        r := YES.(ok := ok, list := list);
      case Prompt(p) =>
        var ok, user, password := CredUIPrompt(p);
        r := Reply(ok, None, [], user, password);
    }

    /** Any run of calls with short names is a run of the map, and leaves no key in two slots. */
    method Run(calls: seq<Call>) returns (replies: seq<Reply>, ghost vaults: seq<Vault>)
      requires Valid() && forall i :: 0 <= i < |calls| ==> Admissible(calls[i])
      modifies slots
      ensures Valid() && Trace(vaults, calls, replies) && vaults[0] == old(Vault()) && vaults[|calls|] == Vault()
    {
      hide Step, VaultOf, KeysDistinct;
      replies, vaults := [], [Vault()];
      for i := 0 to |calls|
        invariant Valid() && Trace(vaults, calls[..i], replies) && vaults[0] == old(Vault()) && vaults[i] == Vault()
      {
        var r := Perform(calls[i]);
        assert calls[..i + 1] == calls[..i] + [calls[i]];
        replies, vaults := replies + [r], vaults + [Vault()];
      }
      assert calls[..|calls|] == calls;
    }
  }
}
