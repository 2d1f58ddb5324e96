/**
 The two passes of exception handling: RtlDispatchException searches for a
 handler, RtlUnwindEx unwinds to the frame that caught.
 */
module ExceptionDispatch {
  import opened Words
  import opened Memory
  import opened UnwindCodes
  import opened VirtualUnwind
  import opened FunctionTable
  import opened CallStack

  const RAX: Nibble := 0
  const MAX_FRAMES: nat := 4096

  /** Exception flags, as the positions of the bits that are set. */
  type Flags = set<nat>

  const EXC_NONCONTINUABLE: Flags := {0}
  const EXC_UNWINDING: Flags := {1}
  const EXC_EXIT_UNWIND: Flags := {2}
  const EXC_TARGET_UNWIND: Flags := {5}

  /** All a language handler is given: the exception flags, the frame, a context and the dispatcher context. */
  datatype HandlerCall = HandlerCall(
    handler: U64, flags: Flags, establisher: U64, context: Cpu,
    controlPc: U64, base: U64, fn: RuntimeFunction, targetIp: U64, data: U64)

  /** What a handler answers in the search; `ctx` is the context record as it leaves it. */
  datatype Verdict =
    | ContinueExecution(ctx: Cpu)
    | ContinueSearch(ctx: Cpu)
    | Catch(targetFrame: U64, targetIp: U64, retval: U64)

  /** Handlers are not part of the model: the k-th call is answered by an oracle. */
  type SearchOracle = (nat, HandlerCall) -> Verdict
  type UnwindOracle = (nat, HandlerCall) -> Cpu

  /** How the search ends: it returns to RtlRaiseException, restores a context, or a handler unwinds. */
  datatype Outcome =
    | Returned
    | Resumed(ctx: Cpu)
    | Unwinding(targetFrame: U64, targetIp: U64, retval: U64)

  function UnwindAt(w: World, m: Mem, kind: HandlerKind, e: Found, c: Cpu): Unwound
    requires ChainEnds(m, e.base, InfoOf(e), w.links)
  {
    Unwind(m, kind, e.base, InfoOf(e), w.links, c)
  }

  lemma {:induction false} CallerIsUnwound(w: World, m: Mem, kind: HandlerKind, e: Found, c: Cpu)
    requires ChainsEnd(w, m) && FindEntry(w.modules, c.rip) == Some(e)
    ensures CallerOf(w, m, c) == UnwindAt(w, m, kind, e, c).cpu
  {
  }

  // ---- the search pass ----------------------------------------------------

  /** What the search does at one frame with a handler: it goes on with a context record, or ends. */
  datatype Decision = GoOn(record: Cpu) | Stop(outcome: Outcome)

  function Decide(verdict: Verdict, flags: Flags): Decision {
    match verdict
    case ContinueExecution(c) => Stop(if EXC_NONCONTINUABLE <= flags then Returned else Resumed(c))
    case ContinueSearch(c) => GoOn(c)
    case Catch(frame, ip, retval) => Stop(Unwinding(frame, ip, retval))
  }

  /** The call of the search handler of the function at `c`, if it has one. */
  function SearchCallAt(w: World, m: Mem, c: Cpu, flags: Flags, record: Cpu): (calls: seq<HandlerCall>)
    requires ChainsEnd(w, m)
    ensures |calls| <= 1
  {
    match FindEntry(w.modules, c.rip)
    case None => []
    case Some(e) =>
      var u := UnwindAt(w, m, EHandler, e, c);
      if u.handler == 0 then []
      else [HandlerCall(u.handler, flags, u.establisher, record, c.rip, e.base, e.fn, 0, u.data)]
  }

  /** The search over the visited contexts, innermost first: its calls, the first being the k-th, and the outcome. */
  function Search(w: World, m: Mem, oracle: SearchOracle, flags: Flags, visits: seq<Cpu>, record: Cpu, k: nat)
    : (seq<HandlerCall>, Outcome)
    requires ChainsEnd(w, m)
    decreases |visits|
  {
    if visits == [] then ([], Returned)
    else
      var calls := SearchCallAt(w, m, visits[0], flags, record);
      var d := if calls == [] then GoOn(record) else Decide(oracle(k, calls[0]), flags);
      if d.Stop? then (calls, d.outcome)
      else
        var (rest, outcome) := Search(w, m, oracle, flags, visits[1..], d.record, k + |calls|);
        (calls + rest, outcome)
  }

  /** The search as the loop runs it: one frame, then on from the caller's context. */
  function SearchRun(w: World, m: Mem, oracle: SearchOracle, flags: Flags, c: Cpu, n: nat, record: Cpu,
                     log: seq<HandlerCall>): (seq<HandlerCall>, Outcome)
    requires ChainsEnd(w, m)
    decreases n
  {
    if n == 0 then (log, Returned)
    else
      var calls := SearchCallAt(w, m, c, flags, record);
      var d := if calls == [] then GoOn(record) else Decide(oracle(|log|, calls[0]), flags);
      if d.Stop? then (log + calls, d.outcome)
      else if IsLast(w, m, c) then (log + calls, Returned)
      else SearchRun(w, m, oracle, flags, CallerOf(w, m, c), n - 1, d.record, log + calls)
  }

  lemma {:induction false} SearchRunsOverTheWalk(w: World, m: Mem, oracle: SearchOracle, flags: Flags, c: Cpu, n: nat,
                                                 record: Cpu, log: seq<HandlerCall>)
    requires ChainsEnd(w, m)
    ensures var (calls, outcome) := Search(w, m, oracle, flags, Walk(w, m, c, n), record, |log|);
            SearchRun(w, m, oracle, flags, c, n, record, log) == (log + calls, outcome)
    decreases n
  {
    hide SearchCallAt, Decide, CallerOf, IsLast, Search, ChainsEnd;
    SearchNone(w, m, oracle, flags, record, |log|);
    if n == 0 {
      assert log + [] == log;
    } else {
      var calls := SearchCallAt(w, m, c, flags, record);
      var d := if calls == [] then GoOn(record) else Decide(oracle(|log|, calls[0]), flags);
      var next := CallerOf(w, m, c);
      var rest := if IsLast(w, m, c) then [] else Walk(w, m, next, n - 1);
      assert [c] + [] == [c];
      SearchFirst(w, m, oracle, flags, c, rest, record, |log|);
      if d.GoOn? {
        SearchNone(w, m, oracle, flags, d.record, |log| + |calls|);
        if IsLast(w, m, c) {
          assert calls + [] == calls;
        } else {
          SearchRunsOverTheWalk(w, m, oracle, flags, next, n - 1, d.record, log + calls);
          Assoc(log, calls, Search(w, m, oracle, flags, rest, d.record, |log + calls|).0);
        }
      }
    }
  }

  lemma {:induction false} SearchNone(w: World, m: Mem, oracle: SearchOracle, flags: Flags, record: Cpu, k: nat)
    requires ChainsEnd(w, m)
    ensures Search(w, m, oracle, flags, [], record, k) == ([], Returned)
  {
    hide ChainsEnd;
  }

  lemma {:induction false} SearchFirst(w: World, m: Mem, oracle: SearchOracle, flags: Flags, c: Cpu, rest: seq<Cpu>,
                                       record: Cpu, k: nat)
    requires ChainsEnd(w, m)
    ensures var calls := SearchCallAt(w, m, c, flags, record);
            var d := if calls == [] then GoOn(record) else Decide(oracle(k, calls[0]), flags);
            Search(w, m, oracle, flags, [c] + rest, record, k)
            == if d.Stop? then (calls, d.outcome)
               else var (later, outcome) := Search(w, m, oracle, flags, rest, d.record, k + |calls|);
                    (calls + later, outcome)
  {
    hide ChainsEnd, SearchCallAt, Decide;
    assert ([c] + rest)[1..] == rest;
  }

  // ---- the unwind pass ----------------------------------------------------

  /** Unwinding from `c`, at most `n` frames: the context reached, the flags and the calls made. */
  function UnwindRun(w: World, m: Mem, oracle: UnwindOracle, c: Cpu, n: nat, flags: Flags, target: U64, ip: U64,
                     log: seq<HandlerCall>): (Cpu, Flags, seq<HandlerCall>)
    requires ChainsEnd(w, m)
    decreases n
  {
    if n == 0 then (c, flags, log)
    else
      match FindEntry(w.modules, c.rip)
      case None =>
        if Rsp(c) < 0x1_0000 then (c, flags, log)
        else if PopReturn(m, c).rip == 0 then (PopReturn(m, c), flags, log)
        else UnwindRun(w, m, oracle, PopReturn(m, c), n - 1, flags, target, ip, log)
      case Some(e) =>
        var u := UnwindAt(w, m, UHandler, e, c);
        var flags' := if u.establisher == target then flags + EXC_TARGET_UNWIND else flags;
        var calls := CallAt(w, m, c, flags', ip);
        var c' := if calls == [] then c else oracle(|log|, calls[0]);
        if u.establisher == target then (c', flags', log + calls)
        else if u.cpu.rip == 0 then (u.cpu, flags', log + calls)
        else UnwindRun(w, m, oracle, u.cpu, n - 1, flags', target, ip, log + calls)
  }

  lemma {:induction false} UnwindCapped(w: World, m: Mem, oracle: UnwindOracle, c: Cpu, flags: Flags, target: U64,
          ip: U64, log: seq<HandlerCall>)
    requires ChainsEnd(w, m)
    ensures UnwindRun(w, m, oracle, c, 0, flags, target, ip, log) == (c, flags, log)
  {
    hide ChainsEnd;
  }

  /** The call of the unwind handler of the function at `c`, if it has one. */
  function CallAt(w: World, m: Mem, c: Cpu, flags: Flags, ip: U64): (calls: seq<HandlerCall>)
    requires ChainsEnd(w, m)
    ensures |calls| <= 1
  {
    match FindEntry(w.modules, c.rip)
    case None => []
    case Some(e) =>
      var u := UnwindAt(w, m, UHandler, e, c);
      if u.handler == 0 then []
      else [HandlerCall(u.handler, flags, u.establisher, c, c.rip, e.base, e.fn, ip, u.data)]
  }

  /** The calls of the unwind handlers of the visited functions, in order. */
  function CallsAt(w: World, m: Mem, visits: seq<Cpu>, flags: Flags, ip: U64): seq<HandlerCall>
    requires ChainsEnd(w, m)
  {
    if visits == [] then [] else CallAt(w, m, visits[0], flags, ip) + CallsAt(w, m, visits[1..], flags, ip)
  }

  /** The context the unwind finally restores. */
  function Landing(c: Cpu, ip: U64, retval: U64): Cpu {
    SetReg(c, RAX, retval).(rip := ip)
  }

  // ---- the calls, frame by frame ------------------------------------------

  /** The function at `c` has a handler of the kind, at an address other than 0. */
  predicate Offers(w: World, m: Mem, kind: HandlerKind, c: Cpu)
    requires ChainsEnd(w, m)
  {
    match FindEntry(w.modules, c.rip)
    case None => false
    case Some(e) => Unwind(m, kind, e.base, InfoOf(e), w.links, c).handler != 0
  }

  /** The call is to that handler, and tells it of the function and its frame. */
  predicate IsAbout(w: World, m: Mem, kind: HandlerKind, c: Cpu, call: HandlerCall)
    requires ChainsEnd(w, m)
  {
    match FindEntry(w.modules, c.rip)
    case None => false
    case Some(e) =>
      var u := Unwind(m, kind, e.base, InfoOf(e), w.links, c);
      && call.handler == u.handler && call.establisher == u.establisher && call.data == u.data
      && call.controlPc == c.rip && call.base == e.base && call.fn == e.fn
  }

  /** `at` picks out frames, from the innermost outwards. */
  predicate Picks(at: seq<nat>, n: nat) {
    && (forall j :: 0 <= j < |at| ==> at[j] < n)
    && (forall j, k :: 0 <= j < k < |at| ==> at[j] < at[k])
  }

  function Later(at: seq<nat>): (b: seq<nat>)
    ensures |b| == |at| && forall j :: 0 <= j < |at| ==> b[j] == at[j] + 1
  {
    seq<nat>(|at|, (j: int) requires 0 <= j < |at| => at[j] + 1)
  }

  /** Each call is to the search handler of the frame `at` picks for it. */
  predicate AsksAt(w: World, m: Mem, flags: Flags, visits: seq<Cpu>, calls: seq<HandlerCall>, at: seq<nat>)
    requires ChainsEnd(w, m)
  {
    && |at| == |calls| && Picks(at, |visits|)
    && forall j :: 0 <= j < |calls| ==>
         && Offers(w, m, EHandler, visits[at[j]]) && IsAbout(w, m, EHandler, visits[at[j]], calls[j])
         && calls[j].flags == flags && calls[j].targetIp == 0
  }

  /** The answer to the last call, the first being the k-th. */
  function LastAnswer(oracle: SearchOracle, k: nat, calls: seq<HandlerCall>): Option<Verdict> {
    if calls == [] then None else Some(oracle(k + |calls| - 1, calls[|calls| - 1]))
  }

  /** Every call is given the context that the one before left when it passed the exception on. */
  predicate HandsOn(oracle: SearchOracle, record: Cpu, k: nat, calls: seq<HandlerCall>) {
    && (calls != [] ==> calls[0].context == record)
    && forall j :: 0 < j < |calls| ==> oracle(k + j - 1, calls[j - 1]) == ContinueSearch(calls[j].context)
  }

  /** No frame with a handler is passed over, up to the one that ends the search. */
  predicate MissesNone(w: World, m: Mem, visits: seq<Cpu>, at: seq<nat>, answer: Option<Verdict>)
    requires ChainsEnd(w, m)
  {
    forall i :: 0 <= i < |visits| && Offers(w, m, EHandler, visits[i]) ==>
      i in at || (at != [] && i > at[|at| - 1] && answer.Some? && !answer.value.ContinueSearch?)
  }

  /**
   The calls of a search that has made `k` calls before and holds the context `record`: they are to the search
   handlers of the frames visited, in order, up to the one that ends the search. Only the last answer may end
   it: by resuming an exception that is not noncontinuable, or by unwinding.
   */
  predicate SearchCalls(w: World, m: Mem, oracle: SearchOracle, flags: Flags, visits: seq<Cpu>, record: Cpu,
                        k: nat, calls: seq<HandlerCall>, outcome: Outcome, at: seq<nat>)
    requires ChainsEnd(w, m)
  {
    && AsksAt(w, m, flags, visits, calls, at) && HandsOn(oracle, record, k, calls)
    && MissesNone(w, m, visits, at, LastAnswer(oracle, k, calls))
    && Ends(flags, LastAnswer(oracle, k, calls), outcome)
  }

  /** What the last answer makes of the search. */
  predicate Ends(flags: Flags, answer: Option<Verdict>, outcome: Outcome) {
    && (outcome.Resumed? <==> answer.Some? && answer.value.ContinueExecution? && 0 !in flags)
    && (outcome.Resumed? ==> outcome.ctx == answer.value.ctx)
    && (outcome.Unwinding? <==> answer.Some? && answer.value.Catch?)
    && (outcome.Unwinding? ==>
          && outcome.targetFrame == answer.value.targetFrame && outcome.targetIp == answer.value.targetIp
          && outcome.retval == answer.value.retval)
  }

  lemma {:induction false} SearchCallIs(w: World, m: Mem, c: Cpu, flags: Flags, record: Cpu)
    requires ChainsEnd(w, m)
    ensures var calls := SearchCallAt(w, m, c, flags, record);
            if Offers(w, m, EHandler, c)
            then |calls| == 1 && IsAbout(w, m, EHandler, c, calls[0])
                 && calls[0].flags == flags && calls[0].targetIp == 0 && calls[0].context == record
            else calls == []
  {
    hide Unwind;
  }

  lemma {:induction false} SearchCallsMade(w: World, m: Mem, oracle: SearchOracle, flags: Flags, visits: seq<Cpu>,
          record: Cpu, k: nat) returns (at: seq<nat>)
    requires ChainsEnd(w, m)
    ensures var (calls, outcome) := Search(w, m, oracle, flags, visits, record, k);
            SearchCalls(w, m, oracle, flags, visits, record, k, calls, outcome, at)
    decreases |visits|
  {
    hide SearchCallAt, Offers, IsAbout, ChainsEnd, SearchCalls, Search;
    if visits == [] {
      at := [];
      SearchNone(w, m, oracle, flags, record, k);
      NoFrames(w, m, oracle, flags, record, k);
    } else {
      var (c, rest) := (visits[0], visits[1..]);
      assert visits == [c] + rest;
      SearchCallIs(w, m, c, flags, record);
      SearchFirst(w, m, oracle, flags, c, rest, record, k);
      var calls := SearchCallAt(w, m, c, flags, record);
      if calls == [] {
        var later := SearchCallsMade(w, m, oracle, flags, rest, record, k);
        at := Later(later);
        var (more, outcome) := Search(w, m, oracle, flags, rest, record, k);
        assert [] + more == more;
        SilentFrame(w, m, oracle, flags, c, rest, record, k, more, outcome, later);
      } else {
        var answer := oracle(k, calls[0]);
        assert calls == [calls[0]];
        if answer.ContinueSearch? {
          var later := SearchCallsMade(w, m, oracle, flags, rest, answer.ctx, k + 1);
          at := [0] + Later(later);
          var (more, outcome) := Search(w, m, oracle, flags, rest, answer.ctx, k + 1);
          AskedFrame(w, m, oracle, flags, c, rest, record, k, calls[0], more, outcome, later);
        } else {
          at := [0];
          EndingFrame(w, m, oracle, flags, c, rest, record, k, calls[0]);
        }
      }
    }
  }

  lemma {:induction false} NoFrames(w: World, m: Mem, oracle: SearchOracle, flags: Flags, record: Cpu, k: nat)
    requires ChainsEnd(w, m)
    ensures SearchCalls(w, m, oracle, flags, [], record, k, [], Returned, [])
  {
    hide ChainsEnd;
  }

  lemma {:induction false} EndingFrame(w: World, m: Mem, oracle: SearchOracle, flags: Flags, c: Cpu, rest: seq<Cpu>,
          record: Cpu, k: nat, call: HandlerCall)
    requires ChainsEnd(w, m) && Offers(w, m, EHandler, c) && IsAbout(w, m, EHandler, c, call)
    requires call.flags == flags && call.targetIp == 0 && call.context == record && !oracle(k, call).ContinueSearch?
    ensures var d := Decide(oracle(k, call), flags);
            d.Stop? && SearchCalls(w, m, oracle, flags, [c] + rest, record, k, [call], d.outcome, [0])
  {
    hide Offers, IsAbout, ChainsEnd;
  }

  lemma {:induction false} LaterIn(at: seq<nat>, i: nat)
    requires i in at
    ensures i + 1 in Later(at)
  {
    var j :| 0 <= j < |at| && at[j] == i;
    assert Later(at)[j] == i + 1;
  }

  lemma {:induction false} LastLater(first: seq<nat>, at: seq<nat>)
    requires at != []
    ensures var all := first + Later(at); all[|all| - 1] == at[|at| - 1] + 1
  {
  }

  /** The frames picked, seen from one frame further in. */
  lemma {:induction false} MissesNoneLater(w: World, m: Mem, c: Cpu, rest: seq<Cpu>, first: seq<nat>, later: seq<nat>,
          answer: Option<Verdict>)
    requires ChainsEnd(w, m) && (first == [0] || (first == [] && !Offers(w, m, EHandler, c)))
    requires MissesNone(w, m, rest, later, if later == [] then None else answer)
    ensures MissesNone(w, m, [c] + rest, first + Later(later), answer)
  {
    hide Offers, ChainsEnd;
    var (visits, at) := ([c] + rest, first + Later(later));
    forall i | 0 <= i < |visits| && Offers(w, m, EHandler, visits[i])
      ensures i in at || (at != [] && i > at[|at| - 1] && answer.Some? && !answer.value.ContinueSearch?)
    {
      if i == 0 {
        assert at[0] == 0;
      } else {
        assert visits[i] == rest[i - 1];
        if i - 1 in later {
          LaterIn(later, i - 1);
        } else {
          LastLater(first, later);
        }
      }
    }
  }

  lemma {:induction false} AsksLater(w: World, m: Mem, flags: Flags, c: Cpu, rest: seq<Cpu>, first: seq<HandlerCall>,
          calls: seq<HandlerCall>, later: seq<nat>)
    requires ChainsEnd(w, m) && AsksAt(w, m, flags, rest, calls, later) && |first| <= 1
    requires forall call :: call in first ==>
               && Offers(w, m, EHandler, c) && IsAbout(w, m, EHandler, c, call)
               && call.flags == flags && call.targetIp == 0
    ensures var at: seq<nat> := if first == [] then [] else [0];
            AsksAt(w, m, flags, [c] + rest, first + calls, at + Later(later))
  {
    hide Offers, IsAbout, ChainsEnd, Later, Picks;
    var (visits, all, at) := ([c] + rest, first + calls, (if first == [] then [] else [0]) + Later(later));
    PicksLater(later, |rest|, first != []);
    forall j | 0 <= j < |all|
      ensures at[j] < |visits| && Offers(w, m, EHandler, visits[at[j]])
      ensures IsAbout(w, m, EHandler, visits[at[j]], all[j]) && all[j].flags == flags && all[j].targetIp == 0
    {
      if j < |first| {
        assert all[j] == first[j] && first[j] in first && at[j] == 0 && visits[0] == c;
      } else {
        var i := j - |first|;
        assert all[j] == calls[i] && at[j] == Later(later)[i] == later[i] + 1;
        LaterPicked(later, |rest|, i);
        assert visits[later[i] + 1] == rest[later[i]];
      }
    }
  }

  lemma {:induction false} PicksLater(later: seq<nat>, n: nat, zero: bool)
    requires Picks(later, n)
    ensures Picks((if zero then [0] else []) + Later(later), n + 1)
  {
  }

  lemma {:induction false} LaterPicked(later: seq<nat>, n: nat, i: nat)
    requires Picks(later, n) && i < |later|
    ensures later[i] < n
  {
  }

  lemma {:induction false} SilentFrame(w: World, m: Mem, oracle: SearchOracle, flags: Flags, c: Cpu, rest: seq<Cpu>,
          record: Cpu, k: nat, more: seq<HandlerCall>, outcome: Outcome, later: seq<nat>)
    requires ChainsEnd(w, m) && !Offers(w, m, EHandler, c)
    requires SearchCalls(w, m, oracle, flags, rest, record, k, more, outcome, later)
    ensures SearchCalls(w, m, oracle, flags, [c] + rest, record, k, more, outcome, Later(later))
  {
    hide Offers, IsAbout, ChainsEnd, Ends, AsksAt, HandsOn, MissesNone, LastAnswer, Later;
    var none: seq<nat> := [];
    assert [] + more == more && none + Later(later) == Later(later);
    SameLength(w, m, flags, rest, more, later);
    NoAnswer(oracle, k, more);
    AsksLater(w, m, flags, c, rest, [], more, later);
    assert AsksAt(w, m, flags, [c] + rest, more, Later(later));
    MissesNoneLater(w, m, c, rest, none, later, LastAnswer(oracle, k, more));
    assert MissesNone(w, m, [c] + rest, Later(later), LastAnswer(oracle, k, more));
  }

  lemma {:induction false} SameLength(w: World, m: Mem, flags: Flags, visits: seq<Cpu>, calls: seq<HandlerCall>,
          at: seq<nat>)
    requires ChainsEnd(w, m) && AsksAt(w, m, flags, visits, calls, at)
    ensures |at| == |calls|
  {
    hide Offers, IsAbout, ChainsEnd;
  }

  lemma {:induction false} HandedOn(oracle: SearchOracle, record: Cpu, k: nat, call: HandlerCall,
          more: seq<HandlerCall>)
    requires call.context == record && oracle(k, call).ContinueSearch?
    requires HandsOn(oracle, oracle(k, call).ctx, k + 1, more)
    ensures HandsOn(oracle, record, k, [call] + more)
    ensures LastAnswer(oracle, k, [call] + more)
            == if more == [] then Some(oracle(k, call)) else LastAnswer(oracle, k + 1, more)
  {
    var calls := [call] + more;
    forall j | 0 < j < |calls| ensures oracle(k + j - 1, calls[j - 1]) == ContinueSearch(calls[j].context) {
      if j > 1 {
        assert oracle(k + 1 + (j - 1) - 1, more[j - 2]) == ContinueSearch(more[j - 1].context);
      }
    }
  }

  lemma {:induction false} AskedFrame(w: World, m: Mem, oracle: SearchOracle, flags: Flags, c: Cpu, rest: seq<Cpu>,
          record: Cpu, k: nat, call: HandlerCall, more: seq<HandlerCall>, outcome: Outcome, later: seq<nat>)
    requires ChainsEnd(w, m) && Offers(w, m, EHandler, c) && IsAbout(w, m, EHandler, c, call)
    requires call.flags == flags && call.targetIp == 0 && call.context == record && oracle(k, call).ContinueSearch?
    requires SearchCalls(w, m, oracle, flags, rest, oracle(k, call).ctx, k + 1, more, outcome, later)
    ensures SearchCalls(w, m, oracle, flags, [c] + rest, record, k, [call] + more, outcome, [0] + Later(later))
  {
    hide Offers, IsAbout, ChainsEnd, AsksAt, HandsOn, MissesNone, LastAnswer;
    SameLength(w, m, flags, rest, more, later);
    NoAnswer(oracle, k + 1, more);
    AsksLater(w, m, flags, c, rest, [call], more, later);
    HandedOn(oracle, record, k, call, more);
    MissesNoneLater(w, m, c, rest, [0], later, LastAnswer(oracle, k, [call] + more));
  }

  lemma {:induction false} NoAnswer(oracle: SearchOracle, k: nat, calls: seq<HandlerCall>)
    ensures calls == [] <==> LastAnswer(oracle, k, calls) == None
  {
  }

  /** The function at `c` is the one whose frame is the target of an unwind. */
  predicate IsTarget(w: World, m: Mem, c: Cpu, target: U64)
    requires ChainsEnd(w, m)
  {
    match FindEntry(w.modules, c.rip)
    case None => false
    case Some(e) => Unwind(m, UHandler, e.base, InfoOf(e), w.links, c).establisher == target
  }

  /** Frame `i` is visited by an unwind: no frame before it is the target. */
  predicate Visited(w: World, m: Mem, visits: seq<Cpu>, target: U64, i: nat)
    requires ChainsEnd(w, m)
  {
    i < |visits| && forall j :: 0 <= j < i ==> !IsTarget(w, m, visits[j], target)
  }

  /** The call is to the unwind handler of frame `i`; the target's is told that it is the target's. */
  predicate RunsOne(w: World, m: Mem, flags: Flags, visits: seq<Cpu>, target: U64, ip: U64, call: HandlerCall, i: nat)
    requires ChainsEnd(w, m) && i < |visits|
  {
    && Visited(w, m, visits, target, i) && Offers(w, m, UHandler, visits[i])
    && IsAbout(w, m, UHandler, visits[i], call)
    && call.context == visits[i] && call.targetIp == ip
    && call.flags == if IsTarget(w, m, visits[i], target) then flags + {5} else flags
  }

  /** Each call is to the unwind handler of the frame `at` picks for it. */
  predicate RunsAt(w: World, m: Mem, flags: Flags, visits: seq<Cpu>, target: U64, ip: U64, calls: seq<HandlerCall>,
                   at: seq<nat>)
    requires ChainsEnd(w, m)
  {
    && |at| == |calls| && Picks(at, |visits|)
    && forall j :: 0 <= j < |calls| ==> RunsOne(w, m, flags, visits, target, ip, calls[j], at[j])
  }

  /** No frame visited that has an unwind handler is left out. */
  predicate LeavesNoneOut(w: World, m: Mem, visits: seq<Cpu>, target: U64, at: seq<nat>)
    requires ChainsEnd(w, m)
  {
    forall i :: 0 <= i < |visits| && Visited(w, m, visits, target, i) && Offers(w, m, UHandler, visits[i]) ==> i in at
  }

  /**
   The calls of an unwind: each frame visited, the target included, that has an unwind handler has it called
   once, in order, with its own context and the address to go on at.
   */
  predicate UnwindCalls(w: World, m: Mem, flags: Flags, visits: seq<Cpu>, target: U64, ip: U64,
                        calls: seq<HandlerCall>, at: seq<nat>)
    requires ChainsEnd(w, m)
  {
    RunsAt(w, m, flags, visits, target, ip, calls, at) && LeavesNoneOut(w, m, visits, target, at)
  }

  /** The target is among the frames. */
  predicate Hits(w: World, m: Mem, visits: seq<Cpu>, target: U64)
    requires ChainsEnd(w, m)
  {
    exists i :: 0 <= i < |visits| && IsTarget(w, m, visits[i], target)
  }

  lemma {:induction false} HitsFirst(w: World, m: Mem, c: Cpu, rest: seq<Cpu>, target: U64)
    requires ChainsEnd(w, m)
    ensures Hits(w, m, [c] + rest, target) <==> IsTarget(w, m, c, target) || Hits(w, m, rest, target)
    ensures !Hits(w, m, [], target)
  {
    hide IsTarget, ChainsEnd;
    var visits := [c] + rest;
    if IsTarget(w, m, c, target) {
      assert IsTarget(w, m, visits[0], target);
    } else if Hits(w, m, rest, target) {
      var i :| 0 <= i < |rest| && IsTarget(w, m, rest[i], target);
      assert IsTarget(w, m, visits[i + 1], target);
    }
    if Hits(w, m, visits, target) {
      var i :| 0 <= i < |visits| && IsTarget(w, m, visits[i], target);
      assert i > 0 ==> IsTarget(w, m, rest[i - 1], target);
    }
  }

  /** The context at the target, as its handler leaves it. */
  predicate Arrives(w: World, m: Mem, oracle: UnwindOracle, visits: seq<Cpu>, target: U64, k: nat,
                    calls: seq<HandlerCall>, c: Cpu)
    requires ChainsEnd(w, m)
  {
    forall t :: 0 <= t < |visits| && Visited(w, m, visits, target, t) && IsTarget(w, m, visits[t], target) ==>
      if Offers(w, m, UHandler, visits[t])
      then calls != [] && c == oracle(k + |calls| - 1, calls[|calls| - 1])
      else c == visits[t]
  }

  lemma {:induction false} UnwindCallIs(w: World, m: Mem, c: Cpu, flags: Flags, ip: U64)
    requires ChainsEnd(w, m)
    ensures var calls := CallAt(w, m, c, flags, ip);
            if Offers(w, m, UHandler, c)
            then |calls| == 1 && IsAbout(w, m, UHandler, c, calls[0])
                 && calls[0].flags == flags && calls[0].targetIp == ip && calls[0].context == c
            else calls == []
  {
    hide Unwind;
  }

  /** One round of the unwind. */
  lemma {:induction false} UnwindRunIs(w: World, m: Mem, oracle: UnwindOracle, c: Cpu, n: nat, flags: Flags,
          target: U64, ip: U64, log: seq<HandlerCall>)
    requires ChainsEnd(w, m) && n > 0
    ensures var here := IsTarget(w, m, c, target);
            var now := if here then flags + {5} else flags;
            var calls := CallAt(w, m, c, now, ip);
            var run := UnwindRun(w, m, oracle, c, n, flags, target, ip, log);
            && (here ==> run == (if calls == [] then c else oracle(|log|, calls[0]), now, log + calls))
            && (!here && IsLast(w, m, c) ==> run.1 == flags && run.2 == log + calls)
            && (!here && !IsLast(w, m, c) ==>
                  run == UnwindRun(w, m, oracle, CallerOf(w, m, c), n - 1, flags, target, ip, log + calls))
  {
    hide Unwind, ChainsEnd;
    var e := FindEntry(w.modules, c.rip);
    if e.Some? {
      CallerIsUnwound(w, m, UHandler, e.value, c);
    } else {
      assert log + [] == log;
    }
  }

  lemma {:induction false} UnwindCallsMade(w: World, m: Mem, oracle: UnwindOracle, c: Cpu, n: nat, flags: Flags,
          target: U64, ip: U64, log: seq<HandlerCall>) returns (calls: seq<HandlerCall>, at: seq<nat>)
    requires ChainsEnd(w, m)
    ensures var (run, visits) := (UnwindRun(w, m, oracle, c, n, flags, target, ip, log), Walk(w, m, c, n));
            && run.2 == log + calls && UnwindCalls(w, m, flags, visits, target, ip, calls, at)
            && Arrives(w, m, oracle, visits, target, |log|, calls, run.0)
            && run.1 == if Hits(w, m, visits, target) then flags + {5} else flags
    decreases n
  {
    hide Offers, IsAbout, ChainsEnd, IsTarget, Hits, UnwindRun, CallAt, CallerOf, IsLast, Visited;
    if n == 0 {
      UnwindCapped(w, m, oracle, c, flags, target, ip, log);
      HitsFirst(w, m, c, [], target);
      calls, at := [], [];
      assert log + [] == log;
    } else {
      var now := if IsTarget(w, m, c, target) then flags + {5} else flags;
      UnwindRunIs(w, m, oracle, c, n, flags, target, ip, log);
      UnwindCallIs(w, m, c, now, ip);
      var here := CallAt(w, m, c, now, ip);
      var first: seq<nat> := if here == [] then [] else [0];
      if IsTarget(w, m, c, target) || IsLast(w, m, c) {
        var visits := Walk(w, m, c, n);
        var rest := visits[1..];
        assert visits == [c] + rest;
        HitsFirst(w, m, c, rest, target);
        calls, at := here, first;
        var arrived := UnwindRun(w, m, oracle, c, n, flags, target, ip, log).0;
        LastFrame(w, m, oracle, flags, c, rest, target, ip, |log|, here, arrived);
      } else {
        var next := CallerOf(w, m, c);
        var more, later := UnwindCallsMade(w, m, oracle, next, n - 1, flags, target, ip, log + here);
        calls, at := here + more, first + Later(later);
        HitsFirst(w, m, c, Walk(w, m, next, n - 1), target);
        Assoc(log, here, more);
        OneMoreFrame(w, m, oracle, flags, c, Walk(w, m, next, n - 1), target, ip, |log|, here, more, later,
                     UnwindRun(w, m, oracle, c, n, flags, target, ip, log).0);
      }
    }
  }

  lemma {:induction false} VisitedFirst(w: World, m: Mem, c: Cpu, rest: seq<Cpu>, target: U64, i: nat)
    requires ChainsEnd(w, m)
    ensures Visited(w, m, [c] + rest, target, i)
            <==> i == 0 || (!IsTarget(w, m, c, target) && Visited(w, m, rest, target, i - 1))
  {
    hide IsTarget, ChainsEnd;
    var visits := [c] + rest;
    if i > 0 && !IsTarget(w, m, c, target) && Visited(w, m, rest, target, i - 1) {
      forall j | 0 <= j < i ensures !IsTarget(w, m, visits[j], target) {
        assert j > 0 ==> visits[j] == rest[j - 1];
      }
    }
    if i > 0 && Visited(w, m, visits, target, i) {
      assert !IsTarget(w, m, visits[0], target);
      forall j | 0 <= j < i - 1 ensures !IsTarget(w, m, rest[j], target) {
        assert visits[j + 1] == rest[j];
      }
    }
  }

  /** The unwind stops at the frame `c`: its target, or the end of the stack. */
  lemma {:induction false} LastFrame(w: World, m: Mem, oracle: UnwindOracle, flags: Flags, c: Cpu, rest: seq<Cpu>,
          target: U64, ip: U64, k: nat, here: seq<HandlerCall>, arrived: Cpu)
    requires ChainsEnd(w, m) && (IsTarget(w, m, c, target) || rest == [])
    requires here == CallAt(w, m, c, if IsTarget(w, m, c, target) then flags + {5} else flags, ip)
    requires IsTarget(w, m, c, target) ==> arrived == if here == [] then c else oracle(k, here[0])
    ensures UnwindCalls(w, m, flags, [c] + rest, target, ip, here, if here == [] then [] else [0])
    ensures Arrives(w, m, oracle, [c] + rest, target, k, here, arrived)
  {
    hide Offers, IsAbout, ChainsEnd, IsTarget, CallAt, Visited;
    UnwindCallIs(w, m, c, if IsTarget(w, m, c, target) then flags + {5} else flags, ip);
    var visits := [c] + rest;
    forall i | 0 <= i < |visits| ensures Visited(w, m, visits, target, i) <==> i == 0 {
      VisitedFirst(w, m, c, rest, target, i);
    }
  }

  lemma {:induction false} RunsLater(w: World, m: Mem, flags: Flags, c: Cpu, rest: seq<Cpu>, target: U64, ip: U64,
          here: seq<HandlerCall>, more: seq<HandlerCall>, later: seq<nat>)
    requires ChainsEnd(w, m) && !IsTarget(w, m, c, target) && here == CallAt(w, m, c, flags, ip)
    requires RunsAt(w, m, flags, rest, target, ip, more, later)
    ensures var first: seq<nat> := if here == [] then [] else [0];
            RunsAt(w, m, flags, [c] + rest, target, ip, here + more, first + Later(later))
  {
    hide Offers, IsAbout, ChainsEnd, IsTarget, CallAt, Visited;
    UnwindCallIs(w, m, c, flags, ip);
    VisitedFirst(w, m, c, rest, target, 0);
    var first: seq<nat> := if here == [] then [] else [0];
    var (visits, at, calls) := ([c] + rest, first + Later(later), here + more);
    forall j | 0 <= j < |calls| ensures RunsOne(w, m, flags, visits, target, ip, calls[j], at[j]) {
      if j >= |first| {
        var i := j - |first|;
        VisitedFirst(w, m, c, rest, target, later[i] + 1);
        assert calls[j] == more[i] && visits[at[j]] == rest[later[i]];
        assert RunsOne(w, m, flags, rest, target, ip, more[i], later[i]);
      }
    }
  }

  lemma {:induction false} NoneLeftOutLater(w: World, m: Mem, flags: Flags, c: Cpu, rest: seq<Cpu>, target: U64,
          first: seq<nat>, later: seq<nat>)
    requires ChainsEnd(w, m) && (first == [0] || (first == [] && !Offers(w, m, UHandler, c)))
    requires LeavesNoneOut(w, m, rest, target, later)
    ensures LeavesNoneOut(w, m, [c] + rest, target, first + Later(later))
  {
    hide Offers, ChainsEnd, IsTarget, Visited;
    var (visits, at) := ([c] + rest, first + Later(later));
    forall i | 0 <= i < |visits| && Visited(w, m, visits, target, i) && Offers(w, m, UHandler, visits[i])
      ensures i in at
    {
      VisitedFirst(w, m, c, rest, target, i);
      if i == 0 {
        assert at[0] == 0;
      } else {
        assert visits[i] == rest[i - 1];
        LaterIn(later, i - 1);
      }
    }
  }

  lemma {:induction false} OneMoreFrame(w: World, m: Mem, oracle: UnwindOracle, flags: Flags, c: Cpu, rest: seq<Cpu>,
          target: U64, ip: U64, k: nat, here: seq<HandlerCall>, more: seq<HandlerCall>, later: seq<nat>, arrived: Cpu)
    requires ChainsEnd(w, m) && !IsTarget(w, m, c, target) && here == CallAt(w, m, c, flags, ip)
    requires UnwindCalls(w, m, flags, rest, target, ip, more, later)
    requires Arrives(w, m, oracle, rest, target, k + |here|, more, arrived)
    ensures var first: seq<nat> := if here == [] then [] else [0];
            UnwindCalls(w, m, flags, [c] + rest, target, ip, here + more, first + Later(later))
    ensures Arrives(w, m, oracle, [c] + rest, target, k, here + more, arrived)
  {
    hide Offers, IsAbout, ChainsEnd, IsTarget, CallAt, Visited, RunsAt, LeavesNoneOut;
    UnwindCallIs(w, m, c, flags, ip);
    RunsLater(w, m, flags, c, rest, target, ip, here, more, later);
    NoneLeftOutLater(w, m, flags, c, rest, target, if here == [] then [] else [0], later);
    var (visits, calls) := ([c] + rest, here + more);
    forall t | 0 <= t < |visits| && Visited(w, m, visits, target, t) && IsTarget(w, m, visits[t], target)
      ensures if Offers(w, m, UHandler, visits[t])
              then calls != [] && arrived == oracle(k + |calls| - 1, calls[|calls| - 1])
              else arrived == visits[t]
    {
      VisitedFirst(w, m, c, rest, target, t);
      assert visits[t] == rest[t - 1];
    }
  }

  // ---- the routines -------------------------------------------------------

  class ExceptionRecord {
    var code: U32
    var flags: Flags
    var parameters: U32

    constructor (code: U32, flags: Flags)
      ensures this.code == code && this.flags == flags
    {
      this.code, this.flags, this.parameters := code, flags, 0;
    }
  }

  /** The exception routines of one process, with the log of the handler calls they make. */
  class Exceptions {
    const world: World
    const searchOracle: SearchOracle
    const unwindOracle: UnwindOracle
    const unwindRecord: ExceptionRecord
    var log: seq<HandlerCall>

    constructor (world: World, searchOracle: SearchOracle, unwindOracle: UnwindOracle)
      ensures this.world == world && this.searchOracle == searchOracle && this.unwindOracle == unwindOracle
      ensures log == [] && fresh(unwindRecord)
    {
      this.world, this.searchOracle, this.unwindOracle := world, searchOracle, unwindOracle;
      unwindRecord := new ExceptionRecord(0, {});
      log := [];
    }

    /** A leaf has no unwind data: `on` unless the walk ends here. */
    method PopLeaf(m: Mem, cur: Context) returns (on: bool)
      requires cur.Valid() && ChainsEnd(world, m) && FindEntry(world.modules, cur.rip) == None
      modifies cur, cur.gpr
      ensures on <==> !IsLast(world, m, old(cur.Cpu()))
      ensures on ==> cur.Cpu() == CallerOf(world, m, old(cur.Cpu()))
      ensures !on ==>
                cur.Cpu() == if Rsp(old(cur.Cpu())) < 0x1_0000 then old(cur.Cpu()) else PopReturn(m, old(cur.Cpu()))
    {
      if cur.gpr[RSP] < 0x1_0000 {
        return false;
      }
      cur.rip := Read64(m, cur.gpr[RSP]);
      cur.Put(RSP, Plus(cur.gpr[RSP], 8));
      on := cur.rip != 0;
    }

    /** Asks the handler of one frame. */
    method AskHandler(flags: Flags, call: HandlerCall) returns (d: Decision)
      modifies this`log
      ensures log == old(log) + [call] && d == Decide(searchOracle(|old(log)|, call), flags)
    {
      var verdict := searchOracle(|log|, call);
      log := log + [call];
      match verdict
      case ContinueExecution(c) =>
        if EXC_NONCONTINUABLE <= flags {
          return Stop(Returned);
        }
        return Stop(Resumed(c));
      case ContinueSearch(c) => return GoOn(c);
      case Catch(frame, ip, retval) => return Stop(Unwinding(frame, ip, retval));
    }

    /** One frame with unwind data: its handler is asked and the caller's context computed. */
    method SearchFrame(m: Mem, flags: Flags, cur: Context, record: Cpu, e: Found)
      returns (d: Decision, unwound: Context)
      requires cur.Valid() && ChainsEnd(world, m) && FindEntry(world.modules, cur.rip) == Some(e)
      modifies this`log
      ensures fresh(unwound) && fresh(unwound.gpr) && unwound.Valid()
      ensures unwound.Cpu() == CallerOf(world, m, cur.Cpu())
      ensures var calls := SearchCallAt(world, m, cur.Cpu(), flags, record);
              && log == old(log) + calls
              && d == if calls == [] then GoOn(record) else Decide(searchOracle(|old(log)|, calls[0]), flags)
    {
      hide UnwindFrom, ChainEnds, Decide;
      unwound := new Context.Copy(cur.Cpu());
      var handler, hdata, est := RtlVirtualUnwind(m, EHandler, e.base, e.fn, unwound, world.links);
      d := GoOn(record);
      if handler != 0 {
        d := AskHandler(flags, HandlerCall(handler, flags, est, record, cur.rip, e.base, e.fn, 0, hdata));
      }
    }

    method Lookup(pc: U64) returns (e: Option<Found>)
      requires TablesSorted(world.modules)
      ensures e == FindEntry(world.modules, pc)
    {
      var fn, base := RtlLookupFunctionEntry(world.modules, pc);
      e := if fn.None? then None else Some(Found(base, fn.value));
    }

    method RtlDispatchException(m: Mem, rec: ExceptionRecord, ctx: Context) returns (outcome: Outcome)
      requires ctx.Valid() && ChainsEnd(world, m) && TablesSorted(world.modules)
      modifies this`log
      ensures var visits := Walk(world, m, ctx.Cpu(), MAX_FRAMES);
              var (calls, outcome') := Search(world, m, searchOracle, rec.flags, visits, ctx.Cpu(), |old(log)|);
              log == old(log) + calls && outcome == outcome'
      ensures old(log) <= log
      ensures exists at ::
                SearchCalls(world, m, searchOracle, rec.flags, Walk(world, m, ctx.Cpu(), 4096), ctx.Cpu(),
                            |old(log)|, log[|old(log)|..], outcome, at)
    {
      SearchRunsOverTheWalk(world, m, searchOracle, rec.flags, ctx.Cpu(), MAX_FRAMES, ctx.Cpu(), log);
      ghost var visits := Walk(world, m, ctx.Cpu(), MAX_FRAMES);
      ghost var at := SearchCallsMade(world, m, searchOracle, rec.flags, visits, ctx.Cpu(), |log|);
      outcome := SearchLoop(m, rec.flags, ctx);
      ghost var calls := Search(world, m, searchOracle, rec.flags, visits, ctx.Cpu(), |old(log)|).0;
      assert log == old(log) + calls && log[|old(log)|..] == calls;
    }

    /** One round of the search: the frame at `cur`, with `n` frames left. */
    method SearchStep(m: Mem, flags: Flags, cur: Context, record: Cpu, ghost n: nat)
      returns (d: Decision, next: Context)
      requires cur.Valid() && ChainsEnd(world, m) && TablesSorted(world.modules) && n > 0
      modifies this`log, cur, cur.gpr
      ensures next.Valid() && (next == cur || (fresh(next) && fresh(next.gpr)))
      ensures SearchRun(world, m, searchOracle, flags, old(cur.Cpu()), n, record, old(log))
           == if d.Stop? then (log, d.outcome)
              else SearchRun(world, m, searchOracle, flags, next.Cpu(), n - 1, d.record, log)
    {
      var e := Lookup(cur.rip);
      if e.None? {
        assert log + [] == log;
        var on := PopLeaf(m, cur);
        d, next := if on then GoOn(record) else Stop(Returned), cur;
      } else {
        d, next := SearchFrame(m, flags, cur, record, e.value);
        if d.GoOn? && next.rip == 0 {
          d := Stop(Returned);
        }
      }
    }

    method SearchLoop(m: Mem, flags: Flags, ctx: Context) returns (outcome: Outcome)
      requires ctx.Valid() && ChainsEnd(world, m) && TablesSorted(world.modules)
      modifies this`log
      ensures (log, outcome)
           == SearchRun(world, m, searchOracle, flags, ctx.Cpu(), MAX_FRAMES, ctx.Cpu(), old(log))
    {
      hide CallerOf, IsLast, SearchCallAt, Decide;
      var cur: Context := new Context.Copy(ctx.Cpu());
      var record := ctx.Cpu();
      ghost var total := SearchRun(world, m, searchOracle, flags, record, MAX_FRAMES, record, log);
      for f := 0 to MAX_FRAMES
        invariant cur.Valid() && fresh(cur) && fresh(cur.gpr)
        invariant SearchRun(world, m, searchOracle, flags, cur.Cpu(), MAX_FRAMES - f, record, log) == total
      {
        var d, next := SearchStep(m, flags, cur, record, MAX_FRAMES - f);
        if d.Stop? {
          return d.outcome;
        }
        record, cur := d.record, next;
      }
      outcome := Returned;
    }

    /** One frame of the unwind: its handler runs with `cur`; `done` says that the frame is the target. */
    method UnwindFrame(m: Mem, rec: ExceptionRecord, cur: Context, e: Found, target: U64, ip: U64)
      returns (done: bool, unwound: Context)
      requires cur.Valid() && ChainsEnd(world, m) && FindEntry(world.modules, cur.rip) == Some(e)
      modifies this`log, rec`flags, cur, cur.gpr
      ensures fresh(unwound) && fresh(unwound.gpr) && unwound.Valid()
      ensures unwound.Cpu() == CallerOf(world, m, old(cur.Cpu()))
      ensures done == (UnwindAt(world, m, UHandler, e, old(cur.Cpu())).establisher == target)
      ensures rec.flags == if done then old(rec.flags) + EXC_TARGET_UNWIND else old(rec.flags)
      ensures var calls := CallAt(world, m, old(cur.Cpu()), rec.flags, ip);
              && log == old(log) + calls
              && cur.Cpu() == if calls == [] then old(cur.Cpu()) else unwindOracle(|old(log)|, calls[0])
    {
      hide ChainEnds, UnwindFrom, CallerOf;
      CallerIsUnwound(world, m, UHandler, e, cur.Cpu());
      unwound := new Context.Copy(cur.Cpu());
      var handler, hdata, est := RtlVirtualUnwind(m, UHandler, e.base, e.fn, unwound, world.links);
      done := est == target;
      if done {
        rec.flags := rec.flags + EXC_TARGET_UNWIND;
      }
      if handler != 0 {
        RunHandler(cur, HandlerCall(handler, rec.flags, est, cur.Cpu(), cur.rip, e.base, e.fn, ip, hdata));
      }
    }

    /** The handler runs destructors and finally blocks; it may change the context it is given. */
    method RunHandler(cur: Context, call: HandlerCall)
      requires cur.Valid()
      modifies this`log, cur, cur.gpr
      ensures log == old(log) + [call] && cur.Cpu() == unwindOracle(|old(log)|, call)
    {
      cur.Assign(unwindOracle(|log|, call));
      log := log + [call];
    }

    /** `ctx` holds the registers RtlCaptureContext stored; `landing` is what RtlRestoreContext loads. */
    method RtlUnwindEx(m: Mem, target: U64, ip: U64, rec: ExceptionRecord?, retval: U64, ctx: Context)
      returns (landing: Cpu)
      requires ctx.Valid() && ChainsEnd(world, m) && TablesSorted(world.modules)
      modifies this`log, unwindRecord, rec
      ensures if rec == null then unwindRecord.code == 0xC000_0027 && unwindRecord.parameters == 0
              else rec.code == old(rec.code) && rec.parameters == old(rec.parameters)
      ensures var flags := StartFlags(if rec == null then {} else old(rec.flags), target);
              var (c, flags', calls) :=
                UnwindRun(world, m, unwindOracle, ctx.Cpu(), MAX_FRAMES, flags, target, ip, old(log));
              && landing == Landing(c, ip, retval) && log == calls
              && flags' == if rec == null then unwindRecord.flags else rec.flags
      ensures old(log) <= log
      ensures var flags := (if rec == null then {} else old(rec.flags)) + {1} + (if target == 0 then {2} else {});
              var (visits, calls) := (Walk(world, m, ctx.Cpu(), 4096), log[|old(log)|..]);
              && (exists at :: UnwindCalls(world, m, flags, visits, target, ip, calls, at))
              && (if rec == null then unwindRecord.flags else rec.flags)
                 == (if Hits(world, m, visits, target) then flags + {5} else flags)
              && exists c :: Arrives(world, m, unwindOracle, visits, target, |old(log)|, calls, c)
                             && landing == RawCpu(c.gpr[0 := retval], ip)
    {
      hide UnwindRun, UnwindCalls, Arrives, Walk, ChainsEnd, TablesSorted, Hits;
      var r: ExceptionRecord;
      if rec == null {
        r := unwindRecord;
        r.code, r.flags, r.parameters := 0xC000_0027, {}, 0;
      } else {
        r := rec;
      }
      r.flags := r.flags + EXC_UNWINDING;
      if target == 0 {
        r.flags := r.flags + EXC_EXIT_UNWIND;
      }
      ghost var flags := (if rec == null then {} else old(rec.flags)) + {1} + (if target == 0 then {2} else {});
      assert r.flags == flags;
      ghost var calls, at :=
        UnwindCallsMade(world, m, unwindOracle, ctx.Cpu(), MAX_FRAMES, r.flags, target, ip, log);
      var cur := UnwindLoop(m, target, ip, r, ctx);
      assert log == old(log) + calls && log[|old(log)|..] == calls;
      ghost var c := cur.Cpu();
      assert Arrives(world, m, unwindOracle, Walk(world, m, ctx.Cpu(), MAX_FRAMES), target, |old(log)|, calls, c);
      cur.rip := ip;
      cur.Put(RAX, retval);
      landing := cur.Cpu();
    }

    /** One round of the unwind: the frame at `cur`, with `n` frames left. */
    method UnwindStep(m: Mem, target: U64, ip: U64, r: ExceptionRecord, cur: Context, ghost n: nat)
      returns (done: bool, next: Context)
      requires cur.Valid() && ChainsEnd(world, m) && TablesSorted(world.modules) && n > 0
      modifies this`log, r`flags, cur, cur.gpr
      ensures next.Valid() && (next == cur || (fresh(next) && fresh(next.gpr)))
      ensures UnwindRun(world, m, unwindOracle, old(cur.Cpu()), n, old(r.flags), target, ip, old(log))
           == if done then (next.Cpu(), r.flags, log)
              else UnwindRun(world, m, unwindOracle, next.Cpu(), n - 1, r.flags, target, ip, log)
    {
      var e := Lookup(cur.rip);
      if e.None? {
        var on := PopLeaf(m, cur);
        done, next := !on, cur;
      } else {
        var unwound;
        done, unwound := UnwindFrame(m, r, cur, e.value, target, ip);
        next := if done then cur else unwound;
        done := done || next.rip == 0;
      }
    }

    method UnwindLoop(m: Mem, target: U64, ip: U64, r: ExceptionRecord, ctx: Context) returns (cur: Context)
      requires ctx.Valid() && ChainsEnd(world, m) && TablesSorted(world.modules)
      modifies this`log, r`flags
      ensures cur.Valid() && fresh(cur) && fresh(cur.gpr)
      ensures (cur.Cpu(), r.flags, log)
           == UnwindRun(world, m, unwindOracle, ctx.Cpu(), MAX_FRAMES, old(r.flags), target, ip, old(log))
    {
      hide UnwindRun, ChainsEnd, TablesSorted;
      cur := new Context.Copy(ctx.Cpu());
      ghost var total := UnwindRun(world, m, unwindOracle, cur.Cpu(), MAX_FRAMES, r.flags, target, ip, log);
      for f := 0 to MAX_FRAMES
        invariant cur.Valid() && fresh(cur) && fresh(cur.gpr)
        invariant UnwindRun(world, m, unwindOracle, cur.Cpu(), MAX_FRAMES - f, r.flags, target, ip, log) == total
      {
        var done;
        done, cur := UnwindStep(m, target, ip, r, cur, MAX_FRAMES - f);
        if done {
          return;
        }
      }
      UnwindCapped(world, m, unwindOracle, cur.Cpu(), r.flags, target, ip, log);
    }
  }

  /** The flags the unwind starts with; unwinding with no target frame is an exit unwind. */
  function StartFlags(flags: Flags, target: U64): Flags {
    if target == 0 then flags + EXC_UNWINDING + EXC_EXIT_UNWIND else flags + EXC_UNWINDING
  }
}
