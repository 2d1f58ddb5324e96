/** The search and the unwind agree: what the search caught is where the unwind lands. */
module TwoPasses {
  import opened Words
  import opened Memory
  import opened UnwindCodes
  import opened VirtualUnwind
  import FunctionTable
  import Prologue
  import opened CallStack
  import opened ExceptionDispatch

  /** The establisher frame of the t-th activation. */
  function EstablisherOf(acts: seq<Activation>, root: Cpu, t: nat): int
    requires t < |acts| && acts[t].shape.Framed?
  {
    EntryRsp(acts[t].shape, CallerCpu(acts[t..], root)) - Prologue.BaseDepth(acts[t].shape.ops)
  }

  lemma {:induction false} LinkedAt(w: World, m: Mem, acts: seq<Activation>, root: Cpu, t: nat)
    requires AllLinked(w, m, acts, root) && t < |acts|
    ensures Linked(w, m, acts[t], CallerCpu(acts[t..], root))
    decreases t
  {
    if t > 0 {
      assert acts[1..][t - 1] == acts[t] && acts[1..][t - 1..] == acts[t..];
      LinkedAt(w, m, acts[1..], root, t - 1);
    } else {
      assert acts[0..] == acts;
    }
  }

  /** Establisher frames strictly increase from callee to caller, so they tell activations apart. */
  lemma {:induction false} EstablishersRise(w: World, m: Mem, acts: seq<Activation>, root: Cpu, i: nat, j: nat)
    requires AllLinked(w, m, acts, root) && i < j < |acts|
    requires acts[i].shape.Framed? && acts[j].shape.Framed?
    ensures EstablisherOf(acts, root, i) < EstablisherOf(acts, root, j)
  {
    LinkedAt(w, m, acts, root, i);
    LinkedAt(w, m, acts, root, j);
    LinkedRises(w, m, acts[i], CallerCpu(acts[i..], root));
    LinkedRises(w, m, acts[j], CallerCpu(acts[j..], root));
    assert CallerCpu(acts[i..], root) == acts[i + 1].cpu;
    if i + 1 < j {
      RspRises(w, m, acts, root, i + 1, j);
    }
  }

  // ---- the unwind reaches its target --------------------------------------

  ghost predicate LeavesContextAlone(oracle: UnwindOracle) {
    forall k: nat, call: HandlerCall :: oracle(k, call) == call.context
  }

  lemma {:induction false} UnwindRunStep(w: World, m: Mem, oracle: UnwindOracle, a: Activation, caller: Cpu, c: Cpu,
          n: nat, flags: Flags, target: U64, ip: U64, log: seq<HandlerCall>)
    requires ChainsEnd(w, m) && Linked(w, m, a, caller) && Alike(c, a.cpu) && n > 0
    requires LeavesContextAlone(oracle)
    ensures var base := EntryRsp(a.shape, caller) - if a.shape.Framed? then Prologue.BaseDepth(a.shape.ops) else 0;
            UnwindRun(w, m, oracle, c, n, flags, target, ip, log)
            == if a.shape.Framed? && base == target
                 then (c, flags + EXC_TARGET_UNWIND, log + CallAt(w, m, c, flags + EXC_TARGET_UNWIND, ip))
               else if caller.rip == 0 then (CallerOf(w, m, c), flags, log + CallAt(w, m, c, flags, ip))
               else UnwindRun(w, m, oracle, CallerOf(w, m, c), n - 1, flags, target, ip,
                              log + CallAt(w, m, c, flags, ip))
  {
    StepFindsCaller(w, m, a, caller, c);
    if a.shape.Leaf? {
      assert log + [] == log;
    } else {
      assert FunctionTable.FindEntry(w.modules, c.rip) == Some(a.shape.entry);
    }
  }

  /** The unwind went over the visits up to the t-th, whose call is the first to see the target flag. */
  predicate Reached(w: World, m: Mem, visits: seq<Cpu>, t: nat, flags: Flags, ip: U64, log: seq<HandlerCall>,
                    result: (Cpu, Flags, seq<HandlerCall>))
    requires ChainsEnd(w, m)
  {
    && t < |visits|
    && result.0 == visits[t] && result.1 == flags + EXC_TARGET_UNWIND
    && result.2 == log + CallsAt(w, m, visits[..t], flags, ip) + CallAt(w, m, visits[t], flags + EXC_TARGET_UNWIND, ip)
  }

  /**
   When the target is the establisher frame of the t-th activation, the unwind calls the unwind handlers of
   the activations from the innermost to the t-th, each once and in order; the target flag is set from the
   t-th call on; and it ends in the t-th visited context.
   */
  lemma {:induction false} UnwindReachesTarget(
      w: World, m: Mem, oracle: UnwindOracle, acts: seq<Activation>, root: Cpu, c: Cpu, n: nat, t: nat,
      flags: Flags, ip: U64, log: seq<HandlerCall>)
    requires ChainsEnd(w, m) && AllLinked(w, m, acts, root) && root.rip == 0
    requires t < |acts| && t < n && acts[t].shape.Framed? && Alike(c, acts[0].cpu)
    requires 0 <= EstablisherOf(acts, root, t) < TWO64
    requires LeavesContextAlone(oracle)
    ensures Reached(w, m, Walk(w, m, c, n), t, flags, ip, log,
                    UnwindRun(w, m, oracle, c, n, flags, EstablisherOf(acts, root, t), ip, log))
    decreases t
  {
    hide Reached, Linked, Alike, CallerOf, CallAt, UnwindRun, Walk;
    var a, caller, target := acts[0], CallerCpu(acts, root), EstablisherOf(acts, root, t);
    UnwindRunStep(w, m, oracle, a, caller, c, n, flags, target, ip, log);
    if t == 0 {
      assert acts[0..] == acts;
      ReachedAtOnce(w, m, Walk(w, m, c, n), flags, ip, log);
    } else {
      if a.shape.Framed? {
        EstablishersRise(w, m, acts, root, 0, t);
        assert acts[0..] == acts;
      }
      assert acts[1..][t - 1..] == acts[t..];
      NotLast(w, m, a, acts[1], c, n);
      var next, calls := CallerOf(w, m, c), CallAt(w, m, c, flags, ip);
      UnwindReachesTarget(w, m, oracle, acts[1..], root, next, n - 1, t - 1, flags, ip, log + calls);
      ReachedLater(w, m, c, Walk(w, m, next, n - 1), t, flags, ip, log,
                   UnwindRun(w, m, oracle, next, n - 1, flags, target, ip, log + calls));
    }
  }

  lemma {:induction false} NotLast(w: World, m: Mem, a: Activation, b: Activation, c: Cpu, n: nat)
    requires ChainsEnd(w, m) && Linked(w, m, a, b.cpu) && b.cpu.rip != 0 && Alike(c, a.cpu) && n > 0
    ensures Alike(CallerOf(w, m, c), b.cpu) && Walk(w, m, c, n) == [c] + Walk(w, m, CallerOf(w, m, c), n - 1)
  {
    StepFindsCaller(w, m, a, b.cpu, c);
  }

  lemma {:induction false} ReachedAtOnce(w: World, m: Mem, visits: seq<Cpu>, flags: Flags, ip: U64,
          log: seq<HandlerCall>)
    requires ChainsEnd(w, m) && visits != []
    ensures var now := flags + EXC_TARGET_UNWIND;
            Reached(w, m, visits, 0, flags, ip, log, (visits[0], now, log + CallAt(w, m, visits[0], now, ip)))
  {
    assert visits[..0] == [] && log + [] == log;
  }

  lemma {:induction false} ReachedLater(w: World, m: Mem, c: Cpu, rest: seq<Cpu>, t: nat, flags: Flags, ip: U64,
          log: seq<HandlerCall>, result: (Cpu, Flags, seq<HandlerCall>))
    requires ChainsEnd(w, m) && t > 0
    requires Reached(w, m, rest, t - 1, flags, ip, log + CallAt(w, m, c, flags, ip), result)
    ensures Reached(w, m, [c] + rest, t, flags, ip, log, result)
  {
    var visits := [c] + rest;
    assert visits[..t][0] == c && visits[..t][1..] == rest[..t - 1];
    Assoc(log, CallAt(w, m, c, flags, ip), CallsAt(w, m, rest[..t - 1], flags, ip));
  }

  // ---- the search asks in order -------------------------------------------

  /** Handler and establisher frame of each visited function that has a search handler, in order. */
  function AskedOf(w: World, m: Mem, visits: seq<Cpu>): seq<(U64, U64)>
    requires ChainsEnd(w, m)
  {
    if visits == [] then [] else AskedAt(w, m, visits[0]) + AskedOf(w, m, visits[1..])
  }

  function AskedAt(w: World, m: Mem, c: Cpu): seq<(U64, U64)>
    requires ChainsEnd(w, m)
  {
    Keys(SearchCallAt(w, m, c, {}, c))
  }

  function Keys(calls: seq<HandlerCall>): (keys: seq<(U64, U64)>)
    ensures |keys| == |calls|
  {
    seq(|calls|, (i: int) requires 0 <= i < |calls| => (calls[i].handler, calls[i].establisher))
  }

  /**
   `calls` are those of the first `t` visited functions that have a handler, each once and in order. All
   functions were visited unless a handler ended the search, and then the last one visited is its own.
   */
  predicate InOrder(w: World, m: Mem, oracle: SearchOracle, flags: Flags, visits: seq<Cpu>, t: nat, k: nat,
                    calls: seq<HandlerCall>, outcome: Outcome)
    requires ChainsEnd(w, m)
  {
    && t <= |visits|
    && Keys(calls) == AskedOf(w, m, visits[..t])
    && (t < |visits| || outcome != Returned ==>
          && t > 0 && calls != [] && AskedAt(w, m, visits[t - 1]) == Keys([calls[|calls| - 1]])
          && Decide(oracle(k + |calls| - 1, calls[|calls| - 1]), flags) == Stop(outcome))
  }

  lemma {:induction false} SearchAsksInOrder(w: World, m: Mem, oracle: SearchOracle, flags: Flags, visits: seq<Cpu>,
                                             record: Cpu, k: nat) returns (t: nat)
    requires ChainsEnd(w, m)
    ensures var (calls, outcome) := Search(w, m, oracle, flags, visits, record, k);
            InOrder(w, m, oracle, flags, visits, t, k, calls, outcome)
    decreases |visits|
  {
    hide InOrder, SearchCallAt, Decide, AskedAt, AskedOf;
    if visits == [] {
      NothingInOrder(w, m, oracle, flags, k);
      return 0;
    }
    var calls := SearchCallAt(w, m, visits[0], flags, record);
    var d := if calls == [] then GoOn(record) else Decide(oracle(k, calls[0]), flags);
    AskedAtIgnoresRecord(w, m, visits[0], flags, record);
    if d.Stop? {
      t := 1;
      EndsInOrder(w, m, oracle, flags, visits, k, calls, d.outcome);
    } else {
      var j := SearchAsksInOrder(w, m, oracle, flags, visits[1..], d.record, k + |calls|);
      t := j + 1;
      var (rest, outcome) := Search(w, m, oracle, flags, visits[1..], d.record, k + |calls|);
      GoesOnInOrder(w, m, oracle, flags, visits, j, k, calls, rest, outcome);
    }
  }

  lemma {:induction false} NothingInOrder(w: World, m: Mem, oracle: SearchOracle, flags: Flags, k: nat)
    requires ChainsEnd(w, m)
    ensures InOrder(w, m, oracle, flags, [], 0, k, [], Returned)
  {
  }

  lemma {:induction false} EndsInOrder(w: World, m: Mem, oracle: SearchOracle, flags: Flags, visits: seq<Cpu>, k: nat,
                    calls: seq<HandlerCall>, outcome: Outcome)
    requires ChainsEnd(w, m) && visits != [] && Keys(calls) == AskedAt(w, m, visits[0])
    requires |calls| == 1 && Decide(oracle(k, calls[0]), flags) == Stop(outcome)
    ensures InOrder(w, m, oracle, flags, visits, 1, k, calls, outcome)
  {
    AskedOfFirst(w, m, visits, 1);
    assert visits[1..][..0] == [];
    assert Keys(calls) + [] == Keys(calls);
    assert calls == [calls[0]];
  }

  lemma {:induction false} GoesOnInOrder(w: World, m: Mem, oracle: SearchOracle, flags: Flags, visits: seq<Cpu>, j: nat,
          k: nat, calls: seq<HandlerCall>, rest: seq<HandlerCall>, outcome: Outcome)
    requires ChainsEnd(w, m) && visits != [] && Keys(calls) == AskedAt(w, m, visits[0])
    requires InOrder(w, m, oracle, flags, visits[1..], j, k + |calls|, rest, outcome)
    ensures InOrder(w, m, oracle, flags, visits, j + 1, k, calls + rest, outcome)
  {
    hide AskedAt, AskedOf, Decide, Keys;
    AskedOfFirst(w, m, visits, j + 1);
    KeysConcat(calls, rest);
    if rest != [] {
      assert (calls + rest)[|calls + rest| - 1] == rest[|rest| - 1];
    }
    if j > 0 {
      assert visits[1..][j - 1] == visits[j];
    }
  }

  lemma {:induction false} AskedAtIgnoresRecord(w: World, m: Mem, c: Cpu, flags: Flags, record: Cpu)
    requires ChainsEnd(w, m)
    ensures Keys(SearchCallAt(w, m, c, flags, record)) == AskedAt(w, m, c)
  {
  }

  lemma {:induction false} KeysConcat(a: seq<HandlerCall>, b: seq<HandlerCall>)
    ensures Keys(a + b) == Keys(a) + Keys(b)
  {
  }

  lemma {:induction false} AskedOfFirst(w: World, m: Mem, visits: seq<Cpu>, t: nat)
    requires ChainsEnd(w, m) && 0 < t <= |visits|
    ensures AskedOf(w, m, visits[..t]) == AskedAt(w, m, visits[0]) + AskedOf(w, m, visits[1..][..t - 1])
  {
    assert visits[..t][0] == visits[0] && visits[..t][1..] == visits[1..][..t - 1];
  }

  // ---- both passes together -----------------------------------------------

  lemma {:induction false} SuffixLinked(w: World, m: Mem, extra: seq<Activation>, acts: seq<Activation>, root: Cpu)
    requires AllLinked(w, m, extra + acts, root)
    ensures AllLinked(w, m, acts, root)
    decreases |extra|
  {
    hide Linked, CallerCpu;
    if extra == [] {
      assert extra + acts == acts;
    } else {
      assert (extra + acts)[1..] == extra[1..] + acts;
      SuffixLinked(w, m, extra[1..], acts, root);
    }
  }

  /** The handler asked at an activation is told the activation's establisher frame. */
  lemma {:induction false} AskedEstablisher(w: World, m: Mem, a: Activation, caller: Cpu, c: Cpu, key: (U64, U64))
    requires ChainsEnd(w, m) && Linked(w, m, a, caller) && Alike(c, a.cpu) && AskedAt(w, m, c) == [key]
    ensures a.shape.Framed? && key.1 == EntryRsp(a.shape, caller) - Prologue.BaseDepth(a.shape.ops)
  {
    assert |SearchCallAt(w, m, c, {}, c)| == 1;
    assert Keys(SearchCallAt(w, m, c, {}, c))[0] == key;
    StepFindsCaller(w, m, a, caller, c);
  }

  lemma {:induction false} SearchCaughtAt(w: World, m: Mem, acts: seq<Activation>, root: Cpu, c: Cpu,
          oracle: SearchOracle, flags: Flags, record: Cpu, k: nat) returns (t: nat)
    requires ChainsEnd(w, m) && AllLinked(w, m, acts, root) && root.rip == 0
    requires acts != [] && |acts| <= MAX_FRAMES && Alike(c, acts[0].cpu)
    requires Search(w, m, oracle, flags, Walk(w, m, c, MAX_FRAMES), record, k).1.Unwinding?
    ensures var visits := Walk(w, m, c, MAX_FRAMES);
            var (calls, outcome) := Search(w, m, oracle, flags, visits, record, k);
            && t < |acts| && |acts| == |visits| && acts[t].shape.Framed?
            && Keys(calls) == AskedOf(w, m, visits[..t + 1])
            && calls != [] && calls[|calls| - 1].establisher == EstablisherOf(acts, root, t)
            && Decide(oracle(k + |calls| - 1, calls[|calls| - 1]), flags) == Stop(outcome)
  {
    hide Alike, Linked, Search, AskedAt, AskedOf, Decide, Walk;
    var visits := Walk(w, m, c, MAX_FRAMES);
    var (calls, outcome) := Search(w, m, oracle, flags, visits, record, k);
    WalkVisitsActivations(w, m, acts, root, c, MAX_FRAMES);
    var j := SearchAsksInOrder(w, m, oracle, flags, visits, record, k);
    t := j - 1;
    LinkedAt(w, m, acts, root, t);
    var last := calls[|calls| - 1];
    assert Keys([last]) == [(last.handler, last.establisher)];
    AskedEstablisher(w, m, acts[t], CallerCpu(acts[t..], root), visits[t], (last.handler, last.establisher));
  }

  /** An activation's function is the target of an unwind exactly if its establisher frame is. */
  lemma {:induction false} TargetSeen(w: World, m: Mem, a: Activation, caller: Cpu, c: Cpu, target: U64)
    requires ChainsEnd(w, m) && Linked(w, m, a, caller) && Alike(c, a.cpu)
    ensures IsTarget(w, m, c, target)
            <==> a.shape.Framed? && EntryRsp(a.shape, caller) - Prologue.BaseDepth(a.shape.ops) == target
  {
    StepFindsCaller(w, m, a, caller, c);
  }

  /** Of the frames visited the t-th is the first, and so the only one, to be the target. */
  lemma {:induction false} TargetVisited(w: World, m: Mem, acts: seq<Activation>, root: Cpu, c: Cpu, n: nat, t: nat)
    requires ChainsEnd(w, m) && AllLinked(w, m, acts, root) && root.rip == 0
    requires t < |acts| && t < n && acts[t].shape.Framed? && Alike(c, acts[0].cpu)
    requires 0 <= EstablisherOf(acts, root, t) < TWO64
    ensures var (visits, target) := (Walk(w, m, c, n), EstablisherOf(acts, root, t));
            t < |visits| && Visited(w, m, visits, target, t) && IsTarget(w, m, visits[t], target)
  {
    hide Linked, AllLinked, ChainsEnd, Walk, Alike, IsTarget, CallerCpu;
    var (visits, target) := (Walk(w, m, c, n), EstablisherOf(acts, root, t));
    WalkVisitsActivations(w, m, acts, root, c, n);
    forall i | 0 <= i <= t ensures IsTarget(w, m, visits[i], target) <==> i == t {
      LinkedAt(w, m, acts, root, i);
      TargetSeen(w, m, acts[i], CallerCpu(acts[i..], root), visits[i], target);
      if i < t && acts[i].shape.Framed? {
        EstablishersRise(w, m, acts, root, i, t);
      }
    }
  }

  /** The context an unwind lands in is the target activation's, with Rip and Rax set. */
  lemma {:induction false} UnwindLands(
      w: World, m: Mem, oracle: UnwindOracle, acts: seq<Activation>, root: Cpu, c: Cpu, t: nat,
      flags: Flags, ip: U64, retval: U64, log: seq<HandlerCall>)
    requires ChainsEnd(w, m) && AllLinked(w, m, acts, root) && root.rip == 0 && |acts| <= MAX_FRAMES
    requires t < |acts| && acts[t].shape.Framed? && Alike(c, acts[0].cpu)
    requires 0 <= EstablisherOf(acts, root, t) < TWO64
    requires LeavesContextAlone(oracle)
    ensures var run := UnwindRun(w, m, oracle, c, MAX_FRAMES, flags, EstablisherOf(acts, root, t), ip, log);
            && Reached(w, m, Walk(w, m, c, MAX_FRAMES), t, flags, ip, log, run)
            && Alike(Landing(run.0, ip, retval), acts[t].cpu.(rip := ip))
            && Landing(run.0, ip, retval).gpr[RAX] == retval
  {
    hide Linked, AllLinked, ChainsEnd, LeavesContextAlone, Walk, UnwindRun, CallsAt, CallAt, EstablisherOf;
    UnwindReachesTarget(w, m, oracle, acts, root, c, MAX_FRAMES, t, flags, ip, log);
    WalkVisitsActivations(w, m, acts, root, c, MAX_FRAMES);
    assert Alike(Walk(w, m, c, MAX_FRAMES)[t], acts[t].cpu);
  }

  lemma {:induction false} EstablisherInAll(extra: seq<Activation>, acts: seq<Activation>, root: Cpu, t: nat)
    requires t < |acts|
    ensures (extra + acts)[|extra| + t] == acts[t]
    ensures acts[t].shape.Framed? ==> EstablisherOf(extra + acts, root, |extra| + t) == EstablisherOf(acts, root, t)
  {
    assert (extra + acts)[|extra| + t..] == acts[t..];
  }

  /**
   The two passes agree. A search from the raising context, over the activations `acts`, is ended by a handler
   that catches for its own frame; that frame is activation t. The unwind to it, from a context with more
   activations `extra` on top, runs the unwind handlers of `extra` and of `acts` up to the t-th, each once and
   in order, and lands in the catching activation: its Rsp and nonvolatile registers, with Rip and Rax set.
   */
  lemma {:induction false} TwoPassAgreement(w: World, m: Mem, extra: seq<Activation>, acts: seq<Activation>, root: Cpu,
          c: Cpu, c': Cpu, search: SearchOracle, unwind: UnwindOracle, flags: Flags, flags': Flags, record: Cpu, k: nat,
          log: seq<HandlerCall>) returns (t: nat)
    requires ChainsEnd(w, m) && AllLinked(w, m, extra + acts, root) && root.rip == 0
    requires acts != [] && |extra| + |acts| <= MAX_FRAMES
    requires Alike(c, acts[0].cpu) && Alike(c', (extra + acts)[0].cpu)
    requires var (calls, outcome) := Search(w, m, search, flags, Walk(w, m, c, MAX_FRAMES), record, k);
             outcome.Unwinding? && (calls != [] ==> outcome.targetFrame == calls[|calls| - 1].establisher)
    requires LeavesContextAlone(unwind)
    ensures var (calls, outcome) := Search(w, m, search, flags, Walk(w, m, c, MAX_FRAMES), record, k);
            var run := UnwindRun(w, m, unwind, c', MAX_FRAMES, flags', outcome.targetFrame, outcome.targetIp, log);
            var landing := Landing(run.0, outcome.targetIp, outcome.retval);
            && t < |acts| && t < |Walk(w, m, c, MAX_FRAMES)|
            && Keys(calls) == AskedOf(w, m, Walk(w, m, c, MAX_FRAMES)[..t + 1])
            && Reached(w, m, Walk(w, m, c', MAX_FRAMES), |extra| + t, flags', outcome.targetIp, log, run)
            && Alike(landing, acts[t].cpu.(rip := outcome.targetIp)) && landing.gpr[RAX] == outcome.retval
    ensures var visits := Walk(w, m, c, MAX_FRAMES);
            var (calls, outcome) := Search(w, m, search, flags, visits, record, k);
            exists at :: SearchCalls(w, m, search, flags, visits, record, k, calls, outcome, at)
    ensures var outcome := Search(w, m, search, flags, Walk(w, m, c, MAX_FRAMES), record, k).1;
            var (visits, target) := (Walk(w, m, c', MAX_FRAMES), outcome.targetFrame);
            var run := UnwindRun(w, m, unwind, c', MAX_FRAMES, flags', target, outcome.targetIp, log);
            && |extra| + t < |visits|
            && Visited(w, m, visits, target, |extra| + t) && IsTarget(w, m, visits[|extra| + t], target)
            && log <= run.2
            && exists at :: UnwindCalls(w, m, flags', visits, target, outcome.targetIp, run.2[|log|..], at)
  {
    hide Visited, IsTarget, SearchCalls, UnwindCalls, EstablisherOf, Offers;
    hide Linked, AllLinked, ChainsEnd, LeavesContextAlone, Search, AskedOf, Decide, Walk, UnwindRun, CallsAt, CallAt;
    hide Alike, Reached, Landing;
    var all := extra + acts;
    SuffixLinked(w, m, extra, acts, root);
    t := SearchCaughtAt(w, m, acts, root, c, search, flags, record, k);
    var outcome := Search(w, m, search, flags, Walk(w, m, c, MAX_FRAMES), record, k).1;
    EstablisherInAll(extra, acts, root, t);
    UnwindLands(w, m, unwind, all, root, c', |extra| + t, flags', outcome.targetIp, outcome.retval, log);
    TargetVisited(w, m, all, root, c', MAX_FRAMES, |extra| + t);
    var _ := SearchCallsMade(w, m, search, flags, Walk(w, m, c, MAX_FRAMES), record, k);
    var ran, at :=
      UnwindCallsMade(w, m, unwind, c', MAX_FRAMES, flags', outcome.targetFrame, outcome.targetIp, log);
    assert (log + ran)[|log|..] == ran;
  }
}
