/** The clock that says how far cells may go, and the gates that say whether one may go now, in unsigned
    64-bit arithmetic. */
module Scheduler {
  import opened Wrappers

  const LIMIT: nat := 0x1_0000_0000_0000_0000

  type U64 = x: nat | x < LIMIT

  /** Unsigned arithmetic wraps. */
  function Plus1(a: U64): U64 { if a + 1 == LIMIT then 0 else a + 1 }

  function Minus(a: U64, b: U64): U64 { if a >= b then a - b else a + LIMIT - b }

  datatype Mode = Running | Paused | Starved

  /** A limit of zero is no limit. */
  datatype Config = Config(maxLag: U64, maxDeep: U64, maxUnseen: U64)

  /** Seconds between two attempts of a starved automaton. */
  const STARVATION_PROBE: nat := 15

  // ---- the frontier -----------------------------------------------------------------------------------

  predicate Unhalted(tips: seq<U64>, halted: set<nat>, i: int) {
    0 <= i < |tips| && i !in halted
  }

  /** The slowest cell still running; with none, the position is held. */
  ghost predicate IsFrontier(tips: seq<U64>, halted: set<nat>, held: U64, f: U64) {
    if exists i :: Unhalted(tips, halted, i)
    then (exists i :: Unhalted(tips, halted, i) && tips[i] == f) && forall i :: Unhalted(tips, halted, i) ==> f <= tips[i]
    else f == held
  }

  // ---- the gates, as a reader would state them ---------------------------------------------------------

  /** How many transactions deep an unconfirmed run may be. The subtraction is not guarded. */
  predicate DepthOpen(tip: U64, mined: U64, maxDeep: U64) {
    maxDeep == 0 || Minus(tip, mined) < maxDeep
  }

  /** How far ahead of the network's acceptance a cell may build. */
  predicate AcceptanceOpen(tip: U64, seen: U64, maxUnseen: U64) {
    maxUnseen == 0 || tip < seen + maxUnseen
  }

  // ---- the engine ------------------------------------------------------------------------------------

  class Engine {
    var tips: seq<U64>
    var halted: set<nat>
    var generation: U64
    var target: U64
    var mode: Mode
    var lastMined: map<nat, U64>
    var lastSeen: map<nat, U64>
    var leader: bool
    var needsRederive: bool
    var lastProbe: nat
    const lockControls: bool
    const config: Config

    /** What happened to each cell since its tip was last derived, and the cells that moved while the
        automaton was starved, which is when the gates are not asked. */
    ghost var traces: seq<seq<Event>>
    ghost var ungated: set<nat>

    /** Opens at positions derived from the record; nothing moves before they are derived again under the lease. */
    constructor (derived: seq<U64>, stopped: set<nat>, locked: bool, c: Config)
      ensures tips == derived && halted == stopped && config == c && lockControls == locked
      ensures !leader && needsRederive && mode == Paused && Valid() && ungated == {}
      ensures IsFrontier(tips, halted, 0, generation) && target == generation
    {
      tips, halted, generation, target, mode := derived, stopped, 0, 0, Paused;
      lastMined, lastSeen, leader, needsRederive, lastProbe := map[], map[], false, true, 0;
      lockControls, config := locked, c;
      traces, ungated := [], {};
      new;
      ApplyPositions(derived, stopped);
    }

    /** Each cell's trace is one the gate allowed, and the tip and the gate are where it leads. */
    ghost predicate Valid()
      reads this
    {
      |traces| == |tips| && forall cell: nat :: cell < |tips| && cell !in ungated ==> Tracked(cell)
    }

    ghost predicate Tracked(cell: nat)
      requires cell < |tips| == |traces|
      reads this
    {
      IsGated(traces[cell], config.maxUnseen) && ReachAfter(traces[cell]) == Reach(tips[cell], Gate(lastSeen, cell))
    }

    method FrontierLocked() returns (f: U64)
      ensures IsFrontier(tips, halted, generation, f)
      ensures forall i: nat :: i < |tips| && i !in halted ==> f <= tips[i]
      ensures if forall i: nat :: i < |tips| ==> i in halted then f == generation else exists i: nat :: i < |tips| && i !in halted && tips[i] == f
    {
      var first := true;
      f := 0;
      for i := 0 to |tips|
        invariant first <==> forall j :: 0 <= j < i ==> !Unhalted(tips, halted, j)
        invariant !first ==> exists j :: j < i && Unhalted(tips, halted, j) && tips[j] == f
        invariant !first ==> forall j :: Unhalted(tips, halted, j) && j < i ==> f <= tips[j]
      {
        if i in halted { continue; }
        assert Unhalted(tips, halted, i);
        if first || tips[i] < f {
          f, first := tips[i], false;
        }
      }
      assert forall i: nat :: i < |tips| && i !in halted ==> Unhalted(tips, halted, i);
      if first { f := generation; }
    }

    /** The second half of a tick: the frontier was read earlier, and anything may have happened since. */
    method RaiseTarget(frontier: U64, maxLag: U64)
      modifies `target
      ensures target == Raised(old(target), frontier, maxLag)
    {
      if target < frontier { target := frontier; }
      if Minus(target, frontier) < maxLag { target := Plus1(target); }
    }

    method Tick(maxLag: U64) returns (frontier: U64)
      modifies `target
      ensures IsFrontier(tips, halted, generation, frontier)
      ensures target == if mode == Running then Raised(old(target), frontier, maxLag) else old(target)
    {
      frontier := FrontierLocked();
      if mode == Running { RaiseTarget(frontier, maxLag); }
    }

    /** Asks every cell for exactly one more generation. */
    method Step() returns (f: U64)
      modifies `target
      ensures IsFrontier(tips, halted, generation, f)
      ensures target == if lockControls then old(target) else Stepped(old(target), f)
    {
      f := FrontierLocked();
      if lockControls { return; }
      if target < Plus1(f) { target := Plus1(f); } else { target := Plus1(target); }
    }

    method SetMode(m: Mode) returns (f: U64)
      modifies `target, `mode
      ensures IsFrontier(tips, halted, generation, f)
      ensures mode == if lockControls then old(mode) else m
      ensures target == if !lockControls && m == Running && old(target) < f then f else old(target)
    {
      f := FrontierLocked();
      if lockControls { return; }
      if m == Running && target < f { target := f; }
      mode := m;
    }

    /** A derived tip is on chain, so it is at least seen; and the clock is never left behind the cells. */
    method ApplyPositions(derived: seq<U64>, stopped: set<nat>)
      requires |derived| == |tips|
      modifies `tips, `halted, `generation, `target, `lastMined, `lastSeen, `traces, `ungated
      ensures Valid() && ungated == {} && traces == seq(|derived|, i requires 0 <= i < |derived| => [Derived(derived[i])])
      ensures tips == derived && halted == stopped
      ensures forall i: nat :: i < |tips| ==> Gate(lastMined, i) == Gate(lastSeen, i) == tips[i]
      ensures IsFrontier(tips, halted, old(generation), generation)
      ensures target >= generation && target >= old(target) && (target == old(target) || target == generation)
    {
      tips, halted := derived, stopped;
      var mined: map<nat, U64>, seen: map<nat, U64> := lastMined, lastSeen;
      for i: nat := 0 to |derived|
        invariant forall j: nat :: j < i ==> j in mined && j in seen && mined[j] == seen[j] == derived[j]
      {
        mined := mined[i := derived[i]];
        seen := seen[i := derived[i]];
      }
      lastMined, lastSeen := mined, seen;
      generation := FrontierLocked();
      if target < generation { target := generation; }
      traces, ungated := seq(|derived|, i requires 0 <= i < |derived| => [Derived(derived[i])]), {};
      forall cell: nat | cell < |tips| ensures Tracked(cell) { FreshTrace(derived[cell], config.maxUnseen); }
    }

    method ClaimProbe(now: nat) returns (claimed: bool)
      modifies `lastProbe
      ensures claimed <==> now - old(lastProbe) >= 15
      ensures lastProbe == if claimed then now else old(lastProbe)
    {
      if now - lastProbe < STARVATION_PROBE { return false; }
      lastProbe := now;
      claimed := true;
    }

    /** Whether a cell may advance right now: the whole decision, in the order it is taken. */
    method TurnReady(cell: nat, now: nat) returns (ready: bool)
      requires cell < |tips|
      modifies `lastProbe
      ensures ready ==> leader && !needsRederive
      ensures leader && !needsRederive && mode == Starved ==> (ready <==> now - old(lastProbe) >= 15)
      ensures lastProbe == if ready && mode == Starved then now else old(lastProbe)
      ensures leader && !needsRederive && mode != Starved ==>
                (ready <==> && DepthOpen(tips[cell], Gate(lastMined, cell), config.maxDeep)
                            && AcceptanceOpen(tips[cell], Gate(lastSeen, cell), config.maxUnseen)
                            && tips[cell] < target)
    {
      if !leader { return false; }
      if needsRederive { return false; }
      if mode == Starved {
        ready := ClaimProbe(now);
        return;
      }
      var tip, mined, seen := tips[cell], Gate(lastMined, cell), Gate(lastSeen, cell);
      if config.maxDeep > 0 && Minus(tip, mined) >= config.maxDeep { return false; }
      if config.maxUnseen > 0 && tip > seen && Minus(tip, seen) >= config.maxUnseen { return false; }
      ready := tip < target;
    }

    /** The network accepted a transaction this cell has sent. */
    method HearAccepted(cell: nat, g: U64, mined: bool)
      requires Valid() && cell < |tips| && g <= tips[cell]
      modifies `lastSeen, `lastMined, `traces
      ensures Valid() && traces == old(traces)[cell := old(traces)[cell] + [Reported(g)]]
      ensures Gate(lastSeen, cell) == if g > Gate(old(lastSeen), cell) then g else Gate(old(lastSeen), cell)
      ensures Gate(lastMined, cell) == if mined && g > Gate(old(lastMined), cell) then g else Gate(old(lastMined), cell)
    {
      var seen, mine := Gate(lastSeen, cell), Gate(lastMined, cell);
      if g > seen { lastSeen := lastSeen[cell := g]; }
      if mined && g > mine { lastMined := lastMined[cell := g]; }
      ghost var was := traces[cell];
      traces := traces[cell := was + [Reported(g)]];
      if cell !in ungated { OneMoreEvent(was, Reported(g), config.maxUnseen, tips[cell], seen); }
    }

    /** One turn of one cell: it waits at the gates and, if they are open, sends, unless the transition
        fails. Parent before child: unless it was starved, some ancestor at most maxUnseen - 1 generations
        behind the output it spends was derived from the record or reported accepted. */
    method TakeTurn(cell: nat, now: nat, completes: bool) returns (sent: bool)
      requires Valid() && cell < |tips|
      modifies `tips, `lastProbe, `traces, `ungated
      ensures Valid() && tips == if sent then old(tips)[cell := Plus1(old(tips)[cell])] else old(tips)
      ensures sent ==> completes && leader && !needsRederive
      // Starved, one cell at a time probes, whether its transition completes or not.
      ensures leader && !needsRederive && mode == Starved ==>
                && (sent <==> completes && now - old(lastProbe) >= 15)
                && lastProbe == if now - old(lastProbe) >= 15 then now else old(lastProbe)
      ensures !leader || needsRederive || mode != Starved ==> lastProbe == old(lastProbe)
      ensures leader && !needsRederive && mode != Starved && completes ==>
                (sent <==> && DepthOpen(old(tips)[cell], Gate(lastMined, cell), config.maxDeep)
                           && AcceptanceOpen(old(tips)[cell], Gate(lastSeen, cell), config.maxUnseen)
                           && old(tips)[cell] < target)
      ensures sent ==> traces == old(traces)[cell := old(traces)[cell] + [Sent]]
      ensures ungated == if sent && mode == Starved then old(ungated) + {cell} else old(ungated)
      ensures sent && cell !in ungated && config.maxUnseen >= 1 ==>
                HasAcceptedAncestor(old(traces)[cell], old(tips)[cell], config.maxUnseen)
    {
      var ready := TurnReady(cell, now);
      sent := ready && completes;
      if sent {
        ghost var was, tip, seen := traces[cell], tips[cell], Gate(lastSeen, cell);
        tips := tips[cell := Plus1(tips[cell])];
        traces := traces[cell := was + [Sent]];
        if mode == Starved {
          ungated := ungated + {cell};
        } else if cell !in ungated {
          OneMoreEvent(was, Sent, config.maxUnseen, tip, seen);
          if config.maxUnseen >= 1 {
            ghost var j, g := ParentBeforeChild(was + [Sent], config.maxUnseen, |was|);
            KnownEarlier(was, Sent, j, g);
          }
        }
      }
    }
  }

  function Gate(m: map<nat, U64>, cell: nat): U64 {
    if cell in m then m[cell] else 0
  }

  function Raised(target: U64, frontier: U64, maxLag: U64): U64 {
    var t := if target < frontier then frontier else target;
    if Minus(t, frontier) < maxLag then Plus1(t) else t
  }

  function Stepped(target: U64, frontier: U64): U64 {
    if target < Plus1(frontier) then Plus1(frontier) else Plus1(target)
  }

  /** Where the acceptance gate closes: a limit of k admits the k generations from the accepted one on, and no
      more; a cell not ahead of the network's word, and any cell without a limit, is always admitted. */
  lemma AcceptanceGateExactly(tip: U64, seen: U64, k: U64)
    ensures AcceptanceOpen(tip, seen, k) <==> k == 0 || tip - seen < k
    ensures tip <= seen ==> AcceptanceOpen(tip, seen, k)
    ensures k > 0 && seen + k < LIMIT ==> AcceptanceOpen(seen + k - 1, seen, k) && !AcceptanceOpen(seen + k, seen, k)
    ensures Gate(map[], tip) == 0
  {}

  /** Sixty-four bits. */
  lemma Wraps()
    ensures Plus1(0xffff_ffff_ffff_ffff) == 0 && Minus(0, 1) == 0xffff_ffff_ffff_ffff
  {}

  // ---- the clock never freezes ---------------------------------------------------------------------------

  /** The one tick in 2^64 that would run off the end of the integers. */
  predicate AtTheEnd(target: U64, frontier: U64, maxLag: U64) {
    var t := if target < frontier then frontier else target;
    t == LIMIT - 1 && t - frontier < maxLag
  }

  /** After a running tick the target is beyond the frontier the tick read, wherever a halt, a rewind or
      an advance had left the two; and the lag it is compared by is a true difference. */
  lemma TickGivesWork(target: U64, frontier: U64, maxLag: U64)
    requires maxLag >= 1
    ensures Raised(target, frontier, maxLag) > frontier <==> !AtTheEnd(target, frontier, maxLag)
    ensures !AtTheEnd(target, frontier, maxLag) ==>
              && Raised(target, frontier, maxLag) >= target
              && Raised(target, frontier, maxLag) - frontier <= (if target - frontier > maxLag then target - frontier else maxLag)
              && Minus(Raised(target, frontier, maxLag), frontier) == Raised(target, frontier, maxLag) - frontier
  {}

  /** So a cell that sits where the tick saw the slowest cell has work to do. */
  lemma SlowestHasWork(tips: seq<U64>, halted: set<nat>, held: U64, frontier: U64, target: U64, maxLag: U64)
    requires IsFrontier(tips, halted, held, frontier) && exists i :: Unhalted(tips, halted, i)
    requires maxLag >= 1 && !AtTheEnd(target, frontier, maxLag)
    ensures exists i :: Unhalted(tips, halted, i) && tips[i] < Raised(target, frontier, maxLag)
                        && forall j :: Unhalted(tips, halted, j) ==> tips[i] <= tips[j]
  {
    TickGivesWork(target, frontier, maxLag);
    var i :| Unhalted(tips, halted, i) && tips[i] == frontier;
  }

  /** n ticks without the saturation, while the frontier stays where it is. */
  function Unguarded(target: U64, frontier: U64, maxLag: U64, n: nat): U64 {
    if n == 0 then target
    else
      var t := Unguarded(target, frontier, maxLag, n - 1);
      if Minus(t, frontier) < maxLag then Plus1(t) else t
  }

  /** Without the saturation a frontier past the target stops the clock for good: however large the limit
      and however often it ticks, the target never gets back to the frontier. It stands still at once,
      unless the limit is so near the largest integer that it creeps up to that distance first. */
  lemma {:induction false} UnguardedClockFreezes(target: U64, frontier: U64, maxLag: U64, n: nat)
    requires target < frontier
    ensures var stop := if frontier - target <= LIMIT - maxLag then target else frontier - (LIMIT - maxLag);
            && Unguarded(target, frontier, maxLag, n) == (if target + n < stop then target + n else stop)
            && stop < frontier
  {
    if n > 0 { UnguardedClockFreezes(target, frontier, maxLag, n - 1); }
  }

  lemma HaltRaisesFrontier(tips: seq<U64>, halted: set<nat>, held: U64, f: U64, g: U64, k: nat)
    requires IsFrontier(tips, halted, held, f) && IsFrontier(tips, halted + {k}, held, g)
    requires exists i :: Unhalted(tips, halted + {k}, i)
    ensures f <= g
  {
    var i :| Unhalted(tips, halted + {k}, i) && tips[i] == g;
    assert Unhalted(tips, halted, i);
  }

  /** A step asks for one generation beyond both the target and the slowest cell. */
  lemma StepAsksForOne(target: U64, frontier: U64)
    requires target < LIMIT - 1 && frontier < LIMIT - 1
    ensures Stepped(target, frontier) == (if target > frontier then target else frontier) + 1
  {}

  // ---- the gates --------------------------------------------------------------------------------------------

  /** The unguarded depth gate means what it says while the tip is not behind what was mined; behind it,
      the gate is shut unless the limit is within a hair of the largest integer. */
  lemma DepthGateExactly(tip: U64, mined: U64, maxDeep: U64)
    ensures DepthOpen(tip, mined, maxDeep) <==>
              || maxDeep == 0
              || (tip >= mined && tip - mined < maxDeep)
              || (tip < mined && LIMIT - (mined - tip) < maxDeep)
  {}

  /** What happens to one cell between derivations, in the order it happens. */
  datatype Event = Derived(generation: nat) | Reported(generation: nat) | Sent

  datatype Reach = Reach(tip: nat, seen: nat)

  function Happened(r: Reach, e: Event): Reach {
    match e
    case Derived(g) => Reach(g, g)
    case Reported(g) => r.(seen := if g > r.seen then g else r.seen)
    case Sent => r.(tip := r.tip + 1)
  }

  function ReachAfter(trace: seq<Event>): Reach {
    if trace == [] then Reach(0, 0) else Happened(ReachAfter(trace[..|trace| - 1]), trace[|trace| - 1])
  }

  /** Starts from a derivation; every report is of a transaction already sent; every sending passed the gate. */
  ghost predicate IsGated(trace: seq<Event>, k: U64) {
    && trace != [] && trace[0].Derived?
    && forall n :: 0 <= n < |trace| ==> Permitted(trace, n, k)
  }

  ghost predicate Permitted(trace: seq<Event>, n: nat, k: U64)
    requires n < |trace|
  {
    var r := ReachAfter(trace[..n]);
    match trace[n]
    case Derived(_) => true
    case Reported(g) => g <= r.tip
    case Sent => r.tip < LIMIT && r.seen < LIMIT && AcceptanceOpen(r.tip, r.seen, k)
  }

  /** The network is known to hold generation g of the cell: it was derived, or reported since. */
  ghost predicate KnownAccepted(trace: seq<Event>, n: nat, j: nat, g: nat) {
    && j < n <= |trace| && (trace[j] == Derived(g) || trace[j] == Reported(g))
    && forall i :: j < i < n ==> !trace[i].Derived?
  }

  lemma {:induction false} SeenIsKnown(trace: seq<Event>, k: U64, n: nat) returns (j: nat)
    requires IsGated(trace, k) && 1 <= n <= |trace|
    ensures KnownAccepted(trace, n, j, ReachAfter(trace[..n]).seen) && ReachAfter(trace[..n]).seen <= ReachAfter(trace[..n]).tip
  {
    assert trace[..n][..n - 1] == trace[..n - 1];
    assert Permitted(trace, n - 1, k);
    var r, e := ReachAfter(trace[..n - 1]), trace[n - 1];
    if n == 1 {
      j := 0;
    } else {
      j := SeenIsKnown(trace, k, n - 1);
      if e.Derived? || (e.Reported? && e.generation > r.seen) { j := n - 1; }
    }
  }

  /** Parent before child: whatever a cell sends, some ancestor at most k - 1 generations behind the
      output it spends was derived from the record or reported accepted; with k = 1, that very output. */
  lemma ParentBeforeChild(trace: seq<Event>, k: U64, n: nat) returns (j: nat, g: nat)
    requires IsGated(trace, k) && k >= 1 && n < |trace| && trace[n] == Sent
    ensures KnownAccepted(trace, n, j, g) && g <= ReachAfter(trace[..n]).tip <= g + k - 1
    ensures k == 1 ==> g == ReachAfter(trace[..n]).tip
  {
    j := SeenIsKnown(trace, k, n);
    g := ReachAfter(trace[..n]).seen;
    assert Permitted(trace, n, k);
  }

  // ---- the traces the engine leaves ------------------------------------------------------------------------

  lemma FreshTrace(g: U64, k: U64)
    ensures IsGated([Derived(g)], k) && ReachAfter([Derived(g)]) == Reach(g, g)
  {}

  lemma OneMoreEvent(was: seq<Event>, e: Event, k: U64, tip: U64, seen: U64)
    requires IsGated(was, k) && ReachAfter(was) == Reach(tip, seen)
    requires e.Reported? ==> e.generation <= tip
    requires e.Sent? ==> AcceptanceOpen(tip, seen, k)
    ensures IsGated(was + [e], k) && ReachAfter(was + [e]) == Happened(Reach(tip, seen), e)
  {
    var longer := was + [e];
    assert longer[..|was|] == was;
    forall n | 0 <= n < |longer| ensures Permitted(longer, n, k) {
      assert n < |was| ==> Permitted(was, n, k) && longer[..n] == was[..n];
    }
  }

  /** By the end of the trace, the network is known to hold some ancestor of the tip, or the tip itself,
      less than k generations behind it. */
  ghost predicate HasAcceptedAncestor(trace: seq<Event>, tip: nat, k: nat) {
    exists j: nat, g: nat :: KnownAccepted(trace, |trace|, j, g) && g <= tip < g + k
  }

  lemma KnownEarlier(was: seq<Event>, e: Event, j: nat, g: nat)
    requires KnownAccepted(was + [e], |was|, j, g)
    ensures KnownAccepted(was, |was|, j, g)
  {
    assert forall i :: 0 <= i < |was| ==> (was + [e])[i] == was[i];
  }
}
