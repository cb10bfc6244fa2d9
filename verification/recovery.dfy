/** Deciding what to do with one uncertain cell, from the wallet's actions, transaction bytes and verdicts. */
module Recovery {
  import opened Wrappers
  import Automaton
  import opened CellScript
  import opened Tips
  import opened Rejections
  import Arcade

  /** Halt is the safe answer. Resume keeps the tip; Adopt moves it along verified steps. */
  datatype Decision = Halt | Resume(tip: CellChain) | Adopt(tip: CellChain, steps: seq<CellChain>)

  /** One wallet action of a cell: unsigned actions have no txid, unreadable ones no generation. */
  datatype CellAction = CellAction(
    txid: TxID, failed: bool, generation: Option<nat>, script: Script, satoshis: nat)

  datatype ActionsAnswer = NoActions | Actions(page: seq<CellAction>, total: nat)
  datatype VerdictAnswer = NoVerdict | Verdict(status: Arcade.Status)
  datatype RecordAnswer = LookupFailed | OnRecord | NotOnRecord

  /** Everything a decision asks of the outside: none of it authenticated, any of it able to fail. */
  datatype Sources = Sources(
    actions: ActionsAnswer,
    raw: TxID -> RawAnswer,
    verdict: TxID -> VerdictAnswer,
    onRecord: TxID -> RecordAnswer)

  /** less answers as more does, except that any of its answers may be an error instead. */
  ghost predicate Degrades(less: Sources, more: Sources) {
    && (less.actions == NoActions || less.actions == more.actions)
    && (forall t :: less.raw(t) == Unavailable || less.raw(t) == more.raw(t))
    && (forall t :: less.verdict(t) == NoVerdict || less.verdict(t) == more.verdict(t))
    && (forall t :: less.onRecord(t) == LookupFailed || less.onRecord(t) == more.onRecord(t))
  }

  const DEFAULT_MAX_WALK: nat := 8

  // ---- the wallet's actions ------------------------------------------------------------

  predicate ActsAt(page: seq<CellAction>, i: int, g: int) {
    0 <= i < |page| && page[i].generation.Some? && page[i].generation.value == g
  }

  /** The highest generation any action names; among equals, the first on the page. */
  ghost predicate IsNewest(page: seq<CellAction>, i: int) {
    && 0 <= i < |page| && page[i].generation.Some?
    && (forall j, g :: ActsAt(page, j, g) ==> g <= page[i].generation.value)
    && (forall j, g :: ActsAt(page, j, g) && g == page[i].generation.value ==> i <= j)
  }

  method NewestAction(page: seq<CellAction>) returns (newest: int)
    ensures newest >= 0 ==> IsNewest(page, newest)
    ensures newest < 0 ==> forall i :: 0 <= i < |page| ==> page[i].generation.None?
  {
    newest := -1;
    for i := 0 to |page|
      invariant newest < i
      invariant newest < 0 ==> forall j :: 0 <= j < i ==> page[j].generation.None?
      invariant newest >= 0 ==> page[newest].generation.Some?
      invariant newest >= 0 ==> forall j, g :: ActsAt(page, j, g) && j < i ==> g <= page[newest].generation.value
      invariant newest >= 0 ==> forall j, g :: ActsAt(page, j, g) && j < i && g == page[newest].generation.value ==> newest <= j
    {
      if page[i].generation.None? { continue; }
      if newest < 0 || page[i].generation.value > page[newest].generation.value {
        newest := i;
      }
    }
  }

  /** The action the walk uses for a generation: among equals, the last on the page. */
  ghost predicate IsLastAt(page: seq<CellAction>, g: nat, a: CellAction) {
    exists i :: ActsAt(page, i, g) && page[i] == a && forall j :: ActsAt(page, j, g) ==> j <= i
  }

  ghost predicate IsByGeneration(page: seq<CellAction>, n: nat, byGen: map<nat, CellAction>)
    requires n <= |page|
  {
    && (forall g :: g in byGen ==> IsLastAt(page[..n], g, byGen[g]))
    && (forall i, g :: ActsAt(page, i, g) && i < n ==> g in byGen)
  }

  method ByGeneration(page: seq<CellAction>) returns (byGen: map<nat, CellAction>)
    ensures IsByGeneration(page, |page|, byGen)
  {
    byGen := map[];
    for i := 0 to |page|
      invariant IsByGeneration(page, i, byGen)
    {
      ghost var before := byGen;
      if page[i].generation.Some? {
        byGen := byGen[page[i].generation.value := page[i]];
      }
      forall g | g in byGen ensures IsLastAt(page[..i + 1], g, byGen[g]) {
        LastAtNext(page, i, g, before, byGen);
      }
    }
  }

  lemma LastAtNext(page: seq<CellAction>, n: nat, g: nat, before: map<nat, CellAction>, after: map<nat, CellAction>)
    requires n < |page| && IsByGeneration(page, n, before) && g in after
    requires after == if page[n].generation.Some? then before[page[n].generation.value := page[n]] else before
    ensures IsLastAt(page[..n + 1], g, after[g])
  {
    if page[n].generation == Some(g) {
      assert ActsAt(page[..n + 1], n, g);
    } else {
      var i :| ActsAt(page[..n], i, g) && page[..n][i] == before[g] && forall j :: ActsAt(page[..n], j, g) ==> j <= i;
      assert ActsAt(page[..n + 1], i, g);
      var seen := page[..n + 1];
      forall j | ActsAt(seen, j, g) ensures j <= i {
        assert j < n ==> ActsAt(page[..n], j, g);
      }
    }
  }

  /** The wallet's own record of an action's output says the same as the transaction does. */
  predicate AgreesWithWallet(c: Compiled, a: CellAction, tip: CellChain)
    requires c.Valid()
  {
    && a.satoshis == tip.satoshis
    && (a.script == [] || c.LockingScript(tip.cell, tip.row) == Some(a.script))
  }

  // ---- the walk ---------------------------------------------------------------------------

  /** One walk: the wallet's page and the bytes it can be checked against, from a tip up to the newest
      generation the page names, over at most bound links. */
  datatype Walk = Walk(c: Compiled, page: seq<CellAction>, raw: TxID -> RawAnswer, tip: CellChain, newest: nat, bound: nat)

  /** The generation g has an action that was created and never signed. */
  ghost predicate UnsignedAt(page: seq<CellAction>, g: nat) {
    exists a :: IsLastAt(page, g, a) && a.txid == ""
  }

  /** next is one signed, unrefused, verified and agreed step on from prev. */
  ghost predicate IsSignedStep(w: Walk, prev: CellChain, next: CellChain)
    requires w.c.Valid()
  {
    exists a :: IsLastAt(w.page, prev.generation + 1, a) && IsStepBy(w, a, prev, next)
  }

  ghost predicate IsStepBy(w: Walk, a: CellAction, prev: CellChain, next: CellChain)
    requires w.c.Valid()
  {
    && a.txid != "" && !a.failed
    && Successor(w.c, prev, a.txid, w.raw(a.txid)) == Some(next)
    && AgreesWithWallet(w.c, a, next)
  }

  lemma LastAtUnique(page: seq<CellAction>, g: nat, a: CellAction, b: CellAction)
    requires IsLastAt(page, g, a) && IsLastAt(page, g, b)
    ensures a == b
  {}

  lemma SignedNotUnsigned(page: seq<CellAction>, g: nat, a: CellAction)
    requires IsLastAt(page, g, a) && a.txid != ""
    ensures !UnsignedAt(page, g)
  {
    forall b | IsLastAt(page, g, b) ensures b.txid != "" { LastAtUnique(page, g, a, b); }
  }

  lemma SignedStepUnique(w: Walk, prev: CellChain, a: CellAction, next: CellChain)
    requires w.c.Valid() && IsLastAt(w.page, prev.generation + 1, a) && IsSignedStep(w, prev, next)
    ensures IsStepBy(w, a, prev, next) && next.generation == prev.generation + 1
  {
    var b :| IsLastAt(w.page, prev.generation + 1, b) && IsStepBy(w, b, prev, next);
    LastAtUnique(w.page, prev.generation + 1, a, b);
  }

  /** The step the walk takes from prev, if there is one to take. */
  ghost function NextStep(w: Walk, prev: CellChain): (r: Option<CellChain>)
    requires w.c.Valid()
    ensures forall next :: r == Some(next) <==> IsSignedStep(w, prev, next)
    ensures r.Some? ==> r.value.generation == prev.generation + 1 && !UnsignedAt(w.page, prev.generation + 1)
  {
    if next :| IsSignedStep(w, prev, next) then
      var a :| IsLastAt(w.page, prev.generation + 1, a) && IsStepBy(w, a, prev, next);
      assert forall other | IsSignedStep(w, prev, other) :: other == next by {
        forall other | IsSignedStep(w, prev, other) ensures other == next {
          SignedStepUnique(w, prev, a, other);
        }
      }
      SignedNotUnsigned(w.page, prev.generation + 1, a);
      Some(next)
    else None
  }

  function Prev(tip: CellChain, steps: seq<CellChain>, i: nat): CellChain
    requires i <= |steps|
  {
    if i == 0 then tip else steps[i - 1]
  }

  ghost predicate StepsTo(w: Walk, steps: seq<CellChain>, i: nat)
    requires w.c.Valid() && i < |steps|
  {
    NextStep(w, Prev(w.tip, steps, i)) == Some(steps[i])
  }

  /** steps is a run of signed steps, one after another, starting at the tip. */
  ghost predicate IsSignedRun(w: Walk, steps: seq<CellChain>)
    requires w.c.Valid()
  {
    forall i :: 0 <= i < |steps| ==> StepsTo(w, steps, i)
  }

  /** Where a walk may stop and keep what it has: at the wallet's newest, or below an unsigned action. */
  ghost predicate StopsAfter(w: Walk, steps: seq<CellChain>)
  {
    var g := Prev(w.tip, steps, |steps|).generation;
    || (g == w.newest && steps != [])
    || (g < w.newest && |steps| < w.bound && UnsignedAt(w.page, g + 1))
  }

  /** A run within the bound that ends where a walk may stop. */
  ghost predicate IsComplete(w: Walk, steps: seq<CellChain>)
    requires w.c.Valid()
  {
    |steps| <= w.bound && IsSignedRun(w, steps) && StopsAfter(w, steps)
  }

  function Taken(tip: CellChain, steps: seq<CellChain>): Decision {
    if steps == [] then Resume(tip) else Adopt(steps[|steps| - 1], steps)
  }

  /** The decision a walk comes to: what a complete run reaches, and a halt when there is none. */
  ghost predicate IsWalked(w: Walk, d: Decision)
    requires w.c.Valid()
  {
    if d == Halt then forall steps :: !IsComplete(w, steps)
    else exists steps :: IsComplete(w, steps) && d == Taken(w.tip, steps)
  }

  /** Two runs from the same tip agree as far as they both go, one generation a step. */
  lemma {:induction false} SignedRunsAgree(w: Walk, a: seq<CellChain>, b: seq<CellChain>, i: nat)
    requires w.c.Valid() && IsSignedRun(w, a) && IsSignedRun(w, b)
    requires i < |a| && i < |b|
    ensures a[i] == b[i] && a[i].generation == w.tip.generation + i + 1
    ensures !UnsignedAt(w.page, w.tip.generation + i + 1)
  {
    if i == 0 {
      assert Prev(w.tip, a, i) == w.tip == Prev(w.tip, b, i);
    } else {
      SignedRunsAgree(w, a, b, i - 1);
      assert Prev(w.tip, a, i) == a[i - 1] == Prev(w.tip, b, i);
    }
    assert StepsTo(w, a, i) && StepsTo(w, b, i);
    assert Some(a[i]) == Some(b[i]);
  }

  lemma RunReaches(w: Walk, steps: seq<CellChain>)
    requires w.c.Valid() && IsSignedRun(w, steps)
    ensures Prev(w.tip, steps, |steps|).generation == w.tip.generation + |steps|
  {
    if steps != [] { SignedRunsAgree(w, steps, steps, |steps| - 1); }
  }

  /** So there is at most one complete run: none stops short of where another goes on. */
  lemma CompleteRunUnique(w: Walk, a: seq<CellChain>, b: seq<CellChain>)
    requires w.c.Valid() && IsComplete(w, a) && IsComplete(w, b)
    ensures a == b
  {
    if |a| < |b| {
      StopsShort(w, a, b);
    } else if |b| < |a| {
      StopsShort(w, b, a);
    }
    forall i | 0 <= i < |a| && i < |b| ensures a[i] == b[i] { SignedRunsAgree(w, a, b, i); }
  }

  lemma StopsShort(w: Walk, a: seq<CellChain>, b: seq<CellChain>)
    requires w.c.Valid() && IsSignedRun(w, a) && IsSignedRun(w, b) && StopsAfter(w, a) && |a| < |b|
    ensures w.tip.generation + |b| > w.newest && !StopsAfter(w, b)
  {
    RunReaches(w, a);
    RunReaches(w, b);
    SignedRunsAgree(w, b, b, |a|);
  }

  lemma WalkedUnique(w: Walk, d: Decision, e: Decision)
    requires w.c.Valid() && IsWalked(w, d) && IsWalked(w, e)
    ensures d == e
  {
    if d != Halt && e != Halt {
      var a :| IsComplete(w, a) && d == Taken(w.tip, a);
      var b :| IsComplete(w, b) && e == Taken(w.tip, b);
      CompleteRunUnique(w, a, b);
    }
  }

  lemma RunGoesOn(w: Walk, run: seq<CellChain>, n: nat)
    requires w.c.Valid() && IsSignedRun(w, run) && n < |run|
    ensures NextStep(w, Prev(w.tip, run, n)).Some?
  {
    assert StepsTo(w, run, n);
  }

  lemma WalkStuck(w: Walk, steps: seq<CellChain>)
    requires w.c.Valid() && IsSignedRun(w, steps)
    requires var at := Prev(w.tip, steps, |steps|);
             && at.generation < w.newest
             && (|steps| < w.bound ==> NextStep(w, at) == None && !UnsignedAt(w.page, at.generation + 1))
    ensures IsWalked(w, Halt)
  {
    RunReaches(w, steps);
    forall run ensures !IsComplete(w, run) {
      if IsComplete(w, run) {
        if |run| < |steps| {
          StopsShort(w, run, steps);
        } else {
          forall i | 0 <= i < |steps| ensures run[i] == steps[i] { SignedRunsAgree(w, run, steps, i); }
          assert |run| == |steps| ==> run == steps;
          if |run| > |steps| { RunGoesOn(w, run, |steps|); }
        }
      }
    }
  }

  lemma NothingToWalk(w: Walk)
    requires w.c.Valid() && w.tip.generation >= w.newest
    ensures IsWalked(w, Halt)
  {
    forall run ensures !IsComplete(w, run) {
      if IsSignedRun(w, run) { RunReaches(w, run); }
    }
  }

  lemma OneMoreStep(w: Walk, steps: seq<CellChain>, next: CellChain)
    requires w.c.Valid() && IsSignedRun(w, steps) && NextStep(w, Prev(w.tip, steps, |steps|)) == Some(next)
    ensures IsSignedRun(w, steps + [next])
  {
    var longer := steps + [next];
    forall i | 0 <= i < |longer| ensures StepsTo(w, longer, i) {
      assert i < |steps| ==> StepsTo(w, steps, i);
      assert Prev(w.tip, longer, i) == Prev(w.tip, steps, i);
    }
  }

  lemma NoActionNoStep(w: Walk, prev: CellChain, g: nat)
    requires w.c.Valid() && g == prev.generation + 1 && forall i :: !ActsAt(w.page, i, g)
    ensures NextStep(w, prev) == None && !UnsignedAt(w.page, g)
  {
    assert forall a :: !IsLastAt(w.page, g, a);
  }

  /** Everything one link has to pass, from the bytes to the wallet's own record of its output. */
  method VerifyStep(w: Walk, a: CellAction, prev: CellChain) returns (r: Option<CellChain>)
    requires w.c.Valid() && IsLastAt(w.page, prev.generation + 1, a) && a.txid != ""
    ensures r == NextStep(w, prev) && !UnsignedAt(w.page, prev.generation + 1)
  {
    SignedNotUnsigned(w.page, prev.generation + 1, a);
    forall next | IsSignedStep(w, prev, next) ensures IsStepBy(w, a, prev, next) {
      SignedStepUnique(w, prev, a, next);
    }
    if a.failed { return None; }
    r := VerifySuccessor(w.c, prev, a.txid, w.raw(a.txid));
    if r.None? { return; }
    if !AgreesWithWallet(w.c, a, r.value) { return None; }
    assert IsStepBy(w, a, prev, r.value);
  }

  /** Adopts the signed successors of the tip, one generation at a time. */
  method WalkForward(w: Walk) returns (d: Decision)
    requires w.c.Valid()
    ensures IsWalked(w, d)
  {
    var byGen := ByGeneration(w.page);
    assert w.page[..|w.page|] == w.page;
    var steps: seq<CellChain> := [];
    var current := w.tip;
    var gen := w.tip.generation + 1;
    while gen <= w.newest
      invariant IsSignedRun(w, steps) && |steps| <= w.bound
      invariant current == Prev(w.tip, steps, |steps|)
      invariant gen == current.generation + 1 && (gen <= w.newest + 1 || steps == [])
    {
      if |steps| >= w.bound {
        WalkStuck(w, steps);
        return Halt;
      }
      if gen !in byGen {
        NoActionNoStep(w, current, gen);
        WalkStuck(w, steps);
        return Halt;
      }
      var a := byGen[gen];
      if a.txid == "" {
        assert IsComplete(w, steps);
        return Taken(w.tip, steps);
      }
      var next := VerifyStep(w, a, current);
      if next.None? {
        WalkStuck(w, steps);
        return Halt;
      }
      OneMoreStep(w, steps, next.value);
      current := next.value;
      steps := steps + [next.value];
      gen := gen + 1;
    }
    if steps == [] {
      NothingToWalk(w);
      return Halt;
    }
    assert IsComplete(w, steps);
    d := Taken(w.tip, steps);
  }

  // ---- an unresolved attempt ---------------------------------------------------------------

  function Bound(maxWalk: int): nat {
    if maxWalk <= 0 then DEFAULT_MAX_WALK else maxWalk
  }

  /** What the newest readable action says about an attempt: never created, never signed, or signed. */
  ghost predicate IsDecidedBy(c: Compiled, s: Sources, tip: CellChain, maxWalk: int, newest: CellAction, d: Decision)
    requires c.Valid() && s.actions.Actions? && newest.generation.Some?
  {
    var g := newest.generation.value;
    if g <= tip.generation || (g == tip.generation + 1 && newest.txid == "") then d == Resume(tip)
    else IsWalked(Walk(c, s.actions.page, s.raw, tip, g, Bound(maxWalk)), d)
  }

  ghost predicate Unreadable(page: seq<CellAction>) {
    forall i :: 0 <= i < |page| ==> page[i].generation.None?
  }

  ghost predicate IsAttemptDecision(c: Compiled, s: Sources, tip: CellChain, attempted: nat, maxWalk: int, d: Decision)
    requires c.Valid()
  {
    if attempted != tip.generation + 1 || s.actions.NoActions? then d == Halt
    else if s.actions.total == 0 then d == if tip.generation > 0 then Halt else Resume(tip)
    else if Unreadable(s.actions.page) then d == Halt
    else exists i :: IsNewest(s.actions.page, i) && IsDecidedBy(c, s, tip, maxWalk, s.actions.page[i], d)
  }

  lemma NewestUnique(page: seq<CellAction>, i: int, j: int)
    requires IsNewest(page, i) && IsNewest(page, j)
    ensures i == j
  {
    assert ActsAt(page, i, page[i].generation.value) && ActsAt(page, j, page[j].generation.value);
  }

  lemma DecidedByUnique(c: Compiled, s: Sources, tip: CellChain, maxWalk: int, newest: CellAction, d: Decision, e: Decision)
    requires c.Valid() && s.actions.Actions? && newest.generation.Some?
    requires IsDecidedBy(c, s, tip, maxWalk, newest, d) && IsDecidedBy(c, s, tip, maxWalk, newest, e)
    ensures d == e
  {
    var w := Walk(c, s.actions.page, s.raw, tip, newest.generation.value, Bound(maxWalk));
    if IsWalked(w, d) && IsWalked(w, e) { WalkedUnique(w, d, e); }
  }

  lemma AttemptDecisionUnique(c: Compiled, s: Sources, tip: CellChain, attempted: nat, maxWalk: int, d: Decision, e: Decision)
    requires c.Valid()
    requires IsAttemptDecision(c, s, tip, attempted, maxWalk, d) && IsAttemptDecision(c, s, tip, attempted, maxWalk, e)
    ensures d == e
  {
    if attempted == tip.generation + 1 && s.actions.Actions? && s.actions.total != 0 && !Unreadable(s.actions.page) {
      var i :| IsNewest(s.actions.page, i) && IsDecidedBy(c, s, tip, maxWalk, s.actions.page[i], d);
      var j :| IsNewest(s.actions.page, j) && IsDecidedBy(c, s, tip, maxWalk, s.actions.page[j], e);
      NewestUnique(s.actions.page, i, j);
      DecidedByUnique(c, s, tip, maxWalk, s.actions.page[i], d, e);
    }
  }

  // ---- what the wallet may say, in plain terms ----------------------------------------------

  /** Some action can be read, and none is of a generation beyond g. */
  ghost predicate ReachesOnly(page: seq<CellAction>, g: nat) {
    && (exists i :: 0 <= i < |page| && page[i].generation.Some?)
    && forall i :: 0 <= i < |page| && page[i].generation.Some? ==> page[i].generation.value <= g
  }

  /** The i-th action was created for g and never signed; no earlier one is for g and none for anything beyond. */
  ghost predicate NeverSignedFor(page: seq<CellAction>, g: nat, i: nat) {
    && i < |page| && page[i].generation == Some(g) && page[i].txid == ""
    && (forall j :: 0 <= j < i ==> page[j].generation != Some(g))
    && ReachesOnly(page, g)
  }

  /** Something reached g or went beyond it, and every action for g itself, if there is any, names a
      transaction that failed or whose bytes cannot be had. */
  ghost predicate SignedOutOfSight(s: Sources, page: seq<CellAction>, g: nat) {
    && (exists i :: 0 <= i < |page| && page[i].generation.Some? && page[i].generation.value >= g)
    && forall a :: a in page && a.generation == Some(g) ==>
         a.txid != "" && (a.failed || s.raw(a.txid) in {Unavailable, Bytes(None)})
  }

  lemma ReachedOnlyTip(c: Compiled, s: Sources, tip: CellChain, maxWalk: int, d: Decision)
    requires c.Valid() && s.actions.Actions? && s.actions.total > 0 && ReachesOnly(s.actions.page, tip.generation)
    requires IsAttemptDecision(c, s, tip, tip.generation + 1, maxWalk, d)
    ensures d == Resume(tip)
  {
    var page := s.actions.page;
    var i :| 0 <= i < |page| && page[i].generation.Some?;
    assert !Unreadable(page);
    var at :| IsNewest(page, at) && IsDecidedBy(c, s, tip, maxWalk, page[at], d);
  }

  lemma NeverSignedResumes(c: Compiled, s: Sources, tip: CellChain, maxWalk: int, d: Decision, i: nat)
    requires c.Valid() && s.actions.Actions? && s.actions.total > 0 && NeverSignedFor(s.actions.page, tip.generation + 1, i)
    requires IsAttemptDecision(c, s, tip, tip.generation + 1, maxWalk, d)
    ensures d == Resume(tip)
  {
    var page := s.actions.page;
    assert IsNewest(page, i) by {
      forall j, g | ActsAt(page, j, g) ensures g <= tip.generation + 1 && (g == tip.generation + 1 ==> i <= j) {}
    }
    DecidedByNewest(c, s, tip, tip.generation + 1, maxWalk, d, i);
  }

  lemma StuckAtOnce(w: Walk)
    requires w.c.Valid() && w.tip.generation < w.newest
    requires NextStep(w, w.tip) == None && !UnsignedAt(w.page, w.tip.generation + 1)
    ensures forall d :: IsWalked(w, d) ==> d == Halt
  {
    WalkStuck(w, []);
    forall d | IsWalked(w, d) ensures d == Halt { WalkedUnique(w, d, Halt); }
  }

  lemma NoStepInSight(w: Walk, s: Sources)
    requires w.c.Valid() && w.raw == s.raw && SignedOutOfSight(s, w.page, w.tip.generation + 1)
    ensures NextStep(w, w.tip) == None && !UnsignedAt(w.page, w.tip.generation + 1)
  {
    forall a | IsLastAt(w.page, w.tip.generation + 1, a) ensures a.txid != "" && forall next :: !IsStepBy(w, a, w.tip, next) {
      assert a in w.page && a.generation == Some(w.tip.generation + 1);
    }
  }

  lemma ReachedBeyond(page: seq<CellAction>, g: nat, at: int)
    requires IsNewest(page, at) && exists i :: 0 <= i < |page| && page[i].generation.Some? && page[i].generation.value >= g
    ensures page[at].generation.value >= g
  {
    var i :| 0 <= i < |page| && page[i].generation.Some? && page[i].generation.value >= g;
    assert ActsAt(page, i, page[i].generation.value);
  }

  lemma OutOfSightHalts(c: Compiled, s: Sources, tip: CellChain, maxWalk: int, d: Decision)
    requires c.Valid() && s.actions.Actions? && s.actions.total > 0 && SignedOutOfSight(s, s.actions.page, tip.generation + 1)
    requires IsAttemptDecision(c, s, tip, tip.generation + 1, maxWalk, d)
    ensures d == Halt
  {
    if d != Halt {
      var page := s.actions.page;
      var at :| IsNewest(page, at) && IsDecidedBy(c, s, tip, maxWalk, page[at], d);
      ReachedBeyond(page, tip.generation + 1, at);
      OutOfSightWalk(c, s, tip, maxWalk, at, d);
    }
  }

  lemma OutOfSightWalk(c: Compiled, s: Sources, tip: CellChain, maxWalk: int, at: nat, d: Decision)
    requires c.Valid() && s.actions.Actions? && SignedOutOfSight(s, s.actions.page, tip.generation + 1)
    requires at < |s.actions.page| && s.actions.page[at].generation.Some? && s.actions.page[at].generation.value > tip.generation
    requires IsDecidedBy(c, s, tip, maxWalk, s.actions.page[at], d)
    ensures d == Halt
  {
    var page := s.actions.page;
    var w := Walk(c, page, s.raw, tip, page[at].generation.value, Bound(maxWalk));
    assert page[at] in page;
    NoStepInSight(w, s);
    StuckAtOnce(w);
  }

  /** What the wallet's actions say without a walk. */
  ghost predicate SaysPlainly(s: Sources, tip: CellChain, attempted: nat, d: Decision)
    requires s.actions.Actions?
  {
    var page := s.actions.page;
    && ((forall a :: a in page ==> a.generation.None?) ==> d == Halt)
    && (ReachesOnly(page, tip.generation) ==> d == Resume(tip))
    && (forall i :: NeverSignedFor(page, attempted, i) ==> d == Resume(tip))
    && (SignedOutOfSight(s, page, attempted) ==> d == Halt)
  }

  lemma DecidedPlainly(c: Compiled, s: Sources, tip: CellChain, attempted: nat, maxWalk: int, d: Decision)
    requires c.Valid() && s.actions.Actions? && s.actions.total > 0 && attempted == tip.generation + 1
    requires IsAttemptDecision(c, s, tip, attempted, maxWalk, d)
    ensures SaysPlainly(s, tip, attempted, d)
  {
    var page := s.actions.page;
    if ReachesOnly(page, tip.generation) { ReachedOnlyTip(c, s, tip, maxWalk, d); }
    forall i | NeverSignedFor(page, attempted, i) ensures d == Resume(tip) { NeverSignedResumes(c, s, tip, maxWalk, d, i); }
    if SignedOutOfSight(s, page, attempted) { OutOfSightHalts(c, s, tip, maxWalk, d); }
  }

  /** Decides a cell with an unresolved write-ahead record: every path without positive evidence halts. */
  method RecoverCell(c: Compiled, s: Sources, tip: CellChain, attempted: nat, maxWalk: int) returns (d: Decision)
    requires c.Valid()
    ensures IsAttemptDecision(c, s, tip, attempted, maxWalk, d)
    // Without an answer, or about any generation but the next: halt.
    ensures s.actions.NoActions? || attempted != tip.generation + 1 ==> d == Halt
    // A wallet that never acted is believed of a cell at its genesis and of no other.
    ensures attempted == tip.generation + 1 && s.actions.Actions? && s.actions.total == 0 ==>
              d == if tip.generation == 0 then Resume(tip) else Halt
    ensures attempted == tip.generation + 1 && s.actions.Actions? && s.actions.total > 0 ==> SaysPlainly(s, tip, attempted, d)
  {
    d := DecideAttempt(c, s, tip, attempted, maxWalk);
    if attempted == tip.generation + 1 && s.actions.Actions? && s.actions.total > 0 { DecidedPlainly(c, s, tip, attempted, maxWalk, d); }
  }

  method DecideAttempt(c: Compiled, s: Sources, tip: CellChain, attempted: nat, maxWalk: int) returns (d: Decision)
    requires c.Valid()
    ensures IsAttemptDecision(c, s, tip, attempted, maxWalk, d)
  {
    if attempted != tip.generation + 1 { return Halt; }
    var bound := maxWalk;
    if bound <= 0 { bound := DEFAULT_MAX_WALK; }
    if s.actions.NoActions? { return Halt; }
    var page := s.actions.page;
    if s.actions.total == 0 {
      if tip.generation > 0 { return Halt; }
      return Resume(tip);
    }
    var at := NewestAction(page);
    if at < 0 { return Halt; }
    var newest := page[at];
    var g := newest.generation.value;
    if g < attempted {
      d := Resume(tip);
    } else if g == attempted && newest.txid == "" {
      d := Resume(tip);
    } else {
      d := WalkForward(Walk(c, page, s.raw, tip, g, bound));
    }
    assert IsDecidedBy(c, s, tip, maxWalk, newest, d);
  }

  // ---- what a decision means ----------------------------------------------------------------

  /** The i-th adopted step is a real transaction spending the step before it and continuing its cell. */
  ghost predicate Links(c: Compiled, s: Sources, tip: CellChain, steps: seq<CellChain>, i: nat)
    requires c.Valid() && i < |steps|
  {
    var tx := ParseTip(steps[i].txid, s.raw(steps[i].txid));
    && tx.Some? && tx.value.id == steps[i].txid
    && SpendsOutput(tx.value, Prev(tip, steps, i).Outpoint())
    && tx.value.outputs != [] && c.LockingScript(tip.cell, steps[i].row) == Some(tx.value.outputs[0].script)
    && steps[i] == CellChain(tip.cell, steps[i].txid, 0, tip.satoshis, tip.generation + i + 1,
                             Automaton.RowAt(c.rule, tip.row, i + 1))
  }

  lemma SignedStepLinks(w: Walk, prev: CellChain, next: CellChain)
    requires w.c.Valid() && NextStep(w, prev) == Some(next)
    ensures ParseTip(next.txid, w.raw(next.txid)).Some?
    ensures IsSuccessor(w.c, prev, ParseTip(next.txid, w.raw(next.txid)).value, next)
  {
    var a :| IsLastAt(w.page, prev.generation + 1, a) && IsStepBy(w, a, prev, next);
  }

  lemma {:induction false} RunLinks(w: Walk, s: Sources, steps: seq<CellChain>, i: nat)
    requires w.c.Valid() && IsSignedRun(w, steps) && i < |steps| && s.raw == w.raw
    ensures Links(w.c, s, w.tip, steps, i)
  {
    if i > 0 { RunLinks(w, s, steps, i - 1); }
    assert StepsTo(w, steps, i);
    SignedStepLinks(w, Prev(w.tip, steps, i), steps[i]);
  }

  lemma AdoptedRun(c: Compiled, s: Sources, tip: CellChain, attempted: nat, maxWalk: int, d: Decision)
    returns (w: Walk, at: int)
    requires c.Valid() && IsAttemptDecision(c, s, tip, attempted, maxWalk, d) && d.Adopt?
    ensures s.actions.Actions? && w == Walk(c, s.actions.page, s.raw, tip, w.newest, Bound(maxWalk))
    ensures IsNewest(s.actions.page, at) && s.actions.page[at].generation.value == w.newest
    ensures IsWalked(w, d)
  {
    var page := s.actions.page;
    at :| IsNewest(page, at) && IsDecidedBy(c, s, tip, maxWalk, page[at], d);
    w := Walk(c, page, s.raw, tip, page[at].generation.value, Bound(maxWalk));
  }

  ghost predicate IsChain(c: Compiled, s: Sources, tip: CellChain, steps: seq<CellChain>)
    requires c.Valid()
  {
    forall i :: 0 <= i < |steps| ==> Links(c, s, tip, steps, i)
  }

  lemma RunIsChain(w: Walk, s: Sources, steps: seq<CellChain>)
    requires w.c.Valid() && IsSignedRun(w, steps) && s.raw == w.raw
    ensures IsChain(w.c, s, w.tip, steps)
  {
    forall i | 0 <= i < |steps| ensures Links(w.c, s, w.tip, steps, i) { RunLinks(w, s, steps, i); }
  }

  lemma WalkedRun(w: Walk, d: Decision)
    requires w.c.Valid() && IsWalked(w, d) && d.Adopt?
    ensures IsComplete(w, d.steps) && d.steps != [] && d.tip == d.steps[|d.steps| - 1]
  {
    var steps :| IsComplete(w, steps) && d == Taken(w.tip, steps);
  }

  /** Adoption: a non-empty chain of at most the bound, starting at the recorded tip, each link a real
      transaction that spends the one before, one generation and one automaton step on, value unchanged. */
  lemma AdoptionIsAChain(c: Compiled, s: Sources, tip: CellChain, attempted: nat, maxWalk: int, d: Decision)
    requires c.Valid() && IsAttemptDecision(c, s, tip, attempted, maxWalk, d) && d.Adopt?
    ensures 1 <= |d.steps| <= (if maxWalk > 0 then maxWalk else 8) && d.tip == d.steps[|d.steps| - 1]
    ensures IsChain(c, s, tip, d.steps)
  {
    var w, at := AdoptedRun(c, s, tip, attempted, maxWalk, d);
    WalkedRun(w, d);
    RunIsChain(w, s, d.steps);
  }

  /** And each link is one the wallet itself lists as signed for that generation, not failed, with the value it
      has and no other script than it has. */
  lemma AdoptionIsListed(c: Compiled, s: Sources, tip: CellChain, attempted: nat, maxWalk: int, d: Decision, i: nat)
    requires c.Valid() && IsAttemptDecision(c, s, tip, attempted, maxWalk, d) && d.Adopt? && i < |d.steps|
    ensures s.actions.Actions? && exists a :: a in s.actions.page && IsWalletsOwn(c, tip, a, d.steps[i])
  {
    var w, at := AdoptedRun(c, s, tip, attempted, maxWalk, d);
    WalkedRun(w, d);
    var a := RunIsListed(w, s, d.steps, i);
  }

  lemma RunIsListed(w: Walk, s: Sources, steps: seq<CellChain>, i: nat) returns (a: CellAction)
    requires w.c.Valid() && IsSignedRun(w, steps) && i < |steps| && s.raw == w.raw
    ensures a in w.page && IsWalletsOwn(w.c, w.tip, a, steps[i])
  {
    SameCell(w, s, steps, i);
    assert StepsTo(w, steps, i);
    a := StepIsOwn(w, Prev(w.tip, steps, i), steps[i]);
  }

  lemma SameCell(w: Walk, s: Sources, steps: seq<CellChain>, i: nat)
    requires w.c.Valid() && IsSignedRun(w, steps) && i < |steps| && s.raw == w.raw
    ensures Prev(w.tip, steps, i).cell == w.tip.cell && Prev(w.tip, steps, i).satoshis == w.tip.satoshis
  {
    if i > 0 { RunLinks(w, s, steps, i - 1); }
  }

  lemma StepIsOwn(w: Walk, prev: CellChain, step: CellChain) returns (a: CellAction)
    requires w.c.Valid() && NextStep(w, prev) == Some(step) && prev.cell == w.tip.cell && prev.satoshis == w.tip.satoshis
    ensures a in w.page && IsWalletsOwn(w.c, w.tip, a, step)
  {
    a :| IsLastAt(w.page, prev.generation + 1, a) && IsStepBy(w, a, prev, step);
  }

  predicate IsWalletsOwn(c: Compiled, tip: CellChain, a: CellAction, step: CellChain)
    requires c.Valid()
  {
    && a.txid == step.txid != "" && !a.failed && a.generation == Some(step.generation) && a.satoshis == tip.satoshis
    && (a.script != [] ==> c.LockingScript(tip.cell, step.row) == Some(a.script))
  }

  /** Conversely, a decision reaches the wallet's newest generation exactly when every generation up to
      it is signed, verifies, and fits the bound, unless that is the attempted one and the first action
      listed there was never signed. */
  lemma AdoptsUpToNewest(c: Compiled, s: Sources, tip: CellChain, attempted: nat, maxWalk: int, d: Decision, at: int)
    requires c.Valid() && IsAttemptDecision(c, s, tip, attempted, maxWalk, d)
    requires attempted == tip.generation + 1 && s.actions.Actions? && s.actions.total > 0
    requires IsNewest(s.actions.page, at) && s.actions.page[at].generation.value >= attempted
    ensures var n := s.actions.page[at].generation.value;
            d.Adopt? && d.tip.generation == n <==>
            && !(n == attempted && s.actions.page[at].txid == "")
            && n - tip.generation <= (if maxWalk > 0 then maxWalk else 8)
            && exists run :: |run| == n - tip.generation
                             && IsSignedRun(Walk(c, s.actions.page, s.raw, tip, n, Bound(maxWalk)), run)
  {
    var page := s.actions.page;
    var n := page[at].generation.value;
    var w := Walk(c, page, s.raw, tip, n, Bound(maxWalk));
    DecidedByNewest(c, s, tip, attempted, maxWalk, d, at);
    if !(n == attempted && page[at].txid == "") {
      if run :| |run| == n - tip.generation && IsSignedRun(w, run) && |run| <= w.bound {
        RunReaches(w, run);
        assert IsComplete(w, run) && IsWalked(w, Taken(tip, run));
        WalkedUnique(w, d, Taken(tip, run));
      }
      if d.Adopt? && d.tip.generation == n {
        WalkedRun(w, d);
        RunReaches(w, d.steps);
      }
    }
  }

  /** Below it, a decision stops only at an action that was never signed; a generation the page leaves out,
      or a bound reached, ends in a halt. */
  lemma AdoptionEnds(c: Compiled, s: Sources, tip: CellChain, attempted: nat, maxWalk: int, d: Decision, at: int)
    requires c.Valid() && IsAttemptDecision(c, s, tip, attempted, maxWalk, d) && d.Adopt?
    requires s.actions.Actions? && IsNewest(s.actions.page, at)
    ensures d.tip.generation <= s.actions.page[at].generation.value
    ensures d.tip.generation < s.actions.page[at].generation.value ==>
              |d.steps| < (if maxWalk > 0 then maxWalk else 8) && ListsUnsigned(s.actions.page, d.tip.generation + 1)
  {
    var w, newest := AdoptedRun(c, s, tip, attempted, maxWalk, d);
    NewestUnique(s.actions.page, at, newest);
    WalkEnds(w, d);
  }

  lemma WalkEnds(w: Walk, d: Decision)
    requires w.c.Valid() && IsWalked(w, d) && d.Adopt?
    ensures d.tip.generation <= w.newest
    ensures d.tip.generation < w.newest ==> |d.steps| < w.bound && ListsUnsigned(w.page, d.tip.generation + 1)
  {
    WalkedRun(w, d);
    if d.tip.generation < w.newest { UnsignedIsListed(w.page, d.tip.generation + 1); }
  }

  ghost predicate ListsUnsigned(page: seq<CellAction>, g: nat) {
    exists a :: a in page && a.generation == Some(g) && a.txid == ""
  }

  lemma UnsignedIsListed(page: seq<CellAction>, g: nat)
    requires UnsignedAt(page, g)
    ensures ListsUnsigned(page, g)
  {
    var a :| IsLastAt(page, g, a) && a.txid == "";
    assert a in page && a.generation == Some(g);
  }

  /** And it does stop there: a walk over signed steps up to an action that was never signed adopts them. */
  lemma AdoptsBelowUnsigned(w: Walk, run: seq<CellChain>, d: Decision)
    requires w.c.Valid() && IsSignedRun(w, run) && 1 <= |run| < w.bound && IsWalked(w, d)
    requires w.newest > w.tip.generation + |run| && UnsignedAt(w.page, w.tip.generation + |run| + 1)
    ensures d == Adopt(run[|run| - 1], run)
  {
    RunReaches(w, run);
    assert IsComplete(w, run);
    WalkedUnique(w, d, Taken(w.tip, run));
  }

  lemma DecidedByNewest(c: Compiled, s: Sources, tip: CellChain, attempted: nat, maxWalk: int, d: Decision, at: int)
    requires c.Valid() && IsAttemptDecision(c, s, tip, attempted, maxWalk, d)
    requires attempted == tip.generation + 1 && s.actions.Actions? && s.actions.total > 0 && IsNewest(s.actions.page, at)
    ensures IsDecidedBy(c, s, tip, maxWalk, s.actions.page[at], d)
  {
    var j :| IsNewest(s.actions.page, j) && IsDecidedBy(c, s, tip, maxWalk, s.actions.page[j], d);
    NewestUnique(s.actions.page, at, j);
  }

  /** A walk whose newest generation is the next one ends there. */
  lemma OneStepWalk(w: Walk, a: CellAction, next: CellChain)
    requires w.c.Valid() && w.newest == w.tip.generation + 1 && w.bound >= 1
    requires IsLastAt(w.page, w.newest, a) && IsStepBy(w, a, w.tip, next)
    ensures IsWalked(w, Adopt(next, [next]))
  {
    assert IsSignedStep(w, w.tip, next);
    OneMoreStep(w, [], next);
    assert [] + [next] == [next] && IsComplete(w, [next]);
    assert Taken(w.tip, [next]) == Adopt(next, [next]);
  }

  /** at is the one action the page lists above the tip, and it signed the next generation. */
  ghost predicate OnlyAbove(page: seq<CellAction>, tip: CellChain, at: nat) {
    && ActsAt(page, at, tip.generation + 1) && page[at].txid != "" && !page[at].failed
    && forall i, g :: ActsAt(page, i, g) && g > tip.generation ==> i == at
  }

  /** The ordinary crash: one transition signed and not recorded is adopted, as far as it goes, whatever
      the page lists of the generations before it. */
  lemma OrdinaryCrashAdopts(c: Compiled, s: Sources, tip: CellChain, at: nat, next: CellChain)
    requires c.Valid() && s.actions.Actions? && s.actions.total > 0 && OnlyAbove(s.actions.page, tip, at)
    requires Successor(c, tip, s.actions.page[at].txid, s.raw(s.actions.page[at].txid)) == Some(next)
    // The wallet's own record of the output has its value, and its script if it has one.
    requires var a := s.actions.page[at];
             a.satoshis == next.satoshis && (a.script == [] || c.LockingScript(next.cell, next.row) == Some(a.script))
    ensures IsAttemptDecision(c, s, tip, tip.generation + 1, DEFAULT_MAX_WALK, Adopt(next, [next]))
  {
    var page, g := s.actions.page, tip.generation + 1;
    var w := Walk(c, page, s.raw, tip, g, DEFAULT_MAX_WALK);
    assert IsNewest(page, at);
    OneStepWalk(w, page[at], next);
    assert IsDecidedBy(c, s, tip, DEFAULT_MAX_WALK, page[at], Adopt(next, [next]));
  }

  // ---- resuming, and what a crowded generation does to it -------------------------------------

  predicate Signed(page: seq<CellAction>, i: nat)
    requires i < |page|
  {
    page[i].txid != ""
  }

  /** The actions at one generation are all signed or all unsigned. */
  ghost predicate AllAlike(page: seq<CellAction>, g: nat) {
    forall i, j :: ActsAt(page, i, g) && ActsAt(page, j, g) ==> (Signed(page, i) <==> Signed(page, j))
  }

  ghost predicate NothingSignedAt(page: seq<CellAction>, g: nat) {
    forall i :: ActsAt(page, i, g) ==> !Signed(page, i)
  }

  /** A resume says that nothing was signed at the attempted generation. That is so exactly when the
      wallet's actions there are all alike: one reader takes the first of them, the other the last. */
  lemma ResumeMeansUnsigned(c: Compiled, s: Sources, tip: CellChain, attempted: nat, maxWalk: int, d: Decision)
    requires c.Valid() && IsAttemptDecision(c, s, tip, attempted, maxWalk, d) && d.Resume?
    requires |s.actions.page| <= s.actions.total
    ensures d.tip == tip
    ensures NothingSignedAt(s.actions.page, attempted) <==> AllAlike(s.actions.page, attempted)
  {
    ResumedOn(c, s, tip, attempted, maxWalk, d);
  }

  ghost predicate SomeUnsignedAt(page: seq<CellAction>, g: nat) {
    exists i :: ActsAt(page, i, g) && !Signed(page, i)
  }

  ghost predicate NoneAt(page: seq<CellAction>, g: nat) {
    forall i :: !ActsAt(page, i, g)
  }

  lemma ResumedOn(c: Compiled, s: Sources, tip: CellChain, attempted: nat, maxWalk: int, d: Decision)
    requires c.Valid() && IsAttemptDecision(c, s, tip, attempted, maxWalk, d) && d.Resume?
    requires |s.actions.page| <= s.actions.total
    ensures d.tip == tip && (NoneAt(s.actions.page, attempted) || SomeUnsignedAt(s.actions.page, attempted))
  {
    var page := s.actions.page;
    if s.actions.total > 0 {
      var at :| IsNewest(page, at) && IsDecidedBy(c, s, tip, maxWalk, page[at], d);
      NewestResumes(c, s, tip, maxWalk, at, attempted, d);
    }
  }

  lemma NewestResumes(c: Compiled, s: Sources, tip: CellChain, maxWalk: int, at: int, attempted: nat, d: Decision)
    requires c.Valid() && s.actions.Actions? && IsNewest(s.actions.page, at) && attempted == tip.generation + 1
    requires IsDecidedBy(c, s, tip, maxWalk, s.actions.page[at], d) && d.Resume?
    ensures d.tip == tip && (NoneAt(s.actions.page, attempted) || SomeUnsignedAt(s.actions.page, attempted))
  {
    var page := s.actions.page;
    var n := page[at].generation.value;
    if n == attempted && page[at].txid == "" {
      assert ActsAt(page, at, attempted) && !Signed(page, at);
    } else if n > tip.generation {
      ResumedWalk(Walk(c, page, s.raw, tip, n, Bound(maxWalk)), d);
      UnsignedActs(page, attempted);
    }
  }

  lemma UnsignedActs(page: seq<CellAction>, g: nat)
    requires UnsignedAt(page, g)
    ensures SomeUnsignedAt(page, g)
  {
    var a :| IsLastAt(page, g, a) && a.txid == "";
    var i :| ActsAt(page, i, g) && page[i] == a;
    assert !Signed(page, i);
  }

  lemma ResumedWalk(w: Walk, d: Decision)
    requires w.c.Valid() && IsWalked(w, d) && d.Resume?
    ensures d.tip == w.tip && UnsignedAt(w.page, w.tip.generation + 1)
  {
    var steps :| IsComplete(w, steps) && d == Taken(w.tip, steps);
    StoppedAtOnce(w, steps);
  }

  lemma StoppedAtOnce(w: Walk, steps: seq<CellChain>)
    requires StopsAfter(w, steps) && steps == []
    ensures UnsignedAt(w.page, w.tip.generation + 1)
  {}

  /** And it does happen: beside an unsigned action, a signed transaction of the same generation is
      never looked at, and the tip it spends is offered again. */
  lemma CrowdedGenerationHidesASignature(c: Compiled, s: Sources, tip: CellChain, unsigned: CellAction, signed: CellAction)
    requires c.Valid() && tip.generation == 0
    requires s.actions == Actions([unsigned, signed], 2)
    requires unsigned.generation == Some(1) && unsigned.txid == ""
    requires signed.generation == Some(1) && signed.txid != ""
    ensures IsAttemptDecision(c, s, tip, 1, DEFAULT_MAX_WALK, Resume(tip))
    ensures !NothingSignedAt(s.actions.page, 1)
  {
    var page := s.actions.page;
    assert ActsAt(page, 0, 1) && ActsAt(page, 1, 1) && Signed(page, 1);
    assert IsNewest(page, 0);
    assert IsDecidedBy(c, s, tip, DEFAULT_MAX_WALK, page[0], Resume(tip));
  }

  // ---- adopting, and what a crowded generation does to it -------------------------------------

  /** Whatever was signed at g is t. */
  ghost predicate OnlySigned(page: seq<CellAction>, g: nat, t: TxID) {
    forall i :: ActsAt(page, i, g) && Signed(page, i) ==> page[i].txid == t
  }

  /** The signed actions at g all name one transaction. */
  ghost predicate SignaturesAgree(page: seq<CellAction>, g: nat) {
    forall i, j :: ActsAt(page, i, g) && ActsAt(page, j, g) && Signed(page, i) && Signed(page, j) ==> page[i].txid == page[j].txid
  }

  /** An adoption says that nothing was signed on top of the tip it moves to. That is so exactly when the
      wallet's actions one generation further on are all alike. */
  lemma AdoptionLeavesNothingSigned(c: Compiled, s: Sources, tip: CellChain, attempted: nat, maxWalk: int, d: Decision)
    requires c.Valid() && IsAttemptDecision(c, s, tip, attempted, maxWalk, d) && d.Adopt?
    ensures s.actions.Actions?
    ensures NothingSignedAt(s.actions.page, d.tip.generation + 1) <==> AllAlike(s.actions.page, d.tip.generation + 1)
  {
    var w, at := AdoptedRun(c, s, tip, attempted, maxWalk, d);
    WalkedLeavesNothing(w, at, d);
  }

  lemma WalkedLeavesNothing(w: Walk, at: int, d: Decision)
    requires w.c.Valid() && IsWalked(w, d) && d.Adopt? && IsNewest(w.page, at) && w.page[at].generation.value == w.newest
    ensures NothingSignedAt(w.page, d.tip.generation + 1) <==> AllAlike(w.page, d.tip.generation + 1)
  {
    WalkedRun(w, d);
    StoppedThere(w, d.steps, at);
  }

  lemma StoppedThere(w: Walk, steps: seq<CellChain>, at: int)
    requires steps != [] && StopsAfter(w, steps) && IsNewest(w.page, at) && w.page[at].generation.value == w.newest
    ensures var g := steps[|steps| - 1].generation + 1; NothingSignedAt(w.page, g) <==> AllAlike(w.page, g)
  {
    var g := steps[|steps| - 1].generation + 1;
    if UnsignedAt(w.page, g) {
      UnsignedActs(w.page, g);
    } else {
      assert NoneAt(w.page, g);
    }
  }

  /** It also says that each transaction it adopts is the one this wallet signed for that generation.
      That is so exactly when the signatures there agree: the walk takes the last action listed. */
  lemma AdoptedIsTheOnlySignature(c: Compiled, s: Sources, tip: CellChain, attempted: nat, maxWalk: int, d: Decision, i: nat)
    requires c.Valid() && IsAttemptDecision(c, s, tip, attempted, maxWalk, d) && d.Adopt? && i < |d.steps|
    ensures s.actions.Actions?
    ensures var (g, t) := (d.steps[i].generation, d.steps[i].txid);
            && OnlySigned(s.actions.page, g, t) <==> SignaturesAgree(s.actions.page, g)
  {
    var w, at := AdoptedRun(c, s, tip, attempted, maxWalk, d);
    WalkedRun(w, d);
    var j := SignedStepActs(w, d.steps, i);
    assert ActsAt(s.actions.page, j, d.steps[i].generation) && Signed(s.actions.page, j);
  }

  /** A step of a run is the transaction some action at its generation names. */
  lemma SignedStepActs(w: Walk, steps: seq<CellChain>, i: nat) returns (j: nat)
    requires w.c.Valid() && IsSignedRun(w, steps) && i < |steps|
    ensures ActsAt(w.page, j, steps[i].generation) && w.page[j].txid == steps[i].txid != ""
  {
    var prev := Prev(w.tip, steps, i);
    assert StepsTo(w, steps, i);
    var a :| IsLastAt(w.page, prev.generation + 1, a) && IsStepBy(w, a, prev, steps[i]);
    j :| ActsAt(w.page, j, prev.generation + 1) && w.page[j] == a;
  }

  /** And it does happen: of two transactions signed for one generation, only the last listed is looked
      at, and the cell is moved onto it whatever the first one is. */
  lemma CrowdedGenerationAdoptsTheLast(c: Compiled, s: Sources, tip: CellChain, first: CellAction, last: CellAction, next: CellChain)
    requires c.Valid() && s.actions == Actions([first, last], 2)
    requires first.generation == last.generation == Some(tip.generation + 1)
    requires first.txid != "" && last.txid != "" && first.txid != last.txid && !last.failed
    requires Successor(c, tip, last.txid, s.raw(last.txid)) == Some(next) && AgreesWithWallet(c, last, next)
    ensures IsAttemptDecision(c, s, tip, tip.generation + 1, DEFAULT_MAX_WALK, Adopt(next, [next]))
    ensures !OnlySigned(s.actions.page, tip.generation + 1, next.txid)
  {
    var page, g := s.actions.page, tip.generation + 1;
    var w := Walk(c, page, s.raw, tip, g, DEFAULT_MAX_WALK);
    assert ActsAt(page, 0, g) && ActsAt(page, 1, g) && IsNewest(page, 0) && Signed(page, 0);
    OneStepWalk(w, last, next);
    assert IsDecidedBy(c, s, tip, DEFAULT_MAX_WALK, page[0], Adopt(next, [next]));
  }

  // ---- losing evidence never grants permission --------------------------------------------------

  lemma LessBytesLessSteps(less: Walk, more: Walk, prev: CellChain)
    requires less.c.Valid() && more == less.(raw := more.raw)
    requires forall t :: less.raw(t) == Unavailable || less.raw(t) == more.raw(t)
    ensures NextStep(less, prev).Some? ==> NextStep(more, prev) == NextStep(less, prev)
  {
    if NextStep(less, prev).Some? {
      var next := NextStep(less, prev).value;
      var a :| IsLastAt(less.page, prev.generation + 1, a) && IsStepBy(less, a, prev, next);
      assert IsStepBy(more, a, prev, next);
    }
  }

  lemma LessBytesLessRun(less: Walk, more: Walk, steps: seq<CellChain>)
    requires less.c.Valid() && more == less.(raw := more.raw)
    requires forall t :: less.raw(t) == Unavailable || less.raw(t) == more.raw(t)
    requires IsSignedRun(less, steps)
    ensures IsSignedRun(more, steps)
  {
    forall i | 0 <= i < |steps| ensures StepsTo(more, steps, i) {
      assert StepsTo(less, steps, i);
      LessBytesLessSteps(less, more, Prev(less.tip, steps, i));
    }
  }

  lemma SameStop(less: Walk, more: Walk, steps: seq<CellChain>)
    requires more == less.(raw := more.raw)
    ensures StopsAfter(less, steps) <==> StopsAfter(more, steps)
  {}

  lemma LessBytesLessWalk(less: Walk, more: Walk, d: Decision)
    requires less.c.Valid() && more == less.(raw := more.raw)
    requires forall t :: less.raw(t) == Unavailable || less.raw(t) == more.raw(t)
    requires IsWalked(less, d) && d != Halt
    ensures IsWalked(more, d)
  {
    var steps :| IsComplete(less, steps) && d == Taken(less.tip, steps);
    LessBytesLessRun(less, more, steps);
    SameStop(less, more, steps);
  }

  /** Replacing any answer by an error either halts the cell or changes nothing at all. */
  lemma LostEvidenceNeverGrants(c: Compiled, less: Sources, more: Sources, tip: CellChain, attempted: nat, maxWalk: int,
                                dLess: Decision, dMore: Decision)
    requires c.Valid() && Degrades(less, more)
    requires IsAttemptDecision(c, less, tip, attempted, maxWalk, dLess)
    requires IsAttemptDecision(c, more, tip, attempted, maxWalk, dMore)
    ensures dLess == Halt || dLess == dMore
  {
    if dLess != Halt {
      if less.actions.total != 0 {
        var page := less.actions.page;
        var at :| IsNewest(page, at) && IsDecidedBy(c, less, tip, maxWalk, page[at], dLess);
        var n := page[at].generation.value;
        var w := Walk(c, page, less.raw, tip, n, Bound(maxWalk));
        if IsWalked(w, dLess) { LessBytesLessWalk(w, w.(raw := more.raw), dLess); }
        assert IsDecidedBy(c, more, tip, maxWalk, page[at], dLess);
      }
      AttemptDecisionUnique(c, more, tip, attempted, maxWalk, dLess, dMore);
    }
  }
}
