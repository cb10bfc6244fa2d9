/** Recovery's decisions, seen from the protocol: each is carried out by steps the machine allows. */
module RecoveryProtocol {
  import opened Wrappers
  import opened History
  import opened Derivation
  import opened Repair
  import opened CrashSafety
  import Recovery
  import RejectionRecovery
  import Rejections
  import CellScript
  import Tips

  // ---- what a truthful wallet gives -----------------------------------------------------------------

  /** The wallet lists every signature it made for a generation that still stands. */
  ghost predicate TruthfulAt(s: State, page: seq<Recovery.CellAction>, g: nat) {
    forall x :: Live(s, x) && x.Generation() == g ==> exists i :: Recovery.ActsAt(page, i, g) && page[i].txid == x.id
  }

  /** With a truthful wallet whose actions at the attempted generation are all alike, the decision to
      resume is exactly the guard the machine puts on resuming: nothing standing was signed there. */
  lemma TruthfulResume(s: State, genesis: TxID, c: CellScript.Compiled, from: Recovery.Sources, tip: Tips.CellChain,
                       attempted: nat, maxWalk: int, d: Recovery.Decision)
    requires Lineage(s.signed, genesis) && c.Valid()
    requires Recovery.IsAttemptDecision(c, from, tip, attempted, maxWalk, d) && d.Resume?
    requires |from.actions.page| <= from.actions.total && Recovery.AllAlike(from.actions.page, attempted)
    requires TruthfulAt(s, from.actions.page, attempted)
    ensures NoneLiveAt(s, attempted)
  {
    Recovery.ResumeMeansUnsigned(c, from, tip, attempted, maxWalk, d);
    NothingListedNothingLive(s, genesis, from.actions.page, attempted);
  }

  lemma SignatureIsListed(s: State, genesis: TxID, page: seq<Recovery.CellAction>, x: Spend) returns (i: nat)
    requires Lineage(s.signed, genesis) && Live(s, x) && TruthfulAt(s, page, x.Generation())
    ensures Recovery.ActsAt(page, i, x.Generation()) && Recovery.Signed(page, i) && page[i].txid == x.id
  {
    i :| Recovery.ActsAt(page, i, x.Generation()) && page[i].txid == x.id;
  }

  lemma NothingListedNothingLive(s: State, genesis: TxID, page: seq<Recovery.CellAction>, g: nat)
    requires Lineage(s.signed, genesis) && TruthfulAt(s, page, g) && Recovery.NothingSignedAt(page, g)
    ensures NoneLiveAt(s, g)
  {
    forall x | Live(s, x) ensures x.Generation() != g {
      if x.Generation() == g { var i := SignatureIsListed(s, genesis, page, x); }
    }
  }

  /** And the decision to adopt meets the guards on adopting: nothing standing rivals a transaction it
      adopts, and nothing standing spends the tip it moves to. */
  lemma TruthfulAdoption(s: State, genesis: TxID, c: CellScript.Compiled, from: Recovery.Sources, tip: Tips.CellChain,
                         attempted: nat, maxWalk: int, d: Recovery.Decision, i: nat, x: Spend)
    requires Lineage(s.signed, genesis) && c.Valid()
    requires Recovery.IsAttemptDecision(c, from, tip, attempted, maxWalk, d) && d.Adopt? && i < |d.steps|
    requires from.actions.Actions? && Recovery.SignaturesAgree(from.actions.page, d.steps[i].generation)
    requires TruthfulAt(s, from.actions.page, d.steps[i].generation)
    requires x in s.signed && x.id == d.steps[i].txid && x.Generation() == d.steps[i].generation
    ensures Unrivalled(s, x)
  {
    var page, g := from.actions.page, x.Generation();
    Recovery.AdoptedIsTheOnlySignature(c, from, tip, attempted, maxWalk, d, i);
    forall y | Live(s, y) && y.Generation() == g ensures y == x {
      var j := SignatureIsListed(s, genesis, page, y);
    }
  }

  lemma TruthfulAdoptionEnds(s: State, genesis: TxID, c: CellScript.Compiled, from: Recovery.Sources, tip: Tips.CellChain,
                             attempted: nat, maxWalk: int, d: Recovery.Decision)
    requires Lineage(s.signed, genesis) && c.Valid()
    requires Recovery.IsAttemptDecision(c, from, tip, attempted, maxWalk, d) && d.Adopt?
    requires from.actions.Actions? && Recovery.AllAlike(from.actions.page, d.tip.generation + 1)
    requires TruthfulAt(s, from.actions.page, d.tip.generation + 1)
    ensures NoneLiveAt(s, d.tip.generation + 1)
  {
    Recovery.AdoptionLeavesNothingSigned(c, from, tip, attempted, maxWalk, d);
    NothingListedNothingLive(s, genesis, from.actions.page, d.tip.generation + 1);
  }

  /** A rival is exactly what the guard is about: with one, the row an adoption writes denies it. */
  lemma RivalBreaksTheRecord(s: State, t: State, genesis: TxID, x: Spend)
    requires Inv(s, genesis) && x in s.signed && ClaimsChain(s, genesis, Classify(s.rows, genesis), x.ancestors)
    requires s.phase == Idle && t.signed == s.signed && t.refused == s.refused && t.rows == Adopted(s, x)
    ensures Durable(t) <==> Unrivalled(s, x)
  {
    SameStanding(s, t);
    if Unrivalled(s, x) { AdoptedDurable(s, t, genesis, x); }
  }

  /** A decision about one cell held down by its rows, and what it was made from. chain is the one whose
      end the rows claim. */
  datatype Pass = Pass(
    s: State, genesis: TxID, c: CellScript.Compiled, from: Recovery.Sources,
    tip: Tips.CellChain, chain: Chain, d: Recovery.Decision)
  {
    ghost function Finding(): Finding {
      Classify(s.rows, genesis)
    }
  }

  ghost predicate ListsASignature(s: State, a: Recovery.CellAction, g: nat) {
    exists x :: x in s.signed && x.id == a.txid && x.Generation() == g
  }

  /** x spends the output that continued the cell at the end of chain. */
  ghost predicate SpendsCellOutput(from: Recovery.Sources, cell: nat, x: Spend, chain: Chain) {
    var tx := Tips.ParseTip(x.id, from.raw(x.id));
    tx.Some? && Tips.Spends(chain[|chain| - 1], Tips.ExpectedVout(cell, |chain| - 1)) in tx.value.inputs
  }

  /** Of the outputs that ever continued the cell, a transaction of it spends only the one it was built on.
      Whatever else it spends, old change of the same cell included, is fuel. */
  ghost predicate SpendsItsOwn(s: State, genesis: TxID, from: Recovery.Sources, cell: nat, x: Spend) {
    forall chain :: KnownChain(s.signed, genesis, chain) && SpendsCellOutput(from, cell, x, chain) ==> chain == x.ancestors
  }

  /** The wallet tells the truth about the generations above one: its page lists every signature there that
      still stands and none that was not made. Of older generations the page may list what it likes. */
  ghost predicate TrueWallet(s: State, genesis: TxID, from: Recovery.Sources, cell: nat, above: nat) {
    && from.actions.Actions? && |from.actions.page| <= from.actions.total
    && (forall g: nat :: g > above ==> TruthfulAt(s, from.actions.page, g))
    && (forall i, g: nat :: Recovery.ActsAt(from.actions.page, i, g) && g > above && Recovery.Signed(from.actions.page, i) ==>
          ListsASignature(s, from.actions.page[i], g))
    && (forall x :: x in s.signed && x.Generation() > above ==> SpendsItsOwn(s, genesis, from, cell, x))
  }

  /** Its actions at each of those generations are all signed or all not, and the signed ones are one
      transaction. */
  ghost predicate Uncrowded(page: seq<Recovery.CellAction>, above: nat) {
    forall g: nat :: g > above ==> Recovery.AllAlike(page, g) && Recovery.SignaturesAgree(page, g)
  }

  /** The cell rests where its rows put it, and tip is the output derivation gives it there. */
  ghost predicate Rests(p: Pass) {
    && Inv(p.s, p.genesis) && p.s.phase == Idle && p.c.Valid()
    && ClaimsChain(p.s, p.genesis, p.Finding(), p.chain)
    && p.tip.generation == p.Finding().claim.value.generation && p.tip.txid == p.Finding().claim.value.txid
    && p.tip.vout == Tips.ExpectedVout(p.tip.cell, p.tip.generation)
  }

  /** An unresolved attempt is decided about, from the newest actions a truthful wallet lists. */
  ghost predicate IsPass(p: Pass) {
    && Rests(p) && p.Finding().unknown
    && Recovery.IsAttemptDecision(p.c, p.from, p.tip, p.Finding().attempted, TIP_DEPTH, p.d)
    && TrueWallet(p.s, p.genesis, p.from, p.tip.cell, p.tip.generation) && Uncrowded(p.from.actions.page, p.tip.generation)
  }

  /** Consecutive states are one recovery step apart. */
  ghost predicate Recovers(path: seq<State>, genesis: TxID) {
    path != [] && forall i :: 0 < i < |path| ==> RecoversAt(path, i, genesis)
  }

  ghost predicate RecoversAt(path: seq<State>, i: nat, genesis: TxID)
    requires 0 < i < |path|
  {
    RepairStep(path[i - 1], path[i], genesis)
  }

  /** The state with the first k of the adopted generations written. */
  function Written(p: Pass, k: nat): State
    requires p.d.Adopt? && k <= |p.d.steps|
  {
    if k == 0 then p.s else p.s.(rows := WithSteps(p.s.rows, p.d.steps[..k]), halted := true)
  }

  lemma OneMoreWritten(p: Pass, k: nat)
    requires p.d.Adopt? && k < |p.d.steps|
    ensures var step := p.d.steps[k];
            Written(p, k + 1).rows == Written(p, k).rows[step.generation := Record(step.txid, Broadcast, "")]
  {
    var more := p.d.steps[..k + 1];
    assert more[..|more| - 1] == p.d.steps[..k] && more[|more| - 1] == p.d.steps[k];
    assert p.d.steps[..0] == [];
  }

  /** The transaction of an adopted step is one this wallet signed, on the step before. */
  lemma StepIsSigned(p: Pass, k: nat, chain: Chain) returns (x: Spend)
    requires IsPass(p) && p.d.Adopt? && k < |p.d.steps| && KnownChain(p.s.signed, p.genesis, chain)
    requires chain[|chain| - 1] == Recovery.Prev(p.tip, p.d.steps, k).txid && |chain| == p.tip.generation + k + 1
    ensures x in p.s.signed && x.id == p.d.steps[k].txid && x.ancestors == chain
    ensures x.Generation() == p.d.steps[k].generation == p.tip.generation + k + 1 && Unrivalled(p.s, x)
  {
    var i := AdoptedStepActs(p, k);
    x := ListedIsSigned(p, i, p.d.steps[k]);
    StepSpendsEnd(p, k, x, chain);
    assert SpendsItsOwn(p.s, p.genesis, p.from, p.tip.cell, x);
    TruthfulAdoption(p.s, p.genesis, p.c, p.from, p.tip, p.Finding().attempted, TIP_DEPTH, p.d, k, x);
  }

  lemma ListedIsSigned(p: Pass, i: nat, step: Tips.CellChain) returns (x: Spend)
    requires TrueWallet(p.s, p.genesis, p.from, p.tip.cell, p.tip.generation) && step.generation > p.tip.generation
    requires Recovery.ActsAt(p.from.actions.page, i, step.generation) && p.from.actions.page[i].txid == step.txid != ""
    ensures x in p.s.signed && x.id == step.txid && x.Generation() == step.generation
  {
    assert Recovery.Signed(p.from.actions.page, i) && ListsASignature(p.s, p.from.actions.page[i], step.generation);
    x :| x in p.s.signed && x.id == step.txid && x.Generation() == step.generation;
  }

  /** What an adopted step spends is the output that continued the cell at the step before. */
  lemma StepSpendsEnd(p: Pass, k: nat, x: Spend, chain: Chain)
    requires p.c.Valid() && Recovery.IsAttemptDecision(p.c, p.from, p.tip, p.Finding().attempted, TIP_DEPTH, p.d)
    requires p.d.Adopt? && k < |p.d.steps| && x.id == p.d.steps[k].txid
    requires p.tip.vout == Tips.ExpectedVout(p.tip.cell, p.tip.generation)
    requires chain[|chain| - 1] == Recovery.Prev(p.tip, p.d.steps, k).txid && |chain| == p.tip.generation + k + 1
    ensures SpendsCellOutput(p.from, p.tip.cell, x, chain)
  {
    Recovery.AdoptionIsAChain(p.c, p.from, p.tip, p.Finding().attempted, TIP_DEPTH, p.d);
    assert Recovery.Links(p.c, p.from, p.tip, p.d.steps, k);
    assert k > 0 ==> Recovery.Links(p.c, p.from, p.tip, p.d.steps, k - 1);
  }

  lemma AdoptedStepActs(p: Pass, k: nat) returns (i: nat)
    requires p.c.Valid() && Recovery.IsAttemptDecision(p.c, p.from, p.tip, p.Finding().attempted, TIP_DEPTH, p.d)
    requires p.d.Adopt? && k < |p.d.steps| && p.from.actions.Actions?
    ensures Recovery.ActsAt(p.from.actions.page, i, p.d.steps[k].generation)
    ensures p.from.actions.page[i].txid == p.d.steps[k].txid != "" && p.d.steps[k].generation == p.tip.generation + k + 1
  {
    Recovery.AdoptionIsAChain(p.c, p.from, p.tip, p.Finding().attempted, TIP_DEPTH, p.d);
    assert Recovery.Links(p.c, p.from, p.tip, p.d.steps, k);
    var w, at := Recovery.AdoptedRun(p.c, p.from, p.tip, p.Finding().attempted, TIP_DEPTH, p.d);
    Recovery.WalkedRun(w, p.d);
    i := Recovery.SignedStepActs(w, p.d.steps, k);
  }

  lemma NewBase(s: State, x: Spend, base: nat)
    requires IsBase(s.rows, base) && x.Generation() == base + 1 && x.id != ""
    ensures IsBase(Adopted(s, x), base + 1) && Adopted(s, x)[base + 1].txid == x.id
  {
    assert Settled(Adopted(s, x)[base + 1]);
  }

  /** The rows with k steps written claim the end of chain. */
  ghost predicate Reached(p: Pass, k: nat, chain: Chain)
    requires p.d.Adopt? && k <= |p.d.steps|
  {
    var rows, base := Written(p, k).rows, p.tip.generation + k;
    && KnownChain(p.s.signed, p.genesis, chain) && |chain| == base + 1
    && IsBase(rows, base) && rows[base].txid == chain[base] == Recovery.Prev(p.tip, p.d.steps, k).txid
  }

  lemma ReachedClaims(p: Pass, k: nat, chain: Chain)
    requires p.d.Adopt? && k <= |p.d.steps| && Reached(p, k, chain)
    ensures ClaimsChain(Written(p, k), p.genesis, Classify(Written(p, k).rows, p.genesis), chain)
  {
    BaseClaims(Written(p, k).rows, p.genesis, p.tip.generation + k);
  }

  lemma UnrivalledStays(s: State, t: State, x: Spend)
    requires Unrivalled(s, x) && t.signed == s.signed && t.refused == s.refused
    ensures Unrivalled(t, x)
  {
    SameStanding(s, t);
  }

  /** x is the k-th adopted step: one the machine allows, taken where the steps before it have left the rows. */
  ghost predicate IsNext(p: Pass, k: nat, x: Spend)
    requires p.d.Adopt? && k < |p.d.steps|
  {
    && Adoptable(Written(p, k), p.genesis, x)
    && Written(p, k + 1).rows == Adopted(Written(p, k), x) && Reached(p, k + 1, x.Chain())
  }

  lemma StepIsAdoptable(p: Pass, k: nat, chain: Chain) returns (x: Spend)
    requires IsPass(p) && p.d.Adopt? && k < |p.d.steps| && Reached(p, k, chain)
    ensures IsNext(p, k, x)
  {
    x := StepIsSigned(p, k, chain);
    UnrivalledStays(p.s, Written(p, k), x);
    ReachedClaims(p, k, chain);
    OneMoreWritten(p, k);
    StepReaches(p, k, chain, x);
  }

  ghost predicate GoesOn(p: Pass, k: nat)
    requires p.d.Adopt? && k < |p.d.steps|
  {
    exists x :: IsNext(p, k, x)
  }

  lemma StepReaches(p: Pass, k: nat, chain: Chain, x: Spend)
    requires p.d.Adopt? && k < |p.d.steps| && Reached(p, k, chain)
    requires x in p.s.signed && x.id != "" && x.id == p.d.steps[k].txid && x.ancestors == chain
    requires Written(p, k + 1).rows == Adopted(Written(p, k), x)
    ensures Reached(p, k + 1, x.Chain())
  {
    assert x.Chain()[|x.ancestors|] == x.id;
    NewBase(Written(p, k), x, p.tip.generation + k);
  }

  lemma ReachedAtFirst(p: Pass)
    requires p.d.Adopt? && p.Finding().unknown && ClaimsChain(p.s, p.genesis, p.Finding(), p.chain)
    requires p.tip.generation == p.Finding().claim.value.generation && p.tip.txid == p.Finding().claim.value.txid
    ensures Reached(p, 0, p.chain)
  {
    var base := ConsideredBase(p.s.rows, p.genesis, p.Finding());
  }

  /** Where the first k steps lead. */
  lemma ReachedBy(p: Pass, k: nat) returns (chain: Chain)
    requires p.d.Adopt? && k <= |p.d.steps| && p.Finding().unknown && ClaimsChain(p.s, p.genesis, p.Finding(), p.chain)
    requires p.tip.generation == p.Finding().claim.value.generation && p.tip.txid == p.Finding().claim.value.txid
    requires k > 0 ==> GoesOn(p, k - 1)
    ensures Reached(p, k, chain)
  {
    if k == 0 {
      ReachedAtFirst(p);
      chain := p.chain;
    } else {
      var x :| IsNext(p, k - 1, x);
      chain := x.Chain();
    }
  }

  lemma GoesOnFrom(p: Pass, k: nat, chain: Chain)
    requires IsPass(p) && p.d.Adopt? && k < |p.d.steps| && Reached(p, k, chain)
    ensures GoesOn(p, k)
  {
    var x := StepIsAdoptable(p, k, chain);
  }

  /** So every one of them follows on the ones before. */
  lemma {:induction false} AllGoOn(p: Pass, k: nat)
    requires IsPass(p) && p.d.Adopt? && k < |p.d.steps|
    ensures GoesOn(p, k)
    decreases k
  {
    if k > 0 { AllGoOn(p, k - 1); }
    var chain := ReachedBy(p, k);
    GoesOnFrom(p, k, chain);
  }

  /** The steps of path take the pass from where it began to the rows and the tip its decision says. */
  ghost predicate CarriesOut(path: seq<State>, p: Pass) {
    && p.d != Recovery.Halt && Recovers(path, p.genesis) && path[0] == p.s
    && var t := path[|path| - 1];
       && t.rows == Applied(p.s.rows, p.Finding(), p.d) && MayAdvance(t)
       && |t.tip| == p.d.tip.generation + 1 && t.tip[|t.tip| - 1] == p.d.tip.txid
  }

  /** What recovery decides about an unresolved attempt, with a wallet that tells the truth and crowds no
      generation, is carried out by steps the machine allows, and leaves the rows and the tip the decision
      says. So the guards on those steps are facts about recovery, and ask nothing more of the world. */
  lemma RecoveryFollowsProtocol(p: Pass) returns (path: seq<State>)
    requires IsPass(p) && p.d != Recovery.Halt
    ensures CarriesOut(path, p)
  {
    if p.d.Resume? {
      path := ResumeFollows(p);
    } else {
      path := AdoptionFollows(p);
    }
  }

  lemma ResumeFollows(p: Pass) returns (path: seq<State>)
    requires IsPass(p) && p.d.Resume?
    ensures CarriesOut(path, p)
    ensures path[|path| - 1] == p.s.(rows := WithoutAttempt(p.s.rows, p.Finding().attempted), tip := p.chain,
                                     halted := false, needsRepair := false, adrift := false)
  {
    var f := p.Finding();
    TruthfulResume(p.s, p.genesis, p.c, p.from, p.tip, f.attempted, TIP_DEPTH, p.d);
    Recovery.ResumeMeansUnsigned(p.c, p.from, p.tip, f.attempted, TIP_DEPTH, p.d);
    var t := p.s.(rows := WithoutAttempt(p.s.rows, f.attempted), tip := p.chain, halted := false, needsRepair := false, adrift := false);
    assert ResumeAttempt(p.s, t, p.genesis);
    path := [p.s, t];
    assert RecoversAt(path, 1, p.genesis);
  }

  ghost predicate RowFollowsAt(p: Pass, k: nat)
    requires p.d.Adopt? && k < |p.d.steps|
  {
    AdoptRow(Written(p, k), Written(p, k + 1), p.genesis)
  }

  lemma RowFollows(p: Pass, k: nat)
    requires p.d.Adopt? && k < |p.d.steps| && GoesOn(p, k)
    ensures RowFollowsAt(p, k)
  {
    var x :| IsNext(p, k, x);
  }

  lemma ReleaseFollows(p: Pass) returns (t: State)
    requires p.d.Adopt? && p.d.steps != [] && GoesOn(p, |p.d.steps| - 1)
    ensures AdoptAndRelease(Written(p, |p.d.steps| - 1), t, p.genesis) && EndsRight(p, t)
  {
    var x :| IsNext(p, |p.d.steps| - 1, x);
    t := ReleasedAt(Written(p, |p.d.steps| - 1), x);
    Releases(p, x);
  }

  ghost predicate EndsRight(p: Pass, t: State)
    requires p.d.Adopt? && p.d.steps != []
  {
    && t.rows == WithSteps(p.s.rows, p.d.steps) && MayAdvance(t)
    && |t.tip| == p.tip.generation + |p.d.steps| + 1 && t.tip[|t.tip| - 1] == p.d.steps[|p.d.steps| - 1].txid
  }

  lemma Releases(p: Pass, x: Spend)
    requires p.d.Adopt? && p.d.steps != [] && p.s.phase == Idle
    requires var n := |p.d.steps|; Written(p, n).rows == Adopted(Written(p, n - 1), x) && Reached(p, n, x.Chain())
    ensures EndsRight(p, ReleasedAt(Written(p, |p.d.steps| - 1), x))
  {
    assert p.d.steps[..|p.d.steps|] == p.d.steps;
  }

  lemma WrittenPath(p: Pass, t: State) returns (path: seq<State>)
    requires p.d.Adopt? && p.d.steps != [] && AdoptAndRelease(Written(p, |p.d.steps| - 1), t, p.genesis)
    requires forall k :: 0 <= k < |p.d.steps| ==> RowFollowsAt(p, k)
    ensures Recovers(path, p.genesis) && path[0] == p.s && path[|path| - 1] == t
  {
    var n := |p.d.steps|;
    path := seq(n, i requires 0 <= i < n => Written(p, i)) + [t];
    forall i | 0 < i < |path| ensures RecoversAt(path, i, p.genesis) {
      assert i < n ==> RowFollowsAt(p, i - 1);
    }
  }

  lemma AdoptionFollows(p: Pass) returns (path: seq<State>)
    requires IsPass(p) && p.d.Adopt?
    ensures CarriesOut(path, p)
  {
    AdoptionEnds(p);
    forall k | 0 <= k < |p.d.steps| ensures GoesOn(p, k) && RowFollowsAt(p, k) {
      AllGoOn(p, k);
      RowFollows(p, k);
    }
    var t := ReleaseFollows(p);
    path := WrittenPath(p, t);
  }

  lemma AdoptionEnds(p: Pass)
    requires IsPass(p) && p.d.Adopt?
    ensures p.d.steps != [] && p.d.tip == p.d.steps[|p.d.steps| - 1]
    ensures p.d.tip.generation == p.tip.generation + |p.d.steps|
  {
    Recovery.AdoptionIsAChain(p.c, p.from, p.tip, p.Finding().attempted, TIP_DEPTH, p.d);
    assert Recovery.Links(p.c, p.from, p.tip, p.d.steps, |p.d.steps| - 1);
  }

  // ---- and about a rejection ----------------------------------------------------------------------------

  /** A failure is decided about, an attempt not being in the way. */
  ghost predicate IsRejectionPass(p: Pass, retry: bool) {
    && Rests(p) && p.Finding().rejected && !p.Finding().unknown
    && p.d == RejectionRecovery.Decided(p.c, p.from, p.tip, RefusalOf(p.Finding()), retry)
  }

  /** The lost transition an adoption names is one of this wallet's own, and nothing standing rivals it. */
  ghost predicate AdoptsOwn(p: Pass, x: Spend) {
    && p.d.Adopt? && x in p.s.signed && x.id == p.d.tip.txid
    && SpendsItsOwn(p.s, p.genesis, p.from, p.tip.cell, x) && Unrivalled(p.s, x)
  }

  /** A failure is resumed on only if it names a transaction or says it came before signing, which is the
      guard the machine puts on that. */
  lemma PermittedRejection(c: CellScript.Compiled, from: Recovery.Sources, tip: Tips.CellChain, f: Finding, retry: bool)
    requires c.Valid() && RejectionRecovery.Decided(c, from, tip, RefusalOf(f), retry).Resume?
    ensures f.rejectionTxID != "" || Rejections.IsNotBroadcast(f.rejectionErr)
    ensures RejectionRecovery.Decided(c, from, tip, RefusalOf(f), retry).tip == tip
  {
    RejectionRecovery.PermissionNeedsEvidence(c, from, tip, RefusalOf(f), retry);
  }

  /** Every resume on a rejection, and every adoption of a transaction of the wallet's own that nothing
      standing rivals, is one step the machine allows, to the rows and the tip the decision says. */
  lemma RejectionFollowsProtocol(p: Pass, retry: bool, x: Spend) returns (path: seq<State>)
    requires IsRejectionPass(p, retry) && (p.d.Resume? || AdoptsOwn(p, x))
    ensures CarriesOut(path, p)
  {
    var f := p.Finding();
    var t := p.s.(rows := Applied(p.s.rows, f, p.d), tip := if p.d.Resume? then p.chain else x.Chain(),
                  halted := false, needsRepair := false, adrift := false);
    if p.d.Resume? {
      PermittedRejection(p.c, p.from, p.tip, f, retry);
      assert ResumeRejection(p.s, t, p.genesis);
    } else {
      LostIsNext(p, retry, x);
      assert x.Chain()[|x.ancestors|] == x.id;
      assert AdoptAndRelease(p.s, t, p.genesis);
    }
    path := [p.s, t];
    assert RecoversAt(path, 1, p.genesis);
  }

  lemma LostIsNext(p: Pass, retry: bool, x: Spend)
    requires IsRejectionPass(p, retry) && AdoptsOwn(p, x)
    ensures x.ancestors == p.chain && p.d.tip.generation == p.tip.generation + 1 && Adoptable(p.s, p.genesis, x)
    ensures Applied(p.s.rows, p.Finding(), p.d) == Adopted(p.s, x)
  {
    var r := RefusalOf(p.Finding());
    RejectionRecovery.PermissionNeedsEvidence(p.c, p.from, p.tip, r, retry);
    var lost :| RejectionRecovery.IsLostTransition(p.c, p.from, p.tip, r.err, lost, p.d.tip);
    RejectionRecovery.AdoptedIsNextGeneration(p.c, p.from, p.tip, r.err, lost, p.d.tip);
    assert SpendsCellOutput(p.from, p.tip.cell, x, p.chain);
    OneStepWritten(p.s.rows, p.d.tip, p.d.steps);
  }

  /** In any steady run, a cell held down by a rejection that says something has no lost transition of its
      own to find: what the record does not hold, this deployment did not sign on top of that tip, or it no
      longer stands. */
  lemma NothingOfOursIsLost(run: seq<State>, genesis: TxID, i: nat)
    requires IsRun(run, genesis) && Steady(run) && i < |run|
    ensures var f := Classify(run[i].rows, genesis);
            f.rejected && !f.unknown && !SaysNothing(run[i].rows[f.rejectedAt]) ==>
              NoneLiveAt(run[i], f.claim.value.generation + 1)
  {
    RunKeeps(run, genesis, i);
    NothingSpendsTheClaim(run[i], genesis);
    var f := Classify(run[i].rows, genesis);
    if f.rejected { RejectionFacts(run[i].rows, genesis, f); }
  }

  // ---- the ordinary crash, from start to finish ------------------------------------------------------------

  ghost predicate Distinct(chain: Chain) {
    && (forall i :: 0 <= i < |chain| ==> chain[i] != "")
    && forall i, j :: 0 <= i < j < |chain| ==> chain[i] != chain[j]
  }

  /** The rows, and the signatures, of a cell that has moved along chain without incident. */
  function Recorded(chain: Chain): CellRows {
    map g: nat | g < |chain| :: Record(chain[g], if g == 0 then Seen else Broadcast, "")
  }

  ghost function Made(chain: Chain): set<Spend> {
    set g: nat | 1 <= g < |chain| :: Spend(chain[g], chain[..g])
  }

  ghost function Running(chain: Chain): State {
    State(Recorded(chain), Made(chain), {}, Idle, chain, false, false, false)
  }

  /** The same cell killed between its next signature and its record, and started again. */
  ghost function Interrupted(x: Spend): State {
    Running(x.ancestors).(rows := Recorded(x.ancestors)[x.Generation() := Record("", Attempting, "")],
                          signed := Made(x.ancestors) + {x}, halted := true)
  }

  lemma Longer(run: seq<State>, t: State, genesis: TxID) returns (longer: seq<State>)
    requires IsRun(run, genesis) && Steady(run)
    requires Step(run[|run| - 1], t, genesis) && (TakesTurn(run[|run| - 1], t) ==> !run[|run| - 1].adrift)
    ensures longer == run + [t] && IsRun(longer, genesis) && Steady(longer)
  {
    longer := run + [t];
    forall i | 0 < i < |longer| ensures StepAt(longer, i, genesis) && SteadyAt(longer, i) {
      assert i < |run| ==> StepAt(run, i, genesis) && SteadyAt(run, i);
    }
  }

  /** The attempt and the signature of one more transition. */
  lemma Signs(run: seq<State>, x: Spend, genesis: TxID) returns (longer: seq<State>)
    requires IsRun(run, genesis) && Steady(run) && Distinct(x.Chain()) && genesis == x.ancestors[0]
    requires run[|run| - 1] == Running(x.ancestors)
    ensures IsRun(longer, genesis) && Steady(longer)
    ensures longer[|longer| - 1] == Interrupted(x).(phase := Signed(x), halted := false)
  {
    var s := Running(x.ancestors);
    var a := s.(rows := Attempt(s), phase := Attempted);
    assert WriteAttempt(s, a);
    longer := Longer(run, a, genesis);
    var b := a.(signed := s.signed + {x}, phase := Signed(x));
    FreshNext(x, a, genesis);
    assert Sign(a, b, genesis);
    longer := Longer(longer, b, genesis);
  }

  lemma FreshNext(x: Spend, s: State, genesis: TxID)
    requires Distinct(x.Chain()) && genesis == x.ancestors[0] && s.signed == Made(x.ancestors)
    ensures Fresh(s, genesis, x.id)
  {
    var chain := x.Chain();
    assert chain[|x.ancestors|] == x.id && chain[0] == genesis;
    forall y | y in s.signed ensures y.id != x.id && x.id !in y.ancestors {
      assert y.id == chain[|y.ancestors|];
      assert forall i :: 0 <= i < |y.ancestors| ==> y.ancestors[i] == chain[i];
    }
  }

  /** A cell may live as long as it likes. */
  lemma {:induction false} Lives(chain: Chain) returns (run: seq<State>)
    requires Distinct(chain)
    ensures IsRun(run, chain[0]) && Steady(run) && run[|run| - 1] == Running(chain)
    decreases |chain|
  {
    var genesis := chain[0];
    if |chain| == 1 {
      var start := State(Seeded(genesis), {}, {}, Down, [genesis], true, false, false);
      SeededDerives(genesis);
      assert Recorded(chain) == Seeded(genesis) && Made(chain) == {};
      assert Derive(start, Running(chain), genesis);
      run := Longer([start], Running(chain), genesis);
    } else {
      var x := Spend(chain[|chain| - 1], chain[..|chain| - 1]);
      assert x.Chain() == chain;
      run := Lives(x.ancestors);
      run := Signs(run, x, genesis);
      run := Records(run, x, genesis);
    }
  }

  lemma Records(run: seq<State>, x: Spend, genesis: TxID) returns (longer: seq<State>)
    requires IsRun(run, genesis) && Steady(run)
    requires run[|run| - 1] == Interrupted(x).(phase := Signed(x), halted := false)
    ensures IsRun(longer, genesis) && Steady(longer) && longer[|longer| - 1] == Running(x.Chain())
  {
    var s := run[|run| - 1];
    var m := s.(tip := x.Chain(), phase := TipMoved);
    assert MoveTip(s, m);
    longer := Longer(run, m, genesis);
    OneMoreMade(x);
    assert WriteBroadcast(m, Running(x.Chain()));
    longer := Longer(longer, Running(x.Chain()), genesis);
  }

  lemma OneMoreMade(x: Spend)
    ensures Made(x.Chain()) == Made(x.ancestors) + {x}
    ensures Recorded(x.Chain()) == Recorded(x.ancestors)[x.Generation() := Record(x.id, Broadcast, "")]
  {
    var chain := x.Chain();
    assert chain[..|x.ancestors|] == x.ancestors && chain[|x.ancestors|] == x.id;
    forall g: nat | 1 <= g < |x.ancestors| ensures chain[..g] == x.ancestors[..g] && chain[g] == x.ancestors[g] {}
    forall y ensures y in Made(chain) <==> y in Made(x.ancestors) + {x} {
      if y in Made(chain) {
        var g: nat :| 1 <= g < |chain| && y == Spend(chain[g], chain[..g]);
        assert g < |x.ancestors| ==> y == Spend(x.ancestors[g], x.ancestors[..g]);
      }
      if y in Made(x.ancestors) {
        var g: nat :| 1 <= g < |x.ancestors| && y == Spend(x.ancestors[g], x.ancestors[..g]);
        assert y == Spend(chain[g], chain[..g]);
      }
      if y == x { assert y == Spend(chain[|x.ancestors|], chain[..|x.ancestors|]); }
    }
  }

  lemma MadeKnows(chain: Chain)
    ensures KnownChain(Made(chain), chain[0], chain)
  {
    var n := |chain| - 1;
    if n > 0 {
      var last := Spend(chain[n], chain[..n]);
      assert last in Made(chain) && last.Chain() == chain;
    }
  }

  lemma AttemptIsUnknown(chain: Chain)
    requires Distinct(chain)
    ensures var f, n := Classify(Recorded(chain)[|chain| := Record("", Attempting, "")], chain[0]), |chain| - 1;
            f.claim == Some(Claim(n, chain[n])) && f.halted && f.unknown && f.attempted == n + 1
  {
    var rows, n := Recorded(chain)[|chain| := Record("", Attempting, "")], |chain| - 1;
    var f := Classify(rows, chain[0]);
    assert IsBase(rows, n);
    var base: nat :| IsBase(rows, base) && IsFindingAbove(rows, base, f);
    assert Above(rows, n, Attempting) == {n + 1} && Above(rows, n, Failed) == {} && AllAbove(rows, n) == {n + 1};
  }

  lemma DistinctFront(x: Spend)
    requires Distinct(x.Chain())
    ensures Distinct(x.ancestors)
  {
    assert forall i :: 0 <= i < |x.ancestors| ==> x.ancestors[i] == x.Chain()[i];
  }

  lemma InterruptedIsUnknown(x: Spend)
    requires Distinct(x.Chain())
    ensures var f, n := Classify(Interrupted(x).rows, x.ancestors[0]), |x.ancestors| - 1;
            f.claim == Some(Claim(n, x.ancestors[n])) && f.halted && f.unknown && f.attempted == n + 1
  {
    DistinctFront(x);
    AttemptIsUnknown(x.ancestors);
  }

  lemma InterruptedClaims(x: Spend)
    requires Distinct(x.Chain())
    ensures var s, f := Interrupted(x), Classify(Interrupted(x).rows, x.ancestors[0]);
            ClaimsChain(s, x.ancestors[0], f, x.ancestors) && f.claim == Some(Claim(|x.ancestors| - 1, x.ancestors[|x.ancestors| - 1]))
  {
    InterruptedIsUnknown(x);
    MadeKnows(x.ancestors);
    KnownStays(Made(x.ancestors), Interrupted(x).signed, x.ancestors[0], x.ancestors);
  }

  /** Signs once more and is killed before that is recorded. */
  lemma IsKilled(x: Spend) returns (run: seq<State>)
    requires Distinct(x.Chain())
    ensures IsRun(run, x.ancestors[0]) && Steady(run) && run[|run| - 1] == Interrupted(x)
    ensures Inv(Interrupted(x), x.ancestors[0])
  {
    var genesis := x.ancestors[0];
    assert forall i :: 0 <= i < |x.ancestors| ==> x.ancestors[i] == x.Chain()[i];
    run := Lives(x.ancestors);
    run := Signs(run, x, genesis);
    var s := run[|run| - 1];
    var killed := s.(phase := Down);
    assert Crash(s, killed);
    run := Longer(run, killed, genesis);
    InterruptedIsUnknown(x);
    InterruptedClaims(x);
    assert Derive(killed, Interrupted(x), genesis);
    run := Longer(run, Interrupted(x), genesis);
    RunKeeps(run, genesis, |run| - 1);
  }

  /** The wallet has one signed action for every generation, oldest first. */
  ghost predicate IsLog(log: seq<Recovery.CellAction>, chain: Chain) {
    && |log| == |chain| - 1
    && forall i :: 0 <= i < |log| ==> log[i].generation == Some(i + 1) && log[i].txid == chain[i + 1]
  }

  /** The newest n of them, which is all recovery reads. */
  function Newest(log: seq<Recovery.CellAction>, n: nat): seq<Recovery.CellAction> {
    if |log| <= n then log else log[|log| - n..]
  }

  /** What recovery is asked about the killed cell. */
  ghost predicate IsKilledPass(p: Pass, x: Spend, log: seq<Recovery.CellAction>, next: Tips.CellChain) {
    && Distinct(x.Chain()) && p.genesis == x.ancestors[0] && p.s == Interrupted(x) && p.chain == x.ancestors && p.c.Valid()
    && p.tip.generation == |x.ancestors| - 1 && p.tip.txid == x.ancestors[|x.ancestors| - 1]
    && p.tip.vout == Tips.ExpectedVout(p.tip.cell, p.tip.generation)
    && IsLog(log, x.Chain()) && p.from.actions == Recovery.Actions(Newest(log, TIP_DEPTH), |log|)
    && !log[|log| - 1].failed && Tips.Successor(p.c, p.tip, x.id, p.from.raw(x.id)) == Some(next)
    && Recovery.AgreesWithWallet(p.c, log[|log| - 1], next)
    && SpendsItsOwn(p.s, p.genesis, p.from, p.tip.cell, x)
    && p.d == Recovery.Adopt(next, [next])
  }

  /** However long the cell has lived, and with no more of the wallet's log than the newest eight actions, it
      is moved onto the transaction it signed: an ordinary crash costs it nothing. */
  lemma OrdinaryCrashRecovers(p: Pass, x: Spend, log: seq<Recovery.CellAction>, next: Tips.CellChain)
    returns (run: seq<State>, path: seq<State>)
    requires IsKilledPass(p, x, log, next)
    ensures IsRun(run, p.genesis) && Steady(run) && run[|run| - 1] == p.s
    ensures IsPass(p) && CarriesOut(path, p)
    ensures path[|path| - 1].rows == Recorded(x.Chain())
  {
    run := KilledPass(p, x, log, next);
    path := AdoptionFollows(p);
    KilledRows(p, x, log, next);
  }

  lemma KilledRows(p: Pass, x: Spend, log: seq<Recovery.CellAction>, next: Tips.CellChain)
    requires IsKilledPass(p, x, log, next)
    ensures Applied(p.s.rows, p.Finding(), p.d) == Recorded(x.Chain())
  {
    assert Tips.IsSuccessor(p.c, p.tip, Tips.ParseTip(x.id, p.from.raw(x.id)).value, next);
    OneStepWritten(p.s.rows, next, p.d.steps);
    OneMoreMade(x);
  }

  lemma KilledPass(p: Pass, x: Spend, log: seq<Recovery.CellAction>, next: Tips.CellChain) returns (run: seq<State>)
    requires IsKilledPass(p, x, log, next)
    ensures IsRun(run, p.genesis) && Steady(run) && run[|run| - 1] == p.s && IsPass(p)
  {
    run := KilledRests(p, x, log, next);
    OneAboveIsTrue(p, x, log, next);
    KilledDecides(p, x, log, next);
  }

  lemma KilledRests(p: Pass, x: Spend, log: seq<Recovery.CellAction>, next: Tips.CellChain) returns (run: seq<State>)
    requires IsKilledPass(p, x, log, next)
    ensures IsRun(run, p.genesis) && Steady(run) && run[|run| - 1] == p.s && Rests(p)
  {
    run := IsKilled(x);
    InterruptedClaims(x);
  }

  lemma KilledDecides(p: Pass, x: Spend, log: seq<Recovery.CellAction>, next: Tips.CellChain)
    requires IsKilledPass(p, x, log, next)
    ensures p.Finding().unknown && p.Finding().attempted == p.tip.generation + 1
    ensures Recovery.IsAttemptDecision(p.c, p.from, p.tip, p.Finding().attempted, TIP_DEPTH, p.d)
  {
    InterruptedIsUnknown(x);
    LastIsAbove(p, x, log, next);
    Recovery.OrdinaryCrashAdopts(p.c, p.from, p.tip, |p.from.actions.page| - 1, next);
  }

  lemma LastIsAbove(p: Pass, x: Spend, log: seq<Recovery.CellAction>, next: Tips.CellChain)
    requires IsKilledPass(p, x, log, next)
    ensures var page := p.from.actions.page;
            page != [] && page[|page| - 1] == log[|log| - 1] && Recovery.OnlyAbove(page, p.tip, |page| - 1)
    ensures log[|log| - 1].txid == x.id
  {
    var page := p.from.actions.page;
    assert x.Chain()[|x.ancestors|] == x.id;
    forall i, g | Recovery.ActsAt(page, i, g) ensures g == |log| - |page| + i + 1 {
      assert page[i] == log[|log| - |page| + i];
    }
  }

  lemma OneAboveIsTrue(p: Pass, x: Spend, log: seq<Recovery.CellAction>, next: Tips.CellChain)
    requires IsKilledPass(p, x, log, next)
    ensures TrueWallet(p.s, p.genesis, p.from, p.tip.cell, p.tip.generation) && Uncrowded(p.from.actions.page, p.tip.generation)
  {
    var page, n := p.from.actions.page, p.tip.generation;
    LastIsAbove(p, x, log, next);
    forall y | y in p.s.signed && y.Generation() > n ensures y == x {
      assert y in Made(x.ancestors) ==> y.Generation() <= n;
    }
    assert ListsASignature(p.s, page[|page| - 1], n + 1);
    assert Recovery.ActsAt(page, |page| - 1, n + 1);
  }

  // ---- the crash before a signature, from start to finish --------------------------------------------------

  /** A cell at the end of chain killed between the attempt it wrote and the signature, and started again. */
  ghost function CutShort(chain: Chain): State {
    Running(chain).(rows := Recorded(chain)[|chain| := Record("", Attempting, "")], halted := true)
  }

  lemma IsCutShort(chain: Chain) returns (run: seq<State>)
    requires Distinct(chain)
    ensures IsRun(run, chain[0]) && Steady(run) && run[|run| - 1] == CutShort(chain)
    ensures ClaimsChain(CutShort(chain), chain[0], Classify(CutShort(chain).rows, chain[0]), chain)
    ensures Inv(CutShort(chain), chain[0])
  {
    var genesis := chain[0];
    run := Lives(chain);
    var s := Running(chain);
    var a := s.(rows := Attempt(s), phase := Attempted);
    assert WriteAttempt(s, a);
    run := Longer(run, a, genesis);
    var killed := a.(phase := Down);
    assert Crash(a, killed);
    run := Longer(run, killed, genesis);
    AttemptIsUnknown(chain);
    MadeKnows(chain);
    assert Derive(killed, CutShort(chain), genesis);
    run := Longer(run, CutShort(chain), genesis);
    RunKeeps(run, genesis, |run| - 1);
  }

  /** The wallet's log, and at its end, it may be, an action created for the next generation and not signed. */
  ghost predicate IsUnsignedLog(log: seq<Recovery.CellAction>, chain: Chain) {
    || IsLog(log, chain)
    || (&& log != [] && IsLog(log[..|log| - 1], chain)
        && log[|log| - 1].generation == Some(|chain|) && log[|log| - 1].txid == "")
  }

  /** What recovery is asked about that cell. A cell at its genesis has an empty wallet. */
  ghost predicate IsUnsignedPass(p: Pass, log: seq<Recovery.CellAction>) {
    && Distinct(p.chain) && p.genesis == p.chain[0] && p.s == CutShort(p.chain) && p.c.Valid()
    && p.tip.generation == |p.chain| - 1 && p.tip.txid == p.chain[|p.chain| - 1]
    && p.tip.vout == Tips.ExpectedVout(p.tip.cell, p.tip.generation)
    && IsUnsignedLog(log, p.chain) && p.from.actions == Recovery.Actions(Newest(log, TIP_DEPTH), |log|)
    && p.d == Recovery.Resume(p.tip)
  }

  /** However long the cell has lived, genesis included, a crash before the signature costs it nothing either:
      it is running again where it was, with the rows it had. */
  lemma UnsignedCrashRecovers(p: Pass, log: seq<Recovery.CellAction>) returns (run: seq<State>, path: seq<State>)
    requires IsUnsignedPass(p, log)
    ensures IsRun(run, p.genesis) && Steady(run) && run[|run| - 1] == p.s
    ensures IsPass(p) && CarriesOut(path, p) && path[|path| - 1] == Running(p.chain)
  {
    run := UnsignedRests(p, log);
    UnsignedIsPass(p, log);
    path := ResumeFollows(p);
    UnsignedRows(p, log);
  }

  lemma UnsignedRests(p: Pass, log: seq<Recovery.CellAction>) returns (run: seq<State>)
    requires IsUnsignedPass(p, log)
    ensures IsRun(run, p.genesis) && Steady(run) && run[|run| - 1] == p.s && Rests(p)
  {
    run := IsCutShort(p.chain);
    AttemptIsUnknown(p.chain);
  }

  lemma UnsignedIsPass(p: Pass, log: seq<Recovery.CellAction>)
    requires IsUnsignedPass(p, log) && Rests(p)
    ensures IsPass(p)
  {
    AttemptIsUnknown(p.chain);
    UnsignedIsTrue(p, log);
    UnsignedDecides(p, log);
  }

  lemma UnsignedRows(p: Pass, log: seq<Recovery.CellAction>)
    requires IsUnsignedPass(p, log)
    ensures p.s.(rows := WithoutAttempt(p.s.rows, p.Finding().attempted), tip := p.chain,
                 halted := false, needsRepair := false, adrift := false) == Running(p.chain)
  {
    AttemptIsUnknown(p.chain);
    assert WithoutAttempt(p.s.rows, |p.chain|) == Recorded(p.chain);
  }

  /** No action on the page is of a generation above the next, and those of the next are not signed. */
  lemma UnsignedPage(log: seq<Recovery.CellAction>, chain: Chain, n: nat, i: int, g: int)
    requires IsUnsignedLog(log, chain) && Recovery.ActsAt(Newest(log, n), i, g)
    ensures g == |log| - |Newest(log, n)| + i + 1 <= |log| && (g >= |chain| ==> g == |chain| == |log| && Newest(log, n)[i].txid == "")
  {
    var page := Newest(log, n);
    assert page[i] == log[|log| - |page| + i];
    if !IsLog(log, chain) { assert |log| - |page| + i < |log| - 1 ==> log[|log| - |page| + i] == log[..|log| - 1][|log| - |page| + i]; }
  }

  lemma UnsignedIsTrue(p: Pass, log: seq<Recovery.CellAction>)
    requires IsUnsignedPass(p, log)
    ensures TrueWallet(p.s, p.genesis, p.from, p.tip.cell, p.tip.generation) && Uncrowded(p.from.actions.page, p.tip.generation)
  {
    var page := p.from.actions.page;
    forall i, g | Recovery.ActsAt(page, i, g) && g > p.tip.generation ensures !Recovery.Signed(page, i) {
      UnsignedPage(log, p.chain, TIP_DEPTH, i, g);
    }
    assert forall x :: x in p.s.signed ==> x.Generation() <= p.tip.generation;
  }

  lemma UnsignedDecides(p: Pass, log: seq<Recovery.CellAction>)
    requires IsUnsignedPass(p, log)
    ensures Recovery.IsAttemptDecision(p.c, p.from, p.tip, |p.chain|, TIP_DEPTH, p.d)
  {
    var page := p.from.actions.page;
    if log != [] {
      assert page[|page| - 1] == log[|log| - 1];
      assert IsLog(log, p.chain) || IsLog(log[..|log| - 1], p.chain);
      assert page[|page| - 1].generation == Some(|log|);
      forall i, g | Recovery.ActsAt(page, i, g) ensures g <= |log| && (g == |log| ==> i == |page| - 1) {
        UnsignedPage(log, p.chain, TIP_DEPTH, i, g);
      }
      assert Recovery.IsNewest(page, |page| - 1);
      assert Recovery.IsDecidedBy(p.c, p.from, p.tip, TIP_DEPTH, page[|page| - 1], p.d);
    }
  }

  // ---- a refusal, from start to finish ----------------------------------------------------------------------

  /** A cell whose newest transition the network has refused, and which has heard of it. */
  ghost function Refused(x: Spend, err: string): State {
    Running(x.Chain()).(rows := Recorded(x.ancestors)[x.Generation() := Record(x.id, Failed, err)], refused := {x.id}, needsRepair := true)
  }

  lemma MarkedRefused(x: Spend, err: string)
    requires Distinct(x.Chain())
    ensures Marked(Recorded(x.Chain()), x.id, Failed, err) == Refused(x, err).rows
  {
    var chain := x.Chain();
    assert chain[|x.ancestors|] == x.id && forall i :: 0 <= i < |x.ancestors| ==> chain[i] == x.ancestors[i];
  }

  lemma IsRefused(x: Spend, err: string) returns (run: seq<State>)
    requires Distinct(x.Chain())
    ensures IsRun(run, x.ancestors[0]) && Steady(run) && run[|run| - 1] == Refused(x, err)
    ensures Inv(Refused(x, err), x.ancestors[0])
  {
    var genesis, s := x.ancestors[0], Running(x.Chain());
    assert x.Chain()[0] == genesis && x.Chain()[|x.ancestors|] == x.id;
    run := Lives(x.Chain());
    OneMoreMade(x);
    var refused := s.(refused := {x.id});
    assert NetworkRefuses(s, refused);
    run := Longer(run, refused, genesis);
    MarkedRefused(x, err);
    assert LearnRefusal(refused, Refused(x, err));
    run := Longer(run, Refused(x, err), genesis);
    RunKeeps(run, genesis, |run| - 1);
  }

  ghost predicate SaysNeither(err: string) {
    !("chain: not broadcast: " <= err) && !Rejections.Contains(Rejections.Lower(err), "utxo_spent")
  }

  lemma RefusedIsOne(x: Spend, err: string)
    requires Distinct(x.Chain()) && SaysNeither(err)
    ensures IsOneRefusal(Refused(x, err).rows, |x.ancestors| - 1)
  {
    var n := |x.ancestors| - 1;
    assert x.Chain()[n] == x.ancestors[n] && x.Chain()[n + 1] == x.id;
  }

  lemma RefusedFinding(x: Spend, err: string)
    requires Distinct(x.Chain()) && SaysNeither(err)
    ensures var f, n := Classify(Refused(x, err).rows, x.ancestors[0]), |x.ancestors| - 1;
            f.rejected && !f.unknown && f.claim == Some(Claim(n, x.ancestors[n])) && f.rejectedAt == n + 1
            && RefusalOf(f) == RejectionRecovery.Refusal(n + 1, x.id, err)
  {
    RefusedIsOne(x, err);
    OneRefusalRows(Refused(x, err).rows, x.ancestors[0], |x.ancestors| - 1);
  }

  lemma RefusedClaims(x: Spend, err: string)
    requires Distinct(x.Chain()) && SaysNeither(err)
    ensures ClaimsChain(Refused(x, err), x.ancestors[0], Classify(Refused(x, err).rows, x.ancestors[0]), x.ancestors)
  {
    RefusedFinding(x, err);
    MadeKnows(x.ancestors);
    OneMoreMade(x);
    KnownStays(Made(x.ancestors), Refused(x, err).signed, x.ancestors[0], x.ancestors);
  }

  /** What repair is asked about that cell: a refusal in words that claim nothing, of bytes that spend the tip. */
  ghost predicate IsRefusedPass(p: Pass, x: Spend, err: string) {
    && Distinct(x.Chain()) && p.genesis == x.ancestors[0] && p.s == Refused(x, err) && p.chain == x.ancestors && p.c.Valid()
    && SaysNeither(err)
    && p.tip.generation == |x.ancestors| - 1 && p.tip.txid == x.ancestors[|x.ancestors| - 1]
    && p.tip.vout == Tips.ExpectedVout(p.tip.cell, p.tip.generation)
    && !RejectionRecovery.OutOfReach(p.from, x.id) && RejectionRecovery.SpendsTip(p.from, p.tip, x.id)
    && p.d == Recovery.Resume(p.tip)
  }

  /** However long the cell has lived, a refusal of its newest transition takes it back one generation, and it
      may build that one again: its rows are those of the transitions the network did take. */
  lemma RefusalRecovers(p: Pass, x: Spend, err: string) returns (run: seq<State>, path: seq<State>)
    requires IsRefusedPass(p, x, err)
    ensures IsRun(run, p.genesis) && Steady(run) && run[|run| - 1] == p.s
    ensures IsRejectionPass(p, true) && CarriesOut(path, p)
    ensures path[|path| - 1].rows == Recorded(x.ancestors) && MayAdvance(path[|path| - 1])
  {
    run := IsRefused(x, err);
    RefusedFinding(x, err);
    RefusedClaims(x, err);
    RefusedResumes(p, x, err);
    RefusedRowGone(p, x, err);
    path := RejectionFollowsProtocol(p, true, x);
  }

  lemma RefusedRowGone(p: Pass, x: Spend, err: string)
    requires IsRefusedPass(p, x, err)
    ensures Applied(p.s.rows, p.Finding(), p.d) == Recorded(x.ancestors)
  {
    RefusedFinding(x, err);
    assert p.s.rows - {x.Generation()} == Recorded(x.ancestors);
  }

  lemma RefusedResumes(p: Pass, x: Spend, err: string)
    requires IsRefusedPass(p, x, err) && RefusalOf(p.Finding()) == RejectionRecovery.Refusal(|x.ancestors|, x.id, err)
    ensures RejectionRecovery.Decided(p.c, p.from, p.tip, RefusalOf(p.Finding()), true) == p.d
  {
    RejectionRecovery.UnexplainedRefusal(p.c, p.from, p.tip, RefusalOf(p.Finding()), true);
  }

  // ---- a repair with nothing left to decide ------------------------------------------------------------------

  /** A cell due for repair whose rows leave nothing to decide and nothing halted goes on where they put it. */
  lemma LookingReleases(s: State, genesis: TxID, chain: Chain) returns (t: State)
    requires s.phase == Idle && !s.halted && s.needsRepair
    requires var f := Classify(s.rows, genesis); ClaimsChain(s, genesis, f, chain) && !f.unknown && !f.rejected && !f.halted
    ensures RepairStep(s, t, genesis) && MayAdvance(t) && t.tip == chain && t.rows == s.rows && t.signed == s.signed
  {
    t := s.(tip := chain, needsRepair := false, adrift := false);
    assert RepairLooks(s, t, genesis);
  }
}
