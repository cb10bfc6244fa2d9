/** Deciding about cells, writing the decisions down, and repairing one cell after a refusal. */
module Repair {
  import opened Wrappers
  import opened History
  import opened Derivation
  import opened Tips
  import opened CellScript
  import opened Recovery
  import opened RejectionRecovery
  import Rejections
  import Automaton

  function RefusalOf(f: Finding): Refusal {
    Refusal(f.rejectedAt, f.rejectionTxID, f.rejectionErr)
  }

  /** Anything derivation offers recovery has a tip to be decided about. */
  predicate Decidable(p: CellPosition) {
    p.finding.unknown || p.finding.rejected ==> p.tip.Some?
  }

  predicate Considered(f: Finding) {
    f.unknown || f.rejected
  }

  ghost predicate IsDecision(c: Compiled, s: Sources, p: CellPosition, retry: bool, d: Decision)
    requires c.Valid() && Decidable(p) && Considered(p.finding)
  {
    if p.finding.unknown then IsAttemptDecision(c, s, p.tip.value, p.finding.attempted, TIP_DEPTH, d)
    else d == Decided(c, s, p.tip.value, RefusalOf(p.finding), retry)
  }

  method DecideCell(c: Compiled, s: Sources, p: CellPosition, retry: bool) returns (considered: bool, d: Decision)
    requires c.Valid() && Decidable(p)
    ensures considered <==> Considered(p.finding)
    ensures considered ==> IsDecision(c, s, p, retry, d)
  {
    if p.finding.unknown {
      d := RecoverCell(c, s, p.tip.value, p.finding.attempted, TIP_DEPTH);
      considered := true;
    } else if p.finding.rejected {
      d := RecoverRejected(c, s, p.tip.value, RefusalOf(p.finding), retry);
      considered := true;
    } else {
      considered, d := false, Halt;
    }
  }

  /** Errors never release a cell: whatever was halted with the full evidence is halted with less. */
  lemma LostEvidenceKeepsHalts(c: Compiled, less: Sources, more: Sources, p: CellPosition, retry: bool, dLess: Decision, dMore: Decision)
    requires c.Valid() && Decidable(p) && Considered(p.finding) && Degrades(less, more)
    requires IsDecision(c, less, p, retry, dLess) && IsDecision(c, more, p, retry, dMore)
    ensures dMore == Halt ==> dLess == Halt
  {
    if p.finding.unknown {
      Recovery.LostEvidenceNeverGrants(c, less, more, p.tip.value, p.finding.attempted, TIP_DEPTH, dLess, dMore);
    } else {
      RejectionRecovery.LostEvidenceNeverGrants(c, less, more, p.tip.value, RefusalOf(p.finding), retry);
    }
  }

  // ---- writing a decision down ----------------------------------------------------------------

  /** Adopted transactions are recorded as broadcast: they exist and were handed to the network. */
  function WithSteps(rows: CellRows, steps: seq<CellChain>): CellRows {
    if steps == [] then rows
    else
      var last := steps[|steps| - 1];
      WithSteps(rows, steps[..|steps| - 1])[last.generation := Record(last.txid, Broadcast, "")]
  }

  /** The rows once a decision about a finding is applied: the one row it was made about is retracted,
      or the adopted generations are written. */
  function Applied(rows: CellRows, f: Finding, d: Decision): CellRows {
    match d
    case Halt => rows
    case Adopt(_, steps) => WithSteps(rows, steps)
    case Resume(_) =>
      if f.unknown then WithoutAttempt(rows, f.attempted)
      else if f.rejected then WithoutRejection(rows, f.rejectedAt, f.rejectionTxID)
      else rows
  }

  /** How many statements an application runs. */
  function Statements(f: Finding, d: Decision): nat {
    match d
    case Halt => 0
    case Adopt(_, steps) => |steps|
    case Resume(_) => if f.unknown || f.rejected then 1 else 0
  }

  /** The rows when only the first n statements have taken effect. */
  function Partly(rows: CellRows, f: Finding, d: Decision, n: nat): CellRows
    requires n <= Statements(f, d)
  {
    match d
    case Halt => rows
    case Adopt(_, steps) => WithSteps(rows, steps[..n])
    case Resume(_) => if n == 0 then rows else Applied(rows, f, d)
  }

  lemma AllOfIt(rows: CellRows, f: Finding, d: Decision)
    ensures Partly(rows, f, d, Statements(f, d)) == Applied(rows, f, d)
  {
    if d.Adopt? { assert d.steps[..|d.steps|] == d.steps; }
  }

  /** n of the statements took effect: all up to the first that reported an error, and that one too if its
      effect landed all the same. */
  ghost predicate StoppedAt(writes: nat -> WriteOutcome, statements: nat, n: nat) {
    && n <= statements
    && exists k: nat :: k < statements && (forall j: nat :: j < k ==> writes(j).Written?)
                        && writes(k).Errored? && n == if writes(k).landed then k + 1 else k
  }

  ghost predicate LeftPartly(rows: CellRows, f: Finding, d: Decision, writes: nat -> WriteOutcome, after: CellRows) {
    exists n :: StoppedAt(writes, Statements(f, d), n) && after == Partly(rows, f, d, n)
  }

  ghost predicate AllWritten(writes: nat -> WriteOutcome, statements: nat) {
    forall k: nat :: k < statements ==> writes(k).Written?
  }

  /** Writes a decision down, adopted transactions oldest first. An error leaves what was written so far. */
  method ApplyRecovery(store: Store, cell: nat, p: CellPosition, d: Decision, writes: nat -> WriteOutcome)
    returns (ok: bool, q: CellPosition)
    modifies store
    ensures store.OtherCellsKept(old(store.cells), cell)
    ensures ok <==> AllWritten(writes, Statements(p.finding, d))
    ensures ok ==> store.Rows(cell) == Applied(old(store.Rows(cell)), p.finding, d)
    ensures ok ==> q == if d == Halt then p else CellPosition(Some(d.tip), Released(None))
    ensures !ok ==> q == p && LeftPartly(old(store.Rows(cell)), p.finding, d, writes, store.Rows(cell))
  {
    ghost var before, all := store.cells, Statements(p.finding, d);
    match d {
      case Halt =>
        return true, p;
      case Adopt(tip, steps) =>
        for i := 0 to |steps|
          invariant store.Rows(cell) == WithSteps(RowsOf(before, cell), steps[..i])
          invariant store.OtherCellsKept(before, cell) && AllWritten(writes, i)
        {
          assert steps[..i + 1][..i] == steps[..i];
          var done := writes(i);
          if done.Written? || done.landed {
            store.RecordTx(steps[i].generation, cell, Record(steps[i].txid, Broadcast, ""));
          }
          if done.Errored? {
            assert StoppedAt(writes, all, if done.landed then i + 1 else i);
            return false, p;
          }
        }
        assert steps[..|steps|] == steps;
      case Resume(tip) =>
        if p.finding.unknown || p.finding.rejected {
          var done := writes(0);
          if done.Written? || done.landed { Retract(store, cell, p.finding); }
          if done.Errored? {
            assert StoppedAt(writes, all, if done.landed then 1 else 0);
            return false, p;
          }
        }
    }
    return true, CellPosition(Some(d.tip), Released(None));
  }

  /** The one delete a resume needs, of the row the decision was made about. */
  method Retract(store: Store, cell: nat, f: Finding)
    requires f.unknown || f.rejected
    modifies store
    ensures store.OtherCellsKept(old(store.cells), cell)
    ensures store.Rows(cell) == if f.unknown then WithoutAttempt(old(store.Rows(cell)), f.attempted)
                                else WithoutRejection(old(store.Rows(cell)), f.rejectedAt, f.rejectionTxID)
  {
    if f.unknown {
      store.DeleteAttempt(f.attempted, cell);
    } else if f.rejectionTxID == "" {
      store.DeleteUnsignedRejection(f.rejectedAt, cell);
    } else {
      var ok := store.DeleteRejection(f.rejectedAt, cell, f.rejectionTxID);
    }
  }

  /** No decision, applied in full or in part, touches a row other than the one it is about or the
      generations it adopts. */
  lemma {:induction false} TouchesOnly(rows: CellRows, f: Finding, d: Decision, g: nat, n: nat)
    requires n <= Statements(f, d)
    requires f.unknown ==> g != f.attempted || !d.Resume?
    requires !f.unknown && f.rejected ==> g != f.rejectedAt || !d.Resume?
    requires d.Adopt? ==> forall step :: step in d.steps ==> step.generation != g
    ensures var after := Partly(rows, f, d, n); (g in after <==> g in rows) && (g in rows ==> after[g] == rows[g])
  {
    if d.Adopt? { StepsTouchOnly(rows, d.steps[..n], g); }
  }

  lemma {:induction false} StepsTouchOnly(rows: CellRows, steps: seq<CellChain>, g: nat)
    requires forall step :: step in steps ==> step.generation != g
    ensures g in WithSteps(rows, steps) <==> g in rows
    ensures g in rows ==> WithSteps(rows, steps)[g] == rows[g]
  {
    if steps != [] {
      assert steps[|steps| - 1] in steps;
      StepsTouchOnly(rows, steps[..|steps| - 1], g);
    }
  }

  // ---- convergence --------------------------------------------------------------------------

  /** A cell recovery may work on: a settled base, no attempt above it, one to three failures, not buried. */
  ghost predicate Repairable(rows: CellRows, base: nat) {
    && IsBase(rows, base)
    && Above(rows, base, Attempting) == {}
    && |AllAbove(rows, base)| < TIP_DEPTH
    && |Above(rows, base, Failed)| <= MAX_WRECKAGE
  }

  ghost predicate FailsAt(rows: CellRows, base: nat, m: nat) {
    IsLowest(Above(rows, base, Failed), m)
  }

  lemma RejectedIsRepairable(rows: CellRows, genesis: TxID, f: Finding) returns (base: nat)
    requires IsFinding(rows, genesis, f) && f.rejected && !f.unknown
    ensures Repairable(rows, base) && f.claim == Some(Claim(base, rows[base].txid))
    ensures FailsAt(rows, base, f.rejectedAt) && RefusalOf(f) == Refusal(f.rejectedAt, rows[f.rejectedAt].txid, rows[f.rejectedAt].err)
  {
    base :| IsBase(rows, base) && IsFindingAbove(rows, base, f);
  }

  lemma RepairableFinding(rows: CellRows, genesis: TxID, base: nat, f: Finding)
    requires Repairable(rows, base) && IsFinding(rows, genesis, f)
    ensures f.claim == Some(Claim(base, rows[base].txid)) && !f.unknown
    ensures f.halted == f.rejected == (Above(rows, base, Failed) != {})
  {
    var b :| IsBase(rows, b) && IsFindingAbove(rows, b, f);
  }

  /** Taking one generation out of what lies above the tip, by retracting it or by moving the tip onto it. */
  lemma OneLessAbove(rows: CellRows, base: nat, after: CellRows, to: nat, g: nat)
    requires Repairable(rows, base) && IsBase(after, to)
    requires forall h :: h in after && h > to <==> h in rows && h > base && h != g
    requires forall h :: h in after && h > to ==> after[h] == rows[h]
    ensures Repairable(after, to)
    ensures forall s :: Above(after, to, s) == Above(rows, base, s) - {g}
  {
    assert forall s :: Above(after, to, s) == Above(rows, base, s) - {g};
    assert AllAbove(after, to) == AllAbove(rows, base) - {g};
  }

  lemma RetractOne(rows: CellRows, base: nat, m: nat)
    requires Repairable(rows, base) && FailsAt(rows, base, m)
    ensures var after := WithoutRejection(rows, m, rows[m].txid);
            && Repairable(after, base) && after[base] == rows[base]
            && Above(after, base, Failed) == Above(rows, base, Failed) - {m}
  {
    var after := rows - {m};
    assert m in Above(rows, base, Failed);
    OneLessAbove(rows, base, after, base, m);
  }

  lemma AdoptOne(rows: CellRows, base: nat, txid: TxID)
    requires Repairable(rows, base) && txid != ""
    ensures var after := rows[base + 1 := Record(txid, Broadcast, "")];
            && Repairable(after, base + 1)
            && Above(after, base + 1, Failed) == Above(rows, base, Failed) - {base + 1}
  {
    var after := rows[base + 1 := Record(txid, Broadcast, "")];
    OneLessAbove(rows, base, after, base + 1, base + 1);
  }

  /** How far a repair has to go: failures above the tip, then the distance to the lowest of them. */
  ghost predicate Closer(a: (nat, int), b: (nat, int)) {
    a.0 < b.0 || (a.0 == b.0 && 0 <= a.1 < b.1)
  }

  ghost function Distance(rows: CellRows, genesis: TxID): (nat, int) {
    var f := Classify(rows, genesis);
    if f.claim.None? then (0, 0) else
      var base := f.claim.value.generation;
      (|Above(rows, base, Failed)|, if f.rejected then f.rejectedAt - base else 0)
  }

  lemma NamedTxID(err: string, t: TxID)
    requires Rejections.SpentBy(err) == Some(t)
    ensures t != ""
  {
    assert Rejections.Names(err, t);
    var s := Rejections.Lower(err);
    var p :| Rejections.OccursAt(s, Rejections.PHRASE, p);
    assert Rejections.NamesAt(s, p, t);
  }

  lemma AdoptsNext(c: Compiled, s: Sources, tip: CellChain, r: Refusal, retry: bool)
    requires c.Valid() && Decided(c, s, tip, r, retry).Adopt?
    ensures var d := Decided(c, s, tip, r, retry);
            d.steps == [d.tip] && d.tip.generation == tip.generation + 1 && d.tip.txid != ""
  {
    var d := Decided(c, s, tip, r, retry);
    PermissionNeedsEvidence(c, s, tip, r, retry);
    var t :| IsLostTransition(c, s, tip, r.err, t, d.tip);
    AdoptedIsNextGeneration(c, s, tip, r.err, t, d.tip);
    NamedTxID(r.err, t);
  }

  /** What one pass achieves: the cell stays repairable, its tip does not move back, and it is strictly
      closer to having nothing above its tip. */
  ghost predicate Progress(rows: CellRows, after: CellRows, genesis: TxID) {
    var f, h := Classify(rows, genesis), Classify(after, genesis);
    && f.claim.Some? && h.claim.Some? && h.claim.value.generation >= f.claim.value.generation
    && !h.unknown && h.halted == h.rejected
    && Closer(Distance(after, genesis), Distance(rows, genesis))
  }

  lemma DistanceOf(rows: CellRows, genesis: TxID, base: nat)
    requires Repairable(rows, base)
    ensures Distance(rows, genesis).0 == |Above(rows, base, Failed)|
    ensures forall m: nat :: FailsAt(rows, base, m) ==> Distance(rows, genesis).1 == m - base
  {
    var f := Classify(rows, genesis);
    RepairableFinding(rows, genesis, base, f);
    if f.rejected { var b := RejectedIsRepairable(rows, genesis, f); }
  }

  lemma ResumeCloser(rows: CellRows, after: CellRows, genesis: TxID, base: nat, m: nat)
    requires Repairable(rows, base) && FailsAt(rows, base, m) && after == WithoutRejection(rows, m, rows[m].txid)
    ensures Progress(rows, after, genesis)
  {
    RetractOne(rows, base, m);
    RepairableFinding(rows, genesis, base, Classify(rows, genesis));
    RepairableFinding(after, genesis, base, Classify(after, genesis));
    DistanceOf(rows, genesis, base);
    DistanceOf(after, genesis, base);
  }

  lemma AdoptionCloser(rows: CellRows, after: CellRows, genesis: TxID, base: nat, m: nat, txid: TxID)
    requires Repairable(rows, base) && FailsAt(rows, base, m) && txid != ""
    requires after == rows[base + 1 := Record(txid, Broadcast, "")]
    ensures Progress(rows, after, genesis)
  {
    AdoptOne(rows, base, txid);
    RepairableFinding(rows, genesis, base, Classify(rows, genesis));
    RepairableFinding(after, genesis, base + 1, Classify(after, genesis));
    DistanceOf(rows, genesis, base);
    DistanceOf(after, genesis, base + 1);
    if m > base + 1 {
      assert Above(after, base + 1, Failed) == Above(rows, base, Failed);
      assert FailsAt(after, base + 1, m);
    }
  }

  lemma OneStepWritten(rows: CellRows, step: CellChain, steps: seq<CellChain>)
    requires steps == [step]
    ensures WithSteps(rows, steps) == rows[step.generation := Record(step.txid, Broadcast, "")]
  {
    assert steps[..0] == [] && WithSteps(rows, steps[..0]) == rows;
  }

  lemma StepCloser(rows: CellRows, genesis: TxID, base: nat, m: nat, step: CellChain, steps: seq<CellChain>)
    requires Repairable(rows, base) && FailsAt(rows, base, m)
    requires steps == [step] && step.generation == base + 1 && step.txid != ""
    ensures Progress(rows, WithSteps(rows, steps), genesis)
  {
    OneStepWritten(rows, step, steps);
    AdoptionCloser(rows, rows[base + 1 := Record(step.txid, Broadcast, "")], genesis, base, m, step.txid);
  }

  /** Every pass that does not halt a rejected cell makes progress. */
  lemma PassConverges(rows: CellRows, genesis: TxID, c: Compiled, s: Sources, tip: CellChain, retry: bool)
    requires c.Valid() && Classify(rows, genesis).rejected && !Classify(rows, genesis).unknown
    requires tip.generation == Classify(rows, genesis).claim.value.generation
    requires Decided(c, s, tip, RefusalOf(Classify(rows, genesis)), retry) != Halt
    ensures var f := Classify(rows, genesis);
            Progress(rows, Applied(rows, f, Decided(c, s, tip, RefusalOf(f), retry)), genesis)
  {
    var f := Classify(rows, genesis);
    var base := RejectedIsRepairable(rows, genesis, f);
    var d := Decided(c, s, tip, RefusalOf(f), retry);
    if d.Resume? {
      ResumeCloser(rows, WithoutRejection(rows, f.rejectedAt, f.rejectionTxID), genesis, base, f.rejectedAt);
    } else {
      AdoptPass(rows, genesis, base, f.rejectedAt, c, s, tip, RefusalOf(f), retry);
    }
  }

  lemma AdoptPass(rows: CellRows, genesis: TxID, base: nat, m: nat, c: Compiled, s: Sources, tip: CellChain, r: Refusal, retry: bool)
    requires c.Valid() && Repairable(rows, base) && FailsAt(rows, base, m)
    requires tip.generation == base && Decided(c, s, tip, r, retry).Adopt?
    ensures Progress(rows, WithSteps(rows, Decided(c, s, tip, r, retry).steps), genesis)
  {
    var d := Decided(c, s, tip, r, retry);
    AdoptsNext(c, s, tip, r, retry);
    StepCloser(rows, genesis, base, m, d.tip, d.steps);
  }

  // ---- repairing one cell at runtime ----------------------------------------------------------

  predicate HoldsIn(cells: map<int, CellRows>, t: TxID) {
    exists k :: k in cells && exists g :: g in cells[k] && cells[k][g].txid == t
  }

  /** The record lookups are answered by the store itself; only whether they fail is up to the world. */
  function AgainstRecord(s: Sources, cells: map<int, CellRows>): Sources {
    s.(onRecord := (t: TxID) =>
      if s.onRecord(t) == LookupFailed then LookupFailed
      else if t != "" && HoldsIn(cells, t) then OnRecord else NotOnRecord)
  }

  /** What one pass sees of the world: bytes and recorded rows to derive from, answers to decide by. */
  datatype World = World(e: Evidence, s: Sources)

  /** So an adopted transaction is one the store holds nowhere, whatever cell or status. */
  lemma AdoptedWasUnknown(c: Compiled, s: Sources, cells: map<int, CellRows>, tip: CellChain, r: Refusal, retry: bool)
    requires c.Valid() && Decided(c, AgainstRecord(s, cells), tip, r, retry).Adopt?
    ensures !HoldsIn(cells, Decided(c, AgainstRecord(s, cells), tip, r, retry).tip.txid)
  {
    var with := AgainstRecord(s, cells);
    var d := Decided(c, with, tip, r, retry);
    PermissionNeedsEvidence(c, with, tip, r, retry);
    var t :| IsLostTransition(c, with, tip, r.err, t, d.tip);
    NamedTxID(r.err, t);
    AdoptedIsNextGeneration(c, with, tip, r.err, t, d.tip);
  }

  /** How a repair ended: with nothing left to decide, or halted for one of these reasons. */
  datatype Outcome = Cleared | Underivable | Refused | Unwritten | StillRefused

  lemma PositionDecidable(e: Evidence, rows: CellRows, cell: nat, p: CellPosition)
    requires e.c.Valid() && IsPosition(e, rows, cell, p)
    ensures Decidable(p)
    ensures p.tip.Some? ==> p.finding.claim.Some? && p.tip.value.generation == p.finding.claim.value.generation
  {
    if p.finding.claim.None? {
      assert IsFinding(rows, e.genesis, p.finding);
    }
  }

  /** The engine's memory of its cells: where each one is, and which are stopped. */
  class Engine {
    var tips: seq<Option<CellChain>>
    var halted: set<nat>
    var needsRepair: set<nat>

    constructor (n: nat)
      ensures |tips| == n && halted == {} && needsRepair == {}
    {
      tips := seq(n, _ => None);
      halted, needsRepair := {}, {};
    }

    twostate predicate OthersKept(cell: nat)
      reads this
    {
      && |tips| == old(|tips|) && halted - {cell} == old(halted) - {cell}
      && needsRepair - {cell} == old(needsRepair) - {cell} && (cell in needsRepair ==> cell in old(needsRepair))
      && forall k :: 0 <= k < |tips| && k != cell ==> tips[k] == old(tips[k])
    }

    method AdoptRepaired(cell: nat, p: CellPosition)
      requires cell < |tips|
      modifies this
      ensures tips == old(tips)[cell := p.tip] && needsRepair == old(needsRepair)
      ensures halted == if p.finding.halted then old(halted) + {cell} else old(halted) - {cell}
    {
      tips := tips[cell := p.tip];
      halted := if p.finding.halted then halted + {cell} else halted - {cell};
    }

    method HaltRepair(cell: nat)
      modifies this
      ensures tips == old(tips) && halted == old(halted) + {cell} && needsRepair == old(needsRepair) - {cell}
    {
      halted := halted + {cell};
      needsRepair := needsRepair - {cell};
    }
  }

  /** The cell runs exactly where its rows and bytes put it, with nothing uncertain above its tip. */
  ghost predicate RunsFromRecord(w: World, rows: CellRows, cell: nat, tip: Option<CellChain>)
    requires w.e.c.Valid()
  {
    var f := Classify(rows, w.e.genesis);
    !f.halted && IsPosition(w.e, rows, cell, CellPosition(tip, f))
  }

  /** A position derived from the store was decided about, and the decision was not a halt. */
  ghost predicate IsDecided(w: World, cells: map<int, CellRows>, cell: nat, p: CellPosition, d: Decision)
    requires w.e.c.Valid()
  {
    && IsPosition(w.e, RowsOf(cells, cell), cell, p) && Decidable(p) && Considered(p.finding)
    && IsDecision(w.e.c, AgainstRecord(w.s, cells), p, true, d) && d != Halt
  }

  /** One pass that decided something, with the first n statements of its decision in effect. */
  ghost predicate IsPartialPass(w: World, cells: map<int, CellRows>, cell: nat, d: Decision, n: nat, after: CellRows)
    requires w.e.c.Valid()
  {
    exists p :: && IsDecided(w, cells, cell, p, d)
                && n <= Statements(p.finding, d) && after == Partly(RowsOf(cells, cell), p.finding, d, n)
  }

  ghost predicate IsUnfinished(w: World, cells: map<int, CellRows>, cell: nat, after: CellRows)
    requires w.e.c.Valid()
  {
    exists d, n :: IsPartialPass(w, cells, cell, d, n, after)
  }

  lemma LeftUnfinished(w: World, cells: map<int, CellRows>, cell: nat, p: CellPosition, d: Decision,
                       writes: nat -> WriteOutcome, after: CellRows)
    requires w.e.c.Valid() && IsDecided(w, cells, cell, p, d) && LeftPartly(RowsOf(cells, cell), p.finding, d, writes, after)
    ensures IsUnfinished(w, cells, cell, after)
  {
    var n :| StoppedAt(writes, Statements(p.finding, d), n) && after == Partly(RowsOf(cells, cell), p.finding, d, n);
    assert IsPartialPass(w, cells, cell, d, n, after);
  }

  /** One pass that did all it decided. */
  ghost predicate IsPass(w: World, cells: map<int, CellRows>, cell: nat, d: Decision, after: CellRows)
    requires w.e.c.Valid()
  {
    exists p :: IsDecided(w, cells, cell, p, d) && after == Applied(RowsOf(cells, cell), p.finding, d)
  }

  ghost predicate Derivable(e: Evidence, cells: map<int, CellRows>)
    requires e.c.Valid()
  {
    exists ps :: IsDerivation(e, cells, e.c.cells, ps)
  }

  /** The position the store gives the cell is one recovery has to decide about. */
  ghost predicate IsOffered(w: World, cells: map<int, CellRows>, cell: nat, p: CellPosition)
    requires w.e.c.Valid()
  {
    IsPosition(w.e, RowsOf(cells, cell), cell, p) && Decidable(p) && Considered(p.finding)
  }

  /** What has to have gone wrong for a pass to end without a verdict. */
  ghost predicate IsBlamed(w: World, writes: nat -> WriteOutcome, cells: map<int, CellRows>, cell: nat, out: Outcome)
    requires w.e.c.Valid()
  {
    match out
    case Cleared => true
    case Underivable => !Derivable(w.e, cells)
    case Refused => exists p :: IsOffered(w, cells, cell, p) && IsDecision(w.e.c, AgainstRecord(w.s, cells), p, true, Halt)
    case Unwritten => exists p, d :: IsDecided(w, cells, cell, p, d) && !AllWritten(writes, Statements(p.finding, d))
    case StillRefused => false
  }

  /** Writes what was decided, and installs the tip it leads to if all of it was written. */
  method WriteDown(engine: Engine, store: Store, cell: nat, p: CellPosition, decision: Decision, writes: nat -> WriteOutcome)
    returns (done: bool)
    requires cell < |engine.tips| && decision != Halt
    modifies engine, store
    ensures store.OtherCellsKept(old(store.cells), cell) && engine.OthersKept(cell)
    ensures done <==> AllWritten(writes, Statements(p.finding, decision))
    ensures done ==> cell !in engine.halted && engine.tips[cell] == Some(decision.tip)
                     && store.Rows(cell) == Applied(old(store.Rows(cell)), p.finding, decision)
    ensures !done ==> cell in engine.halted && LeftPartly(old(store.Rows(cell)), p.finding, decision, writes, store.Rows(cell))
  {
    var q;
    done, q := ApplyRecovery(store, cell, p, decision, writes);
    if done { engine.AdoptRepaired(cell, q); } else { engine.HaltRepair(cell); }
  }

  /** So a pass that decided something has done it, or has a write to blame. */
  lemma WrittenDown(w: World, writes: nat -> WriteOutcome, cells: map<int, CellRows>, cell: nat, p: CellPosition, d: Decision, after: CellRows)
    requires w.e.c.Valid() && IsDecided(w, cells, cell, p, d)
    requires AllWritten(writes, Statements(p.finding, d)) ==> after == Applied(RowsOf(cells, cell), p.finding, d)
    requires !AllWritten(writes, Statements(p.finding, d)) ==> LeftPartly(RowsOf(cells, cell), p.finding, d, writes, after)
    ensures AllWritten(writes, Statements(p.finding, d)) ==> IsPass(w, cells, cell, d, after)
    ensures !AllWritten(writes, Statements(p.finding, d)) ==>
              IsUnfinished(w, cells, cell, after) && IsBlamed(w, writes, cells, cell, Unwritten)
  {
    if !AllWritten(writes, Statements(p.finding, d)) { LeftUnfinished(w, cells, cell, p, d, writes, after); }
  }

  /** One pass: re-derive from the store, decide, write the decision down. Some(d) means there is more
      to look at after decision d. */
  method RepairPass(engine: Engine, store: Store, cell: nat, w: World, writes: nat -> WriteOutcome)
    returns (out: Outcome, d: Option<Decision>)
    requires w.e.c.Valid() && cell < |engine.tips| == w.e.c.cells
    modifies engine, store
    ensures store.OtherCellsKept(old(store.cells), cell) && engine.OthersKept(cell)
    ensures d.Some? ==> cell !in engine.halted && IsPass(w, old(store.cells), cell, d.value, store.Rows(cell))
    ensures d.None? ==> IsBlamed(w, writes, old(store.cells), cell, out)
    ensures d.None? && out != Unwritten ==> store.Rows(cell) == old(store.Rows(cell))
    ensures d.None? && out == Cleared ==>
              && !Considered(Classify(store.Rows(cell), w.e.genesis))
              && (cell in engine.halted <==> Classify(store.Rows(cell), w.e.genesis).halted)
              && (cell !in engine.halted ==> RunsFromRecord(w, store.Rows(cell), cell, engine.tips[cell]))
    ensures d.None? && out == Unwritten ==> IsUnfinished(w, old(store.cells), cell, store.Rows(cell))
    ensures d.None? && out != Cleared ==> cell in engine.halted
  {
    var positions := DeriveTips(w.e, store);
    if positions.None? {
      engine.HaltRepair(cell);
      return Underivable, None;
    }
    assert PlacedAt(w.e, store.cells, cell, positions.value[cell]);
    out, d := PassFrom(engine, store, cell, w, writes, positions.value[cell]);
  }

  /** The pass, once the store has given the cell a position. */
  method PassFrom(engine: Engine, store: Store, cell: nat, w: World, writes: nat -> WriteOutcome, p: CellPosition)
    returns (out: Outcome, d: Option<Decision>)
    requires w.e.c.Valid() && cell < |engine.tips| == w.e.c.cells && IsPosition(w.e, store.Rows(cell), cell, p)
    modifies engine, store
    ensures store.OtherCellsKept(old(store.cells), cell) && engine.OthersKept(cell)
    ensures d.Some? ==> cell !in engine.halted && IsPass(w, old(store.cells), cell, d.value, store.Rows(cell))
    ensures d.None? ==> IsBlamed(w, writes, old(store.cells), cell, out)
    ensures d.None? && out != Unwritten ==> store.Rows(cell) == old(store.Rows(cell))
    ensures d.None? && out == Cleared ==>
              && !Considered(Classify(store.Rows(cell), w.e.genesis))
              && (cell in engine.halted <==> Classify(store.Rows(cell), w.e.genesis).halted)
              && (cell !in engine.halted ==> RunsFromRecord(w, store.Rows(cell), cell, engine.tips[cell]))
    ensures d.None? && out == Unwritten ==> IsUnfinished(w, old(store.cells), cell, store.Rows(cell))
    ensures d.None? && out != Cleared ==> cell in engine.halted
  {
    PositionDecidable(w.e, store.Rows(cell), cell, p);
    var considered, decision := DecideCell(w.e.c, AgainstRecord(w.s, store.cells), p, true);
    if !considered {
      engine.AdoptRepaired(cell, p);
      return Cleared, None;
    }
    if decision == Halt {
      assert IsOffered(w, store.cells, cell, p);
      engine.HaltRepair(cell);
      return Refused, None;
    }
    ghost var before := store.cells;
    var done := WriteDown(engine, store, cell, p, decision, writes);
    WrittenDown(w, writes, before, cell, p, decision, store.Rows(cell));
    if done { return Cleared, Some(decision); }
    return Unwritten, None;
  }

  /** The recorded tip has not moved back. */
  ghost predicate TipKept(rows: CellRows, after: CellRows, genesis: TxID) {
    var f, h := Classify(rows, genesis), Classify(after, genesis);
    f.claim.Some? ==> h.claim.Some? && h.claim.value.generation >= f.claim.value.generation
  }

  /** No pass, whatever it decides and however much of it is written, moves a recorded tip back. */
  lemma PassKeepsTip(w: World, cells: map<int, CellRows>, cell: nat, d: Decision, n: nat, after: CellRows)
    requires w.e.c.Valid() && IsPartialPass(w, cells, cell, d, n, after)
    ensures TipKept(RowsOf(cells, cell), after, w.e.genesis)
  {
    var p :| IsDecided(w, cells, cell, p, d) && n <= Statements(p.finding, d) && after == Partly(RowsOf(cells, cell), p.finding, d, n);
    DecidedKeepsTip(w, cells, cell, p, d, n);
  }

  lemma DecidedKeepsTip(w: World, cells: map<int, CellRows>, cell: nat, p: CellPosition, d: Decision, n: nat)
    requires w.e.c.Valid() && IsDecided(w, cells, cell, p, d) && n <= Statements(p.finding, d)
    ensures TipKept(RowsOf(cells, cell), Partly(RowsOf(cells, cell), p.finding, d, n), w.e.genesis)
  {
    var rows := RowsOf(cells, cell);
    PositionDecidable(w.e, rows, cell, p);
    var base := ConsideredBase(rows, w.e.genesis, p.finding);
    if d.Adopt? { StepsAboveTip(w.e.c, AgainstRecord(w.s, cells), p, d); }
    BaseSurvives(rows, p.finding, d, base, n);
    StillSettled(Partly(rows, p.finding, d, n), w.e.genesis, base);
  }

  lemma FullPassKeepsTip(w: World, cells: map<int, CellRows>, cell: nat, d: Decision, after: CellRows)
    requires w.e.c.Valid() && IsPass(w, cells, cell, d, after)
    ensures TipKept(RowsOf(cells, cell), after, w.e.genesis)
  {
    var p :| IsDecided(w, cells, cell, p, d) && after == Applied(RowsOf(cells, cell), p.finding, d);
    AllOfIt(RowsOf(cells, cell), p.finding, d);
    DecidedKeepsTip(w, cells, cell, p, d, Statements(p.finding, d));
  }

  lemma PassedTipKept(w: World, cells: map<int, CellRows>, cell: nat, d: Option<Decision>, out: Outcome, after: CellRows)
    requires w.e.c.Valid()
    requires d.Some? ==> IsPass(w, cells, cell, d.value, after)
    requires d.None? ==> after == RowsOf(cells, cell) || (out == Unwritten && IsUnfinished(w, cells, cell, after))
    ensures TipKept(RowsOf(cells, cell), after, w.e.genesis)
  {
    if d.Some? {
      FullPassKeepsTip(w, cells, cell, d.value, after);
    } else if after != RowsOf(cells, cell) {
      var e, n :| IsPartialPass(w, cells, cell, e, n, after);
      PassKeepsTip(w, cells, cell, e, n, after);
    }
  }

  /** An adoption cut short leaves the store ahead of where the cell was: at the last step it wrote. */
  lemma PartialAdoptionIsAhead(w: World, cells: map<int, CellRows>, cell: nat, d: Decision, n: nat, after: CellRows)
    requires w.e.c.Valid() && IsPartialPass(w, cells, cell, d, n, after) && d.Adopt? && 0 < n <= |d.steps|
    ensures Classify(after, w.e.genesis).claim == Some(Claim(d.steps[n - 1].generation, d.steps[n - 1].txid))
  {
    var p :| IsDecided(w, cells, cell, p, d) && n <= Statements(p.finding, d) && after == Partly(RowsOf(cells, cell), p.finding, d, n);
    var base := DecidedClimbs(w, cells, cell, p, d);
    StepsClaim(RowsOf(cells, cell), w.e.genesis, base, d.steps, n);
  }

  lemma StepsClaim(rows: CellRows, genesis: TxID, base: nat, steps: seq<CellChain>, n: nat)
    requires IsBase(rows, base) && Climbs(steps, base) && 0 < n <= |steps|
    ensures Classify(WithSteps(rows, steps[..n]), genesis).claim == Some(Claim(steps[n - 1].generation, steps[n - 1].txid))
  {
    StepsMoveBase(rows, base, steps, n);
    BaseClaims(WithSteps(rows, steps[..n]), genesis, base + n);
  }

  lemma DecidedClimbs(w: World, cells: map<int, CellRows>, cell: nat, p: CellPosition, d: Decision) returns (base: nat)
    requires w.e.c.Valid() && IsDecided(w, cells, cell, p, d) && d.Adopt?
    ensures IsBase(RowsOf(cells, cell), base) && Climbs(d.steps, base)
  {
    PositionDecidable(w.e, RowsOf(cells, cell), cell, p);
    base := ConsideredBase(RowsOf(cells, cell), w.e.genesis, p.finding);
    StepsClimb(w.e.c, AgainstRecord(w.s, cells), p, d);
  }

  /** Adopted steps climb from the tip one generation at a time, each naming a transaction. */
  lemma StepsClimb(c: Compiled, s: Sources, p: CellPosition, d: Decision)
    requires c.Valid() && Decidable(p) && Considered(p.finding) && IsDecision(c, s, p, true, d) && d.Adopt?
    ensures Climbs(d.steps, p.tip.value.generation)
  {
    var tip := p.tip.value;
    if p.finding.unknown {
      AdoptionIsAChain(c, s, tip, p.finding.attempted, TIP_DEPTH, d);
      var w, at := AdoptedRun(c, s, tip, p.finding.attempted, TIP_DEPTH, d);
      WalkedRun(w, d);
      forall i | 0 <= i < |d.steps| ensures d.steps[i].generation == tip.generation + i + 1 && d.steps[i].txid != "" {
        assert Links(c, s, tip, d.steps, i);
        var j := SignedStepActs(w, d.steps, i);
      }
    } else {
      AdoptsNext(c, s, tip, RefusalOf(p.finding), true);
    }
  }

  ghost predicate Climbs(steps: seq<CellChain>, from: nat) {
    forall i :: 0 <= i < |steps| ==> steps[i].generation == from + i + 1 && steps[i].txid != ""
  }

  lemma {:induction false} StepsMoveBase(rows: CellRows, base: nat, steps: seq<CellChain>, n: nat)
    requires IsBase(rows, base) && Climbs(steps, base) && n <= |steps|
    ensures var after := WithSteps(rows, steps[..n]);
            IsBase(after, base + n) && (n > 0 ==> after[base + n] == Record(steps[n - 1].txid, Broadcast, ""))
  {
    if n == 0 {
      assert steps[..0] == [];
    } else {
      StepsMoveBase(rows, base, steps, n - 1);
      assert steps[..n][..n - 1] == steps[..n - 1];
    }
  }

  lemma ConsideredBase(rows: CellRows, genesis: TxID, f: Finding) returns (base: nat)
    requires IsFinding(rows, genesis, f) && Considered(f)
    ensures IsBase(rows, base) && f.claim == Some(Claim(base, rows[base].txid))
    ensures f.unknown ==> f.attempted == base + 1
    ensures f.rejected ==> f.rejectedAt > base
  {
    base :| IsBase(rows, base) && IsFindingAbove(rows, base, f);
  }

  lemma StepsAboveTip(c: Compiled, s: Sources, p: CellPosition, d: Decision)
    requires c.Valid() && Decidable(p) && Considered(p.finding) && IsDecision(c, s, p, true, d) && d.Adopt?
    ensures forall step :: step in d.steps ==> step.generation > p.tip.value.generation
  {
    StepsClimb(c, s, p, d);
  }

  lemma BaseSurvives(rows: CellRows, f: Finding, d: Decision, base: nat, n: nat)
    requires n <= Statements(f, d)
    requires base in rows && Settled(rows[base]) && Considered(f)
    requires f.unknown ==> f.attempted > base
    requires f.rejected ==> f.rejectedAt > base
    requires d.Adopt? ==> forall step :: step in d.steps ==> step.generation > base
    ensures var after := Partly(rows, f, d, n); base in after && Settled(after[base])
  {
    TouchesOnly(rows, f, d, base, n);
  }

  lemma StillSettled(after: CellRows, genesis: TxID, base: nat)
    requires base in after && Settled(after[base])
    ensures var h := Classify(after, genesis); h.claim.Some? && h.claim.value.generation >= base
  {
    var h := Classify(after, genesis);
    assert HasSettled(after) && after != map[];
    var b :| IsBase(after, b) && IsFindingAbove(after, b, h);
  }

  // ---- the loop of passes -----------------------------------------------------------------------

  /** n resumes have taken n failures away from under whatever base the cell had, and nothing else. */
  ghost predicate CountedDown(start: CellRows, rows: CellRows, n: nat) {
    forall base :: Repairable(start, base) ==>
      Repairable(rows, base) && |Above(rows, base, Failed)| + n == |Above(start, base, Failed)|
  }

  ghost predicate AllResumes(ds: seq<Decision>) {
    forall i :: 0 <= i < |ds| ==> ds[i].Resume?
  }

  lemma ResumeCountsDown(start: CellRows, w: World, cells: map<int, CellRows>, cell: nat, d: Decision, after: CellRows, n: nat)
    requires w.e.c.Valid() && IsPass(w, cells, cell, d, after) && d.Resume?
    requires CountedDown(start, RowsOf(cells, cell), n)
    ensures CountedDown(start, after, n + 1)
  {
    var rows := RowsOf(cells, cell);
    forall base | Repairable(start, base)
      ensures Repairable(after, base) && |Above(after, base, Failed)| + n + 1 == |Above(start, base, Failed)|
    {
      var f := Classify(rows, w.e.genesis);
      RepairableFinding(rows, w.e.genesis, base, f);
      var b := RejectedIsRepairable(rows, w.e.genesis, f);
      RetractOne(rows, base, f.rejectedAt);
    }
  }

  lemma NothingLeft(start: CellRows, rows: CellRows, genesis: TxID, n: nat, base: nat)
    requires Repairable(start, base) && CountedDown(start, rows, n)
    ensures n <= MAX_WRECKAGE
    ensures !Considered(Classify(rows, genesis)) ==> n == |Above(start, base, Failed)| && !Classify(rows, genesis).halted
  {
    RepairableFinding(rows, genesis, base, Classify(rows, genesis));
  }

  /** A repair that came to an end by resumes alone, from k failures: k passes and the cell runs. */
  ghost predicate ReleasedByResumes(start: CellRows, verdicts: seq<Decision>, out: Outcome, released: bool) {
    forall base :: Repairable(start, base) && AllResumes(verdicts) && out in {Cleared, StillRefused} ==>
      out == Cleared && released && |verdicts| == |Above(start, base, Failed)|
  }

  lemma ReleasedAfter(start: CellRows, rows: CellRows, genesis: TxID, verdicts: seq<Decision>, out: Outcome, released: bool)
    requires AllResumes(verdicts) ==> CountedDown(start, rows, |verdicts|)
    requires out == Cleared ==> !Considered(Classify(rows, genesis)) && (released <==> !Classify(rows, genesis).halted)
    requires out == StillRefused ==> |verdicts| > MAX_WRECKAGE
    ensures ReleasedByResumes(start, verdicts, out, released)
  {
    forall base | Repairable(start, base) && AllResumes(verdicts) && out in {Cleared, StillRefused}
      ensures out == Cleared && released && |verdicts| == |Above(start, base, Failed)|
    {
      NothingLeft(start, rows, genesis, |verdicts|, base);
    }
  }

  lemma OneMoreVerdict(start: CellRows, w: World, cells: map<int, CellRows>, cell: nat, verdicts: seq<Decision>,
                       d: Decision, after: CellRows)
    requires w.e.c.Valid() && IsPass(w, cells, cell, d, after)
    requires AllResumes(verdicts) ==> CountedDown(start, RowsOf(cells, cell), |verdicts|)
    ensures AllResumes(verdicts + [d]) ==> CountedDown(start, after, |verdicts| + 1)
  {
    var longer := verdicts + [d];
    if AllResumes(longer) {
      assert longer[|verdicts|] == d && forall i :: 0 <= i < |verdicts| ==> longer[i] == verdicts[i];
      ResumeCountsDown(start, w, cells, cell, d, after, |verdicts|);
    }
  }

  /** What one more pass does to what is known of all of them. */
  lemma AfterPass(start: CellRows, w: World, cells: map<int, CellRows>, cell: nat, verdicts: seq<Decision>,
                  d: Option<Decision>, out: Outcome, after: CellRows)
    requires w.e.c.Valid() && TipKept(start, RowsOf(cells, cell), w.e.genesis)
    requires AllResumes(verdicts) ==> CountedDown(start, RowsOf(cells, cell), |verdicts|)
    requires d.Some? ==> IsPass(w, cells, cell, d.value, after)
    requires d.None? ==> after == RowsOf(cells, cell) || (out == Unwritten && IsUnfinished(w, cells, cell, after))
    ensures TipKept(start, after, w.e.genesis)
    ensures d.Some? && AllResumes(verdicts + [d.value]) ==> CountedDown(start, after, |verdicts| + 1)
  {
    PassedTipKept(w, cells, cell, d, out, after);
    if d.Some? { OneMoreVerdict(start, w, cells, cell, verdicts, d.value, after); }
  }

  // ---- a repair that is let run ---------------------------------------------------------------------

  /** Everything is derivable, and if anything has to be decided about the cell, it is to resume, and the
      statement that takes is written. */
  ghost predicate IsLetRun(w: World, writes: nat -> WriteOutcome, cells: map<int, CellRows>, cell: nat)
    requires w.e.c.Valid()
  {
    && Derivable(w.e, cells)
    && forall p, d :: IsOffered(w, cells, cell, p) && IsDecision(w.e.c, AgainstRecord(w.s, cells), p, true, d) ==>
         d.Resume? && writes(0).Written?
  }

  /** The rows with the one failure taken away that they offer recovery. */
  ghost function Retracted(rows: CellRows, genesis: TxID): CellRows {
    var f := Classify(rows, genesis); WithoutRejection(rows, f.rejectedAt, f.rejectionTxID)
  }

  ghost function AfterResumes(rows: CellRows, genesis: TxID, n: nat): CellRows {
    if n == 0 then rows else Retracted(AfterResumes(rows, genesis, n - 1), genesis)
  }

  /** The store as the n-th pass of such a repair finds it. */
  ghost function StoreAfter(cells: map<int, CellRows>, cell: nat, genesis: TxID, n: nat): map<int, CellRows> {
    cells[cell := AfterResumes(RowsOf(cells, cell), genesis, n)]
  }

  /** For each failure above base and once more. */
  ghost predicate IsLetRunThrough(world: nat -> World, writes: nat -> nat -> WriteOutcome, cells: map<int, CellRows>, cell: nat,
                                  genesis: TxID, base: nat)
    requires forall i :: world(i).e.c.Valid()
  {
    forall i: nat :: i <= |Above(RowsOf(cells, cell), base, Failed)| ==>
      IsLetRun(world(i), writes(i), StoreAfter(cells, cell, genesis, i), cell)
  }

  /** Then a pass either takes one failure away or finds nothing left. */
  lemma LetRunPass(w: World, writes: nat -> WriteOutcome, cells: map<int, CellRows>, cell: nat, base: nat,
                   d: Option<Decision>, out: Outcome, after: CellRows)
    requires w.e.c.Valid() && Repairable(RowsOf(cells, cell), base) && IsLetRun(w, writes, cells, cell)
    requires d.Some? ==> IsPass(w, cells, cell, d.value, after)
    requires d.None? ==> IsBlamed(w, writes, cells, cell, out)
    ensures if d.Some? then d.value.Resume? && after == Retracted(RowsOf(cells, cell), w.e.genesis) else out == Cleared
  {
    if d.Some? {
      var p :| IsDecided(w, cells, cell, p, d.value) && after == Applied(RowsOf(cells, cell), p.finding, d.value);
      assert IsOffered(w, cells, cell, p);
      RepairableFinding(RowsOf(cells, cell), w.e.genesis, base, p.finding);
    } else {
      NothingToBlame(w, writes, cells, cell, out);
    }
  }

  lemma NothingToBlame(w: World, writes: nat -> WriteOutcome, cells: map<int, CellRows>, cell: nat, out: Outcome)
    requires w.e.c.Valid() && IsLetRun(w, writes, cells, cell) && IsBlamed(w, writes, cells, cell, out)
    ensures out == Cleared
  {
    match out
    case Refused => NotRefused(w, writes, cells, cell);
    case Unwritten => NotUnwritten(w, writes, cells, cell);
    case _ =>
  }

  lemma NotRefused(w: World, writes: nat -> WriteOutcome, cells: map<int, CellRows>, cell: nat)
    requires w.e.c.Valid() && IsLetRun(w, writes, cells, cell)
    ensures !IsBlamed(w, writes, cells, cell, Refused)
  {}

  lemma NotUnwritten(w: World, writes: nat -> WriteOutcome, cells: map<int, CellRows>, cell: nat)
    requires w.e.c.Valid() && IsLetRun(w, writes, cells, cell)
    ensures !IsBlamed(w, writes, cells, cell, Unwritten)
  {
    forall p, d | IsDecided(w, cells, cell, p, d) ensures AllWritten(writes, Statements(p.finding, d)) {
      assert IsOffered(w, cells, cell, p);
    }
  }

  lemma PassIsConsidered(w: World, cells: map<int, CellRows>, cell: nat, d: Decision, after: CellRows)
    requires w.e.c.Valid() && IsPass(w, cells, cell, d, after)
    ensures Considered(Classify(RowsOf(cells, cell), w.e.genesis))
  {
    var p :| IsDecided(w, cells, cell, p, d) && after == Applied(RowsOf(cells, cell), p.finding, d);
  }

  /** The cell runs again, after one pass for each of its failures, and those are all its rows have lost. */
  ghost predicate IsReleased(first: map<int, CellRows>, rows: CellRows, cell: nat, genesis: TxID, base: nat,
                             verdicts: seq<Decision>, out: Outcome, halted: bool) {
    && out == Cleared && !halted && AllResumes(verdicts) && |verdicts| == |Above(RowsOf(first, cell), base, Failed)|
    && rows == AfterResumes(RowsOf(first, cell), genesis, |verdicts|)
  }

  /** A store that differs in one cell's rows. */
  lemma OnlyRows(cells: map<int, CellRows>, before: map<int, CellRows>, cell: nat, rows: CellRows)
    requires forall k :: k != cell ==> (k in cells <==> k in before) && (k in cells ==> cells[k] == before[k])
    requires RowsOf(cells, cell) == rows != map[]
    ensures cells == before[cell := rows]
  {
    var after := before[cell := rows];
    assert forall k :: k in cells <==> k in after;
    assert forall k :: k in cells ==> cells[k] == after[k];
  }

  /** So far a repair that is let run has gone as it should: n failures are gone and nothing else. */
  ghost predicate RunsOn(first: map<int, CellRows>, cells: map<int, CellRows>, cell: nat, genesis: TxID, base: nat, verdicts: seq<Decision>) {
    && cells == StoreAfter(first, cell, genesis, |verdicts|) && AllResumes(verdicts)
    && Repairable(RowsOf(cells, cell), base)
    && |Above(RowsOf(cells, cell), base, Failed)| + |verdicts| == |Above(RowsOf(first, cell), base, Failed)|
  }

  lemma OneFewer(rows: CellRows, genesis: TxID, base: nat)
    requires Repairable(rows, base) && Considered(Classify(rows, genesis))
    ensures var after := Retracted(rows, genesis);
            && Repairable(after, base) && after != map[] && |Above(after, base, Failed)| + 1 == |Above(rows, base, Failed)|
  {
    var f := Classify(rows, genesis);
    RepairableFinding(rows, genesis, base, f);
    var b := RejectedIsRepairable(rows, genesis, f);
    RetractOne(rows, base, f.rejectedAt);
  }

  lemma RunsFirst(first: map<int, CellRows>, cell: nat, genesis: TxID, base: nat)
    requires Repairable(RowsOf(first, cell), base)
    ensures RunsOn(first, first, cell, genesis, base, [])
  {
    assert first == first[cell := RowsOf(first, cell)];
  }

  lemma RunsNext(first: map<int, CellRows>, cells: map<int, CellRows>, after: map<int, CellRows>, cell: nat, genesis: TxID, base: nat,
                 verdicts: seq<Decision>, d: Decision)
    requires RunsOn(first, cells, cell, genesis, base, verdicts) && d.Resume?
    requires forall k :: k != cell ==> (k in after <==> k in cells) && (k in after ==> after[k] == cells[k])
    requires RowsOf(after, cell) == Retracted(RowsOf(cells, cell), genesis) && Considered(Classify(RowsOf(cells, cell), genesis))
    ensures RunsOn(first, after, cell, genesis, base, verdicts + [d])
  {
    OneFewer(RowsOf(cells, cell), genesis, base);
    OnlyRows(after, cells, cell, RowsOf(after, cell));
  }

  // ---- one refusal that names the spender --------------------------------------------------------------

  /** A failure that names t as the spender of its input, where no row names t, the lookups are answered and t
      is the tip's own accepted next transition: whatever else the rows hold above the tip, what is decided is
      to adopt t, and what is written is one row that names it. */
  lemma NamedSpenderIsAdopted(w: World, cells: map<int, CellRows>, cell: nat, p: CellPosition, t: TxID, d: Decision)
    requires w.e.c.Valid() && IsOffered(w, cells, cell, p) && IsDecision(w.e.c, AgainstRecord(w.s, cells), p, true, d)
    requires p.finding.rejected && !p.finding.unknown && !("chain: not broadcast: " <= p.finding.rejectionErr)
    requires Rejections.SpentBy(p.finding.rejectionErr) == Some(t) && w.e.c.RowFits(p.tip.value.row)
    requires w.s.onRecord(t) != LookupFailed && IsAcceptedNext(w.e.c, w.s, p.tip.value, t)
    requires forall k, g :: k in cells && g in cells[k] ==> cells[k][g].txid != t
    ensures var tip := p.tip.value;
            var next := CellChain(tip.cell, t, 0, tip.satoshis, tip.generation + 1, Automaton.StepRow(w.e.c.rule, tip.row));
            d == Adopt(next, [next])
            && Applied(RowsOf(cells, cell), p.finding, d) == RowsOf(cells, cell)[tip.generation + 1 := Record(t, Broadcast, "")]
  {
    NotRecorded(w.e.c, w.s, cells, p.tip.value, t);
    SpentRefusal(w.e.c, AgainstRecord(w.s, cells), p.tip.value, RefusalOf(p.finding), true, t);
    OneStepWritten(RowsOf(cells, cell), d.tip, d.steps);
  }

  lemma NotRecorded(c: Compiled, s: Sources, cells: map<int, CellRows>, tip: CellChain, t: TxID)
    requires c.Valid() && s.onRecord(t) != LookupFailed && IsAcceptedNext(c, s, tip, t)
    requires forall k, g :: k in cells && g in cells[k] ==> cells[k][g].txid != t
    ensures t != "" && AgainstRecord(s, cells).onRecord(t) == NotOnRecord && IsAcceptedNext(c, AgainstRecord(s, cells), tip, t)
  {}

  /** And a row that names t, anywhere in the store, rules it out, as does a lookup that fails. */
  lemma RecordedSpenderIsNot(w: World, cells: map<int, CellRows>, cell: nat, p: CellPosition, t: TxID, d: Decision)
    requires w.e.c.Valid() && IsOffered(w, cells, cell, p) && IsDecision(w.e.c, AgainstRecord(w.s, cells), p, true, d)
    requires p.finding.rejected && !p.finding.unknown && Rejections.SpentBy(p.finding.rejectionErr) == Some(t) && t != ""
    requires w.s.onRecord(t) == LookupFailed || exists k, g :: k in cells && g in cells[k] && cells[k][g].txid == t
    ensures !d.Adopt?
  {
    assert AgainstRecord(w.s, cells).onRecord(t) != NotOnRecord;
    PermissionNeedsEvidence(w.e.c, AgainstRecord(w.s, cells), p.tip.value, RefusalOf(p.finding), true);
  }

  // ---- one plain refusal ------------------------------------------------------------------------------

  /** One failure, right above the newest row the network was told about and with nothing else above it, in words
      that say neither that an input was spent nor that nothing was signed. */
  ghost predicate IsOneRefusal(rows: CellRows, base: nat) {
    && base in rows && rows[base].status in {Broadcast, Seen, Mined} && rows[base].txid != ""
    && base + 1 in rows && rows[base + 1].status == Failed && rows[base + 1].txid != ""
    && !("chain: not broadcast: " <= rows[base + 1].err)
    && !Rejections.Contains(Rejections.Lower(rows[base + 1].err), "utxo_spent")
    && forall g :: g in rows ==> g <= base + 1
  }

  /** The store can be derived, and puts the cell at tip. */
  ghost predicate IsDerivedAt(e: Evidence, cells: map<int, CellRows>, cell: nat, tip: CellChain)
    requires e.c.Valid()
  {
    exists ps: seq<CellPosition> :: IsDerivation(e, cells, e.c.cells, ps) && cell < |ps| && ps[cell].tip == Some(tip)
  }

  ghost predicate IsSpentBy(s: Sources, t: TxID, tip: CellChain) {
    exists tx :: s.raw(t) == Bytes(Some(tx)) && tx.id == t && Tips.Spends(tip.txid, tip.vout) in tx.inputs
  }

  /** The refused transaction's bytes spend the tip, the retraction can be written, and the store can be
      derived before and after it. */
  ghost predicate IsPlainlyRefused(world: nat -> World, writes: nat -> nat -> WriteOutcome, cells: map<int, CellRows>, cell: nat,
                                   base: nat, tip: CellChain)
    requires forall i :: world(i).e.c.Valid()
  {
    var rows := RowsOf(cells, cell);
    && IsOneRefusal(rows, base) && IsSpentBy(world(0).s, rows[base + 1].txid, tip) && writes(0)(0).Written?
    && IsDerivedAt(world(0).e, cells, cell, tip) && IsDerivedAt(world(1).e, cells[cell := rows - {base + 1}], cell, tip)
  }

  lemma OneRefusalRows(rows: CellRows, genesis: TxID, base: nat)
    requires IsOneRefusal(rows, base)
    ensures Repairable(rows, base) && Above(rows, base, Failed) == {base + 1}
    ensures var f := Classify(rows, genesis);
            f.rejected && !f.unknown && f.claim == Some(Claim(base, rows[base].txid)) && f.rejectedAt == base + 1
            && RefusalOf(f) == Refusal(base + 1, rows[base + 1].txid, rows[base + 1].err)
  {
    assert IsBase(rows, base);
    assert AllAbove(rows, base) == {base + 1} && Above(rows, base, Failed) == {base + 1} && Above(rows, base, Attempting) == {};
    RepairableFinding(rows, genesis, base, Classify(rows, genesis));
    var b := RejectedIsRepairable(rows, genesis, Classify(rows, genesis));
  }

  lemma OneRefusalGone(rows: CellRows, genesis: TxID, base: nat)
    requires IsOneRefusal(rows, base)
    ensures AfterResumes(rows, genesis, 1) == rows - {base + 1}
    ensures !Considered(Classify(rows - {base + 1}, genesis))
  {
    OneRefusalRows(rows, genesis, base);
    assert AfterResumes(rows, genesis, 0) == rows;
    RetractOne(rows, base, base + 1);
    RepairableFinding(rows - {base + 1}, genesis, base, Classify(rows - {base + 1}, genesis));
  }

  lemma DerivedTipIs(e: Evidence, cells: map<int, CellRows>, cell: nat, tip: CellChain, p: CellPosition)
    requires e.c.Valid() && cell < e.c.cells && IsDerivedAt(e, cells, cell, tip) && IsPosition(e, RowsOf(cells, cell), cell, p)
    ensures p.tip == Some(tip)
  {
    var ps: seq<CellPosition> :| IsDerivation(e, cells, e.c.cells, ps) && cell < |ps| && ps[cell].tip == Some(tip);
    assert PlacedAt(e, cells, cell, ps[cell]);
  }

  lemma OneRefusalResumes(w: World, cells: map<int, CellRows>, cell: nat, base: nat, tip: CellChain, p: CellPosition, d: Decision)
    requires w.e.c.Valid() && cell < w.e.c.cells && IsOneRefusal(RowsOf(cells, cell), base)
    requires IsSpentBy(w.s, RowsOf(cells, cell)[base + 1].txid, tip) && IsDerivedAt(w.e, cells, cell, tip)
    requires IsOffered(w, cells, cell, p) && IsDecision(w.e.c, AgainstRecord(w.s, cells), p, true, d)
    ensures d.Resume?
  {
    var rows := RowsOf(cells, cell);
    DerivedTipIs(w.e, cells, cell, tip, p);
    PositionDecidable(w.e, rows, cell, p);
    OneRefusalRows(rows, w.e.genesis, base);
    UnexplainedRefusal(w.e.c, AgainstRecord(w.s, cells), tip, RefusalOf(p.finding), true);
  }

  lemma RefusedIsLetRun(w: World, writes: nat -> WriteOutcome, cells: map<int, CellRows>, cell: nat, base: nat, tip: CellChain)
    requires w.e.c.Valid() && cell < w.e.c.cells && IsOneRefusal(RowsOf(cells, cell), base) && writes(0).Written?
    requires IsSpentBy(w.s, RowsOf(cells, cell)[base + 1].txid, tip) && IsDerivedAt(w.e, cells, cell, tip)
    ensures IsLetRun(w, writes, cells, cell)
  {
    forall p, d | IsOffered(w, cells, cell, p) && IsDecision(w.e.c, AgainstRecord(w.s, cells), p, true, d) ensures d.Resume? {
      OneRefusalResumes(w, cells, cell, base, tip, p, d);
    }
  }

  lemma ClearIsLetRun(w: World, writes: nat -> WriteOutcome, cells: map<int, CellRows>, cell: nat, tip: CellChain)
    requires w.e.c.Valid() && IsDerivedAt(w.e, cells, cell, tip) && !Considered(Classify(RowsOf(cells, cell), w.e.genesis))
    ensures IsLetRun(w, writes, cells, cell)
  {}

  lemma OneRefusalStores(cells: map<int, CellRows>, cell: nat, genesis: TxID, base: nat)
    requires IsOneRefusal(RowsOf(cells, cell), base)
    ensures StoreAfter(cells, cell, genesis, 0) == cells
    ensures var after := cells[cell := RowsOf(cells, cell) - {base + 1}];
            StoreAfter(cells, cell, genesis, 1) == after && !Considered(Classify(RowsOf(after, cell), genesis))
  {
    OneRefusalGone(RowsOf(cells, cell), genesis, base);
    assert cells == cells[cell := RowsOf(cells, cell)];
  }

  lemma LetRunOnce(world: nat -> World, writes: nat -> nat -> WriteOutcome, cells: map<int, CellRows>, cell: nat, genesis: TxID, base: nat)
    requires (forall i :: world(i).e.c.Valid()) && |Above(RowsOf(cells, cell), base, Failed)| == 1
    requires IsLetRun(world(0), writes(0), StoreAfter(cells, cell, genesis, 0), cell)
    requires IsLetRun(world(1), writes(1), StoreAfter(cells, cell, genesis, 1), cell)
    ensures IsLetRunThrough(world, writes, cells, cell, genesis, base)
  {
    forall i: nat | i <= 1 ensures IsLetRun(world(i), writes(i), StoreAfter(cells, cell, genesis, i), cell) {
      if i == 0 {} else { assert i == 1; }
    }
  }

  lemma PlainlyRefusedIsLetRun(world: nat -> World, writes: nat -> nat -> WriteOutcome, cells: map<int, CellRows>, cell: nat,
                               genesis: TxID, base: nat, tip: CellChain)
    requires forall i :: world(i).e.c.Valid() && world(i).e.genesis == genesis && cell < world(i).e.c.cells
    requires IsPlainlyRefused(world, writes, cells, cell, base, tip)
    ensures Repairable(RowsOf(cells, cell), base) && IsLetRunThrough(world, writes, cells, cell, genesis, base)
  {
    OneRefusalRows(RowsOf(cells, cell), genesis, base);
    OneRefusalStores(cells, cell, genesis, base);
    RefusedIsLetRun(world(0), writes(0), cells, cell, base, tip);
    ClearIsLetRun(world(1), writes(1), StoreAfter(cells, cell, genesis, 1), cell, tip);
    LetRunOnce(world, writes, cells, cell, genesis, base);
  }

  lemma PlainlyRefusedEnds(world: nat -> World, writes: nat -> nat -> WriteOutcome, cells: map<int, CellRows>, cell: nat, genesis: TxID,
                           base: nat, tip: CellChain, verdicts: seq<Decision>, rows: CellRows, at: Option<CellChain>)
    requires forall i :: world(i).e.c.Valid() && world(i).e.genesis == genesis && cell < world(i).e.c.cells
    requires IsPlainlyRefused(world, writes, cells, cell, base, tip)
    requires IsReleased(cells, rows, cell, genesis, base, verdicts, Cleared, false)
    requires RunsFromRecord(world(|verdicts|), rows, cell, at)
    ensures at == Some(tip) && rows == RowsOf(cells, cell) - {base + 1}
  {
    OneRefusalRows(RowsOf(cells, cell), genesis, base);
    OneRefusalGone(RowsOf(cells, cell), genesis, base);
    var after := cells[cell := rows];
    assert RowsOf(after, cell) == rows;
    DerivedTipIs(world(1).e, after, cell, tip, CellPosition(at, Classify(rows, genesis)));
  }

  /** One more pass, and what is known after it of all of them. */
  method NextPass(engine: Engine, store: Store, cell: nat, w: World, writes: nat -> WriteOutcome,
                  ghost start: CellRows, ghost verdicts: seq<Decision>)
    returns (out: Outcome, d: Option<Decision>)
    requires w.e.c.Valid() && cell < |engine.tips| == w.e.c.cells && TipKept(start, store.Rows(cell), w.e.genesis)
    requires AllResumes(verdicts) ==> CountedDown(start, store.Rows(cell), |verdicts|)
    modifies engine, store
    ensures store.OtherCellsKept(old(store.cells), cell) && engine.OthersKept(cell)
    ensures TipKept(start, store.Rows(cell), w.e.genesis)
    ensures d.Some? && AllResumes(verdicts + [d.value]) ==> CountedDown(start, store.Rows(cell), |verdicts| + 1)
    ensures d.None? ==> ReleasedByResumes(start, verdicts, out, cell !in engine.halted)
    ensures d.None? && cell !in engine.halted ==> out == Cleared && RunsFromRecord(w, store.Rows(cell), cell, engine.tips[cell])
    ensures forall first, base ::
              RunsOn(first, old(store.cells), cell, w.e.genesis, base, verdicts) && IsLetRun(w, writes, old(store.cells), cell) ==>
                if d.Some? then RunsOn(first, store.cells, cell, w.e.genesis, base, verdicts + [d.value])
                else IsReleased(first, store.Rows(cell), cell, w.e.genesis, base, verdicts, out, cell in engine.halted)
  {
    ghost var before := store.cells;
    out, d := RepairPass(engine, store, cell, w, writes);
    forall first, base | RunsOn(first, before, cell, w.e.genesis, base, verdicts) && IsLetRun(w, writes, before, cell)
      ensures if d.Some? then RunsOn(first, store.cells, cell, w.e.genesis, base, verdicts + [d.value])
              else IsReleased(first, store.Rows(cell), cell, w.e.genesis, base, verdicts, out, cell in engine.halted)
    {
      LetRunPass(w, writes, before, cell, base, d, out, store.Rows(cell));
      if d.Some? {
        PassIsConsidered(w, before, cell, d.value, store.Rows(cell));
        RunsNext(first, before, store.cells, cell, w.e.genesis, base, verdicts, d.value);
      } else {
        RepairableFinding(store.Rows(cell), w.e.genesis, base, Classify(store.Rows(cell), w.e.genesis));
      }
    }
    AfterPass(start, w, before, cell, verdicts, d, out, store.Rows(cell));
    if d.None? && out != Unwritten {
      ReleasedAfter(start, store.Rows(cell), w.e.genesis, verdicts, out, cell !in engine.halted);
    }
  }

  /** The loop of passes. */
  method RunPasses(engine: Engine, store: Store, cell: nat, c: Compiled, genesis: TxID, world: nat -> World,
                    writes: nat -> nat -> WriteOutcome)
    returns (out: Outcome, ghost verdicts: seq<Decision>)
    requires c.Valid() && cell < |engine.tips| == c.cells
    requires forall i :: world(i).e.c == c && world(i).e.genesis == genesis
    modifies engine, store
    ensures store.OtherCellsKept(old(store.cells), cell) && engine.OthersKept(cell) && cell !in engine.needsRepair
    ensures cell !in engine.halted ==>
              out == Cleared && RunsFromRecord(world(|verdicts|), store.Rows(cell), cell, engine.tips[cell])
    ensures ReleasedByResumes(old(store.Rows(cell)), verdicts, out, cell !in engine.halted)
    ensures forall base ::
              Repairable(old(store.Rows(cell)), base) && IsLetRunThrough(world, writes, old(store.cells), cell, genesis, base) ==>
                IsReleased(old(store.cells), store.Rows(cell), cell, genesis, base, verdicts, out, cell in engine.halted)
    ensures TipKept(old(store.Rows(cell)), store.Rows(cell), genesis)
  {
    engine.needsRepair := engine.needsRepair - {cell};
    verdicts := [];
    ghost var start, first := store.Rows(cell), store.cells;
    forall base | Repairable(start, base) ensures RunsOn(first, first, cell, genesis, base, []) { RunsFirst(first, cell, genesis, base); }
    var pass := 0;
    while pass <= MAX_WRECKAGE
      invariant pass <= MAX_WRECKAGE + 1 && |verdicts| == pass
      invariant store.OtherCellsKept(old(store.cells), cell) && engine.OthersKept(cell) && cell !in engine.needsRepair
      invariant AllResumes(verdicts) ==> CountedDown(start, store.Rows(cell), |verdicts|)
      invariant TipKept(start, store.Rows(cell), genesis)
      invariant forall base :: Repairable(start, base) && IsLetRunThrough(world, writes, first, cell, genesis, base) ==>
                  RunsOn(first, store.cells, cell, genesis, base, verdicts)
    {
      var d;
      out, d := NextPass(engine, store, cell, world(pass), writes(pass), start, verdicts);
      if d.None? { return; }
      verdicts := verdicts + [d.value];
      pass := pass + 1;
    }
    engine.HaltRepair(cell);
    out := StillRefused;
    ReleasedAfter(start, store.Rows(cell), genesis, verdicts, out, false);
  }

  /** Rebuilds one cell after a refusal, re-deriving from the store before every pass. */
  method RepairCell(engine: Engine, store: Store, cell: nat, c: Compiled, genesis: TxID, world: nat -> World,
                    writes: nat -> nat -> WriteOutcome)
    returns (out: Outcome, ghost verdicts: seq<Decision>)
    requires c.Valid() && cell < |engine.tips| == c.cells
    requires forall i :: world(i).e.c == c && world(i).e.genesis == genesis
    modifies engine, store
    ensures store.OtherCellsKept(old(store.cells), cell) && engine.OthersKept(cell) && cell !in engine.needsRepair
    // Released only at a position the rows and bytes bear out, with nothing uncertain above it.
    ensures cell !in engine.halted ==>
              out == Cleared && RunsFromRecord(world(|verdicts|), store.Rows(cell), cell, engine.tips[cell])
    ensures ReleasedByResumes(old(store.Rows(cell)), verdicts, out, cell !in engine.halted)
    // A repair that is let run releases any cell it can be asked about, one pass for each failure and one more.
    ensures forall base ::
              Repairable(old(store.Rows(cell)), base) && IsLetRunThrough(world, writes, old(store.cells), cell, genesis, base) ==>
                IsReleased(old(store.cells), store.Rows(cell), cell, genesis, base, verdicts, out, cell in engine.halted)
    // One plain refusal of a transaction that spends the tip is such a repair: the cell is back where it was.
    ensures forall base, tip :: IsPlainlyRefused(world, writes, old(store.cells), cell, base, tip) ==>
              && out == Cleared && cell !in engine.halted && engine.tips[cell] == Some(tip)
              && store.Rows(cell) == old(store.Rows(cell)) - {base + 1}
    // However it ends, and whatever could not be written, the recorded tip has not moved back.
    ensures TipKept(old(store.Rows(cell)), store.Rows(cell), genesis)
  {
    ghost var first := store.cells;
    out, verdicts := RunPasses(engine, store, cell, c, genesis, world, writes);
    forall base, tip | IsPlainlyRefused(world, writes, first, cell, base, tip)
      ensures out == Cleared && cell !in engine.halted && engine.tips[cell] == Some(tip)
      ensures store.Rows(cell) == RowsOf(first, cell) - {base + 1}
    {
      PlainlyRefusedIsLetRun(world, writes, first, cell, genesis, base, tip);
      PlainlyRefusedEnds(world, writes, first, cell, genesis, base, tip, verdicts, store.Rows(cell), engine.tips[cell]);
    }
  }
}
