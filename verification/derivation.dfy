/** Rebuilding every cell's position from the durable rows and the bytes of the transactions they name. */
module Derivation {
  import opened Wrappers
  import Automaton
  import opened History
  import Tips
  import CellScript

  /** How many rows per cell derivation reads before it digs. */
  const TIP_DEPTH: nat := 8

  /** How many failures may sit above a tip before the cell is a cascade nobody repairs. */
  const MAX_WRECKAGE: nat := 3

  /** The row a cell's tip was read off. */
  datatype Claim = Claim(generation: nat, txid: TxID)

  /** What the rows alone say about one cell. No claim means no tip can be derived. */
  datatype Finding = Finding(
    claim: Option<Claim>, halted: bool,
    unknown: bool, attempted: nat,
    rejected: bool, rejectedAt: nat, rejectionErr: string, rejectionTxID: TxID)

  function Released(claim: Option<Claim>): Finding {
    Finding(claim, false, false, 0, false, 0, "", "")
  }

  // ---- the full-history meaning ---------------------------------------------------

  ghost function Above(rows: CellRows, base: nat, status: Status): set<nat> {
    set g | g in rows && g > base && rows[g].status == status
  }

  ghost function AllAbove(rows: CellRows, base: nat): set<nat> {
    set g | g in rows && g > base
  }

  /** base is the newest row of the whole history that settled. */
  ghost predicate IsBase(rows: CellRows, base: nat) {
    && base in rows && Settled(rows[base])
    && forall g :: g in rows && Settled(rows[g]) ==> g <= base
  }

  ghost predicate HasSettled(rows: CellRows) {
    exists g :: g in rows && Settled(rows[g])
  }

  ghost predicate IsLowest(s: set<nat>, m: nat) {
    m in s && forall g :: g in s ==> m <= g
  }

  lemma LowestExists(s: set<nat>) returns (m: nat)
    requires s != {}
    ensures IsLowest(s, m)
    decreases |s|
  {
    m :| m in s;
    var rest := s - {m};
    assert forall g :: g in s ==> g == m || g in rest;
    if rest != {} {
      var k := LowestExists(rest);
      if k < m { m := k; }
    }
  }

  /** The verdict of a scan of every row, given the base it finds. */
  ghost predicate IsFindingAbove(rows: CellRows, base: nat, f: Finding)
    requires base in rows
  {
    var failed := Above(rows, base, Failed);
    var attempts := Above(rows, base, Attempting);
    var buried := |AllAbove(rows, base)| >= TIP_DEPTH;
    && f.claim == Some(Claim(base, rows[base].txid))
    && f.halted == (failed != {} || attempts != {})
    && f.unknown == (attempts != {} && (if buried then failed == {} else |failed| <= MAX_WRECKAGE))
    && f.attempted == (if f.unknown then base + 1 else 0)
    && f.rejected == (!buried && 1 <= |failed| <= MAX_WRECKAGE)
    && (if f.rejected then
          && IsLowest(failed, f.rejectedAt)
          && f.rejectionErr == rows[f.rejectedAt].err && f.rejectionTxID == rows[f.rejectedAt].txid
        else f.rejectedAt == 0 && f.rejectionErr == "" && f.rejectionTxID == "")
  }

  /** What a scan of one cell's whole history concludes. */
  ghost predicate IsFinding(rows: CellRows, genesis: TxID, f: Finding) {
    if rows == map[] then f == Released(Some(Claim(0, genesis)))
    else if !HasSettled(rows) then f == Released(None).(halted := true)
    else exists base :: IsBase(rows, base) && IsFindingAbove(rows, base, f)
  }

  lemma FindingUnique(rows: CellRows, genesis: TxID, f: Finding, h: Finding)
    requires IsFinding(rows, genesis, f) && IsFinding(rows, genesis, h)
    ensures f == h
  {}

  lemma BaseExists(rows: CellRows) returns (base: nat)
    requires HasSettled(rows)
    ensures IsBase(rows, base)
  {
    base :| base in rows && Settled(rows[base]);
    var above := set g | g in rows && Settled(rows[g]) && g > base;
    while above != {}
      invariant base in rows && Settled(rows[base])
      invariant above == set g | g in rows && Settled(rows[g]) && g > base
      decreases above
    {
      base :| base in above;
      above := set g | g in above && g > base;
    }
    assert forall g :: g in rows && Settled(rows[g]) && g > base ==> g in above;
  }

  lemma FindingExists(rows: CellRows, genesis: TxID) returns (f: Finding)
    ensures IsFinding(rows, genesis, f)
  {
    if rows == map[] { return Released(Some(Claim(0, genesis))); }
    if !HasSettled(rows) { return Released(None).(halted := true); }
    var base := BaseExists(rows);
    var failed := Above(rows, base, Failed);
    var attempts := Above(rows, base, Attempting);
    var buried := |AllAbove(rows, base)| >= TIP_DEPTH;
    var unknown := attempts != {} && (if buried then failed == {} else |failed| <= MAX_WRECKAGE);
    f := Released(Some(Claim(base, rows[base].txid)))
      .(halted := failed != {} || attempts != {}, unknown := unknown, attempted := if unknown then base + 1 else 0);
    if !buried && 1 <= |failed| <= MAX_WRECKAGE {
      var m := LowestExists(failed);
      f := f.(rejected := true, rejectedAt := m, rejectionErr := rows[m].err, rejectionTxID := rows[m].txid);
    }
    assert IsFindingAbove(rows, base, f);
  }

  ghost function Classify(rows: CellRows, genesis: TxID): (f: Finding)
    ensures IsFinding(rows, genesis, f)
  {
    assert exists f :: IsFinding(rows, genesis, f) by { var f := FindingExists(rows, genesis); }
    var f :| IsFinding(rows, genesis, f); f
  }

  lemma BaseClaims(rows: CellRows, genesis: TxID, base: nat)
    requires IsBase(rows, base)
    ensures Classify(rows, genesis).claim == Some(Claim(base, rows[base].txid))
  {
    var f := Classify(rows, genesis);
    assert HasSettled(rows) && rows != map[];
    var b :| IsBase(rows, b) && IsFindingAbove(rows, b, f);
  }

  /** The finding in numbers. Over the newest row the network was told about: anything unsettled above it halts
      the cell; up to three failures are offered to recovery, the lowest of them by name, unless eight rows lie
      above; and an attempt is offered unless more than three failures lie beside it, or, that deep, any. */
  lemma FindingInNumbers(rows: CellRows, genesis: TxID, base: nat)
    requires base in rows && rows[base].status in {Broadcast, Seen, Mined} && rows[base].txid != ""
    requires forall g :: g in rows && g > base && rows[g].txid != "" ==> rows[g].status in {Attempting, Failed}
    ensures var f := Classify(rows, genesis);
            var above := set g | g in rows && g > base;
            var failed := set g | g in above && rows[g].status == Failed;
            var attempts := set g | g in above && rows[g].status == Attempting;
            && f.claim == Some(Claim(base, rows[base].txid)) && (f.halted <==> failed + attempts != {})
            && (f.rejected <==> 1 <= |failed| <= 3 && |above| < 8)
            && (f.unknown <==> attempts != {} && if |above| < 8 then |failed| <= 3 else failed == {})
            && (f.unknown ==> f.attempted == base + 1)
            && (f.rejected ==> && f.rejectedAt in failed && (forall g :: g in failed ==> f.rejectedAt <= g)
                               && f.rejectionErr == rows[f.rejectedAt].err && f.rejectionTxID == rows[f.rejectedAt].txid)
  {
    var f := Classify(rows, genesis);
    assert IsBase(rows, base) && rows != map[];
    var b :| IsBase(rows, b) && IsFindingAbove(rows, b, f);
    var above := set g | g in rows && g > base;
    assert AllAbove(rows, base) == above;
    assert Above(rows, base, Failed) == set g | g in above && rows[g].status == Failed;
    assert Above(rows, base, Attempting) == set g | g in above && rows[g].status == Attempting;
  }

  /** With rows but none the network was told about, there is no tip, and the cell stays stopped. */
  lemma NothingSettledHalts(rows: CellRows, genesis: TxID)
    requires rows != map[] && forall g :: g in rows ==> rows[g].status in {Attempting, Failed} || rows[g].txid == ""
    ensures Classify(rows, genesis) == Finding(None, true, false, 0, false, 0, "", "")
  {
    assert !HasSettled(rows);
  }

  /** A deployment's rows before anything has moved: its genesis, which somebody else broadcast. */
  function Seeded(genesis: TxID): CellRows {
    map[0 := Record(genesis, Seen, "")]
  }

  lemma SeededDerives(genesis: TxID)
    requires genesis != ""
    ensures Classify(Seeded(genesis), genesis) == Released(Some(Claim(0, genesis)))
  {
    var rows := Seeded(genesis);
    assert IsBase(rows, 0);
    var base: nat :| IsBase(rows, base) && IsFindingAbove(rows, base, Classify(rows, genesis));
    assert AllAbove(rows, 0) == {};
    assert forall s :: Above(rows, 0, s) <= AllAbove(rows, 0);
  }

  // ---- the windowed derivation -------------------------------------------------------

  /** The generations of the first n rows of a window that are in one of the statuses. */
  ghost function GensWith(w: seq<Tip>, n: nat, statuses: set<Status>): set<nat>
    requires n <= |w|
  {
    if n == 0 then {}
    else GensWith(w, n - 1, statuses) + if w[n - 1].record.status in statuses then {w[n - 1].generation} else {}
  }

  lemma {:induction false} GensWithMember(w: seq<Tip>, n: nat, statuses: set<Status>, g: nat)
    requires n <= |w|
    ensures g in GensWith(w, n, statuses)
       <==> exists i :: 0 <= i < n && w[i].generation == g && w[i].record.status in statuses
  {
    if n > 0 {
      GensWithMember(w, n - 1, statuses, g);
    }
  }

  lemma GensWithNext(w: seq<Tip>, n: nat, statuses: set<Status>)
    requires n < |w| && Descending(w)
    ensures var before, after, g := GensWith(w, n, statuses), GensWith(w, n + 1, statuses), w[n].generation;
            if w[n].record.status in statuses
            then after == before + {g} && |after| == |before| + 1 && IsLowest(after, g)
            else after == before
  {
    forall h | h in GensWith(w, n, statuses) ensures h > w[n].generation {
      GensWithMember(w, n, statuses, h);
    }
  }

  lemma {:induction false} GensCount(w: seq<Tip>, n: nat)
    requires n <= |w| && Descending(w)
    ensures |GensWith(w, n, ANY)| == n
  {
    if n > 0 {
      GensCount(w, n - 1);
      GensWithNext(w, n - 1, ANY);
      AnyStatus(w[n - 1].record.status);
    }
  }

  lemma AnyStatus(s: Status)
    ensures s in ANY
  {
    match s case Attempting => case Broadcast => case Seen => case Mined => case Failed =>
  }

  lemma WindowCovers(rows: CellRows, w: seq<Tip>, g: nat)
    requires IsWindow(rows, TIP_DEPTH, w) && g in rows
    ensures OlderThanAll(g, w) || exists i :: 0 <= i < |w| && w[i] == Tip(g, rows[g])
  {
    if !OlderThanAll(g, w) {
      assert Lists(w, g);
    }
  }

  /** g is the generation of one of the first k rows of the window. */
  ghost predicate ListedBefore(rows: CellRows, w: seq<Tip>, k: nat, g: nat) {
    exists i :: 0 <= i < k <= |w| && w[i].generation == g && g in rows && w[i].record == rows[g]
  }

  lemma AboveIsListed(rows: CellRows, w: seq<Tip>, k: nat, g: nat)
    requires IsWindow(rows, TIP_DEPTH, w) && k < |w|
    ensures g in AllAbove(rows, w[k].generation) <==> ListedBefore(rows, w, k, g)
  {
    if g in AllAbove(rows, w[k].generation) { WindowCovers(rows, w, g); }
  }

  lemma AboveIsGens(rows: CellRows, w: seq<Tip>, k: nat, statuses: set<Status>, g: nat)
    requires IsWindow(rows, TIP_DEPTH, w) && k < |w|
    ensures g in AllAbove(rows, w[k].generation) && rows[g].status in statuses <==> g in GensWith(w, k, statuses)
  {
    AboveIsListed(rows, w, k, g);
    GensWithMember(w, k, statuses, g);
    if g in GensWith(w, k, statuses) {
      var i :| 0 <= i < k && w[i].generation == g && w[i].record.status in statuses;
      assert ListedBefore(rows, w, k, g);
    }
  }

  /** The base being inside the window is what makes counting inside the window exact. */
  lemma WindowSeesAllAbove(rows: CellRows, w: seq<Tip>, k: nat)
    requires IsWindow(rows, TIP_DEPTH, w) && k < |w|
    ensures forall g :: g in AllAbove(rows, w[k].generation) ==> ListedBefore(rows, w, k, g)
    ensures forall s :: Above(rows, w[k].generation, s) == GensWith(w, k, {s})
    ensures |AllAbove(rows, w[k].generation)| == k < TIP_DEPTH
  {
    var base := w[k].generation;
    forall g | g in AllAbove(rows, base) ensures ListedBefore(rows, w, k, g) { AboveIsListed(rows, w, k, g); }
    forall g ensures g in AllAbove(rows, base) <==> g in GensWith(w, k, ANY) {
      AboveIsGens(rows, w, k, ANY, g);
      if g in rows { AnyStatus(rows[g].status); }
    }
    assert AllAbove(rows, base) == GensWith(w, k, ANY);
    forall g, s ensures g in Above(rows, base, s) <==> g in GensWith(w, k, {s}) { AboveIsGens(rows, w, k, {s}, g); }
    GensCount(w, k);
  }

  /** A settled row the window misses lies under a full window of wreckage. */
  lemma MissedBaseIsBuried(rows: CellRows, w: seq<Tip>, base: nat)
    requires IsWindow(rows, TIP_DEPTH, w) && base in rows && OlderThanAll(base, w)
    ensures |AllAbove(rows, base)| >= TIP_DEPTH
  {
    GensCount(w, |w|);
    var gens := GensWith(w, |w|, ANY);
    forall g | g in gens ensures g in AllAbove(rows, base) { GensWithMember(w, |w|, ANY, g); }
    SubsetSize(gens, AllAbove(rows, base));
  }

  /** The newest row of the window that names a transaction the network was told about. */
  method NewestSettled(w: seq<Tip>) returns (found: bool, k: nat)
    ensures found ==> k < |w| && Settled(w[k].record) && forall i :: 0 <= i < k ==> !Settled(w[i].record)
    ensures !found ==> forall i :: 0 <= i < |w| ==> !Settled(w[i].record)
  {
    k := 0;
    while k < |w|
      invariant k <= |w|
      invariant forall i :: 0 <= i < k ==> !Settled(w[i].record)
    {
      if Settled(w[k].record) { return true, k; }
      k := k + 1;
    }
    found := false;
  }

  /** The one place a failure becomes something recovery may examine: not past MAX_WRECKAGE. */
  function NoteRejection(f: Finding, r: Tip, above: nat): Finding {
    if above > MAX_WRECKAGE then f.(halted := true)
    else f.(halted := true, rejected := true, rejectedAt := r.generation,
            rejectionErr := r.record.err, rejectionTxID := r.record.txid)
  }

  function NoteAttempt(f: Finding, base: nat): Finding {
    f.(halted := true, unknown := true, attempted := base + 1)
  }

  /** Reads at most TIP_DEPTH rows, and digs only when none of them settled; what it concludes is
      what a scan of the whole history concludes. */
  method ClassifyCell(rows: CellRows, genesis: TxID) returns (f: Finding)
    ensures IsFinding(rows, genesis, f)
  {
    var w := CellTips(rows, TIP_DEPTH);
    if |w| == 0 {
      assert forall g :: g in rows ==> Lists(w, g);
      return Released(Some(Claim(0, genesis)));
    }
    assert w[0].generation in rows;
    var found, k := NewestSettled(w);
    if found {
      f := ClassifyInWindow(rows, genesis, w, k);
    } else {
      f := ClassifyBuried(rows, genesis, w);
    }
  }

  /** The counts after the first i rows of the window. */
  ghost predicate Counted(w: seq<Tip>, i: nat, failures: nat, failed: Tip, attempts: nat) {
    && i <= |w|
    && failures == |GensWith(w, i, {Failed})| && attempts == |GensWith(w, i, {Attempting})|
    && (failures > 0 ==> failed in w && IsLowest(GensWith(w, i, {Failed}), failed.generation))
  }

  lemma CountOneMore(w: seq<Tip>, i: nat, failures: nat, failed: Tip, attempts: nat)
    requires Descending(w) && i < |w| && Counted(w, i, failures, failed, attempts)
    ensures w[i].record.status == Failed ==> Counted(w, i + 1, failures + 1, w[i], attempts)
    ensures w[i].record.status == Attempting ==> Counted(w, i + 1, failures, failed, attempts + 1)
    ensures w[i].record.status !in {Failed, Attempting} ==> Counted(w, i + 1, failures, failed, attempts)
  {
    GensWithNext(w, i, {Failed});
    GensWithNext(w, i, {Attempting});
  }

  /** Counts what sits above the base, newest first; failed is the lowest failure, the break itself. */
  method CountWreckage(w: seq<Tip>, k: nat) returns (failures: nat, failed: Tip, attempts: nat)
    requires Descending(w) && k < |w|
    ensures Counted(w, k, failures, failed, attempts)
  {
    failed := w[k];
    failures, attempts := 0, 0;
    var i := 0;
    assert GensWith(w, 0, {Failed}) == {} && GensWith(w, 0, {Attempting}) == {};
    while i < |w| && w[i].generation > w[k].generation
      invariant i <= k && Counted(w, i, failures, failed, attempts)
      decreases k - i
    {
      CountOneMore(w, i, failures, failed, attempts);
      var r := w[i];
      if r.record.status == Failed {
        failures, failed := failures + 1, r;
      } else if r.record.status == Attempting {
        attempts := attempts + 1;
      }
      i := i + 1;
    }
    assert i == k;
  }

  method ClassifyInWindow(rows: CellRows, genesis: TxID, w: seq<Tip>, k: nat) returns (f: Finding)
    requires IsWindow(rows, TIP_DEPTH, w) && k < |w| && Settled(w[k].record)
    requires forall i :: 0 <= i < k ==> !Settled(w[i].record)
    ensures IsFinding(rows, genesis, f)
  {
    var base := w[k];
    f := Released(Some(Claim(base.generation, base.record.txid)));
    var failures, failed, attempts := CountWreckage(w, k);
    WindowSeesAllAbove(rows, w, k);
    BaseInWindow(rows, w, k);
    if failures > 0 {
      f := NoteRejection(f, failed, failures);
    }
    if attempts > 0 && failures <= MAX_WRECKAGE {
      f := NoteAttempt(f, base.generation);
    }
    assert failures > 0 ==> failed.record == rows[failed.generation];
    assert IsFindingAbove(rows, base.generation, f);
  }

  lemma BaseInWindow(rows: CellRows, w: seq<Tip>, k: nat)
    requires IsWindow(rows, TIP_DEPTH, w) && k < |w| && Settled(w[k].record)
    requires forall i :: 0 <= i < k ==> !Settled(w[i].record)
    ensures IsBase(rows, w[k].generation)
  {
    WindowSeesAllAbove(rows, w, k);
    assert forall g :: g in rows && g > w[k].generation ==> g in AllAbove(rows, w[k].generation);
  }

  method ClassifyBuried(rows: CellRows, genesis: TxID, w: seq<Tip>) returns (f: Finding)
    requires IsWindow(rows, TIP_DEPTH, w) && rows != map[]
    requires forall i :: 0 <= i < |w| ==> !Settled(w[i].record)
    ensures IsFinding(rows, genesis, f)
  {
    var deep := FindDeepTip(rows);
    if deep.settled.None? {
      assert !HasSettled(rows) by {
        forall g | g in rows ensures !Settled(rows[g]) { assert !Qualifies(rows[g], true, SETTLED); }
      }
      return Released(None).(halted := true);
    }
    var base := deep.settled.value;
    f := Released(Some(Claim(base.generation, base.record.txid)));
    // A rejection is asked about first here: this deep, it is always part of a cascade.
    if deep.failed.Some? {
      f := f.(halted := true);
    } else if deep.attempt.Some? {
      f := NoteAttempt(f, base.generation);
    }
    ghost var b := base.generation;
    assert IsBase(rows, b) by {
      forall g | g in rows && Settled(rows[g]) ensures g <= b { assert Qualifies(rows[g], true, SETTLED); }
    }
    WindowCovers(rows, w, b);
    MissedBaseIsBuried(rows, w, b);
    if deep.failed.Some? { assert deep.failed.value.generation in Above(rows, b, Failed); }
    if deep.attempt.Some? { assert deep.attempt.value.generation in Above(rows, b, Attempting); }
    assert IsFindingAbove(rows, b, f);
  }

  // ---- all cells, and the bytes ---------------------------------------------------------

  /** What a derivation reads besides the rows: the deployment, the rows recorded when they were
      proved, and the bytes of any transaction. */
  datatype Evidence = Evidence(
    c: CellScript.Compiled, seed: Automaton.Row, genesis: TxID,
    recorded: map<nat, Automaton.Row>, raw: TxID -> Tips.RawAnswer)

  datatype CellPosition = CellPosition(tip: Option<Tips.CellChain>, finding: Finding)

  /** Where a claim becomes a tip: the recomputed row agrees with what was recorded when it was
      proved, and the named transaction's own bytes carry this cell's script for that row. */
  ghost predicate IsPosition(e: Evidence, rows: CellRows, cell: nat, p: CellPosition)
    requires e.c.Valid()
  {
    && p.finding == Classify(rows, e.genesis)
    && match p.finding.claim
       case None => p.tip == None
       case Some(claim) =>
         var row := Automaton.RowAt(e.c.rule, e.seed, claim.generation);
         && (claim.generation in e.recorded ==> e.recorded[claim.generation] == row)
         && p.tip == Tips.DerivedTip(e.c, cell, claim.generation, row, claim.txid, e.raw(claim.txid))
         && p.tip.Some?
  }

  ghost predicate IsDerivation(e: Evidence, cells: map<int, CellRows>, n: nat, out: seq<CellPosition>)
    requires e.c.Valid()
  {
    |out| == n && forall k: nat :: k < n ==> PlacedAt(e, cells, k, out[k])
  }

  ghost predicate PlacedAt(e: Evidence, cells: map<int, CellRows>, cell: nat, p: CellPosition)
    requires e.c.Valid()
  {
    IsPosition(e, RowsOf(cells, cell), cell, p)
  }

  ghost function UpTo<T>(wanted: set<nat>, g: nat, f: nat -> T): map<nat, T> {
    map h | h in wanted && h <= g :: f(h)
  }

  lemma UpToNext<T>(wanted: set<nat>, g: nat, f: nat -> T)
    ensures UpTo(wanted, g + 1, f) == if g + 1 in wanted then UpTo(wanted, g, f)[g + 1 := f(g + 1)] else UpTo(wanted, g, f)
  {}

  ghost function Orbit(rule: Automaton.Rule, seed: Automaton.Row): nat -> Automaton.Row {
    (g: nat) => Automaton.RowAt(rule, seed, g)
  }

  /** Rows are recomputed from the seed, one step at a time, and only the wanted ones are kept. */
  method ComputeRows(rule: Automaton.Rule, seed: Automaton.Row, wanted: set<nat>, highest: nat)
    returns (out: map<nat, Automaton.Row>)
    ensures out == UpTo(wanted, highest, Orbit(rule, seed))
  {
    var row := seed;
    out := if 0 in wanted then map[0 := row] else map[];
    var g := 0;
    while g < highest
      invariant g <= highest && row == Automaton.RowAt(rule, seed, g)
      invariant out == UpTo(wanted, g, Orbit(rule, seed))
    {
      UpToNext(wanted, g, Orbit(rule, seed));
      row := Automaton.Step(rule, row);
      g := g + 1;
      if g in wanted {
        out := out[g := row];
      }
    }
  }

  method WantedRows(findings: seq<Finding>) returns (wanted: set<nat>, highest: nat)
    ensures forall f :: f in findings && f.claim.Some? ==> f.claim.value.generation in wanted && f.claim.value.generation <= highest
  {
    wanted, highest := {}, 0;
    for k := 0 to |findings|
      invariant forall f :: f in findings[..k] && f.claim.Some? ==>
                  f.claim.value.generation in wanted && f.claim.value.generation <= highest
    {
      assert findings[..k + 1] == findings[..k] + [findings[k]];
      if findings[k].claim.Some? {
        var g := findings[k].claim.value.generation;
        wanted := wanted + {g};
        highest := if g > highest then g else highest;
      }
    }
    assert findings[..|findings|] == findings;
  }

  /** Turns one cell's finding into a position, if the bytes and the recorded row bear it out. */
  method Position(e: Evidence, rows: CellRows, row: Automaton.Row, cell: nat, f: Finding)
    returns (r: Option<CellPosition>)
    requires e.c.Valid() && f == Classify(rows, e.genesis)
    requires f.claim.Some? ==> row == Automaton.RowAt(e.c.rule, e.seed, f.claim.value.generation)
    ensures forall p :: r == Some(p) <==> IsPosition(e, rows, cell, p)
  {
    if f.claim.None? { return Some(CellPosition(None, f)); }
    var claim := f.claim.value;
    if claim.generation in e.recorded && e.recorded[claim.generation] != row { return None; }
    var tip := Tips.DeriveTip(e.c, cell, claim.generation, row, claim.txid, e.raw(claim.txid));
    if tip.None? { return None; }
    r := Some(CellPosition(tip, f));
  }

  // ---- a deployment that has not moved ---------------------------------------------------------

  /** A ring before its first transition: every cell has its genesis row or no row, the genesis transaction
      can be had, and the row recorded for generation 0, if any, is the seed. */
  ghost predicate IsUnmoved(e: Evidence, cells: map<int, CellRows>, tx: Tips.Tx)
    requires e.c.Valid()
  {
    && e.c.DistinctCodes() && e.c.RowFits(e.seed)
    && tx.id == e.genesis != "" && e.raw(e.genesis) == Tips.Bytes(Some(tx)) && Tips.IsGenesis(e.c, e.seed, tx.outputs)
    && (0 in e.recorded ==> e.recorded[0] == e.seed)
    && forall k: nat :: k < e.c.cells ==> RowsOf(cells, k) in {map[], map[0 := Record(e.genesis, Seen, "")]}
  }

  /** Every cell at its own output of the genesis transaction, running. */
  function AtGenesis(e: Evidence, tx: Tips.Tx): seq<CellPosition>
    requires e.c.cells <= |tx.outputs|
  {
    seq(e.c.cells, k requires 0 <= k < e.c.cells =>
      CellPosition(Some(Tips.CellChain(k, e.genesis, k, tx.outputs[k].satoshis, 0, e.seed)),
                   Finding(Some(Claim(0, e.genesis)), false, false, 0, false, 0, "", "")))
  }

  lemma UnmovedDerives(e: Evidence, cells: map<int, CellRows>, tx: Tips.Tx)
    requires e.c.Valid() && IsUnmoved(e, cells, tx)
    ensures IsDerivation(e, cells, e.c.cells, AtGenesis(e, tx))
  {
    var out := AtGenesis(e, tx);
    Tips.GenesisDerives(e.c, e.seed, tx, e.raw(e.genesis));
    SeededDerives(e.genesis);
    forall k: nat | k < e.c.cells ensures PlacedAt(e, cells, k, out[k]) {
      assert Tips.DerivesGenesis(e.c, e.seed, tx, e.raw(e.genesis), k);
      assert IsFinding(map[], e.genesis, Classify(map[], e.genesis));
      assert RowsOf(cells, k) == map[] || RowsOf(cells, k) == Seeded(e.genesis);
    }
  }

  /** A settled row with nothing settled above it, whose transaction cannot be had by its name or whose
      generation was recorded with another row than the seed leads to. */
  ghost predicate IsContradicted(e: Evidence, rows: CellRows, g: nat) {
    && g in rows && rows[g].status in {Broadcast, Seen, Mined} && rows[g].txid != ""
    && (forall h :: h in rows && h > g && rows[h].txid != "" ==> rows[h].status in {Attempting, Failed})
    && (|| (g in e.recorded && e.recorded[g] != Automaton.RowAt(e.c.rule, e.seed, g))
        || e.raw(rows[g].txid) == Tips.Unavailable || e.raw(rows[g].txid) == Tips.Bytes(None)
        || e.raw(rows[g].txid).parsed.value.id != rows[g].txid)
  }

  lemma ContradictedIsRefused(e: Evidence, cells: map<int, CellRows>, k: nat, g: nat, out: seq<CellPosition>)
    requires e.c.Valid() && k < e.c.cells && IsContradicted(e, RowsOf(cells, k), g)
    ensures !IsDerivation(e, cells, e.c.cells, out)
  {
    var rows := RowsOf(cells, k);
    assert IsBase(rows, g) by {
      forall h | h in rows && h > g ensures !Settled(rows[h]) {}
    }
    if IsDerivation(e, cells, e.c.cells, out) {
      assert PlacedAt(e, cells, k, out[k]);
      PlacedIsBorneOut(e, rows, k, g, out[k]);
    }
  }

  lemma PlacedIsBorneOut(e: Evidence, rows: CellRows, k: nat, g: nat, p: CellPosition)
    requires e.c.Valid() && IsPosition(e, rows, k, p) && IsBase(rows, g)
    ensures g in e.recorded ==> e.recorded[g] == Automaton.RowAt(e.c.rule, e.seed, g)
    ensures Tips.ParseTip(rows[g].txid, e.raw(rows[g].txid)).Some?
  {
    BaseClaims(rows, e.genesis, g);
    var row := Automaton.RowAt(e.c.rule, e.seed, g);
    assert Tips.IsDerivedTip(e.c, k, g, row, rows[g].txid, e.raw(rows[g].txid), p.tip.value);
  }

  /** Rebuilds every cell's position, or nothing at all: one disagreement anywhere refuses the lot. */
  method DeriveTips(e: Evidence, store: Store)
    returns (r: Option<seq<CellPosition>>)
    requires e.c.Valid()
    ensures forall out :: r == Some(out) <==>
              IsDerivation(e, store.cells, e.c.cells, out)
    // A ring that has not moved is put at its genesis, one output a cell, and runs.
    ensures forall tx :: IsUnmoved(e, store.cells, tx) ==> r == Some(AtGenesis(e, tx))
    ensures forall k: nat, g :: k < e.c.cells && IsContradicted(e, store.Rows(k), g) ==> r == None
  {
    forall k: nat, g, out | k < e.c.cells && IsContradicted(e, store.Rows(k), g) ensures !IsDerivation(e, store.cells, e.c.cells, out) {
      ContradictedIsRefused(e, store.cells, k, g, out);
    }
    forall tx | IsUnmoved(e, store.cells, tx) ensures IsDerivation(e, store.cells, e.c.cells, AtGenesis(e, tx)) {
      UnmovedDerives(e, store.cells, tx);
    }
    var findings := ClassifyAll(store, e.genesis, e.c.cells);
    var wanted, highest := WantedRows(findings);
    var rows := ComputeRows(e.c.rule, e.seed, wanted, highest);
    var out: seq<CellPosition> := [];
    for k := 0 to e.c.cells
      invariant forall other :: other == out <==> IsDerivation(e, store.cells, k, other)
    {
      var f := findings[k];
      assert f in findings;
      var row := if f.claim.Some? then rows[f.claim.value.generation] else e.seed;
      var p := Position(e, store.Rows(k), row, k, f);
      if p.None? {
        NoDerivation(e, store.cells, store.Rows(k), k, e.c.cells);
        return None;
      }
      OneMorePosition(e, store.cells, store.Rows(k), k, k + 1, out, p.value);
      out := out + [p.value];
    }
    r := Some(out);
  }

  lemma NoDerivation(e: Evidence, cells: map<int, CellRows>, rows: CellRows, k: nat, n: nat)
    requires e.c.Valid() && k < n && rows == RowsOf(cells, k)
    requires forall p :: !IsPosition(e, rows, k, p)
    ensures forall out :: !IsDerivation(e, cells, n, out)
  {
    forall out ensures !IsDerivation(e, cells, n, out) {
      if |out| == n { assert !PlacedAt(e, cells, k, out[k]); }
    }
  }

  lemma OneMorePosition(e: Evidence, cells: map<int, CellRows>, rows: CellRows, k: nat, n: nat,
                        out: seq<CellPosition>, p: CellPosition)
    requires e.c.Valid() && n == k + 1 && rows == RowsOf(cells, k)
    requires forall other :: other == out <==> IsDerivation(e, cells, k, other)
    requires forall q :: q == p <==> IsPosition(e, rows, k, q)
    ensures forall other :: other == out + [p] <==> IsDerivation(e, cells, n, other)
  {
    PositionAppended(e, cells, k, out, p);
    forall other | IsDerivation(e, cells, n, other) ensures other == out + [p] {
      PositionsBefore(e, cells, k, other);
      assert other == other[..k] + [other[k]];
    }
  }

  lemma PositionAppended(e: Evidence, cells: map<int, CellRows>, k: nat, out: seq<CellPosition>, p: CellPosition)
    requires e.c.Valid() && IsDerivation(e, cells, k, out) && PlacedAt(e, cells, k, p)
    ensures IsDerivation(e, cells, k + 1, out + [p])
  {}

  lemma PositionsBefore(e: Evidence, cells: map<int, CellRows>, k: nat, out: seq<CellPosition>)
    requires e.c.Valid() && IsDerivation(e, cells, k + 1, out)
    ensures IsDerivation(e, cells, k, out[..k]) && PlacedAt(e, cells, k, out[k])
  {
    forall i: nat | i < k ensures PlacedAt(e, cells, i, out[..k][i]) { assert PlacedAt(e, cells, i, out[i]); }
  }

  method ClassifyAll(store: Store, genesis: TxID, n: nat) returns (out: seq<Finding>)
    ensures |out| == n && forall k :: 0 <= k < n ==> out[k] == Classify(store.Rows(k), genesis)
  {
    out := [];
    for k := 0 to n
      invariant |out| == k && forall i :: 0 <= i < k ==> out[i] == Classify(store.Rows(i), genesis)
    {
      var f := ClassifyCell(store.Rows(k), genesis);
      FindingUnique(store.Rows(k), genesis, f, Classify(store.Rows(k), genesis));
      out := out + [f];
    }
  }
}
