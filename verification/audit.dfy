/** Auditing the recorded history against the transactions that proved it. */
module Audit {
  import opened Wrappers
  import opened Automaton
  import opened CellScript
  import opened Tips
  import History

  type Bytes = seq<bv8>

  datatype Check = Continuity | Identity | Linkage | Binding | Covenant | Neighbourhood | CarriedRow | Successor | Rule

  /** What an unlocking script presents: the next row, and the sighash preimage of the spend. */
  datatype Unlock = Unlock(nextRow: Row, preimage: Bytes)

  /** The contract, with the two parts of it that are taken as given: reading an unlocking script, and
      recomputing the preimage a spend must carry (BIP-143, Specification). */
  datatype Contract = Contract(
    c: Compiled, unlocking: (Tx, nat) -> Option<Unlock>, preimage: (Tx, nat, Output) -> Option<Bytes>)

  datatype Generation = Generation(number: nat, row: Row, cellTx: map<nat, History.Record>)

  datatype LoadAnswer = LoadFailed | NotRecorded | Loaded(g: Generation)

  /** Everything one audit reads. A limit of zero failures is no limit. */
  datatype Inputs = Inputs(
    k: Contract, load: nat -> LoadAnswer, raw: TxID -> RawAnswer, seed: Option<Row>, maxFailures: nat)
  {
    /** Rows are stored at the ring's length, under the number they were asked for by. */
    ghost predicate Valid() {
      && k.c.Valid()
      && forall g :: load(g).Loaded? ==> load(g).g.number == g && k.c.RowFits(load(g).g.row)
    }
  }

  /** A finding about a whole generation has no cell. */
  datatype Failure = Failure(generation: nat, cell: Option<nat>, check: Check)
  datatype Gap = Gap(generation: nat, cell: Option<nat>)

  datatype Report = Report(
    generations: nat, transactions: nat, failures: seq<Failure>, gaps: seq<Gap>, truncated: bool)

  /** One cell of one generation: every check held, one failed, or the evidence could not be seen. */
  datatype Verdict = Checked | Failed(check: Check) | Unseen

  function Filed(r: Report, g: nat, cell: nat, v: Verdict): Report {
    match v
    case Checked => r.(transactions := r.transactions + 1)
    case Failed(check) => r.(failures := r.failures + [Failure(g, Some(cell), check)])
    case Unseen => r.(gaps := r.gaps + [Gap(g, Some(cell))])
  }

  predicate Stopped(budget: nat, r: Report) {
    budget > 0 && |r.failures| >= budget
  }

  // ---- fetching a transaction ---------------------------------------------------------------------------

  /** Bytes that could not be had are a gap; bytes that are not the transaction asked for are a failure. */
  datatype Fetched = Missing | Wrong | Got(tx: Tx)

  function Fetch(x: Inputs, t: TxID): Fetched {
    match x.raw(t)
    case Unavailable => Missing
    case Bytes(None) => Wrong
    case Bytes(Some(tx)) => if tx.id == t then Got(tx) else Wrong
  }

  // ---- what each check means ------------------------------------------------------------------------------

  /** One transition and what it is held against. */
  datatype Transition = Transition(
    tx: Tx, parent: Tx, parentID: TxID, vout: nat, cell: nat, prevRow: Row, curRow: Row)
  {
    ghost predicate Fits(x: Inputs) {
      x.k.c.Valid() && cell < x.k.c.cells && x.k.c.RowFits(prevRow) && x.k.c.RowFits(curRow)
    }
  }

  ghost predicate IsFirstSpend(tx: Tx, outpoint: Input, i: nat) {
    i < |tx.inputs| && tx.inputs[i] == outpoint && forall m :: 0 <= m < i ==> tx.inputs[m] != outpoint
  }

  /** It spends this cell's previous output, which exists. */
  ghost predicate Linked(t: Transition) {
    SpendsOutput(t.tx, Spends(t.parentID, t.vout)) && t.vout < |t.parent.outputs|
  }

  /** That output is this cell's covenant, for some row. */
  ghost predicate Bound(x: Inputs, t: Transition)
    requires t.Fits(x)
  {
    Linked(t) && var b := Decoded(x.k.c, t.parent.outputs[t.vout].script); b.Some? && b.value.cell == t.cell
  }

  ghost function RowRead(x: Inputs, t: Transition): (row: Row)
    requires t.Fits(x) && Bound(x, t)
    ensures x.k.c.RowFits(row)
  {
    Decoded(x.k.c, t.parent.outputs[t.vout].script).value.row
  }

  /** The preimage the spend carries is the one this spend produces. */
  ghost predicate Committed(x: Inputs, t: Transition)
    requires t.Fits(x)
  {
    && Bound(x, t)
    && exists i :: IsFirstSpend(t.tx, Spends(t.parentID, t.vout), i) && CommitsAt(x, t, i)
  }

  predicate CommitsAt(x: Inputs, t: Transition, i: nat) {
    && t.vout < |t.parent.outputs|
    && var unlock := x.k.unlocking(t.tx, i);
       var want := x.k.preimage(t.tx, i, t.parent.outputs[t.vout]);
       unlock.Some? && want.Some? && want.value == unlock.value.preimage
  }

  /** The three bits the script read are the bits the recorded row has. */
  ghost predicate Agrees(x: Inputs, t: Transition)
    requires t.Fits(x)
  {
    && Committed(x, t)
    && SameBits(RowRead(x, t), t.prevRow, x.k.c.cells, t.cell)
  }

  predicate SameBits(a: Row, b: Row, n: nat, cell: nat)
    requires cell < n == Cells(a) == Cells(b)
  {
    && Get(a, LeftIndex(n, cell)) == Get(b, LeftIndex(n, cell))
    && Get(a, cell) == Get(b, cell)
    && Get(a, RightIndex(n, cell)) == Get(b, RightIndex(n, cell))
  }

  /** So is every other bit. */
  ghost predicate Carries(x: Inputs, t: Transition)
    requires t.Fits(x)
  {
    Agrees(x, t) && RowRead(x, t) == t.prevRow
  }

  /** Output 0 is this cell's covenant for the row the script presented, whose own bit is the recorded one. */
  ghost predicate Succeeds(x: Inputs, t: Transition)
    requires t.Fits(x)
  {
    && Carries(x, t) && t.tx.outputs != []
    && var next := Decoded(x.k.c, t.tx.outputs[0].script);
       && next.Some? && next.value.cell == t.cell
       && (exists i :: IsFirstSpend(t.tx, Spends(t.parentID, t.vout), i)
                       && x.k.unlocking(t.tx, i).Some? && x.k.unlocking(t.tx, i).value.nextRow == next.value.row)
       && Get(next.value.row, t.cell) == Get(t.curRow, t.cell)
  }

  /** And that bit is the rule applied to the three that were read. */
  ghost predicate Proved(x: Inputs, t: Transition)
    requires t.Fits(x)
  {
    Succeeds(x, t) && Get(t.curRow, t.cell) == Automaton.Successor(x.k.c.rule, t.prevRow, t.cell)
  }

  ghost function TransitionVerdict(x: Inputs, t: Transition): Verdict
    requires t.Fits(x)
  {
    if !Linked(t) then Failed(Linkage)
    else if !Bound(x, t) then Failed(Check.Binding)
    else if !Committed(x, t) then Failed(Covenant)
    else if !Agrees(x, t) then Failed(Neighbourhood)
    else if !Carries(x, t) then Failed(CarriedRow)
    else if !Succeeds(x, t) then Failed(Check.Successor)
    else if !Proved(x, t) then Failed(Check.Rule)
    else Checked
  }

  ghost predicate GenesisProved(x: Inputs, tx: Tx, cell: nat, row: Row)
    requires x.k.c.Valid()
  {
    cell < |tx.outputs| && Decoded(x.k.c, tx.outputs[cell].script) == Some(CellScript.Binding(cell, row))
  }

  predicate Recorded(g: Generation, cell: nat) {
    cell in g.cellTx && g.cellTx[cell].txid != "" && g.cellTx[cell].status != History.Failed
  }

  ghost function CellVerdict(x: Inputs, cur: Generation, prev: Option<Generation>, cell: nat): Verdict
    requires x.k.c.Valid() && x.k.c.RowFits(cur.row) && cell < x.k.c.cells
    requires prev.Some? ==> x.k.c.RowFits(prev.value.row)
    requires cur.number > 0 ==> prev.Some?
  {
    if !Recorded(cur, cell) then Unseen
    else if cur.number == 0 then
      match Fetch(x, cur.cellTx[cell].txid)
      case Missing => Unseen
      case Wrong => Failed(Identity)
      case Got(tx) => if GenesisProved(x, tx, cell, cur.row) then Checked else Failed(Check.Binding)
    else if cell !in prev.value.cellTx || prev.value.cellTx[cell].txid == "" then Unseen
    else
      var parentID := prev.value.cellTx[cell].txid;
      match Fetch(x, cur.cellTx[cell].txid)
      case Missing => Unseen
      case Wrong => Failed(Identity)
      case Got(tx) =>
        match Fetch(x, parentID)
        case Missing => Unseen
        case Wrong => Failed(Identity)
        case Got(parent) => TransitionVerdict(x, TransitionOf(tx, parent, parentID, cur, prev.value, cell))
  }

  function TransitionOf(tx: Tx, parent: Tx, parentID: TxID, cur: Generation, prev: Generation, cell: nat): Transition {
    Transition(tx, parent, parentID, if prev.number == 0 then cell else 0, cell, prev.row, cur.row)
  }

  // ---- one generation, and all of them ----------------------------------------------------------------------

  ghost predicate Auditable(x: Inputs, cur: Generation, prev: Option<Generation>) {
    && x.k.c.Valid() && x.k.c.RowFits(cur.row) && (prev.Some? ==> x.k.c.RowFits(prev.value.row))
    && (cur.number > 0 ==> prev.Some?)
  }

  /** The verdict on each cell of one generation. */
  ghost function VerdictsOn(x: Inputs, cur: Generation, prev: Option<Generation>): nat -> Verdict {
    (cell: nat) => if Auditable(x, cur, prev) && cell < x.k.c.cells then CellVerdict(x, cur, prev, cell) else Unseen
  }

  /** The first n cells, one finding each, until the failure budget is spent. */
  ghost function CellsFiled(budget: nat, r: Report, g: nat, verdicts: nat -> Verdict, n: nat): Report {
    if n == 0 then r
    else
      var before := CellsFiled(budget, r, g, verdicts, n - 1);
      if Stopped(budget, before) then before else Filed(before, g, n - 1, verdicts(n - 1))
  }

  /** The row itself: against the seed at generation 0, against the rule applied to the one before it above. */
  function RowFiled(x: Inputs, r: Report, cur: Generation, prev: Option<Generation>): Report {
    var broken := r.(failures := r.failures + [Failure(cur.number, None, Continuity)]);
    if cur.number == 0 then
      if x.seed.None? then r.(gaps := r.gaps + [Gap(0, None)])
      else if x.seed.value != cur.row then broken else r
    else if prev.None? then r.(gaps := r.gaps + [Gap(cur.number, None)])
    else if StepRow(x.k.c.rule, prev.value.row) != cur.row then broken
    else r
  }

  ghost function GenerationFiled(x: Inputs, r: Report, cur: Generation, prev: Option<Generation>): Report
    requires x.k.c.Valid() && x.k.c.RowFits(cur.row) && (prev.Some? ==> x.k.c.RowFits(prev.value.row))
  {
    var withRow := RowFiled(x, r, cur, prev);
    if cur.number > 0 && prev.None? then withRow
    else CellsFiled(x.maxFailures, withRow, cur.number, VerdictsOn(x, cur, prev), x.k.c.cells)
  }

  function Predecessor(x: Inputs, g: nat): Option<Generation> {
    if g > 0 && x.load(g - 1).Loaded? then Some(x.load(g - 1).g) else None
  }

  /** One more generation: unrecorded it is a gap, recorded it is audited, and the budget may end the run. */
  ghost function OneFiled(x: Inputs, r: Report, g: nat): Report
    requires x.Valid() && x.load(g) != LoadFailed
  {
    match x.load(g)
    case NotRecorded => r.(gaps := r.gaps + [Gap(g, None)])
    case Loaded(cur) =>
      var after := GenerationFiled(x, r.(generations := r.generations + 1), cur, Predecessor(x, g));
      if Stopped(x.maxFailures, after) then after.(truncated := true) else after
  }

  /** What one generation does to a report, where the store answers for it. */
  ghost predicate IsFiled(x: Inputs, r: Report, g: nat, after: Report) {
    after == if x.Valid() && x.load(g) != LoadFailed then OneFiled(x, r, g) else r
  }

  ghost predicate IsFiling(x: Inputs, file: (Report, nat) -> Report) {
    forall r: Report, g: nat {:trigger IsFiled(x, r, g, file(r, g))} :: IsFiled(x, r, g, file(r, g))
  }

  ghost function Filing(x: Inputs): (file: (Report, nat) -> Report)
    ensures IsFiling(x, file)
  {
    var one := (r: Report, g: nat) => if x.Valid() && x.load(g) != LoadFailed then OneFiled(x, r, g) else r;
    assert IsFiling(x, one);
    var file :| IsFiling(x, file); file
  }

  /** Where it does: for the generation itself, and for the one before the first. */
  ghost function Answers(x: Inputs, from: nat): nat -> bool {
    (g: nat) => x.load(g) != LoadFailed && (g == from && g > 0 ==> x.load(g - 1) != LoadFailed)
  }

  /** The report after n generations. None is an audit that could not be carried out. */
  ghost function Folded(answers: nat -> bool, file: (Report, nat) -> Report, from: nat, n: nat): Option<Report> {
    if n == 0 then Some(Report(0, 0, [], [], false))
    else
      var before := Folded(answers, file, from, n - 1);
      if before.None? || before.value.truncated then before
      else if !answers(from + n - 1) then None
      else Some(file(before.value, from + n - 1))
  }

  ghost function Ran(x: Inputs, from: nat, n: nat): Option<Report> {
    Folded(Answers(x, from), Filing(x), from, n)
  }

  /** The auditor: the report it is writing, and the transactions of this generation and the last. */
  class Auditor {
    var report: Report
    var txs: map<TxID, Tx>
    var prev: map<TxID, Tx>
    const x: Inputs

    constructor (x: Inputs)
      ensures this.x == x && report == Report(0, 0, [], [], false) && Cached()
    {
      this.x := x;
      report := Report(0, 0, [], [], false);
      txs, prev := map[], map[];
    }

    /** Whatever is cached is what fetching it again would give. */
    ghost predicate Cached()
      reads this
    {
      && (forall t :: t in txs ==> Fetch(x, t) == Got(txs[t]))
      && (forall t :: t in prev ==> Fetch(x, t) == Got(prev[t]))
    }

    method FetchTx(t: TxID) returns (f: Fetched)
      requires Cached()
      modifies `txs
      ensures Cached() && f == Fetch(x, t)
    {
      if t in txs { return Got(txs[t]); }
      if t in prev {
        txs := txs[t := prev[t]];
        return Got(prev[t]);
      }
      f := Fetch(x, t);
      if f.Got? { txs := txs[t := f.tx]; }
    }

    /** Drops everything older than the generation just audited. */
    method Rotate()
      requires Cached()
      modifies `txs, `prev
      ensures Cached()
    {
      prev := txs;
      txs := map[];
    }

    method AuditGenesisCell(cur: Generation, cell: nat) returns (v: Verdict)
      requires Cached() && Auditable(x, cur, None) && cell < x.k.c.cells && Recorded(cur, cell) && cur.number == 0
      modifies `txs
      ensures Cached() && v == CellVerdict(x, cur, None, cell)
    {
      var f := FetchTx(cur.cellTx[cell].txid);
      if f.Missing? { return Unseen; }
      if f.Wrong? { return Failed(Identity); }
      if cell >= |f.tx.outputs| { return Failed(Check.Binding); }
      var b := Decode(x.k.c, f.tx.outputs[cell].script);
      if b.None? { return Failed(Check.Binding); }
      if b.value.cell != cell { return Failed(Check.Binding); }
      if b.value.row != cur.row { return Failed(Check.Binding); }
      v := Checked;
    }

    method AuditCell(cur: Generation, prev: Generation, cell: nat) returns (v: Verdict)
      requires Cached() && Auditable(x, cur, Some(prev)) && cell < x.k.c.cells && Recorded(cur, cell) && cur.number > 0
      modifies `txs
      ensures Cached() && v == CellVerdict(x, cur, Some(prev), cell)
    {
      if cell !in prev.cellTx || prev.cellTx[cell].txid == "" { return Unseen; }
      var parentID := prev.cellTx[cell].txid;
      var f := FetchTx(cur.cellTx[cell].txid);
      if f.Missing? { return Unseen; }
      if f.Wrong? { return Failed(Identity); }
      var p := FetchTx(parentID);
      if p.Missing? { return Unseen; }
      if p.Wrong? { return Failed(Identity); }
      v := AuditTransition(x, TransitionOf(f.tx, p.tx, parentID, cur, prev, cell));
    }

    method AuditRecorded(cur: Generation, before: Option<Generation>, cell: nat) returns (v: Verdict)
      requires Cached() && Auditable(x, cur, before) && cell < x.k.c.cells && (cur.number == 0 ==> before.None?)
      modifies `txs
      ensures Cached() && v == CellVerdict(x, cur, before, cell)
    {
      if cell !in cur.cellTx { return Unseen; }
      if cur.cellTx[cell].txid == "" { return Unseen; }
      if cur.cellTx[cell].status == History.Failed { return Unseen; }
      if cur.number == 0 {
        v := AuditGenesisCell(cur, cell);
      } else {
        v := AuditCell(cur, before.value, cell);
      }
    }

    method AuditRow(cur: Generation, before: Option<Generation>)
      modifies `report
      ensures report == RowFiled(x, old(report), cur, before)
    {
      if cur.number == 0 {
        if x.seed.None? {
          report := report.(gaps := report.gaps + [Gap(0, None)]);
        } else if x.seed.value != cur.row {
          report := report.(failures := report.failures + [Failure(0, None, Continuity)]);
        }
      } else if before.None? {
        report := report.(gaps := report.gaps + [Gap(cur.number, None)]);
      } else {
        var want := Automaton.Step(x.k.c.rule, before.value.row);
        if want != cur.row {
          report := report.(failures := report.failures + [Failure(cur.number, None, Continuity)]);
        }
      }
    }

    method AuditGeneration(cur: Generation, before: Option<Generation>)
      requires Cached() && x.k.c.Valid() && x.k.c.RowFits(cur.row) && (before.Some? ==> x.k.c.RowFits(before.value.row))
      requires cur.number == 0 ==> before.None?
      modifies this
      ensures Cached() && report == GenerationFiled(x, old(report), cur, before)
    {
      AuditRow(cur, before);
      if cur.number > 0 && before.None? { return; }
      ghost var start, verdicts := report, VerdictsOn(x, cur, before);
      for cell := 0 to x.k.c.cells
        invariant Cached() && report == CellsFiled(x.maxFailures, start, cur.number, verdicts, cell)
      {
        if Stopped(x.maxFailures, report) {
          StaysStopped(x.maxFailures, start, cur.number, verdicts, cell, x.k.c.cells);
          return;
        }
        var v := AuditRecorded(cur, before, cell);
        report := Filed(report, cur.number, cell, v);
      }
    }

    method AuditNumber(g: nat, before: Option<Generation>) returns (next: Option<Generation>)
      requires x.Valid() && Cached() && x.load(g) != LoadFailed && before == Predecessor(x, g)
      modifies this
      ensures Cached() && report == OneFiled(x, old(report), g) && next == Predecessor(x, g + 1)
    {
      match x.load(g)
      case NotRecorded =>
        report := report.(gaps := report.gaps + [Gap(g, None)]);
        next := None;
      case Loaded(cur) =>
        report := report.(generations := report.generations + 1);
        AuditGeneration(cur, before);
        if Stopped(x.maxFailures, report) { report := report.(truncated := true); }
        next := Some(cur);
    }

    /** The first generation's predecessor has not been walked, so it is loaded outright. */
    method LoadBefore(g: nat, before: Option<Generation>) returns (ok: bool, previous: Option<Generation>)
      requires before.Some? ==> before == Predecessor(x, g)
      ensures !ok <==> before.None? && g > 0 && x.load(g - 1) == LoadFailed
      ensures ok ==> previous == Predecessor(x, g)
    {
      ok, previous := true, before;
      if before.None? && g > 0 {
        match x.load(g - 1)
        case LoadFailed => ok := false;
        case NotRecorded =>
        case Loaded(p) => previous := Some(p);
      }
    }

    /** One turn of the loop over generations. False when the store would not answer. */
    method AuditNext(g: nat, before: Option<Generation>, ghost from: nat) returns (ok: bool, next: Option<Generation>)
      requires x.Valid() && Cached() && from <= g && !report.truncated
      requires Ran(x, from, g - from) == Some(report)
      requires before == (if g == from then None else Predecessor(x, g)) && (g > from ==> x.load(g - 1) != LoadFailed)
      modifies this
      ensures Cached() && Ran(x, from, g - from + 1) == if ok then Some(report) else None
      ensures ok ==> next == Predecessor(x, g + 1) && x.load(g) != LoadFailed
    {
      ghost var was := report;
      var loaded, previous := LoadBefore(g, before);
      ok := loaded && x.load(g) != LoadFailed;
      assert Answers(x, from)(g) == ok;
      if ok {
        next := AuditNumber(g, previous);
        assert IsFiled(x, was, g, Filing(x)(was, g));
      } else {
        next := None;
      }
    }

    /** The whole range, each generation with its predecessor in hand. */
    method Run(from: nat, to: nat) returns (ok: bool)
      requires x.Valid() && Cached() && report == Report(0, 0, [], [], false) && from <= to
      modifies this
      ensures ok <==> Ran(x, from, to - from + 1).Some?
      ensures ok ==> report == Ran(x, from, to - from + 1).value
    {
      var before: Option<Generation> := None;
      var g := from;
      while g <= to
        invariant from <= g <= to + 1 && Cached()
        invariant Ran(x, from, g - from) == Some(report) && !report.truncated
        invariant before == if g == from then None else Predecessor(x, g)
        invariant g > from ==> x.load(g - 1) != LoadFailed
      {
        ok, before := AuditNext(g, before, from);
        if !ok || report.truncated {
          EndsHere(Answers(x, from), Filing(x), from, g - from + 1, to - from + 1);
          return;
        }
        Rotate();
        g := g + 1;
      }
      ok := true;
    }
  }

  /** Once the budget is spent, the cells after it add nothing. */
  lemma {:induction false} StaysStopped(budget: nat, r: Report, g: nat, verdicts: nat -> Verdict, m: nat, n: nat)
    requires m <= n && Stopped(budget, CellsFiled(budget, r, g, verdicts, m))
    ensures CellsFiled(budget, r, g, verdicts, n) == CellsFiled(budget, r, g, verdicts, m)
  {
    if m < n { StaysStopped(budget, r, g, verdicts, m, n - 1); }
  }

  /** A run that has failed or been cut short stays so. */
  lemma {:induction false} EndsHere(answers: nat -> bool, file: (Report, nat) -> Report, from: nat, m: nat, n: nat)
    requires m <= n && (Folded(answers, file, from, m).None? || Folded(answers, file, from, m).value.truncated)
    ensures Folded(answers, file, from, n) == Folded(answers, file, from, m)
  {
    if m < n { EndsHere(answers, file, from, m, n - 1); }
  }

  /** One transition, check by check, each only once the one before it has held. */
  method AuditTransition(x: Inputs, t: Transition) returns (v: Verdict)
    requires t.Fits(x)
    ensures v == TransitionVerdict(x, t)
  {
    var input := FindSpend(t.tx, Spends(t.parentID, t.vout));
    if input < 0 { return Failed(Linkage); }
    if t.vout >= |t.parent.outputs| { return Failed(Linkage); }
    var b := Decode(x.k.c, t.parent.outputs[t.vout].script);
    if b.None? { return Failed(Check.Binding); }
    if b.value.cell != t.cell { return Failed(Check.Binding); }
    assert forall m :: 0 <= m < input ==> t.tx.inputs[m] == t.tx.inputs[..input][m];
    assert IsFirstSpend(t.tx, Spends(t.parentID, t.vout), input);
    FirstSpendUnique(t.tx, Spends(t.parentID, t.vout), input);
    var unlock := x.k.unlocking(t.tx, input);
    var want := x.k.preimage(t.tx, input, t.parent.outputs[t.vout]);
    if unlock.None? || want.None? || want.value != unlock.value.preimage { return Failed(Covenant); }
    assert CommitsAt(x, t, input);
    if !SameBits(b.value.row, t.prevRow, x.k.c.cells, t.cell) { return Failed(Neighbourhood); }
    if b.value.row != t.prevRow { return Failed(CarriedRow); }
    if |t.tx.outputs| == 0 { return Failed(Check.Successor); }
    var next := Decode(x.k.c, t.tx.outputs[0].script);
    if next.None? || next.value.cell != t.cell { return Failed(Check.Successor); }
    if next.value.row != unlock.value.nextRow { return Failed(Check.Successor); }
    if Get(next.value.row, t.cell) != Get(t.curRow, t.cell) { return Failed(Check.Successor); }
    var n := x.k.c.cells;
    var left, right := LeftIndex(n, t.cell), RightIndex(n, t.cell);
    if Next(x.k.c.rule, Get(b.value.row, left), Get(b.value.row, t.cell), Get(b.value.row, right)) != Get(next.value.row, t.cell) {
      return Failed(Check.Rule);
    }
    v := Checked;
  }

  lemma FirstSpendUnique(tx: Tx, outpoint: Input, i: nat)
    requires IsFirstSpend(tx, outpoint, i)
    ensures forall j: nat :: IsFirstSpend(tx, outpoint, j) ==> j == i
  {}

  // ---- what a clean report proves ---------------------------------------------------------------------------

  predicate Clean(r: Report) {
    r.failures == [] && r.gaps == []
  }

  /** The cell's transaction at g is what the record says it is: it spends the cell's previous output, that
      output carried the automaton's row at g - 1, and its own output 0 continues this cell with the bit
      the automaton gives it at g. */
  ghost predicate CellSound(x: Inputs, seed: Row, g: nat, cell: nat)
    requires x.Valid() && x.load(g).Loaded? && cell < x.k.c.cells && |seed| * 8 == x.k.c.cells
  {
    var cur := x.load(g).g;
    && Recorded(cur, cell)
    && match Fetch(x, cur.cellTx[cell].txid)
       case Got(tx) =>
         if g == 0 then GenesisProved(x, tx, cell, seed)
         else
           && x.load(g - 1).Loaded? && cell in x.load(g - 1).g.cellTx
           && var parentID := x.load(g - 1).g.cellTx[cell].txid;
              var vout := if g == 1 then cell else 0;
              && Fetch(x, parentID).Got?
              && var parent := Fetch(x, parentID).tx;
                 && SpendsOutput(tx, Spends(parentID, vout)) && vout < |parent.outputs|
                 && Decoded(x.k.c, parent.outputs[vout].script) == Some(CellScript.Binding(cell, RowAt(x.k.c.rule, seed, g - 1)))
                 && tx.outputs != []
                 && var next := Decoded(x.k.c, tx.outputs[0].script);
                    next.Some? && next.value.cell == cell && Cells(next.value.row) == x.k.c.cells
                    && Get(next.value.row, cell) == Get(RowAt(x.k.c.rule, seed, g), cell)
       case _ => false
  }

  ghost predicate GenerationSound(x: Inputs, seed: Row, g: nat)
    requires x.Valid()
  {
    && x.load(g).Loaded? && x.load(g).g.row == RowAt(x.k.c.rule, seed, g) && |seed| * 8 == x.k.c.cells
    && forall cell: nat :: cell < x.k.c.cells ==> CellSound(x, seed, g, cell)
  }

  lemma {:induction false} CleanCells(budget: nat, r: Report, g: nat, verdicts: nat -> Verdict, n: nat)
    requires Clean(CellsFiled(budget, r, g, verdicts, n))
    ensures Clean(r) && forall cell: nat :: cell < n ==> verdicts(cell) == Checked
  {
    if n > 0 { CleanCells(budget, r, g, verdicts, n - 1); }
  }

  /** A transition every check held of, against the row its generation should carry. */
  lemma ProvedIsSound(x: Inputs, t: Transition)
    requires t.Fits(x) && TransitionVerdict(x, t) == Checked
    ensures SpendsOutput(t.tx, Spends(t.parentID, t.vout)) && t.vout < |t.parent.outputs| && t.tx.outputs != []
    ensures Decoded(x.k.c, t.parent.outputs[t.vout].script) == Some(CellScript.Binding(t.cell, t.prevRow))
    ensures var next := Decoded(x.k.c, t.tx.outputs[0].script);
            && next.Some? && next.value.cell == t.cell && Cells(next.value.row) == x.k.c.cells
            && Get(next.value.row, t.cell) == Get(t.curRow, t.cell)
  {}

  lemma CheckedIsSound(x: Inputs, seed: Row, g: nat, cell: nat)
    requires x.Valid() && x.load(g).Loaded? && cell < x.k.c.cells && |seed| * 8 == x.k.c.cells
    requires g > 0 ==> Predecessor(x, g).Some? && x.load(g - 1).g.row == RowAt(x.k.c.rule, seed, g - 1)
    requires x.load(g).g.row == RowAt(x.k.c.rule, seed, g)
    requires CellVerdict(x, x.load(g).g, Predecessor(x, g), cell) == Checked
    ensures CellSound(x, seed, g, cell)
  {
    if g > 0 {
      var cur, prev := x.load(g).g, x.load(g - 1).g;
      var parentID := prev.cellTx[cell].txid;
      var t := TransitionOf(Fetch(x, cur.cellTx[cell].txid).tx, Fetch(x, parentID).tx, parentID, cur, prev, cell);
      ProvedIsSound(x, t);
    }
  }

  /** No finding means no finding about the row, and every cell checked. */
  lemma CleanVerdicts(x: Inputs, r: Report, g: nat)
    requires x.Valid() && x.load(g) != LoadFailed && Clean(OneFiled(x, r, g))
    ensures x.load(g).Loaded? && (g > 0 ==> Predecessor(x, g).Some?)
    ensures Clean(RowFiled(x, r.(generations := r.generations + 1), x.load(g).g, Predecessor(x, g)))
    ensures forall cell: nat :: cell < x.k.c.cells ==> CellVerdict(x, x.load(g).g, Predecessor(x, g), cell) == Checked
  {
    var cur, prev := x.load(g).g, Predecessor(x, g);
    var withRow := RowFiled(x, r.(generations := r.generations + 1), cur, prev);
    CleanCells(x.maxFailures, withRow, g, VerdictsOn(x, cur, prev), x.k.c.cells);
    forall cell: nat | cell < x.k.c.cells ensures CellVerdict(x, cur, prev, cell) == Checked {
      assert VerdictsOn(x, cur, prev)(cell) == Checked;
    }
  }

  lemma CleanRow(x: Inputs, r: Report, seed: Row, g: nat)
    requires x.Valid() && x.load(g).Loaded? && (g > 0 ==> Predecessor(x, g).Some?) && x.seed == Some(seed)
    requires Clean(RowFiled(x, r.(generations := r.generations + 1), x.load(g).g, Predecessor(x, g)))
    requires g > 0 ==> GenerationSound(x, seed, g - 1)
    ensures x.load(g).g.row == RowAt(x.k.c.rule, seed, g) && |seed| * 8 == x.k.c.cells
  {}

  /** One recorded generation that adds no finding is the automaton's next row, with every cell proved. */
  lemma CleanGeneration(x: Inputs, r: Report, seed: Row, g: nat)
    requires x.Valid() && x.load(g) != LoadFailed && Clean(OneFiled(x, r, g)) && x.seed == Some(seed)
    requires g > 0 ==> GenerationSound(x, seed, g - 1)
    ensures GenerationSound(x, seed, g)
  {
    CleanVerdicts(x, r, g);
    CleanRow(x, r, seed, g);
    CheckedGeneration(x, seed, g);
  }

  lemma CheckedGeneration(x: Inputs, seed: Row, g: nat)
    requires x.Valid() && x.load(g).Loaded? && |seed| * 8 == x.k.c.cells && x.load(g).g.row == RowAt(x.k.c.rule, seed, g)
    requires g > 0 ==> Predecessor(x, g).Some? && x.load(g - 1).g.row == RowAt(x.k.c.rule, seed, g - 1)
    requires forall cell: nat :: cell < x.k.c.cells ==> CellVerdict(x, x.load(g).g, Predecessor(x, g), cell) == Checked
    ensures GenerationSound(x, seed, g)
  {
    forall cell: nat | cell < x.k.c.cells ensures CellSound(x, seed, g, cell) { CheckedIsSound(x, seed, g, cell); }
  }

  /** Findings are only ever added, and only findings cut a run short. */
  lemma CleanBefore(x: Inputs, r: Report, g: nat)
    requires x.Valid() && x.load(g) != LoadFailed && Clean(OneFiled(x, r, g))
    ensures Clean(r) && (!r.truncated ==> !OneFiled(x, r, g).truncated)
  {
    if x.load(g).Loaded? {
      GenerationOnlyAdds(x, r.(generations := r.generations + 1), x.load(g).g, Predecessor(x, g));
    }
  }

  /** If one clean step makes the next generation sound, a clean fold makes them all sound. */
  lemma {:induction false} CleanFold(answers: nat -> bool, file: (Report, nat) -> Report, sound: nat -> bool, n: nat)
    requires forall r: Report, g: nat :: answers(g) && Clean(file(r, g)) ==> Clean(r) && (!r.truncated ==> !file(r, g).truncated)
    requires forall r: Report, g: nat :: answers(g) && Clean(file(r, g)) && (g == 0 || sound(g - 1)) ==> sound(g)
    requires Folded(answers, file, 0, n).Some? && Clean(Folded(answers, file, 0, n).value)
    ensures !Folded(answers, file, 0, n).value.truncated && forall g: nat :: g < n ==> sound(g)
  {
    if n > 0 {
      CleanFold(answers, file, sound, n - 1);
      assert n > 1 ==> sound(n - 2);
    }
  }

  ghost function Soundness(x: Inputs, seed: Row): nat -> bool {
    (g: nat) => x.Valid() && GenerationSound(x, seed, g)
  }

  /** Soundness: a report from generation 0, against a seed, with no failure and no gap, means that every
      recorded row up to the end is the seed's own orbit under the rule, that every cell's transactions are
      linked by outpoints all the way from genesis, and that at each generation all the outputs spent
      carried one and the same row, the orbit's previous one. */
  lemma CleanReportIsSound(x: Inputs, seed: Row, n: nat)
    requires x.Valid() && x.seed == Some(seed) && Ran(x, 0, n).Some? && Clean(Ran(x, 0, n).value)
    ensures !Ran(x, 0, n).value.truncated
    ensures forall g: nat :: g < n ==> GenerationSound(x, seed, g)
  {
    var answers, file, sound := Answers(x, 0), Filing(x), Soundness(x, seed);
    forall r: Report, g: nat | answers(g) && Clean(file(r, g))
      ensures Clean(r) && (!r.truncated ==> !file(r, g).truncated) && (g == 0 || sound(g - 1) ==> sound(g))
    {
      CleanFiling(x, file, seed, r, g);
    }
    CleanFold(answers, file, sound, n);
    forall g: nat | g < n ensures GenerationSound(x, seed, g) { assert sound(g); }
  }

  lemma CleanFiling(x: Inputs, file: (Report, nat) -> Report, seed: Row, r: Report, g: nat)
    requires x.Valid() && x.seed == Some(seed) && IsFiling(x, file) && x.load(g) != LoadFailed && Clean(file(r, g))
    ensures Clean(r) && (!r.truncated ==> !file(r, g).truncated)
    ensures g == 0 || GenerationSound(x, seed, g - 1) ==> GenerationSound(x, seed, g)
  {
    assert IsFiled(x, r, g, file(r, g));
    CleanBefore(x, r, g);
    if g == 0 || GenerationSound(x, seed, g - 1) { CleanGeneration(x, r, seed, g); }
  }

  lemma {:induction false} CellsOnlyAdd(budget: nat, r: Report, g: nat, verdicts: nat -> Verdict, n: nat)
    ensures var after := CellsFiled(budget, r, g, verdicts, n);
            && after.truncated == r.truncated && r.transactions <= after.transactions
            && |r.failures| <= |after.failures| && |r.gaps| <= |after.gaps|
  {
    if n > 0 { CellsOnlyAdd(budget, r, g, verdicts, n - 1); }
  }

  lemma GenerationOnlyAdds(x: Inputs, r: Report, cur: Generation, prev: Option<Generation>)
    requires x.k.c.Valid() && x.k.c.RowFits(cur.row) && (prev.Some? ==> x.k.c.RowFits(prev.value.row))
    ensures GenerationFiled(x, r, cur, prev).truncated == r.truncated
    ensures |r.failures| <= |GenerationFiled(x, r, cur, prev).failures| && |r.gaps| <= |GenerationFiled(x, r, cur, prev).gaps|
  {
    if cur.number == 0 || prev.Some? {
      CellsOnlyAdd(x.maxFailures, RowFiled(x, r, cur, prev), cur.number, VerdictsOn(x, cur, prev), x.k.c.cells);
    }
  }

  // ---- nothing is skipped, and nothing is counted twice ---------------------------------------------------

  function CellFailures(s: seq<Failure>): nat {
    if s == [] then 0 else CellFailures(s[..|s| - 1]) + if s[|s| - 1].cell.Some? then 1 else 0
  }

  function CellGaps(s: seq<Gap>): nat {
    if s == [] then 0 else CellGaps(s[..|s| - 1]) + if s[|s| - 1].cell.Some? then 1 else 0
  }

  /** Transactions checked, cells failed and cells unseen. */
  function CellFindings(r: Report): nat {
    r.transactions + CellFailures(r.failures) + CellGaps(r.gaps)
  }

  lemma OneMoreFailure(s: seq<Failure>, f: Failure)
    ensures CellFailures(s + [f]) == CellFailures(s) + if f.cell.Some? then 1 else 0
  {
    assert (s + [f])[..|s|] == s;
  }

  lemma OneMoreGap(s: seq<Gap>, p: Gap)
    ensures CellGaps(s + [p]) == CellGaps(s) + if p.cell.Some? then 1 else 0
  {
    assert (s + [p])[..|s|] == s;
  }

  lemma FiledCountsOne(r: Report, g: nat, cell: nat, v: Verdict)
    ensures CellFindings(Filed(r, g, cell, v)) == CellFindings(r) + 1
  {
    match v
    case Checked =>
    case Failed(check) => OneMoreFailure(r.failures, Failure(g, Some(cell), check));
    case Unseen => OneMoreGap(r.gaps, Gap(g, Some(cell)));
  }

  /** Anything each finding adds one to has, unless the budget was spent, one added for every cell. */
  lemma {:induction false} CellsCounted(budget: nat, r: Report, g: nat, verdicts: nat -> Verdict, n: nat, count: Report -> nat)
    requires forall q: Report, cell: nat :: count(Filed(q, g, cell, verdicts(cell))) == count(q) + 1
    requires !Stopped(budget, CellsFiled(budget, r, g, verdicts, n))
    ensures count(CellsFiled(budget, r, g, verdicts, n)) == count(r) + n
  {
    if n > 0 {
      FiledKeepsStopped(budget, CellsFiled(budget, r, g, verdicts, n - 1), g, n - 1, verdicts(n - 1));
      CellsCounted(budget, r, g, verdicts, n - 1, count);
    }
  }

  lemma CellsAccounted(budget: nat, r: Report, g: nat, verdicts: nat -> Verdict, n: nat)
    requires !Stopped(budget, CellsFiled(budget, r, g, verdicts, n))
    ensures CellFindings(CellsFiled(budget, r, g, verdicts, n)) == CellFindings(r) + n
  {
    forall q: Report, cell: nat ensures CellFindings(Filed(q, g, cell, verdicts(cell))) == CellFindings(q) + 1 {
      FiledCountsOne(q, g, cell, verdicts(cell));
    }
    CellsCounted(budget, r, g, verdicts, n, CellFindings);
  }

  lemma FiledKeepsStopped(budget: nat, r: Report, g: nat, cell: nat, v: Verdict)
    ensures Stopped(budget, r) ==> Stopped(budget, Filed(r, g, cell, v))
  {}

  /** Recorded, and either the first generation or with its predecessor recorded. */
  predicate Examined(x: Inputs, g: nat) {
    x.load(g).Loaded? && (g == 0 || x.load(g - 1).Loaded?)
  }

  /** What a report finds depends on its two lists and its count alone. */
  lemma SameFindings(r: Report, after: Report)
    requires after.transactions == r.transactions
    requires CellFailures(after.failures) == CellFailures(r.failures) && CellGaps(after.gaps) == CellGaps(r.gaps)
    ensures CellFindings(after) == CellFindings(r)
  {}

  /** A finding about a whole generation is no cell's. */
  lemma GenerationFailure(s: seq<Failure>, f: Failure)
    requires f.cell.None?
    ensures CellFailures(s + [f]) == CellFailures(s)
  {
    OneMoreFailure(s, f);
  }

  lemma GenerationGap(s: seq<Gap>, gap: Gap)
    requires gap.cell.None?
    ensures CellGaps(s + [gap]) == CellGaps(s)
  {
    OneMoreGap(s, gap);
  }

  lemma RowAccounted(x: Inputs, r: Report, cur: Generation, prev: Option<Generation>)
    ensures CellFindings(RowFiled(x, r, cur, prev)) == CellFindings(r)
  {
    GenerationFailure(r.failures, Failure(cur.number, None, Continuity));
    GenerationGap(r.gaps, Gap(cur.number, None));
    SameFindings(r, RowFiled(x, r, cur, prev));
  }

  lemma GenerationAccounted(x: Inputs, r: Report, cur: Generation, prev: Option<Generation>)
    requires x.k.c.Valid() && x.k.c.RowFits(cur.row) && (prev.Some? ==> x.k.c.RowFits(prev.value.row))
    requires !Stopped(x.maxFailures, GenerationFiled(x, r, cur, prev))
    ensures CellFindings(GenerationFiled(x, r, cur, prev)) ==
            CellFindings(r) + if cur.number == 0 || prev.Some? then x.k.c.cells else 0
  {
    RowAccounted(x, r, cur, prev);
    if cur.number == 0 || prev.Some? {
      CellsAccounted(x.maxFailures, RowFiled(x, r, cur, prev), cur.number, VerdictsOn(x, cur, prev), x.k.c.cells);
    }
  }

  lemma OneAccounted(x: Inputs, r: Report, g: nat)
    requires x.Valid() && x.load(g) != LoadFailed && !r.truncated && !OneFiled(x, r, g).truncated
    ensures CellFindings(OneFiled(x, r, g)) == CellFindings(r) + if Examined(x, g) then x.k.c.cells else 0
  {
    if x.load(g).Loaded? {
      GenerationAccounted(x, r.(generations := r.generations + 1), x.load(g).g, Predecessor(x, g));
    } else {
      OneMoreGap(r.gaps, Gap(g, None));
    }
  }

  function Sum(due: nat -> nat, from: nat, n: nat): nat {
    if n == 0 then 0 else Sum(due, from, n - 1) + due(from + n - 1)
  }

  /** What a generation owes the report: a finding for every cell, if it could be examined at all. */
  function Due(x: Inputs): nat -> nat {
    (g: nat) => if Examined(x, g) then x.k.c.cells else 0
  }

  lemma FilingAccounted(x: Inputs, file: (Report, nat) -> Report, r: Report, g: nat)
    requires x.Valid() && IsFiling(x, file) && x.load(g) != LoadFailed && !r.truncated && !file(r, g).truncated
    ensures CellFindings(file(r, g)) == CellFindings(r) + Due(x)(g)
  {
    assert IsFiled(x, r, g, file(r, g));
    OneAccounted(x, r, g);
  }

  /** Accounting: in a run that was not cut short, the transactions checked, the cells failed and the cells
      unseen add up to the ring size for every generation that could be examined, and to nothing for the rest. */
  lemma {:induction false} EveryCellAccounted(x: Inputs, from: nat, n: nat)
    requires x.Valid() && Ran(x, from, n).Some? && !Ran(x, from, n).value.truncated
    ensures CellFindings(Ran(x, from, n).value) == Sum(Due(x), from, n)
  {
    if n > 0 {
      var before := Ran(x, from, n - 1).value;
      EveryCellAccounted(x, from, n - 1);
      assert Answers(x, from)(from + n - 1);
      FilingAccounted(x, Filing(x), before, from + n - 1);
    }
  }

  // ---- every finding is listed, and nothing else ------------------------------------------------------------

  lemma {:induction false} CellListed(budget: nat, r: Report, g: nat, verdicts: nat -> Verdict, n: nat, cell: nat)
    requires cell < n && !Stopped(budget, CellsFiled(budget, r, g, verdicts, n))
    ensures IsListed(CellsFiled(budget, r, g, verdicts, n), g, cell, verdicts(cell))
  {
    CellsOnlyAdd(budget, r, g, verdicts, n - 1);
    if cell < n - 1 { CellListed(budget, r, g, verdicts, n - 1, cell); }
  }

  /** A verdict other than Checked is there to be read. */
  predicate IsListed(r: Report, g: nat, cell: nat, v: Verdict) {
    match v
    case Checked => true
    case Failed(check) => Failure(g, Some(cell), check) in r.failures
    case Unseen => Gap(g, Some(cell)) in r.gaps
  }

  /** Nothing listed is ever taken off. */
  ghost predicate Keeps(r: Report, after: Report) {
    (forall f :: f in r.failures ==> f in after.failures) && forall gap :: gap in r.gaps ==> gap in after.gaps
  }

  lemma {:induction false} CellsKeep(budget: nat, r: Report, g: nat, verdicts: nat -> Verdict, n: nat)
    ensures Keeps(r, CellsFiled(budget, r, g, verdicts, n))
  {
    if n > 0 { CellsKeep(budget, r, g, verdicts, n - 1); }
  }

  lemma OneKeeps(x: Inputs, r: Report, g: nat)
    requires x.Valid() && x.load(g) != LoadFailed
    ensures Keeps(r, OneFiled(x, r, g))
  {
    if Examined(x, g) {
      var cur, prev := x.load(g).g, Predecessor(x, g);
      CellsKeep(x.maxFailures, RowFiled(x, r.(generations := r.generations + 1), cur, prev), g, VerdictsOn(x, cur, prev), x.k.c.cells);
    }
  }

  ghost function VerdictAt(x: Inputs, g: nat, cell: nat): Verdict
    requires x.Valid() && Examined(x, g) && cell < x.k.c.cells
  {
    CellVerdict(x, x.load(g).g, Predecessor(x, g), cell)
  }

  lemma OneLists(x: Inputs, r: Report, g: nat, cell: nat)
    requires x.Valid() && Examined(x, g) && cell < x.k.c.cells && !OneFiled(x, r, g).truncated
    ensures IsListed(OneFiled(x, r, g), g, cell, VerdictAt(x, g, cell))
  {
    var cur, prev := x.load(g).g, Predecessor(x, g);
    var withRow := RowFiled(x, r.(generations := r.generations + 1), cur, prev);
    CellListed(x.maxFailures, withRow, g, VerdictsOn(x, cur, prev), x.k.c.cells, cell);
    assert VerdictsOn(x, cur, prev)(cell) == VerdictAt(x, g, cell);
  }

  lemma FilingKeeps(x: Inputs, file: (Report, nat) -> Report, r: Report, g: nat)
    requires x.Valid() && IsFiling(x, file) && x.load(g) != LoadFailed
    ensures Keeps(r, file(r, g))
  {
    assert IsFiled(x, r, g, file(r, g));
    OneKeeps(x, r, g);
  }

  lemma FilingLists(x: Inputs, file: (Report, nat) -> Report, r: Report, g: nat, cell: nat)
    requires x.Valid() && IsFiling(x, file) && Examined(x, g) && cell < x.k.c.cells && !file(r, g).truncated
    ensures IsListed(file(r, g), g, cell, VerdictAt(x, g, cell))
  {
    assert IsFiled(x, r, g, file(r, g));
    OneLists(x, r, g, cell);
  }

  /** One more generation takes nothing off the report. */
  lemma RanKeeps(x: Inputs, from: nat, n: nat)
    requires x.Valid() && n > 0 && Ran(x, from, n).Some?
    ensures Ran(x, from, n - 1).Some? && Keeps(Ran(x, from, n - 1).value, Ran(x, from, n).value)
  {
    var before := Ran(x, from, n - 1).value;
    if !before.truncated {
      assert Answers(x, from)(from + n - 1);
      FilingKeeps(x, Filing(x), before, from + n - 1);
    }
  }

  lemma LastListed(x: Inputs, from: nat, n: nat, cell: nat)
    requires x.Valid() && Examined(x, from + n) && cell < x.k.c.cells
    requires Ran(x, from, n + 1).Some? && !Ran(x, from, n + 1).value.truncated
    ensures IsListed(Ran(x, from, n + 1).value, from + n, cell, VerdictAt(x, from + n, cell))
  {
    assert Answers(x, from)(from + n);
    FilingLists(x, Filing(x), Ran(x, from, n).value, from + n, cell);
  }

  /** Each cell's own finding, for every generation examined before the budget was spent, is in the report
      of the whole run. */
  lemma {:induction false} EveryFindingListed(x: Inputs, from: nat, n: nat, g: nat, cell: nat)
    requires x.Valid() && from <= g < from + n && Examined(x, g) && cell < x.k.c.cells
    requires Ran(x, from, n).Some? && Ran(x, from, g - from + 1).Some? && !Ran(x, from, g - from + 1).value.truncated
    ensures IsListed(Ran(x, from, n).value, g, cell, VerdictAt(x, g, cell))
    decreases n
  {
    if g == from + n - 1 {
      LastListed(x, from, n - 1, cell);
    } else {
      RanKeeps(x, from, n);
      EveryFindingListed(x, from, n - 1, g, cell);
    }
  }

  /** What is to be read about a generation as a whole: that it, or what its row is held against, is not there
      to be seen, or that its row is not the one the seed, or the rule applied to the row before it, makes. */
  predicate RowIsListed(x: Inputs, r: Report, g: nat) {
    && (x.load(g) == NotRecorded ==> Gap(g, None) in r.gaps)
    && (x.load(g).Loaded? && g == 0 && x.seed == None ==> Gap(0, None) in r.gaps)
    && (x.load(g).Loaded? && g == 0 && x.seed.Some? && x.seed.value != x.load(0).g.row ==> Failure(0, None, Continuity) in r.failures)
    && (x.load(g).Loaded? && g > 0 && x.load(g - 1) == NotRecorded ==> Gap(g, None) in r.gaps)
    && (x.load(g).Loaded? && g > 0 && x.load(g - 1).Loaded? && StepRow(x.k.c.rule, x.load(g - 1).g.row) != x.load(g).g.row ==>
          Failure(g, None, Continuity) in r.failures)
  }

  lemma OneListsRow(x: Inputs, r: Report, g: nat)
    requires x.Valid() && x.load(g) != LoadFailed
    ensures RowIsListed(x, OneFiled(x, r, g), g)
  {
    if x.load(g).Loaded? {
      var cur, prev, counted := x.load(g).g, Predecessor(x, g), r.(generations := r.generations + 1);
      if g == 0 || prev.Some? { CellsKeep(x.maxFailures, RowFiled(x, counted, cur, prev), g, VerdictsOn(x, cur, prev), x.k.c.cells); }
    }
  }

  lemma FilingListsRow(x: Inputs, file: (Report, nat) -> Report, r: Report, g: nat)
    requires x.Valid() && IsFiling(x, file) && x.load(g) != LoadFailed
    ensures RowIsListed(x, file(r, g), g)
  {
    assert IsFiled(x, r, g, file(r, g));
    OneListsRow(x, r, g);
  }

  lemma LastRowListed(x: Inputs, from: nat, n: nat)
    requires x.Valid() && Ran(x, from, n).Some? && !Ran(x, from, n).value.truncated && Ran(x, from, n + 1).Some?
    ensures RowIsListed(x, Ran(x, from, n + 1).value, from + n)
  {
    assert Answers(x, from)(from + n);
    FilingListsRow(x, Filing(x), Ran(x, from, n).value, from + n);
  }

  /** The finding about the row of every generation the run came to is in its report. */
  lemma {:induction false} EveryRowListed(x: Inputs, from: nat, n: nat, g: nat)
    requires x.Valid() && from <= g < from + n
    requires Ran(x, from, n).Some? && Ran(x, from, g - from).Some? && !Ran(x, from, g - from).value.truncated
    ensures RowIsListed(x, Ran(x, from, n).value, g)
    decreases n
  {
    if g == from + n - 1 {
      LastRowListed(x, from, n - 1);
    } else {
      RanKeeps(x, from, n);
      EveryRowListed(x, from, n - 1, g);
    }
  }

  /** The recorded row is not the one the seed, or the row before it, makes. */
  predicate RowBroken(x: Inputs, g: nat)
    requires x.Valid() && Examined(x, g)
  {
    if g == 0 then x.seed.Some? && x.seed.value != x.load(g).g.row
    else StepRow(x.k.c.rule, Predecessor(x, g).value.row) != x.load(g).g.row
  }

  /** What a listed failure says is so. */
  ghost predicate IsFound(x: Inputs, f: Failure)
    requires x.Valid()
  {
    && Examined(x, f.generation)
    && match f.cell
       case None => f.check == Continuity && RowBroken(x, f.generation)
       case Some(cell) => cell < x.k.c.cells && VerdictAt(x, f.generation, cell) == Failed(f.check)
  }

  ghost predicate AllFound(x: Inputs, r: Report, from: nat, n: nat)
    requires x.Valid()
  {
    forall f :: f in r.failures ==> from <= f.generation < from + n && IsFound(x, f)
  }

  lemma CellFound(x: Inputs, r: Report, g: nat, cell: nat, from: nat, count: nat)
    requires x.Valid() && Examined(x, g) && cell < x.k.c.cells && from <= g < from + count && AllFound(x, r, from, count)
    ensures AllFound(x, Filed(r, g, cell, VerdictAt(x, g, cell)), from, count)
  {}

  lemma {:induction false} CellsFound(x: Inputs, r: Report, g: nat, n: nat, from: nat, count: nat)
    requires x.Valid() && Examined(x, g) && n <= x.k.c.cells && from <= g < from + count && AllFound(x, r, from, count)
    ensures AllFound(x, CellsFiled(x.maxFailures, r, g, VerdictsOn(x, x.load(g).g, Predecessor(x, g)), n), from, count)
  {
    if n > 0 {
      CellsFound(x, r, g, n - 1, from, count);
      assert VerdictsOn(x, x.load(g).g, Predecessor(x, g))(n - 1) == VerdictAt(x, g, n - 1);
      CellFound(x, CellsFiled(x.maxFailures, r, g, VerdictsOn(x, x.load(g).g, Predecessor(x, g)), n - 1), g, n - 1, from, count);
    }
  }

  lemma RowFound(x: Inputs, r: Report, from: nat, n: nat)
    requires x.Valid() && Examined(x, from + n) && AllFound(x, r, from, n)
    ensures AllFound(x, RowFiled(x, r, x.load(from + n).g, Predecessor(x, from + n)), from, n + 1)
  {
    var g := from + n;
    var after := RowFiled(x, r, x.load(g).g, Predecessor(x, g));
    forall f | f in after.failures ensures from <= f.generation < from + n + 1 && IsFound(x, f) {
      assert f !in r.failures ==> f == Failure(g, None, Continuity) && RowBroken(x, g);
    }
  }

  lemma OneFound(x: Inputs, r: Report, from: nat, n: nat)
    requires x.Valid() && x.load(from + n) != LoadFailed && AllFound(x, r, from, n)
    ensures AllFound(x, OneFiled(x, r, from + n), from, n + 1)
  {
    var g := from + n;
    if Examined(x, g) {
      var withRow := RowFiled(x, r.(generations := r.generations + 1), x.load(g).g, Predecessor(x, g));
      RowFound(x, r.(generations := r.generations + 1), from, n);
      CellsFound(x, withRow, g, x.k.c.cells, from, n + 1);
    }
  }

  lemma FilingFound(x: Inputs, file: (Report, nat) -> Report, r: Report, from: nat, n: nat)
    requires x.Valid() && IsFiling(x, file) && x.load(from + n) != LoadFailed && AllFound(x, r, from, n)
    ensures AllFound(x, file(r, from + n), from, n + 1)
  {
    assert IsFiled(x, r, from + n, file(r, from + n));
    OneFound(x, r, from, n);
  }

  /** And no failure is in the report that the evidence does not bear out, cut short or not. */
  lemma {:induction false} NothingElseListed(x: Inputs, from: nat, n: nat)
    requires x.Valid() && Ran(x, from, n).Some?
    ensures AllFound(x, Ran(x, from, n).value, from, n)
  {
    if n > 0 {
      NothingElseListed(x, from, n - 1);
      var before := Ran(x, from, n - 1).value;
      if !before.truncated {
        assert Answers(x, from)(from + n - 1);
        FilingFound(x, Filing(x), before, from, n - 1);
      }
    }
  }

  // ---- the failure budget -------------------------------------------------------------------------------------

  /** At most the budget, and cut short exactly when it is spent; without one, never. */
  predicate KeepsBudget(budget: nat, r: Report) {
    if budget == 0 then !r.truncated else |r.failures| <= budget && (r.truncated <==> |r.failures| == budget)
  }

  lemma {:induction false} CellsKeepBudget(budget: nat, r: Report, g: nat, verdicts: nat -> Verdict, n: nat)
    requires budget > 0 && |r.failures| <= budget
    ensures |CellsFiled(budget, r, g, verdicts, n).failures| <= budget
  {
    if n > 0 { CellsKeepBudget(budget, r, g, verdicts, n - 1); }
  }

  lemma GenerationKeepsBudget(x: Inputs, r: Report, cur: Generation, prev: Option<Generation>)
    requires x.k.c.Valid() && x.k.c.RowFits(cur.row) && (prev.Some? ==> x.k.c.RowFits(prev.value.row))
    requires x.maxFailures > 0 && |r.failures| < x.maxFailures
    ensures |GenerationFiled(x, r, cur, prev).failures| <= x.maxFailures
  {
    if cur.number == 0 || prev.Some? {
      CellsKeepBudget(x.maxFailures, RowFiled(x, r, cur, prev), cur.number, VerdictsOn(x, cur, prev), x.k.c.cells);
    }
  }

  lemma OneKeepsBudget(x: Inputs, r: Report, g: nat)
    requires x.Valid() && x.load(g) != LoadFailed && KeepsBudget(x.maxFailures, r) && !r.truncated
    ensures KeepsBudget(x.maxFailures, OneFiled(x, r, g))
  {
    if x.load(g).Loaded? {
      var counted := r.(generations := r.generations + 1);
      GenerationOnlyAdds(x, counted, x.load(g).g, Predecessor(x, g));
      if x.maxFailures > 0 { GenerationKeepsBudget(x, counted, x.load(g).g, Predecessor(x, g)); }
    }
  }

  lemma FilingKeepsBudget(x: Inputs, file: (Report, nat) -> Report, r: Report, g: nat)
    requires x.Valid() && IsFiling(x, file) && x.load(g) != LoadFailed && KeepsBudget(x.maxFailures, r) && !r.truncated
    ensures KeepsBudget(x.maxFailures, file(r, g))
  {
    assert IsFiled(x, r, g, file(r, g));
    OneKeepsBudget(x, r, g);
  }

  /** A run lists no more failures than its budget and is cut short exactly when it has listed that many. */
  lemma {:induction false} RunKeepsBudget(x: Inputs, from: nat, n: nat)
    requires x.Valid() && Ran(x, from, n).Some?
    ensures KeepsBudget(x.maxFailures, Ran(x, from, n).value)
  {
    if n > 0 {
      RunKeepsBudget(x, from, n - 1);
      var before := Ran(x, from, n - 1).value;
      if !before.truncated {
        assert Answers(x, from)(from + n - 1);
        FilingKeepsBudget(x, Filing(x), before, from + n - 1);
      }
    }
  }

  // ---- what an honest record gives ------------------------------------------------------------------------

  /** Input i is the first to spend the outpoint. */
  predicate SpendsAt(tx: Tx, outpoint: Input, i: nat) {
    i < |tx.inputs| && tx.inputs[i] == outpoint && outpoint !in tx.inputs[..i]
  }

  lemma SpendsAtIsFirst(tx: Tx, outpoint: Input, i: nat)
    requires SpendsAt(tx, outpoint, i)
    ensures SpendsOutput(tx, outpoint) && IsFirstSpend(tx, outpoint, i)
    ensures forall j: nat :: IsFirstSpend(tx, outpoint, j) ==> j == i
  {
    assert forall m :: 0 <= m < i ==> tx.inputs[m] == tx.inputs[..i][m];
  }

  /** A ring whose scripts can be told apart. */
  ghost predicate Readable(c: Compiled) {
    c.Valid() && c.DistinctCodes() && forall k :: 0 <= k < c.cells ==> c.codes[k] != []
  }

  lemma ScriptIsRead(c: Compiled, cell: nat, row: Row, s: Script)
    requires Readable(c) && cell < c.cells
    ensures c.LockingScript(cell, row) == Some(s) <==> Decoded(c, s) == Some(CellScript.Binding(cell, row))
  {
    assert Encodes(c, CellScript.Binding(cell, row), s) <==> c.LockingScript(cell, row) == Some(s);
  }

  /** A transition without a link to this cell's previous output, or whose previous output is not this cell's. */
  lemma UnlinkedVerdict(x: Inputs, t: Transition)
    requires t.Fits(x) && Readable(x.k.c)
    ensures Spends(t.parentID, t.vout) !in t.tx.inputs || t.vout >= |t.parent.outputs| ==> TransitionVerdict(x, t) == Failed(Linkage)
    ensures Spends(t.parentID, t.vout) in t.tx.inputs && t.vout < |t.parent.outputs| &&
            (forall row :: x.k.c.LockingScript(t.cell, row) != Some(t.parent.outputs[t.vout].script)) ==>
              TransitionVerdict(x, t) == Failed(Check.Binding)
  {
    if t.vout < |t.parent.outputs| {
      var b := Decoded(x.k.c, t.parent.outputs[t.vout].script);
      if b.Some? { assert Encodes(x.k.c, b.value, t.parent.outputs[t.vout].script); }
    }
  }

  /** What the spend at input i presents, held against what it has to: the spend's own preimage. */
  predicate PresentsPreimage(x: Inputs, t: Transition, i: nat)
    requires t.vout < |t.parent.outputs|
  {
    && x.k.unlocking(t.tx, i).Some? && x.k.preimage(t.tx, i, t.parent.outputs[t.vout]).Some?
    && x.k.unlocking(t.tx, i).value.preimage == x.k.preimage(t.tx, i, t.parent.outputs[t.vout]).value
  }

  predicate SameAround(a: Row, b: Row, cell: nat)
    requires cell < Cells(a) == Cells(b)
  {
    var n := Cells(a);
    var above, below := if cell == n - 1 then 0 else cell + 1, if cell == 0 then n - 1 else cell - 1;
    Get(a, above) == Get(b, above) && Get(a, cell) == Get(b, cell) && Get(a, below) == Get(b, below)
  }

  lemma SameAroundIsSameBits(a: Row, b: Row, n: nat, cell: nat)
    requires cell < n == Cells(a) == Cells(b)
    ensures SameAround(a, b, cell) <==> SameBits(a, b, n, cell)
  {
    AfterIsLeft(n, cell);
    AfterIsLeft(n, if cell == 0 then n - 1 else cell - 1);
  }

  /** Output 0 of the transition is this cell's script for the row. */
  predicate ContinuesWith(x: Inputs, t: Transition, row: Row)
    requires x.k.c.Valid()
  {
    t.tx.outputs != [] && x.k.c.LockingScript(t.cell, row) == Some(t.tx.outputs[0].script)
  }

  /** The verdict on a transition that spends, at input i, the cell's script for row: what each check comes to
      in terms of scripts, rows and the automaton's step. */
  function VerdictByScripts(x: Inputs, t: Transition, row: Row, i: nat): Verdict
    requires t.Fits(x) && x.k.c.RowFits(row) && t.vout < |t.parent.outputs|
  {
    if !PresentsPreimage(x, t, i) then Failed(Covenant)
    else if !SameAround(row, t.prevRow, t.cell) then Failed(Neighbourhood)
    else if row != t.prevRow then Failed(CarriedRow)
    else
      var next := x.k.unlocking(t.tx, i).value.nextRow;
      if !ContinuesWith(x, t, next) || Get(next, t.cell) != Get(t.curRow, t.cell) then Failed(Check.Successor)
      else if Get(t.curRow, t.cell) != Get(StepRow(x.k.c.rule, t.prevRow), t.cell) then Failed(Check.Rule)
      else Checked
  }

  lemma LinkedVerdict(x: Inputs, t: Transition, row: Row, i: nat)
    requires t.Fits(x) && Readable(x.k.c) && SpendsAt(t.tx, Spends(t.parentID, t.vout), i)
    requires t.vout < |t.parent.outputs| && x.k.c.LockingScript(t.cell, row) == Some(t.parent.outputs[t.vout].script)
    ensures TransitionVerdict(x, t) == VerdictByScripts(x, t, row, i)
  {
    SpendsAtIsFirst(t.tx, Spends(t.parentID, t.vout), i);
    ScriptIsRead(x.k.c, t.cell, row, t.parent.outputs[t.vout].script);
    assert Bound(x, t) && RowRead(x, t) == row;
    assert Committed(x, t) <==> PresentsPreimage(x, t, i) by {
      assert CommitsAt(x, t, i) <==> PresentsPreimage(x, t, i);
    }
    SameAroundIsSameBits(row, t.prevRow, x.k.c.cells, t.cell);
    if Committed(x, t) && row == t.prevRow {
      ContinuedVerdict(x, t, i);
      assert Get(StepRow(x.k.c.rule, t.prevRow), t.cell) == Automaton.Successor(x.k.c.rule, t.prevRow, t.cell);
    }
  }

  lemma ContinuedVerdict(x: Inputs, t: Transition, i: nat)
    requires t.Fits(x) && Readable(x.k.c) && Carries(x, t) && IsFirstSpend(t.tx, Spends(t.parentID, t.vout), i)
    requires x.k.unlocking(t.tx, i).Some?
    ensures var next := x.k.unlocking(t.tx, i).value.nextRow;
            Succeeds(x, t) <==> ContinuesWith(x, t, next) && Get(next, t.cell) == Get(t.curRow, t.cell)
  {
    FirstSpendUnique(t.tx, Spends(t.parentID, t.vout), i);
    if t.tx.outputs != [] {
      ScriptIsRead(x.k.c, t.cell, x.k.unlocking(t.tx, i).value.nextRow, t.tx.outputs[0].script);
    }
  }

  /** A transition as the contract makes it: it spends the cell's script for the previous row with its own
      preimage, and continues the cell with the script for the row it presents, whose own bit is the
      automaton's and the recorded one. */
  ghost predicate IsProper(x: Inputs, t: Transition)
    requires t.Fits(x)
  {
    && t.vout < |t.parent.outputs| && x.k.c.LockingScript(t.cell, t.prevRow) == Some(t.parent.outputs[t.vout].script)
    && exists i :: SpendsAt(t.tx, Spends(t.parentID, t.vout), i) && IsProperAt(x, t, i)
  }

  predicate IsProperAt(x: Inputs, t: Transition, i: nat)
    requires t.Fits(x) && t.vout < |t.parent.outputs|
  {
    && PresentsPreimage(x, t, i)
    && var next := x.k.unlocking(t.tx, i).value.nextRow;
       ContinuesWith(x, t, next) && Get(next, t.cell) == Get(t.curRow, t.cell) == Get(StepRow(x.k.c.rule, t.prevRow), t.cell)
  }

  lemma FirstSpendExists(tx: Tx, outpoint: Input) returns (i: nat)
    requires outpoint in tx.inputs
    ensures SpendsAt(tx, outpoint, i)
  {
    i := 0;
    while tx.inputs[i] != outpoint
      invariant i < |tx.inputs| && outpoint !in tx.inputs[..i]
      decreases |tx.inputs| - i
    {
      i := i + 1;
    }
  }

  /** The audit finds nothing wrong with a transition exactly when it is a proper one. */
  lemma CheckedExactly(x: Inputs, t: Transition)
    requires t.Fits(x) && Readable(x.k.c)
    ensures TransitionVerdict(x, t) == Checked <==> IsProper(x, t)
  {
    if IsProper(x, t) {
      var i :| SpendsAt(t.tx, Spends(t.parentID, t.vout), i) && IsProperAt(x, t, i);
      LinkedVerdict(x, t, t.prevRow, i);
    }
    if TransitionVerdict(x, t) == Checked {
      ProvedIsSound(x, t);
      ScriptIsRead(x.k.c, t.cell, t.prevRow, t.parent.outputs[t.vout].script);
      var i := FirstSpendExists(t.tx, Spends(t.parentID, t.vout));
      LinkedVerdict(x, t, t.prevRow, i);
      assert IsProperAt(x, t, i);
    }
  }

  /** The bytes of a transaction can be had by its name. */
  predicate Has(x: Inputs, t: TxID, tx: Tx) {
    x.raw(t) == RawAnswer.Bytes(Some(tx)) && tx.id == t
  }

  ghost predicate IsHonestGenesis(x: Inputs, t: TxID, cell: nat, seed: Row)
    requires x.k.c.Valid()
  {
    exists tx :: Has(x, t, tx) && cell < |tx.outputs| && x.k.c.LockingScript(cell, seed) == Some(tx.outputs[cell].script)
  }

  ghost predicate IsHonestTransition(x: Inputs, t: TxID, parentID: TxID, vout: nat, cell: nat, prevRow: Row, curRow: Row)
    requires x.k.c.Valid() && cell < x.k.c.cells && x.k.c.RowFits(prevRow) && x.k.c.RowFits(curRow)
  {
    exists tx, parent :: Has(x, t, tx) && Has(x, parentID, parent) && IsProper(x, Transition(tx, parent, parentID, vout, cell, prevRow, curRow))
  }

  predicate NamesOne(g: Generation, cell: nat) {
    cell in g.cellTx && g.cellTx[cell].txid != "" && g.cellTx[cell].status in {History.Attempting, History.Broadcast, History.Seen, History.Mined}
  }

  /** Generation g is recorded with the seed's row for it, and every cell's transaction is a proper one. */
  ghost predicate IsHonest(x: Inputs, seed: Row, g: nat)
    requires x.Valid()
  {
    && x.k.c.RowFits(seed) && x.load(g).Loaded? && x.load(g).g.row == RowAt(x.k.c.rule, seed, g)
    && (g == 0 ==> x.seed == Some(seed))
    && (g > 0 ==> x.load(g - 1).Loaded? && x.load(g - 1).g.row == RowAt(x.k.c.rule, seed, g - 1))
    && forall cell: nat :: cell < x.k.c.cells ==> IsHonestCell(x, seed, g, cell)
  }

  ghost predicate IsHonestCell(x: Inputs, seed: Row, g: nat, cell: nat)
    requires x.Valid() && cell < x.k.c.cells && x.load(g).Loaded? && (g > 0 ==> x.load(g - 1).Loaded?)
  {
    var cur := x.load(g).g;
    && NamesOne(cur, cell)
    && if g == 0 then IsHonestGenesis(x, cur.cellTx[cell].txid, cell, seed)
       else
         var prev := x.load(g - 1).g;
         && cell in prev.cellTx && prev.cellTx[cell].txid != ""
         && IsHonestTransition(x, cur.cellTx[cell].txid, prev.cellTx[cell].txid, if g == 1 then cell else 0, cell, prev.row, cur.row)
  }

  /** Bytes that parse to a transaction of another name, or do not parse, are a failure; bytes that cannot be
      had, and rows that name nothing, are not. */
  predicate Mistaken(x: Inputs, t: TxID) {
    x.raw(t) == RawAnswer.Bytes(None) || (x.raw(t).Bytes? && x.raw(t).parsed.Some? && x.raw(t).parsed.value.id != t)
  }

  lemma EvidenceVerdict(x: Inputs, cur: Generation, prev: Option<Generation>, cell: nat)
    requires Auditable(x, cur, prev) && cell < x.k.c.cells
    ensures var v := CellVerdict(x, cur, prev, cell);
            && (!NamesOne(cur, cell) ==> v == Unseen)
            && (NamesOne(cur, cell) && cur.number > 0 && !(cell in prev.value.cellTx && prev.value.cellTx[cell].txid != "") ==> v == Unseen)
            && (NamesOne(cur, cell) && (cur.number > 0 ==> cell in prev.value.cellTx && prev.value.cellTx[cell].txid != "") ==>
                  var t := cur.cellTx[cell].txid;
                  && (x.raw(t) == Unavailable ==> v == Unseen) && (Mistaken(x, t) ==> v == Failed(Identity))
                  && (cur.number > 0 && (exists tx :: Has(x, t, tx)) ==>
                        var parentID := prev.value.cellTx[cell].txid;
                        && (x.raw(parentID) == Unavailable ==> v == Unseen) && (Mistaken(x, parentID) ==> v == Failed(Identity))))
  {}

  /** A genesis output is checked exactly when it is the cell's script for the row, and otherwise bound wrongly. */
  lemma GenesisVerdict(x: Inputs, cur: Generation, cell: nat, tx: Tx)
    requires Auditable(x, cur, None) && Readable(x.k.c) && cell < x.k.c.cells && cur.number == 0 && NamesOne(cur, cell)
    requires Has(x, cur.cellTx[cell].txid, tx)
    ensures CellVerdict(x, cur, None, cell) ==
            if cell < |tx.outputs| && x.k.c.LockingScript(cell, cur.row) == Some(tx.outputs[cell].script) then Checked else Failed(Check.Binding)
  {
    if cell < |tx.outputs| { ScriptIsRead(x.k.c, cell, cur.row, tx.outputs[cell].script); }
  }

  lemma HonestCellChecked(x: Inputs, seed: Row, g: nat, cell: nat)
    requires x.Valid() && Readable(x.k.c) && IsHonest(x, seed, g) && cell < x.k.c.cells
    ensures CellVerdict(x, x.load(g).g, Predecessor(x, g), cell) == Checked
  {
    var cur := x.load(g).g;
    assert IsHonestCell(x, seed, g, cell);
    if g == 0 {
      var tx :| Has(x, cur.cellTx[cell].txid, tx) && cell < |tx.outputs| && x.k.c.LockingScript(cell, seed) == Some(tx.outputs[cell].script);
      ScriptIsRead(x.k.c, cell, seed, tx.outputs[cell].script);
    } else {
      var prev := x.load(g - 1).g;
      HonestTransitionChecked(x, cur.cellTx[cell].txid, prev.cellTx[cell].txid, cur, prev, cell);
    }
  }

  lemma HonestTransitionChecked(x: Inputs, t: TxID, parentID: TxID, cur: Generation, prev: Generation, cell: nat)
    requires Readable(x.k.c) && cell < x.k.c.cells && x.k.c.RowFits(prev.row) && x.k.c.RowFits(cur.row)
    requires cur.number > 0 && NamesOne(cur, cell) && cur.cellTx[cell].txid == t
    requires cell in prev.cellTx && prev.cellTx[cell].txid == parentID != ""
    requires IsHonestTransition(x, t, parentID, if prev.number == 0 then cell else 0, cell, prev.row, cur.row)
    ensures CellVerdict(x, cur, Some(prev), cell) == Checked
  {
    var vout := if prev.number == 0 then cell else 0;
    var tx, parent :| Has(x, t, tx) && Has(x, parentID, parent) && IsProper(x, Transition(tx, parent, parentID, vout, cell, prev.row, cur.row));
    CheckedExactly(x, Transition(tx, parent, parentID, vout, cell, prev.row, cur.row));
  }

  lemma {:induction false} AllCheckedFiled(budget: nat, r: Report, g: nat, verdicts: nat -> Verdict, n: nat)
    requires r.failures == [] && forall cell: nat :: cell < n ==> verdicts(cell) == Checked
    ensures CellsFiled(budget, r, g, verdicts, n) == r.(transactions := r.transactions + n)
  {
    if n > 0 { AllCheckedFiled(budget, r, g, verdicts, n - 1); }
  }

  lemma HonestVerdicts(x: Inputs, seed: Row, g: nat)
    requires x.Valid() && Readable(x.k.c) && IsHonest(x, seed, g)
    ensures forall cell: nat :: cell < x.k.c.cells ==> VerdictsOn(x, x.load(g).g, Predecessor(x, g))(cell) == Checked
  {
    forall cell: nat | cell < x.k.c.cells ensures VerdictsOn(x, x.load(g).g, Predecessor(x, g))(cell) == Checked {
      HonestCellChecked(x, seed, g, cell);
    }
  }

  lemma HonestRow(x: Inputs, seed: Row, r: Report, g: nat)
    requires x.Valid() && IsHonest(x, seed, g)
    ensures RowFiled(x, r, x.load(g).g, Predecessor(x, g)) == r
  {}

  lemma CheckedGenerationFiled(x: Inputs, r: Report, cur: Generation, prev: Option<Generation>)
    requires Auditable(x, cur, prev) && RowFiled(x, r, cur, prev) == r && r.failures == []
    requires forall cell: nat :: cell < x.k.c.cells ==> VerdictsOn(x, cur, prev)(cell) == Checked
    ensures GenerationFiled(x, r, cur, prev) == r.(transactions := r.transactions + x.k.c.cells)
  {
    AllCheckedFiled(x.maxFailures, r, cur.number, VerdictsOn(x, cur, prev), x.k.c.cells);
  }

  lemma HonestIsAuditable(x: Inputs, seed: Row, g: nat)
    requires x.Valid() && IsHonest(x, seed, g)
    ensures x.load(g).Loaded? && Auditable(x, x.load(g).g, Predecessor(x, g))
  {}

  lemma HonestFiled(x: Inputs, seed: Row, r: Report, g: nat)
    requires x.Valid() && Readable(x.k.c) && IsHonest(x, seed, g) && r.failures == []
    ensures OneFiled(x, r, g) == WithGeneration(r, x.k.c.cells)
  {
    HonestIsAuditable(x, seed, g);
    HonestVerdicts(x, seed, g);
    HonestRow(x, seed, r.(generations := r.generations + 1), g);
    CheckedFiled(x, r, g);
  }

  lemma CheckedFiled(x: Inputs, r: Report, g: nat)
    requires x.Valid() && x.load(g).Loaded? && Auditable(x, x.load(g).g, Predecessor(x, g)) && r.failures == []
    requires forall cell: nat :: cell < x.k.c.cells ==> VerdictsOn(x, x.load(g).g, Predecessor(x, g))(cell) == Checked
    requires var counted := r.(generations := r.generations + 1); RowFiled(x, counted, x.load(g).g, Predecessor(x, g)) == counted
    ensures OneFiled(x, r, g) == WithGeneration(r, x.k.c.cells)
  {
    CheckedGenerationFiled(x, r.(generations := r.generations + 1), x.load(g).g, Predecessor(x, g));
  }

  /** One more generation, every cell of it checked. */
  function WithGeneration(r: Report, cells: nat): Report {
    r.(generations := r.generations + 1, transactions := r.transactions + cells)
  }

  lemma HonestFiling(x: Inputs, file: (Report, nat) -> Report, seed: Row, r: Report, g: nat)
    requires x.Valid() && IsFiling(x, file) && Readable(x.k.c) && IsHonest(x, seed, g) && r.failures == []
    ensures file(r, g) == WithGeneration(r, x.k.c.cells)
  {
    assert IsFiled(x, r, g, file(r, g));
    HonestFiled(x, seed, r, g);
  }

  lemma {:induction false} HonestFold(answers: nat -> bool, file: (Report, nat) -> Report, from: nat, n: nat, cells: nat)
    requires forall g: nat :: from <= g < from + n ==> answers(g)
    requires forall r: Report, g: nat :: from <= g < from + n && r.failures == [] ==> file(r, g) == WithGeneration(r, cells)
    ensures Folded(answers, file, from, n) == Some(Report(n, n * cells, [], [], false))
  {
    if n > 0 {
      HonestFold(answers, file, from, n - 1, cells);
      OneMoreTime(n, cells);
    }
  }

  lemma OneMoreTime(n: nat, cells: nat)
    requires n > 0
    ensures (n - 1) * cells + cells == n * cells
  {}

  ghost predicate AllHonest(x: Inputs, seed: Row, from: nat, n: nat) {
    x.Valid() && Readable(x.k.c) && forall g: nat :: from <= g < from + n ==> IsHonest(x, seed, g)
  }

  lemma HonestAnswers(x: Inputs, seed: Row, from: nat, n: nat, g: nat)
    requires AllHonest(x, seed, from, n) && from <= g < from + n
    ensures Answers(x, from)(g)
  {
    assert IsHonest(x, seed, g);
  }

  lemma HonestFilings(x: Inputs, file: (Report, nat) -> Report, seed: Row, from: nat, n: nat, r: Report, g: nat)
    requires AllHonest(x, seed, from, n) && IsFiling(x, file) && from <= g < from + n && r.failures == []
    ensures file(r, g) == WithGeneration(r, x.k.c.cells)
  {
    HonestFiling(x, file, seed, r, g);
  }

  /** Completeness: an honest record gives a report of every generation and every cell's transaction in it,
      with no failure and no gap, whatever the failure budget. */
  lemma HonestRecordIsClean(x: Inputs, seed: Row, from: nat, n: nat)
    requires AllHonest(x, seed, from, n)
    ensures Ran(x, from, n) == Some(Report(n, n * x.k.c.cells, [], [], false))
  {
    var answers, file, cells := Answers(x, from), Filing(x), x.k.c.cells;
    forall g: nat | from <= g < from + n ensures answers(g) { HonestAnswers(x, seed, from, n, g); }
    forall r: Report, g: nat | from <= g < from + n && r.failures == [] ensures file(r, g) == WithGeneration(r, cells) {
      HonestFilings(x, file, seed, from, n, r, g);
    }
    HonestFold(answers, file, from, n, cells);
  }
}
