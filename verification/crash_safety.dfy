/** One cell under a single writer that may die between any two steps: what is signed, what is written,
    and what a restart concludes. Cells share nothing but the process, so every cell runs this machine. */
module CrashSafety {
  import opened Wrappers
  import opened History
  import opened Derivation
  import opened Repair
  import Rejections

  /** The transactions of one cell, from genesis to the one holding its current output. */
  type Chain = c: seq<TxID> | c != [] witness [""]

  /** A signed transition. It fixes every ancestor back to genesis, the last being the output it spends. */
  datatype Spend = Spend(id: TxID, ancestors: Chain) {
    function Chain(): Chain { ancestors + [id] }
    function Generation(): nat { |ancestors| }
  }

  /** Where the cell's worker is inside one transition; a dead process is Down. */
  datatype Phase = Down | Idle | Attempted | Signed(x: Spend) | TipMoved

  /** rows are durable; signed and refused are facts about the wallet and the network; the rest is memory,
      which dies with the process. The tip is the chain that ends at the output to be spent next. adrift is
      something the process does not know: signing gave it an error for a transaction that did go out. */
  datatype State = State(
    rows: CellRows, signed: set<Spend>, refused: set<TxID>,
    phase: Phase, tip: Chain, halted: bool, needsRepair: bool, adrift: bool)
  {
    function Generation(): nat { |tip| - 1 }
  }

  // ---- steps ------------------------------------------------------------------------------------

  function Attempt(s: State): CellRows {
    s.rows[s.Generation() + 1 := Record("", Attempting, "")]
  }

  predicate MayAdvance(s: State) {
    s.phase == Idle && !s.halted && !s.needsRepair
  }

  ghost predicate WriteAttempt(s: State, t: State) {
    MayAdvance(s) && t == s.(rows := Attempt(s), phase := Attempted)
  }

  /** A write reported as failed halts the cell and ends the turn; the row may have landed all the same. */
  ghost predicate AttemptUnwritten(s: State, t: State) {
    MayAdvance(s) && (t == s.(halted := true) || t == s.(rows := Attempt(s), halted := true))
  }

  /** An error before signing retracts the attempt, if the retraction can be written. */
  ghost predicate NotBroadcast(s: State, t: State) {
    && s.phase == Attempted
    && (t == s.(phase := Idle) || t == s.(phase := Idle, rows := WithoutAttempt(s.rows, s.Generation() + 1)))
  }

  ghost predicate Fresh(s: State, genesis: TxID, id: TxID) {
    id != "" && id != genesis && forall x :: x in s.signed ==> x.id != id && id !in x.ancestors
  }

  /** Signing is what broadcasts. */
  ghost predicate Sign(s: State, t: State, genesis: TxID) {
    && s.phase == Attempted && t.phase.Signed? && t.phase.x.ancestors == s.tip
    && Fresh(s, genesis, t.phase.x.id) && t.phase.x.id !in s.refused
    && t == s.(signed := s.signed + {t.phase.x}, phase := t.phase)
  }

  /** A failure recorded past the point of signing, which never carries the not-broadcast prefix. */
  ghost predicate FailedRow(s: State, rows: CellRows) {
    exists err :: !Rejections.IsNotBroadcast(err) && rows == s.rows[s.Generation() + 1 := Record("", Failed, err)]
  }

  /** What an error out of signing leaves of the rows: a failure with no transaction; nothing, when the
      error is a shortage of funds or the process is stopping; or either of the two and a halt, when the
      failure could not be written. */
  ghost predicate SignErred(s: State, rows: CellRows, halted: bool) {
    && s.phase == Attempted && (rows == s.rows || FailedRow(s, rows)) && (s.halted ==> halted)
  }

  /** An error out of signing, with nothing having left the wallet. */
  ghost predicate SignFails(s: State, t: State) {
    SignErred(s, t.rows, t.halted) && t == s.(rows := t.rows, phase := Idle, halted := t.halted)
  }

  /** The same error after the transaction did reach the network. */
  ghost predicate SignFailsLanded(s: State, t: State, genesis: TxID) {
    && SignErred(s, t.rows, t.halted)
    && exists x: Spend :: x.ancestors == s.tip && Fresh(s, genesis, x.id) && x.id !in s.refused
                          && t == s.(signed := s.signed + {x}, rows := t.rows, phase := Idle, halted := t.halted, adrift := true)
  }

  ghost predicate MoveTip(s: State, t: State) {
    s.phase.Signed? && t == s.(tip := s.phase.x.Chain(), phase := TipMoved)
  }

  function Broadcasted(s: State): CellRows {
    s.rows[s.Generation() := Record(s.tip[|s.tip| - 1], Broadcast, "")]
  }

  ghost predicate WriteBroadcast(s: State, t: State) {
    s.phase == TipMoved && t == s.(rows := Broadcasted(s), phase := Idle)
  }

  ghost predicate BroadcastUnwritten(s: State, t: State) {
    && s.phase == TipMoved
    && (t == s.(phase := Idle, halted := true) || t == s.(rows := Broadcasted(s), phase := Idle, halted := true))
  }

  ghost predicate Crash(s: State, t: State) {
    t == s.(phase := Down, adrift := false)
  }

  /** A chain somebody holds the bytes of: genesis, or one of the signed transitions. */
  ghost predicate KnownChain(signed: set<Spend>, genesis: TxID, chain: Chain) {
    chain == [genesis] || exists x :: x in signed && x.Chain() == chain
  }

  ghost predicate ClaimsChain(s: State, genesis: TxID, f: Finding, chain: Chain) {
    && KnownChain(s.signed, genesis, chain) && f.claim.Some?
    && |chain| == f.claim.value.generation + 1 && chain[|chain| - 1] == f.claim.value.txid
  }

  /** The position derivation gives a cell: its tip, when the rows name one, and whether it is halted. */
  ghost predicate Positioned(s: State, t: State, genesis: TxID, f: Finding, halted: bool) {
    && (f.claim.Some? ==> ClaimsChain(s, genesis, f, t.tip)) && (f.claim.None? ==> halted && t.tip == s.tip)
    && t == s.(phase := Idle, tip := t.tip, halted := halted, needsRepair := false, adrift := false)
  }

  ghost predicate Derive(s: State, t: State, genesis: TxID) {
    var f := Classify(s.rows, genesis);
    s.phase == Down && Positioned(s, t, genesis, f, f.halted)
  }

  /** A status update replaces the recorded error along with the status. */
  function Marked(rows: CellRows, id: TxID, status: Status, err: string): CellRows {
    map g | g in rows :: if rows[g].txid == id then rows[g].(status := status, err := err) else rows[g]
  }

  ghost predicate NetworkRefuses(s: State, t: State) {
    exists x :: x in s.signed && t == s.(refused := s.refused + {x.id})
  }

  /** A refusal reaches the engine: its row becomes a failure, and the cell is repaired or halted. */
  ghost predicate LearnRefusal(s: State, t: State) {
    && s.phase != Down && (s.halted ==> t.halted)
    && exists id, err :: id in s.refused && id != ""
                         && t == s.(rows := Marked(s.rows, id, Failed, err), halted := t.halted, needsRepair := t.needsRepair)
  }

  ghost predicate LearnAcceptance(s: State, t: State) {
    exists id, status, err ::
      status in {Seen, History.Mined} && id != "" && t == s.(rows := Marked(s.rows, id, status, err))
  }

  // Recovery and repair, on the finding the rows give. Any halt they come to leaves the rows alone.

  ghost predicate RepairLooks(s: State, t: State, genesis: TxID) {
    var f := Classify(s.rows, genesis);
    s.phase == Idle && !s.halted && s.needsRepair && !Considered(f) && Positioned(s, t, genesis, f, f.halted)
  }

  ghost predicate RepairHalts(s: State, t: State) {
    s.phase == Idle && t == s.(halted := true, needsRepair := false)
  }

  /** No transition of this generation was signed and is still standing. */
  ghost predicate NoneLiveAt(s: State, g: nat) {
    forall x :: Live(s, x) ==> x.Generation() != g
  }

  /** Resumes on an attempt only when the wallet holds no signature for it. */
  ghost predicate ResumeAttempt(s: State, t: State, genesis: TxID) {
    var f := Classify(s.rows, genesis);
    var kept := s.(rows := WithoutAttempt(s.rows, f.attempted));
    s.phase == Idle && f.unknown && NoneLiveAt(s, f.attempted) && Positioned(kept, t, genesis, f, false)
  }

  /** Resumes on a failure only when it names a transaction, or says it came before signing. */
  ghost predicate ResumeRejection(s: State, t: State, genesis: TxID) {
    var f := Classify(s.rows, genesis);
    var kept := s.(rows := WithoutRejection(s.rows, f.rejectedAt, f.rejectionTxID));
    && s.phase == Idle && f.rejected && !f.unknown
    && (f.rejectionTxID != "" || Rejections.IsNotBroadcast(f.rejectionErr))
    && Positioned(kept, t, genesis, f, false)
  }

  /** No other transition of its generation is standing. */
  ghost predicate Unrivalled(s: State, x: Spend) {
    forall y :: Live(s, y) && y.Generation() == x.Generation() ==> y == x
  }

  /** A signed transition that spends the tip the rows give, and that nothing standing rivals. */
  ghost predicate Adoptable(s: State, genesis: TxID, x: Spend) {
    var f := Classify(s.rows, genesis);
    s.phase == Idle && x in s.signed && ClaimsChain(s, genesis, f, x.ancestors) && Unrivalled(s, x)
  }

  function Adopted(s: State, x: Spend): CellRows {
    s.rows[x.Generation() := Record(x.id, Broadcast, "")]
  }

  /** One row of an adoption that has more to come. The cell stays halted. */
  ghost predicate AdoptRow(s: State, t: State, genesis: TxID) {
    exists x :: Adoptable(s, genesis, x) && t == s.(rows := Adopted(s, x), halted := true)
  }

  /** The last row of an adoption, which releases the cell at the tip it adopts. */
  ghost predicate AdoptAndRelease(s: State, t: State, genesis: TxID) {
    exists x :: Adoptable(s, genesis, x) && t == ReleasedAt(s, x)
  }

  function ReleasedAt(s: State, x: Spend): State {
    s.(rows := Adopted(s, x), tip := x.Chain(), halted := false, needsRepair := false, adrift := false)
  }

  ghost predicate WorkerStep(s: State, t: State, genesis: TxID) {
    || WriteAttempt(s, t) || AttemptUnwritten(s, t) || NotBroadcast(s, t) || Sign(s, t, genesis)
    || SignFails(s, t) || SignFailsLanded(s, t, genesis) || MoveTip(s, t) || WriteBroadcast(s, t) || BroadcastUnwritten(s, t)
  }

  ghost predicate OutsideStep(s: State, t: State, genesis: TxID) {
    Crash(s, t) || Derive(s, t, genesis) || NetworkRefuses(s, t) || LearnRefusal(s, t) || LearnAcceptance(s, t)
  }

  ghost predicate RepairStep(s: State, t: State, genesis: TxID) {
    || RepairLooks(s, t, genesis) || RepairHalts(s, t) || ResumeAttempt(s, t, genesis) || ResumeRejection(s, t, genesis)
    || AdoptRow(s, t, genesis) || AdoptAndRelease(s, t, genesis)
  }

  ghost predicate Step(s: State, t: State, genesis: TxID) {
    WorkerStep(s, t, genesis) || OutsideStep(s, t, genesis) || RepairStep(s, t, genesis)
  }

  /** A deployment is seeded with its genesis row before it first derives; a process that dies while seeding
      leaves a cell without one, which is not seeded again. */
  ghost predicate Init(s: State, genesis: TxID) {
    && genesis != "" && (s.rows == map[] || s.rows == Seeded(genesis))
    && s == State(s.rows, {}, {}, Down, [genesis], true, false, false)
  }

  ghost predicate IsRun(run: seq<State>, genesis: TxID) {
    && run != [] && Init(run[0], genesis)
    && forall i :: 0 < i < |run| ==> StepAt(run, i, genesis)
  }

  ghost predicate StepAt(run: seq<State>, i: nat, genesis: TxID)
    requires 0 < i < |run|
  {
    Step(run[i - 1], run[i], genesis)
  }

  /** A turn of the worker begins. */
  ghost predicate TakesTurn(s: State, t: State) {
    WriteAttempt(s, t) || AttemptUnwritten(s, t)
  }

  /** The cell takes no turn between an error that hid a broadcast and the end of the process, or a
      derivation, that forgets it. */
  ghost predicate Steady(run: seq<State>) {
    forall i :: 0 < i < |run| ==> SteadyAt(run, i)
  }

  ghost predicate SteadyAt(run: seq<State>, i: nat)
    requires 0 < i < |run|
  {
    TakesTurn(run[i - 1], run[i]) ==> !run[i - 1].adrift
  }

  // ---- what every step keeps ---------------------------------------------------------------------

  /** Signed, and neither it nor anything it is built on has been refused. */
  ghost predicate Live(s: State, x: Spend) {
    x in s.signed && forall a :: a in x.Chain() ==> a !in s.refused
  }

  /** Every signed transition is built on genesis or on another signed one, and names are unique. */
  ghost predicate Lineage(signed: set<Spend>, genesis: TxID) {
    && genesis != ""
    && (forall x :: x in signed ==> x.id != "" && x.id != genesis)
    && (forall x {:trigger HasParent(signed, genesis, x)} :: x in signed ==> HasParent(signed, genesis, x))
    && (forall x, y :: x in signed && y in signed && x.id == y.id ==> x == y)
  }

  ghost predicate HasParent(signed: set<Spend>, genesis: TxID, x: Spend) {
    KnownChain(signed, genesis, x.ancestors)
  }

  /** A failure that names nothing, and does not say it came before signing, says nothing about what was signed. */
  predicate SaysNothing(r: Record) {
    r.status == Failed && r.txid == "" && !Rejections.IsNotBroadcast(r.err)
  }

  predicate Covers(rows: CellRows, g: nat) {
    g in rows && (rows[g].status == Attempting || Settled(rows[g]) || SaysNothing(rows[g]))
  }

  /** The key invariant: a standing transition always has a row at its generation that is attempting or
      settled, or a failure that does not deny it. */
  ghost predicate EverySignatureHasARow(s: State) {
    forall x :: Live(s, x) ==> Covers(s.rows, x.Generation())
  }

  /** And a settled one at the generation it was built on. */
  ghost predicate ParentsAreSettled(s: State) {
    forall x :: Live(s, x) && x.Generation() > 1 ==>
      x.Generation() - 1 in s.rows && Settled(s.rows[x.Generation() - 1])
  }

  /** A settled row names whichever standing transition has its generation. */
  ghost predicate RowsNameTheStanding(s: State) {
    forall x :: Live(s, x) && x.Generation() in s.rows && Settled(s.rows[x.Generation()]) ==>
      s.rows[x.Generation()].txid == x.id
  }

  ghost predicate OnePerGeneration(s: State) {
    forall x, y :: Live(s, x) && Live(s, y) && x.Generation() == y.Generation() ==> x == y
  }

  /** Nothing standing spends the tip, except what the worker itself just signed; and the tip is the
      standing transition of its own generation, if there is one. */
  ghost predicate TipUnspent(s: State, except: set<Spend>) {
    && (forall x :: Live(s, x) && x !in except ==> x.Generation() <= s.Generation())
    && (forall x :: Live(s, x) && x.Generation() == s.Generation() ==> x.Chain() == s.tip)
  }

  /** A tip that stands has been recorded. */
  ghost predicate TipRecorded(s: State) {
    forall x :: Live(s, x) && x.Generation() == s.Generation() ==>
      s.Generation() in s.rows && Settled(s.rows[s.Generation()])
  }

  ghost predicate MemoryTrue(s: State) {
    match s.phase
    case Down => true
    case Idle => !s.halted && !s.adrift ==> TipUnspent(s, {}) && TipRecorded(s)
    case Attempted => TipUnspent(s, {}) && TipRecorded(s) && AttemptWritten(s)
    case Signed(x) => TipUnspent(s, {x}) && x in s.signed && x.ancestors == s.tip && AttemptWritten(s)
    case TipMoved => TipUnspent(s, {}) && s.Generation() > 0
  }

  ghost predicate AttemptWritten(s: State) {
    s.Generation() + 1 in s.rows && s.rows[s.Generation() + 1] == Record("", Attempting, "")
  }

  ghost predicate Inv(s: State, genesis: TxID) {
    && Lineage(s.signed, genesis) && KnownChain(s.signed, genesis, s.tip)
    && Durable(s) && MemoryTrue(s)
  }

  /** What holds of the rows, the wallet and the network, whatever the memory says. */
  ghost predicate Durable(s: State) {
    && EverySignatureHasARow(s) && ParentsAreSettled(s) && RowsNameTheStanding(s) && OnePerGeneration(s)
    && AttemptsAreUnnamed(s.rows)
  }

  ghost predicate AttemptsAreUnnamed(rows: CellRows) {
    forall g :: g in rows && rows[g].status == Attempting ==> rows[g].txid == ""
  }

  /** Steps that touch neither the rows nor what is signed can only shrink what is standing. */
  lemma FewerStanding(s: State, t: State)
    requires Durable(s) && t.rows == s.rows && t.signed == s.signed && s.refused <= t.refused
    ensures Durable(t) && forall x :: Live(t, x) ==> Live(s, x)
  {}

  lemma SameStanding(s: State, t: State)
    requires t.signed == s.signed && t.refused == s.refused
    ensures forall x :: Live(t, x) <==> Live(s, x)
  {}

  /** A row may be written where nothing stands, or as an attempt, or naming what stands there; and only
      as a settled one where anything is built on what stands there. */
  lemma RowWritten(s: State, t: State, g: nat, r: Record)
    requires Durable(s) && t.signed == s.signed && t.refused == s.refused && t.rows == s.rows[g := r]
    requires forall x :: Live(s, x) && x.Generation() == g ==> r.status == Attempting || (Settled(r) && r.txid == x.id)
    requires r.status == Attempting ==> r.txid == ""
    requires Settled(r) || NoneLiveAt(s, g + 1)
    ensures Durable(t)
  {
    SameStanding(s, t);
  }

  /** And removed where nothing stands. */
  lemma RowRemoved(s: State, t: State, g: nat)
    requires Durable(s) && t.signed == s.signed && t.refused == s.refused && t.rows == s.rows - {g}
    requires NoneLiveAt(s, g) && NoneLiveAt(s, g + 1)
    ensures Durable(t)
  {
    SameStanding(s, t);
  }

  lemma AttemptDurable(s: State, t: State)
    requires Durable(s) && TipUnspent(s, {}) && t.signed == s.signed && t.refused == s.refused && t.rows == Attempt(s)
    ensures Durable(t)
  {
    RowWritten(s, t, s.Generation() + 1, Record("", Attempting, ""));
  }

  lemma TipKept(s: State, t: State)
    requires TipUnspent(s, {}) && TipRecorded(s) && t.signed == s.signed && t.refused == s.refused && t.tip == s.tip
    requires s.Generation() in s.rows ==> s.Generation() in t.rows && t.rows[s.Generation()] == s.rows[s.Generation()]
    ensures TipUnspent(t, {}) && TipRecorded(t)
  {
    SameStanding(s, t);
  }

  lemma WriteAttemptKeeps(s: State, t: State, genesis: TxID)
    requires Inv(s, genesis) && WriteAttempt(s, t) && !s.adrift
    ensures Inv(t, genesis)
  {
    AttemptDurable(s, t);
    TipKept(s, t);
  }

  lemma AttemptUnwrittenKeeps(s: State, t: State, genesis: TxID)
    requires Inv(s, genesis) && AttemptUnwritten(s, t) && !s.adrift
    ensures Inv(t, genesis)
  {
    SameStanding(s, t);
    if t.rows == Attempt(s) { AttemptDurable(s, t); }
  }

  lemma AttemptRetracted(s: State, t: State)
    requires Durable(s) && TipUnspent(s, {}) && t.signed == s.signed && t.refused == s.refused
    requires t.rows == WithoutAttempt(s.rows, s.Generation() + 1)
    ensures Durable(t)
  {
    if t.rows != s.rows { RowRemoved(s, t, s.Generation() + 1); }
  }

  lemma NotBroadcastKeeps(s: State, t: State, genesis: TxID)
    requires Inv(s, genesis) && NotBroadcast(s, t)
    ensures Inv(t, genesis)
  {
    TipKept(s, t);
    if t.rows == WithoutAttempt(s.rows, s.Generation() + 1) { AttemptRetracted(s, t); }
  }

  /** What stands after one more signature stood before, or is the new one. */
  lemma StandingAfter(s: State, t: State, genesis: TxID, n: Spend)
    requires Fresh(s, genesis, n.id) && t.signed == s.signed + {n} && t.refused == s.refused
    ensures forall x :: Live(t, x) ==> x == n || Live(s, x)
  {}

  /** If the new one stands on a transition rather than on genesis, that one stands and has its row. */
  lemma TipStands(s: State, t: State, genesis: TxID, n: Spend)
    requires KnownChain(s.signed, genesis, s.tip) && TipRecorded(s) && n.ancestors == s.tip
    requires t.refused == s.refused && Live(t, n) && n.Generation() > 1
    ensures n.Generation() - 1 in s.rows && Settled(s.rows[n.Generation() - 1])
  {
    var p: Spend :| p in s.signed && p.Chain() == s.tip;
    forall a | a in p.Chain() ensures a !in s.refused { assert a in n.Chain(); }
    assert Live(s, p);
  }

  /** What signing on an unspent, recorded tip does to what is durable. */
  lemma SignatureAdded(s: State, t: State, genesis: TxID, n: Spend)
    requires KnownChain(s.signed, genesis, s.tip) && Durable(s)
    requires TipUnspent(s, {}) && TipRecorded(s) && AttemptWritten(s)
    requires n.ancestors == s.tip && Fresh(s, genesis, n.id)
    requires t.signed == s.signed + {n} && t.refused == s.refused && t.rows == s.rows
    ensures Durable(t) && forall x :: Live(t, x) ==> x == n || Live(s, x)
  {
    StandingAfter(s, t, genesis, n);
    if Live(t, n) && n.Generation() > 1 { TipStands(s, t, genesis, n); }
    assert n.Generation() == s.Generation() + 1;
    assert EverySignatureHasARow(t);
    assert ParentsAreSettled(t);
    assert RowsNameTheStanding(t);
    assert OnePerGeneration(t);
  }

  lemma LineageGrows(s: State, genesis: TxID, n: Spend)
    requires Lineage(s.signed, genesis) && KnownChain(s.signed, genesis, n.ancestors) && Fresh(s, genesis, n.id)
    ensures Lineage(s.signed + {n}, genesis)
  {
    var more := s.signed + {n};
    forall x | x in more ensures HasParent(more, genesis, x) {
      assert x in s.signed ==> HasParent(s.signed, genesis, x);
      KnownStays(s.signed, more, genesis, x.ancestors);
    }
  }

  lemma SignKeeps(s: State, t: State, genesis: TxID)
    requires Inv(s, genesis) && Sign(s, t, genesis)
    ensures Inv(t, genesis)
  {
    var n := t.phase.x;
    SignatureAdded(s, t, genesis, n);
    LineageGrows(s, genesis, n);
    KnownStays(s.signed, t.signed, genesis, s.tip);
  }

  lemma KnownStays(signed: set<Spend>, more: set<Spend>, genesis: TxID, chain: Chain)
    requires KnownChain(signed, genesis, chain) && signed <= more
    ensures KnownChain(more, genesis, chain)
  {}

  lemma FailureDurable(s: State, t: State)
    requires Durable(s) && TipUnspent(s, {}) && t.signed == s.signed && t.refused == s.refused
    requires t.rows == s.rows || FailedRow(s, t.rows)
    ensures Durable(t)
  {
    SameStanding(s, t);
    if t.rows != s.rows { RowWritten(s, t, s.Generation() + 1, t.rows[s.Generation() + 1]); }
  }

  lemma SignFailsKeeps(s: State, t: State, genesis: TxID)
    requires Inv(s, genesis) && SignFails(s, t)
    ensures Inv(t, genesis)
  {
    TipKept(s, t);
    FailureDurable(s, t);
  }

  /** A failure over what was just signed still does not deny it. */
  lemma FailureOverSignature(s: State, t: State, n: Spend)
    requires Durable(s) && TipUnspent(s, {n}) && n.ancestors == s.tip && t.signed == s.signed && t.refused == s.refused
    requires FailedRow(s, t.rows)
    ensures Durable(t)
  {
    SameStanding(s, t);
  }

  lemma LandedDurable(s: State, t: State, genesis: TxID, n: Spend)
    requires KnownChain(s.signed, genesis, s.tip) && Durable(s) && TipUnspent(s, {}) && TipRecorded(s) && AttemptWritten(s)
    requires n.ancestors == s.tip && Fresh(s, genesis, n.id)
    requires t.signed == s.signed + {n} && t.refused == s.refused && (t.rows == s.rows || FailedRow(s, t.rows))
    ensures Durable(t)
  {
    var signed := s.(signed := t.signed);
    SignatureAdded(s, signed, genesis, n);
    if t.rows != s.rows { FailureOverSignature(signed, t, n); } else { SameStanding(signed, t); }
  }

  lemma SignFailsLandedKeeps(s: State, t: State, genesis: TxID)
    requires Inv(s, genesis) && SignFailsLanded(s, t, genesis)
    ensures Inv(t, genesis)
  {
    var n: Spend :| n.ancestors == s.tip && Fresh(s, genesis, n.id) && n.id !in s.refused
      && t == s.(signed := s.signed + {n}, rows := t.rows, phase := Idle, halted := t.halted, adrift := true);
    LandedDurable(s, t, genesis, n);
    LineageGrows(s, genesis, n);
    KnownStays(s.signed, t.signed, genesis, s.tip);
  }

  lemma MoveTipKeeps(s: State, t: State, genesis: TxID)
    requires Inv(s, genesis) && MoveTip(s, t)
    ensures Inv(t, genesis)
  {
    SameStanding(s, t);
  }

  lemma TipIsNamed(s: State, genesis: TxID)
    requires Lineage(s.signed, genesis) && KnownChain(s.signed, genesis, s.tip)
    ensures s.tip[|s.tip| - 1] != ""
  {
    if s.tip != [genesis] {
      var x :| x in s.signed && x.Chain() == s.tip;
      assert x.Chain()[|x.ancestors|] == x.id;
    }
  }

  lemma BroadcastDurable(s: State, t: State)
    requires Durable(s) && TipUnspent(s, {}) && s.tip[|s.tip| - 1] != ""
    requires t.signed == s.signed && t.refused == s.refused && t.rows == Broadcasted(s)
    ensures Durable(t)
  {
    var r := t.rows[s.Generation()];
    forall x | Live(s, x) && x.Generation() == s.Generation() ensures Settled(r) && r.txid == x.id {
      assert s.tip[|s.tip| - 1] == x.Chain()[|x.ancestors|];
    }
    RowWritten(s, t, s.Generation(), r);
  }

  lemma WriteBroadcastKeeps(s: State, t: State, genesis: TxID)
    requires Inv(s, genesis) && WriteBroadcast(s, t)
    ensures Inv(t, genesis)
  {
    TipIsNamed(s, genesis);
    BroadcastDurable(s, t);
    SameStanding(s, t);
  }

  lemma BroadcastUnwrittenKeeps(s: State, t: State, genesis: TxID)
    requires Inv(s, genesis) && BroadcastUnwritten(s, t)
    ensures Inv(t, genesis)
  {
    SameStanding(s, t);
    TipIsNamed(s, genesis);
    if t.rows == Broadcasted(s) { BroadcastDurable(s, t); }
  }

  lemma WorkerKeeps(s: State, t: State, genesis: TxID)
    requires Inv(s, genesis) && WorkerStep(s, t, genesis) && (TakesTurn(s, t) ==> !s.adrift)
    ensures Inv(t, genesis)
  {
    if WriteAttempt(s, t) { WriteAttemptKeeps(s, t, genesis); }
    else if AttemptUnwritten(s, t) { AttemptUnwrittenKeeps(s, t, genesis); }
    else if NotBroadcast(s, t) { NotBroadcastKeeps(s, t, genesis); }
    else if Sign(s, t, genesis) { SignKeeps(s, t, genesis); }
    else if SignFails(s, t) { SignFailsKeeps(s, t, genesis); }
    else if SignFailsLanded(s, t, genesis) { SignFailsLandedKeeps(s, t, genesis); }
    else if MoveTip(s, t) { MoveTipKeeps(s, t, genesis); }
    else if WriteBroadcast(s, t) { WriteBroadcastKeeps(s, t, genesis); }
    else { BroadcastUnwrittenKeeps(s, t, genesis); }
  }

  // ---- refusals and acceptances -------------------------------------------------------------------

  /** The memory stays true of a world that only refuses more, as long as attempts are left alone. */
  lemma MemoryKept(s: State, t: State, genesis: TxID)
    requires Inv(s, genesis) && Durable(t)
    requires t.signed == s.signed && s.refused <= t.refused && t.tip == s.tip && t.phase == s.phase
    requires (s.halted ==> t.halted) && t.adrift == s.adrift
    requires Marks(s, t)
    requires forall g :: g in s.rows && s.rows[g] == Record("", Attempting, "") ==> g in t.rows && t.rows[g] == s.rows[g]
    ensures Inv(t, genesis)
  {
    assert forall x :: Live(t, x) ==> Live(s, x);
  }

  /** Settled rows of what stands stay settled. */
  ghost predicate Marks(s: State, t: State) {
    forall x :: Live(t, x) && x.Generation() in s.rows && Settled(s.rows[x.Generation()]) ==>
      x.Generation() in t.rows && Settled(t.rows[x.Generation()])
  }

  lemma RefusalKeeps(s: State, t: State, genesis: TxID)
    requires Inv(s, genesis) && NetworkRefuses(s, t)
    ensures Inv(t, genesis)
  {
    FewerStanding(s, t);
    MemoryKept(s, t, genesis);
  }

  /** A standing transition's parent is genesis or itself standing. */
  lemma ParentStands(s: State, genesis: TxID, x: Spend) returns (p: Spend)
    requires Lineage(s.signed, genesis) && Live(s, x) && x.Generation() > 1
    ensures Live(s, p) && p.Chain() == x.ancestors && p.Generation() == x.Generation() - 1
  {
    assert HasParent(s.signed, genesis, x);
    p :| p in s.signed && p.Chain() == x.ancestors;
    forall a | a in p.Chain() ensures a !in s.refused { assert a in x.Chain(); }
  }

  /** Marking a refused transaction leaves every row that names something standing. */
  lemma StandingUnmarked(s: State, rows: CellRows, id: TxID, err: string, x: Spend)
    requires Durable(s) && id in s.refused && id != "" && rows == Marked(s.rows, id, Failed, err) && Live(s, x)
    ensures x.Generation() in rows && rows[x.Generation()] == s.rows[x.Generation()]
  {
    assert x.id == x.Chain()[|x.ancestors|] && x.id in x.Chain();
  }

  lemma MarkedFailed(s: State, t: State, genesis: TxID, id: TxID, err: string)
    requires Lineage(s.signed, genesis) && Durable(s) && id in s.refused && id != ""
    requires t.signed == s.signed && t.refused == s.refused && t.rows == Marked(s.rows, id, Failed, err)
    ensures Durable(t) && Marks(s, t)
  {
    SameStanding(s, t);
    forall x | Live(s, x)
      ensures x.Generation() in t.rows && t.rows[x.Generation()] == s.rows[x.Generation()]
      ensures x.Generation() > 1 ==> t.rows[x.Generation() - 1] == s.rows[x.Generation() - 1]
    {
      StandingUnmarked(s, t.rows, id, err, x);
      if x.Generation() > 1 {
        var p := ParentStands(s, genesis, x);
        StandingUnmarked(s, t.rows, id, err, p);
      }
    }
  }

  lemma LearnRefusalKeeps(s: State, t: State, genesis: TxID)
    requires Inv(s, genesis) && LearnRefusal(s, t)
    ensures Inv(t, genesis)
  {
    var id, err :| id in s.refused && id != ""
      && t == s.(rows := Marked(s.rows, id, Failed, err), halted := t.halted, needsRepair := t.needsRepair);
    MarkedFailed(s, t, genesis, id, err);
    MemoryKept(s, t, genesis);
  }

  lemma MarkedSettled(s: State, t: State, id: TxID, status: Status, err: string)
    requires Durable(s) && status in {Seen, History.Mined} && id != ""
    requires t.signed == s.signed && t.refused == s.refused && t.rows == Marked(s.rows, id, status, err)
    ensures Durable(t) && Marks(s, t)
  {
    SameStanding(s, t);
  }

  lemma LearnAcceptanceKeeps(s: State, t: State, genesis: TxID)
    requires Inv(s, genesis) && LearnAcceptance(s, t)
    ensures Inv(t, genesis)
  {
    var id, status, err :|
      status in {Seen, History.Mined} && id != "" && t == s.(rows := Marked(s.rows, id, status, err));
    MarkedSettled(s, t, id, status, err);
    MemoryKept(s, t, genesis);
  }

  // ---- deriving -------------------------------------------------------------------------------------

  /** So if nothing stands one generation above a point, nothing stands anywhere above it. */
  lemma {:induction false} NoneAbove(s: State, genesis: TxID, g: nat, x: Spend)
    requires Lineage(s.signed, genesis) && NoneLiveAt(s, g + 1) && Live(s, x)
    ensures x.Generation() <= g
    decreases x.Generation()
  {
    if x.Generation() > g + 1 {
      var p := ParentStands(s, genesis, x);
      NoneAbove(s, genesis, g, p);
    }
  }

  lemma ClaimedTip(s: State, genesis: TxID, base: nat, chain: Chain)
    requires Lineage(s.signed, genesis) && Durable(s) && KnownChain(s.signed, genesis, chain)
    requires base in s.rows && Settled(s.rows[base]) && |chain| == base + 1 && chain[base] == s.rows[base].txid
    ensures forall x :: Live(s, x) && x.Generation() == base ==> x.Chain() == chain
  {
    forall x | Live(s, x) && x.Generation() == base ensures x.Chain() == chain {
      assert x.id == chain[base];
      if chain != [genesis] {
        var y :| y in s.signed && y.Chain() == chain;
        assert y.id == y.Chain()[base];
      }
    }
  }

  /** A claim is the newest settled row, or genesis when there are no rows at all. */
  ghost predicate ClaimHolds(rows: CellRows, genesis: TxID, claim: Claim) {
    || (rows == map[] && claim == Claim(0, genesis))
    || (claim.generation in rows && Settled(rows[claim.generation]) && rows[claim.generation].txid == claim.txid)
  }

  lemma NothingStandsWithoutRows(s: State)
    requires Durable(s) && s.rows == map[]
    ensures forall x :: !Live(s, x)
  {
    assert forall x :: Live(s, x) ==> x.Generation() in s.rows;
  }

  /** Whatever stands right above the claim left a row there that is attempting or says nothing. */
  lemma StandingAboveTheClaim(s: State, genesis: TxID, f: Finding, x: Spend)
    requires Durable(s) && IsFinding(s.rows, genesis, f) && f.claim.Some?
    requires Live(s, x) && x.Generation() == f.claim.value.generation + 1
    ensures f.halted && (f.rejected && !f.unknown ==> f.rejectedAt == x.Generation() && SaysNothing(s.rows[f.rejectedAt]))
  {
    assert Covers(s.rows, x.Generation());
    assert s.rows != map[];
    var base: nat :| IsBase(s.rows, base) && IsFindingAbove(s.rows, base, f);
    assert base + 1 in Above(s.rows, base, s.rows[base + 1].status);
  }

  /** Where derivation leaves a cell unhalted, or offers it for a failure that does say something, nothing
      standing spends the tip it claims: anything that did would have left a row above it. */
  lemma NothingSpendsTheClaim(s: State, genesis: TxID)
    requires Durable(s)
    ensures var f := Classify(s.rows, genesis);
            f.claim.Some? ==>
              && ClaimHolds(s.rows, genesis, f.claim.value)
              && (!f.halted || (f.rejected && !f.unknown && !SaysNothing(s.rows[f.rejectedAt])) ==>
                    NoneLiveAt(s, f.claim.value.generation + 1))
  {
    var f := Classify(s.rows, genesis);
    if f.claim.Some? {
      forall x | Live(s, x) && x.Generation() == f.claim.value.generation + 1
        ensures f.halted && (f.rejected && !f.unknown ==> SaysNothing(s.rows[f.rejectedAt]))
      {
        StandingAboveTheClaim(s, genesis, f, x);
      }
    }
  }

  /** And nothing standing is two generations above the claim: it would have settled the one between. */
  lemma NothingBeyondTheNext(s: State, genesis: TxID, f: Finding)
    requires Durable(s) && IsFinding(s.rows, genesis, f) && f.claim.Some?
    ensures NoneLiveAt(s, f.claim.value.generation + 2)
  {
    if s.rows != map[] {
      var base: nat :| IsBase(s.rows, base) && IsFindingAbove(s.rows, base, f);
      assert !(base + 1 in s.rows && Settled(s.rows[base + 1]));
    } else {
      NothingStandsWithoutRows(s);
    }
  }

  /** Installing a claimed tip keeps the invariant if nothing spends it or the cell is halted. */
  lemma PositionedKeeps(s: State, t: State, genesis: TxID, f: Finding, halted: bool)
    requires Lineage(s.signed, genesis) && Durable(s) && Positioned(s, t, genesis, f, halted)
    requires KnownChain(s.signed, genesis, s.tip)
    requires f.claim.Some? && !halted ==>
               && ClaimHolds(s.rows, genesis, f.claim.value)
               && NoneLiveAt(s, f.claim.value.generation + 1)
    ensures Inv(t, genesis)
  {
    SameStanding(s, t);
    if !halted {
      var base := f.claim.value.generation;
      forall x | Live(s, x) ensures x.Generation() <= base { NoneAbove(s, genesis, base, x); }
      if s.rows == map[] {
        NothingStandsWithoutRows(s);
      } else {
        ClaimedTip(s, genesis, base, t.tip);
      }
    }
  }

  lemma DeriveKeeps(s: State, t: State, genesis: TxID)
    requires Inv(s, genesis) && (Derive(s, t, genesis) || RepairLooks(s, t, genesis))
    ensures Inv(t, genesis)
  {
    NothingSpendsTheClaim(s, genesis);
    PositionedKeeps(s, t, genesis, Classify(s.rows, genesis), Classify(s.rows, genesis).halted);
  }

  lemma ResumeAttemptKeeps(s: State, t: State, genesis: TxID)
    requires Inv(s, genesis) && ResumeAttempt(s, t, genesis)
    ensures Inv(t, genesis)
  {
    var f := Classify(s.rows, genesis);
    var kept := s.(rows := WithoutAttempt(s.rows, f.attempted));
    var base := ConsideredBase(s.rows, genesis, f);
    SameStanding(s, kept);
    forall x | Live(s, x) ensures x.Generation() <= base { NoneAbove(s, genesis, base, x); }
    if kept.rows != s.rows { RowRemoved(s, kept, f.attempted); }
    PositionedKeeps(kept, t, genesis, f, false);
  }

  lemma RejectionFacts(rows: CellRows, genesis: TxID, f: Finding)
    requires IsFinding(rows, genesis, f) && f.rejected
    ensures f.claim.Some? && f.rejectedAt > f.claim.value.generation && f.rejectedAt in rows
    ensures f.rejectionTxID == rows[f.rejectedAt].txid && f.rejectionErr == rows[f.rejectedAt].err
  {
    var base: nat :| IsBase(rows, base) && IsFindingAbove(rows, base, f);
  }

  lemma ResumeRejectionKeeps(s: State, t: State, genesis: TxID)
    requires Inv(s, genesis) && ResumeRejection(s, t, genesis)
    ensures Inv(t, genesis)
  {
    var f := Classify(s.rows, genesis);
    var kept := s.(rows := WithoutRejection(s.rows, f.rejectedAt, f.rejectionTxID));
    var base := ConsideredBase(s.rows, genesis, f);
    SameStanding(s, kept);
    NothingSpendsTheClaim(s, genesis);
    RejectionFacts(s.rows, genesis, f);
    forall x | Live(s, x) ensures x.Generation() <= base { NoneAbove(s, genesis, base, x); }
    if kept.rows != s.rows { RowRemoved(s, kept, f.rejectedAt); }
    PositionedKeeps(kept, t, genesis, f, false);
  }

  lemma AdoptedDurable(s: State, t: State, genesis: TxID, x: Spend)
    requires Inv(s, genesis) && Adoptable(s, genesis, x)
    requires t.signed == s.signed && t.refused == s.refused && t.rows == Adopted(s, x)
    ensures Durable(t)
  {
    RowWritten(s, t, x.Generation(), Record(x.id, Broadcast, ""));
  }

  lemma AdoptRowKeeps(s: State, t: State, genesis: TxID)
    requires Inv(s, genesis) && AdoptRow(s, t, genesis)
    ensures Inv(t, genesis)
  {
    var x :| Adoptable(s, genesis, x) && t == s.(rows := Adopted(s, x), halted := true);
    AdoptedDurable(s, t, genesis, x);
  }

  /** Nothing has to be asked of what lies above an adopted tip: nothing standing can be there. */
  lemma AdoptAndReleaseKeeps(s: State, t: State, genesis: TxID)
    requires Inv(s, genesis) && AdoptAndRelease(s, t, genesis)
    ensures Inv(t, genesis)
  {
    var x :| Adoptable(s, genesis, x) && t == ReleasedAt(s, x);
    AdoptedDurable(s, t, genesis, x);
    SameStanding(s, t);
    NothingBeyondTheNext(s, genesis, Classify(s.rows, genesis));
    forall y | Live(s, y) ensures y.Generation() <= x.Generation() { NoneAbove(s, genesis, x.Generation(), y); }
  }

  // ---- every step, every run --------------------------------------------------------------------------

  lemma StepKeeps(s: State, t: State, genesis: TxID)
    requires Inv(s, genesis) && Step(s, t, genesis) && (TakesTurn(s, t) ==> !s.adrift)
    ensures Inv(t, genesis)
  {
    if WorkerStep(s, t, genesis) { WorkerKeeps(s, t, genesis); }
    else if Derive(s, t, genesis) || RepairLooks(s, t, genesis) { DeriveKeeps(s, t, genesis); }
    else if NetworkRefuses(s, t) { RefusalKeeps(s, t, genesis); }
    else if LearnRefusal(s, t) { LearnRefusalKeeps(s, t, genesis); }
    else if LearnAcceptance(s, t) { LearnAcceptanceKeeps(s, t, genesis); }
    else if ResumeAttempt(s, t, genesis) { ResumeAttemptKeeps(s, t, genesis); }
    else if ResumeRejection(s, t, genesis) { ResumeRejectionKeeps(s, t, genesis); }
    else if AdoptRow(s, t, genesis) { AdoptRowKeeps(s, t, genesis); }
    else if AdoptAndRelease(s, t, genesis) { AdoptAndReleaseKeeps(s, t, genesis); }
    else { SameStanding(s, t); }
  }

  lemma {:induction false} RunKeeps(run: seq<State>, genesis: TxID, i: nat)
    requires IsRun(run, genesis) && Steady(run) && i < |run|
    ensures Inv(run[i], genesis)
  {
    if i > 0 {
      RunKeeps(run, genesis, i - 1);
      assert StepAt(run, i, genesis) && SteadyAt(run, i);
      StepKeeps(run[i - 1], run[i], genesis);
    }
  }

  function Spent(x: Spend): TxID {
    x.ancestors[|x.ancestors| - 1]
  }

  /** Crash safety: whenever a dead process is started again, at any point of any run, a cell left
      unhalted has a tip that nothing it signed, and that still stands, has spent. */
  lemma DerivedTipIsUnspent(run: seq<State>, genesis: TxID, t: State)
    requires IsRun(run, genesis) && Steady(run) && Derive(run[|run| - 1], t, genesis) && !t.halted
    ensures forall x :: Live(t, x) ==> Spent(x) != t.tip[|t.tip| - 1]
  {
    var s := run[|run| - 1];
    RunKeeps(run, genesis, |run| - 1);
    StepKeeps(s, t, genesis);
    forall x | Live(t, x) ensures Spent(x) != t.tip[|t.tip| - 1] {
      assert HasParent(t.signed, genesis, x);
      if Spent(x) == t.tip[|t.tip| - 1] { SameNameSameChain(t.signed, genesis, x.ancestors, t.tip); }
    }
  }

  /** The last name of a known chain determines all of it. */
  lemma SameNameSameChain(signed: set<Spend>, genesis: TxID, a: Chain, b: Chain)
    requires Lineage(signed, genesis) && KnownChain(signed, genesis, a) && KnownChain(signed, genesis, b)
    requires a[|a| - 1] == b[|b| - 1]
    ensures a == b
  {
    if a != [genesis] && b != [genesis] {
      var x := MemberNamed(signed, genesis, a);
      var y := MemberNamed(signed, genesis, b);
    } else if a != [genesis] {
      var x := MemberNamed(signed, genesis, a);
    } else if b != [genesis] {
      var y := MemberNamed(signed, genesis, b);
    }
  }

  lemma MemberNamed(signed: set<Spend>, genesis: TxID, chain: Chain) returns (x: Spend)
    requires Lineage(signed, genesis) && KnownChain(signed, genesis, chain) && chain != [genesis]
    ensures x in signed && x.Chain() == chain && x.id == chain[|chain| - 1] && x.id != genesis
  {
    x :| x in signed && x.Chain() == chain;
    assert x.Chain()[|x.ancestors|] == x.id;
  }

  lemma SameSpentSame(s: State, genesis: TxID, x: Spend, y: Spend)
    requires Lineage(s.signed, genesis) && OnePerGeneration(s) && Live(s, x) && Live(s, y) && Spent(x) == Spent(y)
    ensures x == y
  {
    assert HasParent(s.signed, genesis, x) && HasParent(s.signed, genesis, y);
    SameNameSameChain(s.signed, genesis, x.ancestors, y.ancestors);
  }

  /** And so no output is ever spent twice: of two signatures over one output, at least one was refused
      or is built on something that was. */
  lemma NoDoubleSpend(run: seq<State>, genesis: TxID, i: nat, x: Spend, y: Spend)
    requires IsRun(run, genesis) && Steady(run) && i < |run|
    requires Live(run[i], x) && Live(run[i], y) && Spent(x) == Spent(y)
    ensures x == y
  {
    RunKeeps(run, genesis, i);
    SameSpentSame(run[i], genesis, x, y);
  }

  // ---- the turn that signs a second time --------------------------------------------------------------

  /** One turn, begun on a tip that something standing already spends, spends it again. */
  lemma SpentTipSignsTwice(s: State, genesis: TxID, x: Spend, id: TxID) returns (u: State, v: State)
    requires MayAdvance(s) && Live(s, x) && x.ancestors == s.tip && Fresh(s, genesis, id) && id !in s.refused
    ensures WriteAttempt(s, u) && Sign(u, v, genesis)
    ensures var y := v.phase.x; Live(v, x) && Live(v, y) && x != y && Spent(x) == Spent(y)
  {
    var y := Spend(id, s.tip);
    u := s.(rows := Attempt(s), phase := Attempted);
    v := u.(signed := u.signed + {y}, phase := Signed(y));
    assert Fresh(u, genesis, id);
    forall a | a in y.Chain() ensures a !in v.refused { assert a == id || a in x.Chain(); }
  }

  ghost predicate SpendsTwice(s: State) {
    exists x, y :: Live(s, x) && Live(s, y) && x != y && Spent(x) == Spent(y)
  }

  ghost predicate TipIsSpent(s: State) {
    exists x :: Live(s, x) && x.ancestors == s.tip
  }

  lemma SecondSpendIsNew(s: State, genesis: TxID, n: Spend, x: Spend, y: Spend)
    requires Lineage(s.signed, genesis) && OnePerGeneration(s) && KnownChain(s.signed, genesis, s.tip)
    requires n.ancestors == s.tip && (x == n || Live(s, x)) && (y == n || Live(s, y)) && x != y && Spent(x) == Spent(y)
    ensures (x == n || y == n) && TipIsSpent(s)
  {
    if x != n && y != n { SameSpentSame(s, genesis, x, y); }
    var other := if x == n then y else x;
    assert HasParent(s.signed, genesis, other);
    SameNameSameChain(s.signed, genesis, other.ancestors, s.tip);
  }

  lemma SpentTwice(s: State, v: State, n: Spend)
    requires TipIsSpent(s) && Live(v, n) && n.ancestors == s.tip && n !in s.signed
    requires s.signed <= v.signed && v.refused == s.refused
    ensures SpendsTwice(v)
  {
    var x :| Live(s, x) && x.ancestors == s.tip;
    assert Live(v, x);
  }

  /** And that is the only way: a turn that signs spends an output twice exactly when its own signature
      stands and something standing already spent the tip it began on. */
  lemma TurnSpendsTwiceExactly(s: State, u: State, v: State, genesis: TxID)
    requires Inv(s, genesis) && WriteAttempt(s, u) && Sign(u, v, genesis)
    ensures SpendsTwice(v) <==> Live(v, v.phase.x) && TipIsSpent(s)
  {
    var n := v.phase.x;
    StandingAfter(s, v, genesis, n);
    if x, y :| Live(v, x) && Live(v, y) && x != y && Spent(x) == Spent(y) {
      SecondSpendIsNew(s, genesis, n, x, y);
    }
    if Live(v, n) && TipIsSpent(s) { SpentTwice(s, v, n); }
  }

  /** Why the claim needs a steady run. After an error that hid a broadcast the cell is adrift: unless it
      was halted, by a row that could not be written or by a refusal, its next turn spends the output
      again, wherever in whatever run this happens. */
  lemma LandedFailureDoubleSpends(s: State, t: State, genesis: TxID, id: TxID) returns (u: State, v: State)
    requires SignFailsLanded(s, t, genesis) && !t.halted && !t.needsRepair
    requires (forall a :: a in t.tip ==> a !in t.refused) && Fresh(t, genesis, id) && id !in t.refused
    ensures t.adrift && TakesTurn(t, u) && Sign(u, v, genesis) && SpendsTwice(v)
  {
    var x: Spend :| x.ancestors == s.tip && Fresh(s, genesis, x.id) && x.id !in s.refused
      && t == s.(signed := s.signed + {x}, rows := t.rows, phase := Idle, halted := t.halted, adrift := true);
    assert Live(t, x);
    u, v := SpentTipSignsTwice(t, genesis, x, id);
  }

  /** Killed there instead, the process comes back to a cell whose rows hold it down. */
  lemma LandedFailureIsFound(s: State, t: State, genesis: TxID)
    requires Inv(s, genesis) && SignFailsLanded(s, t, genesis)
    ensures var f := Classify(t.rows, genesis);
            f.claim.Some? && !f.halted ==> NoneLiveAt(t, f.claim.value.generation + 1)
  {
    SignFailsLandedKeeps(s, t, genesis);
    NothingSpendsTheClaim(t, genesis);
  }
}
