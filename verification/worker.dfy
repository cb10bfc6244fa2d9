/** The worker that moves one cell forward a generation, step by step, against the protocol it follows. */
module Worker {
  import opened Wrappers
  import opened History
  import opened CrashSafety
  import Rejections

  const PERSIST_RETRIES: nat := 3

  predicate SomeWritten(outcomes: seq<WriteOutcome>) {
    exists k :: 0 <= k < |outcomes| && outcomes[k].Written?
  }

  /** How building and signing a transition ends. Signing is what broadcasts, so an error out of it may
      hide a transaction that went out. A quiet one, a shortage of funds or a process being stopped, is not
      recorded. */
  datatype Outcome = BeforeSigning | SigningFailed(err: string, quiet: bool, landed: Option<Spend>) | Completed(x: Spend)

  /** What the world does during one turn: the outcomes of the writes, in order, and of the transition. */
  datatype Turn = Turn(attempt: seq<WriteOutcome>, outcome: Outcome, retracted: bool, record: seq<WriteOutcome>) {
    predicate Valid() {
      && |attempt| == 3 && |record| == 3
      && (outcome.SigningFailed? ==> !Rejections.IsNotBroadcast(outcome.err))
    }

    /** The transaction that leaves the wallet during the turn, if one does. */
    function Leaves(): Option<Spend> {
      match outcome
      case BeforeSigning => None
      case SigningFailed(_, _, landed) => landed
      case Completed(x) => Some(x)
    }

    ghost function Signs(): set<Spend> {
      if SomeWritten(attempt) && Leaves().Some? then {Leaves().value} else {}
    }

    /** The turn comes to an end with everything it had to record recorded. */
    predicate AllRecorded() {
      && SomeWritten(attempt)
      && (outcome.Completed? || (outcome.SigningFailed? && !outcome.quiet) ==> SomeWritten(record))
    }
  }

  lemma SomeTry(outcomes: seq<WriteOutcome>)
    ensures SomeWritten(outcomes) <==> exists o :: o in outcomes && o.Written?
  {
    if o :| o in outcomes && o.Written? { var k :| 0 <= k < |outcomes| && outcomes[k] == o; }
  }

  /** The rows after a turn whose attempt was written, where what follows was: the record over the attempt, or
      the attempt taken back, or left. */
  function RowsAfter(turn: Turn, rows: CellRows, g: nat, otherwise: CellRows): CellRows {
    match turn.outcome
    case BeforeSigning => if turn.retracted then rows - {g} else rows[g := Record("", Attempting, "")]
    case SigningFailed(err, quiet, _) =>
      if quiet then rows[g := Record("", Attempting, "")]
      else if SomeWritten(turn.record) then rows[g := Record("", Failed, err)] else otherwise
    case Completed(x) => if SomeWritten(turn.record) then rows[g := Record(x.id, Broadcast, "")] else otherwise
  }

  /** Consecutive states are one protocol step apart. */
  ghost predicate Follows(path: seq<State>, genesis: TxID) {
    path != [] && forall i :: 0 < i < |path| ==> StepsAt(path, i, genesis)
  }

  ghost predicate StepsAt(path: seq<State>, i: nat, genesis: TxID)
    requires 0 < i < |path|
  {
    WorkerStep(path[i - 1], path[i], genesis)
  }

  lemma Extend(path: seq<State>, t: State, genesis: TxID)
    requires Follows(path, genesis) && WorkerStep(path[|path| - 1], t, genesis)
    ensures Follows(path + [t], genesis)
    ensures var s := path[|path| - 1]; Steady(path) && (s.phase == Idle ==> !s.adrift) ==> Steady(path + [t])
  {
    var longer := path + [t];
    forall i | 0 < i < |longer| ensures StepsAt(longer, i, genesis) {
      assert i < |path| ==> StepsAt(path, i, genesis);
    }
    forall i | 0 < i < |longer| && Steady(path) && (path[|path| - 1].phase == Idle ==> !path[|path| - 1].adrift)
      ensures SteadyAt(longer, i)
    {
      assert i < |path| ==> SteadyAt(path, i);
    }
  }

  /** So a turn begun by a cell that is not adrift, cut short anywhere along its path, leaves everything
      crash safety rests on. */
  lemma {:induction false} TurnKeepsInv(path: seq<State>, genesis: TxID, i: nat)
    requires Follows(path, genesis) && Steady(path) && Inv(path[0], genesis) && i < |path|
    ensures Inv(path[i], genesis)
  {
    if i > 0 {
      TurnKeepsInv(path, genesis, i - 1);
      assert StepsAt(path, i, genesis) && SteadyAt(path, i);
      WorkerKeeps(path[i - 1], path[i], genesis);
    }
  }

  lemma ErrorIsAStep(s: State, t: State, err: string, landed: Option<Spend>, genesis: TxID)
    requires s.phase == Attempted && !Rejections.IsNotBroadcast(err) && (s.halted ==> t.halted)
    requires t.rows == s.rows || t.rows == s.rows[s.Generation() + 1 := Record("", Failed, err)]
    requires landed.Some? ==> landed.value.ancestors == s.tip && Fresh(s, genesis, landed.value.id) && landed.value.id !in s.refused
    requires t == match landed
                  case None => s.(rows := t.rows, phase := Idle, halted := t.halted)
                  case Some(x) => s.(signed := s.signed + {x}, rows := t.rows, phase := Idle, halted := t.halted, adrift := true)
    ensures WorkerStep(s, t, genesis)
  {
    assert SignErred(s, t.rows, t.halted) by { assert t.rows != s.rows ==> FailedRow(s, t.rows); }
    assert if landed.Some? then SignFailsLanded(s, t, genesis) else SignFails(s, t);
  }

  /** The three steps after a signature. */
  lemma Completes(before: seq<State>, signed: State, moved: State, end: State, genesis: TxID)
    requires Follows(before, genesis) && Sign(before[|before| - 1], signed, genesis) && MoveTip(signed, moved)
    requires WriteBroadcast(moved, end) || BroadcastUnwritten(moved, end)
    ensures Follows(before + [signed, moved, end], genesis)
    ensures Steady(before) ==> Steady(before + [signed, moved, end])
  {
    Extend(before, signed, genesis);
    Extend(before + [signed], moved, genesis);
    Extend(before + [signed] + [moved], end, genesis);
    assert before + [signed] + [moved] + [end] == before + [signed, moved, end];
  }

  class CellWorker {
    var rows: CellRows
    var tip: Chain
    var halted: bool
    var needsRepair: bool
    ghost var signed: set<Spend>
    ghost var refused: set<TxID>
    ghost var phase: Phase
    ghost var adrift: bool

    constructor (start: Chain)
      ensures View() == State(map[], {}, {}, Idle, start, true, false, false)
    {
      rows, tip, halted, needsRepair := map[], start, true, false;
      signed, refused, phase, adrift := {}, {}, Idle, false;
    }

    ghost function View(): State
      reads this
    {
      State(rows, signed, refused, phase, tip, halted, needsRepair, adrift)
    }

    /** x spends the cell's output, under a name nobody has used. */
    ghost predicate MaySign(x: Spend, genesis: TxID)
      reads this
    {
      x.ancestors == tip && x.id !in refused && Fresh(View(), genesis, x.id)
    }

    /** Retries briefly, and halts the cell if the row still cannot be written. A false answer may hide a
        row that landed. */
    method Persist(g: nat, r: Record, outcomes: seq<WriteOutcome>) returns (ok: bool)
      requires |outcomes| == PERSIST_RETRIES
      modifies `rows, `halted
      ensures ok <==> SomeWritten(outcomes)
      ensures ok ==> rows == old(rows)[g := r] && halted == old(halted)
      ensures !ok ==> halted && (rows == old(rows) || rows == old(rows)[g := r])
    {
      for k := 0 to PERSIST_RETRIES
        invariant halted == old(halted) && (rows == old(rows) || rows == old(rows)[g := r])
        invariant forall j :: 0 <= j < k ==> !outcomes[j].Written?
      {
        if outcomes[k].Written? || outcomes[k].landed { rows := rows[g := r]; }
        if outcomes[k].Written? { return true; }
      }
      halted := true;
      ok := false;
    }

    /** The attempt row, before anything is built. */
    method WriteIntent(attempt: seq<WriteOutcome>, ghost genesis: TxID) returns (ok: bool, ghost path: seq<State>)
      requires |attempt| == PERSIST_RETRIES && MayAdvance(View())
      modifies `rows, `halted, `phase
      ensures Follows(path, genesis) && path[0] == old(View()) && path[|path| - 1] == View() && (!old(adrift) ==> Steady(path))
      ensures ok <==> SomeWritten(attempt)
      ensures ok ==> View() == old(View()).(rows := Attempt(old(View())), phase := Attempted)
      ensures !ok ==> halted && phase == Idle
    {
      path := [View()];
      ok := Persist(|tip|, Record("", Attempting, ""), attempt);
      if ok {
        phase := Attempted;
        assert WriteAttempt(path[0], View());
      } else {
        assert AttemptUnwritten(path[0], View());
      }
      Extend(path, View(), genesis);
      path := path + [View()];
    }

    /** The turn itself. */
    method TakeSteps(turn: Turn, ghost genesis: TxID) returns (ghost path: seq<State>)
      requires turn.Valid() && MayAdvance(View())
      requires turn.Leaves().Some? ==> MaySign(turn.Leaves().value, genesis)
      modifies this
      ensures Follows(path, genesis) && path[0] == old(View()) && path[|path| - 1] == View()
      ensures phase == Idle && (!old(adrift) ==> Steady(path))
      ensures signed == old(signed) + turn.Signs() && (halted <==> !turn.AllRecorded())
      ensures tip == if SomeWritten(turn.attempt) && turn.outcome.Completed? then turn.outcome.x.Chain() else old(tip)
      ensures needsRepair == old(needsRepair) && (SomeWritten(turn.attempt) ==> rows == RowsAfter(turn, old(rows), |old(tip)|, rows))
    {
      var ok;
      ok, path := WriteIntent(turn.attempt, genesis);
      if !ok { return; }
      match turn.outcome
      case Completed(x) =>
        path := Complete(x, turn.record, path, genesis);
      case _ =>
        path := TransitionFailed(turn, path, genesis);
    }

    /** Writes the intent before building anything, and stops there if it cannot be written. Then builds,
        signs, moves the tip and records it. Whatever the world does, the turn is a run of protocol steps;
        nothing leaves the wallet without an attempt on record, and a record that fails halts the cell. */
    method AdvanceCell(turn: Turn, ghost genesis: TxID) returns (ghost path: seq<State>)
      requires turn.Valid() && MayAdvance(View())
      requires turn.Leaves().Some? ==> MaySign(turn.Leaves().value, genesis)
      modifies this
      ensures Follows(path, genesis) && path[0] == old(View()) && path[|path| - 1] == View()
      ensures phase == Idle && (!old(adrift) ==> Steady(path))
      ensures signed == old(signed) + turn.Signs() && (halted <==> !turn.AllRecorded())
      ensures tip == if SomeWritten(turn.attempt) && turn.outcome.Completed? then turn.outcome.x.Chain() else old(tip)
      // With no try at the first row written, nothing is signed, and the cell stops where it is.
      ensures (forall o :: o in turn.attempt ==> !o.Written?) ==> halted && signed == old(signed) && tip == old(tip)
      // With some try at each row written, a transition that completes is on record, and the cell goes on from it.
      ensures (exists o :: o in turn.attempt && o.Written?) && (exists o :: o in turn.record && o.Written?) && turn.outcome.Completed? ==>
                var x := turn.outcome.x;
                && rows == old(rows)[|old(tip)| := Record(x.id, Broadcast, "")]
                && tip == old(tip) + [x.id] && signed == old(signed) + {x} && !halted && !needsRepair
      // One that fails before it is signed leaves no trace, if its attempt can be taken back.
      ensures (exists o :: o in turn.attempt && o.Written?) && turn.outcome.BeforeSigning? ==>
                && tip == old(tip) && signed == old(signed) && !halted
                && rows == if turn.retracted then old(rows) - {|tip|} else old(rows)[|tip| := Record("", Attempting, "")]
    {
      path := TakeSteps(turn, genesis);
      SomeTry(turn.attempt);
      SomeTry(turn.record);
    }

    /** A failure that provably reached no network is retracted and leaves nothing durable. Any other is
        recorded, unless it is a quiet one. */
    method TransitionFailed(turn: Turn, ghost before: seq<State>, ghost genesis: TxID) returns (ghost path: seq<State>)
      requires turn.Valid() && !turn.outcome.Completed? && phase == Attempted
      requires turn.Leaves().Some? ==> MaySign(turn.Leaves().value, genesis)
      requires Follows(before, genesis) && before[|before| - 1] == View()
      modifies `rows, `halted, `phase, `signed, `adrift
      ensures Follows(path, genesis) && before <= path && path[|path| - 1] == View() && phase == Idle
      ensures Steady(before) ==> Steady(path)
      ensures signed == old(signed) + (if turn.Leaves().Some? then {turn.Leaves().value} else {})
      ensures adrift == (old(adrift) || turn.Leaves().Some?)
      ensures turn.outcome.BeforeSigning? ==> rows == if turn.retracted then WithoutAttempt(old(rows), |tip|) else old(rows)
      ensures turn.outcome.SigningFailed? && turn.outcome.quiet ==> rows == old(rows)
      ensures turn.outcome.SigningFailed? && !turn.outcome.quiet && SomeWritten(turn.record) ==>
                rows == old(rows)[|tip| := Record("", Failed, turn.outcome.err)]
      ensures halted == (old(halted) || (turn.outcome.SigningFailed? && !turn.outcome.quiet && !SomeWritten(turn.record)))
    {
      ghost var s := View();
      var g := |tip|;
      match turn.outcome {
        case BeforeSigning =>
          if turn.retracted { rows := WithoutAttempt(rows, g); }
          phase := Idle;
          assert NotBroadcast(s, View());
        case SigningFailed(err, quiet, landed) =>
          if landed.Some? { signed, adrift := signed + {landed.value}, true; }
          if !quiet { var ok := Persist(g, Record("", Failed, err), turn.record); }
          phase := Idle;
          ErrorIsAStep(s, View(), err, landed, genesis);
      }
      Extend(before, View(), genesis);
      path := before + [View()];
    }

    /** Signed: the tip moves in memory, and only then is the row that says so written. */
    method Complete(x: Spend, record: seq<WriteOutcome>, ghost before: seq<State>, ghost genesis: TxID) returns (ghost path: seq<State>)
      requires |record| == PERSIST_RETRIES && phase == Attempted && MaySign(x, genesis)
      requires Follows(before, genesis) && before[|before| - 1] == View()
      modifies this
      ensures Follows(path, genesis) && before <= path && path[|path| - 1] == View() && phase == Idle
      ensures tip == x.Chain() && signed == old(signed) + {x} && (Steady(before) ==> Steady(path))
      ensures halted == (old(halted) || !SomeWritten(record))
      ensures SomeWritten(record) ==> rows == old(rows)[|old(tip)| := Record(x.id, Broadcast, "")]
      ensures needsRepair == old(needsRepair)
    {
      signed, phase := signed + {x}, Phase.Signed(x);
      ghost var signing := View();
      assert Sign(before[|before| - 1], signing, genesis);
      tip, phase := x.Chain(), TipMoved;
      ghost var moved := View();
      assert MoveTip(signing, moved);
      assert tip[|tip| - 1] == x.id;
      var ok := Persist(|tip| - 1, Record(x.id, Broadcast, ""), record);
      phase := Idle;
      assert if ok then WriteBroadcast(moved, View()) else BroadcastUnwritten(moved, View());
      Completes(before, signing, moved, View(), genesis);
      path := before + [signing, moved, View()];
    }
  }
}
