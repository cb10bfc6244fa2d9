/** The rules that decide a cell held down by a failed row, each from one transaction's own bytes. */
module RejectionRecovery {
  import opened Wrappers
  import Automaton
  import opened CellScript
  import opened Tips
  import Rejections
  import opened Recovery
  import Arcade

  /** The failed row a decision is about. */
  datatype Refusal = Refusal(at: nat, txid: TxID, err: string)

  // ---- the evidence each permission rests on ------------------------------------------------------

  /** t is a transition of this cell that was never recorded: named by the refusal, absent from the
      record, spending the tip, carrying the next row's script at output 0 and nowhere else, keeping
      the value, and accepted by the network. adopted is the tip it makes. */
  ghost predicate IsLostTransition(c: Compiled, s: Sources, tip: CellChain, err: string, t: TxID, adopted: CellChain)
    requires c.Valid()
  {
    var tx := ParseTip(t, s.raw(t));
    && Rejections.SpentBy(err) == Some(t)
    && s.onRecord(t) == NotOnRecord
    && tx.Some? && SpendsOutput(tx.value, tip.Outpoint())
    && c.RowFits(tip.row)
    && DerivedTip(c, tip.cell, tip.generation + 1, Automaton.StepRow(c.rule, tip.row), t, s.raw(t)) == Some(adopted)
    && adopted.satoshis == tip.satoshis
    && s.verdict(t).Verdict? && Arcade.Accepted(s.verdict(t).status)
  }

  ghost function LostTransition(c: Compiled, s: Sources, tip: CellChain, err: string): (r: Option<CellChain>)
    requires c.Valid()
    ensures forall adopted :: r == Some(adopted) <==> exists t :: IsLostTransition(c, s, tip, err, t, adopted)
  {
    if t, adopted :| IsLostTransition(c, s, tip, err, t, adopted) then Some(adopted) else None
  }

  /** The refused transaction was built on some other output: every one of its inputs can be read and
      none of them is the tip. */
  predicate BuiltElsewhere(s: Sources, tip: CellChain, r: Refusal) {
    var tx := ParseTip(r.txid, s.raw(r.txid));
    && r.at > tip.generation && r.txid != ""
    && tx.Some? && tx.value.inputs != []
    && forall input :: input in tx.value.inputs ==> input.Spends? && input != tip.Outpoint()
  }

  /** Our own failure, from before anything was signed: said twice, by the message and by the missing txid. */
  predicate NeverSigned(tip: CellChain, r: Refusal) {
    r.at > tip.generation && Rejections.IsNotBroadcast(r.err) && r.txid == ""
  }

  /** The network refused a transaction that spends the tip, so the tip is still unspent. */
  ghost predicate RefusedOnTip(s: Sources, tip: CellChain, r: Refusal) {
    var tx := ParseTip(r.txid, s.raw(r.txid));
    && r.at == tip.generation + 1 && !Rejections.IsUTXOSpent(r.err) && r.txid != ""
    && tx.Some? && SpendsOutput(tx.value, tip.Outpoint())
  }

  // ---- the four rules ---------------------------------------------------------------------------

  method RecoverSpentTip(c: Compiled, s: Sources, tip: CellChain, err: string) returns (d: Decision)
    requires c.Valid()
    ensures d == match LostTransition(c, s, tip, err) case Some(a) => Adopt(a, [a]) case None => Halt
  {
    if !c.RowFits(tip.row) { return Halt; }
    var next := Automaton.Step(c.rule, tip.row);
    var named := Rejections.ParseSpentBy(err);
    if named.None? { return Halt; }
    var t := named.value;
    match s.onRecord(t)
    case LookupFailed => return Halt;
    case OnRecord => return Halt;
    case NotOnRecord =>
      var parsed := ParseTip(t, s.raw(t));
      if parsed.None? { return Halt; }
      var input := FindSpend(parsed.value, tip.Outpoint());
      if input < 0 { return Halt; }
      var adopted := DeriveTip(c, tip.cell, tip.generation + 1, next, t, s.raw(t));
      if adopted.None? { return Halt; }
      if adopted.value.satoshis != tip.satoshis { return Halt; }
      var verdict := s.verdict(t);
      if verdict.NoVerdict? { return Halt; }
      if !Arcade.Accepted(verdict.status) { return Halt; }
      assert IsLostTransition(c, s, tip, err, t, adopted.value);
      d := Adopt(adopted.value, [adopted.value]);
  }

  method RecoverStaleRejection(s: Sources, tip: CellChain, r: Refusal) returns (d: Decision)
    ensures d == if BuiltElsewhere(s, tip, r) then Resume(tip) else Halt
  {
    if r.at <= tip.generation { return Halt; }
    if r.txid == "" { return Halt; }
    var parsed := ParseTip(r.txid, s.raw(r.txid));
    if parsed.None? { return Halt; }
    var inputs := parsed.value.inputs;
    if |inputs| == 0 { return Halt; }
    for i := 0 to |inputs|
      invariant forall input :: input in inputs[..i] ==> input.Spends? && input != tip.Outpoint()
    {
      assert inputs[i] in inputs;
      if inputs[i].NoSource? { return Halt; }
      if inputs[i] == tip.Outpoint() { return Halt; }
    }
    d := Resume(tip);
  }

  method RecoverNotBroadcast(tip: CellChain, r: Refusal) returns (d: Decision)
    ensures d == if NeverSigned(tip, r) then Resume(tip) else Halt
  {
    if r.at <= tip.generation { return Halt; }
    if !Rejections.IsNotBroadcast(r.err) { return Halt; }
    if r.txid != "" { return Halt; }
    d := Resume(tip);
  }

  method RetryRefusal(s: Sources, tip: CellChain, r: Refusal) returns (d: Decision)
    ensures d == if RefusedOnTip(s, tip, r) then Resume(tip) else Halt
  {
    if r.at != tip.generation + 1 { return Halt; }
    var spent := Rejections.CheckUTXOSpent(r.err);
    if spent { return Halt; }
    if r.txid == "" { return Halt; }
    var parsed := ParseTip(r.txid, s.raw(r.txid));
    if parsed.None? { return Halt; }
    var input := FindSpend(parsed.value, tip.Outpoint());
    if input < 0 { return Halt; }
    d := Resume(tip);
  }

  // ---- all of them together ---------------------------------------------------------------------

  /** Our own failure is decided first and finally; then the lost transition; then a parent the cell no
      longer has; then, if asked for, the refusal nobody explained. */
  ghost function Decided(c: Compiled, s: Sources, tip: CellChain, r: Refusal, retry: bool): Decision
    requires c.Valid()
  {
    var lost := LostTransition(c, s, tip, r.err);
    if Rejections.IsNotBroadcast(r.err) then if NeverSigned(tip, r) then Resume(tip) else Halt
    else if lost.Some? then Adopt(lost.value, [lost.value])
    else if BuiltElsewhere(s, tip, r) || (retry && RefusedOnTip(s, tip, r)) then Resume(tip)
    else Halt
  }

  /** Every permission is backed by evidence, and nothing else grants one: to resume on the tip, one of
      the three kinds that leave it unspent; to adopt, a lost transition, and then always; to halt, that
      there is none of them, or only one the failure's own words rule out. */
  ghost predicate IsBacked(c: Compiled, s: Sources, tip: CellChain, r: Refusal, retry: bool, d: Decision)
    requires c.Valid()
  {
    && (d.Resume? ==> && d.tip == tip
                      && (NeverSigned(tip, r) || BuiltElsewhere(s, tip, r) || (retry && RefusedOnTip(s, tip, r))))
    && (d.Adopt? ==> d.steps == [d.tip] && exists t :: IsLostTransition(c, s, tip, r.err, t, d.tip))
    && (d.Adopt? <==> !Rejections.IsNotBroadcast(r.err) && LostTransition(c, s, tip, r.err).Some?)
    && (d == Halt <==> && !NeverSigned(tip, r)
                       && (|| Rejections.IsNotBroadcast(r.err)
                           || (&& LostTransition(c, s, tip, r.err) == None
                               && !BuiltElsewhere(s, tip, r) && !(retry && RefusedOnTip(s, tip, r)))))
  }

  lemma PermissionNeedsEvidence(c: Compiled, s: Sources, tip: CellChain, r: Refusal, retry: bool)
    requires c.Valid()
    ensures IsBacked(c, s, tip, r, retry, Decided(c, s, tip, r, retry))
  {
    var lost := LostTransition(c, s, tip, r.err);
    if lost.Some? { assert lost == Some(lost.value); }
  }

  /** A message that names a spender is an already-spent message. */
  lemma NamedIsSpent(err: string)
    ensures Rejections.SpentBy(err).Some? ==> Rejections.IsUTXOSpent(err)
  {}

  method RecoverRejected(c: Compiled, s: Sources, tip: CellChain, r: Refusal, retry: bool) returns (d: Decision)
    requires c.Valid()
    ensures d == Decided(c, s, tip, r, retry)
    ensures IsBacked(c, s, tip, r, retry, d)
  {
    PermissionNeedsEvidence(c, s, tip, r, retry);
    if Rejections.IsNotBroadcast(r.err) {
      d := RecoverNotBroadcast(tip, r);
      return;
    }
    NamedIsSpent(r.err);
    var spent := Rejections.CheckUTXOSpent(r.err);
    if !spent {
      d := RecoverStaleRejection(s, tip, r);
    } else {
      d := RecoverSpentTip(c, s, tip, r.err);
      if d == Halt {
        var alt := RecoverStaleRejection(s, tip, r);
        if alt.Resume? { d := alt; }
      }
    }
    if d != Halt || !retry { return; }
    var again := RetryRefusal(s, tip, r);
    if again.Resume? { d := again; }
  }

  // ---- the decision by the failure's own words -------------------------------------------------------

  /** A failure from before anything was signed, by its own words, is gone on from exactly when it names no
      transaction and lies above the tip; nothing else is asked about it. */
  lemma OwnFailure(c: Compiled, s: Sources, tip: CellChain, r: Refusal, retry: bool)
    requires c.Valid() && "chain: not broadcast: " <= r.err
    ensures Decided(c, s, tip, r, retry) == if r.txid == "" && r.at > tip.generation then Resume(tip) else Halt
  {}

  /** The bytes of the transaction cannot be had by its name. */
  predicate OutOfReach(s: Sources, t: TxID) {
    t == "" || s.raw(t) in {Unavailable, Bytes(None)} || s.raw(t).parsed.value.id != t
  }

  /** Its inputs can all be read, there are some, and none is the tip. */
  predicate SpendsElsewhere(s: Sources, tip: CellChain, t: TxID)
    requires !OutOfReach(s, t)
  {
    var inputs := s.raw(t).parsed.value.inputs;
    inputs != [] && NoSource !in inputs && Spends(tip.txid, tip.vout) !in inputs
  }

  predicate SpendsTip(s: Sources, tip: CellChain, t: TxID)
    requires !OutOfReach(s, t)
  {
    Spends(tip.txid, tip.vout) in s.raw(t).parsed.value.inputs
  }

  /** A refusal whose words say neither that nor that an input was spent: gone on from if the refused
      transaction was built on something else, or, asked to retry the next generation, on the tip. */
  lemma UnexplainedRefusal(c: Compiled, s: Sources, tip: CellChain, r: Refusal, retry: bool)
    requires c.Valid()
    requires !("chain: not broadcast: " <= r.err) && !Rejections.Contains(Rejections.Lower(r.err), "utxo_spent")
    ensures Decided(c, s, tip, r, retry) ==
            if OutOfReach(s, r.txid) then Halt
            else if r.at > tip.generation && SpendsElsewhere(s, tip, r.txid) then Resume(tip)
            else if retry && r.at == tip.generation + 1 && SpendsTip(s, tip, r.txid) then Resume(tip)
            else Halt
  {
    assert !Rejections.IsUTXOSpent(r.err);
    NothingLost(c, s, tip, r.err);
    ElsewhereIsBuilt(s, tip, r);
    OnTipIsRefused(s, tip, r);
  }

  lemma InReach(s: Sources, t: TxID)
    ensures if OutOfReach(s, t) then t == "" || ParseTip(t, s.raw(t)) == None
            else t != "" && ParseTip(t, s.raw(t)) == Some(s.raw(t).parsed.value)
  {}

  lemma OnTipIsRefused(s: Sources, tip: CellChain, r: Refusal)
    requires !Rejections.IsUTXOSpent(r.err)
    ensures RefusedOnTip(s, tip, r) <==> !OutOfReach(s, r.txid) && r.at == tip.generation + 1 && SpendsTip(s, tip, r.txid)
  {
    InReach(s, r.txid);
  }

  lemma NothingLost(c: Compiled, s: Sources, tip: CellChain, err: string)
    requires c.Valid() && !Rejections.IsUTXOSpent(err)
    ensures LostTransition(c, s, tip, err) == None
  {
    NamedIsSpent(err);
    forall adopted ensures LostTransition(c, s, tip, err) != Some(adopted) {}
  }

  lemma ElsewhereIsBuilt(s: Sources, tip: CellChain, r: Refusal)
    ensures BuiltElsewhere(s, tip, r) <==> !OutOfReach(s, r.txid) && r.at > tip.generation && SpendsElsewhere(s, tip, r.txid)
  {
    InReach(s, r.txid);
    if !OutOfReach(s, r.txid) && SpendsElsewhere(s, tip, r.txid) {
      forall input | input in s.raw(r.txid).parsed.value.inputs ensures input.Spends? && input != tip.Outpoint() {
        match input case NoSource => case Spends(t, v) =>
      }
    }
  }

  /** The tip's own next transition, made here or elsewhere: it spends the tip, output 0 and no other is the
      cell's script for the next row, with the tip's value, and the network has accepted it. */
  ghost predicate IsAcceptedNext(c: Compiled, s: Sources, tip: CellChain, t: TxID)
    requires c.Valid()
  {
    && !OutOfReach(s, t) && SpendsTip(s, tip, t)
    && (var outputs, want := s.raw(t).parsed.value.outputs, c.LockingScript(tip.cell, Automaton.StepRow(c.rule, tip.row));
        && outputs != [] && want == Some(outputs[0].script) && outputs[0].satoshis == tip.satoshis
        && forall i :: 1 <= i < |outputs| ==> want != Some(outputs[i].script))
    && s.verdict(t) in {Verdict(Arcade.AcceptedByNetwork), Verdict(Arcade.SeenOnNetwork), Verdict(Arcade.SeenMultipleNodes),
                        Verdict(Arcade.Mined), Verdict(Arcade.Immutable)}
  }

  /** A refusal that names a spender, t: t is adopted exactly when no row names it and it is such a transition.
      Otherwise the cell goes on only from a refusal built on something else, whether asked to retry or not. */
  lemma SpentRefusal(c: Compiled, s: Sources, tip: CellChain, r: Refusal, retry: bool, t: TxID)
    requires c.Valid() && c.RowFits(tip.row) && t != ""
    requires !("chain: not broadcast: " <= r.err) && Rejections.SpentBy(r.err) == Some(t)
    ensures Decided(c, s, tip, r, retry) ==
            if s.onRecord(t) == NotOnRecord && IsAcceptedNext(c, s, tip, t) then
              var next := CellChain(tip.cell, t, 0, tip.satoshis, tip.generation + 1, Automaton.StepRow(c.rule, tip.row));
              Adopt(next, [next])
            else if !OutOfReach(s, r.txid) && r.at > tip.generation && SpendsElsewhere(s, tip, r.txid) then Resume(tip)
            else Halt
  {
    NamedIsSpent(r.err);
    ElsewhereIsBuilt(s, tip, r);
    var next := CellChain(tip.cell, t, 0, tip.satoshis, tip.generation + 1, Automaton.StepRow(c.rule, tip.row));
    AcceptedIsLost(c, s, tip, r.err, t, next);
    var lost := LostTransition(c, s, tip, r.err);
    if lost.Some? {
      var u :| IsLostTransition(c, s, tip, r.err, u, lost.value);
      AdoptedIsNextGeneration(c, s, tip, r.err, u, lost.value);
    }
  }

  lemma AcceptedIsLost(c: Compiled, s: Sources, tip: CellChain, err: string, t: TxID, next: CellChain)
    requires c.Valid() && c.RowFits(tip.row) && t != "" && Rejections.SpentBy(err) == Some(t)
    requires next == CellChain(tip.cell, t, 0, tip.satoshis, tip.generation + 1, Automaton.StepRow(c.rule, tip.row))
    ensures IsLostTransition(c, s, tip, err, t, next) <==> s.onRecord(t) == NotOnRecord && IsAcceptedNext(c, s, tip, t)
  {
    if !OutOfReach(s, t) {
      var outputs, want := s.raw(t).parsed.value.outputs, c.LockingScript(tip.cell, next.row);
      if want.Some? {
        assert (forall i :: MatchesAt(outputs, want.value, i) <==> i == 0) <==>
               outputs != [] && want == Some(outputs[0].script) && forall i :: 1 <= i < |outputs| ==> want != Some(outputs[i].script)
          by { OnlyFirstMatches(outputs, want.value); }
      }
      assert IsDerivedTip(c, tip.cell, tip.generation + 1, next.row, t, s.raw(t), next) <==>
             want.Some? && (forall i :: MatchesAt(outputs, want.value, i) <==> i == 0) && outputs != [] && next.satoshis == outputs[0].satoshis;
    }
  }

  lemma OnlyFirstMatches(outputs: seq<Output>, want: Script)
    ensures (forall i :: MatchesAt(outputs, want, i) <==> i == 0) <==>
            outputs != [] && want == outputs[0].script && forall i :: 1 <= i < |outputs| ==> want != outputs[i].script
  {
    if forall i :: MatchesAt(outputs, want, i) <==> i == 0 {
      assert MatchesAt(outputs, want, 0);
      forall i | 1 <= i < |outputs| ensures want != outputs[i].script { assert !MatchesAt(outputs, want, i); }
    }
  }

  /** An adopted transaction is the cell's next generation whoever built it: it spends the tip, keeps its
      value, and its output 0 locks the next row. */
  lemma AdoptedIsNextGeneration(c: Compiled, s: Sources, tip: CellChain, err: string, t: TxID, adopted: CellChain)
    requires c.Valid() && IsLostTransition(c, s, tip, err, t, adopted)
    ensures adopted == CellChain(tip.cell, t, 0, tip.satoshis, tip.generation + 1, Automaton.StepRow(c.rule, tip.row))
    ensures var tx := ParseTip(t, s.raw(t)).value;
            && tx.id == t && tx.outputs != []
            && c.LockingScript(tip.cell, adopted.row) == Some(tx.outputs[0].script)
  {}

  lemma LessEvidenceLess(c: Compiled, less: Sources, more: Sources, tip: CellChain, r: Refusal)
    requires c.Valid() && Degrades(less, more)
    ensures LostTransition(c, less, tip, r.err).Some? ==> LostTransition(c, more, tip, r.err) == LostTransition(c, less, tip, r.err)
    ensures BuiltElsewhere(less, tip, r) ==> BuiltElsewhere(more, tip, r)
    ensures RefusedOnTip(less, tip, r) ==> RefusedOnTip(more, tip, r)
  {
    var lost := LostTransition(c, less, tip, r.err);
    if lost.Some? {
      var t :| IsLostTransition(c, less, tip, r.err, t, lost.value);
      assert IsLostTransition(c, more, tip, r.err, t, lost.value);
    }
  }

  /** Losing evidence never turns a halt into permission. The one verdict it can change otherwise is an
      adoption: without the network's word for the lost transition, a refusal built elsewhere still
      resumes. */
  lemma LostEvidenceNeverGrants(c: Compiled, less: Sources, more: Sources, tip: CellChain, r: Refusal, retry: bool)
    requires c.Valid() && Degrades(less, more)
    ensures var d := Decided(c, less, tip, r, retry);
            || d == Halt
            || d == Decided(c, more, tip, r, retry)
            || (Decided(c, more, tip, r, retry).Adopt? && d == Resume(tip) && BuiltElsewhere(more, tip, r))
  {
    LessEvidenceLess(c, less, more, tip, r);
  }

  /** It does change: the adoption of a lost transition becomes a resume on the tip it spent. */
  lemma SilentOracleResumes(c: Compiled, s: Sources, tip: CellChain, r: Refusal, retry: bool)
    requires c.Valid() && Decided(c, s, tip, r, retry).Adopt? && BuiltElsewhere(s, tip, r)
    ensures var silent := s.(verdict := _ => NoVerdict);
            Degrades(silent, s) && Decided(c, silent, tip, r, retry) == Resume(tip)
  {}
}
