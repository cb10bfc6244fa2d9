/** A cell's tip: rebuilding it from a record, and verifying a candidate successor, from a transaction's bytes. */
module Tips {
  import opened Wrappers
  import opened Automaton
  import opened CellScript

  /** An input names the outpoint it spends, unless its source cannot be read. */
  datatype Input = Spends(txid: TxID, vout: nat) | NoSource

  datatype Output = Output(script: Script, satoshis: nat)

  /** A parsed transaction; id is the hash of the bytes it was parsed from. */
  datatype Tx = Tx(id: TxID, inputs: seq<Input>, outputs: seq<Output>)

  /** A lookup of a transaction's bytes: no answer, or bytes, which may or may not parse. */
  datatype RawAnswer = Unavailable | Bytes(parsed: Option<Tx>)

  /** The output a cell will spend next, and the row that output carries. */
  datatype CellChain = CellChain(cell: nat, txid: TxID, vout: nat, satoshis: nat, generation: nat, row: Row) {
    function Outpoint(): Input {
      Spends(txid, vout)
    }
  }

  /** Bytes are evidence only when they parse and hash to the name they were asked for by. */
  function ParseTip(txid: TxID, raw: RawAnswer): Option<Tx> {
    if raw.Bytes? && raw.parsed.Some? && raw.parsed.value.id == txid then raw.parsed else None
  }

  predicate SpendsOutput(tx: Tx, outpoint: Input) {
    outpoint in tx.inputs
  }

  method FindSpend(tx: Tx, outpoint: Input) returns (input: int)
    ensures -1 <= input < |tx.inputs|
    ensures input >= 0 ==> tx.inputs[input] == outpoint && outpoint !in tx.inputs[..input]
    ensures input >= 0 <==> SpendsOutput(tx, outpoint)
  {
    for i := 0 to |tx.inputs|
      invariant outpoint !in tx.inputs[..i]
    {
      if tx.inputs[i] == outpoint { return i; }
    }
    input := -1;
  }

  /** The outputs carrying one script: none, exactly one, or too many to choose between. */
  datatype Match = NoMatch | Unique(index: nat) | Ambiguous

  ghost predicate MatchesAt(outputs: seq<Output>, want: Script, i: int) {
    0 <= i < |outputs| && outputs[i].script == want
  }

  ghost predicate IsMatch(outputs: seq<Output>, want: Script, m: Match) {
    match m
    case NoMatch => forall i :: !MatchesAt(outputs, want, i)
    case Unique(k) => forall i :: MatchesAt(outputs, want, i) <==> i == k
    case Ambiguous => exists i, j :: MatchesAt(outputs, want, i) && MatchesAt(outputs, want, j) && i != j
  }

  method FindOutput(outputs: seq<Output>, want: Script) returns (m: Match)
    ensures IsMatch(outputs, want, m)
    ensures SaysHowMany(outputs, want, m)
  {
    m := ScanOutputs(outputs, want);
    MatchCounts(outputs, want, m);
  }

  /** None, two or more, or one and which. */
  ghost predicate SaysHowMany(outputs: seq<Output>, want: Script, m: Match) {
    && (m.NoMatch? <==> forall i :: 0 <= i < |outputs| ==> outputs[i].script != want)
    && (m.Ambiguous? <==> exists i, j :: 0 <= i < j < |outputs| && outputs[i].script == want && outputs[j].script == want)
    && (m.Unique? ==> m.index < |outputs| && outputs[m.index].script == want)
  }

  lemma MatchCounts(outputs: seq<Output>, want: Script, m: Match)
    requires IsMatch(outputs, want, m)
    ensures SaysHowMany(outputs, want, m)
  {
    match m
    case NoMatch =>
      forall i | 0 <= i < |outputs| ensures outputs[i].script != want { assert !MatchesAt(outputs, want, i); }
    case Unique(k) =>
      assert MatchesAt(outputs, want, k);
      forall i | 0 <= i < |outputs| && outputs[i].script == want ensures i == k { assert MatchesAt(outputs, want, i); }
    case Ambiguous =>
      var i, j :| MatchesAt(outputs, want, i) && MatchesAt(outputs, want, j) && i != j;
      assert i < j || j < i;
  }

  method ScanOutputs(outputs: seq<Output>, want: Script) returns (m: Match)
    ensures IsMatch(outputs, want, m)
  {
    var found := -1;
    for i := 0 to |outputs|
      invariant -1 <= found < i
      invariant found >= 0 ==> MatchesAt(outputs, want, found)
      invariant forall j :: MatchesAt(outputs, want, j) && j < i ==> j == found
    {
      if outputs[i].script == want {
        if found >= 0 {
          assert MatchesAt(outputs, want, found) && MatchesAt(outputs, want, i);
          return Ambiguous;
        }
        found := i;
      }
    }
    m := if found < 0 then NoMatch else Unique(found);
  }

  /** Genesis makes one output per cell in cell order; every transition continues at output 0. */
  function ExpectedVout(cell: nat, gen: nat): nat {
    if gen == 0 then cell else 0
  }

  /** The one tip a record "cell is at gen, carrying row, on txid" can mean, if the bytes bear it out. */
  ghost predicate IsDerivedTip(c: Compiled, cell: nat, gen: nat, row: Row, txid: TxID, raw: RawAnswer, tip: CellChain)
    requires c.Valid()
  {
    var tx := ParseTip(txid, raw);
    var want := c.LockingScript(cell, row);
    var vout := ExpectedVout(cell, gen);
    && tx.Some? && want.Some?
    && (forall i :: MatchesAt(tx.value.outputs, want.value, i) <==> i == vout)
    && MatchesAt(tx.value.outputs, want.value, vout)
    && tip == CellChain(cell, txid, vout, tx.value.outputs[vout].satoshis, gen, row)
  }

  ghost function DerivedTip(c: Compiled, cell: nat, gen: nat, row: Row, txid: TxID, raw: RawAnswer): (r: Option<CellChain>)
    requires c.Valid()
    ensures forall tip :: r == Some(tip) <==> IsDerivedTip(c, cell, gen, row, txid, raw, tip)
  {
    if tip :| IsDerivedTip(c, cell, gen, row, txid, raw, tip) then Some(tip) else None
  }

  method DeriveTip(c: Compiled, cell: nat, gen: nat, row: Row, txid: TxID, raw: RawAnswer) returns (r: Option<CellChain>)
    requires c.Valid()
    ensures r == DerivedTip(c, cell, gen, row, txid, raw)
  {
    var parsed := ParseTip(txid, raw);
    if parsed.None? { return None; }
    var tx := parsed.value;
    var want := c.LockingScript(cell, row);
    if want.None? { return None; }
    var found := FindOutput(tx.outputs, want.value);
    if !found.Unique? { return None; }
    var vout := ExpectedVout(cell, gen);
    if found.index != vout {
      assert MatchesAt(tx.outputs, want.value, found.index);
      return None;
    }
    assert MatchesAt(tx.outputs, want.value, vout);
    var tip := CellChain(cell, txid, vout, tx.outputs[vout].satoshis, gen, row);
    assert IsDerivedTip(c, cell, gen, row, txid, raw, tip);
    r := Some(tip);
  }

  /** What a deployment starts from: output k is cell k's script for the seed, and no further output is any
      cell's. */
  ghost predicate IsGenesis(c: Compiled, seed: Row, outputs: seq<Output>)
    requires c.Valid()
  {
    && c.cells <= |outputs|
    && (forall k: nat :: k < c.cells ==> c.LockingScript(k, seed) == Some(outputs[k].script))
    && forall k, i: nat :: k < c.cells <= i < |outputs| ==> c.LockingScript(k, seed) != Some(outputs[i].script)
  }

  /** Cell k's tip before anything has moved. */
  function GenesisTip(seed: Row, tx: Tx, k: nat): CellChain
    requires k < |tx.outputs|
  {
    CellChain(k, tx.id, k, tx.outputs[k].satoshis, 0, seed)
  }

  ghost predicate DerivesGenesis(c: Compiled, seed: Row, tx: Tx, raw: RawAnswer, k: nat)
    requires c.Valid()
  {
    k < |tx.outputs| && DerivedTip(c, k, 0, seed, tx.id, raw) == Some(GenesisTip(seed, tx, k))
  }

  /** A transaction puts every cell of the ring at its own output of it exactly when it is a genesis. */
  lemma GenesisDerives(c: Compiled, seed: Row, tx: Tx, raw: RawAnswer)
    requires c.Valid() && c.DistinctCodes() && c.RowFits(seed) && raw == Bytes(Some(tx))
    ensures IsGenesis(c, seed, tx.outputs) <==> forall k: nat :: k < c.cells ==> DerivesGenesis(c, seed, tx, raw, k)
  {
    if IsGenesis(c, seed, tx.outputs) {
      forall k: nat | k < c.cells ensures DerivesGenesis(c, seed, tx, raw, k) { GenesisCellDerives(c, seed, tx, raw, k); }
    }
    if forall k: nat :: k < c.cells ==> DerivesGenesis(c, seed, tx, raw, k) {
      assert DerivesGenesis(c, seed, tx, raw, c.cells - 1);
      forall k: nat, i: nat | k < c.cells && i < |tx.outputs|
        ensures c.LockingScript(k, seed) == Some(tx.outputs[i].script) <==> k == i
      {
        assert DerivesGenesis(c, seed, tx, raw, k) && IsDerivedTip(c, k, 0, seed, tx.id, raw, GenesisTip(seed, tx, k));
        assert MatchesAt(tx.outputs, c.LockingScript(k, seed).value, i) <==> i == k;
      }
    }
  }

  lemma GenesisCellDerives(c: Compiled, seed: Row, tx: Tx, raw: RawAnswer, k: nat)
    requires c.Valid() && c.DistinctCodes() && c.RowFits(seed) && raw == Bytes(Some(tx))
    requires IsGenesis(c, seed, tx.outputs) && k < c.cells
    ensures DerivesGenesis(c, seed, tx, raw, k)
  {
    var want := c.LockingScript(k, seed).value;
    forall i ensures MatchesAt(tx.outputs, want, i) <==> i == k {
      if MatchesAt(tx.outputs, want, i) && i < c.cells {
        LockingScriptInjective(c, CellScript.Binding(k, seed), CellScript.Binding(i, seed));
      }
    }
    assert IsDerivedTip(c, k, 0, seed, tx.id, raw, GenesisTip(seed, tx, k));
  }

  /** tx is the next step of the chain that ends at tip, and next is the tip it becomes. */
  ghost predicate IsSuccessor(c: Compiled, tip: CellChain, tx: Tx, next: CellChain)
    requires c.Valid()
  {
    && SpendsOutput(tx, tip.Outpoint())
    && |tx.outputs| == 2
    && c.RowFits(tip.row)
    && c.LockingScript(tip.cell, StepRow(c.rule, tip.row)) == Some(tx.outputs[0].script)
    && tx.outputs[0].satoshis == tip.satoshis
    && next == CellChain(tip.cell, tx.id, 0, tip.satoshis, tip.generation + 1, StepRow(c.rule, tip.row))
  }

  ghost function Successor(c: Compiled, tip: CellChain, txid: TxID, raw: RawAnswer): (r: Option<CellChain>)
    requires c.Valid()
    ensures forall next :: r == Some(next) <==>
              ParseTip(txid, raw).Some? && IsSuccessor(c, tip, ParseTip(txid, raw).value, next)
  {
    if next :| ParseTip(txid, raw).Some? && IsSuccessor(c, tip, ParseTip(txid, raw).value, next) then Some(next) else None
  }

  method VerifySuccessor(c: Compiled, tip: CellChain, txid: TxID, raw: RawAnswer) returns (r: Option<CellChain>)
    requires c.Valid()
    ensures r == Successor(c, tip, txid, raw)
  {
    var parsed := ParseTip(txid, raw);
    if parsed.None? { return None; }
    var tx := parsed.value;
    var input := FindSpend(tx, tip.Outpoint());
    if input < 0 { return None; }
    if |tx.outputs| != 2 { return None; }
    if !c.RowFits(tip.row) { return None; }
    var next := Automaton.Step(c.rule, tip.row);
    var want := c.LockingScript(tip.cell, next);
    if want.None? { return None; }
    var cont := tx.outputs[0];
    if cont.script != want.value { return None; }
    if cont.satoshis != tip.satoshis { return None; }
    r := Some(CellChain(tip.cell, txid, 0, cont.satoshis, tip.generation + 1, next));
  }

  /** A verified successor is also what re-deriving its own record would produce, unless its second
      output repeats the continuation's script, which is the one thing derivation also refuses. */
  lemma SuccessorRederives(c: Compiled, tip: CellChain, txid: TxID, raw: RawAnswer)
    requires c.Valid() && Successor(c, tip, txid, raw).Some?
    ensures var next := Successor(c, tip, txid, raw).value;
            var outputs := ParseTip(txid, raw).value.outputs;
            DerivedTip(c, next.cell, next.generation, next.row, txid, raw) == Some(next)
            <==> outputs[1].script != outputs[0].script
  {
    var next := Successor(c, tip, txid, raw).value;
    var outputs := ParseTip(txid, raw).value.outputs;
    assert IsSuccessor(c, tip, ParseTip(txid, raw).value, next);
    assert MatchesAt(outputs, outputs[0].script, 0);
    assert MatchesAt(outputs, outputs[0].script, 1) <==> outputs[1].script == outputs[0].script;
    assert IsDerivedTip(c, next.cell, next.generation, next.row, txid, raw, next)
      <==> outputs[1].script != outputs[0].script;
  }
}
