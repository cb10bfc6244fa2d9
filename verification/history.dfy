/** The durable record: one row per (generation, cell), and the statements run against it. */
module History {
  import opened Wrappers

  datatype Status = Attempting | Broadcast | Seen | Mined | Failed

  /** One row; an empty txid is how "no transaction" is spelled. */
  datatype Record = Record(txid: TxID, status: Status, err: string)

  /** One cell's rows by generation. The primary key makes generations distinct. */
  type CellRows = map<nat, Record>

  /** A row as a query returns it. */
  datatype Tip = Tip(generation: nat, record: Record)

  /** How one attempt at a durable write ends. An error does not say that nothing was written. */
  datatype WriteOutcome = Written | Errored(landed: bool)

  const SETTLED: set<Status> := {Broadcast, Seen, Mined}
  const ANY: set<Status> := {Attempting, Broadcast, Seen, Mined, Failed}

  /** Names a transaction the network was told about. */
  predicate Settled(r: Record) {
    r.status in SETTLED && r.txid != ""
  }

  // ---- queries ----------------------------------------------------------------

  ghost predicate Descending(w: seq<Tip>) {
    forall i, j :: 0 <= i < j < |w| ==> w[i].generation > w[j].generation
  }

  ghost predicate AreRows(rows: CellRows, w: seq<Tip>) {
    forall i :: 0 <= i < |w| ==> w[i].generation in rows && rows[w[i].generation] == w[i].record
  }

  ghost predicate Lists(w: seq<Tip>, g: nat) {
    exists i :: 0 <= i < |w| && w[i].generation == g
  }

  ghost predicate OlderThanAll(g: nat, w: seq<Tip>) {
    forall i :: 0 <= i < |w| ==> g < w[i].generation
  }

  /** w is the newest depth rows, newest first: whatever it leaves out is older than all of it. */
  ghost predicate IsWindow(rows: CellRows, depth: nat, w: seq<Tip>) {
    && Descending(w) && AreRows(rows, w)
    && |w| <= depth
    && (|w| < depth ==> forall g :: g in rows ==> Lists(w, g))
    && forall g :: g in rows && !Lists(w, g) ==> OlderThanAll(g, w)
  }

  /** The newest row in one of the statuses, optionally one that names a transaction. */
  predicate Qualifies(r: Record, named: bool, statuses: set<Status>) {
    r.status in statuses && (named ==> r.txid != "")
  }

  ghost predicate IsNewest(rows: CellRows, named: bool, statuses: set<Status>, t: Option<Tip>) {
    match t
    case None => forall g :: g in rows ==> !Qualifies(rows[g], named, statuses)
    case Some(t) =>
      && t.generation in rows && rows[t.generation] == t.record && Qualifies(t.record, named, statuses)
      && forall g :: g in rows && Qualifies(rows[g], named, statuses) ==> g <= t.generation
  }

  /** ORDER BY generation DESC LIMIT 1 over the qualifying rows. */
  method Newest(rows: CellRows, named: bool, statuses: set<Status>) returns (t: Option<Tip>)
    ensures IsNewest(rows, named, statuses, t)
  {
    t := None;
    var rest := rows;
    while rest != map[]
      invariant forall g :: g in rest ==> g in rows && rest[g] == rows[g]
      invariant t.None? ==> forall g :: g in rows && g !in rest ==> !Qualifies(rows[g], named, statuses)
      invariant t.Some? ==>
        && t.value.generation in rows && rows[t.value.generation] == t.value.record
        && Qualifies(t.value.record, named, statuses)
        && forall g :: g in rows && g !in rest && Qualifies(rows[g], named, statuses) ==> g <= t.value.generation
      decreases |rest|
    {
      var g :| g in rest;
      rest := rest - {g};
      if Qualifies(rows[g], named, statuses) && (t.None? || t.value.generation < g) {
        t := Some(Tip(g, rows[g]));
      }
    }
  }

  method NewestRow(rows: CellRows) returns (t: Tip)
    requires rows != map[]
    ensures t.generation in rows && t.record == rows[t.generation]
    ensures forall g :: g in rows ==> g <= t.generation
  {
    var newest := Newest(rows, false, ANY);
    forall g | g in rows ensures Qualifies(rows[g], false, ANY) {
      match rows[g].status
      case Attempting => case Broadcast => case Seen => case Mined => case Failed =>
    }
    var g :| g in rows;
    t := newest.value;
  }

  lemma ListsAppend(w: seq<Tip>, t: Tip, g: nat)
    ensures Lists(w + [t], g) <==> Lists(w, g) || g == t.generation
  {
    if Lists(w, g) {
      var i :| 0 <= i < |w| && w[i].generation == g;
      assert (w + [t])[i].generation == g;
    }
    assert (w + [t])[|w|] == t;
  }

  /** w has been taken off the top of rows and rest is what remains. */
  ghost predicate TakenFrom(rows: CellRows, rest: CellRows, w: seq<Tip>) {
    && Descending(w) && AreRows(rows, w)
    && (forall g :: g in rest <==> g in rows && !Lists(w, g))
    && (forall g :: g in rest ==> rest[g] == rows[g] && OlderThanAll(g, w))
  }

  lemma TakeOneMore(rows: CellRows, rest: CellRows, w: seq<Tip>, top: Tip)
    requires TakenFrom(rows, rest, w)
    requires top.generation in rest && top.record == rest[top.generation]
    requires forall g :: g in rest ==> g <= top.generation
    ensures TakenFrom(rows, rest - {top.generation}, w + [top])
  {
    forall g: nat { ListsAppend(w, top, g); }
    assert OlderThanAll(top.generation, w);
    forall g | g in rest - {top.generation} ensures OlderThanAll(g, w + [top]) {
      assert g in rest && OlderThanAll(g, w);
    }
  }

  /** ORDER BY generation DESC LIMIT depth. */
  method CellTips(rows: CellRows, depth: nat) returns (w: seq<Tip>)
    ensures IsWindow(rows, depth, w)
  {
    w := [];
    var rest := rows;
    while |w| < depth && rest != map[]
      invariant |w| <= depth && TakenFrom(rows, rest, w)
      decreases depth - |w|
    {
      var top := NewestRow(rest);
      TakeOneMore(rows, rest, w, top);
      w := w + [top];
      rest := rest - {top.generation};
    }
  }

  /** Where a buried cell's chain stops: the newest settled row, and the newest failure and attempt above it. */
  datatype DeepTip = DeepTip(settled: Option<Tip>, failed: Option<Tip>, attempt: Option<Tip>)

  ghost predicate IsDeepTip(rows: CellRows, d: DeepTip) {
    && IsNewest(rows, true, SETTLED, d.settled)
    && IsNewestAbove(rows, d.settled, Failed, d.failed)
    && IsNewestAbove(rows, d.settled, Attempting, d.attempt)
  }

  ghost predicate IsNewestAbove(rows: CellRows, base: Option<Tip>, status: Status, t: Option<Tip>) {
    match t
    case None => forall g :: g in rows && rows[g].status == status ==> base.Some? && g <= base.value.generation
    case Some(t) =>
      && t.generation in rows && rows[t.generation] == t.record && t.record.status == status
      && (base.Some? ==> t.generation > base.value.generation)
      && forall g :: g in rows && rows[g].status == status ==> g <= t.generation
  }

  method FindDeepTip(rows: CellRows) returns (d: DeepTip)
    ensures IsDeepTip(rows, d)
  {
    var settled := Newest(rows, true, SETTLED);
    var failed := Newest(rows, false, {Failed});
    if failed.Some? && settled.Some? && failed.value.generation <= settled.value.generation {
      failed := None;
    }
    var attempt := Newest(rows, false, {Attempting});
    if attempt.Some? && settled.Some? && attempt.value.generation <= settled.value.generation {
      attempt := None;
    }
    d := DeepTip(settled, failed, attempt);
  }

  // ---- the guarded deletes ------------------------------------------------------

  function WithoutAttempt(rows: CellRows, g: nat): CellRows {
    if g in rows && rows[g].status == Attempting then rows - {g} else rows
  }

  /** Matches on the exact transaction examined, so a row written since is left alone. */
  function WithoutRejection(rows: CellRows, g: nat, txid: TxID): CellRows {
    if g in rows && rows[g].status == Failed && rows[g].txid == txid then rows - {g} else rows
  }

  predicate IsAttempting(rows: CellRows, g: nat) {
    g in rows && rows[g].status == Attempting
  }

  predicate IsFailedAs(rows: CellRows, g: nat, txid: TxID) {
    g in rows && rows[g].status == Failed && rows[g].txid == txid
  }

  function RowsOf(cells: map<int, CellRows>, cell: int): CellRows {
    if cell in cells then cells[cell] else map[]
  }

  /** The table, held as each cell's rows. */
  class Store {
    var cells: map<int, CellRows>

    constructor ()
      ensures cells == map[]
    {
      cells := map[];
    }

    function Rows(cell: int): CellRows
      reads this
    {
      RowsOf(cells, cell)
    }

    ghost predicate OtherCellsKept(before: map<int, CellRows>, cell: int)
      reads this
    {
      forall k :: k != cell ==> (k in cells <==> k in before) && (k in cells ==> cells[k] == before[k])
    }

    /** A retried cell supersedes its earlier row at that generation. */
    method RecordTx(generation: nat, cell: int, r: Record)
      modifies this
      ensures Rows(cell) == old(Rows(cell))[generation := r] && OtherCellsKept(old(cells), cell)
    {
      cells := cells[cell := Rows(cell)[generation := r]];
    }

    method DeleteAttempt(generation: nat, cell: int)
      modifies this
      ensures Rows(cell) == WithoutAttempt(old(Rows(cell)), generation) && OtherCellsKept(old(cells), cell)
      // Only a row that is still attempting goes.
      ensures var was := old(Rows(cell)); Rows(cell) == if IsAttempting(was, generation) then was - {generation} else was
    {
      cells := cells[cell := WithoutAttempt(Rows(cell), generation)];
    }

    /** Refuses outright without a txid: there would be nothing to show which row was decided about. */
    method DeleteRejection(generation: nat, cell: int, txid: TxID) returns (ok: bool)
      modifies this
      ensures ok <==> txid != ""
      ensures Rows(cell) == (if ok then WithoutRejection(old(Rows(cell)), generation, txid) else old(Rows(cell)))
      // Only a failed row of exactly that transaction goes.
      ensures var was := old(Rows(cell)); Rows(cell) == if txid != "" && IsFailedAs(was, generation, txid) then was - {generation} else was
      ensures OtherCellsKept(old(cells), cell)
    {
      if txid == "" { return false; }
      cells := cells[cell := WithoutRejection(Rows(cell), generation, txid)];
      ok := true;
    }

    method DeleteUnsignedRejection(generation: nat, cell: int)
      modifies this
      ensures Rows(cell) == WithoutRejection(old(Rows(cell)), generation, "") && OtherCellsKept(old(cells), cell)
      ensures var was := old(Rows(cell)); Rows(cell) == if IsFailedAs(was, generation, "") then was - {generation} else was
    {
      cells := cells[cell := WithoutRejection(Rows(cell), generation, "")];
    }

    /** Whether a transaction is anywhere on the record, whatever its status. */
    method HasTxID(txid: TxID) returns (found: bool)
      ensures found <==> txid != "" && exists k, g :: k in cells && g in cells[k] && cells[k][g].txid == txid
    {
      found := txid != "" && exists k :: k in cells && exists g :: g in cells[k] && cells[k][g].txid == txid;
    }
  }
}
