/** Dropping the bytes of transactions that can no longer be spent, while other writers keep working. */
module PayloadPruner {
  import opened Wrappers

  datatype TxRow = TxRow(txid: TxID, completed: bool)

  /** What is known of a transaction: mined, at what height, and whether its bytes are still held. */
  datatype Known = Known(completed: bool, height: Option<nat>, raw: bool)

  datatype Output = Output(owner: nat, spentBy: Option<nat>)

  datatype DB = DB(txs: map<nat, TxRow>, known: map<TxID, Known>, outputs: map<nat, Output>)

  datatype Options = Options(dryRun: bool, minConfirmations: nat, batchSize: nat, maxBatches: nat) {
    /** OpenPruner refuses a batch of nothing. */
    predicate Valid() {
      batchSize > 0
    }
  }

  datatype Report = Report(scanned: nat, prunable: nat, pruned: nat)

  // ---- what may be dropped ----------------------------------------------------------------------------------

  predicate Mined(db: DB, txid: TxID) {
    txid in db.known && db.known[txid].completed
  }

  /** Spent by a transaction that is mined at least so deep below the tip. */
  predicate Settled(db: DB, o: nat, deep: nat, tip: nat) {
    && o in db.outputs && db.outputs[o].spentBy.Some?
    && var s := db.outputs[o].spentBy.value;
       && s in db.txs && Mined(db, db.txs[s].txid)
       && var h := db.known[db.txs[s].txid].height; h.Some? && h.value + deep <= tip
  }

  predicate Owns(db: DB, id: nat, o: nat) {
    o in db.outputs && db.outputs[o].owner == id
  }

  /** At least one recorded output, and every one of them settled. */
  ghost predicate Spent(db: DB, id: nat, deep: nat, tip: nat) {
    (exists o :: Owns(db, id, o)) && forall o :: Owns(db, id, o) ==> Settled(db, o, deep, tip)
  }

  /** Mined by both accounts, below the floor, and still carrying its bytes. */
  predicate Candidate(db: DB, floor: nat, id: nat) {
    && id in db.txs && id < floor && db.txs[id].completed
    && Mined(db, db.txs[id].txid) && db.known[db.txs[id].txid].raw
  }

  /** Everything that has to be true of a transaction whose bytes were dropped. */
  ghost predicate Dead(db: DB, id: nat, floor: nat, deep: nat, tip: nat) {
    && id in db.txs && id < floor && db.txs[id].completed && Mined(db, db.txs[id].txid)
    && Spent(db, id, deep, tip)
  }

  ghost predicate DistinctTxIDs(db: DB) {
    forall i, j :: i in db.txs && j in db.txs && db.txs[i].txid == db.txs[j].txid ==> i == j
  }

  // ---- what other writers may do -----------------------------------------------------------------------------

  /** Transactions and outputs are added, spent and mined; no block is un-mined, and a mined transaction
      gains no output. Bytes may come and go. */
  ghost predicate Evolves(a: DB, b: DB) {
    && DistinctTxIDs(b)
    && (forall i :: i in a.txs ==> i in b.txs && b.txs[i].txid == a.txs[i].txid && (a.txs[i].completed ==> b.txs[i].completed))
    && (forall t :: t in a.known ==> t in b.known)
    && (forall t :: Mined(a, t) ==> b.known[t].completed && (a.known[t].height.Some? ==> b.known[t].height == a.known[t].height))
    && (forall o :: o in a.outputs ==> o in b.outputs && b.outputs[o].owner == a.outputs[o].owner)
    && (forall o, deep, tip :: Settled(a, o, deep, tip) ==> b.outputs[o].spentBy == a.outputs[o].spentBy)
    && (forall i, o :: i in a.txs && a.txs[i].completed && Owns(b, i, o) ==> Owns(a, i, o))
  }

  /** The bytes of t were held at a and are not at b. */
  predicate Lost(a: DB, b: DB, t: TxID) {
    t in a.known && a.known[t].raw && !(t in b.known && b.known[t].raw)
  }

  /** What other writers do: only the pruner drops bytes. */
  ghost predicate Grows(a: DB, b: DB) {
    Evolves(a, b) && forall t :: !Lost(a, b, t)
  }

  lemma SettledStays(a: DB, b: DB, o: nat, deep: nat, tip: nat)
    requires Evolves(a, b) && Settled(a, o, deep, tip)
    ensures Settled(b, o, deep, tip)
  {}

  lemma DeadStays(a: DB, b: DB, id: nat, floor: nat, deep: nat, tip: nat)
    requires Evolves(a, b) && Dead(a, id, floor, deep, tip)
    ensures Dead(b, id, floor, deep, tip)
  {
    var o :| Owns(a, id, o);
    assert Owns(b, id, o);
    forall o | Owns(b, id, o) ensures Settled(b, o, deep, tip) { SettledStays(a, b, o, deep, tip); }
  }

  lemma EvolvesOn(a: DB, b: DB, c: DB)
    requires Evolves(a, b) && Evolves(b, c)
    ensures Evolves(a, c)
  {
    forall o, deep, tip | Settled(a, o, deep, tip) ensures c.outputs[o].spentBy == a.outputs[o].spentBy {
      SettledStays(a, b, o, deep, tip);
      assert Settled(b, o, deep, tip);
    }
    forall t | Mined(a, t) ensures c.known[t].completed && (a.known[t].height.Some? ==> c.known[t].height == a.known[t].height) {
      assert Mined(b, t);
    }
    forall i, o | i in a.txs && a.txs[i].completed && Owns(c, i, o) ensures Owns(a, i, o) { assert Owns(b, i, o); }
  }

  lemma GrowsOn(a: DB, b: DB, c: DB)
    requires Evolves(a, b) && Grows(b, c)
    ensures Evolves(a, c) && forall t :: Lost(a, c, t) ==> Lost(a, b, t)
  {
    EvolvesOn(a, b, c);
    forall t | Lost(a, c, t) ensures Lost(a, b, t) { assert !Lost(b, c, t); }
  }

  lemma CandidateStays(a: DB, b: DB, floor: nat, id: nat)
    requires Grows(a, b) && Candidate(a, floor, id)
    ensures Candidate(b, floor, id)
  {
    assert !Lost(a, b, a.txs[id].txid);
  }

  /** The same database with the bytes of some transactions gone. */
  ghost predicate OnlyDropped(a: DB, b: DB, gone: set<TxID>) {
    && b.txs == a.txs && b.outputs == a.outputs && b.known.Keys == a.known.Keys
    && forall t :: t in a.known ==> b.known[t] == if t in gone && a.known[t].completed then a.known[t].(raw := false) else a.known[t]
  }

  lemma DroppingKeepsDead(a: DB, b: DB, gone: set<TxID>, id: nat, floor: nat, deep: nat, tip: nat)
    requires OnlyDropped(a, b, gone) && Dead(a, id, floor, deep, tip)
    ensures Dead(b, id, floor, deep, tip)
  {
    var o :| Owns(a, id, o);
    assert Owns(b, id, o);
    forall o | Owns(b, id, o) ensures Settled(b, o, deep, tip) { assert Owns(a, id, o) && Settled(a, o, deep, tip); }
  }

  // ---- the statements -----------------------------------------------------------------------------------------

  ghost predicate Ascending(s: seq<nat>) {
    forall i, j :: 0 <= i < j < |s| ==> s[i] < s[j]
  }

  /** The next candidates after the cursor, oldest first, at most limit of them, none left out in between. */
  ghost predicate IsBatch(db: DB, floor: nat, cursor: nat, limit: nat, batch: seq<nat>) {
    && Ascending(batch) && |batch| <= limit
    && (forall id :: id in batch ==> Candidate(db, floor, id) && id > cursor)
    && (forall id: nat :: Candidate(db, floor, id) && id > cursor && id !in batch ==>
          |batch| == limit && forall k :: k in batch ==> k < id)
  }

  method Lowest(s: set<nat>) returns (m: nat)
    requires s != {}
    ensures m in s && forall k :: k in s ==> m <= k
  {
    m :| m in s;
    var rest := s - {m};
    while rest != {}
      invariant m in s && rest <= s && forall k :: k in s && k !in rest ==> m <= k
      decreases rest
    {
      var k :| k in rest;
      rest := rest - {k};
      if k < m { m := k; }
    }
  }

  method Candidates(db: DB, floor: nat, cursor: nat, limit: nat) returns (batch: seq<nat>)
    ensures IsBatch(db, floor, cursor, limit, batch)
  {
    batch := [];
    var rest := set id: nat | id in db.txs && Candidate(db, floor, id) && id > cursor;
    while |batch| < limit && rest != {}
      invariant Ascending(batch) && |batch| <= limit
      invariant forall id: nat :: Candidate(db, floor, id) && id > cursor <==> id in rest || id in batch
      invariant forall k, id :: k in batch && id in rest ==> k < id
      decreases rest
    {
      var m := Lowest(rest);
      assert forall i :: 0 <= i < |batch| ==> batch[i] in batch;
      rest := rest - {m};
      batch := batch + [m];
    }
  }

  /** COUNT(*) and the count of settled ones, over one transaction's outputs. */
  method CountOutputs(db: DB, id: nat, deep: nat, tip: nat) returns (total: nat, settled: nat)
    ensures total > 0 && settled == total <==> Spent(db, id, deep, tip)
  {
    total, settled := 0, 0;
    var rest := db.outputs.Keys;
    while rest != {}
      invariant rest <= db.outputs.Keys && settled <= total
      invariant total > 0 <==> exists o :: Owns(db, id, o) && o !in rest
      invariant settled == total <==> forall o :: Owns(db, id, o) && o !in rest ==> Settled(db, o, deep, tip)
      decreases rest
    {
      var o :| o in rest;
      ghost var was := rest;
      rest := rest - {o};
      assert forall p :: p !in rest <==> p !in was || p == o;
      if db.outputs[o].owner == id {
        assert Owns(db, id, o);
        total := total + 1;
        if Settled(db, o, deep, tip) { settled := settled + 1; }
      }
    }
  }

  method Prunable(db: DB, batch: seq<nat>, deep: nat, tip: nat) returns (safe: seq<nat>)
    ensures forall id :: id in safe <==> id in batch && Spent(db, id, deep, tip)
    ensures |safe| <= |batch| && (Ascending(batch) ==> Ascending(safe))
  {
    safe := [];
    for i := 0 to |batch|
      invariant forall id :: id in safe <==> id in batch[..i] && Spent(db, id, deep, tip)
      invariant |safe| <= i && (Ascending(batch) ==> Ascending(safe))
      invariant forall k :: 0 <= k < |safe| ==> safe[k] in batch[..i]
    {
      var total, settled := CountOutputs(db, batch[i], deep, tip);
      assert batch[..i + 1] == batch[..i] + [batch[i]];
      if total > 0 && settled == total { safe := safe + [batch[i]]; }
    }
    assert batch[..|batch|] == batch;
  }

  /** When and against what a transaction's bytes were dropped. */
  datatype Pass = Pass(id: nat, floor: nat, tip: nat)

  class Pruner {
    var db: DB
    var cursor: nat
    const opts: Options
    ghost var cleared: map<TxID, Pass>

    constructor (db: DB, opts: Options)
      requires opts.Valid() && DistinctTxIDs(db)
      ensures this.db == db && this.opts == opts && cursor == 0 && cleared == map[] && Inv()
    {
      this.db, this.opts := db, opts;
      cursor, cleared := 0, map[];
    }

    /** Every transaction ever cleared is dead, and stays so. */
    ghost predicate Inv()
      reads this
    {
      && opts.Valid() && DistinctTxIDs(db)
      && AllDead(db, cleared, opts.minConfirmations)
    }

    /** Between any two statements, other writers run. Callers learn that the database has grown and no
        more: that nothing cleared comes back to life is theirs to prove. */
    method Others()
      requires DistinctTxIDs(db)
      modifies `db
      ensures Grows(old(db), db)
    {
    }

    /** One statement: drops the payload of those of the victims that are still mined when it runs. */
    method Clear(victims: map<TxID, nat>, ghost floor: nat, ghost tip: nat) returns (n: nat)
      requires Inv() && forall t :: t in victims ==> IsVictim(db, t, victims[t], floor, opts.minConfirmations, tip)
      modifies `db, `cleared
      ensures Inv() && n == |Matched(old(db), victims)| <= |victims|
      ensures OnlyDropped(old(db), db, victims.Keys) && cleared == old(cleared) + PassesOf(victims, floor, tip)
    {
      n := |Matched(db, victims)|;
      ghost var passes := PassesOf(victims, floor, tip);
      ClearKeeps(db, victims, passes, cleared, opts.minConfirmations, floor, tip);
      db := Dropped(db, victims);
      cleared := cleared + passes;
    }

    /** The highest block the wallet has a proof for. */
    method TipHeight() returns (tip: nat)
      ensures IsTipHeight(db, tip)
      ensures forall t :: t in db.known && db.known[t].completed && db.known[t].height.Some? ==> db.known[t].height.value <= tip
      ensures tip == 0 || exists t :: t in db.known && db.known[t].completed && db.known[t].height == Some(tip)
    {
      tip := 0;
      var rest := db.known.Keys;
      while rest != {}
        invariant rest <= db.known.Keys
        invariant forall t :: Mined(db, t) && t !in rest && db.known[t].height.Some? ==> db.known[t].height.value <= tip
        invariant tip == 0 || exists t :: Mined(db, t) && db.known[t].height == Some(tip)
        decreases rest
      {
        var t :| t in rest;
        rest := rest - {t};
        var k := db.known[t];
        if k.completed && k.height.Some? && k.height.value > tip {
          tip := k.height.value;
          assert Mined(db, t);
        }
      }
    }

    /** One batch: chosen, checked and cleared in three statements, with other writers between them. What
        could be dropped when it was chosen has been dropped, and nothing has been that is not logged as
        dead against this floor and this tip. */
    method SweepBatch(floor: nat, tip: nat, rep: Report) returns (batch: seq<nat>, out: Report)
      requires Inv()
      modifies `db, `cursor, `cleared
      ensures Inv() && IsBatch(old(db), floor, old(cursor), opts.batchSize, batch)
      ensures batch == [] ==> cursor == old(cursor)
      ensures batch != [] ==> old(cursor) < cursor < floor && cursor in batch && forall id :: id in batch ==> id <= cursor
      ensures IsBatchDone(old(db), db, batch, old(cleared), cleared, floor, tip, opts)
      ensures out.scanned == rep.scanned + |batch|
      ensures rep.pruned <= rep.prunable <= rep.scanned ==> out.pruned <= out.prunable <= out.scanned
      // What is reported as pruned is what lost its bytes; what could be dropped is reported, dry run or not.
      ensures out.pruned == rep.pruned + |LostOf(old(db), db, batch)|
      ensures out.prunable >= rep.prunable + |DroppableOf(old(db), batch, floor, opts.minConfirmations, tip)|
      ensures !opts.dryRun ==> out.prunable - rep.prunable == out.pruned - rep.pruned
    {
      out := rep;
      ghost var d0 := db;
      batch := Candidates(db, floor, cursor, opts.batchSize);
      if |batch| == 0 {
        NothingDropped(d0, db, batch, cleared, floor, tip, opts);
        NothingCounted(d0, db, batch, [], floor, opts.minConfirmations, tip);
        return;
      }
      cursor := batch[|batch| - 1];
      LastIsHighest(batch);
      out := out.(scanned := out.scanned + |batch|);
      Others();
      ghost var d1 := db;
      ClearedStayDead(d0, d1, cleared, opts.minConfirmations);
      var safe := Prunable(db, batch, opts.minConfirmations, tip);
      SafeFromTheStart(d0, d1, floor, batch, safe, opts.minConfirmations, tip);
      if |safe| == 0 {
        NothingDropped(d0, d1, batch, cleared, floor, tip, opts);
        NothingCounted(d0, d1, batch, safe, floor, opts.minConfirmations, tip);
        return;
      }
      DroppableCounted(d0, batch, safe, floor, opts.minConfirmations, tip);
      out := out.(prunable := out.prunable + |safe|);
      var n := DropSafe(batch, safe, floor, tip, d0);
      out := out.(pruned := out.pruned + n);
    }

    /** The second half of a batch: what was found safe is cleared, unless this is a dry run. */
    method DropSafe(batch: seq<nat>, safe: seq<nat>, floor: nat, tip: nat, ghost d0: DB) returns (n: nat)
      requires Inv() && Grows(d0, db) && forall id :: id in batch ==> Candidate(d0, floor, id)
      requires forall id :: id in safe <==> id in batch && Spent(db, id, opts.minConfirmations, tip)
      requires forall id :: id in batch && Spent(d0, id, opts.minConfirmations, tip) ==> id in safe
      requires Ascending(safe)
      modifies `db, `cleared
      ensures Inv() && n <= |safe| && IsBatchDone(d0, db, batch, old(cleared), cleared, floor, tip, opts)
      ensures n == |LostOf(d0, db, batch)| && n == if opts.dryRun then 0 else |safe|
    {
      ghost var d1 := db;
      Others();
      ghost var d2 := db;
      ClearedStayDead(d1, d2, cleared, opts.minConfirmations);
      GrowsOn(d0, d1, d2);
      if opts.dryRun {
        NothingDropped(d0, d2, batch, cleared, floor, tip, opts);
        NothingLost(d0, d2, batch);
        return 0;
      }
      SafeAreDead(d0, d1, d2, floor, batch, safe, opts.minConfirmations, tip);
      var victims := VictimsOf(db, safe);
      ghost var was := cleared;
      n := Clear(victims, floor, tip);
      VictimsDropped(d0, d2, db, victims, batch, safe, was, cleared, floor, tip, opts);
      VictimsCounted(d0, d2, db, victims, batch, safe, floor);
    }

    /** The pause after the last batch, and the next one. */
    method NextBatch(floor: nat, tip: nat, rep: Report, ghost start: DB, ghost first: map<TxID, Pass>, ghost scanned: seq<nat>, ghost from: nat, ghost batch: nat)
      returns (now: seq<nat>, out: Report)
      requires Inv() && SweptSoFar(start, db, first, cleared, scanned, from, cursor, floor, tip, opts)
      requires IsCounted(rep, start, scanned, batch, floor, tip, opts)
      modifies `db, `cursor, `cleared
      ensures Inv() && SweptSoFar(start, db, first, cleared, scanned + now, from, cursor, floor, tip, opts)
      ensures IsCounted(out, start, scanned + now, batch + 1, floor, tip, opts)
      ensures if now == [] then cursor == old(cursor) else old(cursor) < cursor < floor
      ensures now == [] ==> forall id: nat :: Candidate(start, floor, id) && id > from ==> id in scanned
    {
      ghost var before := db;
      Wait();
      ghost var waited, was, at := db, cleared, cursor;
      StillSwept(start, before, waited, first, cleared, scanned, from, cursor, floor, tip, opts);
      now, out := SweepBatch(floor, tip, rep);
      BatchSwept(start, waited, db, first, was, cleared, scanned, now, from, at, cursor, floor, tip, opts);
      StillDroppable(start, waited, now, floor, opts.minConfirmations, tip);
      if opts.dryRun { NothingLost(waited, db, now); }
      CountedNext(rep, out, start, scanned, now, batch, floor, tip, opts);
    }

    /** One pass over everything below the floor, batch after batch, with other writers between them. Done
        when nothing was left. */
    method Sweep(floor: nat) returns (rep: Report, ghost scanned: seq<nat>, done: bool, ghost tip: nat)
      requires Inv()
      modifies `db, `cursor, `cleared
      ensures Inv() && IsTipHeight(old(db), tip)
      ensures rep.pruned <= rep.prunable <= rep.scanned == |scanned|
      // The report counts everything visited that could be dropped when the pass began; what it calls prunable it
      // calls pruned, unless this is a dry run.
      ensures rep.prunable >= |DroppableOf(old(db), scanned, floor, opts.minConfirmations, tip)|
      ensures rep.pruned == if opts.dryRun then 0 else rep.prunable
      ensures opts.maxBatches > 0 ==> rep.scanned <= opts.maxBatches * opts.batchSize
      // Nothing is visited twice, and nothing at or above the floor or behind the cursor is visited at all.
      ensures Ascending(scanned) && forall id :: id in scanned ==> old(cursor) < id < floor
      // Unless nothing can be deep enough or old enough yet, only the limit on its batches stops a pass.
      ensures done ==> floor > 0 && tip >= opts.minConfirmations
      ensures !done && floor > 0 && tip >= opts.minConfirmations ==> 0 < opts.maxBatches <= rep.scanned
      // Everything that was a candidate when the pass began has been visited when it is done.
      ensures done ==> cursor == 0 && forall id: nat :: Candidate(old(db), floor, id) && id > old(cursor) ==> id in scanned
      // What lost its bytes is logged as dead against this floor and this tip; a dry run drops nothing.
      ensures Continues(old(cleared), cleared, floor, tip) && LossesLogged(old(db), db, cleared, floor, tip)
      ensures opts.dryRun ==> cleared == old(cleared) && forall t :: !Lost(old(db), db, t)
      // And what could be dropped when the pass began has been, by the time it is done.
      ensures done && !opts.dryRun ==>
                forall id: nat :: DroppableAt(old(db), floor, id, opts.minConfirmations, tip) && id > old(cursor) ==>
                  LoggedFor(cleared, old(db).txs[id].txid, floor, tip)
    {
      rep, scanned, done := Report(0, 0, 0), [], false;
      var height := TipHeight();
      tip := height;
      ghost var start, from, first := db, cursor, cleared;
      assert SweptSoFar(start, db, first, cleared, [], from, cursor, floor, tip, opts) by { StillThere(db); }
      if height < opts.minConfirmations { return; }
      if floor == 0 { return; }
      ghost var reached;
      rep, scanned, done, reached := SweepBatches(floor, height, start, first, from);
    }

    /** Batch after batch, until one is empty or there have been enough of them. */
    method SweepBatches(floor: nat, tip: nat, ghost start: DB, ghost first: map<TxID, Pass>, ghost from: nat)
      returns (rep: Report, ghost scanned: seq<nat>, done: bool, ghost reached: nat)
      requires Inv() && cursor == from && SweptSoFar(start, db, first, cleared, [], from, cursor, floor, tip, opts)
      modifies `db, `cursor, `cleared
      ensures Inv() && SweptSoFar(start, db, first, cleared, scanned, from, reached, floor, tip, opts)
      ensures IsReported(rep, start, scanned, floor, tip, opts)
      ensures !done ==> 0 < opts.maxBatches <= rep.scanned
      ensures done ==> cursor == 0 && forall id: nat :: Candidate(start, floor, id) && id > from ==> id in scanned
    {
      rep, scanned, done := Report(0, 0, 0), [], false;
      var batch := 0;
      while opts.maxBatches == 0 || batch < opts.maxBatches
        invariant Inv() && (cursor == from || cursor < floor)
        invariant SweptSoFar(start, db, first, cleared, scanned, from, cursor, floor, tip, opts)
        invariant IsCounted(rep, start, scanned, batch, floor, tip, opts) && batch <= |scanned|
        invariant opts.maxBatches > 0 ==> batch <= opts.maxBatches
        decreases if cursor < floor then floor - cursor else 0
      {
        var now;
        now, rep := NextBatch(floor, tip, rep, start, first, scanned, from, batch);
        if |now| == 0 {
          assert scanned + now == scanned;
          WithinLimit(rep, start, scanned, batch + 1, floor, tip, opts);
          reached := cursor;
          cursor := 0;
          done := true;
          return;
        }
        scanned := scanned + now;
        batch := batch + 1;
      }
      WithinLimit(rep, start, scanned, batch, floor, tip, opts);
      reached := cursor;
    }

    /** The pause between two batches. */
    method Wait()
      requires Inv()
      modifies `db
      ensures Inv() && Grows(old(db), db)
    {
      ghost var d := db;
      Others();
      ClearedStayDead(d, db, cleared, opts.minConfirmations);
    }
  }

  /** How far a pass has come: where it has been, what it has dropped and logged, and what is still ahead. */
  ghost predicate SweptSoFar(start: DB, db: DB, first: map<TxID, Pass>, cleared: map<TxID, Pass>, scanned: seq<nat>,
                             from: nat, cursor: nat, floor: nat, tip: nat, opts: Options) {
    && from <= cursor && Evolves(start, db)
    && Continues(first, cleared, floor, tip) && LossesLogged(start, db, cleared, floor, tip)
    && (opts.dryRun ==> cleared == first && forall t :: !Lost(start, db, t))
    && Ascending(scanned) && (forall id :: id in scanned ==> from < id < floor && id <= cursor)
    && Awaited(start, db, scanned, from, cursor, floor)
    && (!opts.dryRun ==> AllDropped(start, scanned, cleared, floor, opts.minConfirmations, tip))
  }

  ghost predicate Awaited(start: DB, db: DB, scanned: seq<nat>, from: nat, cursor: nat, floor: nat) {
    forall id: nat :: Candidate(start, floor, id) && id > from ==> id in scanned || (id > cursor && Candidate(db, floor, id))
  }

  /** The height of the highest block the wallet has a proof for, 0 without any. */
  ghost predicate IsTipHeight(db: DB, tip: nat) {
    && (forall t :: Mined(db, t) && db.known[t].height.Some? ==> db.known[t].height.value <= tip)
    && (tip == 0 || exists t :: Mined(db, t) && db.known[t].height == Some(tip))
  }

  /** t was cleared against this floor and this tip. */
  predicate LoggedFor(cleared: map<TxID, Pass>, t: TxID, floor: nat, tip: nat) {
    t in cleared && cleared[t].floor == floor && cleared[t].tip == tip
  }

  ghost predicate LossesLogged(a: DB, b: DB, cleared: map<TxID, Pass>, floor: nat, tip: nat) {
    forall t :: Lost(a, b, t) ==> LoggedFor(cleared, t, floor, tip)
  }

  /** The log only gains entries, and only for this floor and this tip. */
  ghost predicate Continues(was: map<TxID, Pass>, cleared: map<TxID, Pass>, floor: nat, tip: nat) {
    && was.Keys <= cleared.Keys
    && forall t :: t in cleared ==> LoggedFor(cleared, t, floor, tip) || (t in was && cleared[t] == was[t])
  }

  ghost predicate DroppableAt(db: DB, floor: nat, id: nat, deep: nat, tip: nat) {
    Candidate(db, floor, id) && Spent(db, id, deep, tip)
  }

  ghost predicate IsVictim(db: DB, t: TxID, id: nat, floor: nat, deep: nat, tip: nat) {
    Dead(db, id, floor, deep, tip) && db.txs[id].txid == t
  }

  ghost predicate AllDead(db: DB, passes: map<TxID, Pass>, deep: nat) {
    forall t :: t in passes ==> IsVictim(db, t, passes[t].id, passes[t].floor, deep, passes[t].tip)
  }

  lemma AllStayDead(a: DB, b: DB, gone: set<TxID>, passes: map<TxID, Pass>, deep: nat)
    requires OnlyDropped(a, b, gone) && AllDead(a, passes, deep)
    ensures AllDead(b, passes, deep)
  {
    forall t | t in passes ensures IsVictim(b, t, passes[t].id, passes[t].floor, deep, passes[t].tip) {
      DroppingKeepsDead(a, b, gone, passes[t].id, passes[t].floor, deep, passes[t].tip);
    }
  }

  /** However the database grows, everything that was dead, with the name it was cleared by, still is. */
  lemma ClearedStayDead(a: DB, b: DB, passes: map<TxID, Pass>, deep: nat)
    requires Grows(a, b) && AllDead(a, passes, deep)
    ensures AllDead(b, passes, deep)
  {
    forall t | t in passes ensures IsVictim(b, t, passes[t].id, passes[t].floor, deep, passes[t].tip) {
      assert IsVictim(a, t, passes[t].id, passes[t].floor, deep, passes[t].tip);
      DeadStays(a, b, passes[t].id, passes[t].floor, deep, passes[t].tip);
    }
  }

  /** The rows the statement matches. */
  function Matched(db: DB, victims: map<TxID, nat>): (matched: set<TxID>)
    ensures |matched| <= |victims|
  {
    var matched := set t | t in victims && t in db.known && db.known[t].completed && db.known[t].raw;
    SubsetSize(matched, victims.Keys);
    matched
  }

  function Dropped(db: DB, victims: map<TxID, nat>): (after: DB)
    ensures OnlyDropped(db, after, victims.Keys)
  {
    db.(known := map t | t in db.known ::
      if t in victims && db.known[t].completed then db.known[t].(raw := false) else db.known[t])
  }

  ghost function PassesOf(victims: map<TxID, nat>, floor: nat, tip: nat): map<TxID, Pass> {
    map t | t in victims :: Pass(victims[t], floor, tip)
  }

  lemma ClearKeeps(db: DB, victims: map<TxID, nat>, passes: map<TxID, Pass>, cleared: map<TxID, Pass>, deep: nat, floor: nat, tip: nat)
    requires AllDead(db, cleared, deep) && passes == PassesOf(victims, floor, tip)
    requires forall t :: t in victims ==> IsVictim(db, t, victims[t], floor, deep, tip)
    ensures AllDead(Dropped(db, victims), cleared + passes, deep) && (cleared + passes).Keys == cleared.Keys + victims.Keys
  {
    var after := Dropped(db, victims);
    assert AllDead(db, cleared + passes, deep);
    AllStayDead(db, after, victims.Keys, cleared + passes, deep);
  }

  // ---- what is counted ---------------------------------------------------------------------------------------

  /** Those of the batch that have lost their bytes. */
  ghost function LostOf(a: DB, b: DB, batch: seq<nat>): set<nat> {
    set id | id in batch && id in a.txs && Lost(a, b, a.txs[id].txid)
  }

  /** Those of the batch whose bytes could be dropped. */
  ghost function DroppableOf(db: DB, batch: seq<nat>, floor: nat, deep: nat, tip: nat): set<nat> {
    set id | id in batch && DroppableAt(db, floor, id, deep, tip)
  }

  lemma StillDroppable(start: DB, d: DB, now: seq<nat>, floor: nat, deep: nat, tip: nat)
    requires Evolves(start, d) && forall id :: id in now ==> Candidate(d, floor, id)
    ensures |DroppableOf(start, now, floor, deep, tip)| <= |DroppableOf(d, now, floor, deep, tip)|
  {
    forall id | id in DroppableOf(start, now, floor, deep, tip) ensures id in DroppableOf(d, now, floor, deep, tip) {
      assert Dead(start, id, floor, deep, tip);
      DeadStays(start, d, id, floor, deep, tip);
    }
    SubsetSize(DroppableOf(start, now, floor, deep, tip), DroppableOf(d, now, floor, deep, tip));
  }

  lemma MoreDroppable(db: DB, scanned: seq<nat>, now: seq<nat>, floor: nat, deep: nat, tip: nat)
    ensures |DroppableOf(db, scanned + now, floor, deep, tip)| <=
            |DroppableOf(db, scanned, floor, deep, tip)| + |DroppableOf(db, now, floor, deep, tip)|
  {
    var a, b := DroppableOf(db, scanned, floor, deep, tip), DroppableOf(db, now, floor, deep, tip);
    assert DroppableOf(db, scanned + now, floor, deep, tip) == a + b;
    assert |a + b| == |a| + |b| - |a * b|;
  }

  lemma MoreScanned(batch: nat, now: nat, size: nat)
    requires now <= size
    ensures batch * size + now <= (batch + 1) * size
  {}

  /** What a report says after so many batches: it has counted what was visited, at most a batch of it each time,
      and of it everything that could be dropped when the pass began. */
  ghost predicate IsCounted(rep: Report, start: DB, scanned: seq<nat>, batch: nat, floor: nat, tip: nat, opts: Options) {
    && rep.prunable <= rep.scanned == |scanned| <= batch * opts.batchSize
    && rep.prunable >= |DroppableOf(start, scanned, floor, opts.minConfirmations, tip)|
    && rep.pruned == if opts.dryRun then 0 else rep.prunable
  }

  /** And after the last of them. */
  ghost predicate IsReported(rep: Report, start: DB, scanned: seq<nat>, floor: nat, tip: nat, opts: Options) {
    && rep.prunable <= rep.scanned == |scanned|
    && rep.prunable >= |DroppableOf(start, scanned, floor, opts.minConfirmations, tip)|
    && rep.pruned == (if opts.dryRun then 0 else rep.prunable)
    && (opts.maxBatches > 0 ==> rep.scanned <= opts.maxBatches * opts.batchSize)
  }

  lemma CountedNext(rep: Report, out: Report, start: DB, scanned: seq<nat>, now: seq<nat>, batch: nat, floor: nat, tip: nat, opts: Options)
    requires IsCounted(rep, start, scanned, batch, floor, tip, opts)
    requires out.scanned == rep.scanned + |now| && |now| <= opts.batchSize && out.prunable <= out.scanned
    requires out.prunable >= rep.prunable + |DroppableOf(start, now, floor, opts.minConfirmations, tip)|
    requires out.pruned - rep.pruned == if opts.dryRun then 0 else out.prunable - rep.prunable
    ensures IsCounted(out, start, scanned + now, batch + 1, floor, tip, opts)
  {
    MoreDroppable(start, scanned, now, floor, opts.minConfirmations, tip);
    MoreScanned(batch, |now|, opts.batchSize);
  }

  lemma WithinLimit(rep: Report, start: DB, scanned: seq<nat>, batch: nat, floor: nat, tip: nat, opts: Options)
    requires IsCounted(rep, start, scanned, batch, floor, tip, opts) && (opts.maxBatches > 0 ==> batch <= opts.maxBatches)
    ensures IsReported(rep, start, scanned, floor, tip, opts)
  {
    if batch <= opts.maxBatches { TimesRises(batch, opts.maxBatches, opts.batchSize); }
  }

  lemma TimesRises(a: nat, b: nat, size: nat)
    requires a <= b
    ensures a * size <= b * size
  {}

  ghost function Elements(s: seq<nat>): set<nat> {
    set id | id in s
  }

  lemma {:induction false} AscendingSize(s: seq<nat>)
    requires Ascending(s)
    ensures |Elements(s)| == |s|
  {
    if s != [] {
      var front, last := s[..|s| - 1], s[|s| - 1];
      AscendingSize(front);
      assert s == front + [last];
      assert last !in front;
      assert Elements(s) == Elements(front) + {last};
    }
  }

  lemma NothingLost(a: DB, b: DB, batch: seq<nat>)
    requires forall t :: !Lost(a, b, t)
    ensures LostOf(a, b, batch) == {}
  {}

  lemma NothingCounted(d0: DB, d1: DB, batch: seq<nat>, safe: seq<nat>, floor: nat, deep: nat, tip: nat)
    requires d1 == d0 || Grows(d0, d1)
    requires safe == [] && forall id :: id in batch && Spent(d0, id, deep, tip) ==> id in safe
    ensures LostOf(d0, d1, batch) == {} && DroppableOf(d0, batch, floor, deep, tip) == {}
  {}

  lemma DroppableCounted(d0: DB, batch: seq<nat>, safe: seq<nat>, floor: nat, deep: nat, tip: nat)
    requires Ascending(safe) && forall id :: id in batch && Spent(d0, id, deep, tip) ==> id in safe
    ensures |DroppableOf(d0, batch, floor, deep, tip)| <= |safe|
  {
    AscendingSize(safe);
    SubsetSize(DroppableOf(d0, batch, floor, deep, tip), Elements(safe));
  }

  /** Distinct names for distinct transactions: as many of the ones as of the others. */
  lemma {:induction false} NamesAndIds(victims: map<TxID, nat>, names: set<TxID>)
    requires names <= victims.Keys && forall t, u :: t in victims && u in victims && victims[t] == victims[u] ==> t == u
    ensures |set t | t in names :: victims[t]| == |names|
    decreases names
  {
    if names == {} {
      assert (set t | t in names :: victims[t]) == {};
    } else {
      var t :| t in names;
      var rest := names - {t};
      NamesAndIds(victims, rest);
      assert (set u | u in names :: victims[u]) == (set u | u in rest :: victims[u]) + {victims[t]};
    }
  }

  /** Every victim still carried its bytes, so the statement matched, and dropped, one row for each. */
  lemma VictimsCounted(d0: DB, d2: DB, d3: DB, victims: map<TxID, nat>, batch: seq<nat>, safe: seq<nat>, floor: nat)
    requires Grows(d0, d2) && DistinctTxIDs(d2) && OnlyDropped(d2, d3, victims.Keys) && Ascending(safe)
    requires forall id :: id in batch ==> Candidate(d0, floor, id)
    requires forall id :: id in safe ==> id in batch && id in d2.txs && d2.txs[id].txid in victims
    requires forall t :: t in victims ==> victims[t] in safe && victims[t] in d2.txs && d2.txs[victims[t]].txid == t
    ensures |Matched(d2, victims)| == |LostOf(d0, d3, batch)| == |safe|
  {
    StillCandidates(d0, d2, floor);
    assert Matched(d2, victims) == victims.Keys;
    NamesAndIds(victims, victims.Keys);
    forall id | id in safe ensures victims[d2.txs[id].txid] == id {}
    assert (set t | t in victims.Keys :: victims[t]) == Elements(safe);
    AscendingSize(safe);
    VictimsLost(d0, d2, d3, victims, batch, safe, floor);
  }

  lemma VictimsLost(d0: DB, d2: DB, d3: DB, victims: map<TxID, nat>, batch: seq<nat>, safe: seq<nat>, floor: nat)
    requires Grows(d0, d2) && OnlyDropped(d2, d3, victims.Keys)
    requires forall id :: id in batch ==> Candidate(d0, floor, id)
    requires forall id :: id in safe ==> id in batch && id in d2.txs && d2.txs[id].txid in victims
    requires forall t :: t in victims ==> victims[t] in safe && victims[t] in d2.txs && d2.txs[victims[t]].txid == t
    ensures LostOf(d0, d3, batch) == Elements(safe)
  {
    DroppedEvolves(d2, d3, victims.Keys);
    forall id | id in safe ensures id in LostOf(d0, d3, batch) { DroppedSince(d0, d2, d3, victims, id, floor); }
    forall id | id in LostOf(d0, d3, batch) ensures id in safe {
      var t := d0.txs[id].txid;
      assert !Lost(d0, d2, t) && Lost(d2, d3, t);
      assert d2.txs[id].txid == t && d2.txs[victims[t]].txid == t;
    }
  }

  /** The transactions to clear, by the name they were chosen under. */
  function VictimsOf(db: DB, safe: seq<nat>): (victims: map<TxID, nat>)
    requires DistinctTxIDs(db) && forall id :: id in safe ==> id in db.txs
    ensures forall t :: t in victims ==> victims[t] in safe && db.txs[victims[t]].txid == t
    ensures forall id :: id in safe ==> db.txs[id].txid in victims
    ensures |victims| <= |safe|
  {
    if safe == [] then map[]
    else VictimsOf(db, safe[1..])[db.txs[safe[0]].txid := safe[0]]
  }

  lemma StillCandidates(a: DB, b: DB, floor: nat)
    requires Grows(a, b)
    ensures forall id :: Candidate(a, floor, id) ==> Candidate(b, floor, id)
  {
    forall id | Candidate(a, floor, id) ensures Candidate(b, floor, id) { CandidateStays(a, b, floor, id); }
  }

  /** Whatever could be dropped when the batch was chosen is found safe. */
  lemma SafeFromTheStart(d0: DB, d1: DB, floor: nat, batch: seq<nat>, safe: seq<nat>, deep: nat, tip: nat)
    requires Evolves(d0, d1) && forall id :: id in batch ==> Candidate(d0, floor, id)
    requires forall id :: id in safe <==> id in batch && Spent(d1, id, deep, tip)
    ensures forall id :: id in batch && Spent(d0, id, deep, tip) ==> id in safe
  {
    forall id | id in batch && Spent(d0, id, deep, tip) ensures id in safe {
      assert Dead(d0, id, floor, deep, tip);
      DeadStays(d0, d1, id, floor, deep, tip);
    }
  }

  /** What a batch leaves: the database has evolved, and every loss of bytes is logged; a dry run loses
      nothing, and any other loses all that could be dropped when the batch was chosen. */
  ghost predicate IsBatchDone(d0: DB, d3: DB, batch: seq<nat>, was: map<TxID, Pass>, cleared: map<TxID, Pass>,
                              floor: nat, tip: nat, opts: Options) {
    && Evolves(d0, d3) && Continues(was, cleared, floor, tip) && LossesLogged(d0, d3, cleared, floor, tip)
    && (opts.dryRun ==> cleared == was && forall t :: !Lost(d0, d3, t))
    && (!opts.dryRun ==> forall id: nat :: id in batch && DroppableAt(d0, floor, id, opts.minConfirmations, tip) ==>
          Lost(d0, d3, d0.txs[id].txid) && LoggedFor(cleared, d0.txs[id].txid, floor, tip))
    && (forall id: nat :: Candidate(d0, floor, id) && id !in batch ==> Candidate(d3, floor, id))
  }

  lemma NothingDropped(d0: DB, d1: DB, batch: seq<nat>, cleared: map<TxID, Pass>, floor: nat, tip: nat, opts: Options)
    requires (d1 == d0 && DistinctTxIDs(d0)) || Grows(d0, d1)
    requires opts.dryRun || forall id :: id in batch ==> !Spent(d0, id, opts.minConfirmations, tip)
    ensures IsBatchDone(d0, d1, batch, cleared, cleared, floor, tip, opts)
  {
    assert Grows(d0, d1);
    StillCandidates(d0, d1, floor);
  }

  lemma DroppedEvolves(a: DB, b: DB, gone: set<TxID>)
    requires OnlyDropped(a, b, gone) && DistinctTxIDs(a)
    ensures Evolves(a, b) && forall t :: Lost(a, b, t) ==> t in gone
  {
    forall t | Mined(a, t) ensures b.known[t].completed && b.known[t].height == a.known[t].height { assert t in a.known; }
    forall i, o | Owns(b, i, o) ensures Owns(a, i, o) {}
  }

  /** What the three statements did to the bytes: exactly the victims have lost theirs. */
  lemma DroppedSince(d0: DB, d2: DB, d3: DB, victims: map<TxID, nat>, id: nat, floor: nat)
    requires Evolves(d0, d2) && (forall t :: !Lost(d0, d2, t)) && OnlyDropped(d2, d3, victims.Keys)
    requires Candidate(d0, floor, id) && d0.txs[id].txid in victims
    ensures Lost(d0, d3, d0.txs[id].txid)
  {
    assert Mined(d2, d0.txs[id].txid);
  }

  lemma VictimsDropped(d0: DB, d2: DB, d3: DB, victims: map<TxID, nat>, batch: seq<nat>, safe: seq<nat>,
                       was: map<TxID, Pass>, cleared: map<TxID, Pass>, floor: nat, tip: nat, opts: Options)
    requires Grows(d0, d2) && OnlyDropped(d2, d3, victims.Keys) && !opts.dryRun
    requires forall id :: id in batch ==> Candidate(d0, floor, id)
    requires forall id :: id in batch && Spent(d0, id, opts.minConfirmations, tip) ==> id in safe
    requires forall id :: id in safe ==> id in batch && id in d2.txs && d2.txs[id].txid in victims
    requires forall t :: t in victims ==> victims[t] in safe && victims[t] in d2.txs && d2.txs[victims[t]].txid == t
    requires cleared == was + PassesOf(victims, floor, tip)
    ensures IsBatchDone(d0, d3, batch, was, cleared, floor, tip, opts)
  {
    DroppedEvolves(d2, d3, victims.Keys);
    EvolvesOn(d0, d2, d3);
    forall t | Lost(d0, d3, t) ensures LoggedFor(cleared, t, floor, tip) {
      assert !Lost(d0, d2, t);
      assert Lost(d2, d3, t);
    }
    forall id: nat | id in batch && DroppableAt(d0, floor, id, opts.minConfirmations, tip)
      ensures Lost(d0, d3, d0.txs[id].txid) && LoggedFor(cleared, d0.txs[id].txid, floor, tip)
    {
      DroppedSince(d0, d2, d3, victims, id, floor);
    }
    StillCandidates(d0, d2, floor);
    OthersKeepTheirBytes(d2, d3, victims, floor);
  }

  /** What is known of the bytes since the pass began, after one more batch. */
  lemma NextLosses(start: DB, d: DB, after: DB, was: map<TxID, Pass>, cleared: map<TxID, Pass>, floor: nat, tip: nat)
    requires Evolves(start, d) && Evolves(d, after)
    requires LossesLogged(start, d, was, floor, tip) && LossesLogged(d, after, cleared, floor, tip) && Continues(was, cleared, floor, tip)
    ensures Evolves(start, after) && LossesLogged(start, after, cleared, floor, tip)
    ensures (forall t :: !Lost(start, d, t)) && (forall t :: !Lost(d, after, t)) ==> forall t :: !Lost(start, after, t)
  {
    EvolvesOn(start, d, after);
    forall t | Lost(start, after, t) ensures LoggedFor(cleared, t, floor, tip) && (Lost(start, d, t) || Lost(d, after, t)) {
      assert Lost(start, d, t) || Lost(d, after, t);
    }
  }

  lemma ContinuesOn(first: map<TxID, Pass>, was: map<TxID, Pass>, cleared: map<TxID, Pass>, floor: nat, tip: nat)
    requires Continues(first, was, floor, tip) && Continues(was, cleared, floor, tip)
    ensures Continues(first, cleared, floor, tip)
  {}

  ghost predicate AllDropped(start: DB, ids: seq<nat>, cleared: map<TxID, Pass>, floor: nat, deep: nat, tip: nat) {
    forall id: nat :: id in ids && DroppableAt(start, floor, id, deep, tip) ==> LoggedFor(cleared, start.txs[id].txid, floor, tip)
  }

  /** And of what could be dropped then: it has been, as far as the pass has come. */
  lemma NextDropped(start: DB, d: DB, after: DB, scanned: seq<nat>, now: seq<nat>, was: map<TxID, Pass>, cleared: map<TxID, Pass>,
                    floor: nat, tip: nat, opts: Options)
    requires Evolves(start, d) && IsBatchDone(d, after, now, was, cleared, floor, tip, opts) && !opts.dryRun
    requires AllDropped(start, scanned, was, floor, opts.minConfirmations, tip)
    requires forall id :: id in now ==> Candidate(d, floor, id)
    ensures AllDropped(start, scanned + now, cleared, floor, opts.minConfirmations, tip)
  {
    forall id: nat | id in scanned + now && DroppableAt(start, floor, id, opts.minConfirmations, tip)
      ensures LoggedFor(cleared, start.txs[id].txid, floor, tip)
    {
      if id in now {
        assert Dead(start, id, floor, opts.minConfirmations, tip);
        DeadStays(start, d, id, floor, opts.minConfirmations, tip);
        assert DroppableAt(d, floor, id, opts.minConfirmations, tip);
      }
    }
  }

  lemma StillThere(db: DB)
    requires DistinctTxIDs(db)
    ensures Grows(db, db)
  {}

  /** Waiting changes nothing of it. */
  lemma StillSwept(start: DB, d: DB, after: DB, first: map<TxID, Pass>, cleared: map<TxID, Pass>, scanned: seq<nat>,
                   from: nat, cursor: nat, floor: nat, tip: nat, opts: Options)
    requires SweptSoFar(start, d, first, cleared, scanned, from, cursor, floor, tip, opts) && Grows(d, after)
    ensures SweptSoFar(start, after, first, cleared, scanned, from, cursor, floor, tip, opts)
  {
    GrowsOn(start, d, after);
    StillCandidates(d, after, floor);
  }

  /** And a batch takes it further. */
  lemma BatchSwept(start: DB, d: DB, after: DB, first: map<TxID, Pass>, was: map<TxID, Pass>, cleared: map<TxID, Pass>,
                   scanned: seq<nat>, now: seq<nat>, from: nat, at: nat, cursor: nat, floor: nat, tip: nat, opts: Options)
    requires SweptSoFar(start, d, first, was, scanned, from, at, floor, tip, opts)
    requires IsBatch(d, floor, at, opts.batchSize, now) && IsBatchDone(d, after, now, was, cleared, floor, tip, opts)
    requires if now == [] then cursor == at else at < cursor < floor && cursor in now && forall id :: id in now ==> id <= cursor
    requires opts.Valid()
    ensures SweptSoFar(start, after, first, cleared, scanned + now, from, cursor, floor, tip, opts)
    ensures now == [] ==> forall id: nat :: Candidate(start, floor, id) && id > from ==> id in scanned + now
  {
    NextLosses(start, d, after, was, cleared, floor, tip);
    ContinuesOn(first, was, cleared, floor, tip);
    AscendingAppend(scanned, now, scanned + now);
    if !opts.dryRun { NextDropped(start, d, after, scanned, now, was, cleared, floor, tip, opts); }
    NextAwaited(start, d, after, scanned, now, from, at, cursor, floor, opts.batchSize);
  }

  lemma NextAwaited(start: DB, d: DB, after: DB, scanned: seq<nat>, now: seq<nat>, from: nat, at: nat, cursor: nat, floor: nat, limit: nat)
    requires Awaited(start, d, scanned, from, at, floor) && IsBatch(d, floor, at, limit, now) && limit > 0
    requires forall id: nat :: Candidate(d, floor, id) && id !in now ==> Candidate(after, floor, id)
    requires if now == [] then cursor == at else cursor in now && forall id :: id in now ==> id <= cursor
    ensures Awaited(start, after, scanned + now, from, cursor, floor)
    ensures now == [] ==> forall id: nat :: Candidate(start, floor, id) && id > from ==> id in scanned + now
  {
    forall id: nat | Candidate(start, floor, id) && id > from && id !in scanned + now
      ensures now != [] && id > cursor && Candidate(after, floor, id)
    {
      assert id > at && Candidate(d, floor, id) && id !in now;
    }
  }

  lemma SafeAreDead(d0: DB, d1: DB, d2: DB, floor: nat, batch: seq<nat>, safe: seq<nat>, deep: nat, tip: nat)
    requires Grows(d0, d1) && Grows(d1, d2)
    requires forall id :: id in batch ==> Candidate(d0, floor, id)
    requires forall id :: id in safe ==> id in batch && Spent(d1, id, deep, tip)
    ensures forall id :: id in safe ==> Dead(d2, id, floor, deep, tip)
  {
    forall id | id in safe ensures Dead(d2, id, floor, deep, tip) {
      CandidateStays(d0, d1, floor, id);
      DeadStays(d1, d2, id, floor, deep, tip);
    }
  }

  lemma OthersKeepTheirBytes(a: DB, b: DB, victims: map<TxID, nat>, floor: nat)
    requires DistinctTxIDs(a) && OnlyDropped(a, b, victims.Keys)
    requires forall t :: t in victims ==> victims[t] in a.txs && a.txs[victims[t]].txid == t
    ensures forall id :: Candidate(a, floor, id) && id !in victims.Values ==> Candidate(b, floor, id)
  {
    forall id | Candidate(a, floor, id) && id !in victims.Values ensures Candidate(b, floor, id) {
      var t := a.txs[id].txid;
      assert t in victims ==> victims[t] in victims.Values;
    }
  }

  lemma LastIsHighest(batch: seq<nat>)
    requires Ascending(batch) && batch != []
    ensures batch[|batch| - 1] in batch && forall id :: id in batch ==> id <= batch[|batch| - 1]
  {}

  lemma AscendingAppend(a: seq<nat>, b: seq<nat>, c: seq<nat>)
    requires Ascending(a) && Ascending(b) && c == a + b
    requires forall x, y :: x in a && y in b ==> x < y
    ensures Ascending(c)
  {
    forall i, j | 0 <= i < j < |c| ensures c[i] < c[j] {
      if i < |a| <= j { assert a[i] in a && b[j - |a|] in b; }
    }
  }

  // ---- what may be dropped, in the tables' own terms ---------------------------------------------------------

  /** Spent by a transaction whose proof is in a block with at least deep blocks up to the tip. */
  ghost predicate SpentDeep(db: DB, o: nat, deep: nat, tip: nat)
    requires o in db.outputs
  {
    exists s, h: nat :: && s in db.txs && db.outputs[o].spentBy == Some(s) && db.txs[s].txid in db.known
                        && db.known[db.txs[s].txid] == Known(true, Some(h), db.known[db.txs[s].txid].raw) && tip - h >= deep
  }

  /** The bytes of a transaction below the floor, mined by both accounts, may be dropped exactly when it has an
      output on record and every one it has was spent that deep. */
  lemma DroppableExactly(db: DB, floor: nat, id: nat, deep: nat, tip: nat)
    ensures DroppableAt(db, floor, id, deep, tip) <==>
              && id in db.txs && id < floor && db.txs[id].completed && db.txs[id].txid in db.known
              && db.known[db.txs[id].txid] == Known(true, db.known[db.txs[id].txid].height, true)
              && (exists o :: o in db.outputs && db.outputs[o].owner == id)
              && forall o :: o in db.outputs && db.outputs[o].owner == id ==> SpentDeep(db, o, deep, tip)
  {
    forall o | o in db.outputs ensures Settled(db, o, deep, tip) <==> SpentDeep(db, o, deep, tip) { DeepIsSettled(db, o, deep, tip); }
    forall o ensures Owns(db, id, o) <==> o in db.outputs && db.outputs[o].owner == id {}
  }

  lemma DeepIsSettled(db: DB, o: nat, deep: nat, tip: nat)
    requires o in db.outputs
    ensures Settled(db, o, deep, tip) <==> SpentDeep(db, o, deep, tip)
  {
    if Settled(db, o, deep, tip) {
      var s := db.outputs[o].spentBy.value;
      var k := db.known[db.txs[s].txid];
      assert k == Known(true, Some(k.height.value), k.raw) && tip - k.height.value >= deep;
    }
  }

  /** A parent and the child that spends its one output, both mined: the parent's bytes may be dropped from the
      height at which the child is deep enough, and the child's never. */
  lemma ParentAndChild(parent: TxID, child: TxID, h: nat, floor: nat, deep: nat, tip: nat)
    requires parent != child
    ensures var db := DB(map[1 := TxRow(parent, true), 2 := TxRow(child, true)],
                         map[parent := Known(true, Some(0), true), child := Known(true, Some(h), true)],
                         map[7 := Output(1, Some(2)), 8 := Output(2, None)]);
            && DistinctTxIDs(db)
            && (DroppableAt(db, floor, 1, deep, tip) <==> floor > 1 && tip - h >= deep)
            && !DroppableAt(db, floor, 2, deep, tip)
  {
    var db := DB(map[1 := TxRow(parent, true), 2 := TxRow(child, true)],
                 map[parent := Known(true, Some(0), true), child := Known(true, Some(h), true)],
                 map[7 := Output(1, Some(2)), 8 := Output(2, None)]);
    assert Owns(db, 1, 7) && Owns(db, 2, 8) && !Settled(db, 8, deep, tip);
    assert Settled(db, 7, deep, tip) <==> h + deep <= tip;
  }
}
