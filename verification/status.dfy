/** Applying the network's status records to the cells they belong to, in whatever order they arrive. */
module StatusBoard {
  import opened Wrappers
  import Arcade

  datatype TxState = Pending | Broadcast | Seen | Mined | Failed

  function StateFor(s: Arcade.Status): Option<TxState> {
    match s
    case SeenOnNetwork | SeenMultipleNodes | AcceptedByNetwork => Some(Seen)
    case Mined | Immutable => Some(TxState.Mined)
    case Rejected | DoubleSpendAttempted => Some(Failed)
    case PendingRetry | InHand => None
  }

  function Rank(s: TxState): nat {
    match s
    case Pending => 0
    case Broadcast => 1
    case Seen => 2
    case Mined => 3
    case Failed => 4
  }

  predicate Terminal(s: TxState) {
    s == Mined || s == Failed
  }

  /** A generation number, not an index: indexes shift when the window is trimmed. */
  datatype Loc = Loc(generation: nat, cell: nat)

  datatype Rec = Rec(txid: TxID, status: Arcade.Status, extra: string)

  datatype Generation = Generation(number: nat, cells: seq<TxState>)

  /** One refusal handed on, and one write queued for the store. */
  datatype Refusal = Refusal(loc: Loc, rec: Rec)
  datatype Write = Write(txid: TxID, state: TxState)

  datatype Board = Board(
    index: map<TxID, Loc>, window: seq<Generation>,
    lastSeen: map<nat, nat>, lastMined: map<nat, nat>,
    refusals: seq<Refusal>, writes: seq<Write>)

  /** A map read with a default: absent is zero. */
  function Gate(m: map<nat, nat>, cell: nat): nat {
    if cell in m then m[cell] else 0
  }

  function Raised(m: map<nat, nat>, cell: nat, g: nat): map<nat, nat> {
    if g > Gate(m, cell) then m[cell := g] else m
  }

  // ---- the render window ----------------------------------------------------------------------------

  ghost predicate Ordered(window: seq<Generation>) {
    forall i, j :: 0 <= i < j < |window| ==> window[i].number < window[j].number
  }

  predicate IsAt(window: seq<Generation>, i: int, number: nat) {
    0 <= i < |window| && window[i].number == number
  }

  /** Scans from the newest, and stops where nothing earlier can match. */
  method IndexOfGeneration(window: seq<Generation>, number: nat) returns (i: int)
    requires Ordered(window)
    ensures i >= 0 ==> IsAt(window, i, number)
    ensures forall j :: IsAt(window, j, number) ==> j == i
  {
    i := |window| - 1;
    while i >= 0
      invariant -1 <= i < |window|
      invariant forall j :: IsAt(window, j, number) ==> j <= i
    {
      if window[i].number == number { return; }
      if window[i].number < number { return -1; }
      i := i - 1;
    }
  }

  /** Where a generation stands in the window, or -1. */
  ghost function IndexOf(window: seq<Generation>, number: nat): int {
    if i :| IsAt(window, i, number) then i else -1
  }

  ghost predicate Shown(window: seq<Generation>, loc: Loc) {
    var i := IndexOf(window, loc.generation);
    i >= 0 && loc.cell < |window[i].cells|
  }

  ghost function StateAt(window: seq<Generation>, loc: Loc): TxState
    requires Shown(window, loc)
  {
    window[IndexOf(window, loc.generation)].cells[loc.cell]
  }

  function Redrawn(window: seq<Generation>, i: nat, cell: nat, s: TxState): seq<Generation>
    requires i < |window| && cell < |window[i].cells|
  {
    window[i := window[i].(cells := window[i].cells[cell := s])]
  }

  // ---- one record ---------------------------------------------------------------------------------------

  /** Both gates, whether or not the row is still on screen. */
  function GatesReleased(b: Board, loc: Loc, next: TxState): Board {
    b.(lastMined := if next == Mined then Raised(b.lastMined, loc.cell, loc.generation) else b.lastMined,
       lastSeen := if next == Seen || next == Mined then Raised(b.lastSeen, loc.cell, loc.generation) else b.lastSeen)
  }

  /** Queued for the store, and forgotten once nothing more can be said about it. */
  function Queued(b: Board, txid: TxID, next: TxState): Board {
    b.(writes := b.writes + [Write(txid, next)], index := if Terminal(next) then b.index - {txid} else b.index)
  }

  ghost function Drawn(b: Board, loc: Loc, r: Rec, next: TxState): Board
    requires Shown(b.window, loc)
  {
    b.(window := Redrawn(b.window, IndexOf(b.window, loc.generation), loc.cell, next),
       refusals := if next == Failed then b.refusals + [Refusal(loc, r)] else b.refusals)
  }

  predicate Says(r: Rec, index: map<TxID, Loc>) {
    StateFor(r.status).Some? && r.txid in index
  }

  /** What one record does to the board. */
  ghost function Applied(b: Board, r: Rec): Board {
    if !Says(r, b.index) then b
    else
      var next := StateFor(r.status).value;
      var loc := b.index[r.txid];
      var released := GatesReleased(b, loc, next);
      if !Shown(b.window, loc) then Queued(released, r.txid, next)
      else if Rank(next) <= Rank(StateAt(b.window, loc)) then released
      else Queued(Drawn(released, loc, r, next), r.txid, next)
  }

  /** What a batch does: its records, one after another. */
  ghost function AppliedAll(b: Board, recs: seq<Rec>): Board {
    if recs == [] then b else Applied(AppliedAll(b, recs[..|recs| - 1]), recs[|recs| - 1])
  }

  /** The records a first pass keeps. */
  function Ours(recs: seq<Rec>, index: map<TxID, Loc>): seq<Rec> {
    if recs == [] then []
    else
      var last := recs[|recs| - 1];
      Ours(recs[..|recs| - 1], index) + if Says(last, index) then [last] else []
  }

  lemma IndexOnlyShrinks(b: Board, recs: seq<Rec>)
    ensures AppliedAll(b, recs).index.Keys <= b.index.Keys
  {}

  lemma OneMore<T>(s: seq<T>, x: T)
    ensures (s + [x])[..|s|] == s && (s + [x])[|s|] == x
  {}

  /** Dropping, before anything is applied, what is not ours then changes nothing. */
  lemma {:induction false} FirstPassLosesNothing(b: Board, recs: seq<Rec>)
    ensures AppliedAll(b, Ours(recs, b.index)) == AppliedAll(b, recs)
  {
    if recs != [] {
      var front, last := recs[..|recs| - 1], recs[|recs| - 1];
      FirstPassLosesNothing(b, front);
      IndexOnlyShrinks(b, front);
      var kept := Ours(front, b.index);
      if Says(last, b.index) {
        OneMore(kept, last);
        assert AppliedAll(b, kept + [last]) == Applied(AppliedAll(b, kept), last);
      } else {
        assert Ours(recs, b.index) == kept && Applied(AppliedAll(b, front), last) == AppliedAll(b, front);
      }
    }
  }

  /** And a batch may be cut anywhere. */
  lemma {:induction false} BatchesCompose(b: Board, first: seq<Rec>, second: seq<Rec>)
    ensures AppliedAll(b, first + second) == AppliedAll(AppliedAll(b, first), second)
  {
    if second == [] {
      assert first + second == first;
    } else {
      var front, last := second[..|second| - 1], second[|second| - 1];
      BatchesCompose(b, first, front);
      assert first + second == (first + front) + [last];
      OneMore(first + front, last);
    }
  }

  lemma FoundAt(window: seq<Generation>, number: nat, i: int)
    requires forall j :: IsAt(window, j, number) ==> j == i
    requires i < 0 || IsAt(window, i, number)
    ensures IndexOf(window, number) == if i < 0 then -1 else i
  {
    assert i >= 0 ==> IsAt(window, i, number);
  }

  /** The engine's view of its transactions, updated in place. */
  class Tracker {
    var index: map<TxID, Loc>
    var window: seq<Generation>
    var lastSeen: map<nat, nat>
    var lastMined: map<nat, nat>
    var refusals: seq<Refusal>
    var writes: seq<Write>

    constructor ()
      ensures View() == Board(map[], [], map[], map[], [], [])
    {
      index, window, lastSeen, lastMined, refusals, writes := map[], [], map[], map[], [], [];
    }

    ghost function View(): Board
      reads this
    {
      Board(index, window, lastSeen, lastMined, refusals, writes)
    }

    method ReleaseGates(loc: Loc, next: TxState)
      modifies `lastMined, `lastSeen
      ensures View() == GatesReleased(old(View()), loc, next)
    {
      if next == Mined && loc.generation > Gate(lastMined, loc.cell) {
        lastMined := lastMined[loc.cell := loc.generation];
      }
      if (next == Seen || next == Mined) && loc.generation > Gate(lastSeen, loc.cell) {
        lastSeen := lastSeen[loc.cell := loc.generation];
      }
    }

    /** One record, under the write lock: the index is read again, because a terminal status earlier in
        the same batch may have evicted the transaction. */
    method Apply(r: Rec, next: TxState)
      requires Ordered(window) && StateFor(r.status) == Some(next)
      modifies this
      ensures Ordered(window) && View() == Applied(old(View()), r)
    {
      if r.txid !in index { return; }
      var loc := index[r.txid];
      ReleaseGates(loc, next);
      var at := IndexOfGeneration(window, loc.generation);
      FoundAt(window, loc.generation, at);
      if at < 0 || loc.cell >= |window[at].cells| {
        Queue(r.txid, next);
        return;
      }
      if Rank(next) <= Rank(window[at].cells[loc.cell]) { return; }
      window := Redrawn(window, at, loc.cell, next);
      if next == Failed { refusals := refusals + [Refusal(loc, r)]; }
      Queue(r.txid, next);
    }

    method Queue(txid: TxID, next: TxState)
      modifies `writes, `index
      ensures View() == Queued(old(View()), txid, next)
    {
      writes := writes + [Write(txid, next)];
      if Terminal(next) { index := index - {txid}; }
    }

    method FirstPass(recs: seq<Rec>) returns (work: seq<Rec>)
      ensures work == Ours(recs, index)
    {
      work := [];
      for i := 0 to |recs|
        invariant work == Ours(recs[..i], index)
      {
        OneMore(recs[..i], recs[i]);
        assert recs[..i + 1] == recs[..i] + [recs[i]];
        if StateFor(recs[i].status).None? { continue; }
        if recs[i].txid !in index { continue; }
        work := work + [recs[i]];
      }
      assert recs[..|recs|] == recs;
    }

    method SecondPass(work: seq<Rec>)
      requires Ordered(window) && forall r :: r in work ==> StateFor(r.status).Some?
      modifies this
      ensures Ordered(window) && View() == AppliedAll(old(View()), work)
    {
      ghost var before := View();
      for k := 0 to |work|
        invariant Ordered(window) && View() == AppliedAll(before, work[..k])
      {
        OneMore(work[..k], work[k]);
        assert work[..k + 1] == work[..k] + [work[k]];
        Apply(work[k], StateFor(work[k].status).value);
      }
      assert work[..|work|] == work;
    }

    /** A first pass keeps what is ours and says something; a second applies it. The board ends as if
        every record had been applied as it came. */
    method ApplyStatusBatch(recs: seq<Rec>)
      requires Ordered(window)
      modifies this
      ensures Ordered(window) && View() == AppliedAll(old(View()), recs)
    {
      var work := FirstPass(recs);
      FirstPassLosesNothing(View(), recs);
      OursSay(recs, index);
      SecondPass(work);
    }
  }

  lemma OursSay(recs: seq<Rec>, index: map<TxID, Loc>)
    ensures forall r :: r in Ours(recs, index) <==> r in recs && Says(r, index)
  {
    if recs != [] {
      OursSay(recs[..|recs| - 1], index);
      assert recs == recs[..|recs| - 1] + [recs[|recs| - 1]];
    }
  }

  // ---- order does not matter ------------------------------------------------------------------------------

  ghost predicate RefusalFree(recs: seq<Rec>) {
    forall r :: r in recs ==> StateFor(r.status) != Some(Failed)
  }

  /** Some record said s of the transaction at loc. */
  ghost predicate Heard(b: Board, recs: seq<Rec>, loc: Loc, s: TxState) {
    exists r :: r in recs && Says(r, b.index) && b.index[r.txid] == loc && StateFor(r.status).value == s
  }

  /** s is the strongest of what the cell showed and everything said of it. */
  ghost predicate IsStrongest(b: Board, recs: seq<Rec>, loc: Loc, s: TxState)
    requires Shown(b.window, loc)
  {
    && (s == StateAt(b.window, loc) || Heard(b, recs, loc, s))
    && Rank(StateAt(b.window, loc)) <= Rank(s)
    && forall t :: Heard(b, recs, loc, t) ==> Rank(t) <= Rank(s)
  }

  /** Accepted by the network: seen, or mined, which implies seen. */
  ghost predicate HeardOf(b: Board, recs: seq<Rec>, loc: Loc, mined: bool) {
    Heard(b, recs, loc, Mined) || (!mined && Heard(b, recs, loc, Seen))
  }

  /** g is the highest of what the gate held and every generation of the cell that was heard of. */
  ghost predicate IsHighest(b: Board, recs: seq<Rec>, mined: bool, cell: nat, g: nat) {
    var was := GateOf(b, mined, cell);
    && (g == was || HeardOf(b, recs, Loc(g, cell), mined)) && was <= g
    && forall n: nat :: HeardOf(b, recs, Loc(n, cell), mined) ==> n <= g
  }

  ghost predicate WindowJoined(b: Board, recs: seq<Rec>, after: Board) {
    && SameShape(b.window, after.window)
    && forall loc :: Shown(b.window, loc) ==>
         Shown(after.window, loc) && IsStrongest(b, recs, loc, StateAt(after.window, loc))
  }

  ghost predicate GatesJoined(b: Board, recs: seq<Rec>, after: Board) {
    forall cell: nat, mined: bool :: IsHighest(b, recs, mined, cell, GateOf(after, mined, cell))
  }

  /** Only what was heard to be mined has been forgotten. */
  ghost predicate IndexJoined(b: Board, recs: seq<Rec>, after: Board) {
    && (forall t :: t in after.index ==> t in b.index && after.index[t] == b.index[t])
    && (forall t :: t in b.index && t !in after.index ==> Heard(b, recs, b.index[t], Mined))
  }

  ghost predicate Joined(b: Board, recs: seq<Rec>, after: Board) {
    WindowJoined(b, recs, after) && GatesJoined(b, recs, after) && IndexJoined(b, recs, after)
  }

  ghost predicate SameShape(a: seq<Generation>, b: seq<Generation>) {
    |a| == |b| && forall i :: 0 <= i < |a| ==> a[i].number == b[i].number && |a[i].cells| == |b[i].cells|
  }

  lemma HeardMore(b: Board, recs: seq<Rec>, r: Rec)
    ensures forall loc, s :: Heard(b, recs + [r], loc, s) <==>
              Heard(b, recs, loc, s) || (Says(r, b.index) && b.index[r.txid] == loc && StateFor(r.status).value == s)
  {
    forall loc, s | Heard(b, recs, loc, s) ensures Heard(b, recs + [r], loc, s) {
      var q :| q in recs && Says(q, b.index) && b.index[q.txid] == loc && StateFor(q.status).value == s;
      assert q in recs + [r];
    }
    assert r in recs + [r];
  }

  lemma SameIndex(a: seq<Generation>, b: seq<Generation>, number: nat)
    requires Ordered(a) && SameShape(a, b)
    ensures IndexOf(a, number) == IndexOf(b, number)
  {
    assert forall i :: IsAt(a, i, number) <==> IsAt(b, i, number);
    if i :| IsAt(a, i, number) { FoundAt(a, number, i); FoundAt(b, number, i); }
  }

  function GateOf(b: Board, mined: bool, cell: nat): nat {
    Gate(if mined then b.lastMined else b.lastSeen, cell)
  }

  /** r speaks for a gate of the cell at loc. */
  predicate Raises(r: Rec, index: map<TxID, Loc>, mined: bool, loc: Loc) {
    Says(r, index) && index[r.txid] == loc && var next := StateFor(r.status).value; next == Mined || (!mined && next == Seen)
  }

  lemma GateAfter(at: Board, r: Rec, mined: bool, cell: nat)
    ensures var g := GateOf(Applied(at, r), mined, cell);
            if Says(r, at.index) && at.index[r.txid].cell == cell && Raises(r, at.index, mined, at.index[r.txid])
            then g == if at.index[r.txid].generation > GateOf(at, mined, cell) then at.index[r.txid].generation else GateOf(at, mined, cell)
            else g == GateOf(at, mined, cell)
  {}

  lemma HeardOfMore(b: Board, recs: seq<Rec>, r: Rec, mined: bool)
    requires StateFor(r.status) != Some(Failed)
    ensures forall loc :: HeardOf(b, recs + [r], loc, mined) <==> HeardOf(b, recs, loc, mined) || Raises(r, b.index, mined, loc)
  {
    HeardMore(b, recs, r);
  }

  lemma GateStep(b: Board, recs: seq<Rec>, at: Board, r: Rec, mined: bool, cell: nat)
    requires IsHighest(b, recs, mined, cell, GateOf(at, mined, cell)) && IndexJoined(b, recs, at)
    requires StateFor(r.status) != Some(Failed)
    ensures IsHighest(b, recs + [r], mined, cell, GateOf(Applied(at, r), mined, cell))
  {
    HeardOfMore(b, recs, r, mined);
    GateAfter(at, r, mined, cell);
    if Says(r, b.index) && r.txid !in at.index {
      var loc := b.index[r.txid];
      assert HeardOf(b, recs, loc, mined) && loc == Loc(loc.generation, loc.cell);
    }
  }

  lemma GatesStep(b: Board, recs: seq<Rec>, at: Board, r: Rec)
    requires GatesJoined(b, recs, at) && IndexJoined(b, recs, at) && StateFor(r.status) != Some(Failed)
    ensures GatesJoined(b, recs + [r], Applied(at, r))
  {
    forall cell: nat, mined: bool ensures IsHighest(b, recs + [r], mined, cell, GateOf(Applied(at, r), mined, cell)) {
      assert IsHighest(b, recs, mined, cell, GateOf(at, mined, cell));
      GateStep(b, recs, at, r, mined, cell);
    }
  }

  lemma IndexStep(b: Board, recs: seq<Rec>, at: Board, r: Rec)
    requires IndexJoined(b, recs, at) && StateFor(r.status) != Some(Failed)
    ensures IndexJoined(b, recs + [r], Applied(at, r))
  {
    HeardMore(b, recs, r);
  }

  lemma RedrawnAt(window: seq<Generation>, loc: Loc, s: TxState)
    requires Ordered(window) && Shown(window, loc)
    ensures var after := Redrawn(window, IndexOf(window, loc.generation), loc.cell, s);
            && SameShape(window, after) && Ordered(after)
            && forall other :: Shown(window, other) ==>
                 Shown(after, other) && StateAt(after, other) == if other == loc then s else StateAt(window, other)
  {
    var i := IndexOf(window, loc.generation);
    var after := Redrawn(window, i, loc.cell, s);
    assert SameShape(window, after);
    forall other | Shown(window, other)
      ensures Shown(after, other) && StateAt(after, other) == if other == loc then s else StateAt(window, other)
    {
      SameIndex(window, after, other.generation);
      var k := IndexOf(window, other.generation);
      assert k == i ==> other.generation == loc.generation;
    }
  }

  /** What one record does to any one cell on screen. */
  ghost function Redraw(at: Board, r: Rec, loc: Loc): TxState
    requires Shown(at.window, loc)
  {
    var was := StateAt(at.window, loc);
    if Says(r, at.index) && at.index[r.txid] == loc && Rank(StateFor(r.status).value) > Rank(was)
    then StateFor(r.status).value else was
  }

  lemma StateAfter(at: Board, r: Rec)
    requires Ordered(at.window)
    ensures var after := Applied(at, r).window;
            && Ordered(after) && SameShape(at.window, after)
            && forall loc :: Shown(at.window, loc) ==> Shown(after, loc) && StateAt(after, loc) == Redraw(at, r, loc)
  {
    if Says(r, at.index) && Shown(at.window, at.index[r.txid]) {
      RedrawnAt(at.window, at.index[r.txid], StateFor(r.status).value);
    }
  }

  lemma StateStep(b: Board, recs: seq<Rec>, at: Board, r: Rec, loc: Loc)
    requires Shown(b.window, loc) && Shown(at.window, loc) && IsStrongest(b, recs, loc, StateAt(at.window, loc))
    requires IndexJoined(b, recs, at) && StateFor(r.status) != Some(Failed)
    ensures IsStrongest(b, recs + [r], loc, Redraw(at, r, loc))
  {
    HeardMore(b, recs, r);
  }

  lemma WindowStep(b: Board, recs: seq<Rec>, at: Board, r: Rec)
    requires Ordered(at.window) && WindowJoined(b, recs, at) && IndexJoined(b, recs, at) && StateFor(r.status) != Some(Failed)
    ensures WindowJoined(b, recs + [r], Applied(at, r)) && Ordered(Applied(at, r).window)
  {
    StateAfter(at, r);
    forall loc | Shown(b.window, loc) ensures IsStrongest(b, recs + [r], loc, Redraw(at, r, loc)) {
      StateStep(b, recs, at, r, loc);
    }
  }

  /** Without refusals, a batch leaves the join of everything it says: the order it says it in, how often,
      and how it was cut are gone. */
  lemma {:induction false} BatchIsJoin(b: Board, recs: seq<Rec>)
    requires Ordered(b.window) && RefusalFree(recs)
    ensures Joined(b, recs, AppliedAll(b, recs)) && Ordered(AppliedAll(b, recs).window)
  {
    if recs == [] {
    } else {
      var front, last := recs[..|recs| - 1], recs[|recs| - 1];
      assert recs == front + [last];
      BatchIsJoin(b, front);
      WindowStep(b, front, AppliedAll(b, front), last);
      GatesStep(b, front, AppliedAll(b, front), last);
      IndexStep(b, front, AppliedAll(b, front), last);
    }
  }

  /** The same things said, in any order, with any repetition. */
  ghost predicate SameRecords(a: seq<Rec>, b: seq<Rec>) {
    forall r :: r in a <==> r in b
  }

  lemma RankInjective(s: TxState, t: TxState)
    ensures Rank(s) == Rank(t) ==> s == t
  {}

  lemma SameHeard(b: Board, x: seq<Rec>, y: seq<Rec>)
    requires SameRecords(x, y)
    ensures forall loc, s :: Heard(b, x, loc, s) <==> Heard(b, y, loc, s)
  {}

  /** So two deliveries of the same records end on the same screen and the same two gates. */
  lemma OrderDoesNotMatter(b: Board, x: seq<Rec>, y: seq<Rec>)
    requires Ordered(b.window) && RefusalFree(x) && SameRecords(x, y)
    ensures AppliedAll(b, x).window == AppliedAll(b, y).window
    ensures forall cell: nat :: Gate(AppliedAll(b, x).lastSeen, cell) == Gate(AppliedAll(b, y).lastSeen, cell)
    ensures forall cell: nat :: Gate(AppliedAll(b, x).lastMined, cell) == Gate(AppliedAll(b, y).lastMined, cell)
  {
    BatchIsJoin(b, x);
    BatchIsJoin(b, y);
    SameHeard(b, x, y);
    forall cell: nat, mined: bool ensures GateOf(AppliedAll(b, x), mined, cell) == GateOf(AppliedAll(b, y), mined, cell) {
      SameGate(b, x, y, mined, cell);
    }
    forall cell: nat ensures Gate(AppliedAll(b, x).lastSeen, cell) == Gate(AppliedAll(b, y).lastSeen, cell) {
      assert GateOf(AppliedAll(b, x), false, cell) == GateOf(AppliedAll(b, y), false, cell);
    }
    forall cell: nat ensures Gate(AppliedAll(b, x).lastMined, cell) == Gate(AppliedAll(b, y).lastMined, cell) {
      assert GateOf(AppliedAll(b, x), true, cell) == GateOf(AppliedAll(b, y), true, cell);
    }
    SameScreen(b, x, y);
  }

  lemma SameGate(b: Board, x: seq<Rec>, y: seq<Rec>, mined: bool, cell: nat)
    requires GatesJoined(b, x, AppliedAll(b, x)) && GatesJoined(b, y, AppliedAll(b, y))
    requires forall loc, s :: Heard(b, x, loc, s) <==> Heard(b, y, loc, s)
    ensures GateOf(AppliedAll(b, x), mined, cell) == GateOf(AppliedAll(b, y), mined, cell)
  {
    var g, h := GateOf(AppliedAll(b, x), mined, cell), GateOf(AppliedAll(b, y), mined, cell);
    assert IsHighest(b, x, mined, cell, g) && IsHighest(b, y, mined, cell, h);
    assert HeardOf(b, x, Loc(g, cell), mined) <==> HeardOf(b, y, Loc(g, cell), mined);
    assert HeardOf(b, x, Loc(h, cell), mined) <==> HeardOf(b, y, Loc(h, cell), mined);
  }

  lemma SameScreen(b: Board, x: seq<Rec>, y: seq<Rec>)
    requires Ordered(b.window)
    requires WindowJoined(b, x, AppliedAll(b, x)) && WindowJoined(b, y, AppliedAll(b, y))
    requires forall loc, s :: Heard(b, x, loc, s) <==> Heard(b, y, loc, s)
    ensures AppliedAll(b, x).window == AppliedAll(b, y).window
  {
    var u, v := AppliedAll(b, x).window, AppliedAll(b, y).window;
    forall loc | Shown(b.window, loc) ensures Shown(u, loc) && Shown(v, loc) && StateAt(u, loc) == StateAt(v, loc) {
      var s, t := StateAt(u, loc), StateAt(v, loc);
      assert Heard(b, x, loc, s) <==> Heard(b, y, loc, s);
      assert Heard(b, x, loc, t) <==> Heard(b, y, loc, t);
      RankInjective(s, t);
    }
    CellsAreTheScreen(b.window, u, v);
  }

  /** Two screens of one shape that show every cell alike are the same. */
  lemma CellsAreTheScreen(w: seq<Generation>, u: seq<Generation>, v: seq<Generation>)
    requires Ordered(w) && SameShape(w, u) && SameShape(w, v)
    requires forall loc :: Shown(w, loc) ==> Shown(u, loc) && Shown(v, loc) && StateAt(u, loc) == StateAt(v, loc)
    ensures u == v
  {
    forall i, c | 0 <= i < |u| && 0 <= c < |u[i].cells| ensures u[i].cells[c] == v[i].cells[c] {
      var loc := Loc(w[i].number, c);
      FoundAt(w, loc.generation, i);
      SameIndex(w, u, loc.generation);
      SameIndex(w, v, loc.generation);
      assert Shown(w, loc);
    }
    forall i | 0 <= i < |u| ensures u[i] == v[i] { assert u[i].cells == v[i].cells; }
  }

  // ---- with refusals --------------------------------------------------------------------------------------

  /** Nothing, refusals included, ever makes a cell on screen weaker. */
  lemma {:induction false} StatesNeverFall(b: Board, recs: seq<Rec>, loc: Loc)
    requires Ordered(b.window) && Shown(b.window, loc)
    ensures Ordered(AppliedAll(b, recs).window) && Shown(AppliedAll(b, recs).window, loc)
    ensures Rank(StateAt(AppliedAll(b, recs).window, loc)) >= Rank(StateAt(b.window, loc))
  {
    if recs == [] {
    } else {
      var front := recs[..|recs| - 1];
      StatesNeverFall(b, front, loc);
      StateAfter(AppliedAll(b, front), recs[|recs| - 1]);
    }
  }

  /** The gates hear of a transaction whether or not its generation is still on screen. */
  lemma GatesIgnoreTheWindow(b: Board, recs: seq<Rec>, window: seq<Generation>, cell: nat)
    requires Ordered(b.window) && Ordered(window) && RefusalFree(recs)
    ensures Gate(AppliedAll(b, recs).lastSeen, cell) == Gate(AppliedAll(b.(window := window), recs).lastSeen, cell)
    ensures Gate(AppliedAll(b, recs).lastMined, cell) == Gate(AppliedAll(b.(window := window), recs).lastMined, cell)
  {
    var other := b.(window := window);
    BatchIsJoin(b, recs);
    BatchIsJoin(other, recs);
    forall loc, s ensures Heard(b, recs, loc, s) <==> Heard(other, recs, loc, s) {}
    forall mined: bool ensures GateOf(AppliedAll(b, recs), mined, cell) == GateOf(AppliedAll(other, recs), mined, cell) {
      var g, h := GateOf(AppliedAll(b, recs), mined, cell), GateOf(AppliedAll(other, recs), mined, cell);
      assert IsHighest(b, recs, mined, cell, g) && IsHighest(other, recs, mined, cell, h);
      assert HeardOf(b, recs, Loc(g, cell), mined) <==> HeardOf(other, recs, Loc(g, cell), mined);
      assert HeardOf(b, recs, Loc(h, cell), mined) <==> HeardOf(other, recs, Loc(h, cell), mined);
    }
    assert GateOf(AppliedAll(b, recs), false, cell) == GateOf(AppliedAll(other, recs), false, cell);
    assert GateOf(AppliedAll(b, recs), true, cell) == GateOf(AppliedAll(other, recs), true, cell);
  }

  /** The same screen and the same gates. */
  ghost predicate SameView(x: Board, y: Board) {
    && x.window == y.window
    && forall cell: nat, mined: bool :: GateOf(x, mined, cell) == GateOf(y, mined, cell)
  }

  /** r refuses what q mines, while the cell still shows less than either. */
  ghost predicate ScreenClash(b: Board, r: Rec, q: Rec) {
    && Says(r, b.index) && r.txid == q.txid
    && StateFor(r.status) == Some(Failed) && StateFor(q.status) == Some(Mined)
    && Shown(b.window, b.index[r.txid]) && Rank(StateAt(b.window, b.index[r.txid])) < Rank(Mined)
  }

  /** r refuses what q would raise a gate for, and the refusal is not on screen already. */
  ghost predicate GateClash(b: Board, r: Rec, q: Rec) {
    && Says(r, b.index) && r.txid == q.txid && StateFor(r.status) == Some(Failed)
    && var loc := b.index[r.txid];
       && (Shown(b.window, loc) ==> StateAt(b.window, loc) != Failed)
       && exists mined: bool :: Raises(q, b.index, mined, loc) && loc.generation > GateOf(b, mined, loc.cell)
  }

  ghost predicate Clash(b: Board, r: Rec, q: Rec) {
    ScreenClash(b, r, q) || GateClash(b, r, q)
  }

  /** Two records may arrive in either order exactly when neither refuses what the other would still have
      drawn as mined or raised a gate for: the refusal, if it is first, evicts the transaction. */
  lemma OrderMattersExactly(b: Board, r: Rec, q: Rec)
    requires Ordered(b.window)
    ensures SameView(AppliedAll(b, [r, q]), AppliedAll(b, [q, r])) <==> !Clash(b, r, q) && !Clash(b, q, r)
  {
    TwoApplied(b, r, q);
    TwoApplied(b, q, r);
    if Clash(b, r, q) { Clashes(b, r, q); }
    if Clash(b, q, r) { Clashes(b, q, r); }
    if !Clash(b, r, q) && !Clash(b, q, r) {
      ScreensAgree(b, r, q);
      forall cell: nat, mined: bool
        ensures GateOf(Applied(Applied(b, r), q), mined, cell) == GateOf(Applied(Applied(b, q), r), mined, cell)
      {
        GatesAgree(b, r, q, mined, cell);
      }
    }
  }

  /** Terminal, and drawn or off the screen: nothing more will be heard of it. */
  ghost predicate Evicts(b: Board, r: Rec) {
    && Says(r, b.index) && Terminal(StateFor(r.status).value)
    && var loc := b.index[r.txid]; Shown(b.window, loc) ==> Rank(StateFor(r.status).value) > Rank(StateAt(b.window, loc))
  }

  lemma IndexAfter(b: Board, r: Rec)
    ensures Applied(b, r).index == if Evicts(b, r) then b.index - {r.txid} else b.index
  {}

  /** What is left to say after r. */
  lemma SaysAfter(b: Board, r: Rec, q: Rec)
    ensures var at := Applied(b, r);
            && (Says(q, at.index) <==> Says(q, b.index) && !(Evicts(b, r) && q.txid == r.txid))
            && (Says(q, at.index) ==> at.index[q.txid] == b.index[q.txid])
  {
    IndexAfter(b, r);
  }

  /** The state a record would put at loc, given that it is still listened to. */
  ghost function Stronger(r: Rec, b: Board, loc: Loc, heard: bool, was: TxState): TxState {
    if heard && Says(r, b.index) && b.index[r.txid] == loc && Rank(StateFor(r.status).value) > Rank(was)
    then StateFor(r.status).value else was
  }

  lemma ScreenTwice(b: Board, r: Rec, q: Rec, loc: Loc)
    requires Ordered(b.window) && Shown(b.window, loc)
    ensures var at := Applied(b, r);
            && Shown(Applied(at, q).window, loc)
            && StateAt(Applied(at, q).window, loc) ==
                 Stronger(q, b, loc, !(Evicts(b, r) && q.txid == r.txid), Stronger(r, b, loc, true, StateAt(b.window, loc)))
  {
    StateAfter(b, r);
    StateAfter(Applied(b, r), q);
    SaysAfter(b, r, q);
  }

  lemma CellAgrees(b: Board, r: Rec, q: Rec, loc: Loc)
    requires Ordered(b.window) && Shown(b.window, loc) && !ScreenClash(b, r, q) && !ScreenClash(b, q, r)
    ensures Shown(Applied(Applied(b, r), q).window, loc) && Shown(Applied(Applied(b, q), r).window, loc)
    ensures StateAt(Applied(Applied(b, r), q).window, loc) == StateAt(Applied(Applied(b, q), r).window, loc)
  {
    ScreenTwice(b, r, q, loc);
    ScreenTwice(b, q, r, loc);
    StrongerTwice(b, r, q, loc);
  }

  lemma StrongerTwice(b: Board, r: Rec, q: Rec, loc: Loc)
    requires Shown(b.window, loc) && !ScreenClash(b, r, q) && !ScreenClash(b, q, r)
    ensures var was := StateAt(b.window, loc);
            Stronger(q, b, loc, !(Evicts(b, r) && q.txid == r.txid), Stronger(r, b, loc, true, was))
            == Stronger(r, b, loc, !(Evicts(b, q) && q.txid == r.txid), Stronger(q, b, loc, true, was))
  {}

  lemma ScreensAgree(b: Board, r: Rec, q: Rec)
    requires Ordered(b.window) && !ScreenClash(b, r, q) && !ScreenClash(b, q, r)
    ensures Applied(Applied(b, r), q).window == Applied(Applied(b, q), r).window
  {
    var u, v := Applied(Applied(b, r), q).window, Applied(Applied(b, q), r).window;
    StateAfter(b, r);
    StateAfter(Applied(b, r), q);
    StateAfter(b, q);
    StateAfter(Applied(b, q), r);
    assert SameShape(b.window, u) && SameShape(b.window, v);
    forall loc | Shown(b.window, loc) ensures Shown(u, loc) && Shown(v, loc) && StateAt(u, loc) == StateAt(v, loc) {
      CellAgrees(b, r, q, loc);
    }
    CellsAreTheScreen(b.window, u, v);
  }

  lemma GatesAgree(b: Board, r: Rec, q: Rec, mined: bool, cell: nat)
    requires !GateClash(b, r, q) && !GateClash(b, q, r)
    ensures GateOf(Applied(Applied(b, r), q), mined, cell) == GateOf(Applied(Applied(b, q), r), mined, cell)
  {
    GateAfter(b, r, mined, cell);
    GateAfter(Applied(b, r), q, mined, cell);
    GateAfter(b, q, mined, cell);
    GateAfter(Applied(b, q), r, mined, cell);
    IndexAfter(b, r);
    IndexAfter(b, q);
  }

  lemma Clashes(b: Board, r: Rec, q: Rec)
    requires Ordered(b.window) && Clash(b, r, q)
    ensures !SameView(Applied(Applied(b, r), q), Applied(Applied(b, q), r))
  {
    var loc := b.index[r.txid];
    IndexAfter(b, r);
    IndexAfter(b, q);
    if ScreenClash(b, r, q) {
      ScreenTwice(b, r, q, loc);
      ScreenTwice(b, q, r, loc);
    } else {
      var mined: bool :| Raises(q, b.index, mined, loc) && loc.generation > GateOf(b, mined, loc.cell);
      GateAfter(b, r, mined, loc.cell);
      GateAfter(Applied(b, r), q, mined, loc.cell);
      GateAfter(b, q, mined, loc.cell);
      GateAfter(Applied(b, q), r, mined, loc.cell);
    }
  }

  lemma TwoApplied(b: Board, first: Rec, second: Rec)
    ensures AppliedAll(b, [first, second]) == Applied(Applied(b, first), second)
  {
    assert [first, second][..1] == [first] && [first][..0] == [];
    assert AppliedAll(b, [first]) == Applied(AppliedAll(b, [first][..0]), first);
  }

  // ---- what each status does ------------------------------------------------------------------------------

  function Highest(a: nat, b: nat): nat {
    if a > b then a else b
  }

  /** On screen the cell goes to s and a write is queued, if it showed one of these; off screen the write is
      queued whatever was shown. */
  ghost predicate IsNoted(b: Board, r: Rec, loc: Loc, after: Board, s: TxState, from: set<TxState>) {
    && (Shown(b.window, loc) ==> Shown(after.window, loc)
                                 && StateAt(after.window, loc) == if StateAt(b.window, loc) in from then s else StateAt(b.window, loc))
    && (!Shown(b.window, loc) ==> after.window == b.window)
    && after.writes == if Takes(b, loc, from) then b.writes + [Write(r.txid, s)] else b.writes
  }

  ghost predicate Takes(b: Board, loc: Loc, from: set<TxState>) {
    Shown(b.window, loc) ==> StateAt(b.window, loc) in from
  }

  ghost predicate IsAcceptance(b: Board, r: Rec, loc: Loc, after: Board) {
    && IsNoted(b, r, loc, after, Seen, {Pending, Broadcast})
    && Gate(after.lastSeen, loc.cell) == Highest(Gate(b.lastSeen, loc.cell), loc.generation)
    && after.lastMined == b.lastMined && after.index == b.index && after.refusals == b.refusals
  }

  ghost predicate IsMining(b: Board, r: Rec, loc: Loc, after: Board) {
    && IsNoted(b, r, loc, after, TxState.Mined, {Pending, Broadcast, Seen})
    && Gate(after.lastSeen, loc.cell) == Highest(Gate(b.lastSeen, loc.cell), loc.generation)
    && Gate(after.lastMined, loc.cell) == Highest(Gate(b.lastMined, loc.cell), loc.generation)
    && after.index == (if Takes(b, loc, {Pending, Broadcast, Seen}) then b.index - {r.txid} else b.index)
    && after.refusals == b.refusals
  }

  ghost predicate IsRefusal(b: Board, r: Rec, loc: Loc, after: Board) {
    && IsNoted(b, r, loc, after, Failed, {Pending, Broadcast, Seen, TxState.Mined})
    && after.lastSeen == b.lastSeen && after.lastMined == b.lastMined
    && after.index == (if Takes(b, loc, {Pending, Broadcast, Seen, TxState.Mined}) then b.index - {r.txid} else b.index)
    && after.refusals == if Shown(b.window, loc) && StateAt(b.window, loc) != Failed then b.refusals + [Refusal(loc, r)] else b.refusals
  }

  /** One record about a transaction of ours, status by status. Acceptance opens the seen gate and mining both;
      the screen only ever moves up; mining and refusal are the last that is heard of a transaction; and a
      refusal is handed on exactly when it is drawn. */
  lemma OneRecord(b: Board, r: Rec, loc: Loc)
    requires Ordered(b.window) && r.txid in b.index && b.index[r.txid] == loc
    ensures match r.status
            case AcceptedByNetwork | SeenOnNetwork | SeenMultipleNodes => IsAcceptance(b, r, loc, Applied(b, r))
            case Mined | Immutable => IsMining(b, r, loc, Applied(b, r))
            case Rejected | DoubleSpendAttempted => IsRefusal(b, r, loc, Applied(b, r))
            case PendingRetry | InHand => Applied(b, r) == b
  {
    match r.status
    case AcceptedByNetwork | SeenOnNetwork | SeenMultipleNodes => Noted(b, r, loc, Seen, {Pending, Broadcast});
    case Mined | Immutable => OneMining(b, r, loc);
    case Rejected | DoubleSpendAttempted => OneRefusal(b, r, loc);
    case PendingRetry | InHand =>
  }

  /** A cell on screen gives way to what ranks above it. */
  lemma Noted(b: Board, r: Rec, loc: Loc, s: TxState, from: set<TxState>)
    requires Ordered(b.window) && r.txid in b.index && b.index[r.txid] == loc && StateFor(r.status) == Some(s)
    requires forall t :: t in from <==> Rank(t) < Rank(s)
    ensures IsNoted(b, r, loc, Applied(b, r), s, from)
  {
    StateAfter(b, r);
  }

  lemma OneMining(b: Board, r: Rec, loc: Loc)
    requires Ordered(b.window) && r.txid in b.index && b.index[r.txid] == loc && r.status in {Arcade.Mined, Arcade.Immutable}
    ensures IsMining(b, r, loc, Applied(b, r))
  {
    Noted(b, r, loc, TxState.Mined, {Pending, Broadcast, Seen});
  }

  lemma OneRefusal(b: Board, r: Rec, loc: Loc)
    requires Ordered(b.window) && r.txid in b.index && b.index[r.txid] == loc && r.status in {Arcade.Rejected, Arcade.DoubleSpendAttempted}
    ensures IsRefusal(b, r, loc, Applied(b, r))
  {
    Noted(b, r, loc, Failed, {Pending, Broadcast, Seen, TxState.Mined});
  }

  /** Whatever is drawn of one cell, no other cell's state moves, and no other cell's gate. */
  lemma OthersStay(b: Board, r: Rec, other: Loc)
    requires Ordered(b.window) && Shown(b.window, other) && (r.txid in b.index ==> b.index[r.txid] != other)
    ensures Shown(Applied(b, r).window, other) && StateAt(Applied(b, r).window, other) == StateAt(b.window, other)
  {
    StateAfter(b, r);
  }

  lemma OtherGatesStay(b: Board, r: Rec, cell: nat)
    requires r.txid in b.index ==> b.index[r.txid].cell != cell
    ensures Gate(Applied(b, r).lastSeen, cell) == Gate(b.lastSeen, cell) && Gate(Applied(b, r).lastMined, cell) == Gate(b.lastMined, cell)
  {
    GateAfter(b, r, false, cell);
    GateAfter(b, r, true, cell);
  }

  /** The gates are raised by exactly the statuses that count as the network's acceptance. */
  lemma AcceptanceRaises(s: Arcade.Status)
    ensures StateFor(s) in {Some(Seen), Some(TxState.Mined)} <==> Arcade.Accepted(s)
  {}

  function Handed(b: Board, t: TxID): nat {
    HandedIn(b.refusals, t)
  }

  function HandedIn(refusals: seq<Refusal>, t: TxID): nat {
    if refusals == [] then 0
    else HandedIn(refusals[..|refusals| - 1], t) + if refusals[|refusals| - 1].rec.txid == t then 1 else 0
  }

  lemma HandedMore(refusals: seq<Refusal>, f: Refusal, t: TxID)
    ensures HandedIn(refusals + [f], t) == HandedIn(refusals, t) + if f.rec.txid == t then 1 else 0
  {
    assert (refusals + [f])[..|refusals|] == refusals;
  }

  lemma HandedOnce(b: Board, r: Rec, t: TxID)
    ensures var after := Applied(b, r);
            && after.index.Keys <= b.index.Keys
            && (Handed(after, t) == Handed(b, t) || (Handed(after, t) == Handed(b, t) + 1 && t in b.index && t !in after.index))
  {
    if Says(r, b.index) { HandedMore(b.refusals, Refusal(b.index[r.txid], r), t); }
  }

  /** However often a transaction is reported refused, its refusal is handed on at most once, and it is not
      listened to after that. */
  lemma {:induction false} RefusalHandedOnce(b: Board, recs: seq<Rec>, t: TxID)
    ensures var after := AppliedAll(b, recs);
            && Handed(b, t) <= Handed(after, t) <= Handed(b, t) + 1
            && (Handed(after, t) > Handed(b, t) ==> t !in after.index)
  {
    if recs != [] {
      RefusalHandedOnce(b, recs[..|recs| - 1], t);
      HandedOnce(AppliedAll(b, recs[..|recs| - 1]), recs[|recs| - 1], t);
    }
  }
}
