/** How many refusals a cell rebuilds through before it halts, and how long it waits before each rebuild. */
module RefusalBudget {
  import opened Wrappers
  import Rejections
  import Arcade

  const MAX_RETRIES: nat := 3
  /** Milliseconds. */
  const MIN_HALT_WINDOW: nat := 60_000
  const RETRY_PAUSE: nat := 500
  const MAX_REBUILD_PAUSE: nat := 8_000

  const RETRYABLE_MARK := "retryable"

  /** A refusal that asks to be tried again says nothing against the cell. */
  ghost predicate IsRetryable(status: Arcade.Status, reason: string) {
    status == Arcade.PendingRetry || Rejections.Contains(Rejections.Lower(reason), RETRYABLE_MARK)
  }

  datatype Retry = Retry(generation: nat, attempts: nat, first: nat)

  /** One cell's part of the engine's maps. */
  datatype Cell = Cell(retry: Option<Retry>, needsRepair: bool, halted: bool)

  /** What can happen to a cell: a refusal of one generation, or an advance to one. */
  datatype Event = Refused(at: nat, generation: nat, retryable: bool) | Advanced(at: nat, generation: nat)

  /** The refusals map, read with a missing entry as an entry for generation 0 that has never been used. */
  function Counted(retry: Option<Retry>, generation: nat, now: nat): Retry {
    if retry.Some? && retry.value.generation == generation then retry.value.(attempts := retry.value.attempts + 1)
    else Retry(generation, 1, now)
  }

  predicate OverBudget(r: Retry, now: nat) {
    r.attempts > MAX_RETRIES && now - r.first >= MIN_HALT_WINDOW
  }

  function Noted(c: Cell, e: Event): Cell {
    match e
    case Refused(at, generation, true) => c.(needsRepair := true)
    case Refused(at, generation, false) =>
      var r := Counted(c.retry, generation, at);
      if OverBudget(r, at) then Cell(Some(r), false, true) else c.(retry := Some(r), needsRepair := true)
    case Advanced(at, generation) =>
      if c.retry.Some? && generation > c.retry.value.generation then c.(retry := None) else c
  }

  function Start(): Cell {
    Cell(None, false, false)
  }

  function After(trace: seq<Event>): Cell {
    if trace == [] then Start() else Noted(After(trace[..|trace| - 1]), trace[|trace| - 1])
  }

  class Engine {
    var retries: map<nat, Retry>
    var needsRepair: set<nat>
    var halted: set<nat>

    constructor ()
      ensures forall k: nat :: View(k) == Start()
    {
      retries, needsRepair, halted := map[], {}, {};
    }

    function View(cell: nat): Cell
      reads this
    {
      Cell(if cell in retries then Some(retries[cell]) else None, cell in needsRepair, cell in halted)
    }

    method NoteRefusal(cell: nat, now: nat, generation: nat, status: Arcade.Status, reason: string) returns (ghost e: Event)
      modifies this
      ensures e == Refused(now, generation, IsRetryable(status, reason))
      ensures e.retryable <==> status == Arcade.PendingRetry || Rejections.Contains(Rejections.Lower(reason), "retryable")
      // One way or the other the refusal is answered: the cell is given up on, or it is due for repair.
      ensures var c := View(cell); e.retryable ==> c == old(View(cell)).(needsRepair := true)
      ensures var c := View(cell); !e.retryable ==> (c.needsRepair || c.halted) && c.retry.Some? && c.retry.value.generation == generation
      ensures View(cell) == Noted(old(View(cell)), e)
      ensures forall k: nat :: k != cell ==> View(k) == old(View(k))
    {
      e := Refused(now, generation, IsRetryable(status, reason));
      var mark := Rejections.Index(Rejections.Lower(reason), RETRYABLE_MARK);
      if status == Arcade.PendingRetry || mark >= 0 {
        needsRepair := needsRepair + {cell};
        return;
      }
      var st := if cell in retries then retries[cell] else Retry(0, 0, now);
      if st.generation != generation {
        st := Retry(generation, 0, now);
      }
      st := st.(attempts := st.attempts + 1);
      retries := retries[cell := st];
      if st.attempts > MAX_RETRIES && now - st.first >= MIN_HALT_WINDOW {
        halted := halted + {cell};
        needsRepair := needsRepair - {cell};
        return;
      }
      needsRepair := needsRepair + {cell};
    }

    /** A cell that has moved past what it was refused for owes nothing for it. */
    method ClearRetries(cell: nat, generation: nat, ghost now: nat)
      modifies this
      ensures View(cell) == Noted(old(View(cell)), Advanced(now, generation))
      ensures forall k: nat :: k != cell ==> View(k) == old(View(k))
    {
      if cell in retries && generation > retries[cell].generation {
        retries := retries - {cell};
      }
    }

    method RebuildPause(cell: nat) returns (pause: nat)
      ensures pause == Pause(if cell in retries then retries[cell].attempts else 0)
    {
      if cell !in retries || retries[cell].attempts <= 0 { return RETRY_PAUSE; }
      var doublings := retries[cell].attempts - 1;
      if doublings > 8 { doublings := 8; }
      pause := RETRY_PAUSE * Pow2(doublings);
      if pause > MAX_REBUILD_PAUSE { pause := MAX_REBUILD_PAUSE; }
    }
  }

  // ---- what the counter means over a whole history -------------------------------------------------------

  predicate Counts(e: Event, g: nat) {
    e.Refused? && !e.retryable && e.generation == g
  }

  /** Ends any streak of refusals of g: a refusal of another generation, or an advance past g. */
  predicate Breaks(e: Event, g: nat) {
    (e.Refused? && !e.retryable && e.generation != g) || (e.Advanced? && e.generation > g)
  }

  ghost predicate Unbroken(trace: seq<Event>, a: nat, n: nat, g: nat) {
    forall i :: a <= i < n <= |trace| ==> !Breaks(trace[i], g)
  }

  function CountIn(trace: seq<Event>, a: nat, n: nat, g: nat): nat
    requires a <= n <= |trace|
    decreases n
  {
    if a == n then 0 else CountIn(trace, a, n - 1, g) + if Counts(trace[n - 1], g) then 1 else 0
  }

  ghost predicate TimesRise(trace: seq<Event>) {
    forall i, j :: 0 <= i < j < |trace| ==> trace[i].at <= trace[j].at
  }

  /** A streak of refusals of g that starts at a and is unbroken up to n. */
  ghost predicate Streak(trace: seq<Event>, a: nat, n: nat, g: nat) {
    a < n <= |trace| && Counts(trace[a], g) && Unbroken(trace, a, n, g)
  }

  /** The entry's streak starts at a: its first time is a's, its attempts are what has counted since. */
  ghost predicate StartsAt(trace: seq<Event>, n: nat, r: Retry, a: nat) {
    Streak(trace, a, n, r.generation) && trace[a].at == r.first && CountIn(trace, a, n, r.generation) == r.attempts
  }

  /** And it covers every other streak there is. */
  ghost predicate Covers(trace: seq<Event>, n: nat, retry: Option<Retry>, a: nat, g: nat) {
    Streak(trace, a, n, g) ==>
      && retry.Some? && retry.value.generation == g
      && retry.value.first <= trace[a].at && CountIn(trace, a, n, g) <= retry.value.attempts
  }

  /** The entry after n events is the longest streak still unbroken, and there is none without one. */
  ghost predicate Remembers(trace: seq<Event>, n: nat, retry: Option<Retry>) {
    && n <= |trace|
    && (forall a: nat, g: nat :: Covers(trace, n, retry, a, g))
    && (retry.Some? ==> exists a: nat :: StartsAt(trace, n, retry.value, a))
  }

  lemma StreakNext(trace: seq<Event>, a: nat, n: nat, g: nat)
    requires n < |trace|
    ensures Streak(trace, a, n + 1, g) <==>
              (Streak(trace, a, n, g) && !Breaks(trace[n], g)) || (a == n && Counts(trace[n], g))
  {
    if Streak(trace, a, n, g) && !Breaks(trace[n], g) {
      forall i | a <= i < n + 1 ensures !Breaks(trace[i], g) {}
    }
  }

  lemma CoversNext(trace: seq<Event>, n: nat, c: Cell, a: nat, g: nat)
    requires n < |trace| && TimesRise(trace) && Remembers(trace, n, c.retry)
    ensures Covers(trace, n + 1, Noted(c, trace[n]).retry, a, g)
  {
    StreakNext(trace, a, n, g);
    assert Covers(trace, n, c.retry, a, g);
    if a == n && Counts(trace[n], g) && c.retry.Some? && c.retry.value.generation == g {
      var b: nat :| StartsAt(trace, n, c.retry.value, b);
      assert trace[b].at <= trace[n].at;
    }
    assert CountIn(trace, n, n, g) == 0;
  }

  lemma StartsAtNext(trace: seq<Event>, n: nat, c: Cell) returns (a: nat)
    requires n < |trace| && Remembers(trace, n, c.retry) && Noted(c, trace[n]).retry.Some?
    ensures StartsAt(trace, n + 1, Noted(c, trace[n]).retry.value, a)
  {
    var g := Noted(c, trace[n]).retry.value.generation;
    if c.retry.Some? && c.retry.value.generation == g {
      a :| StartsAt(trace, n, c.retry.value, a);
    } else {
      a := n;
      assert CountIn(trace, n, n, g) == 0;
    }
    StreakNext(trace, a, n, g);
  }

  lemma RemembersNext(trace: seq<Event>, n: nat, c: Cell)
    requires n < |trace| && TimesRise(trace) && Remembers(trace, n, c.retry)
    ensures Remembers(trace, n + 1, Noted(c, trace[n]).retry)
  {
    var m, after := n + 1, Noted(c, trace[n]).retry;
    forall a: nat, g: nat ensures Covers(trace, m, after, a, g) { CoversNext(trace, n, c, a, g); }
    if after.Some? { var a := StartsAtNext(trace, n, c); }
  }

  lemma {:induction false} AlwaysRemembers(trace: seq<Event>, n: nat)
    requires n <= |trace| && TimesRise(trace)
    ensures Remembers(trace, n, After(trace[..n]).retry)
  {
    if n > 0 {
      AlwaysRemembers(trace, n - 1);
      assert trace[..n][..n - 1] == trace[..n - 1];
      RemembersNext(trace, n - 1, After(trace[..n - 1]));
    }
  }

  /** The refusal at n ends a streak, begun at a, long and old enough to give up on. */
  ghost predicate TooMany(trace: seq<Event>, a: nat, n: nat, g: nat) {
    && Streak(trace, a, n + 1, g) && Counts(trace[n], g)
    && CountIn(trace, a, n + 1, g) >= 4 && trace[n].at - trace[a].at >= 60_000
  }

  ghost predicate GivesUpAt(trace: seq<Event>, n: nat) {
    n < |trace| && exists a: nat, g: nat :: TooMany(trace, a, n, g)
  }

  lemma HaltsAt(trace: seq<Event>, n: nat)
    requires n < |trace| && TimesRise(trace)
    ensures After(trace[..n + 1]).halted <==> After(trace[..n]).halted || GivesUpAt(trace, n)
  {
    assert trace[..n + 1][..n] == trace[..n];
    AlwaysRemembers(trace, n + 1);
    var c, e := After(trace[..n]), trace[n];
    var after := Noted(c, e).retry;
    if a: nat, g: nat :| TooMany(trace, a, n, g) {
      assert Covers(trace, n + 1, after, a, g);
    }
    if e.Refused? && !e.retryable {
      var a: nat :| StartsAt(trace, n + 1, after.value, a);
      assert OverBudget(after.value, e.at) ==> TooMany(trace, a, n, after.value.generation);
    }
  }

  /** A cell is halted exactly when, somewhere in its history, at least four refusals of one generation,
      none of them retryable, the first and last at least a minute apart, came with no refusal of another
      generation and no advance past it in between. */
  lemma {:induction false} HaltedIffGaveUp(trace: seq<Event>, n: nat)
    requires n <= |trace| && TimesRise(trace)
    ensures After(trace[..n]).halted <==> exists k :: 0 <= k < n && GivesUpAt(trace, k)
  {
    if n > 0 {
      HaltedIffGaveUp(trace, n - 1);
      HaltsAt(trace, n - 1);
    }
  }

  // ---- the pause ----------------------------------------------------------------------------------------

  function Pow2(n: nat): (p: nat)
    ensures p >= 1
  {
    if n == 0 then 1 else 2 * Pow2(n - 1)
  }

  function Pause(attempts: nat): nat {
    var doubled := RETRY_PAUSE * Pow2(if attempts == 0 then 0 else if attempts > 9 then 8 else attempts - 1);
    if doubled > MAX_REBUILD_PAUSE then MAX_REBUILD_PAUSE else doubled
  }

  lemma {:induction false} Pow2Rises(a: nat, b: nat)
    requires a <= b
    ensures Pow2(a) <= Pow2(b)
  {
    if a < b { Pow2Rises(a, b - 1); }
  }

  /** It never shrinks as refusals mount, and stays between half a second and eight seconds. */
  lemma PauseGrows(a: nat, b: nat)
    requires a <= b
    ensures 500 <= Pause(a) <= Pause(b) <= 8_000
    ensures a >= 5 ==> Pause(a) == 8_000
  {
    Pow2Rises(if a == 0 then 0 else if a > 9 then 8 else a - 1, if b == 0 then 0 else if b > 9 then 8 else b - 1);
    if a >= 5 { Pow2Rises(4, if a > 9 then 8 else a - 1); }
    assert Pow2(4) == 16;
  }

  /** It doubles with each refusal up to there. */
  lemma PauseDoubles(a: nat)
    requires 1 <= a <= 4
    ensures Pause(0) == Pause(1) == 500 && Pause(a + 1) == 2 * Pause(a)
  {
    assert Pow2(0) == 1 && Pow2(1) == 2 && Pow2(2) == 4 && Pow2(3) == 8;
    assert Pow2(4) == 16;
  }
}
