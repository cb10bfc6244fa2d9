/** Any number of instances over one store, one lease and one clock, for one cell: who may advance it,
    on what tip, and that none of them ever spends what another has spent. */
module LeaseProtocol {
  import opened Wrappers
  import opened History
  import opened Derivation
  import opened CrashSafety

  /** Seconds an unrenewed lease survives. */
  const TTL: nat := 30

  /** Where an instance's worker is inside one transition, which outlives a change of holder. */
  datatype Flight = Grounded | Attempting(from: Chain) | Signing(x: Spend) | Recording(x: Spend)

  /** A position read from the store and not yet installed. */
  datatype Reading = Reading(tip: Chain, halted: bool)

  datatype Instance = Instance(
    leader: bool, needsRederive: bool, read: Option<Reading>,
    flight: Flight, tip: Chain, halted: bool)

  datatype Lease = Lease(owner: nat, expires: nat)

  datatype World = World(rows: CellRows, signed: set<Spend>, now: nat, lease: Option<Lease>, instances: seq<Instance>)

  predicate Holds(w: World, i: nat) {
    w.lease.Some? && w.lease.value.owner == i
  }

  /** The lease row is taken over by its owner, or once it has expired, or when there is none. */
  predicate MayTake(w: World, i: nat) {
    w.lease.None? || w.lease.value.owner == i || w.lease.value.expires < w.now
  }

  // ---- steps of the lease ---------------------------------------------------------------------------

  ghost predicate TimePasses(w: World, v: World) {
    w.now <= v.now && v == w.(now := v.now)
  }

  /** Gaining leadership orders a fresh derivation; keeping it does not. */
  ghost predicate Acquire(w: World, v: World, i: nat) {
    && i < |w.instances| && w.instances[i].read.None? && MayTake(w, i)
    && var me := w.instances[i];
       v == w.(lease := Some(Lease(i, w.now + TTL)),
               instances := w.instances[i := me.(leader := true, needsRederive := me.needsRederive || !me.leader)])
  }

  /** Who may lead and for how long: an instance not in the middle of a derivation gets the lease exactly when
      nobody else's is still running, for thirty seconds from now; unless it was leading already it derives
      afresh first; and nothing else changes hands. */
  lemma AcquiresExactly(w: World, i: nat)
    requires i < |w.instances| && w.instances[i].read.None?
    ensures (exists v :: Acquire(w, v, i)) <==> w.lease.None? || w.lease.value.owner == i || w.now > w.lease.value.expires
    ensures forall v :: Acquire(w, v, i) ==>
              && v.lease == Some(Lease(i, w.now + 30)) && v.instances[i].leader
              && (v.instances[i].needsRederive <==> w.instances[i].needsRederive || !w.instances[i].leader)
              && v.rows == w.rows && v.signed == w.signed && v.now == w.now && |v.instances| == |w.instances|
              && forall j :: 0 <= j < |w.instances| && j != i ==> v.instances[j] == w.instances[j]
  {
    var me := w.instances[i];
    var v := w.(lease := Some(Lease(i, w.now + TTL)),
                instances := w.instances[i := me.(leader := true, needsRederive := me.needsRederive || !me.leader)]);
    assert MayTake(w, i) ==> Acquire(w, v, i);
  }

  /** The lease is refused, or the store cannot be reached, whether or not the row was renewed. */
  ghost predicate LoseLeadership(w: World, v: World, i: nat) {
    && i < |w.instances| && w.instances[i].read.None?
    && (v.lease == w.lease || (MayTake(w, i) && v.lease == Some(Lease(i, w.now + TTL))))
    && v == w.(lease := v.lease, instances := w.instances[i := w.instances[i].(leader := false)])
  }

  ghost predicate ReleaseLease(w: World, v: World, i: nat) {
    Holds(w, i) && v == w.(lease := None)
  }

  /** Derivation reads the cell's rows at one moment and installs what it found at a later one. */
  ghost predicate ReadRows(w: World, v: World, i: nat, genesis: TxID) {
    && i < |w.instances| && v.lease == w.lease
    && var me := w.instances[i];
       var f := Classify(w.rows, genesis);
       exists r: Reading ::
         && me.leader && me.needsRederive && me.read.None? && r.halted == f.halted
         && (f.claim.Some? ==> IsClaimed(w.signed, genesis, f.claim.value, r.tip))
         && v == w.(instances := w.instances[i := me.(read := Some(r))])
  }

  ghost predicate IsClaimed(signed: set<Spend>, genesis: TxID, claim: Claim, chain: Chain) {
    KnownChain(signed, genesis, chain) && |chain| == claim.generation + 1 && chain[|chain| - 1] == claim.txid
  }

  ghost predicate Install(w: World, v: World, i: nat) {
    && i < |w.instances| && w.instances[i].read.Some?
    && var me := w.instances[i];
       v == w.(instances := w.instances[i :=
         me.(tip := me.read.value.tip, halted := me.read.value.halted, needsRederive := false, read := None)])
  }

  /** A process dies and comes back with a guess at its tip, which is worth nothing until it leads. */
  ghost predicate Restart(w: World, v: World, i: nat) {
    && i < |w.instances|
    && exists tip: Chain, halted: bool ::
         v == w.(instances := w.instances[i := Instance(false, false, None, Grounded, tip, halted)])
  }

  // ---- steps of the worker --------------------------------------------------------------------------

  function WithFlight(w: World, i: nat, flight: Flight, rows: CellRows): World
    requires i < |w.instances|
  {
    w.(rows := rows, instances := w.instances[i := w.instances[i].(flight := flight)])
  }

  /** An instance goes by its own flag, which may be out of date. */
  predicate MayAdvance(w: World, i: nat) {
    && i < |w.instances|
    && var me := w.instances[i];
       me.leader && !me.needsRederive && me.flight == Grounded && !me.halted
  }

  const ATTEMPT: Record := Record("", Status.Attempting, "")

  ghost predicate WriteAttempt(w: World, v: World, i: nat) {
    && MayAdvance(w, i)
    && var me := w.instances[i];
       v == WithFlight(w, i, Flight.Attempting(me.tip), w.rows[|me.tip| := ATTEMPT])
  }

  ghost predicate NotBroadcast(w: World, v: World, i: nat) {
    && i < |w.instances| && w.instances[i].flight.Attempting?
    && (|| v == WithFlight(w, i, Grounded, w.rows)
        || v == WithFlight(w, i, Grounded, WithoutAttempt(w.rows, |w.instances[i].flight.from|)))
  }

  /** Signing that fails, with nothing having left the wallet, records a failure with no txid. */
  ghost predicate SignFails(w: World, v: World, i: nat) {
    && i < |w.instances| && w.instances[i].flight.Attempting?
    && exists err :: v == WithFlight(w, i, Grounded, w.rows[|w.instances[i].flight.from| := Record("", Failed, err)])
  }

  /** Signing may come at any time after the attempt, whoever leads by then. */
  ghost predicate Sign(w: World, v: World, i: nat, genesis: TxID) {
    && i < |w.instances| && w.instances[i].flight.Attempting?
    && exists x :: && NewSpend(w.signed, genesis, x) && x.ancestors == w.instances[i].flight.from
                   && v == WithFlight(w, i, Signing(x), w.rows).(signed := w.signed + {x})
  }

  ghost predicate NewSpend(signed: set<Spend>, genesis: TxID, x: Spend) {
    x.id != "" && x.id != genesis && forall y :: y in signed ==> y.id != x.id
  }

  ghost predicate MoveTip(w: World, v: World, i: nat) {
    && i < |w.instances| && w.instances[i].flight.Signing?
    && var me := w.instances[i];
       v == w.(instances := w.instances[i := me.(tip := me.flight.x.Chain(), flight := Recording(me.flight.x))])
  }

  ghost predicate WriteBroadcast(w: World, v: World, i: nat) {
    && i < |w.instances| && w.instances[i].flight.Recording?
    && var x := w.instances[i].flight.x;
       v == WithFlight(w, i, Grounded, w.rows[x.Generation() := Record(x.id, Broadcast, "")])
  }

  /** A row that could not be written, or a refusal: the cell stops where it is. */
  ghost predicate Stop(w: World, v: World, i: nat) {
    && i < |w.instances|
    && v == w.(instances := w.instances[i := w.instances[i].(flight := Grounded, halted := true)])
  }

  /** Any status, for any named transaction, from whichever instance heard of it. */
  ghost predicate StatusWritten(w: World, v: World) {
    exists id, status, err ::
      status != Status.Attempting && id != "" && v == w.(rows := Marked(w.rows, id, status, err))
  }

  ghost predicate InstanceStep(w: World, v: World, i: nat, genesis: TxID) {
    || Acquire(w, v, i) || LoseLeadership(w, v, i) || ReleaseLease(w, v, i)
    || ReadRows(w, v, i, genesis) || Install(w, v, i) || Restart(w, v, i)
    || WriteAttempt(w, v, i) || NotBroadcast(w, v, i) || SignFails(w, v, i) || Sign(w, v, i, genesis)
    || MoveTip(w, v, i) || WriteBroadcast(w, v, i) || Stop(w, v, i)
  }

  ghost predicate Step(w: World, v: World, genesis: TxID) {
    TimePasses(w, v) || StatusWritten(w, v) || exists i: nat :: InstanceStep(w, v, i, genesis)
  }

  ghost predicate TipSpent(w: World, tip: Chain) {
    exists x :: x in w.signed && x.ancestors == tip
  }

  /** An instance that would act on a tip something signed has spent, or something in flight is about to. */
  ghost predicate Overtaken(w: World, i: nat) {
    && MayAdvance(w, i)
    && (TipSpent(w, w.instances[i].tip) || exists k :: k != i && Attempts(w, k, w.instances[i].tip))
  }

  predicate Attempts(w: World, k: nat, from: Chain) {
    k < |w.instances| && w.instances[k].flight == Flight.Attempting(from)
  }

  /** Another instance holds the lease and has a tip to act on, now or once it installs what it read. */
  predicate MayAct(w: World, i: nat) {
    && i < |w.instances| && Holds(w, i) && w.instances[i].leader
    && var me := w.instances[i];
       (!me.needsRederive && !me.halted) || (me.needsRederive && me.read.Some? && !me.read.value.halted)
  }

  ghost predicate Contested(w: World, i: nat) {
    Overtaken(w, i) || exists k :: k != i && MayAct(w, k)
  }

  /** What is asked of a leader whose lease row no longer names it: if it renews, that it was not overtaken
      meanwhile; if it takes a turn before it renews, that nobody else has a tip to act on either. Nothing
      is asked of one whose lease row is its own. */
  ghost predicate NotOvertaken(w: World, v: World) {
    forall i: nat :: LapseIsHarmless(w, v, i)
  }

  ghost predicate LapseIsHarmless(w: World, v: World, i: nat) {
    !Holds(w, i) ==> (Acquire(w, v, i) ==> !Overtaken(w, i)) && (WriteAttempt(w, v, i) ==> !Contested(w, i))
  }

  /** The store starts with the cell's genesis row, or without one if the process died while seeding it. */
  ghost predicate Init(w: World, genesis: TxID) {
    && (w.rows == map[] || w.rows == Seeded(genesis))
    && w == World(w.rows, {}, w.now, None, w.instances)
    && forall i :: 0 <= i < |w.instances| ==> !w.instances[i].leader && w.instances[i].read.None? && w.instances[i].flight == Grounded
  }

  ghost predicate IsRun(run: seq<World>, genesis: TxID) {
    && genesis != "" && run != [] && Init(run[0], genesis)
    && forall i :: 0 < i < |run| ==> StepAt(run, i, genesis)
  }

  ghost predicate StepAt(run: seq<World>, i: nat, genesis: TxID)
    requires 0 < i < |run|
  {
    Step(run[i - 1], run[i], genesis)
  }

  ghost predicate NeverOvertaken(run: seq<World>) {
    forall i :: 0 < i < |run| ==> NotOvertakenAt(run, i)
  }

  ghost predicate NotOvertakenAt(run: seq<World>, i: nat)
    requires 0 < i < |run|
  {
    NotOvertaken(run[i - 1], run[i])
  }

  // ---- what every step keeps ------------------------------------------------------------------------

  /** Every signature has an attempt at its generation, or a row that names it; and has it alone. */
  ghost predicate SignaturesHaveRows(rows: CellRows, signed: set<Spend>) {
    && (forall x :: x in signed ==> x.Generation() in rows && RowCovers(rows[x.Generation()], x))
    && (forall x, y :: x in signed && y in signed && x.Generation() == y.Generation() ==> x == y)
    && AttemptsAreUnnamed(rows)
  }

  predicate RowCovers(r: Record, x: Spend) {
    r == ATTEMPT || r.txid == x.id
  }

  /** Above n there is no row that names a transaction. */
  ghost predicate QuietAbove(rows: CellRows, n: int) {
    forall g :: g in rows && g > n ==> rows[g].txid == ""
  }

  /** tip can be spent: nothing signed is above it except what is named, and no row above it names anything. */
  ghost predicate Spendable(w: World, tip: Chain, except: set<Spend>) {
    && QuietAbove(w.rows, |tip| - 1)
    && (forall x :: x in w.signed && x !in except ==> x.Generation() <= |tip| - 1)
    && (forall x :: x in w.signed && x.Generation() == |tip| - 1 ==> x.Chain() == tip)
  }

  predicate AttemptAt(rows: CellRows, g: nat) {
    g in rows && rows[g] == ATTEMPT
  }

  predicate InFlight(w: World, i: nat) {
    i < |w.instances| && w.instances[i].flight != Grounded
  }

  /** A transition in flight has its attempt row, and the output it spends is its own to spend. */
  ghost predicate FlightHolds(w: World, genesis: TxID, i: nat) {
    InFlight(w, i) ==>
      match w.instances[i].flight
      case Grounded => true
      case Attempting(from) => KnownChain(w.signed, genesis, from) && AttemptAt(w.rows, |from|) && Spendable(w, from, {})
      case Signing(x) => x in w.signed && AttemptAt(w.rows, x.Generation()) && Spendable(w, x.ancestors, {x})
      case Recording(x) => x in w.signed && AttemptAt(w.rows, x.Generation()) && Spendable(w, x.ancestors, {x})
  }

  /** The tip a leader would act on: the one it runs on, or one it has read and will install. */
  predicate Ready(w: World, i: nat, tip: Chain) {
    && i < |w.instances| && w.instances[i].leader
    && var me := w.instances[i];
       || (!me.needsRederive && !me.halted && me.tip == tip)
       || (me.needsRederive && me.read == Some(Reading(tip, false)))
  }

  /** Whether or not it holds the lease, it is a tip whose transaction is known and, in flight, it is that
      very transition; and its row, once the instance has one to its name, is not an attempt. */
  ghost predicate Aligned(w: World, genesis: TxID, i: nat) {
    forall tip :: Ready(w, i, tip) ==>
      && KnownChain(w.signed, genesis, tip)
      && match w.instances[i].flight
         case Grounded => !AttemptAt(w.rows, |tip| - 1)
         case Attempting(from) => tip == from && !w.instances[i].needsRederive && !AttemptAt(w.rows, |tip| - 1)
         case Signing(x) => tip == x.ancestors && !w.instances[i].needsRederive
         case Recording(x) => tip == x.Chain() && !w.instances[i].needsRederive
  }

  /** And it may be spent, if the lease row is its own. */
  ghost predicate ClaimHolds(w: World, i: nat) {
    forall tip :: Ready(w, i, tip) && Holds(w, i) && w.instances[i].flight == Grounded ==> Spendable(w, tip, {})
  }

  /** While one instance has a transition in flight, no other has one, and no other may act. */
  ghost predicate Alone(w: World, i: nat, k: nat) {
    InFlight(w, i) && k != i ==> !InFlight(w, k) && !MayAct(w, k)
  }

  /** A reading is only ever held for a derivation that is due. */
  ghost predicate ReadsWhenDue(w: World, i: nat) {
    i < |w.instances| && w.instances[i].read.Some? ==> w.instances[i].leader && w.instances[i].needsRederive
  }

  ghost predicate Sound(w: World, genesis: TxID, i: nat) {
    FlightHolds(w, genesis, i) && Aligned(w, genesis, i) && ClaimHolds(w, i) && ReadsWhenDue(w, i)
  }

  /** Every row that names a transaction names genesis or one that was signed. */
  ghost predicate NamesAreSigned(rows: CellRows, signed: set<Spend>) {
    forall g :: g in rows && rows[g].txid != "" && g > 0 ==> SignedAt(signed, g)
  }

  ghost predicate SignedAt(signed: set<Spend>, g: nat) {
    exists x :: x in signed && x.Generation() == g
  }

  /** What holds of the rows and the signatures, whoever leads. */
  ghost predicate Durable(w: World, genesis: TxID) {
    Lineage(w.signed, genesis) && SignaturesHaveRows(w.rows, w.signed) && NamesAreSigned(w.rows, w.signed)
  }

  ghost predicate Inv(w: World, genesis: TxID) {
    && Durable(w, genesis)
    && (forall i: nat :: Sound(w, genesis, i))
    && (forall i: nat, k: nat :: Alone(w, i, k))
  }

  // ---- tips, flights and what is signed ---------------------------------------------------------------

  lemma {:induction false} SignedBelow(signed: set<Spend>, genesis: TxID, x: Spend, g: nat)
    requires Lineage(signed, genesis) && x in signed && 1 <= g <= x.Generation()
    ensures SignedAt(signed, g)
    decreases x.Generation()
  {
    if x.Generation() > g {
      assert HasParent(signed, genesis, x);
      var p :| p in signed && p.Chain() == x.ancestors;
      SignedBelow(signed, genesis, p, g);
    }
  }

  lemma SameLengthSameChain(w: World, genesis: TxID, a: Chain, b: Chain)
    requires SignaturesHaveRows(w.rows, w.signed) && |a| == |b|
    requires KnownChain(w.signed, genesis, a) && KnownChain(w.signed, genesis, b)
    ensures a == b
  {
    if |a| > 1 {
      var x :| x in w.signed && x.Chain() == a;
      var y :| y in w.signed && y.Chain() == b;
    }
  }

  /** Anything signed above a known tip means that something signed spends it. */
  lemma SpentFromAbove(w: World, genesis: TxID, tip: Chain, x: Spend)
    requires Durable(w, genesis) && KnownChain(w.signed, genesis, tip) && x in w.signed && x.Generation() >= |tip|
    ensures TipSpent(w, tip)
  {
    SignedBelow(w.signed, genesis, x, |tip|);
    var y :| y in w.signed && y.Generation() == |tip|;
    assert HasParent(w.signed, genesis, y);
    SameLengthSameChain(w, genesis, y.ancestors, tip);
  }

  lemma UnspentIsSpendable(w: World, genesis: TxID, tip: Chain)
    requires Durable(w, genesis) && KnownChain(w.signed, genesis, tip) && !TipSpent(w, tip)
    ensures Spendable(w, tip, {})
  {
    forall x | x in w.signed ensures x.Generation() <= |tip| - 1 {
      if x.Generation() >= |tip| { SpentFromAbove(w, genesis, tip, x); }
    }
    forall g | g in w.rows && g > |tip| - 1 ensures w.rows[g].txid == "" {
      assert !SignedAt(w.signed, g);
    }
    forall x | x in w.signed && x.Generation() == |tip| - 1 ensures x.Chain() == tip {
      KnownStill(w.signed, genesis, x);
      SameLengthSameChain(w, genesis, x.Chain(), tip);
    }
  }

  lemma LastIsSigned(signed: set<Spend>, genesis: TxID, chain: Chain)
    requires KnownChain(signed, genesis, chain)
    ensures |chain| > 1 ==> SignedAt(signed, |chain| - 1)
  {
    if |chain| > 1 {
      var y :| y in signed && y.Chain() == chain;
      assert y.Generation() == |chain| - 1;
    }
  }

  /** Two known tips that nothing above spends are one. */
  lemma SpendableOnce(w: World, genesis: TxID, tip: Chain, from: Chain)
    requires Durable(w, genesis) && KnownChain(w.signed, genesis, tip) && KnownChain(w.signed, genesis, from)
    requires !TipSpent(w, tip) && Spendable(w, from, {})
    ensures from == tip
  {
    UnspentIsSpendable(w, genesis, tip);
    LastIsSigned(w.signed, genesis, tip);
    LastIsSigned(w.signed, genesis, from);
    SameLengthSameChain(w, genesis, from, tip);
  }

  /** If nothing has spent a leader's tip, whatever another has in flight is about to. */
  lemma FlightIsOnTip(w: World, genesis: TxID, i: nat, k: nat)
    requires Inv(w, genesis) && MayAdvance(w, i) && !TipSpent(w, w.instances[i].tip) && InFlight(w, k)
    ensures Attempts(w, k, w.instances[i].tip)
  {
    var tip := w.instances[i].tip;
    assert Sound(w, genesis, i) && Sound(w, genesis, k) && Ready(w, i, tip);
    match w.instances[k].flight
    case Attempting(from) => SpendableOnce(w, genesis, tip, from);
    case Signing(x) => SignedFlightIsBehind(w, genesis, tip, x);
    case Recording(x) => SignedFlightIsBehind(w, genesis, tip, x);
  }

  lemma SignedFlightIsBehind(w: World, genesis: TxID, tip: Chain, x: Spend)
    requires Durable(w, genesis) && KnownChain(w.signed, genesis, tip) && !TipSpent(w, tip) && x in w.signed
    requires AttemptAt(w.rows, x.Generation()) && Spendable(w, x.ancestors, {x})
    ensures AttemptAt(w.rows, |tip| - 1)
  {
    if x.Generation() >= |tip| { SpentFromAbove(w, genesis, tip, x); }
    LastIsSigned(w.signed, genesis, tip);
  }

  // ---- steps that only take permission away -----------------------------------------------------------

  ghost predicate NoMore(w: World, v: World, k: nat) {
    && ReadsWhenDue(v, k)
    && (InFlight(v, k) ==> InFlight(w, k) && v.instances[k].flight == w.instances[k].flight)
    && (forall tip :: Ready(v, k, tip) ==> Ready(w, k, tip) && v.instances[k].flight == w.instances[k].flight)
    && (forall tip :: Ready(v, k, tip) && InFlight(w, k) ==> v.instances[k].needsRederive == w.instances[k].needsRederive)
  }

  lemma NoMoreSound(w: World, v: World, genesis: TxID, k: nat)
    requires Sound(w, genesis, k) && NoMore(w, v, k) && v.rows == w.rows && v.signed == w.signed && |v.instances| == |w.instances|
    requires forall tip :: Ready(v, k, tip) && Holds(v, k) && v.instances[k].flight == Grounded ==> Holds(w, k) || Spendable(w, tip, {})
    ensures Sound(v, genesis, k)
  {
    assert forall tip, e :: Spendable(v, tip, e) <==> Spendable(w, tip, e);
  }

  ghost predicate HeldBefore(w: World, v: World, k: nat) {
    forall tip :: Ready(v, k, tip) && Holds(v, k) ==> Holds(w, k)
  }

  lemma NoMoreKeeps(w: World, v: World, genesis: TxID)
    requires Inv(w, genesis) && v.rows == w.rows && v.signed == w.signed && |v.instances| == |w.instances|
    requires forall k: nat :: NoMore(w, v, k) && HeldBefore(w, v, k) && (MayAct(v, k) ==> MayAct(w, k))
    ensures Inv(v, genesis)
  {
    forall k: nat ensures Sound(v, genesis, k) {
      assert Sound(w, genesis, k) && NoMore(w, v, k) && HeldBefore(w, v, k);
      NoMoreSound(w, v, genesis, k);
    }
    forall i: nat, k: nat ensures Alone(v, i, k) {
      assert Alone(w, i, k) && NoMore(w, v, i) && NoMore(w, v, k);
    }
  }

  /** A leader that renews a lapsed lease may act again exactly as before, and nobody was in its way. */
  lemma AcquireKeeps(w: World, v: World, i: nat, genesis: TxID)
    requires Inv(w, genesis) && Acquire(w, v, i) && LapseIsHarmless(w, v, i)
    ensures Inv(v, genesis)
  {
    forall k: nat ensures Sound(v, genesis, k) {
      assert Sound(w, genesis, k);
      if MayAdvance(w, k) && k == i && !Holds(w, i) { UnspentIsSpendable(w, genesis, w.instances[i].tip); }
      NoMoreSound(w, v, genesis, k);
    }
    forall j: nat, k: nat ensures Alone(v, j, k) {
      assert Alone(w, j, k);
      if InFlight(w, j) && k == i && MayAdvance(w, i) && !Holds(w, i) { FlightIsOnTip(w, genesis, i, j); }
    }
  }

  lemma PassiveKeeps(w: World, v: World, i: nat, genesis: TxID)
    requires Inv(w, genesis)
    requires LoseLeadership(w, v, i) || ReleaseLease(w, v, i) || Restart(w, v, i) || TimePasses(w, v)
    ensures Inv(v, genesis)
  {
    forall k: nat ensures NoMore(w, v, k) && HeldBefore(w, v, k) && (MayAct(v, k) ==> MayAct(w, k)) {
      assert Sound(w, genesis, k);
    }
    NoMoreKeeps(w, v, genesis);
  }

  /** A due derivation can hold an unhalted reading only while nothing of its own is in flight. */
  lemma InstallKeeps(w: World, v: World, i: nat, genesis: TxID)
    requires Inv(w, genesis) && (Install(w, v, i) || Stop(w, v, i))
    ensures Inv(v, genesis)
  {
    forall k: nat ensures NoMore(w, v, k) && HeldBefore(w, v, k) && (MayAct(v, k) ==> MayAct(w, k)) {
      assert Sound(w, genesis, k);
      if k < |w.instances| && w.instances[k].read.Some? {
        assert Ready(w, k, w.instances[k].read.value.tip) <==> !w.instances[k].read.value.halted;
      }
    }
    NoMoreKeeps(w, v, genesis);
  }

  // ---- reading the rows -----------------------------------------------------------------------------

  /** An unhalted finding sits above everything any instance has in flight, and nothing spends it. */
  lemma UnhaltedIsSpendable(w: World, genesis: TxID, tip: Chain)
    requires Inv(w, genesis) && !Classify(w.rows, genesis).halted
    requires Classify(w.rows, genesis).claim.Some? && IsClaimed(w.signed, genesis, Classify(w.rows, genesis).claim.value, tip)
    ensures Spendable(w, tip, {}) && forall k: nat :: !InFlight(w, k)
  {
    var f := Classify(w.rows, genesis);
    var base := f.claim.value.generation;
    NothingAboveUnhalted(w.rows, genesis);
    forall x | x in w.signed ensures x.Generation() <= base {
      assert RowCovers(w.rows[x.Generation()], x) && x.id != "";
    }
    forall x | x in w.signed && x.Generation() == base ensures x.Chain() == tip {
      assert RowCovers(w.rows[x.Generation()], x);
      assert x.Chain()[|x.ancestors|] == x.id;
      KnownStill(w.signed, genesis, x);
      SameNameSameChain(w.signed, genesis, x.Chain(), tip);
    }
    forall k: nat ensures !InFlight(w, k) {
      assert Sound(w, genesis, k);
    }
  }

  lemma KnownStill(signed: set<Spend>, genesis: TxID, x: Spend)
    requires x in signed
    ensures KnownChain(signed, genesis, x.Chain())
  {}

  lemma NothingAboveUnhalted(rows: CellRows, genesis: TxID)
    requires !Classify(rows, genesis).halted && AttemptsAreUnnamed(rows)
    ensures Classify(rows, genesis).claim.Some?
    ensures var claim := Classify(rows, genesis).claim.value;
            && QuietAbove(rows, claim.generation)
            && (forall g :: g in rows && rows[g].status == Status.Attempting ==> g <= claim.generation)
            && (rows != map[] ==> claim.generation in rows && Settled(rows[claim.generation])
                                  && rows[claim.generation].txid == claim.txid)
  {
    var f := Classify(rows, genesis);
    if rows != map[] {
      var base: nat :| IsBase(rows, base) && IsFindingAbove(rows, base, f);
      forall g | g in rows && g > base ensures rows[g].txid == "" && rows[g].status != Status.Attempting {
        assert g !in Above(rows, base, Failed) && g !in Above(rows, base, Status.Attempting);
        assert !Settled(rows[g]);
      }
    }
  }

  /** Nothing is in flight, so an unhalted reading is as good as the tip it names. */
  lemma ReadingIsSound(w: World, v: World, i: nat, r: Reading, genesis: TxID, k: nat)
    requires Sound(w, genesis, k) && !InFlight(w, k) && i < |w.instances|
    requires w.instances[i].leader && w.instances[i].needsRederive
    requires v == w.(instances := w.instances[i := w.instances[i].(read := Some(r))])
    requires KnownChain(w.signed, genesis, r.tip) && !AttemptAt(w.rows, |r.tip| - 1) && Spendable(w, r.tip, {})
    ensures Sound(v, genesis, k) && !InFlight(v, k)
  {
    assert forall tip :: Ready(v, k, tip) ==> Ready(w, k, tip) || tip == r.tip;
    assert forall tip :: Spendable(v, tip, {}) <==> Spendable(w, tip, {});
  }

  lemma ReadRowsKeeps(w: World, v: World, i: nat, genesis: TxID)
    requires Inv(w, genesis) && ReadRows(w, v, i, genesis)
    ensures Inv(v, genesis)
  {
    var r := v.instances[i].read.value;
    if !r.halted {
      NothingAboveUnhalted(w.rows, genesis);
      UnhaltedIsSpendable(w, genesis, r.tip);
      assert !AttemptAt(w.rows, |r.tip| - 1);
      forall k: nat ensures Sound(v, genesis, k) && !InFlight(v, k) {
        assert Sound(w, genesis, k) && !InFlight(w, k);
        ReadingIsSound(w, v, i, r, genesis, k);
      }
    } else {
      forall k: nat ensures NoMore(w, v, k) && HeldBefore(w, v, k) && (MayAct(v, k) ==> MayAct(w, k)) {
        assert Sound(w, genesis, k);
      }
      NoMoreKeeps(w, v, genesis);
    }
  }

  // ---- steps of the one worker that is in flight --------------------------------------------------------

  /** No other instance has anything in flight, and no other may act. */
  ghost predicate OthersIdle(w: World, i: nat) {
    forall k: nat :: k != i ==> !InFlight(w, k) && !MayAct(w, k)
  }

  lemma FlyingAlone(w: World, genesis: TxID, i: nat)
    requires Inv(w, genesis) && InFlight(w, i)
    ensures OthersIdle(w, i)
  {
    forall k: nat | k != i ensures !InFlight(w, k) && !MayAct(w, k) { assert Alone(w, i, k); }
  }

  /** What an idle instance might still act on, once it may, is left as it was. */
  ghost predicate LeavesTip(w: World, v: World, genesis: TxID, k: nat) {
    forall tip :: Ready(w, k, tip) ==> KnownChain(v.signed, genesis, tip) && !AttemptAt(v.rows, |tip| - 1)
  }

  /** So only the one that moves has to be looked at again. */
  lemma OnlyOneMoves(w: World, v: World, i: nat, genesis: TxID)
    requires OthersIdle(w, i) && i < |w.instances| == |v.instances| && v.lease == w.lease
    requires forall k: nat :: k != i ==> Sound(w, genesis, k) && LeavesTip(w, v, genesis, k)
    requires forall k :: 0 <= k < |w.instances| && k != i ==> v.instances[k] == w.instances[k]
    requires Durable(v, genesis) && Sound(v, genesis, i)
    ensures Inv(v, genesis)
  {
    forall k: nat ensures Sound(v, genesis, k) {
      if k != i {
        assert Sound(w, genesis, k) && LeavesTip(w, v, genesis, k);
        IdleStaysIdle(w, v, k);
      }
    }
    forall j: nat, k: nat ensures Alone(v, j, k) {
      if j != i { IdleStaysIdle(w, v, j); }
      if k != i { IdleStaysIdle(w, v, k); }
    }
  }

  lemma IdleStaysIdle(w: World, v: World, k: nat)
    requires |w.instances| == |v.instances| && v.lease == w.lease && !InFlight(w, k) && !MayAct(w, k)
    requires k < |w.instances| ==> v.instances[k] == w.instances[k]
    ensures !InFlight(v, k) && !MayAct(v, k)
    ensures forall tip :: Ready(v, k, tip) ==> Ready(w, k, tip) && !Holds(v, k)
  {}

  /** Attempts are only taken away, and signatures only added. */
  lemma TipsAreLeft(w: World, v: World, genesis: TxID, i: nat)
    requires Inv(w, genesis) && OthersIdle(w, i) && w.signed <= v.signed
    requires forall g :: AttemptAt(v.rows, g) ==> AttemptAt(w.rows, g)
    ensures forall k: nat :: k != i ==> Sound(w, genesis, k) && LeavesTip(w, v, genesis, k)
  {
    forall k: nat | k != i ensures Sound(w, genesis, k) && LeavesTip(w, v, genesis, k) {
      assert Sound(w, genesis, k) && !InFlight(w, k);
      forall tip | Ready(w, k, tip) ensures KnownChain(v.signed, genesis, tip) {
        KnownStays(w.signed, v.signed, genesis, tip);
      }
    }
  }

  lemma TurnIsClear(w: World, v: World, i: nat, genesis: TxID)
    requires Inv(w, genesis) && WriteAttempt(w, v, i) && LapseIsHarmless(w, v, i)
    ensures OthersIdle(w, i) && Spendable(w, w.instances[i].tip, {}) && KnownChain(w.signed, genesis, w.instances[i].tip)
    ensures !AttemptAt(w.rows, |w.instances[i].tip| - 1)
  {
    var tip := w.instances[i].tip;
    assert Sound(w, genesis, i) && Ready(w, i, tip);
    if !Holds(w, i) { UnspentIsSpendable(w, genesis, tip); }
    forall k: nat | k != i ensures !InFlight(w, k) && !MayAct(w, k) {
      assert Alone(w, k, i);
      if InFlight(w, k) && !Holds(w, i) { FlightIsOnTip(w, genesis, i, k); }
    }
  }

  lemma WriteAttemptKeeps(w: World, v: World, i: nat, genesis: TxID)
    requires Inv(w, genesis) && WriteAttempt(w, v, i) && LapseIsHarmless(w, v, i)
    ensures Inv(v, genesis)
  {
    var mine := w.instances[i].tip;
    assert Sound(w, genesis, i);
    TurnIsClear(w, v, i, genesis);
    forall k: nat | k != i ensures Sound(w, genesis, k) && LeavesTip(w, v, genesis, k) {
      assert Sound(w, genesis, k) && !InFlight(w, k);
      forall tip | Ready(w, k, tip) ensures |tip| - 1 != |mine| {
        LastIsSigned(w.signed, genesis, tip);
      }
    }
    OnlyOneMoves(w, v, i, genesis);
  }

  lemma NotBroadcastKeeps(w: World, v: World, i: nat, genesis: TxID)
    requires Inv(w, genesis) && NotBroadcast(w, v, i)
    ensures Inv(v, genesis)
  {
    assert Sound(w, genesis, i);
    FlyingAlone(w, genesis, i);
    TipsAreLeft(w, v, genesis, i);
    assert forall tip :: Ready(v, i, tip) ==> Ready(w, i, tip);
    OnlyOneMoves(w, v, i, genesis);
  }

  lemma SignFailsKeeps(w: World, v: World, i: nat, genesis: TxID)
    requires Inv(w, genesis) && SignFails(w, v, i)
    ensures Inv(v, genesis)
  {
    assert Sound(w, genesis, i);
    FlyingAlone(w, genesis, i);
    TipsAreLeft(w, v, genesis, i);
    assert forall tip :: Ready(v, i, tip) ==> Ready(w, i, tip);
    OnlyOneMoves(w, v, i, genesis);
  }

  lemma SignedIsDurable(w: World, v: World, genesis: TxID, x: Spend)
    requires Durable(w, genesis) && KnownChain(w.signed, genesis, x.ancestors) && NewSpend(w.signed, genesis, x)
    requires AttemptAt(w.rows, x.Generation()) && Spendable(w, x.ancestors, {})
    requires v.rows == w.rows && v.signed == w.signed + {x}
    ensures Durable(v, genesis)
  {
    forall y | y in v.signed ensures HasParent(v.signed, genesis, y) {
      assert y in w.signed ==> HasParent(w.signed, genesis, y);
      KnownStays(w.signed, v.signed, genesis, y.ancestors);
    }
    forall g | g in v.rows && v.rows[g].txid != "" && g > 0 ensures SignedAt(v.signed, g) {
      assert SignedAt(w.signed, g);
    }
  }

  lemma SignKeeps(w: World, v: World, i: nat, genesis: TxID)
    requires Inv(w, genesis) && Sign(w, v, i, genesis)
    ensures Inv(v, genesis)
  {
    assert Sound(w, genesis, i);
    var x := v.instances[i].flight.x;
    SignedIsDurable(w, v, genesis, x);
    FlyingAlone(w, genesis, i);
    TipsAreLeft(w, v, genesis, i);
    KnownStays(w.signed, v.signed, genesis, x.ancestors);
    assert forall tip :: Ready(v, i, tip) ==> Ready(w, i, tip);
    OnlyOneMoves(w, v, i, genesis);
  }

  lemma MoveTipKeeps(w: World, v: World, i: nat, genesis: TxID)
    requires Inv(w, genesis) && MoveTip(w, v, i)
    ensures Inv(v, genesis)
  {
    assert Sound(w, genesis, i);
    FlyingAlone(w, genesis, i);
    TipsAreLeft(w, v, genesis, i);
    forall tip | Ready(v, i, tip) ensures tip == w.instances[i].flight.x.Chain() && !v.instances[i].needsRederive {
      assert Ready(w, i, tip) || Ready(w, i, w.instances[i].tip);
    }
    KnownStill(w.signed, genesis, w.instances[i].flight.x);
    OnlyOneMoves(w, v, i, genesis);
  }

  lemma RecordedIsSpendable(w: World, v: World, x: Spend)
    requires Spendable(w, x.ancestors, {x}) && x in w.signed && v.signed == w.signed
    requires v.rows == w.rows[x.Generation() := Record(x.id, Broadcast, "")]
    ensures Spendable(v, x.Chain(), {})
  {
    assert x.Chain()[..|x.ancestors|] == x.ancestors;
  }

  lemma WriteBroadcastKeeps(w: World, v: World, i: nat, genesis: TxID)
    requires Inv(w, genesis) && WriteBroadcast(w, v, i)
    ensures Inv(v, genesis)
  {
    var x := w.instances[i].flight.x;
    assert Sound(w, genesis, i);
    FlyingAlone(w, genesis, i);
    TipsAreLeft(w, v, genesis, i);
    RecordedIsSpendable(w, v, x);
    assert SignedAt(v.signed, x.Generation());
    assert forall tip :: Ready(v, i, tip) ==> Ready(w, i, tip);
    OnlyOneMoves(w, v, i, genesis);
  }

  lemma StatusSound(w: World, v: World, genesis: TxID, k: nat)
    requires Sound(w, genesis, k) && v == w.(rows := v.rows)
    requires forall g :: g in v.rows <==> g in w.rows
    requires forall g :: g in w.rows ==> v.rows[g].txid == w.rows[g].txid
    requires forall g :: g in w.rows && w.rows[g].txid == "" ==> v.rows[g] == w.rows[g]
    ensures Sound(v, genesis, k)
  {
    assert forall tip, e :: Spendable(w, tip, e) ==> Spendable(v, tip, e);
    assert forall g :: AttemptAt(w.rows, g) <==> AttemptAt(v.rows, g);
    assert forall tip :: Ready(v, k, tip) <==> Ready(w, k, tip);
  }

  lemma StatusKeeps(w: World, v: World, genesis: TxID)
    requires Inv(w, genesis) && StatusWritten(w, v)
    ensures Inv(v, genesis)
  {
    var id, status, err :| status != Status.Attempting && id != "" && v == w.(rows := Marked(w.rows, id, status, err));
    forall k: nat ensures Sound(v, genesis, k) {
      assert Sound(w, genesis, k);
      StatusSound(w, v, genesis, k);
    }
    forall i: nat, k: nat ensures Alone(v, i, k) { assert Alone(w, i, k); }
  }

  lemma StepKeeps(w: World, v: World, genesis: TxID)
    requires Inv(w, genesis) && Step(w, v, genesis) && NotOvertaken(w, v)
    ensures Inv(v, genesis)
  {
    if TimePasses(w, v) { PassiveKeeps(w, v, 0, genesis); }
    else if StatusWritten(w, v) { StatusKeeps(w, v, genesis); }
    else {
      var i: nat :| InstanceStep(w, v, i, genesis);
      assert LapseIsHarmless(w, v, i);
      if Acquire(w, v, i) { AcquireKeeps(w, v, i, genesis); }
      else if LoseLeadership(w, v, i) || ReleaseLease(w, v, i) || Restart(w, v, i) { PassiveKeeps(w, v, i, genesis); }
      else if Install(w, v, i) || Stop(w, v, i) { InstallKeeps(w, v, i, genesis); }
      else if ReadRows(w, v, i, genesis) { ReadRowsKeeps(w, v, i, genesis); }
      else if WriteAttempt(w, v, i) { WriteAttemptKeeps(w, v, i, genesis); }
      else if NotBroadcast(w, v, i) { NotBroadcastKeeps(w, v, i, genesis); }
      else if SignFails(w, v, i) { SignFailsKeeps(w, v, i, genesis); }
      else if Sign(w, v, i, genesis) { SignKeeps(w, v, i, genesis); }
      else if MoveTip(w, v, i) { MoveTipKeeps(w, v, i, genesis); }
      else { WriteBroadcastKeeps(w, v, i, genesis); }
    }
  }

  lemma {:induction false} RunKeeps(run: seq<World>, genesis: TxID, i: nat)
    requires IsRun(run, genesis) && NeverOvertaken(run) && i < |run|
    ensures Inv(run[i], genesis)
  {
    if i > 0 {
      RunKeeps(run, genesis, i - 1);
      assert StepAt(run, i, genesis) && NotOvertakenAt(run, i);
      StepKeeps(run[i - 1], run[i], genesis);
    }
  }

  /** Handover safety: whatever the instances, the clock and the network do, no output is ever spent by
      two signatures, as long as no leader comes back from a lapse it did not notice to a tip it has lost. */
  lemma NoOutputIsSpentTwice(run: seq<World>, genesis: TxID, i: nat, x: Spend, y: Spend)
    requires IsRun(run, genesis) && NeverOvertaken(run) && i < |run|
    requires x in run[i].signed && y in run[i].signed && Spent(x) == Spent(y)
    ensures x == y
  {
    RunKeeps(run, genesis, i);
    assert HasParent(run[i].signed, genesis, x) && HasParent(run[i].signed, genesis, y);
    SameNameSameChain(run[i].signed, genesis, x.ancestors, y.ancestors);
  }

  // ---- the same in an instance's own terms --------------------------------------------------------------

  /** When the lease an instance last obtained runs out, by its own account: thirty seconds after it took or
      renewed it, until it loses it, gives it up or dies. */
  ghost function Obtained(run: seq<World>, i: nat, n: nat): Option<nat>
    requires n < |run|
  {
    if n == 0 then None
    else if Acquire(run[n - 1], run[n], i) then Some(run[n - 1].now + 30)
    else if LoseLeadership(run[n - 1], run[n], i) || ReleaseLease(run[n - 1], run[n], i) || Restart(run[n - 1], run[n], i) then None
    else Obtained(run, i, n - 1)
  }

  ghost predicate InTime(run: seq<World>, i: nat, n: nat)
    requires n < |run|
  {
    Obtained(run, i, n).Some? && run[n].now <= Obtained(run, i, n).value
  }

  /** Every renewal by a leader, and every turn, comes before the lease that instance last obtained runs out. */
  ghost predicate Timely(run: seq<World>) {
    forall n, i: nat :: 0 < n < |run| ==> TimelyAt(run, n, i)
  }

  ghost predicate TimelyAt(run: seq<World>, n: nat, i: nat)
    requires 0 < n < |run|
  {
    var w, v := run[n - 1], run[n];
    (Acquire(w, v, i) && w.instances[i].leader) || WriteAttempt(w, v, i) ==> InTime(run, i, n - 1)
  }

  /** Until then the lease row cannot be anybody else's. */
  lemma {:induction false} InTimeHolds(run: seq<World>, genesis: TxID, i: nat, n: nat)
    requires IsRun(run, genesis) && n < |run| && InTime(run, i, n)
    ensures Holds(run[n], i) && run[n].lease.value.expires >= Obtained(run, i, n).value
  {
    var w, v := run[n - 1], run[n];
    assert StepAt(run, n, genesis);
    if !Acquire(w, v, i) {
      ClockAdvances(w, v, genesis);
      InTimeHolds(run, genesis, i, n - 1);
      LeaseStays(w, v, genesis, i);
    }
  }

  lemma ClockAdvances(w: World, v: World, genesis: TxID)
    requires Step(w, v, genesis)
    ensures w.now <= v.now
  {
    if !TimePasses(w, v) && !StatusWritten(w, v) { var k: nat :| InstanceStep(w, v, k, genesis); }
  }

  /** A lease that has not run out is only ever changed by its owner, who gives it up or renews it. */
  lemma LeaseStays(w: World, v: World, genesis: TxID, i: nat)
    requires Step(w, v, genesis) && Holds(w, i) && w.now <= w.lease.value.expires
    requires !Acquire(w, v, i) && !LoseLeadership(w, v, i) && !ReleaseLease(w, v, i)
    ensures v.lease == w.lease
  {
    if !TimePasses(w, v) && !StatusWritten(w, v) { var k: nat :| InstanceStep(w, v, k, genesis); }
  }

  lemma TimelyIsNeverOvertaken(run: seq<World>, genesis: TxID)
    requires IsRun(run, genesis) && Timely(run)
    ensures NeverOvertaken(run)
  {
    forall n | 0 < n < |run| ensures NotOvertakenAt(run, n) {
      var w, v := run[n - 1], run[n];
      forall i: nat ensures LapseIsHarmless(w, v, i) {
        assert TimelyAt(run, n, i);
        if InTime(run, i, n - 1) { InTimeHolds(run, genesis, i, n - 1); }
      }
    }
  }

  /** Handover safety by the clock: if every leader renews, and every turn begins, before the lease it last
      obtained runs out, no output is ever spent by two signatures. */
  lemma InTimeNoOutputIsSpentTwice(run: seq<World>, genesis: TxID, i: nat, x: Spend, y: Spend)
    requires IsRun(run, genesis) && Timely(run) && i < |run|
    requires x in run[i].signed && y in run[i].signed && Spent(x) == Spent(y)
    ensures x == y
  {
    TimelyIsNeverOvertaken(run, genesis);
    NoOutputIsSpentTwice(run, genesis, i, x, y);
  }

  // ---- and what being overtaken costs --------------------------------------------------------------------

  ghost predicate SpentByTwo(w: World) {
    exists x, y :: x in w.signed && y in w.signed && x != y && Spent(x) == Spent(y)
  }

  ghost predicate IsPath(path: seq<World>, genesis: TxID) {
    path != [] && forall i :: 0 < i < |path| ==> StepAt(path, i, genesis)
  }

  lemma {:induction false} PathKeeps(path: seq<World>, genesis: TxID, i: nat)
    requires IsPath(path, genesis) && NeverOvertaken(path) && Inv(path[0], genesis) && i < |path|
    ensures Inv(path[i], genesis) && !SpentByTwo(path[i])
  {
    if i > 0 {
      PathKeeps(path, genesis, i - 1);
      assert StepAt(path, i, genesis) && NotOvertakenAt(path, i);
      StepKeeps(path[i - 1], path[i], genesis);
    }
    forall x, y | x in path[i].signed && y in path[i].signed && Spent(x) == Spent(y) ensures x == y {
      assert HasParent(path[i].signed, genesis, x) && HasParent(path[i].signed, genesis, y);
      SameNameSameChain(path[i].signed, genesis, x.ancestors, y.ancestors);
    }
  }

  lemma Then(path: seq<World>, next: World, genesis: TxID) returns (longer: seq<World>)
    requires IsPath(path, genesis) && Step(path[|path| - 1], next, genesis)
    ensures IsPath(longer, genesis) && longer == path + [next]
    ensures NeverOvertaken(path) && NotOvertaken(path[|path| - 1], next) ==> NeverOvertaken(longer)
  {
    longer := path + [next];
    forall i | 0 < i < |longer| ensures StepAt(longer, i, genesis) {
      assert i < |path| ==> StepAt(path, i, genesis);
    }
    forall i | 0 < i < |longer| && NeverOvertaken(path) && NotOvertaken(path[|path| - 1], next) ensures NotOvertakenAt(longer, i) {
      assert i < |path| ==> NotOvertakenAt(path, i);
    }
  }

  lemma {:induction false} LongerThanAll(signed: set<Spend>) returns (n: nat)
    ensures forall x :: x in signed ==> |x.id| < n
  {
    if signed == {} {
      n := 0;
    } else {
      var x :| x in signed;
      var m := LongerThanAll(signed - {x});
      n := if |x.id| < m then m else |x.id| + 1;
      assert forall y :: y in signed ==> y == x || y in signed - {x};
    }
  }

  /** There is always a name nobody has used. */
  lemma FreshSpend(signed: set<Spend>, genesis: TxID, from: Chain) returns (x: Spend)
    ensures NewSpend(signed, genesis, x) && x.ancestors == from
  {
    var n := LongerThanAll(signed);
    var m := n + |genesis| + 1;
    x := Spend(seq(m, _ => '0'), from);
  }

  /** A step that moves one worker along its transition takes no lease, and begins no turn but its own. */
  lemma FlightMoves(w: World, v: World, i: nat)
    requires i < |w.instances| == |v.instances| && v.instances[i].flight != w.instances[i].flight
    requires forall k :: 0 <= k < |w.instances| && k != i ==> v.instances[k].flight == w.instances[k].flight
    requires v.instances[i].flight.Attempting? ==> Holds(w, i)
    ensures NotOvertaken(w, v)
  {
    forall j: nat ensures LapseIsHarmless(w, v, j) {
      assert j < |w.instances| && j != i ==> v.instances[j].flight == w.instances[j].flight;
    }
  }

  /** A transition in flight ends in a signature. */
  lemma SignsNow(path: seq<World>, i: nat, genesis: TxID, from: Chain) returns (longer: seq<World>, x: Spend)
    requires IsPath(path, genesis) && NeverOvertaken(path) && Attempts(path[|path| - 1], i, from)
    ensures IsPath(longer, genesis) && NeverOvertaken(longer) && path < longer
    ensures var w, v := path[|path| - 1], longer[|longer| - 1];
            && NewSpend(w.signed, genesis, x) && x.ancestors == from && v == WithFlight(w, i, Signing(x), w.rows).(signed := w.signed + {x})
  {
    var w := path[|path| - 1];
    x := FreshSpend(w.signed, genesis, from);
    var v := WithFlight(w, i, Signing(x), w.rows).(signed := w.signed + {x});
    assert InstanceStep(w, v, i, genesis);
    FlightMoves(w, v, i);
    longer := Then(path, v, genesis);
  }

  /** The holder of the lease begins a turn. */
  lemma AttemptsNow(path: seq<World>, i: nat, genesis: TxID) returns (longer: seq<World>)
    requires IsPath(path, genesis) && NeverOvertaken(path)
    requires var w := path[|path| - 1]; MayAdvance(w, i) && Holds(w, i)
    ensures IsPath(longer, genesis) && NeverOvertaken(longer) && path < longer
    ensures var w, v := path[|path| - 1], longer[|longer| - 1];
            v == WithFlight(w, i, Flight.Attempting(w.instances[i].tip), w.rows[|w.instances[i].tip| := ATTEMPT])
  {
    var w := path[|path| - 1];
    var v := WithFlight(w, i, Flight.Attempting(w.instances[i].tip), w.rows[|w.instances[i].tip| := ATTEMPT]);
    assert InstanceStep(w, v, i, genesis);
    FlightMoves(w, v, i);
    longer := Then(path, v, genesis);
  }

  /** A run that goes on from v, in which nobody is overtaken from there, and spends an output twice. */
  ghost predicate GoesWrong(path: seq<World>, v: World, genesis: TxID) {
    IsPath(path, genesis) && path[0] == v && NeverOvertaken(path) && SpentByTwo(path[|path| - 1])
  }

  /** Two attempts on one tip, or one on a tip that is spent, spend it twice. */
  lemma BothSign(path: seq<World>, i: nat, k: nat, genesis: TxID, tip: Chain) returns (longer: seq<World>)
    requires IsPath(path, genesis) && NeverOvertaken(path) && Attempts(path[|path| - 1], i, tip)
    requires TipSpent(path[|path| - 1], tip) || (k != i && Attempts(path[|path| - 1], k, tip))
    ensures GoesWrong(longer, path[0], genesis)
  {
    longer := path;
    if !TipSpent(path[|path| - 1], tip) {
      var first;
      longer, first := SignsNow(path, k, genesis, tip);
    }
    var other :| other in longer[|longer| - 1].signed && other.ancestors == tip;
    var last;
    longer, last := SignsNow(longer, i, genesis, tip);
    assert Spent(other) == Spent(last) && other != last;
  }

  /** A lapse nobody noticed is harmful exactly when the leader was overtaken during it: then, and only
      then, can a run go on from its renewal to spend an output twice without anybody lapsing again. */
  lemma LapseSpendsTwiceExactly(w: World, v: World, i: nat, genesis: TxID)
    requires Inv(w, genesis) && Acquire(w, v, i) && !Holds(w, i)
    ensures Overtaken(w, i) <==> exists path :: GoesWrong(path, v, genesis)
  {
    if Overtaken(w, i) {
      var tip := w.instances[i].tip;
      var k: nat := if k: nat :| k != i && Attempts(w, k, tip) then k else i;
      var path := AttemptsNow([v], i, genesis);
      assert TipSpent(w, tip) ==> TipSpent(path[|path| - 1], tip);
      path := BothSign(path, i, k, genesis, tip);
    } else {
      AcquireKeeps(w, v, i, genesis);
      forall path | IsPath(path, genesis) && path[0] == v && NeverOvertaken(path) ensures !SpentByTwo(path[|path| - 1]) {
        PathKeeps(path, genesis, |path| - 1);
      }
    }
  }

  /** And a turn taken before the lapse is noticed is harmful exactly when the leader was overtaken, or
      whoever holds the lease now has a tip to act on. */
  lemma UnheldTurnSpendsTwiceExactly(w: World, v: World, i: nat, genesis: TxID)
    requires Inv(w, genesis) && WriteAttempt(w, v, i) && !Holds(w, i)
    ensures Contested(w, i) <==> exists path :: GoesWrong(path, v, genesis)
  {
    var tip := w.instances[i].tip;
    if Overtaken(w, i) {
      var k: nat := if k: nat :| k != i && Attempts(w, k, tip) then k else i;
      assert TipSpent(w, tip) ==> TipSpent(v, tip);
      var path := BothSign([v], i, k, genesis, tip);
    } else if k: nat :| k != i && MayAct(w, k) {
      HolderIsOnTip(w, genesis, i, k);
      var path := HolderAttempts(v, k, genesis, tip);
      path := BothSign(path, i, k, genesis, tip);
    } else {
      WriteAttemptKeeps(w, v, i, genesis);
      forall path | IsPath(path, genesis) && path[0] == v && NeverOvertaken(path) ensures !SpentByTwo(path[|path| - 1]) {
        PathKeeps(path, genesis, |path| - 1);
      }
    }
  }

  /** A holder that may act, when nothing has spent a leader's tip, is about to act on that tip. */
  lemma HolderIsOnTip(w: World, genesis: TxID, i: nat, k: nat)
    requires Inv(w, genesis) && MayAdvance(w, i) && !Overtaken(w, i) && k != i && MayAct(w, k)
    ensures w.instances[k].flight == Grounded && Ready(w, k, w.instances[i].tip)
  {
    var tip := w.instances[i].tip;
    var me := w.instances[k];
    var other := if me.needsRederive then me.read.value.tip else me.tip;
    assert Sound(w, genesis, i) && Sound(w, genesis, k) && Ready(w, i, tip) && Ready(w, k, other);
    if InFlight(w, k) {
      FlightIsOnTip(w, genesis, i, k);
    } else {
      SpendableOnce(w, genesis, tip, other);
    }
  }

  /** The holder installs what it has read, if it has to, and begins a turn on it. */
  lemma HolderAttempts(v: World, k: nat, genesis: TxID, tip: Chain) returns (path: seq<World>)
    requires Ready(v, k, tip) && Holds(v, k) && v.instances[k].flight == Grounded
    ensures IsPath(path, genesis) && NeverOvertaken(path) && path[0] == v
    ensures var u := path[|path| - 1];
            && Attempts(u, k, tip) && u.signed == v.signed && |u.instances| == |v.instances|
            && forall j :: 0 <= j < |v.instances| && j != k ==> u.instances[j] == v.instances[j]
  {
    path := [v];
    if v.instances[k].needsRederive {
      var me := v.instances[k];
      var u := v.(instances := v.instances[k := me.(tip := tip, halted := false, needsRederive := false, read := None)]);
      assert Install(v, u, k) && InstanceStep(v, u, k, genesis);
      InstallMoves(v, u, k);
      path := Then(path, u, genesis);
    }
    path := AttemptsNow(path, k, genesis);
  }

  lemma InstallMoves(w: World, v: World, i: nat)
    requires Install(w, v, i)
    ensures NotOvertaken(w, v)
  {
    forall j: nat ensures LapseIsHarmless(w, v, j) {
      assert v.instances[i].read != w.instances[i].read;
      assert j < |w.instances| ==> v.instances[j].flight == w.instances[j].flight;
    }
  }

  // ---- a run in which it happens ---------------------------------------------------------------------------

  function Newcomer(genesis: TxID): Instance {
    Instance(false, false, None, Grounded, [genesis], true)
  }

  function Leader(genesis: TxID): Instance {
    Instance(true, false, None, Grounded, [genesis], false)
  }

  /** A newcomer takes the lease over a freshly seeded store, derives, and leads. */
  lemma TakesOver(path: seq<World>, w: World, i: nat, genesis: TxID) returns (longer: seq<World>)
    requires IsPath(path, genesis) && w == path[|path| - 1]
    requires i < |w.instances| && w.instances[i] == Newcomer(genesis) && MayTake(w, i)
    requires genesis != "" && w.rows == Seeded(genesis)
    ensures IsPath(longer, genesis) && path < longer && |longer| == |path| + 3
    ensures longer[|longer| - 1] == w.(lease := Some(Lease(i, w.now + TTL)), instances := w.instances[i := Leader(genesis)])
  {
    var c := w.(lease := Some(Lease(i, w.now + TTL)), instances := w.instances[i := Leader(genesis)]);
    var a, b := TakeoverSteps(w, i, genesis);
    longer := Then(path, a, genesis);
    longer := Then(longer, b, genesis);
    longer := Then(longer, c, genesis);
  }

  lemma TakeoverSteps(w: World, i: nat, genesis: TxID) returns (a: World, b: World)
    requires i < |w.instances| && w.instances[i] == Newcomer(genesis) && MayTake(w, i)
    requires genesis != "" && w.rows == Seeded(genesis)
    ensures Step(w, a, genesis) && Step(a, b, genesis)
    ensures Step(b, w.(lease := Some(Lease(i, w.now + TTL)), instances := w.instances[i := Leader(genesis)]), genesis)
  {
    var me := Newcomer(genesis).(leader := true, needsRederive := true);
    var r := Reading([genesis], false);
    a := w.(lease := Some(Lease(i, w.now + TTL)), instances := w.instances[i := me]);
    b := a.(instances := a.instances[i := me.(read := Some(r))]);
    var c := b.(instances := b.instances[i := Leader(genesis)]);
    assert InstanceStep(w, a, i, genesis);
    SeededDerives(genesis);
    assert IsClaimed(a.signed, genesis, Claim(0, genesis), r.tip);
    assert ReadRows(a, b, i, genesis) && InstanceStep(a, b, i, genesis);
    assert InstanceStep(b, c, i, genesis);
    assert c.instances == w.instances[i := Leader(genesis)];
  }

  lemma SignsFirst(path: seq<World>, w: World, i: nat, genesis: TxID, x: Spend) returns (longer: seq<World>)
    requires IsPath(path, genesis) && w == path[|path| - 1]
    requires i < |w.instances| && Holds(w, i) && w.instances[i] == Leader(genesis)
    requires x.ancestors == [genesis] && NewSpend(w.signed, genesis, x)
    ensures IsPath(longer, genesis) && path < longer && |longer| == |path| + 2
    ensures longer[|longer| - 1] == WithFlight(w, i, Signing(x), w.rows[1 := ATTEMPT]).(signed := w.signed + {x})
  {
    var a := WithFlight(w, i, Flight.Attempting([genesis]), w.rows[1 := ATTEMPT]);
    var b := WithFlight(a, i, Signing(x), a.rows).(signed := w.signed + {x});
    assert WriteAttempt(w, a, i) && InstanceStep(w, a, i, genesis);
    assert Sign(a, b, i, genesis) && InstanceStep(a, b, i, genesis);
    assert b.instances == WithFlight(w, i, Signing(x), w.rows[1 := ATTEMPT]).instances;
    longer := Then(path, a, genesis);
    longer := Then(longer, b, genesis);
  }

  /** The first holder derives, then hears nothing for longer than a lease lasts; a second takes over,
      and spends the output. */
  lemma SecondHolderSpends(genesis: TxID, x: Spend) returns (run: seq<World>)
    requires genesis != "" && x.ancestors == [genesis] && x.id != "" && x.id != genesis
    ensures IsRun(run, genesis) && |run| == 10
    ensures var w := run[9]; w.signed == {x} && w.now == TTL + 1 && w.lease == Some(Lease(1, 2 * TTL + 1))
                             && |w.instances| == 2 && w.instances[0] == Leader(genesis)
  {
    var start := World(Seeded(genesis), {}, 0, None, [Newcomer(genesis), Newcomer(genesis)]);
    run := TakesOver([start], start, 0, genesis);
    var w := run[|run| - 1];
    assert TimePasses(w, w.(now := TTL + 1));
    run := Then(run, w.(now := TTL + 1), genesis);
    run := TakesOver(run, w.(now := TTL + 1), 1, genesis);
    w := run[|run| - 1];
    run := SignsFirst(run, w, 1, genesis, x);
    assert run[0] == start;
  }

  /** A leader that is not scheduled for two lease lifetimes renews, sees no change of leadership, derives
      nothing, and spends the output the holder in between has spent. */
  lemma UnnoticedLapseSpendsTwice(genesis: TxID, x: Spend, y: Spend) returns (run: seq<World>)
    requires genesis != "" && x.ancestors == y.ancestors == [genesis] && x != y
    requires x.id != "" && x.id != genesis && y.id != "" && y.id != genesis
    ensures IsRun(run, genesis) && !NeverOvertaken(run)
    ensures x in run[|run| - 1].signed && y in run[|run| - 1].signed && Spent(x) == Spent(y)
  {
    var before := SecondHolderSpends(genesis, x);
    var w := before[9];
    var c0 := w.(now := 2 * TTL + 2);
    assert TimePasses(w, c0);
    run := Then(before, c0, genesis);
    var c1 := c0.(lease := Some(Lease(0, c0.now + TTL)), instances := c0.instances[0 := Leader(genesis)]);
    assert Acquire(c0, c1, 0) && InstanceStep(c0, c1, 0, genesis) && !Holds(c0, 0);
    run := Then(run, c1, genesis);
    run := SignsFirst(run, c1, 0, genesis, y);
    assert run[0] == before[0] && run[10] == c0 && run[11] == c1;
    assert Overtaken(c0, 0) && !LapseIsHarmless(c0, c1, 0);
    assert !NotOvertakenAt(run, 11);
  }
}
