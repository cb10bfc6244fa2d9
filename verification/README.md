# Rule 110 on a chain: a verified model

The system runs an elementary cellular automaton whose cells are chains of transaction outputs. Every cell
has a covenant that checks one bit; a worker per cell builds, signs and records transitions; a store of one
row per generation and cell is all that survives a crash; recovery decides what to do with a cell whose last
transition is uncertain; an audit checks the agreement between cells that no covenant checks; a pruner drops
bytes nobody can need again.

This project models those parts and proves what they are for. One module per component:

| file | module | what it is |
|---|---|---|
| `automaton.dfy`, `covenant.dfy`, `cellscript.dfy` | `Automaton`, `Covenant`, `CellScript` | the automaton, one cell's contract in Script arithmetic, locking scripts |
| `tips.dfy`, `history.dfy`, `derivation.dfy` | `Tips`, `History`, `Derivation` | tips from bytes, the durable rows, positions rebuilt from both |
| `rejections.dfy`, `recovery.dfy`, `rejection_recovery.dfy`, `repair.dfy` | `Rejections`, `Recovery`, `RejectionRecovery`, `Repair` | the five recovery rules, their composition, and the repair loop |
| `worker.dfy`, `crash_safety.dfy`, `recovery_protocol.dfy`, `lease.dfy` | `Worker`, `CrashSafety`, `RecoveryProtocol`, `LeaseProtocol` | one turn of a worker, the protocol it follows with crashes anywhere, what recovery does in its terms, and many instances under one lease |
| `status.dfy`, `refusals.dfy`, `scheduler.dfy`, `arcade.dfy` | `StatusBoard`, `RefusalBudget`, `Scheduler`, `Arcade` | status records, the refusal budget, the clock and the gates |
| `audit.dfy`, `pruner.dfy` | `Audit`, `PayloadPruner` | the audit and the pruner |

`dafny verify dfyconfig.toml` checks everything.

The main results, hardest first:

* **Crash safety.** One writer may die between any two steps, while seeding included. A restart leaves a cell
  unhalted only where nothing standing spends its tip (`CrashSafety.DerivedTipIsUnspent`), and no output is ever
  spent by two standing signatures (`CrashSafety.NoDoubleSpend`), in every run in which the cell takes no turn
  between an error out of signing that hid a broadcast and the end of the process. If the process dies there, the
  rows hold the cell down (`CrashSafety.LandedFailureIsFound`); if the cell takes a turn instead, it spends the
  output again, from whatever state this happens in (`CrashSafety.LandedFailureDoubleSpends`). A turn spends an
  output twice exactly when something standing already spent its tip (`CrashSafety.TurnSpendsTwiceExactly`).
  `Worker.CellWorker.AdvanceCell` shows that the worker's own code is a run of the protocol.
* **Recovery inside the protocol.** The protocol lets recovery resume, adopt and release only under guards: nothing
  standing where it resumes, nothing standing beside what it adopts. With a wallet that, of the generations above the
  recorded tip, lists what still stands and crowds none, these guards are consequences of the decision
  (`RecoveryProtocol.TruthfulResume`, `RecoveryProtocol.TruthfulAdoption`), and what is decided, about an attempt or
  about a rejection, is carried out by steps of the protocol (`RecoveryProtocol.RecoveryFollowsProtocol`,
  `RecoveryProtocol.RejectionFollowsProtocol`). `RecoveryProtocol.OrdinaryCrashRecovers` is the ordinary crash of a cell
  of any age, from its seeding to its recovery, with the newest eight actions of its wallet;
  `RecoveryProtocol.UnsignedCrashRecovers` the one before anything was signed, and `RecoveryProtocol.RefusalRecovers`
  a refusal. A crowded generation breaks
  the guards in exactly the ways `Recovery.ResumeMeansUnsigned`, `Recovery.AdoptionLeavesNothingSigned` and
  `Recovery.AdoptedIsTheOnlySignature` say.
* **Lease handover.** With any number of instances, no two signatures ever spend one output
  (`LeaseProtocol.NoOutputIsSpentTwice`), provided that no leader comes back from a lapse it did not notice to a
  tip it has lost meanwhile. A leader that renews a lapsed lease keeps its flag and re-derives nothing; that is
  harmful exactly when something signed has spent its tip or something in flight is about to
  (`LeaseProtocol.LapseSpendsTwiceExactly`), and a turn taken before it renews is harmful exactly when that is so
  or the new holder has a tip to act on (`LeaseProtocol.UnheldTurnSpendsTwiceExactly`).
  `LeaseProtocol.UnnoticedLapseSpendsTwice` is a run from a freshly seeded store in which it happens. In an
  instance's own terms: nothing is spent twice if every leader renews, and every turn begins, before the lease it
  last obtained runs out (`LeaseProtocol.InTimeNoOutputIsSpentTwice`).
* **Derivation.** Eight rows and one deep query conclude what a scan of the whole history concludes
  (`Derivation.ClassifyCell`, in numbers `Derivation.FindingInNumbers`), and a ring that has not moved is put at its
  genesis (`Derivation.DeriveTips`).
* **Recovery.** Adoption is a verified chain and goes exactly as far as it can; permission always rests on
  evidence; losing evidence never turns a halt into permission. A repair whose passes can derive, decide to resume
  and write releases a cell with k failures above its tip after k passes and one more, a pass ends any other way only
  for a reason it can show, and no write that fails part of the way moves a recorded tip back (`Repair.RepairCell`).
* **Audit.** A report from generation 0 with a seed, no failure and no gap, makes every recorded row the
  seed's orbit and every cell's chain a linked one carrying it (`Audit.CleanReportIsSound`); an honest record
  gives such a report, with every transaction in it counted (`Audit.HonestRecordIsClean`), and a transition is
  found in order exactly when it is (`Audit.CheckedExactly`).
* **Pruning.** While other writers run, a pass drops all the bytes that could be dropped when it began, drops none
  that it does not log as dead against its own floor and the highest block, and nothing logged ever comes back to life (`PayloadPruner.Pruner.Sweep`).
* **Refinement.** All covenants accept one next row if and only if it is the automaton's
  (`Covenant.CovenantRefinesAutomaton`).

Assumptions that run through the model: a transaction's name determines it (hashes do not collide); each store
statement is one atomic step; wallet, network and byte lookups are arbitrary answers, any of which may be an
error.

## Model

| member | source | states |
|---|---|---|
| Automaton.Step | internal/ca/ca.go:110-129 | the row filled bit by bit in place is the unique row in which every cell is the rule applied to its ring neighbourhood |
| Automaton.StepUnique | internal/ca/ca.go:103-129 | "every cell is the rule's output, ring wrap included" has exactly one solution |
| Automaton.StepShifts | internal/ca/ca.go:99-107 | which way is left: the rule that copies the right neighbour moves every cell up one place, round the ring, and the one that copies the left neighbour moves it back |
| Automaton.Rule110 | internal/ca/ca_test.go:10-26 | the eight neighbourhoods of the rule the chain runs |
| Automaton.Rule110GrowsUpward | internal/ca/ca_test.go:97-118 | a single live cell lives on and wakes exactly the next-higher one, on rings of any size and wherever it is |
| Covenant.StepInArithmetic | internal/ca/ca.go:24-26 | the bit every cell gets is the rule divided by 16, 4 and 2 for the cell above, itself and the cell below, modulo 2 |
| Covenant.Cell.Step | contracts/Cell.runar.go:68-87 | the contract carries the row it was handed exactly when all its assertions hold, and keeps its own otherwise |
| Covenant.BitAtReadsCell | contracts/Cell.runar.go:59-62 | cutting a byte, padding it and dividing reads the cell the constants were baked for |
| Covenant.UnpaddedByte | contracts/Cell.runar.go:53-62 | why it is padded: without it the upper half of the bytes reads as negative |
| Covenant.ScriptTruncates | contracts/Cell.runar.go:59-62 | division and remainder truncate toward zero |
| Covenant.RuleLookup | contracts/Cell.runar.go:75-82 | the branchless power is positive and selects the rule's bit for the neighbourhood |
| Covenant.CovenantChecksItsBit | contracts/Cell.runar.go:68-87 | cell i's contract accepts exactly the rows of the right length whose bit i is the rule's |
| Covenant.BoundNeighbourhood | internal/cellscript/cellscript.go:117-137 | the constants bound for cell i read its two ring neighbours and itself, wrap included |
| Covenant.CovenantRefinesAutomaton | internal/cellscript/cellscript.go:117-137 | all N contracts accept the same next row if and only if it is the automaton's next row |
| Covenant.OtherBitsUnchecked | contracts/Cell.runar.go:68-87 | no contract can tell two rows apart that agree on its own bit |
| CellScript.LockingScriptInjective | internal/cellscript/cellscript.go:140-151 | with distinct code parts, a script is the script of one cell and one row only |
| CellScript.ScriptLayout | internal/cellscript/cellscript.go:140-151 | a row fits exactly when it is the ring's length, and the script is the code, one OP_RETURN byte, the push and the row |
| CellScript.Decode | internal/cellscript/cellscript.go:349-392 | answers a binding exactly for the scripts some cell and row of the ring encode to |
| CellScript.DecodeInvertsLockingScript | internal/cellscript/cellscript.go:349-392 | decoding undoes encoding exactly when the cell's code part is not empty |
| Tips.DeriveTip | internal/chain/tips.go:35-92 | the one tip a record can mean: bytes that hash to it and exactly one output with this cell's script, where it must be |
| Tips.GenesisDerives | internal/chain/tips.go:68-80 | a transaction puts every cell of the ring at its own output exactly when output k is cell k's script for the seed and no other output is any cell's |
| Tips.VerifySuccessor | internal/chain/tips.go:118-180 | accepts exactly a two-output spend of the tip whose output 0 carries the next row with the same value |
| Tips.SuccessorRederives | internal/chain/tips.go:118-180 | what verification accepts, derivation re-derives, exactly when the second output does not repeat the script |
| History.CellTips | internal/history/history.go:500-526 | the newest rows, newest first, with everything left out older than all of them |
| History.FindDeepTip | internal/history/history.go:659-730 | the newest settled row of the whole history, and the newest failure and attempt above it |
| History.Store.DeleteRejection | internal/history/history.go:574-588 | removes a failed row only if it names the examined transaction, refuses an empty name, touches nothing else |
| History.Store.HasTxID | internal/history/history.go:799-813 | whether any row of any cell, in any status, names the transaction |
| Derivation.ClassifyCell | internal/engine/derive.go:188-352 | the windowed classification concludes exactly what a scan of the full history concludes, gaps and cascades included |
| Derivation.FindingInNumbers | internal/engine/derive.go:188-352 | over the newest row the network was told about: halted by anything unsettled above it, up to three failures offered unless eight rows lie above, an attempt offered unless more than three failures, or that deep any, lie beside it |
| Derivation.NothingSettledHalts | internal/engine/derive.go:188-352 | rows of which none was told to the network leave no tip, and the cell stopped |
| Derivation.WindowSeesAllAbove | internal/engine/derive.go:188-352 | with the base in the window, nothing above it is outside the window |
| Derivation.MissedBaseIsBuried | internal/engine/derive.go:188-352 | a base the window misses lies under at least a full window of rows |
| Derivation.ComputeRows | internal/engine/derive.go:471-484 | exactly the wanted rows, each the seed stepped that many times |
| Derivation.DeriveTips | internal/engine/derive.go:166-392 | a result exists, and is the one derivation, exactly when every cell's finding, recorded row and bytes agree; a ring that has not moved is put at its genesis, every cell at its own output and running; a contradicted row or name anywhere refuses the lot |
| Rejections.ParseSpentBy | internal/chain/recover.go:284-310 | a name is returned exactly when the marker occurs, the phrase occurs, and every occurrence names that same 64-digit, non-null id |
| Rejections.ReadsRefusal | internal/chain/recover.go:284-332 | an already-spent refusal, whatever leads up to the phrase and however it is cased, gives its name exactly when the digits after it are 64 and not all zero |
| Rejections.LowerLetters | internal/chain/recover.go:285-285 | every letter keeps its place in the alphabet, the rest of ASCII stays, and the two letters from outside that have a lower case in it come in |
| Rejections.PrefixIrrelevant | internal/chain/recover.go:268-283 | a prefix that introduces no occurrence of the phrase leaves a successful parse unchanged |
| Recovery.NewestAction | internal/chain/recover.go:1127-1139 | the highest generation any action names, first on the page among equals |
| Recovery.ByGeneration | internal/chain/recover.go:1018-1023 | per generation the last action on the page |
| Recovery.WalkForward | internal/chain/recover.go:1014-1117 | adopts the complete signed run from the tip if there is one, and halts exactly when there is none |
| Recovery.CompleteRunUnique | internal/chain/recover.go:1014-1103 | no two complete runs from one tip, so the walk's outcome is determined |
| Recovery.RecoverCell | internal/chain/recover.go:118-190 | the decision for an unresolved attempt; without an answer, or about any but the next generation, a halt; a wallet that never acted is believed at genesis and nowhere else; actions up to the tip only, or a next one never signed, resume; a next one out of sight halts |
| Recovery.AdoptionIsAChain | internal/chain/recover.go:118-190 | an adoption is a non-empty chain within the bound, each link a real transaction spending the one before, one generation and one step on, value unchanged, ending at the new tip |
| Recovery.AdoptionIsListed | internal/chain/recover.go:1052-1090 | each adopted link is one the wallet lists as signed for that generation and not failed, with the same value and no other script |
| Recovery.AdoptsUpToNewest | internal/chain/recover.go:1014-1103 | the wallet's newest generation is reached exactly when every generation up to it is signed, verifies and fits the bound, and it is not an attempt whose first listed action is unsigned; pages with several actions of one generation included |
| Recovery.AdoptionEnds | internal/chain/recover.go:1024-1050 | short of the newest generation an adoption stops only below an action that was never signed, and within the bound; a generation left out, or the bound reached, halts |
| Recovery.AdoptsBelowUnsigned | internal/chain/recover.go:1024-1050 | and signed steps up to such an action are adopted as far as they go |
| Recovery.OrdinaryCrashAdopts | internal/chain/recover.go:1000-1012 | the ordinary crash, one transition signed and unrecorded, is adopted, whatever the page lists of older generations |
| Recovery.ResumeMeansUnsigned | internal/chain/recover.go:69-80 | a resume means nothing was signed at the attempted generation exactly when the wallet's actions there are all alike |
| Recovery.CrowdedGenerationHidesASignature | internal/chain/recover.go:156-184 | a page with an unsigned and a signed action of one generation resumes over the signature |
| Recovery.AdoptionLeavesNothingSigned | internal/chain/recover.go:1014-1117 | nothing was signed on top of the tip an adoption moves to, exactly when the wallet's actions one generation further on are all alike |
| Recovery.AdoptedIsTheOnlySignature | internal/chain/recover.go:1018-1023 | each adopted transaction is the only one signed for its generation, exactly when the signed actions there name one transaction |
| Recovery.CrowdedGenerationAdoptsTheLast | internal/chain/recover.go:1018-1023 | of two transactions signed for one generation, the last listed is adopted and the other never looked at |
| Recovery.LostEvidenceNeverGrants | internal/chain/recover.go:93-101 | replacing any answer by an error halts the cell or changes nothing |
| RejectionRecovery.RecoverSpentTip | internal/chain/recover.go:412-526 | adopts exactly the named, unrecorded, accepted transaction that spends the tip and carries the next row |
| RejectionRecovery.RecoverStaleRejection | internal/chain/recover.go:636-714 | resumes exactly when every input of the refused transaction can be read and none is the tip |
| RejectionRecovery.RetryRefusal | internal/chain/recover.go:909-980 | resumes exactly on a refusal at tip + 1, not already-spent, of bytes that spend the tip |
| RejectionRecovery.RecoverRejected | internal/engine/recovery.go:247-305 | the rules composed in their order: every resume and adoption rests on one of the named kinds of evidence, a lost transition is always adopted, and a halt means none was there or the failure's own words rule it out |
| RejectionRecovery.OwnFailure | internal/chain/recover.go:810-843 | a failure from before signing is gone on from exactly when it names no transaction and lies above the tip, and nothing else is asked about it |
| RejectionRecovery.UnexplainedRefusal | internal/engine/recovery.go:271-304 | the whole decision on a refusal that claims neither: gone on from if built elsewhere, or, asked to retry the next generation, if its bytes spend the tip; otherwise halted |
| RejectionRecovery.SpentRefusal | internal/engine/recovery.go:271-304 | the whole decision on a refusal that names a spender: adopted exactly when unrecorded and the tip's accepted next transition; otherwise gone on from only if built elsewhere |
| RejectionRecovery.AdoptedIsNextGeneration | internal/chain/recover.go:364-411 | what is adopted is this cell's next generation whoever assembled it |
| RejectionRecovery.LostEvidenceNeverGrants | internal/engine/recovery.go:271-304 | losing evidence never turns a halt into permission; it can only halt, change nothing, or replace an adoption by a resume that has its own evidence |
| RejectionRecovery.SilentOracleResumes | internal/engine/recovery.go:271-304 | that replacement does happen: a silent network turns an adoption into a resume on the tip it spent |
| Repair.LostEvidenceKeepsHalts | internal/engine/recovery.go:133-146 | whatever was halted with the full evidence is halted with less, for attempts and rejections alike |
| Repair.ApplyRecovery | internal/engine/recovery.go:333-424 | the one row a decision was about is retracted, or the adopted generations are written in order; a statement that fails leaves what was written before it, and possibly its own row, and reports it; no other cell is touched |
| Repair.TouchesOnly | internal/engine/recovery.go:340-424 | applied in full or in part, a decision leaves every other row of the cell as it was |
| Repair.AdoptedWasUnknown | internal/engine/recovery.go:315-331 | an adopted transaction is held nowhere in the store |
| Repair.NamedSpenderIsAdopted | internal/engine/recovery.go:271-331 | a named spender that no row names, that spends the tip, makes the next row and was accepted is what is decided, and one row naming it is what is written |
| Repair.RecordedSpenderIsNot | internal/engine/recovery.go:315-331 | a row of any cell that names it, or a lookup that fails, rules it out |
| Repair.PassConverges | internal/engine/recovery.go:340-424 | a pass that does not halt a rejected cell strictly lowers (failures above the tip, distance to the lowest) and never moves the tip back |
| Repair.PassKeepsTip | internal/engine/recovery.go:340-424 | no pass, on attempts or rejections, and however much of it is written, moves a recorded tip back |
| Repair.PartialAdoptionIsAhead | internal/engine/recovery.go:333-339 | an adoption cut short leaves the recorded tip at the last step it wrote, ahead of where the cell was |
| Repair.RepairCell | internal/engine/recovery.go:504-553 | releases a cell only at a position rows and bytes bear out; if each pass can derive, decides to resume and is written, a cell with k failures is released after k passes and one more, having lost those rows and no other; one plain refusal of bytes that spend the tip is such a repair, and puts the cell back at that tip; the recorded tip never moves back, even when a write fails and the cell is halted |
| Worker.CellWorker.AdvanceCell | internal/engine/worker.go:257-355 | whatever the writes, the wallet and the network do, an error that hid a broadcast included, one turn is a run of protocol steps; nothing leaves the wallet without an attempt on record, and the cell is halted exactly when something it had to record could not be; a turn that completes is on record, one that fails before signing leaves no trace |
| Worker.CellWorker.Persist | internal/engine/engine.go:954-970 | true exactly when one of three tries succeeds, and then the row is written; otherwise the cell is halted, whether or not a row landed |
| Worker.TurnKeepsInv | internal/engine/worker.go:566-614 | a turn cut short anywhere, begun by a cell that no hidden broadcast has set adrift, leaves everything crash safety rests on |
| CrashSafety.RunKeeps | internal/engine/worker.go:257-355 | in every run, every standing signature has a row at its generation that is attempting, settled, or a failure that denies nothing, settled rows name it, the one it was built on is settled, and it is alone at its generation |
| CrashSafety.DerivedTipIsUnspent | internal/engine/derive.go:188-352 | after a crash anywhere, an unhalted tip is spent by nothing standing that was signed here, hidden broadcasts included |
| CrashSafety.NoDoubleSpend | internal/engine/worker.go:257-292 | two standing signatures never spend the same output |
| CrashSafety.NothingSpendsTheClaim | internal/engine/derive.go:188-352 | where derivation leaves a cell unhalted, or offers it for a failure that says something, nothing standing is one generation above the claim |
| CrashSafety.NothingBeyondTheNext | internal/engine/derive.go:188-352 | and nothing standing is two above it, so nothing can spend the tip an adoption releases a cell at |
| CrashSafety.TurnSpendsTwiceExactly | internal/engine/worker.go:257-292 | a turn that signs spends an output twice exactly when its signature stands and something standing already spent the tip it began on |
| RecoveryProtocol.TruthfulResume | internal/chain/recover.go:150-184 | a resume by a truthful wallet gives the guard the protocol puts on resuming |
| RecoveryProtocol.TruthfulAdoption | internal/chain/recover.go:1014-1117 | an adoption by a truthful wallet whose signatures agree gives the guard the protocol puts on adopting: nothing standing rivals the transaction |
| RecoveryProtocol.TruthfulAdoptionEnds | internal/chain/recover.go:1014-1117 | and nothing standing spends the tip it moves to, if the actions there are all alike |
| RecoveryProtocol.RivalBreaksTheRecord | internal/engine/recovery.go:333-376 | writing an adopted row keeps the record true exactly when nothing standing rivals it |
| RecoveryProtocol.RecoveryFollowsProtocol | internal/engine/recovery.go:340-424 | what is decided about an unresolved attempt, from a page true and uncrowded above the tip, is carried out by protocol steps from any state with the invariant, ending with the rows and the tip the decision says |
| RecoveryProtocol.RejectionFollowsProtocol | internal/engine/recovery.go:247-305 | so is every resume on a rejection, and every adoption of a transaction the wallet signed and nothing standing rivals |
| RecoveryProtocol.OrdinaryCrashRecovers | internal/chain/recover.go:118-190 | for a cell of any age: seeded, moved along any chain, signed once more, killed, started again and recovered from the newest eight actions, it ends with every generation recorded; a run that satisfies every hypothesis above |
| RecoveryProtocol.UnsignedCrashRecovers | internal/chain/recover.go:118-180 | for a cell of any age, at its genesis too: seeded, moved along any chain, killed between an attempt and its signature, started again and recovered from what its wallet lists, it is running again where it was, with the rows it had |
| RecoveryProtocol.RefusalRecovers | internal/engine/recovery.go:504-553 | for a cell of any age: its newest transition recorded, refused by the network and heard of, it is taken back one generation and may build that one again |
| RecoveryProtocol.LookingReleases | internal/engine/recovery.go:512-548 | a cell due for repair with nothing left to decide goes on where its rows put it |
| RecoveryProtocol.NothingOfOursIsLost | internal/chain/recover.go:340-365 | under the write-ahead order, no transition of this deployment can be the lost one that rule looks for, unless the failed row is one that denies nothing |
| CrashSafety.LandedFailureDoubleSpends | internal/engine/worker.go:566-579 | from any state, an error for a transaction that reached the network, with the cell left running, is followed by a turn that signs its output again |
| CrashSafety.LandedFailureIsFound | internal/engine/derive.go:188-352 | if the process dies there instead, derivation leaves the cell unhalted only where nothing standing spends the claim |
| LeaseProtocol.RunKeeps | internal/engine/worker.go:681-793 | in every run in which no leader is overtaken during a lapse, whoever holds the lease may spend the tip it would act on, and nobody acts while another's transition is in flight |
| LeaseProtocol.AcquiresExactly | internal/history/history.go:826-843 | the lease is had exactly when nobody else's is still running, for thirty seconds from now; an instance that was not leading derives afresh first, and nothing else changes hands |
| LeaseProtocol.NoOutputIsSpentTwice | internal/history/history.go:826-843 | no two signatures, of any instances, spend one output; harmless lapses included |
| LeaseProtocol.UnhaltedIsSpendable | internal/engine/worker.go:755-793 | an unhalted derivation sits above every transition in flight anywhere |
| LeaseProtocol.LapseSpendsTwiceExactly | internal/engine/worker.go:728-742 | renewing a lapsed lease unnoticed can be followed by a double spend, with no further lapse, exactly when the leader's tip was spent or is being spent by another; for every state that satisfies the invariant |
| LeaseProtocol.UnheldTurnSpendsTwiceExactly | internal/engine/worker.go:141-165 | a turn begun by a leader whom the lease row no longer names can be followed by a double spend, with no further lapse, exactly when the leader was overtaken or the new holder has a tip to act on |
| LeaseProtocol.UnnoticedLapseSpendsTwice | internal/engine/worker.go:728-742 | a run from a freshly seeded store in which a leader renews over somebody else's lapsed lease, is not told to re-derive, and spends again |
| LeaseProtocol.InTimeHolds | internal/history/history.go:836-858 | until the lease an instance last obtained runs out, the lease row names it |
| LeaseProtocol.TimelyIsNeverOvertaken | internal/engine/worker.go:681-728 | a leader that renews, and begins its turns, before that is never overtaken |
| LeaseProtocol.InTimeNoOutputIsSpentTwice | internal/history/history.go:826-843 | so in every such run no two signatures spend one output |
| StatusBoard.Tracker.ApplyStatusBatch | internal/engine/status.go:156-283 | the two-pass batch leaves what applying its records one by one leaves |
| StatusBoard.IndexOfGeneration | internal/engine/engine.go:873-883 | the scan that stops early finds the only entry of that number |
| StatusBoard.BatchIsJoin | internal/engine/status.go:156-283 | without refusals every cell shows the strongest thing said of it and both gates hold the highest generation heard of |
| StatusBoard.OrderDoesNotMatter | internal/engine/status.go:45-60 | so order, repetition and batching do not matter |
| StatusBoard.BatchesCompose | internal/engine/status.go:156-283 | a batch may be cut anywhere |
| StatusBoard.StatesNeverFall | internal/engine/status.go:45-60 | nothing, refusals included, weakens a cell on screen |
| StatusBoard.OneRecord | internal/engine/status.go:197-270 | status by status: which gates open, what the screen moves from and to, what is queued, when a transaction is forgotten and when a refusal is handed on |
| StatusBoard.OthersStay | internal/engine/status.go:197-270 | and no other cell on screen moves |
| StatusBoard.RefusalHandedOnce | internal/engine/status.go:245-270 | however often it is reported, a transaction's refusal is handed on at most once, and it is not listened to after that |
| StatusBoard.AcceptanceRaises | internal/engine/status.go:30-41 | the gates are raised by exactly the statuses that count as the network's acceptance |
| StatusBoard.GatesIgnoreTheWindow | internal/engine/status.go:209-235 | the gates do not depend on what is still on screen |
| StatusBoard.OrderMattersExactly | internal/engine/status.go:197-270 | two records, refusals included, leave the same screen and gates in either order exactly when neither refuses what the other would still have drawn as mined or raised a gate for |
| RefusalBudget.Engine.NoteRefusal | internal/engine/status.go:372-422 | one refusal's effect on the counter, the halt and the order to repair, for that cell only |
| RefusalBudget.HaltedIffGaveUp | internal/engine/status.go:293-340 | halted exactly when at least four non-retryable refusals of one generation, a minute or more apart end to end, came with no refusal of another and no advance past it between |
| RefusalBudget.AlwaysRemembers | internal/engine/status.go:372-430 | the counter is the longest unbroken streak, and there is none without one |
| RefusalBudget.PauseGrows | internal/engine/status.go:333-340 | the rebuild pause never shrinks and stays between half a second and eight |
| RefusalBudget.PauseDoubles | internal/engine/status.go:333-340 | and doubles from half a second with each refusal until it gets there |
| Scheduler.Engine.FrontierLocked | internal/engine/worker.go:394-409 | the slowest cell still running, or the held position when none is |
| Scheduler.Engine.TurnReady | internal/engine/worker.go:141-205 | the whole decision, in its order, with unsigned subtraction |
| Scheduler.Engine.ApplyPositions | internal/engine/engine.go:597-644 | derived tips count as mined and seen, the clock is never left behind the cells, and every cell's trace starts afresh |
| Scheduler.Engine.HearAccepted | internal/engine/status.go:230-235 | an acceptance raises the seen gate, a mining both, and neither ever lowers one |
| Scheduler.Engine.TakeTurn | internal/engine/worker.go:128-205 | a turn sends exactly when every gate is open and the transition completes; unless starved, the network is known to hold an ancestor less than maxUnseen behind the output it spends |
| Scheduler.TickGivesWork | internal/engine/worker.go:78-112 | after a running tick the target is beyond the frontier it read, but for the last integer, and the lag never wraps |
| Scheduler.SlowestHasWork | internal/engine/worker.go:78-112 | so the slowest cell has work |
| Scheduler.UnguardedClockFreezes | internal/engine/worker.go:88-104 | why the tick saturates: without it a frontier past the target is never reached again, however many ticks follow, and the target stands still where the wrapped difference meets the limit |
| Scheduler.DepthGateExactly | internal/engine/worker.go:184-189 | when the unguarded depth gate is open, behind the mined generation included |
| Scheduler.AcceptanceGateExactly | internal/engine/worker.go:191-204 | a limit of k admits the k generations from the accepted one on and no more; a cell not ahead of the network's word is always admitted |
| Scheduler.ParentBeforeChild | internal/engine/worker.go:191-204 | in every trace the engine's methods leave, what is sent has an ancestor at most k - 1 behind the spent output that was derived or reported accepted; with k = 1 that very output |
| Audit.Auditor.FetchTx | internal/audit/audit.go:723-748 | the two-generation cache answers what fetching again would answer |
| Audit.AuditTransition | internal/audit/audit.go:441-601 | the first check that fails, in order, or that all of them hold |
| Audit.CheckedExactly | internal/audit/audit.go:441-601 | nothing is found wrong with a transition exactly when it spends the cell's script for the previous row with its own preimage and continues with the script for the row it presents, whose own bit is the automaton's and the recorded one |
| Audit.LinkedVerdict | internal/audit/audit.go:441-601 | the verdict in scripts, rows and steps: which check fails first, a preimage other than the spend's own before any row is compared |
| Audit.UnlinkedVerdict | internal/audit/audit.go:441-513 | a transition without the link, or whose previous output is not this cell's |
| Audit.EvidenceVerdict | internal/audit/audit.go:723-748 | bytes of another name are a failure, bytes that cannot be had and rows that name nothing are not |
| Audit.GenesisVerdict | internal/audit/audit.go:400-432 | a genesis output is checked exactly when it is the cell's script for the row |
| Audit.Auditor.Run | internal/audit/audit.go:278-318 | the report the range gives, or no report when the store would not answer |
| Audit.CleanReportIsSound | internal/audit/audit.go:278-373 | a clean report from generation 0 with a seed: every row is the seed's orbit, every cell linked by outpoint to genesis, all outputs spent at g carrying the row of g - 1 |
| Audit.HonestRecordIsClean | internal/audit/audit.go:278-373 | conversely, a record whose rows are the orbit and whose transactions are proper gives every generation, every cell's transaction in it, no failure and no gap, over any range and under any budget |
| Audit.EveryCellAccounted | internal/audit/audit.go:327-373 | checked, failed and unseen cells add up to the ring size for each generation examined |
| Audit.EveryFindingListed | internal/audit/audit.go:752-759 | each cell's own finding, for every generation examined before the budget was spent, is in the report of the whole run |
| Audit.EveryRowListed | internal/audit/audit.go:327-397 | so is the finding about the row of every generation the run came to |
| Audit.RunKeepsBudget | internal/audit/audit.go:802-804 | a run lists no more failures than its budget and is cut short exactly when it has listed that many |
| Audit.NothingElseListed | internal/audit/audit.go:278-373 | and every failure in the report, of a run cut short or not, is one the evidence bears out |
| PayloadPruner.Pruner.Sweep | internal/chain/prune.go:290-334 | one pass ends, visits nothing twice, is stopped short only by its limit on batches and visits no more than that allows, has dropped everything that could be dropped when it began, and logs each loss against its own floor and the highest mined block; the report counts all of that as prunable and, unless this is a dry run, as pruned; a dry run drops nothing; other writers run throughout |
| PayloadPruner.Pruner.SweepBatch | internal/chain/prune.go:343-380 | chosen, checked and cleared in three statements: what could be dropped when chosen loses its bytes, every loss is logged with this floor and tip, a dry run loses nothing, what is reported as pruned is what lost its bytes, and everything ever logged is dead and stays so |
| PayloadPruner.Prunable | internal/chain/prune.go:497-550 | the counting query keeps exactly the transactions with an output and all outputs spent deep enough |
| PayloadPruner.DroppableExactly | internal/chain/prune.go:497-550 | in the tables' own terms: mined by both accounts, below the floor, still carrying its bytes, with an output on record and every one spent at least that many blocks below the tip |
| PayloadPruner.ParentAndChild | internal/chain/prune.go:497-550 | a parent may be dropped from the height at which the child that spends it is deep enough, the child never |
| PayloadPruner.DeadStays | internal/chain/prune.go:430-470 | no growth of the database revives a dead transaction |
| PayloadPruner.ClearedStayDead | internal/chain/prune.go:343-380 | so everything cleared so far stays dead, under the name it was cleared by, whatever other writers do between two statements |
| PayloadPruner.Candidates | internal/chain/prune.go:384-416 | the next candidates after the cursor, oldest first, none left out between |
| Automaton.SetGet | internal/ca/ca.go:54-60 | setting a cell, alive or not, changes that cell and leaves every other as it was |
| Automaton.SetCell | internal/ca/ca.go:54-60 | the byte changed in place gives exactly that row |
| CellScript.BindingIndex | internal/cellscript/cellscript.go:403-424 | a table from code part to cell exists exactly when no two cells share one |
| Tips.FindOutput | internal/chain/tips.go:35-92 | none, the only, or more than one output carries the script |
| Tips.FindSpend | internal/chain/tips.go:118-180 | the first input that spends the outpoint, if any does |
| History.Store.RecordTx | internal/history/history.go:226-238 | a row supersedes the one at its generation and cell, and nothing else changes |
| History.Store.DeleteAttempt | internal/history/history.go:549-556 | only a row still attempting is removed |
| History.Store.DeleteUnsignedRejection | internal/history/history.go:608-618 | only a failed row with no transaction is removed |
| Derivation.NewestSettled | internal/engine/derive.go:446-454 | the newest row of the window that names a transaction the network was told about |
| Derivation.CountWreckage | internal/engine/derive.go:296-316 | how many failures and attempts lie above the base, and the lowest failure |
| Derivation.Position | internal/engine/derive.go:354-392 | a finding becomes a position exactly when the recorded row and the bytes bear it out |
| Rejections.CheckUTXOSpent | internal/chain/recover.go:241-243 | whether the lower-cased message contains the marker |
| Rejections.LeadingTxID | internal/chain/recover.go:318-332 | a maximal run of exactly 64 hex digits that is not the null hash, or nothing |
| Recovery.VerifyStep | internal/chain/recover.go:1052-1090 | everything one link has to pass, from the bytes to the wallet's own record |
| RejectionRecovery.RecoverNotBroadcast | internal/chain/recover.go:810-843 | resumes exactly on the sentinel prefix with no transaction named, above the tip |
| Repair.DecideCell | internal/engine/recovery.go:133-146 | an unresolved attempt outranks a rejection, and a cell with neither is not considered |
| Repair.RepairPass | internal/engine/recovery.go:512-548 | one pass: derived from the store, decided, applied, and what is left in memory and in the rows either way; it ends without a verdict only if nothing could be derived, the decision was a halt, or a write failed |
| Repair.Engine.AdoptRepaired | internal/engine/recovery.go:556-570 | the cell's tip and halt are installed, and no other cell's |
| Repair.Engine.HaltRepair | internal/engine/recovery.go:573-582 | the cell is halted and no longer due for repair |
| Worker.CellWorker.TransitionFailed | internal/engine/worker.go:328-355 | a failure before signing retracts the attempt and leaves nothing durable; a shortage of funds or a stopping process writes nothing; any other failure is recorded, or halts the cell |
| Worker.CellWorker.Complete | internal/engine/worker.go:581-614 | signed, then the tip moves, then the row is written, each a protocol step |
| StatusBoard.Tracker.Apply | internal/engine/status.go:197-270 | one record under the lock, the index read again |
| RefusalBudget.Engine.ClearRetries | internal/engine/status.go:426-430 | an advance past the refused generation clears its count, and only that |
| RefusalBudget.Engine.RebuildPause | internal/engine/status.go:333-340 | the pause for the count so far |
| Scheduler.Engine.Tick | internal/engine/worker.go:78-112 | raises the target by at most one beyond the frontier it read, while running |
| Scheduler.Engine.SetMode | internal/engine/engine.go:817-836 | starting never leaves the clock behind the cells; locked controls change nothing |
| Scheduler.Engine.Step | internal/engine/engine.go:857-869 | raises the target once, unless controls are locked |
| Scheduler.StepAsksForOne | internal/engine/engine.go:857-869 | one generation beyond both the target and the slowest cell |
| Scheduler.HaltRaisesFrontier | internal/engine/worker.go:84-92 | halting a cell can only move the frontier up |
| Audit.Auditor.AuditGeneration | internal/audit/audit.go:327-373 | one finding per cell until the failure budget is spent, after the row itself |
| Audit.Auditor.AuditCell | internal/audit/audit.go:441-601 | the verdict on one transition, gaps for evidence that could not be seen |
| Audit.Auditor.AuditGenesisCell | internal/audit/audit.go:400-432 | the verdict on one genesis output |
| Audit.ProvedIsSound | internal/audit/audit.go:441-601 | a transition every check held of spends this cell's previous output, which carried the recorded row, and continues the cell with the recorded bit |
| PayloadPruner.Pruner.Clear | internal/chain/prune.go:578-614 | drops the bytes of those still mined when the statement runs, and nothing else, counts the rows that still had bytes, and logs each victim |
| PayloadPruner.Pruner.TipHeight | internal/chain/prune.go:621-632 | the highest block among the mined |
| PayloadPruner.CountOutputs | internal/chain/prune.go:507-543 | the two counts agree and are not zero exactly when every recorded output is settled and there is one |

## Left out

- Script execution, compilation, signatures and hashing: a transaction carries its name, a code part is a given byte string per cell.
- Reading an unlocking script and recomputing a BIP-143 preimage: functions given to the audit.
- Audit per-check pass counters, and which part of a preimage differs: they word a report, they decide nothing.
- Audit sources that answer differently at different times, and a range ending at the largest 64-bit number, whose loop would never end.
- Reasons and messages: a halt is a halt. The recorded error is kept, because recovery parses it.
- The generations table written beside an adoption: the row recorded for an adopted generation is the row the step proved, so it agrees with any later recomputation.
- Derivation from legacy checkpoints, the migration floor, and batching of byte lookups.
- CrashSafety.DerivedTipIsUnspent: for runs in which the cell takes no turn between an error that hid a broadcast and the end of the process; with one, the claim is false, as the results beside it show.
- RecoveryProtocol.RecoveryFollowsProtocol: for a wallet whose page is true and uncrowded above the recorded tip.
- RecoveryProtocol.RejectionFollowsProtocol: an adoption on a refusal's word is one the protocol allows only for a transaction it signed itself and nothing standing rivals.
- CrashSafety adoption of a transaction nobody here signed: the protocol lists only its own signatures, and for those the rule has nothing to find.
- CrashSafety re-derivation while a transition of the same process is in flight: that is part of the lease protocol.
- LeaseProtocol.NoOutputIsSpentTwice: runs without repairs, as repair is not gated on leadership, and without errors that hide a broadcast; a turn granted and its attempt row written are one step.
- Scheduler.ParentBeforeChild: since a cell's last derivation, without refusals or repairs, and not starved; a starved automaton skips both gates.
- RefusalBudget.HaltedIffGaveUp: a repair or a fresh derivation that lifts the halt is not in the trace.
- StatusBoard: queueing of writes to the store, the reconciler's polling, and fetching a late reason.
- Repair.RepairCell: other cells' workers writing to the store during a repair; each pass may see different bytes, answers and write errors.
- PayloadPruner.Pruner.Sweep: the floor is given, not computed from stored instructions; the byte totals and the row lock order are not modelled.
- PayloadPruner.Pruner.Others: stands for other writers, of whom only this is known: no block is un-mined, a mined transaction gains no output, and names are not reused.
- HTTP, events, metrics, funding, key files, rates and sleeping.
