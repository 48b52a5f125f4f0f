# Verification of Hanvil's harness and node

A Dafny model of Hanvil: a Hedera node in one process (`src/state`, `src/hapi`, `src/evm`) and the
harness that runs a coding agent against it (`src/harness`). It models what the code does, branch by
branch, and proves what the code is for. `dafny verify dfyconfig.toml` checks all of it.

## What is modelled

**The run.** `AttemptLoop` is the loop that snapshots the chain, lets an agent work, judges the result and
reverts. `Attempt` is one attempt's stages, `ChainStage` the CHAIN stage with its phases, `Verdict` the
EVALUATE stage, `Findings` the life of a finding from attempt to attempt. `Sessions` puts loops into slices
and slices into a start and its continues, any of which may be cut off between two writes of the session
file; `Kicks` tells one such kick slice by slice. `Ledger` is the merged history of an attempt, `Chronicle` what
it says of each item, `Standing` what of it a client's own reverts leave, and `Signer` the funded account a run
works with.

**The node.** `State` is the chain: accounts, transfers, records, refusals, snapshots. `Wire` is what happens
to a submitted envelope before consensus, `History` what any run of submissions keeps. `Effects` and
`Requests` say what a transaction, and the message that asks for it, does to accounts and topics or what it is
refused for, without the functions that decode, check and apply it. `Evm` is the bytecode
stub for contracts that are not emulated, with an interpreter for the opcodes it uses.

**Small machines.** `Prompt` with `Rendering` (the template renderer), `Evaluate` with `Json` (finding a
verdict in prose), `Artifacts` (dates, run names, redaction), `Command` (bounded capture), `Agent` (the stream
logger), `Watcher` (the pruned walk), `Git` (branch names). `Text` and `Wrappers` hold what they share.

Code that updates an object in place is a class or a method over one (`State.Chain`,
`Command.BoundedOutput`, `Agent.StreamLogger`, `Watcher.State`, and every method that takes a `Chain`); its
loops are proved against functions, and the results are lemmas about those functions. What the model cannot
see is handed in as functions, and every result holds for all of them: the agent, gates, browser and
validator of an attempt; what a command does to the chain, which is any sequence of transactions, snapshots
and reverts; an assertion's check; protobuf decoding; signature checks; the EVM; the reading of a JSON value.
Each may depend on the attempt's number, on where in the recipe it stands and on the chain it finds, so a
command that fails may succeed in the next attempt, or when listed twice, on the same chain.

## Where the code does less than it says

- `src/harness/attempt.rs:428-431` logs that the next attempt starts on the state this one started on, also
  when the revert was refused, and `src/harness/chain.rs:379-380` says a revert restores the chain to exactly
  that point. Both hold exactly when nobody reverted to the harness's snapshot, or past it, during the attempt
  (`AttemptLoop.AttemptsStartAlike`, `AttemptLoop.SnapshotsCanBeUndercut`).
- `src/evm/mod.rs:263-268` promises a stub that always carries its reason; it does up to 65440 bytes
  (`Evm.StubRoundTrip`).
- `src/harness/prompt.rs:121-123` gives no limit on sections; there is one, of 100
  (`Rendering.RenderingIsMeaning`).
- `src/harness/ledger.rs:57-58` calls the offset the milliseconds after the first entry; it wraps at 2^63
  (`Ledger.OffsetsAreExact`).
- `src/harness/artifacts.rs:204` and `src/harness/session.rs:523` promise the newest run and session; picking
  by text is right exactly up to year 9999 (`Artifacts.TimestampsSortExactly`).
- `src/state/mod.rs:1069-1104` charges a fee the payer may not have: the prechecks of a submission refuse
  such a payer, the harness's own provisioning and sweep do not look, and keep the supply exactly when the
  operator holds the fee (`Signer.ProvisioningConservesIff`, `Signer.ProvisioningMints`,
  `Signer.SweepConservesIff`).
- `src/harness/chain.rs:379-380` says the mark stays valid and `src/harness/ledger.rs:1` that the ledger lists
  every transaction an attempt caused. Both hold of what still stands, exactly unless a client reverts past the
  mark, to contents with fewer records, blocks or refusals, and then does more of the same
  (`Standing.LedgerIsWhatStands`, `Standing.MarkStaysValid`); then rows are missing
  (`Standing.RevertsPastLoseRows`).
- `src/evm/mod.rs:327-340` aborts on some data a contract can revert with, and `src/harness/ledger.rs:427-429`
  decodes what contracts revert with (`Evm.AbortsExactly`).

`src/harness/artifacts.rs:238-239` promises secrets replaced in the stored copy of a prompt. The harness passes
no secret (`src/harness/attempt.rs:498`) or the signer's hex key (`src/harness/evaluate.rs:218`), and of every
such key the promise is kept (`Artifacts.KeysAreNotPersisted`). The function on its own does not keep it of
every string: one that overlaps the replacement mark, or that the last newline of the copy completes, can be left
(`Artifacts.RedactionIsExact`).

## Model

| member | source | states |
|---|---|---|
| `AttemptLoop.RunLoop` | src/harness/attempt.rs:222-468 | the loop on the chain object: its events, its report and the chain it leaves are those of the recursive loop, whose report `ReportIsOfTheLast` describes, with the chain reverted only between two attempts |
| `AttemptLoop.ReportIsOfTheLast` | src/harness/attempt.rs:1471-1500 | of the report of any run: an id is listed open exactly when the last attempt found it, once, in order of appearance, and fixed exactly when it failed before that attempt, in the one before or in the session, and not in it; the rest is the last attempt's; with no budget the session's ids stay open, nothing is fixed, and it has not passed |
| `AttemptLoop.RunAttempt` | src/harness/attempt.rs:278-366 | one turn: snapshot, agent, stages, delta and stamped findings, in that order, and the snapshot id to revert to |
| `AttemptLoop.AttemptsStartAlike` | src/harness/attempt.rs:296-305 | with a snapshot per attempt the next attempt begins on the chain contents this one began on, whatever was done meanwhile, exactly unless some revert during the attempt succeeded on that snapshot or an older one; then, and without snapshots always, it begins on what this one left |
| `AttemptLoop.AllStartTheSame` | src/harness/attempt.rs:409-450 | when no attempt undercuts its snapshot, every attempt of the run begins on the same contents |
| `AttemptLoop.SnapshotsCanBeUndercut` | src/harness/attempt.rs:411-436 | on any chain there is a run of two attempts that begin on different contents, though the log line says the opposite: an agent that reverts to the snapshot itself and then changes the chain makes the harness's revert fail |
| `AttemptLoop.OnlyTheLastEnds` | src/harness/attempt.rs:371-407 | only the last attempt passes or aborts, and when it does neither the budget is spent; on all three exits the chain is what that attempt left |
| `AttemptLoop.NumbersAreConsecutive` | src/harness/attempt.rs:243-281 | attempts are numbered without gaps from the starting one, within the budget |
| `AttemptLoop.RunCarries` | src/harness/attempt.rs:360-367 | the ids and findings the loop carries are the finding lifecycle over its attempts, so the lifecycle results hold of whole runs |
| `AttemptLoop.ReportedLedgerStands` | src/harness/attempt.rs:278-366 | when what an attempt did up to where its ledger is taken was steps, snapshots and reverts, the ledger it reports lists exactly what of that still stands, if and only if the mark holds; and it does unless a revert went back past the start of the attempt |
| `AttemptLoop.LedgerIsTaken` | src/harness/attempt.rs:743-1058 | whichever stages run, the ledger reported is that of the chain as it stood at one point of the attempt, counted from its mark |
| `AttemptLoop.RecordedVerdict` | src/harness/attempt.rs:885-945 | an attempt is recorded as passed exactly when every finding still open is the agent's own; an aborted one is never passed |
| `Attempt.RunValidationStages` | src/harness/attempt.rs:885-945 | the stage pipeline on the chain object equals its short-circuiting specification, chain effects included |
| `Attempt.RunBrowserStages` | src/harness/attempt.rs:951-1058 | SMOKE and EVALUATE likewise; the ledger is taken between the two |
| `Attempt.PassedMeansOnlyAgent` | src/harness/attempt.rs:885-1058 | passed exactly when all findings are of category Agent; EVALUATE runs exactly when every stage before it was clean; an infrastructure failure never passes |
| `Attempt.BrowsedPasses` | src/harness/attempt.rs:990-1056 | the same from SMOKE on: a failed smoke gate stops EVALUATE and leaves a finding that is not the agent's |
| `Attempt.ChainStopIsNotAgent` | src/harness/attempt.rs:913-932 | CHAIN stops exactly when it has findings, none of them the agent's |
| `Attempt.EvaluationIsNotAgent` | src/harness/evaluate.rs:324-333 | a failed evaluation always contributes a finding that is not the agent's, a passed one none |
| `Attempt.AttemptTells` | src/harness/attempt.rs:885-1058 | an attempt carries the agent's finding and those of the first stage that has any, and nothing of a later one; which operations reach the chain, which ledger and which evaluation it reports, stage by stage |
| `ChainStage.RunChainStage` | src/harness/attempt.rs:743-881 | deploy, clock, assertions and phases on the chain object equal the specification, on a network the process owns and on one it does not |
| `ChainStage.RunPhases` | src/harness/attempt.rs:801-874 | the phase loop with its running offset equals the recursion over set numbers |
| `ChainStage.RunDeployCommands` | src/harness/attempt.rs:1138-1194 | every command runs whether or not one before it failed, each knowing where in the recipe it stands; one finding per failure; none run without a signer |
| `ChainStage.RunAssertions` | src/harness/chain.rs:456-529 | one finding per failed entry, in order, its index counted from the offset |
| `ChainStage.AdvanceChainTime` | src/harness/attempt.rs:1129-1135 | zero leaves the chain alone; otherwise the offset grows, saturating |
| `ChainStage.PhasesAreFlat` | src/harness/attempt.rs:801-874 | the loop judges the flattened list: entry k has index k, only stretches up to the first failing one are looked at, findings are exactly that stretch's failures, and a failed deploy stops before the next stretch |
| `ChainStage.SetIsAStretch` | src/harness/attempt.rs:806-846 | a set judged at the running offset is a stretch of the flattened list judged at its own positions |
| `ChainStage.AllIsTheFile` | src/harness/attempt.rs:801-874 | the flattened list is the file's: the flat block, then each phase's entries |
| `ChainStage.CommandsSeeTheClock` | src/harness/attempt.rs:857-862 | whatever the commands do, the first of a phase runs on the chain as it was with only the clock moved, each other on what the one before left; the phase's findings are exactly those that fail so, and the last leaves the chain of the next set |
| `ChainStage.WaitingSucceeds` | src/harness/attempt.rs:857-862 | so a command that waits for a time succeeds exactly when the phase's advance reaches it |
| `ChainStage.AppendedPhase` | src/harness/attempt.rs:801-874 | appending a phase never moves a finding: a run that stopped stops the same way, one that passed can only gain findings numbered after every old entry |
| `ChainStage.IdsTellEntriesApart` | src/harness/chain.rs:515-520 | two finding ids are equal exactly when index and kind are |
| `ChainStage.StageStopsForAReason` | src/harness/attempt.rs:770-881 | the stage stops exactly when it has findings, all of category chain or commands |
| `ChainStage.StagedEnds` | src/harness/attempt.rs:770-800 | a failed deploy ends the stage with its findings, and with the ledger only on a chain the process owns; a foreign network is not asserted on at all; otherwise the phases decide, after the clock |
| `ChainStage.NoSignerNoCommands` | src/harness/attempt.rs:1138-1150 | without a signer no command runs and nothing but the clock moves |
| `Verdict.EvaluationIsHonest` | src/harness/evaluate.rs:129-356 | an evaluation passes exactly when the agent gave a verdict that passes and lists nothing, and exactly then has no findings; all its findings are eval or all are eval-infra; a run without a verdict, or failing without a reason, is an infrastructure failure |
| `Verdict.IssuesAreNotExplicit` | src/harness/evaluate.rs:583-605 | nothing a validator names can pass for one of the harness's own infrastructure ids |
| `Verdict.EvaluationTells` | src/harness/evaluate.rs:129-356 | for every way the agent can end, exactly which findings the evaluation holds, their ids, words and quoted text: one for a run without a verdict or a failure without issues, else one per issue in order, behind a complaint when it passed in spite of them; and it is put down to the validator exactly when it failed and gave no verdict, gave no reason, or reads as a broken browser |
| `Findings.FindingIds` | src/harness/findings.rs:293-300 | the loop with its seen set gives the ids by first appearance |
| `Findings.IdsInOrder` | src/harness/findings.rs:292-300 | each id once, in order of first appearance |
| `Findings.IdsAreNames` | src/harness/findings.rs:292-300 | exactly the ids that occur |
| `Findings.DeltaBalances` | src/harness/findings.rs:303-321 | open now is open before less fixed plus introduced; fixed is disjoint from open, introduced from what was open before |
| `Findings.ApplyStatus` | src/harness/findings.rs:325-348 | the loop stamps every current finding open and appends the closed ones |
| `Findings.LifecycleIsLastTwo` | src/harness/findings.rs:325-348 | over any sequence of attempts the list is the last attempt's findings, then what it closed of the one before: older fixed entries in the carried list never come back |
| `Findings.FixedOnce` | src/harness/findings.rs:325-348 | an id is surfaced as fixed exactly once, by exactly the attempt that closed it, when the attempt before held its record, and by no other |
| `Findings.FixedAgainOnlyIfReopened` | src/harness/findings.rs:325-348 | surfaced twice only with an attempt in between where it was open again |
| `Findings.ClosedKeepsFirstRecord` | src/harness/findings.rs:339-346 | the record surfaced is the first one the attempt before gave for that id |
| `Sessions.Drive` | src/harness/run.rs:893-1008 | the slice loop on the chain object makes the session writes, in order, and gives the verdict of its specification |
| `Kicks.DroveIsLegs` | src/harness/run.rs:893-1008 | a kick is slices run one after another: a continue from the slice it recorded, or the last there is, a start from the first; only the first is handed the session's open findings, each takes up numbering and chain where the one before ended, and only after a pass; every attempt is written, then the slice, and at the end how it went, aborted exactly when the last evaluation was infrastructure's fault |
| `Kicks.SlicesEndInOrder` | src/harness/run.rs:893-907 | the slices a kick writes as ended begin at that slice and follow one another, so a continue never goes back below the recorded one |
| `Kicks.SessionKeepsTheLast` | src/harness/session.rs:194-225 | each field of the session file is what the last write to set it left there, wherever the writes are cut off |
| `Kicks.SessionAfterKick` | src/harness/run.rs:986-1008 | a kick that is not cut off leaves the last slice's index, attempts, open findings and gate in the session |
| `Sessions.SlicesInOrder` | src/harness/run.rs:907-984 | slices run in order, each within the budget, only the last can be undelivered; the run passes exactly when no remaining slice was left out and the last one passed |
| `Sessions.AttemptsAreGapFree` | src/harness/session.rs:194-225 | checkpointed attempts are numbered 1, 2, 3, ... across retries, slices and continues, however many kicks were cut off between two writes, and the session's last attempt is their number |
| `Sessions.DriveIsNumbered` | src/harness/session.rs:506-513 | a continue numbers its checkpoints from the recorded last attempt on, and its closing write agrees with them |
| `Sessions.RecordedSlicesAreDelivered` | src/harness/run.rs:893-902 | every slice below the recorded one has been delivered, so a continue never starts past an undelivered slice |
| `Sessions.PassedRunsDeliverEverything` | src/harness/run.rs:903-984 | a kick that reports a pass completes the whole recipe, with the slices earlier kicks delivered |
| `Sessions.NewestSessionIsGreatest` | src/harness/session.rs:545-546 | the session taken is among the matching ones and none has a greater started-at text |
| `Sessions.NewestSessionIsNewest` | src/harness/session.rs:524-547 | so no other matching session was started later |
| `Ledger.Since` | src/harness/ledger.rs:93-199 | the loops that fill, sort and renumber the rows give the specified ledger, which `Chronicle.EntriesAreItems` describes |
| `Chronicle.EntriesAreItems` | src/harness/ledger.rs:86-199 | the ledger has one entry for each record, uncarried call and kept refusal since the mark, in the order of their instants, those of one instant as collected; each says of its item the kind, payer, outcome, answer and fee, and how many whole milliseconds after the first it came |
| `Ledger.Renumber` | src/harness/ledger.rs:188-197 | the renumbering loop |
| `Standing.LedgerIsWhatStands` | src/harness/ledger.rs:1-3 | whatever a client does after the mark, snapshots and reverts of its own included, the ledger is made of exactly what of it still stands, if and only if the mark holds for the contents that stands on: they had as many records, blocks and refusals as the mark counts, or got none since, or so many refusals that the cap has dropped those the mark skips |
| `Standing.MarkStaysValid` | src/harness/chain.rs:379-391 | so the mark stays valid as long as no revert goes back past it: reverts to snapshots taken since, the harness's own included, take away only what they undo |
| `Standing.RevertsPastLoseRows` | src/harness/ledger.rs:97-138 | a client that goes back past the mark, to contents with fewer records, and then gets one record: the ledger shows no record at all |
| `Standing.TimelineTells` | src/state/mod.rs:1392-1416 | after any acts the chain, and every snapshot it holds, is where the steps that stand lead from contents it had before |
| `Standing.ChainsAreAncestral` | src/state/mod.rs:1392-1416 | on every chain a client can make of one without snapshots, snapshots only ever had less than what came after them |
| `Standing.ClientRunsAreActs` | src/hapi/wire.rs:48-67 | any run of submissions, snapshots and reverts is such acts |
| `Standing.RejectedCountIsExact` | src/harness/ledger.rs:221-230 | the rejected count is that of the refusals that stand and that the cap still holds, exactly when the mark holds for refusals |
| `Standing.FailedCountIsExact` | src/harness/ledger.rs:221-230 | where the mark holds, the failed count is that of the standing records that failed and of the standing calls that failed and that none of those records carries |
| `Ledger.SinceIsTheSteps` | src/harness/ledger.rs:93-185 | the case of steps alone, on any chain, one already over the cap included: the rows are the records stored since, the transactions mined since that none of them carries, and exactly the refusals made since that the cap still holds |
| `Ledger.KeptAreTheNewest` | src/harness/ledger.rs:163-170 | skipping from the count of refusals seen, less those dropped, lands on the newest ones since the mark even when the mark's own rows are gone |
| `Ledger.RunIsSteps` | src/harness/ledger.rs:1-13 | every run of submissions is such an interleaving |
| `Ledger.SubmissionIsSteps` | src/hapi/wire.rs:48-67 | one submission is a record with its blocks, or one refusal |
| `Ledger.SortIsTheStableSort` | src/harness/ledger.rs:187 | a list is the sorted ledger exactly when it is an ordered permutation that keeps rows of one instant in place |
| `Ledger.OffsetsAreExact` | src/harness/ledger.rs:188-197 | indices are 1..n; every offset is the true distance exactly when the ledger spans less than 2^63 ms, and then offsets start at 0 and never decrease |
| `Ledger.OffsetsWrap` | src/harness/ledger.rs:194 | two refusals 2^63 ms apart: the later one gets a negative offset |
| `Ledger.CountsAddUp` | src/harness/ledger.rs:221-230 | the three outcomes add up to the number of entries, so what is left over is the successes |
| `Ledger.RejectedIsKept` | src/harness/ledger.rs:221-230 | the rejected count is the number of refusals the mark finds, on any chain |
| `Ledger.FailedIsListed` | src/harness/ledger.rs:221-230 | the failed count is that of the failed records the mark finds and of the failed calls none of those records carries |
| `Ledger.Tally` | src/harness/ledger.rs:238-245 | the count of each refused kind and answer, compared as the text they print as |
| `Ledger.TimesCounts` | src/harness/ledger.rs:238-245 | an answer's count is the number of refused entries of its kind with that answer |
| `Ledger.LineSays` | src/harness/ledger.rs:252-358 | a line shows the count, the kind and the answer, one over 56 characters cut to 55 less trailing white space, and a mark |
| `Ledger.RepeatedFrom` | src/harness/ledger.rs:237-255 | the line that lists exactly the causes refused in both attempts, in order, each with its count now; nothing exactly when no cause came back |
| `Wire.Submit` | src/hapi/wire.rs:48-67 | the chain and the answer after a submission are those of the step function, which `Requests.AcceptedDoes` and `Requests.RefusedFor` describe |
| `Requests.AcceptedDoes` | src/hapi/wire.rs:84-300 | an accepted submission does what its message says, kind by kind and with no decoder in between: the payer it names gives the fee, the accounts and topics it names change as listed, by the rules `Effects` states, a failed body changes nothing more, and one record says how it went, at the next free instant |
| `Requests.RefusedFor` | src/hapi/wire.rs:48-300 | a submission is refused exactly when something is wrong with its message or the chain it meets, for the first such thing in the order a client is told; the refusal keeps the instant, the kind when the data decodes and the payer when the id does |
| `Requests.DecodeIs` | src/hapi/wire.rs:246-318 | decoding gives the body the data describes, or exactly what is wrong with the data |
| `Requests.CallsForIs` | src/hapi/wire.rs:168-215 | the keys a message calls for, read off the message, are those that must sign |
| `Wire.PrecheckAndApply` | src/hapi/wire.rs:84-166 | the ordered checks, first fault wins, nothing changed unless the transaction is applied |
| `Wire.VerifySignatures` | src/hapi/wire.rs:142-149 | the signature loop finds a fault exactly when some required key has not signed |
| `Wire.RequiredKeys` | src/hapi/wire.rs:172-215 | the loop that pushes keys computes the required list |
| `Wire.RequiredIsExact` | src/hapi/wire.rs:168-215 | a key is required exactly when it is that of the payer, of an account the list debits by number or alias, of a deleted account, or the topic's submit key |
| `Wire.AcceptedIsSigned` | src/hapi/wire.rs:142-149 | an accepted transaction was signed by every such key when verification is on |
| `Wire.VerificationOnlyRefuses` | src/hapi/wire.rs:142-149 | what verification accepts is accepted without it, with the same record and chain |
| `Wire.BrokePayersHearTheRest` | src/hapi/wire.rs:128-155 | the fee is asked about last: a payer who cannot pay it is told whatever else is wrong, and is refused for the fee exactly when nothing else is |
| `Wire.SubmitDoesOneThing` | src/hapi/wire.rs:44-67 | applied once, with one record under an id the chain did not have, or refused once, with nothing else changed and the refusal newest in the list |
| `Wire.AcceptedWithinWindow` | src/hapi/wire.rs:109-155 | every accepted transaction starts at most 60 s ahead, has not expired, lasts 1 to 180 s, and its live payer can pay the fee |
| `Wire.WindowIsExact` | src/hapi/wire.rs:111-123 | for starts and clocks below 2^63 s the fixed-width checks are the true ones |
| `Wire.RunAcceptsOnce` | src/hapi/wire.rs:124-126 | in every run of submissions accepted ids are pairwise distinct and new, and records plus refusals count the submissions |
| `Wire.RunConserves` | src/hapi/wire.rs:84-166 | over any run the supply of tinybar moves by exactly what the EVM calls of its accepted submissions did to the accounts: fees, HAPI bodies, failures and refusals neither mint nor burn |
| `Wire.SubmitConserves` | src/hapi/wire.rs:153-166 | the same of one submission |
| `Wire.HapiRunsConserve` | src/hapi/wire.rs:84-166 | a run that accepts no Ethereum transaction keeps the supply, whatever the EVM and the decoders do |
| `Wire.TransactionIdRoundTrip` | src/hapi/wire.rs:344-418 | an id survives the wire form exactly when its start fits the signed fields; any entity number does |
| `State.HapiConserves` | src/state/mod.rs:1069-1104 | an applied or failed body moves the supply by exactly what of the fee the payer does not have; a failed one charges the fee, leaves one record and changes nothing else |
| `State.TransferConserves` | src/state/mod.rs:1255-1343 | transfers, hollow accounts included, keep the supply and the chain's invariants |
| `State.TransferMovesNet` | src/state/mod.rs:1255-1343 | an accepted transfer gives every account exactly what the list says in all, and opens one funded hollow account per unknown alias, in list order |
| `Effects.AppliedDoes` | src/state/mod.rs:1069-1252 | a transaction whose payer can pay: the fee goes from payer to collector, then the body does what `Effects` says of it, account by account and topic by topic, or fails with the first fault and nothing changed, and one record is stored at the next instant |
| `Effects.TransferIs` | src/state/mod.rs:1255-1343 | a transfer fails on a sum other than zero, on its first entry with a fault, on an account named twice, on an overdraft, in that order; otherwise every account named changes by its entry and no other, and each unknown alias credited opens a hollow account, in list order, found by alias and by number |
| `Effects.CreateIs` | src/state/mod.rs:1114-1142 | a new account has the next id, the key, the alias and the balance asked for, out of the payer's, and is found by alias and by number |
| `Effects.DeleteIs` | src/state/mod.rs:1146-1168 | the account named ends deleted and empty, and the beneficiary gains what it held; which fault comes first |
| `Effects.MessageIs` | src/state/mod.rs:1197-1226 | the payload becomes the named topic's last message, numbered next, from the payer, at the record's instant |
| `Effects.EthereumDoes` | src/state/mod.rs:1228-1251 | an EVM call sees the chain after the fee; the record has its status, hash and instant |
| `Effects.LongZeroIs` | src/state/mod.rs:308-312 | the address of an entity without an alias is its number in twenty bytes |
| `State.BodyConserves` | src/state/mod.rs:1107-1252 | no body moves the supply at all, whoever pays for it |
| `State.BodyKeepsHistory` | src/state/mod.rs:1107-1252 | no body touches records, blocks or refusals |
| `State.FeeMintsShortfall` | src/state/mod.rs:1367-1388 | the payer gives what it has of the fee, the collector gets all of it, and no other balance moves: the supply grows by the difference |
| `State.FeeConservesIffPaid` | src/state/mod.rs:1069-1104 | the fee keeps the supply exactly when the payer exists and can pay it; `apply_hapi` itself does not check |
| `State.MoveEffect` | src/state/mod.rs:1367-1388 | a move takes from one end exactly what it gives the other |
| `State.SnapshotSurvives` | src/state/mod.rs:1393-1416 | a snapshot is still there, with the contents it was taken of, exactly when no later revert succeeded on it or on an older one |
| `State.RevertRestores` | src/state/mod.rs:1404-1416 | reverting to it then restores those contents, and otherwise changes nothing at all |
| `State.Chain.Snapshot` | src/state/mod.rs:1393-1401 | a fresh id, the world kept under it |
| `State.Chain.Revert` | src/state/mod.rs:1404-1416 | succeeds exactly on a known id, and forgets it and every newer one |
| `State.Chain.Reject` | src/state/mod.rs:1018-1041 | clipping the message and dropping one refusal at a time leaves the newest ones and an exact count of the rest |
| `State.ClipKeepsWhatFits` | src/state/mod.rs:1018-1029 | a message of at most 512 bytes is kept as it is, of a longer one the longest prefix of whole characters that fits, and a mark |
| `State.Chain.ApplyHapi` | src/state/mod.rs:1069-1104 | fee, body, record, in that order, as the step function says |
| `History.RunKeepsHistory` | src/state/mod.rs:1069-1104 | over any run of submissions every record stays where its id finds it, and nothing recorded is lost or changed |
| `History.AppliedKeepsOrder` | src/state/mod.rs:896-907 | each applied transaction is recorded at an instant strictly later than all before it |
| `History.BodyKeepsTopics` | src/state/mod.rs:1173-1230 | topics only grow; messages are numbered 1, 2, 3, ... in consensus order, under ids never used before |
| `History.StoreKeepsOrder` | src/state/mod.rs:1101-1102 | the id index finds exactly the record stored |
| `Signer.UniqueTxId` | src/harness/chain.rs:199-210 | the search for a free id ends, on an unused one |
| `Signer.FreeIsFirst` | src/harness/chain.rs:199-210 | the instant found is the first from now on that no operator id names: every nanosecond before it is taken |
| `Signer.ProvisionSigner` | src/harness/chain.rs:238-330 | reuse, top-up, replacement and creation on the chain object are those of the step function |
| `Signer.Sweep` | src/harness/chain.rs:334-377 | likewise |
| `Signer.SignerIsFunded` | src/harness/chain.rs:238-330 | a signer handed out is live and holds at least the funding; one that had enough costs and changes nothing; a refusal costs the fee only; every other outcome moves the supply by what of the fee the operator does not have |
| `Signer.ProvisioningConservesIff` | src/harness/chain.rs:238-330 | provisioning keeps the supply exactly when it submits nothing or the operator holds the fee |
| `Signer.ProvisioningMints` | src/harness/chain.rs:238-330 | an operator with nothing is refused a new signer, and the whole fee it did not have exists afterwards |
| `Signer.OperatorPaysForIt` | src/harness/chain.rs:238-330 | a created or topped-up signer holds exactly the funding; the operator paid exactly what it got, and of one fee what it had |
| `Signer.SweepReturnsAll` | src/harness/chain.rs:334-377 | a successful sweep leaves the signer deleted and empty and the operator all it held, less what the operator has of the fee |
| `Signer.SweepConservesIff` | src/harness/chain.rs:334-377 | sweeping keeps the supply exactly when it is switched off or the operator holds the fee |
| `Signer.CreateThenSweep` | src/harness/chain.rs:235-377 | created and swept again, a signer costs the operator what it has of two fees; exactly the two when it can pay them beside the funding |
| `Signer.ProvisionTells` | src/harness/chain.rs:238-330 | provisioning told by its record: an old signer with enough is left alone, one with less is sent exactly the difference, otherwise an account with the key, the alias and the funding is opened; each under an operator id nobody had; a failure reports the record's status |
| `Signer.SweepTells` | src/harness/chain.rs:334-377 | a sweep that is wanted deletes the signer in favour of the operator and fails with the record's status |
| `Prompt.RenderTemplate` | src/harness/prompt.rs:124-135 | the loop strips, rewrites, substitutes and tidies as the functions say |
| `Rendering.RenderingIsMeaning` | src/harness/prompt.rs:121-259 | rendering any well-nested template gives the tidied meaning of its tree, which is stated from the bindings alone: a `#` body stays exactly when its name is bound to a set flag or to words with some ink, a `^` body exactly otherwise, a variable is its words or nothing, once the white space beside tags alone on their lines is gone, if and only if there are at most 100 sections; past that a section tag is left |
| `Rendering.StripIsDrop` | src/harness/prompt.rs:137-159 | stripping drops exactly the blanks and line end beside a section tag that is alone on its line, and nothing else of any text |
| `Rendering.StrippedPrints` | src/harness/prompt.rs:137-159 | so of a template's tree only runs of text lose white space: no tag, no variable and no nesting changes |
| `Prompt.SectionTags` | src/harness/prompt.rs:169-194 | the index loop finds the tags of the recursive scan |
| `Prompt.SubstituteVariables` | src/harness/prompt.rs:217-240 | the search loop is the left-to-right substitution |
| `Prompt.StripLines` | src/harness/prompt.rs:138-159 | line by line |
| `Prompt.TagLineIsStripped` | src/harness/prompt.rs:137-159 | a section tag alone on a line, however indented and ended, is all that is left of the line |
| `Prompt.SectionTagsAre` | src/harness/prompt.rs:137-159 | what counts as a section tag is exactly a name between `{{#`, `{{^` or `{{/` and `}}` |
| `Prompt.RenderIsMeaning` | src/harness/prompt.rs:121-240 | for every well-nested tree, rewriting its text innermost first ends with no section tag left exactly when there are at most 100 sections, and then substituting gives the recursive meaning of the tree |
| `Prompt.RewriteOnceIsReduce` | src/harness/prompt.rs:196-214 | one rewrite of the text is one reduction of the tree, and the text has two tags per section |
| `Prompt.SubstituteIsMeaning` | src/harness/prompt.rs:217-240 | values go in verbatim and are never expanded again |
| `Prompt.KeepsIsSet` | src/harness/prompt.rs:196-214 | the body of a `#` section stays exactly when its name is bound to a set flag or to words with some ink, that of a `^` section exactly otherwise |
| `Prompt.TidyIsTidy` | src/harness/prompt.rs:243-259 | a rendered prompt has no two blank lines in a row and no white space at either end |
| `Prompt.UnixLinesAt` | src/harness/prompt.rs:244 | a Windows line end becomes a newline wherever it stands |
| `Prompt.CollapseAt` | src/harness/prompt.rs:245-258 | of every whole run of newlines at most two are left, and what is around them is collapsed on its own |
| `Text.TrimIsExact` | src/harness/prompt.rs:259 | trimming takes the white space at both ends and nothing else |
| `Evaluate.MatchingBrace` | src/harness/evaluate.rs:459-487 | the byte loop returns where the scan first closes |
| `Evaluate.CloseIsFirst` | src/harness/evaluate.rs:459-487 | that is the first point at which braces outside strings balance |
| `Evaluate.ObjectCloses` | src/harness/evaluate.rs:459-487 | for every JSON object of RFC 8259 the scan from its first byte closes on its last |
| `Evaluate.ObjectIsFound` | src/harness/evaluate.rs:443-457 | whatever stands before and after it, the object is among the balanced ones, and no shorter span from its start is balanced |
| `Evaluate.BalancedJsonObjects` | src/harness/evaluate.rs:445-457 | the loop over openers |
| `Evaluate.ObjectsFromAreAll` | src/harness/evaluate.rs:445-457 | all spans that close, and nothing else |
| `Evaluate.DepthFitsCounter` | src/harness/evaluate.rs:462-484 | no text under 2^31 bytes overflows the depth counter |
| `Evaluate.FencedJsonBlocks` | src/harness/evaluate.rs:423-441 | the loop that advances through the fences lists what `BlocksAreListed` says of any text |
| `Evaluate.BlocksAreListed` | src/harness/evaluate.rs:423-441 | of a text read as prose, fences and blocks, exactly the closed blocks are listed, trimmed, in order, their `json` tag in any spelling skipped, whatever stands around them |
| `Evaluate.EveryTextIsFenced` | src/harness/evaluate.rs:423-441 | every text can be read so |
| `Evaluate.FirstVerdictIsFirst` | src/harness/evaluate.rs:404-420 | the first candidate that parses decides |
| `Evaluate.ParseVerdictIsFirst` | src/harness/evaluate.rs:382-420 | the verdict of a run is the first that parses of one list: of every result text and then of the output, the whole, the fenced blocks, the balanced objects |
| `Evaluate.LinesAreExact` | src/harness/evaluate.rs:382-386 | the lines are the newline-free pieces that joined give the output |
| `Evaluate.ResultsAreInOrder` | src/harness/evaluate.rs:382-398 | results are taken line by line in order, none of a blank line or one that is no event |
| `Evaluate.PrintedVerdictIsParsed` | src/harness/evaluate.rs:382-420 | a verdict object printed raw, or inside the result of any event, whatever prose surrounds it, is in that list: the run's verdict is the first that parses up to it, so it is the printed one when none before it parses |
| `Artifacts.CivilSuccessor` | src/harness/artifacts.rs:434-453 | day 0 is 1970-01-01 and the date of day n + 1 is the Gregorian successor of the date of day n, so every date is valid |
| `Artifacts.CivilKeepsOrder` | src/harness/artifacts.rs:434-453 | later days get later dates, so no two days share one |
| `Artifacts.TimestampTells` | src/harness/artifacts.rs:433-453 | a timestamp prints its calendar date and the clock of its day, a run's name the same with dashes and then the spec |
| `Artifacts.TimestampsSort` | src/harness/artifacts.rs:433-453 | up to year 9999 the printed strings sort exactly as the instants do |
| `Artifacts.TimestampsSortExactly` | src/harness/artifacts.rs:433-453 | all instants before a given end sort as they print exactly when that end is not after the start of year 10000 |
| `Artifacts.TimestampsStopSortingInYear10000` | src/harness/artifacts.rs:448-452 | the first instant of year 10000 sorts before the one it follows |
| `Artifacts.LatestNameIsGreatest` | src/harness/artifacts.rs:205-215 | the name picked is one of the names and none is greater |
| `Artifacts.LatestRunIsNewest` | src/harness/artifacts.rs:204-215 | so the run picked is one no other run is later than |
| `Artifacts.PersistedPrompt` | src/harness/artifacts.rs:240-248 | the redaction loop |
| `Artifacts.RedactionIsExact` | src/harness/artifacts.rs:240-248 | a secret never stands in the stored copy, whatever the prompt and the other secrets are, exactly when it is not empty, the mark does not contain it, it does not contain the mark, neither ends as the other begins, and it does not end in a newline alone or after a character that is not white |
| `Artifacts.KeysAreNotPersisted` | src/harness/artifacts.rs:238-248 | no private key in hex that the caller names is left in the file |
| `Evm.EncodeError` | src/evm/mod.rs:270-277 | the padding loop builds selector, offset, length and padded text |
| `Evm.RevertStub` | src/evm/mod.rs:269-297 | the pushes build header and data, the length cut to 16 bits |
| `Evm.StubReverts` | src/evm/mod.rs:279-296 | running the code of any header and data reverts with the first length bytes of the data |
| `Evm.StubRoundTrip` | src/evm/mod.rs:263-340 | the call reverts, and its data decodes to the reason exactly when the reason has at most 65440 bytes, and to nothing beyond |
| `Evm.AbortsExactly` | src/evm/mod.rs:327-334 | decoding aborts exactly on the data of an error text whose length word has a byte set above its last eight |
| `Evm.PrefixDecodes` | src/evm/mod.rs:327-340 | a cut encoding decodes to the whole reason or to nothing |
| `Command.BoundedOutput.Push` | src/harness/command.rs:56-75 | head, tail, byte counts and dropped stay what the whole stream so far says |
| `Command.BoundedOutput.Render` | src/harness/command.rs:84-96 | with nothing dropped the capture is the stream; otherwise the marker names exactly the bytes missing between head and tail |
| `Command.NewestIsLongest` | src/harness/command.rs:66-74 | the tail is the longest chunk-aligned suffix that fits, or the last chunk alone |
| `Command.NewestOnline` | src/harness/command.rs:66-74 | evicting chunk by chunk keeps what evicting once at the end would |
| `Command.CaptureSplitsStream` | src/harness/command.rs:55-97 | head, dropped bytes and tail are the stream, for every chunking |
| `Command.CaptureIsBounded` | src/harness/command.rs:44-75 | never more than the two budgets, or the head budget and one chunk |
| `Agent.StreamLogger.ProcessChunk` | src/harness/agent.rs:574-583 | the buffer loop drains the complete lines |
| `Agent.StreamLogger.ProcessLine` | src/harness/agent.rs:585-612 | counters, activity and tool names after a line are those of the step function |
| `Agent.ChunksDoNotMatter` | src/harness/agent.rs:573-613 | however the text is cut into chunks, log, counters, tool names and left-over buffer are those of one chunk |
| `Agent.DrainLeavesNoLine` | src/harness/agent.rs:574-583 | what is left over is what follows the last newline |
| `Agent.DrainAgrees` | src/harness/agent.rs:585-612 | the counters always count the logged lines and the last activity is the last line |
| `Agent.StreamTells` | src/harness/agent.rs:573-693 | of a stream of whole lines and a rest: every tool use, result and notable event of every line is logged in order, a result under the name its tool was last started by, blank lines and lines that are no event are skipped, the session is the last one named, and the rest is kept |
| `Watcher.Scan` | src/harness/watcher.rs:73-107 | the pruned worklist walk ends and finds exactly the files that filtering the whole tree would, with their stamps |
| `Watcher.IgnoredStaysIgnored` | src/harness/watcher.rs:54-67 | nothing below an ignored directory would have been kept, so pruning loses nothing |
| `Watcher.IgnoredExactly` | src/harness/watcher.rs:15-67 | a path is skipped exactly when one of its parts, whichever slash separates them, is one of the nine names, or is `.harness` and first or not last |
| `Watcher.Changes` | src/harness/watcher.rs:110-125 | the paths whose stamp differs, each once, in path order |
| `Watcher.State.Record` | src/harness/watcher.rs:139-152 | the running count is the number of lines logged, over any sequence of polls |
| `Watcher.LogMissesNothing` | src/harness/watcher.rs:218-230 | whatever differs between start and stop was logged on the way, and only paths that changed between two polls were |
| `Git.Slugify` | src/harness/git.rs:317-338 | the loop with its pending dash builds the slug |
| `Git.SlugsAreSlugs` | src/harness/git.rs:316-338 | 1 to 48 lower-case letters, digits and dashes, no dash leading, trailing or doubled |
| `Git.SlugIsIdempotent` | src/harness/git.rs:316-338 | slugging a slug changes nothing |
| `Git.SlugKeepsWords` | src/harness/git.rs:316-338 | of a name read as words and gaps the slug is its lower-case words between dashes, cut at 48 characters, less a dash it then ends in; of a name without words `feature` |
| `Git.EveryTextIsSpelled` | src/harness/git.rs:316-338 | every text can be read so |
| `Git.ParsesExactly` | src/harness/git.rs:355-370 | a branch parses exactly as prefix, nonempty slug, dash, nonempty hex id, in one way |
| `Git.BranchNameRoundTrip` | src/harness/git.rs:387-440 | the branch a run creates parses back to its slug and id, and continues that spec |
| `Git.ContinuesExactlyOwnBranches` | src/harness/git.rs:388-435 | without flags a run continues exactly on the branches its own spec creates |
| `Git.BranchesTellSlugsApart` | src/harness/git.rs:388-440 | two specs share branches exactly when they share a slug |
| `Git.FlagsDecide` | src/harness/git.rs:388-410 | a branch named in ink is continued whatever else is asked, then a new one when asked for; blank names ask for nothing |

## Left out

- Processes, pipes, signals, sockets, timers, the `git` and `npx` binaries, and file reads and writes: only
  the values they give back are modelled. An I/O error ends a run where it happens; that is a kick cut off.
- The idle and wall-clock timers of the agent (`src/harness/agent.rs:274-297`), model selection and prompt
  placeholders.
- Hashing, key derivation, protobuf decoding, signature verification, regular expressions, JSON
  deserialisation and the EVM are functions handed in.
- Bytes and characters: text is a sequence of characters. The memo of a transaction and the message of a
  refusal are measured in UTF-8 bytes, other byte lengths are character lengths; lossy UTF-8 does not occur.
  Lower-casing is any function that leaves no ASCII capital and keeps lower-case ASCII.
- Unsigned counters (attempts, cycles, indices, ids, seconds) are unbounded, except where a cast, a wrap or a
  saturation is what a result is about. Debug-build overflow panics are not modelled.
- Of a chain, a snapshot's other contents (contracts, receipts, logs, filters, impersonation, topic running
  hashes, admin keys, auto-renewal, transfer lists of records) are left out; a body's effect on them is too.
- Of a finding, the assertion id and route; of an entry, the response code and the entity touched; the console
  table, summaries and attributions of the ledger, and its wording but for the line of repeated causes.
- The checks of `src/harness/chain.rs:531-725` (balances, events, message counts) are one function of the
  entry and its position, the chain, the mark and the ledger, and may differ from attempt to attempt.
- What refuses to start or continue a session: dirty paths, a moved HEAD, preflight and baseline commands.
- Reading a porcelain listing and its filters; the mirror, JSON-RPC, doctor, init, toll, dev server, smoke
  gate and remote networks: plumbing, text, or easy members.
- AttemptLoop.RunLoop: does not model the status, notes and prompt files; the chain dump of each attempt is
  not modelled either.
- ChainStage.RunChainStage: the text of a phase's label and the console lines are left out.
- ChainStage.CommandsSeeTheClock: gives the clock of an advance below 2^63 seconds; a larger one is cut first.
- AttemptLoop.ReportedLedgerStands: of attempts whose operations are steps, snapshots and reverts; an operation
  that rewrites the histories themselves is not one the node offers.
- Rendering.RenderingIsMeaning: of the text runs between tags, none may hold two opening braces or end in one, so
  that no run can fuse into a tag; tags that are not well nested are outside the statement.
- Sessions.PassedRunsDeliverEverything: the number of slices is that of the last kick; a recipe whose slices
  were replaced in between still counts the old ones by their index.
- Sessions.Drive: the session file is a value and its writes a list, so that a kick can be cut anywhere in it.
- Signer.SignerIsFunded: funding is given in tinybar; the conversion from a floating HBAR amount is left out,
  a top-up past 2^63 of the fee collector's own account is excluded, and so is a supply that has no room for
  one more fee below 2^63 tinybar.
- Wire.RunConserves: assumes of the EVM that the accounts it hands back fit a chain's (ids below the next,
  aliases of accounts, a total that fits `i64`); contracts' own balances are not modelled, so what a call
  moves into or out of them shows as its change of the accounts' total.
- History.RunKeepsHistory: assumes of the EVM that it hands out later instants and no smaller entity ids.
- Wire.AcceptedWithinWindow: the clock is below 2^63 seconds.
- Requests.RefusedFor: the clock is below 2^63 seconds.
- Effects.AppliedDoes: the chain is sound, as genesis makes it and submissions keep it.
