# Rayls deployment tooling: a verified model

The TypeScript tooling around the Rayls contracts audits permission state that lives on a chain,
submits many transactions at once from one account, lints the deploy scripts, and guards upgrades.
This project models that logic in Dafny and proves what it is for. `dafny verify dfyconfig.toml`
checks all of it.

| file | what it models |
|---|---|
| `EventLog.dfy`, `BlockScan.dfy` | the manager's event history, its replay, the deploy-block search, chunked and batched fetching, the choice of the first block |
| `Artifacts.dfy`, `ArtifactWalks.dfy`, `SelectorAudit.dfy`, `Migration.dfy` | loading and fingerprinting artifacts, what depends on the order in which their directories are walked, the on-chain selector audit, the repair script |
| `RoleAudit.dfy` | the relayer-role audit |
| `NonceProtocol.dfy`, `NonceCalls.dfy`, `NonceNode.dfy`, `NonceReplacing.dfy` | resending under allocated nonces against any environment, what every run of it looks like from outside, and runs against a node that shows only its mined count and rejects a send on a pooled nonce, and one on which such a send replaces the pooled transaction |
| `ConfigBatch.dfy`, `BatchFailures.dfy`, `BatchRuns.dfy` | the chunked, retried batch (of configurations, or of plain contract creations) as a transition system, what it does about failures, and the runs that return although a task reverted |
| `Deployments.dfy` | the shared nonce manager and the deployment batch |
| `LintSyntax.dfy`, `LintSemantics.dfy`, `LintSoundness.dfy`, `LintResults.dfy` | the deploy-script lint, an evaluation semantics for the scripts, and the lint's soundness against it |
| `StorageLayout.dfy`, `LinkClosure.dfy`, `EnvFile.dfy` | the upgrade check, the library closure of the bindings, the `.env` editor |
| `Seqs.dfy`, `Wrappers.dfy` | shared facts on sequences; Option and Result |

How the outside world appears:

* A chain is any finite, ordered history of add/remove (grant/revoke) logs. `getLogs` and `getCode`
  answer from that history and from an arbitrary code-presence function.
* In `NonceProtocol` the node is an arbitrary state with three reactions (read, send, wait) and an
  arbitrary order in which the sends of an attempt reach it, so a statement about all environments is
  a statement about all runs. `NonceCalls` listens in on any environment, without changing the run, and
  states what the protocol does on the calls and answers alone. `NonceNode` and `NonceReplacing` are two such environments, each with an
  arbitrary mining schedule and arbitrary arrival orders.
* In `ConfigBatch` a run is any sequence of events: mining, lost requests, lost responses, lost
  waits, receipts, rejections in any order, operations of an abandoned attempt that still arrive, and
  resends that are refused over their pooled copy or replace it. A message of a failure is arbitrary text. Timeouts are failures like any other.
* In the lint's semantics the code outside a script supplies strings, opaque values or parts of what it
  was given, also under the names of a destructuring pattern, and calls back the closures it is given
  any number of times, with any arguments, in any order, before it returns.
* The artifact directory is a tree; a walk lists the entries of each directory in any order and finishes
  each subdirectory before it goes on.
* In `Deployments` the other branches act at every await through an arbitrary list of actions.
* Artifacts, the trust suite's answers, registry entries and file contents are sequences and
  strings passed in.

Where the code and its comments part, the model follows the code:

* `hardhat/tasks/audit/check-onchain-selectors.ts:2-20` speaks of single stale selectors. The code
  (lines 537-548, 562-574) drops the artifact of an address with one unresolvable selector, so all
  entries of that address become STALE. `SelectorAudit.AllOrNothing` states exactly that.
* `hardhat/tasks/deploy/batch-helpers.ts:730-733` takes NONCE_EXPIRED for success without a
  receipt, so "the batch returned" does not mean "every task succeeded". Exactly when it does:
  `BatchRuns.ReturnMeansDoneIff` (for all runs of a batch, iff no task reverts when the tasks are
  executed in list order) and `ConfigBatch.ReturnedTask` (task by task, in any returned run). Every
  task that reverts in list order goes unnoticed in some run (`BatchRuns.RevertGoesUnnoticed`). The
  same recovery at lines 297-302 reports the address of a contract that may not be there
  (`Deployments.FiledAddressStands`).
* `hardhat/tasks/audit/check-onchain-selectors.ts:183` calls same-named artifacts equivalent copies,
  and lines 240-249 promise the same identification on every file system. Both hold if files of
  one name agree (`ArtifactWalks.CopiesAgree`), but in this repository they do not:
  `MockParticipantStorage` is declared with different functions in
  `src/test/unit/security/EnygmaV1_NullifierReplay.t.sol:40` and
  `src/test/unit/security/EnygmaV1_AccessControl.t.sol:11`, and `_StubEndpoint` in three test files,
  and `scripts/forge-to-hardhat.ts` keeps them apart by path only.
  Over all walks the code can make, `ArtifactWalks.NamesOrderFreeIff` proves this necessary and sufficient
  for every name to stand for one artifact; `SelectorAudit.StatusOverWalks` and `Migration.RemovalsHangOnWalk` say exactly which statuses
  and which generated removals hang on the directory order. The condition (`ArtifactWalks.Hides`) peels the
  directories one by one, each contributing only files that lack a selector or whose name is taken.
  `ArtifactWalks.IdentificationOrderFreeIff` says exactly when the promise of lines 240-249 holds.
  `Migration.TwoOfOneName` is a concrete case, and `ArtifactWalks.DirectoriesProtect` one in which a shuffle
  of the files could hide the selectors and no walk of the directories does.
* `hardhat/tasks/audit/check-deploy-selectors.ts:197-199` says that a constant array behind `.map`
  is not pursued; `resolveLiteralArrayReceiver` (lines 253-264) does pursue it, and the model too.
* The lint's constant walk (lines 358-363) ignores `let`, `var`, destructuring and parameters, and its map
  pass (lines 221-224) drops destructuring parameters and accepts any parameter position, the rest of the
  arguments included, so it can take a name for another binder than the one the use sees. A `var` binds in
  the whole function around it. Soundness is proved site by site for every script, under the syntactic condition
  `LintResults.Visible`; scripts in which no name is bound again where it is in scope, and whose map
  identifiers are first parameters, meet it everywhere (`LintResults.NoShadowingIsVisible`), however
  often they reuse a name side by side, as `hardhat/tasks/deploy/privacy-node.ts:346-393` does.
  `LintResults.LetIsMisread`, `VarIsMisread`, `ParameterIsMisread`, `PatternIsMisread`, `IndexIsMisread`
  and `RestIsMisread` show for whole families of scripts what is read wrongly otherwise; destructuring
  callbacks occur in the linted directory (`hardhat/tasks/deploy/batch-helpers.ts:491`).
* `hardhat/tasks/deploy/validation-helpers.ts:175-178` accepts when a layout is missing, so a chain
  of accepted upgrades proves nothing across a missing layout (`StorageLayout.MissingLayoutHides`).
* `hardhat/tasks/deploy/validation-helpers.ts:258-289` compares type names and never the widths in the
  layouts' `types` tables, so the two builds bring one width table each. The check is exact about bytes
  if the old types keep their widths (`StorageLayout.AcceptsIffBytesKept`). An old variable is safe from
  all added ones iff each of its bytes still belongs to some old variable under the new widths
  (`StorageLayout.UndisturbedIff`); a type that has become narrower by whole slots is not
  (`StorageLayout.NarrowerTypeIsOverwritten`).
* `hardhat/utils/envFile.ts:34-40` and line 57 look for a key in differently trimmed lines, so a key that
  starts with whitespace or `#` is written and never found, and nothing keeps line feeds out of an entry
  (`EnvFile.RoundTrip`). A key with an equals sign or leading whitespace sets another key's value, and so
  does a value with a further line that assigns one (`EnvFile.IsolatedIff`, on key and value).
* `hardhat/tasks/utils/sendWithAllocatedNonces.ts:22-24` says that on a chain with a zero base fee a second
  transaction replaces the pooled one and nothing fails. The replaced predecessor is then lost without an
  error, which the protocol does not notice: `NonceReplacing.LostIffReplaced` says exactly which ones are,
  and `NonceReplacing.ReturnsIff` when the protocol returns on such a node.

## Model

| member | source | states |
|---|---|---|
| EventLog.ReplayEvents | hardhat/tasks/audit/check-onchain-selectors.ts:419-457 | the replay loop computes the fold over the events in scope and counts exactly the logs that do not decode |
| EventLog.MergeRestores | hardhat/tasks/audit/check-onchain-selectors.ts:421-424 | fetching the added and the removed topic separately and sorting by (block, index) gives back the chain's own event order, with nothing lost or doubled |
| EventLog.ReplayIsState | hardhat/tasks/audit/check-onchain-selectors.ts:426-457 | replaying decodable events yields each key the manager really holds (within scope) exactly once, and no other |
| EventLog.StateIsLast | hardhat/tasks/audit/check-onchain-selectors.ts:2-20 | the manager holds a key iff the last log about it puts it in |
| EventLog.LateStart | hardhat/tasks/audit/check-onchain-selectors.ts:366-388 | a scan that starts late invents no key and misses exactly the live keys last changed before its start |
| EventLog.NothingSkipped | hardhat/tasks/audit/check-onchain-selectors.ts:426-437 | the skip counter is zero iff every event decoded |
| EventLog.UndecodableCounts | hardhat/tasks/audit/check-onchain-selectors.ts:426-437 | the skip counter is the number of events that do not decode |
| BlockScan.BinarySearchDeployBlock | hardhat/tasks/audit/utils.ts:464-499 | none iff there is no code at the head; otherwise a block with code and none before it, the least one if code stays once deployed; at most 2 + ceil(log2(head)) requests |
| BlockScan.CeilLog2IsLeastPower | hardhat/tasks/audit/utils.ts:456-463 | the bound counts the doublings needed to reach the head |
| BlockScan.FetchLogsChunked | hardhat/tasks/audit/utils.ts:163-181 | the windows tile the range without gap or overlap, there are ceil(width / chunk) of them, and their answers concatenate to one whole-range query |
| BlockScan.WindowsTile | hardhat/tasks/audit/utils.ts:171-172 | adjacent windows of full width, the last cut at the upper end, cover the range exactly |
| BlockScan.QueryAppend | hardhat/tasks/audit/utils.ts:170-179 | answers of two adjacent ranges concatenate to the answer of their union |
| BlockScan.FetchInBatches | hardhat/tasks/audit/utils.ts:204-219 | equals an in-order map when all calls succeed, with at most batchSize in flight; a failure comes from the first batch that has one and stops the later ones; rejects a batch size below 1 |
| BlockScan.ResolveStartingBlock | hardhat/tasks/audit/utils.ts:393-453 | flag, else the first environment variable that is a block number, else deploy block, else 0; a negative flag is an error, a negative variable is passed over |
| BlockScan.CompleteScan | hardhat/tasks/audit/utils.ts:393-453 | an unforced start hides no event: the scanned range is the whole history and the reported keys are the whole state |
| BlockScan.ReplayFrom | hardhat/tasks/audit/check-onchain-selectors.ts:366-457 | chunked fetch of both topics, merge and replay together report each live key last changed since the start once, when nothing was skipped |
| Artifacts.BuildSelectorIndex | hardhat/tasks/audit/check-onchain-selectors.ts:155-206 | the nested loops over files and functions build the index, the first file of a name winning |
| Artifacts.IndexMeaning | hardhat/tasks/audit/check-onchain-selectors.ts:155-206 | a name stands in the index for the first file of that name with an ABI, and is listed under a selector iff that file has it |
| Artifacts.LoadedIsFirst | hardhat/tasks/audit/utils.ts:65-87 | whatever alias found it, a loaded ABI is the one its own name stands for |
| Artifacts.LoadTries | hardhat/tasks/audit/utils.ts:65-87 | a name's ABI is that of the first file of the name, else of it with V1, else with V2, else with its first Replica turned into V1, else with its first RN turned into RaylsNode |
| Artifacts.ReplacesFirst | hardhat/tasks/audit/utils.ts:66-73 | the replacement affects the first occurrence only |
| Artifacts.FirstNamedIs | hardhat/tasks/audit/utils.ts:75-86 | what a name stands for is the first file of that name whose ABI has an entry |
| Artifacts.FingerprintByAllSelectors | hardhat/tasks/audit/check-onchain-selectors.ts:251-281 | the filter-and-sort loop computes the fingerprint |
| Artifacts.FingerprintIsBest | hardhat/tasks/audit/check-onchain-selectors.ts:251-281 | nothing is found iff no selector was observed or no artifact has them all; otherwise the result has them all and ranks first among those that do |
| Artifacts.FingerprintPrefers | hardhat/tasks/audit/check-onchain-selectors.ts:265-279 | deployable before not, then fewer functions, then the smaller name, against every artifact that has all the selectors |
| ArtifactWalks.NamesOrderFreeIff | hardhat/tasks/audit/check-onchain-selectors.ts:155-206 | the first occurrence of every name is the same in every walk of the directory tree iff same-named files with an ABI are copies of each other |
| ArtifactWalks.FingerprintOrderFree | hardhat/tasks/audit/check-onchain-selectors.ts:240-281 | given two walks in which every name stands for the same artifact, the result does not depend on which was made nor on the order in which the selectors were seen |
| ArtifactWalks.SometimesRecognised | hardhat/tasks/audit/check-onchain-selectors.ts:155-281 | some walk of the directory tree recognises a set of selectors iff some file with an ABI has them all |
| ArtifactWalks.AlwaysRecognised | hardhat/tasks/audit/check-onchain-selectors.ts:155-281 | every walk does iff the tree does not hide them: its directories cannot be peeled one by one, each file lacking a selector or bearing a taken name |
| ArtifactWalks.DirectoriesProtect | hardhat/tasks/audit/check-onchain-selectors.ts:169-203 | two directories, each with one of two names on a file that knows a selector and the other on one that lacks it: no walk hides the selector, although each name has a file that lacks it |
| ArtifactWalks.IdentifiedIff | hardhat/tasks/audit/check-onchain-selectors.ts:155-281 | exactly what the walks can identify: a name iff a file of that name knows the selectors and some walk meets no rival of it first, nothing iff no selector was observed or the tree can hide them |
| ArtifactWalks.IdentificationOrderFreeIff | hardhat/tasks/audit/check-onchain-selectors.ts:240-281 | all walks identify the same iff no selector was observed, no file knows them all, or the tree cannot hide them and all files that can win have one name |
| SelectorAudit.RunOnchainSelectorsAudit | hardhat/tasks/audit/check-onchain-selectors.ts:316-587 | end to end: one finding per key the manager holds at the head, in scope, when nothing was skipped and the start is unforced; what each finding says; the start, with the search's own later head, and which of the four errors occurs when |
| SelectorAudit.GroupSelectors | hardhat/tasks/audit/check-onchain-selectors.ts:473-482 | every live address with the selectors live at it, in first-seen order |
| SelectorAudit.ResolveAll | hardhat/tasks/audit/check-onchain-selectors.ts:505-551 | each live address is resolved once, by mapping, by label, or by fingerprint |
| SelectorAudit.ClassifyAll | hardhat/tasks/audit/check-onchain-selectors.ts:553-587 | one finding per live entry, in replay order |
| SelectorAudit.AllOrNothing | hardhat/tasks/audit/check-onchain-selectors.ts:493-575 | all entries of an address share a status, and it is OK iff one artifact has every selector live there, whatever the registry says |
| SelectorAudit.FindingSays | hardhat/tasks/audit/check-onchain-selectors.ts:493-587 | as what an address is reported: the artifact its label is mapped to, or the label's own, if that has every live selector; else the best artifact that has them all, named if it is not the label or one was mapped; unregistered iff it has no label or an empty one |
| SelectorAudit.NamesAre | hardhat/tasks/audit/check-onchain-selectors.ts:316-335 | an address bears the name of the last chosen registry entry about it |
| SelectorAudit.ScopeIs | hardhat/tasks/audit/check-onchain-selectors.ts:316-335 | under --contracts exactly the keys of addresses with a chosen entry are reported |
| SelectorAudit.StatusOverWalks | hardhat/tasks/audit/check-onchain-selectors.ts:155-206 | a mapping is OK in every directory order iff the tree does not hide its address's selectors, and OK in some order iff one file has them all |
| SelectorAudit.FilteringCommutes | hardhat/tasks/audit/check-onchain-selectors.ts:316-335 | the statuses under --contracts are those of the full audit restricted to the chosen addresses, in order; the whole findings are so iff the labels of the live addresses agree |
| SelectorAudit.DistinctAddressesAgree | hardhat/tasks/audit/check-onchain-selectors.ts:316-335 | with one label per address they always agree |
| SelectorAudit.SharedAddressRelabels | hardhat/tasks/audit/check-onchain-selectors.ts:316-322 | with two labels for one address the filtered audit can show the other one |
| Migration.GenerateMigration | hardhat/tasks/audit/generate-migration.ts:102-178 | no script iff the lint found something missing or nothing is STALE; else one removal per STALE finding, in order |
| Migration.MigrationCloses | hardhat/tasks/audit/generate-migration.ts:133-178 | for every history, skipped logs included: after the removals the findings are exactly the former OK findings, unchanged and in order, nothing STALE, and a second generation emits nothing |
| Migration.AuditAgain | hardhat/tasks/audit/generate-migration.ts:102-178 | with the script's removals mined behind the first audit's head, a second audit with a later head starts at the same block, succeeds and returns exactly the first one's OK findings |
| Migration.RemovalsHangOnWalk | hardhat/tasks/audit/generate-migration.ts:167-178 | one directory order removes a live mapping and another keeps it iff some file has all selectors of its address and the tree can hide them |
| Migration.TwoOfOneName | hardhat/tasks/audit/generate-migration.ts:167-178 | two contracts of one name in two directories: both orders are walks, one keeps the mapping and the other removes it |
| Migration.RemovalsAreStale | hardhat/tasks/audit/generate-migration.ts:167-178 | a live mapping is removed iff no artifact has all selectors of its address |
| RoleAudit.ExpectedRelayerAddresses | hardhat/tasks/audit/check-roles.ts:131-172 | exactly the addresses that the nodes' relayers advertise for the side, each once, under the first node and that node's first list that has it |
| RoleAudit.Classify | hardhat/tasks/audit/check-roles.ts:559-567 | one pass over the expected addresses and one over the holders yields the diff |
| RoleAudit.DiffIsExact | hardhat/tasks/audit/check-roles.ts:559-567 | each address of the union is reported once: OK on the intersection, MISSING and UNEXPECTED on the two differences, with its source iff it is expected |
| RoleAudit.CleanIffEqual | hardhat/tasks/audit/check-roles.ts:559-567 | nothing is MISSING or UNEXPECTED iff the two sets are equal |
| RoleAudit.RunRelayerRolesAudit | hardhat/tasks/audit/check-roles.ts:440-567 | end to end: the findings compare the expected set with the holders left by the whole grant/revoke history; the start, with the search's own earlier head, and which of the four errors occurs when |
| NonceProtocol.CollisionInAnyField | hardhat/tasks/utils/sendWithAllocatedNonces.ts:38-60 | a collision text in any field of the error, in any letter case, is recognised |
| NonceCalls.CollisionIff | hardhat/tasks/utils/sendWithAllocatedNonces.ts:38-60 | an error counts as a collision iff the text of its fields, joined by blanks, holds one of the four wordings, letter case aside |
| NonceProtocol.SendBatch | hardhat/tasks/utils/sendWithAllocatedNonces.ts:94-103 | the sends of an attempt carry consecutive nonces in index order and reach the node in any order; each answer is filed under its own index |
| NonceProtocol.WaitBatch | hardhat/tasks/utils/sendWithAllocatedNonces.ts:105-111 | exactly the accepted ones are waited for |
| NonceProtocol.SendWithAllocatedNonces | hardhat/tasks/utils/sendWithAllocatedNonces.ts:76-121 | for every environment: at most maxAttempts * count sends, consecutive nonces within an attempt, no resend of an index that was not lost, a receipt for its own index on return, and the exact outstanding set when attempts run out; when it throws is `NonceCalls.RealFailuresAreRaised` |
| NonceProtocol.AttemptKeepsSound | hardhat/tasks/utils/sendWithAllocatedNonces.ts:86-115 | at every attempt boundary receipts and outstanding indices partition the batch, and each receipt is backed by its own confirmed send |
| NonceProtocol.AttemptsAreAccounted | hardhat/tasks/utils/sendWithAllocatedNonces.ts:86-121 | the accounting holds however the run ends |
| NonceCalls.AttemptOverheard | hardhat/tasks/utils/sendWithAllocatedNonces.ts:86-115 | one attempt against any environment, on its calls and their answers: it reads, sends every outstanding index once, stops at a rejection that is no collision, waits for exactly what was accepted, stops at a failure that is no collision, files the receipts, and goes on with exactly the indices that collided, in order |
| NonceCalls.RealFailuresAreRaised | hardhat/tasks/utils/sendWithAllocatedNonces.ts:63-121 | in every run a failed read, and a send or wait answered with an error that is no collision, end the run in that attempt; what is thrown is the first of them in index order; nothing else is thrown; it gives up only after maxAttempts attempts |
| NonceProtocol.ExactlyOnce | hardhat/tasks/utils/sendWithAllocatedNonces.ts:76-121 | on a ledger where lost sends never executed, no transaction executes twice however the run ends, and on return each has executed at its receipt's nonce |
| NonceNode.SendHolds | hardhat/tasks/utils/sendWithAllocatedNonces.ts:27-36 | a transaction still missing in the line is accepted when it arrives, gaps before it or not, and a send on any mined or pooled nonce is rejected |
| NonceNode.DeliverHolds | hardhat/tasks/utils/sendWithAllocatedNonces.ts:94-103 | whatever the order of arrival and the mining in between, the sends on nonces of the old line are rejected and the others accepted, and only what has not arrived is missing |
| NonceNode.AttemptOnLine | hardhat/tasks/utils/sendWithAllocatedNonces.ts:86-115 | in one attempt exactly the predecessors still in flight collide, and if any send is left the wait mines the whole line |
| NonceNode.Converges | hardhat/tasks/utils/sendWithAllocatedNonces.ts:63-121 | with fewer predecessors in flight than sends, two attempts suffice for every mining schedule and every arrival order, one when nothing is in flight; and the final ledger, which no arrival order changes |
| NonceNode.ConvergesIff | hardhat/tasks/utils/sendWithAllocatedNonces.ts:63-121 | for any arrival orders: it returns for every mining schedule iff fewer predecessors are in flight than it sends, or it sends nothing |
| NonceNode.NodeExactlyOnce | hardhat/tasks/utils/sendWithAllocatedNonces.ts:76-121 | on that node no transaction of the batch executes twice in any run, for any number of predecessors and attempts and any arrival orders, and if the protocol returns each has executed |
| NonceNode.ObservedWordingUnderstood | hardhat/tasks/utils/sendWithAllocatedNonces.ts:27-36 | the two rejections observed on the deployed nodes count as collisions |
| NonceReplacing.AttemptOver | hardhat/tasks/utils/sendWithAllocatedNonces.ts:22-24 | one attempt on a node where a send replaces the pooled transaction: whatever the arrival order, the accepted sends are laid over the line and mined with it, the others were behind a mined predecessor, and it returns iff none was |
| NonceReplacing.ReturnsIff | hardhat/tasks/utils/sendWithAllocatedNonces.ts:63-121 | on that node, for any arrival orders: it returns for every mining schedule iff it sends nothing, or has one attempt and nothing is in flight, or has at least two and at most count + maxAttempts - 2 predecessors are in flight |
| NonceReplacing.LostIffReplaced | hardhat/tasks/utils/sendWithAllocatedNonces.ts:22-24 | however a run ends, a predecessor is lost iff a send of the batch was confirmed at its nonce; no transaction of the batch stands twice; if it returns, each has executed |
| ConfigBatch.StepKeeps | hardhat/tasks/deploy/batch-helpers.ts:105-133 | every event, a resend that replaces its pooled copy included, keeps the invariant: ledger and pool hold only what was allocated, settled operations are mined, receipts mean success, attempts stay in budget |
| ConfigBatch.EveryRun | hardhat/tasks/deploy/batch-helpers.ts:745-776 | the invariant holds after every sequence of events |
| ConfigBatch.NeverTwice | hardhat/tasks/deploy/batch-helpers.ts:694-776 | whatever is lost, retried or left behind, a task is mined at its own nonce only, so never twice, and has at most four operations in all |
| ConfigBatch.ReturnRefinesSequential | hardhat/tasks/deploy/batch-helpers.ts:745-776 | if the batch returns, task i was mined exactly once at nonce base + i, and the chain's state is that of running the tasks one by one in list order |
| ConfigBatch.ReturnedTask | hardhat/tasks/deploy/batch-helpers.ts:694-738 | in every returned run a task is mined and succeeded iff it succeeds when the tasks are executed one by one in list order |
| ConfigBatch.ReturnedBatch | hardhat/tasks/deploy/batch-helpers.ts:745-776 | in every returned run all tasks succeeded iff the list-order execution has no revert |
| BatchRuns.SomeRunReturns | hardhat/tasks/deploy/batch-helpers.ts:105-133 | every batch, of any length and chunk size and whatever its tasks do on chain, has a run that returns |
| BatchRuns.ReturnMeansDoneIff | hardhat/tasks/deploy/batch-helpers.ts:745-776 | returning means that all tasks succeeded, for all runs of the batch, iff the list-order execution has no revert |
| BatchRuns.RevertGoesUnnoticed | hardhat/tasks/deploy/batch-helpers.ts:729-733 | for every batch and every task that reverts in list order, a run that returns without it |
| ConfigBatch.RevertsHideBehindExpiry | hardhat/tasks/deploy/batch-helpers.ts:711-733 | how: in a returned batch a task that did not succeed was settled by NONCE_EXPIRED alone |
| ConfigBatch.ReceiptMeansDone | hardhat/tasks/deploy/batch-helpers.ts:711-733 | in every run, however it ends, a task with a receipt was mined at its own nonce and succeeded, as it does in list order |
| ConfigBatch.ContractPlace | hardhat/tasks/deploy/batch-helpers.ts:246-307 | in a returned batch of creations the contract of task i is at the CREATE address of nonce base + i, and nowhere else, iff its creation does not revert in list order |
| BatchRuns.ReturnsDespiteRevert | hardhat/tasks/deploy/batch-helpers.ts:729-733 | a run in which the only task reverted and the batch returns |
| ConfigBatch.ThrowsForCause | hardhat/tasks/deploy/batch-helpers.ts:105-133 | the batch throws only over a failed operation whose message is not transient, or after three retries |
| BatchFailures.TransientIff | hardhat/tasks/deploy/batch-helpers.ts:113-122 | a failure counts as transient iff its message holds one of the seven marks |
| BatchFailures.RealFailureThrows | hardhat/tasks/deploy/batch-helpers.ts:124-126 | in every run, a failure of the current attempt without a mark, or after three retries, makes the batch throw that message, whatever happens later |
| BatchFailures.ConnectionFailureRetries | hardhat/tasks/deploy/batch-helpers.ts:124-131 | with a mark and fewer than three retries the same chunk starts over, one operation per task, the others living on |
| BatchFailures.RefusedOrReplaced | hardhat/tasks/deploy/batch-helpers.ts:105-133 | a resend that finds its nonce pooled is refused, which fails the operation while the transaction stays, or replaces the pooled copy |
| BatchFailures.ChunksOfTwenty | hardhat/tasks/deploy/batch-helpers.ts:745-776 | in every run configurations go out twenty at a time from a multiple of twenty, the last chunk apart |
| Deployments.IssuedIncreasing | hardhat/tasks/deploy/batch-helpers.ts:25-37 | allocated nonces strictly increase over every interleaving of allocations and syncs, so no two branches share one |
| Deployments.LaterActions | hardhat/tasks/deploy/batch-helpers.ts:25-37 | later actions only add allocations, and they continue from where the earlier ones left off |
| Deployments.SyncTakesEffect | hardhat/tasks/deploy/batch-helpers.ts:31-37 | the next nonce never decreases, and a finished sync lifts every later allocation to what it read |
| Deployments.BatchAllocates | hardhat/tasks/deploy/batch-helpers.ts:544-669 | the allocations a batch adds are those of the other branches' turns and, for implementations, proxies and contracts, one consecutive block each |
| Deployments.AloneIsConsecutive | hardhat/tasks/deploy/batch-helpers.ts:544-669 | without turns of others the submissions are on the next nonces in order, without a gap, and the counter ends right behind them |
| Deployments.NonceManager.Initialize | hardhat/tasks/deploy/batch-helpers.ts:20-23 | starts over from the pending count |
| Deployments.NonceManager.AllocateNonce | hardhat/tasks/deploy/batch-helpers.ts:25-29 | hands out the next nonce and records it for the branch |
| Deployments.NonceManager.Sync | hardhat/tasks/deploy/batch-helpers.ts:31-37 | raises the next nonce to the chain's, never lowers it |
| Deployments.DeployProxies | hardhat/tasks/deploy/batch-helpers.ts:544-652 | implementations on consecutive nonces, then, once mined, proxies on consecutive nonces, each in front of its own task's implementation; stops after the implementations if one fails |
| Deployments.SendChunks | hardhat/tasks/deploy/batch-helpers.ts:665-680 | submissions in chunks of ten, the last apart; a failing chunk stops the batch before the next is sent |
| Deployments.FileInParts | hardhat/tasks/deploy/batch-helpers.ts:670-679 | filing results chunk by chunk is filing them all |
| Deployments.FiledAddressStands | hardhat/tasks/deploy/batch-helpers.ts:296-303 | over every run of the deployment chunks that returns, the address filed for a task carries that task's contract iff its creation does not revert in list order |
| Deployments.ReceiptedAddressStands | hardhat/tasks/deploy/batch-helpers.ts:544-652 | a submission settled by its receipt, as those of the parallel proxies are, leaves at the address of its nonce what it created, in every run |
| Deployments.DeployBatch | hardhat/tasks/deploy/batch-helpers.ts:478-689 | if it returns, result i is that of task i for every mix of proxies and contracts; exactly one nonce was allocated per submission and each submission is on its own; behind one-by-one proxies no contract is below the chain's nonce; if it throws, the failure it names is one of its own submissions or tasks, no proxy went out behind a failed implementation and no contract behind a failed proxy |
| LintSyntax.ResolveConst | hardhat/tasks/audit/check-deploy-selectors.ts:287-316 | the loops over scopes and statements find the nearest preceding constant |
| LintSyntax.ResolveConstBinding | hardhat/tasks/audit/check-deploy-selectors.ts:318-380 | its text, if it is a string literal |
| LintSyntax.ExtractStringArrayElements | hardhat/tasks/audit/check-deploy-selectors.ts:266-278 | all texts in order, or nothing if any element is not a string literal |
| LintSyntax.ResolveLiteralArrayReceiver | hardhat/tasks/audit/check-deploy-selectors.ts:253-264 | an inline array, or a constant bound to one |
| LintSyntax.ResolveMapArrowParam | hardhat/tasks/audit/check-deploy-selectors.ts:213-240 | the array behind the nearest arrow that binds the identifier, if it is a map callback |
| LintSyntax.CheckedIff | hardhat/tasks/audit/check-deploy-selectors.ts:213-380 | what a site is checked against, by position: a literal is itself; an identifier runs over the literal array behind the nearest arrow with that plain parameter, if it is a map callback, and else is the nearest preceding constant's text |
| LintSyntax.CollectGetFunctionCalls | hardhat/tasks/audit/check-deploy-selectors.ts:381-491 | every call site is filed under exactly the texts it may pass, an inline literal under itself, or else as UNCHECKED, never both; in visiting order |
| LintSoundness.EvalKeeps | hardhat/tasks/audit/check-deploy-selectors.ts:170-212 | every evaluation step, with destructuring, hoisted `var` and callbacks made by the environment, keeps every scope a realisation of the frame it was entered for: each name the lint may conclude something about holds a value within that conclusion |
| LintResults.LintIsSound | hardhat/tasks/audit/check-deploy-selectors.ts:213-380 | for every script: whatever a run, cut short at any point, passes to getFunction is passed at a listed site, and is among the texts checked there unless the site was reported UNCHECKED or the lint took its name for another binder than the one the use sees |
| LintResults.CleanLintNeverMisses | hardhat/tasks/audit/check-deploy-selectors.ts:429-491 | with nothing MISSING, nothing UNCHECKED and every resolved name taken for the binder its use sees, no run asks for a function the ABI lacks |
| LintResults.NoShadowingIsVisible | hardhat/tasks/audit/check-deploy-selectors.ts:282-380 | in a script that binds no name again where it is in scope, by parameter, pattern, declaration or hoisted `var`, the lint takes every name it resolves for the right binder, later parameters of map callbacks apart |
| LintResults.CleanWithoutShadowing | hardhat/tasks/audit/check-deploy-selectors.ts:429-491 | for such scripts with first parameters only, nothing MISSING and nothing UNCHECKED means that no run asks for a function the ABI lacks |
| LintResults.SiblingsDoNotShadow | hardhat/tasks/deploy/privacy-node.ts:346-393 | any number of sibling map callbacks may share a parameter name |
| LintResults.ConstantIsChecked | hardhat/tasks/audit/check-deploy-selectors.ts:318-380 | the nearest preceding constant of an otherwise unbound name is resolved, however deep inside the use stands |
| LintResults.ExpansionIsExact | hardhat/tasks/audit/check-deploy-selectors.ts:443-453 | a completed map over an inline or constant array asks for its elements, each once, in order, and those are the texts checked |
| LintResults.IndexIsMisread | hardhat/tasks/audit/check-deploy-selectors.ts:221-233 | a callback's second parameter is checked as an element but is the index |
| LintResults.ParameterIsMisread | hardhat/tasks/audit/check-deploy-selectors.ts:344-380 | a parameter that hides a constant is checked as the constant |
| LintResults.LetIsMisread | hardhat/tasks/audit/check-deploy-selectors.ts:358-363 | a `let` in an inner block that hides a constant is checked as the constant |
| LintResults.VarIsMisread | hardhat/tasks/audit/check-deploy-selectors.ts:358-363 | so is a `var` of an inner block, seen from the whole function |
| LintResults.PatternIsMisread | hardhat/tasks/audit/check-deploy-selectors.ts:221-224 | a destructuring parameter that hides a constant is dropped, and the constant is checked |
| LintResults.RestIsMisread | hardhat/tasks/audit/check-deploy-selectors.ts:221-233 | a callback's rest parameter is checked as an element but is the array of its arguments |
| StorageLayout.CompareStorageLayoutObjects | hardhat/tasks/deploy/validation-helpers.ts:247-297 | accepts iff a layout is missing or the old (slot, type, offset) list is a prefix of the new one |
| StorageLayout.CompareStorageLayouts | hardhat/tasks/deploy/validation-helpers.ts:149-221 | the same from artifacts, a missing artifact or layout passing |
| StorageLayout.AcceptsIffBytesKept | hardhat/tasks/deploy/validation-helpers.ts:247-297 | on layouts that are there, with one width table per build: acceptance and equal widths of the old types are equivalent to every old variable keeping its type and its bytes in every storage |
| StorageLayout.SameBytesIff | hardhat/tasks/deploy/validation-helpers.ts:258-289 | two builds see the same bytes of a variable in every storage iff it starts at the same address and is as wide |
| StorageLayout.AcceptsIffReadsTheSame | hardhat/tasks/deploy/validation-helpers.ts:247-297 | on layouts that are there, acceptance is exactly that every old variable reads the same from every storage under every decoder of (type, slot, offset) |
| StorageLayout.ChainReadsTheSame | hardhat/tasks/deploy/validation-helpers.ts:247-297 | through any number of accepted upgrades the first layout's variables read the same under the last |
| StorageLayout.TransitiveUnlessMissing | hardhat/tasks/deploy/validation-helpers.ts:252-255 | acceptance composes unless the layout in the middle is missing |
| StorageLayout.MissingLayoutHides | hardhat/tasks/deploy/validation-helpers.ts:252-255 | through a missing layout every pair passes, also those that change a reading |
| StorageLayout.AddedVariablesDoNotDisturb | hardhat/tasks/deploy/validation-helpers.ts:285-291 | after an accepted upgrade, writes of the new build to the appended variables leave the bytes of an old one alone, unless its type has become narrower |
| StorageLayout.UndisturbedIff | hardhat/tasks/deploy/validation-helpers.ts:285-291 | with some one-byte type to add, no accepted upgrade whose variables share no byte can write to an old variable's bytes through variables it added iff each of those bytes still belongs to some old variable under the new widths |
| StorageLayout.NarrowerTypeIsOverwritten | hardhat/tasks/deploy/validation-helpers.ts:258-289 | a type narrower by whole slots: the upgrade is accepted and a write to an appended variable changes the old one's bytes |
| LinkClosure.CollectLibraryArtifacts | scripts/generate-bindings.js:142-159 | the walk with its shared seen set adds each library newly seen once, closed under links, and terminates on cyclic references |
| LinkClosure.LibrariesOf | scripts/generate-bindings.js:140-159 | every library reachable over link references exactly once and nothing else; fails iff some reachable library has no artifact |
| EnvFile.GetEnvVariableFromFile | hardhat/utils/envFile.ts:22-47 | the value in the first line that assigns the key, comments and blank lines skipped |
| EnvFile.UpsertEnvVariable | hardhat/utils/envFile.ts:49-66 | the first line of the key is overwritten, or a line is added, and everything is written back |
| EnvFile.LinesAre | hardhat/utils/envFile.ts:7-20 | every file is lines that end in a line feed, or in a carriage return and a line feed, and a rest: these lines are read, and the rest too unless it is empty |
| EnvFile.RereadUpserted | hardhat/utils/envFile.ts:7-20 | for every file, key and value: rereading yields the other lines in place and in order, less a stray carriage return, and the lines of the entry, one if it has no line feed |
| EnvFile.RoundTrip | hardhat/utils/envFile.ts:7-66 | for every key and value: reading after setting yields the trimmed value (nothing if empty) iff the key starts with neither whitespace nor a comment sign, holds no line feed and the value is blank behind its first line, or the value is blank |
| EnvFile.OtherKeysUnchanged | hardhat/utils/envFile.ts:49-66 | setting a harmless key and value (the key a plain name or one that makes its line a comment, no further line of the value assigning another name; or an entry that only ever appends and gives no name a value) leaves every other name's value alone |
| EnvFile.IsolatedIff | hardhat/utils/envFile.ts:49-66 | exactly the harmless keys and values do so, over all files and other names |
| EnvFile.LeakOf | hardhat/utils/envFile.ts:49-66 | for every other key and value, a file and a name whose value changes |
| EnvFile.Leaks | hardhat/utils/envFile.ts:49-66 | in an empty file a key without a line feed that makes no comment sets the name in front of its first equals sign, leading whitespace dropped; without an equals sign, to the first line of the value |

## Left out

- `runOwnRolesAudit`: a second diff of the same shape as the relayer one, against finite tables.
- Rendering, role names and signatures in findings, hygiene warnings: display only.
- ABI encoding, keccak, event decoding and the TypeScript parser: a log decodes or not, an artifact has a set of selectors, a script is a syntax tree.
- The composite map key of the replay, a string joining address, selector and role, is a triple; the link key `source:library` is a pair.
- `localeCompare` is any total order on names. Artifact names are taken as non-empty.
- `collectBindings` and the receiver of `getFunction`: one interface, so one ABI, per script.
- SelectorAudit.RunOnchainSelectorsAudit: the lookup of the name-to-artifact table is an input.
- BlockScan.FetchInBatches: which of several rejections in one batch surfaces is a race, so only membership in that batch is stated.
- BlockScan.ResolveStartingBlock: the flag and the variables come as parsed numbers; text that is no number throws in the original.
- NonceProtocol.SendWithAllocatedNonces: the sends of one attempt reach the environment in any order; the waits are answered in index order.
- NonceNode.Converges: on the node of this module a send on a pooled nonce is rejected as underpriced; nodes on which it replaces the pooled transaction are those of `NonceReplacing`. A node that does one or the other as it pleases is only one of the arbitrary environments of `NonceProtocol`.
- NonceNode.NodeExactlyOnce: the modelled node loses no response; runs with lost responses are those of the arbitrary environment of `NonceProtocol`.
- NonceProtocol.ExactlyOnce: for an arbitrary environment, that a rejected send never executes is a hypothesis, stated as a relation between the trace and the ledger; on the modelled node `NonceNode.NodeExactlyOnce` needs no such hypothesis.
- Deployments.DeployProxies: the retries, timeout and receipt of one submission are whether its nonce ends in failure; `ConfigBatch` and `Deployments.ReceiptedAddressStands` have them. Validation and manifest entries are not modelled.
- Deployments.SendChunks: a chunk's transient retries and its NONCE_EXPIRED recovery are whether its nonces end in failure; `ConfigBatch` and `Deployments.FiledAddressStands` have them.
- Deployments.DeployBatch: retries and timeouts of one submission are folded into whether its nonce ends in failure. What a success is worth is stated over runs in which this batch is the only sender from its first nonce on: by `Deployments.FiledAddressStands` for the plain contracts, whose NONCE_EXPIRED counts as success, and by `Deployments.ReceiptedAddressStands` for the parallel proxies, which need their receipts. The manifest file and validation phase are not modelled.
- `deployBatchWithRetry` reruns a batch on fresh nonces and is not exactly-once by design.
- ConfigBatch.ReturnRefinesSequential: one account is the only sender, and the `sync` after the batch is in `Deployments`.
- LintResults.LintIsSound: scripts have no assignments, no array mutation, no default values in parameters or patterns, one declarator per declaration; exceptions, classes and hoisted function declarations are not in the fragment. A function that is no arrow is an arrow whose parameters are patterns, and the variables of a loop are a pattern declared in its block. The environment calls the closures it is given only before it returns. `getFunction()` without argument is not modelled.
- Migration.MigrationCloses: each line of the script is taken to emit one removal log, also for a key the manager no longer holds, which the audit reports when the log of an earlier removal was skipped.
- StorageLayout.AddedVariablesDoNotDisturb: mappings and dynamic arrays, which live at hashed slots, are not modelled; that no two variables of a compiled layout overlap is a hypothesis.
- EnvFile.IsolatedIff: the other names have no equals sign, so they are names a line can assign.
- `findArtifactJson` appears as the sequence of files it would find.
- Liveness under a fair network, gas, fees and block timing.
