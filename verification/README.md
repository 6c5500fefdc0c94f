# Verified models of frankengit

frankengit serves Git repositories whose every change is one published decision. This project models its most
intricate logic in Dafny and proves what that logic is for. `dafny verify dfyconfig.toml` checks all of it.

- **The barrier relay** (`Prefix*`, `Relay*`): a streaming parser for the front of a push, and the two-way byte pump
  around it, under every schedule of short reads, short writes, release and end of input. Nothing beyond its PACK header
  reaches the server before release; nothing is lost afterwards.
- **Shallow selection** (`Shallow*`): depth, relative depth, time and ref cutoffs over a commit graph, and the transfer
  chosen from them. A client that was whole above its old boundaries is whole above its new ones.
- **The admission machine** (`Intent*`, `Fold*`, `Ancestry`, `Evaluation*`, `Machine*`): requests are sealed, prepared,
  staged and published by one head swap. In every run, published history is a serial, lawful, gap-free replay.
- **Receives and groups** (`Receive`, `MachineReceive`, `MachineGroups`, `BatchCodec`, `BatchReading`, `Microbatch`): an
  atomic receive is one decision, all or none; one batch is many rounds; a grouped session among other writers keeps a
  serial history.
- **Issue labels** (`Issue*`): bounded additive unions with versions, retries and refusals; no update is lost.
- **Codecs** (`SizeHeader`, `OfsDistance`, `Zip`, `Pack*`, `Bundle`, `TreeCodec`, `Initial*`, `Report`): each writer and
  reader, with round trips and, for readers, what exactly they accept.
- **Protocol v2 `ls-refs`** (`LsRefs*`): per-command state, budgets and responses.

Code that changes things step by step is a class or a method with a loop, proved against a function; the properties
are lemmas about those functions. Hashes are uninterpreted functions of a fixed width, zlib is any self-delimiting
compression (stored blocks of RFC 1951 section 3.2.4 are an instance), and clocks, readiness and random identities are
parameters.

## Where the code does less than it might seem to

Each of these is kept as the code has it, shown by a concrete input, and bounded by an exact condition.

- An upload may replace a verified quarantined object after its batch was staged. The swap then publishes a ref to an
  object that is not in the store (`MachineEscape.EscapeHappens`). A single publication is safe exactly under the
  condition of `MachineQuarantine.PublishProtectsIff`; a run is safe when no upload spoils a verified object
  (`MachineQuarantine.TameRunNeverEscapes`).
- Staging is documented to produce the same batch for any permutation of its capsules. It sorts by transaction only, and
  preparing again keeps the older capsule, so two capsules of one transaction can be listed together. In a run of eight
  inputs one order stages a batch and the other is a breach (`MachineRevival.ListingOrderMatters`). For two capsules the
  order matters exactly as `MachineOrder.PairMattersIff` says; a listing is order-free whenever its capsules of one
  transaction are settled on this head, which a caller can check (`MachineOrder.StageIsOrderFree`).
- Sealing checks the schema before it looks for an existing seal, so an exact retry is turned away once the policy has
  dropped its schema (`MachineLimits.RetryIsTurnedAway`), and exactly then (`MachineRuns.RetryIffSchemaSupported`).
- The documentation of the re-preparation budget lets the first four preparations be superseded; the code refuses a stale
  capsule at the fourth (`MachineLimits.FourthPreparationIsRefused`), and sends it back exactly below that
  (`MachineLimits.StaleIsSentBackIff`).
- A cutoff selection can contain commits outside the cutoff, because wants are always roots
  (`ShallowTheorems.OldWantEscapesCutoff`), and does so exactly when some wanted root fails the cutoff's own admission
  test (`ShallowTheorems.CutoffIsRespectedExactly`).
- The tree walker accepts a file and a directory of one name, which the tree writer refuses
  (`InitialBundle.TwinsAreExplained`); it accepts no other repetition (`TreeCodec.TwinsAreFileAndDirectory`).
- An empty packet can be framed but refuses the whole report it is in (`Report.FrameReadsIff`), and a report about no
  refs can pass as accepted and as refused (`Report.NoRefsAreAmbiguous`), which happens for no other list of refs
  (`Report.AmbiguousIff`).

## Model

| member | source | states |
|---|---|---|
| `Prefix.PrefixParser.Consume` | scripts/e2e/continuous_git_proxy.py:41-93 | the mutable parser returns the released bytes and ends in the state of the functional parser `Feed`; `None` is exactly a failed requirement |
| `Prefix.PrefixParser.Turn` | scripts/e2e/continuous_git_proxy.py:45-92 | one turn waits, raises or releases exactly as `Advance` decides, and changes nothing when it waits |
| `Prefix.PrefixParser.TakePacket` | scripts/e2e/continuous_git_proxy.py:71-92 | a whole packet is checked, counted and recorded as `AcceptPacket` says |
| `Prefix.PrefixParser.constructor` | scripts/e2e/continuous_git_proxy.py:34-39 | the starting state, with the greeting only for a raw stream |
| `Prefix.Feed` | scripts/e2e/continuous_git_proxy.py:41-93 | no byte is lost or invented: what was released followed by what is pending is the old pending followed by the input |
| `PrefixProperties.AdvanceStable` | scripts/e2e/continuous_git_proxy.py:45-93 | a turn that decided anything decides the same when more input follows, and leaves that input behind its own |
| `PrefixProperties.FeedSplit` | scripts/e2e/continuous_git_proxy.py:41-93 | feeding two blocks at once is feeding them in turn: same failure, same state, same concatenated output |
| `PrefixProperties.FragmentationInvariance` | scripts/e2e/continuous_git_proxy.py:41-93 | for every split of every input into any number of blocks, piecewise feeding equals one-shot feeding |
| `PrefixProperties.DrainQuiesces` | scripts/e2e/continuous_git_proxy.py:45-60 | after a call the parser has nothing left that it could do |
| `PrefixProperties.HeldRetains` | scripts/e2e/continuous_git_proxy.py:42-45 | a held parser releases nothing more and keeps everything |
| `PrefixProperties.ReleasedSections` | scripts/e2e/continuous_git_proxy.py:58-93 | for every input, what was released is greeting, first command, second command, flush and PACK header, in that order and as far as it got |
| `PrefixProperties.CompleteIsHeld` | scripts/e2e/continuous_git_proxy.py:47-93 | every well-formed prefix, whatever follows it, is released exactly, recorded and held, with the rest pending |
| `PrefixPushes.PushIsHeld` | scripts/e2e/continuous_git_proxy.py:47-93 | every push of two named branch updates and a pack, spelled as Git spells it and followed by anything, is held with exactly its two refs recorded in order and exactly its object count |
| `PrefixPushes.CommandIsSpelled` | scripts/e2e/continuous_git_proxy.py:71-92 | an accepted command is old, new and a branch name, and its recorded ref is that name |
| `PrefixPushes.PackStarts` | scripts/e2e/continuous_git_proxy.py:47-57 | a PACK header is taken if and only if its version is 2 or 3 and it announces an object |
| `PrefixPushes.FirstIsCommand` | scripts/e2e/continuous_git_proxy.py:71-92 | the first command is taken if and only if it names an ASCII branch and asks for an atomic push with a report |
| `PrefixPushes.SecondIsCommand` | scripts/e2e/continuous_git_proxy.py:71-92 | a later command is taken if and only if it names an ASCII branch |
| `PrefixProperties.HeldExactly` | scripts/e2e/continuous_git_proxy.py:41-93 | an input ends held if and only if it begins with a complete prefix of the grammar |
| `PrefixProperties.LimitNeverFails` | scripts/e2e/continuous_git_proxy.py:24-25 | on every input, failing ones included, the parser does exactly what it would do without the 4 MiB requirement |
| `Relay.RelayLoop.Pump` | scripts/e2e/continuous_git_proxy.py:122-178 | the loop over mutable buffers and flags, under every schedule of readiness, short reads, short writes and release time, computes `Run`: raised, still running or returned, with exactly that state |
| `Relay.RelayLoop.Before` | scripts/e2e/continuous_git_proxy.py:124-147 | mark, release and half close, in that order, before waiting; marking without any server byte is the raised error |
| `Relay.RelayLoop.After` | scripts/e2e/continuous_git_proxy.py:148-177 | reads then writes, with write readiness decided before the reads |
| `RelayProperties.IterateInv` | scripts/e2e/continuous_git_proxy.py:122-178 | every iteration keeps the invariant tying both streams, both buffers, the parser and the flags |
| `RelayProperties.ReachedInv` | scripts/e2e/continuous_git_proxy.py:122-178 | the invariant holds in every state any schedule reaches |
| `RelayProperties.NothingPastTheHeader` | scripts/e2e/continuous_git_proxy.py:122-178 | in every reachable state, before release the server has got at most the prefix up to its PACK header, and the prefix is only marked after the server has spoken; that only the release opens the barrier is `RelayRelease.OnlyTheReleaseOpens` |
| `RelayRelease.OnlyTheReleaseOpens` | scripts/e2e/continuous_git_proxy.py:137-140 | in every schedule, a released relay has a turn at which the release was seen with the prefix marked |
| `RelayRelease.NothingWithoutRelease` | scripts/e2e/continuous_git_proxy.py:137-178 | over a schedule in which the release is never seen the relay is never released, the server gets only released sections of the prefix, and the rest is still pending |
| `RelayRelease.EagerProgress` | scripts/e2e/continuous_git_proxy.py:122-178 | a turn that serves every ready side always moves something in each direction, until that direction is closed: the loop cannot spin |
| `RelayRelease.EagerDelivers` | scripts/e2e/continuous_git_proxy.py:122-181 | under eager turns the loop ends within twice the length of the server stream and one turn, and while it runs the server has the whole client stream after twice its length and four turns |
| `RelayProperties.CloseIsComplete` | scripts/e2e/continuous_git_proxy.py:141-147 | the server never gets anything but a prefix of the client's stream, and when its input is closed it has all of it |
| `RelayProperties.ReturnIsComplete` | scripts/e2e/continuous_git_proxy.py:122-181 | a normal return has delivered the server's whole stream, after mark and release |
| `RelayProperties.BuffersAreBounded` | scripts/e2e/continuous_git_proxy.py:148-177 | in every reachable state the buffers hold at most 81919, 147438 and 81903 bytes |
| `ShallowWork.Work.Tick` | crates/fgit-node/src/upload_visibility/shallow.rs:68-74 | polls the deadline, then charges one unit; which of the two refuses |
| `ShallowWork.Work.Insert` | crates/fgit-node/src/upload_visibility/shallow.rs:84-95 | grows a set by one within the entry bound; a refusal has a cause in the ledger |
| `ShallowDepth.Enqueue` | crates/fgit-node/src/upload_visibility/shallow.rs:237-259 | keeps the smaller depth and replaces a pending entry, within the ledger |
| `ShallowExplore.Explore` | crates/fgit-node/src/upload_visibility/shallow.rs:155-197 | the exploration in ascending depth settles each object once and meets the closed description `IsExploration`; a refusal that is not the ledger's has its cause at the end of a line of history the rule lets it follow |
| `ShallowBall.ExploredIsFit` | crates/fgit-node/src/upload_visibility/shallow.rs:155-197 | the converse: after a successful exploration no followed line ends outside the graph or at a tag without exactly one target |
| `ShallowBall.ExplorationMeaning` | crates/fgit-node/src/upload_visibility/shallow.rs:155-197 | visited objects are exactly those some line of history allows, boundaries exactly the rim, and recorded depths are shortest |
| `ShallowBall.RecordedIsShortest` | crates/fgit-node/src/upload_visibility/shallow.rs:237-259 | no line of history reaches an object at a smaller depth than the one recorded |
| `ShallowRelative.Nearest` | crates/fgit-node/src/upload_visibility/shallow/relative.rs:35-72 | the generation of the nearest client boundary over all lines of history, or zero when none is reachable; a refusal that is not the ledger's has its cause on a line short of every boundary |
| `ShallowRelative.EffectiveDepth` | crates/fgit-node/src/upload_visibility/shallow/relative.rs:9-78 | the absolute depth a relative request means; a refusal is the ledger's, a malformed request, a sum past the largest depth, or a defect met on the way to the nearest boundary |
| `ShallowRelative.RelativeCrossesNearest` | crates/fgit-node/src/upload_visibility/shallow/relative.rs:9-78 | a relative deepening always goes past a nearest boundary: it is visited and no longer on the rim |
| `ShallowCutoffs.CommitRoot` | crates/fgit-node/src/upload_visibility/shallow/cutoffs.rs:45-67 | peels tags to the one commit they name; a refusal means a missing object, or tags that never end at anything else |
| `ShallowCutoffs.PeelUnique` | crates/fgit-node/src/upload_visibility/shallow/cutoffs.rs:45-67 | what an identity peels to is unique |
| `ShallowCutoffs.GatherAncestry` | crates/fgit-node/src/upload_visibility/shallow/cutoffs.rs:87-111 | exactly the ancestry of the roots; a refusal means some ancestor is missing or not a commit |
| `ShallowCutoffs.Gather` | crates/fgit-node/src/upload_visibility/shallow/cutoffs.rs:112-145 | exactly the commits reachable through admitted commits; a refusal names the obstacle it met |
| `ShallowHistory.CutBoundaries` | crates/fgit-node/src/upload_visibility/shallow/cutoffs.rs:151-164 | boundaries are exactly the included commits with some parent outside |
| `ShallowHistory.CutoffHistory` | crates/fgit-node/src/upload_visibility/shallow/cutoffs.rs:69-195 | membership, boundaries and update of a time or ref cutoff; every refusal has a named cause |
| `ShallowHistory.DepthHistory` | crates/fgit-node/src/upload_visibility/shallow.rs:154-235 | the announced set is exactly the edge, the kept and removed boundaries are exactly as the walk found them; what they are in terms of depth and of the whole graph is stated by `ShallowUpdates.FiniteUpdate` and `ShallowUpdates.InfiniteUpdate` |
| `ShallowUpdates.FiniteUpdate` | crates/fgit-node/src/upload_visibility/shallow.rs:199-235 | at a finite depth a client boundary is removed if and only if it lies above the depth, and a commit is announced if and only if it lies on the edge |
| `ShallowUpdates.InfiniteUpdate` | tools/shallow-finish.py:6-41 | at infinite depth every boundary the server knows is removed, visited or not, nothing is announced, and the client is left with none of them |
| `ShallowUpdates.InfiniteIsUncut` | tools/shallow-finish.py:6-41 | after it the client store is closed under parents with no boundary to excuse a gap |
| `ShallowUpdates.CutoffUpdate` | crates/fgit-node/src/upload_visibility/shallow/cutoffs.rs:112-195 | under time and ref cutoffs a commit is announced if and only if a path inside the cutoff leads to it and not to some parent, and a client boundary is removed if and only if one leads to it and to all its parents |
| `ShallowUpdates.SelectionIsNew` | crates/fgit-node/src/upload_visibility/shallow.rs:317-370 | a client that holds no more than its haves lead to, above its own boundaries, is sent nothing it already holds |
| `ShallowHistory.ComputeHistory` | crates/fgit-node/src/upload_visibility/shallow.rs:117-235 | the whole history computation meets its declarative description; each refusal is one of the listed defects, and a budget refusal means the ledger refused or a depth does not fit |
| `ShallowWalk.Walk` | crates/fgit-node/src/upload_visibility/shallow.rs:264-300 | the clipped traversal returns exactly the objects reachable when boundary commits lose their parents; a refusal means one of them is missing |
| `ShallowSelect.Select` | crates/fgit-node/src/upload_visibility/shallow.rs:317-370 | the transfer is exactly desired minus known, in order, with all refusals justified |
| `ShallowSelect.KnownIsHeld` | tools/shallow-work.py:106-109 | everything subtracted as common history is really in the client's store |
| `ShallowSelect.NoHoles` | tools/shallow-finish.py:6-41 | for every graph, request and client store closed except at parents of its boundaries: after storing the transfer and applying the update it is closed except at parents of its new boundaries, and holds every want |
| `ShallowSelect.ReachableIsHeld` | tools/shallow-work.py:111-116 | everything reachable from the wants above the new boundaries is then held |
| `ShallowTheorems.ClippedWalkIsBall` | tools/shallow-work.py:99-104 | walking from the wants and stopping at the rim visits exactly the ball of the depth rule |
| `ShallowTheorems.RemovedParentsAddNothing` | tools/shallow-finish.py:18-41 | for a finite depth, the parents added for removed boundaries never enlarge the selection |
| `ShallowTheorems.CutoffIsRespectedExactly` | crates/fgit-node/src/upload_visibility/shallow/cutoffs.rs:112-164 | a cutoff selection contains only included commits if and only if every wanted root passes the cutoff's own admission test |
| `ShallowTheorems.OldWantEscapesCutoff` | crates/fgit-node/src/upload_visibility/shallow/cutoffs.rs:112-164 | an input where it does not: an old wanted tip beside a recent one is selected |
| `ShallowOrder.HistoryIsOrderFree` | crates/fgit-node/src/upload_visibility/shallow.rs:117-235 | requests that name the same things get the same boundaries and update, however they list or repeat them |
| `ShallowOrder.SelectionIsOrderFree` | crates/fgit-node/src/upload_visibility/shallow.rs:317-370 | and the same transfer in the same order |
| `ShallowResponse.Respond` | crates/fgit-wire/src/shallow_response.rs:27-125 | exactly which responses are framed and which are refused, with each limit |
| `ShallowResponse.HistoryIsAccepted` | crates/fgit-wire/src/shallow_response.rs:41-74 | every update the history computation produces passes the framing's own checks |
| `ShallowResponse.FrameRoundTrip` | crates/fgit-wire/src/shallow_response.rs:75-125 | a client reading the frame gets back exactly the update, in every protocol version |
| `Fold.FoldIntents` | crates/fgit-reference/src/effect.rs:272-334 | the one-pass fold with its in-place retirement computes `Folding` |
| `Fold.RetireAbsorbed` | crates/fgit-reference/src/effect.rs:480-511 | each provisional survivor, in place, becomes what the difference and the last writers decide |
| `FoldLaws.ApplyIsLocal` | crates/fgit-reference/src/effect.rs:338-425 | an intent moves its own cell and no other |
| `FoldLaws.FoldCarriesBasis` | crates/fgit-reference/src/effect.rs:428-466 | applying the net effects to the basis never exhausts a stream and gives exactly the state the intents reached in order |
| `IntentAddresses.AddressesAreTrue` | crates/fgit-reference/src/intent.rs:850-870 | a listed intent stands at its address, and addresses rise: none is listed twice |
| `IntentAddresses.EveryIntentIsAddressed` | crates/fgit-reference/src/intent.rs:850-870 | every intent of every statement is listed at its address |
| `FoldLaws.RefMismatchIff` | crates/fgit-reference/src/refs.rs:50-76 | a ref intent mismatches exactly when it expects absence of a ref that is there, or another value than it has |
| `FoldReports.AbortIsPlaced` | crates/fgit-reference/src/effect.rs:307-323 | an abort names the first aborting intent that mismatches, with its code |
| `FoldReports.SurvivesIff` | crates/fgit-reference/src/effect.rs:480-511 | an intent survives exactly when it changed its cell where it stood, the cell ends different from the basis, and, streams apart, no later intent changed it |
| `FoldReports.ReportIsVerdicts` | crates/fgit-reference/src/effect.rs:272-511 | every line of a report is the verdict those cells dictate: surviving, overwritten, cancelled out, without effect, tolerated or failed |
| `FoldReports.FoldValidates` | crates/fgit-txn/src/lib.rs:329-376 | every fold passes the production evaluator's report check |
| `FoldReports.EventsAreConserved` | crates/fgit-reference/src/effect.rs:428-466 | no event is lost, invented or reordered between surviving intents and effects |
| `FoldReports.FoldIsLocal` | crates/fgit-txn/src/sparse.rs:54-101 | bases that agree on the named cells give the same report, effects and all |
| `FoldReports.SelectBasis` | crates/fgit-txn/src/sparse.rs:54-101 | the gathered part agrees with the whole basis on every named cell and adds nothing |
| `FoldReports.FoldSparsely` | crates/fgit-txn/src/sparse.rs:54-101 | folding over the gathered part is folding over the whole basis |
| `Ancestry.ReachableIn` | crates/fgit-reference/src/transition.rs:592-613 | the stack walk answers exactly whether a line of parents leads to the candidate, also on cyclic claims |
| `EvaluationLaws.JudgeIffLawful` | crates/fgit-reference/src/transition.rs:422-516 | policy passes a case if and only if every ref change, event and retention change is lawful, in terms of the capability scopes of the names; what a scope is, and lawfulness without the code's own tests, is stated by `EvaluationScopes.ScopeIsNamespace` and `EvaluationScopes.LawfulByName` |
| `EvaluationScopes.ScopeIsNamespace` | crates/fgit-reference/src/refs.rs:30-48 | the scope of `refs/x/rest` is `x`, for every x without a slash and every rest |
| `EvaluationScopes.OutsideHasNoScope` | crates/fgit-reference/src/refs.rs:30-48 | a name outside `refs/` has no scope |
| `EvaluationScopes.LawfulByName` | crates/fgit-reference/src/transition.rs:422-516 | a change of a ref in a namespace is lawful if and only if the principal holds the namespace and it is a fast-forward, or the namespace is not protected and it is a deletion or a forced rewind the principal may make |
| `EvaluationScopes.CreationCommitsIff` | crates/fgit-reference/src/transition.rs:307-516 | an admissible request that only creates one ref commits if and only if the principal holds the ref's namespace |
| `EvaluationScopes.DeletionCommitsIff` | crates/fgit-reference/src/transition.rs:307-516 | an admissible request that only deletes one ref commits if and only if the principal holds its namespace and the namespace is not protected |
| `EvaluationScopes.UpdateCommitsIff` | crates/fgit-reference/src/transition.rs:422-516 | an admissible request that only moves one ref commits if and only if the principal holds its namespace and the new object descends from the old one, or the move is forced, the principal may force, and the namespace is not protected |
| `EvaluationScopes.ScreenPassesIff` | crates/fgit-reference/src/transition.rs:307-400 | the checks before the fold pass if and only if all seven conditions hold |
| `EvaluationScopes.CommitIsAdmissible` | crates/fgit-reference/src/transition.rs:307-400 | whatever commits was admissible: schema, budget, durability, names, formats, verified uploads and a complete closure |
| `EvaluationScopes.FirstFailureIsTold` | crates/fgit-reference/src/transition.rs:307-400 | a request that fails some of the checks is refused with the code of the first of them |
| `EvaluationScopes.ConclusionIsReported` | crates/fgit-reference/src/transition.rs:380-420 | once the checks pass there is one line per intent at its address, whatever the verdict, and an abort aborts every line |
| `EvaluationScopes.RefProblemSays` | crates/fgit-reference/src/transition.rs:422-516 | each refusal code of a ref change is given exactly for the rule it names |
| `EvaluationScopes.JudgeTellsRef` | crates/fgit-reference/src/transition.rs:422-465 | an unlawful ref is told before anything else, and of several the one whose name comes first |
| `EvaluationScopes.JudgeTellsRest` | crates/fgit-reference/src/transition.rs:466-516 | then the right to publish events, then merges, with holds last |
| `EvaluationScopes.StrangerChangesLittle` | crates/fgit-reference/src/transition.rs:422-516 | a principal the policy does not know commits no ref change, no event and no hold |
| `EvaluationLaws.CommitsIff` | crates/fgit-reference/src/transition.rs:307-413 | a request commits exactly when it passes the screen, no aborting statement mismatches and its difference is lawful |
| `EvaluationLaws.CommitIsCovered` | crates/fgit-reference/src/transition.rs:556-585 | every object a committed effect makes reachable is in the closure, and the closure is available |
| `EvaluationLaws.ReadsHoldIff` | crates/fgit-reference/src/capsule.rs:114-141 | a refined witness holds if and only if every cell the request named or observed is unchanged |
| `EvaluationLaws.WitnessIsSound` | crates/fgit-reference/src/capsule.rs:89-112 | a reusable witness means that preparing again under the same evidence would conclude the same |
| `EvaluationLaws.EvaluateIsLocal` | crates/fgit-reference/src/transition.rs:307-413 | a conclusion depends only on the named cells |
| `MachineInvariant.GenesisInv` | crates/fgit-reference/src/state.rs:690-734 | the invariant of published history holds at the start |
| `MachineInvariant.SealInv` | crates/fgit-reference/src/transition.rs:112-175 | sealing keeps it |
| `MachineInvariant.PrepareInv` | crates/fgit-reference/src/transition.rs:235-285 | preparing keeps it |
| `MachineInvariant.CancelInv` | crates/fgit-reference/src/machine.rs:225-257 | cancelling at any phase keeps it |
| `MachineInvariant.ConfigureInv` | crates/fgit-reference/src/transition.rs:1161-1217 | publishing a new policy keeps it |
| `MachineStaging.StageInv` | crates/fgit-reference/src/transition.rs:902-1035 | staging keeps it: a candidate head continues its predecessor, decision by decision |
| `MachineStaging.PublishInv` | crates/fgit-reference/src/transition.rs:1293-1384 | publication keeps the whole invariant; that it happens only with the durability its capsules asked for is stated by `MachineDurability.SwapIsByDurability` |
| `MachineDurability.PublishedIsDurable` | crates/fgit-reference/src/state.rs:505-519 | in every run, a published batch of which some capsule asked for canonical durability was staged with it satisfied |
| `MachineDurability.SwapIsByDurability` | crates/fgit-reference/src/transition.rs:1293-1384 | in every run, a swap of a current staged batch publishes it if and only if no capsule of it asked for canonical durability or that durability is there, and otherwise changes nothing |
| `MachineDurability.BatchIsSelected` | crates/fgit-reference/src/transition.rs:1053-1088 | in every run a published batch describes the step to the head that selects it: predecessor, generation, resulting roots, epoch and number of decisions |
| `MachineDurability.CapsuleAsks` | crates/fgit-reference/src/transition.rs:235-296 | in every run a capsule carries the transaction, digest, durability and granularity of a request that was prepared under its identity |
| `MachineLedger.BindKeepsInverse` | crates/fgit-reference/src/transition.rs:112-195 | transactions and their inputs determine each other after every binding that is let through |
| `MachineLedger.FilesAgree` | crates/fgit-reference/src/transition.rs:112-296 | in every run transactions and inputs determine each other, every seal is bound under its own inputs with an identity of its own, and every capsule names the seal of its transaction |
| `MachineLedger.QuarantineIsSealed` | crates/fgit-reference/src/transition.rs:197-233 | in every run only sealed transactions have a quarantine |
| `MachineLedger.TailIsLast` | crates/fgit-reference/src/transition.rs:1053-1384 | in every run the head names the batch published last, through any number of configurations: the published decisions end with its decisions and the roots are its roots |
| `MachineLedger.OutdatedIsLost` | crates/fgit-reference/src/transition.rs:1293-1330 | a swap or configuration that does not expect exactly the current head and generation learns them and changes nothing |
| `MachineLedger.StageAccountsForAll` | crates/fgit-reference/src/transition.rs:902-1035 | staging loses no capsule and invents none: the transactions decided and those sent back are, counted, those of the listed capsules |
| `MachineTheorems.TransitionChange` | crates/fgit-reference/src/machine.rs:147-210 | every input, accepted or refused, is one of the listed changes |
| `MachineTheorems.ReachableInv` | crates/fgit-reference/src/machine.rs:147-210 | the invariant holds after every run of every inputs |
| `MachineTheorems.HistoryReplays` | crates/fgit-reference/src/state.rs:948-984 | replaying all decisions and records from the empty repository, checking numbers, parents and roots, gives exactly the current head |
| `MachineTheorems.DecisionsAreIndexed` | crates/fgit-reference/src/state.rs:991-1017 | decisions are numbered from 1 without gaps, at most one per transaction, and the outcome index is exactly them |
| `MachineTheorems.CommitsAreLinked` | crates/fgit-reference/src/state.rs:991-1017 | records are numbered from 1 without gaps and linked parent to child up to the head |
| `MachineSerial.CommitsAreSerial` | README.md:747-770 | for each record some input of the run prepared the very request sealed under its transaction, and evaluating it at the state the earlier records produce, with the objects and the policy that preparation found, concludes with exactly this record |
| `MachineSerial.CommitsAreLawful` | README.md:736-746 | every record was lawful where it took effect, for the capabilities, protection, force permissions and ancestry its own preparation saw |
| `MachineRuns.RunExtends` | README.md:749-758 | however a run goes on, published history stays a prefix and every terminal outcome stands |
| `MachineRuns.HeadsAreOneLine` | crates/fgit-reference/src/state.rs:948-984 | every head ever published lies on the current head's line, back to the only one without predecessor |
| `MachineRuns.HeadsAreSnapshots` | crates/fgit-reference/src/state.rs:948-984 | each published head holds exactly the state its own share of the log replays to |
| `MachineRuns.BoundKeySealsNothing` | crates/fgit-reference/src/transition.rs:112-175 | under a bound key no request seals anything again |
| `MachineRuns.KeyReuseIsRejected` | README.md:749-751 | a key reused with another digest is rejected and changes nothing, after any further run |
| `MachineRuns.RetryIffSchemaSupported` | crates/fgit-reference/src/transition.rs:112-175 | an exact retry is recognised if and only if the current policy still supports its schema |
| `MachineLimits.RetryIsTurnedAway` | crates/fgit-reference/src/transition.rs:112-175 | a run of two inputs after which an exact retry is turned away |
| `MachineRuns.KeyHasOneOutcome` | README.md:749-758 | however a run goes on, one idempotency key has at most one terminal outcome |
| `MachineRuns.CancelProvesNothing` | crates/fgit-reference/src/machine.rs:225-257 | cancelling at any phase changes no head, seal, staged batch or decision, and every later swap ends as it would have |
| `MachineRuns.CancelDropsCapsules` | crates/fgit-reference/src/machine.rs:225-257 | cancelling between seal and swap drops exactly the capsules of that transaction, and at any other time drops none |
| `MachineLimits.StaleIsSentBackIff` | crates/fgit-reference/src/transition.rs:768-816 | a stale capsule of an undecided transaction is sent back if and only if fewer than four preparations were made, and refused for good otherwise |
| `MachineLimits.FourthPreparationIsRefused` | crates/fgit-reference/src/transition.rs:682-692 | for every number of preparations, the run that makes them and then publishes a new policy: up to three leave a retry, the fourth costs the transaction |
| `MachineOrder.StageIsOrderFree` | crates/fgit-reference/src/transition.rs:886-1035 | two listings of the same capsules stage the same batch whenever, of any two for one transaction, one refuses or is dead on this head, the budget is spent, or they are alike; so always with one per transaction |
| `MachineOrder.PairMattersIff` | crates/fgit-reference/src/transition.rs:886-1035 | the order of two committing capsules of one open transaction matters if and only if one makes the other fresh again or they are fresh rivals |
| `MachineRevival.RevivedStage` | crates/fgit-reference/src/transition.rs:886-1035 | in every state where one capsule revives another of its transaction, one order stages a batch and the other breaches |
| `MachineRevival.ListingOrderMatters` | crates/fgit-reference/src/transition.rs:889-892 | a run of eight inputs to such a state: the two orders of one listing disagree |
| `MachineGroups.OneBatchIsManyRounds` | README.md:583-594 | for every state and listing of capsules for different transactions, none resting on the head's generation: staging all and swapping once leaves the refs, streams, roots, outcomes, decisions, records, objects and open capsules that one stage and swap per capsule leaves |
| `MachineGroups.CoarseIsLeftBehind` | crates/fgit-reference/src/capsule.rs:89-112 | a capsule that does rest on the generation and commits in a batch behind another decision does not commit in a round of its own |
| `MachineOrder.CommitNeverExhausts` | crates/fgit-reference/src/transition.rs:1090-1132 | a decidable commit always applies: the stream-exhaustion breach of staging cannot occur |
| `MachineQuarantine.PublishProtectsIff` | crates/fgit-reference/src/transition.rs:1386-1402 | a publication leaves its roots backed if and only if each named object is admitted already or still verified in the quarantine of a record of the batch |
| `MachineQuarantine.TameRunNeverEscapes` | crates/fgit-reference/src/state.rs:933-940 | when no upload replaces a verified object with an unverified one, published refs and holds only ever name admitted objects |
| `MachineEscape.EscapeHappens` | crates/fgit-reference/src/transition.rs:197-212 | a run of six accepted inputs after which a ref names an object that is not in the store |
| `Receive.BuildsIff` | crates/fgit-authority/src/request.rs:338-393 | a request is built if and only if no name repeats |
| `Receive.BuildIsOrderFree` | crates/fgit-authority/src/request.rs:338-393 | any two listings of the same commands build the same request, or both none |
| `Receive.MovedTo` | scripts/e2e/branch_transaction_smoke.py:54-86 | every named ref ends at its own new value |
| `Receive.AtomicAllOrNone` | crates/fgit-admission/src/lib.rs:3510-3602 | all or none: if every old value holds, exactly the named refs move; otherwise nothing does and the mismatch is reported |
| `MachineReceive.AtomicReceive` | crates/fgit-admission/src/lib.rs:3510-3550 | in every run, a decided atomic receive has exactly one decision; a commit found every named ref at its old value and left each at its new one, moving nothing else; a refusal left no record |
| `MachineReceive.ReceiveFastForwards` | crates/fgit-admission/src/lib.rs:3563-3602 | a receive never forces: where it moves an existing ref, the old object is an ancestor of the new one |
| `Microbatch.AdmitNonAtomic` | crates/fgit-admission/src/microbatch.rs:547-736 | under every schedule of other writers and peers: the shared history stays serial, no command is decided twice, results come in wire order; it fails only if others came between read and swap in every attempt it may make, and left alone it publishes exactly the one-at-a-time history |
| `Microbatch.Evaluate` | crates/fgit-admission/src/microbatch.rs:163-250 | a group's open commands in wire order on the working refs extend the history by exactly the decisions each would get alone at its place |
| `Microbatch.Remember` | crates/fgit-admission/src/microbatch.rs:298-309 | remembers one outcome and exposes exactly the longest resolved prefix |
| `Microbatch.SerialMeaning` | README.md:583-594 | in a serial history a command is accepted exactly when nothing guards against it and its old value holds just then, and moves its own ref or nothing |
| `BatchCodec.PayloadIsShort` | crates/fgit-codec/src/schema.rs:298-366 | the canonical bytes of a batch are at most 681 and 1454 more per decision |
| `BatchCodec.GroupFits` | crates/fgit-admission/src/microbatch.rs:255-274 | every batch of at most 64 decisions fits 1 MiB, so the size refusal never ends a session |
| `BatchReading.EncodingIsInjective` | crates/fgit-codec/src/schema.rs:298-366 | two batches have the same canonical bytes only when they are the same batch, so a digest of the bytes is a digest of the batch |
| `Microbatch.DecideIff` | crates/fgit-admission/src/microbatch.rs:163-232 | unless guarded, a command is accepted exactly when its old value holds |
| `IssueLabels.BinarySearch` | crates/fgit-forge/src/event/issue.rs:541-554 | finds a label, or the one place where it belongs |
| `IssueLabels.AddLabels` | crates/fgit-forge/src/event/issue.rs:541-554 | the sorted union, refused exactly when it would pass 32 labels |
| `IssueLabelsLaws.RunIsBounded` | crates/fgit-forge/src/event/issue.rs:284-296 | in every run the issue holds at most 32 labels |
| `IssueLabelsLaws.VersionCountsCommits` | scripts/e2e/issue_labels_smoke.py:189-224 | the version grows by one exactly when a request newly commits, and refusals and retries change nothing |
| `IssueLabelsLaws.DecidedStaysDecided` | scripts/e2e/issue_labels_smoke.py:251-259 | a decided request answers the same after anything, adding nothing: a refusal stays refused once there is room |
| `IssueLabelsLaws.KeyIsBound` | scripts/e2e/issue_labels_smoke.py:217-218 | a key bound to one request rejects every other for good |
| `IssueLabelsLaws.AdditionsCommitIff` | scripts/e2e/issue_labels_smoke.py:226-238 | additions all commit if and only if their union with the current labels fits the bound |
| `IssueLabelsLaws.AdditionsCommute` | scripts/e2e/issue_labels_smoke.py:175-196 | additions that all commit in one order do so in any, and end at the same labels and version |
| `IssueLabelsLaws.OverlapCommits` | scripts/e2e/issue_labels_smoke.py:239-243 | labels already there commit even at the bound, with a version of their own |
| `IssueVersions.RunHasVersions` | crates/fgit-forge/src/event/issue.rs:436-480 | in every run each version of an issue was made by exactly one request, and a request that names a version made the very next one: no update is lost |
| `IssueVersions.StaleIsRefused` | crates/fgit-forge/src/event/issue.rs:478-480 | a new request that expects another version than the current one is refused as stale and changes nothing |
| `IssueVersions.EditReplaces` | crates/fgit-forge/src/event/issue.rs:485-495 | an edit replaces exactly the fields it names and keeps the others |
| `IssueVersions.LifecycleIff` | crates/fgit-forge/src/event/issue.rs:496-520 | close and reopen, lock and unlock alternate, a locked issue takes no comments, and nothing else moves |
| `IssueVersions.CurrentIsApplied` | crates/fgit-forge/src/event/issue.rs:436-556 | a new request that expects the current version is decided by its action alone |
| `SizeHeader.EncodeLookingAhead` | scripts/e2e/candidate_approval_publication_smoke.py:34-40 | this loop shape emits the header of kind and size |
| `SizeHeader.EncodeHoldingBack` | scripts/e2e/candidate_review_smoke.py:74-81 | the other loop shape emits the same bytes |
| `SizeHeader.HeaderRoundTrip` | scripts/e2e/commit_replay_smoke.py:94-101 | a header reads back as its kind and size and stops at its own end, whatever follows |
| `SizeHeader.DecodeBelow64` | scripts/e2e/commit_replay_smoke.py:130-135 | the decoder that checks the shift first accepts exactly headers of at most ten bytes |
| `SizeHeader.DecodeAtMost67` | scripts/e2e/initial_commit_smoke.py:28-36 | the decoder that checks the shift last accepts exactly the same |
| `SizeHeader.DecodeUnbounded` | scripts/e2e/full_bundle_smoke.py:36-43 | the decoder without a check reads every header |
| `SizeHeader.BoundIsTwoToThe67` | scripts/e2e/initial_commit_smoke.py:28-36 | the bounded decoders invert the encoders exactly on sizes below 2 to the 67 |
| `OfsDistance.EncodeDistance` | scripts/e2e/candidate_review_smoke.py:84-92 | the loop that collects and reverses emits the distance code |
| `OfsDistance.OfsRoundTrip` | scripts/e2e/candidate_review_smoke.py:84-92 | every distance decodes under add-one-and-shift, whatever follows, and ends at the first byte without the high bit |
| `OfsDistance.OfsInjective` | scripts/e2e/candidate_review_smoke.py:84-92 | distinct distances have distinct codes |
| `OfsDistance.ReadIsCanonical` | scripts/e2e/candidate_review_smoke.py:84-92 | the bytes read are the one encoding of the distance |
| `Zip.StoredIsZip` | scripts/e2e/merge_preparation_smoke.py:112-117 | stored blocks are a self-delimiting compression: what is assumed of zlib has an instance |
| `PackFile.SyntheticPack` | scripts/e2e/merge_preparation_smoke.py:129-143 | the writer's loop emits header, entries in order and digest |
| `PackFile.ReadObjects` | scripts/e2e/merge_preparation_smoke.py:98-123 | the reader's loop accepts exactly the counted entries filling the input, within the total, with no name twice |
| `PackFile.InspectPack` | scripts/e2e/merge_preparation_smoke.py:90-123 | trailer, magic, count bounds and entries, each refusal where it belongs |
| `PackLaws.AcceptedIsFit` | scripts/e2e/merge_preparation_smoke.py:90-123 | what is accepted holds as many entries as allowed, each of an allowed kind and size, within the total |
| `PackLaws.PreparationIsBounded` | scripts/e2e/merge_preparation_smoke.py:90-123 | a merge preparation accepts 1 to 10000 objects of the four plain kinds, together at most 32 MiB |
| `PackNames.NameIsDigest` | scripts/e2e/merge_preparation_smoke.py:29-30 | an object's name is the printed digest of its kind, length and body |
| `PackNames.PreimageIsInjective` | scripts/e2e/merge_preparation_smoke.py:29-30 | no two objects share that text, so names collide only where the hash does |
| `PackNames.HexReadsBack` | scripts/e2e/merge_preparation_smoke.py:29-30 | a printed digest is read back as its bytes |
| `PackNames.DecimalReadsBack` | scripts/e2e/merge_preparation_smoke.py:29-30 | a printed length is read back as its number |
| `PackLaws.EntryRoundTrip` | scripts/e2e/merge_preparation_smoke.py:98-118 | a written object reads back and the reader stops at its end |
| `PackLaws.PackRoundTrip` | scripts/e2e/merge_preparation_smoke.py:90-143 | a pack of objects with distinct names reads back as exactly those objects |
| `PackLaws.PackIsExact` | scripts/e2e/merge_preparation_smoke.py:90-123 | every accepted pack is header, whole entries and digest, with no byte between or after |
| `Bundle.InspectBundle` | scripts/e2e/merge_preparation_smoke.py:78-126 | the inspection of a bundle, header and pack together |
| `Bundle.AdvertisedIsExact` | scripts/e2e/merge_preparation_smoke.py:78-90 | exactly the prescribed lines advertise a candidate |
| `Bundle.BundleRoundTrip` | scripts/e2e/merge_preparation_smoke.py:78-143 | a bundle written from in-bounds objects with distinct names inspects as exactly that candidate and those objects |
| `Bundle.BundleIsExact` | scripts/e2e/merge_preparation_smoke.py:78-126 | every accepted bundle is the prescribed header, a blank line and an exact pack of its objects |
| `Bundle.RealReading` | scripts/e2e/merge_preparation_smoke.py:98-118 | over any self-delimiting compression the real reader meets what the round trips ask for |
| `Bundle.WrittenBundleIsInspected` | scripts/e2e/merge_preparation_smoke.py:78-143 | with the real reader and object names: a bundle written from objects of different names within the bounds inspects as exactly its candidate and objects |
| `Bundle.AcceptedBundleIsExact` | scripts/e2e/merge_preparation_smoke.py:78-126 | with the real reader and object names: every accepted bundle is the prescribed header, a blank line and an exact pack of the objects it returns |
| `TreeCodec.KeyOrderIsSpoken` | scripts/e2e/merge_preparation_smoke.py:33-37 | the terminator-appended key order is comparing names with directories read as ending in a slash |
| `TreeCodec.KeysDiffer` | scripts/e2e/initial_commit_smoke.py:53-71 | keys are equal exactly for the same name and the same kind |
| `TreeCodec.TreeRoundTrip` | scripts/e2e/merge_preparation_smoke.py:33-37 | a tree of distinct names reads back as the same rows, sorted, and passes the walker's order check |
| `TreeCodec.TwinsAreFileAndDirectory` | scripts/e2e/initial_commit_smoke.py:64-71 | a repeated name the walker accepts is a file and then a directory |
| `TreeCodec.TwinsPassTheWalker` | scripts/e2e/merge_preparation_smoke.py:33-37 | such twins, with any file mode, pass the walker's order check, and the writer refuses them |
| `InitialBundle.TwinsAreExplained` | scripts/e2e/initial_commit_smoke.py:46-74 | with Git's rules and either file mode, the decoder explains every store of one commit whose tree holds a file and a directory of one name, while the writer refuses that tree |
| `InitialBundle.Walker.Walk` | scripts/e2e/initial_commit_smoke.py:53-71 | the recursive walk over shared visited and file tables computes the functional tour |
| `InitialBundle.TourSees` | scripts/e2e/initial_commit_smoke.py:53-71 | a walk visits exactly what the tree reaches |
| `InitialBundle.Unpack` | scripts/e2e/initial_commit_smoke.py:17-74 | the whole decoder: contents of the bundle, then their explanation |
| `InitialBundle.AcceptedIsOneClosure` | scripts/e2e/initial_commit_smoke.py:46-74 | accepted objects are exactly those the advertised parentless commit reaches, no more and no fewer |
| `InitialBundle.AcceptedFilesAreExact` | scripts/e2e/initial_commit_smoke.py:53-74 | a path is in the file table exactly when some row below the commit's tree holds a file there, and its entry is the mode and contents of such a row |
| `InitialHeaders.LinesReadBack` | scripts/e2e/initial_commit_smoke.py:20 | lines without line ends, joined by line feeds, are read back as those lines |
| `InitialHeaders.ParentIff` | scripts/e2e/initial_commit_smoke.py:50 | a commit has a parent exactly when one of its header lines says so, whatever its message says |
| `InitialHeaders.ParentIsRefused` | scripts/e2e/initial_commit_smoke.py:49-50 | a bundle whose commit has a parent line is refused, whatever else it holds |
| `InitialHeaders.AcceptedHasNoParent` | scripts/e2e/initial_commit_smoke.py:49-51 | an accepted commit has no parent line, and its tree is the one its first line names |
| `InitialHeaders.AcceptedHasOneCommit` | scripts/e2e/initial_commit_smoke.py:48-49 | an accepted bundle holds one commit, the advertised one |
| `InitialHeaders.HeaderIff` | scripts/e2e/initial_commit_smoke.py:19-21 | a header is accepted if and only if it opens with the signature and exactly one line is neither signature nor capability, and that line advertises the commit |
| `Report.ReadReport` | scripts/e2e/existing_target_receive_smoke.py:86-99 | the parsing loop accepts packets up to a flush that must end the input, within 1 MiB |
| `Report.FrameReadsIff` | scripts/e2e/existing_target_receive_smoke.py:81-99 | framed bodies read back if and only if none is empty; an empty packet refuses the whole report |
| `Report.AcceptedIsFraming` | scripts/e2e/existing_target_receive_smoke.py:86-99 | every accepted report frames what it returns, up to the case of its length digits |
| `Report.AcceptedIffAcknowledged` | scripts/e2e/existing_target_receive_smoke.py:102-111 | a report passes as accepted exactly when its packets are the full acknowledgement: the unpack line, then one line per ref, in order |
| `Report.VerdictsExclude` | scripts/e2e/existing_target_receive_smoke.py:102-111 | for at least one ref no report passes as both accepted and refused |
| `Report.AmbiguousIff` | scripts/e2e/existing_target_receive_smoke.py:102-111 | some report passes as both if and only if there are no refs |
| `Report.RefusedIffReasoned` | scripts/e2e/existing_target_receive_smoke.py:102-111 | a report passes as refused if and only if it gives a status and, ref by ref, a reason |
| `Report.ReadIsBounded` | scripts/e2e/existing_target_receive_smoke.py:86-99 | a report that is read is at most 1 MiB long and frames exactly the packets returned |
| `Report.NoRefsAreAmbiguous` | scripts/e2e/existing_target_receive_smoke.py:102-111 | for no refs a report does |
| `LsRefs.UploadPack.Push` | crates/fgit-wire/src/lib.rs:2683-2833 | the handlers, each updating its own fields in place, refine the functional machine about which the laws below are proved; a refusal changes nothing and lets nothing out |
| `LsRefs.UploadPack.FinishLsRefs` | crates/fgit-wire/src/lib.rs:2963-3083 | answers and resets everything that belonged to the command |
| `LsRefs.BuildLines` | crates/fgit-wire/src/lib.rs:2963-3083 | the ref-by-ref output loop with its packet and byte budgets gives exactly the declared answer or refuses |
| `LsRefsLaws.RunIsTidy` | tools/shallow-publish-prepare.py:14-20 | in every run a machine at a command boundary holds nothing of earlier commands |
| `LsRefsLaws.HistoryIsForgotten` | tools/shallow-capability-reset-test.rs:3-20 | after any packets that end at a command boundary, everything later is exactly what a new machine would do and output |
| `LsRefsLaws.PrefixIsTakenIff` | tools/shallow-v2-ref-prefixes.rs:38-96 | one prefix is taken exactly while fewer than the limit were, repeats included |
| `LsRefsLaws.WholeBudget` | tools/shallow-v2-ref-prefixes.rs:38-96 | each command gets the whole prefix budget |
| `LsRefsLaws.ResponseListsMatching` | crates/fgit-wire/src/lib.rs:2963-3083 | a response is the unborn line, if any, then one line per matching ref in order; what a client reads from those lines is stated by `LsRefsClient.ResponseReadsBack` |
| `LsRefsClient.RefLineReadsBack` | crates/fgit-wire/src/lib.rs:2963-3083 | a client reading a ref line finds the identity, the name, the symref target and the peeled object, each where and only if it was asked for and exists |
| `LsRefsClient.ResponseReadsBack` | crates/fgit-wire/src/lib.rs:2963-3083 | a client reading a response learns exactly the matching refs, in order, and the unborn HEAD |
| `LsRefsClient.ArgumentsSet` | crates/fgit-wire/src/lib.rs:2749-2833 | each option is on if and only if it was, or its line is among those sent; no line leaves the argument section |
| `LsRefsClient.ArgumentsKeep` | crates/fgit-wire/src/lib.rs:2749-2833 | the prefixes held are the well-formed ones sent, in order, up to the limit |
| `LsRefsClient.AskedIsAnswered` | crates/fgit-wire/src/lib.rs:2683-3083 | from the lines a client sends to the items it reads: a flush that answers is read back as exactly what was asked for |
| `LsRefsClient.RunIsVetted` | crates/fgit-wire/src/lib.rs:2749-2800 | in every run the held capabilities were offered, are distinct and within the limit, and the format named is the repository's |
| `LsRefsClient.RunHoldsText` | crates/fgit-wire/src/lib.rs:2800-2833 | in every run the prefixes held are text without line ends or NUL, each within the length of a name, within the limit |
| `LsRefsClient.RunIsOffered` | crates/fgit-wire/src/lib.rs:2683-2748 | in every run a command is under way only if it was offered, and a stateless machine never ends on a flush |
| `LsRefsClient.ResponseFits` | crates/fgit-wire/src/lib.rs:2963-3083 | a response, its flush included, stays within the outbound budget, and each packet within its own |
| `LsRefsLaws.ListedOnce` | tools/shallow-v2-ref-prefixes.rs:38-96 | a ref is listed exactly when it is advertised and matches, and no name twice |
| `LsRefsLaws.PrefixesAreASet` | tools/shallow-v2-ref-prefixes.rs:38-96 | repeating or reordering prefixes changes nothing |

## Left out

- ShallowSelect.Select: the number of ledger units a request costs is not bounded, because only which checkpoint refuses is stated; allocation failure is not modelled.
- ShallowSelect.NoHoles: partial-clone filters and requested tag expansion, which run after selection, are not part of this model.
- ShallowResponse.Respond: a mixed-format object identity is not modelled, because identities of one graph have one format.
- MachineSerial.CommitsAreSerial: refusals are not claimed to be serial, because the machine decides a refusing capsule without revalidating it.
- MachineOrder.StageIsOrderFree: the condition on a whole listing is sufficient only; it is exact for two capsules (MachineOrder.PairMattersIff), because with more a later breach can hide an earlier difference.
- MachineGroups.OneBatchIsManyRounds: requires a durable batch listed in ascending transaction order and fresh labels for the rounds; the names of heads and batches, and the generation, differ.
- MachineReceive.AtomicReceive: requires that only the built request is prepared under its transaction, which the source ensures by deriving the transaction from the request's digest.
- ShallowHistory.CutoffHistory: its refusals are stated one way only: each has a named cause, but not every such cause is shown to be refused.
- MachineQuarantine.TameRunNeverEscapes: the run condition is sufficient only; the exact condition is stated per publication by PublishProtectsIff.
- Microbatch.AdmitNonAtomic: hidden refs, protection and materialisation are an arbitrary guard, and a publication by others sets the refs to anything; validation receipts, sealing, storage and crash recovery of a session are not modelled.
- BatchCodec.GroupFits: the batch bytes are modelled as values, not as the encoder's growing buffer; the decoder is not part of this model, and BatchReading says only that no two batches share their bytes.
- InitialBundle.Unpack: requires a rank that witnesses acyclic trees, because the recursive walk does not end without one; real hashes give one.
- Bundle.InspectBundle: only whether a bundle is refused is modelled, not which message is reported first; the same holds for PackFile.InspectPack, InitialBundle.Unpack and Report.ReadReport.
- LsRefs.UploadPack.Push: the fetch command, error kinds and byte-level fragmentation of the v2 machine are not part of this model.
- LsRefsClient.ResponseReadsBack: requires identities, names and targets without spaces and line ends, which the source's ref-name check guarantees; that check is a parameter here. The same holds for LsRefsClient.RefLineReadsBack and LsRefsClient.AskedIsAnswered.
- InitialHeaders.HeaderIff: stated for header lines that hold no carriage return, like InitialHeaders.ParentIff; with one, a line is split further as the source splits it, and only IsHeader and HasParent say how.
- IssueLabels.AddLabels: the grammar of label text, assignees, milestones and comments are not modelled, because they would only add easy members.
- Digest derivation, key derivation, principals' capability records beyond scopes, and receipts: opaque labels here.
- Storage backends, asynchronous drivers, HTTP, subprocesses, sockets, credentials and browser clients.
- Upload-pack wiring of shallow negotiation into the session (tools/shallow-apply.py), delta entries in packs, hunk reconstruction in candidate review.
- Merge-queue ordering, mirrors, backup and migration campaigns.
- Real SHA-1, SHA-256 and DEFLATE internals.
