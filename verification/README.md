# Verified model of the memory-contamination harness

The harness runs "memory baselines" over streams of tasks, logs every step, and aggregates the logs. This project
models the parts of it that carry state or combinatorics and proves what they are for. Each module is one file of
the same name; a module `XRuns` holds what is proved about whole runs of module `X`.

| area | modules |
|---|---|
| log validation and the exact-lineage cycle check | `Lineage`, `LineageValidation` |
| memory of the baselines | `Memory`, `Reflexion`, `DcRs` with `AliasCodec`, `Bot`, `FullHistory` |
| trial grid, replayed replies, repeated-failure labels | `Grid` with `GridOrder`, `Replay`, `FailureTracker` |
| crash-safe publication of the task-QA file | `Publication` |
| live-call budget | `CostGuard` |
| metric groups, paired degradation | `Grouping` with `GroupingCounts` |
| bootstrap interval and behaviour classification | `Intervals` |
| frozen task pool | `TaskPool` |
| import closure of an execution package | `ImportClosure` |
| shared vocabulary | `Common`, `Text`, `Sorting` |

Code that updates objects is modelled by classes whose methods are proved against a specification function or
relation of the old state (`Reflexion.RunTrial`, `DcRs.Step`, `Bot.Step`, `FullHistory.TrialStep`,
`Publication.AttemptLeaves`, `Grid.RunCells`, `Replay.Answer`); the properties are then proved about that
specification. Loops of the code are loops here.

What the outside world supplies is a parameter: model replies, verifier answers (including raising ones), token
counts, the JSON decoder, the answer parser, embedding search, content hashes, random draws, timestamps, the lengths
of partial writes and the moment of a crash. Amounts of money and metric values are exact reals. Entry ids that the
code draws with uuid4 are assumed fresh where a statement says so; no other collision assumption is made except where
a row names it.

## What does not hold, and when it does

- DC-RS trials from a state are all-or-nothing, whatever the replies, if and only if the state allows unparented
  strategies or cannot be read any more (`DcRsRuns.AllTrialsAtomicIff`). Otherwise the reply
  `<cheatsheet>x</cheatsheet>` makes the trial raise after both appends (`DcRsRuns.UnparentedTrialIsNotAtomic`), and
  from then on every trial raises (`DcRsRuns.UnreadableIsStuck`).
- A Reflexion write conserves the entries if and only if it does not evict, or the id of the oldest live entry occurs
  only once among the live entries and the new one (`ReflexionRuns.WriteConservesIff`). A configured, repeated entry id
  breaks this: at capacity 1 the trial raises and loses an entry (`ReflexionRuns.RepeatedIdBreaksTheTrial`); at
  capacity 2 the trial succeeds with both copies live and a later write under another id loses one silently
  (`ReflexionRuns.RepeatedIdStaysLive`, `ReflexionRuns.RepeatedIdLosesLater`).
- Reflexion labels all further writes exactly if and only if updates are off or no visible contaminated entry carries
  an explicitly empty source list, which is taken at its word (`ReflexionRuns.ReflexionTaintIsExactIff`,
  `ReflexionRuns.LabelsFollowUseIff`, `ReflexionRuns.EmptySourcesHideTaint`).
- BoT writes do not depend on what the verifier answers, but a raising verifier suppresses the write. It is neutral for
  all replies if and only if there is no embedding provider, updates are off or the buffer is full
  (`BotRuns.AlwaysNeutralIff`, `BotRuns.RaisingVerifierSuppressesWrite`).
- A crash in the middle of writing the temporary file blocks publication for good: recovery works if and only if no
  temporary is left or it is complete, and every prefix of a payload is left by some crash
  (`Publication.CrashIsRecoverableIffTempComplete`, `Publication.CrashLeavesAnyPrefix`,
  `Publication.PartialTempBlocksForEver`).
- The check of the budget reserves nothing: n concurrent calls can overshoot the ceiling by n - 1 projections, and do
  (`CostGuard.BudgetHolds`, `CostGuard.BudgetBoundIsTight`). A projection bounds its call only when cached input is not
  dearer than input (`CostGuard.EstimateBoundsAllCallsIff`).
- Word signatures identify word lists up to permutation and up to cutting words at bars; without bars that is up to
  permutation alone (`TaskPool.WordSignatureIff`, `TaskPool.PlainWordSignatureIff`, `TaskPool.BarsCollide`). Among all
  word lists only a single word that no bar cuts into two pieces in order has a signature of its own
  (`TaskPool.SignatureIdentifiesIff`).
- Source ids survive printing and parsing if and only if the cheatsheet text contains no opening source tag; an empty
  tag in it, for one, hides the sources named after it (`AliasCodec.RoundTripIff`,
  `AliasCodec.TagInContentHidesSources`).
- The chronology checks of the log validator do not imply that lineage is acyclic
  (`LineageValidation.ChronologyDoesNotExcludeCycles`).
- The descendant rate can only be 1 or not computed, since its numerator is its denominator
  (`GroupingRuns.RatesAreFractions`), and in a grid the repeated-failure label cannot occur
  (`FailureTracker.GridNeverRepeatsAFailure`).
- Seeds outside the equivalence band do not always violate it: they do for all draws if and only if they all lie on the
  same side (`Intervals.AlwaysViolatedIff`).
- INV-03 needs a mapping with content ids; a bare interval never supports it (`Intervals.VerdictIff`).
- The publication validator compares decoded values, so it also accepts canonical texts that the command would not
  write, such as `false` for `0`. Nothing proved here depends on the opposite: a complete artifact is what the
  validation accepts (`Publication.IsPayload`, `Publication.Faithful`).

## Model

| member | source | states |
|---|---|---|
| `Lineage.CycleCheck.Visit` | src/memcontam/evaluation/aggregate.py:439-451 | a raise names a node that lies on a real cycle; a normal return has put the node and everything below it into a parents-first order and left the open path as it was; terminates on every finite graph |
| `Lineage.CycleCheck.CheckAll` | src/memcontam/evaluation/aggregate.py:439-454 | over all children the search raises if and only if the graph has a cycle, and a silent search has found a topological order of every child |
| `Lineage.TopologicalIsAcyclic` | src/memcontam/evaluation/aggregate.py:439-454 | a parents-first order of all children rules out every cycle |
| `Lineage.ClosedPathIsCycle` | src/memcontam/evaluation/aggregate.py:443-444 | meeting an entry that is still being visited closes a cycle through it |
| `LineageValidation.ChronologicalIsStableSort` | src/memcontam/evaluation/aggregate.py:396 | trials are checked in increasing trial_seq, a missing one reading as zero, all of them, ties in log order |
| `LineageValidation.IndexEntries` | src/memcontam/evaluation/aggregate.py:384-389 | the entry index holds, for each id, the first logged row with it and nothing else |
| `LineageValidation.CheckRoots` | src/memcontam/evaluation/aggregate.py:420-423 | finds the first root id that is not an injected entry, or none |
| `LineageValidation.CollectTrial` | src/memcontam/evaluation/aggregate.py:408-425 | one trial is accepted only when none of its edges breaks a rule, and then adds exactly its exact non-version edges; otherwise the first edge that breaks one is reported |
| `LineageValidation.CollectEdges` | src/memcontam/evaluation/aggregate.py:391-426 | succeeds if and only if every exact edge of every trial obeys the chronology, and then returns exactly the accepted graph; otherwise reports the first edge, in trial order, that breaks a rule |
| `LineageValidation.ValidateLineage` | src/memcontam/evaluation/aggregate.py:384-454 | the log is accepted if and only if edges are chronological, derived roots are injected and the graph is acyclic; otherwise the first of the three that fails is reported: the first bad edge, a derived entry with its first bad root, or a node of a cycle |
| `LineageValidation.EdgeErrorNamesRule` | src/memcontam/evaluation/aggregate.py:402-423 | which of the three edge rules an edge breaks first, said in the rows of the memories shown so far, and that an edge without an error breaks none |
| `LineageValidation.AcceptedEdgesIff` | src/memcontam/evaluation/aggregate.py:391-425 | p is a parent of c in the searched graph if and only if some trial logged an exact edge from c to p that is not a version edge |
| `LineageValidation.FirstWithIs` | src/memcontam/evaluation/aggregate.py:384-389 | what the index holds for an id is the first logged row with it |
| `LineageValidation.IsInjectedIff` | src/memcontam/evaluation/aggregate.py:420-423 | a root is injected if and only if the first logged row with its id has that class |
| `LineageValidation.RowsInLogOrder` | src/memcontam/evaluation/aggregate.py:384-386 | rows are read trial by trial in log order, memory_before first |
| `LineageValidation.AcceptedParentIsEarlier` | src/memcontam/evaluation/aggregate.py:407-419 | in an accepted log the parent of every edge was in the trial's own memory_before or was left by a trial before it, whose trial_seq is not larger |
| `LineageValidation.AppendOnlyLogsAreAcyclic` | src/memcontam/evaluation/aggregate.py:396-454 | if every child is new in its trial the cycle check can never fire |
| `LineageValidation.ChronologyDoesNotExcludeCycles` | src/memcontam/evaluation/aggregate.py:396-454 | a concrete log that passes every chronology check and still has a two-node cycle, so the search is needed |
| `Memory.FirstByIdUnique` | src/memcontam/baselines/reflexion_adapter.py:519-526 | with unique ids the lookup by id returns the entry itself |
| `Memory.TaintIsExact` | src/memcontam/baselines/reflexion_adapter.py:424-437 | under source labelling an entry is contaminated if and only if a chain of source ids through written entries ends at a contaminated seed |
| `Reflexion.ReflexionStateV3.EnforceActiveCapacity` | src/memcontam/baselines/reflexion_phase12.py:354-384 | the in-place eviction loop reaches the specified store, mirrors it in the legacy list, terminates, and its events report exactly what moved from live to evicted, in order |
| `Reflexion.ReflexionStateV3.AfterReflection` | src/memcontam/baselines/reflexion_phase12.py:145-164 | the hook fails exactly when a parent is not stored before the entry, and then changes nothing; otherwise it appends and evicts |
| `Reflexion.ReflexionStateV3.AppendReflection` | src/memcontam/baselines/reflexion_adapter.py:414-461 | the written entry is built from what was visible; an entry that names itself is refused without a change |
| `Reflexion.ReflexionStateV3.RunAttempt` | src/memcontam/baselines/reflexion_adapter.py:119-310 | one pass of the loop either ends the trial with the specified outcome or leaves exactly one more written entry |
| `Reflexion.ReflexionStateV3.Execute` | src/memcontam/baselines/reflexion_phase12.py:134-190 | the bounded loop with its hook equals the specified trial: store, written entries, outcome and write event, with all evictions reported |
| `Reflexion.ReportsCompose` | src/memcontam/baselines/reflexion_phase12.py:166-184 | eviction reports of consecutive writes concatenate to the report of both |
| `Reflexion.ValidateReflectionOrder` | src/memcontam/baselines/reflexion_phase12.py:231-239 | a starting list is accepted if and only if ids are new and non-empty and parent lists are there, have no empty or repeated id and point backwards; the error names the first check that fails |
| `Reflexion.ValidateState` | src/memcontam/baselines/reflexion_phase12.py:85-101 | a state is constructed only with a positive capacity, an ordered list, the injected root as its newest entry and no more entries than the capacity; each refusal has its cause |
| `Reflexion.IsAcceptable` | src/memcontam/baselines/reflexion_adapter.py:320-331 | a reflection is accepted if and only if its used ids are distinct and each is the id of a visible entry |
| `Reflexion.AttemptEnd` | src/memcontam/baselines/reflexion_adapter.py:119-276 | an attempt goes on to write exactly when it answered wrongly, updates are on and the reflection is acceptable; it succeeds exactly on a correct answer, or on a wrong one with updates off; each failure has its exact cause |
| `Reflexion.Conclude` | src/memcontam/baselines/reflexion_adapter.py:464-487 | building the outcome finds the last written entry among the live ones or raises |
| `Reflexion.WithoutShrinks` | src/memcontam/baselines/reflexion_phase12.py:377-383 | removal by id makes the list shorter exactly when the id occurs, so the eviction loop ends |
| `ReflexionRuns.EnforceIsFifo` | src/memcontam/baselines/reflexion_phase12.py:354-384 | with unique ids eviction by id is first in, first out: the oldest surplus moves to the end of the evicted list and the latch is set by the first loss of the root |
| `ReflexionRuns.WriteConservesIff` | src/memcontam/baselines/reflexion_phase12.py:145-164 | for any store within its capacity, unique ids or not, a write conserves evicted ++ live ++ the new entry if and only if it does not evict, or the id of the oldest entry occurs only once among the live entries and the new one |
| `ReflexionRuns.ValidStateStarts` | src/memcontam/baselines/reflexion_phase12.py:76-102 | a state that the constructor accepts satisfies the run invariant |
| `ReflexionRuns.WriteKeeps` | src/memcontam/baselines/reflexion_phase12.py:145-164 | a write of a fresh id with stored parents keeps the invariant, loses nothing and leaves the new entry newest |
| `ReflexionRuns.StepKeeps` | src/memcontam/baselines/reflexion_adapter.py:119-310 | every attempt keeps the invariant, whichever branch it takes |
| `ReflexionRuns.RunFromKeeps` | src/memcontam/baselines/reflexion_adapter.py:119-310 | a whole trial appends exactly its written entries to the log, never raises, and its write event is the last written entry |
| `ReflexionRuns.TrialFollowsAttempts` | src/memcontam/baselines/reflexion_adapter.py:119-310 | a trial writes one entry for each of its first n attempts, wrong answers with a reflection, from that attempt's text and used ids; the next attempt is the cause of the outcome, or there is none and the outcome is a wrong answer |
| `ReflexionRuns.RunConserves` | src/memcontam/baselines/reflexion_phase12.py:145-384 | along every run with fresh ids: evicted ++ live equals initial ++ everything written, parents come first, live stays within capacity and no lookup fails |
| `ReflexionRuns.RepeatedIdBreaksTheTrial` | src/memcontam/baselines/reflexion_phase12.py:242-262 | with a repeated entry id and capacity 1 the trial raises and loses a reflection: conservation really needs fresh ids |
| `ReflexionRuns.RepeatedIdStaysLive` | src/memcontam/baselines/reflexion_phase12.py:242-262 | a concrete capacity-2 trial that stores one configured id twice and succeeds |
| `ReflexionRuns.RepeatedIdLosesLater` | src/memcontam/baselines/reflexion_phase12.py:354-384 | after that trial a write under any other id drops one of the two copies without an error |
| `ReflexionRuns.LatchIsFinal` | src/memcontam/baselines/reflexion_phase12.py:354-375 | once set, the first-eviction trial id never changes |
| `ReflexionRuns.LatchNamesFirstEviction` | src/memcontam/baselines/reflexion_phase12.py:354-375 | the latch names exactly the first trial after which the root is no longer live |
| `ReflexionRuns.NewEntryTaint` | src/memcontam/baselines/reflexion_adapter.py:424-437 | a new reflection is contaminated if and only if an entry it uses is |
| `ReflexionRuns.EmptySourcesHideTaint` | src/memcontam/baselines/reflexion_adapter.py:671-679 | using only a contaminated entry with an explicitly empty source list gives a clean reflection |
| `ReflexionRuns.LabelsFollowUseIff` | src/memcontam/baselines/reflexion_adapter.py:671-679 | in any state of a run all possible writes are labelled by what they use if and only if no visible contaminated entry has an explicitly empty source list |
| `ReflexionRuns.RunKeepsTaint` | src/memcontam/baselines/reflexion_adapter.py:671-679 | source labelling holds along every run that starts with no visible contaminated entry with an explicitly empty source list |
| `ReflexionRuns.ReflexionTaintIsExact` | src/memcontam/baselines/reflexion_adapter.py:424-437 | over such runs a reflection is contaminated if and only if a chain of sources leads to a contaminated seed |
| `ReflexionRuns.ReflexionTaintIsExactIff` | src/memcontam/baselines/reflexion_adapter.py:424-437 | from any state, all runs label exactly if and only if updates are off or no visible contaminated entry has an explicitly empty source list |
| `FullHistory.EffectiveBudget` | src/memcontam/baselines/prompt_budget.py:43-55 | the budget is what remains of the window after output, overhead, margin and task, and is refused if and only if the specification is invalid or nothing remains, each under its own error |
| `FullHistory.SelectVisibleHistory` | src/memcontam/baselines/full_history_context.py:47-98 | the eviction loop returns records[k..] for the least k whose counted prompt fits, without going below empty history; fails exactly when no budget exists |
| `FullHistory.MessageIsJoined` | src/memcontam/baselines/full_history_context.py:109-112 | what is counted is the shown contents and the task in order, a blank line between them; a history without text is left out |
| `FullHistory.BudgetExistsIff` | src/memcontam/baselines/full_history_context.py:70-79 | a budget exists if and only if the specification is valid, the bare task leaves room and a configured history capacity is positive; each refusal has its cause |
| `FullHistory.WindowIsUnique` | src/memcontam/baselines/full_history_context.py:80-84 | only one suffix is the longest fitting one, for any token counter |
| `FullHistory.WindowFitsContext` | src/memcontam/baselines/full_history_context.py:76-98 | what is shown is a suffix of the store that fits the context window and the history capacity, and no longer suffix does; removed and shown ids are the stored ids in order; outside bounded context everything is shown |
| `FullHistory.AdmissionIff` | src/memcontam/baselines/full_history_phase12.py:124-140 | a trial is admitted if and only if eviction is oldest first and, in bounded context, a budget exists and exact mode sees a history that fits as a whole; each refusal has its cause |
| `FullHistory.VerifyCompleteFit` | src/memcontam/baselines/full_history_phase12.py:124-140 | exact mode is admitted if and only if nothing has to be removed |
| `FullHistory.FullHistoryStateV3.RecordRootVisibility` | src/memcontam/baselines/full_history_phase12.py:191-207 | the flags move as specified and stay untouched on an error, which is raised if and only if the root was never visible and is not shown |
| `FullHistory.FullHistoryStateV3.Execute` | src/memcontam/baselines/full_history_phase12.py:143-175 | a trial takes exactly the specified step, and an error leaves the state as it was |
| `FullHistory.RunAdapter` | src/memcontam/baselines/full_history_adapter.py:83-147 | the adapter appends a record if and only if the call answered, whatever the parser and the verifier say; every outcome has its exact cause |
| `FullHistoryRuns.StepIsDeterministic` | src/memcontam/baselines/full_history_phase12.py:143-175 | state and replies determine the next state and the result |
| `FullHistoryRuns.WritesAreVerifierBlind` | src/memcontam/baselines/full_history_adapter.py:83-147 | two runs with the same replies store the same at every trial, whatever their verifiers answer and even if they raise |
| `FullHistoryRuns.StoreIsAppendOnly` | src/memcontam/baselines/full_history_phase12.py:143-175 | every earlier store is a prefix of every later one |
| `FullHistoryRuns.StoredRecord` | src/memcontam/baselines/full_history_adapter.py:195-230 | an answered trial appends a record with its own ids, task and reply, the shown ids as sources, contaminated when a shown record is and, with unique ids, only then |
| `FullHistoryRuns.RootStaysStored` | src/memcontam/baselines/full_history_phase12.py:191-207 | a stored root is never lost |
| `FullHistoryRuns.LatchNamesFirstHiddenTrial` | src/memcontam/baselines/full_history_phase12.py:191-207 | in a run without errors the latch is unset or names the first trial whose window hides the root, and never changes after that |
| `FullHistoryRuns.RunKeepsLabels` | src/memcontam/baselines/full_history_adapter.py:195-230 | every record written in a run is labelled by its sources |
| `FullHistoryRuns.FullHistoryTaintIsExact` | src/memcontam/baselines/full_history_adapter.py:195-230 | over any run a record is contaminated if and only if a chain of sources leads to a contaminated seed record |
| `AliasCodec.AliasIsInjective` | src/memcontam/baselines/dynamic_cheatsheet_phase12.py:86-97 | up to 99 aliases are pairwise distinct |
| `AliasCodec.AliasTableIs` | src/memcontam/baselines/dynamic_cheatsheet_phase12.py:86-97 | up to 99 distinct non-empty ids, and no other lists, get the aliases src01, src02, ... in their order |
| `AliasCodec.ResolveRejects` | src/memcontam/baselines/dynamic_cheatsheet_phase12.py:102-108 | resolution fails if and only if an alias is unknown or repeated |
| `AliasCodec.ResolvedIdsAreSources` | src/memcontam/baselines/dynamic_cheatsheet_phase12.py:102-108 | what resolves are source ids, as many as aliases, none twice |
| `AliasCodec.WholeOfPrinted` | src/memcontam/baselines/dynamic_cheatsheet_phase12.py:189-228 | the whole-response pattern recovers the content of a printed reply |
| `AliasCodec.WholeCheatsheetIff` | src/memcontam/baselines/dynamic_cheatsheet_phase12.py:64-68 | a reply is accepted with this content if and only if it is one cheatsheet element around it, followed by nothing or by one source element without angle brackets |
| `AliasCodec.TagIsRead` | src/memcontam/baselines/dynamic_cheatsheet_phase12.py:1080-1092 | how the text of the source element is read: blank as no ids, a JSON list of strings, or a list between commas when it is no JSON; blanks around items do not count, blank items and other JSON are errors |
| `AliasCodec.TagPresence` | src/memcontam/baselines/dynamic_cheatsheet_phase12.py:1072-1080 | no opening tag means no ids; an opening tag that is not closed is an error |
| `AliasCodec.SourceIdsOfPrinted` | src/memcontam/baselines/dynamic_cheatsheet_phase12.py:1072-1092 | the tag parser reads the printed aliases back in order, for any blanks after the commas |
| `AliasCodec.ResolvePrinted` | src/memcontam/baselines/dynamic_cheatsheet_phase12.py:102-108 | resolving the aliases of a selection gives the selected ids in order |
| `AliasCodec.CurateRoundTrip` | src/memcontam/baselines/dynamic_cheatsheet_phase12.py:189-228 | printing any duplicate-free selection, parsing and resolving it returns the selected ids in order with exact lineage |
| `AliasCodec.JsonListRoundTrips` | src/memcontam/baselines/dynamic_cheatsheet_phase12.py:1080-1092 | a selection written as a JSON list of its aliases is returned as well |
| `AliasCodec.RoundTripIff` | src/memcontam/baselines/dynamic_cheatsheet_phase12.py:1072-1092 | every duplicate-free selection survives the round trip if and only if the cheatsheet text contains no opening source tag, for any decoder that reads no list from a text ending in an angle bracket |
| `AliasCodec.TagInContentHidesSources` | src/memcontam/baselines/dynamic_cheatsheet_phase12.py:1072-1092 | an empty tag inside the cheatsheet text hides the sources named after it |
| `AliasCodec.CurateUntagged` | src/memcontam/baselines/dynamic_cheatsheet_phase12.py:189-228 | a cheatsheet reply without a source tag is accepted with no parents |
| `DcRs.DcRsStateV3.Execute` | src/memcontam/baselines/dynamic_cheatsheet_phase12.py:241-505 | the trial with its in-place appends and its late answer update equals the specified step |
| `DcRsRuns.PreparedIff` | src/memcontam/baselines/dynamic_cheatsheet_phase12.py:241-440 | which trials write, and what: all checks of context, state, replies and budgets hold, the strategy keeps the curator's reply with the resolved ids as parents, the pair the task, the output and the strategy as its parent |
| `DcRsRuns.StoredTrial` | src/memcontam/baselines/dynamic_cheatsheet_phase12.py:412-494 | a trial that returns has appended its strategy and its pair with the parsed answer, and reports the verdict on a parsed answer |
| `DcRsRuns.RefusalHasCause` | src/memcontam/baselines/dynamic_cheatsheet_phase12.py:241-410 | each error before the first write has its cause in the trial or the state |
| `DcRsRuns.CurateOutcomes` | src/memcontam/baselines/dynamic_cheatsheet_phase12.py:189-228 | inferred parents and bad source ids are errors; a reply that is no whole cheatsheet or is blank keeps the fallback, any other reply is kept itself |
| `DcRsRuns.CoreLineageIsNeverApproximate` | src/memcontam/baselines/dynamic_cheatsheet_phase12.py:318-343 | a core candidate names only retrieved, stored ids, so its lineage is exact or unavailable |
| `DcRsRuns.AtomicIff` | src/memcontam/baselines/dynamic_cheatsheet_phase12.py:412-440 | one trial: a raise leaves the state unchanged except, exactly, when the strategy it wrote names no source and unparented strategies are not allowed; otherwise one archive entry and one strategy are added |
| `DcRsRuns.UnparentedTrialIsNotAtomic` | src/memcontam/baselines/dynamic_cheatsheet_phase12.py:412-440 | a concrete trial, curator reply `<cheatsheet>x</cheatsheet>`, that raises after both appends in any readable state that does not allow unparented strategies |
| `DcRsRuns.AllTrialsAtomicIff` | src/memcontam/baselines/dynamic_cheatsheet_phase12.py:412-440 | every trial from a state is all-or-nothing, whatever the replies, if and only if the state allows unparented strategies or cannot be read any more |
| `DcRsRuns.UnreadableIsStuck` | src/memcontam/baselines/dynamic_cheatsheet_phase12.py:536-568 | after that one exception every later trial raises and changes nothing |
| `DcRsRuns.WritesAreVerifierBlind` | src/memcontam/baselines/dynamic_cheatsheet_phase12.py:433-494 | runs that differ only in verifier answers, including raising ones, end in the same state |
| `DcRsRuns.StepKeepsOrder` | src/memcontam/baselines/dynamic_cheatsheet_phase12.py:412-440 | a step keeps a parents-first order although the archive entry is appended before its parent strategy |
| `DcRsRuns.RunKeepsLineage` | src/memcontam/baselines/dynamic_cheatsheet_phase12.py:753-870 | over whole runs with distinct trial ids lineage is acyclic and every parent id is stored |
| `DcRsRuns.RunKeysIncrease` | src/memcontam/baselines/dynamic_cheatsheet_phase12.py:1095-1104 | along a run with increasing trial keys there is one integer order key for every appended entry, and the keys increase in append order |
| `DcRsRuns.OrderKeysFollowAppends` | src/memcontam/baselines/dynamic_cheatsheet_phase12.py:1095-1104 | keys of different entries differ and follow the append order; the trial's key is their quotient by a thousand, 1 and 2 the remainders of archive and strategy |
| `Bot.BoTStateV3.Execute` | src/memcontam/baselines/bot_phase12.py:111-181 | the adapter equals the specified step: state, outcome, event and lineage |
| `BotRuns.StoresExactly` | src/memcontam/baselines/bot_phase12.py:111-181 | the buffer grows if and only if a novel, valid template meets free capacity and a verifier that answers, and then by exactly the normalised entry |
| `BotRuns.StoredEntryIsExact` | src/memcontam/baselines/bot_phase12.py:315-373 | a stored entry is the distilled template under the hash of what it says, has as parents and sources exactly the declared ids, all stored before, is contaminated if and only if one of them is, and carries no verdict; the outcome reports the verdict and the stored buffer |
| `BotRuns.OutcomeHasCause` | src/memcontam/baselines/bot_runtime.py:73-412 | each outcome has its cause in the replies, and what it reports as memory is the buffer, except that a raising verifier reports the novel entry it suppresses |
| `BotRuns.EventHasCause` | src/memcontam/baselines/bot_phase12.py:126-181 | a successful trial that stores nothing had a template that is not novel, or a full buffer |
| `BotRuns.ParentCheckNeverFires` | src/memcontam/baselines/bot_phase12.py:184-190 | the visibility-only-parent error and approximate lineage are unreachable |
| `BotRuns.WritesAreAnswerBlind` | src/memcontam/baselines/bot_runtime.py:357-398 | runs whose verifiers answer differently store the same buffer |
| `BotRuns.RaisingVerifierIsNeutralIff` | src/memcontam/baselines/bot_runtime.py:357-398 | one trial: a raising verifier changes the store if and only if the trial would have written |
| `BotRuns.RaisingVerifierSuppressesWrite` | src/memcontam/baselines/bot_runtime.py:357-398 | a concrete trial whose write a raising verifier suppresses, for every buffer with free capacity |
| `BotRuns.AlwaysNeutralIff` | src/memcontam/baselines/bot_runtime.py:357-398 | for all replies a raising verifier is neutral if and only if there is no embedding provider, updates are off or the buffer is full |
| `BotRuns.RunKeepsBuffer` | src/memcontam/baselines/bot_phase12.py:331-379 | over runs the buffer only grows, respects its capacity and lists parents first |
| `Publication.PayloadsArePrefixFree` | scripts/write_phase12_filter_v5_rootless_task_qa.py:449-468 | what the validation accepts, cut short, is accepted for no command |
| `Publication.Publisher.WriteTemporary` | scripts/write_phase12_filter_v5_rootless_task_qa.py:494-508 | the temporary holds the whole payload, or exactly the prefix that the system calls before the crash wrote; enough calls always finish |
| `Publication.Publisher.WriteTaskQa` | scripts/write_phase12_filter_v5_rootless_task_qa.py:511-597 | one attempt leaves only the specified directory states, changes nothing when it rejects, completes when it is not cut short, and from an empty directory leaves exactly the prefix written when it dies in its first three calls |
| `Publication.Publisher.Step` | scripts/write_phase12_filter_v5_rootless_task_qa.py:575-597 | a directory change happens entirely or not at all |
| `Publication.AttemptKeepsInv` | scripts/write_phase12_filter_v5_rootless_task_qa.py:545-597 | every attempt keeps: a final name is complete, a temporary is a prefix, both names share one inode; a linked final is not touched |
| `Publication.AttemptKeepsOwner` | scripts/write_phase12_filter_v5_rootless_task_qa.py:545-597 | attempts of one command keep: the final name holds what its validation accepts, the temporary a prefix of what it writes |
| `Publication.HistoryIsSafe` | scripts/write_phase12_filter_v5_rootless_task_qa.py:545-597 | over any sequence of attempts and crashes the final name is absent or complete and a partial temporary is never linked |
| `Publication.FinalNeverChanges` | scripts/write_phase12_filter_v5_rootless_task_qa.py:545-597 | once linked, the final name keeps inode and bytes for ever |
| `Publication.RecoversIffRecoverable` | scripts/write_phase12_filter_v5_rootless_task_qa.py:545-597 | an uninterrupted attempt succeeds if and only if its validation accepts what the directory holds; it then leaves one final name with link count 1, no temporary, and the bytes of the final name, else of the temporary, else its own payload with this timestamp |
| `Publication.CrashIsRecoverableIffTempComplete` | scripts/write_phase12_filter_v5_rootless_task_qa.py:494-597 | after any sequence of attempts of one command, cut anywhere, during recoveries too, the command recovers if and only if no temporary is left or the one left is complete; what survives is accepted for the command |
| `Publication.SomeCommandRecoversIff` | scripts/write_phase12_filter_v5_rootless_task_qa.py:494-597 | after attempts of any commands, some command recovers if and only if no temporary is left or the one left is complete |
| `Publication.FirstCrashKeepsPayload` | scripts/write_phase12_filter_v5_rootless_task_qa.py:494-597 | what survives the crash of a first attempt is that attempt's payload, timestamp included |
| `Publication.CrashLeavesAnyPrefix` | scripts/write_phase12_filter_v5_rootless_task_qa.py:494-508 | for every prefix of a payload there are write lengths and a crash within the first three system calls that leave exactly it, by the contract of `WriteTaskQa` |
| `Publication.PartialTempBlocksForEver` | scripts/write_phase12_filter_v5_rootless_task_qa.py:545-573 | a temporary cut short is never repaired: no later attempt of any command changes the directory |
| `CostGuard.CostGuard.CheckBeforeDispatch` | src/memcontam/clients/cost_guard.py:53-59 | passes if and only if the projection is non-negative and fits under the ceiling on top of everything recorded |
| `CostGuard.CostGuard.RecordUsage` | src/memcontam/clients/cost_guard.py:61-81 | spent is the sum of recorded costs; bad usage records nothing; the warning fires once, at the call that first reaches the threshold |
| `CostGuard.ReachedIff` | src/memcontam/clients/cost_guard.py:75-79 | the warning threshold was reached if and only if the total was at or above it after some recorded cost |
| `CostGuard.CostIsPerMillion` | src/memcontam/clients/cost_guard.py:45-74 | a million tokens of a kind cost the rate of that kind, costs add up, and a projection is the cost without cached input |
| `CostGuard.ParseUsage` | src/memcontam/clients/cost_guard.py:83-92 | yields counts if and only if the usage reports them: input and output are present, a missing cached count is zero, none is negative and no more is cached than was put in |
| `CostGuard.ActualWithinEstimate` | src/memcontam/clients/cost_guard.py:45-81 | counts within the estimate never cost more than the estimate when cached input is not dearer |
| `CostGuard.EstimateBoundsAllCallsIff` | src/memcontam/clients/cost_guard.py:45-81 | the estimate bounds every call if and only if the cached rate is at most the input rate |
| `CostGuard.EventKeepsInv` | src/memcontam/clients/cost_guard.py:53-81 | every check, record or failure keeps spent plus what is in flight below the bound |
| `CostGuard.BudgetHolds` | src/memcontam/clients/cost_guard.py:53-81 | under any interleaving of at most n calls spending stays within ceiling + (n - 1) times the largest projection, and within the ceiling for n = 1 |
| `CostGuard.MovesAreASchedule` | src/memcontam/clients/cost_guard.py:45-81 | callers that dispatch only what the guard lets through and stay within their token estimates produce an admissible schedule |
| `CostGuard.Admit` | src/memcontam/clients/cost_guard.py:45-81 | one check or record on the guard moves its spending as specified; a dispatch goes ahead exactly when the guard lets it through |
| `CostGuard.ServeCallers` | src/memcontam/clients/cost_guard.py:45-81 | any interleaving of checks and records on a new guard leaves exactly the spending of its moves, which is within ceiling + (n - 1) projections |
| `CostGuard.BudgetBoundIsTight` | src/memcontam/clients/cost_guard.py:53-81 | for every n and every projection up to the ceiling some schedule spends exactly ceiling + (n - 1) projections |
| `CostGuard.CallersReachBound` | src/memcontam/clients/cost_guard.py:45-81 | on a guard whose ceiling is a whole number of full calls, callers that keep their promises reach the bound |
| `Replay.ReplayClient.NextFlatResponse` | src/memcontam/clients/replay.py:19-22 | the shared cursor advances by one and, past the end, the last response is repeated |
| `Replay.ReplayClient.NextStageResponse` | src/memcontam/clients/replay.py:24-40 | a per-key cursor hands out its own script once |
| `Replay.ReplayClient.Chat` | src/memcontam/clients/replay.py:42-73 | the answer and both kinds of cursor are a function of the request and the cursors before it; requests outside keyed samples get the shared list, plain and invalid fixtures their reply or error |
| `Replay.KeyIsIndependent` | src/memcontam/clients/replay.py:24-40 | whatever is interleaved, a key is answered by its own script in order, then by exhaustion |
| `Replay.SingleReplyIsConstant` | src/memcontam/clients/replay.py:36-40 | whatever is interleaved, a key with a single reply gets it for every request |
| `Replay.KeyedRequestsKeepFlatCursor` | src/memcontam/clients/replay.py:42-73 | keyed requests never move the shared cursor |
| `Grid.GridRun.RunTrial` | src/memcontam/cli.py:1500-2054 | one loop body: store, log, numbering, cursor and abort move as specified on each of the exit paths |
| `Grid.GridRun.Run` | src/memcontam/cli.py:1473-2054 | the five nested loops are the fold of the trial over the flat list of cells |
| `GridRuns.RunIsNumbered` | src/memcontam/cli.py:1928-2054 | at every moment the log is numbered 0, 1, 2, ... in cell order; a run that is not aborted has logged every cell |
| `GridRuns.IdentitiesAreIndependent` | src/memcontam/cli.py:1473-2054 | for any interleaving, the store of an identity is the fold of its own trials alone |
| `GridRuns.CellsOfTask` | src/memcontam/cli.py:1473-1500 | an identity of the grid meets exactly the rows of its task, once each, in order |
| `GridRuns.GridRefinesIdentityRuns` | src/memcontam/cli.py:1473-2054 | after a completed run over keyed samples each memory-writing identity other than BoT holds the fold of its task's rows from its own starting corpus |
| `GridRuns.CompletedRunCount` | src/memcontam/cli.py:1473-2054 | a completed run writes rows times (valid arms times models per baseline) trials, numbered without gaps |
| `GridRuns.TrialKeysAreDistinct` | src/memcontam/cli.py:798-799 | no two trials share task, sample, baseline, arm and model |
| `GridOrder.LoopOrder` | src/memcontam/cli.py:1473-1507 | there is one cell for every combination of positions of the five loops, in the order of the loops |
| `GridOrder.IdentityIsRunIff` | src/memcontam/cli.py:592-595 | an identity is run on every row of its task if and only if the configuration names it and, for no_memory, its arm is clean; otherwise never |
| `GridOrder.RefusedIff` | src/memcontam/cli.py:1473-1490 | a configuration is refused in its run if and only if it has an unknown task, a task without rows, or an unknown baseline |
| `GridOrder.AbortsIff` | src/memcontam/cli.py:1473-2054 | a run is aborted if and only if it comes to a refused cell, to a fork without its clean buffer, or to a trial that raises without calls |
| `GridOrder.FailedIff` | src/memcontam/cli.py:1886-2054 | record k is that of cell k, and is marked failed if and only if that trial did not complete |
| `GridOrder.OneCell` | src/memcontam/cli.py:1500-2054 | a served cell moves the shared cursor by its calls unless its sample is keyed, and changes no store but its own identity's |
| `GridOrder.GridCompletes` | src/memcontam/cli.py:1473-2054 | a supported grid with the clean arm first is never aborted and logs every cell, whatever fails, as long as no trial raises before its first call |
| `FailureTracker.RepeatedFailureTracker.Label` | src/memcontam/cli.py:1361-1376 | the label and the set of failed keys after it |
| `FailureTracker.RepeatedIff` | src/memcontam/cli.py:1357-1376 | repeated means: incorrect, and an earlier trial with the same key was incorrect |
| `FailureTracker.GridNeverRepeatsAFailure` | src/memcontam/cli.py:1357-1376 | in a grid with distinct sample ids no trial is ever labelled a repeated failure |
| `Grouping.GroupTrials` | src/memcontam/evaluation/aggregate.py:906-922 | the loop leaves, under each key and under each combination and arm, exactly the included trials in order |
| `Grouping.AggregateCallMetrics` | src/memcontam/evaluation/aggregate.py:540-578 | the counters are the sums over the calls and the histogram counts every stage; no calls gives not-computed |
| `Grouping.OriginHistogram` | src/memcontam/evaluation/aggregate.py:756-763 | every failed trial is counted under its last logged origin, or under runner |
| `Grouping.MetricGroup` | src/memcontam/evaluation/aggregate.py:674-792 | the counts taken in filtered lists are the counts of the whole group: each is the number of its trials with the property |
| `Grouping.CountWhere` | src/memcontam/evaluation/aggregate.py:686-704 | the counting loop returns the number of positions at which the condition holds |
| `Grouping.SingletonsIff` | src/memcontam/evaluation/aggregate.py:804-822 | the lists by pair id are single trials if and only if no pair id repeats |
| `Grouping.JudgeArm` | src/memcontam/evaluation/aggregate.py:823-840 | counting over the lists by pair id counts every paired trial once |
| `Grouping.Degrade` | src/memcontam/evaluation/aggregate.py:800-847 | computed if and only if both arms have the same pair ids, each once, and both have a judged trial; then the specified difference of the success shares |
| `Grouping.PairedDegradation` | src/memcontam/evaluation/aggregate.py:795-848 | one degradation for every combination |
| `Grouping.AggregateRun` | src/memcontam/evaluation/aggregate.py:906-962 | one group for every key of an included trial, in key order, with the metrics of its trials, its calls and its combination |
| `GroupingRuns.KeysConserve` | src/memcontam/evaluation/aggregate.py:924-957 | summing a weight key by key is summing it over the elements |
| `GroupingRuns.HistogramConserves` | src/memcontam/evaluation/aggregate.py:551-577 | the entries of a histogram sum to the number of elements counted |
| `GroupingRuns.ReportConserves` | src/memcontam/evaluation/aggregate.py:924-957 | every additive column of the report sums to its value over all included trials, not-computed as zero |
| `GroupingRuns.TrialsConserve` | src/memcontam/evaluation/aggregate.py:679-684 | the groups' trials, and their failed and evaluable trials together, sum to the number of included trials |
| `GroupingRuns.CallsConserve` | src/memcontam/evaluation/aggregate.py:940-950 | with unique trial ids every call column sums to its value over the calls of included trials |
| `GroupingRuns.RatesAreFractions` | src/memcontam/evaluation/aggregate.py:739-754 | rates lie in [0, 1] and are not computed exactly when nothing can be judged; the descendant rate is never anything but 1 |
| `GroupingCounts.CountsAreCardinalities` | src/memcontam/evaluation/aggregate.py:679-706 | each count of a group is the number of its trials with the logged property, each total the sum over its trials |
| `GroupingCounts.JudgedCountsAreCardinalities` | src/memcontam/evaluation/aggregate.py:717-754 | uptake, repeated-failure and descendant counts are numbers of trials with that label, not computed exactly when no trial has a label that can be judged, and the rates are their shares of those |
| `GroupingCounts.RatesAreShares` | src/memcontam/evaluation/aggregate.py:739-745 | a computed rate times the number of trials it refers to is the reported count |
| `GroupingCounts.OriginIsLast` | src/memcontam/evaluation/aggregate.py:756-763 | the origin of a failed trial is that of its last logged failure, or runner |
| `GroupingCounts.OriginsAreCardinalities` | src/memcontam/evaluation/aggregate.py:756-763 | each origin is reported with the number of failed trials that have it |
| `GroupingCounts.CallMetricsAreSums` | src/memcontam/evaluation/aggregate.py:540-578 | call metrics are the numbers and sums over the calls; a call without latency adds none |
| `GroupingCounts.ReportCoversTrials` | src/memcontam/evaluation/aggregate.py:906-922 | the groups cover exactly the trials that are neither excluded nor part of the warm-up |
| `GroupingCounts.GroupDegradation` | src/memcontam/evaluation/aggregate.py:913-957 | a group shows the degradation from the clean trials with its key to the contaminated ones |
| `GroupingCounts.DegradationMeans` | src/memcontam/evaluation/aggregate.py:804-847 | computed if and only if the arms show the same pair ids, each once, and each has a paired trial with a verdict; then the share of correct ones in the clean arm minus that in the contaminated arm |
| `GroupingRuns.DegradationIsBounded` | src/memcontam/evaluation/aggregate.py:833-847 | a computed degradation lies in [-1, 1] |
| `GroupingRuns.DegradationIsAntisymmetric` | src/memcontam/evaluation/aggregate.py:795-848 | exchanging the arms negates it |
| `GroupingRuns.PairIdIsInjective` | src/memcontam/cli.py:825 | within a trajectory the checkpoint index alone decides the pair id |
| `GroupingRuns.GridArmsAreComparable` | src/memcontam/cli.py:802-831 | after a completed grid the clean and the contaminated arm have the same pair ids, each once, so degradation is uncomputed exactly when an arm has no judged trial |
| `Intervals.PositionsInRange` | src/memcontam/evaluation/bootstrap.py:71-77 | both quantile positions lie inside the samples, the lower one first, for every valid configuration |
| `Intervals.RoundIsNearest` | src/memcontam/evaluation/bootstrap.py:75-76 | rounding goes to a nearest integer, to the even one of two |
| `Intervals.MeanIsArithmetic` | src/memcontam/evaluation/bootstrap.py:68-74 | the mean of one value is the value, the mean of two parts weighs their means by their lengths |
| `Intervals.EndsAreQuantiles` | src/memcontam/evaluation/bootstrap.py:68-77 | the ends are the quantiles of the resampled means that cut off equal tails around the confidence level |
| `Intervals.EndsAreResampledMeans` | src/memcontam/evaluation/bootstrap.py:68-77 | both ends are means of resamples and lower is at most upper |
| `Intervals.SpanningDraw` | src/memcontam/evaluation/bootstrap.py:68-77 | two replicates can make any two seeds the ends of the interval |
| `Intervals.SingleReplicate` | src/memcontam/evaluation/bootstrap.py:24-28 | one replicate is accepted at any confidence level between 0 and 1, and makes the interval a point |
| `Intervals.IntervalStaysInHull` | src/memcontam/evaluation/bootstrap.py:61-77 | there is an interval if and only if there are two numbers or more and nothing else; whatever is drawn, any bound of the seed values bounds estimate and interval |
| `Intervals.ClassifyMeaning` | src/memcontam/behavior/directional.py:29-55 | supported: the whole interval is in the registered region; violated: no point of it is; inconclusive otherwise; the regions and reasons are those registered for each test |
| `Intervals.NarrowingKeepsVerdict` | src/memcontam/behavior/invariance.py:87-103 | a narrower interval never flips supported or violated |
| `Intervals.MechanicalSupportedIff` | src/memcontam/behavior/invariance.py:241-266 | the INV-03 gate passes if and only if all ids name one content, which is the canonical one, and no gate failed |
| `Intervals.VerdictIff` | src/memcontam/behavior/invariance.py:53-115 | when a registered test is not applicable, supported, violated, inconclusive or an error, said in the marks, contents and interval of its metrics |
| `Intervals.ReasonsAreExact` | src/memcontam/behavior/invariance.py:60-115 | the reason that comes with a verdict tells which of its causes it was |
| `Intervals.ContentUnavailableIff` | src/memcontam/behavior/invariance.py:241-260 | contents cannot be compared if and only if there is no mapping, or no usable list of ids and no passed gate |
| `Intervals.ListsTakePrecedence` | src/memcontam/behavior/invariance.py:249-258 | corresponding ids decide before canonical ids, and those before the pair, which counts like a list of two |
| `Intervals.SeedsInsideAreSupported` | src/memcontam/evaluation/bootstrap.py:61-77 | seed values inside a test's region support it for any draws and any confidence level, if and only if the metrics apply and, for INV-03, the contents agree |
| `Intervals.SeedsBeyondAreViolated` | src/memcontam/evaluation/bootstrap.py:61-77 | seed values all beyond one side of the region violate it, if and only if the metrics apply and, for INV-03, contents can be compared |
| `Intervals.AlwaysSupportedIff` | src/memcontam/evaluation/bootstrap.py:61-77 | whatever is drawn and for any configuration, the seeds support a test if and only if all of them are inside its region |
| `Intervals.AlwaysViolatedIff` | src/memcontam/behavior/invariance.py:87-103 | whatever is drawn and for any configuration, the seeds violate a test if and only if all of them lie beyond the same side of its region; for the band, all below -0.1 or all above 0.1 |
| `Intervals.OutsideOnBothSidesCanBeSupported` | src/memcontam/behavior/invariance.py:87-92 | an illustration: two seeds outside the band on both sides, drawn alternately, are called equivalent |
| `ImportClosure.Visit` | scripts/diagnose_phase13_mr_p5_closure.py:74-84 | the worklist ends, also on cycles, with exactly the files reachable from the initial ones |
| `ImportClosure.Closure` | scripts/diagnose_phase13_mr_p5_closure.py:74-84 | the returned tuple is sorted, has no repetition and lists exactly the reachable files |
| `ImportClosure.Omitted` | scripts/diagnose_phase13_mr_p5_closure.py:102-103 | the omitted files are the reachable unbound ones, and there are none if and only if everything reachable is bound |
| `ImportClosure.ClosedPackageOmitsNothing` | scripts/diagnose_phase13_mr_p5_closure.py:74-103 | a package that binds the roots and the imports of all it binds omits nothing |
| `TaskPool.NumberSignatureIff` | src/memcontam/main_registry.py:134 | the signature of ascending numbers lists them between commas, and two number lists have equal signatures if and only if they are permutations of each other |
| `TaskPool.Game24SignatureIff` | src/memcontam/main_registry.py:120-141 | the same for two parsed game24 rows |
| `TaskPool.MebSignatureIff` | src/memcontam/main_registry.py:144-160 | two equation rows have equal signatures if and only if they have the same numbers in the same order |
| `TaskPool.WordSignatureIff` | src/memcontam/main_registry.py:175 | word signatures are equal if and only if the sorted words agree once cut at every bar, for all words |
| `TaskPool.PlainWordSignatureIff` | src/memcontam/main_registry.py:163-178 | without bars: if and only if the word lists are permutations of each other |
| `TaskPool.BarsCollide` | src/memcontam/main_registry.py:175 | a word with a bar has the signature of its two halves |
| `TaskPool.SignatureIdentifiesIff` | src/memcontam/main_registry.py:175 | a signature tells a word list apart up to permutation if and only if the list is one word that no bar cuts into two pieces in order; longer lists collide with the word that joins them |
| `TaskPool.SampleIdIsInjective` | src/memcontam/main_registry.py:136 | a sample id is the prefix of its task and the registry position padded to four digits, so positions give distinct ids |
| `TaskPool.Game24ParsesIff` | src/memcontam/main_registry.py:120-141 | a game24 row parses to exactly these entries: four integer words and an integer target; otherwise it is invalid |
| `TaskPool.MebParsesIff` | src/memcontam/main_registry.py:144-160 | an equation row parses to exactly these entries: two texts, the first with a number in it, and an integer value |
| `TaskPool.WordsParseIff` | src/memcontam/main_registry.py:163-178 | a word-sorting row parses to exactly these entries: the words after the first list mark, at least one, and their sorted form as target |
| `TaskPool.FreezeTaskPool` | src/memcontam/main_registry.py:68-101 | succeeds if and only if every row parses and otherwise names the kind of source whose row is invalid; the pool keeps exactly the rows with a fresh signature, renumbered, and reports the others with their reason |
| `TaskPool.PoolPartitionsSource` | src/memcontam/main_registry.py:75-101 | every source row is accepted or excluded, never both, and both lists keep the source order |
| `TaskPool.AcceptedAreDistinct` | src/memcontam/main_registry.py:75-95 | accepted signatures are distinct and unregistered, and samples are numbered 1, 2, ... without gaps |
| `TaskPool.FirstOccurrenceIsAccepted` | src/memcontam/main_registry.py:86-95 | each unregistered signature of the source is accepted at its first occurrence |
| `TaskPool.ExclusionHasCause` | src/memcontam/main_registry.py:79-93 | a row is excluded because its signature is registered or because an earlier accepted row has it |
| `TaskPool.RefreezeExcludesNothing` | src/memcontam/main_registry.py:68-101 | freezing the accepted rows again accepts them all under the same sample ids and excludes nothing |
| `Sorting.SortEqualIff` | src/memcontam/main_registry.py:134 | sorting under a total order forgets exactly the order |
| `Sorting.LexLeIff` | src/memcontam/main_registry.py:173-175 | the order of words: a prefix first, else by the first character that differs |
| `Text.WordsOfJoined` | src/memcontam/main_registry.py:127 | splitting at blanks undoes joining by blanks |
| `Sorting.SortedTuple` | scripts/diagnose_phase13_mr_p5_closure.py:84 | a set becomes a sorted sequence with the same elements and no repetition |

## Left out

- Filter branches: `route_candidate_write` and the filtered state live in `memory/`, which is not part of this model;
  all baselines are modelled without a filter.
- Native seed entries: Reflexion and BoT states may hold them in a second form, which is converted on reading; the
  model keeps the converted entries only.
- The python_sandbox tool loops of DC-RS and BoT: a generation is its final content or a failure.
- Provider retries, recorders, prompt texts and prompt-event consistency checks.
- The non-core DC-RS variants, whose lineage may be approximate.
- BoT in the grid refinement: a non-clean buffer forks from the clean one of the same moment, so its final store is
  not a function of its own rows; the fork itself is modelled in `Grid.Before`.
- Flat replay lists in the grid refinement: they couple trials on purpose; the shared cursor is modelled, and
  independence is stated for keyed samples.
- `retrieval_rag` and `no_memory` trials beyond their place in the grid.
- Grid.GridRun.RunTrial: does not model what a trial does inside, which is a parameter; the baselines are modelled on
  their own. An error raised while a finished trial is being written to the log is not modelled either.
- Argument, ownership, mode and device checks of the publication script: one `admitted` flag. Extra hard links made
  by others, several publishers at once and what a power loss does to unsynced data are not modelled.
- The t3-binding writer, which repeats the publication protocol for another payload.
- Python's recursion limit in `visit`.
- The remaining checks of the log validator: sequence numbers, call and filter joins, answer exposure, frozen
  checkpoints.
- Grouping.MetricGroup: does not model the latency minimum, mean and maximum or the BoT update counts, which are
  easy members.
- Grouping.AggregateRun: reads a strict run; the legacy mode without call and failure logs is left out.
- `bootstrap_seeds` over several metrics, which share one random generator: each interval gets arbitrary draws; the
  rejection of panels that are not keyed by seed.
- How a directory of Python files is parsed into imports: `ImportClosure.Source` holds the result.
- The rule texts of registered behaviour tests and the coercion of nested interval objects: `Intervals` starts from
  the test and the coerced interval.
- Rounding of Decimal and float arithmetic, and the infinities and NaN that count as not numeric.
- Evidence, authority and inspection scripts and configuration schemas, which are finite comparisons.
