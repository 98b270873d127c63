# The incremental compiler core of tuonelang, and the tools that measure it

This project models five parts of the repository and proves what each of them is for.

1. **The red-green query engine and its compiler wiring.** `QueryEngines.QueryEngine` is the engine of
   `tuo-db`: revision counter, memos with `changedAt`/`verifiedAt` stamps and recorded dependencies, dependency
   frames, cycle check, early cutoff, cooperative cancellation, execution log. A host is a step program: given the
   answers read so far it asks for a query or an input, returns, or fails, so dependencies stay dynamic and every
   read is tracked. `EngineSessions.Drive` runs any interleaving of edits, queries and cancellations, and shows that
   every answer is the from-scratch one. `IncrementalSessions.IncrementalSession` is the session of
   `tuo-compiler` on that engine: files, the whole-program snapshot memoized per revision, the ten query kinds, spec
   selection. Its queries slice a snapshot the engine does not track; `SessionClaims` says what their values are as
   functions of tracked inputs alone, and `SessionTruth` shows that this is what the session computes.
2. **Near-duplicate detection.** Brace-matched spec stripping, the alpha-renaming shape and why it is a canonical
   form, the Jaccard index and its triangle inequality, and the greedy deduplication that runs before the
   contamination checks.
3. **Wire positions.** One-based line and column against UTF-8 byte offsets, both ways, over the table of line
   starts.
4. **The benchmark.** Assembling and judging a generation, the repair loop, the re-scorer, the FNV-1a digest that
   pins a benchmark task, and the metrics of the report.
5. **Source regions.** Which function an offset lies in, read off declaration starts in two ways, and which names
   that makes visible; the active argument of a call.

Objects that the program updates in place are classes here (`QueryEngine`, `IncrementalSession`, `Fnv`), its loops
are methods with invariants, and each is proved against a function or predicate whose properties are then proved as
lemmas. Pure projections are functions; what each tells apart is proved beside it (`Digests`, `Fingerprints`,
`ShapeFacts`, `Feedbacks`).

## How to read the main results

- `EngineStore.Inv` is the engine's invariant: every memo replays its program on the answers it read; each
  dependency is confirmed at least as late as its dependent, and while its stamp does not exceed the dependent's it
  still holds what was read. `EngineStore.Evolves` is what one revision may do to the memos and the log.
  `EngineRun.Serves` adds that nothing ran which evaluating the query from scratch would not compute.
- `EngineLives.Life` is any history of edits and queries of an engine, `SessionMinimality.SessionLife` one of a session
  from any valid state on. What is claimed of what edits re-execute is claimed of every such life, and
  `SessionReplay.Replay` shows that whatever is done with a session is one.
- `QueryModel.Describes` relates a running host to claims about it, so that a host with untracked reads can still be
  shown right where it is right. A pure host describes itself (`QueryModel.PureHostDescribesItself`).
- The session's standing hypotheses are `SessionClaims.NoCollision` (text fingerprints do not collide on the texts a
  run uses) and `SessionClaims.WellResolved` (the resolver records dependencies for specs alone, and declarations lie
  in files of the program). `SessionClaims.InterfacesLocal` (a file's interface is a function of its text and the
  resolution digest) is asked for only where interfaces and signature types are claimed, and
  `SessionStaleness.LowersWell` (signatures and a function's own declaration fix the outline of its MIR, which shows
  whatever else lowering looks up) only where a MIR answer is said to be right or wrong.
  `SessionTruth.HypothesesCanHold` gives a program where all of them hold.

## Where the code and its documentation disagree

The model follows the code.

- `spec_closure` is documented as transitive (incremental.rs:854-856). The resolver records dependency lists for specs
  alone (resolver.rs:828-831), so the closure is one level deep (`ClosureIsOneLevel`). An edit of a function that a
  spec reaches only through another function does not select the spec (`IndirectCalleeIsMissed`); a spec named by a
  string has no declaration and is not selected when its own file changes (`StringNamedSpecIsMissed`).
  `SelectionIsAlwaysRightExactly` says for which specs the selection is right whatever is edited.
- For the same reason `spec_dependencies` *is* the from-scratch answer on a long-lived session
  (`IncrementalSession.SpecDependencies`), although its recorded dependencies would not justify a transitive closure.
- `mir_of` can answer with MIR of an earlier program, since lowering writes into a function's MIR what the engine does
  not track: the values of the consts it names, in whatever file, and the layouts of the types it uses. Where edits
  keep signatures and the function's declaration, the answer is right exactly when the program stays accepted and what
  lowering looks up stays the same, or the function is lowered in neither program (`MirIsRightExactly`). Two sessions
  that answer wrongly: a const is edited, in the function's own file or another (`AConstGoesStale`); an edit of another
  file gets the program rejected (`AMirGoesStale`). An interface can be stale in the same way, in some session
  wherever `InterfacesLocal` fails (`InterfaceGoesStale`, `LocalityIsBroken`) and in none where it holds
  (`LocalInterfacesAreRight`); a session in which a signature follows another file, `AnInterfaceGoesStale`.
- `_without_specs` can turn balanced braces into unbalanced ones (`StrippingCanUnbalance`; exactly when:
  `StrippingKeepsBalanceExactly`).
- The rendered shape confuses a name such as `NUM` with a literal (`RenderingCanConfuse`; exactly when:
  `SameShapeExactly`); the tagged shape does not.
- `to_offset` promises the nearest valid position. An explicit offset inside a multi-byte character is kept as it is and
  has no line or column (`OffsetIsTakenAsItIs`, `OffsetInsideAScalar`).
- The digest is said to change with every change of its fields. Two benchmark tasks that differ in where a separator
  character stands fold alike (`SeparatorsConfuse`); edits within four adjacent bytes always show
  (`LocalEditChangesDigest`); tags are not pinned (`LocalEditIsReported`).
- Feedback about the very end of a newline-terminated generation is attributed to the appended spec
  (`FeedbackAttributedExactly`). A program that cannot be stored is one over 4 GiB, not one with an interior NUL.
- `rescore` finds the variant by its label, so a variant called `default` takes over the default spelling
  (`DefaultLabelConfuses`), and of two tasks that share an id the first takes over the other's. `RescoreReproduces` and
  `MisresolvedRunIsNotReproduced` together say exactly when re-scoring reproduces every run of a task and variant.
- At the greatest 32-bit offset the two readings of "which function am I in" part, exactly when what is declared last is
  a function (`GreatestOffsetDisagrees`).
- The active argument is documented as the index of the argument the cursor is in, and null outside an argument list.
  It is counted on raw text from the called name on. Past the closing bracket the last index is still reported
  (`ClosedCallStillCounts`); commas between explicit type arguments are counted, so `swap::[A, B](x` answers 1
  (`TypeArgumentsAreCounted`); brackets and commas in literals are read like code, so `("a,b",` answers 2
  (`LiteralsAreCounted`). For every text, exactly when the answer is the documented one: `DocumentedExactly`; in terms of
  what a caller sees, where literals and comments hold no brackets, `DocumentedWithoutTextBrackets`, and where they hold
  no commas either, `DocumentedInPlainCode`.

## Model

| member | source | states |
|---|---|---|
| `QueryModel.PureHostDescribesItself` | crates/tuo-db/src/lib.rs:53-77 | a host that obeys the purity rules meets the hypotheses of every engine result |
| `QueryModel.NeedsTrans` | crates/tuo-db/src/engine.rs:230-251 | what a from-scratch evaluation computes is closed under dependencies of dependencies |
| `QueryEngines.QueryEngine.constructor` | crates/tuo-db/src/engine.rs:254-259 | a new engine is at revision 0, with no memo and nothing running |
| `QueryEngines.QueryEngine.BumpInput` | crates/tuo-db/src/engine.rs:269-272 | advances the revision, stamps the input, and keeps the invariant although the input's value changed |
| `QueryEngines.QueryEngine.RequestCancellation` | crates/tuo-db/src/engine.rs:287-289 | raises the flag and changes nothing else |
| `QueryEngines.QueryEngine.ClearCancellation` | crates/tuo-db/src/engine.rs:292-294 | lowers the flag and changes nothing else |
| `QueryEngines.QueryEngine.ClearExecutions` | crates/tuo-db/src/engine.rs:316-318 | empties the log and changes nothing else |
| `QueryEngines.QueryEngine.CheckCancelled` | crates/tuo-db/src/engine.rs:345-364 | looks at the flag; a request under way may land just before |
| `QueryEngines.QueryEngine.Query` | crates/tuo-db/src/engine.rs:331-337 | an answer is the from-scratch answer on the current inputs; it is cancelled exactly when a request stands, whenever it landed; whatever happens, the invariant holds and nothing is left running |
| `QueryEngines.QueryEngine.FetchInputDep` | crates/tuo-db/src/engine.rs:345-353 | records the input in the running frame and returns its stamp, unless cancelled |
| `QueryEngines.QueryEngine.Record` | crates/tuo-db/src/engine.rs:345-366 | appends one dependency to the top frame, if any |
| `QueryEngines.QueryEngine.Fetch` | crates/tuo-db/src/engine.rs:357-391 | reuses a memo confirmed now, confirms one whose dependencies hold, or recomputes; the result is confirmed in this revision; the cycle check never fires |
| `QueryEngines.QueryEngine.Confirm` | crates/tuo-db/src/engine.rs:379-385 | advances only the verification stamp, which the dependencies justify |
| `QueryEngines.QueryEngine.Recompute` | crates/tuo-db/src/engine.rs:397-429 | runs the host, logs the execution, installs the memo with its recorded dependencies; an equal value keeps its old change stamp; an abandoned run installs nothing |
| `QueryEngines.QueryEngine.RunHost` | crates/tuo-db/src/engine.rs:397-418 | the recorded dependencies are exactly what the host asked, in order, and justify the value it returned |
| `QueryEngines.QueryEngine.DepsUnchangedSince` | crates/tuo-db/src/engine.rs:438-467 | true only if every dependency is confirmed and unchanged since the stamp, false only if one changed after it |
| `QueryEngines.QueryEngine.DepChangedAt` | crates/tuo-db/src/engine.rs:445-462 | revalidates a memoized dependency and leaves the earlier ones and the owner's memo as they were |
| `QueryEngines.QueryEngine.RevalidateMemoized` | crates/tuo-db/src/engine.rs:481-508 | confirms or recomputes a memo and returns when its value last changed |
| `EngineStore.FreshEval` | crates/tuo-db/src/lib.rs:39-51 | whatever a memo confirmed in this revision holds is what evaluating its key from scratch gives |
| `EngineStore.StaleRunFails` | crates/tuo-db/src/engine.rs:438-467 | a dependency that fails while the earlier ones hold makes the dependent fail the same way |
| `EngineStore.PathToDep` | crates/tuo-db/src/engine.rs:438-467 | revalidation asks only for what evaluating from scratch asks for too |
| `EngineStore.ConfirmKeepsInv` | crates/tuo-db/src/engine.rs:379-385 | confirming a memo whose dependencies all hold keeps the invariant of every memo |
| `EngineStore.InstallKeepsInv` | crates/tuo-db/src/engine.rs:397-429 | installing a fresh result, with the old change stamp when equal, keeps the invariant of every memo |
| `EngineStore.BumpKeepsInv` | crates/tuo-db/src/engine.rs:269-272 | an input may change value as long as it is stamped: no memo that read it can be confirmed unnoticed |
| `EngineStore.ConfirmedStays` | crates/tuo-db/src/lib.rs:71-74 | a result confirmed in a revision neither runs again nor changes in it, cancellations included |
| `EngineStore.EvolvesTrans` | crates/tuo-db/src/engine.rs:357-508 | steps of one revision compose: each key runs at most once, with a cause, and equal values keep their stamps |
| `EngineRun.Joined` | crates/tuo-db/src/engine.rs:357-391 | work for a dependency is work for the dependent |
| `EngineRun.Advance` | crates/tuo-db/src/engine.rs:230-251 | a run so far survives whatever fetching one more dependency does |
| `EngineRun.Finish` | crates/tuo-db/src/engine.rs:397-429 | a finished run may be installed: it was provoked before it ran and still is |
| `EngineRun.OwnerFails` | crates/tuo-db/src/engine.rs:438-467 | an error met while revalidating is the error evaluating from scratch meets |
| `EngineSessions.Drive` | crates/tuo-db/src/lib.rs:39-77 | after any interleaving of input edits, queries and cancellation requests, every query that is not cancelled answers exactly what from-scratch evaluation on the inputs of that moment answers; with no request standing none is cancelled; the states passed through are a history as the minimality rows describe it |
| `EngineSessions.AskPure` | crates/tuo-db/src/lib.rs:71-74 | asking again after an abandoned query gives the right answer |
| `EngineSessions.RunIsKnown` | crates/tuo-db/src/lib.rs:58-61 | evaluating a pure host from scratch always has an outcome |
| `EngineMinimality.RunsOnlyOnChange` | crates/tuo-db/src/lib.rs:39-44 | over any history of edits and queries: a key runs only if a dependency it had recorded was edited or changed value since any time the key was confirmed |
| `EngineMinimality.KeepsWhileDepsKeep` | crates/tuo-db/src/lib.rs:42-44 | early cutoff over any history: once confirmed, while no recorded dependency moves, the key does not run and keeps its value and dependencies |
| `EngineMinimality.ReuseIsJustified` | crates/tuo-db/src/engine.rs:438-467 | no stale reuse, over any history: a key confirmed at two moments without running in between has dependencies that hold what they held |
| `EngineMinimality.NeededIsConfirmed` | crates/tuo-db/src/engine.rs:357-391 | once a query is confirmed, so is everything evaluating it from scratch computes |
| `EngineMinimality.AskingAgainRunsNothing` | crates/tuo-db/src/engine.rs:363-366 | asking again with no edit in between executes nothing |
| `SessionHost.ComputeRanks` | crates/tuo-compiler/src/incremental.rs:579-694 | every wired kind reads only kinds of smaller rank, and finitely many |
| `SessionHost.HostIsWellRanked` | crates/tuo-compiler/src/incremental.rs:579-694 | so every session query terminates, and none fails |
| `SpecClosures.ComputeSpecClosure` | crates/tuo-compiler/src/incremental.rs:857-876 | the work-stack search terminates on cyclic graphs and with duplicates on the stack |
| `SpecClosures.PushUnseen` | crates/tuo-compiler/src/incremental.rs:869-873 | pushes exactly the dependencies not yet seen, in order |
| `SpecClosures.ClosureIsReachability` | crates/tuo-compiler/src/incremental.rs:854-876 | the closure holds exactly the symbols some chain of recorded dependencies reaches from the spec's dependencies and target |
| `SpecClosures.Listed` | crates/tuo-compiler/src/incremental.rs:875-876 | it is listed in increasing order, each symbol once |
| `SpecClosures.ClosureIsOneLevel` | crates/tuo-resolve/src/resolver.rs:828-864 | with dependencies recorded for specs alone it is the spec's own references and its target |
| `SessionClaims.TextsComeBack` | crates/tuo-compiler/src/incremental.rs:710-727 | without fingerprint collisions the parse digests determine the file texts |
| `SessionClaims.ClaimsAreWellFormed` | crates/tuo-compiler/src/incremental.rs:579-694 | the claimed programs are acyclic, and a value once settled stays so |
| `SessionTruth.EvalParse` | crates/tuo-compiler/src/incremental.rs:582-590 | a parse from scratch is the digest of the file's current text |
| `SessionTruth.EvalWholeProgram` | crates/tuo-compiler/src/incremental.rs:603-621 | the resolution and the spec graph from scratch are those of compiling the current files |
| `SessionTruth.EvalInterface` | crates/tuo-compiler/src/incremental.rs:591-602 | where interfaces are local, an interface from scratch is the current program's |
| `SessionTruth.EvalTypeOf` | crates/tuo-compiler/src/incremental.rs:622-635 | and a declared item's signature type is the current program's |
| `SessionTruth.EvalSpecDeps` | crates/tuo-compiler/src/incremental.rs:670-691 | a spec's closure from scratch is its closure in the current resolution |
| `SessionTruth.GraphGivesClosure` | crates/tuo-compiler/src/incremental.rs:831-876 | the spec-graph digest determines every closure |
| `SessionTruth.ClaimsDescribeSession` | crates/tuo-compiler/src/incremental.rs:579-694 | on every history of true answers the session steps as claimed, its untracked snapshot reads included |
| `IncrementalSessions.IncrementalSession.constructor` | crates/tuo-compiler/src/incremental.rs:237-245 | a new session has no files and satisfies the session invariant |
| `IncrementalSessions.IncrementalSession.FindName` | crates/tuo-compiler/src/incremental.rs:249-261 | finds a file by its interned name if and only if there is one |
| `IncrementalSessions.IncrementalSession.SetFile` | crates/tuo-compiler/src/incremental.rs:249-261 | replaces one text or adds a file at the end, bumps exactly those inputs, drops the snapshot, and keeps every memo justified |
| `IncrementalSessions.IncrementalSession.ReplaceText` | crates/tuo-compiler/src/incremental.rs:249-261 | changes one input by one revision |
| `IncrementalSessions.IncrementalSession.AddText` | crates/tuo-compiler/src/incremental.rs:249-261 | changes the file set and then the text, one revision each |
| `IncrementalSessions.IncrementalSession.EnsureSnapshot` | crates/tuo-compiler/src/incremental.rs:485-504 | the snapshot is the compilation of the current files and no revision is compiled twice |
| `IncrementalSessions.IncrementalSession.Ask` | crates/tuo-compiler/src/incremental.rs:579-590 | an answer agrees with the from-scratch value, has the shape its accessor expects, and leaves the session valid |
| `IncrementalSessions.IncrementalSession.Parse` | crates/tuo-compiler/src/incremental.rs:278-284 | after any run the parse diagnostics are those of the current text |
| `IncrementalSessions.IncrementalSession.Resolution` | crates/tuo-compiler/src/incremental.rs:292-295 | after any run the resolution digest is that of the current files |
| `IncrementalSessions.IncrementalSession.TypeOfFunction` | crates/tuo-compiler/src/incremental.rs:303-309 | where interfaces are local, a declared item's type is the current one |
| `IncrementalSessions.IncrementalSession.MirOf` | crates/tuo-compiler/src/incremental.rs:317-323 | MIR just executed is the current MIR |
| `IncrementalSessions.IncrementalSession.SpecDependencies` | crates/tuo-compiler/src/incremental.rs:331-339 | after any run a spec's dependencies are its closure in the current resolution |
| `IncrementalSessions.IncrementalSession.AffectedSpecs` | crates/tuo-compiler/src/incremental.rs:427-451 | lists exactly the specs declared in a changed file or whose closure meets a symbol declared there, in declaration order and once each |
| `IncrementalSessions.IncrementalSession.Touches` | crates/tuo-compiler/src/incremental.rs:436-449 | decides one spec |
| `IncrementalSessions.ChangedSymbols` | crates/tuo-compiler/src/incremental.rs:776-787 | collects exactly the symbols declared in the given files |
| `IncrementalSessions.WiringStays` | crates/tuo-compiler/src/incremental.rs:579-694 | no memo ever records a dependency its kind does not read |
| `Digests.ResolutionTellsExactly` | crates/tuo-compiler/src/incremental.rs:821-828 | two programs have the same resolution digest exactly when they have the same symbols, by name and kind at every id |
| `Digests.InterfaceTellsExactly` | crates/tuo-compiler/src/incremental.rs:789-818 | a file has the same interface in two programs exactly when it declares the same items, with the same names, kinds, visibilities and signatures |
| `Digests.SpecGraphTellsExactly` | crates/tuo-compiler/src/incremental.rs:831-852 | two programs have the same spec graph exactly when they have the same specs, each with its target and dependencies |
| `SessionReplay.SetAll` | crates/tuo-compiler/src/incremental.rs:249-261 | setting any files, old or new, leaves the listing with each text in its place, drops no memo, and stamps only the files named |
| `SessionReplay.AskAll` | crates/tuo-compiler/src/incremental.rs:278-339 | any queries asked at one revision are each answered, unless cancelled, and stay up to date |
| `SessionReplay.Replay` | crates/tuo-compiler/src/incremental.rs:237-465 | any valid session, driven through any edits, queries and cancellations, passes through moments to which the following rows apply |
| `SessionMinimality.NotExecuted` | crates/tuo-compiler/src/incremental.rs:28-46 | in any session life, a confirmed key none of whose recorded dependencies moves does not run and does not move |
| `SessionMinimality.ConfirmedIsSlice` | crates/tuo-compiler/src/incremental.rs:579-694 | whatever a session went through, a confirmed parse, resolution, spec graph or closure is the slice of the current program, and where interfaces are local so are interfaces and declared types |
| `SessionMinimality.NoOtherFileIsParsed` | crates/tuo-compiler/src/incremental.rs:28-46 | a file that is not set is not parsed again |
| `SessionMinimality.NoOtherInterfaceIsResliced` | crates/tuo-compiler/src/incremental.rs:28-46 | edits that keep a file's text and the resolution digest do not re-slice its interface |
| `SessionMinimality.NoTypeIsRechecked` | crates/tuo-compiler/src/incremental.rs:28-46 | edits that keep resolution and interfaces run no type query, in any session whose interfaces are right |
| `SessionMinimality.LocalInterfacesAreRight` | crates/tuo-compiler/src/incremental.rs:791-818 | which they are in every session where interfaces are local |
| `SessionMinimality.OnlyEditedBodiesAreLowered` | crates/tuo-compiler/src/incremental.rs:636-669 | nor any MIR query of a function whose body hash the edits do not reach |
| `SessionMinimality.NoSpecGraphIsRewalked` | crates/tuo-compiler/src/incremental.rs:670-691 | nor, if the spec graph stays, any spec query |
| `SessionStaleness.FreshSessionIsPrimed` | crates/tuo-compiler/src/incremental.rs:28-46 | asking a session that has computed nothing leaves every memo confirmed and equal to its slice of the program |
| `Lowerings.LoweredExactly` | crates/tuo-mir/src/lower.rs:210-238 | the lowered functions are exactly those for which everything lowering looks up elsewhere is there, each with its outline filled in |
| `Lowerings.LastOneCounts` | crates/tuo-compiler/src/incremental.rs:549-557 | the text kept for a function is the one lowered last |
| `Lowerings.BodyHashExactly` | crates/tuo-compiler/src/incremental.rs:558-562 | a body hash is kept for exactly the lowered functions whose declaration is located, and is the fingerprint of that declaration |
| `Lowerings.FilledAlikeExactly` | crates/tuo-mir/src/print.rs:274-285 | where answers can be told from the text they stand in, one outline filled from two programs comes out the same exactly when the answers are the same |
| `Lowerings.ApartReadsBack` | crates/tuo-mir/src/print.rs:274-289 | answers no one of which begins another can always be told from the text they stand in |
| `Lowerings.IntConstantsAreApart` | crates/tuo-mir/src/print.rs:282 | different integer constants of a kind are such answers, negative ones included |
| `SessionStaleness.LoweredNow` | crates/tuo-compiler/src/incremental.rs:541-566 | a function is lowered exactly when the program is accepted and answers every question lowering asks |
| `SessionStaleness.SameMirExactly` | crates/tuo-mir/src/lower.rs:82-129 | two programs with the same signatures and declaration give a function the same MIR exactly when both are accepted and answer alike, or neither lowers it |
| `SessionStaleness.MirIsRightExactly` | crates/tuo-compiler/src/incremental.rs:652-669 | in any session life, a MIR answer the edits do not reach is right exactly when the program was and is accepted and the consts and layouts lowering looks up are what they were, or the function is lowered in neither |
| `SessionStaleness.KeptIsUnreached` | crates/tuo-compiler/src/incremental.rs:636-651 | an edit that keeps the text of the function's file, or the hash of its declaration alone, does not reach its body query |
| `SessionStaleness.MirGoesStale` | crates/tuo-compiler/src/incremental.rs:652-669 | a session asked before and after such an edit, signatures staying, answers with the MIR of the program before: wrongly exactly when the edit changes whether the program is accepted or what lowering looks up |
| `SessionStaleness.AMirGoesStale` | crates/tuo-compiler/src/incremental.rs:541-566 | one program and edit where that answer is wrong: the program is rejected and has no MIR |
| `SessionStaleness.ConstWorldLowersWell` | crates/tuo-mir/src/lower.rs:1384-1389 | what is asked of lowering holds of programs in which a function names a const |
| `SessionStaleness.AConstGoesStale` | crates/tuo-mir/src/lower.rs:1415-1417 | another, every program being accepted: a const the function names is edited, in its own file or another, and the session still shows the old value |
| `SessionReexecution.MirRecords` | crates/tuo-compiler/src/incremental.rs:652-669 | lowering a function records its signature and its own body, nothing else |
| `SessionReexecution.BodyRecords` | crates/tuo-compiler/src/incremental.rs:636-651 | hashing a body records the parse of the file that declares it |
| `SessionReexecution.SpecRecords` | crates/tuo-compiler/src/incremental.rs:670-691 | a spec records the spec graph and the type of every function in its closure, nothing else |
| `SessionReexecution.ReusedOnlyIfSame` | crates/tuo-compiler/src/incremental.rs:28-46 | in any session life, a query reused without running has dependencies that hold what they held |
| `SessionReexecution.EditedIsRelowered` | crates/tuo-compiler/src/incremental.rs:652-662 | an edit that changes the text of a function's file and the hash of its declaration lowers it again |
| `SessionReexecution.EditedBodyIsLowered` | crates/tuo-compiler/src/incremental.rs:652-669 | a session asked before and after such an edit answers with the MIR of the program as it is |
| `SessionReexecution.ResolutionsTell` | crates/tuo-compiler/src/incremental.rs:603-612 | the resolution digests a session holds at two moments are the same exactly when the programs have the same symbols |
| `SessionReexecution.InterfacesTell` | crates/tuo-compiler/src/incremental.rs:591-602 | where interfaces are local, the interfaces it holds are the same exactly when the file declares the same items |
| `SessionReexecution.SpecGraphsTell` | crates/tuo-compiler/src/incremental.rs:613-621 | the spec graphs it holds are the same exactly when the programs have the same specs, targets and dependencies |
| `SessionStaleness.InterfaceIsRightExactly` | crates/tuo-compiler/src/incremental.rs:821-828 | an interface kept under an equal text and resolution digest is right exactly when the two programs agree on it |
| `SessionStaleness.InterfaceGoesStale` | crates/tuo-compiler/src/incremental.rs:821-828 | any two programs that break the locality of interfaces make a session answer wrongly |
| `SessionStaleness.LocalityIsBroken` | crates/tuo-compiler/src/incremental.rs:791-828 | and there are such programs wherever locality fails, so locality is exactly what sessions need |
| `SessionStaleness.AnInterfaceGoesStale` | crates/tuo-compiler/src/incremental.rs:791-828 | one program and edit: a signature that follows another file |
| `AffectedSpecSoundness.UntouchedIsUnaffected` | crates/tuo-compiler/src/incremental.rs:415-451 | a spec that uses nothing in a changed file, however far down, has the outcome it had, under every semantics built from texts and outcomes |
| `AffectedSpecSoundness.TouchedCanChange` | crates/tuo-compiler/src/incremental.rs:415-451 | one that does can change outcome |
| `AffectedSpecSoundness.SkippingIsSafeExactly` | crates/tuo-compiler/src/incremental.rs:415-451 | skipping a spec is safe for every edit of the files if and only if it uses nothing in them |
| `AffectedSpecSoundness.SelectsOneLevel` | crates/tuo-compiler/src/incremental.rs:427-451 | a spec is selected if and only if it or something it names is declared in a changed file |
| `AffectedSpecSoundness.SelectedIsTouched` | crates/tuo-compiler/src/incremental.rs:427-451 | selection never over-selects |
| `AffectedSpecSoundness.SelectionIsAlwaysRightExactly` | crates/tuo-compiler/src/incremental.rs:415-451 | selection is right about a spec for every set of edited files exactly when whatever it uses stands in a file that also holds its own declaration or something it names |
| `AffectedSpecSoundness.UnselectedIsUnaffected` | crates/tuo-compiler/src/incremental.rs:415-451 | where outcomes follow the recorded edges, every spec not selected keeps its outcome |
| `AffectedSpecSoundness.ListsAreRightExactly` | crates/tuo-compiler/src/incremental.rs:415-451 | the lists returned are right about a spec, whatever is edited, exactly when its whole use is in sight |
| `AffectedSpecSoundness.SelectSpecs` | crates/tuo-compiler/src/incremental.rs:415-451 | end to end: every spec a session leaves out of its list keeps its outcome where outcomes follow the recorded edges, and of every spec whose use is in sight the list says whether the edit can change it |
| `AffectedSpecSoundness.IndirectCalleeIsMissed` | crates/tuo-compiler/src/incremental.rs:854-876 | a spec whose callee's callee is edited is not selected |
| `AffectedSpecSoundness.StringNamedSpecIsMissed` | crates/tuo-resolve/src/resolver.rs:398-417 | a string-named spec is not selected when its own file is edited |
| `SpecStripping.WithoutSpecs` | training/similarity.py:77-96 | the nested index loops terminate and drop exactly the blocks from a `spec` token after a separator to the brace that closes it |
| `SpecStripping.StripsSpecBlocks` | training/similarity.py:77-96 | of a program written as items and spec blocks, stripping leaves exactly the items |
| `SpecStripping.StrippedIsSubsequence` | training/similarity.py:77-96 | what is left are tokens of the stream, in place |
| `SpecStripping.StrippingIsIdempotent` | training/similarity.py:77-96 | stripping twice is stripping once |
| `SpecStripping.RemovedNet` | training/similarity.py:77-96 | in a balanced stream each removed block that opens is exactly one balanced group behind its header |
| `SpecStripping.StrippingKeepsBalanceExactly` | training/similarity.py:77-96 | a balanced stream stays balanced exactly when no removed header holds a closing brace |
| `SpecStripping.StrippingCanUnbalance` | training/similarity.py:77-96 | a stream where it does not |
| `ProgramShapes.Normalize` | training/similarity.py:99-121 | the loop over a growing dictionary gives each local name the number of its first occurrence |
| `ProgramShapes.NumberOf` | training/similarity.py:111-120 | a name keeps its number; a new one gets the next |
| `ProgramShapes.Shape` | training/similarity.py:99-121 | the shape is taken of the stream without its specs |
| `ShapeFacts.KeywordsAreReserved` | training/similarity.py:46-50 | the tool's keywords are the reserved words of the language |
| `ShapeFacts.ShapeKeepsExactly` | training/similarity.py:104-120 | only names that are no reserved word, in no path and not the module's own are numbered, only `pub` and the module's name are dropped, literals show their kind, every other token is kept |
| `ShapeFacts.HeaderLeavesTwo` | training/similarity.py:116-119 | a module header leaves its keyword and semicolon in front of the shape of what follows, and nothing of the module's name |
| `ProgramShapes.RenamingKeepsShape` | training/similarity.py:99-127 | renaming local names injectively and replacing literals by others of their kind leaves the shape as it is |
| `ProgramShapes.EqualShapesAreRenamings` | training/similarity.py:99-127 | equal tagged shapes come only from such a renaming |
| `ProgramShapes.RenamingCommutes` | training/similarity.py:77-121 | renaming commutes with stripping: what a token meets across a removed block decides nothing |
| `ProgramShapes.RenamedCopyHasSameShape` | training/similarity.py:99-127 | on a program's own tokens, spec blocks and all: a renamed copy has the shape of the original |
| `ProgramShapes.SameShapeExactly` | training/similarity.py:99-127 | two programs are the same up to renaming if and only if their rendered shapes are equal and keep tokens in the same places |
| `ProgramShapes.ClashFreeShapesDecide` | training/similarity.py:99-127 | where no kept token reads like a rendered one, rendered shapes alone decide |
| `ProgramShapes.RenderingCanConfuse` | training/similarity.py:99-121 | a pair where rendered shapes alone do not |
| `Decimals.DecimalInjective` | training/similarity.py:117-120 | different numbers render differently |
| `JaccardIndex.Jaccard` | training/similarity.py:145-148 | lies between 0 and 1, and is 1 on equal non-empty sets |
| `JaccardIndex.JaccardPositive` | training/similarity.py:145-148 | is positive exactly when the two share an element |
| `JaccardIndex.JaccardAtLeast` | training/similarity.py:145-148 | few elements apart mean a high index |
| `JaccardIndex.JaccardSymmetric` | training/similarity.py:145-148 | does not depend on the order |
| `JaccardIndex.JaccardTriangle` | training/similarity.py:145-148 | one minus the index satisfies the triangle inequality |
| `Overlap.ProgramSimilarity` | training/similarity.py:196-204 | lies between 0 and 1 |
| `Fingerprints.HeaderIsIgnored` | training/similarity.py:124-127 | a module header changes nothing a program is compared by |
| `Fingerprints.ShinglesExactly` | training/similarity.py:130-133 | a fingerprint holds exactly the runs of its length that stand somewhere in the stream |
| `Fingerprints.SimilarExactly` | training/similarity.py:196-204 | two different programs long enough to compare score above zero exactly when their shapes share five consecutive tokens |
| `Fingerprints.ShortScoresExactly` | training/similarity.py:196-204 | with fewer than twelve runs programs score 1 if they have one shape of at least eight tokens, else 0 |
| `Fingerprints.TasksSimilarExactly` | training/similarity.py:139-142 | two tasks score above zero exactly when they share three consecutive words |
| `Fingerprints.EditedCopyScores` | training/similarity.py:130-133 | programs whose shapes differ in one stretch, x here and y there, score at least (n - x - 4) / (n + y + 4), n being the runs of the first |
| `Overlap.SimilaritySymmetric` | training/similarity.py:196-204 | does not depend on the order |
| `Overlap.SimilarityTriangle` | training/similarity.py:196-204 | loses at most what two steps lose, identical shapes and programs too small to compare included |
| `Overlap.RenamedCopyScoresOne` | training/similarity.py:196-204 | a renamed copy of a long enough program scores 1 |
| `Overlap.NearDuplicates` | training/similarity.py:207-233 | the loop reports the matches among the pairs compared |
| `Overlap.JudgedExactly` | training/similarity.py:223-232 | a pair is reported by its program if and only if that reaches the threshold, else by its task if and only if there is a task threshold and it reaches that |
| `Overlap.ThresholdsDecide` | training/overlap.py:98-135 | the thresholds at which the benchmark, eval and training checks refuse a pair |
| `Overlap.ReportedExactly` | training/similarity.py:207-233 | the report lists exactly the pairs that reach a threshold, each once and in order |
| `Overlap.EmptyReportMeansApart` | training/similarity.py:207-233 | an empty report means every pair is below both thresholds |
| `Overlap.EmptyReportMeansDistinct` | training/overlap.py:138-141 | the same for the pairs within one list |
| `Overlap.HarvestDuplicates` | training/overlap.py:144-155 | the loop returns, in increasing order, the indices of exactly the items that copy a seed or an earlier kept one; dropped and kept add up |
| `Overlap.KeptOrDropped` | training/overlap.py:144-155 | an item is dropped exactly when it copies a seed or an earlier kept one, and kept otherwise |
| `Overlap.KeptAreApart` | training/overlap.py:144-155 | no kept item copies a seed or an earlier kept item |
| `Overlap.DroppedIsShadowed` | training/overlap.py:144-155 | a dropped item is, to within a tenth, as close to anything as some kept item |
| `Overlap.CheckingKeptIsEnough` | training/overlap.py:132-135 | listing the kept items against others and finding nothing at a threshold leaves no harvested item, dropped ones included, a tenth above it |
| `Overlap.EvalCheckCoversDropped` | training/overlap.py:98-129 | a passing eval check, which compares with kept items only, leaves every harvested item below 0.8 to every eval item, dropped ones included |
| `Overlap.NoBenchmarkCopyIsHarvested` | training/generate.py:588-599 | so an accepted set holds no copy of a benchmark program |
| `Utf8.EncodingDecodes` | crates/tuo-agent/src/convert.rs:46-79 | the UTF-8 bytes of a text (section 3 of RFC 3629) determine it |
| `Utf8.AsciiStandsForItself` | crates/tuo-codegen-bench/src/task.rs:243-250 | a byte below 0x80 occurs in the encoding exactly where its character occurs in the text |
| `WirePositions.ComputeOffset` | crates/tuo-agent/src/convert.rs:46-79 | the byte-counting walk finds the offset of the character that line and column name, or the clamped explicit offset |
| `WirePositions.MissingIsFirst` | crates/tuo-agent/src/convert.rs:46-79 | a missing line or column is the first one, as is one numbered zero |
| `WirePositions.FindLine` | crates/tuo-agent/src/convert.rs:54-68 | finds the start of the requested line if and only if the text has it |
| `WirePositions.NextLine` | crates/tuo-agent/src/convert.rs:58-67 | steps over the rest of a line and its newline |
| `WirePositions.StepColumns` | crates/tuo-agent/src/convert.rs:69-79 | stops at the column, the newline or the end of the text |
| `WirePositions.LineAndColumnRoundTrip` | crates/tuo-agent/src/convert.rs:46-95 | the line and column returned for a character boundary alone lead back to it, for every text |
| `WirePositions.ClampingIsIdempotent` | crates/tuo-agent/src/convert.rs:46-95 | converting a resolved position back and forth changes nothing |
| `WirePositions.ResolvesOnTheLine` | crates/tuo-agent/src/convert.rs:48-52 | a line and column always resolve to a character boundary of the text, on the requested line or at the end |
| `WirePositions.ResolvesTheColumn` | crates/tuo-agent/src/convert.rs:69-79 | at the requested column or at the end of the line |
| `WirePositions.ResolutionIsMonotone` | crates/tuo-agent/src/convert.rs:46-79 | monotone in the lexicographic order of line and column |
| `WirePositions.OffsetIsTakenAsItIs` | crates/tuo-agent/src/convert.rs:51-55 | an explicit offset resolves to a valid position exactly when it is a boundary or at or past the end |
| `WirePositions.OffsetInsideAScalar` | crates/tuo-agent/src/convert.rs:51-55 | an offset that does not |
| `WirePositions.PositionFits` | crates/tuo-agent/src/convert.rs:88-95 | the one-based line and column fit 32 bits below the greatest offset |
| `WirePositions.LineOfIndex` | crates/tuo-source/src/text.rs:244-257 | counting newlines and walking lines agree |
| `WirePositions.BytesAreEncoded` | crates/tuo-agent/src/convert.rs:69-79 | adding up character widths gives the length of the encoding |
| `LineTables.BuildLineStarts` | crates/tuo-source/src/text.rs:132-143 | one pass builds the table of line starts |
| `LineTables.LineColOf` | crates/tuo-source/src/text.rs:217-257 | looking an offset up in the table gives its line and column, or says why there is none |
| `LineTables.IndexOf` | crates/tuo-source/src/text.rs:217-231 | an offset is a character boundary if and only if a character stands at it |
| `LineTables.PartitionPoint` | crates/tuo-source/src/text.rs:246 | splits the table at the offset |
| `LineTables.TableFindsLine` | crates/tuo-source/src/text.rs:244-257 | the entry found is the start of the offset's own line |
| `Fnv1a.XorTwice` | crates/tuo-codegen-bench/src/task.rs:236-241 | exclusive or with a byte undoes itself |
| `Fnv1a.XorExactly` | crates/tuo-codegen-bench/src/task.rs:238 | each bit of the low byte is set exactly when that bit of the two differs, and the other bytes stay |
| `Fnv1a.KnownDigests` | crates/tuo-codegen-bench/src/task.rs:226-241 | the published FNV-1a values of the empty string and of `a` |
| `Fnv1a.MulUnmul` | crates/tuo-codegen-bench/src/task.rs:227-241 | multiplication by the prime modulo 2^64 has an inverse |
| `Fnv1a.FoldIsABijection` | crates/tuo-codegen-bench/src/task.rs:236-241 | folding a fixed byte string is a bijection of the 64-bit states |
| `Fnv1a.EditShowsExactly` | crates/tuo-codegen-bench/src/task.rs:236-241 | whatever surrounds it, an edit shows in the state exactly when the edited part alone leads elsewhere |
| `Fnv1a.FourBytesTold` | crates/tuo-codegen-bench/src/task.rs:226-241 | two strings of four bytes leading from one state to one state are the same |
| `Fnv1a.LocalEditChangesState` | crates/tuo-codegen-bench/src/task.rs:226-241 | an edit within four adjacent bytes always changes the state |
| `Fnv1a.HexTellsStates` | crates/tuo-codegen-bench/src/task.rs:252-254 | sixteen digits tell every two states apart |
| `Fnv1a.Fnv.constructor` | crates/tuo-codegen-bench/src/task.rs:230-234 | starts from the offset basis |
| `Fnv1a.Fnv.Write` | crates/tuo-codegen-bench/src/task.rs:236-241 | the loop folds the bytes into the state |
| `Fnv1a.Fnv.Field` | crates/tuo-codegen-bench/src/task.rs:245-250 | folds name, separator, value, separator |
| `TaskDigests.ComputeDigest` | crates/tuo-codegen-bench/src/task.rs:91-109 | the loops over specs, tests and variants fold the stream of all fields |
| `TaskDigests.StreamSpelledOut` | crates/tuo-codegen-bench/src/task.rs:91-109 | the names, separators and order of the fields that are folded, byte for byte |
| `TaskDigests.FramingDecodes` | crates/tuo-codegen-bench/src/task.rs:243-250 | fields without separator characters are recovered from the bytes they are framed in |
| `TaskDigests.FieldsTellTasks` | crates/tuo-codegen-bench/src/task.rs:91-109 | the field names tell specs, tests and nested variant specs apart |
| `TaskDigests.StreamDeterminesTask` | crates/tuo-codegen-bench/src/task.rs:84-109 | among benchmark tasks without separator characters, equal streams mean equal id, instruction, specs, tests and variants |
| `TaskDigests.SeparatorsConfuse` | crates/tuo-codegen-bench/src/task.rs:243-250 | with separators, a spec that spells out the next field folds like that field |
| `TaskDigests.LocalEditChangesDigest` | crates/tuo-codegen-bench/src/task.rs:84-109 | one string edited within four adjacent bytes always changes the digest |
| `TaskDigests.Pinned` | crates/tuo-codegen-bench/src/task.rs:150-163 | a set pinned from its content verifies |
| `TaskDigests.VerifyDigests` | crates/tuo-codegen-bench/src/task.rs:172-184 | returns the first stale pin, and none if and only if all hold |
| `TaskDigests.EditReportedExactly` | crates/tuo-codegen-bench/src/task.rs:165-184 | an edit without a new pin is reported, under that benchmark task, exactly when the digest moved |
| `TaskDigests.LocalEditIsReported` | crates/tuo-codegen-bench/src/task.rs:165-184 | so every local edit is reported, and no change of tags is |
| `TaskDigests.ReplacedCharacterIsReported` | crates/tuo-codegen-bench/src/task.rs:165-184 | as is one character replaced by another of the same width, anywhere |
| `Evaluations.Assemble` | crates/tuo-codegen-bench/src/evaluate.rs:188-198 | appends each spec behind a blank line |
| `Evaluations.AttributedExactly` | crates/tuo-codegen-bench/src/evaluate.rs:153-172 | a line number alone tells the generation from the appended specs, but for the very end of a newline-terminated generation |
| `Evaluations.LinesCounted` | crates/tuo-codegen-bench/src/evaluate.rs:76-78 | the number of lines is the number of newlines, plus an unterminated last line |
| `Evaluations.ErrorLinesOf` | crates/tuo-codegen-bench/src/evaluate.rs:153-172 | collects exactly the lines of the generation an error is located on |
| `Evaluations.RenderAll` | crates/tuo-codegen-bench/src/evaluate.rs:251-291 | one entry per error or warning, in order, attributed by its line |
| `Evaluations.FeedbackAttributedExactly` | crates/tuo-codegen-bench/src/evaluate.rs:260-291 | a diagnostic is shown as the model's own exactly when it lies in the generation or at its unterminated end |
| `Evaluations.EvaluateProgram` | crates/tuo-codegen-bench/src/evaluate.rs:74-148 | the stages read off the diagnostics and the spec run; an unstorable program fails them all |
| `Evaluations.EvaluationSays` | crates/tuo-codegen-bench/src/evaluate.rs:107-147 | parsed exactly when no error is lexical or syntactic, checked exactly when there is none, specs passed exactly when it checked and they ran and passed; as many invented names as undefined-name errors |
| `Feedbacks.EverySpecStands` | crates/tuo-codegen-bench/src/evaluate.rs:188-198 | the generation comes first and every spec stands behind it, whole, in order, behind an empty line |
| `Feedbacks.LinesAreTheText` | crates/tuo-codegen-bench/src/evaluate.rs:74-78 | the lines are the text cut behind every newline, without the terminators |
| `Feedbacks.FeedbackPlaced` | crates/tuo-codegen-bench/src/evaluate.rs:260-285 | a diagnostic is shown at the one-based line and column of its character, or at its line behind the generation's last |
| `Feedbacks.EvaluationShows` | crates/tuo-codegen-bench/src/evaluate.rs:112-140 | fed back are the program's own errors and warnings, each once and in order, and behind them what kept its specs from running |
| `Feedbacks.ErrorLinesExactly` | crates/tuo-codegen-bench/src/evaluate.rs:153-173 | the lines in error are those of the program's own errors, a library's not counted |
| `Evaluations.EvaluateTests` | crates/tuo-codegen-bench/src/evaluate.rs:177-185 | tests pass if and only if the program with them appended parses, checks and passes all specs, and then it invents nothing and has no line in error; without tests nothing is asked |
| `Evaluations.StagesNest` | crates/tuo-codegen-bench/src/evaluate.rs:36-148 | passing specs implies checking, which implies parsing, nothing invented and no line in error; flagged lines are lines of the generation |
| `Harnesses.IsUnrelatedEdit` | crates/tuo-codegen-bench/src/harness.rs:254-272 | true if and only if some differing line was not flagged |
| `Harnesses.RelatedRepairAddsNoLine` | crates/tuo-codegen-bench/src/harness.rs:247-272 | a repair of flagged lines only never adds a line |
| `Harnesses.RepairOfCheckedProgram` | crates/tuo-codegen-bench/src/harness.rs:247-253 | after an attempt that checked, a repair is unrelated exactly when it changes a line |
| `Harnesses.TakeTurn` | crates/tuo-codegen-bench/src/harness.rs:166-205 | records what evaluating the generation says and how it relates to the turn before |
| `Harnesses.ScoreTests` | crates/tuo-codegen-bench/src/harness.rs:231-245 | scores held-out tests only on a final program that checked |
| `Harnesses.RunTask` | crates/tuo-codegen-bench/src/harness.rs:149-226 | the loop runs the session turn by turn until it passes, the model fails or the budget is spent |
| `Rescoring.SessionIsGenuine` | crates/tuo-codegen-bench/src/harness.rs:149-226 | every recorded turn says of its output what compiling it says |
| `Rescoring.EveryTurn` | crates/tuo-codegen-bench/src/harness.rs:160-213 | every turn is the model's answer to a prompt that holds the task's instruction, the variant's label and note and, from the second turn on, the output before it with the feedback of evaluating it; it records that answer's verdicts and whether it edited an unflagged line |
| `Rescoring.ErrorIsTheModels` | crates/tuo-codegen-bench/src/harness.rs:180-186 | a run that ended in an error ended in the model's own, to the prompt of the next turn |
| `Rescoring.EveryRun` | crates/tuo-codegen-bench/src/harness.rs:104-226 | turns are numbered from zero within the budget; a run eventually succeeded if and only if its last turn passed; it ends for one of three reasons |
| `Rescoring.PassedWithinExactly` | crates/tuo-codegen-bench/src/harness.rs:134-141 | passing within n repairs is succeeding in at most n + 1 turns |
| `Rescoring.TestsScoredExactly` | crates/tuo-codegen-bench/src/harness.rs:231-245 | tests are scored exactly when there are some and the last turn checked, and passed exactly when its output passes with them for specs |
| `Rescoring.RescoreOne` | crates/tuo-codegen-bench/src/harness.rs:322-365 | the loop judges every recorded output again, each against the one before it |
| `Rescoring.FirstTaskIsFound` | crates/tuo-codegen-bench/src/harness.rs:322-325 | of several tasks with one id the first is scored against |
| `Rescoring.FirstVariantIsFound` | crates/tuo-codegen-bench/src/harness.rs:326-327 | of several variants with one label the first |
| `Rescoring.RescoreReproduces` | crates/tuo-codegen-bench/src/harness.rs:302-365 | a genuine run is reproduced but for latency when the first task of its id makes, by the recorded label, the same programs and tests them alike, or no task has its id |
| `Rescoring.MisresolvedRunIsNotReproduced` | crates/tuo-codegen-bench/src/harness.rs:322-365 | otherwise some compiler and model tell: the re-scored run is another |
| `Rescoring.LabelsResolve` | crates/tuo-codegen-bench/src/harness.rs:327-330 | labels that are distinct and never `default` lead back to their specs |
| `Rescoring.DistinctNamesLeadBack` | crates/tuo-codegen-bench/src/harness.rs:322-333 | with distinct ids too, every record of the set leads back |
| `Rescoring.DefaultLabelConfuses` | crates/tuo-codegen-bench/src/harness.rs:327-330 | a variant called `default` takes the default spelling over |
| `Rescoring.RescoreIgnoresClaims` | crates/tuo-codegen-bench/src/harness.rs:302-365 | what a record claims about itself never reaches the re-scored result |
| `Rescoring.RescoreIsIdempotent` | crates/tuo-codegen-bench/src/harness.rs:302-365 | re-scoring twice is re-scoring once |
| `Reports.ComputeMean` | crates/tuo-codegen-bench/src/report.rs:159-167 | the loop computes the arithmetic mean, zero of nothing |
| `Reports.FractionsCompare` | crates/tuo-codegen-bench/src/report.rs:150-156 | fractions lie between 0 and 1 and follow implication |
| `Reports.SharesCount` | crates/tuo-codegen-bench/src/report.rs:71-92 | every share counts the runs that show what it names, over the runs it speaks of |
| `Reports.TotalsGrow` | crates/tuo-codegen-bench/src/report.rs:93-99 | one more turn adds its tokens, its invented symbols and its latency, each to its own total |
| `Reports.CyclesGrow` | crates/tuo-codegen-bench/src/report.rs:88-90 | a run counts one repair cycle for every turn after its first |
| `Reports.RunsNest` | crates/tuo-codegen-bench/src/report.rs:69-75 | every turn of a run has nested stages |
| `Reports.RunsSignal` | crates/tuo-codegen-bench/src/harness.rs:190-194 | every turn of a run but the first says whether its edit was unrelated |
| `Reports.RescoredRunsNest` | crates/tuo-codegen-bench/src/harness.rs:322-365 | every turn scored again has nested stages, whatever the record claimed |
| `Reports.RescoredRunsSignal` | crates/tuo-codegen-bench/src/harness.rs:322-365 | and carries the signal from the second turn on |
| `Reports.MetricsAreOrdered` | crates/tuo-codegen-bench/src/report.rs:69-90 | SpecPass@1 is at most Check@1, which is at most Parse@1; SpecPass@1 is at most Repair@1, which is at most the share that ever succeeds |
| `Reports.UnrelatedEditsAccounted` | crates/tuo-codegen-bench/src/report.rs:90-115 | unrelated edit rate times average repair cycles times runs is the number of unrelated edits |
| `Reports.SummariesAgree` | crates/tuo-codegen-bench/src/report.rs:69-132 | runs equal but for latency have summaries equal but for average latency |
| `Reports.Rescore` | crates/tuo-codegen-bench/src/harness.rs:314-319 | re-scores every run of a benchmark |
| `Reports.VerifyRecord` | crates/tuo-codegen-bench/src/harness.rs:302-319 | the report of any record scored again keeps the order of the metrics and accounts for its repairs |
| `Reports.RunAndVerify` | crates/tuo-codegen-bench/src/harness.rs:302-319 | running a benchmark and re-scoring its record give the same report but for latency; both keep the order of the metrics and account for their repairs |
| `SourceRegions.FindEnclosingFunction` | crates/tuo-agent/src/generation.rs:461-493 | collecting, sorting and scanning computes the enclosing function |
| `SourceRegions.CollectEntries` | crates/tuo-agent/src/generation.rs:463-476 | lists exactly the module-level declarations of the file |
| `SourceRegions.SortedInOrder` | crates/tuo-agent/src/generation.rs:477-477 | the stable sort orders by start, then by place in the table |
| `SourceRegions.ScanFindsLatest` | crates/tuo-agent/src/generation.rs:479-488 | the scan stops on the latest declaration at or before the offset |
| `SourceRegions.NextStartIsNext` | crates/tuo-agent/src/generation.rs:601-608 | a region ends at the next greater start, or at the greatest offset |
| `SourceRegions.RegionsAreDisjoint` | crates/tuo-agent/src/generation.rs:582-609 | two regions of a file are the same or share no offset |
| `SourceRegions.TwoReadingsAgree` | crates/tuo-agent/src/generation.rs:461-609 | at every offset: the scan answers a function if and only if its region holds the offset and no later declaration shares its start, except for the last function at the greatest offset |
| `SourceRegions.DistinctStartsAgree` | crates/tuo-agent/src/generation.rs:461-609 | with distinct starts: if and only if its region holds the offset, with that exception |
| `SourceRegions.LastRegionGoesOn` | crates/tuo-agent/src/generation.rs:601-608 | the region of what is declared last goes on to the greatest 32-bit offset |
| `SourceRegions.GreatestOffsetDisagrees` | crates/tuo-agent/src/generation.rs:603-608 | at the greatest offset they agree about every function exactly when the last declaration is none; otherwise the scan answers it and no region does |
| `SourceRegions.VisibleSymbols` | crates/tuo-agent/src/generation.rs:499-541 | lists exactly the visible symbols, in table order |
| `SourceRegions.KindsAre` | crates/tuo-agent/src/generation.rs:499-541 | items are visible everywhere, specs and other kinds nowhere |
| `SourceRegions.VisibleExactly` | crates/tuo-agent/src/generation.rs:543-580 | a parameter or local is visible exactly where the scan finds the function it is itself declared in, a local from its declaration on |
| `SourceRegions.VisibilityGrows` | crates/tuo-agent/src/generation.rs:543-580 | moving the cursor on within a function hides nothing |
| `ActiveArguments.CountArguments` | crates/tuo-agent/src/generation.rs:759-792 | the loop counts commas one bracket deep |
| `ActiveArguments.HeaderIsBalanced` | specification/grammar.ebnf:508-510 | what stands between a called name and its list, blanks or explicit type arguments, opens no parenthesis of its own at the level of the call |
| `ActiveArguments.CallsAreRecognized` | specification/grammar.ebnf:508-510 | a list may open right behind the name or its type arguments, blanks and newlines in between |
| `ActiveArguments.CountsCompleteArguments` | crates/tuo-agent/src/generation.rs:755-792 | after n complete arguments, however they nest, with the list still open, the index is n and the commas between type arguments |
| `ActiveArguments.NestedIsComplete` | crates/tuo-agent/src/generation.rs:783-788 | a call, list or block is a complete argument whatever commas it holds |
| `ActiveArguments.OpenSplits` | crates/tuo-agent/src/generation.rs:755-792 | every open text splits into complete arguments and the next one as far as written |
| `ActiveArguments.OpenIsInArgument` | crates/tuo-agent/src/generation.rs:755-792 | the list is open exactly where the text splits so |
| `ActiveArguments.OneOpens` | crates/tuo-agent/src/generation.rs:755-792 | at most one parenthesis opens the list |
| `ActiveArguments.SeparatorsNumberArguments` | crates/tuo-agent/src/generation.rs:755-758 | in an open list the cursor is in argument n exactly when n commas separate its arguments |
| `ActiveArguments.DocumentedExactly` | crates/tuo-agent/src/generation.rs:755-792 | for every text and cursor the answer is the documented one exactly when no parenthesis stands before the cursor, or the list is open and as many commas are counted that separate nothing as separators are missed |
| `ActiveArguments.DocumentedWithoutTextBrackets` | crates/tuo-agent/src/generation.rs:780-790 | where literals and comments hold no brackets: exactly when none stands, or the list is open and every comma counted separates two of its arguments |
| `ActiveArguments.DocumentedInPlainCode` | crates/tuo-agent/src/generation.rs:780-790 | where they hold no commas either: exactly when none stands, or the list is open and no comma between type arguments stands one bracket deep |
| `ActiveArguments.TypeArgumentsAreCounted` | crates/tuo-agent/src/generation.rs:780-790 | a call with n explicit type arguments is miscounted by n - 1 |
| `ActiveArguments.LiteralsAreCounted` | crates/tuo-agent/src/generation.rs:780-790 | behind a string literal that is the first argument the index is the number of depth-one commas in it, and one more if its brackets balance, where the cursor is in argument 1 |
| `ActiveArguments.LiteralsMiscount` | crates/tuo-agent/src/generation.rs:780-790 | two such calls: a literal with a comma, and one with a bracket |
| `ActiveArguments.ClosedCallStillCounts` | crates/tuo-agent/src/generation.rs:755-792 | past the closing bracket the last index is still reported |
| `CodeText.StringEndsAt` | specification/grammar.ebnf:218-222 | a string literal ends behind its first unescaped quote |
| `CodeText.StringEndsBehind` | specification/grammar.ebnf:218-222 | a string literal with escapes in it ends behind its first unescaped quote |
| `CodeText.CommentIsBlanked` | specification/grammar.ebnf:145-151 | a comment is blanked out to the end of its line |
| `CodeText.CharIsBlanked` | specification/grammar.ebnf:218-219 | so is a character between apostrophes, escaped or not |
| `CodeText.NumberedCharIsBlanked` | specification/grammar.ebnf:216-219 | or written by its number |
| `CodeText.CharLiteralsExactly` | crates/tuo-lexer/src/lex.rs:63-64 | a text starts with a character literal exactly when that much of it is one character, an escaped one or a hexadecimal number between apostrophes |
| `CodeText.LabelIsCode` | crates/tuo-lexer/src/lex.rs:65-68 | an apostrophe that opens no such literal is code |
| `CodeText.LiteralIsBlanked` | crates/tuo-lexer/src/lex.rs:59-66 | a string literal is blanked out, and nothing around it |
| `CodeText.AllIsCode` | specification/grammar.ebnf:145-151 | a text without quotes, apostrophes and slashes is all code |

## Left out

- A query that asks unboundedly often depending on what it reads: a host bounds the asks of each key, as the session's queries do by the number of files or functions.
- Parsing, resolution, typing, ownership checking and MIR lowering: unknown functions of the source texts, with the hypotheses named above; of lexing, only what tells literals and comments from code.
- SessionStaleness.MirIsRightExactly: which consts and layouts a function's lowering looks up is left to the lowering (`answers`); only integer constants are shown to read back from the rendered text.
- Storage of results as opaque values with labels: a value is a `Value`, and the execution log names keys instead of label strings.
- Input values inside the engine: the engine tracks stamps only, as the original does; the host holds the values.
- A cancellation request from another thread: it lands at a chosen look at the flag (`arrival`), which is every place it can be noticed.
- The snapshot is brought up to date before a query rather than lazily at the first slice within it; it is the same compilation of the same revision.
- The set of file ids is its size, since ids are handed out in order; a symbol id kept from an older revision, on which the original would panic, is treated as undeclared.
- SessionHost.HostIsWellRanked: no file can lack a text in the session, so no query fails; the engine itself is modelled with failing hosts.
- IncrementalSessions.IncrementalSession.MirOf: promises the current MIR only for a fresh execution, because the recorded dependencies do not determine it; when a reused one is right is `SessionStaleness.MirIsRightExactly`.
- IncrementalSessions.IncrementalSession.TypeOfFunction: asks for local interfaces and a declared item; where they are not local some session is wrong about them (`SessionStaleness.InterfaceGoesStale`).
- Body hashes (`FN_BODY`) on a long-lived session: nothing is claimed of their value, since the file a hash reads is found through an untracked read.
- The accessors of a session that only project the snapshot (accepted, diagnostics, symbol lists, semantics): one branch each.
- ActiveArguments.DocumentedExactly: brackets of different kinds are taken to match, and a call is a name with optional type arguments, so `(f)(x` counts as no call of `f`; the cursor stands on a character boundary at or behind the end of the name (before it the answer is null at once).
- The tokenizer's regular expression: shapes start from token streams; lower case and digits are the ASCII ones.
- TaskDigests.StreamDeterminesTask: freedom from separators is sufficient but not necessary, because whether a separator makes two streams meet depends on the text around it.
- Fnv1a.LocalEditChangesState: edits longer than four bytes can in principle meet; nothing is claimed of them.
- Similarity scores and report metrics are exact reals; floating-point rounding is not modelled.
- The name comparison of the evaluation contamination check and the printing of matches.
- JSON, prompts and diagnostics as rendered text: a recorded prompt and a feedback entry are the data they are rendered from.
- Wall-clock latency: a parameter of a run; sums of 64-bit counters do not wrap.
- Model adapters: any function of turn and prompt, so answers may differ between turns.
- Prelude names and JSON in the visible-symbol list; member targets, called functions and the lexical context heuristics of the generation queries.
- The protocol servers, the command line, formatters, backends and corpus tools: plumbing around the parts above.
