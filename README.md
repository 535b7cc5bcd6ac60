# Effect runtime core: synchronized references, the race combinator and tagged-union schemas

This project models four pieces of an effect system for TypeScript, and proves their properties in Dafny.

- **Synchronized reference** (`XSynchronized`). A reference whose reads and writes are effects. It is guarded by a set of semaphores. `_withPermit` takes one permit from every semaphore in one transaction, runs the body, and gives the permits back whatever the body's exit. `_get` skips the permits when there is exactly one semaphore. The fold views (`foldEffect_`, `foldAllEffect_`, `_fold`, `_foldAll`) are new references over the same semaphores.
- **`updateSomeEffect_`**. An update through a partial function. It goes through `modifyEffect`, and where the function is undefined it writes back the value it read.
- **`raceAll_`**. Races `self` against a collection of effects. Each participant gets an arbiter. The first success completes a set-once `Deferred` and interrupts every other participant. The `(n + 1)`-th failure fails the race with its own cause. An interrupted caller interrupts every participant.
- **`makeTagged` / `tagged`**. A tagged-union schema. A loop builds tables from each member's tag to the member's guard, parser and encoder. The guard, parser, constructor, encoder and `matchS`/`matchW` dispatch on the tag field of their input.

## How effects are modelled

An effect is a deterministic function from a state to a step.

- The state holds the reference's cell and a map from semaphore to free permits.
- The step is an exit together with the new state.
- An exit is `Success`, `Failure(Fail(e))` or `Failure(Interrupt)`.

The model runs a single fiber. So a permit acquisition that cannot proceed has one way out: interruption. It is shown as `Failure(Interrupt)` with the state unchanged.

The environment types (`R`) play no part in the model and are dropped.

A race is modelled by the sequence of completion events its arbiters process, in order. Each event names a participant by its position (0 is `self`) and carries its exit. The set-once cell is the class `Deferred`. The shared state of one race is the class `RaceState`, whose method `Arbiter` is the arbiter. `RaceAll` runs one race end to end.

For the tagged schema:

- Unknown input values are JavaScript-like: `Undefined`, `Null`, booleans, integers, strings and objects (own fields only).
- A table lookup converts the tag to a property key as JavaScript does for primitive values. Every object is taken to convert to `"[object Object]"`: an object's own `toString` is not consulted.
- Member schemas are opaque: a member is its field apis plus its guard, parser and encoder functions.

## Model

| member | source | states |
|---|---|---|
| Effects.AcquireAll | packages/core/src/io/Ref/Synchronized/definition.ts:100 | the definition is the model of the acquiring commit: all permits or none; its steps are stated by `Effects.Acquired` and `SynchronizedRef.WithPermitBrackets` |
| Effects.ReleaseAll | packages/core/src/io/Ref/Synchronized/definition.ts:101 | the definition is the model of the releasing commit; stated by `Effects.Released` and `Effects.ReleaseUndoesAcquire` |
| SynchronizedRef.XSynchronized.WithPermit | packages/core/src/io/Ref/Synchronized/definition.ts:98-104 | the definition is the model of `_withPermit`; its properties are `WithPermitBrackets`, `WithPermitKeepsPermits` and `HeldPermitExcludesOthers` |
| SynchronizedRef.XSynchronized.Get | packages/core/src/io/Ref/Synchronized/definition.ts:54-60 | the definition is the model of `_get`; stated by `SingleSemaphoreReadTakesNoPermit`, `ComposedReadTakesPermits` and `GetSetKeepPermits` |
| SynchronizedRef.XSynchronized.Set | packages/core/src/io/Ref/Synchronized/definition.ts:62-64 | the definition is the model of `_set`; stated by `HeldPermitBlocksWrite`, `GetSetKeepPermits` and `CellSetThenGet` |
| SynchronizedRef.XSynchronized.Fold | packages/core/src/io/Ref/Synchronized/definition.ts:66-79 | the definition is the model of `_fold`; stated by `FoldLiftsEither` and `FoldRoundTrip` |
| SynchronizedRef.XSynchronized.FoldAll | packages/core/src/io/Ref/Synchronized/definition.ts:81-96 | the definition is the model of `_foldAll`, built on the corrected view; stated by `FoldAllLiftsEither` and `FoldAllWriteSeesCurrentValue` |
| SynchronizedRef.FoldEffect | packages/core/src/io/Ref/Synchronized/definition.ts:141-153 | the definition is the model of `foldEffect_`; stated by `FoldEffectPaths` |
| SynchronizedRef.FoldAllView | packages/core/src/io/Ref/Synchronized/definition.ts:184-201 | the definition is the shape of `foldAllEffect_` with the underlying read as a parameter; stated by `FoldAllViewPaths` |
| SynchronizedRef.FoldAllEffect | packages/core/src/io/Ref/Synchronized/definition.ts:184-201 | the definition is the model of `foldAllEffect_` as written, the fold-all view reading with `self._get`; stated by `FoldAllEffectPaths` and `FoldAllViewSelfBlocks` |
| SynchronizedRef.FoldAllEffectFixed | packages/core/src/io/Ref/Synchronized/definition.ts:184-201 | the definition is the corrected `foldAllEffect_`, the fold-all view reading with `unsafeGet`; stated by `FoldAllFixedPaths`, `FoldAllFixedReadsAndWrites` and `FoldAllFixedAgreesOnSingleSemaphore` |
| SynchronizedRef.CellRef | packages/core/src/io/Ref/Synchronized/definition.ts:46-52 | the definition is a reference whose raw read and write are the cell itself; it stands for what `make` returns; stated by `CellSetThenGet` |
| UpdateSome.ModifyEffect | packages/core/src/io/Ref/Synchronized/operations/updateSomeEffect.ts:18 | the definition is the assumed shape of `modifyEffect`; stated by `ModifyEffectSteps` |
| UpdateSome.UpdateStep | packages/core/src/io/Ref/Synchronized/operations/updateSomeEffect.ts:18-22 | the definition is the update handed to `modifyEffect`: `pf(v)` or else `succeedNow(v)`, paired with unit; its effect is stated by `UndefinedWritesBackWhatItRead`, `UndefinedKeepsState` and `DefinedStoresResult` |
| UpdateSome.UpdateSomeEffect | packages/core/src/io/Ref/Synchronized/operations/updateSomeEffect.ts:13-23 | the definition is the model of `updateSomeEffect_`; stated by `UndefinedWritesBackWhatItRead`, `UndefinedKeepsState` and `DefinedStoresResult` |
| Deferreds.Deferred.CompleteWith | packages/core/_src/io/Effect/operations/raceAll.ts:67-73 | the call that finds the cell pending stores the exit and reports true; every later call changes nothing and reports false |
| Race.Losers | packages/core/_src/io/Effect/operations/raceAll.ts:74 | the definition is the winner's interrupt fold; stated by `LosersAreEveryOtherFiber` |
| Race.AllFibers | packages/core/_src/io/Effect/operations/raceAll.ts:41 | the definition is the cleanup's interrupt fold; stated by `AllFibersInOrder` |
| Race.Decide | packages/core/_src/io/Effect/operations/raceAll.ts:57-79 | the definition is the reference decision the arbiters reach; `RaceState.Arbiter` keeps the cell equal to it, and `DecideAppend`, `DecisionIsFinal`, `WinnerIsFirstSuccess`, `FirstSuccessWins`, `FailureIsTheLastOfTheFirstFailures` and `RaceFailsOnlyWhenAllFailed` state its properties |
| Race.ArbiterInterrupts | packages/core/_src/io/Effect/operations/raceAll.ts:69-76 | the definition is the interruptions the arbiters issue; `RaceState.Arbiter` keeps its log equal to it, and `ArbitersInterruptOnlyLosers` states its properties |
| Race.AwaitOutcome | packages/core/_src/io/Effect/operations/raceAll.ts:39-40 | the definition is the await on the cell with the winner's value; stated through `RaceAll`, `CancelledRaceInterruptsEveryone` and `DecidedRaceIgnoresCancellation` |
| Race.CleanupInterrupts | packages/core/_src/io/Effect/operations/raceAll.ts:40-42 | the definition is the `onInterrupt` cleanup; stated by `CancelledRaceInterruptsEveryone` |
| Tagged.Tag | packages/schema/src/_api/tagged.ts:19-34 | the definition is the api `{ value: k }` of `tag(k)`; stated by `TagFieldSelectsMember` |
| Tagged.PropertyKey | packages/schema/src/_api/tagged.ts:180-181 | the definition is the conversion of a tag value to a table key; stated by `NumberTagsAreDistinct` |
| Tagged.TablesOf | packages/schema/src/_api/tagged.ts:163-170 | the definition is the tables after registering the members in order; `MakeTagged` computes it, and `TablesRegisterEveryMember`, `TableKeysInOrder`, `TableDomainIsKeys` and `TableLastWriteWins` state its properties |
| Tagged.TaggedSchema.Selected | packages/schema/src/_api/tagged.ts:179-181 | a tag is selected exactly when the input is an object with the tag field and that field converts to a registered tag |
| Tagged.TaggedSchema.Guard | packages/schema/src/_api/tagged.ts:172-188 | the definition is the model of `guard`; stated by `GuardAcceptsExactlyMembers` and `ParseSucceedsWhereGuardAccepts` |
| Tagged.TaggedSchema.Parse | packages/schema/src/_api/tagged.ts:205-312 | the definition is the model of `parser`; stated by `ParseRejectsUnknownTags`, `ParseKeysMemberResults`, `ParseSucceedsWhereGuardAccepts` and `EncodeThenParse` |
| Tagged.TaggedSchema.Construct | packages/schema/src/_api/tagged.ts:314-394 | the definition is the model of `constructor`; stated by `ParseIsConstructInComposition` |
| Tagged.TaggedSchema.Encode | packages/schema/src/_api/tagged.ts:202-204 | the definition is the model of `encoder`; stated by `EncodeThenParse` and `EncodeIsMatchOnEncoders` |
| Tagged.TaggedSchema.Match | packages/schema/src/_api/tagged.ts:396-401 | the definition is the model of `matchS` and `matchW`; stated by `EncodeIsMatchOnEncoders` |
| Tagged.GuardAsWritten | packages/schema/src/_api/tagged.ts:179-187 | the definition is the guard as written on an inherited `toString` tag; stated by `InheritedTagSlipsThrough` |
| Tagged.ParseAsWritten | packages/schema/src/_api/tagged.ts:232-244 | the definition is the parser as written on an inherited `toString` tag, where it throws; stated by `InheritedTagSlipsThrough` |
| Effects.Acquired | packages/core/src/io/Ref/Synchronized/definition.ts:100 | acquisition takes exactly one permit from each guarding semaphore and leaves every other count alone |
| Effects.Released | packages/core/src/io/Ref/Synchronized/definition.ts:101 | release gives exactly one permit back to each guarding semaphore and leaves every other count alone |
| Effects.ReleaseUndoesAcquire | packages/core/src/io/Ref/Synchronized/definition.ts:98-104 | releasing what was just acquired restores every permit count |
| SynchronizedRef.WithPermitBrackets | packages/core/src/io/Ref/Synchronized/definition.ts:98-104 | if some semaphore has no free permit, the body never runs and nothing is released; otherwise the body runs once with the permits taken, its exit is the result, and the permits are released on the state it leaves |
| SynchronizedRef.WithPermitKeepsPermits | packages/core/src/io/Ref/Synchronized/definition.ts:98-104 | no permit leak: around a body that leaves the permits alone, `_withPermit` restores every count on success, failure and interruption |
| SynchronizedRef.HeldPermitExcludesOthers | packages/core/src/io/Ref/Synchronized/definition.ts:98-104 | while one `_withPermit` holds the last permit of a shared semaphore, another reference's `_withPermit` cannot start its body |
| SynchronizedRef.SingleSemaphoreReadTakesNoPermit | packages/core/src/io/Ref/Synchronized/definition.ts:54-56 | with exactly one semaphore, `_get` is `unsafeGet` and takes no permit, whatever the permit counts |
| SynchronizedRef.HeldPermitBlocksWrite | packages/core/src/io/Ref/Synchronized/definition.ts:62-64 | `_set` always waits for the permits: while one is held the write does not happen |
| SynchronizedRef.ComposedReadTakesPermits | packages/core/src/io/Ref/Synchronized/definition.ts:54-60 | with any other number of semaphores, `_get` goes through `_withPermit` and does not read while a permit is missing |
| SynchronizedRef.GetSetKeepPermits | packages/core/src/io/Ref/Synchronized/definition.ts:54-64 | `_get` and `_set` leave every permit count as found when the raw effects take none |
| SynchronizedRef.CellSetThenGet | packages/core/src/io/Ref/Synchronized/definition.ts:54-64 | on a reference over the cell, `_set(a)` stores `a` and returns the permits, and `_get` then returns `a` |
| SynchronizedRef.FoldEffectPaths | packages/core/src/io/Ref/Synchronized/definition.ts:141-153 | the view keeps the same semaphores; its read is `unsafeGet` then `bd`, with read errors through `eb` and interruption passing through; its write is `ca(c)` then `unsafeSet`, with write errors through `ea` |
| SynchronizedRef.FoldLiftsEither | packages/core/src/io/Ref/Synchronized/definition.ts:66-79 | `_fold` is `foldEffect_` with its pure `Either` functions lifted: a `Right` continues and a `Left` fails, without touching the state |
| SynchronizedRef.FoldRoundTrip | packages/core/src/io/Ref/Synchronized/definition.ts:66-79 | through a `_fold` view, writing `c` stores `enc(c)` in the shared cell, and reading decodes it back to `c` when `dec` inverts `enc` |
| SynchronizedRef.FoldAllWriteSeesCurrentValue | packages/core/src/io/Ref/Synchronized/definition.ts:81-96 | a `_foldAll` write hands the current value to `ca`: it stores `ca(c)(current)`, or fails with `ca`'s error and stores nothing; the permits come back |
| SynchronizedRef.FoldAllViewPaths | packages/core/src/io/Ref/Synchronized/definition.ts:184-201 | for any read of the underlying reference, the fold-all view keeps the semaphores; its read is that read then `bd`, read errors through `eb`; its write does that read, maps read errors through `ec`, then runs `ca(c)(b)` and `unsafeSet`, mapping write errors through `ea`; interruption passes through every step |
| SynchronizedRef.FoldAllEffectPaths | packages/core/src/io/Ref/Synchronized/definition.ts:184-201 | the as-written view keeps the same semaphores; its read is `self._get` then `bd`, read errors through `eb`; its write reads with `self._get`, read errors through `ec`, then runs `ca(c)(b)` and `unsafeSet`, write errors through `ea`; interruption passes through every step |
| SynchronizedRef.FoldAllFixedPaths | packages/core/src/io/Ref/Synchronized/definition.ts:184-201 | the corrected view has the same paths and error mappings, with the underlying read done by `unsafeGet` |
| SynchronizedRef.FoldAllLiftsEither | packages/core/src/io/Ref/Synchronized/definition.ts:81-96 | `_foldAll` is the fold-all view with its pure `Either` functions lifted: a `Right` continues, a `Left` fails without touching the state, and read and write errors map through `eb`, `ec` and `ea` |
| SynchronizedRef.FoldAllViewSelfBlocks | packages/core/src/io/Ref/Synchronized/definition.ts:192-200 | as written, on a reference over two or more semaphores with one free permit each, the view's read and write both wait for permits the view itself holds, while the reference itself still reads |
| SynchronizedRef.FoldAllFixedReadsAndWrites | packages/core/src/io/Ref/Synchronized/definition.ts:184-201 | the corrected fold-all view, over any semaphores with free permits, reads `bd` of the cell and writes `ca(c)` of the current value, returning the permits |
| SynchronizedRef.FoldAllFixedAgreesOnSingleSemaphore | packages/core/src/io/Ref/Synchronized/definition.ts:184-201 | with one semaphore, the corrected view behaves exactly as the one written |
| UpdateSome.ModifyEffectSteps | packages/core/src/io/Ref/Synchronized/operations/updateSomeEffect.ts:18 | `modifyEffect` under the permits reads, runs `f` on the value read, and writes its second component; it stops at the first step that does not succeed, and always gives the permits back |
| UpdateSome.UndefinedWritesBackWhatItRead | packages/core/src/io/Ref/Synchronized/operations/updateSomeEffect.ts:18-20 | where `pf` is nowhere defined, the update is exactly a guarded read followed by writing back the value read, on any reference |
| UpdateSome.UndefinedKeepsState | packages/core/src/io/Ref/Synchronized/operations/updateSomeEffect.ts:19-21 | on a reference over the cell where `pf` is undefined at the current value, the value and permits are unchanged; the result is unit, or interruption when the permits are held |
| UpdateSome.DefinedStoresResult | packages/core/src/io/Ref/Synchronized/operations/updateSomeEffect.ts:18-21 | where `pf` gives an effect, that effect runs under the permits: its success `r` becomes the new value and the result is unit; its failure or interruption is the update's; the permits come back |
| Deferreds.Deferred.constructor | packages/core/_src/io/Effect/operations/raceAll.ts:15 | a new race cell is pending |
| Deferreds.Deferred.Succeed | packages/core/_src/io/Effect/operations/raceAll.ts:70-73 | only the call that finds the cell pending stores the success and reports true; later calls change nothing and report false |
| Deferreds.Deferred.FailCause | packages/core/_src/io/Effect/operations/raceAll.ts:67 | only the call that finds the cell pending stores the failure and reports true; later calls change nothing |
| Race.Participants | packages/core/_src/io/Effect/operations/raceAll.ts:20-24 | the fibers are `self` first, then the effects in their order |
| Race.LosersAreEveryOtherFiber | packages/core/_src/io/Effect/operations/raceAll.ts:74 | the winner's fold interrupts exactly every other participant, each once and in order, and never the winner |
| Race.AllFibersInOrder | packages/core/_src/io/Effect/operations/raceAll.ts:41 | the cleanup fold interrupts every participant once, in order, the head first |
| Race.DecideAppend | packages/core/_src/io/Effect/operations/raceAll.ts:57-79 | the reference decision after one more event: an existing decision stands; otherwise a success decides, and a failure decides only when all the failures the counter could absorb have already happened |
| Race.DecisionIsFinal | packages/core/_src/io/Effect/operations/raceAll.ts:69-76 | once the cell is set, no later event changes it |
| Race.WinnerIsFirstSuccess | packages/core/_src/io/Effect/operations/raceAll.ts:69-76 | a winning `(a, w)` is the exit of fiber `w` in an event that every earlier event precedes as a failure, with at most `n` of them |
| Race.SuccessAfterFewFailuresWins | packages/core/_src/io/Effect/operations/raceAll.ts:63-76 | a success preceded only by failures, at most `n` of them, decides the race with its value and fiber |
| Race.FirstSuccessWins | packages/core/_src/io/Effect/operations/raceAll.ts:63-76 | when each participant completes once, the first success wins whatever failures came before it |
| Race.FailureIsTheLastOfTheFirstFailures | packages/core/_src/io/Effect/operations/raceAll.ts:66-68 | the race fails only when its first `n + 1` events all failed, and the cause stored is that of the `(n + 1)`-th |
| Race.FirstFailuresDecideFailure | packages/core/_src/io/Effect/operations/raceAll.ts:66-68 | when the first `n + 1` events all fail, the race fails with the cause of the `(n + 1)`-th |
| Race.RaceFailsOnlyWhenAllFailed | packages/core/_src/io/Effect/operations/raceAll.ts:66-68 | with each participant completing once, a failed race has exactly `n + 1` events, all failures, covering every participant, and the cause of the last |
| Race.AllFailedRaceFails | packages/core/_src/io/Effect/operations/raceAll.ts:66-68 | when all `n + 1` participants fail, the race fails with the last cause |
| Race.ArbitersInterruptOnlyLosers | packages/core/_src/io/Effect/operations/raceAll.ts:69-76 | the arbiters interrupt nothing unless a success won; then they interrupt every other participant once, in order, and never the winner |
| Race.RaceState.constructor | packages/core/_src/io/Effect/operations/raceAll.ts:15-16 | a fresh pending cell, a counter starting at the number of effects (which leaves out `self`), and no interruptions |
| Race.RaceState.Arbiter | packages/core/_src/io/Effect/operations/raceAll.ts:57-79 | a failure decrements the counter and fails the cell only when the counter read 0; a success completes the cell if pending and only then interrupts the losers; a late success changes nothing; the state always agrees with the reference decision on the events so far |
| Race.RaceAll | packages/core/_src/io/Effect/operations/raceAll.ts:13-46 | the caller sees the reference decision on the events, with the winner's value and participant, else the failure, else interruption if cancelled; the interruptions are the arbiters', then the cleanup's when the await ends interrupted |
| Race.CancelledRaceInterruptsEveryone | packages/core/_src/io/Effect/operations/raceAll.ts:39-42 | a caller interrupted before the race is decided gets an interruption, and the cleanup interrupts every participant, the head included |
| Race.SlowSuccessBeatsQuickFailures | packages/core/_src/io/Effect/operations/raceAll.ts:13-46 | 42 arriving after failures "e1" and "e2" wins, and fibers 1 and 2 are interrupted |
| Race.AllFailReportsTheLast | packages/core/_src/io/Effect/operations/raceAll.ts:13-46 | failures "a", "b", "c" in that order fail the race with "c", and nothing is interrupted |
| Tagged.MakeTagged | packages/schema/src/_api/tagged.ts:156-170 | the loop leaves exactly the tables of registering the members one after another |
| Tagged.MakeTaggedOnTag | packages/schema/src/_api/tagged.ts:408 | `tagged` is `makeTagged` on the field `_tag` |
| Tagged.TablesRegisterEveryMember | packages/schema/src/_api/tagged.ts:163-170 | `keys` holds one tag per member, in argument order; the tables hold exactly those tags; each tag selects the last member carrying it |
| Tagged.TableKeysInOrder | packages/schema/src/_api/tagged.ts:169 | `keys` holds exactly one entry per member, the `i`-th being the `i`-th member's tag |
| Tagged.TableDomainIsKeys | packages/schema/src/_api/tagged.ts:163-170 | a tag has a table entry exactly when it was pushed onto `keys` |
| Tagged.TableLastWriteWins | packages/schema/src/_api/tagged.ts:164-167 | a member that no later member shadows is the one its tag selects |
| Tagged.SelectsTheMemberWithTheTag | packages/schema/src/_api/tagged.ts:163-170 | with distinct tags, a tag is registered exactly when some member carries it, and it selects that member |
| Tagged.TagFieldSelectsMember | packages/schema/src/_api/tagged.ts:19-34 | a member whose tag field is `tag(k)`, when no later member reuses `k`, is selected by inputs whose tag field is the string `k` (with a reused tag the later member is selected) |
| Tagged.GuardAcceptsExactlyMembers | packages/schema/src/_api/tagged.ts:172-188 | with distinct tags, the guard accepts exactly the objects with the tag field whose tag is a member's and which that member's guard accepts |
| Tagged.ParseRejectsUnknownTags | packages/schema/src/_api/tagged.ts:305-311 | the parser fails with the missing-tag error, listing the tags in argument order, exactly when the input is not an object, lacks the tag field, or has no member's tag |
| Tagged.ParseKeysMemberResults | packages/schema/src/_api/tagged.ts:241-301 | on a selected member, the parser fails exactly when the member fails, with its error keyed by the tag; otherwise it passes the member's value through unchanged, with warnings exactly when the member has them, keyed the same way |
| Tagged.ParseIsConstructInComposition | packages/schema/src/_api/tagged.ts:340-393 | on a registered tag, the constructor goes through the same member parser; the parser's result is the constructor's, with the errors one composition deeper |
| Tagged.ParseSucceedsWhereGuardAccepts | packages/schema/src/_api/tagged.ts:172-311 | when each member's parser succeeds exactly where its guard accepts, the tagged parser succeeds exactly where the tagged guard accepts |
| Tagged.EncodeThenParse | packages/schema/src/_api/tagged.ts:202-204 | encoding and then parsing gives the value back without warnings, when the member's encoder keeps the tag and its parser inverts it |
| Tagged.EncodeIsMatchOnEncoders | packages/schema/src/_api/tagged.ts:396-401 | the encoder is the tag match whose handlers are the members' encoders |
| Tagged.NumberTagsAreDistinct | packages/schema/src/_api/tagged.ts:180-181 | two different numbers used as tags index different table entries, since their decimal strings differ |
| Tagged.InheritedTagSlipsThrough | packages/schema/src/_api/tagged.ts:179-183 | as written, an input tagged `toString` with no such member passes the guard and makes the parser throw; the model's guard rejects it and its parser gives the missing-tag error |

## Left out

- Fiber scheduling, preemption, the timing of interruption, and the uninterruptible masks (`uninterruptibleMask`, `restore`). A race is a given sequence of completion events, with forking and arbiter attachment taken to finish before the first event.
- `inheritRefs` of the winning fiber. The model only reports which participant won.
- The STM commit protocol and the semaphore implementation. Acquire-all and release-all are single atomic steps on a permit map. A wait for permits that would need another fiber is shown as an interruption.
- The identity of the interrupting fiber. `Interrupt` carries no fiber id.
- Cause composition: parallel and sequential causes.
- The environment types of effects.
- `modifyEffect` and `Synchronized.make`: their definitions are not part of this model. `modifyEffect` is given the usual shape: a guarded read, then the update, then the write. The reference `make` returns is `CellRef`.
- The `Deferred` waiter list. Waiting is visible only as an empty cell: `Waiting` before a decision.
- The `Arbitrary` generators of `makeTagged`, the `identified` and `mapApi` metadata beyond the tag, and all type-level computation in tagged.ts.
- literal.ts is not part of this model. `tag(k)` contributes only its api `{ value: k }`.
- JavaScript values beyond `Undefined`, `Null`, booleans, integers, strings and plain objects. Arrays, functions, symbols and non-integer numbers are left out, and so is the exponent notation of integers of 10^21 and above.
- Inherited properties. Objects are their own fields. Of the names every object inherits, only `toString` is modelled, in `GuardAsWritten` and `ParseAsWritten` for the finding. The others either throw or behave similarly.
- A tag field whose name is itself inherited by every object.
- Tagged.MatchS and MatchW: both are `TaggedSchema.Match`, because the source gives them the same body.
- Race.RaceAll: names the winning participant, not its fiber, because fibers are their positions in the participant list.
- FoldAllFixedReadsAndWrites: is stated only for the cell reference with always-succeeding `ca` and `bd`. The general read and write paths of the corrected view, with every error mapping and the shared semaphores, are stated by `FoldAllFixedPaths`.
- UpdateSomeEffect: uses one error type `E` where the source has the union `EA | EB | EC`. Errors pass through unchanged, so no behaviour is lost.
- Construct, Encode and Match: their `requires` stand for TypeScript's input types, which guarantee a registered tag. On other inputs the source throws, which the model does not show.
- PropertyKey: converts every object to `"[object Object]"`. An object's own `toString` field is not consulted. When that field is not a function, JavaScript's conversion throws, and the model does not show that.
- SynchronizedRef.FoldAll: uses the corrected fold-all view. The as-written `foldAllEffect_` remains as `FoldAllEffect` for the finding.

## Findings

| source | as written | input that shows it | evidently intended | confidence | as-written member | corrected member |
|---|---|---|---|---|---|---|
| packages/core/src/io/Ref/Synchronized/definition.ts:192-200 | the fold-all view reads the underlying reference with `self._get`, inside the view's own `_get`/`_set`, which already hold every permit | a reference guarded by two semaphores with one permit each: the view's `_get` or `_set` takes both permits, then `self._get` waits for them again | read with `self.unsafeGet`, as `foldEffect_` does, and leave the permits to the view | medium; not executed | SynchronizedRef.FoldAllViewSelfBlocks | SynchronizedRef.FoldAllFixedReadsAndWrites |
| packages/schema/src/_api/tagged.ts:179-183 | the guard and parser look the tag up in tables that are plain `{}` objects and test only truthiness | `{ _tag: "toString" }` on a union with no `toString` member: the guard calls `Object.prototype.toString` and gets a non-empty string; the parser reads `.effect` of that string and throws | look up own, registered tags only: reject, or fail with the missing-tag error | high; not executed | Tagged.InheritedTagSlipsThrough | Tagged.GuardAcceptsExactlyMembers |
