# Verified models of stateful, parsing and arithmetic code

This project models the parts of the repository that keep state, interleave, parse or compute, and
proves what they promise.  Every statement is about all inputs, all runs or all reachable states.
`dafny verify dfyconfig.toml` checks everything.

Code that changes objects or arrays step by step is a class or a method with loops, proved against a
specification function; what that function promises is stated as lemmas.  Asynchronous code is a
step system: a step is a stretch of code between two `await`s, an event says which stretch runs next,
and a class carries out the same steps on its fields (`Handle`, `HandleAll`).  So a theorem about
`Run(INITIAL, events)` is about every interleaving.

## What is modelled

**Control UI translation** (`scripts/control-ui-i18n.ts`).

- `PiRpcClient.dfy`: the one-at-a-time client of the `pi` process.  `RpcProtocol` is the step system
  over calls, queued bodies, stdout lines, timers, write errors and the child's exit; `RpcClient` is
  the class.  `OutcomeExactly` says which event gives a call which outcome, without the step
  function.  `agent_end` lines carry no request id.  The replies match their requests exactly when
  every agent run ends while its own prompt is pending (`RepliesMatchExactly`), which a child that
  ends one run per request ensures; any other reply is misdelivered for good.
- `Batching.dfy`: greedy packing under the loop's own cost, which charges every item two framing
  characters more than `estimateBatchChars` does for the whole batch.
- `TranslateBatch.dfy`: retry and halving, for any sequence of replies of the child.  The log of the
  prompts sent follows four rules (`PromptsFollowRules`), from which it follows when a batch fails and
  when a part of one is asked for.
- `TranslationTree.dfy`, `TranslationObjects.dfy`: dotted keys and nested maps, first on values, then
  on objects changed in place through a cursor.  Reading `cursor[key]` also finds the properties of
  Object.prototype, and then the walk leaves the map: a key such as `constructor.title` is lost, and
  one such as `constructor.name`, which the runtime refuses to set, throws.
- `TranslationKeys.dfy`: which keys survive.  Setting dotted keys loses none of them exactly when they
  are `Separate`: none begins with a dot, leads through another one, or leads through an inherited
  property.
- `SyncLocale.dfy`: the three tiers, the memory file, the metadata and the comparison of files.  A
  second run is clean for every locale exactly when the source's keys are separate
  (`SettledExactly`); a run itself is proved for every source, also for those with which it throws.
  For separate keys, a check without a provider finds nothing to report about files written with one.
  `force` turns out to have no influence on which text a key gets: a key is left pending only if its
  existing text is missing, or if a provider is configured and will then have translated it.

**Active memory** (`extensions/active-memory/index.ts`).

- `ToggleStore.dfy`: the promise-chain lock around a read-modify-write of one file.  The file is
  always the fold of the successful requests, as long as the file can be read.  `readToggleStore`
  turns every read error into an empty store, so a request whose read fails and whose write succeeds
  drops the other sessions; `NoLostUpdateExactly` says in which runs that loses something.  A session
  named `__proto__` cannot be stored.
- `RecallCache.dfy`: the capped cache with expiry.  The eviction loop stops at an empty key; with the
  keys that `buildCacheKey` makes this cannot happen.
- `PromptInjection.dfy`: escaping, the prompt block and its removal.

**Bedrock plugin** (`extensions/amazon-bedrock`).

- `ConfigMigration.dfy`: the configuration migration.  `JsonMerge` is the merge on values;
  `ConfigMigration` is the program on a heap of records, with subtrees shared between the result and
  the caller's configuration.  Reading `target[key]` also finds the properties of Object.prototype,
  so a legacy field with such a name can be dropped; `LegacyFills` has the exact condition at every
  path.
- `BedrockDiscovery.dfy`: the discovery cache that shares running fetches.

**Scanners, parsers, pools.**

- `ArgumentScanner.dfy`: quote-aware bracket scanning and argument splitting, with the exact class of
  lists that survive joining and splitting.
- `ImageDimensions.dfy`: the JPEG header walk (ITU-T T.81, sections B.1.1.2, B.1.1.4 and B.2.2).  Fill
  bytes before a marker, which T.81 allows, are misread; `JpegSizeExactly` says what is read right.
- `Utf16Slice.dfy`: slices that do not cut surrogate pairs (Unicode Standard, section 3.9, D91).
- `WorkerPool.dfy`: workers that share a counter, both variants.

**Release arithmetic and schema index.**

- `SparkleBuild.dfy`: build-number floors from calendar versions and the check of the update feed.
  The documented cut-over from legacy to lane numbers holds from the year 1000 on; for earlier years
  the lane floor is itself below the first lane number, and `LegacyAfterLaneExactly` gives the gap.
- `SchemaIndex.dfy`: canonical forms and the index of named schemas.

`Text.dfy`, `ObjectPrototype.dfy` and `Wrappers.dfy` hold trimming, the inherited names and the option
type.

## Model

| member | source | states |
|---|---|---|
| RpcProtocol.StepKeepsInv | scripts/control-ui-i18n.ts:761-895 | every event keeps: only the pending request runs and has a timer and a heartbeat, requests go out in call order, and behind a failed call nothing succeeds or runs |
| RpcProtocol.PendingTakesOutcome | scripts/control-ui-i18n.ts:761-876 | while a request is on its way, every event leaves it so or gives its call, and no other, the outcome that the event stands for: the text of an agent_end, `BadResult` without one, an error reply's own text, `TimedOut`, a write or process failure |
| RpcProtocol.IdleTakesTurn | scripts/control-ui-i18n.ts:817-835 | with no request on its way only a turn does anything: the first waiting call gets the rejection before it or the closed client's error, or becomes the one request on its way |
| RpcProtocol.OutcomeExactly | scripts/control-ui-i18n.ts:745-895 | after any run a call has an outcome exactly when some event of the run gave it that one while its request was on its way or its turn came |
| RpcProtocol.ResolvedTextWasSent | scripts/control-ui-i18n.ts:804-813 | a prompt resolves only with a text that an agent_end of the run carried while it was on its way |
| RpcProtocol.SentTextResolves | scripts/control-ui-i18n.ts:804-813 | an agent_end with a text that arrives while a prompt is on its way settles that prompt with just that text to the end of the run |
| RpcProtocol.ClosedExactly | scripts/control-ui-i18n.ts:745-849 | the client is closed exactly after an exit of the process or the timeout of the prompt on its way |
| RpcProtocol.AtMostOnePending | scripts/control-ui-i18n.ts:817-881 | in every run at most one prompt is on its way, it is the pending one, and nothing else has a timer or heartbeat |
| RpcProtocol.SettledForGood | scripts/control-ui-i18n.ts:851-864 | a settled prompt keeps its outcome whatever follows |
| RpcProtocol.EveryPromptCanSettle | scripts/control-ui-i18n.ts:818-878 | from every reachable state, one timeout or exit and the queued turns settle every prompt and clear all timers |
| RpcProtocol.FailureIsFinal | scripts/control-ui-i18n.ts:818-821 | after a failed prompt no request is sent any more and no later prompt resolves |
| RpcProtocol.LateWriteErrorIsIgnored | scripts/control-ui-i18n.ts:866-876 | a write error for a prompt that has settled changes nothing |
| RpcProtocol.RepliesAnswerTheirRequest | scripts/control-ui-i18n.ts:781-814 | with at most one agent_end per request sent, every resolved prompt has the text made for its own request |
| RpcProtocol.ForeignReplyIsMisdelivered | scripts/control-ui-i18n.ts:804-813 | in every reachable state with a pending prompt, an agent_end for another request gives it a text not made for it, and no later event mends this |
| RpcProtocol.RepliesMatchExactly | scripts/control-ui-i18n.ts:781-814 | after any run every resolved prompt has its own text exactly when each agent run with a text ended while its own prompt was pending |
| RpcClient.PiRpcClient.RejectPending | scripts/control-ui-i18n.ts:761-767 | the pending prompt alone is rejected and its timers are cleared |
| RpcClient.PiRpcClient.HandleStdoutLine | scripts/control-ui-i18n.ts:769-815 | a line takes exactly the protocol's step; the handler throws only on the JSON text `null` with a prompt pending, and then nothing has changed |
| RpcClient.PiRpcClient.Prompt | scripts/control-ui-i18n.ts:817-818 | a call joins the end of the chain |
| RpcClient.PiRpcClient.RunNext | scripts/control-ui-i18n.ts:818-864 | the next queued body inherits a rejection, fails on a closed client or sends the next request |
| RpcClient.PiRpcClient.OnTimer | scripts/control-ui-i18n.ts:837-849 | a timeout closes the client and rejects its own prompt only |
| RpcClient.PiRpcClient.OnWriteError | scripts/control-ui-i18n.ts:866-876 | a failed write rejects its own prompt only |
| RpcClient.PiRpcClient.OnProcessClose | scripts/control-ui-i18n.ts:745-750 | the exit closes the client and rejects the pending prompt |
| RpcClient.PiRpcClient.HandleAll | scripts/control-ui-i18n.ts:730-895 | the object ends any sequence of events in the state of the protocol's run, with the invariant kept |
| Batching.EstimateWithinCost | scripts/control-ui-i18n.ts:502-504 | the loop's cost of a batch exceeds the estimate by exactly two per item |
| Batching.EstimateIs | scripts/control-ui-i18n.ts:502-504 | the estimate is two, eight for each item and the number of characters of all keys and texts |
| Batching.FitsExactly | scripts/control-ui-i18n.ts:662-680 | a batch may be sent exactly when it is one item, or two to twenty whose characters with ten for each and two for the whole are within the budget |
| Batching.TightIsFewest | scripts/control-ui-i18n.ts:668-680 | a split in which no batch has room for the next item is no longer than any other valid split of what it covers |
| Batching.BuildTranslationBatches | scripts/control-ui-i18n.ts:662-686 | the batches concatenate to the items, each fits, and no valid split uses fewer |
| TranslateBatch.CollectReply | scripts/control-ui-i18n.ts:945-955 | a reply is accepted exactly as the specification collects it, and the first unusable key fails it |
| TranslateBatch.CollectExactly | scripts/control-ui-i18n.ts:945-955 | an object is accepted exactly when every item has a non-blank text in it, and otherwise the error names the first item without one |
| TranslateBatch.TranslateBatch | scripts/control-ui-i18n.ts:928-990 | the loop and its recursive calls give the specified result and send just the prompts of the specified log |
| TranslateBatch.PromptsFollowRules | scripts/control-ui-i18n.ts:936-988 | for any child: after a timeout the next prompt is for the first half or, for a single item, there is none; after another failure the same batch is asked for once more or, the second time, nothing is; and a second half follows a success only behind the timeout of its whole |
| TranslateBatch.PartsOnlyAfterTimeout | scripts/control-ui-i18n.ts:962-977 | a prompt for a part of a batch is sent only after one for a larger stretch containing it has timed out |
| TranslateBatch.FailsExactly | scripts/control-ui-i18n.ts:936-988 | a batch fails exactly when the last prompt is a single item that timed out or the second failure in a row without a timeout, and then with its message |
| TranslateBatch.TwoFailuresEndIt | scripts/control-ui-i18n.ts:962-988 | two failures without a timeout end a batch of any size after two prompts, with the second message |
| TranslateBatch.TranslatedIsComplete | scripts/control-ui-i18n.ts:946-955 | a returned map has exactly the batch's keys, each with a non-blank text |
| TranslateBatch.TranslationComesFromReply | scripts/control-ui-i18n.ts:967-977 | every text is the one a prompt asking for that key was answered with |
| TranslateBatch.AttemptsBounded | scripts/control-ui-i18n.ts:936-988 | k items cost between 1 and 4k-2 prompts, whatever the child does |
| TranslateBatch.BoundIsReached | scripts/control-ui-i18n.ts:936-988 | some child needs all 4k-2 prompts |
| TranslationTree.SplitJoin | scripts/control-ui-i18n.ts:297 | splitting a dotted key gives back the keys it was made of, if they are dot-free |
| TranslationTree.FlattenRebuilds | scripts/control-ui-i18n.ts:284-311 | setting the flattened entries in order rebuilds a map without dotted keys, empty maps and ways through Object.prototype exactly |
| TranslationKeys.RebuildsExactly | scripts/control-ui-i18n.ts:284-311 | a map is rebuilt from its flattened entries exactly when no key has a dot, no nested map is empty or stands under the empty key at the top, and no way leads through an inherited name |
| TranslationKeys.SeparateSurvives | scripts/control-ui-i18n.ts:284-311 | setting separate keys in any order gives a map that flattens to just these keys and texts |
| TranslationKeys.KeptExactly | scripts/control-ui-i18n.ts:296-311 | setting keys loses none of them exactly when they are separate |
| TranslationKeys.SeparateNeverThrows | scripts/control-ui-i18n.ts:296-311 | setting separate keys stays in the map, so it never throws |
| TranslationKeys.ThrowsByKeysAlone | scripts/control-ui-i18n.ts:296-311 | whether setting a list of keys throws does not depend on their texts |
| TranslationKeys.MapEntriesAre | scripts/control-ui-i18n.ts:284-294 | the flattened map has one entry per key, with the text set last |
| TranslationTree.FlattenKeysAreDistinct | scripts/control-ui-i18n.ts:284-294 | flattening gives every dotted key once |
| TranslationTree.GetSet | scripts/control-ui-i18n.ts:296-311 | setting a path of own properties changes the text at that path and at no path that neither leads through the other |
| TranslationTree.AnyOrderRebuilds | scripts/control-ui-i18n.ts:284-311 | setting such a map's flattened entries in any order, also repeatedly, rebuilds it up to key order |
| TranslationTree.RebuildRelabelled | scripts/control-ui-i18n.ts:1138-1141 | setting new texts for the flattened keys of a map whose nesting follows them gives a map that flattens to the same keys in the same order with the new texts |
| TranslationObjects.WriteKeeps | scripts/control-ui-i18n.ts:301-310 | one assignment below the root keeps the objects a tree without sharing |
| TranslationObjects.EmptyObjectIsHarmless | scripts/control-ui-i18n.ts:302-306 | an empty object made on the way changes neither what the whole walk sets nor where it leaves the map |
| TranslationObjects.InheritedEndsTheWalk | scripts/control-ui-i18n.ts:301-310 | a walk that reads an inherited property where the map has none of its own leaves the map there and changes nothing more in it |
| TranslationObjects.SetNestedValue | scripts/control-ui-i18n.ts:296-311 | the cursor walk changes the object into what setting the path gives on values, inherited names included, touches only objects of that map and new ones, and throws exactly when it leaves the map for a write that the runtime refuses |
| TranslationObjects.BuildObject | scripts/control-ui-i18n.ts:1138-1141 | building an object entry by entry gives the rebuilt map, or throws at the first refused write |
| SyncLocale.LoadRendered | scripts/control-ui-i18n.ts:379-408 | writing a clean memory and loading it again loses nothing |
| SyncLocale.LocaleHasSourceKeys | scripts/control-ui-i18n.ts:1020-1141 | for separate keys the generated locale has exactly the source's keys, each with the text the three tiers give |
| SyncLocale.LocaleKeepsOrder | scripts/control-ui-i18n.ts:1138-1141 | for a source whose nesting follows its keys the locale has them in the source's order |
| SyncLocale.NothingFallsBack | scripts/control-ui-i18n.ts:1031-1131 | with a provider no key is left in English |
| SyncLocale.SecondSyncIsClean | scripts/control-ui-i18n.ts:1024-1211 | for separate source keys `sync --write` gets to its end, and the next run sends nothing, finds no file changed and writes nothing, with or without a provider |
| SyncLocale.SettledExactly | scripts/control-ui-i18n.ts:999-1235 | every writing run gets to its end and settles its locale, whatever the files and the translator's answers, exactly when the source's keys are separate |
| SyncLocale.NotSeparateIsUnsettled | scripts/control-ui-i18n.ts:1117-1160 | for any other source, either no run gets to its end, or a locale that has all the texts leaves the second run with pending keys, and without a provider with a change to report |
| SyncLocale.ResolveKeys | scripts/control-ui-i18n.ts:1020-1053 | the first loop leaves the specified reused texts, fallback keys and pending items |
| SyncLocale.TranslatePending | scripts/control-ui-i18n.ts:1055-1108 | translating batch by batch either fails, or leaves every pending key translated and remembered |
| SyncLocale.FillPending | scripts/control-ui-i18n.ts:1117-1131 | the last loop gives every remaining key its English text and marks it; its reuse branch is unreachable |
| SyncLocale.BuildLocale | scripts/control-ui-i18n.ts:1138-1141 | the nested map is the source's keys relabelled, unless one of the assignments throws |
| SyncLocale.Run | scripts/control-ui-i18n.ts:999-1235 | unless the translator fails, a whole run has the specified effect on the files and outcome, for every source; it throws a TypeError exactly when a refused write is among its assignments |
| SyncLocale.WhatMetaHolds | scripts/control-ui-i18n.ts:1143-1174 | the metadata's time is this run's, or everything is as it was; without a provider the previous provider and model stay, or are empty if there were none |
| SyncLocale.WhatRunLeaves | scripts/control-ui-i18n.ts:1142-1211 | a writing run leaves metadata with the locale, the source hash, the number of source keys, translated and fallback keys that add up to it, and the provider and model of this run or, without one, the previous ones; a non-empty glossary stays |
| SyncLocale.ChangedExactly | scripts/control-ui-i18n.ts:1160-1211 | a run reports a change exactly when some file is not as expected, writes exactly then if it may, and leaves every file alone otherwise |
| SyncLocale.WhatMemoryHolds | scripts/control-ui-i18n.ts:1083-1108 | a writing run remembers each translated key with its text, hash, provider, model, locale and time, and nothing else about any other source key changes |
| SyncLocale.TiersInOrder | scripts/control-ui-i18n.ts:1020-1131 | for each source key the remembered text comes first, the existing one second, a new translation or English last; the first two do not count for a key that is refreshed |
| SyncLocale.FallbackKeysExactly | scripts/control-ui-i18n.ts:1031-1174 | a source key is named as a fallback in the written metadata exactly when there is no provider and it was named before or has neither a remembered nor an existing text |
| SyncLocale.CheckWithoutProviderIsClean | scripts/control-ui-i18n.ts:1020-1235 | after a writing run with or without a provider over separate keys, a run without one over the same source asks nothing and finds no file changed |
| SyncLocale.RunTwice | scripts/control-ui-i18n.ts:999-1235 | two runs in a row with separate source keys: the second prompts nobody and leaves the files as they are |
| ToggleStore.ReadRendered | extensions/active-memory/index.ts:452-495 | a written store reads back as itself, but for blank session keys and `__proto__` |
| ToggleStore.ReadExactly | extensions/active-memory/index.ts:452-495 | a session is off exactly when the file is readable and has a disabled entry under its key, and the key is neither blank nor `__proto__` |
| ToggleStore.ReadToggleStore | extensions/active-memory/index.ts:463-478 | the loop keeps exactly the well-formed, disabled sessions whose key is neither blank nor `__proto__` |
| ToggleStore.StepKeepsInv | extensions/active-memory/index.ts:183-198 | every step keeps the calls in order behind one lock holder and the file equal to the fold |
| ToggleStore.MutualExclusionInOrder | extensions/active-memory/index.ts:183-198 | in every run at most one call is between taking and releasing the lock, and calls take it in call order |
| ToggleStore.StoreIsFold | extensions/active-memory/index.ts:516-532 | in every run the file reads as the fold, in call order, of the calls that wrote |
| ToggleStore.NoLostUpdate | extensions/active-memory/index.ts:516-532 | when each writing call could read the file or no other session was off, the store is the fold of all successful requests |
| ToggleStore.SessionAfterRun | extensions/active-memory/index.ts:516-532 | after any run a visible session is off exactly when the last write for it, or the initial file if there was none, says so, and since that request's time; what stood before the last write of a call that could not read the file does not count |
| ToggleStore.LastRequestDecides | extensions/active-memory/index.ts:516-532 | in a run that loses nothing, the last request that wrote for a session decides whether it is off and since when |
| ToggleStore.WriteLeavesOthers | extensions/active-memory/index.ts:523-530 | a write of a call that could read the file leaves every other session as it was |
| ToggleStore.NoLostUpdateExactly | extensions/active-memory/index.ts:452-532 | in a run, the store after each of its calls is the fold of the requests so far exactly when no call whose read failed wrote while another session was off |
| ToggleStore.FailedReadLosesExactlyTheOthers | extensions/active-memory/index.ts:478-483 | one write after a failed read keeps the other sessions exactly when there were none |
| ToggleStore.UpdateLostByFailedRead | extensions/active-memory/index.ts:478-483 | one failed read between two requests loses the first |
| ToggleStore.ReaderSeesPrefix | extensions/active-memory/index.ts:497-514 | a reader without the lock sees the fold of the first few calls of the run |
| ToggleStore.EveryCallGetsThrough | extensions/active-memory/index.ts:190-196 | from every reachable state all calls can get through even if every remaining task throws |
| ToggleStoreProgram.GuardedStore.Store | extensions/active-memory/index.ts:524-530 | the copied sessions are changed for one key and replace the file |
| ToggleStoreProgram.GuardedStore.HandleAll | extensions/active-memory/index.ts:183-207 | the object ends any interleaving in the state of the run |
| RecallCacheSpec.HitIsLatest | extensions/active-memory/index.ts:938-948 | whatever the clock does, a hit is the latest value set for the key, and unexpired |
| RecallCacheSpec.MissIsJustified | extensions/active-memory/index.ts:938-973 | whatever the clock does, a miss means never set, expired now or at the time of an operation since, or 1000 other keys set since |
| RecallCacheSpec.LapsedIsExpired | extensions/active-memory/index.ts:943-945 | with a clock that never goes back, an entry once expired still is |
| RecallCacheSpec.JustSetIsPresent | extensions/active-memory/index.ts:950-973 | the key just set is present with its new value and expiry |
| RecallCacheSpec.SetSweepsExactly | extensions/active-memory/index.ts:950-965 | a set drops exactly the expired entries of other keys, if the cache holds 1000 entries or a second has passed since the last sweep, as long as there is room for one more |
| RecallCacheSpec.NothingStaleIsKept | extensions/active-memory/index.ts:950-981 | in every run of a clock that never goes back, no entry that expired a second ago outlives a set |
| RecallCacheSpec.CacheKeyIsInjective | extensions/active-memory/index.ts:928-936 | for agent identifiers without a colon, two lookups share a key exactly when agent, session and query hash are equal |
| RecallCacheSpec.EvictFitsExactlyWhen | extensions/active-memory/index.ts:966-972 | eviction reaches the limit exactly when no entry that has to go has the empty key |
| RecallCacheSpec.SizeIsBounded | extensions/active-memory/index.ts:928-973 | with built keys the cache never exceeds 1000 entries after any history |
| RecallCache.ActiveRecallCache.GetCachedResult | extensions/active-memory/index.ts:938-948 | a lookup answers and drops an expired entry as specified |
| RecallCache.ActiveRecallCache.SetCachedResult | extensions/active-memory/index.ts:950-973 | setting sweeps, moves the key to the end and evicts as specified |
| RecallCache.ActiveRecallCache.SweepExpiredCacheEntries | extensions/active-memory/index.ts:975-981 | the sweep removes exactly the expired entries, in place and in order |
| PromptInjection.EscapeIsSimultaneous | extensions/active-memory/index.ts:1307-1314 | five passes in sequence equal one map over the characters |
| PromptInjection.UnescapeUndoesEscape | extensions/active-memory/index.ts:1307-1314 | escaping has a left inverse |
| PromptInjection.EscapedHasNoTag | extensions/active-memory/index.ts:1307-1314 | an escaped text has no less-than sign |
| PromptInjection.EntitiesArePredefined | extensions/active-memory/index.ts:1307-1314 | each of the five characters becomes its predefined XML entity and any other stays |
| PromptInjection.SummaryIsCarried | extensions/active-memory/index.ts:1352-1369 | the summary can be read back from between the two tags of the block |
| PromptInjection.StripInjectedActiveMemoryPrefixOnly | extensions/active-memory/index.ts:1497-1526 | the line loop computes the specified text |
| PromptInjection.StrippedWords | extensions/active-memory/index.ts:1497-1526 | stripping leaves just the words of the lines that are kept, in order and one blank apart |
| PromptInjection.WithoutBlockWordsStay | extensions/active-memory/index.ts:1497-1526 | a text without a block keeps all its words |
| PromptInjection.StripUndoesInjection | extensions/active-memory/index.ts:1352-1526 | stripping prefix, newline and text equals stripping the text, for every summary and text |
| PromptInjection.StripUndoesActiveMemory | extensions/active-memory/index.ts:233-237 | the same for the plugin's own header and tags |
| PromptInjection.StripIsIdempotent | extensions/active-memory/index.ts:1497-1526 | stripping twice is stripping once |
| JsonMerge.ExplicitWins | extensions/amazon-bedrock/config-compat.ts:27-41 | at every path an explicit value survives the merge, and records stay records |
| JsonMerge.LegacyFills | extensions/amazon-bedrock/config-compat.ts:27-41 | a legacy value at a free path is in the merge exactly when, down to where the target's own records end, no name is blocked, and there the name is own or not inherited; otherwise nothing is there |
| JsonMerge.MergeInventsNothing | extensions/amazon-bedrock/config-compat.ts:27-41 | every plain value of the merge stands at the same path in one of the inputs |
| JsonMerge.MergeTwice | extensions/amazon-bedrock/config-compat.ts:27-41 | merging the same source again changes nothing |
| JsonMerge.InheritedNameIsLost | extensions/amazon-bedrock/config-compat.ts:32-36 | any missing field with an inherited name is dropped |
| JsonMerge.BlockedNamesAreSkipped | extensions/amazon-bedrock/config-compat.ts:27-31 | nothing comes of a source field named `__proto__`, `prototype` or `constructor` |
| JsonMerge.HasLegacyExactly | extensions/amazon-bedrock/config-compat.ts:47-71 | there is something to migrate exactly when models.bedrockDiscovery is a record |
| JsonMerge.ModelsExactly | extensions/amazon-bedrock/config-compat.ts:55-75 | after the migration there is a models record exactly when it had a key besides bedrockDiscovery, and it is the old one without that key |
| JsonMerge.OnlyDiscoveryChanges | extensions/amazon-bedrock/config-compat.ts:72-97 | outside models every path that does not lead to or through the plugin's discovery record reads as before |
| JsonMerge.SecondRunIsIdentity | extensions/amazon-bedrock/config-compat.ts:62-107 | a migrated configuration has nothing to migrate, so a second run is the identity |
| JsonMerge.MigratedPluginConfig | extensions/amazon-bedrock/config-compat.ts:83-97 | of the plugin's configuration only the discovery record changes |
| JsonMerge.MigrationKeepsExplicit | extensions/amazon-bedrock/config-compat.ts:95-97 | explicit discovery values are unchanged after the whole migration |
| JsonMerge.MigrationMovesLegacy | extensions/amazon-bedrock/config-compat.ts:87-97 | a legacy value whose place is free is found under the plugin's discovery record exactly when there was none before or the names on the way pass |
| JsonMerge.NonRecordDiscoveryIsReplaced | extensions/amazon-bedrock/config-compat.ts:87-93 | an explicit discovery value that is not a record is replaced as a whole |
| JsonMerge.MigrationLeavesTheRest | extensions/amazon-bedrock/config-compat.ts:72-75 | nothing outside models and plugins changes, nor any other key of models |
| ConfigMigration.EnsureRecord | extensions/amazon-bedrock/config-compat.ts:17-25 | the record under a key is returned, made if need be, and nothing else changes |
| ConfigMigration.MergeMissing | extensions/amazon-bedrock/config-compat.ts:27-41 | the merge in place leaves exactly the functional merge, writes no record of the source, and keeps the result a tree |
| ConfigMigration.CloneRecord | extensions/amazon-bedrock/config-compat.ts:43-45 | a new record with the same fields whose nested records are shared |
| ConfigMigration.CloneFields | extensions/amazon-bedrock/config-compat.ts:72 | a deep copy that shares no record |
| ConfigMigration.RemoveLegacy | extensions/amazon-bedrock/config-compat.ts:73-75 | the legacy key goes, and an empty models record with it |
| ConfigMigration.MigrateAmazonBedrockLegacyConfig | extensions/amazon-bedrock/config-compat.ts:62-107 | the resulting configuration is the functional migration, and no record of the caller's is written |
| BedrockDiscovery.StepKeepsInv | extensions/amazon-bedrock/discovery.ts:447-545 | every step keeps each cache entry in line with the latest fetch for its key |
| BedrockDiscovery.FetchIsOfEvents | extensions/amazon-bedrock/discovery.ts:447-545 | in every run each fetch was begun by one call, for that call's key and at its time, has the outcome of the first reply to it, and is taken up exactly when its starter goes on behind that reply |
| BedrockDiscovery.AtMostOneFetchPerKey | extensions/amazon-bedrock/discovery.ts:447-522 | for a positive interval at most one fetch per key is on its way |
| BedrockDiscovery.CallIsAnsweredRight | extensions/amazon-bedrock/discovery.ts:447-455 | a call is answered from the cache, joins or starts a fetch exactly when the latest fetch for its key has succeeded less than the interval ago, is on its way, or neither |
| BedrockDiscovery.JoinersGetTheFetchedValue | extensions/amazon-bedrock/discovery.ts:453-532 | every joined fetch was started by exactly one call, for the same key, and both get its value if it succeeds |
| BedrockDiscovery.OutcomeIsFinal | extensions/amazon-bedrock/discovery.ts:524-532 | a settled fetch keeps its outcome |
| BedrockDiscovery.FailureLeavesNoEntry | extensions/amazon-bedrock/discovery.ts:533-536 | in every reachable state a key whose latest fetch failed has no entry, so the next call starts afresh |
| BedrockDiscovery.NoEntryFromFailure | extensions/amazon-bedrock/discovery.ts:524-536 | no entry ever comes from a failed fetch |
| BedrockDiscovery.MergeDiscovered | extensions/amazon-bedrock/discovery.ts:470-502 | foundation models come first, then in order exactly the profiles with a new normalised id |
| BedrockDiscoveryProgram.DiscoveryCache.DiscoverBedrockModels | extensions/amazon-bedrock/discovery.ts:447-522 | a call up to its first await answers and registers its fetch as the step system does |
| BedrockDiscoveryProgram.DiscoveryCache.Continue | extensions/amazon-bedrock/discovery.ts:524-545 | after its await the starter caches and returns the value, or deletes the entry and returns nothing found |
| BedrockDiscoveryProgram.DiscoveryCache.HandleAll | extensions/amazon-bedrock/discovery.ts:425-545 | the cache object ends any interleaving in the state of the run |
| ArgumentScanner.QuoteScanState.BeginQuotedSection | scripts/check-temp-path-guardrails.ts:46-52 | an unquoted quote character opens a section |
| ArgumentScanner.QuoteScanState.ConsumeQuotedChar | scripts/check-temp-path-guardrails.ts:54-70 | a character inside a section is consumed, escapes and the closing quote included |
| ArgumentScanner.QuotedExactly | scripts/check-temp-path-guardrails.ts:46-70 | a position is quoted exactly when an unquoted one of the three quote characters stands before it and every like character in between is behind an odd number of backslashes |
| ArgumentScanner.FindMatchingParen | scripts/check-temp-path-guardrails.ts:72-95 | the least position where the unquoted depth reaches zero, or -1 if there is none |
| ArgumentScanner.DepthCounts | scripts/check-temp-path-guardrails.ts:72-95 | the depth is one more than the unquoted opening parentheses less the unquoted closing ones |
| ArgumentScanner.SplitTopLevelArguments | scripts/check-temp-path-guardrails.ts:97-162 | the scan pushes the specified arguments |
| ArgumentScanner.SplitExactly | scripts/check-temp-path-guardrails.ts:97-162 | the result is what is pushed for the one way of cutting the source at its commas outside quotes and outside each of the three kinds of brackets, by position |
| ArgumentScanner.SplitUndoesJoinExactly | scripts/check-temp-path-guardrails.ts:97-162 | splitting a comma-join gives the list back exactly for the lists that `RoundTrips` describes |
| ArgumentScanner.WellFormedArgumentsSurvive | scripts/check-temp-path-guardrails.ts:97-162 | so for trimmed, non-empty, closed and balanced arguments without separating commas |
| ImageDimensions.ReadJpegDimensions | scripts/update-clawtributors.ts:546-590 | the loop stays in bounds, ends and reads what the walk specifies |
| ImageDimensions.ReadImageDimensions | scripts/update-clawtributors.ts:508-544 | PNG and JPEG files are told apart and read as specified |
| ImageDimensions.ReadPngDimensions | scripts/update-clawtributors.ts:532-540 | bytes 16 to 23 are read as two big-endian numbers |
| ImageDimensions.PngSizeExactly | scripts/update-clawtributors.ts:518-540 | behind the PNG signature a size is read exactly when bytes 16 to 19 stand for the width and 20 to 23 for the height, most significant first |
| ImageDimensions.BigEndianIsInjective | scripts/update-clawtributors.ts:532-540 | a number stands in only one way in a given number of bytes |
| ImageDimensions.WalkFindsFrame | scripts/update-clawtributors.ts:548-588 | behind stray bytes, lone markers and segments the frame's size is read |
| ImageDimensions.WalkIsSound | scripts/update-clawtributors.ts:548-588 | a reported size stands in a frame header behind recognised parts |
| ImageDimensions.JpegSizeExactly | scripts/update-clawtributors.ts:542-590 | a size is read exactly when the bytes are a start of image, such parts and a frame header with that size |
| ImageDimensions.StartsFrameExactly | scripts/update-clawtributors.ts:572-577 | the accepted frame markers are those of T.81 table B.1: process, differential and arithmetic bits, baseline only plain |
| ImageDimensions.SizeNeedsFrameMarker | scripts/update-clawtributors.ts:554-586 | of files that differ only in the marker before the header, exactly those with such a marker have a size |
| ImageDimensions.AloneIsSkipped | scripts/update-clawtributors.ts:557-562 | start and end of image, restart markers and TEM are stepped over without a length |
| ImageDimensions.FillByteHidesFrame | scripts/update-clawtributors.ts:554-570 | one fill byte before a marker can hide the frame |
| Utf16Slice.SliceUtf16Safe | src/utils.ts:88-115 | for all bounds the slice is the safe slice between the ordered bounds, well-formed if the input is, at most two units short |
| Utf16Slice.ClampIsNearest | src/utils.ts:91-92 | a bound means the position nearest to the one asked for, counted from the end if negative |
| Utf16Slice.SplitsPairExactly | src/utils.ts:80-113 | a position splits a pair exactly when the two units around it encode one character |
| Utf16Slice.WellFormedExactly | src/utils.ts:88-115 | well-formed units are exactly the encodings of Unicode scalar values |
| Utf16Slice.TruncateUtf16Safe | src/utils.ts:117-123 | a prefix of the input with limit or limit-1 units, the latter exactly when the limit splits a pair |
| Utf16Slice.SafeSliceIsWellFormed | src/utils.ts:100-115 | well-formed text stays well-formed |
| Utf16Slice.SafeSliceIsLargest | src/utils.ts:100-115 | the slice contains every well-formed stretch between the bounds |
| WorkerPool.StepKeepsInv | scripts/update-clawtributors.ts:498-503 | every step keeps each claimed index with one worker or with its own result |
| WorkerPool.ClaimedOnce | scripts/update-clawtributors.ts:497-503 | in every run exactly the indices below the counter are claimed, each once |
| WorkerPool.AllMapped | scripts/update-clawtributors.ts:504-505 | when all workers are done every item has its result at its own index |
| WorkerPool.SurvivorFinishesTheRest | scripts/update-clawtributors.ts:498-504 | while one worker survives, exactly the items whose mapper threw end without a result |
| WorkerPool.StepsAreBounded | scripts/update-clawtributors.ts:498-503 | every effective step comes closer to the end, and one is possible until all workers have ended |
| WorkerPool.LimitExactly | scripts/update-clawtributors.ts:497-498 | any number of mappers up to the number of items and up to the limit, or one, can be running at once, and no more |
| WorkerPoolProgram.Pool.OnMapped | scripts/update-clawtributors.ts:501 | a result is stored in the array at its own index |
| WorkerPoolProgram.MapConcurrent | scripts/update-clawtributors.ts:490-506 | the pool ends any schedule in the state of the run |
| FileReaders.RunSimulates | scripts/check-temp-path-guardrails.ts:232-256 | readers that overshoot the counter and skip unreadable files run as the pool does |
| FileReaders.AllRead | scripts/check-temp-path-guardrails.ts:223-263 | the filtered output is the readable files' sources in file order, whatever the interleaving |
| SparkleBuild.MatchExactly | scripts/sparkle-build.ts:12 | the version pattern takes apart exactly the texts printed from a version |
| SparkleBuild.LaneIs | scripts/sparkle-build.ts:40-48 | a suffix has the lane of its trailing number, capped at 89, or 1 without a number |
| SparkleBuild.Lane | scripts/sparkle-build.ts:40-48 | lanes are at most 90, and 90 exactly for final releases |
| SparkleBuild.FloorsAre | scripts/sparkle-build.ts:37-51 | what the glued decimal strings are worth |
| SparkleBuild.FloorsOrder | scripts/sparkle-build.ts:37-51 | lane floors are ordered as (year, month, day, lane), and a final release comes last on its date |
| SparkleBuild.FloorBands | scripts/sparkle-build.ts:38-50 | legacy floors are below 1,000,000,000, lane floors at or above it exactly from the year 1000 |
| Appcast.CollectAppcastSparkleVersionErrors | scripts/release-check.ts:603-660 | the two loops report the specified problems in order |
| Appcast.EffectiveAdoptionDate | scripts/release-check.ts:638-645 | filtering, sorting and taking the first date gives the specified cut-over date |
| Appcast.AdoptionDateIs | scripts/release-check.ts:638-645 | the computed cut-over date is the first on which the lane scheme is in force |
| Appcast.CleanExactly | scripts/release-check.ts:603-660 | no problem is reported exactly when there are items, all are numbered and each calendar version meets its floor |
| Appcast.LegacyAfterLaneExactly | scripts/release-check.ts:647-651 | beside a lane-numbered item, a legacy number of that date or later passes exactly in the gap below the first lane number |
| Appcast.NoLegacyAfterLane | scripts/release-check.ts:638-660 | in a clean feed with a lane-numbered item no item of that date or later has a legacy number, from the year 1000 on |
| SchemaIndex.SignatureExactly | scripts/protocol-gen-swift.ts:86-103 | two schemas share a signature exactly when they are equal up to object key order |
| SchemaIndex.Index.RegisterNamedSchema | scripts/protocol-gen-swift.ts:105-117 | a registration keeps every signature unseen, named or ambiguous as the history says |
| SchemaIndex.Index.NamedSchema | scripts/protocol-gen-swift.ts:119-124 | the lookup answers by object first, then by structure, as the history says |
| SchemaIndex.FallbackExactly | scripts/protocol-gen-swift.ts:105-124 | an unregistered schema gets a name exactly when one single registration equals it up to key order |
| SchemaIndex.FallbackIgnoresOrder | scripts/protocol-gen-swift.ts:105-124 | the structural answer does not depend on the order of registrations |

## Left out

- Subprocesses, HTTP, the file system, clocks and the environment are events, oracles and parameters; prompt texts, log lines and progress messages are not modelled.
- JSON text, hashing and cache-key text: JSON documents are values, digests and cache keys do not collide, and `localeCompare` is an abstract sorting that loses nothing.
- SyncLocale.SettledExactly: both runs have the same source, provider and model; a change of these is a change to report.
- TranslationObjects.SetNestedValue: a walk that leaves the map goes on in objects of the runtime. Which of those writes the runtime refuses is a parameter; what the accepted ones change for later walks is not modelled. Integer-like keys, which JavaScript moves to the front, stay where they were set.
- Batching.BuildTranslationBatches: the character budget is a whole number; a fractional one acts as its floor.
- RpcProtocol: whether the process survives the unhandled rejection after a stdout line `null` is not modelled; if not, the run ends there. What `extractTranslationResult` makes of an `agent_end` line is part of the event, and so is whether it throws.
- TranslateBatch: the pauses between attempts and the renewal of the client are not part of the model; the child's replies are numbered in the order of the prompts.
- ToggleStore: one state path, so one lock; the time of a request is a parameter of it; the temporary file and the rename are one step.
- RecallCache: of a recall result only the summary is modelled.
- PromptInjection: `stripRecalledContextNoise` is left out; joining lines can create new matches, so it is not idempotent.
- ConfigMigration.MigrateAmazonBedrockLegacyConfig: the configuration is a tree, as a parsed file is; shared or cyclic input and the wording of the change message are not modelled.
- BedrockDiscovery: capability inheritance of inference profiles, provider filters and the final sort are left out; they are per-item expressions. The starter of a failed fetch gets an empty list, its joiners the rejection, so agreement is stated for success.
- ArgumentScanner: comment stripping and the pattern gates for `os.tmpdir` are left out.
- ImageDimensions: bytes are read from memory; the download of the image is left out.
- Utf16Slice: bounds are whole numbers; `truncateUtf16Safe` floors its limit first.
- Appcast: items enter with their three tags extracted; XML matching is left out. Build numbers are exact; the source's doubles agree in every comparison because all floors are below 2^53.
- SchemaIndex: schemas are JSON values; properties holding `undefined` do not occur. The text of a signature stands for its canonical form.
- Release smoke lanes, command-line parsing, statistics, plugin registration and documentation scripts are thin or bound to input and output.
