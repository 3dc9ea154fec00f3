# Verified model of the algorithmic core

This project models, in Dafny, the parts of the repository that compute something hard to see at a glance, and
proves what they promise. `dafny verify dfyconfig.toml` checks all of it.

* **Import cycles** (`ImportGraph`, `ComponentSearch`, `StronglyConnected`, `CycleWitness`): the strongly connected
  components of the runtime import graph, by the recursive search with its mutable stack, indices and low links, and
  a concrete cycle out of each component.
* **Locale synchronisation**: flattening and rebuilding translation trees (`TranslationTree` on values, `DottedKeys`
  on dotted names, `TreeLookup` for names of any shape, `TranslationMap` on objects in the heap), greedy batches
  (`TranslationBatches`), the translator that retries and splits (`BatchTranslation`), the client that sends one prompt
  at a time (`RpcProtocol` as a state machine, `RpcClient` as the object), and the decisions of a whole run
  (`SyncRules` as a function of the files, `SyncFixpoint` for what a second run finds, `LocaleSync` for the steps,
  `WrittenFiles` for what stands in the files afterwards, `ProviderSettings` and `SecondRuns` for the environment
  variables and for runs that follow each other).
* **Bedrock discovery and its configuration**: the cache under interleaved calls (`DiscoveryProtocol`,
  `BedrockDiscovery`), and the migration of the legacy block (`ConfigValues` on values, `ConfigMigration` on objects
  that are written to in place).
* **Contributor pictures**: the pool of workers (`WorkerPool`) and the size of a JPEG image (`JpegReader`).
* **Isolated copies of a module**: the files it imports (`ImportClosure`) and the directory above them
  (`CommonAncestor`).
* **Text and versions**: cutting UTF-16 strings (`Utf16`), build numbers from calendar versions (`SparkleBuild`,
  `Whitespace`) and the check of the update feed (`Appcast`).

Code that changes state step by step is a class or a method with loops, proved against a function of its inputs; what
that function promises is then proved as lemmas. Concurrent code is a state machine over events (one per
uninterrupted stretch between two `await`s, or per callback), and its lemmas speak about every sequence of events.

The code and its promises differ in a few places. The model follows the code:

* a migration keeps the effective discovery configuration only under a condition (`ConfigValues.MigrationKeepsMeaning`);
* a failed discovery answers its initiator with an empty list and its joiners with a rejection
  (`DiscoveryProtocol.JoinersShareSuccess`);
* an answer of the translation process is given to whichever prompt is pending, which is the right one only under a
  discipline of the process (`RpcProtocol.OwnAnswersIff`, `RpcProtocol.SurplusAgentEndIsTaken`);
* the JPEG reader misreads fill bytes (`JpegReader.ReadsHeaderIffUnfilled`, `JpegReader.FillByteExample`);
* the common ancestor is one segment too long beside its own parent (`CommonAncestor.AncestorIsLongestPrefixIff`);
* the cycle check mistakes an empty file name for an empty stack (`SccFinder.CollectStronglyConnectedComponents`);
* a check without the API keys may fail right after a run with them, because the provider is read off the key that is
  set and its name enters the cache keys (`ProviderSettings.NamesSurviveIff`, `SecondRuns.CheckFailsWithoutKeys`);
* a synchronised locale need not be stable if a name of the source starts with a dot or is a dotted beginning of
  another (`SecondRuns.UnreadableIsPending`, `SecondRuns.UnreadableIsNotIdle`), nor, without a provider, if the
  collation does not tell two names apart (`SecondRuns.TiedNamesAreNotIdle`).

## Model

| member | source | states |
|---|---|---|
| `StronglyConnected.SccFinder.CollectStronglyConnectedComponents` | openclaw/scripts/check-import-cycles.ts:155-208 | For every graph the search ends. It throws exactly if some file has an empty name, and otherwise returns exactly the classes of mutually reachable files that lie on a cycle, each once, no file in two, the paths of each sorted, larger classes first and classes of one size by their paths joined with newlines. |
| `StronglyConnected.SccFinder.Visit` | openclaw/scripts/check-import-cycles.ts:165-197 | One visit ends within the files not yet indexed, keeps the stack duplicate-free and equal to `onStack` with increasing indices and every stacked file leading to an active one, and leaves the visited file with everything it reaches explored. |
| `StronglyConnected.SccFinder.PopComponent` | openclaw/scripts/check-import-cycles.ts:184-193 | The do-while loop takes off exactly the files from the root upwards; the underflow error arises only for a file with an empty name. |
| `StronglyConnected.StackEmpties` | openclaw/scripts/check-import-cycles.ts:199-203 | After each root visit the stack is empty. |
| `ComponentSearch.EnterKeeps` | openclaw/scripts/check-import-cycles.ts:165-170 | Opening a file that every active file reaches keeps the search invariant. |
| `ComponentSearch.NestedKeeps` | openclaw/scripts/check-import-cycles.ts:173-175 | Taking over the low link of a nested visit keeps the search invariant. |
| `ComponentSearch.MetKeeps` | openclaw/scripts/check-import-cycles.ts:176-178 | Lowering the low link to the index of a file on the stack keeps the search invariant. |
| `ComponentSearch.ClassInside` | openclaw/scripts/check-import-cycles.ts:181-194 | A file whose low link equals its index has its whole class on the stack from there upwards: whoever leaves that part never comes back. |
| `ComponentSearch.CycleOfOne` | openclaw/scripts/check-import-cycles.ts:194-196 | A file that is a class of its own lies on a cycle if and only if it imports itself, the condition under which the source keeps such a class. |
| `CycleWitness.WitnessFinder.Visit` | openclaw/scripts/check-import-cycles.ts:221-241 | The depth-first search either returns a closed walk of real imports inside the component, without repeated files, or proves that every finished file imports only finished files of the component. |
| `CycleWitness.FindCycleWitness` | openclaw/scripts/check-import-cycles.ts:210-243 | For every component whose first file has a name, and for every list beginning with such a file in which each file imports another of the list, the result is a simple closed walk inside it; the fallback to the whole component is never taken. |
| `CycleWitness.FirstFinished` | openclaw/scripts/check-import-cycles.ts:239-242 | If the search found nothing, some file of the component imports nothing from it; so on a cyclic component the search cannot fail. |
| `CycleWitness.CheckImportCycles` | openclaw/scripts/check-import-cycles.ts:253-276 | The check exits with 1 exactly if some file lies on a cycle, else with 0; it prints one simple cycle for the class of every file that does, no two of them with a file in common. |
| `TranslationTree.RebuildFlatten` | openclaw/scripts/control-ui-i18n.ts:281-308 | Rebuilding a tree by setting each flattened path gives it back without its empty parts, for every tree whose keys are distinct at each level, non-empty and free of dots. |
| `TranslationTree.RoundTrip` | openclaw/scripts/control-ui-i18n.ts:281-308 | That round trip is the identity if and only if the tree has no empty submaps. |
| `TranslationTree.RetextRoundTrip` | openclaw/scripts/control-ui-i18n.ts:1135-1138 | With any other texts under the same paths, rebuilding and flattening gives exactly those paths and texts in order. |
| `TranslationTree.FlattenPrefixFree` | openclaw/scripts/control-ui-i18n.ts:281-308 | No flattened path is a prefix of another. |
| `DottedKeys.SplitJoin` | openclaw/scripts/control-ui-i18n.ts:293-295 | Splitting a dotted key undoes joining dot-free segments. |
| `DottedKeys.NamesDistinct` | openclaw/scripts/control-ui-i18n.ts:281-291 | The dotted names of an object with non-empty, dot-free keys all differ. |
| `DottedKeys.NamedRoundTrip` | openclaw/scripts/control-ui-i18n.ts:1135-1138 | The round trip of rebuilding from dotted names with new texts, in terms of the names themselves. |
| `TranslationMap.SetNestedValue` | openclaw/scripts/control-ui-i18n.ts:293-308 | The in-place walk with its creation of objects on the way turns the object for `es` into the one with the path set; it touches no object outside the tree. |
| `TranslationMap.FlattenTranslations` | openclaw/scripts/control-ui-i18n.ts:281-291 | The recursion with its accumulator enters the leaves in order into the map, a repeated name keeping its place. |
| `TranslationMap.FlattenAll` | openclaw/scripts/control-ui-i18n.ts:281-291 | On an empty map and a well-formed object the result is the list of its leaves in order. |
| `TranslationBatches.BuildTranslationBatches` | openclaw/scripts/control-ui-i18n.ts:659-683 | The batches concatenate to the items, each item may join the one it is in, and each batch is closed only because the next item could not join. |
| `TranslationBatches.BatchBounds` | openclaw/scripts/control-ui-i18n.ts:499-501 | Every batch has between 1 and 20 items, and one of two or more has an estimate within the budget. |
| `TranslationBatches.CutMeans` | openclaw/scripts/control-ui-i18n.ts:659-683 | In numbers: a batch of several items has at most 20 and costs, at its keys and texts and 10 characters for each item and 2 more, no more than the budget; it is closed only if it has 20 or would cost more with the next item. |
| `TranslationBatches.GreedyUnique` | openclaw/scripts/control-ui-i18n.ts:659-683 | Those conditions determine the batches. |
| `TranslationBatches.FewestBatches` | openclaw/scripts/control-ui-i18n.ts:659-683 | No cut of the items into admissible batches has fewer of them. |
| `BatchTranslation.Translator.TranslateBatch` | openclaw/scripts/control-ui-i18n.ts:925-987 | The retry and split loop follows the specification function on outcome, replies used, prompts sent and the items of every attempt, and ends for every pattern of replies; no prompt goes to a client on which an earlier one had failed. |
| `BatchTranslation.RunFollowsPolicy` | openclaw/scripts/control-ui-i18n.ts:948-983 | For every pattern of replies: after an attempt on n > 1 items that timed out the next one asks for the first ceil(n/2) of them, one item that timed out ends the run with that error, after any other failure the same items are asked for again, but only once, and the second such failure in a row ends the run with its error. Every attempt asks for items right behind those of the attempts that have succeeded, and the run succeeds exactly when these cover all items. |
| `BatchTranslation.TimeoutBound` | openclaw/scripts/control-ui-i18n.ts:956-977 | If nothing but timeouts goes wrong, n items cost at most 2n - 1 attempts, one item exactly one, and the prompts sent are the attempts for which there was a client. |
| `BatchTranslation.FirstMissing` | openclaw/scripts/control-ui-i18n.ts:939-945 | An answer is taken exactly if every item has a text in it that is not only white space; otherwise the error names the first item that has none. |
| `BatchTranslation.SuccessMeans` | openclaw/scripts/control-ui-i18n.ts:938-945 | On success exactly the keys of the items are translated, each by a non-blank text that some reply used gave for it. |
| `BatchTranslation.TextsAreGiven` | openclaw/scripts/control-ui-i18n.ts:938-971 | Every text is the answer of the last attempt that asked for its key and succeeded; nothing out of an answer that was refused is used. |
| `BatchTranslation.PromptBound` | openclaw/scripts/control-ui-i18n.ts:934-983 | For n >= 1 items at most 4n - 2 prompts are sent. |
| `BatchTranslation.PromptBoundIsTight` | openclaw/scripts/control-ui-i18n.ts:934-983 | For every n there is a run that sends 4n - 2 prompts and succeeds. |
| `BatchTranslation.DepthBound` | openclaw/scripts/control-ui-i18n.ts:957-971 | A split d below the first needs more than 2^(d-1) items: the depth is at most the ceiling of the binary logarithm. |
| `RpcClient.Drive` | openclaw/scripts/control-ui-i18n.ts:685-892 | The object driven by any interleaving of its handlers is in the state of the protocol run, so the lemmas of `RpcProtocol` hold of it. |
| `RpcClient.PiRpcClient.ContinueSequence` | openclaw/scripts/control-ui-i18n.ts:814-878 | The continuation of a `prompt` call: refused after an earlier failure or a close, otherwise written and pending. |
| `RpcClient.PiRpcClient.HandleStdoutLine` | openclaw/scripts/control-ui-i18n.ts:766-812 | A line from the process changes exactly what the protocol step says. |
| `RpcProtocol.AtMostOnePending` | openclaw/scripts/control-ui-i18n.ts:814-878 | In every run prompts are written in call order, and an unanswered written prompt is the last one and the pending one. |
| `RpcProtocol.SettledOnce` | openclaw/scripts/control-ui-i18n.ts:758-764 | A settled prompt keeps its outcome whatever happens later. |
| `RpcProtocol.DeliveredToPending` | openclaw/scripts/control-ui-i18n.ts:799-810 | A step makes a call succeed with a text if and only if it is an `agent_end` with that text while this call is pending. |
| `RpcProtocol.FailsExactly` | openclaw/scripts/control-ui-i18n.ts:740-878 | A step makes a call fail with an error if and only if the call is pending and the step is a failed response to its request with that error, an `agent_end` that carries it, its timer, its write error, an error of the process or its close; or the call is next in the sequence and the sequence had failed with that error before, or the client was closed. |
| `RpcProtocol.ClosedBy` | openclaw/scripts/control-ui-i18n.ts:735-748 | The client is closed exactly by the close of the process, by a call of `close`, and by the timer of the pending prompt. |
| `RpcProtocol.AllFailAlike` | openclaw/scripts/control-ui-i18n.ts:814-821 | All calls that fail in a run fail with the same error, that of the first. |
| `RpcProtocol.NoWriteAfterFailure` | openclaw/scripts/control-ui-i18n.ts:814-821 | After the first failed prompt nothing is written any more, in any continuation of the run. |
| `RpcProtocol.NextPromptIsWrittenIff` | openclaw/scripts/control-ui-i18n.ts:814-821 | When all prompts called so far have ended, the next one is written if and only if none of them failed and the client is not closed; so a retry, which goes to a fresh client, is never refused on account of the failure before it. |
| `RpcProtocol.OwnAnswersIff` | openclaw/scripts/control-ui-i18n.ts:799-810 | A line does not say which prompt it answers. In every run each `agent_end` taken as an answer ended the turn of the very prompt it is given to, if and only if among the lines that find a prompt pending each ends the turn of a prompt already written and no two that of the same prompt. |
| `RpcProtocol.AnswersAreOwn` | openclaw/scripts/control-ui-i18n.ts:799-810 | If the process ends each turn at most once and after its prompt was written, every call that succeeds gets the text with which the process ended the turn of that call. |
| `RpcProtocol.AnswersInOrder` | openclaw/scripts/control-ui-i18n.ts:799-810 | What counting alone gives: while there are no more `agent_end` lines than prompts, call number c succeeds only with the text of `agent_end` number c, whichever prompt the process meant by it. |
| `RpcProtocol.SurplusAgentEndIsTaken` | openclaw/scripts/control-ui-i18n.ts:799-810 | A run in which the process ends the first turn twice: the second prompt is given what was said to the first, although the lines never outnumber the prompts. |
| `RpcProtocol.SurplusMayBeDropped` | openclaw/scripts/control-ui-i18n.ts:787-790 | A run in which the surplus line comes while nothing is pending: it is dropped, so the discipline on all lines is not necessary. |
| `RpcProtocol.ClosingSettlesEveryCall` | openclaw/scripts/control-ui-i18n.ts:740-748 | Once the process has closed and the remaining continuations have run, every call is settled. |
| `LocaleSync.SyncLocale` | openclaw/scripts/control-ui-i18n.ts:996-1232 | For every source, whatever its keys: a run that fails leaves the files alone; one that gets through reports and writes exactly what `Expect` says for the translations it obtained, those are complete and non-blank, and each is the answer of the last attempt that asked for it and succeeded; without a provider or with nothing pending it always gets through and sends no prompt. With one the pending keys are asked for in the batches of the greedy cut, one after the other, up to the first that fails, with whose error the run fails; at most 4p - 2b prompts are sent for p pending keys cut into b batches. |
| `LocaleSync.ChooseTexts` | openclaw/scripts/control-ui-i18n.ts:1021-1050 | The first loop reuses the cached text, else the existing one, except a fallback that a provider is to refresh; the rest is pending in source order. |
| `LocaleSync.TranslatePending` | openclaw/scripts/control-ui-i18n.ts:1052-1099 | The attempts made are those for the batches of the greedy cut in order; all pending items are translated and entered into the flat map and the memory, or the first batch that fails ends it with its error; in either case at most four prompts are sent for each item, less two for each batch. |
| `LocaleSync.FallBackTexts` | openclaw/scripts/control-ui-i18n.ts:1109-1122 | The last loop gives every untranslated pending key its existing or its source text, and marks it accordingly. |
| `LocaleSync.BuildNextMap` | openclaw/scripts/control-ui-i18n.ts:1135-1138 | The object to be written is the one with every source name set to its new text. |
| `LocaleSync.BuildMeta` | openclaw/scripts/control-ui-i18n.ts:1140-1175 | The metadata keeps its time stamp exactly if nothing else in it changes. |
| `WrittenFiles.ChangeIsReported` | openclaw/scripts/control-ui-i18n.ts:1183-1222 | A run reports a change if and only if the files it leaves, where it may write, differ from those it found; one that only checks or may not write leaves them alone; the fallback count is that of the metadata left. |
| `WrittenFiles.CheckForetells` | openclaw/scripts/control-ui-i18n.ts:1183-1222 | A check reports a change if and only if the same run, let write, would change a file. |
| `WrittenFiles.MetaLeft` | openclaw/scripts/control-ui-i18n.ts:1140-1175 | The metadata left by every run that may write: locale, source hash, workflow 1 and the counts are those of the run; with a provider its name and its model stand under their own fields, without one those of the previous metadata or the empty string; the time stamp is the previous one if and only if all eight other fields are as before, and otherwise the present time. |
| `WrittenFiles.GlossaryLeft` | openclaw/scripts/control-ui-i18n.ts:1176-1176 | The glossary left is the one found, or if that was missing or empty the ten names of the default one, each translated as itself. |
| `WrittenFiles.TextsLeft` | openclaw/scripts/control-ui-i18n.ts:1021-1138 | Every source name ends up in the locale file with its translation if a provider was there and it was a fallback or unknown, with the text of the source if it was unknown and no provider was there, and otherwise with the cached or else the existing text; it is a fallback in the metadata left if and only if no provider was there and it was a fallback or unknown. |
| `WrittenFiles.LoadMeans` | openclaw/scripts/control-ui-i18n.ts:376-395 | Loading the memory keeps for each key the last line that has a text. |
| `WrittenFiles.MemoryLeft` | openclaw/scripts/control-ui-i18n.ts:1081-1097 | The memory left is sorted and has one line for each key: for every translated name a new one with model, provider, name, text, hash, translation and time under their own fields, and for every other key the line that decided before. |
| `LocaleSync.SecondRunIsIdle` | openclaw/scripts/control-ui-i18n.ts:1021-1190 | After a run that may write, a second one over the same source has nothing pending, reports no change, writes nothing and leaves the same files, in any mode and at any time; with a provider the first run leaves no fallback. This holds for every source in which no flattened name starts with a dot or is a dotted beginning of another and, for runs without a provider, no two names are tied under the collation. |
| `LocaleSync.SecondRunOfSimpleSource` | openclaw/scripts/control-ui-i18n.ts:1021-1190 | The same in terms of the keys of the source: they are non-empty and free of dots. |
| `LocaleSync.CheckWithoutProviderIff` | openclaw/scripts/control-ui-i18n.ts:238-249 | A later check where no provider is configured, under whatever cache keys, passes if and only if the memory holds no other text under those keys than the locale file. |
| `SecondRuns.CheckPassesIfNamesSurvive` | openclaw/scripts/control-ui-i18n.ts:198-224 | A check made after any run where only the two API keys are missing passes, if provider and model keep their names without the keys. |
| `SecondRuns.CheckFailsWithoutKeys` | openclaw/scripts/control-ui-i18n.ts:198-224 | If they do not keep them, there is a run, over files given in full, after which that check reports a change. |
| `SecondRuns.UnreadableIsPending` | openclaw/scripts/control-ui-i18n.ts:1135-1138 | The condition on names is needed, for every source and with or without a provider: where it fails there are files, with a translation for every name and nothing pending, after a written run over which something is pending, so that a run with a provider may send prompts. |
| `SecondRuns.UnreadableIsNotIdle` | openclaw/scripts/control-ui-i18n.ts:1021-1190 | Whatever its mode and clock and the translations it obtains, every second run over those files that gets through reports a change; without a provider it falls back for some name. |
| `SecondRuns.TiedNamesAreNotIdle` | openclaw/scripts/control-ui-i18n.ts:1146-1148 | The condition on the collation is needed too, for every source and every two names that are tied: without a provider there are files after a written run over which the next run lists the two the other way round and reports a change. |
| `ProviderSettings.NamesSurviveIff` | openclaw/scripts/control-ui-i18n.ts:198-220 | Provider and model keep their names without the keys, except exactly where no provider is configured, the Anthropic key is set and the OpenAI key is not. |
| `ProviderSettings.NamesAre` | openclaw/scripts/control-ui-i18n.ts:198-224 | Provider and model case by case: the configured name, else the provider whose key is set, OpenAI first, and the default model of the provider. |
| `ProviderSettings.NormalForm` | openclaw/scripts/control-ui-i18n.ts:226-228 | For any words and any white space before, between and behind them, the text that is hashed is the words with one blank between any two. |
| `ProviderSettings.KeyOfName` | openclaw/scripts/control-ui-i18n.ts:238-249 | What a cache key is the hash of, written out through the three functions that make it. |
| `ProviderSettings.CacheKeysSurviveIff` | openclaw/scripts/control-ui-i18n.ts:238-249 | If the names survive the loss of the keys every cache key stays; if not, no cache key of the one setting is a cache key of the other. |
| `ProviderSettings.EnvIsValid` | openclaw/scripts/control-ui-i18n.ts:230-249 | Under a collision-free hash the cache keys of different names differ, as the second run of a pair relies on. |
| `SyncFixpoint.SecondRunExpectsTheSame` | openclaw/scripts/control-ui-i18n.ts:1114-1190 | Translations, fallback keys, metadata with `generatedAt`, glossary and memory expected by the second run are those of the first. |
| `SyncFixpoint.CheckElsewhereIff` | openclaw/scripts/control-ui-i18n.ts:238-249 | The same condition stated on the files: exactly then nothing would be written differently. |
| `SyncFixpoint.Stable` | openclaw/scripts/control-ui-i18n.ts:1028-1050 | After a run every key is reused with the text and the fallback mark it was settled on. |
| `SyncFixpoint.MetaCounts` | openclaw/scripts/control-ui-i18n.ts:1146-1150 | Translated and fallback keys add up to the source keys; the fallback list holds exactly the keys that fell back, once each, sorted. |
| `SyncFixpoint.ProviderLeavesNoFallback` | openclaw/scripts/control-ui-i18n.ts:1052-1128 | A run with a provider that gets through leaves no fallback keys. |
| `SyncFixpoint.MemoryReloaded` | openclaw/scripts/control-ui-i18n.ts:376-405 | The memory file written by a run is loaded with the same entries and rendered as it was. |
| `SyncFixpoint.LocaleReloaded` | openclaw/scripts/control-ui-i18n.ts:281-308 | The locale file written by a run, flattened again, has under every source name the text the run settled on. |
| `TreeLookup.RereadIff` | openclaw/scripts/control-ui-i18n.ts:281-308 | An object built by nested assignments from different names has, flattened again, every text under its name if and only if no name starts with a dot and none is a dotted beginning of another. |
| `TreeLookup.WellFormedIsRereadable` | openclaw/scripts/control-ui-i18n.ts:281-291 | The names of an object with non-empty, dot-free keys are such names. |
| `TreeLookup.OneIsLost` | openclaw/scripts/control-ui-i18n.ts:281-308 | Where that fails, some name is missing altogether from the map read back. |
| `Sorting.SortedUnique` | openclaw/scripts/control-ui-i18n.ts:1146-1148 | Where the comparison tells the elements apart a collection has only one sorted arrangement, so fallback keys collected in another order give the same metadata. |
| `BedrockDiscovery.Discoverer.DiscoverBedrockModels` | openclaw/extensions/amazon-bedrock/discovery.ts:309-407 | The part of a call before its first `await`: a fresh value is returned, a discovery in flight is joined, otherwise one is started and marked in the cache. |
| `BedrockDiscovery.Discoverer.InitiatorResumes` | openclaw/extensions/amazon-bedrock/discovery.ts:409-428 | The part after the `await`: the value or the deletion goes into the cache, the first failure is logged, and the call returns the value or an empty list. |
| `BedrockDiscovery.Discoverer.DiscoverySettles` | openclaw/extensions/amazon-bedrock/discovery.ts:336-338 | When the promise settles, every call that returned it is answered with its value or rejected with it. |
| `BedrockDiscovery.Drive` | openclaw/extensions/amazon-bedrock/discovery.ts:309-428 | The object driven by any interleaving of calls, settlements and continuations is in the state of the protocol run, so the lemmas of `DiscoveryProtocol` hold of it. |
| `BedrockDiscovery.RefreshIntervalSeconds` | openclaw/extensions/amazon-bedrock/discovery.ts:315-318 | The interval is 3600 seconds by default, else the floor of the configured seconds, and zero exactly below one second. |
| `DiscoveryProtocol.SingleFlight` | openclaw/extensions/amazon-bedrock/discovery.ts:331-339 | In every run two discoveries in flight under one caching key are the same. |
| `DiscoveryProtocol.JoinsWhileInFlight` | openclaw/extensions/amazon-bedrock/discovery.ts:336-338 | A call made meanwhile starts nothing and changes no cache entry: it joins. |
| `DiscoveryProtocol.OnlyInitiatorTouches` | openclaw/extensions/amazon-bedrock/discovery.ts:401-421 | While a discovery is in flight only its initiator replaces or deletes the entry of its key, and the initiator touches no other entry. |
| `DiscoveryProtocol.HitIsFresh` | openclaw/extensions/amazon-bedrock/discovery.ts:332-335 | A value served from the cache came from a successful discovery of the same key and is served before its start plus 1000 milliseconds for every second of the interval. |
| `DiscoveryProtocol.SuccessServes` | openclaw/extensions/amazon-bedrock/discovery.ts:410-416 | After a success the next call is served that value exactly if it comes less than 1000 milliseconds for every second of the interval after the start, and otherwise starts a discovery. |
| `DiscoveryProtocol.FailureStartsAnew` | openclaw/extensions/amazon-bedrock/discovery.ts:417-420 | After a failure nothing is left under the key, and the next call starts a discovery. |
| `DiscoveryProtocol.ClientFailureIsHarmless` | openclaw/extensions/amazon-bedrock/discovery.ts:341-342 | A call for which no client can be made is rejected and changes neither cache nor discoveries. |
| `DiscoveryProtocol.DiscoveriesSpaced` | openclaw/extensions/amazon-bedrock/discovery.ts:332-338 | Successive discoveries of a key do not overlap, and after a success they start at least the interval apart. |
| `DiscoveryProtocol.NoCachingWithoutInterval` | openclaw/extensions/amazon-bedrock/discovery.ts:331-331 | With a zero interval nothing is cached or shared. |
| `DiscoveryProtocol.CallsAreTold` | openclaw/extensions/amazon-bedrock/discovery.ts:332-338 | In every run what the steps have answered a call is what its discovery says: a hit its value at once, a joiner the value or a rejection as soon as the discovery settles, the initiator the value or an empty list once it has resumed, and before that nothing. |
| `DiscoveryProtocol.JoinersShareSuccess` | openclaw/extensions/amazon-bedrock/discovery.ts:417-428 | Of an initiator that has returned and a call that joined it, both are answered, and alike if and only if the discovery succeeded; on failure the initiator has an empty list and the joiner a rejection. |
| `DiscoveryProtocol.ResultsAreFinal` | openclaw/extensions/amazon-bedrock/discovery.ts:409-428 | What a call was answered never changes in any continuation of the run. |
| `DiscoveryProtocol.WarnsOnce` | openclaw/extensions/amazon-bedrock/discovery.ts:421-426 | In every run one warning is logged if some call has gone on after its discovery failed, and none otherwise. |
| `ConfigMigration.MergeMissing` | openclaw/extensions/amazon-bedrock/config-compat.ts:27-41 | The in-place merge leaves the target with the merged value and writes only to objects of the target. |
| `ConfigMigration.EnsureRecord` | openclaw/extensions/amazon-bedrock/config-compat.ts:17-25 | The object under the key, a new empty one if there was none, in place and without touching the rest. |
| `ConfigMigration.StructuredClone` | openclaw/extensions/amazon-bedrock/config-compat.ts:72-72 | The copy has the same value and shares no object with the original. |
| `ConfigMigration.MigrateAmazonBedrockLegacyConfig` | openclaw/extensions/amazon-bedrock/config-compat.ts:62-107 | The result has the migrated value, the input object keeps its value, and nothing is done without a legacy block. |
| `ConfigValues.MergeMeans` | openclaw/extensions/amazon-bedrock/config-compat.ts:27-41 | Key by key: the target keeps what it defines unless both values are records, which are merged in turn; what it lacks comes from the source, except under `__proto__`, `prototype` and `constructor`. |
| `ConfigValues.MigrationMeans` | openclaw/extensions/amazon-bedrock/config-compat.ts:62-107 | Place by place: nothing changes without a legacy record; with one it goes, and `models` with it exactly if nothing else is in there; an empty one leaves `plugins` alone, and another becomes `plugins.entries.amazon-bedrock.config.discovery` or is merged into the record there. |
| `ConfigValues.MergeIsNoop` | openclaw/extensions/amazon-bedrock/config-compat.ts:27-41 | A merge changes nothing if and only if the target already covers the source. |
| `ConfigValues.MergeIdempotent` | openclaw/extensions/amazon-bedrock/config-compat.ts:27-41 | Merging the same source twice is merging it once. |
| `ConfigValues.MergeKeepsLeaves` | openclaw/extensions/amazon-bedrock/config-compat.ts:27-41 | Every explicit value of the target survives at every path, and every value in the result comes from the target or else from the source. |
| `ConfigValues.MigrateIdempotent` | openclaw/extensions/amazon-bedrock/config-compat.ts:62-107 | A second migration changes nothing. |
| `ConfigValues.MigrationKeepsMeaning` | openclaw/extensions/amazon-bedrock/discovery.ts:438-441 | The effective discovery configuration, legacy block spread under plugin block, is the same before and after migration if and only if every legacy setting is overridden, ineffective or filled in whole. |
| `ConfigValues.PlainSettingsKeepMeaning` | openclaw/extensions/amazon-bedrock/discovery.ts:438-441 | So it is for settings that are plain values under ordinary keys. |
| `ConfigValues.NestedSettingsAreWidened` | openclaw/extensions/amazon-bedrock/config-compat.ts:37-39 | It is not in a whole configuration whose plugin block holds a nested setting as a smaller record: discovery then runs with the wider one. |
| `ConfigValues.MigrationKeepsTheRest` | openclaw/extensions/amazon-bedrock/config-compat.ts:62-107 | Every plain value outside the two blocks and the records leading to them stays where it is. |
| `WorkerPool.MapConcurrent` | openclaw/scripts/update-clawtributors.ts:490-506 | Whichever call is answered next, the pool comes to rest; the result is the list of the answers in order exactly if no call fails, and otherwise a rejection with the error of the call that failed first. |
| `WorkerPool.SharedState.Resume` | openclaw/scripts/update-clawtributors.ts:498-502 | What a worker does between two `await`s: store the answer and take the next index, return, or fail. |
| `WorkerPool.CallsAreClaims` | openclaw/scripts/update-clawtributors.ts:498-501 | In every run the mapper is called with 0, 1, 2, ...: no index twice or out of range. |
| `WorkerPool.InFlightBounded` | openclaw/scripts/update-clawtributors.ts:497-497 | Never are more calls out at once than max(1, min(limit, n)). |
| `WorkerPool.BusyWhileIndicesLeft` | openclaw/scripts/update-clawtributors.ts:497-503 | While indices are left and no call has failed, exactly max(1, min(limit, n)) calls are out. |
| `WorkerPool.StartsAtOnce` | openclaw/scripts/update-clawtributors.ts:497-503 | At the start the mapper has been called that often, or not at all for an empty list. |
| `WorkerPool.FailureRejects` | openclaw/scripts/update-clawtributors.ts:498-505 | The first failure rejects the whole with its error; its worker calls the mapper no more, and nothing else changes. |
| `WorkerPool.RejectionIsFinal` | openclaw/scripts/update-clawtributors.ts:504-505 | No later answer changes the reason of a rejection. |
| `WorkerPool.FulfilledIsComplete` | openclaw/scripts/update-clawtributors.ts:504-505 | When all workers have returned, every index was called and its slot holds the answer. |
| `WorkerPool.QuietIsSettled` | openclaw/scripts/update-clawtributors.ts:504-505 | With no call out the whole is fulfilled or rejected with the error of some call, and an index is left out only if every worker failed. |
| `WorkerPool.OthersGoOn` | openclaw/scripts/update-clawtributors.ts:498-502 | After a rejection the other workers store their answers and go on claiming indices. |
| `JpegReader.ReadImageDimensions` | openclaw/scripts/update-clawtributors.ts:508-516 | The two signatures decide which reader is used; the result is the size of the whole buffer as `ImageSize` has it. |
| `JpegReader.ReadJpegDimensions` | openclaw/scripts/update-clawtributors.ts:546-590 | The loop stays within the buffer, ends, and computes `Scan` of the bytes after the first two. |
| `JpegReader.JpegSizeIff` | openclaw/scripts/update-clawtributors.ts:508-516 | A file that starts as a JPEG file does has a size if and only if a frame header is led to in it, and then that of the header. |
| `JpegReader.ReadsExactlyFrames` | openclaw/scripts/update-clawtributors.ts:546-590 | A size is reported if and only if stray bytes, standalone markers and length-carrying segments lead to a frame header of that size with at least ten bytes from there to the end. |
| `JpegReader.ReadsStandardHeader` | openclaw/scripts/update-clawtributors.ts:546-590 | For SOI, any standalone markers and non-SOF segments without fill bytes, and a SOF segment of length at least 8, followed by anything, the lines and samples of that SOF are reported (sections B.1.1 and B.2.2 of ITU-T T.81). |
| `JpegReader.ReadsEveryFrame` | openclaw/scripts/update-clawtributors.ts:546-590 | The same marker by marker, for a whole file: behind any markers 0x01 and 0xd0 to 0xd9 and any segments with other markers than those and the thirteen SOF markers, a header with each of the markers 0xc0 to 0xcf but 0xc4, 0xc8 and 0xcc gives 256 times its fourth byte plus the fifth as width, and likewise the second and third as height, whatever follows. |
| `JpegReader.PassesOver` | openclaw/scripts/update-clawtributors.ts:560-588 | A segment with any marker that is neither of a frame nor standalone, among them DHT, JPG and DAC, is passed over with its length, and a standalone marker with its two bytes. |
| `JpegReader.BrokenFrame` | openclaw/scripts/update-clawtributors.ts:568-580 | A frame header with a length below seven or beyond the end of the file gives no size. |
| `JpegReader.ReadsPng` | openclaw/scripts/update-clawtributors.ts:518-539 | After the eight bytes of the PNG signature the width is the big-endian number at byte 16, the height that at byte 20. |
| `JpegReader.OtherFormats` | openclaw/scripts/update-clawtributors.ts:508-543 | A file with neither signature has no size. |
| `JpegReader.ReadsHeaderIffUnfilled` | openclaw/scripts/update-clawtributors.ts:554-572 | With any fill bytes before the markers of a header (section B.1.1.2 of ITU-T T.81), all markers 0xc0 or above and less than 48 KiB in the file behind the first fill byte: the size is reported if and only if there are no fill bytes, and otherwise none is. |
| `JpegReader.FillIsALongSegment` | openclaw/scripts/update-clawtributors.ts:563-569 | Fill bytes before such a marker are taken for a segment of at least 48 KiB. |
| `JpegReader.FillByteHidesFrame` | openclaw/scripts/update-clawtributors.ts:554-572 | One fill byte before a frame header, exactly: how many bytes the reader passes over, and where it goes on. |
| `JpegReader.FillByteExample` | openclaw/scripts/update-clawtributors.ts:554-572 | The header of a 32 by 16 image of ten bytes, read without a fill byte and not read behind one. |
| `ImportClosure.CollectRelativeImportGraph` | openclaw/scripts/load-channel-config-surface.ts:117-144 | The worklist ends on cyclic imports too, with exactly the files reachable from the entry by relative imports that resolve. |
| `ImportClosure.EdgeIff` | openclaw/scripts/load-channel-config-surface.ts:128-140 | One file leads to another exactly if it has a relative import that resolves to it. |
| `ImportClosure.ReachableIsLeast` | openclaw/scripts/load-channel-config-surface.ts:117-144 | That is the least set that holds the entry and is closed under those imports. |
| `CommonAncestor.ResolveCommonAncestor` | openclaw/scripts/load-channel-config-surface.ts:146-163 | The nested loop keeps exactly as much of the first path as the strictest other path allows, a proper prefix of it counting as one segment longer; it fails only for no paths. |
| `CommonAncestor.EscapesIff` | openclaw/scripts/load-channel-config-surface.ts:154-155 | The inner loop goes on exactly while the ancestor is longer than what a path allows. |
| `CommonAncestor.AncestorIsLongestPrefixIff` | openclaw/scripts/load-channel-config-surface.ts:146-163 | The result is the longest common prefix if and only if the first path is that prefix or a path that is not a proper prefix of the first agrees with it least. |
| `CommonAncestor.ParentIsMissed` | openclaw/scripts/load-channel-config-surface.ts:154-155 | It is not for `/a/b` and `/a`. |
| `CommonAncestor.PackageRootFirst` | openclaw/scripts/load-channel-config-surface.ts:173-175 | With the package root first and no file a proper prefix of it, it is. |
| `CommonAncestor.CopiesKeepShape` | openclaw/scripts/load-channel-config-surface.ts:181-185 | Then the copies lie under the isolated root, different files go to different places, and the relative paths between them stay the same. |
| `CommonAncestor.RelativeLeadsThere` | openclaw/scripts/load-channel-config-surface.ts:181-185 | Joining a place with the relative path from it to another gives the other. |
| `Utf16.SliceUtf16Safe` | openclaw/src/utils.ts:88-115 | The bounds, the swap and the two adjustments compute `Slice`. |
| `Utf16.BoundsAre` | openclaw/src/utils.ts:88-98 | The two bounds: negative ones count from the end, an absent end is the length, the smaller comes first, and both are kept within the string. |
| `Utf16.SliceIsLargestPiece` | openclaw/src/utils.ts:88-115 | The result is the largest piece between the bounds that parts no surrogate pair at either end; each end gives up at most one unit; only bounds that coincide inside a pair give nothing. |
| `Utf16.SliceDecodes` | openclaw/src/utils.ts:88-115 | Of a well-formed string the result is well formed and its code points are a contiguous run of the string's. |
| `Utf16.CutIff` | openclaw/src/utils.ts:80-86 | A cut leaves two well-formed strings if and only if it parts no pair. |
| `Utf16.EncodedDecodes` | openclaw/src/utils.ts:80-86 | Code points other than surrogates, encoded, give a well-formed string that decodes to them. |
| `Utf16.DecodedEncodes` | openclaw/src/utils.ts:80-86 | Every well-formed string is the encoding of what it decodes to, so the surrogate ranges are those of UTF-16. |
| `Utf16.BoundsCommute` | openclaw/src/utils.ts:94-98 | The order of two given bounds does not matter. |
| `Utf16.TruncateUtf16Safe` | openclaw/src/utils.ts:117-123 | The limit is the floor of the argument, at least zero. |
| `Utf16.TruncatedIsLongestPrefix` | openclaw/src/utils.ts:117-123 | The longest prefix within the limit that parts no pair: the whole string if it fits, else limit units, or one less exactly where the limit falls inside a pair. |
| `Utf16.TruncatedDecodes` | openclaw/src/utils.ts:117-123 | A well-formed string keeps a beginning of its code points. |
| `Utf16.TruncateTwice` | openclaw/src/utils.ts:117-123 | Truncating twice is truncating to the smaller limit. |
| `SparkleBuild.MatchIff` | openclaw/scripts/sparkle-build.ts:12-20 | The parser accepts exactly the strings of the pattern, each in one way. |
| `SparkleBuild.FloorsOfDate` | openclaw/scripts/sparkle-build.ts:22-52 | The floors, computed through decimal strings, are ten times the date key, and a hundred times the date key plus the lane; the date key is year * 10000 + month * 100 + day. |
| `SparkleBuild.LaneIs` | openclaw/scripts/sparkle-build.ts:40-49 | The lane is 90 without a suffix, 1 for a suffix that does not end with a digit, and otherwise the number it ends with, at most 89. |
| `SparkleBuild.FloorsIff` | openclaw/scripts/sparkle-build.ts:14-35 | There are floors exactly for what reads as a version with a month and a day. |
| `SparkleBuild.SurroundingSpaceIsIgnored` | openclaw/scripts/sparkle-build.ts:17-17 | White space around a short version makes no difference. |
| `SparkleBuild.BuildsFollowDates` | openclaw/scripts/sparkle-build.ts:55-57 | Canonical build numbers are ordered by date whatever the suffixes, and by lane on one date. |
| `SparkleBuild.PlainIsHighest` | openclaw/scripts/sparkle-build.ts:40-49 | On one date the unsuffixed release is above every suffixed one. |
| `SparkleBuild.FloorBands` | openclaw/scripts/sparkle-build.ts:37-51 | Legacy floors are below 1,000,000,000, and lane floors at or above it if and only if the year is at least 1000. |
| `Appcast.CollectErrors` | openclaw/scripts/release-check.ts:325-382 | The two loops report the problems of `Report` in order. |
| `Appcast.ReportedIff` | openclaw/scripts/release-check.ts:325-382 | Exactly what is reported: an empty feed, every item without a build number or with one that is not made of digits, and every dated item whose build is below the floor of its lane, which counts if the build is at least 1,000,000,000 or the date not before the adoption date, or else below the legacy floor. |
| `Appcast.CheckPassesIff` | openclaw/scripts/release-check.ts:325-382 | There is no error if and only if there are items, all builds are numeric, and some date not after 2026-02-27 separates legacy numbers from lane numbers, each at or above its floor; the order of the items does not matter. |
| `Appcast.LanesAreUpwardClosed` | openclaw/scripts/release-check.ts:360-379 | In a feed without errors an item dated on or after a lane-numbered one is at or above its lane floor. |
| `Appcast.AdoptionDateIsLeast` | openclaw/scripts/release-check.ts:360-367 | The effective adoption date is the least of the fixed date and the dates of lane-numbered items. |

## Left out

- File access, processes, HTTP, `git`, logging and the real durations of timers: what they yield is an input or an event.
- The extraction of imports from TypeScript text and the filters on paths: the import graph is given. It need not be closed under edges, since the proofs hold for any graph.
- `localeCompare`: an abstract comparison, a total preorder where sortedness is claimed; which strings it takes as equal is not modelled.
- SHA-256, JSON text and `oxfmt`: the hash is a function, taken to be free of collisions and of the bar that separates the parts of a cache key where two runs are compared; a file is its content together with whether its text is what would be written for it.
- The order of integer-like property names in JavaScript objects, properties inherited from `Object.prototype`, and files whose JSON does not parse.
- That a reused translation fits the present source text: the source reuses it even when the text has changed.
- String lengths in `estimateBatchChars` count the characters of the model, not UTF-16 units.
- The messages of the migration beyond which of the cases applies: the comparison that chooses between "Merged" and "Removed" looks at objects that share nested records.
- Discovery blocks that are strings or arrays, which a spread would turn into indexed properties.
- BedrockDiscovery.Discoverer.DiscoverBedrockModels: the AWS calls, their pagination and the mapping of models are one action that yields a value or fails; the reset used only by unit tests is not modelled.
- RpcClient.Drive: the text of the errors is reduced to constants where it only quotes the stderr of the process.
- WorkerPool.MapConcurrent: the limit is an integer; a fractional or undefined limit is not modelled. The mapper's answers are given by index, which loses nothing since each index is asked for once.
- CommonAncestor.ResolveCommonAncestor: paths are POSIX paths by segments; the branch for a drive root that has no common ancestor cannot be reached there.
- ImportClosure.CollectRelativeImportGraph: the regular expression and the candidates tried for a specifier are inputs; a file that is removed during the walk is not modelled.
- Utf16.SliceUtf16Safe: bounds are integers; fractional or undefined numbers other than a missing end are not modelled.
- Appcast.CollectErrors: the items come with their extracted tags; the XML patterns are not modelled. Build numbers are exact; a JavaScript number above 2^53 is rounded, which changes no comparison with a floor.
- The splicing of blocks into README files, scoring with square roots, the Python scripts, the demo and the small argument parsers: one-branch code without properties of its own.
