# LangGraph: models and proofs

Dafny models of the parts of LangGraph whose correctness rests on state that changes step by step, with
proofs over all inputs and all runs. `dafny verify dfyconfig.toml` checks everything.

## What is modelled

- **Delta channels.** `Messages` models the tombstoning message reducer, `AddMessages` the older one;
  `DeltaChannel` models stepwise `update` and one-shot `replay_writes`; `CheckpointWalk` the walk up the
  parent chain and the restore from it; `MessageChannel` puts them together for message lists.
  `BinaryOperator` models the fold channel and its agreement with a folding delta channel.
- **Server-sent events.** `SseLines` models the incremental line decoder, `SseEvents` the event decoder.
- **The uv workspace planner.** `UvInstallOrder` (install order), `UvPaths` (host to container paths),
  `UvCopyItems` (the copy walk) and `IgnoreHints` (which ignored directories are still walked).
- **Checkpoint migration and interrupts.** `Migration` and `Interrupts`.
- **Waiting channels and the queue.** `Barriers` and `SyncQueue`.

Code that updates state in place is a class or a method with loops, proved against a specification
function; the lemmas are about those functions.

## Where the code does less than it seems

Where a law does not hold everywhere, an input that breaks it is given, and the exact condition is proved in
both directions.

- The message reducer may be split into batches from a state **iff** no non-null id occurs twice in it
  (`Messages.BatchingIffDistinct`). With a repeated id, removing it twice deletes one copy in one call and
  two copies in two.
- A call of `add_messages` that does not raise may be followed by any other as if both were one **iff** it
  held no remove-all and no id's last message in it was a removal (`AddMessages.AddMessagesBatchesIff`).
- `add_messages` and the batch reducer return one list from every state on which the right list does not
  raise **iff** every id that the right list removes is removed by its last message
  (`AddMessages.AddedEqualsReduceIff`): an id written again keeps its slot in the one and goes to the end in
  the other (`AddMessages.RewriteKeepsSlotInOneOnly`).
- `replay_writes` over the stored writes agrees with the live run, for a reducer that loses nothing, **iff**
  in the last step that holds an overwrite nothing is stored after it, and every step since ran in the order
  in which it is stored (`DeltaChannel.ReplayAgreesIffClean`, `CheckpointWalk.RestoredIsLiveIffClean`).
  For message lists the same holds while new messages are written (`MessageChannel.MessageThreadRestoredIff`).
  `update` drops writes beside an overwrite and `replay_writes` keeps the later ones
  (`MessageChannel.MessageAfterOverwriteReappears`). The loop takes a snapshot after every step with an
  overwrite, so the first condition always holds on the chains it writes (`CheckpointWalk.LoopTrailIsClean`);
  `bulk_update_state` takes none. The scheduler applies a step's tasks in path order and
  the store returns them by task id, a hash, so that two messages appended in parallel can change places, or
  not, depending on where a snapshot was taken (`MessageChannel.ParallelMessagesSwap`). For every reducer, a
  run that ends in an overwrite is replayed correctly **iff** reducing the writes stored after it changes
  nothing (`DeltaChannel.AgreesIffDroppedHarmless`, and for message lists
  `MessageChannel.ThreadAgreesIffDroppedHarmless`).
- Lines printed with mixed endings are read back **iff** no line ended by `\r` is followed by an empty line
  ended by `\n` (`SseLines.RenderRoundTripIff`); such a pair reads as one `\r\n`. Printed events that a
  client can see come back **iff** the same holds (`SseEvents.EventRoundTripIff`), since the blank line that
  should end an event is lost (`SseEvents.CollisionLosesEvent`).
- A byte stream gives the events that sections 9.2.5 and 9.2.6 of the WHATWG HTML Living Standard have it give
  **iff** each blank line ends a block with exactly one data line, not an empty one, or comes when nothing at
  all has been set (`SseEvents.StandardBytesIff`, and line by line `SseEvents.StandardIffRegular`). The code
  joins `data:` lines with nothing in between (`SseEvents.LineFeedLost`), and once an id is set a blank line emits an event even if it has no data
  (`SseEvents.IdEmitsEvent`).
- After the migration a node is due **iff** one of its old trigger channels held a value and one, perhaps
  another, was newer than all versions the node had recorded, if it had a record
  (`Migration.DueAfter`). So a value left on a channel already seen, beside a newer channel without a value,
  makes a node due that was not (`Migration.WorkInvented`); without such a value no work is invented
  (`Migration.NoWorkInvented`), and under rising versions none is lost (`Migration.NoWorkLost`).
- One step of a fold channel and of a folding delta channel agree **iff** the step does not overwrite with
  `None` (or `typ()` is `None`): `BinaryOperator.StepsAgree`.
- A wanted file is copied **iff** every ignored parent that the walk gets to and that holds no member may be
  walked (`UvCopyItems.WantedFileCoveredIff`), that is **iff** some negation line calls for each
  (`IgnoreHints.FileCoveredIffCalledFor`). A negation without a slash re-includes files at any depth, but
  calls for nothing below the root, so that such a file can be left out
  (`IgnoreHints.SlashlessNegationMissed`).
- A step of the queue's semaphore loses a wake-up **iff** a notified `wait` returns while others sleep and the
  count needs every notified thread (`SyncQueue.ServedUnlessWaitTakes`); then a `get` can sleep on beside an
  item (`SyncQueue.WaitStrandsGet`).

## Model

| member | source | states |
|---|---|---|
| Messages.DeltaReducer | libs/langgraph/langgraph/graph/message.py:247-309 | the loop over an id index and tombstones returns what applying the messages one by one to a clean list would, from every state, repeated ids included |
| Messages.LoopBody | libs/langgraph/langgraph/graph/message.py:296-308 | each branch keeps the index pointing at live slots of its ids and does to the live entries what the message means |
| Messages.LastWriteWins | libs/langgraph/langgraph/graph/message.py:292-309 | from distinct ids the result holds, of each id, exactly the last message written unless that was a removal, the old message if none was, and every message without an id |
| Messages.ReducedPlaces | libs/langgraph/langgraph/graph/message.py:292-309 | the whole result from distinct ids: one place for each message without an id and each id live at the end, in the order in which they came in for good, holding the last write |
| Messages.ReduceDistinct | libs/langgraph/langgraph/graph/message.py:292-309 | the reducer keeps non-null ids distinct |
| Messages.BatchingInvariant | libs/langgraph/langgraph/graph/message.py:255-257 | reducing twice, tombstones compacted and index rebuilt in between, equals reducing the concatenation |
| Messages.BatchingIffDistinct | libs/langgraph/langgraph/graph/message.py:255-257 | that law holds from a state for all batches iff the state's non-null ids are distinct |
| Messages.RepeatedIdBreaksBatching | libs/langgraph/langgraph/graph/message.py:292-309 | a state with a repeated id breaks the law |
| AddMessages.AddMessages | libs/langgraph/langgraph/graph/message.py:187-236 | the removal-set merge, the remove-all shortcut and the error on an unknown removal |
| AddMessages.ClearedResult | libs/langgraph/langgraph/graph/message.py:209-213 | the last remove-all drops the left list and all before it: the result is what follows |
| AddMessages.ClearedIff | libs/langgraph/langgraph/graph/message.py:209-213 | the lists are merged iff no removal names `__remove_all__` |
| AddMessages.RaisesIffUnknownRemoval | libs/langgraph/langgraph/graph/message.py:226-230 | the merge raises iff some removal names an id that neither the left list nor an earlier message holds |
| AddMessages.AddedDistinct | libs/langgraph/langgraph/graph/message.py:215-234 | a merge leaves ids distinct |
| AddMessages.AddedEqualsReduce | libs/langgraph/langgraph/graph/message.py:215-234 | if every removed id is removed by its last message, the merge returns the list the batch reducer returns |
| AddMessages.AddedEqualsReduceIff | libs/langgraph/langgraph/graph/message.py:215-234 | that holds from every state on which the list does not raise iff no id whose last message is a write was removed earlier |
| AddMessages.RewriteKeepsSlotInOneOnly | libs/langgraph/langgraph/graph/message.py:226-234 | an input on which the two lists differ |
| AddMessages.AddedPermutesReduce | libs/langgraph/langgraph/graph/message.py:215-234 | without that condition both still keep the same messages, each id once, so they differ in order only |
| AddMessages.AddMessagesIsNotBatchingInvariant | libs/langgraph/langgraph/graph/message.py:219-234 | remove then re-add keeps the slot in one call and goes to the end over two |
| AddMessages.AddMessagesBatchesIff | libs/langgraph/langgraph/graph/message.py:212-234 | a call may be merged with whatever call follows iff it held no remove-all and no id ended removed |
| DeltaChannel.Channel.Update | libs/langgraph/langgraph/channels/delta.py:159-183 | one super-step: nothing, an error that leaves the value alone, an overwrite, or one reducer call |
| DeltaChannel.Channel.ReplayWrites | libs/langgraph/langgraph/channels/delta.py:139-157 | the value after a replay: the last overwrite or the base, reduced once with the writes after it |
| DeltaChannel.Channel.FromCheckpoint | libs/langgraph/langgraph/channels/delta.py:118-137 | a missing blob starts at `typ()`, a snapshot or a plain value is restored |
| DeltaChannel.ReplayEqualsRun | libs/langgraph/langgraph/channels/delta.py:41-48 | for a batching-invariant reducer one replay of all stored writes of a run gives the run's value, if the steps since the last reset ran in stored order or order within a batch does not matter, and nothing is stored after the last overwrite |
| DeltaChannel.ReplayAgreesIffClean | libs/langgraph/langgraph/channels/delta.py:146-183 | for a reducer that loses nothing of what was written since the last reset, replay and run agree iff nothing is stored after the overwrite in the last resetting step and every step since ran in stored order |
| DeltaChannel.AgreesIffDroppedHarmless | libs/langgraph/langgraph/channels/delta.py:146-183 | for every reducer, a run that ends in an overwrite is replayed correctly iff reducing the writes stored after it leaves the new value as it is |
| DeltaChannel.ExitCheckpointIsOneStep | libs/langgraph/langgraph/pregel/_loop.py:1284-1312 | several steps without overwrites, stored under one checkpoint, amount to one step of a lawful reducer |
| DeltaChannel.RunInvariant | libs/langgraph/langgraph/channels/delta.py:159-183 | a run stays within the states on which the reducer is lawful |
| CheckpointWalk.WalkChannel | examples/delta-channel-dump/dump.py:280-330 | the loop terminates on acyclic chains and returns the nearest seed and the trail's writes, though collected newest first and reversed once |
| CheckpointWalk.TrailIsAncestry | examples/delta-channel-dump/dump.py:245-330 | the trail is the ancestors' writes, oldest checkpoint first, ascending (task, index) within each, from the nearest seeded one; without a seed the chain was exhausted |
| CheckpointWalk.TrailIsRun | examples/delta-channel-dump/dump.py:291-322 | the trail holds step by step the writes of the live run from the seed, each step in whatever order it ran |
| CheckpointWalk.Hydrate | libs/langgraph/langgraph/pregel/_checkpoint.py:173-195 | a delta channel is restored from its own blob, or by walk, seed and one replay |
| CheckpointWalk.RestoredIsLive | libs/langgraph/langgraph/pregel/_checkpoint.py:148-196 | for every intact chain, snapshots at any subset of checkpoints, the restored value is the live one, if the steps since the seed or the last reset ran in stored order or order does not matter, and nothing is stored after the last overwrite |
| CheckpointWalk.RestoredIsLiveIffClean | libs/langgraph/langgraph/channels/delta.py:139-183 | for a reducer that loses nothing of what was written since the last reset both conditions, on overwrites and on order, are exact |
| CheckpointWalk.LoopTrailIsClean | libs/langgraph/langgraph/pregel/_loop.py:686-690 | where every step with an overwrite is followed by a snapshot, the condition on overwrites holds for every target |
| CheckpointWalk.LoopRestoredIsLive | libs/langgraph/langgraph/pregel/_loop.py:686-690 | on such chains the restored value is the live one if the steps ran in stored order or order does not matter |
| CheckpointWalk.SnapshotPlacementIrrelevant | libs/langgraph/langgraph/pregel/_checkpoint.py:85-91 | under the same conditions two stores of one run that differ in where snapshots were taken restore the same value |
| MessageChannel.OverwriteSurvivesJson | libs/langgraph/langgraph/channels/binop.py:31-51 | a trip through JSON, dicts included at any depth, neither loses nor makes an overwrite, and carries the wrapped value along |
| MessageChannel.MessagesLawful | libs/langgraph/langgraph/graph/message.py:255-257 | the message reducer meets the channel's contract on lists with distinct ids |
| MessageChannel.WritesReduced | libs/langgraph/langgraph/graph/message.py:278-309 | lists and single messages, in any mixture and laid one after the other, give the thread that the places of `Messages.ReducedPlaces` hold |
| MessageChannel.StepOfWrites | libs/langgraph/langgraph/channels/delta.py:159-183 | the same for one live step, from a thread or a channel never written |
| MessageChannel.StepOfOneList | libs/langgraph/langgraph/graph/message.py:278-282 | a step of one returned list; new messages are appended as they are |
| MessageChannel.OverwriteFormsReset | libs/langgraph/langgraph/channels/binop.py:31-51 | each of the three forms of an overwrite resets the list, and one that wraps None empties it |
| MessageChannel.MessageThreadRestored | libs/langgraph/langgraph/channels/delta.py:118-183 | a message thread restored from any intact chain whose steps since the last reset ran in stored order is the live message list, its ids distinct |
| MessageChannel.MessagesInjective | libs/langgraph/langgraph/graph/message.py:292-309 | the message reducer loses nothing of new messages: those without an id, or written under new and different ids |
| MessageChannel.MessageThreadRestoredIff | libs/langgraph/langgraph/channels/delta.py:139-183 | a thread to which new messages were written since the last reset is restored as it was iff nothing is stored after the last overwrite and the steps since ran in stored order |
| MessageChannel.LoopThreadRestoredIff | libs/langgraph/langgraph/pregel/_loop.py:686-690 | on the chains of the loop, iff the steps ran in stored order |
| MessageChannel.ThreadAgreesIffDroppedHarmless | libs/langgraph/langgraph/channels/delta.py:146-183 | a thread that ends in an overwrite is replayed correctly iff reducing the writes stored after it leaves the new list as it is |
| MessageChannel.ParallelMessagesSwap | libs/langgraph/langgraph/pregel/_algo.py:253-256 | two messages appended in parallel: live in path order, restored in task-id order, unless a snapshot lies in between |
| MessageChannel.MessageAfterOverwriteReappears | libs/langgraph/langgraph/channels/delta.py:151-180 | a message without an id after an overwrite is dropped live and appended by the replay, whatever the list |
| MessageChannel.AppendingIsInjective | libs/langgraph/langgraph/channels/delta.py:41-48 | list concatenation is lawful and loses nothing, so the exact condition applies to it |
| BinaryOperator.Aggregate.Update | libs/langgraph/langgraph/channels/binop.py:123-144 | the loop as a fold over progress, with MISSING taking the first value as it comes and the first overwrite staying on an error |
| BinaryOperator.OrderIrrelevant | libs/langgraph/langgraph/channels/base.py:90-93 | with an exchangeable operator every reordering of a step's values gives the same outcome |
| BinaryOperator.OverwritesDecide | libs/langgraph/langgraph/channels/binop.py:129-143 | two overwrites always raise, one fixes the result wherever it stands, none leaves the left fold |
| BinaryOperator.FoldingLawful | libs/langgraph/langgraph/channels/delta.py:41-45 | a left fold is a batching-invariant reducer for every operator |
| BinaryOperator.FoldingOrderFree | libs/langgraph/langgraph/channels/delta.py:41-45 | folding does not depend on the order of a batch iff the operator is exchangeable; such a channel is restored whatever order a step ran in |
| BinaryOperator.StepsAgree | libs/langgraph/langgraph/channels/binop.py:123-144 | a step of either channel raises iff the other does, and gives the same value iff it does not overwrite with None, or `typ()` is None |
| BinaryOperator.RunsAgree | libs/langgraph/langgraph/channels/binop.py:116-144 | both channels show the same value after every run that does not overwrite with None (with `typ()` None, after every run), from `typ()` or from the other's plain checkpoint |
| SseLines.BytesLineDecoder.Decode | libs/sdk-py/langgraph_sdk/sse.py:29-66 | the returned lines are the terminated lines of pending plus new bytes, less a final carriage return that is held back |
| SseLines.BytesLineDecoder.Flush | libs/sdk-py/langgraph_sdk/sse.py:68-75 | the lines of what was pending, and nothing pending afterwards |
| SseLines.ChunkSettles | libs/sdk-py/langgraph_sdk/sse.py:29-66 | after each call, whatever bytes follow, the lines of everything fed are those returned and those of pending plus the rest |
| SseLines.IterLines | libs/sdk-py/langgraph_sdk/sse.py:151-157 | for every cutting into chunks the lines are those of the whole byte string |
| SseLines.CutSettles | libs/sdk-py/langgraph_sdk/sse.py:33-39 | text may be cut anywhere but inside a `\r\n` |
| SseLines.LinesAfterPrefix | libs/sdk-py/langgraph_sdk/sse.py:46-66 | splitting only the new text and gluing the buffer to the first line equals splitting buffer plus text |
| SseLines.RenderRoundTripIff | libs/sdk-py/langgraph_sdk/sse.py:17-75 | printed lines are read back iff no `\r`-ended line precedes an empty `\n`-ended one |
| SseEvents.DecodeStream | libs/sdk-py/langgraph_sdk/sse.py:91-157 | both decoders in sequence give the events of the whole stream's lines |
| SseEvents.IgnorableInvisible | libs/sdk-py/langgraph_sdk/sse.py:116-137 | comments and unknown fields anywhere in a stream change neither its events nor the state after it |
| SseEvents.CompletesNothingIff | libs/sdk-py/langgraph_sdk/sse.py:94-103 | a line completes no event iff it is not blank, or the last event field and all data fields of its block are empty, no retry field of it holds a number, and the last id so far is empty |
| SseEvents.BlankClears | libs/sdk-py/langgraph_sdk/sse.py:111-116 | a blank line clears the type, the data and the retry, and keeps the id |
| SseEvents.RetryEmitsEvent | libs/sdk-py/langgraph_sdk/sse.py:133-135 | a retry field alone makes a blank line emit an event |
| SseEvents.FieldParses | libs/sdk-py/langgraph_sdk/sse.py:119-122 | a printed field is parsed back into its name and value, leading spaces of the value included |
| SseEvents.FieldForms | libs/sdk-py/langgraph_sdk/sse.py:119-122 | a field without a space after the colon, and one without a colon |
| SseEvents.PartsOfPrinted | libs/sdk-py/langgraph_sdk/sse.py:94-139 | printed events come back in order, data chunks joined, each with the last id printed so far, ids with a NUL ignored |
| SseEvents.EventRoundTrip | libs/sdk-py/langgraph_sdk/sse.py:29-139 | the same through bytes, any mix of endings without a collision and any chunking |
| SseEvents.EventRoundTripIff | libs/sdk-py/langgraph_sdk/sse.py:29-139 | if a client can see each event, they come back iff the endings hold no collision |
| SseEvents.EventsWithContentComeBackIff | libs/sdk-py/langgraph_sdk/sse.py:29-139 | in particular events that all have a type or some data come back iff the endings hold no collision |
| SseEvents.CollisionLosesEvent | libs/sdk-py/langgraph_sdk/sse.py:29-75 | one collision swallows an event |
| SseEvents.StandardIffRegular | libs/sdk-py/langgraph_sdk/sse.py:91-139 | a line completes what the standard has it complete iff, being blank, it ends a block of one non-empty data line or nothing has been set |
| SseEvents.RegularStream | libs/sdk-py/langgraph_sdk/sse.py:91-139 | a stream gives the events of the standard up to its first irregular block |
| SseEvents.StandardStreamIff | libs/sdk-py/langgraph_sdk/sse.py:91-139 | lines without line feeds give the events of the standard iff every block is regular |
| SseEvents.StandardBytesIff | libs/sdk-py/langgraph_sdk/sse.py:91-157 | the same for every byte stream, without a condition on its lines |
| SseEvents.LineFeedLost | libs/sdk-py/langgraph_sdk/sse.py:127-128 | two data lines lose the line feed between them, and the stream differs from the standard |
| SseEvents.IdEmitsEvent | libs/sdk-py/langgraph_sdk/sse.py:94-107 | an id alone makes a blank line emit an event, and the stream differs from the standard |
| UvInstallOrder.Planner.Visit | libs/cli/langgraph_cli/uv_lock.py:676-694 | the depth-first visit adds only packages reachable from its argument, which comes last, leaves the open visits as they were, and terminates on cycles |
| UvInstallOrder.InstallOrder | libs/cli/langgraph_cli/uv_lock.py:672-696 | exactly the reachable packages, each once, target last; a dependency follows its dependent only if it reaches it |
| UvInstallOrder.AcyclicOrderIsTopological | libs/cli/langgraph_cli/uv_lock.py:672-696 | without cycles every dependency precedes its dependents |
| UvPaths.Resolve | libs/cli/langgraph_cli/uv_lock.py:520-562 | the longest-prefix loop with its guard maps a path iff the innermost member that holds it is installed, and then by its position below the project root |
| UvPaths.GuardIsInnermost | libs/cli/langgraph_cli/uv_lock.py:541-562 | a root met in depth order passes the guard iff it is the innermost member |
| UvPaths.ResolvedInjective | libs/cli/langgraph_cli/uv_lock.py:520-538 | no two host paths share a container path |
| UvPaths.PackageRootResolves | libs/cli/langgraph_cli/uv_lock.py:438-445 | each installed package's root maps to its recorded container root |
| UvCopyItems.IterEntries | libs/cli/langgraph_cli/uv_lock.py:476-515 | the recursive walk emits the specified entries in order |
| UvCopyItems.EntriesExact | libs/cli/langgraph_cli/uv_lock.py:480-515 | a path is emitted iff it exists, is copied, and every parent is entered |
| UvCopyItems.EntriesByRule | libs/cli/langgraph_cli/uv_lock.py:480-515 | the same rule by rule: members, excluded names, the ignore verdict and the walk hints, for the path and for each parent |
| UvCopyItems.EntryIsAllowed | libs/cli/langgraph_cli/uv_lock.py:486-510 | no entry is ignored, lies in an excluded directory or is one |
| UvCopyItems.EntriesListedOnce | libs/cli/langgraph_cli/uv_lock.py:480-515 | no path is emitted twice |
| UvCopyItems.EntryApartFromMembers | libs/cli/langgraph_cli/uv_lock.py:481-501 | no entry is, contains or lies inside another workspace member |
| UvCopyItems.EntriesDoNotNest | libs/cli/langgraph_cli/uv_lock.py:495-514 | no entry lies inside another |
| UvCopyItems.WantedFileCoveredOnce | libs/cli/langgraph_cli/uv_lock.py:486-514 | every file outside members, not ignored or excluded, whose ignored parents the walk may enter, lies under exactly one entry |
| UvCopyItems.WantedFileCoveredIff | libs/cli/langgraph_cli/uv_lock.py:486-514 | such a file lies under an entry iff every ignored parent that the walk gets to and that holds no member may be walked |
| UvCopyItems.CopyItems | libs/cli/langgraph_cli/uv_lock.py:448-517 | another member is copied whole or refused; the root package's list is `RootItems`: the entries, each to its place below the workspace root |
| UvCopyItems.RootItemsApart | libs/cli/langgraph_cli/uv_lock.py:480-515 | in that list no source is another one or lies inside it, and none touches another member |
| UvCopyItems.RootItemsAllowed | libs/cli/langgraph_cli/uv_lock.py:486-510 | each source in that list exists, is not ignored and not excluded |
| UvCopyItems.WantedFileCopiedIff | libs/cli/langgraph_cli/uv_lock.py:480-515 | a wanted file lies under a source of that list iff its parents may be entered |
| UvCopyItems.EntryResolvesToDestination | libs/cli/langgraph_cli/uv_lock.py:512-537 | the path lookup sends every copied source, and every path inside one, to the place it is copied to |
| IgnoreHints.BuildHints | libs/cli/langgraph_cli/_ignore.py:65-124 | the hints hold exactly what some negation line calls for |
| IgnoreHints.WildcardLineWalks | libs/cli/langgraph_cli/_ignore.py:99-114 | a negation with `*`, `?` or `[` makes walkable whatever lies above or below the parts before it, and everything if there are none |
| IgnoreHints.OnlyWildcardLine | libs/cli/langgraph_cli/_ignore.py:99-114 | as the only line it makes nothing else walkable |
| IgnoreHints.PlainLineWalks | libs/cli/langgraph_cli/_ignore.py:116-118 | a negation without them makes exactly the proper parents of its path exact directories |
| IgnoreHints.WalkedForAReason | libs/cli/langgraph_cli/_ignore.py:29-35 | a directory is walkable iff some negation is broad, names something below it, or has its literal prefix above or below it |
| IgnoreHints.ReincludedFileCovered | libs/cli/langgraph_cli/uv_lock.py:502-514 | the copy walk reaches every wanted file a negation re-includes, however many of its parents are ignored |
| IgnoreHints.FileCoveredIffCalledFor | libs/cli/langgraph_cli/uv_lock.py:502-514 | a wanted file is copied iff some negation calls for each ignored parent that the walk gets to and that holds no member |
| IgnoreHints.SlashlessNegationMissed | libs/cli/langgraph_cli/_ignore.py:116-118 | an input on which a negation without a slash re-includes a file that is left out |
| IgnoreHints.NegationRoundTrip | libs/cli/langgraph_cli/_ignore.py:83-95 | a path written as a negation, with or without a leading slash, is read back as that path |
| IgnoreHints.NegationParts | libs/cli/langgraph_cli/_ignore.py:77-95 | blanks around a negation, and slashes and dots in it, make no difference |
| IgnoreHints.OtherLines | libs/cli/langgraph_cli/_ignore.py:77-83 | any other line negates nothing |
| Migration.Checkpoint.MigrateStartKeys | libs/langgraph/langgraph/graph/state.py:1628-1654 | the first phase loses and invents nothing for any node, in whatever order the keys come |
| Migration.Checkpoint.MigrateBranchKeys | libs/langgraph/langgraph/graph/state.py:1656-1682 | the same for the second phase, which brings no old key back |
| Migration.Checkpoint.SpreadNode | libs/langgraph/langgraph/graph/state.py:1693-1715 | handing one node channel on to all nodes it triggers loses and invents nothing |
| Migration.Checkpoint.MigrateNodeKeys | libs/langgraph/langgraph/graph/state.py:1684-1715 | the same for the third phase, after which no old key is left |
| Migration.Checkpoint.Migrate | libs/langgraph/langgraph/graph/state.py:1612-1715 | the whole migration keeps what every node's channels had reached, had been seen to and held, and leaves all other channels alone; a current or settled checkpoint is untouched |
| Migration.MigrateTwice | libs/langgraph/langgraph/graph/state.py:1612-1715 | migrating twice equals migrating once |
| Migration.MovedKeeps | libs/langgraph/langgraph/graph/state.py:1635-1654 | merging one channel keeps, for every node, which versions were reached and seen and whether there is a value |
| Migration.PassedStep | libs/langgraph/langgraph/graph/state.py:1696-1712 | the inner loop over targets keeps the half-way invariant |
| Migration.MigratedIsMaximum | libs/langgraph/langgraph/graph/state.py:1635-1654 | the new channel's version and the node's seen entry are the maxima over the old trigger channels, each there iff one of those was, and its value is the one it had or else one of theirs |
| Migration.OldTriggerSpelled | libs/langgraph/langgraph/graph/state.py:1628-1690 | the channels taken for triggers of a node are exactly those named `start:node`, with or without more, those named `branch:source:condition:node`, and the nodes with an edge to it |
| Migration.HandedOn | libs/langgraph/langgraph/graph/state.py:1628-1712 | what such a channel had reached, had been seen to and held is handed on to `branch:to:node` |
| Migration.HandedOnAlongEdge | libs/langgraph/langgraph/graph/state.py:1684-1712 | along every edge of the graph, and the node channel itself is gone |
| Migration.ComesFrom | libs/langgraph/langgraph/graph/state.py:1628-1712 | version, seen entry and value of a new key are those it had or those of channels that lead to its node |
| Migration.PendingAfter | libs/langgraph/langgraph/graph/state.py:1628-1715 | by versions alone a node has a newer channel afterwards iff some old trigger channel was newer than all it had recorded |
| Migration.PendingPreserved | libs/langgraph/langgraph/graph/state.py:1628-1715 | under rising versions a node has a newer channel afterwards iff it had one before |
| Migration.DueAfter | libs/langgraph/langgraph/pregel/_algo.py:1259-1278 | when the scheduler finds a node due on its new channel: some old trigger channel held a value, and some was newer than all the node had recorded, if it had a record |
| Migration.NoWorkInvented | libs/langgraph/langgraph/pregel/_algo.py:1259-1278 | where no value was left on a channel already seen, no node becomes due |
| Migration.NoWorkLost | libs/langgraph/langgraph/pregel/_algo.py:1259-1278 | under rising versions a due node stays due, one without a record included |
| Migration.WorkInvented | libs/langgraph/langgraph/graph/state.py:1635-1654 | an input for which a node that was not due becomes due |
| Interrupts.Scratchpad.Interrupt | libs/langgraph/langgraph/types.py:910-934 | one call returns the answer at its index or interrupts, records a fresh answer at that very index, and never breaks the length assertion |
| Interrupts.Execute | libs/langgraph/langgraph/types.py:822-828 | a run from the top ends as the direct run on all answers, takes them in order, and leaves them written back when it waits |
| Interrupts.Session | libs/langgraph/langgraph/types.py:822-828 | resuming with one answer at a time ends as the direct run and asks the same questions in the same order |
| Interrupts.DirectExtends | libs/langgraph/langgraph/types.py:826-828 | answers beyond those used change nothing, and a waiting run goes on from where it waited |
| Barriers.NamedBarrierValue.Update | libs/langgraph/langgraph/channels/named_barrier_value.py:56-67 | the names before the first unknown one are recorded, the error names it, and the flag says whether anything was new |
| Barriers.NamedBarrierValueAfterFinish.Update | libs/langgraph/langgraph/channels/named_barrier_value.py:134-145 | as the plain form, the finished flag untouched |
| Barriers.BarrierRecords | libs/langgraph/langgraph/channels/named_barrier_value.py:134-167 | over every run the fields record what was written and finished since the last successful consume |
| Barriers.AvailableIff | libs/langgraph/langgraph/channels/named_barrier_value.py:74-81 | available iff each name was written since the last successful consume and, in the after-finish form, a finish came after those writes |
| Barriers.ConsumesBounded | libs/langgraph/langgraph/channels/named_barrier_value.py:155-160 | successful consumes never outnumber the writes of any name |
| Barriers.CutUnnoticed | libs/langgraph/langgraph/channels/named_barrier_value.py:124-132 | cutting a run by checkpoint and restore leaves the rest of it unchanged |
| Barriers.LastValueMeaning | libs/langgraph/langgraph/channels/last_value.py:122-151 | after the last write the value is held until a finish is followed by a consume, and shown once a finish came |
| Barriers.MissingIsUnfinished | libs/langgraph/langgraph/channels/last_value.py:110-120 | the checkpoint of a missing value forgets nothing, since such a channel is never finished |
| Barriers.LastCutUnnoticed | libs/langgraph/langgraph/channels/last_value.py:110-120 | cutting a run by checkpoint and restore leaves the rest of it unchanged |
| SyncQueue.AlwaysBalanced | libs/langgraph/langgraph/_internal/_queue.py:79-106 | in every interleaving the deque's length is the count plus the puts and gets under way |
| SyncQueue.AlwaysProgress | libs/langgraph/langgraph/_internal/_queue.py:79-106 | from every reachable state a thread outside can put, and can take the first item if the count is positive or else give up or sleep |
| SyncQueue.WaitProgress | libs/langgraph/langgraph/_internal/_queue.py:47-67 | likewise a wait returns, gives up or sleeps |
| SyncQueue.PopNeverFails | libs/langgraph/langgraph/_internal/_queue.py:101-106 | a thread that acquired the semaphore never finds the deque empty |
| SyncQueue.RefusedOnlyWhenClaimed | libs/langgraph/langgraph/_internal/_queue.py:101-102 | a get gives up only when every queued item belongs to a put or get under way |
| SyncQueue.FirstInFirstOut | libs/langgraph/langgraph/_internal/_queue.py:79-106 | items leave in append order, each exactly once |
| SyncQueue.KthGetIsKthPut | libs/langgraph/langgraph/_internal/_queue.py:79-106 | the k-th popleft returns the item of the k-th append, whatever the threads |
| SyncQueue.CountIsReleasesLessAcquires | libs/langgraph/langgraph/_internal/_queue.py:47-67 | however threads wait, sleep, wake and time out, the count is what was released and not acquired |
| SyncQueue.ServedUnlessWaitTakes | libs/langgraph/langgraph/_internal/_queue.py:50-67 | while threads sleep each count is matched by a notified thread, and a step breaks that iff a notified wait returns and takes the last wake-up |
| SyncQueue.NoWakeupLost | libs/langgraph/langgraph/_internal/_queue.py:88-106 | over every interleaving in which no wait has to sleep, no wake-up is lost and no thread is stranded beside a positive count |
| SyncQueue.WaitStrandsGet | libs/langgraph/langgraph/_internal/_queue.py:50-67 | an interleaving in which a wait takes the wake-up and a blocked get sleeps on beside an item |
| SyncQueue.QuietCountIsLength | libs/langgraph/langgraph/_internal/_queue.py:108-122 | with nothing under way the count is the length |

## Left out

- CheckpointWalk.WalkChannel: the database is a map whose rows already hold each checkpoint's writes newest first; SQL, blob decoding and blobs missing for a recorded snapshot are not modelled, and task ids are compared as integers.
- DeltaChannel.Channel.ReplayWrites: requires a value, which every caller has from the restore; a reducer call on MISSING is not modelled.
- DeltaChannel.Channel.Update: values are compared and copied as values, so aliasing between an overwrite's value and the channel is not captured; reducers do not raise.
- DeltaChannel.Channel.FromCheckpoint: the positive-frequency check of the constructor and the choice of which step takes a snapshot are left out; any subset of checkpoints may hold one.
- Messages.DeltaReducer: messages are typed already; conversion of dicts, strings and tuples is not modelled.
- AddMessages.AddMessages: ids are assigned already; chunk conversion and the OpenAI format are not modelled.
- SseEvents.DecodeStream: text stays bytes, so UTF-8 errors are not modelled; `data` is the raw text before `orjson.loads`, and `int(...)` on a retry field is a function parameter.
- UvInstallOrder.Planner.Visit: validation of a package, which can abort the plan, is taken to have succeeded.
- UvPaths.Resolve: paths are sequences of parts, already resolved; symbolic links are not modelled.
- UvCopyItems.IterEntries: the ignore file's verdict is an arbitrary predicate; gitwildmatch and symbolic links are not modelled, and directory order is taken as given.
- IgnoreHints.BuildHints: stripping removes ASCII white space only, and the file is given as its lines.
- Migration.Checkpoint.Migrate: nothing is claimed about the interrupt entry of the seen versions, which the third phase renames for its first target only; the pending-sends step of the base class is left out, and versions are natural numbers with null version 0.
- Interrupts.Scratchpad.Interrupt: resume values of a parent scratchpad and of a resume map are not modelled.
- Interrupts.Execute: the node is a deterministic function of its answers and does not catch the interrupt.
- Barriers.CutUnnoticed: checkpoints are values, as after serialisation; the source hands out the set itself.
- SyncQueue.AlwaysBalanced: each step of the deque and of the semaphore under its lock is atomic; time is not modelled, so a sleeping thread may time out at any step, and negative timeouts are left out.
- CheckpointWalk.Hydrate: a row holds one step; the several steps that exit durability stores under one checkpoint count as one by `DeltaChannel.ExitCheckpointIsOneStep`.
- MessageChannel.ParallelMessagesSwap: paths and task ids appear only as two orders of the same writes; how either is computed is not modelled.
- Migration.DueAfter: a channel is available iff the checkpoint holds a value for it, and triggers outside the three old layouts are left out.
- SseEvents.StandardIffRegular: the reconnection time, the byte order mark and the default event name of the standard are not part of the comparison.
- The scheduler, the checkpoint savers, the asyncio queue, futures, runnables and callbacks: their calls appear as arbitrary sequences of operations.
- Docker and compose text, the deploy client, command-line options, templates, analytics, schema typing and the remaining single-value channels: input/output, plumbing or easy members.
