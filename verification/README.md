# Sensor gateway: verified model

The gateway receives readings from sensors over TCP, passes them through one shared buffer to a data manager
(moving averages, hot and cold alerts) and to a sensor db (a CSV row per reading), and logs through a pipe to a
child process. This project models that in Dafny and proves what each part promises, and what the threads
promise together. `dafny verify dfyconfig.toml` verifies all of it.

## What is modelled

- **The shared buffer** (`sbuffer.c`). `Handoff.dfy` gives each stretch of code between taking and releasing the
  mutex (or testing `condition`) as a function of the queue and `condition`; `SharedBuffer.dfy` has the same code
  on linked nodes and proves that it computes those functions, one segment at a time; `GatewayOnNodes.dfy` does so for
  every step of every thread.
- **The threads around it** (`connmgr.c`, `datamgr.c`, `sensor_db.c`). `Gateway.dfy` is a step machine: any number
  of client threads, the connection manager that joins them and inserts the end marker, the data manager that
  peeks, the sensor db that removes. `GatewayInvariant.dfy` has what every step keeps, `GatewaySafety.dfy` and
  `GatewayProgress.dfy` the results over all runs, `GatewayWitnesses.dfy` two runs that show their limits are real.
  `GatewaySchedules.dfy` says which runs there are, `GatewayCalls.dfy` what one call does when left alone.
- **The doubly linked list** (`lib/dplist.c`) with its pointers: `DoublyLinkedList.dfy`, against the sequence
  operations of `ListSpec.dfy`.
- **The data manager** (`datamgr.c`): `DataManager.dfy` is the list of sensor maps, each with its own list of
  readings, and accounts for every block; `Windows.dfy` says what it computes and relates it to the history.
- **The whole program** (`main.c`): `GatewayProgram.dfy` runs both pointer structures side by side in one heap, over
  any run of the threads, and releases them at the end.
- **Logging** (`main.c`): `LogFraming.dfy`.

## How threads interleave

Every step of a consumer touches `condition`, the one variable that is also written without the mutex
(`sbuffer.c:71`, `89`, `129`, `146`), at most once; all else it touches is protected by the mutex, which it holds.
The test in a wait loop, the call of `pthread_cond_wait`, the return from it, and the two accesses after the
mutex is released at the end of the stream are all steps of their own. A signal made under the mutex is part of the step
that makes it: only the other consumer can be waiting, and it enters its wait under the mutex.

Two results of this machine are exceptions, and each is delimited exactly:

- **A wake-up can be lost.** If `sbuffer_remove` writes `condition = 1` and signals (`sbuffer.c:71-72`) after
  `sbuffer_peek` has found `condition == 2` and before it waits (`sbuffer.c:137-138`), the data manager sleeps until
  a wait happens to return without a signal. A run that can go no further has finished *if and only if* this did
  not happen (or was made up for in that way) and the run did not crash in the way that follows. Finished or not,
  unless it crashed, every reading has been handled and every row written by then.
- **A wait that returns without a signal** can be harmful: at the second wait of `sbuffer_peek` (`sbuffer.c:135-139`), if
  every queued node has been peeked at that moment. No run without a harmful return dereferences a null head, however
  many other waits return without a signal; and after every harmful return, whatever happened before it, the
  program can go on, without another such return, to dereference one (`sbuffer.c:143`). `sbuffer_remove`, and
  `sbuffer_peek` after its first wait, never do.

Assumed: one peeker and one remover, as `main.c` starts them; sensors do not use id 0; `condition` is read and
written as a whole; `malloc` succeeds. Values and averages are real numbers. Where code and comments differ the
model follows the code: `sbuffer_remove` and `sbuffer_peek` block on an empty buffer, though `sbuffer.h:35` and
`sbuffer.h:44` say they return.

## Model

| member | source | states |
|---|---|---|
| ListSpec.InsertThenRemove | lib/dplist.h:50-74 | removing at the index an element was inserted at gives back the element and the list, whatever the index asked for |
| ListSpec.ReferenceSurvives | lib/dplist.h:110-119 | through any sequence of inserts, and of removals of other nodes, a reference keeps giving its element |
| ListSpec.ReferenceGivesElement | lib/dplist.c:252-282 | the node at an index, used as a reference, gives the element at that index |
| DoublyLinkedList.DpList.constructor | lib/dplist.c:27-35 | a new list is a sound empty list and one new block |
| DoublyLinkedList.DoublyLinked | lib/dplist.c:14-24 | in every sound list, next leads from head through the nodes in order, each once, to null; prev undoes each step of next; head has no prev; the elements met are the contents |
| DoublyLinkedList.Size | lib/dplist.c:157-177 | the number of elements, or -1 for NULL |
| DoublyLinkedList.GetReferenceAtIndex | lib/dplist.c:217-250 | for every integer index, the node at the clamped index; NULL for an empty or NULL list |
| DoublyLinkedList.GetElementAtIndex | lib/dplist.c:179-194 | for every integer index, the element at the clamped index; nothing for an empty or NULL list |
| DoublyLinkedList.GetElementAtReference | lib/dplist.c:252-282 | the element of the node that is the reference, nothing if the list has no such node |
| DoublyLinkedList.LinkFirst | lib/dplist.c:83-87 | the node becomes the head of a sound list, everything else keeps its order |
| DoublyLinkedList.LinkBefore | lib/dplist.c:92-96 | the node goes just before the node at an inner position, in a sound list |
| DoublyLinkedList.LinkLast | lib/dplist.c:97-102 | the node goes after the last one, in a sound list |
| DoublyLinkedList.Link | lib/dplist.c:79-103 | whichever case applies, the node is at the clamped index of a sound list, the others keep their order; neither assert can fail |
| DoublyLinkedList.Insert | lib/dplist.c:62-106 | for every list and index: one new node at the clamped index, the others unmoved, prev and next mutually inverse |
| DoublyLinkedList.InsertAtIndex | lib/dplist.c:62-106 | the same with the NULL list, as an operation on (node, element) cells |
| DoublyLinkedList.Relink | lib/dplist.c:132-146 | the neighbours of the removed node point at each other, every other link is unchanged |
| DoublyLinkedList.Unlink | lib/dplist.c:132-152 | a sound list without the node, which is released |
| DoublyLinkedList.Remove | lib/dplist.c:108-155 | for every non-empty list and index: exactly the node at the clamped index is unlinked and released, its element handed out |
| DoublyLinkedList.RemoveAtIndex | lib/dplist.c:108-155 | the same with the NULL and the empty list, as an operation on (node, element) cells |
| Windows.PushKeepsLastFive | datamgr.c:79-82 | dropping the oldest of five and inserting at index 4 turns the last five readings of a history into those of the history with the new reading, also while the window is short |
| Windows.PushIs | datamgr.c:79-82 | a window of five loses its first reading and gets the new one at its end; a shorter one only gets the new one |
| Windows.StoreSummarizes | datamgr.c:70-93 | storing a reading keeps each sensor's first entry equal to its last five readings and duplicates empty; unknown ids change nothing and are reported |
| Windows.AlertsSkip | datamgr.c:40-49 | entries that are skipped do not influence the alert |
| Windows.AlertsOfSummary | datamgr.c:37-68 | the scan alerts on the mean of the sensor's last five readings once there are five, and never through a duplicate entry |
| Windows.HandleAllSummarizes | datamgr.c:22-28 | after any stream the table holds last-five windows and the log is the one defined by the history alone |
| Windows.OfSensorIs | datamgr.c:73-77 | the readings of a sensor are those at the positions in the stream that carry its id, all of them, in order |
| Windows.WindowsAreExact | datamgr.c:70-93 | after any stream, position by position: the first map of a sensor holds its last five readings, or as many as there are, oldest first; a further map of the sensor is empty |
| Windows.AlertsAreExact | datamgr.c:22-28 | after any stream, the exact list logged for the next reading: invalid id and parsed if unmapped; else too hot, if the sensor has sent five and the mean of the last five, read off the stream, is above 20, or too cold, if below 10, and then parsed |
| Windows.LogIsInOrder | datamgr.c:22-28 | the log of a stream is, reading by reading, what is logged for each |
| Windows.SumOfFive | datamgr.c:50-54 | the average is the sum of the five values divided by five |
| Windows.JudgeIs | datamgr.c:56-65 | a mean above 20 is too hot, below 10 too cold, between them neither |
| DataManager.ReadingBlock.constructor | datamgr.c:144-150 | sensor_data_copy makes one new block with the same reading |
| DataManager.SensorMap.constructor | datamgr.c:123-131 | sensor_map_copy makes one new block for the ids and the list it is given |
| DataManager.SensorMap.Record | datamgr.c:79-84 | the map's list holds the pushed window; the blocks given up are released, the new ones are fresh |
| DataManager.RecordAt | datamgr.c:70-86 | storing in one map leaves all other maps as they were, and no block becomes shared |
| DataManager.TableIsHeld | datamgr.c:123-131 | the table's entries are the ids, rooms and readings that the maps and their lists hold |
| DataManager.FindMap | datamgr.c:73-77 | the search stops at the first map of the sensor, or at none |
| DataManager.FindFull | datamgr.c:40-49 | the scan for alerts stops at the map whose mean decides the alerts, or at none, and then there are no alerts |
| DataManager.InsertDataPoint | datamgr.c:70-93 | the pointer structure goes from table to table as Windows.Store says, staying disjoint and fully accounted for |
| DataManager.CalculateAverage | datamgr.c:37-68 | the events are those of Windows.Alerts on the table held by the pointers |
| DataManager.Average | datamgr.c:50-54 | the accumulator loop computes the mean of the full window |
| DataManager.Report | datamgr.c:56-65 | above 20 exactly the hot alert, below 10 exactly the cold one, otherwise none |
| DataManager.InsertMapping | datamgr.c:104-113 | one line of the map file appends one map with an empty list of its own |
| DataManager.InsertMappings | datamgr.c:95-116 | every line of the map file is appended in order, each with blocks of its own; without a file the list is unchanged and that is logged |
| DataManager.FreeReadings | lib/dplist.c:37-60 | dpl_free on a list of readings releases the list, each node and each reading, each once |
| DataManager.FreeMap | datamgr.c:133-138 | sensor_map_free releases exactly the blocks the map owns, each once |
| DataManager.FreeMapAt | lib/dplist.c:54-56 | removing the last map with its callback releases what that map owned and its node, and keeps the rest sound |
| DataManager.DatamgrFree | datamgr.c:119-121 | releases every outer node, map, inner list, inner node and reading, each once |
| DataManager.MapsAreDisjoint | datamgr.c:123-131 | in every sound table no two maps share a list, a node or a reading |
| DataManager.ReadingsAreDistinct | datamgr.c:144-150 | and no map holds a reading or a node twice |
| DataManager.BlocksAre | datamgr.c:119-138 | the blocks accounted for are exactly the outer list, its nodes, the maps, their lists, nodes and readings; all are live |
| DataManager.HandleReading | datamgr.c:22-28 | one turn of the loop does Windows.Handle on the table held by the pointers |
| DataManager.DatamgrInit | datamgr.c:9-35 | over any map file and stream the log is the one the history demands, and no block is left behind |
| SharedBuffer.SBuffer.constructor | sbuffer.c:28-34 | a new buffer is sound and empty |
| SharedBuffer.Chained | sbuffer.c:10-23 | in every sound buffer head is null iff tail is; next leads from head through each node once to tail; the queue is what the nodes hold |
| SharedBuffer.InsertReading | sbuffer.c:160-184 | one new node with the reading, unmarked, goes to the tail of the chain, all other nodes stay; condition becomes 1 only if the queue was empty; NULL fails |
| SharedBuffer.SBuffer.RemoveEnter | sbuffer.c:59-106 | from its entry, remove does to the queue and condition what Handoff.RemoveEnter says; it releases exactly the node it pops, the head, and keeps the others |
| SharedBuffer.SBuffer.RemoveWithData | sbuffer.c:67-106 | the same from the end of its first wait |
| SharedBuffer.SBuffer.RemoveInTurn | sbuffer.c:85-106 | the same from the end of its second wait; head and tail become null together |
| SharedBuffer.SBuffer.PeekEnter | sbuffer.c:117-157 | from its entry, peek does to the queue and condition what Handoff.PeekEnter says |
| SharedBuffer.SBuffer.PeekWithData | sbuffer.c:125-157 | the same from the end of its first wait |
| SharedBuffer.SBuffer.PeekInTurn | sbuffer.c:142-157 | the same from the end of its second wait: the head and nothing else is marked |
| SharedBuffer.FreeBuffer | sbuffer.c:36-49 | releases the nodes still queued and the buffer, each once; NULL fails |
| GatewayInvariant.PeekerKeepsControl | sbuffer.c:109-158 | every step of peek keeps the relation between queue, condition and the two program points |
| GatewayInvariant.RemoverKeepsControl | sbuffer.c:51-107 | every step of remove keeps that relation |
| GatewayInvariant.InsertKeepsControl | sbuffer.c:168-182 | insert keeps that relation |
| GatewayInvariant.PeekerKeepsAsked | sbuffer.c:135-149 | steps of peek keep that a peeker woken from its second wait has an unpeeked node to go to |
| GatewayInvariant.RemoverKeepsAsked | sbuffer.c:95-105 | steps of remove keep that as well |
| GatewayInvariant.StepAsked | sbuffer.c:135-143 | every step but a harmful one, unasked returns included, keeps the peeker from an empty queue after its second wait |
| GatewayInvariant.ClientInsertKeeps | connmgr.c:90-92 | each record inserted is the next one of its client |
| GatewayInvariant.FromOneMore | connmgr.c:90-92 | what came from a client is, record by record, what carries its tag, in order |
| GatewayInvariant.MarkKeeps | connmgr.c:31-38 | the marker is inserted after all threads were joined and nothing is pending |
| GatewayInvariant.PeekerKeepsHistories | sbuffer.c:151-157 | steps of the peeker keep inserted = removed + queue and peeked = removed + marked head |
| GatewayInvariant.RemoverKeepsHistories | sbuffer.c:95-106 | steps of the remover keep the same |
| GatewayInvariant.StepInv | sbuffer.c:51-184 | every step of every thread keeps the whole invariant, also when waits return unasked |
| GatewayInvariant.RunInv | sbuffer.c:51-184 | so does every run |
| GatewaySafety.ExactlyOnceInOrder | sbuffer.c:95-106 | in every reachable state removed is a prefix of peeked, peeked of inserted, at most one apart |
| GatewaySafety.PeekHandsOutTheNext | sbuffer.c:142-157 | peek returns the first inserted reading not peeked before, never the marker |
| GatewaySafety.RemoveTakesOnlyPeeked | sbuffer.c:76-106 | remove returns the next reading, which was peeked; its second end-of-stream test never succeeds |
| GatewaySafety.OnlyTheHeadIsMarked | sbuffer.c:151-153 | only the head is ever marked, the marker never |
| GatewaySafety.NoNullHead | sbuffer.c:59-68 | no null head is dereferenced by remove, nor by peek after its first wait, even with unasked wake-ups |
| GatewaySafety.NoNullHeadWithoutHarm | sbuffer.c:135-143 | nor by peek after its second wait, in any run without a harmful return of that wait, whatever other waits returned unasked |
| GatewaySafety.NoNullHeadWhenAsked | sbuffer.c:135-143 | in particular in runs whose waits return only after a signal or broadcast |
| GatewaySafety.LogIsExact | datamgr.c:22-28 | at every moment the alerts logged are those the readings handled so far demand |
| GatewaySafety.BoundedLag | sensor_db.c:19-23 | when row i is written, reading i has been peeked, all before it are fully handled, and the data manager is at most one reading further |
| GatewaySafety.ClientOrderKept | connmgr.c:53-93 | the rows restricted to a client are a prefix of that client's stream |
| GatewaySafety.MarkerIsLast | connmgr.c:36-38 | the marker is the last record ever inserted, and the only one with id 0 |
| GatewayProgress.StepCosts | sbuffer.c:51-184 | every step lowers a measure by at least one; an unasked wake-up gives at most three back |
| GatewayProgress.RunsAreFinite | sbuffer.c:51-184 | an explicit bound on the length of every run |
| GatewayProgress.TotalIs | connmgr.c:53-93 | the number of records in that bound is the sum of the lengths of the streams |
| GatewayProgress.NoStuckConsumers | sbuffer.c:59-140 | while anything is queued and a consumer is not done, a consumer can run, unless the wake-up was lost |
| GatewayProgress.WhereRunsStop | sbuffer.c:51-184 | in every reachable state, unasked returns or not: nothing is left to happen iff the run crashed, both consumers are done, or the wake-up was lost |
| GatewayProgress.StrandedByStep | sbuffer.c:69-73 | the only step that strands the peeker is a signal between its test and its wait, and only an unasked return of its wait frees it |
| GatewayProgress.FinishesUnlessWakeUpLost | sbuffer.c:51-158 | any run that can go no further has finished iff peek never went past its second wait towards an empty queue and the wake-up was not lost; the former is the only way to crash, and needs a harmful return |
| GatewayProgress.CrashesIfDoomed | sbuffer.c:135-143 | a run that can go no further has crashed iff at some moment peek went past its second wait towards an empty queue |
| GatewayProgress.FinishesAtOnce | sbuffer.c:135-140 | at the grain where peek's test of condition and its wait are one step, every run that can go no further has finished iff peek never went past its second wait towards an empty queue, so always if no return was harmful |
| GatewayProgress.StoppedRunDelivers | main.c:114-120 | every run that has finished, or stops without a crash, whatever waits returned unasked, has written every record of every client, each client's in order, and its alerts are the specification applied to the rows; only the marker is still queued |
| GatewayProgress.CompletionStaysPossible | sbuffer.c:51-184 | from every reachable state, whatever waits returned unasked before, completion is possible iff the peeker is not stranded, not crashed and not, with the mutex in hand, on its way to the head of an empty queue |
| GatewayProgress.CrashStaysPossible | sbuffer.c:135-143 | which reachable states can still lead to a null head without another harmful return: exactly those outside the condition that every other step keeps |
| GatewayProgress.UnaskedWakeUpCrashes | sbuffer.c:135-143 | in every reachable state: after an unasked return of the peeker's second wait a null head can be dereferenced if every queued node had been peeked, and otherwise only after a further such return |
| GatewayCalls.PeekCall | sbuffer.c:109-158 | what a whole call of peek does if nothing comes in between, for each of the four states of the buffer |
| GatewayCalls.PeekWoken | sbuffer.c:117-157 | the same for a peek woken from either of its waits |
| GatewayCalls.RemoveCall | sbuffer.c:51-107 | what a whole call of remove does if nothing comes in between |
| GatewayCalls.RemoveWoken | sbuffer.c:59-106 | the same for a remove woken from either of its waits |
| GatewayCalls.ConditionTells | sbuffer.c:59-83 | in every reachable state: whoever waits for data sees an empty queue and condition 0, remove waits for peek on an unmarked head and condition 1, peek for remove on a marked head and condition 2 |
| GatewaySchedules.ConsumersRunFreely | sbuffer.c:51-158 | in every reachable state a consumer can run unless it sleeps, has ended or waits for the mutex the other one holds |
| GatewaySchedules.AnyClientMayBeNext | connmgr.c:90-92 | in every reachable state with the mutex free, any connected client with a record left may insert it next; it goes to the tail and wakes all who sleep |
| GatewaySchedules.HistoriesOnlyGrow | sensor_db.c:19-23 | nothing logged, written, inserted or handed over is ever taken back |
| GatewaySchedules.ConnectionsInOrder | connmgr.c:25-38 | after any run, which accepts, joins, returns and inserts can follow: a client can act as soon as its own connection was accepted, joins follow all accepts, the last thread first, the marker follows all joins |
| GatewaySchedules.AnyOrderOccurs | connmgr.c:25-93 | for every order in which the clients' records can go in there is a run that takes them in that order and finishes |
| GatewayWitnesses.WakeUpCanBeLost | sbuffer.c:69-73 | for any one reading there is a run that loses the wake-up and stops unfinished |
| GatewayWitnesses.UnaskedWakeUpCanCrash | sbuffer.c:135-143 | for any one reading there is a run with one unasked wake-up that dereferences a null head |
| GatewayOnNodes.PeekerOnNodes | sbuffer.c:109-158 | every step of peek, on the nodes: the same next program point, signal, queue and condition as in the step machine; a null head is dereferenced exactly where the machine faults |
| GatewayOnNodes.RemoverOnNodes | sbuffer.c:51-107 | the same for remove; nothing but nodes of the buffer is released |
| GatewayOnNodes.InsertOnNodes | sbuffer.c:160-184 | the same for insert; its node is new |
| GatewayOnNodes.StepOnNodes | sbuffer.c:51-184 | the chain of nodes, sound and live, does in every step of every thread what the queue does; every other block stays as live as it was |
| GatewayProgram.StepBesideTable | datamgr.c:9-35 | such a step leaves every block of the data manager alone |
| GatewayProgram.HandleBesideBuffer | datamgr.c:22-28 | the data manager at work leaves every node of the buffer alone |
| GatewayProgram.RunStep | sbuffer.c:51-184 | one step of the whole program on both pointer structures is the step of the machine |
| GatewayProgram.RunSteps | sbuffer.c:51-184 | under any interleaving of insert, peek, remove and the data manager's work, the chain and the list of lists stay sound, live and disjoint, hold exactly the queue and the table of the machine, and account for every block |
| GatewayProgram.FreeAll | sbuffer.c:36-49 | after any run, datamgr_free and sbuffer_free release every block the two structures then own, each once |
| GatewayProgram.Program | main.c:79-120 | the whole program, over every run: what it logs and writes is what the machine says, hence, once both consumers are done, every client's records in order and the alerts they demand; and then no block is left behind |
| LogFraming.CStrOfFramed | main.c:226-236 | a record, read as a C string, is the message and one delimiter |
| LogFraming.CopyAndDelimit | main.c:229-233 | strncpy and strcat leave exactly the framed message in the buffer |
| LogFraming.Logger.WriteToLogProcess | main.c:222-241 | one framed record per message goes into the pipe |
| LogFraming.CutToken | main.c:187 | the end of a token becomes a NUL in place, nothing else changes |
| LogFraming.StrTok | main.c:187 | the token found is the first non-empty piece, and the rest is left for the next call |
| LogFraming.Logger.SplitRecord | main.c:185-211 | the loop logs the pieces of a record up to an END_PROC, numbered on, and stops iff there is one |
| LogFraming.Logger.ReadRecord | main.c:185-211 | the oldest record leaves the pipe and its pieces are logged up to an END_PROC |
| LogFraming.Logger.ReadLoop | main.c:174-213 | over all records in the pipe, the same |
| LogFraming.Logger.EndLogProcess | main.c:243-247 | END_PROC goes into the pipe framed like any message |
| LogFraming.PiecesSurvive | main.c:222-236 | the records hold exactly the pieces of the messages |
| LogFraming.PiecesAround | config.h:16 | a '$' ends one piece and begins another, wherever it stands |
| LogFraming.PiecesWithin | main.c:187 | a text without '$' is one piece, or none if it is empty |
| LogFraming.PiecesOfOneMore | main.c:185-211 | the pieces of messages are those of each message, one after the other |
| LogFraming.BeforeIs | main.c:192-195 | what comes before the first END_PROC is the longest beginning without one |
| LogFraming.CleanIs | main.c:187-195 | any text without NUL is clean iff it is non-empty, holds no '$' and is not "END_PROC" |
| LogFraming.SessionLog | main.c:185-247 | the records framed for a session hold the messages' pieces, the logged ones being those up to an END_PROC among them, and an END_PROC |
| LogFraming.LogRoundTrip | main.c:185-247 | the pieces logged from those records are exactly the messages, in order, iff each is clean (CleanIs) |
| LogFraming.Session | main.c:160-247 | writer, pipe and reader together, however they take turns, for messages up to 4094 characters: the child ends, and line i of the log file has number i and the i-th piece of the messages, up to an END_PROC; the lines are exactly the messages iff each is non-empty, holds no '$' and is not "END_PROC" |

## Left out

- lib/tcpsock.c: a client is a finite sequence of complete records followed by the end of its thread.
- connmgr.c and sensor_db.c keep no structure of their own, so they are steps of Gateway, values also in GatewayProgram, and not classes; their own log messages, and the closing one of datamgr.c, are not modelled.
- File handling, timestamps, lastModified as a clock, and the text of numbers: the map file is a sequence of lines, the CSV a sequence of readings, a time is a parameter.
- Rounding of floating point: values and averages are reals.
- fork, pipe and process ends: each read returns one whole record; the child's behaviour when the pipe closes, and a write after the child has ended, are not modelled.
- LogFraming.Logger.WriteToLogProcess: messages longer than SIZE - 2 are outside its contract, because the source has no behaviour for them.
- Function pointers: the copy and free callbacks of dplist are called by the users of the list, before the insertion and after the removal, instead of inside it; dpl_free is therefore written once per callback.
- dpl_free without freeing elements, and dpl_free of NULL: nothing uses them.
- dpl_get_index_of_element: it compares each element with itself, so its result does not depend on its argument; nothing uses it.
- The compare callbacks of datamgr.c: nothing calls them.
- sbuffer_remove and sbuffer_peek on a NULL buffer: they return at once, and main.c never does it.
- malloc failure, mutex initialisation, and overflow of int list sizes.
- More than one peeker or remover, and client readings with id 0: main.c starts neither.
- sensor_node.c and file_creator.c: simulators.
