# Net64: a verified model

Dafny models of the parts of Net64 where its correctness is hard to see from any one function, with proofs of what
they guarantee: the emulator's two-thread life cycle, the byte-swapped RAM and the message ring in it, ids, sessions
and replicated player rosters, input bindings, and the JSON patches and the log queue that come with the program.

| file | models |
|---|---|
| `EmulatorLifeCycle.dfy` | start, stop, join, state and unload_rom against the emulation thread: program points, mutex owner, shared state |
| `ByteOrder.dfy`, `Ram.dfy` | `bswap32`, scalar and bulk access to RAM kept as little-endian words |
| `MsgRing.dfy` | sender and receiver of a descriptor ring, interleaved access by access |
| `IdManager.dfy` | ids handed out and reused, and the handles that own them |
| `Roster.dfy`, `ClientHandlers.dfy`, `Session.dfy`, `SessionOutcomes.dfy`, `Server.dfy` | client rosters, the client's handlers in order, the protocol of server, network and clients, what each message brings about, the server object |
| `ClientConnection.dfy` | the client's connection handles, time-outs and callbacks |
| `Bindings.dfy`, `Decimal.dfy` | writing and reading input bindings as strings; decimal numerals of the C++ library |
| `JsonPointer.dfy`, `JsonValue.dfy`, `JsonPatch.dfy`, `JsonOperations.dfy`, `JsonDiff.dfy`, `JsonMerge.dfy` | pointers, equality, `patch` and the meaning of its operations, `diff`, `merge_patch`, `destroy` |
| `CircularQueue.dfy`, `LogShutdown.dfy` | the log ring and blocking queue, and the shutdown of the thread pool |

Objects that the code changes in place are classes whose methods are proved against functions of their state; the lemmas
are about these functions. Protocols between threads or machines are state machines over single steps, and the
theorems are about every run. `dafny verify dfyconfig.toml` checks everything.

## Assumptions

- Emulator: one client thread, which calls join only once the JOINABLE notification or an earlier call has told it that
  the game is over, and unload_rom only once earlier calls have told it that nothing is left to join; the core's execute
  command fails before any callback, or reports RUNNING, then any finite mix of RUNNING and PAUSED, then STOPPED, and
  returns; callbacks run on the emulation thread; the stop command is honoured; user callbacks leave the mutex alone; a
  thread that can move, and must, moves at some time.
- RAM: a little-endian host with 32-bit address arithmetic. `unsigned long` has 64 bits.
- Ring: the other end is the mirror image of this one with an index of its own; memory accesses take effect in program
  order.
- Network: messages to and from one peer arrive reliably and in order; nothing is sent to a peer that is being
  disconnected; at most 32 peers exist; every connection is made by a fresh client.
- JSON numbers: 64-bit integers and doubles, the latter as reals with NaN and the infinities; keys come in any order.
- Log queue: an operation on the queue is one step, as it holds the mutex; waiting threads are woken when they can go on;
  no producer outlives the start of the destructor.

## Where the code departs from what it says

- Bulk memory access mixes address spaces: `read_memory` translates the address and then reads the end words through
  the logical accessor, `write_memory` computes the aligned address before translating. As written neither ever
  succeeds (`Ram.Memory.ReadMemory`, `Ram.ReadAsWrittenFails`, `Ram.Memory.WriteMemory`). The model has both this form
  and the form with one translation, for which the round trip is proved. Even then a read has to reach a word
  boundary, and neither may end with the last byte of the memory.
- `patch(diff(s, t))` equals `t` only if `t` equals itself, and only for array indexes that fit an int
  (`JsonDiff.NaNIsNotEqualToItself`, `JsonDiff.LongArrayIsNotReached`).
- `operator==` of JSON values takes 1 and 1.0 for equal, and -1 and 2^64 - 1; beyond 2^53 it is not transitive
  (`JsonValue.SignedMeetsUnsigned`, `JsonValue.EqualIsNotTransitive`, `JsonDiff.EqualNumberIsKept`).
- RFC 6902 asks for an error when the parent of an added value is missing; the code makes it, except at the top
  (`JsonOperations.MissingParentIsMade`).
- The remark that a parent of an added value cannot be primitive is false (`JsonPatch.AddBelowPrimitive`,
  `JsonDiff.AddBelowString`).
- A binding for the right or down direction is read back only if the opposite direction has one of the same type, or
  for hats; a mouse button never is (`Bindings.SetThenGet`). Clearing one direction clears both.
- The client registers two chat clients. The second one, behind the roster's handler, is never given a
  callback; with one it would never find a leaver (`ClientHandlers.LeaverIsGoneBehindRoster`).
- A log queue made for no items never shuts down (`LogShutdown.NoRoomNoEnd`).

## Model

| member | source | states |
|---|---|---|
| `EmulatorLifeCycle.EveryRunIsSafe` | src/net64/emulator/m64plus.cpp:1026-1236 | In every interleaving of the client and the emulation thread: all assertions hold where they are evaluated, nobody locks a mutex it holds, unlocks and state writes are made by the owner, and stop never tests a state that is Starting |
| `EmulatorLifeCycle.NotifiedClientMayJoin` | src/qt_gui/main_window.cpp:205-220 | A client that has been told of JOINABLE, and of nothing else, may join at once, also before the thread is over, and finds the state join asserts |
| `EmulatorLifeCycle.EveryStateHasAStep` | src/net64/emulator/m64plus.cpp:1026-1236 | No deadlock: every reachable state has a step; while a call waits one of the emulation thread, else one of the call |
| `EmulatorLifeCycle.UnhinderedClientCanStep` | src/net64/emulator/m64plus.cpp:1026-1236 | A call that does not wait has a step |
| `EmulatorLifeCycle.ClientChangesTheStateAsOwner` | src/net64/emulator/m64plus.hpp:143 | A client step that changes the state is made while the client owns the mutex, and keeps it |
| `EmulatorLifeCycle.EmulationChangesTheStateAsOwner` | src/net64/emulator/m64plus.cpp:1060-1061 | A step of the emulation thread that changes the state is made while that thread owns the mutex, and keeps it |
| `EmulatorLifeCycle.OnlyJoinLeavesJoinable` | src/net64/emulator/m64plus.cpp:1184-1213 | Joinable is overwritten only by join, to Stopped, when the emulation thread is gone |
| `EmulatorLifeCycle.NotificationsAreOrdered` | src/net64/emulator/m64plus.cpp:1083-1142 | The notifications of a started run are RUNNING, then RUNNING and PAUSED in any mix, then JOINABLE once and last; complete exactly when nothing but the thread's return is left to come, on success and on both failure timings |
| `EmulatorLifeCycle.RunKeepsInv` | src/net64/emulator/m64plus.cpp:1026-1236 | The invariant that ties mutex owner, state, notifications and both program points holds in every state of every run |
| `EmulatorLifeCycle.WaitingIsForAWorkingThread` | src/net64/emulator/m64plus.cpp:1145-1149 | Whenever the client waits, for the mutex, the start signal, the thread's result or Joinable, the emulation thread is able to move and obliged to |
| `EmulatorLifeCycle.WorkingThreadCanStep` | src/net64/emulator/m64plus.cpp:1059-1143 | An emulation thread that must move has a step |
| `EmulatorLifeCycle.CallProgress` | src/net64/emulator/m64plus.cpp:1175-1181 | Within a call every step lowers a rank, except the spinning of stop while the other thread must move |
| `EmulatorLifeCycle.RankFalls` | src/net64/emulator/m64plus.cpp:1175-1181 | In a fair behaviour the rank falls after finitely many steps, also while stop spins |
| `EmulatorLifeCycle.EveryCallReturns` | src/net64/emulator/m64plus.cpp:1026-1236 | In every fair behaviour every call of the client returns; what start, stop and join then have done is in StartEnds, StopEnds and JoinEnds |
| `EmulatorLifeCycle.StopEnds` | src/net64/emulator/m64plus.cpp:1152-1182 | stop returns, with the emulator where join may be called |
| `EmulatorLifeCycle.JoinEnds` | src/net64/emulator/m64plus.cpp:1184-1213 | join, whether called after stop or on the notification, returns, with the emulator stopped, the thread gone and the mutex free |
| `EmulatorLifeCycle.StartEnds` | src/net64/emulator/m64plus.cpp:1047-1149 | start returns. Called in the state Stopped it has made a thread that nobody can come between until the state is no longer Starting: the thread is there, has signalled, and owns the mutex while Starting; called in any other state, nothing but the thread itself has touched state, thread and notifications |
| `EmulatorLifeCycle.StartGoesThrough` | src/net64/emulator/m64plus.cpp:1047-1149 | A call of start that found Stopped stays one that makes a thread, up to its return |
| `EmulatorLifeCycle.RefusalGoesThrough` | src/net64/emulator/m64plus.cpp:1047-1051 | A call of start that found another state leaves the game alone at every step |
| `EmulatorLifeCycle.StartedGameIsAnnounced` | src/net64/emulator/m64plus.cpp:1083-1142 | In every fair behaviour a started thread comes to notify RUNNING first: with the game running, or failed and Joinable |
| `EmulatorLifeCycle.NextGame` | src/net64/emulator/m64plus.cpp:1026-1236 | Every run that ends idle and Stopped goes on to a state with the game running and then to one where it is over and join may be called |
| `EmulatorLifeCycle.AGameIsPlayed` | src/net64/emulator/m64plus.cpp:1026-1236 | There is a run that reaches Running and later Joinable, with all notifications made |
| `EmulatorLifeCycle.StopAllowsJoin` | src/net64/emulator/m64plus.cpp:944-955 | After stop the client may call join, however long it waits with it |
| `EmulatorLifeCycle.StopThenJoinEnds` | src/net64/emulator/m64plus.cpp:944-955 | The destructor: from any idle state stop and then join both return, with the emulator stopped, the thread gone, the mutex free and unload_rom allowed |
| `JsonPointer.UnescapeUndoesEscape` | externals/json/include/nlohmann/detail/json_pointer.hpp:851-875 | Unescaping an escaped token gives the token back, for every string |
| `JsonPointer.ParseFormat` | externals/json/include/nlohmann/detail/json_pointer.hpp:776-836 | A pointer printed from tokens parses back to these tokens, whatever characters they hold |
| `JsonPointer.EscapedIsClean` | externals/json/include/nlohmann/detail/json_pointer.hpp:863-868 | An escaped token holds no slash, and every tilde in it is followed by 0 or 1 |
| `JsonPointer.FormatFront` | externals/json/include/nlohmann/detail/json_pointer.hpp:64-73 | Tokens are joined by slashes, each escaped, the first in front |
| `JsonPointer.FormatParse` | externals/json/include/nlohmann/detail/json_pointer.hpp:776-836 | A string that parses is the pointer printed from its tokens: printing and parsing are inverse both ways |
| `JsonPointer.ParseSucceeds` | externals/json/include/nlohmann/detail/json_pointer.hpp:785-828 | Exactly which strings parse: the empty one, and those with a slash in front and every tilde followed by 0 or 1; errors 107 and 108 |
| `JsonPointer.EscapeUndoesUnescape` | externals/json/include/nlohmann/detail/json_pointer.hpp:851-875 | Escaping an unescaped token gives the token back |
| `JsonValue.SelfEqual` | externals/json/include/nlohmann/json.hpp:5671-5734 | A value equals itself exactly when it holds no NaN and nothing discarded; what differs is unequal by EqualIsSame, SignedMeetsUnsigned and IntegerMeetsFloat |
| `JsonValue.EqualIsComparable` | externals/json/include/nlohmann/json.hpp:5671-5734 | Equal values hold no NaN and nothing discarded |
| `JsonValue.EqualIsSame` | externals/json/include/nlohmann/json.hpp:5671-5734 | For values where no numbers of different types meet, equal means the same, with no NaN and nothing discarded |
| `JsonValue.EqualIsSymmetric` | externals/json/include/nlohmann/json.hpp:5671-5734 | operator== is symmetric, on all values |
| `JsonValue.SignedMeetsUnsigned` | externals/json/include/nlohmann/json.hpp:5726-5733 | A signed and an unsigned number are equal exactly when they agree modulo 2^64 |
| `JsonValue.IntegerMeetsFloat` | externals/json/include/nlohmann/json.hpp:5710-5725 | An integer up to 2^53 equals a double exactly when the double is that number |
| `JsonValue.RoundIsNearest` | externals/json/include/nlohmann/json.hpp:5710-5725 | The conversion to a double: no number with 53 binary digits is nearer |
| `JsonValue.RoundIsDouble` | externals/json/include/nlohmann/json.hpp:5710-5725 | The converted number has 53 binary digits, the last one 0 where two are as near |
| `JsonValue.EqualIsNotTransitive` | externals/json/include/nlohmann/json.hpp:5710-5725 | Concrete numbers beyond 2^53 for which operator== is not transitive |
| `JsonValue.MergedIsTarget` | externals/json/include/nlohmann/json.hpp:7863-7985 | The minimal edit gives the target itself exactly when no number of the source is kept for an equal one of another type |
| `JsonValue.MergedEqualsTarget` | externals/json/include/nlohmann/json.hpp:7863-7985 | The target with its parts that equal the source's replaced by these equals the target exactly when the target equals itself |
| `JsonPatch.Patch` | externals/json/include/nlohmann/json.hpp:7567-7827 | The loop over the operations computes the fold of the single operations, with the first error stopping it; what each operation does is in the rows of JsonOperations |
| `JsonPatch.AtConcat` | externals/json/include/nlohmann/detail/json_pointer.hpp:520-570 | Looking up a path and then a path from there is looking up their concatenation, with the first error |
| `JsonPatch.PutThenAt` | externals/json/include/nlohmann/json.hpp:7755-7760 | What is put at an existing path is found there, and a second put overwrites the first |
| `JsonPatch.PutSame` | externals/json/include/nlohmann/json.hpp:7755-7760 | Putting back what is at a path changes nothing |
| `JsonPatch.PutConcat` | externals/json/include/nlohmann/json.hpp:7755-7760 | A put below a path changes only the value at that path: operations are local |
| `JsonPatch.InsertBelow` | externals/json/include/nlohmann/detail/json_pointer.hpp:444-512 | Adding below a path goes through the value at that path |
| `JsonPatch.AddBelow` | externals/json/include/nlohmann/json.hpp:7606-7663 | Adding a member or element acts on the parent found at the path, and on nothing else |
| `JsonPatch.AddBelowPrimitive` | externals/json/include/nlohmann/json.hpp:7659-7661 | An add whose parent exists ends in the failing assertion exactly when that parent is neither null, object nor array: the remark beside the assertion, that there is no such parent, is false |
| `JsonPatch.ApplyAllConcat` | externals/json/include/nlohmann/json.hpp:7700-7824 | A list of operations can be applied in two parts |
| `JsonOperations.AddMeans` | externals/json/include/nlohmann/json.hpp:7606-7663 | After an add the value is found at its target, and every pointer that the add does not concern reads as before |
| `JsonOperations.AddShifts` | externals/json/include/nlohmann/json.hpp:7642-7656 | An add at an index leaves the elements in front, has the value there and moves the others up by one |
| `JsonOperations.RemoveMeans` | externals/json/include/nlohmann/json.hpp:7666-7692 | A remove of what can be read succeeds, adding it again gives the document back, and every pointer it does not concern reads as before |
| `JsonOperations.RemoveShifts` | externals/json/include/nlohmann/json.hpp:7687-7691 | A remove at an index leaves the elements in front and moves the others down by one |
| `JsonOperations.RemoveOpUndoesAdd` | externals/json/include/nlohmann/json.hpp:7606-7692 | A remove gives back the document from before an add exactly when the add overwrote nothing and its place can be named again |
| `JsonOperations.AddUndoesRemove` | externals/json/include/nlohmann/json.hpp:7606-7692 | What can be read can be removed, and adding it there gives the document back |
| `JsonOperations.ReplaceMeans` | externals/json/include/nlohmann/json.hpp:7755-7760 | A replace succeeds exactly when there is something at the target; it is found there, the old value put back gives the document, every other pointer reads as before |
| `JsonOperations.MoveMeans` | externals/json/include/nlohmann/json.hpp:7762-7776 | After a move the value is at the target, and what neither the removal nor the add concerns reads as before |
| `JsonOperations.MovedIsGone` | externals/json/include/nlohmann/json.hpp:7762-7776 | After a move the member is gone from where it was, unless the target lies there |
| `JsonOperations.MoveBack` | externals/json/include/nlohmann/json.hpp:7762-7776 | A value moved to a free place can be moved back, and the document is the old one |
| `JsonOperations.CopyMeans` | externals/json/include/nlohmann/json.hpp:7778-7791 | After a copy the value is at the target and still at its source, unless the target concerns the source; everything else reads as before |
| `JsonOperations.TestMeans` | externals/json/include/nlohmann/json.hpp:7793-7815 | A test gives back the document exactly when the value found equals the wanted one; error 501 exactly for another value or a failed lookup, other exceptions pass |
| `JsonOperations.MissingParentIsMade` | externals/json/include/nlohmann/json.hpp:7615-7624 | An add below a missing member makes that member an object, except at the top, where it is refused |
| `JsonOperations.InsertThenFound` | externals/json/include/nlohmann/detail/json_pointer.hpp:444-512 | Whatever was created on the way, an added value is found through its own pointer; only "-" and leading zeros in arrays cannot be looked up |
| `JsonOperations.PutElsewhere` | externals/json/include/nlohmann/detail/json_pointer.hpp:520-570 | Assigning through a pointer changes nothing that another pointer leads to |
| `JsonOperations.InsertElsewhere` | externals/json/include/nlohmann/detail/json_pointer.hpp:444-512 | Inserting through a pointer changes nothing it does not concern |
| `JsonOperations.EraseElsewhere` | externals/json/include/nlohmann/json.hpp:7666-7692 | Erasing changes nothing it does not concern |
| `JsonDiff.DiffThenPatch` | externals/json/include/nlohmann/json.hpp:7835-7839 | patch(diff(s, t)) on s, for all s and t: succeeds exactly when the differing array indexes fit an int, and then equals t exactly when t holds no NaN and nothing discarded; gives t itself exactly when also no number is kept for an equal one of another type |
| `JsonDiff.NaNIsNotEqualToItself` | externals/json/include/nlohmann/json.hpp:7835-7839 | A concrete target for which the documented invariant is false: the patched document is the NaN, and does not equal it |
| `JsonDiff.LongArrayIsNotReached` | externals/json/include/nlohmann/json.hpp:7835-7839 | A concrete target with one element too many: patching throws |
| `JsonDiff.EqualNumberIsKept` | externals/json/include/nlohmann/json.hpp:7835-7839 | Concrete documents, 1 and 1.0, whose difference is empty: the patched document equals the target and is not the same |
| `JsonDiff.AddBelowString` | externals/json/include/nlohmann/json.hpp:7659-7661 | A concrete patch that fails the assertion: an add below a string |
| `JsonDiff.Diff` | externals/json/include/nlohmann/json.hpp:7863-7985 | The operations computed for a place in any document, applied to it, make exactly the merge of source and target at that place, and are none exactly for equal values |
| `JsonDiff.DiffCommon` | externals/json/include/nlohmann/json.hpp:7889-7897 | The edits of the elements both arrays have, each at its index |
| `JsonDiff.InsertRemovals` | externals/json/include/nlohmann/json.hpp:7902-7914 | The removals, each inserted in front of the ones before, come out last element first |
| `JsonDiff.AppendRest` | externals/json/include/nlohmann/json.hpp:7916-7926 | The additions put the target's further elements in order at the end |
| `JsonDiff.DiffArrays` | externals/json/include/nlohmann/json.hpp:7887-7929 | The three passes over arrays together make the edit |
| `JsonDiff.DiffObjects` | externals/json/include/nlohmann/json.hpp:7931-7971 | The two passes over objects together make the edit, in whatever order the keys come |
| `JsonDiff.DiffMembers` | externals/json/include/nlohmann/json.hpp:7933-7953 | The first pass over an object: common members are edited, members of the source alone removed |
| `JsonDiff.AddMembers` | externals/json/include/nlohmann/json.hpp:7955-7968 | The second pass: members of the target alone are added |
| `JsonDiff.RemovalsEffect` | externals/json/include/nlohmann/json.hpp:7902-7914 | Removing elements in reverse order never invalidates an index, and leaves the common front |
| `JsonDiff.ElementStep` | externals/json/include/nlohmann/json.hpp:7889-7897 | Editing one element leaves the others, and the edits before, in place |
| `JsonDiff.TrimStep` | externals/json/include/nlohmann/json.hpp:7902-7914 | After the common elements, the removals cut the array to the target's length |
| `JsonDiff.AppendStep` | externals/json/include/nlohmann/json.hpp:7916-7926 | Each addition appends the target's next element |
| `JsonDiff.MemberStep` | externals/json/include/nlohmann/json.hpp:7939-7944 | Editing one member leaves the other members in place |
| `JsonDiff.RemoveStep` | externals/json/include/nlohmann/json.hpp:7945-7952 | A member the target has not is removed, and no other |
| `JsonDiff.AddStep` | externals/json/include/nlohmann/json.hpp:7955-7968 | A member the source has not is added with the target's value |
| `JsonDiff.FormatIndex` | externals/json/include/nlohmann/json.hpp:7894-7922 | The path of an element is the parent's pointer with the printed index as a further token |
| `JsonDiff.FormatKey` | externals/json/include/nlohmann/json.hpp:7936-7964 | The path of a member is the parent's pointer with the key, escaped, as a further token |
| `JsonMerge.MergePatch` | externals/json/include/nlohmann/json.hpp:8038-8062 | The recursive loop computes the MergePatch function of section 2 of RFC 7396, for all targets and patches |
| `JsonMerge.MergeTwice` | externals/json/include/nlohmann/json.hpp:8038-8062 | Applying the same merge patch twice equals applying it once |
| `JsonMerge.MergeLeavesNoNulls` | externals/json/include/nlohmann/json.hpp:8046-8056 | A merge into a value without null members leaves no null members |
| `JsonMerge.UnnamedStays` | externals/json/include/nlohmann/json.hpp:8038-8062 | Whatever the patch does not name, at any depth, is as it was: nothing there is changed, removed or made |
| `JsonMerge.NamedIsSet` | externals/json/include/nlohmann/json.hpp:8038-8062 | What the patch sets, at any depth, is there afterwards; what it names with a null is not |
| `JsonDestroy.Destroy` | externals/json/include/nlohmann/json.hpp:999-1046 | The explicit stack releases every descendant exactly once, everything destructed in the loop has no children left, and the loop ends |
| `JsonDestroy.MoveChildren` | externals/json/include/nlohmann/json.hpp:1027-1042 | Moving the children to the stack moves exactly the nodes below the value |
| `JsonDestroy.TakeLast` | externals/json/include/nlohmann/json.hpp:1019-1043 | One turn of the loop takes one node off the stack and puts the nodes below it on |
| `JsonDestroy.CountMember` | externals/json/include/nlohmann/json.hpp:1036-1039 | The members of an object can be taken in any order |
| `Decimal.ReadPrinted` | externals/json/include/nlohmann/detail/json_pointer.hpp:330-342 | std::stoi reads back what std::to_string printed, whatever non-digit follows |
| `MsgRing.NothingLost` | src/net64/client/msg_queue.cpp:23-80 | At every memory access of every interleaving, the messages received followed by those in the ring are exactly the messages sent: in order, none lost, doubled or torn, for every size from 1 to 255 |
| `MsgRing.UsedSlotsAreASegment` | src/net64/client/msg_queue.cpp:23-80 | The slots in use are the cyclic stretch from the oldest message to the newest |
| `MsgRing.IndexesFollowTheMessages` | src/net64/client/msg_queue.cpp:43-45 | Between calls each end's index is the slot of its next message |
| `MsgRing.RefusalIsJustified` | src/net64/client/msg_queue.cpp:27-31 | poll gives up exactly on an empty ring, send exactly on a full one |
| `MsgRing.SendGoesThrough` | src/net64/client/msg_queue.cpp:55-80 | From any state with the sender idle, send on its own sends its message, unless the ring is full |
| `MsgRing.PollGoesThrough` | src/net64/client/msg_queue.cpp:23-48 | From any state with the receiver idle, poll on its own takes the oldest message, unless the ring is empty |
| `MsgRing.SlotsGoRound` | src/net64/client/msg_queue.cpp:13-17 | Repeated increments with the loop back are positions modulo the size |
| `MsgRing.SlotsDiffer` | src/net64/client/msg_queue.cpp:13-17 | Messages fewer than size apart have different slots |
| `MsgRing.EverySlotIsUsed` | src/net64/client/msg_queue.cpp:13-17 | Any size messages in a row use every slot |
| `MsgRing.SendStepKeepsInv` | src/net64/client/msg_queue.cpp:55-80 | Every access of send keeps the ring consistent, also between the accesses of poll |
| `MsgRing.PollStepKeepsInv` | src/net64/client/msg_queue.cpp:23-48 | Every access of poll keeps the ring consistent, also between the accesses of send |
| `MsgRing.RunKeepsInv` | src/net64/client/msg_queue.cpp:23-80 | The ring is consistent in every state of every run |
| `IdManager.Manager.AcquireId` | src/common/id_manager.hpp:18-31 | Gives the last returned id, else the next new one, else reports exhaustion and changes nothing |
| `IdManager.Manager.ReturnId` | src/common/id_manager.hpp:33-39 | The highest id is given up, any other goes to the free ids |
| `IdManager.AcquireIsFresh` | src/common/id_manager.hpp:18-31 | An acquired id is live nowhere else and between 1 and the maximum; exhaustion is reported exactly when all ids are live; the highest id grows only to the number of live ones |
| `IdManager.AcquireSucceeds` | src/common/id_manager.hpp:18-31 | With fewer live ids than there are, one is acquired |
| `IdManager.ReturnFrees` | src/common/id_manager.hpp:33-39 | Returning a live id frees it: live and free ids stay disjoint, duplicate-free and together 1 to the highest |
| `IdManager.PerformKeepsInv` | src/common/id_manager.hpp:46-76 | Default construction, creation, moves, assignment and destruction keep every live id in exactly one handle; what they do to single handles is in AssignedHandleHasNewId, MovedHandleKeepsId and EmptyHandleEnds |
| `IdManager.HandlesOwnTheirIds` | src/common/id_manager.hpp:15-85 | Over every history of handles no id exceeds the peak number of ids live at once, and each sits in one handle |
| `IdManager.OwnedAfterSwap` | src/common/id_manager.hpp:70-76 | A swap moves ids without losing or doubling any |
| `IdManager.AssignedHandleHasNewId` | src/net64/server/player_manager.cpp:57-57 | Assigning a handle made on the spot: the temporary is gone, the handle holds an id that was not live, the id it held before is live no longer, the other handles are as before |
| `IdManager.NoIdNoChange` | src/common/id_manager.hpp:18-31 | With all ids live that statement throws and changes nothing |
| `IdManager.MovedHandleKeepsId` | src/common/id_manager.hpp:55-68 | A handle made from another that then ends has its id; the manager and the live ids are the same |
| `IdManager.EmptyHandleEnds` | src/common/id_manager.hpp:46-68 | A handle without manager ends without a trace |
| `Roster.RemotePlayers.OnClientConnected` | src/net64/client/player_list_manager.cpp:14-20 | The player is entered, unless there is an entry with that id |
| `Roster.RemotePlayers.OnClientDisconnected` | src/net64/client/player_list_manager.cpp:22-25 | The entry is erased |
| `Roster.RemotePlayers.OnPlayerList` | src/net64/client/player_list_manager.cpp:27-36 | All entries are inserted in turn, existing ones not overwritten |
| `Roster.InsertAllKeys` | src/net64/client/player_list_manager.cpp:27-36 | After a player list every listed id has an entry, and no entry is lost |
| `Roster.LookupsAppend` | src/net64/client/chat_client.cpp:58-71 | A message whose sender or leaver is in the settled roster can be sent behind any others: its lookup will succeed |
| `Roster.ApplyAllAppend` | src/net64/client/player_list_manager.cpp:14-36 | A roster settles by one message at a time |
| `Roster.ListedPop` | src/net64/client/player_list_manager.cpp:27-36 | Whether a player list has come or will come does not change when a message is handled |
| `ClientHandlers.Client.OnNetMessage` | src/net64/client.cpp:269-287 | Every handler sees every message, one after the other in the order of registration |
| `ClientHandlers.CallbackSeesOldRoster` | src/net64/client.cpp:17-26 | With the handlers as the constructor registers them, the chat callback is made once, with the roster from before the message; the chat client registered last shows nothing |
| `ClientHandlers.LeaverIsGoneBehindRoster` | src/net64/client.cpp:25 | The order matters: a chat client with a callback anywhere behind the roster's handler never finds a leaver |
| `ClientHandlers.KnownIsShown` | src/net64/client/chat_client.cpp:15-71 | The chat misses no id exactly when the message names players of the roster it is shown |
| `Session.RostersAgree` | src/net64/server/player_manager.cpp:23-91 | In every reachable state of server, network and clients: once the messages under way have arrived, a connected client's roster is the server's id-to-name map on non-zero ids if it has shaken hands, and a part of it if not |
| `Session.LookupsSucceed` | src/net64/client/chat_client.cpp:15-71 | Once a client has handled its player list, every chat sender and every leaver is found in its roster when its handlers, in their order, look it up |
| `Session.PlayersArePeers` | src/net64/server.cpp:75-87 | The keys of the players are the live peer ids; each is the data of exactly one peer, and 0 is none of them |
| `Session.RefusedIsIgnored` | src/net64/server.cpp:182-185 | A message from a refused peer reaches no handler: nothing but its queue changes |
| `Session.IdsNeverRunOut` | src/net64/server/player_manager.cpp:56-58 | Peer ids never run out while there is room for a peer, player ids never |
| `Session.PlayerIsFixed` | src/net64/server/player_manager.cpp:35-58 | From its handshake on a player keeps id and name until it is destroyed |
| `Session.StepFixesPlayer` | src/net64/server/player_manager.cpp:35-58 | No step changes the id or the name of a player that has shaken hands |
| `Session.RunKeepsInv` | src/net64/server.cpp:46-98 | Ids, peers, rosters and messages under way fit together in every reachable state |
| `Session.StepKeepsInv` | src/net64/server.cpp:46-98 | Every event keeps that |
| `Session.AcceptKeepsInv` | src/net64/server.cpp:75-78 | An accepted peer gets a peer id and a player |
| `Session.RefuseKeepsInv` | src/net64/server.cpp:53-74 | A refused peer gets neither |
| `Session.HandshakeKeepsInv` | src/net64/server/player_manager.cpp:35-91 | Answer, player list and announcement bring every roster to the new state of the players |
| `Session.ChatKeepsInv` | src/net64/server/chat_server.cpp:15-24 | A chat message names a sender all listed clients will know |
| `Session.DeliveredKeepsInv` | src/net64/client.cpp:269-287 | Handling a message keeps what the roster will be; its lookups succeed before the roster is updated |
| `Session.GoneKeepsPeers` | src/net64/server.cpp:187-192 | The player is destroyed and its peer id returned |
| `Session.GoneKeepsIds` | src/common/id_manager.hpp:64-68 | The player id comes back with its handle |
| `Session.GoneKeepsLinks` | src/net64/server/player_manager.cpp:23-33 | The announcement of the leaver brings the other rosters to the new state |
| `Session.GoneIsAllowed` | src/net64/server.cpp:80-87 | The lookup of the player and the return of its ids are safe when a peer is gone |
| `Session.FillPlayerList` | src/net64/server/player_manager.cpp:76-80 | The list names every player, those without handshake as id 0, in whatever order the map has |
| `Session.PlayerIdIsFresh` | src/net64/server/player_manager.cpp:56-58 | 32 peers cannot use up the 65535 player ids; the new id is nobody else's |
| `Session.PeerIdIsFresh` | src/net64/server.cpp:75-76 | A new peer id is no key of the players, and not 0 |
| `Session.GreetingIsComplete` | src/net64/server/player_manager.cpp:73-82 | The player list makes the new player's roster complete, in spite of entries that insert does not overwrite |
| `SessionOutcomes.HandshakeMakesPlayer` | src/net64/server/player_manager.cpp:35-91 | A first handshake with name and version makes a player with an id nobody has; its client is told the id, a list of all players and its arrival, every other connected client its arrival, in this order and nothing else |
| `SessionOutcomes.BadHandshakeCloses` | src/net64/server/player_manager.cpp:35-54 | A second handshake, or one without name or version, closes the connection and changes nothing else |
| `SessionOutcomes.ChatGoesOut` | src/net64/server/chat_server.cpp:15-24 | A chat message of a player goes to every connected client, once, under the sender's id |
| `SessionOutcomes.ChatIsShown` | src/net64/client/chat_client.cpp:15-71 | A client that has shaken hands shows it with the sender's name, once it has handled what was on its way before |
| `SessionOutcomes.EarlyChatIsDropped` | src/net64/server/chat_server.cpp:15-24 | Before its handshake nobody hears a client |
| `SessionOutcomes.LeaverIsAnnounced` | src/net64/server/player_manager.cpp:23-33 | The end of a connection ends its player, and the connected others are told of it, once, exactly if it had shaken hands |
| `GameServer.Server.OnConnect` | src/net64/server.cpp:75-78 | Accepts a peer: one step of the protocol, which keeps its invariant |
| `GameServer.Server.OnHandshake` | src/net64/server/player_manager.cpp:35-91 | A handshake, in the order of the code: name, id, answer, list, announcement |
| `GameServer.Server.Greet` | src/net64/server/player_manager.cpp:66-90 | The three messages go out in this order |
| `GameServer.Server.OnChat` | src/net64/server/chat_server.cpp:15-24 | A chat message, dropped before the handshake |
| `GameServer.Server.OnNetMessage` | src/net64/server.cpp:210-228 | Dispatches a message, dropped when the peer has no player; keeps the invariant of the protocol |
| `GameServer.Server.OnReceive` | src/net64/server.cpp:88-91 | Takes and handles the oldest message of a client: one step of the protocol, which keeps its invariant |
| `GameServer.Server.OnDisconnect` | src/net64/server.cpp:80-87 | Ends a peer: one step of the protocol, which keeps its invariant |
| `ByteOrder.BSwap32` | src/net64/memory/util.hpp:18-31 | In place, the bytes of every whole word are reversed, and nothing else changes |
| `ByteOrder.SwappedAt` | src/net64/memory/util.hpp:18-31 | The byte at 4w+k comes from 4w+3-k |
| `ByteOrder.SwappedTwice` | src/net64/memory/util.hpp:18-31 | Swapping twice gives the bytes back |
| `ByteOrder.SwappedUpdate` | src/net64/emulator/m64plus.cpp:1504-1506 | Storing a byte at its mirrored index is storing it at its own index of the swapped memory |
| `ByteOrder.MirrorTwice` | src/net64/emulator/m64plus.cpp:1432 | The index map a - 2*(a%4) + 3 is an involution within each word |
| `ByteOrder.ValueOfDigits` | src/net64/emulator/m64plus.cpp:1515-1521 | The big-endian bytes of a number have its value |
| `ByteOrder.DigitsOfValue` | src/net64/emulator/m64plus.cpp:1446-1456 | Any bytes are the big-endian bytes of their value |
| `Ram.Memory.Read8` | src/net64/emulator/m64plus.cpp:1425-1435 | The byte of the flat array at a logical address, or the error, exactly outside of the memory |
| `Ram.Memory.Read16` | src/net64/emulator/m64plus.cpp:1437-1444 | The big-endian value of two bytes at any alignment, or the error |
| `Ram.Memory.Read32` | src/net64/emulator/m64plus.cpp:1446-1456 | The big-endian value of four bytes at any alignment, or the error |
| `Ram.Memory.Read64` | src/net64/emulator/m64plus.cpp:1458-1465 | The big-endian value of eight bytes at any alignment, or the error |
| `Ram.Memory.Write8` | src/net64/emulator/m64plus.cpp:1497-1507 | Stores one byte of the flat array and no other, or fails and stores nothing |
| `Ram.Memory.Write16` | src/net64/emulator/m64plus.cpp:1509-1513 | Stores two bytes big-endian; what a failing write leaves behind is stated exactly |
| `Ram.Memory.Write32` | src/net64/emulator/m64plus.cpp:1515-1521 | Stores four bytes big-endian; what a failing write leaves behind is stated exactly |
| `Ram.Memory.Write64` | src/net64/emulator/m64plus.cpp:1523-1527 | Stores eight bytes big-endian; what a failing write leaves behind is stated exactly |
| `Ram.Memory.ReadMemory` | src/net64/emulator/m64plus.cpp:1353-1388 | When a bulk read succeeds, fails, or leaves its buffer, exactly, as written and with one translation; and it returns exactly the bytes of the flat array |
| `Ram.Memory.ReadAround` | src/net64/emulator/m64plus.cpp:1369-1387 | The aligned words and the parts before and after them make the whole stretch |
| `Ram.Memory.WriteMemory` | src/net64/emulator/m64plus.cpp:1390-1423 | With one translation a bulk write succeeds exactly if it ends before the last byte, and then changes exactly its bytes; as written it never succeeds |
| `Ram.Memory.StorePadded` | src/net64/emulator/m64plus.cpp:1405-1422 | The padded block puts back what it read around the data |
| `Ram.LoadAfterStore` | src/net64/emulator/m64plus.cpp:1425-1527 | A number of any width read back from where it was written is that number |
| `Ram.LoadElsewhere` | src/net64/emulator/m64plus.cpp:1497-1527 | Reads next to a write, successful or not, are not affected |
| `Ram.FailedStore` | src/net64/emulator/m64plus.cpp:1509-1527 | A failing write leaves the memory alone, except when it starts below the memory and ends in it: then its last bytes stay |
| `Ram.ReadAfterWrite` | src/net64/emulator/m64plus.cpp:1353-1423 | On the flat array: wherever a bulk read with one translation succeeds, a bulk write does too, and the stretch then reads as the data |
| `Ram.WriteThenRead` | src/net64/emulator/m64plus.cpp:1353-1423 | The same in place: a bulk write and then a bulk read of the same stretch, with exactly when each succeeds |
| `Ram.ReadSucceeds` | src/net64/emulator/m64plus.cpp:1353-1388 | With one translation a bulk read succeeds exactly if it reaches a word boundary and ends before the last byte |
| `Ram.ReadAsWrittenFails` | src/net64/emulator/m64plus.cpp:1375-1377 | As written no bulk read succeeds; one that would with one translation |
| `Ram.StoreSplit` | src/net64/emulator/m64plus.cpp:1509-1527 | The bytes are stored last part first, and the first failure ends the write |
| `Bindings.GetArgs` | src/net64/emulator/m64plus.cpp:652-676 | The splitter loop ends, and finds the words between the separators |
| `Bindings.ParseIgnoresZeros` | src/net64/emulator/m64plus.cpp:642-755 | The zeros the configuration buffer has behind a string change nothing of what is read |
| `Bindings.Section.Set` | src/net64/emulator/m64plus.cpp:771-900 | Stores the text for the bind in the button's entry, or throws and stores nothing |
| `Bindings.Section.Get` | src/net64/emulator/m64plus.cpp:902-910 | Reads an input from the button's entry, and only one that can be read at all: never a ball, never a mouse button in second place |
| `Bindings.SetThenGet` | src/net64/emulator/m64plus.cpp:771-910 | For every configuration, button and input: exactly when get_button returns what set_button stored, axis values reduced to their sign |
| `Bindings.OppositeAfterSet` | src/net64/emulator/m64plus.cpp:781-818 | What the opposite stick direction is bound to afterwards: exactly what it was if both agree, else nothing or the new input |
| `Bindings.SetSucceeds` | src/net64/emulator/m64plus.cpp:757-769 | set_button throws exactly for a hat direction that is none, or when the opposite direction's entry cannot be read |
| `Bindings.SetKeepsOthers` | src/net64/emulator/m64plus.cpp:771-910 | Setting a button changes what no other button reads, save the opposite stick direction |
| `Bindings.EntriesAreApart` | src/net64/emulator/m64plus.cpp:915-933 | Two buttons share an entry exactly when they are the same or opposite directions of a stick |
| `Bindings.PaddedFillsBuffer` | src/net64/emulator/m64plus_config.cpp:198-206 | The buffer a string is read into: its first 127 characters, zeros behind them, always a zero at the end |
| `Bindings.LoneKeyIsMisread` | src/net64/emulator/m64plus.cpp:825-829 | A concrete bind that is lost: "key(,5)" is read as the first direction's |
| `Bindings.StickTextReads` | src/net64/emulator/m64plus.cpp:771-865 | The text written for a stick direction parses to the two inputs it was made from |
| `Bindings.PlainTextReads` | src/net64/emulator/m64plus.cpp:866-899 | The text written for another button parses to its input |
| `Bindings.ReadPair` | src/net64/emulator/m64plus.cpp:684-718 | Two components, or one of them, are read back |
| `Bindings.ReadHatPair` | src/net64/emulator/m64plus.cpp:719-747 | Hat directions are read back; with the first missing, the second is read in both places |
| `Bindings.ParsedInputs` | src/net64/emulator/m64plus.cpp:642-755 | What can be read at all: no ball, signs only, true directions, no second mouse button |
| `Bindings.ContainsName` | src/net64/emulator/m64plus.cpp:684-748 | In a written entry only its own kind's name is found in front of the parenthesis |
| `CircularQueue.CircularQ.PushBack` | externals/spdlog-lib/spdlog/details/circular_q.h:26-36 | Appends; when full the oldest item gives way and is counted |
| `CircularQueue.CircularQ.PopFront` | externals/spdlog-lib/spdlog/details/circular_q.h:40-44 | Removes and returns the oldest item |
| `CircularQueue.CircularQ.Empty` | externals/spdlog-lib/spdlog/details/circular_q.h:46-49 | Says whether there is no item |
| `CircularQueue.CircularQ.Full` | externals/spdlog-lib/spdlog/details/circular_q.h:51-55 | Says whether as many items are in the ring as it was made for |
| `CircularQueue.BlockingQueue.Enqueue` | externals/spdlog-lib/spdlog/details/mpmc_blocking_q.h:35-43 | Waits exactly when the queue is full, else appends; nothing is ever overrun |
| `CircularQueue.BlockingQueue.EnqueueNowait` | externals/spdlog-lib/spdlog/details/mpmc_blocking_q.h:46-53 | Appends, with the oldest item giving way when full |
| `CircularQueue.BlockingQueue.DequeueFor` | externals/spdlog-lib/spdlog/details/mpmc_blocking_q.h:57-69 | Takes the oldest item, or fails exactly when there is none |
| `CircularQueue.SegmentTurns` | externals/spdlog-lib/spdlog/details/circular_q.h:31-35 | Writing the last free slot frees the oldest item's slot |
| `LogShutdown.TakenInOrder` | externals/spdlog-lib/spdlog/details/thread_pool.h:130-224 | In every run messages are dequeued in the order they were posted, each once, and the terminate messages after all of them |
| `LogShutdown.ActiveAreTerminatesLeft` | externals/spdlog-lib/spdlog/details/thread_pool.h:130-147 | The active workers always equal the terminate messages not yet dequeued |
| `LogShutdown.ShutdownCanStep` | externals/spdlog-lib/spdlog/details/thread_pool.h:130-147 | Until the destructor is done some thread can go on, if the queue has room for one message |
| `LogShutdown.RankFalls` | externals/spdlog-lib/spdlog/details/thread_pool.h:130-224 | Every step but a time-out, and but posting before the shutdown, lowers a rank |
| `LogShutdown.ShutdownIsBounded` | externals/spdlog-lib/spdlog/details/thread_pool.h:130-224 | From the start of the shutdown on the number of such steps is bounded by the rank |
| `LogShutdown.ShutdownEnds` | externals/spdlog-lib/spdlog/details/thread_pool.h:130-147 | A shutdown that has come to rest is done, with an empty queue |
| `LogShutdown.ShutdownLeadsToDone` | externals/spdlog-lib/spdlog/details/thread_pool.h:130-147 | From its start on every shutdown can be brought to its end, if the queue has room for one message |
| `LogShutdown.DoneMeansDrained` | externals/spdlog-lib/spdlog/details/thread_pool.h:130-224 | When the destructor is done, every message posted has been handled exactly once and the queue is empty |
| `LogShutdown.NoRoomNoEnd` | externals/spdlog-lib/spdlog/details/circular_q.h:19-23 | With a queue for no items the destructor never ends: it cannot post its first terminate message |
| `LogShutdown.RunKeepsInv` | externals/spdlog-lib/spdlog/details/thread_pool.h:130-224 | Queue, workers and history fit together in every state of every run |
| `LogShutdown.StepKeepsInv` | externals/spdlog-lib/spdlog/details/thread_pool.h:173-224 | Every step of the owner and the workers keeps that |
| `ClientConnection.CallbacksMatchPeers` | src/net64/client.cpp:54-188 | Over all calls and events: disconnect callbacks are peers created minus the live one; a live peer has a live host; per attempt the connect callback comes at most once and never after the disconnect callback |
| `ClientConnection.TickEndsOverdue` | src/net64/client.cpp:145-157 | A tick ends, with the callbacks due, exactly the attempt or disconnect that takes longer than was allowed, whatever events wait |
| `ClientConnection.FailureIsReported` | src/net64/client.cpp:54-98 | An attempt that fails at once is reported once, and leaves no peer |
| `ClientConnection.AttemptIsAnswered` | src/net64/client.cpp:54-188 | An attempt is answered: in time with success, later with the time-out and the end |
| `ClientConnection.DisconnectEnds` | src/net64/client.cpp:100-188 | A connection given up is over when the library reports it or its time is up, with the disconnect callback once |
| `ClientConnection.Client.Connect` | src/net64/client.cpp:54-98 | The three failures and the success of connect, with what each leaves behind |
| `ClientConnection.Client.Disconnect` | src/net64/client.cpp:100-121 | Aborts an attempt with both callbacks, starts the end of a connection, else does nothing |
| `ClientConnection.Client.Tick` | src/net64/client.cpp:145-188 | Time-outs first, then the events, the last one handled being the end of the connection |
| `ClientConnection.Client.Serve` | src/net64/client.cpp:161-187 | The event loop |
| `ClientConnection.EventsKeepInv` | src/net64/client.cpp:161-187 | Any plausible sequence of events keeps the callbacks in order |
| `ClientConnection.TimeoutsKeepInv` | src/net64/client.cpp:145-157 | Both time-outs keep the callbacks in order |
| `ClientConnection.StepKeepsInv` | src/net64/client.cpp:54-188 | Every call and every event does |

## Left out

- ENet, SDL, cereal, Qt, mem64 and the mupen64plus core are not part of this model; they appear as the assumptions above.
- `src/qt_gui`, the configuration wrappers and the loading of plugins and cores: user interface and foreign calls.
- f32 and f64 memory access: their bytes are copied without the index map of the integer accessors, and only at aligned addresses.
- The event handler list of SDL: removing its head does not update the first pointer, so the list invariant does not hold.
- `read_aligned` and `write_aligned`: the adjustment `offset += offset % size` does not align in general.
- The handler around `attach_plugins`: its callee is noexcept, so it is never entered.
- The lifetime of the condition variable on the stack of `start`: the model's start signal is one bit.
- The emulator, the ring and the thread pool are state machines on values, one step per access or per operation under a lock, since their point is the interleaving; in-place update and aliasing of those objects are not modelled.
- Locks of the log queue and of the emulator are steps of a state machine, not objects with waiting lists: spurious and lost wake-ups are not modelled.
- The server and the clients run interleaved event by event; the message loop of the server object is one call per event.
- `reset_all` and `disconnect_all` other than as single disconnects, moves of server and client, chat texts, logging.
- A client's roster after a reconnect: it is not cleared, so agreement is stated for one connection of a fresh client.
- Rosters of entries with id 0, which stand for players without handshake and are never removed.
- The game log reassembly in `game_logger.cpp`: each message appends its text up to the first zero, which adds no hard property.
- `operator<` of JSON values: its casts between signed and unsigned numbers break transitivity.
- The zeros of doubles are one number, and the order in which a map is traversed is left open.
- The other accessors, iterators, parsers and binary formats of the JSON library, and sinks and formatters of the log library.
- The overrun-oldest policy during shutdown: it may drop messages by design.
- Malformed entries longer than the configuration buffer are cut off as the core's copy is documented to do; the core is not part of this model.
