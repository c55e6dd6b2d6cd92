# A verified model of capnp-es

capnp-es is a TypeScript implementation of Cap'n Proto: a two-party RPC protocol, and the serialization
it runs on.  This project models the parts of both that carry state and proves what they are relied on
for.

## The RPC protocol

`ConnTables` gives the four tables of one connection (questions, answers, exports, imports) and what
every operation and message handler does to them, as functions from tables to tables and messages.
`ConnObject.Conn` is the same in the source's form, a class that updates its tables in place, and every
method is proved to do what the function says; `ConnLaws` says what those functions do without naming
them: which client each descriptor stands for, what a Return carries, what is given back, when the
connection aborts, when a Disembargo is sent.  `TwoVats` joins two such connections by two first-in
first-out channels; a run is any interleaving of calls, settlements, promise resolutions, closings and
deliveries by either side.  `References`, `Questions` and `TwoVatsSafety` prove an invariant of all runs,
from which follow: distributed reference counts are conserved, no message names a capability or an
answer that is gone when it arrives, every question is in exactly one phase, and no connection ever
aborts.  `TwoVatsRuns` states this and sums it up over whole runs: descriptors received are references held plus references
given back.  Messages carry history fields (`obj`, `serial`, `body`) that no handler branches on.

`OrderWorld` looks at one direction of the same protocol more closely: an importer calls references, an
exporter settles them, and the clients in between hold, forward and release calls, with the embargo
handshake.  `EOrder`, `EOrderSteps` and `EOrderRuns` prove that in every run calls on a reference stay in
the order they were issued although the path they take becomes shorter while they are under way;
`EOrderLosses` proves exactly which calls are lost.  `OrderAgrees` relates this world's tables to those of
`ConnTables`.
`PromiseClients`, `CallQueues` and `PendingCalls` give the client and queue classes in the source's form:
the ring buffer, the call queue, import and promise-export clients, the embargo client, `Fulfiller` and
`AnswerEntry`.

## Serialization

`Memory` has segments of 64-bit words with a bump allocator over a growing or a multi-segment arena, and
the bits of pointer words.  `Trees` says what a pointer means: the object behind near, far and double-far
pointers, and the tree it is the root of.  `MessageObject.Message` is a message updated in place:
allocation, pointer initialisation, erasure, deep copy, resizing and new objects, proved against that
meaning, with `Placement`, `Erasing`, `Copying`, `Resizing`, `Initial` and `Room` holding the lemmas; `Layout`
gives the places of fields, elements and structs bit by bit.  A
result that says no stands for an exception, and the contracts say when it may come.  `Traversal` is the
limit on pointer objects.  `Packing` is the run-length code and `Framing` the stream format and its
incremental decoder; their methods loop over buffers as the source does.

## What turned out not to hold

Each of these is a lemma with a concrete input or an exact condition.

- A promise export that resolves to an object of its own vat is replaced by the resolved client before
  the export table is searched, so it is announced through the first slot that is the object, its own
  included (`Hazards.PromiseFindsItselfIff`, `EOrderLosses.AnnouncedAsItselfIff`).  If that slot was
  itself handed over as a promise, the import it became resolves to itself, and every call on the promise
  that is made after the importer took in the resolution fails; if the slot was handed over as an object,
  every such call is sent to it and delivered.  So two promises that settle to one object are both lost
  (`EOrderLosses.LaterCallsAreLostIff`, with the run `EOrderLosses.CircularIsReachable`).
- A call refused before it is routed returns with `releaseParamCaps` left at true, although its
  capabilities were taken in: nothing is wrong while the Return is under way, and once it has been handled
  the counts are conserved if and only if the call carried no capability hosted by the caller
  (`Hazards.RefusalConserves`, `Hazards.RefusedCallInTurn`, `Hazards.RefusedCallDangles`).
- Resizing a struct moves its capability pointers like the others and spoils them: a pointer that stays in
  its segment keeps its id behind offset bits, and one that changes it becomes a far pointer
  (`Resizing.ResizeKeepsIff`, `Resizing.CapabilityIsLost`).
- A result that leads a waiting call to a capability without a client: settling empties the queue and then
  throws, and that call and those for higher indices are neither rejected nor delivered
  (`PendingCalls.SettledOnceIff`).
- A promise that was rejected goes on accepting calls and never answers them, in the local promise
  (`PendingCalls.LateCallsWaitForever`) and in the promise export
  (`EOrderLosses.LateCallsAreHeldForGood`).
- The packed size is not within two bytes for every 256 words, as the comment in
  `src/serialization/packing.ts:31-32` has it: the overhead is half a byte a word, attained by inputs of
  every odd length (`Packing.PackedIsShort`, `Packing.BoundIsAttained`).  What the comment says holds of words
  without a zero byte (`Packing.DenseGrowsByRuns`).
- A message with no segment yet gets one after its frame header is computed
  (`Framing.FrameOfNoSegments`).
- When a header is refused, the decoder throws and the frames the same push had cut off before it are lost
  (`Framing.ChunksDoNotMatter`, `Framing.CapnpFrameDecoder.Push`).
- Erasing a list of bits leaves its data in place (`Erasing.WipedAllButBits`).

## Model

| member | source | states |
|---|---|---|
| TwoVatsRuns.CountsConserved | src/rpc/conn.ts:705-833 | in every reachable state, for every export id of either vat: wireRefs = what the vat pins itself + descriptors in flight + the importer's refs + counts of Releases in flight |
| TwoVatsRuns.NothingDangles | src/rpc/conn.ts:598-607 | whatever is delivered before it, a Call or descriptor finds at its receiver an export that holds the client its sender meant, and every import is of the client in the exporter's slot |
| TwoVatsRuns.NeverAborts | src/rpc/conn.ts:405-417 | in every reachable state neither connection has raised a protocol error, and a Return about to be handled reaches the very question it answers |
| TwoVatsRuns.QuestionsInPhase | src/rpc/conn.ts:839-888 | an open question is in exactly one phase (call in flight, answer pending, one Return in flight), and a free id has nothing in flight and at most an answer whose Finish is under way |
| TwoVatsRuns.PipelinedCallsFindAnswers | src/rpc/conn.ts:609-631 | a pipelined call or a descriptor of a promised answer finds the entry of exactly its question when all that is ahead of it has been handled |
| TwoVatsRuns.IdTablesValid | src/rpc/conn.ts:782-871 | in every run the question and export tables are as long as their counters, with exactly the recycled slots empty and no id recycled twice |
| TwoVatsRuns.ImportEndsWithOneRelease | src/rpc/conn.ts:722-757 | closing the last reference of an import sends one Release for all it was handed, which the exporter's count still covers together with descriptors in flight |
| TwoVatsRuns.LiveWhileHeld | src/rpc/refcount.ts:40-66 | over every run an import lasts exactly as long as the application holds a reference to it: its count is the descriptors taken in minus the references closed |
| TwoVatsRuns.CloseKeepsWhatIsHeld | src/rpc/refcount.ts:61-66 | while more than one reference is held a close sends nothing and keeps the import |
| TwoVatsSafety.RunIsSafe | src/rpc/conn.ts:349-403 | the whole invariant (references and questions, in both directions) holds at the end of every run of two connections |
| TwoVatsRuns.ReceivedIsHeldOrReleased | src/rpc/conn.ts:705-757 | over every run, the descriptors a vat received for an import id are the references it holds plus those its Releases gave back, late resolutions included |
| TwoVatsRuns.EndedImportsOweNothing | src/rpc/conn.ts:1094-1103 | when the import is gone, its Releases amount to exactly the descriptors received; while it is there, the entry counts the rest |
| TwoVatsRuns.TurnBalances | src/rpc/conn.ts:705-757 | in each turn of a vat, what it holds and what it sends back grows by exactly what it received |
| TwoVatsRuns.TurnsAreRuns | src/rpc/conn.ts:349-403 | every sequence of possible turns is a run of the two-vat system |
| Hazards.RefusedCallConservesIff | src/rpc/conn.ts:561-577 | in any state in which the Return of a refused call is next, handling it keeps the counts if and only if the call's parameters carried no capability hosted by the caller |
| Hazards.RefusalConserves | src/rpc/conn.ts:561-577 | the refusal alone keeps the counts, whatever else is under way, and the receiver holds what the parameters brought |
| Hazards.ReturnConservesIff | src/rpc/conn.ts:419-436 | from any state with conserved counts, a Return that releases its parameters' capabilities keeps them conserved if and only if there were none |
| Hazards.RefusedCallInTurn | src/rpc/conn.ts:561-577 | the same when the caller handles what was ahead and then the Return |
| Hazards.RefusedCallDangles | src/rpc/conn.ts:174-178 | in a concrete reachable state the refusal frees an export the other vat still holds |
| Hazards.RefusalIsReachable | src/rpc/conn.ts:517-577 | that state ends a concrete run |
| Hazards.PipelinedOnRefusedAborts | src/rpc/conn.ts:609-621 | a call pipelined on a refused one aborts the connection, whatever arrives in between, unless a new question took the id |
| Hazards.PromiseFindsItselfIff | src/rpc/conn.ts:1205-1254 | a promise export resolved to a client of its own vat is found at its own slot if and only if no earlier slot is the same client |
| IdTables.IDGen.Next | src/rpc/idgen.ts:9-12 | hands out the id recycled last, and a new one only when none is |
| IdTables.IDGen.Remove | src/rpc/idgen.ts:13-15 | recycles an id |
| IdTables.AllocIsFresh | src/rpc/conn.ts:839-850 | allocating never overwrites a live entry and keeps every other slot and the table's validity |
| IdTables.DropRecycles | src/rpc/conn.ts:861-871 | dropping a live entry recycles its id exactly once, makes it the next id, and keeps every other slot |
| References.AddExportCounts | src/rpc/conn.ts:782-805 | exporting a client counts one more on a slot that is the same client, or opens a slot with one, and changes no other count |
| References.ExporterReceives | src/rpc/conn.ts:349-403 | handling a message that is not a Release keeps the reference invariant seen from the exporter |
| References.ExporterReleased | src/rpc/conn.ts:807-833 | handling a Release keeps the reference invariant seen from the exporter |
| References.ImporterReceives | src/rpc/conn.ts:639-749 | taking in what a message carries keeps the reference invariant seen from the importer |
| References.ImporterDiscards | src/rpc/conn.ts:1094-1139 | a late Resolve for a released promise is balanced by a Release |
| References.ImporterDrops | src/rpc/conn.ts:722-757 | closing a local reference keeps the reference invariant |
| Questions.CallerReceives | src/rpc/conn.ts:349-403 | a message that is not a Return leaves the caller's questions in step with the answers |
| Questions.CallerReturned | src/rpc/conn.ts:419-515 | handling a Return and sending its Finish keeps questions and answers in step |
| Questions.AnswererReceives | src/rpc/conn.ts:349-403 | a message that is not a Finish and opens nothing leaves the answers in step with the questions |
| Questions.AnswererFinishes | src/rpc/conn.ts:200-216 | handling a Finish keeps questions and answers in step |
| Questions.OpenQuestionPhase | src/rpc/question.ts:98-133 | an open question is in exactly one phase, and its Finish is not under way behind its call |
| Questions.FreeQuestionPhase | src/rpc/conn.ts:861-871 | nothing of a free question is in flight but its Finish |
| ConnTables.DescribeKeepsRest | src/rpc/conn.ts:1141-1196 | describing capabilities for a payload touches nothing but the export table |
| ConnTables.SendCallInOrder | src/rpc/import-client.ts:38-51 | writing the parameters before or after the question is entered gives the same tables and message |
| ConnLaws.DescribesEach | src/rpc/conn.ts:993-1010 | a payload's capability table has one descriptor for each client in the order of the clients, each naming the slot, import or question of that very client |
| ConnLaws.HostedIdsAre | src/rpc/conn.ts:1012-1020 | a payload is remembered by the ids of its senderHosted descriptors, in order, and no others |
| ConnLaws.CallIsSent | src/rpc/import-client.ts:38-51 | one Call with its own body, on an id no question has, to what the caller means, its parameters described one for one |
| ConnLaws.SettlementIsReturned | src/rpc/answer.ts:57-145 | the first settlement sends one Return, an exception if and only if it is a rejection, otherwise results described one for one; a second sends nothing |
| ConnLaws.BootstrapIsAnswered | src/rpc/conn.ts:180-198 | a Bootstrap is answered with an exception if and only if there is no main client or the id is in use, otherwise with the main client alone |
| ConnLaws.MainIsServed | src/rpc/conn.ts:156-198 | what a Bootstrap returns is the client initMain was given |
| ConnLaws.ResolutionIsAnnounced | src/rpc/conn.ts:1243-1265 | a settled promise export is announced by one Resolve, an error as an error and a client by a descriptor of that client |
| ConnLaws.ReleaseGivesBack | src/rpc/conn.ts:807-830 | a slot is freed exactly when no reference is left, and every other slot keeps its client and count |
| ConnLaws.FinishGivesBack | src/rpc/conn.ts:200-216 | a Finish forgets its answer, and gives back what the results are remembered by if and only if it says so |
| ConnLaws.ReturnIsFinished | src/rpc/conn.ts:419-515 | a Return closes its question alone, releases parameters if and only if it says so, takes in its results, and is finished with a release of results if and only if there are none; it aborts exactly for an unknown question or a descriptor of nothing here |
| ConnLaws.PopulateIffResolvable | src/rpc/conn.ts:639-703 | descriptors are taken in if and only if each that names something of the receiver's names something it has |
| ConnLaws.PromisesAre | src/rpc/conn.ts:705-720 | an import is a promise if and only if it was one or was handed over as one |
| ConnLaws.CallIsAccepted | src/rpc/conn.ts:517-591 | a Call aborts exactly when a descriptor names nothing here, its id is in use, or its method is known and its target is not there; otherwise it leaves a pending answer or is refused with an exception and leaves none |
| ConnLaws.ResolveIsHeard | src/rpc/conn.ts:257-299 | a Resolve of a promise import sends one Disembargo, with the embargo's id and that promise as target, if and only if the promise became one of the receiver's exports or answers, and nothing otherwise |
| ConnLaws.LateResolveIsReturned | src/rpc/conn.ts:218-255 | a Resolve nobody waits for changes no table and gives back exactly what it handed over |
| ConnLaws.OthersAreHandled | src/rpc/conn.ts:301-403 | Release, Abort, Unimplemented and Disembargo do what they say and nothing else |
| ConnLaws.CloseOne | src/rpc/refcount.ts:61-66 | a close that leaves a reference sends nothing and changes nothing but the number of references; the last ends the import with one Release of all that was handed over |
| ConnLaws.ReleaseImportBalances | src/rpc/conn.ts:722-749 | what is left of an import and what the Release says amount to what was there |
| ConnObject.Conn.AddExport | src/rpc/conn.ts:782-805 | the tables and id after exporting in place are those of the specification |
| ConnObject.Conn.ReleaseExport | src/rpc/conn.ts:807-833 | subtracts or frees in place as specified; the id goes back to the generator exactly when the count reaches zero |
| ConnObject.Conn.AddImport | src/rpc/conn.ts:705-720 | one more descriptor and reference on the import entry, which stays a promise once it was announced as one |
| ConnObject.Conn.ReleaseImport | src/rpc/conn.ts:722-749 | subtracts, or ends the import and sends one Release for all its refs |
| ConnObject.Conn.DropRef | src/rpc/refcount.ts:49-66 | closing a local reference does what `ConnTables.DropRef` says: only the last ends the import (`ConnLaws.CloseOne`) |
| ConnObject.Conn.PopulateMessageCapTable | src/rpc/conn.ts:639-703 | takes in all descriptors in order, or exactly those before the first that names something this vat does not have |
| ConnObject.Conn.NewQuestion | src/rpc/conn.ts:839-850 | a fresh question at a fresh id |
| ConnObject.Conn.PopQuestion | src/rpc/conn.ts:861-871 | removes the question and recycles its id, or changes nothing |
| ConnObject.Conn.InsertAnswer | src/rpc/conn.ts:875-882 | refuses an id in use |
| ConnObject.Conn.PopAnswer | src/rpc/conn.ts:884-888 | removes and returns the entry |
| ConnObject.Conn.MakeCapTable | src/rpc/conn.ts:993-1010 | describes every client in order and counts each export once for each mention |
| ConnObject.Conn.DescriptorForClient | src/rpc/conn.ts:1141-1196 | the descriptor and the export table it leaves, for each kind of client |
| ConnObject.Conn.Call | src/rpc/import-client.ts:25-56 | one Call on a fresh question with all parameters described, and nothing else sent |
| ConnObject.Conn.SendBootstrap | src/rpc/conn.ts:145-154 | one Bootstrap on a fresh question |
| ConnObject.Conn.Settle | src/rpc/answer.ts:57-166 | the first settlement sends exactly one Return, a second none |
| ConnObject.Conn.ResolveExportPromise | src/rpc/conn.ts:1243-1266 | one Resolve that describes what the promise turned out to be; the guard against a second settlement is in `OrderWorld` |
| ConnObject.Conn.HandleBootstrapMessage | src/rpc/conn.ts:180-198 | answers with the main client, with an exception when there is none, and refuses an id in use |
| ConnObject.Conn.HandleFinishMessage | src/rpc/conn.ts:200-216 | forgets the answer and gives back the result's exports when told to |
| ConnObject.Conn.HandleReleaseMessage | src/rpc/conn.ts:301-304 | gives back that many references |
| ConnObject.Conn.HandleCallMessage | src/rpc/conn.ts:517-591 | aborts, refuses or accepts exactly as specified, in the order of the source's checks |
| ConnObject.Conn.RouteCallMessage | src/rpc/conn.ts:593-637 | to the client in the target's export slot, to the result or the queue of the target answer, or nowhere when the target is not in the tables or is the call's own answer |
| ConnObject.Conn.HandleReturnMessage | src/rpc/conn.ts:419-515 | closes the question, takes in the results and sends one Finish, or aborts |
| ConnObject.Conn.HandleResolveMessage | src/rpc/conn.ts:218-292 | resolves a live promise once, with a Disembargo when it turned out to be hosted here, and gives back what a late one brought |
| ConnObject.Conn.DiscardResolvedCap | src/rpc/conn.ts:1094-1139 | one Release of one reference for a sender-hosted capability |
| ConnObject.Conn.HandleDisembargoMessage | src/rpc/conn.ts:306-335 | a request is echoed with its id and target, an echo is not |
| EOrderRuns.CallsStayInOrder | src/rpc/conn.ts:254-279 | E-order: in every reachable state and for every reference, calls delivered ++ on the way back ++ held at the exporter ++ on the way there ++ held under embargo = the calls issued, in order, minus those answered with an error |
| EOrderRuns.DeliveryFollowsIssue | src/rpc/import-client.ts:25-90 | of two calls delivered on a reference the one issued first is delivered first |
| EOrderRuns.QuietMeansDelivered | src/rpc/call-queue.ts:86-104 | once nothing is under way or held, every call was delivered or answered with an error |
| EOrderRuns.CallsReachTheResolution | src/rpc/promise-export-client.ts:17-35 | every delivered call reached what its reference settled to, by whichever path |
| EOrderLosses.FailuresAreExplained | src/rpc/promise-export-client.ts:17-43 | a call fails only for a full queue, a rejected promise, or because its reference settled to an object of the exporter and was led to an export of that object that was handed over as a promise and resolves to itself |
| EOrderLosses.LaterCallsAreLostIff | src/rpc/conn.ts:1243-1254 | when a promise settles to an object, every call made on it after its resolution was taken in fails if and only if the first export with that object, its own included, was handed over as a promise; otherwise it is sent to that export |
| EOrderLosses.SentCallsAreDelivered | src/rpc/promise-export-client.ts:17-25 | a call that reaches an export with an object is delivered to it |
| EOrderLosses.RunLinks | src/rpc/conn.ts:218-292 | in every state: a promise is announced once, the importer hears of it first as a promise, and an import led to a promise's import is led to one that resolves to itself |
| EOrderLosses.ToldForGood | src/rpc/conn.ts:218-292 | what the importer is told a promise is stays what it was told |
| EOrderLosses.LateCallsAreHeldForGood | src/rpc/promise-export-client.ts:17-43 | a call that reaches a promise export after its rejection is refused when the queue is full, and otherwise held and neither delivered nor answered in any later state |
| EOrderLosses.PathToImporterIsSafe | src/rpc/conn.ts:254-279 | a promise that settles to the importer's own capability loses no call but to a full queue |
| EOrderRuns.EmbargoesAreAnswered | src/rpc/conn.ts:306-329 | while an embargo stands, exactly one Disembargo for it is in a channel, and table and client agree on it |
| EOrderRuns.ShortPathIsClear | src/rpc/import-client.ts:75-90 | where no embargo is left, no call is on the long way, so new calls may take the short one |
| EOrderRuns.RunIsOk | src/rpc/conn.ts:218-335 | the invariant behind these holds in every state of every run |
| EOrderLosses.AnnouncedAsItselfIff | src/rpc/conn.ts:1205-1254 | settling to an object of the exporter is announced as the promise itself if and only if no earlier export is that object |
| EOrderLosses.CircularCallsFail | src/rpc/import-client.ts:58-65 | every call on an import that resolves to itself fails, in every reachable state |
| EOrderLosses.CircularIsReachable | src/rpc/conn.ts:1205-1254 | a concrete run that gets there |
| EOrderSteps.LiftKeeps | src/rpc/conn.ts:318-329 | lifting an embargo keeps the structural invariant |
| EOrderRuns.ActKeeps | src/rpc/conn.ts:218-335 | every action of either side keeps the invariant |
| OrderAgrees.ResolvedAlike | src/rpc/conn.ts:218-292 | a Resolve to an error, to an import, or to one of the receiver's exports or answers changes the imports of both models alike, and both send the same Disembargo or give a late one back |
| OrderAgrees.TakenInAlike | src/rpc/conn.ts:639-720 | descriptors bring both models the same imports |
| OrderAgrees.FoundAlike | src/rpc/conn.ts:782-805 | both announce an object through the same slot, or both through a new one when no slot is the object, which may be a recycled one |
| OrderAgrees.EchoedAlike | src/rpc/conn.ts:306-334 | a Disembargo that asks for an echo comes back with its id and target in both models, on either side, and an echo is not answered |
| OrderAgrees.SettlementIsAnnounced | src/rpc/conn.ts:1243-1254 | settling a promise sends one Resolve that names what it was settled to, behind the calls that were held, and settling it again does nothing |
| OrderAgrees.ErrorIsAnnounced | src/rpc/conn.ts:1256-1265 | settling it to an error fails the calls held and sends one Resolve to the error |
| OrderAgrees.OwnIsHandedOver | src/rpc/conn.ts:782-805 | an object goes out through the first export that is it, and gets a new one only if there is none |
| PromiseClients.ImportClient.Call | src/rpc/import-client.ts:25-56 | refuses, holds, passes on or sends as specified, and a call passed on is the only one its resolution receives |
| PromiseClients.ImportClient.SetResolved | src/rpc/import-client.ts:58-65 | sets the resolution and nothing else |
| PromiseClients.ImportClient.ActivateEmbargo | src/rpc/import-client.ts:75-77 | from now on calls are held |
| PromiseClients.ImportClient.LiftEmbargo | src/rpc/import-client.ts:79-90 | only the right echo lets the held calls through, all of them, in order |
| PromiseClients.ImportClient.Close | src/rpc/import-client.ts:92-101 | the first closing rejects the held calls, a second nothing |
| PromiseClients.PromiseExportClient.Call | src/rpc/promise-export-client.ts:17-25 | holds calls until resolved, then passes them on |
| PromiseClients.PromiseExportClient.Resolve | src/rpc/promise-export-client.ts:27-35 | the held calls go to the resolution, in order, before any later call |
| PromiseClients.PromiseExportClient.Reject | src/rpc/promise-export-client.ts:41-43 | the held calls are rejected, and the client is otherwise as before |
| PromiseClients.PromiseExportClient.Close | src/rpc/promise-export-client.ts:45-52 | the first closing rejects the held calls |
| PromiseClients.HeldUpToTheLimit | src/rpc/call-queue.ts:61-77 | both clients hold up to sixty-four calls, and refuse the next |
| PromiseClients.LiftedByItsOwnEcho | src/rpc/import-client.ts:79-90 | the echo of its own embargo and no other lets the held calls go, and no call is held after it |
| PromiseClients.ImportClosedForGood | src/rpc/import-client.ts:25-101 | the first close turns away every held call; afterwards every call is refused and nothing opens the client again |
| PromiseClients.ExportClosedForGood | src/rpc/promise-export-client.ts:17-52 | the same for the exporter's client |
| CallQueues.AtInjective | src/rpc/queue.ts:26-34 | distinct offsets in the ring are distinct positions |
| CallQueues.HeldAppend | src/rpc/queue.ts:26-34 | writing the reserved slot appends to the sequence the ring stands for |
| CallQueues.HeldDropFirst | src/rpc/queue.ts:44-52 | clearing the first slot drops the first of the sequence |
| CallQueues.Queue.Push | src/rpc/queue.ts:26-34 | the slot after the last, or none when full |
| CallQueues.Queue.Front | src/rpc/queue.ts:36-42 | the slot of the first |
| CallQueues.Queue.Pop | src/rpc/queue.ts:44-52 | drops the first |
| CallQueues.CallQueue.constructor | src/rpc/call-queue.ts:35-47 | the queue holds the initial calls, with room for all of them |
| CallQueues.CallQueue.PushSlot | src/rpc/call-queue.ts:125-132 | appends unless the bounded queue is full |
| CallQueues.CallQueue.FlushTo | src/rpc/call-queue.ts:86-104 | every call goes to the target and every echo to its handler, first in first out, and the queue is empty |
| CallQueues.CallQueue.RejectAll | src/rpc/call-queue.ts:106-119 | every call is rejected in order |
| CallQueues.CallQueue.Copy | src/rpc/call-queue.ts:121-123 | an independent queue with the same contents and capacity |
| CallQueues.CallsAndEchoes | src/rpc/call-queue.ts:86-104 | calls and echoes together are all slots, each once |
| PendingCalls.SplitIsPartition | src/rpc/fulfiller/fulfiller.ts:140-163 | every waiting call is either for no capability or for exactly one, whatever the result holds |
| PendingCalls.SplitKeepsOrder | src/rpc/answer.ts:171-219 | two calls for one capability reach it in the order they were made |
| PendingCalls.AcceptedAreSettledOnce | src/rpc/fulfiller/fulfiller.ts:44-126 | in every history the accepted calls are those still waiting, those rejected, or those that waited when the result came |
| PendingCalls.AcceptedAreDeliveredOnce | src/rpc/fulfiller/fulfiller.ts:44-68 | once there is a result, each accepted call was rejected once or is among the calls for exactly one capability |
| PendingCalls.LateCallsWaitForever | src/rpc/fulfiller/fulfiller.ts:100-126 | after a rejection a later call enters the queue while that has room, and none is ever settled |
| PendingCalls.Fulfiller.PipelineCall | src/rpc/fulfiller/fulfiller.ts:100-126 | queues a call exactly when there is no answer and the queue has room |
| PendingCalls.Fulfiller.EmptyQueue | src/rpc/fulfiller/fulfiller.ts:140-163 | splits the queue by capability, losing none for lack of room, and rejects the rest |
| PendingCalls.Fulfiller.TryFulfill | src/rpc/fulfiller/fulfiller.ts:44-68 | the first settlement rejects the calls for no capability, and each client gets, in order, the calls for every index that is this client, up to the first index with calls and no client; throws exactly when there is such an index; a second changes nothing |
| PendingCalls.Fulfiller.TryReject | src/rpc/fulfiller/fulfiller.ts:76-88 | the first rejects all waiting calls in order |
| PendingCalls.AnswerEntry.QueueCall | src/rpc/answer.ts:222-240 | queues or throws when full |
| PendingCalls.AnswerEntry.EmptyQueue | src/rpc/answer.ts:171-219 | splits the queue by capability and rejects calls for none |
| PendingCalls.AnswerEntry.Fulfill | src/rpc/answer.ts:57-122 | the same for the answer table's entry, which also throws on a second settlement |
| PendingCalls.SendAll | src/rpc/answer.ts:100-116 | the queues go out from the lowest index on, each whole, up to one that has no client, where it throws |
| PendingCalls.EachIsDeliveredOnce | src/rpc/answer.ts:100-116 | what the clients get in all is each call for an index the queues went out to once, whichever entries are the same client |
| PendingCalls.SettledOnceIff | src/rpc/fulfiller/fulfiller.ts:44-68 | each waiting call is rejected or delivered once if and only if every capability a waiting call leads to has a client in the table; none is ever settled twice |
| PendingCalls.AnswerEntry.Reject | src/rpc/answer.ts:124-166 | every waiting call is rejected in order |
| PendingCalls.EmbargoClient.Call | src/rpc/fulfiller/embargo-client.ts:41-51 | a call waits behind those held back, and goes straight on when there is none |
| Memory.AllocIsSafe | src/serialization/segment.ts:51-72 | the region is in bounds, zero, all that is new, and nothing allocated before changes |
| Memory.AllocationsAreSafe | src/serialization/message.ts:406-425 | over any sequence of allocations in either arena the regions are in bounds, zero and pairwise disjoint, and nothing allocated before changes |
| Memory.AllocGoesWhere | src/serialization/segment.ts:51-72 | the region is in the segment asked for, directly behind what is used, whenever there is room, and otherwise in the segment that grows or is added |
| MessageObject.Message.AllocateSegment | src/serialization/arena/single-segment-arena.ts:34-53 | regrows the only segment or appends one, and fails exactly when that would be too long or too many |
| MessageObject.Message.Allocate | src/serialization/segment.ts:51-72 | what `Memory.Alloc` says; fails if and only if the segment is full and the arena cannot come up with room |
| Room.AllocFailsIff | src/serialization/arena/multi-segment-arena.ts:30-38 | an allocation fails if and only if the segment is full and the arena cramped |
| Memory.NearReads | src/serialization/pointers/pointer.utils.ts:516-535 | type and signed offset of a struct or list pointer read back |
| Memory.FarReads | src/serialization/pointers/pointer.utils.ts:788-799 | kind, offset and segment of a far pointer read back |
| Memory.StructHiReads | src/serialization/pointers/pointer.utils.ts:866-880 | both sizes of a struct pointer read back |
| Memory.ListHiReads | src/serialization/pointers/pointer.utils.ts:834-860 | element size and length of a list pointer read back |
| Layout.PointerFields | src/serialization/pointers/pointer.utils.ts:480-560 | a pointer word as one 64-bit number has the fields of the encoding: type, offset in two's complement, sizes or length, and those of a far pointer |
| Placement.LeadsReads | src/serialization/pointers/pointer.utils.ts:434-472 | near, through a landing pad or a double one, following the pointer reaches the content placed |
| Placement.StructReadsBack | src/serialization/pointers/pointer.utils.ts:661-699 | a struct pointer reads back with location and size, in all three forms |
| Placement.ListReadsBack | src/serialization/pointers/pointer.utils.ts:595-626 | a list pointer reads back with location, element size and length, a composite one as its tag says |
| Placement.OffsetFits | src/serialization/pointers/pointer.utils.ts:661-699 | the offset written fits its 30-bit field |
| MessageObject.Message.InitPointer | src/serialization/pointers/pointer.utils.ts:661-699 | the pointer leads to the content, landing pads are new words, nothing else changes; fails only for want of two words |
| Trees.ReadSame | src/serialization/pointers/pointer.utils.ts:434-472 | a tree reads the same in any memory that keeps the words it looks at |
| MessageObject.Message.Erase | src/serialization/pointers/pointer.utils.ts:242-345 | ends on any memory, cyclic pointers included; a tree whose parts are apart and which is within the depth limit is wiped and nothing else changes |
| MessageObject.Message.EraseAll | src/serialization/pointers/pointer.utils.ts:262-275 | the same for the pointers of an object |
| MessageObject.Message.ErasePointer | src/serialization/pointers/pointer.utils.ts:353-371 | exactly the pointer and its landing pads are zero |
| MessageObject.Message.ZeroWords | src/serialization/segment.ts:124-136 | exactly the words given are zero; fails exactly when one is outside its buffer |
| Erasing.WipedAllButBits | src/serialization/pointers/pointer.utils.ts:277-331 | erasing a tree wipes all its words but exactly the data of its bit lists |
| Erasing.ApartSame | src/serialization/pointers/pointer.utils.ts:242-345 | a tree whose parts are apart stays so when other words change |
| MessageObject.Message.CopyFrom | src/serialization/pointers/pointer.utils.ts:191-229 | ends on any source; what was not part of the old destination tree is unchanged; a sound source is read back at the destination as the same tree in new words; fails on a sound source only at a depth limit or for want of room |
| MessageObject.Message.CopyFromStruct | src/serialization/pointers/pointer.utils.ts:1057-1105 | the same for a struct under a null destination |
| MessageObject.Message.CopyFromList | src/serialization/pointers/pointer.utils.ts:945-1055 | the same for a list of any element size; of a list of plain elements every element is copied, bit for bit |
| Layout.ListWordsAreLeast | src/serialization/pointers/pointer.utils.ts:129-155 | a list of elements of 0, 1, 8, 16, 32 or 64 bits takes the least number of words that holds them |
| Layout.ElementInside | src/serialization/pointers/pointer.utils.ts:1027-1040 | every bit of every element lies in the list's words |
| Layout.SameElements | src/serialization/pointers/pointer.utils.ts:1027-1050 | a list and its copy have every bit of every element in memory and in common |
| Layout.StructData | src/serialization/pointers/pointer.utils.ts:458-469 | in a composite list struct i starts i times the size of a struct behind the tag, with its data first |
| Layout.StructPointers | src/serialization/pointers/pointer.utils.ts:458-469 | and its pointers behind its data |
| MessageObject.Message.CopyFromInterface | src/serialization/pointers/pointer.utils.ts:921-943 | the copy leads to the same client through a new entry of the capability table, and to null when there is no client |
| MessageObject.Message.CopyPointers | src/serialization/pointers/pointer.utils.ts:1078-1093 | every pointer of an object is copied to its own place, none disturbing another |
| MessageObject.Message.CopyWords | src/serialization/segment.ts:104-114 | exactly that many words are copied, in place |
| Copying.OtherTreesStay | src/serialization/pointers/pointer.utils.ts:191-229 | a tree apart from the old destination reads the same after the copy |
| Copying.CopyStandsAlone | src/serialization/pointers/pointer.utils.ts:191-229 | source and copy read the same and share no word |
| Copying.StructBuilt | src/serialization/pointers/pointer.utils.ts:1101-1104 | a struct in new words, pointed to, reads as its data and the trees under its pointers |
| Copying.ListBuilt | src/serialization/pointers/pointer.utils.ts:1046-1055 | the same for lists, composite ones with their tag |
| Copying.ContentAllocated | src/serialization/pointers/pointer.utils.ts:976-1012 | the data and pointers of a composite list cover its content |
| MessageObject.Message.Resize | src/serialization/pointers/struct.utils.ts:182-252 | for a struct whose trees do not lead back to it: of its data and the trees under its pointers what the new size has room for is kept, whatever far forms there were, except that capability pointers are spoilt; added fields are zero and null, the old body is zero, nothing else changes; fails only for want of room |
| Resizing.ResizeKeepsIff | src/serialization/pointers/struct.utils.ts:182-252 | the resized struct reads as the old one cut or filled to its new size if and only if no pointer it kept is a capability; otherwise it has a capability pointer without an id |
| Resizing.CapabilityIsLost | src/serialization/pointers/struct.utils.ts:233-244 | a capability pointer moved like the others becomes a far pointer or gets offset bits that are not zero, so `getCapID` (`src/serialization/pointers/interface.ts:74-79`) finds no id |
| Resizing.ResizeDone | src/serialization/pointers/struct.utils.ts:221-252 | moved pointers and a cleared old body make the resized struct |
| Resizing.MovedOne | src/serialization/pointers/struct.utils.ts:221-246 | a pointer rewritten at its new place leads to the same tree, through the old content and new landing pads only |
| Resizing.ApartIsDetached | src/serialization/pointers/struct.utils.ts:182-252 | a tree whose parts are apart does not lead back to its struct |
| MessageObject.Message.InitStruct | src/serialization/pointers/struct.utils.ts:111-124 | a struct of zeros and nulls of the size given, in new words; what was there is erased |
| MessageObject.Message.InitList | src/serialization/pointers/list/list.ts:389-446 | a list of zeros or nulls of the kind and length given, composite ones with tag; every element of a plain one is in allocated memory and zero |
| Layout.NewElements | src/serialization/pointers/list/list.ts:395-410 | a list of zero words has all its elements in allocated memory, and they are zero |
| Traversal.Budget.NewPointer | src/serialization/pointers/pointer.ts:59-82 | which of its checks a pointer fails, in order, and what it costs |
| Traversal.Budget.TrackPointerAllocation | src/serialization/pointers/pointer.utils.ts:1116-1122 | eight off the limit, which must stay positive |
| Traversal.FewPointers | src/serialization/pointers/pointer.utils.ts:1116-1122 | fewer than an eighth of the limit are ever built, and exactly (limit - 1) / 8 of requests that are fine in themselves |
| Traversal.ReadyIff | src/serialization/pointers/pointer.ts:59-82 | a pointer is built if and only if it is above the depth limit, more than its cost is left, and it lies within its segment or just behind it |
| Packing.GetTagByte | src/serialization/packing.ts:75-97 | bit i is set exactly when byte i is not zero |
| Packing.GetHammingWeight | src/serialization/packing.ts:52-58 | the shift-and-mask steps count the bits set |
| Packing.GetZeroByteCount | src/serialization/packing.ts:153-173 | the number of zero bytes |
| Packing.MaskFacts | src/serialization/packing.ts:52-97 | a tag tells how many bytes follow, and is 0 or 255 exactly for zero and dense words |
| Packing.UnpackedOfPacked | src/serialization/packing.ts:191-328 | whatever follows packed words is unpacked as if it stood alone |
| Packing.RoundTrip | src/serialization/packing.ts:340-398 | unpack(pack(a) ++ pack(b)) = a ++ b for all word-aligned a and b |
| Packing.LengthIsMeasured | src/serialization/packing.ts:107-137 | on every byte string the measured length is the length unpacked |
| Packing.PackedIsShort | src/serialization/packing.ts:204-325 | 2·\|packed\| <= 17n + 3 for n words, and 17n when the first has two zero bytes |
| Packing.BoundIsAttained | src/serialization/packing.ts:204-325 | equality for an input of every odd length |
| Packing.ZerosPackToRuns | src/serialization/packing.ts:204-325 | zero words pack to two bytes for every 256 of them or part of that |
| Packing.DenseGrowsByRuns | src/serialization/packing.ts:204-325 | words without a zero byte grow by two bytes for every 256 of them or part of that |
| Packing.Pack | src/serialization/packing.ts:191-328 | the loop with its tag, run and span state computes the packed form of the stretch given, and throws exactly on a buffer that is not word aligned |
| Packing.GetUnpackedByteLength | src/serialization/packing.ts:107-137 | on every byte string the length of what it unpacks to |
| Packing.Unpack | src/serialization/packing.ts:340-398 | on every byte string, malformed ones included, fills a buffer of the measured length exactly |
| Packing.ReadWord | src/serialization/packing.ts:378-394 | the bytes of one word from its tag, zeros past the end of the source |
| Packing.MissingAreZero | src/serialization/packing.ts:378-394 | bytes a tag stands for but that are missing from the input read as zeros, however many |
| Packing.MissingFromSpan | src/serialization/packing.ts:340-398 | and so do bytes missing from a span |
| Framing.HeadersAgree | src/node/index.ts:75-89 | writer, reader and decoder compute the same header length for every segment count |
| Framing.FrameRoundTripIff | src/serialization/message.ts:292-335 | a written frame reads back as each segment's allocated bytes if and only if there are at most 512 segments |
| Framing.FrameOfNoSegments | src/serialization/message.ts:538-567 | a message without a segment is written as one empty segment although a word follows |
| Framing.PackedMessageUnpacks | src/serialization/message.ts:569-599 | a message packed piece by piece unpacks to the message written, with or without segments |
| Framing.CutInTwo | src/node/index.ts:56-98 | cutting what came first and then the rest is cutting everything |
| Framing.NothingLost | src/node/index.ts:56-98 | frames and pending bytes are all the bytes received |
| Framing.ChunksDoNotMatter | src/node/index.ts:56-98 | for every stream and every way of cutting it into chunks: refused exactly when the whole is, and otherwise the same frames and pending bytes as the whole |
| Framing.RefusedAtChunk | src/node/index.ts:56-98 | of a refused stream exactly those frames come out that are complete before the chunk whose push meets the refused header |
| Framing.DecoderReadsWriter | src/node/index.ts:56-98 | messages written one after another and received in any chunks come out one by one, nothing left over |
| Framing.GetStreamFrame | src/serialization/message.ts:609-627 | the loop writes the header the reader expects |
| Framing.LittleEndian | src/serialization/message.ts:609-627 | 32-bit numbers are written and read with the lowest byte first |
| Framing.ToArrayBuffer | src/serialization/message.ts:538-567 | header and segments in one buffer, with the segment a message without any gets after its header |
| Framing.ToPackedArrayBuffer | src/serialization/message.ts:569-599 | the same, each piece packed by itself; throws exactly when a segment's buffer is not word aligned |
| Framing.GetFramedSegments | src/serialization/message.ts:292-335 | the segments of any byte string, or the error it deserves |
| Framing.SegmentsIff | src/serialization/message.ts:292-335 | any bytes read as segments if and only if there are at most 512 and header and table ask for no more than is there, and then as the bytes behind the header, each segment as long as the table says; otherwise which error |
| Framing.RefusedIff | src/node/index.ts:70-73 | the decoder refuses a header exactly when it announces more than 4096 segments |
| Framing.CapnpFrameDecoder.Push | src/node/index.ts:56-98 | exactly the complete frames of pending ++ chunk, and the rest stays pending; a refused header throws and loses those frames |

## Left out

- Sockets, backpressure, abort signals, finalization: I/O and runtime; closing a reference is a
  nondeterministic action, a handler is one atomic step.
- The compiler, generated accessors, text, floats, `Data`, debug output: they would only add easy members.
- Question cancellation and closing a root pipeline (`src/rpc/question.ts:81-96`,
  `src/rpc/question.ts:189-204`): the table invariants do not hold through them as written.
- Tail calls, whose results are sent elsewhere (`src/rpc/answer.ts:68-74`).
- Shutdown beyond the `closed` flag, and sends that fail.
- Calls refused before routing are not part of the runs of `TwoVats`; `Hazards` says what they break and
  exactly when.
- Recycling a promise export's id while its question is pending, and closing an import while the echo of
  its Disembargo is in flight.
- Methods that call back into the same client while its queue is being flushed.
- Level 3 messages.
- `OrderWorld` keeps references and questions open, models one direction, and settles a promise to an object
  or to an export or answer of the importer, not to another promise.  What an answer's queue does with the
  calls that reach it is in `PendingCalls`.
- A client of another connection is not modelled; `normalize` is an arbitrary function in `TwoVats` and
  the settled object in `OrderWorld`.
- `ConnObject.Conn` takes the id of an embargo as a parameter; the table of embargoes is in `OrderWorld`.
- `QueueClient` is not modelled: it is the embargo client's queue with echoes of Disembargoes in it, which
  `CallQueues` has.
- PendingCalls.AnswerEntry.Fulfill: the Return, and an error from writing it that is thrown at the end, are
  left out; `ConnObject.Conn.Settle` has the Return.
- PromiseClients.ImportClient.SetResolved: closing an earlier resolution is not modelled, nor that of a
  client handed to a closed import.
- PromiseClients.ImportClient.Close: closing the resolution and releasing the import are not modelled here;
  the release is `ConnObject.Conn.DropRef`.
- PromiseClients.PromiseExportClient.Resolve: closing an earlier resolution is not modelled.
- PromiseClients.PromiseExportClient.Close: closing the resolution is not modelled.
- ConnObject.Conn.ReleaseExport: closing the client and deleting the promise's entry are not modelled.
- ConnObject.Conn.ReleaseImport: forgetting the client's embargo is not modelled.
- ConnObject.Conn.DropRef: counts the references that are open; the flag by which one reference closes once
  is not modelled, nor rejecting what the client holds.
- ConnObject.Conn.HandleDisembargoMessage: lifting the embargo when the echo arrives is in `OrderWorld`.
- ConnObject.Conn.ResolveExportPromise: does not have the settled flag, so that runs may announce a promise
  more than once; `OrderWorld` has it.
- ConnObject.Conn.HandleCallMessage: after an abort only the abort itself is stated, not how far the
  tables had come.
- ConnObject.Conn.HandleReturnMessage: the same after an abort.
- ConnObject.Conn.HandleResolveMessage: the same after an abort; the client's resolution is in `OrderWorld`.
- Packing.Pack: asks for a whole number of words; the source checks only the buffer.
- MessageObject.Message.AllocateSegment: a segment that would reach 2^31 bytes is refused, where the source
  may go on.
- MessageObject.Message.Allocate: the same.
- Room.AllocFailsIff: the same.
- Segments of 2^31 bytes and more, where offsets wrap in 32-bit operators.
- Words are 64-bit patterns: that copying a word as a Float64 could change a NaN's bits, or that negative
  zero compares equal to zero, is not modelled.
- A landing pad or content outside the allocated words of a segment is malformed in the model, while the
  source reads any word of the buffer.
- MessageObject.Message.CopyFrom: structs inside composite lists as source or destination are left out,
  and from an unsound source only termination and what stays unchanged are stated.
- MessageObject.Message.Erase: of trees that share words only termination is stated.
- MessageObject.Message.Resize: structs inside composite lists, or with a tree that leads back into the
  struct, are left out.
- A capability pointer reads as its client only if the bits between its type and its id are zero, as
  `getCapID` has it; struct accessors (`src/serialization/pointers/struct.utils.ts:161-171`) do not look.
- `Orphan`, `relocateTo`, `disown` and `adopt` on their own, and the upgrade of a list to a composite one in
  `getList`.
- The traversal limit is modelled by itself, not charged to the operations of `MessageObject.Message`.
- The depth limit of the source and of the destination are separate parameters of copying.
