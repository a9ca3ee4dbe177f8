# A verified model of the collaborative editor

The program is a text editor for several users with one server. Each client edits its own copy at once, sends
its edits one at a time, and rewrites incoming edits against the ones the server has not acknowledged; the server
rewrites each incoming edit against the edits it has logged since, applies it, and tells everyone. The model covers
that protocol end to end, the lock-free queue that carries commands to the server's document thread, the framing of
messages on a connection, and the editor widget's own copy of the text.

`dafny verify dfyconfig.toml` checks everything.

## How it is organised

| files | part of the program |
|---|---|
| `Operations`, `Transformation`, `Uint32` | operations, `transform` and `apply`, over integers and over 32-bit fields |
| `Utf8`, `Alignment` | UTF-8 character boundaries (RFC 3629) and operations that keep to them |
| `Rebase` | the server's and the client's rewriting loops, and the list diamonds |
| `Document`, `Session`, `Client` | the classes `Document`, `DocumentSession`, `LocalDocument`, `OTController`, each method tied to a function on values |
| `Messages`, `Network`, `Invariant`, `Preservation`, `Convergence` | server, clients and channels as one transition system; its invariant and what follows from it |
| `ServerSteps` | the session's handlers carry out the steps of the network's server |
| `Refusal`, `Misdelivery`, `Scenarios` | submissions the server refuses, acknowledgements that reach the wrong connection, and runs that lead to either |
| `ConcurrentDeletes` | the union law for concurrent deletes |
| `MpscQueue`, `MpscInvariant`, `MpscPreservation`, `MpscSafety`, `MpscReclaim`, `MpscProgress` | the queue as interleaved atomic steps, the reclaiming loop, and what a call achieves |
| `Framing` | frames, the single-writer queue of a connection, stream reassembly |
| `Unicode`, `Editor`, `EndToEnd` | UTF-16 and UTF-8 offsets, the widget's copy of the text, and its join with the protocol |
| `Cursors` | cursor translation and the remote cursors |

The network of `Network` is built from the very functions the class methods are proved against: `Documents.Serve`
(`Document.ApplyWithOt`), `Messages.MessageFor` (`DocumentSession.HandleOperation`), `Clients.EditAll`,
`Clients.Acknowledge` and `Clients.Receive` (`OTController`); `ServerSteps` shows that the session object's handlers
are the network's server steps, message for message. A run is any list of enabled actions: local edits, the
server taking a submission, a client receiving a message, users joining and leaving, changes of the history limit.
`Reading` selects what counts as a valid edit: any in-bounds edit of bytes, or edits of UTF-8 text between characters;
the invariant is proved once for both.

Commands reach the document thread through a pool of workers (server/src/main.cpp:93-97), so the order in which one
connection sends them is not the order in which they are queued. Two operations of one client still keep their order,
because a client has at most one in flight (`Invariant.InFlight`). A leave may overtake an operation: the submission
is then an orphan, which the server takes or drops at any later moment (`Network.TakeOrphan`, `Network.DropOrphan`).
Once queued, commands are one sequence, taken in that sequence (`MpscSafety.LinearizableFifo`). On the way back
`Framing.InOrderDelivery` keeps the server's messages in order, however the stream is cut.

## Assumptions

- Users connected at the same time have different ids. `DiamondExactly` says what happens otherwise.
- A local edit lies within the client's document (and, in the UTF-8 reading, between characters, inserting
  UTF-8). `TypingIsAnEdit` shows that the editor widget only sends such edits.
- A client sends one operation per message, as `OTController::sendOp` does, and editors keep their role.
- Joining is one atomic step. The program reads content and revision before it queues the join command
  (server/src/message_handler.cpp:201-225), so operations processed in between can be missed, and an operation the
  new client sends may be queued in front of its join; the model does not cover that window.
- `NeverMisdelivers`: no orphan is accepted while its user is connected again. This is a real restriction: the
  second finding below shows what happens otherwise. What needs no such assumption is proved without it
  (`Preservation.RunKeepsWindow`, `Refusal.RefusedExactlyWhenTooFarBehind`).
- Positions, lengths and revisions are unbounded; `Uint32` relates them to the 32-bit fields.
- Atomic accesses of the queue are sequentially consistent.

## Findings

- **An emptied delete can erase a document.** A delete emptied by a concurrent delete keeps its position, and a later
  delete around it subtracts its full length from that position (core/src/ot.cpp:64-69). Over integers this is
  harmless. In `uint32_t` the position wraps, and the cast at core/src/ot.cpp:58-59 then turns the no-op into a delete
  of almost 2^32 bytes from the start of the document. `Uint32.EmptyDeleteGrows` gives three logged deletes, valid on
  every document of at least 12 bytes, after which the program erases everything that was left.
  `Uint32.RewriteFitsUint32` and `Uint32.RebaseFitsUint32` say exactly when the two loops compute the unbounded result:
  as long as no empty delete meets a delete that starts before it and is longer than its position. (One stranded by the
  last delete it meets has a wrong position, but is still a no-op; the damage takes a further delete.)
- **A user who rejoins too early loses an edit.** An operation that is still in the worker pool when its user leaves
  is processed later. If the user has joined again by then and the operation is accepted, the acknowledgement goes to
  the new connection (server/src/document_session.cpp:127-128, 173-186), which takes it for its own and moves to the new
  revision without the edit: `Scenarios.RejoiningMissesOwnEdit`. A new client with nothing of its own under way misses
  the edit if and only if concurrent operations have not emptied it on the way
  (`Misdelivery.RejoinedConvergesExactly`). The invariant of the protocol breaks in either case, unless the client waits
  for a refused submission that would have been logged as the same edit (`Misdelivery.OrphanKeepsInvExactly`). If the
  operation is refused, the error goes to the new connection as well, and the program closes its window although
  nothing it sent was refused; no copy changes (`Preservation.RefusalKept`).
- **A refused client never catches up.** A submission is refused exactly when more operations than the history limit
  were logged since its revision (`Refusal.RefusedExactlyWhenTooFarBehind`), and with every history limit some run
  leads to that (`Scenarios.RefusalHappens`). A client is left waiting by such a refusal and by nothing else
  (`Refusal.StepDecidesRefusal`), and until its user leaves no step ends the waiting (`Refusal.RefusedWaitsForEver`),
  except the misdelivered acknowledgement of the second finding (`Misdelivery.OrphanEndsWaiting`); its copy still is
  the server's document followed by its own edits (`Convergence.CopiesMirrorServer`). The program's remedy is to close
  the window (client/src/editor_window.cpp:284-287), which gives those edits up.

## Model

| member | source | states |
|---|---|---|
| Operations.EntryRoundTrip | client/src/ot_controller.cpp:13-34 | an operation sent as an entry and decoded makes the same edit and encodes to the same entry |
| Transformation.TransformSwaps | core/src/ot.cpp:83-100 | the result does not depend on which of the two operations comes first |
| Transformation.NoopIsNeutral | core/src/ot.cpp:6-100 | a no-op changes nothing in the other operation and stays a no-op, wherever it points |
| Transformation.TransformKeepsShape | core/src/ot.cpp:6-100 | kind, user, revision and the length of inserts survive rewriting |
| Transformation.DiamondInsertDelete | core/src/ot.cpp:26-48 | an insert and a delete, rewritten against each other, fit and lead to one document |
| Transformation.DiamondDeleteDelete | core/src/ot.cpp:50-81 | two deletes, overlapping or not, rewritten against each other, fit and lead to one document |
| Transformation.Diamond | core/src/ot.cpp:6-117 | for every document and every two valid operations of different users both orders fit and lead to one document |
| Transformation.DiamondExactly | core/src/ot.cpp:11-21 | without distinct users the diamond closes if and only if no user has two inserts at one place whose texts do not commute |
| Transformation.InsertsSurvive | core/src/ot.cpp:6-24 | two inserts both survive in the order of their places, and at one place in the order of their user ids: the resulting text is written out |
| Transformation.InsertSurvivesDelete | core/src/ot.cpp:26-48 | an insert survives a concurrent delete if and only if it is not strictly inside it, and the delete removes its own range: the resulting text is written out |
| Transformation.DeletesMerge | core/src/ot.cpp:50-81 | two deletes remove their two ranges, the common part once: the resulting text is written out |
| Transformation.ApplyCuts | core/src/ot.cpp:102-117 | positions and lengths beyond the end of the document are cut to it |
| Uint32.TransformFitsUint32 | core/src/ot.cpp:6-100 | below 2^31 each result of the 32-bit transformation equals the unbounded one if and only if that operation is not a stranded empty delete |
| Uint32.RewriteFitsUint32 | core/src/document.cpp:16-22 | for documents below 2^31 the server's loop has the same result in 32 bits if and only if no logged delete strands the incoming operation on the way |
| Uint32.RebaseFitsUint32 | client/src/ot_controller.cpp:133-142 | the client's loop has, if and only if neither side strands the other on the way |
| Uint32.EmptyDeleteGrows | core/src/ot.cpp:50-117 | on every document of at least 12 bytes three valid deletes turn an emptied delete into one that erases all the rest, which the unbounded transformation leaves alone |
| Alignment.AlignedAfter | core/src/ot.cpp:6-100 | rewriting keeps an operation on character boundaries of the document it is rewritten for |
| Alignment.FittingDiamond | core/src/ot.cpp:6-117 | the diamond for operations on bytes and for operations between characters |
| Rebase.RewriteFits | core/src/document.cpp:16-24 | an operation rewritten against a whole log fits the document the log leads to |
| Rebase.ListDiamond | client/src/ot_controller.cpp:133-143 | the client's loop closes the square for any local sequence and any remote operation, and everything it rewrites fits |
| Documents.WindowRefinesLog | core/src/document.cpp:9-37 | refusal exactly below the window, otherwise rewriting as against the full log; content is the log replayed; the new bound of the window |
| Documents.Document.constructor | core/src/document.cpp:6-7 | an empty history at revision 0 and limit 10000 |
| Documents.Document.ApplyWithOt | core/src/document.cpp:9-37 | refused exactly when older than the window, with nothing changed; otherwise logged as rewritten against the full log, applied, counted |
| Documents.Document.RewriteThroughWindow | core/src/document.cpp:16-22 | the guarded loop over the window computes the rewriting against every unseen entry |
| Documents.Document.ProcessQueue | core/src/document.cpp:39-48 | drains the queue in order and leaves the state after all of its operations |
| Documents.Document.SetHistoryLimit | core/src/document.cpp:103-106 | changes the limit alone |
| Sessions.DocumentSession.HandleOperation | server/src/document_session.cpp:118-142 | each connected user gets exactly one message about an accepted operation, an ack if it is the sender; a refused one sends exactly one error, to the sender |
| Sessions.DocumentSession.Broadcast | server/src/document_session.cpp:154-171 | exactly one more message, the given one, on every connection but the excluded one |
| Sessions.DocumentSession.SendToUser | server/src/document_session.cpp:173-186 | one more message for a connected user, nothing for others |
| Sessions.DocumentSession.HandleJoin | server/src/document_session.cpp:86-101 | the user is connected and everyone else is told |
| Sessions.DocumentSession.HandleLeave | server/src/document_session.cpp:103-116 | the user is gone and everyone left is told |
| ServerSteps.TakeOperation | server/src/document_session.cpp:118-142 | on a session that holds the network's document and connections an operation command does what the network's server step does |
| ServerSteps.TakeJoin | server/src/document_session.cpp:86-101 | so does a join command |
| ServerSteps.TakeLeave | server/src/document_session.cpp:103-116 | and a leave command |
| Clients.LocalDocument.ApplyOperation | client/src/local_document.cpp:16-19 | the content is the result of apply |
| Clients.EditJoinsQueue | client/src/ot_controller.cpp:59-81 | an effective edit joins the unacknowledged ones at the end, stamped, and is sent exactly if it is the only one |
| Clients.AckServesQueue | client/src/ot_controller.cpp:101-118 | an acknowledgement removes the first unacknowledged edit and sends the next one at the new revision |
| Clients.ReceiveInOrder | client/src/ot_controller.cpp:126-146 | the entries of a broadcast are received one after the other |
| Clients.OTController.OnLocalOperations | client/src/ot_controller.cpp:59-81 | every effective edit is stamped and applied, the first sent when synchronized, the others buffered |
| Clients.OTController.HandleAck | client/src/ot_controller.cpp:101-118 | the next buffered edit is sent at the acknowledged revision, or the client is synchronized |
| Clients.OTController.RewriteUnacked | client/src/ot_controller.cpp:133-142 | the loop over pending and buffer in place is the client's rewriting of the whole list |
| Clients.OTController.HandleBroadcast | client/src/ot_controller.cpp:120-151 | new state and operations handed to the editor, entry by entry; own broadcasts are ignored |
| Invariant.ServerAgreesWithClient | core/src/document.cpp:16-26 | what the server is about to log is the sender's pending operation rewritten against the entries it has not seen |
| Preservation.AckedIsLogged | client/src/ot_controller.cpp:101-118 | in an invariant state an ack meets the pending operation the server logged for that revision |
| Preservation.AckKept | client/src/ot_controller.cpp:101-118 | an acknowledgement keeps the client a mirror of the server |
| Preservation.BroadcastKept | client/src/ot_controller.cpp:120-151 | so does a broadcast |
| Preservation.EditLinkKept | client/src/ot_controller.cpp:59-81 | so do local edits |
| Preservation.AcceptedKept | server/src/document_session.cpp:118-142 | so does an accepted operation, for the sender and for all others |
| Preservation.RefusedKept | server/src/document_session.cpp:121-125 | so does a refusal |
| Preservation.RefusalKept | core/src/document.cpp:12-14 | a refusal consumes no revision, changes no copy, and tells its user alone |
| Preservation.OrphanTakenKept | server/src/main.cpp:93-108 | so does taking the operation of a user who has left and is not connected again |
| Preservation.LeaveKept | server/src/main.cpp:99-108 | so does leaving at any moment, with a submission still on its way |
| Preservation.StepKeepsInv | client/src/ot_controller.cpp:59-151 | every step of every client, the server and the connections keeps the system invariant, except accepting an orphan whose user is connected again |
| Preservation.RunKeepsInv | client/src/ot_controller.cpp:59-151 | the invariant holds after every run without such a step |
| Preservation.RunKeepsWindow | core/src/document.cpp:9-37 | after every run whatsoever the content is the log replayed and the history is the end of the log |
| Refusal.StepDecidesRefusal | server/src/document_session.cpp:118-125 | after a step a client waits in vain if and only if it did before and its user does not leave, or the step refuses its submission |
| Refusal.RefusedWaitsForEver | client/src/ot_controller.cpp:101-118 | through any further run a refused client stays refused while its user stays |
| Refusal.RefusedExactlyWhenTooFarBehind | core/src/document.cpp:12-33 | with a constant limit a submission is refused if and only if more than limit operations were logged since its revision |
| Scenarios.RefusalHappens | core/src/document.cpp:12-33 | with every limit and from every text a run leads to a refused client |
| Misdelivery.OrphanKeepsInvExactly | server/src/document_session.cpp:173-186 | accepting an orphan keeps the invariant if and only if its user is not connected or waits for a refused operation that would have been logged as the same edit |
| Misdelivery.RejoinedConvergesExactly | server/src/document_session.cpp:118-142 | a client with nothing under way that gets the acknowledgement of an orphan ends synchronized at the server's revision, with the server's content if and only if the orphan was emptied on the way |
| Misdelivery.OrphanEndsWaiting | server/src/document_session.cpp:118-142 | after an accepted orphan its user is not waiting for a refused submission any more |
| Scenarios.RejoiningMissesOwnEdit | server/src/document_session.cpp:118-142 | a run after which a client is synchronized at the server's revision without the character its user typed |
| Convergence.CopiesMirrorServer | client/src/ot_controller.cpp:59-151 | after every such run each copy is the server's document at the client's revision followed by pending and buffered edits, and each channel carries exactly the missing revisions |
| Convergence.MessagesAreConsecutive | server/src/document_session.cpp:127-141 | the messages on a connection carry the consecutive revisions the client is missing, one for each accepted operation, an ack exactly for the own ones |
| Convergence.AllCopiesConverge | client/src/ot_controller.cpp:59-151 | with nothing under way a client is synchronized and its copy equals the server's content if and only if no submission of its user was refused since the user joined |
| Convergence.AckAgreement | client/src/ot_controller.cpp:101-118 | after every run the acknowledged pending operation makes the edit the server logged for that revision |
| Convergence.RunsKeepUtf8 | core/src/ot.cpp:6-117 | in runs of edits between characters every copy stays UTF-8 and every logged operation is aligned where it was applied |
| Convergence.SettlingLightens | server/src/document_session.cpp:118-142 | every server and delivery step makes the measure smaller |
| Convergence.EveryRunSettles | client/src/ot_controller.cpp:101-118 | without new edits every run of server and delivery steps is bounded by the measure and ends with each client either refused, or synchronized with the server's content |
| ConcurrentDeletes.RewrittenIsStretch | core/src/ot.cpp:50-81 | a delete rewritten against concurrent deletes removes what they left of its own range |
| ConcurrentDeletes.LoggedRemovesUnion | core/src/ot.cpp:50-81 | concurrent deletes together remove exactly the union of their ranges |
| ConcurrentDeletes.ServerRemovesUnion | core/src/document.cpp:9-37 | so does the server, for any number of them up to one more than the history limit |
| ConcurrentDeletes.ArrivalOrderIrrelevant | core/src/document.cpp:9-37 | in whatever order they arrive |
| MpscSafety.StepKeepsInv | core/include/collab/mpsc_queue.h:124-188 | every atomic step of every thread keeps the queue's invariant |
| MpscSafety.NoUseAfterFree | core/include/collab/mpsc_queue.h:58-188 | in every interleaving no deleted node is accessed; what next pointers reach from head, the tail and validated nodes are allocated; retired nodes are behind head, the tail is not |
| MpscSafety.DeletionIsSafe | core/include/collab/mpsc_queue.h:76-93 | a deleted node is retired, reached by no next pointers from head, not the tail, unowned, and no producer that validated it can still read it |
| MpscSafety.LinearizableFifo | core/include/collab/mpsc_queue.h:148-187 | values taken followed by values linked are the values in the order of their successful compare-and-swaps |
| MpscSafety.ProducerOrder | core/include/collab/mpsc_queue.h:124-162 | each producer's values are linked in the order submitted, none lost or duplicated |
| MpscSafety.EmptyMeansAllTaken | core/include/collab/mpsc_queue.h:164-168 | try_dequeue finds nothing if and only if every linked value has been taken |
| MpscProgress.DequeueTakesOldest | core/include/collab/mpsc_queue.h:164-187 | in every interleaving a call of try_dequeue on a non-empty queue that returns has taken exactly the oldest linked value |
| MpscProgress.DequeueReturnsValue | core/include/collab/mpsc_queue.h:164-187 | without interference it returns within as many steps as there are producers and retired nodes, and eight more |
| MpscProgress.EnqueueLinksValue | core/include/collab/mpsc_queue.h:124-162 | without interference enqueue links its value last and clears its slot, within five steps for every node the tail lags behind, and seven more |
| MpscSafety.RetiredIsBounded | core/include/collab/mpsc_queue.h:58-96 | fewer than 2 * MaxProducers distinct nodes are retired between calls; a reclaim starts with 2 * MaxProducers and leaves at most MaxProducers |
| MpscPreservation.LinkKept | core/include/collab/mpsc_queue.h:148-158 | the successful compare-and-swap appends at the end of the chain |
| MpscPreservation.SweepEnds | core/include/collab/mpsc_queue.h:76-95 | no more survivors than hazard slots |
| MpscReclaim.Reclaimer.TryReclaim | core/include/collab/mpsc_queue.h:58-96 | the loops delete exactly the unguarded nodes, keep exactly the guarded ones, and count them |
| MpscReclaim.SweepStepsAgree | core/include/collab/mpsc_queue.h:72-95 | the interleaved sweep steps compute what the loop computes |
| Framing.EncodeFrame | protocol/src/protocol.cpp:395-404 | the bytes of the frame: length in network byte order, then the payload |
| Framing.HeaderRoundTrip | protocol/src/protocol.cpp:395-413 | decoding a header gives back every length up to the limit and refuses every longer one |
| Framing.FrameReader.OnReadyRead | client/src/network_manager.cpp:119-141 | the loop hands on exactly the complete payloads of old buffer and chunk, keeps the rest, which holds no complete frame, and disconnects on an oversized header |
| Framing.ParseInTwo | client/src/network_manager.cpp:119-141 | parsing in two parts is parsing at once |
| Framing.ChunkingIrrelevant | client/src/network_manager.cpp:119-141 | the result does not depend on how the stream is cut into chunks |
| Framing.ArrivedPayloads | client/src/network_manager.cpp:119-141 | of any prefix of the stream exactly the complete payloads are handed on and a proper prefix of the next frame is kept |
| Framing.OversizedStops | client/src/network_manager.cpp:119-141 | of whatever stream, in whatever chunks, exactly the payloads in front of the first oversized header are handed on, and the reader stops there |
| Framing.FrameWriter.Send | server/src/client_session.cpp:19-31 | the frame is queued unless disconnected; at most one write is outstanding; written and queued bytes are the frames accepted, in order |
| Framing.FrameWriter.OnWritten | server/src/client_session.cpp:90-115 | a completed write moves one frame to the wire and starts the next; a failed one disconnects |
| Framing.InOrderDelivery | client/src/network_manager.cpp:119-141 | whatever has arrived, in whatever chunks, is handed on as a prefix of what was accepted, and all of it once everything is there |
| Unicode.ToUtf8RoundTrip | client/src/utf8_codec.cpp:5-9 | UTF-16 text survives the way to UTF-8 and back |
| Unicode.FromUtf8RoundTrip | client/src/utf8_codec.cpp:11-17 | and UTF-8 text the way to UTF-16 and back |
| Unicode.CharacterToUtf8 | client/src/utf8_codec.cpp:5-17 | the conversions take each character to its bytes, and back to its units |
| Unicode.StandardExamples | client/src/utf8_codec.cpp:5-9 | characters of one to four bytes have the bytes the standard gives for them |
| Unicode.OffsetsAreInverse | client/src/utf8_codec.cpp:5-17 | on character boundaries a UTF-16 offset survives the way to UTF-8 and back |
| Unicode.ByteOffsetsAreInverse | client/src/utf8_codec.cpp:5-17 | and a UTF-8 offset the way to UTF-16 and back |
| Unicode.OffsetsStartCharacters | client/src/utf8_codec.cpp:5-9 | a byte offset comes from a boundary of the UTF-16 text if and only if it is the end or the byte there continues no character |
| Unicode.OffsetsAreMonotone | client/src/utf8_codec.cpp:5-9 | a later boundary has a later offset |
| Unicode.OffsetsAreCut | client/src/utf8_codec.cpp:5-9 | the offset of a position is the length of the UTF-8 form of what is in front of it; positions outside the text count as its nearer end |
| Unicode.ByteOffsetsAreCut | client/src/utf8_codec.cpp:11-17 | and the other way round |
| Editor.EditorWidget.OnContentsChange | client/src/editor_widget.cpp:258-296 | the operations sent lie where the change began, delete exactly what went and insert exactly what came, fit the document, and turn the UTF-8 form of the old text into that of the new; remote changes send nothing |
| Editor.EditorWidget.ApplyRemoteOperation | client/src/editor_widget.cpp:41-68 | the text becomes the UTF-16 form of the document after the operation |
| Editor.ChangeOpsMirrorText | client/src/editor_widget.cpp:258-296 | they fit the document and mirror the change of the text |
| Editor.ChangeOpsAreLocal | client/src/editor_widget.cpp:264-291 | the operations as a list touch what the user changed and nothing else |
| EndToEnd.TypingIsAnEdit | client/src/editor_widget.cpp:258-296 | what the widget sends is an edit the network allows and brings the client's document to the new text |
| Editor.FollowedMirrors | client/src/editor_widget.cpp:41-68 | the splice of the widget's text is the UTF-16 form of the edited document |
| EndToEnd.BroadcastReachesEditor | client/src/ot_controller.cpp:126-146 | what a broadcast hands to the widget fits the document between characters |
| EndToEnd.EveryoneSeesOneText | client/src/editor_window.cpp:139-155 | after every run each widget shows the UTF-16 form of its client's document; with nothing under way all users not refused see the server's text |
| Cursors.TranslateStaysInside | client/src/cursor_translator.cpp:5-19 | a cursor inside the document stays inside |
| Cursors.SelectionStaysOrdered | client/src/cursor_translator.cpp:5-19 | two cursors keep their order over any sequence of operations |
| Cursors.CursorStaysAnchored | client/src/cursor_translator.cpp:5-19 | a cursor whose following byte is never deleted still sits before that byte |
| Cursors.CursorStaysAtEnd | client/src/cursor_translator.cpp:5-19 | a cursor at the end of the text stays at the end |
| Cursors.CursorFallsToStart | client/src/cursor_translator.cpp:13-18 | a cursor whose following byte is deleted lands where the deleted range was |
| Cursors.AnchorsStayApart | client/src/cursor_translator.cpp:5-19 | cursors before different surviving bytes stay apart and in order |
| Cursors.MovedStaysInside | client/src/remote_cursors_model.cpp:36-44 | a remote cursor with an ordered selection inside the document stays one |
| Cursors.RemoteCursorFollows | client/src/remote_cursors_model.cpp:36-44 | over any sequence of operations a remote cursor keeps its user, its place and both ends of its selection: the same surviving byte follows, or the end of the text |
| Cursors.RemoteCursorsModel.ApplyRemoteOperation | client/src/remote_cursors_model.cpp:36-44 | every cursor of every user is translated once, position and selection |
| Cursors.RemoteCursorsModel.ApplyBroadcast | client/src/remote_cursors_model.cpp:17-34 | the cursors are replaced by those of the broadcast |
| Cursors.BroadcastUsers | client/src/remote_cursors_model.cpp:17-34 | every user of a broadcast but the local one is known, and nobody else |
| Cursors.BroadcastKeepsFirst | client/src/remote_cursors_model.cpp:17-34 | of several entries of one user the first counts |

## Left out

- The join window described above, and two connections of one user: membership changes are atomic and ids distinct, and a user who joins again starts with an empty channel.
- What follows when a misdelivered acknowledgement reaches a client with edits of its own under way: runs with such a step are excluded from the theorems about clients, and what the client ends up with is decided for one with nothing under way.
- Messages with several operations under one revision: the client never sends them.
- Order independence of three concurrent operations without a server: it does not hold, and the protocol does not need it.
- Refusals other than `revision_too_old` (access denied, not in the document): the client has no transition for them.
- Cursors on the two sides of the diamond can differ for a cursor in a deleted range; only bounds, order and anchoring are claimed.
- Snapshots, dirty flags beyond `apply_with_ot`, and replacing the content of a document that already has a history.
- The queue's destructor, its abort when there are more producers than slots, weak memory ordering, and lock-freedom.
- The queue as a class: threads interleave, so its operations are steps of a state machine; only the reclaiming loop, which one thread runs alone, is also given as a method.
- UTF-16 text with unpaired surrogates, and the text normalisation of the widget toolkit.
- The local caret of the editor widget, painting, dialogs, sockets, JSON, storage, logging, authentication, access control, rate limits and thread pools.
