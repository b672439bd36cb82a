# WebRTC room signaling, modelled in Dafny

This project models the signaling state machine of the `VideoRoom` component
(`app/components/VideoRoom.tsx`): two browsers set up a peer-to-peer call by
exchanging a session-description offer, an answer and network-path (ICE)
candidates through a shared "room" record in a document store.

- The **caller** runs `createRoom`. It builds a peer connection and routes its
  local candidates into the room's `callerCandidates` subcollection. It
  stores the offer as the whole room document and shows "Waiting for someone
  to join...". It then listens to the room document, to pick up the answer,
  and to `calleeCandidates`.
- The **callee** runs `joinRoom` with a room id. The attempt ends at once when
  the id is empty, and with "Room not found" when no such document exists.
  Otherwise it routes its candidates into `calleeCandidates`, applies the
  offer, merges its answer into the room, listens to `callerCandidates` and
  shows "Connected!".
- Both sides collect incoming media tracks through the connection's `ontrack`
  handler. The Create Room and Join buttons are enabled only while the status
  is "Idle" or the camera error.

The model has six modules:

- `Wrappers` holds `Option`.
- `Sdp` holds the `{type, sdp}` description and the candidate JSON.
- `Relay` is the document store: a `RoomStore` class over a map from room id
  to `Room`, with the overwrite, merge and append writes, and the filter a
  subcollection listener applies to a batch of `docChanges()`.
- `Transport` holds the `MediaStream` and `PeerConnection` classes. Each
  carries only the state the component reads or changes.
- `VideoRoomComponent` is the component as a class, `VideoRoom`. Its fields
  are the React state and refs. Its methods are `createRoom`, `joinRoom` and
  the asynchronous callbacks, each run as one atomic step.
- `Scenarios` holds two components sharing one store, stepped through a whole
  call.

The external libraries become plain state or parameters:

- The new room id, the descriptions `createOffer` and `createAnswer` resolve
  to, and the camera result are parameters.
- Which awaited call rejects, if any, and with what message, is a `Fault`
  parameter. A rejection at `GetDoc` also stands for `doc()` throwing on a
  room id that is not a valid document path.
- The data a snapshot callback receives is a parameter.

Two rules of the browser are kept because the component's behaviour depends
on them:

- The W3C WebRTC `addIceCandidate` rule: while a connection has no remote
  description, a candidate is refused.
- The Media Capture and Streams `addTrack` rule: a track already in the
  stream is not added again.

What the model shows about the code as written:

- A snapshot applies the answer only if no remote description is set yet.
  The caller therefore keeps the first answer any snapshot shows
  (`RemoteIsFirstAnswer`, `RemoteNeverReplaced`).
- `joinRoom` merges the answer without checking for an existing one. A second
  joiner overwrites the stored answer, while the caller keeps the first
  (`SecondAnswerIgnoredByCaller`).
- The joiner shows "Connected!" as soon as its own writes succeed, before the
  caller has seen anything.
- After "Room not found" the new peer connection stays in
  `peerConnection.current`.
- Callee candidates are not buffered. One that reaches the caller before the
  answer snapshot is refused by the caller's connection. It is still
  unapplied once the answer has connected the call
  (`EarlyCalleeCandidateIsLost`).
- The `ontrack` handler closes over the remote stream as it was when the
  connection was built (`PeerConnection.trackTarget`). When that was `null`,
  every event with tracks replaces the remote stream with the event's stream
  instead of adding to it.
- Nothing ever unsubscribes, hangs up or deletes a room, and nothing lists
  open rooms. The code has none of these, so the model has none.

## Model

| member | source | states |
|---|---|---|
| Relay.DocExists | app/components/VideoRoom.tsx:163 | `roomSnapshot.exists()`: the room's document was written; a document can exist only under an id the store holds |
| Relay.SetFields | app/components/VideoRoom.tsx:115-121 | `setDoc` makes the room's fields exactly the given document and leaves both candidate subcollections as they were |
| Relay.MergeAnswer | app/components/VideoRoom.tsx:187-193 | `updateDoc({answer})` keeps the offer, sets the answer whatever it held, and leaves both subcollections unchanged |
| Relay.AddCandidate | app/components/VideoRoom.tsx:104-107 | `addDoc` appends the candidate to the named side's subcollection only; the other side's list and the document are unchanged |
| Relay.MergeLastWriterWins | app/components/VideoRoom.tsx:186-193 | with no guard on the answer, two merges leave the room as the second alone would |
| Relay.AddedData | app/components/VideoRoom.tsx:138-143 | the candidates a batch of `docChanges()` hands on: never more than the batch has changes, and none from a batch without an `added` change |
| Relay.AddedDataConcat | app/components/VideoRoom.tsx:137-144 | the candidates taken from a stream of changes do not depend on how it is cut into batches, and keep their order |
| Relay.AddedDataMembers | app/components/VideoRoom.tsx:138-143 | the candidates taken from a batch are exactly the data of its `added` changes: each such one is taken and nothing else is; `modified`/`removed` contribute nothing |
| Relay.RoomStore.GetDoc | app/components/VideoRoom.tsx:161-163 | `getDoc` yields the document's fields exactly when the document exists, and nothing for an id the store has never held |
| Relay.RoomStore.SetDoc | app/components/VideoRoom.tsx:121 | the store after `setDoc`: that room's fields overwritten, every other room unchanged |
| Relay.RoomStore.UpdateAnswer | app/components/VideoRoom.tsx:193 | the store after `updateDoc`: the answer merged when the document exists; refused with nothing written otherwise |
| Relay.RoomStore.AddDoc | app/components/VideoRoom.tsx:106 | the store after `addDoc`: one candidate appended to one subcollection of one room |
| Transport.WithTrack | app/components/VideoRoom.tsx:76 | one `addTrack`: the old tracks stay in place and the stream holds exactly the old tracks and the new one |
| Transport.WithTracks | app/components/VideoRoom.tsx:74-80 | `addTrack` of each incoming track in turn: the stream grows by at most the number of incoming tracks and never shrinks |
| Transport.WithTracksMembers | app/components/VideoRoom.tsx:74-80 | adding tracks keeps the existing tracks in place, and the stream ends with exactly the old tracks and the added ones |
| Transport.WithTracksDistinct | app/components/VideoRoom.tsx:74-80 | a stream without repeated tracks never gets one by `addTrack` |
| Transport.WithTracksPresent | app/components/VideoRoom.tsx:76 | adding tracks the stream already holds changes nothing |
| Transport.WithTracksIdempotent | app/components/VideoRoom.tsx:74-80 | delivering the same tracks again leaves the stream as the first delivery did |
| Transport.MediaStream.AddTrack | app/components/VideoRoom.tsx:76 | `remoteStream.addTrack(track)` appends the track unless the stream has it, so a stream without repeated tracks keeps none |
| Transport.PeerConnection.constructor | app/components/VideoRoom.tsx:60-68 | a new connection has no descriptions, no applied candidates, no senders, the logging candidate handler, and the given `ontrack` target |
| Transport.PeerConnection.AddTrack | app/components/VideoRoom.tsx:85 | `pc.addTrack` adds one sending track |
| Transport.PeerConnection.SetLocalDescription | app/components/VideoRoom.tsx:112 | the local description becomes the given one |
| Transport.PeerConnection.SetRemoteDescription | app/components/VideoRoom.tsx:130 | the remote description becomes the given one |
| Transport.PeerConnection.AddIceCandidate | app/components/VideoRoom.tsx:141 | a candidate is accepted and appended exactly when a remote description is set; otherwise nothing changes |
| VideoRoomComponent.StartEnabled | app/components/VideoRoom.tsx:228 | the `disabled` test shared by both buttons: they are enabled exactly while the status is "Idle" or the camera error |
| VideoRoomComponent.StartDisabledOnceStarted | app/components/VideoRoom.tsx:228 | every status that create or join sets, including both error prefixes with any message, disables the two buttons |
| VideoRoomComponent.AcceptAnswer | app/components/VideoRoom.tsx:128-131 | one room snapshot never replaces a remote description already set; without one, the snapshot's answer, if it has one, is taken |
| VideoRoomComponent.RemoteNeverReplaced | app/components/VideoRoom.tsx:126-133 | once the caller has a remote description, no run of snapshots replaces it |
| VideoRoomComponent.RemoteIsFirstAnswer | app/components/VideoRoom.tsx:126-133 | from no remote description, a run of snapshots leaves exactly the first answer any of them carried |
| VideoRoomComponent.SecondAnswerIgnoredByCaller | app/components/VideoRoom.tsx:128-130 | after a second join overwrites the answer, the caller keeps the first one through that snapshot and every later one, so room and caller disagree for good |
| VideoRoomComponent.VideoRoom.constructor | app/components/VideoRoom.tsx:28-36 | initial state: no streams, empty room and join ids, status "Idle", no connection, no subscriptions |
| VideoRoomComponent.VideoRoom.StartWebcam | app/components/VideoRoom.tsx:39-56 | a granted camera sets the local stream; a refused one sets status to the camera error and nothing else |
| VideoRoomComponent.VideoRoom.SetJoinId | app/components/VideoRoom.tsx:237 | the input sets the join id |
| VideoRoomComponent.VideoRoom.CreatePeerConnection | app/components/VideoRoom.tsx:59-89 | a fresh connection with the logging candidate handler, `ontrack` bound to the current remote stream, sending exactly the local stream's tracks |
| VideoRoomComponent.VideoRoom.CreateRoom | app/components/VideoRoom.tsx:92-149 | new connection stored, routed to `callerCandidates`; on success the room's fields are exactly `{offer}`, offer is the local description, room id and "Waiting..." set, two listeners added; each rejection gives "Error creating room: msg" with the store unchanged |
| VideoRoomComponent.VideoRoom.JoinRoom | app/components/VideoRoom.tsx:152-212 | empty id changes nothing; missing room gives "Room not found" with the connection kept and the store unchanged; success sets remote = offer, local = answer, merges the answer, sets room id and "Connected!" (a rejection of a step only create awaits does not stop it); each rejection of join's own steps gives "Error joining room: msg" |
| VideoRoomComponent.VideoRoom.AnswerOffer | app/components/VideoRoom.tsx:169-207 | after the room is found: routed to `calleeCandidates`; no offer gives the error status with nothing else written; otherwise remote = offer, local = answer, answer merged into the room, one `callerCandidates` listener, room id and "Connected!" unless one of join's own awaited steps rejects; such a rejection stops there with "Error joining room: msg" |
| VideoRoomComponent.VideoRoom.OnIceCandidate | app/components/VideoRoom.tsx:104-108 | a non-null candidate goes to the installed side's subcollection of the installed room; a null one, or the logging handler, writes nothing |
| VideoRoomComponent.VideoRoom.OnRoomSnapshot | app/components/VideoRoom.tsx:126-133 | the answer becomes the remote description, and status "Connected!", only if none was set and the snapshot has one; otherwise nothing changes |
| VideoRoomComponent.VideoRoom.OnCandidateChanges | app/components/VideoRoom.tsx:137-144 | the connection's applied candidates grow by exactly the `added` data of the batch, in order, when it has a remote description, and by nothing otherwise |
| VideoRoomComponent.VideoRoom.OnTrack | app/components/VideoRoom.tsx:72-81 | with a captured stream, each incoming track is added to it and the state stream is unchanged; without one, the remote stream becomes the event's stream if it has any track; a captured stream without repeated tracks keeps none |
| Scenarios.CallerAndCalleeConnect | app/components/VideoRoom.tsx:92-207 | create, join and the answer snapshot leave both sides "Connected!" with each other's descriptions, and the room holding offer and answer |
| Scenarios.EarlyCalleeCandidateIsLost | app/components/VideoRoom.tsx:137-144 | a callee candidate delivered before the answer is stored in the room but refused by the caller, and is still unapplied once the answer has connected the call |
| Scenarios.CalleeCandidateAfterAnswer | app/components/VideoRoom.tsx:137-144 | a callee candidate delivered after the answer is applied, and a repeated answer snapshot changes nothing |

## Left out

- Camera and microphone acquisition is device I/O. Only its outcome is
  modelled, as a stream or `null`.
- Rendering is not modelled: the JSX, the `srcObject` assignments and the
  `console` logging.
- Scheduling of asynchronous callbacks is not modelled. Each callback is one
  atomic step, so two room snapshots can never both see an unset remote
  description. In the code they can, because `setRemoteDescription` is not
  awaited there.
- Snapshot timing and delivery are not modelled. The data a callback receives
  is a parameter.
- The browser's WebRTC stack is not modelled: SDP contents, ICE gathering and
  media transport. Generated descriptions and room ids are parameters.
- The text of errors is not modelled: a rejected call's message is a
  parameter. For a room without an `offer`, the browser's `TypeError` text is
  replaced by the constant `MissingOfferMessage`.
- Some throws are not modelled: `new RTCPeerConnection` throwing, `addTrack`
  throwing for a track that is already sending, and an `ontrack` event with
  no stream. None arises with the streams this component uses.
- Errors thrown inside the subscription callbacks are not modelled. They are
  never caught in the code. A refused candidate shows up only as not applied.
- `currentRemoteDescription` and the pending remote description are one field.
  The component only ever tests the first.
- `Scenarios.EarlyCalleeCandidateIsLost` shows the early candidate unapplied
  only up to the answer snapshot. The store reports each `added` document to
  a listener once, which is why the loss is permanent in the code. That
  once-only delivery is not modelled: a later batch is a free parameter and
  may carry the same change again.
- `VideoRoomComponent.VideoRoom.JoinRoom` treats a room id as an opaque key.
  The path syntax of `doc(db, 'rooms', joinId)` is not modelled. An id with
  an inner `/` makes `doc()` throw before the read; the model represents that
  only through a `GetDoc` fault. An id with a trailing `/` opens the room
  named before it; the model looks up the id as typed.
- Hang-up, room deletion, an open-room lobby, a conditional answer write,
  candidate de-duplication and early-candidate buffering are not modelled.
  The code has none of them.
- `app/components/EyeTracker.tsx`, the route pages and `next.config.ts` are
  not part of this model. They hold floating-point face tracking, rendering
  and build settings, not signaling.
