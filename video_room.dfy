/**
 * The `VideoRoom` component: one participant's side of a two-party call. It
 * either creates a room (the caller) or joins one by id (the callee), and then
 * reacts to events: room snapshots, batches of candidate changes, local
 * candidates and incoming tracks. Each event handler runs as one atomic step.
 */
module VideoRoomComponent {
  import opened Wrappers
  import opened Sdp
  import opened Relay
  import opened Transport

  // The status strings the component shows.
  const Idle: string := "Idle"
  const CameraError: string := "Error: Could not access camera/mic"
  const CreatingRoom: string := "Creating Room..."
  const Waiting: string := "Waiting for someone to join..."
  const Connected: string := "Connected!"
  const JoiningRoom: string := "Joining Room..."
  const RoomNotFound: string := "Room not found"
  const CreateErrorPrefix: string := "Error creating room: "
  const JoinErrorPrefix: string := "Error joining room: "

  /**
   * Stands for the message of the `TypeError` the browser raises when a
   * session description is built from a room that has no `offer`; the browser
   * chooses the actual text.
   */
  const MissingOfferMessage: string := "missing session description type"

  /** Both the Create Room and the Join buttons are enabled exactly in these two statuses. */
  predicate StartEnabled(status: string) {
    status == Idle || status == CameraError
  }

  /** Every status a create or join attempt leaves behind disables both buttons. */
  lemma StartDisabledOnceStarted(message: string)
    ensures !StartEnabled(CreatingRoom) && !StartEnabled(Waiting) && !StartEnabled(Connected)
    ensures !StartEnabled(JoiningRoom) && !StartEnabled(RoomNotFound)
    ensures !StartEnabled(CreateErrorPrefix + message) && !StartEnabled(JoinErrorPrefix + message)
  {
    assert (CreateErrorPrefix + message)[5] != CameraError[5];
    assert (JoinErrorPrefix + message)[5] != CameraError[5];
  }

  /** The awaited calls of create and join, any of which may reject. */
  datatype Await = CreateOffer | CreateAnswer | SetLocalDescription | SetRemoteDescription
                 | GetDoc | SetDoc | UpdateDoc

  /**
   * Whether, and where, a create or join attempt meets a rejected call, and
   * with what message. `Rejects(GetDoc, m)` also stands for `doc()` throwing
   * on a room id that is not a valid document path.
   */
  datatype Fault = NoFault | Rejects(at: Await, message: string)

  predicate RejectsAt(fault: Fault, step: Await) {
    fault.Rejects? && fault.at == step
  }

  /** A create attempt reaches the end of its `try` block unless one of its three awaited calls rejects. */
  predicate CreateRejects(fault: Fault) {
    RejectsAt(fault, CreateOffer) || RejectsAt(fault, SetLocalDescription) || RejectsAt(fault, SetDoc)
  }

  /**
   * A join attempt that has found its room stops before the end of its `try`
   * block exactly when one of the four awaited calls after the read rejects.
   * A rejection of a step only `createRoom` awaits has no effect on a join.
   */
  predicate JoinRejects(fault: Fault) {
    || RejectsAt(fault, SetRemoteDescription) || RejectsAt(fault, CreateAnswer)
    || RejectsAt(fault, SetLocalDescription) || RejectsAt(fault, UpdateDoc)
  }

  /** A join attempt gets past reading the room document: the read succeeded and found it. */
  predicate JoinFindsRoom(rooms: map<RoomId, Room>, id: RoomId, fault: Fault) {
    id != "" && !RejectsAt(fault, GetDoc) && DocExists(rooms, id)
  }

  /** The `offer` field of a room's document, if the document exists and has one. */
  function OfferIn(rooms: map<RoomId, Room>, id: RoomId): Option<Desc> {
    match Lookup(rooms, id).doc
    case Some(d) => d.offer
    case None => None
  }

  /** A join attempt finds the room and the room has an offer to answer. */
  predicate JoinHasOffer(rooms: map<RoomId, Room>, id: RoomId, fault: Fault) {
    JoinFindsRoom(rooms, id, fault) && OfferIn(rooms, id).Some?
  }

  /** An active `onSnapshot` subscription, with the connection its callback closes over. */
  datatype Listener =
    | RoomListener(room: RoomId, pc: PeerConnection)
    | CandidateListener(room: RoomId, side: Side, pc: PeerConnection)

  /** `snapshot.data()?.answer`. */
  function AnswerIn(data: Option<RoomDoc>): Option<Desc> {
    if data.Some? then data.value.answer else None
  }

  /**
   * The remote description after the caller's room-snapshot callback: the
   * snapshot's answer when there was no remote description yet and the
   * snapshot has one, the old remote description otherwise.
   */
  function AcceptAnswer(remote: Option<Desc>, data: Option<RoomDoc>): (r: Option<Desc>)
    ensures remote.Some? ==> r == remote
    ensures remote.None? ==> r == AnswerIn(data)
  {
    if remote.None? && AnswerIn(data).Some? then AnswerIn(data) else remote
  }

  /** The remote description after a run of room snapshots, oldest first. */
  function AfterSnapshots(remote: Option<Desc>, snapshots: seq<Option<RoomDoc>>): Option<Desc>
    decreases |snapshots|
  {
    if snapshots == [] then remote
    else AfterSnapshots(AcceptAnswer(remote, snapshots[0]), snapshots[1..])
  }

  /** The answer carried by the first snapshot that carries one. */
  function FirstAnswer(snapshots: seq<Option<RoomDoc>>): Option<Desc>
    decreases |snapshots|
  {
    if snapshots == [] then None
    else if AnswerIn(snapshots[0]).Some? then AnswerIn(snapshots[0])
    else FirstAnswer(snapshots[1..])
  }

  /** Once set, the remote description is never replaced by a later snapshot. */
  lemma {:induction false} RemoteNeverReplaced(d: Desc, snapshots: seq<Option<RoomDoc>>)
    ensures AfterSnapshots(Some(d), snapshots) == Some(d)
    decreases |snapshots|
  {
    if snapshots != [] {
      RemoteNeverReplaced(d, snapshots[1..]);
    }
  }

  /** Starting without one, the caller ends with the first answer any snapshot showed, if any. */
  lemma {:induction false} RemoteIsFirstAnswer(snapshots: seq<Option<RoomDoc>>)
    ensures AfterSnapshots(None, snapshots) == FirstAnswer(snapshots)
    decreases |snapshots|
  {
    if snapshots != [] {
      if AnswerIn(snapshots[0]).Some? {
        RemoteNeverReplaced(AnswerIn(snapshots[0]).value, snapshots[1..]);
      } else {
        RemoteIsFirstAnswer(snapshots[1..]);
      }
    }
  }

  /**
   * A second join of the same room overwrites the stored answer, but the
   * caller, who took the first answer, keeps it through every later snapshot:
   * the room and the caller's connection then disagree for good.
   */
  lemma {:induction false} SecondAnswerIgnoredByCaller(r: Room, a1: Desc, a2: Desc, later: seq<Option<RoomDoc>>)
    requires r.doc.Some?
    ensures AcceptAnswer(None, MergeAnswer(r, a1).doc) == Some(a1)
    ensures AnswerIn(MergeAnswer(MergeAnswer(r, a1), a2).doc) == Some(a2)
    ensures AfterSnapshots(Some(a1), [MergeAnswer(MergeAnswer(r, a1), a2).doc] + later) == Some(a1)
  {
    RemoteNeverReplaced(a1, [MergeAnswer(MergeAnswer(r, a1), a2).doc] + later);
  }

  class VideoRoom {
    /** The shared document store (`db`). */
    const store: RoomStore
    var localStream: MediaStream?
    var remoteStream: MediaStream?
    var roomId: string
    /** The text in the room-id input. */
    var joinId: string
    var status: string
    /** `peerConnection.current`. */
    var pc: PeerConnection?
    /** The `onSnapshot` subscriptions opened so far. */
    var listeners: seq<Listener>

    /** The component's initial state. */
    constructor (store: RoomStore)
      ensures this.store == store
      ensures localStream == null && remoteStream == null && pc == null
      ensures roomId == "" && joinId == "" && status == Idle && listeners == []
    {
      this.store := store;
      localStream, remoteStream, pc := null, null, null;
      roomId, joinId, status := "", "", Idle;
      listeners := [];
    }

    /** The outcome of the camera/microphone request: the stream, or `null` when it is refused. */
    method StartWebcam(acquired: MediaStream?)
      modifies this`localStream, this`status
      ensures acquired != null ==> localStream == acquired && status == old(status)
      ensures acquired == null ==> localStream == old(localStream) && status == CameraError
    {
      if acquired != null {
        localStream := acquired;
      } else {
        status := CameraError;
      }
    }

    /** Typing in the room-id input. */
    method SetJoinId(id: string)
      modifies this`joinId
      ensures joinId == id
    {
      joinId := id;
    }

    /**
     * Builds a connection whose `onicecandidate` only logs, whose `ontrack`
     * handler closes over the current remote stream, and which sends every
     * track of the local stream.
     */
    method CreatePeerConnection() returns (conn: PeerConnection)
      ensures fresh(conn)
      ensures conn.localDescription == None && conn.remoteDescription == None
      ensures conn.appliedCandidates == [] && conn.onIceCandidate == LogCandidate
      ensures conn.trackTarget == remoteStream
      ensures conn.senders == if localStream == null then [] else localStream.tracks
    {
      conn := new PeerConnection(remoteStream);
      if localStream != null {
        var ts := localStream.tracks;
        var i := 0;
        while i < |ts|
          invariant 0 <= i <= |ts|
          invariant conn.senders == ts[..i]
          invariant conn.localDescription == None && conn.remoteDescription == None
          invariant conn.appliedCandidates == [] && conn.onIceCandidate == LogCandidate
        {
          conn.AddTrack(ts[i]);
          i := i + 1;
        }
      }
    }

    /**
     * `createRoom`: a new connection, candidates routed to the new room's
     * `callerCandidates`, the offer as the local description and as the whole
     * room document, then the two subscriptions. `newId` is the id the store
     * generates; `offer` is what `createOffer` resolves to.
     */
    method CreateRoom(newId: RoomId, offer: Desc, fault: Fault)
      modifies this`status, this`roomId, this`pc, this`listeners, store
      ensures pc != null && fresh(pc)
      ensures pc.onIceCandidate == AddDocTo(newId, Caller)
      ensures pc.trackTarget == old(remoteStream)
      ensures pc.senders == if localStream == null then [] else localStream.tracks
      ensures pc.remoteDescription == None && pc.appliedCandidates == []
      ensures pc.localDescription == if RejectsAt(fault, CreateOffer) then None
                                     else if RejectsAt(fault, SetLocalDescription) then None
                                     else Some(offer)
      ensures CreateRejects(fault) ==>
                && status == CreateErrorPrefix + fault.message
                && store.rooms == old(store.rooms)
                && roomId == old(roomId) && listeners == old(listeners)
      ensures !CreateRejects(fault) ==>
                && store.rooms == old(store.rooms)[newId := SetFields(Lookup(old(store.rooms), newId), RoomDoc(Some(offer), None))]
                && roomId == newId && status == Waiting
                && listeners == old(listeners) + [RoomListener(newId, pc), CandidateListener(newId, Callee, pc)]
      ensures !StartEnabled(status)
    {
      status := CreatingRoom;
      var conn := CreatePeerConnection();
      pc := conn;
      conn.onIceCandidate := AddDocTo(newId, Caller);
      if RejectsAt(fault, CreateOffer) || RejectsAt(fault, SetLocalDescription) {
        status := CreateErrorPrefix + fault.message;
        StartDisabledOnceStarted(fault.message);
        return;
      }
      conn.SetLocalDescription(offer);
      if RejectsAt(fault, SetDoc) {
        status := CreateErrorPrefix + fault.message;
        StartDisabledOnceStarted(fault.message);
        return;
      }
      store.SetDoc(newId, RoomDoc(Some(offer), None));
      roomId := newId;
      status := Waiting;
      listeners := listeners + [RoomListener(newId, conn), CandidateListener(newId, Callee, conn)];
      StartDisabledOnceStarted("");
    }
  
    /**
     * `joinRoom`: nothing at all for an empty id; otherwise a new connection,
     * then the room document is read. A missing document ends the attempt with
     * "Room not found"; otherwise candidates are routed to `calleeCandidates`,
     * the offer becomes the remote description, the answer (what `createAnswer`
     * resolves to) the local description and, by a merge, the room's `answer`,
     * and the caller's candidates are subscribed to. The status becomes
     * "Connected!" without anything from the other side having been seen.
     */
    method JoinRoom(answer: Desc, fault: Fault)
      modifies this`status, this`roomId, this`pc, this`listeners, store
      ensures joinId == "" ==>
                && status == old(status) && roomId == old(roomId) && pc == old(pc)
                && listeners == old(listeners) && store.rooms == old(store.rooms)
      ensures joinId != "" ==>
                && pc != null && fresh(pc) && !StartEnabled(status)
                && pc.trackTarget == old(remoteStream) && pc.appliedCandidates == []
                && pc.senders == (if localStream == null then [] else localStream.tracks)
      ensures joinId != "" && RejectsAt(fault, GetDoc) ==>
                && status == JoinErrorPrefix + fault.message && pc.onIceCandidate == LogCandidate
                && pc.remoteDescription == None && pc.localDescription == None
                && store.rooms == old(store.rooms) && roomId == old(roomId) && listeners == old(listeners)
      ensures joinId != "" && !RejectsAt(fault, GetDoc) && !DocExists(old(store.rooms), joinId) ==>
                && status == RoomNotFound && pc.onIceCandidate == LogCandidate
                && pc.remoteDescription == None && pc.localDescription == None
                && store.rooms == old(store.rooms) && roomId == old(roomId) && listeners == old(listeners)
      ensures JoinFindsRoom(old(store.rooms), joinId, fault) ==> pc.onIceCandidate == AddDocTo(joinId, Callee)
      ensures JoinFindsRoom(old(store.rooms), joinId, fault) && OfferIn(old(store.rooms), joinId).None? ==>
                && status == JoinErrorPrefix + MissingOfferMessage
                && pc.remoteDescription == None && pc.localDescription == None
                && store.rooms == old(store.rooms) && roomId == old(roomId) && listeners == old(listeners)
      ensures JoinHasOffer(old(store.rooms), joinId, fault) && RejectsAt(fault, SetRemoteDescription) ==>
                && status == JoinErrorPrefix + fault.message
                && pc.remoteDescription == None && pc.localDescription == None
                && store.rooms == old(store.rooms) && roomId == old(roomId) && listeners == old(listeners)
      ensures JoinHasOffer(old(store.rooms), joinId, fault) && !RejectsAt(fault, SetRemoteDescription) ==>
                pc.remoteDescription == OfferIn(old(store.rooms), joinId)
      ensures JoinHasOffer(old(store.rooms), joinId, fault)
              && (RejectsAt(fault, CreateAnswer) || RejectsAt(fault, SetLocalDescription)) ==>
                && status == JoinErrorPrefix + fault.message && pc.localDescription == None
                && store.rooms == old(store.rooms) && roomId == old(roomId) && listeners == old(listeners)
      ensures JoinHasOffer(old(store.rooms), joinId, fault) && RejectsAt(fault, UpdateDoc) ==>
                && status == JoinErrorPrefix + fault.message && pc.localDescription == Some(answer)
                && store.rooms == old(store.rooms) && roomId == old(roomId) && listeners == old(listeners)
      ensures JoinHasOffer(old(store.rooms), joinId, fault) && !JoinRejects(fault) ==>
                && pc.localDescription == Some(answer)
                && store.rooms == old(store.rooms)[joinId := MergeAnswer(Lookup(old(store.rooms), joinId), answer)]
                && roomId == joinId && status == Connected
                && listeners == old(listeners) + [CandidateListener(joinId, Caller, pc)]
    {
      if joinId == "" {
        return;
      }
      status := JoiningRoom;
      var conn := CreatePeerConnection();
      pc := conn;
      StartDisabledOnceStarted(if fault.Rejects? then fault.message else MissingOfferMessage);
      if RejectsAt(fault, GetDoc) {
        status := JoinErrorPrefix + fault.message;
        return;
      }
      var snapshot := store.GetDoc(joinId);
      if snapshot.None? {
        status := RoomNotFound;
        return;
      }
      AnswerOffer(conn, snapshot.value.offer, answer, fault);
    }

    /**
     * The part of `joinRoom` after the room document was found: candidates
     * are routed to `calleeCandidates`, `offer` (the document's `offer` field)
     * becomes the remote description, `answer` the local description and, by a
     * merge, the room's `answer`; then the caller's candidates are subscribed
     * to and the status becomes "Connected!".
     */
    method AnswerOffer(conn: PeerConnection, offer: Option<Desc>, answer: Desc, fault: Fault)
      requires joinId != "" && DocExists(store.rooms, joinId)
      modifies this`status, this`roomId, this`listeners, store
      modifies conn`onIceCandidate, conn`remoteDescription, conn`localDescription
      ensures conn.onIceCandidate == AddDocTo(joinId, Callee)
      ensures !StartEnabled(status)
      ensures offer.None? ==>
                && status == JoinErrorPrefix + MissingOfferMessage
                && conn.remoteDescription == old(conn.remoteDescription)
                && conn.localDescription == old(conn.localDescription)
                && store.rooms == old(store.rooms) && roomId == old(roomId) && listeners == old(listeners)
      ensures offer.Some? && RejectsAt(fault, SetRemoteDescription) ==>
                && status == JoinErrorPrefix + fault.message
                && conn.remoteDescription == old(conn.remoteDescription)
                && conn.localDescription == old(conn.localDescription)
                && store.rooms == old(store.rooms) && roomId == old(roomId) && listeners == old(listeners)
      ensures offer.Some? && !RejectsAt(fault, SetRemoteDescription) ==> conn.remoteDescription == offer
      ensures offer.Some? && (RejectsAt(fault, CreateAnswer) || RejectsAt(fault, SetLocalDescription)) ==>
                && status == JoinErrorPrefix + fault.message
                && conn.localDescription == old(conn.localDescription)
                && store.rooms == old(store.rooms) && roomId == old(roomId) && listeners == old(listeners)
      ensures offer.Some? && RejectsAt(fault, UpdateDoc) ==>
                && status == JoinErrorPrefix + fault.message && conn.localDescription == Some(answer)
                && store.rooms == old(store.rooms) && roomId == old(roomId) && listeners == old(listeners)
      ensures offer.Some? && !JoinRejects(fault) ==>
                && conn.localDescription == Some(answer)
                && store.rooms == old(store.rooms)[joinId := MergeAnswer(Lookup(old(store.rooms), joinId), answer)]
                && roomId == joinId && status == Connected
                && listeners == old(listeners) + [CandidateListener(joinId, Caller, conn)]
    {
      StartDisabledOnceStarted(if fault.Rejects? then fault.message else MissingOfferMessage);
      conn.onIceCandidate := AddDocTo(joinId, Callee);
      if offer.None? {
        status := JoinErrorPrefix + MissingOfferMessage;
        return;
      }
      if RejectsAt(fault, SetRemoteDescription) {
        status := JoinErrorPrefix + fault.message;
        return;
      }
      conn.SetRemoteDescription(offer.value);
      if RejectsAt(fault, CreateAnswer) || RejectsAt(fault, SetLocalDescription) {
        status := JoinErrorPrefix + fault.message;
        return;
      }
      conn.SetLocalDescription(answer);
      if RejectsAt(fault, UpdateDoc) {
        status := JoinErrorPrefix + fault.message;
        return;
      }
      var written := store.UpdateAnswer(joinId, answer);
      listeners := listeners + [CandidateListener(joinId, Caller, conn)];
      roomId := joinId;
      status := Connected;
    }

    /**
     * A local candidate event on `conn`: with the handler create or join
     * installed, a candidate is added to that party's own subcollection and
     * nowhere else; the end-of-candidates event (`None`) and the logging
     * handler write nothing.
     */
    method OnIceCandidate(conn: PeerConnection, candidate: Option<Cand>)
      modifies store
      ensures conn.onIceCandidate.AddDocTo? && candidate.Some? ==>
                var room := conn.onIceCandidate.room;
                var side := conn.onIceCandidate.side;
                store.rooms == old(store.rooms)[room := AddCandidate(Lookup(old(store.rooms), room), side, candidate.value)]
      ensures conn.onIceCandidate.LogCandidate? || candidate.None? ==> store.rooms == old(store.rooms)
    {
      if conn.onIceCandidate.AddDocTo? && candidate.Some? {
        store.AddDoc(conn.onIceCandidate.room, conn.onIceCandidate.side, candidate.value);
      }
    }

    /**
     * The caller's room-snapshot callback: applies the snapshot's answer as the
     * remote description, and shows "Connected!", only when the connection has
     * no remote description yet and the snapshot carries an answer.
     */
    method OnRoomSnapshot(l: Listener, data: Option<RoomDoc>)
      requires l in listeners && l.RoomListener?
      modifies this`status, l.pc`remoteDescription
      ensures l.pc.remoteDescription == AcceptAnswer(old(l.pc.remoteDescription), data)
      ensures status == if old(l.pc.remoteDescription).None? && AnswerIn(data).Some? then Connected else old(status)
    {
      var conn := l.pc;
      if conn.remoteDescription.None? && data.Some? && data.value.answer.Some? {
        conn.SetRemoteDescription(data.value.answer.value);
        status := Connected;
      }
    }

    /**
     * A batch of changes on the other party's candidate subcollection: each
     * `Added` change's candidate is handed to `addIceCandidate`, in batch order;
     * the connection keeps them only if it already has a remote description.
     */
    method OnCandidateChanges(l: Listener, changes: seq<Change>)
      requires l in listeners && l.CandidateListener?
      modifies l.pc`appliedCandidates
      ensures l.pc.remoteDescription.Some? ==>
                l.pc.appliedCandidates == old(l.pc.appliedCandidates) + AddedData(changes)
      ensures l.pc.remoteDescription.None? ==> l.pc.appliedCandidates == old(l.pc.appliedCandidates)
    {
      var conn := l.pc;
      ghost var accepting := conn.remoteDescription.Some?;
      ghost var before := conn.appliedCandidates;
      var i := 0;
      while i < |changes|
        invariant 0 <= i <= |changes|
        invariant conn.remoteDescription.Some? == accepting
        invariant accepting ==> conn.appliedCandidates == before + AddedData(changes[..i])
        invariant !accepting ==> conn.appliedCandidates == before
      {
        var change := changes[i];
        if change.kind == Added {
          var accepted := conn.AddIceCandidate(change.data);
        }
        AddedDataStep(changes, i);
        i := i + 1;
      }
      assert changes[..i] == changes;
      assert changes[..|changes|] == changes;
    }

    /**
     * The `ontrack` callback of `conn` for an event whose first stream is
     * `incoming`: for each of its tracks, the stream the handler closed over
     * gets the track when it is not null; otherwise the component's remote
     * stream is set to `incoming`.
     */
    method OnTrack(conn: PeerConnection, incoming: MediaStream)
      modifies this`remoteStream, conn.trackTarget
      ensures conn.trackTarget != null ==>
                && conn.trackTarget.tracks == WithTracks(old(conn.trackTarget.tracks), old(incoming.tracks))
                && remoteStream == old(remoteStream)
                && (old(conn.trackTarget.Valid()) ==> conn.trackTarget.Valid())
      ensures conn.trackTarget == null ==>
                remoteStream == if old(incoming.tracks) == [] then old(remoteStream) else incoming
    {
      var target := conn.trackTarget;
      var ts := incoming.tracks;
      var i := 0;
      while i < |ts|
        invariant 0 <= i <= |ts|
        invariant target != null ==> target.tracks == WithTracks(old(target.tracks), ts[..i])
        invariant target != null ==> remoteStream == old(remoteStream)
        invariant target == null ==> remoteStream == if i == 0 then old(remoteStream) else incoming
      {
        if target != null {
          target.AddTrack(ts[i]);
        } else {
          remoteStream := incoming;
        }
        assert ts[..i + 1][..i] == ts[..i];
        i := i + 1;
      }
      assert ts[..|ts|] == ts;
      if target != null && old(target.Valid()) {
        WithTracksDistinct(old(target.tracks), ts);
      }
    }
  }
}
