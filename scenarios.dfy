/**
 * Two components sharing one store: the caller creates a room, the callee
 * joins it, and the events that follow are delivered one at a time.
 */
module Scenarios {
  import opened Wrappers
  import opened Sdp
  import opened Relay
  import opened Transport
  import opened VideoRoomComponent

  /**
   * Create, join, then the caller's room snapshot: both sides show
   * "Connected!", each holds the other's description as its remote one, and
   * the room holds the offer and the answer.
   */
  method CallerAndCalleeConnect(store: RoomStore, caller: VideoRoom, callee: VideoRoom,
                                id: RoomId, offer: Desc, answer: Desc)
    requires caller != callee && caller.store == store && callee.store == store
    requires id != ""
    modifies caller, callee, store
    ensures caller.status == Connected && callee.status == Connected
    ensures caller.roomId == id && callee.roomId == id
    ensures caller.pc != null && callee.pc != null && caller.pc != callee.pc
    ensures caller.pc.localDescription == Some(offer) && caller.pc.remoteDescription == Some(answer)
    ensures callee.pc.localDescription == Some(answer) && callee.pc.remoteDescription == Some(offer)
    ensures store.GetDoc(id) == Some(RoomDoc(Some(offer), Some(answer)))
    ensures fresh(caller.pc) && caller.pc.appliedCandidates == []
    ensures RoomListener(id, caller.pc) in caller.listeners
    ensures CandidateListener(id, Callee, caller.pc) in caller.listeners
    ensures callee.pc.onIceCandidate == AddDocTo(id, Callee)
  {
    caller.CreateRoom(id, offer, NoFault);
    callee.SetJoinId(id);
    callee.JoinRoom(answer, NoFault);
    caller.OnRoomSnapshot(RoomListener(id, caller.pc), store.GetDoc(id));
  }

  /**
   * A callee candidate that reaches the caller before the answer snapshot is
   * refused by the caller's connection and is not applied later: the answer
   * then connects the call, but the candidate stays unapplied.
   */
  method EarlyCalleeCandidateIsLost(store: RoomStore, caller: VideoRoom, callee: VideoRoom,
                                    id: RoomId, offer: Desc, answer: Desc, c: Cand)
    requires caller != callee && caller.store == store && callee.store == store
    requires id != "" && id !in store.rooms
    modifies caller, callee, store
    ensures caller.status == Connected && caller.pc != null
    ensures caller.pc.remoteDescription == Some(answer)
    ensures Lookup(store.rooms, id).calleeCandidates == [c]
    ensures caller.pc.appliedCandidates == []
  {
    caller.CreateRoom(id, offer, NoFault);
    callee.SetJoinId(id);
    callee.JoinRoom(answer, NoFault);
    callee.OnIceCandidate(callee.pc, Some(c));
    caller.OnCandidateChanges(CandidateListener(id, Callee, caller.pc), [Change(Added, c)]);
    caller.OnRoomSnapshot(RoomListener(id, caller.pc), store.GetDoc(id));
  }

  /**
   * The same candidate delivered after the answer snapshot is applied, and a
   * later snapshot still showing the answer changes nothing.
   */
  method CalleeCandidateAfterAnswer(store: RoomStore, caller: VideoRoom, callee: VideoRoom,
                                    id: RoomId, offer: Desc, answer: Desc, c: Cand)
    requires caller != callee && caller.store == store && callee.store == store
    requires id != ""
    modifies caller, callee, store
    ensures caller.status == Connected && caller.pc != null
    ensures caller.pc.remoteDescription == Some(answer)
    ensures caller.pc.appliedCandidates == [c]
  {
    CallerAndCalleeConnect(store, caller, callee, id, offer, answer);
    callee.OnIceCandidate(callee.pc, Some(c));
    assert AddedData([Change(Added, c)]) == [c] by {
      assert [Change(Added, c)][..0] == [];
    }
    caller.OnCandidateChanges(CandidateListener(id, Callee, caller.pc), [Change(Added, c)]);
    caller.OnRoomSnapshot(RoomListener(id, caller.pc), store.GetDoc(id));
  }
}
