/**
 * The two kinds of signaling payload the room record carries, in the JSON
 * shapes the component writes: a session description as `{type, sdp}` and an
 * ICE candidate as `RTCIceCandidate.toJSON()` returns it. Their contents are
 * produced and consumed by the browser's WebRTC stack and stay opaque here.
 */
module Sdp {
  import opened Wrappers

  /** The `type` member of a session description. */
  datatype SdpType = Offer | PrAnswer | Answer | Rollback

  /** A session description `{type, sdp}`, as stored in a room's `offer` or `answer` field. */
  datatype Desc = Desc(kind: SdpType, sdp: string)

  /** One network-path candidate, as stored in a candidate subcollection. */
  datatype Cand = Cand(
    candidate: string,
    sdpMid: Option<string>,
    sdpMLineIndex: Option<nat>,
    usernameFragment: Option<string>)
}
