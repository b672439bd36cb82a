/**
 * The browser objects the component drives, reduced to the state it reads or
 * changes: a media stream's track list, and a peer connection's two
 * descriptions, applied remote candidates, sending tracks and the two event
 * handlers the component installs. How the browser negotiates, gathers
 * candidates or carries media is not modelled.
 */
module Transport {
  import opened Wrappers
  import opened Sdp
  import opened Relay

  datatype MediaKind = Audio | Video

  /** A media track; two tracks are the same track when they are equal. */
  datatype Track = Track(id: string, kind: MediaKind)

  ghost predicate Distinct(tracks: seq<Track>) {
    forall i, j :: 0 <= i < j < |tracks| ==> tracks[i] != tracks[j]
  }

  /** A stream's tracks after `addTrack(t)`: a track already in the stream is not added again. */
  function WithTrack(tracks: seq<Track>, t: Track): (r: seq<Track>)
    ensures |tracks| <= |r| && r[..|tracks|] == tracks
    ensures forall u :: u in r <==> u in tracks || u == t
  {
    if t in tracks then tracks else tracks + [t]
  }

  /** A stream's tracks after `addTrack` of each of `ts` in turn. */
  function WithTracks(tracks: seq<Track>, ts: seq<Track>): (r: seq<Track>)
    ensures |tracks| <= |r| <= |tracks| + |ts|
    decreases |ts|
  {
    if ts == [] then tracks else WithTrack(WithTracks(tracks, ts[..|ts| - 1]), ts[|ts| - 1])
  }

  /**
   * Adding tracks keeps the tracks already there, in place, and the stream
   * ends up holding exactly the old tracks and the added ones.
   */
  lemma {:induction false} WithTracksMembers(tracks: seq<Track>, ts: seq<Track>)
    ensures |tracks| <= |WithTracks(tracks, ts)| && WithTracks(tracks, ts)[..|tracks|] == tracks
    ensures forall t :: t in WithTracks(tracks, ts) <==> t in tracks || t in ts
    decreases |ts|
  {
    if ts != [] {
      var init := ts[..|ts| - 1];
      WithTracksMembers(tracks, init);
      var before := WithTracks(tracks, init);
      assert WithTracks(tracks, ts) == WithTrack(before, ts[|ts| - 1]);
      assert ts == init + [ts[|ts| - 1]];
      if ts[|ts| - 1] !in before {
        assert (before + [ts[|ts| - 1]])[..|tracks|] == before[..|tracks|];
      }
    }
  }

  /** A stream whose tracks are distinct keeps them distinct whatever is added. */
  lemma {:induction false} WithTracksDistinct(tracks: seq<Track>, ts: seq<Track>)
    requires Distinct(tracks)
    ensures Distinct(WithTracks(tracks, ts))
    decreases |ts|
  {
    if ts != [] {
      WithTracksDistinct(tracks, ts[..|ts| - 1]);
    }
  }

  /** Adding tracks that are all present already changes nothing. */
  lemma {:induction false} WithTracksPresent(tracks: seq<Track>, ts: seq<Track>)
    requires forall t :: t in ts ==> t in tracks
    ensures WithTracks(tracks, ts) == tracks
    decreases |ts|
  {
    if ts != [] {
      var init := ts[..|ts| - 1];
      assert forall t :: t in init ==> t in ts;
      WithTracksPresent(tracks, init);
      assert ts[|ts| - 1] in ts;
    }
  }

  /** Delivering the same tracks a second time leaves the stream as the first delivery left it. */
  lemma WithTracksIdempotent(tracks: seq<Track>, ts: seq<Track>)
    ensures WithTracks(WithTracks(tracks, ts), ts) == WithTracks(tracks, ts)
  {
    WithTracksMembers(tracks, ts);
    WithTracksPresent(WithTracks(tracks, ts), ts);
  }

  /**
   * A `MediaStream`: its track list is the only state the component touches.
   * The browser keeps it as a set, so a valid stream holds no track twice.
   */
  class MediaStream {
    var tracks: seq<Track>

    ghost predicate Valid()
      reads this
    {
      Distinct(tracks)
    }

    method AddTrack(t: Track)
      modifies this
      ensures tracks == WithTrack(old(tracks), t)
      ensures old(Valid()) ==> Valid()
    {
      if t !in tracks {
        tracks := tracks + [t];
      }
    }
  }

  /**
   * The handler in `onicecandidate`: the one installed when the connection is
   * built only logs; create and join replace it with one that adds each
   * candidate to their own side's subcollection of the room.
   */
  datatype IceHandler = LogCandidate | AddDocTo(room: RoomId, side: Side)

  /** An `RTCPeerConnection`, as far as the component reads or changes it. */
  class PeerConnection {
    var localDescription: Option<Desc>
    var remoteDescription: Option<Desc>
    /** Remote candidates the connection has accepted through `addIceCandidate`. */
    var appliedCandidates: seq<Cand>
    /** Local tracks added with `addTrack`. */
    var senders: seq<Track>
    var onIceCandidate: IceHandler
    /**
     * The component's remote stream as the `ontrack` handler saw it: the handler
     * closes over the value the stream state had when the connection was built.
     */
    const trackTarget: MediaStream?

    constructor (trackTarget: MediaStream?)
      ensures localDescription == None && remoteDescription == None
      ensures appliedCandidates == [] && senders == []
      ensures onIceCandidate == LogCandidate
      ensures this.trackTarget == trackTarget
    {
      localDescription, remoteDescription := None, None;
      appliedCandidates, senders := [], [];
      onIceCandidate := LogCandidate;
      this.trackTarget := trackTarget;
    }

    method AddTrack(t: Track)
      modifies this`senders
      ensures senders == old(senders) + [t]
    {
      senders := senders + [t];
    }

    method SetLocalDescription(d: Desc)
      modifies this`localDescription
      ensures localDescription == Some(d)
    {
      localDescription := Some(d);
    }

    method SetRemoteDescription(d: Desc)
      modifies this`remoteDescription
      ensures remoteDescription == Some(d)
    {
      remoteDescription := Some(d);
    }

    /**
     * `addIceCandidate(c)`: refused (the promise rejects and the candidate is
     * dropped) while the connection has no remote description; accepted otherwise.
     */
    method AddIceCandidate(c: Cand) returns (accepted: bool)
      modifies this`appliedCandidates
      ensures accepted == remoteDescription.Some?
      ensures appliedCandidates == if accepted then old(appliedCandidates) + [c] else old(appliedCandidates)
    {
      accepted := remoteDescription.Some?;
      if accepted {
        appliedCandidates := appliedCandidates + [c];
      }
    }
  }
}
