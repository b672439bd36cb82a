/**
 * The document store used as the signaling relay, reduced to what the
 * component does with it: the `rooms` collection, each room's document fields
 * (`offer`, `answer`) and its two candidate subcollections, the three writes
 * (`setDoc` overwrites the fields, `updateDoc` merges into them, `addDoc`
 * appends to a subcollection), the read (`getDoc`), and the batches of
 * changes a subcollection listener receives.
 */
module Relay {
  import opened Wrappers
  import opened Sdp

  /** A document id in the `rooms` collection. */
  type RoomId = string

  /** The party a candidate subcollection belongs to: `callerCandidates` or `calleeCandidates`. */
  datatype Side = Caller | Callee

  function Other(side: Side): Side {
    match side
    case Caller => Callee
    case Callee => Caller
  }

  /** The fields of a room document. */
  datatype RoomDoc = RoomDoc(offer: Option<Desc>, answer: Option<Desc>)

  /**
   * A room: its document (`None` while no document has been written) and its
   * two subcollections. The subcollections are kept apart from the document's
   * fields, as the store keeps them: writing the fields leaves them alone, and
   * adding to a subcollection does not bring the document into existence.
   */
  datatype Room = Room(doc: Option<RoomDoc>, callerCandidates: seq<Cand>, calleeCandidates: seq<Cand>)

  /** What the store holds under an id nothing was ever written to. */
  const EmptyRoom := Room(None, [], [])

  function Candidates(r: Room, side: Side): seq<Cand> {
    match side
    case Caller => r.callerCandidates
    case Callee => r.calleeCandidates
  }

  function Lookup(rooms: map<RoomId, Room>, id: RoomId): Room {
    if id in rooms then rooms[id] else EmptyRoom
  }

  /** `getDoc(ref).exists()`: the document itself was written (candidates alone do not count). */
  predicate DocExists(rooms: map<RoomId, Room>, id: RoomId)
    ensures DocExists(rooms, id) ==> id in rooms
  {
    Lookup(rooms, id).doc.Some?
  }

  /** `setDoc(ref, fields)`: the fields become exactly `d`; the subcollections are untouched. */
  function SetFields(r: Room, d: RoomDoc): (r': Room)
    ensures r'.doc == Some(d)
    ensures forall side :: Candidates(r', side) == Candidates(r, side)
  {
    r.(doc := Some(d))
  }

  /**
   * `updateDoc(ref, {answer})` on an existing document: `answer` is replaced
   * whatever it held, `offer` and the subcollections are kept.
   */
  function MergeAnswer(r: Room, a: Desc): (r': Room)
    requires r.doc.Some?
    ensures r'.doc == Some(RoomDoc(r.doc.value.offer, Some(a)))
    ensures forall side :: Candidates(r', side) == Candidates(r, side)
  {
    r.(doc := Some(r.doc.value.(answer := Some(a))))
  }

  /** `addDoc(collection(ref, side), c)`: appends to that side's subcollection only. */
  function AddCandidate(r: Room, side: Side, c: Cand): (r': Room)
    ensures Candidates(r', side) == Candidates(r, side) + [c]
    ensures Candidates(r', Other(side)) == Candidates(r, Other(side))
    ensures r'.doc == r.doc
  {
    match side
    case Caller => r.(callerCandidates := r.callerCandidates + [c])
    case Callee => r.(calleeCandidates := r.calleeCandidates + [c])
  }

  /** A merge never guards the answer: the last one written is the one the room holds. */
  lemma MergeLastWriterWins(r: Room, a1: Desc, a2: Desc)
    requires r.doc.Some?
    ensures MergeAnswer(MergeAnswer(r, a1), a2) == MergeAnswer(r, a2)
  {
  }

  /** The type of one entry of `snapshot.docChanges()`. */
  datatype ChangeType = Added | Modified | Removed

  /** One entry of `snapshot.docChanges()` on a candidate subcollection, with the document's data. */
  datatype Change = Change(kind: ChangeType, data: Cand)

  /** The data of the `Added` changes of a batch, in batch order. */
  function AddedData(changes: seq<Change>): (r: seq<Cand>)
    ensures |r| <= |changes|
    ensures (forall i :: 0 <= i < |changes| ==> changes[i].kind != Added) ==> r == []
    decreases |changes|
  {
    if changes == [] then []
    else
      var last := changes[|changes| - 1];
      AddedData(changes[..|changes| - 1]) + (if last.kind == Added then [last.data] else [])
  }

  /** One more change of a batch adds its data exactly when it is an `Added` change. */
  lemma AddedDataStep(changes: seq<Change>, i: nat)
    requires i < |changes|
    ensures AddedData(changes[..i + 1]) ==
              AddedData(changes[..i]) + (if changes[i].kind == Added then [changes[i].data] else [])
  {
    assert changes[..i + 1][..i] == changes[..i];
  }

  /**
   * Cutting a stream of changes into batches at any point does not change
   * which candidates come out, nor their order.
   */
  lemma {:induction false} AddedDataConcat(a: seq<Change>, b: seq<Change>)
    ensures AddedData(a + b) == AddedData(a) + AddedData(b)
    decreases |b|
  {
    if b == [] {
      assert a + b == a;
    } else {
      var b' := b[..|b| - 1];
      assert (a + b)[..|a + b| - 1] == a + b';
      assert (a + b)[|a + b| - 1] == b[|b| - 1];
      AddedDataConcat(a, b');
    }
  }

  /**
   * Exactly the data of `Added` changes comes out: every added candidate does,
   * and nothing else does (`Modified` and `Removed` changes contribute nothing).
   */
  lemma {:induction false} AddedDataMembers(changes: seq<Change>)
    ensures forall i :: 0 <= i < |changes| && changes[i].kind == Added ==> changes[i].data in AddedData(changes)
    ensures forall c :: c in AddedData(changes) ==>
              exists i :: 0 <= i < |changes| && changes[i].kind == Added && changes[i].data == c
    ensures |AddedData(changes)| <= |changes|
    decreases |changes|
  {
    if changes != [] {
      var init := changes[..|changes| - 1];
      AddedDataMembers(init);
      forall i | 0 <= i < |changes| && changes[i].kind == Added
        ensures changes[i].data in AddedData(changes)
      {
        if i < |changes| - 1 {
          assert init[i] == changes[i];
        }
      }
      forall c | c in AddedData(changes)
        ensures exists i :: 0 <= i < |changes| && changes[i].kind == Added && changes[i].data == c
      {
        if c in AddedData(init) {
          var j :| 0 <= j < |init| && init[j].kind == Added && init[j].data == c;
          assert changes[j] == init[j];
        } else {
          assert changes[|changes| - 1].kind == Added && changes[|changes| - 1].data == c;
        }
      }
    }
  }

  /**
   * The `rooms` collection. Both parties of a call hold the same store object,
   * so what one writes the other reads.
   */
  class RoomStore {
    var rooms: map<RoomId, Room>

    constructor ()
      ensures rooms == map[]
    {
      rooms := map[];
    }

    /** `getDoc(ref).data()`: the document's fields, or `None` when it does not exist. */
    function GetDoc(id: RoomId): (d: Option<RoomDoc>)
      reads this
      ensures d.Some? <==> DocExists(rooms, id)
      ensures id !in rooms ==> d == None
    {
      Lookup(rooms, id).doc
    }

    /** `setDoc(ref, d)`: a full overwrite of the document's fields. */
    method SetDoc(id: RoomId, d: RoomDoc)
      modifies this
      ensures rooms == old(rooms)[id := SetFields(Lookup(old(rooms), id), d)]
    {
      rooms := rooms[id := SetFields(Lookup(rooms, id), d)];
    }

    /**
     * `updateDoc(ref, {answer: a})`: a merge, which the store refuses when the
     * document does not exist (`ok` is false and nothing is written).
     */
    method UpdateAnswer(id: RoomId, a: Desc) returns (ok: bool)
      modifies this
      ensures ok == DocExists(old(rooms), id)
      ensures ok ==> rooms == old(rooms)[id := MergeAnswer(Lookup(old(rooms), id), a)]
      ensures !ok ==> rooms == old(rooms)
    {
      ok := DocExists(rooms, id);
      if ok {
        rooms := rooms[id := MergeAnswer(Lookup(rooms, id), a)];
      }
    }

    /** `addDoc(collection(ref, side), c)`. */
    method AddDoc(id: RoomId, side: Side, c: Cand)
      modifies this
      ensures rooms == old(rooms)[id := AddCandidate(Lookup(old(rooms), id), side, c)]
    {
      rooms := rooms[id := AddCandidate(Lookup(rooms, id), side, c)];
    }
  }
}
