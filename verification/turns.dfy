/** A turn request: the cell where the player pressed the key, the heading to
    take there, and the identities of the segments that have taken it. */
module Turns {
  import opened Geometry
  import opened Segment

  /** The value of a turn request. */
  datatype Req = Req(trigger: Pos, to: Direction, ids: seq<int>)

  /** Whether the segment with identity id has already taken the request. A
      request that has just been queued has been taken by no one. */
  predicate AlreadyChanged(r: Req, id: int)
    ensures r.ids == [] ==> !AlreadyChanged(r, id)
  {
    id in r.ids
  }

  /** The request with one more identity recorded as having taken it. */
  function AddChanged(r: Req, id: int): (r': Req)
    ensures r'.trigger == r.trigger && r'.to == r.to
    ensures AlreadyChanged(r', id)
    ensures forall i :: AlreadyChanged(r', i) <==> AlreadyChanged(r, i) || i == id
  {
    r.(ids := r.ids + [id])
  }

  /** A segment takes a request when it stands on the trigger cell and has
      not taken that request before; a request just queued applies to
      exactly the segments on its cell. */
  predicate Applies(r: Req, s: Seg)
    ensures Applies(r, s) ==> r.trigger == s.pos
    ensures r.ids == [] ==> (Applies(r, s) <==> r.trigger == s.pos)
  {
    r.trigger == s.pos && !AlreadyChanged(r, s.id)
  }

  /** A segment takes a request at most once: once its identity is recorded
      the request no longer applies to it, and recording another segment
      does not change whether it applies. */
  lemma AppliesAtMostOnce(r: Req, s: Seg, id: int)
    ensures !Applies(AddChanged(r, s.id), s)
    ensures id != s.id ==> (Applies(AddChanged(r, id), s) <==> Applies(r, s))
  {
  }

  /** The request after a segment has been considered: its identity is
      recorded exactly when the request applied to it. */
  function Record(r: Req, s: Seg): (r': Req)
    ensures r'.trigger == r.trigger && r'.to == r.to
    ensures r.trigger == s.pos ==> s.id in r'.ids
    ensures !Applies(r', s)
    ensures Applies(r, s) ==> r'.ids == r.ids + [s.id]
    ensures !Applies(r, s) ==> r' == r
  {
    if Applies(r, s) then AddChanged(r, s.id) else r
  }

  /** No segment identity is recorded twice. */
  predicate Distinct(ids: seq<int>)
  {
    forall a, b :: 0 <= a < b < |ids| ==> ids[a] != ids[b]
  }

  /** Recording a segment never records an identity twice. */
  lemma {:induction false} RecordKeepsDistinct(r: Req, s: Seg)
    requires Distinct(r.ids)
    ensures Distinct(Record(r, s).ids)
  {
    if Applies(r, s) {
      var ids := r.ids + [s.id];
      forall a, b | 0 <= a < b < |ids| ensures ids[a] != ids[b] {
        if b == |ids| - 1 {
          assert ids[a] in r.ids;
        }
      }
    }
  }
}
