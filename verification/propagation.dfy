/** The per-frame turn propagation and move pass, as a closed-form
    specification over values. Segments are processed head to tail; each
    takes every live request that applies to it at its pre-move position,
    records itself in it, and then moves. Only the last segment removes the
    requests it takes. */
module Propagation {
  import opened Geometry
  import opened Segment
  import opened Turns

  /** The headings of the requests of q that apply to s. */
  function Headings(q: seq<Req>, s: Seg): set<Direction>
    decreases |q|
  {
    if q == [] then {} else (if Applies(q[0], s) then {q[0].to} else {}) + Headings(q[1..], s)
  }

  /** The heading a segment ends with after considering the queue in order,
      starting from heading d: every request that applies overrides the
      heading chosen so far. The result is the starting heading or the
      heading of a request that applies. */
  function Turned(d: Direction, s: Seg, q: seq<Req>): (r: Direction)
    ensures r == d || r in Headings(q, s)
    decreases |q|
  {
    if q == [] then d else Turned(if Applies(q[0], s) then q[0].to else d, s, q[1..])
  }

  /** Every request of the queue after segment s has been considered: none
      is removed, each keeps its cell and heading, and none applies to s
      any more. */
  function RecordAll(q: seq<Req>, s: Seg): (r: seq<Req>)
    ensures |r| == |q|
    ensures forall k :: 0 <= k < |q| ==> r[k].trigger == q[k].trigger && r[k].to == q[k].to
    ensures forall x :: x in r ==> !Applies(x, s)
  {
    seq(|q|, k requires 0 <= k < |q| => Record(q[k], s))
  }

  /** The requests that did not apply to s, in their original order: none
      of the survivors applies to s. */
  function Unapplied(q: seq<Req>, s: Seg): (r: seq<Req>)
    ensures |r| <= |q|
    ensures forall x :: x in r ==> !Applies(x, s)
    decreases |q|
  {
    if q == [] then [] else (if Applies(q[0], s) then [] else [q[0]]) + Unapplied(q[1..], s)
  }

  /** The queue after segment s has been processed: the last segment drops the
      requests it takes, every other segment only records itself. Either
      way no live request applies to s afterwards. */
  function Kept(q: seq<Req>, s: Seg, last: bool): (r: seq<Req>)
    ensures !last ==> |r| == |q|
    ensures |r| <= |q|
    ensures forall x :: x in r ==> !Applies(x, s)
  {
    if last then Unapplied(q, s) else RecordAll(q, s)
  }

  /** The live queue once the first j segments have been processed. A segment
      is untouched until its own turn, so its pre-move value is segs[j].
      The queue only shrinks at the last segment. */
  function QueueAt(segs: seq<Seg>, reqs: seq<Req>, j: nat): (r: seq<Req>)
    requires j <= |segs|
    ensures j < |segs| ==> |r| == |reqs|
    ensures |r| <= |reqs|
  {
    if j == 0 then reqs else Kept(QueueAt(segs, reqs, j - 1), segs[j - 1], j == |segs|)
  }

  /** A segment after taking its turns from queue q and moving one cell: it
      keeps its identity, ends on the board one move along its new heading,
      and that heading is its own or that of a request applying to it. */
  function Advanced(s: Seg, q: seq<Req>): (r: Seg)
    ensures r.id == s.id && InBoard(r.pos) && r.pos == Step(s.pos, Velocity(r.dir))
    ensures r.dir == s.dir || r.dir in Headings(q, s)
  {
    var d := Turned(s.dir, s, q);
    Seg(s.id, Step(s.pos, Velocity(d)), d)
  }

  /** The segments after one frame, as many as before. */
  function FrameSegs(segs: seq<Seg>, reqs: seq<Req>): (r: seq<Seg>)
    ensures |r| == |segs|
  {
    seq(|segs|, k requires 0 <= k < |segs| => Advanced(segs[k], QueueAt(segs, reqs, k)))
  }

  /** Segment k of a frame is that segment advanced over the queue it met. */
  lemma FrameSegsAt(segs: seq<Seg>, reqs: seq<Req>)
    ensures |FrameSegs(segs, reqs)| == |segs|
    ensures forall k :: 0 <= k < |segs| ==> FrameSegs(segs, reqs)[k] == Advanced(segs[k], QueueAt(segs, reqs, k))
  {
  }

  /** The live queue after one frame: never longer than before, and no
      survivor applies to the last segment. */
  function FrameQueue(segs: seq<Seg>, reqs: seq<Req>): (r: seq<Req>)
    ensures |r| <= |reqs|
    ensures |segs| > 0 ==> forall x :: x in r ==> !Applies(x, segs[|segs| - 1])
  {
    QueueAt(segs, reqs, |segs|)
  }

  // ---------------------------------------------------------------------
  // Which heading a segment takes

  /** When no request of the queue applies to s, the heading is kept. */
  lemma {:induction false} TurnedKeepsWhenNoneApplies(d: Direction, s: Seg, q: seq<Req>)
    requires forall k :: 0 <= k < |q| ==> !Applies(q[k], s)
    ensures Turned(d, s, q) == d
    decreases |q|
  {
    if q != [] {
      assert !Applies(q[0], s);
      assert forall m :: 0 <= m < |q| - 1 ==> q[1..][m] == q[m + 1];
      TurnedKeepsWhenNoneApplies(d, s, q[1..]);
    }
  }

  /** When q[k] is the last request of the queue that applies to s, the
      heading ends as q[k].to. */
  lemma {:induction false} TurnedTakesLastApplying(d: Direction, s: Seg, q: seq<Req>, k: nat)
    requires k < |q| && Applies(q[k], s)
    requires forall m :: k < m < |q| ==> !Applies(q[m], s)
    ensures Turned(d, s, q) == q[k].to
    decreases |q|
  {
    var d' := if Applies(q[0], s) then q[0].to else d;
    var rest := q[1..];
    assert forall m :: 0 <= m < |rest| ==> rest[m] == q[m + 1];
    if k == 0 {
      TurnedKeepsWhenNoneApplies(d', s, rest);
    } else {
      TurnedTakesLastApplying(d', s, rest, k - 1);
    }
  }

  /** The heading a segment ends with is that of the LAST request in the queue
      that applies to it; when none applies it keeps its heading. */
  lemma TurnedIsLastApplying(d: Direction, s: Seg, q: seq<Req>)
    ensures (forall k :: 0 <= k < |q| ==> !Applies(q[k], s)) ==> Turned(d, s, q) == d
    ensures forall k :: (0 <= k < |q| && Applies(q[k], s) &&
                         (forall m :: k < m < |q| ==> !Applies(q[m], s))) ==> Turned(d, s, q) == q[k].to
  {
    if forall k :: 0 <= k < |q| ==> !Applies(q[k], s) {
      TurnedKeepsWhenNoneApplies(d, s, q);
    }
    forall k | 0 <= k < |q| && Applies(q[k], s) && (forall m :: k < m < |q| ==> !Applies(q[m], s))
      ensures Turned(d, s, q) == q[k].to
    {
      TurnedTakesLastApplying(d, s, q, k);
    }
  }

  /** If every request that applies to s turns across the axis of d0, and the
      heading so far is d0 or across it, the final heading is never the
      reverse of d0. */
  lemma {:induction false} TurnedStaysOffAxis(d0: Direction, d: Direction, s: Seg, q: seq<Req>)
    requires d == d0 || !SameAxis(d, d0)
    requires forall r :: r in q && Applies(r, s) ==> !SameAxis(r.to, d0)
    ensures Turned(d, s, q) == d0 || !SameAxis(Turned(d, s, q), d0)
    decreases |q|
  {
    if q != [] {
      var d' := if Applies(q[0], s) then q[0].to else d;
      assert forall r :: r in q[1..] ==> r in q;
      TurnedStaysOffAxis(d0, d', s, q[1..]);
    }
  }

  // ---------------------------------------------------------------------
  // How the queue evolves

  /** Request keys: what a request is apart from who has taken it. */
  function Keys(q: seq<Req>): seq<(Pos, Direction)>
  {
    seq(|q|, k requires 0 <= k < |q| => (q[k].trigger, q[k].to))
  }

  /** a is b with some elements left out, the rest in their order. */
  predicate Subseq<T(==)>(a: seq<T>, b: seq<T>)
    decreases |b|
  {
    if a == [] then true
    else if b == [] then false
    else (a[0] == b[0] && Subseq(a[1..], b[1..])) || Subseq(a, b[1..])
  }

  /** Dropping the requests a segment takes keeps the others in order. */
  lemma {:induction false} UnappliedKeepsOrder(q: seq<Req>, s: Seg)
    ensures Subseq(Keys(Unapplied(q, s)), Keys(q))
    decreases |q|
  {
    if q != [] {
      UnappliedKeepsOrder(q[1..], s);
      var rest := Unapplied(q[1..], s);
      assert Keys(q)[1..] == Keys(q[1..]);
      if !Applies(q[0], s) {
        var u := [q[0]] + rest;
        assert Unapplied(q, s) == u;
        assert Keys(u)[0] == Keys(q)[0];
        assert Keys(u)[1..] == Keys(rest);
      } else {
        assert Unapplied(q, s) == rest;
      }
    }
  }

  /** A request leaves with the last segment exactly when it applies to it,
      and a request that does not apply survives as many times as it was
      queued. */
  lemma {:induction false} UnappliedMembers(q: seq<Req>, s: Seg)
    ensures forall r :: r in Unapplied(q, s) <==> r in q && !Applies(r, s)
    ensures forall r :: multiset(Unapplied(q, s))[r] == if Applies(r, s) then 0 else multiset(q)[r]
    decreases |q|
  {
    if q != [] {
      UnappliedMembers(q[1..], s);
      assert q == [q[0]] + q[1..];
    }
  }

  /** When every request applies to the last segment, the queue empties. */
  lemma {:induction false} UnappliedAllTaken(q: seq<Req>, s: Seg)
    requires forall r :: r in q ==> Applies(r, s)
    ensures Unapplied(q, s) == []
    decreases |q|
  {
    if q != [] {
      assert q[0] in q;
      assert forall r :: r in q[1..] ==> r in q;
      UnappliedAllTaken(q[1..], s);
    }
  }

  lemma {:induction false} UnappliedKeepsProperty(q: seq<Req>, s: Seg, id: int)
    requires forall r :: r in q ==> id in r.ids
    ensures forall r :: r in Unapplied(q, s) ==> id in r.ids
  {
    UnappliedMembers(q, s);
  }

  /** Before the last segment's turn nothing leaves the queue: every request
      keeps its place, its cell and its heading, and only gains recorded
      identities at the end of its list. */
  lemma {:induction false} NothingLeavesBeforeTail(segs: seq<Seg>, reqs: seq<Req>, j: nat)
    requires j < |segs|
    ensures |QueueAt(segs, reqs, j)| == |reqs|
    ensures Keys(QueueAt(segs, reqs, j)) == Keys(reqs)
    ensures forall k :: 0 <= k < |reqs| ==> reqs[k].ids <= QueueAt(segs, reqs, j)[k].ids
  {
    if j > 0 {
      NothingLeavesBeforeTail(segs, reqs, j - 1);
      var q := QueueAt(segs, reqs, j - 1);
      assert QueueAt(segs, reqs, j) == RecordAll(q, segs[j - 1]);
      forall k | 0 <= k < |reqs|
        ensures reqs[k].ids <= QueueAt(segs, reqs, j)[k].ids
      {
        assert q[k].ids <= Record(q[k], segs[j - 1]).ids;
      }
    }
  }

  /** After a frame the surviving requests are exactly those that were live
      when the last segment came to be processed and did not apply to it,
      each as many times as it was live; and they keep the relative order in
      which they were queued. */
  lemma FrameQueueRemovesOnlyViaTail(segs: seq<Seg>, reqs: seq<Req>)
    requires |segs| > 0
    ensures forall r :: r in FrameQueue(segs, reqs) <==>
              r in QueueAt(segs, reqs, |segs| - 1) && !Applies(r, segs[|segs| - 1])
    ensures forall r :: multiset(FrameQueue(segs, reqs))[r] ==
              if Applies(r, segs[|segs| - 1]) then 0 else multiset(QueueAt(segs, reqs, |segs| - 1))[r]
    ensures Subseq(Keys(FrameQueue(segs, reqs)), Keys(reqs))
  {
    var n := |segs|;
    var q := QueueAt(segs, reqs, n - 1);
    assert FrameQueue(segs, reqs) == Unapplied(q, segs[n - 1]);
    UnappliedMembers(q, segs[n - 1]);
    UnappliedKeepsOrder(q, segs[n - 1]);
    NothingLeavesBeforeTail(segs, reqs, n - 1);
  }

  /** With a single segment the head is the tail: a request queued at its
      cell this frame is taken and removed in the same frame. */
  lemma SingleSegmentConsumesFreshTurns(s: Seg, reqs: seq<Req>)
    requires forall r :: r in reqs ==> r.trigger == s.pos && r.ids == []
    ensures FrameQueue([s], reqs) == []
    ensures reqs != [] ==> FrameSegs([s], reqs)[0].dir == reqs[|reqs| - 1].to
  {
    assert QueueAt([s], reqs, 0) == reqs && [s][0] == s;
    assert FrameQueue([s], reqs) == Kept(reqs, s, true);
    UnappliedAllTaken(reqs, s);
    TurnedIsLastApplying(s.dir, s, reqs);
    if reqs != [] {
      assert Applies(reqs[|reqs| - 1], s);
    }
  }

  // ---------------------------------------------------------------------
  // Each segment takes a request at most once

  predicate AllDistinct(q: seq<Req>)
  {
    forall r :: r in q ==> Distinct(r.ids)
  }

  /** No identity is ever recorded twice in a request. */
  lemma {:induction false} QueueKeepsIdsDistinct(segs: seq<Seg>, reqs: seq<Req>, j: nat)
    requires j <= |segs|
    requires AllDistinct(reqs)
    ensures AllDistinct(QueueAt(segs, reqs, j))
  {
    if j > 0 {
      QueueKeepsIdsDistinct(segs, reqs, j - 1);
      var q := QueueAt(segs, reqs, j - 1);
      if j == |segs| {
        UnappliedMembers(q, segs[j - 1]);
      } else {
        forall r | r in RecordAll(q, segs[j - 1]) ensures Distinct(r.ids) {
          var k :| 0 <= k < |q| && r == Record(q[k], segs[j - 1]);
          RecordKeepsDistinct(q[k], segs[j - 1]);
        }
      }
    }
  }

  // ---------------------------------------------------------------------
  // Segment movement within a frame

  /** Every segment ends the frame inside the board, one move along the
      heading it ended with, and on the cell lattice if it started on it. */
  lemma FrameMovesEachSegment(segs: seq<Seg>, reqs: seq<Req>)
    ensures |FrameSegs(segs, reqs)| == |segs|
    ensures forall k :: 0 <= k < |segs| ==>
              FrameSegs(segs, reqs)[k].id == segs[k].id &&
              InBoard(FrameSegs(segs, reqs)[k].pos) &&
              FrameSegs(segs, reqs)[k].pos == Step(segs[k].pos, Velocity(FrameSegs(segs, reqs)[k].dir)) &&
              (OnGrid(segs[k].pos) ==> OnGrid(FrameSegs(segs, reqs)[k].pos))
  {
    forall k | 0 <= k < |segs|
      ensures FrameSegs(segs, reqs)[k].id == segs[k].id
      ensures InBoard(FrameSegs(segs, reqs)[k].pos)
      ensures FrameSegs(segs, reqs)[k].pos == Step(segs[k].pos, Velocity(FrameSegs(segs, reqs)[k].dir))
      ensures OnGrid(segs[k].pos) ==> OnGrid(FrameSegs(segs, reqs)[k].pos)
    {
      var a := Advanced(segs[k], QueueAt(segs, reqs, k));
      assert FrameSegs(segs, reqs)[k] == a;
      if OnGrid(segs[k].pos) {
        StepKeepsLattice(segs[k].pos, a.dir);
      }
    }
  }

  /** A turn queued at the head's cell takes effect on the head's move in the
      same frame; when several apply, the latest queued one decides. */
  lemma HeadTakesLatestTurn(segs: seq<Seg>, reqs: seq<Req>, k: nat)
    requires |segs| > 0
    requires k < |reqs| && Applies(reqs[k], segs[0])
    requires forall m :: k < m < |reqs| ==> !Applies(reqs[m], segs[0])
    ensures FrameSegs(segs, reqs)[0].dir == reqs[k].to
    ensures FrameSegs(segs, reqs)[0].pos == Step(segs[0].pos, Velocity(reqs[k].to))
  {
    TurnedIsLastApplying(segs[0].dir, segs[0], reqs);
  }

  // ---------------------------------------------------------------------
  // The head never reverses into its neck

  /** Every live request has either been taken by the head already, or was
      queued at the head's present cell and turns across its heading. */
  predicate HeadPending(head: Seg, q: seq<Req>)
  {
    forall r :: r in q ==> head.id in r.ids || (r.trigger == head.pos && !SameAxis(r.to, head.dir))
  }

  lemma {:induction false} KeptKeepsId(q: seq<Req>, s: Seg, last: bool, id: int)
    requires forall r :: r in q ==> id in r.ids
    ensures forall r :: r in Kept(q, s, last) ==> id in r.ids
  {
    if last {
      UnappliedKeepsProperty(q, s, id);
    } else {
      forall r | r in RecordAll(q, s) ensures id in r.ids {
        var k :| 0 <= k < |q| && r == Record(q[k], s);
      }
    }
  }

  /** Once the head has been processed every live request carries its
      identity, and later segments keep it that way. */
  lemma {:induction false} HeadRecordedFromThenOn(segs: seq<Seg>, reqs: seq<Req>, j: nat)
    requires 1 <= j <= |segs|
    requires HeadPending(segs[0], reqs)
    ensures forall r :: r in QueueAt(segs, reqs, j) ==> segs[0].id in r.ids
  {
    var h := segs[0];
    if j == 1 {
      if |segs| == 1 {
        UnappliedMembers(reqs, h);
      } else {
        forall r | r in RecordAll(reqs, h) ensures h.id in r.ids {
          var k :| 0 <= k < |reqs| && r == Record(reqs[k], h);
        }
      }
    } else {
      HeadRecordedFromThenOn(segs, reqs, j - 1);
      KeptKeepsId(QueueAt(segs, reqs, j - 1), segs[j - 1], j == |segs|, h.id);
    }
  }

  /** Segment identities are distinct and below the next fresh identity, and
      every segment lies on the cell lattice. */
  predicate WellFormed(segs: seq<Seg>, nextId: int)
  {
    |segs| > 0 &&
    (forall k :: 0 <= k < |segs| ==> OnGrid(segs[k].pos) && segs[k].id < nextId) &&
    (forall a, b :: 0 <= a < b < |segs| ==> segs[a].id != segs[b].id)
  }

  /** The state invariant between frames: the segments are well formed, no
      request records an identity twice, and every live request not yet
      taken by the head lies at the head's cell across its heading. */
  predicate Consistent(segs: seq<Seg>, q: seq<Req>, nextId: int)
  {
    WellFormed(segs, nextId) && AllDistinct(q) && HeadPending(segs[0], q)
  }

  /** A frame keeps the state invariant and never reverses the head. */
  lemma FrameKeepsInvariant(segs: seq<Seg>, reqs: seq<Req>, nextId: int)
    requires Consistent(segs, reqs, nextId)
    ensures Consistent(FrameSegs(segs, reqs), FrameQueue(segs, reqs), nextId)
    ensures FrameSegs(segs, reqs)[0].dir != Opposite(segs[0].dir)
  {
    FrameMovesEachSegment(segs, reqs);
    FrameNeverReversesHead(segs, reqs);
    QueueKeepsIdsDistinct(segs, reqs, |segs|);
  }

  /** In one frame the head either keeps its heading or turns across it, never
      into its reverse; afterwards every live request has been taken by it. */
  lemma FrameNeverReversesHead(segs: seq<Seg>, reqs: seq<Req>)
    requires |segs| > 0
    requires HeadPending(segs[0], reqs)
    ensures FrameSegs(segs, reqs)[0].dir != Opposite(segs[0].dir)
    ensures forall r :: r in FrameQueue(segs, reqs) ==> segs[0].id in r.ids
  {
    var h := segs[0];
    TurnedStaysOffAxis(h.dir, h.dir, h, reqs);
    HeadRecordedFromThenOn(segs, reqs, |segs|);
  }

  // ---------------------------------------------------------------------
  // A turn travels down a three-segment snake: a straight snake heading up
  // from (300, 300), with a turn to the right queued at the head's cell.

  lemma ScenarioFrameOne()
    ensures FrameSegs([Seg(0, Pos(300, 300), Up), Seg(1, Pos(300, 320), Up), Seg(2, Pos(300, 340), Up)],
                      [Req(Pos(300, 300), Right, [])]) ==
            [Seg(0, Pos(320, 300), Right), Seg(1, Pos(300, 300), Up), Seg(2, Pos(300, 320), Up)]
    ensures FrameQueue([Seg(0, Pos(300, 300), Up), Seg(1, Pos(300, 320), Up), Seg(2, Pos(300, 340), Up)],
                       [Req(Pos(300, 300), Right, [])]) == [Req(Pos(300, 300), Right, [0])]
  {
    var s := [Seg(0, Pos(300, 300), Up), Seg(1, Pos(300, 320), Up), Seg(2, Pos(300, 340), Up)];
    var q := [Req(Pos(300, 300), Right, [])];
    var r := [Req(Pos(300, 300), Right, [0])];
    assert Applies(q[0], s[0]) && Record(q[0], s[0]) == r[0];
    assert RecordAll(q, s[0]) == r;
    assert QueueAt(s, q, 1) == r;
    assert !Applies(r[0], s[1]) && Record(r[0], s[1]) == r[0];
    assert RecordAll(r, s[1]) == r;
    assert QueueAt(s, q, 2) == r;
    assert !Applies(r[0], s[2]) && Unapplied(r, s[2]) == r;
    assert QueueAt(s, q, 3) == r;
    assert Turned(Up, s[0], q) == Right;
    assert Turned(Up, s[1], r) == Up;
    assert Turned(Up, s[2], r) == Up;
  }

  lemma ScenarioFrameTwo()
    ensures FrameSegs([Seg(0, Pos(320, 300), Right), Seg(1, Pos(300, 300), Up), Seg(2, Pos(300, 320), Up)],
                      [Req(Pos(300, 300), Right, [0])]) ==
            [Seg(0, Pos(340, 300), Right), Seg(1, Pos(320, 300), Right), Seg(2, Pos(300, 300), Up)]
    ensures FrameQueue([Seg(0, Pos(320, 300), Right), Seg(1, Pos(300, 300), Up), Seg(2, Pos(300, 320), Up)],
                       [Req(Pos(300, 300), Right, [0])]) == [Req(Pos(300, 300), Right, [0, 1])]
  {
    var s := [Seg(0, Pos(320, 300), Right), Seg(1, Pos(300, 300), Up), Seg(2, Pos(300, 320), Up)];
    var q := [Req(Pos(300, 300), Right, [0])];
    var r := [Req(Pos(300, 300), Right, [0, 1])];
    assert !Applies(q[0], s[0]) && Record(q[0], s[0]) == q[0];
    assert RecordAll(q, s[0]) == q;
    assert QueueAt(s, q, 1) == q;
    assert Applies(q[0], s[1]) && Record(q[0], s[1]) == r[0];
    assert RecordAll(q, s[1]) == r;
    assert QueueAt(s, q, 2) == r;
    assert !Applies(r[0], s[2]) && Unapplied(r, s[2]) == r;
    assert QueueAt(s, q, 3) == r;
    assert Turned(Right, s[0], q) == Right;
    assert Turned(Up, s[1], q) == Right;
    assert Turned(Up, s[2], r) == Up;
  }

  lemma ScenarioFrameThree()
    ensures FrameSegs([Seg(0, Pos(340, 300), Right), Seg(1, Pos(320, 300), Right), Seg(2, Pos(300, 300), Up)],
                      [Req(Pos(300, 300), Right, [0, 1])]) ==
            [Seg(0, Pos(360, 300), Right), Seg(1, Pos(340, 300), Right), Seg(2, Pos(320, 300), Right)]
    ensures FrameQueue([Seg(0, Pos(340, 300), Right), Seg(1, Pos(320, 300), Right), Seg(2, Pos(300, 300), Up)],
                       [Req(Pos(300, 300), Right, [0, 1])]) == []
  {
    var s := [Seg(0, Pos(340, 300), Right), Seg(1, Pos(320, 300), Right), Seg(2, Pos(300, 300), Up)];
    var q := [Req(Pos(300, 300), Right, [0, 1])];
    assert !Applies(q[0], s[0]) && Record(q[0], s[0]) == q[0];
    assert RecordAll(q, s[0]) == q;
    assert QueueAt(s, q, 1) == q;
    assert !Applies(q[0], s[1]) && Record(q[0], s[1]) == q[0];
    assert RecordAll(q, s[1]) == q;
    assert QueueAt(s, q, 2) == q;
    assert Applies(q[0], s[2]) && Unapplied(q, s[2]) == [];
    assert QueueAt(s, q, 3) == [];
    assert Turned(Right, s[0], q) == Right;
    assert Turned(Right, s[1], q) == Right;
    assert Turned(Up, s[2], q) == Right;
  }
  /** Each segment takes the turn on the frame it reaches the trigger cell,
      one frame after the segment ahead of it; the request leaves the queue
      in the frame the tail takes it, and the snake ends straight again,
      heading right. */
  lemma TurnTravelsDownThreeSegments()
    ensures
      var s0 := [Seg(0, Pos(300, 300), Up), Seg(1, Pos(300, 320), Up), Seg(2, Pos(300, 340), Up)];
      var q0 := [Req(Pos(300, 300), Right, [])];
      var s1 := FrameSegs(s0, q0);
      var q1 := FrameQueue(s0, q0);
      var s2 := FrameSegs(s1, q1);
      var q2 := FrameQueue(s1, q1);
      var s3 := FrameSegs(s2, q2);
      var q3 := FrameQueue(s2, q2);
      s1[0].dir == Right && s1[1].dir == Up && s1[2].dir == Up && q1 != [] &&
      s2[1].dir == Right && s2[2].dir == Up && q2 != [] &&
      s3 == [Seg(0, Pos(360, 300), Right), Seg(1, Pos(340, 300), Right), Seg(2, Pos(320, 300), Right)] &&
      q3 == []
  {
    ScenarioFrameOne();
    ScenarioFrameTwo();
    ScenarioFrameThree();
  }
}
