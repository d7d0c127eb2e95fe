/** The game session: the snake's segments, the live turn requests, the food,
    and the pause and run flags, together with the steps of one iteration of
    the main loop (event drain, propagation and move pass, outcome). */
module Game {
  import opened Geometry
  import opened Segment
  import opened Turns
  import opened Propagation

  datatype Option<T> = None | Some(value: T)

  /** The keys the loop distinguishes. */
  datatype Key = UpKey | DownKey | RightKey | LeftKey | Space | OtherKey
  datatype Event = Quit | KeyPress(key: Key)

  /** The heading an arrow key names; Space and other keys name none. */
  function KeyDirection(k: Key): (r: Option<Direction>)
    ensures r.None? <==> k == Space || k == OtherKey
    ensures r.Some? ==> (Vertical(r.value) <==> k == UpKey || k == DownKey)
  {
    match k
    case UpKey => Some(Up)
    case DownKey => Some(Down)
    case RightKey => Some(Right)
    case LeftKey => Some(Left)
    case _ => None
  }

  /** The turn a key press asks for while the head has heading h: an arrow
      key on the head's own axis is ignored, any other arrow key turns. */
  function Requested(h: Direction, k: Key): (r: Option<Direction>)
    ensures r.Some? <==> KeyDirection(k).Some? && !SameAxis(KeyDirection(k).value, h)
    ensures r.Some? ==> r == KeyDirection(k)
  {
    if !Vertical(h) && k == UpKey then Some(Up)
    else if !Vertical(h) && k == DownKey then Some(Down)
    else if Vertical(h) && k == RightKey then Some(Right)
    else if Vertical(h) && k == LeftKey then Some(Left)
    else None
  }

  /** The requests one event queues for a head with value h, given the pause
      flag as it stands after the event toggled it. */
  function Queued(h: Seg, paused: bool, e: Event): (q: seq<Req>)
    ensures |q| <= 1
    ensures paused ==> q == []
    ensures forall r :: r in q ==> r.trigger == h.pos && r.ids == [] && !SameAxis(r.to, h.dir)
    ensures q != [] <==>
              !paused && e.KeyPress? && KeyDirection(e.key).Some? && !SameAxis(KeyDirection(e.key).value, h.dir)
    ensures q != [] ==> e.KeyPress? && KeyDirection(e.key).Some? && q == [Req(h.pos, KeyDirection(e.key).value, [])]
  {
    if paused || e == Quit then []
    else match Requested(h.dir, e.key)
      case None => []
      case Some(d) => [Req(h.pos, d, [])]
  }

  /** The pause flag after an event: only Space flips it. */
  function Toggled(paused: bool, e: Event): (r: bool)
    ensures r != paused <==> e == KeyPress(Space)
  {
    if e == KeyPress(Space) then !paused else paused
  }

  /** The pause flag after a whole drain of events; without a Space press
      it is unchanged. */
  function DrainPaused(paused: bool, es: seq<Event>): (r: bool)
    ensures KeyPress(Space) !in es ==> r == paused
    decreases |es|
  {
    if es == [] then paused else DrainPaused(Toggled(paused, es[0]), es[1..])
  }

  /** The requests a whole drain of events queues, in arrival order; the head
      does not move during the drain. Each event queues at most one
      request. */
  function DrainQueued(h: Seg, paused: bool, es: seq<Event>): (r: seq<Req>)
    ensures |r| <= |es|
    decreases |es|
  {
    if es == [] then []
    else Queued(h, Toggled(paused, es[0]), es[0]) + DrainQueued(h, Toggled(paused, es[0]), es[1..])
  }

  /** Every request of a drain is triggered at the head's cell, has been taken
      by no one, and turns across the head's heading; a drain during which the
      game stays paused queues nothing. */
  lemma {:induction false} DrainedTurnsAtHead(h: Seg, paused: bool, es: seq<Event>)
    ensures forall r :: r in DrainQueued(h, paused, es) ==>
              r.trigger == h.pos && r.ids == [] && !SameAxis(r.to, h.dir)
    ensures paused && KeyPress(Space) !in es ==> DrainQueued(h, paused, es) == []
    decreases |es|
  {
    if es != [] {
      var p := Toggled(paused, es[0]);
      DrainedTurnsAtHead(h, p, es[1..]);
      assert KeyPress(Space) !in es ==> KeyPress(Space) !in es[1..];
    }
  }

  /** One event taken off the front of the rest of a drain. */
  lemma DrainUnfold(h: Seg, paused: bool, es: seq<Event>, i: nat)
    requires i < |es|
    ensures DrainQueued(h, paused, es[i..]) ==
            Queued(h, Toggled(paused, es[i]), es[i]) + DrainQueued(h, Toggled(paused, es[i]), es[i + 1..])
    ensures DrainPaused(paused, es[i..]) == DrainPaused(Toggled(paused, es[i]), es[i + 1..])
    ensures es[..i + 1] == es[..i] + [es[i]]
  {
    assert es[i..][1..] == es[i + 1..];
  }

  lemma AppendAssoc<T>(a: seq<T>, b: seq<T>, c: seq<T>)
    ensures (a + b) + c == a + (b + c)
  {
  }

  /** Appending the requests of a drain keeps the state invariant, since
      the head has not moved since they were queued. */
  lemma DrainKeepsInvariant(segs: seq<Seg>, q: seq<Req>, nextId: int, paused: bool, es: seq<Event>)
    requires Consistent(segs, q, nextId)
    ensures Consistent(segs, q + DrainQueued(segs[0], paused, es), nextId)
  {
    var d := DrainQueued(segs[0], paused, es);
    DrainedTurnsAtHead(segs[0], paused, es);
    assert forall r :: r in q + d ==> r in q || r in d;
  }

  /** The head does not turn while events are drained, so pressing the same
      arrow key twice in one drain queues two identical requests. */
  lemma RepeatedKeysQueueDuplicates(h: Seg)
    requires Vertical(h.dir)
    ensures DrainQueued(h, false, [KeyPress(RightKey), KeyPress(RightKey)]) ==
            [Req(h.pos, Right, []), Req(h.pos, Right, [])]
  {
    var es := [KeyPress(RightKey), KeyPress(RightKey)];
    assert es[1..] == [KeyPress(RightKey)];
    assert es[1..][1..] == [];
  }

  /** Cells where a food item may be spawned, all of them on the board. */
  predicate InSpawnRange(p: Pos)
    ensures InSpawnRange(p) ==> InBoard(p)
  {
    SnakeWidth <= p.x <= ScreenWidth - SnakeWidth && SnakeHeight <= p.y <= ScreenHeight - SnakeHeight
  }

  /** The segments after growth: a new tail with a fresh identity one cell
      behind the old tail, with its heading; earlier segments unchanged. */
  function Grown(segs: seq<Seg>, id: int): (r: seq<Seg>)
    requires |segs| > 0
    ensures |r| == |segs| + 1 && r[..|segs|] == segs
    ensures r[|segs|].pos == SuccessorPos(segs[|segs| - 1].pos, segs[|segs| - 1].dir)
    ensures r[|segs|].id == id && r[|segs|].dir == segs[|segs| - 1].dir
    ensures InBoard(segs[|segs| - 1].pos) ==>
              Step(r[|segs|].pos, Velocity(r[|segs|].dir)) == segs[|segs| - 1].pos
    ensures OnGrid(segs[|segs| - 1].pos) ==> OnGrid(r[|segs|].pos)
  {
    var tail := segs[|segs| - 1];
    SuccessorStepsOntoPredecessor(tail.pos, tail.dir);
    segs + [Seg(id, SuccessorPos(tail.pos, tail.dir), tail.dir)]
  }

  /** Growth keeps the state invariant once the identity source moves past
      the identity it handed out, and it leaves the head in place. */
  lemma GrownKeepsInvariant(segs: seq<Seg>, q: seq<Req>, nextId: int)
    requires Consistent(segs, q, nextId)
    ensures Consistent(Grown(segs, nextId), q, nextId + 1)
    ensures Grown(segs, nextId)[0] == segs[0]
  {
    var r := Grown(segs, nextId);
    assert forall k :: 0 <= k < |segs| ==> r[k] == segs[k];
  }

  /** The queue rebuilt without the requests marked as taken: taken[k]
      marks the k-th request, so two equal requests queued separately are
      told apart, as objects are by identity. */
  function Without(q: seq<Req>, taken: seq<bool>): (r: seq<Req>)
    requires |taken| == |q|
    ensures |r| <= |q|
  {
    if q == [] then [] else (if taken[0] then [] else [q[0]]) + Without(q[1..], taken[1..])
  }

  /** The rebuilt queue holds exactly the requests that were not marked. */
  lemma {:induction false} WithoutMembers(q: seq<Req>, taken: seq<bool>)
    requires |taken| == |q|
    ensures forall k :: 0 <= k < |q| && !taken[k] ==> q[k] in Without(q, taken)
    ensures forall x :: x in Without(q, taken) ==> exists k :: 0 <= k < |q| && !taken[k] && q[k] == x
    decreases |q|
  {
    if q != [] {
      var rest := Without(q[1..], taken[1..]);
      WithoutMembers(q[1..], taken[1..]);
      forall k | 1 <= k < |q| && !taken[k] ensures q[k] in rest {
        assert q[1..][k - 1] == q[k] && taken[1..][k - 1] == taken[k];
      }
      forall x | x in rest ensures exists k :: 1 <= k < |q| && !taken[k] && q[k] == x {
        var k :| 0 <= k < |q| - 1 && !taken[1..][k] && q[1..][k] == x;
        assert !taken[k + 1] && q[k + 1] == x;
      }
    }
  }

  /** When exactly the requests that applied to segment s are marked, the
      rebuilt queue is the recorded queue without them. */
  lemma {:induction false} WithoutTaken(r: seq<Req>, taken: seq<bool>, q: seq<Req>, s: Seg)
    requires |r| == |taken| == |q|
    requires forall k :: 0 <= k < |q| ==> (taken[k] <==> Applies(q[k], s))
    requires forall k :: 0 <= k < |q| ==> r[k] == Record(q[k], s)
    ensures Without(r, taken) == Unapplied(q, s)
    decreases |q|
  {
    if q != [] {
      WithoutTaken(r[1..], taken[1..], q[1..], s);
    }
  }

  /** With nothing marked the queue is rebuilt unchanged. */
  lemma {:induction false} WithoutNothing(q: seq<Req>, taken: seq<bool>)
    requires |taken| == |q| && forall k :: 0 <= k < |q| ==> !taken[k]
    ensures Without(q, taken) == q
    decreases |q|
  {
    if q != [] {
      WithoutNothing(q[1..], taken[1..]);
    }
  }

  class Game {
    /** The segments, head first; the head is always parts[0]. */
    var parts: seq<SnakePart>
    /** The values of the segments, in the same order. */
    ghost var segs: seq<Seg>
    /** The live turn requests, in the order they were queued. */
    var changes: seq<Req>
    var food: Pos
    var paused: bool
    var running: bool
    /** The source of fresh segment identities. */
    var nextId: int

    /** Every segment caches the velocity of its heading and has the value
        recorded for it, the segment and request values keep the state
        invariant, and the food lies in the spawn range. */
    ghost predicate Valid()
      reads this`parts, this`segs, this`changes, this`nextId, this`food, parts
    {
      |parts| == |segs| &&
      (forall k {:trigger parts[k]} :: 0 <= k < |parts| ==> parts[k].Valid() && parts[k].Value() == segs[k]) &&
      (forall a, b :: 0 <= a < b < |parts| ==> parts[a] != parts[b]) &&
      Consistent(segs, changes, nextId) &&
      InSpawnRange(food)
    }

    /** A one-segment snake in the middle of the board heading up. */
    constructor (food: Pos)
      requires InSpawnRange(food)
      ensures Valid()
      ensures segs == [Seg(0, Pos(ScreenWidth / 2, ScreenHeight / 2), Up)] && changes == []
      ensures this.food == food && !paused && running
    {
      var head := new SnakePart(0, Pos(ScreenWidth / 2, ScreenHeight / 2), Up);
      parts := [head];
      segs := [head.Value()];
      changes := [];
      this.food := food;
      paused := false;
      running := true;
      nextId := 1;
    }

    /** One event of the drain: Quit stops the loop after this iteration,
        Space toggles the pause, and while not paused an arrow key across the
        head's axis queues a request at the head's cell. */
    method HandleEvent(e: Event)
      requires |parts| > 0
      modifies this`changes, this`paused, this`running
      ensures running == (old(running) && e != Quit)
      ensures paused == Toggled(old(paused), e)
      ensures changes == old(changes) + Queued(parts[0].Value(), paused, e)
    {
      if e == Quit {
        running := false;
      } else {
        if e.key == Space {
          paused := !paused;
        }
        if !paused {
          var head := parts[0];
          var to := Requested(head.direction, e.key);
          if to.Some? {
            changes := changes + [Req(head.pos, to.value, [])];
          }
        }
      }
    }

    /** Drains the events of one iteration in arrival order. */
    method HandleEvents(es: seq<Event>)
      requires Valid()
      modifies this`changes, this`paused, this`running
      ensures Valid()
      ensures running == (old(running) && Quit !in es)
      ensures paused == DrainPaused(old(paused), es)
      ensures changes == old(changes) + DrainQueued(segs[0], old(paused), es)
    {
      DrainEvents(es);
      DrainKeepsInvariant(segs, old(changes), nextId, old(paused), es);
    }

    /** The event loop itself, for a head that stays in place. */
    method DrainEvents(es: seq<Event>)
      requires |parts| > 0
      modifies this`changes, this`paused, this`running
      ensures running == (old(running) && Quit !in es)
      ensures paused == DrainPaused(old(paused), es)
      ensures changes == old(changes) + DrainQueued(parts[0].Value(), old(paused), es)
    {
      ghost var h := parts[0].Value();
      var i := 0;
      while i < |es|
        invariant 0 <= i <= |es|
        invariant running == (old(running) && Quit !in es[..i])
        invariant DrainPaused(paused, es[i..]) == DrainPaused(old(paused), es)
        invariant changes + DrainQueued(h, paused, es[i..]) == old(changes) + DrainQueued(h, old(paused), es)
      {
        DrainUnfold(h, paused, es, i);
        ghost var before := changes;
        HandleEvent(es[i]);
        AppendAssoc(before, Queued(h, paused, es[i]), DrainQueued(h, paused, es[i + 1..]));
        i := i + 1;
      }
      assert es[i..] == [] && es[..i] == es;
    }

    /** The inner loop of the pass for one segment: the segment takes, in
        queue order, every live request that applies to it at its pre-move
        cell and records itself in it; when the segment is the last one, the
        requests it took are marked for removal. */
    method TakeTurns(part: SnakePart, last: bool) returns (taken: seq<bool>)
      requires part.Valid()
      modifies part, this`changes
      ensures part.Valid()
      ensures part.Value() == old(part.Value()).(dir := Turned(old(part.direction), old(part.Value()), old(changes)))
      ensures changes == RecordAll(old(changes), old(part.Value()))
      ensures |taken| == |changes|
      ensures Without(changes, taken) == Kept(old(changes), old(part.Value()), last)
    {
      var virtualPos := part.pos;
      ghost var s := part.Value();
      var cs := changes;
      ghost var q := cs;
      taken := [];
      var j := 0;
      while j < |cs|
        invariant 0 <= j <= |cs| == |q| && |taken| == j
        invariant part.Valid() && part.Value() == s.(dir := part.direction)
        invariant Turned(part.direction, s, q[j..]) == Turned(s.dir, s, q)
        invariant forall k :: 0 <= k < j ==> cs[k] == Record(q[k], s)
        invariant forall k :: j <= k < |cs| ==> cs[k] == q[k]
        invariant forall k :: 0 <= k < j ==> (taken[k] <==> last && Applies(q[k], s))
      {
        var c := cs[j];
        assert q[j..][0] == q[j] && q[j..][1..] == q[j + 1..];
        if virtualPos == c.trigger && !AlreadyChanged(c, part.id) {
          part.ChangeDirection(c.to);
          cs := cs[j := AddChanged(c, part.id)];
          taken := taken + [last];
        } else {
          taken := taken + [false];
        }
        j := j + 1;
      }
      changes := cs;
      if last {
        WithoutTaken(cs, taken, q, s);
      } else {
        WithoutNothing(cs, taken);
      }
    }

    /** One segment's share of the pass: it takes its turns, the queue is
        rebuilt without the requests marked, and the segment moves. */
    method ProcessPart(i: nat, ghost S0: seq<Seg>, ghost Q0: seq<Req>)
      requires i < |parts| == |S0| && parts[i].Valid() && parts[i].Value() == S0[i]
      requires changes == QueueAt(S0, Q0, i)
      requires forall k :: 0 <= k < |parts| && k != i ==> parts[k] != parts[i]
      modifies parts[i], this`changes
      ensures forall k :: 0 <= k < |parts| && k != i ==>
                parts[k].Value() == old(parts[k].Value()) && parts[k].Valid() == old(parts[k].Valid())
      ensures parts[i].Valid()
      ensures parts[i].Value() == Advanced(S0[i], QueueAt(S0, Q0, i))
      ensures changes == QueueAt(S0, Q0, i + 1)
      ensures parts == old(parts) && segs == old(segs) && food == old(food) && nextId == old(nextId)
    {
      var part := parts[i];
      var taken := TakeTurns(part, i == |parts| - 1);
      changes := Without(changes, taken);
      part.Move();
    }

    /** The loop of the propagation and move pass over the segments, head to
        tail, from the segment values S0 to the values already recorded. */
    method Pass(ghost S0: seq<Seg>)
      requires |parts| == |S0|
      requires forall k {:trigger parts[k]} :: 0 <= k < |parts| ==> parts[k].Valid() && parts[k].Value() == S0[k]
      requires forall a, b :: 0 <= a < b < |parts| ==> parts[a] != parts[b]
      requires |segs| == |S0|
      requires forall k {:trigger segs[k]} :: 0 <= k < |S0| ==> segs[k] == Advanced(S0[k], QueueAt(S0, changes, k))
      modifies parts, this`changes
      ensures changes == FrameQueue(S0, old(changes))
      ensures forall k {:trigger parts[k]} :: 0 <= k < |parts| ==> parts[k].Valid() && parts[k].Value() == segs[k]
      ensures parts == old(parts) && segs == old(segs) && food == old(food) && nextId == old(nextId)
    {
      ghost var Q0 := changes;
      var i := 0;
      while i < |parts|
        invariant 0 <= i <= |parts| == |S0| == |segs|
        invariant forall k :: 0 <= k < |parts| ==> parts[k].Valid()
        invariant forall k {:trigger parts[k]} :: 0 <= k < i ==> parts[k].Value() == segs[k]
        invariant forall k {:trigger parts[k]} :: i <= k < |parts| ==> parts[k].Value() == S0[k]
        invariant changes == QueueAt(S0, Q0, i)
        invariant parts == old(parts) && segs == old(segs) && food == old(food) && nextId == old(nextId)
      {
        ProcessPart(i, S0, Q0);
        assert parts[i].Value() == segs[i];
        i := i + 1;
      }
    }

    /** The propagation and move pass: head to tail, each segment takes its
        turns (the last one removing what it takes) and then moves one
        cell; the head never reverses. */
    method Propagate()
      requires Valid()
      modifies parts, this`changes, this`segs
      ensures Valid()
      ensures segs == FrameSegs(old(segs), old(changes))
      ensures changes == FrameQueue(old(segs), old(changes))
      ensures segs[0].dir != Opposite(old(segs)[0].dir)
    {
      ghost var S0 := segs;
      ghost var Q0 := changes;
      segs := FrameSegs(S0, Q0);
      FrameSegsAt(S0, Q0);
      Pass(S0);
      FrameKeepsInvariant(S0, Q0, nextId);
    }

    /** Appends a new tail one cell behind the current tail. */
    method Grow()
      requires Valid()
      modifies this`parts, this`segs, this`nextId
      ensures Valid()
      ensures segs == Grown(old(segs), old(nextId))
      ensures |parts| == |old(parts)| + 1
      ensures parts[..|old(parts)|] == old(parts) && fresh(parts[|parts| - 1])
      ensures nextId == old(nextId) + 1
    {
      var tail := parts[|parts| - 1];
      var s := tail.Successor(nextId);
      GrownKeepsInvariant(segs, changes, nextId);
      parts := parts + [s];
      segs := Grown(segs, nextId);
      nextId := nextId + 1;
    }

    /** The outcome of a frame, given whether the moved head overlaps the
        food and whether it overlaps a body segment: eating takes precedence
        (new food and growth), otherwise a self-collision ends the game. */
    method Resolve(hitFood: bool, hitSelf: bool, newFood: Pos)
      requires Valid() && InSpawnRange(newFood)
      modifies this`food, this`parts, this`segs, this`nextId, this`running
      ensures Valid()
      ensures hitFood ==> food == newFood && segs == Grown(old(segs), old(nextId)) && running == old(running)
      ensures hitFood ==> nextId == old(nextId) + 1 && |parts| == |old(parts)| + 1 &&
                          parts[..|old(parts)|] == old(parts)
      ensures !hitFood ==> food == old(food) && segs == old(segs) && running == (old(running) && !hitSelf)
      ensures !hitFood ==> nextId == old(nextId) && parts == old(parts)
    {
      if hitFood {
        food := newFood;
        Grow();
      } else if hitSelf {
        running := false;
      }
    }

    /** The unpaused part of an iteration: the propagation and move pass,
        then its outcome. */
    method Update(hitFood: bool, hitSelf: bool, newFood: Pos)
      requires Valid() && InSpawnRange(newFood)
      modifies parts, this`changes, this`food, this`parts, this`segs, this`nextId, this`running
      ensures Valid()
      ensures changes == FrameQueue(old(segs), old(changes))
      ensures segs == if hitFood then Grown(FrameSegs(old(segs), old(changes)), old(nextId))
                      else FrameSegs(old(segs), old(changes))
      ensures segs[0].dir != Opposite(old(segs)[0].dir)
      ensures food == if hitFood then newFood else old(food)
      ensures running == (old(running) && (hitFood || !hitSelf))
      ensures nextId == if hitFood then old(nextId) + 1 else old(nextId)
    {
      Propagate();
      Resolve(hitFood, hitSelf, newFood);
    }

    /** One iteration of the main loop: drain the events, and unless paused
        run the propagation and move pass and resolve its outcome. */
    method Tick(es: seq<Event>, hitFood: bool, hitSelf: bool, newFood: Pos)
      requires Valid() && running && InSpawnRange(newFood)
      modifies parts, this`changes, this`paused, this`running, this`food, this`parts, this`segs, this`nextId
      ensures Valid()
      ensures paused == DrainPaused(old(paused), es)
      ensures paused ==> segs == old(segs) && food == old(food)
      ensures paused ==> changes == old(changes) + DrainQueued(old(segs)[0], old(paused), es)
      ensures !paused ==>
                var queued := old(changes) + DrainQueued(old(segs)[0], old(paused), es);
                var moved := FrameSegs(old(segs), queued);
                changes == FrameQueue(old(segs), queued) &&
                segs == (if hitFood then Grown(moved, old(nextId)) else moved) &&
                segs[0].dir != Opposite(old(segs)[0].dir)
      ensures !paused ==> food == (if hitFood then newFood else old(food))
      ensures running == (Quit !in es && (paused || hitFood || !hitSelf))
      ensures nextId == if !paused && hitFood then old(nextId) + 1 else old(nextId)
    {
      HandleEvents(es);
      if !paused {
        Update(hitFood, hitSelf, newFood);
      }
    }
  }
}
