/** One body cell of the snake: a stable identity, a position, a heading and
    the velocity cached from that heading. */
module Segment {
  import opened Geometry

  /** The value of a segment as the turn propagation sees it. */
  datatype Seg = Seg(id: int, pos: Pos, dir: Direction)

  /** Where the segment grown behind a segment at p heading d is placed: one
      cell back against the heading, with no wrap applied, so it may lie one
      cell outside the board. */
  function SuccessorPos(p: Pos, d: Direction): (r: Pos)
    ensures r.x == p.x - Velocity(d).dx && r.y == p.y - Velocity(d).dy
  {
    match d
    case Up => Pos(p.x, p.y + SnakeHeight)
    case Down => Pos(p.x, p.y - SnakeHeight)
    case Right => Pos(p.x - SnakeWidth, p.y)
    case Left => Pos(p.x + SnakeWidth, p.y)
  }

  /** A grown segment is adjacent to the segment it was grown from: one move
      along the shared heading brings it exactly onto that segment's cell,
      and it is on the cell lattice whenever its predecessor is. */
  lemma {:induction false} SuccessorStepsOntoPredecessor(p: Pos, d: Direction)
    ensures InBoard(p) ==> Step(SuccessorPos(p, d), Velocity(d)) == p
    ensures OnGrid(p) ==> OnGrid(SuccessorPos(p, d))
  {
    var q := SuccessorPos(p, d);
    assert q.x + Velocity(d).dx == p.x && q.y + Velocity(d).dy == p.y;
  }

  class SnakePart {
    const id: int
    var pos: Pos
    var direction: Direction
    var velocity: Vel

    /** The cached velocity always belongs to the current heading. */
    ghost predicate Valid()
      reads this`velocity, this`direction
    {
      velocity == Velocity(direction)
    }

    function Value(): Seg
      reads this`pos, this`direction
    {
      Seg(id, pos, direction)
    }

    constructor (id: int, pos: Pos, direction: Direction)
      ensures Valid()
      ensures Value() == Seg(id, pos, direction)
    {
      this.id := id;
      this.pos := pos;
      this.direction := direction;
      this.velocity := Velocity(direction);
    }

    /** Takes a new heading and its velocity; the position is untouched. */
    method ChangeDirection(d: Direction)
      modifies this
      ensures Valid()
      ensures Value() == old(Value()).(dir := d)
    {
      direction := d;
      velocity := Velocity(direction);
    }

    /** Moves one cell along the cached velocity, wrapping at the edges. */
    method Move()
      requires Valid()
      modifies this
      ensures Valid()
      ensures Value() == old(Value()).(pos := Step(old(pos), Velocity(direction)))
      ensures InBoard(pos)
    {
      var nx := pos.x + velocity.dx;
      var ny := pos.y + velocity.dy;
      if nx < 0 {
        nx := ScreenWidth - SnakeWidth;
      }
      if nx > ScreenWidth - SnakeWidth {
        nx := 0;
      }
      if ny < 0 {
        ny := ScreenHeight - SnakeHeight;
      }
      if ny > ScreenHeight - SnakeHeight {
        ny := 0;
      }
      pos := Pos(nx, ny);
    }

    /** A new segment one cell behind this one, with the same heading and
        the given fresh identity. */
    method Successor(newId: int) returns (s: SnakePart)
      ensures fresh(s) && s.Valid()
      ensures s.Value() == Seg(newId, SuccessorPos(pos, direction), direction)
    {
      s := new SnakePart(newId, SuccessorPos(pos, direction), direction);
    }
  }
}
