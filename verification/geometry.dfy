/** Board geometry of the snake game: the fixed configuration, the four
    headings with their velocities, and the toroidal step that a segment
    takes once per frame. Positions are segment centres in screen
    coordinates, so "up" decreases y. */
module Geometry {
  const ScreenWidth: int := 600
  const ScreenHeight: int := 600
  const SnakeWidth: int := 20
  const SnakeHeight: int := 20
  /** One step per frame is exactly one cell. */
  const Speed: int := SnakeWidth
  /** Largest coordinate a segment centre may have after a move. */
  const MaxX: int := ScreenWidth - SnakeWidth
  const MaxY: int := ScreenHeight - SnakeHeight

  datatype Pos = Pos(x: int, y: int)
  datatype Vel = Vel(dx: int, dy: int)

  datatype Direction = Up | Down | Right | Left

  predicate Vertical(d: Direction) { d == Up || d == Down }

  /** Up/Down share an axis, and so do Right/Left. */
  predicate SameAxis(a: Direction, b: Direction) { Vertical(a) == Vertical(b) }

  function Opposite(d: Direction): Direction
  {
    match d
    case Up => Down
    case Down => Up
    case Right => Left
    case Left => Right
  }

  function Abs(n: int): nat { if n < 0 then -n else n }

  /** The velocity of a heading: exactly one non-zero component, of
      magnitude Speed, on the heading's own axis. */
  function Velocity(d: Direction): (v: Vel)
    ensures (v.dx == 0) != (v.dy == 0)
    ensures Abs(v.dx) + Abs(v.dy) == Speed
    ensures v.dx == 0 <==> Vertical(d)
    ensures d == Up ==> v.dy < 0
    ensures d == Right ==> v.dx > 0
  {
    match d
    case Up => Vel(0, -Speed)
    case Down => Vel(0, Speed)
    case Right => Vel(Speed, 0)
    case Left => Vel(-Speed, 0)
  }

  predicate InBoard(p: Pos) { 0 <= p.x <= MaxX && 0 <= p.y <= MaxY }

  /** Centres that lie on the cell lattice (possibly one cell off the board). */
  predicate OnGrid(p: Pos) { p.x % Speed == 0 && p.y % Speed == 0 }

  /** One axis of the wrap applied after a move: falling below 0 re-enters at
      the far edge, passing the far edge re-enters at 0. */
  function Wrap(n: int, max: int): (r: int)
    requires max >= 0
    ensures 0 <= r <= max
    ensures 0 <= n <= max ==> r == n
    ensures n < 0 ==> r == max
    ensures n > max ==> r == 0
  {
    if n < 0 then max else if n > max then 0 else n
  }

  /** The position after one move with velocity v. */
  function Step(p: Pos, v: Vel): (r: Pos)
    ensures InBoard(r)
  {
    Pos(Wrap(p.x + v.dx, MaxX), Wrap(p.y + v.dy, MaxY))
  }

  /** Opposite headings have negated velocities, and a velocity determines
      its heading. */
  lemma OppositeNegatesVelocity(d: Direction, e: Direction)
    ensures Velocity(Opposite(d)) == Vel(-Velocity(d).dx, -Velocity(d).dy)
    ensures Velocity(d) == Velocity(e) ==> d == e
    ensures SameAxis(d, e) <==> (e == d || e == Opposite(d))
  {
  }

  /** Auxiliary: one axis of a step from a lattice point of the board, for
      either axis of the board. */
  lemma {:induction false} WrapOnLattice(n: int, delta: int, max: int, extent: int)
    requires (max == MaxX && extent == ScreenWidth) || (max == MaxY && extent == ScreenHeight)
    requires 0 <= n <= max && n % Speed == 0
    requires delta == 0 || delta == Speed || delta == -Speed
    ensures Wrap(n + delta, max) == (n + delta) % extent
    ensures Wrap(n + delta, max) % Speed == 0
  {
    if n + delta < 0 {
      assert n == 0 && delta == -Speed;
    } else if n + delta > max {
      assert n == max && delta == Speed;
    }
  }

  /** On the cell lattice of the board a move is addition modulo the board
      extent on each axis: it stays on the lattice, it crosses an edge into
      the opposite edge, and the coordinate across the heading does not
      change. */
  lemma StepIsModular(p: Pos, d: Direction)
    requires InBoard(p) && OnGrid(p)
    ensures Step(p, Velocity(d)) ==
            Pos((p.x + Velocity(d).dx) % ScreenWidth, (p.y + Velocity(d).dy) % ScreenHeight)
    ensures OnGrid(Step(p, Velocity(d)))
    ensures Vertical(d) ==> Step(p, Velocity(d)).x == p.x
    ensures !Vertical(d) ==> Step(p, Velocity(d)).y == p.y
  {
    var v := Velocity(d);
    WrapOnLattice(p.x, v.dx, MaxX, ScreenWidth);
    WrapOnLattice(p.y, v.dy, MaxY, ScreenHeight);
  }

  /** A move on the board lattice is undone by a move in the opposite
      heading, even across an edge. */
  lemma StepThenBack(p: Pos, d: Direction)
    requires InBoard(p) && OnGrid(p)
    ensures Step(Step(p, Velocity(d)), Velocity(Opposite(d))) == p
  {
    StepIsModular(p, d);
    var q := Step(p, Velocity(d));
    StepIsModular(q, Opposite(d));
  }

  /** A move from anywhere on the lattice, on or one cell off the board,
      lands on the lattice inside the board. */
  lemma StepKeepsLattice(p: Pos, d: Direction)
    requires OnGrid(p)
    ensures OnGrid(Step(p, Velocity(d))) && InBoard(Step(p, Velocity(d)))
  {
  }
}
