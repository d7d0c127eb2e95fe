# Pygame Snake — a verified model of the movement and turn-propagation core

The game is a single script, `main.py`. A snake made of square segments moves one cell per frame on a 600×600 board
that wraps at the edges. The player presses arrow keys. Each accepted key queues a *direction change*. A direction
change records the cell where the head stood when the key was pressed and the heading to take there. Every segment,
head to tail, takes that heading when it reaches the recorded cell. It writes its identity into the request so that
it never takes the same request twice. A request leaves the queue only when the last segment takes it. Eating food
grows the snake by a segment one cell behind the tail. Hitting its own body ends the game.

The model has five modules:

- `Geometry` (geometry.dfy) holds the configuration constants, the four headings, `Direction.get_velocity`, and
  the wrapping move of a segment centre.
- `Segment` (segment.dfy) holds the class `SnakePart`, with its identity, position, heading and cached velocity,
  and its methods `ChangeDirection`, `Move` and `Successor`. `Seg` is the value of a segment.
- `Turns` (turns.dfy) holds a direction change as a value `Req`: its trigger cell, its target heading and the
  identities recorded in it. It also holds `already_changed` and `add_changed`.
- `Propagation` (propagation.dfy) is a closed-form specification of one frame's pass, over values. `QueueAt` is the
  queue after the first j segments have been processed. `FrameSegs` and `FrameQueue` are the segments and the queue
  after the whole frame. The lemmas about them state the properties the pass promises.
- `Game` (game.dfy) holds the main loop lifted into a class `Game`:
  - `parts`: the segment objects, head first;
  - `changes`: the request queue;
  - `food`, `paused`, `running`;
  - `nextId`: the source of fresh identities.

  The methods are the event drain, the propagation-and-move pass, growth and the outcome of a frame.
  `Game.Valid` ties the part objects to a ghost sequence of their values. On those values the invariant
  `Propagation.Consistent` holds:
  - segment identities are distinct;
  - every segment lies on the 20-pixel lattice;
  - no request records an identity twice;
  - every live request not yet taken by the head lies at the head's cell and turns across the head's heading.

  This invariant is what rules out a reversal of the head into its neck.

Each imperative method is proved against the `Propagation` and `Game` specification functions. The properties are
proved about those functions as lemmas.

## Model

| member | source | states |
|---|---|---|
| Geometry.Velocity | main.py:28-37 | A velocity has exactly one non-zero component, of magnitude `speed` (20), on the heading's own axis. Up has negative dy and Right has positive dx. |
| Geometry.OppositeNegatesVelocity | main.py:28-37 | Opposite headings have negated velocities. The velocity determines the heading. Two headings share an axis exactly when they are equal or opposite. |
| Geometry.Wrap | main.py:99-106 | After one axis of a move the coordinate lies in [0, max]. It is unchanged when already in range. It becomes max when it fell below 0 and 0 when it passed max. |
| Geometry.Step | main.py:96-107 | The position after a move always lies on the board [0,580]², whatever the starting position. |
| Geometry.StepIsModular | main.py:96-107 | From a lattice point on the board, a move is addition modulo 600 on each axis. It stays on the lattice and leaves the coordinate across the heading unchanged. |
| Geometry.StepThenBack | main.py:96-107 | On the board lattice, a move followed by a move in the opposite heading returns to the start, even across an edge. |
| Geometry.StepKeepsLattice | main.py:96-107 | A move in any heading from any lattice point, including one cell off the board, lands on the lattice inside the board. |
| Segment.SuccessorPos | main.py:79-90 | The grown segment's centre is the original centre minus the heading's velocity, with no wrap applied. |
| Segment.SuccessorStepsOntoPredecessor | main.py:79-90 | One move of the grown segment along the shared heading lands exactly on its predecessor's cell. It is on the lattice when its predecessor is. |
| Segment.SnakePart.constructor | main.py:41-45 | A new part has the given identity, position and heading, and the velocity of that heading. |
| Segment.SnakePart.ChangeDirection | main.py:92-94 | The heading becomes the new one and the velocity is re-cached from it. Position and identity are untouched. |
| Segment.SnakePart.Move | main.py:96-107 | The position becomes the wrapped step along the cached velocity and lies on the board. Heading and identity are unchanged. |
| Segment.SnakePart.Successor | main.py:79-90 | Returns a fresh part one cell behind, with the same heading and the given identity. |
| Turns.AddChanged | main.py:162-163 | The recorded identities become the old ones plus the new one and nothing else. Trigger and heading are unchanged. |
| Turns.AlreadyChanged | main.py:159-160 | A request that has just been queued has been taken by no segment. |
| Turns.Applies | main.py:229 | A request applies only to a segment on its trigger cell. A request just queued applies to exactly the segments on its cell. |
| Turns.AppliesAtMostOnce | main.py:229-231 | Once a segment's identity is recorded, the request never applies to it again. Recording another segment does not change whether it applies. |
| Turns.Record | main.py:228-231 | After a segment has been considered, the request no longer applies to it, and it keeps its cell and heading. A request that did not apply is left exactly as it was. One that applied gains exactly the segment's identity at the end of its list. |
| Turns.RecordKeepsDistinct | main.py:228-231 | Recording a segment never puts an identity into a request twice. |
| Propagation.Turned | main.py:228-230 | The heading after the inner loop is the segment's own heading or the heading of a request that applies to it. |
| Propagation.RecordAll | main.py:228-231 | Recording a segment in every request removes no request and keeps every request's cell and heading. Afterwards no request applies to that segment. |
| Propagation.Unapplied | main.py:232-236 | The last segment's rebuild never lengthens the queue, and no survivor applies to that segment. |
| Propagation.Kept | main.py:228-236 | After any segment's turn, no live request applies to it. Only the last segment may shorten the queue. |
| Propagation.QueueAt | main.py:225-236 | Part way through the pass the queue keeps its length, and after the last segment it is no longer than before. |
| Propagation.Advanced | main.py:226-237 | A processed segment keeps its identity and ends on the board one move along its new heading. That heading is its own or that of a request applying to it. |
| Propagation.FrameSegs | main.py:225-237 | A frame keeps the number of segments. |
| Propagation.FrameQueue | main.py:225-236 | After a frame the queue is no longer than before, and no survivor applies to the last segment. |
| Propagation.TurnedKeepsWhenNoneApplies | main.py:228-230 | A segment to which no live request applies keeps its heading. |
| Propagation.TurnedTakesLastApplying | main.py:228-230 | When several requests apply to a segment, the last one in queue order determines its heading. |
| Propagation.TurnedIsLastApplying | main.py:228-230 | Both cases together: the final heading is that of the last applying request, or the old heading when none applies. |
| Propagation.TurnedStaysOffAxis | main.py:228-230 | If every applying request turns across the axis of d0, the final heading is d0 or across it, never its reverse. |
| Propagation.UnappliedKeepsOrder | main.py:235-236 | Dropping the requests the last segment took keeps the other requests in their relative order. |
| Propagation.UnappliedMembers | main.py:232-236 | A request survives the last segment exactly when it did not apply to it. A surviving request keeps its multiplicity: a request queued twice and not taken is still there twice. |
| Propagation.UnappliedAllTaken | main.py:232-236 | When every request applies to the last segment, the queue empties. |
| Propagation.NothingLeavesBeforeTail | main.py:225-236 | Before the last segment's turn, no request leaves the queue. Each request keeps its place, cell and heading, and only gains recorded identities. |
| Propagation.FrameQueueRemovesOnlyViaTail | main.py:225-236 | After a frame, the surviving requests are exactly those live at the tail's turn that did not apply to the tail, each as many times as it was live. Their order is that of the original queue. |
| Propagation.SingleSegmentConsumesFreshTurns | main.py:225-237 | A one-segment snake takes every request queued at its cell this frame and removes it in the same frame. Its heading becomes that of the latest request. |
| Propagation.QueueKeepsIdsDistinct | main.py:228-231 | At every point of the pass, no request records an identity twice. |
| Propagation.FrameMovesEachSegment | main.py:225-237 | Every segment keeps its identity, ends on the board one move along its final heading, and stays on the lattice. |
| Propagation.HeadTakesLatestTurn | main.py:225-237 | A turn at the head's cell takes effect on the head's move in the same frame. When several apply, the latest queued one decides. |
| Propagation.HeadRecordedFromThenOn | main.py:225-236 | When every request the head has not taken lies at the head's cell, then once the head has been processed every live request carries the head's identity, and later segments keep it so. |
| Propagation.FrameNeverReversesHead | main.py:200-237 | If every request the head has not taken was queued at its cell across its heading, then the frame never turns the head into its reverse. Afterwards the head has taken every live request. |
| Propagation.FrameKeepsInvariant | main.py:225-237 | A frame preserves `Consistent` and never reverses the head. |
| Propagation.TurnTravelsDownThreeSegments | main.py:225-237 | For a straight three-segment snake heading up with a right turn queued at the head's cell, the three segments take the turn in three consecutive frames, each at the trigger cell. The request stays queued until the tail takes it and is then gone. After three frames the snake is straight again, heading right, one cell apart. |
| Game.Requested | main.py:202-213 | An arrow key yields a turn exactly when its heading is across the head's heading, and then that heading. Space and other keys yield none. |
| Game.KeyDirection | main.py:202-213 | Exactly the four arrow keys name a heading. Up and Down name the vertical ones. |
| Game.Queued | main.py:196-213 | An event queues a request exactly when it is an arrow-key press, the game is not paused, and the key's heading is across the head's heading. The request is then the single one for the key's heading at the head's cell, taken by no one. Otherwise nothing is queued. |
| Game.Toggled | main.py:198-199 | Only a Space press flips the pause flag. |
| Game.DrainPaused | main.py:194-199 | A drain without a Space press leaves the pause flag unchanged. |
| Game.DrainQueued | main.py:194-213 | A drain queues no more requests than it has events. The per-event bound of one is `Queued`'s. |
| Game.DrainedTurnsAtHead | main.py:194-213 | Every request queued by a drain lies at the head's cell across its heading, with no identities. A drain that starts paused and has no Space queues nothing. |
| Game.RepeatedKeysQueueDuplicates | main.py:194-213 | The head does not turn during a drain, so the same arrow key pressed twice queues two identical requests. |
| Game.DrainKeepsInvariant | main.py:194-213 | Appending a drain's requests preserves `Consistent`. |
| Game.InSpawnRange | main.py:136 | Every cell where food may appear lies on the board. |
| Game.Grown | main.py:180-181 | Growth appends one segment and leaves the earlier segments unchanged. The new segment has the given identity and the tail's heading, sits at the tail's successor cell one move behind the tail, and is on the lattice. |
| Game.GrownKeepsInvariant | main.py:180-181 | Growth with a fresh identity preserves `Consistent` and leaves the head in place. |
| Game.Without | main.py:235-236 | Rebuilding the queue without the marked requests never lengthens it. |
| Game.WithoutMembers | main.py:235-236 | The rebuilt queue holds every unmarked request and nothing else. |
| Game.WithoutTaken | main.py:232-236 | When exactly the requests that applied to the last segment are marked, the rebuilt queue equals `Unapplied` of the queue. |
| Game.WithoutNothing | main.py:232-236 | With nothing marked, the rebuilt queue is unchanged. |
| Game.Game.constructor | main.py:173-177 | The session starts with one segment at (300, 300) heading up, an empty queue, the given food, unpaused and running. |
| Game.Game.HandleEvent | main.py:195-213 | Quit clears `running` and Space toggles `paused`. The queue grows by exactly `Queued` for the head and the flag after the toggle: nothing while paused, otherwise at most one request at the head's cell across its heading. |
| Game.Game.DrainEvents | main.py:194-213 | The event loop leaves `running` false exactly when a Quit occurred, the pause flag at `DrainPaused`, and the old queue followed by `DrainQueued` for the head. |
| Game.Game.HandleEvents | main.py:194-213 | After the drain, `running` is false exactly when a Quit occurred and `paused` is the drained flag. The queue is the old queue followed by the drain's requests in arrival order. `Valid` is preserved. |
| Game.Game.TakeTurns | main.py:226-234 | A segment's inner loop gives it the heading of `Turned` and replaces the queue by `RecordAll`. The requests it marks are exactly those removed by `Kept`. |
| Game.Game.ProcessPart | main.py:225-237 | Processing segment i leaves it at `Advanced` of its value over `QueueAt` i, and the queue at `QueueAt` i+1. All other parts are untouched. |
| Game.Game.Pass | main.py:225-237 | The loop over the parts leaves every part with its frame value and the queue at `FrameQueue`. |
| Game.Game.Propagate | main.py:225-237 | The segment values become `FrameSegs` and the queue becomes `FrameQueue`. The head does not reverse and `Valid` is preserved. |
| Game.Game.Grow | main.py:180-181 | Appends one fresh part, keeping the existing parts. The values become `Grown`, the identity source moves past the identity handed out, and `Valid` is preserved. |
| Game.Game.Resolve | main.py:246-251 | Eating takes precedence: new food and growth by one fresh part, with the identity source advanced by one. Otherwise a self-collision stops the game, and the food, the part objects, the segment values and the identity source are unchanged. |
| Game.Game.Update | main.py:219-251 | The unpaused update is the pass followed by its outcome: queue, segment values, food, `running` and the identity source are all stated. |
| Game.Game.Tick | main.py:191-252 | One iteration: the drain, then, unless paused, the pass and the outcome. It preserves `Valid` and never reverses the head. While paused the segments and food are untouched. Otherwise food is respawned exactly when it was eaten. The identity source advances only on growth. |

## Left out

- Propagation: at-least-once propagation across frames is not proved in general. Nothing states for every snake
  that each later segment reaches a turn's cell and takes it. The model proves at-most-once (`AppliesAtMostOnce`,
  `QueueKeepsIdsDistinct`) and removal only through the tail (`FrameQueueRemovesOnlyViaTail`). Following the head
  is shown for one three-segment snake (`TurnTravelsDownThreeSegments`). A general invariant would have to place each
  segment one move behind the one ahead along the heading it takes after its pending turns, not its current heading.
- Rendering, the window, event polling, the frame clock and `display.update` are not modelled. Events arrive as a
  sequence parameter of `Tick`. Events other than quit and key-down change nothing, so they are not represented.
- Rectangle collision is not modelled. The rectangles compared are the integer `Rect`s that `pygame.draw.rect`
  returns: they are built from the segments' float offsets and clipped to the screen. Whether the moved head
  overlaps the food or a body segment enters `Tick` as the booleans `hitFood` and `hitSelf`.
- `brightness`, the colours and the render-offset properties `x`, `y`, `pos` and `rect` are not modelled; they are
  display geometry only.
- Random choices are not modelled. `Food.spawn` draws its position at random; the model takes the new food as a
  parameter constrained to the same range [20, 580] per axis (`InSpawnRange`). Segment identities are
  `random.random()` floats in main.py; the model draws them from the counter `nextId`, which makes them distinct.
- `Turns.Req`: a direction change is a value, not a shared object. `add_changed` appending to the object's list
  becomes replacing that request in the queue by its updated value. This is faithful because each request object
  occurs once in the queue. The removal test `not in remove_direction_changes` compares objects by identity, and the
  model replaces it by a mask over queue positions (`Game.Without`). Aliasing of request objects is therefore not
  captured.
- Positions are modelled as integers. main.py starts the head at `(scrw / 2, scrh / 2)`, floats with integer values,
  and every later coordinate is an integer-valued sum of these and ±20.
- There is no score: main.py keeps none. Food is not aligned to the cell lattice. It spawns at any integer position
  in [20, 580] on each axis.
