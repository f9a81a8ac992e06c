/** The game state of the snake game and its three operations: one tick of
    movement, target placement, and the input gate that turns the snake. */
module Snake {
  import opened Points
  import opened Board

  /** `max(0.07, min(0.3, 2 / length))`: the tick interval in seconds for a
      snake of `length` cells. Longer snakes tick faster. */
  function SpeedFor(length: nat): (s: real)
    requires length >= 1
    ensures 0.07 <= s <= 0.3
    ensures length <= 6 ==> s == 0.3
    ensures length >= 29 ==> s == 0.07
  {
    var raw := 2.0 / (length as real);
    var capped := if 0.3 < raw then 0.3 else raw;
    if 0.07 < capped then capped else 0.07
  }

  /** The tick interval never grows as the snake gets longer. */
  lemma SpeedNonIncreasing(m: nat, n: nat)
    requires 1 <= m <= n
    ensures SpeedFor(n) <= SpeedFor(m)
  {
    var rm, rn := 2.0 / (m as real), 2.0 / (n as real);
    assert rm * (m as real) == 2.0 && rn * (n as real) == 2.0;
    var d := (n - m) as real;
    assert rn * (n as real) == rn * (m as real) + rn * d;
    assert rn * d >= 0.0;
    assert rn * (m as real) <= rm * (m as real);
    assert rn <= rm;
  }

  /** The part of the state the input gate reads and writes. */
  datatype GateState = GateState(direction: Point, wasDisplayed: bool)

  /** A proposed direction is taken only after a frame has been rendered,
      and only when it is neither the current direction nor its exact
      reverse. */
  predicate Accepts(g: GateState, proposed: Point)
  {
    g.wasDisplayed
    && NotEquals(proposed, PointValue(g.direction))
    && (proposed.x != -g.direction.x || proposed.y != -g.direction.y)
  }

  /** The gate state after one `changeDirection(proposed)` call. */
  function Offer(g: GateState, proposed: Point): (g': GateState)
    ensures g' != g <==> Accepts(g, proposed)
    ensures Accepts(g, proposed) ==> g'.direction == proposed && !g'.wasDisplayed
  {
    if Accepts(g, proposed) then GateState(proposed, false) else g
  }

  /** The gate state after a burst of proposals with no render in between. */
  function OfferAll(g: GateState, proposals: seq<Point>): GateState
    decreases |proposals|
  {
    if proposals == [] then g else OfferAll(Offer(g, proposals[0]), proposals[1..])
  }

  /** How many proposals of such a burst the gate accepts. */
  function AcceptedCount(g: GateState, proposals: seq<Point>): nat
    decreases |proposals|
  {
    if proposals == [] then 0
    else (if Accepts(g, proposals[0]) then 1 else 0) + AcceptedCount(Offer(g, proposals[0]), proposals[1..])
  }

  /** Once a turn has been taken, the gate stays shut until the next render. */
  lemma {:induction false} ClosedGateRejectsAll(g: GateState, proposals: seq<Point>)
    requires !g.wasDisplayed
    ensures AcceptedCount(g, proposals) == 0 && OfferAll(g, proposals) == g
    decreases |proposals|
  {
    if proposals != [] {
      ClosedGateRejectsAll(g, proposals[1..]);
    }
  }

  /** Between two renders at most one direction change is accepted. When it
      is, the final direction is the accepted one and the gate is shut. */
  lemma {:induction false} AtMostOneTurnPerFrame(g: GateState, proposals: seq<Point>)
    ensures AcceptedCount(g, proposals) <= 1
    ensures AcceptedCount(g, proposals) == 0 <==> OfferAll(g, proposals) == g
    decreases |proposals|
  {
    if proposals != [] {
      var next := Offer(g, proposals[0]);
      if Accepts(g, proposals[0]) {
        ClosedGateRejectsAll(next, proposals[1..]);
      } else {
        AtMostOneTurnPerFrame(next, proposals[1..]);
      }
    }
  }

  /** Among unit directions, the gate accepts exactly the quarter turns:
      the proposals perpendicular to the current direction. */
  lemma AcceptedTurnIsQuarterTurn(g: GateState, proposed: Point)
    requires IsDirection(g.direction) && IsDirection(proposed)
    ensures Accepts(g, proposed) <==> g.wasDisplayed && proposed.x * g.direction.x + proposed.y * g.direction.y == 0
  {
  }

  /** Growing onto the target needs a free cell for the next target, and a
      valid snake has one exactly when, grown, it is still shorter than the
      board. */
  lemma GrowthNeedsRoom(tail: seq<Point>, target: Point, width: nat, height: nat)
    requires Distinct(tail) && AllOnBoard(tail, width, height)
    requires OnBoard(target, width, height) && target !in tail
    ensures HasFreeCell([target] + tail, width, height) <==> |tail| + 1 < BoardSize(width, height)
  {
    var grown := [target] + tail;
    assert Distinct(grown) by {
      forall i, j | 0 <= i < j < |grown| ensures grown[i] != grown[j] {
        if i == 0 {
          assert grown[j] == tail[j - 1];
        } else {
          assert grown[i] == tail[i - 1] && grown[j] == tail[j - 1];
        }
      }
    }
    FreeCellIffRoom(grown, width, height);
  }

  /** What one tick did. */
  datatype Outcome =
    | Idle               // the game had already ended
    | Grew               // the head reached the target
    | Moved              // the head reached a free cell
    | GameOver(score: int)  // the head ran into the body

  /** The module-level game state. */
  class Game {
    /** `WIDTH` and `HEIGHT`: the largest x and y cell index. */
    const width: nat
    const height: nat
    /** The snake's cells, head first. */
    var tail: seq<Point>
    var direction: Point
    var target: Point
    var running: bool
    /** Seconds between two ticks. */
    var speed: real
    /** The frame gate: a frame was rendered since the last accepted turn. */
    var wasDisplayed: bool

    /** The state invariant: a non-empty body of distinct board cells, a
        board cell off the body as target, a unit direction, and a speed
        within its clamp. */
    ghost predicate Valid()
      reads this
    {
      |tail| >= 1
      && Distinct(tail)
      && AllOnBoard(tail, width, height)
      && OnBoard(target, width, height)
      && target !in tail
      && IsDirection(direction)
      && 0.07 <= speed <= 0.3
    }

    /** The wrapped cell the head moves to on the next tick. */
    function NextHead(): Point
      reads this
      requires |tail| >= 1
    {
      Step(tail[0], direction, width, height)
    }

    /** The start-up state for a display of `matrixWidth x matrixHeight`
        LED matrices; `start`, drawn from `{0, 1}`, picks the initial
        direction up or right. */
    constructor (matrixWidth: nat, matrixHeight: nat, start: nat)
      requires matrixWidth >= 1 && matrixHeight >= 1 && start < 2
      ensures Valid()
      ensures width == Extent(matrixWidth) && height == Extent(matrixHeight)
      ensures tail == [New(width / 2, height / 2)]
      ensures direction == New(start, 1 - start)
      ensures target == New()
      ensures running && speed == 0.3 && wasDisplayed
    {
      width := Extent(matrixWidth);
      height := Extent(matrixHeight);
      new;
      tail := [New(width / 2, height / 2)];
      direction := New(start, 1 - start);
      target := New();
      running := true;
      speed := 0.3;
      wasDisplayed := true;
    }

    /** The frame-gate effect of rendering a frame. */
    method MarkDisplayed()
      modifies this`wasDisplayed
      ensures wasDisplayed
    {
      wasDisplayed := true;
    }

    /** The quit key: the game stops running. */
    method Quit()
      modifies this`running
      ensures !running
    {
      running := false;
    }

    /** Rejection sampling of a new target: draw cells until one is off the
        body. `draws` are the cells the random generator yields, in order. */
    method SetTarget(draws: seq<Point>)
      requires DrawsOnBoard(draws, width, height) && SomeDrawFree(draws, tail)
      modifies this`target
      ensures target == draws[FirstFree(draws, tail)]
      ensures OnBoard(target, width, height) && target !in tail
    {
      var k := 0;
      target := draws[0];
      while target in tail
        invariant 0 <= k <= FirstFree(draws, tail)
        invariant target == draws[k]
        decreases FirstFree(draws, tail) - k
      {
        k := k + 1;
        target := draws[k];
      }
    }

    /** A turn request from the joypad or the keyboard, filtered by the
        input gate. */
    method ChangeDirection(d: Point)
      modifies this`direction, this`wasDisplayed
      ensures GateState(direction, wasDisplayed) == Offer(old(GateState(direction, wasDisplayed)), d)
      ensures old(Valid()) && IsDirection(d) ==> Valid()
    {
      if wasDisplayed {
        if NotEquals(d, PointValue(direction)) && (d.x != -direction.x || d.y != -direction.y) {
          direction := d;
          wasDisplayed := false;
        }
      }
    }

    /** One tick. `draws` are the random cells a target placement would use
        if the snake grows on this tick. */
    method Move(draws: seq<Point>) returns (outcome: Outcome)
      requires Valid()
      requires running && NextHead() == target ==>
                 DrawsOnBoard(draws, width, height) && SomeDrawFree(draws, [target] + tail)
      modifies this
      ensures Valid()
      ensures direction == old(direction)
      ensures running ==> old(running)
      ensures |tail| == |old(tail)| || |tail| == |old(tail)| + 1
      ensures !old(running) ==>
                outcome == Idle && tail == old(tail) && target == old(target)
                && !running && speed == old(speed) && wasDisplayed
      ensures outcome == Grew <==> old(running) && old(NextHead()) == old(target)
      ensures outcome == Grew ==>
                tail == [old(target)] + old(tail)
                && target == draws[FirstFree(draws, tail)]
                && running && speed == SpeedFor(|tail|) && wasDisplayed
      ensures outcome == Moved <==>
                old(running) && old(NextHead()) != old(target) && old(NextHead()) !in old(tail)
      ensures outcome == Moved ==>
                tail == [old(NextHead())] + old(tail)[..|old(tail)| - 1]
                && target == old(target) && running && speed == old(speed) && wasDisplayed
      ensures outcome.GameOver? <==>
                old(running) && old(NextHead()) != old(target) && old(NextHead()) in old(tail)
      ensures outcome.GameOver? ==>
                outcome.score == |old(tail)| - 1 && tail == old(tail) && target == old(target)
                && !running && speed == old(speed) && wasDisplayed == old(wasDisplayed)
    {
      if running {
        var newPosition := Add(tail[0], PointValue(direction)).value;
        if newPosition.x > width {
          newPosition := newPosition.(x := newPosition.x - (width + 1));
        } else if newPosition.x < 0 {
          newPosition := newPosition.(x := newPosition.x + (width + 1));
        }
        if newPosition.y > height {
          newPosition := newPosition.(y := newPosition.y - (height + 1));
        } else if newPosition.y < 0 {
          newPosition := newPosition.(y := newPosition.y + (height + 1));
        }
        assert newPosition == NextHead();

        if Equals(newPosition, PointValue(target)) {
          tail := [newPosition] + tail;
          SetTarget(draws);
          speed := SpeedFor(|tail|);
          outcome := Grew;
        } else if newPosition !in tail {
          tail := [newPosition] + tail;
          tail := tail[..|tail| - 1];
          outcome := Moved;
        } else {
          running := false;
          outcome := GameOver(|tail| - 1);
          return;
        }
      } else {
        outcome := Idle;
      }
      MarkDisplayed();
    }
  }
}
