/** Single-player Pong on SDL: a paddle on the left wall steered with W and
  * S, balls that bounce off the paddle and the other three walls, and a
  * game that ends when a ball gets past the paddle. */
module SdlPong {
  import opened Wrappers
  import opened Timing

  const ScreenW: real := 1024.0
  const ScreenH: real := 768.0
  /** Thickness of the walls and the paddle, and size of a ball. */
  const Thickness: real := 15.0
  const PaddleH: real := 100.0
  /** Vertical paddle speed, in pixels per second. */
  const PaddleSpeed: real := 300.0
  const PaddleX: real := 20.0
  /** The paddle centre is kept clear of the top and bottom walls. */
  const PaddleTop: real := PaddleH / 2.0 + Thickness
  const PaddleBottom: real := ScreenH - PaddleH / 2.0 - Thickness
  /** Horizontal velocity every ball starts with. */
  const ServeSpeedX: real := -200.0

  /** A ball: centre position and velocity in pixels per second. */
  datatype Ball = Ball(pos: Vec2, vel: Vec2)

  lemma PaddleLimits()
    ensures PaddleTop == 65.0 && PaddleBottom == 703.0
  {
  }

  /** The paddle direction for the state of the W (up) and S (down) keys:
    * up, down, or still when both or neither are held. */
  function Steering(w: bool, s: bool): (dir: int)
    ensures -1 <= dir <= 1
    ensures dir == -1 <==> w && !s
    ensures dir == 1 <==> s && !w
    ensures dir == 0 <==> w == s
  {
    (if w then -1 else 0) + (if s then 1 else 0)
  }

  /** The paddle centre pushed back between the walls. */
  function ClampPaddle(y: real): (r: real)
    ensures PaddleTop <= r <= PaddleBottom
    ensures PaddleTop <= y <= PaddleBottom ==> r == y
    ensures y < PaddleTop ==> r == PaddleTop
    ensures y > PaddleBottom ==> r == PaddleBottom
  {
    if y < PaddleTop then PaddleTop
    else if y > PaddleBottom then PaddleBottom
    else y
  }

  /** The paddle centre after dt seconds of moving in direction dir. */
  function PaddleStep(y: real, dir: int, dt: real): real {
    y + dir as real * PaddleSpeed * dt
  }

  /** A clamped paddle moves at most PaddleSpeed × dt, and in the direction
    * it is steered. */
  lemma PaddleStepBounded(y: real, dir: int, dt: real)
    requires PaddleTop <= y <= PaddleBottom && 0.0 <= dt
    requires dir == -1 || dir == 1
    ensures var r := ClampPaddle(PaddleStep(y, dir, dt));
      (dir == -1 ==> y - PaddleSpeed * dt <= r <= y)
      && (dir == 1 ==> y <= r <= y + PaddleSpeed * dt)
  {
  }

  /** The ball moved along its velocity for dt seconds. */
  function Advance(b: Ball, dt: real): Ball {
    Ball(Vec2(Moved(b.pos.x, b.vel.x, dt), Moved(b.pos.y, b.vel.y, dt)), b.vel)
  }

  /** A coordinate after dt seconds at velocity v. */
  function Moved(p: real, v: real, dt: real): real {
    p + v * dt
  }

  /** What a ball touches this frame; the checks are tried in this order
    * and the first one that holds wins. */
  datatype Contact = PaddleHit | Lost | RightWall | TopWall | BottomWall | NoContact

  function Distance(a: real, b: real): real {
    if a - b > 0.0 then a - b else -(a - b)
  }

  function ContactOf(b: Ball, paddleY: real): Contact {
    if Distance(paddleY, b.pos.y) <= PaddleH / 2.0 && b.pos.x <= 25.0 && b.pos.x >= PaddleX && b.vel.x < 0.0 then PaddleHit
    else if b.pos.x <= 0.0 then Lost
    else if b.pos.x >= ScreenW - Thickness && b.vel.x > 0.0 then RightWall
    else if b.pos.y <= Thickness && b.vel.y < 0.0 then TopWall
    else if b.pos.y >= ScreenH - Thickness && b.vel.y > 0.0 then BottomWall
    else NoContact
  }

  /** The ball's velocity after the contact: the paddle and the right wall
    * reverse it horizontally, the top and bottom walls vertically. */
  function Bounce(b: Ball, c: Contact): Ball {
    match c
    case PaddleHit => Ball(b.pos, Vec2(-b.vel.x, b.vel.y))
    case RightWall => Ball(b.pos, Vec2(-b.vel.x, b.vel.y))
    case TopWall => Ball(b.pos, Vec2(b.vel.x, -b.vel.y))
    case BottomWall => Ball(b.pos, Vec2(b.vel.x, -b.vel.y))
    case _ => b
  }

  /** A ball after one frame: moved, then bounced by what it touches. */
  function StepBall(b: Ball, dt: real, paddleY: real): Ball {
    var m := Advance(b, dt);
    Bounce(m, ContactOf(m, paddleY))
  }

  /** The ball gets past the paddle this frame, which ends the game. */
  predicate Loses(b: Ball, dt: real, paddleY: real) {
    ContactOf(Advance(b, dt), paddleY) == Lost
  }

  /** The paddle returns a ball exactly when the ball is moving left, is
    * level with the paddle's face (x in [20, 25]) and is within half a
    * paddle of its centre. A ball is lost exactly when it reaches x <= 0
    * without being returned. */
  lemma ContactConditions(b: Ball, paddleY: real)
    ensures ContactOf(b, paddleY) == PaddleHit <==>
      b.vel.x < 0.0 && PaddleX <= b.pos.x <= 25.0 && Distance(paddleY, b.pos.y) <= PaddleH / 2.0
    ensures ContactOf(b, paddleY) == Lost <==>
      b.pos.x <= 0.0 && ContactOf(b, paddleY) != PaddleHit
  {
  }

  /** At most one velocity component changes per frame, by a sign flip, and
    * a wall only turns a ball that is moving toward it, so that afterwards
    * it moves away. */
  lemma BounceFlipsOneComponent(b: Ball, paddleY: real)
    ensures var r := Bounce(b, ContactOf(b, paddleY));
      r.pos == b.pos
      && (r.vel.x == b.vel.x || r.vel.y == b.vel.y)
      && (r.vel.x == b.vel.x || r.vel.x == -b.vel.x)
      && (r.vel.y == b.vel.y || r.vel.y == -b.vel.y)
  {
  }

  lemma WallsTurnApproachingBalls(b: Ball, paddleY: real)
    ensures var r := Bounce(b, ContactOf(b, paddleY));
      (r.vel.y != b.vel.y ==>
        (b.pos.y <= Thickness && b.vel.y < 0.0 && r.vel.y > 0.0)
        || (b.pos.y >= ScreenH - Thickness && b.vel.y > 0.0 && r.vel.y < 0.0))
      && (r.vel.x != b.vel.x ==>
        (b.pos.x <= 25.0 && b.vel.x < 0.0 && r.vel.x > 0.0)
        || (b.pos.x >= ScreenW - Thickness && b.vel.x > 0.0 && r.vel.x < 0.0))
  {
  }

  /** The x range generate_random_float(550, SCREEN_W / 2) is given for a
    * new ball: its lower bound is above its upper bound. */
  const BallXLowAsWritten: real := 550.0
  const BallXHighAsWritten: real := ScreenW / 2.0

  /** No x lies in the range as written, and a uniform_real_distribution
    * requires its lower bound not to exceed its upper bound. */
  lemma {:induction false} BallXRangeEmptyAsWritten(x: real)
    ensures BallXHighAsWritten < BallXLowAsWritten
    ensures !(BallXLowAsWritten <= x < BallXHighAsWritten)
  {
    assert BallXHighAsWritten == 512.0;
  }

  /** The serve range with its bounds in order: between the middle of the
    * screen and 550. */
  const BallXLow: real := ScreenW / 2.0
  const BallXHigh: real := 550.0

  /** The ordered range holds values, and every one of them puts the ball
    * right of the paddle and left of the right wall. */
  lemma BallXRangeServes(x: real)
    ensures BallXLow < BallXHigh
    ensures BallXLow <= x < BallXHigh ==> PaddleX + Thickness < x < ScreenW - Thickness
  {
  }

  class Game {
    var ticksCount: Ticks
    var isRunning: bool
    var paddleDir: int
    var paddlePos: Vec2
    var balls: seq<Ball>

    /** The paddle stays on the left wall between the top and bottom walls
      * and is steered up, down or not at all. */
    predicate Valid()
      reads this`paddlePos, this`paddleDir
    {
      paddlePos.x == PaddleX && PaddleTop <= paddlePos.y <= PaddleBottom && -1 <= paddleDir <= 1
    }

    constructor ()
      ensures ticksCount == 0 && isRunning && paddleDir == 0 && balls == []
    {
      ticksCount := 0;
      isRunning := true;
      paddleDir := 0;
      paddlePos := Vec2(0.0, 0.0);
      balls := [];
    }

    /** Game::Initialize: fails if SDL or the window cannot be set up (a
      * missing renderer is only logged); otherwise centres the paddle on
      * the left wall and serves one ball toward it. x, y and vy are the
      * random draws for the ball, from [ScreenW / 2, 550), [250, 384) and
      * [100, 235). */
    method Initialize(sdlStarted: bool, windowCreated: bool, x: real, y: real, vy: real) returns (ok: bool)
      requires BallXLow <= x < BallXHigh && 250.0 <= y < ScreenH / 2.0 && 100.0 <= vy < 235.0
      requires -1 <= paddleDir <= 1  // the constructor leaves it at 0
      modifies this`paddlePos, this`balls
      ensures ok == (sdlStarted && windowCreated)
      ensures ok ==> Valid()
      ensures ok ==> paddlePos == Vec2(PaddleX, ScreenH / 2.0) && balls == old(balls) + [Ball(Vec2(x, y), Vec2(ServeSpeedX, vy))]
      ensures !ok ==> paddlePos == old(paddlePos) && balls == old(balls)
    {
      if !sdlStarted {
        return false;
      }
      if !windowCreated {
        return false;
      }
      paddlePos := Vec2(PaddleX, ScreenH / 2.0);
      var serve := Ball(Vec2(x, y), Vec2(ServeSpeedX, vy));
      var i := 0;
      while i < 1
        invariant 0 <= i <= 1
        invariant paddlePos == Vec2(PaddleX, ScreenH / 2.0)
        invariant |balls| == |old(balls)| + i && balls[..|old(balls)|] == old(balls)
        invariant forall k :: |old(balls)| <= k < |balls| ==> balls[k] == serve
      {
        balls := balls + [serve];
        i := i + 1;
      }
      assert balls == old(balls) + [serve];
      return true;
    }

    /** Game::ProcessInput for one frame: a quit event or Escape stops the
      * game, and W / S set the paddle direction. */
    method ProcessInput(quit: bool, escape: bool, w: bool, s: bool)
      requires Valid()
      modifies this`isRunning, this`paddleDir
      ensures Valid()
      ensures isRunning == (old(isRunning) && !quit && !escape)
      ensures paddleDir == Steering(w, s)
    {
      if quit {
        isRunning := false;
      }
      if escape {
        isRunning := false;
      }
      paddleDir := 0;
      if w {
        paddleDir := paddleDir - 1;
      }
      if s {
        paddleDir := paddleDir + 1;
      }
    }

    /** Game::UpdateGame after its frame-pacing wait; now is what
      * SDL_GetTicks() returns. The paddle moves only when steered and is
      * then clamped between the walls; every ball moves and bounces, and a
      * ball past the paddle stops the game. */
    method UpdateGame(now: Ticks)
      requires Valid()
      modifies this`ticksCount, this`paddlePos, this`balls, this`isRunning
      ensures Valid()
      ensures ticksCount == now
      ensures paddleDir != 0 ==> paddlePos.y == ClampPaddle(PaddleStep(old(paddlePos.y), paddleDir, DeltaTime(now, old(ticksCount))))
      ensures paddleDir == 0 ==> paddlePos == old(paddlePos)
      ensures |balls| == |old(balls)|
      ensures forall i :: 0 <= i < |balls| ==> balls[i] == StepBall(old(balls)[i], DeltaTime(now, old(ticksCount)), paddlePos.y)
      ensures isRunning <==> (old(isRunning) &&
        forall i :: 0 <= i < |balls| ==> !Loses(old(balls)[i], DeltaTime(now, old(ticksCount)), paddlePos.y))
    {
      var deltaTime := DeltaTime(now, ticksCount);
      ticksCount := now;
      if paddleDir != 0 {
        var y := PaddleStep(paddlePos.y, paddleDir, deltaTime);
        if y < PaddleTop {
          y := PaddleTop;
        } else if y > PaddleBottom {
          y := PaddleBottom;
        }
        paddlePos := Vec2(paddlePos.x, y);
      }
      MoveBalls(deltaTime);
    }

    /** The ball loop of Game::UpdateGame, updating each ball in place. */
    method MoveBalls(dt: real)
      modifies this`balls, this`isRunning
      ensures |balls| == |old(balls)|
      ensures forall i :: 0 <= i < |balls| ==> balls[i] == StepBall(old(balls)[i], dt, paddlePos.y)
      ensures isRunning <==> old(isRunning) && forall i :: 0 <= i < |balls| ==> !Loses(old(balls)[i], dt, paddlePos.y)
    {
      var i := 0;
      while i < |balls|
        invariant 0 <= i <= |balls| == |old(balls)|
        invariant forall k :: 0 <= k < |balls| ==> balls[k] == if k < i then StepBall(old(balls)[k], dt, paddlePos.y) else old(balls)[k]
        invariant isRunning <==> old(isRunning) && forall k :: 0 <= k < i ==> !Loses(old(balls)[k], dt, paddlePos.y)
      {
        StepOne(i, dt);
        i := i + 1;
      }
    }

    /** One turn of the ball loop: ball i moves, then the first check that
      * holds in the chain paddle, past the paddle, right wall, top wall,
      * bottom wall takes effect. */
    method StepOne(i: nat, dt: real)
      requires i < |balls|
      modifies this`balls, this`isRunning
      ensures balls == old(balls)[i := StepBall(old(balls)[i], dt, paddlePos.y)]
      ensures isRunning == (old(isRunning) && !Loses(old(balls)[i], dt, paddlePos.y))
    {
      var pos := balls[i].pos;
      var vel := balls[i].vel;
      pos := Vec2(Moved(pos.x, vel.x, dt), Moved(pos.y, vel.y, dt));
      ghost var moved := Advance(balls[i], dt);
      var diff := paddlePos.y - pos.y;
      diff := if diff > 0.0 then diff else -diff;
      if diff <= PaddleH / 2.0 && pos.x <= 25.0 && pos.x >= PaddleX && vel.x < 0.0 {
        vel := Vec2(vel.x * -1.0, vel.y);
      } else if pos.x <= 0.0 {
        isRunning := false;
      } else if pos.x >= ScreenW - Thickness && vel.x > 0.0 {
        vel := Vec2(vel.x * -1.0, vel.y);
      } else if pos.y <= Thickness && vel.y < 0.0 {
        vel := Vec2(vel.x, vel.y * -1.0);
      } else if pos.y >= ScreenH - Thickness && vel.y > 0.0 {
        vel := Vec2(vel.x, vel.y * -1.0);
      }
      assert Ball(pos, vel) == Bounce(moved, ContactOf(moved, paddlePos.y));
      balls := balls[i := Ball(pos, vel)];
    }
  }
}
