/** Pong with a bat at the bottom of the screen: the ball bounces off the
  * top and side walls, a ball that falls past the bottom costs a life, and
  * every bounce off the top wall scores a point. */
module Pong {
  import opened Wrappers

  /** Width and height of the ball, a square. */
  const BallSize: real := 10.0
  const BallSpeed: real := 300.0
  const BatWidth: real := 70.0
  const BatHeight: real := 5.0
  const BatSpeed: real := 1000.0
  const StartLives: int := 3
  /** Range of the unsigned int score counter. */
  const ScoreModulus: int := 0x1_0000_0000

  function Abs(v: real): real {
    if v < 0.0 then -v else v
  }

  /** What the ball rebounds from. */
  datatype ReboundPosition = Sides | Bat | Top | Bottom

  /** The ball's direction after a rebound: off the top it heads down the
    * screen, off the bat or after a miss it heads up, and off a side wall
    * its horizontal direction reverses. */
  function Reflected(rp: ReboundPosition, d: Vec2): Vec2 {
    match rp
    case Top => Vec2(d.x, Abs(d.y))
    case Sides => Vec2(-d.x, d.y)
    case Bottom => Vec2(d.x, -Abs(d.y))
    case Bat => Vec2(d.x, -Abs(d.y))
  }

  /** A rebound only changes signs: both components keep their magnitude,
    * and the vertical one points the way the rebound sends the ball. */
  lemma ReboundKeepsMagnitudes(rp: ReboundPosition, d: Vec2)
    ensures Abs(Reflected(rp, d).x) == Abs(d.x) && Abs(Reflected(rp, d).y) == Abs(d.y)
    ensures rp == Top ==> 0.0 <= Reflected(rp, d).y
    ensures rp in {Bat, Bottom} ==> Reflected(rp, d).y <= 0.0
    ensures rp != Sides ==> Reflected(rp, d).x == d.x
    ensures rp == Sides ==> Reflected(rp, d).y == d.y
  {
  }

  /** Two side rebounds cancel out; a second top, bat or bottom rebound
    * changes nothing. */
  lemma ReboundTwice(rp: ReboundPosition, d: Vec2)
    ensures rp == Sides ==> Reflected(rp, Reflected(rp, d)) == d
    ensures rp != Sides ==> Reflected(rp, Reflected(rp, d)) == Reflected(rp, d)
  {
  }

  /** How far the ball travels in dt seconds along direction d. */
  function Travel(d: Vec2, speed: real, dt: real): Vec2 {
    Vec2(d.x * speed * dt, d.y * speed * dt)
  }

  /** After a top rebound the ball moves down the screen (or stays), and
    * after a bat rebound it moves up, for any non-negative time step. */
  lemma TravelFollowsRebound(d: Vec2, dt: real)
    requires 0.0 <= dt
    ensures 0.0 <= Travel(Reflected(Top, d), BallSpeed, dt).y
    ensures Travel(Reflected(Bat, d), BallSpeed, dt).y <= 0.0
  {
    var up := Reflected(Bat, d).y;
    assert 0.0 <= -up;
    assert 0.0 <= (-up) * BallSpeed * dt;
    assert Travel(Reflected(Bat, d), BallSpeed, dt).y == -((-up) * BallSpeed * dt);
  }

  class Ball {
    var position: Vec2
    var speed: real
    var dirX: real
    var dirY: real

    /** A ball at (startX, startY) heading right and down at speed 300. */
    constructor (startX: real, startY: real)
      ensures position == Vec2(startX, startY)
      ensures speed == BallSpeed && dirX == 1.0 && dirY == 1.0
    {
      speed := BallSpeed;
      dirX := 1.0;
      dirY := 1.0;
      position := Vec2(startX, startY);
    }

    /** Moves the ball by direction × speed × dt on each axis. */
    method Update(dt: real)
      modifies this`position
      ensures position == Add(old(position), Travel(Vec2(dirX, dirY), speed, dt))
    {
      var movement := Travel(Vec2(dirX, dirY), speed, dt);
      position := Add(position, movement);
    }

    /** Turns the ball; a bottom rebound also puts it back in the middle of
      * the screen. */
    method Rebound(rp: ReboundPosition, screen: Vec2)
      modifies this`dirX, this`dirY, this`position
      ensures Vec2(dirX, dirY) == Reflected(rp, Vec2(old(dirX), old(dirY)))
      ensures position == if rp == Bottom then Vec2(screen.x / 2.0, screen.y / 2.0) else old(position)
    {
      match rp
      case Top =>
        dirY := Abs(dirY);
      case Sides =>
        dirX := -dirX;
      case Bottom =>
        position := Vec2(screen.x / 2.0, screen.y / 2.0);
        dirY := -Abs(dirY);
      case Bat =>
        dirY := -Abs(dirY);
    }
  }

  datatype BatDirection = Left | Right | NoDirection

  /** The bat's horizontal velocity: it moves left only while its left edge
    * is right of 0, right only while its right edge is left of the screen
    * edge, and otherwise stands still. */
  function BatVelocity(dir: BatDirection, leftX: real, rightX: real, screenW: real, speed: real): real {
    if dir == Left && leftX > 0.0 then -speed
    else if dir == Right && rightX < screenW then speed
    else 0.0
  }

  lemma BatVelocityCases(dir: BatDirection, leftX: real, rightX: real, screenW: real, speed: real)
    requires 0.0 < speed
    ensures BatVelocity(dir, leftX, rightX, screenW, speed) < 0.0 <==> dir == Left && leftX > 0.0
    ensures BatVelocity(dir, leftX, rightX, screenW, speed) > 0.0 <==> dir == Right && rightX < screenW
    ensures BatVelocity(dir, leftX, rightX, screenW, speed) == 0.0 <==>
      !(dir == Left && leftX > 0.0) && !(dir == Right && rightX < screenW)
  {
  }

  class Bat {
    var position: Vec2
    var speed: real
    var direction: BatDirection

    /** A stationary bat at (startX, startY). */
    constructor (startX: real, startY: real)
      ensures position == Vec2(startX, startY) && speed == BatSpeed && direction == NoDirection
    {
      speed := BatSpeed;
      direction := NoDirection;
      position := Vec2(startX, startY);
    }

    method Move(dir: BatDirection)
      modifies this`direction
      ensures direction == dir
    {
      direction := dir;
    }

    method Stop()
      modifies this`direction
      ensures direction == NoDirection
    {
      direction := NoDirection;
    }

    /** Moves the bat horizontally for dt seconds; screenW is the width of
      * the screen. */
    method Update(dt: real, screenW: real)
      modifies this`position
      ensures position == Vec2(old(position.x) + BatVelocity(direction, old(position.x), old(position.x) + BatWidth, screenW, speed) * dt, old(position.y))
    {
      var dx := 0.0;
      var leftX := position.x;
      var rightX := position.x + BatWidth;
      if direction == Left && leftX > 0.0 {
        dx := -speed;
      } else if direction == Right && rightX < screenW {
        dx := speed;
      }
      position := Add(position, Vec2(dx * dt, 0.0));
    }
  }

  /** Score and lives after a frame in which the ball may have fallen past
    * the bottom (missed) and may have passed the top (scored). Losing the
    * last life starts a new game: score 0 and three lives. */
  function Tally(score: int, lives: int, missed: bool, scored: bool): (r: (int, int))
  {
    var (s, l) := if !missed then (score, lives)
                  else if lives - 1 < 1 then (0, StartLives)
                  else (score, lives - 1);
    if scored then ((s + 1) % ScoreModulus, l) else (s, l)
  }

  /** Lives stay between 1 and 3, the score stays in range of its counter,
    * and a miss without a point never raises the score. */
  lemma TallyBounds(score: int, lives: int, missed: bool, scored: bool)
    requires 1 <= lives <= StartLives && 0 <= score < ScoreModulus
    ensures var (s, l) := Tally(score, lives, missed, scored);
      1 <= l <= StartLives && 0 <= s < ScoreModulus
      && (!missed ==> l == lives)
      && (missed ==> l == if lives == 1 then StartLives else lives - 1)
      && (!scored ==> s <= score)
      && (scored && !(missed && lives == 1) && score + 1 < ScoreModulus ==> s == score + 1)
  {
  }

  /** Missing three times in a row from a full set of lives starts a new
    * game with score 0. */
  lemma {:induction false} ThreeMissesRestart(score: int)
    requires 0 <= score < ScoreModulus
    ensures var (s1, l1) := Tally(score, StartLives, true, false);
      var (s2, l2) := Tally(s1, l1, true, false);
      Tally(s2, l2, true, false) == (0, StartLives)
  {
    assert Tally(score, StartLives, true, false) == (score, 2);
    assert Tally(score, 2, true, false) == (score, 1);
  }

  /** The ball, whose top-left corner is at p, has fallen past the bottom
    * of the screen. */
  predicate Missed(p: Vec2, screen: Vec2) {
    p.y + BallSize > screen.y
  }

  /** The ball has passed the top of the screen. */
  predicate Scored(p: Vec2) {
    p.y < 0.0
  }

  /** The ball sticks out past the left or the right edge of the screen. */
  predicate OffSide(p: Vec2, screen: Vec2) {
    p.x < 0.0 || p.x + BallSize > screen.x
  }

  /** The ball's direction after the collision checks of a frame: each
    * check that fires applies its rebound, in the order bottom, top, sides,
    * bat. */
  function Bounced(p: Vec2, d: Vec2, screen: Vec2, overlap: Option<real>): Vec2 {
    var d1 := if Missed(p, screen) then Reflected(Bottom, d) else d;
    var d2 := if Scored(p) then Reflected(Top, d1) else d1;
    var d3 := if OffSide(p, screen) then Reflected(Sides, d2) else d2;
    if overlap.Some? then Reflected(Bat, d3) else d3
  }

  /** The ball's position after the collision checks: back to the centre
    * after a miss, then pushed up by the overlap with the bat. */
  function Placed(p: Vec2, screen: Vec2, overlap: Option<real>): Vec2 {
    var q := if Missed(p, screen) then Vec2(screen.x / 2.0, screen.y / 2.0) else p;
    if overlap.Some? then Add(q, Vec2(0.0, -overlap.value)) else q
  }

  /** Touching the bat always sends the ball up the screen, whatever else
    * the frame did; a ball that only passed the top heads down. The
    * horizontal direction reverses exactly when the ball is off a side. */
  lemma BounceDirections(p: Vec2, d: Vec2, screen: Vec2, overlap: Option<real>)
    ensures overlap.Some? ==> Bounced(p, d, screen, overlap).y <= 0.0
    ensures Scored(p) && overlap.None? ==> 0.0 <= Bounced(p, d, screen, overlap).y
    ensures Bounced(p, d, screen, overlap).x == if OffSide(p, screen) then -d.x else d.x
    ensures Abs(Bounced(p, d, screen, overlap).y) == Abs(d.y)
  {
  }

  datatype Key = Escape | LeftKey | RightKey | OtherKey

  /** The frame loop of the game: a ball, a bat, the score and the lives on
    * a screen of the given size (Game::screenDims). */
  class Game {
    const screen: Vec2
    const ball: Ball
    const bat: Bat
    var score: int
    var lives: int
    var windowOpen: bool

    /** Lives are between 1 and 3 and the score fits its counter. */
    predicate Valid()
      reads this`score, this`lives
    {
      1 <= lives <= StartLives && 0 <= score < ScoreModulus
    }

    /** The bat starts 150 below the middle of the screen, the ball at the
      * top centre; score 0, three lives. */
    constructor (screen: Vec2)
      ensures Valid() && fresh(ball) && fresh(bat) && this.screen == screen
      ensures score == 0 && lives == StartLives && windowOpen
      ensures bat.position == Vec2(screen.x / 2.0, screen.y / 2.0 + 150.0) && bat.direction == NoDirection
      ensures ball.position == Vec2(screen.x / 2.0, 0.0) && ball.dirX == 1.0 && ball.dirY == 1.0
      ensures ball.speed == BallSpeed && bat.speed == BatSpeed
    {
      this.screen := screen;
      bat := new Bat(screen.x / 2.0, screen.y / 2.0 + 150.0);
      ball := new Ball(screen.x / 2.0, 0.0);
      score := 0;
      lives := StartLives;
      windowOpen := true;
    }

    /** A key press: Escape closes the window, the arrows steer the bat. */
    method KeyPress(key: Key)
      modifies this`windowOpen, bat`direction
      ensures windowOpen == (old(windowOpen) && key != Escape)
      ensures bat.direction == match key
        case LeftKey => Left
        case RightKey => Right
        case _ => old(bat.direction)
    {
      if key == Escape {
        windowOpen := false;
      }
      if key == LeftKey {
        bat.Move(Left);
      }
      if key == RightKey {
        bat.Move(Right);
      }
    }

    /** A key release: letting go of either arrow stops the bat. */
    method KeyRelease(key: Key)
      modifies bat`direction
      ensures bat.direction == if key in {LeftKey, RightKey} then NoDirection else old(bat.direction)
    {
      if key == LeftKey {
        bat.Stop();
      }
      if key == RightKey {
        bat.Stop();
      }
    }

    /** One frame: the bottom, top, side and bat checks on the ball's bounds
      * at the start of the frame, then the bat and the ball move for dt
      * seconds. overlap is the height of the intersection of the ball's
      * bounds with the bat's, if they intersect. */
    method Frame(dt: real, overlap: Option<real>)
      requires Valid()
      modifies this`score, this`lives, ball`dirX, ball`dirY, ball`position, bat`position
      ensures Valid()
      ensures (score, lives) == Tally(old(score), old(lives), Missed(old(ball.position), screen), Scored(old(ball.position)))
      ensures Vec2(ball.dirX, ball.dirY) == Bounced(old(ball.position), Vec2(old(ball.dirX), old(ball.dirY)), screen, overlap)
      ensures ball.position == Add(Placed(old(ball.position), screen, overlap), Travel(Vec2(ball.dirX, ball.dirY), ball.speed, dt))
      ensures var b := old(bat.position);
        bat.position == Vec2(b.x + BatVelocity(bat.direction, b.x, b.x + BatWidth, screen.x, bat.speed) * dt, b.y)
    {
      Collide(overlap);
      bat.Update(dt, screen.x);
      ball.Update(dt);
    }

    /** The collision checks of a frame, in order: bottom (a life lost),
      * top (a point), the side walls, and the bat (the ball is also pushed
      * up out of the bat by the overlap). */
    method Collide(overlap: Option<real>)
      requires Valid()
      modifies this`score, this`lives, ball`dirX, ball`dirY, ball`position
      ensures Valid()
      ensures (score, lives) == Tally(old(score), old(lives), Missed(old(ball.position), screen), Scored(old(ball.position)))
      ensures Vec2(ball.dirX, ball.dirY) == Bounced(old(ball.position), Vec2(old(ball.dirX), old(ball.dirY)), screen, overlap)
      ensures ball.position == Placed(old(ball.position), screen, overlap)
    {
      var left := ball.position.x;
      var top := ball.position.y;
      var right := left + BallSize;
      var bottom := top + BallSize;
      ghost var p := ball.position;
      ghost var d := Vec2(ball.dirX, ball.dirY);
      TallyBounds(score, lives, bottom > screen.y, top < 0.0);

      if bottom > screen.y {
        ball.Rebound(Bottom, screen);
        lives := lives - 1;
        if lives < 1 {
          score := 0;
          lives := StartLives;
        }
      }
      ghost var d1 := if Missed(p, screen) then Reflected(Bottom, d) else d;
      assert Vec2(ball.dirX, ball.dirY) == d1;
      assert (score, lives) == Tally(old(score), old(lives), Missed(p, screen), false);

      if top < 0.0 {
        ball.Rebound(Top, screen);
        score := (score + 1) % ScoreModulus;
      }
      ghost var d2 := if Scored(p) then Reflected(Top, d1) else d1;
      assert Vec2(ball.dirX, ball.dirY) == d2;

      if left < 0.0 || right > screen.x {
        ball.Rebound(Sides, screen);
      }
      assert Vec2(ball.dirX, ball.dirY) == if OffSide(p, screen) then Reflected(Sides, d2) else d2;

      if overlap.Some? {
        ball.Rebound(Bat, screen);
        ball.position := Add(ball.position, Vec2(0.0, -overlap.value));
      }
    }
  }
}
