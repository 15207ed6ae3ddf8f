/** Zombie Arena (beggining_game_programming_third_edition/zombie-arena):
  * the player, the zombies, the bullets, the tiled arena and its horde, the
  * texture cache, and the Game that runs the key-press rules, the scoring
  * loop and the HUD counter. Positions and speeds are reals; times are whole
  * milliseconds; random draws, the mouse, overlap tests and the square root
  * are parameters. */
module ZombieArena {
  import opened Wrappers
  import opened Sequences

  /** sf::IntRect: integer position and size. */
  datatype IntRect = IntRect(x: int, y: int, width: int, height: int)

  /** std::clamp(v, lo, hi), whose precondition is lo <= hi. */
  function Clamp(v: real, lo: real, hi: real): (r: real)
    requires lo <= hi
    ensures lo <= r <= hi
    ensures lo <= v <= hi ==> r == v
    ensures v < lo ==> r == lo
    ensures hi < v ==> r == hi
  {
    if v < lo then lo else if hi < v then hi else v
  }

  /** A square-root function: what std::sqrt computes on non-negative reals. */
  ghost predicate IsSqrt(sqrt: real -> real) {
    forall x :: 0.0 <= x ==> 0.0 <= sqrt(x) && sqrt(x) * sqrt(x) == x
  }

  // ---------------------------------------------------------------- Player

  const StartSpeed: real := 200.0
  const StartHealth: int := 100
  /** The invulnerability window after a hit, in milliseconds. */
  const HitWindowMs: int := 200

  datatype Movement = Up | Down | Left | Right

  /** The centre of an arena: position plus half the size, in float. */
  function ArenaCentre(arena: IntRect): Vec2 {
    Vec2(arena.x as real + arena.width as real / 2.0, arena.y as real + arena.height as real / 2.0)
  }

  /** The lowest coordinate Player::Update allows on an axis: one tile in
    * from the arena's near edge. */
  function WallLow(origin: int, tileSize: int): real {
    (origin + tileSize) as real
  }

  /** The highest coordinate Player::Update allows on an axis: one tile in
    * from the arena's far edge. */
  function WallHigh(origin: int, size: int, tileSize: int): real {
    (origin + size - tileSize) as real
  }

  /** Inside the walls Player::Update clamps to. */
  ghost predicate InsideWalls(p: Vec2, arena: IntRect, tileSize: int) {
    WallLow(arena.x, tileSize) <= p.x <= WallHigh(arena.x, arena.width, tileSize)
    && WallLow(arena.y, tileSize) <= p.y <= WallHigh(arena.y, arena.height, tileSize)
  }

  /** What the two opposite flags of one axis add to a coordinate. */
  function Drift(back: bool, forth: bool, step: real): real {
    (if forth then step else 0.0) - (if back then step else 0.0)
  }

  /** One axis of Player::Update: the coordinate moved by the two opposite
    * flags and clamped into the walls of that axis. */
  function Walk(z: real, back: bool, forth: bool, speed: real, dt: real, origin: int, size: int, tileSize: int): real
    requires 2 * tileSize <= size
  {
    Clamp(z + Drift(back, forth, speed * dt), WallLow(origin, tileSize), WallHigh(origin, size, tileSize))
  }

  /** Wherever it starts and whichever flags are set, a walk ends inside
    * the walls; a player standing inside the walls with neither or both
    * flags set stays put. */
  lemma WalkInsideWalls(z: real, back: bool, forth: bool, speed: real, dt: real, origin: int, size: int, tileSize: int)
    requires 2 * tileSize <= size
    ensures WallLow(origin, tileSize) <= Walk(z, back, forth, speed, dt, origin, size, tileSize) <= WallHigh(origin, size, tileSize)
    ensures back == forth && WallLow(origin, tileSize) <= z <= WallHigh(origin, size, tileSize) ==>
      Walk(z, back, forth, speed, dt, origin, size, tileSize) == z
  {
    assert back == forth ==> Drift(back, forth, speed * dt) == 0.0;
  }

  /** The two ifs of one axis of Player::Update, then the clamp. */
  method WalkAxis(z0: real, back: bool, forth: bool, speed: real, dt: real, origin: int, size: int, tileSize: int)
    returns (z: real)
    requires 2 * tileSize <= size
    ensures z == Walk(z0, back, forth, speed, dt, origin, size, tileSize)
  {
    var step := speed * dt;
    z := z0;
    if back { z := z - step; }
    if forth { z := z + step; }
    z := Clamp(z, WallLow(origin, tileSize), WallHigh(origin, size, tileSize));
  }

  class Player {
    var position: Vec2
    var arena: IntRect
    var tileSize: int
    var upPressed: bool
    var downPressed: bool
    var leftPressed: bool
    var rightPressed: bool
    var health: int
    var maxHealth: int
    var lastHitMs: int
    var speed: real

    /** Health never exceeds the maximum. */
    ghost predicate Valid()
      reads this`health, this`maxHealth
    {
      health <= maxHealth
    }

    /** Whether the flag of one direction is set. */
    predicate Pressed(m: Movement)
      reads this`upPressed, this`downPressed, this`leftPressed, this`rightPressed
    {
      match m
      case Up => upPressed
      case Down => downPressed
      case Left => leftPressed
      case Right => rightPressed
    }

    /** Player::Player: at the origin in an empty arena, no flag set, the
      * starting health and speed, last hit at time zero. */
    constructor ()
      ensures Valid()
      ensures position == Origin && arena == IntRect(0, 0, 0, 0) && tileSize == 0
      ensures forall m :: !Pressed(m)
      ensures health == StartHealth && maxHealth == StartHealth && speed == StartSpeed
      ensures lastHitMs == 0
    {
      position := Origin;
      arena := IntRect(0, 0, 0, 0);
      tileSize := 0;
      upPressed, downPressed, leftPressed, rightPressed := false, false, false, false;
      health, maxHealth := StartHealth, StartHealth;
      lastHitMs := 0;
      speed := StartSpeed;
    }

    /** Player::Spawn: remember the arena and tile size and stand at the
      * arena's centre. */
    method Spawn(arena: IntRect, tileSize: int)
      modifies this`arena, this`tileSize, this`position
      ensures this.arena == arena && this.tileSize == tileSize
      ensures position == ArenaCentre(arena)
    {
      this.arena := arena;
      this.tileSize := tileSize;
      position := ArenaCentre(arena);
    }

    /** Player::ResetPlayerStats. */
    method ResetPlayerStats()
      modifies this`speed, this`health, this`maxHealth
      ensures Valid()
      ensures speed == StartSpeed && health == StartHealth && maxHealth == StartHealth
    {
      speed := StartSpeed;
      health := StartHealth;
      maxHealth := StartHealth;
    }

    /** Player::Hit: a hit counts only more than 200 ms after the last one
      * that counted; it then costs 10 health and restarts the window. */
    method Hit(timeMs: int) returns (hit: bool)
      requires Valid()
      modifies this`lastHitMs, this`health
      ensures Valid()
      ensures hit <==> timeMs - old(lastHitMs) > HitWindowMs
      ensures hit ==> lastHitMs == timeMs && health == old(health) - 10
      ensures !hit ==> lastHitMs == old(lastHitMs) && health == old(health)
    {
      if timeMs - lastHitMs > HitWindowMs {
        lastHitMs := timeMs;
        health := health - 10;
        return true;
      }
      return false;
    }

    /** Player::Move: set the one flag. */
    method Move(m: Movement)
      modifies this`upPressed, this`downPressed, this`leftPressed, this`rightPressed
      ensures Pressed(m)
      ensures forall k :: k != m ==> Pressed(k) == old(Pressed(k))
    {
      match m
      case Up => upPressed := true;
      case Down => downPressed := true;
      case Left => leftPressed := true;
      case Right => rightPressed := true;
    }

    /** Player::Stop: clear the one flag. */
    method Stop(m: Movement)
      modifies this`upPressed, this`downPressed, this`leftPressed, this`rightPressed
      ensures !Pressed(m)
      ensures forall k :: k != m ==> Pressed(k) == old(Pressed(k))
    {
      match m
      case Up => upPressed := false;
      case Down => downPressed := false;
      case Left => leftPressed := false;
      case Right => rightPressed := false;
    }

    /** Player::Update: step speed * dt along every pressed direction, then
      * clamp into the walls. std::clamp needs each lower bound at most its
      * upper bound, hence the requires. The sprite's rotation towards the
      * mouse is not modelled. */
    method Update(dt: real)
      requires 2 * tileSize <= arena.width && 2 * tileSize <= arena.height
      modifies this`position
      ensures position.x == Walk(old(position).x, leftPressed, rightPressed, speed, dt, arena.x, arena.width, tileSize)
      ensures position.y == Walk(old(position).y, upPressed, downPressed, speed, dt, arena.y, arena.height, tileSize)
      ensures InsideWalls(position, arena, tileSize)
    {
      var y := WalkAxis(position.y, upPressed, downPressed, speed, dt, arena.y, arena.height, tileSize);
      var x := WalkAxis(position.x, leftPressed, rightPressed, speed, dt, arena.x, arena.width, tileSize);
      position := Vec2(x, y);
    }

    /** Player::UpgradeSpeed: 20% of the starting speed more. */
    method UpgradeSpeed()
      modifies this`speed
      ensures speed == old(speed) + StartSpeed / 5.0
    {
      speed := speed + 40.0;
    }

    /** Player::UpgradeMaxHealth: 20% of the starting health more, which is
      * the integer 20. */
    method UpgradeMaxHealth()
      requires Valid()
      modifies this`maxHealth
      ensures Valid()
      ensures maxHealth == old(maxHealth) + StartHealth / 5
    {
      maxHealth := maxHealth + 20;
    }

    /** Player::IncreaseHealthLevel: heal by the amount, capped at the
      * maximum health. */
    method IncreaseHealthLevel(amount: nat)
      modifies this`health
      ensures Valid()
      ensures health == if old(health) + amount < maxHealth then old(health) + amount else maxHealth
      ensures old(health) <= maxHealth ==> old(health) <= health
    {
      health := health + amount;
      if health > maxHealth {
        health := maxHealth;
      }
    }
  }

  /** A spawned player stands inside the walls Update clamps to, as long as
    * the arena is at least two tiles wide and high. */
  lemma SpawnInsideWalls(arena: IntRect, tileSize: int)
    requires 0 <= tileSize && 2 * tileSize <= arena.width && 2 * tileSize <= arena.height
    ensures InsideWalls(ArenaCentre(arena), arena, tileSize)
  {
    assert 2.0 * tileSize as real <= arena.width as real;
    assert 2.0 * tileSize as real <= arena.height as real;
  }

  // ---------------------------------------------------------------- Zombie

  datatype ZombieType = Bloater | Chaser | Crawler

  datatype Stats = Stats(speed: real, health: real)

  /** The zombieStats table of zombie.h. */
  function StatsOf(t: ZombieType): (s: Stats)
    ensures 0.0 < s.speed && 1.0 <= s.health
  {
    match t
    case Bloater => Stats(40.0, 5.0)
    case Chaser => Stats(80.0, 1.0)
    case Crawler => Stats(20.0, 3.0)
  }

  const MaxVariance: int := 30
  const Offset: int := 101 - MaxVariance

  /** The speed modifier from a rand() result: (r % 30 + 71) / 100. */
  function SpeedModifier(roll: nat): (m: real)
    ensures 71.0 / 100.0 <= m <= 1.0
  {
    ((roll % MaxVariance) + Offset) as real / 100.0
  }

  /** One axis of Zombie::Update: step towards the player when the player is
    * further along the axis, then step back when the player is behind. */
  function Chase(z: real, p: real, step: real): real {
    var z1 := if p > z then z + step else z;
    if p < z1 then z1 - step else z1
  }

  /** With a non-negative step, an axis ends one step further, one step
    * back or unchanged. It moves forward only towards a player ahead and
    * never past them (an overshoot forward is stepped back), and it moves
    * back only when the player is behind. A player level with the zombie
    * leaves that axis unchanged. */
  lemma ChaseSteps(z: real, p: real, step: real)
    requires 0.0 <= step
    ensures Chase(z, p, step) == z - step || Chase(z, p, step) == z || Chase(z, p, step) == z + step
    ensures Chase(z, p, step) > z ==> p > z && Chase(z, p, step) <= p
    ensures Chase(z, p, step) < z ==> p < z
    ensures p == z ==> Chase(z, p, step) == z
    ensures p > z && z + step <= p && 0.0 < step ==> Chase(z, p, step) == z + step
  {
  }

  /** Stepping back is not corrected: a player slightly behind can be
    * passed by a whole step. */
  lemma ChaseMayPassBackwards()
    ensures Chase(10.0, 9.0, 5.0) == 5.0
  {
  }

  /** Both axes of Zombie::Update, each chasing the target by the step. */
  function Pursue(from: Vec2, target: Vec2, step: real): Vec2 {
    Vec2(Chase(from.x, target.x, step), Chase(from.y, target.y, step))
  }

  /** How many hits a fresh zombie of the type survives: it dies on the
    * next one. */
  function HitsSurvived(t: ZombieType): nat {
    match t
    case Bloater => 5
    case Chaser => 1
    case Crawler => 3
  }

  class Zombie {
    var position: Vec2
    var speed: real
    var health: real
    var alive: bool

    /** A live zombie has not gone below zero health, and speed is never
      * negative. */
    ghost predicate Valid()
      reads this`health, this`alive, this`speed
    {
      (alive ==> 0.0 <= health) && 0.0 <= speed
    }

    /** Zombie::Zombie: not alive, everything zero. */
    constructor ()
      ensures Valid() && position == Origin && speed == 0.0 && health == 0.0 && !alive
    {
      position := Origin;
      speed := 0.0;
      health := 0.0;
      alive := false;
    }

    /** Zombie::Hit: one health less; the hit kills, and reports it, exactly
      * when health drops below zero. */
    method Hit() returns (killed: bool)
      requires Valid()
      modifies this`health, this`alive
      ensures Valid()
      ensures health == old(health) - 1.0
      ensures killed <==> health < 0.0
      ensures alive == (old(alive) && !killed)
    {
      health := health - 1.0;
      if health < 0.0 {
        alive := false;
        return true;
      }
      return false;
    }

    /** Zombie::Spawn: stand at the start point, alive, with the type's
      * health and its speed scaled by the modifier of the rand() draw. */
    method Spawn(startX: real, startY: real, t: ZombieType, roll: nat)
      modifies this
      ensures Valid() && alive
      ensures position == Vec2(startX, startY)
      ensures health == StatsOf(t).health
      ensures speed == StatsOf(t).speed * SpeedModifier(roll)
      ensures StatsOf(t).speed * 71.0 / 100.0 <= speed <= StatsOf(t).speed
    {
      position := Vec2(startX, startY);
      var stats := StatsOf(t);
      speed := stats.speed;
      health := stats.health;
      alive := true;
      var modifier := ((roll % MaxVariance) + Offset) as real;
      modifier := modifier / 100.0;
      speed := speed * modifier;
      position := Vec2(startX, startY);
    }

    /** Zombie::Update: each axis chases the player by speed * dt. The
      * sprite's rotation is not modelled. */
    method Update(dt: real, player: Vec2)
      modifies this`position
      ensures position == Pursue(old(position), player, speed * dt)
    {
      var x, y := position.x, position.y;
      if player.x > x { x := x + speed * dt; }
      if player.y > y { y := y + speed * dt; }
      if player.x < x { x := x - speed * dt; }
      if player.y < y { y := y - speed * dt; }
      position := Vec2(x, y);
    }
  }

  /** A fresh zombie survives exactly HitsSurvived(t) hits of Zombie::Hit
    * and the next one kills it: after k hits its health is below zero
    * exactly when k exceeds that count. */
  lemma {:induction false} DiesOnHit(t: ZombieType, k: nat)
    ensures StatsOf(t).health - k as real < 0.0 <==> k > HitsSurvived(t)
  {
    match t
    case Bloater =>
    case Chaser =>
    case Crawler =>
  }

  // ---------------------------------------------------------------- Bullet

  const BulletSpeed: real := 1000.0
  const BulletRange: real := 1000.0

  class Bullet {
    var inFlight: bool
    var position: Vec2
    var velocity: Vec2
    var distance: real
    var maxDistance: real

    /** A bullet in flight has not yet covered its range. */
    ghost predicate Valid()
      reads this`inFlight, this`distance, this`maxDistance
    {
      inFlight ==> distance < maxDistance
    }

    /** Bullet::Bullet: not in flight, no distance travelled, range 1000. */
    constructor ()
      ensures Valid() && !inFlight && distance == 0.0 && maxDistance == BulletRange
      ensures position == Origin && velocity == Origin
    {
      inFlight := false;
      position := Origin;
      velocity := Origin;
      distance := 0.0;
      maxDistance := BulletRange;
    }

    /** Bullet::Stop: leave flight; nothing else changes. */
    method Stop()
      modifies this`inFlight
      ensures Valid() && !inFlight
    {
      inFlight := false;
    }

    /** Bullet::Shoot: take flight from the start point towards the target
      * at 1000 units a second, or stand still when start and target
      * coincide; distance and range start over. */
    method Shoot(start: Vec2, target: Vec2, sqrt: real -> real)
      requires IsSqrt(sqrt)
      modifies this
      ensures Valid() && inFlight
      ensures position == start && distance == 0.0 && maxDistance == BulletRange
      ensures velocity == Aim(Towards(start, target), sqrt(SquaredLength(Towards(start, target))))
      ensures start == target ==> velocity == Origin
      ensures var length := sqrt(SquaredLength(Towards(start, target)));
        0.0 < length ==>
          0.0 < BulletSpeed / length
          && velocity == Scale(Towards(start, target), BulletSpeed / length)
          && SquaredLength(velocity) == BulletSpeed * BulletSpeed
    {
      inFlight := true;
      position := start;
      var direction := Towards(start, target);
      var length := sqrt(SquaredLength(direction));
      if length > 0.0 {
        AimsAtSpeed(direction, length);
      }
      direction := Normalised(direction, length);
      velocity := Scale(direction, BulletSpeed);
      Aims(Towards(start, target), length);
      distance := 0.0;
      maxDistance := BulletRange;
    }

    /** Bullet::Update: a bullet out of flight stays put; one in flight moves
      * by velocity * dt, adds the length of that step to its distance, and
      * leaves flight once the distance reaches its range. */
    method Update(dt: real, sqrt: real -> real)
      requires IsSqrt(sqrt)
      modifies this`position, this`distance, this`inFlight
      ensures !old(inFlight) ==> position == old(position) && distance == old(distance) && !inFlight
      ensures old(inFlight) ==> position == Add(old(position), Scale(velocity, dt))
      ensures old(inFlight) ==> (inFlight <==> distance < maxDistance)
      ensures old(inFlight) ==> distance == old(distance) + sqrt(SquaredLength(Scale(velocity, dt)))
      ensures old(distance) <= distance
      ensures Valid()
    {
      if !inFlight {
        return;
      }
      var displacement := Scale(velocity, dt);
      position := Add(position, displacement);
      distance := distance + sqrt(SquaredLength(displacement));
      if distance >= maxDistance {
        inFlight := false;
      }
    }
  }

  /** The vector from one point to another. */
  function Towards(from: Vec2, to: Vec2): Vec2 {
    Vec2(to.x - from.x, to.y - from.y)
  }

  /** The sum of the squared components, whose square root is the length. */
  function SquaredLength(d: Vec2): real {
    d.x * d.x + d.y * d.y
  }

  /** A direction divided by its length, left as it is when the length is
    * not positive. */
  function Normalised(d: Vec2, length: real): Vec2 {
    if length > 0.0 then Vec2(d.x / length, d.y / length) else d
  }

  /** The velocity Bullet::Shoot gives a direction of the given length. */
  function Aim(d: Vec2, length: real): Vec2 {
    Scale(Normalised(d, length), BulletSpeed)
  }

  /** The velocity lies on the line of the direction, and is zero when the
    * direction is. */
  lemma Aims(d: Vec2, length: real)
    ensures Aim(d, length).x * d.y == Aim(d, length).y * d.x
    ensures d == Origin ==> Aim(d, length) == Origin
  {
    if length > 0.0 {
      var ux, uy := d.x / length, d.y / length;
      assert ux * length == d.x && uy * length == d.y;
      assert (ux * d.y) * length == (uy * d.x) * length;
    }
  }

  /** With a true length, the velocity Shoot computes is the direction
    * scaled by a positive factor, so it points at the target, and its
    * length is the bullet speed, 1000 units a second. */
  lemma AimsAtSpeed(d: Vec2, length: real)
    requires 0.0 < length && length * length == SquaredLength(d)
    ensures 0.0 < BulletSpeed / length
    ensures Aim(d, length) == Scale(d, BulletSpeed / length)
    ensures SquaredLength(Aim(d, length)) == BulletSpeed * BulletSpeed
  {
    var k := BulletSpeed / length;
    assert (d.x / length) * BulletSpeed == d.x * k;
    assert (d.y / length) * BulletSpeed == d.y * k;
    assert k * length == BulletSpeed;
    calc {
      SquaredLength(Scale(d, k));
      (d.x * k) * (d.x * k) + (d.y * k) * (d.y * k);
      (k * k) * (d.x * d.x + d.y * d.y);
      (k * k) * (length * length);
      (k * length) * (k * length);
      BulletSpeed * BulletSpeed;
    }
  }

  // ----------------------------------------------------- Texture holder

  /** An sf::Texture: empty (default-constructed, or a failed load) or the
    * image of a file. */
  datatype Texture = EmptyTexture | Image(file: string)

  /** Where the static TextureHolder::msInstance pointer lives. */
  class TextureRegistry {
    var instance: TextureHolder?

    constructor ()
      ensures instance == null
    {
      instance := null;
    }
  }

  class TextureHolder {
    var textures: map<string, Texture>
    /** The file loads attempted so far, in order. */
    ghost var loads: seq<string>

    /** Every entry is its file's image or an empty texture, the cached names
      * are exactly the names loaded, and no name was loaded twice. */
    ghost predicate Valid()
      reads this
    {
      (forall n :: n in textures ==> textures[n] == EmptyTexture || textures[n] == Image(n))
      && (forall n :: n in textures <==> n in loads)
      && NoDup(loads)
    }

    /** TextureHolder::TextureHolder: asserts that there is no instance yet,
      * then becomes the instance. */
    constructor (registry: TextureRegistry)
      requires registry.instance == null
      modifies registry
      ensures Valid() && textures == map[] && loads == []
      ensures registry.instance == this
    {
      textures := map[];
      loads := [];
      new;
      registry.instance := this;
    }

    /** TextureHolder::GetTexture: a cached name gives its entry and loads
      * nothing; any other name is first inserted as an empty texture and
      * then loaded, and the entry keeps whatever the load left, so a failed
      * load is cached too. `loadOk` is what loadFromFile reports. */
    method GetTexture(filename: string, loadOk: bool) returns (t: Texture)
      requires Valid()
      modifies this
      ensures Valid()
      ensures filename in textures && textures[filename] == t
      ensures filename in old(textures) ==> t == old(textures)[filename] && textures == old(textures) && loads == old(loads)
      ensures filename !in old(textures) ==>
        textures == old(textures)[filename := t]
        && loads == old(loads) + [filename]
        && t == (if loadOk then Image(filename) else EmptyTexture)
    {
      if filename in textures {
        return textures[filename];
      }
      textures := textures[filename := EmptyTexture];
      AppendNoDup(loads, filename);
      loads := loads + [filename];
      if loadOk {
        textures := textures[filename := Image(filename)];
      }
      t := textures[filename];
    }
  }

  // ------------------------------------------------------------------ Arena

  const TileSize: int := 50
  const TileTypes: int := 3
  const VertsPerQuad: int := 6

  /** One sf::Vertex of the background: where it is drawn and where in the
    * tile sheet its texel comes from. */
  datatype Vertex = Vertex(position: Vec2, texCoords: Vec2)

  const BlankVertex := Vertex(Origin, Origin)

  /** The tile-sheet row of cell (w, h): the wall row on the border, the
    * pick (std::rand() for that cell) modulo the number of rows inside. */
  function TileRow(w: int, h: int, columns: int, rows: int, pick: (int, int) -> nat): (row: int)
    ensures 0 <= row < TileTypes
  {
    if h == 0 || h == rows - 1 || w == 0 || w == columns - 1 then TileTypes - 1
    else pick(w, h) % TileTypes
  }

  /** The world position of grid corner (a, b). */
  function Corner(a: int, b: int): Vec2 {
    Vec2((a * TileSize) as real, (b * TileSize) as real)
  }

  /** The six vertices createBackground writes for cell (w, h) with tile
    * row `row`: two triangles, top-left, top-right, bottom-right and
    * bottom-right, bottom-left, top-left. */
  function CellQuad(w: int, h: int, row: int): seq<Vertex> {
    var texY := (row * TileSize) as real;
    var size := TileSize as real;
    [Vertex(Corner(w, h), Vec2(0.0, texY)),
     Vertex(Corner(w + 1, h), Vec2(size, texY)),
     Vertex(Corner(w + 1, h + 1), Vec2(size, size + texY)),
     Vertex(Corner(w + 1, h + 1), Vec2(size, size + texY)),
     Vertex(Corner(w, h + 1), Vec2(0.0, size + texY)),
     Vertex(Corner(w, h), Vec2(0.0, texY))]
  }

  /** The quads of cells (w, 0) .. (w, h - 1), in the order the inner loop
    * writes them. */
  function Column(w: int, h: nat, columns: int, rows: int, pick: (int, int) -> nat): seq<Vertex>
  {
    if h == 0 then [] else Column(w, h - 1, columns, rows, pick) + CellQuad(w, h - 1, TileRow(w, h - 1, columns, rows, pick))
  }

  /** The quads of columns 0 .. w - 1 in full, in the order the outer loop
    * writes them. */
  function Grid(w: nat, columns: int, rows: nat, pick: (int, int) -> nat): seq<Vertex>
  {
    if w == 0 then [] else Grid(w - 1, columns, rows, pick) + Column(w - 1, rows, columns, rows, pick)
  }

  /** The six vertex writes of one cell. */
  method WriteQuad(va: array<Vertex>, start: nat, quad: seq<Vertex>)
    requires |quad| == VertsPerQuad && start + VertsPerQuad <= va.Length
    modifies va
    ensures va[..start + VertsPerQuad] == old(va[..start]) + quad
  {
    va[start + 0] := quad[0];
    va[start + 1] := quad[1];
    va[start + 2] := quad[2];
    va[start + 3] := quad[3];
    va[start + 4] := quad[4];
    va[start + 5] := quad[5];
  }

  /** A column of h cells holds h quads. */
  lemma {:induction false} ColumnLength(w: int, h: nat, columns: int, rows: int, pick: (int, int) -> nat)
    ensures |Column(w, h, columns, rows, pick)| == h * VertsPerQuad
  {
    if h > 0 { ColumnLength(w, h - 1, columns, rows, pick); }
  }

  /** w full columns of `rows` cells hold w * rows quads. */
  lemma {:induction false} GridLength(w: nat, columns: int, rows: nat, pick: (int, int) -> nat)
    ensures |Grid(w, columns, rows, pick)| == w * rows * VertsPerQuad
  {
    if w > 0 {
      GridLength(w - 1, columns, rows, pick);
      ColumnLength(w - 1, rows, columns, rows, pick);
    }
  }

  /** More columns, more vertices. */
  lemma {:induction false} GridGrows(w: nat, w': nat, columns: int, rows: nat, pick: (int, int) -> nat)
    requires w <= w'
    ensures |Grid(w, columns, rows, pick)| <= |Grid(w', columns, rows, pick)|
  {
    if w < w' { GridGrows(w, w' - 1, columns, rows, pick); }
  }

  /** The quad of cell (w, h) fits after the cells before it. */
  lemma CellFits(w: nat, h: nat, columns: nat, rows: nat, pick: (int, int) -> nat)
    requires w < columns && h < rows
    ensures |Grid(w, columns, rows, pick) + Column(w, h, columns, rows, pick)| + VertsPerQuad
            <= |Grid(columns, columns, rows, pick)|
  {
    ColumnLength(w, h, columns, rows, pick);
    ColumnLength(w, rows, columns, rows, pick);
    GridGrows(w + 1, columns, columns, rows, pick);
  }

  /** The first w columns are a prefix of the first w' columns. */
  lemma {:induction false} GridPrefix(w: nat, w': nat, columns: int, rows: nat, pick: (int, int) -> nat)
    requires w <= w'
    ensures Grid(w, columns, rows, pick) <= Grid(w', columns, rows, pick)
  {
    if w < w' { GridPrefix(w, w' - 1, columns, rows, pick); }
  }

  /** The first h cells of a column are a prefix of its first h' cells. */
  lemma {:induction false} ColumnPrefix(w: int, h: nat, h': nat, columns: int, rows: int, pick: (int, int) -> nat)
    requires h <= h'
    ensures Column(w, h, columns, rows, pick) <= Column(w, h', columns, rows, pick)
  {
    if h < h' { ColumnPrefix(w, h, h' - 1, columns, rows, pick); }
  }

  /** The six vertices of cell (w, h) sit at index (w * rows + h) * 6 of the
    * grid: the cells are laid out column by column, each column top to
    * bottom. */
  lemma GridCell(w: nat, h: nat, columns: nat, rows: nat, pick: (int, int) -> nat)
    requires w < columns && h < rows
    ensures var k := (w * rows + h) * VertsPerQuad;
      k + VertsPerQuad <= |Grid(columns, columns, rows, pick)|
      && Grid(columns, columns, rows, pick)[k..k + VertsPerQuad] == CellQuad(w, h, TileRow(w, h, columns, rows, pick))
  {
    var k := CellStart(w, h, columns, rows, pick);
    var p := Grid(w, columns, rows, pick) + Column(w, h + 1, columns, rows, pick);
    var whole := Grid(columns, columns, rows, pick);
    assert p <= whole by {
      ColumnPrefix(w, h + 1, rows, columns, rows, pick);
      GridPrefix(w + 1, columns, columns, rows, pick);
    }
    PrefixSlice(p, whole, k, k + VertsPerQuad);
  }

  /** The cells before (w, h) fill (w * rows + h) * 6 vertices, and the
    * quad of (w, h) follows them. */
  lemma CellStart(w: nat, h: nat, columns: nat, rows: nat, pick: (int, int) -> nat) returns (k: nat)
    ensures k == (w * rows + h) * VertsPerQuad
    ensures var p := Grid(w, columns, rows, pick) + Column(w, h + 1, columns, rows, pick);
      k + VertsPerQuad == |p| && p[k..] == CellQuad(w, h, TileRow(w, h, columns, rows, pick))
  {
    GridLength(w, columns, rows, pick);
    ColumnLength(w, h, columns, rows, pick);
    k := |Grid(w, columns, rows, pick)| + |Column(w, h, columns, rows, pick)|;
  }

  /** A slice of a prefix is the same slice of the longer list. */
  lemma PrefixSlice<T>(p: seq<T>, q: seq<T>, a: nat, b: nat)
    requires p <= q && a <= b <= |p|
    ensures b <= |q| && q[a..b] == p[a..b]
  {
  }

  /** The inner loop of createBackground: the cells of column w, top to
    * bottom, after the columns before it. */
  method FillColumn(va: array<Vertex>, w: nat, columns: nat, rows: nat, pick: (int, int) -> nat, start: nat)
    returns (next: nat)
    requires w < columns && va.Length == |Grid(columns, columns, rows, pick)|
    requires start <= va.Length && va[..start] == Grid(w, columns, rows, pick)
    modifies va
    ensures next <= va.Length && va[..next] == Grid(w + 1, columns, rows, pick)
  {
    next := start;
    var h := 0;
    while h < rows
      invariant 0 <= h <= rows && next <= va.Length
      invariant va[..next] == Grid(w, columns, rows, pick) + Column(w, h, columns, rows, pick)
    {
      CellFits(w, h, columns, rows, pick);
      var quad := CellQuad(w, h, TileRow(w, h, columns, rows, pick));
      WriteQuad(va, next, quad);
      assert Grid(w, columns, rows, pick) + Column(w, h + 1, columns, rows, pick)
          == (Grid(w, columns, rows, pick) + Column(w, h, columns, rows, pick)) + quad;
      next := next + VertsPerQuad;
      h := h + 1;
    }
  }

  /** createBackground: resize the vertex array to one quad per whole tile
    * of the arena and fill it column by column; the result is exactly the
    * grid of cell quads. The tile size is returned. */
  method CreateBackground(arena: IntRect, pick: (int, int) -> nat) returns (va: array<Vertex>, tileSize: int)
    requires 0 <= arena.width && 0 <= arena.height
    ensures fresh(va) && tileSize == TileSize
    ensures va.Length == (arena.width / TileSize) * (arena.height / TileSize) * VertsPerQuad
    ensures va[..] == Grid(arena.width / TileSize, arena.width / TileSize, arena.height / TileSize, pick)
  {
    var worldWidth := arena.width / TileSize;
    var worldHeight := arena.height / TileSize;
    GridLength(worldWidth, worldWidth, worldHeight, pick);
    va := new Vertex[worldWidth * worldHeight * VertsPerQuad](_ => BlankVertex);
    var currentVertex := 0;
    var w := 0;
    while w < worldWidth
      invariant 0 <= w <= worldWidth && 0 <= currentVertex <= va.Length
      invariant va[..currentVertex] == Grid(w, worldWidth, worldHeight, pick)
    {
      currentVertex := FillColumn(va, w, worldWidth, worldHeight, pick, currentVertex);
      w := w + 1;
    }
    assert va[..] == va[..currentVertex];
    tileSize := TileSize;
  }

  /** Each quad covers its cell: its corners sit at the cell's four grid
    * corners, the two triangles share the top-left to bottom-right
    * diagonal, and the texels span one tile-sized square of the chosen
    * sheet row. */
  lemma CellQuadLayout(w: int, h: int, row: int)
    ensures var q := CellQuad(w, h, row);
      |q| == VertsPerQuad
      && q[0] == q[5] && q[2] == q[3]
      && q[0].position == Corner(w, h) && q[1].position == Corner(w + 1, h)
      && q[2].position == Corner(w + 1, h + 1) && q[4].position == Corner(w, h + 1)
      && (forall k :: 0 <= k < VertsPerQuad ==>
            0.0 <= q[k].texCoords.x <= TileSize as real
            && (row * TileSize) as real <= q[k].texCoords.y <= (row * TileSize + TileSize) as real)
  {
  }

  /** The border cells of the grid always show the wall row. */
  lemma BorderIsWall(w: int, h: int, columns: int, rows: int, pick: (int, int) -> nat)
    requires h == 0 || h == rows - 1 || w == 0 || w == columns - 1
    ensures TileRow(w, h, columns, rows, pick) == TileTypes - 1
  {
  }

  // ------------------------------------------------------------------ Horde

  /** The 20-unit inset rectangle createHorde spawns on. */
  datatype Inset = Inset(minX: int, maxX: int, minY: int, maxY: int)

  function InsetOf(arena: IntRect): (r: Inset)
    ensures r.minX == arena.x + 20 && r.maxX == arena.x + arena.width - 20
    ensures r.minY == arena.y + 20 && r.maxY == arena.y + arena.height - 20
  {
    Inset(arena.x + 20, arena.x + arena.width - 20, arena.y + 20, arena.y + arena.height - 20)
  }

  /** The draws createHorde makes for one zombie: the side (distSide), the
    * coordinate along that side (distY on the left and right, distX on the
    * top and bottom), the type (distType) and the rand() result that
    * Zombie::Spawn turns into a speed modifier. */
  datatype HordeDraw = HordeDraw(side: int, along: int, kind: int, roll: nat)

  /** What the distributions can return. */
  predicate DrawInRange(inset: Inset, d: HordeDraw) {
    0 <= d.side <= 3 && 0 <= d.kind <= 2
    && (d.side <= 1 ==> inset.minY <= d.along <= inset.maxY)
    && (2 <= d.side ==> inset.minX <= d.along <= inset.maxX)
  }

  /** static_cast<Zombie::Type> of a distType draw. */
  function TypeOf(kind: int): ZombieType {
    if kind == 0 then Bloater else if kind == 1 then Chaser else Crawler
  }

  /** The switch on the side: left, right, top, and bottom for 3, the only
    * other value distSide returns. */
  function SpawnPoint(inset: Inset, d: HordeDraw): Vec2 {
    if d.side == 0 then Vec2(inset.minX as real, d.along as real)
    else if d.side == 1 then Vec2(inset.maxX as real, d.along as real)
    else if d.side == 2 then Vec2(d.along as real, inset.minY as real)
    else Vec2(d.along as real, inset.maxY as real)
  }

  /** On the boundary of the inset rectangle. */
  ghost predicate OnInsetEdge(p: Vec2, inset: Inset) {
    var minX, maxX, minY, maxY := inset.minX as real, inset.maxX as real, inset.minY as real, inset.maxY as real;
    ((p.x == minX || p.x == maxX) && minY <= p.y <= maxY)
    || ((p.y == minY || p.y == maxY) && minX <= p.x <= maxX)
  }

  /** Every spawn point lies on the edge of the inset rectangle, on the side
    * drawn, hence inside the arena 20 units from its walls. */
  lemma SpawnOnInsetEdge(arena: IntRect, d: HordeDraw)
    requires 40 <= arena.width && 40 <= arena.height
    requires DrawInRange(InsetOf(arena), d)
    ensures OnInsetEdge(SpawnPoint(InsetOf(arena), d), InsetOf(arena))
    ensures var p := SpawnPoint(InsetOf(arena), d);
      (arena.x + 20) as real <= p.x <= (arena.x + arena.width - 20) as real
      && (arena.y + 20) as real <= p.y <= (arena.y + arena.height - 20) as real
    ensures d.side == 0 ==> SpawnPoint(InsetOf(arena), d).x == (arena.x + 20) as real
    ensures d.side == 1 ==> SpawnPoint(InsetOf(arena), d).x == (arena.x + arena.width - 20) as real
    ensures d.side == 2 ==> SpawnPoint(InsetOf(arena), d).y == (arena.y + 20) as real
    ensures d.side == 3 ==> SpawnPoint(InsetOf(arena), d).y == (arena.y + arena.height - 20) as real
  {
  }

  /** A zombie as Zombie::Spawn leaves it for one set of draws. */
  ghost predicate Spawned(z: Zombie, inset: Inset, d: HordeDraw)
    reads z
  {
    z.Valid() && z.alive && z.position == SpawnPoint(inset, d)
    && z.health == StatsOf(TypeOf(d.kind)).health
    && z.speed == StatsOf(TypeOf(d.kind)).speed * SpeedModifier(d.roll)
  }

  /** createHorde: numZombies fresh, distinct zombies, the i-th spawned from
    * the i-th draws. The distributions need a non-empty inset, so the arena
    * is at least 40 units each way. */
  method CreateHorde(numZombies: int, arena: IntRect, draws: seq<HordeDraw>) returns (horde: seq<Zombie>)
    requires 40 <= arena.width && 40 <= arena.height
    requires 0 <= numZombies && |draws| == numZombies
    requires forall i :: 0 <= i < |draws| ==> DrawInRange(InsetOf(arena), draws[i])
    ensures |horde| == numZombies && NoDup(horde)
    ensures forall i :: 0 <= i < |horde| ==> fresh(horde[i]) && Spawned(horde[i], InsetOf(arena), draws[i])
  {
    var inset := InsetOf(arena);
    horde := [];
    var i := 0;
    while i < numZombies
      invariant 0 <= i <= numZombies && |horde| == i && NoDup(horde)
      invariant forall k :: 0 <= k < i ==> fresh(horde[k]) && Spawned(horde[k], inset, draws[k])
    {
      var d := draws[i];
      var p := SpawnPoint(inset, d);
      var z := new Zombie();
      z.Spawn(p.x, p.y, TypeOf(d.kind), d.roll);
      horde := horde + [z];
      i := i + 1;
    }
  }

  // ------------------------------------------------------------------- Game

  datatype State = Paused | LevelingUp | GameOver | Playing

  /** The ammunition and steering part of a game. */
  datatype Controls = Controls(clip: int, spare: int, slot: int, lastShotMs: int,
                               up: bool, down: bool, left: bool, right: bool)

  /** The arena and horde part of a game. */
  datatype Setting = Setting(arena: IntRect, background: array<Vertex>, numZombies: int, horde: seq<Zombie>,
                             numZombiesAlive: int, playerArena: IntRect, tileSize: int, playerPosition: Vec2)

  /** The keys the key-press handler tells apart; Num(d) is digit key d. */
  datatype Key = Escape | Enter | KeyW | KeyS | KeyA | KeyD | KeyR | Num(digit: int) | OtherKey

  const BulletCount: int := 100
  const KillScore: int := 10
  const WaveSize: int := 10
  const WaveArena: IntRect := IntRect(0, 0, 500, 500)
  const HudInterval: int := 1000

  /** The key that sets the flag of a direction. */
  function MoveKey(m: Movement): Key {
    match m
    case Up => KeyW
    case Down => KeyS
    case Left => KeyA
    case Right => KeyD
  }

  /** The Enter rules as written: three ifs in a row, each seeing the state
    * the one before left. */
  function AfterEnterAsWritten(s: State): State {
    var s1 := if s == Playing then Paused else s;
    var s2 := if s1 == Paused then Playing else s1;
    if s2 == GameOver then LevelingUp else s2
  }

  /** As written, Enter while playing pauses and at once resumes: the game
    * can never be paused, and the clock restarts as on a resume. */
  lemma {:induction false} EnterCannotPauseAsWritten()
    ensures AfterEnterAsWritten(Playing) == Playing
    ensures forall s :: AfterEnterAsWritten(s) != Paused
  {
    assert AfterEnterAsWritten(Paused) == Playing;
  }

  /** The Enter rules as intended: one transition per press. */
  function AfterEnter(s: State): State {
    match s
    case Playing => Paused
    case Paused => Playing
    case GameOver => LevelingUp
    case LevelingUp => LevelingUp
  }

  /** Enter toggles between playing and paused, starts a new game from the
    * game-over screen, and differs from the code as written only on
    * Playing. */
  lemma EnterToggles(s: State)
    ensures s == Playing ==> AfterEnter(s) == Paused && AfterEnter(AfterEnter(s)) == Playing
    ensures s == Paused ==> AfterEnter(s) == Playing && AfterEnter(AfterEnter(s)) == Paused
    ensures s == GameOver ==> AfterEnter(s) == LevelingUp
    ensures AfterEnter(s) != AfterEnterAsWritten(s) <==> s == Playing
  {
  }

  /** The upgrade keys of the level-up screen, Num1 to Num6. */
  predicate IsUpgradeKey(key: Key) {
    key.Num? && 1 <= key.digit <= 6
  }

  /** The state one key press leaves: the Enter rules, then the level-up
    * choice. */
  function AfterKey(s: State, key: Key): State {
    var s1 := if key == Enter then AfterEnter(s) else s;
    if s1 == LevelingUp && IsUpgradeKey(key) then Playing else s1
  }

  /** From the game-over screen a new wave takes two presses: Enter, which
    * is no upgrade key, then an upgrade key. No other key leaves the
    * level-up screen. */
  lemma NewWaveTakesTwoKeys(key: Key)
    ensures AfterKey(GameOver, Enter) == LevelingUp
    ensures AfterKey(LevelingUp, key) == Playing <==> IsUpgradeKey(key)
    ensures AfterKey(GameOver, key) != Playing
  {
  }

  /** The slot after i in the ring of 100 bullets. */
  function NextSlot(i: int): (j: int)
    requires 0 <= i < BulletCount
    ensures 0 <= j < BulletCount && j == (i + 1) % BulletCount
  {
    if i + 1 > BulletCount - 1 then 0 else i + 1
  }

  /** The zombies among the first n of a horde that are alive, by index. */
  ghost function AliveBelow(horde: seq<Zombie>, n: int): set<int>
    reads horde`alive
  {
    set j | 0 <= j < n && j < |horde| && horde[j].alive
  }

  /** The zombies of a horde that are alive, by index. */
  ghost function AliveIn(horde: seq<Zombie>): set<int>
    reads horde`alive
  {
    AliveBelow(horde, |horde|)
  }

  lemma {:induction false} AllAliveBelow(horde: seq<Zombie>, n: nat)
    requires n <= |horde|
    requires forall j :: 0 <= j < |horde| ==> horde[j].alive
    ensures |AliveBelow(horde, n)| == n
  {
    if n > 0 {
      AllAliveBelow(horde, n - 1);
      assert AliveBelow(horde, n) == AliveBelow(horde, n - 1) + {n - 1};
    }
  }

  /** A horde whose zombies are all alive counts all of them as alive. */
  lemma AllAlive(horde: seq<Zombie>)
    requires forall j :: 0 <= j < |horde| ==> horde[j].alive
    ensures |AliveIn(horde)| == |horde|
  {
    AllAliveBelow(horde, |horde|);
  }

  /** Bullet::Shoot's effect, as Game's fire rule sees it. */
  ghost predicate Shot(b: Bullet, start: Vec2, target: Vec2, sqrt: real -> real)
    reads b
  {
    b.Valid() && b.inFlight && b.position == start && b.distance == 0.0
    && b.maxDistance == BulletRange
    && b.velocity == Aim(Towards(start, target), sqrt(SquaredLength(Towards(start, target))))
  }

  /** The clip after R: full from the spare rounds when they suffice,
    * otherwise whatever is spare, otherwise as it was. */
  function ClipAfterReload(spare: int, clip: int, clipSize: int): int {
    if spare >= clipSize then clipSize else if spare > 0 then spare else clip
  }

  /** The spare rounds after R: a clip's worth fewer, or none. */
  function SpareAfterReload(spare: int, clipSize: int): int {
    if spare >= clipSize then spare - clipSize else 0
  }

  /** R never creates rounds: the clip is at most a clip's worth unless
    * it already held more, no spare count goes negative, and when spare
    * rounds were left they all end up in the clip or still spare. */
  lemma ReloadKeepsRounds(spare: int, clip: int, clipSize: int)
    requires 0 <= spare && 0 <= clip && 0 < clipSize
    ensures 0 <= SpareAfterReload(spare, clipSize) <= spare
    ensures ClipAfterReload(spare, clip, clipSize) <= Max(clip, clipSize)
    ensures spare > 0 ==> ClipAfterReload(spare, clip, clipSize) + SpareAfterReload(spare, clipSize) == spare
    ensures spare > 0 ==> 0 < ClipAfterReload(spare, clip, clipSize)
  {
  }

  /** The fire rule's test: more than 1000 / fireRate milliseconds since
    * the last shot, and a round in the clip. */
  predicate Ready(sinceLastShotMs: int, fireRate: real, clip: int)
    requires 0.0 < fireRate
  {
    sinceLastShotMs as real > 1000.0 / fireRate && clip > 0
  }

  function Max(a: int, b: int): int {
    if a < b then b else a
  }

  class Game {
    var windowOpen: bool
    var state: State
    /** The time of the last mClock restart. */
    var clockStartMs: int
    var gameTimeTotalMs: int
    var mouseWorld: Vec2
    const player: Player
    var arena: IntRect
    var background: array<Vertex>
    var numZombies: int
    var numZombiesAlive: int
    var horde: seq<Zombie>
    /** mBullets[100]: the slots never change, only the bullets in them. */
    const bullets: seq<Bullet>
    var currentBullet: int
    var bulletsSpare: int
    var bulletsInClip: int
    var clipSize: int
    var fireRate: real
    var triggerLastPressedMs: int
    var score: int
    var highScore: int
    var wave: int
    var framesSinceLastHUDUpdate: int
    var fpsMeasurementFrameInterval: int

    /** The bookkeeping the game keeps consistent: one bullet per slot and
      * the ring index in range, ammunition and fire rate sane, the high
      * score at least the score, the HUD counter within its interval, the
      * horde distinct and as large as its count, the live count equal to
      * the zombies alive, and the player's walls fitting its arena. */
    ghost predicate Valid()
      reads this`currentBullet, this`clipSize, this`bulletsSpare, this`bulletsInClip, this`fireRate
      reads this`score, this`highScore, this`framesSinceLastHUDUpdate, this`fpsMeasurementFrameInterval
      reads this`numZombies, this`horde, this`numZombiesAlive, horde`health, horde`alive, horde`speed
      reads player`tileSize, player`arena
    {
      AmmoValid() && ScoreValid() && HudValid() && HordeValid() && PlayerFits()
    }

    /** One bullet per slot, the ring index in range, ammunition and fire
      * rate sane. */
    ghost predicate AmmoValid()
      reads this`currentBullet, this`clipSize, this`bulletsSpare, this`bulletsInClip, this`fireRate
    {
      |bullets| == BulletCount && NoDup(bullets)
      && 0 <= currentBullet < BulletCount
      && 0 < clipSize && 0 <= bulletsSpare && 0 <= bulletsInClip && 0.0 < fireRate
    }

    ghost predicate ScoreValid()
      reads this`score, this`highScore
    {
      score <= highScore
    }

    ghost predicate HudValid()
      reads this`framesSinceLastHUDUpdate, this`fpsMeasurementFrameInterval
    {
      fpsMeasurementFrameInterval == HudInterval
      && 0 <= framesSinceLastHUDUpdate <= fpsMeasurementFrameInterval
    }

    /** The horde is distinct and as large as its count, its zombies are
      * valid, and the live count is the number alive. */
    ghost predicate HordeValid()
      reads this`numZombies, this`horde, this`numZombiesAlive, horde`health, horde`alive, horde`speed
    {
      numZombies == |horde| && NoDup(horde)
      && (forall j :: 0 <= j < |horde| ==> horde[j].Valid())
      && numZombiesAlive == |AliveIn(horde)|
    }

    /** The walls Player::Update clamps to fit the player's arena. */
    ghost predicate PlayerFits()
      reads player`tileSize, player`arena
    {
      2 * player.tileSize <= player.arena.width && 2 * player.tileSize <= player.arena.height
    }

    /** Game::Game: the game-over screen, 24 spare rounds and a full clip of
      * 6, one shot a second, no score, no horde, 100 idle bullets. */
    constructor ()
      ensures Valid() && windowOpen && state == GameOver
      ensures bulletsSpare == 24 && bulletsInClip == 6 && clipSize == 6 && fireRate == 1.0
      ensures currentBullet == 0 && score == 0 && highScore == 0 && wave == 0
      ensures numZombies == 0 && numZombiesAlive == 0 && horde == []
      ensures gameTimeTotalMs == 0 && triggerLastPressedMs == 0
      ensures framesSinceLastHUDUpdate == 0
      ensures forall i :: 0 <= i < |bullets| ==> fresh(bullets[i]) && !bullets[i].inFlight
    {
      var slots: seq<Bullet> := [];
      while |slots| < BulletCount
        invariant |slots| <= BulletCount && NoDup(slots)
        invariant forall i :: 0 <= i < |slots| ==> fresh(slots[i]) && !slots[i].inFlight
      {
        var b := new Bullet();
        slots := slots + [b];
      }
      bullets := slots;
      player := new Player();
      windowOpen := true;
      state := GameOver;
      clockStartMs := 0;
      gameTimeTotalMs := 0;
      mouseWorld := Origin;
      arena := IntRect(0, 0, 0, 0);
      background := new Vertex[0];
      numZombies := 0;
      numZombiesAlive := 0;
      horde := [];
      currentBullet := 0;
      bulletsSpare := 24;
      bulletsInClip := 6;
      clipSize := 6;
      fireRate := 1.0;
      triggerLastPressedMs := 0;
      score := 0;
      highScore := 0;
      wave := 0;
      framesSinceLastHUDUpdate := 0;
      fpsMeasurementFrameInterval := HudInterval;
      new;
      assert AliveIn(horde) == {};
    }

    /** Escape closes the window; Enter moves the state one step (see
      * AfterEnter) and, on resuming, restarts the clock. */
    method HandleStateKeys(key: Key, nowMs: int)
      requires Valid()
      modifies this`windowOpen, this`state, this`clockStartMs
      ensures Valid()
      ensures windowOpen == (old(windowOpen) && key != Escape)
      ensures state == if key == Enter then AfterEnter(old(state)) else old(state)
      ensures clockStartMs == if key == Enter && old(state) == Paused then nowMs else old(clockStartMs)
      ensures AmmoKept() && WaveKept()
    {
      if key == Escape {
        windowOpen := false;
      }
      if key == Enter {
        if state == Playing {
          state := Paused;
        } else if state == Paused {
          state := Playing;
          clockStartMs := nowMs;
        } else if state == GameOver {
          state := LevelingUp;
        }
      }
    }

    /** The movement keys of the Playing block: the pressed direction
      * moves, the other three stop. */
    method Steer(key: Key)
      requires Valid()
      modifies player`upPressed, player`downPressed, player`leftPressed, player`rightPressed
      ensures Valid()
      ensures forall m :: player.Pressed(m) <==> key == MoveKey(m)
    {
      PressMovementKeys(key);
    }

    /** The four if/else pairs of the movement keys, each a call on the
      * player. */
    method PressMovementKeys(key: Key)
      modifies player`upPressed, player`downPressed, player`leftPressed, player`rightPressed
      ensures forall m :: player.Pressed(m) <==> key == MoveKey(m)
    {
      if key == KeyW { player.Move(Up); } else { player.Stop(Up); }
      if key == KeyS { player.Move(Down); } else { player.Stop(Down); }
      if key == KeyA { player.Move(Left); } else { player.Stop(Left); }
      if key == KeyD { player.Move(Right); } else { player.Stop(Right); }
    }

    /** R while playing: a full clip when enough spare rounds are left,
      * otherwise whatever is left, otherwise nothing. The rounds still in
      * the clip are discarded. */
    method Reload()
      requires Valid()
      modifies this`bulletsInClip, this`bulletsSpare
      ensures Valid()
      ensures old(bulletsSpare) >= clipSize ==> bulletsInClip == clipSize && bulletsSpare == old(bulletsSpare) - clipSize
      ensures 0 < old(bulletsSpare) < clipSize ==> bulletsInClip == old(bulletsSpare) && bulletsSpare == 0
      ensures old(bulletsSpare) == 0 ==> bulletsInClip == old(bulletsInClip) && bulletsSpare == 0
      ensures old(bulletsSpare) > 0 ==> bulletsInClip + bulletsSpare == old(bulletsSpare)
      ensures bulletsInClip == ClipAfterReload(old(bulletsSpare), old(bulletsInClip), clipSize)
      ensures bulletsSpare == SpareAfterReload(old(bulletsSpare), clipSize)
    {
      if bulletsSpare >= clipSize {
        bulletsInClip := clipSize;
        bulletsSpare := bulletsSpare - clipSize;
      } else if bulletsSpare > 0 {
        bulletsInClip := bulletsSpare;
        bulletsSpare := 0;
      }
    }

    /** The trigger may fire: more than 1000 / fireRate milliseconds of play
      * since the last shot, and a round in the clip. */
    predicate TriggerReady()
      requires 0.0 < fireRate
      reads this`gameTimeTotalMs, this`triggerLastPressedMs, this`fireRate, this`bulletsInClip
    {
      Ready(gameTimeTotalMs - triggerLastPressedMs, fireRate, bulletsInClip)
    }

    /** A mouse button held while playing: when the trigger is ready, the
      * bullet in the current slot is shot from the player towards the
      * mouse, the slot moves round the ring, the shot's time is kept and
      * the clip loses a round; otherwise nothing changes. */
    method Fire(mouseDown: bool, sqrt: real -> real)
      requires Valid() && IsSqrt(sqrt)
      modifies this`currentBullet, this`triggerLastPressedMs, this`bulletsInClip, bullets[currentBullet]
      ensures Valid()
      ensures old(mouseDown && TriggerReady()) ==>
        currentBullet == NextSlot(old(currentBullet)) && bulletsInClip == old(bulletsInClip) - 1
        && triggerLastPressedMs == gameTimeTotalMs
        && Shot(bullets[old(currentBullet)], player.position, mouseWorld, sqrt)
      ensures !old(mouseDown && TriggerReady()) ==>
        currentBullet == old(currentBullet) && bulletsInClip == old(bulletsInClip)
        && triggerLastPressedMs == old(triggerLastPressedMs) && unchanged(bullets[currentBullet])
    {
      if mouseDown && TriggerReady() {
        bullets[currentBullet].Shoot(player.position, mouseWorld, sqrt);
        currentBullet := NextSlot(currentBullet);
        triggerLastPressedMs := gameTimeTotalMs;
        bulletsInClip := bulletsInClip - 1;
      }
    }

    /** A new wave once an upgrade is chosen: the 500 by 500 arena, its
      * background, the player in its centre, ten fresh zombies from the
      * draws, all alive, and the clock restarted. */
    method StartWave(nowMs: int, pick: (int, int) -> nat, draws: seq<HordeDraw>)
      requires |draws| == WaveSize
      requires forall i :: 0 <= i < |draws| ==> DrawInRange(InsetOf(WaveArena), draws[i])
      modifies this`arena, this`background, this`numZombies, this`horde, this`numZombiesAlive, this`clockStartMs
      modifies player`arena, player`tileSize, player`position
      ensures WaveStarted(nowMs, pick, draws)
      ensures fresh(background) && forall i :: 0 <= i < |horde| ==> fresh(horde[i])
    {
      BuildArena(pick);
      BuildHorde(draws);
      clockStartMs := nowMs;
    }

    /** StartWave's effect: the wave arena is built, ten zombies spawned
      * from the draws are all alive, and the clock restarted. */
    ghost predicate WaveStarted(nowMs: int, pick: (int, int) -> nat, draws: seq<HordeDraw>)
      reads this, background, player, horde
    {
      HordeValid() && PlayerFits() && ArenaBuilt(pick)
      && numZombies == WaveSize && numZombiesAlive == WaveSize && |horde| == |draws|
      && (forall i :: 0 <= i < |horde| ==> Spawned(horde[i], InsetOf(arena), draws[i]))
      && clockStartMs == nowMs
    }

    /** The wave arena is in place: the 500 by 500 arena, its background
      * grid from the picks, and the player in its centre with the tile
      * size createBackground returns. */
    ghost predicate ArenaBuilt(pick: (int, int) -> nat)
      reads this`arena, this`background, background, player`arena, player`tileSize, player`position
    {
      arena == WaveArena
      && background[..] == Grid(arena.width / TileSize, arena.width / TileSize, arena.height / TileSize, pick)
      && player.arena == arena && player.tileSize == TileSize && player.position == ArenaCentre(arena)
    }

    /** The arena half of a new wave: the 500 by 500 arena, its background,
      * and the player spawned in its centre. */
    method BuildArena(pick: (int, int) -> nat)
      modifies this`arena, this`background, player`arena, player`tileSize, player`position
      ensures PlayerFits()
      ensures fresh(background) && ArenaBuilt(pick)
    {
      arena := WaveArena;
      var tileSize;
      background, tileSize := CreateBackground(arena, pick);
      player.Spawn(arena, tileSize);
    }

    /** The horde half of a new wave: ten fresh zombies in the wave arena,
      * all of them alive. */
    method BuildHorde(draws: seq<HordeDraw>)
      requires |draws| == WaveSize
      requires forall i :: 0 <= i < |draws| ==> DrawInRange(InsetOf(WaveArena), draws[i])
      modifies this`numZombies, this`horde, this`numZombiesAlive
      ensures HordeValid()
      ensures numZombies == WaveSize && numZombiesAlive == WaveSize
      ensures forall i :: 0 <= i < |horde| ==> fresh(horde[i]) && Spawned(horde[i], InsetOf(WaveArena), draws[i])
    {
      numZombies := WaveSize;
      horde := CreateHorde(numZombies, WaveArena, draws);
      AllAlive(horde);
      numZombiesAlive := numZombies;
    }

    /** One key press: Escape and Enter; while playing, steering, R to
      * reload and the fire rule; on the level-up screen, an upgrade key
      * starts the next wave. The state follows AfterKey. */
    method OnKeyPress(key: Key, nowMs: int, mouseDown: bool, sqrt: real -> real,
                      pick: (int, int) -> nat, draws: seq<HordeDraw>)
      requires Valid() && IsSqrt(sqrt)
      requires |draws| == WaveSize
      requires forall i :: 0 <= i < |draws| ==> DrawInRange(InsetOf(WaveArena), draws[i])
      modifies this`windowOpen, this`state, this`clockStartMs
      modifies this`bulletsInClip, this`bulletsSpare, this`currentBullet, this`triggerLastPressedMs
      modifies this`arena, this`background, this`numZombies, this`horde, this`numZombiesAlive
      modifies player`upPressed, player`downPressed, player`leftPressed, player`rightPressed
      modifies player`arena, player`tileSize, player`position, bullets[currentBullet]
      ensures Valid()
      ensures state == AfterKey(old(state), key)
      ensures windowOpen == (old(windowOpen) && key != Escape)
      ensures var mid := if key == Enter then AfterEnter(old(state)) else old(state);
        var wave := mid == LevelingUp && IsUpgradeKey(key);
        (mid == Playing ==>
              PlayedKeys(key, mouseDown, sqrt, old(ControlsNow())))
        && (mid != Playing ==> AmmoKept())
        && (wave ==> WaveStarted(nowMs, pick, draws))
        && (!wave ==> WaveKept() && clockStartMs == if key == Enter && old(state) == Paused then nowMs else old(clockStartMs))
    {
      HandleStateKeys(key, nowMs);
      StateKeys(key, nowMs, mouseDown, sqrt, pick, draws, old(ControlsNow()), old(SettingNow()));
    }

    /** The ammunition, the ring slot, the time of the last shot and the
      * steering flags are as they were. */
    twostate predicate AmmoKept()
      reads this`bulletsInClip, this`bulletsSpare, this`currentBullet, this`triggerLastPressedMs
      reads player`upPressed, player`downPressed, player`leftPressed, player`rightPressed
    {
      ControlsNow() == old(ControlsNow())
    }

    /** The arena, its background, the horde and the player's place in the
      * arena are as they were. */
    twostate predicate WaveKept()
      reads this`arena, this`background, this`numZombies, this`horde, this`numZombiesAlive
      reads player`arena, player`tileSize, player`position
    {
      SettingNow() == old(SettingNow())
    }

    /** The fields the Playing block of the key handler may change. */
    function ControlsNow(): Controls
      reads this`bulletsInClip, this`bulletsSpare, this`currentBullet, this`triggerLastPressedMs
      reads player`upPressed, player`downPressed, player`leftPressed, player`rightPressed
    {
      Controls(bulletsInClip, bulletsSpare, currentBullet, triggerLastPressedMs,
               player.upPressed, player.downPressed, player.leftPressed, player.rightPressed)
    }

    /** The fields starting a wave may change. */
    function SettingNow(): Setting
      reads this`arena, this`background, this`numZombies, this`horde, this`numZombiesAlive
      reads player`arena, player`tileSize, player`position
    {
      Setting(arena, background, numZombies, horde, numZombiesAlive, player.arena, player.tileSize, player.position)
    }

    /** The blocks of the key-press handler that depend on the state the
      * Enter key left: the Playing block, then the LevelingUp block. */
    method StateKeys(key: Key, nowMs: int, mouseDown: bool, sqrt: real -> real,
                     pick: (int, int) -> nat, draws: seq<HordeDraw>, ghost controls: Controls, ghost setting: Setting)
      requires Valid() && IsSqrt(sqrt)
      requires controls == ControlsNow() && setting == SettingNow()
      requires |draws| == WaveSize
      requires forall i :: 0 <= i < |draws| ==> DrawInRange(InsetOf(WaveArena), draws[i])
      modifies this`state, this`clockStartMs
      modifies this`bulletsInClip, this`bulletsSpare, this`currentBullet, this`triggerLastPressedMs
      modifies this`arena, this`background, this`numZombies, this`horde, this`numZombiesAlive
      modifies player`upPressed, player`downPressed, player`leftPressed, player`rightPressed
      modifies player`arena, player`tileSize, player`position, bullets[currentBullet]
      ensures Valid()
      ensures state == if old(state) == LevelingUp && IsUpgradeKey(key) then Playing else old(state)
      ensures var wave := old(state) == LevelingUp && IsUpgradeKey(key);
        (old(state) == Playing ==> PlayedKeys(key, mouseDown, sqrt, controls))
        && (old(state) != Playing ==> ControlsNow() == controls)
        && (wave ==> WaveStarted(nowMs, pick, draws))
        && (!wave ==> SettingNow() == setting && clockStartMs == old(clockStartMs))
    {
      // The Playing block leaves the state as it is, so at most one runs.
      if state == Playing {
        PlayingKeys(key, mouseDown, sqrt);
      } else if state == LevelingUp {
        LevelUpKeys(key, nowMs, pick, draws);
      }
    }

    /** The Playing block of the key-press handler: steering, R to reload,
      * and the fire rule. */
    method PlayingKeys(key: Key, mouseDown: bool, sqrt: real -> real)
      requires Valid() && IsSqrt(sqrt)
      modifies this`bulletsInClip, this`bulletsSpare, this`currentBullet, this`triggerLastPressedMs
      modifies player`upPressed, player`downPressed, player`leftPressed, player`rightPressed, bullets[currentBullet]
      ensures Valid()
      ensures PlayedKeys(key, mouseDown, sqrt, old(ControlsNow()))
      ensures currentBullet == old(currentBullet) ==> unchanged(bullets[currentBullet])
      ensures WaveKept()
    {
      Steer(key);
      Trigger(key, mouseDown, sqrt, old(ControlsNow()));
    }

    /** R to reload, then the fire rule. */
    method Trigger(key: Key, mouseDown: bool, sqrt: real -> real, ghost before: Controls)
      requires Valid() && IsSqrt(sqrt)
      requires before.spare == bulletsSpare && before.clip == bulletsInClip
      requires before.slot == currentBullet && before.lastShotMs == triggerLastPressedMs
      modifies this`bulletsInClip, this`bulletsSpare, this`currentBullet, this`triggerLastPressedMs, bullets[currentBullet]
      ensures Valid()
      ensures Triggered(key, mouseDown, sqrt, before)
      ensures currentBullet == old(currentBullet) ==> unchanged(bullets[currentBullet])
    {
      if key == KeyR {
        Reload();
      }
      Fire(mouseDown, sqrt);
    }

    /** The Playing block's effect from the given ammunition, ring slot
      * and time of the last shot: the steering flags follow the key; R
      * reloads as Reload does; then the fire rule sees the clip as the
      * reload left it, and either shoots the slot's bullet at the mouse,
      * moves round the ring and spends a round, or changes nothing more. */
    ghost predicate PlayedKeys(key: Key, mouseDown: bool, sqrt: real -> real, before: Controls)
      reads this, player, bullets
    {
      (forall m :: player.Pressed(m) <==> key == MoveKey(m))
      && Triggered(key, mouseDown, sqrt, before)
    }

    /** The reload and fire part of PlayedKeys. */
    ghost predicate Triggered(key: Key, mouseDown: bool, sqrt: real -> real, before: Controls)
      reads this, player, bullets
    {
      var (spare, clip, slot, lastShotMs) := (before.spare, before.clip, before.slot, before.lastShotMs);
      bulletsSpare == (if key == KeyR then SpareAfterReload(spare, clipSize) else spare)
      && |bullets| == BulletCount && 0 <= slot < BulletCount && 0.0 < fireRate
      && var loaded := if key == KeyR then ClipAfterReload(spare, clip, clipSize) else clip;
      if mouseDown && Ready(gameTimeTotalMs - lastShotMs, fireRate, loaded) then
        currentBullet == NextSlot(slot) && bulletsInClip == loaded - 1
        && triggerLastPressedMs == gameTimeTotalMs
        && Shot(bullets[slot], player.position, mouseWorld, sqrt)
      else
        currentBullet == slot && bulletsInClip == loaded && triggerLastPressedMs == lastShotMs
    }

    /** The LevelingUp block of the key-press handler: an upgrade key
      * returns to play and starts the next wave; any other key changes
      * nothing. */
    method LevelUpKeys(key: Key, nowMs: int, pick: (int, int) -> nat, draws: seq<HordeDraw>)
      requires Valid() && state == LevelingUp
      requires |draws| == WaveSize
      requires forall i :: 0 <= i < |draws| ==> DrawInRange(InsetOf(WaveArena), draws[i])
      modifies this`state, this`arena, this`background, this`numZombies, this`horde, this`numZombiesAlive, this`clockStartMs
      modifies player`arena, player`tileSize, player`position
      ensures Valid()
      ensures state == if IsUpgradeKey(key) then Playing else LevelingUp
      ensures IsUpgradeKey(key) ==> WaveStarted(nowMs, pick, draws)
      ensures IsUpgradeKey(key) ==> fresh(background) && forall i :: 0 <= i < |horde| ==> fresh(horde[i])
      ensures !IsUpgradeKey(key) ==> unchanged(this) && unchanged(player) && WaveKept()
      ensures AmmoKept()
    {
      if IsUpgradeKey(key) {
        state := Playing;
      }
      if state == Playing {
        StartWave(nowMs, pick, draws);
      }
    }

    /** The live zombies each chase the player by speed * dt; the dead stay
      * where they fell. */
    method UpdateZombies(dt: real, target: Vec2)
      requires numZombies == |horde| && NoDup(horde)
      modifies horde`position
      ensures forall j :: 0 <= j < |horde| ==> Chased(horde[j], target, dt)
    {
      ghost var want := Destinations(horde, target, dt);
      var i := 0;
      while i < numZombies
        invariant 0 <= i <= numZombies
        invariant forall j :: 0 <= j < i ==> horde[j].position == want[j]
        invariant forall j :: i <= j < |horde| ==> horde[j].position == old(horde[j].position)
      {
        var z := horde[i];
        ChaseIfAlive(z, dt, target);
        assert forall j :: 0 <= j < |horde| && j != i ==> horde[j] != z;
        i := i + 1;
      }
    }

    /** Every bullet in flight moves on (see Bullet.Update); the others stay
      * as they are. */
    method UpdateBullets(dt: real, sqrt: real -> real)
      requires |bullets| == BulletCount && NoDup(bullets) && IsSqrt(sqrt)
      modifies bullets`position, bullets`distance, bullets`inFlight
      ensures forall i :: 0 <= i < BulletCount ==> Flew(bullets[i], dt, sqrt)
    {
      var i := 0;
      while i < BulletCount
        invariant 0 <= i <= BulletCount
        invariant forall k :: 0 <= k < i ==> Flew(bullets[k], dt, sqrt)
        invariant forall k :: i <= k < BulletCount ==> unchanged(bullets[k])
      {
        if bullets[i].inFlight {
          bullets[i].Update(dt, sqrt);
        }
        i := i + 1;
      }
    }

    /** Game::Update while playing: the clock restarts and the elapsed
      * milliseconds add to the play time; the mouse is read; the player
      * walks, the live zombies chase it, the bullets in flight move, the
      * collisions are scored and the HUD counter advances. In any other
      * state nothing changes. */
    method Update(nowMs: int, mouse: Vec2, sqrt: real -> real, overlap: (Vec2, Vec2) -> bool)
      returns (ghost kills: nat)
      requires Valid() && IsSqrt(sqrt)
      modifies this`clockStartMs, this`gameTimeTotalMs, this`mouseWorld, this`framesSinceLastHUDUpdate
      modifies this`score, this`highScore, this`numZombiesAlive, this`state
      modifies player`position, horde`position, horde`health, horde`alive
      modifies bullets`position, bullets`distance, bullets`inFlight
      ensures Valid()
      ensures old(state) != Playing ==> unchanged(this) && unchanged(player) && unchanged(horde) && unchanged(bullets)
      ensures old(state) == Playing ==>
        clockStartMs == nowMs && gameTimeTotalMs == old(gameTimeTotalMs) + (nowMs - old(clockStartMs))
        && mouseWorld == mouse
        && Moved(player, horde, bullets, FrameSeconds(old(clockStartMs), nowMs), sqrt)
        && Scored(kills)
        && framesSinceLastHUDUpdate == HudTick(old(framesSinceLastHUDUpdate))
    {
      kills := 0;
      if state == Playing {
        kills := PlayFrame(nowMs, mouse, sqrt, overlap);
      }
    }

    /** The body of Game::Update in the Playing state. */
    method PlayFrame(nowMs: int, mouse: Vec2, sqrt: real -> real, overlap: (Vec2, Vec2) -> bool)
      returns (ghost kills: nat)
      requires Valid() && IsSqrt(sqrt)
      modifies this`clockStartMs, this`gameTimeTotalMs, this`mouseWorld, this`framesSinceLastHUDUpdate
      modifies this`score, this`highScore, this`numZombiesAlive, this`state
      modifies player`position, horde`position, horde`health, horde`alive
      modifies bullets`position, bullets`distance, bullets`inFlight
      ensures Valid()
      ensures clockStartMs == nowMs && gameTimeTotalMs == old(gameTimeTotalMs) + (nowMs - old(clockStartMs))
      ensures mouseWorld == mouse
      ensures Moved(player, horde, bullets, FrameSeconds(old(clockStartMs), nowMs), sqrt)
      ensures Scored(kills)
      ensures framesSinceLastHUDUpdate == HudTick(old(framesSinceLastHUDUpdate))
    {
      // The clock and the mouse are fields Step neither reads nor writes,
      // so restarting the clock after the world has moved is the same frame.
      var dt := FrameSeconds(clockStartMs, nowMs);
      kills := Step(dt, sqrt, overlap);
      label stepped:
      Tick(nowMs, mouse);
      assert unchanged@stepped(player);
    }

    /** The world part of a frame: everything moves, then the collisions
      * are scored and the HUD counter advances. */
    method Step(dt: real, sqrt: real -> real, overlap: (Vec2, Vec2) -> bool) returns (ghost kills: nat)
      requires Valid() && IsSqrt(sqrt)
      modifies this`framesSinceLastHUDUpdate, this`score, this`highScore, this`numZombiesAlive, this`state
      modifies player`position, horde`position, horde`health, horde`alive
      modifies bullets`position, bullets`distance, bullets`inFlight
      ensures Valid()
      ensures Moved(player, horde, bullets, dt, sqrt)
      ensures Scored(kills)
      ensures framesSinceLastHUDUpdate == HudTick(old(framesSinceLastHUDUpdate))
    {
      Move(dt, sqrt);
      label moved:
      ghost var flights, zs;
      kills, flights, zs := Resolve(overlap);
      assert unchanged@moved(player);
    }

    /** The clock and mouse part of a frame: the clock restarts, the
      * elapsed milliseconds add to the play time, and the mouse position
      * is read. */
    method Tick(nowMs: int, mouse: Vec2)
      modifies this`clockStartMs, this`gameTimeTotalMs, this`mouseWorld
      ensures clockStartMs == nowMs && gameTimeTotalMs == old(gameTimeTotalMs) + (nowMs - old(clockStartMs))
      ensures mouseWorld == mouse
    {
      var dtMs := nowMs - clockStartMs;
      clockStartMs := nowMs;
      gameTimeTotalMs := gameTimeTotalMs + dtMs;
      mouseWorld := mouse;
    }

    /** The scoring part of a frame: the collision loop, then the HUD
      * counter. With flights and zs the bullets and the horde as they
      * were, the horde ends as the collision loop leaves it (Volley). */
    method Resolve(overlap: (Vec2, Vec2) -> bool) returns (ghost kills: nat, ghost flights: seq<Flight>, ghost zs: seq<Target>)
      requires Valid()
      modifies this`framesSinceLastHUDUpdate, this`score, this`highScore, this`numZombiesAlive, this`state
      modifies bullets`inFlight, horde`health, horde`alive
      ensures Valid()
      ensures Scored(kills)
      ensures |flights| == BulletCount && forall n :: 0 <= n < BulletCount ==> flights[n] == old(FlightOf(bullets[n]))
      ensures |zs| == |horde| && forall m :: 0 <= m < |horde| ==> zs[m] == old(TargetOf(horde[m]))
      ensures forall m :: 0 <= m < |horde| ==> TargetOf(horde[m]) == Volley(flights, BulletCount, zs, overlap)[m]
      ensures framesSinceLastHUDUpdate == HudTick(old(framesSinceLastHUDUpdate))
    {
      kills, flights, zs := Collide(overlap);
      UpdateHUD();
    }

    /** The score side of a frame with the given number of kills: 10 points
      * each, the high score raised to match, that many zombies fewer, and
      * the level-up screen once a kill leaves none alive. */
    twostate predicate Scored(kills: nat)
      reads this`score, this`highScore, this`numZombiesAlive, this`state
    {
      score == old(score) + KillScore * kills
      && numZombiesAlive == old(numZombiesAlive) - kills
      && highScore == Max(old(highScore), score)
      && state == if kills > 0 && numZombiesAlive == 0 then LevelingUp else old(state)
    }

    /** The moving part of a frame: the player walks, the live zombies
      * chase its new position, the bullets in flight move on. */
    method Move(dt: real, sqrt: real -> real)
      requires Valid() && IsSqrt(sqrt)
      modifies player`position, horde`position, bullets`position, bullets`distance, bullets`inFlight
      ensures Valid()
      ensures Moved(player, horde, bullets, dt, sqrt)
      ensures forall i :: 0 <= i < BulletCount ==> Flew(bullets[i], dt, sqrt)
    {
      player.Update(dt);
      UpdateZombies(dt, player.position);
      UpdateBullets(dt, sqrt);
    }

    /** The HUD counter: one frame more, back to zero once it passes the
      * interval, when the texts are refreshed. */
    method UpdateHUD()
      requires HudValid()
      modifies this`framesSinceLastHUDUpdate
      ensures HudValid()
      ensures framesSinceLastHUDUpdate == HudTick(old(framesSinceLastHUDUpdate))
    {
      framesSinceLastHUDUpdate := framesSinceLastHUDUpdate + 1;
      if framesSinceLastHUDUpdate > fpsMeasurementFrameInterval {
        framesSinceLastHUDUpdate := 0;
      }
    }

    /** The collision loop: every bullet against every zombie, in order.
      * With flights and zs the bullets and the horde as they were, the
      * horde ends as the bullets' passes leave it (Volley). */
    method Collide(overlap: (Vec2, Vec2) -> bool) returns (ghost kills: nat, ghost flights: seq<Flight>, ghost zs: seq<Target>)
      requires HordeValid() && ScoreValid() && |bullets| == BulletCount && NoDup(bullets)
      modifies this`score, this`highScore, this`numZombiesAlive, this`state
      modifies bullets`inFlight, horde`health, horde`alive
      ensures HordeValid() && ScoreValid()
      ensures |flights| == BulletCount && forall n :: 0 <= n < BulletCount ==> flights[n] == old(FlightOf(bullets[n]))
      ensures |zs| == |horde| && forall m :: 0 <= m < |horde| ==> zs[m] == old(TargetOf(horde[m]))
      ensures forall m :: 0 <= m < |horde| ==> TargetOf(horde[m]) == Volley(flights, BulletCount, zs, overlap)[m]
      ensures score == old(score) + KillScore * kills
      ensures numZombiesAlive == old(numZombiesAlive) - kills
      ensures highScore == Max(old(highScore), score)
      ensures state == if kills > 0 && numZombiesAlive == 0 then LevelingUp else old(state)
    {
      flights := FlightsOf(bullets);
      zs := TargetsOf(horde);
      kills := 0;
      var i := 0;
      while i < BulletCount
        invariant 0 <= i <= BulletCount
        invariant HordeValid() && ScoreValid()
        invariant score == old(score) + KillScore * kills
        invariant numZombiesAlive == old(numZombiesAlive) - kills
        invariant highScore == Max(old(highScore), score)
        invariant state == if kills > 0 && numZombiesAlive == 0 then LevelingUp else old(state)
        invariant forall m :: 0 <= m < |horde| ==> TargetOf(horde[m]) == Volley(flights, i, zs, overlap)[m]
        invariant forall n :: i <= n < BulletCount ==> bullets[n].inFlight == flights[n].inFlight
      {
        ghost var k := CollideSlot(i, overlap, flights, zs);
        kills := kills + k;
        i := i + 1;
      }
    }

    /** Bullet i's pass in the collision loop, over the horde the passes
      * before it left; no other bullet changes. */
    method CollideSlot(i: nat, overlap: (Vec2, Vec2) -> bool, ghost flights: seq<Flight>, ghost zs: seq<Target>)
      returns (ghost kills: nat)
      requires HordeValid() && ScoreValid() && |bullets| == BulletCount && NoDup(bullets)
      requires i < BulletCount == |flights| && |zs| == |horde|
      requires forall n :: i <= n < BulletCount ==> bullets[n].inFlight == flights[n].inFlight
      requires forall n :: 0 <= n < BulletCount ==> bullets[n].position == flights[n].position
      requires forall m :: 0 <= m < |horde| ==> TargetOf(horde[m]) == Volley(flights, i, zs, overlap)[m]
      modifies this`score, this`highScore, this`numZombiesAlive, this`state
      modifies bullets`inFlight, horde`health, horde`alive
      ensures HordeValid() && ScoreValid()
      ensures forall m :: 0 <= m < |horde| ==> TargetOf(horde[m]) == Volley(flights, i + 1, zs, overlap)[m]
      ensures bullets[i].inFlight == (flights[i].inFlight && Struck(flights[i], Volley(flights, i, zs, overlap), overlap) == |horde|)
      ensures forall n :: i < n < BulletCount ==> bullets[n].inFlight == flights[n].inFlight
      ensures score == old(score) + KillScore * kills
      ensures numZombiesAlive == old(numZombiesAlive) - kills
      ensures highScore == Max(old(highScore), score)
      ensures state == if kills > 0 && numZombiesAlive == 0 then LevelingUp else old(state)
    {
      assert FlightOf(bullets[i]) == flights[i];
      kills := CollideBullet(bullets[i], overlap, Volley(flights, i, zs, overlap));
    }

    /** One bullet against every zombie: while the bullet is in flight,
      * each live zombie it overlaps is struck, and a strike stops it. So it
      * strikes the first live zombie it overlaps, if any (Fly), kills at
      * most one, and stays in flight only when it struck none. */
    method CollideBullet(b: Bullet, overlap: (Vec2, Vec2) -> bool, ghost zs: seq<Target>) returns (ghost kills: nat)
      requires HordeValid() && ScoreValid()
      requires |zs| == |horde| && forall m :: 0 <= m < |horde| ==> TargetOf(horde[m]) == zs[m]
      modifies this`score, this`highScore, this`numZombiesAlive, this`state
      modifies b`inFlight, horde`health, horde`alive
      ensures HordeValid() && ScoreValid()
      ensures forall m :: 0 <= m < |horde| ==> TargetOf(horde[m]) == Fly(old(FlightOf(b)), zs, overlap)[m]
      ensures b.inFlight == (old(b.inFlight) && Struck(old(FlightOf(b)), zs, overlap) == |horde|)
      ensures kills <= 1 && (Struck(old(FlightOf(b)), zs, overlap) == |horde| ==> kills == 0)
      ensures score == old(score) + KillScore * kills
      ensures numZombiesAlive == old(numZombiesAlive) - kills
      ensures highScore == Max(old(highScore), score)
      ensures state == if kills > 0 && numZombiesAlive == 0 then LevelingUp else old(state)
    {
      ghost var flight := FlightOf(b);
      ghost var k := Struck(flight, zs, overlap);
      kills := 0;
      var j := 0;
      while j < numZombies
        invariant 0 <= j <= numZombies
        invariant HordeValid() && ScoreValid()
        invariant score == old(score) + KillScore * kills
        invariant numZombiesAlive == old(numZombiesAlive) - kills
        invariant highScore == Max(old(highScore), score)
        invariant state == if kills > 0 && numZombiesAlive == 0 then LevelingUp else old(state)
        invariant j <= k ==> b.inFlight == flight.inFlight && kills == 0
        invariant k < j ==> !b.inFlight && kills <= 1
        invariant forall m :: 0 <= m < |horde| ==>
          TargetOf(horde[m]) == if k < j then Fly(flight, zs, overlap)[m] else zs[m]
      {
        var z := horde[j];
        if b.inFlight && z.alive && overlap(b.position, z.position) {
          assert j in AliveIn(horde);
          assert j == k;
          assert forall m :: 0 <= m < |horde| && m != j ==> horde[m] != z;
          var killed := Strike(b, z, j);
          if killed {
            kills := kills + 1;
          }
        }
        j := j + 1;
      }
    }

    /** One bullet strikes one live zombie: the bullet stops and the zombie
      * takes a hit; a kill scores 10, raises the high score to match,
      * counts one zombie fewer and, for the last one, opens the level-up
      * screen. */
    method Strike(b: Bullet, z: Zombie, ghost j: int) returns (killed: bool)
      requires HordeValid() && ScoreValid() && 0 <= j < |horde| && z == horde[j] && z.alive
      modifies b`inFlight, z`health, z`alive
      modifies this`score, this`highScore, this`numZombiesAlive, this`state
      ensures HordeValid() && ScoreValid() && !b.inFlight
      ensures killed <==> !z.alive
      ensures TargetOf(z) == HitTarget(old(TargetOf(z)))
      ensures score == old(score) + (if killed then KillScore else 0)
      ensures numZombiesAlive == old(numZombiesAlive) - (if killed then 1 else 0)
      ensures highScore == Max(old(highScore), score)
      ensures state == if killed && numZombiesAlive == 0 then LevelingUp else old(state)
    {
      b.Stop();
      killed := HitInHorde(horde, z, j);
      if killed {
        CountKill();
      }
    }

    /** The score side of a kill: 10 points, the high score raised to
      * match, one zombie fewer, and the level-up screen after the last. */
    method CountKill()
      requires ScoreValid()
      modifies this`score, this`highScore, this`numZombiesAlive, this`state
      ensures ScoreValid()
      ensures score == old(score) + KillScore && highScore == Max(old(highScore), score)
      ensures numZombiesAlive == old(numZombiesAlive) - 1
      ensures state == if numZombiesAlive == 0 then LevelingUp else old(state)
    {
      score := score + KillScore;
      if score >= highScore {
        highScore := score;
      }
      numZombiesAlive := numZombiesAlive - 1;
      if numZombiesAlive == 0 {
        state := LevelingUp;
      }
    }
  }

  /** Zombie::Hit on the j-th zombie of a distinct horde: a kill removes
    * exactly that zombie from the live set. */
  method HitInHorde(horde: seq<Zombie>, z: Zombie, ghost j: int) returns (killed: bool)
    requires 0 <= j < |horde| && z == horde[j] && NoDup(horde) && z.alive
    requires forall k :: 0 <= k < |horde| ==> horde[k].Valid()
    modifies z`health, z`alive
    ensures forall k :: 0 <= k < |horde| ==> horde[k].Valid()
    ensures killed <==> !z.alive
    ensures TargetOf(z) == HitTarget(old(TargetOf(z)))
    ensures AliveIn(horde) == if killed then old(AliveIn(horde)) - {j} else old(AliveIn(horde))
    ensures |AliveIn(horde)| == |old(AliveIn(horde))| - (if killed then 1 else 0)
  {
    ghost var before := AliveIn(horde);
    killed := z.Hit();
    assert forall k :: 0 <= k < |horde| && k != j ==> horde[k] != z;
    if killed {
      assert AliveIn(horde) == before - {j};
    } else {
      assert AliveIn(horde) == before;
    }
  }

  // --------------------------------------------------- Collisions as values

  /** What the collision loop sees of a zombie: where it stands, its
    * health and whether it is alive. */
  datatype Target = Target(position: Vec2, health: real, alive: bool)

  /** What the collision loop sees of a bullet: whether it is in flight and
    * where it is. */
  datatype Flight = Flight(inFlight: bool, position: Vec2)

  ghost function TargetOf(z: Zombie): Target
    reads z`position, z`health, z`alive
  {
    Target(z.position, z.health, z.alive)
  }

  /** The targets of a whole horde, zombie by zombie. */
  ghost function TargetsOf(horde: seq<Zombie>): (r: seq<Target>)
    reads horde`position, horde`health, horde`alive
    ensures |r| == |horde|
    ensures forall j :: 0 <= j < |horde| ==> r[j] == TargetOf(horde[j])
  {
    if horde == [] then []
    else TargetsOf(horde[..|horde| - 1]) + [TargetOf(horde[|horde| - 1])]
  }

  ghost function FlightOf(b: Bullet): Flight
    reads b`inFlight, b`position
  {
    Flight(b.inFlight, b.position)
  }

  /** The flights of all the bullet slots, slot by slot. */
  ghost function FlightsOf(bullets: seq<Bullet>): (r: seq<Flight>)
    reads bullets`inFlight, bullets`position
    ensures |r| == |bullets|
    ensures forall i :: 0 <= i < |bullets| ==> r[i] == FlightOf(bullets[i])
  {
    if bullets == [] then []
    else FlightsOf(bullets[..|bullets| - 1]) + [FlightOf(bullets[|bullets| - 1])]
  }

  /** Zombie::Hit on a target: one health less, and dead once below zero. */
  function HitTarget(t: Target): Target {
    var health := t.health - 1.0;
    Target(t.position, health, t.alive && !(health < 0.0))
  }

  /** The first live target, in horde order, that a bullet at pos
    * intersects, or |zs| when there is none. */
  function FirstTarget(pos: Vec2, zs: seq<Target>, overlap: (Vec2, Vec2) -> bool): (k: nat)
    ensures k <= |zs|
    ensures forall j :: 0 <= j < k ==> !(zs[j].alive && overlap(pos, zs[j].position))
    ensures k < |zs| ==> zs[k].alive && overlap(pos, zs[k].position)
  {
    if zs == [] || (zs[0].alive && overlap(pos, zs[0].position)) then 0
    else 1 + FirstTarget(pos, zs[1..], overlap)
  }

  /** The target a shot strikes: only a bullet in flight strikes, and then
    * the first live target it intersects; |zs| when it strikes none. */
  function Struck(s: Flight, zs: seq<Target>, overlap: (Vec2, Vec2) -> bool): nat {
    if s.inFlight then FirstTarget(s.position, zs, overlap) else |zs|
  }

  /** One bullet's pass over the horde: the target it strikes takes a hit
    * and the bullet stops, so no other target is touched. */
  function Fly(s: Flight, zs: seq<Target>, overlap: (Vec2, Vec2) -> bool): (r: seq<Target>)
    ensures |r| == |zs|
  {
    var k := Struck(s, zs, overlap);
    if k < |zs| then zs[k := HitTarget(zs[k])] else zs
  }

  /** The passes of the first n bullets in slot order, each over the
    * horde the passes before it left. */
  function Volley(flights: seq<Flight>, n: nat, zs: seq<Target>, overlap: (Vec2, Vec2) -> bool): (r: seq<Target>)
    requires n <= |flights|
    ensures |r| == |zs|
  {
    if n == 0 then zs
    else Fly(flights[n - 1], Volley(flights, n - 1, zs, overlap), overlap)
  }

  /** The indices of the live targets. */
  function LiveTargets(zs: seq<Target>): set<int> {
    set j | 0 <= j < |zs| && zs[j].alive
  }

  /** A bullet strikes at most one target: a live one it intersects, with
    * no live target it intersects before it. That one loses one health and
    * dies below zero; every other target, and every position, stays as it
    * was, so a pass kills at most one zombie. */
  lemma {:induction false} FlyStrikesOne(s: Flight, zs: seq<Target>, overlap: (Vec2, Vec2) -> bool)
    ensures var k := Struck(s, zs, overlap);
      var r := Fly(s, zs, overlap);
      (k < |zs| ==>
        s.inFlight && zs[k].alive && overlap(s.position, zs[k].position)
        && r[k].health == zs[k].health - 1.0 && (r[k].alive <==> 0.0 <= r[k].health))
      && (forall j :: 0 <= j < k ==> !(s.inFlight && zs[j].alive && overlap(s.position, zs[j].position)))
      && (forall j :: 0 <= j < |zs| && j != k ==> r[j] == zs[j])
      && (forall j :: 0 <= j < |zs| ==> r[j].position == zs[j].position)
      && LiveTargets(r) == if k < |zs| && !r[k].alive then LiveTargets(zs) - {k} else LiveTargets(zs)
  {
    var k := Struck(s, zs, overlap);
    var r := Fly(s, zs, overlap);
    if k < |zs| && !r[k].alive {
      assert LiveTargets(r) == LiveTargets(zs) - {k};
    } else {
      assert LiveTargets(r) == LiveTargets(zs);
    }
  }

  /** Over a whole volley no target moves, a dead target is never struck,
    * and health never rises: at most one health per bullet is lost. */
  lemma {:induction false} VolleyKeeps(flights: seq<Flight>, n: nat, zs: seq<Target>, overlap: (Vec2, Vec2) -> bool)
    requires n <= |flights|
    ensures var r := Volley(flights, n, zs, overlap);
      forall j :: 0 <= j < |zs| ==>
        r[j].position == zs[j].position
        && (!zs[j].alive ==> r[j] == zs[j])
        && zs[j].health - n as real <= r[j].health <= zs[j].health
  {
    if n > 0 {
      VolleyKeeps(flights, n - 1, zs, overlap);
      FlyStrikesOne(flights[n - 1], Volley(flights, n - 1, zs, overlap), overlap);
    }
  }

  /** Where Zombie.Update takes a live zombie; a dead one stays put. */
  ghost function Destination(z: Zombie, target: Vec2, dt: real): Vec2
    reads z`alive, z`speed, z`position
  {
    if z.alive then Pursue(z.position, target, z.speed * dt) else z.position
  }

  /** The destinations of a whole horde, zombie by zombie. */
  ghost function Destinations(horde: seq<Zombie>, target: Vec2, dt: real): (r: seq<Vec2>)
    reads horde`alive, horde`speed, horde`position
    ensures |r| == |horde|
    ensures forall j :: 0 <= j < |horde| ==> r[j] == Destination(horde[j], target, dt)
  {
    if horde == [] then []
    else Destinations(horde[..|horde| - 1], target, dt) + [Destination(horde[|horde| - 1], target, dt)]
  }

  /** The body of Game::Update's zombie loop for one zombie. */
  method ChaseIfAlive(z: Zombie, dt: real, target: Vec2)
    modifies z`position
    ensures Chased(z, target, dt)
  {
    if z.alive {
      z.Update(dt, target);
    }
  }

  /** A zombie has reached its destination. */
  twostate predicate Chased(z: Zombie, target: Vec2, dt: real)
    reads z`position
  {
    z.position == old(Destination(z, target, dt))
  }

  /** The moving part of a frame: the player walked and stays inside the
    * walls, each zombie reached its destination, each bullet travelled. */
  twostate predicate Moved(player: Player, horde: seq<Zombie>, bullets: seq<Bullet>, dt: real, sqrt: real -> real)
    reads player`position, player`upPressed, player`downPressed, player`leftPressed, player`rightPressed
    reads player`speed, player`arena, player`tileSize
    reads horde`position, bullets`velocity, bullets`maxDistance, bullets`position, bullets`distance
  {
    Walked(player, dt) && InsideWalls(player.position, player.arena, player.tileSize)
    && (forall j :: 0 <= j < |horde| ==> Chased(horde[j], player.position, dt))
    && (forall i :: 0 <= i < |bullets| ==> Travelled(bullets[i], dt, sqrt))
  }

  /** The seconds a frame lasts: the milliseconds since the clock last
    * restarted, as asSeconds gives them. */
  function FrameSeconds(startMs: int, nowMs: int): real {
    (nowMs - startMs) as real / 1000.0
  }

  /** One frame of the HUD counter. */
  function HudTick(frames: int): int {
    if frames + 1 > HudInterval then 0 else frames + 1
  }

  /** The counter after k frames from f. */
  function HudAfter(f: int, k: nat): int {
    if k == 0 then f else HudTick(HudAfter(f, k - 1))
  }

  /** From zero the counter reaches k after k frames, up to the interval,
    * and is back at zero on frame 1001: the HUD texts are refreshed every
    * 1001 frames. */
  lemma {:induction false} HudCycle(k: nat)
    requires k <= HudInterval + 1
    ensures HudAfter(0, k) == if k == HudInterval + 1 then 0 else k
  {
    if k > 0 {
      HudCycle(k - 1);
    }
  }

  /** Where Bullet.Update takes one bullet: one in flight moves by
    * velocity * dt and adds the length of that step to its distance; one
    * out of flight stays put. Velocity and range never change. */
  twostate predicate Travelled(b: Bullet, dt: real, sqrt: real -> real)
    reads b`velocity, b`maxDistance, b`position, b`distance
  {
    b.velocity == old(b.velocity) && b.maxDistance == old(b.maxDistance)
    && if old(b.inFlight) then
      b.position == Add(old(b.position), Scale(b.velocity, dt))
      && b.distance == old(b.distance) + sqrt(SquaredLength(Scale(b.velocity, dt)))
    else
      b.position == old(b.position) && b.distance == old(b.distance)
  }

  /** Bullet.Update's effect on one bullet: it travelled, and it is in
    * flight only if it was and its distance is still short of its range. */
  twostate predicate Flew(b: Bullet, dt: real, sqrt: real -> real)
    reads b
  {
    Travelled(b, dt, sqrt)
    && (b.inFlight <==> old(b.inFlight) && b.distance < b.maxDistance)
  }

  /** Player.Update's effect: the walls fit the arena, and each axis
    * walked as Walk says, from the flags, speed and walls the player has. */
  twostate predicate Walked(p: Player, dt: real)
    reads p`position, p`upPressed, p`downPressed, p`leftPressed, p`rightPressed, p`speed, p`arena, p`tileSize
  {
    2 * p.tileSize <= p.arena.width && 2 * p.tileSize <= p.arena.height
    && p.position.x == Walk(old(p.position).x, p.leftPressed, p.rightPressed, p.speed, dt, p.arena.x, p.arena.width, p.tileSize)
    && p.position.y == Walk(old(p.position).y, p.upPressed, p.downPressed, p.speed, dt, p.arena.y, p.arena.height, p.tileSize)
  }
}
