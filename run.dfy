/** The component system and level logic of the "run" game from Beginning
  * C++ Game Programming (third edition): a GameObject dispatches to the
  * components that carry the update or graphics flag; PlayerGraphics
  * reserves four vertices in the shared vertex array; LevelUpdate recycles
  * a ring of platforms ahead of the player and detects the game over. */
module RunGame {
  import opened Wrappers
  import opened Sequences

  /** A Component of the run game; the Update and Graphics subclasses set
    * the two flags. */
  class RunComponent {
    const isUpdate: bool
    const isGraphics: bool

    constructor (isUpdate: bool, isGraphics: bool)
      ensures this.isUpdate == isUpdate && this.isGraphics == isGraphics
    {
      this.isUpdate := isUpdate;
      this.isGraphics := isGraphics;
    }
  }

  /** A call of a component's virtual Updatefn or Draw. */
  datatype RunHook = UpdateCall(comp: RunComponent, elapsed: real) | DrawCall(comp: RunComponent)

  /** The flag a pass tests: the graphics flag for Draw, the update flag
    * for Updatefn. */
  predicate HasFlag(c: RunComponent, graphics: bool) {
    if graphics then c.isGraphics else c.isUpdate
  }

  /** The components a pass dispatches to, in list order: those whose
    * update flag (`graphics` false) or graphics flag (`graphics` true) is
    * set. */
  function Flagged(cs: seq<RunComponent>, graphics: bool): seq<RunComponent> {
    if cs == [] then []
    else
      var last := cs[|cs| - 1];
      Flagged(cs[..|cs| - 1], graphics) + if HasFlag(last, graphics) then [last] else []
  }

  /** The calls of an Updatefn pass: one per component, in list order. */
  function UpdateHooks(cs: seq<RunComponent>, elapsed: real): (r: seq<RunHook>)
    ensures |r| == |cs|
  {
    if cs == [] then [] else UpdateHooks(cs[..|cs| - 1], elapsed) + [UpdateCall(cs[|cs| - 1], elapsed)]
  }

  /** The calls of a Draw pass: one per component, in list order. */
  function DrawHooks(cs: seq<RunComponent>): (r: seq<RunHook>)
    ensures |r| == |cs|
  {
    if cs == [] then [] else DrawHooks(cs[..|cs| - 1]) + [DrawCall(cs[|cs| - 1])]
  }

  lemma FlaggedSnoc(cs: seq<RunComponent>, c: RunComponent, graphics: bool)
    ensures Flagged(cs + [c], graphics) == Flagged(cs, graphics) + if HasFlag(c, graphics) then [c] else []
  {
    assert (cs + [c])[..|cs|] == cs;
  }

  /** The i-th call of an Updatefn pass is the i-th component's. */
  lemma {:induction false} UpdateHooksAt(cs: seq<RunComponent>, elapsed: real, i: nat)
    requires i < |cs|
    ensures UpdateHooks(cs, elapsed)[i] == UpdateCall(cs[i], elapsed)
  {
    if i < |cs| - 1 {
      UpdateHooksAt(cs[..|cs| - 1], elapsed, i);
    }
  }

  /** The i-th call of a Draw pass is the i-th component's. */
  lemma {:induction false} DrawHooksAt(cs: seq<RunComponent>, i: nat)
    requires i < |cs|
    ensures DrawHooks(cs)[i] == DrawCall(cs[i])
  {
    if i < |cs| - 1 {
      DrawHooksAt(cs[..|cs| - 1], i);
    }
  }

  lemma UpdateHooksSnoc(cs: seq<RunComponent>, c: RunComponent, elapsed: real)
    ensures UpdateHooks(cs + [c], elapsed) == UpdateHooks(cs, elapsed) + [UpdateCall(c, elapsed)]
  {
    assert (cs + [c])[..|cs|] == cs;
  }

  lemma DrawHooksSnoc(cs: seq<RunComponent>, c: RunComponent)
    ensures DrawHooks(cs + [c]) == DrawHooks(cs) + [DrawCall(c)]
  {
    assert (cs + [c])[..|cs|] == cs;
  }

  /** A pass reaches exactly the components carrying its flag, each as
    * often as it is listed, and never one without the flag. */
  lemma {:induction false} FlaggedExactly(cs: seq<RunComponent>, graphics: bool)
    ensures forall c :: multiset(Flagged(cs, graphics))[c] == if HasFlag(c, graphics) then multiset(cs)[c] else 0
  {
    if cs != [] {
      var p, last := cs[..|cs| - 1], cs[|cs| - 1];
      FlaggedExactly(p, graphics);
      assert cs == p + [last];
      assert multiset(cs) == multiset(p) + multiset{last};
    }
  }

  /** Hence a component is reached exactly when it is listed and carries
    * the flag. */
  lemma FlaggedMembers(cs: seq<RunComponent>, graphics: bool)
    ensures forall c :: c in Flagged(cs, graphics) <==> c in cs && HasFlag(c, graphics)
  {
    FlaggedExactly(cs, graphics);
    forall c ensures c in Flagged(cs, graphics) <==> c in cs && HasFlag(c, graphics) {
      assert c in Flagged(cs, graphics) <==> multiset(Flagged(cs, graphics))[c] > 0;
      assert c in cs <==> multiset(cs)[c] > 0;
    }
  }

  /** With no flagged component a pass makes no call at all. */
  lemma {:induction false} FlaggedNone(cs: seq<RunComponent>, graphics: bool)
    requires forall i :: 0 <= i < |cs| ==> !HasFlag(cs[i], graphics)
    ensures Flagged(cs, graphics) == []
  {
    if cs != [] {
      FlaggedNone(cs[..|cs| - 1], graphics);
    }
  }

  class GameObject {
    var components: seq<RunComponent>
    /** The component hooks this object has dispatched so far. */
    ghost var calls: seq<RunHook>

    constructor ()
      ensures components == [] && calls == []
    {
      components := [];
      calls := [];
    }

    /** GameObject::AddComponent: push_back. */
    method AddComponent(c: RunComponent)
      modifies this`components
      ensures components == old(components) + [c]
    {
      components := components + [c];
    }

    /** GameObject::Updatefn: Updatefn on each component whose update flag
      * is set, in list order. The list itself is not changed. */
    method Updatefn(elapsed: real)
      modifies this`calls
      ensures calls == old(calls) + UpdateHooks(Flagged(components, false), elapsed)
    {
      var i := 0;
      while i < |components|
        invariant 0 <= i <= |components|
        invariant calls == old(calls) + UpdateHooks(Flagged(components[..i], false), elapsed)
      {
        ghost var done := Flagged(components[..i], false);
        assert components[..i + 1] == components[..i] + [components[i]];
        FlaggedSnoc(components[..i], components[i], false);
        if components[i].isUpdate {
          UpdateHooksSnoc(done, components[i], elapsed);
          calls := calls + [UpdateCall(components[i], elapsed)];
          assert calls == old(calls) + UpdateHooks(done + [components[i]], elapsed);
        } else {
          assert done + [] == done;
        }
        i := i + 1;
      }
      assert components[..i] == components;
    }

    /** GameObject::Draw: Draw on each component whose graphics flag is
      * set, in list order. The list itself is not changed. */
    method Draw()
      modifies this`calls
      ensures calls == old(calls) + DrawHooks(Flagged(components, true))
    {
      var i := 0;
      while i < |components|
        invariant 0 <= i <= |components|
        invariant calls == old(calls) + DrawHooks(Flagged(components[..i], true))
      {
        ghost var done := Flagged(components[..i], true);
        assert components[..i + 1] == components[..i] + [components[i]];
        FlaggedSnoc(components[..i], components[i], true);
        if components[i].isGraphics {
          DrawHooksSnoc(done, components[i]);
          calls := calls + [DrawCall(components[i])];
          assert calls == old(calls) + DrawHooks(done + [components[i]]);
        } else {
          assert done + [] == done;
        }
        i := i + 1;
      }
      assert components[..i] == components;
    }
  }

  /** An sf::Vertex: a position and texture coordinates. */
  datatype Vertex = Vertex(position: Vec2, texCoords: Vec2)

  /** What sf::VertexArray::resize appends. */
  const BlankVertex := Vertex(Origin, Origin)

  /** An sf::VertexArray, the canvas all graphics components draw into. */
  class Canvas {
    var vertices: seq<Vertex>

    constructor ()
      ensures vertices == []
    {
      vertices := [];
    }

    /** sf::VertexArray::resize to a larger size. */
    method Grow(count: nat)
      modifies this`vertices
      ensures |vertices| == |old(vertices)| + count
      ensures vertices[..|old(vertices)|] == old(vertices)
      ensures forall k :: |old(vertices)| <= k < |vertices| ==> vertices[k] == BlankVertex
    {
      vertices := vertices + seq(count, _ => BlankVertex);
    }

    /** Writing the texture coordinates of one vertex. */
    method SetTexCoords(k: nat, uv: Vec2)
      requires k < |vertices|
      modifies this`vertices
      ensures vertices == old(vertices)[k := Vertex(old(vertices)[k].position, uv)]
    {
      vertices := vertices[k := Vertex(vertices[k].position, uv)];
    }
  }

  /** An sf::IntRect. */
  datatype IntRect = IntRect(left: int, top: int, width: int, height: int)

  /** The texture coordinates PlayerGraphics::Assemble writes for a
    * rectangle at (px, py): doubled positions, not position plus size. */
  function QuadCorners(px: int, py: int): seq<Vec2> {
    [Vec2(px as real, py as real), Vec2((px + px) as real, py as real),
     Vec2((px + px) as real, (py + py) as real), Vec2(px as real, (py + py) as real)]
  }

  /** An sf::FloatRect reached through a pointer: the level and the player
    * share these objects. */
  class FloatRect {
    var left: real
    var top: real
    var width: real
    var height: real

    constructor (left: real, top: real, width: real, height: real)
      ensures this.left == left && this.top == top && this.width == width && this.height == height
    {
      this.left := left;
      this.top := top;
      this.width := width;
      this.height := height;
    }

    /** Writing all four members through the pointer. */
    method Set(left: real, top: real, width: real, height: real)
      modifies this
      ensures this.left == left && this.top == top && this.width == width && this.height == height
    {
      this.left := left;
      this.top := top;
      this.width := width;
      this.height := height;
    }
  }

  class PlayerGraphics {
    var vertexStartIndex: int
    var position: FloatRect?

    constructor ()
      ensures vertexStartIndex == -999 && position == null
    {
      vertexStartIndex := -999;
      position := null;
    }

    /** PlayerGraphics::Assemble: remember the player's position rectangle
      * and the canvas size, grow the canvas by four vertices and give
      * those four their texture coordinates. */
    method Assemble(canvas: Canvas, playerPosition: FloatRect, texCoords: IntRect)
      modifies this, canvas
      ensures vertexStartIndex == |old(canvas.vertices)| && position == playerPosition
      ensures |canvas.vertices| == |old(canvas.vertices)| + 4
      ensures canvas.vertices[..vertexStartIndex] == old(canvas.vertices)
      ensures forall k :: 0 <= k < 4 ==>
        canvas.vertices[vertexStartIndex + k] == Vertex(Origin, QuadCorners(texCoords.left, texCoords.top)[k])
    {
      position := playerPosition;
      vertexStartIndex := |canvas.vertices|;
      canvas.Grow(4);
      var px, py := texCoords.left, texCoords.top;
      canvas.SetTexCoords(vertexStartIndex, Vec2(px as real, py as real));
      canvas.SetTexCoords(vertexStartIndex + 1, Vec2((px + px) as real, py as real));
      canvas.SetTexCoords(vertexStartIndex + 2, Vec2((px + px) as real, (py + py) as real));
      canvas.SetTexCoords(vertexStartIndex + 3, Vec2(px as real, (py + py) as real));
    }
  }

  /** The random numbers one platform recycle draws, each from the range
    * GetRandomNumber is asked for. Only one of the two gaps is used. */
  datatype PlatformDraw = PlatformDraw(dy: int, gapDown: int, gapUp: int, width: int, height: int)

  predicate DrawInRange(d: PlatformDraw) {
    -40 <= d.dy <= 40 && 20 <= d.gapDown <= 40 && 0 <= d.gapUp <= 20
    && 20 <= d.width <= 200 && 10 <= d.height <= 20
  }

  const PlatformsStartX := 100.0
  const PlatformWidth := 100.0
  const PlatformHeight := 20.0

  /** Where PositionLevelAtStart puts every platform. */
  ghost predicate AtStart(p: FloatRect, left: real)
    reads p
  {
    p.left == left && p.top == 0.0 && p.width == PlatformWidth && p.height == PlatformHeight
  }

  /** The gap a recycled platform leaves after the one before it: a bigger
    * one (from [20, 40]) when it is placed lower, that is at a greater y,
    * and a smaller one (from [0, 20]) otherwise. */
  function Gap(d: PlatformDraw): (g: int)
    ensures DrawInRange(d) ==> 0 <= g <= 40
    ensures DrawInRange(d) && d.dy > 0 ==> 20 <= g
    ensures DrawInRange(d) && d.dy <= 0 ==> g <= 20
  {
    if d.dy > 0 then d.gapDown else d.gapUp
  }

  /** Where the creation block of LevelUpdate::Updatefn puts the next
    * platform: a random height above or below the one it is placed
    * relative to, just past that one's right edge (a bigger gap when it
    * went lower), with a random size. When the two are the same platform
    * (a ring of one) the height test compares the platform with itself and
    * always takes the small gap. Stated on the state before the move. */
  twostate predicate PlacedAfter(next: FloatRect, rel: FloatRect, d: PlatformDraw)
    reads next, rel
  {
    next.width == d.width as real && next.height == d.height as real
    && next.top == old(rel.top) + d.dy as real
    && next.left == old(rel.left) + old(rel.width) + (if next == rel then d.gapUp else Gap(d)) as real
  }

  /** Where a recycled platform ends up when the one it is placed relative
    * to sits where PositionLevelAtStart put every platform. */
  predicate PlacedAfterStart(next: FloatRect, alone: bool, start: real, d: PlatformDraw)
    reads next
  {
    next.width == d.width as real && next.height == d.height as real
    && next.top == d.dy as real
    && next.left == start + PlatformWidth + (if alone then d.gapUp else Gap(d)) as real
  }

  /** A rectangle no write has touched. */
  twostate predicate Kept(p: FloatRect)
    reads p
  {
    p.left == old(p.left) && p.top == old(p.top) && p.width == old(p.width) && p.height == old(p.height)
  }

  /** The platform moves of the creation block of LevelUpdate::Updatefn. */
  method PlaceAfter(next: FloatRect, rel: FloatRect, d: PlatformDraw)
    modifies next
    ensures PlacedAfter(next, rel, d)
    ensures next != rel ==> Kept(rel)
  {
    next.top := rel.top + d.dy as real;
    if rel.top < next.top {
      next.left := rel.left + rel.width + d.gapDown as real;
    } else {
      next.left := rel.left + rel.width + d.gapUp as real;
    }
    next.width := d.width as real;
    next.height := d.height as real;
  }

  class LevelUpdate {
    var isPaused: bool
    var platforms: seq<FloatRect>
    var cameraTime: real
    var player: FloatRect?
    var creationInterval: real
    var timeSinceLastPlatform: real
    var nextPlatform: int
    var numberOfPlatforms: int
    var moveRelativeTo: int
    var gameOver: bool

    /** The platform count matches the list; the two ring indices are in
      * range; the platforms are distinct objects, none of them the
      * player's rectangle. */
    ghost predicate Valid()
      reads this`numberOfPlatforms, this`platforms, this`player, this`nextPlatform, this`moveRelativeTo
    {
      numberOfPlatforms == |platforms| && NoDup(platforms)
      && (player != null ==> player !in platforms)
      && 0 <= nextPlatform && 0 <= moveRelativeTo
      && (numberOfPlatforms > 0 ==> nextPlatform < numberOfPlatforms && moveRelativeTo < numberOfPlatforms)
      && (numberOfPlatforms == 0 ==> nextPlatform == 0 && moveRelativeTo == 0)
    }

    /** Once the level is running, the platform placed relative to is the
      * one just before the platform to move next, around the ring. */
    ghost predicate Ring()
      reads this`numberOfPlatforms, this`gameOver, this`nextPlatform, this`moveRelativeTo
    {
      numberOfPlatforms > 0 && !gameOver ==>
        moveRelativeTo == if nextPlatform == 0 then numberOfPlatforms - 1 else nextPlatform - 1
    }

    /** No platform is left of the player: the player has fallen behind. */
    ghost predicate LaggingBehind()
      requires player != null
      reads this`platforms, this`player, platforms, player
    {
      forall j :: 0 <= j < |platforms| ==> platforms[j].left >= player.left
    }

    /** The member initialisers of LevelUpdate: not paused, no platforms,
      * game over (so the first update starts the level). */
    constructor ()
      ensures Valid() && Ring()
      ensures !isPaused && gameOver && platforms == [] && player == null
      ensures creationInterval == 0.0 && timeSinceLastPlatform == 0.0
      ensures nextPlatform == 0 && moveRelativeTo == 0
    {
      isPaused := false;
      platforms := [];
      player := null;
      creationInterval := 0.0;
      timeSinceLastPlatform := 0.0;
      nextPlatform := 0;
      numberOfPlatforms := 0;
      moveRelativeTo := 0;
      gameOver := true;
    }

    /** LevelUpdate::Assemble: take the player's position rectangle. */
    method Assemble(playerPosition: FloatRect)
      requires Valid() && playerPosition !in platforms
      modifies this`player
      ensures Valid() && player == playerPosition
    {
      player := playerPosition;
    }

    /** LevelUpdate::AddPlatformPosition: push_back and count. */
    method AddPlatformPosition(p: FloatRect)
      requires Valid() && p !in platforms && p != player
      modifies this`platforms, this`numberOfPlatforms
      ensures Valid()
      ensures platforms == old(platforms) + [p] && numberOfPlatforms == old(numberOfPlatforms) + 1
    {
      AppendNoDup(platforms, p);
      platforms := platforms + [p];
      numberOfPlatforms := numberOfPlatforms + 1;
    }

    /** LevelUpdate::PositionLevelAtStart: every platform 100 to the right
      * of where the first one was, at height 0, 100 wide and 20 high (so
      * all of them coincide); the player on the middle one; placing
      * restarts from the first platform, relative to the last. */
    method PositionLevelAtStart()
      requires Valid() && numberOfPlatforms > 0 && player != null
      modifies platforms, player, this`moveRelativeTo, this`nextPlatform
      ensures Valid() && moveRelativeTo == numberOfPlatforms - 1 && nextPlatform == 0
      ensures forall j :: 0 <= j < |platforms| ==> AtStart(platforms[j], PlatformsStartX + old(platforms[0].left))
      ensures player.left == PlatformsStartX + old(platforms[0].left) + 2.0 && player.top == -22.0
      ensures player.width == old(player.width) && player.height == old(player.height)
    {
      var startOffset := platforms[0].left;
      var i := 0;
      while i < numberOfPlatforms
        invariant 0 <= i <= numberOfPlatforms
        invariant forall j :: 0 <= j < i ==> AtStart(platforms[j], PlatformsStartX + startOffset)
        invariant unchanged(player)
      {
        assert forall j :: 0 <= j < i ==> platforms[j] != platforms[i];
        platforms[i].Set(1.0 * PlatformsStartX + startOffset, 0.0, PlatformWidth, PlatformHeight);
        i := i + 1;
      }
      var middle := platforms[numberOfPlatforms / 2];
      assert AtStart(middle, PlatformsStartX + startOffset);
      player.left := middle.left + 2.0;
      player.top := middle.top - 22.0;
      moveRelativeTo := numberOfPlatforms - 1;
      nextPlatform := 0;
    }

    /** The creation block of LevelUpdate::Updatefn: move the next platform
      * of the ring past the one before it, base the next interval on its
      * width, and advance the ring, wrapping to the first platform after
      * the last. */
    method RecyclePlatform(d: PlatformDraw)
      requires Valid() && numberOfPlatforms > 0
      modifies platforms[nextPlatform], this`creationInterval, this`moveRelativeTo, this`nextPlatform, this`timeSinceLastPlatform
      ensures Valid() && (old(Ring()) ==> Ring())
      ensures moveRelativeTo == old(nextPlatform)
      ensures nextPlatform == if old(nextPlatform) + 1 == numberOfPlatforms then 0 else old(nextPlatform) + 1
      ensures timeSinceLastPlatform == 0.0 && creationInterval == d.width as real / 90.0
      ensures PlacedAfter(platforms[old(nextPlatform)], platforms[old(moveRelativeTo)], d)
    {
      PlaceAfter(platforms[nextPlatform], platforms[moveRelativeTo], d);
      creationInterval := platforms[nextPlatform].width / 90.0;
      moveRelativeTo := nextPlatform;
      nextPlatform := nextPlatform + 1;
      if nextPlatform == numberOfPlatforms {
        nextPlatform := 0;
      }
      timeSinceLastPlatform := 0.0;
    }

    /** The lag test of LevelUpdate::Updatefn: a scan for a platform left of
      * the player that stops at the first one. */
    method IsLaggingBehind() returns (lagging: bool)
      requires player != null
      ensures lagging == LaggingBehind()
    {
      lagging := true;
      var i := 0;
      while i < |platforms|
        invariant 0 <= i <= |platforms|
        invariant forall j :: 0 <= j < i ==> platforms[j].left >= player.left
      {
        if platforms[i].left < player.left {
          lagging := false;
          break;
        }
        i := i + 1;
      }
    }

    /** The restart at the top of LevelUpdate::Updatefn when the game is
      * over: camera time and timer back to 0 and the level repositioned. */
    method Restart()
      requires Valid() && numberOfPlatforms > 0 && player != null
      modifies platforms, player, this`moveRelativeTo, this`nextPlatform
      modifies this`gameOver, this`cameraTime, this`timeSinceLastPlatform
      ensures Valid() && Ring() && !gameOver && cameraTime == 0.0 && timeSinceLastPlatform == 0.0
      ensures moveRelativeTo == numberOfPlatforms - 1 && nextPlatform == 0
      ensures forall j :: 0 <= j < |platforms| ==> AtStart(platforms[j], PlatformsStartX + old(platforms[0].left))
      ensures player.left == PlatformsStartX + old(platforms[0].left) + 2.0 && player.top == -22.0
      ensures player.width == old(player.width) && player.height == old(player.height)
    {
      gameOver := false;
      cameraTime := 0.0;
      timeSinceLastPlatform := 0.0;
      PositionLevelAtStart();
    }

    /** LevelUpdate::Updatefn. While paused nothing happens. Otherwise a
      * game that is over restarts; time advances; once the time since the
      * last platform exceeds the interval a platform is recycled; and a
      * player with no platform left of it pauses the game and ends it. */
    method Updatefn(elapsed: real, d: PlatformDraw) returns (ghost recycled: bool)
      requires Valid() && (!isPaused ==> numberOfPlatforms > 0 && player != null)
      modifies this`isPaused, this`cameraTime, this`creationInterval, this`timeSinceLastPlatform
      modifies this`nextPlatform, this`moveRelativeTo, this`gameOver, platforms, player
      ensures Valid()
      ensures old(isPaused) ==> unchanged(this) && unchanged(platforms) && (player != null ==> unchanged(player)) && !recycled
      ensures !old(isPaused) && (old(gameOver) || old(Ring())) ==> Ring()
      ensures !old(isPaused) ==>
        var time := if old(gameOver) then 0.0 else old(timeSinceLastPlatform);
        cameraTime == (if old(gameOver) then 0.0 else old(cameraTime)) + elapsed
        && recycled == (time + elapsed > old(creationInterval))
        && timeSinceLastPlatform == (if recycled then 0.0 else time + elapsed)
        && creationInterval == (if recycled then d.width as real / 90.0 else old(creationInterval))
      ensures !old(isPaused) ==> isPaused == gameOver && (isPaused <==> LaggingBehind())
      ensures !old(isPaused) && !old(gameOver) ==>
        Kept(player) && forall j :: 0 <= j < |platforms| && !(recycled && j == old(nextPlatform)) ==> Kept(platforms[j])
      ensures !old(isPaused) && !old(gameOver) && recycled ==>
        PlacedAfter(platforms[old(nextPlatform)], platforms[old(moveRelativeTo)], d)
      ensures !old(isPaused) && old(gameOver) ==>
        var start := PlatformsStartX + old(platforms[0].left);
        player.left == start + 2.0 && player.top == -22.0
        && (forall j :: 0 <= j < |platforms| && !(recycled && j == 0) ==> AtStart(platforms[j], start))
        && (recycled ==> PlacedAfterStart(platforms[0], |platforms| == 1, start, d))
    {
      recycled := false;
      if !isPaused {
        if gameOver {
          Restart();
        }
        recycled := Advance(elapsed, d);
      }
    }

    /** The part of LevelUpdate::Updatefn after the restart: time advances,
      * a platform is recycled once the time since the last one exceeds the
      * interval, and a player with no platform left of it pauses the game
      * and ends it. Only the recycled platform moves. */
    method Advance(elapsed: real, d: PlatformDraw) returns (ghost recycled: bool)
      requires Valid() && numberOfPlatforms > 0 && player != null
      modifies this`isPaused, this`cameraTime, this`creationInterval, this`timeSinceLastPlatform
      modifies this`nextPlatform, this`moveRelativeTo, this`gameOver, platforms
      ensures Valid() && (old(Ring()) ==> Ring())
      ensures cameraTime == old(cameraTime) + elapsed
      ensures recycled == (old(timeSinceLastPlatform) + elapsed > old(creationInterval))
      ensures timeSinceLastPlatform == (if recycled then 0.0 else old(timeSinceLastPlatform) + elapsed)
      ensures creationInterval == (if recycled then d.width as real / 90.0 else old(creationInterval))
      ensures isPaused == (old(isPaused) || LaggingBehind()) && gameOver == (old(gameOver) || LaggingBehind())
      ensures recycled ==> moveRelativeTo == old(nextPlatform)
      ensures forall j :: 0 <= j < |platforms| && !(recycled && j == old(nextPlatform)) ==> Kept(platforms[j])
      ensures recycled ==> PlacedAfter(platforms[old(nextPlatform)], platforms[old(moveRelativeTo)], d)
    {
      recycled := Elapse(elapsed, d);
      var lagging := IsLaggingBehind();
      if lagging {
        isPaused := true;
        gameOver := true;
      }
    }

    /** The timing part of LevelUpdate::Updatefn: camera time and the timer
      * advance, and once the timer exceeds the interval the next platform
      * is recycled. */
    method Elapse(elapsed: real, d: PlatformDraw) returns (ghost recycled: bool)
      requires Valid() && numberOfPlatforms > 0
      modifies this`cameraTime, this`creationInterval, this`timeSinceLastPlatform
      modifies this`nextPlatform, this`moveRelativeTo, platforms
      ensures Valid() && (old(Ring()) ==> Ring())
      ensures cameraTime == old(cameraTime) + elapsed
      ensures recycled == (old(timeSinceLastPlatform) + elapsed > old(creationInterval))
      ensures timeSinceLastPlatform == (if recycled then 0.0 else old(timeSinceLastPlatform) + elapsed)
      ensures creationInterval == (if recycled then d.width as real / 90.0 else old(creationInterval))
      ensures recycled ==> moveRelativeTo == old(nextPlatform)
      ensures forall j :: 0 <= j < |platforms| && !(recycled && j == old(nextPlatform)) ==> Kept(platforms[j])
      ensures recycled ==> PlacedAfter(platforms[old(nextPlatform)], platforms[old(moveRelativeTo)], d)
    {
      cameraTime := cameraTime + elapsed;
      timeSinceLastPlatform := timeSinceLastPlatform + elapsed;
      recycled := false;
      if timeSinceLastPlatform > creationInterval {
        assert forall j :: 0 <= j < |platforms| && j != nextPlatform ==> platforms[j] != platforms[nextPlatform];
        RecyclePlatform(d);
        recycled := true;
      }
    }
  }
}
