/** The actor/component engine of the making_3d_games_book projects: a Game
  * (here `World`) owns a live list and a pending list of actors and an
  * "updating" flag; every Actor owns a list of components kept sorted by
  * update order; components register with their owner when constructed and
  * deregister when destroyed, and actors do the same with the game. The
  * asteroids demo (Ship, Laser, Asteroid) exercises this lifecycle.
  *
  * C++ `delete` is modelled by the destructor chain as a method (`Destroy`)
  * that leaves a ghost `destroyed` mark on the object; virtual hooks whose
  * bodies are elsewhere (component Update / ProcessInput, MoveComponent maths)
  * are recorded in a ghost trace of calls. */
module Engine {
  import opened Wrappers
  import opened Sequences
  import opened Timing

  datatype ActorState = EActive | EPaused | EDead

  /** The concrete Actor subclass an object was built as. */
  datatype ActorKind = PlainActor | ShipActor | LaserActor | AsteroidActor

  /** The concrete Component subclass, with the settings applied to it right
    * after construction (SetForwardSpeed, SetRadius, ...). */
  datatype ComponentKind =
    | PlainComponent
    | SpriteComponent(drawOrder: int)
    | MoveComponent(forwardSpeed: real)
    | InputComponent(maxForwardSpeed: real, maxAngularSpeed: real)
    | CircleComponent(radius: real)

  /** The keys that the modelled input code reads from the keyboard state. */
  datatype Key = KeySpace | KeyEscape | KeyW | KeyS | KeyA | KeyD

  /** An SDL_Texture handle. */
  type Texture = nat

  /** What IMG_Load and SDL_CreateTextureFromSurface give for a file. */
  datatype LoadOutcome = SurfaceFailed | TextureFailed | Loaded(texture: Texture)

  /** A call of a virtual hook, in the order the engine makes them. */
  datatype Hook =
    | ComponentUpdate(comp: Component, dt: real)
    | ActorUpdate(dt: real)
    | ComponentInput(comp: Component, keys: set<Key>)
    | ActorInput(keys: set<Key>)

  const DefaultUpdateOrder := 100
  const MoveUpdateOrder := 10
  const DefaultDrawOrder := 100
  const ShipDrawOrder := 150
  const TwoPi: real := 6.283185307
  const PiOver2: real := 1.570796327
  const ShipForwardSpeed: real := 300.0
  const LaserSpeed: real := 800.0
  const LaserRadius: real := 11.0
  const LaserLifetime: real := 1.0
  const LaserCooldownReset: real := 0.5
  const AsteroidSpeed: real := 150.0
  const AsteroidRadius: real := 40.0
  const NumAsteroids := 20

  function UpdateOrderOf(c: Component): int {
    c.updateOrder
  }

  function DrawOrderOf(c: Component): int {
    if c.kind.SpriteComponent? then c.kind.drawOrder else DefaultDrawOrder
  }

  /** The component Update calls of one UpdateComponents pass, in list order. */
  ghost function UpdateCalls(cs: seq<Component>, dt: real): (r: seq<Hook>)
    ensures |r| == |cs|
    ensures forall i :: 0 <= i < |cs| ==> r[i] == ComponentUpdate(cs[i], dt)
  {
    if cs == [] then [] else UpdateCalls(cs[..|cs| - 1], dt) + [ComponentUpdate(cs[|cs| - 1], dt)]
  }

  /** The component ProcessInput calls of one input pass, in list order. */
  ghost function InputCalls(cs: seq<Component>, keys: set<Key>): (r: seq<Hook>)
    ensures |r| == |cs|
    ensures forall i :: 0 <= i < |cs| ==> r[i] == ComponentInput(cs[i], keys)
  {
    if cs == [] then [] else InputCalls(cs[..|cs| - 1], keys) + [ComponentInput(cs[|cs| - 1], keys)]
  }

  /** The first asteroid, in list order, that the laser's circle intersects,
    * or |asteroids| when there is none. */
  function FirstHit(laser: Actor, asteroids: seq<Actor>, intersect: (Actor, Actor) -> bool): (k: nat)
    ensures k <= |asteroids|
    ensures forall j :: 0 <= j < k ==> !intersect(laser, asteroids[j])
    ensures k < |asteroids| ==> intersect(laser, asteroids[k])
  {
    if asteroids == [] || intersect(laser, asteroids[0]) then 0
    else 1 + FirstHit(laser, asteroids[1..], intersect)
  }

  /** The dead actors of a list, in list order (the deadActors vector of
    * Game::UpdateGame). */
  ghost function DeadOf(s: seq<Actor>): (r: seq<Actor>)
    reads s
    ensures forall j :: 0 <= j < |r| ==> r[j] in s && r[j].state == EDead
    ensures forall j :: 0 <= j < |s| && s[j].state == EDead ==> s[j] in r
  {
    if s == [] then []
    else DeadOf(s[..|s| - 1]) + (if s[|s| - 1].state == EDead then [s[|s| - 1]] else [])
  }

  /** Collecting from a list without duplicates gives a list without
    * duplicates. */
  lemma {:induction false} DeadOfNoDup(s: seq<Actor>)
    requires NoDup(s)
    ensures NoDup(DeadOf(s))
  {
    if s != [] {
      var p := s[..|s| - 1];
      assert NoDup(p);
      DeadOfNoDup(p);
      if s[|s| - 1].state == EDead {
        assert s[|s| - 1] !in p;
        AppendNoDup(DeadOf(p), s[|s| - 1]);
      }
    }
  }

  const ShipTexture := "../assets/Ship.png"
  const LaserTexture := "../assets/Laser.png"
  const AsteroidTexture := "../assets/Asteroid.png"

  /** Game::GetTexture on the texture map: a cached name gives its texture;
    * otherwise the file is loaded, and only a load whose surface and texture
    * were both created is cached and returned; a failure gives null. The
    * result is (returned texture, new map). */
  function CachedLoad(cache: map<string, Texture>, name: string, outcome: LoadOutcome): (Option<Texture>, map<string, Texture>) {
    if name in cache then (Some(cache[name]), cache)
    else if outcome.Loaded? then (Some(outcome.texture), cache[name := outcome.texture])
    else (None, cache)
  }

  /** What one GetTexture call does to the texture map and to the record of
    * file loads: the file is loaded exactly when its name is not cached. */
  predicate TextureStep(cache: map<string, Texture>, loads: seq<string>, cache': map<string, Texture>, loads': seq<string>,
                        name: string, disk: string -> LoadOutcome)
  {
    cache' == CachedLoad(cache, name, disk(name)).1
    && loads' == if name in cache then loads else loads + [name]
  }

  /** The map only grows, by the requested name at most, never changes an
    * entry, and a name is cached afterwards exactly when a texture is
    * returned, the returned one. */
  lemma CachedLoadGrows(cache: map<string, Texture>, name: string, outcome: LoadOutcome)
    ensures var (tex, after) := CachedLoad(cache, name, outcome);
      cache.Keys <= after.Keys && after.Keys <= cache.Keys + {name}
      && (forall n :: n in cache ==> after[n] == cache[n])
      && (tex.Some? <==> name in after)
      && (tex.Some? ==> after[name] == tex.value)
  {
  }

  /** Once a lookup has returned a texture, every later lookup of the same
    * name returns it again and leaves the map alone, whatever the file now
    * holds. */
  lemma CachedLoadHit(cache: map<string, Texture>, name: string, first: LoadOutcome, later: LoadOutcome)
    requires CachedLoad(cache, name, first).0.Some?
    ensures var (tex, after) := CachedLoad(cache, name, first);
      CachedLoad(after, name, later) == (tex, after)
  {
  }

  class Component {
    const owner: Actor
    const updateOrder: int
    const kind: ComponentKind
    var texture: Option<Texture>

    /** Component::Component: record owner and order, then
      * `mOwner->AddComponent(this)`. */
    constructor (owner: Actor, updateOrder: int, kind: ComponentKind)
      requires owner.Valid()
      modifies owner`components
      ensures owner.Valid()
      ensures this.owner == owner && this.updateOrder == updateOrder && this.kind == kind
      ensures texture == None
      ensures owner.state == old(owner.state) && owner.laserCooldown == old(owner.laserCooldown)
      ensures owner.game.actors == old(owner.game.actors) && owner.game.pending == old(owner.game.pending)
      ensures owner.components == InsertSorted(old(owner.components), this, UpdateOrderOf)
    {
      this.owner := owner;
      this.updateOrder := updateOrder;
      this.kind := kind;
      texture := None;
      new;
      owner.AddComponent(this);
    }

    /** Component::~Component: `mOwner->RemoveComponent(this)`. */
    method Destroy()
      requires owner.Valid()
      modifies owner`components
      ensures owner.Valid()
      ensures owner.components == RemoveFirst(old(owner.components), this)
      ensures this !in owner.components
    {
      owner.RemoveComponent(this);
    }
  }

  class Actor {
    const game: World
    const kind: ActorKind
    var state: ActorState
    var position: Vec2
    var scale: real
    var rotation: real
    var components: seq<Component>
    var recomputeWorldTransform: bool
    /** Ship::mLaserCooldown */
    var laserCooldown: real
    /** Laser::mDeathTimer */
    var deathTimer: real
    /** How many times the world transform has been recomputed. */
    ghost var transformUpdates: nat
    /** The virtual hooks run for this actor so far. */
    ghost var hooks: seq<Hook>
    /** Set by the destructor. */
    ghost var destroyed: bool

    /** Components are sorted by update order, each present once and owned by
      * this actor; the transform flag is raised exactly until the first
      * recomputation. */
    ghost predicate Valid()
      reads this`components, this`recomputeWorldTransform, this`transformUpdates
    {
      NoDup(components)
      && SortedBy(components, UpdateOrderOf)
      && (forall c :: c in components ==> c.owner == this)
      && transformUpdates + (if recomputeWorldTransform then 1 else 0) == 1
    }

    /** Consistent and not yet deleted. */
    ghost predicate Live()
      reads this`components, this`recomputeWorldTransform, this`transformUpdates, this`destroyed
    {
      Valid() && !destroyed
    }

    /** The fields that the frame hooks leave alone. */
    twostate predicate StructureKept()
      reads this
    {
      components == old(components) && destroyed == old(destroyed)
      && recomputeWorldTransform == old(recomputeWorldTransform)
      && transformUpdates == old(transformUpdates)
      && position == old(position) && scale == old(scale) && rotation == old(rotation)
    }

    /** Every field but `state` is unchanged (what SetState on another actor
      * leaves behind). */
    twostate predicate OnlyStateChanged()
      reads this
    {
      StructureKept() && hooks == old(hooks)
      && laserCooldown == old(laserCooldown) && deathTimer == old(deathTimer)
    }

    /** Actor::Actor: active, at the origin, scale 1, rotation 0, transform
      * flag raised (opengl), then `mGame->AddActor(this)`; Ship starts its
      * cooldown at 0 and Laser its death timer at 1. */
    constructor (game: World, kind: ActorKind)
      requires game.Valid()
      modifies game`actors, game`pending
      ensures Live() && game.Valid()
      ensures this.game == game && this.kind == kind
      ensures state == EActive && position == Origin && scale == 1.0 && rotation == 0.0
      ensures components == [] && recomputeWorldTransform && transformUpdates == 0
      ensures laserCooldown == 0.0 && deathTimer == LaserLifetime
      ensures hooks == [] && !destroyed
      ensures game.updatingActors ==> game.pending == old(game.pending) + [this] && game.actors == old(game.actors)
      ensures !game.updatingActors ==> game.actors == old(game.actors) + [this] && game.pending == old(game.pending)
    {
      this.game := game;
      this.kind := kind;
      state := EActive;
      position := Origin;
      scale := 1.0;
      rotation := 0.0;
      components := [];
      recomputeWorldTransform := true;
      transformUpdates := 0;
      laserCooldown := 0.0;
      deathTimer := LaserLifetime;
      hooks := [];
      destroyed := false;
      new;
      game.AddActor(this);
    }

    /** Actor::AddComponent: scan for the first component whose update order
      * is strictly greater and insert before it. */
    method AddComponent(component: Component)
      requires Valid() && component.owner == this && component !in components
      modifies this`components
      ensures Valid()
      ensures components == InsertSorted(old(components), component, UpdateOrderOf)
    {
      var myOrder := component.updateOrder;
      var i := 0;
      while i < |components| && !(myOrder < components[i].updateOrder)
        invariant 0 <= i <= |components|
        invariant forall j :: 0 <= j < i ==> components[j].updateOrder <= myOrder
      {
        i := i + 1;
      }
      ghost var s := components;
      assert InsertSorted(s, component, UpdateOrderOf) == s[..i] + [component] + s[i..] by {
        InsertionPointUnique(s, UpdateOrderOf, myOrder, i);
      }
      InsertSortedKeepsSorted(s, component, UpdateOrderOf);
      InsertNoDup(s, component, i);
      components := components[..i] + [component] + components[i..];
      assert forall c :: c in components ==> c in s || c == component;
    }

    /** Actor::RemoveComponent: erase the component if std::find finds it. */
    method RemoveComponent(component: Component)
      requires Valid()
      modifies this`components
      ensures Valid()
      ensures components == RemoveFirst(old(components), component)
    {
      RemoveFirstNoDup(components, component);
      RemoveFirstKeepsSorted(components, component, UpdateOrderOf);
      if component in components {
        var i := IndexOf(components, component);
        components := components[..i] + components[i + 1..];
      }
    }

    /** Actor::SetState: any state may follow any other. */
    method SetState(s: ActorState)
      modifies this`state
      ensures state == s
    {
      state := s;
    }

    method SetPosition(p: Vec2)
      modifies this`position
      ensures position == p
    {
      position := p;
    }

    method SetRotation(r: real)
      modifies this`rotation
      ensures rotation == r
    {
      rotation := r;
    }

    method SetScale(s: real)
      modifies this`scale
      ensures scale == s
    {
      scale := s;
    }

    /** Actor::ComputeWorldTransform (opengl): only while the flag is raised,
      * and it lowers it. Nothing raises it again, so Valid() keeps the count
      * of recomputations at most one. */
    method ComputeWorldTransform()
      requires Valid()
      modifies this`recomputeWorldTransform, this`transformUpdates
      ensures Valid() && !recomputeWorldTransform && transformUpdates == 1
      ensures transformUpdates == old(transformUpdates) + (if old(recomputeWorldTransform) then 1 else 0)
    {
      if recomputeWorldTransform {
        recomputeWorldTransform := false;
        transformUpdates := transformUpdates + 1;
      }
    }

    /** What Laser::UpdateActor leaves behind: the timer has run down by dt;
      * a laser whose timer is used up dies without looking at the asteroids;
      * otherwise the first asteroid, in list order, that it intersects dies
      * with it, and every other asteroid keeps its state. */
    twostate predicate LaserStepped(dt: real, intersect: (Actor, Actor) -> bool, asts: seq<Actor>)
      reads this, asts
    {
      var k := FirstHit(this, asts, intersect);
      var hit := deathTimer > 0.0 && k < |asts|;
      deathTimer == old(deathTimer) - dt
      && state == (if deathTimer <= 0.0 || hit then EDead else old(state))
      && forall j :: 0 <= j < |asts| ==> asts[j].state == (if hit && j == k then EDead else old(asts[j].state))
    }

    /** Actor::UpdateComponents: the Update hook of every component, in list
      * order. */
    method UpdateComponents(dt: real)
      modifies this`hooks
      ensures hooks == old(hooks) + UpdateCalls(components, dt)
    {
      var i := 0;
      while i < |components|
        invariant 0 <= i <= |components|
        invariant hooks == old(hooks) + UpdateCalls(components[..i], dt)
      {
        assert components[..i + 1][..i] == components[..i];
        hooks := hooks + [ComponentUpdate(components[i], dt)];
        i := i + 1;
      }
      assert components[..i] == components;
    }

    /** Laser::UpdateActor: run the death timer down, then either die or scan
      * the asteroids for the first one the laser's circle touches; on a hit
      * both are marked dead (they stay in every list until the end-of-frame
      * reap) and the scan stops. */
    method LaserUpdateActor(dt: real, intersect: (Actor, Actor) -> bool)
      requires kind == LaserActor && this !in game.asteroids && NoDup(game.asteroids)
      modifies this`state, this`deathTimer, game.asteroids
      ensures LaserStepped(dt, intersect, game.asteroids)
      ensures forall a :: a in game.asteroids ==> a.OnlyStateChanged()
    {
      deathTimer := deathTimer - dt;
      if deathTimer <= 0.0 {
        SetState(EDead);
      } else {
        var asts := game.asteroids;
        var i := 0;
        while i < |asts|
          invariant 0 <= i <= |asts|
          invariant forall j :: 0 <= j < i ==> !intersect(this, asts[j])
          invariant state == old(state) && deathTimer == old(deathTimer) - dt
          invariant forall a :: a in asts ==> a.OnlyStateChanged() && a.state == old(a.state)
        {
          if intersect(this, asts[i]) {
            SetState(EDead);
            asts[i].SetState(EDead);
            break;
          }
          i := i + 1;
        }
      }
    }

    /** What the update pass leaves behind for an actor whose turn has come:
      * nothing structural has changed, the state is the old one or dead, the
      * hooks ran at most once and not for an actor that was inactive, and an
      * actor still active has had them run. */
    twostate predicate Settled(dt: real)
      reads this
    {
      StructureKept() && (state == old(state) || state == EDead)
      && (hooks == old(hooks) || hooks == old(hooks) + UpdateCalls(components, dt) + [ActorUpdate(dt)])
      && (old(state) != EActive ==> hooks == old(hooks))
      && (state == EActive ==> hooks == old(hooks) + UpdateCalls(components, dt) + [ActorUpdate(dt)])
    }

    /** Only the state has changed, and at most to dead (what another actor's
      * update can do to this one). */
    twostate predicate AtMostKilled()
      reads this
    {
      OnlyStateChanged() && (state == old(state) || state == EDead)
    }

    /** Actor::Update: nothing unless active; otherwise the components'
      * Update hooks in list order, then the actor's own UpdateActor hook once
      * (Ship: the laser cooldown runs down; Laser: LaserUpdateActor; the
      * base and Asteroid hooks are empty). */
    method Update(dt: real, intersect: (Actor, Actor) -> bool)
      requires game.Valid()
      modifies this`state, this`hooks, this`laserCooldown, this`deathTimer, game.asteroids
      ensures Settled(dt)
      ensures forall a :: a in game.asteroids && a != this ==> a.AtMostKilled()
      ensures old(state) != EActive ==>
        hooks == old(hooks) && state == old(state)
        && laserCooldown == old(laserCooldown) && deathTimer == old(deathTimer)
        && forall a :: a in game.asteroids ==> a.state == old(a.state)
      ensures old(state) == EActive ==> hooks == old(hooks) + UpdateCalls(components, dt) + [ActorUpdate(dt)]
      ensures old(state) == EActive && kind == ShipActor ==>
        laserCooldown == old(laserCooldown) - dt && state == old(state) && deathTimer == old(deathTimer)
        && forall a :: a in game.asteroids ==> a.state == old(a.state)
      ensures old(state) == EActive && kind == LaserActor ==>
        laserCooldown == old(laserCooldown) && LaserStepped(dt, intersect, game.asteroids)
      ensures old(state) == EActive && (kind == PlainActor || kind == AsteroidActor) ==>
        state == old(state) && laserCooldown == old(laserCooldown) && deathTimer == old(deathTimer)
        && forall a :: a in game.asteroids ==> a.state == old(a.state)
    {
      if state == EActive {
        UpdateComponents(dt);
        if kind == ShipActor {
          laserCooldown := laserCooldown - dt;
        } else if kind == LaserActor {
          LaserUpdateActor(dt, intersect);
        }
        hooks := hooks + [ActorUpdate(dt)];
      }
    }

    /** The component loop of Actor::ProcessInput: every component's
      * ProcessInput hook, in list order. */
    method InputComponents(keys: set<Key>)
      modifies this`hooks
      ensures hooks == old(hooks) + InputCalls(components, keys)
    {
      var i := 0;
      while i < |components|
        invariant 0 <= i <= |components|
        invariant hooks == old(hooks) + InputCalls(components[..i], keys)
      {
        assert components[..i + 1][..i] == components[..i];
        hooks := hooks + [ComponentInput(components[i], keys)];
        i := i + 1;
      }
      assert components[..i] == components;
    }

    /** Whether Ship::ActorInput fires for these keys: the ship is active,
      * Space is held and the cooldown has run out. */
    predicate Fires(keys: set<Key>)
      reads this`state, this`laserCooldown
    {
      state == EActive && kind == ShipActor && KeySpace in keys && laserCooldown <= 0.0
    }

    /** What one Actor::ProcessInput call leaves behind: the hooks of an
      * active actor have run, a firing ship's cooldown is reset, and nothing
      * else of the actor has changed. */
    twostate predicate InputStep(keys: set<Key>)
      reads this
    {
      state == old(state) && components == old(components)
      && hooks == (if old(state) == EActive then old(hooks) + InputCalls(components, keys) + [ActorInput(keys)] else old(hooks))
      && laserCooldown == (if old(Fires(keys)) then LaserCooldownReset else old(laserCooldown))
    }

    /** None of the fields a frame pass writes has changed. */
    twostate predicate Untouched()
      reads this
    {
      state == old(state) && components == old(components)
      && hooks == old(hooks) && laserCooldown == old(laserCooldown)
    }

    /** Actor::ProcessInput: nothing unless active; otherwise the components'
      * ProcessInput hooks in list order, then the actor's ActorInput hook
      * once. Ship::ActorInput, when Space is held and the cooldown has run
      * out, builds a Laser at the ship's position and rotation and resets
      * the cooldown to 0.5; the new laser is returned in `spawned`. */
    method ProcessInput(keys: set<Key>, disk: string -> LoadOutcome) returns (spawned: seq<Actor>)
      requires game.Valid() && game.updatingActors
      modifies this`hooks, this`laserCooldown, game`actors, game`pending, game`textures, game`loads
      ensures game.Valid() && game.actors == old(game.actors)
      ensures game.pending == old(game.pending) + spawned
      ensures InputStep(keys)
      ensures |spawned| == if old(Fires(keys)) then 1 else 0
      ensures forall l :: l in spawned ==> fresh(l) && NewLaser?(l, position, rotation)
    {
      spawned := [];
      if state == EActive {
        InputComponents(keys);
        if Fires(keys) {
          var laser := AimedLaser(game, position, rotation, disk);
          laserCooldown := LaserCooldownReset;
          spawned := [laser];
        }
        hooks := hooks + [ActorInput(keys)];
      }
    }

    /** The loop of ~Actor: delete the last component until none is left; it
      * ends because each Component destructor takes its component out of
      * this list. */
    method DeleteComponents()
      requires Valid()
      modifies this`components
      ensures Valid() && components == []
    {
      while components != []
        invariant Valid()
        decreases |components|
      {
        var last := components[|components| - 1];
        RemoveFirstCount(components, last);
        last.Destroy();
      }
    }

    /** `delete actor`: ~Asteroid first (`RemoveAsteroid`), then ~Actor:
      * `mGame->RemoveActor(this)` and delete components from the back until
      * none is left. The loop ends because every Component destructor takes
      * its component out of this list. */
    method Destroy()
      requires game.Valid() && Valid()
      modifies game`actors, game`pending, game`asteroids, this`components, this`destroyed
      ensures game.Valid()
      ensures destroyed && components == []
      ensures game.actors == SwapRemove(old(game.actors), this)
      ensures game.pending == SwapRemove(old(game.pending), this)
      ensures game.asteroids == RemoveFirst(old(game.asteroids), this)
      ensures forall a :: a in game.actors <==> a in old(game.actors) && a != this
      ensures forall a :: a in game.pending <==> a in old(game.pending) && a != this
      ensures forall a :: a in game.asteroids <==> a in old(game.asteroids) && a != this
    {
      RemoveFirstCount(game.asteroids, this);
      if kind == AsteroidActor {
        game.RemoveAsteroid(this);
      }
      game.RemoveActor(this);
      DeleteComponents();
      destroyed := true;
    }
  }

  class World {
    var actors: seq<Actor>
    var pending: seq<Actor>
    var updatingActors: bool
    var sprites: seq<Component>
    var asteroids: seq<Actor>
    var textures: map<string, Texture>
    var ticksCount: Ticks
    var isRunning: bool
    /** The file names IMG_Load has been called on, in order. */
    ghost var loads: seq<string>

    /** Each actor is in at most one of the two lists, once, and was built for
      * this world; the asteroid list holds registered asteroids only; sprites
      * are sorted by draw order. */
    ghost predicate Valid()
      reads this`actors, this`pending, this`asteroids, this`sprites
    {
      NoDup(actors) && NoDup(pending)
      && (forall a :: a in actors ==> a !in pending)
      && (forall a :: a in actors ==> a.game == this)
      && (forall a :: a in pending ==> a.game == this)
      && NoDup(asteroids)
      && (forall a :: a in asteroids ==> a.kind == AsteroidActor && (a in actors || a in pending))
      && SortedBy(sprites, DrawOrderOf)
    }

    /** Game::Game. */
    constructor (start: Ticks)
      ensures Valid()
      ensures actors == [] && pending == [] && !updatingActors && sprites == []
      ensures asteroids == [] && textures == map[] && ticksCount == start && isRunning
      ensures loads == []
    {
      actors := [];
      pending := [];
      updatingActors := false;
      sprites := [];
      asteroids := [];
      textures := map[];
      ticksCount := start;
      isRunning := true;
      loads := [];
    }

    /** Game::AddActor: to the pending list while the actors are being
      * iterated, to the live list otherwise. */
    method AddActor(actor: Actor)
      requires Valid() && actor.game == this && actor !in actors && actor !in pending
      modifies this`actors, this`pending
      ensures Valid()
      ensures updatingActors ==> pending == old(pending) + [actor] && actors == old(actors)
      ensures !updatingActors ==> actors == old(actors) + [actor] && pending == old(pending)
    {
      if updatingActors {
        AppendNoDup(pending, actor);
        pending := pending + [actor];
      } else {
        AppendNoDup(actors, actor);
        actors := actors + [actor];
      }
    }

    /** Game::RemoveActor: swap-with-last and pop, in the pending list and
      * then in the live list. */
    method RemoveActor(actor: Actor)
      modifies this`actors, this`pending
      ensures pending == SwapRemove(old(pending), actor)
      ensures actors == SwapRemove(old(actors), actor)
      ensures NoDup(old(actors)) ==> NoDup(actors) && forall a :: a in actors <==> a in old(actors) && a != actor
      ensures NoDup(old(pending)) ==> NoDup(pending) && forall a :: a in pending <==> a in old(pending) && a != actor
      ensures old(Valid()) && actor !in asteroids ==> Valid()
    {
      if NoDup(pending) {
        SwapRemoveNoDup(pending, actor);
      }
      if NoDup(actors) {
        SwapRemoveNoDup(actors, actor);
      }
      pending := SwapRemove(pending, actor);
      actors := SwapRemove(actors, actor);
    }

    /** Game::AddAsteroid. */
    method AddAsteroid(asteroid: Actor)
      requires Valid() && asteroid.kind == AsteroidActor && asteroid !in asteroids
      requires asteroid in actors || asteroid in pending
      modifies this`asteroids
      ensures Valid()
      ensures asteroids == old(asteroids) + [asteroid]
    {
      AppendNoDup(asteroids, asteroid);
      asteroids := asteroids + [asteroid];
    }

    /** Game::AddSprite: scan for the first sprite whose draw order is
      * strictly greater and insert before it, so the list stays sorted and
      * sprites of equal order keep their registration order. */
    method AddSprite(sprite: Component)
      requires Valid() && sprite.kind.SpriteComponent?
      modifies this`sprites
      ensures Valid()
      ensures sprites == InsertSorted(old(sprites), sprite, DrawOrderOf)
    {
      var drawOrder := sprite.kind.drawOrder;
      var i := 0;
      while i < |sprites| && !(drawOrder < DrawOrderOf(sprites[i]))
        invariant 0 <= i <= |sprites|
        invariant forall j :: 0 <= j < i ==> DrawOrderOf(sprites[j]) <= drawOrder
      {
        i := i + 1;
      }
      ghost var s := sprites;
      assert InsertSorted(s, sprite, DrawOrderOf) == s[..i] + [sprite] + s[i..] by {
        InsertionPointUnique(s, DrawOrderOf, drawOrder, i);
      }
      InsertSortedKeepsSorted(s, sprite, DrawOrderOf);
      sprites := sprites[..i] + [sprite] + sprites[i..];
    }

    /** Game::RemoveSprite of vectors_physics: `erase(find(...))` with no
      * check, so the sprite has to be registered. */
    method RemoveSprite(sprite: Component)
      requires Valid() && sprite in sprites
      modifies this`sprites
      ensures Valid()
      ensures |sprites| == |old(sprites)| - 1
      ensures multiset(sprites) == multiset(old(sprites)) - multiset{sprite}
      ensures sprites == RemoveFirst(old(sprites), sprite)
    {
      RemoveFirstKeepsSorted(sprites, sprite, DrawOrderOf);
      RemoveFirstCount(sprites, sprite);
      var i := IndexOf(sprites, sprite);
      sprites := sprites[..i] + sprites[i + 1..];
    }

    /** Game::RemoveSprite of 2d_graphics: the erase is guarded, so an
      * unregistered sprite leaves the list as it is. */
    method RemoveSpriteGuarded(sprite: Component)
      requires Valid()
      modifies this`sprites
      ensures Valid()
      ensures sprite !in old(sprites) ==> sprites == old(sprites)
      ensures multiset(sprites) == multiset(old(sprites)) - multiset{sprite}
      ensures sprites == RemoveFirst(old(sprites), sprite)
    {
      RemoveFirstKeepsSorted(sprites, sprite, DrawOrderOf);
      RemoveFirstCount(sprites, sprite);
      if sprite in sprites {
        var i := IndexOf(sprites, sprite);
        sprites := sprites[..i] + sprites[i + 1..];
      }
    }

    /** Game::UnloadData of vectors_physics and opengl: `delete` the last
      * live actor until the list is empty. The loop ends only because the
      * destructor takes the actor off the list. The texture map is cleared
      * afterwards. */
    method UnloadData()
      requires Valid()
      requires forall a :: a in actors ==> a.Live()
      requires forall a :: a in pending ==> a.Live()
      modifies this`actors, this`pending, this`asteroids, this`textures, actors`components, actors`destroyed
      ensures Valid() && actors == [] && pending == old(pending) && textures == map[]
      ensures forall a :: a in old(actors) ==> a.destroyed && a.components == []
      ensures forall a :: a in asteroids <==> a in old(asteroids) && a in old(pending)
    {
      while actors != []
        invariant Valid() && pending == old(pending)
        invariant forall a :: a in actors ==> a in old(actors) && a.Live()
        invariant forall a :: a in pending ==> a.Live()
        invariant forall a :: a in old(actors) && a !in actors ==> a.destroyed && a.components == []
        invariant forall a :: a in asteroids <==> a in old(asteroids) && (a in actors || a in old(pending))
        decreases |actors|
      {
        var d := actors[|actors| - 1];
        SwapRemoveCount(actors, d);
        DeleteOne(d);
      }
      textures := map[];
    }

    /** Game::UnloadData of 2d_graphics: `delete` the last actor, then pop
      * it. There the destructor leaves the list alone, so each turn removes
      * exactly one actor and the loop runs once per live actor. */
    method UnloadDataPopping() returns (ghost turns: nat)
      requires Valid()
      modifies this`actors, actors`destroyed
      ensures actors == [] && turns == |old(actors)|
      ensures forall a :: a in old(actors) ==> a.destroyed
    {
      turns := 0;
      while actors != []
        invariant turns + |actors| == |old(actors)|
        invariant actors == old(actors)[..|actors|]
        invariant forall j :: |actors| <= j < |old(actors)| ==> old(actors)[j].destroyed
      {
        actors[|actors| - 1].destroyed := true;
        actors := actors[..|actors| - 1];
        turns := turns + 1;
      }
    }

    /** Game::GetTexture: a cached texture is returned without touching the
      * disk; otherwise the file is loaded and, only if both the surface and
      * the texture were created, cached. `disk` says what loading a file
      * gives. */
    method GetTexture(filename: string, disk: string -> LoadOutcome) returns (tex: Option<Texture>)
      modifies this`textures, this`loads
      ensures tex == CachedLoad(old(textures), filename, disk(filename)).0
      ensures old(Valid()) ==> Valid()
      ensures TextureStep(old(textures), old(loads), textures, loads, filename, disk)
    {
      if filename in textures {
        tex := Some(textures[filename]);
      } else {
        loads := loads + [filename];
        var outcome := disk(filename);
        match outcome
        case SurfaceFailed =>
          return None;
        case TextureFailed =>
          return None;
        case Loaded(t) =>
          textures := textures[filename := t];
          tex := Some(t);
      }
    }

    /** Game::ProcessInput: a quit event or a held Escape stops the loop;
      * then every live actor's ProcessInput runs, in list order, with the
      * updating flag raised. `quit` says whether SDL_QUIT was among the
      * polled events. */
    method ProcessInput(keys: set<Key>, quit: bool, disk: string -> LoadOutcome)
      requires Valid()
      modifies this`isRunning, this`updatingActors, this`actors, this`pending, this`textures, this`loads
      modifies actors
      ensures Valid() && !updatingActors
      ensures isRunning == (old(isRunning) && !quit && KeyEscape !in keys)
      ensures actors == old(actors)
      ensures |old(pending)| <= |pending| && pending[..|old(pending)|] == old(pending)
      ensures forall k :: |old(pending)| <= k < |pending| ==>
        fresh(pending[k]) && pending[k].Live() && pending[k].kind == LaserActor
      ensures forall j :: 0 <= j < |actors| ==> actors[j].InputStep(keys)
    {
      if quit || KeyEscape in keys {
        isRunning := false;
      }
      updatingActors := true;
      InputActors(keys, disk);
      updatingActors := false;
    }

    /** The actor loop of Game::ProcessInput. Because the flag is raised, a
      * laser a ship fires goes to the pending list: the list being iterated
      * does not change, and the pending list grows by fresh lasers only. */
    method InputActors(keys: set<Key>, disk: string -> LoadOutcome)
      requires Valid() && updatingActors
      modifies this`actors, this`pending, this`textures, this`loads, actors
      ensures Valid() && actors == old(actors)
      ensures |old(pending)| <= |pending| && pending[..|old(pending)|] == old(pending)
      ensures forall k :: |old(pending)| <= k < |pending| ==>
        fresh(pending[k]) && pending[k].Live() && pending[k].kind == LaserActor
      ensures forall j :: 0 <= j < |actors| ==> actors[j].InputStep(keys)
    {
      var acts := actors;
      ghost var fired: seq<Actor> := [];
      var i := 0;
      while i < |acts|
        invariant 0 <= i <= |acts| && actors == acts && Valid()
        invariant pending == old(pending) + fired
        invariant forall l :: l in fired ==> fresh(l)
        invariant forall l :: l in fired ==> l.Live() && l.kind == LaserActor
        invariant forall j :: 0 <= j < |acts| ==> if j < i then acts[j].InputStep(keys) else acts[j].Untouched()
      {
        var spawned := acts[i].ProcessInput(keys, disk);
        fired := fired + spawned;
        i := i + 1;
      }
      assert forall k :: |old(pending)| <= k < |pending| ==> pending[k] in fired by {
        assert pending[|old(pending)|..] == fired;
      }
    }

    /** Game::UpdateGame after its frame-pacing wait: the delta time since
      * the last frame, clamped to 0.05 s; then the update pass with the
      * flag raised, the pending merge and the reap. `now` is what
      * SDL_GetTicks() returns (read once here). Afterwards the pending list
      * is empty, no live actor is dead and the dead ones are deleted. */
    method UpdateGame(now: Ticks, computeTransforms: bool, intersect: (Actor, Actor) -> bool)
      requires Valid()
      requires forall a :: a in actors ==> a.Live()
      requires forall a :: a in pending ==> a.Live()
      modifies this`ticksCount, this`updatingActors, this`actors, this`pending, this`asteroids, actors, pending, asteroids
      ensures Valid() && !updatingActors && ticksCount == now && pending == []
      ensures forall a :: a in actors <==> (a in old(actors) || a in old(pending)) && a.state != EDead
      ensures forall a :: a in actors ==> a.Live()
      ensures forall a :: a in asteroids <==> a in old(asteroids) && a.state != EDead
      ensures forall a :: (a in old(actors) || a in old(pending)) && a.state == EDead ==> a.destroyed && a.components == []
    {
      var dt := DeltaTime(now, ticksCount);
      ticksCount := now;
      updatingActors := true;
      UpdateActors(dt, intersect);
      updatingActors := false;
      MergePending(computeTransforms);
      ReapDead();
    }

    /** The actor loop of Game::UpdateGame, run with the updating flag
      * raised: every live actor's Update, in list order. No list changes;
      * every live actor has taken its turn, and a pending actor can only
      * have been killed (a pending asteroid hit by a laser). */
    method UpdateActors(dt: real, intersect: (Actor, Actor) -> bool)
      requires Valid()
      modifies actors, asteroids
      ensures Valid()
      ensures forall j :: 0 <= j < |actors| ==> actors[j].Settled(dt)
      ensures forall a :: a in pending ==> a.AtMostKilled()
    {
      var i := 0;
      while i < |actors|
        invariant 0 <= i <= |actors|
        invariant forall j :: 0 <= j < |actors| ==> if j < i then actors[j].Settled(dt) else actors[j].AtMostKilled()
        invariant forall a :: a in pending ==> a.AtMostKilled()
      {
        UpdateTurn(i, dt, intersect);
        i := i + 1;
      }
    }

    /** One turn of the actor loop of Game::UpdateGame. */
    method UpdateTurn(i: nat, dt: real, intersect: (Actor, Actor) -> bool)
      requires Valid() && i < |actors|
      modifies actors[i], asteroids
      ensures actors[i].Settled(dt)
      ensures forall j :: 0 <= j < |actors| && j != i ==> actors[j].AtMostKilled()
      ensures forall a :: a in pending ==> a.AtMostKilled()
    {
      actors[i].Update(dt, intersect);
    }

    /** The pending merge of Game::UpdateGame: every pending actor is
      * appended to the live list, in order (the opengl variant first runs
      * its ComputeWorldTransform, chosen by `computeTransforms`), and the
      * pending list is cleared. */
    method MergePending(computeTransforms: bool)
      requires Valid() && forall a :: a in pending ==> a.Live()
      modifies this`actors, this`pending, pending`recomputeWorldTransform, pending`transformUpdates
      ensures Valid() && actors == old(actors) + old(pending) && pending == []
      ensures forall a :: a in old(pending) ==> a.Live()
      ensures computeTransforms ==> forall a :: a in old(pending) ==> !a.recomputeWorldTransform && a.transformUpdates == 1
      ensures !computeTransforms ==> forall a :: a in old(pending) ==>
        a.recomputeWorldTransform == old(a.recomputeWorldTransform) && a.transformUpdates == old(a.transformUpdates)
    {
      var pend := pending;
      var i := 0;
      while i < |pend|
        invariant 0 <= i <= |pend| && pending == pend && actors == old(actors) + pend[..i]
        invariant forall a :: a in pend ==> a.Live()
        invariant computeTransforms ==> forall j :: 0 <= j < i ==> !pend[j].recomputeWorldTransform && pend[j].transformUpdates == 1
        invariant !computeTransforms ==> forall a :: a in pend ==>
          a.recomputeWorldTransform == old(a.recomputeWorldTransform) && a.transformUpdates == old(a.transformUpdates)
      {
        assert pend[i].Live();
        if computeTransforms {
          pend[i].ComputeWorldTransform();
        }
        assert pend[..i + 1] == pend[..i] + [pend[i]];
        actors := actors + [pend[i]];
        i := i + 1;
      }
      assert pend[..i] == pend;
      ConcatNoDup(old(actors), pend);
      pending := [];
    }

    /** The reap of Game::UpdateGame: collect the dead live actors into a
      * side list, then delete each one. The Actor destructor takes it out of
      * the live list (swap-and-pop, so the survivors' order may change), and
      * out of the asteroid list for an asteroid, and deletes its components.
      * Afterwards exactly the live actors that were not dead remain. */
    method ReapDead()
      requires Valid()
      requires forall a :: a in actors ==> a.Live()
      requires forall a :: a in pending ==> a.Live()
      modifies this`actors, this`pending, this`asteroids, actors`components, actors`destroyed
      ensures Valid()
      ensures forall a :: a in actors <==> a in old(actors) && a.state != EDead
      ensures pending == old(pending)
      ensures forall a :: a in asteroids <==> a in old(asteroids) && !(a in old(actors) && a.state == EDead)
      ensures forall a :: a in old(actors) && a.state == EDead ==> a.destroyed && a.components == []
      ensures forall a :: a in actors ==> a.Live()
      ensures forall a :: a in pending ==> a.Live()
    {
      var dead := CollectDead();
      DeadOfNoDup(actors);
      assert forall a :: a in dead <==> a in actors && a.state == EDead;
      DeleteDead(dead);
    }

    /** The second loop of the reap: `delete` each collected actor. */
    method DeleteDead(dead: seq<Actor>)
      requires Valid() && NoDup(dead)
      requires forall a :: a in dead ==> a in actors
      requires forall a :: a in actors ==> a.Live()
      requires forall a :: a in pending ==> a.Live()
      modifies this`actors, this`pending, this`asteroids, dead`components, dead`destroyed
      ensures Valid()
      ensures forall a :: a in actors <==> a in old(actors) && a !in dead
      ensures pending == old(pending)
      ensures forall a :: a in asteroids <==> a in old(asteroids) && a !in dead
      ensures forall a :: a in dead ==> a.destroyed && a.components == []
      ensures forall a :: a in actors ==> a.Live()
      ensures forall a :: a in pending ==> a.Live()
    {
      var k := 0;
      while k < |dead|
        invariant 0 <= k <= |dead| && Valid()
        invariant forall a :: a in actors <==> a in old(actors) && a !in dead[..k]
        invariant pending == old(pending)
        invariant forall a :: a in asteroids <==> a in old(asteroids) && a !in dead[..k]
        invariant forall a :: a in actors ==> a.Live()
        invariant forall a :: a in pending ==> a.Live()
        invariant forall j :: 0 <= j < k ==> dead[j].destroyed && dead[j].components == []
      {
        var d := dead[k];
        assert d !in dead[..k];
        assert dead[..k + 1] == dead[..k] + [d];
        DeleteOne(d);
        k := k + 1;
      }
      assert dead[..k] == dead;
    }

    /** One turn of the deletion loop: `delete actor`, whose destructor
      * takes the actor off the world's lists. */
    method DeleteOne(d: Actor)
      requires Valid() && d in actors
      requires forall a :: a in actors ==> a.Live()
      requires forall a :: a in pending ==> a.Live()
      modifies this`actors, this`pending, this`asteroids, d`components, d`destroyed
      ensures Valid() && actors == SwapRemove(old(actors), d)
      ensures forall a :: a in actors <==> a in old(actors) && a != d
      ensures pending == old(pending)
      ensures forall a :: a in asteroids <==> a in old(asteroids) && a != d
      ensures d.destroyed && d.components == []
      ensures forall a :: a in actors ==> a.Live()
      ensures forall a :: a in pending ==> a.Live()
    {
      SwapRemoveCount(pending, d);
      d.Destroy();
    }

    /** The first loop of the reap: the dead actors of the live list, in
      * list order. */
    method CollectDead() returns (dead: seq<Actor>)
      ensures dead == DeadOf(actors)
    {
      dead := [];
      var i := 0;
      while i < |actors|
        invariant 0 <= i <= |actors| && dead == DeadOf(actors[..i])
      {
        assert actors[..i + 1][..i] == actors[..i];
        if actors[i].state == EDead {
          dead := dead + [actors[i]];
        }
        i := i + 1;
      }
      assert actors[..i] == actors;
    }

    /** Game::RemoveAsteroid: erase if found. */
    method RemoveAsteroid(asteroid: Actor)
      requires Valid()
      modifies this`asteroids
      ensures Valid()
      ensures asteroids == RemoveFirst(old(asteroids), asteroid)
      ensures forall a :: a in asteroids <==> a in old(asteroids) && a != asteroid
    {
      RemoveFirstNoDup(asteroids, asteroid);
      RemoveFirstCount(asteroids, asteroid);
      if asteroid in asteroids {
        var i := IndexOf(asteroids, asteroid);
        asteroids := asteroids[..i] + asteroids[i + 1..];
      }
    }
  }
  /** The components the Laser and Asteroid constructors create, as the
    * list ends up ordered: the MoveComponent (order 10) ahead of the
    * SpriteComponent and the CircleComponent (order 100, in creation order). */
  ghost predicate MovingBody(a: Actor, speed: real, radius: real)
    reads a`components
  {
    |a.components| == 3
    && a.components[0].kind == MoveComponent(speed) && a.components[0].updateOrder == MoveUpdateOrder
    && a.components[1].kind == SpriteComponent(DefaultDrawOrder) && a.components[1].updateOrder == DefaultUpdateOrder
    && a.components[2].kind == CircleComponent(radius) && a.components[2].updateOrder == DefaultUpdateOrder
  }

  /** Where three components created in the order sprite, move, circle end
    * up: the move component's lower update order puts it first. */
  lemma BodyOrder(sc: Component, mc: Component, circle: Component, l1: seq<Component>, l2: seq<Component>, l3: seq<Component>)
    requires sc.updateOrder == DefaultUpdateOrder && mc.updateOrder == MoveUpdateOrder
    requires circle.updateOrder == DefaultUpdateOrder
    requires l1 == InsertSorted([], sc, UpdateOrderOf)
    requires l2 == InsertSorted(l1, mc, UpdateOrderOf)
    requires l3 == InsertSorted(l2, circle, UpdateOrderOf)
    ensures l3 == [mc, sc, circle]
  {
    ShipOrder(sc, mc, l1, l2);
    assert forall j :: 0 <= j < |l2| ==> UpdateOrderOf(l2[j]) <= UpdateOrderOf(circle);
    InsertSortedAppends(l2, circle, UpdateOrderOf);
  }

  /** Where the Ship's sprite and then its input component end up: the
    * input component's lower update order puts it first. */
  lemma ShipOrder(sc: Component, ic: Component, l1: seq<Component>, l2: seq<Component>)
    requires sc.updateOrder == DefaultUpdateOrder && ic.updateOrder == MoveUpdateOrder
    requires l1 == InsertSorted([], sc, UpdateOrderOf)
    requires l2 == InsertSorted(l1, ic, UpdateOrderOf)
    ensures l2 == [ic, sc]
  {
    assert l1 == [sc] by {
      InsertSortedAppends([], sc, UpdateOrderOf);
    }
    InsertSortedPrepends([sc], ic, UpdateOrderOf);
  }

  /** `new SpriteComponent(owner, drawOrder)` followed by
    * `SetTexture(game->GetTexture(textureName))`, as the Ship, Laser and
    * Asteroid constructors do. */
  method NewSprite(owner: Actor, drawOrder: int, textureName: string, disk: string -> LoadOutcome) returns (sc: Component)
    requires owner.Valid()
    modifies owner`components, owner.game`textures, owner.game`loads
    ensures owner.Valid()
    ensures fresh(sc) && sc.owner == owner && sc.updateOrder == DefaultUpdateOrder
    ensures sc.kind == SpriteComponent(drawOrder)
    ensures owner.state == old(owner.state) && owner.laserCooldown == old(owner.laserCooldown)
    ensures owner.game.actors == old(owner.game.actors) && owner.game.pending == old(owner.game.pending)
    ensures sc.texture == CachedLoad(old(owner.game.textures), textureName, disk(textureName)).0
    ensures owner.components == InsertSorted(old(owner.components), sc, UpdateOrderOf)
    ensures TextureStep(old(owner.game.textures), old(owner.game.loads), owner.game.textures, owner.game.loads, textureName, disk)
  {
    sc := new Component(owner, DefaultUpdateOrder, SpriteComponent(drawOrder));
    var tex := owner.game.GetTexture(textureName, disk);
    sc.texture := tex;
  }

  /** The component set-up shared by Laser::Laser and Asteroid::Asteroid: a
    * sprite with the default draw order and the named texture, a
    * MoveComponent with the given forward speed and a CircleComponent with
    * the given radius, created in that order. */
  method AttachBody(actor: Actor, textureName: string, speed: real, radius: real, disk: string -> LoadOutcome)
    requires actor.Valid() && actor.components == []
    modifies actor`components, actor.game`textures, actor.game`loads
    ensures actor.Valid()
    ensures MovingBody(actor, speed, radius)
  {
    var sc := NewSprite(actor, DefaultDrawOrder, textureName, disk);
    ghost var l1 := actor.components;
    var mc := new Component(actor, MoveUpdateOrder, MoveComponent(speed));
    ghost var l2 := actor.components;
    var circle := new Component(actor, DefaultUpdateOrder, CircleComponent(radius));
    BodyOrder(sc, mc, circle, l1, l2, actor.components);
  }

  /** The components Ship::Ship creates, as the list ends up ordered: the
    * InputComponent (order 10) ahead of the SpriteComponent. */
  ghost predicate ShipBody(a: Actor)
    reads a`components
  {
    |a.components| == 2
    && a.components[0].kind == InputComponent(ShipForwardSpeed, TwoPi)
    && a.components[0].updateOrder == MoveUpdateOrder
    && a.components[1].kind == SpriteComponent(ShipDrawOrder)
    && a.components[1].updateOrder == DefaultUpdateOrder
  }

  /** The component set-up of Ship::Ship: a SpriteComponent drawn at order
    * 150 with the ship texture, then an InputComponent (a MoveComponent,
    * order 10) capped at forward speed 300 and angular speed 2π. */
  method AttachShipBody(ship: Actor, disk: string -> LoadOutcome)
    requires ship.Valid() && ship.components == []
    modifies ship`components, ship.game`textures, ship.game`loads
    ensures ship.Valid() && ShipBody(ship)
    ensures ship.state == old(ship.state) && ship.laserCooldown == old(ship.laserCooldown)
  {
    var sc := NewSprite(ship, ShipDrawOrder, ShipTexture, disk);
    ghost var l1 := ship.components;
    var ic := new Component(ship, MoveUpdateOrder, InputComponent(ShipForwardSpeed, TwoPi));
    ShipOrder(sc, ic, l1, ship.components);
  }

  /** Ship::Ship: an active actor with its laser cooldown at 0 and the
    * ship's components. */
  method NewShip(game: World, disk: string -> LoadOutcome) returns (ship: Actor)
    requires game.Valid()
    modifies game`actors, game`pending, game`textures, game`loads
    ensures fresh(ship) && game.Valid() && ship.Live()
    ensures ship.kind == ShipActor && ship.state == EActive && ship.laserCooldown == 0.0
    ensures ShipBody(ship)
    ensures game.updatingActors ==> game.pending == old(game.pending) + [ship] && game.actors == old(game.actors)
    ensures !game.updatingActors ==> game.actors == old(game.actors) + [ship] && game.pending == old(game.pending)
  {
    ship := new Actor(game, ShipActor);
    AttachShipBody(ship, disk);
  }

  /** Laser::Laser: an active actor whose death timer starts at 1 second,
    * with a sprite, a MoveComponent at forward speed 800 and a circle of
    * radius 11. */
  method NewLaser(game: World, disk: string -> LoadOutcome) returns (laser: Actor)
    requires game.Valid()
    modifies game`actors, game`pending, game`textures, game`loads
    ensures fresh(laser) && game.Valid() && laser.Live()
    ensures laser.kind == LaserActor && laser.state == EActive && laser.deathTimer == LaserLifetime
    ensures MovingBody(laser, LaserSpeed, LaserRadius)
    ensures game.updatingActors ==> game.pending == old(game.pending) + [laser] && game.actors == old(game.actors)
    ensures !game.updatingActors ==> game.actors == old(game.actors) + [laser] && game.pending == old(game.pending)
  {
    laser := new Actor(game, LaserActor);
    AttachBody(laser, LaserTexture, LaserSpeed, LaserRadius, disk);
  }

  method PlacedActor(game: World, kind: ActorKind, pos: Vec2, angle: real) returns (a: Actor)
    requires game.Valid()
    modifies game`actors, game`pending
    ensures fresh(a) && game.Valid() && a.Live() && a.components == []
    ensures a.kind == kind && a.state == EActive && a.position == pos && a.rotation == angle
    ensures game.asteroids == old(game.asteroids)
    ensures game.updatingActors ==> game.pending == old(game.pending) + [a] && game.actors == old(game.actors)
    ensures !game.updatingActors ==> game.actors == old(game.actors) + [a] && game.pending == old(game.pending)
  {
    a := new Actor(game, kind);
    a.SetPosition(pos);
    a.SetRotation(angle);
  }

  /** A laser as Ship::ActorInput leaves it: built by Laser::Laser and
    * placed at the given position and rotation. */
  ghost predicate NewLaser?(l: Actor, pos: Vec2, angle: real)
    reads l
  {
    l.Live() && l.kind == LaserActor && l.state == EActive && l.deathTimer == LaserLifetime
    && l.position == pos && l.rotation == angle && MovingBody(l, LaserSpeed, LaserRadius)
  }

  /** The three statements of Ship::ActorInput that build a Laser and give
    * it the ship's position and rotation. */
  method AimedLaser(game: World, pos: Vec2, angle: real, disk: string -> LoadOutcome) returns (laser: Actor)
    requires game.Valid()
    modifies game`actors, game`pending, game`textures, game`loads
    ensures fresh(laser) && game.Valid() && NewLaser?(laser, pos, angle)
    ensures game.updatingActors ==> game.pending == old(game.pending) + [laser] && game.actors == old(game.actors)
    ensures !game.updatingActors ==> game.actors == old(game.actors) + [laser] && game.pending == old(game.pending)
  {
    laser := NewLaser(game, disk);
    laser.SetPosition(pos);
    laser.SetRotation(angle);
  }

  /** Asteroid::Asteroid: an active actor placed at a random point of the
    * box [-512, 512] x [-384, 384] facing a random angle in [0, 2π] (both
    * draws are parameters), with a sprite, a MoveComponent at forward speed
    * 150 and a circle of radius 40, and registered in the asteroid list. */
  method NewAsteroid(game: World, pos: Vec2, angle: real, disk: string -> LoadOutcome) returns (asteroid: Actor)
    requires game.Valid()
    requires -512.0 <= pos.x <= 512.0 && -384.0 <= pos.y <= 384.0 && 0.0 <= angle <= TwoPi
    modifies game`actors, game`pending, game`asteroids, game`textures, game`loads
    ensures fresh(asteroid) && game.Valid() && asteroid.Live()
    ensures asteroid.kind == AsteroidActor && asteroid.state == EActive
    ensures asteroid.position == pos && asteroid.rotation == angle
    ensures MovingBody(asteroid, AsteroidSpeed, AsteroidRadius)
    ensures game.asteroids == old(game.asteroids) + [asteroid]
    ensures game.updatingActors ==> game.pending == old(game.pending) + [asteroid] && game.actors == old(game.actors)
    ensures !game.updatingActors ==> game.actors == old(game.actors) + [asteroid] && game.pending == old(game.pending)
  {
    asteroid := PlacedActor(game, AsteroidActor, pos, angle);
    AttachBody(asteroid, AsteroidTexture, AsteroidSpeed, AsteroidRadius, disk);
    game.AddAsteroid(asteroid);
  }

  /** Whether an asteroid position and angle lie in the ranges the
    * Asteroid constructor draws them from. */
  predicate AsteroidDraw(d: (Vec2, real)) {
    -512.0 <= d.0.x <= 512.0 && -384.0 <= d.0.y <= 384.0 && 0.0 <= d.1 <= TwoPi
  }

  /** The list an actor created at a given moment joins: pending while the
    * actors are being iterated, live otherwise. */
  twostate predicate JoinedInOrder(game: World, new added: seq<Actor>)
    reads game
  {
    if game.updatingActors then game.pending == old(game.pending) + added && game.actors == old(game.actors)
    else game.actors == old(game.actors) + added && game.pending == old(game.pending)
  }

  /** The loop of Game::LoadData: `new Asteroid(this)` once per draw. */
  method SpawnAsteroids(game: World, draws: seq<(Vec2, real)>, disk: string -> LoadOutcome) returns (ghost rocks: seq<Actor>)
    requires game.Valid()
    requires forall k :: 0 <= k < |draws| ==> AsteroidDraw(draws[k])
    modifies game`actors, game`pending, game`asteroids, game`textures, game`loads
    ensures game.Valid() && |rocks| == |draws|
    ensures game.asteroids == old(game.asteroids) + rocks
    ensures JoinedInOrder(game, rocks)
    ensures forall k :: 0 <= k < |rocks| ==>
      fresh(rocks[k]) && rocks[k].Live() && rocks[k].position == draws[k].0 && rocks[k].rotation == draws[k].1
  {
    rocks := [];
    var i := 0;
    while i < |draws|
      invariant 0 <= i <= |draws| && |rocks| == i && game.Valid()
      invariant game.updatingActors == old(game.updatingActors)
      invariant game.asteroids == old(game.asteroids) + rocks
      invariant JoinedInOrder(game, rocks)
      invariant forall k :: 0 <= k < i ==>
        fresh(rocks[k]) && rocks[k].Live() && rocks[k].position == draws[k].0 && rocks[k].rotation == draws[k].1
    {
      var a := NewAsteroid(game, draws[i].0, draws[i].1, disk);
      rocks := rocks + [a];
      i := i + 1;
    }
  }

  /** Game::LoadData of vectors_physics: a Ship at (512, 384) facing π/2,
    * then 20 asteroids placed by the given draws. */
  method LoadData(game: World, draws: seq<(Vec2, real)>, disk: string -> LoadOutcome) returns (ship: Actor, ghost rocks: seq<Actor>)
    requires game.Valid() && |draws| == NumAsteroids
    requires forall k :: 0 <= k < |draws| ==> AsteroidDraw(draws[k])
    modifies game`actors, game`pending, game`asteroids, game`textures, game`loads
    ensures game.Valid() && fresh(ship) && ship.Live() && ShipBody(ship)
    ensures ship.kind == ShipActor && ship.position == Vec2(512.0, 384.0) && ship.rotation == PiOver2
    ensures |rocks| == NumAsteroids && game.asteroids == old(game.asteroids) + rocks
    ensures JoinedInOrder(game, [ship] + rocks)
    ensures forall k :: 0 <= k < |rocks| ==> fresh(rocks[k]) && rocks[k].Live() && rocks[k] != ship
  {
    ship := NewShip(game, disk);
    ship.SetPosition(Vec2(512.0, 384.0));
    ship.SetRotation(PiOver2);
    rocks := SpawnAsteroids(game, draws, disk);
  }

  /** A component built and then destroyed leaves its owner's list exactly
    * as it was. */
  method ComponentRoundTrip(owner: Actor, updateOrder: int, kind: ComponentKind)
    requires owner.Valid()
    modifies owner`components
    ensures owner.Valid() && owner.components == old(owner.components)
  {
    ghost var before := owner.components;
    var c := new Component(owner, updateOrder, kind);
    c.Destroy();
    RemoveAfterInsert(before, c, UpdateOrderOf);
  }
}
