/** Timber: the column of branches that scrolls down the tree one slot per
  * UpdateBranches call, and a drifting actor: a sprite that crosses the
  * screen at its speed and is retired once it passes its restart line. */
module Timber {
  import opened Wrappers

  /** Which side of the trunk a branch grows on, if any. */
  datatype Side = Left | Right | NoBranch

  /** Number of branch slots on the tree. */
  const MaxBranches := 6

  /** The side a freshly spawned branch takes, from a roll of rand() % 5:
    * one chance in five for each side, three in five for a bare slot. */
  function SideOf(r: int): Side {
    if r == 0 then Left
    else if r == 1 then Right
    else NoBranch
  }

  lemma SpawnOdds(roll: nat)
    ensures var r := roll % 5;
      0 <= r < 5 &&
      (SideOf(r) == Left <==> r == 0) &&
      (SideOf(r) == Right <==> r == 1) &&
      (SideOf(r) == NoBranch <==> 2 <= r)
  {
  }

  /** The column after one update: every branch moves one slot down, the
    * bottom one falls off, and the new branch takes the top slot. */
  function Shifted(column: seq<Side>, top: Side): (r: seq<Side>)
    requires |column| == MaxBranches
    ensures |r| == MaxBranches
    ensures r[0] == top
    ensures forall i :: 1 <= i < MaxBranches ==> r[i] == column[i - 1]
  {
    [top] + column[..MaxBranches - 1]
  }

  /** The column after a sequence of updates with the given rolls. */
  function AfterUpdates(column: seq<Side>, rolls: seq<nat>): (r: seq<Side>)
    requires |column| == MaxBranches
    ensures |r| == MaxBranches
    decreases |rolls|
  {
    if rolls == [] then column
    else Shifted(AfterUpdates(column, rolls[..|rolls| - 1]), SideOf(rolls[|rolls| - 1] % 5))
  }

  /** A branch spawned by the j-th most recent update sits j slots below the
    * top; the slots below the newly spawned ones hold the old column, moved
    * down by one slot per update. After MaxBranches updates nothing of the
    * old column is left. */
  lemma {:induction false} BranchesDescend(column: seq<Side>, rolls: seq<nat>)
    requires |column| == MaxBranches && |rolls| <= MaxBranches
    ensures forall j :: 0 <= j < |rolls| ==>
      AfterUpdates(column, rolls)[j] == SideOf(rolls[|rolls| - 1 - j] % 5)
    ensures forall k :: |rolls| <= k < MaxBranches ==>
      AfterUpdates(column, rolls)[k] == column[k - |rolls|]
    decreases |rolls|
  {
    if rolls != [] {
      var prefix := rolls[..|rolls| - 1];
      BranchesDescend(column, prefix);
      var before := AfterUpdates(column, prefix);
      assert AfterUpdates(column, rolls) == Shifted(before, SideOf(rolls[|rolls| - 1] % 5));
      forall j | 1 <= j < |rolls|
        ensures AfterUpdates(column, rolls)[j] == SideOf(rolls[|rolls| - 1 - j] % 5)
      {
        assert prefix[|prefix| - 1 - (j - 1)] == rolls[|rolls| - 1 - j];
      }
    }
  }

  /** A branch sprite; a default-constructed one is placed at (20, 20). */
  class Branch {
    var position: Vec2

    constructor ()
      ensures position == Vec2(20.0, 20.0)
    {
      position := Vec2(-2000.0, -2000.0);
      position := Vec2(20.0, 20.0);
    }
  }

  /** The branch column: the side of every slot and a sprite per slot. */
  class Branches {
    const positions: array<Side>
    const branches: array<Branch>

    ghost predicate Valid()
      reads this
    {
      positions.Length == MaxBranches && branches.Length == MaxBranches
    }

    /** Both arrays start with MaxBranches entries; every slot starts with
      * the side whose enumerator is zero, passed here as blank, and with a
      * default-constructed branch of its own. */
    constructor (blank: Side)
      ensures Valid()
      ensures positions[..] == seq(MaxBranches, _ => blank)
      ensures fresh(branches)
      ensures forall i :: 0 <= i < MaxBranches ==> fresh(branches[i]) && branches[i].position == Vec2(20.0, 20.0)
      ensures forall i, j :: 0 <= i < j < MaxBranches ==> branches[i] != branches[j]
    {
      var sides := new Side[MaxBranches](_ => blank);
      var first := new Branch();
      var slots := new Branch[MaxBranches](_ => first);
      var i := 1;
      while i < MaxBranches
        invariant 1 <= i <= MaxBranches
        invariant slots[0] == first
        invariant sides[..] == seq(MaxBranches, _ => blank)
        invariant forall k :: 0 <= k < i ==> fresh(slots[k]) && slots[k].position == Vec2(20.0, 20.0)
        invariant forall k, l :: 0 <= k < l < i ==> slots[k] != slots[l]
      {
        var b := new Branch();
        slots[i] := b;
        i := i + 1;
      }
      positions := sides;
      branches := slots;
    }

    /** Puts a freshly constructed sprite into each of the MaxBranches slots. */
    method CreateBranches()
      requires Valid()
      modifies branches
      ensures Valid()
      ensures forall i :: 0 <= i < MaxBranches ==>
        fresh(branches[i]) && branches[i].position == Vec2(20.0, 20.0)
      ensures forall i, j :: 0 <= i < j < MaxBranches ==> branches[i] != branches[j]
    {
      var i := 0;
      while i < MaxBranches
        invariant 0 <= i <= MaxBranches
        invariant forall k :: 0 <= k < i ==>
          fresh(branches[k]) && branches[k].position == Vec2(20.0, 20.0)
        invariant forall k, l :: 0 <= k < l < i ==> branches[k] != branches[l]
      {
        var b := new Branch();
        branches[i] := b;
        i := i + 1;
      }
    }

    /** Scrolls the column down one slot and spawns a branch on top from the
      * roll rand() % 5 (roll is the non-negative value rand() returned). */
    method UpdateBranches(roll: nat)
      requires Valid()
      modifies positions
      ensures Valid()
      ensures positions[..] == Shifted(old(positions[..]), SideOf(roll % 5))
    {
      var i := MaxBranches - 1;
      while i > 0
        invariant 0 <= i <= MaxBranches - 1
        invariant forall k :: 0 <= k <= i ==> positions[k] == old(positions[k])
        invariant forall k :: i < k < MaxBranches ==> positions[k] == old(positions[k - 1])
      {
        positions[i] := positions[i - 1];
        i := i - 1;
      }
      var r := roll % 5;
      if r == 0 {
        positions[0] := Left;
      } else if r == 1 {
        positions[0] := Right;
      } else {
        positions[0] := NoBranch;
      }
    }
  }

  /** Direction an actor drifts in. */
  datatype Direction = ELeft | ERight

  /** The x coordinate after drifting for dt seconds at the given speed. */
  function Drift(x: real, speed: real, dt: real, dir: Direction): real {
    match dir
    case ELeft => x - speed * dt
    case ERight => x + speed * dt
  }

  /** With a non-negative speed and time step, a left drift never increases
    * x and a right drift never decreases it. */
  lemma DriftMonotone(x: real, speed: real, dt: real)
    requires 0.0 <= speed && 0.0 <= dt
    ensures Drift(x, speed, dt, ELeft) <= x <= Drift(x, speed, dt, ERight)
  {
    assert 0.0 <= speed * dt;
  }

  /** An actor is past its restart line: left of it when the line is at a
    * negative x, right of it otherwise. */
  predicate PastRestart(x: real, restartOn: int) {
    if restartOn < 0 then x < restartOn as real else x > restartOn as real
  }

  /** An actor that drifts toward its restart line stays past it once past. */
  lemma StaysPast(x: real, speed: real, dt: real, restartOn: int, dir: Direction)
    requires 0.0 <= speed && 0.0 <= dt
    requires PastRestart(x, restartOn)
    requires (restartOn < 0 && dir == ELeft) || (0 <= restartOn && dir == ERight)
    ensures PastRestart(Drift(x, speed, dt, dir), restartOn)
  {
    DriftMonotone(x, speed, dt);
  }

  /** C++ `%` on a non-negative dividend: the remainder has the dividend's
    * sign, so it lies in [0, |m| - 1] whatever the sign of m. */
  function Remainder(a: nat, m: int): (r: int)
    requires m != 0
    ensures 0 <= r < (if m < 0 then -m else m)
    ensures exists q :: a == q * m + r
  {
    var abs := if m < 0 then -m else m;
    assert a == (a / abs) * abs + a % abs;
    assert a == (if m < 0 then -(a / abs) else a / abs) * m + a % abs;
    a % abs
  }

  /** A sprite that drifts across the screen. */
  class Actor {
    var active: bool
    var speed: real
    var height: real
    var position: Vec2

    constructor (start: Vec2)
      ensures !active && speed == 0.0 && position == start
    {
      active := false;
      speed := 0.0;
      height := 0.0;
      position := start;
    }

    /** Starts the actor at initialPosition with a random speed and height:
      * speedRoll and heightRoll are the values rand() returned. */
    method InitializeWithOverflow(topSpeed: int, speedOverflow: int, maxHeight: int,
                                  heightOverflow: int, initialPosition: real,
                                  speedRoll: nat, heightRoll: nat)
      requires topSpeed != 0 && maxHeight != 0
      modifies this
      ensures active
      ensures speed == (Remainder(speedRoll, topSpeed) + speedOverflow) as real
      ensures speedOverflow as real <= speed
      ensures 0 < topSpeed ==> speed <= (speedOverflow + topSpeed - 1) as real
      ensures height == (Remainder(heightRoll, maxHeight) + heightOverflow) as real
      ensures position == Vec2(initialPosition, height)
    {
      speed := (Remainder(speedRoll, topSpeed) + speedOverflow) as real;
      height := (Remainder(heightRoll, maxHeight) + heightOverflow) as real;
      position := Vec2(initialPosition, height);
      active := true;
    }

    /** Starts the actor at initialPosition with a random speed below
      * topSpeed and a height lowered by heightOverflow. */
    method Initialize(topSpeed: int, maxHeight: int, heightOverflow: int,
                      initialPosition: real, speedRoll: nat, heightRoll: nat)
      requires topSpeed != 0 && maxHeight != 0
      modifies this
      ensures active
      ensures speed == Remainder(speedRoll, topSpeed) as real
      ensures 0.0 <= speed
      ensures 0 < topSpeed ==> speed <= (topSpeed - 1) as real
      ensures height == (Remainder(heightRoll, maxHeight) - heightOverflow) as real
      ensures position == Vec2(initialPosition, height)
    {
      speed := Remainder(speedRoll, topSpeed) as real;
      height := (Remainder(heightRoll, maxHeight) - heightOverflow) as real;
      position := Vec2(initialPosition, height);
      active := true;
    }

    /** Drifts for dt seconds; retires the actor once it is past restartOn. */
    method Move(dt: real, restartOn: int, dir: Direction)
      modifies this`position, this`active
      ensures position == Vec2(Drift(old(position.x), speed, dt, dir), old(position.y))
      ensures active == (old(active) && !PastRestart(position.x, restartOn))
    {
      var x := Drift(position.x, speed, dt, dir);
      var y := position.y;
      position := Vec2(x, y);
      x := position.x;
      if PastRestart(x, restartOn) {
        active := false;
      }
    }
  }
}
