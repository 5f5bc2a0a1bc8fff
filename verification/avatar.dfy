/** The player's kinematic and state controller: `Avatar` in main.py:74-202.
    The engine node it drives is replaced by plain fields; the position update
    of `move` happens in the node's rotated frame and is not part of this model. */
module AvatarModel {
  import opened Vectors
  import opened Modes

  const LandGapPermission := 5
  const JumpThrustInterval := 10

  const SpaceSpeed: real := -8.0
  const MaxVelocityTerrain: Vec3 := Triple(5.0, 15.0, 0.0)
  const MaxVelocitySpace: Vec3 := Triple(5.0, SpaceSpeed, 5.0)
  const AccelerationTerrain: Vec3 := Triple(1.0, 5.0, 0.0)
  const AccelerationSpace: Vec3 := Triple(-1.0, 0.0, -1.0)

  /** Collision nodes named with this prefix are ground. */
  const GroundPrefix := "Ground"
  /** The name of every asteroid's collision node. */
  const AsteroidCollisionName := "asteroid"

  /** The held state of the keys the game listens to. */
  datatype Keys = Keys(w: bool, s: bool, a: bool, d: bool, space: bool, escape: bool)

  const NoKeys := Keys(false, false, false, false, false, false)

  /** `jumpForceAttached` stands for the engine effect of adding the upward
      jump force to the avatar's physical node and removing it again. */
  datatype Avatar = Avatar(
    speed: Vec3,
    yawRot: real,
    landed: bool,
    landGap: int,
    jumpThrusting: bool,
    jumpThrustCounter: int,
    alive: bool,
    jumpForceAttached: bool)

  /** The counter and land-gap bounds every reachable avatar keeps. */
  predicate Valid(a: Avatar) {
    && 0 <= a.jumpThrustCounter <= JumpThrustInterval
    && (!a.jumpThrusting ==> a.jumpThrustCounter == JumpThrustInterval)
    && 0 <= a.landGap <= LandGapPermission
  }

  /** The jump force is attached exactly while a thrust is under way. */
  predicate ForceTracksThrust(a: Avatar) {
    a.jumpForceAttached == a.jumpThrusting
  }

  /** `reset`: zero speed and heading, not landed, no thrust, alive. It does not
      detach a jump force that is still attached. */
  function Reset(a: Avatar): (r: Avatar)
    ensures Valid(r) && r.alive
    ensures r.speed == Zero && r.yawRot == 0.0
    ensures !r.landed && r.landGap == 0
    ensures !r.jumpThrusting && r.jumpThrustCounter == JumpThrustInterval
    ensures r.jumpForceAttached == a.jumpForceAttached
  {
    Avatar(Zero, 0.0, false, 0, false, JumpThrustInterval, true, a.jumpForceAttached)
  }

  /** A freshly constructed avatar, on a node with no force attached. */
  function NewAvatar(): (r: Avatar)
    ensures Valid(r) && ForceTracksThrust(r) && r.alive
  {
    Reset(Avatar(Zero, 0.0, false, 0, false, JumpThrustInterval, true, false))
  }

  /** The jump-counter part of `move`: while thrusting the avatar is airborne,
      the counter climbs to the interval, and the move after it reaches the
      interval removes the force and ends the thrust. */
  function Move(a: Avatar): (r: Avatar)
    ensures r.speed == a.speed && r.yawRot == a.yawRot && r.alive == a.alive && r.landGap == a.landGap
    ensures !a.jumpThrusting ==> r == a
    ensures a.jumpThrusting ==> !r.landed
    ensures a.jumpThrusting && a.jumpThrustCounter < JumpThrustInterval ==>
      r.jumpThrusting && r.jumpThrustCounter == a.jumpThrustCounter + 1 && r.jumpForceAttached == a.jumpForceAttached
    ensures a.jumpThrusting && a.jumpThrustCounter >= JumpThrustInterval ==>
      !r.jumpThrusting && !r.jumpForceAttached && r.jumpThrustCounter == a.jumpThrustCounter
    ensures Valid(a) ==> Valid(r)
    ensures ForceTracksThrust(a) ==> ForceTracksThrust(r)
  {
    if a.jumpThrusting then
      if a.jumpThrustCounter < JumpThrustInterval then
        a.(landed := false, jumpThrustCounter := a.jumpThrustCounter + 1)
      else
        a.(landed := false, jumpForceAttached := false, jumpThrusting := false)
    else a
  }

  function B2R(b: bool): real {
    if b then 1.0 else 0.0
  }

  /** The speed after the held keys' accelerations, before clamping. On terrain
      w/s drive axis 1 and a/d axis 0; in space w/s drive axis 2, a/d axis 0,
      and axis 1 is pinned to the space speed. */
  function Accelerate(v: Vec3, keys: Keys, mode: PlayMode): (r: Vec3)
    ensures var acc := if mode == Terrain then AccelerationTerrain else AccelerationSpace;
      && (keys.a == keys.d ==> r.x == v.x)
      && (keys.d && !keys.a ==> r.x == v.x + acc.x)
      && (keys.a && !keys.d ==> r.x == v.x - acc.x)
    ensures var acc := if mode == Terrain then AccelerationTerrain else AccelerationSpace;
      var fwd: Axis := if mode == Terrain then 1 else 2;
      && (keys.w == keys.s ==> r.At(fwd) == v.At(fwd))
      && (keys.w && !keys.s ==> r.At(fwd) == v.At(fwd) + acc.At(fwd))
      && (keys.s && !keys.w ==> r.At(fwd) == v.At(fwd) - acc.At(fwd))
    ensures mode == Terrain ==> r.z == v.z
    ensures mode == Space ==> r.y == SpaceSpeed
  {
    match mode
    case Terrain =>
      Triple(
        v.x - B2R(keys.a) * AccelerationTerrain.x + B2R(keys.d) * AccelerationTerrain.x,
        v.y + B2R(keys.w) * AccelerationTerrain.y - B2R(keys.s) * AccelerationTerrain.y,
        v.z)
    case Space =>
      Triple(
        v.x - B2R(keys.a) * AccelerationSpace.x + B2R(keys.d) * AccelerationSpace.x,
        SpaceSpeed,
        v.z + B2R(keys.w) * AccelerationSpace.z - B2R(keys.s) * AccelerationSpace.z)
  }

  function SpeedBound(mode: PlayMode): Vec3 {
    if mode == Terrain then MaxVelocityTerrain else MaxVelocitySpace
  }

  /** One component of the speed clamp: a value whose magnitude exceeds the
      bound snaps to whichever of `-bound` and `bound` lies nearer, `-bound`
      when both are equally near (Python's `min` keeps the first). */
  function Clamp(v: real, bound: real): (r: real)
    ensures Abs(v) <= bound ==> r == v
    ensures Abs(v) > bound ==> (r == bound || r == -bound)
    ensures Abs(v) > bound ==> Abs(v - r) <= Abs(v - bound) && Abs(v - r) <= Abs(v + bound)
    ensures Abs(v) > bound && Abs(v + bound) == Abs(v - bound) ==> r == -bound
    ensures bound >= 0.0 ==> Abs(r) <= bound
    ensures bound >= 0.0 && v > bound ==> r == bound
    ensures bound >= 0.0 && v < -bound ==> r == -bound
  {
    if Abs(v) > bound then
      if Abs(v - (-bound)) <= Abs(v - bound) then -bound else bound
    else v
  }

  function ClampAll(v: Vec3, bound: Vec3): (r: Vec3)
    ensures forall i: Axis :: r.At(i) == Clamp(v.At(i), bound.At(i))
  {
    Triple(Clamp(v.x, bound.x), Clamp(v.y, bound.y), Clamp(v.z, bound.z))
  }

  /** Whether the held keys start a jump thrust this frame. */
  predicate StartsThrust(a: Avatar, keys: Keys) {
    keys.space && a.landed && a.jumpThrustCounter == JumpThrustInterval && !a.jumpThrusting
  }

  /** `handleKeys`: accelerate, clamp every component, maybe start a thrust,
      then advance the land-gap debounce. */
  function HandleKeys(a: Avatar, keys: Keys, mode: PlayMode): (r: Avatar)
    ensures var v := Accelerate(a.speed, keys, mode); var b := SpeedBound(mode);
      forall i: Axis ::
        && (b.At(i) >= 0.0 ==> Abs(r.speed.At(i)) <= b.At(i))
        && (Abs(v.At(i)) <= b.At(i) ==> r.speed.At(i) == v.At(i))
        && (b.At(i) >= 0.0 && v.At(i) > b.At(i) ==> r.speed.At(i) == b.At(i))
        && (b.At(i) >= 0.0 && v.At(i) < -b.At(i) ==> r.speed.At(i) == -b.At(i))
    ensures mode == Terrain ==> r.speed.z == 0.0
    ensures mode == Space ==> r.speed.y == SpaceSpeed
    ensures StartsThrust(a, keys) ==>
      r.jumpThrusting && r.jumpThrustCounter == 0 && !r.landed && r.jumpForceAttached
    ensures !StartsThrust(a, keys) ==>
      r.jumpThrusting == a.jumpThrusting && r.jumpThrustCounter == a.jumpThrustCounter
      && r.jumpForceAttached == a.jumpForceAttached
    ensures a.landGap >= LandGapPermission ==> !r.landed && r.landGap == a.landGap
    ensures 0 < a.landGap < LandGapPermission ==> r.landGap == a.landGap + 1
    ensures a.landGap <= 0 ==> r.landGap == a.landGap
    ensures r.landed ==> a.landed
    ensures !StartsThrust(a, keys) && a.landGap < LandGapPermission ==> r.landed == a.landed
    ensures r.alive == a.alive && r.yawRot == a.yawRot
    ensures Valid(a) ==> Valid(r)
    ensures ForceTracksThrust(a) ==> ForceTracksThrust(r)
  {
    var clamped := a.(speed := ClampAll(Accelerate(a.speed, keys, mode), SpeedBound(mode)));
    var jumped :=
      if StartsThrust(clamped, keys) then
        clamped.(landed := false, jumpThrusting := true, jumpThrustCounter := 0, jumpForceAttached := true)
      else clamped;
    if jumped.landGap >= LandGapPermission then jumped.(landed := false)
    else if jumped.landGap > 0 then jumped.(landGap := jumped.landGap + 1)
    else jumped
  }

  datatype CollisionKind = In | Out

  /** `handleCollisionEvent`: entering ground lands the avatar and clears the
      gap, leaving ground starts the gap count, entering an asteroid kills. */
  function HandleCollisionEvent(a: Avatar, kind: CollisionKind, name: string): (r: Avatar)
    ensures kind == In && GroundPrefix <= name ==> r == a.(landed := true, landGap := 0)
    ensures kind == Out && GroundPrefix <= name ==> r == a.(landGap := 1)
    ensures kind == In && name == AsteroidCollisionName ==> r == a.(alive := false)
    ensures !(GroundPrefix <= name) && !(kind == In && name == AsteroidCollisionName) ==> r == a
    ensures Valid(a) ==> Valid(r)
    ensures ForceTracksThrust(a) ==> ForceTracksThrust(r)
  {
    match kind
    case In =>
      assert !(GroundPrefix <= AsteroidCollisionName) by {
        assert AsteroidCollisionName[0] != GroundPrefix[0];
      }
      var grounded := if GroundPrefix <= name then a.(landed := true, landGap := 0) else a;
      if name == AsteroidCollisionName then grounded.(alive := false) else grounded
    case Out =>
      if GroundPrefix <= name then a.(landGap := 1) else a
  }

  /** `n` consecutive calls of `move`. */
  function MoveTimes(a: Avatar, n: nat): Avatar {
    if n == 0 then a else Move(MoveTimes(a, n - 1))
  }

  /** Once a thrust is under way with the counter at `c`, the next
      `interval - c` moves keep it going and count up one per move. */
  lemma {:induction false} ThrustContinues(a: Avatar, n: nat)
    requires a.jumpThrusting && 0 <= a.jumpThrustCounter
    requires n <= JumpThrustInterval - a.jumpThrustCounter
    ensures MoveTimes(a, n).jumpThrusting
    ensures MoveTimes(a, n).jumpThrustCounter == a.jumpThrustCounter + n
  {
    if n > 0 {
      ThrustContinues(a, n - 1);
    }
  }

  /** A thrust started at counter 0 ends on exactly the `interval + 1`-th move:
      it lasts `interval` moves and the force comes off on the one after. */
  lemma ThrustWindow(a: Avatar)
    requires a.jumpThrusting && a.jumpThrustCounter == 0
    ensures forall n: nat | n <= JumpThrustInterval :: MoveTimes(a, n).jumpThrusting
    ensures !MoveTimes(a, JumpThrustInterval + 1).jumpThrusting
    ensures !MoveTimes(a, JumpThrustInterval + 1).jumpForceAttached
  {
    forall n: nat | n <= JumpThrustInterval ensures MoveTimes(a, n).jumpThrusting {
      ThrustContinues(a, n);
    }
    ThrustContinues(a, JumpThrustInterval);
  }

  /** `handleKeys` applied to each key state of `ks` in turn. */
  function HandleKeysSeq(a: Avatar, ks: seq<Keys>, mode: PlayMode): Avatar
    decreases |ks|
  {
    if |ks| == 0 then a else HandleKeysSeq(HandleKeys(a, ks[0], mode), ks[1..], mode)
  }

  function Min(a: int, b: int): int {
    if a <= b then a else b
  }

  /** After leaving the ground (gap 1, or any gap g in 1..5), with no jump and
      no collision in between, the gap climbs one per frame up to the
      permission and the avatar stays landed until a frame starts with the gap
      at the permission: with g = 1 that is the fifth frame. */
  lemma {:induction false} LandGapCountdown(a: Avatar, ks: seq<Keys>, mode: PlayMode)
    requires 1 <= a.landGap <= LandGapPermission
    requires forall k | 0 <= k < |ks| :: !ks[k].space
    ensures HandleKeysSeq(a, ks, mode).landGap == Min(a.landGap + |ks|, LandGapPermission)
    ensures HandleKeysSeq(a, ks, mode).landed == (a.landed && a.landGap + |ks| <= LandGapPermission)
    decreases |ks|
  {
    if |ks| > 0 {
      var b := HandleKeys(a, ks[0], mode);
      assert !StartsThrust(a, ks[0]);
      LandGapCountdown(b, ks[1..], mode);
    }
  }

  /** The things that can happen to an avatar during play, `reset` excepted. */
  datatype AvatarEvent =
    | Moved
    | KeysHeld(keys: Keys, mode: PlayMode)
    | Collided(kind: CollisionKind, name: string)

  function Apply(a: Avatar, e: AvatarEvent): Avatar {
    match e
    case Moved => Move(a)
    case KeysHeld(keys, mode) => HandleKeys(a, keys, mode)
    case Collided(kind, name) => HandleCollisionEvent(a, kind, name)
  }

  function Run(a: Avatar, es: seq<AvatarEvent>): Avatar
    decreases |es|
  {
    if |es| == 0 then a else Run(Apply(a, es[0]), es[1..])
  }

  /** Death is terminal: no sequence of moves, key frames and collisions brings
      a dead avatar back; only `Reset` does. The counter bounds and the
      force/thrust correspondence hold throughout. */
  lemma {:induction false} RunKeepsInvariants(a: Avatar, es: seq<AvatarEvent>)
    ensures !a.alive ==> !Run(a, es).alive
    ensures Valid(a) ==> Valid(Run(a, es))
    ensures ForceTracksThrust(a) ==> ForceTracksThrust(Run(a, es))
    decreases |es|
  {
    if |es| > 0 {
      RunKeepsInvariants(Apply(a, es[0]), es[1..]);
    }
  }

  /** An asteroid hit kills; a reset revives. */
  lemma AsteroidHitThenReset(a: Avatar)
    ensures !HandleCollisionEvent(a, In, AsteroidCollisionName).alive
    ensures Reset(HandleCollisionEvent(a, In, AsteroidCollisionName)).alive
  {
  }
}
