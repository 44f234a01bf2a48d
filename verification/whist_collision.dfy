/** The whistle pulse: every frame the manager tests whether the whistle's box
    overlaps the target area's box. The frame on which an overlap begins fires once,
    spawning an energy projectile with its particles and sound; the overlap must end
    before another can fire. The manager never scores. */
module WhistCollision {
  import opened Engine

  /** `collidersReady`: both boxes were set up at start (the target area exists;
      the whistle defaults to the manager's own object); `hasPrefabAndPoint`: the
      energy prefab and its spawn point are assigned; `hasParticle`: the particle
      system is assigned; `hasTargetEffect`: the target effect and its position are
      assigned; `speed`: the projectile speed. */
  datatype Config = Config(collidersReady: bool, hasPrefabAndPoint: bool, hasParticle: bool, hasTargetEffect: bool, speed: real)

  datatype WhistState = WhistState(isColliding: bool, hasTriggered: bool)

  const Start := WhistState(false, false)

  /** The flag of the current overlap mirrors the overlap itself. */
  predicate Inv(s: WhistState)
  {
    s.hasTriggered == s.isColliding
  }

  /** The pulse (SpawnAndMovePrefab): nothing but an error unless the prefab and its
      spawn point are assigned; then the projectile, the particles or a warning, the
      target effect with a success sound where assigned, and the +z flight. */
  function SpawnAndMovePrefab(cfg: Config, clip: nat): (r: seq<Effect>)
    requires clip < |SuccessClips|
    ensures Scoreless(r)
    ensures !cfg.hasPrefabAndPoint ==> r == [LogError("Energy Prefab or Energy Point missing in Inspector!")]
    ensures cfg.hasPrefabAndPoint ==>
      && |r| >= 3 && r[0] == Spawn("energyPrefab", Anchor("energyPoint"))
      && r[|r| - 1] == LaunchProjectile(cfg.speed)
  {
    if !cfg.hasPrefabAndPoint then [LogError("Energy Prefab or Energy Point missing in Inspector!")]
    else
      [Spawn("energyPrefab", Anchor("energyPoint"))]
      + (if cfg.hasParticle then [PlayParticles] else [LogWarning("Particle System not assigned in Inspector!")])
      + (if cfg.hasTargetEffect then
           [Spawn("TargetCollisionEffect", Anchor("TargetCollisionEffectPosition")), PlaySound(SuccessClip(clip))]
         else [])
      + [LaunchProjectile(cfg.speed)]
  }

  /** One frame's outcome: the state, whether the pulse fired, and its effects. */
  datatype Tick = Tick(state: WhistState, fired: bool, effects: seq<Effect>)

  /** One frame (Update) with this frame's overlap and the draw of the success clip. */
  function Update(cfg: Config, s: WhistState, overlap: bool, clip: nat): (r: Tick)
    requires clip < |SuccessClips|
    ensures !cfg.collidersReady ==> r == Tick(s, false, [])
    ensures r.fired <==> cfg.collidersReady && overlap && !s.isColliding && !s.hasTriggered
    ensures r.fired ==> r.state.hasTriggered && r.effects == SpawnAndMovePrefab(cfg, clip)
    ensures !r.fired ==> r.effects == []
    ensures cfg.collidersReady ==> r.state.isColliding == overlap
    ensures cfg.collidersReady && !overlap && s.isColliding ==> !r.state.hasTriggered
    ensures Inv(s) ==> Inv(r.state)
    ensures Scoreless(r.effects)
  {
    if !cfg.collidersReady then Tick(s, false, [])
    else if overlap then
      if !s.isColliding && !s.hasTriggered then
        Tick(WhistState(true, true), true, SpawnAndMovePrefab(cfg, clip))
      else
        Tick(s.(isColliding := true), false, [])
    else
      Tick(WhistState(false, if s.isColliding then false else s.hasTriggered), false, [])
  }

  /** The number of false-to-true changes in a sequence of overlaps that follows
      the value `before`. */
  function RisingEdges(before: bool, overlaps: seq<bool>): nat
    decreases |overlaps|
  {
    if |overlaps| == 0 then 0
    else (if overlaps[0] && !before then 1 else 0) + RisingEdges(overlaps[0], overlaps[1..])
  }

  /** The frames of a run: the overlap and the clip draw of each. */
  datatype Frame = Frame(overlap: bool, clip: nat)

  predicate RunFits(frames: seq<Frame>)
  {
    forall i :: 0 <= i < |frames| ==> frames[i].clip < |SuccessClips|
  }

  function Overlaps(frames: seq<Frame>): (r: seq<bool>)
    ensures |r| == |frames|
    ensures forall i :: 0 <= i < |frames| ==> r[i] == frames[i].overlap
  {
    seq(|frames|, i requires 0 <= i < |frames| => frames[i].overlap)
  }

  datatype Trace = Trace(state: WhistState, fires: nat, effects: seq<Effect>)

  function Run(cfg: Config, s: WhistState, frames: seq<Frame>): Trace
    requires RunFits(frames)
    decreases |frames|
  {
    if |frames| == 0 then Trace(s, 0, [])
    else
      var t := Update(cfg, s, frames[0].overlap, frames[0].clip);
      var rest := Run(cfg, t.state, frames[1..]);
      Trace(rest.state, (if t.fired then 1 else 0) + rest.fires, t.effects + rest.effects)
  }

  /** Once the colliders are set up, the pulse fires exactly once per beginning of an
      overlap, counting from the current overlap state, and the consistency of the
      two flags is kept. */
  lemma {:induction false} FiresCountRisingEdges(cfg: Config, s: WhistState, frames: seq<Frame>)
    requires RunFits(frames) && cfg.collidersReady && Inv(s)
    ensures Run(cfg, s, frames).fires == RisingEdges(s.isColliding, Overlaps(frames))
    ensures Inv(Run(cfg, s, frames).state)
    ensures |frames| > 0 ==> Run(cfg, s, frames).state.isColliding == frames[|frames| - 1].overlap
    decreases |frames|
  {
    if |frames| > 0 {
      var t := Update(cfg, s, frames[0].overlap, frames[0].clip);
      FiresCountRisingEdges(cfg, t.state, frames[1..]);
      assert Overlaps(frames)[1..] == Overlaps(frames[1..]);
      if |frames| > 1 {
        assert frames[1..][|frames[1..]| - 1] == frames[|frames| - 1];
      }
    }
  }

  /** Without colliders the manager stays exactly as it was and does nothing. */
  lemma {:induction false} NoCollidersNoChange(cfg: Config, s: WhistState, frames: seq<Frame>)
    requires RunFits(frames) && !cfg.collidersReady
    ensures Run(cfg, s, frames) == Trace(s, 0, [])
    decreases |frames|
  {
    if |frames| > 0 {
      NoCollidersNoChange(cfg, s, frames[1..]);
    }
  }

  /** The pulse never calls into the score manager. */
  lemma {:induction false} NeverScores(cfg: Config, s: WhistState, frames: seq<Frame>)
    requires RunFits(frames)
    ensures PointsIn(Run(cfg, s, frames).effects) == 0.0
    decreases |frames|
  {
    if |frames| > 0 {
      var t := Update(cfg, s, frames[0].overlap, frames[0].clip);
      NeverScores(cfg, t.state, frames[1..]);
      ScorelessHasNoPoints(t.effects);
      PointsInAppend(t.effects, Run(cfg, t.state, frames[1..]).effects);
    }
  }

  /** Overlaps true, true, true, false, true from the start fire exactly twice. */
  lemma TwoOverlapsFireTwice(cfg: Config)
    requires cfg.collidersReady
    ensures var frames := [Frame(true, 0), Frame(true, 0), Frame(true, 0), Frame(false, 0), Frame(true, 0)];
      Run(cfg, Start, frames).fires == 2
  {
    var frames := [Frame(true, 0), Frame(true, 0), Frame(true, 0), Frame(false, 0), Frame(true, 0)];
    FiresCountRisingEdges(cfg, Start, frames);
    assert Overlaps(frames) == [true, true, true, false, true];
    assert RisingEdges(false, [true, true, true, false, true]) == 2;
  }
}
