/** The robot shooter: an input (the player reaching an up or a down target area)
    sends the robot to the upper or lower boundary, plays an effect and a success
    sound, and closes the input gate for half a second. Each frame the robot moves;
    on arrival it stops and fires one bullet. */
module RobotControl {
  import opened Engine

  const ResetDelay: real := 0.5

  /** `verticalBoundary`: the height of the upper target (its negation is the lower
      one); `hasRobot`: the robot is assigned; `hasUpEffect`/`hasDownEffect`: the
      effect and its position for that direction are assigned; `hasBullet`: the
      bullet prefab and its spawn point are assigned; `bulletHasBody`: the bullet
      prefab carries a rigid body, so it gets a velocity. */
  datatype Config = Config(
    verticalBoundary: real, bulletSpeed: real, hasRobot: bool,
    hasUpEffect: bool, hasDownEffect: bool, hasBullet: bool, bulletHasBody: bool)

  datatype RobotState = RobotState(isMoving: bool, canTrigger: bool, target: Vec3)

  const Start := RobotState(false, true, Vec3(0.0, 0.0, 0.0))

  /** The clip "MotionSuccess<n>" for the drawn suffix n in 1..5. */
  function SuccessSound(n: nat): (clip: string)
    requires 1 <= n <= 5
    ensures clip in SuccessClips
    ensures clip == SuccessClips[n - 1]
  {
    var clip := "MotionSuccess" + [('0' as int + n) as char];
    assert clip == SuccessClips[n - 1] by {
      if n == 1 { assert ('0' as int + n) as char == '1'; }
      else if n == 2 { assert ('0' as int + n) as char == '2'; }
      else if n == 3 { assert ('0' as int + n) as char == '3'; }
      else if n == 4 { assert ('0' as int + n) as char == '4'; }
      else { assert ('0' as int + n) as char == '5'; }
    }
    clip
  }

  /** An input (HandleInput): ignored while the gate is closed. A missing robot makes
      the handler fail on its first line, before any state is written. */
  function HandleInput(cfg: Config, s: RobotState, moveUp: bool, robotAt: Vec3, sound: nat): (r: Step<RobotState>)
    requires 1 <= sound <= 5
    ensures !s.canTrigger || !cfg.hasRobot ==> r == Step(s, [])
    ensures s.canTrigger && cfg.hasRobot ==>
      && r.state.isMoving && !r.state.canTrigger
      && r.state.target == Vec3(robotAt.x, if moveUp then cfg.verticalBoundary else -cfg.verticalBoundary, robotAt.z)
      && PlaySound(SuccessSound(sound)) in r.effects
      && r.effects[|r.effects| - 1] == ScheduleResetTrigger(ResetDelay)
    ensures forall e :: e in r.effects && e.Spawn? ==>
      e == (if moveUp then Spawn("upEffect", Anchor("upEffectPos")) else Spawn("downEffect", Anchor("downEffectPos")))
    ensures r.state.canTrigger ==> s.canTrigger
    ensures Scoreless(r.effects)
  {
    if !s.canTrigger || !cfg.hasRobot then Step(s, [])
    else
      var target := Vec3(robotAt.x, if moveUp then cfg.verticalBoundary else -cfg.verticalBoundary, robotAt.z);
      var effect :=
        if moveUp && cfg.hasUpEffect then [Spawn("upEffect", Anchor("upEffectPos"))]
        else if !moveUp && cfg.hasDownEffect then [Spawn("downEffect", Anchor("downEffectPos"))]
        else [];
      Step(RobotState(true, false, target), effect + [PlaySound(SuccessSound(sound)), ScheduleResetTrigger(ResetDelay)])
  }

  /** The delayed re-opening of the gate (ResetTrigger). */
  function ResetTrigger(s: RobotState): (r: RobotState)
    ensures r.canTrigger && r.isMoving == s.isMoving && r.target == s.target
  {
    s.(canTrigger := true)
  }

  /** The bullet (SpawnBullet): nothing unless the prefab and its spawn point exist. */
  function SpawnBullet(cfg: Config): (r: seq<Effect>)
    ensures !cfg.hasBullet ==> r == []
    ensures cfg.hasBullet ==> |r| > 0 && r[0] == Spawn("bulletPrefab", Anchor("bulletSpawnPoint")) && |r| <= 2
    ensures cfg.hasBullet ==> r[1..] == (if cfg.bulletHasBody then [FireBullet(cfg.bulletSpeed)] else [])
    ensures Scoreless(r)
  {
    if !cfg.hasBullet then []
    else [Spawn("bulletPrefab", Anchor("bulletSpawnPoint"))] + (if cfg.bulletHasBody then [FireBullet(cfg.bulletSpeed)] else [])
  }

  /** Whether this frame ends a move: the robot is moving, present, and arrives. */
  predicate Arrives(cfg: Config, s: RobotState, arrived: bool)
  {
    s.isMoving && cfg.hasRobot && arrived
  }

  /** One frame (Update); `arrived` is whether the move of this frame reaches the
      target. */
  function Update(cfg: Config, s: RobotState, arrived: bool): (r: Step<RobotState>)
    ensures !Arrives(cfg, s, arrived) ==> r == Step(s, [])
    ensures Arrives(cfg, s, arrived) ==> r == Step(s.(isMoving := false), SpawnBullet(cfg))
    ensures r.state.canTrigger == s.canTrigger
  {
    if !s.isMoving || !cfg.hasRobot then Step(s, [])
    else if arrived then Step(s.(isMoving := false), SpawnBullet(cfg))
    else Step(s, [])
  }

  // ---------------------------------------------------------------------------
  // Runs of events

  datatype Event = Input(moveUp: bool, robotAt: Vec3, sound: nat) | Reset | Frame(arrived: bool)

  predicate RunFits(events: seq<Event>)
  {
    forall i :: 0 <= i < |events| && events[i].Input? ==> 1 <= events[i].sound <= 5
  }

  /** The state after a run, the number of accepted inputs, the number of bullet
      spawns attempted on arrival, and all effects. */
  datatype Trace = Trace(state: RobotState, accepted: nat, arrivals: nat, effects: seq<Effect>)

  function Run(cfg: Config, s: RobotState, events: seq<Event>): Trace
    requires RunFits(events)
    decreases |events|
  {
    if |events| == 0 then Trace(s, 0, 0, [])
    else
      match events[0]
      case Input(up, at, sound) =>
        var step := HandleInput(cfg, s, up, at, sound);
        var rest := Run(cfg, step.state, events[1..]);
        Trace(rest.state, (if s.canTrigger && cfg.hasRobot then 1 else 0) + rest.accepted, rest.arrivals,
              step.effects + rest.effects)
      case Reset =>
        Run(cfg, ResetTrigger(s), events[1..])
      case Frame(arrived) =>
        var step := Update(cfg, s, arrived);
        var rest := Run(cfg, step.state, events[1..]);
        Trace(rest.state, rest.accepted, (if Arrives(cfg, s, arrived) then 1 else 0) + rest.arrivals,
              step.effects + rest.effects)
  }

  predicate NoReset(events: seq<Event>)
  {
    forall i :: 0 <= i < |events| ==> !events[i].Reset?
  }

  /** Without a scheduled reset the gate never reopens, so at most one input is
      accepted, and none once the gate is closed. */
  lemma {:induction false} OneInputPerReset(cfg: Config, s: RobotState, events: seq<Event>)
    requires RunFits(events) && NoReset(events)
    ensures Run(cfg, s, events).accepted <= (if s.canTrigger then 1 else 0)
    ensures Run(cfg, s, events).state.canTrigger ==> s.canTrigger
    decreases |events|
  {
    if |events| > 0 {
      match events[0]
      case Input(up, at, sound) =>
        OneInputPerReset(cfg, HandleInput(cfg, s, up, at, sound).state, events[1..]);
      case Frame(arrived) =>
        OneInputPerReset(cfg, Update(cfg, s, arrived).state, events[1..]);
    }
  }

  /** Every bullet comes from a move that an accepted input started: the arrivals
      never outnumber the accepted inputs (plus a move already under way). */
  lemma {:induction false} ArrivalsFollowInputs(cfg: Config, s: RobotState, events: seq<Event>)
    requires RunFits(events)
    ensures Run(cfg, s, events).arrivals + (if Run(cfg, s, events).state.isMoving then 1 else 0)
         <= Run(cfg, s, events).accepted + (if s.isMoving then 1 else 0)
    decreases |events|
  {
    if |events| > 0 {
      match events[0]
      case Input(up, at, sound) =>
        ArrivalsFollowInputs(cfg, HandleInput(cfg, s, up, at, sound).state, events[1..]);
      case Reset =>
        ArrivalsFollowInputs(cfg, ResetTrigger(s), events[1..]);
      case Frame(arrived) =>
        ArrivalsFollowInputs(cfg, Update(cfg, s, arrived).state, events[1..]);
    }
  }

  /** From the start, an input, a frame of arrival and another input without a reset
      in between: the second input is ignored and exactly one bullet is attempted. */
  lemma SecondInputNeedsReset(cfg: Config, at: Vec3)
    requires cfg.hasRobot
    ensures var events := [Input(true, at, 1), Frame(true), Input(false, at, 2)];
      && Run(cfg, Start, events).accepted == 1
      && Run(cfg, Start, events).arrivals == 1
      && Run(cfg, Start, events).state.target.y == cfg.verticalBoundary
  {
    var events := [Input(true, at, 1), Frame(true), Input(false, at, 2)];
    var moving := HandleInput(cfg, Start, true, at, 1).state;
    assert moving == RobotState(true, false, Vec3(at.x, cfg.verticalBoundary, at.z));
    var stopped := moving.(isMoving := false);
    assert Update(cfg, moving, true).state == stopped;
    assert events[1..] == [Frame(true), Input(false, at, 2)];
    assert events[1..][1..] == [Input(false, at, 2)] && events[1..][1..][1..] == [];
    assert Run(cfg, stopped, []) == Trace(stopped, 0, 0, []);
    var last := Run(cfg, stopped, events[1..][1..]);
    assert last.state == stopped && last.accepted == 0 && last.arrivals == 0;
    var middle := Run(cfg, moving, events[1..]);
    assert middle.state == stopped && middle.accepted == 0 && middle.arrivals == 1;
  }
}
