/** The element-elimination exercise: both hands must touch their target areas at
    the same time. Enter and exit events set and clear one flag per hand; every frame
    the manager first advances its 1.5-second cooldown and then fires when both flags
    are set and the cooldown is not running. A fire scores one point, destroys a
    random child of the "BloodCell" object and plays particles, sounds and haptics.
    Nothing requires a hand to leave between fires: holding both hands in place fires
    again in the frame in which the cooldown runs out. */
module ElementElimination {
  import opened Engine
  import opened Cooldown
  import opened Breakables

  const CooldownDuration: real := 1.5
  const MotionPoints: real := 1.0
  const BloodCellName: string := "BloodCell"
  const DisappearDelay: real := 0.25
  const HapticStrength: real := 0.5
  const HapticDurationMs: int := 500
  const HapticFrequency: int := 100

  /** `hasControllerParticle`: the controller particle prefab and its position are
      both assigned; `hasRobotParticle`: likewise for the robot particle. */
  datatype Config = Config(hasControllerParticle: bool, hasRobotParticle: bool)

  datatype EliminationState = EliminationState(leftTouching: bool, rightTouching: bool, gate: Gate, bloodCell: Container)

  function Initial(bloodCell: Container): EliminationState
  {
    EliminationState(false, false, Idle, bloodCell)
  }

  /** The four public input handlers. */
  datatype HandEvent = LeftEnter | LeftExit | RightEnter | RightExit

  /** A hand handler: it writes its own hand's flag and nothing else. */
  function OnHand(s: EliminationState, h: HandEvent): (r: EliminationState)
    ensures h.LeftEnter? || h.LeftExit? ==> r == s.(leftTouching := h.LeftEnter?)
    ensures h.RightEnter? || h.RightExit? ==> r == s.(rightTouching := h.RightEnter?)
  {
    match h
    case LeftEnter => s.(leftTouching := true)
    case LeftExit => s.(leftTouching := false)
    case RightEnter => s.(rightTouching := true)
    case RightExit => s.(rightTouching := false)
  }

  /** The draws one fire may use: the child to destroy and the success clip. */
  datatype Draws = Draws(child: nat, clip: nat)

  predicate DrawsFit(bloodCell: Container, d: Draws)
  {
    (ChildCount(bloodCell) > 0 ==> d.child < ChildCount(bloodCell)) && d.clip < |SuccessClips|
  }

  /** Destroys one random BloodCell child, or only warns when there is none. */
  function DestroyRandomBloodCellChild(c: Container, pick: nat): (r: Step<Container>)
    requires ChildCount(c) > 0 ==> pick < ChildCount(c)
    ensures ChildCount(c) > 0 ==>
      && c.Holding?
      && r.state == Holding(c.children[..pick] + c.children[pick + 1..])
      && multiset(r.state.children) + multiset{c.children[pick]} == multiset(c.children)
      && r.effects == [DestroyChild(BloodCellName, pick)]
    ensures ChildCount(c) == 0 ==> r == Step(c, [LogWarning("BloodCell is missing or has no children!")])
  {
    var removal := DestroyRandomChild(c, pick);
    match removal.removed
    case None => Step(c, [LogWarning("BloodCell is missing or has no children!")])
    case Some(i) => Step(removal.container, [DestroyChild(BloodCellName, i)])
  }

  /** Particles where assigned, a random success sound, the delayed disappear sound,
      and a haptic pulse on the right controller and then the left. */
  function PlaySuccessEffects(cfg: Config, clip: nat): (r: seq<Effect>)
    requires clip < |SuccessClips|
    ensures Scoreless(r)
    ensures |r| >= 4
    ensures r[|r| - 4] == PlaySound(SuccessClip(clip))
    ensures r[|r| - 2..] == [Haptic(RightController, HapticStrength, HapticDurationMs, HapticFrequency),
                             Haptic(LeftController, HapticStrength, HapticDurationMs, HapticFrequency)]
  {
    (if cfg.hasControllerParticle then [Spawn("controllerParticleEffect", Anchor("controllerParticlePos"))] else [])
    + (if cfg.hasRobotParticle then [Spawn("robotParticleEffect", Anchor("robotParticlePos"))] else [])
    + [PlaySound(SuccessClip(clip)), PlaySoundAfter("Disappear", DisappearDelay),
       Haptic(RightController, HapticStrength, HapticDurationMs, HapticFrequency),
       Haptic(LeftController, HapticStrength, HapticDurationMs, HapticFrequency)]
  }

  /** One correct motion: the point first, then the flag, the destruction and the
      effects (ExecuteCorrectMotion with TriggerMotionEffects). */
  function ExecuteCorrectMotion(cfg: Config, s: EliminationState, d: Draws): (r: Step<EliminationState>)
    requires DrawsFit(s.bloodCell, d)
    ensures PointsIn(r.effects) == MotionPoints
    ensures |r.effects| > 0 && r.effects[0] == AddScore(MotionPoints)
    ensures r.state.gate == Gate(true, s.gate.timer)
    ensures r.state.leftTouching == s.leftTouching && r.state.rightTouching == s.rightTouching
    ensures ChildCount(r.state.bloodCell) == if ChildCount(s.bloodCell) > 0 then ChildCount(s.bloodCell) - 1 else 0
  {
    var destroyed := DestroyRandomBloodCellChild(s.bloodCell, d.child);
    var rest := destroyed.effects + PlaySuccessEffects(cfg, d.clip);
    assert Scoreless(rest);
    OneScoreCall([], MotionPoints, rest);
    assert [] + [AddScore(MotionPoints)] + rest == [AddScore(MotionPoints)] + rest;
    Step(s.(gate := s.gate.(triggered := true), bloodCell := destroyed.state), [AddScore(MotionPoints)] + rest)
  }

  /** Whether the frame's trigger test passes after the cooldown step. */
  predicate Fires(s: EliminationState, dt: real)
  {
    s.leftTouching && s.rightTouching && !Advance(s.gate, dt, CooldownDuration).triggered
  }

  /** One frame (Update): the cooldown is advanced first, then the two-hand test. */
  function Update(cfg: Config, s: EliminationState, dt: real, d: Draws): (r: Step<EliminationState>)
    requires DrawsFit(s.bloodCell, d)
    ensures !Fires(s, dt) ==> r == Step(s.(gate := Advance(s.gate, dt, CooldownDuration)), [])
    ensures Fires(s, dt) ==> r.state.gate.triggered && |r.effects| > 0 && r.effects[0] == AddScore(MotionPoints)
    ensures PointsIn(r.effects) == if Fires(s, dt) then MotionPoints else 0.0
    ensures WellFormed(s.gate, CooldownDuration) && dt >= 0.0 ==>
      WellFormed(r.state.gate, CooldownDuration) && (Fires(s, dt) ==> r.state.gate == JustFired)
    ensures r.state.leftTouching == s.leftTouching && r.state.rightTouching == s.rightTouching
  {
    var cooled := s.(gate := Advance(s.gate, dt, CooldownDuration));
    if cooled.leftTouching && cooled.rightTouching && !cooled.gate.triggered then
      ExecuteCorrectMotion(cfg, cooled, d)
    else
      Step(cooled, [])
  }

  // ---------------------------------------------------------------------------
  // Runs of events

  datatype Event = Hand(hand: HandEvent) | Frame(dt: real, draws: Draws)

  /** The state after a run, the number of fires, and all effects requested. */
  datatype Trace = Trace(state: EliminationState, fires: nat, effects: seq<Effect>)

  ghost predicate RunFits(s: EliminationState, events: seq<Event>)
    decreases |events|
  {
    |events| == 0 ||
    match events[0]
    case Hand(h) => RunFits(OnHand(s, h), events[1..])
    case Frame(dt, d) => DrawsFit(s.bloodCell, d) && RunFits(Update(Config(false, false), s, dt, d).state, events[1..])
  }

  /** The effect flags change only effects, never the state. */
  lemma StateIgnoresConfig(cfg: Config, s: EliminationState, dt: real, d: Draws)
    requires DrawsFit(s.bloodCell, d)
    ensures Update(cfg, s, dt, d).state == Update(Config(false, false), s, dt, d).state
  {
  }

  function Run(cfg: Config, s: EliminationState, events: seq<Event>): Trace
    requires RunFits(s, events)
    decreases |events|
  {
    if |events| == 0 then Trace(s, 0, [])
    else
      match events[0]
      case Hand(h) => Run(cfg, OnHand(s, h), events[1..])
      case Frame(dt, d) =>
        StateIgnoresConfig(cfg, s, dt, d);
        var step := Update(cfg, s, dt, d);
        var rest := Run(cfg, step.state, events[1..]);
        Trace(rest.state, (if Fires(s, dt) then 1 else 0) + rest.fires, step.effects + rest.effects)
  }

  /** The frame durations of a run, in order. */
  function Frames(events: seq<Event>): (dts: seq<real>)
    ensures |dts| <= |events|
  {
    if |events| == 0 then []
    else (if events[0].Frame? then [events[0].dt] else []) + Frames(events[1..])
  }

  predicate FramesNonNegative(events: seq<Event>)
  {
    forall i :: 0 <= i < |events| && events[i].Frame? ==> events[i].dt >= 0.0
  }

  lemma {:induction false} FrameTimeNonNegative(events: seq<Event>)
    requires FramesNonNegative(events)
    ensures AllNonNegative(Frames(events)) && Sum(Frames(events)) >= 0.0
    decreases |events|
  {
    if |events| > 0 {
      FrameTimeNonNegative(events[1..]);
      var rest := Frames(events[1..]);
      var own := if events[0].Frame? then [events[0].dt] else [];
      assert Frames(events) == own + rest;
      assert forall i :: 0 <= i < |rest| ==> (own + rest)[|own| + i] == rest[i];
    }
    SumNonNegative(Frames(events));
  }

  /** The time a run's frames take: a frame adds its duration, a hand event none. */
  lemma FrameTimeStep(events: seq<Event>)
    requires |events| > 0
    ensures Sum(Frames(events)) == (if events[0].Frame? then events[0].dt else 0.0) + Sum(Frames(events[1..]))
  {
    var rest := Frames(events[1..]);
    if events[0].Frame? {
      assert ([events[0].dt] + rest)[1..] == rest;
    } else {
      assert [] + rest == rest;
    }
  }

  /** Every fire scores exactly one point and nothing else scores. */
  lemma {:induction false} PointsMatchFires(cfg: Config, s: EliminationState, events: seq<Event>)
    requires RunFits(s, events)
    ensures PointsIn(Run(cfg, s, events).effects) == MotionPoints * Run(cfg, s, events).fires as real
    decreases |events|
  {
    if |events| > 0 {
      match events[0]
      case Hand(h) =>
        PointsMatchFires(cfg, OnHand(s, h), events[1..]);
      case Frame(dt, d) =>
        StateIgnoresConfig(cfg, s, dt, d);
        var step := Update(cfg, s, dt, d);
        PointsMatchFires(cfg, step.state, events[1..]);
        PointsInAppend(step.effects, Run(cfg, step.state, events[1..]).effects);
    }
  }

  /** With a well-formed cooldown at the start and no negative frame, the cooldown
      stays well formed: a lowered flag always has a zero timer. */
  lemma {:induction false} GateStaysWellFormed(cfg: Config, s: EliminationState, events: seq<Event>)
    requires RunFits(s, events) && FramesNonNegative(events) && WellFormed(s.gate, CooldownDuration)
    ensures WellFormed(Run(cfg, s, events).state.gate, CooldownDuration)
    decreases |events|
  {
    if |events| > 0 {
      match events[0]
      case Hand(h) =>
        GateStaysWellFormed(cfg, OnHand(s, h), events[1..]);
      case Frame(dt, d) =>
        StateIgnoresConfig(cfg, s, dt, d);
        GateStaysWellFormed(cfg, Update(cfg, s, dt, d).state, events[1..]);
    }
  }

  /** While the cooldown is running, nothing fires, whatever the hands do: the
      BloodCell object is untouched and the gate is the one the frames of the run
      alone would leave. */
  lemma {:induction false} CooldownOnlyElapses(cfg: Config, s: EliminationState, events: seq<Event>)
    requires RunFits(s, events) && FramesNonNegative(events)
    requires s.gate.triggered && s.gate.timer + Sum(Frames(events)) < CooldownDuration
    ensures Run(cfg, s, events).fires == 0
    ensures Run(cfg, s, events).state.gate == Elapse(s.gate, Frames(events), CooldownDuration)
    ensures Run(cfg, s, events).state.bloodCell == s.bloodCell
    decreases |events|
  {
    if |events| > 0 {
      FrameTimeStep(events);
      FrameTimeNonNegative(events[1..]);
      match events[0]
      case Hand(h) =>
        assert Frames(events) == [] + Frames(events[1..]) == Frames(events[1..]);
        CooldownOnlyElapses(cfg, OnHand(s, h), events[1..]);
      case Frame(dt, d) =>
        assert Frames(events) == [dt] + Frames(events[1..]);
        assert ([dt] + Frames(events[1..]))[1..] == Frames(events[1..]);
        StateIgnoresConfig(cfg, s, dt, d);
        CooldownOnlyElapses(cfg, Update(cfg, s, dt, d).state, events[1..]);
    }
  }

  /** While the running cooldown has not reached 1.5 seconds of frames, nothing
      fires, whatever the hands do; only the hand flags and the timer change, and
      the timer is exactly the frame time elapsed. */
  lemma NothingFiresDuringCooldown(cfg: Config, s: EliminationState, events: seq<Event>)
    requires RunFits(s, events) && FramesNonNegative(events)
    requires s.gate.triggered && s.gate.timer + Sum(Frames(events)) < CooldownDuration
    ensures Run(cfg, s, events).fires == 0
    ensures Run(cfg, s, events).state.gate == Gate(true, s.gate.timer + Sum(Frames(events)))
    ensures Run(cfg, s, events).state.bloodCell == s.bloodCell
    ensures PointsIn(Run(cfg, s, events).effects) == 0.0
  {
    PointsMatchFires(cfg, s, events);
    CooldownOnlyElapses(cfg, s, events);
    FrameTimeNonNegative(events);
    ElapseTriggeredIff(s.gate.timer, Frames(events), CooldownDuration);
  }

  /** The test is on the level, not the edge: with both hands still held, the frame
      in which the cooldown runs out fires again. */
  lemma HeldHandsRefireWhenCooldownEnds(cfg: Config, s: EliminationState, dt: real, d: Draws)
    requires DrawsFit(s.bloodCell, d)
    requires s.leftTouching && s.rightTouching && s.gate.triggered && s.gate.timer + dt >= CooldownDuration
    ensures Fires(s, dt)
    ensures PointsIn(Update(cfg, s, dt, d).effects) == MotionPoints
    ensures Update(cfg, s, dt, d).state.gate == JustFired
  {
  }

  /** Two hands entering and then staying put for two frames 1.5 seconds apart
      score two points without ever leaving. */
  lemma HoldingScoresTwice(cfg: Config, d1: Draws, d2: Draws)
    requires d1.clip < |SuccessClips| && d2.clip < |SuccessClips| && d1.child == 0 && d2.child == 0
    ensures var events := [Hand(LeftEnter), Hand(RightEnter), Frame(0.0, d1), Frame(1.5, d2)];
      RunFits(Initial(Missing), events)
      && Run(cfg, Initial(Missing), events).fires == 2
      && PointsIn(Run(cfg, Initial(Missing), events).effects) == 2.0 * MotionPoints
  {
    var events := [Hand(LeftEnter), Hand(RightEnter), Frame(0.0, d1), Frame(1.5, d2)];
    var held := EliminationState(true, true, Idle, Missing);
    assert OnHand(OnHand(Initial(Missing), LeftEnter), RightEnter) == held;
    var first := Update(Config(false, false), held, 0.0, d1).state;
    assert first == EliminationState(true, true, JustFired, Missing);
    var second := Update(Config(false, false), first, 1.5, d2).state;
    assert events[1..][1..][1..][1..] == [];
    assert RunFits(second, []);
    assert RunFits(first, events[3..]);
    assert RunFits(held, events[2..]);
    assert RunFits(OnHand(Initial(Missing), LeftEnter), events[1..]);
    assert Fires(held, 0.0) && Fires(first, 1.5);
    assert Run(cfg, second, []).fires == 0;
    assert Run(cfg, first, events[3..]).fires == 1;
    assert Run(cfg, held, events[2..]).fires == 2;
    PointsMatchFires(cfg, Initial(Missing), events);
  }
}
