/** The foot-balance exercise: the player alternately lifts the left and right foot
    into one shared target area. The first entry may be by either foot; after each
    accepted entry only the other foot is accepted. An accepted entry destroys one
    random child of the "Chaos" object, plays effects, awards half a point and
    starts a one-second cooldown during which every entry is ignored. Entries arrive
    as trigger-enter events from the feet; the cooldown advances once per frame. */
module EnergyBalance {
  import opened Engine
  import opened Cooldown
  import opened Breakables

  const CooldownDuration: real := 1.0
  const StepPoints: real := 0.5
  const ChaosName: string := "Chaos"
  const DestroySoundDelay: real := 0.25

  datatype Foot = LeftFoot | RightFoot

  /** Which foot the next accepted entry must be (NextFootTrigger). */
  datatype NextFoot = NextRight | NextLeft | NextAny

  /** Whether an entry by `foot` is the expected one (the source's correctFoot). */
  predicate Accepts(next: NextFoot, foot: Foot)
  {
    next.NextAny? || (foot.LeftFoot? && next.NextLeft?) || (foot.RightFoot? && next.NextRight?)
  }

  /** The requirement after an accepted entry by `foot`: the other foot. */
  function NextAfter(foot: Foot): (n: NextFoot)
    ensures !n.NextAny? && !Accepts(n, foot)
  {
    if foot.LeftFoot? then NextRight else NextLeft
  }

  /** `hasParticleEffect`: the destroyed-child particle prefab is assigned;
      `hasPointEffect`: both the global effect prefab and its anchor are assigned;
      `upTargetArea`: the identity of the shared target area, if assigned. */
  datatype Config = Config(hasParticleEffect: bool, hasPointEffect: bool, upTargetArea: Option<nat>)

  datatype BalanceState = BalanceState(next: NextFoot, gate: Gate, chaos: Container)

  function Initial(chaos: Container): BalanceState
  {
    BalanceState(NextAny, Idle, chaos)
  }

  /** The random draws one accepted entry may use: the child to destroy and the
      position of the success clip. */
  datatype Draws = Draws(child: nat, clip: nat)

  predicate DrawsFit(chaos: Container, d: Draws)
  {
    (ChildCount(chaos) > 0 ==> d.child < ChildCount(chaos)) && d.clip < |SuccessClips|
  }

  /** Destroys one random child of the Chaos object, with its particle and sounds,
      or only warns when there is none. */
  function DestroyRandomChaosChild(cfg: Config, chaos: Container, d: Draws): (r: Step<Container>)
    requires DrawsFit(chaos, d)
    ensures ChildCount(chaos) > 0 ==>
      && chaos.Holding? && r.state.Holding? && |r.effects| > 0
      && ChildCount(r.state) == ChildCount(chaos) - 1
      && r.state == Holding(chaos.children[..d.child] + chaos.children[d.child + 1..])
      && multiset(r.state.children) + multiset{chaos.children[d.child]} == multiset(chaos.children)
      && r.effects[0] == DestroyChild(ChaosName, d.child)
    ensures ChildCount(chaos) == 0 ==> r.state == chaos && r.effects == [LogWarning("Chaos object missing or has no children!")]
    ensures Scoreless(r.effects)
  {
    var removal := DestroyRandomChild(chaos, d.child);
    match removal.removed
    case None => Step(chaos, [LogWarning("Chaos object missing or has no children!")])
    case Some(i) =>
      var particle := if cfg.hasParticleEffect then
          [Spawn("particleEffectPrefab", ChildPosition(ChaosName, i)), PlaySoundAfter("DestroyElectronic", DestroySoundDelay)]
        else [];
      var point := if cfg.hasPointEffect then
          [Spawn("PointEffect", Anchor("PointEffectPos")), PlaySound(SuccessClip(d.clip))]
        else [];
      Step(removal.container, [DestroyChild(ChaosName, i)] + particle + point)
  }

  /** Whether an entry by `foot` is accepted in state `s`. */
  predicate Accepted(s: BalanceState, foot: Foot)
  {
    !s.gate.triggered && Accepts(s.next, foot)
  }

  /** An entry of a foot into the target area (OnFootEnterTarget). The draws are
      only used, and so only need to fit, when the entry is accepted. */
  function OnFootEnterTarget(cfg: Config, s: BalanceState, foot: Foot, d: Draws): (r: Step<BalanceState>)
    requires Accepted(s, foot) ==> DrawsFit(s.chaos, d)
    ensures !Accepted(s, foot) ==> r == Step(s, [])
    ensures Accepted(s, foot) ==>
      && r.state.next == NextAfter(foot)
      && r.state.gate == JustFired
      && ChildCount(r.state.chaos) == (if ChildCount(s.chaos) > 0 then ChildCount(s.chaos) - 1 else 0)
    ensures PointsIn(r.effects) == (if Accepted(s, foot) then StepPoints else 0.0)
  {
    if !Accepted(s, foot) then Step(s, [])
    else
      var destroyed := DestroyRandomChaosChild(cfg, s.chaos, d);
      OneScoreCall(destroyed.effects, StepPoints, []);
      assert destroyed.effects + [AddScore(StepPoints)] + [] == destroyed.effects + [AddScore(StepPoints)];
      Step(BalanceState(NextAfter(foot), JustFired, destroyed.state),
           destroyed.effects + [AddScore(StepPoints)])
  }

  /** The per-frame cooldown countdown (Update). */
  function Update(s: BalanceState, dt: real): (r: BalanceState)
    ensures r.next == s.next && r.chaos == s.chaos
    ensures !s.gate.triggered ==> r == s
    ensures s.gate.triggered && s.gate.timer + dt >= CooldownDuration ==> r.gate == Idle
    ensures s.gate.triggered && s.gate.timer + dt < CooldownDuration ==> r.gate == Gate(true, s.gate.timer + dt)
  {
    s.(gate := Advance(s.gate, dt, CooldownDuration))
  }

  /** Whether the helper on a foot forwards an entry into the object `other`: the foot
      has a controller and `other` is the controller's target area. */
  predicate Forwarded(cfg: Config, hasController: bool, other: nat)
  {
    hasController && cfg.upTargetArea == Some(other)
  }

  /** The helper on each foot (FootTrigger.OnTriggerEnter): an entry counts only when
      it is forwarded and then accepted; any other entry changes nothing and asks for
      nothing. */
  function FootTriggerEnter(cfg: Config, s: BalanceState, hasController: bool, other: nat, foot: Foot, d: Draws)
    : (r: Step<BalanceState>)
    requires Forwarded(cfg, hasController, other) && Accepted(s, foot) ==> DrawsFit(s.chaos, d)
    ensures !(Forwarded(cfg, hasController, other) && Accepted(s, foot)) ==> r == Step(s, [])
    ensures Forwarded(cfg, hasController, other) && Accepted(s, foot) ==>
      && r.state.next == NextAfter(foot)
      && r.state.gate == JustFired
      && ChildCount(r.state.chaos) == (if ChildCount(s.chaos) > 0 then ChildCount(s.chaos) - 1 else 0)
    ensures PointsIn(r.effects) == (if Forwarded(cfg, hasController, other) && Accepted(s, foot) then StepPoints else 0.0)
  {
    if Forwarded(cfg, hasController, other) then OnFootEnterTarget(cfg, s, foot, d)
    else Step(s, [])
  }

  // ---------------------------------------------------------------------------
  // Runs of events

  /** A foot entering the object `other`, or a frame lasting `dt` seconds. */
  datatype Event = Enter(foot: Foot, hasController: bool, other: nat, draws: Draws) | Tick(dt: real)

  /** Whether an entry event reaches the manager and is accepted there. */
  predicate Counts(cfg: Config, s: BalanceState, e: Event)
    requires e.Enter?
  {
    Forwarded(cfg, e.hasController, e.other) && Accepted(s, e.foot)
  }

  /** The state after a run, the feet whose entries were accepted in order, and all
      effects requested. */
  datatype Trace = Trace(state: BalanceState, accepted: seq<Foot>, effects: seq<Effect>)

  /** Every accepted entry of the run comes with draws that fit the state it meets. */
  ghost predicate RunFits(cfg: Config, s: BalanceState, events: seq<Event>)
    decreases |events|
  {
    |events| == 0 ||
    match events[0]
    case Tick(dt) => RunFits(cfg, Update(s, dt), events[1..])
    case Enter(foot, hasController, other, d) =>
      && (Forwarded(cfg, hasController, other) && Accepted(s, foot) ==> DrawsFit(s.chaos, d))
      && RunFits(cfg, FootTriggerEnter(cfg, s, hasController, other, foot, d).state, events[1..])
  }

  function Run(cfg: Config, s: BalanceState, events: seq<Event>): Trace
    requires RunFits(cfg, s, events)
    decreases |events|
  {
    if |events| == 0 then Trace(s, [], [])
    else
      match events[0]
      case Tick(dt) => Run(cfg, Update(s, dt), events[1..])
      case Enter(foot, hasController, other, d) =>
        var step := FootTriggerEnter(cfg, s, hasController, other, foot, d);
        var rest := Run(cfg, step.state, events[1..]);
        Trace(rest.state, (if Counts(cfg, s, events[0]) then [foot] else []) + rest.accepted,
              step.effects + rest.effects)
  }

  /** An entry that is not forwarded (a foot without a controller, or an object other
      than the target area), inserted anywhere in a run, changes nothing about it. */
  lemma {:induction false} StrayEntryChangesNothing(cfg: Config, s: BalanceState, before: seq<Event>, e: Event, after: seq<Event>)
    requires RunFits(cfg, s, before + after)
    requires e.Enter? && !Forwarded(cfg, e.hasController, e.other)
    ensures RunFits(cfg, s, before + [e] + after)
    ensures Run(cfg, s, before + [e] + after) == Run(cfg, s, before + after)
    decreases |before|
  {
    var with := before + [e] + after;
    if |before| == 0 {
      assert with == [e] + after && with[1..] == after && before + after == after;
      var rest := Run(cfg, s, after);
      assert Run(cfg, s, with) == Trace(rest.state, [] + rest.accepted, [] + rest.effects);
    } else {
      var without := before + after;
      assert with[0] == before[0] == without[0];
      assert with[1..] == before[1..] + [e] + after;
      assert without[1..] == before[1..] + after;
      match before[0]
      case Tick(dt) =>
        StrayEntryChangesNothing(cfg, Update(s, dt), before[1..], e, after);
      case Enter(foot, hasController, other, d) =>
        StrayEntryChangesNothing(cfg, FootTriggerEnter(cfg, s, hasController, other, foot, d).state, before[1..], e, after);
    }
  }

  /** Without a target area assigned, no entry is ever accepted: the run scores
      nothing and leaves the foot requirement and the Chaos object as they were. */
  lemma {:induction false} NoTargetAreaNoProgress(cfg: Config, s: BalanceState, events: seq<Event>)
    requires RunFits(cfg, s, events) && cfg.upTargetArea.None?
    ensures Run(cfg, s, events).accepted == []
    ensures PointsIn(Run(cfg, s, events).effects) == 0.0
    ensures Run(cfg, s, events).state.next == s.next && Run(cfg, s, events).state.chaos == s.chaos
    decreases |events|
  {
    if |events| > 0 {
      match events[0]
      case Tick(dt) =>
        NoTargetAreaNoProgress(cfg, Update(s, dt), events[1..]);
      case Enter(foot, hasController, other, d) =>
        NoTargetAreaNoProgress(cfg, s, events[1..]);
        var rest := Run(cfg, s, events[1..]);
        assert Run(cfg, s, events).effects == [] + rest.effects;
        assert [] + rest.effects == rest.effects;
    }
  }

  /** No two successive feet are the same: each one differs from the one after it. */
  predicate Alternating(feet: seq<Foot>)
    decreases |feet|
  {
    |feet| < 2 || (feet[0] != feet[1] && Alternating(feet[1..]))
  }

  /** The same, foot by foot: every foot differs from the one before it. */
  lemma {:induction false} AlternatingMeans(feet: seq<Foot>)
    ensures Alternating(feet) <==> forall i :: 0 < i < |feet| ==> feet[i] != feet[i - 1]
    decreases |feet|
  {
    if |feet| >= 2 {
      var tail := feet[1..];
      AlternatingMeans(tail);
      if Alternating(feet) {
        forall i | 0 < i < |feet|
          ensures feet[i] != feet[i - 1]
        {
          if i > 1 {
            assert feet[i] == tail[i - 1] && feet[i - 1] == tail[i - 2];
          }
        }
      }
      if forall i :: 0 < i < |feet| ==> feet[i] != feet[i - 1] {
        forall i | 0 < i < |tail|
          ensures tail[i] != tail[i - 1]
        {
          assert tail[i] == feet[i + 1] && tail[i - 1] == feet[i];
        }
      }
    }
  }

  /** One frame of a run: the rest of the run fits the state it leaves, and the
      run is the rest of the run from there. */
  lemma TickStep(cfg: Config, s: BalanceState, events: seq<Event>)
    requires RunFits(cfg, s, events) && |events| > 0 && events[0].Tick?
    ensures RunFits(cfg, Update(s, events[0].dt), events[1..])
    ensures Run(cfg, s, events) == Run(cfg, Update(s, events[0].dt), events[1..])
  {
  }

  /** One entry of a run: the rest of the run fits the state the entry leaves, the
      run's accepted feet are this foot (when it counts) followed by the rest's, and
      the requirement moves on exactly when the entry counts. */
  lemma EnterStep(cfg: Config, s: BalanceState, events: seq<Event>)
    requires RunFits(cfg, s, events) && |events| > 0 && events[0].Enter?
    ensures var e := events[0];
      var step := FootTriggerEnter(cfg, s, e.hasController, e.other, e.foot, e.draws);
      var rest := Run(cfg, step.state, events[1..]);
      && RunFits(cfg, step.state, events[1..])
      && Run(cfg, s, events).state == rest.state
      && (Counts(cfg, s, e) ==>
            Run(cfg, s, events).accepted == [e.foot] + rest.accepted && step.state.next == NextAfter(e.foot))
      && (!Counts(cfg, s, e) ==> Run(cfg, s, events).accepted == rest.accepted && step.state.next == s.next)
  {
    var e := events[0];
    var step := FootTriggerEnter(cfg, s, e.hasController, e.other, e.foot, e.draws);
    var rest := Run(cfg, step.state, events[1..]);
    assert [] + rest.accepted == rest.accepted;
  }

  /** An accepted foot put in front of the accepted feet of the rest of a run keeps
      the alternation and the requirement it leaves behind. */
  lemma AlternatingCons(start: NextFoot, foot: Foot, rest: seq<Foot>, after: NextFoot)
    requires Accepts(start, foot) && Alternating(rest)
    requires |rest| > 0 ==> Accepts(NextAfter(foot), rest[0]) && after == NextAfter(rest[|rest| - 1])
    requires |rest| == 0 ==> after == NextAfter(foot)
    ensures var all := [foot] + rest;
      Alternating(all) && Accepts(start, all[0]) && after == NextAfter(all[|all| - 1])
  {
    var all := [foot] + rest;
    assert all[1..] == rest;
    assert all[|all| - 1] == if |rest| > 0 then rest[|rest| - 1] else foot;
  }

  /** Feet `accepted` alternate, starting with one `start` accepts, and leave the
      requirement `end`: the foot opposite the last one, or `start` if there is none. */
  predicate AlternatesFrom(start: NextFoot, accepted: seq<Foot>, end: NextFoot)
  {
    && Alternating(accepted)
    && (|accepted| > 0 ==> Accepts(start, accepted[0]) && end == NextAfter(accepted[|accepted| - 1]))
    && (|accepted| == 0 ==> end == start)
  }

  /** An entry in front of a run whose accepted feet alternate from the state the
      entry leaves keeps the alternation from the state the entry meets. */
  lemma EnterKeepsAlternation(cfg: Config, s: BalanceState, events: seq<Event>)
    requires RunFits(cfg, s, events) && |events| > 0 && events[0].Enter?
    requires var e := events[0];
      var step := FootTriggerEnter(cfg, s, e.hasController, e.other, e.foot, e.draws);
      RunFits(cfg, step.state, events[1..]) &&
      var rest := Run(cfg, step.state, events[1..]);
      AlternatesFrom(step.state.next, rest.accepted, rest.state.next)
    ensures AlternatesFrom(s.next, Run(cfg, s, events).accepted, Run(cfg, s, events).state.next)
  {
    var e := events[0];
    var step := FootTriggerEnter(cfg, s, e.hasController, e.other, e.foot, e.draws);
    EnterStep(cfg, s, events);
    var rest := Run(cfg, step.state, events[1..]);
    if Counts(cfg, s, e) {
      AlternatingCons(s.next, e.foot, rest.accepted, rest.state.next);
    }
  }

  /** Accepted feet strictly alternate; the first one is the foot the start state
      expects (either, from the initial state); the requirement afterwards is the
      foot opposite the last accepted one, and once a foot has been accepted the
      requirement never returns to "either". */
  lemma {:induction false} AcceptedFeetAlternate(cfg: Config, s: BalanceState, events: seq<Event>)
    requires RunFits(cfg, s, events)
    ensures Alternating(Run(cfg, s, events).accepted)
    ensures |Run(cfg, s, events).accepted| > 0 ==> Accepts(s.next, Run(cfg, s, events).accepted[0])
    ensures |Run(cfg, s, events).accepted| > 0 ==>
      Run(cfg, s, events).state.next == NextAfter(Run(cfg, s, events).accepted[|Run(cfg, s, events).accepted| - 1])
    ensures |Run(cfg, s, events).accepted| == 0 ==> Run(cfg, s, events).state.next == s.next
    decreases |events|
  {
    if |events| > 0 {
      var e := events[0];
      if e.Tick? {
        TickStep(cfg, s, events);
        AcceptedFeetAlternate(cfg, Update(s, e.dt), events[1..]);
      } else {
        var step := FootTriggerEnter(cfg, s, e.hasController, e.other, e.foot, e.draws);
        EnterStep(cfg, s, events);
        AcceptedFeetAlternate(cfg, step.state, events[1..]);
        EnterKeepsAlternation(cfg, s, events);
      }
    }
  }

  /** The requirement is "either foot" only if it was so at the start and no entry
      has been accepted. */
  lemma NeverBackToAny(cfg: Config, s: BalanceState, events: seq<Event>)
    requires RunFits(cfg, s, events)
    ensures Run(cfg, s, events).state.next.NextAny? ==> s.next.NextAny? && Run(cfg, s, events).accepted == []
  {
    AcceptedFeetAlternate(cfg, s, events);
  }

  /** The frame durations of the ticks of a run, in order. */
  function Ticks(events: seq<Event>): (dts: seq<real>)
    ensures |dts| <= |events|
  {
    if |events| == 0 then []
    else (if events[0].Tick? then [events[0].dt] else []) + Ticks(events[1..])
  }

  predicate TicksNonNegative(events: seq<Event>)
  {
    forall i :: 0 <= i < |events| && events[i].Tick? ==> events[i].dt >= 0.0
  }

  /** The time a run's frames take: a tick adds its duration, an entry adds none. */
  lemma TickTimeStep(events: seq<Event>)
    requires |events| > 0
    ensures Sum(Ticks(events)) == (if events[0].Tick? then events[0].dt else 0.0) + Sum(Ticks(events[1..]))
  {
    var rest := Ticks(events[1..]);
    if events[0].Tick? {
      assert ([events[0].dt] + rest)[1..] == rest;
    } else {
      assert [] + rest == rest;
    }
  }

  lemma {:induction false} TickTimeNonNegative(events: seq<Event>)
    requires TicksNonNegative(events)
    ensures AllNonNegative(Ticks(events)) && Sum(Ticks(events)) >= 0.0
    decreases |events|
  {
    if |events| > 0 {
      TickTimeNonNegative(events[1..]);
      var rest := Ticks(events[1..]);
      var own := if events[0].Tick? then [events[0].dt] else [];
      assert Ticks(events) == own + rest;
      assert forall i :: 0 <= i < |rest| ==> (own + rest)[|own| + i] == rest[i];
    }
    SumNonNegative(Ticks(events));
  }

  /** While the cooldown is running, no entry is accepted and only the gate changes:
      it is the gate the frames of the run alone would leave. */
  lemma {:induction false} CooldownOnlyElapses(cfg: Config, s: BalanceState, events: seq<Event>)
    requires RunFits(cfg, s, events) && TicksNonNegative(events)
    requires s.gate.triggered && s.gate.timer + Sum(Ticks(events)) < CooldownDuration
    ensures Run(cfg, s, events).accepted == []
    ensures Run(cfg, s, events).state == s.(gate := Elapse(s.gate, Ticks(events), CooldownDuration))
    ensures PointsIn(Run(cfg, s, events).effects) == 0.0
    decreases |events|
  {
    if |events| > 0 {
      TickTimeStep(events);
      TickTimeNonNegative(events[1..]);
      match events[0]
      case Tick(dt) =>
        assert Ticks(events) == [dt] + Ticks(events[1..]);
        assert ([dt] + Ticks(events[1..]))[1..] == Ticks(events[1..]);
        CooldownOnlyElapses(cfg, Update(s, dt), events[1..]);
      case Enter(foot, hasController, other, d) =>
        assert Ticks(events) == [] + Ticks(events[1..]) == Ticks(events[1..]);
        CooldownOnlyElapses(cfg, s, events[1..]);
        var rest := Run(cfg, s, events[1..]);
        assert Run(cfg, s, events).effects == [] + rest.effects;
        assert [] + rest.effects == rest.effects;
    }
  }

  /** While the cooldown that started with timer `t0` has not run out, no entry is
      accepted and nothing else changes: the cooldown timer is exactly the frame time
      elapsed. Two accepted entries are therefore at least one second of frames apart. */
  lemma NothingAcceptedDuringCooldown(cfg: Config, s: BalanceState, events: seq<Event>)
    requires RunFits(cfg, s, events) && TicksNonNegative(events)
    requires s.gate.triggered && s.gate.timer + Sum(Ticks(events)) < CooldownDuration
    ensures Run(cfg, s, events).accepted == []
    ensures Run(cfg, s, events).state == s.(gate := Gate(true, s.gate.timer + Sum(Ticks(events))))
    ensures PointsIn(Run(cfg, s, events).effects) == 0.0
  {
    CooldownOnlyElapses(cfg, s, events);
    TickTimeNonNegative(events);
    ElapseTriggeredIff(s.gate.timer, Ticks(events), CooldownDuration);
  }

  /** Every accepted entry awards exactly half a point and nothing else scores. */
  lemma {:induction false} PointsMatchAcceptances(cfg: Config, s: BalanceState, events: seq<Event>)
    requires RunFits(cfg, s, events)
    ensures PointsIn(Run(cfg, s, events).effects) == StepPoints * |Run(cfg, s, events).accepted| as real
    decreases |events|
  {
    if |events| > 0 {
      match events[0]
      case Tick(dt) =>
        PointsMatchAcceptances(cfg, Update(s, dt), events[1..]);
      case Enter(foot, hasController, other, d) =>
        var step := FootTriggerEnter(cfg, s, hasController, other, foot, d);
        PointsMatchAcceptances(cfg, step.state, events[1..]);
        PointsInAppend(step.effects, Run(cfg, step.state, events[1..]).effects);
    }
  }

  /** From the initial state either foot is accepted, and after a left step a
      second left step is ignored while a right step (once the cooldown is over)
      is accepted. */
  lemma FirstStepEitherFootThenAlternate(cfg: Config, chaos: Container, d: Draws, foot: Foot)
    requires DrawsFit(chaos, d)
    ensures Accepted(Initial(chaos), foot)
    ensures var after := OnFootEnterTarget(cfg, Initial(chaos), foot, d).state.(gate := Idle);
      !Accepted(after, foot) && Accepted(after, if foot.LeftFoot? then RightFoot else LeftFoot)
  {
  }
}
