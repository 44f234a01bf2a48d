/** The energy-tide exercise: both ankles go up into one area, then down into
    another, and so on. Every frame the manager tests the Up area; once the first Up
    has happened it also tests the Down area in the same frame. An Up fires when both
    ankles are in the Up area and it is the very first Up or the last fired gesture
    was a Down; a Down fires when both ankles are in the Down area and the last fired
    gesture was an Up. Each fired gesture launches a random remaining tide object
    toward the health crystal, which scores half a point. */
module EnergyTide {
  import opened Engine

  const LaunchPoints: real := 0.5
  const EnergyInDelay: real := 1.0

  /** The last fired area, the source's lastTriggerAreaState 0, 1 and 2. */
  datatype Phase = NoneYet | UpLast | DownLast

  datatype Gesture = Up | Down

  datatype TideState = TideState(last: Phase, hasFirstUp: bool)

  const Start := TideState(NoneYet, false)

  /** The flag records exactly whether anything has fired. */
  predicate Inv(s: TideState)
  {
    s.hasFirstUp <==> !s.last.NoneYet?
  }

  /** `hasPointParticle`: the point particle prefab is assigned; `hasUpAnchor` and
      `hasDownAnchor`: the per-area particle positions are assigned. */
  datatype Config = Config(hasPointParticle: bool, hasUpAnchor: bool, hasDownAnchor: bool)

  /** One frame's inputs: the four ankle/area overlaps, the tide object array
      (`None` for a destroyed object), and the draws of an Up and of a Down launch. */
  datatype Frame = Frame(
    leftInUp: bool, rightInUp: bool, leftInDown: bool, rightInDown: bool,
    tideObjects: seq<Option<nat>>,
    upObject: nat, upClip: nat, downObject: nat, downClip: nat)

  predicate BothUp(f: Frame) { f.leftInUp && f.rightInUp }

  predicate BothDown(f: Frame) { f.leftInDown && f.rightInDown }

  /** The tide objects that still exist, in array order. */
  function Existing(objs: seq<Option<nat>>): (r: seq<nat>)
    ensures |r| <= |objs|
    decreases |objs|
  {
    if |objs| == 0 then []
    else (if objs[0].Some? then [objs[0].value] else []) + Existing(objs[1..])
  }

  lemma {:induction false} ExistingMembers(objs: seq<Option<nat>>)
    ensures forall x :: x in Existing(objs) ==> Some(x) in objs
    ensures forall i :: 0 <= i < |objs| && objs[i].Some? ==> objs[i].value in Existing(objs)
    decreases |objs|
  {
    if |objs| > 0 {
      ExistingMembers(objs[1..]);
      forall i | 0 <= i < |objs| && objs[i].Some?
        ensures objs[i].value in Existing(objs)
      {
        if i > 0 {
          assert objs[i] == objs[1..][i - 1];
        }
      }
    }
  }

  predicate AnyAvailable(objs: seq<Option<nat>>)
  {
    exists i :: 0 <= i < |objs| && objs[i].Some?
  }

  predicate PickFits(objs: seq<Option<nat>>, pick: nat)
  {
    |Existing(objs)| > 0 ==> pick < |Existing(objs)|
  }

  predicate FrameFits(f: Frame)
  {
    PickFits(f.tideObjects, f.upObject) && PickFits(f.tideObjects, f.downObject)
    && f.upClip < |SuccessClips| && f.downClip < |SuccessClips|
  }

  /** A random tide object that still exists, or none when every entry is gone. */
  function GetRandomAvailableTideObject(objs: seq<Option<nat>>, pick: nat): (r: Option<nat>)
    requires PickFits(objs, pick)
    ensures r.None? <==> !AnyAvailable(objs)
    ensures r.Some? ==> Some(r.value) in objs
  {
    ExistingMembers(objs);
    var existing := Existing(objs);
    if |existing| == 0 then
      None
    else
      assert existing[pick] in existing;
      Some(existing[pick])
  }

  /** Starts a flight and scores when a tide object remains; otherwise nothing. */
  function LaunchEnergyParticle(objs: seq<Option<nat>>, pick: nat): (r: seq<Effect>)
    requires PickFits(objs, pick)
    ensures PointsIn(r) == if AnyAvailable(objs) then LaunchPoints else 0.0
    ensures forall e :: e in r && e.StartFlight? ==> Some(e.tideObject) in objs
  {
    match GetRandomAvailableTideObject(objs, pick)
    case None => []
    case Some(o) =>
      OneScoreCall([StartFlight(o)], LaunchPoints, []);
      assert [StartFlight(o)] + [AddScore(LaunchPoints)] + [] == [StartFlight(o), AddScore(LaunchPoints)];
      [StartFlight(o), AddScore(LaunchPoints)]
  }

  /** The effects of a fired gesture at the area anchor `anchor` (present or not). */
  function TriggerEffect(cfg: Config, hasAnchor: bool, anchor: string, objs: seq<Option<nat>>, pick: nat, clip: nat)
    : (r: seq<Effect>)
    requires PickFits(objs, pick) && clip < |SuccessClips|
    ensures PointsIn(r) == if AnyAvailable(objs) then LaunchPoints else 0.0
  {
    var launch := LaunchEnergyParticle(objs, pick);
    var feedback := if cfg.hasPointParticle && hasAnchor then
        [Spawn("PointParticle", Anchor(anchor)), PlaySound(SuccessClip(clip)), PlaySoundAfter("EnergyIn", EnergyInDelay)]
      else [];
    PointsInAppend(launch, feedback);
    assert PointsIn(feedback) == 0.0 by { ScorelessHasNoPoints(feedback); }
    launch + feedback
  }

  /** One frame's outcome: the state afterwards, the gestures fired in order, and the
      requested effects. */
  datatype Tick = Tick(state: TideState, fired: seq<Gesture>, effects: seq<Effect>)

  /** The Up test (CheckUpAreaCollision with TriggerUpEffect). */
  function CheckUpAreaCollision(cfg: Config, s: TideState, f: Frame): (r: Tick)
    requires FrameFits(f)
    ensures r.fired == [Up] <==> BothUp(f) && (!s.hasFirstUp || s.last.DownLast?)
    ensures r.fired == [Up] ==> r.state == TideState(UpLast, true)
    ensures r.fired != [Up] ==> r.fired == [] && r.state == s
    ensures PointsIn(r.effects) == if r.fired == [Up] && AnyAvailable(f.tideObjects) then LaunchPoints else 0.0
  {
    if BothUp(f) && (!s.hasFirstUp || s.last.DownLast?) then
      Tick(TideState(UpLast, true), [Up],
           TriggerEffect(cfg, cfg.hasUpAnchor, "UpAreaPointParticlePosition", f.tideObjects, f.upObject, f.upClip))
    else Tick(s, [], [])
  }

  /** The Down test (CheckDownAreaCollision with TriggerDownEffect). */
  function CheckDownAreaCollision(cfg: Config, s: TideState, f: Frame): (r: Tick)
    requires FrameFits(f)
    ensures r.fired == [Down] <==> BothDown(f) && s.last.UpLast?
    ensures r.fired == [Down] ==> r.state == s.(last := DownLast)
    ensures r.fired != [Down] ==> r.fired == [] && r.state == s
    ensures PointsIn(r.effects) == if r.fired == [Down] && AnyAvailable(f.tideObjects) then LaunchPoints else 0.0
  {
    if BothDown(f) && s.last.UpLast? then
      Tick(s.(last := DownLast), [Down],
           TriggerEffect(cfg, cfg.hasDownAnchor, "DownAreaPointParticlePosition", f.tideObjects, f.downObject, f.downClip))
    else Tick(s, [], [])
  }

  /** One frame (Update): the Up test, then the Down test if the first Up has
      happened by now. */
  function Update(cfg: Config, s: TideState, f: Frame): (r: Tick)
    requires FrameFits(f)
    ensures Inv(s) ==> Inv(r.state)
    ensures Inv(s) ==> (Up in r.fired <==> BothUp(f) && !s.last.UpLast?)
    ensures Inv(s) ==> (Down in r.fired <==> BothDown(f) && (s.last.UpLast? || (BothUp(f) && !s.last.UpLast?)))
    ensures |r.fired| <= 2 && (|r.fired| == 2 ==> r.fired == [Up, Down])
    ensures PointsIn(r.effects) == if AnyAvailable(f.tideObjects) then LaunchPoints * |r.fired| as real else 0.0
  {
    var up := CheckUpAreaCollision(cfg, s, f);
    if up.state.hasFirstUp then
      var down := CheckDownAreaCollision(cfg, up.state, f);
      PointsInAppend(up.effects, down.effects);
      Tick(down.state, up.fired + down.fired, up.effects + down.effects)
    else
      up
  }

  /** Whether gesture `g` is the one that may follow phase `p`. */
  predicate Follows(p: Phase, g: Gesture)
  {
    if p.UpLast? then g.Down? else g.Up?
  }

  function PhaseAfter(g: Gesture): Phase
  {
    if g.Up? then UpLast else DownLast
  }

  /** Consecutive fired gestures alternate. */
  predicate Alternating(gs: seq<Gesture>)
  {
    forall i :: 0 < i < |gs| ==> gs[i] != gs[i - 1]
  }

  predicate RunFits(frames: seq<Frame>)
  {
    forall i :: 0 <= i < |frames| ==> FrameFits(frames[i])
  }

  function Run(cfg: Config, s: TideState, frames: seq<Frame>): Tick
    requires RunFits(frames)
    decreases |frames|
  {
    if |frames| == 0 then Tick(s, [], [])
    else
      var t := Update(cfg, s, frames[0]);
      var rest := Run(cfg, t.state, frames[1..]);
      Tick(rest.state, t.fired + rest.fired, t.effects + rest.effects)
  }

  /** One frame on its own already obeys the order: what it fires follows the
      phase, alternates, and leaves the phase of the last fired gesture. */
  lemma UpdateFollowsPhase(cfg: Config, s: TideState, f: Frame)
    requires FrameFits(f) && Inv(s)
    ensures var t := Update(cfg, s, f);
      && Alternating(t.fired)
      && (|t.fired| > 0 ==> Follows(s.last, t.fired[0]) && t.state.last == PhaseAfter(t.fired[|t.fired| - 1]))
      && (|t.fired| == 0 ==> t.state == s)
  {
  }

  /** Over any run of frames from a consistent state, the fired gestures strictly
      alternate, the first follows the start phase (so from the start the first is
      an Up and no Down precedes it), and the phase afterwards is that of the last
      fired gesture. */
  lemma {:induction false} FiredGesturesAlternate(cfg: Config, s: TideState, frames: seq<Frame>)
    requires RunFits(frames) && Inv(s)
    ensures Inv(Run(cfg, s, frames).state)
    ensures Alternating(Run(cfg, s, frames).fired)
    ensures |Run(cfg, s, frames).fired| > 0 ==> Follows(s.last, Run(cfg, s, frames).fired[0])
    ensures |Run(cfg, s, frames).fired| > 0 ==>
      Run(cfg, s, frames).state.last == PhaseAfter(Run(cfg, s, frames).fired[|Run(cfg, s, frames).fired| - 1])
    ensures |Run(cfg, s, frames).fired| == 0 ==> Run(cfg, s, frames).state == s
    decreases |frames|
  {
    if |frames| > 0 {
      var t := Update(cfg, s, frames[0]);
      UpdateFollowsPhase(cfg, s, frames[0]);
      FiredGesturesAlternate(cfg, t.state, frames[1..]);
      var rest := Run(cfg, t.state, frames[1..]);
      assert Run(cfg, s, frames) == Tick(rest.state, t.fired + rest.fired, t.effects + rest.effects);
      FollowsJoin(s, t.state, rest.state, t.fired, rest.fired);
    }
  }

  /** The gestures of one stretch followed by those of the next, when each follows
      the phase it starts from, alternate and follow the first start phase. */
  lemma FollowsJoin(s0: TideState, s1: TideState, s2: TideState, a: seq<Gesture>, b: seq<Gesture>)
    requires Alternating(a) && Alternating(b)
    requires |a| > 0 ==> Follows(s0.last, a[0]) && s1.last == PhaseAfter(a[|a| - 1])
    requires |a| == 0 ==> s1 == s0
    requires |b| > 0 ==> Follows(s1.last, b[0]) && s2.last == PhaseAfter(b[|b| - 1])
    requires |b| == 0 ==> s2 == s1
    ensures Alternating(a + b)
    ensures |a + b| > 0 ==> Follows(s0.last, (a + b)[0]) && s2.last == PhaseAfter((a + b)[|a + b| - 1])
    ensures |a + b| == 0 ==> s2 == s0
  {
    if |a| > 0 && |b| > 0 {
      assert Follows(PhaseAfter(a[|a| - 1]), b[0]);
    }
    AlternatingConcat(a, b);
  }

  /** Two alternating sequences joined where they differ alternate, and the join
      keeps the first and last elements. */
  lemma AlternatingConcat(a: seq<Gesture>, b: seq<Gesture>)
    requires Alternating(a) && Alternating(b)
    requires |a| > 0 && |b| > 0 ==> a[|a| - 1] != b[0]
    ensures Alternating(a + b)
    ensures |a + b| > 0 ==> (a + b)[0] == if |a| > 0 then a[0] else b[0]
    ensures |a + b| > 0 ==> (a + b)[|a + b| - 1] == if |b| > 0 then b[|b| - 1] else a[|a| - 1]
  {
    var all := a + b;
    forall i | 0 < i < |all|
      ensures all[i] != all[i - 1]
    {
      if i < |a| {
        assert all[i] == a[i] && all[i - 1] == a[i - 1];
      } else if i == |a| {
        assert all[i] == b[0] && all[i - 1] == a[|a| - 1];
      } else {
        assert all[i] == b[i - |a|] && all[i - 1] == b[i - 1 - |a|];
      }
    }
  }

  /** The first gesture fired from the start is an Up. */
  lemma FirstGestureIsUp(cfg: Config, frames: seq<Frame>)
    requires RunFits(frames)
    ensures |Run(cfg, Start, frames).fired| > 0 ==> Run(cfg, Start, frames).fired[0] == Up
  {
    FiredGesturesAlternate(cfg, Start, frames);
  }

  /** Holding both ankles in the area that fired last fires nothing more. */
  lemma HoldingNeverRefires(cfg: Config, s: TideState, f: Frame)
    requires FrameFits(f) && Inv(s) && !s.last.NoneYet?
    requires s.last.UpLast? ==> !BothDown(f)
    requires s.last.DownLast? ==> !BothUp(f)
    ensures Update(cfg, s, f) == Tick(s, [], [])
  {
  }

  /** A launch scores only while a tide object remains; the phase changes regardless. */
  lemma {:induction false} RunPoints(cfg: Config, s: TideState, frames: seq<Frame>)
    requires RunFits(frames)
    requires forall i :: 0 <= i < |frames| ==> AnyAvailable(frames[i].tideObjects)
    ensures PointsIn(Run(cfg, s, frames).effects) == LaunchPoints * |Run(cfg, s, frames).fired| as real
    decreases |frames|
  {
    if |frames| > 0 {
      var t := Update(cfg, s, frames[0]);
      RunPoints(cfg, t.state, frames[1..]);
      PointsInAppend(t.effects, Run(cfg, t.state, frames[1..]).effects);
    }
  }

  /** With every tide object gone, gestures still advance the phase but score nothing. */
  lemma {:induction false} NoObjectsNoPoints(cfg: Config, s: TideState, frames: seq<Frame>)
    requires RunFits(frames)
    requires forall i :: 0 <= i < |frames| ==> !AnyAvailable(frames[i].tideObjects)
    ensures PointsIn(Run(cfg, s, frames).effects) == 0.0
    decreases |frames|
  {
    if |frames| > 0 {
      var t := Update(cfg, s, frames[0]);
      NoObjectsNoPoints(cfg, t.state, frames[1..]);
      PointsInAppend(t.effects, Run(cfg, t.state, frames[1..]).effects);
    }
  }

  /** With all four overlaps at once, the very first frame fires an Up and then a
      Down. */
  lemma UpThenDownInOneFrame(cfg: Config, f: Frame)
    requires FrameFits(f) && BothUp(f) && BothDown(f)
    ensures Update(cfg, Start, f).fired == [Up, Down]
    ensures Update(cfg, Start, f).state == TideState(DownLast, true)
  {
  }
}
