/** The vocabulary the gesture managers and the score manager share with the game
    engine: positions, optional references, and the effects a call asks the engine
    to carry out (spawning, sounds, haptics, scene control, log lines). Every
    operation of the model is a pure function that returns its new state together
    with the list of effects it requested, in the order the source requests them. */
module Engine {

  datatype Option<T> = None | Some(value: T)

  datatype Vec3 = Vec3(x: real, y: real, z: real)

  /** Where a spawned object is placed. */
  datatype Place =
    | Anchor(name: string)                          // the position of a named scene object
    | Point(at: Vec3)                               // a fixed world position
    | ChildPosition(container: string, index: nat)  // where a destroyed child stood

  datatype Controller = LeftController | RightController

  datatype Effect =
    | AddScore(points: real)                        // a call into the score manager
    | Spawn(prefab: string, place: Place)           // Instantiate
    | PlaySound(clip: string)                       // the audio manager's Play, by clip name
    | PlaySoundAfter(clip: string, delay: real)     // a coroutine that waits, then plays
    | PlayOneShot(clipRef: nat)                     // an encouragement clip, by reference
    | Haptic(controller: Controller, strength: real, durationMs: int, frequency: int)
    | DestroyChild(container: string, index: nat)
    | StartFlight(tideObject: nat)                  // the arc flight toward the crystal
    | LaunchProjectile(speed: real)                 // a spawned object moving along +z
    | FireBullet(speed: real)
    | PlayParticles
    | SetScoreText(score: real, maxScore: real)
    | SetEncouragingText(phrase: string)
    | AnimatorTrigger(cue: nat)                     // sets the animator trigger "Score<cue>"
    | SetTimeScale(scale: real)
    | ScheduleStageLoad(delay: real)                // starts the real-time delayed stage load
    | LoadScene(name: string)
    | ScheduleResetTrigger(delay: real)             // a delayed re-arming of an input gate
    | LogWarning(message: string)
    | LogError(message: string)

  /** The result of one call: the component's next state and what it asked for. */
  datatype Step<S> = Step(state: S, effects: seq<Effect>)

  /** The five "MotionSuccess" clips every gesture manager draws its success sound from. */
  const SuccessClips: seq<string> :=
    ["MotionSuccess1", "MotionSuccess2", "MotionSuccess3", "MotionSuccess4", "MotionSuccess5"]

  /** The success clip at a caller-drawn position of the five-clip array. */
  function SuccessClip(pick: nat): (clip: string)
    requires pick < |SuccessClips|
    ensures clip in SuccessClips
  {
    SuccessClips[pick]
  }

  /** Total points an effect list hands to the score manager. */
  function PointsIn(effects: seq<Effect>): real
  {
    if |effects| == 0 then 0.0
    else (if effects[0].AddScore? then effects[0].points else 0.0) + PointsIn(effects[1..])
  }

  /** An effect list that never calls into the score manager. */
  predicate Scoreless(effects: seq<Effect>)
  {
    forall i :: 0 <= i < |effects| ==> !effects[i].AddScore?
  }

  /** An effect list that never schedules a stage load. */
  predicate NoStageLoad(effects: seq<Effect>)
  {
    forall i :: 0 <= i < |effects| ==> !effects[i].ScheduleStageLoad?
  }

  lemma ScorelessAppend(a: seq<Effect>, b: seq<Effect>)
    requires Scoreless(a) && Scoreless(b)
    ensures Scoreless(a + b)
  {
    forall i | |a| <= i < |a + b|
      ensures (a + b)[i] == b[i - |a|]
    {
    }
  }

  lemma NoStageLoadAppend(a: seq<Effect>, b: seq<Effect>)
    requires NoStageLoad(a) && NoStageLoad(b)
    ensures NoStageLoad(a + b)
  {
    forall i | |a| <= i < |a + b|
      ensures (a + b)[i] == b[i - |a|]
    {
    }
  }

  /** Whether an effect list vibrates a controller. */
  predicate Vibrates(effects: seq<Effect>)
  {
    exists i :: 0 <= i < |effects| && effects[i].Haptic?
  }

  /** A list wrapped in two lists that do not vibrate vibrates exactly when it does. */
  lemma VibratesOnlyInMiddle(a: seq<Effect>, b: seq<Effect>, c: seq<Effect>)
    requires !Vibrates(a) && !Vibrates(c)
    ensures Vibrates(a + b + c) <==> Vibrates(b)
  {
    var all := a + b + c;
    if Vibrates(b) {
      var k :| 0 <= k < |b| && b[k].Haptic?;
      assert all[|a| + k] == b[k];
    }
    if !Vibrates(b) {
      forall k | 0 <= k < |all|
        ensures !all[k].Haptic?
      {
        if k < |a| {
          assert all[k] == a[k];
        } else if k < |a| + |b| {
          assert all[k] == b[k - |a|];
        } else {
          assert all[k] == c[k - |a| - |b|];
        }
      }
    }
  }

  lemma {:induction false} PointsInAppend(a: seq<Effect>, b: seq<Effect>)
    ensures PointsIn(a + b) == PointsIn(a) + PointsIn(b)
    decreases |a|
  {
    if |a| == 0 {
      assert a + b == b;
    } else {
      assert (a + b)[1..] == a[1..] + b;
      PointsInAppend(a[1..], b);
    }
  }

  lemma {:induction false} ScorelessHasNoPoints(effects: seq<Effect>)
    requires Scoreless(effects)
    ensures PointsIn(effects) == 0.0
    decreases |effects|
  {
    if |effects| > 0 {
      ScorelessHasNoPoints(effects[1..]);
    }
  }

  /** Points of a list that is some score-free effects followed by one score call
      and more score-free effects. */
  lemma OneScoreCall(before: seq<Effect>, points: real, after: seq<Effect>)
    requires Scoreless(before) && Scoreless(after)
    ensures PointsIn(before + [AddScore(points)] + after) == points
  {
    PointsInAppend(before + [AddScore(points)], after);
    PointsInAppend(before, [AddScore(points)]);
    ScorelessHasNoPoints(before);
    ScorelessHasNoPoints(after);
  }

  /** The number of stage loads an effect list schedules. */
  function StageLoadsIn(effects: seq<Effect>): nat
  {
    if |effects| == 0 then 0
    else (if effects[0].ScheduleStageLoad? then 1 else 0) + StageLoadsIn(effects[1..])
  }

  lemma {:induction false} StageLoadsInAppend(a: seq<Effect>, b: seq<Effect>)
    ensures StageLoadsIn(a + b) == StageLoadsIn(a) + StageLoadsIn(b)
    decreases |a|
  {
    if |a| == 0 {
      assert a + b == b;
    } else {
      assert (a + b)[1..] == a[1..] + b;
      StageLoadsInAppend(a[1..], b);
    }
  }

  lemma {:induction false} NoStageLoadsIn(effects: seq<Effect>)
    requires NoStageLoad(effects)
    ensures StageLoadsIn(effects) == 0
    decreases |effects|
  {
    if |effects| > 0 {
      NoStageLoadsIn(effects[1..]);
    }
  }

  /** The middle part of a three-part effect list sits at the offset of the first. */
  lemma SliceOfConcat(a: seq<Effect>, b: seq<Effect>, c: seq<Effect>)
    ensures (a + b + c)[|a|..|a| + |b|] == b
  {
  }

  /** The sum of a sequence of frame durations. */
  function Sum(xs: seq<real>): real
  {
    if |xs| == 0 then 0.0 else xs[0] + Sum(xs[1..])
  }

  predicate AllNonNegative(xs: seq<real>)
  {
    forall i :: 0 <= i < |xs| ==> xs[i] >= 0.0
  }

  /** C#'s (int) cast of a float: truncation toward zero. */
  function Truncate(x: real): (n: int)
    ensures x >= 0.0 ==> n as real <= x < n as real + 1.0
    ensures x < 0.0 ==> n as real - 1.0 < x <= n as real
  {
    if x >= 0.0 then x.Floor else -((-x).Floor)
  }
}
