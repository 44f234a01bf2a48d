/** The score and level engine every gesture manager feeds: it accumulates points
    without a cap, derives a progress level 1..5 from the fraction of the maximum
    score reached, dispatches a rate-limited encouragement pulse (phrase, voice clip,
    animation cue, haptics) drawn from a per-level no-repeat bag, and starts the
    stage transition exactly once, when the score first reaches the maximum. */
module ScoreManager {
  import opened Engine
  import FeedbackBag

  const Levels: nat := 5

  /** The phrase library InitializePhraseLibrary builds: ten encouragement phrases
      per level, level 1 first. */
  const Phrases: seq<seq<string>> := [
    ["Good start!", "Keep it up!", "Nice move!", "Focusing well!", "Great beginning!",
     "Steady pace!", "Doing well!", "Nice rhythm!", "Stay calm!", "Good job!"],
    ["Getting stronger!", "Looking good!", "Nice form!", "Keep going!", "You got this!",
     "Well done!", "Moving well!", "Great effort!", "Stay strong!", "Solid work!"],
    ["Halfway there!", "Impressive!", "Great energy!", "Excellent!", "Keep pushing!",
     "Wonderful!", "Doing great!", "Fantastic!", "Stay focused!", "You are doing it!"],
    ["Almost there!", "Don't stop!", "Full power!", "Keep relaxed!", "Amazing job!",
     "So close!", "Keep fighting!", "Brilliant!", "Outstanding!", "Finish strong!"],
    ["Victory is yours!", "You are a legend!!", "Perfect!", "You almost did it!", "Excellent work!",
     "Almost success!", "Close to finish!", "Incredible work!", "You are Champion!", "Mission almost accomplished!"]
  ]

  /** A library with a list of ten phrases for each level. */
  predicate LibraryFits(phrases: seq<seq<string>>)
  {
    |phrases| == Levels && forall l :: 0 <= l < Levels ==> |phrases[l]| == FeedbackBag.BagSize
  }

  lemma PhrasesFit()
    ensures LibraryFits(Phrases)
  {
  }

  /** The animator cues a feedback pulse chooses among ("Score1", "Score3", "Score4"). */
  const GestureCues: seq<nat> := [1, 3, 4]

  const HapticFrequency: int := 150

  /** Real-time seconds between reaching the maximum and loading the next stage. */
  const StageLoadDelay: real := 3.0

  /** The inspector settings and the phrase library. `encouragementClips` is None
      when the list is unassigned; an entry is None when that slot holds no clip.
      `phrases` is the library built at start-up. The `has...` flags say whether the
      score text, encouragement text and animator references are assigned. */
  datatype Config = Config(
    maxScore: real,
    feedbackCooldown: real,
    hapticDuration: real,
    hapticStrength: real,
    encouragementClips: Option<seq<Option<nat>>>,
    phrases: seq<seq<string>>,
    hasScoreText: bool,
    hasEncouragingText: bool,
    hasAnimator: bool,
    nextStage: string)

  /** The settings the component ships with. */
  function DefaultConfig(clips: Option<seq<Option<nat>>>, nextStage: string): Config
  {
    Config(25.0, 3.0, 0.5, 0.6, clips, Phrases, true, true, true, nextStage)
  }

  /** `paused` is the completion guard (isGamePaused); `bags[l - 1]` is the phrase bag
      of level l. */
  datatype ScoreState = ScoreState(
    score: real,
    paused: bool,
    level: int,
    lastFeedbackTime: real,
    bags: seq<seq<nat>>)

  /** The state after start-up: every bag full. */
  function Initial(): ScoreState
  {
    ScoreState(0.0, false, 1, 0.0, seq(Levels, _ => FeedbackBag.FullBag()))
  }

  predicate Valid(s: ScoreState)
  {
    && 1 <= s.level <= Levels
    && |s.bags| == Levels
    && forall l :: 0 <= l < Levels ==> FeedbackBag.ValidBag(s.bags[l])
  }

  lemma InitialIsValid()
    ensures Valid(Initial())
  {
    FeedbackBag.FullBagIsValid();
  }

  // ---------------------------------------------------------------------------
  // Level

  function Clamp01(x: real): (r: real)
    ensures 0.0 <= r <= 1.0
  {
    if x < 0.0 then 0.0 else if x > 1.0 then 1.0 else x
  }

  /** The fraction of the maximum score reached, clamped to [0, 1]. */
  function Progress(score: real, maxScore: real): real
    requires maxScore > 0.0
  {
    Clamp01(score / maxScore)
  }

  /** The level the score manager derives after every score change. */
  function LevelOf(score: real, maxScore: real): (level: int)
    requires maxScore > 0.0
    ensures 1 <= level <= Levels
  {
    var p := Progress(score, maxScore);
    if p >= 0.8 then 5
    else if p >= 0.6 then 4
    else if p >= 0.4 then 3
    else if p >= 0.2 then 2
    else 1
  }

  /** The level boundaries as fractions of the maximum score. */
  const Thresholds: seq<real> := [0.2, 0.4, 0.6, 0.8]

  /** How many of the given boundaries a progress value has reached. */
  function Reached(p: real, ts: seq<real>): nat
  {
    if |ts| == 0 then 0 else (if p >= ts[0] then 1 else 0) + Reached(p, ts[1..])
  }

  /** The level is one more than the number of boundaries reached (each inclusive),
      and so lies in 1..5. */
  lemma LevelCountsThresholds(score: real, maxScore: real)
    requires maxScore > 0.0
    ensures LevelOf(score, maxScore) == 1 + Reached(Progress(score, maxScore), Thresholds)
    ensures 1 <= LevelOf(score, maxScore) <= Levels
  {
    var p := Progress(score, maxScore);
    var t1, t2, t3 := Thresholds[1..], Thresholds[2..], Thresholds[3..];
    assert t1 == [0.4, 0.6, 0.8] && t1[1..] == t2;
    assert t2 == [0.6, 0.8] && t2[1..] == t3;
    assert t3 == [0.8] && t3[1..] == [];
    assert Reached(p, t3) == (if p >= 0.8 then 1 else 0);
    assert Reached(p, t2) == (if p >= 0.6 then 1 else 0) + Reached(p, t3);
    assert Reached(p, t1) == (if p >= 0.4 then 1 else 0) + Reached(p, t2);
    assert Reached(p, Thresholds) == (if p >= 0.2 then 1 else 0) + Reached(p, t1);
  }

  /** More points never mean a lower level. */
  lemma LevelMonotone(a: real, b: real, maxScore: real)
    requires maxScore > 0.0 && a <= b
    ensures LevelOf(a, maxScore) <= LevelOf(b, maxScore)
  {
    assert a / maxScore <= b / maxScore by {
      assert b / maxScore - a / maxScore == (b - a) / maxScore;
    }
  }

  /** With the default maximum of 25: no points is level 1, 4.5 points is still level 1,
      5 points (exactly 20%) is level 2, and the maximum or more is level 5. */
  lemma LevelExamples()
    ensures LevelOf(0.0, 25.0) == 1
    ensures LevelOf(4.5, 25.0) == 1
    ensures LevelOf(5.0, 25.0) == 2
    ensures LevelOf(25.0, 25.0) == 5
    ensures LevelOf(40.0, 25.0) == 5
  {
  }

  // ---------------------------------------------------------------------------
  // Feedback pulse

  /** The voice clip slot of a phrase, assuming ten clips per level. */
  function GlobalSlot(level: int, index: int): int
  {
    (level - 1) * 10 + index
  }

  /** Every phrase of levels 1..5 has its own slot in [0, 50). */
  lemma GlobalSlotsAreDistinctAndBounded(l1: int, i1: int, l2: int, i2: int)
    requires 1 <= l1 <= Levels && 0 <= i1 < FeedbackBag.BagSize
    requires 1 <= l2 <= Levels && 0 <= i2 < FeedbackBag.BagSize
    ensures 0 <= GlobalSlot(l1, i1) < 50
    ensures GlobalSlot(l1, i1) == GlobalSlot(l2, i2) <==> l1 == l2 && i1 == i2
  {
  }

  const MissingClipWarning := "Missing Audio Clip"

  /** The voice part of a pulse: nothing when the clip list is unassigned or empty,
      the slot's clip when the slot is in range (and holds one), and a warning when
      it is out of range. */
  function PlayAudioForPhrase(clips: Option<seq<Option<nat>>>, level: int, index: int): (r: seq<Effect>)
    ensures |r| <= 1
    ensures |r| == 1 ==> r[0].PlayOneShot? || r[0].LogWarning?
    ensures clips.None? || |clips.value| == 0 ==> r == []
    ensures |r| == 1 && r[0].PlayOneShot? ==>
      && clips.Some?
      && 0 <= GlobalSlot(level, index) < |clips.value|
      && clips.value[GlobalSlot(level, index)] == Some(r[0].clipRef)
    ensures r == [LogWarning(MissingClipWarning)] <==>
      clips.Some? && |clips.value| > 0 && !(0 <= GlobalSlot(level, index) < |clips.value|)
    ensures clips.Some? && 0 <= GlobalSlot(level, index) < |clips.value|
            && clips.value[GlobalSlot(level, index)].Some?
            ==> r == [PlayOneShot(clips.value[GlobalSlot(level, index)].value)]
  {
    match clips
    case None => []
    case Some(cs) =>
      if |cs| == 0 then []
      else
        var slot := GlobalSlot(level, index);
        if 0 <= slot < |cs| then
          match cs[slot]
          case Some(clip) => [PlayOneShot(clip)]
          case None => []
        else [LogWarning(MissingClipWarning)]
  }

  /** The animation part of a pulse: one of the cues 1, 3, 4 at a caller-drawn
      position, or nothing without an animator. */
  function PlayRandomGesture(hasAnimator: bool, pick: nat): (r: seq<Effect>)
    requires pick < |GestureCues|
    ensures |r| == (if hasAnimator then 1 else 0)
    ensures hasAnimator ==> r[0] == AnimatorTrigger(GestureCues[pick]) && r[0].cue in {1, 3, 4}
  {
    if hasAnimator then [AnimatorTrigger(GestureCues[pick])] else []
  }

  /** Every one of the three cues can be chosen. */
  lemma EveryGestureCueReachable(cue: nat)
    requires cue in {1, 3, 4}
    ensures exists pick: nat :: pick < |GestureCues| && PlayRandomGesture(true, pick) == [AnimatorTrigger(cue)]
  {
    var pick := if cue == 1 then 0 else if cue == 3 then 1 else 2;
    assert PlayRandomGesture(true, pick) == [AnimatorTrigger(cue)];
  }

  /** The haptic part of a pulse: the left then the right controller, each at the
      configured strength, at 150 Hz, for the configured duration times 500 cut to
      whole milliseconds (0.5 gives 250 ms). */
  function TriggerHaptics(cfg: Config): (r: seq<Effect>)
    ensures |r| == 2 && r[0].Haptic? && r[1].Haptic?
    ensures r[0].controller == LeftController && r[1].controller == RightController
    ensures forall i :: 0 <= i < |r| ==>
      && r[i].strength == cfg.hapticStrength && r[i].frequency == HapticFrequency
      && r[i].durationMs == Truncate(cfg.hapticDuration * 500.0)
  {
    var ms := Truncate(cfg.hapticDuration * 500.0);
    [Haptic(LeftController, cfg.hapticStrength, ms, HapticFrequency),
     Haptic(RightController, cfg.hapticStrength, ms, HapticFrequency)]
  }

  /** A non-negative haptic duration in seconds becomes whole milliseconds at
      half speed, cut toward zero: the default 0.5 s gives 250 ms, and 0.0011 s
      gives 0 ms. */
  lemma HapticMillisecondsAreCut(cfg: Config)
    requires cfg.hapticDuration >= 0.0
    ensures var ms := TriggerHaptics(cfg)[0].durationMs;
      ms >= 0 && ms as real <= cfg.hapticDuration * 500.0 < ms as real + 1.0
    ensures cfg.hapticDuration == 0.5 ==> TriggerHaptics(cfg)[0].durationMs == 250
    ensures cfg.hapticDuration == 0.0011 ==> TriggerHaptics(cfg)[0].durationMs == 0
  {
  }

  /** The phrase drawn for a level, its index and the bags afterwards. */
  datatype PhraseDraw = PhraseDraw(phrase: string, index: nat, bags: seq<seq<nat>>)

  /** A draw from the level's bag (refilled first if empty); only that bag changes. */
  function GetRandomPhrase(phrases: seq<seq<string>>, bags: seq<seq<nat>>, level: int, pick: nat): (r: PhraseDraw)
    requires LibraryFits(phrases)
    requires 1 <= level <= Levels && |bags| == Levels
    requires forall l :: 0 <= l < Levels ==> FeedbackBag.ValidBag(bags[l])
    requires pick < |FeedbackBag.Refill(bags[level - 1])|
    ensures |r.bags| == Levels
    ensures r.index < FeedbackBag.BagSize && r.phrase == phrases[level - 1][r.index]
    ensures r.index in FeedbackBag.Refill(bags[level - 1]) && r.index !in r.bags[level - 1]
    ensures multiset(r.bags[level - 1]) + multiset{r.index} == multiset(FeedbackBag.Refill(bags[level - 1]))
    ensures forall l :: 0 <= l < Levels && l != level - 1 ==> r.bags[l] == bags[l]
    ensures forall l :: 0 <= l < Levels ==> FeedbackBag.ValidBag(r.bags[l])
  {
    var d := FeedbackBag.Draw(bags[level - 1], pick);
    PhraseDraw(phrases[level - 1][d.index], d.index, bags[level - 1 := d.bag])
  }

  /** The spoken part of a pulse for the phrase at `index` of `level`: the phrase
      shown when there is a text field, then the voice clip of that same phrase. */
  function PhraseEffects(cfg: Config, level: int, index: nat): (r: seq<Effect>)
    requires LibraryFits(cfg.phrases) && 1 <= level <= Levels && index < FeedbackBag.BagSize
    ensures |r| <= 2
    ensures forall i :: 0 <= i < |r| && r[i].SetEncouragingText? ==> i == 0 && cfg.hasEncouragingText
    ensures cfg.hasEncouragingText ==> |r| > 0 && r[0] == SetEncouragingText(cfg.phrases[level - 1][index])
    ensures forall i :: 0 <= i < |r| ==> r[i].SetEncouragingText? || r[i].PlayOneShot? || r[i].LogWarning?
    ensures forall i :: 0 <= i < |r| && r[i].PlayOneShot? ==>
      && i == |r| - 1
      && cfg.encouragementClips.Some?
      && GlobalSlot(level, index) < |cfg.encouragementClips.value|
      && cfg.encouragementClips.value[GlobalSlot(level, index)] == Some(r[i].clipRef)
    ensures cfg.encouragementClips.Some? && GlobalSlot(level, index) < |cfg.encouragementClips.value|
            && cfg.encouragementClips.value[GlobalSlot(level, index)].Some?
            ==> |r| > 0 && r[|r| - 1] == PlayOneShot(cfg.encouragementClips.value[GlobalSlot(level, index)].value)
    ensures (|r| > 0 && r[|r| - 1] == LogWarning(MissingClipWarning)) <==>
      cfg.encouragementClips.Some? && 0 < |cfg.encouragementClips.value| <= GlobalSlot(level, index)
  {
    var text := if cfg.hasEncouragingText then [SetEncouragingText(cfg.phrases[level - 1][index])] else [];
    text + PlayAudioForPhrase(cfg.encouragementClips, level, index)
  }

  /** The effects of a pulse for the phrase at `index` of `level`: the spoken part,
      then the gesture cue at a caller-drawn position, then the haptics. */
  function PulseEffects(cfg: Config, level: int, index: nat, gesturePick: nat): (r: seq<Effect>)
    requires LibraryFits(cfg.phrases) && 1 <= level <= Levels && index < FeedbackBag.BagSize
    requires gesturePick < |GestureCues|
    ensures |r| >= 2 && r[|r| - 2..] == TriggerHaptics(cfg)
  {
    var spoken := PhraseEffects(cfg, level, index);
    var cue := PlayRandomGesture(cfg.hasAnimator, gesturePick);
    var haptics := TriggerHaptics(cfg);
    assert (spoken + cue + haptics)[|spoken + cue + haptics| - 2..] == haptics;
    spoken + cue + haptics
  }

  /** None of the three parts of a pulse calls into the score manager or schedules
      a stage load. */
  lemma PulsePartsAreQuiet(cfg: Config, level: int, index: nat, gesturePick: nat)
    requires LibraryFits(cfg.phrases) && 1 <= level <= Levels && index < FeedbackBag.BagSize
    requires gesturePick < |GestureCues|
    ensures Scoreless(PhraseEffects(cfg, level, index)) && NoStageLoad(PhraseEffects(cfg, level, index))
    ensures Scoreless(PlayRandomGesture(cfg.hasAnimator, gesturePick))
    ensures NoStageLoad(PlayRandomGesture(cfg.hasAnimator, gesturePick))
    ensures Scoreless(TriggerHaptics(cfg)) && NoStageLoad(TriggerHaptics(cfg))
  {
  }

  /** A pulse never calls into the score manager and never schedules a stage load. */
  lemma PulseIsQuiet(cfg: Config, level: int, index: nat, gesturePick: nat)
    requires LibraryFits(cfg.phrases) && 1 <= level <= Levels && index < FeedbackBag.BagSize
    requires gesturePick < |GestureCues|
    ensures Scoreless(PulseEffects(cfg, level, index, gesturePick))
    ensures NoStageLoad(PulseEffects(cfg, level, index, gesturePick))
  {
    var spoken := PhraseEffects(cfg, level, index);
    var cue := PlayRandomGesture(cfg.hasAnimator, gesturePick);
    var haptics := TriggerHaptics(cfg);
    PulsePartsAreQuiet(cfg, level, index, gesturePick);
    ScorelessAppend(spoken, cue);
    ScorelessAppend(spoken + cue, haptics);
    NoStageLoadAppend(spoken, cue);
    NoStageLoadAppend(spoken + cue, haptics);
  }

  /** The outcome of one encouragement pulse: the bags afterwards, the index of the
      phrase drawn, and the effects requested. */
  datatype Pulse = Pulse(bags: seq<seq<nat>>, index: nat, effects: seq<Effect>)

  /** One encouragement pulse for a level: a phrase is drawn once from the level's
      bag, and the effects are the pulse for that one drawn index, so the text shown
      and the voice clip belong to the same phrase. */
  function TriggerVPMFeedback(cfg: Config, bags: seq<seq<nat>>, level: int, phrasePick: nat, gesturePick: nat)
    : (r: Pulse)
    requires LibraryFits(cfg.phrases) && 1 <= level <= Levels && |bags| == Levels
    requires forall l :: 0 <= l < Levels ==> FeedbackBag.ValidBag(bags[l])
    requires phrasePick < |FeedbackBag.Refill(bags[level - 1])| && gesturePick < |GestureCues|
    ensures |r.bags| == Levels && forall l :: 0 <= l < Levels ==> FeedbackBag.ValidBag(r.bags[l])
    ensures forall l :: 0 <= l < Levels && l != level - 1 ==> r.bags[l] == bags[l]
    ensures r.index < FeedbackBag.BagSize
    ensures r.index in FeedbackBag.Refill(bags[level - 1]) && r.index !in r.bags[level - 1]
    ensures multiset(r.bags[level - 1]) + multiset{r.index} == multiset(FeedbackBag.Refill(bags[level - 1]))
    ensures |r.bags[level - 1]| == |FeedbackBag.Refill(bags[level - 1])| - 1
    ensures r.effects == PulseEffects(cfg, level, r.index, gesturePick)
  {
    var d := GetRandomPhrase(cfg.phrases, bags, level, phrasePick);
    Pulse(d.bags, d.index, PulseEffects(cfg, level, d.index, gesturePick))
  }

  /** A pulse begins with its spoken part; everything after it is the gesture cue
      or a haptic impulse. */
  lemma PulseBeginsSpoken(cfg: Config, level: int, index: nat, gesturePick: nat)
    requires LibraryFits(cfg.phrases) && 1 <= level <= Levels && index < FeedbackBag.BagSize
    requires gesturePick < |GestureCues|
    ensures var r := PulseEffects(cfg, level, index, gesturePick);
      var spoken := PhraseEffects(cfg, level, index);
      && |spoken| <= |r|
      && (forall i :: 0 <= i < |spoken| ==> r[i] == spoken[i])
      && (forall i :: |spoken| <= i < |r| ==> r[i].AnimatorTrigger? || r[i].Haptic?)
  {
    var r := PulseEffects(cfg, level, index, gesturePick);
    var spoken := PhraseEffects(cfg, level, index);
    var rest := PlayRandomGesture(cfg.hasAnimator, gesturePick) + TriggerHaptics(cfg);
    assert r == spoken + rest;
    forall i | |spoken| <= i < |r|
      ensures r[i].AnimatorTrigger? || r[i].Haptic?
    {
      assert r[i] == rest[i - |spoken|];
    }
  }

  /** A pulse shows the phrase it is for: when there is a text field, that phrase
      comes first, and nothing else the pulse does sets the text. */
  lemma PulseShowsThePhrase(cfg: Config, level: int, index: nat, gesturePick: nat)
    requires LibraryFits(cfg.phrases) && 1 <= level <= Levels && index < FeedbackBag.BagSize
    requires gesturePick < |GestureCues|
    ensures var r := PulseEffects(cfg, level, index, gesturePick);
      && (cfg.hasEncouragingText ==> r[0] == SetEncouragingText(cfg.phrases[level - 1][index]))
      && (forall i :: 0 <= i < |r| && r[i].SetEncouragingText? ==> i == 0 && cfg.hasEncouragingText)
  {
    PulseBeginsSpoken(cfg, level, index, gesturePick);
  }

  /** A pulse speaks the phrase it is for: any voice clip is the clip in that
      phrase's slot, and that clip is played whenever the slot holds one. */
  lemma PulseSpeaksThePhrase(cfg: Config, level: int, index: nat, gesturePick: nat)
    requires LibraryFits(cfg.phrases) && 1 <= level <= Levels && index < FeedbackBag.BagSize
    requires gesturePick < |GestureCues|
    ensures var r := PulseEffects(cfg, level, index, gesturePick);
      var clips := cfg.encouragementClips;
      && (forall i :: 0 <= i < |r| && r[i].PlayOneShot? ==>
            clips.Some? && GlobalSlot(level, index) < |clips.value|
            && clips.value[GlobalSlot(level, index)] == Some(r[i].clipRef))
      && (clips.Some? && GlobalSlot(level, index) < |clips.value| && clips.value[GlobalSlot(level, index)].Some?
          ==> PlayOneShot(clips.value[GlobalSlot(level, index)].value) in r)
  {
    PulseBeginsSpoken(cfg, level, index, gesturePick);
    var r := PulseEffects(cfg, level, index, gesturePick);
    var spoken := PhraseEffects(cfg, level, index);
    if |spoken| > 0 {
      assert r[|spoken| - 1] == spoken[|spoken| - 1];
    }
  }

  /** A pulse plays its drawn gesture cue, right before the haptics, exactly when
      there is an animator, and plays no other cue. */
  lemma PulsePlaysTheCue(cfg: Config, level: int, index: nat, gesturePick: nat)
    requires LibraryFits(cfg.phrases) && 1 <= level <= Levels && index < FeedbackBag.BagSize
    requires gesturePick < |GestureCues|
    ensures var r := PulseEffects(cfg, level, index, gesturePick);
      && (cfg.hasAnimator ==> r[|r| - 3] == AnimatorTrigger(GestureCues[gesturePick]))
      && (forall i :: 0 <= i < |r| && r[i].AnimatorTrigger? ==> cfg.hasAnimator && i == |r| - 3)
  {
    var r := PulseEffects(cfg, level, index, gesturePick);
    var spoken := PhraseEffects(cfg, level, index);
    var cue := PlayRandomGesture(cfg.hasAnimator, gesturePick);
    var haptics := TriggerHaptics(cfg);
    assert r == spoken + cue + haptics;
    forall i | 0 <= i < |r|
      ensures r[i].AnimatorTrigger? ==> cfg.hasAnimator && i == |r| - 3
    {
      if i < |spoken| {
        assert r[i] == spoken[i];
      } else if i >= |spoken| + |cue| {
        assert r[i] == haptics[i - |spoken| - |cue|];
      }
    }
    if cfg.hasAnimator {
      assert r[|spoken|] == cue[0];
    }
  }

  // ---------------------------------------------------------------------------
  // Adding points

  /** One call of AddScore: the points, the game clock at the call, and the draws
      the feedback pulse would use. */
  datatype ScoreCall = ScoreCall(points: real, now: real, phrasePick: nat, gesturePick: nat)

  /** The call is well defined: a positive maximum, a full phrase library, a valid
      state, and draws within the bounds Random.Range would respect for the level
      the call reaches. */
  predicate CallFits(cfg: Config, s: ScoreState, c: ScoreCall)
  {
    && cfg.maxScore > 0.0
    && LibraryFits(cfg.phrases)
    && Valid(s)
    && c.gesturePick < |GestureCues|
    && c.phrasePick < |FeedbackBag.Refill(s.bags[LevelOf(s.score + c.points, cfg.maxScore) - 1])|
  }

  /** Whether a call at time `now` is outside the feedback cooldown. */
  predicate FeedbackDue(cfg: Config, s: ScoreState, now: real)
  {
    now - s.lastFeedbackTime >= cfg.feedbackCooldown
  }

  /** The level and feedback half of a score change, on the state whose score has
      already been updated: the level is recomputed, and a pulse for that level is
      sent exactly when the feedback cooldown has passed since the last one. */
  function CheckLevelAndTriggerFeedback(cfg: Config, s: ScoreState, now: real, phrasePick: nat, gesturePick: nat)
    : (r: Step<ScoreState>)
    requires cfg.maxScore > 0.0 && LibraryFits(cfg.phrases) && Valid(s) && gesturePick < |GestureCues|
    requires phrasePick < |FeedbackBag.Refill(s.bags[LevelOf(s.score, cfg.maxScore) - 1])|
    ensures Valid(r.state)
    ensures r.state.score == s.score && r.state.paused == s.paused
    ensures r.state.level == LevelOf(s.score, cfg.maxScore)
    ensures FeedbackDue(cfg, s, now) ==>
      var l := LevelOf(s.score, cfg.maxScore) - 1;
      && r.state.lastFeedbackTime == now
      && |r.state.bags[l]| == |FeedbackBag.Refill(s.bags[l])| - 1
      && forall k :: 0 <= k < Levels && k != l ==> r.state.bags[k] == s.bags[k]
    ensures FeedbackDue(cfg, s, now) ==> |r.effects| >= 2 && r.effects[|r.effects| - 2..] == TriggerHaptics(cfg)
    ensures !FeedbackDue(cfg, s, now) ==>
      r.state.lastFeedbackTime == s.lastFeedbackTime && r.state.bags == s.bags && r.effects == []
  {
    var level := LevelOf(s.score, cfg.maxScore);
    if FeedbackDue(cfg, s, now) then
      var pulse := TriggerVPMFeedback(cfg, s.bags, level, phrasePick, gesturePick);
      Step(s.(level := level, lastFeedbackTime := now, bags := pulse.bags), pulse.effects)
    else
      Step(s.(level := level), [])
  }

  /** The level step never calls into the score manager and never schedules a
      stage load. */
  lemma LevelStepIsQuiet(cfg: Config, s: ScoreState, now: real, phrasePick: nat, gesturePick: nat)
    requires cfg.maxScore > 0.0 && LibraryFits(cfg.phrases) && Valid(s) && gesturePick < |GestureCues|
    requires phrasePick < |FeedbackBag.Refill(s.bags[LevelOf(s.score, cfg.maxScore) - 1])|
    ensures Scoreless(CheckLevelAndTriggerFeedback(cfg, s, now, phrasePick, gesturePick).effects)
    ensures NoStageLoad(CheckLevelAndTriggerFeedback(cfg, s, now, phrasePick, gesturePick).effects)
  {
    if FeedbackDue(cfg, s, now) {
      var level := LevelOf(s.score, cfg.maxScore);
      var pulse := TriggerVPMFeedback(cfg, s.bags, level, phrasePick, gesturePick);
      PulseIsQuiet(cfg, level, pulse.index, gesturePick);
    }
  }

  /** The completion half of a score change: the first change that finds the score
      at or above the maximum while the guard is down raises the guard, freezes the
      game clock and schedules the stage load; the guard is never lowered again. */
  function CheckGameCompletion(cfg: Config, score: real, paused: bool): (r: Step<bool>)
    ensures r.state == (paused || score >= cfg.maxScore)
    ensures forall i :: 0 <= i < |r.effects| ==> r.effects[i].SetTimeScale? || r.effects[i].ScheduleStageLoad?
    ensures StageLoadsIn(r.effects) == (if !paused && score >= cfg.maxScore then 1 else 0)
    ensures Scoreless(r.effects)
  {
    if score >= cfg.maxScore && !paused then
      var stage := [SetTimeScale(0.0), ScheduleStageLoad(StageLoadDelay)];
      assert stage[1..] == [ScheduleStageLoad(StageLoadDelay)] && stage[1..][1..] == [];
      assert StageLoadsIn(stage[1..]) == 1 + StageLoadsIn([]);
      Step(true, stage)
    else
      Step(paused, [])
  }

  /** AddScore: add the points, refresh the score text, recompute the level, send a
      pulse if the feedback cooldown has passed, and start the stage transition if the
      maximum is reached for the first time. */
  function AddScore(cfg: Config, s: ScoreState, c: ScoreCall): (r: Step<ScoreState>)
    requires CallFits(cfg, s, c)
    ensures r.state.score == s.score + c.points
    ensures Valid(r.state)
    ensures r.state.level == LevelOf(r.state.score, cfg.maxScore)
    ensures r.state.paused == (s.paused || r.state.score >= cfg.maxScore)
    ensures FeedbackDue(cfg, s, c.now) ==>
      && r.state.lastFeedbackTime == c.now
      && |r.state.bags[r.state.level - 1]| == |FeedbackBag.Refill(s.bags[r.state.level - 1])| - 1
      && forall l :: 0 <= l < Levels && l != r.state.level - 1 ==> r.state.bags[l] == s.bags[l]
    ensures !FeedbackDue(cfg, s, c.now) ==>
      r.state.lastFeedbackTime == s.lastFeedbackTime && r.state.bags == s.bags
    ensures cfg.hasScoreText ==> |r.effects| > 0 && r.effects[0] == SetScoreText(r.state.score, cfg.maxScore)
  {
    var added := s.(score := s.score + c.points);
    var ui := if cfg.hasScoreText then [SetScoreText(added.score, cfg.maxScore)] else [];
    var feedback := CheckLevelAndTriggerFeedback(cfg, added, c.now, c.phrasePick, c.gesturePick);
    var completion := CheckGameCompletion(cfg, added.score, s.paused);
    Step(feedback.state.(paused := completion.state), ui + feedback.effects + completion.effects)
  }

  /** A score call never calls back into the score manager, and schedules the stage
      load exactly when it is the first to reach the maximum. */
  lemma AddScoreEffects(cfg: Config, s: ScoreState, c: ScoreCall)
    requires CallFits(cfg, s, c)
    ensures var r := AddScore(cfg, s, c);
      && Scoreless(r.effects)
      && StageLoadsIn(r.effects) == (if !s.paused && r.state.score >= cfg.maxScore then 1 else 0)
  {
    var added := s.(score := s.score + c.points);
    var ui := if cfg.hasScoreText then [SetScoreText(added.score, cfg.maxScore)] else [];
    var feedback := CheckLevelAndTriggerFeedback(cfg, added, c.now, c.phrasePick, c.gesturePick);
    var completion := CheckGameCompletion(cfg, added.score, s.paused);
    LevelStepIsQuiet(cfg, added, c.now, c.phrasePick, c.gesturePick);
    assert Scoreless(ui) && NoStageLoad(ui);
    ScorelessAppend(ui, feedback.effects);
    ScorelessAppend(ui + feedback.effects, completion.effects);
    NoStageLoadAppend(ui, feedback.effects);
    NoStageLoadsIn(ui + feedback.effects);
    StageLoadsInAppend(ui + feedback.effects, completion.effects);
  }

  /** When the feedback cooldown has passed, the effects of the level step are
      exactly the pulse for the level the new score reaches, and its bags are the
      pulse's bags. */
  lemma FeedbackSendsThePulse(cfg: Config, s: ScoreState, now: real, phrasePick: nat, gesturePick: nat)
    requires cfg.maxScore > 0.0 && LibraryFits(cfg.phrases) && Valid(s) && gesturePick < |GestureCues|
    requires phrasePick < |FeedbackBag.Refill(s.bags[LevelOf(s.score, cfg.maxScore) - 1])|
    requires FeedbackDue(cfg, s, now)
    ensures var r := CheckLevelAndTriggerFeedback(cfg, s, now, phrasePick, gesturePick);
      var pulse := TriggerVPMFeedback(cfg, s.bags, LevelOf(s.score, cfg.maxScore), phrasePick, gesturePick);
      r.state.bags == pulse.bags && r.effects == pulse.effects
  {
  }

  /** A score call carries the effects of its level step right after the score
      text, and keeps that step's bags; with FeedbackSendsThePulse, a call outside
      the cooldown carries the pulse for the level the new score reaches. */
  lemma AddScoreSendsThePulse(cfg: Config, s: ScoreState, c: ScoreCall)
    requires CallFits(cfg, s, c)
    ensures var feedback := CheckLevelAndTriggerFeedback(cfg, s.(score := s.score + c.points), c.now, c.phrasePick, c.gesturePick);
      var r := AddScore(cfg, s, c);
      var ui := if cfg.hasScoreText then 1 else 0;
      && r.state.bags == feedback.state.bags
      && ui + |feedback.effects| <= |r.effects| && r.effects[ui..ui + |feedback.effects|] == feedback.effects
  {
    var added := s.(score := s.score + c.points);
    var ui := if cfg.hasScoreText then [SetScoreText(added.score, cfg.maxScore)] else [];
    var feedback := CheckLevelAndTriggerFeedback(cfg, added, c.now, c.phrasePick, c.gesturePick);
    var completion := CheckGameCompletion(cfg, added.score, s.paused);
    SliceOfConcat(ui, feedback.effects, completion.effects);
  }

  /** A score call vibrates the controllers exactly when the feedback cooldown has
      passed. */
  lemma AddScoreVibratesIffDue(cfg: Config, s: ScoreState, c: ScoreCall)
    requires CallFits(cfg, s, c)
    ensures Vibrates(AddScore(cfg, s, c).effects) <==> FeedbackDue(cfg, s, c.now)
  {
    var added := s.(score := s.score + c.points);
    var ui := if cfg.hasScoreText then [SetScoreText(added.score, cfg.maxScore)] else [];
    var feedback := CheckLevelAndTriggerFeedback(cfg, added, c.now, c.phrasePick, c.gesturePick);
    var completion := CheckGameCompletion(cfg, added.score, s.paused);
    assert AddScore(cfg, s, c).effects == ui + feedback.effects + completion.effects;
    assert !Vibrates(ui);
    assert !Vibrates(completion.effects);
    VibratesOnlyInMiddle(ui, feedback.effects, completion.effects);
    if FeedbackDue(cfg, s, c.now) {
      assert feedback.effects[|feedback.effects| - 1] == TriggerHaptics(cfg)[1];
    }
  }

  /** What the delayed stage load does once its real-time delay has passed: restore
      the time scale, then load the next stage if one is named, else only warn. */
  function LoadNextSceneAfterDelay(cfg: Config): (r: seq<Effect>)
    ensures |r| == 2 && r[0] == SetTimeScale(1.0)
    ensures r[1] == LoadScene(cfg.nextStage) <==> |cfg.nextStage| > 0
    ensures |cfg.nextStage| == 0 ==> r[1].LogWarning?
  {
    [SetTimeScale(1.0)]
    + if |cfg.nextStage| > 0 then [LoadScene(cfg.nextStage)]
      else [LogWarning("Next stage name is empty in ScoreManager!")]
  }

  // ---------------------------------------------------------------------------
  // Runs of calls

  /** Every call of the run fits the state it meets. */
  ghost predicate RunFits(cfg: Config, s: ScoreState, calls: seq<ScoreCall>)
    decreases |calls|
  {
    |calls| == 0 || (CallFits(cfg, s, calls[0]) && RunFits(cfg, AddScore(cfg, s, calls[0]).state, calls[1..]))
  }

  /** The state after a run of AddScore calls and all effects they requested. */
  function Run(cfg: Config, s: ScoreState, calls: seq<ScoreCall>): Step<ScoreState>
    requires RunFits(cfg, s, calls)
    decreases |calls|
  {
    if |calls| == 0 then Step(s, [])
    else
      var first := AddScore(cfg, s, calls[0]);
      var rest := Run(cfg, first.state, calls[1..]);
      Step(rest.state, first.effects + rest.effects)
  }

  /** The game-clock times of the calls of a run that sent a feedback pulse, in
      call order. */
  function PulseTimes(cfg: Config, s: ScoreState, calls: seq<ScoreCall>): (ts: seq<real>)
    requires RunFits(cfg, s, calls)
    ensures |ts| <= |calls|
    decreases |calls|
  {
    if |calls| == 0 then []
    else
      (if FeedbackDue(cfg, s, calls[0].now) then [calls[0].now] else [])
      + PulseTimes(cfg, AddScore(cfg, s, calls[0]).state, calls[1..])
  }

  /** One call of a run: the rest of the run fits the state it leaves, its pulse
      time (if any) leads the run's pulse times, that time is what it remembers, and
      the run ends where the rest of it ends. */
  lemma PulseTimesStep(cfg: Config, s: ScoreState, calls: seq<ScoreCall>)
    requires RunFits(cfg, s, calls) && |calls| > 0
    ensures var next := AddScore(cfg, s, calls[0]).state;
      var own := if FeedbackDue(cfg, s, calls[0].now) then [calls[0].now] else [];
      && RunFits(cfg, next, calls[1..])
      && PulseTimes(cfg, s, calls) == own + PulseTimes(cfg, next, calls[1..])
      && next.lastFeedbackTime == (if FeedbackDue(cfg, s, calls[0].now) then calls[0].now else s.lastFeedbackTime)
      && Run(cfg, s, calls).state == Run(cfg, next, calls[1..]).state
  {
  }

  /** Times that start a gap after `last` and then keep that gap between neighbours. */
  predicate Spaced(last: real, ts: seq<real>, gap: real)
  {
    && (|ts| > 0 ==> ts[0] - last >= gap)
    && (forall i :: 0 < i < |ts| ==> ts[i] - ts[i - 1] >= gap)
  }

  lemma SpacedCons(last: real, t: real, rest: seq<real>, gap: real)
    requires t - last >= gap && Spaced(t, rest, gap)
    ensures Spaced(last, [t] + rest, gap)
  {
    var ts := [t] + rest;
    forall i | 0 < i < |ts|
      ensures ts[i] - ts[i - 1] >= gap
    {
      if i > 1 {
        assert ts[i] == rest[i - 1] && ts[i - 1] == rest[i - 2];
      }
    }
  }

  /** Pulses respect the feedback cooldown: the first comes at least a cooldown after
      the last pulse before the run, and each later one at least a cooldown after the
      one before it. */
  lemma {:induction false} PulsesRespectCooldown(cfg: Config, s: ScoreState, calls: seq<ScoreCall>)
    requires RunFits(cfg, s, calls)
    ensures var ts := PulseTimes(cfg, s, calls);
      && (|ts| > 0 ==> ts[0] - s.lastFeedbackTime >= cfg.feedbackCooldown)
      && (forall i :: 0 < i < |ts| ==> ts[i] - ts[i - 1] >= cfg.feedbackCooldown)
    decreases |calls|
  {
    if |calls| > 0 {
      var next := AddScore(cfg, s, calls[0]).state;
      PulseTimesStep(cfg, s, calls);
      PulsesRespectCooldown(cfg, next, calls[1..]);
      if FeedbackDue(cfg, s, calls[0].now) {
        SpacedCons(s.lastFeedbackTime, calls[0].now, PulseTimes(cfg, next, calls[1..]), cfg.feedbackCooldown);
      }
    }
  }

  /** A run ends remembering the time of its last pulse, or the time it started
      with when it sent none. */
  lemma {:induction false} RunRemembersLastPulse(cfg: Config, s: ScoreState, calls: seq<ScoreCall>)
    requires RunFits(cfg, s, calls)
    ensures var ts := PulseTimes(cfg, s, calls);
      Run(cfg, s, calls).state.lastFeedbackTime == (if |ts| == 0 then s.lastFeedbackTime else ts[|ts| - 1])
    decreases |calls|
  {
    if |calls| > 0 {
      var next := AddScore(cfg, s, calls[0]).state;
      PulseTimesStep(cfg, s, calls);
      RunRemembersLastPulse(cfg, next, calls[1..]);
      var own := if FeedbackDue(cfg, s, calls[0].now) then [calls[0].now] else [];
      var rest := PulseTimes(cfg, next, calls[1..]);
      if |rest| > 0 {
        assert (own + rest)[|own + rest| - 1] == rest[|rest| - 1];
      }
    }
  }

  /** When consecutive times are a non-negative gap apart, so are any two. */
  lemma {:induction false} GapsAddUp(ts: seq<real>, gap: real, i: int, j: int)
    requires gap >= 0.0 && 0 <= i < j < |ts|
    requires forall k :: 0 < k < |ts| ==> ts[k] - ts[k - 1] >= gap
    ensures ts[j] - ts[i] >= gap
    decreases j - i
  {
    if j > i + 1 {
      GapsAddUp(ts, gap, i, j - 1);
      assert ts[j] - ts[j - 1] >= gap;
    }
  }

  /** With a non-negative cooldown, any two pulses of a run are at least a cooldown
      apart. */
  lemma PulsePairsRespectCooldown(cfg: Config, s: ScoreState, calls: seq<ScoreCall>)
    requires RunFits(cfg, s, calls) && cfg.feedbackCooldown >= 0.0
    ensures var ts := PulseTimes(cfg, s, calls);
      forall i, j :: 0 <= i < j < |ts| ==> ts[j] - ts[i] >= cfg.feedbackCooldown
  {
    PulsesRespectCooldown(cfg, s, calls);
    var ts := PulseTimes(cfg, s, calls);
    forall i, j | 0 <= i < j < |ts|
      ensures ts[j] - ts[i] >= cfg.feedbackCooldown
    {
      GapsAddUp(ts, cfg.feedbackCooldown, i, j);
    }
  }

  /** Calls that all come within the cooldown of the last pulse send no pulse and
      leave the phrase bags and the pulse time as they were. */
  lemma {:induction false} QuietRunKeepsBags(cfg: Config, s: ScoreState, calls: seq<ScoreCall>)
    requires RunFits(cfg, s, calls)
    requires forall i :: 0 <= i < |calls| ==> calls[i].now - s.lastFeedbackTime < cfg.feedbackCooldown
    ensures PulseTimes(cfg, s, calls) == []
    ensures Run(cfg, s, calls).state.bags == s.bags
    ensures Run(cfg, s, calls).state.lastFeedbackTime == s.lastFeedbackTime
    decreases |calls|
  {
    if |calls| > 0 {
      var next := AddScore(cfg, s, calls[0]).state;
      assert calls[0].now - s.lastFeedbackTime < cfg.feedbackCooldown;
      assert forall i :: 0 <= i < |calls[1..]| ==> calls[1..][i] == calls[i + 1];
      QuietRunKeepsBags(cfg, next, calls[1..]);
    }
  }

  function SumPoints(calls: seq<ScoreCall>): real
  {
    if |calls| == 0 then 0.0 else calls[0].points + SumPoints(calls[1..])
  }

  /** The score after a run is the start score plus every point added: nothing is
      capped or lost. */
  lemma {:induction false} RunAddsAllPoints(cfg: Config, s: ScoreState, calls: seq<ScoreCall>)
    requires RunFits(cfg, s, calls)
    ensures Run(cfg, s, calls).state.score == s.score + SumPoints(calls)
    decreases |calls|
  {
    if |calls| > 0 {
      RunAddsAllPoints(cfg, AddScore(cfg, s, calls[0]).state, calls[1..]);
    }
  }

  /** The stage transition starts at most once in any run: once if the guard was down
      at the start and is up at the end, never otherwise. */
  lemma {:induction false} CompletionStartsAtMostOnce(cfg: Config, s: ScoreState, calls: seq<ScoreCall>)
    requires RunFits(cfg, s, calls)
    ensures StageLoadsIn(Run(cfg, s, calls).effects) == (if !s.paused && Run(cfg, s, calls).state.paused then 1 else 0)
    ensures s.paused ==> Run(cfg, s, calls).state.paused
    decreases |calls|
  {
    if |calls| > 0 {
      var first := AddScore(cfg, s, calls[0]);
      AddScoreEffects(cfg, s, calls[0]);
      CompletionStartsAtMostOnce(cfg, first.state, calls[1..]);
      StageLoadsInAppend(first.effects, Run(cfg, first.state, calls[1..]).effects);
    }
  }

  /** When points are never negative, the guard is up exactly when the score has
      reached the maximum, so the transition starts exactly when a run first takes
      the score to the maximum. */
  lemma {:induction false} GuardTracksMaximum(cfg: Config, s: ScoreState, calls: seq<ScoreCall>)
    requires RunFits(cfg, s, calls)
    requires forall i :: 0 <= i < |calls| ==> calls[i].points >= 0.0
    requires s.paused <==> s.score >= cfg.maxScore
    ensures Run(cfg, s, calls).state.paused <==> Run(cfg, s, calls).state.score >= cfg.maxScore
    decreases |calls|
  {
    if |calls| > 0 {
      GuardTracksMaximum(cfg, AddScore(cfg, s, calls[0]).state, calls[1..]);
    }
  }

  /** Draws at position 0 always fit, so every run of such calls is well defined. */
  lemma {:induction false} FirstPicksAlwaysFit(cfg: Config, s: ScoreState, calls: seq<ScoreCall>)
    requires cfg.maxScore > 0.0 && LibraryFits(cfg.phrases) && Valid(s)
    requires forall i :: 0 <= i < |calls| ==> calls[i].phrasePick == 0 && calls[i].gesturePick == 0
    ensures RunFits(cfg, s, calls)
    decreases |calls|
  {
    if |calls| > 0 {
      LevelCountsThresholds(s.score + calls[0].points, cfg.maxScore);
      assert CallFits(cfg, s, calls[0]);
      FirstPicksAlwaysFit(cfg, AddScore(cfg, s, calls[0]).state, calls[1..]);
    }
  }

  lemma {:induction false} SumOfEqualPoints(calls: seq<ScoreCall>, p: real)
    requires forall i :: 0 <= i < |calls| ==> calls[i].points == p
    ensures SumPoints(calls) == |calls| as real * p
    decreases |calls|
  {
    if |calls| > 0 {
      SumOfEqualPoints(calls[1..], p);
    }
  }

  /** A fresh session fed equal non-negative grants ends at their total and starts the
      stage transition once if that total reaches the maximum, never otherwise. */
  lemma EqualGrantsCompleteAtMostOnce(cfg: Config, calls: seq<ScoreCall>, p: real)
    requires cfg.maxScore > 0.0 && LibraryFits(cfg.phrases) && p >= 0.0
    requires forall i :: 0 <= i < |calls| ==>
      calls[i].points == p && calls[i].phrasePick == 0 && calls[i].gesturePick == 0
    ensures RunFits(cfg, Initial(), calls)
    ensures Run(cfg, Initial(), calls).state.score == |calls| as real * p
    ensures StageLoadsIn(Run(cfg, Initial(), calls).effects)
            == (if |calls| as real * p >= cfg.maxScore then 1 else 0)
    ensures Run(cfg, Initial(), calls).state.paused <==> |calls| as real * p >= cfg.maxScore
  {
    InitialIsValid();
    FirstPicksAlwaysFit(cfg, Initial(), calls);
    RunAddsAllPoints(cfg, Initial(), calls);
    SumOfEqualPoints(calls, p);
    GuardTracksMaximum(cfg, Initial(), calls);
    CompletionStartsAtMostOnce(cfg, Initial(), calls);
  }

  /** Once the transition has started, no further run of calls starts it again. */
  lemma NoCompletionAfterGuard(cfg: Config, s: ScoreState, calls: seq<ScoreCall>)
    requires RunFits(cfg, s, calls) && s.paused
    ensures StageLoadsIn(Run(cfg, s, calls).effects) == 0
  {
    CompletionStartsAtMostOnce(cfg, s, calls);
  }

  /** Fifty half-point gestures from a fresh start with the default maximum of 25
      end at exactly 25 points and start the stage transition once, not fifty times. */
  lemma FiftyHalfPointsCompleteOnce(clips: Option<seq<Option<nat>>>, stage: string, calls: seq<ScoreCall>)
    requires |calls| == 50
    requires forall i :: 0 <= i < |calls| ==>
      calls[i].points == 0.5 && calls[i].phrasePick == 0 && calls[i].gesturePick == 0
    ensures RunFits(DefaultConfig(clips, stage), Initial(), calls)
    ensures Run(DefaultConfig(clips, stage), Initial(), calls).state.score == 25.0
    ensures StageLoadsIn(Run(DefaultConfig(clips, stage), Initial(), calls).effects) == 1
    ensures Run(DefaultConfig(clips, stage), Initial(), calls).state.paused
  {
    PhrasesFit();
    EqualGrantsCompleteAtMostOnce(DefaultConfig(clips, stage), calls, 0.5);
  }
}
