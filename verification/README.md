# Gesture recognition and scoring core of a VR exergame

This project is a Dafny model of the part of a Unity VR exercise game that turns
tracked body movement into score. Each exercise has its own manager. Each manager
is a small state machine that runs once per frame or reacts to trigger events.
All of them feed one score manager.

- **Score manager** (`ScoreManager`, with the phrase bag in `FeedbackBag`).
  - Adds points without a cap.
  - Derives a level 1..5 from the fraction of the maximum score reached.
  - Sends a rate-limited encouragement pulse: a phrase drawn from a per-level no-repeat bag, a voice clip, an animation cue and haptics.
  - Starts the stage transition once, the first time the maximum is reached.
- **Foot balance** (`EnergyBalance`). Alternating feet into one target area, with a one-second cooldown. Each accepted step destroys a "Chaos" child and scores 0.5.
- **Energy tide** (`EnergyTide`). Both ankles alternately up and down through two areas. Each fired gesture launches a remaining tide object and scores 0.5.
- **Element elimination** (`ElementElimination`). Both hands on their targets together, with a 1.5-second cooldown. Each fire destroys a "BloodCell" child and scores 1.
- **Whistle pulse** (`WhistCollision`). One projectile per beginning of an overlap; never scores.
- **Robot shooter** (`RobotControl`). An input gate, a move to the upper or lower boundary, and one bullet on arrival.
- **Monster spawner** (`MonsterGeneration`). An interval timer whose spawns alternate between a high and a low lane.

Shared pieces:
- `Engine`: effects, positions and the success clips.
- `Cooldown`: the flag-and-timer gate of the foot-balance and two-hand managers.
- `Breakables`: a parent object whose children are destroyed one by one.

How the engine is represented:
- Every frame handler is a pure function from the state record (and that frame's inputs) to the next state plus the list of effects it requested.
- The following are parameters of those functions:
  - the frame time `Time.deltaTime`;
  - the clock `Time.time`;
  - each `Random.Range` draw, as a caller-supplied index whose bound is a precondition;
  - collider overlaps and "has arrived" tests, as booleans.
- Spawning, sounds, haptics, destruction, scene loading and delayed callbacks are effect values (`Engine.Effect`). A call into the score manager is the effect `AddScore(points)`.
- Scores and times are exact `real` numbers.
- The phrase library is a field of the score manager's configuration (`Config.phrases`). Its shape, ten phrases for each of the five levels, is the precondition `LibraryFits`, which the library that `InitializePhraseLibrary` builds meets (`ScoreManager.PhrasesFit`). `DefaultConfig` uses that library.

Three behaviours of the code are worth stating plainly:
- `ElementEliminationManager.Update` fires on the level of "both hands in", not on its rising edge. There is no edge flag, so holding both hands fires again in the frame in which the cooldown runs out. `ElementElimination.HeldHandsRefireWhenCooldownEnds` and `ElementElimination.HoldingScoresTwice` state this behaviour.
- `ScoreManager.AddScore` accepts any points value, including zero and negative ones, and the model does too. Only the lemmas about the completion guard tracking the maximum ask for non-negative points.
- The foot-balance manager never checks that only one foot is in the area. Its only check is the expected foot.

## Model

| member | source | states |
|---|---|---|
| ScoreManager.LevelCountsThresholds | Assets/Scirpts/ScoreManager.cs:128-136 | The level is one plus the number of boundaries 0.2, 0.4, 0.6, 0.8 that clamp01(score/max) has reached, each inclusive, so it always lies in 1..5 |
| ScoreManager.LevelMonotone | Assets/Scirpts/ScoreManager.cs:128-134 | A higher score never gives a lower level |
| ScoreManager.LevelExamples | Assets/Scirpts/ScoreManager.cs:128-134 | With maximum 25: score 0 and 4.5 give level 1, 5 gives level 2, 25 and 40 give level 5 |
| ScoreManager.InitialIsValid | Assets/Scirpts/ScoreManager.cs:89-107 | At start-up the level is 1 and every level's bag holds distinct phrase indices below 10 |
| ScoreManager.PhrasesFit | Assets/Scirpts/ScoreManager.cs:56-87 | The library built at start-up has one list of ten phrases for each of the five levels |
| FeedbackBag.FullBag | Assets/Scirpts/ScoreManager.cs:97-107 | A reset bag holds exactly the indices 0..9, in order |
| FeedbackBag.Draw | Assets/Scirpts/ScoreManager.cs:159-171 | A draw from an empty bag first refills it. The drawn index was in the bag and the bag loses exactly that one entry, as a multiset. A duplicate-free bag stays duplicate-free and no longer holds the drawn index |
| FeedbackBag.DrawManyPartitions | Assets/Scirpts/ScoreManager.cs:159-171 | Consecutive draws split the bag: what was drawn plus what remains is the original multiset |
| FeedbackBag.DrawManyDistinct | Assets/Scirpts/ScoreManager.cs:159-171 | Consecutive draws from a duplicate-free bag never return the same index twice |
| FeedbackBag.TenDrawsCoverEveryPhrase | Assets/Scirpts/ScoreManager.cs:159-174 | Ten draws from a full bag return every index 0..9 exactly once and leave the bag empty |
| ScoreManager.GetRandomPhrase | Assets/Scirpts/ScoreManager.cs:159-174 | The phrase is the drawn index's phrase of that level. Only that level's bag changes and it loses exactly the drawn index. Every bag stays duplicate-free |
| ScoreManager.GlobalSlotsAreDistinctAndBounded | Assets/Scirpts/ScoreManager.cs:181 | Levels 1..5 and indices 0..9 map to distinct voice slots in [0, 50) |
| ScoreManager.PlayAudioForPhrase | Assets/Scirpts/ScoreManager.cs:176-195 | An unassigned or empty clip list gives nothing. A slot in range plays that slot's clip, if there is one. A warning is given exactly when the list is non-empty and the slot is out of range. At most one effect |
| ScoreManager.PlayRandomGesture | Assets/Scirpts/ScoreManager.cs:197-205 | Without an animator nothing happens. Otherwise there is exactly one cue, and it is 1, 3 or 4 |
| ScoreManager.EveryGestureCueReachable | Assets/Scirpts/ScoreManager.cs:201-204 | Each of the cues 1, 3, 4 is chosen by some draw |
| ScoreManager.TriggerHaptics | Assets/Scirpts/ScoreManager.cs:207-219 | Exactly two impulses, the left controller then the right, each at the configured strength, at 150 Hz, for the configured duration times 500 cut to whole milliseconds |
| ScoreManager.HapticMillisecondsAreCut | Assets/Scirpts/ScoreManager.cs:212 | For a non-negative duration the milliseconds are the whole part of duration times 500: 0.5 s gives 250 ms and 0.0011 s gives 0 ms |
| ScoreManager.PhraseEffects | Assets/Scirpts/ScoreManager.cs:149-154 | With a text field, the phrase at the given level and index is shown first, and nothing else sets the text. The only clip played is the one in that phrase's slot, and it is played whenever the slot holds one. A warning comes exactly when the clip list is non-empty and the slot is out of range |
| ScoreManager.PulseEffects | Assets/Scirpts/ScoreManager.cs:145-157 | A pulse ends with the two haptic impulses |
| ScoreManager.PulseBeginsSpoken | Assets/Scirpts/ScoreManager.cs:149-156 | A pulse begins with the text and voice of its phrase; everything after them is the gesture cue or a haptic impulse |
| ScoreManager.PulseShowsThePhrase | Assets/Scirpts/ScoreManager.cs:147-152 | With a text field, a pulse shows its own phrase first, and no other effect of the pulse sets the text |
| ScoreManager.PulseSpeaksThePhrase | Assets/Scirpts/ScoreManager.cs:147-190 | Any clip a pulse plays is the clip in its own phrase's slot, and that clip is played whenever the slot holds one |
| ScoreManager.PulsePlaysTheCue | Assets/Scirpts/ScoreManager.cs:155-205 | With an animator, the drawn cue is played right before the haptics; no other cue is played, and none without an animator |
| ScoreManager.PulseIsQuiet | Assets/Scirpts/ScoreManager.cs:145-157 | A pulse never calls into the score manager and never schedules a stage load |
| ScoreManager.TriggerVPMFeedback | Assets/Scirpts/ScoreManager.cs:145-174 | A phrase index is drawn once from the level's bag, refilled first if empty; that bag loses exactly that index and the other bags are unchanged. The effects are the pulse for that same index, so the text shown and the clip spoken belong to the drawn phrase |
| ScoreManager.CheckLevelAndTriggerFeedback | Assets/Scirpts/ScoreManager.cs:126-143 | The level is recomputed from the new score. When now minus the last feedback time is at least the cooldown, the feedback time is set to now, the level's bag loses one index and the effects end with the haptics. Otherwise nothing changes but the level and there are no effects |
| ScoreManager.FeedbackSendsThePulse | Assets/Scirpts/ScoreManager.cs:138-142 | When the cooldown has passed, the level step's effects and bags are exactly those of the pulse for the level the score reaches |
| ScoreManager.LevelStepIsQuiet | Assets/Scirpts/ScoreManager.cs:126-143 | The level step never calls into the score manager and never schedules a stage load |
| ScoreManager.CheckGameCompletion | Assets/Scirpts/ScoreManager.cs:221-229 | The guard afterwards is "already up, or score at least the maximum". One stage load is scheduled exactly when the guard was down and the maximum is reached |
| ScoreManager.AddScore | Assets/Scirpts/ScoreManager.cs:109-116 | The score grows by exactly the points, with no cap. The level, feedback time, bags and guard follow the rules above. With a score text, the first effect shows the new score against the maximum |
| ScoreManager.AddScoreEffects | Assets/Scirpts/ScoreManager.cs:109-116 | A call requests no further score calls, and schedules exactly one stage load when it is the first to reach the maximum, none otherwise |
| ScoreManager.AddScoreSendsThePulse | Assets/Scirpts/ScoreManager.cs:109-116 | The level step's effects follow the score text directly, and the call keeps that step's bags |
| ScoreManager.AddScoreVibratesIffDue | Assets/Scirpts/ScoreManager.cs:109-143 | A call vibrates the controllers exactly when the feedback cooldown has passed |
| ScoreManager.LoadNextSceneAfterDelay | Assets/Scirpts/ScoreManager.cs:231-243 | The time scale is restored to 1. The next scene is loaded exactly when its name is non-empty; otherwise a warning is logged |
| ScoreManager.PulsesRespectCooldown | Assets/Scirpts/ScoreManager.cs:138-142 | Over any run, the first pulse comes at least a cooldown after the last pulse before the run, and each later pulse at least a cooldown after the one before it |
| ScoreManager.RunRemembersLastPulse | Assets/Scirpts/ScoreManager.cs:138-142 | A run ends remembering the time of its last pulse, or its starting feedback time if it sent none |
| ScoreManager.PulsePairsRespectCooldown | Assets/Scirpts/ScoreManager.cs:138-142 | With a non-negative cooldown, any two pulses of a run are at least a cooldown apart |
| ScoreManager.QuietRunKeepsBags | Assets/Scirpts/ScoreManager.cs:138-142 | Calls that all fall within the cooldown of the last pulse send no pulse and leave the bags and the feedback time as they were |
| ScoreManager.RunAddsAllPoints | Assets/Scirpts/ScoreManager.cs:111 | After any run of calls the score is the start score plus the sum of all points |
| ScoreManager.CompletionStartsAtMostOnce | Assets/Scirpts/ScoreManager.cs:221-229 | A run schedules one stage load if the guard went from down to up and none otherwise. A raised guard is never lowered |
| ScoreManager.GuardTracksMaximum | Assets/Scirpts/ScoreManager.cs:223-225 | With non-negative points the guard is up exactly when the score is at least the maximum |
| ScoreManager.FirstPicksAlwaysFit | Assets/Scirpts/ScoreManager.cs:168 | Draws at position 0 are always within Random.Range's bounds, so such runs are well defined |
| ScoreManager.EqualGrantsCompleteAtMostOnce | Assets/Scirpts/ScoreManager.cs:109-116 | From start-up, n equal grants p reach score n·p. They schedule one stage load if n·p reaches the maximum and none otherwise |
| ScoreManager.NoCompletionAfterGuard | Assets/Scirpts/ScoreManager.cs:223 | Once the guard is up, no later call schedules a stage load |
| ScoreManager.FiftyHalfPointsCompleteOnce | Assets/Scirpts/ScoreManager.cs:221-229 | Fifty 0.5-point calls with the default maximum 25 end at exactly 25 with the guard up and one stage load, not fifty |
| Engine.SuccessClip | Assets/Scirpts/EnergyBalanceManager.cs:142-143 | A drawn success clip is one of the five "MotionSuccess" clips |
| Engine.Truncate | Assets/Scirpts/ScoreManager.cs:212 | The int cast of a float truncates toward zero |
| Cooldown.AdvanceKeepsWellFormed | Assets/Scirpts/EnergyBalanceManager.cs:65-78 | One frame keeps "lowered flag means zero timer, raised flag means timer below the duration", and never raises the flag |
| Cooldown.ElapseTriggeredIff | Assets/Scirpts/EnergyBalanceManager.cs:65-78 | A raised gate is still raised after some frames exactly when their total time keeps it below the duration. While raised, its timer is the elapsed time; afterwards it is lowered with a zero timer |
| Breakables.DestroyRandomChild | Assets/Scirpts/EnergyBalanceManager.cs:119-152 | With children, exactly the child at the drawn index is removed, the others keep their order and the count drops by one. Without children, or without the parent, nothing changes |
| EnergyBalance.NextAfter | Assets/Scirpts/EnergyBalanceManager.cs:100 | After an accepted foot, only the other foot is accepted, never "either" |
| EnergyBalance.DestroyRandomChaosChild | Assets/Scirpts/EnergyBalanceManager.cs:119-153 | With children, one child is removed (as a multiset) and its destruction is the first effect. Otherwise only the warning is given. Never scores |
| EnergyBalance.OnFootEnterTarget | Assets/Scirpts/EnergyBalanceManager.cs:81-117 | During the cooldown, or for the wrong foot, nothing at all changes. An accepted entry sets the next foot to the opposite one, restarts the cooldown at zero, removes a child if there is one, and scores exactly 0.5 either way |
| EnergyBalance.Update | Assets/Scirpts/EnergyBalanceManager.cs:65-78 | Only the cooldown changes. A lowered gate stays as it is. A raised one lowers with a zero timer once the timer plus the frame time reaches 1, and otherwise accumulates the frame time |
| EnergyBalance.FootTriggerEnter | Assets/Scirpts/EnergyBalanceManager.cs:168-175 | An entry that is not forwarded (no controller, or an object other than the target area), or not accepted, changes nothing and requests nothing. A forwarded, accepted one sets the opposite foot, restarts the cooldown and removes a child if there is one. The points are 0.5 exactly when it is forwarded and accepted |
| EnergyBalance.StrayEntryChangesNothing | Assets/Scirpts/EnergyBalanceManager.cs:168-175 | Inserting an entry that is not forwarded anywhere in a run leaves the whole run unchanged |
| EnergyBalance.NoTargetAreaNoProgress | Assets/Scirpts/EnergyBalanceManager.cs:168-175 | Without a target area no entry is ever accepted: a run scores nothing and leaves the foot requirement and the Chaos object as they were |
| EnergyBalance.AcceptedFeetAlternate | Assets/Scirpts/EnergyBalanceManager.cs:81-107 | Over any run, accepted feet strictly alternate. The first is one the start state expects. Afterwards the expected foot is the opposite of the last accepted one |
| EnergyBalance.NeverBackToAny | Assets/Scirpts/EnergyBalanceManager.cs:100 | "Either foot" can hold after a run only if it held at the start and nothing was accepted |
| EnergyBalance.AlternatingMeans | Assets/Scirpts/EnergyBalanceManager.cs:86-100 | The recursive alternation used in the run lemmas means that every foot differs from the one before it |
| EnergyBalance.CooldownOnlyElapses | Assets/Scirpts/EnergyBalanceManager.cs:65-83 | While the cooldown runs, a run accepts nothing, scores nothing, and leaves the state as the frames alone would, through the shared cooldown gate |
| EnergyBalance.NothingAcceptedDuringCooldown | Assets/Scirpts/EnergyBalanceManager.cs:65-83 | While the running cooldown plus the frame time stays below 1 second, no entry is accepted, nothing scores, and only the timer changes |
| EnergyBalance.PointsMatchAcceptances | Assets/Scirpts/EnergyBalanceManager.cs:109-117 | The points of a run are exactly 0.5 per accepted entry |
| EnergyBalance.FirstStepEitherFootThenAlternate | Assets/Scirpts/EnergyBalanceManager.cs:86-100 | From the initial state either foot is accepted. After it, that foot is refused and the other accepted |
| EnergyTide.ExistingMembers | Assets/Scirpts/EnergyTideManager.cs:152-160 | The collected existing objects are exactly the non-null entries of the array |
| EnergyTide.GetRandomAvailableTideObject | Assets/Scirpts/EnergyTideManager.cs:150-170 | The result is null exactly when every entry is null; otherwise it is a non-null member of the array |
| EnergyTide.LaunchEnergyParticle | Assets/Scirpts/EnergyTideManager.cs:139-148 | Scores 0.5 exactly when some object remains, and flies only a member of the array |
| EnergyTide.TriggerEffect | Assets/Scirpts/EnergyTideManager.cs:76-87 | A fired gesture scores 0.5 exactly when some object remains; its particle and sounds never score |
| EnergyTide.CheckUpAreaCollision | Assets/Scirpts/EnergyTideManager.cs:55-87 | Up fires exactly when both ankles are in the Up area and it is the first Up ever or the last gesture was Down. It then records Up and the first-Up flag. Otherwise nothing changes |
| EnergyTide.CheckDownAreaCollision | Assets/Scirpts/EnergyTideManager.cs:89-112 | Down fires exactly when both ankles are in the Down area and the last gesture was Up, and then records Down. Otherwise nothing changes |
| EnergyTide.Update | Assets/Scirpts/EnergyTideManager.cs:44-53 | The first-Up flag keeps meaning "something has fired". Up fires iff both ankles are up and the last gesture was not Up. Down fires iff both ankles are down and the last gesture was Up, or became Up in this frame. At most Up then Down in one frame. Points are 0.5 per fired gesture when an object remains, else 0 |
| EnergyTide.UpdateFollowsPhase | Assets/Scirpts/EnergyTideManager.cs:44-53 | What one frame fires follows the recorded phase and alternates, and the phase afterwards is that of its last gesture |
| EnergyTide.FiredGesturesAlternate | Assets/Scirpts/EnergyTideManager.cs:60-104 | Over any run, fired gestures strictly alternate. The first follows the start phase. The phase afterwards is the last gesture's. The flag invariant is kept |
| EnergyTide.FirstGestureIsUp | Assets/Scirpts/EnergyTideManager.cs:49-52 | From the start, no Down precedes the first Up |
| EnergyTide.HoldingNeverRefires | Assets/Scirpts/EnergyTideManager.cs:60-98 | Holding the ankles in the area that fired last fires nothing and changes nothing |
| EnergyTide.RunPoints | Assets/Scirpts/EnergyTideManager.cs:139-148 | While objects remain, a run scores 0.5 per fired gesture |
| EnergyTide.NoObjectsNoPoints | Assets/Scirpts/EnergyTideManager.cs:139-148 | With every object gone, a run scores nothing, though gestures still advance the phase |
| EnergyTide.UpThenDownInOneFrame | Assets/Scirpts/EnergyTideManager.cs:44-53 | With all four overlaps in the first frame, that frame fires Up and then Down |
| EnergyTide.AlternatingConcat | Assets/Scirpts/EnergyTideManager.cs:69-95 | Two alternating gesture sequences joined where they differ alternate |
| ElementElimination.OnHand | Assets/Scirpts/ElementEliminationManager.cs:86-106 | Each handler sets or clears its own hand's flag and changes nothing else |
| ElementElimination.DestroyRandomBloodCellChild | Assets/Scirpts/ElementEliminationManager.cs:69-84 | With children, exactly the child at the drawn index leaves the BloodCell object (the others keep their order, and as a multiset one copy of it goes) and its destruction is the only effect. Otherwise only the warning is given and nothing changes |
| ElementElimination.PlaySuccessEffects | Assets/Scirpts/ElementEliminationManager.cs:108-130 | Never scores. Plays the drawn success clip. Ends with the right and then the left haptic impulse (0.5, 500 ms, 100) |
| ElementElimination.ExecuteCorrectMotion | Assets/Scirpts/ElementEliminationManager.cs:53-67 | The first effect is the 1-point score call. The points are exactly 1. The flag is raised. A child is removed if there is one. The hand flags are untouched |
| ElementElimination.Update | Assets/Scirpts/ElementEliminationManager.cs:33-51 | The cooldown advances first. The motion fires exactly when both hands are in and the advanced gate is down, scoring exactly 1; otherwise only the cooldown changes. A well-formed gate stays well formed, and a fire leaves it raised with a zero timer |
| ElementElimination.PointsMatchFires | Assets/Scirpts/ElementEliminationManager.cs:53-58 | The points of a run are exactly 1 per fire |
| ElementElimination.GateStaysWellFormed | Assets/Scirpts/ElementEliminationManager.cs:33-44 | Over any run with non-negative frame times, a lowered flag always has a zero timer |
| ElementElimination.CooldownOnlyElapses | Assets/Scirpts/ElementEliminationManager.cs:33-51 | While the cooldown runs, nothing fires, the BloodCell object is untouched, and the gate is the one the frames alone would leave through the shared cooldown gate |
| ElementElimination.NothingFiresDuringCooldown | Assets/Scirpts/ElementEliminationManager.cs:33-51 | While the running cooldown plus the frame time stays below 1.5 seconds, nothing fires or scores, whatever the hands do |
| ElementElimination.HeldHandsRefireWhenCooldownEnds | Assets/Scirpts/ElementEliminationManager.cs:36-50 | With both hands still held, the frame in which the cooldown ends fires again |
| ElementElimination.HoldingScoresTwice | Assets/Scirpts/ElementEliminationManager.cs:33-58 | Both hands entering once and frames 0 s and 1.5 s later fire twice and score 2 without any hand leaving |
| WhistCollision.SpawnAndMovePrefab | Assets/Scirpts/WhistCollisionManager.cs:81-119 | Without the prefab or its spawn point, only an error is logged. Otherwise the projectile is spawned first and launched last at the configured speed. Never scores |
| WhistCollision.Update | Assets/Scirpts/WhistCollisionManager.cs:46-73 | Without colliders nothing changes. The pulse fires exactly when there is overlap and neither flag was set, and then sets the trigger flag even if the prefab is missing. The overlap flag becomes this frame's overlap. A falling edge clears the trigger flag. The two flags stay equal |
| WhistCollision.FiresCountRisingEdges | Assets/Scirpts/WhistCollisionManager.cs:46-73 | Over any run the number of fires equals the number of false-to-true changes of the overlap, and the flags stay equal |
| WhistCollision.NoCollidersNoChange | Assets/Scirpts/WhistCollisionManager.cs:48 | Without colliders a run changes nothing and requests nothing |
| WhistCollision.NeverScores | Assets/Scirpts/WhistCollisionManager.cs:81-119 | The pulse never calls into the score manager |
| WhistCollision.TwoOverlapsFireTwice | Assets/Scirpts/WhistCollisionManager.cs:50-72 | Overlaps true, true, true, false, true from the start fire exactly twice |
| RobotControl.SuccessSound | Assets/Scirpts/RobotControl.cs:76-80 | The suffixes 1..5 name exactly the five success clips |
| RobotControl.HandleInput | Assets/Scirpts/RobotControl.cs:36-60 | With the gate closed (or no robot) nothing changes. Otherwise the robot moves and the gate closes. The target keeps the robot's x and z, with y at plus the boundary for up and minus it for down. Only the effect of the chosen direction is spawned. The success sound plays and the reset is scheduled last. The gate is never opened |
| RobotControl.ResetTrigger | Assets/Scirpts/RobotControl.cs:62 | The gate opens; motion and target are untouched |
| RobotControl.SpawnBullet | Assets/Scirpts/RobotControl.cs:64-74 | Without the prefab or spawn point, nothing. Otherwise the bullet is spawned first, and then given the velocity right times the bullet speed exactly when it has a rigid body. Never scores |
| RobotControl.Update | Assets/Scirpts/RobotControl.cs:21-33 | Unless the robot is present, moving and arrives, nothing happens. On arrival the robot stops and spawns the bullet. The gate is untouched |
| RobotControl.OneInputPerReset | Assets/Scirpts/RobotControl.cs:36-62 | Without a reset the gate never reopens, so at most one input is accepted, and none if it started closed |
| RobotControl.ArrivalsFollowInputs | Assets/Scirpts/RobotControl.cs:21-45 | Arrivals, and so bullets, never outnumber accepted inputs plus a move already under way |
| RobotControl.SecondInputNeedsReset | Assets/Scirpts/RobotControl.cs:21-62 | Input up, arrival, input down without a reset: one input accepted, one arrival, and the target stays at the upper boundary |
| MonsterGeneration.SpawnMonster | Assets/Scirpts/MonsterGeneration.cs:21-39 | Without a prefab nothing happens and the lane does not switch. Otherwise one monster spawns at (2, lane height, 2.5) and the lane switches |
| MonsterGeneration.Update | Assets/Scirpts/MonsterGeneration.cs:11-19 | Below the interval the timer accumulates the frame time and nothing spawns. At or above it the timer restarts from 0, with or without a prefab, and at most one monster spawns |
| MonsterGeneration.LanesAlternate | Assets/Scirpts/MonsterGeneration.cs:21-39 | The k-th spawn of a run is in the starting lane exactly when k is even. All spawns have x = 2 and z = 2.5. The lane afterwards has switched once per spawn |
| MonsterGeneration.FirstMonsterHigh | Assets/Scirpts/MonsterGeneration.cs:9-26 | From the start, spawns alternate 0.45, -0.15, 0.45, ... beginning high |
| MonsterGeneration.NoPrefabNoSpawn | Assets/Scirpts/MonsterGeneration.cs:11-23 | Without a prefab nothing ever spawns and the lane never switches |
| MonsterGeneration.EveryOtherSecond | Assets/Scirpts/MonsterGeneration.cs:11-26 | With interval 2 and one-second frames, four frames spawn a high and then a low monster |

## Left out

- The audio managers (`AudioManager.cs`, `Assets/Environment/Script/AudioMgr.cs`) are not part of this model. Play and PlayOneShot requests are effect values.
- `TrackingManager.cs` is not part of this model. It is motion-tracking SDK and networking calls with no logic of its own.
- `BulletCollision.cs` is not part of this model. It is one more external caller of the score manager's AddScore.
- Motion is left out: the Bezier flight of tide objects, `Vector3.MoveTowards`, distance tests, the projectile and monster movement, and collider bounds tests. They are float vector numerics. Overlaps and arrival are boolean inputs instead.
- Destruction of a tide object at the end of its flight is left out. The tide object array is a per-frame input, so an object still in flight can be drawn again, as in the source.
- Unity defers `Destroy` to the end of the frame; the model removes the child at once. No manager destroys twice on the same parent within one frame, because both destroying managers are behind a cooldown.
- Floating-point rounding is not modelled. Scores, times and thresholds are exact reals, and the score text's number formatting is not modelled.
- ScoreManager.AddScore: requires a positive maximum score. The source would divide by zero (giving infinity or NaN in float) if the maximum were 0.
- ScoreManager.PlayAudioForPhrase: the warning text is abbreviated to its fixed prefix; the level, index and slot numbers interpolated into it are not modelled. The source also skips the clip silently when the audio manager instance is missing (ScoreManager.cs:186); the model folds that check into the PlayOneShot request, which it always emits for a present clip.
- ScoreManager.TriggerVPMFeedback: the try/catch around the haptic SDK calls is not modelled. The SDK is assumed not to throw.
- Scene start-up and singleton set-up are not modelled. That covers `Awake`/`Start`, inspector validation errors, adding colliders and foot triggers, and the duplicate score manager destroying itself. Missing references appear as configuration flags.
- Null references that make the source throw are not modelled, apart from the robot. These are a null tide-object array, a missing health crystal, and a missing audio manager at the gesture managers' `Play` calls, which would throw there.
- A missing score manager instance is not modelled. The gesture managers call it through `?.`, so the call would simply be skipped; the model always emits the AddScore effect.
- RobotControl.HandleInput: a missing robot makes the source throw on its first line. The model treats this as the call doing nothing.
- Debug.Log lines are left out. Warnings and errors that the cited code logs are kept as effects.
- EnergyBalance.FootTriggerEnter and the hand handlers of ElementElimination are driven by trigger events. The model applies them in the order given by the event sequence of a run; Unity's physics ordering within a frame is not modelled.
