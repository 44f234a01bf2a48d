/** The monster spawner: a timer accumulates the frame times; when it reaches the
    spawn interval a monster is spawned (if the prefab is assigned) and the timer
    starts again from zero. Successive monsters alternate between a high and a low
    lane, starting high. */
module MonsterGeneration {
  import opened Engine

  const HighY: real := 0.45
  const LowY: real := -0.15
  const SpawnX: real := 2.0
  const SpawnZ: real := 2.5

  datatype Config = Config(spawnInterval: real, hasPrefab: bool)

  datatype SpawnerState = SpawnerState(timer: real, isHigh: bool)

  const Start := SpawnerState(0.0, true)

  function SpawnPosition(high: bool): Vec3
  {
    Vec3(SpawnX, if high then HighY else LowY, SpawnZ)
  }

  /** One spawn (SpawnMonster): with a prefab, a monster in the current lane and a
      switch of lanes; without one, nothing at all. */
  function SpawnMonster(cfg: Config, s: SpawnerState): (r: Step<SpawnerState>)
    ensures !cfg.hasPrefab ==> r == Step(s, [])
    ensures cfg.hasPrefab ==>
      && r.state == s.(isHigh := !s.isHigh)
      && r.effects == [Spawn("monsterPrefab", Point(SpawnPosition(s.isHigh)))]
  {
    if !cfg.hasPrefab then Step(s, [])
    else Step(s.(isHigh := !s.isHigh), [Spawn("monsterPrefab", Point(SpawnPosition(s.isHigh)))])
  }

  /** Whether the frame lasting `dt` brings the timer to the interval. */
  predicate Due(cfg: Config, s: SpawnerState, dt: real)
  {
    s.timer + dt >= cfg.spawnInterval
  }

  /** One frame (Update). */
  function Update(cfg: Config, s: SpawnerState, dt: real): (r: Step<SpawnerState>)
    ensures !Due(cfg, s, dt) ==> r == Step(s.(timer := s.timer + dt), [])
    ensures Due(cfg, s, dt) ==> r.state.timer == 0.0
    ensures Due(cfg, s, dt) && !cfg.hasPrefab ==> r == Step(SpawnerState(0.0, s.isHigh), [])
    ensures Due(cfg, s, dt) && cfg.hasPrefab ==>
      r == Step(SpawnerState(0.0, !s.isHigh), [Spawn("monsterPrefab", Point(SpawnPosition(s.isHigh)))])
    ensures |r.effects| <= 1
  {
    var timed := s.(timer := s.timer + dt);
    if timed.timer >= cfg.spawnInterval then
      var spawned := SpawnMonster(cfg, timed);
      Step(spawned.state.(timer := 0.0), spawned.effects)
    else
      Step(timed, [])
  }

  /** The state after a run of frames and the positions of the monsters spawned. */
  datatype Trace = Trace(state: SpawnerState, spawns: seq<Vec3>)

  function Run(cfg: Config, s: SpawnerState, dts: seq<real>): Trace
    decreases |dts|
  {
    if |dts| == 0 then Trace(s, [])
    else
      var step := Update(cfg, s, dts[0]);
      var rest := Run(cfg, step.state, dts[1..]);
      Trace(rest.state, (if |step.effects| > 0 then [step.effects[0].place.at] else []) + rest.spawns)
  }

  predicate Even(k: nat) { k % 2 == 0 }

  lemma EvenFlips(k: nat)
    ensures Even(k + 1) == !Even(k)
  {
  }

  /** One frame of a run: it spawns at most one monster, in the current lane, and
      switches the lane exactly when it spawns. */
  lemma RunStep(cfg: Config, s: SpawnerState, dts: seq<real>)
    requires |dts| > 0
    ensures var step := Update(cfg, s, dts[0]);
      var rest := Run(cfg, step.state, dts[1..]);
      && Run(cfg, s, dts).state == rest.state
      && (|step.effects| > 0 ==>
            step.state.isHigh == !s.isHigh && Run(cfg, s, dts).spawns == [SpawnPosition(s.isHigh)] + rest.spawns)
      && (|step.effects| == 0 ==> step.state.isHigh == s.isHigh && Run(cfg, s, dts).spawns == rest.spawns)
  {
    var step := Update(cfg, s, dts[0]);
    var rest := Run(cfg, step.state, dts[1..]);
    if |step.effects| == 0 {
      assert [] + rest.spawns == rest.spawns;
    }
  }

  /** The spawns of a run alternate lanes, beginning in the lane the spawner is in:
      the k-th is in that lane exactly when k is even, all share x = 2 and z = 2.5,
      and the lane afterwards has switched once per spawn. */
  lemma {:induction false} LanesAlternate(cfg: Config, s: SpawnerState, dts: seq<real>)
    ensures forall k :: 0 <= k < |Run(cfg, s, dts).spawns| ==>
      Run(cfg, s, dts).spawns[k] == SpawnPosition(s.isHigh == Even(k))
    ensures Run(cfg, s, dts).state.isHigh == (s.isHigh == Even(|Run(cfg, s, dts).spawns|))
    decreases |dts|
  {
    if |dts| > 0 {
      var step := Update(cfg, s, dts[0]);
      RunStep(cfg, s, dts);
      LanesAlternate(cfg, step.state, dts[1..]);
      var rest := Run(cfg, step.state, dts[1..]);
      if |step.effects| > 0 {
        var all := [SpawnPosition(s.isHigh)] + rest.spawns;
        EvenFlips(|rest.spawns|);
        forall k | 0 < k < |all|
          ensures all[k] == SpawnPosition(s.isHigh == Even(k))
        {
          assert all[k] == rest.spawns[k - 1];
          EvenFlips(k - 1);
        }
      }
    }
  }

  /** From the start, the first monster is high, the second low, and so on. */
  lemma FirstMonsterHigh(cfg: Config, dts: seq<real>)
    ensures forall k :: 0 <= k < |Run(cfg, Start, dts).spawns| ==>
      Run(cfg, Start, dts).spawns[k].y == (if Even(k) then HighY else LowY)
  {
    LanesAlternate(cfg, Start, dts);
  }

  /** Without a prefab nothing spawns and the lane never switches, while the timer
      still restarts. */
  lemma {:induction false} NoPrefabNoSpawn(cfg: Config, s: SpawnerState, dts: seq<real>)
    requires !cfg.hasPrefab
    ensures Run(cfg, s, dts).spawns == []
    ensures Run(cfg, s, dts).state.isHigh == s.isHigh
    decreases |dts|
  {
    if |dts| > 0 {
      NoPrefabNoSpawn(cfg, Update(cfg, s, dts[0]).state, dts[1..]);
    }
  }

  /** With a two-second interval and frames of one second, every second frame
      spawns: four frames give a high then a low monster. */
  lemma EveryOtherSecond()
    ensures Run(Config(2.0, true), Start, [1.0, 1.0, 1.0, 1.0]).spawns == [SpawnPosition(true), SpawnPosition(false)]
  {
    var cfg := Config(2.0, true);
    assert [1.0, 1.0, 1.0, 1.0][1..] == [1.0, 1.0, 1.0];
    assert [1.0, 1.0, 1.0][1..] == [1.0, 1.0];
    assert [1.0, 1.0][1..] == [1.0];
    assert [1.0][1..] == [];
  }
}
