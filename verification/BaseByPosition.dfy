/**
 A build in which FROM names an earlier stage by its position: the stage is waited for,
 and its image is not used.
 */
module BaseByPosition {
  import opened Optional
  import opened StagePruning
  import opened StageScheduler
  import opened SchedulerSafety

  /** FROM alpine AS builder, then FROM 0; layers are cached, and unused stages are built as well. */
  const TWO_STAGES: Config := Config(
    [Stage(Word("builder"), [From(Word("alpine"))]), Stage(Index(1), [From(Index(0))])], {}, {}, true, false, 2)

  lemma TwoStagesAreValid()
    ensures TWO_STAGES.Valid()
  {
    var stages := TWO_STAGES.stages;
    assert forall i, r :: 0 <= i < |stages| && r in stages[i].refs ==> r == stages[i].refs[0];
  }

  /** What stays the same: nothing failed, and both stages are spawned. */
  function Spawned2(pc: seq<Pc>, origin: seq<Option<Origin>>, log: seq<Result>, taken: nat,
                    terminated: map<Name, bool>, images: map<Name, nat>): State {
    State(pc, origin, 2, false, 0, false, false, log, taken, false, terminated, images, false, Receiving)
  }

  lemma {:induction false} RunsOneMore(c: Config, s: State, schedule: Schedule, s': State, a: Action)
      returns (longer: Schedule)
    requires c.Valid() && Runs(c, s, schedule, s')
    requires |s'.pc| == |s'.origin| == |c.stages| && Enabled(c, s', a)
    requires var s'' := Do(c, s', a); |s''.pc| == |s''.origin| == |c.stages|
    ensures Runs(c, s, longer, Do(c, s', a))
    decreases schedule
  {
    hide Enabled;
    hide Do;
    match schedule
    case Stop =>
      assert Runs(c, Do(c, s', a), Stop, Do(c, s', a));
      longer := Then(a, Stop);
    case Then(b, rest) =>
      var more := RunsOneMore(c, Do(c, s, b), rest, s', a);
      longer := Then(b, more);
  }

  /** One more step from a state that can be reached. */
  lemma ReachesOneMore(c: Config, s: State, a: Action, s': State)
    requires c.Valid() && Reachable(c, s) && |s.pc| == |s.origin| == |c.stages| && Enabled(c, s, a)
    requires s' == Do(c, s, a) && |s'.pc| == |s'.origin| == |c.stages|
    ensures Reachable(c, s')
  {
    hide Enabled;
    hide Do;
    var schedule :| Runs(c, Init(c), schedule, s);
    var longer := RunsOneMore(c, Init(c), schedule, s, a);
  }

  lemma BothSpawn()
    ensures TWO_STAGES.Valid()
    ensures Reachable(TWO_STAGES, Spawned2([Spawned(true), Spawned(true)], [None, None], [], 0, map[], map[]))
  {
    TwoStagesAreValid();
    var c := TWO_STAGES;
    var s0 := Init(c);
    assert s0.pc == [Unspawned, Unspawned] && s0.origin == [None, None];
    assert Runs(c, s0, Stop, s0);
    hide Runs;
    var s1 := Do(c, s0, SpawnerAcquire);
    ReachesOneMore(c, s0, SpawnerAcquire, s1);
    var s2 := Do(c, s1, SpawnerStart);
    assert s2.pc == [Spawned(true), Unspawned];
    ReachesOneMore(c, s1, SpawnerStart, s2);
    var s3 := Do(c, s2, SpawnerAcquire);
    ReachesOneMore(c, s2, SpawnerAcquire, s3);
    var s4 := Do(c, s3, SpawnerStart);
    assert s4.pc == [Spawned(true), Spawned(true)];
    ReachesOneMore(c, s3, SpawnerStart, s4);
  }

  /** The first stage waits for nothing and starts from alpine. */
  lemma FirstStarts()
    ensures TWO_STAGES.Valid()
    ensures Reachable(TWO_STAGES,
      Spawned2([Waiting(1), Spawned(true)], [Some(Named(Word("alpine"))), None], [], 0, map[], map[]))
  {
    BothSpawn();
    var c, none := TWO_STAGES, [None, None];
    var s0 := Spawned2([Spawned(true), Spawned(true)], none, [], 0, map[], map[]);
    var s1 := Spawned2([Waiting(0), Spawned(true)], none, [], 0, map[], map[]);
    assert s0.pc[0 := Waiting(0)] == s1.pc;
    ReachesOneMore(c, s0, Begin(0), s1);
    assert !c.Awaits(0, 0);
    var s2 := Spawned2([Resolving, Spawned(true)], none, [], 0, map[], map[]);
    assert s1.pc[0 := Resolving] == s2.pc;
    ReachesOneMore(c, s1, Check(0), s2);
    var s3 := Spawned2([Waiting(1), Spawned(true)], [Some(Named(Word("alpine"))), None], [], 0, map[], map[]);
    assert s2.pc[0 := Waiting(1)] == s3.pc && none[0 := Some(Named(Word("alpine")))] == s3.origin;
    assert c.Base(0) == Word("alpine");
    ReachesOneMore(c, s2, Resolve(0), s3);
  }

  /** It commits an image, which the collector notes. */
  lemma FirstCommits(image: nat)
    ensures TWO_STAGES.Valid()
    ensures Reachable(TWO_STAGES,
      Spawned2([Sent, Spawned(true)], [Some(Named(Word("alpine"))), None], [Result(0, Some(image), false)], 1,
        map[Word("builder") := false, Index(0) := false], map[Word("builder") := image]))
  {
    FirstStarts();
    var c, origin, r := TWO_STAGES, [Some(Named(Word("alpine"))), None], Result(0, Some(image), false);
    var s0 := Spawned2([Waiting(1), Spawned(true)], origin, [], 0, map[], map[]);
    var s1 := Spawned2([Sent, Spawned(true)], origin, [r], 0, map[], map[]);
    assert s0.pc[0 := Sent] == s1.pc && [] + [r] == s1.log;
    assert c.Commits(0);
    ReachesOneMore(c, s0, Finish(0, Some(image)), s1);
    var s2 := Spawned2([Sent, Spawned(true)], origin, [r], 1,
      map[Word("builder") := false, Index(0) := false], map[Word("builder") := image]);
    ReachesOneMore(c, s1, Receive, s2);
  }

  /**
   The second stage waits for the first under its position. It then starts from the name
   "0" as it stands, although the first stage succeeded with an image.
   */
  lemma PositionIsNotHandedTheImage(image: nat) returns (s: State)
    ensures TWO_STAGES.Valid() && TWO_STAGES.Names(0, TWO_STAGES.Base(1)) && Reachable(TWO_STAGES, s)
    ensures |s.origin| == 2 && s.origin[1] == Some(Named(Index(0)))
    ensures ResultOf(s.log, |s.log|, 0, Result(0, Some(image), false))
  {
    FirstCommits(image);
    var c, origin, log := TWO_STAGES, [Some(Named(Word("alpine"))), None], [Result(0, Some(image), false)];
    var done, images := map[Word("builder") := false, Index(0) := false], map[Word("builder") := image];
    var s0 := Spawned2([Sent, Spawned(true)], origin, log, 1, done, images);
    var s1 := Spawned2([Sent, Waiting(0)], origin, log, 1, done, images);
    assert s0.pc[1 := Waiting(0)] == s1.pc;
    ReachesOneMore(c, s0, Begin(1), s1);
    assert c.WaitName(1, 0) == Index(0) && c.Names(0, Index(0)) && c.Awaits(1, 0);
    var s2 := Spawned2([Sent, Looking(0)], origin, log, 1, done, images);
    assert s1.pc[1 := Looking(0)] == s2.pc;
    ReachesOneMore(c, s1, Check(1), s2);
    var s3 := Spawned2([Sent, Resolving], origin, log, 1, done, images);
    assert s2.pc[1 := Resolving] == s3.pc;
    ReachesOneMore(c, s2, Look(1), s3);
    s := Spawned2([Sent, Waiting(1)], [Some(Named(Word("alpine"))), Some(Named(Index(0)))], log, 1, done, images);
    assert s3.pc[1 := Waiting(1)] == s.pc && origin[1 := Some(Named(Index(0)))] == s.origin;
    ReachesOneMore(c, s3, Resolve(1), s);
    assert s.log[0] == Result(0, Some(image), false);
  }
}
