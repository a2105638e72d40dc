/**
 The scheduler never gets stuck: from every reachable state the build can come to its
 end, and a run can only go on for ever by polling.
 */
module SchedulerProgress {
  import opened Optional
  import opened StagePruning
  import opened StageScheduler
  import opened SchedulerSafety

  // ----------------------------------------------------------------------- the work left

  ghost function PcRank(c: Config, i: nat, p: Pc): nat {
    var refs := if i < |c.stages| then |c.stages[i].refs| else 0;
    match p
    case Unspawned => 2 * refs + 5
    case Spawned(_) => 2 * refs + 4
    case Waiting(k) => if k <= refs then 2 * (refs - k) + 3 else 0
    case Looking(k) => if k <= refs then 2 * (refs - k) + 3 else 0
    case Asleep(k) => if k <= refs then 2 * (refs - k) + 3 else 0
    case Resolving => 2 * refs + 2
    case Sent => 2
    case Counted => 1
    case Done => 0
  }

  ghost function PcRankOf(c: Config): (f: (nat, Pc) -> nat)
    ensures forall i, p :: f(i, p) == PcRank(c, i, p)
  {
    (i, p) => PcRank(c, i, p)
  }

  function CollectorRank(k: Collector): nat {
    match k
    case Receiving => 3
    case Failing => 2
    case Returned => 1
    case Cleaned => 0
  }

  /** Steps that the spawner, the collector and the closer have ahead of them. */
  ghost function GlobalRank(c: Config, s: State): int {
    2 * (|c.stages| - s.spawned) - (if s.spawnerHolds then 1 else 0)
    + (|c.stages| - s.taken) + CollectorRank(s.collector) + (if s.closed then 0 else 1)
  }

  ghost function Rank(c: Config, s: State): int {
    Tally(PcRankOf(c), s.pc, |s.pc|) + GlobalRank(c, s)
  }

  /** How far a stage's polling is from leading on, when it can lead on, or from giving way. */
  ghost function PcPoll(c: Config, terminated: map<Name, bool>, lastError: bool, i: nat, p: Pc): nat {
    var over := c.Valid() && i < |c.stages| && (p.Asleep? || p.Looking?) && p.k < |c.stages[i].refs|
      && c.WaitName(i, p.k) in terminated;
    match p
    case Asleep(_) => if lastError || over then 3 else 0
    case Waiting(_) => 2
    case Looking(_) => if lastError && !over then 4 else 1
    case _ => 0
  }

  ghost function PcPollOf(c: Config, terminated: map<Name, bool>, lastError: bool): (f: (nat, Pc) -> nat)
    ensures forall i, p :: f(i, p) == PcPoll(c, terminated, lastError, i, p)
  {
    (i, p) => PcPoll(c, terminated, lastError, i, p)
  }

  ghost function Poll(c: Config, s: State): nat {
    Tally(PcPollOf(c, s.terminated, s.lastError), s.pc, |s.pc|)
  }

  /** Steps that only go round in waitForStage. */
  ghost predicate IsPoll(c: Config, s: State, a: Action)
    requires c.Valid() && |s.pc| == |s.origin| == |c.stages| && Enabled(c, s, a)
  {
    match a
    case Wake(_) => true
    case Check(i) => c.Awaits(i, s.pc[i].k) && !s.lastError
    case Look(i) => c.WaitName(i, s.pc[i].k) !in s.terminated
    case _ => false
  }

  lemma RankIsNat(c: Config, s: State)
    requires c.Valid() && Inv(c, s)
    ensures Rank(c, s) >= 0 && GlobalRank(c, s) >= 0
  {
    TallyBound(SentOne(), s.pc, |s.pc|);
  }

  /** Only stage i moves. */
  ghost predicate Moves(s: State, s': State, i: nat, p: Pc) {
    && i < |s.pc| && s'.pc == s.pc[i := p] && s'.spawned == s.spawned && s'.spawnerHolds == s.spawnerHolds
    && s'.taken == s.taken && s'.collector == s.collector && s'.closed == s.closed
  }

  lemma MoveRank(c: Config, s: State, s': State, i: nat, p: Pc)
    requires Moves(s, s', i, p)
    ensures Rank(c, s') - Rank(c, s) == PcRank(c, i, p) - PcRank(c, i, s.pc[i])
  {
    TallyUpdate(PcRankOf(c), s.pc, i, p, |s.pc|);
  }

  lemma CheckRank(c: Config, s: State, i: nat)
    requires c.Valid() && |s.pc| == |s.origin| == |c.stages| && Enabled(c, s, Check(i))
    ensures var s' := Do(c, s, Check(i));
            if IsPoll(c, s, Check(i)) then Rank(c, s') == Rank(c, s) else Rank(c, s') < Rank(c, s)
  {
    hide Config.Awaits;
    hide Rank;
    var s', k := Do(c, s, Check(i)), s.pc[i].k;
    if !c.Awaits(i, k) {
      MoveRank(c, s, s', i, AfterWait(k));
    } else if s.lastError {
      MoveRank(c, s, s', i, Sent);
    } else {
      MoveRank(c, s, s', i, Looking(k));
    }
  }

  lemma LookRank(c: Config, s: State, i: nat)
    requires c.Valid() && |s.pc| == |s.origin| == |c.stages| && Enabled(c, s, Look(i))
    ensures var s' := Do(c, s, Look(i));
            if IsPoll(c, s, Look(i)) then Rank(c, s') == Rank(c, s) else Rank(c, s') < Rank(c, s)
  {
    hide Rank;
    var s', k := Do(c, s, Look(i)), s.pc[i].k;
    MoveRank(c, s, s', i, if c.WaitName(i, k) in s.terminated then AfterWait(k) else Asleep(k));
  }

  lemma BeginRank(c: Config, s: State, i: nat)
    requires c.Valid() && |s.pc| == |s.origin| == |c.stages| && Enabled(c, s, Begin(i))
    ensures Rank(c, Do(c, s, Begin(i))) < Rank(c, s)
  {
    hide Config.Builds;
    hide Rank;
    var s' := Do(c, s, Begin(i));
    MoveRank(c, s, s', i, if s.cancel || !s.pc[i].live || !c.Builds(i) then Sent else Waiting(0));
  }

  lemma FailRank(c: Config, s: State, i: nat)
    requires c.Valid() && |s.pc| == |s.origin| == |c.stages| && Enabled(c, s, Fail(i)) && PcFits(c, i, s.pc[i])
    ensures Rank(c, Do(c, s, Fail(i))) < Rank(c, s)
  {
    hide Config.Awaits;
    hide Rank;
    MoveRank(c, s, Do(c, s, Fail(i)), i, Sent);
  }

  lemma MoveOnRank(c: Config, s: State, a: Action)
    requires c.Valid() && |s.pc| == |s.origin| == |c.stages| && Enabled(c, s, a)
    requires a.Resolve? || a.Finish? || a.Count? || a.Release?
    ensures Rank(c, Do(c, s, a)) < Rank(c, s)
  {
    hide Config.Commits;
    hide Rank;
    var s' := Do(c, s, a);
    match a
    case Resolve(i) => MoveRank(c, s, s', i, Waiting(1));
    case Finish(i, image) => MoveRank(c, s, s', i, Sent);
    case Count(i) => MoveRank(c, s, s', i, Counted);
    case Release(i) => MoveRank(c, s, s', i, Done);
  }

  lemma WakeRank(c: Config, s: State, i: nat)
    requires c.Valid() && |s.pc| == |s.origin| == |c.stages| && Enabled(c, s, Wake(i))
    ensures Rank(c, Do(c, s, Wake(i))) == Rank(c, s)
  {
    hide Rank;
    MoveRank(c, s, Do(c, s, Wake(i)), i, Waiting(s.pc[i].k));
  }

  lemma GlobalStepRank(c: Config, s: State, a: Action)
    requires c.Valid() && |s.pc| == |s.origin| == |c.stages| && Enabled(c, s, a)
    requires
      || a.SpawnerAcquire? || a.SpawnerStart? || a.Close? || a.Receive?
      || a.SetLastError? || a.EndReceive? || a.Cleanup?
    requires a.SpawnerStart? ==> s.pc[s.spawned].Unspawned?
    ensures Rank(c, Do(c, s, a)) < Rank(c, s)
  {
    if a.SpawnerStart? {
      TallyUpdate(PcRankOf(c), s.pc, s.spawned, Spawned(!s.cleaned), |s.pc|);
    }
  }

  /** Every step other than polling leaves less work, and polling leaves as much. */
  lemma StepRank(c: Config, s: State, a: Action)
    requires c.Valid() && Inv(c, s) && Enabled(c, s, a)
    ensures IsPoll(c, s, a) ==> Rank(c, Do(c, s, a)) == Rank(c, s)
    ensures !IsPoll(c, s, a) ==> Rank(c, Do(c, s, a)) < Rank(c, s)
  {
    hide Rank;
    hide Do;
    hide Config.Awaits;
    hide Config.Builds;
    match a
    case Check(i) => CheckRank(c, s, i);
    case Look(i) => LookRank(c, s, i);
    case Wake(i) => WakeRank(c, s, i);
    case Begin(i) => BeginRank(c, s, i);
    case Fail(i) => FailRank(c, s, i);
    case Resolve(i) => MoveOnRank(c, s, a);
    case Finish(i, image) => MoveOnRank(c, s, a);
    case Count(i) => MoveOnRank(c, s, a);
    case Release(i) => MoveOnRank(c, s, a);
    case _ => GlobalStepRank(c, s, a);
  }

  /** The steps of a schedule other than polling. */
  ghost function Work(c: Config, s: State, schedule: Schedule): nat
    requires c.Valid()
    decreases schedule
  {
    if schedule.Then? && |s.pc| == |s.origin| == |c.stages| && Enabled(c, s, schedule.first) then
      (if IsPoll(c, s, schedule.first) then 0 else 1) + Work(c, Do(c, s, schedule.first), schedule.rest)
    else 0
  }

  lemma {:induction false} WorkIsBounded(c: Config, s: State, schedule: Schedule, s': State)
    requires c.Valid() && Inv(c, s) && Runs(c, s, schedule, s')
    ensures Work(c, s, schedule) <= Rank(c, s)
    decreases schedule
  {
    hide Inv;
    hide Rank;
    RankIsNat(c, s);
    if schedule.Then? {
      StepRank(c, s, schedule.first);
      StepKeepsInv(c, s, schedule.first);
      WorkIsBounded(c, Do(c, s, schedule.first), schedule.rest, s');
    }
  }

  /** A run has only finitely many steps that are not polling, with a bound that the build alone gives. */
  lemma RunsOnlyPollForEver(c: Config, schedule: Schedule, s: State)
    requires c.Valid() && Runs(c, Init(c), schedule, s)
    ensures Work(c, Init(c), schedule) <= Rank(c, Init(c))
  {
    InitInv(c);
    WorkIsBounded(c, Init(c), schedule, s);
  }

  // ----------------------------------------------------------------------- never stuck

  /** The wait at reference k would come to an end if it looked now. */
  ghost predicate Over(c: Config, s: State, i: nat, k: nat)
    requires c.Valid() && i < |c.stages| && k < |c.stages[i].refs|
  {
    s.lastError || c.WaitName(i, k) in s.terminated
  }

  /** Polling that a sleeper only takes up when its wait is over comes to an end. */
  lemma PollStep(c: Config, s: State, a: Action)
    requires c.Valid() && |s.pc| == |s.origin| == |c.stages| && Enabled(c, s, a) && IsPoll(c, s, a)
    requires a.Wake? ==> s.pc[a.i].k < |c.stages[a.i].refs| && Over(c, s, a.i, s.pc[a.i].k)
    ensures Poll(c, Do(c, s, a)) < Poll(c, s)
  {
    hide Config.Awaits;
    var s' := Do(c, s, a);
    TallyUpdate(PcPollOf(c, s.terminated, s.lastError), s.pc, a.i, s'.pc[a.i], |s.pc|);
  }

  /** No stage, nor the spawner, holds a permit or has anything to do but wait. */
  ghost predicate Quiet(s: State) {
    !s.spawnerHolds && forall i :: 0 <= i < |s.pc| ==> s.pc[i].Unspawned? || s.pc[i].Asleep? || s.pc[i].Done?
  }

  lemma QuietIsFree(c: Config, s: State)
    requires c.Valid() && Inv(c, s) && Quiet(s)
    ensures s.free == c.capacity
  {
    TallyZero(HoldsOne(), s.pc, |s.pc|);
  }

  /** The collector has taken all there is, or has stopped on an error. */
  ghost predicate Drained(s: State) {
    s.lastError || s.taken == |s.log|
  }

  lemma DoneIsTerminated(c: Config, s: State, i: nat, k: nat)
    requires c.Valid() && Inv(c, s) && Drained(s) && i < |s.pc| && k < |c.stages[i].refs| && c.Awaits(i, k)
    requires forall j :: 0 <= j < i ==> s.pc[j].Done?
    ensures Over(c, s, i, k)
  {
    if !s.lastError {
      var j :| 0 <= j < i && c.Names(j, c.WaitName(i, k));
      assert HasSent(s.pc[j]);
      var r :| ResultOf(s.log, |s.log|, j, r);
      var a :| 0 <= a < |s.log| && s.log[a] == r && r.index == j;
      assert Shown(c, s.log[a], s.terminated, s.images);
    }
  }

  /** With everything quiet and drained, the first unfinished stage can go on. */
  lemma QuietStep(c: Config, s: State, p: nat) returns (a: Action)
    requires c.Valid() && Inv(c, s) && Quiet(s) && Drained(s)
    requires p < |s.pc| && !s.pc[p].Done? && forall j :: 0 <= j < p ==> s.pc[j].Done?
    ensures Enabled(c, s, a) && (a.SpawnerAcquire? || (a.Wake? && Over(c, s, a.i, s.pc[a.i].k)))
  {
    QuietIsFree(c, s);
    if s.pc[p].Unspawned? {
      a := SpawnerAcquire;
    } else {
      DoneIsTerminated(c, s, p, s.pc[p].k);
      a := Wake(p);
    }
  }

  /** A step of a stage that is neither asleep nor unspawned nor done, and that does not fail. */
  lemma StageStep(c: Config, s: State, i: nat) returns (a: Action)
    requires c.Valid() && Inv(c, s) && i < |s.pc|
    requires !s.pc[i].Unspawned? && !s.pc[i].Asleep? && !s.pc[i].Done?
    ensures Enabled(c, s, a) && !a.Fail? && !a.Wake?
  {
    match s.pc[i]
    case Spawned(_) => a := Begin(i);
    case Waiting(k) => a :=
      if k < |c.stages[i].refs| then Check(i) else Finish(i, if c.Commits(i) then Some(0) else None);
    case Looking(_) => a := Look(i);
    case Resolving => a := Resolve(i);
    case Sent => a := Count(i);
    case Counted => a := Release(i);
  }

  lemma {:induction false} FirstUnfinished(pc: seq<Pc>, i: nat) returns (p: nat)
    requires i < |pc| && !pc[i].Done?
    ensures p < |pc| && !pc[p].Done? && forall j :: 0 <= j < p ==> pc[j].Done?
  {
    p := 0;
    while pc[p].Done?
      invariant p <= i && forall j :: 0 <= j < p ==> pc[j].Done?
      decreases i - p
    {
      p := p + 1;
    }
  }

  /** Some step that no stage fails at is possible, and is not idle polling. */
  lemma NextStep(c: Config, s: State) returns (a: Action)
    requires c.Valid() && Inv(c, s) && !Finished(s)
    ensures Enabled(c, s, a) && !a.Fail?
    ensures a.Wake? ==> s.pc[a.i].k < |c.stages[a.i].refs| && Over(c, s, a.i, s.pc[a.i].k)
  {
    hide PublishedFits;
    hide WaitsKept;
    hide HandedOff;
    hide EverySentIsLogged;
    hide Config.Awaits;
    hide Config.Commits;
    if s.collector.Failing? {
      a := SetLastError;
    } else if s.collector.Returned? {
      a := Cleanup;
    } else if s.collector.Receiving? && s.taken < |s.log| {
      a := Receive;
    } else if s.collector.Receiving? && s.closed {
      a := EndReceive;
    } else if s.spawnerHolds {
      a := SpawnerStart;
    } else if i :| 0 <= i < |s.pc| && !s.pc[i].Unspawned? && !s.pc[i].Asleep? && !s.pc[i].Done? {
      a := StageStep(c, s, i);
    } else if i :| 0 <= i < |s.pc| && !s.pc[i].Done? {
      var p := FirstUnfinished(s.pc, i);
      a := QuietStep(c, s, p);
    } else {
      a := Close;
    }
  }

  ghost predicate NobodyFails(schedule: Schedule) {
    schedule.Then? ==> !schedule.first.Fail? && NobodyFails(schedule.rest)
  }

  /** From any state that keeps the invariant, there is a way to the end on which no stage fails. */
  lemma {:induction false} WayToTheEnd(c: Config, s: State) returns (schedule: Schedule, s': State)
    requires c.Valid() && Inv(c, s)
    ensures Runs(c, s, schedule, s') && NobodyFails(schedule) && Finished(s')
    decreases Rank(c, s), Poll(c, s)
  {
    hide Inv;
    hide Rank;
    hide Poll;
    hide Do;
    hide Finished;
    assert |s.pc| == |s.origin| == |c.stages| by { InvShape(c, s); }
    if Finished(s) {
      schedule, s' := Stop, s;
    } else {
      var a := NextStep(c, s);
      StepKeepsInv(c, s, a);
      StepRank(c, s, a);
      RankIsNat(c, Do(c, s, a));
      if IsPoll(c, s, a) {
        PollStep(c, s, a);
      }
      var rest;
      rest, s' := WayToTheEnd(c, Do(c, s, a));
      schedule := Then(a, rest);
    }
  }

  lemma InvShape(c: Config, s: State)
    requires c.Valid() && Inv(c, s)
    ensures |s.pc| == |s.origin| == |c.stages|
  {
  }

  /**
   No deadlock: with at least one permit, from every reachable state the build can run to
   the end of all stages, the spawner, the closer and the collector, without any further
   stage failing, also after the collector has returned early on an error.
   */
  lemma NeverStuck(c: Config, s: State)
    requires c.Valid() && Reachable(c, s)
    ensures exists schedule, s' :: Runs(c, s, schedule, s') && NobodyFails(schedule) && Finished(s')
  {
    ReachableInv(c, s);
    var schedule, s' := WayToTheEnd(c, s);
  }
}
