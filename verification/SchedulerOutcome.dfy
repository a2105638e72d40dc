/**
 How a build ends: it reports an error exactly when a stage has failed, an error stops all
 waiting, and a failure cancels the stages that have not begun.
 */
module SchedulerOutcome {
  import opened Optional
  import opened StagePruning
  import opened StageScheduler
  import opened SchedulerSafety

  // ------------------------------------------------------------------------------ what is reported

  /** No result among the first n is a failure. */
  ghost predicate NoneFailed(log: seq<Result>, n: nat) {
    n <= |log| && forall a :: 0 <= a < n ==> !log[a].failed
  }

  /** The last result that was taken is a failure, and the first one. */
  ghost predicate LastFailed(log: seq<Result>, taken: nat) {
    0 < taken <= |log| && log[taken - 1].failed && NoneFailed(log, taken - 1)
  }

  /** The collector goes on while nothing has failed, and stops at the first failure. */
  ghost predicate ErrorFits(s: State) {
    match s.collector
    case Receiving => !s.lastError && NoneFailed(s.log, s.taken)
    case Failing => !s.lastError && LastFailed(s.log, s.taken)
    case _ =>
      if s.lastError then LastFailed(s.log, s.taken)
      else s.closed && s.taken == |s.log| && NoneFailed(s.log, s.taken)
  }

  /** Sending changes nothing about what was taken. */
  lemma SendKeepsErrorFits(s: State, r: Result, s': State)
    requires ErrorFits(s) && !s.closed && s'.log == s.log + [r]
    requires s'.taken == s.taken && s'.lastError == s.lastError && s'.collector == s.collector
    ensures ErrorFits(s')
  {
    assert forall a :: 0 <= a < s.taken <= |s.log| ==> s'.log[a] == s.log[a];
  }

  lemma SameKeepsErrorFits(s: State, s': State)
    requires ErrorFits(s) && s'.log == s.log && s'.taken == s.taken
    requires s'.lastError == s.lastError && s'.collector == s.collector && (s.closed ==> s'.closed)
    ensures ErrorFits(s')
  {
  }

  lemma CollectorKeepsErrorFits(c: Config, s: State, a: Action)
    requires c.Valid() && |s.pc| == |s.origin| == |c.stages| && Enabled(c, s, a) && ErrorFits(s)
    requires a.Receive? || a.SetLastError? || a.EndReceive? || a.Cleanup?
    ensures ErrorFits(Do(c, s, a))
  {
    hide Config.Valid;
    hide NoteTermination;
    hide NoteImage;
  }

  /** The stage whose step it is. */
  function ActorOf(a: Action): Option<nat> {
    match a
    case Begin(i) => Some(i)
    case Check(i) => Some(i)
    case Look(i) => Some(i)
    case Wake(i) => Some(i)
    case Resolve(i) => Some(i)
    case Finish(i, _) => Some(i)
    case Fail(i) => Some(i)
    case Count(i) => Some(i)
    case Release(i) => Some(i)
    case _ => None
  }

  /** What a step of stage i changes: its own place, and the log if it sends. */
  ghost predicate IsStepOf(s: State, s': State, i: nat) {
    && i < |s.pc| == |s.origin| == |s'.pc| == |s'.origin|
    && (s'.log == s.log || (|s'.log| == |s.log| + 1 && s'.log[..|s.log|] == s.log && s'.log[|s.log|].index == i))
    && (forall j :: 0 <= j < |s.pc| && j != i ==> s'.pc[j] == s.pc[j] && s'.origin[j] == s.origin[j])
    && s'.taken == s.taken && s'.lastError == s.lastError && s'.collector == s.collector && s'.closed == s.closed
    && s'.cleaned == s.cleaned && (s.cancel ==> s'.cancel)
  }

  lemma SendIsStepOf(s: State, r: Result)
    requires r.index < |s.pc| == |s.origin|
    ensures IsStepOf(s, Send(s, r), r.index) && IsStepOf(s, SendFailure(s, r.index), r.index)
  {
    assert (s.log + [r])[..|s.log|] == s.log;
    assert (s.log + [Result(r.index, None, true)])[..|s.log|] == s.log;
  }

  lemma MoveIsStepOf(s: State, i: nat, p: Pc, free: nat, origin: seq<Option<Origin>>)
    requires i < |s.pc| == |s.origin| == |origin|
    requires forall j :: 0 <= j < |origin| && j != i ==> origin[j] == s.origin[j]
    ensures IsStepOf(s, MoveTo(s, i, p).(free := free, origin := origin), i)
    ensures IsStepOf(s, MoveTo(s, i, p).(free := free), i) && IsStepOf(s, MoveTo(s, i, p), i)
  {
  }

  lemma StageStep(c: Config, s: State, a: Action)
    requires c.Valid() && |s.pc| == |s.origin| == |c.stages| && Enabled(c, s, a) && ActorOf(a).Some?
    ensures IsStepOf(s, Do(c, s, a), ActorOf(a).value)
  {
    hide IsStepOf;
    hide MoveTo;
    hide Send;
    hide SendFailure;
    hide Config.Valid;
    hide Config.Builds;
    hide Config.Commits;
    hide Config.Awaits;
    hide Config.WaitName;
    var i := ActorOf(a).value;
    SendIsStepOf(s, Result(i, None, true));
    match a
    case Begin(_) =>
      SendIsStepOf(s, Result(i, None, false));
      MoveIsStepOf(s, i, Waiting(0), s.free, s.origin);
    case Check(_) =>
      MoveIsStepOf(s, i, AfterWait(s.pc[i].k), s.free, s.origin);
      MoveIsStepOf(s, i, Looking(s.pc[i].k), s.free, s.origin);
    case Look(_) =>
      MoveIsStepOf(s, i, AfterWait(s.pc[i].k), s.free, s.origin);
      MoveIsStepOf(s, i, Asleep(s.pc[i].k), s.free + 1, s.origin);
    case Wake(_) => MoveIsStepOf(s, i, Waiting(s.pc[i].k), s.free - 1, s.origin);
    case Resolve(_) =>
      MoveIsStepOf(s, i, Waiting(1), s.free, Do(c, s, a).origin);
      assert Do(c, s, a) == MoveTo(s, i, Waiting(1)).(free := s.free, origin := Do(c, s, a).origin) by {
        MoveKeepsFree(s, i, Waiting(1));
      }
    case Finish(_, image) => SendIsStepOf(s, Result(i, image, false));
    case Fail(_) =>
    case Count(_) => MoveIsStepOf(s, i, Counted, s.free, s.origin);
    case Release(_) => MoveIsStepOf(s, i, Done, s.free + 1, s.origin);
  }

  lemma MoveKeepsFree(s: State, i: nat, p: Pc)
    requires i < |s.pc|
    ensures MoveTo(s, i, p).free == s.free
  {
  }

  /** What the spawner and the closer change. */
  lemma SpawnerStep(c: Config, s: State, a: Action)
    requires c.Valid() && |s.pc| == |s.origin| == |c.stages| && Enabled(c, s, a)
    requires a.SpawnerAcquire? || a.SpawnerStart? || a.Close?
    ensures var s' := Do(c, s, a);
            && s'.log == s.log && s'.taken == s.taken && s'.lastError == s.lastError && s'.collector == s.collector
            && (s.closed ==> s'.closed) && s'.cancel == s.cancel && s'.cleaned == s.cleaned && s'.origin == s.origin
            && s'.pc == if a.SpawnerStart? then s.pc[s.spawned := Spawned(!s.cleaned)] else s.pc
  {
    hide Config.Valid;
  }

  /** What the collector changes. */
  lemma CollectorStep(c: Config, s: State, a: Action)
    requires c.Valid() && |s.pc| == |s.origin| == |c.stages| && Enabled(c, s, a)
    requires a.Receive? || a.SetLastError? || a.EndReceive? || a.Cleanup?
    ensures var s' := Do(c, s, a);
            && s'.log == s.log && s'.pc == s.pc && s'.origin == s.origin && s'.cancel == s.cancel
            && (s.lastError ==> s'.lastError) && (s'.cleaned ==> s.cleaned || s'.collector.Cleaned?)
            && (s.cleaned ==> s'.cleaned) && (s.collector.Cleaned? ==> s'.collector.Cleaned?)
  {
    hide Config.Valid;
    hide NoteTermination;
    hide NoteImage;
  }

  lemma StepKeepsErrorFits(c: Config, s: State, a: Action)
    requires c.Valid() && Inv(c, s) && Enabled(c, s, a) && ErrorFits(s)
    ensures ErrorFits(Do(c, s, a))
  {
    InvShape(c, s);
    var s' := Do(c, s, a);
    if a.Receive? || a.SetLastError? || a.EndReceive? || a.Cleanup? {
      CollectorKeepsErrorFits(c, s, a);
    } else if ActorOf(a).None? {
      SpawnerStep(c, s, a);
      hide *;
      SameKeepsErrorFits(s, s');
    } else {
      StageStep(c, s, a);
      hide *;
      if s'.log != s.log {
        OpenWhenSending(c, s, a);
      }
      StageStepKeepsErrorFits(s, s', ActorOf(a).value);
    }
  }

  lemma StageStepKeepsErrorFits(s: State, s': State, i: nat)
    requires ErrorFits(s) && IsStepOf(s, s', i) && (s'.log != s.log ==> !s.closed)
    ensures ErrorFits(s')
  {
    hide ErrorFits;
    if s'.log == s.log {
      SameKeepsErrorFits(s, s');
    } else {
      assert s'.log == s.log + [s'.log[|s.log|]];
      SendKeepsErrorFits(s, s'.log[|s.log|], s');
    }
  }

  lemma InvShape(c: Config, s: State)
    requires c.Valid() && Inv(c, s)
    ensures |s.pc| == |s.origin| == |c.stages|
  {
  }

  lemma OpenWhenSending(c: Config, s: State, a: Action)
    requires c.Valid() && Inv(c, s) && |s.pc| == |s.origin| == |c.stages|
    requires Enabled(c, s, a) && Do(c, s, a).log != s.log
    ensures !s.closed
  {
    OnlyRunningStagesSend(c, s, a);
    hide Enabled;
    hide Do;
    hide PublishedFits;
    hide WaitsKept;
    hide HandedOff;
    hide LogFits;
    hide EverySentIsLogged;
    hide Shape;
    hide Config.Valid;
  }

  lemma {:induction false} RunKeepsErrorFits(c: Config, s: State, schedule: Schedule, s': State)
    requires c.Valid() && Inv(c, s) && ErrorFits(s) && Runs(c, s, schedule, s')
    ensures ErrorFits(s')
    decreases schedule
  {
    hide Inv;
    hide ErrorFits;
    if schedule.Then? {
      StepKeepsInv(c, s, schedule.first);
      StepKeepsErrorFits(c, s, schedule.first);
      RunKeepsErrorFits(c, Do(c, s, schedule.first), schedule.rest, s');
    }
  }

  lemma ReachableErrorFits(c: Config, s: State)
    requires c.Valid() && Reachable(c, s)
    ensures ErrorFits(s)
  {
    var schedule :| Runs(c, Init(c), schedule, s);
    InitInv(c);
    assert ErrorFits(Init(c));
    RunKeepsErrorFits(c, Init(c), schedule, s);
  }

  /** The stage has sent its result, which is not a failure, and which has an image if one is to be committed. */
  ghost predicate HasEnded(c: Config, s: State, i: nat)
    requires c.Valid() && i < |c.stages|
  {
    exists r :: ResultOf(s.log, |s.log|, i, r) && !r.failed && (r.image.Some? <==> c.Builds(i) && c.Commits(i))
  }

  /**
   In every interleaving: a build that has come to its end reports an error if and only if
   one of its stages has failed; the error is that of the first failure that was received. If
   it reports none, then every stage was built, or was not needed.
   */
  lemma ErrorExactlyWhenFailed(c: Config, s: State)
    requires c.Valid() && Reachable(c, s) && Finished(s)
    ensures s.lastError <==> exists a :: 0 <= a < |s.log| && s.log[a].failed
    ensures s.lastError ==> LastFailed(s.log, s.taken)
    ensures !s.lastError ==> forall i :: 0 <= i < |c.stages| ==> HasEnded(c, s, i)
  {
    ReachableErrorFits(c, s);
    hide Config.Valid;
    hide Config.Builds;
    hide Config.Commits;
    hide Reachable;
    if !s.lastError {
      forall i | 0 <= i < |c.stages|
        ensures HasEnded(c, s, i)
      {
        EndedStage(c, s, i);
      }
    }
  }

  lemma EndedStage(c: Config, s: State, i: nat)
    requires c.Valid() && Reachable(c, s) && Finished(s) && i < |c.stages| && NoneFailed(s.log, |s.log|)
    ensures HasEnded(c, s, i)
  {
    ReachableInv(c, s);
    PermitsAndResults(c, s);
    var schedule :| Runs(c, Init(c), schedule, s);
    RunKeepsBuiltFits(c, Init(c), schedule, s);
    assert HasSent(s.pc[i]);
    hide Inv;
    hide Config.Valid;
    hide Config.Builds;
    hide Config.Commits;
    hide Reachable;
    var r :| ResultOf(s.log, |s.log|, i, r);
    assert ResultFits(c, r);
  }

  // ------------------------------------------------------------------------------ an error stops waiting

  /** The first reference that a stage has not checked yet. */
  function ToCheck(p: Pc): nat {
    match p
    case Waiting(k) => k
    case Asleep(k) => k
    case Looking(k) => k + 1
    case Resolving => 1
    case _ => 0
  }

  /** The stage has still to check its reference m, or ended without having got past it. */
  ghost predicate IsHeld(c: Config, s: State, i: nat, m: nat, origin: Option<Origin>)
    requires c.Valid()
  {
    && |s.pc| == |s.origin| == |c.stages| && i < |s.pc| && s.lastError
    && ToCheck(s.pc[i]) <= m && (m == 0 ==> s.origin[i] == origin)
    && forall a :: 0 <= a < |s.log| && s.log[a].index == i ==> s.log[a].failed || !c.Builds(i)
  }

  lemma OthersKeepHeld(c: Config, s: State, s': State, i: nat, m: nat, origin: Option<Origin>)
    requires c.Valid() && IsHeld(c, s, i, m, origin)
    requires LeavesAlone(s, s', i)
    ensures IsHeld(c, s', i, m, origin)
  {
    hide Config.Valid;
    hide Config.Builds;
    assert forall a :: 0 <= a < |s.log| ==> s'.log[a] == s'.log[..|s.log|][a];
  }

  /** A step of the stage itself. */
  lemma OwnStepKeepsHeld(c: Config, s: State, a: Action, i: nat, m: nat, origin: Option<Origin>)
    requires c.Valid() && IsHeld(c, s, i, m, origin) && Enabled(c, s, a) && m < |c.stages[i].refs| && c.Awaits(i, m)
    requires ActorOf(a) == Some(i)
    ensures IsHeld(c, Do(c, s, a), i, m, origin)
  {
    var s' := Do(c, s, a);
    StageStep(c, s, a);
    if a.Begin? || a.Fail? || a.Count? || a.Release? {
      OuterPlace(c, s, a, i, m);
    } else if a.Check? {
      CheckPlace(c, s, i, m);
    } else if a.Look? || a.Wake? {
      WaitingPlace(c, s, a, i, m);
    } else {
      LaterPlace(c, s, a, i, m);
    }
    hide Enabled;
    hide Do;
    hide Config.Valid;
    hide Config.Builds;
    hide Config.Awaits;
    assert forall b :: 0 <= b < |s.log| ==> s'.log[b] == s'.log[..|s.log|][b];
  }

  /** What a step of the stage itself leaves it with. */
  ghost predicate StaysBack(c: Config, s: State, s': State, i: nat, m: nat)
    requires c.Valid() && i < |c.stages|
  {
    && i < |s'.pc| && ToCheck(s'.pc[i]) <= m && (m == 0 ==> s'.origin == s.origin)
    && (s'.log == s.log || s'.log == s.log + [Result(i, None, true)] || !c.Builds(i))
  }

  lemma MovedStaysBack(c: Config, s: State, i: nat, m: nat, p: Pc, free: nat)
    requires c.Valid() && i < |s.pc| == |c.stages| && ToCheck(p) <= m
    ensures StaysBack(c, s, MoveTo(s, i, p), i, m) && StaysBack(c, s, MoveTo(s, i, p).(free := free), i, m)
  {
    hide Config.Valid;
    hide Config.Builds;
  }

  lemma SentStaysBack(c: Config, s: State, r: Result, m: nat)
    requires c.Valid() && r.index < |s.pc| == |c.stages| && (r == Result(r.index, None, true) || !c.Builds(r.index))
    ensures StaysBack(c, s, Send(s, r), r.index, m) && StaysBack(c, s, Send(s, r).(cancel := true), r.index, m)
  {
    hide Config.Valid;
    hide Config.Builds;
  }

  /** Steps at the beginning and the end. */
  lemma OuterPlace(c: Config, s: State, a: Action, i: nat, m: nat)
    requires c.Valid() && |s.pc| == |s.origin| == |c.stages| && Enabled(c, s, a) && ActorOf(a) == Some(i)
    requires a.Begin? || a.Fail? || a.Count? || a.Release?
    ensures StaysBack(c, s, Do(c, s, a), i, m)
  {
    hide Config.Valid;
    hide Config.Builds;
    hide Config.Commits;
    hide Config.Awaits;
    hide Config.WaitName;
    hide StaysBack;
    hide MoveTo;
    hide Send;
    SentStaysBack(c, s, Result(i, None, true), m);
    if a.Begin? && !c.Builds(i) {
      SentStaysBack(c, s, Result(i, None, false), m);
    }
    MovedStaysBack(c, s, i, m, Waiting(0), s.free);
    MovedStaysBack(c, s, i, m, Counted, s.free);
    MovedStaysBack(c, s, i, m, Done, s.free + 1);
  }

  /** Checking whether there is an error. */
  lemma CheckPlace(c: Config, s: State, i: nat, m: nat)
    requires c.Valid() && |s.pc| == |s.origin| == |c.stages| && Enabled(c, s, Check(i)) && s.lastError
    requires m < |c.stages[i].refs| && ToCheck(s.pc[i]) <= m && c.Awaits(i, m)
    ensures StaysBack(c, s, Do(c, s, Check(i)), i, m)
  {
    hide Config.Valid;
    hide Config.Builds;
    hide Config.Commits;
    hide Config.Awaits;
    hide Config.WaitName;
    hide StaysBack;
    hide MoveTo;
    hide Send;
    SentStaysBack(c, s, Result(i, None, true), m);
    if s.pc[i].k != m {
      MovedStaysBack(c, s, i, m, AfterWait(s.pc[i].k), s.free);
    }
  }

  /** The other steps of a stage that waits. */
  lemma WaitingPlace(c: Config, s: State, a: Action, i: nat, m: nat)
    requires c.Valid() && |s.pc| == |s.origin| == |c.stages| && Enabled(c, s, a) && ActorOf(a) == Some(i)
    requires m < |c.stages[i].refs| && ToCheck(s.pc[i]) <= m
    requires a.Look? || a.Wake?
    ensures StaysBack(c, s, Do(c, s, a), i, m)
  {
    hide Config.Valid;
    hide Config.Builds;
    hide Config.Commits;
    hide Config.Awaits;
    hide Config.WaitName;
    hide StaysBack;
    hide MoveTo;
    hide Send;
    var k := s.pc[i].k;
    if a.Look? {
      MovedStaysBack(c, s, i, m, AfterWait(k), s.free);
      MovedStaysBack(c, s, i, m, Asleep(k), s.free + 1);
    } else {
      MovedStaysBack(c, s, i, m, Waiting(k), s.free - 1);
    }
  }

  /** It settles on its base only after the first wait, and ends only after the last one. */
  lemma LaterPlace(c: Config, s: State, a: Action, i: nat, m: nat)
    requires c.Valid() && |s.pc| == |s.origin| == |c.stages| && Enabled(c, s, a) && ActorOf(a) == Some(i)
    requires m < |c.stages[i].refs| && ToCheck(s.pc[i]) <= m && (a.Resolve? || a.Finish?)
    ensures StaysBack(c, s, Do(c, s, a), i, m)
  {
    hide Config.Valid;
    hide Config.Builds;
    hide Config.Commits;
  }

  /** The place of a stage and its results stay as they are. */
  ghost predicate LeavesAlone(s: State, s': State, i: nat) {
    && i < |s.pc| == |s.origin| == |s'.pc| == |s'.origin| && s'.pc[i] == s.pc[i] && s'.origin[i] == s.origin[i]
    && (s.lastError ==> s'.lastError) && (s.cancel ==> s'.cancel)
    && (s'.log == s.log || (|s'.log| == |s.log| + 1 && s'.log[..|s.log|] == s.log && s'.log[|s.log|].index != i))
  }

  /** A step of another stage or process. */
  lemma OtherStepLeavesAlone(c: Config, s: State, a: Action, i: nat)
    requires c.Valid() && |s.pc| == |s.origin| == |c.stages| && i < |s.pc| && Enabled(c, s, a)
    requires ActorOf(a) != Some(i) && (a.SpawnerStart? ==> s.spawned != i)
    ensures LeavesAlone(s, Do(c, s, a), i)
  {
    if ActorOf(a).Some? {
      StageStep(c, s, a);
    } else if a.SpawnerAcquire? || a.SpawnerStart? || a.Close? {
      SpawnerStep(c, s, a);
    } else {
      CollectorStep(c, s, a);
    }
    hide Enabled;
    hide Do;
    hide Config.Valid;
  }

  lemma StepKeepsHeld(c: Config, s: State, a: Action, i: nat, m: nat, origin: Option<Origin>)
    requires c.Valid() && IsHeld(c, s, i, m, origin) && Enabled(c, s, a) && m < |c.stages[i].refs| && c.Awaits(i, m)
    ensures IsHeld(c, Do(c, s, a), i, m, origin)
  {
    hide Config.Valid;
    hide Config.Builds;
    hide Config.Awaits;
    if ActorOf(a) == Some(i) {
      OwnStepKeepsHeld(c, s, a, i, m, origin);
    } else if a.SpawnerStart? && s.spawned == i {
      assert Do(c, s, a).pc[i] == Spawned(!s.cleaned);
    } else {
      OtherStepLeavesAlone(c, s, a, i);
      hide Enabled;
      hide Do;
      OthersKeepHeld(c, s, Do(c, s, a), i, m, origin);
    }
  }

  lemma {:induction false} RunKeepsHeld(c: Config, s: State, schedule: Schedule, s': State, i: nat, m: nat,
                                        origin: Option<Origin>)
    requires c.Valid() && IsHeld(c, s, i, m, origin) && m < |c.stages[i].refs| && c.Awaits(i, m)
    requires Runs(c, s, schedule, s')
    ensures IsHeld(c, s', i, m, origin)
    decreases schedule
  {
    if schedule.Then? {
      StepKeepsHeld(c, s, schedule.first, i, m, origin);
      hide IsHeld;
      hide Config.Awaits;
      RunKeepsHeld(c, Do(c, s, schedule.first), schedule.rest, s', i, m, origin);
    }
  }

  /**
   Once an error is set, a stage that has yet to check a reference to another stage never gets
   past it: whatever happens, it does not go on to the next reference, does not settle on
   its base if that is what it waits for, and if it ends it fails, or was not to be built.
   */
  lemma ErrorStopsWaiting(c: Config, s: State, schedule: Schedule, s': State, i: nat, m: nat)
    requires c.Valid() && Reachable(c, s) && s.lastError && i < |c.stages| == |s.pc| == |s.origin|
    requires m < |c.stages[i].refs| && c.Awaits(i, m) && !HasSent(s.pc[i]) && ToCheck(s.pc[i]) <= m
    requires Runs(c, s, schedule, s')
    ensures |s'.pc| == |s'.origin| == |c.stages| && Passed(s'.pc[i]) <= m && s'.pc[i] != Looking(m)
    ensures m == 0 ==> s'.origin[i] == s.origin[i]
    ensures forall a :: 0 <= a < |s'.log| && s'.log[a].index == i ==> s'.log[a].failed || !c.Builds(i)
  {
    ReachableInv(c, s);
    hide Reachable;
    hide Config.Awaits;
    hide Config.Builds;
    assert IsHeld(c, s, i, m, s.origin[i]) by {
      forall a | 0 <= a < |s.log|
        ensures s.log[a].index != i
      {
      }
    }
    hide Inv;
    RunKeepsHeld(c, s, schedule, s', i, m, s.origin[i]);
  }

  // ------------------------------------------------------------------------------ a failure cancels the rest

  ghost predicate SomeFailed(log: seq<Result>) {
    exists a :: 0 <= a < |log| && log[a].failed
  }

  /** The build is cancelled exactly when a stage has failed. Stages are not started alive after the cleaning up. */
  ghost predicate CancelFits(s: State) {
    && (s.cancel <==> SomeFailed(s.log))
    && (s.cleaned ==> s.collector.Cleaned?)
    && (forall i :: 0 <= i < |s.pc| && s.pc[i].Spawned? && !s.pc[i].live ==> s.cleaned)
  }

  lemma SomeFailedNext(log: seq<Result>, r: Result)
    ensures SomeFailed(log + [r]) <==> SomeFailed(log) || r.failed
  {
    assert (log + [r])[|log|] == r;
    if SomeFailed(log) {
      var a :| 0 <= a < |log| && log[a].failed;
      assert (log + [r])[a].failed;
    }
    if SomeFailed(log + [r]) && !r.failed {
      var a :| 0 <= a < |log + [r]| && (log + [r])[a].failed;
      assert log[a].failed;
    }
  }

  lemma SendKeepsCancelFits(s: State, r: Result)
    requires CancelFits(s) && r.index < |s.pc|
    ensures !r.failed || s.cancel ==> CancelFits(Send(s, r))
    ensures r.failed ==> CancelFits(Send(s, r).(cancel := true))
  {
    SomeFailedNext(s.log, r);
    hide SomeFailed;
  }

  lemma MoveKeepsCancelFits(s: State, i: nat, p: Pc)
    requires CancelFits(s) && i < |s.pc| && (p.Spawned? && !p.live ==> s.cleaned)
    ensures CancelFits(MoveTo(s, i, p))
  {
    hide SomeFailed;
  }

  /** A stage that is started after the cleaning up: something has failed before. */
  lemma UnliveIsCancelled(c: Config, s: State, i: nat)
    requires c.Valid() && Inv(c, s) && ErrorFits(s) && CancelFits(s) && Enabled(c, s, Begin(i)) && !s.pc[i].live
    ensures s.cancel
  {
    OpenWhileRunning(c, s, i);
    hide Inv;
    assert s.cleaned && s.lastError && s.log[s.taken - 1].failed;
  }

  lemma BeginKeepsCancelFits(c: Config, s: State, i: nat)
    requires c.Valid() && Inv(c, s) && ErrorFits(s) && CancelFits(s) && Enabled(c, s, Begin(i))
    ensures CancelFits(Do(c, s, Begin(i)))
  {
    if !s.pc[i].live {
      UnliveIsCancelled(c, s, i);
    }
    hide Inv;
    hide ErrorFits;
    hide CancelFits;
    hide Config.Valid;
    hide Config.Builds;
    SendKeepsCancelFits(s, Result(i, None, true));
    SendKeepsCancelFits(s, Result(i, None, false));
    MoveKeepsCancelFits(s, i, Waiting(0));
  }

  lemma StageKeepsCancelFits(c: Config, s: State, a: Action)
    requires c.Valid() && |s.pc| == |s.origin| == |c.stages| && CancelFits(s) && Enabled(c, s, a)
    requires a.Check? || a.Look? || a.Wake? || a.Resolve? || a.Finish? || a.Fail? || a.Count? || a.Release?
    ensures CancelFits(Do(c, s, a))
  {
    hide CancelFits;
    hide MoveTo;
    hide Send;
    hide Config.Valid;
    hide Config.Builds;
    hide Config.Commits;
    hide Config.Awaits;
    hide Config.WaitName;
    var i := ActorOf(a).value;
    match a
    case Check(_) =>
      SendKeepsCancelFits(s, Result(i, None, true));
      MoveKeepsCancelFits(s, i, AfterWait(s.pc[i].k));
      MoveKeepsCancelFits(s, i, Looking(s.pc[i].k));
    case Look(_) =>
      MoveKeepsCancelFits(s, i, AfterWait(s.pc[i].k));
      MoveKeepsCancelFits(s, i, Asleep(s.pc[i].k));
      if Do(c, s, a) != MoveTo(s, i, AfterWait(s.pc[i].k)) {
        OtherFieldsKeepCancelFits(MoveTo(s, i, Asleep(s.pc[i].k)), Do(c, s, a));
      }
    case Wake(_) =>
      MoveKeepsCancelFits(s, i, Waiting(s.pc[i].k));
      OtherFieldsKeepCancelFits(MoveTo(s, i, Waiting(s.pc[i].k)), Do(c, s, a));
    case Resolve(_) =>
      MoveKeepsCancelFits(s, i, Waiting(1));
      OtherFieldsKeepCancelFits(MoveTo(s, i, Waiting(1)), Do(c, s, a));
    case Finish(_, image) => SendKeepsCancelFits(s, Result(i, image, false));
    case Fail(_) => SendKeepsCancelFits(s, Result(i, None, true));
    case Count(_) => MoveKeepsCancelFits(s, i, Counted);
    case Release(_) =>
      MoveKeepsCancelFits(s, i, Done);
      OtherFieldsKeepCancelFits(MoveTo(s, i, Done), Do(c, s, a));
  }

  lemma OtherFieldsKeepCancelFits(s: State, s': State)
    requires CancelFits(s) && s'.pc == s.pc && s'.log == s.log && s'.cancel == s.cancel
    requires s'.cleaned == s.cleaned && s'.collector == s.collector
    ensures CancelFits(s')
  {
  }

  lemma StepKeepsCancelFits(c: Config, s: State, a: Action)
    requires c.Valid() && Inv(c, s) && ErrorFits(s) && CancelFits(s) && Enabled(c, s, a)
    ensures CancelFits(Do(c, s, a))
  {
    InvShape(c, s);
    hide Inv;
    if a.Begin? {
      BeginKeepsCancelFits(c, s, a.i);
    } else if a.Check? || a.Look? || a.Wake? || a.Resolve? || a.Finish? || a.Fail? || a.Count? || a.Release? {
      StageKeepsCancelFits(c, s, a);
    } else if a.SpawnerAcquire? || a.SpawnerStart? || a.Close? {
      SpawnerStep(c, s, a);
      hide SomeFailed;
      hide ErrorFits;
      hide Enabled;
      hide Do;
    } else {
      CollectorStep(c, s, a);
      hide SomeFailed;
      hide ErrorFits;
      hide Enabled;
      hide Do;
    }
  }

  lemma {:induction false} RunKeepsCancelFits(c: Config, s: State, schedule: Schedule, s': State)
    requires c.Valid() && Inv(c, s) && ErrorFits(s) && CancelFits(s) && Runs(c, s, schedule, s')
    ensures CancelFits(s')
    decreases schedule
  {
    hide Inv;
    hide ErrorFits;
    hide CancelFits;
    if schedule.Then? {
      StepKeepsInv(c, s, schedule.first);
      StepKeepsErrorFits(c, s, schedule.first);
      StepKeepsCancelFits(c, s, schedule.first);
      RunKeepsCancelFits(c, Do(c, s, schedule.first), schedule.rest, s');
    }
  }

  /** In every interleaving, the rest is cancelled if and only if a stage has failed. */
  lemma CancelledExactlyWhenFailed(c: Config, s: State)
    requires c.Valid() && Reachable(c, s)
    ensures s.cancel <==> exists a :: 0 <= a < |s.log| && s.log[a].failed
  {
    var schedule :| Runs(c, Init(c), schedule, s);
    InitInv(c);
    RunKeepsCancelFits(c, Init(c), schedule, s);
  }

  /** The stage has not begun, or it has ended without having begun. */
  ghost predicate IsOff(s: State, i: nat, n: nat) {
    && i < |s.pc| && s.cancel && (s.pc[i].Unspawned? || s.pc[i].Spawned? || HasSent(s.pc[i]))
    && forall a :: n <= a < |s.log| && s.log[a].index == i ==> s.log[a].failed && s.log[a].image.None?
  }

  lemma StepKeepsOff(c: Config, s: State, a: Action, i: nat, n: nat)
    requires c.Valid() && |s.pc| == |s.origin| == |c.stages| && Enabled(c, s, a) && IsOff(s, i, n)
    ensures var s' := Do(c, s, a);
            IsOff(s', i, n) && |s'.pc| == |s'.origin| == |c.stages| && s'.origin[i] == s.origin[i]
  {
    var s' := Do(c, s, a);
    if ActorOf(a) == Some(i) {
      StageStep(c, s, a);
      OwnEnd(c, s, a, i);
    } else if a.SpawnerStart? && s.spawned == i {
      SpawnerStep(c, s, a);
    } else {
      OtherStepLeavesAlone(c, s, a, i);
      hide *;
      LeftAloneIsOff(s, s', i, n);
      LeftAloneIs(s, s', i);
    }
    hide Enabled;
    hide Do;
    hide Config.Valid;
  }

  lemma LeftAloneIs(s: State, s': State, i: nat)
    requires LeavesAlone(s, s', i)
    ensures i < |s.pc| == |s.origin| == |s'.pc| == |s'.origin| && s'.origin[i] == s.origin[i]
  {
  }

  lemma LeftAloneIsOff(s: State, s': State, i: nat, n: nat)
    requires IsOff(s, i, n) && LeavesAlone(s, s', i)
    ensures IsOff(s', i, n)
  {
    assert forall b :: 0 <= b < |s.log| ==> s'.log[b] == s'.log[..|s.log|][b];
  }

  lemma OwnEnd(c: Config, s: State, a: Action, i: nat)
    requires c.Valid() && |s.pc| == |s.origin| == |c.stages| && Enabled(c, s, a) && ActorOf(a) == Some(i)
    requires s.cancel && (s.pc[i].Unspawned? || s.pc[i].Spawned? || HasSent(s.pc[i]))
    ensures var s' := Do(c, s, a);
            HasSent(s'.pc[i]) && s'.origin == s.origin && (s'.log == s.log || s'.log == s.log + [Result(i, None, true)])
  {
    hide Config.Valid;
    hide Config.Builds;
    hide Config.Commits;
    hide Config.Awaits;
    hide Config.WaitName;
  }

  lemma {:induction false} RunKeepsOff(c: Config, s: State, schedule: Schedule, s': State, i: nat, n: nat)
    requires c.Valid() && |s.pc| == |s.origin| == |c.stages| && IsOff(s, i, n) && Runs(c, s, schedule, s')
    ensures IsOff(s', i, n) && |s'.origin| == |s'.pc| == |c.stages| && s'.origin[i] == s.origin[i]
    decreases schedule
  {
    if schedule.Then? {
      StepKeepsOff(c, s, schedule.first, i, n);
      hide IsOff;
      RunKeepsOff(c, Do(c, s, schedule.first), schedule.rest, s', i, n);
    }
  }

  /** Once a stage has failed, a stage that has not begun never does, and fails if it ends. */
  lemma FailureCancelsTheRest(c: Config, s: State, schedule: Schedule, s': State, i: nat)
    requires c.Valid() && Reachable(c, s) && i < |c.stages| == |s.pc| == |s.origin|
    requires (exists a :: 0 <= a < |s.log| && s.log[a].failed) && (s.pc[i].Unspawned? || s.pc[i].Spawned?)
    requires Runs(c, s, schedule, s')
    ensures |s'.pc| == |s'.origin| == |c.stages| && !Running(s'.pc[i]) && s'.origin[i] == s.origin[i]
    ensures forall a :: 0 <= a < |s'.log| && s'.log[a].index == i ==> s'.log[a].failed && s'.log[a].image.None?
  {
    CancelledExactlyWhenFailed(c, s);
    ReachableInv(c, s);
    hide Reachable;
    assert IsOff(s, i, 0);
    hide Inv;
    RunKeepsOff(c, s, schedule, s', i, 0);
  }

  // ------------------------------------------------------------------------------ which stages have images

  /** The last stage is always built and committed, so a build without an error has an image. */
  lemma SuccessHasAnImage(c: Config, s: State)
    requires c.Valid() && Reachable(c, s) && Finished(s) && !s.lastError
    ensures exists r :: ResultOf(s.log, |s.log|, |c.stages| - 1, r) && !r.failed && r.image.Some?
  {
    var last := |c.stages| - 1;
    ErrorExactlyWhenFailed(c, s);
    assert HasEnded(c, s, last);
    LastIsBuilt(c);
    hide Reachable;
    hide Finished;
    hide Config.Valid;
    hide Config.Builds;
    hide Config.Commits;
  }

  lemma LastIsBuilt(c: Config)
    requires c.Valid()
    ensures c.Builds(|c.stages| - 1) && c.Commits(|c.stages| - 1)
  {
    var last := |c.stages| - 1;
    assert IsRoute(NeedsGraph(c.stages, c.contexts), c.stages[last].name, Here, c.stages[last].name);
    hide NeedsGraph;
  }

  /**
   When every stage is committed, exactly the stages have images that the last one uses, through
   other stages or not; and all of them, if stages are not to be skipped.
   */
  lemma ImagesExactlyWhenUsed(c: Config, s: State, i: nat)
    requires c.Valid() && Reachable(c, s) && Finished(s) && !s.lastError && c.layers && i < |c.stages|
    ensures (exists r :: ResultOf(s.log, |s.log|, i, r) && r.image.Some?) <==>
      !c.skipUnused || UsesSomehow(c.stages, c.contexts, |c.stages| - 1, i)
  {
    ErrorExactlyWhenFailed(c, s);
    assert HasEnded(c, s, i);
    ReachesExactlyWhenUsed(c.stages, c.contexts, |c.stages| - 1, i);
    assert c.Builds(i) <==> !c.skipUnused || UsesSomehow(c.stages, c.contexts, |c.stages| - 1, i);
    OneResult(c, s);
    hide Reachable;
    hide Finished;
    hide Config.Valid;
    hide Config.Builds;
    hide UsesSomehow;
    var r :| ResultOf(s.log, |s.log|, i, r) && !r.failed && (r.image.Some? <==> c.Builds(i) && c.Commits(i));
    if q :| ResultOf(s.log, |s.log|, i, q) && q.image.Some? {
      SameResult(s.log, i, q, r);
    }
  }

  lemma OneResult(c: Config, s: State)
    requires c.Valid() && Reachable(c, s)
    ensures forall a, b :: 0 <= a < b < |s.log| ==> s.log[a].index != s.log[b].index
  {
    PermitsAndResults(c, s);
  }
}
