/**
 Every fair run of the scheduler comes to its end. Fair means that nobody who is able to
 take a step over and over again is passed over for ever, by the semaphore or otherwise.
 */
module SchedulerFairness {
  import opened Optional
  import opened StagePruning
  import opened StageScheduler
  import opened SchedulerSafety
  import opened SchedulerProgress

  /** Whose step it is. */
  datatype Turn = OfSpawner | OfStage(i: nat) | OfCloser | OfCollector

  function TurnOf(a: Action): Turn {
    match a
    case SpawnerAcquire => OfSpawner
    case SpawnerStart => OfSpawner
    case Begin(i) => OfStage(i)
    case Check(i) => OfStage(i)
    case Look(i) => OfStage(i)
    case Wake(i) => OfStage(i)
    case Resolve(i) => OfStage(i)
    case Finish(i, _) => OfStage(i)
    case Fail(i) => OfStage(i)
    case Count(i) => OfStage(i)
    case Release(i) => OfStage(i)
    case Close => OfCloser
    case _ => OfCollector
  }

  type Run = nat -> State

  /** Which step is taken when; none, when nothing happens for a while. */
  type Steps = nat -> Option<Action>

  ghost predicate Step(c: Config, s: State, o: Option<Action>, s': State)
    requires c.Valid()
  {
    && |s.pc| == |s.origin| == |c.stages|
    && match o
       case None => s' == s
       case Some(a) => Enabled(c, s, a) && s' == Do(c, s, a)
  }

  ghost predicate IsRun(c: Config, run: Run, steps: Steps)
    requires c.Valid()
  {
    run(0) == Init(c) && forall n: nat :: Step(c, run(n), steps(n), run(n + 1))
  }

  ghost predicate CanStep(c: Config, s: State, t: Turn)
    requires c.Valid()
  {
    |s.pc| == |s.origin| == |c.stages| && exists a :: TurnOf(a) == t && Enabled(c, s, a)
  }

  ghost predicate CanStepLater(c: Config, run: Run, t: Turn, n: nat)
    requires c.Valid()
  {
    exists m :: m >= n && CanStep(c, run(m), t)
  }

  predicate Takes(o: Option<Action>, t: Turn) {
    o.Some? && TurnOf(o.value) == t
  }

  ghost predicate TakesLater(steps: Steps, t: Turn, n: nat) {
    exists m :: m >= n && Takes(steps(m), t)
  }

  ghost predicate CanStepOften(c: Config, run: Run, t: Turn)
    requires c.Valid()
  {
    forall n: nat :: CanStepLater(c, run, t, n)
  }

  ghost predicate TakesOften(steps: Steps, t: Turn) {
    forall n: nat :: TakesLater(steps, t, n)
  }

  /** Whoever can step again and again does step again and again. */
  ghost predicate Fair(c: Config, run: Run, steps: Steps)
    requires c.Valid()
  {
    forall t :: CanStepOften(c, run, t) ==> TakesOften(steps, t)
  }

  // ------------------------------------------------------------------------- runs settle

  lemma {:induction false} RunInv(c: Config, run: Run, steps: Steps, n: nat)
    requires c.Valid() && IsRun(c, run, steps)
    ensures Inv(c, run(n))
  {
    hide Inv;
    hide Do;
    hide Enabled;
    if n == 0 {
      InitInv(c);
    } else {
      RunInv(c, run, steps, n - 1);
      assert Step(c, run(n - 1), steps(n - 1), run(n - 1 + 1));
      if steps(n - 1).Some? {
        StepKeepsInv(c, run(n - 1), steps(n - 1).value);
      }
    }
  }

  lemma OneStepRank(c: Config, run: Run, steps: Steps, n: nat)
    requires c.Valid() && IsRun(c, run, steps)
    ensures Step(c, run(n), steps(n), run(n + 1))
    ensures Rank(c, run(n + 1)) <= Rank(c, run(n))
    ensures Rank(c, run(n + 1)) == Rank(c, run(n)) && steps(n).Some? ==> IsPoll(c, run(n), steps(n).value)
  {
    hide Inv;
    hide Do;
    hide Enabled;
    hide Rank;
    hide IsPoll;
    RunInv(c, run, steps, n);
    assert Step(c, run(n), steps(n), run(n + 1));
    if steps(n).Some? {
      StepRank(c, run(n), steps(n).value);
    }
  }

  lemma {:induction false} RankFalls(c: Config, run: Run, steps: Steps, n: nat, m: nat)
    requires c.Valid() && IsRun(c, run, steps) && n <= m
    ensures Rank(c, run(m)) <= Rank(c, run(n))
    decreases m
  {
    hide *;
    if n < m {
      RankFalls(c, run, steps, n, m - 1);
      OneStepRank(c, run, steps, m - 1);
      assert m - 1 + 1 == m;
    }
  }

  /** From here on the work left stays the same. */
  ghost predicate Settled(c: Config, run: Run, n: nat) {
    forall m :: m >= n ==> Rank(c, run(m)) == Rank(c, run(n))
  }

  lemma {:induction false} Settles(c: Config, run: Run, steps: Steps, n: nat) returns (m: nat)
    requires c.Valid() && IsRun(c, run, steps)
    ensures m >= n && Settled(c, run, m)
    decreases Rank(c, run(n))
  {
    hide Rank;
    hide IsRun;
    hide Inv;
    RunInv(c, run, steps, n);
    RankIsNat(c, run(n));
    if k :| k >= n && Rank(c, run(k)) < Rank(c, run(n)) {
      RunInv(c, run, steps, k);
      RankIsNat(c, run(k));
      m := Settles(c, run, steps, k);
    } else {
      m := n;
      forall k | k >= n
        ensures Rank(c, run(k)) == Rank(c, run(n))
      {
        RankFalls(c, run, steps, n, k);
      }
    }
  }

  // ------------------------------------------------------------------ what goes on once settled

  /** A stage that goes round in waitForStage. */
  ghost predicate MayPoll(c: Config, i: nat, p: Pc)
    requires c.Valid()
  {
    && i < |c.stages| && (p.Waiting? || p.Looking? || p.Asleep?)
    && p.k < |c.stages[i].refs| && c.Awaits(i, p.k)
  }

  function NextPoll(p: Pc): Pc {
    match p
    case Waiting(k) => Looking(k)
    case Looking(k) => Asleep(k)
    case Asleep(k) => Waiting(k)
    case _ => p
  }

  /** One round of polling leads from Waiting to Looking, to Asleep and back. */
  lemma PollMoves(c: Config, s: State, a: Action)
    requires c.Valid() && Inv(c, s) && Enabled(c, s, a) && IsPoll(c, s, a)
    ensures TurnOf(a).OfStage?
    ensures var i := TurnOf(a).i;
      && i < |s.pc| && MayPoll(c, i, s.pc[i])
      && Do(c, s, a) == s.(pc := s.pc[i := NextPoll(s.pc[i])], free := Do(c, s, a).free)
      && (s.pc[i].Waiting? ==> !s.lastError)
      && (s.pc[i].Looking? ==> c.WaitName(i, s.pc[i].k) !in s.terminated && Do(c, s, a).free > 0)
      && (s.pc[i].Asleep? ==> s.free > 0)
  {
    hide Config.Awaits;
    hide Held;
    hide LogFits;
    hide EverySentIsLogged;
    hide PublishedFits;
    hide WaitsKept;
    hide HandedOff;
    hide CollectorFits;
  }

  ghost predicate Era(c: Config, run: Run, steps: Steps, start: nat)
    requires c.Valid()
  {
    IsRun(c, run, steps) && Fair(c, run, steps) && Settled(c, run, start)
  }

  /** Stage i takes the step. */
  ghost predicate Polls(c: Config, s: State, o: Option<Action>, s': State, i: nat)
    requires c.Valid()
  {
    && Takes(o, OfStage(i)) && i < |s.pc| && MayPoll(c, i, s.pc[i])
    && s' == s.(pc := s.pc[i := NextPoll(s.pc[i])], free := s'.free)
    && (s.pc[i].Waiting? ==> !s.lastError)
    && (s.pc[i].Looking? ==> c.WaitName(i, s.pc[i].k) !in s.terminated && s'.free > 0)
    && (s.pc[i].Asleep? ==> s.free > 0)
  }

  lemma OnlyPolls(c: Config, run: Run, steps: Steps, start: nat, n: nat)
    requires c.Valid() && Era(c, run, steps, start) && n >= start
    ensures steps(n).None? ==> run(n + 1) == run(n)
    ensures steps(n).Some? ==>
      TurnOf(steps(n).value).OfStage? && Polls(c, run(n), steps(n), run(n + 1), TurnOf(steps(n).value).i)
  {
    hide Inv;
    hide Do;
    hide Enabled;
    hide Rank;
    hide IsPoll;
    hide TurnOf;
    hide MayPoll;
    hide Config.WaitName;
    assert Rank(c, run(n)) == Rank(c, run(start)) && Rank(c, run(n + 1)) == Rank(c, run(start));
    OneStepRank(c, run, steps, n);
    if steps(n).Some? {
      RunInv(c, run, steps, n);
      PollMoves(c, run(n), steps(n).value);
    }
  }

  /** What polling does to a stage: it stays at the same reference. */
  ghost predicate PhaseStays(c: Config, i: nat, p: Pc, q: Pc)
    requires c.Valid()
  {
    if MayPoll(c, i, p) then MayPoll(c, i, q) && q.k == p.k else q == p
  }

  /** Nothing else changes, but for permits. */
  ghost predicate Frozen(c: Config, s: State, s': State)
    requires c.Valid()
  {
    && |s'.pc| == |s.pc| == |s.origin| == |c.stages| && s' == s.(pc := s'.pc, free := s'.free)
    && forall i :: 0 <= i < |s.pc| ==> PhaseStays(c, i, s.pc[i], s'.pc[i])
  }

  lemma PollFreezes(c: Config, s0: State, s: State, o: Option<Action>, s': State, i: nat)
    requires c.Valid() && Frozen(c, s0, s) && Polls(c, s, o, s', i)
    ensures Frozen(c, s0, s')
  {
    hide Config.Awaits;
    hide Config.WaitName;
    hide Config.Valid;
  }

  lemma {:induction false} IsFrozen(c: Config, run: Run, steps: Steps, start: nat, n: nat)
    requires c.Valid() && Era(c, run, steps, start) && n >= start
    ensures Frozen(c, run(start), run(n))
    decreases n
  {
    hide Polls;
    hide MayPoll;
    hide Era;
    hide TurnOf;
    if n == start {
      ShapeAt(c, run, steps, start, n);
    } else {
      IsFrozen(c, run, steps, start, n - 1);
      OnlyPolls(c, run, steps, start, n - 1);
      assert n - 1 + 1 == n;
      if steps(n - 1).Some? {
        PollFreezes(c, run(start), run(n - 1), steps(n - 1), run(n), TurnOf(steps(n - 1).value).i);
      }
    }
  }

  lemma ShapeAt(c: Config, run: Run, steps: Steps, start: nat, n: nat)
    requires c.Valid() && Era(c, run, steps, start)
    ensures Inv(c, run(n)) && |run(n).pc| == |run(n).origin| == |c.stages|
  {
    RunInv(c, run, steps, n);
    InvShape(c, run(n));
  }

  /** Nobody but polling stages is able to step again and again. */
  lemma OthersRest(c: Config, run: Run, steps: Steps, start: nat, t: Turn)
    requires c.Valid() && Era(c, run, steps, start) && !t.OfStage?
    ensures !CanStepOften(c, run, t)
  {
    hide CanStepLater;
    hide Polls;
    hide TurnOf;
    hide IsRun;
    hide Settled;
    if CanStepOften(c, run, t) {
      assert TakesLater(steps, t, start);
      var m :| m >= start && Takes(steps(m), t);
      OnlyPolls(c, run, steps, start, m);
    }
  }

  lemma Later(c: Config, run: Run, t: Turn, n: nat, m: nat, a: Action)
    requires c.Valid() && m >= n && |run(m).pc| == |run(m).origin| == |c.stages|
    requires TurnOf(a) == t && Enabled(c, run(m), a)
    ensures CanStepLater(c, run, t, n)
  {
    assert CanStep(c, run(m), t);
  }

  /** What depends on nothing that polling changes would be possible for ever. */
  lemma NotForEver(c: Config, run: Run, steps: Steps, start: nat, t: Turn, a: Action)
    requires c.Valid() && Era(c, run, steps, start) && TurnOf(a) == t && !t.OfStage?
    ensures exists n :: n >= start && !(|run(n).pc| == |run(n).origin| == |c.stages| && Enabled(c, run(n), a))
  {
    hide Enabled;
    hide Era;
    hide CanStepLater;
    OthersRest(c, run, steps, start, t);
    var n: nat :| !CanStepLater(c, run, t, n);
    var m := if n >= start then n else start;
    if |run(m).pc| == |run(m).origin| == |c.stages| && Enabled(c, run(m), a) {
      Later(c, run, t, n, m, a);
    }
  }

  lemma CollectorDepends(c: Config, s: State, s': State, a: Action)
    requires c.Valid() && Frozen(c, s, s') && TurnOf(a).OfCollector? && Enabled(c, s, a)
    ensures Enabled(c, s', a)
  {
    hide PhaseStays;
  }

  /** The collector has nothing to do: it is through, or waits for results that are not there yet. */
  lemma CollectorRests(c: Config, run: Run, steps: Steps, start: nat, a: Action)
    requires c.Valid() && Era(c, run, steps, start) && TurnOf(a).OfCollector?
    ensures |run(start).pc| == |run(start).origin| == |c.stages| && !Enabled(c, run(start), a)
  {
    hide Enabled;
    hide Era;
    hide Frozen;
    ShapeAt(c, run, steps, start, start);
    NotForEver(c, run, steps, start, TurnOf(a), a);
    var n: nat :| n >= start && !(|run(n).pc| == |run(n).origin| == |c.stages| && Enabled(c, run(n), a));
    ShapeAt(c, run, steps, start, n);
    IsFrozen(c, run, steps, start, n);
    if Enabled(c, run(start), a) {
      CollectorDepends(c, run(start), run(n), a);
    }
  }

  /** Where the collector can be, then. */
  ghost predicate AtRest(s: State) {
    s.collector.Cleaned? || (s.collector.Receiving? && s.taken == |s.log| && !s.closed)
  }

  lemma CollectorIsAtRest(c: Config, run: Run, steps: Steps, start: nat)
    requires c.Valid() && Era(c, run, steps, start)
    ensures AtRest(run(start)) && Drained(run(start))
  {
    hide Era;
    ShapeAt(c, run, steps, start, start);
    CollectorRests(c, run, steps, start, SetLastError);
    CollectorRests(c, run, steps, start, Cleanup);
    CollectorRests(c, run, steps, start, EndReceive);
    CollectorRests(c, run, steps, start, Receive);
    hide PublishedFits;
    hide WaitsKept;
    hide HandedOff;
    hide EverySentIsLogged;
    hide Held;
    hide Shape;
  }

  lemma CloserRests(c: Config, run: Run, steps: Steps, start: nat)
    requires c.Valid() && Era(c, run, steps, start) && forall i :: 0 <= i < |run(start).pc| ==> run(start).pc[i].Done?
    ensures run(start).closed
  {
    hide Era;
    hide Inv;
    hide Config.Awaits;
    hide Config.Valid;
    hide MayPoll;
    ShapeAt(c, run, steps, start, start);
    NotForEver(c, run, steps, start, OfCloser, Close);
    var n: nat :| n >= start && !(|run(n).pc| == |run(n).origin| == |c.stages| && Enabled(c, run(n), Close));
    ShapeAt(c, run, steps, start, n);
    IsFrozen(c, run, steps, start, n);
    forall i | 0 <= i < |run(n).pc|
      ensures run(n).pc[i].Done?
    {
      DoneStays(c, i, run(start).pc[i], run(n).pc[i]);
    }
  }

  lemma DoneStays(c: Config, i: nat, p: Pc, q: Pc)
    requires c.Valid() && PhaseStays(c, i, p, q) && p.Done?
    ensures q.Done?
  {
  }

  lemma SpawnerHoldsNone(c: Config, run: Run, steps: Steps, start: nat)
    requires c.Valid() && Era(c, run, steps, start)
    ensures !run(start).spawnerHolds
  {
    hide Era;
    ShapeAt(c, run, steps, start, start);
    NotForEver(c, run, steps, start, OfSpawner, SpawnerStart);
    var n: nat :| n >= start && !(|run(n).pc| == |run(n).origin| == |c.stages| && Enabled(c, run(n), SpawnerStart));
    ShapeAt(c, run, steps, start, n);
    IsFrozen(c, run, steps, start, n);
    hide PhaseStays;
    hide PublishedFits;
    hide WaitsKept;
    hide HandedOff;
    hide EverySentIsLogged;
    hide Held;
  }

  /** A stage that is under way, and not asleep, always has a step to take. */
  lemma StageCanStep(c: Config, s: State, i: nat)
    requires c.Valid() && Inv(c, s) && i < |s.pc| && !s.pc[i].Unspawned? && !s.pc[i].Done?
    requires s.pc[i].Asleep? ==> s.free > 0
    ensures CanStep(c, s, OfStage(i))
  {
    hide PublishedFits;
    hide WaitsKept;
    hide HandedOff;
    hide EverySentIsLogged;
    hide Held;
    hide Config.Awaits;
    hide Config.Commits;
    var a := match s.pc[i]
      case Spawned(_) => Begin(i)
      case Waiting(k) =>
        if k < |c.stages[i].refs| then Check(i) else Finish(i, if c.Commits(i) then Some(0) else None)
      case Looking(_) => Look(i)
      case Asleep(_) => Wake(i)
      case Resolving => Resolve(i)
      case Sent => Count(i)
      case _ => Release(i);
    assert TurnOf(a) == OfStage(i) && Enabled(c, s, a);
  }

  lemma StageCanStepLater(c: Config, run: Run, steps: Steps, start: nat, i: nat, n: nat, m: nat)
    requires c.Valid() && Era(c, run, steps, start) && m >= n
    requires i < |run(m).pc| && !run(m).pc[i].Unspawned? && !run(m).pc[i].Done?
    requires run(m).pc[i].Asleep? ==> run(m).free > 0
    ensures CanStepLater(c, run, OfStage(i), n)
  {
    hide Era;
    hide Inv;
    ShapeAt(c, run, steps, start, m);
    StageCanStep(c, run(m), i);
    hide CanStep;
  }

  lemma FairTurns(c: Config, run: Run, steps: Steps, start: nat, i: nat)
    requires c.Valid() && Era(c, run, steps, start) && CanStepOften(c, run, OfStage(i))
    ensures TakesOften(steps, OfStage(i))
  {
    hide CanStepOften;
    hide TakesOften;
  }

  /** Every stage is through, or not even spawned, or goes round in waitForStage. */
  lemma StageRests(c: Config, run: Run, steps: Steps, start: nat, i: nat)
    requires c.Valid() && Era(c, run, steps, start) && i < |run(start).pc|
    ensures var p := run(start).pc[i]; p.Unspawned? || p.Done? || MayPoll(c, i, p)
  {
    hide Era;
    hide MayPoll;
    hide CanStepLater;
    var p := run(start).pc[i];
    if !p.Unspawned? && !p.Done? && !MayPoll(c, i, p) {
      forall n: nat
        ensures CanStepLater(c, run, OfStage(i), n)
      {
        var m := if n >= start then n else start;
        IsFrozen(c, run, steps, start, m);
        assert PhaseStays(c, i, p, run(m).pc[i]);
        if p.Asleep? {
          AsleepMayPoll(c, run, steps, start, i);
        }
        StageCanStepLater(c, run, steps, start, i, n, m);
      }
      FairTurns(c, run, steps, start, i);
      assert TakesLater(steps, OfStage(i), start);
      var m :| m >= start && Takes(steps(m), OfStage(i));
      IsFrozen(c, run, steps, start, m);
      assert PhaseStays(c, i, p, run(m).pc[i]);
      OnlyPolls(c, run, steps, start, m);
    }
  }

  lemma AsleepMayPoll(c: Config, run: Run, steps: Steps, start: nat, i: nat)
    requires c.Valid() && Era(c, run, steps, start) && i < |run(start).pc| && run(start).pc[i].Asleep?
    ensures MayPoll(c, i, run(start).pc[i])
  {
    hide Era;
    hide Config.Awaits;
    ShapeAt(c, run, steps, start, start);
  }

  // ----------------------------------------------------------------------------- permits come free

  lemma {:induction false} FirstTurn(c: Config, run: Run, steps: Steps, start: nat, i: nat, n: nat, last: nat)
      returns (m: nat)
    requires c.Valid() && Era(c, run, steps, start) && start <= n <= last && Takes(steps(last), OfStage(i))
    ensures n <= m && Polls(c, run(m), steps(m), run(m + 1), i)
    ensures i < |run(n).pc| && run(m).pc[i] == run(n).pc[i]
    decreases last - n
  {
    hide Era;
    hide MayPoll;
    hide TurnOf;
    hide Config.WaitName;
    OnlyPolls(c, run, steps, start, n);
    if Takes(steps(n), OfStage(i)) {
      m := n;
    } else {
      m := FirstTurn(c, run, steps, start, i, n + 1, last);
    }
  }

  /** The next time that stage i takes a step, it is where it was. */
  lemma NextTurn(c: Config, run: Run, steps: Steps, start: nat, i: nat, n: nat) returns (m: nat)
    requires c.Valid() && Era(c, run, steps, start) && start <= n && TakesOften(steps, OfStage(i))
    ensures n <= m && Polls(c, run(m), steps(m), run(m + 1), i)
    ensures i < |run(n).pc| && run(m).pc[i] == run(n).pc[i]
  {
    hide Era;
    hide Polls;
    assert TakesLater(steps, OfStage(i), n);
    var last :| last >= n && Takes(steps(last), OfStage(i));
    m := FirstTurn(c, run, steps, start, i, n, last);
  }

  ghost predicate IsActive(p: Pc) {
    p.Waiting? || p.Looking?
  }

  /** While no permit comes free, who has one keeps it. */
  lemma {:induction false} KeepsPermit(c: Config, run: Run, steps: Steps, start: nat, i: nat, n: nat, m: nat)
    requires c.Valid() && Era(c, run, steps, start) && start <= n <= m && i < |run(n).pc| && IsActive(run(n).pc[i])
    requires forall k :: k >= n ==> run(k).free == 0
    ensures i < |run(m).pc| && IsActive(run(m).pc[i])
    decreases m
  {
    hide Era;
    hide MayPoll;
    hide TurnOf;
    hide Config.WaitName;
    if n < m {
      KeepsPermit(c, run, steps, start, i, n, m - 1);
      OnlyPolls(c, run, steps, start, m - 1);
      assert m - 1 + 1 == m && run(m).free == 0;
    }
  }

  lemma SomebodyHolds(c: Config, s: State) returns (i: nat)
    requires c.Valid() && Inv(c, s) && s.free == 0 && !s.spawnerHolds
    ensures i < |s.pc| && Holds(s.pc[i])
  {
    TallyBound(HoldsOne(), s.pc, |s.pc|);
    i :| 0 <= i < |s.pc| && Holds(s.pc[i]);
  }

  lemma HolderIsActive(c: Config, run: Run, steps: Steps, start: nat, n: nat) returns (i: nat)
    requires c.Valid() && Era(c, run, steps, start) && start <= n && run(n).free == 0
    ensures i < |run(n).pc| && IsActive(run(n).pc[i])
  {
    hide Era;
    hide Inv;
    hide Config.Valid;
    hide Config.Awaits;
    ShapeAt(c, run, steps, start, n);
    IsFrozen(c, run, steps, start, n);
    SpawnerHoldsNone(c, run, steps, start);
    i := SomebodyHolds(c, run(n));
    StageRests(c, run, steps, start, i);
    assert PhaseStays(c, i, run(start).pc[i], run(n).pc[i]);
  }

  /** Somebody who polls goes to sleep, and gives a permit back. */
  lemma SomePermitComesFree(c: Config, run: Run, steps: Steps, start: nat, i: nat, n: nat)
    requires c.Valid() && Era(c, run, steps, start) && start <= n && i < |run(n).pc| && IsActive(run(n).pc[i])
    ensures exists k :: k >= n && run(k).free > 0
  {
    hide Era;
    hide MayPoll;
    hide CanStepLater;
    hide Config.WaitName;
    if forall k :: k >= n ==> run(k).free == 0 {
      forall k: nat
        ensures CanStepLater(c, run, OfStage(i), k)
      {
        var m := if k >= n then k else n;
        KeepsPermit(c, run, steps, start, i, n, m);
        StageCanStepLater(c, run, steps, start, i, k, m);
      }
      FairTurns(c, run, steps, start, i);
      var m := NextTurn(c, run, steps, start, i, n);
      assert run(m + 1).free == 0;
      var m' := NextTurn(c, run, steps, start, i, m + 1);
      assert run(m' + 1).free == 0;
    }
  }

  lemma PermitsComeFree(c: Config, run: Run, steps: Steps, start: nat, n: nat) returns (m: nat)
    requires c.Valid() && Era(c, run, steps, start) && start <= n
    ensures m >= n && run(m).free > 0
  {
    hide Era;
    if run(n).free > 0 {
      m := n;
    } else {
      var i := HolderIsActive(c, run, steps, start, n);
      SomePermitComesFree(c, run, steps, start, i, n);
      m :| m >= n && run(m).free > 0;
    }
  }

  // ------------------------------------------------------------------------------ nobody is left

  /** So the spawner gets its permits. */
  lemma AllAreSpawned(c: Config, run: Run, steps: Steps, start: nat)
    requires c.Valid() && Era(c, run, steps, start)
    ensures run(start).spawned == |run(start).pc| == |c.stages|
  {
    hide Era;
    hide Inv;
    hide PhaseStays;
    hide CanStepLater;
    ShapeAt(c, run, steps, start, start);
    SpawnedInRange(c, run(start));
    SpawnerHoldsNone(c, run, steps, start);
    if run(start).spawned < |c.stages| {
      forall n: nat
        ensures CanStepLater(c, run, OfSpawner, n)
      {
        var m := PermitsComeFree(c, run, steps, start, if n >= start then n else start);
        IsFrozen(c, run, steps, start, m);
        Later(c, run, OfSpawner, n, m, SpawnerAcquire);
      }
      OthersRest(c, run, steps, start, OfSpawner);
    }
  }

  lemma SpawnedInRange(c: Config, s: State)
    requires c.Valid() && Inv(c, s)
    ensures s.spawned <= |s.pc| == |c.stages|
    ensures forall i :: 0 <= i < |s.pc| ==> (s.pc[i].Unspawned? <==> s.spawned <= i)
  {
  }

  /** And who polls gets its turns. */
  lemma PollersTakeTurns(c: Config, run: Run, steps: Steps, start: nat, i: nat)
    requires c.Valid() && Era(c, run, steps, start) && i < |run(start).pc| && MayPoll(c, i, run(start).pc[i])
    ensures TakesOften(steps, OfStage(i))
  {
    hide Era;
    hide Config.Awaits;
    hide Config.Valid;
    hide CanStepLater;
    forall n: nat
      ensures CanStepLater(c, run, OfStage(i), n)
    {
      var m := PermitsComeFree(c, run, steps, start, if n >= start then n else start);
      IsFrozen(c, run, steps, start, m);
      assert PhaseStays(c, i, run(start).pc[i], run(m).pc[i]);
      StageCanStepLater(c, run, steps, start, i, n, m);
    }
    FairTurns(c, run, steps, start, i);
  }

  /** Who polls for ever has been round, and has seen neither an error nor the end of the stage it waits for. */
  lemma PollersAreNotOver(c: Config, run: Run, steps: Steps, start: nat, i: nat)
    requires c.Valid() && Era(c, run, steps, start) && i < |run(start).pc| && MayPoll(c, i, run(start).pc[i])
    ensures !Over(c, run(start), i, run(start).pc[i].k)
  {
    hide Era;
    hide Config.Awaits;
    hide Config.Valid;
    hide Config.WaitName;
    PollersTakeTurns(c, run, steps, start, i);
    var m1 := NextTurn(c, run, steps, start, i, start);
    var m2 := NextTurn(c, run, steps, start, i, m1 + 1);
    var m3 := NextTurn(c, run, steps, start, i, m2 + 1);
    IsFrozen(c, run, steps, start, m1);
    IsFrozen(c, run, steps, start, m2);
    IsFrozen(c, run, steps, start, m3);
  }

  /** When the work left does not become less any more, there is none. */
  lemma SettledIsFinished(c: Config, run: Run, steps: Steps, start: nat)
    requires c.Valid() && Era(c, run, steps, start)
    ensures Finished(run(start))
  {
    hide Era;
    hide Inv;
    hide MayPoll;
    hide Over;
    var s := run(start);
    ShapeAt(c, run, steps, start, start);
    SpawnedInRange(c, s);
    CollectorIsAtRest(c, run, steps, start);
    SpawnerHoldsNone(c, run, steps, start);
    AllAreSpawned(c, run, steps, start);
    if i :| 0 <= i < |s.pc| && !s.pc[i].Done? {
      var p := FirstUnfinished(s.pc, i);
      StageRests(c, run, steps, start, p);
      FirstIsOver(c, s, p);
      PollersAreNotOver(c, run, steps, start, p);
    } else {
      CloserRests(c, run, steps, start);
    }
  }

  lemma FirstIsOver(c: Config, s: State, p: nat)
    requires c.Valid() && Inv(c, s) && Drained(s) && p < |s.pc| && MayPoll(c, p, s.pc[p])
    requires forall j :: 0 <= j < p ==> s.pc[j].Done?
    ensures Over(c, s, p, s.pc[p].k)
  {
    DoneIsTerminated(c, s, p, s.pc[p].k);
  }

  /** Every fair run comes to the end of all stages, the spawner, the closer and the collector. */
  lemma FairRunsFinish(c: Config, run: Run, steps: Steps)
    requires c.Valid() && IsRun(c, run, steps) && Fair(c, run, steps)
    ensures exists n: nat :: Finished(run(n))
  {
    hide IsRun;
    hide Fair;
    hide Settled;
    hide Finished;
    var n := Settles(c, run, steps, 0);
    SettledIsFinished(c, run, steps, n);
  }
}
