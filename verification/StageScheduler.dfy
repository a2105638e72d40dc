/**
 Concurrent stages: the spawner, one goroutine per stage, the goroutine that closes the
 result channel, and the collector, as atomic steps over the state they share.
 */
module StageScheduler {
  import opened Optional
  import opened StagePruning

  /** One build. Capacity is that of the job semaphore. */
  datatype Config = Config(stages: seq<Stage>, contexts: set<Name>, emptyStages: set<nat>,
                           layers: bool, skipUnused: bool, capacity: nat)
  {
    ghost predicate Valid() {
      && |stages| > 0 && capacity > 0
      && InRange(stages) && DistinctNames(stages) && NumbersArePositions(stages)
      && forall i :: 0 <= i < |stages| ==> |stages[i].refs| > 0 && stages[i].refs[0].From?
    }

    function Base(i: nat): Name
      requires i < |stages| && |stages[i].refs| > 0
    {
      Mentioned(stages[i].refs[0])
    }

    /** The name that stage i waits for at its reference k. */
    function WaitName(i: nat, k: nat): Name
      requires i < |stages| && k < |stages[i].refs| && InRange(stages)
    {
      assert !OutOfRange(stages, stages[i].refs[k]);
      LookedUp(stages, stages[i].refs[k])
    }

    /** waitForStage finds a stage under its name or under its position. */
    predicate Names(j: nat, name: Name)
      requires j < |stages|
    {
      name == stages[j].name || name == Index(j)
    }

    /** There is something to wait for: an earlier stage, and not an additional build context. */
    predicate Awaits(i: nat, k: nat)
      requires i < |stages| && k < |stages[i].refs| && InRange(stages)
    {
      && (k == 0 || WaitName(i, k) !in contexts)
      && exists j :: 0 <= j < i && Names(j, WaitName(i, k))
    }

    ghost predicate Builds(i: nat)
      requires Valid() && i < |stages|
    {
      !skipUnused || Needed(stages, contexts, i)
    }

    predicate InBaseMap(name: Name)
      requires forall k :: 0 <= k < |stages| ==> |stages[k].refs| > 0
    {
      name != SCRATCH && exists k :: 0 <= k < |stages| && Base(k) == name
    }

    /** Whether a stage that succeeds has an image at its end. */
    predicate Commits(i: nat)
      requires i < |stages| && forall k :: 0 <= k < |stages| ==> |stages[k].refs| > 0
    {
      || layers || i in emptyStages || i == |stages| - 1
      || InBaseMap(stages[i].name) || InBaseMap(Index(i))
    }
  }

  /**
   Where a stage's goroutine is. Waiting(k) is about to wait for reference k, or is done
   with its steps when there is none; Looking(k) saw no error yet; Asleep(k) gave its
   permit back; Resolving is done waiting for the base.
   */
  datatype Pc = Unspawned | Spawned(live: bool) | Waiting(k: nat) | Looking(k: nat) | Asleep(k: nat)
              | Resolving | Sent | Counted | Done

  predicate Holds(p: Pc) {
    !p.Unspawned? && !p.Asleep? && !p.Done?
  }

  predicate HasSent(p: Pc) {
    p.Sent? || p.Counted? || p.Done?
  }

  datatype Result = Result(index: nat, image: Option<nat>, failed: bool)

  /** What a stage starts from: the image of another stage, or the base as it was named. */
  datatype Origin = Image(id: nat) | Named(base: Name)

  datatype Collector = Receiving | Failing | Returned | Cleaned

  /** The channel holds log[taken..]. */
  datatype State = State(pc: seq<Pc>, origin: seq<Option<Origin>>, spawned: nat, spawnerHolds: bool, free: nat,
                         cancel: bool, cleaned: bool, log: seq<Result>, taken: nat, closed: bool,
                         terminated: map<Name, bool>, images: map<Name, nat>, lastError: bool, collector: Collector)

  function Init(c: Config): State {
    State(seq(|c.stages|, _ => Unspawned), seq(|c.stages|, _ => None), 0, false, c.capacity,
          false, false, [], 0, false, map[], map[], false, Receiving)
  }

  datatype Action =
    | SpawnerAcquire | SpawnerStart
    | Begin(i: nat) | Check(i: nat) | Look(i: nat) | Wake(i: nat) | Resolve(i: nat)
    | Finish(i: nat, image: Option<nat>) | Fail(i: nat) | Count(i: nat) | Release(i: nat)
    | Close | Receive | SetLastError | EndReceive | Cleanup

  ghost predicate Enabled(c: Config, s: State, a: Action)
    requires c.Valid() && |s.pc| == |s.origin| == |c.stages|
  {
    var n := |c.stages|;
    match a
    case SpawnerAcquire => s.spawned < n && !s.spawnerHolds && s.free > 0
    case SpawnerStart => s.spawnerHolds && s.spawned < n
    case Begin(i) => i < n && s.pc[i].Spawned?
    case Check(i) => i < n && s.pc[i].Waiting? && s.pc[i].k < |c.stages[i].refs|
    case Look(i) => i < n && s.pc[i].Looking? && s.pc[i].k < |c.stages[i].refs|
    case Wake(i) => i < n && s.pc[i].Asleep? && s.free > 0
    case Resolve(i) => i < n && s.pc[i].Resolving?
    case Finish(i, image) => i < n && s.pc[i] == Waiting(|c.stages[i].refs|) && (image.Some? <==> c.Commits(i))
    case Fail(i) => i < n && (s.pc[i].Waiting? || s.pc[i].Resolving?)
    case Count(i) => i < n && s.pc[i].Sent?
    case Release(i) => i < n && s.pc[i].Counted?
    case Close => !s.closed && forall i :: 0 <= i < n ==> s.pc[i].Counted? || s.pc[i].Done?
    case Receive => s.collector.Receiving? && s.taken < |s.log| && s.log[s.taken].index < n
    case SetLastError => s.collector.Failing?
    case EndReceive => s.collector.Receiving? && s.closed && s.taken == |s.log|
    case Cleanup => s.collector.Returned?
  }

  function Send(s: State, r: Result): State
    requires r.index < |s.pc|
  {
    s.(pc := s.pc[r.index := Sent], log := s.log + [r])
  }

  /** buildStage returned an error: later stages are cancelled. */
  function SendFailure(s: State, i: nat): State
    requires i < |s.pc|
  {
    Send(s, Result(i, None, true)).(cancel := true)
  }

  function MoveTo(s: State, i: nat, p: Pc): State
    requires i < |s.pc|
  {
    s.(pc := s.pc[i := p])
  }

  /** waitForStage returned without an error that its caller heeds. */
  function AfterWait(k: nat): Pc {
    if k == 0 then Resolving else Waiting(k + 1)
  }

  /** Termination is noted under the stage's name and under its position. */
  function NoteTermination(c: Config, terminated: map<Name, bool>, r: Result): map<Name, bool>
    requires r.index < |c.stages|
  {
    terminated[c.stages[r.index].name := r.failed][Index(r.index) := r.failed]
  }

  /** The image of an intermediate stage is noted under the stage's name only. */
  function NoteImage(c: Config, images: map<Name, nat>, r: Result): map<Name, nat>
    requires r.index < |c.stages|
  {
    if !r.failed && r.index < |c.stages| - 1 && r.image.Some? then images[c.stages[r.index].name := r.image.value]
    else images
  }

  /** The collector's critical section: termination and image become visible together. */
  function Publish(c: Config, s: State, r: Result): State
    requires r.index < |c.stages|
  {
    s.(terminated := NoteTermination(c, s.terminated, r), images := NoteImage(c, s.images, r), taken := s.taken + 1,
       collector := if r.failed then Failing else s.collector)
  }

  ghost function Do(c: Config, s: State, a: Action): State
    requires c.Valid() && |s.pc| == |s.origin| == |c.stages| && Enabled(c, s, a)
  {
    match a
    case SpawnerAcquire => s.(free := s.free - 1, spawnerHolds := true)
    case SpawnerStart => MoveTo(s, s.spawned, Spawned(!s.cleaned)).(spawned := s.spawned + 1, spawnerHolds := false)
    case Begin(i) =>
      if s.cancel || !s.pc[i].live then Send(s, Result(i, None, true))
      else if !c.Builds(i) then Send(s, Result(i, None, false))
      else MoveTo(s, i, Waiting(0))
    case Check(i) =>
      var k := s.pc[i].k;
      if !c.Awaits(i, k) then MoveTo(s, i, AfterWait(k))
      else if s.lastError then SendFailure(s, i)
      else MoveTo(s, i, Looking(k))
    case Look(i) =>
      var k := s.pc[i].k;
      if c.WaitName(i, k) in s.terminated then MoveTo(s, i, AfterWait(k))
      else MoveTo(s, i, Asleep(k)).(free := s.free + 1)
    case Wake(i) => MoveTo(s, i, Waiting(s.pc[i].k)).(free := s.free - 1)
    case Resolve(i) =>
      var base := c.Base(i);
      var from := if base in s.images then Image(s.images[base]) else Named(base);
      MoveTo(s, i, Waiting(1)).(origin := s.origin[i := Some(from)])
    case Finish(i, image) => Send(s, Result(i, image, false))
    case Fail(i) => SendFailure(s, i)
    case Count(i) => MoveTo(s, i, Counted)
    case Release(i) => MoveTo(s, i, Done).(free := s.free + 1)
    case Close => s.(closed := true)
    case Receive => Publish(c, s, s.log[s.taken])
    case SetLastError => s.(lastError := true, collector := Returned)
    case EndReceive => s.(collector := Returned)
    case Cleanup => s.(collector := Cleaned, cleaned := true)
  }

  datatype Schedule = Stop | Then(first: Action, rest: Schedule)

  /** s' is where the schedule leads from s. */
  ghost predicate Runs(c: Config, s: State, schedule: Schedule, s': State)
    requires c.Valid()
    decreases schedule
  {
    && |s.pc| == |s.origin| == |c.stages|
    && match schedule
       case Stop => s == s'
       case Then(a, rest) => Enabled(c, s, a) && Runs(c, Do(c, s, a), rest, s')
  }
}
