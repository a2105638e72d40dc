/**
 What every interleaving of the stage goroutines keeps: permits, results, and the
 hand-off of one stage's image to the stages that are built on it.
 */
module SchedulerSafety {
  import opened Optional
  import opened StagePruning
  import opened StageScheduler

  // ------------------------------------------------------------- tallies over stages

  ghost function Tally(f: (nat, Pc) -> nat, pc: seq<Pc>, n: nat): nat
    requires n <= |pc|
  {
    if n == 0 then 0 else Tally(f, pc, n - 1) + f(n - 1, pc[n - 1])
  }

  lemma {:induction false} TallyUpdate(f: (nat, Pc) -> nat, pc: seq<Pc>, i: nat, p: Pc, n: nat)
    requires i < |pc| && n <= |pc|
    ensures i < n ==> Tally(f, pc[i := p], n) + f(i, pc[i]) == Tally(f, pc, n) + f(i, p)
    ensures i >= n ==> Tally(f, pc[i := p], n) == Tally(f, pc, n)
  {
    if n > 0 {
      TallyUpdate(f, pc, i, p, n - 1);
    }
  }

  lemma {:induction false} TallyBound(f: (nat, Pc) -> nat, pc: seq<Pc>, n: nat)
    requires n <= |pc| && forall i, p :: f(i, p) <= 1
    ensures Tally(f, pc, n) <= n
    ensures Tally(f, pc, n) == n <==> forall i :: 0 <= i < n ==> f(i, pc[i]) == 1
    ensures Tally(f, pc, n) == 0 <==> forall i :: 0 <= i < n ==> f(i, pc[i]) == 0
  {
    if n > 0 {
      TallyBound(f, pc, n - 1);
    }
  }

  ghost function HoldsOne(): (f: (nat, Pc) -> nat)
    ensures forall i, p :: f(i, p) == if Holds(p) then 1 else 0
  {
    (i, p) => if Holds(p) then 1 else 0
  }

  ghost function SentOne(): (f: (nat, Pc) -> nat)
    ensures forall i, p :: f(i, p) == if HasSent(p) then 1 else 0
  {
    (i, p) => if HasSent(p) then 1 else 0
  }

  ghost function Held(s: State): nat {
    Tally(HoldsOne(), s.pc, |s.pc|) + if s.spawnerHolds then 1 else 0
  }

  // ------------------------------------------------------------------- the invariant

  ghost predicate PcFits(c: Config, i: nat, p: Pc)
    requires c.Valid() && i < |c.stages|
  {
    match p
    case Waiting(k) => k <= |c.stages[i].refs|
    case Looking(k) => k < |c.stages[i].refs| && c.Awaits(i, k)
    case Asleep(k) => k < |c.stages[i].refs| && c.Awaits(i, k)
    case _ => true
  }

  /** Stages are spawned in order. */
  ghost predicate Shape(c: Config, pc: seq<Pc>, origin: seq<Option<Origin>>, spawned: nat, spawnerHolds: bool)
    requires c.Valid()
  {
    && |pc| == |origin| == |c.stages| && spawned <= |pc|
    && (spawnerHolds ==> spawned < |pc|)
    && forall i :: 0 <= i < |pc| ==> PcFits(c, i, pc[i]) && (pc[i].Unspawned? <==> spawned <= i)
  }

  /** One result from each stage that has sent, and none from the others. */
  ghost predicate LogFits(pc: seq<Pc>, log: seq<Result>) {
    && |log| == Tally(SentOne(), pc, |pc|)
    && (forall a :: 0 <= a < |log| ==> log[a].index < |pc| && HasSent(pc[log[a].index]))
    && (forall a, b :: 0 <= a < b < |log| ==> log[a].index != log[b].index)
  }

  ghost predicate ResultOf(log: seq<Result>, upTo: nat, j: nat, r: Result)
    requires upTo <= |log|
  {
    exists a :: 0 <= a < upTo && log[a] == r && r.index == j
  }

  ghost predicate EverySentIsLogged(pc: seq<Pc>, log: seq<Result>) {
    forall i :: 0 <= i < |pc| && HasSent(pc[i]) ==> exists r :: ResultOf(log, |log|, i, r)
  }

  /** A received result is visible in the shared maps. */
  ghost predicate Shown(c: Config, r: Result, terminated: map<Name, bool>, images: map<Name, nat>) {
    && r.index < |c.stages|
    && c.stages[r.index].name in terminated && Index(r.index) in terminated
    && (!r.failed && r.image.Some? && r.index < |c.stages| - 1 ==>
      c.stages[r.index].name in images && images[c.stages[r.index].name] == r.image.value)
  }

  /** A terminated name is that of a stage whose result was received. */
  ghost predicate TerminatedBy(c: Config, log: seq<Result>, taken: nat, terminated: map<Name, bool>, name: Name) {
    name in terminated ==>
      exists a :: 0 <= a < taken <= |log| && log[a].index < |c.stages| && c.Names(log[a].index, name)
  }

  /** An image in the map was brought by a received result of the stage of that name. */
  ghost predicate ImageBy(c: Config, log: seq<Result>, taken: nat, images: map<Name, nat>, name: Name) {
    name in images ==>
      exists a :: 0 <= a < taken <= |log| && log[a].index < |c.stages| && c.stages[log[a].index].name == name
               && !log[a].failed && log[a].image == Some(images[name])
  }

  ghost predicate AllShown(c: Config, log: seq<Result>, taken: nat, terminated: map<Name, bool>,
                           images: map<Name, nat>) {
    taken <= |log| && forall a :: 0 <= a < taken ==> Shown(c, log[a], terminated, images)
  }

  ghost predicate AllTerminatedBy(c: Config, log: seq<Result>, taken: nat, terminated: map<Name, bool>) {
    forall name :: TerminatedBy(c, log, taken, terminated, name)
  }

  ghost predicate AllImagesBy(c: Config, log: seq<Result>, taken: nat, images: map<Name, nat>) {
    forall name :: ImageBy(c, log, taken, images, name)
  }

  /** The shared maps say exactly what the received results say. */
  ghost predicate PublishedFits(c: Config, log: seq<Result>, taken: nat, terminated: map<Name, bool>,
                                images: map<Name, nat>) {
    && AllShown(c, log, taken, terminated, images)
    && AllTerminatedBy(c, log, taken, terminated)
    && AllImagesBy(c, log, taken, images)
  }

  /** How many references a stage is done waiting for. */
  function Passed(p: Pc): nat {
    match p
    case Waiting(k) => k
    case Looking(k) => k
    case Asleep(k) => k
    case Resolving => 1
    case _ => 0
  }

  /** A stage gets past a reference only after the stage it refers to has terminated. */
  ghost predicate WaitsKept(c: Config, pc: seq<Pc>, terminated: map<Name, bool>)
    requires c.Valid() && |pc| == |c.stages|
  {
    forall i, m :: 0 <= i < |pc| && 0 <= m < Passed(pc[i]) && m < |c.stages[i].refs| && c.Awaits(i, m) ==>
      c.WaitName(i, m) in terminated
  }

  /** What a stage that waits for stage j as its base ends up starting from. */
  function OriginFrom(c: Config, i: nat, j: nat, r: Result): Origin
    requires i < |c.stages| && j < |c.stages| && |c.stages[i].refs| > 0
  {
    if c.Base(i) == c.stages[j].name && !r.failed && r.image.Some? then Image(r.image.value)
    else Named(c.Base(i))
  }

  ghost predicate HandedOff(c: Config, origin: seq<Option<Origin>>, log: seq<Result>)
    requires c.Valid() && |origin| == |c.stages|
  {
    forall i, j :: 0 <= j < i < |origin| && origin[i].Some? && c.Names(j, c.Base(i)) ==>
      exists r :: ResultOf(log, |log|, j, r) && origin[i].value == OriginFrom(c, i, j, r)
  }

  ghost predicate CollectorFits(s: State) {
    && s.taken <= |s.log|
    && (s.collector.Receiving? ==> !s.lastError)
    && (s.collector.Returned? || s.collector.Cleaned? ==> s.lastError || (s.closed && s.taken == |s.log|))
    && (s.closed ==> forall i :: 0 <= i < |s.pc| ==> s.pc[i].Counted? || s.pc[i].Done?)
  }

  ghost predicate Inv(c: Config, s: State)
    requires c.Valid()
  {
    && Shape(c, s.pc, s.origin, s.spawned, s.spawnerHolds)
    && s.free + Held(s) == c.capacity
    && LogFits(s.pc, s.log)
    && EverySentIsLogged(s.pc, s.log)
    && PublishedFits(c, s.log, s.taken, s.terminated, s.images)
    && WaitsKept(c, s.pc, s.terminated)
    && HandedOff(c, s.origin, s.log)
    && CollectorFits(s)
  }

  lemma {:induction false} TallyZero(f: (nat, Pc) -> nat, pc: seq<Pc>, n: nat)
    requires n <= |pc| && forall i :: 0 <= i < n ==> f(i, pc[i]) == 0
    ensures Tally(f, pc, n) == 0
  {
    if n > 0 {
      TallyZero(f, pc, n - 1);
    }
  }

  lemma InitInv(c: Config)
    requires c.Valid()
    ensures Inv(c, Init(c))
  {
    var s := Init(c);
    TallyZero(HoldsOne(), s.pc, |s.pc|);
    TallyZero(SentOne(), s.pc, |s.pc|);
  }

  // ------------------------------------------------------------------ moving one stage

  /** A stage moves on without sending. */
  lemma MoveKeepsLog(pc: seq<Pc>, log: seq<Result>, i: nat, p: Pc)
    requires i < |pc| && LogFits(pc, log) && EverySentIsLogged(pc, log)
    requires HasSent(pc[i]) <==> HasSent(p)
    ensures LogFits(pc[i := p], log) && EverySentIsLogged(pc[i := p], log)
  {
    TallyUpdate(SentOne(), pc, i, p, |pc|);
  }

  lemma ResultStays(log: seq<Result>, r: Result, j: nat, r': Result)
    requires ResultOf(log, |log|, j, r)
    ensures ResultOf(log + [r'], |log + [r']|, j, r)
  {
    var a :| 0 <= a < |log| && log[a] == r;
    assert (log + [r'])[a] == r;
  }

  /** A stage sends its one result. */
  lemma SendKeepsLog(pc: seq<Pc>, log: seq<Result>, r: Result)
    requires r.index < |pc| && LogFits(pc, log) && EverySentIsLogged(pc, log)
    requires !HasSent(pc[r.index])
    ensures LogFits(pc[r.index := Sent], log + [r]) && EverySentIsLogged(pc[r.index := Sent], log + [r])
  {
    var pc', log' := pc[r.index := Sent], log + [r];
    TallyUpdate(SentOne(), pc, r.index, Sent, |pc|);
    assert log'[|log|] == r;
    assert ResultOf(log', |log'|, r.index, r);
    forall i | 0 <= i < |pc'| && HasSent(pc'[i]) && i != r.index
      ensures exists q :: ResultOf(log', |log'|, i, q)
    {
      assert HasSent(pc[i]);
      var q :| ResultOf(log, |log|, i, q);
      ResultStays(log, q, i, r);
    }
  }

  lemma SendKeepsPublished(c: Config, s: State, r: Result)
    requires PublishedFits(c, s.log, s.taken, s.terminated, s.images)
    ensures PublishedFits(c, s.log + [r], s.taken, s.terminated, s.images)
  {
    var log, log' := s.log, s.log + [r];
    assert forall a :: 0 <= a < |log| ==> log'[a] == log[a];
    forall name
      ensures TerminatedBy(c, log', s.taken, s.terminated, name)
    {
      assert TerminatedBy(c, log, s.taken, s.terminated, name);
      if name in s.terminated {
        var a :| 0 <= a < s.taken <= |log| && log[a].index < |c.stages| && c.Names(log[a].index, name);
        assert log'[a] == log[a];
      }
    }
    forall name
      ensures ImageBy(c, log', s.taken, s.images, name)
    {
      assert ImageBy(c, log, s.taken, s.images, name);
      if name in s.images {
        var a :| 0 <= a < s.taken <= |log| && log[a].index < |c.stages| && c.stages[log[a].index].name == name
              && !log[a].failed && log[a].image == Some(s.images[name]);
        assert log'[a] == log[a];
      }
    }
  }

  lemma SendKeepsHandedOff(c: Config, origin: seq<Option<Origin>>, log: seq<Result>, r: Result)
    requires c.Valid() && |origin| == |c.stages| && HandedOff(c, origin, log)
    ensures HandedOff(c, origin, log + [r])
  {
    forall i, j | 0 <= j < i < |origin| && origin[i].Some? && c.Names(j, c.Base(i))
      ensures exists q :: ResultOf(log + [r], |log + [r]|, j, q) && origin[i].value == OriginFrom(c, i, j, q)
    {
      var q :| ResultOf(log, |log|, j, q) && origin[i].value == OriginFrom(c, i, j, q);
      ResultStays(log, q, j, r);
    }
  }

  /** A permit-holding stage sends. */
  lemma SendKeepsInv(c: Config, s: State, r: Result)
    requires c.Valid() && Inv(c, s) && r.index < |s.pc| && !s.closed
    requires Holds(s.pc[r.index]) && !HasSent(s.pc[r.index])
    ensures Inv(c, Send(s, r))
  {
    var s' := Send(s, r);
    TallyUpdate(HoldsOne(), s.pc, r.index, Sent, |s.pc|);
    SendKeepsLog(s.pc, s.log, r);
    SendKeepsPublished(c, s, r);
    SendKeepsHandedOff(c, s.origin, s.log, r);
    assert WaitsKept(c, s'.pc, s'.terminated);
  }

  /** A stage moves to p, and takes or gives back a permit if p says so. */
  lemma MoveKeepsInv(c: Config, s: State, i: nat, p: Pc, free: nat)
    requires c.Valid() && Inv(c, s) && i < |s.pc| && !s.pc[i].Unspawned? && !p.Unspawned?
    requires PcFits(c, i, p) && (HasSent(s.pc[i]) <==> HasSent(p))
    requires s.closed ==> p.Counted? || p.Done?
    requires free + (if Holds(p) then 1 else 0) == s.free + (if Holds(s.pc[i]) then 1 else 0)
    requires forall m :: 0 <= m < Passed(p) && m < |c.stages[i].refs| && c.Awaits(i, m) ==>
      c.WaitName(i, m) in s.terminated
    ensures Inv(c, MoveTo(s, i, p).(free := free))
  {
    TallyUpdate(HoldsOne(), s.pc, i, p, |s.pc|);
    MoveKeepsLog(s.pc, s.log, i, p);
  }

  lemma StartKeepsInv(c: Config, s: State)
    requires c.Valid() && Inv(c, s) && Enabled(c, s, SpawnerStart)
    ensures Inv(c, Do(c, s, SpawnerStart))
  {
    var p := Spawned(!s.cleaned);
    TallyUpdate(HoldsOne(), s.pc, s.spawned, p, |s.pc|);
    MoveKeepsLog(s.pc, s.log, s.spawned, p);
  }

  // ------------------------------------------------------------------------ the collector

  lemma ReceiveKeepsTerminatedBy(c: Config, log: seq<Result>, taken: nat, next: nat, terminated: map<Name, bool>)
    requires next == taken + 1 <= |log| && log[taken].index < |c.stages|
    requires AllTerminatedBy(c, log, taken, terminated)
    ensures AllTerminatedBy(c, log, next, NoteTermination(c, terminated, log[taken]))
  {
    var terminated' := NoteTermination(c, terminated, log[taken]);
    forall name
      ensures TerminatedBy(c, log, next, terminated', name)
    {
      assert TerminatedBy(c, log, taken, terminated, name);
      assert c.Names(log[taken].index, name) || name in terminated || name !in terminated';
    }
  }

  lemma ReceiveKeepsImagesBy(c: Config, log: seq<Result>, taken: nat, next: nat, images: map<Name, nat>)
    requires next == taken + 1 <= |log| && log[taken].index < |c.stages|
    requires AllImagesBy(c, log, taken, images)
    ensures AllImagesBy(c, log, next, NoteImage(c, images, log[taken]))
  {
    var r := log[taken];
    var images' := NoteImage(c, images, r);
    forall name
      ensures ImageBy(c, log, next, images', name)
    {
      assert ImageBy(c, log, taken, images, name);
      if name in images' && images' != images && name == c.stages[r.index].name {
        assert log[taken].image == Some(images'[name]);
      }
    }
  }

  /** A result that is already visible stays visible when another stage's result is published. */
  lemma ShownStays(c: Config, terminated: map<Name, bool>, images: map<Name, nat>, q: Result, r: Result)
    requires q.index < |c.stages| && r.index < |c.stages| && c.stages[q.index].name != c.stages[r.index].name
    requires Shown(c, q, terminated, images)
    ensures Shown(c, q, NoteTermination(c, terminated, r), NoteImage(c, images, r))
  {
  }

  lemma ReceiveKeepsShown(c: Config, log: seq<Result>, taken: nat, terminated: map<Name, bool>, images: map<Name, nat>)
    requires DistinctNames(c.stages) && taken < |log| && log[taken].index < |c.stages|
    requires AllShown(c, log, taken, terminated, images)
    requires forall a, b :: 0 <= a < b < |log| ==> log[a].index != log[b].index
    ensures AllShown(c, log, taken + 1, NoteTermination(c, terminated, log[taken]), NoteImage(c, images, log[taken]))
  {
    var r := log[taken];
    forall a | 0 <= a < taken
      ensures Shown(c, log[a], NoteTermination(c, terminated, r), NoteImage(c, images, r))
    {
      assert Shown(c, log[a], terminated, images) && log[a].index != r.index;
      ShownStays(c, terminated, images, log[a], r);
    }
  }

  lemma ReceiveKeepsWaits(c: Config, pc: seq<Pc>, terminated: map<Name, bool>, r: Result)
    requires c.Valid() && |pc| == |c.stages| && r.index < |c.stages| && WaitsKept(c, pc, terminated)
    ensures WaitsKept(c, pc, NoteTermination(c, terminated, r))
  {
    assert forall name :: name in terminated ==> name in NoteTermination(c, terminated, r);
  }

  lemma ReceiveKeepsInv(c: Config, s: State)
    requires c.Valid() && Inv(c, s) && Enabled(c, s, Receive)
    ensures Inv(c, Do(c, s, Receive))
  {
    hide PublishedFits;
    hide WaitsKept;
    hide HandedOff;
    var s' := Do(c, s, Receive);
    ReceiveKeepsMaps(c, s);
    assert Held(s') == Held(s);
  }

  lemma ReceiveKeepsMaps(c: Config, s: State)
    requires c.Valid() && Inv(c, s) && Enabled(c, s, Receive)
    ensures var s' := Do(c, s, Receive);
            PublishedFits(c, s'.log, s'.taken, s'.terminated, s'.images) && WaitsKept(c, s'.pc, s'.terminated)
  {
    var r := s.log[s.taken];
    ReceiveKeepsShown(c, s.log, s.taken, s.terminated, s.images);
    ReceiveKeepsTerminatedBy(c, s.log, s.taken, s.taken + 1, s.terminated);
    ReceiveKeepsImagesBy(c, s.log, s.taken, s.taken + 1, s.images);
    ReceiveKeepsWaits(c, s.pc, s.terminated, r);
  }

  // ---------------------------------------------------------------------- the hand-off

  /** A name leads to one stage only, whether it is a name or a position. */
  lemma NameIsUnique(c: Config, i: nat, j: nat, name: Name)
    requires c.Valid() && i < |c.stages| && j < |c.stages| && c.Names(i, name) && c.Names(j, name)
    ensures i == j
  {
  }

  lemma SameResult(log: seq<Result>, j: nat, q: Result, r: Result)
    requires forall a, b :: 0 <= a < b < |log| ==> log[a].index != log[b].index
    requires ResultOf(log, |log|, j, q) && ResultOf(log, |log|, j, r)
    ensures q == r
  {
  }

  /** Reading the image map after the base has terminated gives what the base's result says. */
  lemma ReadBase(c: Config, s: State, i: nat, j: nat) returns (r: Result)
    requires c.Valid() && Inv(c, s) && j < i < |c.stages| && c.Names(j, c.Base(i)) && c.Base(i) in s.terminated
    ensures ResultOf(s.log, |s.log|, j, r)
    ensures (if c.Base(i) in s.images then Image(s.images[c.Base(i)]) else Named(c.Base(i))) == OriginFrom(c, i, j, r)
  {
    var base := c.Base(i);
    assert TerminatedBy(c, s.log, s.taken, s.terminated, base);
    var a :| 0 <= a < s.taken <= |s.log| && s.log[a].index < |c.stages| && c.Names(s.log[a].index, base);
    NameIsUnique(c, s.log[a].index, j, base);
    r := s.log[a];
    assert Shown(c, r, s.terminated, s.images);
    if base in s.images {
      var id := s.images[base];
      assert ImageBy(c, s.log, s.taken, s.images, base);
      var b :| 0 <= b < s.taken <= |s.log| && s.log[b].index < |c.stages| && c.stages[s.log[b].index].name == base
            && !s.log[b].failed && s.log[b].image == Some(id);
      NameIsUnique(c, s.log[b].index, j, base);
      SameResult(s.log, j, r, s.log[b]);
    }
  }

  lemma ResolveKeepsHandedOff(c: Config, s: State, i: nat)
    requires c.Valid() && Inv(c, s) && Enabled(c, s, Resolve(i))
    ensures HandedOff(c, Do(c, s, Resolve(i)).origin, s.log)
  {
    var s' := Do(c, s, Resolve(i));
    forall j | 0 <= j < i && c.Names(j, c.Base(i))
      ensures exists r :: ResultOf(s.log, |s.log|, j, r) && s'.origin[i].value == OriginFrom(c, i, j, r)
    {
      assert c.WaitName(i, 0) == c.Base(i) && c.Awaits(i, 0);
      var r := ReadBase(c, s, i, j);
    }
  }

  lemma ResolveKeepsInv(c: Config, s: State, i: nat)
    requires c.Valid() && Inv(c, s) && Enabled(c, s, Resolve(i))
    ensures Inv(c, Do(c, s, Resolve(i)))
  {
    ResolveKeepsHandedOff(c, s, i);
    MoveKeepsInv(c, s, i, Waiting(1), s.free);
  }

  // ------------------------------------------------------------------------ every step

  /** A stage that has not sent yet keeps the channel open. */
  lemma OpenWhileRunning(c: Config, s: State, i: nat)
    requires c.Valid() && Inv(c, s) && i < |s.pc| && !HasSent(s.pc[i])
    ensures !s.closed
  {
  }

  lemma BeginKeepsInv(c: Config, s: State, i: nat)
    requires c.Valid() && Inv(c, s) && Enabled(c, s, Begin(i))
    ensures Inv(c, Do(c, s, Begin(i)))
  {
    OpenWhileRunning(c, s, i);
    if s.cancel || !s.pc[i].live {
      SendKeepsInv(c, s, Result(i, None, true));
    } else if !c.Builds(i) {
      SendKeepsInv(c, s, Result(i, None, false));
    } else {
      MoveKeepsInv(c, s, i, Waiting(0), s.free);
    }
  }

  lemma FailureKeepsInv(c: Config, s: State, i: nat)
    requires c.Valid() && Inv(c, s) && i < |s.pc| && (s.pc[i].Waiting? || s.pc[i].Resolving?)
    ensures Inv(c, SendFailure(s, i))
  {
    hide PublishedFits;
    hide WaitsKept;
    hide HandedOff;
    hide EverySentIsLogged;
    OpenWhileRunning(c, s, i);
    SendKeepsInv(c, s, Result(i, None, true));
  }

  lemma CheckKeepsInv(c: Config, s: State, i: nat)
    requires c.Valid() && Inv(c, s) && Enabled(c, s, Check(i))
    ensures Inv(c, Do(c, s, Check(i)))
  {
    hide PublishedFits;
    hide HandedOff;
    hide EverySentIsLogged;
    hide LogFits;
    hide Held;
    OpenWhileRunning(c, s, i);
    var k := s.pc[i].k;
    if !c.Awaits(i, k) {
      MoveKeepsInv(c, s, i, AfterWait(k), s.free);
    } else if s.lastError {
      FailureKeepsInv(c, s, i);
    } else {
      MoveKeepsInv(c, s, i, Looking(k), s.free);
    }
  }

  lemma LookKeepsInv(c: Config, s: State, i: nat)
    requires c.Valid() && Inv(c, s) && Enabled(c, s, Look(i))
    ensures Inv(c, Do(c, s, Look(i)))
  {
    hide PublishedFits;
    hide HandedOff;
    hide EverySentIsLogged;
    hide LogFits;
    hide Held;
    OpenWhileRunning(c, s, i);
    var k := s.pc[i].k;
    if c.WaitName(i, k) in s.terminated {
      MoveKeepsInv(c, s, i, AfterWait(k), s.free);
    } else {
      MoveKeepsInv(c, s, i, Asleep(k), s.free + 1);
    }
  }

  lemma StageStepKeepsInv(c: Config, s: State, a: Action)
    requires c.Valid() && Inv(c, s) && Enabled(c, s, a)
    requires a.Wake? || a.Finish? || a.Count? || a.Release?
    ensures Inv(c, Do(c, s, a))
  {
    hide PublishedFits;
    hide HandedOff;
    hide EverySentIsLogged;
    hide LogFits;
    hide Held;
    match a
    case Wake(i) =>
      OpenWhileRunning(c, s, i);
      MoveKeepsInv(c, s, i, Waiting(s.pc[i].k), s.free - 1);
    case Finish(i, image) =>
      OpenWhileRunning(c, s, i);
      SendKeepsInv(c, s, Result(i, image, false));
    case Count(i) => MoveKeepsInv(c, s, i, Counted, s.free);
    case Release(i) => MoveKeepsInv(c, s, i, Done, s.free + 1);
  }

  lemma OtherStepKeepsInv(c: Config, s: State, a: Action)
    requires c.Valid() && Inv(c, s) && Enabled(c, s, a)
    requires a.SpawnerAcquire? || a.Close? || a.SetLastError? || a.EndReceive? || a.Cleanup?
    ensures Inv(c, Do(c, s, a))
  {
    hide PublishedFits;
    hide WaitsKept;
    hide HandedOff;
    hide EverySentIsLogged;
  }

  lemma StepKeepsInv(c: Config, s: State, a: Action)
    requires c.Valid() && Inv(c, s) && Enabled(c, s, a)
    ensures Inv(c, Do(c, s, a))
  {
    match a
    case SpawnerStart => StartKeepsInv(c, s);
    case Begin(i) => BeginKeepsInv(c, s, i);
    case Check(i) => CheckKeepsInv(c, s, i);
    case Look(i) => LookKeepsInv(c, s, i);
    case Resolve(i) => ResolveKeepsInv(c, s, i);
    case Fail(i) => FailureKeepsInv(c, s, i);
    case Receive => ReceiveKeepsInv(c, s);
    case Wake(i) => StageStepKeepsInv(c, s, a);
    case Finish(i, image) => StageStepKeepsInv(c, s, a);
    case Count(i) => StageStepKeepsInv(c, s, a);
    case Release(i) => StageStepKeepsInv(c, s, a);
    case _ => OtherStepKeepsInv(c, s, a);
  }

  lemma {:induction false} RunKeepsInv(c: Config, s: State, schedule: Schedule, s': State)
    requires c.Valid() && Inv(c, s) && Runs(c, s, schedule, s')
    ensures Inv(c, s')
    decreases schedule
  {
    hide Inv;
    if schedule.Then? {
      StepKeepsInv(c, s, schedule.first);
      RunKeepsInv(c, Do(c, s, schedule.first), schedule.rest, s');
    }
  }

  // -------------------------------------------------------------------- the main results

  ghost predicate Reachable(c: Config, s: State)
    requires c.Valid()
  {
    exists schedule :: Runs(c, Init(c), schedule, s)
  }

  lemma ReachableInv(c: Config, s: State)
    requires c.Valid() && Reachable(c, s)
    ensures Inv(c, s)
  {
    var schedule :| Runs(c, Init(c), schedule, s);
    InitInv(c);
    RunKeepsInv(c, Init(c), schedule, s);
  }

  /** Everything has come to its end: stages, spawner, closer and collector. */
  ghost predicate Finished(s: State) {
    && s.closed && s.collector.Cleaned? && !s.spawnerHolds && s.spawned == |s.pc|
    && forall i :: 0 <= i < |s.pc| ==> s.pc[i].Done?
  }

  /**
   In every interleaving: permits in use and free permits add up to the capacity; a stage
   has one result in the log once it has sent, and none before; the channel never holds
   more than its capacity; and once it is closed every stage has sent.
   */
  lemma PermitsAndResults(c: Config, s: State)
    requires c.Valid() && Reachable(c, s)
    ensures s.free + Held(s) == c.capacity
    ensures 0 <= s.taken <= |s.log| <= |c.stages|
    ensures forall a, b :: 0 <= a < b < |s.log| ==> s.log[a].index != s.log[b].index
    ensures forall i :: 0 <= i < |s.pc| ==> (HasSent(s.pc[i]) <==> exists r :: ResultOf(s.log, |s.log|, i, r))
    ensures s.closed ==> forall i :: 0 <= i < |s.pc| ==> HasSent(s.pc[i])
    ensures Finished(s) ==> s.free == c.capacity && |s.log| == |c.stages|
  {
    ReachableInv(c, s);
    TallyBound(SentOne(), s.pc, |s.pc|);
    TallyBound(HoldsOne(), s.pc, |s.pc|);
  }

  /** The stage whose step sends has not sent before. */
  lemma OnlyRunningStagesSend(c: Config, s: State, a: Action)
    requires c.Valid() && |s.pc| == |s.origin| == |c.stages| && Enabled(c, s, a)
    ensures Do(c, s, a).log == s.log || exists i :: 0 <= i < |s.pc| && !s.pc[i].Counted? && !s.pc[i].Done?
  {
    hide Config.Valid;
    hide Config.Builds;
    hide Config.Commits;
    hide Config.Awaits;
    hide Config.WaitName;
    hide NoteTermination;
    hide NoteImage;
    if a.Begin? || a.Check? || a.Finish? || a.Fail? {
      assert !s.pc[a.i].Counted? && !s.pc[a.i].Done?;
    }
  }

  /** No send is possible once the channel is closed. */
  lemma NoSendAfterClose(c: Config, s: State, a: Action)
    requires c.Valid() && Reachable(c, s) && |s.pc| == |s.origin| == |c.stages| && Enabled(c, s, a) && s.closed
    ensures Do(c, s, a).log == s.log
  {
    hide *;
    OnlyRunningStagesSend(c, s, a);
    ClosedAfterAllCounted(c, s);
  }

  lemma ClosedAfterAllCounted(c: Config, s: State)
    requires c.Valid() && Reachable(c, s) && s.closed
    ensures forall i :: 0 <= i < |s.pc| ==> s.pc[i].Counted? || s.pc[i].Done?
  {
    ReachableInv(c, s);
  }

  /** A stage is past a reference to an earlier stage only if that stage has terminated. */
  lemma WaitsAreKept(c: Config, s: State, i: nat, m: nat, j: nat)
    requires c.Valid() && Reachable(c, s) && j < i < |s.pc| == |c.stages|
    requires m < Passed(s.pc[i]) && m < |c.stages[i].refs|
    requires c.Names(j, c.WaitName(i, m)) && (m == 0 || c.WaitName(i, m) !in c.contexts)
    ensures s.taken <= |s.log| && exists r :: ResultOf(s.log, s.taken, j, r)
  {
    ReachableInv(c, s);
    var name := c.WaitName(i, m);
    assert c.Awaits(i, m);
    assert TerminatedBy(c, s.log, s.taken, s.terminated, name);
    var a :| 0 <= a < s.taken <= |s.log| && s.log[a].index < |c.stages| && c.Names(s.log[a].index, name);
    NameIsUnique(c, s.log[a].index, j, name);
    assert ResultOf(s.log, s.taken, j, s.log[a]);
  }

  /**
   The base hand-off: a stage whose FROM mentions an earlier stage that succeeded with an
   image starts from exactly that image if and only if FROM uses the stage's name. A FROM
   that uses the position of a stage with a name of its own is taken as an image name.
   */
  lemma BaseHandOff(c: Config, s: State, i: nat, j: nat, r: Result)
    requires c.Valid() && Reachable(c, s) && j < i < |s.origin| == |c.stages| && s.origin[i].Some?
    requires c.Names(j, c.Base(i)) && ResultOf(s.log, |s.log|, j, r) && !r.failed && r.image.Some?
    ensures s.origin[i].value == Image(r.image.value) <==> c.Base(i) == c.stages[j].name
    ensures c.Base(i) != c.stages[j].name ==> s.origin[i].value == Named(c.Base(i))
  {
    ReachableInv(c, s);
    var q := OriginSource(c, s, i, j);
    SameResult(s.log, j, q, r);
  }

  // -------------------------------------------------- a base that succeeded has an image

  predicate Running(p: Pc) {
    p.Waiting? || p.Looking? || p.Asleep? || p.Resolving?
  }

  ghost predicate ResultFits(c: Config, r: Result)
    requires c.Valid()
  {
    r.index < |c.stages| && (!r.failed ==> (r.image.Some? <==> c.Builds(r.index) && c.Commits(r.index)))
  }

  /** Only stages that are not skipped run, and they have an image when they commit. */
  ghost predicate BuiltFits(c: Config, s: State)
    requires c.Valid()
  {
    && |s.pc| == |s.origin| == |c.stages|
    && (forall i :: 0 <= i < |s.pc| && (Running(s.pc[i]) || s.origin[i].Some?) ==> c.Builds(i))
    && (forall a :: 0 <= a < |s.log| ==> ResultFits(c, s.log[a]))
  }

  lemma MoveKeepsBuiltFits(c: Config, s: State, i: nat, p: Pc)
    requires c.Valid() && BuiltFits(c, s) && i < |s.pc| && (Running(p) ==> c.Builds(i))
    ensures BuiltFits(c, MoveTo(s, i, p))
  {
    hide Config.Builds;
    hide Config.Valid;
    hide ResultFits;
  }

  lemma SendKeepsBuiltFits(c: Config, s: State, r: Result)
    requires c.Valid() && BuiltFits(c, s) && r.index < |s.pc| && ResultFits(c, r)
    ensures BuiltFits(c, Send(s, r))
  {
    hide Config.Builds;
    hide Config.Valid;
    hide ResultFits;
  }

  lemma CheckKeepsBuiltFits(c: Config, s: State, i: nat)
    requires c.Valid() && BuiltFits(c, s) && Enabled(c, s, Check(i))
    ensures BuiltFits(c, Do(c, s, Check(i)))
  {
    hide Config.Builds;
    hide Config.Valid;
    hide Config.Commits;
    SendKeepsBuiltFits(c, s, Result(i, None, true));
    MoveKeepsBuiltFits(c, s, i, AfterWait(s.pc[i].k));
    MoveKeepsBuiltFits(c, s, i, Looking(s.pc[i].k));
  }

  lemma BeginKeepsBuiltFits(c: Config, s: State, i: nat)
    requires c.Valid() && BuiltFits(c, s) && Enabled(c, s, Begin(i))
    ensures BuiltFits(c, Do(c, s, Begin(i)))
  {
    hide Config.Builds;
    hide Config.Valid;
    hide Config.Commits;
    if s.cancel || !s.pc[i].live {
      SendKeepsBuiltFits(c, s, Result(i, None, true));
    } else if !c.Builds(i) {
      SendKeepsBuiltFits(c, s, Result(i, None, false));
    } else {
      MoveKeepsBuiltFits(c, s, i, Waiting(0));
    }
  }

  lemma StepKeepsBuiltFits(c: Config, s: State, a: Action)
    requires c.Valid() && BuiltFits(c, s) && Enabled(c, s, a)
    ensures BuiltFits(c, Do(c, s, a))
  {
    hide Config.Builds;
    hide Config.Valid;
    hide Config.Commits;
    match a
    case SpawnerStart => MoveKeepsBuiltFits(c, s, s.spawned, Spawned(!s.cleaned));
    case Begin(i) => BeginKeepsBuiltFits(c, s, i);
    case Check(i) => CheckKeepsBuiltFits(c, s, i);
    case Look(i) =>
      MoveKeepsBuiltFits(c, s, i, AfterWait(s.pc[i].k));
      MoveKeepsBuiltFits(c, s, i, Asleep(s.pc[i].k));
    case Wake(i) => MoveKeepsBuiltFits(c, s, i, Waiting(s.pc[i].k));
    case Resolve(i) => MoveKeepsBuiltFits(c, s, i, Waiting(1));
    case Finish(i, image) => SendKeepsBuiltFits(c, s, Result(i, image, false));
    case Fail(i) => SendKeepsBuiltFits(c, s, Result(i, None, true));
    case Count(i) => MoveKeepsBuiltFits(c, s, i, Counted);
    case Release(i) => MoveKeepsBuiltFits(c, s, i, Done);
    case _ =>
  }

  lemma {:induction false} RunKeepsBuiltFits(c: Config, s: State, schedule: Schedule, s': State)
    requires c.Valid() && BuiltFits(c, s) && Runs(c, s, schedule, s')
    ensures BuiltFits(c, s')
    decreases schedule
  {
    hide BuiltFits;
    if schedule.Then? {
      StepKeepsBuiltFits(c, s, schedule.first);
      RunKeepsBuiltFits(c, Do(c, s, schedule.first), schedule.rest, s');
    }
  }

  /** A stage that another stage is built on is built, and commits. */
  lemma BaseStageCommits(c: Config, i: nat, j: nat)
    requires c.Valid() && j < i < |c.stages| && c.Builds(i)
    requires c.Base(i) == c.stages[j].name && c.Base(i) != SCRATCH && c.Base(i) !in c.contexts
    ensures c.Builds(j) && c.Commits(j)
  {
    var r := c.stages[i].refs[0];
    assert c.InBaseMap(c.stages[j].name);
    assert c.stages[j].name in Names(c.stages, i + 1);
    if c.skipUnused {
      assert !OutOfRange(c.stages, r);
      assert NeedOf(c.stages, c.contexts, i, r) == Some(c.stages[j].name);
      NeedsOfBuiltStagesAreBuilt(c.stages, c.contexts, i, j, r);
    }
  }

  /**
   A stage whose FROM names an earlier stage starts from that stage's committed image,
   unless that stage failed.
   */
  lemma NamedBaseIsHandedOff(c: Config, s: State, i: nat, j: nat)
    requires c.Valid() && Reachable(c, s) && j < i < |s.origin| == |c.stages| && s.origin[i].Some?
    requires c.Base(i) == c.stages[j].name && c.Base(i) != SCRATCH && c.Base(i) !in c.contexts
    ensures exists r ::
      ResultOf(s.log, |s.log|, j, r) && (!r.failed ==> r.image.Some? && s.origin[i].value == Image(r.image.value))
  {
    assert BuiltFits(c, s) by {
      var schedule :| Runs(c, Init(c), schedule, s);
      RunKeepsBuiltFits(c, Init(c), schedule, s);
    }
    BaseStageCommits(c, i, j);
    var r := OriginSource(c, s, i, j);
    assert ResultFits(c, r);
  }

  lemma OriginSource(c: Config, s: State, i: nat, j: nat) returns (r: Result)
    requires c.Valid() && Reachable(c, s) && j < i < |s.origin| == |c.stages| && s.origin[i].Some?
    requires c.Names(j, c.Base(i))
    ensures ResultOf(s.log, |s.log|, j, r) && s.origin[i].value == OriginFrom(c, i, j, r)
  {
    ReachableInv(c, s);
    r :| ResultOf(s.log, |s.log|, j, r) && s.origin[i].value == OriginFrom(c, i, j, r);
  }
}
