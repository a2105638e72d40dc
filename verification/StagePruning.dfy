/**
 Which stages a build needs: the dependency map that `Build` fills in, and the marking
 of the stages that the target depends on.
 */
module StagePruning {
  import opened Optional

  /** A stage name or a reference to one; Index(n) is the decimal form of n. */
  datatype Name = Word(text: string) | Index(n: int)

  /** A mention of another stage (or image) in a FROM, a COPY/ADD --from, or a RUN --mount from=. */
  datatype Reference = From(base: Name) | CopyFrom(source: Name) | MountFrom(source: Name)

  /** A stage without an AS clause is named by its position. */
  datatype Stage = Stage(name: Name, refs: seq<Reference>)

  /** The base which is not an image at all. */
  const SCRATCH: Name := Word("scratch")

  ghost predicate DistinctNames(stages: seq<Stage>) {
    forall i, j :: 0 <= i < j < |stages| ==> stages[i].name != stages[j].name
  }

  /** A number used as a name is the position of the stage it names. */
  ghost predicate NumbersArePositions(stages: seq<Stage>) {
    forall i :: 0 <= i < |stages| && stages[i].name.Index? ==> stages[i].name.n == i
  }

  function Names(stages: seq<Stage>, n: nat): set<Name>
    requires n <= |stages|
  {
    set k | 0 <= k < n :: stages[k].name
  }

  // -------------------------------------------------------------- recording

  /** COPY --from=N looks up stages[N], which panics when N is out of range. */
  predicate OutOfRange(stages: seq<Stage>, r: Reference) {
    r.CopyFrom? && r.source.Index? && !(0 <= r.source.n < |stages|)
  }

  /** The name under which a reference is looked for. Only COPY and ADD turn an index into a name. */
  function LookedUp(stages: seq<Stage>, r: Reference): Name
    requires !OutOfRange(stages, r)
  {
    match r
    case From(base) => base
    case CopyFrom(source) => if source.Index? then stages[source.n].name else source
    case MountFrom(source) => source
  }

  /** The dependency that a reference in stage i adds, if any: an earlier stage, or the stage itself. */
  function NeedOf(stages: seq<Stage>, contexts: set<Name>, i: nat, r: Reference): Option<Name>
    requires i < |stages| && !OutOfRange(stages, r)
  {
    var name := LookedUp(stages, r);
    if r != From(SCRATCH) && name !in contexts && name in Names(stages, i + 1) then Some(name) else None
  }

  function NeedsOf(stages: seq<Stage>, contexts: set<Name>, i: nat, k: nat): seq<Name>
    requires i < |stages| && k <= |stages[i].refs|
    requires forall r :: r in stages[i].refs ==> !OutOfRange(stages, r)
  {
    if k == 0 then [] else
      var need := NeedOf(stages, contexts, i, stages[i].refs[k - 1]);
      NeedsOf(stages, contexts, i, k - 1) + if need.Some? then [need.value] else []
  }

  predicate InRange(stages: seq<Stage>) {
    forall i :: 0 <= i < |stages| ==> forall r :: r in stages[i].refs ==> !OutOfRange(stages, r)
  }

  type Graph = map<Name, seq<Name>>

  /** The recorded dependencies, by stage name. */
  ghost function NeedsGraph(stages: seq<Stage>, contexts: set<Name>): Graph
    requires InRange(stages) && DistinctNames(stages)
  {
    map i | 0 <= i < |stages| :: stages[i].name := NeedsOf(stages, contexts, i, |stages[i].refs|)
  }

  // ------------------------------------------------------------ reachability

  datatype Route = Here | Via(next: Name, rest: Route)

  ghost predicate IsRoute(g: Graph, a: Name, r: Route, b: Name)
    decreases r
  {
    match r
    case Here => a == b
    case Via(next, rest) => a in g && next in g[a] && IsRoute(g, next, rest, b)
  }

  ghost predicate Reaches(g: Graph, a: Name, b: Name) {
    exists r :: IsRoute(g, a, r, b)
  }

  ghost predicate Closed(g: Graph, s: set<Name>) {
    forall a, b :: a in s && a in g && b in g[a] && b in g ==> b in s
  }

  lemma {:induction false} ExtendRoute(g: Graph, a: Name, r: Route, b: Name, c: Name)
    requires IsRoute(g, a, r, b) && b in g && c in g[b]
    ensures Reaches(g, a, c)
    decreases r
  {
    match r
    case Here =>
      assert IsRoute(g, c, Here, c);
      assert IsRoute(g, a, Via(c, Here), c);
    case Via(next, rest) =>
      ExtendRoute(g, next, rest, b, c);
      var longer :| IsRoute(g, next, longer, c);
      assert IsRoute(g, a, Via(next, longer), c);
  }

  lemma {:induction false} ClosedHoldsRoute(g: Graph, s: set<Name>, a: Name, r: Route, b: Name)
    requires Closed(g, s) && a in s && IsRoute(g, a, r, b) && b in g
    ensures b in s
    decreases r
  {
    if r.Via? {
      assert r.next in g by {
        if r.rest.Via? {
        }
      }
      ClosedHoldsRoute(g, s, r.next, r.rest, b);
    }
  }

  // ----------------------------------------------------------------- marking

  class StageDependencyInfo {
    const name: Name
    const position: nat
    var needs: seq<Name>
    var neededByTarget: bool

    constructor (name: Name, position: nat)
      ensures this.name == name && this.position == position && needs == [] && !neededByTarget
    {
      this.name, this.position, needs, neededByTarget := name, position, [], false;
    }
  }

  type DependencyMap = map<Name, StageDependencyInfo>

  /** Each entry is filed under its own name, so entries do not alias. */
  ghost predicate WellFiled(m: DependencyMap) {
    forall n :: n in m ==> m[n].name == n
  }

  ghost function GraphOf(m: DependencyMap): Graph
    reads m.Values
  {
    map n | n in m :: m[n].needs
  }

  ghost function Marked(m: DependencyMap): set<Name>
    reads m.Values
  {
    set n | n in m && m[n].neededByTarget
  }

  ghost predicate AllReached(g: Graph, stage: Name, s: set<Name>) {
    forall n :: n in s ==> Reaches(g, stage, n)
  }

  /** Every stage in s has its needs marked. */
  ghost predicate NeedsMarked(g: Graph, s: set<Name>, marked: set<Name>) {
    forall a, b :: a in s && a in g && b in g[a] && b in g ==> b in marked
  }

  lemma ReachedThroughNeed(g: Graph, stage: Name, need: Name, s: set<Name>)
    requires stage in g && need in g[stage] && AllReached(g, need, s)
    ensures AllReached(g, stage, s)
  {
    forall n | n in s
      ensures Reaches(g, stage, n)
    {
      var r :| IsRoute(g, need, r, n);
      assert IsRoute(g, stage, Via(need, r), n);
    }
  }

  /**
   markDependencyStagesForTarget. It ends on cyclic dependencies too, because a stage
   is marked before its needs are looked at. Whatever it marks is reachable from the
   stage, and has all of its needs marked.
   */
  method MarkDependencies(m: DependencyMap, stage: Name, ghost g: Graph)
    requires WellFiled(m) && g == GraphOf(m)
    modifies m.Values`neededByTarget
    ensures old(Marked(m)) <= Marked(m)
    ensures stage in m ==> stage in Marked(m)
    ensures AllReached(g, stage, Marked(m) - old(Marked(m)))
    ensures NeedsMarked(g, Marked(m) - old(Marked(m)), Marked(m))
    decreases m.Keys - Marked(m)
  {
    if stage in m {
      var info := m[stage];
      if !info.neededByTarget {
        ghost var before := Marked(m);
        info.neededByTarget := true;
        assert Marked(m) == before + {stage};
        assert IsRoute(g, stage, Here, stage);
        for k := 0 to |info.needs|
          invariant before + {stage} <= Marked(m)
          invariant forall c :: c in info.needs[..k] && c in m ==> c in Marked(m)
          invariant AllReached(g, stage, Marked(m) - before)
          invariant NeedsMarked(g, Marked(m) - before - {stage}, Marked(m))
        {
          ghost var sofar := Marked(m);
          MarkDependencies(m, info.needs[k], g);
          ReachedThroughNeed(g, stage, info.needs[k], Marked(m) - sofar);
        }
        assert info.needs[..|info.needs|] == g[stage];
      }
    }
  }

  /** From an unmarked map, exactly the stages that the target reaches through Needs get marked. */
  method MarkForTarget(m: DependencyMap, target: Name)
    requires WellFiled(m) && Marked(m) == {} && target in m
    modifies m.Values`neededByTarget
    ensures forall n :: n in m ==> (m[n].neededByTarget <==> Reaches(old(GraphOf(m)), target, n))
  {
    ghost var g := GraphOf(m);
    MarkDependencies(m, target, g);
    forall n | n in m && Reaches(g, target, n)
      ensures n in Marked(m)
    {
      var r :| IsRoute(g, target, r, n);
      ClosedHoldsRoute(g, Marked(m), target, r, n);
    }
  }

  // ------------------------------------------------------------- the whole plan

  /** The stages recorded so far are filed with all of their needs, and unmarked. */
  ghost predicate Recorded(m: DependencyMap, stages: seq<Stage>, contexts: set<Name>, n: nat)
    requires n <= |stages| && InRange(stages)
    reads m.Values
  {
    && WellFiled(m) && m.Keys == Names(stages, n) && Marked(m) == {}
    && forall k :: 0 <= k < n ==>
      stages[k].name in m && m[stages[k].name].needs == NeedsOf(stages, contexts, k, |stages[k].refs|)
  }

  /** The references of one stage are recorded in its entry, which is the newest one. */
  method RecordNeeds(m: DependencyMap, info: StageDependencyInfo, stages: seq<Stage>, contexts: set<Name>, i: nat)
    requires i < |stages| && InRange(stages)
    requires m.Keys == Names(stages, i + 1) && info.needs == []
    modifies info`needs
    ensures info.needs == NeedsOf(stages, contexts, i, |stages[i].refs|)
  {
    var refs := stages[i].refs;
    for k := 0 to |refs|
      invariant info.needs == NeedsOf(stages, contexts, i, k)
    {
      assert !OutOfRange(stages, refs[k]);
      var name := LookedUp(stages, refs[k]);
      if refs[k] != From(SCRATCH) && name !in contexts {
        if name in m {
          info.needs := info.needs + [name];
        }
      }
    }
  }

  lemma NamesGrow(stages: seq<Stage>, i: nat)
    requires i < |stages|
    ensures Names(stages, i + 1) == Names(stages, i) + {stages[i].name}
    ensures DistinctNames(stages) ==> stages[i].name !in Names(stages, i)
  {
  }

  /** One turn of Build's loop over the stages. */
  method RecordStage(m: DependencyMap, stages: seq<Stage>, contexts: set<Name>, i: nat)
    returns (m': DependencyMap, info: StageDependencyInfo)
    requires i < |stages| && InRange(stages) && DistinctNames(stages)
    requires Recorded(m, stages, contexts, i)
    ensures m' == m[stages[i].name := info] && fresh(info)
    ensures Recorded(m', stages, contexts, i + 1)
  {
    hide NeedsOf;
    hide Names;
    NamesGrow(stages, i);
    info := new StageDependencyInfo(stages[i].name, i);
    m' := m[stages[i].name := info];
    RecordNeeds(m', info, stages, contexts, i);
    assert forall n :: n in m ==> m'[n] == m[n] && m[n] != info;
  }

  lemma RecordedGraph(m: DependencyMap, stages: seq<Stage>, contexts: set<Name>)
    requires InRange(stages) && DistinctNames(stages) && Recorded(m, stages, contexts, |stages|)
    ensures GraphOf(m) == NeedsGraph(stages, contexts)
  {
    var g := NeedsGraph(stages, contexts);
    forall n | n in m
      ensures n in g && g[n] == m[n].needs
    {
      var i :| 0 <= i < |stages| && stages[i].name == n;
      GraphAt(stages, contexts, i);
    }
  }

  /** Build's loop over the stages, up to the marking. */
  method RecordStages(stages: seq<Stage>, contexts: set<Name>) returns (m: DependencyMap)
    requires InRange(stages) && DistinctNames(stages)
    ensures Recorded(m, stages, contexts, |stages|) && GraphOf(m) == NeedsGraph(stages, contexts)
    ensures forall n :: n in m ==> fresh(m[n])
  {
    m := map[];
    for i := 0 to |stages|
      invariant Recorded(m, stages, contexts, i)
      invariant forall n :: n in m ==> fresh(m[n])
    {
      var info;
      m, info := RecordStage(m, stages, contexts, i);
    }
    RecordedGraph(m, stages, contexts);
  }

  lemma RecordedNames(m: DependencyMap, stages: seq<Stage>, contexts: set<Name>)
    requires InRange(stages) && DistinctNames(stages) && Recorded(m, stages, contexts, |stages|)
    ensures m.Keys == Names(stages, |stages|)
    ensures forall j :: 0 <= j < |stages| ==> stages[j].name in m
  {
  }

  // ------------------------------------------------------------- told from the Containerfile

  /** The reference is to stage j: by its name, or in a COPY or ADD by its position. */
  predicate IsTo(stages: seq<Stage>, r: Reference, j: nat)
    requires j < |stages|
  {
    match r
    case From(base) => base == stages[j].name
    case MountFrom(source) => source == stages[j].name
    case CopyFrom(Index(n)) => n == j
    case CopyFrom(Word(text)) => Word(text) == stages[j].name
  }

  /** Stage i has a reference to stage j, which is not later, is not scratch, and is not hidden by a context. */
  predicate Uses(stages: seq<Stage>, contexts: set<Name>, i: nat, j: nat)
    requires i < |stages|
  {
    j <= i && stages[j].name !in contexts && exists r :: r in stages[i].refs && r != From(SCRATCH) && IsTo(stages, r, j)
  }

  /** Stage i uses stage j, n stages further down. */
  ghost predicate UsesAfter(stages: seq<Stage>, contexts: set<Name>, i: nat, j: nat, n: nat)
    requires i < |stages|
    decreases n
  {
    if n == 0 then i == j
    else exists k :: 0 <= k < |stages| && Uses(stages, contexts, i, k) && UsesAfter(stages, contexts, k, j, n - 1)
  }

  ghost predicate UsesSomehow(stages: seq<Stage>, contexts: set<Name>, i: nat, j: nat)
    requires i < |stages|
  {
    exists n: nat :: UsesAfter(stages, contexts, i, j, n)
  }

  lemma NeedOfIs(stages: seq<Stage>, contexts: set<Name>, i: nat, r: Reference, j: nat)
    requires InRange(stages) && DistinctNames(stages) && j < |stages| && i < |stages| && r in stages[i].refs
    ensures !OutOfRange(stages, r)
    ensures NeedOf(stages, contexts, i, r) == Some(stages[j].name) <==>
      j <= i && stages[j].name !in contexts && r != From(SCRATCH) && IsTo(stages, r, j)
  {
    assert stages[j].name in Names(stages, i + 1) <==> j <= i;
  }

  lemma {:induction false} ListedIsNeed(stages: seq<Stage>, contexts: set<Name>, i: nat, n: Name, k: nat)
    requires i < |stages| && InRange(stages) && k <= |stages[i].refs| && n in NeedsOf(stages, contexts, i, k)
    ensures exists r :: r in stages[i].refs && NeedOf(stages, contexts, i, r) == Some(n)
  {
    var r := stages[i].refs[k - 1];
    assert !OutOfRange(stages, r);
    if NeedOf(stages, contexts, i, r) != Some(n) {
      ListedIsNeed(stages, contexts, i, n, k - 1);
    }
  }

  lemma NeedIsStage(stages: seq<Stage>, contexts: set<Name>, i: nat, r: Reference) returns (j: nat)
    requires i < |stages| && !OutOfRange(stages, r) && NeedOf(stages, contexts, i, r).Some?
    ensures j < |stages| && NeedOf(stages, contexts, i, r) == Some(stages[j].name)
  {
    j :| 0 <= j < i + 1 && stages[j].name == LookedUp(stages, r);
  }

  /** What is recorded as a need of stage i: exactly the stages that it uses. */
  lemma NeedsAreUses(stages: seq<Stage>, contexts: set<Name>, i: nat, n: Name)
    requires InRange(stages) && DistinctNames(stages) && i < |stages|
    ensures stages[i].name in NeedsGraph(stages, contexts)
    ensures n in NeedsGraph(stages, contexts)[stages[i].name] <==>
      exists j :: 0 <= j < |stages| && n == stages[j].name && Uses(stages, contexts, i, j)
  {
    var refs := stages[i].refs;
    GraphAt(stages, contexts, i);
    hide NeedsGraph;
    if n in NeedsOf(stages, contexts, i, |refs|) {
      ListedIsNeed(stages, contexts, i, n, |refs|);
      var r :| r in refs && NeedOf(stages, contexts, i, r) == Some(n);
      var j := NeedIsStage(stages, contexts, i, r);
      NeedOfIs(stages, contexts, i, r, j);
      assert Uses(stages, contexts, i, j);
    }
    if j :| 0 <= j < |stages| && n == stages[j].name && Uses(stages, contexts, i, j) {
      var r :| r in refs && r != From(SCRATCH) && IsTo(stages, r, j);
      NeedOfIs(stages, contexts, i, r, j);
      assert refs[..|refs|] == refs;
      NeedIsListed(stages, contexts, i, r, |refs|);
    }
  }

  lemma {:induction false} RouteIsUse(stages: seq<Stage>, contexts: set<Name>, i: nat, route: Route, j: nat)
    requires InRange(stages) && DistinctNames(stages) && i < |stages| && j < |stages|
    requires IsRoute(NeedsGraph(stages, contexts), stages[i].name, route, stages[j].name)
    ensures UsesSomehow(stages, contexts, i, j)
    decreases route
  {
    hide NeedsGraph;
    hide Uses;
    match route
    case Here =>
      assert i == j && UsesAfter(stages, contexts, i, j, 0);
    case Via(next, rest) =>
      NeedsAreUses(stages, contexts, i, next);
      var k :| 0 <= k < |stages| && next == stages[k].name && Uses(stages, contexts, i, k);
      RouteIsUse(stages, contexts, k, rest, j);
      var n: nat :| UsesAfter(stages, contexts, k, j, n);
      assert UsesAfter(stages, contexts, i, j, n + 1);
  }

  lemma {:induction false} UseIsRoute(stages: seq<Stage>, contexts: set<Name>, i: nat, j: nat, n: nat)
    requires InRange(stages) && DistinctNames(stages) && i < |stages| && j < |stages|
    requires UsesAfter(stages, contexts, i, j, n)
    ensures Reaches(NeedsGraph(stages, contexts), stages[i].name, stages[j].name)
    decreases n
  {
    hide NeedsGraph;
    hide Uses;
    var g := NeedsGraph(stages, contexts);
    if n == 0 {
      assert IsRoute(g, stages[i].name, Here, stages[j].name);
    } else {
      var k :| 0 <= k < |stages| && Uses(stages, contexts, i, k) && UsesAfter(stages, contexts, k, j, n - 1);
      NeedsAreUses(stages, contexts, i, stages[k].name);
      UseIsRoute(stages, contexts, k, j, n - 1);
      var rest :| IsRoute(g, stages[k].name, rest, stages[j].name);
      assert IsRoute(g, stages[i].name, Via(stages[k].name, rest), stages[j].name);
    }
  }

  /** The recorded needs lead from one stage to another exactly when the one uses the other, through others or not. */
  lemma ReachesExactlyWhenUsed(stages: seq<Stage>, contexts: set<Name>, i: nat, j: nat)
    requires InRange(stages) && DistinctNames(stages) && i < |stages| && j < |stages|
    ensures Reaches(NeedsGraph(stages, contexts), stages[i].name, stages[j].name) <==>
      UsesSomehow(stages, contexts, i, j)
  {
    hide NeedsGraph;
    hide UsesAfter;
    if Reaches(NeedsGraph(stages, contexts), stages[i].name, stages[j].name) {
      var route :| IsRoute(NeedsGraph(stages, contexts), stages[i].name, route, stages[j].name);
      RouteIsUse(stages, contexts, i, route, j);
    }
    if UsesSomehow(stages, contexts, i, j) {
      var n: nat :| UsesAfter(stages, contexts, i, j, n);
      UseIsRoute(stages, contexts, i, j, n);
    }
  }

  lemma ReachedAreUsed(stages: seq<Stage>, contexts: set<Name>)
    requires InRange(stages) && DistinctNames(stages) && stages != []
    ensures forall j :: 0 <= j < |stages| ==>
      (Reaches(NeedsGraph(stages, contexts), stages[|stages| - 1].name, stages[j].name) <==>
       UsesSomehow(stages, contexts, |stages| - 1, j))
  {
    hide *;
    forall j | 0 <= j < |stages|
      ensures Reaches(NeedsGraph(stages, contexts), stages[|stages| - 1].name, stages[j].name) <==>
        UsesSomehow(stages, contexts, |stages| - 1, j)
    {
      ReachesExactlyWhenUsed(stages, contexts, |stages| - 1, j);
    }
  }

  /**
   The part of Build that decides which stages are needed: a stage is marked if and only
   if the last stage uses it, through other stages or not. It gives up on an empty stage
   list, and on an index that is out of range.
   */
  method PlanStages(stages: seq<Stage>, contexts: set<Name>) returns (r: Option<DependencyMap>)
    requires DistinctNames(stages)
    ensures r.None? <==> stages == [] || !InRange(stages)
    ensures r.Some? ==>
      && r.value.Keys == Names(stages, |stages|)
      && GraphOf(r.value) == NeedsGraph(stages, contexts)
      && forall n :: n in r.value ==>
        (r.value[n].neededByTarget <==> Reaches(NeedsGraph(stages, contexts), stages[|stages| - 1].name, n))
    ensures r.Some? ==>
      forall j :: 0 <= j < |stages| ==>
        && stages[j].name in r.value
        && (r.value[stages[j].name].neededByTarget <==> UsesSomehow(stages, contexts, |stages| - 1, j))
  {
    if stages == [] || !InRange(stages) {
      return None;
    }
    var m := RecordStages(stages, contexts);
    RecordedNames(m, stages, contexts);
    assert WellFiled(m) && Marked(m) == {};
    hide *;
    MarkForTarget(m, stages[|stages| - 1].name);
    ReachedAreUsed(stages, contexts);
    r := Some(m);
  }

  /** The stages that Build does not skip, unless told to build all of them. */
  ghost predicate Needed(stages: seq<Stage>, contexts: set<Name>, i: nat)
    requires InRange(stages) && DistinctNames(stages) && i < |stages|
  {
    Reaches(NeedsGraph(stages, contexts), stages[|stages| - 1].name, stages[i].name)
  }

  lemma GraphAt(stages: seq<Stage>, contexts: set<Name>, i: nat)
    requires InRange(stages) && DistinctNames(stages) && i < |stages|
    ensures stages[i].name in NeedsGraph(stages, contexts)
    ensures NeedsGraph(stages, contexts)[stages[i].name] == NeedsOf(stages, contexts, i, |stages[i].refs|)
  {
  }

  lemma {:induction false} NeedIsListed(stages: seq<Stage>, contexts: set<Name>, i: nat, r: Reference, k: nat)
    requires i < |stages| && InRange(stages) && k <= |stages[i].refs| && r in stages[i].refs[..k]
    requires NeedOf(stages, contexts, i, r).Some?
    ensures NeedOf(stages, contexts, i, r).value in NeedsOf(stages, contexts, i, k)
  {
    assert stages[i].refs[..k] == stages[i].refs[..k - 1] + [stages[i].refs[k - 1]];
    if r != stages[i].refs[k - 1] {
      NeedIsListed(stages, contexts, i, r, k - 1);
    }
  }

  /** Every recorded dependency of a stage that is built is itself built. */
  lemma NeedsOfBuiltStagesAreBuilt(stages: seq<Stage>, contexts: set<Name>, i: nat, j: nat, r: Reference)
    requires InRange(stages) && DistinctNames(stages) && i < |stages| && j < |stages|
    requires r in stages[i].refs && NeedOf(stages, contexts, i, r) == Some(stages[j].name)
    requires Needed(stages, contexts, i)
    ensures Needed(stages, contexts, j)
  {
    var g, target := NeedsGraph(stages, contexts), stages[|stages| - 1].name;
    var route :| IsRoute(g, target, route, stages[i].name);
    assert stages[i].refs[..|stages[i].refs|] == stages[i].refs;
    NeedIsListed(stages, contexts, i, r, |stages[i].refs|);
    GraphAt(stages, contexts, i);
    ExtendRoute(g, target, route, stages[i].name, stages[j].name);
  }

  function Mentioned(r: Reference): Name {
    match r
    case From(base) => base
    case CopyFrom(source) => source
    case MountFrom(source) => source
  }

  /**
   A stage waits for an earlier stage under its name or under its position, but the
   dependency is recorded under the position only for COPY and ADD.
   */
  lemma RecordedExactlyWhen(stages: seq<Stage>, contexts: set<Name>, i: nat, j: nat, r: Reference)
    requires InRange(stages) && DistinctNames(stages) && NumbersArePositions(stages) && j <= i < |stages|
    requires !OutOfRange(stages, r)
    requires Mentioned(r) == stages[j].name || Mentioned(r) == Index(j)
    ensures NeedOf(stages, contexts, i, r) == Some(stages[j].name)
       <==> r != From(SCRATCH) && stages[j].name !in contexts && (r.CopyFrom? || Mentioned(r) == stages[j].name)
  {
    assert stages[j].name in Names(stages, i + 1);
  }

  /** A stage mounted by position is skipped, although a stage that gets built mounts it. */
  lemma MountedByPositionIsSkipped()
    ensures var stages := [Stage(Word("builder"), []), Stage(Index(1), [MountFrom(Index(0))])];
            InRange(stages) && DistinctNames(stages) && Needed(stages, {}, 1) && !Needed(stages, {}, 0)
  {
    var stages := [Stage(Word("builder"), []), Stage(Index(1), [MountFrom(Index(0))])];
    assert InRange(stages);
    var g := NeedsGraph(stages, {});
    GraphAt(stages, {}, 1);
    assert Index(0) !in Names(stages, 2);
    assert NeedsOf(stages, {}, 1, 1) == [];
    assert IsRoute(g, Index(1), Here, Index(1));
    forall r
      ensures !IsRoute(g, Index(1), r, Word("builder"))
    {
    }
  }
}
