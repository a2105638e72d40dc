/**
 VOLUME paths keep their contents across RUN instructions: the cache of volume contents
 for storage drivers without overlay mounts.
 */
module VolumeCache {
  import opened Paths
  import opened PathText

  /** One filesystem object; attr stands for mode and ownership. */
  datatype Node = Node(attr: nat, content: nat)

  type Tree = map<Path, Node>

  const NEW_DIRECTORY: Node := Node(0, 0)

  /** Every object is in a directory that exists. */
  ghost predicate WellFormed(t: Tree) {
    forall p :: p in t && p.Below? ==> p.dir in t
  }

  /** The two trees are the same at v and below it. */
  ghost predicate Agree(a: Tree, b: Tree, v: Path) {
    forall p :: Within(p, v) ==> (p in a <==> p in b) && (p in a ==> a[p] == b[p])
  }

  function Subtree(t: Tree, v: Path): Tree {
    map p | p in t && Within(p, v) :: t[p]
  }

  /** copier.Mkdir: the directory and those above it, where they are missing. */
  function Mkdir(t: Tree, p: Path): Tree {
    var above := if p.Top? then t else Mkdir(t, p.dir);
    if p in above then above else above[p := NEW_DIRECTORY]
  }

  lemma {:induction false} MkdirAdds(t: Tree, p: Path, q: Path)
    ensures q in t ==> q in Mkdir(t, p) && Mkdir(t, p)[q] == t[q]
    ensures q in Mkdir(t, p) <==> q in t || Within(p, q)
  {
    if p.Below? {
      MkdirAdds(t, p.dir, q);
    }
  }

  lemma {:induction false} AncestorsExist(t: Tree, p: Path, q: Path)
    requires WellFormed(t) && p in t && Within(p, q)
    ensures q in t
  {
    if p != q {
      AncestorsExist(t, p.dir, q);
    }
  }

  lemma MkdirWellFormed(t: Tree, p: Path)
    requires WellFormed(t)
    ensures WellFormed(Mkdir(t, p))
  {
    forall q | q in Mkdir(t, p) && q.Below?
      ensures q.dir in Mkdir(t, p)
    {
      MkdirAdds(t, p, q);
      MkdirAdds(t, p, q.dir);
      if q !in t {
        WithinTransitive(p, q, q.dir);
      }
    }
  }

  /** Making a directory that is not below v, or exists, leaves v alone. */
  lemma MkdirLeavesAlone(t: Tree, p: Path, v: Path)
    requires WellFormed(t) && (!Within(p, v) || p in t)
    ensures Agree(t, Mkdir(t, p), v)
  {
    forall q | Within(q, v)
      ensures (q in t <==> q in Mkdir(t, p)) && (q in t ==> t[q] == Mkdir(t, p)[q])
    {
      MkdirAdds(t, p, q);
      if q !in t && Within(p, q) {
        if p in t {
          AncestorsExist(t, p, q);
        } else {
          WithinTransitive(p, q, v);
        }
      }
    }
  }

  // ----------------------------------------------------------------- writing and invalidating

  /** The destination of a COPY or ADD, with or without a slash at its end. */
  datatype Destination = Destination(path: Path, slash: bool)

  /** Which caches volumeCacheInvalidate removes: those of volumes whose path and a slash begin the destination. */
  predicate Invalidates(d: Destination, v: Path) {
    Within(d.path, v) && (d.path != v || d.slash)
  }

  // What the invalidation test looks at is text.

  function DestinationText(d: Destination): string {
    if d.path.Top? then "/" else Text(d.path) + if d.slash then "/" else ""
  }

  /** strings.HasPrefix(path, cachedPath + "/") is the test that Invalidates stands for. */
  lemma InvalidatesIsPrefixTest(d: Destination, v: Path)
    requires NoSlashes(d.path) && NoSlashes(v) && v.Below?
    ensures Text(v) + "/" <= DestinationText(d) <==> Invalidates(d, v)
  {
    SlashAt(v);
    PrefixIsWithin(d.path, v);
    if d.path.Below? && d.slash {
      PrefixBeforeSlash(Text(v), Text(d.path));
      if Text(v) == Text(d.path) {
        TextIsInjective(v, d.path);
      }
    }
  }

  lemma PrefixBeforeSlash(a: string, b: string)
    ensures a + "/" <= b + "/" <==> a == b || a + "/" <= b
  {
    if a + "/" <= b + "/" {
      assert (b + "/")[..|a|] == a && (b + "/")[..|b|] == b;
      assert |a| < |b| ==> (b + "/")[..|a| + 1] == b[..|a| + 1];
    }
  }

  /** Only the destination, what is below it, and missing directories above it change. */
  ghost predicate WritesUnder(t: Tree, t': Tree, dest: Path) {
    && (forall p :: p in t && !Within(p, dest) ==> p in t' && t'[p] == t[p])
    && (forall p :: p in t' && p !in t && !Within(p, dest) ==> Within(dest, p))
  }

  /** A volume that the destination is neither at, nor above, nor below, does not change. */
  lemma WritesLeaveAlone(t: Tree, t': Tree, dest: Path, v: Path)
    requires WellFormed(t) && v in t && WritesUnder(t, t', dest) && !Within(v, dest) && !Within(dest, v)
    ensures Agree(t, t', v)
  {
    forall p | Within(p, v)
      ensures (p in t <==> p in t') && (p in t ==> t[p] == t'[p])
    {
      if Within(p, dest) {
        WithinOneLine(p, v, dest);
      } else if Within(dest, p) {
        WithinTransitive(dest, p, v);
      }
    }
  }

  /** Two directories above the same path are one above the other. */
  lemma {:induction false} WithinOneLine(p: Path, a: Path, b: Path)
    requires Within(p, a) && Within(p, b)
    ensures Within(a, b) || Within(b, a)
  {
    if p != a && p != b {
      WithinOneLine(p.dir, a, b);
    }
  }

  type Files = map<nat, Tree>

  /** Every existing cache file holds what the volume holds now. */
  ghost predicate InSync(t: Tree, cache: map<Path, nat>, files: Files) {
    forall v :: v in cache && cache[v] in files ==> Agree(files[cache[v]], t, v)
  }

  function AfterInvalidation(cache: map<Path, nat>, files: Files, d: Destination): Files {
    map f | f in files && (forall v :: v in cache && cache[v] == f ==> !Invalidates(d, v)) :: files[f]
  }

  /** Volumes exist, and each has a cache file of its own. */
  ghost predicate VolumesExist(t: Tree, cache: map<Path, nat>) {
    && (forall v :: v in cache ==> v in t)
    && (forall v, w :: v in cache && w in cache && cache[v] == cache[w] ==> v == w)
  }

  /**
   After a COPY or ADD the caches are still right, whatever it writes, if and only if no
   volume with a cache file lies at or below the destination, save one that the
   destination names with a slash at its end.
   */
  lemma CopyKeepsSyncExactlyWhen(t: Tree, cache: map<Path, nat>, files: Files, d: Destination)
    requires WellFormed(t) && VolumesExist(t, cache) && InSync(t, cache, files)
    ensures (forall t' :: WritesUnder(t, t', d.path) ==> InSync(t', cache, AfterInvalidation(cache, files, d)))
       <==> (forall v :: v in cache && cache[v] in files && Within(v, d.path) ==> v == d.path && d.slash)
  {
    var files' := AfterInvalidation(cache, files, d);
    if forall v :: v in cache && cache[v] in files && Within(v, d.path) ==> v == d.path && d.slash {
      forall t' | WritesUnder(t, t', d.path)
        ensures InSync(t', cache, files')
      {
        SafeCopyKeepsSync(t, t', cache, files, d);
      }
    } else {
      var v :| v in cache && cache[v] in files && Within(v, d.path) && !(v == d.path && d.slash);
      StaleAfterCopy(t, cache, files, d, v);
    }
  }

  lemma SafeCopyKeepsSync(t: Tree, t': Tree, cache: map<Path, nat>, files: Files, d: Destination)
    requires WellFormed(t) && VolumesExist(t, cache) && InSync(t, cache, files) && WritesUnder(t, t', d.path)
    requires forall v :: v in cache && cache[v] in files && Within(v, d.path) ==> v == d.path && d.slash
    ensures InSync(t', cache, AfterInvalidation(cache, files, d))
  {
    var files' := AfterInvalidation(cache, files, d);
    forall v | v in cache && cache[v] in files'
      ensures Agree(files'[cache[v]], t', v)
    {
      assert !Invalidates(d, v);
      WritesLeaveAlone(t, t', d.path, v);
    }
  }

  /** A volume at or below the destination that is not invalidated can be written to behind its cache. */
  lemma StaleAfterCopy(t: Tree, cache: map<Path, nat>, files: Files, d: Destination, v: Path)
    requires VolumesExist(t, cache) && InSync(t, cache, files)
    requires v in cache && cache[v] in files && Within(v, d.path) && !(v == d.path && d.slash)
    ensures exists t' :: WritesUnder(t, t', d.path) && !InSync(t', cache, AfterInvalidation(cache, files, d))
  {
    var files' := AfterInvalidation(cache, files, d);
    var t' := t[v := Node(t[v].attr, t[v].content + 1)];
    assert !Invalidates(d, v) by {
      if Within(d.path, v) {
        WithinIsNotAbove(v, d.path);
        WithinIsNotAbove(d.path, v);
      }
    }
    assert cache[v] in files' && Agree(files[cache[v]], t, v) && Within(v, v);
    assert !Agree(files'[cache[v]], t', v);
    assert WritesUnder(t, t', d.path);
  }

  // ------------------------------------------------------------------------------ restoring

  /** Remove, Mkdir and Untar: the volume's directory is replaced by the saved one, with the recorded attributes. */
  function Restored(t: Tree, v: Path, saved: Tree, attr: nat): Tree {
    var removed := map p | p in t && !Within(p, v) :: t[p];
    var filled := Mkdir(removed, v) + Subtree(saved, v);
    filled[v := Node(attr, if v in saved then saved[v].content else NEW_DIRECTORY.content)]
  }

  lemma RestoredAt(t: Tree, v: Path, saved: Tree, attr: nat, p: Path)
    requires v in saved && saved[v].attr == attr
    ensures var r := Restored(t, v, saved, attr);
      && (Within(p, v) ==> (p in r <==> p in saved) && (p in r ==> r[p] == saved[p]))
      && (!Within(p, v) ==> (p in r <==> p in t || Within(v, p)) && (p in t ==> r[p] == t[p]))
  {
    var removed := map q | q in t && !Within(q, v) :: t[q];
    MkdirAdds(removed, v, p);
    if Within(p, v) && Within(v, p) {
      WithinIsNotAbove(p, v);
      WithinIsNotAbove(v, p);
    }
  }

  lemma RestoredWellFormed(was: Tree, t: Tree, v: Path, saved: Tree)
    requires WellFormed(t) && WellFormed(was) && v in was && Agree(saved, was, v)
    ensures v in saved && WellFormed(Restored(t, v, saved, was[v].attr))
  {
    assert Within(v, v);
    var r := Restored(t, v, saved, was[v].attr);
    forall p | p in r && p.Below?
      ensures p.dir in r
    {
      RestoredAt(t, v, saved, was[v].attr, p);
      RestoredAt(t, v, saved, was[v].attr, p.dir);
      if Within(p, v) {
        assert p == v ==> Within(v, p.dir);
      } else if p !in t {
        WithinTransitive(v, p, p.dir);
      }
    }
  }

  /** Restoring one volume brings it back, and keeps the volumes that were brought back before. */
  lemma RestoreKeepsOthers(was: Tree, t: Tree, v: Path, saved: Tree, w: Path)
    requires WellFormed(was) && v in was && Agree(saved, was, v) && (w == v || Agree(was, t, w))
    ensures Agree(was, Restored(t, v, saved, was[v].attr), w)
  {
    assert Within(v, v);
    var r := Restored(t, v, saved, was[v].attr);
    forall p | Within(p, w)
      ensures (p in was <==> p in r) && (p in was ==> was[p] == r[p])
    {
      RestoredAt(t, v, saved, was[v].attr, p);
      if !Within(p, v) && Within(v, p) {
        AncestorsExist(was, v, p);
      }
    }
  }

  /** Outside the given paths nothing is lost or changed, and only directories above them come. */
  ghost predicate OutsideStays(t: Tree, t': Tree, vs: set<Path>) {
    forall p :: !Covers(vs, p) ==> (p in t ==> p in t' && t'[p] == t[p]) && (p in t' && p !in t ==> IsAbove(vs, p))
  }

  lemma RestoreStaysInside(was: Tree, t: Tree, t': Tree, v: Path, saved: Tree, vs: set<Path>)
    requires v in was && Agree(saved, was, v) && v in vs && OutsideStays(t, t', vs)
    ensures OutsideStays(t, Restored(t', v, saved, was[v].attr), vs)
  {
    assert Within(v, v);
    forall p | !Covers(vs, p)
      ensures p in t ==> p in Restored(t', v, saved, was[v].attr) && Restored(t', v, saved, was[v].attr)[p] == t[p]
      ensures p in Restored(t', v, saved, was[v].attr) && p !in t ==> IsAbove(vs, p)
    {
      RestoredAt(t', v, saved, was[v].attr, p);
    }
  }

  // --------------------------------------------------------------------------- the executor

  /** What the filesystem and the caches have to do with each other. */
  ghost predicate TreeFits(t: Tree, cache: map<Path, nat>, info: map<Path, nat>, files: Files) {
    && WellFormed(t) && VolumesExist(t, cache) && InSync(t, cache, files)
    && forall v :: v in cache ==> v in info && info[v] == t[v].attr
  }

  /** Cache files are numbered, and every cached path is covered by a volume. */
  ghost predicate BooksFit(volumes: set<Path>, cache: map<Path, nat>, files: Files, preserved: nat) {
    && (forall v :: v in cache ==> cache[v] <= preserved)
    && (forall f :: f in files ==> f <= preserved)
    && volumes <= cache.Keys
    && (forall v :: v in cache ==> Covers(volumes, v)) && NoneBelowAnother(volumes)
  }

  /** Listed volumes are not below each other. */
  ghost predicate NoneBelowAnother(volumes: set<Path>) {
    forall v, w :: v in volumes && w in volumes && Within(v, w) ==> v == w
  }

  /** Volumes that are as they were are still in step with their caches. */
  lemma SameVolumesFit(was: Tree, t: Tree, cache: map<Path, nat>, info: map<Path, nat>, files: Files)
    requires TreeFits(was, cache, info, files) && WellFormed(t)
    requires forall v :: v in cache ==> Agree(was, t, v)
    ensures TreeFits(t, cache, info, files)
  {
    hide WellFormed;
    forall v | v in cache
      ensures v in t && t[v] == was[v]
    {
      assert Agree(was, t, v) && Within(v, v);
    }
    forall v | v in cache && cache[v] in files
      ensures Agree(files[cache[v]], t, v)
    {
      assert Agree(was, t, v) && Agree(files[cache[v]], was, v);
    }
  }

  lemma CopiedTreeFits(t: Tree, t': Tree, cache: map<Path, nat>, info: map<Path, nat>, files: Files, d: Destination)
    requires TreeFits(t, cache, info, files) && WellFormed(t') && WritesUnder(t, t', d.path)
    requires IsSafe(t, t', cache, d)
    ensures TreeFits(t', cache, info, AfterInvalidation(cache, files, d))
  {
    SafeCopyKeepsSync(t, t', cache, files, d);
  }

  lemma FewerFilesFit(volumes: set<Path>, cache: map<Path, nat>, files: Files, d: Destination, preserved: nat)
    requires BooksFit(volumes, cache, files, preserved)
    ensures BooksFit(volumes, cache, AfterInvalidation(cache, files, d), preserved)
  {
    hide Covers;
  }

  lemma MoreFilesFit(volumes: set<Path>, cache: map<Path, nat>, files: Files, v: Path, saved: Tree, preserved: nat)
    requires BooksFit(volumes, cache, files, preserved) && v in cache
    ensures BooksFit(volumes, cache, files[cache[v] := saved], preserved)
  {
    hide Covers;
  }

  lemma CopyLeavesOthersAlone(t: Tree, t': Tree, cache: map<Path, nat>,
    info: map<Path, nat>, files: Files, d: Destination)
    requires TreeFits(t, cache, info, files) && WritesUnder(t, t', d.path)
    ensures forall v :: v in cache && !Within(d.path, v) && !Within(v, d.path) ==> Agree(t, t', v)
  {
    forall v | v in cache && !Within(d.path, v) && !Within(v, d.path)
      ensures Agree(t, t', v)
    {
      assert Within(v, v);
      WritesLeaveAlone(t, t', d.path, v);
    }
  }

  /** Saving a volume that has no cache file yet. */
  lemma SavedTreeFits(t: Tree, cache: map<Path, nat>, info: map<Path, nat>, files: Files, v: Path)
    requires TreeFits(t, cache, info, files) && v in cache
    ensures TreeFits(t, cache, info, files[cache[v] := Subtree(t, v)])
  {
    assert Agree(Subtree(t, v), t, v);
  }

  /** Directories made for a path that no volume covers, or that exists, change no volume. */
  lemma MkdirFits(t: Tree, cache: map<Path, nat>, info: map<Path, nat>, files: Files, p: Path)
    requires TreeFits(t, cache, info, files) && forall v :: v in cache ==> !Within(p, v) || p in t
    ensures TreeFits(Mkdir(t, p), cache, info, files)
  {
    MkdirWellFormed(t, p);
    forall v | v in cache
      ensures Agree(t, Mkdir(t, p), v)
    {
      MkdirLeavesAlone(t, p, v);
    }
    SameVolumesFit(t, Mkdir(t, p), cache, info, files);
  }

  /** A directory made below a volume costs that volume its cache file. */
  lemma MkdirBelowFits(t: Tree, cache: map<Path, nat>, info: map<Path, nat>, files: Files, d: Destination)
    requires TreeFits(t, cache, info, files)
    ensures TreeFits(Mkdir(t, d.path), cache, info, AfterInvalidation(cache, files, d))
  {
    var t', files' := Mkdir(t, d.path), AfterInvalidation(cache, files, d);
    MkdirWellFormed(t, d.path);
    forall v | v in cache
      ensures v in t' && t'[v] == t[v]
    {
      MkdirAdds(t, d.path, v);
    }
    forall v | v in cache && cache[v] in files'
      ensures Agree(files'[cache[v]], t', v)
    {
      assert !Invalidates(d, v) && Agree(files[cache[v]], t, v);
      MkdirLeavesAlone(t, d.path, v);
    }
  }

  lemma UncoveredIsOutside(volumes: set<Path>, cache: map<Path, nat>, files: Files, preserved: nat, p: Path)
    requires BooksFit(volumes, cache, files, preserved) && !Covers(volumes, p)
    ensures forall v :: v in cache ==> !Within(p, v)
    ensures p !in cache && preserved + 1 !in files && forall v :: v in cache ==> cache[v] != preserved + 1
  {
    forall v | v in cache
      ensures !Within(p, v)
    {
      if Within(p, v) {
        var w :| w in volumes && Within(v, w);
        WithinTransitive(p, v, w);
      }
    }
    assert Within(p, p);
  }

  /** A new volume, which has no cache file yet. */
  lemma NewVolumeFits(t: Tree, cache: map<Path, nat>, info: map<Path, nat>, files: Files, p: Path, f: nat)
    requires TreeFits(t, cache, info, files) && p in t && p !in cache && f !in files
    requires forall v :: v in cache ==> cache[v] != f
    ensures TreeFits(t, cache[p := f], info[p := t[p].attr], files)
  {
  }

  /** Forgetting a volume together with its cache file. */
  lemma ForgottenFits(t: Tree, cache: map<Path, nat>, info: map<Path, nat>, files: Files, v: Path)
    requires TreeFits(t, cache, info, files) && v in cache
    ensures TreeFits(t, cache - {v}, info, files - {cache[v]})
  {
  }

  /** VolumeSet.Add of a path that no volume covers: it takes the place of the volumes below it. */
  function TakenOver(volumes: set<Path>, p: Path): set<Path> {
    (set v | v in volumes && !Within(v, p)) + {p}
  }

  lemma TakenOverIsCovered(volumes: set<Path>, p: Path)
    ensures forall v :: Covers(volumes, v) ==> Covers(TakenOver(volumes, p), v)
    ensures Covers(TakenOver(volumes, p), p)
  {
    var volumes' := TakenOver(volumes, p);
    forall v | Covers(volumes, v)
      ensures Covers(volumes', v)
    {
      var w :| w in volumes && Within(v, w);
      if Within(w, p) {
        WithinTransitive(v, w, p);
        assert p in volumes' && Within(v, p);
      } else {
        assert w in volumes' && Within(v, w);
      }
    }
    assert p in volumes' && Within(p, p);
  }

  lemma NewVolumeCovers(volumes: set<Path>, cache: map<Path, nat>, files: Files, preserved: nat, p: Path)
    requires BooksFit(volumes, cache, files, preserved) && !Covers(volumes, p)
    ensures BooksFit(TakenOver(volumes, p), cache[p := preserved + 1], files, preserved + 1)
  {
    assert NoneBelowAnother(TakenOver(volumes, p));
    hide NoneBelowAnother;
    hide Covers;
    hide TakenOver;
    TakenOverIsCovered(volumes, p);
    TakenOverIsSmall(volumes, p);
  }

  lemma TakenOverIsSmall(volumes: set<Path>, p: Path)
    ensures TakenOver(volumes, p) <= volumes + {p}
  {
  }

  // ------------------------------------------------------------------------- whole stages

  /** An instruction, with whatever it does to the filesystem. */
  datatype Instruction = Volume(d: Destination) | RunCommand(effect: Tree -> Tree)
                         | CopyTo(d: Destination, effect: Tree -> Tree)

  ghost predicate IsEffect(i: Instruction) {
    match i
    case Volume(_) => true
    case RunCommand(effect) => forall t :: WellFormed(t) ==> WellFormed(effect(t))
    case CopyTo(d, effect) => forall t :: WellFormed(t) ==> WellFormed(effect(t)) && WritesUnder(t, effect(t), d.path)
  }

  /**
   The instruction does not copy to a path in vs, or to a directory above one, save to such
   a path with a slash at its end, whose directory it leaves in place.
   */
  ghost predicate SparesAbove(i: Instruction, vs: set<Path>) {
    i.CopyTo? ==> forall v :: v in vs && Within(v, i.d.path) ==>
      v == i.d.path && i.d.slash && KeepsDirectory(i.effect, v)
  }

  /** The directory itself stays, with its attributes. */
  ghost predicate KeepsDirectory(effect: Tree -> Tree, v: Path) {
    forall t: Tree :: v in t ==> v in effect(t) && effect(t)[v].attr == t[v].attr
  }

  function Declared(steps: seq<Instruction>): set<Path> {
    set k | 0 <= k < |steps| && steps[k].Volume? :: steps[k].d.path
  }

  /** Nothing is copied to v, below it or above it, and no VOLUME is declared below it. */
  predicate SparesAt(i: Instruction, v: Path) {
    match i
    case Volume(d) => !Within(d.path, v)
    case RunCommand(_) => true
    case CopyTo(d, _) => !Within(d.path, v) && !Within(v, d.path)
  }

  /** So it is for the steps from j up to l. */
  ghost predicate AllSpareAt(steps: seq<Instruction>, j: nat, l: nat, v: Path) {
    forall k :: j <= k < l && k < |steps| ==> SparesAt(steps[k], v)
  }

  lemma DeclaredGrows(steps: seq<Instruction>, k: nat)
    requires k < |steps|
    ensures Declared(steps[..k + 1]) == Declared(steps[..k]) + Declared([steps[k]])
  {
    var a, b, c := Declared(steps[..k + 1]), Declared(steps[..k]), Declared([steps[k]]);
    forall p | p in a
      ensures p in b + c
    {
      var j :| 0 <= j < k + 1 && steps[..k + 1][j].Volume? && steps[..k + 1][j].d.path == p;
      if j == k {
        assert [steps[k]][0].d.path == p;
      } else {
        assert steps[..k][j].d.path == p;
      }
    }
    forall p | p in b
      ensures p in a
    {
      var j :| 0 <= j < k && steps[..k][j].Volume? && steps[..k][j].d.path == p;
      assert steps[..k + 1][j].d.path == p;
    }
    assert steps[k].Volume? ==> steps[..k + 1][k].d.path in a;
  }

  /** What a RUN did outside the volumes is there; besides, there are only directories above volumes. */
  ghost predicate RanOutside(result: Tree, t: Tree, volumes: set<Path>) {
    forall p :: !Covers(volumes, p) ==>
      && (p in result ==> p in t && t[p] == result[p])
      && (p in t && p !in result ==> IsAbove(volumes, p))
  }

  predicate IsAbove(volumes: set<Path>, p: Path) {
    exists v :: v in volumes && Within(v, p)
  }

  /** The step did what it is for. */
  ghost predicate Happened(i: Instruction, t: Tree, t': Tree, volumes: set<Path>) {
    match i
    case Volume(d) => t' == Mkdir(t, d.path) && d.path in t' && Covers(volumes, d.path)
    case RunCommand(effect) => RanOutside(effect(t), t', volumes)
    case CopyTo(_, effect) => t' == effect(t)
  }

  /** The destination is not at a cached volume or above it, save with a slash and leaving the directory in place. */
  ghost predicate IsSafe(t: Tree, t': Tree, cache: map<Path, nat>, d: Destination) {
    forall v :: v in cache && Within(v, d.path) ==>
      v == d.path && d.slash && v in t && v in t' && t'[v].attr == t[v].attr
  }

  lemma AgreeTransitive(a: Tree, b: Tree, c: Tree, v: Path)
    requires Agree(a, b, v) && Agree(b, c, v)
    ensures Agree(a, c, v)
  {
  }

  lemma {:induction false} AgreeBelow(a: Tree, b: Tree, w: Path, v: Path)
    requires Agree(a, b, w) && Within(v, w)
    ensures Agree(a, b, v)
  {
    forall p | Within(p, v)
      ensures Within(p, w)
    {
      WithinTransitive(p, v, w);
    }
  }

  class StageVolumes {
    var tree: Tree
    var volumes: set<Path>
    var volumeCache: map<Path, nat>
    var volumeCacheInfo: map<Path, nat>
    var files: Files
    var preserved: nat

    ghost predicate Valid()
      reads this
    {
      TreeFits(tree, volumeCache, volumeCacheInfo, files) && BooksFit(volumes, volumeCache, files, preserved)
    }

    constructor (tree: Tree)
      requires WellFormed(tree)
      ensures Valid() && this.tree == tree && volumeCache == map[]
    {
      this.tree := tree;
      volumes, volumeCache, volumeCacheInfo, files, preserved := {}, map[], map[], map[], 0;
    }

    /** volumeCacheInvalidate */
    method Invalidate(d: Destination)
      modifies this`files
      ensures files == AfterInvalidation(volumeCache, old(files), d)
    {
      var todo := set v | v in volumeCache && Invalidates(d, v);
      var gone := {};
      while todo != {}
        invariant todo <= volumeCache.Keys
        invariant files == map f | f in old(files) && f !in gone :: old(files)[f]
        invariant forall v :: v in volumeCache && Invalidates(d, v) ==> v in todo || volumeCache[v] in gone
        invariant forall f :: f in gone ==> exists v :: v in volumeCache && volumeCache[v] == f && Invalidates(d, v)
        invariant forall v :: v in todo ==> Invalidates(d, v)
        decreases todo
      {
        var v :| v in todo;
        files := files - {volumeCache[v]};
        gone := gone + {volumeCache[v]};
        todo := todo - {v};
      }
    }

    /** The part of Preserve that drops the caches of volumes which a new volume has taken over. */
    method Prune()
      requires Valid()
      modifies this`volumeCache, this`files
      ensures Valid() && volumes <= volumeCache.Keys <= old(volumeCache).Keys
      ensures forall v :: v in volumeCache ==> volumeCache[v] == old(volumeCache)[v]
      ensures forall v :: v in volumeCache && v !in volumes ==> volumeCache[v] !in files
    {
      hide TreeFits;
      hide Covers;
      var todo := set v | v in volumeCache && v !in volumes;
      while todo != {}
        invariant Valid() && volumeCache.Keys <= old(volumeCache).Keys
        invariant forall v :: v in volumeCache ==> volumeCache[v] == old(volumeCache)[v]
        invariant forall v :: v in todo ==> v in volumeCache && v !in volumes
        invariant forall v :: v in volumeCache && v !in volumes && v !in todo ==> volumeCache[v] !in files
        decreases todo
      {
        var v :| v in todo;
        todo := todo - {v};
        if volumeCache[v] !in files {
          continue;
        }
        ForgottenFits(tree, volumeCache, volumeCacheInfo, files, v);
        files := files - {volumeCache[v]};
        volumeCache := volumeCache - {v};
      }
    }

    /**
     Preserve. A path that is covered only has to exist, at the price of the caches above
     it; any other path becomes a volume. Existing volumes keep what they hold.
     */
    method Preserve(d: Destination)
      requires Valid()
      modifies this
      ensures Valid() && tree == Mkdir(old(tree), d.path)
      ensures Covers(volumes, d.path)
      ensures volumeCache.Keys <= old(volumeCache.Keys) + {d.path}
      ensures forall v :: old(Covers(volumes, v)) ==> Covers(volumes, v)
      ensures !old(Covers(volumes, d.path)) ==> d.path in volumes && d.path in volumeCache
    {
      hide TreeFits;
      hide BooksFit;
      hide AfterInvalidation;
      if Covers(volumes, d.path) {
        MkdirBelowFits(tree, volumeCache, volumeCacheInfo, files, d);
        FewerFilesFit(volumes, volumeCache, files, d, preserved);
        tree := Mkdir(tree, d.path);
        Invalidate(d);
        return;
      }
      TakenOverIsCovered(volumes, d.path);
      NewVolume(d.path);
      Prune();
      assert Within(d.path, d.path);
    }

    /** The part of Preserve that takes up a path which no volume covers. */
    method NewVolume(path: Path)
      requires Valid() && !Covers(volumes, path)
      modifies this
      ensures Valid() && tree == Mkdir(old(tree), path)
      ensures volumes == TakenOver(old(volumes), path)
      ensures volumeCache.Keys == old(volumeCache.Keys) + {path}
    {
      hide TreeFits;
      hide BooksFit;
      hide Covers;
      UncoveredIsOutside(volumes, volumeCache, files, preserved, path);
      MkdirFits(tree, volumeCache, volumeCacheInfo, files, path);
      MkdirAdds(tree, path, path);
      NewVolumeCovers(volumes, volumeCache, files, preserved, path);
      NewVolumeFits(Mkdir(tree, path), volumeCache, volumeCacheInfo, files, path, preserved + 1);
      preserved := preserved + 1;
      tree := Mkdir(tree, path);
      volumeCacheInfo := volumeCacheInfo[path := tree[path].attr];
      volumes := TakenOver(volumes, path);
      volumeCache := volumeCache[path := preserved];
    }

    /** volumeCacheSaveVFS: afterwards every volume has a cache file. */
    method Save()
      requires Valid()
      modifies this`files
      ensures Valid()
      ensures forall v :: v in volumeCache ==> volumeCache[v] in files
    {
      hide TreeFits;
      hide BooksFit;
      var todo := volumeCache.Keys;
      while todo != {}
        invariant todo <= volumeCache.Keys && Valid()
        invariant forall v :: v in volumeCache && v !in todo ==> volumeCache[v] in files
        decreases todo
      {
        var v :| v in todo;
        if volumeCache[v] !in files {
          SavedTreeFits(tree, volumeCache, volumeCacheInfo, files, v);
          MoreFilesFit(volumes, volumeCache, files, v, Subtree(tree, v), preserved);
          files := files[volumeCache[v] := Subtree(tree, v)];
        }
        todo := todo - {v};
      }
    }

    /** volumeCacheRestoreVFS: every volume is again what it was when it was saved. */
    method Restore(ghost was: Tree)
      requires WellFormed(tree) && TreeFits(was, volumeCache, volumeCacheInfo, files)
      requires forall v :: v in volumeCache ==> volumeCache[v] in files
      modifies this`tree
      ensures WellFormed(tree)
      ensures forall v :: v in volumeCache ==> Agree(was, tree, v)
      ensures OutsideStays(old(tree), tree, volumeCache.Keys)
    {
      var todo := volumeCache.Keys;
      while todo != {}
        invariant todo <= volumeCache.Keys && WellFormed(tree)
        invariant OutsideStays(old(tree), tree, volumeCache.Keys)
        invariant forall v :: v in volumeCache && v !in todo ==> Agree(was, tree, v)
        decreases todo
      {
        var v :| v in todo;
        ghost var before := tree;
        RestoredWellFormed(was, tree, v, files[volumeCache[v]]);
        tree := Restored(tree, v, files[volumeCache[v]], volumeCacheInfo[v]);
        forall w | w in volumeCache && (w == v || w !in todo)
          ensures Agree(was, tree, w)
        {
          RestoreKeepsOthers(was, before, v, files[volumeCache[v]], w);
        }
        RestoreStaysInside(was, old(tree), before, v, files[volumeCache[v]], volumeCache.Keys);
        todo := todo - {v};
      }
    }

    /**
     Run: the command changes the tree in any way at all, and every preserved volume is
     afterwards what it was before.
     */
    method Run(result: Tree)
      requires Valid() && WellFormed(result)
      modifies this`tree, this`files
      ensures Valid()
      ensures forall v :: v in volumeCache ==> Agree(old(tree), tree, v)
      ensures OutsideStays(result, tree, volumeCache.Keys)
    {
      hide TreeFits;
      hide BooksFit;
      hide Agree;
      hide WellFormed;
      hide OutsideStays;
      Save();
      ghost var was := tree;
      tree := result;
      Restore(was);
      SameVolumesFit(was, tree, volumeCache, volumeCacheInfo, files);
    }

    /**
     Copy. The caches that it invalidates are gone; the others are still right if the
     destination is safe.
     */
    method Copy(d: Destination, result: Tree)
      requires Valid() && WellFormed(result) && WritesUnder(tree, result, d.path)
      modifies this`tree, this`files
      ensures tree == result && files == AfterInvalidation(volumeCache, old(files), d)
      ensures BooksFit(volumes, volumeCache, files, preserved)
      ensures IsSafe(old(tree), result, volumeCache, d) ==> Valid()
      ensures forall v :: v in volumeCache && !Within(d.path, v) && !Within(v, d.path) ==> Agree(old(tree), tree, v)
    {
      hide TreeFits;
      hide BooksFit;
      hide AfterInvalidation;
      hide WritesUnder;
      hide WellFormed;
      hide Agree;
      hide IsSafe;
      if IsSafe(tree, result, volumeCache, d) {
        CopiedTreeFits(tree, result, volumeCache, volumeCacheInfo, files, d);
      }
      CopyLeavesOthersAlone(tree, result, volumeCache, volumeCacheInfo, files, d);
      FewerFilesFit(volumes, volumeCache, files, d, preserved);
      Invalidate(d);
      tree := result;
    }

    /** Covered paths come through a RUN as they are, also those taken over by a volume above them. */
    method RunKeepsCovered(result: Tree)
      requires Valid() && WellFormed(result)
      modifies this`tree, this`files
      ensures Valid()
      ensures forall v :: Covers(volumes, v) ==> Agree(old(tree), tree, v)
      ensures RanOutside(result, tree, volumes)
    {
      hide TreeFits;
      hide Agree;
      hide WellFormed;
      Run(result);
      OutsideVolumes(result, tree, volumes, volumeCache, files, preserved);
      hide RanOutside;
      hide OutsideStays;
      forall v | Covers(volumes, v)
        ensures Agree(old(tree), tree, v)
      {
        var w :| w in volumes && Within(v, w);
        AgreeBelow(old(tree), tree, w, v);
      }
    }

    ghost predicate Spared(t: Tree, v: Path)
      reads this
    {
      v in t && Covers(volumes, v)
    }

    /**
     One instruction: a VOLUME's path is covered afterwards, and a volume that is not copied
     into keeps what it holds.
     */
    method ExecuteOne(i: Instruction)
      requires Valid() && IsEffect(i) && SparesAbove(i, volumeCache.Keys)
      modifies this
      ensures Valid() && volumeCache.Keys <= old(volumeCache.Keys) + Declared([i])
      ensures Happened(i, old(tree), tree, volumes)
      ensures forall v :: old(Spared(tree, v)) && SparesAt(i, v) ==> Spared(tree, v) && Agree(old(tree), tree, v)
    {
      hide BooksFit;
      hide InSync;
      hide VolumesExist;
      hide Covers;
      hide RanOutside;
      match i {
        case Volume(d) =>
          assert d.path in Declared([i]) by { assert [i][0] == i; }
          MkdirSpares(tree, d.path);
          MkdirAdds(tree, d.path, d.path);
          assert Within(d.path, d.path);
          Preserve(d);
        case RunCommand(effect) =>
          RunKeepsCovered(effect(tree));
          assert forall v :: Within(v, v);
        case CopyTo(d, effect) =>
          CopySpares(tree, effect(tree), d.path);
          assert IsSafe(tree, effect(tree), volumeCache, d) by { SparedIsSafe(tree, volumeCache, i); }
          Copy(d, effect(tree));
      }
    }

    /**
     Every sequence of VOLUME, RUN, COPY and ADD in which no destination is a path that was
     preserved by then, or above one. trees and covered hold the tree and the volumes before
     each step and at the end. The caches stay in step. From the step that declares it on, a
     volume only changes by COPY, ADD and VOLUME, whatever the RUN instructions do.
     */
    method ExecuteAll(steps: seq<Instruction>) returns (ghost trees: seq<Tree>, ghost covered: seq<set<Path>>)
      requires Valid()
      requires forall k :: 0 <= k < |steps| ==>
        IsEffect(steps[k]) && SparesAbove(steps[k], volumeCache.Keys + Declared(steps[..k]))
      modifies this
      ensures Valid() && volumeCache.Keys <= old(volumeCache.Keys) + Declared(steps)
      ensures |trees| == |covered| == |steps| + 1
      ensures trees[0] == old(tree) && trees[|steps|] == tree
      ensures covered[0] == old(volumes) && covered[|steps|] == volumes
      ensures forall k :: 0 <= k < |steps| ==> Happened(steps[k], trees[k], trees[k + 1], covered[k + 1])
      ensures forall j, l, v ::
        0 <= j <= l <= |steps| && v in trees[j] && Covers(covered[j], v) && AllSpareAt(steps, j, l, v) ==>
        Covers(covered[l], v) && Agree(trees[j], trees[l], v)
    {
      hide TreeFits;
      hide BooksFit;
      hide IsEffect;
      hide SparesAbove;
      hide Agree;
      hide Covers;
      hide Happened;
      trees, covered := [tree], [volumes];
      assert forall v :: Agree(tree, tree, v) by { AgreeItself(tree); }
      for k := 0 to |steps|
        invariant Valid() && volumeCache.Keys <= old(volumeCache.Keys) + Declared(steps[..k])
        invariant |trees| == |covered| == k + 1
        invariant trees[0] == old(tree) && trees[k] == tree && covered[0] == old(volumes) && covered[k] == volumes
        invariant forall j :: 0 <= j < k ==> Happened(steps[j], trees[j], trees[j + 1], covered[j + 1])
        invariant Kept(steps, trees, covered)
      {
        assert SparesAbove(steps[k], volumeCache.Keys) by {
          SparesFewer(steps[k], volumeCache.Keys, old(volumeCache.Keys) + Declared(steps[..k]));
        }
        ghost var before, had := tree, volumes;
        ExecuteOne(steps[k]);
        DeclaredGrows(steps, k);
        OneMoreKept(steps, trees, covered, tree, volumes);
        trees, covered := trees + [tree], covered + [volumes];
      }
      assert steps[..|steps|] == steps;
    }
  }

  /** Along the trees so far, a covered path that the steps spare stays covered and keeps what it holds. */
  ghost predicate Kept(steps: seq<Instruction>, trees: seq<Tree>, covered: seq<set<Path>>) {
    && |trees| == |covered|
    && forall j, l, v ::
      0 <= j <= l < |trees| && v in trees[j] && Covers(covered[j], v) && AllSpareAt(steps, j, l, v) ==>
      v in trees[l] && Covers(covered[l], v) && Agree(trees[j], trees[l], v)
  }

  lemma OneMoreKept(steps: seq<Instruction>, trees: seq<Tree>, covered: seq<set<Path>>, t: Tree, volumes: set<Path>)
    requires Kept(steps, trees, covered) && 0 < |trees| <= |steps|
    requires var k := |trees| - 1;
      forall v :: v in trees[k] && Covers(covered[k], v) && SparesAt(steps[k], v) ==>
        v in t && Covers(volumes, v) && Agree(trees[k], t, v)
    ensures Kept(steps, trees + [t], covered + [volumes])
  {
    hide Agree;
    hide Covers;
    var k := |trees| - 1;
    var trees', covered' := trees + [t], covered + [volumes];
    forall j, l, v | 0 <= j <= l < |trees'| && v in trees'[j] && Covers(covered'[j], v) && AllSpareAt(steps, j, l, v)
      ensures v in trees'[l] && Covers(covered'[l], v) && Agree(trees'[j], trees'[l], v)
    {
      if l < |trees| {
        assert trees'[j] == trees[j] && trees'[l] == trees[l];
      } else if j == l {
        AgreeItself(t);
      } else {
        assert AllSpareAt(steps, j, k, v) && SparesAt(steps[k], v);
        AgreeTransitive(trees[j], trees[k], t, v);
      }
    }
  }

  lemma SparesFewer(i: Instruction, vs: set<Path>, ws: set<Path>)
    requires SparesAbove(i, ws) && vs <= ws
    ensures SparesAbove(i, vs)
  {
  }

  lemma SparedIsSafe(t: Tree, cache: map<Path, nat>, i: Instruction)
    requires i.CopyTo? && SparesAbove(i, cache.Keys) && VolumesExist(t, cache)
    ensures IsSafe(t, i.effect(t), cache, i.d)
  {
  }

  lemma AgreeItself(t: Tree)
    ensures forall v :: Agree(t, t, v)
  {
  }

  lemma MkdirSpares(t: Tree, p: Path)
    requires WellFormed(t)
    ensures forall v :: v in t && !Within(p, v) ==> v in Mkdir(t, p) && Agree(t, Mkdir(t, p), v)
  {
    forall v | v in t && !Within(p, v)
      ensures v in Mkdir(t, p) && Agree(t, Mkdir(t, p), v)
    {
      MkdirLeavesAlone(t, p, v);
      assert Within(v, v);
    }
  }

  lemma CopySpares(t: Tree, t': Tree, dest: Path)
    requires WellFormed(t) && WritesUnder(t, t', dest)
    ensures forall v :: v in t && !Within(v, dest) && !Within(dest, v) ==> v in t' && Agree(t, t', v)
  {
    forall v | v in t && !Within(v, dest) && !Within(dest, v)
      ensures v in t' && Agree(t, t', v)
    {
      WritesLeaveAlone(t, t', dest, v);
      assert Within(v, v);
    }
  }

  /** Every cached path is below a volume, so what is outside the volumes is outside the caches. */
  lemma OutsideVolumes(t: Tree, t': Tree, volumes: set<Path>, cache: map<Path, nat>, files: Files, preserved: nat)
    requires BooksFit(volumes, cache, files, preserved) && OutsideStays(t, t', cache.Keys)
    ensures RanOutside(t, t', volumes)
  {
    forall p | !Covers(volumes, p)
      ensures !Covers(cache.Keys, p) && (IsAbove(cache.Keys, p) ==> IsAbove(volumes, p))
    {
      UncoveredIsOutside(volumes, cache, files, preserved, p);
      if IsAbove(cache.Keys, p) {
        var v :| v in cache && Within(v, p);
        var w :| w in volumes && Within(v, w);
        WithinOneLine(v, p, w);
      }
    }
  }

  /** VolumeSet.Covers */
  predicate Covers(volumes: set<Path>, p: Path) {
    exists v :: v in volumes && Within(p, v)
  }
}
