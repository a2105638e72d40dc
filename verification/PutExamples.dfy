/**
 Archives whose extraction does not come to what their headers say: what is noted for a
 directory is set on what is there at the end, through symbolic links, and not at all where
 an unprivileged extractor can not get to.
 */
module PutExamples {
  import opened Optional
  import opened Paths
  import opened FileTree
  import opened SymlinkResolution
  import opened CopierPut
  import opened ModeSetting
  import opened PutModes
  import opened CopierGet
  import opened CopierRoundTrip

  const ROOT: Request := Request(Top, PLAIN, true)

  function Named(name: string): Raw {
    Seg(Name(name), End)
  }

  /** A tree with nothing below the top but those. */
  predicate IsFlat(t: Tree, names: set<Path>) {
    t.nodes.Keys == {Top} + names && IsDirectory(t, Top) && forall p :: p in names ==> p.Below? && p.dir.Top?
  }

  lemma FlatIsClosed(t: Tree, names: set<Path>)
    requires IsFlat(t, names)
    ensures Closed(t)
  {
  }

  lemma FlatName(e: Entry, name: string)
    requires e.name == Named(name)
    ensures PathOf(ROOT, e) == Below(Top, name)
  {
    assert Join(Top, e.name) == Below(Top, name);
    GraftOnTop(Below(Top, name));
  }

  /** A directory that is new. */
  lemma PutsFlatDirectory(s: State, name: string, m: Mode, names: set<Path>)
    requires IsFlat(s.tree, names) && Below(Top, name) !in names
    ensures var p := Below(Top, name);
            && PutEntry(ROOT, s, Entry(Named(name), Dir, m)) ==
              Next(State(s.tree.(nodes := s.tree.nodes[p := Directory(m)]), s.modes[p := m], s.ignored))
            && IsFlat(PutEntry(ROOT, s, Entry(Named(name), Dir, m)).state.tree, names + {p})
  {
    var p := Below(Top, name);
    FlatName(Entry(Named(name), Dir, m), name);
    assert EnsureDirectory(ROOT, s, Top) == Next(s);
    assert s.tree.nodes[p := Directory(SCRATCH_DIRECTORY)][p := Directory(m)] == s.tree.nodes[p := Directory(m)];
  }

  /** A file or a symbolic link, in place of what was there. */
  lemma PutsFlatFile(s: State, name: string, content: string, m: Mode, names: set<Path>)
    requires IsFlat(s.tree, names) && s.ignored == {}
    ensures var p, e := Below(Top, name), Entry(Named(name), RegularFile(content), m);
            var step, next := PutEntry(ROOT, s, e), s.tree.next;
            && step.Next? && step.state.modes == s.modes && step.state.ignored == {}
            && IsFlat(step.state.tree, names + {p}) && step.state.tree.next == next + 1
            && step.state.tree.nodes == s.tree.nodes[p := Leaf(next)]
            && step.state.tree.objects == s.tree.objects[next := Regular(content, m)]
  {
    FlatName(Entry(Named(name), RegularFile(content), m), name);
    CreatesFlatFile(s, name, content, names);
    hide CreateFile;
  }

  lemma CreatesFlatFile(s: State, name: string, content: string, names: set<Path>)
    requires IsFlat(s.tree, names)
    ensures var p, next := Below(Top, name), s.tree.next;
            CreateFile(ROOT, s, p, content) == Next(s.(tree :=
              Tree(s.tree.nodes[p := Leaf(next)], s.tree.objects[next := Regular(content, SCRATCH_FILE)], next + 1)))
  {
    var p := Below(Top, name);
    if p in s.tree.nodes {
      ClearsFlatly(s.tree, p, names);
      hide RemoveAll;
      assert (s.tree.nodes - {p})[p := Leaf(s.tree.next)] == s.tree.nodes[p := Leaf(s.tree.next)];
    }
  }

  lemma PutsFlatLink(s: State, name: string, target: Raw, m: Mode, names: set<Path>)
    requires IsFlat(s.tree, names) && s.ignored == {}
    ensures var p, e := Below(Top, name), Entry(Named(name), SymbolicLink(target), m);
            var step, next := PutEntry(ROOT, s, e), s.tree.next;
            && step.Next? && step.state.modes == s.modes && step.state.ignored == {}
            && IsFlat(step.state.tree, names + {p}) && step.state.tree.next == next + 1
            && step.state.tree.nodes == s.tree.nodes[p := Leaf(next)]
            && step.state.tree.objects == s.tree.objects[next := Symlink(target)]
  {
    var p := Below(Top, name);
    FlatName(Entry(Named(name), SymbolicLink(target), m), name);
    assert EnsureDirectory(ROOT, s, Top) == Next(s);
    if p in s.tree.nodes {
      ClearsFlatly(s.tree, p, names);
    }
    hide RemoveAll;
  }

  lemma ClearsFlatly(t: Tree, p: Path, names: set<Path>)
    requires IsFlat(t, names) && p in names
    ensures RemoveAll(t, p, true) == Done(t.(nodes := t.nodes - {p}))
  {
    assert forall q :: q in t.nodes ==> (Within(q, p) <==> q == p);
    assert (map q | q in t.nodes && !Within(q, p) :: t.nodes[q]) == t.nodes - {p};
  }

  lemma BeginsEmpty(top: Mode)
    ensures WellFormed(EmptyDirectory(top)) && IsFlat(EmptyDirectory(top), {})
    ensures Begin(ROOT, EmptyDirectory(top)) == Next(State(EmptyDirectory(top), map[], {}))
  {
  }

  lemma TwoEntries(s: State, es: seq<Entry>)
    requires |es| == 2 && PutEntry(ROOT, s, es[0]).Next?
    ensures PutEntries(ROOT, s, es, 2) == PutEntry(ROOT, PutEntry(ROOT, s, es[0]).state, es[1])
  {
    NoEntry(ROOT, s, es);
    NextEntry(ROOT, s, es, 1);
    NextEntry(ROOT, s, es, 2);
    hide *;
  }

  lemma ThreeEntries(s: State, es: seq<Entry>)
    requires |es| == 3 && PutEntry(ROOT, s, es[0]).Next?
    requires PutEntry(ROOT, PutEntry(ROOT, s, es[0]).state, es[1]).Next?
    ensures PutEntries(ROOT, s, es, 3) ==
      PutEntry(ROOT, PutEntry(ROOT, PutEntry(ROOT, s, es[0]).state, es[1]).state, es[2])
  {
    NoEntry(ROOT, s, es);
    NextEntry(ROOT, s, es, 1);
    NextEntry(ROOT, s, es, 2);
    NextEntry(ROOT, s, es, 3);
    hide *;
  }

  /** A name leads to what has it, or through a symbolic link to what that names. */
  lemma LeadsFlatly(t: Tree, names: set<Path>, a: string, b: string)
    requires IsFlat(t, names) && Below(Top, b) in names && Below(Top, b) !in SymlinksOf(t)
    requires Below(Top, a) in SymlinksOf(t) && SymlinksOf(t)[Below(Top, a)] == Named(b)
    ensures Find(OutlineOf(t, true), Below(Top, a)) == Some(Below(Top, b))
    ensures Find(OutlineOf(t, true), Below(Top, b)) == Some(Below(Top, b))
  {
    var o := OutlineOf(t, true);
    SplitName(a, End);
    SplitName(b, End);
    LocatesFlatly(o, b, MAX_SYMLINKS);
    LocatesFlatly(o, b, MAX_SYMLINKS - 1);
    LocatesThroughLink(o, a, b, MAX_SYMLINKS);
    hide SymlinksOf;
    hide Split;
    hide Locate;
  }

  lemma LocatesFlatly(o: Outline, b: string, budget: nat)
    requires Top in o.passable && Below(Top, b) in o.names && Below(Top, b) !in o.links
    ensures Locate(o, Top, Named(b), budget) == Some(Below(Top, b))
  {
    assert Locate(o, Below(Top, b), End, budget) == Some(Below(Top, b));
  }

  lemma LocatesThroughLink(o: Outline, a: string, b: string, budget: nat)
    requires Top in o.passable && Below(Top, a) in o.links && o.links[Below(Top, a)] == Named(b) && budget > 0
    ensures Locate(o, Top, Named(a), budget) == Locate(o, Top, Named(b), budget - 1)
  {
    assert Append(Named(b), End) == Named(b);
  }

  /** A directory and then a file of the same name: the file ends with the directory's mode. */
  lemma FileGetsModeOfDirectory(name: string, m: Mode, m': Mode, content: string, top: Mode)
    ensures var p := Below(Top, name);
            var es := [Entry(Named(name), Dir, m), Entry(Named(name), RegularFile(content), m')];
            && AtEnd(ROOT, EmptyDirectory(top), es).Next?
            && forall t :: Ends(ROOT, EmptyDirectory(top), es, t) ==>
              p in t.nodes && t.nodes[p] == Leaf(0) && 0 in t.objects && t.objects[0] == Regular(content, m)
  {
    var p := Below(Top, name);
    var es := [Entry(Named(name), Dir, m), Entry(Named(name), RegularFile(content), m')];
    var s := State(EmptyDirectory(top), map[], {});
    BeginsEmpty(top);
    PutsFlatDirectory(s, name, m, {});
    var s1 := PutEntry(ROOT, s, es[0]).state;
    PutsFlatFile(s1, name, content, m', {p});
    TwoEntries(s, es);
    var s2 := PutEntry(ROOT, s1, es[1]).state;
    hide PutEntry;
    hide PutEntries;
    hide Begin;
    hide Find;
    FlatIsClosed(s2.tree, {p} + {p});
    FindsItself(s2.tree, p, true);
    assert s2.modes == map[p := m] && LeadsTo(s2.tree, p, Of(0));
    hide OutlineOf;
    hide IsFlat;
    SureOfFile(s2, p, p, content, m', m);
    assert forall t :: Ends(ROOT, EmptyDirectory(top), es, t) ==> ModesAreSet(s2.tree, s2.modes, true, t);
    hide ModesAreSet;
  }

  /** A directory a and something else under b, before a symbolic link from a to b takes the place of a. */
  ghost predicate IsReady(s: State, a: Path, b: Path) {
    && IsFlat(s.tree, {a, b}) && s.ignored == {} && a != b && b !in SymlinksOf(s.tree)
    && s.tree.nodes[b] != Leaf(s.tree.next)
  }

  lemma LinkTakesPlace(s: State, a: string, b: string, m: Mode)
    requires IsReady(s, Below(Top, a), Below(Top, b))
    ensures var step, p := PutEntry(ROOT, s, Entry(Named(a), SymbolicLink(Named(b)), m)), Below(Top, b);
            && step.Next? && step.state.modes == s.modes && p in step.state.tree.nodes
            && step.state.tree.nodes[p] == s.tree.nodes[p]
            && step.state.tree.objects == s.tree.objects[s.tree.next := Symlink(Named(b))]
            && Find(OutlineOf(step.state.tree, true), Below(Top, a)) == Some(p)
            && Find(OutlineOf(step.state.tree, true), p) == Some(p)
  {
    var d, p := Below(Top, a), Below(Top, b);
    PutsFlatLink(s, a, Named(b), m, {d, p});
    var t := PutEntry(ROOT, s, Entry(Named(a), SymbolicLink(Named(b)), m)).state.tree;
    hide PutEntry;
    assert {d, p} + {d} == {d, p};
    LeadsFlatly(t, {d, p}, a, b);
    hide Find;
  }

  /** A directory that a symbolic link to a file takes the place of: the file ends with the directory's mode. */
  lemma FileGetsModeThroughLink(a: string, b: string, m: Mode, m': Mode, m'': Mode, content: string, top: Mode)
    requires a != b
    ensures var p := Below(Top, b);
            var es := [Entry(Named(a), Dir, m), Entry(Named(b), RegularFile(content), m'),
                       Entry(Named(a), SymbolicLink(Named(b)), m'')];
            && AtEnd(ROOT, EmptyDirectory(top), es).Next?
            && forall t :: Ends(ROOT, EmptyDirectory(top), es, t) ==>
              p in t.nodes && t.nodes[p] == Leaf(0) && 0 in t.objects && t.objects[0] == Regular(content, m)
  {
    var d, p := Below(Top, a), Below(Top, b);
    var es := [Entry(Named(a), Dir, m), Entry(Named(b), RegularFile(content), m'),
               Entry(Named(a), SymbolicLink(Named(b)), m'')];
    var s := State(EmptyDirectory(top), map[], {});
    BeginsEmpty(top);
    PutsFlatDirectory(s, a, m, {});
    var s1 := PutEntry(ROOT, s, es[0]).state;
    assert {} + {d} == {d} && {d} + {p} == {d, p};
    PutsFlatFile(s1, b, content, m', {d});
    var s2 := PutEntry(ROOT, s1, es[1]).state;
    hide PutEntry;
    hide PutEntries;
    hide Find;
    hide Begin;
    LinkTakesPlace(s2, a, b, m'');
    var s3 := PutEntry(ROOT, s2, es[2]).state;
    ThreeEntries(s, es);
    assert s3.modes == map[d := m] && LeadsTo(s3.tree, d, Of(0)) && s3.tree.objects[0] == Regular(content, m');
    hide OutlineOf;
    hide IsFlat;
    SureOfFile(s3, d, p, content, m', m);
    assert forall t :: Ends(ROOT, EmptyDirectory(top), es, t) ==> ModesAreSet(s3.tree, s3.modes, true, t);
    hide ModesAreSet;
  }

  /** The mode noted for the only path is that which the file ends with. */
  lemma SureOfFile(s: State, d: Path, p: Path, content: string, m: Mode, m': Mode)
    requires s.modes == map[d := m'] && LeadsTo(s.tree, d, Of(0)) && p in s.tree.nodes && s.tree.nodes[p] == Leaf(0)
    requires 0 in s.tree.objects && s.tree.objects[0] == Regular(content, m)
    ensures forall t :: ModesAreSet(s.tree, s.modes, true, t) ==>
      p in t.nodes && t.nodes[p] == Leaf(0) && 0 in t.objects && t.objects[0] == Regular(content, m')
  {
    hide LeadsTo;
    forall t | ModesAreSet(s.tree, s.modes, true, t)
      ensures p in t.nodes && t.nodes[p] == Leaf(0) && 0 in t.objects && t.objects[0] == Regular(content, m')
    {
      GetsMode(s.tree, s.modes, Of(0), m', t);
      SetKeepsShape(s.tree, s.modes, true, t);
    }
    hide ModesAreSet;
  }

  /** If the link is to another directory, that one ends with its own mode or the other's, as it comes. */
  lemma DirectoryModeDependsOnOrder(a: string, b: string, m: Mode, m': Mode, m'': Mode, top: Mode)
    returns (t: Tree, t': Tree)
    requires a != b
    ensures var p := Below(Top, b);
            var es := [Entry(Named(a), Dir, m), Entry(Named(b), Dir, m'), Entry(Named(a), SymbolicLink(Named(b)), m'')];
            && Ends(ROOT, EmptyDirectory(top), es, t) && p in t.nodes && t.nodes[p] == Directory(m)
            && Ends(ROOT, EmptyDirectory(top), es, t') && p in t'.nodes && t'.nodes[p] == Directory(m')
  {
    var d, p := Below(Top, a), Below(Top, b);
    var es := [Entry(Named(a), Dir, m), Entry(Named(b), Dir, m'), Entry(Named(a), SymbolicLink(Named(b)), m'')];
    var s := State(EmptyDirectory(top), map[], {});
    BeginsEmpty(top);
    PutsFlatDirectory(s, a, m, {});
    var s1 := PutEntry(ROOT, s, es[0]).state;
    assert {} + {d} == {d} && {d} + {p} == {d, p};
    PutsFlatDirectory(s1, b, m', {d});
    var s2 := PutEntry(ROOT, s1, es[1]).state;
    hide PutEntry;
    hide PutEntries;
    hide Find;
    hide Begin;
    LinkTakesPlace(s2, a, b, m'');
    var s3 := PutEntry(ROOT, s2, es[2]).state;
    ThreeEntries(s, es);
    assert d in s3.modes && s3.modes[d] == m && p in s3.modes && s3.modes[p] == m' && IsDirectory(s3.tree, p);
    t, t' := EitherMayBeLast(s3, d, p);
    assert AtEnd(ROOT, EmptyDirectory(top), es) == Next(s3);
    hide AtEnd;
    hide ModesAreSet;
    hide WellFormed;
    hide IsFlat;
    hide OutlineOf;
  }

  lemma EitherMayBeLast(s: State, d: Path, p: Path) returns (t: Tree, t': Tree)
    requires d in s.modes && p in s.modes && IsDirectory(s.tree, p)
    requires Find(OutlineOf(s.tree, true), d) == Some(p) && Find(OutlineOf(s.tree, true), p) == Some(p)
    ensures ModesAreSet(s.tree, s.modes, true, t) && p in t.nodes && t.nodes[p] == Directory(s.modes[d])
    ensures ModesAreSet(s.tree, s.modes, true, t') && p in t'.nodes && t'.nodes[p] == Directory(s.modes[p])
  {
    assert LeadsTo(s.tree, d, At(p)) && LeadsTo(s.tree, p, At(p));
    hide LeadsTo;
    t := AnyMayBeLast(s.tree, s.modes, At(p), d);
    t' := AnyMayBeLast(s.tree, s.modes, At(p), p);
    hide ModesAreSet;
  }

  // ---------------------------------------------------------------------------------- the unprivileged

  const OUTER: Path := Below(Top, "a")
  const INNER: Path := Below(OUTER, "b")
  const OUTER_FILE: Path := Below(OUTER, "f")
  const INNER_FILE: Path := Below(INNER, "g")

  /** Two directories, one in the other, with a file in each: a with mode 0600, and b with mode 0555. */
  const NESTED: Source := Source(
    Tree(
      map[
        Top := Directory(SCRATCH_DIRECTORY),
        OUTER := Directory(Mode(384, false, false, false)),
        OUTER_FILE := Leaf(0),
        INNER := Directory(Mode(365, false, false, false)),
        INNER_FILE := Leaf(1)
      ],
      map[0 := Regular("", SCRATCH_FILE), 1 := Regular("", SCRATCH_FILE)],
      2),
    map[])

  const NESTED_WALK: seq<Path> := [OUTER, OUTER_FILE, INNER, INNER_FILE]

  lemma NestedIsWalked()
    ensures CanWalk(NESTED, NESTED_WALK)
  {
    assert OUTER.dir == Top && OUTER_FILE.dir == OUTER && INNER.dir == OUTER && INNER_FILE.dir == INNER;
    assert NESTED_WALK[..1] == [OUTER] && NESTED_WALK[..2] == [OUTER, OUTER_FILE];
    assert NESTED_WALK[..3] == [OUTER, OUTER_FILE, INNER];
  }

  lemma NestedEntries()
    requires CanWalk(NESTED, NESTED_WALK)
    ensures EntryAt(NESTED, NESTED_WALK, 0).kind.Dir? && EntryAt(NESTED, NESTED_WALK, 2).kind.Dir?
    ensures EntryAt(NESTED, NESTED_WALK, 1).kind.RegularFile? && EntryAt(NESTED, NESTED_WALK, 3).kind.RegularFile?
  {
    hide SeenAfter;
  }

  /**
   An unprivileged extractor makes both directories writable. If it then sets the mode of
   the outer one first, which may not be searched any more, the inner one keeps mode 0700;
   and all this succeeds.
   */
  lemma InnerModeIsLost(m: Mode) returns (t: Tree)
    requires OwnerWrites(m)
    ensures CanWalk(NESTED, NESTED_WALK) && ComesOut(NESTED, NESTED_WALK, m, false, t)
    ensures INNER in t.nodes && t.nodes[INNER] == Directory(SCRATCH_DIRECTORY)
    ensures NESTED.tree.nodes[INNER] != Directory(SCRATCH_DIRECTORY)
  {
    NestedIsWalked();
    NestedIsExtracted(m);
    InnerIsOpened(m);
    assert IsDirectory(NESTED.tree, INNER);
    hide *;
    t := OpenedMayStay(NESTED, NESTED_WALK, m, INNER);
  }

  lemma NestedIsExtracted(m: Mode)
    requires CanWalk(NESTED, NESTED_WALK) && OwnerWrites(m)
    ensures CanExtract(NESTED, NESTED_WALK, 4, m, false)
  {
    NestedEntries();
    assert Parent(NESTED_WALK[1]) == OUTER && Parent(NESTED_WALK[2]) == OUTER;
    assert HasFileBefore(NESTED, NESTED_WALK, 2, OUTER);
    hide EntryAt;
    hide HasFileBefore;
    hide CanWalk;
  }

  lemma InnerIsOpened(m: Mode)
    requires CanWalk(NESTED, NESTED_WALK)
    ensures |NESTED_WALK| == 4 && IsOpened(NESTED, NESTED_WALK, 4, INNER, m, false) && !WayIsOpen(NESTED, m, INNER)
  {
    NestedEntries();
    assert Parent(NESTED_WALK[3]) == INNER && INNER.dir == OUTER;
    assert HasFileBefore(NESTED, NESTED_WALK, 4, INNER);
    hide EntryAt;
    hide HasFileBefore;
    hide CanWalk;
  }

  // ---------------------------------------------------------------------------------- links that get lost

  const PIPE: Path := Below(Top, "a")
  const SAME_PIPE: Path := Below(Top, "b")

  /** A pipe with two names. */
  const PIPES: Source := Source(
    Tree(
      map[Top := Directory(SCRATCH_DIRECTORY), PIPE := Leaf(0), SAME_PIPE := Leaf(0)],
      map[0 := Fifo(SCRATCH_FILE)],
      1),
    map[0 := 2])

  lemma PipesAreWalked()
    ensures CanWalk(PIPES, [PIPE, SAME_PIPE])
  {
    assert PIPE.dir == Top && SAME_PIPE.dir == Top;
  }

  /** Archived and extracted by a privileged extractor, it comes back as two pipes. */
  lemma PipeIsDoubled(m: Mode)
    ensures AreLinks(PIPES.tree, PIPE, SAME_PIPE)
    ensures var order := [PIPE, SAME_PIPE];
            && CanWalk(PIPES, order)
            && forall t :: ComesOut(PIPES, order, m, true, t) ==>
              PIPE in t.nodes && SAME_PIPE in t.nodes && !AreLinks(t, PIPE, SAME_PIPE)
  {
    var order := [PIPE, SAME_PIPE];
    PipesAreWalked();
    assert !IsRegular(PIPES.tree, PIPE) && PIPE != SAME_PIPE;
    PrivilegedExtracts(PIPES, order, m);
    hide CanExtract;
    hide CanReset;
    hide ComesOut;
    hide CanWalk;
    ReproducedExactlyWhen(PIPES, order, m, true);
  }
}
