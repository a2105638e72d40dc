/**
 What is to be found at the paths of an archive after it was extracted, and what is left
 as it was.
 */
module PutContents {
  import opened Optional
  import opened Paths
  import opened FileTree
  import opened SymlinkResolution
  import opened CopierPut
  import opened PutModes

  predicate HasObject(t: Tree, p: Path) {
    HasLeaf(t, p) && t.nodes[p].inode in t.objects
  }

  function ObjectAt(t: Tree, p: Path): Object
    requires HasObject(t, p)
  {
    t.objects[t.nodes[p].inode]
  }

  /** All objects are still there, whatever their modes. */
  ghost predicate ObjectsStay(t: Tree, t': Tree) {
    t.next <= t'.next && forall i :: i in t.objects ==> i in t'.objects && SameButMode(t.objects[i], t'.objects[i])
  }

  ghost predicate ObjectsSame(t: Tree, t': Tree) {
    t.next <= t'.next && forall i :: i in t.objects ==> i in t'.objects && t'.objects[i] == t.objects[i]
  }

  /**
   What putting something at q changes about names: below q everything may go if it is not
   a directory that is put there, and directories above q may come.
   */
  ghost predicate NodesTouched(t: Tree, t': Tree, q: Path, clears: bool) {
    && (forall p :: p in t.nodes && p != q && !(clears && Within(p, q)) ==>
      p in t'.nodes && SameNode(t.nodes[p], t'.nodes[p]))
    && (forall p :: p in t'.nodes && p !in t.nodes ==> Within(q, p))
    && (forall p :: HasLeaf(t', p) && p != q ==> p in t.nodes && t.nodes[p] == t'.nodes[p])
  }

  ghost predicate Touches(t: Tree, t': Tree, q: Path, clears: bool) {
    NodesTouched(t, t', q, clears) && ObjectsSame(t, t')
  }

  lemma TouchesTwice(t: Tree, t': Tree, t'': Tree, q: Path, clears: bool)
    requires Touches(t, t', q, clears) && Touches(t', t'', q, clears)
    ensures Touches(t, t'', q, clears)
  {
    assert ObjectsSame(t, t'');
  }

  lemma TouchesItself(t: Tree, q: Path, clears: bool)
    ensures Touches(t, t, q, clears)
  {
  }

  lemma ChmodTouches(t: Tree, p: Path, m: Mode, q: Path, clears: bool)
    requires !HasLeaf(t, p)
    ensures Touches(t, Chmod(t, p, m), q, clears) && (Sound(t) ==> Sound(Chmod(t, p, m)))
  {
  }

  lemma MkdirTouches(t: Tree, p: Path, privileged: bool, q: Path, clears: bool)
    requires Mkdir(t, p, privileged).Done? && Within(q, p)
    ensures var t' := Mkdir(t, p, privileged).tree;
            Touches(t, t', q, clears) && (Sound(t) ==> Sound(t'))
  {
  }

  lemma RemoveAllTouches(t: Tree, q: Path, privileged: bool)
    requires RemoveAll(t, q, privileged).Done?
    ensures var t' := RemoveAll(t, q, privileged).tree;
            Touches(t, t', q, true) && (Sound(t) ==> Sound(t'))
  {
  }

  lemma UnlinkTouches(t: Tree, q: Path, privileged: bool)
    requires Unlink(t, q, privileged).Done?
    ensures var t' := Unlink(t, q, privileged).tree;
            Touches(t, t', q, false) && (Sound(t) ==> Sound(t'))
  {
  }

  lemma AttemptTouches(t: Tree, q: Path, maker: Maker, privileged: bool)
    requires Sound(t) && Attempt(t, q, maker, privileged).Done?
    ensures var t' := Attempt(t, q, maker, privileged).tree;
            Touches(t, t', q, true) && Sound(t')
  {
  }

  // ----------------------------------------------------------------------------------------- operations

  lemma {:induction false} EnsureDirectoryTouches(r: Request, s: State, p: Path, q: Path, clears: bool)
    requires Within(q, p) && Sound(s.tree)
    ensures var s' := EnsureDirectory(r, s, p).state;
            Touches(s.tree, s'.tree, q, clears) && Sound(s'.tree)
    decreases p
  {
    if p.Top? {
      TouchesItself(s.tree, q, clears);
    } else {
      WithinTransitive(q, p, p.dir);
      EnsureDirectoryTouches(r, s, p.dir, q, clears);
      var above := EnsureDirectory(r, s, p.dir);
      if above.Next? && Mkdir(above.state.tree, p, r.privileged).Done? {
        MkdirTouches(above.state.tree, p, r.privileged, q, clears);
        hide Touches;
        hide Sound;
        TouchesTwice(s.tree, above.state.tree, Mkdir(above.state.tree, p, r.privileged).tree, q, clears);
      }
    }
  }

  lemma MakeWriteableTouches(r: Request, s: State, d: Path, q: Path)
    ensures var s' := MakeWriteable(r, s, d).state;
            Touches(s.tree, s'.tree, q, true) && (Sound(s.tree) ==> Sound(s'.tree))
  {
    TouchesItself(s.tree, q, true);
    if IsDirectory(s.tree, d) {
      ChmodTouches(s.tree, d, SCRATCH_DIRECTORY, q, true);
    }
    hide Touches;
    hide Chmod;
  }

  lemma ReplaceTouches(r: Request, s: State, q: Path, maker: Maker)
    requires Sound(s.tree)
    ensures var s' := Replace(r, s, q, maker).state;
            Touches(s.tree, s'.tree, q, true) && Sound(s'.tree)
  {
    var t, a := s.tree, Attempt(s.tree, q, maker, r.privileged);
    TouchesItself(t, q, true);
    if a.Done? {
      AttemptTouches(t, q, maker, r.privileged);
    } else if a.Exists? && RemoveAll(t, q, r.privileged).Done? {
      var t' := RemoveAll(t, q, r.privileged).tree;
      RemoveAllTouches(t, q, r.privileged);
      if Attempt(t', q, maker, r.privileged).Done? {
        AttemptTouches(t', q, maker, r.privileged);
        TouchesTwice(t, t', Attempt(t', q, maker, r.privileged).tree, q, true);
      }
    }
    hide Touches;
    hide Sound;
    hide Attempt;
    hide RemoveAll;
  }

  lemma CreateNewTouches(r: Request, s: State, q: Path, content: string)
    requires Sound(s.tree)
    ensures var s' := CreateNew(r, s, q, content).state;
            Touches(s.tree, s'.tree, q, true) && Sound(s'.tree)
  {
    var maker := MakeObject(Regular(content, SCRATCH_FILE));
    var t, a := s.tree, Attempt(s.tree, q, maker, r.privileged);
    TouchesItself(t, q, true);
    if a.Done? {
      AttemptTouches(t, q, maker, r.privileged);
    } else if a.Denied? {
      MakeWriteableTouches(r, s, Parent(q), q);
      var w := MakeWriteable(r, s, Parent(q));
      if w.Next? && Attempt(w.state.tree, q, maker, r.privileged).Done? {
        AttemptTouches(w.state.tree, q, maker, r.privileged);
        TouchesTwice(t, w.state.tree, Attempt(w.state.tree, q, maker, r.privileged).tree, q, true);
      }
    }
    hide Touches;
    hide Sound;
    hide MakeWriteable;
  }

  lemma ClearWayTouches(r: Request, s: State, q: Path)
    requires Sound(s.tree)
    ensures var s' := ClearWay(r, s, q).state;
            Touches(s.tree, s'.tree, q, true) && Sound(s'.tree)
  {
    if RemoveAll(s.tree, q, r.privileged).Done? {
      RemoveAllTouches(s.tree, q, r.privileged);
    } else {
      MakeWriteableTouches(r, s, Parent(q), q);
      var w := MakeWriteable(r, s, Parent(q));
      if w.Next? && RemoveAll(w.state.tree, q, r.privileged).Done? {
        RemoveAllTouches(w.state.tree, q, r.privileged);
        TouchesTwice(s.tree, w.state.tree, RemoveAll(w.state.tree, q, r.privileged).tree, q, true);
      }
    }
    hide Touches;
    hide Sound;
    hide MakeWriteable;
    hide RemoveAll;
  }

  lemma CreateFileTouches(r: Request, s: State, q: Path, content: string)
    requires Sound(s.tree)
    ensures var s' := CreateFile(r, s, q, content).state;
            Touches(s.tree, s'.tree, q, true) && Sound(s'.tree)
  {
    TouchesItself(s.tree, q, true);
    hide Touches;
    hide Sound;
    hide CreateNew;
    hide ClearWay;
    if q !in s.tree.nodes {
      CreateNewTouches(r, s, q, content);
    } else {
      ClearWayTouches(r, s, q);
      var cleared := ClearWay(r, s, q);
      if cleared.Next? {
        CreateNewTouches(r, cleared.state, q, content);
        TouchesTwice(s.tree, cleared.state.tree, CreateNew(r, cleared.state, q, content).state.tree, q, true);
      }
    }
  }

  /** With the mode that a directory gets at once. */
  lemma NewDirectoryTouches(t: Tree, q: Path, m: Mode, privileged: bool)
    requires Sound(t) && Mkdir(t, q, privileged).Done?
    ensures var t' := Chmod(Mkdir(t, q, privileged).tree, q, m);
            Touches(t, t', q, false) && Sound(t')
  {
    var t' := Mkdir(t, q, privileged).tree;
    MkdirTouches(t, q, privileged, q, false);
    ChmodTouches(t', q, m, q, false);
    TouchesTwice(t, t', Chmod(t', q, m), q, false);
  }

  lemma PutDirectoryTouches(r: Request, s: State, q: Path, m: Mode)
    requires Sound(s.tree)
    ensures var s' := PutDirectory(r, s, q, m).state;
            Touches(s.tree, s'.tree, q, false) && Sound(s'.tree)
  {
    var t := s.tree;
    TouchesItself(t, q, false);
    if Mkdir(t, q, r.privileged).Done? {
      NewDirectoryTouches(t, q, m, r.privileged);
    } else if IsDirectory(t, q) {
      ChmodTouches(t, q, m, q, false);
    } else if Unlink(t, q, r.privileged).Done? {
      UnlinkTouches(t, q, r.privileged);
      var t' := Unlink(t, q, r.privileged).tree;
      if Mkdir(t', q, r.privileged).Done? {
        NewDirectoryTouches(t', q, m, r.privileged);
        TouchesTwice(t, t', Chmod(Mkdir(t', q, r.privileged).tree, q, m), q, false);
      }
    }
    hide Touches;
    hide Sound;
    hide Chmod;
  }

  lemma MakeTouches(r: Request, s: State, q: Path, e: Entry)
    requires Sound(s.tree)
    ensures var s' := Make(r, s, q, e).state;
            Touches(s.tree, s'.tree, q, !e.kind.Dir?) && Sound(s'.tree)
  {
    TouchesItself(s.tree, q, true);
    hide Touches;
    hide Sound;
    hide CreateFile;
    hide Replace;
    hide PutDirectory;
    match e.kind
    case RegularFile(content) => CreateFileTouches(r, s, q, content);
    case HardLink(linkname) =>
      var target := LinkTarget(r, SymlinksOf(s.tree), linkname);
      if target.Resolved? {
        ReplaceTouches(r, s, q, MakeLink(target.path));
      }
    case SymbolicLink(target) => ReplaceTouches(r, s, q, MakeObject(Symlink(target)));
    case CharDevice(major, minor) => ReplaceTouches(r, s, q, MakeObject(Device(false, major, minor, SCRATCH_FILE)));
    case BlockDevice(major, minor) => ReplaceTouches(r, s, q, MakeObject(Device(true, major, minor, SCRATCH_FILE)));
    case NamedPipe => ReplaceTouches(r, s, q, MakeObject(Fifo(SCRATCH_FILE)));
    case Dir => PutDirectoryTouches(r, s, q, HeaderMode(r.options, e));
    case GlobalHeader =>
    case Unrecognized =>
  }

  /** The part of an entry before its mode is set changes no object. */
  lemma MadeTouches(r: Request, s: State, e: Entry)
    requires Sound(s.tree) && !e.name.End?
    ensures var q := PathOf(r, e);
            var parent := EnsureDirectory(r, s, Parent(q)).state;
            && Touches(s.tree, parent.tree, q, IsOther(e)) && Sound(parent.tree)
            && Touches(s.tree, Make(r, parent, q, e).state.tree, q, IsOther(e))
            && Sound(Make(r, parent, q, e).state.tree)
  {
    var q := PathOf(r, e);
    assert Within(q, Parent(q));
    EnsureDirectoryTouches(r, s, Parent(q), q, IsOther(e));
    var parent := EnsureDirectory(r, s, Parent(q)).state;
    hide Touches;
    hide Sound;
    hide EnsureDirectory;
    hide Make;
    MakeTouches(r, parent, q, e);
    TouchesTwice(s.tree, parent.tree, Make(r, parent, q, e).state.tree, q, IsOther(e));
  }

  /** The entry gives a mode to something: a file, a device or a pipe, new or under one more name. */
  predicate GivesMode(r: Request, s: State, e: Entry) {
    && PutEntry(r, s, e).Next? && !IsIgnored(r, s, e)
    && !e.kind.SymbolicLink? && !e.kind.Dir? && !e.kind.GlobalHeader?
  }

  /** What the entry gives a mode to is this object. */
  predicate SetsModeOf(r: Request, s: State, e: Entry, i: nat) {
    var t, p := PutEntry(r, s, e).state.tree, PathOf(r, e);
    GivesMode(r, s, e) && p in t.nodes && t.nodes[p] == Leaf(i)
  }

  /** Setting the mode of what has just been put there. */
  lemma ChmodOfObject(t: Tree, q: Path, m: Mode)
    requires HasObject(t, q)
    ensures var t', i := Chmod(t, q, m), t.nodes[q].inode;
            && t'.nodes == t.nodes && t'.next == t.next && t'.objects == t.objects[i := WithMode(t.objects[i], m)]
  {
  }

  lemma EntryEnds(r: Request, s: State, e: Entry)
    requires !e.name.End?
    ensures var q := PathOf(r, e);
            var parent := EnsureDirectory(r, s, Parent(q)).state;
            var made := Make(r, parent, q, e).state;
            var t := PutEntry(r, s, e).state.tree;
            || (t == parent.tree && !GivesMode(r, s, e))
            || (t == made.tree && !GivesMode(r, s, e))
            || (HasLeaf(made.tree, q) && t == Chmod(made.tree, q, HeaderMode(r.options, e)) && GivesMode(r, s, e))
  {
    var q := PathOf(r, e);
    var parent := EnsureDirectory(r, s, Parent(q)).state;
    if !e.kind.Dir? && !e.kind.GlobalHeader? && Make(r, parent, q, e).Next? {
      MakesLeaf(r, parent, q, e);
    }
    hide EnsureDirectory;
    hide Make;
    hide Chmod;
  }

  /** An entry sets the mode of the object at its path, and changes no other object. */
  lemma EntrySetsMode(r: Request, s: State, e: Entry, i: nat)
    requires Sound(s.tree) && i in s.tree.objects
    ensures var t := PutEntry(r, s, e).state.tree;
            && i in t.objects
            && t.objects[i] == if SetsModeOf(r, s, e, i) then WithMode(s.tree.objects[i], HeaderMode(r.options, e))
                else s.tree.objects[i]
  {
    if !e.name.End? {
      var q := PathOf(r, e);
      MadeTouches(r, s, e);
      EntryEnds(r, s, e);
      var made := Make(r, EnsureDirectory(r, s, Parent(q)).state, q, e).state;
      hide EnsureDirectory;
      hide Make;
      hide PutEntry;
      hide NodesTouched;
      hide Chmod;
      if GivesMode(r, s, e) {
        ChmodOfObject(made.tree, q, HeaderMode(r.options, e));
      }
    }
  }

  lemma TouchesStays(t0: Tree, t: Tree, q: Path, other: bool)
    requires Touches(t0, t, q, other)
    ensures NodesTouched(t0, t, q, other) && ObjectsStay(t0, t)
  {
  }

  lemma ModeTouches(t0: Tree, t: Tree, q: Path, m: Mode, other: bool)
    requires Touches(t0, t, q, other) && Sound(t) && HasLeaf(t, q)
    ensures var t' := Chmod(t, q, m);
            NodesTouched(t0, t', q, other) && ObjectsStay(t0, t') && Sound(t')
  {
    ChmodOfObject(t, q, m);
    hide Chmod;
  }

  /** One entry: everything that is not at its path, or below it if it is not a directory, stays what it is. */
  lemma PutEntryTouches(r: Request, s: State, e: Entry)
    requires Sound(s.tree) && !e.name.End?
    ensures var t := PutEntry(r, s, e).state.tree;
            && NodesTouched(s.tree, t, PathOf(r, e), IsOther(e)) && ObjectsStay(s.tree, t) && Sound(t)
  {
    hide *;
    var q := PathOf(r, e);
    MadeTouches(r, s, e);
    EntryEnds(r, s, e);
    var parent := EnsureDirectory(r, s, Parent(q)).state;
    var made := Make(r, parent, q, e).state;
    TouchesStays(s.tree, parent.tree, q, IsOther(e));
    TouchesStays(s.tree, made.tree, q, IsOther(e));
    if GivesMode(r, s, e) {
      ModeTouches(s.tree, made.tree, q, HeaderMode(r.options, e), IsOther(e));
    }
  }

  // ---------------------------------------------------------------------------- what was made is in reach

  lemma {:induction false} ReachAlike(t: Tree, t': Tree, p: Path, privileged: bool)
    requires CanReach(t, p, privileged) && (privileged || p.Below?)
    requires forall a :: Within(Parent(p), a) && a in t.nodes ==> a in t'.nodes && t'.nodes[a] == t.nodes[a]
    ensures CanReach(t', p, privileged)
  {
    if !privileged && p.dir.Below? {
      forall a | Within(Parent(p.dir), a) && a in t.nodes
        ensures a in t'.nodes && t'.nodes[a] == t.nodes[a]
      {
        assert Within(p.dir, a);
      }
      ReachAlike(t, t', p.dir, privileged);
    }
  }

  lemma ReachWithNew(t: Tree, p: Path, n: Node, objects: map<nat, Object>, next: nat, privileged: bool)
    requires CanReach(t, p, privileged)
    ensures CanReach(Tree(t.nodes[p := n], objects, next), p, privileged)
  {
    var t' := Tree(t.nodes[p := n], objects, next);
    if p.Below? && !privileged {
      forall a | Within(Parent(p), a) && a in t.nodes
        ensures a in t'.nodes && t'.nodes[a] == t.nodes[a]
      {
        if a == p {
          WithinIsNotAbove(p.dir, p);
        }
      }
      ReachAlike(t, t', p, privileged);
    }
  }

  lemma AttemptReaches(t: Tree, q: Path, maker: Maker, privileged: bool)
    requires Attempt(t, q, maker, privileged).Done?
    ensures CanReach(Attempt(t, q, maker, privileged).tree, q, privileged)
  {
    var t' := Attempt(t, q, maker, privileged).tree;
    assert CanReach(t, q, privileged) && q in t'.nodes;
    assert t' == Tree(t.nodes[q := t'.nodes[q]], t'.objects, t'.next);
    ReachWithNew(t, q, t'.nodes[q], t'.objects, t'.next, privileged);
  }

  lemma PutDirectoryReaches(r: Request, s: State, q: Path, m: Mode)
    requires PutDirectory(r, s, q, m).Next?
    ensures CanReach(PutDirectory(r, s, q, m).state.tree, q, r.privileged)
  {
    var t, t' := s.tree, PutDirectory(r, s, q, m).state.tree;
    assert CanReach(t, q, r.privileged);
    if Mkdir(t, q, r.privileged).Done? || IsDirectory(t, q) {
      assert t' == Tree(t.nodes[q := Directory(m)], t'.objects, t'.next);
      ReachWithNew(t, q, Directory(m), t'.objects, t'.next, r.privileged);
    } else {
      var u := Unlink(t, q, r.privileged).tree;
      assert CanReach(u, q, r.privileged) && t' == Tree(u.nodes[q := Directory(m)], t'.objects, t'.next);
      ReachWithNew(u, q, Directory(m), t'.objects, t'.next, r.privileged);
    }
  }

  /** So setting the mode of what an entry has made can not fail. */
  lemma MadeIsReached(r: Request, s: State, q: Path, e: Entry)
    requires Make(r, s, q, e).Next? && !e.kind.GlobalHeader?
    ensures CanReach(Make(r, s, q, e).state.tree, q, r.privileged)
  {
    hide CanReach;
    hide PutDirectory;
    hide Attempt;
    hide ClearWay;
    match e.kind
    case RegularFile(content) =>
      CreateNewReaches(r, s, q, content);
      CreateNewReaches(r, ClearWay(r, s, q).state, q, content);
    case HardLink(linkname) => ReplaceReaches(r, s, q, MakeLink(LinkTarget(r, SymlinksOf(s.tree), linkname).path));
    case SymbolicLink(target) => ReplaceReaches(r, s, q, MakeObject(Symlink(target)));
    case CharDevice(major, minor) => ReplaceReaches(r, s, q, MakeObject(Device(false, major, minor, SCRATCH_FILE)));
    case BlockDevice(major, minor) => ReplaceReaches(r, s, q, MakeObject(Device(true, major, minor, SCRATCH_FILE)));
    case Dir => PutDirectoryReaches(r, s, q, HeaderMode(r.options, e));
    case NamedPipe => ReplaceReaches(r, s, q, MakeObject(Fifo(SCRATCH_FILE)));
  }

  lemma ReplaceReaches(r: Request, s: State, q: Path, maker: Maker)
    requires Replace(r, s, q, maker).Next?
    ensures CanReach(Replace(r, s, q, maker).state.tree, q, r.privileged)
  {
    hide CanReach;
    hide RemoveAll;
    if Attempt(s.tree, q, maker, r.privileged).Done? {
      AttemptReaches(s.tree, q, maker, r.privileged);
    } else {
      AttemptReaches(RemoveAll(s.tree, q, r.privileged).tree, q, maker, r.privileged);
    }
    hide Attempt;
  }

  lemma CreateNewReaches(r: Request, s: State, q: Path, content: string)
    ensures CreateNew(r, s, q, content).Next? ==> CanReach(CreateNew(r, s, q, content).state.tree, q, r.privileged)
  {
    hide CanReach;
    hide MakeWriteable;
    var maker := MakeObject(Regular(content, SCRATCH_FILE));
    if Attempt(s.tree, q, maker, r.privileged).Done? {
      AttemptReaches(s.tree, q, maker, r.privileged);
    } else if Attempt(MakeWriteable(r, s, Parent(q)).state.tree, q, maker, r.privileged).Done? {
      AttemptReaches(MakeWriteable(r, s, Parent(q)).state.tree, q, maker, r.privileged);
    }
    hide Create;
  }

  // ------------------------------------------------------------------------------- what an entry leaves

  /** The object that an entry is for, unless it is for a directory or a hard link. */
  function Intended(e: Entry, m: Mode): Option<Object> {
    match e.kind
    case RegularFile(content) => Some(Regular(content, m))
    case SymbolicLink(target) => Some(Symlink(target))
    case CharDevice(major, minor) => Some(Device(false, major, minor, m))
    case BlockDevice(major, minor) => Some(Device(true, major, minor, m))
    case NamedPipe => Some(Fifo(m))
    case _ => None
  }

  lemma ReplaceMakes(r: Request, s: State, q: Path, x: Object)
    requires Replace(r, s, q, MakeObject(x)).Next?
    ensures var t := Replace(r, s, q, MakeObject(x)).state.tree;
            HasObject(t, q) && ObjectAt(t, q) == x && t.nodes[q].inode == s.tree.next && t.next == s.tree.next + 1
  {
  }

  lemma CreateFileMakes(r: Request, s: State, q: Path, content: string)
    requires CreateFile(r, s, q, content).Next?
    ensures var t := CreateFile(r, s, q, content).state.tree;
            && HasObject(t, q) && ObjectAt(t, q) == Regular(content, SCRATCH_FILE)
            && t.nodes[q].inode == s.tree.next && t.next == s.tree.next + 1
  {
    ClearWayKeepsNext(r, s, q);
    hide ClearWay;
    hide MakeWriteable;
    MakeWriteableKeepsNext(r, s, Parent(q));
    MakeWriteableKeepsNext(r, ClearWay(r, s, q).state, Parent(q));
  }

  lemma MakeWriteableKeepsNext(r: Request, s: State, d: Path)
    ensures MakeWriteable(r, s, d).state.tree.next == s.tree.next
  {
  }

  lemma ClearWayKeepsNext(r: Request, s: State, q: Path)
    ensures ClearWay(r, s, q).state.tree.next == s.tree.next
  {
    MakeWriteableKeepsNext(r, s, Parent(q));
    hide MakeWriteable;
  }

  lemma MakeMakes(r: Request, s: State, q: Path, e: Entry)
    requires Make(r, s, q, e).Next? && Intended(e, SCRATCH_FILE).Some?
    ensures var t := Make(r, s, q, e).state.tree;
            && HasObject(t, q) && t.nodes[q].inode == s.tree.next && t.next == s.tree.next + 1
            && ObjectAt(t, q) == Intended(e, SCRATCH_FILE).value
  {
    hide CreateFile;
    hide Replace;
    match e.kind
    case RegularFile(content) => CreateFileMakes(r, s, q, content);
    case SymbolicLink(target) => ReplaceMakes(r, s, q, Symlink(target));
    case CharDevice(major, minor) => ReplaceMakes(r, s, q, Device(false, major, minor, SCRATCH_FILE));
    case BlockDevice(major, minor) => ReplaceMakes(r, s, q, Device(true, major, minor, SCRATCH_FILE));
    case NamedPipe => ReplaceMakes(r, s, q, Fifo(SCRATCH_FILE));
  }

  /** A file, link, device or pipe replaces whatever was at its path, with its own mode and in an inode of its own. */
  lemma EntryShows(r: Request, s: State, e: Entry)
    requires PutEntry(r, s, e).Next? && !IsIgnored(r, s, e) && Intended(e, HeaderMode(r.options, e)).Some?
    ensures var t, p := PutEntry(r, s, e).state.tree, PathOf(r, e);
            && HasObject(t, p) && ObjectAt(t, p) == Intended(e, HeaderMode(r.options, e)).value
            && t.nodes[p].inode == s.tree.next && t.next == s.tree.next + 1
  {
    var q, m := PathOf(r, e), HeaderMode(r.options, e);
    var parent := EnsureDirectory(r, s, Parent(q)).state;
    EnsureDirectoryKeepsNext(r, s, Parent(q));
    MakeMakes(r, parent, q, e);
    ChmodOfObject(Make(r, parent, q, e).state.tree, q, m);
    hide EnsureDirectory;
    hide Make;
    hide Chmod;
  }

  lemma {:induction false} EnsureDirectoryKeepsNext(r: Request, s: State, p: Path)
    ensures EnsureDirectory(r, s, p).state.tree.next == s.tree.next
  {
    if p.Below? {
      EnsureDirectoryKeepsNext(r, s, p.dir);
    }
  }

  /** A hard link is one: its path and the path that its target resolves to are names of one object. */
  lemma HardLinkShows(r: Request, s: State, e: Entry)
    requires PutEntry(r, s, e).Next? && !IsIgnored(r, s, e) && e.kind.HardLink?
    ensures var t, p := PutEntry(r, s, e).state.tree, PathOf(r, e);
            var target := LinkTarget(r, SymlinksOf(EnsureDirectory(r, s, Parent(p)).state.tree), e.kind.linkname);
            && target.Resolved? && target.path in t.nodes && HasLeaf(t, p) && t.nodes[target.path] == t.nodes[p]
            && target.path != p
  {
    var q := PathOf(r, e);
    var parent := EnsureDirectory(r, s, Parent(q)).state;
    var target := LinkTarget(r, SymlinksOf(parent.tree), e.kind.linkname);
    hide EnsureDirectory;
    hide LinkTarget;
    assert Make(r, parent, q, e).Next? && target.Resolved?;
    ReplaceLinks(r, parent, q, target.path);
    hide Replace;
  }

  lemma ReplaceLinks(r: Request, s: State, q: Path, from: Path)
    requires Replace(r, s, q, MakeLink(from)).Next?
    ensures var t := Replace(r, s, q, MakeLink(from)).state.tree;
            from in t.nodes && HasLeaf(t, q) && t.nodes[from] == t.nodes[q] && from != q
  {
  }
}
