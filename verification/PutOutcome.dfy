/**
 The outcome of extracting an archive, by any extractor, once the noted modes are set: for
 archives in which no path is both a directory and something else, and for each file, device
 or pipe of any archive.
 */
module PutOutcome {
  import opened Optional
  import opened Paths
  import opened FileTree
  import opened SymlinkResolution
  import opened CopierPut
  import opened ModeSetting
  import opened PutClosure
  import opened PutModes
  import opened PutContents
  import opened PutArchive

  // ------------------------------------------------------------------------------------ objects at the end

  /** The mode of the last entry that gave the object one; a symbolic link gets none. */
  function ModeAtEnd(r: Request, s: State, es: seq<Entry>, i: nat, none: Mode): Mode {
    var m := DecidedMode(r, s, es, |es|, i);
    if m.Some? then m.value else none
  }

  lemma KindAndMode(e: Entry, x: Object, m: Mode)
    requires Intended(e, e.mode).Some? && SameButMode(Intended(e, e.mode).value, x)
    requires e.kind.SymbolicLink? || x == WithMode(x, m)
    ensures Intended(e, m) == Some(x)
  {
  }

  lemma ObjectGetsMode(r: Request, s: State, e: Entry, p: Path)
    requires PutEntry(r, s, e).Next? && !IsIgnored(r, s, e) && Intended(e, e.mode).Some? && !e.kind.SymbolicLink?
    requires p == PathOf(r, e) && p in PutEntry(r, s, e).state.tree.nodes && PutEntry(r, s, e).state.tree.nodes[p].Leaf?
    ensures SetsModeOf(r, s, e, PutEntry(r, s, e).state.tree.nodes[p].inode)
  {
    hide PutEntry;
  }

  lemma DecidedIsMode(t: Tree, t': Tree, i: nat, m: Option<Mode>)
    requires ModeIsDecided(t, t', i, m) && m.Some?
    ensures i in t'.objects && t'.objects[i] == WithMode(t'.objects[i], m.value)
  {
  }

  lemma ObjectIsAt(t: Tree, p: Path)
    requires HasObject(t, p)
    ensures p in t.nodes && t.nodes[p].Leaf? && t.nodes[p].inode in t.objects
    ensures ObjectAt(t, p) == t.objects[t.nodes[p].inode]
  {
  }

  lemma RunSucceeds(r: Request, s: State, es: seq<Entry>)
    requires Succeeds(r, s, es)
    ensures Sound(s.tree) && PutEntries(r, s, es, |es|).Next?
  {
    hide PutEntries;
    hide Sound;
  }

  /** Before the noted modes are set: the object of an entry has its content, and the mode decided last. */
  lemma ObjectOutcome(r: Request, s: State, es: seq<Entry>, k: nat)
    requires Succeeds(r, s, es) && k < |es| && !Skips(r, es, k) && Intended(es[k], es[k].mode).Some?
    requires IsSpared(r, es, k + 1, |es|, PathOf(r, es[k]))
    ensures var p, t := PathOf(r, es[k]), PutEntries(r, s, es, |es|).state.tree;
            && HasObject(t, p) && p in t.nodes && t.nodes[p].Leaf?
            && Intended(es[k], ModeAtEnd(r, s, es, t.nodes[p].inode, es[k].mode)) == Some(ObjectAt(t, p))
  {
    hide *;
    var p, t, t1 := PathOf(r, es[k]), PutEntries(r, s, es, |es|).state.tree, PutEntries(r, s, es, k + 1).state.tree;
    ObjectStays(r, s, es, k);
    ObjectIsAt(t, p);
    ObjectIsAt(t1, p);
    EntryTurn(r, s, es, k);
    var i := t.nodes[p].inode;
    RunSucceeds(r, s, es);
    LastModeDecides(r, s, es, |es|, i);
    var decided := DecidedMode(r, s, es, |es|, i);
    ModeIs(r, s, es, i, es[k].mode);
    if !es[k].kind.SymbolicLink? {
      ObjectGetsMode(r, PutEntries(r, s, es, k).state, es[k], p);
      DecidedSometime(r, s, es, k, |es|, i);
      DecidedIsMode(s.tree, t, i, decided);
    }
    KindAndMode(es[k], ObjectAt(t, p), ModeAtEnd(r, s, es, i, es[k].mode));
  }

  lemma ModeIs(r: Request, s: State, es: seq<Entry>, i: nat, none: Mode)
    ensures ModeAtEnd(r, s, es, i, none) ==
      var m := DecidedMode(r, s, es, |es|, i); if m.Some? then m.value else none
  {
    hide DecidedMode;
  }

  /** If no hard link comes after it, an entry decides the mode of its object. */
  lemma OwnMode(r: Request, s: State, es: seq<Entry>, k: nat)
    requires Succeeds(r, s, es) && k < |es| && !Skips(r, es, k)
    requires Intended(es[k], es[k].mode).Some? && !es[k].kind.SymbolicLink?
    requires IsSpared(r, es, k + 1, |es|, PathOf(r, es[k])) && forall j :: k < j < |es| ==> !es[j].kind.HardLink?
    ensures var p, t := PathOf(r, es[k]), PutEntries(r, s, es, |es|).state.tree;
            && p in t.nodes && t.nodes[p].Leaf?
            && ModeAtEnd(r, s, es, t.nodes[p].inode, es[k].mode) == HeaderMode(r.options, es[k])
  {
    hide *;
    var p, t, t1 := PathOf(r, es[k]), PutEntries(r, s, es, |es|).state.tree, PutEntries(r, s, es, k + 1).state.tree;
    ObjectStays(r, s, es, k);
    ObjectIsAt(t, p);
    ObjectIsAt(t1, p);
    EntryTurn(r, s, es, k);
    RunSucceeds(r, s, es);
    ObjectGetsMode(r, PutEntries(r, s, es, k).state, es[k], p);
    DecidedByItself(r, s, es, k, |es|, t.nodes[p].inode);
    ModeIs(r, s, es, t.nodes[p].inode, es[k].mode);
  }

  // ----------------------------------------------------------------------------------- consistent archives

  /** The mode that is noted for the directory p is set, whatever the order. */
  ghost predicate IsSureOf(r: Request, s: State, es: seq<Entry>, p: Path) {
    var end := PutEntries(r, s, es, |es|).state;
    p in end.modes && IsSetAnyway(end.tree, end.modes, r.privileged, p)
  }

  /** What the entry at k says is at its path: a directory, an object, or one more name of its target. */
  ghost predicate Holds(r: Request, s: State, es: seq<Entry>, t: Tree, k: nat)
    requires k < |es|
  {
    var e, p := es[k], PathOf(r, es[k]);
    && (e.kind.Dir? ==>
      && IsDirectory(t, p)
      && (IsSureOf(r, s, es, p) ==> t.nodes[p] == Directory(HeaderMode(r.options, e))))
    && (Intended(e, e.mode).Some? ==>
      && HasObject(t, p)
      && Intended(e, ModeAtEnd(r, s, es, t.nodes[p].inode, e.mode)) == Some(ObjectAt(t, p)))
    && (Intended(e, e.mode).Some? && (forall j :: k < j < |es| ==> !es[j].kind.HardLink?) ==>
      HasObject(t, p) && Intended(e, HeaderMode(r.options, e)) == Some(ObjectAt(t, p)))
    && (e.kind.HardLink? ==>
      var target := TargetOf(r, s, es, k);
      && HasObject(t, p) && target.Resolved?
      && (IsSpared(r, es, k + 1, |es|, target.path) ==>
        target.path in t.nodes && t.nodes[target.path] == t.nodes[p]))
  }

  lemma {:induction false} LastModeIs(r: Request, es: seq<Entry>, k: nat, n: nat)
    requires k < n <= |es| && IsListedDirectory(r, es[k], PathOf(r, es[k]))
    requires forall j :: k < j < n && !es[j].name.End? ==> PathOf(r, es[j]) != PathOf(r, es[k])
    ensures LastMode(r, es, n, PathOf(r, es[k])) == Some(HeaderMode(r.options, es[k]))
  {
    if k < n - 1 {
      LastModeIs(r, es, k, n - 1);
    }
  }

  lemma EndsSucceeds(r: Request, t0: Tree, es: seq<Entry>, t: Tree)
    requires Ends(r, t0, es, t)
    ensures Begin(r, t0).Next? && Succeeds(r, Begin(r, t0).state, es)
    ensures var step := PutEntries(r, Begin(r, t0).state, es, |es|);
            step.Next? && ModesAreSet(step.state.tree, step.state.modes, r.privileged, t)
  {
    var s := State(t0, map[], {});
    EnsureDirectoryKeepsIgnored(r, s, r.target);
    EnsureDirectoryTouches(r, s, r.target, r.target, false);
    hide PutEntries;
    hide EnsureDirectory;
    hide ModesAreSet;
    hide Sound;
    hide Touches;
  }

  /** In a consistent archive only directories are noted, so setting modes leaves objects and leaves alone. */
  lemma ConsistentEnd(r: Request, t0: Tree, es: seq<Entry>, t: Tree)
    requires Consistent(r, es) && Ends(r, t0, es, t)
    ensures var end := PutEntries(r, Begin(r, t0).state, es, |es|).state.tree;
            && t.objects == end.objects
            && (forall p :: HasLeaf(end, p) ==> p in t.nodes && t.nodes[p] == end.nodes[p])
            && (forall p :: p in end.nodes <==> p in t.nodes)
  {
    EndFits(r, t0, es);
    var s := AtEnd(r, t0, es).state;
    hide Inv;
    hide NotesDirectories;
    hide Begin;
    hide PutEntries;
    hide ModesAreSet;
    OnlyDirectoriesAreSet(s.tree, s.modes, r.privileged, t);
  }

  /** A listed directory is there, and the mode of its last header is noted for it. */
  lemma ListedIsNoted(r: Request, t0: Tree, es: seq<Entry>, k: nat)
    requires Consistent(r, es) && Closed(t0) && Begin(r, t0).Next? && AtEnd(r, t0, es).Next?
    requires k < |es| && !Skips(r, es, k) && IsLast(r, es, k) && es[k].kind.Dir?
    ensures var p, s := PathOf(r, es[k]), AtEnd(r, t0, es).state;
            && NotesDirectories(s.tree, s.modes)
            && p in s.modes && s.modes[p] == HeaderMode(r.options, es[k]) && IsDirectory(s.tree, p)
  {
    EndFits(r, t0, es);
    LastModeIs(r, es, k, |es|);
    hide Begin;
    hide PutEntries;
    hide AtEnd;
    hide Closed;
    hide Consistent;
    hide OnlyReplaced;
  }

  /**
   The directory of the last entry for it has that entry's mode, whatever the order in which
   modes are set, exactly when the extractor is privileged, or it has that mode already, or
   all directories above it may be searched, as they stand and as they are noted.
   */
  lemma ListedDirectoryExactlyWhen(r: Request, t0: Tree, es: seq<Entry>, k: nat)
    requires Consistent(r, es) && WellFormed(t0) && Begin(r, t0).Next? && AtEnd(r, t0, es).Next?
    requires k < |es| && !Skips(r, es, k) && IsLast(r, es, k) && es[k].kind.Dir?
    ensures var p, m := PathOf(r, es[k]), HeaderMode(r.options, es[k]);
            (forall t :: Ends(r, t0, es, t) ==> p in t.nodes && t.nodes[p] == Directory(m)) <==>
            IsSureOf(r, Begin(r, t0).state, es, p)
  {
    var p, s := PathOf(r, es[k]), AtEnd(r, t0, es).state;
    ListedIsNoted(r, t0, es, k);
    DirectorySetExactlyWhen(s.tree, s.modes, r.privileged, p);
    hide Begin;
    hide PutEntries;
    hide NotesDirectories;
    hide IsSetAnyway;
    hide ModesAreSet;
    hide WellFormed;
    hide Consistent;
    hide IsLast;
    hide Skips;
    assert forall t :: Ends(r, t0, es, t) <==> ModesAreSet(s.tree, s.modes, r.privileged, t);
  }

  lemma SameObject(t: Tree, t': Tree, p: Path)
    requires HasObject(t, p) && t'.objects == t.objects && p in t'.nodes && t'.nodes[p] == t.nodes[p]
    ensures HasObject(t', p) && ObjectAt(t', p) == ObjectAt(t, p)
  {
  }

  lemma HoldsOfObject(r: Request, t0: Tree, es: seq<Entry>, t: Tree, k: nat)
    requires Consistent(r, es) && Ends(r, t0, es, t)
    requires k < |es| && !Skips(r, es, k) && IsLast(r, es, k) && Intended(es[k], es[k].mode).Some?
    ensures Holds(r, Begin(r, t0).state, es, t, k)
  {
    var s, p := Begin(r, t0).state, PathOf(r, es[k]);
    var end := PutEntries(r, s, es, |es|).state.tree;
    ConsistentEnd(r, t0, es, t);
    EndsSucceeds(r, t0, es, t);
    assert !es[k].name.End? && !es[k].kind.Dir? && !es[k].kind.HardLink?;
    LastIsSpared(r, es, k);
    ObjectOutcome(r, s, es, k);
    if !es[k].kind.SymbolicLink? && forall j :: k < j < |es| ==> !es[j].kind.HardLink? {
      OwnMode(r, s, es, k);
    }
    assert HasLeaf(end, p);
    hide PutEntries;
    hide Begin;
    hide ModeAtEnd;
    SameObject(end, t, p);
  }

  lemma HoldsOfLink(r: Request, t0: Tree, es: seq<Entry>, t: Tree, k: nat)
    requires Consistent(r, es) && Ends(r, t0, es, t)
    requires k < |es| && !Skips(r, es, k) && IsLast(r, es, k) && es[k].kind.HardLink?
    ensures Holds(r, Begin(r, t0).state, es, t, k)
  {
    var s, p := Begin(r, t0).state, PathOf(r, es[k]);
    var end := PutEntries(r, s, es, |es|).state.tree;
    ConsistentEnd(r, t0, es, t);
    EndsSucceeds(r, t0, es, t);
    assert !es[k].name.End?;
    LastIsSpared(r, es, k);
    HardLinkStays(r, s, es, k);
    hide PutEntries;
    hide Begin;
    hide TargetOf;
    ObjectIsAt(end, p);
    SameObject(end, t, p);
  }

  lemma HoldsOfDirectory(r: Request, t0: Tree, es: seq<Entry>, t: Tree, k: nat)
    requires Consistent(r, es) && Ends(r, t0, es, t)
    requires k < |es| && !Skips(r, es, k) && IsLast(r, es, k) && es[k].kind.Dir?
    ensures Holds(r, Begin(r, t0).state, es, t, k)
  {
    var p, s := PathOf(r, es[k]), AtEnd(r, t0, es).state;
    ListedIsNoted(r, t0, es, k);
    hide PutEntries;
    hide Begin;
    hide Consistent;
    hide NotesDirectories;
    hide IsSetAnyway;
    SetKeepsShape(s.tree, s.modes, r.privileged, t);
    hide ModesAreSet;
    if IsSureOf(r, Begin(r, t0).state, es, p) {
      SetAnywayIsSet(s.tree, s.modes, r.privileged, t, p);
    }
  }

  /**
   For every consistent archive: at each listed path is what its last entry says, with its
   mode, which for a directory of an unprivileged extractor takes that it can be set.
   */
  lemma LastEntryHolds(r: Request, t0: Tree, es: seq<Entry>, t: Tree, k: nat)
    requires Consistent(r, es) && Ends(r, t0, es, t)
    requires k < |es| && !Skips(r, es, k) && IsLast(r, es, k)
    ensures Holds(r, Begin(r, t0).state, es, t, k)
  {
    if es[k].kind.Dir? {
      HoldsOfDirectory(r, t0, es, t, k);
    } else if es[k].kind.HardLink? {
      HoldsOfLink(r, t0, es, t, k);
    } else if Intended(es[k], es[k].mode).Some? {
      HoldsOfObject(r, t0, es, t, k);
    }
    hide Ends;
    hide Begin;
    hide TargetOf;
    hide ModeAtEnd;
  }

  ghost predicate IsOnTheWay(r: Request, es: seq<Entry>, n: nat, p: Path)
    requires n <= |es|
  {
    exists k :: 0 <= k < n && !es[k].name.End? && Within(PathOf(r, es[k]), p)
  }

  lemma StaysOnTheWay(r: Request, es: seq<Entry>, n: nat, p: Path)
    requires 0 < n <= |es|
    ensures IsOnTheWay(r, es, n - 1, p) ==> IsOnTheWay(r, es, n, p)
    ensures !es[n - 1].name.End? && Within(PathOf(r, es[n - 1]), p) ==> IsOnTheWay(r, es, n, p)
  {
    if IsOnTheWay(r, es, n - 1, p) {
      var k :| 0 <= k < n - 1 && !es[k].name.End? && Within(PathOf(r, es[k]), p);
      assert 0 <= k < n;
    }
  }

  lemma EntryBrings(r: Request, s: State, e: Entry, p: Path)
    requires Sound(s.tree) && p in PutEntry(r, s, e).state.tree.nodes && p !in s.tree.nodes
    ensures !e.name.End? && Within(PathOf(r, e), p)
  {
    if !e.name.End? {
      PutEntryTouches(r, s, e);
      hide PutEntry;
    }
  }

  /** What comes is listed, or on the way to something listed. */
  lemma {:induction false} OnlyListedComes(r: Request, s: State, es: seq<Entry>, n: nat, p: Path)
    requires n <= |es| && Sound(s.tree) && p in PutEntries(r, s, es, n).state.tree.nodes && p !in s.tree.nodes
    ensures IsOnTheWay(r, es, n, p)
  {
    hide *;
    if n == 0 {
      NoEntry(r, s, es);
    } else {
      var before := PutEntries(r, s, es, n - 1).state;
      NextEntry(r, s, es, n);
      StaysOnTheWay(r, es, n, p);
      TreeStaysSound(r, s, es, n - 1);
      if p in before.tree.nodes {
        OnlyListedComes(r, s, es, n - 1, p);
      } else {
        EntryBrings(r, before, es[n - 1], p);
      }
    }
  }

  /** What no entry touches is there at the end as it was; what is new is listed or on the way. */
  lemma OthersStay(r: Request, t0: Tree, es: seq<Entry>, t: Tree, p: Path)
    requires Ends(r, t0, es, t)
    ensures p in t0.nodes && IsSpared(r, es, 0, |es|, p) ==> p in t.nodes && SameNode(t0.nodes[p], t.nodes[p])
    ensures p in t.nodes && p !in t0.nodes ==> Within(r.target, p) || IsOnTheWay(r, es, |es|, p)
  {
    var s := Begin(r, t0).state;
    var end := PutEntries(r, s, es, |es|).state;
    EndsSucceeds(r, t0, es, t);
    NodesAtEnd(r, end, t, p);
    BeginKeepsAll(r, t0, p);
    RunSucceeds(r, s, es);
    hide *;
    if p in t.nodes && p !in t0.nodes && p !in s.tree.nodes {
      OnlyListedComes(r, s, es, |es|, p);
    }
    if p in t0.nodes && IsSpared(r, es, 0, |es|, p) {
      NoEntry(r, s, es);
      NodeStays(r, s, es, 0, |es|, p);
      StillSame(t0, s.tree, end.tree, t, p);
    }
  }

  lemma NodesAtEnd(r: Request, s: State, t: Tree, p: Path)
    requires ModesAreSet(s.tree, s.modes, r.privileged, t)
    ensures p in s.tree.nodes <==> p in t.nodes
    ensures p in t.nodes ==> SameNode(s.tree.nodes[p], t.nodes[p])
  {
    SetKeepsShape(s.tree, s.modes, r.privileged, t);
    hide ModesAreSet;
  }

  lemma StillSame(t0: Tree, t1: Tree, t2: Tree, t: Tree, p: Path)
    requires p in t0.nodes && p in t1.nodes && SameNode(t0.nodes[p], t1.nodes[p]) && IsStill(t1, t2, p)
    requires (p in t2.nodes <==> p in t.nodes) && (p in t.nodes && p in t2.nodes ==> SameNode(t2.nodes[p], t.nodes[p]))
    ensures p in t.nodes && SameNode(t0.nodes[p], t.nodes[p])
  {
  }

  lemma BeginKeepsAll(r: Request, t: Tree, p: Path)
    requires Ends0(r, t)
    ensures var t' := Begin(r, t).state.tree;
            && (p in t.nodes ==> p in t'.nodes && SameNode(t.nodes[p], t'.nodes[p]))
            && (p in t'.nodes && p !in t.nodes ==> Within(r.target, p))
  {
    EnsureDirectoryTouches(r, State(t, map[], {}), r.target, r.target, false);
    hide EnsureDirectory;
  }

  ghost predicate Ends0(r: Request, t: Tree) {
    Sound(t) && Begin(r, t).Next?
  }

  /**
   For every archive in which no path is both a directory and something else, and its tree
   at the end: at each listed path is what its last entry says, with the mode decided last
   for it, if it is a directory and can be given it; what no entry touches is still there;
   and nothing else comes.
   */
  lemma ExtractedContents(r: Request, t0: Tree, es: seq<Entry>, t: Tree)
    requires Consistent(r, es) && Ends(r, t0, es, t)
    ensures forall k :: 0 <= k < |es| && !Skips(r, es, k) && IsLast(r, es, k) ==> Holds(r, Begin(r, t0).state, es, t, k)
    ensures forall p :: p in t0.nodes && IsSpared(r, es, 0, |es|, p) ==>
      p in t.nodes && SameNode(t0.nodes[p], t.nodes[p])
    ensures forall p :: p in t.nodes && p !in t0.nodes ==> Within(r.target, p) || IsOnTheWay(r, es, |es|, p)
  {
    hide *;
    forall k | 0 <= k < |es| && !Skips(r, es, k) && IsLast(r, es, k)
      ensures Holds(r, Begin(r, t0).state, es, t, k)
    {
      LastEntryHolds(r, t0, es, t, k);
    }
    forall p
      ensures p in t0.nodes && IsSpared(r, es, 0, |es|, p) ==> p in t.nodes && SameNode(t0.nodes[p], t.nodes[p])
      ensures p in t.nodes && p !in t0.nodes ==> Within(r.target, p) || IsOnTheWay(r, es, |es|, p)
    {
      OthersStay(r, t0, es, t, p);
    }
  }

  // --------------------------------------------------------------------------------------- any archive

  /** The object has the mode m, or one that is noted for a path through which the extractor may come to it. */
  ghost predicate HasModeOf(r: Request, s: State, i: nat, x: Object, m: Mode) {
    || x == WithMode(x, m)
    || exists q :: q in s.modes && ComesWithinReach(s.tree, s.modes, r.privileged, q, i) && x == WithMode(x, s.modes[q])
  }

  lemma ObjectAtEnd(r: Request, s: State, t: Tree, p: Path, m: Mode)
    requires ModesAreSet(s.tree, s.modes, r.privileged, t)
    requires HasObject(s.tree, p) && !ObjectAt(s.tree, p).Symlink?
    requires ObjectAt(s.tree, p) == WithMode(ObjectAt(s.tree, p), m)
    ensures HasObject(t, p) && SameButMode(ObjectAt(s.tree, p), ObjectAt(t, p))
    ensures HasModeOf(r, s, s.tree.nodes[p].inode, ObjectAt(t, p), m)
  {
    hide ComesWithinReach;
    SetKeepsShape(s.tree, s.modes, r.privileged, t);
    var order :| IsOrder(order, s.modes.Keys) && t == SetInOrder(s.tree, s.modes, order, r.privileged);
    ReachedDecide(s.tree, s.modes, order, r.privileged, s.tree.nodes[p].inode);
    hide SetInOrder;
  }

  lemma ModeOfIntended(e: Entry, x: Object, m: Mode)
    requires Intended(e, m) == Some(x) && !e.kind.SymbolicLink?
    ensures !x.Symlink? && x == WithMode(x, m) && Intended(e, e.mode).Some?
    ensures SameButMode(Intended(e, e.mode).value, x)
  {
  }

  lemma SameTwice(x: Object, y: Object, z: Object)
    requires SameButMode(x, y) && SameButMode(y, z)
    ensures SameButMode(x, z)
  {
  }

  /**
   A file, device or pipe of any archive, extracted by anybody, with no later entry at its
   path or in place of a directory above it: it is there, as its entry says, and has the mode
   that the last entry for one of its names has given it, or a mode that is noted for a
   path through which the extractor may come to it. So if there is none, it has the former,
   which is its own if no hard link comes after it.
   */
  lemma FileMode(r: Request, t0: Tree, es: seq<Entry>, t: Tree, k: nat)
    requires Ends(r, t0, es, t) && k < |es|
    requires !Skips(r, es, k) && Intended(es[k], es[k].mode).Some? && !es[k].kind.SymbolicLink?
    requires IsSpared(r, es, k + 1, |es|, PathOf(r, es[k]))
    ensures var p, s := PathOf(r, es[k]), Begin(r, t0).state;
            var end := PutEntries(r, s, es, |es|).state;
            && HasObject(end.tree, p) && HasObject(t, p)
            && SameButMode(Intended(es[k], es[k].mode).value, ObjectAt(t, p))
            && var i := end.tree.nodes[p].inode;
               && HasModeOf(r, end, i, ObjectAt(t, p), ModeAtEnd(r, s, es, i, es[k].mode))
               && ((forall j :: k < j < |es| ==> !es[j].kind.HardLink?) ==>
                 ModeAtEnd(r, s, es, i, es[k].mode) == HeaderMode(r.options, es[k]))
  {
    var s, p := Begin(r, t0).state, PathOf(r, es[k]);
    var end := PutEntries(r, s, es, |es|).state;
    EndsSucceeds(r, t0, es, t);
    hide *;
    ObjectOutcome(r, s, es, k);
    ObjectIsAt(end.tree, p);
    var i := end.tree.nodes[p].inode;
    var m := ModeAtEnd(r, s, es, i, es[k].mode);
    ModeOfIntended(es[k], ObjectAt(end.tree, p), m);
    ObjectAtEnd(r, end, t, p, m);
    SameTwice(Intended(es[k], es[k].mode).value, ObjectAt(end.tree, p), ObjectAt(t, p));
    if forall j :: k < j < |es| ==> !es[j].kind.HardLink? {
      OwnMode(r, s, es, k);
    }
  }

  lemma ModeOfObject(e: Entry, t: Tree, t': Tree, p: Path, m: Mode)
    requires HasObject(t, p) && Intended(e, m) == Some(ObjectAt(t, p)) && !e.kind.SymbolicLink? && SameShape(t, t')
    ensures var i := t.nodes[p].inode;
      && HasPlace(t, Of(i)) && ModeAt(t, Of(i)) == m && HasPlace(t', Of(i)) && HasObject(t', p)
      && (Some(ObjectAt(t', p)) == Intended(e, m) <==> ModeAt(t', Of(i)) == m)
  {
  }

  /** The entry's object is at p, whatever modes are set, and has mode m exactly when the entry intends it with m. */
  lemma EndsWithMode(r: Request, t0: Tree, es: seq<Entry>, e: Entry, p: Path, m: Mode, t: Tree)
    requires Ends(r, t0, es, t) && HasObject(AtEnd(r, t0, es).state.tree, p)
    requires Intended(e, m) == Some(ObjectAt(AtEnd(r, t0, es).state.tree, p)) && !e.kind.SymbolicLink?
    ensures var i := AtEnd(r, t0, es).state.tree.nodes[p].inode;
      && HasObject(t, p) && HasPlace(t, Of(i))
      && (Some(ObjectAt(t, p)) == Intended(e, m) <==> ModeAt(t, Of(i)) == m)
  {
    var s := AtEnd(r, t0, es).state;
    hide AtEnd;
    SetKeepsShape(s.tree, s.modes, r.privileged, t);
    ModeOfObject(e, s.tree, t, p, m);
    hide ModesAreSet;
    hide SameShape;
  }

  lemma EndsAreThose(r: Request, t0: Tree, es: seq<Entry>)
    requires WellFormed(t0) && Begin(r, t0).Next? && AtEnd(r, t0, es).Next?
    ensures var end := AtEnd(r, t0, es).state;
            forall t :: Ends(r, t0, es, t) <==> ModesAreSet(end.tree, end.modes, r.privileged, t)
  {
    hide AtEnd;
    hide ModesAreSet;
    hide Begin;
    hide WellFormed;
  }

  /**
   For every archive and every extractor: whatever the order in which modes are set, a file,
   device or pipe ends with the mode that was decided last for it exactly when all modes that
   are noted for paths through which the extractor may come to it are that one.
   */
  lemma DecidedModeStaysExactlyWhen(r: Request, t0: Tree, es: seq<Entry>, k: nat)
    requires WellFormed(t0) && Begin(r, t0).Next? && AtEnd(r, t0, es).Next? && k < |es|
    requires !Skips(r, es, k) && Intended(es[k], es[k].mode).Some? && !es[k].kind.SymbolicLink?
    requires IsSpared(r, es, k + 1, |es|, PathOf(r, es[k]))
    ensures var p, end := PathOf(r, es[k]), AtEnd(r, t0, es).state;
            && HasObject(end.tree, p)
            && var i := end.tree.nodes[p].inode;
               var m := ModeAtEnd(r, Begin(r, t0).state, es, i, es[k].mode);
               (forall t :: Ends(r, t0, es, t) ==> HasObject(t, p) && Some(ObjectAt(t, p)) == Intended(es[k], m)) <==>
               AllNoted(end.tree, end.modes, r.privileged, i, m)
  {
    var p, s, end := PathOf(r, es[k]), Begin(r, t0).state, AtEnd(r, t0, es).state;
    EndsAreThose(r, t0, es);
    var some := SomeEnd(end.tree, end.modes, r.privileged);
    EndsSucceeds(r, t0, es, some);
    AtEndIs(r, t0, es);
    hide *;
    ObjectOutcome(r, s, es, k);
    ObjectIsAt(end.tree, p);
    var i := end.tree.nodes[p].inode;
    var m := ModeAtEnd(r, s, es, i, es[k].mode);
    ShapeItself(end.tree);
    ModeOfObject(es[k], end.tree, end.tree, p, m);
    ObjectKeepsExactlyWhen(end.tree, end.modes, r.privileged, i);
    forall t | Ends(r, t0, es, t)
      ensures HasObject(t, p) && HasPlace(t, Of(i))
      ensures Some(ObjectAt(t, p)) == Intended(es[k], m) <==> ModeAt(t, Of(i)) == m
    {
      EndsWithMode(r, t0, es, es[k], p, m, t);
    }
  }

  lemma AtEndIs(r: Request, t0: Tree, es: seq<Entry>)
    ensures AtEnd(r, t0, es) == PutEntries(r, Begin(r, t0).state, es, |es|)
  {
    hide PutEntries;
  }

  lemma ShapeItself(t: Tree)
    ensures SameShape(t, t)
  {
  }
}
