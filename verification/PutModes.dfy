/**
 The modes that directories have after an archive was extracted.
 */
module PutModes {
  import opened Optional
  import opened Paths
  import opened FileTree
  import opened SymlinkResolution
  import opened CopierPut
  import opened ModeSetting
  import opened PutClosure

  // ------------------------------------------------------------------------------ what is to be expected

  predicate IsListedDirectory(r: Request, e: Entry, p: Path) {
    !e.name.End? && e.kind.Dir? && PathOf(r, e) == p
  }

  /** The mode in the last of the first n headers that list p as a directory. */
  function LastMode(r: Request, es: seq<Entry>, n: nat, p: Path): Option<Mode>
    requires n <= |es|
  {
    if n == 0 then None
    else if IsListedDirectory(r, es[n - 1], p) then Some(HeaderMode(r.options, es[n - 1]))
    else LastMode(r, es, n - 1, p)
  }

  /** A listed directory's own mode, or that which it had before, or the default. */
  function Expected(r: Request, t: Tree, es: seq<Entry>, n: nat, p: Path): Mode
    requires n <= |es|
  {
    var last := LastMode(r, es, n, p);
    if last.Some? then last.value
    else if IsDirectory(t, p) then t.nodes[p].mode
    else DefaultDirMode(r.options)
  }

  /** An entry calls for a directory at p. */
  predicate CallsFor(r: Request, e: Entry, p: Path) {
    !e.name.End? && (Within(Parent(PathOf(r, e)), p) || (e.kind.Dir? && PathOf(r, e) == p))
  }

  ghost predicate IsCalledFor(r: Request, es: seq<Entry>, p: Path) {
    Within(r.target, p) || exists k :: 0 <= k < |es| && CallsFor(r, es[k], p)
  }

  /** The entry puts something other than a directory at its path. */
  predicate IsOther(e: Entry) {
    !e.name.End? && !e.kind.Dir?
  }

  /** No path is to be both a directory and something else. */
  ghost predicate Consistent(r: Request, es: seq<Entry>) {
    forall k :: 0 <= k < |es| && IsOther(es[k]) ==> !IsCalledFor(r, es, PathOf(r, es[k]))
  }

  lemma CalledForAbove(r: Request, es: seq<Entry>, p: Path, q: Path)
    requires IsCalledFor(r, es, p) && Within(p, q)
    ensures IsCalledFor(r, es, q)
  {
    if Within(r.target, p) {
      WithinTransitive(r.target, p, q);
    } else {
      var k :| 0 <= k < |es| && CallsFor(r, es[k], p);
      var path := PathOf(r, es[k]);
      if Within(Parent(path), p) {
        WithinTransitive(Parent(path), p, q);
      }
      assert CallsFor(r, es[k], q);
    }
  }

  // ---------------------------------------------------------------------------------------- the invariant

  /** The mode that a directory is going to have, if nothing more happens. */
  function Settled(s: State, p: Path): Mode
    requires IsDirectory(s.tree, p)
  {
    if p in s.modes then s.modes[p] else s.tree.nodes[p].mode
  }

  ghost predicate ModesFit(r: Request, t: Tree, es: seq<Entry>, n: nat, s: State)
    requires n <= |es|
  {
    forall p :: IsDirectory(s.tree, p) ==> Settled(s, p) == Expected(r, t, es, n, p)
  }

  /** Modes are noted for directories only, and only where one is called for. */
  ghost predicate NotedFit(r: Request, es: seq<Entry>, s: State) {
    forall p :: p in s.modes ==> IsDirectory(s.tree, p) && IsCalledFor(r, es, p)
  }

  ghost predicate IsReplaced(r: Request, es: seq<Entry>, p: Path) {
    exists k :: 0 <= k < |es| && IsOther(es[k]) && Within(p, PathOf(r, es[k]))
  }

  /** Directories that are gone have been replaced. */
  ghost predicate OnlyReplaced(r: Request, t: Tree, es: seq<Entry>, s: State) {
    forall p :: IsDirectory(t, p) && !IsDirectory(s.tree, p) ==> IsReplaced(r, es, p)
  }

  ghost predicate ListedNoted(r: Request, es: seq<Entry>, n: nat, s: State)
    requires n <= |es|
  {
    forall p :: LastMode(r, es, n, p).Some? ==> p in s.modes
  }

  ghost predicate Inv(r: Request, t: Tree, es: seq<Entry>, n: nat, s: State) {
    && n <= |es| && ModesFit(r, t, es, n, s) && NotedFit(r, es, s)
    && OnlyReplaced(r, t, es, s) && ListedNoted(r, es, n, s)
  }

  lemma NotBoth(r: Request, es: seq<Entry>, p: Path)
    requires Consistent(r, es) && IsCalledFor(r, es, p)
    ensures !IsReplaced(r, es, p)
  {
    if IsReplaced(r, es, p) {
      var k :| 0 <= k < |es| && IsOther(es[k]) && Within(p, PathOf(r, es[k]));
      CalledForAbove(r, es, p, PathOf(r, es[k]));
    }
  }

  // ------------------------------------------------------------------------------------------- directories

  lemma MakeDirectoryKeeps(r: Request, t: Tree, es: seq<Entry>, n: nat, s: State, p: Path)
    requires Consistent(r, es) && Inv(r, t, es, n, s) && IsCalledFor(r, es, p)
    ensures Inv(r, t, es, n, MakeDirectory(r, s, p).state)
  {
    var s' := MakeDirectory(r, s, p).state;
    if s' != s {
      assert p !in s.tree.nodes && !IsDirectory(s.tree, p);
      assert p !in s.modes;
      NotBoth(r, es, p);
      assert LastMode(r, es, n, p).None? && !IsDirectory(t, p);
    }
  }

  lemma {:induction false} EnsureDirectoryKeeps(r: Request, t: Tree, es: seq<Entry>, n: nat, s: State, p: Path)
    requires Consistent(r, es) && Inv(r, t, es, n, s) && IsCalledFor(r, es, p)
    ensures Inv(r, t, es, n, EnsureDirectory(r, s, p).state)
    decreases p
  {
    if p.Below? {
      hide Inv;
      CalledForAbove(r, es, p, p.dir);
      EnsureDirectoryKeeps(r, t, es, n, s, p.dir);
      var above := EnsureDirectory(r, s, p.dir);
      if above.Next? {
        MakeDirectoryKeeps(r, t, es, n, above.state, p);
      }
    }
  }

  // ---------------------------------------------------------------------------------------- other entries

  /**
   What putting something else at q does to directories: it may remove those at q and
   below, and make the one above writable, noting its mode.
   */
  ghost predicate Quiet(s: State, s': State, q: Path) {
    && (forall p :: IsDirectory(s'.tree, p) ==> IsDirectory(s.tree, p) && Settled(s', p) == Settled(s, p))
    && (forall p :: IsDirectory(s.tree, p) && !IsDirectory(s'.tree, p) ==> Within(p, q))
    && (forall p :: p in s.modes ==> p in s'.modes && s'.modes[p] == s.modes[p])
    && (forall p :: p in s'.modes && p !in s.modes ==> p == Parent(q) && IsDirectory(s.tree, p))
  }

  lemma QuietTwice(s: State, s': State, s'': State, q: Path)
    requires Quiet(s, s', q) && Quiet(s', s'', q)
    ensures Quiet(s, s'', q)
  {
  }

  lemma MakeWriteableIsQuiet(r: Request, s: State, q: Path)
    ensures Quiet(s, MakeWriteable(r, s, Parent(q)).state, q)
  {
  }

  lemma RemoveAllIsQuiet(s: State, q: Path, privileged: bool)
    requires RemoveAll(s.tree, q, privileged).Done?
    ensures Quiet(s, s.(tree := RemoveAll(s.tree, q, privileged).tree), q)
  {
  }

  lemma AttemptIsQuiet(s: State, q: Path, maker: Maker, privileged: bool)
    requires Attempt(s.tree, q, maker, privileged).Done?
    ensures Quiet(s, s.(tree := Attempt(s.tree, q, maker, privileged).tree), q)
  {
  }

  lemma ReplaceIsQuiet(r: Request, s: State, q: Path, maker: Maker)
    ensures Quiet(s, Replace(r, s, q, maker).state, q)
  {
    var a := Attempt(s.tree, q, maker, r.privileged);
    if a.Done? {
      AttemptIsQuiet(s, q, maker, r.privileged);
    } else if a.Exists? && RemoveAll(s.tree, q, r.privileged).Done? {
      var s' := s.(tree := RemoveAll(s.tree, q, r.privileged).tree);
      RemoveAllIsQuiet(s, q, r.privileged);
      if Attempt(s'.tree, q, maker, r.privileged).Done? {
        AttemptIsQuiet(s', q, maker, r.privileged);
        QuietTwice(s, s', s'.(tree := Attempt(s'.tree, q, maker, r.privileged).tree), q);
      }
    }
  }

  lemma CreateNewIsQuiet(r: Request, s: State, q: Path, content: string)
    ensures Quiet(s, CreateNew(r, s, q, content).state, q)
  {
    var maker := MakeObject(Regular(content, SCRATCH_FILE));
    var a := Attempt(s.tree, q, maker, r.privileged);
    if a.Done? {
      AttemptIsQuiet(s, q, maker, r.privileged);
    } else if a.Denied? {
      MakeWriteableIsQuiet(r, s, q);
      var w := MakeWriteable(r, s, Parent(q));
      if w.Next? && Attempt(w.state.tree, q, maker, r.privileged).Done? {
        AttemptIsQuiet(w.state, q, maker, r.privileged);
        QuietTwice(s, w.state, w.state.(tree := Attempt(w.state.tree, q, maker, r.privileged).tree), q);
      }
    }
  }

  lemma ClearWayIsQuiet(r: Request, s: State, q: Path)
    ensures Quiet(s, ClearWay(r, s, q).state, q)
  {
    if RemoveAll(s.tree, q, r.privileged).Done? {
      RemoveAllIsQuiet(s, q, r.privileged);
    } else {
      MakeWriteableIsQuiet(r, s, q);
      var w := MakeWriteable(r, s, Parent(q));
      if w.Next? && RemoveAll(w.state.tree, q, r.privileged).Done? {
        RemoveAllIsQuiet(w.state, q, r.privileged);
        QuietTwice(s, w.state, w.state.(tree := RemoveAll(w.state.tree, q, r.privileged).tree), q);
      }
    }
  }

  lemma CreateFileIsQuiet(r: Request, s: State, q: Path, content: string)
    ensures Quiet(s, CreateFile(r, s, q, content).state, q)
  {
    if q !in s.tree.nodes {
      CreateNewIsQuiet(r, s, q, content);
    } else if !(r.options.noOverwriteDirNonDir && IsDirectory(s.tree, q)) {
      ClearWayIsQuiet(r, s, q);
      var cleared := ClearWay(r, s, q);
      if cleared.Next? {
        CreateNewIsQuiet(r, cleared.state, q, content);
        QuietTwice(s, cleared.state, CreateNew(r, cleared.state, q, content).state, q);
      }
    }
  }

  lemma MakeIsQuiet(r: Request, s: State, q: Path, e: Entry)
    requires !e.kind.Dir?
    ensures Quiet(s, Make(r, s, q, e).state, q)
  {
    hide CreateFile;
    hide Replace;
    hide Quiet;
    match e.kind
    case RegularFile(content) => CreateFileIsQuiet(r, s, q, content);
    case HardLink(linkname) =>
      var target := LinkTarget(r, SymlinksOf(s.tree), linkname);
      if target.Resolved? {
        ReplaceIsQuiet(r, s, q, MakeLink(target.path));
      } else {
        SameIsQuiet(s, q);
      }
    case SymbolicLink(target) => ReplaceIsQuiet(r, s, q, MakeObject(Symlink(target)));
    case CharDevice(major, minor) => ReplaceIsQuiet(r, s, q, MakeObject(Device(false, major, minor, SCRATCH_FILE)));
    case BlockDevice(major, minor) => ReplaceIsQuiet(r, s, q, MakeObject(Device(true, major, minor, SCRATCH_FILE)));
    case NamedPipe => ReplaceIsQuiet(r, s, q, MakeObject(Fifo(SCRATCH_FILE)));
    case GlobalHeader => SameIsQuiet(s, q);
    case Unrecognized => SameIsQuiet(s, q);
  }

  lemma SameIsQuiet(s: State, q: Path)
    ensures Quiet(s, s, q)
  {
  }

  predicate HasLeaf(t: Tree, q: Path) {
    q in t.nodes && t.nodes[q].Leaf?
  }

  lemma ReplaceMakesLeaf(r: Request, s: State, q: Path, maker: Maker)
    requires Replace(r, s, q, maker).Next?
    ensures HasLeaf(Replace(r, s, q, maker).state.tree, q)
  {
  }

  lemma CreateFileMakesLeaf(r: Request, s: State, q: Path, content: string)
    requires CreateFile(r, s, q, content).Next?
    ensures HasLeaf(CreateFile(r, s, q, content).state.tree, q)
  {
    hide MakeWriteable;
    hide ClearWay;
  }

  /** An entry that is not a directory makes something that is not one. */
  lemma MakesLeaf(r: Request, s: State, q: Path, e: Entry)
    requires !e.kind.Dir? && !e.kind.GlobalHeader? && Make(r, s, q, e).Next?
    ensures HasLeaf(Make(r, s, q, e).state.tree, q)
  {
    hide CreateFile;
    hide Replace;
    match e.kind
    case RegularFile(content) => CreateFileMakesLeaf(r, s, q, content);
    case HardLink(linkname) => ReplaceMakesLeaf(r, s, q, MakeLink(LinkTarget(r, SymlinksOf(s.tree), linkname).path));
    case SymbolicLink(target) => ReplaceMakesLeaf(r, s, q, MakeObject(Symlink(target)));
    case CharDevice(major, minor) => ReplaceMakesLeaf(r, s, q, MakeObject(Device(false, major, minor, SCRATCH_FILE)));
    case BlockDevice(major, minor) => ReplaceMakesLeaf(r, s, q, MakeObject(Device(true, major, minor, SCRATCH_FILE)));
    case NamedPipe => ReplaceMakesLeaf(r, s, q, MakeObject(Fifo(SCRATCH_FILE)));
  }

  lemma ChmodOfLeafIsQuiet(s: State, q: Path, m: Mode)
    requires HasLeaf(s.tree, q)
    ensures Quiet(s, s.(tree := Chmod(s.tree, q, m)), q)
  {
  }

  lemma QuietKeeps(r: Request, t: Tree, es: seq<Entry>, n: nat, s: State, s': State, k: nat)
    requires Consistent(r, es) && Inv(r, t, es, n, s) && k < |es| && IsOther(es[k])
    requires Quiet(s, s', PathOf(r, es[k]))
    ensures Inv(r, t, es, n, s')
  {
    var q := PathOf(r, es[k]);
    assert CallsFor(r, es[k], Parent(q));
    forall p | p in s'.modes
      ensures IsDirectory(s'.tree, p) && IsCalledFor(r, es, p)
    {
      NotBoth(r, es, p);
    }
  }

  // ------------------------------------------------------------------------------------------ whole entries

  /** What the entry of a directory p does to directories. */
  ghost predicate Noted(s: State, s': State, p: Path, m: Mode) {
    && (forall q :: q != p ==> (IsDirectory(s'.tree, q) <==> IsDirectory(s.tree, q)))
    && (forall q :: q != p && IsDirectory(s.tree, q) ==> Settled(s', q) == Settled(s, q))
    && s'.modes == s.modes[p := m]
  }

  lemma PutDirectoryNotes(r: Request, s: State, p: Path, m: Mode)
    requires PutDirectory(r, s, p, m).Next?
    ensures Noted(s, PutDirectory(r, s, p, m).state, p, m) && IsDirectory(PutDirectory(r, s, p, m).state.tree, p)
  {
  }

  /** An entry for a directory that fails changes no other directory, and notes nothing for another. */
  lemma PutDirectoryFails(r: Request, s: State, p: Path, m: Mode)
    requires PutDirectory(r, s, p, m).Failed?
    ensures var s' := PutDirectory(r, s, p, m).state;
            && (forall q :: IsDirectory(s'.tree, q) <==> IsDirectory(s.tree, q))
            && (forall q :: q != p && IsDirectory(s.tree, q) ==> Settled(s', q) == Settled(s, q))
            && (forall q :: q in s'.modes && q != p ==> q in s.modes)
            && (r.privileged ==> !IsDirectory(s.tree, p))
  {
  }

  lemma NotedKeeps(r: Request, t: Tree, es: seq<Entry>, n: nat, s: State, s': State)
    requires Inv(r, t, es, n, s) && n < |es| && !es[n].name.End? && es[n].kind.Dir?
    requires Noted(s, s', PathOf(r, es[n]), HeaderMode(r.options, es[n])) && IsDirectory(s'.tree, PathOf(r, es[n]))
    ensures Inv(r, t, es, n + 1, s')
  {
    assert CallsFor(r, es[n], PathOf(r, es[n]));
  }

  /** An entry that is not a directory leaves it at what is expected. */
  lemma OtherKeeps(r: Request, t: Tree, es: seq<Entry>, n: nat, s: State)
    requires Inv(r, t, es, n, s) && n < |es| && (es[n].name.End? || !es[n].kind.Dir?)
    ensures Inv(r, t, es, n + 1, s)
  {
    assert forall p :: LastMode(r, es, n + 1, p) == LastMode(r, es, n, p);
  }

  lemma IgnoringKeeps(r: Request, t: Tree, es: seq<Entry>, n: nat, s: State, ignored: set<Raw>)
    requires Inv(r, t, es, n, s)
    ensures Inv(r, t, es, n, s.(ignored := ignored))
  {
  }

  lemma PutOtherKeeps(r: Request, t: Tree, es: seq<Entry>, n: nat, s: State)
    requires Consistent(r, es) && Inv(r, t, es, n, s) && n < |es| && IsOther(es[n])
    ensures var made := Make(r, s, PathOf(r, es[n]), es[n]);
            && Inv(r, t, es, n, made.state)
            && (made.Next? && !es[n].kind.GlobalHeader? ==>
              Inv(r, t, es, n,
                  made.state.(tree := Chmod(made.state.tree, PathOf(r, es[n]), HeaderMode(r.options, es[n])))))
  {
    hide Inv;
    hide Make;
    hide Quiet;
    var q := PathOf(r, es[n]);
    var made := Make(r, s, q, es[n]);
    MakeIsQuiet(r, s, q, es[n]);
    QuietKeeps(r, t, es, n, s, made.state, n);
    if made.Next? && !es[n].kind.GlobalHeader? {
      MakesLeaf(r, s, q, es[n]);
      ChmodOfLeafIsQuiet(made.state, q, HeaderMode(r.options, es[n]));
      var after := made.state.(tree := Chmod(made.state.tree, q, HeaderMode(r.options, es[n])));
      QuietKeeps(r, t, es, n, made.state, after, n);
    }
  }

  /** One entry. If it fails, what is expected is still what the entries before it ask for. */
  lemma PutEntryKeeps(r: Request, t: Tree, es: seq<Entry>, n: nat, s: State)
    requires Consistent(r, es) && Inv(r, t, es, n, s) && n < |es|
    ensures var step := PutEntry(r, s, es[n]);
            && (step.Next? ==> Inv(r, t, es, n + 1, step.state))
            && (step.Failed? ==> FailedFits(r, t, es, n, step.state))
  {
    hide Make;
    hide EnsureDirectory;
    hide PutDirectory;
    var e := es[n];
    var p := PathOf(r, e);
    if e.name.End? {
      IgnoringKeeps(r, t, es, n, s, s.ignored + {e.name});
      OtherKeeps(r, t, es, n, s.(ignored := s.ignored + {e.name}));
    } else {
      assert CallsFor(r, e, Parent(p));
      EnsureDirectoryKeeps(r, t, es, n, s, Parent(p));
      var parent := EnsureDirectory(r, s, Parent(p));
      if parent.Next? {
        EntryInPlaceKeeps(r, t, es, n, s, parent.state);
      } else {
        FitsAfterFailure(r, t, es, n, parent.state);
      }
    }
  }

  /** The rest of an entry, with its parent directory in place. */
  lemma EntryInPlaceKeeps(r: Request, t: Tree, es: seq<Entry>, n: nat, s: State, s1: State)
    requires Consistent(r, es) && Inv(r, t, es, n, s1) && n < |es| && !es[n].name.End?
    requires EnsureDirectory(r, s, Parent(PathOf(r, es[n]))) == Next(s1)
    ensures var step := PutEntry(r, s, es[n]);
            && (step.Next? ==> Inv(r, t, es, n + 1, step.state))
            && (step.Failed? ==> FailedFits(r, t, es, n, step.state))
  {
    hide EnsureDirectory;
    hide FailedFits;
    hide ModesFit;
    hide NotedFit;
    hide OnlyReplaced;
    hide ListedNoted;
    var e := es[n];
    var p := PathOf(r, e);
    if e.kind.Dir? {
      hide PutDirectory;
      var m := HeaderMode(r.options, e);
      if PutDirectory(r, s1, p, m).Next? {
        PutDirectoryNotes(r, s1, p, m);
        NotedKeeps(r, t, es, n, s1, PutDirectory(r, s1, p, m).state);
      } else {
        FailedDirectoryKeeps(r, t, es, n, s1);
      }
    } else {
      hide Make;
      PutOtherKeeps(r, t, es, n, s1);
      IgnoringKeeps(r, t, es, n, s1, s.ignored + {e.name});
      if PutEntry(r, s, e).Next? {
        OtherKeeps(r, t, es, n, PutEntry(r, s, e).state);
      } else {
        FitsAfterFailure(r, t, es, n, PutEntry(r, s, e).state);
      }
    }
  }

  lemma FailedDirectoryKeeps(r: Request, t: Tree, es: seq<Entry>, n: nat, s: State)
    requires Inv(r, t, es, n, s) && n < |es|
    requires PutDirectory(r, s, PathOf(r, es[n]), HeaderMode(r.options, es[n])).Failed?
    ensures FailedFits(r, t, es, n, PutDirectory(r, s, PathOf(r, es[n]), HeaderMode(r.options, es[n])).state)
  {
    PutDirectoryFails(r, s, PathOf(r, es[n]), HeaderMode(r.options, es[n]));
    hide PutDirectory;
    hide OnlyReplaced;
    hide ListedNoted;
  }

  /**
   After the entry at n has failed: directories have, or are going to have, the modes that the
   entries before it ask for, other than the one that it was to make.
   */
  ghost predicate FailedFits(r: Request, t: Tree, es: seq<Entry>, n: nat, s: State) {
    && n < |es|
    && (forall p :: IsDirectory(s.tree, p) && (r.privileged || p != PathOf(r, es[n])) ==>
      Settled(s, p) == Expected(r, t, es, n, p))
    && (forall p :: p in s.modes && p != PathOf(r, es[n]) ==> IsDirectory(s.tree, p))
  }

  lemma FitsAfterFailure(r: Request, t: Tree, es: seq<Entry>, n: nat, s: State)
    requires Inv(r, t, es, n, s) && n < |es|
    ensures FailedFits(r, t, es, n, s)
  {
  }

  /** The entry at k is the one that fails. */
  predicate StopsAt(r: Request, s: State, es: seq<Entry>, k: nat) {
    k < |es| && PutEntries(r, s, es, k).Next? && PutEntries(r, s, es, k + 1).Failed?
  }

  /** What holds after n entries, or after the one that failed. */
  ghost predicate StepFits(r: Request, t: Tree, es: seq<Entry>, n: nat, s: State, step: Step) {
    && (step.Next? ==> Inv(r, t, es, n, step.state))
    && (step.Failed? ==> exists k ::
      0 <= k < n && k < |es| && StopsAt(r, s, es, k) && FailedFits(r, t, es, k, step.state))
  }

  lemma NextKeeps(r: Request, t: Tree, es: seq<Entry>, n: nat, s: State)
    requires Consistent(r, es) && n < |es| && StepFits(r, t, es, n, s, PutEntries(r, s, es, n))
    ensures StepFits(r, t, es, n + 1, s, PutEntries(r, s, es, n + 1))
  {
    NextEntry(r, s, es, n + 1);
    var before := PutEntries(r, s, es, n);
    if before.Next? {
      PutEntryKeeps(r, t, es, n, before.state);
      hide PutEntry;
      hide Inv;
      hide FailedFits;
      assert PutEntries(r, s, es, n + 1).Failed? ==> StopsAt(r, s, es, n);
    } else {
      hide *;
      LaterStop(r, t, es, n, s, before);
    }
  }

  lemma LaterStop(r: Request, t: Tree, es: seq<Entry>, n: nat, s: State, step: Step)
    requires StepFits(r, t, es, n, s, step) && step.Failed?
    ensures StepFits(r, t, es, n + 1, s, step)
  {
    hide StopsAt;
    hide FailedFits;
  }

  lemma {:induction false} PutEntriesKeep(r: Request, t: Tree, es: seq<Entry>, n: nat, s: State)
    requires Consistent(r, es) && Inv(r, t, es, 0, s) && n <= |es|
    ensures StepFits(r, t, es, n, s, PutEntries(r, s, es, n))
  {
    if n == 0 {
      hide Inv;
      hide PutEntry;
    } else {
      hide *;
      PutEntriesKeep(r, t, es, n - 1, s);
      NextKeeps(r, t, es, n - 1, s);
    }
  }

  lemma BeginKeeps(r: Request, t: Tree, es: seq<Entry>)
    requires Consistent(r, es)
    ensures Inv(r, t, es, 0, Begin(r, t).state)
  {
    var s := State(t, map[], {});
    assert Inv(r, t, es, 0, s);
    EnsureDirectoryKeeps(r, t, es, 0, s, r.target);
  }

  // ------------------------------------------------------------------------------------------- the results

  /** The state after the last entry, or after the one that failed. */
  function AtEnd(r: Request, t: Tree, es: seq<Entry>): Step {
    PutEntries(r, Begin(r, t).state, es, |es|)
  }

  /** The archive is extracted without failure, and t' is the tree at the end. */
  ghost predicate Ends(r: Request, t: Tree, es: seq<Entry>, t': Tree) {
    var step := AtEnd(r, t, es);
    WellFormed(t) && Begin(r, t).Next? && step.Next? && ModesAreSet(step.state.tree, step.state.modes, r.privileged, t')
  }

  /** Every directory has its last header's mode, or else the mode it had before, or else the default. */
  ghost predicate ModesAsExpected(r: Request, t: Tree, es: seq<Entry>, t': Tree) {
    forall p :: IsDirectory(t', p) ==> t'.nodes[p].mode == Expected(r, t, es, |es|, p)
  }

  lemma ExpectedWhenSet(r: Request, t: Tree, es: seq<Entry>, s: State, t': Tree)
    requires ModesFit(r, t, es, |es|, s) && NotesDirectories(s.tree, s.modes) && Between(s.tree, s.modes, t')
    ensures ModesAsExpected(r, t, es, t') <==> AllSet(t', s.modes)
  {
    hide Closed;
    hide Expected;
    assert forall p :: IsDirectory(t', p) <==> IsDirectory(s.tree, p);
    if ModesAsExpected(r, t, es, t') {
      forall p | p in s.modes
        ensures p in t'.nodes && t'.nodes[p] == Directory(s.modes[p])
      {
        assert IsDirectory(s.tree, p) && IsDirectory(t', p);
      }
    }
  }

  lemma EndFits(r: Request, t: Tree, es: seq<Entry>)
    requires Consistent(r, es) && Closed(t) && Begin(r, t).Next? && AtEnd(r, t, es).Next?
    ensures var s := AtEnd(r, t, es).state;
            Inv(r, t, es, |es|, s) && NotesDirectories(s.tree, s.modes)
  {
    BeginKeeps(r, t, es);
    PutEntriesKeep(r, t, es, |es|, Begin(r, t).state);
    BeginCloses(r, t);
    EntriesClose(r, Begin(r, t).state, es, |es|);
    hide PutEntries;
    hide Begin;
    hide ModesFit;
    hide OnlyReplaced;
    hide ListedNoted;
    hide Closed;
  }

  /**
   Deferred modes, for every archive in which no path is both a directory and something
   else. All directories that are listed are there. Whatever the order in which the noted
   modes are set, every directory has the mode that is expected, exactly when they can all be
   set: always by a privileged extractor, and by another one exactly if what has not got its
   mode yet has only directories above it that may be searched, as they stand and as noted.
   */
  lemma DeferredModes(r: Request, t: Tree, es: seq<Entry>)
    requires Consistent(r, es) && Closed(t) && Begin(r, t).Next? && AtEnd(r, t, es).Next?
    ensures var s := AtEnd(r, t, es).state;
            && (forall p :: p in s.modes ==> IsDirectory(s.tree, p))
            && (forall p :: LastMode(r, es, |es|, p).Some? ==> IsDirectory(s.tree, p))
            && ((forall t' :: ModesAreSet(s.tree, s.modes, r.privileged, t') ==> ModesAsExpected(r, t, es, t')) <==>
              CanBeSet(s.tree, s.modes, r.privileged))
  {
    EndFits(r, t, es);
    var s := AtEnd(r, t, es).state;
    SetExactlyWhen(s.tree, s.modes, r.privileged);
    hide AtEnd;
    hide ModesAsExpected;
    hide AllSet;
    hide CanBeSet;
    hide ModesAreSet;
    hide Expected;
    hide ModesFit;
    hide OnlyReplaced;
    forall t' | ModesAreSet(s.tree, s.modes, r.privileged, t')
      ensures ModesAsExpected(r, t, es, t') <==> AllSet(t', s.modes)
    {
      OnlyDirectoriesAreSet(s.tree, s.modes, r.privileged, t');
      ExpectedWhenSet(r, t, es, s, t');
    }
  }

  /** The directory has the mode that the first k entries ask for, or the extractor could not set it. */
  predicate AsBefore(r: Request, t: Tree, es: seq<Entry>, k: nat, s: Tree, t': Tree, d: Path)
    requires k <= |es|
  {
    && IsDirectory(t', d)
    && (|| t'.nodes[d].mode == Expected(r, t, es, k, d)
        || (!r.privileged && IsDirectory(s, d) && t'.nodes[d] == s.nodes[d]))
  }

  lemma DirectoryLeadsToItself(t: Tree, p: Path, d: Path)
    requires Closed(t) && IsDirectory(t, p)
    ensures LeadsTo(t, p, At(d)) <==> p == d
  {
    FindsItself(t, p, true);
    hide Find;
  }

  lemma AfterFailure(r: Request, t: Tree, es: seq<Entry>, k: nat, s: State, t': Tree, d: Path)
    requires Closed(s.tree) && FailedFits(r, t, es, k, s) && ModesAreSet(s.tree, s.modes, r.privileged, t')
    requires IsDirectory(s.tree, d) && d != PathOf(r, es[k]) && !LeadsTo(s.tree, PathOf(r, es[k]), At(d))
    ensures AsBefore(r, t, es, k, s.tree, t', d)
  {
    hide Find;
    var order :| IsOrder(order, s.modes.Keys) && t' == SetInOrder(s.tree, s.modes, order, r.privileged);
    EndsWithSome(s.tree, s.modes, order, r.privileged, At(d));
    forall p | p in s.modes && p != PathOf(r, es[k])
      ensures LeadsTo(s.tree, p, At(d)) <==> p == d
    {
      DirectoryLeadsToItself(s.tree, p, d);
    }
    hide LeadsTo;
    if r.privileged {
      assert PlaceGets(s.tree, s.modes, At(d), Settled(s, d));
      GetsMode(s.tree, s.modes, At(d), Settled(s, d), t');
    }
    hide SetInOrder;
  }

  /** After an entry that failed, the same holds of the entries before it, if its own path does not lead there. */
  lemma DeferredModesAfterFailure(r: Request, t: Tree, es: seq<Entry>, t': Tree)
    requires Consistent(r, es) && Closed(t) && Begin(r, t).Next? && AtEnd(r, t, es).Failed?
    requires ModesAreSet(AtEnd(r, t, es).state.tree, AtEnd(r, t, es).state.modes, r.privileged, t')
    ensures var s := AtEnd(r, t, es).state.tree;
            exists k :: 0 <= k < |es| && StopsAt(r, Begin(r, t).state, es, k)
              && forall d :: IsDirectory(s, d) && d != PathOf(r, es[k]) && !LeadsTo(s, PathOf(r, es[k]), At(d)) ==>
                AsBefore(r, t, es, k, s, t', d)
  {
    BeginKeeps(r, t, es);
    PutEntriesKeep(r, t, es, |es|, Begin(r, t).state);
    BeginCloses(r, t);
    EntriesClose(r, Begin(r, t).state, es, |es|);
    var s := AtEnd(r, t, es).state;
    hide PutEntries;
    hide Begin;
    hide FailedFits;
    hide StopsAt;
    hide LeadsTo;
    hide AsBefore;
    hide ModesAreSet;
    var k :| 0 <= k < |es| && StopsAt(r, Begin(r, t).state, es, k) && FailedFits(r, t, es, k, s);
    forall d | IsDirectory(s.tree, d) && d != PathOf(r, es[k]) && !LeadsTo(s.tree, PathOf(r, es[k]), At(d))
      ensures AsBefore(r, t, es, k, s.tree, t', d)
    {
      AfterFailure(r, t, es, k, s, t', d);
    }
  }
}
