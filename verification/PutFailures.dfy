/**
 Which entries of an archive a privileged extractor can not extract.
 */
module PutFailures {
  import opened Optional
  import opened Paths
  import opened FileTree
  import opened SymlinkResolution
  import opened CopierPut
  import opened PutClosure
  import opened PutModes
  import opened PutArchive
  import opened PutReading
  import opened PutOptions

  /** What is there above a path is directories. */
  predicate WayIsClear(t: Tree, d: Path) {
    d.Top? || ((d.dir in t.nodes ==> IsDirectory(t, d.dir)) && WayIsClear(t, d.dir))
  }

  lemma {:induction false} ClearAbove(t: Tree, d: Path)
    requires Closed(t) && d in t.nodes
    ensures WayIsClear(t, d)
  {
    if d.Below? {
      ClearAbove(t, d.dir);
    }
  }

  /** What becomes of a path when the directories down to d are made. */
  lemma AfterEnsuring(r: Request, s: State, s1: State, d: Path)
    requires Ensures(r, s, s1, d)
    ensures d in s1.tree.nodes && (IsDirectory(s1.tree, d) <==> d !in s.tree.nodes || IsDirectory(s.tree, d))
    ensures forall name :: Below(d, name) in s1.tree.nodes <==> Below(d, name) in s.tree.nodes
    ensures forall name :: Below(d, name) in s.tree.nodes ==>
      s1.tree.nodes[Below(d, name)] == s.tree.nodes[Below(d, name)]
  {
    assert Within(d, d);
    forall name
      ensures Below(d, name) in s1.tree.nodes <==> Below(d, name) in s.tree.nodes
    {
      DirOfRootIsOutside(Below(d, name));
    }
  }

  /** Directories can be made exactly when nothing else is in their way. */
  lemma {:induction false} EnsureExactlyWhen(r: Request, s: State, d: Path)
    requires r.privileged && Closed(s.tree)
    ensures EnsureDirectory(r, s, d).Next? <==> WayIsClear(s.tree, d)
    decreases d
  {
    if d.Below? {
      EnsureExactlyWhen(r, s, d.dir);
      var above := EnsureDirectory(r, s, d.dir);
      if above.Next? {
        EnsuresAll(r, s, d.dir);
        AfterEnsuring(r, s, above.state, d.dir);
        assert d == Below(d.dir, d.name);
        hide Ensures;
        hide EnsureDirectory;
        if d in s.tree.nodes {
          ClearAbove(s.tree, d);
        }
      }
    }
  }

  /** The link's target is something other than a directory, and is not removed with what is in the link's way. */
  predicate CanLink(r: Request, t: Tree, p: Path, linkname: Raw) {
    match LinkTarget(r, SymlinksOf(t), linkname)
    case TooManyLinks => false
    case Resolved(from) => from in t.nodes && t.nodes[from].Leaf? && (p in t.nodes ==> !Within(from, p))
  }

  /** There is a directory for the entry, and what is in its way may be replaced. */
  predicate CanPut(r: Request, t: Tree, e: Entry) {
    var p := PathOf(r, e);
    var kept := p in t.nodes && IsDirectory(t, p) && r.options.noOverwriteDirNonDir;
    if p.Top? then e.kind.Dir? || e.kind.GlobalHeader?
    else if e.kind.GlobalHeader? then WayIsClear(t, p.dir)
    else
      && WayIsClear(t, p) && !e.kind.Unrecognized?
      && (e.kind.Dir? ==> p !in t.nodes || IsDirectory(t, p) || !r.options.noOverwriteNonDirDir)
      && (!e.kind.Dir? ==> !kept)
      && (e.kind.HardLink? ==> CanLink(r, t, p, e.kind.linkname))
  }

  lemma NewExactlyWhen(r: Request, s: State, p: Path, e: Entry)
    requires r.privileged && Closed(s.tree) && p.Below? && IsNew(e.kind)
    ensures Make(r, s, p, e).Next? <==>
      IsDirectory(s.tree, p.dir) && !(p in s.tree.nodes && IsDirectory(s.tree, p) && r.options.noOverwriteDirNonDir)
  {
    if p in s.tree.nodes {
      ReplacedExactlyWhen(r, s, p, e);
    } else {
      hide RemoveAll;
      hide Chmod;
      hide Closed;
    }
  }

  lemma LinkExactlyWhen(r: Request, s: State, p: Path, linkname: Raw)
    requires r.privileged && Closed(s.tree) && p.Below?
    ensures PutHardLink(r, s, p, linkname).Next? <==>
      && IsDirectory(s.tree, p.dir) && CanLink(r, s.tree, p, linkname)
      && !(p in s.tree.nodes && IsDirectory(s.tree, p) && r.options.noOverwriteDirNonDir)
  {
    var target := LinkTarget(r, SymlinksOf(s.tree), linkname);
    hide LinkTarget;
    if target.Resolved? && p in s.tree.nodes {
      PrivilegedRemoves(s.tree, p);
      RemovalKeeps(s.tree, p, target.path);
      hide RemoveAll;
    }
    hide SymlinksOf;
  }

  lemma RemovalKeeps(t: Tree, p: Path, q: Path)
    requires RemoveAll(t, p, true).Done? && p in t.nodes
    ensures var t' := RemoveAll(t, p, true).tree;
      && (q in t'.nodes <==> q in t.nodes && !Within(q, p)) && (q in t'.nodes ==> t'.nodes[q] == t.nodes[q])
  {
  }

  /** Making what an entry is for, once its parent directory is there. */
  lemma MakeExactlyWhen(r: Request, s: State, p: Path, e: Entry)
    requires r.privileged && Closed(s.tree) && p.Below? && !e.kind.GlobalHeader?
    ensures Make(r, s, p, e).Next? <==>
      && IsDirectory(s.tree, p.dir) && !e.kind.Unrecognized?
      && (e.kind.Dir? ==> p !in s.tree.nodes || IsDirectory(s.tree, p) || !r.options.noOverwriteNonDirDir)
      && (!e.kind.Dir? ==> !(p in s.tree.nodes && IsDirectory(s.tree, p) && r.options.noOverwriteDirNonDir))
      && (e.kind.HardLink? ==> CanLink(r, s.tree, p, e.kind.linkname))
  {
    if IsNew(e.kind) {
      NewExactlyWhen(r, s, p, e);
    } else if e.kind.Dir? {
      DirectoryExactlyWhen(r, s, p, HeaderMode(r.options, e));
    } else if e.kind.HardLink? {
      LinkExactlyWhen(r, s, p, e.kind.linkname);
    }
    hide PutDirectory;
    hide PutHardLink;
    hide CreateFile;
    hide Replace;
    hide CanLink;
    hide Closed;
  }

  lemma DirectoryExactlyWhen(r: Request, s: State, p: Path, m: Mode)
    requires r.privileged && Closed(s.tree) && p.Below?
    ensures PutDirectory(r, s, p, m).Next? <==>
      && IsDirectory(s.tree, p.dir)
      && (p !in s.tree.nodes || IsDirectory(s.tree, p) || !r.options.noOverwriteNonDirDir)
  {
    if IsDirectory(s.tree, p.dir) {
      DirectoryPutExactlyWhen(r, s, p, m);
    }
    hide Chmod;
  }

  lemma LinksAlike(r: Request, s: State, s1: State, d: Path, name: string, linkname: Raw)
    requires Ensures(r, s, s1, d)
    ensures CanLink(r, s1.tree, Below(d, name), linkname) <==> CanLink(r, s.tree, Below(d, name), linkname)
  {
    EnsureKeepsLinks(r, s, s1, d);
    AfterEnsuring(r, s, s1, d);
    var target := LinkTarget(r, SymlinksOf(s.tree), linkname);
    hide LinkTarget;
    hide SymlinksOf;
    if target.Resolved? {
      LeafAlike(r, s, s1, d, target.path);
    }
    hide Ensures;
  }

  lemma LeafAlike(r: Request, s: State, s1: State, d: Path, q: Path)
    requires Ensures(r, s, s1, d)
    ensures (q in s1.tree.nodes && s1.tree.nodes[q].Leaf?) <==> (q in s.tree.nodes && s.tree.nodes[q].Leaf?)
  {
  }

  /** At the root, only a directory. */
  lemma AtRootExactlyWhen(r: Request, s: State, e: Entry)
    requires r.privileged && Closed(s.tree)
    ensures Make(r, s, Top, e).Next? <==> e.kind.Dir? || e.kind.GlobalHeader?
  {
    hide LinkTarget;
    hide SymlinksOf;
  }

  /**
   For a privileged extractor, exactly which entries can be extracted: there is nothing but
   directories above it, what is there already may be replaced, and a hard link's target is
   there, is not a directory, and is not in the way of the link itself.
   */
  lemma EntryExactlyWhen(r: Request, s: State, e: Entry)
    requires r.privileged && Closed(s.tree) && !IsIgnored(r, s, e)
    ensures PutEntry(r, s, e).Next? <==> CanPut(r, s.tree, e)
  {
    var p := PathOf(r, e);
    var parent := EnsureDirectory(r, s, Parent(p));
    EnsureExactlyWhen(r, s, Parent(p));
    if p.Top? {
      AtRootExactlyWhen(r, s, e);
      assert parent == Next(s);
      hide Make;
      hide Chmod;
    } else if parent.Next? {
      EnsuresAll(r, s, p.dir);
      EnsureDirectoryCloses(r, s, p.dir);
      AfterEnsuring(r, s, parent.state, p.dir);
      assert p == Below(p.dir, p.name);
      if e.kind.HardLink? {
        LinksAlike(r, s, parent.state, p.dir, p.name, e.kind.linkname);
      }
      if e.kind.GlobalHeader? {
        MakeOfHeader(r, parent.state, p, e);
      } else {
        MakeExactlyWhen(r, parent.state, p, e);
      }
      hide Ensures;
      hide EnsureDirectory;
      hide Make;
      hide Chmod;
      hide CanLink;
      hide Closed;
    }
  }

  /** An entry that is a hard link to its own path fails, and what was there is gone. */
  lemma LinkToItselfRemoves(r: Request, s: State, p: Path, linkname: Raw)
    requires r.privileged && Closed(s.tree) && p.Below? && p in s.tree.nodes && s.tree.nodes[p].Leaf?
    requires LinkTarget(r, SymlinksOf(s.tree), linkname) == Resolved(p)
    ensures var step := PutHardLink(r, s, p, linkname); step.Failed? && p !in step.state.tree.nodes
  {
    PrivilegedRemoves(s.tree, p);
    hide RemoveAll;
    hide LinkTarget;
    hide SymlinksOf;
  }

  // ------------------------------------------------------------------------------- told from the archive

  /** The same, of what is read off the archive. */
  predicate ReadsClear(r: Request, t0: Tree, es: seq<Entry>, n: nat, d: Path)
    requires n <= |es|
    decreases d
  {
    d.Top? || (!What(r, t0, es, n, d.dir).Item? && ReadsClear(r, t0, es, n, d.dir))
  }

  predicate ReadsLinkable(r: Request, t0: Tree, es: seq<Entry>, n: nat, p: Path, linkname: Raw)
    requires n <= |es|
  {
    match LinkTarget(r, LinksAt(r, t0, es, n), linkname)
    case TooManyLinks => false
    case Resolved(from) => What(r, t0, es, n, from).Item? && (!What(r, t0, es, n, p).Gone? ==> !Within(from, p))
  }

  /** The entry at k can be extracted, as the archive up to it is read. */
  predicate Reads(r: Request, t0: Tree, es: seq<Entry>, k: nat)
    requires k < |es|
  {
    var e, p := es[k], PathOf(r, es[k]);
    var there := What(r, t0, es, k, p);
    if e.name.End? then true
    else if Skips(r, es, k) || e.kind.GlobalHeader? then ReadsClear(r, t0, es, k, Parent(p))
    else if p.Top? then e.kind.Dir?
    else
      && ReadsClear(r, t0, es, k, p) && !e.kind.Unrecognized?
      && (e.kind.Dir? ==> !there.Item? || !r.options.noOverwriteNonDirDir)
      && (!e.kind.Dir? ==> !(there.Folder? && r.options.noOverwriteDirNonDir))
      && (e.kind.HardLink? ==> ReadsLinkable(r, t0, es, k, p, e.kind.linkname))
  }

  lemma KindsAreRead(r: Request, t0: Tree, es: seq<Entry>, n: nat, p: Path)
    requires n <= |es| && IsDone(r, t0, es, n)
    ensures var t, x := After(r, t0, es, n).tree, What(r, t0, es, n, p);
      && (x.Gone? <==> p !in t.nodes) && (x.Folder? <==> IsDirectory(t, p))
      && (x.Item? <==> p in t.nodes && t.nodes[p].Leaf?)
  {
    ReadingIsRight(r, t0, es, n);
    var t, x := After(r, t0, es, n).tree, What(r, t0, es, n, p);
    assert Fits(r, t0, es, n, t, x, p);
    hide After;
    hide What;
    hide IsDone;
    hide InodeOf;
    hide IsBorn;
  }

  lemma {:induction false} ClearIsRead(r: Request, t0: Tree, es: seq<Entry>, n: nat, d: Path)
    requires n <= |es| && IsDone(r, t0, es, n)
    ensures ReadsClear(r, t0, es, n, d) <==> WayIsClear(After(r, t0, es, n).tree, d)
    decreases d
  {
    hide What;
    hide After;
    hide IsDone;
    if d.Below? {
      KindsAreRead(r, t0, es, n, d.dir);
      ClearIsRead(r, t0, es, n, d.dir);
    }
  }

  lemma LinkableIsRead(r: Request, t0: Tree, es: seq<Entry>, n: nat, p: Path, linkname: Raw)
    requires n <= |es| && IsDone(r, t0, es, n)
    ensures ReadsLinkable(r, t0, es, n, p, linkname) <==> CanLink(r, After(r, t0, es, n).tree, p, linkname)
  {
    ReadingIsRight(r, t0, es, n);
    LinksMatch(r, t0, es, n);
    KindsAreRead(r, t0, es, n, p);
    var target := LinkTarget(r, LinksAt(r, t0, es, n), linkname);
    if target.Resolved? {
      KindsAreRead(r, t0, es, n, target.path);
    }
    hide What;
    hide After;
    hide IsDone;
    hide LinksAt;
    hide SymlinksOf;
    hide LinkTarget;
    hide Matches;
  }

  /** An entry that is ignored needs its parent directory only. */
  lemma IgnoredExactlyWhenClear(r: Request, s: State, e: Entry)
    requires r.privileged && Closed(s.tree) && IsIgnored(r, s, e)
    ensures PutEntry(r, s, e).Next? <==> e.name.End? || WayIsClear(s.tree, Parent(PathOf(r, e)))
  {
    EnsureExactlyWhen(r, s, Parent(PathOf(r, e)));
    hide EnsureDirectory;
  }

  lemma HereIs(r: Request, t0: Tree, es: seq<Entry>, k: nat)
    requires k < |es| && IsDone(r, t0, es, k)
    ensures r.privileged && Closed(After(r, t0, es, k).tree)
    ensures IsIgnored(r, After(r, t0, es, k), es[k]) <==> Skips(r, es, k)
    ensures IsDone(r, t0, es, k + 1) <==> PutEntry(r, After(r, t0, es, k), es[k]).Next?
  {
    DoneIs(r, t0, es, k);
    WellFormedIs(t0);
    BeginCloses(r, t0);
    EntriesClose(r, Begin(r, t0).state, es, k);
    BeginIgnoresNothing(r, t0);
    IgnoredExactlyWhen(r, Begin(r, t0).state, es, k);
    NextEntry(r, Begin(r, t0).state, es, k + 1);
    hide PutEntry;
    hide PutEntries;
    hide Begin;
    hide Closed;
    hide WellFormed;
    hide Skips;
  }

  lemma ReadsExactlyWhen(r: Request, t0: Tree, es: seq<Entry>, k: nat)
    requires k < |es| && IsDone(r, t0, es, k)
    ensures IsDone(r, t0, es, k + 1) <==> Reads(r, t0, es, k)
  {
    var s, e := After(r, t0, es, k), es[k];
    var p := PathOf(r, e);
    HereIs(r, t0, es, k);
    KindsAreRead(r, t0, es, k, p);
    ClearIsRead(r, t0, es, k, p);
    ClearIsRead(r, t0, es, k, Parent(p));
    if Skips(r, es, k) {
      IgnoredExactlyWhenClear(r, s, e);
    } else {
      EntryExactlyWhen(r, s, e);
      if e.kind.HardLink? {
        LinkableIsRead(r, t0, es, k, p, e.kind.linkname);
      }
    }
    hide PutEntry;
    hide After;
    hide What;
    hide IsDone;
    hide WayIsClear;
    hide ReadsClear;
    hide CanLink;
    hide ReadsLinkable;
    hide Skips;
    hide Closed;
  }

  /** The target is a directory, or is missing with nothing but directories above it. */
  predicate TargetFits(t0: Tree, target: Path) {
    if target in t0.nodes then IsDirectory(t0, target) else WayIsClear(t0, target)
  }

  lemma BeginExactlyWhen(r: Request, t0: Tree)
    requires r.privileged && Closed(t0)
    ensures Begin(r, t0).Next? <==> TargetFits(t0, r.target)
  {
    EnsureExactlyWhen(r, State(t0, map[], {}), r.target);
    hide EnsureDirectory;
    hide Closed;
  }

  /**
   For every archive and every tree, told from these alone: a privileged extractor extracts the
   first n entries without an error if and only if the target can be used, and each of them
   finds its way clear, something that it may replace, and its target if it is a hard link.
   */
  lemma {:induction false} ExtractedExactlyWhen(r: Request, t0: Tree, es: seq<Entry>, n: nat)
    requires r.privileged && WellFormed(t0) && n <= |es|
    ensures IsDone(r, t0, es, n) <==> TargetFits(t0, r.target) && forall k :: 0 <= k < n ==> Reads(r, t0, es, k)
  {
    WellFormedIs(t0);
    BeginExactlyWhen(r, t0);
    if n == 0 {
      NoneIsDone(r, t0, es);
      hide *;
    } else {
      hide *;
      ExtractedExactlyWhen(r, t0, es, n - 1);
      DoneEarlier(r, t0, es, n);
      if IsDone(r, t0, es, n - 1) {
        ReadsExactlyWhen(r, t0, es, n - 1);
      }
    }
  }

  lemma DoneEarlier(r: Request, t0: Tree, es: seq<Entry>, n: nat)
    requires 0 < n <= |es|
    ensures IsDone(r, t0, es, n) ==> IsDone(r, t0, es, n - 1)
  {
    hide *;
    if IsDone(r, t0, es, n) {
      DoneBefore(r, t0, es, n - 1, n);
    }
  }

  lemma NoneIsDone(r: Request, t0: Tree, es: seq<Entry>)
    requires r.privileged && WellFormed(t0)
    ensures IsDone(r, t0, es, 0) <==> Begin(r, t0).Next?
  {
    hide Begin;
    hide WellFormed;
  }
}
