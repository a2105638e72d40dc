/**
 Extracting keeps everything in a directory: no entry, whether it succeeds or fails, leaves
 a name without the directory that it is in.
 */
module PutClosure {
  import opened Optional
  import opened Paths
  import opened FileTree
  import opened SymlinkResolution
  import opened CopierPut

  lemma MkdirCloses(t: Tree, p: Path, privileged: bool)
    requires Closed(t) && Mkdir(t, p, privileged).Done?
    ensures Closed(Mkdir(t, p, privileged).tree)
  {
    hide CanReach;
    hide MayWrite;
  }

  lemma AttemptCloses(t: Tree, p: Path, maker: Maker, privileged: bool)
    requires Closed(t) && Attempt(t, p, maker, privileged).Done?
    ensures Closed(Attempt(t, p, maker, privileged).tree)
  {
    hide CanReach;
    hide MayWrite;
  }

  lemma RemoveAllCloses(t: Tree, p: Path, privileged: bool)
    requires Closed(t) && RemoveAll(t, p, privileged).Done?
    ensures Closed(RemoveAll(t, p, privileged).tree)
  {
    hide CanReach;
    hide MayWrite;
    hide MayEmpty;
    var t' := RemoveAll(t, p, privileged).tree;
    forall q | q in t'.nodes && q.Below?
      ensures IsDirectory(t', q.dir)
    {
      assert IsDirectory(t, q.dir);
    }
  }

  lemma UnlinkCloses(t: Tree, p: Path, privileged: bool)
    requires Closed(t) && Unlink(t, p, privileged).Done?
    ensures Closed(Unlink(t, p, privileged).tree)
  {
    hide CanReach;
    hide MayWrite;
  }

  lemma ChmodCloses(t: Tree, p: Path, m: Mode)
    requires Closed(t)
    ensures Closed(Chmod(t, p, m))
  {
  }

  lemma {:induction false} EnsureDirectoryCloses(r: Request, s: State, p: Path)
    requires Closed(s.tree)
    ensures Closed(EnsureDirectory(r, s, p).state.tree)
  {
    hide Closed;
    hide Mkdir;
    if p.Below? {
      EnsureDirectoryCloses(r, s, p.dir);
      var above := EnsureDirectory(r, s, p.dir);
      if above.Next? && Mkdir(above.state.tree, p, r.privileged).Done? {
        MkdirCloses(above.state.tree, p, r.privileged);
      }
    }
  }

  lemma MakeWriteableCloses(r: Request, s: State, d: Path)
    requires Closed(s.tree)
    ensures Closed(MakeWriteable(r, s, d).state.tree)
  {
    ChmodCloses(s.tree, d, SCRATCH_DIRECTORY);
    hide Chmod;
    hide Closed;
  }

  lemma ReplaceCloses(r: Request, s: State, p: Path, maker: Maker)
    requires Closed(s.tree)
    ensures Closed(Replace(r, s, p, maker).state.tree)
  {
    hide Closed;
    hide Attempt;
    hide RemoveAll;
    if Attempt(s.tree, p, maker, r.privileged).Done? {
      AttemptCloses(s.tree, p, maker, r.privileged);
    } else if RemoveAll(s.tree, p, r.privileged).Done? {
      RemoveAllCloses(s.tree, p, r.privileged);
      var t := RemoveAll(s.tree, p, r.privileged).tree;
      if Attempt(t, p, maker, r.privileged).Done? {
        AttemptCloses(t, p, maker, r.privileged);
      }
    }
  }

  lemma CreateNewCloses(r: Request, s: State, p: Path, content: string)
    requires Closed(s.tree)
    ensures Closed(CreateNew(r, s, p, content).state.tree)
  {
    hide Closed;
    hide MakeWriteable;
    hide Create;
    var maker := MakeObject(Regular(content, SCRATCH_FILE));
    if Attempt(s.tree, p, maker, r.privileged).Done? {
      AttemptCloses(s.tree, p, maker, r.privileged);
    } else {
      MakeWriteableCloses(r, s, Parent(p));
      var w := MakeWriteable(r, s, Parent(p)).state.tree;
      if Attempt(w, p, maker, r.privileged).Done? {
        AttemptCloses(w, p, maker, r.privileged);
      }
    }
  }

  lemma ClearWayCloses(r: Request, s: State, p: Path)
    requires Closed(s.tree)
    ensures Closed(ClearWay(r, s, p).state.tree)
  {
    hide Closed;
    hide MakeWriteable;
    hide RemoveAll;
    if RemoveAll(s.tree, p, r.privileged).Done? {
      RemoveAllCloses(s.tree, p, r.privileged);
    } else {
      MakeWriteableCloses(r, s, Parent(p));
      var w := MakeWriteable(r, s, Parent(p)).state.tree;
      if RemoveAll(w, p, r.privileged).Done? {
        RemoveAllCloses(w, p, r.privileged);
      }
    }
  }

  lemma CreateFileCloses(r: Request, s: State, p: Path, content: string)
    requires Closed(s.tree)
    ensures Closed(CreateFile(r, s, p, content).state.tree)
  {
    hide Closed;
    hide ClearWay;
    hide CreateNew;
    CreateNewCloses(r, s, p, content);
    ClearWayCloses(r, s, p);
    CreateNewCloses(r, ClearWay(r, s, p).state, p, content);
  }

  lemma PutDirectoryCloses(r: Request, s: State, p: Path, m: Mode)
    requires Closed(s.tree)
    ensures Closed(PutDirectory(r, s, p, m).state.tree)
  {
    hide Closed;
    hide Mkdir;
    hide Unlink;
    hide Chmod;
    ChmodCloses(s.tree, p, m);
    if Mkdir(s.tree, p, r.privileged).Done? {
      MkdirCloses(s.tree, p, r.privileged);
      ChmodCloses(Mkdir(s.tree, p, r.privileged).tree, p, m);
    }
    if Unlink(s.tree, p, r.privileged).Done? {
      UnlinkCloses(s.tree, p, r.privileged);
      var t := Unlink(s.tree, p, r.privileged).tree;
      if Mkdir(t, p, r.privileged).Done? {
        MkdirCloses(t, p, r.privileged);
        ChmodCloses(Mkdir(t, p, r.privileged).tree, p, m);
      }
    }
  }

  lemma MakeCloses(r: Request, s: State, p: Path, e: Entry)
    requires Closed(s.tree)
    ensures Closed(Make(r, s, p, e).state.tree)
  {
    hide Closed;
    hide CreateFile;
    hide Replace;
    hide PutDirectory;
    match e.kind
    case RegularFile(content) => CreateFileCloses(r, s, p, content);
    case HardLink(linkname) =>
      var target := LinkTarget(r, SymlinksOf(s.tree), linkname);
      if target.Resolved? {
        ReplaceCloses(r, s, p, MakeLink(target.path));
      }
    case SymbolicLink(target) => ReplaceCloses(r, s, p, MakeObject(Symlink(target)));
    case CharDevice(major, minor) => ReplaceCloses(r, s, p, MakeObject(Device(false, major, minor, SCRATCH_FILE)));
    case BlockDevice(major, minor) => ReplaceCloses(r, s, p, MakeObject(Device(true, major, minor, SCRATCH_FILE)));
    case Dir => PutDirectoryCloses(r, s, p, HeaderMode(r.options, e));
    case NamedPipe => ReplaceCloses(r, s, p, MakeObject(Fifo(SCRATCH_FILE)));
    case GlobalHeader =>
    case Unrecognized =>
  }

  lemma EntryCloses(r: Request, s: State, e: Entry)
    requires Closed(s.tree)
    ensures Closed(PutEntry(r, s, e).state.tree)
  {
    hide Closed;
    hide EnsureDirectory;
    hide Make;
    hide Chmod;
    var p := PathOf(r, e);
    EnsureDirectoryCloses(r, s, Parent(p));
    var parent := EnsureDirectory(r, s, Parent(p)).state;
    MakeCloses(r, parent, p, e);
    ChmodCloses(Make(r, parent, p, e).state.tree, p, HeaderMode(r.options, e));
  }

  /** After any number of entries, everything is in a directory. */
  lemma {:induction false} EntriesClose(r: Request, s: State, es: seq<Entry>, n: nat)
    requires Closed(s.tree) && n <= |es|
    ensures Closed(PutEntries(r, s, es, n).state.tree)
  {
    hide *;
    if n == 0 {
      NoEntry(r, s, es);
    } else {
      EntriesClose(r, s, es, n - 1);
      NextEntry(r, s, es, n);
      EntryCloses(r, PutEntries(r, s, es, n - 1).state, es[n - 1]);
    }
  }

  lemma BeginCloses(r: Request, t: Tree)
    requires Closed(t)
    ensures Closed(Begin(r, t).state.tree)
  {
    EnsureDirectoryCloses(r, State(t, map[], {}), r.target);
    hide EnsureDirectory;
    hide Closed;
  }
}
