/**
 Reading an archive without extracting it: what is at each path after a privileged
 extractor is done with it, and which modes it has noted, told from the archive and the
 tree that it is extracted into. It holds for every archive that is extracted without an
 error.
 */
module PutReading {
  import opened Optional
  import opened Paths
  import opened FileTree
  import opened SymlinkResolution
  import opened CopierPut
  import opened PutClosure
  import opened PutModes
  import opened PutContents
  import opened PutArchive

  // ------------------------------------------------------------------------------------ how it is read

  /** Where an object comes from: it was there before, or the entry at k made it. */
  datatype Origin = Original(inode: nat) | Made(k: nat)

  datatype Thing = Gone | Folder | Item(origin: Origin)

  function ThingIn(t: Tree, p: Path): Thing {
    if p !in t.nodes then Gone
    else match t.nodes[p]
      case Directory(_) => Folder
      case Leaf(i) => Item(Original(i))
  }

  /** The entry at k puts something at its path. */
  predicate Acts(r: Request, es: seq<Entry>, k: nat)
    requires k < |es|
  {
    !Skips(r, es, k) && !es[k].kind.GlobalHeader?
  }

  /** What is at p after the first n entries: what the last one that touches p leaves there. */
  function What(r: Request, t0: Tree, es: seq<Entry>, n: nat, p: Path): Thing
    requires n <= |es|
    decreases n, 0
  {
    if n == 0 then if p !in t0.nodes && Within(r.target, p) then Folder else ThingIn(t0, p)
    else
      var before, e := What(r, t0, es, n - 1, p), es[n - 1];
      if e.name.End? then before
      else if Acts(r, es, n - 1) && p == PathOf(r, e) then PutBy(r, t0, es, n - 1)
      else if Acts(r, es, n - 1) && IsOther(e) && Within(p, PathOf(r, e)) then Gone
      else if before.Gone? && Within(Parent(PathOf(r, e)), p) then Folder
      else before
  }

  /** What the entry at k puts at its path: a hard link is what its target is. */
  function PutBy(r: Request, t0: Tree, es: seq<Entry>, k: nat): Thing
    requires k < |es|
    decreases k, 2
  {
    match es[k].kind
    case Dir => Folder
    case HardLink(linkname) =>
      (match LinkTarget(r, LinksAt(r, t0, es, k), linkname)
       case Resolved(target) => What(r, t0, es, k, target)
       case TooManyLinks => Gone)
    case _ => Item(Made(k))
  }

  predicate IsLink(t0: Tree, es: seq<Entry>, x: Thing) {
    x.Item? && match x.origin
      case Original(i) => i in t0.objects && t0.objects[i].Symlink?
      case Made(k) => k < |es| && es[k].kind.SymbolicLink?
  }

  function TargetIn(t0: Tree, es: seq<Entry>, x: Thing): Raw
    requires IsLink(t0, es, x)
  {
    match x.origin
    case Original(i) => t0.objects[i].target
    case Made(k) => es[k].kind.target
  }

  /** A path and all directories above it. */
  function Ancestry(p: Path): set<Path> {
    if p.Top? then {Top} else Ancestry(p.dir) + {p}
  }

  /** The paths that may come into it. */
  function Mentioned(r: Request, t0: Tree, es: seq<Entry>, n: nat): set<Path>
    requires n <= |es|
  {
    if n == 0 then t0.nodes.Keys + Ancestry(r.target)
    else Mentioned(r, t0, es, n - 1) + Ancestry(PathOf(r, es[n - 1]))
  }

  function LinksAt(r: Request, t0: Tree, es: seq<Entry>, n: nat): Links
    requires n <= |es|
    decreases n, 1
  {
    map p | p in Mentioned(r, t0, es, n) && IsLink(t0, es, What(r, t0, es, n, p)) ::
      TargetIn(t0, es, What(r, t0, es, n, p))
  }

  /** The mode that is noted for p after the first n entries. */
  function NoteOf(r: Request, t0: Tree, es: seq<Entry>, n: nat, p: Path): Option<Mode>
    requires n <= |es|
  {
    if n == 0 then if p !in t0.nodes && Within(r.target, p) then Some(DefaultDirMode(r.options)) else None
    else
      var before, e := NoteOf(r, t0, es, n - 1, p), es[n - 1];
      if IsListedDirectory(r, e, p) then Some(HeaderMode(r.options, e))
      else if before.None? && !e.name.End? && Within(Parent(PathOf(r, e)), p) && What(r, t0, es, n - 1, p).Gone? then
        Some(DefaultDirMode(r.options))
      else before
  }

  // ------------------------------------------------------------------------------- what one entry does

  lemma {:induction false} NothingBelow(t: Tree, q: Path, p: Path)
    requires Closed(t) && !IsDirectory(t, q) && Within(p, q) && p != q
    ensures p !in t.nodes
    decreases p
  {
    if p.dir != q {
      NothingBelow(t, q, p.dir);
    }
  }

  /** The directories on the way to d are there, and the new ones are noted if they were not. */
  ghost predicate Ensures(r: Request, s: State, s': State, d: Path) {
    && s'.tree.objects == s.tree.objects && s'.tree.next == s.tree.next && s'.ignored == s.ignored
    && (forall p :: p in s.tree.nodes ==> p in s'.tree.nodes && s'.tree.nodes[p] == s.tree.nodes[p])
    && (forall p :: p in s'.tree.nodes && p !in s.tree.nodes ==> Within(d, p) && IsDirectory(s'.tree, p))
    && (forall p :: Within(d, p) ==> p in s'.tree.nodes)
    && (forall p :: p in s'.modes <==> p in s.modes || (Within(d, p) && p !in s.tree.nodes))
    && (forall p :: p in s'.modes ==> s'.modes[p] == if p in s.modes then s.modes[p] else DefaultDirMode(r.options))
  }

  lemma MakesOne(r: Request, s: State, s1: State, p: Path)
    requires p.Below? && Ensures(r, s, s1, p.dir) && MakeDirectory(r, s1, p).Next?
    ensures Ensures(r, s, MakeDirectory(r, s1, p).state, p)
  {
    WithinIsNotAbove(p, p.dir);
    assert forall q :: Within(p, q) <==> q == p || Within(p.dir, q);
    assert !Within(p.dir, p) by {
      if Within(p.dir, p) {
        WithinIsNotAbove(p.dir, p);
      }
    }
    hide CanReach;
    hide MayWrite;
    hide Within;
  }

  lemma {:induction false} EnsuresAll(r: Request, s: State, d: Path)
    requires EnsureDirectory(r, s, d).Next? && Top in s.tree.nodes
    ensures Ensures(r, s, EnsureDirectory(r, s, d).state, d)
    decreases d
  {
    if d.Below? {
      EnsuresAll(r, s, d.dir);
      hide Ensures;
      hide MakeDirectory;
      MakesOne(r, s, EnsureDirectory(r, s, d.dir).state, d);
    }
  }

  /** Something other than a directory is at q, what was there or below is gone, and nothing else is changed. */
  ghost predicate PutsAt(s: State, s': State, q: Path) {
    && s'.modes == s.modes && HasLeaf(s'.tree, q)
    && (forall p :: p != q ==> (p in s'.tree.nodes <==> p in s.tree.nodes && !Within(p, q)))
    && (forall p :: p != q && p in s'.tree.nodes ==> s'.tree.nodes[p] == s.tree.nodes[p])
  }

  lemma AttemptPuts(s: State, q: Path, maker: Maker)
    requires Closed(s.tree) && Attempt(s.tree, q, maker, true).Done?
    ensures PutsAt(s, s.(tree := Attempt(s.tree, q, maker, true).tree), q)
  {
    forall p | p != q && Within(p, q)
      ensures p !in s.tree.nodes
    {
      NothingBelow(s.tree, q, p);
    }
  }

  /** Once the way is clear. */
  lemma ClearedPuts(s: State, cleared: State, q: Path, s': State)
    requires cleared.modes == s.modes && PutsAt(cleared, s', q)
    requires forall p :: p in cleared.tree.nodes <==> p in s.tree.nodes && !Within(p, q)
    requires forall p :: p in cleared.tree.nodes ==> cleared.tree.nodes[p] == s.tree.nodes[p]
    ensures PutsAt(s, s', q)
  {
  }

  lemma ReplacePuts(r: Request, s: State, q: Path, maker: Maker)
    requires r.privileged && Closed(s.tree) && Replace(r, s, q, maker).Next?
    ensures PutsAt(s, Replace(r, s, q, maker).state, q)
  {
    if Attempt(s.tree, q, maker, true).Done? {
      AttemptPuts(s, q, maker);
    } else {
      var cleared := s.(tree := RemoveAll(s.tree, q, true).tree);
      RemoveAllCloses(s.tree, q, true);
      AttemptPuts(cleared, q, maker);
      assert forall p :: p in cleared.tree.nodes <==> p in s.tree.nodes && !Within(p, q) by {
        assert Within(q, q);
      }
      ClearedPuts(s, cleared, q, Replace(r, s, q, maker).state);
    }
    hide Attempt;
  }

  /** To the privileged, permissions do not matter: what was denied is still denied. */
  lemma StillDenied(t: Tree, d: Path, q: Path)
    requires IsDirectory(t, d) && !RemoveAll(t, q, true).Done?
    ensures !RemoveAll(Chmod(t, d, SCRATCH_DIRECTORY), q, true).Done?
  {
    var t' := Chmod(t, d, SCRATCH_DIRECTORY);
    assert forall p :: IsDirectory(t', p) <==> IsDirectory(t, p);
    if q in t.nodes && q.Below? && IsDirectory(t, q.dir) {
      var p :| p in t.nodes && p.Below? && Within(p.dir, q) && !MayEmpty(t, p.dir, true);
      assert p in t'.nodes && !MayEmpty(t', p.dir, true);
    }
  }

  lemma PrivilegedClears(r: Request, s: State, q: Path)
    requires r.privileged && ClearWay(r, s, q).Next?
    ensures RemoveAll(s.tree, q, true).Done? && ClearWay(r, s, q).state == s.(tree := RemoveAll(s.tree, q, true).tree)
  {
    if !RemoveAll(s.tree, q, true).Done? {
      StillDenied(s.tree, Parent(q), q);
      hide RemoveAll;
      hide Chmod;
    }
  }

  lemma PrivilegedCreates(r: Request, s: State, q: Path, content: string)
    requires r.privileged && CreateNew(r, s, q, content).Next?
    ensures var a := Attempt(s.tree, q, MakeObject(Regular(content, SCRATCH_FILE)), true);
            a.Done? && CreateNew(r, s, q, content).state == s.(tree := a.tree)
  {
  }

  lemma CreateFilePuts(r: Request, s: State, q: Path, content: string)
    requires r.privileged && Closed(s.tree) && CreateFile(r, s, q, content).Next?
    ensures PutsAt(s, CreateFile(r, s, q, content).state, q)
  {
    var maker := MakeObject(Regular(content, SCRATCH_FILE));
    if q !in s.tree.nodes {
      PrivilegedCreates(r, s, q, content);
      AttemptPuts(s, q, maker);
    } else {
      PrivilegedClears(r, s, q);
      var cleared := ClearWay(r, s, q).state;
      PrivilegedCreates(r, cleared, q, content);
      RemoveAllCloses(s.tree, q, true);
      AttemptPuts(cleared, q, maker);
      assert forall p :: p in cleared.tree.nodes <==> p in s.tree.nodes && !Within(p, q) by {
        assert Within(q, q);
      }
      ClearedPuts(s, cleared, q, CreateNew(r, cleared, q, content).state);
    }
    hide Attempt;
    hide ClearWay;
    hide CreateNew;
  }

  lemma MakePuts(r: Request, s: State, q: Path, e: Entry)
    requires r.privileged && Closed(s.tree) && !e.kind.Dir? && !e.kind.GlobalHeader? && Make(r, s, q, e).Next?
    ensures PutsAt(s, Make(r, s, q, e).state, q)
  {
    hide PutsAt;
    hide CreateFile;
    hide Replace;
    match e.kind
    case RegularFile(content) => CreateFilePuts(r, s, q, content);
    case HardLink(linkname) => ReplacePuts(r, s, q, MakeLink(LinkTarget(r, SymlinksOf(s.tree), linkname).path));
    case SymbolicLink(target) => ReplacePuts(r, s, q, MakeObject(Symlink(target)));
    case CharDevice(major, minor) => ReplacePuts(r, s, q, MakeObject(Device(false, major, minor, SCRATCH_FILE)));
    case BlockDevice(major, minor) => ReplacePuts(r, s, q, MakeObject(Device(true, major, minor, SCRATCH_FILE)));
    case NamedPipe => ReplacePuts(r, s, q, MakeObject(Fifo(SCRATCH_FILE)));
  }

  /** A directory is at q, and it is noted. */
  ghost predicate PutsDirectory(s: State, s': State, q: Path, m: Mode) {
    && s'.modes == s.modes[q := m] && IsDirectory(s'.tree, q)
    && s'.tree.objects == s.tree.objects && s'.tree.next == s.tree.next
    && (forall p :: p != q ==> (p in s'.tree.nodes <==> p in s.tree.nodes))
    && (forall p :: p != q && p in s'.tree.nodes ==> s'.tree.nodes[p] == s.tree.nodes[p])
  }

  lemma PutDirectoryPuts(r: Request, s: State, q: Path, m: Mode)
    requires PutDirectory(r, s, q, m).Next?
    ensures PutsDirectory(s, PutDirectory(r, s, q, m).state, q, m)
  {
    hide CanReach;
    hide MayWrite;
  }

  // -------------------------------------------------------------------------- what an entry comes to

  /** What an entry comes to, once its parent directory is there. */
  lemma NamedEntryIs(r: Request, s: State, e: Entry)
    requires !e.name.End? && PutEntry(r, s, e).Next?
    ensures var q := PathOf(r, e);
            var parent := EnsureDirectory(r, s, Parent(q));
            var made := Make(r, parent.state, q, e);
            var s', m := PutEntry(r, s, e).state, HeaderMode(r.options, e);
            && parent.Next?
            && (e.kind.Dir? ==>
              PutDirectory(r, parent.state, q, m).Next? && s' == PutDirectory(r, parent.state, q, m).state)
            && (!e.kind.Dir? && (IsIgnored(r, s, e) || e.kind.GlobalHeader?) ==>
              s'.modes == parent.state.modes && s'.tree == parent.state.tree)
            && (!e.kind.Dir? && !IsIgnored(r, s, e) && !e.kind.GlobalHeader? ==>
              && made.Next?
              && (s' == made.state || s' == made.state.(tree := Chmod(made.state.tree, q, m))))
  {
    var q := PathOf(r, e);
    var s1 := EnsureDirectory(r, s, Parent(q)).state;
    if e.kind.Dir? {
      MakeOfDirectory(r, s1, q, e);
    } else if e.kind.GlobalHeader? {
      MakeOfHeader(r, s1, q, e);
    }
    hide EnsureDirectory;
    hide Make;
    hide PutDirectory;
    hide Chmod;
  }

  lemma MakeOfDirectory(r: Request, s: State, q: Path, e: Entry)
    requires e.kind.Dir?
    ensures Make(r, s, q, e) == PutDirectory(r, s, q, HeaderMode(r.options, e))
  {
    hide PutDirectory;
  }

  lemma MakeOfHeader(r: Request, s: State, q: Path, e: Entry)
    requires e.kind.GlobalHeader?
    ensures Make(r, s, q, e) == Next(s)
  {
  }

  /** What is at p once its parent directory is there, and after that. */
  lemma EntryNodes(r: Request, s: State, e: Entry, s1: State)
    requires r.privileged && Closed(s.tree) && !e.name.End? && PutEntry(r, s, e).Next?
    requires s1 == EnsureDirectory(r, s, Parent(PathOf(r, e))).state
    ensures Ensures(r, s, s1, Parent(PathOf(r, e)))
    ensures var s', q := PutEntry(r, s, e).state, PathOf(r, e);
            && (e.kind.Dir? ==> PutsDirectory(s1, s', q, HeaderMode(r.options, e)))
            && (!e.kind.Dir? && (IsIgnored(r, s, e) || e.kind.GlobalHeader?) ==>
              s'.modes == s1.modes && s'.tree == s1.tree)
            && (!e.kind.Dir? && !IsIgnored(r, s, e) && !e.kind.GlobalHeader? ==> PutsAt(s1, s', q))
  {
    var s', q := PutEntry(r, s, e).state, PathOf(r, e);
    NamedEntryIs(r, s, e);
    hide PutEntry;
    EnsuresAll(r, s, Parent(q));
    EnsureDirectoryCloses(r, s, Parent(q));
    hide EnsureDirectory;
    hide Ensures;
    hide Closed;
    if e.kind.Dir? {
      PutDirectoryPuts(r, s1, q, HeaderMode(r.options, e));
    } else if !IsIgnored(r, s, e) && !e.kind.GlobalHeader? {
      MakePuts(r, s1, q, e);
      ModePuts(s1, Make(r, s1, q, e).state, q, HeaderMode(r.options, e));
    }
    hide Make;
    hide PutDirectory;
    hide PutsAt;
    hide PutsDirectory;
  }

  lemma ModePuts(s: State, s': State, q: Path, m: Mode)
    requires PutsAt(s, s', q)
    ensures PutsAt(s, s'.(tree := Chmod(s'.tree, q, m)), q)
  {
  }

  // -------------------------------------------------------------------------------- the reading is right

  /** A privileged extractor has done the first n entries. */
  ghost predicate IsDone(r: Request, t0: Tree, es: seq<Entry>, n: nat) {
    && r.privileged && WellFormed(t0) && Begin(r, t0).Next?
    && n <= |es| && PutEntries(r, Begin(r, t0).state, es, n).Next?
  }

  function After(r: Request, t0: Tree, es: seq<Entry>, n: nat): State
    requires n <= |es|
  {
    PutEntries(r, Begin(r, t0).state, es, n).state
  }

  /** The inode of an object: entries make at most one each, with the next number. */
  function InodeOf(r: Request, t0: Tree, es: seq<Entry>, o: Origin): nat {
    match o
    case Original(i) => i
    case Made(k) => if k <= |es| then After(r, t0, es, k).tree.next else 0
  }

  /** The first n entries, and the tree, have such an object. */
  predicate IsBorn(r: Request, t0: Tree, es: seq<Entry>, n: nat, o: Origin) {
    match o
    case Original(i) => i in t0.objects
    case Made(k) => k < n && k < |es| && !Skips(r, es, k) && Intended(es[k], es[k].mode).Some?
  }

  predicate Fits(r: Request, t0: Tree, es: seq<Entry>, n: nat, t: Tree, x: Thing, p: Path) {
    match x
    case Gone => p !in t.nodes
    case Folder => IsDirectory(t, p)
    case Item(o) => p in t.nodes && t.nodes[p] == Leaf(InodeOf(r, t0, es, o)) && IsBorn(r, t0, es, n, o)
  }

  ghost predicate Matches(r: Request, t0: Tree, es: seq<Entry>, n: nat)
    requires n <= |es|
  {
    forall p :: Fits(r, t0, es, n, After(r, t0, es, n).tree, What(r, t0, es, n, p), p)
  }

  /** What has been noted for p so far. */
  function NoteFor(s: State, p: Path): Option<Mode> {
    if p in s.modes then Some(s.modes[p]) else None
  }

  ghost predicate NotesMatch(r: Request, t0: Tree, es: seq<Entry>, n: nat)
    requires n <= |es|
  {
    forall p :: NoteMatches(r, t0, es, n, p)
  }

  predicate NoteMatches(r: Request, t0: Tree, es: seq<Entry>, n: nat, p: Path)
    requires n <= |es|
  {
    NoteFor(After(r, t0, es, n), p) == NoteOf(r, t0, es, n, p)
  }

  lemma WhatNext(r: Request, t0: Tree, es: seq<Entry>, n: nat, p: Path)
    requires n < |es|
    ensures var before, e := What(r, t0, es, n, p), es[n];
            What(r, t0, es, n + 1, p) ==
              if e.name.End? then before
              else if Acts(r, es, n) && p == PathOf(r, e) then PutBy(r, t0, es, n)
              else if Acts(r, es, n) && IsOther(e) && Within(p, PathOf(r, e)) then Gone
              else if before.Gone? && Within(Parent(PathOf(r, e)), p) then Folder
              else before
  {
    hide PutBy;
    hide Acts;
  }

  lemma WhatAtFirst(r: Request, t0: Tree, es: seq<Entry>, p: Path)
    ensures What(r, t0, es, 0, p) == if p !in t0.nodes && Within(r.target, p) then Folder else ThingIn(t0, p)
  {
    hide PutBy;
    hide Acts;
  }

  lemma NoteNext(r: Request, t0: Tree, es: seq<Entry>, n: nat, p: Path)
    requires n < |es|
    ensures var before, e := NoteOf(r, t0, es, n, p), es[n];
            NoteOf(r, t0, es, n + 1, p) ==
              if IsListedDirectory(r, e, p) then Some(HeaderMode(r.options, e))
              else if before.None? && !e.name.End? && Within(Parent(PathOf(r, e)), p)
                && What(r, t0, es, n, p).Gone? then
                Some(DefaultDirMode(r.options))
              else before
  {
    hide What;
  }

  lemma StillBorn(r: Request, t0: Tree, es: seq<Entry>, n: nat, t: Tree, x: Thing, p: Path)
    requires Fits(r, t0, es, n, t, x, p)
    ensures Fits(r, t0, es, n + 1, t, x, p)
  {
    hide InodeOf;
  }

  lemma SameFits(r: Request, t0: Tree, es: seq<Entry>, n: nat, t: Tree, t': Tree, x: Thing, p: Path)
    requires Fits(r, t0, es, n, t, x, p) && (p in t.nodes <==> p in t'.nodes)
    requires p in t.nodes && p in t'.nodes ==> t'.nodes[p] == t.nodes[p]
    ensures Fits(r, t0, es, n, t', x, p)
  {
    hide InodeOf;
    hide IsBorn;
  }

  /** With the parent directory in place. */
  function WithParent(x: Thing, q: Path, p: Path): Thing {
    if x.Gone? && Within(Parent(q), p) then Folder else x
  }

  lemma ParentFits(r: Request, t0: Tree, es: seq<Entry>, n: nat, s: State, s1: State, q: Path, x: Thing, p: Path)
    requires Fits(r, t0, es, n, s.tree, x, p) && Ensures(r, s, s1, Parent(q))
    ensures Fits(r, t0, es, n, s1.tree, WithParent(x, q, p), p)
  {
    hide InodeOf;
    hide IsBorn;
    hide Within;
  }

  lemma EnsureKeepsLinks(r: Request, s: State, s1: State, d: Path)
    requires Ensures(r, s, s1, d)
    ensures SymlinksOf(s1.tree) == SymlinksOf(s.tree)
  {
    hide Within;
  }

  lemma BeginIgnoresNothing(r: Request, t0: Tree)
    ensures Begin(r, t0).state.ignored == {}
  {
    EnsureDirectoryKeepsIgnored(r, State(t0, map[], {}), r.target);
    hide EnsureDirectory;
  }

  lemma BeginIsSound(r: Request, t0: Tree)
    requires Sound(t0)
    ensures Sound(Begin(r, t0).state.tree)
  {
    EnsureDirectoryTouches(r, State(t0, map[], {}), r.target, r.target, false);
    hide EnsureDirectory;
    hide Sound;
    hide Touches;
  }

  lemma WellFormedIs(t: Tree)
    requires WellFormed(t)
    ensures Closed(t) && Sound(t)
  {
  }

  lemma DoneIs(r: Request, t0: Tree, es: seq<Entry>, n: nat)
    requires IsDone(r, t0, es, n)
    ensures r.privileged && WellFormed(t0) && Begin(r, t0).Next?
    ensures n <= |es| && PutEntries(r, Begin(r, t0).state, es, n).Next?
    ensures After(r, t0, es, n) == PutEntries(r, Begin(r, t0).state, es, n).state
  {
  }

  lemma DoneWhen(r: Request, t0: Tree, es: seq<Entry>, n: nat)
    requires r.privileged && WellFormed(t0) && Begin(r, t0).Next?
    requires n <= |es| && PutEntries(r, Begin(r, t0).state, es, n).Next?
    ensures IsDone(r, t0, es, n)
  {
  }

  lemma DoneBefore(r: Request, t0: Tree, es: seq<Entry>, k: nat, n: nat)
    requires IsDone(r, t0, es, n) && k <= n
    ensures IsDone(r, t0, es, k)
  {
    hide *;
    DoneIs(r, t0, es, n);
    EarlierSucceeded(r, Begin(r, t0).state, es, k, n);
    DoneWhen(r, t0, es, k);
  }

  /** When the turn of the entry at n comes. */
  lemma Turn(r: Request, t0: Tree, es: seq<Entry>, n: nat)
    requires n < |es| && IsDone(r, t0, es, n + 1)
    ensures var s := After(r, t0, es, n);
            && IsDone(r, t0, es, n) && r.privileged && Closed(s.tree) && Sound(s.tree)
            && PutEntry(r, s, es[n]).Next? && PutEntry(r, s, es[n]).state == After(r, t0, es, n + 1)
            && (IsIgnored(r, s, es[n]) <==> Skips(r, es, n))
  {
    hide *;
    var begun := Begin(r, t0).state;
    DoneIs(r, t0, es, n + 1);
    DoneBefore(r, t0, es, n, n + 1);
    DoneIs(r, t0, es, n);
    WellFormedIs(t0);
    BeginCloses(r, t0);
    BeginIsSound(r, t0);
    BeginIgnoresNothing(r, t0);
    EntriesClose(r, begun, es, n);
    TreeStaysSound(r, begun, es, n);
    IgnoredExactlyWhen(r, begun, es, n);
    NextEntry(r, begun, es, n + 1);
  }

  lemma LeafIsItem(r: Request, t0: Tree, es: seq<Entry>, n: nat, t: Tree, t': Tree, x: Thing, p: Path, q: Path)
    requires Fits(r, t0, es, n, t, x, p) && p in t.nodes && t.nodes[p].Leaf?
    requires q in t'.nodes && t'.nodes[q] == t.nodes[p]
    ensures Fits(r, t0, es, n, t', x, q)
  {
    hide InodeOf;
    hide IsBorn;
  }

  /** A link's target was there before, in the same inode. */
  lemma TargetWasThere(r: Request, s: State, s1: State, s': State, d: Path, q: Path, target: Path)
    requires Ensures(r, s, s1, d) && PutsAt(s1, s', q) && target != q
    requires target in s'.tree.nodes && q in s'.tree.nodes && s'.tree.nodes[target] == s'.tree.nodes[q]
    ensures target in s.tree.nodes && s.tree.nodes[target] == s'.tree.nodes[q] && s.tree.nodes[target].Leaf?
  {
    hide Within;
  }

  lemma HardLinkFits(r: Request, t0: Tree, es: seq<Entry>, n: nat)
    requires n < |es| && IsDone(r, t0, es, n + 1) && Matches(r, t0, es, n)
    requires SymlinksOf(After(r, t0, es, n).tree) == LinksAt(r, t0, es, n)
    requires Acts(r, es, n) && es[n].kind.HardLink?
    ensures Fits(r, t0, es, n + 1, After(r, t0, es, n + 1).tree, PutBy(r, t0, es, n), PathOf(r, es[n]))
  {
    var e, q := es[n], PathOf(r, es[n]);
    var s, s' := After(r, t0, es, n), After(r, t0, es, n + 1);
    var s1 := EnsureDirectory(r, s, Parent(q)).state;
    Turn(r, t0, es, n);
    EntryNodes(r, s, e, s1);
    HardLinkShows(r, s, e);
    EnsureKeepsLinks(r, s, s1, Parent(q));
    hide PutEntry;
    hide After;
    hide EnsureDirectory;
    hide LinksAt;
    hide SymlinksOf;
    hide What;
    hide LinkTarget;
    hide IsDone;
    var target := LinkTarget(r, LinksAt(r, t0, es, n), e.kind.linkname);
    TargetWasThere(r, s, s1, s', Parent(q), q, target.path);
    hide Ensures;
    hide PutsAt;
    var x := What(r, t0, es, n, target.path);
    assert PutBy(r, t0, es, n) == x;
    LeafIsItem(r, t0, es, n, s.tree, s'.tree, x, target.path, q);
    StillBorn(r, t0, es, n, s'.tree, x, q);
  }

  lemma ObjectFits(r: Request, t0: Tree, es: seq<Entry>, n: nat)
    requires n < |es| && IsDone(r, t0, es, n + 1) && Acts(r, es, n) && !es[n].kind.Dir? && !es[n].kind.HardLink?
    ensures Fits(r, t0, es, n + 1, After(r, t0, es, n + 1).tree, PutBy(r, t0, es, n), PathOf(r, es[n]))
  {
    var e, q := es[n], PathOf(r, es[n]);
    var s, s' := After(r, t0, es, n), After(r, t0, es, n + 1);
    Turn(r, t0, es, n);
    NamedEntryIs(r, s, e);
    UnrecognizedFails(r, EnsureDirectory(r, s, Parent(q)).state, q, e);
    EntryShows(r, s, e);
    hide PutEntry;
    hide Make;
    hide EnsureDirectory;
    hide IsDone;
    hide What;
    assert PutBy(r, t0, es, n) == Item(Made(n)) && IsBorn(r, t0, es, n + 1, Made(n));
    assert InodeOf(r, t0, es, Made(n)) == s.tree.next;
    hide After;
  }

  lemma UnrecognizedFails(r: Request, s: State, q: Path, e: Entry)
    ensures e.kind.Unrecognized? ==> Make(r, s, q, e).Failed?
  {
  }

  /** One entry, at its own path. */
  lemma OwnFits(r: Request, t0: Tree, es: seq<Entry>, n: nat)
    requires n < |es| && IsDone(r, t0, es, n + 1) && Matches(r, t0, es, n) && Acts(r, es, n)
    requires SymlinksOf(After(r, t0, es, n).tree) == LinksAt(r, t0, es, n)
    ensures Fits(r, t0, es, n + 1, After(r, t0, es, n + 1).tree, PutBy(r, t0, es, n), PathOf(r, es[n]))
  {
    hide *;
    if es[n].kind.Dir? {
      DirectoryFits(r, t0, es, n);
    } else if es[n].kind.HardLink? {
      HardLinkFits(r, t0, es, n);
    } else {
      ObjectFits(r, t0, es, n);
    }
  }

  lemma FolderFits(r: Request, t0: Tree, es: seq<Entry>, n: nat, t: Tree, p: Path)
    requires IsDirectory(t, p)
    ensures Fits(r, t0, es, n, t, Folder, p)
  {
  }

  lemma NamedActs(r: Request, es: seq<Entry>, k: nat)
    requires k < |es| && Acts(r, es, k)
    ensures !es[k].name.End?
  {
  }

  lemma DirectoryIsPut(r: Request, t0: Tree, es: seq<Entry>, k: nat)
    requires k < |es| && es[k].kind.Dir?
    ensures PutBy(r, t0, es, k) == Folder
  {
    hide What;
    hide LinksAt;
  }

  lemma PutIsDirectory(s: State, s': State, q: Path, m: Mode)
    requires PutsDirectory(s, s', q, m)
    ensures IsDirectory(s'.tree, q)
  {
  }

  lemma DirectoryFits(r: Request, t0: Tree, es: seq<Entry>, n: nat)
    requires n < |es| && IsDone(r, t0, es, n + 1) && Acts(r, es, n) && es[n].kind.Dir?
    ensures Fits(r, t0, es, n + 1, After(r, t0, es, n + 1).tree, PutBy(r, t0, es, n), PathOf(r, es[n]))
  {
    hide *;
    var s, s', q := After(r, t0, es, n), After(r, t0, es, n + 1), PathOf(r, es[n]);
    var s1 := EnsureDirectory(r, s, Parent(q)).state;
    Turn(r, t0, es, n);
    NamedActs(r, es, n);
    EntryNodes(r, s, es[n], s1);
    PutIsDirectory(s1, s', q, HeaderMode(r.options, es[n]));
    DirectoryIsPut(r, t0, es, n);
    FolderFits(r, t0, es, n + 1, s'.tree, q);
  }

  /** One entry, anywhere. */
  lemma EntryFits(r: Request, t0: Tree, es: seq<Entry>, n: nat, p: Path)
    requires n < |es| && IsDone(r, t0, es, n + 1) && Matches(r, t0, es, n)
    requires SymlinksOf(After(r, t0, es, n).tree) == LinksAt(r, t0, es, n)
    ensures Fits(r, t0, es, n + 1, After(r, t0, es, n + 1).tree, What(r, t0, es, n + 1, p), p)
  {
    var s, s', e, x := After(r, t0, es, n), After(r, t0, es, n + 1), es[n], What(r, t0, es, n, p);
    assert Fits(r, t0, es, n, s.tree, x, p);
    assert e.name.End? ==> PutEntry(r, s, e) == Next(s.(ignored := s.ignored + {e.name}));
    assert e.name.End? ==> !Acts(r, es, n);
    Turn(r, t0, es, n);
    WhatNext(r, t0, es, n, p);
    hide PutEntry;
    hide What;
    hide After;
    hide LinksAt;
    hide IsDone;
    if e.name.End? {
      StillBorn(r, t0, es, n, s.tree, x, p);
    } else if Acts(r, es, n) && p == PathOf(r, e) {
      OwnFits(r, t0, es, n);
    } else {
      ElsewhereFits(r, t0, es, n, s, s', x, p);
    }
  }

  /** The same for a path other than its own, or if it puts nothing there. */
  lemma ElsewhereFits(r: Request, t0: Tree, es: seq<Entry>, n: nat, s: State, s': State, x: Thing, p: Path)
    requires n < |es| && !es[n].name.End? && !(Acts(r, es, n) && p == PathOf(r, es[n]))
    requires r.privileged && Closed(s.tree) && PutEntry(r, s, es[n]).Next? && PutEntry(r, s, es[n]).state == s'
    requires (IsIgnored(r, s, es[n]) <==> Skips(r, es, n)) && Fits(r, t0, es, n, s.tree, x, p)
    ensures Fits(r, t0, es, n + 1, s'.tree,
      if Acts(r, es, n) && IsOther(es[n]) && Within(p, PathOf(r, es[n])) then Gone
      else WithParent(x, PathOf(r, es[n]), p), p)
  {
    var e, q := es[n], PathOf(r, es[n]);
    var s1 := EnsureDirectory(r, s, Parent(q)).state;
    EntryNodes(r, s, e, s1);
    ParentFits(r, t0, es, n, s, s1, q, x, p);
    var y := WithParent(x, q, p);
    StillBorn(r, t0, es, n, s1.tree, y, p);
    if e.kind.Dir? {
      DirectoriesAct(r, s, e);
    }
    hide Ensures;
    hide PutEntry;
    hide EnsureDirectory;
    hide WithParent;
    hide Fits;
    hide Closed;
    if Acts(r, es, n) && IsOther(e) && Within(p, q) {
      GoneFits(r, t0, es, n + 1, s'.tree, p);
    } else {
      SameFits(r, t0, es, n + 1, s1.tree, s'.tree, y, p);
    }
  }

  lemma DirectoriesAct(r: Request, s: State, e: Entry)
    requires !e.name.End? && e.kind.Dir?
    ensures !IsIgnored(r, s, e) && !e.kind.GlobalHeader?
  {
  }

  lemma GoneFits(r: Request, t0: Tree, es: seq<Entry>, n: nat, t: Tree, p: Path)
    requires p !in t.nodes
    ensures Fits(r, t0, es, n, t, Gone, p)
  {
  }

  // ----------------------------------------------------------------------------------- objects and links

  lemma {:induction false} AncestryIsAbove(q: Path, p: Path)
    ensures p in Ancestry(q) <==> Within(q, p)
    decreases q
  {
    if q.Below? {
      AncestryIsAbove(q.dir, p);
    }
  }

  /** What is not mentioned is not there. */
  lemma {:induction false} OnlyMentioned(r: Request, t0: Tree, es: seq<Entry>, n: nat, p: Path)
    requires n <= |es| && !What(r, t0, es, n, p).Gone?
    ensures p in Mentioned(r, t0, es, n)
  {
    if n == 0 {
      WhatAtFirst(r, t0, es, p);
      AncestryIsAbove(r.target, p);
    } else {
      WhatNext(r, t0, es, n - 1, p);
      var q := PathOf(r, es[n - 1]);
      AncestryIsAbove(q, p);
      assert Within(Parent(q), p) ==> Within(q, p);
      if !What(r, t0, es, n - 1, p).Gone? {
        OnlyMentioned(r, t0, es, n - 1, p);
      }
    }
    hide What;
    hide PutBy;
  }

  /** What the object is, whatever its mode by now. */
  function ObjectOf(t0: Tree, es: seq<Entry>, o: Origin): Object
    requires o.Original? ==> o.inode in t0.objects
    requires o.Made? ==> o.k < |es| && Intended(es[o.k], es[o.k].mode).Some?
  {
    match o
    case Original(i) => t0.objects[i]
    case Made(k) => Intended(es[k], es[k].mode).value
  }

  lemma MadeIs(r: Request, t0: Tree, es: seq<Entry>, k: nat)
    requires k < |es| && IsDone(r, t0, es, k + 1) && !Skips(r, es, k) && Intended(es[k], es[k].mode).Some?
    ensures var t, i := After(r, t0, es, k + 1).tree, After(r, t0, es, k).tree.next;
            && i in t.objects && SameButMode(Intended(es[k], es[k].mode).value, t.objects[i]) && t.next == i + 1
            && HasObject(t, PathOf(r, es[k])) && t.nodes[PathOf(r, es[k])] == Leaf(i)
  {
    Turn(r, t0, es, k);
    hide *;
    IntendedAlike(es[k], HeaderMode(r.options, es[k]), es[k].mode);
    EntryShows(r, After(r, t0, es, k), es[k]);
    ObjectIsIn(After(r, t0, es, k + 1).tree, PathOf(r, es[k]));
  }

  lemma ObjectIsIn(t: Tree, p: Path)
    requires HasObject(t, p)
    ensures p in t.nodes && t.nodes[p].Leaf? && t.nodes[p] == Leaf(t.nodes[p].inode) && t.nodes[p].inode in t.objects
    ensures ObjectAt(t, p) == t.objects[t.nodes[p].inode]
  {
  }

  lemma BeginKeepsObjects(r: Request, t0: Tree)
    requires Sound(t0)
    ensures ObjectsStay(t0, Begin(r, t0).state.tree)
  {
    EnsureDirectoryTouches(r, State(t0, map[], {}), r.target, r.target, false);
    hide EnsureDirectory;
    hide NodesTouched;
  }

  lemma StaysLike(t: Tree, t': Tree, i: nat, x: Object)
    requires ObjectsStay(t, t') && i in t.objects && SameButMode(x, t.objects[i])
    ensures i in t'.objects && SameButMode(x, t'.objects[i])
  {
  }

  lemma OriginalStays(r: Request, t0: Tree, es: seq<Entry>, n: nat, i: nat)
    requires IsDone(r, t0, es, n) && i in t0.objects
    ensures var t := After(r, t0, es, n).tree; i in t.objects && SameButMode(t0.objects[i], t.objects[i])
  {
    hide *;
    var begun := Begin(r, t0).state;
    DoneIs(r, t0, es, n);
    WellFormedIs(t0);
    BeginIsSound(r, t0);
    BeginKeepsObjects(r, t0);
    NoEntry(r, begun, es);
    ObjectsStayAlong(r, begun, es, 0, n);
    SameAsItself(t0.objects[i]);
    StaysLike(t0, begun.tree, i, t0.objects[i]);
    StaysLike(begun.tree, After(r, t0, es, n).tree, i, t0.objects[i]);
  }

  lemma SameAsItself(x: Object)
    ensures SameButMode(x, x)
  {
  }

  lemma MadeStays(r: Request, t0: Tree, es: seq<Entry>, n: nat, k: nat)
    requires k < n && IsDone(r, t0, es, n) && n <= |es| && !Skips(r, es, k) && Intended(es[k], es[k].mode).Some?
    ensures var t, i := After(r, t0, es, n).tree, After(r, t0, es, k).tree.next;
            i in t.objects && SameButMode(Intended(es[k], es[k].mode).value, t.objects[i])
  {
    hide *;
    var begun := Begin(r, t0).state;
    DoneIs(r, t0, es, n);
    WellFormedIs(t0);
    BeginIsSound(r, t0);
    DoneBefore(r, t0, es, k + 1, n);
    DoneIs(r, t0, es, k + 1);
    MadeIs(r, t0, es, k);
    ObjectsStayAlong(r, begun, es, k + 1, n);
    var x := Intended(es[k], es[k].mode).value;
    StaysLike(After(r, t0, es, k + 1).tree, After(r, t0, es, n).tree, After(r, t0, es, k).tree.next, x);
  }

  lemma InodeIs(r: Request, t0: Tree, es: seq<Entry>, o: Origin)
    ensures o.Original? ==> InodeOf(r, t0, es, o) == o.inode
    ensures o.Made? && o.k <= |es| ==> InodeOf(r, t0, es, o) == After(r, t0, es, o.k).tree.next
  {
    hide After;
  }

  /** Every object is still what it was, or what its entry made it. */
  lemma OriginIs(r: Request, t0: Tree, es: seq<Entry>, n: nat, o: Origin)
    requires IsDone(r, t0, es, n) && IsBorn(r, t0, es, n, o)
    ensures var t := After(r, t0, es, n).tree;
            InodeOf(r, t0, es, o) in t.objects && SameButMode(ObjectOf(t0, es, o), t.objects[InodeOf(r, t0, es, o)])
  {
    DoneIs(r, t0, es, n);
    hide IsDone;
    hide After;
    hide Intended;
    hide SameButMode;
    hide Skips;
    hide PutEntries;
    hide Begin;
    hide InodeOf;
    InodeIs(r, t0, es, o);
    match o {
      case Original(i) => OriginalStays(r, t0, es, n, i);
      case Made(k) => MadeStays(r, t0, es, n, k);
    }
  }

  lemma LinkOrigin(r: Request, t0: Tree, es: seq<Entry>, n: nat, o: Origin)
    requires IsBorn(r, t0, es, n, o)
    ensures IsLink(t0, es, Item(o)) <==> ObjectOf(t0, es, o).Symlink?
    ensures IsLink(t0, es, Item(o)) ==> TargetIn(t0, es, Item(o)) == ObjectOf(t0, es, o).target
  {
  }

  lemma LinkMatches(r: Request, t0: Tree, es: seq<Entry>, n: nat, p: Path)
    requires IsDone(r, t0, es, n) && n <= |es|
    requires Fits(r, t0, es, n, After(r, t0, es, n).tree, What(r, t0, es, n, p), p)
    ensures var links := SymlinksOf(After(r, t0, es, n).tree);
            && (p in links <==> p in LinksAt(r, t0, es, n))
            && (p in links && p in LinksAt(r, t0, es, n) ==> links[p] == LinksAt(r, t0, es, n)[p])
  {
    var x := What(r, t0, es, n, p);
    if !x.Gone? {
      OnlyMentioned(r, t0, es, n, p);
    }
    if x.Item? {
      OriginIs(r, t0, es, n, x.origin);
      LinkOrigin(r, t0, es, n, x.origin);
    }
    hide After;
    hide What;
    hide InodeOf;
    hide Mentioned;
    hide ObjectOf;
  }

  lemma LinksMatch(r: Request, t0: Tree, es: seq<Entry>, n: nat)
    requires IsDone(r, t0, es, n) && n <= |es| && Matches(r, t0, es, n)
    ensures SymlinksOf(After(r, t0, es, n).tree) == LinksAt(r, t0, es, n)
  {
    hide After;
    hide What;
    hide Fits;
    hide LinksAt;
    hide SymlinksOf;
    hide IsDone;
    forall p
      ensures var links := SymlinksOf(After(r, t0, es, n).tree);
              && (p in links <==> p in LinksAt(r, t0, es, n))
              && (p in links && p in LinksAt(r, t0, es, n) ==> links[p] == LinksAt(r, t0, es, n)[p])
    {
      LinkMatches(r, t0, es, n, p);
    }
  }

  // ----------------------------------------------------------------------------------------- all entries

  lemma BeginFits(r: Request, t0: Tree, es: seq<Entry>, p: Path)
    requires WellFormed(t0) && Begin(r, t0).Next?
    ensures Fits(r, t0, es, 0, Begin(r, t0).state.tree, What(r, t0, es, 0, p), p)
    ensures NoteFor(Begin(r, t0).state, p) == NoteOf(r, t0, es, 0, p)
  {
    var s := State(t0, map[], {});
    WhatAtFirst(r, t0, es, p);
    if r.target !in t0.nodes {
      EnsuresAll(r, s, r.target);
    } else if Within(r.target, p) {
      AncestorsAreThere(t0, r.target, p);
    }
    hide EnsureDirectory;
    hide What;
    hide Within;
    hide After;
  }

  lemma {:induction false} AncestorsAreThere(t: Tree, p: Path, q: Path)
    requires Closed(t) && p in t.nodes && Within(p, q)
    ensures q in t.nodes
  {
    if p != q {
      AncestorsAreThere(t, p.dir, q);
    }
  }

  lemma MatchesFirst(r: Request, t0: Tree, es: seq<Entry>)
    requires IsDone(r, t0, es, 0)
    ensures Matches(r, t0, es, 0) && NotesMatch(r, t0, es, 0)
  {
    DoneIs(r, t0, es, 0);
    NoEntry(r, Begin(r, t0).state, es);
    hide PutEntries;
    hide Begin;
    hide What;
    hide Fits;
    hide NoteOf;
    hide NoteFor;
    forall p
      ensures Fits(r, t0, es, 0, After(r, t0, es, 0).tree, What(r, t0, es, 0, p), p) && NoteMatches(r, t0, es, 0, p)
    {
      BeginFits(r, t0, es, p);
    }
  }

  lemma MatchesNext(r: Request, t0: Tree, es: seq<Entry>, n: nat)
    requires n < |es| && IsDone(r, t0, es, n + 1) && Matches(r, t0, es, n)
    ensures Matches(r, t0, es, n + 1)
  {
    DoneBefore(r, t0, es, n, n + 1);
    LinksMatch(r, t0, es, n);
    hide After;
    hide What;
    hide Fits;
    hide IsDone;
    var next := n + 1;
    forall p
      ensures Fits(r, t0, es, next, After(r, t0, es, next).tree, What(r, t0, es, next, p), p)
    {
      EntryFits(r, t0, es, n, p);
    }
  }

  /** For every archive: what a privileged extractor leaves at each path is what is read there. */
  lemma {:induction false} ReadingIsRight(r: Request, t0: Tree, es: seq<Entry>, n: nat)
    requires n <= |es| && IsDone(r, t0, es, n)
    ensures Matches(r, t0, es, n)
  {
    hide *;
    if n == 0 {
      MatchesFirst(r, t0, es);
    } else {
      DoneBefore(r, t0, es, n - 1, n);
      ReadingIsRight(r, t0, es, n - 1);
      MatchesNext(r, t0, es, n - 1);
    }
  }

  lemma FitsGone(r: Request, t0: Tree, es: seq<Entry>, n: nat, t: Tree, x: Thing, p: Path)
    requires Fits(r, t0, es, n, t, x, p)
    ensures x.Gone? <==> p !in t.nodes
  {
    hide InodeOf;
    hide IsBorn;
  }

  lemma EntryNotes(r: Request, s: State, e: Entry, p: Path)
    requires r.privileged && Closed(s.tree) && PutEntry(r, s, e).Next?
    ensures NoteFor(PutEntry(r, s, e).state, p) ==
      if IsListedDirectory(r, e, p) then Some(HeaderMode(r.options, e))
      else if NoteFor(s, p).None? && !e.name.End? && Within(Parent(PathOf(r, e)), p) && p !in s.tree.nodes then
        Some(DefaultDirMode(r.options))
      else NoteFor(s, p)
  {
    if !e.name.End? {
      EntryNodes(r, s, e, EnsureDirectory(r, s, Parent(PathOf(r, e))).state);
      hide PutEntry;
      hide EnsureDirectory;
      hide Within;
    }
  }

  lemma NotesNext(r: Request, t0: Tree, es: seq<Entry>, n: nat)
    requires n < |es| && IsDone(r, t0, es, n + 1) && Matches(r, t0, es, n) && NotesMatch(r, t0, es, n)
    ensures NotesMatch(r, t0, es, n + 1)
  {
    Turn(r, t0, es, n);
    hide After;
    hide What;
    hide Fits;
    hide NoteOf;
    hide NoteFor;
    hide PutEntry;
    hide IsDone;
    var s, next := After(r, t0, es, n), n + 1;
    forall p
      ensures NoteMatches(r, t0, es, next, p)
    {
      assert NoteMatches(r, t0, es, n, p);
      EntryNotes(r, s, es[n], p);
      NoteNext(r, t0, es, n, p);
      FitsGone(r, t0, es, n, s.tree, What(r, t0, es, n, p), p);
    }
  }

  /** And the modes that it has noted are those that are read. */
  lemma {:induction false} NotesAreRight(r: Request, t0: Tree, es: seq<Entry>, n: nat)
    requires n <= |es| && IsDone(r, t0, es, n)
    ensures NotesMatch(r, t0, es, n)
  {
    hide *;
    if n == 0 {
      MatchesFirst(r, t0, es);
    } else {
      DoneBefore(r, t0, es, n - 1, n);
      NotesAreRight(r, t0, es, n - 1);
      ReadingIsRight(r, t0, es, n - 1);
      NotesNext(r, t0, es, n - 1);
    }
  }

  // ------------------------------------------------------------------------------- in consistent archives

  /** A directory is called for at p by the target, or by one of the first n entries. */
  ghost predicate IsCalledForBy(r: Request, es: seq<Entry>, n: nat, p: Path) {
    Within(r.target, p) || exists k :: 0 <= k < n && k < |es| && CallsFor(r, es[k], p)
  }

  /** The mode of the last header that lists it, or the default if it is called for and was not there before. */
  ghost function NotedMode(r: Request, t0: Tree, es: seq<Entry>, n: nat, p: Path): Option<Mode>
    requires n <= |es|
  {
    var last := LastMode(r, es, n, p);
    if last.Some? then last
    else if IsCalledForBy(r, es, n, p) && p !in t0.nodes then Some(DefaultDirMode(r.options))
    else None
  }

  lemma CalledForNext(r: Request, es: seq<Entry>, n: nat, p: Path)
    requires n < |es|
    ensures var next := n + 1;
            IsCalledForBy(r, es, next, p) <==> IsCalledForBy(r, es, n, p) || CallsFor(r, es[n], p)
  {
    hide CallsFor;
  }

  lemma CalledForInAll(r: Request, es: seq<Entry>, m: nat, n: nat, p: Path)
    requires m <= n <= |es| && IsCalledForBy(r, es, m, p)
    ensures IsCalledFor(r, es[..n], p)
  {
    if !Within(r.target, p) {
      var k :| 0 <= k < m && CallsFor(r, es[k], p);
      assert es[..n][k] == es[k];
    }
  }

  /** No other entry is at a path that is called for, or above it. */
  lemma NoneInPlace(r: Request, es: seq<Entry>, k: nat, n: nat, p: Path)
    requires k < n <= |es| && Consistent(r, es[..n]) && IsCalledFor(r, es[..n], p)
    ensures IsOther(es[k]) ==> !Within(p, PathOf(r, es[k]))
  {
    assert es[..n][k] == es[k];
    if Within(p, PathOf(r, es[k])) {
      CalledForAbove(r, es[..n], p, PathOf(r, es[k]));
    }
  }

  /** What a consistent archive calls for is there from when it is called for, if it was not before. */
  lemma {:induction false} GoneExactlyWhen(r: Request, t0: Tree, es: seq<Entry>, m: nat, n: nat, p: Path)
    requires m <= n <= |es| && Consistent(r, es[..n]) && IsCalledFor(r, es[..n], p)
    ensures What(r, t0, es, m, p).Gone? <==> p !in t0.nodes && !IsCalledForBy(r, es, m, p)
  {
    hide What;
    if m == 0 {
      WhatAtFirst(r, t0, es, p);
    } else {
      GoneExactlyWhen(r, t0, es, m - 1, n, p);
      WhatNext(r, t0, es, m - 1, p);
      CalledForNext(r, es, m - 1, p);
      NoneInPlace(r, es, m - 1, n, p);
      assert Within(p, p);
      hide IsCalledForBy;
      hide IsCalledFor;
      hide Consistent;
      hide LinksAt;
      hide LinkTarget;
    }
  }

  /** For which paths modes are noted, and which, if the first n entries are consistent. */
  lemma {:induction false} NotedExactlyWhen(r: Request, t0: Tree, es: seq<Entry>, m: nat, n: nat, p: Path)
    requires m <= n <= |es| && Consistent(r, es[..n])
    ensures NoteOf(r, t0, es, m, p) == NotedMode(r, t0, es, m, p)
  {
    if m == 0 {
      hide What;
    } else {
      NotedExactlyWhen(r, t0, es, m - 1, n, p);
      NoteNext(r, t0, es, m - 1, p);
      CalledForNext(r, es, m - 1, p);
      hide NoteOf;
      hide What;
      if IsCalledForBy(r, es, m, p) {
        CalledForInAll(r, es, m, n, p);
        GoneExactlyWhen(r, t0, es, m - 1, n, p);
      }
      hide IsCalledForBy;
      hide IsCalledFor;
      hide Consistent;
    }
  }
}
