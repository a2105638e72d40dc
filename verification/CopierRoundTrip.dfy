/**
 Archiving a directory tree and extracting the archive into an empty directory gives the
 tree again: all of it if the extractor is privileged, and else, if it succeeds, all but
 the modes of some directories.
 */
module CopierRoundTrip {
  import opened Optional
  import opened Paths
  import opened FileTree
  import opened SymlinkResolution
  import opened CopierPut
  import opened ModeSetting
  import opened PutModes
  import opened CopierGet

  function Into(privileged: bool): Request {
    Request(Top, PLAIN, privileged)
  }

  function EmptyDirectory(m: Mode): Tree {
    Tree(map[Top := Directory(m)], map[], 0)
  }

  // ------------------------------------------------------------------------------------ what is the same

  /** The same type, content and mode, or the same target. */
  predicate SameThing(t: Tree, t': Tree, p: Path) {
    && p in t.nodes && p in t'.nodes
    && match t.nodes[p]
       case Directory(m) => t'.nodes[p] == Directory(m)
       case Leaf(i) =>
         && t'.nodes[p].Leaf? && i in t.objects && t'.nodes[p].inode in t'.objects
         && t'.objects[t'.nodes[p].inode] == t.objects[i]
  }

  predicate IsRegular(t: Tree, p: Path) {
    p in t.nodes && t.nodes[p].Leaf? && t.nodes[p].inode in t.objects && t.objects[t.nodes[p].inode].Regular?
  }

  /**
   The same names and the same things under them. Two names are those of one thing exactly
   when they were before and it is a regular file; the links between names of a symbolic
   link, a pipe or a device are lost.
   */
  ghost predicate Reproduces(t: Tree, t': Tree) {
    && t'.nodes.Keys == t.nodes.Keys
    && (forall p :: p in t.nodes && p.Below? ==> SameThing(t, t', p))
    && (forall p, q :: p != q ==> (AreLinks(t', p, q) <==> AreLinks(t, p, q) && IsRegular(t, p)))
  }

  /** The same, but for the modes of directories. */
  ghost predicate ReproducesAllButModes(t: Tree, t': Tree) {
    && t'.nodes.Keys == t.nodes.Keys
    && (forall p :: p in t.nodes && p.Below? ==> if IsDirectory(t, p) then IsDirectory(t', p) else SameThing(t, t', p))
    && (forall p, q :: p != q ==> (AreLinks(t', p, q) <==> AreLinks(t, p, q) && IsRegular(t, p)))
  }

  /** All links are kept exactly when nothing but regular files has two names. */
  lemma LinksKeptExactlyWhen(t: Tree, t': Tree)
    requires Reproduces(t, t')
    ensures (forall p, q :: p != q ==> (AreLinks(t', p, q) <==> AreLinks(t, p, q))) <==>
            (forall p, q :: p != q && AreLinks(t, p, q) ==> IsRegular(t, p))
  {
    if forall p, q :: p != q ==> (AreLinks(t', p, q) <==> AreLinks(t, p, q)) {
      forall p, q | p != q && AreLinks(t, p, q)
        ensures IsRegular(t, p)
      {
        assert AreLinks(t', p, q);
      }
    }
  }

  // --------------------------------------------------------------------------------------- the invariant

  /** What has been extracted under p is right, apart from modes that are only noted. */
  predicate Copied(t: Tree, s: State, p: Path) {
    && p in t.nodes && p in s.tree.nodes
    && match t.nodes[p]
       case Directory(m) => IsDirectory(s.tree, p) && p in s.modes && s.modes[p] == m
       case Leaf(i) =>
         && s.tree.nodes[p].Leaf? && i in t.objects && s.tree.nodes[p].inode in s.tree.objects
         && s.tree.objects[s.tree.nodes[p].inode] == t.objects[i]
  }

  ghost predicate AllCopied(t: Tree, s: State) {
    && IsDirectory(s.tree, Top)
    && forall p :: p in s.tree.nodes && p.Below? ==> Copied(t, s, p) && IsDirectory(s.tree, p.dir)
  }

  ghost predicate LinksFit(t: Tree, s: State) {
    && (forall p, q :: AreLinks(s.tree, p, q) && p != q ==> AreLinks(t, p, q) && IsRegular(t, p))
    && (forall p, q :: p in s.tree.nodes && q in s.tree.nodes && IsRegular(t, p) && AreLinks(t, p, q) ==>
      AreLinks(s.tree, p, q))
  }

  ghost predicate InodesFit(s: State) {
    && (forall p :: p in s.tree.nodes && s.tree.nodes[p].Leaf? ==> s.tree.nodes[p].inode < s.tree.next)
    && s.ignored == {} && forall p :: p in s.modes ==> IsDirectory(s.tree, p)
  }

  ghost predicate Fits(t: Tree, s: State) {
    AllCopied(t, s) && LinksFit(t, s) && InodesFit(s)
  }

  // ------------------------------------------------------------------------------------ one more thing

  /** p is next: it is missing, and its directory is there. */
  predicate IsNext(t: Tree, s: State, p: Path) {
    p.Below? && p in t.nodes && p !in s.tree.nodes && IsDirectory(s.tree, p.dir)
  }

  /** What was copied before is still as it was, and its directory is still there. */
  lemma StaysCopied(t: Tree, s: State, s': State, q: Path)
    requires Copied(t, s, q) && q in s'.tree.nodes && s'.tree.nodes[q] == s.tree.nodes[q]
    requires q in s.modes ==> q in s'.modes && s'.modes[q] == s.modes[q]
    requires forall i :: i in s.tree.objects && i < s.tree.next ==>
      i in s'.tree.objects && s'.tree.objects[i] == s.tree.objects[i]
    requires InodesFit(s)
    ensures Copied(t, s', q)
  {
  }

  /** Something new under p is right if it is right itself, and nothing else changes. */
  lemma OneMoreCopied(t: Tree, s: State, s': State, p: Path)
    requires AllCopied(t, s) && InodesFit(s) && IsNext(t, s, p) && Copied(t, s', p)
    requires forall q :: q in s'.tree.nodes <==> q in s.tree.nodes || q == p
    requires forall q :: q in s.tree.nodes ==> s'.tree.nodes[q] == s.tree.nodes[q]
    requires forall q :: q in s.modes && q != p ==> q in s'.modes && s'.modes[q] == s.modes[q]
    requires forall i :: i in s.tree.objects && i < s.tree.next ==>
      i in s'.tree.objects && s'.tree.objects[i] == s.tree.objects[i]
    ensures AllCopied(t, s')
  {
    hide Copied;
    hide InodesFit;
    forall q | q in s'.tree.nodes && q.Below?
      ensures Copied(t, s', q) && IsDirectory(s'.tree, q.dir)
    {
      if q != p {
        StaysCopied(t, s, s', q);
      }
    }
  }

  lemma DirectoryFits(t: Tree, s: State, p: Path, m: Mode)
    requires Fits(t, s) && IsNext(t, s, p) && t.nodes[p] == Directory(m)
    ensures Fits(t, WithDirectory(s, p, m))
  {
    var s' := WithDirectory(s, p, m);
    assert Copied(t, s', p);
    OneMoreCopied(t, s, s', p);
    assert forall a, b :: AreLinks(s'.tree, a, b) <==> AreLinks(s.tree, a, b);
    hide AllCopied;
    hide Copied;
    assert InodesFit(s') by {
      hide LinksFit;
      hide AreLinks;
    }
    LinksStayFit(t, s, s', p);
  }

  lemma LinksStayFit(t: Tree, s: State, s': State, p: Path)
    requires LinksFit(t, s) && p in t.nodes && t.nodes[p].Directory?
    requires forall a, b :: AreLinks(s'.tree, a, b) <==> AreLinks(s.tree, a, b)
    requires forall q :: q in s'.tree.nodes <==> q in s.tree.nodes || q == p
    ensures LinksFit(t, s')
  {
    assert forall q :: !AreLinks(t, p, q) && !AreLinks(t, q, p);
    hide AreLinks;
    hide IsRegular;
  }

  /** A new object. */
  lemma ObjectIsCopied(t: Tree, s: State, p: Path, x: Object)
    requires AllCopied(t, s) && InodesFit(s) && IsNext(t, s, p)
    requires t.nodes[p].Leaf? && t.nodes[p].inode in t.objects && t.objects[t.nodes[p].inode] == x
    ensures AllCopied(t, WithObject(s, p, x)) && InodesFit(WithObject(s, p, x))
  {
    var s' := WithObject(s, p, x);
    assert Copied(t, s', p);
    OneMoreCopied(t, s, s', p);
    hide AllCopied;
    hide Copied;
  }

  /** It has a new inode, which is right if it is the first of its inode or is not a regular file. */
  lemma ObjectIsUnlinked(t: Tree, s: State, p: Path, x: Object)
    requires LinksFit(t, s) && InodesFit(s) && p !in s.tree.nodes
    requires IsRegular(t, p) ==> forall q :: q in s.tree.nodes ==> !AreLinks(t, q, p)
    ensures LinksFit(t, WithObject(s, p, x))
  {
    var s' := WithObject(s, p, x);
    forall a, b | AreLinks(s'.tree, a, b) && a != b
      ensures AreLinks(t, a, b) && IsRegular(t, a)
    {
      assert AreLinks(s.tree, a, b);
    }
    forall a, b | a in s'.tree.nodes && b in s'.tree.nodes && IsRegular(t, a) && AreLinks(t, a, b)
      ensures AreLinks(s'.tree, a, b)
    {
      if a != p && b != p {
        assert AreLinks(s.tree, a, b);
      }
    }
  }

  lemma ObjectFits(t: Tree, s: State, p: Path, x: Object)
    requires Fits(t, s) && IsNext(t, s, p)
    requires t.nodes[p].Leaf? && t.nodes[p].inode in t.objects && t.objects[t.nodes[p].inode] == x
    requires IsRegular(t, p) ==> forall q :: q in s.tree.nodes ==> !AreLinks(t, q, p)
    ensures Fits(t, WithObject(s, p, x))
  {
    hide AllCopied;
    hide LinksFit;
    hide InodesFit;
    hide WithObject;
    ObjectIsCopied(t, s, p, x);
    ObjectIsUnlinked(t, s, p, x);
  }

  lemma LinkIsCopied(t: Tree, s: State, p: Path, f: Path)
    requires AllCopied(t, s) && InodesFit(s) && IsNext(t, s, p) && f in s.tree.nodes && f.Below? && AreLinks(t, f, p)
    ensures var s' := s.(tree := s.tree.(nodes := s.tree.nodes[p := s.tree.nodes[f]]));
            AllCopied(t, s') && InodesFit(s')
  {
    assert Copied(t, s, f);
  }

  lemma LinkIsLinked(t: Tree, s: State, p: Path, f: Path)
    requires LinksFit(t, s) && p !in s.tree.nodes && f in s.tree.nodes && s.tree.nodes[f].Leaf?
    requires IsRegular(t, f) && AreLinks(t, f, p)
    ensures LinksFit(t, s.(tree := s.tree.(nodes := s.tree.nodes[p := s.tree.nodes[f]])))
  {
    var s' := s.(tree := s.tree.(nodes := s.tree.nodes[p := s.tree.nodes[f]]));
    forall a, b | AreLinks(s'.tree, a, b) && a != b
      ensures AreLinks(t, a, b) && IsRegular(t, a)
    {
      var a', b' := if a == p then f else a, if b == p then f else b;
      assert AreLinks(s.tree, a', b');
      assert a' == b' || AreLinks(t, a', b');
    }
    forall a, b | a in s'.tree.nodes && b in s'.tree.nodes && IsRegular(t, a) && AreLinks(t, a, b)
      ensures AreLinks(s'.tree, a, b)
    {
      var a', b' := if a == p then f else a, if b == p then f else b;
      assert IsRegular(t, a') && AreLinks(t, a', b');
      assert AreLinks(s.tree, a', b');
    }
  }

  lemma LinkFits(t: Tree, s: State, p: Path, f: Path)
    requires Fits(t, s) && IsNext(t, s, p) && f in s.tree.nodes && f.Below? && IsRegular(t, f) && AreLinks(t, f, p)
    ensures Fits(t, s.(tree := s.tree.(nodes := s.tree.nodes[p := s.tree.nodes[f]])))
  {
    assert Copied(t, s, f);
    hide AllCopied;
    hide InodesFit;
    hide LinksFit;
    LinkIsCopied(t, s, p, f);
    LinkIsLinked(t, s, p, f);
  }

  /** Everything that has been extracted is within reach, and with it the directories that have something in them. */
  ghost predicate AllReached(s: State, privileged: bool) {
    forall p :: p in s.tree.nodes ==> CanReach(s.tree, p, privileged)
  }

  predicate IsWritable(t: Tree, d: Path, privileged: bool) {
    IsDirectory(t, d) && (privileged || OwnerWrites(t.nodes[d].mode))
  }

  lemma WritableMayBeWritten(s: State, d: Path, privileged: bool)
    requires AllReached(s, privileged)
    ensures MayWrite(s.tree, d, privileged) <==> IsWritable(s.tree, d, privileged)
    ensures forall name :: IsWritable(s.tree, d, privileged) ==> CanReach(s.tree, Below(d, name), privileged)
  {
  }

  /** Making a directory writable changes nothing but its mode, for now. */
  function Writeable(s: State, d: Path): State
    requires IsDirectory(s.tree, d)
  {
    State(s.tree.(nodes := s.tree.nodes[d := Directory(SCRATCH_DIRECTORY)]),
          if d in s.modes then s.modes else s.modes[d := s.tree.nodes[d].mode],
          s.ignored)
  }

  lemma WriteableChanges(s: State, d: Path, privileged: bool)
    requires IsDirectory(s.tree, d) && AllReached(s, privileged)
    ensures MakeWriteable(Into(privileged), s, d) == Next(Writeable(s, d))
  {
    hide CanReach;
  }

  /** Directories stay as they are, or become accessible. */
  ghost predicate StayAccessible(t: Tree, t': Tree) {
    forall d :: IsDirectory(t, d) ==>
      d in t'.nodes && (t'.nodes[d] == t.nodes[d] || t'.nodes[d] == Directory(SCRATCH_DIRECTORY))
  }

  /** What was within reach stays so. */
  lemma {:induction false} StaysReached(t: Tree, t': Tree, p: Path, privileged: bool)
    requires CanReach(t, p, privileged) && StayAccessible(t, t')
    ensures CanReach(t', p, privileged)
  {
    if !privileged && p.Below? {
      StaysReached(t, t', p.dir, privileged);
    }
  }

  /** Something new in a directory that may be written to is within reach, and so is what was. */
  lemma OneMoreReached(s: State, s': State, p: Path, privileged: bool)
    requires AllReached(s, privileged) && p.Below?
    requires IsDirectory(s.tree, p.dir) && IsWritable(s'.tree, p.dir, privileged)
    requires (forall q :: q in s'.tree.nodes ==> q in s.tree.nodes || q == p) && StayAccessible(s.tree, s'.tree)
    ensures AllReached(s', privileged)
  {
    hide StayAccessible;
    forall q | q in s'.tree.nodes
      ensures CanReach(s'.tree, q, privileged)
    {
      if q in s.tree.nodes {
        StaysReached(s.tree, s'.tree, q, privileged);
      } else {
        StaysReached(s.tree, s'.tree, p.dir, privileged);
        ReachedIn(s'.tree, p, privileged);
      }
    }
    hide CanReach;
  }

  lemma ReachedIn(t: Tree, p: Path, privileged: bool)
    requires p.Below? && IsWritable(t, p.dir, privileged) && CanReach(t, p.dir, privileged)
    ensures CanReach(t, p, privileged)
  {
  }

  lemma WriteableFits(t: Tree, s: State, d: Path)
    requires Fits(t, s) && IsDirectory(s.tree, d)
    ensures Fits(t, Writeable(s, d))
  {
    var s' := Writeable(s, d);
    assert forall p, q :: AreLinks(s'.tree, p, q) <==> AreLinks(s.tree, p, q);
    assert forall p :: IsDirectory(s'.tree, p) <==> IsDirectory(s.tree, p);
    assert AllCopied(t, s') by {
      hide LinksFit;
      hide AreLinks;
    }
    assert InodesFit(s') by {
      hide LinksFit;
      hide AllCopied;
      hide AreLinks;
    }
    hide AllCopied;
    hide InodesFit;
  }

  // ------------------------------------------------------------------------------------------ one entry

  predicate IsDevice(kind: Kind) {
    kind.CharDevice? || kind.BlockDevice?
  }

  /**
   When an entry can be put into its directory: only a regular file gets into one that may
   not be written to, which is made writable, and only the privileged make devices.
   */
  predicate Admits(kind: Kind, writable: bool, privileged: bool) {
    kind.RegularFile? || (writable && (IsDevice(kind) ==> privileged))
  }

  /** The entry adds p and nothing else. */
  ghost predicate Adds(t: Tree, s: State, step: Step, p: Path, kind: Kind, privileged: bool) {
    && p.Below? && (step.Next? <==> Admits(kind, IsWritable(s.tree, p.dir, privileged), privileged))
    && (step.Next? ==>
      && Fits(t, step.state) && step.state.tree.nodes.Keys == s.tree.nodes.Keys + {p}
      && Opens(t, s, step.state, p, kind, privileged) && AllReached(step.state, privileged))
  }

  /** The directory has to be made writable for it. */
  predicate IsOpenedFor(s: State, d: Path, p: Path, kind: Kind, privileged: bool)
    requires p.Below?
  {
    kind.RegularFile? && d == p.dir && !IsWritable(s.tree, d, privileged)
  }

  /** What becomes of the modes of directories, and of the notes for them. */
  ghost predicate Opens(t: Tree, s: State, s': State, p: Path, kind: Kind, privileged: bool)
    requires p.Below?
  {
    && (forall d :: IsDirectory(s.tree, d) ==>
      && d in s'.tree.nodes
      && s'.tree.nodes[d] ==
        if IsOpenedFor(s, d, p, kind, privileged) then Directory(SCRATCH_DIRECTORY) else s.tree.nodes[d])
    && (IsDirectory(s'.tree, p) ==> p in t.nodes && s'.tree.nodes[p] == t.nodes[p])
    && (Top in s'.modes <==> Top in s.modes || (IsDirectory(s.tree, Top) && IsOpenedFor(s, Top, p, kind, privileged)))
    && (Top in s'.modes ==>
      s'.modes[Top] == if Top in s.modes then s.modes[Top] else if IsDirectory(s.tree, Top) then s.tree.nodes[Top].mode
        else SCRATCH_DIRECTORY)
  }

  lemma {:induction false} NothingToEnsure(r: Request, t: Tree, s: State, d: Path)
    requires AllCopied(t, s) && IsDirectory(s.tree, d) && AllReached(s, r.privileged)
    ensures EnsureDirectory(r, s, d) == Next(s)
    decreases d
  {
    hide CanReach;
    if d.Below? {
      NothingToEnsure(r, t, s, d.dir);
    }
  }

  lemma NameLeadsBack(p: Path, kind: Kind, m: Mode, privileged: bool)
    requires p.Below?
    ensures PathOf(Into(privileged), Entry(Split(p, End), kind, m)) == p && !Split(p, End).End?
  {
    SplitHasOnlyNames(p, End);
    GraftOnTop(p);
  }

  /** With its directory in place and nothing to be ignored, an entry is made and given its mode. */
  lemma EntryIsMade(t: Tree, s: State, p: Path, kind: Kind, m: Mode, privileged: bool)
    requires AllCopied(t, s) && IsNext(t, s, p) && s.ignored == {} && AllReached(s, privileged)
    ensures var e := Entry(Split(p, End), kind, m);
            var made := Make(Into(privileged), s, p, e);
            PutEntry(Into(privileged), s, e) ==
              if made.Failed? || kind.SymbolicLink? || kind.Dir? || kind.GlobalHeader? then made
              else Next(made.state.(tree := Chmod(made.state.tree, p, m)))
  {
    NameLeadsBack(p, kind, m, privileged);
    NothingToEnsure(Into(privileged), t, s, p.dir);
    hide EnsureDirectory;
    hide Make;
    hide Chmod;
    hide AllCopied;
    hide AllReached;
  }

  function WithDirectory(s: State, p: Path, m: Mode): State {
    State(s.tree.(nodes := s.tree.nodes[p := Directory(m)]), s.modes[p := m], s.ignored)
  }

  lemma PutDirectoryMakes(s: State, p: Path, m: Mode, privileged: bool)
    requires p.Below? && p !in s.tree.nodes && IsDirectory(s.tree, p.dir) && AllReached(s, privileged)
    ensures var step := PutDirectory(Into(privileged), s, p, m);
            && (step.Next? <==> IsWritable(s.tree, p.dir, privileged))
            && (step.Next? ==> step.state == WithDirectory(s, p, m))
  {
    WritableMayBeWritten(s, p.dir, privileged);
    assert p == Below(p.dir, p.name);
    hide AllReached;
    hide CanReach;
    hide MayWrite;
    assert s.tree.nodes[p := Directory(SCRATCH_DIRECTORY)][p := Directory(m)] == s.tree.nodes[p := Directory(m)];
  }

  lemma DirectoryOpens(t: Tree, s: State, p: Path, m: Mode, privileged: bool)
    requires IsNext(t, s, p) && t.nodes[p] == Directory(m)
    ensures Opens(t, s, WithDirectory(s, p, m), p, Dir, privileged)
  {
  }

  lemma DirectoryIsReached(s: State, p: Path, m: Mode, privileged: bool)
    requires AllReached(s, privileged) && p.Below? && IsWritable(s.tree, p.dir, privileged) && p !in s.tree.nodes
    ensures AllReached(WithDirectory(s, p, m), privileged)
  {
    OneMoreReached(s, WithDirectory(s, p, m), p, privileged);
    hide AllReached;
  }

  lemma PutsDirectory(t: Tree, s: State, p: Path, m: Mode, privileged: bool)
    requires Fits(t, s) && AllReached(s, privileged) && IsNext(t, s, p) && t.nodes[p] == Directory(m)
    ensures Adds(t, s, PutEntry(Into(privileged), s, Entry(Split(p, End), Dir, m)), p, Dir, privileged)
  {
    EntryIsMade(t, s, p, Dir, m, privileged);
    PutDirectoryMakes(s, p, m, privileged);
    DirectoryFits(t, s, p, m);
    DirectoryOpens(t, s, p, m, privileged);
    if IsWritable(s.tree, p.dir, privileged) {
      DirectoryIsReached(s, p, m, privileged);
    }
    hide PutEntry;
    hide PutDirectory;
    hide Fits;
    hide Opens;
    hide AllReached;
  }

  /** A new object, with its mode set. */
  function WithObject(s: State, p: Path, x: Object): State {
    s.(tree := Tree(s.tree.nodes[p := Leaf(s.tree.next)], s.tree.objects[s.tree.next := x], s.tree.next + 1))
  }

  lemma ReplaceCreates(s: State, p: Path, x: Object, privileged: bool)
    requires p.Below? && p !in s.tree.nodes && IsDirectory(s.tree, p.dir) && AllReached(s, privileged)
    ensures var step := Replace(Into(privileged), s, p, MakeObject(x));
            && (step.Next? <==> IsWritable(s.tree, p.dir, privileged) && (x.Device? ==> privileged))
            && (step.Next? ==> step.state == WithObject(s, p, x))
  {
    WritableMayBeWritten(s, p.dir, privileged);
    assert p == Below(p.dir, p.name);
    hide AllReached;
    hide CanReach;
    hide MayWrite;
    hide RemoveAll;
  }

  lemma ChmodOfNew(s: State, p: Path, x: Object, m: Mode)
    ensures var s' := WithObject(s, p, x);
            s'.(tree := Chmod(s'.tree, p, m)) == WithObject(s, p, WithMode(x, m))
  {
    var s' := WithObject(s, p, x);
    assert s'.tree.objects[s.tree.next := WithMode(x, m)] == s.tree.objects[s.tree.next := WithMode(x, m)];
  }

  lemma LeafOpens(t: Tree, s: State, p: Path, x: Object, kind: Kind, privileged: bool)
    requires IsNext(t, s, p) && !kind.RegularFile?
    ensures Opens(t, s, WithObject(s, p, x), p, kind, privileged)
  {
  }

  lemma ObjectIsReached(s: State, p: Path, x: Object, privileged: bool)
    requires AllReached(s, privileged) && p.Below? && IsWritable(s.tree, p.dir, privileged) && p !in s.tree.nodes
    ensures AllReached(WithObject(s, p, x), privileged)
  {
    OneMoreReached(s, WithObject(s, p, x), p, privileged);
    hide AllReached;
  }

  predicate IsSpecial(kind: Kind) {
    kind.SymbolicLink? || kind.CharDevice? || kind.BlockDevice? || kind.NamedPipe?
  }

  function SpecialObject(kind: Kind): Object
    requires IsSpecial(kind)
  {
    match kind
    case SymbolicLink(target) => Symlink(target)
    case CharDevice(major, minor) => Device(false, major, minor, SCRATCH_FILE)
    case BlockDevice(major, minor) => Device(true, major, minor, SCRATCH_FILE)
    case NamedPipe => Fifo(SCRATCH_FILE)
  }

  lemma ObjectAdds(t: Tree, s: State, p: Path, x: Object, kind: Kind, privileged: bool)
    requires Fits(t, s) && AllReached(s, privileged) && IsNext(t, s, p) && !x.Regular? && !kind.RegularFile?
    requires t.nodes[p].Leaf? && t.nodes[p].inode in t.objects && t.objects[t.nodes[p].inode] == x
    ensures var writable := IsWritable(s.tree, p.dir, privileged);
            Adds(t, s, if Admits(kind, writable, privileged) then Next(WithObject(s, p, x)) else Failed(s),
              p, kind, privileged)
  {
    ObjectFits(t, s, p, x);
    LeafOpens(t, s, p, x, kind, privileged);
    if IsWritable(s.tree, p.dir, privileged) {
      ObjectIsReached(s, p, x, privileged);
    }
    hide Fits;
    hide Opens;
    hide AllReached;
  }

  lemma SpecialIsReplaced(s: State, p: Path, e: Entry, privileged: bool)
    requires IsSpecial(e.kind)
    ensures Make(Into(privileged), s, p, e) == Replace(Into(privileged), s, p, MakeObject(SpecialObject(e.kind)))
  {
    hide Replace;
  }

  /** Symbolic links, pipes and devices. */
  lemma PutsSpecial(t: Tree, s: State, p: Path, kind: Kind, m: Mode, privileged: bool)
    requires Fits(t, s) && AllReached(s, privileged) && IsNext(t, s, p) && IsSpecial(kind)
    requires t.nodes[p].Leaf? && t.nodes[p].inode in t.objects
    requires t.objects[t.nodes[p].inode] == WithMode(SpecialObject(kind), m)
    ensures Adds(t, s, PutEntry(Into(privileged), s, Entry(Split(p, End), kind, m)), p, kind, privileged)
  {
    var x := SpecialObject(kind);
    EntryIsMade(t, s, p, kind, m, privileged);
    SpecialIsReplaced(s, p, Entry(Split(p, End), kind, m), privileged);
    ReplaceCreates(s, p, x, privileged);
    ChmodOfNew(s, p, x, m);
    ObjectAdds(t, s, p, WithMode(x, m), kind, privileged);
    hide PutEntry;
    hide Make;
    hide Replace;
    hide Fits;
    hide AllReached;
    hide Chmod;
    hide Opens;
    hide IsWritable;
    hide WithObject;
  }

  /** A regular file that is new, in a directory that may have to be made writable. */
  lemma CreateFileCreates(t: Tree, s: State, p: Path, content: string, privileged: bool)
    requires AllReached(s, privileged) && IsNext(t, s, p)
    ensures CreateFile(Into(privileged), s, p, content) ==
      Next(WithObject(MadeWritable(s, p.dir, privileged), p, Regular(content, SCRATCH_FILE)))
  {
    WritableMayBeWritten(s, p.dir, privileged);
    assert p == Below(p.dir, p.name);
    WriteableChanges(s, p.dir, privileged);
    MadeWritableIsReached(s, p.dir, privileged);
    WritableMayBeWritten(MadeWritable(s, p.dir, privileged), p.dir, privileged);
    hide AllReached;
    hide CanReach;
    hide MayWrite;
    hide MakeWriteable;
  }

  /** The directory of a new file may be written to. */
  function MadeWritable(s: State, d: Path, privileged: bool): (w: State)
    requires IsDirectory(s.tree, d)
    ensures IsWritable(w.tree, d, privileged) && w.tree.nodes.Keys == s.tree.nodes.Keys
  {
    if IsWritable(s.tree, d, privileged) then s else Writeable(s, d)
  }

  lemma MadeWritableIsReached(s: State, d: Path, privileged: bool)
    requires IsDirectory(s.tree, d) && AllReached(s, privileged)
    ensures AllReached(MadeWritable(s, d, privileged), privileged)
  {
    var s' := MadeWritable(s, d, privileged);
    forall q | q in s'.tree.nodes
      ensures CanReach(s'.tree, q, privileged)
    {
      StaysReached(s.tree, s'.tree, q, privileged);
    }
  }

  lemma WriteableKeepsNext(t: Tree, s: State, p: Path, privileged: bool)
    requires Fits(t, s) && IsNext(t, s, p)
    ensures var w := MadeWritable(s, p.dir, privileged);
            Fits(t, w) && IsNext(t, w, p)
  {
    WriteableFits(t, s, p.dir);
    hide Fits;
  }

  /** The file in place, in a state that only differs in what is writable. */
  lemma FileAdds(t: Tree, s: State, w: State, p: Path, content: string, m: Mode)
    requires Fits(t, w) && IsNext(t, w, p) && w.tree.nodes.Keys == s.tree.nodes.Keys
    requires t.nodes[p].Leaf? && t.nodes[p].inode in t.objects && t.objects[t.nodes[p].inode] == Regular(content, m)
    requires forall q :: q in s.tree.nodes ==> !AreLinks(t, q, p)
    ensures var made := WithObject(w, p, Regular(content, SCRATCH_FILE));
            var s' := made.(tree := Chmod(made.tree, p, m));
            && s' == WithObject(w, p, Regular(content, m))
            && Fits(t, s') && s'.tree.nodes.Keys == s.tree.nodes.Keys + {p}
  {
    ChmodOfNew(w, p, Regular(content, SCRATCH_FILE), m);
    assert forall q :: q in w.tree.nodes ==> q in s.tree.nodes.Keys;
    ObjectFits(t, w, p, Regular(content, m));
    hide Fits;
    hide Chmod;
  }

  lemma FileOpens(t: Tree, s: State, p: Path, x: Object, content: string, privileged: bool)
    requires IsNext(t, s, p)
    ensures Opens(t, s, WithObject(MadeWritable(s, p.dir, privileged), p, x), p, RegularFile(content), privileged)
  {
  }

  lemma PutsFile(t: Tree, s: State, p: Path, content: string, m: Mode, privileged: bool)
    requires Fits(t, s) && AllReached(s, privileged) && IsNext(t, s, p)
    requires t.nodes[p].Leaf? && t.nodes[p].inode in t.objects && t.objects[t.nodes[p].inode] == Regular(content, m)
    requires forall q :: q in s.tree.nodes ==> !AreLinks(t, q, p)
    ensures Adds(t, s, PutEntry(Into(privileged), s, Entry(Split(p, End), RegularFile(content), m)),
      p, RegularFile(content), privileged)
  {
    EntryIsMade(t, s, p, RegularFile(content), m, privileged);
    CreateFileCreates(t, s, p, content, privileged);
    WriteableKeepsNext(t, s, p, privileged);
    MadeWritableIsReached(s, p.dir, privileged);
    hide PutEntry;
    hide CreateFile;
    hide MadeWritable;
    hide Fits;
    hide AllReached;
    hide Chmod;
    hide WithObject;
    hide Opens;
    hide IsWritable;
    var w := MadeWritable(s, p.dir, privileged);
    FileAdds(t, s, w, p, content, m);
    FileOpens(t, s, p, Regular(content, m), content, privileged);
    ObjectIsReached(w, p, Regular(content, m), privileged);
  }

  lemma {:induction false} NoLinksOnTheWay(t: Tree, s: State, d: Path)
    requires AllCopied(t, s) && IsDirectory(s.tree, d)
    ensures LinkFree(SymlinksOf(s.tree), d)
  {
    if d.Below? {
      NoLinksOnTheWay(t, s, d.dir);
    }
  }

  lemma LinkTargetIsFound(t: Tree, s: State, f: Path, privileged: bool)
    requires AllCopied(t, s) && f in s.tree.nodes && f.Below? && IsRegular(t, f)
    ensures LinkTarget(Into(privileged), SymlinksOf(s.tree), Split(f, End)) == Resolved(f)
  {
    var links := SymlinksOf(s.tree);
    assert Copied(t, s, f);
    NoLinksOnTheWay(t, s, f.dir);
    assert LinkFree(links, f);
    SplitHasOnlyNames(f, End);
    GraftOnTop(f);
    LinkFreeResolvesToItself(Lookup(links, NoMatcher, Top, true), f);
  }

  /** The mode of a hard link is that of the file, which has it already. */
  lemma ChmodOfLink(t: Tree, s: State, p: Path, f: Path, m: Mode)
    requires AllCopied(t, s) && f in s.tree.nodes && f.Below?
    requires IsRegular(t, f) && t.objects[t.nodes[f].inode].mode == m
    ensures var t' := s.tree.(nodes := s.tree.nodes[p := s.tree.nodes[f]]);
            Chmod(t', p, m) == t'
  {
    assert Copied(t, s, f);
    var i := s.tree.nodes[f].inode;
    assert s.tree.objects[i := WithMode(s.tree.objects[i], m)] == s.tree.objects;
  }

  function WithLink(s: State, p: Path, f: Path): State
    requires f in s.tree.nodes
  {
    s.(tree := s.tree.(nodes := s.tree.nodes[p := s.tree.nodes[f]]))
  }

  lemma LinkOpens(t: Tree, s: State, p: Path, f: Path, kind: Kind, privileged: bool)
    requires IsNext(t, s, p) && f in s.tree.nodes && s.tree.nodes[f].Leaf? && !kind.RegularFile?
    ensures Opens(t, s, WithLink(s, p, f), p, kind, privileged)
  {
  }

  lemma LinkIsReached(s: State, p: Path, f: Path, privileged: bool)
    requires AllReached(s, privileged) && p.Below? && IsWritable(s.tree, p.dir, privileged) && p !in s.tree.nodes
    requires f in s.tree.nodes
    ensures AllReached(WithLink(s, p, f), privileged)
  {
    OneMoreReached(s, WithLink(s, p, f), p, privileged);
    hide AllReached;
  }

  lemma ReplaceLinks(s: State, p: Path, f: Path, privileged: bool)
    requires p.Below? && p !in s.tree.nodes && IsDirectory(s.tree, p.dir) && AllReached(s, privileged)
    requires f in s.tree.nodes && s.tree.nodes[f].Leaf?
    ensures var step := Replace(Into(privileged), s, p, MakeLink(f));
            && (step.Next? <==> IsWritable(s.tree, p.dir, privileged))
            && (step.Next? ==> step.state == WithLink(s, p, f))
  {
    WritableMayBeWritten(s, p.dir, privileged);
    assert p == Below(p.dir, p.name);
    assert CanReach(s.tree, f, privileged);
    hide AllReached;
    hide CanReach;
    hide MayWrite;
    hide RemoveAll;
  }

  lemma PutsLink(t: Tree, s: State, p: Path, f: Path, m: Mode, privileged: bool)
    requires Fits(t, s) && AllReached(s, privileged)
    requires IsNext(t, s, p) && f in s.tree.nodes && f.Below? && IsRegular(t, f) && AreLinks(t, f, p)
    requires t.objects[t.nodes[f].inode].mode == m
    ensures Adds(t, s, PutEntry(Into(privileged), s, Entry(Split(p, End), HardLink(Split(f, End)), m)),
      p, HardLink(Split(f, End)), privileged)
  {
    var kind := HardLink(Split(f, End));
    assert Copied(t, s, f);
    EntryIsMade(t, s, p, kind, m, privileged);
    hide PutEntry;
    LinkTargetIsFound(t, s, f, privileged);
    ReplaceLinks(s, p, f, privileged);
    LinkFits(t, s, p, f);
    ChmodOfLink(t, s, p, f, m);
    LinkOpens(t, s, p, f, kind, privileged);
    if IsWritable(s.tree, p.dir, privileged) {
      LinkIsReached(s, p, f, privileged);
    }
    hide Replace;
    hide Opens;
    hide Fits;
    hide AllReached;
    hide LinkTarget;
    hide Chmod;
    hide IsWritable;
  }

  // ---------------------------------------------------------------------------------- the whole archive

  function Done(order: seq<Path>, n: nat): set<Path>
    requires n <= |order|
  {
    if n == 0 then {Top} else Done(order, n - 1) + {order[n - 1]}
  }

  lemma {:induction false} DoneAreEarlier(order: seq<Path>, n: nat, p: Path)
    requires n <= |order|
    ensures p in Done(order, n) <==> p == Top || IsEarlier(order, n, p)
  {
    if n > 0 {
      DoneAreEarlier(order, n - 1, p);
      assert IsEarlier(order, n, order[n - 1]);
      if IsEarlier(order, n - 1, p) {
        var k :| 0 <= k < n - 1 && order[k] == p;
        assert IsEarlier(order, n, p);
      }
    }
  }

  /** A tree that can be archived, and a walk of it. */
  ghost predicate CanWalk(src: Source, order: seq<Path>) {
    WellFormed(src.tree) && CountsFit(src) && Walks(src.tree, order) && WalkFits(src, order)
  }

  lemma NextInWalk(src: Source, order: seq<Path>, n: nat, s: State)
    requires CanWalk(src, order) && n < |order| && AllCopied(src.tree, s) && s.tree.nodes.Keys == Done(order, n)
    ensures IsNext(src.tree, s, order[n])
  {
    var p := order[n];
    DoneAreEarlier(order, n, p);
    DoneAreEarlier(order, n, p.dir);
    if p.dir.Below? {
      assert p.dir in order[..n];
      var k :| 0 <= k < n && order[k] == p.dir;
      assert IsEarlier(order, n, p.dir);
      assert Copied(src.tree, s, p.dir);
    }
  }

  /** A regular file that the checker does not know of is the first of its links. */
  lemma FirstOfItsLinks(src: Source, order: seq<Path>, n: nat, p: Path, q: Path)
    requires CanWalk(src, order) && n <= |order| && IsRegular(src.tree, p)
    requires q in Done(order, n) && p !in Done(order, n)
    requires !IsSeen(src, SeenAfter(src, order, n), src.tree.nodes[p].inode)
    ensures !AreLinks(src.tree, q, p)
  {
    CheckerFits(src, order, n);
    DoneAreEarlier(order, n, q);
  }

  lemma KnownIsThere(src: Source, order: seq<Path>, n: nat, i: nat)
    requires CanWalk(src, order) && n <= |order| && i in SeenAfter(src, order, n)
    ensures var f := SeenAfter(src, order, n)[i];
            f in Done(order, n) && f.Below? && IsRegular(src.tree, f) && src.tree.nodes[f] == Leaf(i)
  {
    CheckerFits(src, order, n);
    DoneAreEarlier(order, n, SeenAfter(src, order, n)[i]);
  }

  /** Which entry is made for p, by what p is. */
  lemma EntryForDirectory(src: Source, order: seq<Path>, n: nat, m: Mode)
    requires n < |order| && WalkFits(src, order) && src.tree.nodes[order[n]] == Directory(m)
    ensures EntryAt(src, order, n) == Entry(Split(order[n], End), Dir, m)
  {
    hide SeenAfter;
  }

  lemma EntryForSpecial(src: Source, order: seq<Path>, n: nat)
    requires n < |order| && WalkFits(src, order) && src.tree.nodes[order[n]].Leaf?
    requires !src.tree.objects[src.tree.nodes[order[n]].inode].Regular?
    ensures var e := EntryAt(src, order, n);
            && e.name == Split(order[n], End) && IsSpecial(e.kind)
            && WithMode(SpecialObject(e.kind), e.mode) == src.tree.objects[src.tree.nodes[order[n]].inode]
  {
    hide SeenAfter;
  }

  lemma EntryForFile(src: Source, order: seq<Path>, n: nat, i: nat)
    requires n < |order| && WalkFits(src, order) && src.tree.nodes[order[n]] == Leaf(i) && src.tree.objects[i].Regular?
    ensures var x, seen := src.tree.objects[i], SeenAfter(src, order, n);
            && (IsSeen(src, seen, i) ==>
              EntryAt(src, order, n) == Entry(Split(order[n], End), HardLink(Split(seen[i], End)), x.mode))
            && (!IsSeen(src, seen, i) ==>
              EntryAt(src, order, n) == Entry(Split(order[n], End), RegularFile(x.content), x.mode))
  {
    hide SeenAfter;
  }

  /** A regular file goes into the archive itself, or as a link to the first of its names. */
  lemma FileEntryAdds(src: Source, order: seq<Path>, n: nat, s: State, i: nat, privileged: bool)
    requires CanWalk(src, order) && n < |order| && Fits(src.tree, s) && AllReached(s, privileged)
    requires s.tree.nodes.Keys == Done(order, n)
    requires IsNext(src.tree, s, order[n]) && src.tree.nodes[order[n]] == Leaf(i) && IsRegular(src.tree, order[n])
    ensures Adds(src.tree, s, PutEntry(Into(privileged), s, EntryAt(src, order, n)),
      order[n], EntryAt(src, order, n).kind, privileged)
  {
    hide Adds;
    hide PutEntry;
    hide Fits;
    hide AllReached;
    var t, p, seen := src.tree, order[n], SeenAfter(src, order, n);
    var x := t.objects[i];
    EntryForFile(src, order, n, i);
    if IsSeen(src, seen, i) {
      KnownIsThere(src, order, n, i);
      hide *;
      PutsLink(t, s, p, seen[i], x.mode, privileged);
    } else {
      forall q | q in s.tree.nodes
        ensures !AreLinks(t, q, p)
      {
        FirstOfItsLinks(src, order, n, p, q);
      }
      hide *;
      PutsFile(t, s, p, x.content, x.mode, privileged);
    }
  }

  lemma EntryAdds(src: Source, order: seq<Path>, n: nat, s: State, privileged: bool)
    requires CanWalk(src, order) && n < |order| && Fits(src.tree, s) && AllReached(s, privileged)
    requires s.tree.nodes.Keys == Done(order, n)
    ensures Adds(src.tree, s, PutEntry(Into(privileged), s, EntryAt(src, order, n)),
      order[n], EntryAt(src, order, n).kind, privileged)
  {
    NextInWalk(src, order, n, s);
    var t, p := src.tree, order[n];
    assert t.nodes[p].Leaf? ==> t.nodes[p].inode in t.objects;
    assert WalkFits(src, order) && p in t.nodes;
    if t.nodes[p].Directory? {
      hide *;
      EntryForDirectory(src, order, n, t.nodes[p].mode);
      PutsDirectory(t, s, p, t.nodes[p].mode, privileged);
    } else if t.objects[t.nodes[p].inode].Regular? {
      assert IsRegular(t, p);
      hide *;
      FileEntryAdds(src, order, n, s, t.nodes[p].inode, privileged);
    } else {
      EntryForSpecial(src, order, n);
      var e := EntryAt(src, order, n);
      assert e == Entry(e.name, e.kind, e.mode) && !e.kind.RegularFile?;
      hide *;
      PutsSpecial(t, s, p, e.kind, e.mode, privileged);
    }
  }

  lemma NothingFits(t: Tree, m: Mode)
    requires WellFormed(t)
    ensures Fits(t, State(EmptyDirectory(m), map[], {}))
  {
  }

  /** A regular file, not a link to one, that goes into d comes before the n-th entry. */
  ghost predicate HasFileBefore(src: Source, order: seq<Path>, n: nat, d: Path)
    requires n <= |order| && WalkFits(src, order)
  {
    exists k :: 0 <= k < n && Parent(order[k]) == d && EntryAt(src, order, k).kind.RegularFile?
  }

  /** The mode that a directory is to have, m being that of the top. */
  function WantedMode(src: Source, m: Mode, d: Path): Mode {
    if d.Top? || !IsDirectory(src.tree, d) then m else src.tree.nodes[d].mode
  }

  /** Whether d may be written to when the n-th entry is extracted. */
  ghost predicate IsOpen(src: Source, order: seq<Path>, n: nat, d: Path, m: Mode, privileged: bool)
    requires n <= |order| && WalkFits(src, order)
  {
    privileged || OwnerWrites(WantedMode(src, m, d)) || HasFileBefore(src, order, n, d)
  }

  /** Whether d has been made writable by then. */
  ghost predicate IsOpened(src: Source, order: seq<Path>, n: nat, d: Path, m: Mode, privileged: bool)
    requires n <= |order| && WalkFits(src, order)
  {
    !privileged && !OwnerWrites(WantedMode(src, m, d)) && HasFileBefore(src, order, n, d)
  }

  /** Directories have the modes that they are to have, unless they have been made writable. */
  ghost predicate OpenFits(src: Source, order: seq<Path>, n: nat, s: State, m: Mode, privileged: bool)
    requires n <= |order| && WalkFits(src, order)
  {
    && (forall d :: IsDirectory(s.tree, d) ==>
      s.tree.nodes[d].mode ==
        if IsOpened(src, order, n, d, m, privileged) then SCRATCH_DIRECTORY else WantedMode(src, m, d))
    && (Top in s.modes <==> IsOpened(src, order, n, Top, m, privileged))
    && (Top in s.modes ==> s.modes[Top] == m)
  }

  /** All but regular files go into directories that may be written to, and devices are for the privileged. */
  ghost predicate CanExtract(src: Source, order: seq<Path>, n: nat, m: Mode, privileged: bool)
    requires n <= |order| && WalkFits(src, order)
  {
    forall k :: 0 <= k < n ==>
      Admits(EntryAt(src, order, k).kind, IsOpen(src, order, k, Parent(order[k]), m, privileged), privileged)
  }

  lemma FilesBefore(src: Source, order: seq<Path>, n: nat, d: Path)
    requires n < |order| && WalkFits(src, order)
    ensures HasFileBefore(src, order, n + 1, d) <==>
      HasFileBefore(src, order, n, d) || (Parent(order[n]) == d && EntryAt(src, order, n).kind.RegularFile?)
  {
    hide EntryAt;
    if HasFileBefore(src, order, n, d) {
      var k :| 0 <= k < n && Parent(order[k]) == d && EntryAt(src, order, k).kind.RegularFile?;
      assert 0 <= k < n + 1;
    }
  }

  /** No file has been put into a directory that was not there. */
  lemma NoFileInMissing(src: Source, order: seq<Path>, n: nat, d: Path)
    requires CanWalk(src, order) && n <= |order| && d !in Done(order, n) && d.Below?
    ensures !HasFileBefore(src, order, n, d)
  {
    forall k | 0 <= k < n
      ensures Parent(order[k]) != d
    {
      if order[k].dir == d {
        assert d in order[..k];
        var j :| 0 <= j < k && order[j] == d;
        assert IsEarlier(order, n, d);
        DoneAreEarlier(order, n, d);
      }
    }
  }

  lemma WritableExactlyWhen(src: Source, order: seq<Path>, n: nat, s: State, d: Path, m: Mode, privileged: bool)
    requires n <= |order| && WalkFits(src, order) && OpenFits(src, order, n, s, m, privileged) && IsDirectory(s.tree, d)
    ensures IsWritable(s.tree, d, privileged) <==> IsOpen(src, order, n, d, m, privileged)
  {
    hide HasFileBefore;
    hide WantedMode;
  }

  lemma OpenStep(src: Source, order: seq<Path>, n: nat, s: State, s': State, m: Mode, privileged: bool)
    requires CanWalk(src, order) && n < |order| && OpenFits(src, order, n, s, m, privileged)
    requires s.tree.nodes.Keys == Done(order, n) && order[n] !in s.tree.nodes && IsDirectory(s.tree, Top)
    requires s'.tree.nodes.Keys == s.tree.nodes.Keys + {order[n]} && order[n].Below?
    requires forall p :: IsDirectory(s'.tree, p) && p in s.tree.nodes ==> IsDirectory(s.tree, p)
    requires Opens(src.tree, s, s', order[n], EntryAt(src, order, n).kind, privileged)
    ensures OpenFits(src, order, n + 1, s', m, privileged)
  {
    assert WalkFits(src, order);
    forall d | IsDirectory(s'.tree, d)
      ensures s'.tree.nodes[d].mode ==
        if IsOpened(src, order, n + 1, d, m, privileged) then SCRATCH_DIRECTORY else WantedMode(src, m, d)
    {
      if d == order[n] {
        NewStays(src, order, n, s, s', m, privileged);
      } else {
        DirectoryStays(src, order, n, s, s', d, m, privileged);
      }
    }
    DirectoryStays(src, order, n, s, s', Top, m, privileged);
    hide EntryAt;
    hide IsOpened;
    hide CanWalk;
    hide Opens;
    hide WantedMode;
  }

  /** What becomes of a directory that was there before. */
  lemma DirectoryStays(src: Source, order: seq<Path>, n: nat, s: State, s': State, d: Path, m: Mode, privileged: bool)
    requires n < |order| && WalkFits(src, order) && OpenFits(src, order, n, s, m, privileged) && order[n].Below?
    requires IsDirectory(s.tree, d) && Opens(src.tree, s, s', order[n], EntryAt(src, order, n).kind, privileged)
    ensures d in s'.tree.nodes && s'.tree.nodes[d] ==
      Directory(if IsOpened(src, order, n + 1, d, m, privileged) then SCRATCH_DIRECTORY else WantedMode(src, m, d))
    ensures d.Top? ==>
      && (Top in s'.modes <==> IsOpened(src, order, n + 1, d, m, privileged))
      && (Top in s'.modes ==> s'.modes[Top] == m)
  {
    FilesBefore(src, order, n, d);
    hide EntryAt;
    hide HasFileBefore;
    hide WalkFits;
  }

  /** And of one that is new. */
  lemma NewStays(src: Source, order: seq<Path>, n: nat, s: State, s': State, m: Mode, privileged: bool)
    requires CanWalk(src, order) && n < |order| && s.tree.nodes.Keys == Done(order, n) && order[n] !in s.tree.nodes
    requires order[n].Below? && IsDirectory(s'.tree, order[n])
    requires Opens(src.tree, s, s', order[n], EntryAt(src, order, n).kind, privileged)
    ensures WalkFits(src, order)
    ensures s'.tree.nodes[order[n]].mode ==
      if IsOpened(src, order, n + 1, order[n], m, privileged) then SCRATCH_DIRECTORY else WantedMode(src, m, order[n])
  {
    FilesBefore(src, order, n, order[n]);
    NoFileInMissing(src, order, n, order[n]);
    NotItsOwnParent(order[n]);
    hide EntryAt;
    hide HasFileBefore;
  }

  lemma NotItsOwnParent(d: Path)
    requires d.Below?
    ensures d.dir != d
  {
    WithinIsNotAbove(d, d.dir);
  }

  /** The state after the first n entries, when none of them failed. */
  ghost predicate Extracts(src: Source, order: seq<Path>, n: nat, s: State, m: Mode, privileged: bool)
    requires n <= |order| && WalkFits(src, order)
  {
    && Fits(src.tree, s) && AllReached(s, privileged)
    && s.tree.nodes.Keys == Done(order, n) && OpenFits(src, order, n, s, m, privileged)
  }

  lemma EntryExtracts(src: Source, order: seq<Path>, n: nat, s: State, m: Mode, privileged: bool)
    requires CanWalk(src, order) && n < |order| && Extracts(src, order, n, s, m, privileged)
    ensures var step := PutEntry(Into(privileged), s, EntryAt(src, order, n));
            && (step.Next? <==>
              Admits(EntryAt(src, order, n).kind, IsOpen(src, order, n, Parent(order[n]), m, privileged), privileged))
            && (step.Next? ==> Extracts(src, order, n + 1, step.state, m, privileged))
  {
    NextInWalk(src, order, n, s);
    EntryAdds(src, order, n, s, privileged);
    WritableExactlyWhen(src, order, n, s, order[n].dir, m, privileged);
    var step := PutEntry(Into(privileged), s, EntryAt(src, order, n));
    hide PutEntry;
    hide EntryAt;
    hide Opens;
    hide IsOpen;
    hide IsWritable;
    hide AllReached;
    if step.Next? {
      assert Fits(src.tree, step.state);
      StayDirectories(src.tree, s, step.state);
      OpenStep(src, order, n, s, step.state, m, privileged);
    }
    hide OpenFits;
  }

  /** What was a directory before, or was none, is so after. */
  lemma StayDirectories(t: Tree, s: State, s': State)
    requires AllCopied(t, s) && AllCopied(t, s')
    ensures forall p :: IsDirectory(s'.tree, p) && p in s.tree.nodes ==> IsDirectory(s.tree, p)
  {
    forall p | IsDirectory(s'.tree, p) && p in s.tree.nodes && p.Below?
      ensures IsDirectory(s.tree, p)
    {
      assert Copied(t, s, p) && Copied(t, s', p);
    }
  }

  lemma NoneToExtract(src: Source, order: seq<Path>, m: Mode, privileged: bool)
    requires WalkFits(src, order)
    ensures CanExtract(src, order, 0, m, privileged)
  {
    hide EntryAt;
    hide IsOpen;
  }

  lemma CanExtractOneMore(src: Source, order: seq<Path>, n: nat, m: Mode, privileged: bool)
    requires 0 < n <= |order| && WalkFits(src, order)
    ensures CanExtract(src, order, n, m, privileged) <==>
      && CanExtract(src, order, n - 1, m, privileged)
      && Admits(EntryAt(src, order, n - 1).kind, IsOpen(src, order, n - 1, Parent(order[n - 1]), m, privileged),
                privileged)
  {
    hide EntryAt;
    hide IsOpen;
    hide Admits;
  }

  ghost predicate Archives(src: Source, order: seq<Path>, es: seq<Entry>) {
    CanWalk(src, order) && es == Archive(src, order)
  }

  lemma NextExtracts(src: Source, order: seq<Path>, es: seq<Entry>, n: nat, s: State, m: Mode, privileged: bool)
    requires Archives(src, order, es) && n < |order| == |es| && WalkFits(src, order)
    requires var before := PutEntries(Into(privileged), s, es, n);
             before.Next? ==> Extracts(src, order, n, before.state, m, privileged)
    ensures var before, step := PutEntries(Into(privileged), s, es, n), PutEntries(Into(privileged), s, es, n + 1);
            && (step.Next? <==>
              && before.Next?
              && Admits(EntryAt(src, order, n).kind, IsOpen(src, order, n, Parent(order[n]), m, privileged),
                        privileged))
            && (step.Next? ==> Extracts(src, order, n + 1, step.state, m, privileged))
  {
    assert es[n] == EntryAt(src, order, n);
    NextEntry(Into(privileged), s, es, n + 1);
    var before := PutEntries(Into(privileged), s, es, n);
    if before.Next? {
      EntryExtracts(src, order, n, before.state, m, privileged);
    }
    hide *;
  }

  lemma {:induction false} EntriesExtract(src: Source, order: seq<Path>, es: seq<Entry>, n: nat,
                                  s: State, m: Mode, privileged: bool)
    requires Archives(src, order, es) && n <= |order| == |es| && WalkFits(src, order)
    requires Extracts(src, order, 0, s, m, privileged)
    ensures var step := PutEntries(Into(privileged), s, es, n);
            && (step.Next? <==> CanExtract(src, order, n, m, privileged))
            && (step.Next? ==> Extracts(src, order, n, step.state, m, privileged))
  {
    hide *;
    if n == 0 {
      NoneToExtract(src, order, m, privileged);
      NoEntry(Into(privileged), s, es);
    } else {
      EntriesExtract(src, order, es, n - 1, s, m, privileged);
      CanExtractOneMore(src, order, n, m, privileged);
      NextExtracts(src, order, es, n - 1, s, m, privileged);
    }
  }

  lemma NothingExtracts(src: Source, order: seq<Path>, m: Mode, privileged: bool)
    requires CanWalk(src, order)
    ensures Extracts(src, order, 0, State(EmptyDirectory(m), map[], {}), m, privileged)
  {
    NothingFits(src.tree, m);
  }

  // ------------------------------------------------------------------------------------- setting the modes

  /** All directories above d are to be searchable. */
  predicate WayIsOpen(src: Source, m: Mode, d: Path) {
    d.Top? || (OwnerSearches(WantedMode(src, m, d.dir)) && WayIsOpen(src, m, d.dir))
  }

  /** All directories that have to be made writable are below directories that are to be searchable. */
  ghost predicate CanReset(src: Source, order: seq<Path>, m: Mode, privileged: bool)
    requires WalkFits(src, order)
  {
    forall d :: IsDirectory(src.tree, d) && IsOpened(src, order, |order|, d, m, privileged) ==> WayIsOpen(src, m, d)
  }

  lemma ScratchIsNotWanted(m: Mode)
    requires !OwnerWrites(m)
    ensures m != SCRATCH_DIRECTORY
  {
  }

  /** Everything is there. */
  lemma AllThere(src: Source, order: seq<Path>, p: Path)
    requires CanWalk(src, order)
    ensures p in src.tree.nodes <==> p in Done(order, |order|)
  {
    DoneAreEarlier(order, |order|, p);
    if p in src.tree.nodes && p.Below? {
      var k :| 0 <= k < |order| && order[k] == p;
      assert IsEarlier(order, |order|, p);
    }
  }

  /** The state at the end. */
  ghost predicate HasExtracted(src: Source, order: seq<Path>, s: State, m: Mode, privileged: bool)
    requires WalkFits(src, order)
  {
    CanWalk(src, order) && Extracts(src, order, |order|, s, m, privileged)
  }

  lemma SameDirectories(src: Source, order: seq<Path>, s: State, m: Mode, privileged: bool, d: Path)
    requires WalkFits(src, order) && HasExtracted(src, order, s, m, privileged)
    ensures IsDirectory(s.tree, d) <==> IsDirectory(src.tree, d)
    ensures IsDirectory(s.tree, d) && d.Below? ==> d in s.modes && s.modes[d] == WantedMode(src, m, d)
    ensures d in s.tree.nodes <==> d in src.tree.nodes
    ensures d in s.tree.nodes && d.Below? ==> Copied(src.tree, s, d)
  {
    AllThere(src, order, d);
    hide OpenFits;
    hide AllReached;
    hide LinksFit;
    hide InodesFit;
    hide Walks;
    hide CountsFit;
    hide WalkFits;
    hide Done;
  }

  lemma NotesAreDirectories(src: Source, order: seq<Path>, s: State, m: Mode, privileged: bool)
    requires WalkFits(src, order) && HasExtracted(src, order, s, m, privileged)
    ensures NotesDirectories(s.tree, s.modes) && IsDirectory(s.tree, Top)
  {
  }

  /** The ways that stay open are those that are to be. */
  lemma {:induction false} OpenWays(src: Source, order: seq<Path>, s: State, m: Mode, privileged: bool, d: Path)
    requires WalkFits(src, order) && HasExtracted(src, order, s, m, privileged) && !privileged && d in s.tree.nodes
    ensures WayStaysOpen(s.tree, s.modes, d) <==> WayIsOpen(src, m, d)
    decreases d
  {
    if d.Below? {
      OpenWay(src, order, s, m, d);
      OpenWays(src, order, s, m, privileged, d.dir);
    }
  }

  lemma OpenWay(src: Source, order: seq<Path>, s: State, m: Mode, d: Path)
    requires WalkFits(src, order) && HasExtracted(src, order, s, m, false) && d.Below? && d in s.tree.nodes
    ensures d.dir in s.tree.nodes && IsDirectory(s.tree, d.dir)
    ensures StaysSearchable(s.tree, s.modes, d.dir) <==> OwnerSearches(WantedMode(src, m, d.dir))
  {
    SameDirectories(src, order, s, m, false, d.dir);
    assert CanReach(s.tree, d, false);
    assert IsDirectory(s.tree, d.dir);
    hide Copied;
    hide LinksFit;
    hide InodesFit;
    hide Walks;
    hide CountsFit;
    hide WalkFits;
    hide WellFormed;
    hide HasFileBefore;
    hide Done;
    hide AllCopied;
    hide AllReached;
  }

  /** When the mode of d is sure to be set. */
  lemma SetAnywayExactlyWhen(src: Source, order: seq<Path>, s: State, m: Mode, privileged: bool, d: Path)
    requires WalkFits(src, order) && HasExtracted(src, order, s, m, privileged) && d in s.modes
    ensures IsSetAnyway(s.tree, s.modes, privileged, d) <==>
      (IsOpened(src, order, |order|, d, m, privileged) ==> WayIsOpen(src, m, d))
  {
    NotesAreDirectories(src, order, s, m, privileged);
    SameDirectories(src, order, s, m, privileged, d);
    if !privileged {
      OpenWays(src, order, s, m, privileged, d);
    }
    if !OwnerWrites(WantedMode(src, m, d)) {
      ScratchIsNotWanted(WantedMode(src, m, d));
    }
    hide WayStaysOpen;
    hide WayIsOpen;
    hide Copied;
    hide Fits;
    hide AllReached;
    hide CanWalk;
    hide WalkFits;
    hide HasFileBefore;
    hide Closed;
  }

  lemma ResetExactlyWhen(src: Source, order: seq<Path>, s: State, m: Mode, privileged: bool)
    requires WalkFits(src, order) && HasExtracted(src, order, s, m, privileged)
    ensures CanBeSet(s.tree, s.modes, privileged) <==> CanReset(src, order, m, privileged)
  {
    hide IsSetAnyway;
    hide WayIsOpen;
    hide Extracts;
    NotesAreDirectories(src, order, s, m, privileged);
    forall d
      ensures d in s.modes ==>
        IsDirectory(src.tree, d) && (IsSetAnyway(s.tree, s.modes, privileged, d) <==>
          (IsOpened(src, order, |order|, d, m, privileged) ==> WayIsOpen(src, m, d)))
      ensures IsDirectory(src.tree, d) && IsOpened(src, order, |order|, d, m, privileged) ==> d in s.modes
    {
      SameDirectories(src, order, s, m, privileged, d);
      TopIsNoted(src, order, s, m, privileged);
      if d in s.modes {
        SetAnywayExactlyWhen(src, order, s, m, privileged, d);
      }
    }
    hide IsOpened;
  }

  lemma TopIsNoted(src: Source, order: seq<Path>, s: State, m: Mode, privileged: bool)
    requires WalkFits(src, order) && HasExtracted(src, order, s, m, privileged)
    ensures Top in s.modes <==> IsOpened(src, order, |order|, Top, m, privileged)
  {
    hide IsOpened;
  }

  /** Whatever is set, all but the modes of directories is as it was. */
  lemma SetModesReproduces(src: Source, order: seq<Path>, s: State, m: Mode, privileged: bool, t': Tree)
    requires WalkFits(src, order) && HasExtracted(src, order, s, m, privileged)
    requires ModesAreSet(s.tree, s.modes, privileged, t')
    ensures ReproducesAllButModes(src.tree, t')
    ensures Reproduces(src.tree, t') <==> forall d :: d in s.modes && d.Below? ==> HasBeenSet(t', s.modes, d)
  {
    var t := src.tree;
    NotesAreDirectories(src, order, s, m, privileged);
    OnlyDirectoriesAreSet(s.tree, s.modes, privileged, t');
    LinksAsBefore(src, order, s, m, privileged, t');
    hide ModesAreSet;
    hide NotesDirectories;
    hide LinksFit;
    hide AreLinks;
    hide OpenFits;
    hide AllReached;
    hide CanWalk;
    hide InodesFit;
    forall p
      ensures p in t.nodes <==> p in s.tree.nodes
      ensures IsDirectory(t, p) && p.Below? ==> p in s.modes && s.modes[p] == t.nodes[p].mode
    {
      SameDirectories(src, order, s, m, privileged, p);
    }
    assert t'.nodes.Keys == t.nodes.Keys;
    forall p | p in t.nodes && p.Below?
      ensures if IsDirectory(t, p) then IsDirectory(t', p) else SameThing(t, t', p)
      ensures IsDirectory(t, p) ==> (SameThing(t, t', p) <==> HasBeenSet(t', s.modes, p))
    {
      assert Copied(t, s, p);
    }
  }

  lemma LinksAsBefore(src: Source, order: seq<Path>, s: State, m: Mode, privileged: bool, t': Tree)
    requires WalkFits(src, order) && HasExtracted(src, order, s, m, privileged) && SameShape(s.tree, t')
    ensures forall p, q :: p != q ==> (AreLinks(t', p, q) <==> AreLinks(src.tree, p, q) && IsRegular(src.tree, p))
  {
    assert forall p, q :: AreLinks(t', p, q) <==> AreLinks(s.tree, p, q);
    forall p
      ensures p in src.tree.nodes <==> p in s.tree.nodes
    {
      AllThere(src, order, p);
    }
    hide AllCopied;
    hide OpenFits;
    hide AllReached;
    hide CanWalk;
    hide InodesFit;
  }

  // --------------------------------------------------------------------------------------------- the results

  lemma ArchiveExtracts(src: Source, order: seq<Path>, m: Mode, privileged: bool)
    requires CanWalk(src, order)
    ensures var r, t0, es := Into(privileged), EmptyDirectory(m), Archive(src, order);
            && WellFormed(t0) && Begin(r, t0).Next?
            && (AtEnd(r, t0, es).Next? <==> CanExtract(src, order, |order|, m, privileged))
            && (AtEnd(r, t0, es).Next? ==> HasExtracted(src, order, AtEnd(r, t0, es).state, m, privileged))
  {
    var es, s := Archive(src, order), State(EmptyDirectory(m), map[], {});
    assert Begin(Into(privileged), EmptyDirectory(m)) == Next(s);
    NothingExtracts(src, order, m, privileged);
    assert |es| == |order|;
    EntriesExtract(src, order, es, |order|, s, m, privileged);
    hide PutEntries;
    hide CanExtract;
    hide Extracts;
    hide EntryAt;
  }

  lemma TopIsSet(src: Source, order: seq<Path>, s: State, m: Mode, privileged: bool, t': Tree)
    requires WalkFits(src, order) && HasExtracted(src, order, s, m, privileged)
    requires ModesAreSet(s.tree, s.modes, privileged, t')
    ensures Top in t'.nodes && t'.nodes[Top] == Directory(m)
  {
    NotesAreDirectories(src, order, s, m, privileged);
    hide NotesDirectories;
    if Top in s.modes {
      SetAnywayIsSet(s.tree, s.modes, privileged, t', Top);
    }
    OnlyDirectoriesAreSet(s.tree, s.modes, privileged, t');
    hide ModesAreSet;
    hide Fits;
    hide CanWalk;
    hide HasFileBefore;
    hide AllReached;
  }

  /** The archive of the tree is extracted without failure into an empty directory, and t' is the tree at the end. */
  ghost predicate ComesOut(src: Source, order: seq<Path>, m: Mode, privileged: bool, t': Tree)
    requires WalkFits(src, order)
  {
    Ends(Into(privileged), EmptyDirectory(m), Archive(src, order), t')
  }

  lemma ComesOutOf(src: Source, order: seq<Path>, m: Mode, privileged: bool) returns (s: State)
    requires CanWalk(src, order) && CanExtract(src, order, |order|, m, privileged)
    ensures HasExtracted(src, order, s, m, privileged)
    ensures forall t' :: ComesOut(src, order, m, privileged, t') <==> ModesAreSet(s.tree, s.modes, privileged, t')
  {
    ArchiveExtracts(src, order, m, privileged);
    s := AtEnd(Into(privileged), EmptyDirectory(m), Archive(src, order)).state;
    hide AtEnd;
    hide CanExtract;
    hide HasExtracted;
    hide ModesAreSet;
    hide Begin;
    hide WellFormed;
    hide EntryAt;
  }

  lemma AllButTheTop(t: Tree, modes: map<Path, Mode>)
    requires Top in modes ==> HasBeenSet(t, modes, Top)
    ensures AllSet(t, modes) <==> forall d :: d in modes && d.Below? ==> HasBeenSet(t, modes, d)
  {
    hide HasBeenSet;
    assert forall d: Path :: d.Top? || d.Below?;
  }

  /**
   Whatever the order in which modes are set: an extraction that succeeds reproduces
   everything but modes of directories, and leaves the directory that it is extracted into
   with its mode. It is sure to reproduce the tree exactly when all directories that have
   to be made writable are below directories that are to be searchable.
   */
  lemma ReproducedExactlyWhen(src: Source, order: seq<Path>, m: Mode, privileged: bool)
    requires CanWalk(src, order) && CanExtract(src, order, |order|, m, privileged)
    ensures forall t' :: ComesOut(src, order, m, privileged, t') ==>
      ReproducesAllButModes(src.tree, t') && Top in t'.nodes && t'.nodes[Top] == Directory(m)
    ensures (forall t' :: ComesOut(src, order, m, privileged, t') ==> Reproduces(src.tree, t')) <==>
      CanReset(src, order, m, privileged)
  {
    var s := ComesOutOf(src, order, m, privileged);
    NotesAreDirectories(src, order, s, m, privileged);
    ResetExactlyWhen(src, order, s, m, privileged);
    SetExactlyWhen(s.tree, s.modes, privileged);
    forall t' | ModesAreSet(s.tree, s.modes, privileged, t')
      ensures ReproducesAllButModes(src.tree, t') && Top in t'.nodes && t'.nodes[Top] == Directory(m)
      ensures Reproduces(src.tree, t') <==> AllSet(t', s.modes)
    {
      hide *;
      SetModesReproduces(src, order, s, m, privileged, t');
      TopIsSet(src, order, s, m, privileged, t');
      TopHasBeenSet(src, order, s, m, privileged, t');
      AllButTheTop(t', s.modes);
    }
    hide *;
  }

  /** A directory that was made writable, below one that is not to be searchable, may stay with mode 0700. */
  lemma OpenedMayStay(src: Source, order: seq<Path>, m: Mode, d: Path) returns (t': Tree)
    requires CanWalk(src, order) && CanExtract(src, order, |order|, m, false) && IsDirectory(src.tree, d) && d.Below?
    requires IsOpened(src, order, |order|, d, m, false) && !WayIsOpen(src, m, d)
    ensures ComesOut(src, order, m, false, t') && d in t'.nodes && t'.nodes[d] == Directory(SCRATCH_DIRECTORY)
  {
    var s := ComesOutOf(src, order, m, false);
    NotesAreDirectories(src, order, s, m, false);
    SameDirectories(src, order, s, m, false, d);
    OpenWays(src, order, s, m, false, d);
    assert s.tree.nodes[d].mode == SCRATCH_DIRECTORY;
    hide *;
    t' := MayBeMissed(s.tree, s.modes, d);
  }

  lemma TopHasBeenSet(src: Source, order: seq<Path>, s: State, m: Mode, privileged: bool, t': Tree)
    requires WalkFits(src, order) && HasExtracted(src, order, s, m, privileged)
    requires Top in t'.nodes && t'.nodes[Top] == Directory(m)
    ensures Top in s.modes ==> HasBeenSet(t', s.modes, Top)
  {
    hide Fits;
    hide CanWalk;
    hide AllReached;
    hide IsOpened;
  }

  /**
   Get, then Put into an empty directory. It succeeds exactly when everything but regular
   files goes into directories that may be written to then, and no devices have to be made
   by the unprivileged. It then reproduces the tree: names, types, contents, modes, targets
   of symbolic links, and which files are hard links of each other; but for the modes of
   directories if they can not be set in every order.
   */
  method GetThenPut(src: Source, order: seq<Path>, m: Mode, privileged: bool) returns (t': Tree, ok: bool)
    requires CanWalk(src, order)
    ensures ok <==> CanExtract(src, order, |order|, m, privileged)
    ensures ok ==> ReproducesAllButModes(src.tree, t') && Top in t'.nodes && t'.nodes[Top] == Directory(m)
    ensures ok && CanReset(src, order, m, privileged) ==> Reproduces(src.tree, t')
  {
    var es := Get(src, order);
    t', ok := Put(Into(privileged), EmptyDirectory(m), es);
    ArchiveExtracts(src, order, m, privileged);
    assert ok ==> ComesOut(src, order, m, privileged, t');
    hide *;
    if ok {
      ReproducedExactlyWhen(src, order, m, privileged);
    }
  }

  /** A privileged extractor always succeeds, and reproduces the tree. */
  lemma PrivilegedExtracts(src: Source, order: seq<Path>, m: Mode)
    requires CanWalk(src, order)
    ensures CanExtract(src, order, |order|, m, true) && CanReset(src, order, m, true)
  {
    hide EntryAt;
    hide HasFileBefore;
  }

  /**
   A directory gets its mode at once, not only at the end. So a directory that may not be
   written to, with a directory in it and no file before that, can not be extracted by an
   unprivileged extractor.
   */
  lemma ReadOnlyDirectoryFails(src: Source, order: seq<Path>, m: Mode, k: nat)
    requires CanWalk(src, order) && k < |order| && order[k].dir.Below? && IsDirectory(src.tree, order[k])
    requires !OwnerWrites(src.tree.nodes[order[k].dir].mode) && !HasFileBefore(src, order, k, order[k].dir)
    ensures !CanExtract(src, order, |order|, m, false)
  {
    assert !IsOpen(src, order, k, Parent(order[k]), m, false);
    EntryForDirectory(src, order, k, src.tree.nodes[order[k]].mode);
  }

  /** Nor can a tree with a device in it. */
  lemma DeviceFails(src: Source, order: seq<Path>, m: Mode, p: Path)
    requires CanWalk(src, order) && p in src.tree.nodes && p.Below? && src.tree.nodes[p].Leaf?
    requires src.tree.nodes[p].inode in src.tree.objects && src.tree.objects[src.tree.nodes[p].inode].Device?
    ensures !CanExtract(src, order, |order|, m, false)
  {
    var k :| 0 <= k < |order| && order[k] == p;
    EntryForSpecial(src, order, k);
    assert IsDevice(EntryAt(src, order, k).kind);
    hide EntryAt;
    hide IsOpen;
  }
}
