/**
 What the options of an extraction come to: modes, what may be replaced, and where entries go.
 */
module PutOptions {
  import opened Optional
  import opened Paths
  import opened FileTree
  import opened SymlinkResolution
  import opened CopierPut

  // -------------------------------------------------------------------------------------------- modes

  /** A number that has these digits in octal; the first one is for setuid, setgid and sticky. */
  predicate IsOctal(v: nat, special: nat, owner: nat, group: nat, others: nat) {
    special < 8 && owner < 8 && group < 8 && others < 8 && v == 512 * special + 64 * owner + 8 * group + others
  }

  /** The mode with these digits. */
  predicate HasDigits(m: Mode, special: nat, owner: nat, group: nat, others: nat) {
    && IsOctal(m.perm, 0, owner, group, others)
    && (m.setuid <==> special >= 4) && (m.setgid <==> special % 4 >= 2) && (m.sticky <==> special % 2 == 1)
  }

  /**
   Directories that are made on the way get 0755, or what one of two options says, of which only
   the permissions are heeded.
   */
  lemma DefaultModeIs(o: Options, v: nat, special: nat, owner: nat, group: nat, others: nat)
    requires IsOctal(v, special, owner, group, others)
    ensures o.defaultDirMode.None? && o.chmodDirs.None? ==> HasDigits(DefaultDirMode(o), 0, 7, 5, 5)
    ensures o.defaultDirMode == Some(v) ==> HasDigits(DefaultDirMode(o), 0, owner, group, others)
    ensures o.defaultDirMode.None? && o.chmodDirs == Some(v) ==> HasDigits(DefaultDirMode(o), 0, owner, group, others)
  {
    hide *;
    FromFileModeIs(v, special, owner, group, others);
    DefaultFrom(o);
  }

  lemma DefaultFrom(o: Options)
    ensures o.defaultDirMode.None? && o.chmodDirs.None? ==> HasDigits(DefaultDirMode(o), 0, 7, 5, 5)
    ensures o.defaultDirMode.Some? ==> DefaultDirMode(o) == FromFileMode(o.defaultDirMode.value)
    ensures o.defaultDirMode.None? && o.chmodDirs.Some? ==> DefaultDirMode(o) == FromFileMode(o.chmodDirs.value)
  {
    hide FromFileMode;
  }

  lemma FromFileModeIs(v: nat, special: nat, owner: nat, group: nat, others: nat)
    requires IsOctal(v, special, owner, group, others)
    ensures HasDigits(FromFileMode(v), 0, owner, group, others)
  {
    By512(v, special, 64 * owner + 8 * group + others);
    assert v < 4096;
    assert v / 8388608 == 0 && v / 4194304 == 0 && v / 1048576 == 0;
  }

  lemma FromHeaderIs(v: nat, special: nat, owner: nat, group: nat, others: nat)
    requires IsOctal(v, special, owner, group, others)
    ensures HasDigits(FromHeader(v), special, owner, group, others)
  {
    var low := 64 * owner + 8 * group + others;
    By512(v, special, low);
    By1024(v, special / 2, 512 * (special % 2) + low);
    By2048(v, special / 4, 512 * (special % 4) + low);
  }

  lemma By512(v: nat, q: nat, rest: nat)
    requires rest < 512 && v == 512 * q + rest
    ensures v / 512 == q && v % 512 == rest
  {
  }

  lemma By1024(v: nat, q: nat, rest: nat)
    requires rest < 1024 && v == 1024 * q + rest
    ensures v / 1024 == q
  {
  }

  lemma By2048(v: nat, q: nat, rest: nat)
    requires rest < 2048 && v == 2048 * q + rest
    ensures v / 2048 == q
  {
  }

  /** An option for directories is for their entries only, and one for files is for all others. */
  lemma HeaderModeIs(o: Options, e: Entry, v: nat, special: nat, owner: nat, group: nat, others: nat)
    requires IsOctal(v, special, owner, group, others)
    ensures e.kind.Dir? && o.chmodDirs == Some(v) ==> HasDigits(HeaderMode(o, e), special, owner, group, others)
    ensures !e.kind.Dir? && o.chmodFiles == Some(v) ==> HasDigits(HeaderMode(o, e), special, owner, group, others)
    ensures (if e.kind.Dir? then o.chmodDirs.None? else o.chmodFiles.None?) ==>
      var m := HeaderMode(o, e);
      && m.perm == e.mode.perm
      && (m.setuid <==> e.mode.setuid && !o.stripSetuid) && (m.setgid <==> e.mode.setgid && !o.stripSetgid)
      && (m.sticky <==> e.mode.sticky && !o.stripSticky)
  {
    FromHeaderIs(v, special, owner, group, others);
    hide FromHeader;
    hide HasDigits;
  }

  /** With 01777 for directories, a listed one is sticky, and one that is made on the way is not. */
  lemma StickyIsLostOnTheWay(o: Options, e: Entry)
    requires o.chmodDirs == Some(1023) && o.defaultDirMode.None? && e.kind.Dir?
    ensures HasDigits(HeaderMode(o, e), 1, 7, 7, 7) && HasDigits(DefaultDirMode(o), 0, 7, 7, 7)
  {
    HeaderModeIs(o, e, 1023, 1, 7, 7, 7);
    DefaultModeIs(o, 1023, 1, 7, 7, 7);
  }

  // --------------------------------------------------------------------------------- what may be replaced

  predicate IsNew(kind: Kind) {
    kind.RegularFile? || kind.SymbolicLink? || kind.CharDevice? || kind.BlockDevice? || kind.NamedPipe?
  }

  lemma PrivilegedRemoves(t: Tree, p: Path)
    requires Closed(t) && p in t.nodes && p.Below?
    ensures var a := RemoveAll(t, p, true); a.Done? && p !in a.tree.nodes && IsDirectory(a.tree, p.dir)
  {
    DirOfRootIsOutside(p);
  }

  lemma PrivilegedMakes(t: Tree, p: Path, x: Object)
    requires p.Below? && IsDirectory(t, p.dir) && p !in t.nodes
    ensures Attempt(t, p, MakeObject(x), true).Done?
  {
  }

  lemma ReplaceExactlyWhen(r: Request, s: State, p: Path, x: Object)
    requires r.privileged && Closed(s.tree) && p in s.tree.nodes && p.Below?
    ensures Replace(r, s, p, MakeObject(x)).Next? <==> !(r.options.noOverwriteDirNonDir && IsDirectory(s.tree, p))
  {
    PrivilegedRemoves(s.tree, p);
    PrivilegedMakes(RemoveAll(s.tree, p, true).tree, p, x);
    hide RemoveAll;
    hide Closed;
  }

  lemma CreateExactlyWhen(r: Request, s: State, p: Path, content: string)
    requires r.privileged && Closed(s.tree) && p in s.tree.nodes && p.Below?
    ensures CreateFile(r, s, p, content).Next? <==> !(r.options.noOverwriteDirNonDir && IsDirectory(s.tree, p))
  {
    PrivilegedRemoves(s.tree, p);
    PrivilegedMakes(RemoveAll(s.tree, p, true).tree, p, Regular(content, SCRATCH_FILE));
    hide RemoveAll;
    hide Closed;
  }

  /**
   Of a privileged extractor: something other than a directory takes the place of whatever is
   there, unless that is a directory and the options forbid it.
   */
  lemma ReplacedExactlyWhen(r: Request, s: State, p: Path, e: Entry)
    requires r.privileged && Closed(s.tree) && p in s.tree.nodes && p.Below? && IsNew(e.kind)
    ensures Make(r, s, p, e).Next? <==> !(r.options.noOverwriteDirNonDir && IsDirectory(s.tree, p))
  {
    hide Replace;
    hide CreateFile;
    hide Closed;
    match e.kind
    case RegularFile(content) => CreateExactlyWhen(r, s, p, content);
    case SymbolicLink(target) => ReplaceExactlyWhen(r, s, p, Symlink(target));
    case CharDevice(major, minor) => ReplaceExactlyWhen(r, s, p, Device(false, major, minor, SCRATCH_FILE));
    case BlockDevice(major, minor) => ReplaceExactlyWhen(r, s, p, Device(true, major, minor, SCRATCH_FILE));
    case NamedPipe => ReplaceExactlyWhen(r, s, p, Fifo(SCRATCH_FILE));
  }

  /** A directory goes where there is one or nothing, and in place of something else unless the options forbid it. */
  lemma DirectoryPutExactlyWhen(r: Request, s: State, p: Path, m: Mode)
    requires r.privileged && p.Below? && IsDirectory(s.tree, p.dir)
    ensures PutDirectory(r, s, p, m).Next? <==>
      p !in s.tree.nodes || IsDirectory(s.tree, p) || !r.options.noOverwriteNonDirDir
  {
  }

  // -------------------------------------------------------------------------------------- where entries go

  /** Whatever its name is, an entry goes below the target: its name can not climb above it. */
  lemma EntryStaysBelow(r: Request, e: Entry)
    ensures Within(PathOf(r, e), r.target)
    ensures e.name.Seg? && (e.name.first.DotDot? || IsNoise(e.name.first)) ==>
      PathOf(r, e) == PathOf(r, e.(name := e.name.rest))
  {
    GraftIsWithin(r.target, Join(Top, e.name));
  }

  /** A name without dots is taken from the target on. */
  lemma EntryGoesTo(r: Request, e: Entry)
    requires OnlyNames(e.name)
    ensures PathOf(r, e) == Join(r.target, e.name)
  {
    JoinGrafts(r.target, Top, e.name);
  }
}
