/**
 Extracting an archive below a directory. Directories are kept accessible while things
 are put into them; the modes that they are to have are noted, and set at the end.
 */
module CopierPut {
  import opened Optional
  import opened Paths
  import opened FileTree
  import opened SymlinkResolution

  datatype Kind =
    | RegularFile(content: string)
    | HardLink(linkname: Raw)
    | SymbolicLink(target: Raw)
    | CharDevice(major: nat, minor: nat)
    | BlockDevice(major: nat, minor: nat)
    | Dir
    | NamedPipe
    | GlobalHeader
    | Unrecognized

  /** A header with what follows it. The name is split at the slashes; End is the empty name. */
  datatype Entry = Entry(name: Raw, kind: Kind, mode: Mode)

  /** Modes in options are numbers; headers and os.FileMode have different bits for setuid, setgid and sticky. */
  datatype Options = Options(
    chmodDirs: Option<nat>,
    chmodFiles: Option<nat>,
    defaultDirMode: Option<nat>,
    stripSetuid: bool,
    stripSetgid: bool,
    stripSticky: bool,
    ignoreDevices: bool,
    noOverwriteDirNonDir: bool,
    noOverwriteNonDirDir: bool
  )

  const PLAIN: Options := Options(None, None, None, false, false, false, false, false, false)

  /** Who extracts, where to, and how. */
  datatype Request = Request(target: Path, options: Options, privileged: bool)

  /** os.Chmod of an os.FileMode: 1<<23 is for setuid, 1<<22 for setgid, 1<<20 for sticky. */
  function FromFileMode(m: nat): Mode {
    Mode(m % 512, (m / 8388608) % 2 == 1, (m / 4194304) % 2 == 1, (m / 1048576) % 2 == 1)
  }

  /** The mode of a header: 04000 is for setuid, 02000 for setgid, 01000 for sticky. */
  function FromHeader(m: nat): Mode {
    Mode(m % 512, (m / 2048) % 2 == 1, (m / 1024) % 2 == 1, (m / 512) % 2 == 1)
  }

  /** 0755, unless the options say otherwise. */
  function DefaultDirMode(o: Options): Mode {
    if o.defaultDirMode.Some? then FromFileMode(o.defaultDirMode.value)
    else if o.chmodDirs.Some? then FromFileMode(o.chmodDirs.value)
    else Mode(493, false, false, false)
  }

  /** The mode that an entry is to get. */
  function HeaderMode(o: Options, e: Entry): Mode {
    if e.kind.Dir? && o.chmodDirs.Some? then FromHeader(o.chmodDirs.value)
    else if !e.kind.Dir? && o.chmodFiles.Some? then FromHeader(o.chmodFiles.value)
    else Mode(e.mode.perm, e.mode.setuid && !o.stripSetuid, e.mode.setgid && !o.stripSetgid,
              e.mode.sticky && !o.stripSticky)
  }

  /** Where an entry goes: its name is cleaned as if it were absolute, so it cannot lead out of the target. */
  function PathOf(r: Request, e: Entry): Path {
    Graft(r.target, Join(Top, e.name))
  }

  datatype State = State(tree: Tree, modes: map<Path, Mode>, ignored: set<Raw>)

  datatype Step = Next(state: State) | Failed(state: State)

  // --------------------------------------------------------------------------------------- directories

  /** ensureDirectoryUnderRoot, from the root down. */
  function EnsureDirectory(r: Request, s: State, p: Path): Step {
    if p.Top? then Next(s)
    else
      var above := EnsureDirectory(r, s, p.dir);
      if above.Failed? then above
      else MakeDirectory(r, above.state, p)
  }

  /** One turn of its loop. What exists is left as it is. */
  function MakeDirectory(r: Request, s: State, p: Path): Step {
    match Mkdir(s.tree, p, r.privileged)
    case Done(t) =>
      Next(State(t, if p in s.modes then s.modes else s.modes[p := DefaultDirMode(r.options)], s.ignored))
    case Exists => Next(s)
    case Denied => Failed(s)
    case Missing => Failed(s)
  }

  /** makeDirectoryWriteable, for the directory of something: its mode is noted if none was. */
  function MakeWriteable(r: Request, s: State, d: Path): Step {
    if !IsDirectory(s.tree, d) || !CanReach(s.tree, d, r.privileged) then Failed(s)
    else Next(s.(tree := Chmod(s.tree, d, SCRATCH_DIRECTORY),
                 modes := if d in s.modes then s.modes else s.modes[d := s.tree.nodes[d].mode]))
  }

  /**
   What happens for a directory's entry, other than ensuring that its parent is there. Until
   the directory is made, only its permissions are noted, and not the other bits of its mode.
   */
  function PutDirectory(r: Request, s: State, p: Path, m: Mode): Step {
    var noted := s.(modes := s.modes[p := m]);
    var halfway := s.(modes := s.modes[p := Mode(m.perm, false, false, false)]);
    match Mkdir(s.tree, p, r.privileged)
    case Done(t) => Next(noted.(tree := Chmod(t, p, m)))
    case Denied => Failed(halfway)
    case Missing => Failed(halfway)
    case Exists =>
      if IsDirectory(s.tree, p) then Next(noted.(tree := Chmod(s.tree, p, m)))
      else if r.options.noOverwriteNonDirDir then Failed(s)
      else
        match Unlink(s.tree, p, r.privileged)
        case Done(t) =>
          (match Mkdir(t, p, r.privileged)
           case Done(t') => Next(noted.(tree := Chmod(t', p, m)))
           case _ => Failed(halfway.(tree := t)))
        case _ => Failed(halfway)
  }

  // ----------------------------------------------------------------------------------- other entries

  datatype Maker = MakeObject(x: Object) | MakeLink(from: Path)

  function Attempt(t: Tree, p: Path, maker: Maker, privileged: bool): Answer {
    match maker
    case MakeObject(x) => Create(t, p, x, privileged)
    case MakeLink(from) => LinkTo(t, from, p, privileged)
  }

  /** Links, devices and pipes: what is in the way is removed, and it is tried once more. */
  function Replace(r: Request, s: State, p: Path, maker: Maker): Step {
    match Attempt(s.tree, p, maker, r.privileged)
    case Done(t) => Next(s.(tree := t))
    case Denied => Failed(s)
    case Missing => Failed(s)
    case Exists =>
      if r.options.noOverwriteDirNonDir && IsDirectory(s.tree, p) then Failed(s)
      else
        match RemoveAll(s.tree, p, r.privileged)
        case Done(t) =>
          (match Attempt(t, p, maker, r.privileged)
           case Done(t') => Next(s.(tree := t'))
           case _ => Failed(s.(tree := t)))
        case _ => Failed(s)
  }

  /** createFile, once nothing is in the way: the directory is made writable if it has to be. */
  function CreateNew(r: Request, s: State, p: Path, content: string): Step {
    match Create(s.tree, p, Regular(content, SCRATCH_FILE), r.privileged)
    case Done(t) => Next(s.(tree := t))
    case Exists => Failed(s)
    case Missing => Failed(s)
    case Denied =>
      var w := MakeWriteable(r, s, Parent(p));
      if w.Failed? then w
      else
        match Create(w.state.tree, p, Regular(content, SCRATCH_FILE), r.privileged)
        case Done(t) => Next(w.state.(tree := t))
        case _ => Failed(w.state)
  }

  /** createFile: removing what is in the way. */
  function ClearWay(r: Request, s: State, p: Path): Step {
    match RemoveAll(s.tree, p, r.privileged)
    case Done(t) => Next(s.(tree := t))
    case _ =>
      var w := MakeWriteable(r, s, Parent(p));
      if w.Failed? then w
      else
        match RemoveAll(w.state.tree, p, r.privileged)
        case Done(t) => Next(w.state.(tree := t))
        case _ => Failed(w.state)
  }

  function CreateFile(r: Request, s: State, p: Path, content: string): Step {
    if p !in s.tree.nodes then CreateNew(r, s, p, content)
    else if r.options.noOverwriteDirNonDir && IsDirectory(s.tree, p) then Failed(s)
    else
      var cleared := ClearWay(r, s, p);
      if cleared.Failed? then cleared else CreateNew(r, cleared.state, p, content)
  }

  /** Where a hard link is to lead, as the code resolves it. */
  function LinkTarget(r: Request, links: Links, linkname: Raw): Resolution {
    ResolveSpec(Lookup(links, NoMatcher, r.target, true), Join(Top, linkname))
  }

  function PutHardLink(r: Request, s: State, p: Path, linkname: Raw): Step {
    match LinkTarget(r, SymlinksOf(s.tree), linkname)
    case TooManyLinks => Failed(s)
    case Resolved(from) => Replace(r, s, p, MakeLink(from))
  }

  predicate IsIgnored(r: Request, s: State, e: Entry) {
    || e.name.End?
    || (e.kind.HardLink? && e.kind.linkname in s.ignored)
    || ((e.kind.CharDevice? || e.kind.BlockDevice?) && r.options.ignoreDevices)
  }

  /** Make what the entry is for. Its mode is set afterwards. */
  function Make(r: Request, s: State, p: Path, e: Entry): Step {
    match e.kind
    case RegularFile(content) => CreateFile(r, s, p, content)
    case HardLink(linkname) => PutHardLink(r, s, p, linkname)
    case SymbolicLink(target) => Replace(r, s, p, MakeObject(Symlink(target)))
    case CharDevice(major, minor) => Replace(r, s, p, MakeObject(Device(false, major, minor, SCRATCH_FILE)))
    case BlockDevice(major, minor) => Replace(r, s, p, MakeObject(Device(true, major, minor, SCRATCH_FILE)))
    case Dir => PutDirectory(r, s, p, HeaderMode(r.options, e))
    case NamedPipe => Replace(r, s, p, MakeObject(Fifo(SCRATCH_FILE)))
    case GlobalHeader => Next(s)
    case Unrecognized => Failed(s)
  }

  /** One turn of the loop over the archive. */
  function PutEntry(r: Request, s: State, e: Entry): Step {
    if e.name.End? then Next(s.(ignored := s.ignored + {e.name}))
    else
      var p := PathOf(r, e);
      var parent := EnsureDirectory(r, s, Parent(p));
      if parent.Failed? then parent
      else if IsIgnored(r, s, e) then Next(parent.state.(ignored := s.ignored + {e.name}))
      else
        var made := Make(r, parent.state, p, e);
        if made.Failed? || e.kind.SymbolicLink? || e.kind.Dir? || e.kind.GlobalHeader? then made
        else Next(made.state.(tree := Chmod(made.state.tree, p, HeaderMode(r.options, e))))
  }

  /** The first n entries. */
  function PutEntries(r: Request, s: State, es: seq<Entry>, n: nat): Step
    requires n <= |es|
  {
    if n == 0 then Next(s)
    else
      var before := PutEntries(r, s, es, n - 1);
      if before.Failed? then before else PutEntry(r, before.state, es[n - 1])
  }

  /** What is done before the first entry: the target has to be a directory, and is made if it is missing. */
  function Begin(r: Request, t: Tree): Step {
    var s := State(t, map[], {});
    if r.target in t.nodes then if IsDirectory(t, r.target) then Next(s) else Failed(s)
    else EnsureDirectory(r, s, r.target)
  }

  // -------------------------------------------------------------------------------------- as it is run

  lemma {:induction false} FailureStays(r: Request, s: State, p: Path, q: Path)
    requires Within(p, q) && EnsureDirectory(r, s, q).Failed?
    ensures EnsureDirectory(r, s, p) == EnsureDirectory(r, s, q)
  {
    if p != q {
      FailureStays(r, s, p.dir, q);
    }
  }

  /** The loop of ensureDirectoryUnderRoot, which stops at the first directory that it can not make. */
  method EnsureDirectoryUnderRoot(r: Request, s: State, directory: Path) returns (step: Step)
    ensures step == EnsureDirectory(r, s, directory)
  {
    SplitHasOnlyNames(directory, End);
    var components, subdir := Split(directory, End), Top;
    step := Next(s);
    while components.Seg?
      invariant OnlyNames(components) && Join(subdir, components) == directory
      invariant step.Next? && step == EnsureDirectory(r, s, subdir)
      decreases components
    {
      JoinIsWithin(Push(subdir, components.first), components.rest);
      subdir := Push(subdir, components.first);
      components := components.rest;
      step := MakeDirectory(r, step.state, subdir);
      if step.Failed? {
        FailureStays(r, s, directory, subdir);
        return;
      }
    }
  }

  /** The noted modes are set in that order, whether or not it succeeds. */
  function SetInOrder(t: Tree, modes: map<Path, Mode>, order: seq<Path>, privileged: bool): Tree
    requires forall p :: p in order ==> p in modes
  {
    if order == [] then t
    else
      var p := order[|order| - 1];
      TryChmod(SetInOrder(t, modes, order[..|order| - 1], privileged), p, modes[p], privileged)
  }

  /** Each of the paths, once. */
  ghost predicate IsOrder(order: seq<Path>, paths: set<Path>) {
    && (forall p :: p in order <==> p in paths)
    && (forall j, k :: 0 <= j < k < |order| ==> order[j] != order[k])
  }

  /** What setting the noted modes, in some order, makes of a tree. */
  ghost predicate ModesAreSet(t: Tree, modes: map<Path, Mode>, privileged: bool, t': Tree) {
    exists order :: IsOrder(order, modes.Keys) && t' == SetInOrder(t, modes, order, privileged)
  }

  lemma OneMoreInOrder(order: seq<Path>, done: set<Path>, p: Path)
    requires IsOrder(order, done) && p !in done
    ensures IsOrder(order + [p], done + {p})
  {
  }

  /** Setting the noted modes, in any order. */
  method SetModes(t: Tree, modes: map<Path, Mode>, privileged: bool) returns (t': Tree)
    ensures ModesAreSet(t, modes, privileged, t')
  {
    t' := t;
    var rest := modes.Keys;
    ghost var order: seq<Path> := [];
    while rest != {}
      invariant rest <= modes.Keys && IsOrder(order, modes.Keys - rest)
      invariant t' == SetInOrder(t, modes, order, privileged)
      decreases |rest|
    {
      var d :| d in rest;
      OneMoreInOrder(order, modes.Keys - rest, d);
      assert modes.Keys - (rest - {d}) == modes.Keys - rest + {d};
      assert (order + [d])[..|order|] == order;
      t' := TryChmod(t', d, modes[d], privileged);
      order := order + [d];
      rest := rest - {d};
    }
    assert modes.Keys - rest == modes.Keys;
  }

  /** copierHandlerPut: all entries, up to one that fails, and the modes in any case. */
  method Put(r: Request, t: Tree, es: seq<Entry>) returns (t': Tree, ok: bool)
    ensures var begun := Begin(r, t);
            begun.Failed? ==> !ok && t' == begun.state.tree
    ensures var begun := Begin(r, t);
            begun.Next? ==>
              var step := PutEntries(r, begun.state, es, |es|);
              ok == step.Next? && ModesAreSet(step.state.tree, step.state.modes, r.privileged, t')
  {
    hide PutEntry;
    hide EnsureDirectory;
    var s := State(t, map[], {});
    if r.target in t.nodes {
      if !IsDirectory(t, r.target) {
        return t, false;
      }
    } else {
      var made := EnsureDirectoryUnderRoot(r, s, r.target);
      if made.Failed? {
        return made.state.tree, false;
      }
      s := made.state;
    }
    ghost var begun := s;
    ok := true;
    var n := 0;
    while n < |es|
      invariant 0 <= n <= |es| && ok && PutEntries(r, begun, es, n) == Next(s)
    {
      var step := PutEntry(r, s, es[n]);
      s := step.state;
      n := n + 1;
      if step.Failed? {
        ok := false;
        FailureEnds(r, begun, es, n, |es|);
        break;
      }
    }
    t' := SetModes(s.tree, s.modes, r.privileged);
  }

  lemma NoEntry(r: Request, s: State, es: seq<Entry>)
    ensures PutEntries(r, s, es, 0) == Next(s)
  {
    hide PutEntry;
  }

  lemma NextEntry(r: Request, s: State, es: seq<Entry>, n: nat)
    requires 0 < n <= |es|
    ensures var before := PutEntries(r, s, es, n - 1);
            PutEntries(r, s, es, n) == if before.Failed? then before else PutEntry(r, before.state, es[n - 1])
  {
    hide PutEntry;
  }

  lemma {:induction false} FailureEnds(r: Request, s: State, es: seq<Entry>, n: nat, m: nat)
    requires n <= m <= |es| && PutEntries(r, s, es, n).Failed?
    ensures PutEntries(r, s, es, m) == PutEntries(r, s, es, n)
    decreases m
  {
    hide *;
    if n < m {
      FailureEnds(r, s, es, n, m - 1);
      NextEntry(r, s, es, m);
    }
  }
}
