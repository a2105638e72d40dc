/**
 A filesystem below a root directory, as far as the copier reads and changes it: names,
 what they stand for, and permissions. Names that are hard links of each other share an
 inode.
 */
module FileTree {
  import opened Optional
  import opened Paths
  import opened SymlinkResolution

  datatype Mode = Mode(perm: nat, setuid: bool, setgid: bool, sticky: bool)

  /** 0700, which new directories get for the time being, and 0600 for new files. */
  const SCRATCH_DIRECTORY: Mode := Mode(448, false, false, false)
  const SCRATCH_FILE: Mode := Mode(384, false, false, false)

  /** The owner may search: 0100. */
  predicate OwnerSearches(m: Mode) {
    (m.perm / 64) % 2 == 1
  }

  /** The owner may write and search: 0300. */
  predicate OwnerWrites(m: Mode) {
    (m.perm / 64) % 4 == 3
  }

  /** The owner may read, write and search: 0700. */
  predicate OwnerEmpties(m: Mode) {
    (m.perm / 64) % 8 == 7
  }

  datatype Object =
    | Regular(content: string, mode: Mode)
    | Symlink(target: Raw)
    | Fifo(mode: Mode)
    | Device(block: bool, major: nat, minor: nat, mode: Mode)

  datatype Node = Directory(mode: Mode) | Leaf(inode: nat)

  /** Inodes from next on have not been used. */
  datatype Tree = Tree(nodes: map<Path, Node>, objects: map<nat, Object>, next: nat)

  predicate IsDirectory(t: Tree, p: Path) {
    p in t.nodes && t.nodes[p].Directory?
  }

  /** The names in use stand for objects, and new ones get new inodes. */
  ghost predicate Sound(t: Tree) {
    && (forall p :: p in t.nodes && t.nodes[p].Leaf? ==> t.nodes[p].inode in t.objects)
    && (forall i :: i in t.objects ==> i < t.next)
  }

  /** Everything is in a directory, up to the top. */
  ghost predicate Closed(t: Tree) {
    IsDirectory(t, Top) && forall p :: p in t.nodes && p.Below? ==> IsDirectory(t, p.dir)
  }

  ghost predicate WellFormed(t: Tree) {
    Closed(t) && Sound(t)
  }

  /** The same but for its mode. */
  predicate SameButMode(x: Object, y: Object) {
    match x
    case Regular(content, _) => y.Regular? && y.content == content
    case Symlink(_) => y == x
    case Fifo(_) => y.Fifo?
    case Device(block, major, minor, _) => y.Device? && y.block == block && y.major == major && y.minor == minor
  }

  /** A directory stays one; anything else stays what it is. */
  predicate SameNode(m: Node, n: Node) {
    if m.Directory? then n.Directory? else n == m
  }

  /** What readlink returns. */
  function SymlinksOf(t: Tree): Links {
    map p | p in t.nodes && t.nodes[p].Leaf? && t.nodes[p].inode in t.objects && t.objects[t.nodes[p].inode].Symlink? ::
      t.objects[t.nodes[p].inode].target
  }

  // ------------------------------------------------------------------------------------- looking up

  /** The kernel gives up after that many symbolic links. */
  const MAX_SYMLINKS: nat := 40

  /** What matters when a path is looked up: the directories that may be searched, the links, and all names. */
  datatype Outline = Outline(passable: set<Path>, links: Links, names: set<Path>)

  function OutlineOf(t: Tree, privileged: bool): Outline {
    var passable := set d | d in t.nodes && t.nodes[d].Directory? && (privileged || OwnerSearches(t.nodes[d].mode));
    Outline(passable, SymlinksOf(t), t.nodes.Keys)
  }

  /** Looking up a path component by component, following all symbolic links. */
  function Locate(o: Outline, cwd: Path, cs: Raw, budget: nat): Option<Path>
    decreases budget, cs
  {
    if cs.End? then if cwd in o.names && cwd !in o.links then Some(cwd) else None
    else if cwd !in o.passable then None
    else
      var next := Push(cwd, cs.first);
      if cs.first.Name? && next in o.links then
        if budget == 0 then None
        else Locate(o, if IsAbsolute(o.links[next]) then Top else cwd, Append(o.links[next], cs.rest), budget - 1)
      else Locate(o, next, cs.rest, budget)
  }

  function Find(o: Outline, p: Path): Option<Path> {
    Locate(o, Top, Split(p, End), MAX_SYMLINKS)
  }

  // --------------------------------------------------------------------------------- system calls

  datatype Answer = Done(tree: Tree) | Exists | Denied | Missing

  /** The directories on the way to p are there and may be searched. To the privileged, modes do not matter. */
  predicate CanReach(t: Tree, p: Path, privileged: bool) {
    || privileged
    || p.Top?
    || (IsDirectory(t, p.dir) && OwnerSearches(t.nodes[p.dir].mode) && CanReach(t, p.dir, privileged))
  }

  predicate MayWrite(t: Tree, dir: Path, privileged: bool) {
    IsDirectory(t, dir) && (privileged || (OwnerWrites(t.nodes[dir].mode) && CanReach(t, dir, privileged)))
  }

  /** What is in the directory may be found out and removed. */
  predicate MayEmpty(t: Tree, dir: Path, privileged: bool) {
    MayWrite(t, dir, privileged) && (privileged || OwnerEmpties(t.nodes[dir].mode))
  }

  function Mkdir(t: Tree, p: Path, privileged: bool): Answer {
    if !CanReach(t, p, privileged) then Denied
    else if p in t.nodes then Exists
    else if !IsDirectory(t, Parent(p)) then Missing
    else if !MayWrite(t, Parent(p), privileged) then Denied
    else Done(t.(nodes := t.nodes[p := Directory(SCRATCH_DIRECTORY)]))
  }

  /** A new object under a name that is not in use: a file, a symbolic link, a fifo or, for the privileged, a device. */
  function Create(t: Tree, p: Path, x: Object, privileged: bool): Answer {
    if !CanReach(t, p, privileged) then Denied
    else if p in t.nodes then Exists
    else if !IsDirectory(t, Parent(p)) then Missing
    else if !MayWrite(t, Parent(p), privileged) || (x.Device? && !privileged) then Denied
    else Done(Tree(t.nodes[p := Leaf(t.next)], t.objects[t.next := x], t.next + 1))
  }

  /** One more name for an object. */
  function LinkTo(t: Tree, from: Path, p: Path, privileged: bool): Answer {
    if !CanReach(t, from, privileged) || !CanReach(t, p, privileged) then Denied
    else if from !in t.nodes then Missing
    else if p in t.nodes then Exists
    else if !IsDirectory(t, Parent(p)) then Missing
    else if t.nodes[from].Directory? || !MayWrite(t, Parent(p), privileged) then Denied
    else Done(t.(nodes := t.nodes[p := t.nodes[from]]))
  }

  /** os.RemoveAll: everything below goes first, which takes permission wherever there is something. */
  function RemoveAll(t: Tree, p: Path, privileged: bool): Answer {
    if !CanReach(t, p, privileged) then Denied
    else if p !in t.nodes then Done(t)
    else if p.Top? || !MayWrite(t, p.dir, privileged) then Denied
    else if exists q :: q in t.nodes && q.Below? && Within(q.dir, p) && !MayEmpty(t, q.dir, privileged) then Denied
    else Done(t.(nodes := map q | q in t.nodes && !Within(q, p) :: t.nodes[q]))
  }

  /** os.Remove of something that is not a directory. */
  function Unlink(t: Tree, p: Path, privileged: bool): Answer {
    if !CanReach(t, p, privileged) then Denied
    else if p !in t.nodes then Missing
    else if t.nodes[p].Directory? || !MayWrite(t, Parent(p), privileged) then Denied
    else Done(t.(nodes := t.nodes - {p}))
  }

  function WithMode(x: Object, m: Mode): Object {
    if x.Symlink? then x else x.(mode := m)
  }

  /** The mode of what is at p itself becomes m. */
  function Chmod(t: Tree, p: Path, m: Mode): Tree {
    if p !in t.nodes then t
    else match t.nodes[p]
      case Directory(_) => t.(nodes := t.nodes[p := Directory(m)])
      case Leaf(i) => if i in t.objects then t.(objects := t.objects[i := WithMode(t.objects[i], m)]) else t
  }

  /** os.Chmod, with its error ignored: the mode of what p leads to, if it leads to anything, becomes m. */
  function TryChmod(t: Tree, p: Path, m: Mode, privileged: bool): Tree {
    match Find(OutlineOf(t, privileged), p)
    case None => t
    case Some(q) => Chmod(t, q, m)
  }
}
