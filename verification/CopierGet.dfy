/**
 Archiving a directory tree: a header for each thing below the directory, and hard links
 to what was archived before under another name.
 */
module CopierGet {
  import opened Optional
  import opened Paths
  import opened FileTree
  import opened CopierPut

  /** A tree to be archived, with each inode's link count, which may count names from elsewhere. */
  datatype Source = Source(tree: Tree, nlink: map<nat, nat>)

  predicate HasSeveralNames(src: Source, i: nat) {
    i in src.nlink && src.nlink[i] > 1
  }

  predicate AreLinks(t: Tree, p: Path, q: Path) {
    p in t.nodes && q in t.nodes && t.nodes[p].Leaf? && t.nodes[p] == t.nodes[q]
  }

  /** Two names in the tree are counted. */
  ghost predicate CountsFit(src: Source) {
    forall p, q :: AreLinks(src.tree, p, q) && p != q ==> HasSeveralNames(src, src.tree.nodes[p].inode)
  }

  /** A walk of the tree: everything below its top once, directories before what is in them. */
  ghost predicate Walks(t: Tree, order: seq<Path>) {
    && (forall k :: 0 <= k < |order| ==> order[k] in t.nodes && order[k].Below?)
    && (forall p :: p in t.nodes && p.Below? ==> p in order)
    && (forall j, k :: 0 <= j < k < |order| ==> order[j] != order[k])
    && (forall k :: 0 <= k < |order| && order[k].dir.Below? ==> order[k].dir in order[..k])
  }

  function ModeOf(x: Object): Mode {
    if x.Symlink? then Mode(511, false, false, false) else x.mode
  }

  /** The names under which inodes with several names were first archived. */
  type Seen = map<nat, Path>

  predicate IsSeen(src: Source, seen: Seen, i: nat) {
    HasSeveralNames(src, i) && i in seen
  }

  class HardlinkChecker {
    var hardlinks: Seen

    constructor ()
      ensures hardlinks == map[]
    {
      hardlinks := map[];
    }

    /** The name that the file was archived under, if it was. */
    method Check(src: Source, i: nat) returns (name: Option<Path>)
      ensures name == if IsSeen(src, hardlinks, i) then Some(hardlinks[i]) else None
    {
      if HasSeveralNames(src, i) && i in hardlinks {
        return Some(hardlinks[i]);
      }
      name := None;
    }

    method Add(src: Source, i: nat, name: Path)
      modifies this
      ensures hardlinks == if HasSeveralNames(src, i) then old(hardlinks)[i := name] else old(hardlinks)
    {
      if HasSeveralNames(src, i) {
        hardlinks := hardlinks[i := name];
      }
    }
  }

  /** copierHandlerGetOne: the header for p, with what follows it. */
  function GetOne(src: Source, seen: Seen, p: Path): Entry
    requires p in src.tree.nodes && (src.tree.nodes[p].Leaf? ==> src.tree.nodes[p].inode in src.tree.objects)
  {
    var name := Split(p, End);
    match src.tree.nodes[p]
    case Directory(m) => Entry(name, Dir, m)
    case Leaf(i) =>
      var x := src.tree.objects[i];
      var kind := match x
        case Regular(content, _) => if IsSeen(src, seen, i) then HardLink(Split(seen[i], End)) else RegularFile(content)
        case Symlink(target) => SymbolicLink(target)
        case Fifo(_) => NamedPipe
        case Device(block, major, minor, _) => if block then BlockDevice(major, minor) else CharDevice(major, minor);
      Entry(name, kind, ModeOf(x))
  }

  /** What the checker holds after the first n. */
  function SeenAfter(src: Source, order: seq<Path>, n: nat): Seen
    requires n <= |order| && WalkFits(src, order)
  {
    if n == 0 then map[]
    else
      var seen, p := SeenAfter(src, order, n - 1), order[n - 1];
      match src.tree.nodes[p]
      case Directory(_) => seen
      case Leaf(i) =>
        if src.tree.objects[i].Regular? && !IsSeen(src, seen, i) && HasSeveralNames(src, i) then seen[i := p] else seen
  }

  predicate WalkFits(src: Source, order: seq<Path>) {
    forall k :: 0 <= k < |order| ==>
      order[k] in src.tree.nodes &&
        (src.tree.nodes[order[k]].Leaf? ==> src.tree.nodes[order[k]].inode in src.tree.objects)
  }

  function EntryAt(src: Source, order: seq<Path>, k: nat): Entry
    requires k < |order| && WalkFits(src, order)
  {
    GetOne(src, SeenAfter(src, order, k), order[k])
  }

  function Archive(src: Source, order: seq<Path>): seq<Entry>
    requires WalkFits(src, order)
  {
    seq(|order|, k requires 0 <= k < |order| => EntryAt(src, order, k))
  }

  /** The walk of copierHandlerGet. */
  method Get(src: Source, order: seq<Path>) returns (es: seq<Entry>)
    requires WalkFits(src, order)
    ensures es == Archive(src, order)
  {
    es := [];
    var checker := new HardlinkChecker();
    for k := 0 to |order|
      invariant fresh(checker)
      invariant |es| == k && forall j :: 0 <= j < k ==> es[j] == EntryAt(src, order, j)
      invariant checker.hardlinks == SeenAfter(src, order, k)
    {
      var p := order[k];
      es := es + [GetOne(src, checker.hardlinks, p)];
      if src.tree.nodes[p].Leaf? {
        var i := src.tree.nodes[p].inode;
        if src.tree.objects[i].Regular? {
          var target := checker.Check(src, i);
          if target.None? {
            checker.Add(src, i, p);
          }
        }
      }
    }
  }

  // -------------------------------------------------------------------------------- what the checker knows

  /** The checker names earlier paths of the same inode. */
  ghost predicate SeenFits(src: Source, order: seq<Path>, n: nat, seen: Seen)
    requires n <= |order|
  {
    && (forall i :: i in seen ==>
      IsEarlier(order, n, seen[i]) && seen[i] in src.tree.nodes && src.tree.nodes[seen[i]] == Leaf(i))
    && (forall i :: i in seen ==> i in src.tree.objects && src.tree.objects[i].Regular?)
  }

  predicate IsEarlier(order: seq<Path>, n: nat, p: Path)
    requires n <= |order|
  {
    exists k :: 0 <= k < n && order[k] == p
  }

  /** Every regular file with several names that was archived before is known. */
  ghost predicate SeenKnows(src: Source, order: seq<Path>, n: nat, seen: Seen)
    requires n <= |order| && WalkFits(src, order)
  {
    forall k :: 0 <= k < n && src.tree.nodes[order[k]].Leaf? ==>
      var i := src.tree.nodes[order[k]].inode;
      src.tree.objects[i].Regular? && HasSeveralNames(src, i) ==> i in seen
  }

  lemma {:induction false} CheckerFits(src: Source, order: seq<Path>, n: nat)
    requires n <= |order| && WalkFits(src, order)
    ensures SeenFits(src, order, n, SeenAfter(src, order, n)) && SeenKnows(src, order, n, SeenAfter(src, order, n))
  {
    if n > 0 {
      CheckerFits(src, order, n - 1);
      var seen, p := SeenAfter(src, order, n - 1), order[n - 1];
      forall q | IsEarlier(order, n - 1, q)
        ensures IsEarlier(order, n, q)
      {
      }
      assert IsEarlier(order, n, p);
    }
  }
}
