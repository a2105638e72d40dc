/**
 Unmounting a mountpoint and all that hangs off it: the worklist that gathers the tree,
 and the walk from its end back to its top.
 */
module UnmountOrder {
  import opened Optional

  datatype Info = Info(id: int, parent: int, mountpoint: string)

  type Mounts = seq<Info>

  /** The kernel gives every mount an ID of its own. */
  ghost predicate UniqueIDs(m: Mounts) {
    forall i, j :: 0 <= i < j < |m| ==> m[i].id != m[j].id
  }

  predicate IsChild(m: Mounts, parent: int, id: int) {
    exists k :: 0 <= k < |m| && m[k].id == id && m[k].parent == parent
  }

  /** id hangs off from, n mounts further down. */
  ghost predicate HangsOff(m: Mounts, from: int, id: int, n: nat)
    decreases n
  {
    if n == 0 then from == id
    else exists c :: IsChild(m, from, c) && HangsOff(m, c, id, n - 1)
  }

  ghost predicate Descends(m: Mounts, from: int, id: int) {
    exists n: nat :: HangsOff(m, from, id, n)
  }

  /** The mount hangs off itself. */
  ghost predicate OnCycle(m: Mounts, id: int) {
    exists c :: IsChild(m, id, c) && Descends(m, c, id)
  }

  lemma {:induction false} HangFurther(m: Mounts, from: int, id: int, n: nat, c: int)
    requires HangsOff(m, from, id, n) && IsChild(m, id, c)
    ensures HangsOff(m, from, c, n + 1)
    decreases n
  {
    if n == 0 {
      assert HangsOff(m, c, c, 0);
    } else {
      var d :| IsChild(m, from, d) && HangsOff(m, d, id, n - 1);
      HangFurther(m, d, id, n - 1, c);
    }
  }

  lemma DescendFurther(m: Mounts, from: int, id: int, c: int)
    requires Descends(m, from, id) && IsChild(m, id, c)
    ensures Descends(m, from, c)
  {
    var n: nat :| HangsOff(m, from, id, n);
    HangFurther(m, from, id, n, c);
  }

  lemma ReachItselfIsCycle(m: Mounts, top: int, id: int)
    requires Descends(m, top, id) && IsChild(m, id, top)
    ensures OnCycle(m, top)
  {
    var n: nat :| HangsOff(m, top, id, n);
    if n == 0 {
      assert HangsOff(m, top, top, 0);
    } else {
      var c :| IsChild(m, top, c) && HangsOff(m, c, id, n - 1);
      HangFurther(m, c, id, n - 1, top);
    }
  }

  ghost predicate Distinct(s: seq<int>) {
    forall i, j :: 0 <= i < j < |s| ==> s[i] != s[j]
  }

  /** getChildren */
  method GetChildren(m: Mounts, id: int) returns (list: seq<int>)
    requires UniqueIDs(m)
    ensures Distinct(list) && forall c :: c in list <==> IsChild(m, id, c)
  {
    list := [];
    for k := 0 to |m|
      invariant Distinct(list)
      invariant forall c :: c in list <==> exists j :: 0 <= j < k && m[j].id == c && m[j].parent == id
    {
      if m[k].parent == id {
        assert m[k].id !in list;
        list := list + [m[k].id];
      }
    }
  }

  // --------------------------------------------------------------------------------- the worklist

  /** Whatever is in the list after its first place comes after its parent, which has been dealt with. */
  ghost predicate AfterParents(m: Mounts, list: seq<int>, done: nat) {
    forall k :: 0 < k < |list| ==> AfterParent(m, list, done, k)
  }

  ghost predicate AfterParent(m: Mounts, list: seq<int>, done: nat, k: nat)
    requires k < |list|
  {
    exists j :: 0 <= j < k && j < done && IsChild(m, list[j], list[k])
  }

  /** The children of what has been dealt with are in the list. */
  ghost predicate ChildrenListed(m: Mounts, list: seq<int>, done: nat) {
    forall j, c :: 0 <= j < done && j < |list| && IsChild(m, list[j], c) ==> c in list
  }

  /** Children of the next mount are new to the list, unless the top hangs off itself. */
  lemma ChildrenAreNew(m: Mounts, top: int, list: seq<int>, i: nat, c: int)
    requires UniqueIDs(m) && !OnCycle(m, top) && i < |list| && Distinct(list) && list[0] == top
    requires AfterParents(m, list, i) && Descends(m, top, list[i]) && IsChild(m, list[i], c)
    ensures c !in list
  {
    forall k | 0 <= k < |list|
      ensures list[k] != c
    {
      if k == 0 {
        if c == top {
          ReachItselfIsCycle(m, top, list[i]);
        }
      } else {
        assert AfterParent(m, list, i, k);
      }
    }
  }

  ghost function IDs(m: Mounts): set<int> {
    set k | 0 <= k < |m| :: m[k].id
  }

  lemma {:induction false} FewIDs(m: Mounts)
    ensures |IDs(m)| <= |m|
  {
    if m != [] {
      var rest := m[..|m| - 1];
      FewIDs(rest);
      assert IDs(m) == IDs(rest) + {m[|m| - 1].id};
    }
  }

  ghost function Elements(s: seq<int>): set<int> {
    set x | x in s
  }

  lemma {:induction false} DistinctCount(s: seq<int>)
    requires Distinct(s)
    ensures |Elements(s)| == |s|
  {
    if s != [] {
      var rest := s[..|s| - 1];
      DistinctCount(rest);
      assert s == rest + [s[|s| - 1]];
      assert Elements(s) == Elements(rest) + {s[|s| - 1]};
    }
  }

  lemma ListIsShort(m: Mounts, list: seq<int>)
    requires Distinct(list) && forall k :: 0 <= k < |list| ==> list[k] in IDs(m)
    ensures |list| <= |m|
  {
    DistinctCount(list);
    FewIDs(m);
    assert IDs(m) == Elements(list) + (IDs(m) - Elements(list));
  }

  /** What is known of the worklist when its first i mounts have been dealt with. */
  ghost predicate WorklistFits(m: Mounts, top: int, list: seq<int>, i: nat) {
    && |list| > 0 && list[0] == top && i <= |list| && Distinct(list)
    && (forall k :: 0 <= k < |list| ==> list[k] in IDs(m) && Descends(m, top, list[k]))
    && AfterParents(m, list, i) && ChildrenListed(m, list, i)
  }

  lemma WorklistGrows(m: Mounts, top: int, list: seq<int>, i: nat, children: seq<int>)
    requires UniqueIDs(m) && !OnCycle(m, top) && WorklistFits(m, top, list, i) && i < |list|
    requires Distinct(children) && forall c :: c in children <==> IsChild(m, list[i], c)
    ensures WorklistFits(m, top, list + children, i + 1)
  {
    var list', next := list + children, i + 1;
    forall c | c in children
      ensures c !in list && c in IDs(m) && Descends(m, top, c)
    {
      ChildrenAreNew(m, top, list, i, c);
      DescendFurther(m, top, list[i], c);
    }
    forall k | 0 < k < |list'|
      ensures AfterParent(m, list', next, k)
    {
      if k < |list| {
        assert AfterParent(m, list, i, k);
        var j :| 0 <= j < k && j < i && IsChild(m, list[j], list[k]);
        assert list'[j] == list[j];
      } else {
        assert list'[k] in children && list'[i] == list[i];
      }
    }
  }

  /**
   getTree, for a mount that does not hang off itself: the worklist ends with all the
   mounts that hang off it, each once, and each after the mount it hangs off.
   */
  method GetTree(m: Mounts, top: int) returns (list: seq<int>)
    requires UniqueIDs(m) && top in IDs(m) && !OnCycle(m, top)
    ensures |list| > 0 && list[0] == top && Distinct(list)
    ensures forall x :: x in list <==> Descends(m, top, x)
    ensures AfterParents(m, list, |list|)
    ensures forall k :: 0 <= k < |list| ==> list[k] in IDs(m)
  {
    list := [top];
    var i := 0;
    assert HangsOff(m, top, top, 0);
    while i < |list|
      invariant WorklistFits(m, top, list, i)
      decreases |m| - i
    {
      ListIsShort(m, list);
      var children := GetChildren(m, list[i]);
      WorklistGrows(m, top, list, i, children);
      list := list + children;
      i := i + 1;
    }
    forall x | Descends(m, top, x)
      ensures x in list
    {
      var n: nat :| HangsOff(m, top, x, n);
      AllHangersListed(m, list, top, x, n);
    }
  }

  lemma {:induction false} AllHangersListed(m: Mounts, list: seq<int>, from: int, x: int, n: nat)
    requires ChildrenListed(m, list, |list|) && from in list && HangsOff(m, from, x, n)
    ensures x in list
    decreases n
  {
    if n > 0 {
      var c :| IsChild(m, from, c) && HangsOff(m, c, x, n - 1);
      var j :| 0 <= j < |list| && list[j] == from;
      AllHangersListed(m, list, c, x, n - 1);
    }
  }

  // --------------------------------------------------------------------------- why it needs the condition

  function Children(m: Mounts, id: int, k: nat): seq<int>
    requires k <= |m|
  {
    if k == 0 then [] else Children(m, id, k - 1) + if m[k - 1].parent == id then [m[k - 1].id] else []
  }

  /** The worklist after n turns. */
  function Worklist(m: Mounts, top: int, n: nat): seq<int> {
    if n == 0 then [top] else
      var list := Worklist(m, top, n - 1);
      if n - 1 < |list| then list + Children(m, list[n - 1], |m|) else list
  }

  lemma {:induction false} ChildIsListed(m: Mounts, id: int, k: nat, j: nat)
    requires j < k <= |m| && m[j].parent == id
    ensures m[j].id in Children(m, id, k)
  {
    if j < k - 1 {
      ChildIsListed(m, id, k - 1, j);
    }
  }

  /** A mount below which the top turns up again. */
  ghost predicate LeadsBack(m: Mounts, top: int, x: int) {
    exists c :: IsChild(m, x, c) && Descends(m, c, top)
  }

  lemma StillLeadsBack(m: Mounts, top: int, x: int) returns (c: int)
    requires OnCycle(m, top) && LeadsBack(m, top, x)
    ensures IsChild(m, x, c) && LeadsBack(m, top, c)
  {
    c :| IsChild(m, x, c) && Descends(m, c, top);
    var n: nat :| HangsOff(m, c, top, n);
    if n > 0 {
      var d :| IsChild(m, c, d) && HangsOff(m, d, top, n - 1);
    }
  }

  /** If the top hangs off itself, the worklist never runs out, however many turns are taken. */
  lemma {:induction false} CycleNeverEnds(m: Mounts, top: int, n: nat) returns (k: nat)
    requires OnCycle(m, top)
    ensures n <= k < |Worklist(m, top, n)| && LeadsBack(m, top, Worklist(m, top, n)[k])
  {
    if n == 0 {
      k := 0;
    } else {
      k := CycleNeverEnds(m, top, n - 1);
      var list := Worklist(m, top, n - 1);
      var children := Children(m, list[n - 1], |m|);
      assert Worklist(m, top, n) == list + children;
      if k == n - 1 {
        var c := StillLeadsBack(m, top, list[k]);
        var j :| 0 <= j < |m| && m[j].id == c && m[j].parent == list[k];
        ChildIsListed(m, list[k], |m|, j);
        var i :| 0 <= i < |children| && children[i] == c;
        k := |list| + i;
      }
    }
  }

  /** So for a single mount that is its own parent, as the first one of a system is. */
  lemma RootMountNeverEnds(n: nat)
    ensures n < |Worklist([Info(1, 1, "/")], 1, n)|
  {
    var m := [Info(1, 1, "/")];
    assert m[0].id == 1 && m[0].parent == 1;
    assert IsChild(m, 1, 1) && HangsOff(m, 1, 1, 0);
    var k := CycleNeverEnds(m, 1, n);
  }

  // ------------------------------------------------------------------------------------ unmounting

  /** What happens when a mount's turn comes: it is skipped, unmounted, or the walk stops there. */
  datatype Fate = Skipped | Unmounted | Stopped

  lemma {:induction false} HangersComeLater(m: Mounts, list: seq<int>, a: nat, n: nat, b: nat)
    requires UniqueIDs(m) && Distinct(list) && AfterParents(m, list, |list|) && a < |list| && b < |list|
    requires !OnCycle(m, list[0]) && ChildrenListed(m, list, |list|) && HangsOff(m, list[a], list[b], n) && n > 0
    requires forall k :: 0 <= k < |list| ==> Descends(m, list[0], list[k])
    ensures a < b
    decreases n
  {
    var c :| IsChild(m, list[a], c) && HangsOff(m, c, list[b], n - 1);
    assert c in list;
    var k :| 0 <= k < |list| && list[k] == c;
    if k == 0 {
      assert Descends(m, list[0], list[a]);
      ReachItselfIsCycle(m, list[0], list[a]);
    } else {
      assert AfterParent(m, list, |list|, k);
      var j :| 0 <= j < k && IsChild(m, list[j], list[k]);
      if n > 1 {
        HangersComeLater(m, list, k, n - 1, b);
      }
    }
  }

  method GetMountByID(m: Mounts, id: int) returns (f: Option<Info>)
    ensures f.Some? <==> id in IDs(m)
    ensures f.Some? ==>
      exists k :: 0 <= k < |m| && m[k] == f.value && m[k].id == id && forall j :: 0 <= j < k ==> m[j].id != id
  {
    for k := 0 to |m|
      invariant forall j :: 0 <= j < k ==> m[j].id != id
    {
      if m[k].id == id {
        return Some(m[k]);
      }
    }
    f := None;
  }

  /** The first in the list that is mounted there. */
  predicate IsFirstOn(m: Mounts, point: string, k: int) {
    0 <= k < |m| && m[k].mountpoint == point && forall j :: 0 <= j < k ==> m[j].mountpoint != point
  }

  method GetMountByPoint(m: Mounts, point: string) returns (f: Option<Info>)
    ensures f.Some? <==> exists k :: 0 <= k < |m| && m[k].mountpoint == point
    ensures f.Some? ==> exists k :: IsFirstOn(m, point, k) && m[k] == f.value
  {
    for k := 0 to |m|
      invariant forall j :: 0 <= j < k ==> m[j].mountpoint != point
    {
      if m[k].mountpoint == point {
        assert IsFirstOn(m, point, k);
        return Some(m[k]);
      }
    }
    f := None;
  }

  /**
   The walk of UnmountMountpoints: from the end of the tree to its top, up to where it
   stops. A mount's turn comes only after that of every mount that hangs off it.
   */
  method UnmountTree(m: Mounts, top: int, fate: int -> Fate) returns (visited: seq<int>, unmounted: seq<int>)
    requires UniqueIDs(m) && top in IDs(m) && !OnCycle(m, top)
    ensures visited != [] && Distinct(visited) && (forall x :: x in visited ==> Descends(m, top, x))
    ensures forall a, x :: 0 <= a < |visited| && OffIt(m, visited[a], x) ==> x in visited[..a]
    ensures (forall x :: x in visited ==> !fate(x).Stopped?) ==> forall x :: Descends(m, top, x) ==> x in visited
    ensures forall a :: 0 <= a < |visited| - 1 ==> !fate(visited[a]).Stopped?
    ensures forall x :: x in unmounted <==> x in visited && fate(x).Unmounted?
  {
    var tree := GetTree(m, top);
    visited, unmounted := [], [];
    var i := 0;
    while i < |tree|
      invariant 0 <= i <= |tree| && |visited| == i
      invariant forall a :: 0 <= a < i ==> visited[a] == tree[|tree| - 1 - a] && !fate(visited[a]).Stopped?
      invariant forall x :: x in unmounted <==> x in visited && fate(x).Unmounted?
    {
      var id := tree[|tree| - i - 1];
      var mount := GetMountByID(m, id);
      assert mount.Some?;
      visited := visited + [id];
      if fate(id).Stopped? {
        assert id in visited;
        break;
      }
      if fate(id).Unmounted? {
        unmounted := unmounted + [id];
      }
      i := i + 1;
    }
    forall a, x | 0 <= a < |visited| && OffIt(m, visited[a], x)
      ensures x in visited[..a]
    {
      HangerIsVisitedBefore(m, top, tree, visited, a, x);
    }
    if |visited| == |tree| {
      forall x | x in tree
        ensures x in visited
      {
        var b :| 0 <= b < |tree| && tree[b] == x;
        assert visited[|tree| - 1 - b] == x;
      }
    }
  }

  /** UnmountMountpoints: nothing is done about a mountpoint that nothing is mounted on. */
  method UnmountMountpoints(m: Mounts, point: string, fate: int -> Fate)
      returns (visited: seq<int>, unmounted: seq<int>)
    requires UniqueIDs(m) && forall k :: 0 <= k < |m| && m[k].mountpoint == point ==> !OnCycle(m, m[k].id)
    ensures forall a, x :: 0 <= a < |visited| && OffIt(m, visited[a], x) ==> x in visited[..a]
    ensures Distinct(visited) && forall x :: x in unmounted <==> x in visited && fate(x).Unmounted?
    ensures visited == [] <==> forall k :: 0 <= k < |m| ==> m[k].mountpoint != point
    ensures visited != [] && (forall x :: x in visited ==> !fate(x).Stopped?) ==> TreeIsVisited(m, point, visited)
    ensures forall a :: 0 <= a < |visited| - 1 ==> !fate(visited[a]).Stopped?
  {
    visited, unmounted := [], [];
    var top := GetMountByPoint(m, point);
    if top.None? {
      return;
    }
    visited, unmounted := UnmountTree(m, top.value.id, fate);
  }

  /** All that hangs off the first mount on the mountpoint has been visited, and nothing else has. */
  ghost predicate TreeIsVisited(m: Mounts, point: string, visited: seq<int>) {
    exists k :: IsFirstOn(m, point, k) && forall x :: x in visited <==> Descends(m, m[k].id, x)
  }

  /** x hangs off id, directly or not. */
  ghost predicate OffIt(m: Mounts, id: int, x: int) {
    exists n: nat :: n > 0 && HangsOff(m, id, x, n)
  }

  lemma {:induction false} HangChain(m: Mounts, a: int, b: int, c: int, n: nat, k: nat)
    requires HangsOff(m, a, b, n) && HangsOff(m, b, c, k)
    ensures HangsOff(m, a, c, n + k)
    decreases n
  {
    if n > 0 {
      var d :| IsChild(m, a, d) && HangsOff(m, d, b, n - 1);
      HangChain(m, d, b, c, n - 1, k);
    }
  }

  lemma HangerIsVisitedBefore(m: Mounts, top: int, tree: seq<int>, visited: seq<int>, a: nat, x: int)
    requires UniqueIDs(m) && !OnCycle(m, top) && |tree| > 0 && tree[0] == top && Distinct(tree)
    requires (forall y :: y in tree <==> Descends(m, top, y)) && AfterParents(m, tree, |tree|)
    requires a < |visited| <= |tree| && forall k :: 0 <= k < |visited| ==> visited[k] == tree[|tree| - 1 - k]
    requires OffIt(m, visited[a], x)
    ensures x in visited[..a]
  {
    var p := |tree| - 1 - a;
    var n: nat :| n > 0 && HangsOff(m, visited[a], x, n);
    assert tree[p] in tree;
    var k: nat :| HangsOff(m, top, tree[p], k);
    HangChain(m, top, tree[p], x, k, n);
    assert x in tree;
    var b :| 0 <= b < |tree| && tree[b] == x;
    forall j, c | 0 <= j < |tree| && IsChild(m, tree[j], c)
      ensures c in tree
    {
      DescendFurther(m, top, tree[j], c);
    }
    HangersComeLater(m, tree, p, n, b);
    assert visited[..a][|tree| - 1 - b] == x;
  }
}
