/**
 Extracting whole archives: what is at each path at the end, under which names, and with
 which mode.
 */
module PutArchive {
  import opened Optional
  import opened Paths
  import opened FileTree
  import opened SymlinkResolution
  import opened CopierPut
  import opened PutModes
  import opened PutContents

  // ----------------------------------------------------------------------------- entries that are ignored

  /** The entry at k is ignored: it has no name, is a device and devices are ignored, or links to what was ignored. */
  predicate Skips(r: Request, es: seq<Entry>, k: nat)
    requires k < |es|
    decreases k, 1
  {
    || es[k].name.End?
    || (es[k].kind.HardLink? && es[k].kind.linkname in IgnoredNames(r, es, k))
    || ((es[k].kind.CharDevice? || es[k].kind.BlockDevice?) && r.options.ignoreDevices)
  }

  function IgnoredNames(r: Request, es: seq<Entry>, n: nat): set<Raw>
    requires n <= |es|
    decreases n, 0
  {
    if n == 0 then {}
    else IgnoredNames(r, es, n - 1) + if Skips(r, es, n - 1) then {es[n - 1].name} else {}
  }

  lemma {:induction false} EnsureDirectoryKeepsIgnored(r: Request, s: State, p: Path)
    ensures EnsureDirectory(r, s, p).state.ignored == s.ignored
  {
    if p.Below? {
      EnsureDirectoryKeepsIgnored(r, s, p.dir);
    }
  }

  lemma MakeKeepsIgnored(r: Request, s: State, p: Path, e: Entry)
    ensures Make(r, s, p, e).state.ignored == s.ignored
  {
    hide RemoveAll;
    hide Create;
    hide LinkTo;
    hide Mkdir;
    hide Unlink;
    hide Chmod;
    hide LinkTarget;
    hide Attempt;
  }

  lemma EntryIgnores(r: Request, s: State, e: Entry)
    requires PutEntry(r, s, e).Next?
    ensures PutEntry(r, s, e).state.ignored == if IsIgnored(r, s, e) then s.ignored + {e.name} else s.ignored
  {
    var parent := EnsureDirectory(r, s, Parent(PathOf(r, e))).state;
    EnsureDirectoryKeepsIgnored(r, s, Parent(PathOf(r, e)));
    MakeKeepsIgnored(r, parent, PathOf(r, e), e);
    hide EnsureDirectory;
    hide Make;
    hide Chmod;
  }

  lemma NextIgnores(r: Request, s: State, es: seq<Entry>, n: nat)
    requires n < |es| && s.ignored == IgnoredNames(r, es, n)
    ensures IsIgnored(r, s, es[n]) == Skips(r, es, n)
    ensures PutEntry(r, s, es[n]).Next? ==> PutEntry(r, s, es[n]).state.ignored == IgnoredNames(r, es, n + 1)
  {
    if PutEntry(r, s, es[n]).Next? {
      EntryIgnores(r, s, es[n]);
    }
    hide PutEntry;
  }

  lemma {:induction false} IgnoredAre(r: Request, s: State, es: seq<Entry>, n: nat)
    requires s.ignored == {} && n <= |es| && PutEntries(r, s, es, n).Next?
    ensures PutEntries(r, s, es, n).state.ignored == IgnoredNames(r, es, n)
  {
    if n == 0 {
      NoEntry(r, s, es);
      hide PutEntries;
    } else {
      hide *;
      NextEntry(r, s, es, n);
      IgnoredAre(r, s, es, n - 1);
      NextIgnores(r, PutEntries(r, s, es, n - 1).state, es, n - 1);
    }
  }

  /** Which entries are ignored can be told from the archive. */
  lemma IgnoredExactlyWhen(r: Request, s: State, es: seq<Entry>, k: nat)
    requires s.ignored == {} && k < |es| && PutEntries(r, s, es, k).Next?
    ensures IsIgnored(r, PutEntries(r, s, es, k).state, es[k]) <==> Skips(r, es, k)
  {
    hide *;
    IgnoredAre(r, s, es, k);
    NextIgnores(r, PutEntries(r, s, es, k).state, es, k);
  }

  // ------------------------------------------------------------------------------------- names that stay

  /** Of the entries from j up to n, none is at p, and none that is not a directory is above it. */
  ghost predicate IsSpared(r: Request, es: seq<Entry>, j: nat, n: nat, p: Path) {
    forall i :: j <= i < n && i < |es| && !es[i].name.End? ==>
      p != PathOf(r, es[i]) && !(IsOther(es[i]) && Within(p, PathOf(r, es[i])))
  }

  lemma EntryStaysSound(r: Request, s: State, e: Entry)
    requires Sound(s.tree)
    ensures Sound(PutEntry(r, s, e).state.tree) && ObjectsStay(s.tree, PutEntry(r, s, e).state.tree)
  {
    if !e.name.End? {
      PutEntryTouches(r, s, e);
      hide PutEntry;
    }
    hide Sound;
  }

  lemma {:induction false} TreeStaysSound(r: Request, s: State, es: seq<Entry>, n: nat)
    requires n <= |es| && Sound(s.tree)
    ensures Sound(PutEntries(r, s, es, n).state.tree)
  {
    hide *;
    if n == 0 {
      NoEntry(r, s, es);
    } else {
      TreeStaysSound(r, s, es, n - 1);
      NextEntry(r, s, es, n);
      EntryStaysSound(r, PutEntries(r, s, es, n - 1).state, es[n - 1]);
    }
  }

  lemma ObjectsStayTwice(t: Tree, t': Tree, t'': Tree)
    requires ObjectsStay(t, t') && ObjectsStay(t', t'')
    ensures ObjectsStay(t, t'')
  {
  }

  lemma ObjectsStayItself(t: Tree)
    ensures ObjectsStay(t, t)
  {
  }

  /** No object goes, or changes but for its mode. */
  lemma {:induction false} ObjectsStayAlong(r: Request, s: State, es: seq<Entry>, j: nat, n: nat)
    requires j <= n <= |es| && Sound(s.tree)
    ensures ObjectsStay(PutEntries(r, s, es, j).state.tree, PutEntries(r, s, es, n).state.tree)
  {
    hide *;
    var t := PutEntries(r, s, es, j).state.tree;
    if j == n {
      ObjectsStayItself(t);
    } else {
      var before := PutEntries(r, s, es, n - 1);
      ObjectsStayAlong(r, s, es, j, n - 1);
      TreeStaysSound(r, s, es, n - 1);
      NextEntry(r, s, es, n);
      EntryStaysSound(r, before.state, es[n - 1]);
      if before.Next? {
        ObjectsStayTwice(t, before.state.tree, PutEntries(r, s, es, n).state.tree);
      }
    }
  }

  lemma EntrySpares(r: Request, s: State, e: Entry, p: Path)
    requires Sound(s.tree) && p in s.tree.nodes
    requires e.name.End? || (p != PathOf(r, e) && !(IsOther(e) && Within(p, PathOf(r, e))))
    ensures var t := PutEntry(r, s, e).state.tree;
            p in t.nodes && SameNode(s.tree.nodes[p], t.nodes[p])
  {
    if !e.name.End? {
      PutEntryTouches(r, s, e);
      hide PutEntry;
    }
  }

  lemma NextSpares(r: Request, s: State, es: seq<Entry>, j: nat, n: nat, p: Path)
    requires j <= n < |es| && Sound(s.tree) && p in s.tree.nodes && IsSpared(r, es, j, n + 1, p)
    ensures var t := PutEntry(r, s, es[n]).state.tree;
            p in t.nodes && SameNode(s.tree.nodes[p], t.nodes[p]) && ObjectsStay(s.tree, t)
    ensures IsSpared(r, es, j, n, p)
  {
    EntrySpares(r, s, es[n], p);
    EntryStaysSound(r, s, es[n]);
    hide PutEntry;
  }

  /** p is still what it was. */
  ghost predicate IsStill(t: Tree, t': Tree, p: Path) {
    p in t.nodes ==> p in t'.nodes && SameNode(t.nodes[p], t'.nodes[p]) && ObjectsStay(t, t')
  }

  lemma StillTwice(t: Tree, t': Tree, t'': Tree, p: Path)
    requires IsStill(t, t', p) && IsStill(t', t'', p)
    ensures IsStill(t, t'', p)
  {
    if p in t.nodes {
      ObjectsStayTwice(t, t', t'');
    }
  }

  lemma StillItself(t: Tree, p: Path)
    ensures IsStill(t, t, p)
  {
  }

  lemma StillThere(t: Tree, t': Tree, p: Path)
    requires IsStill(t, t', p) && p in t.nodes
    ensures p in t'.nodes
  {
  }

  lemma SparedBefore(r: Request, es: seq<Entry>, j: nat, n: nat, p: Path)
    requires 0 < n && IsSpared(r, es, j, n, p)
    ensures IsSpared(r, es, j, n - 1, p)
  {
  }

  /** What is at p after j entries is there after n, if the entries between spare it. */
  lemma {:induction false} NodeStays(r: Request, s: State, es: seq<Entry>, j: nat, n: nat, p: Path)
    requires j <= n <= |es| && Sound(s.tree)
    requires p in PutEntries(r, s, es, j).state.tree.nodes && IsSpared(r, es, j, n, p)
    ensures IsStill(PutEntries(r, s, es, j).state.tree, PutEntries(r, s, es, n).state.tree, p)
  {
    hide *;
    if j == n {
      StillItself(PutEntries(r, s, es, j).state.tree, p);
    } else {
      var t := PutEntries(r, s, es, j).state.tree;
      var before := PutEntries(r, s, es, n - 1);
      SparedBefore(r, es, j, n, p);
      NodeStays(r, s, es, j, n - 1, p);
      StillThere(t, before.state.tree, p);
      TreeStaysSound(r, s, es, n - 1);
      NextEntry(r, s, es, n);
      if before.Next? {
        NextStill(r, before.state, es, j, n - 1, p);
        StillTwice(t, before.state.tree, PutEntries(r, s, es, n).state.tree, p);
      }
    }
  }

  lemma NextStill(r: Request, s: State, es: seq<Entry>, j: nat, n: nat, p: Path)
    requires j <= n < |es| && Sound(s.tree) && p in s.tree.nodes && IsSpared(r, es, j, n + 1, p)
    ensures IsStill(s.tree, PutEntry(r, s, es[n]).state.tree, p)
  {
    NextSpares(r, s, es, j, n, p);
    hide PutEntry;
  }

  lemma {:induction false} EarlierSucceeded(r: Request, s: State, es: seq<Entry>, j: nat, n: nat)
    requires j <= n <= |es| && PutEntries(r, s, es, n).Next?
    ensures PutEntries(r, s, es, j).Next?
  {
    if PutEntries(r, s, es, j).Failed? {
      FailureEnds(r, s, es, j, n);
    }
  }

  predicate IsLast(r: Request, es: seq<Entry>, k: nat)
    requires k < |es|
  {
    forall j :: k < j < |es| && !es[j].name.End? ==> PathOf(r, es[j]) != PathOf(r, es[k])
  }

  /** In a consistent archive, the entries after the last one for a path spare it. */
  lemma LastIsSpared(r: Request, es: seq<Entry>, k: nat)
    requires Consistent(r, es) && k < |es| && !es[k].name.End? && IsLast(r, es, k)
    ensures IsSpared(r, es, k + 1, |es|, PathOf(r, es[k]))
  {
    var p := PathOf(r, es[k]);
    forall i | k + 1 <= i < |es| && !es[i].name.End?
      ensures p != PathOf(r, es[i]) && !(IsOther(es[i]) && Within(p, PathOf(r, es[i])))
    {
      assert IsOther(es[i]) ==> !CallsFor(r, es[k], PathOf(r, es[i]));
    }
  }

  // ----------------------------------------------------------------------------------- modes of objects

  /** The mode that the last of the first n entries to give the object one gave it. */
  function DecidedMode(r: Request, s: State, es: seq<Entry>, n: nat, i: nat): Option<Mode>
    requires n <= |es|
  {
    if n == 0 then None
    else if SetsModeOf(r, PutEntries(r, s, es, n - 1).state, es[n - 1], i) then Some(HeaderMode(r.options, es[n - 1]))
    else DecidedMode(r, s, es, n - 1, i)
  }

  /** What an entry has just put somewhere has the mode that it gave it. */
  lemma NewObjectHasMode(r: Request, s: State, e: Entry, i: nat)
    requires Sound(s.tree) && SetsModeOf(r, s, e, i)
    ensures var t, m := PutEntry(r, s, e).state.tree, HeaderMode(r.options, e);
            i in t.objects && t.objects[i] == WithMode(t.objects[i], m)
  {
    var q := PathOf(r, e);
    MadeTouches(r, s, e);
    EntryEnds(r, s, e);
    var made := Make(r, EnsureDirectory(r, s, Parent(q)).state, q, e).state.tree;
    var t := PutEntry(r, s, e).state.tree;
    assert HasLeaf(made, q) && Sound(made) && t == Chmod(made, q, HeaderMode(r.options, e)) && t.nodes[q] == Leaf(i);
    hide *;
    ChmodGivesMode(made, q, HeaderMode(r.options, e));
  }

  lemma ChmodGivesMode(t: Tree, q: Path, m: Mode)
    requires Sound(t) && HasLeaf(t, q)
    ensures var t', i := Chmod(t, q, m), t.nodes[q].inode;
            && t'.nodes == t.nodes && i in t'.objects && t'.objects[i] == WithMode(t'.objects[i], m)
  {
    ChmodOfObject(t, q, m);
  }

  /** The object has the mode that was decided for it, or is as it was. */
  ghost predicate ModeIsDecided(t: Tree, t': Tree, i: nat, m: Option<Mode>) {
    && (m.Some? ==> i in t'.objects && t'.objects[i] == WithMode(t'.objects[i], m.value))
    && (m.None? && i in t.objects ==> i in t'.objects && t'.objects[i] == t.objects[i])
  }

  lemma NextDecides(r: Request, t: Tree, s: State, e: Entry, i: nat, m: Option<Mode>)
    requires Sound(s.tree) && ModeIsDecided(t, s.tree, i, m)
    ensures ModeIsDecided(t, PutEntry(r, s, e).state.tree, i,
      if SetsModeOf(r, s, e, i) then Some(HeaderMode(r.options, e)) else m)
  {
    if SetsModeOf(r, s, e, i) {
      NewObjectHasMode(r, s, e, i);
    } else if i in s.tree.objects {
      EntrySetsMode(r, s, e, i);
    }
    hide PutEntry;
  }

  lemma NextDecidedMode(r: Request, s: State, es: seq<Entry>, n: nat, i: nat)
    requires 0 < n <= |es|
    ensures DecidedMode(r, s, es, n, i) ==
      if SetsModeOf(r, PutEntries(r, s, es, n - 1).state, es[n - 1], i) then Some(HeaderMode(r.options, es[n - 1]))
      else DecidedMode(r, s, es, n - 1, i)
  {
    hide SetsModeOf;
    hide PutEntries;
  }

  lemma NoDecidedMode(r: Request, s: State, es: seq<Entry>, i: nat)
    ensures DecidedMode(r, s, es, 0, i) == None
  {
    hide SetsModeOf;
    hide PutEntries;
  }

  lemma SameIsDecided(t: Tree, i: nat)
    ensures ModeIsDecided(t, t, i, None)
  {
  }

  /** For every archive: an object's mode is that of the last entry which gave it one. */
  lemma {:induction false} LastModeDecides(r: Request, s: State, es: seq<Entry>, n: nat, i: nat)
    requires n <= |es| && Sound(s.tree) && PutEntries(r, s, es, n).Next?
    ensures ModeIsDecided(s.tree, PutEntries(r, s, es, n).state.tree, i, DecidedMode(r, s, es, n, i))
  {
    hide *;
    if n == 0 {
      NoEntry(r, s, es);
      NoDecidedMode(r, s, es, i);
      SameIsDecided(s.tree, i);
    } else {
      NextEntry(r, s, es, n);
      NextDecidedMode(r, s, es, n, i);
      LastModeDecides(r, s, es, n - 1, i);
      TreeStaysSound(r, s, es, n - 1);
      NextDecides(r, s.tree, PutEntries(r, s, es, n - 1).state, es[n - 1], i, DecidedMode(r, s, es, n - 1, i));
    }
  }

  // --------------------------------------------------------------------------- what the entry at k left

  /** A run of the whole archive that succeeds. */
  ghost predicate Succeeds(r: Request, s: State, es: seq<Entry>) {
    Sound(s.tree) && s.ignored == {} && PutEntries(r, s, es, |es|).Next?
  }

  /** When its turn comes, an entry succeeds. */
  lemma EntryTurn(r: Request, s: State, es: seq<Entry>, k: nat)
    requires Succeeds(r, s, es) && k < |es|
    ensures var before := PutEntries(r, s, es, k);
            && before.Next? && Sound(before.state.tree) && PutEntry(r, before.state, es[k]).Next?
            && PutEntries(r, s, es, k + 1) == PutEntry(r, before.state, es[k])
            && Sound(PutEntries(r, s, es, k + 1).state.tree)
            && (IsIgnored(r, before.state, es[k]) <==> Skips(r, es, k))
            && Sound(PutEntries(r, s, es, |es|).state.tree) && Sound(s.tree)
  {
    assert Sound(s.tree) && s.ignored == {} && PutEntries(r, s, es, |es|).Next?;
    hide *;
    EarlierSucceeded(r, s, es, k, |es|);
    EarlierSucceeded(r, s, es, k + 1, |es|);
    TreeStaysSound(r, s, es, k);
    TreeStaysSound(r, s, es, k + 1);
    TreeStaysSound(r, s, es, |es|);
    IgnoredExactlyWhen(r, s, es, k);
    NextEntry(r, s, es, k + 1);
  }

  lemma IntendedAlike(e: Entry, m: Mode, m': Mode)
    ensures Intended(e, m).Some? <==> Intended(e, m').Some?
    ensures Intended(e, m).Some? ==> SameButMode(Intended(e, m').value, Intended(e, m).value)
  {
  }

  /** There is an object at p as there was one before, which was like x. */
  lemma LikeBefore(t: Tree, t': Tree, p: Path, x: Object)
    requires Sound(t) && Sound(t') && IsStill(t, t', p) && HasObject(t, p) && SameButMode(x, ObjectAt(t, p))
    ensures HasObject(t', p) && t'.nodes[p] == t.nodes[p] && SameButMode(x, ObjectAt(t', p))
    ensures t.nodes[p].inode < t.next
  {
  }

  lemma ObjectIsThere(t: Tree, p: Path)
    requires HasObject(t, p)
    ensures p in t.nodes && t.nodes[p].Leaf?
  {
  }

  /** The object that the entry at k made is still at its path at the end, in the same inode. */
  lemma ObjectStays(r: Request, s: State, es: seq<Entry>, k: nat)
    requires Succeeds(r, s, es) && k < |es| && !Skips(r, es, k) && Intended(es[k], es[k].mode).Some?
    requires IsSpared(r, es, k + 1, |es|, PathOf(r, es[k]))
    ensures var p, t := PathOf(r, es[k]), PutEntries(r, s, es, |es|).state.tree;
            var t1 := PutEntries(r, s, es, k + 1).state.tree;
            && HasObject(t, p) && SameButMode(Intended(es[k], es[k].mode).value, ObjectAt(t, p))
            && HasObject(t1, p) && t1.nodes[p] == t.nodes[p]
            && PutEntries(r, s, es, k).state.tree.next <= t.nodes[p].inode < t1.next
  {
    hide *;
    var p, t, t1 := PathOf(r, es[k]), PutEntries(r, s, es, |es|).state.tree, PutEntries(r, s, es, k + 1).state.tree;
    EntryTurn(r, s, es, k);
    IntendedAlike(es[k], HeaderMode(r.options, es[k]), es[k].mode);
    EntryShows(r, PutEntries(r, s, es, k).state, es[k]);
    ObjectIsThere(t1, p);
    NodeStays(r, s, es, k + 1, |es|, p);
    LikeBefore(t1, t, p, Intended(es[k], es[k].mode).value);
  }

  /** Where the hard link at k leads, when its turn comes. */
  function TargetOf(r: Request, s: State, es: seq<Entry>, k: nat): Resolution
    requires k < |es| && es[k].kind.HardLink?
  {
    var before := PutEntries(r, s, es, k).state;
    LinkTarget(r, SymlinksOf(EnsureDirectory(r, before, Parent(PathOf(r, es[k]))).state.tree), es[k].kind.linkname)
  }

  lemma LinkedStill(t: Tree, t': Tree, p: Path, q: Path)
    requires IsStill(t, t', p) && IsStill(t, t', q) && HasLeaf(t, p) && q in t.nodes && t.nodes[q] == t.nodes[p]
    ensures HasLeaf(t', p) && q in t'.nodes && t'.nodes[q] == t'.nodes[p]
  {
  }

  lemma LeafStill(t: Tree, t': Tree, p: Path)
    requires IsStill(t, t', p) && HasLeaf(t, p) && Sound(t')
    ensures HasObject(t', p)
  {
  }

  lemma LinkAtItsTurn(r: Request, s: State, es: seq<Entry>, k: nat)
    requires Succeeds(r, s, es) && k < |es| && !Skips(r, es, k) && es[k].kind.HardLink?
    ensures var t1, p, target := PutEntries(r, s, es, k + 1).state.tree, PathOf(r, es[k]), TargetOf(r, s, es, k);
            && target.Resolved? && target.path in t1.nodes && HasLeaf(t1, p) && t1.nodes[target.path] == t1.nodes[p]
            && p in t1.nodes && Sound(PutEntries(r, s, es, |es|).state.tree) && Sound(s.tree)
  {
    EntryTurn(r, s, es, k);
    hide PutEntry;
    hide PutEntries;
    hide Succeeds;
    hide EnsureDirectory;
    hide LinkTarget;
    HardLinkShows(r, PutEntries(r, s, es, k).state, es[k]);
  }

  /** A hard link is still one at the end, with what was its target if that is spared too. */
  lemma HardLinkStays(r: Request, s: State, es: seq<Entry>, k: nat)
    requires Succeeds(r, s, es) && k < |es| && !Skips(r, es, k) && es[k].kind.HardLink?
    requires IsSpared(r, es, k + 1, |es|, PathOf(r, es[k]))
    ensures var p, t, target := PathOf(r, es[k]), PutEntries(r, s, es, |es|).state.tree, TargetOf(r, s, es, k);
            && HasObject(t, p) && target.Resolved?
            && (IsSpared(r, es, k + 1, |es|, target.path) ==>
              target.path in t.nodes && p in t.nodes && t.nodes[target.path] == t.nodes[p])
  {
    hide *;
    var p, target := PathOf(r, es[k]), TargetOf(r, s, es, k);
    var t1, t := PutEntries(r, s, es, k + 1).state.tree, PutEntries(r, s, es, |es|).state.tree;
    LinkAtItsTurn(r, s, es, k);
    NodeStays(r, s, es, k + 1, |es|, p);
    LeafStill(t1, t, p);
    ObjectIsThere(t, p);
    if IsSpared(r, es, k + 1, |es|, target.path) {
      NodeStays(r, s, es, k + 1, |es|, target.path);
      LinkedStill(t1, t, p, target.path);
    }
  }

  // ------------------------------------------------------------------------- which entry decides the mode

  lemma EntryKeepsNext(r: Request, s: State, e: Entry)
    requires Sound(s.tree)
    ensures s.tree.next <= PutEntry(r, s, e).state.tree.next
  {
    EntryStaysSound(r, s, e);
    hide PutEntry;
    hide Sound;
  }

  lemma {:induction false} NextNeverShrinks(r: Request, s: State, es: seq<Entry>, j: nat, n: nat)
    requires j <= n <= |es| && Sound(s.tree)
    ensures PutEntries(r, s, es, j).state.tree.next <= PutEntries(r, s, es, n).state.tree.next
  {
    hide *;
    if j < n {
      NextNeverShrinks(r, s, es, j, n - 1);
      TreeStaysSound(r, s, es, n - 1);
      NextEntry(r, s, es, n);
      EntryKeepsNext(r, PutEntries(r, s, es, n - 1).state, es[n - 1]);
    }
  }

  lemma WhatGivesModes(r: Request, s: State, e: Entry)
    requires GivesMode(r, s, e) && !e.kind.HardLink?
    ensures Intended(e, HeaderMode(r.options, e)).Some? && PutEntry(r, s, e).Next? && !IsIgnored(r, s, e)
  {
    hide EnsureDirectory;
  }

  /** Only a hard link gives an older object a mode. */
  lemma OnlyLinksSetOlder(r: Request, s: State, e: Entry, i: nat)
    requires !e.kind.HardLink? && i < s.tree.next
    ensures !SetsModeOf(r, s, e, i)
  {
    if GivesMode(r, s, e) {
      WhatGivesModes(r, s, e);
      EntryShows(r, s, e);
    }
    hide PutEntry;
    hide GivesMode;
  }

  lemma {:induction false} DecidedByItself(r: Request, s: State, es: seq<Entry>, k: nat, n: nat, i: nat)
    requires Sound(s.tree) && k < n <= |es| && i < PutEntries(r, s, es, k + 1).state.tree.next
    requires SetsModeOf(r, PutEntries(r, s, es, k).state, es[k], i)
    requires forall j :: k < j < n ==> !es[j].kind.HardLink?
    ensures DecidedMode(r, s, es, n, i) == Some(HeaderMode(r.options, es[k]))
  {
    hide *;
    NextDecidedMode(r, s, es, n, i);
    if k < n - 1 {
      DecidedByItself(r, s, es, k, n - 1, i);
      NextNeverShrinks(r, s, es, k + 1, n - 1);
      OnlyLinksSetOlder(r, PutEntries(r, s, es, n - 1).state, es[n - 1], i);
    }
  }

  lemma {:induction false} DecidedSometime(r: Request, s: State, es: seq<Entry>, k: nat, n: nat, i: nat)
    requires k < n <= |es| && SetsModeOf(r, PutEntries(r, s, es, k).state, es[k], i)
    ensures DecidedMode(r, s, es, n, i).Some?
  {
    hide *;
    NextDecidedMode(r, s, es, n, i);
    if k < n - 1 {
      DecidedSometime(r, s, es, k, n - 1, i);
    }
  }
}
