/**
 The modes that files and directories end with when a privileged extractor is done, told
 from the archive: for every archive, with hard links and with symbolic links that have
 taken the place of directories.
 */
module PutFinalModes {
  import opened Optional
  import opened Paths
  import opened FileTree
  import opened SymlinkResolution
  import opened CopierPut
  import opened ModeSetting
  import opened PutClosure
  import opened PutModes
  import opened PutContents
  import opened PutArchive
  import opened PutReading

  // ---------------------------------------------------------------------------------- one inode for each

  lemma BeginKeepsNext(r: Request, t0: Tree)
    ensures Begin(r, t0).state.tree.next == t0.next
  {
    EnsureDirectoryKeepsNext(r, State(t0, map[], {}), r.target);
    hide EnsureDirectory;
  }

  lemma OriginalIsOlder(r: Request, t0: Tree, es: seq<Entry>, i: nat, k: nat)
    requires k <= |es| && IsDone(r, t0, es, k) && i in t0.objects
    ensures i < After(r, t0, es, k).tree.next
  {
    DoneIs(r, t0, es, k);
    WellFormedIs(t0);
    assert i < t0.next;
    hide *;
    BeginIsSound(r, t0);
    BeginKeepsNext(r, t0);
    NoEntry(r, Begin(r, t0).state, es);
    NextNeverShrinks(r, Begin(r, t0).state, es, 0, k);
  }

  lemma EarlierIsOlder(r: Request, t0: Tree, es: seq<Entry>, k: nat, j: nat)
    requires k < j <= |es| && IsDone(r, t0, es, j) && !Skips(r, es, k) && Intended(es[k], es[k].mode).Some?
    ensures After(r, t0, es, k).tree.next < After(r, t0, es, j).tree.next
  {
    hide *;
    DoneIs(r, t0, es, j);
    WellFormedIs(t0);
    BeginIsSound(r, t0);
    DoneBefore(r, t0, es, k + 1, j);
    DoneIs(r, t0, es, k + 1);
    MadeIs(r, t0, es, k);
    NextNeverShrinks(r, Begin(r, t0).state, es, k + 1, j);
  }

  /** Objects that come from different places are different. */
  lemma InodesDiffer(r: Request, t0: Tree, es: seq<Entry>, n: nat, o: Origin, o': Origin)
    requires n <= |es| && IsDone(r, t0, es, n) && IsBorn(r, t0, es, n, o) && IsBorn(r, t0, es, n, o')
    requires InodeOf(r, t0, es, o) == InodeOf(r, t0, es, o')
    ensures o == o'
  {
    InodeIs(r, t0, es, o);
    InodeIs(r, t0, es, o');
    hide InodeOf;
    hide After;
    hide IsDone;
    hide Skips;
    hide Intended;
    if o.Made? && o'.Made? && o.k < o'.k {
      DoneBefore(r, t0, es, o'.k, n);
      EarlierIsOlder(r, t0, es, o.k, o'.k);
    } else if o.Made? && o'.Made? && o'.k < o.k {
      DoneBefore(r, t0, es, o.k, n);
      EarlierIsOlder(r, t0, es, o'.k, o.k);
    } else if o.Made? && o'.Original? {
      DoneBefore(r, t0, es, o.k, n);
      OriginalIsOlder(r, t0, es, o'.inode, o.k);
    } else if o.Original? && o'.Made? {
      DoneBefore(r, t0, es, o'.k, n);
      OriginalIsOlder(r, t0, es, o.inode, o'.k);
    }
  }

  // -------------------------------------------------------------------------------- the mode decided last

  /** The entry at k gives the object a mode. */
  predicate GivesModeTo(r: Request, t0: Tree, es: seq<Entry>, k: nat, o: Origin)
    requires k < |es|
  {
    Acts(r, es, k) && !es[k].kind.SymbolicLink? && !es[k].kind.Dir? && PutBy(r, t0, es, k) == Item(o)
  }

  /** The mode that the last of the first n entries to give the object one gave it. */
  function DecidedBy(r: Request, t0: Tree, es: seq<Entry>, n: nat, o: Origin): Option<Mode>
    requires n <= |es|
  {
    if n == 0 then None
    else if GivesModeTo(r, t0, es, n - 1, o) then Some(HeaderMode(r.options, es[n - 1]))
    else DecidedBy(r, t0, es, n - 1, o)
  }

  /** What the entry at k puts at its path is what is there then. */
  lemma PutIsThere(r: Request, t0: Tree, es: seq<Entry>, k: nat)
    requires k < |es| && IsDone(r, t0, es, k + 1) && Acts(r, es, k)
    ensures Fits(r, t0, es, k + 1, After(r, t0, es, k + 1).tree, PutBy(r, t0, es, k), PathOf(r, es[k]))
  {
    ReadingIsRight(r, t0, es, k + 1);
    WhatNext(r, t0, es, k, PathOf(r, es[k]));
    NamedActs(r, es, k);
    hide What;
    hide After;
    hide Fits;
    hide PutBy;
    hide Acts;
    var t, p := After(r, t0, es, k + 1).tree, PathOf(r, es[k]);
    assert Fits(r, t0, es, k + 1, t, What(r, t0, es, k + 1, p), p);
  }

  lemma FitsSame(r: Request, t0: Tree, es: seq<Entry>, n: nat, t: Tree, x: Thing, p: Path, o: Origin)
    requires n <= |es| && IsDone(r, t0, es, n) && IsBorn(r, t0, es, n, o)
    requires Fits(r, t0, es, n, t, x, p)
    ensures x == Item(o) <==> p in t.nodes && t.nodes[p] == Leaf(InodeOf(r, t0, es, o))
  {
    if x.Item? && InodeOf(r, t0, es, x.origin) == InodeOf(r, t0, es, o) {
      InodesDiffer(r, t0, es, n, x.origin, o);
    }
    hide InodeOf;
    hide IsBorn;
    hide IsDone;
  }

  lemma FitsLater(r: Request, t0: Tree, es: seq<Entry>, k: nat, n: nat, t: Tree, x: Thing, p: Path)
    requires k <= n && Fits(r, t0, es, k, t, x, p)
    ensures Fits(r, t0, es, n, t, x, p)
  {
    hide InodeOf;
  }

  /** Which entry gives which object a mode can be read. */
  lemma SetsModeIsRead(r: Request, t0: Tree, es: seq<Entry>, k: nat, n: nat, o: Origin)
    requires k < n <= |es| && IsDone(r, t0, es, n) && IsBorn(r, t0, es, n, o)
    ensures SetsModeOf(r, After(r, t0, es, k), es[k], InodeOf(r, t0, es, o)) <==> GivesModeTo(r, t0, es, k, o)
  {
    DoneBefore(r, t0, es, k + 1, n);
    Turn(r, t0, es, k);
    var s, t, p := After(r, t0, es, k), After(r, t0, es, k + 1).tree, PathOf(r, es[k]);
    hide PutEntry;
    hide After;
    hide PutBy;
    hide Skips;
    hide InodeOf;
    hide IsDone;
    if Acts(r, es, k) {
      PutIsThere(r, t0, es, k);
      FitsLater(r, t0, es, k + 1, n, t, PutBy(r, t0, es, k), p);
      FitsSame(r, t0, es, n, t, PutBy(r, t0, es, k), p, o);
    }
    hide Fits;
    hide IsBorn;
  }

  lemma DecidedByNext(r: Request, t0: Tree, es: seq<Entry>, n: nat, o: Origin)
    requires n <= |es|
    ensures DecidedBy(r, t0, es, n, o) ==
      if n == 0 then None
      else if GivesModeTo(r, t0, es, n - 1, o) then Some(HeaderMode(r.options, es[n - 1]))
      else DecidedBy(r, t0, es, n - 1, o)
  {
    hide GivesModeTo;
  }

  lemma AfterIs(r: Request, t0: Tree, es: seq<Entry>, n: nat)
    requires n <= |es|
    ensures After(r, t0, es, n) == PutEntries(r, Begin(r, t0).state, es, n).state
  {
    hide PutEntries;
  }

  /** The modes that are decided can be read. */
  lemma {:induction false} DecidedIsRead(r: Request, t0: Tree, es: seq<Entry>, k: nat, n: nat, o: Origin)
    requires k <= n <= |es| && IsDone(r, t0, es, n) && IsBorn(r, t0, es, n, o)
    ensures DecidedMode(r, Begin(r, t0).state, es, k, InodeOf(r, t0, es, o)) == DecidedBy(r, t0, es, k, o)
    decreases k
  {
    hide *;
    var begun, i := Begin(r, t0).state, InodeOf(r, t0, es, o);
    DecidedByNext(r, t0, es, k, o);
    if k == 0 {
      NoDecidedMode(r, begun, es, i);
    } else {
      DecidedIsRead(r, t0, es, k - 1, n, o);
      NextDecidedMode(r, begun, es, k, i);
      AfterIs(r, t0, es, k - 1);
      SetsModeIsRead(r, t0, es, k - 1, n, o);
    }
  }

  // --------------------------------------------------------------------------------- the outline is read

  function OutlineAt(r: Request, t0: Tree, es: seq<Entry>, n: nat): Outline
    requires n <= |es|
  {
    var passable := set p | p in Mentioned(r, t0, es, n) && What(r, t0, es, n, p).Folder?;
    var names := set p | p in Mentioned(r, t0, es, n) && !What(r, t0, es, n, p).Gone?;
    Outline(passable, LinksAt(r, t0, es, n), names)
  }

  lemma FitsKinds(r: Request, t0: Tree, es: seq<Entry>, n: nat, t: Tree, x: Thing, p: Path)
    requires Fits(r, t0, es, n, t, x, p)
    ensures (x.Gone? <==> p !in t.nodes) && (x.Folder? <==> IsDirectory(t, p))
  {
    hide InodeOf;
    hide IsBorn;
  }

  /** Where paths lead can be told from the archive. */
  lemma OutlineIsRead(r: Request, t0: Tree, es: seq<Entry>, n: nat)
    requires n <= |es| && IsDone(r, t0, es, n)
    ensures OutlineOf(After(r, t0, es, n).tree, true) == OutlineAt(r, t0, es, n)
  {
    var t := After(r, t0, es, n).tree;
    ReadingIsRight(r, t0, es, n);
    LinksMatch(r, t0, es, n);
    hide After;
    hide What;
    hide LinksAt;
    hide SymlinksOf;
    hide Mentioned;
    forall p
      ensures p in t.nodes <==> p in Mentioned(r, t0, es, n) && !What(r, t0, es, n, p).Gone?
      ensures IsDirectory(t, p) <==> p in Mentioned(r, t0, es, n) && What(r, t0, es, n, p).Folder?
    {
      assert Fits(r, t0, es, n, t, What(r, t0, es, n, p), p);
      FitsKinds(r, t0, es, n, t, What(r, t0, es, n, p), p);
      if !What(r, t0, es, n, p).Gone? {
        OnlyMentioned(r, t0, es, n, p);
      }
    }
    hide Fits;
    var o, o' := OutlineOf(t, true), OutlineAt(r, t0, es, n);
    assert o.names == o'.names;
    assert forall p :: p in o.passable <==> IsDirectory(t, p);
    assert o.passable == o'.passable;
  }

  // -------------------------------------------------------------------------------------- files and such

  lemma EndsAre(r: Request, t0: Tree, es: seq<Entry>, t: Tree)
    requires IsDone(r, t0, es, |es|)
    ensures var s := After(r, t0, es, |es|);
            Ends(r, t0, es, t) <==> ModesAreSet(s.tree, s.modes, true, t)
  {
    DoneIs(r, t0, es, |es|);
    WellFormedIs(t0);
    hide PutEntries;
    hide Begin;
    hide Sound;
    hide ModesAreSet;
  }

  /** A mode is noted for q, and setting it sets that of the object. */
  predicate NotedFor(r: Request, t0: Tree, es: seq<Entry>, q: Path, o: Origin) {
    var x := Find(OutlineAt(r, t0, es, |es|), q);
    NoteOf(r, t0, es, |es|, q).Some? && x.Some? && What(r, t0, es, |es|, x.value) == Item(o)
  }

  /** The mode of an object before the noted ones are set: decided last, or that which it had. */
  function OwnMode(r: Request, t0: Tree, es: seq<Entry>, o: Origin): Option<Mode> {
    var m := DecidedBy(r, t0, es, |es|, o);
    if m.Some? then m
    else if o.Original? && o.inode in t0.objects && !t0.objects[o.inode].Symlink? then
      Some(t0.objects[o.inode].mode)
    else None
  }

  /** All modes that are noted for paths which lead to the object are m; if there are none, its own is m. */
  ghost predicate GetsModeAsRead(r: Request, t0: Tree, es: seq<Entry>, o: Origin, m: Mode) {
    && (forall q :: NotedFor(r, t0, es, q, o) ==> NoteOf(r, t0, es, |es|, q) == Some(m))
    && (OwnMode(r, t0, es, o) == Some(m) || exists q :: NotedFor(r, t0, es, q, o))
  }

  /** The notes for an object, as they are read and as they are. */
  lemma NotedIsRead(r: Request, t0: Tree, es: seq<Entry>, o: Origin, q: Path)
    requires IsDone(r, t0, es, |es|) && IsBorn(r, t0, es, |es|, o)
    ensures var s, i := After(r, t0, es, |es|), InodeOf(r, t0, es, o);
            && (NotedFor(r, t0, es, q, o) <==> q in s.modes && LeadsTo(s.tree, q, Of(i)))
            && (q in s.modes ==> NoteOf(r, t0, es, |es|, q) == Some(s.modes[q]))
  {
    var s := After(r, t0, es, |es|);
    NotesAreRight(r, t0, es, |es|);
    assert NoteMatches(r, t0, es, |es|, q);
    OutlineIsRead(r, t0, es, |es|);
    ReadingIsRight(r, t0, es, |es|);
    var x := Find(OutlineAt(r, t0, es, |es|), q);
    hide After;
    hide Find;
    hide OutlineAt;
    hide OutlineOf;
    hide What;
    hide NoteOf;
    hide IsDone;
    hide InodeOf;
    if x.Some? {
      FitsSame(r, t0, es, |es|, s.tree, What(r, t0, es, |es|, x.value), x.value, o);
    }
    hide Fits;
    hide IsBorn;
  }

  lemma GetsIsRead(r: Request, t0: Tree, es: seq<Entry>, o: Origin, m: Mode)
    requires IsDone(r, t0, es, |es|) && IsBorn(r, t0, es, |es|, o)
    requires var s, i := After(r, t0, es, |es|), InodeOf(r, t0, es, o);
             HasPlace(s.tree, Of(i)) && OwnMode(r, t0, es, o) == Some(ModeAt(s.tree, Of(i)))
    ensures var s, i := After(r, t0, es, |es|), InodeOf(r, t0, es, o);
            GetsModeAsRead(r, t0, es, o, m) <==> PlaceGets(s.tree, s.modes, Of(i), m)
  {
    var s, i := After(r, t0, es, |es|), InodeOf(r, t0, es, o);
    hide After;
    hide InodeOf;
    hide NotedFor;
    hide NoteOf;
    hide LeadsTo;
    hide IsDone;
    hide OwnMode;
    hide IsBorn;
    hide HasPlace;
    hide ModeAt;
    forall q
      ensures NotedFor(r, t0, es, q, o) <==> q in s.modes && LeadsTo(s.tree, q, Of(i))
      ensures q in s.modes ==> NoteOf(r, t0, es, |es|, q) == Some(s.modes[q])
    {
      NotedIsRead(r, t0, es, o, q);
    }
  }

  /** What the object is like before the noted modes are set. */
  lemma OwnModeIs(r: Request, t0: Tree, es: seq<Entry>, o: Origin)
    requires IsDone(r, t0, es, |es|) && IsBorn(r, t0, es, |es|, o) && !ObjectOf(t0, es, o).Symlink?
    ensures var t, i := After(r, t0, es, |es|).tree, InodeOf(r, t0, es, o);
            && HasPlace(t, Of(i)) && SameButMode(ObjectOf(t0, es, o), t.objects[i])
            && (OwnMode(r, t0, es, o).Some? ==> OwnMode(r, t0, es, o).value == ModeAt(t, Of(i)))
  {
    var begun, i, t := Begin(r, t0).state, InodeOf(r, t0, es, o), After(r, t0, es, |es|).tree;
    DoneIs(r, t0, es, |es|);
    WellFormedIs(t0);
    BeginIsSound(r, t0);
    OriginIs(r, t0, es, |es|, o);
    DecidedIsRead(r, t0, es, |es|, |es|, o);
    LastModeDecides(r, begun, es, |es|, i);
    InodeIs(r, t0, es, o);
    BeginKeepsModes(r, t0);
    hide PutEntries;
    hide Begin;
    hide DecidedMode;
    hide DecidedBy;
    hide InodeOf;
    hide After;
    hide IsDone;
    hide Sound;
  }

  lemma BeginKeepsModes(r: Request, t0: Tree)
    requires Sound(t0)
    ensures var t := Begin(r, t0).state.tree;
            forall i :: i in t0.objects ==> i in t.objects && t.objects[i] == t0.objects[i]
  {
    EnsureDirectoryTouches(r, State(t0, map[], {}), r.target, r.target, false);
    hide EnsureDirectory;
    hide NodesTouched;
  }

  lemma {:induction false} MadeIsDecided(r: Request, t0: Tree, es: seq<Entry>, k: nat, n: nat)
    requires k < n <= |es| && !Skips(r, es, k) && Intended(es[k], es[k].mode).Some? && !es[k].kind.SymbolicLink?
    ensures DecidedBy(r, t0, es, n, Made(k)).Some?
  {
    DecidedByNext(r, t0, es, n, Made(k));
    hide DecidedBy;
    if n == k + 1 {
      hide What;
      hide Skips;
    } else {
      MadeIsDecided(r, t0, es, k, n - 1);
    }
  }

  lemma HasOwnMode(r: Request, t0: Tree, es: seq<Entry>, o: Origin)
    requires IsBorn(r, t0, es, |es|, o) && !ObjectOf(t0, es, o).Symlink?
    ensures OwnMode(r, t0, es, o).Some?
  {
    if o.Made? {
      MadeIsDecided(r, t0, es, o.k, |es|);
    }
    hide DecidedBy;
  }

  predicate HasMode(x: Object, m: Mode) {
    !x.Symlink? && x.mode == m
  }

  lemma BornItem(r: Request, t0: Tree, es: seq<Entry>, p: Path, o: Origin)
    requires IsDone(r, t0, es, |es|) && What(r, t0, es, |es|, p) == Item(o)
    ensures var t := After(r, t0, es, |es|).tree;
            IsBorn(r, t0, es, |es|, o) && p in t.nodes && t.nodes[p] == Leaf(InodeOf(r, t0, es, o))
  {
    ReadingIsRight(r, t0, es, |es|);
    hide After;
    hide What;
    hide InodeOf;
    hide IsDone;
    assert Fits(r, t0, es, |es|, After(r, t0, es, |es|).tree, What(r, t0, es, |es|, p), p);
  }

  /** At the end too, the object is at p: what it was, or what its entry made it, but for its mode. */
  lemma ContentsAsRead(r: Request, t0: Tree, es: seq<Entry>, p: Path, o: Origin, t: Tree)
    requires IsDone(r, t0, es, |es|) && What(r, t0, es, |es|, p) == Item(o) && Ends(r, t0, es, t)
    ensures IsBorn(r, t0, es, |es|, o) && HasObject(t, p) && SameButMode(ObjectOf(t0, es, o), ObjectAt(t, p))
    ensures t.nodes[p].inode == InodeOf(r, t0, es, o)
  {
    var s := After(r, t0, es, |es|);
    BornItem(r, t0, es, p, o);
    OriginIs(r, t0, es, |es|, o);
    EndsAre(r, t0, es, t);
    hide Ends;
    hide After;
    hide What;
    hide InodeOf;
    hide IsDone;
    hide IsBorn;
    SetKeepsShape(s.tree, s.modes, true, t);
    hide ModesAreSet;
  }

  lemma ModeAtPath(t: Tree, p: Path, i: nat, m: Mode)
    requires p in t.nodes && t.nodes[p] == Leaf(i) && HasPlace(t, Of(i))
    ensures HasObject(t, p) && (HasMode(ObjectAt(t, p), m) <==> ModeAt(t, Of(i)) == m)
  {
  }

  /**
   For every archive that a privileged extractor extracts, and everything at its end that is
   neither a directory nor a symbolic link: whatever the order in which modes are set, it
   has mode m exactly when m is what is noted for all paths that lead to it, through whatever
   links, or if there are none, what the last entry for one of its names has given it.
   */
  lemma FileModeExactlyWhen(r: Request, t0: Tree, es: seq<Entry>, p: Path, o: Origin, m: Mode)
    requires IsDone(r, t0, es, |es|) && What(r, t0, es, |es|, p) == Item(o) && !IsLink(t0, es, Item(o))
    ensures (forall t :: Ends(r, t0, es, t) ==> HasObject(t, p) && HasMode(ObjectAt(t, p), m)) <==>
      GetsModeAsRead(r, t0, es, o, m)
  {
    var s, i := After(r, t0, es, |es|), InodeOf(r, t0, es, o);
    BornItem(r, t0, es, p, o);
    LinkOrigin(r, t0, es, |es|, o);
    OwnModeIs(r, t0, es, o);
    HasOwnMode(r, t0, es, o);
    GetsIsRead(r, t0, es, o, m);
    PlaceExactlyWhen(s.tree, s.modes, Of(i), m);
    hide *;
    forall t
      ensures Ends(r, t0, es, t) ==> HasPlace(t, Of(i))
      ensures Ends(r, t0, es, t) ==> HasObject(t, p) && (HasMode(ObjectAt(t, p), m) <==> ModeAt(t, Of(i)) == m)
      ensures Ends(r, t0, es, t) <==> ModesAreSet(s.tree, s.modes, true, t)
    {
      EndsAre(r, t0, es, t);
      if Ends(r, t0, es, t) {
        PlaceStays(s.tree, s.modes, t, p, i);
        ModeAtPath(t, p, i, m);
      }
    }
  }

  lemma PlaceStays(t: Tree, modes: map<Path, Mode>, t': Tree, p: Path, i: nat)
    requires ModesAreSet(t, modes, true, t') && p in t.nodes && t.nodes[p] == Leaf(i) && HasPlace(t, Of(i))
    ensures p in t'.nodes && t'.nodes[p] == Leaf(i) && HasPlace(t', Of(i))
  {
    SetKeepsShape(t, modes, true, t');
    hide ModesAreSet;
  }

  lemma IntendedHasMode(e: Entry, x: Object, m: Mode)
    requires Intended(e, e.mode).Some? && !e.kind.SymbolicLink? && SameButMode(Intended(e, e.mode).value, x)
    ensures Intended(e, m) == Some(x) <==> HasMode(x, m)
  {
  }

  lemma MadeObject(t0: Tree, es: seq<Entry>, k: nat)
    requires k < |es| && Intended(es[k], es[k].mode).Some?
    ensures ObjectOf(t0, es, Made(k)) == Intended(es[k], es[k].mode).value
    ensures IsLink(t0, es, Item(Made(k))) <==> es[k].kind.SymbolicLink?
  {
  }

  lemma BornIs(r: Request, t0: Tree, es: seq<Entry>, n: nat, k: nat)
    requires IsBorn(r, t0, es, n, Made(k))
    ensures k < |es| && Intended(es[k], es[k].mode).Some?
  {
  }

  /** A file, device or pipe whose entry is the last word about its path: when it ends with its header's mode. */
  lemma FileKeepsItsModeExactlyWhen(r: Request, t0: Tree, es: seq<Entry>, k: nat)
    requires IsDone(r, t0, es, |es|) && k < |es| && !es[k].kind.SymbolicLink?
    requires What(r, t0, es, |es|, PathOf(r, es[k])) == Item(Made(k))
    ensures var p, m := PathOf(r, es[k]), HeaderMode(r.options, es[k]);
            (forall t :: Ends(r, t0, es, t) ==> HasObject(t, p) && Intended(es[k], m) == Some(ObjectAt(t, p))) <==>
            GetsModeAsRead(r, t0, es, Made(k), m)
  {
    hide *;
    var p, m := PathOf(r, es[k]), HeaderMode(r.options, es[k]);
    BornItem(r, t0, es, p, Made(k));
    BornIs(r, t0, es, |es|, k);
    MadeObject(t0, es, k);
    FileModeExactlyWhen(r, t0, es, p, Made(k), m);
    forall t
      ensures Ends(r, t0, es, t) ==> HasObject(t, p)
      ensures Ends(r, t0, es, t) ==> (Intended(es[k], m) == Some(ObjectAt(t, p)) <==> HasMode(ObjectAt(t, p), m))
    {
      if Ends(r, t0, es, t) {
        ContentsAsRead(r, t0, es, p, Made(k), t);
        IntendedHasMode(es[k], ObjectAt(t, p), m);
      }
    }
  }

  // ----------------------------------------------------------------------------------------- directories

  /** A directory for which nothing is noted is one that was there before, as it was. */
  ghost predicate UnnotedAreOld(t0: Tree, s: State) {
    forall p :: IsDirectory(s.tree, p) && p !in s.modes ==> p in t0.nodes && t0.nodes[p] == s.tree.nodes[p]
  }

  lemma EntryKeepsOld(r: Request, t0: Tree, s: State, e: Entry)
    requires r.privileged && Closed(s.tree) && PutEntry(r, s, e).Next? && UnnotedAreOld(t0, s)
    ensures UnnotedAreOld(t0, PutEntry(r, s, e).state)
  {
    if !e.name.End? {
      EntryNodes(r, s, e, EnsureDirectory(r, s, Parent(PathOf(r, e))).state);
      hide PutEntry;
      hide EnsureDirectory;
      hide Within;
    }
  }

  lemma BeginKeepsOld(r: Request, t0: Tree)
    requires WellFormed(t0) && Begin(r, t0).Next?
    ensures UnnotedAreOld(t0, Begin(r, t0).state)
  {
    if r.target !in t0.nodes {
      EnsuresAll(r, State(t0, map[], {}), r.target);
    }
    hide EnsureDirectory;
    hide Within;
  }

  lemma {:induction false} OldAreKept(r: Request, t0: Tree, es: seq<Entry>, n: nat)
    requires n <= |es| && IsDone(r, t0, es, n)
    ensures UnnotedAreOld(t0, After(r, t0, es, n))
  {
    hide *;
    if n == 0 {
      DoneIs(r, t0, es, 0);
      BeginKeepsOld(r, t0);
      NoEntry(r, Begin(r, t0).state, es);
    } else {
      Turn(r, t0, es, n - 1);
      OldAreKept(r, t0, es, n - 1);
      EntryKeepsOld(r, t0, After(r, t0, es, n - 1), es[n - 1]);
    }
  }

  /** A mode is noted for q, and setting it sets that of the directory d. */
  predicate NotedForDirectory(r: Request, t0: Tree, es: seq<Entry>, q: Path, d: Path) {
    NoteOf(r, t0, es, |es|, q).Some? && Find(OutlineAt(r, t0, es, |es|), q) == Some(d)
  }

  ghost predicate DirectoryGetsModeAsRead(r: Request, t0: Tree, es: seq<Entry>, d: Path, m: Mode) {
    && (forall q :: NotedForDirectory(r, t0, es, q, d) ==> NoteOf(r, t0, es, |es|, q) == Some(m))
    && ((IsDirectory(t0, d) && t0.nodes[d].mode == m) || exists q :: NotedForDirectory(r, t0, es, q, d))
  }

  lemma NotedForIsRead(r: Request, t0: Tree, es: seq<Entry>, d: Path, q: Path)
    requires IsDone(r, t0, es, |es|) && IsDirectory(After(r, t0, es, |es|).tree, d)
    ensures var s := After(r, t0, es, |es|);
            && (NotedForDirectory(r, t0, es, q, d) <==> q in s.modes && LeadsTo(s.tree, q, At(d)))
            && (q in s.modes ==> NoteOf(r, t0, es, |es|, q) == Some(s.modes[q]))
            && (d in s.modes ==> NotedForDirectory(r, t0, es, d, d))
  {
    var s := After(r, t0, es, |es|);
    NotesAreRight(r, t0, es, |es|);
    assert NoteMatches(r, t0, es, |es|, q) && NoteMatches(r, t0, es, |es|, d);
    OutlineIsRead(r, t0, es, |es|);
    DoneIsClosed(r, t0, es, |es|);
    FindsItself(s.tree, d, true);
    hide After;
    hide Find;
    hide OutlineAt;
    hide OutlineOf;
    hide NoteOf;
    hide IsDone;
    hide Closed;
  }

  lemma DoneIsClosed(r: Request, t0: Tree, es: seq<Entry>, n: nat)
    requires n <= |es| && IsDone(r, t0, es, n)
    ensures Closed(After(r, t0, es, n).tree)
  {
    hide *;
    DoneIs(r, t0, es, n);
    WellFormedIs(t0);
    BeginCloses(r, t0);
    EntriesClose(r, Begin(r, t0).state, es, n);
  }

  lemma DirectoryGetsIsRead(r: Request, t0: Tree, es: seq<Entry>, d: Path, m: Mode)
    requires IsDone(r, t0, es, |es|) && IsDirectory(After(r, t0, es, |es|).tree, d)
    ensures var s := After(r, t0, es, |es|);
            && HasPlace(s.tree, At(d))
            && (DirectoryGetsModeAsRead(r, t0, es, d, m) <==> PlaceGets(s.tree, s.modes, At(d), m))
  {
    var s := After(r, t0, es, |es|);
    OldAreKept(r, t0, es, |es|);
    hide After;
    hide NotedForDirectory;
    hide NoteOf;
    hide LeadsTo;
    hide IsDone;
    forall q
      ensures NotedForDirectory(r, t0, es, q, d) <==> q in s.modes && LeadsTo(s.tree, q, At(d))
      ensures q in s.modes ==> NoteOf(r, t0, es, |es|, q) == Some(s.modes[q])
    {
      NotedForIsRead(r, t0, es, d, q);
    }
    NotedForIsRead(r, t0, es, d, d);
  }

  lemma FolderIs(r: Request, t0: Tree, es: seq<Entry>, d: Path)
    requires IsDone(r, t0, es, |es|) && What(r, t0, es, |es|, d).Folder?
    ensures IsDirectory(After(r, t0, es, |es|).tree, d)
  {
    ReadingIsRight(r, t0, es, |es|);
    hide After;
    hide What;
    hide IsDone;
    assert Fits(r, t0, es, |es|, After(r, t0, es, |es|).tree, What(r, t0, es, |es|, d), d);
  }

  /** The same for directories: symbolic links that have taken the place of other ones may lead there. */
  lemma DirectoryModeExactlyWhen(r: Request, t0: Tree, es: seq<Entry>, d: Path, m: Mode)
    requires IsDone(r, t0, es, |es|) && What(r, t0, es, |es|, d).Folder?
    ensures (forall t :: Ends(r, t0, es, t) ==> IsDirectory(t, d) && t.nodes[d].mode == m) <==>
      DirectoryGetsModeAsRead(r, t0, es, d, m)
  {
    var s := After(r, t0, es, |es|);
    FolderIs(r, t0, es, d);
    DirectoryGetsIsRead(r, t0, es, d, m);
    PlaceExactlyWhen(s.tree, s.modes, At(d), m);
    hide PlaceGets;
    hide DirectoryGetsModeAsRead;
    hide After;
    hide What;
    hide Ends;
    hide ModesAreSet;
    hide IsDone;
    forall t
      ensures Ends(r, t0, es, t) <==> ModesAreSet(s.tree, s.modes, true, t)
    {
      EndsAre(r, t0, es, t);
    }
  }
}
