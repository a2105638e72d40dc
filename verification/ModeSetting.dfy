/**
 Setting the noted modes when an extraction ends: in any order, through symbolic links, and
 with errors ignored.
 */
module ModeSetting {
  import opened Optional
  import opened Paths
  import opened FileTree
  import opened SymlinkResolution
  import opened CopierPut

  // -------------------------------------------------------------------------------- what does not change

  /** Nothing but modes differs. */
  ghost predicate SameShape(t: Tree, t': Tree) {
    && t'.nodes.Keys == t.nodes.Keys && t'.objects.Keys == t.objects.Keys && t'.next == t.next
    && (forall p :: p in t.nodes ==> SameNode(t.nodes[p], t'.nodes[p]))
    && (forall i :: i in t.objects ==> SameButMode(t.objects[i], t'.objects[i]))
  }

  lemma ChmodKeepsShape(t: Tree, p: Path, m: Mode)
    ensures SameShape(t, Chmod(t, p, m))
  {
  }

  lemma ShapeTwice(t: Tree, t': Tree, t'': Tree)
    requires SameShape(t, t') && SameShape(t', t'')
    ensures SameShape(t, t'')
  {
  }

  lemma TryChmodKeepsShape(t: Tree, p: Path, m: Mode, privileged: bool)
    ensures SameShape(t, TryChmod(t, p, m, privileged))
  {
    var q := Find(OutlineOf(t, privileged), p);
    if q.Some? {
      ChmodKeepsShape(t, q.value, m);
    }
    hide Find;
    hide Chmod;
  }

  lemma {:induction false} SettingKeepsShape(t: Tree, modes: map<Path, Mode>, order: seq<Path>, privileged: bool)
    requires forall p :: p in order ==> p in modes
    ensures SameShape(t, SetInOrder(t, modes, order, privileged))
  {
    hide TryChmod;
    if order != [] {
      var p, before := order[|order| - 1], order[..|order| - 1];
      hide SameShape;
      SettingKeepsShape(t, modes, before, privileged);
      var t1 := SetInOrder(t, modes, before, privileged);
      TryChmodKeepsShape(t1, p, modes[p], privileged);
      ShapeTwice(t, t1, TryChmod(t1, p, modes[p], privileged));
    }
  }

  lemma SetKeepsShape(t: Tree, modes: map<Path, Mode>, privileged: bool, t': Tree)
    requires ModesAreSet(t, modes, privileged, t')
    ensures SameShape(t, t')
  {
    var order :| IsOrder(order, modes.Keys) && t' == SetInOrder(t, modes, order, privileged);
    SettingKeepsShape(t, modes, order, privileged);
  }

  /** To the privileged, paths lead where they led. */
  lemma SameOutline(t: Tree, t': Tree)
    requires SameShape(t, t')
    ensures OutlineOf(t', true) == OutlineOf(t, true) && SymlinksOf(t') == SymlinksOf(t)
  {
    assert SymlinksOf(t').Keys == SymlinksOf(t).Keys;
  }

  // ------------------------------------------------------------------------------------ where paths lead

  /** Something that has a mode: a directory, or an object other than a symbolic link. */
  datatype Place = At(directory: Path) | Of(inode: nat)

  predicate HasPlace(t: Tree, x: Place) {
    match x
    case At(d) => IsDirectory(t, d)
    case Of(i) => i in t.objects && !t.objects[i].Symlink?
  }

  function ModeAt(t: Tree, x: Place): Mode
    requires HasPlace(t, x)
  {
    match x
    case At(d) => t.nodes[d].mode
    case Of(i) => t.objects[i].mode
  }

  predicate IsAt(t: Tree, q: Path, x: Place) {
    q in t.nodes && x == match t.nodes[q] case Directory(_) => At(q) case Leaf(i) => Of(i)
  }

  /** Setting the mode of p, if it can be done at all, sets the mode there. */
  predicate LeadsTo(t: Tree, p: Path, x: Place) {
    var q := Find(OutlineOf(t, true), p);
    q.Some? && IsAt(t, q.value, x)
  }

  lemma {:induction false} LocateIsNoLink(o: Outline, cwd: Path, cs: Raw, budget: nat)
    requires Locate(o, cwd, cs, budget).Some?
    ensures var q := Locate(o, cwd, cs, budget).value; q in o.names && q !in o.links
    decreases budget, cs
  {
    if cs.Seg? {
      var next := Push(cwd, cs.first);
      if cs.first.Name? && next in o.links {
        var from := if IsAbsolute(o.links[next]) then Top else cwd;
        LocateIsNoLink(o, from, Append(o.links[next], cs.rest), budget - 1);
      } else {
        LocateIsNoLink(o, next, cs.rest, budget);
      }
    }
  }

  /** Who may search more finds the same, or more. */
  lemma {:induction false} LocateMore(o: Outline, o': Outline, cwd: Path, cs: Raw, budget: nat)
    requires o.passable <= o'.passable && o.links == o'.links && o.names == o'.names
    requires Locate(o, cwd, cs, budget).Some?
    ensures Locate(o', cwd, cs, budget) == Locate(o, cwd, cs, budget)
    decreases budget, cs
  {
    if cs.Seg? {
      var next := Push(cwd, cs.first);
      if cs.first.Name? && next in o.links {
        var from := if IsAbsolute(o.links[next]) then Top else cwd;
        LocateMore(o, o', from, Append(o.links[next], cs.rest), budget - 1);
      } else {
        LocateMore(o, o', next, cs.rest, budget);
      }
    }
  }

  lemma FoundAlike(t: Tree, p: Path, privileged: bool)
    requires Find(OutlineOf(t, privileged), p).Some?
    ensures Find(OutlineOf(t, true), p) == Find(OutlineOf(t, privileged), p)
    ensures var q := Find(OutlineOf(t, privileged), p).value; q in t.nodes && q !in SymlinksOf(t)
  {
    LocateMore(OutlineOf(t, privileged), OutlineOf(t, true), Top, Split(p, End), MAX_SYMLINKS);
    LocateIsNoLink(OutlineOf(t, privileged), Top, Split(p, End), MAX_SYMLINKS);
    hide Locate;
  }

  lemma ChmodAt(t: Tree, q: Path, m: Mode, x: Place)
    requires HasPlace(t, x) && q in t.nodes && q !in SymlinksOf(t)
    ensures HasPlace(Chmod(t, q, m), x)
    ensures ModeAt(Chmod(t, q, m), x) == if IsAt(t, q, x) then m else ModeAt(t, x)
  {
  }

  /** What trying to set a mode does to a place. */
  lemma TryChmodAt(t: Tree, p: Path, m: Mode, privileged: bool, x: Place)
    requires HasPlace(t, x)
    ensures var t' := TryChmod(t, p, m, privileged);
      && HasPlace(t', x)
      && (ModeAt(t', x) == ModeAt(t, x) || (LeadsTo(t, p, x) && ModeAt(t', x) == m))
      && (privileged && LeadsTo(t, p, x) ==> ModeAt(t', x) == m)
  {
    var q := Find(OutlineOf(t, privileged), p);
    if q.Some? {
      FoundAlike(t, p, privileged);
      ChmodAt(t, q.value, m, x);
    }
    hide Find;
    hide Chmod;
    hide OutlineOf;
  }

  lemma LeadsAlike(t: Tree, t': Tree, p: Path, x: Place)
    requires SameShape(t, t')
    ensures LeadsTo(t', p, x) <==> LeadsTo(t, p, x)
  {
    SameOutline(t, t');
    hide Find;
    hide OutlineOf;
  }

  /** Whoever sets the modes: a place has the mode it had, or one that is noted for a path that leads there. */
  lemma {:induction false} EndsWithSome(t: Tree, modes: map<Path, Mode>, order: seq<Path>, privileged: bool, x: Place)
    requires HasPlace(t, x) && forall p :: p in order ==> p in modes
    ensures var t' := SetInOrder(t, modes, order, privileged);
      && HasPlace(t', x)
      && (ModeAt(t', x) == ModeAt(t, x) || exists p :: p in order && LeadsTo(t, p, x) && ModeAt(t', x) == modes[p])
  {
    hide TryChmod;
    hide LeadsTo;
    hide ModeAt;
    hide HasPlace;
    if order != [] {
      var p, before := order[|order| - 1], order[..|order| - 1];
      EndsWithSome(t, modes, before, privileged, x);
      var t1 := SetInOrder(t, modes, before, privileged);
      TryChmodAt(t1, p, modes[p], privileged, x);
      SettingKeepsShape(t, modes, before, privileged);
      LeadsAlike(t, t1, p, x);
      hide SameShape;
      if ModeAt(t1, x) != ModeAt(t, x) {
        var q :| q in before && LeadsTo(t, q, x) && ModeAt(t1, x) == modes[q];
        assert q in order;
      }
      assert p in order;
    }
  }

  // --------------------------------------------------------------------------------------- the privileged

  /** The mode noted for the last of the paths that lead there. */
  function LastLeading(t: Tree, modes: map<Path, Mode>, order: seq<Path>, x: Place): Option<Mode>
    requires forall p :: p in order ==> p in modes
  {
    if order == [] then None
    else if LeadsTo(t, order[|order| - 1], x) then Some(modes[order[|order| - 1]])
    else LastLeading(t, modes, order[..|order| - 1], x)
  }

  lemma {:induction false} PrivilegedSets(t: Tree, modes: map<Path, Mode>, order: seq<Path>, x: Place)
    requires HasPlace(t, x) && forall p :: p in order ==> p in modes
    ensures var t', last := SetInOrder(t, modes, order, true), LastLeading(t, modes, order, x);
      HasPlace(t', x) && ModeAt(t', x) == if last.Some? then last.value else ModeAt(t, x)
  {
    hide TryChmod;
    hide LeadsTo;
    hide ModeAt;
    hide HasPlace;
    if order != [] {
      var p, before := order[|order| - 1], order[..|order| - 1];
      PrivilegedSets(t, modes, before, x);
      var t1 := SetInOrder(t, modes, before, true);
      TryChmodAt(t1, p, modes[p], true, x);
      SettingKeepsShape(t, modes, before, true);
      LeadsAlike(t, t1, p, x);
      hide SameShape;
    }
  }

  lemma {:induction false} SomeOrder(paths: set<Path>) returns (order: seq<Path>)
    ensures IsOrder(order, paths)
  {
    order := [];
    if paths != {} {
      var p :| p in paths;
      var before := SomeOrder(paths - {p});
      OneMoreInOrder(before, paths - {p}, p);
      order := before + [p];
      assert paths - {p} + {p} == paths;
    }
  }

  lemma {:induction false} LastLeadingIsSome(t: Tree, modes: map<Path, Mode>, order: seq<Path>, x: Place)
    requires forall p :: p in order ==> p in modes
    ensures var last := LastLeading(t, modes, order, x);
      && (last.Some? ==> exists p :: p in order && LeadsTo(t, p, x) && last.value == modes[p])
      && (last.None? ==> forall p :: p in order ==> !LeadsTo(t, p, x))
  {
    hide LeadsTo;
    if order != [] {
      var p, before := order[|order| - 1], order[..|order| - 1];
      LastLeadingIsSome(t, modes, before, x);
      assert p in order && forall q :: q in order <==> q in before || q == p;
    }
  }

  /** All modes that are noted for paths which lead there are m; if there are none, it has mode m. */
  ghost predicate PlaceGets(t: Tree, modes: map<Path, Mode>, x: Place, m: Mode)
    requires HasPlace(t, x)
  {
    && (forall q :: q in modes && LeadsTo(t, q, x) ==> modes[q] == m)
    && (ModeAt(t, x) == m || exists q :: q in modes && LeadsTo(t, q, x))
  }

  lemma GetsMode(t: Tree, modes: map<Path, Mode>, x: Place, m: Mode, t': Tree)
    requires HasPlace(t, x) && PlaceGets(t, modes, x, m) && ModesAreSet(t, modes, true, t')
    ensures HasPlace(t', x) && ModeAt(t', x) == m
  {
    hide LeadsTo;
    var order :| IsOrder(order, modes.Keys) && t' == SetInOrder(t, modes, order, true);
    PrivilegedSets(t, modes, order, x);
    LastLeadingIsSome(t, modes, order, x);
    hide LastLeading;
    hide SetInOrder;
  }

  /** Any of the paths that lead there may be the last. */
  lemma AnyMayBeLast(t: Tree, modes: map<Path, Mode>, x: Place, q: Path) returns (t': Tree)
    requires HasPlace(t, x) && q in modes && LeadsTo(t, q, x)
    ensures ModesAreSet(t, modes, true, t') && HasPlace(t', x) && ModeAt(t', x) == modes[q]
  {
    hide LeadsTo;
    var before := SomeOrder(modes.Keys - {q});
    OneMoreInOrder(before, modes.Keys - {q}, q);
    assert modes.Keys - {q} + {q} == modes.Keys;
    var order := before + [q];
    PrivilegedSets(t, modes, order, x);
    t' := SetInOrder(t, modes, order, true);
    hide SetInOrder;
  }

  lemma SomeEnd(t: Tree, modes: map<Path, Mode>, privileged: bool) returns (t': Tree)
    ensures ModesAreSet(t, modes, privileged, t')
  {
    var order := SomeOrder(modes.Keys);
    t' := SetInOrder(t, modes, order, privileged);
    hide SetInOrder;
  }

  /** When a privileged extractor is sure to leave mode m there, whatever the order. */
  lemma PlaceExactlyWhen(t: Tree, modes: map<Path, Mode>, x: Place, m: Mode)
    requires HasPlace(t, x)
    ensures (forall t' :: ModesAreSet(t, modes, true, t') ==> HasPlace(t', x) && ModeAt(t', x) == m) <==>
      PlaceGets(t, modes, x, m)
  {
    hide LeadsTo;
    hide ModesAreSet;
    if PlaceGets(t, modes, x, m) {
      forall t' | ModesAreSet(t, modes, true, t')
        ensures HasPlace(t', x) && ModeAt(t', x) == m
      {
        GetsMode(t, modes, x, m, t');
      }
    } else if q :| q in modes && LeadsTo(t, q, x) && modes[q] != m {
      var t' := AnyMayBeLast(t, modes, x, q);
    } else {
      var t' := SomeEnd(t, modes, true);
      assert PlaceGets(t, modes, x, ModeAt(t, x));
      GetsMode(t, modes, x, ModeAt(t, x), t');
    }
  }

  // ------------------------------------------------------------------------------------------ any extractor

  /** Setting the modes of paths that all lead to one object changes no more than that object's. */
  lemma {:induction false} OnlyThatObject(t: Tree, modes: map<Path, Mode>, order: seq<Path>, privileged: bool, i: nat)
    requires forall p :: p in order ==> p in modes && LeadsTo(t, p, Of(i))
    ensures var t' := SetInOrder(t, modes, order, privileged);
      SameShape(t, t') && t'.nodes == t.nodes && OutlineOf(t', privileged) == OutlineOf(t, privileged)
  {
    SettingKeepsShape(t, modes, order, privileged);
    hide TryChmod;
    if order != [] {
      var p, before := order[|order| - 1], order[..|order| - 1];
      OnlyThatObject(t, modes, before, privileged, i);
      var t1 := SetInOrder(t, modes, before, privileged);
      LeadsAlike(t, t1, p, Of(i));
      hide LeadsTo;
      hide OutlineOf;
      OneObjectSet(t1, p, modes[p], privileged, i);
      hide SameShape;
    }
    SameOutline(t, SetInOrder(t, modes, order, privileged));
  }

  lemma OneObjectSet(t: Tree, p: Path, m: Mode, privileged: bool, i: nat)
    requires LeadsTo(t, p, Of(i))
    ensures TryChmod(t, p, m, privileged).nodes == t.nodes
  {
    if Find(OutlineOf(t, privileged), p).Some? {
      FoundAlike(t, p, privileged);
    }
    hide Find;
    hide OutlineOf;
  }

  /** What does not lead there leaves the place alone. */
  lemma NoneLeads(t: Tree, modes: map<Path, Mode>, order: seq<Path>, privileged: bool, x: Place)
    requires HasPlace(t, x) && forall p :: p in order ==> p in modes && !LeadsTo(t, p, x)
    ensures var t' := SetInOrder(t, modes, order, privileged); HasPlace(t', x) && ModeAt(t', x) == ModeAt(t, x)
  {
    EndsWithSome(t, modes, order, privileged, x);
    hide LeadsTo;
    hide SetInOrder;
  }

  /** The path leads to an object, and the extractor can get there as things stand. */
  predicate Reaches(t: Tree, p: Path, privileged: bool, i: nat) {
    var q := Find(OutlineOf(t, privileged), p);
    q.Some? && IsAt(t, q.value, Of(i))
  }

  lemma ReachedIsSet(t: Tree, t1: Tree, p: Path, m: Mode, privileged: bool, i: nat)
    requires Reaches(t, p, privileged, i) && HasPlace(t1, Of(i)) && t1.nodes == t.nodes
    requires OutlineOf(t1, privileged) == OutlineOf(t, privileged)
    ensures var t2 := TryChmod(t1, p, m, privileged); HasPlace(t2, Of(i)) && ModeAt(t2, Of(i)) == m
  {
    hide Find;
    hide OutlineOf;
  }

  lemma ReachesLeads(t: Tree, p: Path, privileged: bool, i: nat)
    requires Reaches(t, p, privileged, i)
    ensures LeadsTo(t, p, Of(i))
  {
    FoundAlike(t, p, privileged);
    hide Find;
    hide OutlineOf;
  }

  /** Different noted paths, q not among them. */
  ghost predicate IsStart(before: seq<Path>, modes: map<Path, Mode>, q: Path) {
    && (forall p :: p in before ==> p in modes && p != q)
    && (forall j, k :: 0 <= j < k < |before| ==> before[j] != before[k])
  }

  /** In some order, the extractor can get to the object through q when its turn comes. */
  ghost predicate ComesWithinReach(t: Tree, modes: map<Path, Mode>, privileged: bool, q: Path, i: nat) {
    exists before :: IsStart(before, modes, q) && Reaches(SetInOrder(t, modes, before, privileged), q, privileged, i)
  }

  /** Only paths that lead to an object may come within reach, and those that are within reach as things stand do. */
  lemma ReachIsBetween(t: Tree, modes: map<Path, Mode>, privileged: bool, q: Path, i: nat)
    ensures ComesWithinReach(t, modes, privileged, q, i) ==> LeadsTo(t, q, Of(i))
    ensures Reaches(t, q, privileged, i) ==> ComesWithinReach(t, modes, privileged, q, i)
    ensures privileged ==> (ComesWithinReach(t, modes, privileged, q, i) <==> LeadsTo(t, q, Of(i)))
  {
    assert IsStart([], modes, q) && SetInOrder(t, modes, [], privileged) == t;
    assert privileged && LeadsTo(t, q, Of(i)) ==> Reaches(t, q, privileged, i);
    hide LeadsTo;
    hide Reaches;
    if ComesWithinReach(t, modes, privileged, q, i) {
      var before :| IsStart(before, modes, q) && Reaches(SetInOrder(t, modes, before, privileged), q, privileged, i);
      ReachesLeads(SetInOrder(t, modes, before, privileged), q, privileged, i);
      SettingKeepsShape(t, modes, before, privileged);
      LeadsAlike(t, SetInOrder(t, modes, before, privileged), q, Of(i));
    }
    hide SetInOrder;
  }

  /** After the first ones those that lead to the object, q last, and then the others. */
  lemma InThreeParts(t: Tree, modes: map<Path, Mode>, i: nat, first: seq<Path>, q: Path)
    returns (before: seq<Path>, after: seq<Path>)
    requires q in modes && IsStart(first, modes, q)
    ensures IsOrder(first + (before + [q] + after), modes.Keys)
    ensures forall p :: p in before ==> p in modes && LeadsTo(t, p, Of(i))
    ensures forall p :: p in after ==> p in modes && !LeadsTo(t, p, Of(i))
  {
    hide LeadsTo;
    var done := set p | p in first;
    var leading := set p | p in modes && p !in done && p != q && LeadsTo(t, p, Of(i));
    var others := modes.Keys - done - leading - {q};
    before := SomeOrder(leading);
    after := SomeOrder(others);
    OrdersJoin(first, done, before, leading);
    OneMoreInOrder(first + before, done + leading, q);
    OrdersJoin(first + before + [q], done + leading + {q}, after, others);
    assert done + leading + {q} + others == modes.Keys;
    assert first + (before + [q] + after) == first + before + [q] + after;
  }

  /** The order of the second and third part. */
  lemma OnceWithinReach(t: Tree, modes: map<Path, Mode>, before: seq<Path>, q: Path, after: seq<Path>,
                        privileged: bool, i: nat)
    requires HasPlace(t, Of(i)) && q in modes && Reaches(t, q, privileged, i)
    requires forall p :: p in before ==> p in modes && LeadsTo(t, p, Of(i))
    requires forall p :: p in after ==> p in modes && !LeadsTo(t, p, Of(i))
    ensures var t' := SetInOrder(t, modes, before + [q] + after, privileged);
      HasPlace(t', Of(i)) && ModeAt(t', Of(i)) == modes[q]
  {
    hide *;
    var t1 := SetInOrder(t, modes, before, privileged);
    OnlyThatObject(t, modes, before, privileged, i);
    SameHasPlace(t, t1, Of(i));
    ReachedIsSet(t, t1, q, modes[q], privileged, i);
    var t2 := TryChmod(t1, q, modes[q], privileged);
    ThenOneMore(t, modes, before, q, privileged);
    SettingKeepsShape(t, modes, before + [q], privileged);
    forall p | p in after
      ensures !LeadsTo(t2, p, Of(i))
    {
      LeadsAlike(t, t2, p, Of(i));
    }
    NoneLeads(t2, modes, after, privileged, Of(i));
    SetInTwo(t, modes, before + [q], after, privileged);
  }

  lemma OrderInTwo(t: Tree, modes: map<Path, Mode>, first: seq<Path>, rest: seq<Path>, privileged: bool)
    requires IsOrder(first + rest, modes.Keys)
    ensures (forall p :: p in first ==> p in modes) && forall p :: p in rest ==> p in modes
    ensures ModesAreSet(t, modes, privileged,
      SetInOrder(SetInOrder(t, modes, first, privileged), modes, rest, privileged))
  {
    hide SetInOrder;
    assert forall p :: p in first || p in rest ==> p in first + rest;
    SetInTwo(t, modes, first, rest, privileged);
    ModesAreSetIn(t, modes, first + rest, privileged);
    hide ModesAreSet;
  }

  /** Whoever sets the modes: any path that comes within reach may be the last. */
  lemma ReachedMayBeLast(t: Tree, modes: map<Path, Mode>, privileged: bool, i: nat, q: Path) returns (t': Tree)
    requires HasPlace(t, Of(i)) && q in modes && ComesWithinReach(t, modes, privileged, q, i)
    ensures ModesAreSet(t, modes, privileged, t') && HasPlace(t', Of(i)) && ModeAt(t', Of(i)) == modes[q]
  {
    var first :| IsStart(first, modes, q) && Reaches(SetInOrder(t, modes, first, privileged), q, privileged, i);
    var t0 := SetInOrder(t, modes, first, privileged);
    hide *;
    SettingKeepsShape(t, modes, first, privileged);
    SameHasPlace(t, t0, Of(i));
    var before, after := InThreeParts(t0, modes, i, first, q);
    OnceWithinReach(t0, modes, before, q, after, privileged, i);
    OrderInTwo(t, modes, first, before + [q] + after, privileged);
    t' := SetInOrder(t0, modes, before + [q] + after, privileged);
  }

  lemma NotReached(t: Tree, p: Path, m: Mode, privileged: bool, i: nat)
    requires HasPlace(t, Of(i))
    ensures var t' := TryChmod(t, p, m, privileged);
      HasPlace(t', Of(i)) && ModeAt(t', Of(i)) == if Reaches(t, p, privileged, i) then m else ModeAt(t, Of(i))
  {
    var q := Find(OutlineOf(t, privileged), p);
    if q.Some? {
      FoundAlike(t, p, privileged);
      ChmodAt(t, q.value, m, Of(i));
    }
    hide Find;
    hide OutlineOf;
    hide Chmod;
  }

  predicate AllDifferent(order: seq<Path>) {
    forall j, k :: 0 <= j < k < |order| ==> order[j] != order[k]
  }

  /** An object has the mode it had, or one that is noted for a path which comes within reach. */
  lemma {:induction false} ReachedDecide(t: Tree, modes: map<Path, Mode>, order: seq<Path>, privileged: bool, i: nat)
    requires HasPlace(t, Of(i)) && (forall p :: p in order ==> p in modes) && AllDifferent(order)
    ensures var t' := SetInOrder(t, modes, order, privileged);
      && HasPlace(t', Of(i))
      && (ModeAt(t', Of(i)) == ModeAt(t, Of(i)) ||
        exists p :: p in order && ComesWithinReach(t, modes, privileged, p, i) && ModeAt(t', Of(i)) == modes[p])
  {
    hide TryChmod;
    hide Reaches;
    hide ComesWithinReach;
    hide ModeAt;
    hide HasPlace;
    if order != [] {
      var p, before := order[|order| - 1], order[..|order| - 1];
      ReachedDecide(t, modes, before, privileged, i);
      var t1 := SetInOrder(t, modes, before, privileged);
      NotReached(t1, p, modes[p], privileged, i);
      assert p in order && forall q :: q in before ==> q in order;
      if Reaches(t1, p, privileged, i) {
        assert IsStart(before, modes, p);
        IsWithinReach(t, modes, before, privileged, p, i);
      }
    }
  }

  lemma IsWithinReach(t: Tree, modes: map<Path, Mode>, before: seq<Path>, privileged: bool, q: Path, i: nat)
    requires IsStart(before, modes, q) && Reaches(SetInOrder(t, modes, before, privileged), q, privileged, i)
    ensures ComesWithinReach(t, modes, privileged, q, i)
  {
    hide Reaches;
    hide SetInOrder;
  }

  /** All modes noted for paths which come within reach are m. */
  ghost predicate AllNoted(t: Tree, modes: map<Path, Mode>, privileged: bool, i: nat, m: Mode) {
    forall q :: q in modes && ComesWithinReach(t, modes, privileged, q, i) ==> modes[q] == m
  }

  /** Whoever sets the modes: when an object is sure to keep its mode, whatever the order. */
  lemma ObjectKeepsExactlyWhen(t: Tree, modes: map<Path, Mode>, privileged: bool, i: nat)
    requires HasPlace(t, Of(i))
    ensures (forall t' :: ModesAreSet(t, modes, privileged, t') ==>
        HasPlace(t', Of(i)) && ModeAt(t', Of(i)) == ModeAt(t, Of(i))) <==>
      AllNoted(t, modes, privileged, i, ModeAt(t, Of(i)))
  {
    hide ComesWithinReach;
    var m := ModeAt(t, Of(i));
    if AllNoted(t, modes, privileged, i, m) {
      forall t' | ModesAreSet(t, modes, privileged, t')
        ensures HasPlace(t', Of(i)) && ModeAt(t', Of(i)) == m
      {
        var order :| IsOrder(order, modes.Keys) && t' == SetInOrder(t, modes, order, privileged);
        ReachedDecide(t, modes, order, privileged, i);
      }
    } else {
      var q :| q in modes && ComesWithinReach(t, modes, privileged, q, i) && modes[q] != m;
      var t' := ReachedMayBeLast(t, modes, privileged, i, q);
    }
    hide SetInOrder;
    hide ModesAreSet;
  }

  lemma ThenOneMore(t: Tree, modes: map<Path, Mode>, before: seq<Path>, q: Path, privileged: bool)
    requires (forall p :: p in before ==> p in modes) && q in modes
    ensures SetInOrder(t, modes, before + [q], privileged) ==
      TryChmod(SetInOrder(t, modes, before, privileged), q, modes[q], privileged)
  {
    hide TryChmod;
    assert (before + [q])[..|before|] == before;
  }

  lemma SameHasPlace(t: Tree, t': Tree, x: Place)
    requires SameShape(t, t') && HasPlace(t, x)
    ensures HasPlace(t', x)
  {
  }

  // ---------------------------------------------------------------------------------------- directories

  /** Only directories were noted. */
  ghost predicate NotesDirectories(t: Tree, modes: map<Path, Mode>) {
    Closed(t) && forall p :: p in modes ==> IsDirectory(t, p)
  }

  /** In a tree without links on the way, a path leads to itself if the way there may be searched. */
  lemma {:induction false} LocatesDown(t: Tree, p: Path, tail: Raw, privileged: bool, budget: nat)
    requires Closed(t) && p in t.nodes && p !in SymlinksOf(t)
    ensures var o := OutlineOf(t, privileged);
      Locate(o, Top, Split(p, tail), budget) ==
        if CanReach(t, p, privileged) then Locate(o, p, tail, budget) else None
    decreases p
  {
    if p.Below? {
      WithinTop(p);
      WithinTop(p.dir);
      LocatesDown(t, p.dir, Seg(Name(p.name), tail), privileged, budget);
      assert Split(p, tail) == Split(p.dir, Seg(Name(p.name), tail));
    }
  }

  lemma FindsItself(t: Tree, p: Path, privileged: bool)
    requires Closed(t) && p in t.nodes && p !in SymlinksOf(t)
    ensures Find(OutlineOf(t, privileged), p) == if CanReach(t, p, privileged) then Some(p) else None
  {
    LocatesDown(t, p, End, privileged, MAX_SYMLINKS);
  }

  /** Objects are as they were, and a directory has the mode it had or that which is noted for it. */
  ghost predicate Between(t: Tree, modes: map<Path, Mode>, t': Tree) {
    && SameShape(t, t') && t'.objects == t.objects
    && forall d :: IsDirectory(t, d) ==>
      t'.nodes[d] == t.nodes[d] || (d in modes && t'.nodes[d] == Directory(modes[d]))
  }

  lemma BetweenIsClosed(t: Tree, modes: map<Path, Mode>, t': Tree)
    requires NotesDirectories(t, modes) && Between(t, modes, t')
    ensures NotesDirectories(t', modes)
  {
  }

  lemma DirectorySet(t: Tree, p: Path, m: Mode, privileged: bool)
    requires Closed(t) && IsDirectory(t, p)
    ensures TryChmod(t, p, m, privileged) ==
      if CanReach(t, p, privileged) then t.(nodes := t.nodes[p := Directory(m)]) else t
  {
    FindsItself(t, p, privileged);
    hide Find;
    hide CanReach;
  }

  lemma NextBetween(t: Tree, modes: map<Path, Mode>, t': Tree, p: Path, privileged: bool)
    requires NotesDirectories(t, modes) && Between(t, modes, t') && p in modes
    ensures Between(t, modes, TryChmod(t', p, modes[p], privileged))
  {
    hide TryChmod;
    hide CanReach;
    BetweenIsClosed(t, modes, t');
    DirectorySet(t', p, modes[p], privileged);
    hide Closed;
  }

  lemma {:induction false} SetBetween(t: Tree, modes: map<Path, Mode>, order: seq<Path>, privileged: bool)
    requires NotesDirectories(t, modes) && forall p :: p in order ==> p in modes
    ensures Between(t, modes, SetInOrder(t, modes, order, privileged))
  {
    hide NotesDirectories;
    hide TryChmod;
    if order != [] {
      hide Between;
      var p, before := order[|order| - 1], order[..|order| - 1];
      SetBetween(t, modes, before, privileged);
      NextBetween(t, modes, SetInOrder(t, modes, before, privileged), p, privileged);
    }
  }

  /** Both as it stands and as it is noted, the directory may be searched. */
  predicate StaysSearchable(t: Tree, modes: map<Path, Mode>, d: Path) {
    IsDirectory(t, d) && OwnerSearches(t.nodes[d].mode) && (d in modes ==> OwnerSearches(modes[d]))
  }

  predicate WayStaysOpen(t: Tree, modes: map<Path, Mode>, p: Path) {
    p.Top? || (StaysSearchable(t, modes, p.dir) && WayStaysOpen(t, modes, p.dir))
  }

  /** It has got its mode, or will be within reach, whatever has been set before. */
  predicate IsSetAnyway(t: Tree, modes: map<Path, Mode>, privileged: bool, p: Path)
    requires p in modes
  {
    privileged || (IsDirectory(t, p) && t.nodes[p].mode == modes[p]) || WayStaysOpen(t, modes, p)
  }

  ghost predicate CanBeSet(t: Tree, modes: map<Path, Mode>, privileged: bool) {
    forall p :: p in modes ==> IsSetAnyway(t, modes, privileged, p)
  }

  lemma {:induction false} OpenIsReached(t: Tree, modes: map<Path, Mode>, t': Tree, p: Path, privileged: bool)
    requires Between(t, modes, t') && WayStaysOpen(t, modes, p)
    ensures CanReach(t', p, privileged)
  {
    if p.Below? {
      OpenIsReached(t, modes, t', p.dir, privileged);
    }
  }

  /** Only its own turn changes a directory's mode. */
  lemma {:induction false} OthersLeaveAlone(t: Tree, modes: map<Path, Mode>, order: seq<Path>, privileged: bool,
                                            p: Path)
    requires NotesDirectories(t, modes) && (forall q :: q in order ==> q in modes) && p in t.nodes && p !in order
    ensures var t' := SetInOrder(t, modes, order, privileged); p in t'.nodes && t'.nodes[p] == t.nodes[p]
  {
    if order != [] {
      var q, before := order[|order| - 1], order[..|order| - 1];
      OthersLeaveAlone(t, modes, before, privileged, p);
      var t1 := SetInOrder(t, modes, before, privileged);
      SetBetween(t, modes, before, privileged);
      BetweenIsClosed(t, modes, t1);
      DirectorySet(t1, q, modes[q], privileged);
      hide TryChmod;
      hide Between;
      hide CanReach;
    }
  }

  lemma {:induction false} GetsSet(t: Tree, modes: map<Path, Mode>, order: seq<Path>, privileged: bool, p: Path)
    requires NotesDirectories(t, modes) && p in modes && IsSetAnyway(t, modes, privileged, p)
    requires p in order && forall q :: q in order ==> q in modes
    ensures var t' := SetInOrder(t, modes, order, privileged); p in t'.nodes && t'.nodes[p] == Directory(modes[p])
  {
    var q, before := order[|order| - 1], order[..|order| - 1];
    var t1 := SetInOrder(t, modes, before, privileged);
    SetBetween(t, modes, before, privileged);
    BetweenIsClosed(t, modes, t1);
    DirectorySet(t1, q, modes[q], privileged);
    if p != q {
      GetsSet(t, modes, before, privileged, p);
    } else if privileged || t.nodes[p].mode == modes[p] {
      assert t1.nodes[p] == t.nodes[p] || t1.nodes[p] == Directory(modes[p]);
    } else {
      OpenIsReached(t, modes, t1, p, privileged);
    }
    hide TryChmod;
  }

  predicate HasBeenSet(t: Tree, modes: map<Path, Mode>, p: Path)
    requires p in modes
  {
    p in t.nodes && t.nodes[p] == Directory(modes[p])
  }

  ghost predicate AllSet(t: Tree, modes: map<Path, Mode>) {
    forall p :: p in modes ==> HasBeenSet(t, modes, p)
  }

  lemma SetAnywayIsSet(t: Tree, modes: map<Path, Mode>, privileged: bool, t': Tree, p: Path)
    requires NotesDirectories(t, modes) && p in modes && IsSetAnyway(t, modes, privileged, p)
    requires ModesAreSet(t, modes, privileged, t')
    ensures HasBeenSet(t', modes, p)
  {
    hide IsSetAnyway;
    var order :| IsOrder(order, modes.Keys) && t' == SetInOrder(t, modes, order, privileged);
    GetsSet(t, modes, order, privileged, p);
  }

  lemma {:induction false} SetInTwo(t: Tree, modes: map<Path, Mode>, a: seq<Path>, b: seq<Path>, privileged: bool)
    requires (forall p :: p in a ==> p in modes) && forall p :: p in b ==> p in modes
    ensures SetInOrder(t, modes, a + b, privileged) ==
      SetInOrder(SetInOrder(t, modes, a, privileged), modes, b, privileged)
    decreases |b|
  {
    hide TryChmod;
    if b == [] {
      assert a + b == a;
    } else {
      var p, before := b[|b| - 1], b[..|b| - 1];
      assert (a + b)[..|a + b| - 1] == a + before;
      SetInTwo(t, modes, a, before, privileged);
    }
  }

  /** On a way that does not stay open although it is open now, there is a directory that is going to be shut. */
  lemma {:induction false} WillBeShut(t: Tree, modes: map<Path, Mode>, p: Path) returns (a: Path)
    requires CanReach(t, p, false) && !WayStaysOpen(t, modes, p)
    ensures Within(p, a) && a != p && a in modes && !OwnerSearches(modes[a]) && CanReach(t, a, false)
  {
    if WayStaysOpen(t, modes, p.dir) {
      a := p.dir;
      WithinIsNotAbove(p, a);
    } else {
      a := WillBeShut(t, modes, p.dir);
      WithinIsNotAbove(p.dir, a);
    }
  }

  lemma {:induction false} ShutIsNotReached(t: Tree, p: Path, a: Path)
    requires Within(p, a) && p != a && IsDirectory(t, a) && !OwnerSearches(t.nodes[a].mode)
    ensures !CanReach(t, p, false)
  {
    if p.dir != a {
      ShutIsNotReached(t, p.dir, a);
    }
  }

  lemma ModesAreSetIn(t: Tree, modes: map<Path, Mode>, order: seq<Path>, privileged: bool)
    requires IsOrder(order, modes.Keys)
    ensures ModesAreSet(t, modes, privileged, SetInOrder(t, modes, order, privileged))
  {
    hide SetInOrder;
  }

  lemma OrdersJoin(a: seq<Path>, x: set<Path>, b: seq<Path>, y: set<Path>)
    requires IsOrder(a, x) && IsOrder(b, y) && x !! y
    ensures IsOrder(a + b, x + y)
  {
    forall j, k | 0 <= j < k < |a + b|
      ensures (a + b)[j] != (a + b)[k]
    {
      if j < |a| <= k {
        assert a[j] in x && b[k - |a|] in y;
      }
    }
  }

  /** First come first served: the rest does not help any more. */
  lemma StartsWith(t: Tree, modes: map<Path, Mode>, first: seq<Path>, p: Path) returns (t': Tree)
    requires NotesDirectories(t, modes) && p in first && p in t.nodes
    requires (forall q :: q in first ==> q in modes) && forall j, k :: 0 <= j < k < |first| ==> first[j] != first[k]
    ensures ModesAreSet(t, modes, false, t') && p in t'.nodes
    ensures p in SetInOrder(t, modes, first, false).nodes
    ensures t'.nodes[p] == SetInOrder(t, modes, first, false).nodes[p]
  {
    hide TryChmod;
    var done := set q | q in first;
    var rest := SomeOrder(modes.Keys - done);
    OrdersJoin(first, done, rest, modes.Keys - done);
    assert done + (modes.Keys - done) == modes.Keys;
    var t1 := SetInOrder(t, modes, first, false);
    SetBetween(t, modes, first, false);
    BetweenIsClosed(t, modes, t1);
    SetInTwo(t, modes, first, rest, false);
    hide Between;
    ModesAreSetIn(t, modes, first + rest, false);
    OthersLeaveAlone(t1, modes, rest, false, p);
    t' := SetInOrder(t1, modes, rest, false);
    hide SetInOrder;
  }

  lemma SetOneOrTwo(t: Tree, modes: map<Path, Mode>, a: Path, p: Path)
    requires a in modes && p in modes
    ensures SetInOrder(t, modes, [p], false) == TryChmod(t, p, modes[p], false)
    ensures SetInOrder(t, modes, [a, p], false) == TryChmod(TryChmod(t, a, modes[a], false), p, modes[p], false)
  {
    hide TryChmod;
    assert [p][..0] == [] && [a][..0] == [] && [a, p][..1] == [a];
    assert SetInOrder(t, modes, [a], false) == TryChmod(t, a, modes[a], false);
  }

  /** Once a is shut, p below it is out of reach. */
  lemma ShutFirst(t: Tree, modes: map<Path, Mode>, a: Path, p: Path)
    requires NotesDirectories(t, modes) && a in modes && p in modes && Within(p, a) && a != p
    requires !OwnerSearches(modes[a]) && CanReach(t, a, false)
    ensures var t' := SetInOrder(t, modes, [a, p], false); p in t'.nodes && t'.nodes[p] == t.nodes[p]
  {
    hide TryChmod;
    hide CanReach;
    hide SetInOrder;
    hide OwnerSearches;
    SetOneOrTwo(t, modes, a, p);
    DirectorySet(t, a, modes[a], false);
    var t1 := t.(nodes := t.nodes[a := Directory(modes[a])]);
    WithDirectoryMode(t, modes, a, p);
    ShutIsNotReached(t1, p, a);
    DirectorySet(t1, p, modes[p], false);
  }

  lemma WithDirectoryMode(t: Tree, modes: map<Path, Mode>, a: Path, p: Path)
    requires NotesDirectories(t, modes) && a in modes && p in modes && p != a
    ensures var t1 := t.(nodes := t.nodes[a := Directory(modes[a])]);
      && Closed(t1) && IsDirectory(t1, a) && t1.nodes[a].mode == modes[a]
      && IsDirectory(t1, p) && t1.nodes[p] == t.nodes[p]
  {
  }

  /** A directory whose way does not stay open may be left as it is. */
  lemma MayBeMissed(t: Tree, modes: map<Path, Mode>, p: Path) returns (t': Tree)
    requires NotesDirectories(t, modes) && p in modes && !WayStaysOpen(t, modes, p)
    ensures ModesAreSet(t, modes, false, t') && p in t'.nodes && t'.nodes[p] == t.nodes[p]
  {
    hide ModesAreSet;
    hide SetInOrder;
    hide TryChmod;
    if !CanReach(t, p, false) {
      DirectorySet(t, p, modes[p], false);
      SetOneOrTwo(t, modes, p, p);
      hide CanReach;
      t' := StartsWith(t, modes, [p], p);
    } else {
      var a := WillBeShut(t, modes, p);
      ShutFirst(t, modes, a, p);
      hide CanReach;
      t' := StartsWith(t, modes, [a, p], p);
    }
  }

  /** Whatever the order, a noted directory ends with its mode exactly when it has it or stays within reach. */
  lemma DirectorySetExactlyWhen(t: Tree, modes: map<Path, Mode>, privileged: bool, p: Path)
    requires NotesDirectories(t, modes) && p in modes
    ensures (forall t' :: ModesAreSet(t, modes, privileged, t') ==> HasBeenSet(t', modes, p)) <==>
      IsSetAnyway(t, modes, privileged, p)
  {
    hide ModesAreSet;
    if IsSetAnyway(t, modes, privileged, p) {
      forall t' | ModesAreSet(t, modes, privileged, t')
        ensures HasBeenSet(t', modes, p)
      {
        SetAnywayIsSet(t, modes, privileged, t', p);
      }
    } else {
      var t' := MayBeMissed(t, modes, p);
      assert !HasBeenSet(t', modes, p);
    }
  }

  /** So for all of them. */
  lemma SetExactlyWhen(t: Tree, modes: map<Path, Mode>, privileged: bool)
    requires NotesDirectories(t, modes)
    ensures (forall t' :: ModesAreSet(t, modes, privileged, t') ==> AllSet(t', modes)) <==>
      CanBeSet(t, modes, privileged)
  {
    hide ModesAreSet;
    hide IsSetAnyway;
    hide HasBeenSet;
    forall p | p in modes
      ensures (forall t' :: ModesAreSet(t, modes, privileged, t') ==> HasBeenSet(t', modes, p)) <==>
        IsSetAnyway(t, modes, privileged, p)
    {
      DirectorySetExactlyWhen(t, modes, privileged, p);
    }
  }

  /** Whatever can or can not be set, nothing but directories is affected. */
  lemma OnlyDirectoriesAreSet(t: Tree, modes: map<Path, Mode>, privileged: bool, t': Tree)
    requires NotesDirectories(t, modes) && ModesAreSet(t, modes, privileged, t')
    ensures Between(t, modes, t')
  {
    hide NotesDirectories;
    var order :| IsOrder(order, modes.Keys) && t' == SetInOrder(t, modes, order, privileged);
    SetBetween(t, modes, order, privileged);
  }

  // ------------------------------------------------------------------------------------- how many links

  lemma NameIsRelative(name: string)
    ensures var target := Seg(Name(name), End); Append(target, End) == target && !IsAbsolute(target)
  {
  }

  lemma {:induction false} LocateChain(o: Outline, dir: Path, names: seq<string>, k: nat, budget: nat)
    requires IsChain(o.links, dir, names) && k < |names|
    requires dir in o.passable && Below(dir, names[|names| - 1]) in o.names
    ensures Locate(o, dir, Seg(Name(names[k]), End), budget) ==
      if |names| - 1 - k <= budget then Some(Below(dir, names[|names| - 1])) else None
    decreases |names| - k
  {
    if k == |names| - 1 {
      assert Locate(o, Below(dir, names[k]), End, budget) == Some(Below(dir, names[k]));
    } else if budget > 0 {
      NameIsRelative(names[k + 1]);
      LocateChain(o, dir, names, k + 1, budget - 1);
    }
  }

  /** Setting a mode follows up to 40 symbolic links. */
  lemma FindExactlyWhen(o: Outline, names: seq<string>)
    requires IsChain(o.links, Top, names) && Top in o.passable && Below(Top, names[|names| - 1]) in o.names
    ensures Find(o, Below(Top, names[0])) == if |names| - 1 <= 40 then Some(Below(Top, names[|names| - 1])) else None
  {
    SplitName(names[0], End);
    LocateChain(o, Top, names, 0, MAX_SYMLINKS);
    hide Locate;
  }
}
