/**
 The list of mounts that a container starts with: the sources' mounts in order of
 priority, sorted so that a mount comes before those below it, with one mount for each
 destination.
 */
module MountList {
  import opened Paths
  import opened PathText
  import opened Strings

  /** A mount, with its destination as it was given, split at the slashes. */
  datatype Mount = Mount(destination: Raw, source: string)

  /** filepath.Clean(destination); destinations are absolute. */
  function Clean(m: Mount): Path {
    Join(Top, m.destination)
  }

  function CleanText(m: Mount): string {
    if Clean(m).Top? then "/" else Text(Clean(m))
  }

  function Parts(m: Mount): nat {
    Count(CleanText(m), '/')
  }

  /** The order of byDestination. */
  predicate Less(a: Mount, b: Mount) {
    Parts(a) < Parts(b) || (Parts(a) == Parts(b) && StringLess(CleanText(a), CleanText(b)))
  }

  // ------------------------------------------------------------------------------------- the order

  lemma LessTransitive(a: Mount, b: Mount, c: Mount)
    requires Less(a, b) && Less(b, c)
    ensures Less(a, c)
  {
    if Parts(a) == Parts(b) && Parts(b) == Parts(c) {
      StringTransitive(CleanText(a), CleanText(b), CleanText(c));
    }
  }

  lemma LessIsStrict(a: Mount, b: Mount)
    requires CleanText(a) == CleanText(b)
    ensures !Less(a, b)
  {
    StringIrreflexive(CleanText(a));
  }

  lemma LessIsTotal(a: Mount, b: Mount)
    ensures Less(a, b) || CleanText(a) == CleanText(b) || Less(b, a)
  {
    StringTotal(CleanText(a), CleanText(b));
  }

  /** What is not greater than something not greater is not greater. */
  lemma NotLessTransitive(a: Mount, b: Mount, c: Mount)
    requires !Less(b, a) && !Less(c, b)
    ensures !Less(c, a)
  {
    if Less(c, a) {
      LessIsTotal(b, c);
      if Less(b, c) {
        LessTransitive(b, c, a);
      }
    }
  }

  // --------------------------------------------------------------------------------------- sorting

  ghost predicate Sorted(s: seq<Mount>) {
    forall i, j :: 0 <= i < j < |s| ==> !Less(s[j], s[i])
  }

  /** Those for which the test holds, in their order. */
  function Those(s: seq<Mount>, test: Mount -> bool): seq<Mount> {
    if s == [] then []
    else Those(s[..|s| - 1], test) + if test(s[|s| - 1]) then [s[|s| - 1]] else []
  }

  /** The mount is put after all that it is not less than. */
  function Insert(x: Mount, s: seq<Mount>): seq<Mount> {
    if s == [] || !Less(x, s[|s| - 1]) then s + [x]
    else Insert(x, s[..|s| - 1]) + [s[|s| - 1]]
  }

  /** sort.Stable(byDestination(m)) */
  function SortMounts(s: seq<Mount>): seq<Mount> {
    if s == [] then [] else Insert(s[|s| - 1], SortMounts(s[..|s| - 1]))
  }

  /** Only mounts with one and the same clean destination pass. */
  ghost predicate OneDestination(test: Mount -> bool) {
    forall a, b :: test(a) && test(b) ==> CleanText(a) == CleanText(b)
  }

  lemma ThoseOfOneMore(s: seq<Mount>, x: Mount, test: Mount -> bool)
    ensures Those(s + [x], test) == if test(x) then Those(s, test) + [x] else Those(s, test)
  {
    assert (s + [x])[..|s|] == s;
  }

  lemma SortedWithLast(s: seq<Mount>, x: Mount)
    requires Sorted(s) && forall y :: y in s ==> !Less(x, y)
    ensures Sorted(s + [x])
  {
    hide Less;
  }

  lemma {:induction false} InsertSorts(x: Mount, s: seq<Mount>)
    requires Sorted(s)
    ensures Sorted(Insert(x, s)) && |Insert(x, s)| == |s| + 1
    ensures forall y :: y in Insert(x, s) ==> y == x || y in s
  {
    hide Less;
    if s == [] {
    } else {
      var last, front := s[|s| - 1], s[..|s| - 1];
      assert s == front + [last];
      if Less(x, last) {
        InsertSorts(x, front);
        AsymmetricLess(x, last);
        assert forall y :: y in front ==> !Less(last, y);
        SortedWithLast(Insert(x, front), last);
      } else {
        forall i | 0 <= i < |s|
          ensures !Less(x, s[i])
        {
          if i < |s| - 1 {
            NotLessTransitive(s[i], last, x);
          }
        }
        SortedWithLast(s, x);
      }
    }
  }

  lemma AsymmetricLess(a: Mount, b: Mount)
    requires Less(a, b)
    ensures !Less(b, a)
  {
    if Less(b, a) {
      LessTransitive(a, b, a);
      LessIsStrict(a, a);
    }
  }

  lemma {:induction false} InsertIsStable(x: Mount, s: seq<Mount>, test: Mount -> bool)
    requires OneDestination(test)
    ensures Those(Insert(x, s), test) == Those(s + [x], test)
  {
    hide Those;
    if s != [] && Less(x, s[|s| - 1]) {
      var last, front := s[|s| - 1], s[..|s| - 1];
      assert s == front + [last];
      InsertIsStable(x, front, test);
      ThoseOfOneMore(s, x, test);
      ThoseOfOneMore(front, last, test);
      ThoseOfOneMore(front, x, test);
      ThoseOfOneMore(Insert(x, front), last, test);
      if test(x) && test(last) {
        LessIsStrict(x, last);
      }
    }
  }

  lemma {:induction false} SortIsSorted(s: seq<Mount>)
    ensures Sorted(SortMounts(s))
  {
    if s != [] {
      SortIsSorted(s[..|s| - 1]);
      InsertSorts(s[|s| - 1], SortMounts(s[..|s| - 1]));
    }
  }

  lemma {:induction false} SortIsStable(s: seq<Mount>, test: Mount -> bool)
    requires OneDestination(test)
    ensures Those(SortMounts(s), test) == Those(s, test)
  {
    if s != [] {
      var last, front := s[|s| - 1], s[..|s| - 1];
      SortIsStable(front, test);
      InsertIsStable(last, SortMounts(front), test);
      ThoseOfOneMore(SortMounts(front), last, test);
    }
  }

  /** The same mounts at every destination, each in the same order. */
  ghost predicate SameAtEach(s: seq<Mount>, t: seq<Mount>) {
    forall test: Mount -> bool :: OneDestination(test) ==> Those(s, test) == Those(t, test)
  }

  function At(text: string): Mount -> bool {
    (m: Mount) => CleanText(m) == text
  }

  lemma {:induction false} ThoseHold(s: seq<Mount>, test: Mount -> bool, m: Mount)
    ensures m in Those(s, test) <==> m in s && test(m)
  {
    if s != [] {
      ThoseHold(s[..|s| - 1], test, m);
      assert s == s[..|s| - 1] + [s[|s| - 1]];
    }
  }

  lemma SameAreShared(s: seq<Mount>, t: seq<Mount>, m: Mount)
    requires SameAtEach(s, t) && m in s
    ensures m in t
  {
    var test := At(CleanText(m));
    ThoseHold(s, test, m);
    ThoseHold(t, test, m);
  }

  lemma SnocIsInjective(s: seq<Mount>, a: Mount, t: seq<Mount>, b: Mount)
    requires s + [a] == t + [b]
    ensures s == t && a == b
  {
    assert |s| == |t| && (s + [a])[|s|] == a && (t + [b])[|t|] == b;
    assert s == (s + [a])[..|s|] && t == (t + [b])[..|t|];
  }

  lemma SameLast(s: seq<Mount>, t: seq<Mount>)
    requires Sorted(s) && Sorted(t) && SameAtEach(s, t) && s != [] && t != []
    ensures s[|s| - 1] == t[|t| - 1]
  {
    var a, b := s[|s| - 1], t[|t| - 1];
    SameAreShared(s, t, a);
    SameAreShared(t, s, b);
    LessIsStrict(a, a);
    LessIsStrict(b, b);
    assert !Less(b, a) && !Less(a, b);
    LessIsTotal(a, b);
    var test := At(CleanText(a));
    assert test(a) && test(b) && OneDestination(test);
    SnocIsInjective(Those(s[..|s| - 1], test), a, Those(t[..|t| - 1], test), b);
  }

  /** Sorted, with the same mounts in the same order at each destination: there is only one such list. */
  lemma {:induction false} StableSortIsUnique(s: seq<Mount>, t: seq<Mount>)
    requires Sorted(s) && Sorted(t) && SameAtEach(s, t)
    ensures s == t
  {
    if s != [] && t != [] {
      SameLast(s, t);
      SameFronts(s, t);
      StableSortIsUnique(s[..|s| - 1], t[..|t| - 1]);
      assert s == s[..|s| - 1] + [s[|s| - 1]] && t == t[..|t| - 1] + [t[|t| - 1]];
    } else if s != [] {
      SameAreShared(s, t, s[0]);
    } else if t != [] {
      SameAreShared(t, s, t[0]);
    }
  }

  lemma SameFronts(s: seq<Mount>, t: seq<Mount>)
    requires SameAtEach(s, t) && s != [] && t != [] && s[|s| - 1] == t[|t| - 1]
    ensures SameAtEach(s[..|s| - 1], t[..|t| - 1])
  {
    var a, front, front' := s[|s| - 1], s[..|s| - 1], t[..|t| - 1];
    assert s == front + [a] && t == front' + [a];
    forall test: Mount -> bool | OneDestination(test)
      ensures Those(front, test) == Those(front', test)
    {
      hide Those;
      ThoseOfOneMore(front, a, test);
      ThoseOfOneMore(front', a, test);
      assert Those(s, test) == Those(t, test);
      if test(a) {
        SnocIsInjective(Those(front, test), a, Those(front', test), a);
      }
    }
  }

  /** Whatever way a stable sort goes about it, this is what it gives. */
  lemma AnyStableSort(s: seq<Mount>, t: seq<Mount>)
    requires Sorted(t) && SameAtEach(s, t)
    ensures t == SortMounts(s)
  {
    SortIsSorted(s);
    forall test: Mount -> bool | OneDestination(test)
      ensures Those(SortMounts(s), test) == Those(t, test)
    {
      SortIsStable(s, test);
    }
    StableSortIsUnique(SortMounts(s), t);
  }

  // --------------------------------------------------------------------------------------- merging

  ghost predicate Has(s: seq<Mount>, destination: Raw) {
    exists k :: 0 <= k < |s| && s[k].destination == destination
  }

  method HaveMount(mounts: seq<Mount>, destination: Raw) returns (r: bool)
    ensures r <==> Has(mounts, destination)
  {
    for k := 0 to |mounts|
      invariant !Has(mounts[..k], destination)
    {
      if mounts[k].destination == destination {
        return true;
      }
      assert mounts[..k + 1] == mounts[..k] + [mounts[k]];
    }
    assert mounts[..|mounts|] == mounts;
    r := false;
  }

  /** The first of the mounts with each destination, in their order. */
  ghost function Firsts(s: seq<Mount>): seq<Mount> {
    if s == [] then []
    else
      var before := Firsts(s[..|s| - 1]);
      if Has(before, s[|s| - 1].destination) then before else before + [s[|s| - 1]]
  }

  function To(destination: Raw): Mount -> bool {
    (m: Mount) => m.destination == destination
  }

  lemma FirstsOfOneMore(s: seq<Mount>, x: Mount)
    ensures Firsts(s + [x]) == if Has(Firsts(s), x.destination) then Firsts(s) else Firsts(s) + [x]
  {
    assert (s + [x])[..|s|] == s;
  }

  lemma HasOneMore(s: seq<Mount>, x: Mount, d: Raw)
    ensures Has(s + [x], d) <==> Has(s, d) || x.destination == d
  {
    assert (s + [x])[|s|] == x;
    assert forall k :: 0 <= k < |s| ==> (s + [x])[k] == s[k];
  }

  /** Of the mounts with a destination, the first one is left. */
  lemma {:induction false} FirstIsLeft(s: seq<Mount>, d: Raw)
    ensures Those(Firsts(s), To(d)) == if Those(s, To(d)) == [] then [] else [Those(s, To(d))[0]]
    ensures Has(Firsts(s), d) <==> Those(s, To(d)) != []
  {
    if s != [] {
      hide Those;
      hide Firsts;
      hide Has;
      var last, front := s[|s| - 1], s[..|s| - 1];
      assert s == front + [last];
      FirstIsLeft(front, d);
      FirstsOfOneMore(front, last);
      HasOneMore(Firsts(front), last, d);
      ThoseOfOneMore(front, last, To(d));
      ThoseOfOneMore(Firsts(front), last, To(d));
    }
  }

  ghost predicate DistinctDestinations(s: seq<Mount>) {
    forall i, j :: 0 <= i < j < |s| ==> s[i].destination != s[j].destination
  }

  lemma {:induction false} FirstsAreDistinct(s: seq<Mount>)
    ensures DistinctDestinations(Firsts(s))
  {
    if s != [] {
      FirstsAreDistinct(s[..|s| - 1]);
    }
  }

  lemma SortedOneMore(s: seq<Mount>, x: Mount)
    ensures Sorted(s + [x]) <==> Sorted(s) && forall m :: m in s ==> !Less(x, m)
  {
    var t := s + [x];
    if Sorted(t) {
      forall m | m in s
        ensures !Less(x, m)
      {
        var k :| 0 <= k < |s| && s[k] == m;
        assert t[k] == m && t[|s|] == x;
      }
      assert forall i, j :: 0 <= i < j < |s| ==> t[i] == s[i] && t[j] == s[j];
    }
  }

  lemma {:induction false} FirstsAreAmong(s: seq<Mount>, m: Mount)
    requires m in Firsts(s)
    ensures m in s
  {
    if s != [] && m in Firsts(s[..|s| - 1]) {
      FirstsAreAmong(s[..|s| - 1], m);
    }
  }

  /** Leaving mounts out keeps the rest in order. */
  lemma {:induction false} FirstsAreSorted(s: seq<Mount>)
    requires Sorted(s)
    ensures Sorted(Firsts(s))
  {
    if s != [] {
      hide Sorted;
      hide Firsts;
      var last, front := s[|s| - 1], s[..|s| - 1];
      assert s == front + [last];
      SortedOneMore(front, last);
      FirstsAreSorted(front);
      FirstsOfOneMore(front, last);
      forall m | m in Firsts(front)
        ensures !Less(last, m)
      {
        FirstsAreAmong(front, m);
      }
      SortedOneMore(Firsts(front), last);
    }
  }

  /** Between a mount and another that is to be found below it, the order is settled. */
  ghost predicate OutermostFirst(s: seq<Mount>) {
    forall i, j :: 0 <= i < |s| && 0 <= j < |s| && Within(Clean(s[j]), Clean(s[i])) && Clean(s[i]) != Clean(s[j]) ==>
      i < j
  }

  /** Names come from splitting at slashes: they hold none, and they are not empty. */
  predicate Named(p: Path) {
    p.Below? ==> p.name != "" && Named(p.dir)
  }

  ghost predicate ProperNames(s: seq<Mount>) {
    forall m :: m in s ==> NoSlashes(Clean(m)) && Named(Clean(m))
  }

  lemma {:induction false} SlashesAreDepth(p: Path)
    requires NoSlashes(p)
    ensures Count(Text(p), '/') == Depth(p)
  {
    if p.Below? {
      SlashesAreDepth(p.dir);
      CountOfConcatenation(Text(p.dir) + "/", p.name, '/');
      CountOfConcatenation(Text(p.dir), "/", '/');
      CountOfNone(p.name, '/');
    }
  }

  lemma PrefixIsLess(a: string, b: string)
    requires a < b
    ensures StringLess(a, b)
  {
    if a != "" {
      PrefixIsLess(a[1..], b[1..]);
    }
  }

  /** Mounts on directories above come first; "/" does too, though it has as many slashes as "/a". */
  lemma AboveIsLess(a: Mount, b: Mount)
    requires NoSlashes(Clean(a)) && NoSlashes(Clean(b)) && Named(Clean(b))
    requires Within(Clean(b), Clean(a)) && Clean(a) != Clean(b)
    ensures Less(a, b)
  {
    SlashesAreDepth(Clean(a));
    SlashesAreDepth(Clean(b));
    WithinIsNotAbove(Clean(b), Clean(a));
    if Clean(a).Top? {
      assert Count("/", '/') == 1;
      if Clean(b).dir.Top? {
        assert CleanText(b) == "/" + Clean(b).name;
        PrefixIsLess("/", CleanText(b));
      }
    }
  }

  /** What setupMounts makes of the mounts of all sources, those of the preferred sources first. */
  ghost function Merged(all: seq<Mount>): seq<Mount> {
    Firsts(SortMounts(all))
  }

  method MergeMounts(all: seq<Mount>) returns (mounts: seq<Mount>)
    ensures mounts == Merged(all)
  {
    var sorted := SortMounts(all);
    mounts := [];
    for k := 0 to |sorted|
      invariant mounts == Firsts(sorted[..k])
    {
      assert sorted[..k + 1][..k] == sorted[..k];
      var have := HaveMount(mounts, sorted[k].destination);
      if have {
        continue;
      }
      mounts := mounts + [sorted[k]];
    }
    assert sorted[..|sorted|] == sorted;
  }

  /**
   One mount for each destination that was asked for: the one from the preferred source.
   They are in the order of byDestination, a mount after those on the directories above it.
   */
  lemma MergedMounts(all: seq<Mount>, d: Raw)
    requires ProperNames(all)
    ensures DistinctDestinations(Merged(all)) && Sorted(Merged(all)) && OutermostFirst(Merged(all))
    ensures Those(Merged(all), To(d)) == if Those(all, To(d)) == [] then [] else [Those(all, To(d))[0]]
  {
    var sorted := SortMounts(all);
    SortIsSorted(all);
    FirstsAreDistinct(sorted);
    FirstsAreSorted(sorted);
    FirstIsLeft(sorted, d);
    SortIsStable(all, To(d));
    forall m | m in Merged(all)
      ensures m in all
    {
      MergedComeFrom(all, m);
    }
    SortedIsOutermostFirst(Merged(all));
  }

  lemma MergedComeFrom(all: seq<Mount>, m: Mount)
    requires m in Merged(all)
    ensures m in all
  {
    FirstsAreAmong(SortMounts(all), m);
    SortIsStable(all, To(m.destination));
    ThoseHold(SortMounts(all), To(m.destination), m);
    ThoseHold(all, To(m.destination), m);
  }

  lemma SortedIsOutermostFirst(s: seq<Mount>)
    requires Sorted(s) && ProperNames(s)
    ensures OutermostFirst(s)
  {
    forall i, j | 0 <= i < |s| && 0 <= j < |s| && Within(Clean(s[j]), Clean(s[i])) && Clean(s[i]) != Clean(s[j])
      ensures i < j
    {
      AboveIsLess(s[i], s[j]);
    }
  }

  // ---------------------------------------------------------------------- destinations that differ in writing

  ghost predicate DistinctPaths(s: seq<Mount>) {
    forall i, j :: 0 <= i < j < |s| ==> Clean(s[i]) != Clean(s[j])
  }

  /** No path is written in two ways. */
  ghost predicate WrittenAlike(all: seq<Mount>) {
    forall a, b :: a in all && b in all && Clean(a) == Clean(b) ==> a.destination == b.destination
  }

  lemma IsKept(all: seq<Mount>, m: Mount) returns (k: nat)
    requires m in all
    ensures k < |Merged(all)| && Merged(all)[k].destination == m.destination
  {
    FirstIsLeft(SortMounts(all), m.destination);
    SortIsStable(all, To(m.destination));
    ThoseHold(all, To(m.destination), m);
    k :| 0 <= k < |Merged(all)| && Merged(all)[k].destination == m.destination;
  }

  lemma SamePath(a: Mount, b: Mount)
    requires a.destination == b.destination
    ensures Clean(a) == Clean(b)
  {
  }

  lemma TwoWaysAreMountedTwice(all: seq<Mount>, a: Mount, b: Mount)
    requires DistinctPaths(Merged(all)) && a in all && b in all && Clean(a) == Clean(b)
    ensures a.destination == b.destination
  {
    hide Merged;
    hide Clean;
    var i := IsKept(all, a);
    var j := IsKept(all, b);
    SamePath(Merged(all)[i], a);
    SamePath(Merged(all)[j], b);
  }

  lemma OneWayIsMountedOnce(all: seq<Mount>, i: nat, j: nat)
    requires WrittenAlike(all) && i < j < |Merged(all)|
    ensures Clean(Merged(all)[i]) != Clean(Merged(all)[j])
  {
    FirstsAreDistinct(SortMounts(all));
    MergedComeFrom(all, Merged(all)[i]);
    MergedComeFrom(all, Merged(all)[j]);
    hide Firsts;
    hide Clean;
  }

  /**
   Destinations are compared as they are written. So no path is mounted on twice exactly
   when each path is written in one way only.
   */
  lemma OneMountPerPathExactlyWhen(all: seq<Mount>)
    ensures DistinctPaths(Merged(all)) <==> WrittenAlike(all)
  {
    hide Merged;
    hide Clean;
    if DistinctPaths(Merged(all)) {
      forall a, b | a in all && b in all && Clean(a) == Clean(b)
        ensures a.destination == b.destination
      {
        TwoWaysAreMountedTwice(all, a, b);
      }
    }
    if WrittenAlike(all) {
      forall i, j | 0 <= i < j < |Merged(all)|
        ensures Clean(Merged(all)[i]) != Clean(Merged(all)[j])
      {
        OneWayIsMountedOnce(all, i, j);
      }
    }
  }

  /** "/a" and "/a/" are one path, and both mounts are kept. */
  lemma TwoSpellingsAreBothKept(source: string, other: string)
    ensures var a := Mount(Seg(Empty, Seg(Name("a"), End)), source);
            var b := Mount(Seg(Empty, Seg(Name("a"), Seg(Empty, End))), other);
            Clean(a) == Clean(b) && !DistinctPaths(Merged([a, b]))
  {
    var a := Mount(Seg(Empty, Seg(Name("a"), End)), source);
    var b := Mount(Seg(Empty, Seg(Name("a"), Seg(Empty, End))), other);
    assert Clean(a) == Below(Top, "a") && Clean(b) == Below(Top, "a");
    OneMountPerPathExactlyWhen([a, b]);
    assert a in [a, b] && b in [a, b];
  }
}
