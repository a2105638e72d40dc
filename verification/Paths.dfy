/**
 Lexical path handling, as `path/filepath` does it on Unix.

 A clean absolute path is Top ("/") or a name below a directory. A raw path is what
 `strings.Split(s, "/")` yields: it may hold "", "." and "..", which have
 constructors of their own.
 */
module Paths {

  datatype Path = Top | Below(dir: Path, name: string)

  datatype Component = Empty | Dot | DotDot | Name(text: string)

  datatype Raw = End | Seg(first: Component, rest: Raw)

  function Parent(p: Path): Path {
    if p.Top? then Top else p.dir
  }

  function Depth(p: Path): nat {
    if p.Top? then 0 else 1 + Depth(p.dir)
  }

  /** p is the directory itself or lies below it. */
  predicate Within(p: Path, dir: Path) {
    p == dir || (p.Below? && Within(p.dir, dir))
  }

  /** The path that q, taken relative to dir, names. */
  function Graft(dir: Path, q: Path): Path {
    if q.Top? then dir else Below(Graft(dir, q.dir), q.name)
  }

  function Append(a: Raw, b: Raw): Raw {
    if a.End? then b else Seg(a.first, Append(a.rest, b))
  }

  function Length(cs: Raw): nat {
    if cs.End? then 0 else 1 + Length(cs.rest)
  }

  /** Components which `filepath.Clean` drops. */
  predicate IsNoise(c: Component) {
    c.Empty? || c.Dot?
  }

  /** filepath.Join(p, c) for a single component c. */
  function Push(p: Path, c: Component): Path {
    match c
    case Empty => p
    case Dot => p
    case DotDot => Parent(p)
    case Name(text) => Below(p, text)
  }

  /** filepath.Join(p, cs), which cleans. */
  function Join(p: Path, cs: Raw): Path
    decreases cs
  {
    if cs.End? then p else Join(Push(p, cs.first), cs.rest)
  }

  /** The names that lead from dir down to p, then tail. */
  function Down(dir: Path, p: Path, tail: Raw): Raw
    requires Within(p, dir)
  {
    if p == dir then tail else Down(dir, p.dir, Seg(Name(p.name), tail))
  }

  lemma {:induction false} WithinTop(p: Path)
    ensures Within(p, Top)
  {
    if p.Below? {
      WithinTop(p.dir);
    }
  }

  /** The names of a path, split at the separators, then tail. */
  function Split(p: Path, tail: Raw): Raw {
    WithinTop(p);
    Down(Top, p, tail)
  }

  /** filepath.Rel(root, p), both absolute and clean. */
  function Rel(root: Path, p: Path): Raw
    decreases root
  {
    if Within(p, root) then Down(root, p, End)
    else
      assert root.Below? by { WithinTop(p); }
      Seg(DotDot, Rel(root.dir, p))
  }

  /** convertToRelSubdirectory(root, p), as a path whose Top stands for ".". */
  function RelSubdirectory(root: Path, p: Path): Path {
    Join(Top, Rel(root, p))
  }

  lemma {:induction false} GraftOnTop(q: Path)
    ensures Graft(Top, q) == q
  {
    if q.Below? {
      GraftOnTop(q.dir);
    }
  }

  lemma {:induction false} GraftIsWithin(dir: Path, q: Path)
    ensures Within(Graft(dir, q), dir)
  {
    if q.Below? {
      GraftIsWithin(dir, q.dir);
    }
  }

  lemma {:induction false} WithinIsNotAbove(p: Path, dir: Path)
    requires Within(p, dir)
    ensures Depth(p) >= Depth(dir)
    ensures Depth(p) == Depth(dir) ==> p == dir
  {
    if p != dir {
      WithinIsNotAbove(p.dir, dir);
    }
  }

  lemma {:induction false} WithinTransitive(a: Path, b: Path, c: Path)
    requires Within(a, b) && Within(b, c)
    ensures Within(a, c)
  {
    if a != b {
      WithinTransitive(a.dir, b, c);
    }
  }

  lemma {:induction false} GraftDepth(dir: Path, q: Path)
    ensures Depth(Graft(dir, q)) == Depth(dir) + Depth(q)
  {
    if q.Below? {
      GraftDepth(dir, q.dir);
    }
  }

  /** Going down from dir to dir/q is going down q, wherever the walk starts. */
  lemma {:induction false} JoinDown(dir: Path, q: Path, at: Path, tail: Raw)
    ensures Within(Graft(dir, q), dir)
    ensures Join(at, Down(dir, Graft(dir, q), tail)) == Join(Graft(at, q), tail)
  {
    GraftIsWithin(dir, q);
    if q.Below? {
      GraftIsWithin(dir, q.dir);
      GraftDepth(dir, q);
      JoinDown(dir, q.dir, at, Seg(Name(q.name), tail));
    }
  }

  /** Below root, the relative path is the part below root. */
  lemma RelSubdirectoryBelow(root: Path, q: Path)
    ensures RelSubdirectory(root, Graft(root, q)) == q
  {
    GraftIsWithin(root, q);
    JoinDown(root, q, Top, End);
    GraftOnTop(q);
  }

  /** The deepest directory on the way to root that p lies in. */
  function CommonDir(root: Path, p: Path): (d: Path)
    ensures Within(p, d) && Within(root, d)
    decreases root
  {
    if Within(p, root) then root
    else
      assert root.Below? by { WithinTop(p); }
      CommonDir(root.dir, p)
  }

  lemma {:induction false} Ungraft(p: Path, dir: Path) returns (q: Path)
    requires Within(p, dir)
    ensures p == Graft(dir, q)
  {
    if p == dir {
      q := Top;
    } else {
      var above := Ungraft(p.dir, dir);
      q := Below(above, p.name);
    }
  }

  /**
   Outside root too, what the copier takes as the relative path is the part below the
   deepest common directory.
   */
  lemma {:induction false} RelSubdirectoryDropsCommonPrefix(root: Path, p: Path)
    ensures Graft(CommonDir(root, p), RelSubdirectory(root, p)) == p
    decreases root
  {
    if Within(p, root) {
      var q := Ungraft(p, root);
      RelSubdirectoryBelow(root, q);
    } else {
      assert root.Below? by { WithinTop(p); }
      RelSubdirectoryDropsCommonPrefix(root.dir, p);
    }
  }

  // -------------------------------------------------------------- paths that start with the same name

  function FirstName(p: Path): string
    requires p.Below?
  {
    if p.dir.Top? then p.name else FirstName(p.dir)
  }

  predicate StartAlike(p: Path, q: Path) {
    p.Below? && q.Below? && FirstName(p) == FirstName(q)
  }

  lemma {:induction false} WithinStartsAlike(p: Path, dir: Path)
    requires Within(p, dir) && dir.Below?
    ensures StartAlike(p, dir)
  {
    if p != dir {
      WithinStartsAlike(p.dir, dir);
    }
  }

  lemma {:induction false} WithinFirst(p: Path)
    requires p.Below?
    ensures Within(p, Below(Top, FirstName(p)))
  {
    if p.dir.Below? {
      WithinFirst(p.dir);
    }
  }

  /** Two paths have a directory in common, apart from the root, exactly when they start with the same name. */
  lemma {:induction false} CommonExactlyWhenStartAlike(root: Path, p: Path)
    ensures CommonDir(root, p).Below? <==> StartAlike(root, p)
    decreases root
  {
    if Within(p, root) {
      if root.Below? {
        WithinStartsAlike(p, root);
      }
    } else {
      assert root.Below? by { WithinTop(p); }
      CommonExactlyWhenStartAlike(root.dir, p);
      if root.dir.Top? && p.Below? {
        WithinFirst(p);
      }
    }
  }

  /** What the copier takes as the relative path is the whole path exactly when the two do not start alike. */
  lemma RelativeIsSameExactlyWhen(root: Path, p: Path)
    ensures RelSubdirectory(root, p) == p <==> !StartAlike(root, p)
  {
    var common, q := CommonDir(root, p), RelSubdirectory(root, p);
    CommonExactlyWhenStartAlike(root, p);
    RelSubdirectoryDropsCommonPrefix(root, p);
    GraftDepth(common, q);
    GraftOnTop(q);
  }

  lemma {:induction false} WithinGraft(anc: Path, p: Path, dir: Path)
    ensures Within(Graft(anc, p), Graft(anc, dir)) <==> Within(p, dir)
  {
    if Graft(anc, p) == Graft(anc, dir) {
      RelSubdirectoryBelow(anc, p);
      RelSubdirectoryBelow(anc, dir);
    }
    if p.Below? {
      WithinGraft(anc, p.dir, dir);
    } else if Within(anc, Graft(anc, dir)) {
      WithinIsNotAbove(anc, Graft(anc, dir));
      GraftDepth(anc, dir);
    }
  }

  lemma {:induction false} CommonGraft(anc: Path, root: Path, p: Path)
    ensures CommonDir(Graft(anc, root), Graft(anc, p)) == Graft(anc, CommonDir(root, p))
    decreases root
  {
    WithinGraft(anc, p, root);
    if !Within(p, root) {
      assert root.Below? by { WithinTop(p); }
      CommonGraft(anc, root.dir, p);
    }
  }

  lemma {:induction false} GraftTwice(a: Path, b: Path, c: Path)
    ensures Graft(Graft(a, b), c) == Graft(a, Graft(b, c))
  {
    if c.Below? {
      GraftTwice(a, b, c.dir);
    }
  }

  /** A common part of both paths does not matter. */
  lemma RelSubdirectoryStrips(anc: Path, root: Path, p: Path)
    ensures RelSubdirectory(Graft(anc, root), Graft(anc, p)) == RelSubdirectory(root, p)
  {
    var q, q' := RelSubdirectory(root, p), RelSubdirectory(Graft(anc, root), Graft(anc, p));
    var common := CommonDir(root, p);
    CommonGraft(anc, root, p);
    RelSubdirectoryDropsCommonPrefix(root, p);
    RelSubdirectoryDropsCommonPrefix(Graft(anc, root), Graft(anc, p));
    GraftTwice(anc, common, q);
    RelSubdirectoryBelow(Graft(anc, common), q);
    RelSubdirectoryBelow(Graft(anc, common), q');
  }

  // ----------------------------------------------------------------------- how far a raw path climbs

  function Up(p: Path, n: nat): Path
    decreases n
  {
    if n == 0 then p else Up(Parent(p), n - 1)
  }

  /** The last n names of a path. */
  function Tail(p: Path, n: nat): Path
    decreases n
  {
    if n == 0 || p.Top? then Top else Below(Tail(p.dir, n - 1), p.name)
  }

  /** Going up some directories and then down some names. */
  datatype Climb = Climb(up: nat, down: Path)

  function ClimbOn(c: Climb, cs: Raw): Climb
    decreases cs
  {
    if cs.End? then c
    else match cs.first
      case Empty => ClimbOn(c, cs.rest)
      case Dot => ClimbOn(c, cs.rest)
      case Name(text) => ClimbOn(Climb(c.up, Below(c.down, text)), cs.rest)
      case DotDot => ClimbOn(if c.down.Below? then Climb(c.up, c.down.dir) else Climb(c.up + 1, Top), cs.rest)
  }

  /** What is left of a raw path once names and the ".." after them are cancelled. */
  function Net(cs: Raw): Climb {
    ClimbOn(Climb(0, Top), cs)
  }

  lemma {:induction false} UpOneMore(p: Path, n: nat)
    ensures Up(p, n + 1) == Parent(Up(p, n))
    decreases n
  {
    if n > 0 {
      UpOneMore(Parent(p), n - 1);
    }
  }

  lemma {:induction false} JoinClimbsOn(p: Path, c: Climb, cs: Raw)
    ensures var d := ClimbOn(c, cs);
            Join(Graft(Up(p, c.up), c.down), cs) == Graft(Up(p, d.up), d.down)
    decreases cs
  {
    if cs.Seg? {
      UpOneMore(p, c.up);
      var next := match cs.first
        case Empty => c
        case Dot => c
        case Name(text) => Climb(c.up, Below(c.down, text))
        case DotDot => if c.down.Below? then Climb(c.up, c.down.dir) else Climb(c.up + 1, Top);
      JoinClimbsOn(p, next, cs.rest);
    }
  }

  /** filepath.Join cancels: it goes up as often as is left to go up, then down what is left of the names. */
  lemma JoinIsNet(p: Path, cs: Raw)
    ensures Join(p, cs) == Graft(Up(p, Net(cs).up), Net(cs).down)
  {
    JoinClimbsOn(p, Climb(0, Top), cs);
  }

  lemma {:induction false} UpFromBelow(root: Path, cwd: Path, n: nat)
    ensures n <= Depth(cwd) ==> Up(Graft(root, cwd), n) == Graft(root, Up(cwd, n))
    ensures n >= Depth(cwd) ==> Up(Graft(root, cwd), n) == Up(root, n - Depth(cwd)) && Up(cwd, n) == Top
    decreases cwd
  {
    if cwd.Below? {
      if n > 0 {
        UpFromBelow(root, cwd.dir, n - 1);
      }
    } else {
      UpFromTop(n);
    }
  }

  lemma {:induction false} UpFromTop(n: nat)
    ensures Up(Top, n) == Top
  {
    if n > 0 {
      UpFromTop(n - 1);
    }
  }

  lemma {:induction false} UpAndTail(p: Path, n: nat)
    ensures Graft(Up(p, n), Tail(p, n)) == p
    decreases n
  {
    if p.Top? {
      UpFromTop(n);
    } else if n > 0 {
      UpAndTail(p.dir, n - 1);
    }
  }

  /**
   The raw path, taken from cwd below the root, does not climb above the root; or what it
   goes down after that does not start like the part of the root that it climbed.
   */
  predicate KeepsClear(root: Path, cwd: Path, cs: Raw) {
    var c := Net(cs);
    c.up <= Depth(cwd) || !StartAlike(Tail(root, c.up - Depth(cwd)), c.down)
  }

  /**
   Joining below the root and cutting to the root gives what joining in a chroot gives,
   exactly when the raw path keeps clear of the root's own names.
   */
  lemma JoinsAlikeExactlyWhen(root: Path, cwd: Path, cs: Raw)
    ensures RelSubdirectory(root, Join(Graft(root, cwd), cs)) == Join(cwd, cs) <==> KeepsClear(root, cwd, cs)
  {
    var c := Net(cs);
    JoinIsNet(Graft(root, cwd), cs);
    JoinIsNet(cwd, cs);
    UpFromBelow(root, cwd, c.up);
    if c.up <= Depth(cwd) {
      GraftTwice(root, Up(cwd, c.up), c.down);
      RelSubdirectoryBelow(root, Join(cwd, cs));
    } else {
      var k := c.up - Depth(cwd);
      UpAndTail(root, k);
      GraftOnTop(c.down);
      RelSubdirectoryStrips(Up(root, k), Tail(root, k), c.down);
      RelativeIsSameExactlyWhen(Tail(root, k), c.down);
    }
  }

  // -------------------------------------------------------------------------------------- names only

  predicate OnlyNames(cs: Raw) {
    cs.Seg? ==> cs.first.Name? && OnlyNames(cs.rest)
  }

  lemma {:induction false} JoinIsWithin(p: Path, names: Raw)
    requires OnlyNames(names)
    ensures Within(Join(p, names), p)
    decreases names
  {
    if names.Seg? {
      var q := Push(p, names.first);
      JoinIsWithin(q, names.rest);
      WithinTransitive(Join(q, names.rest), q, p);
    }
  }

  lemma {:induction false} SplitHasOnlyNames(p: Path, tail: Raw)
    requires OnlyNames(tail)
    ensures OnlyNames(Split(p, tail)) && Join(Top, Split(p, tail)) == Join(p, tail)
  {
    WithinTop(p);
    if p.Below? {
      WithinTop(p.dir);
      SplitHasOnlyNames(p.dir, Seg(Name(p.name), tail));
    }
  }

  lemma {:induction false} JoinGrafts(dir: Path, q: Path, names: Raw)
    requires OnlyNames(names)
    ensures Graft(dir, Join(q, names)) == Join(Graft(dir, q), names)
    decreases names
  {
    if names.Seg? {
      JoinGrafts(dir, Push(q, names.first), names.rest);
    }
  }

  /** The names down to a path below another: first those down to the other, and then the rest. */
  lemma {:induction false} SplitAt(a: Path, q: Path, tail: Raw)
    requires Within(q, a)
    ensures Split(q, tail) == Split(a, Down(a, q, tail))
    decreases q
  {
    WithinTop(q);
    WithinTop(a);
    if q != a {
      WithinTop(q.dir);
      SplitAt(a, q.dir, Seg(Name(q.name), tail));
    }
  }

  lemma {:induction false} DownJoins(a: Path, q: Path, tail: Raw)
    requires Within(q, a) && OnlyNames(tail)
    ensures OnlyNames(Down(a, q, tail)) && Join(a, Down(a, q, tail)) == Join(q, tail)
    decreases q
  {
    if q != a {
      DownJoins(a, q.dir, Seg(Name(q.name), tail));
    }
  }
}
