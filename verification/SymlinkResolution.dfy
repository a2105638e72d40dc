/**
 Resolution of symbolic links below a root directory, without chroot: the loop of
 `resolvePath`, compared with a kernel-style walk inside a chroot.
 */
module SymlinkResolution {
  import opened Paths

  /** What readlink returns, by absolute path. A target is kept as its raw components. */
  type Links = map<Path, Raw>

  datatype Matcher = NoMatcher | Matcher(matches: Path -> bool)

  /** What stays fixed during one resolution. */
  datatype Lookup = Lookup(links: Links, pm: Matcher, root: Path, evaluateFinal: bool) {
    /** Whether the link found at p, for the first of the remaining components, gets followed. */
    predicate Follows(p: Path, rest: Raw) {
      p in links && !(rest.End? && !evaluateFinal)
    }
  }

  datatype Resolution = Resolved(path: Path) | TooManyLinks

  const MAX_LOOPS_FOLLOWED: nat := 64

  predicate IsAbsolute(target: Raw) {
    target.Seg? && target.first.Empty? && target.rest.Seg?
  }

  /** strings.Split of a cleaned relative path, where "." is the root itself. */
  function SplitRelative(q: Path): Raw {
    if q.Top? then Seg(Dot, End) else Split(q, End)
  }

  /** strings.Split(filepath.Clean("/" + rel), "/"), then the rest. */
  function SplitRooted(q: Path, rest: Raw): Raw {
    if q.Top? then Seg(Empty, Seg(Empty, rest)) else Seg(Empty, Split(q, rest))
  }

  predicate Excluded(l: Lookup, p: Path) {
    match l.pm
    case NoMatcher => false
    case Matcher(matches) =>
      var rel := RelSubdirectory(l.root, p);
      rel != Top && matches(rel)
  }

  /** Appending a component, scoped to the root. */
  function Advance(root: Path, wp: Path, c: Component): Path {
    var next := Push(wp, c);
    if next == Parent(root) then root else next
  }

  /** The components which replace a followed link. A relative target restarts from the root. */
  function Redirect(root: Path, wp: Path, target: Raw, rest: Raw): Raw {
    if IsAbsolute(target) then Append(target, rest)
    else SplitRooted(RelSubdirectory(root, Join(wp, target)), rest)
  }

  /** The loop of resolvePath, from an arbitrary point of its run. */
  function Resolve(l: Lookup, wp: Path, cs: Raw, followed: nat, excluded: bool): Resolution
    requires followed <= MAX_LOOPS_FOLLOWED
    decreases MAX_LOOPS_FOLLOWED - followed, cs
  {
    if cs.End? then Resolved(wp) else
      var at := Push(wp, cs.first);
      var nowExcluded := excluded || Excluded(l, at);
      if !nowExcluded && l.Follows(at, cs.rest) then
        if followed + 1 > MAX_LOOPS_FOLLOWED then TooManyLinks
        else Resolve(l, l.root, Redirect(l.root, wp, l.links[at], cs.rest), followed + 1, nowExcluded)
      else
        Resolve(l, Advance(l.root, wp, cs.first), cs.rest, followed, nowExcluded)
  }

  function ResolveSpec(l: Lookup, path: Path): Resolution {
    Resolve(l, l.root, SplitRelative(RelSubdirectory(l.root, path)), 0, false)
  }

  lemma {:induction false} DirOfRootIsOutside(root: Path)
    requires root.Below?
    ensures !Within(root.dir, root)
  {
    if Within(root.dir, root) {
      WithinIsNotAbove(root.dir, root);
    }
  }

  lemma AdvanceStaysWithin(root: Path, wp: Path, c: Component)
    requires Within(wp, root)
    ensures Within(Advance(root, wp, c), root)
  {
  }

  /**
   resolvePath. The loop ends for every symlink map, by the remaining link budget
   and then the remaining components, and never leaves the root.
   */
  method ResolvePath(l: Lookup, path: Path) returns (r: Resolution)
    ensures r == ResolveSpec(l, path)
    ensures r.Resolved? ==> Within(r.path, l.root)
  {
    var root := l.root;
    var workingPath, followed, excluded := root, 0, false;
    var components := SplitRelative(RelSubdirectory(root, path));
    while components.Seg?
      invariant followed <= MAX_LOOPS_FOLLOWED
      invariant Within(workingPath, root)
      invariant Resolve(l, workingPath, components, followed, excluded) == ResolveSpec(l, path)
      decreases MAX_LOOPS_FOLLOWED - followed, components
    {
      var here := Push(workingPath, components.first);
      excluded := excluded || Excluded(l, here);
      if !excluded && l.Follows(here, components.rest) {
        followed := followed + 1;
        if followed > MAX_LOOPS_FOLLOWED {
          return TooManyLinks;
        }
        components := Redirect(root, workingPath, l.links[here], components.rest);
        workingPath := root;
      } else {
        AdvanceStaysWithin(root, workingPath, components.first);
        workingPath := here;
        if workingPath == Parent(root) {
          workingPath := root;
        }
        components := components.rest;
      }
    }
    r := Resolved(workingPath);
  }

  // ---------------------------------------------------------------- reference

  /**
   A component-by-component walk inside a chroot: cwd is relative to the root, ".."
   stops at the root, and a relative target is walked from where the link is.
   */
  function Walk(l: Lookup, cwd: Path, cs: Raw, followed: nat): Resolution
    requires followed <= MAX_LOOPS_FOLLOWED
    decreases MAX_LOOPS_FOLLOWED - followed, cs
  {
    if cs.End? then Resolved(Graft(l.root, cwd)) else
      var next := Push(cwd, cs.first);
      var at := Graft(l.root, next);
      if cs.first.Name? && l.Follows(at, cs.rest) then
        if followed + 1 > MAX_LOOPS_FOLLOWED then TooManyLinks
        else Walk(l, if IsAbsolute(l.links[at]) then Top else cwd, Append(l.links[at], cs.rest), followed + 1)
      else
        Walk(l, next, cs.rest, followed)
  }

  /** No directory on the way to p, nor p itself, is a link. */
  predicate LinkFree(links: Links, p: Path) {
    p !in links && (p.Below? ==> LinkFree(links, p.dir))
  }

  predicate NoDotDot(cs: Raw) {
    cs.Seg? ==> !cs.first.DotDot? && NoDotDot(cs.rest)
  }

  /** Every name that a ".." comes after, somewhere in the target, is no link when it is walked to from cwd. */
  predicate Passable(links: Links, root: Path, cwd: Path, target: Raw)
    decreases target
  {
    || NoDotDot(target)
    || var next := Push(cwd, target.first);
       (target.first.Name? ==> Graft(root, next) !in links) && Passable(links, root, next, target.rest)
  }

  /** Every relative link below the root has no link before its "..", and keeps clear of the root's own names. */
  ghost predicate TameLinks(links: Links, root: Path) {
    forall q: Path :: q.Below? && Graft(root, q) in links ==>
      var target := links[Graft(root, q)];
      IsAbsolute(target) || (Passable(links, root, q.dir, target) && KeepsClear(root, q.dir, target))
  }

  function Denoise(cs: Raw): Raw {
    if cs.End? then End
    else if IsNoise(cs.first) then Denoise(cs.rest)
    else Seg(cs.first, Denoise(cs.rest))
  }

  /** The final-component rule sees the same final component with and without noise. */
  predicate FinalIsSolid(l: Lookup, cs: Raw) {
    l.evaluateFinal || (cs.Seg? && (if cs.rest.End? then !IsNoise(cs.first) else FinalIsSolid(l, cs.rest)))
  }

  lemma {:induction false} DenoiseAppend(a: Raw, b: Raw)
    ensures Denoise(Append(a, b)) == Append(Denoise(a), Denoise(b))
  {
    if a.Seg? {
      DenoiseAppend(a.rest, b);
    }
  }

  lemma {:induction false} DenoiseTwice(a: Raw)
    ensures Denoise(Denoise(a)) == Denoise(a)
  {
    if a.Seg? {
      DenoiseTwice(a.rest);
    }
  }

  lemma {:induction false} SolidAfterDenoise(l: Lookup, cs: Raw)
    requires FinalIsSolid(l, cs)
    ensures FinalIsSolid(l, Denoise(cs))
    ensures !l.evaluateFinal ==> Denoise(cs).Seg?
  {
    if cs.Seg? && cs.rest.Seg? && !l.evaluateFinal {
      SolidAfterDenoise(l, cs.rest);
    }
  }

  lemma {:induction false} SolidAfterAppend(l: Lookup, a: Raw, rest: Raw)
    requires FinalIsSolid(l, rest)
    ensures FinalIsSolid(l, Append(a, rest))
  {
    if a.Seg? {
      SolidAfterAppend(l, a.rest, rest);
      assert Append(a, rest).rest == Append(a.rest, rest);
    }
  }

  lemma {:induction false} WalkIgnoresNoise(l: Lookup, cwd: Path, cs: Raw, followed: nat)
    requires followed <= MAX_LOOPS_FOLLOWED && FinalIsSolid(l, cs)
    ensures Walk(l, cwd, cs, followed) == Walk(l, cwd, Denoise(cs), followed)
    decreases MAX_LOOPS_FOLLOWED - followed, cs
  {
    if cs.End? {
    } else if IsNoise(cs.first) {
      WalkIgnoresNoise(l, cwd, cs.rest, followed);
    } else {
      var at := Graft(l.root, Push(cwd, cs.first));
      if cs.rest.End? && !l.evaluateFinal {
        assert Denoise(cs) == cs;
      } else {
        SolidAfterDenoise(l, cs.rest);
        if cs.first.Name? && at in l.links {
          if followed < MAX_LOOPS_FOLLOWED {
            var from := if IsAbsolute(l.links[at]) then Top else cwd;
            var a, b := Append(l.links[at], cs.rest), Append(l.links[at], Denoise(cs.rest));
            SolidAfterAppend(l, l.links[at], cs.rest);
            SolidAfterAppend(l, l.links[at], Denoise(cs.rest));
            WalkIgnoresNoise(l, from, a, followed + 1);
            WalkIgnoresNoise(l, from, b, followed + 1);
            DenoiseAppend(l.links[at], cs.rest);
            DenoiseAppend(l.links[at], Denoise(cs.rest));
            DenoiseTwice(cs.rest);
          }
        } else {
          WalkIgnoresNoise(l, Push(cwd, cs.first), cs.rest, followed);
        }
      }
    }
  }

  lemma {:induction false} LinkFreeAbove(links: Links, dir: Path, q: Path)
    requires LinkFree(links, Graft(dir, q))
    ensures LinkFree(links, dir)
  {
    if q.Below? {
      LinkFreeAbove(links, dir, q.dir);
    }
  }

  /** Walking down a link-free directory follows nothing. */
  lemma {:induction false} WalkDown(l: Lookup, cwd: Path, cs: Raw, followed: nat)
    requires followed <= MAX_LOOPS_FOLLOWED && LinkFree(l.links, Graft(l.root, cwd))
    ensures Walk(l, Top, Split(cwd, cs), followed) == Walk(l, cwd, cs, followed)
    decreases cwd
  {
    if cwd.Below? {
      WithinTop(cwd);
      WithinTop(cwd.dir);
      WalkDown(l, cwd.dir, Seg(Name(cwd.name), cs), followed);
    }
  }

  /** A target without ".." is joined by going down its names. */
  lemma {:induction false} SplitJoinNames(p: Path, cs: Raw, rest: Raw)
    requires NoDotDot(cs)
    ensures Split(Join(p, cs), rest) == Split(p, Append(Denoise(cs), rest))
    decreases cs
  {
    if cs.Seg? {
      SplitJoinNames(Push(p, cs.first), cs.rest, rest);
      WithinTop(p);
    }
  }

  lemma WalkNames(l: Lookup, cwd: Path, target: Raw, rest: Raw, followed: nat)
    requires followed <= MAX_LOOPS_FOLLOWED && FinalIsSolid(l, rest)
    requires LinkFree(l.links, Graft(l.root, cwd)) && NoDotDot(target)
    ensures Walk(l, cwd, Append(target, rest), followed) == Walk(l, Top, Split(Join(cwd, target), rest), followed)
  {
    var names := Denoise(target);
    SplitJoinNames(cwd, target, rest);
    WalkDown(l, cwd, Append(names, rest), followed);
    SolidAfterAppend(l, target, rest);
    SolidAfterAppend(l, names, rest);
    WalkIgnoresNoise(l, cwd, Append(target, rest), followed);
    WalkIgnoresNoise(l, cwd, Append(names, rest), followed);
    DenoiseAppend(target, rest);
    DenoiseAppend(names, rest);
    DenoiseTwice(target);
  }

  /** A tame relative target reaches the same place from the link and from the root. */
  lemma {:induction false} WalkTarget(l: Lookup, cwd: Path, target: Raw, rest: Raw, followed: nat)
    requires followed <= MAX_LOOPS_FOLLOWED && FinalIsSolid(l, rest)
    requires LinkFree(l.links, Graft(l.root, cwd)) && Passable(l.links, l.root, cwd, target)
    ensures Walk(l, cwd, Append(target, rest), followed) == Walk(l, Top, Split(Join(cwd, target), rest), followed)
    decreases target
  {
    if NoDotDot(target) {
      WalkNames(l, cwd, target, rest, followed);
    } else {
      NextIsLinkFree(l, cwd, target.first);
      WalkTarget(l, Push(cwd, target.first), target.rest, rest, followed);
    }
  }

  /** Below the root, resolvePath's scoped step is the walk's step. */
  lemma StepBelowRoot(root: Path, cwd: Path, c: Component)
    ensures Advance(root, Graft(root, cwd), c) == Graft(root, Push(cwd, c))
  {
    GraftIsWithin(root, cwd);
    GraftIsWithin(root, Push(cwd, c));
    if root.Below? {
      DirOfRootIsOutside(root);
    }
  }

  /** One turn of the loop that follows nothing, at a link-free working path. */
  lemma PlainTurn(l: Lookup, cwd: Path, cs: Raw, followed: nat)
    requires cs.Seg? && followed <= MAX_LOOPS_FOLLOWED && l.pm.NoMatcher?
    requires LinkFree(l.links, Graft(l.root, cwd))
    requires cs.first.Name? ==> !l.Follows(Graft(l.root, Push(cwd, cs.first)), cs.rest)
    ensures Resolve(l, Graft(l.root, cwd), cs, followed, false)
         == Resolve(l, Graft(l.root, Push(cwd, cs.first)), cs.rest, followed, false)
  {
    StepBelowRoot(l.root, cwd, cs.first);
  }

  lemma NextIsLinkFree(l: Lookup, cwd: Path, c: Component)
    requires LinkFree(l.links, Graft(l.root, cwd))
    requires c.Name? ==> Graft(l.root, Push(cwd, c)) !in l.links
    ensures LinkFree(l.links, Graft(l.root, Push(cwd, c)))
  {
  }

  /** From any point of the run, resolvePath's loop and the chroot walk agree. */
  lemma {:induction false} LoopRefinesWalk(l: Lookup, cwd: Path, cs: Raw, followed: nat)
    requires followed <= MAX_LOOPS_FOLLOWED && FinalIsSolid(l, cs) && l.pm.NoMatcher?
    requires LinkFree(l.links, Graft(l.root, cwd)) && TameLinks(l.links, l.root)
    ensures Resolve(l, Graft(l.root, cwd), cs, followed, false) == Walk(l, cwd, cs, followed)
    decreases MAX_LOOPS_FOLLOWED - followed, cs
  {
    if cs.Seg? {
      var next := Push(cwd, cs.first);
      var at := Graft(l.root, next);
      if cs.first.Name? && l.Follows(at, cs.rest) {
        if followed < MAX_LOOPS_FOLLOWED {
          var target := l.links[at];
          var redirected := Redirect(l.root, Graft(l.root, cwd), target, cs.rest);
          RedirectedWalk(l, cwd, target, cs.rest, followed + 1);
          LinkFreeAbove(l.links, l.root, cwd);
          LoopRefinesWalk(l, Top, redirected, followed + 1);
        }
      } else {
        PlainTurn(l, cwd, cs, followed);
        if cs.rest.Seg? || l.evaluateFinal {
          NextIsLinkFree(l, cwd, cs.first);
          LoopRefinesWalk(l, next, cs.rest, followed);
        }
      }
    }
  }

  lemma {:induction false} SolidAfterSplit(l: Lookup, q: Path, rest: Raw)
    requires FinalIsSolid(l, rest)
    ensures FinalIsSolid(l, Split(q, rest))
    decreases q
  {
    if q.Below? {
      WithinTop(q.dir);
      SolidAfterSplit(l, q.dir, Seg(Name(q.name), rest));
    }
  }

  /** Restarting from the root with the cleaned target walks to where the target leads. */
  lemma RedirectedWalk(l: Lookup, cwd: Path, target: Raw, rest: Raw, followed: nat)
    requires followed <= MAX_LOOPS_FOLLOWED && FinalIsSolid(l, rest)
    requires LinkFree(l.links, Graft(l.root, cwd))
    requires IsAbsolute(target) || (Passable(l.links, l.root, cwd, target) && KeepsClear(l.root, cwd, target))
    ensures var cs := Redirect(l.root, Graft(l.root, cwd), target, rest);
            && FinalIsSolid(l, cs)
            && Walk(l, Top, cs, followed) ==
              Walk(l, if IsAbsolute(target) then Top else cwd, Append(target, rest), followed)
  {
    if IsAbsolute(target) {
      SolidAfterAppend(l, target, rest);
    } else {
      var q := Join(cwd, target);
      JoinsAlikeExactlyWhen(l.root, cwd, target);
      SolidAfterSplit(l, q, rest);
      WalkTarget(l, cwd, target, rest, followed);
    }
  }

  /**
   With no excludes, a link-free root and tame relative links, resolvePath returns
   what a chroot walk of the cleaned input returns, including when it gives up.
   */
  lemma ResolveRefinesChrootWalk(l: Lookup, path: Path)
    requires l.pm.NoMatcher? && LinkFree(l.links, l.root) && TameLinks(l.links, l.root)
    ensures ResolveSpec(l, path) == Walk(l, Top, Split(RelSubdirectory(l.root, path), End), 0)
  {
    var q := RelSubdirectory(l.root, path);
    if q.Top? {
      PlainTurn(l, Top, Seg(Dot, End), 0);
    } else {
      var cs := Split(q, End);
      assert FinalIsSolid(l, cs) by {
        WithinTop(q.dir);
        SolidAfterSplit(l, q.dir, Seg(Name(q.name), End));
      }
      LoopRefinesWalk(l, Top, cs, 0);
    }
  }

  /** The working path is link-free at every turn, for any link targets whatever. */
  lemma {:induction false} ResolvedIsLinkFree(l: Lookup, cwd: Path, cs: Raw, followed: nat)
    requires followed <= MAX_LOOPS_FOLLOWED && l.pm.NoMatcher? && l.evaluateFinal
    requires LinkFree(l.links, Graft(l.root, cwd))
    ensures var r := Resolve(l, Graft(l.root, cwd), cs, followed, false);
            r.Resolved? ==> Within(r.path, l.root) && LinkFree(l.links, r.path)
    decreases MAX_LOOPS_FOLLOWED - followed, cs
  {
    GraftIsWithin(l.root, cwd);
    if cs.Seg? {
      var at := Graft(l.root, Push(cwd, cs.first));
      if cs.first.Name? && at in l.links {
        if followed < MAX_LOOPS_FOLLOWED {
          LinkFreeAbove(l.links, l.root, cwd);
          ResolvedIsLinkFree(l, Top, Redirect(l.root, Graft(l.root, cwd), l.links[at], cs.rest), followed + 1);
        }
      } else {
        PlainTurn(l, cwd, cs, followed);
        NextIsLinkFree(l, cwd, cs.first);
        ResolvedIsLinkFree(l, Push(cwd, cs.first), cs.rest, followed);
      }
    }
  }

  lemma {:induction false} ResolveDown(l: Lookup, cwd: Path, cs: Raw, followed: nat)
    requires l.pm.NoMatcher? && LinkFree(l.links, Graft(l.root, cwd)) && followed <= MAX_LOOPS_FOLLOWED
    ensures Resolve(l, l.root, Split(cwd, cs), followed, false) == Resolve(l, Graft(l.root, cwd), cs, followed, false)
    decreases cwd
  {
    if cwd.Below? {
      WithinTop(cwd.dir);
      ResolveDown(l, cwd.dir, Seg(Name(cwd.name), cs), followed);
      PlainTurn(l, cwd.dir, Seg(Name(cwd.name), cs), followed);
    }
  }

  /** A path with no links on the way resolves to itself. */
  lemma LinkFreeResolvesToItself(l: Lookup, q: Path)
    requires l.pm.NoMatcher? && LinkFree(l.links, Graft(l.root, q))
    ensures ResolveSpec(l, Graft(l.root, q)) == Resolved(Graft(l.root, q))
  {
    RelSubdirectoryBelow(l.root, q);
    if q.Top? {
      PlainTurn(l, Top, Seg(Dot, End), 0);
    } else {
      ResolveDown(l, q, End, 0);
    }
  }

  /** With final links evaluated, the result of a resolution is a fixed point of resolution. */
  lemma ResolutionIsIdempotent(l: Lookup, path: Path)
    requires l.pm.NoMatcher? && l.evaluateFinal && LinkFree(l.links, l.root)
    ensures var r := ResolveSpec(l, path);
            r.Resolved? ==> ResolveSpec(l, r.path) == r
  {
    var r := ResolveSpec(l, path);
    ResolvedIsLinkFree(l, Top, SplitRelative(RelSubdirectory(l.root, path)), 0);
    if r.Resolved? {
      var q := Ungraft(r.path, l.root);
      LinkFreeResolvesToItself(l, q);
    }
  }

  // ------------------------------------------------------- where it does not refine

  /** No name that is walked to from cwd is a link. */
  predicate NoLinksAlong(links: Links, root: Path, cwd: Path, cs: Raw)
    decreases cs
  {
    cs.Seg? ==>
      var next := Push(cwd, cs.first);
      (cs.first.Name? ==> Graft(root, next) !in links) && NoLinksAlong(links, root, next, cs.rest)
  }

  lemma {:induction false} WalkAlong(l: Lookup, cwd: Path, cs: Raw, rest: Raw, followed: nat)
    requires followed <= MAX_LOOPS_FOLLOWED && NoLinksAlong(l.links, l.root, cwd, cs)
    ensures Walk(l, cwd, Append(cs, rest), followed) == Walk(l, Join(cwd, cs), rest, followed)
    decreases cs
  {
    if cs.Seg? {
      WalkAlong(l, Push(cwd, cs.first), cs.rest, rest, followed);
    }
  }

  lemma {:induction false} JoinAppend(p: Path, a: Raw, b: Raw)
    ensures Join(p, Append(a, b)) == Join(Join(p, a), b)
    decreases a
  {
    if a.Seg? {
      JoinAppend(Push(p, a.first), a.rest, b);
    }
  }

  lemma {:induction false} AppendEnd(cs: Raw)
    ensures Append(cs, End) == cs
  {
    if cs.Seg? {
      AppendEnd(cs.rest);
    }
  }

  /** The loop restarts from the root with a cleaned path that no link is on. */
  lemma ResolveRedirected(l: Lookup, q: Path, followed: nat)
    requires l.pm.NoMatcher? && LinkFree(l.links, Graft(l.root, q)) && followed <= MAX_LOOPS_FOLLOWED
    ensures Resolve(l, l.root, SplitRooted(q, End), followed, false) == Resolved(Graft(l.root, q))
  {
    LinkFreeAbove(l.links, l.root, q);
    PlainTurn(l, Top, SplitRooted(q, End), followed);
    if q.Top? {
      PlainTurn(l, Top, Seg(Empty, End), followed);
    } else {
      ResolveDown(l, q, End, followed);
    }
  }

  /** A relative link, whatever its target: the loop goes to the joined and cut path. */
  lemma LinkResolves(l: Lookup, cwd: Path, name: string)
    requires l.pm.NoMatcher? && l.evaluateFinal && LinkFree(l.links, Graft(l.root, cwd))
    requires Graft(l.root, Below(cwd, name)) in l.links
    requires var target := l.links[Graft(l.root, Below(cwd, name))];
      && !IsAbsolute(target)
      && LinkFree(l.links, Graft(l.root, RelSubdirectory(l.root, Join(Graft(l.root, cwd), target))))
    ensures var at := Graft(l.root, Below(cwd, name));
      ResolveSpec(l, at) == Resolved(Graft(l.root, RelSubdirectory(l.root, Join(Graft(l.root, cwd), l.links[at]))))
  {
    var at := Graft(l.root, Below(cwd, name));
    RelSubdirectoryBelow(l.root, Below(cwd, name));
    WithinTop(cwd);
    ResolveDown(l, cwd, Seg(Name(name), End), 0);
    ResolveRedirected(l, RelSubdirectory(l.root, Join(Graft(l.root, cwd), l.links[at])), 1);
  }

  /** The walk goes to the link and on from there, having followed one link. */
  lemma LinkIsWalked(l: Lookup, cwd: Path, name: string)
    requires l.evaluateFinal && LinkFree(l.links, Graft(l.root, cwd))
    requires Graft(l.root, Below(cwd, name)) in l.links && !IsAbsolute(l.links[Graft(l.root, Below(cwd, name))])
    ensures Walk(l, Top, Split(Below(cwd, name), End), 0) == Walk(l, cwd, l.links[Graft(l.root, Below(cwd, name))], 1)
  {
    WithinTop(cwd);
    WalkDown(l, cwd, Seg(Name(name), End), 0);
    AppendEnd(l.links[Graft(l.root, Below(cwd, name))]);
  }

  /**
   Any relative link with no further links on the way: it resolves as in a chroot exactly
   when it does not climb above the root, or comes back by other names than the root's.
   */
  lemma ClimbingLinkExactlyWhen(l: Lookup, cwd: Path, name: string)
    requires l.pm.NoMatcher? && l.evaluateFinal && LinkFree(l.links, Graft(l.root, cwd))
    requires Graft(l.root, Below(cwd, name)) in l.links
    requires var target := l.links[Graft(l.root, Below(cwd, name))];
      && !IsAbsolute(target) && NoLinksAlong(l.links, l.root, cwd, target)
      && LinkFree(l.links, Graft(l.root, RelSubdirectory(l.root, Join(Graft(l.root, cwd), target))))
    ensures var at := Graft(l.root, Below(cwd, name));
      && Walk(l, Top, Split(Below(cwd, name), End), 0) == Resolved(Graft(l.root, Join(cwd, l.links[at])))
      && (ResolveSpec(l, at) == Walk(l, Top, Split(Below(cwd, name), End), 0) <==> KeepsClear(l.root, cwd, l.links[at]))
  {
    var target := l.links[Graft(l.root, Below(cwd, name))];
    LinkResolves(l, cwd, name);
    LinkIsWalked(l, cwd, name);
    AppendEnd(target);
    WalkAlong(l, cwd, target, End, 1);
    JoinsAlikeExactlyWhen(l.root, cwd, target);
    RelSubdirectoryBelow(l.root, Join(cwd, target));
    RelSubdirectoryBelow(l.root, RelSubdirectory(l.root, Join(Graft(l.root, cwd), target)));
  }

  /** A relative link that climbs above the root and comes back by the root's own name lands elsewhere. */
  lemma ClimbingLinkMissesTheWalk()
    ensures var root := Below(Top, "r");
            var dir := Below(root, "a");
            var target := Seg(DotDot, Seg(DotDot, Seg(Name("r"), Seg(Name("x"), End))));
            var l := Lookup(map[Below(dir, "l") := target], NoMatcher, root, true);
            && ResolveSpec(l, Below(dir, "l")) == Resolved(Below(root, "x"))
            && Walk(l, Top, Seg(Name("a"), Seg(Name("l"), End)), 0) == Resolved(Below(Below(root, "r"), "x"))
  {
    var root := Below(Top, "r");
    var cwd := Below(Top, "a");
    var target := Seg(DotDot, Seg(DotDot, Seg(Name("r"), Seg(Name("x"), End))));
    var l := Lookup(map[Below(Below(root, "a"), "l") := target], NoMatcher, root, true);
    assert Join(Below(root, "a"), target) == Graft(root, Below(Top, "x"));
    RelSubdirectoryBelow(root, Below(Top, "x"));
    assert Join(cwd, target) == Below(Below(Top, "r"), "x");
    LinkResolves(l, cwd, "l");
    ClimbingLinkExactlyWhen(l, cwd, "l");
    WithinTop(cwd);
  }

  lemma {:induction false} GraftBaseIsUnique(a: Path, b: Path, q: Path)
    requires Graft(a, q) == Graft(b, q)
    ensures a == b
  {
    if q.Below? {
      GraftBaseIsUnique(a, b, q.dir);
    }
  }

  /**
   A relative link with a ".." right after the name of another link, which the cleaning of
   paths cancels. The walk goes on from above where that other link leads. The two agree
   exactly when that comes to the same directory, as far up as the rest climbs.
   */
  lemma CancelledLinkExactlyWhen(l: Lookup, cwd: Path, name: string, before: Raw, other: string, after: Raw)
    requires l.pm.NoMatcher? && l.evaluateFinal && LinkFree(l.links, Graft(l.root, cwd))
    requires Graft(l.root, Below(cwd, name)) in l.links
    requires var target := l.links[Graft(l.root, Below(cwd, name))];
      && target == Append(before, Seg(Name(other), Seg(DotDot, after))) && !IsAbsolute(target)
      && NoLinksAlong(l.links, l.root, cwd, before) && KeepsClear(l.root, cwd, target)
    requires var dir := Join(cwd, before);
      && Graft(l.root, Below(dir, other)) in l.links && LinkFree(l.links, Graft(l.root, Join(dir, after)))
      && var onward := l.links[Graft(l.root, Below(dir, other))];
         var from := if IsAbsolute(onward) then Top else dir;
         NoLinksAlong(l.links, l.root, from, onward) && NoLinksAlong(l.links, l.root, Parent(Join(from, onward)), after)
    ensures var dir := Join(cwd, before);
      var onward := l.links[Graft(l.root, Below(dir, other))];
      var there := Join(if IsAbsolute(onward) then Top else dir, onward);
      && ResolveSpec(l, Graft(l.root, Below(cwd, name))) == Resolved(Graft(l.root, Join(dir, after)))
      && Walk(l, Top, Split(Below(cwd, name), End), 0) == Resolved(Graft(l.root, Join(Parent(there), after)))
      && (ResolveSpec(l, Graft(l.root, Below(cwd, name))) == Walk(l, Top, Split(Below(cwd, name), End), 0) <==>
         Up(Parent(there), Net(after).up) == Up(dir, Net(after).up))
  {
    var target := l.links[Graft(l.root, Below(cwd, name))];
    var dir := Join(cwd, before);
    var rest := Seg(DotDot, after);
    var onward := l.links[Graft(l.root, Below(dir, other))];
    var from := if IsAbsolute(onward) then Top else dir;
    var there := Join(from, onward);
    JoinAppend(cwd, before, Seg(Name(other), rest));
    assert Join(cwd, target) == Join(dir, after);
    JoinsAlikeExactlyWhen(l.root, cwd, target);
    LinkResolves(l, cwd, name);
    LinkIsWalked(l, cwd, name);
    WalkAlong(l, cwd, before, Seg(Name(other), rest), 1);
    WalkAlong(l, from, onward, rest, 2);
    AppendEnd(after);
    WalkAlong(l, Parent(there), after, End, 2);
    JoinIsNet(Parent(there), after);
    JoinIsNet(dir, after);
    RelSubdirectoryBelow(l.root, Join(dir, after));
    RelSubdirectoryBelow(l.root, Join(Parent(there), after));
    if Join(Parent(there), after) == Join(dir, after) {
      GraftBaseIsUnique(Up(Parent(there), Net(after).up), Up(dir, Net(after).up), Net(after).down);
    }
  }

  /** The link a/../b, next to a link a that leads to /x/y, resolves to b and is walked to /x/b. */
  lemma CancelledLinkMissesTheWalk(root: Path)
    ensures var links := map[
              Graft(root, Below(Top, "l")) := Seg(Name("a"), Seg(DotDot, Seg(Name("b"), End))),
              Graft(root, Below(Top, "a")) := Seg(Empty, Seg(Name("x"), Seg(Name("y"), End)))];
            var l := Lookup(links, NoMatcher, root, true);
            && ResolveSpec(l, Graft(root, Below(Top, "l"))) == Resolved(Below(root, "b"))
            && Walk(l, Top, Seg(Name("l"), End), 0) == Resolved(Below(Below(root, "x"), "b"))
  {
    var after := Seg(Name("b"), End);
    var links := map[
      Graft(root, Below(Top, "l")) := Seg(Name("a"), Seg(DotDot, after)),
      Graft(root, Below(Top, "a")) := Seg(Empty, Seg(Name("x"), Seg(Name("y"), End)))];
    var l := Lookup(links, NoMatcher, root, true);
    assert Graft(root, Top) == root;
    assert Graft(root, Below(Top, "l")) == Below(root, "l") && Graft(root, Below(Top, "a")) == Below(root, "a");
    assert Graft(root, Below(Top, "b")) == Below(root, "b") && Graft(root, Below(Top, "x")) == Below(root, "x");
    NotBelowItself(links, root, root);
    assert Join(Top, links[Graft(root, Below(Top, "a"))]) == Below(Below(Top, "x"), "y");
    CancelledLinkExactlyWhen(l, Top, "l", End, "a", after);
  }

  /** Links just below a directory are on no way to it. */
  lemma {:induction false} NotBelowItself(links: Links, root: Path, p: Path)
    requires Within(root, p) && forall q :: q in links ==> q.Below? && q.dir == root
    ensures LinkFree(links, p)
    decreases p
  {
    if p in links {
      WithinIsNotAbove(root, p);
    }
    if p.Below? {
      WithinTransitive(root, p, p.dir);
      NotBelowItself(links, root, p.dir);
    }
  }

  // ----------------------------------------------------------------------------- a simple kind of link

  /** All ".." come before all names, and there are at most depth of them. */
  predicate DotsFirst(target: Raw, depth: nat)
    decreases target
  {
    match target
    case End => true
    case Seg(Name(_), rest) => NoDotDot(rest)
    case Seg(DotDot, rest) => depth > 0 && DotsFirst(rest, depth - 1)
    case Seg(_, rest) => DotsFirst(rest, depth)
  }

  lemma {:induction false} NamesDoNotClimb(c: Climb, cs: Raw)
    requires NoDotDot(cs)
    ensures ClimbOn(c, cs).up == c.up
    decreases cs
  {
    if cs.Seg? {
      NamesDoNotClimb(if cs.first.Name? then Climb(c.up, Below(c.down, cs.first.text)) else c, cs.rest);
    }
  }

  lemma {:induction false} DotsClimbTheirNumber(up: nat, target: Raw, depth: nat)
    requires DotsFirst(target, depth)
    ensures ClimbOn(Climb(up, Top), target).up <= up + depth
    decreases target
  {
    if target.Seg? {
      if target.first.Name? {
        NamesDoNotClimb(Climb(up, Top), target);
      } else if target.first.DotDot? {
        DotsClimbTheirNumber(up + 1, target.rest, depth - 1);
      } else {
        DotsClimbTheirNumber(up, target.rest, depth);
      }
    }
  }

  /** A target with its dots first, which do not climb above the root, is tame whatever links there are. */
  lemma {:induction false} DotsFirstIsTame(links: Links, root: Path, cwd: Path, target: Raw)
    requires DotsFirst(target, Depth(cwd))
    ensures Passable(links, root, cwd, target) && KeepsClear(root, cwd, target)
  {
    DotsClimbTheirNumber(0, target, Depth(cwd));
    DotsFirstIsPassable(links, root, cwd, target, Depth(cwd));
  }

  lemma {:induction false} DotsFirstIsPassable(links: Links, root: Path, cwd: Path, target: Raw, depth: nat)
    requires DotsFirst(target, depth)
    ensures Passable(links, root, cwd, target)
    decreases target
  {
    if !NoDotDot(target) {
      DotsFirstIsPassable(links, root, Push(cwd, target.first), target.rest,
        if target.first.DotDot? then depth - 1 else depth);
    }
  }

  // ---------------------------------------------------------------------------- how many links

  /** Each of the names in a directory is a link to the next one, and the last one is not a link. */
  ghost predicate IsChain(links: Links, dir: Path, names: seq<string>) {
    && names != [] && dir !in links && Below(dir, names[|names| - 1]) !in links
    && forall k :: 0 <= k < |names| - 1 ==>
      Below(dir, names[k]) in links && links[Below(dir, names[k])] == Seg(Name(names[k + 1]), End)
  }

  lemma SplitName(name: string, tail: Raw)
    ensures Split(Below(Top, name), tail) == Seg(Name(name), tail)
  {
    assert Down(Top, Top, Seg(Name(name), tail)) == Seg(Name(name), tail);
  }

  /** One link of a chain is followed. */
  lemma RedirectInChain(root: Path, name: string)
    ensures Redirect(root, root, Seg(Name(name), End), End) == Seg(Empty, Seg(Name(name), End))
  {
    assert Graft(root, Top) == root && Graft(root, Below(Top, name)) == Below(root, name);
    assert Join(Below(root, name), End) == Below(root, name);
    RelSubdirectoryBelow(root, Below(Top, name));
    SplitName(name, End);
  }

  lemma {:induction false} ChainFrom(l: Lookup, names: seq<string>, k: nat, followed: nat)
    requires l.pm.NoMatcher? && l.evaluateFinal && IsChain(l.links, l.root, names) && k < |names|
    requires followed <= MAX_LOOPS_FOLLOWED
    ensures Resolve(l, l.root, Seg(Name(names[k]), End), followed, false) ==
      if followed + (|names| - 1 - k) <= 64 then Resolved(Below(l.root, names[|names| - 1])) else TooManyLinks
    decreases |names| - k
  {
    var cs := Seg(Name(names[k]), End);
    if k == |names| - 1 {
      assert Advance(l.root, l.root, Name(names[k])) == Below(l.root, names[k]) by {
        if Below(l.root, names[k]) == Parent(l.root) {
          WithinIsNotAbove(Below(l.root, names[k]), l.root);
        }
      }
      assert Resolve(l, Below(l.root, names[k]), End, followed, false) == Resolved(Below(l.root, names[k]));
    } else if followed < MAX_LOOPS_FOLLOWED {
      RedirectInChain(l.root, names[k + 1]);
      var next := Seg(Name(names[k + 1]), End);
      assert Resolve(l, l.root, cs, followed, false) == Resolve(l, l.root, Seg(Empty, next), followed + 1, false);
      assert Advance(l.root, l.root, Empty) == l.root;
      assert Resolve(l, l.root, Seg(Empty, next), followed + 1, false) == Resolve(l, l.root, next, followed + 1, false);
      ChainFrom(l, names, k + 1, followed + 1);
    }
  }

  /** A chain of links is resolved to its end exactly if there are not more than 64 of them. */
  lemma ChainExactlyWhen(l: Lookup, names: seq<string>)
    requires l.pm.NoMatcher? && l.evaluateFinal && IsChain(l.links, l.root, names)
    ensures ResolveSpec(l, Below(l.root, names[0])) ==
      if |names| - 1 <= 64 then Resolved(Below(l.root, names[|names| - 1])) else TooManyLinks
  {
    RelSubdirectoryBelow(l.root, Below(Top, names[0]));
    SplitName(names[0], End);
    ChainFrom(l, names, 0, 0);
    hide Resolve;
  }

  // --------------------------------------------------------------------------------- what is excluded

  lemma {:induction false} AdvanceDown(root: Path, wp: Path, name: string)
    requires Within(wp, root)
    ensures Advance(root, wp, Name(name)) == Below(wp, name)
  {
    if Below(wp, name) == Parent(root) {
      WithinIsNotAbove(root, Parent(root));
      WithinIsNotAbove(Below(wp, name), root);
    }
  }

  /** Once something on the way is excluded, no link is followed any more. */
  lemma {:induction false} ExcludedGoesDown(l: Lookup, wp: Path, names: Raw, followed: nat)
    requires followed <= MAX_LOOPS_FOLLOWED && Within(wp, l.root) && OnlyNames(names)
    ensures Resolve(l, wp, names, followed, true) == Resolved(Join(wp, names))
    decreases names
  {
    if names.Seg? {
      AdvanceDown(l.root, wp, names.first.text);
      ExcludedGoesDown(l, Below(wp, names.first.text), names.rest, followed);
    }
  }

  /** What is excluded is what the patterns match, relative to the root, and never the root itself. */
  lemma ExcludedExactlyWhen(l: Lookup, q: Path)
    ensures Excluded(l, Graft(l.root, q)) <==> l.pm.Matcher? && q != Top && l.pm.matches(q)
  {
    RelSubdirectoryBelow(l.root, q);
  }

  /** One name further down, which is not a link, or is excluded. */
  lemma OneDown(l: Lookup, d: Path, name: string, tail: Raw)
    requires OnlyNames(tail)
    requires Excluded(l, Graft(l.root, Below(d, name))) || Graft(l.root, Below(d, name)) !in l.links
    ensures var wp, at := Graft(l.root, d), Graft(l.root, Below(d, name));
      Resolve(l, wp, Seg(Name(name), tail), 0, false) ==
        if Excluded(l, at) then Resolved(Join(at, tail)) else Resolve(l, at, tail, 0, false)
  {
    var wp, at := Graft(l.root, d), Graft(l.root, Below(d, name));
    GraftIsWithin(l.root, d);
    GraftIsWithin(l.root, Below(d, name));
    AdvanceDown(l.root, wp, name);
    if Excluded(l, at) {
      ExcludedGoesDown(l, at, tail, 0);
    }
    hide Excluded;
  }

  /** Down a way without links: what is excluded on it makes no difference. */
  lemma {:induction false} DownTheWay(l: Lookup, d: Path, tail: Raw)
    requires OnlyNames(tail) && forall e :: Within(d, e) && e != Top ==> Graft(l.root, e) !in l.links
    ensures var r := Resolve(l, l.root, Split(d, tail), 0, false);
      r == Resolve(l, Graft(l.root, d), tail, 0, false) || r == Resolved(Join(Graft(l.root, d), tail))
    decreases d
  {
    WithinTop(d);
    if d.Below? {
      WithinTop(d.dir);
      DownTheWay(l, d.dir, Seg(Name(d.name), tail));
      OneDown(l, d.dir, d.name, tail);
      hide Resolve;
    }
  }

  /** Whatever is excluded hides all links there and below: paths through it resolve to themselves. */
  lemma ExcludedResolvesToItself(l: Lookup, a: Path, q: Path)
    requires l.pm.Matcher? && a.Below? && l.pm.matches(a) && Within(q, a)
    requires forall e :: Within(a.dir, e) && e != Top ==> Graft(l.root, e) !in l.links
    ensures ResolveSpec(l, Graft(l.root, q)) == Resolved(Graft(l.root, q))
  {
    var rest := Down(a, q, End);
    DownJoins(a, q, End);
    SplitAt(a, q, End);
    RelSubdirectoryBelow(l.root, q);
    WithinTop(a);
    WithinTop(a.dir);
    assert Split(a, rest) == Split(a.dir, Seg(Name(a.name), rest));
    DownTheWay(l, a.dir, Seg(Name(a.name), rest));
    ExcludedExactlyWhen(l, a);
    OneDown(l, a.dir, a.name, rest);
    JoinGrafts(l.root, a, rest);
    hide Resolve;
    hide Excluded;
  }
}
