/**
 Paths as the text that prefix tests and comparisons look at.
 */
module PathText {
  import opened Paths

  /** The path as text, with nothing for Top. */
  function Text(p: Path): string {
    if p.Top? then "" else Text(p.dir) + "/" + p.name
  }

  /** Names come from splitting at slashes. */
  predicate NoSlashes(p: Path) {
    p.Below? ==> '/' !in p.name && NoSlashes(p.dir)
  }

  lemma SlashAt(p: Path)
    requires p.Below?
    ensures |Text(p)| == |Text(p.dir)| + 1 + |p.name|
    ensures Text(p)[..|Text(p.dir)|] == Text(p.dir) && Text(p)[|Text(p.dir)|] == '/'
    ensures forall k :: |Text(p.dir)| < k < |Text(p)| ==> Text(p)[k] == p.name[k - |Text(p.dir)| - 1]
  {
  }

  lemma {:induction false} TextIsInjective(a: Path, b: Path)
    requires NoSlashes(a) && NoSlashes(b) && Text(a) == Text(b)
    ensures a == b
    decreases a
  {
    if a.Below? && b.Below? {
      SlashAt(a);
      SlashAt(b);
      var x, y := |Text(a.dir)|, |Text(b.dir)|;
      assert x == y;
      assert a.name == b.name by {
        assert a.name == Text(a)[x + 1..] && b.name == Text(b)[x + 1..];
      }
      TextIsInjective(a.dir, b.dir);
    }
  }

  lemma {:induction false} PrefixIsWithin(p: Path, v: Path)
    requires NoSlashes(p) && NoSlashes(v)
    ensures Text(v) + "/" <= Text(p) <==> Within(p, v) && p != v
    decreases p
  {
    if p.Below? {
      SlashAt(p);
      PrefixIsWithin(p.dir, v);
      var x, y := |Text(v)|, |Text(p.dir)|;
      if Text(v) + "/" <= Text(p) {
        assert Text(p)[x] == '/' && Text(p)[..x] == Text(v);
        if x < y {
          assert Text(v) + "/" <= Text(p.dir);
        } else if x == y {
          TextIsInjective(v, p.dir);
        }
        OwnParentIsOther(p);
      }
    }
  }

  lemma OwnParentIsOther(p: Path)
    requires p.Below?
    ensures !Within(p.dir, p)
  {
    if Within(p.dir, p) {
      WithinIsNotAbove(p.dir, p);
    }
  }
}
