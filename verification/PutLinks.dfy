/**
 Where the hard links of an archive lead, when it is extracted into a subdirectory.
 */
module PutLinks {
  import opened Paths
  import opened FileTree
  import opened SymlinkResolution
  import opened CopierPut

  /**
   The name of a hard link's target is taken relative to the root and then cut to what is
   below the target directory. With no symbolic links on the way, that is the path where
   an entry of that name was put, exactly when the two do not start with the same name.
   */
  lemma LinkTargetExactlyWhen(r: Request, t: Tree, linkname: Raw)
    requires LinkFree(SymlinksOf(t), Graft(r.target, RelSubdirectory(r.target, Join(Top, linkname))))
    ensures LinkTarget(r, SymlinksOf(t), linkname) ==
      Resolved(Graft(r.target, RelSubdirectory(r.target, Join(Top, linkname))))
    ensures LinkTarget(r, SymlinksOf(t), linkname) == Resolved(Graft(r.target, Join(Top, linkname))) <==>
      !StartAlike(r.target, Join(Top, linkname))
  {
    var name := Join(Top, linkname);
    var q := RelSubdirectory(r.target, name);
    RelSubdirectoryBelow(r.target, q);
    RelSubdirectoryBelow(r.target, name);
    LinkFreeResolvesToItself(Lookup(SymlinksOf(t), NoMatcher, r.target, true), q);
    RelativeIsSameExactlyWhen(r.target, name);
  }

  /** Extracted into /a, with a hard link to the archive's a/f: that is at /a/a/f, and the link leads to /a/f. */
  lemma LinkLeadsElsewhere(o: Options, privileged: bool)
    ensures var r, name := Request(Below(Top, "a"), o, privileged), Seg(Name("a"), Seg(Name("f"), End));
            && PathOf(r, Entry(name, RegularFile(""), SCRATCH_FILE)) == Below(Below(Below(Top, "a"), "a"), "f")
            && LinkTarget(r, map[], name) == Resolved(Below(Below(Top, "a"), "f"))
  {
    var a, name := Below(Top, "a"), Seg(Name("a"), Seg(Name("f"), End));
    var r, t := Request(a, o, privileged), Tree(map[], map[], 0);
    assert Join(Top, name) == Graft(a, Below(Top, "f"));
    RelSubdirectoryBelow(a, Below(Top, "f"));
    assert SymlinksOf(t) == map[];
    LinkTargetExactlyWhen(r, t, name);
  }
}
