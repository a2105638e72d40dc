/**
 The digest of what an instruction added. It becomes part of the history that later
 builds compare with, so two additions must be summarised alike exactly when they are.
 */
module ContentSummary {

  /** Encoded digests: hexadecimal digits, with no separator among them. */
  ghost predicate Encoded(d: string) {
    d != "" && ',' !in d && ':' !in d
  }

  /** The digest function, on bytes written as characters. */
  type Hash = string -> string

  ghost predicate Encodes(hash: Hash) {
    forall s :: Encoded(hash(s))
  }

  /** An item, with all that was written for it. */
  datatype Item = Item(contentType: string, written: string)

  predicate KnownType(t: string) {
    t == "" || t == "file" || t == "dir"
  }

  /** What is digested for an item: an archive goes through the filter that clears its times. */
  function Digested(filter: string -> string, x: Item): string {
    if x.contentType == "" then x.written else filter(x.written)
  }

  /** An item's type and the encoded digest of its content. */
  datatype Tag = Tag(contentType: string, digest: string)

  function TagOf(hash: Hash, filter: string -> string, x: Item): Tag {
    Tag(x.contentType, hash(Digested(filter, x)))
  }

  function Tags(hash: Hash, filter: string -> string, xs: seq<Item>): seq<Tag> {
    seq(|xs|, k requires 0 <= k < |xs| => TagOf(hash, filter, xs[k]))
  }

  /** A type and a digest, as they are written down. */
  function Line(t: Tag): string {
    if t.contentType == "" then t.digest else t.contentType + ":" + t.digest
  }

  function Text(ts: seq<Tag>): string {
    if ts == [] then ""
    else if |ts| == 1 then Line(ts[0])
    else Text(ts[..|ts| - 1]) + "," + Line(ts[|ts| - 1])
  }

  /** The type and the digest of a list of items. */
  function DigestOf(hash: Hash, ts: seq<Tag>): Tag {
    if ts == [] then Tag("", "") else if |ts| == 1 then ts[0] else Tag("multi", hash(Text(ts)))
  }

  function Summary(t: Tag): string {
    if t.digest == "" then t.contentType else Line(t)
  }

  // ------------------------------------------------------------------------------------ the digester

  /**
   A digester that has been started. An archive's bytes reach its digest through a filter
   that runs beside the writer: passed counts those that have got there.
   */
  datatype Digester = Digester(item: Item, passed: nat, open: bool)

  ghost predicate Settled(d: Digester) {
    !d.open && d.passed == |d.item.written|
  }

  class CompositeDigester {
    var digesters: seq<Digester>
    /** The digester to close, by its place: the source keeps a reference to it. */
    var closer: int

    /** Only the latest digester may be open, and then it is the one to close. */
    ghost predicate Valid()
      reads this
    {
      && -1 <= closer < |digesters|
      && (closer >= 0 ==> closer == |digesters| - 1)
      && (forall k :: 0 <= k < |digesters| ==> KnownType(digesters[k].item.contentType))
      && (forall k :: 0 <= k < |digesters| ==> digesters[k].passed <= |digesters[k].item.written|)
      && (forall k :: 0 <= k < |digesters| && k != closer ==> Settled(digesters[k]))
      && (forall k :: 0 <= k < |digesters| && digesters[k].item.contentType == "" ==> Settled(digesters[k]))
      && (forall k :: 0 <= k < |digesters| && !digesters[k].open ==> Settled(digesters[k]))
    }

    /** The items started since the beginning or the latest restart. */
    function Contents(): (xs: seq<Item>)
      reads this
    {
      seq(|digesters|, k requires 0 <= k < |digesters| reads this => digesters[k].item)
    }

    constructor ()
      ensures Valid() && Contents() == []
    {
      digesters, closer := [], -1;
    }

    /** Closing waits for the filter to pass on what was written. A closed one stays as it is. */
    method CloseAt(k: nat)
      requires Valid() && k < |digesters|
      modifies this`digesters
      ensures |digesters| == |old(digesters)| && Contents() == old(Contents())
      ensures Valid() && Settled(digesters[k])
      ensures forall j :: 0 <= j < |digesters| && j != k ==> digesters[j] == old(digesters)[j]
    {
      var d := digesters[k];
      if d.open {
        digesters := digesters[k := d.(passed := |d.item.written|, open := false)];
      }
    }

    method CloseOpenDigester()
      requires Valid()
      modifies this
      ensures Valid() && closer == -1 && |digesters| == |old(digesters)| && Contents() == old(Contents())
    {
      if closer != -1 {
        CloseAt(closer);
        closer := -1;
      }
    }

    method Restart()
      requires Valid()
      modifies this
      ensures Valid() && Contents() == []
    {
      CloseOpenDigester();
      digesters := [];
    }

    method Start(contentType: string)
      requires Valid() && KnownType(contentType)
      modifies this
      ensures Valid() && Contents() == old(Contents()) + [Item(contentType, "")]
    {
      CloseOpenDigester();
      if contentType == "" {
        digesters := digesters + [Digester(Item("", ""), 0, false)];
      } else {
        digesters := digesters + [Digester(Item(contentType, ""), 0, true)];
        closer := |digesters| - 1;
      }
    }

    /** Writing to a digester that was handed out. An archive that was closed refuses. */
    method Write(k: nat, p: string) returns (ok: bool)
      requires Valid() && k < |digesters|
      modifies this`digesters
      ensures Valid() && |digesters| == |old(digesters)|
      ensures ok <==> old(digesters[k]).item.contentType == "" || old(digesters[k]).open
      ensures !ok ==> Contents() == old(Contents())
      ensures ok ==>
        Contents() == old(Contents())[k := Item(old(Contents())[k].contentType, old(Contents())[k].written + p)]
    {
      var d := digesters[k];
      ok := d.item.contentType == "" || d.open;
      if ok {
        var item := Item(d.item.contentType, d.item.written + p);
        digesters := digesters[k := Digester(item, if d.open then d.passed else |item.written|, d.open)];
      }
    }

    /** The filter gets some way on, at any time. */
    method PassOn(k: nat, n: nat)
      requires Valid() && k < |digesters| && digesters[k].passed <= n <= |digesters[k].item.written|
      modifies this`digesters
      ensures Valid() && Contents() == old(Contents())
    {
      digesters := digesters[k := digesters[k].(passed := n)];
    }

    /** What a digester has digested so far. */
    function SoFar(hash: Hash, filter: string -> string, k: nat): Tag
      requires k < |digesters| && digesters[k].passed <= |digesters[k].item.written|
      reads this
    {
      var d := digesters[k];
      Tag(d.item.contentType,
        hash(if d.item.contentType == "" then d.item.written else filter(d.item.written[..d.passed])))
    }

    /** What the digesters give, one after the other. */
    method Collect(hash: Hash, filter: string -> string) returns (ts: seq<Tag>)
      requires Valid() && closer == -1
      ensures ts == Tags(hash, filter, Contents())
    {
      ts := [];
      for k := 0 to |digesters|
        invariant |ts| == k && forall j :: 0 <= j < k ==> ts[j] == TagOf(hash, filter, digesters[j].item)
      {
        assert Settled(digesters[k]);
        assert digesters[k].item.written[..digesters[k].passed] == digesters[k].item.written;
        ts := ts + [SoFar(hash, filter, k)];
      }
    }

    /** What is asked of the digesters is what they make of everything that was written. */
    method Digest(hash: Hash, filter: string -> string) returns (d: Tag)
      requires Valid()
      modifies this
      ensures Valid() && Contents() == old(Contents())
      ensures d == DigestOf(hash, Tags(hash, filter, Contents()))
    {
      CloseOpenDigester();
      var ts := Collect(hash, filter);
      match |ts| {
        case 0 =>
          d := Tag("", "");
        case 1 =>
          d := ts[0];
        case _ =>
          var content := Join(ts);
          d := Tag("multi", hash(content));
      }
    }
  }

  lemma TextGrows(ts: seq<Tag>, i: nat)
    requires i < |ts|
    ensures Text(ts[..i + 1]) == if i == 0 then Line(ts[0]) else Text(ts[..i]) + "," + Line(ts[i])
  {
    if i > 0 {
      assert ts[..i + 1][..i] == ts[..i];
    }
  }

  method Join(ts: seq<Tag>) returns (content: string)
    ensures content == Text(ts)
  {
    content := "";
    for i := 0 to |ts|
      invariant content == Text(ts[..i])
    {
      if i > 0 {
        content := content + ",";
      }
      var contentType := ts[i].contentType;
      if contentType != "" {
        contentType := contentType + ":";
      }
      content := content + (contentType + ts[i].digest);
      TextGrows(ts, i);
    }
    assert ts[..|ts|] == ts;
  }

  // ------------------------------------------------------------------------------- telling items apart

  /** What follows the last separator, and what is before it, can be told. */
  lemma LastPartIsUnique(c: char, r: string, a: string, r': string, a': string)
    requires c !in a && c !in a' && r + [c] + a == r' + [c] + a'
    ensures r == r' && a == a'
  {
    var s := r + [c] + a;
    assert s[|r|] == c && s[|r'|] == c;
    assert r == s[..|r|] && a == s[|r| + 1..];
    assert r' == s[..|r'|] && a' == s[|r'| + 1..];
  }

  /** Types as the digester has them, and digests as the digest function gives them. */
  ghost predicate GoodTag(t: Tag) {
    ':' !in t.contentType && ',' !in t.contentType && Encoded(t.digest)
  }

  lemma OnlyTypesHaveColons(t: Tag)
    requires GoodTag(t)
    ensures ':' in Line(t) <==> t.contentType != ""
  {
    if t.contentType != "" {
      assert Line(t)[|t.contentType|] == ':';
    }
  }

  lemma LineIsUnique(t: Tag, u: Tag)
    requires GoodTag(t) && GoodTag(u) && Line(t) == Line(u)
    ensures t == u
  {
    OnlyTypesHaveColons(t);
    OnlyTypesHaveColons(u);
    if t.contentType != "" {
      LastPartIsUnique(':', t.contentType, t.digest, u.contentType, u.digest);
    }
  }

  lemma LineHasNoComma(t: Tag)
    requires GoodTag(t)
    ensures ',' !in Line(t)
  {
  }

  ghost predicate GoodTags(ts: seq<Tag>) {
    forall k :: 0 <= k < |ts| ==> GoodTag(ts[k]) && KnownType(ts[k].contentType)
  }

  lemma TagsAreGood(hash: Hash, filter: string -> string, xs: seq<Item>)
    requires Encodes(hash) && KnownTypes(xs)
    ensures GoodTags(Tags(hash, filter, xs))
  {
    forall k | 0 <= k < |xs|
      ensures GoodTag(TagOf(hash, filter, xs[k]))
    {
      assert Encoded(hash(Digested(filter, xs[k])));
    }
  }

  lemma LongTextHasComma(ts: seq<Tag>)
    requires |ts| > 1
    ensures ',' in Text(ts)
  {
    assert Text(ts)[|Text(ts[..|ts| - 1])|] == ',';
  }

  lemma {:induction false} TextIsUnique(ts: seq<Tag>, us: seq<Tag>)
    requires GoodTags(ts) && GoodTags(us) && ts != [] && us != [] && Text(ts) == Text(us)
    ensures ts == us
  {
    hide Line;
    var t, u := ts[|ts| - 1], us[|us| - 1];
    LineHasNoComma(t);
    LineHasNoComma(u);
    if |ts| == 1 && |us| == 1 {
      LineIsUnique(t, u);
    } else if |ts| == 1 {
      LongTextHasComma(us);
    } else if |us| == 1 {
      LongTextHasComma(ts);
    } else {
      var front, front' := ts[..|ts| - 1], us[..|us| - 1];
      LastPartIsUnique(',', Text(front), Line(t), Text(front'), Line(u));
      LineIsUnique(t, u);
      TextIsUnique(front, front');
      assert ts == front + [t] && us == front' + [u];
    }
  }

  predicate KnownTypes(xs: seq<Item>) {
    forall k :: 0 <= k < |xs| ==> KnownType(xs[k].contentType)
  }

  /** The same type, with the same bytes, or the same archive once the times are cleared. */
  ghost predicate SameItem(filter: string -> string, x: Item, y: Item) {
    && x.contentType == y.contentType
    && (x.contentType == "" ==> x.written == y.written)
    && (x.contentType in {"file", "dir"} ==> filter(x.written) == filter(y.written))
  }

  /** The same items, in the same order. */
  ghost predicate SameContent(filter: string -> string, xs: seq<Item>, ys: seq<Item>) {
    |xs| == |ys| && forall k :: 0 <= k < |xs| ==> SameItem(filter, xs[k], ys[k])
  }

  /** The digest function tells apart what it is asked about for these two lists. */
  ghost predicate NoCollision(hash: Hash, filter: string -> string, xs: seq<Item>, ys: seq<Item>) {
    var s, t := Text(Tags(hash, filter, xs)), Text(Tags(hash, filter, ys));
    && (hash(s) == hash(t) ==> s == t)
    && forall i, j :: 0 <= i < |xs| && 0 <= j < |ys| ==>
      hash(Digested(filter, xs[i])) == hash(Digested(filter, ys[j])) ==>
      Digested(filter, xs[i]) == Digested(filter, ys[j])
  }

  /** How many items there were, none, one or several, can be told from a summary. */
  lemma SummaryTellsHowMany(hash: Hash, ts: seq<Tag>, us: seq<Tag>)
    requires Encodes(hash) && GoodTags(ts) && GoodTags(us) && Summary(DigestOf(hash, ts)) == Summary(DigestOf(hash, us))
    ensures DigestOf(hash, ts) == DigestOf(hash, us)
    ensures (ts == [] <==> us == []) && (|ts| == 1 <==> |us| == 1)
  {
    var d, e := DigestOf(hash, ts), DigestOf(hash, us);
    assert ts != [] ==> GoodTag(d);
    assert us != [] ==> GoodTag(e);
    if ts != [] && us != [] {
      LineIsUnique(d, e);
    }
  }

  lemma SameTags(hash: Hash, filter: string -> string, xs: seq<Item>, ys: seq<Item>)
    requires KnownTypes(xs) && NoCollision(hash, filter, xs, ys)
    ensures Tags(hash, filter, xs) == Tags(hash, filter, ys) <==> SameContent(filter, xs, ys)
  {
    var ts, us := Tags(hash, filter, xs), Tags(hash, filter, ys);
    if ts == us {
      forall k | 0 <= k < |xs|
        ensures SameItem(filter, xs[k], ys[k])
      {
        assert |xs| == |ts| && |ys| == |us| && ts[k] == us[k];
      }
    }
  }

  /** Two additions have the same summary exactly when the same things were added, in the same order. */
  lemma SameSummaryExactlyWhenSameContent(hash: Hash, filter: string -> string, xs: seq<Item>, ys: seq<Item>)
    requires Encodes(hash) && KnownTypes(xs) && KnownTypes(ys) && NoCollision(hash, filter, xs, ys)
    ensures
      var ts, us := Tags(hash, filter, xs), Tags(hash, filter, ys);
      Summary(DigestOf(hash, ts)) == Summary(DigestOf(hash, us)) <==> SameContent(filter, xs, ys)
  {
    var ts, us := Tags(hash, filter, xs), Tags(hash, filter, ys);
    SameTags(hash, filter, xs, ys);
    TagsAreGood(hash, filter, xs);
    TagsAreGood(hash, filter, ys);
    if Summary(DigestOf(hash, ts)) == Summary(DigestOf(hash, us)) {
      SummaryTellsHowMany(hash, ts, us);
      if |ts| > 1 {
        TextIsUnique(ts, us);
      }
    }
  }
}
