/**
 Chains of commits: each image is the base of the next. Whether a commit trips the check
 that history and layers go together depends on four numbers of its base alone.
 */
module CommitChain {
  import opened Optional
  import opened ImageAssembly

  /** An image in the store: its top layer, the two histories, and the diff IDs of its layers. */
  datatype Image = Image(top: Option<nat>, ohistory: seq<OEntry>, dhistory: seq<DEntry>, diffIDs: seq<Digest>)

  datatype CommitOptions = CommitOptions(
    squash: bool, omitHistory: bool, emptyLayer: bool, compression: Compression, supported: bool,
    content: nat, rootfs: nat, oauthor: string, dauthor: string, now: int, createdBy: string,
    comment: string, pre: seq<Note>, post: seq<Note>)

  /** makeContainerImageRef: a squashed image cannot leave its layer out. */
  function MakeRef(img: Image, layerID: nat, o: CommitOptions): Ref {
    Ref(layerID, o.rootfs, o.compression, o.supported, img.ohistory, img.dhistory, o.oauthor, o.dauthor,
        o.now, o.createdBy, o.comment, o.squash, o.omitHistory, o.emptyLayer && !o.squash, o.pre, o.post)
  }

  // ------------------------------------------------------------------------------- what is counted

  /** How long the first history is, how many of each history's entries are there for a layer, and the layers. */
  datatype Tally = Tally(length: nat, oentries: nat, dentries: nat, layers: nat)

  function TallyOf(s: Store, img: Image): Tally
    requires InStore(s, img.top)
  {
    Tally(|img.ohistory|, NonEmptyO(img.ohistory), NonEmptyD(img.dhistory), |ChainOf(s, img.top)|)
  }

  /** Both histories account for every layer. */
  predicate Fits(t: Tally) {
    t.oentries == t.layers && t.dentries == t.layers
  }

  function Own(o: CommitOptions): nat {
    if o.emptyLayer && !o.squash then 0 else 1
  }

  function NextTally(t: Tally, o: CommitOptions): Tally {
    var layers := if o.squash then 1 else t.layers + Own(o);
    var more := |o.pre| + 1 + |o.post|;
    if o.omitHistory then Tally(0, 0, 0, layers)
    else if o.squash then Tally(more, 1, 1, 1)
    else Tally(t.length + more, t.oentries + Own(o), t.dentries + Own(o), layers)
  }

  /** The check looks at the base alone: what a commit adds, it adds to the history and to the layers. */
  predicate Mismatches(t: Tally, o: CommitOptions) {
    !o.squash && !o.omitHistory && t.length != 0 && !Fits(t)
  }

  /** Something has to be read again, in a compression that has no media type. */
  predicate CannotRead(s: Store, img: Image, o: CommitOptions)
    requires InStore(s, img.top)
  {
    && (o.compression.Bzip2? || o.compression.Xz? || o.compression.Zstd?)
    && (Own(o) == 1 || exists k :: 0 <= k < |ChainOf(s, img.top)| && s[ChainOf(s, img.top)[k]].digest.None?)
  }

  /** Why a commit is refused, if it is. */
  function Refusal(s: Store, img: Image, o: CommitOptions): Option<Error>
    requires InStore(s, img.top)
  {
    if !o.supported then Some(UnsupportedManifest)
    else if CannotRead(s, img, o) then Some(UndefinedMediaType)
    else if Mismatches(TallyOf(s, img), o) then Some(HistoryMismatch)
    else None
  }

  // ----------------------------------------------------------------------------------- one commit

  lemma {:induction false} ChainStays(s: Store, s': Store, id: nat)
    requires ValidStore(s) && ValidStore(s') && s <= s' && id < |s|
    ensures Chain(s', id) == Chain(s, id)
    decreases id
  {
    if s[id].parent.Some? {
      ChainStays(s, s', s[id].parent.value);
    }
  }

  /** Every layer of a chain ends the chain of the layers up to it. */
  lemma {:induction false} ChainPrefix(s: Store, id: nat, k: nat)
    requires ValidStore(s) && id < |s| && k < |Chain(s, id)|
    ensures Chain(s, Chain(s, id)[k]) == Chain(s, id)[..k + 1]
    decreases id
  {
    var chain := Chain(s, id);
    if k + 1 == |chain| {
      assert chain[..k + 1] == chain;
    } else {
      var parent := s[id].parent.value;
      ChainPrefix(s, parent, k);
      assert chain[k] == Chain(s, parent)[k] && chain[..k + 1] == Chain(s, parent)[..k + 1];
    }
  }

  /** The container's layer on top of its image. */
  lemma LayersOnTop(s: Store, img: Image, working: Layer, ref: Ref)
    requires InStore(s, img.top) && working.parent == img.top && ref.layerID == |s|
    ensures ValidStore(s + [working]) && ChainOf(s + [working], img.top) == ChainOf(s, img.top)
    ensures !ref.squash ==> LayerList(s + [working], ref) == ChainOf(s, img.top) + [|s|]
    ensures ref.squash ==> LayerList(s + [working], ref) == [|s|]
  {
    var s' := s + [working];
    if img.top.Some? {
      ChainStays(s, s', img.top.value);
    }
    assert Chain(s', |s|) == ChainOf(s, img.top) + [|s|];
  }

  /** The diff ID of a layer of the base: the store may know it, otherwise it is computed. */
  function BaseDiffID(s: Store, codec: Codec, id: nat): Digest
    requires id < |s|
  {
    if s[id].digest.Some? then s[id].digest.value else codec.digest(codec.filter(s[id].content))
  }

  /** The layers that the image will have, of the store in which the container has its layer. */
  function Listed(s: Store, img: Image, o: CommitOptions): seq<nat>
    requires InStore(s, img.top)
  {
    if o.squash then [|s|]
    else if o.emptyLayer then ChainOf(s, img.top)
    else ChainOf(s, img.top) + [|s|]
  }

  lemma ListedIsIncluded(s: Store, img: Image, o: CommitOptions, working: Layer)
    requires InStore(s, img.top) && working.parent == img.top
    ensures ValidStore(s + [working])
    ensures var ref := MakeRef(img, |s|, o); Included(ref, LayerList(s + [working], ref)) == Listed(s, img, o)
  {
    LayersOnTop(s, img, working, MakeRef(img, |s|, o));
  }

  /** A media type is missing for the commit exactly when it is missing for one of its layers. */
  lemma CannotReadIsUnreadable(s: Store, img: Image, o: CommitOptions, working: Layer)
    requires InStore(s, img.top) && working.parent == img.top
    ensures CannotRead(s, img, o) <==> Unreadable(s + [working], MakeRef(img, |s|, o), Listed(s, img, o))
  {
    hide Chain;
    var s', ref, ids, chain := s + [working], MakeRef(img, |s|, o), Listed(s, img, o), ChainOf(s, img.top);
    if Own(o) == 1 {
      assert ids[|ids| - 1] == |s| && !Reuses(s', ref, ids[|ids| - 1]);
    } else {
      assert ids == chain;
      assert forall k :: 0 <= k < |chain| ==> (Reuses(s', ref, ids[k]) <==> s[chain[k]].digest.Some?);
    }
  }

  /** The counts after the commit, and the check, in terms of the base alone. */
  lemma CountsOfCommit(s: Store, img: Image, o: CommitOptions)
    requires InStore(s, img.top)
    ensures var ref, t := MakeRef(img, |s|, o), NextTally(TallyOf(s, img), o);
      && |HistoryO(ref)| == t.length && NonEmptyO(HistoryO(ref)) == t.oentries
      && NonEmptyD(HistoryD(ref)) == t.dentries && |Listed(s, img, o)| == t.layers
    ensures var ref := MakeRef(img, |s|, o);
      Mismatches(TallyOf(s, img), o) <==>
        !ref.omitHistory && KeptO(ref) != [] && !Accounts(ref, |Listed(s, img, o)|)
  {
    hide Chain;
    hide NonEmpty;
    var ref := MakeRef(img, |s|, o);
    NothingCounts();
    if !o.omitHistory {
      HistoryCount(ref);
    }
  }

  lemma NothingCounts()
    ensures NonEmptyO([]) == 0 && NonEmptyD([]) == 0
  {
  }

  // ----------------------------------------------------------------------------------- the store

  /** The layers of the chain are those of the diff ID list, in order, from the bottom up, and known as such. */
  ghost predicate LayersFit(s: Store, top: Option<nat>, diffIDs: seq<Digest>)
    requires InStore(s, top)
  {
    var chain := ChainOf(s, top);
    |chain| == |diffIDs| && forall k :: 0 <= k < |chain| ==> s[chain[k]].digest == Some(diffIDs[k])
  }

  /** A layer put on top, with its digest. */
  lemma LayerOnTopFits(s: Store, top: Option<nat>, diffIDs: seq<Digest>, l: Layer, d: Digest)
    requires InStore(s, top) && LayersFit(s, top, diffIDs)
    requires l.parent == top && l.digest == Some(d)
    ensures InStore(s + [l], Some(|s|)) && LayersFit(s + [l], Some(|s|), diffIDs + [d])
  {
    var s' := s + [l];
    if top.Some? {
      ChainStays(s, s', top.value);
    }
    assert Chain(s', |s|) == ChainOf(s, top) + [|s|];
  }

  /** A layer of the chain is one that was there before, in its place in the base's chain, or has the content for it. */
  ghost predicate LayersHold(s: Store, base: Option<nat>, s': Store, top: Option<nat>, contents: seq<nat>)
    requires InStore(s, base) && InStore(s', top)
  {
    var chain, chain' := ChainOf(s, base), ChainOf(s', top);
    |chain'| <= |contents| && forall k :: 0 <= k < |chain'| ==> LayerHolds(|s|, chain, s', chain'[k], k, contents[k])
  }

  predicate LayerHolds(n: nat, chain: seq<nat>, s': Store, id: nat, k: nat, content: nat) {
    (k < |chain| && id == chain[k]) || (n <= id < |s'| && s'[id].content == content)
  }

  lemma LayerOnTopHolds(s: Store, base: Option<nat>, s': Store, top: Option<nat>, diffIDs: seq<Digest>,
                        contents: seq<nat>, l: Layer, codec: Codec)
    requires InStore(s, base) && InStore(s', top) && LayersHold(s, base, s', top, contents) && s <= s'
    requires LayersFit(s', top, diffIDs) && |diffIDs| < |contents|
    requires l == Layer(top, l.digest, codec.size(contents[|diffIDs|]), contents[|diffIDs|])
    ensures InStore(s' + [l], Some(|s'|)) && LayersHold(s, base, s' + [l], Some(|s'|), contents)
    ensures StoreIsRight(s', codec) && l.digest == Some(codec.digest(l.content)) ==> StoreIsRight(s' + [l], codec)
  {
    var s'', chain, chain' := s' + [l], ChainOf(s, base), ChainOf(s', top);
    ChainOnTop(s', top, l);
    OneMoreIsRight(s', l, codec);
    assert ChainOf(s'', Some(|s'|)) == chain' + [|s'|] && |chain'| == |diffIDs| && |s| <= |s'|;
    hide Chain;
    hide ChainOf;
    hide StoreIsRight;
    hide LayersFit;
    forall k | 0 <= k < |chain' + [|s'|]|
      ensures LayerHolds(|s|, chain, s'', (chain' + [|s'|])[k], k, contents[k])
    {
      if k < |chain'| {
        assert LayerHolds(|s|, chain, s', chain'[k], k, contents[k]);
      }
    }
    hide LayerHolds;
  }

  lemma OneMoreIsRight(s: Store, l: Layer, codec: Codec)
    requires codec.size(l.content) == l.size
    ensures StoreIsRight(s, codec) && l.digest == Some(codec.digest(l.content)) ==> StoreIsRight(s + [l], codec)
  {
  }

  lemma ChainOnTop(s: Store, top: Option<nat>, l: Layer)
    requires InStore(s, top) && l.parent == top
    ensures ValidStore(s + [l]) && Chain(s + [l], |s|) == ChainOf(s, top) + [|s|]
  {
    if top.Some? {
      ChainStays(s, s + [l], top.value);
    }
  }

  /** How many layers of a chain, from the bottom up, the store can find again by their digest. */
  method Reusable(s: Store, chain: seq<nat>) returns (n: nat)
    requires forall k :: 0 <= k < |chain| ==> chain[k] < |s|
    ensures n <= |chain| && forall k :: 0 <= k < n ==> s[chain[k]].digest.Some?
    ensures n < |chain| ==> s[chain[n]].digest.None?
  {
    n := 0;
    while n < |chain| && s[chain[n]].digest.Some?
      invariant n <= |chain| && forall k :: 0 <= k < n ==> s[chain[k]].digest.Some?
    {
      n := n + 1;
    }
  }

  /** The layers of the base that can be found again keep their place, with the digests they are listed under. */
  lemma ReusedFit(s: Store, top: Option<nat>, n: nat, diffIDs: seq<Digest>, contents: seq<nat>)
    requires InStore(s, top) && 0 < n <= |ChainOf(s, top)| && n <= |diffIDs| == |contents|
    requires forall k :: 0 <= k < n ==> s[ChainOf(s, top)[k]].digest == Some(diffIDs[k])
    ensures InStore(s, Some(ChainOf(s, top)[n - 1])) && LayersFit(s, Some(ChainOf(s, top)[n - 1]), diffIDs[..n])
    ensures LayersHold(s, top, s, Some(ChainOf(s, top)[n - 1]), contents)
  {
    ChainPrefix(s, top.value, n - 1);
  }

  lemma NothingFits(s: Store, base: Option<nat>, contents: seq<nat>)
    requires InStore(s, base)
    ensures InStore(s, None) && LayersFit(s, None, []) && LayersHold(s, base, s, None, contents)
  {
  }

  lemma ChainIsInStore(s: Store, top: Option<nat>)
    requires InStore(s, top)
    ensures ValidStore(s) && forall k :: 0 <= k < |ChainOf(s, top)| ==> ChainOf(s, top)[k] < |s|
  {
  }

  /** The image is written to the store: what is there is used again, and what is not is added on top. */
  method PutLayers(s: Store, base: Option<nat>, diffIDs: seq<Digest>, contents: seq<nat>, codec: Codec)
      returns (s': Store, top: Option<nat>)
    requires InStore(s, base)
    requires |diffIDs| == |contents| && |ChainOf(s, base)| <= |diffIDs|
    requires forall k :: 0 <= k < |ChainOf(s, base)| ==>
      s[ChainOf(s, base)[k]].digest.Some? ==> s[ChainOf(s, base)[k]].digest.value == diffIDs[k]
    ensures s <= s' && InStore(s', top) && LayersFit(s', top, diffIDs) && LayersHold(s, base, s', top, contents)
    ensures StoreIsRight(s, codec) && (forall k :: 0 <= k < |contents| ==> codec.digest(contents[k]) == diffIDs[k]) ==>
      StoreIsRight(s', codec)
  {
    hide *;
    ChainIsInStore(s, base);
    var chain := ChainOf(s, base);
    var n := Reusable(s, chain);
    s', top := s, None;
    if n == 0 {
      NothingFits(s, base, contents);
      assert diffIDs[..0] == [];
    } else {
      top := Some(chain[n - 1]);
      ReusedFit(s, base, n, diffIDs, contents);
    }
    for k := n to |diffIDs|
      invariant s <= s' && InStore(s', top) && LayersFit(s', top, diffIDs[..k])
      invariant LayersHold(s, base, s', top, contents)
      invariant StoreIsRight(s, codec) && (forall j :: 0 <= j < |contents| ==> codec.digest(contents[j]) == diffIDs[j])
        ==> StoreIsRight(s', codec)
    {
      var layer := Layer(top, Some(diffIDs[k]), codec.size(contents[k]), contents[k]);
      LayerOnTopFits(s', top, diffIDs[..k], layer, diffIDs[k]);
      LayerOnTopHolds(s, base, s', top, diffIDs[..k], contents, layer, codec);
      assert diffIDs[..k + 1] == diffIDs[..k] + [diffIDs[k]];
      s', top := s' + [layer], Some(|s'|);
    }
    assert diffIDs[..|diffIDs|] == diffIDs;
  }

  // --------------------------------------------------------------------------------- the new image

  datatype CommitResult = Committed(store: Store, image: Image, source: Source) | CommitError(error: Error)

  /** The diff IDs of the image: those of its base, if it is kept, and that of the container's own layer. */
  ghost predicate DiffIDsGrow(s: Store, img: Image, o: CommitOptions, codec: Codec, diffIDs: seq<Digest>)
    requires InStore(s, img.top)
  {
    var own := if Own(o) == 1 then [codec.digest(codec.filter(if o.squash then o.rootfs else o.content))] else [];
    var chain := ChainOf(s, img.top);
    if o.squash then diffIDs == own
    else
      && |diffIDs| == |chain| + |own| && diffIDs[|chain|..] == own
      && forall k :: 0 <= k < |chain| ==> diffIDs[k] == BaseDiffID(s, codec, chain[k])
  }

  lemma DiffIDsOfCommit(s: Store, img: Image, o: CommitOptions, codec: Codec, diffIDs: seq<Digest>,
                        blobs: seq<Descriptor>)
    requires InStore(s, img.top)
    requires var s' := s + [Layer(img.top, None, 0, o.content)];
      Describes(s', MakeRef(img, |s|, o), codec, Listed(s, img, o), diffIDs, blobs)
    ensures DiffIDsGrow(s, img, o, codec, diffIDs)
  {
    hide Chain;
    hide Packed;
    var s', ref := s + [Layer(img.top, None, 0, o.content)], MakeRef(img, |s|, o);
    var chain, ids := ChainOf(s, img.top), Listed(s, img, o);
    forall k | 0 <= k < |chain| && !o.squash
      ensures diffIDs[k] == BaseDiffID(s, codec, chain[k])
    {
      assert ids[k] == chain[k] && s'[chain[k]] == s[chain[k]];
    }
    if Own(o) == 1 {
      assert ids[|ids| - 1] == |s| && diffIDs[|ids| - 1] == codec.digest(Read(s', ref, codec, |s|));
    }
  }

  /** What is read for the layer at k of the image's list, if it has to be read. */
  function ContentAt(s: Store, img: Image, o: CommitOptions, k: nat): nat
    requires InStore(s, img.top)
  {
    if o.squash then o.rootfs
    else if k < |ChainOf(s, img.top)| then s[ChainOf(s, img.top)[k]].content
    else o.content
  }

  /** A layer of the base whose digest the store knows. */
  predicate IsKnown(s: Store, img: Image, o: CommitOptions, k: nat)
    requires InStore(s, img.top)
  {
    !o.squash && k < |ChainOf(s, img.top)| && s[ChainOf(s, img.top)[k]].digest.Some?
  }

  /**
   The layers are listed as they are stored: a known one as it is, uncompressed, and any other
   one under the digest and size of what is written, compressed exactly if the options say so.
   */
  ghost predicate BlobsFit(s: Store, img: Image, o: CommitOptions, codec: Codec, blobs: seq<Descriptor>)
    requires InStore(s, img.top)
  {
    forall k :: 0 <= k < |blobs| ==>
      if IsKnown(s, img, o, k) then
        var layer := s[ChainOf(s, img.top)[k]];
        blobs[k].mediaType.TarLayer? && blobs[k].digest == layer.digest.value && blobs[k].size == layer.size
      else
        var raw := codec.filter(ContentAt(s, img, o, k));
        if o.compression.Uncompressed? then
          blobs[k].mediaType.TarLayer? && blobs[k].digest == codec.digest(raw) && blobs[k].size == codec.size(raw)
        else
          && blobs[k].mediaType.GzipLayer?
          && blobs[k].digest == codec.digest(codec.gzip(raw)) && blobs[k].size == codec.size(codec.gzip(raw))
  }

  lemma BlobsOfCommit(s: Store, img: Image, o: CommitOptions, codec: Codec, diffIDs: seq<Digest>,
                      blobs: seq<Descriptor>)
    requires InStore(s, img.top)
    requires var s' := s + [Layer(img.top, None, 0, o.content)];
      Describes(s', MakeRef(img, |s|, o), codec, Listed(s, img, o), diffIDs, blobs)
    ensures BlobsFit(s, img, o, codec, blobs)
  {
    hide Chain;
    var s', ref := s + [Layer(img.top, None, 0, o.content)], MakeRef(img, |s|, o);
    var chain, ids := ChainOf(s, img.top), Listed(s, img, o);
    forall k | 0 <= k < |blobs|
      ensures IsKnown(s, img, o, k) <==> Reuses(s', ref, ids[k])
      ensures ref.compression == o.compression && Read(s', ref, codec, ids[k]) == codec.filter(ContentAt(s, img, o, k))
      ensures IsKnown(s, img, o, k) ==> s'[ids[k]] == s[chain[k]]
    {
      if !o.squash && k < |chain| {
        assert ids[k] == chain[k] && s'[chain[k]] == s[chain[k]];
      } else {
        assert ids[k] == |s|;
      }
    }
    hide Reuses;
    hide Read;
    hide ContentAt;
    hide IsKnown;
    hide Listed;
  }

  /**
   A compressed layer is listed under another digest than its diff ID, if gzip changes its
   content and the two have different digests.
   */
  lemma CompressedIsListedApart(s: Store, img: Image, o: CommitOptions, codec: Codec, r: CommitResult, k: nat)
    requires InStore(s, img.top) && CommitFits(s, img, o, codec, r) && r.Committed? && k < |r.source.olayers|
    requires var raw := codec.filter(ContentAt(s, img, o, k));
      codec.gzip(raw) != raw && (codec.digest(codec.gzip(raw)) == codec.digest(raw) ==> codec.gzip(raw) == raw)
    ensures r.source.olayers[k].digest != r.source.odiffIDs[k] <==>
      !IsKnown(s, img, o, k) && !o.compression.Uncompressed?
    ensures r.source.olayers[k].mediaType.GzipLayer? <==> r.source.olayers[k].digest != r.source.odiffIDs[k]
  {
    hide Chain;
    hide TallyOf;
    hide NextTally;
    hide Refusal;
    hide LayersFit;
  }

  lemma DescribedOnce(s: Store, ref: Ref, codec: Codec, ids: seq<nat>, a: seq<Digest>, x: seq<Descriptor>,
                      b: seq<Digest>, y: seq<Descriptor>)
    requires Describes(s, ref, codec, ids, a, x) && Describes(s, ref, codec, ids, b, y)
    ensures a == b && x == y && |a| == |x| == |ids|
  {
  }

  // What the histories of the new image say.

  predicate SaysO(e: OEntry, n: Note, emptyLayer: bool) {
    && e.created == n.created && e.createdBy == n.createdBy && e.author == n.author && e.comment == n.comment
    && e.emptyLayer == emptyLayer
  }

  /** In the Docker format a missing time is the zero time. */
  predicate SaysD(e: DEntry, n: Note, emptyLayer: bool) {
    && e.created == (if n.created.Some? then n.created.value else ZERO_TIME)
    && e.createdBy == n.createdBy && e.author == n.author && e.comment == n.comment && e.emptyLayer == emptyLayer
  }

  /** What is to be said about the commit, and in which place: around it there are entries without layers. */
  function NoteAt(o: CommitOptions, author: string, j: nat): Note
    requires j < |o.pre| + 1 + |o.post|
  {
    if j < |o.pre| then o.pre[j]
    else if j == |o.pre| then Note(Some(o.now), o.createdBy, author, o.comment)
    else o.post[j - |o.pre| - 1]
  }

  /**
   The base's history, unless the image is squashed, then the entries that come before, that of
   the commit, which alone may be there for a layer, and those that come after; or none at all.
   */
  ghost predicate HistoryFitsO(img: Image, o: CommitOptions, h: seq<OEntry>) {
    if o.omitHistory then h == []
    else
      var m, more := if o.squash then 0 else |img.ohistory|, |o.pre| + 1 + |o.post|;
      && |h| == m + more && h[..m] == img.ohistory[..m]
      && forall j :: 0 <= j < more ==>
        SaysO(h[m + j], NoteAt(o, o.oauthor, j), j != |o.pre| || (o.emptyLayer && !o.squash))
  }

  ghost predicate HistoryFitsD(img: Image, o: CommitOptions, h: seq<DEntry>) {
    if o.omitHistory then h == []
    else
      var m, more := if o.squash then 0 else |img.dhistory|, |o.pre| + 1 + |o.post|;
      && |h| == m + more && h[..m] == img.dhistory[..m]
      && forall j :: 0 <= j < more ==>
        SaysD(h[m + j], NoteAt(o, o.dauthor, j), j != |o.pre| || (o.emptyLayer && !o.squash))
  }

  ghost predicate HistoriesFit(img: Image, o: CommitOptions, oh: seq<OEntry>, dh: seq<DEntry>) {
    HistoryFitsO(img, o, oh) && HistoryFitsD(img, o, dh)
  }

  lemma HistoryOfCommitO(img: Image, o: CommitOptions, id: nat)
    ensures HistoryFitsO(img, o, HistoryO(MakeRef(img, id, o)))
  {
    var ref := MakeRef(img, id, o);
    if !o.omitHistory {
      var kept, h, more := KeptO(ref), HistoryO(ref), |o.pre| + 1 + |o.post|;
      assert h[..|kept|] == kept;
      forall j | 0 <= j < more
        ensures SaysO(h[|kept| + j], NoteAt(o, o.oauthor, j), j != |o.pre| || (o.emptyLayer && !o.squash))
      {
        EntryAt(kept, OEntries(o.pre), NewEntryO(ref), OEntries(o.post), j);
      }
    }
  }

  lemma HistoryOfCommitD(img: Image, o: CommitOptions, id: nat)
    ensures HistoryFitsD(img, o, HistoryD(MakeRef(img, id, o)))
  {
    var ref := MakeRef(img, id, o);
    if !o.omitHistory {
      var kept, h, more := KeptD(ref), HistoryD(ref), |o.pre| + 1 + |o.post|;
      assert h[..|kept|] == kept;
      forall j | 0 <= j < more
        ensures SaysD(h[|kept| + j], NoteAt(o, o.dauthor, j), j != |o.pre| || (o.emptyLayer && !o.squash))
      {
        EntryAt(kept, DEntries(o.pre), NewEntryD(ref), DEntries(o.post), j);
      }
    }
  }

  lemma EntryAt<T>(kept: seq<T>, pre: seq<T>, own: T, post: seq<T>, j: nat)
    requires j < |pre| + 1 + |post|
    ensures (kept + pre + [own] + post)[|kept| + j] ==
      if j < |pre| then pre[j] else if j == |pre| then own else post[j - |pre| - 1]
  {
  }

  /**
   Each layer of the image is one of the base's that was used again in its place, or holds what
   it is to hold. If the store knows layers by the right digests, it still does.
   */
  ghost predicate HoldsContents(s: Store, img: Image, o: CommitOptions, codec: Codec, s': Store, top: Option<nat>)
    requires InStore(s, img.top) && InStore(s', top)
  {
    var chain, chain' := ChainOf(s, img.top), ChainOf(s', top);
    && (StoreIsRight(s, codec) ==> StoreIsRight(s', codec))
    && forall k :: 0 <= k < |chain'| ==> HoldsContent(s, img, o, codec, s', chain'[k], k)
  }

  predicate HoldsContent(s: Store, img: Image, o: CommitOptions, codec: Codec, s': Store, id: nat, k: nat)
    requires InStore(s, img.top)
  {
    var chain := ChainOf(s, img.top);
    || (!o.squash && k < |chain| && id == chain[k])
    || (|s| < id < |s'| && s'[id].content ==
      if IsKnown(s, img, o, k) then s[chain[k]].content else codec.filter(ContentAt(s, img, o, k)))
  }

  lemma ContentOfCommit(s: Store, img: Image, o: CommitOptions, codec: Codec, k: nat)
    requires InStore(s, img.top) && k < |Listed(s, img, o)|
    ensures var s1, ref, ids := s + [Layer(img.top, None, 0, o.content)], MakeRef(img, |s|, o), Listed(s, img, o);
      && (forall j :: 0 <= j < |ids| ==> ids[j] < |s1|)
      && Contents(s1, ref, codec, ids)[k] ==
        if IsKnown(s, img, o, k) then s[ChainOf(s, img.top)[k]].content else codec.filter(ContentAt(s, img, o, k))
  {
    hide Chain;
    var s1, chain, ids := s + [Layer(img.top, None, 0, o.content)], ChainOf(s, img.top), Listed(s, img, o);
    if !o.squash && k < |chain| {
      assert ids[k] == chain[k] && s1[chain[k]] == s[chain[k]];
    } else {
      assert ids[k] == |s|;
    }
  }

  lemma HoldsOnceStored(s: Store, img: Image, o: CommitOptions, codec: Codec, src: Source, s': Store, top: Option<nat>)
    requires InStore(s, img.top) && IsSourceOf(s, img, o, codec, src)
    requires var s1, base := s + [Layer(img.top, None, 0, o.content)], if o.squash then None else img.top;
      var ref, ids := MakeRef(img, |s|, o), Listed(s, img, o);
      && InStore(s1, base) && InStore(s', top) && (forall j :: 0 <= j < |ids| ==> ids[j] < |s1|)
      && LayersHold(s1, base, s', top, Contents(s1, ref, codec, ids)) && |ids| == |src.odiffIDs|
      && (StoreIsRight(s1, codec)
          && (forall k :: 0 <= k < |ids| ==> codec.digest(Contents(s1, ref, codec, ids)[k]) == src.odiffIDs[k])
          ==> StoreIsRight(s', codec))
    ensures HoldsContents(s, img, o, codec, s', top)
  {
    var s1, ref, ids := s + [Layer(img.top, None, 0, o.content)], MakeRef(img, |s|, o), Listed(s, img, o);
    StaysRight(s, img, o, codec, src, s');
    LayersOnTop(s, img, Layer(img.top, None, 0, o.content), ref);
    var base, chain, chain' := if o.squash then None else img.top, ChainOf(s, img.top), ChainOf(s', top);
    assert ChainOf(s1, base) == if o.squash then [] else chain;
    hide StoreIsRight;
    hide IsSourceOf;
    hide Listed;
    hide Chain;
    hide Contents;
    hide IsKnown;
    hide ContentAt;
    hide ChainOf;
    hide InStore;
    forall k | 0 <= k < |chain'|
      ensures HoldsContent(s, img, o, codec, s', chain'[k], k)
    {
      ContentOfCommit(s, img, o, codec, k);
      assert LayerHolds(|s1|, ChainOf(s1, base), s', chain'[k], k, Contents(s1, ref, codec, ids)[k]);
    }
    hide HoldsContent;
    hide LayerHolds;
  }

  lemma StaysRight(s: Store, img: Image, o: CommitOptions, codec: Codec, src: Source, s': Store)
    requires InStore(s, img.top) && IsSourceOf(s, img, o, codec, src)
    requires var s1, ref, ids := s + [Layer(img.top, None, 0, o.content)], MakeRef(img, |s|, o), Listed(s, img, o);
      && (forall j :: 0 <= j < |ids| ==> ids[j] < |s1|) && |ids| == |src.odiffIDs|
      && (StoreIsRight(s1, codec)
          && (forall k :: 0 <= k < |ids| ==> codec.digest(Contents(s1, ref, codec, ids)[k]) == src.odiffIDs[k])
          ==> StoreIsRight(s', codec))
    ensures StoreIsRight(s, codec) ==> StoreIsRight(s', codec)
  {
    var s1, ref, ids := s + [Layer(img.top, None, 0, o.content)], MakeRef(img, |s|, o), Listed(s, img, o);
    hide Contents;
    hide Listed;
    hide Describes;
    if StoreIsRight(s, codec) {
      assert StoreIsRight(s1, codec);
      ContentsHaveDigests(s1, ref, codec, ids, src.odiffIDs, src.olayers);
    }
    hide StoreIsRight;
  }

  /** Every listed layer can be read from the source. */
  ghost predicate BlobsAreThere(s: Store, img: Image, o: CommitOptions, codec: Codec, src: Source)
    requires InStore(s, img.top)
  {
    var s1, ref := s + [Layer(img.top, None, 0, o.content)], MakeRef(img, |s|, o);
    && Describes(s1, ref, codec, Listed(s, img, o), src.odiffIDs, src.olayers)
    && BlobsAreNamed(s1, codec, src.blobs) && BlobsAreKept(s1, ref, Listed(s, img, o), src.olayers, src.blobs)
  }

  /** What a commit promises: when it is refused, and about the image it makes. */
  ghost predicate CommitFits(s: Store, img: Image, o: CommitOptions, codec: Codec, r: CommitResult)
    requires InStore(s, img.top)
  {
    match r
    case CommitError(error) => Refusal(s, img, o) == Some(error)
    case Committed(s', img', src) =>
      && Refusal(s, img, o).None? && s <= s' && InStore(s', img'.top) && LayersFit(s', img'.top, img'.diffIDs)
      && TallyOf(s', img') == NextTally(TallyOf(s, img), o)
      && DiffIDsGrow(s, img, o, codec, img'.diffIDs)
      && src.odiffIDs == src.ddiffIDs == img'.diffIDs && src.olayers == src.dlayers
      && |src.olayers| == |src.odiffIDs| && src.ohistory == img'.ohistory && src.dhistory == img'.dhistory
      && BlobsFit(s, img, o, codec, src.olayers) && BlobsAreThere(s, img, o, codec, src)
      && HistoriesFit(img, o, img'.ohistory, img'.dhistory) && HoldsContents(s, img, o, codec, s', img'.top)
  }

  /** What is in each layer, once it is unpacked: known ones are taken as they are. */
  function Contents(s: Store, ref: Ref, codec: Codec, ids: seq<nat>): seq<nat>
    requires forall k :: 0 <= k < |ids| ==> ids[k] < |s|
  {
    seq(|ids|, k requires 0 <= k < |ids| =>
      if Reuses(s, ref, ids[k]) then s[ids[k]].content else Read(s, ref, codec, ids[k]))
  }

  lemma ContentsHaveDigests(s: Store, ref: Ref, codec: Codec, ids: seq<nat>, diffIDs: seq<Digest>,
                            blobs: seq<Descriptor>)
    requires Describes(s, ref, codec, ids, diffIDs, blobs) && StoreIsRight(s, codec)
    ensures |Contents(s, ref, codec, ids)| == |diffIDs|
    ensures forall k :: 0 <= k < |ids| ==> codec.digest(Contents(s, ref, codec, ids)[k]) == diffIDs[k]
  {
  }

  /** Where the base is kept, its layers are listed under the digests that the store knows. */
  lemma BaseIsListed(s: Store, s': Store, img: Image, o: CommitOptions, codec: Codec, diffIDs: seq<Digest>)
    requires InStore(s, img.top) && DiffIDsGrow(s, img, o, codec, diffIDs) && !o.squash
    requires ValidStore(s') && s <= s' && ChainOf(s', img.top) == ChainOf(s, img.top)
    ensures |ChainOf(s', img.top)| <= |diffIDs|
    ensures forall k :: 0 <= k < |ChainOf(s', img.top)| ==>
      s'[ChainOf(s', img.top)[k]].digest.Some? ==> s'[ChainOf(s', img.top)[k]].digest.value == diffIDs[k]
  {
    hide Chain;
    var chain := ChainOf(s, img.top);
    forall k | 0 <= k < |chain|
      ensures s'[chain[k]].digest.Some? ==> s'[chain[k]].digest.value == diffIDs[k]
    {
      assert s'[chain[k]] == s[chain[k]] && diffIDs[k] == BaseDiffID(s, codec, chain[k]);
    }
  }

  /** What the source of a commit describes. */
  ghost predicate IsSourceOf(s: Store, img: Image, o: CommitOptions, codec: Codec, src: Source)
    requires InStore(s, img.top)
  {
    var s1, ref := s + [Layer(img.top, None, 0, o.content)], MakeRef(img, |s|, o);
    && src.ohistory == HistoryO(ref) && src.dhistory == HistoryD(ref)
    && BlobsAreThere(s, img, o, codec, src)
    && Describes(s1, ref, codec, Listed(s, img, o), src.ddiffIDs, src.dlayers)
  }

  /** What it lists can be put on top of the base, unless that is not kept. */
  lemma StoredFits(s: Store, img: Image, o: CommitOptions, codec: Codec, src: Source)
    requires InStore(s, img.top) && IsSourceOf(s, img, o, codec, src)
    ensures var s1, base := s + [Layer(img.top, None, 0, o.content)], if o.squash then None else img.top;
      && InStore(s1, base) && |src.odiffIDs| == |src.olayers| == |Listed(s, img, o)|
      && |ChainOf(s1, base)| <= |src.odiffIDs|
      && (forall k :: 0 <= k < |Listed(s, img, o)| ==> Listed(s, img, o)[k] < |s1|)
      && forall k :: 0 <= k < |ChainOf(s1, base)| ==>
        s1[ChainOf(s1, base)[k]].digest.Some? ==> s1[ChainOf(s1, base)[k]].digest.value == src.odiffIDs[k]
  {
    hide Chain;
    var working := Layer(img.top, None, 0, o.content);
    var s1, ref := s + [working], MakeRef(img, |s|, o);
    DescribedOnce(s1, ref, codec, Listed(s, img, o), src.odiffIDs, src.olayers, src.ddiffIDs, src.dlayers);
    DiffIDsOfCommit(s, img, o, codec, src.odiffIDs, src.olayers);
    LayersOnTop(s, img, working, ref);
    if !o.squash {
      BaseIsListed(s, s1, img, o, codec, src.odiffIDs);
    }
  }

  lemma FitsOnceStored(s: Store, img: Image, o: CommitOptions, codec: Codec, src: Source, s': Store, top: Option<nat>)
    requires InStore(s, img.top) && Refusal(s, img, o).None? && IsSourceOf(s, img, o, codec, src)
    requires s + [Layer(img.top, None, 0, o.content)] <= s' && InStore(s', top) && LayersFit(s', top, src.odiffIDs)
    requires HoldsContents(s, img, o, codec, s', top)
    ensures CommitFits(s, img, o, codec, Committed(s', Image(top, src.ohistory, src.dhistory, src.odiffIDs), src))
  {
    var s1, ref := s + [Layer(img.top, None, 0, o.content)], MakeRef(img, |s|, o);
    DescribedOnce(s1, ref, codec, Listed(s, img, o), src.odiffIDs, src.olayers, src.ddiffIDs, src.dlayers);
    DiffIDsOfCommit(s, img, o, codec, src.odiffIDs, src.olayers);
    BlobsOfCommit(s, img, o, codec, src.odiffIDs, src.olayers);
    hide BlobsFit;
    hide HoldsContents;
    HistoryOfCommitO(img, o, |s|);
    HistoryOfCommitD(img, o, |s|);
    hide HistoriesFit;
    CountsOfCommit(s, img, o);
    hide Chain;
    hide NonEmpty;
    hide Describes;
    hide DiffIDsGrow;
    hide BlobsAreThere;
    hide Refusal;
    hide NextTally;
  }

  /** The image is stored under the histories and diff IDs of the source. */
  method StoreImage(s: Store, img: Image, o: CommitOptions, codec: Codec, src: Source) returns (r: CommitResult)
    requires InStore(s, img.top) && Refusal(s, img, o).None? && IsSourceOf(s, img, o, codec, src)
    ensures CommitFits(s, img, o, codec, r)
  {
    var working := Layer(img.top, None, 0, o.content);
    var s1, ref, ids := s + [working], MakeRef(img, |s|, o), Listed(s, img, o);
    StoredFits(s, img, o, codec, src);
    hide *;
    var base := if o.squash then None else img.top;
    var s', top := PutLayers(s1, base, src.odiffIDs, Contents(s1, ref, codec, ids), codec);
    HoldsOnceStored(s, img, o, codec, src, s', top);
    FitsOnceStored(s, img, o, codec, src, s', top);
    r := Committed(s', Image(top, src.ohistory, src.dhistory, src.odiffIDs), src);
  }

  /** A container is made from an image, its contents change, and it is committed to the store. */
  method Commit(s: Store, img: Image, o: CommitOptions, codec: Codec) returns (r: CommitResult)
    requires InStore(s, img.top)
    ensures CommitFits(s, img, o, codec, r)
  {
    var working := Layer(img.top, None, 0, o.content);
    var s1, ref := s + [working], MakeRef(img, |s|, o);
    ListedIsIncluded(s, img, o, working);
    hide *;
    var built := NewImageSource(s1, ref, codec);
    BuiltFits(s, img, o, codec, built);
    if built.Err? {
      return CommitError(built.error);
    }
    r := StoreImage(s, img, o, codec, built.source);
  }

  /** What comes of assembling the image, in terms of its base. */
  lemma BuiltFits(s: Store, img: Image, o: CommitOptions, codec: Codec, built: Result)
    requires InStore(s, img.top) && ValidStore(s + [Layer(img.top, None, 0, o.content)])
    requires var s1, ref := s + [Layer(img.top, None, 0, o.content)], MakeRef(img, |s|, o);
      Refuses(s1, ref, built) && (built.Ok? ==> ref.layerID < |s1| && SourceFits(s1, ref, codec, built.source))
    ensures built.Err? ==> CommitFits(s, img, o, codec, CommitError(built.error))
    ensures built.Ok? ==> Refusal(s, img, o).None? && IsSourceOf(s, img, o, codec, built.source)
  {
    var working := Layer(img.top, None, 0, o.content);
    var s1, ref := s + [working], MakeRef(img, |s|, o);
    ListedIsIncluded(s, img, o, working);
    CannotReadIsUnreadable(s, img, o, working);
    CountsOfCommit(s, img, o);
    hide CannotRead;
    hide Mismatches;
    hide Unreadable;
    hide Listed;
    hide LayerList;
    hide Included;
    hide Accounts;
    hide HistoryO;
    hide HistoryD;
    hide Describes;
    hide BlobsAreNamed;
    hide BlobsAreKept;
    hide TallyOf;
    hide InStore;
    hide ValidStore;
  }

  lemma WhatIsThere(s: Store, img: Image, o: CommitOptions, codec: Codec, r: CommitResult, k: nat)
    requires InStore(s, img.top) && CommitFits(s, img, o, codec, r) && r.Committed? && k < |r.source.olayers|
    ensures var s1, ref := s + [Layer(img.top, None, 0, o.content)], MakeRef(img, |s|, o);
      && Describes(s1, ref, codec, Listed(s, img, o), r.source.odiffIDs, r.source.olayers)
      && BlobsAreNamed(s1, codec, r.source.blobs) && k < |Listed(s, img, o)| && Listed(s, img, o)[k] < |s1|
      && BlobsAreKept(s1, ref, Listed(s, img, o), r.source.olayers, r.source.blobs)
      && (IsKnown(s, img, o, k) <==> Reuses(s1, ref, Listed(s, img, o)[k]))
      && Read(s1, ref, codec, Listed(s, img, o)[k]) == codec.filter(ContentAt(s, img, o, k))
      && (r.source.olayers[k].mediaType.GzipLayer? <==> !IsKnown(s, img, o, k) && !o.compression.Uncompressed?)
  {
    hide Chain;
    hide TallyOf;
    hide Refusal;
    hide LayersFit;
    hide HistoriesFit;
    hide DiffIDsGrow;
    var s1, ref := s + [Layer(img.top, None, 0, o.content)], MakeRef(img, |s|, o);
    var chain, ids := ChainOf(s, img.top), Listed(s, img, o);
    if !o.squash && k < |chain| {
      assert ids[k] == chain[k] && s1[chain[k]] == s[chain[k]];
    } else {
      assert ids[k] == |s|;
    }
    hide Describes;
    hide BlobsAreNamed;
  }

  /**
   Reading a layer of a committed image, as a copy of it is made: it is there, has the digest
   under which it is listed, and comes, unpacked, to what the diff ID stands for.
   */
  method ReadLayer(s: Store, img: Image, o: CommitOptions, codec: Codec, directory: map<Digest, nat>,
                   r: CommitResult, k: nat) returns (b: Option<Served>)
    requires InStore(s, img.top) && CommitFits(s, img, o, codec, r) && r.Committed? && k < |r.source.olayers|
    requires AreRight(s + [Layer(img.top, None, 0, o.content)], codec, directory)
    ensures b.Some? && codec.digest(b.value.content) == r.source.olayers[k].digest
    ensures IsKnown(s, img, o, k) ==> codec.digest(b.value.content) == r.source.odiffIDs[k]
    ensures var raw := codec.filter(ContentAt(s, img, o, k));
            var written := if o.compression.Uncompressed? then raw else codec.gzip(raw);
            var s1 := s + [Layer(img.top, None, 0, o.content)];
            !IsKnown(s, img, o, k) && IsUnmistakable(s1, codec, directory, r.source.blobs, written) ==>
      && b.value.content == written && b.value.size == r.source.olayers[k].size
      && codec.digest(raw) == r.source.odiffIDs[k]
  {
    WhatIsThere(s, img, o, codec, r, k);
    var s1, ref, ids := s + [Layer(img.top, None, 0, o.content)], MakeRef(img, |s|, o), Listed(s, img, o);
    hide CommitFits;
    hide AreRight;
    hide IsUnmistakable;
    hide Read;
    hide Reuses;
    hide IsKnown;
    hide ContentAt;
    hide BlobsAreNamed;
    hide BlobsAreKept;
    hide Describes;
    hide Listed;
    hide InStore;
    b := GetLayer(s1, ref, codec, directory, ids, r.source.odiffIDs, r.source.olayers, r.source.blobs, k);
  }

  // ------------------------------------------------------------------------------ chains of commits

  function TallyAfter(t: Tally, commits: seq<CommitOptions>): Tally {
    if commits == [] then t else NextTally(TallyAfter(t, commits[..|commits| - 1]), commits[|commits| - 1])
  }

  lemma NoCommits(t: Tally)
    ensures TallyAfter(t, []) == t
  {
  }

  lemma OneMoreCommit(t: Tally, commits: seq<CommitOptions>, k: nat)
    requires k < |commits|
    ensures TallyAfter(t, commits[..k + 1]) == NextTally(TallyAfter(t, commits[..k]), commits[k])
  {
    assert commits[..k + 1][..k] == commits[..k];
  }

  lemma WhatCommitDid(s: Store, img: Image, o: CommitOptions, codec: Codec, r: CommitResult)
    requires InStore(s, img.top) && CommitFits(s, img, o, codec, r) && r.Committed?
    ensures s <= r.store && InStore(r.store, r.image.top) && LayersFit(r.store, r.image.top, r.image.diffIDs)
    ensures TallyOf(r.store, r.image) == NextTally(TallyOf(s, img), o)
    ensures !Mismatches(TallyOf(s, img), o) && (StoreIsRight(s, codec) ==> StoreIsRight(r.store, codec))
  {
    hide StoreIsRight;
    hide TallyOf;
    hide DiffIDsGrow;
    hide HistoriesFit;
    hide BlobsFit;
    hide BlobsAreThere;
    hide ContentAt;
  }

  lemma WhyRefused(s: Store, img: Image, o: CommitOptions, codec: Codec, r: CommitResult)
    requires InStore(s, img.top) && CommitFits(s, img, o, codec, r) && r.CommitError?
    ensures Refusal(s, img, o) == Some(r.error)
  {
  }

  /**
   Any sequence of commits, on top of any image. It goes on until one is refused, the counts
   are those that the options lead to, and the layers are those of the diff ID list.
   */
  method CommitAll(s: Store, base: Image, commits: seq<CommitOptions>, codec: Codec)
      returns (s': Store, img: Image, done: nat, failed: Option<Error>)
    requires InStore(s, base.top)
    ensures s <= s' && InStore(s', img.top) && done <= |commits|
    ensures done > 0 ==> LayersFit(s', img.top, img.diffIDs)
    ensures TallyOf(s', img) == TallyAfter(TallyOf(s, base), commits[..done])
    ensures forall k :: 0 <= k < done ==> !Mismatches(TallyAfter(TallyOf(s, base), commits[..k]), commits[k])
    ensures failed == if done < |commits| then Refusal(s', img, commits[done]) else None
    ensures failed.Some? <==> done < |commits|
    ensures StoreIsRight(s, codec) ==> StoreIsRight(s', codec)
  {
    hide *;
    s', img, done, failed := s, base, 0, None;
    NoCommits(TallyOf(s, base));
    assert commits[..0] == [];
    while done < |commits|
      invariant s <= s' && InStore(s', img.top) && done <= |commits| && failed.None?
      invariant done > 0 ==> LayersFit(s', img.top, img.diffIDs)
      invariant TallyOf(s', img) == TallyAfter(TallyOf(s, base), commits[..done])
      invariant StoreIsRight(s, codec) ==> StoreIsRight(s', codec)
      invariant forall k :: 0 <= k < done ==> !Mismatches(TallyAfter(TallyOf(s, base), commits[..k]), commits[k])
    {
      var r := Commit(s', img, commits[done], codec);
      if r.CommitError? {
        WhyRefused(s', img, commits[done], codec, r);
        failed := Some(r.error);
        return;
      }
      WhatCommitDid(s', img, commits[done], codec, r);
      OneMoreCommit(TallyOf(s, base), commits, done);
      s', img, done := r.store, r.image, done + 1;
    }
  }

  predicate IsPlain(o: CommitOptions) {
    !o.squash && !o.omitHistory
  }

  /** Plain commits change nothing about how far the histories are from the layers. */
  lemma {:induction false} PlainCommitsKeepTheGap(t: Tally, commits: seq<CommitOptions>)
    requires forall k :: 0 <= k < |commits| ==> IsPlain(commits[k])
    ensures var t' := TallyAfter(t, commits);
      && t'.layers - t'.oentries == t.layers - t.oentries
      && t'.layers - t'.dentries == t.layers - t.dentries
      && (t'.length == 0 <==> t.length == 0 && commits == [])
  {
    if commits != [] {
      PlainCommitsKeepTheGap(t, commits[..|commits| - 1]);
    }
  }

  /**
   Along plain commits, the check fails exactly when the histories of the first base did not
   account for its layers. If the base had no history at all, it is the second commit that finds out.
   */
  lemma MismatchExactlyWhen(t: Tally, commits: seq<CommitOptions>, k: nat)
    requires k < |commits| && forall i :: 0 <= i <= k ==> IsPlain(commits[i])
    ensures Mismatches(TallyAfter(t, commits[..k]), commits[k]) <==> !Fits(t) && (k > 0 || t.length != 0)
  {
    PlainCommitsKeepTheGap(t, commits[..k]);
  }

  /** Squashing sets the counts right, and keeps them right until history is left out. */
  lemma {:induction false} FitsUntilOmitted(t: Tally, commits: seq<CommitOptions>, k: nat)
    requires k <= |commits| && forall i :: 0 <= i < |commits| ==> !commits[i].omitHistory
    requires Fits(t) || exists i :: 0 <= i < k && commits[i].squash
    ensures Fits(TallyAfter(t, commits[..k]))
    ensures k < |commits| ==> !Mismatches(TallyAfter(t, commits[..k]), commits[k])
    decreases k
  {
    if k > 0 {
      assert commits[..k][..k - 1] == commits[..k - 1];
      if !commits[k - 1].squash {
        FitsUntilOmitted(t, commits, k - 1);
      }
    }
  }

  /**
   An image whose history was left out makes a chain of two plain commits on top of it fail,
   if it has any layer at all.
   */
  lemma OmittedHistoryFailsExactlyWhen(t: Tally, o: CommitOptions, commits: seq<CommitOptions>, k: nat)
    requires o.omitHistory && k < |commits| && forall i :: 0 <= i <= k ==> IsPlain(commits[i])
    ensures Mismatches(TallyAfter(NextTally(t, o), commits[..k]), commits[k]) <==>
      k > 0 && (t.layers > 0 || o.squash || !o.emptyLayer)
  {
    MismatchExactlyWhen(NextTally(t, o), commits, k);
  }

  /** On a base with one layer and no history, the first plain commit passes, and the second one fails. */
  lemma SecondCommitFails(first: CommitOptions, second: CommitOptions)
    requires IsPlain(first) && IsPlain(second)
    ensures var base := Tally(0, 0, 0, 1);
            !Mismatches(base, first) && Mismatches(NextTally(base, first), second)
  {
    var commits := [first, second];
    assert commits[..1] == [first] && commits[..0] == [];
    MismatchExactlyWhen(Tally(0, 0, 0, 1), commits, 0);
    MismatchExactlyWhen(Tally(0, 0, 0, 1), commits, 1);
    OneMoreCommit(Tally(0, 0, 0, 1), commits, 0);
  }
}
