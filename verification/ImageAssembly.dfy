/**
 Assembling an image from a container: the layer chain, the OCI and the Docker manifest
 side by side, and the history that has to account for every layer.
 */
module ImageAssembly {
  import opened Optional

  type Digest = nat

  /** A stored layer: its parent, and the digest and size of its contents if the store knows them. */
  datatype Layer = Layer(parent: Option<nat>, digest: Option<Digest>, size: nat, content: nat)

  /** Layers by number. A layer is made after its parent. */
  type Store = seq<Layer>

  ghost predicate ValidStore(s: Store) {
    forall i :: 0 <= i < |s| && s[i].parent.Some? ==> s[i].parent.value < i
  }

  datatype Compression = Uncompressed | Gzip | Bzip2 | Xz | Zstd

  datatype Note = Note(created: Option<int>, createdBy: string, author: string, comment: string)

  datatype OEntry = OEntry(created: Option<int>, createdBy: string, author: string, comment: string, emptyLayer: bool)

  /** The Docker format has no way to leave the time out. */
  datatype DEntry = DEntry(created: int, createdBy: string, author: string, comment: string, emptyLayer: bool)

  const ZERO_TIME: int := 0

  datatype MediaType = TarLayer | GzipLayer

  datatype Descriptor = Descriptor(mediaType: MediaType, digest: Digest, size: nat)

  /** What becomes of content on its way into a blob. */
  datatype Codec = Codec(filter: nat -> nat, digest: nat -> Digest, size: nat -> nat, gzip: nat -> nat)

  /** containerImageRef; rootfs is the content of the whole container. */
  datatype Ref = Ref(layerID: nat, rootfs: nat, compression: Compression, supported: bool,
                     ohistory: seq<OEntry>, dhistory: seq<DEntry>, oauthor: string, dauthor: string,
                     now: int, createdBy: string, comment: string,
                     squash: bool, omitHistory: bool, emptyLayer: bool, pre: seq<Note>, post: seq<Note>)

  datatype Error = UnsupportedManifest | NoSuchLayer | UndefinedMediaType | HistoryMismatch

  /** A layer of the store that can be read again when its blob is asked for. */
  datatype Known = Known(id: nat, size: nat)

  /** Where blobs come from: layers that the store knows by digest, and files named by their digests. */
  datatype Blobs = Blobs(known: map<Digest, Known>, files: map<Digest, nat>)

  datatype Source = Source(ohistory: seq<OEntry>, odiffIDs: seq<Digest>, olayers: seq<Descriptor>,
                           dhistory: seq<DEntry>, ddiffIDs: seq<Digest>, dlayers: seq<Descriptor>, blobs: Blobs)

  datatype Result = Ok(source: Source) | Err(error: Error)

  // ----------------------------------------------------------------------------- the layer chain

  /** The layers from the bottom of the chain up to id. */
  function Chain(s: Store, id: nat): (c: seq<nat>)
    requires ValidStore(s) && id < |s|
    ensures |c| > 0 && c[|c| - 1] == id
    ensures forall k :: 0 <= k < |c| - 1 ==> c[k] < id
    ensures forall k :: 0 <= k < |c| ==> c[k] < |s|
    decreases id
  {
    if s[id].parent.None? then [id] else Chain(s, s[id].parent.value) + [id]
  }

  ghost predicate InStore(s: Store, top: Option<nat>) {
    ValidStore(s) && (top.Some? ==> top.value < |s|)
  }

  /** The layers that an image on top of that layer has; none at all for no layer. */
  function ChainOf(s: Store, top: Option<nat>): seq<nat>
    requires InStore(s, top)
  {
    if top.None? then [] else Chain(s, top.value)
  }

  function LayerList(s: Store, ref: Ref): seq<nat>
    requires ValidStore(s) && ref.layerID < |s|
  {
    if ref.squash then [ref.layerID] else Chain(s, ref.layerID)
  }

  /** The walk up the parents, which puts each layer in front of those above it. */
  method WalkLayers(s: Store, ref: Ref) returns (layers: seq<nat>)
    requires ValidStore(s) && ref.layerID < |s|
    ensures layers == LayerList(s, ref)
  {
    layers := [];
    var id: nat := ref.layerID;
    while true
      invariant id < |s|
      invariant ref.squash ==> layers == [] && id == ref.layerID
      invariant !ref.squash ==> Chain(s, id) + layers == Chain(s, ref.layerID)
      decreases id
    {
      layers := [id] + layers;
      if s[id].parent.None? || ref.squash {
        break;
      }
      assert Chain(s, s[id].parent.value) + layers == Chain(s, s[id].parent.value) + [id] + layers[1..];
      id := s[id].parent.value;
    }
  }

  // -------------------------------------------------------------------------------- one layer

  predicate Reuses(s: Store, ref: Ref, id: nat)
    requires id < |s|
  {
    !ref.squash && id != ref.layerID && s[id].digest.Some?
  }

  predicate HasMediaType(c: Compression) {
    c.Uncompressed? || c.Gzip?
  }

  /** What is read for a layer: the stored difference, or the whole container when squashing. */
  function Read(s: Store, ref: Ref, codec: Codec, id: nat): nat
    requires id < |s|
  {
    codec.filter(if ref.squash then ref.rootfs else s[id].content)
  }

  /** What a blob of that type is made of. */
  function Packed(codec: Codec, m: MediaType, raw: nat): nat {
    if m.GzipLayer? then codec.gzip(raw) else raw
  }

  /** The diff ID is the digest of the uncompressed layer; the blob is listed as it is written. */
  predicate DescribesLayer(s: Store, ref: Ref, codec: Codec, id: nat, diffID: Digest, blob: Descriptor)
    requires id < |s|
  {
    if Reuses(s, ref, id) then
      s[id].digest == Some(diffID) && blob == Descriptor(TarLayer, diffID, s[id].size)
    else
      var raw := Read(s, ref, codec, id);
      && diffID == codec.digest(raw) && (blob.mediaType.TarLayer? <==> ref.compression.Uncompressed?)
      && blob.digest == codec.digest(Packed(codec, blob.mediaType, raw))
      && blob.size == codec.size(Packed(codec, blob.mediaType, raw))
  }

  /** The layers of which the image has a diff: not the container's own, if it is left empty. */
  function Included(ref: Ref, layers: seq<nat>): seq<nat>
    requires |layers| > 0
  {
    if ref.emptyLayer then layers[..|layers| - 1] else layers
  }

  // ----------------------------------------------------------------------------------- history

  /** How many entries of a history are there for a layer. */
  function NonEmpty<T>(h: seq<T>, isEmpty: T -> bool): nat {
    if h == [] then 0 else NonEmpty(h[..|h| - 1], isEmpty) + if isEmpty(h[|h| - 1]) then 0 else 1
  }

  predicate IsEmptyO(e: OEntry) {
    e.emptyLayer
  }

  predicate IsEmptyD(e: DEntry) {
    e.emptyLayer
  }

  function NonEmptyO(h: seq<OEntry>): nat {
    NonEmpty(h, IsEmptyO)
  }

  function NonEmptyD(h: seq<DEntry>): nat {
    NonEmpty(h, IsEmptyD)
  }

  /** expectedOCIDiffIDs */
  method ExpectedOCIDiffIDs(h: seq<OEntry>) returns (expected: nat)
    ensures expected == NonEmptyO(h)
  {
    expected := 0;
    for i := 0 to |h|
      invariant expected == NonEmptyO(h[..i])
    {
      assert h[..i + 1][..i] == h[..i];
      if !h[i].emptyLayer {
        expected := expected + 1;
      }
    }
    assert h[..|h|] == h;
  }

  /** expectedDockerDiffIDs */
  method ExpectedDockerDiffIDs(h: seq<DEntry>) returns (expected: nat)
    ensures expected == NonEmptyD(h)
  {
    expected := 0;
    for i := 0 to |h|
      invariant expected == NonEmptyD(h[..i])
    {
      assert h[..i + 1][..i] == h[..i];
      if !h[i].emptyLayer {
        expected := expected + 1;
      }
    }
    assert h[..|h|] == h;
  }

  function Seconds(t: Option<int>): int {
    if t.Some? then t.value else ZERO_TIME
  }

  function EmptyO(n: Note): OEntry {
    OEntry(n.created, n.createdBy, n.author, n.comment, true)
  }

  function EmptyD(n: Note): DEntry {
    DEntry(Seconds(n.created), n.createdBy, n.author, n.comment, true)
  }

  /** The two histories tell the same story, whoever they say wrote it. */
  ghost predicate Parallel(o: seq<OEntry>, d: seq<DEntry>) {
    && |o| == |d|
    && forall k :: 0 <= k < |o| ==>
      && o[k].createdBy == d[k].createdBy && o[k].emptyLayer == d[k].emptyLayer
      && o[k].comment == d[k].comment && Seconds(o[k].created) == d[k].created
  }

  ghost predicate SameAuthors(o: seq<OEntry>, d: seq<DEntry>) {
    |o| == |d| && forall k :: 0 <= k < |o| ==> o[k].author == d[k].author
  }

  function OEntries(notes: seq<Note>): seq<OEntry> {
    seq(|notes|, i requires 0 <= i < |notes| => EmptyO(notes[i]))
  }

  function DEntries(notes: seq<Note>): seq<DEntry> {
    seq(|notes|, i requires 0 <= i < |notes| => EmptyD(notes[i]))
  }

  /** appendHistory: notes become entries without a layer, whatever they are about. */
  method AppendHistory(o: seq<OEntry>, d: seq<DEntry>, notes: seq<Note>) returns (o': seq<OEntry>, d': seq<DEntry>)
    ensures o' == o + OEntries(notes) && d' == d + DEntries(notes)
  {
    o', d' := o, d;
    for i := 0 to |notes|
      invariant o' == o + OEntries(notes)[..i] && d' == d + DEntries(notes)[..i]
    {
      var created := notes[i].created;
      o' := o' + [OEntry(created, notes[i].createdBy, notes[i].author, notes[i].comment, true)];
      if created.None? {
        created := Some(ZERO_TIME);
      }
      d' := d' + [DEntry(created.value, notes[i].createdBy, notes[i].author, notes[i].comment, true)];
    }
  }

  lemma {:induction false} NonEmptyConcat<T>(a: seq<T>, b: seq<T>, isEmpty: T -> bool)
    ensures NonEmpty(a + b, isEmpty) == NonEmpty(a, isEmpty) + NonEmpty(b, isEmpty)
    decreases |b|
  {
    if b == [] {
      assert a + b == a;
    } else {
      assert (a + b)[..|a + b| - 1] == a + b[..|b| - 1];
      NonEmptyConcat(a, b[..|b| - 1], isEmpty);
    }
  }

  lemma {:induction false} NoneIsThere<T>(h: seq<T>, isEmpty: T -> bool)
    requires forall k :: 0 <= k < |h| ==> isEmpty(h[k])
    ensures NonEmpty(h, isEmpty) == 0
  {
    if h != [] {
      NoneIsThere(h[..|h| - 1], isEmpty);
    }
  }

  /** Notes before and after do not change how many entries are there for a layer. */
  lemma {:induction false} CountAround<T>(kept: seq<T>, pre: seq<T>, e: T, post: seq<T>, isEmpty: T -> bool)
    requires forall k :: 0 <= k < |pre| ==> isEmpty(pre[k])
    requires forall k :: 0 <= k < |post| ==> isEmpty(post[k])
    ensures NonEmpty(kept + pre + [e] + post, isEmpty) == NonEmpty(kept, isEmpty) + if isEmpty(e) then 0 else 1
  {
    NonEmptyConcat(kept + pre + [e], post, isEmpty);
    NonEmptyConcat(kept + pre, [e], isEmpty);
    NonEmptyConcat(kept, pre, isEmpty);
    NoneIsThere(pre, isEmpty);
    NoneIsThere(post, isEmpty);
    assert [e][..0] == [];
  }

  // --------------------------------------------------------------------------------- the image

  /** createConfigsAndManifests keeps the history, unless the image starts afresh. */
  function KeptO(ref: Ref): seq<OEntry> {
    if ref.squash || ref.omitHistory then [] else ref.ohistory
  }

  function KeptD(ref: Ref): seq<DEntry> {
    if ref.squash || ref.omitHistory then [] else ref.dhistory
  }

  function NewEntryO(ref: Ref): OEntry {
    OEntry(Some(ref.now), ref.createdBy, ref.oauthor, ref.comment, ref.emptyLayer)
  }

  function NewEntryD(ref: Ref): DEntry {
    DEntry(ref.now, ref.createdBy, ref.dauthor, ref.comment, ref.emptyLayer)
  }

  function HistoryO(ref: Ref): seq<OEntry> {
    if ref.omitHistory then [] else KeptO(ref) + OEntries(ref.pre) + [NewEntryO(ref)] + OEntries(ref.post)
  }

  function HistoryD(ref: Ref): seq<DEntry> {
    if ref.omitHistory then [] else KeptD(ref) + DEntries(ref.pre) + [NewEntryD(ref)] + DEntries(ref.post)
  }

  lemma HistoryCount(ref: Ref)
    requires !ref.omitHistory
    ensures NonEmptyO(HistoryO(ref)) == NonEmptyO(KeptO(ref)) + if ref.emptyLayer then 0 else 1
    ensures NonEmptyD(HistoryD(ref)) == NonEmptyD(KeptD(ref)) + if ref.emptyLayer then 0 else 1
  {
    CountAround(KeptO(ref), OEntries(ref.pre), NewEntryO(ref), OEntries(ref.post), IsEmptyO);
    CountAround(KeptD(ref), DEntries(ref.pre), NewEntryD(ref), DEntries(ref.post), IsEmptyD);
  }

  lemma ParallelConcat(o: seq<OEntry>, d: seq<DEntry>, o': seq<OEntry>, d': seq<DEntry>)
    requires Parallel(o, d) && Parallel(o', d')
    ensures Parallel(o + o', d + d')
    ensures SameAuthors(o + o', d + d') <==> SameAuthors(o, d) && SameAuthors(o', d')
  {
    if SameAuthors(o + o', d + d') {
      forall k | 0 <= k < |o|
        ensures o[k].author == d[k].author
      {
        assert (o + o')[k] == o[k] && (d + d')[k] == d[k];
      }
      forall k | 0 <= k < |o'|
        ensures o'[k].author == d'[k].author
      {
        assert (o + o')[|o| + k] == o'[k] && (d + d')[|d| + k] == d'[k];
      }
    }
  }

  /** The histories stay parallel, and keep the same authors unless the two configurations differ in theirs. */
  lemma HistoryIsParallel(ref: Ref)
    requires Parallel(ref.ohistory, ref.dhistory)
    ensures Parallel(HistoryO(ref), HistoryD(ref))
    ensures SameAuthors(HistoryO(ref), HistoryD(ref)) <==>
      ref.omitHistory || (SameAuthors(KeptO(ref), KeptD(ref)) && ref.oauthor == ref.dauthor)
  {
    var o, d := [NewEntryO(ref)], [NewEntryD(ref)];
    var preO, preD, postO, postD := OEntries(ref.pre), DEntries(ref.pre), OEntries(ref.post), DEntries(ref.post);
    var keptO, keptD := KeptO(ref), KeptD(ref);
    assert Parallel(keptO, keptD) && Parallel(o, d) && Parallel(preO, preD) && Parallel(postO, postD);
    assert SameAuthors(preO, preD) && SameAuthors(postO, postD);
    assert SameAuthors(o, d) <==> ref.oauthor == ref.dauthor by {
      assert o[0].author == ref.oauthor && d[0].author == ref.dauthor;
    }
    if ref.omitHistory {
      assert Parallel([], []) && SameAuthors([], []);
    } else {
      hide Parallel;
      hide SameAuthors;
      ParallelConcat(keptO, keptD, preO, preD);
      ParallelConcat(keptO + preO, keptD + preD, o, d);
      ParallelConcat(keptO + preO + o, keptD + preD + d, postO, postD);
    }
  }

  /** The lists of both formats describe the included layers, from the bottom up. */
  ghost predicate Describes(s: Store, ref: Ref, codec: Codec, ids: seq<nat>, diffIDs: seq<Digest>,
                            blobs: seq<Descriptor>) {
    && |diffIDs| == |blobs| == |ids|
    && forall k :: 0 <= k < |ids| ==>
      ids[k] < |s| && DescribesLayer(s, ref, codec, ids[k], diffIDs[k], blobs[k])
  }

  /** Files have the digests that they are named by, and layers of the store those that they are known by. */
  ghost predicate BlobsAreNamed(s: Store, codec: Codec, b: Blobs) {
    && (forall d :: d in b.files ==> codec.digest(b.files[d]) == d)
    && (forall d :: d in b.known ==>
      b.known[d].id < |s| && s[b.known[d].id].digest == Some(d) && b.known[d].size == s[b.known[d].id].size)
  }

  /** What the source has for each included layer. */
  ghost predicate BlobsAreKept(s: Store, ref: Ref, ids: seq<nat>, blobs: seq<Descriptor>, b: Blobs) {
    && |blobs| == |ids|
    && forall k :: 0 <= k < |ids| ==>
      ids[k] < |s| && if Reuses(s, ref, ids[k]) then blobs[k].digest in b.known else blobs[k].digest in b.files
  }

  function UpTo(ids: seq<nat>, n: nat): seq<nat> {
    if n < |ids| then ids[..n] else ids
  }

  /** Some layer has to be compressed in a way that has no media type. */
  ghost predicate Unreadable(s: Store, ref: Ref, ids: seq<nat>) {
    !HasMediaType(ref.compression) && exists k :: 0 <= k < |ids| && ids[k] < |s| && !Reuses(s, ref, ids[k])
  }

  lemma DescribesOneMore(s: Store, ref: Ref, codec: Codec, ids: seq<nat>, diffIDs: seq<Digest>, blobs: seq<Descriptor>,
                         id: nat, diffID: Digest, blob: Descriptor)
    requires Describes(s, ref, codec, ids, diffIDs, blobs)
    requires id < |s| && DescribesLayer(s, ref, codec, id, diffID, blob)
    ensures Describes(s, ref, codec, ids + [id], diffIDs + [diffID], blobs + [blob])
  {
    hide DescribesLayer;
  }

  lemma KeptOneMore(s: Store, ref: Ref, codec: Codec, ids: seq<nat>, blobs: seq<Descriptor>, b: Blobs, id: nat,
                    blob: Descriptor, b': Blobs)
    requires BlobsAreKept(s, ref, ids, blobs, b) && BlobsAreNamed(s, codec, b) && id < |s|
    requires Reuses(s, ref, id) ==>
      s[id].digest == Some(blob.digest) && b' == b.(known := b.known[blob.digest := Known(id, s[id].size)])
    requires !Reuses(s, ref, id) ==>
      && blob.digest in b'.files && codec.digest(b'.files[blob.digest]) == blob.digest
      && b' == b.(files := b.files[blob.digest := b'.files[blob.digest]])
    ensures BlobsAreKept(s, ref, ids + [id], blobs + [blob], b') && BlobsAreNamed(s, codec, b')
  {
  }

  lemma NothingDescribed(s: Store, ref: Ref, codec: Codec)
    ensures Describes(s, ref, codec, [], [], []) && BlobsAreKept(s, ref, [], [], Blobs(map[], map[]))
    ensures BlobsAreNamed(s, codec, Blobs(map[], map[]))
  {
  }

  /** The loop over the layers, for both formats at once. */
  method DescribeLayers(s: Store, ref: Ref, codec: Codec, layers: seq<nat>)
      returns (ok: bool, odiffIDs: seq<Digest>, olayers: seq<Descriptor>,
               ddiffIDs: seq<Digest>, dlayers: seq<Descriptor>, blobs: Blobs)
    requires |layers| > 0 && (forall k :: 0 <= k < |layers| ==> layers[k] < |s|)
    requires layers[|layers| - 1] == ref.layerID && forall k :: 0 <= k < |layers| - 1 ==> layers[k] != ref.layerID
    ensures ok ==> Describes(s, ref, codec, Included(ref, layers), odiffIDs, olayers)
    ensures ok ==> Describes(s, ref, codec, Included(ref, layers), ddiffIDs, dlayers)
    ensures ok ==> BlobsAreNamed(s, codec, blobs) && BlobsAreKept(s, ref, Included(ref, layers), olayers, blobs)
    ensures ok <==> !Unreadable(s, ref, Included(ref, layers))
  {
    ok, odiffIDs, olayers, ddiffIDs, dlayers := true, [], [], [], [];
    blobs := Blobs(map[], map[]);
    NothingDescribed(s, ref, codec);
    hide Describes;
    hide BlobsAreKept;
    hide BlobsAreNamed;
    ghost var included := Included(ref, layers);
    for i := 0 to |layers|
      invariant ok && !Unreadable(s, ref, UpTo(included, i))
      invariant Describes(s, ref, codec, UpTo(included, i), odiffIDs, olayers)
      invariant Describes(s, ref, codec, UpTo(included, i), ddiffIDs, dlayers)
      invariant BlobsAreNamed(s, codec, blobs) && BlobsAreKept(s, ref, UpTo(included, i), olayers, blobs)
    {
      var id := layers[i];
      if ref.emptyLayer && id == ref.layerID {
        continue;
      }
      var layer := s[id];
      if !ref.squash && id != ref.layerID && layer.digest.Some? {
        ghost var blob := Descriptor(TarLayer, layer.digest.value, layer.size);
        DescribesOneMore(s, ref, codec, UpTo(included, i), odiffIDs, olayers, id, layer.digest.value, blob);
        DescribesOneMore(s, ref, codec, UpTo(included, i), ddiffIDs, dlayers, id, layer.digest.value, blob);
        KeptOneMore(s, ref, codec, UpTo(included, i), olayers, blobs, id, blob,
                    blobs.(known := blobs.known[layer.digest.value := Known(id, layer.size)]));
        olayers := olayers + [Descriptor(TarLayer, layer.digest.value, layer.size)];
        dlayers := dlayers + [Descriptor(TarLayer, layer.digest.value, layer.size)];
        odiffIDs, ddiffIDs := odiffIDs + [layer.digest.value], ddiffIDs + [layer.digest.value];
        blobs := blobs.(known := blobs.known[layer.digest.value := Known(id, layer.size)]);
      } else {
        if !HasMediaType(ref.compression) {
          assert included[i] == id;
          ok := false;
          return;
        }
        var mediaType := if ref.compression.Uncompressed? then TarLayer else GzipLayer;
        var raw := codec.filter(if ref.squash then ref.rootfs else layer.content);
        var stored := if ref.compression.Uncompressed? then raw else codec.gzip(raw);
        ghost var blob := Descriptor(mediaType, codec.digest(stored), codec.size(stored));
        DescribesOneMore(s, ref, codec, UpTo(included, i), odiffIDs, olayers, id, codec.digest(raw), blob);
        DescribesOneMore(s, ref, codec, UpTo(included, i), ddiffIDs, dlayers, id, codec.digest(raw), blob);
        KeptOneMore(s, ref, codec, UpTo(included, i), olayers, blobs, id, blob,
                    blobs.(files := blobs.files[codec.digest(stored) := stored]));
        olayers := olayers + [Descriptor(mediaType, codec.digest(stored), codec.size(stored))];
        dlayers := dlayers + [Descriptor(mediaType, codec.digest(stored), codec.size(stored))];
        odiffIDs, ddiffIDs := odiffIDs + [codec.digest(raw)], ddiffIDs + [codec.digest(raw)];
        blobs := blobs.(files := blobs.files[codec.digest(stored) := stored]);
      }
      assert UpTo(included, i + 1) == UpTo(included, i) + [id];
    }
    assert UpTo(included, |layers|) == included;
  }

  /** Both histories will have as many entries that are there for a layer as there are layers. */
  predicate Accounts(ref: Ref, layers: nat) {
    NonEmptyO(HistoryO(ref)) == layers && NonEmptyD(HistoryD(ref)) == layers
  }

  /** Why there is no source, if there is none: exactly one of four reasons. */
  ghost predicate Refuses(s: Store, ref: Ref, r: Result)
    requires ValidStore(s)
  {
    && (r.Err? && r.error.UnsupportedManifest? <==> !ref.supported)
    && (r.Err? && r.error.NoSuchLayer? <==> ref.supported && ref.layerID >= |s|)
    && (r.Err? && r.error.UndefinedMediaType? <==>
      ref.supported && ref.layerID < |s| && Unreadable(s, ref, Included(ref, LayerList(s, ref))))
    && (r.Err? && r.error.HistoryMismatch? <==>
      && ref.supported && ref.layerID < |s| && !Unreadable(s, ref, Included(ref, LayerList(s, ref)))
      && !ref.omitHistory && KeptO(ref) != [] && !Accounts(ref, |Included(ref, LayerList(s, ref))|))
  }

  /** What the source describes, and that it has all blobs. */
  ghost predicate SourceFits(s: Store, ref: Ref, codec: Codec, src: Source)
    requires ValidStore(s) && ref.layerID < |s|
  {
    var ids := Included(ref, LayerList(s, ref));
    && src.ohistory == HistoryO(ref) && src.dhistory == HistoryD(ref)
    && Describes(s, ref, codec, ids, src.odiffIDs, src.olayers)
    && Describes(s, ref, codec, ids, src.ddiffIDs, src.dlayers)
    && BlobsAreNamed(s, codec, src.blobs) && BlobsAreKept(s, ref, ids, src.olayers, src.blobs)
  }

  /** NewImageSource. It finds a mismatch exactly when the kept history and the layers do not go together. */
  method NewImageSource(s: Store, ref: Ref, codec: Codec) returns (r: Result)
    requires ValidStore(s)
    ensures Refuses(s, ref, r)
    ensures r.Ok? ==> ref.layerID < |s| && SourceFits(s, ref, codec, r.source)
  {
    hide BlobsAreNamed;
    hide BlobsAreKept;
    hide Describes;
    hide Unreadable;
    if !ref.supported {
      return Err(UnsupportedManifest);
    }
    if ref.layerID >= |s| {
      return Err(NoSuchLayer);
    }
    var layers := WalkLayers(s, ref);
    var oh, dh := KeptO(ref), KeptD(ref);
    var ok, odiffIDs, olayers, ddiffIDs, dlayers, blobs := DescribeLayers(s, ref, codec, layers);
    if !ok {
      return Err(UndefinedMediaType);
    }
    var baseImageHistoryLen := |oh|;
    if !ref.omitHistory {
      oh, dh := AppendHistory(oh, dh, ref.pre);
      oh := oh + [OEntry(Some(ref.now), ref.createdBy, ref.oauthor, ref.comment, ref.emptyLayer)];
      dh := dh + [DEntry(ref.now, ref.createdBy, ref.dauthor, ref.comment, ref.emptyLayer)];
      oh, dh := AppendHistory(oh, dh, ref.post);
      if baseImageHistoryLen != 0 {
        DescribedLength(s, ref, codec, Included(ref, layers), odiffIDs, olayers);
        DescribedLength(s, ref, codec, Included(ref, layers), ddiffIDs, dlayers);
        var expected := ExpectedOCIDiffIDs(oh);
        if |odiffIDs| != expected {
          return Err(HistoryMismatch);
        }
        expected := ExpectedDockerDiffIDs(dh);
        if |ddiffIDs| != expected {
          return Err(HistoryMismatch);
        }
      }
    }
    r := Ok(Source(oh, odiffIDs, olayers, dh, ddiffIDs, dlayers, blobs));
  }

  // -------------------------------------------------------------------------- reading the image

  datatype Served = Served(content: nat, size: nat)

  /** GetBlob: a layer of the store if it is known by that digest, else a file of that name from either directory. */
  method GetBlob(s: Store, codec: Codec, directory: map<Digest, nat>, blobs: Blobs, d: Digest)
      returns (r: Option<Served>)
    requires BlobsAreNamed(s, codec, blobs)
    ensures r.Some? <==> d in blobs.known || d in directory || d in blobs.files
    ensures d in blobs.known ==>
      exists id :: 0 <= id < |s| && s[id].digest == Some(d) && r == Some(Served(s[id].content, s[id].size))
    ensures d !in blobs.known && d in directory ==> r == Some(Served(directory[d], codec.size(directory[d])))
    ensures d !in blobs.known && d !in directory && r.Some? ==>
      codec.digest(r.value.content) == d && r.value == Served(blobs.files[d], codec.size(blobs.files[d]))
  {
    if d in blobs.known {
      var known := blobs.known[d];
      return Some(Served(s[known.id].content, known.size));
    }
    for k := 0 to 2
      invariant k > 0 ==> d !in directory
      invariant k > 1 ==> d !in blobs.files
    {
      var files := if k == 0 then directory else blobs.files;
      if d in files {
        return Some(Served(files[d], codec.size(files[d])));
      }
    }
    r := None;
  }

  /** The digests and sizes by which the store knows layers are right. */
  ghost predicate StoreIsRight(s: Store, codec: Codec) {
    forall id :: 0 <= id < |s| && s[id].digest.Some? ==>
      codec.digest(s[id].content) == s[id].digest.value && codec.size(s[id].content) == s[id].size
  }

  ghost predicate AreRight(s: Store, codec: Codec, directory: map<Digest, nat>) {
    StoreIsRight(s, codec) && forall d :: d in directory ==> codec.digest(directory[d]) == d
  }

  /** What was written is the only content in question that has its digest. */
  ghost predicate IsUnmistakable(s: Store, codec: Codec, directory: map<Digest, nat>, blobs: Blobs, x: nat) {
    && (forall id :: 0 <= id < |s| && codec.digest(s[id].content) == codec.digest(x) ==> s[id].content == x)
    && (forall d :: d in directory && d == codec.digest(x) ==> directory[d] == x)
    && (forall d :: d in blobs.files && d == codec.digest(x) ==> blobs.files[d] == x)
  }

  /**
   Reading a listed layer back: there is a blob under its digest, which has that digest and
   the listed size, and is made, as its media type says, of something whose digest is the
   diff ID.
   */
  method GetLayer(s: Store, ref: Ref, codec: Codec, directory: map<Digest, nat>, ids: seq<nat>, diffIDs: seq<Digest>,
                  layers: seq<Descriptor>, blobs: Blobs, k: nat) returns (r: Option<Served>)
    requires Describes(s, ref, codec, ids, diffIDs, layers) && k < |ids|
    requires BlobsAreNamed(s, codec, blobs) && BlobsAreKept(s, ref, ids, layers, blobs)
    ensures r.Some?
    ensures AreRight(s, codec, directory) ==>
      codec.digest(r.value.content) == layers[k].digest && codec.size(r.value.content) == r.value.size
    ensures AreRight(s, codec, directory) && Reuses(s, ref, ids[k]) ==>
      layers[k].mediaType.TarLayer? && codec.digest(r.value.content) == diffIDs[k]
    ensures var raw := Read(s, ref, codec, ids[k]);
            AreRight(s, codec, directory) && !Reuses(s, ref, ids[k])
              && IsUnmistakable(s, codec, directory, blobs, Packed(codec, layers[k].mediaType, raw)) ==>
      && r.value.content == Packed(codec, layers[k].mediaType, raw) && r.value.size == layers[k].size
      && codec.digest(raw) == diffIDs[k]
  {
    r := GetBlob(s, codec, directory, blobs, layers[k].digest);
  }

  lemma DescribedLength(s: Store, ref: Ref, codec: Codec, ids: seq<nat>, diffIDs: seq<Digest>, blobs: seq<Descriptor>)
    requires Describes(s, ref, codec, ids, diffIDs, blobs)
    ensures |diffIDs| == |ids|
  {
  }
}
