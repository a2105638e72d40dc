/**
 The layered build of one stage: every instruction ends in a commit, or in an image from
 an earlier build that the store search finds. The cached build agrees with the plain one.
 */
module LayerCache {
  import opened Optional

  datatype Command = Arg | Run | AddOrCopy | Other

  /** A parsed instruction, with its keyword; summary describes the content that an ADD or COPY adds. */
  datatype Instruction = Instruction(command: Command, keyword: string, text: string, words: set<string>,
                                       destination: string, summary: string) {
    /** stepRequiresLayer */
    predicate RequiresLayer() {
      command.Run? || command.AddOrCopy?
    }
  }

  /** The part of the image configuration that descriptions of instructions depend on. */
  datatype Config = Config(args: map<string, string>, allowed: set<string>, env: map<string, string>, rest: nat)

  /** What a history entry says about an instruction, before it is put in words. */
  datatype Description =
    | ArgOf(keys: set<string>)
    | RunOf(args: map<string, string>, text: string)
    | ContentOf(keyword: string, summary: string, destination: string)
    | Nop(text: string)

  datatype Entry = Entry(createdBy: string, comment: string, author: string, emptyLayer: bool, created: Option<int>)

  /** What is left of a history entry without the times and remarks. */
  datatype Key = Key(createdBy: string, emptyLayer: bool)

  type Digest = nat

  /**
   What the build leaves to others: wording, configuration instructions, and execution,
   which is deterministic in the base image and the description, and may fail.
   */
  datatype Engine = Engine(render: Description -> string,
                           configure: (Config, Instruction) -> Option<Config>,
                           execute: (seq<Digest>, seq<Key>, string) -> Option<Digest>,
                           proxies: set<string>)

  datatype Image = Image(id: nat, topLayer: Option<nat>, created: int, manifestType: nat, readable: bool,
                         history: seq<Entry>, diffIDs: seq<Digest>)

  /** The images in the order in which the store lists them, and the parents of the layers, which are numbered. */
  datatype Store = Store(images: seq<Image>, layers: seq<Option<nat>>)

  /** The working container: the image it was made from, if any. */
  datatype Builder = Builder(from: Option<Image>) {
    function History(): seq<Entry> {
      if from.None? then [] else from.value.history
    }

    function DiffIDs(): seq<Digest> {
      if from.None? then [] else from.value.diffIDs
    }

    function TopLayer(): Option<nat> {
      if from.None? then None else from.value.topLayer
    }
  }

  /** What stays fixed during a build. */
  datatype Settings = Settings(engine: Engine, outputFormat: nat, cacheTTL: int, now: int)

  // ---------------------------------------------------------------------- descriptions

  /** getBuildArgsResolvedForRun, as a map instead of a sorted list. */
  function ResolvedArgs(e: Engine, c: Config, seen: set<string>): map<string, string> {
    map k | k in c.args && k in c.allowed && (k in c.env || k !in e.proxies || k in seen) ::
      if k in c.env then c.env[k] else c.args[k]
  }

  /** getCreatedBy */
  function CreatedBy(e: Engine, c: Config, seen: set<string>, i: Instruction, summary: string): string {
    match i.command
    case Arg => e.render(ArgOf(c.args.Keys * c.allowed))
    case Run => e.render(RunOf(ResolvedArgs(e, c, seen), i.text))
    case AddOrCopy => e.render(ContentOf(i.keyword, summary, i.destination))
    case Other => e.render(Nop(i.text))
  }

  /** What getCreatedBy remembers of an ARG instruction. */
  function Seen(seen: set<string>, i: Instruction): set<string> {
    if i.command.Arg? then seen + i.words else seen
  }

  /** What the entry for an instruction says once it is done. */
  function Says(e: Engine, c: Config, seen: set<string>, i: Instruction): string {
    CreatedBy(e, c, seen, i, i.summary)
  }

  /** Whether two descriptions are put in the same words only if they are the same. */
  predicate Distinguishes(e: Engine, d: Description, d': Description) {
    e.render(d) == e.render(d') ==> d == d'
  }

  /**
   The value of a build argument that a RUN depends on: of those that are declared, the value
   from the environment if there is one there, else the argument's, unless it is a proxy
   setting which no ARG has named.
   */
  function ArgValue(e: Engine, c: Config, seen: set<string>, k: string): Option<string> {
    if k !in c.args || k !in c.allowed then None
    else if k in c.env then Some(c.env[k])
    else if k in e.proxies && k !in seen then None
    else Some(c.args[k])
  }

  lemma ArgsAre(e: Engine, c: Config, seen: set<string>, k: string)
    ensures k in ResolvedArgs(e, c, seen) <==> ArgValue(e, c, seen, k).Some?
    ensures k in ResolvedArgs(e, c, seen) ==> ArgValue(e, c, seen, k) == Some(ResolvedArgs(e, c, seen)[k])
  {
  }

  lemma SameArgsExactlyWhen(e: Engine, c: Config, seen: set<string>, c': Config, seen': set<string>)
    ensures ResolvedArgs(e, c, seen) == ResolvedArgs(e, c', seen') <==>
      forall k :: ArgValue(e, c, seen, k) == ArgValue(e, c', seen', k)
  {
    var m, m' := ResolvedArgs(e, c, seen), ResolvedArgs(e, c', seen');
    forall k
      ensures k in m <==> ArgValue(e, c, seen, k).Some?
      ensures k in m ==> ArgValue(e, c, seen, k) == Some(m[k])
      ensures k in m' <==> ArgValue(e, c', seen', k).Some?
      ensures k in m' ==> ArgValue(e, c', seen', k) == Some(m'[k])
    {
      ArgsAre(e, c, seen, k);
      ArgsAre(e, c', seen', k);
    }
    hide ResolvedArgs;
    hide ArgValue;
    if m == m' {
      forall k
        ensures ArgValue(e, c, seen, k) == ArgValue(e, c', seen', k)
      {
        assert k in m <==> k in m';
      }
    }
    if forall k :: ArgValue(e, c, seen, k) == ArgValue(e, c', seen', k) {
      assert forall k :: (k in m <==> k in m') && (k in m ==> m[k] == m'[k]);
      assert m.Keys == m'.Keys;
    }
  }

  /** Two additions of content are described alike exactly when keyword, content and destination are the same. */
  lemma ContentToldApart(e: Engine, c: Config, seen: set<string>, i: Instruction,
                         c': Config, seen': set<string>, i': Instruction)
    requires i.command.AddOrCopy? && i'.command.AddOrCopy?
    requires Distinguishes(e, DescriptionOf(e, c, seen, i), DescriptionOf(e, c', seen', i'))
    ensures Says(e, c, seen, i) == Says(e, c', seen', i') <==>
      i.keyword == i'.keyword && i.summary == i'.summary && i.destination == i'.destination
  {
  }

  /** Two RUN instructions are described alike exactly when they are written alike and have the same arguments. */
  lemma RunToldApart(e: Engine, c: Config, seen: set<string>, i: Instruction,
                     c': Config, seen': set<string>, i': Instruction)
    requires i.command.Run? && i'.command.Run?
    requires Distinguishes(e, DescriptionOf(e, c, seen, i), DescriptionOf(e, c', seen', i'))
    ensures Says(e, c, seen, i) == Says(e, c', seen', i') <==>
      i.text == i'.text && forall k :: ArgValue(e, c, seen, k) == ArgValue(e, c', seen', k)
  {
    SameArgsExactlyWhen(e, c, seen, c', seen');
    hide ResolvedArgs;
    hide ArgValue;
  }

  /** Instructions of different kinds are not described alike. */
  lemma KindsToldApart(e: Engine, c: Config, seen: set<string>, i: Instruction,
                       c': Config, seen': set<string>, i': Instruction)
    requires i.command != i'.command
    requires Distinguishes(e, DescriptionOf(e, c, seen, i), DescriptionOf(e, c', seen', i'))
    ensures Says(e, c, seen, i) != Says(e, c', seen', i')
  {
    hide ResolvedArgs;
  }

  function DescriptionOf(e: Engine, c: Config, seen: set<string>, i: Instruction): (d: Description)
    ensures Says(e, c, seen, i) == e.render(d)
  {
    match i.command
    case Arg => ArgOf(c.args.Keys * c.allowed)
    case Run => RunOf(ResolvedArgs(e, c, seen), i.text)
    case AddOrCopy => ContentOf(i.keyword, i.summary, i.destination)
    case Other => Nop(i.text)
  }

  function KeyOf(e: Entry): Key {
    Key(e.createdBy, e.emptyLayer)
  }

  function Keys(h: seq<Entry>): (ks: seq<Key>)
    ensures |ks| == |h|
  {
    if h == [] then [] else Keys(h[..|h| - 1]) + [KeyOf(h[|h| - 1])]
  }

  lemma KeysAppend(h: seq<Entry>, e: Entry)
    ensures Keys(h + [e]) == Keys(h) + [KeyOf(e)]
  {
    assert (h + [e])[..|h|] == h;
  }

  function NonEmpty(h: seq<Entry>): nat {
    if h == [] then 0 else NonEmpty(h[..|h| - 1]) + if h[|h| - 1].emptyLayer then 0 else 1
  }

  lemma NonEmptyAppend(h: seq<Entry>, e: Entry)
    ensures NonEmpty(h + [e]) == NonEmpty(h) + if e.emptyLayer then 0 else 1
  {
    assert (h + [e])[..|h|] == h;
  }

  // ------------------------------------------------------------------- the plain build

  datatype Outcome = Outcome(keys: seq<Key>, diffIDs: seq<Digest>, config: Config, seen: set<string>)

  /** One instruction, run and committed on top of what has been built. */
  function PlainStep(e: Engine, o: Outcome, i: Instruction): Option<Outcome> {
    if i.RequiresLayer() then
      var createdBy := CreatedBy(e, o.config, o.seen, i, i.summary);
      var diff := e.execute(o.diffIDs, o.keys, createdBy);
      if diff.None? then None
      else Some(o.(keys := o.keys + [Key(createdBy, false)], diffIDs := o.diffIDs + [diff.value]))
    else
      var config := e.configure(o.config, i);
      if config.None? then None
      else
        var seen := Seen(o.seen, i);
        Some(Outcome(o.keys + [Key(CreatedBy(e, config.value, seen, i, ""), true)], o.diffIDs, config.value, seen))
  }

  /** The first n instructions, without any cache: every one is run and committed. */
  function Plain(e: Engine, o: Outcome, steps: seq<Instruction>, n: nat): Option<Outcome>
    requires n <= |steps|
  {
    if n == 0 then Some(o) else
      var before := Plain(e, o, steps, n - 1);
      if before.None? then None else PlainStep(e, before.value, steps[n - 1])
  }

  lemma {:induction false} FailureStays(e: Engine, o: Outcome, steps: seq<Instruction>, n: nat, m: nat)
    requires n <= m <= |steps| && Plain(e, o, steps, n).None?
    ensures Plain(e, o, steps, m).None?
    decreases m
  {
    if n < m {
      FailureStays(e, o, steps, n, m - 1);
    }
  }

  // ---------------------------------------------------------------------- the store search

  /** historyEntriesEqual */
  function HistoryEntriesEqual(base: Entry, derived: Entry): (b: bool)
    ensures b <==> base == derived
  {
    && base.createdBy == derived.createdBy && base.comment == derived.comment && base.author == derived.author
    && base.emptyLayer == derived.emptyLayer
    && (base.created.Some? <==> derived.created.Some?)
    && (base.created.Some? && derived.created.Some? ==> base.created.value == derived.created.value)
  }

  /** The candidate is the base plus one entry, with the layers that the history calls for. */
  ghost predicate Extends(baseHistory: seq<Entry>, baseDiffIDs: seq<Digest>, img: Image,
                            createdBy: string, addsLayer: bool) {
    && |img.history| == |baseHistory| + 1
    && img.history[..|baseHistory|] == baseHistory
    && NonEmpty(baseHistory) == |baseDiffIDs|
    && |img.diffIDs| == |baseDiffIDs| + (if addsLayer then 1 else 0)
    && img.diffIDs[..|baseDiffIDs|] == baseDiffIDs
    && img.history[|baseHistory|].createdBy == createdBy
  }

  /** historyAndDiffIDsMatch */
  method HistoryAndDiffIDsMatch(baseHistory: seq<Entry>, baseDiffIDs: seq<Digest>, img: Image,
                                createdBy: string, buildAddsLayer: bool) returns (matches: bool)
    ensures matches <==> Extends(baseHistory, baseDiffIDs, img, createdBy, buildAddsLayer)
  {
    var history, diffIDs := img.history, img.diffIDs;
    if |history| != |baseHistory| + 1 {
      return false;
    }
    var expectedDiffIDs := 0;
    for i := 0 to |baseHistory|
      invariant history[..i] == baseHistory[..i]
      invariant expectedDiffIDs == NonEmpty(baseHistory[..i])
    {
      if !HistoryEntriesEqual(baseHistory[i], history[i]) {
        assert history[..|baseHistory|][i] != baseHistory[i];
        return false;
      }
      assert baseHistory[..i + 1] == baseHistory[..i] + [baseHistory[i]];
      NonEmptyAppend(baseHistory[..i], baseHistory[i]);
      if !baseHistory[i].emptyLayer {
        expectedDiffIDs := expectedDiffIDs + 1;
      }
    }
    assert baseHistory[..|baseHistory|] == baseHistory;
    if |baseDiffIDs| != expectedDiffIDs {
      return false;
    }
    if buildAddsLayer {
      if |diffIDs| != expectedDiffIDs + 1 {
        return false;
      }
    } else {
      if |diffIDs| != expectedDiffIDs {
        return false;
      }
    }
    for i := 0 to |baseDiffIDs|
      invariant diffIDs[..i] == baseDiffIDs[..i]
    {
      if diffIDs[i] != baseDiffIDs[i] {
        assert diffIDs[..|baseDiffIDs|][i] != baseDiffIDs[i];
        return false;
      }
    }
    return history[|baseHistory|].createdBy == createdBy;
  }

  predicate IsFresh(s: Settings, img: Image) {
    s.cacheTTL == 0 || s.now - img.created <= s.cacheTTL
  }

  predicate HasItsLayer(store: Store, img: Image) {
    img.topLayer.Some? ==> img.topLayer.value < |store.layers|
  }

  /** The image is recent enough, lies on the right layer, and is of the kind that is being built. */
  predicate Candidate(s: Settings, store: Store, b: Builder, img: Image, addsLayer: bool) {
    && IsFresh(s, img) && HasItsLayer(store, img)
    && b.TopLayer() == ParentLayer(store, img, addsLayer)
    && img.readable && img.manifestType == s.outputFormat
  }

  /** The layer of the image that the working container's layer has to be. */
  function ParentLayer(store: Store, img: Image, addsLayer: bool): Option<nat>
    requires img.topLayer.Some? ==> img.topLayer.value < |store.layers|
  {
    if img.topLayer.Some? && addsLayer then store.layers[img.topLayer.value] else img.topLayer
  }

  datatype Search = Hit(image: Image) | Miss | StoreError

  /** A stored image that extends the working container's image by an instruction. */
  ghost predicate Matches(s: Settings, store: Store, b: Builder, createdBy: string, addsLayer: bool, img: Image) {
    Candidate(s, store, b, img, addsLayer) && Extends(b.History(), b.DiffIDs(), img, createdBy, addsLayer)
  }

  /** The search is over with this image: it is a match, or its layer can not be found. */
  ghost predicate EndsSearch(s: Settings, store: Store, b: Builder, createdBy: string, addsLayer: bool, img: Image) {
    Matches(s, store, b, createdBy, addsLayer, img) || (IsFresh(s, img) && !HasItsLayer(store, img))
  }

  /** What the search comes to from the k-th image on: the first match, unless a layer is missing before that. */
  ghost function SearchFrom(s: Settings, store: Store, b: Builder, createdBy: string, addsLayer: bool, k: nat): Search
    decreases |store.images| - k
  {
    if k >= |store.images| then Miss
    else if Matches(s, store, b, createdBy, addsLayer, store.images[k]) then Hit(store.images[k])
    else if EndsSearch(s, store, b, createdBy, addsLayer, store.images[k]) then StoreError
    else SearchFrom(s, store, b, createdBy, addsLayer, k + 1)
  }

  ghost function SearchFor(s: Settings, store: Store, b: Builder, createdBy: string, addsLayer: bool): Search {
    if b.from.Some? && !b.from.value.readable then StoreError else SearchFrom(s, store, b, createdBy, addsLayer, 0)
  }

  /** The search can not be carried out: the base can not be read, or the layer of a recent image is missing. */
  ghost predicate CanNotSearch(s: Settings, store: Store, b: Builder) {
    || (b.from.Some? && !b.from.value.readable)
    || exists k :: 0 <= k < |store.images| && IsFresh(s, store.images[k]) && !HasItsLayer(store, store.images[k])
  }

  lemma {:induction false} SearchFromIs(s: Settings, store: Store, b: Builder, createdBy: string, addsLayer: bool,
                                        k: nat)
    requires k <= |store.images|
    ensures var r := SearchFrom(s, store, b, createdBy, addsLayer, k);
      && (r.StoreError? ==> exists j ::
        k <= j < |store.images| && IsFresh(s, store.images[j]) && !HasItsLayer(store, store.images[j]))
      && (r.Hit? ==> r.image in store.images && Matches(s, store, b, createdBy, addsLayer, r.image))
      && (r.Miss? <==> forall j :: k <= j < |store.images| ==>
        !EndsSearch(s, store, b, createdBy, addsLayer, store.images[j]))
    decreases |store.images| - k
  {
    hide Matches;
    if k < |store.images| {
      SearchFromIs(s, store, b, createdBy, addsLayer, k + 1);
    }
  }

  /**
   If the search can be carried out, it finds a match if and only if there is one, and
   otherwise it says that there is none.
   */
  lemma SearchExactlyWhen(s: Settings, store: Store, b: Builder, createdBy: string, addsLayer: bool)
    ensures var r := SearchFor(s, store, b, createdBy, addsLayer);
      && (r.StoreError? ==> CanNotSearch(s, store, b))
      && (r.Hit? ==> r.image in store.images && Matches(s, store, b, createdBy, addsLayer, r.image))
      && (!CanNotSearch(s, store, b) ==>
        (r.Hit? <==> exists img :: img in store.images && Matches(s, store, b, createdBy, addsLayer, img)))
  {
    SearchFromIs(s, store, b, createdBy, addsLayer, 0);
    hide SearchFrom;
    hide Matches;
    hide HasItsLayer;
    var r := SearchFor(s, store, b, createdBy, addsLayer);
    if !CanNotSearch(s, store, b) && !r.Hit? {
      forall img | img in store.images
        ensures !Matches(s, store, b, createdBy, addsLayer, img)
      {
        var k :| 0 <= k < |store.images| && store.images[k] == img;
      }
    }
  }

  /**
   intermediateImageExists: a hit is a stored image that extends the working container's
   image by this instruction, and a miss means that there is none.
   */
  method IntermediateImageExists(s: Settings, store: Store, b: Builder, createdBy: string, buildAddsLayer: bool)
    returns (r: Search)
    ensures r == SearchFor(s, store, b, createdBy, buildAddsLayer)
    ensures r.Hit? ==>
      && r.image in store.images && Candidate(s, store, b, r.image, buildAddsLayer)
      && Extends(b.History(), b.DiffIDs(), r.image, createdBy, buildAddsLayer)
    ensures r.Miss? ==>
      forall img :: img in store.images && Candidate(s, store, b, img, buildAddsLayer) ==>
        !Extends(b.History(), b.DiffIDs(), img, createdBy, buildAddsLayer)
    ensures r.StoreError? ==> CanNotSearch(s, store, b)
  {
    hide Extends;
    if b.from.Some? && !b.from.value.readable {
      return StoreError;
    }
    SearchExactlyWhen(s, store, b, createdBy, buildAddsLayer);
    for k := 0 to |store.images|
      invariant SearchFor(s, store, b, createdBy, buildAddsLayer) ==
        SearchFrom(s, store, b, createdBy, buildAddsLayer, k)
      invariant forall a :: 0 <= a < k ==> !Matches(s, store, b, createdBy, buildAddsLayer, store.images[a])
    {
      var img := store.images[k];
      if s.cacheTTL != 0 {
        if s.cacheTTL < s.now - img.created {
          continue;
        }
      }
      if img.topLayer.Some? && img.topLayer.value >= |store.layers| {
        return StoreError;
      }
      if b.TopLayer() != ParentLayer(store, img, buildAddsLayer) {
        continue;
      }
      if !img.readable || img.manifestType != s.outputFormat {
        continue;
      }
      var matches := HistoryAndDiffIDsMatch(b.History(), b.DiffIDs(), img, createdBy, buildAddsLayer);
      if matches {
        return Hit(img);
      }
    }
    r := Miss;
  }

  // ------------------------------------------------------------------------ soundness

  /** The image has a layer per non-empty entry, and its last layer is what its last entry says. */
  ghost predicate Sound(e: Engine, img: Image) {
    var n, m := |img.history|, |img.diffIDs|;
    && NonEmpty(img.history) == m
    && (n > 0 && m > 0 && !img.history[n - 1].emptyLayer ==>
      e.execute(img.diffIDs[..m - 1], Keys(img.history[..n - 1]), img.history[n - 1].createdBy)
        == Some(img.diffIDs[m - 1]))
  }

  ghost predicate SoundStore(e: Engine, store: Store) {
    forall img :: img in store.images ==> Sound(e, img)
  }

  ghost predicate Consistent(b: Builder) {
    NonEmpty(b.History()) == |b.DiffIDs()|
  }

  lemma SoundIsConsistent(e: Engine, img: Image)
    requires Sound(e, img)
    ensures Consistent(Builder(Some(img)))
  {
  }

  /** A hit is what running and committing the instruction would have given. */
  lemma HitIsWhatRunningGives(e: Engine, b: Builder, img: Image, createdBy: string, addsLayer: bool)
    requires Extends(b.History(), b.DiffIDs(), img, createdBy, addsLayer) && Sound(e, img)
    ensures Keys(img.history) == Keys(b.History()) + [Key(createdBy, !addsLayer)]
    ensures addsLayer ==> var d := e.execute(b.DiffIDs(), Keys(b.History()), createdBy);
                          d.Some? && img.diffIDs == b.DiffIDs() + [d.value]
    ensures !addsLayer ==> img.diffIDs == b.DiffIDs()
  {
    var n := |b.History()|;
    var last := img.history[n];
    assert img.history == b.History() + [last];
    NonEmptyAppend(b.History(), last);
    KeysAppend(b.History(), last);
    assert img.history[..n] == b.History();
    assert img.diffIDs == img.diffIDs[..|b.DiffIDs()|] + img.diffIDs[|b.DiffIDs()|..];
  }

  /** Taking the image is as good as running the instruction. */
  ghost predicate HitAgrees(e: Engine, b: Builder, img: Image, createdBy: string, addsLayer: bool)
    requires Extends(b.History(), b.DiffIDs(), img, createdBy, addsLayer)
  {
    && Keys(img.history) == Keys(b.History()) + [Key(createdBy, !addsLayer)]
    && (addsLayer ==> e.execute(b.DiffIDs(), Keys(b.History()), createdBy) == Some(img.diffIDs[|b.DiffIDs()|]))
  }

  /** Soundness is exactly what a hit needs. */
  lemma HitAgreesExactlyWhenSound(e: Engine, b: Builder, img: Image, createdBy: string, addsLayer: bool)
    requires Extends(b.History(), b.DiffIDs(), img, createdBy, addsLayer)
    ensures Sound(e, img) <==> HitAgrees(e, b, img, createdBy, addsLayer)
  {
    var n := |b.History()|;
    var last := img.history[n];
    assert img.history == b.History() + [last];
    NonEmptyAppend(b.History(), last);
    KeysAppend(b.History(), last);
    assert img.history[..n] == b.History();
    assert (Keys(b.History()) + [KeyOf(last)])[n] == KeyOf(last);
  }

  /** The image has the container's history and one more entry, and its layers. */
  ghost predicate Grows(b: Builder, img: Image) {
    && |img.history| == |b.History()| + 1 && b.History() <= img.history && Keys(b.History()) <= Keys(img.history)
    && b.DiffIDs() <= img.diffIDs
  }

  lemma ExtendsGrows(b: Builder, img: Image, createdBy: string, addsLayer: bool)
    requires Extends(b.History(), b.DiffIDs(), img, createdBy, addsLayer)
    ensures Grows(b, img)
  {
    var last := img.history[|b.History()|];
    assert img.history == b.History() + [last];
    KeysAppend(b.History(), last);
  }

  /** The image that commit makes: the container's image, plus one entry, plus one layer unless the entry is empty. */
  function Committed(s: Settings, store: Store, b: Builder, entry: Entry, diff: Option<Digest>): Image {
    Image(|store.images|, if diff.Some? then Some(|store.layers|) else b.TopLayer(), s.now, s.outputFormat, true,
          b.History() + [entry], if diff.Some? then b.DiffIDs() + [diff.value] else b.DiffIDs())
  }

  /** The store with it, and with its layer on top of the container's. */
  function CommittedStore(store: Store, b: Builder, img: Image, diff: Option<Digest>): Store {
    Store(store.images + [img], if diff.Some? then store.layers + [b.TopLayer()] else store.layers)
  }

  lemma CommittedIsSound(s: Settings, store: Store, b: Builder, entry: Entry, diff: Option<Digest>)
    requires Consistent(b) && entry.emptyLayer == diff.None?
    requires diff.Some? ==> s.engine.execute(b.DiffIDs(), Keys(b.History()), entry.createdBy) == diff
    ensures Sound(s.engine, Committed(s, store, b, entry, diff))
  {
    var img := Committed(s, store, b, entry, diff);
    NonEmptyAppend(b.History(), entry);
    assert img.history[..|img.history| - 1] == b.History();
    if diff.Some? {
      assert img.diffIDs[..|img.diffIDs| - 1] == b.DiffIDs();
    }
  }

  /** commit, which also puts the image in the store. */
  method Commit(s: Settings, store: Store, b: Builder, createdBy: string, diff: Option<Digest>,
                comment: string, author: string)
      returns (img: Image, store': Store)
    ensures Keys(img.history) == Keys(b.History()) + [Key(createdBy, diff.None?)] && Grows(b, img)
    ensures img.diffIDs == if diff.Some? then b.DiffIDs() + [diff.value] else b.DiffIDs()
    ensures img == Committed(s, store, b, Entry(createdBy, comment, author, diff.None?, Some(s.now)), diff)
    ensures store' == CommittedStore(store, b, img, diff)
    ensures Consistent(b) && (diff.Some? ==> s.engine.execute(b.DiffIDs(), Keys(b.History()), createdBy) == diff) ==>
      Sound(s.engine, img)
  {
    var entry := Entry(createdBy, comment, author, diff.None?, Some(s.now));
    img := Committed(s, store, b, entry, diff);
    store' := Store(store.images + [img], if diff.Some? then store.layers + [b.TopLayer()] else store.layers);
    KeysAppend(b.History(), entry);
    if Consistent(b) && (diff.Some? ==> s.engine.execute(b.DiffIDs(), Keys(b.History()), createdBy) == diff) {
      CommittedIsSound(s, store, b, entry, diff);
    }
  }

  // ------------------------------------------------------------------------ the build

  /** What later instructions depend on besides the image. */
  datatype Scope = Scope(config: Config, seen: set<string>)

  /** Only instructions that make no layer change the configuration, if they can. */
  function NextScope(e: Engine, c: Scope, i: Instruction): Option<Scope> {
    if i.RequiresLayer() then Some(c)
    else
      var config := e.configure(c.config, i);
      if config.None? then None else Some(Scope(config.value, Seen(c.seen, i)))
  }

  function ScopeAfter(e: Engine, c: Scope, steps: seq<Instruction>, n: nat): Option<Scope>
    requires n <= |steps|
  {
    if n == 0 then Some(c)
    else
      var before := ScopeAfter(e, c, steps, n - 1);
      if before.None? then None else NextScope(e, before.value, steps[n - 1])
  }

  /** Which words have been seen in ARG instructions. */
  lemma {:induction false} SeenExactlyWhen(e: Engine, c: Scope, steps: seq<Instruction>, n: nat, k: string)
    requires n <= |steps| && ScopeAfter(e, c, steps, n).Some?
    ensures k in ScopeAfter(e, c, steps, n).value.seen <==>
      k in c.seen || exists j :: 0 <= j < n && steps[j].command.Arg? && k in steps[j].words
  {
    if n > 0 {
      SeenExactlyWhen(e, c, steps, n - 1, k);
      assert steps[n - 1].command.Arg? ==> !steps[n - 1].RequiresLayer();
    }
  }

  /** What one instruction leaves behind: the image, and whether it was a hit and was run. */
  datatype StepResult = Stepped(image: Image, hit: bool, runs: nat, config: Config, seen: set<string>, store: Store)
                      | StepFailed | StoreFailed

  ghost function OutcomeOf(b: Builder, config: Config, seen: set<string>): Outcome {
    Outcome(Keys(b.History()), b.DiffIDs(), config, seen)
  }

  /**
   One turn, in the order of events. ADD, COPY and ARG are carried out before the search, the
   others after it, and a RUN not at all if there is a hit.
   */
  ghost function StepOf(s: Settings, store: Store, b: Builder, c: Scope, i: Instruction, check: bool,
                        comment: string, author: string): StepResult {
    var e, adds, next := s.engine, i.RequiresLayer(), NextScope(s.engine, c, i);
    var after := if next.Some? then next.value else c;
    var says := Says(e, after.config, after.seen, i);
    var diff := if adds then e.execute(b.DiffIDs(), Keys(b.History()), says) else None;
    var works := if adds then diff.Some? else next.Some?;
    var search := if check then SearchFor(s, store, b, says, adds) else Miss;
    if search.StoreError? && !i.command.Arg? && !i.command.AddOrCopy? then StoreFailed
    else if !works && !(search.Hit? && i.command.Run?) then StepFailed
    else if search.StoreError? then StoreFailed
    else if search.Hit? then
      Stepped(search.image, true, if i.command.Run? then 0 else 1, after.config, after.seen, store)
    else
      var img := Committed(s, store, b, Entry(says, comment, author, !adds, Some(s.now)), diff);
      Stepped(img, false, 1, after.config, after.seen, CommittedStore(store, b, img, diff))
  }

  /** The step's result, whatever way it was reached, is that of the plain step. */
  ghost predicate AgreesWith(r: StepResult, plain: Option<Outcome>) {
    match r
    case Stepped(image, _, _, config, seen, _) => plain == Some(OutcomeOf(Builder(Some(image)), config, seen))
    case StepFailed => plain.None?
    case StoreFailed => true
  }

  /** Two results that no further steps bring together again. */
  ghost predicate Apart(b: Builder, plain: Outcome) {
    && |plain.keys| == |b.History()|
    && (|| plain.keys != Keys(b.History())
        || exists p :: 0 <= p < |b.DiffIDs()| && p < |plain.diffIDs| && b.DiffIDs()[p] != plain.diffIDs[p])
  }

  /** The step's result is not that of the plain step, nor can it lead to the same. */
  ghost predicate IsApart(r: StepResult, plain: Option<Outcome>) {
    r.Stepped? && (plain.None? || Apart(Builder(Some(r.image)), plain.value))
  }

  /** A hit, as seen from the plain step. */
  lemma HitStepped(e: Engine, b: Builder, config: Config, seen: set<string>, i: Instruction, img: Image,
                   config': Config, seen': set<string>, createdBy: string)
    requires Extends(b.History(), b.DiffIDs(), img, createdBy, i.RequiresLayer())
    requires i.RequiresLayer() ==>
      config' == config && seen' == seen && createdBy == CreatedBy(e, config, seen, i, i.summary)
    requires !i.RequiresLayer() ==>
      && e.configure(config, i) == Some(config') && seen' == Seen(seen, i)
      && createdBy == CreatedBy(e, config', seen', i, "")
    ensures Grows(b, img) && |b.History()| < |img.history|
    ensures Sound(e, img) ==>
      PlainStep(e, OutcomeOf(b, config, seen), i) == Some(OutcomeOf(Builder(Some(img)), config', seen'))
    ensures !Sound(e, img) ==>
      var plain := PlainStep(e, OutcomeOf(b, config, seen), i);
      plain.None? || Apart(Builder(Some(img)), plain.value)
  {
    ExtendsGrows(b, img, createdBy, i.RequiresLayer());
    HitAgreesExactlyWhenSound(e, b, img, createdBy, i.RequiresLayer());
    if Sound(e, img) {
      HitIsWhatRunningGives(e, b, img, createdBy, i.RequiresLayer());
    } else {
      UnsoundHit(e, b, config, seen, i, img, createdBy);
    }
  }

  lemma UnsoundHit(e: Engine, b: Builder, config: Config, seen: set<string>, i: Instruction, img: Image,
                   createdBy: string)
    requires Extends(b.History(), b.DiffIDs(), img, createdBy, i.RequiresLayer())
    requires !HitAgrees(e, b, img, createdBy, i.RequiresLayer())
    requires i.RequiresLayer() ==> createdBy == CreatedBy(e, config, seen, i, i.summary)
    requires !i.RequiresLayer() ==>
      e.configure(config, i).Some? && createdBy == CreatedBy(e, e.configure(config, i).value, Seen(seen, i), i, "")
    ensures var plain := PlainStep(e, OutcomeOf(b, config, seen), i);
      plain.None? || Apart(Builder(Some(img)), plain.value)
  {
    hide Sound;
    hide CreatedBy;
    var plain, m := PlainStep(e, OutcomeOf(b, config, seen), i), |b.DiffIDs()|;
    if plain.Some? && Keys(img.history) == plain.value.keys {
      assert plain.value.diffIDs[m] != img.diffIDs[m];
    }
  }

  /** ib.Run: the filesystem changes that the instruction makes, or the configuration changes. */
  method RunInstruction(s: Settings, b: Builder, config: Config, seen: set<string>, i: Instruction)
    returns (ok: bool, config': Config, diff: Option<Digest>)
    ensures ok == PlainStep(s.engine, OutcomeOf(b, config, seen), i).Some?
    ensures ok && i.RequiresLayer() ==>
      && config' == config && diff.Some?
      && diff == s.engine.execute(b.DiffIDs(), Keys(b.History()), CreatedBy(s.engine, config, seen, i, i.summary))
    ensures ok && !i.RequiresLayer() ==> diff.None? && s.engine.configure(config, i) == Some(config')
  {
    config', diff := config, None;
    if i.RequiresLayer() {
      diff := s.engine.execute(b.DiffIDs(), Keys(b.History()), CreatedBy(s.engine, config, seen, i, i.summary));
      ok := diff.Some?;
    } else {
      var c := s.engine.configure(config, i);
      ok := c.Some?;
      if ok {
        config' := c.value;
      }
    }
  }

  /** What the last entry says. */
  function LastSays(img: Image): string
    requires img.history != []
  {
    img.history[|img.history| - 1].createdBy
  }

  /** The image is recent enough, can be read, and is of the kind that is being built. */
  predicate IsUsable(s: Settings, img: Image) {
    && (s.cacheTTL != 0 ==> img.created >= s.now - s.cacheTTL)
    && img.readable && img.manifestType == s.outputFormat
  }

  lemma HitSays(s: Settings, store: Store, b: Builder, img: Image, createdBy: string, addsLayer: bool)
    requires Candidate(s, store, b, img, addsLayer) && Extends(b.History(), b.DiffIDs(), img, createdBy, addsLayer)
    ensures IsUsable(s, img) && img.history != [] && LastSays(img) == createdBy
  {
  }

  /**
   One turn of Execute's loop in a layered build. Without a hit the image is that of the
   plain step, and a hit is if and only if it is sound. The instruction runs once, except
   that a RUN with a hit does not run at all.
   */
  method ExecuteStep(s: Settings, store: Store, b: Builder, config: Config, seen: set<string>, i: Instruction,
                     checkForLayers: bool, comment: string, author: string)
      returns (r: StepResult)
    ensures r == StepOf(s, store, b, Scope(config, seen), i, checkForLayers, comment, author)
    ensures r.StepFailed? ==> PlainStep(s.engine, OutcomeOf(b, config, seen), i).None?
    ensures r.Stepped? && !r.hit ==> AgreesWith(r, PlainStep(s.engine, OutcomeOf(b, config, seen), i))
    ensures r.Stepped? && r.hit ==>
      && (Sound(s.engine, r.image) ==> AgreesWith(r, PlainStep(s.engine, OutcomeOf(b, config, seen), i)))
      && (!Sound(s.engine, r.image) ==> IsApart(r, PlainStep(s.engine, OutcomeOf(b, config, seen), i)))
    ensures r.Stepped? ==> Grows(b, r.image) && r.runs == if r.hit && i.command.Run? then 0 else 1
    ensures r.Stepped? && r.hit ==>
      checkForLayers && r.store == store && r.image in store.images && IsUsable(s, r.image)
    ensures r.Stepped? ==> r.image.history != [] && LastSays(r.image) == Says(s.engine, r.config, r.seen, i)
    ensures r.Stepped? ==> NextScope(s.engine, Scope(config, seen), i) == Some(Scope(r.config, r.seen))
    ensures r.Stepped? && SoundStore(s.engine, store) && Consistent(b) ==>
      SoundStore(s.engine, r.store) && Consistent(Builder(Some(r.image)))
    ensures !checkForLayers ==> !r.StoreFailed?
  {
    hide Sound;
    hide Extends;
    hide Candidate;
    hide Grows;
    hide Apart;
    hide Keys;
    hide Consistent;
    hide SearchFor;
    hide CanNotSearch;
    var e, addsLayer := s.engine, i.RequiresLayer();
    var config', seen', summary, runs := config, seen, "", 0;
    var diff: Option<Digest>, ok, search := None, true, Miss;
    var canMatchCacheOnlyAfterRun := false;
    if checkForLayers && !i.command.Arg? {
      canMatchCacheOnlyAfterRun := i.command.AddOrCopy?;
      if canMatchCacheOnlyAfterRun {
        ok, config', diff := RunInstruction(s, b, config, seen, i);
        if !ok {
          return StepFailed;
        }
        runs, summary := runs + 1, i.summary;
      }
      search := IntermediateImageExists(s, store, b, CreatedBy(e, config', seen, i, summary), addsLayer);
      if search.StoreError? {
        return StoreFailed;
      }
    }
    if search.Miss? && !canMatchCacheOnlyAfterRun {
      ok, config', diff := RunInstruction(s, b, config, seen, i);
      if !ok {
        return StepFailed;
      }
      runs, summary := runs + 1, i.summary;
      seen' := Seen(seen, i);
      if checkForLayers {
        search := IntermediateImageExists(s, store, b, CreatedBy(e, config', seen', i, summary), addsLayer);
        if search.StoreError? {
          return StoreFailed;
        }
      }
    } else if !addsLayer {
      ok, config', diff := RunInstruction(s, b, config, seen, i);
      if !ok {
        return StepFailed;
      }
      runs := runs + 1;
    }
    assert addsLayer ==> config' == config && seen' == seen;
    assert addsLayer ==> CreatedBy(e, config', seen', i, summary) == CreatedBy(e, config, seen, i, i.summary);
    assert !addsLayer ==> e.configure(config, i) == Some(config') && seen' == Seen(seen, i);
    if search.Hit? {
      HitStepped(e, b, config, seen, i, search.image, config', seen', CreatedBy(e, config', seen', i, summary));
      HitSays(s, store, b, search.image, CreatedBy(e, config', seen', i, summary), addsLayer);
      if Sound(e, search.image) {
        SoundIsConsistent(e, search.image);
      }
      r := Stepped(search.image, true, runs, config', seen', store);
    } else {
      var img, store' := Commit(s, store, b, CreatedBy(e, config', seen', i, summary), diff, comment, author);
      if Sound(e, img) {
        SoundIsConsistent(e, img);
      }
      r := Stepped(img, false, runs, config', seen', store');
    }
  }

  datatype BuildResult = Built(builder: Builder, images: seq<Image>, hits: seq<bool>, runs: seq<nat>, store: Store)
                       | BuildFailed | StoreUnusable

  /** What a build has come to: it goes on, or it has ended before its end. */
  datatype Progress = Going(builder: Builder, scope: Scope, store: Store, check: bool, images: seq<Image>,
                            hits: seq<bool>, runs: seq<nat>)
                    | Halted(result: BuildResult)

  /** What is fixed when a build starts. */
  datatype Start = Start(settings: Settings, store: Store, base: Builder, config: Config, steps: seq<Instruction>,
                         useCache: bool, comment: string, author: string)

  ghost function NextProgress(b: Start, p: Progress, i: Instruction): Progress {
    match p
    case Halted(_) => p
    case Going(builder, scope, store, check, images, hits, runs) =>
      match StepOf(b.settings, store, builder, scope, i, check, b.comment, b.author)
      case StepFailed => Halted(BuildFailed)
      case StoreFailed => Halted(StoreUnusable)
      case Stepped(img, hit, run, config, seen, store') =>
        Going(Builder(Some(img)), Scope(config, seen), store', check && hit, images + [img], hits + [hit], runs + [run])
  }

  /** The first n instructions. The cache is not looked at any more after a miss. */
  ghost function ProgressAfter(b: Start, n: nat): Progress
    requires n <= |b.steps|
  {
    if n == 0 then Going(b.base, Scope(b.config, {}), b.store, b.useCache, [], [], [])
    else NextProgress(b, ProgressAfter(b, n - 1), b.steps[n - 1])
  }

  ghost function BuildOf(b: Start): BuildResult {
    match ProgressAfter(b, |b.steps|)
    case Halted(r) => r
    case Going(builder, _, store, _, images, hits, runs) => Built(builder, images, hits, runs, store)
  }

  lemma {:induction false} HaltedStays(b: Start, n: nat, m: nat)
    requires n <= m <= |b.steps| && ProgressAfter(b, n).Halted?
    ensures ProgressAfter(b, m) == ProgressAfter(b, n)
    decreases m
  {
    hide StepOf;
    if n < m {
      HaltedStays(b, n, m - 1);
    }
  }

  lemma HaltsWith(b: Start, n: nat)
    requires n <= |b.steps| && ProgressAfter(b, n).Halted?
    ensures BuildOf(b) == ProgressAfter(b, n).result
  {
    HaltedStays(b, n, |b.steps|);
    hide ProgressAfter;
  }

  lemma NextProgressIs(b: Start, n: nat)
    requires n < |b.steps|
    ensures ProgressAfter(b, n + 1) == NextProgress(b, ProgressAfter(b, n), b.steps[n])
  {
    hide NextProgress;
  }

  /** What the entries of the images say: what they are to say after so many instructions. */
  ghost predicate EntriesFit(e: Engine, c: Scope, steps: seq<Instruction>, images: seq<Image>) {
    && |images| <= |steps|
    && forall k :: 0 <= k < |images| ==> EntryFits(e, ScopeAfter(e, c, steps, k + 1), steps[k], images[k])
  }

  ghost predicate EntryFits(e: Engine, after: Option<Scope>, i: Instruction, img: Image) {
    after.Some? && img.history != [] && LastSays(img) == Says(e, after.value.config, after.value.seen, i)
  }

  lemma EntriesAppend(e: Engine, c: Scope, steps: seq<Instruction>, images: seq<Image>, img: Image)
    requires EntriesFit(e, c, steps, images) && |images| < |steps|
    requires EntryFits(e, ScopeAfter(e, c, steps, |images| + 1), steps[|images|], img)
    ensures EntriesFit(e, c, steps, images + [img])
  {
    hide ScopeAfter;
    hide EntryFits;
  }

  lemma NextScopeIs(e: Engine, c: Scope, steps: seq<Instruction>, n: nat, here: Scope, next: Scope)
    requires n < |steps| && ScopeAfter(e, c, steps, n) == Some(here) && NextScope(e, here, steps[n]) == Some(next)
    ensures ScopeAfter(e, c, steps, n + 1) == Some(next)
  {
    hide NextScope;
  }

  /** The image was committed for that instruction, in that configuration. */
  predicate IsCommitOf(e: Engine, img: Image, c: Scope, i: Instruction) {
    img.history != [] && LastSays(img) == Says(e, c.config, c.seen, i)
  }

  /** The same instruction as far as its result may depend on it. */
  ghost predicate SameInstruction(e: Engine, c: Scope, i: Instruction, c': Scope, i': Instruction) {
    && i.command == i'.command
    && (i.command.AddOrCopy? ==>
      i.keyword == i'.keyword && i.summary == i'.summary && i.destination == i'.destination)
    && (i.command.Run? ==>
      i.text == i'.text && forall k :: ArgValue(e, c.config, c.seen, k) == ArgValue(e, c'.config, c'.seen, k))
  }

  /** The two instructions are told apart by what is said of them, if they are different. */
  predicate AreToldApart(e: Engine, c: Scope, i: Instruction, c': Scope, i': Instruction) {
    Distinguishes(e, DescriptionOf(e, c.config, c.seen, i), DescriptionOf(e, c'.config, c'.seen, i'))
  }

  /** No image of the build was committed for another instruction than the build's own, if these are told apart. */
  ghost predicate TakesItsOwn(e: Engine, c: Scope, steps: seq<Instruction>, images: seq<Image>) {
    forall k, c', i' :: 0 <= k < |images| <= |steps| && IsCommitOf(e, images[k], c', i') ==>
      var after := ScopeAfter(e, c, steps, k + 1);
      && after.Some?
      && (AreToldApart(e, after.value, steps[k], c', i') ==> SameInstruction(e, after.value, steps[k], c', i'))
  }

  lemma SaidAlikeIsSame(e: Engine, c: Scope, i: Instruction, c': Scope, i': Instruction)
    requires AreToldApart(e, c, i, c', i') && Says(e, c.config, c.seen, i) == Says(e, c'.config, c'.seen, i')
    ensures SameInstruction(e, c, i, c', i')
  {
    if i.command != i'.command {
      KindsToldApart(e, c.config, c.seen, i, c'.config, c'.seen, i');
    } else if i.command.AddOrCopy? {
      ContentToldApart(e, c.config, c.seen, i, c'.config, c'.seen, i');
    } else if i.command.Run? {
      RunToldApart(e, c.config, c.seen, i, c'.config, c'.seen, i');
    }
    hide Says;
    hide ArgValue;
  }

  lemma EntriesAreOwn(e: Engine, c: Scope, steps: seq<Instruction>, images: seq<Image>)
    requires EntriesFit(e, c, steps, images)
    ensures TakesItsOwn(e, c, steps, images)
  {
    hide Says;
    hide AreToldApart;
    hide SameInstruction;
    hide ScopeAfter;
    forall k, c', i' | 0 <= k < |images| <= |steps| && IsCommitOf(e, images[k], c', i')
      ensures ScopeAfter(e, c, steps, k + 1).Some?
      ensures var after := ScopeAfter(e, c, steps, k + 1).value;
        AreToldApart(e, after, steps[k], c', i') ==> SameInstruction(e, after, steps[k], c', i')
    {
      assert EntryFits(e, ScopeAfter(e, c, steps, k + 1), steps[k], images[k]);
      if AreToldApart(e, ScopeAfter(e, c, steps, k + 1).value, steps[k], c', i') {
        SaidAlikeIsSame(e, ScopeAfter(e, c, steps, k + 1).value, steps[k], c', i');
      }
    }
  }

  /** The same history and the same layers as in the plain build. */
  predicate EndsLike(b: Builder, plain: Option<Outcome>) {
    plain.Some? && plain.value.keys == Keys(b.History()) && plain.value.diffIDs == b.DiffIDs()
  }

  /** Hits come first, and each instruction ran once unless it was a RUN with a hit. */
  ghost predicate HitsComeFirst(steps: seq<Instruction>, hits: seq<bool>, runs: seq<nat>) {
    && |hits| == |runs| <= |steps|
    && (forall a, b :: 0 <= a < b < |hits| && hits[b] ==> hits[a])
    && (forall a :: 0 <= a < |hits| ==> runs[a] == if hits[a] && steps[a].command.Run? then 0 else 1)
  }

  lemma HitsStart(steps: seq<Instruction>)
    ensures HitsComeFirst(steps, [], [])
  {
  }

  lemma HitsAppend(steps: seq<Instruction>, hits: seq<bool>, runs: seq<nat>, hit: bool, run: nat)
    requires HitsComeFirst(steps, hits, runs) && |hits| < |steps| && (hit ==> false !in hits)
    requires run == if hit && steps[|hits|].command.Run? then 0 else 1
    ensures HitsComeFirst(steps, hits + [hit], runs + [run])
  {
  }

  /** Every image that was taken instead of running the instruction is sound. */
  ghost predicate SoundHits(e: Engine, images: seq<Image>, hits: seq<bool>) {
    |images| == |hits| && forall k :: 0 <= k < |hits| && hits[k] ==> Sound(e, images[k])
  }

  lemma SoundHitsAppend(e: Engine, images: seq<Image>, hits: seq<bool>, img: Image, hit: bool)
    requires |images| == |hits|
    ensures SoundHits(e, images + [img], hits + [hit]) <==> SoundHits(e, images, hits) && (hit ==> Sound(e, img))
  {
    if SoundHits(e, images + [img], hits + [hit]) {
      forall k | 0 <= k < |hits| && hits[k]
        ensures Sound(e, images[k])
      {
        assert (images + [img])[k] == images[k] && (hits + [hit])[k];
      }
      assert (images + [img])[|images|] == img && (hits + [hit])[|hits|] == hit;
    }
  }

  /** What plain steps do. */
  lemma PlainGrows(e: Engine, o: Outcome, i: Instruction)
    requires PlainStep(e, o, i).Some?
    ensures var o' := PlainStep(e, o, i).value;
      |o'.keys| == |o.keys| + 1 && o.keys <= o'.keys && o.diffIDs <= o'.diffIDs
  {
  }

  /** Once apart, always apart. */
  lemma StaysApart(e: Engine, b: Builder, o: Outcome, i: Instruction, img: Image)
    requires Apart(b, o) && Grows(b, img) && PlainStep(e, o, i).Some?
    ensures Apart(Builder(Some(img)), PlainStep(e, o, i).value)
  {
    PlainGrows(e, o, i);
    hide PlainStep;
    var o', b' := PlainStep(e, o, i).value, Builder(Some(img));
    if o.keys == Keys(b.History()) {
      var p :| 0 <= p < |b.DiffIDs()| && p < |o.diffIDs| && b.DiffIDs()[p] != o.diffIDs[p];
      assert b'.DiffIDs()[p] == b.DiffIDs()[p] && o'.diffIDs[p] == o.diffIDs[p];
    } else {
      assert Keys(img.history)[..|o.keys|] == Keys(b.History()) && o'.keys[..|o.keys|] == o.keys;
    }
  }

  /** Where the build is, compared with the plain build of as many steps. */
  ghost predicate Follows(sound: bool, plain: Option<Outcome>, b: Builder, c: Config, seen: set<string>) {
    if sound then plain == Some(OutcomeOf(b, c, seen)) else plain.None? || Apart(b, plain.value)
  }

  lemma FollowsOn(e: Engine, sound: bool, o: Outcome, steps: seq<Instruction>, n: nat, b: Builder, c: Config,
                  seen: set<string>, r: StepResult)
    requires n < |steps| && Follows(sound, Plain(e, o, steps, n), b, c, seen) && r.Stepped? && Grows(b, r.image)
    requires var plain := PlainStep(e, OutcomeOf(b, c, seen), steps[n]);
      if r.hit && !Sound(e, r.image) then IsApart(r, plain) else AgreesWith(r, plain)
    ensures Follows(sound && (r.hit ==> Sound(e, r.image)), Plain(e, o, steps, n + 1),
                    Builder(Some(r.image)), r.config, r.seen)
  {
    hide PlainStep;
    hide Sound;
    hide Apart;
    hide Grows;
    if !sound {
      var before := Plain(e, o, steps, n);
      if before.Some? && Plain(e, o, steps, n + 1).Some? {
        StaysApart(e, b, before.value, steps[n], r.image);
      }
    }
  }

  lemma ApartEndsUnlike(b: Builder, plain: Outcome)
    requires Apart(b, plain)
    ensures !EndsLike(b, Some(plain))
  {
  }

  /** What is known of the images that were taken. */
  ghost predicate TakenFrom(s: Settings, store: Store, images: seq<Image>, hits: seq<bool>) {
    |images| == |hits| && forall k :: 0 <= k < |hits| && hits[k] ==> images[k] in store.images && IsUsable(s, images[k])
  }

  lemma TakenSound(s: Settings, store: Store, images: seq<Image>, hits: seq<bool>)
    requires TakenFrom(s, store, images, hits) && SoundStore(s.engine, store)
    ensures SoundHits(s.engine, images, hits)
  {
    hide Sound;
  }

  /**
   Execute, for a layered build without squashing. Whether it uses a cache or not, and
   whatever store it finds, it ends as the plain build does if and only if every image that
   it took is sound: the same layers, the same described history. With a sound store that is
   so, it fails when the plain build fails, and it leaves a sound store behind.
   */
  method Execute(s: Settings, store: Store, base: Builder, config: Config, steps: seq<Instruction>, useCache: bool,
                 comment: string, author: string)
      returns (r: BuildResult)
    ensures r == BuildOf(Start(s, store, base, config, steps, useCache, comment, author))
    ensures r.Built? ==> |r.hits| == |steps| && HitsComeFirst(steps, r.hits, r.runs) && (!useCache ==> true !in r.hits)
    ensures r.Built? ==> TakenFrom(s, store, r.images, r.hits) && base.History() <= r.builder.History()
    ensures r.Built? ==> EntriesFit(s.engine, Scope(config, {}), steps, r.images)
    ensures r.Built? ==> TakesItsOwn(s.engine, Scope(config, {}), steps, r.images)
    ensures r.Built? ==>
      (EndsLike(r.builder, Plain(s.engine, OutcomeOf(base, config, {}), steps, |steps|)) <==>
       SoundHits(s.engine, r.images, r.hits))
    ensures r.Built? && SoundStore(s.engine, store) ==> SoundHits(s.engine, r.images, r.hits)
    ensures r.BuildFailed? && SoundStore(s.engine, store) ==>
      Plain(s.engine, OutcomeOf(base, config, {}), steps, |steps|).None?
    ensures r.StoreUnusable? ==> useCache
    ensures r.Built? && SoundStore(s.engine, store) && Consistent(base) ==> SoundStore(s.engine, r.store)
  {
    hide *;
    HitsStart(steps);
    var checkForLayers := useCache;
    var b, c, seen, st := base, config, {}, store;
    var images, hits, runs := [], [], [];
    ghost var start := OutcomeOf(base, config, {});
    ghost var build := Start(s, store, base, config, steps, useCache, comment, author);
    ghost var scope := Scope(config, {});
    Nothing(s, store, base, config, steps);
    NothingYet(build);
    for i := 0 to |steps|
      invariant Follows(SoundHits(s.engine, images, hits), Plain(s.engine, start, steps, i), b, c, seen)
      invariant ProgressAfter(build, i) == Going(b, Scope(c, seen), st, checkForLayers, images, hits, runs)
      invariant ScopeAfter(s.engine, scope, steps, i) == Some(Scope(c, seen)) && base.History() <= b.History()
      invariant EntriesFit(s.engine, scope, steps, images)
      invariant |images| == |hits| == i && HitsComeFirst(steps, hits, runs) && TakenFrom(s, store, images, hits)
      invariant checkForLayers ==> useCache && st == store && false !in hits
      invariant !useCache ==> true !in hits
      invariant SoundStore(s.engine, store) && Consistent(base) ==> SoundStore(s.engine, st) && Consistent(b)
    {
      var step := ExecuteStep(s, st, b, c, seen, steps[i], checkForLayers, comment, author);
      NextProgressIs(build, i);
      GoingOn(build, ProgressAfter(build, i), steps[i], step);
      if step.StepFailed? {
        Failed(s, store, images, hits, start, steps, i, b, c, seen);
        HaltsWith(build, i + 1);
        return BuildFailed;
      }
      if step.StoreFailed? {
        HaltsWith(build, i + 1);
        return StoreUnusable;
      }
      NextScopeIs(s.engine, scope, steps, i, Scope(c, seen), Scope(step.config, step.seen));
      OneMoreEntry(s.engine, scope, steps, images, step.image, Scope(step.config, step.seen));
      StillExtends(base, b, step.image);
      FollowsOn(s.engine, SoundHits(s.engine, images, hits), start, steps, i, b, c, seen, step);
      SoundHitsAppend(s.engine, images, hits, step.image, step.hit);
      TakenOneMore(s, store, images, hits, step.image, step.hit);
      HitsAppend(steps, hits, runs, step.hit, step.runs);
      if !step.hit {
        checkForLayers := false;
      }
      images, hits, runs := images + [step.image], hits + [step.hit], runs + [step.runs];
      b, c, seen, st := Builder(Some(step.image)), step.config, step.seen, step.store;
    }
    Ends(s, store, images, hits, start, steps, b, c, seen);
    EntriesAreOwn(s.engine, scope, steps, images);
    BuildIs(build);
    r := Built(b, images, hits, runs, st);
  }

  lemma BuildIs(b: Start)
    requires ProgressAfter(b, |b.steps|).Going?
    ensures var p := ProgressAfter(b, |b.steps|); BuildOf(b) == Built(p.builder, p.images, p.hits, p.runs, p.store)
  {
    hide ProgressAfter;
  }

  lemma NothingYet(b: Start)
    ensures ProgressAfter(b, 0) == Going(b.base, Scope(b.config, {}), b.store, b.useCache, [], [], [])
    ensures var c := Scope(b.config, {});
      ScopeAfter(b.settings.engine, c, b.steps, 0) == Some(c) && EntriesFit(b.settings.engine, c, b.steps, [])
  {
  }

  lemma GoingOn(b: Start, p: Progress, i: Instruction, r: StepResult)
    requires p.Going? && r == StepOf(b.settings, p.store, p.builder, p.scope, i, p.check, b.comment, b.author)
    ensures r.StepFailed? ==> NextProgress(b, p, i) == Halted(BuildFailed)
    ensures r.StoreFailed? ==> NextProgress(b, p, i) == Halted(StoreUnusable)
    ensures r.Stepped? ==> NextProgress(b, p, i) == Going(Builder(Some(r.image)), Scope(r.config, r.seen), r.store,
      p.check && r.hit, p.images + [r.image], p.hits + [r.hit], p.runs + [r.runs])
  {
    hide StepOf;
  }

  lemma OneMoreEntry(e: Engine, c: Scope, steps: seq<Instruction>, images: seq<Image>, img: Image, next: Scope)
    requires EntriesFit(e, c, steps, images) && |images| < |steps| && img.history != []
    requires ScopeAfter(e, c, steps, |images| + 1) == Some(next)
    requires LastSays(img) == Says(e, next.config, next.seen, steps[|images|])
    ensures EntriesFit(e, c, steps, images + [img])
  {
    hide EntriesFit;
    hide Says;
    hide ScopeAfter;
    EntriesAppend(e, c, steps, images, img);
  }

  lemma StillExtends(base: Builder, b: Builder, img: Image)
    requires base.History() <= b.History() && Grows(b, img)
    ensures base.History() <= Builder(Some(img)).History()
  {
    hide Keys;
  }

  lemma Nothing(s: Settings, store: Store, base: Builder, config: Config, steps: seq<Instruction>)
    ensures TakenFrom(s, store, [], []) && SoundHits(s.engine, [], [])
    ensures Follows(true, Plain(s.engine, OutcomeOf(base, config, {}), steps, 0), base, config, {})
  {
  }

  lemma TakenOneMore(s: Settings, store: Store, images: seq<Image>, hits: seq<bool>, img: Image, hit: bool)
    requires TakenFrom(s, store, images, hits) && (hit ==> img in store.images && IsUsable(s, img))
    ensures TakenFrom(s, store, images + [img], hits + [hit])
  {
    hide IsUsable;
  }

  lemma Failed(s: Settings, store: Store, images: seq<Image>, hits: seq<bool>, o: Outcome, steps: seq<Instruction>,
               n: nat, b: Builder, c: Config, seen: set<string>)
    requires n < |steps| && TakenFrom(s, store, images, hits)
    requires PlainStep(s.engine, OutcomeOf(b, c, seen), steps[n]).None?
    requires Follows(SoundHits(s.engine, images, hits), Plain(s.engine, o, steps, n), b, c, seen)
    ensures SoundStore(s.engine, store) ==> Plain(s.engine, o, steps, |steps|).None?
  {
    if SoundStore(s.engine, store) {
      TakenSound(s, store, images, hits);
      FailureStays(s.engine, o, steps, n + 1, |steps|);
    }
  }

  lemma Ends(s: Settings, store: Store, images: seq<Image>, hits: seq<bool>, o: Outcome, steps: seq<Instruction>,
             b: Builder, c: Config, seen: set<string>)
    requires TakenFrom(s, store, images, hits)
    requires Follows(SoundHits(s.engine, images, hits), Plain(s.engine, o, steps, |steps|), b, c, seen)
    ensures EndsLike(b, Plain(s.engine, o, steps, |steps|)) <==> SoundHits(s.engine, images, hits)
    ensures SoundStore(s.engine, store) ==> SoundHits(s.engine, images, hits)
  {
    var plain := Plain(s.engine, o, steps, |steps|);
    if !SoundHits(s.engine, images, hits) && plain.Some? {
      ApartEndsUnlike(b, plain.value);
    }
    if SoundStore(s.engine, store) {
      TakenSound(s, store, images, hits);
    }
  }

  /**
   An image from elsewhere says in its only entry that it was made by the instruction, but
   has another layer than executing that from scratch gives. The search has to take it, and
   then the build differs from the plain one.
   */
  lemma UnsoundImageIsTaken(s: Settings, config: Config, i: Instruction, layer: Digest, id: nat)
    requires i.RequiresLayer() && s.cacheTTL >= 0
    requires s.engine.execute([], [], CreatedBy(s.engine, config, {}, i, i.summary)) == Some(layer)
    ensures var createdBy, b := CreatedBy(s.engine, config, {}, i, i.summary), Builder(None);
            var entry := Entry(createdBy, "", "", false, None);
            var img := Image(id, Some(0), s.now, s.outputFormat, true, [entry], [layer + 1]);
            && Candidate(s, Store([img], [None]), b, img, true)
            && Extends(b.History(), b.DiffIDs(), img, createdBy, true) && !Sound(s.engine, img)
            && !EndsLike(Builder(Some(img)), Plain(s.engine, OutcomeOf(b, config, {}), [i], 1))
  {
    var createdBy, b := CreatedBy(s.engine, config, {}, i, i.summary), Builder(None);
    var entry := Entry(createdBy, "", "", false, None);
    var img := Image(id, Some(0), s.now, s.outputFormat, true, [entry], [layer + 1]);
    hide CreatedBy;
    assert [entry][..0] == [] && [layer + 1][..0] == [];
    assert Extends(b.History(), b.DiffIDs(), img, createdBy, true);
    assert Plain(s.engine, OutcomeOf(b, config, {}), [i], 0) == Some(OutcomeOf(b, config, {}));
  }
}
