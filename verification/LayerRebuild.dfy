/**
 Building again: a layered build of the same instructions on the store that an earlier one
 has left behind takes every image from there, and comes to the same image without changing
 the store.
 */
module LayerRebuild {
  import opened Optional
  import opened LayerCache

  // ------------------------------------------------------------------------- what the store is like

  /** No entry of the image's history was made at that time. */
  ghost predicate IsOlder(img: Image, now: int) {
    forall j :: 0 <= j < |img.history| ==> img.history[j].created != Some(now)
  }

  predicate HasItsTop(store: Store, b: Builder) {
    b.TopLayer().Some? ==> b.TopLayer().value < |store.layers|
  }

  /** Layers are there, histories account for them, and all of it is from before. */
  ghost predicate StoreFits(store: Store, now: int) {
    forall img :: img in store.images ==>
      HasItsLayer(store, img) && Consistent(Builder(Some(img))) && IsOlder(img, now)
  }

  ghost predicate BuilderFits(store: Store, b: Builder) {
    (b.from.Some? ==> b.from.value.readable) && HasItsTop(store, b) && Consistent(b)
  }

  /** An entry of its history was made at that time. */
  ghost predicate IsRenewed(b: Builder, now: int) {
    exists j :: 0 <= j < |b.History()| && b.History()[j].created == Some(now)
  }

  ghost predicate StartFits(b: Start) {
    StoreFits(b.store, b.settings.now) && BuilderFits(b.store, b.base) && b.useCache
  }

  /** What holds as the build goes on: before the first miss, and after it. */
  ghost predicate Fine(b: Start, p: Progress) {
    && p.Going? && BuilderFits(p.store, p.builder)
    && b.store.images <= p.store.images && b.store.layers <= p.store.layers
    && (forall img :: img in p.store.images ==> HasItsLayer(p.store, img))
    && (p.check ==> p.store == b.store)
    && (!p.check ==>
      && IsRenewed(p.builder, b.settings.now)
      && forall img :: img in p.store.images ==>
        IsOlder(img, b.settings.now) || |img.history| <= |p.builder.History()|)
  }

  // ------------------------------------------------------------------------------ one step of the first build

  /** What a step comes to, if it comes to anything. */
  ghost predicate IsHitOf(b: Start, p: Progress, i: Instruction, c: Scope, img: Image)
    requires p.Going?
  {
    p.check && SearchFor(b.settings, p.store, p.builder, Says(b.settings.engine, c.config, c.seen, i),
                         i.RequiresLayer()) == Hit(img)
  }

  function DiffOf(e: Engine, b: Builder, c: Scope, i: Instruction): Option<Digest> {
    if i.RequiresLayer() then e.execute(b.DiffIDs(), Keys(b.History()), Says(e, c.config, c.seen, i)) else None
  }

  /** The instruction can be carried out. */
  predicate Works(e: Engine, b: Builder, c: Scope, i: Instruction) {
    i.RequiresLayer() ==> DiffOf(e, b, c, i).Some?
  }

  function CommitOf(b: Start, p: Progress, i: Instruction, c: Scope): Image
    requires p.Going?
  {
    var e := b.settings.engine;
    Committed(b.settings, p.store, p.builder,
              Entry(Says(e, c.config, c.seen, i), b.comment, b.author, !i.RequiresLayer(), Some(b.settings.now)),
              DiffOf(e, p.builder, c, i))
  }

  /** A step that succeeds is a hit, or a commit after a search that found nothing. */
  lemma StepIs(b: Start, p: Progress, i: Instruction)
    requires p.Going? && NextProgress(b, p, i).Going?
    ensures var next, e := NextProgress(b, p, i), b.settings.engine;
      && NextScope(e, p.scope, i) == Some(next.scope)
      && next.builder.from.Some? && next.images == p.images + [next.builder.from.value]
      && (next.check ==>
        && IsHitOf(b, p, i, next.scope, next.builder.from.value) && next.store == p.store
        && (i.command.Run? || Works(e, p.builder, next.scope, i)))
      && (!next.check ==>
        && next.builder.from.value == CommitOf(b, p, i, next.scope)
        && next.store ==
          CommittedStore(p.store, p.builder, next.builder.from.value, DiffOf(e, p.builder, next.scope, i))
        && Works(e, p.builder, next.scope, i)
        && (p.check ==> SearchFor(b.settings, p.store, p.builder, Says(e, next.scope.config, next.scope.seen, i),
                                  i.RequiresLayer()).Miss?))
  {
    hide SearchFor;
    hide Says;
    hide Committed;
    hide CommittedStore;
  }

  /** And the other way round: with such a hit, a step succeeds. */
  lemma HitSucceeds(b: Start, p: Progress, i: Instruction, c: Scope, img: Image)
    requires p.Going? && NextScope(b.settings.engine, p.scope, i) == Some(c) && IsHitOf(b, p, i, c, img)
    requires i.command.Run? || Works(b.settings.engine, p.builder, c, i)
    ensures NextProgress(b, p, i) == Going(Builder(Some(img)), c, p.store, true, p.images + [img], p.hits + [true],
                                           p.runs + [if i.command.Run? then 0 else 1])
  {
    hide SearchFor;
    hide Says;
  }

  lemma CommitCounts(b: Builder, entry: Entry, diff: Option<Digest>)
    requires Consistent(b) && entry.emptyLayer == diff.None?
    ensures NonEmpty(b.History() + [entry]) == |if diff.Some? then b.DiffIDs() + [diff.value] else b.DiffIDs()|
  {
    NonEmptyAppend(b.History(), entry);
    hide NonEmpty;
  }

  lemma HitFits(b: Start, p: Progress, i: Instruction, c: Scope, img: Image)
    requires StartFits(b) && Fine(b, p) && IsHitOf(b, p, i, c, img)
    ensures BuilderFits(p.store, Builder(Some(img)))
  {
    SearchExactlyWhen(b.settings, p.store, p.builder, Says(b.settings.engine, c.config, c.seen, i), i.RequiresLayer());
    hide SearchFor;
    hide Says;
    hide NonEmpty;
    hide Extends;
  }

  lemma CommitFits(b: Start, p: Progress, i: Instruction, c: Scope)
    requires Fine(b, p) && Works(b.settings.engine, p.builder, c, i)
    ensures var img, diff := CommitOf(b, p, i, c), DiffOf(b.settings.engine, p.builder, c, i);
      var store := CommittedStore(p.store, p.builder, img, diff);
      && BuilderFits(store, Builder(Some(img))) && HasItsLayer(store, img)
      && IsRenewed(Builder(Some(img)), b.settings.now) && |img.history| == |p.builder.History()| + 1
  {
    var e := b.settings.engine;
    var img, diff := CommitOf(b, p, i, c), DiffOf(e, p.builder, c, i);
    var entry := Entry(Says(e, c.config, c.seen, i), b.comment, b.author, !i.RequiresLayer(), Some(b.settings.now));
    CommitCounts(p.builder, entry, diff);
    assert img.history == p.builder.History() + [entry];
    assert Builder(Some(img)).History()[|p.builder.History()|].created == Some(b.settings.now);
    hide Says;
    hide NonEmpty;
    hide Keys;
  }

  lemma StepKeepsFine(b: Start, p: Progress, i: Instruction)
    requires StartFits(b) && Fine(b, p) && NextProgress(b, p, i).Going?
    ensures Fine(b, NextProgress(b, p, i))
  {
    StepIs(b, p, i);
    var next := NextProgress(b, p, i);
    hide NextProgress;
    var img := next.builder.from.value;
    if next.check {
      HitFits(b, p, i, next.scope, img);
      hide IsHitOf;
      hide BuilderFits;
    } else {
      CommitFits(b, p, i, next.scope);
      hide BuilderFits;
      hide CommitOf;
      hide DiffOf;
      hide Works;
      hide SearchFor;
      assert next.builder == Builder(Some(img));
      CommitKeepsImages(b, p, next, img);
    }
  }

  lemma CommitKeepsImages(b: Start, p: Progress, next: Progress, img: Image)
    requires StartFits(b) && Fine(b, p) && next.Going? && next.store.images == p.store.images + [img]
    requires p.store.layers <= next.store.layers && HasItsLayer(next.store, img)
    requires |img.history| == |p.builder.History()| + 1 && next.builder == Builder(Some(img))
    ensures b.store.images <= next.store.images && b.store.layers <= next.store.layers
    ensures forall x :: x in next.store.images ==> HasItsLayer(next.store, x)
    ensures forall x :: x in next.store.images ==>
      IsOlder(x, b.settings.now) || |x.history| <= |next.builder.History()|
  {
    hide BuilderFits;
    hide IsRenewed;
    hide Consistent;
    forall x | x in next.store.images
      ensures HasItsLayer(next.store, x)
      ensures IsOlder(x, b.settings.now) || |x.history| <= |next.builder.History()|
    {
      if x in p.store.images {
        assert HasItsLayer(p.store, x);
        if p.check {
          assert x in b.store.images && IsOlder(x, b.settings.now);
        }
      } else {
        assert x == img;
      }
    }
  }

  lemma {:induction false} BuildKeepsFine(b: Start, n: nat)
    requires StartFits(b) && n <= |b.steps| && ProgressAfter(b, n).Going?
    ensures Fine(b, ProgressAfter(b, n))
  {
    hide NextProgress;
    if n == 0 {
      hide Consistent;
    } else {
      NextProgressIs(b, n - 1);
      hide StartFits;
      hide Fine;
      if ProgressAfter(b, n - 1).Halted? {
        HaltedStays(b, n - 1, n);
      } else {
        BuildKeepsFine(b, n - 1);
        StepKeepsFine(b, ProgressAfter(b, n - 1), b.steps[n - 1]);
      }
    }
  }

  // ------------------------------------------------------------------------------------- the second build

  /** The same build at a later time, on the store that the first one has left behind. */
  ghost predicate IsAgain(b: Start, b': Start) {
    && ProgressAfter(b, |b.steps|).Going? && b'.store == ProgressAfter(b, |b.steps|).store
    && b'.settings == b.settings.(now := b'.settings.now) && b.settings.now <= b'.settings.now
    && b'.base == b.base && b'.config == b.config && b'.steps == b.steps && b'.useCache
  }

  /** All images of the first build are still recent enough. */
  ghost predicate AreStillFresh(b: Start, b': Start)
    requires ProgressAfter(b, |b.steps|).Going?
  {
    forall img :: img in ProgressAfter(b, |b.steps|).images ==> IsFresh(b'.settings, img)
  }

  lemma {:induction false} EarlierGoing(b: Start, n: nat, m: nat)
    requires n <= m <= |b.steps| && ProgressAfter(b, m).Going?
    ensures ProgressAfter(b, n).Going?
  {
    hide ProgressAfter;
    if ProgressAfter(b, n).Halted? {
      HaltedStays(b, n, m);
    }
  }

  /** The store grows, and the images of the build are listed one after the other. */
  lemma {:induction false} StoreGrows(b: Start, n: nat, m: nat)
    requires n <= m <= |b.steps| && ProgressAfter(b, m).Going?
    ensures ProgressAfter(b, n).Going?
    ensures var p, q := ProgressAfter(b, n), ProgressAfter(b, m);
      p.store.images <= q.store.images && p.store.layers <= q.store.layers && p.images <= q.images
    decreases m
  {
    hide *;
    EarlierGoing(b, n, m);
    if n < m {
      EarlierGoing(b, m - 1, m);
      StoreGrows(b, n, m - 1);
      NextProgressIs(b, m - 1);
      StepGrows(b, ProgressAfter(b, m - 1), b.steps[m - 1]);
    }
  }

  lemma StepGrows(b: Start, p: Progress, i: Instruction)
    requires p.Going? && NextProgress(b, p, i).Going?
    ensures var q := NextProgress(b, p, i);
      p.store.images <= q.store.images && p.store.layers <= q.store.layers && p.images <= q.images
  {
    StepIs(b, p, i);
    hide NextProgress;
    hide CommitOf;
    hide DiffOf;
    hide Works;
    hide IsHitOf;
  }

  /** What did not match before does not match later, in a store that has grown. */
  lemma MatchedBefore(s: Settings, s': Settings, store: Store, store': Store, b: Builder, createdBy: string, adds: bool,
                      img: Image)
    requires s' == s.(now := s'.now) && s.now <= s'.now && store.layers <= store'.layers && HasItsLayer(store, img)
    ensures HasItsLayer(store', img)
    ensures Matches(s', store', b, createdBy, adds, img) ==> Matches(s, store, b, createdBy, adds, img)
    ensures IsFresh(s', img) && Matches(s, store, b, createdBy, adds, img) ==>
      Matches(s', store', b, createdBy, adds, img)
  {
    hide Extends;
  }

  /** A search finds the first match, if all layers are there. */
  lemma {:induction false} FindsFirst(s: Settings, store: Store, b: Builder, createdBy: string, adds: bool, j: nat,
                                      k: nat)
    requires j <= k < |store.images| && Matches(s, store, b, createdBy, adds, store.images[k])
    requires forall i :: j <= i < k ==>
      HasItsLayer(store, store.images[i]) && !Matches(s, store, b, createdBy, adds, store.images[i])
    ensures SearchFrom(s, store, b, createdBy, adds, j) == Hit(store.images[k])
    decreases k - j
  {
    hide Matches;
    if j < k {
      FindsFirst(s, store, b, createdBy, adds, j + 1, k);
    }
  }

  /** Where a search has found its match, and that there was none before it. */
  lemma {:induction false} FoundFirst(s: Settings, store: Store, b: Builder, createdBy: string, adds: bool, j: nat)
      returns (k: nat)
    requires SearchFrom(s, store, b, createdBy, adds, j).Hit?
    ensures j <= k < |store.images| && SearchFrom(s, store, b, createdBy, adds, j) == Hit(store.images[k])
    ensures Matches(s, store, b, createdBy, adds, store.images[k])
    ensures forall i :: j <= i < k ==> !Matches(s, store, b, createdBy, adds, store.images[i])
    decreases |store.images| - j
  {
    hide Matches;
    if Matches(s, store, b, createdBy, adds, store.images[j]) {
      k := j;
    } else {
      k := FoundFirst(s, store, b, createdBy, adds, j + 1);
    }
  }

  /** A hit stays a hit. */
  lemma HitStays(s: Settings, s': Settings, store: Store, store': Store, b: Builder, createdBy: string, adds: bool,
                 img: Image)
    requires s' == s.(now := s'.now) && s.now <= s'.now && IsFresh(s', img)
    requires store.images <= store'.images && store.layers <= store'.layers
    requires forall x :: x in store.images ==> HasItsLayer(store, x)
    requires SearchFor(s, store, b, createdBy, adds) == Hit(img)
    ensures SearchFor(s', store', b, createdBy, adds) == Hit(img)
  {
    hide Matches;
    hide HasItsLayer;
    var k := FoundFirst(s, store, b, createdBy, adds, 0);
    forall i | 0 <= i <= k
      ensures HasItsLayer(store', store'.images[i])
      ensures i < k ==> !Matches(s', store', b, createdBy, adds, store'.images[i])
      ensures i == k ==> Matches(s', store', b, createdBy, adds, store'.images[i])
    {
      assert store'.images[i] == store.images[i] && store.images[i] in store.images;
      MatchedBefore(s, s', store, store', b, createdBy, adds, store.images[i]);
    }
    FindsFirst(s', store', b, createdBy, adds, 0, k);
  }

  /** What was committed is found, if nothing that was there before matches. */
  lemma CommitIsFound(s: Settings, s': Settings, store: Store, store': Store, b: Builder, createdBy: string, adds: bool,
                      img: Image)
    requires s' == s.(now := s'.now) && s.now <= s'.now && BuilderFits(store, b)
    requires store.images + [img] <= store'.images && store.layers <= store'.layers
    requires forall x :: x in store.images ==> HasItsLayer(store, x) && !Matches(s, store, b, createdBy, adds, x)
    requires Matches(s', store', b, createdBy, adds, img)
    ensures SearchFor(s', store', b, createdBy, adds) == Hit(img)
  {
    hide Matches;
    hide HasItsLayer;
    hide Consistent;
    var k := |store.images|;
    assert store'.images[k] == (store.images + [img])[k];
    forall i | 0 <= i < k
      ensures HasItsLayer(store', store'.images[i]) && !Matches(s', store', b, createdBy, adds, store'.images[i])
    {
      assert store'.images[i] == (store.images + [img])[i] == store.images[i] && store.images[i] in store.images;
      MatchedBefore(s, s', store, store', b, createdBy, adds, store.images[i]);
    }
    FindsFirst(s', store', b, createdBy, adds, 0, k);
  }

  lemma CommitMatches(b: Start, s': Settings, p: Progress, i: Instruction, c: Scope, store': Store)
    requires Fine(b, p) && Works(b.settings.engine, p.builder, c, i) && s' == b.settings.(now := s'.now)
    requires var img, diff := CommitOf(b, p, i, c), DiffOf(b.settings.engine, p.builder, c, i);
      IsFresh(s', img) && CommittedStore(p.store, p.builder, img, diff).layers <= store'.layers
    ensures Matches(s', store', p.builder, Says(b.settings.engine, c.config, c.seen, i), i.RequiresLayer(),
                    CommitOf(b, p, i, c))
  {
    var e, adds := b.settings.engine, i.RequiresLayer();
    var img, diff := CommitOf(b, p, i, c), DiffOf(e, p.builder, c, i);
    hide Says;
    hide Keys;
    hide NonEmpty;
    assert img.history[..|p.builder.History()|] == p.builder.History();
    assert img.diffIDs[..|p.builder.DiffIDs()|] == p.builder.DiffIDs();
    assert Extends(p.builder.History(), p.builder.DiffIDs(), img, Says(e, c.config, c.seen, i), adds);
    hide Extends;
    var layers := CommittedStore(p.store, p.builder, img, diff).layers;
    assert forall k :: 0 <= k < |layers| ==> store'.layers[k] == layers[k];
  }

  /** Nothing in the store extends what has been built since the first miss. */
  lemma NothingMatches(b: Start, p: Progress, createdBy: string, adds: bool, x: Image)
    requires Fine(b, p) && !p.check && x in p.store.images
    ensures !Matches(b.settings, p.store, p.builder, createdBy, adds, x)
  {
    hide Candidate;
    hide NonEmpty;
    hide BuilderFits;
    hide HasItsLayer;
  }

  lemma MissMeansNone(s: Settings, store: Store, b: Builder, createdBy: string, adds: bool, x: Image)
    requires SearchFor(s, store, b, createdBy, adds).Miss? && x in store.images
    ensures !Matches(s, store, b, createdBy, adds, x)
  {
    SearchFromIs(s, store, b, createdBy, adds, 0);
    hide SearchFrom;
    hide Matches;
    var k :| 0 <= k < |store.images| && store.images[k] == x;
    assert !EndsSearch(s, store, b, createdBy, adds, store.images[k]);
  }

  /** The n-th image of the first build is what the second build's search finds. */
  lemma FoundAgain(b: Start, b': Start, n: nat)
    requires StartFits(b) && IsAgain(b, b') && AreStillFresh(b, b') && n < |b.steps|
    requires ProgressAfter(b, n).Going? && ProgressAfter(b, n + 1).Going?
    ensures var p, next := ProgressAfter(b, n), ProgressAfter(b, n + 1);
      && next.builder.from.Some?
      && SearchFor(b'.settings, b'.store, p.builder,
                   Says(b.settings.engine, next.scope.config, next.scope.seen, b.steps[n]),
                   b.steps[n].RequiresLayer()) == Hit(next.builder.from.value)
  {
    hide *;
    AgainIs(b, b');
    BuildKeepsFine(b, n);
    NextProgressIs(b, n);
    StoreGrows(b, n, |b.steps|);
    StoreGrows(b, n + 1, |b.steps|);
    ImageIsFresh(b, b', n);
    StepFoundAgain(b, ProgressAfter(b, n), b.steps[n], b'.settings, b'.store);
  }

  lemma ImageIsFresh(b: Start, b': Start, n: nat)
    requires n < |b.steps| && ProgressAfter(b, |b.steps|).Going? && AreStillFresh(b, b')
    requires ProgressAfter(b, n).Going? && ProgressAfter(b, n + 1).Going?
    ensures ProgressAfter(b, n + 1).builder.from.Some?
    ensures IsFresh(b'.settings, ProgressAfter(b, n + 1).builder.from.value)
  {
    hide *;
    var p, img := ProgressAfter(b, n), ProgressAfter(b, n + 1).builder.from;
    NextProgressIs(b, n);
    ImageOfStep(b, p, b.steps[n]);
    StoreGrows(b, n + 1, |b.steps|);
    IsAmong(p.images, img.value, ProgressAfter(b, |b.steps|).images);
    AreFresh(b, b', img.value);
  }

  lemma ImageOfStep(b: Start, p: Progress, i: Instruction)
    requires p.Going? && NextProgress(b, p, i).Going?
    ensures var next := NextProgress(b, p, i);
      next.builder.from.Some? && next.images == p.images + [next.builder.from.value]
  {
    hide *;
    StepIs(b, p, i);
  }

  lemma IsAmong(images: seq<Image>, img: Image, all: seq<Image>)
    requires images + [img] <= all
    ensures img in all
  {
    assert all[|images|] == (images + [img])[|images|];
  }

  lemma AgainIs(b: Start, b': Start)
    requires IsAgain(b, b')
    ensures ProgressAfter(b, |b.steps|).Going? && b'.store == ProgressAfter(b, |b.steps|).store
    ensures b'.settings == b.settings.(now := b'.settings.now) && b.settings.now <= b'.settings.now
    ensures b'.base == b.base && b'.config == b.config && b'.steps == b.steps && b'.useCache
  {
    hide ProgressAfter;
  }

  lemma AreFresh(b: Start, b': Start, img: Image)
    requires ProgressAfter(b, |b.steps|).Going? && AreStillFresh(b, b') && img in ProgressAfter(b, |b.steps|).images
    ensures IsFresh(b'.settings, img)
  {
    hide ProgressAfter;
    hide IsFresh;
  }

  /** Whatever a step has come to is found in a store that has grown from what it has left behind. */
  lemma StepFoundAgain(b: Start, p: Progress, i: Instruction, s': Settings, store': Store)
    requires Fine(b, p) && NextProgress(b, p, i).Going? && NextProgress(b, p, i).builder.from.Some?
    requires s' == b.settings.(now := s'.now) && b.settings.now <= s'.now
    requires var next := NextProgress(b, p, i);
      && next.store.images <= store'.images && next.store.layers <= store'.layers
      && p.store.images <= store'.images && p.store.layers <= store'.layers
      && IsFresh(s', next.builder.from.value)
    ensures var next := NextProgress(b, p, i);
      SearchFor(s', store', p.builder, Says(b.settings.engine, next.scope.config, next.scope.seen, i),
                i.RequiresLayer()) == Hit(next.builder.from.value)
  {
    StepIs(b, p, i);
    var next, s := NextProgress(b, p, i), b.settings;
    var img := next.builder.from.value;
    var says, adds := Says(s.engine, next.scope.config, next.scope.seen, i), i.RequiresLayer();
    FineIs(b, p);
    hide NextProgress;
    if next.check {
      hide Says;
      hide SearchFor;
      hide IsFresh;
      hide HasItsLayer;
      hide Fine;
      HitStays(s, s', p.store, store', p.builder, says, adds, img);
    } else {
      var e := s.engine;
      assert next.store == CommittedStore(p.store, p.builder, img, DiffOf(e, p.builder, next.scope, i));
      assert p.store.images + [img] <= store'.images;
      hide *;
      forall x | x in p.store.images
        ensures !Matches(s, p.store, p.builder, says, adds, x)
      {
        if p.check {
          MissMeansNone(s, p.store, p.builder, says, adds, x);
        } else {
          NothingMatches(b, p, says, adds, x);
        }
      }
      CommitMatches(b, s', p, i, next.scope, store');
      CommitIsFound(s, s', p.store, store', p.builder, says, adds, img);
    }
  }

  lemma FineIs(b: Start, p: Progress)
    requires Fine(b, p)
    ensures BuilderFits(p.store, p.builder) && forall x :: x in p.store.images ==> HasItsLayer(p.store, x)
  {
    hide BuilderFits;
    hide HasItsLayer;
  }

  function AllHits(n: nat): seq<bool> {
    seq(n, _ => true)
  }

  /** So far, the second build has taken the images of the first. */
  ghost predicate IsRepeated(b: Start, b': Start, n: nat)
    requires n <= |b.steps| == |b'.steps|
  {
    var p, q := ProgressAfter(b, n), ProgressAfter(b', n);
    && p.Going? && q.Going? && q.builder == p.builder && q.scope == p.scope && q.store == b'.store && q.check
    && q.images == p.images && q.hits == AllHits(n)
  }

  lemma {:induction false} RepeatsSteps(b: Start, b': Start, n: nat)
    requires StartFits(b) && IsAgain(b, b') && AreStillFresh(b, b') && n <= |b.steps|
    ensures IsRepeated(b, b', n)
  {
    hide *;
    AgainIs(b, b');
    EarlierGoing(b, n, |b.steps|);
    if n == 0 {
      RepeatsNothing(b, b');
    } else {
      RepeatsSteps(b, b', n - 1);
      EarlierGoing(b, n - 1, |b.steps|);
      FoundAgain(b, b', n - 1);
      RepeatsOne(b, b', n - 1);
    }
  }

  lemma RepeatsNothing(b: Start, b': Start)
    requires IsAgain(b, b')
    ensures IsRepeated(b, b', 0)
  {
  }

  lemma RepeatsOne(b: Start, b': Start, n: nat)
    requires n < |b.steps| && b'.steps == b.steps && IsRepeated(b, b', n) && ProgressAfter(b, n + 1).Going?
    requires b'.settings == b.settings.(now := b'.settings.now)
    requires var p, next := ProgressAfter(b, n), ProgressAfter(b, n + 1);
      && next.builder.from.Some?
      && SearchFor(b'.settings, b'.store, p.builder,
                   Says(b.settings.engine, next.scope.config, next.scope.seen, b.steps[n]),
                   b.steps[n].RequiresLayer()) == Hit(next.builder.from.value)
    ensures IsRepeated(b, b', n + 1)
  {
    var p, q, i, next := ProgressAfter(b, n), ProgressAfter(b', n), b.steps[n], ProgressAfter(b, n + 1);
    NextProgressIs(b, n);
    NextProgressIs(b', n);
    StepIs(b, p, i);
    assert AllHits(n + 1) == AllHits(n) + [true];
    hide ProgressAfter;
    hide NextProgress;
    hide SearchFor;
    hide Says;
    hide DiffOf;
    hide CommitOf;
    hide Keys;
    HitSucceeds(b', q, i, next.scope, next.builder.from.value);
  }

  /**
   Building again. If histories account for layers, the layers are there, and nothing in the
   store was made at the very time of the first build, then a second build of the same
   instructions, on what the first has left behind and before anything is too old, takes
   every image from there: it comes to the same image, and the store does not change.
   */
  lemma RebuildTakesEverything(b: Start, b': Start)
    requires StartFits(b) && IsAgain(b, b') && AreStillFresh(b, b')
    ensures BuildOf(b).Built? && BuildOf(b').Built?
    ensures BuildOf(b').builder == BuildOf(b).builder && BuildOf(b').images == BuildOf(b).images
    ensures BuildOf(b').store == BuildOf(b).store && BuildOf(b').hits == AllHits(|b.steps|)
  {
    RepeatsSteps(b, b', |b.steps|);
    AgainIs(b, b');
    hide ProgressAfter;
    hide BuildOf;
    hide AllHits;
    BuildIs(b);
    BuildIs(b');
  }

  lemma {:induction false} HaltedIsNotBuilt(b: Start, n: nat)
    requires n <= |b.steps| && ProgressAfter(b, n).Halted?
    ensures !ProgressAfter(b, n).result.Built?
  {
    hide StepOf;
    if n > 0 && ProgressAfter(b, n - 1).Halted? {
      HaltedIsNotBuilt(b, n - 1);
    }
  }

  lemma BuiltIsGoing(b: Start)
    requires BuildOf(b).Built?
    ensures ProgressAfter(b, |b.steps|).Going? && ProgressAfter(b, |b.steps|).store == BuildOf(b).store
  {
    if ProgressAfter(b, |b.steps|).Halted? {
      HaltedIsNotBuilt(b, |b.steps|);
    }
    hide ProgressAfter;
  }

  lemma BuiltAgain(b: Start, later: int)
    requires BuildOf(b).Built? && b.settings.now <= later && b.settings.cacheTTL == 0
    ensures var b' := b.(settings := b.settings.(now := later), store := BuildOf(b).store, useCache := true);
      ProgressAfter(b, |b.steps|).Going? && IsAgain(b, b') && AreStillFresh(b, b')
  {
    BuiltIsGoing(b);
    hide ProgressAfter;
    hide BuildOf;
  }

  /** Run twice: the second time no image is made. */
  method BuildTwice(b: Start, later: int) returns (first: BuildResult, second: BuildResult)
    requires StartFits(b) && b.settings.now <= later && b.settings.cacheTTL == 0
    ensures first == BuildOf(b)
    ensures first.Built? ==>
      && second.Built? && second.builder == first.builder && second.images == first.images
      && second.store == first.store && second.hits == AllHits(|b.steps|)
  {
    hide *;
    var s := b.settings;
    first := Execute(s, b.store, b.base, b.config, b.steps, b.useCache, b.comment, b.author);
    assert b == Start(s, b.store, b.base, b.config, b.steps, b.useCache, b.comment, b.author);
    second := first;
    if first.Built? {
      second := Execute(s.(now := later), first.store, b.base, b.config, b.steps, true, b.comment, b.author);
      BuiltAgain(b, later);
      RebuildTakesEverything(b, b.(settings := s.(now := later), store := first.store, useCache := true));
    }
  }
}
