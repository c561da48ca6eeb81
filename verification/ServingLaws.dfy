/**
 When a playable file is served, over a cache that does not fail: the exact condition on the budget,
 on direct links and on poisoned entries.
 */
module ServingLaws {
  import opened Machine
  import opened Wrappers
  import opened Framing
  import opened FragmentIndex
  import C = Content
  import opened BlobKeys
  import opened Lru
  import CacheRuns
  import R = Recency
  import opened Playback
  import opened ServingModel

  // ---- what is at hand ----

  /** Everything the author uploaded. */
  ghost function Uploads(sc: Scene): map<nat, Bytes> { map i | 0 <= i < |sc.cts| :: sc.cts[i] }

  /** The two agree on the chunks of slot `k`. */
  ghost predicate AgreeOn(sc: Scene, a: map<nat, Bytes>, b: map<nat, Bytes>, k: nat)
    requires k < |sc.index|
  {
    forall i :: sc.index[k].chunkStart <= i < End(sc.index, k) ==> (i in a <==> i in b) && (i in a ==> a[i] == b[i])
  }

  ghost predicate Agree(sc: Scene, items: seq<Item>, a: map<nat, Bytes>, b: map<nat, Bytes>, k0: nat, k1: nat)
    requires k1 < |sc.index| && k1 < U32_BOUND
  {
    forall k :: k0 <= k <= k1 && HitOf(sc, items, k).None? ==> AgreeOn(sc, a, b, k)
  }

  lemma SameTaken(sc: Scene, items: seq<Item>, a: map<nat, Bytes>, b: map<nat, Bytes>, k: nat)
    requires k < |sc.index| && k < U32_BOUND && (HitOf(sc, items, k).None? ==> AgreeOn(sc, a, b, k))
    ensures Taken(sc, items, a, k) == Taken(sc, items, b, k)
  {
    hide HitOf;
    if HitOf(sc, items, k).None? {
      SameChunks(a, b, sc.index[k].chunkStart, End(sc.index, k));
    }
  }

  lemma SameChunks(a: map<nat, Bytes>, b: map<nat, Bytes>, lo: nat, hi: nat)
    requires lo <= hi && forall i :: lo <= i < hi ==> (i in a <==> i in b) && (i in a ==> a[i] == b[i])
    ensures HeldChunks(a, lo, hi) == HeldChunks(b, lo, hi)
  {
    var r := HeldChunks(a, lo, hi);
    if r.Some? { AllHeld(b, lo, hi, r.value); }
  }

  /** Sources that agree on what is fetched serve alike. */
  lemma AgreeSame(sc: Scene, st: State, a: map<nat, Bytes>, b: map<nat, Bytes>, k0: nat, k1: nat)
    requires k0 <= k1 < |sc.index| && k1 < U32_BOUND && Agree(sc, st.items, a, b, k0, k1)
    ensures SpanOpens(sc, st.items, a, k0, k1) <==> SpanOpens(sc, st.items, b, k0, k1)
    ensures HasRoom(sc, st, a, k0, k1) <==> HasRoom(sc, st, b, k0, k1)
  {
    hide *;
    forall k | k0 <= k <= k1 ensures Taken(sc, st.items, a, k) == Taken(sc, st.items, b, k) {
      AgreeAt(sc, st.items, a, b, k0, k1, k);
      SameTaken(sc, st.items, a, b, k);
    }
    TakenDecides(sc, st.items, a, b, k0, k1);
    RoomIs(sc, st, a, k0, k1);
    RoomIs(sc, st, b, k0, k1);
    if sc.KeyOf(0).Some? { SameWants(sc, st.items, a, b, k0, k1); }
  }

  lemma AgreeAt(sc: Scene, items: seq<Item>, a: map<nat, Bytes>, b: map<nat, Bytes>, k0: nat, k1: nat, k: nat)
    requires k0 <= k <= k1 < |sc.index| && k1 < U32_BOUND && Agree(sc, items, a, b, k0, k1)
    ensures HitOf(sc, items, k).None? ==> AgreeOn(sc, a, b, k)
  {
  }

  lemma TakenDecides(sc: Scene, items: seq<Item>, a: map<nat, Bytes>, b: map<nat, Bytes>, k0: nat, k1: nat)
    requires k1 < |sc.index| && k1 < U32_BOUND
    requires forall k :: k0 <= k <= k1 ==> Taken(sc, items, a, k) == Taken(sc, items, b, k)
    ensures SpanOpens(sc, items, a, k0, k1) <==> SpanOpens(sc, items, b, k0, k1)
  {
    hide Taken, C.AllOpen;
    assert forall k :: k0 <= k <= k1 ==> (SlotOpens(sc, items, a, k) <==> SlotOpens(sc, items, b, k));
  }

  lemma {:induction false} SameWants(sc: Scene, items: seq<Item>, a: map<nat, Bytes>, b: map<nat, Bytes>, k0: nat,
                                     k1: nat)
    requires k1 < |sc.index| && k1 < U32_BOUND && sc.KeyOf(0).Some?
    requires forall k :: k0 <= k <= k1 ==> Taken(sc, items, a, k) == Taken(sc, items, b, k)
    ensures WantsOf(sc, items, a, k0, k1) == WantsOf(sc, items, b, k0, k1)
    decreases k1 + 1 - k0
  {
    hide Taken, HitOf, Frame, Scene.KeyOf;
    if k0 <= k1 {
      KeysDiffer(sc, 0, k0);
      SameWants(sc, items, a, b, k0 + 1, k1);
    }
  }

  /** Whatever is fetched belongs to the file. */
  lemma ListedInFile(sc: Scene, items: seq<Item>, k0: nat, k1: nat)
    requires sc.Whole() && k1 < |sc.index| && k1 < U32_BOUND
    ensures forall i :: i in Listed(sc, items, k0, k1) ==> i < |sc.cts|
  {
    hide C.Binds, HitOf, Todo, Coverage, WellFormed;
    forall i | i in Listed(sc, items, k0, k1) ensures i < |sc.cts| {
      ListedIs(sc, items, k0, k1, i);
      var k :| k0 <= k <= k1 && MissAt(sc, items, k, i);
      SlotInFile(sc, k);
    }
  }

  lemma SlotInFile(sc: Scene, k: nat)
    requires sc.Whole() && k < |sc.index|
    ensures sc.index[k].chunkStart < End(sc.index, k) <= |sc.cts| && WellFormed(sc.index)
    ensures (forall i :: 0 <= i < |sc.cts| ==> |sc.cts[i]| < U32_BOUND) && C.Genuine(sc.d, sc.cts)
  {
    hide C.Binds;
    PosStep(sc, k);
    PosMono(sc, k + 1, |sc.index|);
  }

  /** A source that always answers lets the prefetch through, and lies over direct links only. */
  lemma FetchedIs(sc: Scene, items: seq<Item>, k0: nat, k1: nat, routed: Answers, direct: set<nat>)
    requires sc.Whole() && k1 < |sc.index| && k1 < U32_BOUND && Routed(sc, routed, direct)
    ensures var held := Fetched(sc, items, k0, k1, routed);
            && held.Some? && held.value.Keys == Listed(sc, items, k0, k1)
            && forall i :: i in held.value ==>
                 i < |sc.cts| && routed([], i) == Some(held.value[i])
                 && (i !in direct ==> held.value[i] == sc.cts[i])
  {
    hide C.Binds, Listed, WellFormed, Coverage;
    ListedInFile(sc, items, k0, k1);
    assert forall i :: i in Listed(sc, items, k0, k1) ==> AlwaysAnswers(routed, i);
  }

  /** If every fetched chunk is the uploaded one, what was fetched might as well be the upload. */
  lemma FetchedAgrees(sc: Scene, items: seq<Item>, held: map<nat, Bytes>, k0: nat, k1: nat)
    requires sc.Whole() && k1 < |sc.index| && k1 < U32_BOUND && held.Keys == Listed(sc, items, k0, k1)
    requires forall i :: i in held ==> i < |sc.cts| && held[i] == sc.cts[i]
    ensures Agree(sc, items, held, Uploads(sc), k0, k1)
  {
    hide C.Binds, HitOf, Todo, Coverage, WellFormed, Uploaded;
    forall k | k0 <= k <= k1 && HitOf(sc, items, k).None? ensures AgreeOn(sc, held, Uploads(sc), k) {
      SlotInFile(sc, k);
      forall i | sc.index[k].chunkStart <= i < End(sc.index, k) ensures i in held {
        assert MissAt(sc, items, k, i);
        ListedIs(sc, items, k0, k1, i);
      }
    }
  }

  // ---- poisoned entries ----

  /** Every slot the cache offers opens. */
  ghost predicate OffersOpen(sc: Scene, items: seq<Item>, k0: nat, k1: nat)
    requires k1 < |sc.index| && k1 < U32_BOUND
  {
    forall k :: k0 <= k <= k1 ==> OfferOpens(sc, items, k)
  }

  ghost predicate OfferOpens(sc: Scene, items: seq<Item>, k: nat)
    requires k < |sc.index| && k < U32_BOUND
  {
    HitOf(sc, items, k).Some? ==> C.AllOpen(sc.d, sc.index[k].chunkStart, HitOf(sc, items, k).value)
  }

  /** The uploaded chunks of a slot. */
  ghost function ChunksOf(sc: Scene, k: nat): seq<Bytes>
    requires k < |sc.index| && End(sc.index, k) <= |sc.cts|
  {
    sc.cts[sc.index[k].chunkStart..End(sc.index, k)]
  }

  lemma UploadTaken(sc: Scene, items: seq<Item>, k: nat)
    requires sc.Whole() && k < |sc.index| && k < U32_BOUND
    ensures End(sc.index, k) <= |sc.cts| && C.AllOpen(sc.d, sc.index[k].chunkStart, ChunksOf(sc, k))
    ensures HitOf(sc, items, k).None? ==> Taken(sc, items, Uploads(sc), k) == Some(ChunksOf(sc, k))
    ensures Frame(ChunksOf(sc, k)) == sc.FrameOf(k)
  {
    hide C.Binds, HitOf, Frame, C.AllOpen, Coverage, C.Genuine;
    SlotInFile(sc, k);
    UploadedOpens(sc.d, sc.cts, sc.index[k].chunkStart, End(sc.index, k));
    AllHeld(Uploads(sc), sc.index[k].chunkStart, End(sc.index, k), ChunksOf(sc, k));
  }

  lemma UploadOpens(sc: Scene, items: seq<Item>, k0: nat, k1: nat)
    requires sc.Whole() && k1 < |sc.index| && k1 < U32_BOUND
    ensures SpanOpens(sc, items, Uploads(sc), k0, k1) <==> OffersOpen(sc, items, k0, k1)
  {
    hide C.Binds, HitOf, C.AllOpen, ChunksOf, Uploads, Scene.Whole;
    forall k | k0 <= k <= k1 ensures SlotOpens(sc, items, Uploads(sc), k) <==> OfferOpens(sc, items, k) {
      UploadTaken(sc, items, k);
    }
  }

  /**
   Honest sources, over any cache whatever it holds: a request is served exactly if every slot
   that is offered opens, and the budget has room.
   */
  lemma HonestExact(sc: Scene, st: State, k0: nat, k1: nat, routed: Answers, proxied: Answers)
    requires sc.Whole() && CacheRuns.InOrder(st) && k0 <= k1 < |sc.index| && k1 < U32_BOUND
    requires Routed(sc, routed, {})
    ensures Serve(sc, st, k0, k1, routed, {}, proxied).ok
            <==> OffersOpen(sc, st.items, k0, k1) && HasRoom(sc, st, Uploads(sc), k0, k1)
  {
    hide *;
    SlotInFile(sc, k0);
    ServeExact(sc, st, k0, k1, routed, {}, proxied);
    FetchedIs(sc, st.items, k0, k1, routed, {});
    var held := Fetched(sc, st.items, k0, k1, routed).value;
    FetchedAgrees(sc, st.items, held, k0, k1);
    AgreeSame(sc, st, held, Uploads(sc), k0, k1);
    UploadOpens(sc, st.items, k0, k1);
  }

  /** An entry that is offered and does not open refuses every request for its slot, whatever the sources say. */
  lemma PoisonRefuses(sc: Scene, st: State, k0: nat, k1: nat, k: nat, routed: Answers, direct: set<nat>,
                      proxied: Answers)
    requires WellFormed(sc.index) && CacheRuns.InOrder(st) && k0 <= k <= k1 < |sc.index| && k1 < U32_BOUND
    requires !OfferOpens(sc, st.items, k)
    ensures !Serve(sc, st, k0, k1, routed, direct, proxied).ok
  {
    hide WellFormed, HitOf, C.AllOpen, Serve, HasRoom, Repaired, Fetched, HeldChunks, CacheRuns.InOrder;
    ServeExact(sc, st, k0, k1, routed, direct, proxied);
    var held := Fetched(sc, st.items, k0, k1, routed);
    if held.Some? { assert !SlotOpens(sc, st.items, held.value, k); }
  }

  ghost predicate AllHit(sc: Scene, items: seq<Item>, k0: nat, k1: nat)
    requires k1 < |sc.index| && k1 < U32_BOUND
  {
    forall k :: k0 <= k <= k1 ==> HitOf(sc, items, k).Some?
  }

  /**
   And it stays: a request for slots that are all offered changes no entry, so one that is refused is
   refused again, as often as it is made.
   */
  lemma PoisonStays(sc: Scene, st: State, k0: nat, k1: nat, routed: Answers, direct: set<nat>, proxied: Answers)
    requires WellFormed(sc.index) && CacheRuns.InOrder(st) && k0 <= k1 < |sc.index| && k1 < U32_BOUND
    requires AllHit(sc, st.items, k0, k1)
    ensures var now := Serve(sc, st, k0, k1, routed, direct, proxied);
            && (now.ok <==> OffersOpen(sc, st.items, k0, k1))
            && CacheRuns.InOrder(now.st) && SameLookups(now.st.items, st.items)
            && AllHit(sc, now.st.items, k0, k1)
            && (OffersOpen(sc, now.st.items, k0, k1) <==> OffersOpen(sc, st.items, k0, k1))
  {
    hide *;
    var looked := LookAll(sc, st, k0, k1);
    ServeIs(sc, st, k0, k1, routed, direct, proxied);
    NothingListed(sc, st.items, k0, k1, routed, direct);
    LookKeeps(sc, st, k0, k1);
    HitsSame(sc, looked.items, st.items, k0, k1);
    FeedHits(sc, looked, k0, k1);
    var now := FeedAll(sc, looked, map[], k0, k1);
    SameTwice(now.st.items, looked.items, st.items);
    HitsSame(sc, now.st.items, st.items, k0, k1);
  }

  lemma NothingListed(sc: Scene, items: seq<Item>, k0: nat, k1: nat, routed: Answers, direct: set<nat>)
    requires k1 < |sc.index| && k1 < U32_BOUND && AllHit(sc, items, k0, k1)
    ensures Fetched(sc, items, k0, k1, routed) == Some(map[])
    ensures var none: map<nat, Bytes> := map[]; none.Keys !! direct
  {
    hide HitOf, Todo;
    forall i ensures i !in Todo(sc, items, k0, k1) { ListedIs(sc, items, k0, k1, i); }
    assert Listed(sc, items, k0, k1) == {};
  }

  lemma HitsSame(sc: Scene, a: seq<Item>, b: seq<Item>, k0: nat, k1: nat)
    requires k1 < |sc.index| && k1 < U32_BOUND && SameLookups(a, b)
    ensures AllHit(sc, a, k0, k1) <==> AllHit(sc, b, k0, k1)
    ensures OffersOpen(sc, a, k0, k1) <==> OffersOpen(sc, b, k0, k1)
  {
    hide HitOf, C.AllOpen, Lru.Lookup, Scene.KeyOf;
    forall k | k0 <= k <= k1 ensures HitOf(sc, a, k) == HitOf(sc, b, k) { SameHit(sc, a, b, k); }
    assert forall k :: k0 <= k <= k1 ==> (OfferOpens(sc, a, k) <==> OfferOpens(sc, b, k));
  }

  lemma {:induction false} FeedHits(sc: Scene, st: State, k0: nat, k1: nat)
    requires CacheRuns.InOrder(st) && k1 < |sc.index| && k1 < U32_BOUND && AllHit(sc, st.items, k0, k1)
    ensures var now := FeedAll(sc, st, map[], k0, k1);
            && (now.ok <==> OffersOpen(sc, st.items, k0, k1))
            && CacheRuns.InOrder(now.st) && SameLookups(now.st.items, st.items)
    decreases k1 + 1 - k0
  {
    hide *;
    FeedAllNext(sc, st, map[], k0, k1);
    OffersSplit(sc, st.items, k0, k1);
    SameAsItself(st.items);
    if k0 <= k1 {
      KeyIs(sc, k0);
      HitIs(sc, st.items, k0);
      FeedIs(sc.index[k0], sc.d, sc.ns, sc.id, k0, st, map[]);
      GetKeeps(sc, st, k0);
      var got := Step(st, Get(sc.ns, sc.id, k0, true));
      HitsSame(sc, got.items, st.items, k0 + 1, k1);
      FeedHits(sc, got, k0 + 1, k1);
      SameTwice(FeedAll(sc, got, map[], k0 + 1, k1).st.items, got.items, st.items);
    }
  }

  lemma HitIs(sc: Scene, items: seq<Item>, k: nat)
    requires k < |sc.index| && k < U32_BOUND
    ensures HitOf(sc, items, k) == Offered(items, Canonical(sc.ns, sc.id, k), sc.index[k].chunkLen)
  {
    hide Canonical, Offered;
  }

  lemma OffersSplit(sc: Scene, items: seq<Item>, k0: nat, k1: nat)
    requires k1 < |sc.index| && k1 < U32_BOUND && AllHit(sc, items, k0, k1)
    ensures k0 > k1 ==> OffersOpen(sc, items, k0, k1)
    ensures k0 <= k1 ==>
              && HitOf(sc, items, k0).Some? && AllHit(sc, items, k0 + 1, k1)
              && (OffersOpen(sc, items, k0, k1)
                  <==> C.AllOpen(sc.d, sc.index[k0].chunkStart, HitOf(sc, items, k0).value)
                       && OffersOpen(sc, items, k0 + 1, k1))
  {
    hide HitOf, C.AllOpen;
    assert k0 <= k1 ==> (OfferOpens(sc, items, k0) <==>
                           HitOf(sc, items, k0).Some? ==>
                             C.AllOpen(sc.d, sc.index[k0].chunkStart, HitOf(sc, items, k0).value));
  }

  // ---- genuine entries ----

  /** Each slot of the span is held as its genuine frame or not at all. */
  ghost predicate Tidy(sc: Scene, items: seq<Item>, k0: nat, k1: nat)
    requires k1 < |sc.index| && k1 < U32_BOUND
  {
    forall k :: k0 <= k <= k1 ==> sc.SlotTidy(items, k)
  }

  ghost predicate NoneHeld(sc: Scene, items: seq<Item>, k0: nat, k1: nat)
    requires k1 < U32_BOUND
  {
    forall k :: k0 <= k <= k1 ==> !sc.SlotIn(items, k)
  }

  /** The bytes of the genuine frames up to the last slot held, leaving out those over the budget. */
  ghost function SpanNeeds(sc: Scene, items: seq<Item>, cap: nat, k0: nat, k1: nat): nat
    requires k1 < |sc.index| && k1 < U32_BOUND
    decreases k1 + 1 - k0
  {
    if NoneHeld(sc, items, k0, k1) then 0
    else (if |sc.FrameOf(k0)| <= cap then |sc.FrameOf(k0)| else 0) + SpanNeeds(sc, items, cap, k0 + 1, k1)
  }

  /** A tidy slot is offered exactly if it is held, and then as the uploaded chunks. */
  lemma TidyHit(sc: Scene, items: seq<Item>, k: nat)
    requires sc.Whole() && k < |sc.index| && k < U32_BOUND && sc.SlotTidy(items, k)
    ensures End(sc.index, k) <= |sc.cts|
    ensures HitOf(sc, items, k) == if sc.SlotIn(items, k) then Some(ChunksOf(sc, k)) else None
  {
    hide C.Binds, ValidatedKey, Table, Frame, Deframed, Coverage, C.Genuine;
    SlotInFile(sc, k);
    if sc.SlotIn(items, k) {
      assert Fits(ChunksOf(sc, k));
      DeframeInvertsFrame(ChunksOf(sc, k));
    }
  }

  lemma TidyOffersOpen(sc: Scene, items: seq<Item>, k0: nat, k1: nat)
    requires sc.Whole() && k0 <= k1 < |sc.index| && k1 < U32_BOUND && Tidy(sc, items, k0, k1)
    ensures OffersOpen(sc, items, k0, k1) && (NoneHit(sc, items, k0, k1) <==> NoneHeld(sc, items, k0, k1))
  {
    hide C.Binds, HitOf, C.AllOpen, ChunksOf, Scene.Whole, Scene.SlotTidy, Scene.SlotIn;
    forall k | k0 <= k <= k1
      ensures OfferOpens(sc, items, k) && (HitOf(sc, items, k).None? <==> !sc.SlotIn(items, k))
    {
      TidyHit(sc, items, k);
      UploadTaken(sc, items, k);
    }
  }

  /** What the pass wants of a tidy slot. */
  lemma TidyWant(sc: Scene, items: seq<Item>, k: nat)
    requires sc.Whole() && k < |sc.index| && k < U32_BOUND && sc.SlotTidy(items, k) && sc.KeyOf(k).Some?
    ensures var w, had := WantOf(sc, items, Uploads(sc), k), R.Sizes(items);
            && (w.found <==> w.key in had) && (w.found <==> sc.SlotIn(items, k))
            && (w.found ==> had[w.key] == |sc.FrameOf(k)|)
            && (!w.found ==> w.bytes == sc.FrameOf(k))
  {
    hide C.Binds, HitOf, Table, Frame, ChunksOf, Scene.Whole, ValidatedKey, Deframed;
    TidyHit(sc, items, k);
    UploadTaken(sc, items, k);
  }

  lemma TidyClear(sc: Scene, items: seq<Item>, k0: nat, k1: nat)
    requires sc.Whole() && k0 <= k1 + 1 && k1 < |sc.index| && k1 < U32_BOUND && Tidy(sc, items, k0, k1)
    requires sc.KeyOf(0).Some?
    ensures var wants := WantsOf(sc, items, Uploads(sc), k0, k1);
            R.Clear(wants, R.Sizes(items)) && (R.NoneFound(wants) <==> NoneHeld(sc, items, k0, k1))
  {
    hide Scene.KeyOf, WantOf, WantsOf, Scene.Whole, R.Sizes, Scene.SlotTidy, Scene.SlotIn;
    var wants := WantsOf(sc, items, Uploads(sc), k0, k1);
    WantsAre(sc, items, Uploads(sc), k0, k1);
    forall w | w in wants ensures w.found <==> w.key in R.Sizes(items) {
      var i :| 0 <= i < |wants| && wants[i] == w;
      assert wants[k0 + i - k0] == WantOf(sc, items, Uploads(sc), k0 + i);
      TidyWant(sc, items, k0 + i);
    }
    forall k | k0 <= k <= k1 ensures wants[k - k0].found <==> sc.SlotIn(items, k) { TidyWant(sc, items, k); }
    if R.NoneFound(wants) {
      forall k | k0 <= k <= k1 ensures !sc.SlotIn(items, k) { assert wants[k - k0] in wants; }
    }
    if NoneHeld(sc, items, k0, k1) {
      forall w | w in wants ensures !w.found {
        var i :| 0 <= i < |wants| && wants[i] == w;
        assert !sc.SlotIn(items, k0 + i) && wants[k0 + i - k0] == w;
      }
    }
  }

  /** Whatever is held is within the budget. */
  lemma HeldWithin(st: State, key: Key, cap: nat)
    requires CacheRuns.InOrder(st) && st.cap == Some(cap) && FitsIn(st.items, st.cap, 0) && key in R.Sizes(st.items)
    ensures R.Sizes(st.items)[key] <= cap
  {
    TotalMinus(st.items, 0, st.clock, key);
  }

  lemma {:induction false} NeedsAre(sc: Scene, st: State, cap: nat, k0: nat, k1: nat)
    requires sc.Whole() && k1 < |sc.index| && k1 < U32_BOUND && Tidy(sc, st.items, k0, k1) && sc.KeyOf(0).Some?
    requires CacheRuns.InOrder(st) && st.cap == Some(cap) && FitsIn(st.items, st.cap, 0) && k0 <= k1 + 1
    ensures R.Needs(cap, R.UpToLastFound(WantsOf(sc, st.items, Uploads(sc), k0, k1)), R.Sizes(st.items))
            == SpanNeeds(sc, st.items, cap, k0, k1)
    decreases k1 + 1 - k0
  {
    hide *;
    var had, wants := R.Sizes(st.items), WantsOf(sc, st.items, Uploads(sc), k0, k1);
    TidyClear(sc, st.items, k0, k1);
    SpanNeedsNext(sc, st.items, cap, k0, k1);
    if k0 > k1 {
      NoWants(sc, st.items, k0, k1);
      R.NothingNeeded(cap, had);
    } else {
      TidyAt(sc, st.items, k0, k1);
      KeysDiffer(sc, 0, k0);
      WantsSplit(sc, st.items, k0, k1);
      TidyWant(sc, st.items, k0);
      R.NeedsNext(cap, wants, had);
      NeedsAre(sc, st, cap, k0 + 1, k1);
      if wants[0].key in had { HeldWithin(st, wants[0].key, cap); }
    }
  }

  lemma TidyAt(sc: Scene, items: seq<Item>, k0: nat, k1: nat)
    requires k0 <= k1 < |sc.index| && k1 < U32_BOUND && Tidy(sc, items, k0, k1)
    ensures sc.SlotTidy(items, k0) && Tidy(sc, items, k0 + 1, k1)
  {
  }

  lemma NoWants(sc: Scene, items: seq<Item>, k0: nat, k1: nat)
    requires k0 > k1 && k1 < |sc.index| && k1 < U32_BOUND && sc.KeyOf(0).Some?
    ensures WantsOf(sc, items, Uploads(sc), k0, k1) == [] && NoneHeld(sc, items, k0, k1)
  {
  }

  lemma WantsSplit(sc: Scene, items: seq<Item>, k0: nat, k1: nat)
    requires k0 <= k1 < |sc.index| && k1 < U32_BOUND && sc.KeyOf(0).Some? && sc.KeyOf(k0).Some?
    ensures var wants := WantsOf(sc, items, Uploads(sc), k0, k1);
            && wants != [] && wants[0] == WantOf(sc, items, Uploads(sc), k0)
            && wants[1..] == WantsOf(sc, items, Uploads(sc), k0 + 1, k1)
  {
    hide WantOf, Scene.KeyOf, Uploads;
  }

  lemma SpanNeedsNext(sc: Scene, items: seq<Item>, cap: nat, k0: nat, k1: nat)
    requires k1 < |sc.index| && k1 < U32_BOUND
    ensures NoneHeld(sc, items, k0, k1) ==> SpanNeeds(sc, items, cap, k0, k1) == 0
    ensures !NoneHeld(sc, items, k0, k1) ==>
              && k0 <= k1
              && SpanNeeds(sc, items, cap, k0, k1)
                 == (if |sc.FrameOf(k0)| <= cap then |sc.FrameOf(k0)| else 0) + SpanNeeds(sc, items, cap, k0 + 1, k1)
  {
    hide Scene.SlotIn, Scene.FrameOf;
  }

  /** Over genuine entries, the budget has room exactly if it has room for what the span needs. */
  lemma TidyRoom(sc: Scene, st: State, k0: nat, k1: nat)
    requires sc.Whole() && k0 <= k1 < |sc.index| && k1 < U32_BOUND && Tidy(sc, st.items, k0, k1)
    requires CacheRuns.InOrder(st) && FitsIn(st.items, st.cap, 0)
    ensures HasRoom(sc, st, Uploads(sc), k0, k1)
            <==> st.cap.None? || SpanNeeds(sc, st.items, st.cap.value, k0, k1) <= st.cap.value
  {
    hide *;
    RoomIs(sc, st, Uploads(sc), k0, k1);
    if st.cap.Some? {
      var cap, had := st.cap.value, R.Sizes(st.items);
      if sc.KeyOf(0).None? {
        NothingHeld(sc, st.items, k0, k1);
        SpanNeedsNext(sc, st.items, cap, k0, k1);
      } else {
        var wants := WantsOf(sc, st.items, Uploads(sc), k0, k1);
        TidyClear(sc, st.items, k0, k1);
        WantsDiffer(sc, st.items, Uploads(sc), k0, k1);
        HeldFits(st, wants, cap);
        R.RoomIsSum(cap, wants, had, 0);
        NeedsAre(sc, st, cap, k0, k1);
      }
    }
  }

  lemma HeldFits(st: State, wants: seq<R.Want>, cap: nat)
    requires CacheRuns.InOrder(st) && st.cap == Some(cap) && FitsIn(st.items, st.cap, 0) && R.Distinct(wants)
    ensures R.Sum(R.Present(wants, R.Sizes(st.items))) <= cap
  {
    R.HeldIsPart(st.items, st.clock, wants);
  }

  lemma NothingHeld(sc: Scene, items: seq<Item>, k0: nat, k1: nat)
    requires k1 < U32_BOUND && sc.KeyOf(0).None?
    ensures NoneHeld(sc, items, k0, k1)
  {
    forall k | k0 <= k <= k1 ensures !sc.SlotIn(items, k) { KeysDiffer(sc, 0, k); }
  }

  /** Every chunk that comes over a direct link opens at its index. */
  ghost predicate DirectOpens(sc: Scene, items: seq<Item>, k0: nat, k1: nat, routed: Answers, direct: set<nat>)
    requires k1 < |sc.index| && k1 < U32_BOUND
  {
    forall k, i :: k0 <= k <= k1 && MissAt(sc, items, k, i) && i in direct ==>
      routed([], i).Some? && sc.d.Opens(i, routed([], i).value)
  }

  lemma DirectIsOpening(sc: Scene, items: seq<Item>, k0: nat, k1: nat, routed: Answers, direct: set<nat>)
    requires sc.Whole() && k0 <= k1 < |sc.index| && k1 < U32_BOUND
    requires Tidy(sc, items, k0, k1) && Routed(sc, routed, direct)
    ensures var held := Fetched(sc, items, k0, k1, routed);
            held.Some? && (SpanOpens(sc, items, held.value, k0, k1) <==> DirectOpens(sc, items, k0, k1, routed, direct))
  {
    hide C.Binds, HitOf, Todo, Coverage, WellFormed, Uploaded, Fetched, Routed, Scene.SlotTidy, HeldChunks;
    FetchedIs(sc, items, k0, k1, routed, direct);
    var held := Fetched(sc, items, k0, k1, routed).value;
    TidyOffersOpen(sc, items, k0, k1);
    ListedComplements(sc, items, held, k0, k1);
    if SpanOpens(sc, items, held, k0, k1) {
      forall k, i | k0 <= k <= k1 && MissAt(sc, items, k, i) && i in direct
        ensures routed([], i).Some? && sc.d.Opens(i, routed([], i).value)
      {
        ListedIs(sc, items, k0, k1, i);
        assert SlotOpens(sc, items, held, k);
        MissOpens(sc, items, held, k, i);
      }
    }
    if DirectOpens(sc, items, k0, k1, routed, direct) {
      forall k | k0 <= k <= k1 ensures SlotOpens(sc, items, held, k) {
        assert OfferOpens(sc, items, k);
        if HitOf(sc, items, k).None? {
          SlotInFile(sc, k);
          forall i | sc.index[k].chunkStart <= i < End(sc.index, k) ensures i in held && sc.d.Opens(i, held[i]) {
            assert MissAt(sc, items, k, i);
            ListedIs(sc, items, k0, k1, i);
          }
          EachOpens(sc, items, held, k);
        }
      }
    }
  }

  lemma MissOpens(sc: Scene, items: seq<Item>, held: map<nat, Bytes>, k: nat, i: nat)
    requires k < |sc.index| && k < U32_BOUND && MissAt(sc, items, k, i) && SlotOpens(sc, items, held, k)
    ensures i in held && sc.d.Opens(i, held[i])
  {
    hide HitOf;
    var chunks := Taken(sc, items, held, k).value;
    assert sc.d.Opens(sc.index[k].chunkStart + (i - sc.index[k].chunkStart), chunks[i - sc.index[k].chunkStart]);
  }

  lemma EachOpens(sc: Scene, items: seq<Item>, held: map<nat, Bytes>, k: nat)
    requires k < |sc.index| && k < U32_BOUND && HitOf(sc, items, k).None?
    requires forall i :: sc.index[k].chunkStart <= i < End(sc.index, k) ==> i in held && sc.d.Opens(i, held[i])
    ensures SlotOpens(sc, items, held, k)
  {
    hide HitOf;
    var lo, chunks := sc.index[k].chunkStart, Taken(sc, items, held, k).value;
    forall j | 0 <= j < |chunks| ensures sc.d.Opens(lo + j, chunks[j]) {
      var i := lo + j;
      assert sc.d.Opens(i, held[i]) && chunks[i - lo] == held[i];
    }
  }

  /**
   Over genuine entries, with links that may say anything and an honest proxy: a request is served
   exactly if no slot of it was held, or every direct chunk it needs opens and the budget has room for
   what came. So a lying link denies playback exactly where some slot of the request was a hit.
   */
  lemma LinksExact(sc: Scene, st: State, k0: nat, k1: nat, routed: Answers, direct: set<nat>, proxied: Answers)
    requires sc.Whole() && CacheRuns.InOrder(st) && k0 <= k1 < |sc.index| && k1 < U32_BOUND
    requires Tidy(sc, st.items, k0, k1) && Routed(sc, routed, direct) && Routed(sc, proxied, {})
    ensures Fetched(sc, st.items, k0, k1, routed).Some?
    ensures Serve(sc, st, k0, k1, routed, direct, proxied).ok
            <==> NoneHeld(sc, st.items, k0, k1)
                 || (DirectOpens(sc, st.items, k0, k1, routed, direct)
                     && HasRoom(sc, st, Fetched(sc, st.items, k0, k1, routed).value, k0, k1))
  {
    hide *;
    SlotInFile(sc, k0);
    ServeExact(sc, st, k0, k1, routed, direct, proxied);
    DirectIsOpening(sc, st.items, k0, k1, routed, direct);
    TidyOffersOpen(sc, st.items, k0, k1);
    if NoneHeld(sc, st.items, k0, k1) {
      ColdHasRoom(sc, st, Fetched(sc, st.items, k0, k1, routed).value, k0, k1);
      ColdOpens(sc, st.items, k0, k1, routed, direct, proxied);
    }
  }

  lemma ColdHasRoom(sc: Scene, st: State, held: map<nat, Bytes>, k0: nat, k1: nat)
    requires k0 <= k1 < |sc.index| && k1 < U32_BOUND && NoneHit(sc, st.items, k0, k1)
    ensures HasRoom(sc, st, held, k0, k1)
  {
    hide *;
    RoomIs(sc, st, held, k0, k1);
    if sc.KeyOf(0).Some? && st.cap.Some? {
      NoneHitFinds(sc, st.items, held, k0, k1);
      R.NoneFoundRoom(st.cap.value, WantsOf(sc, st.items, held, k0, k1), R.Sizes(st.items), 0);
    }
  }

  /** Where nothing is offered, either what came opens, or a direct link was used and the proxied chunks open. */
  lemma ColdOpens(sc: Scene, items: seq<Item>, k0: nat, k1: nat, routed: Answers, direct: set<nat>, proxied: Answers)
    requires sc.Whole() && k0 <= k1 < |sc.index| && k1 < U32_BOUND
    requires OffersOpen(sc, items, k0, k1) && Routed(sc, routed, direct) && Routed(sc, proxied, {})
    ensures var held := Fetched(sc, items, k0, k1, routed);
            held.Some? && (SpanOpens(sc, items, held.value, k0, k1)
                           || (!(held.value.Keys !! direct) && Repaired(held.value, direct, proxied).Some?
                               && SpanOpens(sc, items, Repaired(held.value, direct, proxied).value, k0, k1)))
  {
    hide *;
    FetchedIs(sc, items, k0, k1, routed, direct);
    FetchedKeys(sc, items, k0, k1, routed, direct, proxied);
    UploadOpens(sc, items, k0, k1);
    var held, st := Fetched(sc, items, k0, k1, routed).value, State(None, 0, items);
    if held.Keys !! direct {
      FetchedAgrees(sc, items, held, k0, k1);
      AgreeSame(sc, st, held, Uploads(sc), k0, k1);
    } else {
      RepairedIsGenuine(sc, held, routed, direct, proxied);
      FetchedAgrees(sc, items, Repaired(held, direct, proxied).value, k0, k1);
      AgreeSame(sc, st, Repaired(held, direct, proxied).value, Uploads(sc), k0, k1);
    }
  }

  /** With the direct chunks replaced by proxied ones, only uploaded chunks are left. */
  lemma RepairedIsGenuine(sc: Scene, held: map<nat, Bytes>, routed: Answers, direct: set<nat>, proxied: Answers)
    requires Routed(sc, proxied, {})
    requires forall i :: i in held ==> i < |sc.cts| && (i !in direct ==> held[i] == sc.cts[i])
    ensures var repaired := Repaired(held, direct, proxied);
            && repaired.Some? && repaired.value.Keys == held.Keys
            && forall i :: i in repaired.value ==> i < |sc.cts| && repaired.value[i] == sc.cts[i]
  {
    assert forall i :: i in direct * held.Keys ==> AlwaysAnswers(proxied, i);
    assert (held + Gathered(proxied, direct * held.Keys).value).Keys == held.Keys;
  }

  /**
   Over genuine entries, where no direct link was used or the key sealed each index once: the request
   is served exactly if no slot of it was held, or every direct chunk opens and the genuine frames up
   to the last held slot fit the budget together, those over the budget left out.
   */
  lemma ServedExactly(sc: Scene, st: State, k0: nat, k1: nat, routed: Answers, direct: set<nat>, proxied: Answers)
    requires sc.Whole() && CacheRuns.InOrder(st) && FitsIn(st.items, st.cap, 0)
    requires k0 <= k1 < |sc.index| && k1 < U32_BOUND
    requires Tidy(sc, st.items, k0, k1) && Routed(sc, routed, direct) && Routed(sc, proxied, {})
    requires C.Unambiguous(sc.d) || direct == {}
    ensures Serve(sc, st, k0, k1, routed, direct, proxied).ok
            <==> NoneHeld(sc, st.items, k0, k1)
                 || (DirectOpens(sc, st.items, k0, k1, routed, direct)
                     && (st.cap.None? || SpanNeeds(sc, st.items, st.cap.value, k0, k1) <= st.cap.value))
  {
    hide *;
    LinksExact(sc, st, k0, k1, routed, direct, proxied);
    TidyRoom(sc, st, k0, k1);
    if DirectOpens(sc, st.items, k0, k1, routed, direct) {
      var held := Fetched(sc, st.items, k0, k1, routed).value;
      FetchedIs(sc, st.items, k0, k1, routed, direct);
      OpenIsUploaded(sc, st.items, k0, k1, routed, direct);
      FetchedAgrees(sc, st.items, held, k0, k1);
      AgreeSame(sc, st, held, Uploads(sc), k0, k1);
    }
  }

  /** A chunk that opens is the uploaded one, if the key sealed each index once. */
  lemma OpenIsUploaded(sc: Scene, items: seq<Item>, k0: nat, k1: nat, routed: Answers, direct: set<nat>)
    requires sc.Whole() && k1 < |sc.index| && k1 < U32_BOUND && Routed(sc, routed, direct)
    requires DirectOpens(sc, items, k0, k1, routed, direct) && (C.Unambiguous(sc.d) || direct == {})
    ensures var held := Fetched(sc, items, k0, k1, routed);
            held.Some? && forall i :: i in held.value ==> i < |sc.cts| && held.value[i] == sc.cts[i]
  {
    hide C.Binds, HitOf, Todo, Coverage, WellFormed, Fetched, Routed;
    FetchedIs(sc, items, k0, k1, routed, direct);
    var held := Fetched(sc, items, k0, k1, routed).value;
    forall i | i in held ensures i < |sc.cts| && held[i] == sc.cts[i] {
      if i in direct {
        ListedIs(sc, items, k0, k1, i);
        var k :| k0 <= k <= k1 && MissAt(sc, items, k, i);
        assert sc.d.Opens(i, held[i]) && sc.d.Opens(i, sc.cts[i]);
      }
    }
  }
}
