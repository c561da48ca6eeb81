/**
 What a request for a few slots does to the rest of the cache, and to the next request for the same slots:
 other entries are only ever evicted for room, and what was served is served again without fetching
 exactly if the genuine frames of the slots fit the budget together.
 */
module ServingScope {
  import opened Machine
  import opened Wrappers
  import opened Framing
  import opened FragmentIndex
  import C = Content
  import opened BlobKeys
  import opened Lru
  import CacheRuns
  import R = Recency
  import opened Playback
  import opened ServingModel
  import opened ServingLaws
  import opened ServingRuns

  // ---- the rest of the cache ----

  /** The key of one of the slots `[k0, k1]`. */
  ghost predicate InSpan(sc: Scene, j: Key, k0: nat, k1: nat) {
    j.ns == sc.ns && k0 <= j.sub <= k1 && ValidatedKey(sc.id) == Some(j.id)
  }

  /** Every other entry is as it was or, where there is a budget, evicted. */
  ghost predicate Spares(sc: Scene, was: State, now: State, k0: nat, k1: nat) {
    now.cap == was.cap
    && forall j :: !InSpan(sc, j, k0, k1) ==>
                     || Lru.Lookup(now.items, j) == Lru.Lookup(was.items, j)
                     || (was.cap.Some? && Lru.Lookup(now.items, j) == None)
  }

  lemma SparesItself(sc: Scene, st: State, k0: nat, k1: nat)
    ensures Spares(sc, st, st, k0, k1)
  {
  }

  lemma SparesTwice(sc: Scene, a: State, b: State, c: State, k0: nat, k1: nat)
    requires Spares(sc, a, b, k0, k1) && Spares(sc, b, c, k0, k1)
    ensures Spares(sc, a, c, k0, k1)
  {
    hide InSpan, Lru.Lookup;
  }

  /** What a request does to the cache, one call at a time: about its own slots, and without failures. */
  ghost predicate OwnCall(sc: Scene, op: Op, k0: nat, k1: nat) {
    match op
    case Put(ns, id, sub, _, wrote) => wrote && ns == sc.ns && id == sc.id && k0 <= sub <= k1
    case Get(ns, id, sub, readable) => readable && ns == sc.ns && id == sc.id && k0 <= sub <= k1
    case Evict(ns, id, sub) => ns == sc.ns && id == sc.id && k0 <= sub <= k1
    case _ => false
  }

  lemma CallSpares(sc: Scene, st: State, op: Op, k0: nat, k1: nat)
    requires Sane(st) && OwnCall(sc, op, k0, k1)
    ensures Sane(Step(st, op)) && Spares(sc, st, Step(st, op), k0, k1)
  {
    StepSane(st, op);
    SaneInOrder(st);
    CapStays(st, op);
    hide Step, Sane, CacheRuns.InOrder, CacheRuns.Stamps, ValidatedKey, Table;
    forall j | !InSpan(sc, j, k0, k1)
      ensures || Lru.Lookup(Step(st, op).items, j) == Lru.Lookup(st.items, j)
              || (st.cap.Some? && Lru.Lookup(Step(st, op).items, j) == None)
    {
      if j in Table(Step(st, op).items) {
        CacheRuns.StepKeeps(st, op, j);
      } else if st.cap.None? && j in Table(st.items) {
        CacheRuns.StepForgetsNothing(st, op, j);
      }
    }
  }

  lemma CapStays(st: State, op: Op)
    requires !op.SetCap?
    ensures Step(st, op).cap == st.cap
  {
    hide Canonical, Minus, Shrunk, Table;
  }

  lemma {:induction false} LookSpares(sc: Scene, st: State, k0: nat, s: nat, k1: nat)
    requires Sane(st) && k1 < U32_BOUND && k0 <= s
    ensures Spares(sc, st, LookAll(sc, st, s, k1), k0, k1)
    decreases k1 + 1 - s
  {
    hide Step, Sane, Spares;
    if s > k1 {
      SparesItself(sc, st, k0, k1);
    } else {
      var op := Get(sc.ns, sc.id, s, true);
      CallSpares(sc, st, op, k0, k1);
      LookSpares(sc, Step(st, op), k0, s + 1, k1);
      SparesTwice(sc, st, Step(st, op), LookAll(sc, st, s, k1), k0, k1);
    }
  }

  lemma {:induction false} EvictSpares(sc: Scene, st: State, k0: nat, s: nat, k1: nat)
    requires Sane(st) && k1 < U32_BOUND && k0 <= s
    ensures Spares(sc, st, EvictAll(sc, st, s, k1), k0, k1)
    decreases k1 + 1 - s
  {
    hide Step, Sane, Spares;
    if s > k1 {
      SparesItself(sc, st, k0, k1);
    } else {
      var op := Op.Evict(sc.ns, sc.id, s);
      CallSpares(sc, st, op, k0, k1);
      EvictSpares(sc, Step(st, op), k0, s + 1, k1);
      SparesTwice(sc, st, Step(st, op), EvictAll(sc, st, s, k1), k0, k1);
    }
  }

  lemma {:induction false} FeedSpares(sc: Scene, st: State, held: map<nat, Bytes>, k0: nat, s: nat, k1: nat)
    requires Sane(st) && k1 < |sc.index| && k1 < U32_BOUND && k0 <= s
    ensures Spares(sc, st, FeedAll(sc, st, held, s, k1).st, k0, k1)
    decreases k1 + 1 - s
  {
    hide *;
    FeedAllNext(sc, st, held, s, k1);
    SparesItself(sc, st, k0, k1);
    if s <= k1 {
      var one := Feed(sc.index[s], sc.d, sc.ns, sc.id, s, st, held);
      FeedOneSpares(sc, st, held, k0, s, k1);
      FeedSpares(sc, one.st, held, k0, s + 1, k1);
      SparesTwice(sc, st, one.st, FeedAll(sc, one.st, held, s + 1, k1).st, k0, k1);
    }
  }

  lemma FeedOneSpares(sc: Scene, st: State, held: map<nat, Bytes>, k0: nat, s: nat, k1: nat)
    requires Sane(st) && k0 <= s <= k1 < |sc.index| && k1 < U32_BOUND
    ensures var one := Feed(sc.index[s], sc.d, sc.ns, sc.id, s, st, held);
            Sane(one.st) && Spares(sc, st, one.st, k0, k1)
  {
    hide Step, Sane, Spares, Offered, Feed, Canonical, HeldChunks, Frame, C.AllOpen;
    FeedIs(sc.index[s], sc.d, sc.ns, sc.id, s, st, held);
    var get := Get(sc.ns, sc.id, s, true);
    CallSpares(sc, st, get, k0, k1);
    SlotOrder(sc, s);
    var chunks := HeldChunks(held, sc.index[s].chunkStart, Stop(sc.index[s]));
    if chunks.Some? {
      var put := Op.Put(sc.ns, sc.id, s, Frame(chunks.value), true);
      CallSpares(sc, Step(st, get), put, k0, k1);
      SparesTwice(sc, st, Step(st, get), Step(Step(st, get), put), k0, k1);
    }
  }

  /** Served or refused, from whatever sources, a request spares every entry that is not its own. */
  lemma RequestSpares(sc: Scene, st: State, k0: nat, k1: nat, routed: Answers, direct: set<nat>, proxied: Answers)
    requires Sane(st) && k0 <= k1 < |sc.index| && k1 < U32_BOUND
    ensures Spares(sc, st, Serve(sc, st, k0, k1, routed, direct, proxied).st, k0, k1)
  {
    hide *;
    ServeIs(sc, st, k0, k1, routed, direct, proxied);
    var looked, fetched := LookAll(sc, st, k0, k1), Fetched(sc, st.items, k0, k1, routed);
    LookSpares(sc, st, k0, k0, k1);
    if fetched.Some? {
      LookSane(sc, st, k0, k1);
      var first := FeedAll(sc, looked, fetched.value, k0, k1);
      FeedSpares(sc, looked, fetched.value, k0, k0, k1);
      FeedSane(sc, looked, fetched.value, k0, k1);
      SparesTwice(sc, st, looked, first.st, k0, k1);
      var evicted, repaired := EvictAll(sc, first.st, k0, k1), Repaired(fetched.value, direct, proxied);
      EvictSpares(sc, first.st, k0, k0, k1);
      EvictOnlyForgets(sc, first.st, k0, k1);
      SparesTwice(sc, st, first.st, evicted, k0, k1);
      if repaired.Some? {
        FeedSpares(sc, evicted, repaired.value, k0, k0, k1);
        SparesTwice(sc, st, evicted, FeedAll(sc, evicted, repaired.value, k0, k1).st, k0, k1);
      }
    }
  }

  // ---- the recent end of the list ----

  /** The bytes of the genuine frames of the slots `[lo, hi)`. */
  ghost function SpanBytes(sc: Scene, lo: nat, hi: nat): nat
    requires hi <= |sc.index|
  {
    if hi <= lo then 0 else SpanBytes(sc, lo, hi - 1) + |sc.FrameOf(hi - 1)|
  }

  lemma {:induction false} SpanBytesGrow(sc: Scene, lo: nat, mid: nat, hi: nat)
    requires mid <= hi <= |sc.index|
    ensures SpanBytes(sc, lo, mid) <= SpanBytes(sc, lo, hi)
  {
    hide Scene.FrameOf;
    if mid < hi { SpanBytesGrow(sc, lo, mid, hi - 1); }
  }

  /** `b` is the slots `[lo, hi)` in order, each as its genuine frame. */
  ghost predicate IsSpan(sc: Scene, b: seq<Item>, lo: nat, hi: nat)
    requires lo <= hi <= |sc.index| && hi <= U32_BOUND
  {
    |b| == hi - lo && forall j :: 0 <= j < |b| ==> IsSlot(sc, b[j], lo + j)
  }

  ghost predicate IsSlot(sc: Scene, item: Item, k: nat)
    requires k < |sc.index| && k < U32_BOUND
  {
    sc.KeyOf(k) == Some(item.key) && item.bytes == sc.FrameOf(k)
  }

  /** The most recent entries are the slots `[lo, hi)`. */
  ghost predicate Tail(sc: Scene, items: seq<Item>, lo: nat, hi: nat)
    requires lo <= hi <= |sc.index| && hi <= U32_BOUND
  {
    exists a, b :: items == a + b && IsSpan(sc, b, lo, hi)
  }

  lemma NoTail(sc: Scene, items: seq<Item>, lo: nat)
    requires lo <= |sc.index| && lo <= U32_BOUND
    ensures Tail(sc, items, lo, lo)
  {
    assert items == items + [] && IsSpan(sc, [], lo, lo);
  }

  lemma {:induction false} SpanTotal(sc: Scene, b: seq<Item>, lo: nat, hi: nat)
    requires lo <= hi <= |sc.index| && hi <= U32_BOUND && IsSpan(sc, b, lo, hi)
    ensures Total(b) == SpanBytes(sc, lo, hi)
  {
    hide Total, Scene.FrameOf, Scene.KeyOf;
    if lo == hi {
      assert b == [];
      NoTotal();
    } else {
      var n := |b| - 1;
      assert IsSlot(sc, b[n], lo + n);
      assert b == b[..n] + [b[n]];
      TotalSnoc(b[..n], b[n]);
      SpanTotal(sc, b[..n], lo, hi - 1);
    }
  }

  lemma {:induction false} SpanLacks(sc: Scene, b: seq<Item>, lo: nat, hi: nat, s: nat)
    requires lo <= hi <= s < |sc.index| && s < U32_BOUND && IsSpan(sc, b, lo, hi) && sc.KeyOf(s).Some?
    ensures sc.KeyOf(s).value !in Table(b)
  {
    hide Scene.FrameOf, Scene.KeyOf;
    if b != [] {
      assert IsSlot(sc, b[0], lo);
      KeysDiffer(sc, lo, s);
      forall j | 0 <= j < |b[1..]| ensures IsSlot(sc, b[1..][j], lo + 1 + j) {
        assert IsSlot(sc, b[j + 1], lo + (j + 1));
      }
      SpanLacks(sc, b[1..], lo + 1, hi, s);
    }
  }

  lemma SpanNext(sc: Scene, b: seq<Item>, lo: nat, hi: nat, item: Item)
    requires lo <= hi < |sc.index| && hi < U32_BOUND && IsSpan(sc, b, lo, hi) && IsSlot(sc, item, hi)
    ensures IsSpan(sc, b + [item], lo, hi + 1)
  {
    hide IsSlot;
    forall j | 0 <= j < |b + [item]| ensures IsSlot(sc, (b + [item])[j], lo + j) {
      if j < |b| { assert IsSlot(sc, b[j], lo + j); }
    }
  }

  /** Using an entry moves it to the recent end, behind whatever was there. */
  lemma UsedTail(st: State, a: seq<Item>, b: seq<Item>, key: Key)
    requires st.items == a + b && key !in Table(b) && key in Table(st.items)
    ensures StepGet(st, key, true).items
            == Minus(a, {key}) + (b + [Item(key, Table(st.items)[key].bytes, st.clock + 1)])
  {
    hide Table, Minus;
    R.GetShape(st, key);
    R.MinusJoin(a, b, {key});
    MinusAbsent(b, key);
    assert Minus(a, {key}) + b + [Item(key, Table(st.items)[key].bytes, st.clock + 1)]
           == Minus(a, {key}) + (b + [Item(key, Table(st.items)[key].bytes, st.clock + 1)]);
  }

  /** Storing an entry puts it there, and evicts nothing of a tail that leaves room for it. */
  lemma StoredTail(st: State, a: seq<Item>, b: seq<Item>, key: Key, bytes: Bytes) returns (a': seq<Item>, item: Item)
    requires st.items == a + b && key !in Table(b) && FitsIn(b, st.cap, |bytes|)
    ensures item.key == key && item.bytes == bytes
    ensures StepPut(StepGet(st, key, true), key, bytes, true).items == a' + (b + [item])
  {
    R.PutShape(st, key, bytes);
    hide Table, Minus, StepGet, StepPut, Shrunk;
    R.MinusJoin(a, b, {key});
    MinusAbsent(b, key);
    var m := R.ShrunkKeeps(Minus(a, {key}), b, st.cap, |bytes|);
    var stamp :| StepPut(StepGet(st, key, true), key, bytes, true).items
                 == Shrunk(Minus(st.items, {key}), st.cap, |bytes|) + [Item(key, bytes, stamp)];
    a', item := Minus(a, {key})[m..], Item(key, bytes, stamp);
    assert a' + b + [item] == a' + (b + [item]);
  }

  /** One fed slot joins the recent end. */
  lemma FeedOneTail(sc: Scene, st: State, held: map<nat, Bytes>, k0: nat, s: nat, k1: nat)
    requires sc.Whole() && k0 <= s <= k1 < |sc.index| && k1 < U32_BOUND && sc.KeyOf(0).Some?
    requires sc.SlotTidy(st.items, s) && Tail(sc, st.items, k0, s)
    requires forall i :: i in held ==> i < |sc.cts| && held[i] == sc.cts[i]
    requires st.cap.Some? ==> SpanBytes(sc, k0, k1 + 1) <= st.cap.value
    requires Feed(sc.index[s], sc.d, sc.ns, sc.id, s, st, held).ok
    ensures Tail(sc, Feed(sc.index[s], sc.d, sc.ns, sc.id, s, st, held).st.items, k0, s + 1)
  {
    hide *;
    var now := Feed(sc.index[s], sc.d, sc.ns, sc.id, s, st, held).st;
    var a, b := TailParts(sc, st.items, k0, s);
    KeysDiffer(sc, 0, s);
    var key, frame := sc.KeyOf(s).value, sc.FrameOf(s);
    SpanLacks(sc, b, k0, s, s);
    FedSlot(sc, st, held, s);
    var item: Item;
    if key in Table(st.items) {
      UsedTail(st, a, b, key);
      item := Item(key, frame, st.clock + 1);
      a := Minus(a, {key});
    } else {
      SpanTotal(sc, b, k0, s);
      SpanBytesGrow(sc, k0, s + 1, k1 + 1);
      TailLeavesRoom(sc, b, k0, s, st.cap);
      a, item := StoredTail(st, a, b, key, frame);
    }
    IsSlotIs(sc, item, s);
    SpanNext(sc, b, k0, s, item);
    TailIs(sc, now.items, a, b + [item], k0, s + 1);
  }

  lemma TailParts(sc: Scene, items: seq<Item>, lo: nat, hi: nat) returns (a: seq<Item>, b: seq<Item>)
    requires lo <= hi <= |sc.index| && hi <= U32_BOUND && Tail(sc, items, lo, hi)
    ensures items == a + b && IsSpan(sc, b, lo, hi)
  {
    a, b :| items == a + b && IsSpan(sc, b, lo, hi);
  }

  lemma TailIs(sc: Scene, items: seq<Item>, a: seq<Item>, b: seq<Item>, lo: nat, hi: nat)
    requires lo <= hi <= |sc.index| && hi <= U32_BOUND && items == a + b && IsSpan(sc, b, lo, hi)
    ensures Tail(sc, items, lo, hi)
  {
  }

  lemma IsSlotIs(sc: Scene, item: Item, k: nat)
    requires k < |sc.index| && k < U32_BOUND && sc.KeyOf(k) == Some(item.key) && item.bytes == sc.FrameOf(k)
    ensures IsSlot(sc, item, k)
  {
  }

  lemma TailLeavesRoom(sc: Scene, b: seq<Item>, k0: nat, s: nat, cap: Option<nat>)
    requires s < |sc.index| && s < U32_BOUND && k0 <= s && Total(b) == SpanBytes(sc, k0, s)
    requires cap.Some? ==> SpanBytes(sc, k0, s + 1) <= cap.value
    ensures FitsIn(b, cap, |sc.FrameOf(s)|)
  {
    hide Scene.FrameOf, Total;
  }

  /** What a fed slot leaves, in a cache where it is genuine or absent. */
  lemma FedSlot(sc: Scene, st: State, held: map<nat, Bytes>, s: nat)
    requires sc.Whole() && s < |sc.index| && s < U32_BOUND && sc.KeyOf(s).Some? && sc.SlotTidy(st.items, s)
    requires forall i :: i in held ==> i < |sc.cts| && held[i] == sc.cts[i]
    requires Feed(sc.index[s], sc.d, sc.ns, sc.id, s, st, held).ok
    ensures var now, key := Feed(sc.index[s], sc.d, sc.ns, sc.id, s, st, held).st, sc.KeyOf(s).value;
            && (key in Table(st.items) ==>
                  now == StepGet(st, key, true) && Table(st.items)[key].bytes == sc.FrameOf(s))
            && (key !in Table(st.items) ==> now == StepPut(StepGet(st, key, true), key, sc.FrameOf(s), true))
  {
    hide Feed, Step, StepGet, StepPut, Table, Frame, C.AllOpen, C.Binds, ValidatedKey, HeldChunks, Scene.FrameOf,
      ChunksOf, Deframed, Coverage, C.Genuine;
    FeedIs(sc.index[s], sc.d, sc.ns, sc.id, s, st, held);
    TidyHit(sc, st.items, s);
    GetStep(sc, st, s);
    SlotOrder(sc, s);
    HeldIsFrame(sc, held, s);
    var key, chunks := sc.KeyOf(s).value, HeldChunks(held, sc.index[s].chunkStart, Stop(sc.index[s]));
    if chunks.Some? { PutStep(sc, StepGet(st, key, true), s, Frame(chunks.value)); }
  }

  /** Feeding uploaded chunks, all the way through, within a budget that has room for all the slots. */
  lemma {:induction false} FeedTail(sc: Scene, st: State, held: map<nat, Bytes>, k0: nat, s: nat, k1: nat)
    requires sc.Whole() && Short(sc.index) && k0 <= s <= k1 + 1 && k1 < |sc.index| && k1 < U32_BOUND
    requires sc.KeyOf(0).Some? && Sane(st) && AllTidy(sc, st.items) && Tail(sc, st.items, k0, s)
    requires forall i :: i in held ==> i < |sc.cts| && held[i] == sc.cts[i]
    requires st.cap.Some? ==> SpanBytes(sc, k0, k1 + 1) <= st.cap.value
    requires FeedAll(sc, st, held, s, k1).ok
    ensures Tail(sc, FeedAll(sc, st, held, s, k1).st.items, k0, k1 + 1)
    decreases k1 + 1 - s
  {
    hide *;
    FeedAllNext(sc, st, held, s, k1);
    if s <= k1 {
      var one := Feed(sc.index[s], sc.d, sc.ns, sc.id, s, st, held);
      TidySlot(sc, st.items, s);
      FeedOneTail(sc, st, held, k0, s, k1);
      FeedOneSpares(sc, st, held, s, s, s);
      SameCap(sc, st, one.st, s, s);
      FeedOneTidy(sc, st, held, s);
      FeedTail(sc, one.st, held, k0, s + 1, k1);
    }
  }

  lemma TidySlot(sc: Scene, items: seq<Item>, s: nat)
    requires AllTidy(sc, items) && s < |sc.index| && s < U32_BOUND
    ensures sc.SlotTidy(items, s)
  {
  }

  lemma SameCap(sc: Scene, was: State, now: State, k0: nat, k1: nat)
    requires Spares(sc, was, now, k0, k1)
    ensures now.cap == was.cap
  {
  }

  lemma FeedOneTidy(sc: Scene, st: State, held: map<nat, Bytes>, s: nat)
    requires sc.Whole() && Short(sc.index) && s < |sc.index| && s < U32_BOUND
    requires Sane(st) && AllTidy(sc, st.items)
    requires forall i :: i in held ==> i < |sc.cts| && held[i] == sc.cts[i]
    ensures AllTidy(sc, Feed(sc.index[s], sc.d, sc.ns, sc.id, s, st, held).st.items)
  {
    hide *;
    SaneInOrder(st);
    FeedTidy(sc, st, held, s, s);
    FeedAllNext(sc, st, held, s, s);
    var one := Feed(sc.index[s], sc.d, sc.ns, sc.id, s, st, held);
    FeedAllNext(sc, one.st, held, s + 1, s);
  }

  // ---- the next request ----

  /** The slots at the recent end are held. */
  lemma {:induction false} TailHeld(sc: Scene, items: seq<Item>, clock: nat, lo: nat, hi: nat, k: nat)
    requires lo <= k < hi <= |sc.index| && hi <= U32_BOUND && Tail(sc, items, lo, hi) && Ordered(items, 0, clock)
    ensures sc.SlotIn(items, k)
  {
    hide Scene.KeyOf, Scene.FrameOf, Table;
    var a, b := TailParts(sc, items, lo, hi);
    assert IsSlot(sc, b[k - lo], lo + (k - lo)) && items[|a| + (k - lo)] == b[k - lo];
    TableOf(items, 0, clock, |a| + (k - lo));
  }

  /** Slots that are held as their genuine frames take up their bytes. */
  lemma {:induction false} HeldTakeRoom(sc: Scene, items: seq<Item>, clock: nat, lo: nat, hi: nat)
    requires lo <= hi <= |sc.index| && hi <= U32_BOUND && Ordered(items, 0, clock)
    requires forall k :: lo <= k < hi ==> sc.SlotIn(items, k) && sc.SlotTidy(items, k)
    ensures SpanBytes(sc, lo, hi) <= Total(items)
    decreases hi - lo
  {
    hide Scene.KeyOf, Scene.FrameOf, Table, Minus, Total, Ordered;
    if lo < hi {
      assert sc.SlotIn(items, hi - 1) && sc.SlotTidy(items, hi - 1);
      var key := sc.KeyOf(hi - 1).value;
      TotalMinus(items, 0, clock, key);
      OrderedMinus(items, 0, clock, {key});
      TableMinus(items, {key});
      forall k | lo <= k < hi - 1 ensures sc.SlotIn(Minus(items, {key}), k) && sc.SlotTidy(Minus(items, {key}), k) {
        assert sc.SlotIn(items, k) && sc.SlotTidy(items, k);
        KeysDiffer(sc, k, hi - 1);
      }
      HeldTakeRoom(sc, Minus(items, {key}), clock, lo, hi - 1);
    }
  }

  /**
   After a served request for genuine slots, all of them are offered, so that the same request fetches
   nothing, exactly if their frames fit the budget together.
   */
  lemma ServedIsCached(sc: Scene, st: State, k0: nat, k1: nat, routed: Answers, direct: set<nat>, proxied: Answers)
    requires sc.Whole() && Short(sc.index) && k0 <= k1 < |sc.index| && k1 < U32_BOUND && sc.KeyOf(0).Some?
    requires Routed(sc, routed, direct) && Routed(sc, proxied, {}) && (C.Unambiguous(sc.d) || direct == {})
    requires Sane(st) && AllTidy(sc, st.items) && Serve(sc, st, k0, k1, routed, direct, proxied).ok
    ensures AllHit(sc, Serve(sc, st, k0, k1, routed, direct, proxied).st.items, k0, k1)
            <==> st.cap.None? || SpanBytes(sc, k0, k1 + 1) <= st.cap.value
  {
    hide *;
    var now := Serve(sc, st, k0, k1, routed, direct, proxied).st;
    RequestKeepsTidy(sc, st, k0, k1, routed, direct, proxied);
    RequestSpares(sc, st, k0, k1, routed, direct, proxied);
    SameCap(sc, st, now, k0, k1);
    if AllHit(sc, now.items, k0, k1) { HitsTakeRoom(sc, now, k0, k1); }
    if st.cap.None? || SpanBytes(sc, k0, k1 + 1) <= st.cap.value {
      ServedTail(sc, st, k0, k1, routed, direct, proxied);
      TailHits(sc, now, k0, k1);
    }
  }

  lemma HitsTakeRoom(sc: Scene, st: State, k0: nat, k1: nat)
    requires sc.Whole() && k0 <= k1 < |sc.index| && k1 < U32_BOUND && Sane(st) && AllTidy(sc, st.items)
    requires AllHit(sc, st.items, k0, k1)
    ensures st.cap.Some? ==> SpanBytes(sc, k0, k1 + 1) <= st.cap.value
  {
    hide Scene.Whole, Scene.SlotTidy, Scene.SlotIn, Scene.FrameOf, HitOf, Total, Ordered, ChunksOf;
    forall k | k0 <= k < k1 + 1 ensures sc.SlotIn(st.items, k) && sc.SlotTidy(st.items, k) {
      TidySlot(sc, st.items, k);
      TidyHit(sc, st.items, k);
    }
    HeldTakeRoom(sc, st.items, st.clock, k0, k1 + 1);
  }

  lemma TailHits(sc: Scene, st: State, k0: nat, k1: nat)
    requires sc.Whole() && k0 <= k1 < |sc.index| && k1 < U32_BOUND && Sane(st) && AllTidy(sc, st.items)
    requires Tail(sc, st.items, k0, k1 + 1)
    ensures AllHit(sc, st.items, k0, k1)
  {
    hide Scene.Whole, Scene.SlotTidy, Scene.SlotIn, Scene.FrameOf, HitOf, Total, Ordered, ChunksOf, Tail;
    forall k | k0 <= k <= k1 ensures HitOf(sc, st.items, k).Some? {
      TidySlot(sc, st.items, k);
      TailHeld(sc, st.items, st.clock, k0, k1 + 1, k);
      TidyHit(sc, st.items, k);
    }
  }

  /** A served request leaves its slots at the recent end, if they all fit. */
  lemma ServedTail(sc: Scene, st: State, k0: nat, k1: nat, routed: Answers, direct: set<nat>, proxied: Answers)
    requires sc.Whole() && Short(sc.index) && k0 <= k1 < |sc.index| && k1 < U32_BOUND && sc.KeyOf(0).Some?
    requires Routed(sc, routed, direct) && Routed(sc, proxied, {}) && (C.Unambiguous(sc.d) || direct == {})
    requires Sane(st) && AllTidy(sc, st.items) && Serve(sc, st, k0, k1, routed, direct, proxied).ok
    requires st.cap.None? || SpanBytes(sc, k0, k1 + 1) <= st.cap.value
    ensures Tail(sc, Serve(sc, st, k0, k1, routed, direct, proxied).st.items, k0, k1 + 1)
  {
    hide *;
    SaneInOrder(st);
    var looked := LookAll(sc, st, k0, k1);
    ServeIs(sc, st, k0, k1, routed, direct, proxied);
    FetchedIs(sc, st.items, k0, k1, routed, direct);
    var held := Fetched(sc, st.items, k0, k1, routed).value;
    LookKeeps(sc, st, k0, k1);
    LookSane(sc, st, k0, k1);
    SameTidy(sc, st.items, looked.items);
    FeedSane(sc, looked, held, k0, k1);
    AllTidySpan(sc, st.items, k0, k1);
    var first := FeedAll(sc, looked, held, k0, k1);
    if first.ok {
      SlotInFile(sc, k0);
      ListedComplements(sc, st.items, held, k0, k1);
      FirstExact(sc, st, held, k0, k1);
      DirectIsOpening(sc, st.items, k0, k1, routed, direct);
      OpenIsUploaded(sc, st.items, k0, k1, routed, direct);
      NoTail(sc, looked.items, k0);
      FeedTail(sc, looked, held, k0, k0, k1);
    } else {
      RepairedIsGenuine(sc, held, routed, direct, proxied);
      var evicted := EvictAll(sc, first.st, k0, k1);
      AllTidyBut(sc, looked.items, k0, k1);
      FeedTidyBut(sc, looked, held, k0, k0, k1);
      EvictTidies(sc, first.st, k0, k1);
      EvictOnlyForgets(sc, first.st, k0, k1);
      FeedSpares(sc, looked, held, k0, k0, k1);
      SameCap(sc, looked, first.st, k0, k1);
      EvictSpares(sc, first.st, k0, k0, k1);
      SameCap(sc, first.st, evicted, k0, k1);
      NoTail(sc, evicted.items, k0);
      FeedTail(sc, evicted, Repaired(held, direct, proxied).value, k0, k0, k1);
    }
  }

  /**
   And then the same request is served again whatever the sources say by then, as nothing is fetched.
   */
  lemma ServedAgain(sc: Scene, st: State, k0: nat, k1: nat, routed: Answers, direct: set<nat>, proxied: Answers,
                    again: Try)
    requires sc.Whole() && Short(sc.index) && k0 <= k1 < |sc.index| && k1 < U32_BOUND && sc.KeyOf(0).Some?
    requires Routed(sc, routed, direct) && Routed(sc, proxied, {}) && (C.Unambiguous(sc.d) || direct == {})
    requires Sane(st) && AllTidy(sc, st.items) && Serve(sc, st, k0, k1, routed, direct, proxied).ok
    requires st.cap.Some? ==> SpanBytes(sc, k0, k1 + 1) <= st.cap.value
    ensures var now := Serve(sc, st, k0, k1, routed, direct, proxied).st;
            && Listed(sc, now.items, k0, k1) == {}
            && Serve(sc, now, k0, k1, again.routed, again.direct, again.proxied).ok
  {
    hide *;
    var now := Serve(sc, st, k0, k1, routed, direct, proxied).st;
    SlotInFile(sc, k0);
    ServedIsCached(sc, st, k0, k1, routed, direct, proxied);
    RequestKeepsTidy(sc, st, k0, k1, routed, direct, proxied);
    SaneInOrder(now);
    AllTidySpan(sc, now.items, k0, k1);
    TidyOffersOpen(sc, now.items, k0, k1);
    PoisonStays(sc, now, k0, k1, again.routed, again.direct, again.proxied);
    NothingListed(sc, now.items, k0, k1, again.routed, again.direct);
    FetchedKeys(sc, now.items, k0, k1, again.routed, again.direct, again.proxied);
  }
}
