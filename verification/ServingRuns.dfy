/**
 What a cache that does not fail keeps from one request to the next, over any run of requests and other
 cache calls, and when each request of the run is served.
 */
module ServingRuns {
  import opened Machine
  import opened Wrappers
  import opened Framing
  import opened FragmentIndex
  import C = Content
  import opened BlobKeys
  import opened Lru
  import CacheRuns
  import opened Playback
  import opened ServingModel
  import opened ServingLaws

  // ---- within the budget ----

  /** In order, and within the budget: what every cache object always is. */
  ghost predicate Sane(st: State) { CacheRuns.InOrder(st) && FitsIn(st.items, st.cap, 0) }

  lemma {:induction false} TotalFalls(items: seq<Item>, gone: set<Key>)
    ensures Total(Minus(items, gone)) <= Total(items)
  {
    if items != [] {
      TotalFalls(items[1..], gone);
      if items[0].key !in gone { assert Minus(items, gone)[1..] == Minus(items[1..], gone); }
    }
  }

  lemma TotalSnoc(items: seq<Item>, item: Item)
    ensures Total(items + [item]) == Total(items) + |item.bytes|
  {
    TotalJoin(items, [item]);
    assert [item][1..] == [];
  }

  /** Capacity eviction makes room for what is then stored. */
  lemma PutSane(s: State, key: Key, bytes: Bytes, wrote: bool)
    requires FitsIn(s.items, s.cap, 0)
    ensures FitsIn(StepPut(s, key, bytes, wrote).items, s.cap, 0) && StepPut(s, key, bytes, wrote).cap == s.cap
  {
    hide Minus, Total, Shrunk;
    TotalFalls(s.items, {key});
    if s.cap.Some? && |bytes| > s.cap.value {
    } else {
      var rest := Minus(s.items, {key});
      var n := ShrunkIsShortest(rest, s.cap, |bytes|);
      TotalSnoc(Shrunk(rest, s.cap, |bytes|), Item(key, bytes, s.clock + 1));
    }
  }

  lemma GetSane(s: State, key: Key, readable: bool)
    requires Sane(s)
    ensures FitsIn(StepGet(s, key, readable).items, s.cap, 0) && StepGet(s, key, readable).cap == s.cap
  {
    hide Minus, Total, Ordered, Table;
    if Lru.Lookup(s.items, key).Some? { GetTotal(s, key); }
  }

  lemma StepSane(s: State, op: Op)
    requires Sane(s)
    ensures Sane(Step(s, op))
  {
    CacheRuns.StepInOrder(s, op);
    hide CacheRuns.InOrder, Canonical, Minus, Shrunk, Total, Lowercase, FileKeys, StepPut, StepGet;
    match op {
      case Put(ns, id, sub, bytes, wrote) =>
        var k := Canonical(ns, id, sub);
        if k.Some? { PutSane(s, k.value, bytes, wrote); }
      case Get(ns, id, sub, readable) =>
        var k := Canonical(ns, id, sub);
        if k.Some? { GetSane(s, k.value, readable); }
      case Evict(ns, id, sub) =>
        var k := Canonical(ns, id, sub);
        if k.Some? { TotalFalls(s.items, {k.value}); }
      case EvictPrefix(ns, id) => TotalFalls(s.items, FileKeys(s.items, ns, Lowercase(id)));
      case SetCap(cap) => var n := ShrunkIsShortest(s.items, Some(cap), 0);
      case Clear => NoTotal();
    }
  }

  lemma NoTotal()
    ensures Total([]) == 0
  {
  }

  lemma GetTotal(s: State, key: Key)
    requires CacheRuns.InOrder(s) && Lru.Lookup(s.items, key).Some?
    ensures Total(Minus(s.items, {key}) + [Item(key, Lru.Lookup(s.items, key).value, s.clock + 1)]) == Total(s.items)
    ensures Total(Minus(s.items, {key})) <= Total(s.items)
  {
    hide Minus, Table, Total, Ordered;
    TotalMinus(s.items, 0, s.clock, key);
    TotalSnoc(Minus(s.items, {key}), Item(key, Lru.Lookup(s.items, key).value, s.clock + 1));
  }

  lemma {:induction false} LookSane(sc: Scene, st: State, s: nat, f1: nat)
    requires Sane(st) && f1 < U32_BOUND
    ensures Sane(LookAll(sc, st, s, f1))
    decreases f1 + 1 - s
  {
    hide Step, Sane;
    if s <= f1 {
      StepSane(st, Get(sc.ns, sc.id, s, true));
      LookSane(sc, Step(st, Get(sc.ns, sc.id, s, true)), s + 1, f1);
    }
  }

  lemma {:induction false} FeedSane(sc: Scene, st: State, held: map<nat, Bytes>, k0: nat, k1: nat)
    requires k1 < |sc.index| && k1 < U32_BOUND && Sane(st)
    ensures Sane(FeedAll(sc, st, held, k0, k1).st)
    decreases k1 + 1 - k0
  {
    hide *;
    FeedAllNext(sc, st, held, k0, k1);
    if k0 <= k1 {
      FeedIs(sc.index[k0], sc.d, sc.ns, sc.id, k0, st, held);
      StepSane(st, Get(sc.ns, sc.id, k0, true));
      SlotOrder(sc, k0);
      var got := Step(st, Get(sc.ns, sc.id, k0, true));
      var chunks := HeldChunks(held, sc.index[k0].chunkStart, Stop(sc.index[k0]));
      if chunks.Some? { StepSane(got, Op.Put(sc.ns, sc.id, k0, Frame(chunks.value), true)); }
      FeedSane(sc, Feed(sc.index[k0], sc.d, sc.ns, sc.id, k0, st, held).st, held, k0 + 1, k1);
    }
  }

  // ---- genuine entries stay genuine ----

  /** Every slot of the file is held as its genuine frame or not at all. */
  ghost predicate AllTidy(sc: Scene, items: seq<Item>) {
    forall k :: 0 <= k < |sc.index| && k < U32_BOUND ==> sc.SlotTidy(items, k)
  }

  /** The fragments are short enough for the count in a frame. */
  ghost predicate Short(index: seq<FragmentEntry>) { forall k :: 0 <= k < |index| ==> index[k].chunkLen < U32_BOUND }

  lemma AllTidySpan(sc: Scene, items: seq<Item>, k0: nat, k1: nat)
    requires AllTidy(sc, items) && k1 < |sc.index| && k1 < U32_BOUND
    ensures Tidy(sc, items, k0, k1)
  {
  }

  /** If the key is that of a slot, these bytes are its genuine frame. */
  ghost predicate Genuine(sc: Scene, key: Option<Key>, bytes: Bytes) {
    forall k :: 0 <= k < |sc.index| && k < U32_BOUND && key.Some? && sc.KeyOf(k) == key ==> bytes == sc.FrameOf(k)
  }

  /** Storing the genuine frame of a slot, or nothing for the file, leaves everything genuine. */
  lemma TidyStore(sc: Scene, was: seq<Item>, now: seq<Item>, key: Option<Key>, bytes: Bytes)
    requires AllTidy(sc, was) && Short(sc.index) && OnlyStores(was, now, key, bytes)
    requires Genuine(sc, key, bytes)
    ensures AllTidy(sc, now)
  {
    hide Scene.KeyOf, Lru.Lookup, Scene.FrameOf;
    forall k | 0 <= k < |sc.index| && k < U32_BOUND ensures sc.SlotTidy(now, k) {
      assert sc.SlotTidy(was, k);
    }
  }

  lemma ForgetTidy(sc: Scene, was: seq<Item>, now: seq<Item>)
    requires AllTidy(sc, was) && OnlyForgets(was, now)
    ensures AllTidy(sc, now)
  {
    hide Scene.KeyOf, Lru.Lookup, Scene.FrameOf;
    forall k | 0 <= k < |sc.index| && k < U32_BOUND ensures sc.SlotTidy(now, k) {
      assert sc.SlotTidy(was, k);
    }
  }

  lemma SameTidy(sc: Scene, was: seq<Item>, now: seq<Item>)
    requires AllTidy(sc, was) && SameLookups(now, was)
    ensures AllTidy(sc, now)
  {
    hide Lru.Lookup;
    assert OnlyForgets(was, now);
    ForgetTidy(sc, was, now);
  }

  /** Feeding from uploaded chunks, whether or not it gets through. */
  lemma {:induction false} FeedTidy(sc: Scene, st: State, held: map<nat, Bytes>, k0: nat, k1: nat)
    requires sc.Whole() && Short(sc.index) && k1 < |sc.index| && k1 < U32_BOUND
    requires CacheRuns.InOrder(st) && AllTidy(sc, st.items)
    requires forall i :: i in held ==> i < |sc.cts| && held[i] == sc.cts[i]
    ensures AllTidy(sc, FeedAll(sc, st, held, k0, k1).st.items)
    decreases k1 + 1 - k0
  {
    hide *;
    FeedAllNext(sc, st, held, k0, k1);
    if k0 <= k1 {
      FeedIs(sc.index[k0], sc.d, sc.ns, sc.id, k0, st, held);
      SlotOrder(sc, k0);
      KeyIs(sc, k0);
      GetKeeps(sc, st, k0);
      var got := Step(st, Get(sc.ns, sc.id, k0, true));
      var chunks := HeldChunks(held, sc.index[k0].chunkStart, Stop(sc.index[k0]));
      SameTidy(sc, st.items, got.items);
      if chunks.Some? {
        var op := Op.Put(sc.ns, sc.id, k0, Frame(chunks.value), true);
        CacheRuns.StepInOrder(got, op);
        PutOnlyStores(got, sc.ns, sc.id, k0, Frame(chunks.value), true);
        HeldIsFrame(sc, held, k0);
        OwnKey(sc, k0, Frame(chunks.value));
        TidyStore(sc, got.items, Step(got, op).items, sc.KeyOf(k0), Frame(chunks.value));
      }
      FeedTidy(sc, Feed(sc.index[k0], sc.d, sc.ns, sc.id, k0, st, held).st, held, k0 + 1, k1);
    }
  }

  lemma HeldIsFrame(sc: Scene, held: map<nat, Bytes>, k: nat)
    requires sc.Whole() && k < |sc.index| && k < U32_BOUND
    requires forall i :: i in held ==> i < |sc.cts| && held[i] == sc.cts[i]
    ensures var chunks := HeldChunks(held, sc.index[k].chunkStart, End(sc.index, k));
            chunks.Some? ==> Frame(chunks.value) == sc.FrameOf(k)
  {
    hide C.Binds, C.Genuine, Frame, Coverage, HeldChunks;
    SlotInFile(sc, k);
    var chunks := HeldChunks(held, sc.index[k].chunkStart, End(sc.index, k));
    if chunks.Some? { assert chunks.value == ChunksOf(sc, k); }
  }

  lemma OwnKey(sc: Scene, k: nat, bytes: Bytes)
    requires k < |sc.index| && k < U32_BOUND && bytes == sc.FrameOf(k)
    ensures Genuine(sc, sc.KeyOf(k), bytes)
  {
    hide Scene.FrameOf, Scene.KeyOf;
    forall j | 0 <= j < |sc.index| && j < U32_BOUND && sc.KeyOf(k).Some? && sc.KeyOf(j) == sc.KeyOf(k)
      ensures bytes == sc.FrameOf(j)
    {
      KeysDiffer(sc, k, j);
    }
  }

  // ---- what a lying link leaves behind ----

  /** Every slot outside the span is held as its genuine frame or not at all. */
  ghost predicate TidyBut(sc: Scene, items: seq<Item>, k0: nat, k1: nat) {
    forall k :: 0 <= k < |sc.index| && k < U32_BOUND && !(k0 <= k <= k1) ==> sc.SlotTidy(items, k)
  }

  lemma TidyButStore(sc: Scene, was: seq<Item>, now: seq<Item>, k0: nat, k1: nat, s: nat, bytes: Bytes)
    requires k0 <= s <= k1 && s < U32_BOUND && TidyBut(sc, was, k0, k1) && OnlyStores(was, now, sc.KeyOf(s), bytes)
    ensures TidyBut(sc, now, k0, k1)
  {
    hide Scene.KeyOf, Lru.Lookup, Scene.FrameOf;
    forall k | 0 <= k < |sc.index| && k < U32_BOUND && !(k0 <= k <= k1) ensures sc.SlotTidy(now, k) {
      assert sc.SlotTidy(was, k);
      KeysDiffer(sc, k, s);
    }
  }

  /** Whatever chunks a span is fed from, no slot outside it changes but by eviction. */
  lemma {:induction false} FeedTidyBut(sc: Scene, st: State, held: map<nat, Bytes>, k0: nat, s: nat, k1: nat)
    requires k0 <= s && k1 < |sc.index| && k1 < U32_BOUND && CacheRuns.InOrder(st) && TidyBut(sc, st.items, k0, k1)
    ensures TidyBut(sc, FeedAll(sc, st, held, s, k1).st.items, k0, k1)
    decreases k1 + 1 - s
  {
    hide *;
    FeedAllNext(sc, st, held, s, k1);
    if s <= k1 {
      FeedIs(sc.index[s], sc.d, sc.ns, sc.id, s, st, held);
      SlotOrder(sc, s);
      KeyIs(sc, s);
      GetKeeps(sc, st, s);
      var got := Step(st, Get(sc.ns, sc.id, s, true));
      var chunks := HeldChunks(held, sc.index[s].chunkStart, Stop(sc.index[s]));
      SameIsStored(got.items, st.items, sc.KeyOf(s));
      TidyButStore(sc, st.items, got.items, k0, k1, s, []);
      if chunks.Some? {
        var op := Op.Put(sc.ns, sc.id, s, Frame(chunks.value), true);
        CacheRuns.StepInOrder(got, op);
        PutOnlyStores(got, sc.ns, sc.id, s, Frame(chunks.value), true);
        TidyButStore(sc, got.items, Step(got, op).items, k0, k1, s, Frame(chunks.value));
      }
      FeedTidyBut(sc, Feed(sc.index[s], sc.d, sc.ns, sc.id, s, st, held).st, held, k0, s + 1, k1);
    }
  }

  lemma SameIsStored(now: seq<Item>, was: seq<Item>, key: Option<Key>)
    requires SameLookups(now, was)
    ensures OnlyStores(was, now, key, [])
  {
    hide Lru.Lookup;
  }

  lemma {:induction false} EvictOnlyForgets(sc: Scene, st: State, s: nat, f1: nat)
    requires f1 < U32_BOUND && Sane(st)
    ensures OnlyForgets(st.items, EvictAll(sc, st, s, f1).items) && Sane(EvictAll(sc, st, s, f1))
    decreases f1 + 1 - s
  {
    hide Step, Sane, Lru.Lookup, Canonical, CacheRuns.InOrder;
    if s <= f1 {
      var op := Op.Evict(sc.ns, sc.id, s);
      var now := Step(st, op);
      StepSane(st, op);
      SaneInOrder(st);
      forall k ensures Lru.Lookup(now.items, k) == None || Lru.Lookup(now.items, k) == Lru.Lookup(st.items, k) {
        HeldOrNone(now.items, k);
        if k in Table(now.items) { KeptOrStored(st, op, k); }
      }
      EvictOnlyForgets(sc, now, s + 1, f1);
    }
  }

  lemma HeldOrNone(items: seq<Item>, k: Key)
    ensures k !in Table(items) ==> Lru.Lookup(items, k) == None
  {
    hide Table;
  }

  /** Evicting the span leaves nothing but genuine entries, whatever was fed. */
  lemma EvictTidies(sc: Scene, st: State, k0: nat, k1: nat)
    requires k1 < U32_BOUND && Sane(st) && TidyBut(sc, st.items, k0, k1)
    ensures AllTidy(sc, EvictAll(sc, st, k0, k1).items)
  {
    hide EvictAll, Sane, Lru.Lookup, Scene.KeyOf, Scene.FrameOf;
    SaneInOrder(st);
    EvictOnlyForgets(sc, st, k0, k1);
    EvictClears(sc, st, k0, k1);
    var now := EvictAll(sc, st, k0, k1).items;
    forall k | 0 <= k < |sc.index| && k < U32_BOUND ensures sc.SlotTidy(now, k) {
      if !(k0 <= k <= k1) { assert sc.SlotTidy(st.items, k); }
    }
  }

  lemma AllTidyBut(sc: Scene, items: seq<Item>, k0: nat, k1: nat)
    requires AllTidy(sc, items)
    ensures TidyBut(sc, items, k0, k1)
  {
  }

  /**
   With links that may say anything and an honest proxy, a request leaves the cache within its budget and
   every slot genuine, whether or not it is served: if it was, what came over the links opened, so it was
   what was uploaded; and if it was not, the span was evicted before it was fed anew.
   */
  lemma RequestKeepsTidy(sc: Scene, st: State, k0: nat, k1: nat, routed: Answers, direct: set<nat>, proxied: Answers)
    requires sc.Whole() && Short(sc.index) && k0 <= k1 < |sc.index| && k1 < U32_BOUND
    requires Routed(sc, routed, direct) && Routed(sc, proxied, {}) && (C.Unambiguous(sc.d) || direct == {})
    requires Sane(st) && AllTidy(sc, st.items)
    ensures var now := Serve(sc, st, k0, k1, routed, direct, proxied).st; Sane(now) && AllTidy(sc, now.items)
  {
    hide *;
    SaneInOrder(st);
    var looked := LookAll(sc, st, k0, k1);
    ServeIs(sc, st, k0, k1, routed, direct, proxied);
    FetchedIs(sc, st.items, k0, k1, routed, direct);
    var held := Fetched(sc, st.items, k0, k1, routed).value;
    LookKeeps(sc, st, k0, k1);
    LookSane(sc, st, k0, k1);
    SameTidy(sc, st.items, looked.items);
    FeedSane(sc, looked, held, k0, k1);
    AllTidySpan(sc, st.items, k0, k1);
    var first := FeedAll(sc, looked, held, k0, k1);
    if first.ok {
      SlotInFile(sc, k0);
      ListedComplements(sc, st.items, held, k0, k1);
      FirstExact(sc, st, held, k0, k1);
      DirectIsOpening(sc, st.items, k0, k1, routed, direct);
      OpenIsUploaded(sc, st.items, k0, k1, routed, direct);
      FeedTidy(sc, looked, held, k0, k1);
    } else if held.Keys !! direct {
      FeedTidy(sc, looked, held, k0, k1);
    } else {
      RepairedIsGenuine(sc, held, routed, direct, proxied);
      var evicted := EvictAll(sc, first.st, k0, k1);
      AllTidyBut(sc, looked.items, k0, k1);
      FeedTidyBut(sc, looked, held, k0, k0, k1);
      EvictTidies(sc, first.st, k0, k1);
      EvictOnlyForgets(sc, first.st, k0, k1);
      SaneInOrder(evicted);
      FeedSane(sc, evicted, Repaired(held, direct, proxied).value, k0, k1);
      FeedTidy(sc, evicted, Repaired(held, direct, proxied).value, k0, k1);
    }
  }

  lemma SaneInOrder(st: State)
    requires Sane(st)
    ensures CacheRuns.InOrder(st) && FitsIn(st.items, st.cap, 0)
  {
  }

  // ---- runs ----

  /** What may happen to the cache: a planned request for this file with its own sources, or any other call on it. */
  datatype Event =
    | Request(k0: nat, k1: nat, routed: Answers, direct: set<nat>, proxied: Answers)
    | Other(op: Op)

  /**
   A request is for slots of the file, its proxy is honest, and only its direct links may lie; another
   call stores nothing but the genuine frame under a key of the file.
   */
  ghost predicate Fair(sc: Scene, e: Event) {
    match e
    case Request(k0, k1, routed, direct, proxied) =>
      && k0 <= k1 < |sc.index| && k1 < U32_BOUND && Routed(sc, routed, direct) && Routed(sc, proxied, {})
      && (C.Unambiguous(sc.d) || direct == {})
    case Other(op) => op.Put? ==> Genuine(sc, CacheRuns.Target(op), op.bytes)
  }

  ghost predicate AllFair(sc: Scene, events: seq<Event>) { forall i :: 0 <= i < |events| ==> Fair(sc, events[i]) }

  /** The cache after these events. */
  ghost function After(sc: Scene, st: State, events: seq<Event>): State
    requires AllFair(sc, events)
  {
    if |events| == 0 then st
    else
      var n := |events| - 1;
      assert Fair(sc, events[n]);
      var before := After(sc, st, events[..n]);
      match events[n]
      case Request(k0, k1, routed, direct, proxied) => Serve(sc, before, k0, k1, routed, direct, proxied).st
      case Other(op) => Step(before, op)
  }

  /** Over any run every slot stays genuine, and the cache within its budget. */
  lemma {:induction false} RunKeepsTidy(sc: Scene, st: State, events: seq<Event>)
    requires sc.Whole() && Short(sc.index) && AllFair(sc, events) && Sane(st) && AllTidy(sc, st.items)
    ensures var now := After(sc, st, events); Sane(now) && AllTidy(sc, now.items)
    decreases |events|
  {
    hide Serve, Step, Sane, AllTidy, Scene.Whole, Routed, Short, C.Unambiguous;
    if |events| != 0 {
      var n := |events| - 1;
      assert Fair(sc, events[n]);
      RunKeepsTidy(sc, st, events[..n]);
      var before := After(sc, st, events[..n]);
      match events[n] {
        case Request(k0, k1, routed, direct, proxied) =>
          RequestKeepsTidy(sc, before, k0, k1, routed, direct, proxied);
        case Other(op) => OtherKeepsTidy(sc, before, op);
      }
    }
  }

  lemma OtherKeepsTidy(sc: Scene, st: State, op: Op)
    requires Short(sc.index) && Sane(st) && AllTidy(sc, st.items) && Fair(sc, Other(op))
    ensures Sane(Step(st, op)) && AllTidy(sc, Step(st, op).items)
  {
    hide Step, Canonical, Scene.KeyOf, Scene.FrameOf, FitsIn, AllTidy, Short, CacheRuns.InOrder, CacheRuns.Stamps;
    StepSane(st, op);
    var now, key := Step(st, op).items, if op.Put? then CacheRuns.Target(op) else None;
    var bytes := if op.Put? then op.bytes else [];
    forall k
      ensures Lru.Lookup(now, k) == None || Lru.Lookup(now, k) == Lru.Lookup(st.items, k)
              || (key == Some(k) && Lru.Lookup(now, k) == Some(bytes))
    {
      if k in Table(now) { KeptOrStored(st, op, k); }
    }
    TidyStore(sc, st.items, now, key, bytes);
  }

  lemma KeptOrStored(st: State, op: Op, k: Key)
    requires CacheRuns.InOrder(st) && k in Table(Step(st, op).items)
    ensures Lru.Lookup(Step(st, op).items, k) == Lru.Lookup(st.items, k)
            || (op.Put? && CacheRuns.Target(op) == Some(k) && Lru.Lookup(Step(st, op).items, k) == Some(op.bytes))
  {
    hide Step, Canonical, Table, CacheRuns.InOrder;
    CacheRuns.StepKeeps(st, op, k);
  }

  /**
   The condition of `ServedExactly`: no slot of the request is held, or every direct chunk it needs opens
   and the genuine frames up to the last slot held fit the budget, those over the budget left out.
   */
  ghost predicate Admits(sc: Scene, st: State, k0: nat, k1: nat, routed: Answers, direct: set<nat>)
    requires k1 < |sc.index| && k1 < U32_BOUND
  {
    || NoneHeld(sc, st.items, k0, k1)
    || (DirectOpens(sc, st.items, k0, k1, routed, direct)
        && (st.cap.None? || SpanNeeds(sc, st.items, st.cap.value, k0, k1) <= st.cap.value))
  }

  /** `ServedExactly` for a cache in which everything is genuine. */
  lemma ServedTidy(sc: Scene, st: State, k0: nat, k1: nat, routed: Answers, direct: set<nat>, proxied: Answers)
    requires sc.Whole() && Sane(st) && AllTidy(sc, st.items) && k0 <= k1 < |sc.index| && k1 < U32_BOUND
    requires Routed(sc, routed, direct) && Routed(sc, proxied, {}) && (C.Unambiguous(sc.d) || direct == {})
    ensures Serve(sc, st, k0, k1, routed, direct, proxied).ok <==> Admits(sc, st, k0, k1, routed, direct)
  {
    hide Serve, Scene.Whole, Routed, C.Unambiguous, SpanNeeds, DirectOpens, NoneHeld, Sane, AllTidy;
    SaneInOrder(st);
    AllTidySpan(sc, st.items, k0, k1);
    ServedExactly(sc, st, k0, k1, routed, direct, proxied);
  }

  /** Without direct links the condition is on the budget alone: where no slot is held, nothing is needed. */
  lemma HonestAdmits(sc: Scene, st: State, k0: nat, k1: nat, routed: Answers)
    requires k0 <= k1 < |sc.index| && k1 < U32_BOUND
    ensures Admits(sc, st, k0, k1, routed, {})
            <==> st.cap.None? || SpanNeeds(sc, st.items, st.cap.value, k0, k1) <= st.cap.value
  {
    hide Scene.SlotIn, Scene.FrameOf, HitOf;
    if st.cap.Some? { SpanNeedsNext(sc, st.items, st.cap.value, k0, k1); }
  }

  /** Any request of any run is served exactly under that condition on the cache it meets. */
  lemma EveryRequest(sc: Scene, st: State, events: seq<Event>, i: nat)
    requires sc.Whole() && Short(sc.index) && AllFair(sc, events)
    requires Sane(st) && AllTidy(sc, st.items) && i < |events| && events[i].Request?
    ensures events[i].k0 <= events[i].k1 < |sc.index| && events[i].k1 < U32_BOUND && AllFair(sc, events[..i])
    ensures var now, e := After(sc, st, events[..i]), events[i];
            Serve(sc, now, e.k0, e.k1, e.routed, e.direct, e.proxied).ok
            <==> Admits(sc, now, e.k0, e.k1, e.routed, e.direct)
  {
    assert Fair(sc, events[i]);
    hide Serve, Admits, Sane, AllTidy, Scene.Whole, Routed, Short, After, C.Unambiguous;
    var now, e := After(sc, st, events[..i]), events[i];
    RunKeepsTidy(sc, st, events[..i]);
    ServedTidy(sc, now, e.k0, e.k1, e.routed, e.direct, e.proxied);
  }

  // ---- refusals that stay ----

  /** The sources of one more request. */
  datatype Try = Try(routed: Answers, direct: set<nat>, proxied: Answers)

  /** The cache after a request for the same slots, over and over. */
  ghost function Tried(sc: Scene, st: State, k0: nat, k1: nat, tries: seq<Try>): State
    requires k1 < |sc.index| && k1 < U32_BOUND
  {
    if tries == [] then st
    else
      var t, before := tries[|tries| - 1], Tried(sc, st, k0, k1, tries[..|tries| - 1]);
      Serve(sc, before, k0, k1, t.routed, t.direct, t.proxied).st
  }

  /**
   Where every slot of a request is offered but not all of them open, the request is refused however
   often it is made and whatever the sources then say.
   */
  lemma {:induction false} RefusedForever(sc: Scene, st: State, k0: nat, k1: nat, tries: seq<Try>, t: Try)
    requires WellFormed(sc.index) && CacheRuns.InOrder(st) && k0 <= k1 < |sc.index| && k1 < U32_BOUND
    requires AllHit(sc, st.items, k0, k1) && !OffersOpen(sc, st.items, k0, k1)
    ensures var now := Tried(sc, st, k0, k1, tries);
            && CacheRuns.InOrder(now) && AllHit(sc, now.items, k0, k1) && !OffersOpen(sc, now.items, k0, k1)
            && !Serve(sc, now, k0, k1, t.routed, t.direct, t.proxied).ok
    decreases |tries|
  {
    hide Serve, AllHit, OffersOpen, WellFormed, CacheRuns.InOrder;
    if tries != [] {
      var last := tries[|tries| - 1];
      RefusedForever(sc, st, k0, k1, tries[..|tries| - 1], last);
      PoisonStays(sc, Tried(sc, st, k0, k1, tries[..|tries| - 1]), k0, k1, last.routed, last.direct, last.proxied);
    }
    PoisonStays(sc, Tried(sc, st, k0, k1, tries), k0, k1, t.routed, t.direct, t.proxied);
  }
}
