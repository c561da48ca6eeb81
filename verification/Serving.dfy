/**
 One HTTP range request, from planning to the retry after a bad direct link: `serve_range` in
 client-app/src/commands/video.rs.
 */
module Serving {
  import opened Machine
  import opened Wrappers
  import opened Framing
  import opened FragmentIndex
  import C = Content
  import opened RangePlan
  import opened BlobKeys
  import opened Lru
  import CacheRuns
  import BC = BlobCache
  import opened Playback
  import opened ServingModel

  // ---- the retry ----

  /** The held chunks are uploaded ones. */
  ghost predicate HoldsUploaded(held: map<nat, Bytes>, cts: seq<Bytes>) {
    forall i :: i in held ==> i < |cts| && held[i] == cts[i]
  }

  ghost predicate HoldsSpan(sc: Scene, held: map<nat, Bytes>, k0: nat, k1: nat)
    requires sc.index != [] && k0 <= k1 < |sc.index|
  {
    forall i :: sc.Pos(k0) <= i < sc.Pos(k1 + 1) ==> i in held
  }

  lemma RemoveFromSupplies(sc: Scene, held: map<nat, Bytes>, k0: nat, k1: nat)
    requires sc.Whole() && k0 <= k1 < |sc.index| && HoldsUploaded(held, sc.cts) && HoldsSpan(sc, held, k0, k1)
    ensures SpanSupplied(sc, k0, k1, RemoveFrom(held), [])
  {
    hide C.Binds;
    PosMono(sc, k0, k1 + 1);
  }

  lemma AnsweredIsHeld(sc: Scene, held: map<nat, Bytes>, k0: nat, k1: nat)
    requires sc.index != [] && k0 <= k1 < |sc.index| && SpanAnswered(sc, RemoveFrom(held), k0, k1 + 1)
    ensures HoldsSpan(sc, held, k0, k1)
  {
    forall i | sc.Pos(k0) <= i < sc.Pos(k1 + 1) ensures i in held {
      assert Answered(RemoveFrom(held), i);
    }
  }

  /** Nothing is offered where nothing is held, and that counts as clean. */
  lemma EvictedIsClean(sc: Scene, items: seq<Item>, lo: nat, hi: nat)
    requires sc.Whole() && sc.SpanMissed(items, lo, hi)
    ensures sc.SpanClean(items, lo, hi)
  {
    hide C.Binds, Offered, ValidatedKey;
    forall k | lo <= k < hi && k < |sc.index| && k < U32_BOUND ensures sc.SlotClean(items, k) {
      assert sc.SlotMissed(items, k);
      PosStep(sc, k);
      PosMono(sc, k + 1, |sc.index|);
    }
  }

  lemma EvictForgets(s: State, sc: Scene, j: nat, k: nat)
    requires j < U32_BOUND && k < U32_BOUND && k < |sc.index|
    ensures var now := Step(s, Op.Evict(sc.ns, sc.id, j)).items;
            && (j == k ==> sc.SlotMissed(now, k))
            && (sc.SlotMissed(s.items, k) ==> sc.SlotMissed(now, k))
  {
    hide ValidatedKey, Deframed, Table, Minus;
    var key := sc.KeyOf(j);
    if key.Some? { TableMinus(s.items, {key.value}); }
  }

  lemma EvictAllNext(sc: Scene, st: State, s: nat, f1: nat)
    requires f1 < U32_BOUND
    ensures s > f1 ==> EvictAll(sc, st, s, f1) == st
    ensures s <= f1 ==> EvictAll(sc, st, s, f1) == EvictAll(sc, Step(st, Op.Evict(sc.ns, sc.id, s)), s + 1, f1)
  {
    hide Step;
  }

  /** Exactly the entries of these slots are gone. */
  ghost predicate OnlyEvicted(was: seq<Item>, now: seq<Item>, ns: Ns, id: string, f0: nat, f1: nat) {
    forall j: Key ::
      Lru.Lookup(now, j) == if j.ns == ns && f0 <= j.sub <= f1 && ValidatedKey(id) == Some(j.id) then None
                            else Lru.Lookup(was, j)
  }

  lemma {:induction false} EvictAllOnly(sc: Scene, st: State, s: nat, f1: nat)
    requires f1 < U32_BOUND
    ensures OnlyEvicted(st.items, EvictAll(sc, st, s, f1).items, sc.ns, sc.id, s, f1)
    decreases f1 + 1 - s
  {
    hide Step, Lru.Lookup, ValidatedKey;
    if s <= f1 {
      EvictOnly(sc, st, s);
      EvictAllOnly(sc, Step(st, Op.Evict(sc.ns, sc.id, s)), s + 1, f1);
    }
  }

  lemma EvictOnly(sc: Scene, st: State, s: u32)
    ensures OnlyEvicted(st.items, Step(st, Op.Evict(sc.ns, sc.id, s)).items, sc.ns, sc.id, s, s)
  {
    hide ValidatedKey, Table, Minus;
    var key := Canonical(sc.ns, sc.id, s);
    if key.Some? { TableMinus(st.items, {key.value}); }
  }

  /** Evict every fragment of the planned span, and nothing else. */
  method EvictSpan(ghost sc: Scene, cache: BC.BlobCache, ns: Ns, id: string, f0: u32, f1: u32)
    requires sc.ns == ns && sc.id == id && cache.Valid()
    modifies cache
    ensures cache.Valid() && cache.backend.Disk? == old(cache.backend.Disk?) && cache.faults == old(cache.faults)
    ensures cache.View() == EvictAll(sc, old(cache.View()), f0, f1)
    ensures OnlyEvicted(old(cache.items), cache.items, ns, id, f0, f1)
    ensures sc.SpanMissed(cache.items, f0, f1 + 1)
  {
    hide Step, Canonical, Offered, EvictAll, OnlyEvicted;
    EvictAllOnly(sc, cache.View(), f0, f1);
    var s: nat := f0;
    while s <= f1
      invariant f0 <= s && (f0 <= f1 ==> s <= f1 + 1)
      invariant cache.Valid() && cache.backend.Disk? == old(cache.backend.Disk?) && cache.faults == old(cache.faults)
      invariant EvictAll(sc, old(cache.View()), f0, f1) == EvictAll(sc, cache.View(), s, f1)
      invariant sc.SpanMissed(cache.items, f0, s)
    {
      ghost var was := cache.View();
      EvictAllNext(sc, was, s, f1);
      cache.Evict(ns, id, s);
      forall k | f0 <= k < s + 1 && k < |sc.index| && k < U32_BOUND ensures sc.SlotMissed(cache.items, k) {
        EvictForgets(was, sc, s, k);
      }
      s := s + 1;
    }
    EvictAllNext(sc, cache.View(), s, f1);
  }

  /**
   Phase D of `serve_range`: evict the planned span, then assemble from the chunks at hand. From any
   cache whatever the retry returns is the content; given uploaded chunks it succeeds exactly when
   the last slot's number fits `u32` and the chunks of the whole span are at hand, which is not so
   when phase A took some fragment of the span for a hit and left it out of the prefetch.
   */
  method RetrySpan(ghost sc: Scene, ghost k0: nat, ghost k1: nat, index: seq<FragmentEntry>, cache: BC.BlobCache,
                   ns: Ns, d: C.ContentDecryptor, id: string, plan: Plan, req: RangeReq, held: map<nat, Bytes>)
    returns (r: Result<Bytes, PlayError>)
    requires sc.index == index && sc.ns == ns && sc.d == d && sc.id == id
    requires cache.Valid() && d.chunkCount >= 1
    modifies cache
    ensures cache.Valid() && cache.backend.Disk? == old(cache.backend.Disk?)
    ensures cache.faults >= old(cache.faults) && (cache.backend.Memory? ==> cache.faults == old(cache.faults))
    ensures Planned(sc, req, k0, k1, plan) && sc.Sound() && r.Ok? ==>
              req.start + req.len <= |sc.content| && r.value == sc.content[req.start..req.start + req.len]
    ensures Planned(sc, req, k0, k1, plan) && sc.Whole() && req.start + req.len <= |sc.content|
            && HoldsUploaded(held, sc.cts)
            ==> (r.Ok? <==> k1 < U32_BOUND && HoldsSpan(sc, held, k0, k1))
    ensures Planned(sc, req, k0, k1, plan) && Exact(sc, req, k1) && cache.faults == old(cache.faults) ==>
              Outcome(r.Ok?, cache.View()) == FeedAll(sc, EvictAll(sc, old(cache.View()), k0, k1), held, k0, k1)
  {
    hide *;
    ghost var exact := Planned(sc, req, k0, k1, plan) && Exact(sc, req, k1);
    if exact { ExactSlots(sc, req, k0, k1, plan, held); }
    EvictSpan(sc, cache, ns, id, plan.f0, plan.f1);
    ghost var was := cache.items;
    var source := new Fetcher(RemoveFrom(held));
    r := AssembleRange(sc, k0, k1, index, cache, ns, d, id, plan, req, source, held);
    if Planned(sc, req, k0, k1, plan) {
      RetryServes(sc, k0, k1, plan, req, held, was, cache.items, r);
    }
  }

  lemma RetryServes(sc: Scene, k0: nat, k1: nat, plan: Plan, req: RangeReq, held: map<nat, Bytes>,
                   was: seq<Item>, now: seq<Item>, r: Result<Bytes, PlayError>)
    requires Planned(sc, req, k0, k1, plan) && sc.SpanMissed(was, plan.f0, plan.f1 + 1)
    requires Served(sc, req, k0, k1, was, now, RemoveFrom(held), [], r)
    ensures sc.Sound() && r.Ok? ==>
              req.start + req.len <= |sc.content| && r.value == sc.content[req.start..req.start + req.len]
    ensures sc.Whole() && req.start + req.len <= |sc.content| && HoldsUploaded(held, sc.cts)
            ==> (r.Ok? <==> k1 < U32_BOUND && HoldsSpan(sc, held, k0, k1))
  {
    hide C.Binds, WellFormed, KeepsClean, Scene.SpanClean, Scene.SpanMissed, RemoveFrom, HoldsUploaded;
    if sc.Whole() && HoldsUploaded(held, sc.cts) {
      if k1 < U32_BOUND {
        SmallAsU32(k0);
        SmallAsU32(k1);
        EvictedIsClean(sc, was, k0, k1 + 1);
        if HoldsSpan(sc, held, k0, k1) { RemoveFromSupplies(sc, held, k0, k1); }
        if SpanAnswered(sc, RemoveFrom(held), k0, k1 + 1) { AnsweredIsHeld(sc, held, k0, k1); }
      }
    }
  }

  // ---- the phases ----

  datatype ServeError = NotSatisfiable | NotServed

  lemma ForgettingKeepsMisses(sc: Scene, was: seq<Item>, now: seq<Item>, lo: nat, hi: nat)
    requires OnlyForgets(was, now) && sc.SpanMissed(was, lo, hi)
    ensures sc.SpanMissed(now, lo, hi)
  {
    hide ValidatedKey, Deframed, Table;
    forall k | lo <= k < hi && k < |sc.index| && k < U32_BOUND ensures sc.SlotMissed(now, k) {
      assert sc.SlotMissed(was, k);
    }
  }

  /** `cached_fragment_valid`: the hit condition of the feeder, by its own copy of the parser. */
  method CachedFragmentValid(cache: BC.BlobCache, ns: Ns, id: string, s: u32, len: u64) returns (hit: bool)
    requires cache.Valid()
    modifies cache
    ensures cache.Valid() && cache.backend.Disk? == old(cache.backend.Disk?)
    ensures cache.faults >= old(cache.faults) && (cache.backend.Memory? ==> cache.faults == old(cache.faults))
    ensures OnlyForgets(old(cache.items), cache.items)
    ensures hit || cache.faults == old(cache.faults) ==>
              (hit <==> Offered(old(cache.items), Canonical(ns, id, s), len).Some?)
    ensures cache.faults == old(cache.faults) ==> cache.View() == Step(old(cache.View()), Get(ns, id, s, true))
  {
    hide Step, ValidatedKey, Table, Deframed;
    ghost var was := cache.View();
    var blob := cache.Get(ns, id, s);
    GetOnlyForgets(was, ns, id, s, blob.Some?);
    NothingToDo(was, ns, id, s, [], true);
    NothingToDo(was, ns, id, s, [], false);
    if blob.None? { return false; }
    var n := DeframeCount(blob.value);
    return n == Some(len);
  }

  /** Phase A has come to slot `s`, having listed `todo`, with no fault so far or (`!kept`) with some. */
  ghost predicate Looking(sc: Scene, was: State, st: State, kept: bool, f0: nat, s: nat, f1: nat, todo: seq<nat>) {
    && f1 < |sc.index| && f1 < U32_BOUND
    && Todo(sc, was.items, f0, f1) == todo + Todo(sc, was.items, s, f1)
    && (kept ==> LookAll(sc, was, f0, f1) == LookAll(sc, st, s, f1) && CacheRuns.InOrder(st))
    && (kept ==> SameLookups(st.items, was.items))
  }

  lemma LookingStart(sc: Scene, was: State, f0: nat, f1: nat)
    requires f1 < |sc.index| && f1 < U32_BOUND && CacheRuns.InOrder(was)
    ensures Looking(sc, was, was, true, f0, f0, f1, [])
  {
    hide Todo, LookAll, CacheRuns.InOrder, Lru.Lookup;
    SameAsItself(was.items);
    assert [] + Todo(sc, was.items, f0, f1) == Todo(sc, was.items, f0, f1);
  }

  /** One slot of phase A: listed exactly if it is not offered. */
  lemma LookingNext(sc: Scene, was: State, st: State, now: State, kept: bool, still: bool, f0: nat, s: nat, f1: nat,
                    todo: seq<nat>, hit: bool)
    requires WellFormed(sc.index) && f0 <= s <= f1 && Looking(sc, was, st, kept, f0, s, f1, todo)
    requires still ==> kept && now == Step(st, Get(sc.ns, sc.id, s, true))
    requires still ==> (hit <==> Offered(st.items, Canonical(sc.ns, sc.id, s), sc.index[s].chunkLen).Some?)
    requires !still ==> !hit && HitOf(sc, was.items, s).None?
    ensures Looking(sc, was, now, still, f0, s + 1, f1,
                    if hit then todo else todo + Indices(sc.index[s].chunkStart, End(sc.index, s)))
  {
    hide Step, Offered, Scene.KeyOf, CacheRuns.InOrder, WellFormed, Indices, Lru.Lookup;
    KeyIs(sc, s);
    if still {
      GetKeeps(sc, st, s);
      SameHit(sc, st.items, was.items, s);
      SameTwice(now.items, st.items, was.items);
    }
    var more, rest := Indices(sc.index[s].chunkStart, End(sc.index, s)), Todo(sc, was.items, s + 1, f1);
    assert todo + (more + rest) == todo + more + rest && todo + ([] + rest) == todo + rest;
  }

  lemma LookingEnd(sc: Scene, was: State, st: State, kept: bool, f0: nat, f1: nat, todo: seq<nat>)
    requires Looking(sc, was, st, kept, f0, f1 + 1, f1, todo)
    ensures todo == Todo(sc, was.items, f0, f1) && (kept ==> st == LookAll(sc, was, f0, f1))
  {
    assert todo + [] == todo;
  }

  /**
   Phase A: the chunks of every planned fragment the cache does not offer, in order, and the fragments
   it does find become the most recently used. This is so whatever the cache holds, unless a cached
   file cannot be read; from a cold span the list is right even then.
   */
  method PlanFetches(ghost sc: Scene, index: seq<FragmentEntry>, cache: BC.BlobCache, ns: Ns, id: string, f0: u32,
                     f1: u32)
    returns (r: Option<seq<nat>>)
    requires sc.index == index && sc.ns == ns && sc.id == id && cache.Valid()
    modifies cache
    ensures cache.Valid() && cache.backend.Disk? == old(cache.backend.Disk?)
    ensures cache.faults >= old(cache.faults) && (cache.backend.Memory? ==> cache.faults == old(cache.faults))
    ensures sc.SpanMissed(old(cache.items), f0, f1 + 1) ==> sc.SpanMissed(cache.items, f0, f1 + 1)
    ensures WellFormed(index) && f0 <= f1 < |index|
            && (cache.faults == old(cache.faults) || sc.SpanMissed(old(cache.items), f0, f1 + 1))
            ==> r == Some(Todo(sc, old(cache.items), f0, f1))
    ensures WellFormed(index) && f0 <= f1 < |index| && cache.faults == old(cache.faults) ==>
              cache.View() == LookAll(sc, old(cache.View()), f0, f1)
  {
    hide *;
    ViewParts(cache);
    CacheInOrder(cache);
    ghost var cold, fine := sc.SpanMissed(cache.items, f0, f1 + 1), WellFormed(index) && f0 <= f1 < |index|;
    ghost var st0 := cache.View();
    var todo: seq<nat> := [];
    var s: nat := f0;
    if fine { LookingStart(sc, st0, f0, f1); }
    while s <= f1
      invariant f0 <= s && (f0 <= f1 ==> s <= f1 + 1)
      invariant cache.Valid() && cache.backend.Disk? == old(cache.backend.Disk?)
      invariant cache.faults >= old(cache.faults) && (cache.backend.Memory? ==> cache.faults == old(cache.faults))
      invariant cold ==> sc.SpanMissed(cache.items, f0, f1 + 1)
      invariant fine && (cold || cache.faults == old(cache.faults)) ==>
                  Looking(sc, st0, cache.View(), cache.faults == old(cache.faults), f0, s, f1, todo)
    {
      ViewParts(cache);
      ghost var was, st, kept := cache.items, cache.View(), cache.faults == old(cache.faults);
      if fine { SlotIsThere(sc, s); }
      if fine && cold { ColdSlot(sc, st0.items, was, f0, s, f1); }
      var e := FragmentIndex.Lookup(index, s);
      if e.None? { return None; }
      var hit := CachedFragmentValid(cache, ns, id, s, e.value.chunkLen);
      if cold { ForgettingKeepsMisses(sc, was, cache.items, f0, f1 + 1); }
      if fine && (cold || cache.faults == old(cache.faults)) {
        LookingNext(sc, st0, st, cache.View(), kept, cache.faults == old(cache.faults), f0, s, f1, todo, hit);
      }
      if !hit {
        var end: int := e.value.chunkStart + e.value.chunkLen;
        if end >= U64_BOUND { return None; }
        todo := todo + Indices(e.value.chunkStart, end);
      }
      s := s + 1;
    }
    if fine && (cold || cache.faults == old(cache.faults)) {
      LookingEnd(sc, st0, cache.View(), cache.faults == old(cache.faults), f0, f1, todo);
    }
    return Some(todo);
  }

  lemma CacheInOrder(cache: BC.BlobCache)
    requires cache.Valid()
    ensures CacheRuns.InOrder(cache.View())
  {
  }

  lemma SlotIsThere(sc: Scene, s: nat)
    requires WellFormed(sc.index) && s < |sc.index| && s < U32_BOUND
    ensures FragmentIndex.Lookup(sc.index, s) == Some(sc.index[s])
    ensures sc.index[s].chunkStart <= End(sc.index, s) == sc.index[s].chunkStart + sc.index[s].chunkLen < U64_BOUND
  {
    SlotInBounds(sc, s);
    assert Linked(sc.index, s);
  }

  lemma ColdSlot(sc: Scene, was: seq<Item>, now: seq<Item>, f0: nat, s: nat, f1: nat)
    requires f0 <= s <= f1 < |sc.index| && f1 < U32_BOUND
    requires sc.SpanMissed(was, f0, f1 + 1) && sc.SpanMissed(now, f0, f1 + 1)
    ensures HitOf(sc, was, s).None? && Offered(now, Canonical(sc.ns, sc.id, s), sc.index[s].chunkLen) == None
  {
    hide Offered, Canonical;
    assert sc.SlotMissed(was, s) && sc.SlotMissed(now, s);
  }

  /** From a cold span everything is listed. */
  lemma {:induction false} ColdTodo(sc: Scene, items: seq<Item>, s: nat, f1: nat)
    requires WellFormed(sc.index) && s <= f1 + 1 <= |sc.index| && f1 < U32_BOUND && sc.SpanMissed(items, s, f1 + 1)
    ensures forall i :: i in Todo(sc, items, s, f1) <==> sc.Pos(s) <= i < sc.Pos(f1 + 1)
    decreases f1 + 1 - s
  {
    hide Offered, Scene.KeyOf, WellFormed, Indices, Coverage;
    if s <= f1 {
      assert sc.SlotMissed(items, s);
      PosStep(sc, s);
      PosMono(sc, s + 1, f1 + 1);
      ColdTodo(sc, items, s + 1, f1);
    }
  }

  /** Every held chunk is some answer of the source. */
  ghost predicate CameFrom(held: map<nat, Bytes>, answers: Answers) {
    forall i :: i in held ==> exists h :: answers(h, i) == Some(held[i])
  }

  lemma GatheredIs(answers: Answers, held: map<nat, Bytes>)
    requires forall i :: i in held ==> answers([], i) == Some(held[i])
    ensures Gathered(answers, held.Keys) == Some(held)
  {
    assert Gathered(answers, held.Keys).value == held;
  }

  lemma GatheredFails(answers: Answers, which: set<nat>, i: nat)
    requires i in which && answers([], i).None?
    ensures Gathered(answers, which) == None
  {
  }

  /** Phase B: every listed chunk, or nothing if one fails. */
  method Prefetch(source: Fetcher, todo: seq<nat>) returns (r: Option<map<nat, Bytes>>)
    modifies source
    ensures r.Some? ==> (forall i :: i in r.value <==> i in todo) && CameFrom(r.value, source.answers)
    ensures (forall i :: i in todo ==> AlwaysAnswers(source.answers, i)) ==> r.Some?
    ensures Ascending(todo) ==> r == Gathered(Settled(source.answers, old(source.asked), todo), Members(todo))
  {
    hide Gathered, Ascending;
    var held: map<nat, Bytes> := map[];
    ghost var came := Settled(source.answers, source.asked, todo);
    assert source.asked + todo[..0] == source.asked;
    for j := 0 to |todo|
      invariant source.asked == old(source.asked) + todo[..j]
      invariant forall i :: i in held <==> i in todo[..j]
      invariant CameFrom(held, source.answers)
      invariant Ascending(todo) ==> forall i :: i in held ==> came([], i) == Some(held[i])
    {
      assert todo[j] in todo && todo[..j + 1] == todo[..j] + [todo[j]];
      var c := source.Fetch(todo[j]);
      if Ascending(todo) { AscendingPlace(todo, j); }
      if c.None? {
        if Ascending(todo) { GatheredFails(came, Members(todo), todo[j]); }
        return None;
      }
      held := held[todo[j] := c.value];
    }
    assert todo[..|todo|] == todo;
    assert held.Keys == Members(todo);
    if Ascending(todo) { GatheredIs(came, held); }
    return Some(held);
  }

  lemma AscendingPlace(todo: seq<nat>, j: nat)
    requires Ascending(todo) && j < |todo|
    ensures Place(todo, todo[j]) == j
  {
    hide Place;
    var p := Place(todo, todo[j]);
    assert todo[p] == todo[j];
  }

  /** Phase D: every chunk of the set anew, in whatever order the set is walked. */
  method Refetch(source: Fetcher, which: set<nat>, ghost n: nat) returns (r: Option<map<nat, Bytes>>)
    modifies source
    ensures r.Some? ==> r.value.Keys == which && CameFrom(r.value, source.answers)
    ensures (forall i :: i in which ==> AlwaysAnswers(source.answers, i)) ==> r.Some?
    ensures Steady(source.answers, n) && (forall i :: i in which ==> i < n) ==> r == Gathered(source.answers, which)
  {
    hide Gathered;
    var again: map<nat, Bytes> := map[];
    var left := which;
    ghost var steady := Steady(source.answers, n) && forall i :: i in which ==> i < n;
    while left != {}
      invariant left <= which && again.Keys == which - left && CameFrom(again, source.answers)
      invariant steady ==> forall i :: i in again ==> source.answers([], i) == Some(again[i])
      decreases |left|
    {
      var i :| i in left;
      var c := source.Fetch(i);
      if c.None? {
        if steady { GatheredFails(source.answers, which, i); }
        return None;
      }
      again, left := again[i := c.value], left - {i};
    }
    assert again.Keys == which;
    if steady { GatheredIs(source.answers, again); }
    return Some(again);
  }

  /**
   The conditions under which a planned request must succeed on either backend: the file was uploaded
   whole, every number in the plan is exact, nothing of the span is cached, and only direct links may lie.
   */
  ghost predicate Servable(sc: Scene, req: RangeReq, k0: nat, k1: nat, plan: Plan, items: seq<Item>,
                           routed: Answers, direct: set<nat>, proxied: Answers)
  {
    && Planned(sc, req, k0, k1, plan) && sc.Whole() && req.start + req.len <= |sc.content| && k1 < U32_BOUND
    && sc.SpanMissed(items, k0, k1 + 1) && Routed(sc, routed, direct) && Routed(sc, proxied, {})
  }

  /** All of the span is held, every chunk as `routed` answered it. */
  ghost predicate HoldsRouted(sc: Scene, held: map<nat, Bytes>, k0: nat, k1: nat, routed: Answers) {
    && sc.index != [] && k0 <= k1 < |sc.index| && HoldsSpan(sc, held, k0, k1)
    && CameFrom(held, routed) && forall i :: i in held ==> i < |sc.cts|
  }

  /**
   The conditions under which a planned request comes to exactly what `Serve` says, as long as no read or
   write of the cache fails: it lies inside the content, the numbers are exact, and the proxy says the
   same of a chunk whenever it is asked. The cache may hold anything.
   */
  ghost predicate Decided(sc: Scene, req: RangeReq, k0: nat, k1: nat, plan: Plan, proxied: Answers) {
    Planned(sc, req, k0, k1, plan) && Exact(sc, req, k1) && Steady(proxied, sc.d.chunkCount)
  }

  lemma DecidedSlots(sc: Scene, req: RangeReq, k0: nat, k1: nat, plan: Plan, proxied: Answers)
    requires Decided(sc, req, k0, k1, plan, proxied)
    ensures Planned(sc, req, k0, k1, plan) && Exact(sc, req, k1) && WellFormed(sc.index)
    ensures plan.f0 == k0 <= plan.f1 == k1 < |sc.index| && k1 < U32_BOUND && Steady(proxied, sc.d.chunkCount)
  {
    ExactSlots(sc, req, k0, k1, plan, map[]);
    hide C.Binds, WellFormed;
  }

  /** What phases A to C come to. */
  ghost function FirstOutcome(sc: Scene, st: State, k0: nat, k1: nat, routed: Answers): Outcome
    requires k1 < |sc.index| && k1 < U32_BOUND
  {
    var looked, held := LookAll(sc, st, k0, k1), Fetched(sc, st.items, k0, k1, routed);
    if held.None? then Outcome(false, looked) else FeedAll(sc, looked, held.value, k0, k1)
  }

  /** Whatever is listed lies within the signed chunk count. */
  lemma ListedInCount(sc: Scene, items: seq<Item>, k0: nat, k1: nat)
    requires sc.Covered() && k1 < |sc.index| && k1 < U32_BOUND
    ensures forall i :: i in Todo(sc, items, k0, k1) ==> i < sc.d.chunkCount
  {
    hide HitOf, Todo, Coverage, WellFormed;
    forall i | i in Todo(sc, items, k0, k1) ensures i < sc.d.chunkCount {
      ListedIs(sc, items, k0, k1, i);
      var k :| k0 <= k <= k1 && MissAt(sc, items, k, i);
      PosStep(sc, k);
      PosMono(sc, k + 1, |sc.index|);
    }
  }

  lemma FetchedFrom(sc: Scene, items: seq<Item>, k0: nat, k1: nat, answers: Answers, asked: seq<nat>)
    requires k1 < |sc.index| && k1 < U32_BOUND
    ensures var todo, came := Todo(sc, items, k0, k1), Came(sc, items, k0, k1, answers, asked);
            Fetched(sc, items, k0, k1, came) == Gathered(Settled(answers, asked, todo), Members(todo))
  {
    hide Todo, Gathered, Settled, Members;
  }

  /** Phases A to C of `serve_range`, once the request is planned. */
  method FirstAttempt(ghost sc: Scene, ghost k0: nat, ghost k1: nat, index: seq<FragmentEntry>, cache: BC.BlobCache,
                      ns: Ns, d: C.ContentDecryptor, id: string, plan: Plan, req: RangeReq, routed: Fetcher,
                      ghost direct: set<nat>, ghost proxied: Answers)
    returns (r: Result<Bytes, PlayError>, held: Option<map<nat, Bytes>>)
    requires sc.index == index && sc.ns == ns && sc.d == d && sc.id == id
    requires cache.Valid() && d.chunkCount >= 1
    modifies cache, routed
    ensures cache.Valid() && cache.backend.Disk? == old(cache.backend.Disk?)
    ensures cache.faults >= old(cache.faults) && (cache.backend.Memory? ==> cache.faults == old(cache.faults))
    ensures held.None? ==> r.Err?
    ensures Planned(sc, req, k0, k1, plan) && sc.Sound() && r.Ok? ==>
              req.start + req.len <= |sc.content| && r.value == sc.content[req.start..req.start + req.len]
    ensures Servable(sc, req, k0, k1, plan, old(cache.items), routed.answers, direct, proxied) ==>
              && held.Some? && HoldsRouted(sc, held.value, k0, k1, routed.answers)
              && (held.value.Keys !! direct ==> r.Ok?)
    ensures Decided(sc, req, k0, k1, plan, proxied) && cache.faults == old(cache.faults) ==>
              && k1 < |sc.index| && k1 < U32_BOUND
              && var came := Came(sc, old(cache.items), k0, k1, routed.answers, old(routed.asked));
                 && held == Fetched(sc, old(cache.items), k0, k1, came)
                 && Outcome(r.Ok?, cache.View()) == FirstOutcome(sc, old(cache.View()), k0, k1, came)
  {
    hide *;
    ViewParts(cache);
    ghost var good := Servable(sc, req, k0, k1, plan, cache.items, routed.answers, direct, proxied);
    ghost var st0, asked := cache.View(), routed.asked;
    if good { ServableSlots(sc, req, k0, k1, plan, cache.items, routed.answers, direct, proxied); }
    if Decided(sc, req, k0, k1, plan, proxied) {
      DecidedSlots(sc, req, k0, k1, plan, proxied);
      TodoAscends(sc, st0.items, k0, k1);
      ghost var came := Came(sc, st0.items, k0, k1, routed.answers, asked);
      FetchedFrom(sc, st0.items, k0, k1, routed.answers, asked);
      FirstIs(sc, st0, k0, k1, came);
    }
    var todo := PlanFetches(sc, index, cache, ns, id, plan.f0, plan.f1);
    if todo.None? { return Err(VideoFailed), None; }
    ViewParts(cache);
    if good {
      ColdTodo(sc, st0.items, k0, k1);
      ListedIsAnswered(sc, k0, k1, todo.value, routed.answers, direct);
    }
    held := Prefetch(routed, todo.value);
    if held.None? { return Err(FetchFailed), None; }
    ghost var was := cache.items;
    var source := new Fetcher(RemoveFrom(held.value));
    r := AssembleRange(sc, k0, k1, index, cache, ns, d, id, plan, req, source, held.value);
    if Planned(sc, req, k0, k1, plan) {
      ServedIsContent(sc, req, k0, k1, plan, was, cache.items, source.answers, [], r);
    }
    if good {
      ListedIsHeld(sc, k0, k1, todo.value, held.value, routed.answers);
      if held.value.Keys !! direct {
        HeldIsUploaded(sc, held.value, k0, k1, routed.answers, direct);
        RetryServes(sc, k0, k1, plan, req, held.value, was, cache.items, r);
      }
    }
  }

  lemma ExactIsCovered(sc: Scene, req: RangeReq, k1: nat)
    requires Exact(sc, req, k1)
    ensures sc.Covered()
  {
  }

  lemma FirstIs(sc: Scene, st: State, k0: nat, k1: nat, routed: Answers)
    requires k1 < |sc.index| && k1 < U32_BOUND
    ensures var looked, held, now := LookAll(sc, st, k0, k1), Fetched(sc, st.items, k0, k1, routed),
                                     FirstOutcome(sc, st, k0, k1, routed);
            && (held.None? ==> now == Outcome(false, looked))
            && (held.Some? ==> now == FeedAll(sc, looked, held.value, k0, k1))
  {
    hide LookAll, Fetched, FeedAll;
  }

  /**
   Phases A to D of `serve_range`, once the request is planned. Sound from any cache and any sources.
   From a cold span it succeeds if only direct links lie, whatever the disk does. Whatever the cache
   holds, as long as no read or write of it fails, as none does in RAM, the result and the cache it leaves
   are exactly those of `Serve`.
   */
  method ServePlan(ghost sc: Scene, ghost k0: nat, ghost k1: nat, index: seq<FragmentEntry>, cache: BC.BlobCache,
                   ns: Ns, d: C.ContentDecryptor, id: string, plan: Plan, req: RangeReq,
                   routed: Fetcher, direct: set<nat>, proxy: Fetcher)
    returns (r: Result<Bytes, PlayError>)
    requires sc.index == index && sc.ns == ns && sc.d == d && sc.id == id
    requires cache.Valid() && d.chunkCount >= 1
    modifies cache, routed, proxy
    ensures cache.Valid() && cache.backend.Disk? == old(cache.backend.Disk?)
    ensures cache.faults >= old(cache.faults) && (cache.backend.Memory? ==> cache.faults == old(cache.faults))
    ensures Planned(sc, req, k0, k1, plan) && sc.Sound() && r.Ok? ==>
              req.start + req.len <= |sc.content| && r.value == sc.content[req.start..req.start + req.len]
    ensures Servable(sc, req, k0, k1, plan, old(cache.items), routed.answers, direct, proxy.answers) ==> r.Ok?
    ensures Decided(sc, req, k0, k1, plan, proxy.answers) && cache.faults == old(cache.faults) ==>
              && k1 < |sc.index| && k1 < U32_BOUND
              && var came := Came(sc, old(cache.items), k0, k1, routed.answers, old(routed.asked));
                 Outcome(r.Ok?, cache.View()) == Serve(sc, old(cache.View()), k0, k1, came, direct, proxy.answers)
  {
    hide *;
    ViewParts(cache);
    ghost var good := Servable(sc, req, k0, k1, plan, cache.items, routed.answers, direct, proxy.answers);
    ghost var decided := Decided(sc, req, k0, k1, plan, proxy.answers);
    ghost var st0, asked := cache.View(), routed.asked;
    if good { ServableSlots(sc, req, k0, k1, plan, cache.items, routed.answers, direct, proxy.answers); }
    ghost var came := routed.answers;
    if decided {
      DecidedSlots(sc, req, k0, k1, plan, proxy.answers);
      ExactIsCovered(sc, req, k1);
      ListedInCount(sc, st0.items, k0, k1);
      came := Came(sc, st0.items, k0, k1, routed.answers, asked);
      ServeIs(sc, st0, k0, k1, came, direct, proxy.answers);
      FirstIs(sc, st0, k0, k1, came);
    }
    var held;
    r, held := FirstAttempt(sc, k0, k1, index, cache, ns, d, id, plan, req, routed, direct, proxy.answers);
    if r.Ok? || held.None? || held.value.Keys !! direct { return; }
    if good { HeldIsAnswered(sc, held.value, k0, k1, routed.answers, proxy.answers); }
    if decided && cache.faults == old(cache.faults) {
      FetchedKeys(sc, st0.items, k0, k1, came, direct, proxy.answers);
      ListedMembers(sc, st0.items, k0, k1);
      RepairedIs(held.value, direct, proxy.answers);
    }
    var again := Refetch(proxy, direct * held.value.Keys, d.chunkCount);
    if again.None? { return Err(FetchFailed); }
    var repaired := held.value + again.value;
    if good { RepairedIsUploaded(sc, held.value, again.value, k0, k1, routed.answers, proxy.answers, direct); }
    r := RetrySpan(sc, k0, k1, index, cache, ns, d, id, plan, req, repaired);
  }

  lemma ListedMembers(sc: Scene, items: seq<Item>, k0: nat, k1: nat)
    requires k1 < |sc.index| && k1 < U32_BOUND
    ensures forall i :: i in Listed(sc, items, k0, k1) <==> i in Todo(sc, items, k0, k1)
  {
    hide Todo;
  }

  lemma RepairedIs(held: map<nat, Bytes>, direct: set<nat>, proxied: Answers)
    ensures var again := Gathered(proxied, direct * held.Keys);
            Repaired(held, direct, proxied) == if again.None? then None else Some(held + again.value)
  {
    hide Gathered;
  }

  lemma ServableSlots(sc: Scene, req: RangeReq, k0: nat, k1: nat, plan: Plan, items: seq<Item>,
                      routed: Answers, direct: set<nat>, proxied: Answers)
    requires Servable(sc, req, k0, k1, plan, items, routed, direct, proxied)
    ensures Planned(sc, req, k0, k1, plan) && sc.Whole() && req.start + req.len <= |sc.content| && k1 < U32_BOUND
    ensures WellFormed(sc.index) && plan.f0 == k0 <= plan.f1 == k1 < |sc.index|
    ensures sc.SpanMissed(items, plan.f0, plan.f1 + 1) && Routed(sc, routed, direct) && Routed(sc, proxied, {})
  {
    hide C.Binds, WellFormed, Routed, Scene.SpanMissed;
    SmallAsU32(k0);
    SmallAsU32(k1);
  }

  lemma ListedIsAnswered(sc: Scene, k0: nat, k1: nat, todo: seq<nat>, answers: Answers, direct: set<nat>)
    requires sc.Whole() && k0 <= k1 < |sc.index| && (forall i :: i in todo <==> sc.Pos(k0) <= i < sc.Pos(k1 + 1))
    requires Routed(sc, answers, direct)
    ensures forall i :: i in todo ==> i < |sc.cts| && AlwaysAnswers(answers, i)
  {
    hide C.Binds, AlwaysAnswers;
    PosMono(sc, k1 + 1, |sc.index|);
  }

  lemma ListedIsHeld(sc: Scene, k0: nat, k1: nat, todo: seq<nat>, held: map<nat, Bytes>, routed: Answers)
    requires sc.Whole() && k0 <= k1 < |sc.index| && (forall i :: i in todo <==> sc.Pos(k0) <= i < sc.Pos(k1 + 1))
    requires (forall i :: i in held <==> i in todo) && CameFrom(held, routed)
    ensures HoldsRouted(sc, held, k0, k1, routed)
  {
    hide C.Binds, CameFrom;
    PosMono(sc, k1 + 1, |sc.index|);
  }

  lemma HeldIsAnswered(sc: Scene, held: map<nat, Bytes>, k0: nat, k1: nat, routed: Answers, proxied: Answers)
    requires HoldsRouted(sc, held, k0, k1, routed) && Routed(sc, proxied, {})
    ensures forall i :: i in held ==> AlwaysAnswers(proxied, i)
  {
    hide CameFrom, AlwaysAnswers;
  }

  /** If no held chunk came over a direct link, all of them are the uploaded ones. */
  lemma HeldIsUploaded(sc: Scene, held: map<nat, Bytes>, k0: nat, k1: nat, routed: Answers, direct: set<nat>)
    requires HoldsRouted(sc, held, k0, k1, routed) && Routed(sc, routed, direct) && held.Keys !! direct
    ensures sc.index != [] && k0 <= k1 < |sc.index| && HoldsSpan(sc, held, k0, k1) && HoldsUploaded(held, sc.cts)
  {
    hide AlwaysAnswers;
    forall i | i in held ensures i < |sc.cts| && held[i] == sc.cts[i] {
      var h :| routed(h, i) == Some(held[i]);
    }
  }

  /** With the direct chunks replaced by proxied ones, the span is held and only uploaded chunks are. */
  lemma RepairedIsUploaded(sc: Scene, held: map<nat, Bytes>, again: map<nat, Bytes>, k0: nat, k1: nat,
                           routed: Answers, proxied: Answers, direct: set<nat>)
    requires HoldsRouted(sc, held, k0, k1, routed) && Routed(sc, routed, direct)
    requires again.Keys == direct * held.Keys && CameFrom(again, proxied) && Routed(sc, proxied, {})
    ensures sc.index != [] && k0 <= k1 < |sc.index|
    ensures HoldsSpan(sc, held + again, k0, k1) && HoldsUploaded(held + again, sc.cts)
  {
    hide AlwaysAnswers;
    forall i | i in held + again ensures i < |sc.cts| && (held + again)[i] == sc.cts[i] {
      if i in again {
        var h :| proxied(h, i) == Some(again[i]);
      } else {
        var h :| routed(h, i) == Some(held[i]);
      }
    }
  }

  lemma ServedIsContent(sc: Scene, req: RangeReq, k0: nat, k1: nat, plan: Plan, was: seq<Item>, now: seq<Item>,
                        answers: Answers, asked: seq<nat>, r: Result<Bytes, PlayError>)
    requires Planned(sc, req, k0, k1, plan) && Served(sc, req, k0, k1, was, now, answers, asked, r)
    ensures sc.Sound() && r.Ok? ==>
              req.start + req.len <= |sc.content| && r.value == sc.content[req.start..req.start + req.len]
  {
  }

  /** The whole file is playable: uploaded whole, covered exactly by its index, numbered exactly. */
  ghost predicate Playable(sc: Scene, total: u64, cs: u64) {
    && sc.Whole() && Coverage(sc.index) == sc.d.chunkCount && |sc.index| <= U32_BOUND
    && total == |sc.content| && cs == sc.cs
  }

  /** The slots of the first and the last byte of a request. */
  ghost function FirstSlot(sc: Scene, req: RangeReq): nat
    requires sc.cs >= 1
  {
    SlotAt(sc.index, C.ChunkOf(sc.cs, req.start))
  }

  ghost function LastSlot(sc: Scene, req: RangeReq): nat
    requires sc.cs >= 1 && req.len >= 1
  {
    SlotAt(sc.index, C.ChunkOf(sc.cs, LastByte(req)))
  }

  /**
   What one request for a playable file comes to, from a source that has been asked for `asked`; one that
   names no byte does nothing.
   */
  ghost function ServeRequest(sc: Scene, st: State, req: Option<RangeReq>, routed: Answers, asked: seq<nat>,
                              direct: set<nat>, proxied: Answers): Outcome
    requires sc.cs >= 1 && 0 < |sc.index| <= U32_BOUND && (req.Some? ==> req.value.len >= 1)
  {
    if req.None? then Outcome(false, st)
    else
      var k0, k1 := FirstSlot(sc, req.value), LastSlot(sc, req.value);
      Serve(sc, st, k0, k1, Came(sc, st.items, k0, k1, routed, asked), direct, proxied)
  }

  lemma PlayableShape(sc: Scene, total: u64, cs: u64)
    ensures Playable(sc, total, cs) ==>
              cs == sc.cs >= 1 && total == |sc.content| && 0 < |sc.index| <= U32_BOUND && sc.Whole() && sc.Sound()
  {
    hide C.Binds, Uploaded;
  }

  lemma SlotsOfPlan(sc: Scene, req: RangeReq, k0: nat, k1: nat, plan: Plan)
    requires Planned(sc, req, k0, k1, plan)
    ensures FirstSlot(sc, req) == k0 && LastSlot(sc, req) == k1
  {
    hide WellFormed, C.ChunkOf, SlotAt;
    SlotAtIs(sc.index, k0, C.ChunkOf(sc.cs, req.start));
    SlotAtIs(sc.index, k1, C.ChunkOf(sc.cs, LastByte(req)));
  }

  lemma PlayableIsDecided(sc: Scene, total: u64, cs: u64, req: RangeReq, k0: nat, k1: nat, plan: Plan, proxied: Answers)
    requires Playable(sc, total, cs) && Planned(sc, req, k0, k1, plan) && req.start + req.len <= |sc.content|
    requires Steady(proxied, sc.d.chunkCount)
    ensures Decided(sc, req, k0, k1, plan, proxied)
  {
    hide WellFormed, C.Binds, Uploaded, Coverage, C.ChunkOf, C.ByteOf, Steady;
  }

  /**
   `serve_range`, from the parsed HTTP range to the body. It is refused as unsatisfiable exactly when
   no wanted byte exists, and then leaves the cache as it was. From any cache and any sources a body is
   exactly the requested content. For a playable file there always is a body if none of it is cached
   and only direct links may lie; and over any cache, from any routed source and a steady proxy, as long
   as no read or write of the cache fails, there is a body exactly if `ServeRequest` says so, which also
   says what the cache is left with.
   */
  method ServeRange(ghost sc: Scene, index: seq<FragmentEntry>, cache: BC.BlobCache, ns: Ns, d: C.ContentDecryptor,
                    id: string, cs: u64, total: u64, first: u64, last: Option<u64>, maxBody: u64,
                    routed: Fetcher, direct: set<nat>, proxy: Fetcher)
    returns (r: Result<Bytes, ServeError>)
    requires sc.index == index && sc.ns == ns && sc.d == d && sc.id == id && sc.cs == cs
    requires cache.Valid() && d.chunkCount >= 1
    modifies cache, routed, proxy
    ensures cache.Valid() && cache.backend.Disk? == old(cache.backend.Disk?)
    ensures cache.faults >= old(cache.faults) && (cache.backend.Memory? ==> cache.faults == old(cache.faults))
    ensures r == Err(NotSatisfiable) <==> forall b :: !Wanted(b, first, last, total)
    ensures r == Err(NotSatisfiable) ==> cache.View() == old(cache.View())
    ensures sc.Sound() && r.Ok? ==>
              var req := ResolveRange(first, last, total, maxBody);
              req.Some? && first + req.value.len <= |sc.content| && r.value == sc.content[first..first + req.value.len]
    ensures Playable(sc, total, cs) && sc.SpanMissed(old(cache.items), 0, |index|)
            && Routed(sc, routed.answers, direct) && Routed(sc, proxy.answers, {})
            ==> (r.Ok? <==> exists b :: Wanted(b, first, last, total))
    ensures Playable(sc, total, cs) && cache.faults == old(cache.faults) && Steady(proxy.answers, d.chunkCount)
            ==> && sc.cs >= 1 && 0 < |sc.index| <= U32_BOUND
                && Outcome(r.Ok?, cache.View())
                   == ServeRequest(sc, old(cache.View()), ResolveRange(first, last, total, maxBody),
                                   routed.answers, old(routed.asked), direct, proxy.answers)
  {
    hide *;
    ghost var was, st, asked := cache.items, cache.View(), routed.asked;
    ViewParts(cache);
    var req := ResolveRange(first, last, total, maxBody);
    PlayableShape(sc, total, cs);
    ghost var playable := Playable(sc, total, cs);
    if playable { ServeRequestIs(sc, st, req, routed.answers, asked, direct, proxy.answers); }
    if req.None? { return Err(NotSatisfiable); }
    assert Wanted(first, first, last, total);
    var plan := PlanRange(index, cs, req.value);
    if playable { PlayablePlans(sc, total, cs, first, last, maxBody, req.value); }
    if plan.Err? { return Err(NotServed); }
    ghost var k0: nat, k1: nat := 0, 0;
    SoundIndex(sc);
    if sc.Sound() { k0, k1 := PlannedFor(sc, cs, req.value, plan.value); }
    if playable {
      SlotsOfPlan(sc, req.value, k0, k1, plan.value);
      if Steady(proxy.answers, d.chunkCount) {
        PlayableIsDecided(sc, total, cs, req.value, k0, k1, plan.value, proxy.answers);
      }
    }
    var body := ServePlan(sc, k0, k1, index, cache, ns, d, id, plan.value, req.value, routed, direct, proxy);
    if body.Err? {
      if playable && sc.SpanMissed(was, 0, |index|) && Routed(sc, routed.answers, direct)
         && Routed(sc, proxy.answers, {}) {
        PlayableIsServable(sc, total, cs, req.value, k0, k1, plan.value, was, routed.answers, direct, proxy.answers);
      }
      return Err(NotServed);
    }
    return Ok(body.value);
  }

  lemma ServeRequestIs(sc: Scene, st: State, req: Option<RangeReq>, routed: Answers, asked: seq<nat>, direct: set<nat>,
                       proxied: Answers)
    requires sc.cs >= 1 && 0 < |sc.index| <= U32_BOUND && (req.Some? ==> req.value.len >= 1)
    ensures var now := ServeRequest(sc, st, req, routed, asked, direct, proxied);
            && (req.None? ==> now == Outcome(false, st))
            && (req.Some? ==>
                  var k0, k1 := FirstSlot(sc, req.value), LastSlot(sc, req.value);
                  && k1 < |sc.index| && k1 < U32_BOUND
                  && now == Serve(sc, st, k0, k1, Came(sc, st.items, k0, k1, routed, asked), direct, proxied))
  {
    hide Serve, SlotAt, C.ChunkOf, Came;
  }

  /** The slots of a satisfiable request for a playable file. */
  lemma RequestSlots(sc: Scene, total: u64, cs: u64, first: u64, last: Option<u64>, maxBody: u64, req: RangeReq)
    requires Playable(sc, total, cs) && ResolveRange(first, last, total, maxBody) == Some(req)
    ensures sc.cs >= 1 && req.len >= 1 && req.start == first && req.start + req.len <= |sc.content|
    ensures FirstSlot(sc, req) <= LastSlot(sc, req) < |sc.index| && LastSlot(sc, req) < U32_BOUND
  {
    hide *;
    PlayableShape(sc, total, cs);
    PlayablePlans(sc, total, cs, first, last, maxBody, req);
    var c0, c1 := C.ChunkOf(cs, req.start), C.ChunkOf(cs, LastByte(req));
    SlotsAre(sc, cs, req);
    C.ChunkMono(cs, req.start, LastByte(req));
    var k0 := SlotOfChunk(sc.index, c0);
    var k1 := SlotOfChunk(sc.index, c1);
    SlotAtIs(sc.index, k0, c0);
    SlotAtIs(sc.index, k1, c1);
    SlotsInOrder(sc.index, k0, k1, c0, c1);
  }

  lemma SlotsAre(sc: Scene, cs: u64, req: RangeReq)
    requires sc.cs >= 1 && req.len >= 1
    ensures req.start <= LastByte(req)
    ensures FirstSlot(sc, req) == SlotAt(sc.index, C.ChunkOf(sc.cs, req.start))
    ensures LastSlot(sc, req) == SlotAt(sc.index, C.ChunkOf(sc.cs, LastByte(req)))
  {
    hide SlotAt, C.ChunkOf;
  }

  /** Every satisfiable request for a playable file has a plan. */
  lemma PlayablePlans(sc: Scene, total: u64, cs: u64, first: u64, last: Option<u64>, maxBody: u64, req: RangeReq)
    requires Playable(sc, total, cs) && ResolveRange(first, last, total, maxBody) == Some(req)
    ensures sc.Sound() && cs >= 1 && req.len >= 1 && WellFormed(sc.index) && req.start + req.len <= |sc.content|
    ensures LastByte(req) < U64_BOUND && C.ChunkOf(cs, LastByte(req)) < Coverage(sc.index)
  {
    hide WellFormed, C.ChunkOf, C.ByteOf, C.ChunkBytes, Uploaded, Coverage;
    assert Wanted(LastByte(req), first, last, total);
    C.ChunkBounds(cs, LastByte(req));
    if C.ChunkOf(cs, LastByte(req)) >= sc.d.chunkCount {
      C.ByteMono(cs, sc.d.chunkCount, C.ChunkOf(cs, LastByte(req)));
    }
  }

  lemma SoundIndex(sc: Scene)
    ensures sc.Sound() ==> WellFormed(sc.index) && sc.cs >= 1
  {
  }

  lemma PlannedFor(sc: Scene, cs: u64, req: RangeReq, plan: Plan) returns (k0: nat, k1: nat)
    requires sc.Sound() && sc.cs == cs && req.len >= 1
    requires exists i, j :: PlanOf(sc.index, cs, req, i, j, plan)
    ensures Planned(sc, req, k0, k1, plan)
  {
    k0, k1 :| PlanOf(sc.index, cs, req, k0, k1, plan);
  }

  lemma PlayableIsServable(sc: Scene, total: u64, cs: u64, req: RangeReq, k0: nat, k1: nat, plan: Plan,
                           items: seq<Item>, routed: Answers, direct: set<nat>, proxied: Answers)
    requires Playable(sc, total, cs) && Planned(sc, req, k0, k1, plan) && req.start + req.len <= |sc.content|
    requires sc.SpanMissed(items, 0, |sc.index|) && Routed(sc, routed, direct) && Routed(sc, proxied, {})
    ensures Servable(sc, req, k0, k1, plan, items, routed, direct, proxied)
  {
    hide WellFormed, C.Binds, Uploaded, Routed, Coverage, Scene.SlotMissed, C.ChunkOf, C.ByteOf;
  }
}
