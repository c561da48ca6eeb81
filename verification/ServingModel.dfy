/**
 `serve_range` over a cache whose reads and writes succeed, as those of a RAM cache always do: what
 one planned request comes to, when exactly it is served, and what it leaves to the next one.
 */
module ServingModel {
  import opened Machine
  import opened Wrappers
  import opened Framing
  import opened FragmentIndex
  import C = Content
  import opened BlobKeys
  import opened Lru
  import CacheRuns
  import R = Recency
  import opened Playback

  // ---- the phases ----

  /** Phase A looks every planned slot up ... */
  ghost function LookAll(sc: Scene, st: State, s: nat, f1: nat): State
    requires f1 < U32_BOUND
    decreases f1 + 1 - s
  {
    if s > f1 then st else LookAll(sc, Step(st, Get(sc.ns, sc.id, s, true)), s + 1, f1)
  }

  /** What the cache offers for slot `k`. */
  ghost function HitOf(sc: Scene, items: seq<Item>, k: nat): Option<seq<Bytes>>
    requires k < |sc.index| && k < U32_BOUND
  {
    Offered(items, sc.KeyOf(k), sc.index[k].chunkLen)
  }

  /** ... and lists the chunks of those the cache does not offer. */
  ghost function Todo(sc: Scene, items: seq<Item>, s: nat, f1: nat): seq<nat>
    requires f1 < |sc.index| && f1 < U32_BOUND
    decreases f1 + 1 - s
  {
    if s > f1 then []
    else
      (if HitOf(sc, items, s).Some? then [] else Indices(sc.index[s].chunkStart, End(sc.index, s)))
      + Todo(sc, items, s + 1, f1)
  }

  /** The eviction before the retry. */
  ghost function EvictAll(sc: Scene, st: State, s: nat, f1: nat): State
    requires f1 < U32_BOUND
    decreases f1 + 1 - s
  {
    if s > f1 then st else EvictAll(sc, Step(st, Op.Evict(sc.ns, sc.id, s)), s + 1, f1)
  }

  ghost predicate AlwaysAnswers(answers: Answers, i: nat) { forall h :: answers(h, i).Some? }

  /** The chunks of the file are always answered, and outside `direct` always with the uploaded one. */
  ghost predicate Routed(sc: Scene, answers: Answers, direct: set<nat>) {
    && (forall i :: 0 <= i < |sc.cts| ==> AlwaysAnswers(answers, i))
    && (forall h, i :: 0 <= i < |sc.cts| && i !in direct ==> answers(h, i) == Some(sc.cts[i]))
  }

  /** The answer for each of the first `n` chunks does not depend on what was asked before. */
  ghost predicate Steady(answers: Answers, n: nat) { forall h, i :: 0 <= i < n ==> answers(h, i) == answers([], i) }

  /** The first place of `i` in the list. */
  function Place(todo: seq<nat>, i: nat): (p: nat)
    requires i in todo
    ensures p < |todo| && todo[p] == i && i !in todo[..p]
  {
    if todo[0] == i then 0
    else
      assert i in todo[1..];
      var p := 1 + Place(todo[1..], i);
      assert todo[..p] == [todo[0]] + todo[1..][..p - 1];
      p
  }

  /** What a source says of each chunk when it is asked for the listed ones in turn, after `asked`. */
  ghost function Settled(answers: Answers, asked: seq<nat>, todo: seq<nat>): Answers {
    (h: seq<nat>, i: nat) => if i in todo then answers(asked + todo[..Place(todo, i)], i) else answers([], i)
  }

  /** What a source says in the course of phase B. */
  ghost function Came(sc: Scene, items: seq<Item>, k0: nat, k1: nat, answers: Answers, asked: seq<nat>): Answers
    requires k1 < |sc.index| && k1 < U32_BOUND
  {
    Settled(answers, asked, Todo(sc, items, k0, k1))
  }

  lemma CameAnswer(sc: Scene, items: seq<Item>, k0: nat, k1: nat, answers: Answers, asked: seq<nat>, h: seq<nat>,
                   i: nat)
    requires k1 < |sc.index| && k1 < U32_BOUND
    ensures exists g :: Came(sc, items, k0, k1, answers, asked)(h, i) == answers(g, i)
  {
    var todo := Todo(sc, items, k0, k1);
    hide Todo, Place;
    var g := if i in todo then asked + todo[..Place(todo, i)] else [];
    assert Came(sc, items, k0, k1, answers, asked)(h, i) == answers(g, i);
  }

  /** A source that lies over direct links only does so in the course of phase B. */
  lemma CameIsRouted(sc: Scene, items: seq<Item>, k0: nat, k1: nat, answers: Answers, asked: seq<nat>, direct: set<nat>)
    requires k1 < |sc.index| && k1 < U32_BOUND && Routed(sc, answers, direct)
    ensures Routed(sc, Came(sc, items, k0, k1, answers, asked), direct)
  {
    hide Todo, Place;
    var came := Came(sc, items, k0, k1, answers, asked);
    forall i | 0 <= i < |sc.cts| ensures AlwaysAnswers(came, i) {
      assert AlwaysAnswers(answers, i);
      forall h ensures came(h, i).Some? { CameAnswer(sc, items, k0, k1, answers, asked, h, i); }
    }
    forall h, i | 0 <= i < |sc.cts| && i !in direct ensures came(h, i) == Some(sc.cts[i]) {
      CameAnswer(sc, items, k0, k1, answers, asked, h, i);
    }
  }

  ghost predicate Ascending(todo: seq<nat>) { forall j, l :: 0 <= j < l < |todo| ==> todo[j] < todo[l] }

  lemma {:induction false} IndicesAre(lo: nat, hi: nat)
    requires lo <= hi
    ensures |Indices(lo, hi)| == hi - lo && forall j :: 0 <= j < hi - lo ==> Indices(lo, hi)[j] == lo + j
  {
    if lo < hi { IndicesAre(lo, hi - 1); }
  }

  /** The list is in order, so no chunk is fetched twice. */
  lemma {:induction false} TodoAscends(sc: Scene, items: seq<Item>, s: nat, f1: nat)
    requires WellFormed(sc.index) && f1 < |sc.index| && f1 < U32_BOUND
    ensures var todo := Todo(sc, items, s, f1);
            Ascending(todo) && (s <= f1 ==> forall j :: 0 <= j < |todo| ==> sc.index[s].chunkStart <= todo[j])
    decreases f1 + 1 - s
  {
    hide HitOf, WellFormed, Indices;
    if s <= f1 {
      TodoAscends(sc, items, s + 1, f1);
      IndicesAre(sc.index[s].chunkStart, End(sc.index, s));
      if s < f1 { SlotsAscend(sc.index, s, s + 1); }
    }
  }

  /** All of these chunks from a steady source, or nothing if one fails. */
  ghost function Gathered(answers: Answers, which: set<nat>): Option<map<nat, Bytes>> {
    if forall i :: i in which ==> answers([], i).Some? then Some(map i | i in which :: answers([], i).value) else None
  }

  ghost function Listed(sc: Scene, items: seq<Item>, k0: nat, k1: nat): set<nat>
    requires k1 < |sc.index| && k1 < U32_BOUND
  {
    Members(Todo(sc, items, k0, k1))
  }

  ghost function Members(todo: seq<nat>): (r: set<nat>)
    ensures forall i :: i in r <==> i in todo
  {
    set i | i in todo
  }

  /**
   One request for the slots `[k0, k1]`: look all of them up, fetch what is not offered, feed; if that
   fails and some chunk came over a direct link, fetch those anew, evict the span and feed again.
   */
  ghost function Serve(sc: Scene, st: State, k0: nat, k1: nat, routed: Answers, direct: set<nat>, proxied: Answers)
    : Outcome
    requires k1 < |sc.index| && k1 < U32_BOUND
  {
    var looked, held := LookAll(sc, st, k0, k1), Gathered(routed, Listed(sc, st.items, k0, k1));
    if held.None? then Outcome(false, looked)
    else
      var first := FeedAll(sc, looked, held.value, k0, k1);
      if first.ok || held.value.Keys !! direct then first
      else
        var again := Gathered(proxied, direct * held.value.Keys);
        if again.None? then Outcome(false, first.st)
        else FeedAll(sc, EvictAll(sc, first.st, k0, k1), held.value + again.value, k0, k1)
  }

  // ---- one slot ----

  lemma KeysDiffer(sc: Scene, j: nat, k: nat)
    requires j < U32_BOUND && k < U32_BOUND
    ensures sc.KeyOf(j).Some? <==> sc.KeyOf(k).Some?
    ensures sc.KeyOf(j).Some? && j != k ==> sc.KeyOf(j) != sc.KeyOf(k)
  {
    hide ValidatedKey;
  }

  lemma GetStep(sc: Scene, st: State, s: nat)
    requires s < U32_BOUND
    ensures var now := Step(st, Get(sc.ns, sc.id, s, true));
            now == if sc.KeyOf(s).Some? then StepGet(st, sc.KeyOf(s).value, true) else st
  {
    hide ValidatedKey, StepGet;
  }

  lemma PutStep(sc: Scene, st: State, s: nat, bytes: Bytes)
    requires s < U32_BOUND
    ensures var now := Step(st, Op.Put(sc.ns, sc.id, s, bytes, true));
            now == if sc.KeyOf(s).Some? then StepPut(st, sc.KeyOf(s).value, bytes, true) else st
  {
    hide ValidatedKey, StepPut;
  }

  ghost predicate SameLookups(a: seq<Item>, b: seq<Item>) { forall k :: Lru.Lookup(a, k) == Lru.Lookup(b, k) }

  /** Looking a slot up changes no entry. */
  lemma GetKeeps(sc: Scene, st: State, s: nat)
    requires CacheRuns.InOrder(st) && s < U32_BOUND
    ensures var now := Step(st, Get(sc.ns, sc.id, s, true));
            CacheRuns.InOrder(now) && SameLookups(now.items, st.items) && now.cap == st.cap
  {
    hide Step, StepGet, CacheRuns.InOrder, Table;
    GetStep(sc, st, s);
    if sc.KeyOf(s).Some? {
      R.UseInOrder(st, sc.KeyOf(s).value);
      R.GetShape(st, sc.KeyOf(s).value);
    }
  }

  lemma {:induction false} LookKeeps(sc: Scene, st: State, s: nat, f1: nat)
    requires CacheRuns.InOrder(st) && f1 < U32_BOUND
    ensures var now := LookAll(sc, st, s, f1);
            CacheRuns.InOrder(now) && SameLookups(now.items, st.items) && now.cap == st.cap
    decreases f1 + 1 - s
  {
    hide Step, CacheRuns.InOrder, Table, SameLookups;
    if s > f1 {
      SameAsItself(st.items);
    } else {
      var now := Step(st, Get(sc.ns, sc.id, s, true));
      GetKeeps(sc, st, s);
      LookKeeps(sc, now, s + 1, f1);
      SameTwice(LookAll(sc, now, s + 1, f1).items, now.items, st.items);
    }
  }

  lemma SameAsItself(a: seq<Item>)
    ensures SameLookups(a, a)
  {
  }

  lemma SameTwice(a: seq<Item>, b: seq<Item>, c: seq<Item>)
    requires SameLookups(a, b) && SameLookups(b, c)
    ensures SameLookups(a, c)
  {
    hide Table;
  }

  lemma SameHit(sc: Scene, a: seq<Item>, b: seq<Item>, k: nat)
    requires k < |sc.index| && k < U32_BOUND
    requires sc.KeyOf(k).Some? ==> Lru.Lookup(a, sc.KeyOf(k).value) == Lru.Lookup(b, sc.KeyOf(k).value)
    ensures HitOf(sc, a, k) == HitOf(sc, b, k)
  {
    hide ValidatedKey, Table, Deframed;
  }

  /** The chunks slot `k` is fed from: the cache's, else those at hand. */
  ghost function Taken(sc: Scene, items: seq<Item>, held: map<nat, Bytes>, k: nat): Option<seq<Bytes>>
    requires k < |sc.index| && k < U32_BOUND
  {
    var hit := HitOf(sc, items, k);
    if hit.Some? then hit else HeldChunks(held, sc.index[k].chunkStart, End(sc.index, k))
  }

  ghost predicate SlotOpens(sc: Scene, items: seq<Item>, held: map<nat, Bytes>, k: nat)
    requires k < |sc.index| && k < U32_BOUND
  {
    Taken(sc, items, held, k).Some? && C.AllOpen(sc.d, sc.index[k].chunkStart, Taken(sc, items, held, k).value)
  }

  ghost predicate SpanOpens(sc: Scene, items: seq<Item>, held: map<nat, Bytes>, k0: nat, k1: nat)
    requires k1 < |sc.index| && k1 < U32_BOUND
  {
    forall k :: k0 <= k <= k1 ==> SlotOpens(sc, items, held, k)
  }

  /** What the pass over the cache needs of slot `k`. */
  ghost function WantOf(sc: Scene, items: seq<Item>, held: map<nat, Bytes>, k: nat): R.Want
    requires k < |sc.index| && k < U32_BOUND && sc.KeyOf(k).Some?
  {
    var chunks := Taken(sc, items, held, k);
    R.Want(sc.KeyOf(k).value, HitOf(sc, items, k).Some?, if chunks.Some? then Frame(chunks.value) else [])
  }

  ghost function WantsOf(sc: Scene, items: seq<Item>, held: map<nat, Bytes>, k0: nat, k1: nat): seq<R.Want>
    requires k1 < |sc.index| && k1 < U32_BOUND && sc.KeyOf(0).Some?
    decreases k1 + 1 - k0
  {
    if k0 > k1 then []
    else
      KeysDiffer(sc, 0, k0);
      [WantOf(sc, items, held, k0)] + WantsOf(sc, items, held, k0 + 1, k1)
  }

  lemma {:induction false} WantsAre(sc: Scene, items: seq<Item>, held: map<nat, Bytes>, k0: nat, k1: nat)
    requires k1 < |sc.index| && k1 < U32_BOUND && sc.KeyOf(0).Some? && k0 <= k1 + 1
    ensures var wants := WantsOf(sc, items, held, k0, k1);
            && |wants| == k1 + 1 - k0
            && forall k :: k0 <= k <= k1 ==> sc.KeyOf(k).Some? && wants[k - k0] == WantOf(sc, items, held, k)
    decreases k1 + 1 - k0
  {
    hide WantOf, Scene.KeyOf;
    if k0 <= k1 {
      KeysDiffer(sc, 0, k0);
      WantsAre(sc, items, held, k0 + 1, k1);
      forall k | k0 <= k <= k1
        ensures sc.KeyOf(k).Some? && WantsOf(sc, items, held, k0, k1)[k - k0] == WantOf(sc, items, held, k)
      {
        KeysDiffer(sc, 0, k);
        if k > k0 {
          var rest := WantsOf(sc, items, held, k0 + 1, k1);
          assert ([WantOf(sc, items, held, k0)] + rest)[k - k0] == rest[k - (k0 + 1)];
        }
      }
    }
  }

  lemma WantsDiffer(sc: Scene, items: seq<Item>, held: map<nat, Bytes>, k0: nat, k1: nat)
    requires k1 < |sc.index| && k1 < U32_BOUND && sc.KeyOf(0).Some? && k0 <= k1 + 1
    ensures R.Distinct(WantsOf(sc, items, held, k0, k1))
  {
    hide Scene.KeyOf, Taken, HitOf, WantsOf, Frame;
    var wants := WantsOf(sc, items, held, k0, k1);
    WantsAre(sc, items, held, k0, k1);
    forall i, j | 0 <= i < j < |wants| ensures wants[i].key != wants[j].key {
      KeysDiffer(sc, k0 + i, k0 + j);
      assert wants[k0 + i - k0] == WantOf(sc, items, held, k0 + i);
      assert wants[k0 + j - k0] == WantOf(sc, items, held, k0 + j);
    }
  }

  lemma FoundIsHeld(sc: Scene, items: seq<Item>, held: map<nat, Bytes>, k0: nat, k1: nat)
    requires k1 < |sc.index| && k1 < U32_BOUND && sc.KeyOf(0).Some? && k0 <= k1 + 1
    ensures forall w :: w in WantsOf(sc, items, held, k0, k1) && w.found ==> w.key in Table(items)
  {
    hide Scene.KeyOf, Taken, Table, WantsOf, Frame, Deframed;
    var wants := WantsOf(sc, items, held, k0, k1);
    WantsAre(sc, items, held, k0, k1);
    forall w | w in wants && w.found ensures w.key in Table(items) {
      var i :| 0 <= i < |wants| && wants[i] == w;
      assert wants[k0 + i - k0] == WantOf(sc, items, held, k0 + i);
    }
  }

  /** Phase A is the pass's look at everything. */
  lemma {:induction false} LookIsLooked(sc: Scene, st: State, items: seq<Item>, held: map<nat, Bytes>, k0: nat, k1: nat)
    requires k1 < |sc.index| && k1 < U32_BOUND && sc.KeyOf(0).Some?
    ensures LookAll(sc, st, k0, k1) == R.Looked(st, WantsOf(sc, items, held, k0, k1))
    decreases k1 + 1 - k0
  {
    hide Step, StepGet, Taken, HitOf, Frame, Scene.KeyOf;
    if k0 <= k1 {
      KeysDiffer(sc, 0, k0);
      GetStep(sc, st, k0);
      var rest := WantsOf(sc, items, held, k0 + 1, k1);
      LookIsLooked(sc, StepGet(st, sc.KeyOf(k0).value, true), items, held, k0 + 1, k1);
      assert ([WantOf(sc, items, held, k0)] + rest)[1..] == rest;
    }
  }

  // ---- feeding is a pass ----

  /** Exactly the slots that `items` does not offer are at hand, all of them within the index. */
  ghost predicate Complements(sc: Scene, items: seq<Item>, held: map<nat, Bytes>, k0: nat, k1: nat)
    requires k1 < |sc.index| && k1 < U32_BOUND
  {
    forall k :: k0 <= k <= k1 ==>
      (HitOf(sc, items, k).None? <==> HeldChunks(held, sc.index[k].chunkStart, End(sc.index, k)).Some?)
  }

  /** Each slot of the span is held as in `was`, or not at all. */
  ghost predicate Faded(sc: Scene, was: seq<Item>, now: seq<Item>, k0: nat, k1: nat)
    requires k1 < |sc.index| && k1 < U32_BOUND
  {
    forall k :: k0 <= k <= k1 && sc.KeyOf(k).Some? ==>
      Lru.Lookup(now, sc.KeyOf(k).value) == None
      || Lru.Lookup(now, sc.KeyOf(k).value) == Lru.Lookup(was, sc.KeyOf(k).value)
  }

  /** The cache after feeding a slot: it looked the slot up, and stored its frame unless it was offered. */
  ghost function Fed(sc: Scene, st: State, k: nat, frame: Bytes, hit: bool): State
    requires k < U32_BOUND && sc.KeyOf(k).Some?
  {
    var key := sc.KeyOf(k).value;
    var got := StepGet(st, key, true);
    if hit then got else StepPut(got, key, frame, true)
  }

  lemma FedKeeps(sc: Scene, was: seq<Item>, st: State, k: nat, k1: nat, frame: Bytes, hit: bool)
    requires k <= k1 < |sc.index| && k1 < U32_BOUND && sc.KeyOf(k).Some?
    requires CacheRuns.InOrder(st) && Faded(sc, was, st.items, k, k1)
    ensures CacheRuns.InOrder(Fed(sc, st, k, frame, hit)) && Faded(sc, was, Fed(sc, st, k, frame, hit).items, k + 1, k1)
    ensures Fed(sc, st, k, frame, hit).cap == st.cap
  {
    hide Step, StepGet, StepPut, Table, Scene.KeyOf, CacheRuns.InOrder;
    var got, now := Step(st, Get(sc.ns, sc.id, k, true)), Fed(sc, st, k, frame, hit);
    GetStep(sc, st, k);
    PutStep(sc, got, k, frame);
    GetKeeps(sc, st, k);
    KeyIs(sc, k);
    if !hit {
      R.StoreInOrder(got, sc.KeyOf(k).value, frame);
      R.PutShape(st, sc.KeyOf(k).value, frame);
      PutOnlyStores(got, sc.ns, sc.id, k, frame, true);
    }
    forall j | k + 1 <= j <= k1 && sc.KeyOf(j).Some?
      ensures Lru.Lookup(now.items, sc.KeyOf(j).value) == None
              || Lru.Lookup(now.items, sc.KeyOf(j).value) == Lru.Lookup(was, sc.KeyOf(j).value)
    {
      KeysDiffer(sc, j, k);
      assert Lru.Lookup(got.items, sc.KeyOf(j).value) == Lru.Lookup(st.items, sc.KeyOf(j).value);
    }
  }

  lemma KeyIs(sc: Scene, k: nat)
    requires k < U32_BOUND
    ensures sc.KeyOf(k) == Canonical(sc.ns, sc.id, k)
  {
  }

  /** Feeding slot `k`, where what was offered may have gone since. */
  lemma FeedOne(sc: Scene, was: seq<Item>, st: State, held: map<nat, Bytes>, k: nat, k1: nat)
    requires k <= k1 < |sc.index| && k1 < U32_BOUND && sc.KeyOf(k).Some?
    requires Faded(sc, was, st.items, k, k1) && Complements(sc, was, held, k, k1)
    ensures var one, w := Feed(sc.index[k], sc.d, sc.ns, sc.id, k, st, held), WantOf(sc, was, held, k);
            && (w.found && w.key !in Table(st.items) ==> !one.ok)
            && (!w.found || w.key in Table(st.items) ==>
                  one == Outcome(SlotOpens(sc, was, held, k), Fed(sc, st, k, w.bytes, w.found)))
  {
    hide Step, StepGet, StepPut, Table, Deframed, Frame, C.AllOpen, ValidatedKey, HeldChunks;
    FeedIs(sc.index[k], sc.d, sc.ns, sc.id, k, st, held);
    GetStep(sc, st, k);
    var key, chunks := sc.KeyOf(k).value, HeldChunks(held, sc.index[k].chunkStart, End(sc.index, k));
    if chunks.Some? { PutStep(sc, StepGet(st, key, true), k, Frame(chunks.value)); }
    assert Lru.Lookup(st.items, key) == None || Lru.Lookup(st.items, key) == Lru.Lookup(was, key);
    assert HitOf(sc, was, k).None? <==> chunks.Some?;
  }

  /** Feeding a span gets through exactly if every slot opens and the pass over the cache gets through. */
  lemma {:induction false} FeedIsPass(sc: Scene, was: seq<Item>, st: State, held: map<nat, Bytes>, k0: nat, k1: nat)
    requires k0 <= k1 + 1 && k1 < |sc.index| && k1 < U32_BOUND && sc.KeyOf(0).Some? && CacheRuns.InOrder(st)
    requires Faded(sc, was, st.items, k0, k1) && Complements(sc, was, held, k0, k1)
    ensures FeedAll(sc, st, held, k0, k1).ok
            <==> SpanOpens(sc, was, held, k0, k1) && R.Passes(st, WantsOf(sc, was, held, k0, k1))
    decreases k1 + 1 - k0
  {
    hide *;
    FeedAllNext(sc, st, held, k0, k1);
    if k0 > k1 {
      NoSlots(sc, was, st, held, k0, k1);
    } else {
      KeysDiffer(sc, 0, k0);
      FeedOne(sc, was, st, held, k0, k1);
      SpanSplit(sc, was, held, k0, k1);
      PassNext(sc, was, st, held, k0, k1);
      var w := WantOf(sc, was, held, k0);
      if !w.found || w.key in Table(st.items) {
        FedKeeps(sc, was, st, k0, k1, w.bytes, w.found);
        ComplementsNext(sc, was, held, k0, k1);
        FeedIsPass(sc, was, Fed(sc, st, k0, w.bytes, w.found), held, k0 + 1, k1);
      }
    }
  }

  lemma NoSlots(sc: Scene, was: seq<Item>, st: State, held: map<nat, Bytes>, k0: nat, k1: nat)
    requires k0 > k1 && k1 < |sc.index| && k1 < U32_BOUND && sc.KeyOf(0).Some?
    ensures SpanOpens(sc, was, held, k0, k1) && R.Passes(st, WantsOf(sc, was, held, k0, k1))
  {
  }

  lemma ComplementsNext(sc: Scene, was: seq<Item>, held: map<nat, Bytes>, k0: nat, k1: nat)
    requires k1 < |sc.index| && k1 < U32_BOUND && Complements(sc, was, held, k0, k1)
    ensures Complements(sc, was, held, k0 + 1, k1)
  {
  }

  lemma PassNext(sc: Scene, was: seq<Item>, st: State, held: map<nat, Bytes>, k0: nat, k1: nat)
    requires k0 <= k1 < |sc.index| && k1 < U32_BOUND && sc.KeyOf(0).Some? && sc.KeyOf(k0).Some?
    ensures var w := WantOf(sc, was, held, k0);
            R.Passes(st, WantsOf(sc, was, held, k0, k1))
            <==> (w.found ==> w.key in Table(st.items))
                 && R.Passes(Fed(sc, st, k0, w.bytes, w.found), WantsOf(sc, was, held, k0 + 1, k1))
  {
    hide SlotOpens, StepGet, StepPut, Table, HitOf, Taken, Frame, ValidatedKey;
    var w, rest := WantOf(sc, was, held, k0), WantsOf(sc, was, held, k0 + 1, k1);
    assert WantsOf(sc, was, held, k0, k1) == [w] + rest;
    assert ([w] + rest)[1..] == rest;
  }

  /** Without a valid id nothing is ever cached, and feeding is opening. */
  lemma {:induction false} FeedUnkeyed(sc: Scene, was: seq<Item>, st: State, held: map<nat, Bytes>, k0: nat, k1: nat)
    requires k1 < |sc.index| && k1 < U32_BOUND && sc.KeyOf(0).None?
    ensures FeedAll(sc, st, held, k0, k1).ok <==> SpanOpens(sc, was, held, k0, k1)
    decreases k1 + 1 - k0
  {
    hide Step, Offered, Frame, C.AllOpen, HeldChunks, Scene.KeyOf, SpanOpens, Feed, FeedAll;
    FeedAllNext(sc, st, held, k0, k1);
    if k0 > k1 {
      NoneOpen(sc, was, held, k0, k1);
    } else {
      KeysDiffer(sc, 0, k0);
      KeyIs(sc, k0);
      FeedIs(sc.index[k0], sc.d, sc.ns, sc.id, k0, st, held);
      UnkeyedMisses(sc, was, k0);
      UnkeyedMisses(sc, st.items, k0);
      SlotOrder(sc, k0);
      SpanSplit(sc, was, held, k0, k1);
      FeedUnkeyed(sc, was, Feed(sc.index[k0], sc.d, sc.ns, sc.id, k0, st, held).st, held, k0 + 1, k1);
    }
  }

  lemma SpanSplit(sc: Scene, items: seq<Item>, held: map<nat, Bytes>, k0: nat, k1: nat)
    requires k0 <= k1 < |sc.index| && k1 < U32_BOUND
    ensures SpanOpens(sc, items, held, k0, k1)
            <==> SlotOpens(sc, items, held, k0) && SpanOpens(sc, items, held, k0 + 1, k1)
  {
    hide SlotOpens;
  }

  lemma NoneOpen(sc: Scene, items: seq<Item>, held: map<nat, Bytes>, k0: nat, k1: nat)
    requires k0 > k1 && k1 < |sc.index| && k1 < U32_BOUND
    ensures SpanOpens(sc, items, held, k0, k1)
  {
  }

  lemma UnkeyedMisses(sc: Scene, items: seq<Item>, k: nat)
    requires k < |sc.index| && k < U32_BOUND && sc.KeyOf(k).None?
    ensures HitOf(sc, items, k) == None
    ensures Offered(items, Canonical(sc.ns, sc.id, k), sc.index[k].chunkLen) == None
  {
    hide ValidatedKey;
  }

  // ---- the first attempt ----

  /** Chunk `i` belongs to slot `k`, which the cache does not offer. */
  ghost predicate MissAt(sc: Scene, items: seq<Item>, k: nat, i: nat)
    requires k < |sc.index| && k < U32_BOUND
  {
    HitOf(sc, items, k).None? && InSlot(sc, k, i)
  }

  lemma {:induction false} ListedIs(sc: Scene, items: seq<Item>, s: nat, f1: nat, i: nat)
    requires f1 < |sc.index| && f1 < U32_BOUND
    ensures i in Todo(sc, items, s, f1) <==> exists k :: s <= k <= f1 && MissAt(sc, items, k, i)
    decreases f1 + 1 - s
  {
    hide HitOf, MissAt, Indices;
    if s <= f1 {
      ListedIs(sc, items, s + 1, f1, i);
      ListedHead(sc, items, s, i);
      assert (exists k :: s <= k <= f1 && MissAt(sc, items, k, i))
             <==> MissAt(sc, items, s, i) || exists k :: s + 1 <= k <= f1 && MissAt(sc, items, k, i);
    }
  }

  lemma ListedHead(sc: Scene, items: seq<Item>, s: nat, i: nat)
    requires s < |sc.index| && s < U32_BOUND
    ensures i in (if HitOf(sc, items, s).Some? then [] else Indices(sc.index[s].chunkStart, End(sc.index, s)))
            <==> MissAt(sc, items, s, i)
  {
    hide HitOf, Indices;
  }

  ghost predicate InSlot(sc: Scene, k: nat, i: nat)
    requires k < |sc.index|
  {
    sc.index[k].chunkStart <= i < End(sc.index, k)
  }

  lemma OneSlot(sc: Scene, j: nat, k: nat, i: nat)
    requires WellFormed(sc.index) && j < |sc.index| && k < |sc.index| && InSlot(sc, j, i) && InSlot(sc, k, i)
    ensures j == k
  {
    if j < k { SlotsAscend(sc.index, j, k); }
    if k < j { SlotsAscend(sc.index, k, j); }
  }

  /** Fetching what is listed leaves at hand exactly the slots that are not offered. */
  lemma ListedComplements(sc: Scene, items: seq<Item>, held: map<nat, Bytes>, k0: nat, k1: nat)
    requires WellFormed(sc.index) && k1 < |sc.index| && k1 < U32_BOUND && held.Keys == Listed(sc, items, k0, k1)
    ensures Complements(sc, items, held, k0, k1)
  {
    hide HitOf, Todo, WellFormed;
    forall k | k0 <= k <= k1
      ensures HitOf(sc, items, k).None? <==> HeldChunks(held, sc.index[k].chunkStart, End(sc.index, k)).Some?
    {
      if HitOf(sc, items, k).None? {
        forall i | sc.index[k].chunkStart <= i < End(sc.index, k) ensures i in held {
          assert MissAt(sc, items, k, i);
          ListedIs(sc, items, k0, k1, i);
        }
      } else {
        var i: nat := sc.index[k].chunkStart;
        NotEmpty(sc, k);
        ListedIs(sc, items, k0, k1, i);
        forall j | k0 <= j <= k1 ensures !MissAt(sc, items, j, i) {
          if MissAt(sc, items, j, i) { OneSlot(sc, j, k, i); }
        }
        assert i !in held;
      }
    }
  }

  lemma NotEmpty(sc: Scene, k: nat)
    requires WellFormed(sc.index) && k < |sc.index|
    ensures InSlot(sc, k, sc.index[k].chunkStart)
  {
    assert Linked(sc.index, k);
  }

  /** The budget has room for the pass: nothing offered is pushed out before its turn. */
  ghost predicate HasRoom(sc: Scene, st: State, held: map<nat, Bytes>, k0: nat, k1: nat)
    requires k1 < |sc.index| && k1 < U32_BOUND
  {
    sc.KeyOf(0).Some? && st.cap.Some? ==>
      R.Room(st.cap.value, WantsOf(sc, st.items, held, k0, k1), R.Sizes(st.items), 0)
  }

  /** Phases A to C, exactly. */
  lemma FirstExact(sc: Scene, st: State, held: map<nat, Bytes>, k0: nat, k1: nat)
    requires CacheRuns.InOrder(st) && k0 <= k1 < |sc.index| && k1 < U32_BOUND
    requires Complements(sc, st.items, held, k0, k1)
    ensures FeedAll(sc, LookAll(sc, st, k0, k1), held, k0, k1).ok
            <==> SpanOpens(sc, st.items, held, k0, k1) && HasRoom(sc, st, held, k0, k1)
  {
    hide *;
    var looked := LookAll(sc, st, k0, k1);
    RoomIs(sc, st, held, k0, k1);
    if sc.KeyOf(0).None? {
      FeedUnkeyed(sc, st.items, looked, held, k0, k1);
    } else {
      var wants := WantsOf(sc, st.items, held, k0, k1);
      LookIsLooked(sc, st, st.items, held, k0, k1);
      WantsDiffer(sc, st.items, held, k0, k1);
      FoundIsHeld(sc, st.items, held, k0, k1);
      R.LookThenPass(st, wants);
      SameIsFaded(sc, st.items, looked.items, k0, k1);
      FeedIsPass(sc, st.items, looked, held, k0, k1);
    }
  }

  lemma RoomIs(sc: Scene, st: State, held: map<nat, Bytes>, k0: nat, k1: nat)
    requires k1 < |sc.index| && k1 < U32_BOUND
    ensures sc.KeyOf(0).None? ==> HasRoom(sc, st, held, k0, k1)
    ensures sc.KeyOf(0).Some? ==>
              (HasRoom(sc, st, held, k0, k1) <==>
                 (st.cap.Some? ==>
                    R.Room(st.cap.value, WantsOf(sc, st.items, held, k0, k1), R.Sizes(st.items), 0)))
  {
    hide R.Room, R.Sizes, WantsOf, Scene.KeyOf;
  }

  lemma SameIsFaded(sc: Scene, was: seq<Item>, now: seq<Item>, k0: nat, k1: nat)
    requires k1 < |sc.index| && k1 < U32_BOUND && forall k :: Lru.Lookup(now, k) == Lru.Lookup(was, k)
    ensures Faded(sc, was, now, k0, k1)
  {
    hide Lru.Lookup, Scene.KeyOf;
  }

  // ---- the retry ----

  /** Evicted slots are gone; nothing else appears. */
  lemma EvictOne(sc: Scene, st: State, s: nat)
    requires CacheRuns.InOrder(st) && s < U32_BOUND
    ensures var now := Step(st, Op.Evict(sc.ns, sc.id, s));
            && CacheRuns.InOrder(now) && now.cap == st.cap
            && (forall k :: Lru.Lookup(st.items, k).None? ==> Lru.Lookup(now.items, k).None?)
            && (sc.KeyOf(s).Some? ==> Lru.Lookup(now.items, sc.KeyOf(s).value).None?)
  {
    hide ValidatedKey, Minus, Table;
    CacheRuns.StepInOrder(st, Op.Evict(sc.ns, sc.id, s));
    if sc.KeyOf(s).Some? { TableMinus(st.items, {sc.KeyOf(s).value}); }
  }

  lemma {:induction false} EvictClears(sc: Scene, st: State, s: nat, f1: nat)
    requires CacheRuns.InOrder(st) && f1 < U32_BOUND
    ensures var now := EvictAll(sc, st, s, f1);
            && CacheRuns.InOrder(now) && now.cap == st.cap
            && (forall k :: Lru.Lookup(st.items, k).None? ==> Lru.Lookup(now.items, k).None?)
            && (forall k :: s <= k <= f1 && sc.KeyOf(k).Some? ==> Lru.Lookup(now.items, sc.KeyOf(k).value).None?)
    decreases f1 + 1 - s
  {
    hide Step, Table, CacheRuns.InOrder, Scene.KeyOf;
    if s <= f1 {
      EvictOne(sc, st, s);
      EvictClears(sc, Step(st, Op.Evict(sc.ns, sc.id, s)), s + 1, f1);
    }
  }

  lemma AbsentMisses(sc: Scene, items: seq<Item>, k: nat)
    requires k < |sc.index| && k < U32_BOUND && (sc.KeyOf(k).Some? ==> Lru.Lookup(items, sc.KeyOf(k).value).None?)
    ensures HitOf(sc, items, k) == None
  {
    hide ValidatedKey, Table, Deframed;
  }

  ghost predicate NoneHit(sc: Scene, items: seq<Item>, k0: nat, k1: nat)
    requires k1 < |sc.index| && k1 < U32_BOUND
  {
    forall k :: k0 <= k <= k1 ==> HitOf(sc, items, k).None?
  }

  /** A slot that is neither cached nor at hand starves the feeding. */
  lemma {:induction false} StarvedFails(sc: Scene, st: State, held: map<nat, Bytes>, k0: nat, k1: nat, k: nat)
    requires k0 <= k <= k1 < |sc.index| && k1 < U32_BOUND && sc.KeyOf(0).Some? && CacheRuns.InOrder(st)
    requires sc.KeyOf(k).Some? ==> Lru.Lookup(st.items, sc.KeyOf(k).value).None?
    requires HeldChunks(held, sc.index[k].chunkStart, End(sc.index, k)).None?
    ensures !FeedAll(sc, st, held, k0, k1).ok
    decreases k1 + 1 - k0
  {
    hide Step, Offered, Frame, C.AllOpen, HeldChunks, Scene.KeyOf, CacheRuns.InOrder, Table, StepGet, StepPut;
    FeedAllNext(sc, st, held, k0, k1);
    FeedIs(sc.index[k0], sc.d, sc.ns, sc.id, k0, st, held);
    KeysDiffer(sc, 0, k0);
    KeysDiffer(sc, k0, k);
    KeyIs(sc, k0);
    var one := Feed(sc.index[k0], sc.d, sc.ns, sc.id, k0, st, held);
    if k == k0 {
      AbsentMisses(sc, st.items, k);
    } else if one.ok {
      var key, got := sc.KeyOf(k0).value, Step(st, Get(sc.ns, sc.id, k0, true));
      GetKeeps(sc, st, k0);
      var chunks := HeldChunks(held, sc.index[k0].chunkStart, Stop(sc.index[k0]));
      if chunks.Some? {
        PutStep(sc, got, k0, Frame(chunks.value));
        R.StoreInOrder(got, key, Frame(chunks.value));
      }
      StarvedFails(sc, one.st, held, k0 + 1, k1, k);
    }
  }

  lemma {:induction false} NothingFoundPasses(st: State, wants: seq<R.Want>)
    requires R.NoneFound(wants)
    ensures R.Passes(st, wants)
    decreases wants
  {
    hide StepGet, StepPut;
    if wants != [] {
      R.NoneFoundNext(wants);
      var w := wants[0];
      NothingFoundPasses(StepPut(StepGet(st, w.key, true), w.key, w.bytes, true), wants[1..]);
    }
  }

  lemma NoneHitFinds(sc: Scene, items: seq<Item>, held: map<nat, Bytes>, k0: nat, k1: nat)
    requires k1 < |sc.index| && k1 < U32_BOUND && sc.KeyOf(0).Some? && k0 <= k1 + 1 && NoneHit(sc, items, k0, k1)
    ensures R.NoneFound(WantsOf(sc, items, held, k0, k1))
  {
    hide Scene.KeyOf, HitOf, Taken, Frame, WantsOf;
    var wants := WantsOf(sc, items, held, k0, k1);
    WantsAre(sc, items, held, k0, k1);
    forall w | w in wants ensures !w.found {
      var i :| 0 <= i < |wants| && wants[i] == w;
      assert wants[k0 + i - k0] == WantOf(sc, items, held, k0 + i);
    }
  }

  /** From chunks at hand alone, feeding is opening. */
  lemma RetryExact(sc: Scene, was: seq<Item>, st: State, held: map<nat, Bytes>, k0: nat, k1: nat)
    requires CacheRuns.InOrder(st) && k0 <= k1 < |sc.index| && k1 < U32_BOUND && WellFormed(sc.index)
    requires Complements(sc, was, held, k0, k1)
    ensures FeedAll(sc, EvictAll(sc, st, k0, k1), held, k0, k1).ok
            <==> NoneHit(sc, was, k0, k1) && SpanOpens(sc, was, held, k0, k1)
  {
    hide *;
    var now := EvictAll(sc, st, k0, k1);
    EvictClears(sc, st, k0, k1);
    if sc.KeyOf(0).None? {
      FeedUnkeyed(sc, was, now, held, k0, k1);
      AllUnkeyed(sc, was, k0, k1);
    } else if NoneHit(sc, was, k0, k1) {
      var wants := WantsOf(sc, was, held, k0, k1);
      NoneHitFinds(sc, was, held, k0, k1);
      NothingFoundPasses(now, wants);
      GoneIsFaded(sc, was, now.items, k0, k1);
      FeedIsPass(sc, was, now, held, k0, k1);
    } else {
      var k := SomeHit(sc, was, held, k0, k1);
      StarvedFails(sc, now, held, k0, k1, k);
    }
  }

  lemma AllUnkeyed(sc: Scene, items: seq<Item>, k0: nat, k1: nat)
    requires k1 < |sc.index| && k1 < U32_BOUND && sc.KeyOf(0).None?
    ensures NoneHit(sc, items, k0, k1)
  {
    forall k | k0 <= k <= k1 ensures HitOf(sc, items, k).None? {
      KeysDiffer(sc, 0, k);
      UnkeyedMisses(sc, items, k);
    }
  }

  lemma GoneIsFaded(sc: Scene, was: seq<Item>, now: seq<Item>, k0: nat, k1: nat)
    requires k1 < |sc.index| && k1 < U32_BOUND
    requires forall k :: k0 <= k <= k1 && sc.KeyOf(k).Some? ==> Lru.Lookup(now, sc.KeyOf(k).value).None?
    ensures Faded(sc, was, now, k0, k1)
  {
    hide Lru.Lookup, Scene.KeyOf;
  }

  lemma SomeHit(sc: Scene, items: seq<Item>, held: map<nat, Bytes>, k0: nat, k1: nat) returns (k: nat)
    requires k1 < |sc.index| && k1 < U32_BOUND && !NoneHit(sc, items, k0, k1) && Complements(sc, items, held, k0, k1)
    requires WellFormed(sc.index)
    ensures k0 <= k <= k1 && HeldChunks(held, sc.index[k].chunkStart, End(sc.index, k)).None?
  {
    hide HitOf, HeldChunks;
    k :| k0 <= k <= k1 && !HitOf(sc, items, k).None?;
  }

  // ---- the request, exactly ----

  /** What was gathered, and what the proxy then gave for the direct chunks among it. */
  ghost function Fetched(sc: Scene, items: seq<Item>, k0: nat, k1: nat, routed: Answers): Option<map<nat, Bytes>>
    requires k1 < |sc.index| && k1 < U32_BOUND
  {
    Gathered(routed, Listed(sc, items, k0, k1))
  }

  ghost function Repaired(held: map<nat, Bytes>, direct: set<nat>, proxied: Answers): Option<map<nat, Bytes>> {
    var again := Gathered(proxied, direct * held.Keys);
    if again.None? then None else Some(held + again.value)
  }

  /**
   One request over any cache and any steady sources. It is served exactly if everything listed
   could be fetched and either every slot opens, from the cache or from what was fetched, and the
   budget has room; or nothing of the span was offered, a direct link was used, and everything opens
   once the direct chunks are replaced by proxied ones.
   */
  lemma ServeExact(sc: Scene, st: State, k0: nat, k1: nat, routed: Answers, direct: set<nat>, proxied: Answers)
    requires WellFormed(sc.index) && CacheRuns.InOrder(st) && k0 <= k1 < |sc.index| && k1 < U32_BOUND
    ensures var held := Fetched(sc, st.items, k0, k1, routed);
            Serve(sc, st, k0, k1, routed, direct, proxied).ok
            <==> held.Some?
                 && ((SpanOpens(sc, st.items, held.value, k0, k1) && HasRoom(sc, st, held.value, k0, k1))
                     || (NoneHit(sc, st.items, k0, k1) && !(held.value.Keys !! direct)
                         && Repaired(held.value, direct, proxied).Some?
                         && SpanOpens(sc, st.items, Repaired(held.value, direct, proxied).value, k0, k1)))
  {
    hide *;
    ServeIs(sc, st, k0, k1, routed, direct, proxied);
    var held := Fetched(sc, st.items, k0, k1, routed);
    if held.Some? {
      var looked := LookAll(sc, st, k0, k1);
      FetchedKeys(sc, st.items, k0, k1, routed, direct, proxied);
      ListedComplements(sc, st.items, held.value, k0, k1);
      FirstExact(sc, st, held.value, k0, k1);
      LookKeeps(sc, st, k0, k1);
      FeedInOrder(sc, looked, held.value, k0, k1);
      var repaired := Repaired(held.value, direct, proxied);
      if repaired.Some? {
        ListedComplements(sc, st.items, repaired.value, k0, k1);
        RetryExact(sc, st.items, FeedAll(sc, looked, held.value, k0, k1).st, repaired.value, k0, k1);
      }
    }
  }

  lemma ServeIs(sc: Scene, st: State, k0: nat, k1: nat, routed: Answers, direct: set<nat>, proxied: Answers)
    requires k1 < |sc.index| && k1 < U32_BOUND
    ensures var looked, held := LookAll(sc, st, k0, k1), Fetched(sc, st.items, k0, k1, routed);
            var now := Serve(sc, st, k0, k1, routed, direct, proxied);
            && (held.None? ==> now == Outcome(false, looked))
            && (held.Some? ==>
                  var first, repaired := FeedAll(sc, looked, held.value, k0, k1), Repaired(held.value, direct, proxied);
                  && (first.ok || held.value.Keys !! direct ==> now == first)
                  && (!first.ok && !(held.value.Keys !! direct) && repaired.None? ==> now == Outcome(false, first.st))
                  && (!first.ok && !(held.value.Keys !! direct) && repaired.Some? ==>
                        now == FeedAll(sc, EvictAll(sc, first.st, k0, k1), repaired.value, k0, k1)))
  {
    hide LookAll, Gathered, FeedAll, EvictAll, Listed;
  }

  lemma FetchedKeys(sc: Scene, items: seq<Item>, k0: nat, k1: nat, routed: Answers, direct: set<nat>, proxied: Answers)
    requires k1 < |sc.index| && k1 < U32_BOUND && Fetched(sc, items, k0, k1, routed).Some?
    ensures var held := Fetched(sc, items, k0, k1, routed).value;
            && held.Keys == Listed(sc, items, k0, k1)
            && (Repaired(held, direct, proxied).Some? ==>
                  Repaired(held, direct, proxied).value.Keys == Listed(sc, items, k0, k1))
  {
    hide Listed;
  }

  /** Feeding keeps the list in order, and every budget. */
  lemma {:induction false} FeedInOrder(sc: Scene, st: State, held: map<nat, Bytes>, k0: nat, k1: nat)
    requires k1 < |sc.index| && k1 < U32_BOUND && CacheRuns.InOrder(st)
    ensures CacheRuns.InOrder(FeedAll(sc, st, held, k0, k1).st)
    decreases k1 + 1 - k0
  {
    hide *;
    FeedAllNext(sc, st, held, k0, k1);
    if k0 <= k1 {
      FeedIs(sc.index[k0], sc.d, sc.ns, sc.id, k0, st, held);
      var got := Step(st, Get(sc.ns, sc.id, k0, true));
      CacheRuns.StepInOrder(st, Get(sc.ns, sc.id, k0, true));
      SlotOrder(sc, k0);
      var chunks := HeldChunks(held, sc.index[k0].chunkStart, Stop(sc.index[k0]));
      if chunks.Some? { CacheRuns.StepInOrder(got, Op.Put(sc.ns, sc.id, k0, Frame(chunks.value), true)); }
      FeedInOrder(sc, Feed(sc.index[k0], sc.d, sc.ns, sc.id, k0, st, held).st, held, k0 + 1, k1);
    }
  }

  lemma SlotOrder(sc: Scene, k: nat)
    requires k < |sc.index|
    ensures sc.index[k].chunkStart <= Stop(sc.index[k]) == End(sc.index, k)
  {
  }
}
