/**
 Plaintext byte ranges out of the ciphertext cache and a chunk source: client-app/src/video.rs
 `feed_fragment` and client-app/src/stream.rs `assemble_range`.
 */
module Playback {
  import opened Machine
  import opened Wrappers
  import opened Framing
  import opened FragmentIndex
  import C = Content
  import opened RangePlan
  import opened BlobKeys
  import opened Lru
  import CacheRuns
  import BC = BlobCache

  datatype PlayError = VideoFailed | FetchFailed

  /** `FnMut(u64) -> Result<Vec<u8>, _>`: an answer may depend on everything asked before. */
  type Answers = (seq<nat>, nat) -> Option<Bytes>

  class Fetcher {
    const answers: Answers
    var asked: seq<nat>

    constructor (answers: Answers)
      ensures this.answers == answers && asked == []
    {
      this.answers, asked := answers, [];
    }

    method Fetch(i: nat) returns (r: Option<Bytes>)
      modifies `asked
      ensures r == answers(old(asked), i) && asked == old(asked) + [i]
    {
      r := answers(asked, i);
      asked := asked + [i];
    }
  }

  /** Each chunk of `[lo, hi)` is answered with the uploaded ciphertext, at least the first time. */
  ghost predicate Honest(answers: Answers, cts: seq<Bytes>, lo: nat, hi: nat) {
    hi <= |cts| && forall h, i :: lo <= i < hi && i !in h ==> answers(h, i) == Some(cts[i])
  }

  /** Some answer for `i` is a success. */
  ghost predicate Answered(answers: Answers, i: nat) { exists h :: answers(h, i).Some? }

  /** What the cache offers for a fragment of `len` chunks: a blob that deframes to exactly that many. */
  ghost function Offered(items: seq<Item>, key: Option<Key>, len: nat): Option<seq<Bytes>> {
    if key.None? || Lru.Lookup(items, key.value).None? then None
    else
      var chunks := Deframed(Lru.Lookup(items, key.value).value);
      if chunks.Some? && |chunks.value| == len then chunks else None
  }

  /** An entry is clean if it is the genuine frame or would be treated as a miss. */
  ghost predicate Clean(items: seq<Item>, key: Option<Key>, lo: nat, hi: nat, cts: seq<Bytes>) {
    lo <= hi <= |cts| && (Offered(items, key, hi - lo) == None || Offered(items, key, hi - lo) == Some(cts[lo..hi]))
  }

  /** Every key holds what it held, or nothing. */
  ghost predicate OnlyForgets(was: seq<Item>, now: seq<Item>) {
    forall k :: Lru.Lookup(now, k) == None || Lru.Lookup(now, k) == Lru.Lookup(was, k)
  }

  /** Every key but one holds what it held, or nothing; that one may also hold `bytes`. */
  ghost predicate OnlyStores(was: seq<Item>, now: seq<Item>, key: Option<Key>, bytes: Bytes) {
    forall k :: Lru.Lookup(now, k) == None || Lru.Lookup(now, k) == Lru.Lookup(was, k)
                || (key == Some(k) && Lru.Lookup(now, k) == Some(bytes))
  }

  lemma GetOnlyForgets(s: State, ns: Ns, id: string, sub: u32, readable: bool)
    requires CacheRuns.InOrder(s)
    ensures OnlyForgets(s.items, Step(s, Get(ns, id, sub, readable)).items)
  {
    var op := Get(ns, id, sub, readable);
    var now := Step(s, op).items;
    forall k ensures Lru.Lookup(now, k) == None || Lru.Lookup(now, k) == Lru.Lookup(s.items, k) {
      hide Step, Canonical;
      if k in Table(now) { CacheRuns.StepKeeps(s, op, k); }
    }
  }

  lemma PutOnlyStores(s: State, ns: Ns, id: string, sub: u32, bytes: Bytes, wrote: bool)
    requires CacheRuns.InOrder(s)
    ensures OnlyStores(s.items, Step(s, Op.Put(ns, id, sub, bytes, wrote)).items, Canonical(ns, id, sub), bytes)
  {
    var op := Op.Put(ns, id, sub, bytes, wrote);
    var now := Step(s, op).items;
    forall k
      ensures Lru.Lookup(now, k) == None || Lru.Lookup(now, k) == Lru.Lookup(s.items, k)
              || (Canonical(ns, id, sub) == Some(k) && Lru.Lookup(now, k) == Some(bytes))
    {
      hide Step, Canonical;
      if k in Table(now) { CacheRuns.StepKeeps(s, op, k); }
    }
  }

  /** `|i| map.remove(&i)`: each held chunk once, nothing else. */
  function RemoveFrom(held: map<nat, Bytes>): Answers {
    (h: seq<nat>, i: nat) => if i in held && i !in h then Some(held[i]) else None
  }

  /** The chunks `[lo, hi)`, if all of them are at hand. */
  function HeldChunks(held: map<nat, Bytes>, lo: nat, hi: nat): (r: Option<seq<Bytes>>)
    requires lo <= hi
    ensures r.Some? <==> forall i :: lo <= i < hi ==> i in held
    ensures r.Some? ==> |r.value| == hi - lo && forall i :: lo <= i < hi ==> r.value[i - lo] == held[i]
  {
    if forall i :: lo <= i < hi ==> i in held
    then Some(seq(hi - lo, j requires 0 <= j < hi - lo => held[lo + j]))
    else None
  }

  /** What a step comes to: whether it succeeds, and the cache it leaves. */
  datatype Outcome = Outcome(ok: bool, st: State)

  /**
   `feed_fragment` over a cache that does not fail, from chunks at hand: a hit is opened, and a
   miss is stored before it is opened, whether or not it then opens.
   */
  ghost function Feed(e: FragmentEntry, d: C.ContentDecryptor, ns: Ns, id: string, s: u32, st: State,
                         held: map<nat, Bytes>): Outcome
  {
    var got, hit := Step(st, Get(ns, id, s, true)), Offered(st.items, Canonical(ns, id, s), e.chunkLen);
    if hit.Some? then Outcome(C.AllOpen(d, e.chunkStart, hit.value), got)
    else
      var chunks := HeldChunks(held, e.chunkStart, Stop(e));
      if chunks.None? then Outcome(false, got)
      else Outcome(C.AllOpen(d, e.chunkStart, chunks.value), Step(got, Op.Put(ns, id, s, Frame(chunks.value), true)))
  }

  /** The source hands out `held`, and has not been asked for any of these chunks. */
  ghost predicate Hands(answers: Answers, asked: seq<nat>, held: map<nat, Bytes>, lo: nat, hi: nat) {
    answers == RemoveFrom(held) && forall i :: lo <= i < hi ==> i !in asked
  }

  /** Getting what is not there, and putting under no key, changes nothing. */
  lemma NothingToDo(st: State, ns: Ns, id: string, s: u32, bytes: Bytes, flag: bool)
    ensures var key := Canonical(ns, id, s);
            && (key.None? ==> Step(st, Op.Put(ns, id, s, bytes, flag)) == st)
            && (key.None? || Lru.Lookup(st.items, key.value).None? ==> Step(st, Get(ns, id, s, flag)) == st)
  {
  }

  /** The cache half of `feed_fragment`: a blob that is corrupt or of the wrong count is a miss. */
  method CachedChunks(cache: BC.BlobCache, ns: Ns, id: string, s: u32, len: u64) returns (r: Option<seq<Bytes>>)
    requires cache.Valid()
    modifies cache
    ensures cache.Valid() && cache.backend.Disk? == old(cache.backend.Disk?)
    ensures cache.faults >= old(cache.faults) && (cache.backend.Memory? ==> cache.faults == old(cache.faults))
    ensures OnlyForgets(old(cache.items), cache.items)
    ensures r.Some? || cache.faults == old(cache.faults) ==> r == Offered(old(cache.items), Canonical(ns, id, s), len)
    ensures cache.faults == old(cache.faults) ==> cache.View() == Step(old(cache.View()), Get(ns, id, s, true))
  {
    hide Step, ValidatedKey, Table, Deframed;
    ghost var was := cache.View();
    var blob := cache.Get(ns, id, s);
    GetOnlyForgets(was, ns, id, s, blob.Some?);
    NothingToDo(was, ns, id, s, [], true);
    NothingToDo(was, ns, id, s, [], false);
    if blob.None? { return None; }
    var chunks := DeframeChunks(blob.value);
    return if chunks.Some? && |chunks.value| == len then chunks else None;
  }

  /** The chunks `[lo, hi)` in order. */
  function Indices(lo: nat, hi: nat): (r: seq<nat>)
    requires lo <= hi
    ensures forall i :: i in r <==> lo <= i < hi
  {
    if lo == hi then [] else Indices(lo, hi - 1) + [hi - 1]
  }

  lemma AllHeld(held: map<nat, Bytes>, lo: nat, hi: nat, chunks: seq<Bytes>)
    requires lo <= hi && |chunks| == hi - lo && forall i :: lo <= i < hi ==> i in held && chunks[i - lo] == held[i]
    ensures HeldChunks(held, lo, hi) == Some(chunks)
  {
    var r := HeldChunks(held, lo, hi);
    assert r.Some?;
    forall j | 0 <= j < hi - lo ensures r.value[j] == chunks[j] {
      var i := lo + j;
      assert r.value[i - lo] == held[i] == chunks[i - lo];
    }
    assert r.value == chunks;
  }

  /** The network half: every chunk by its absolute index, in order, stopping at the first failure. */
  method FetchChunks(source: Fetcher, lo: nat, hi: nat, ghost cts: seq<Bytes>, ghost held: map<nat, Bytes>)
    returns (r: Option<seq<Bytes>>)
    requires lo <= hi
    modifies source
    ensures forall i :: i in source.asked ==> i in old(source.asked) || lo <= i < hi
    ensures r.Some? ==> source.asked == old(source.asked) + Indices(lo, hi)
    ensures r.Some? ==> |r.value| == hi - lo && forall i :: lo <= i < hi ==> Answered(source.answers, i)
    ensures Honest(source.answers, cts, lo, hi) && (forall i :: lo <= i < hi ==> i !in old(source.asked))
            ==> r == Some(cts[lo..hi])
    ensures Hands(source.answers, old(source.asked), held, lo, hi) ==> r == HeldChunks(held, lo, hi)
  {
    var chunks: seq<Bytes> := [];
    ghost var honest := Honest(source.answers, cts, lo, hi) && forall i :: lo <= i < hi ==> i !in old(source.asked);
    ghost var hands := Hands(source.answers, source.asked, held, lo, hi);
    for i := lo to hi
      invariant |chunks| == i - lo && source.asked == old(source.asked) + Indices(lo, i)
      invariant forall j :: j in source.asked ==> j in old(source.asked) || lo <= j < i
      invariant forall j :: lo <= j < i ==> Answered(source.answers, j)
      invariant honest ==> chunks == cts[lo..i]
      invariant hands ==> forall j :: lo <= j < i ==> j in held && chunks[j - lo] == held[j]
    {
      var c := source.Fetch(i);
      if c.None? { return None; }
      chunks := chunks + [c.value];
    }
    if hands { AllHeld(held, lo, hi, chunks); }
    return Some(chunks);
  }

  /** The fragment numbered `s` exists and lies within the signed chunk count. */
  ghost predicate InBounds(index: seq<FragmentEntry>, d: C.ContentDecryptor, s: u32) {
    var e := FragmentIndex.Lookup(index, s);
    e.Some? && Stop(e.value) <= d.chunkCount
  }

  function Stop(e: FragmentEntry): nat { e.chunkStart + e.chunkLen }

  /** `cts` is what the author uploaded, in chunks whose length fits the frame's `u32`. */
  ghost predicate Uploaded(d: C.ContentDecryptor, cts: seq<Bytes>) {
    C.Genuine(d, cts) && forall i :: 0 <= i < |cts| ==> |cts[i]| < U32_BOUND
  }

  /** The source is honest about these chunks and has not been asked for them yet. */
  ghost predicate Supplies(answers: Answers, asked: seq<nat>, cts: seq<Bytes>, lo: nat, hi: nat) {
    Honest(answers, cts, lo, hi) && forall i :: lo <= i < hi ==> i !in asked
  }

  /** What feeding one fragment does to the cache and the source. */
  ghost predicate Traffic(e: FragmentEntry, key: Option<Key>, was: seq<Item>, now: seq<Item>, kept: bool,
                          answers: Answers, asked: seq<nat>, asked': seq<nat>, cts: seq<Bytes>, got: bool)
  {
    var lo, hi := e.chunkStart, Stop(e);
    // No other entry gains or changes, and an honest source stores the genuine frame.
    && OnlyTouches(was, now, key)
    && (Supplies(answers, asked, cts, lo, hi) ==> OnlyStores(was, now, key, Frame(cts[lo..hi])))
    // Only this fragment is asked for, all of it on a miss, none of it on a hit that can be read.
    && (forall i :: i in asked' ==> i in asked || lo <= i < hi)
    && (Offered(was, key, e.chunkLen) == None && got ==> forall i :: lo <= i < hi ==> Answered(answers, i))
    && (kept && Offered(was, key, e.chunkLen).Some? ==> asked' == asked)
  }

  /** Every key but one holds what it held, or nothing. */
  ghost predicate OnlyTouches(was: seq<Item>, now: seq<Item>, key: Option<Key>) {
    forall k :: key == Some(k) || Lru.Lookup(now, k) == None || Lru.Lookup(now, k) == Lru.Lookup(was, k)
  }

  lemma StoreAfterForget(was: seq<Item>, mid: seq<Item>, now: seq<Item>, key: Option<Key>, bytes: Bytes)
    requires OnlyForgets(was, mid) && OnlyStores(mid, now, key, bytes)
    ensures OnlyStores(was, now, key, bytes) && OnlyTouches(was, now, key)
  {
    forall k
      ensures Lru.Lookup(now, k) == None || Lru.Lookup(now, k) == Lru.Lookup(was, k)
              || (key == Some(k) && Lru.Lookup(now, k) == Some(bytes))
    {
      assert Lru.Lookup(mid, k) == None || Lru.Lookup(mid, k) == Lru.Lookup(was, k);
    }
  }

  lemma ForgetIsHarmless(was: seq<Item>, now: seq<Item>, key: Option<Key>, bytes: Bytes)
    requires OnlyForgets(was, now)
    ensures OnlyStores(was, now, key, bytes) && OnlyTouches(was, now, key)
  {
  }

  /** The ciphertext half of `feed_fragment`: cache hit, or fetch and store; a failed store is ignored. */
  method ObtainChunks(cache: BC.BlobCache, ns: Ns, id: string, s: u32, e: FragmentEntry, source: Fetcher,
                      ghost cts: seq<Bytes>, ghost held: map<nat, Bytes>)
    returns (r: Option<seq<Bytes>>)
    requires cache.Valid()
    modifies cache, source
    ensures cache.Valid() && cache.backend.Disk? == old(cache.backend.Disk?)
    ensures cache.faults >= old(cache.faults) && (cache.backend.Memory? ==> cache.faults == old(cache.faults))
    ensures r.Some? ==> |r.value| == e.chunkLen
    ensures Supplies(source.answers, old(source.asked), cts, e.chunkStart, Stop(e))
            && Clean(old(cache.items), Canonical(ns, id, s), e.chunkStart, Stop(e), cts)
            ==> r == Some(cts[e.chunkStart..Stop(e)])
    ensures Traffic(e, Canonical(ns, id, s), old(cache.items), cache.items, cache.faults == old(cache.faults),
                    source.answers, old(source.asked), source.asked, cts, r.Some?)
    ensures cache.faults == old(cache.faults) ==>
              var got, hit := Step(old(cache.View()), Get(ns, id, s, true)),
                              Offered(old(cache.items), Canonical(ns, id, s), e.chunkLen);
              && (hit.Some? ==> r == hit && cache.View() == got)
              && (hit.None? && Hands(source.answers, old(source.asked), held, e.chunkStart, Stop(e)) ==>
                    && r == HeldChunks(held, e.chunkStart, Stop(e))
                    && cache.View() == if r.None? then got else Step(got, Op.Put(ns, id, s, Frame(r.value), true)))
  {
    hide ValidatedKey, Step, Table, Deframed, Frame, Lru.Lookup, OnlyForgets, OnlyStores, OnlyTouches, Answered, Hands,
      HeldChunks;
    ghost var key, was := Canonical(ns, id, s), cache.items;
    r := CachedChunks(cache, ns, id, s, e.chunkLen);
    ghost var mid := cache.View();
    ForgetIsHarmless(was, mid.items, key, Frame(if Stop(e) <= |cts| then cts[e.chunkStart..Stop(e)] else []));
    if r.Some? { return; }
    r := FetchChunks(source, e.chunkStart, Stop(e), cts, held);
    if r.None? { return; }
    var blob := FrameChunks(r.value);
    var stored := cache.Put(ns, id, s, blob);
    PutOnlyStores(mid, ns, id, s, blob, stored.Ok?);
    NothingToDo(mid, ns, id, s, blob, true);
    NothingToDo(mid, ns, id, s, blob, false);
    assert stored.Ok? || stored.error == BC.InvalidInput || stored.error == BC.WriteFailed;
    StoreAfterForget(was, mid.items, cache.items, key, blob);
  }

  /** What one fed fragment promises: sound from anything, complete from a clean entry and an honest source. */
  ghost predicate Fed(e: FragmentEntry, d: C.ContentDecryptor, key: Option<Key>, was: seq<Item>,
                      answers: Answers, asked: seq<nat>, content: Bytes, cs: nat, cts: seq<Bytes>,
                      r: Result<Bytes, PlayError>)
  {
    var lo, hi := e.chunkStart, Stop(e);
    && (C.Binds(d, content, cs) && r.Ok? ==> r.value == C.ChunkBytes(content, cs, lo, hi))
    && (Uploaded(d, cts) && Supplies(answers, asked, cts, lo, hi) && Clean(was, key, lo, hi, cts) ==> r.Ok?)
  }

  /** `feed_fragment`; the sink's plaintext is the result. */
  method FeedFragment(index: seq<FragmentEntry>, cache: BC.BlobCache, ns: Ns, d: C.ContentDecryptor, id: string,
                      s: u32, source: Fetcher, ghost content: Bytes, ghost cs: nat, ghost cts: seq<Bytes>,
                      ghost held: map<nat, Bytes>)
    returns (r: Result<Bytes, PlayError>)
    requires cache.Valid() && d.chunkCount >= 1
    modifies cache, source
    ensures cache.Valid() && cache.backend.Disk? == old(cache.backend.Disk?)
    ensures cache.faults >= old(cache.faults) && (cache.backend.Memory? ==> cache.faults == old(cache.faults))
    ensures !InBounds(index, d, s) ==> r == Err(VideoFailed) && cache.items == old(cache.items)
                                       && cache.View() == old(cache.View()) && source.asked == old(source.asked)
    ensures InBounds(index, d, s) ==>
              var e := FragmentIndex.Lookup(index, s).value;
              && Fed(e, d, Canonical(ns, id, s), old(cache.items), source.answers, old(source.asked), content, cs, cts,
                     r)
              && Traffic(e, Canonical(ns, id, s), old(cache.items), cache.items, cache.faults == old(cache.faults),
                         source.answers, old(source.asked), source.asked, cts, r.Ok?)
              && (cache.faults == old(cache.faults)
                  && Hands(source.answers, old(source.asked), held, e.chunkStart, Stop(e)) ==>
                    Outcome(r.Ok?, cache.View()) == Feed(e, d, ns, id, s, old(cache.View()), held))
  {
    hide *;
    InBoundsIff(index, d, s);
    var found := FragmentIndex.Lookup(index, s);
    if found.None? { return Err(VideoFailed); }
    var e := found.value;
    if Stop(e) > d.chunkCount { return Err(VideoFailed); }
    ghost var st, was, asked := cache.View(), cache.items, source.asked;
    ViewParts(cache);
    FeedIs(e, d, ns, id, s, st, held);
    var chunks := ObtainChunks(cache, ns, id, s, e, source, cts, held);
    if chunks.None? {
      FetchFailedIsFed(e, d, Canonical(ns, id, s), was, source.answers, asked, content, cs, cts);
      return Err(FetchFailed);
    }
    var plain := C.OpenRange(d, e.chunkStart, chunks.value);
    r := if plain.Ok? then Ok(plain.value) else Err(VideoFailed);
    OpenedIsFed(e, d, Canonical(ns, id, s), was, source.answers, asked, content, cs, cts, chunks.value, r);
    TrafficOfFailure(e, Canonical(ns, id, s), was, cache.items, cache.faults == old(cache.faults), source.answers,
                     asked, source.asked, cts, r.Ok?);
  }

  lemma FeedIs(e: FragmentEntry, d: C.ContentDecryptor, ns: Ns, id: string, s: u32, st: State, held: map<nat, Bytes>)
    ensures var got, hit, now := Step(st, Get(ns, id, s, true)), Offered(st.items, Canonical(ns, id, s), e.chunkLen),
                                 Feed(e, d, ns, id, s, st, held);
            && (hit.Some? ==> now == Outcome(C.AllOpen(d, e.chunkStart, hit.value), got))
            && (hit.None? ==>
                  var chunks := HeldChunks(held, e.chunkStart, Stop(e));
                  && (chunks.None? ==> now == Outcome(false, got))
                  && (chunks.Some? ==> now == Outcome(C.AllOpen(d, e.chunkStart, chunks.value),
                                                      Step(got, Op.Put(ns, id, s, Frame(chunks.value), true)))))
  {
    hide Step, Offered, Canonical, C.AllOpen, Frame;
  }

  lemma ViewParts(cache: BC.BlobCache)
    ensures cache.View().items == cache.items && cache.View().cap == cache.cap
  {
  }

  lemma InBoundsIff(index: seq<FragmentEntry>, d: C.ContentDecryptor, s: u32)
    ensures var e := FragmentIndex.Lookup(index, s); InBounds(index, d, s) <==> e.Some? && Stop(e.value) <= d.chunkCount
    ensures forall e :: Stop(e) == e.chunkStart + e.chunkLen
  {
  }

  lemma FetchFailedIsFed(e: FragmentEntry, d: C.ContentDecryptor, key: Option<Key>, was: seq<Item>,
                         answers: Answers, asked: seq<nat>, content: Bytes, cs: nat, cts: seq<Bytes>)
    requires !(Supplies(answers, asked, cts, e.chunkStart, Stop(e)) && Clean(was, key, e.chunkStart, Stop(e), cts))
    ensures Fed(e, d, key, was, answers, asked, content, cs, cts, Err(FetchFailed))
  {
    hide Supplies, Clean, Stop, C.Binds, C.ChunkBytes;
  }

  lemma TrafficOfFailure(e: FragmentEntry, key: Option<Key>, was: seq<Item>, now: seq<Item>, kept: bool,
                         answers: Answers, asked: seq<nat>, asked': seq<nat>, cts: seq<Bytes>, got: bool)
    requires Traffic(e, key, was, now, kept, answers, asked, asked', cts, true)
    ensures Traffic(e, key, was, now, kept, answers, asked, asked', cts, got)
  {
    hide Supplies, Offered, OnlyStores, OnlyTouches, Frame;
  }

  /** Opening the obtained chunks meets the promise of `Fed`. */
  lemma OpenedIsFed(e: FragmentEntry, d: C.ContentDecryptor, key: Option<Key>, was: seq<Item>, answers: Answers,
                    asked: seq<nat>, content: Bytes, cs: nat, cts: seq<Bytes>, chunks: seq<Bytes>,
                    r: Result<Bytes, PlayError>)
    requires Stop(e) <= d.chunkCount && |chunks| == e.chunkLen
    requires Supplies(answers, asked, cts, e.chunkStart, Stop(e)) && Clean(was, key, e.chunkStart, Stop(e), cts)
             ==> chunks == cts[e.chunkStart..Stop(e)]
    requires r.Ok? <==> C.AllOpen(d, e.chunkStart, chunks)
    requires r.Ok? ==> r.value == C.Plain(d, e.chunkStart, chunks)
    ensures Fed(e, d, key, was, answers, asked, content, cs, cts, r)
  {
    hide C.Binds, C.ChunkBytes, C.Plain, Offered;
    OpenedIsContent(d, content, cs, e.chunkStart, chunks);
    if Uploaded(d, cts) && Stop(e) <= |cts| { UploadedOpens(d, cts, e.chunkStart, Stop(e)); }
  }

  lemma OpenedIsContent(d: C.ContentDecryptor, content: Bytes, cs: nat, lo: nat, chunks: seq<Bytes>)
    requires lo + |chunks| <= d.chunkCount
    ensures C.Binds(d, content, cs) && C.AllOpen(d, lo, chunks)
            ==> C.Plain(d, lo, chunks) == C.ChunkBytes(content, cs, lo, lo + |chunks|)
  {
    if C.Binds(d, content, cs) && C.AllOpen(d, lo, chunks) { C.PlainIsContent(d, content, cs, lo, chunks); }
  }

  lemma UploadedOpens(d: C.ContentDecryptor, cts: seq<Bytes>, lo: nat, hi: nat)
    requires C.Genuine(d, cts) && lo <= hi <= |cts|
    ensures C.AllOpen(d, lo, cts[lo..hi])
  {
  }

  // ---- a span of fragments ----

  /** Everything a playback session is about, for the contracts. */
  datatype Scene = Scene(index: seq<FragmentEntry>, ns: Ns, id: string, d: C.ContentDecryptor,
                         content: Bytes, cs: nat, cts: seq<Bytes>)
  {
    /** The first chunk of slot `k`; past the last slot, the end of the coverage. */
    ghost function Pos(k: nat): nat
      requires index != []
    {
      if k < |index| then index[k].chunkStart else Coverage(index)
    }

    ghost predicate Sound() { WellFormed(index) && cs >= 1 && d.chunkCount >= 1 && C.Binds(d, content, cs) }

    /** The chunks were uploaded, and the index stays within them. */
    ghost predicate Whole() { Sound() && Uploaded(d, cts) && Coverage(index) <= d.chunkCount }

    /** The index stays within the signed chunk count. */
    ghost predicate Covered() { WellFormed(index) && Coverage(index) <= d.chunkCount }

    ghost function KeyOf(k: nat): Option<Key>
      requires k < U32_BOUND
    {
      Canonical(ns, id, k)
    }

    ghost predicate SlotClean(items: seq<Item>, k: nat)
      requires k < |index| && k < U32_BOUND
    {
      Clean(items, KeyOf(k), index[k].chunkStart, End(index, k), cts)
    }

    ghost predicate SlotMissed(items: seq<Item>, k: nat)
      requires k < |index| && k < U32_BOUND
    {
      Offered(items, KeyOf(k), index[k].chunkLen) == None
    }

    /** The genuine frame of slot `k`. */
    ghost function FrameOf(k: nat): Bytes
      requires k < |index|
    {
      if End(index, k) <= |cts| then Frame(cts[index[k].chunkStart..End(index, k)]) else []
    }

    ghost predicate SlotIn(items: seq<Item>, k: nat)
      requires k < U32_BOUND
    {
      KeyOf(k).Some? && Lru.Lookup(items, KeyOf(k).value).Some?
    }

    /** Slot `k` is absent, or held as its genuine frame. */
    ghost predicate SlotTidy(items: seq<Item>, k: nat)
      requires k < |index| && k < U32_BOUND
    {
      SlotIn(items, k) ==> Lru.Lookup(items, KeyOf(k).value) == Some(FrameOf(k)) && index[k].chunkLen < U32_BOUND
    }

    ghost predicate SpanClean(items: seq<Item>, lo: nat, hi: nat) {
      forall k :: lo <= k < hi && k < |index| && k < U32_BOUND ==> SlotClean(items, k)
    }

    ghost predicate SpanMissed(items: seq<Item>, lo: nat, hi: nat) {
      forall k :: lo <= k < hi && k < |index| && k < U32_BOUND ==> SlotMissed(items, k)
    }
  }

  lemma PosStep(sc: Scene, k: nat)
    requires WellFormed(sc.index) && k < |sc.index|
    ensures sc.Pos(k + 1) == End(sc.index, k) > sc.Pos(k)
    ensures k < U32_BOUND ==> FragmentIndex.Lookup(sc.index, k) == Some(sc.index[k])
  {
    assert Linked(sc.index, k) && (k + 1 < |sc.index| ==> Linked(sc.index, k + 1));
    if k < U32_BOUND { LookupSlot(sc.index, k); }
  }

  lemma {:induction false} PosMono(sc: Scene, j: nat, k: nat)
    requires WellFormed(sc.index) && j <= k <= |sc.index|
    ensures sc.Pos(j) <= sc.Pos(k) <= Coverage(sc.index)
    decreases |sc.index| - j
  {
    if j < |sc.index| { PosStep(sc, j); }
    if j < k { PosMono(sc, j + 1, k); } else if k < |sc.index| { PosMono(sc, k + 1, |sc.index|); }
  }

  /** An entry rewritten with the genuine frame is clean, even where the frame's count is truncated. */
  lemma CleanAfterStore(was: seq<Item>, now: seq<Item>, key: Option<Key>, lo: nat, hi: nat, cts: seq<Bytes>)
    requires lo <= hi <= |cts| && (forall i :: 0 <= i < |cts| ==> |cts[i]| < U32_BOUND)
    requires OnlyStores(was, now, key, Frame(cts[lo..hi])) && Clean(was, key, lo, hi, cts)
    ensures Clean(now, key, lo, hi, cts)
  {
    hide Table, Frame;
    if key.Some? && Lru.Lookup(now, key.value) == Some(Frame(cts[lo..hi])) {
      if hi - lo < U32_BOUND {
        assert Fits(cts[lo..hi]);
        DeframeInvertsFrame(cts[lo..hi]);
      } else {
        OverlongCountIsAMiss(cts[lo..hi]);
      }
    }
  }

  lemma OtherKeys(sc: Scene, was: seq<Item>, now: seq<Item>, j: nat, k: nat)
    requires j < U32_BOUND && k < U32_BOUND && j != k && k < |sc.index| && OnlyTouches(was, now, sc.KeyOf(j))
    ensures sc.SlotClean(was, k) ==> sc.SlotClean(now, k)
    ensures sc.SlotMissed(was, k) ==> sc.SlotMissed(now, k)
  {
    hide ValidatedKey, Table, Deframed;
  }

  /** Feeding slot `j` from an honest source leaves every clean slot clean. */
  lemma FedKeepsClean(sc: Scene, was: seq<Item>, now: seq<Item>, j: nat, lo: nat, hi: nat)
    requires j < |sc.index| && j < U32_BOUND && End(sc.index, j) <= |sc.cts|
    requires forall i :: 0 <= i < |sc.cts| ==> |sc.cts[i]| < U32_BOUND
    requires OnlyTouches(was, now, sc.KeyOf(j))
    requires OnlyStores(was, now, sc.KeyOf(j), Frame(sc.cts[sc.index[j].chunkStart..End(sc.index, j)]))
    requires sc.SpanClean(was, lo, hi)
    ensures sc.SpanClean(now, lo, hi)
  {
    hide ValidatedKey, OnlyTouches, OnlyStores, Clean, Frame;
    forall k | lo <= k < hi && k < |sc.index| && k < U32_BOUND ensures sc.SlotClean(now, k) {
      assert sc.SlotClean(was, k);
      if k == j {
        CleanAfterStore(was, now, sc.KeyOf(j), sc.index[j].chunkStart, End(sc.index, j), sc.cts);
      } else {
        OtherKeys(sc, was, now, j, k);
      }
    }
  }

  /** Slots `[f0, s)` have been fed: the plaintext so far, and where the source stands. */
  ghost predicate Reached(sc: Scene, f0: nat, s: nat, assembled: Bytes, answers: Answers, asked: seq<nat>,
                          asked': seq<nat>)
    requires WellFormed(sc.index) && f0 <= s <= |sc.index|
  {
    PosMono(sc, f0, s);
    && (sc.Sound() ==> assembled == C.ChunkBytes(sc.content, sc.cs, sc.Pos(f0), sc.Pos(s)))
    && (forall i :: i in asked' ==> i in asked || sc.Pos(f0) <= i < sc.Pos(s))
  }

  lemma ReachedStart(sc: Scene, f0: nat, answers: Answers, asked: seq<nat>)
    requires WellFormed(sc.index) && f0 <= |sc.index|
    ensures Reached(sc, f0, f0, [], answers, asked, asked)
  {
    PosMono(sc, f0, f0);
    C.NoChunkBytes(sc.content, sc.cs, sc.Pos(f0));
  }

  lemma ReachedNext(sc: Scene, f0: nat, s: nat, assembled: Bytes, plain: Bytes, answers: Answers,
                    asked: seq<nat>, mid: seq<nat>, asked': seq<nat>)
    requires WellFormed(sc.index) && f0 <= s < |sc.index| && Reached(sc, f0, s, assembled, answers, asked, mid)
    requires forall i :: i in asked' ==> i in mid || sc.Pos(s) <= i < End(sc.index, s)
    requires sc.Sound() ==> plain == C.ChunkBytes(sc.content, sc.cs, sc.Pos(s), End(sc.index, s))
    ensures Reached(sc, f0, s + 1, assembled + plain, answers, asked, asked')
  {
    PosMono(sc, f0, s);
    PosStep(sc, s);
    if sc.Sound() { C.ChunkBytesJoin(sc.content, sc.cs, sc.Pos(f0), sc.Pos(s), sc.Pos(s + 1)); }
  }

  /** An honest source for the whole span still supplies the next slot. */
  lemma StillSupplies(sc: Scene, f0: nat, s: nat, f1: nat, assembled: Bytes, answers: Answers, asked: seq<nat>,
                      mid: seq<nat>)
    requires WellFormed(sc.index) && f0 <= s <= f1 < |sc.index|
    requires Reached(sc, f0, s, assembled, answers, asked, mid)
    requires Supplies(answers, asked, sc.cts, sc.Pos(f0), sc.Pos(f1 + 1))
    ensures Supplies(answers, mid, sc.cts, sc.Pos(s), End(sc.index, s))
  {
    PosMono(sc, f0, s);
    PosStep(sc, s);
    PosMono(sc, s + 1, f1 + 1);
  }

  ghost predicate SpanAnswered(sc: Scene, answers: Answers, lo: nat, hi: nat)
    requires sc.index != [] && lo <= |sc.index| && hi <= |sc.index|
  {
    forall i :: sc.Pos(lo) <= i < sc.Pos(hi) ==> Answered(answers, i)
  }

  /** The source is honest about, and fresh for, every chunk of the slots `[f0, f1]`. */
  ghost predicate SpanSupplied(sc: Scene, f0: nat, f1: nat, answers: Answers, asked: seq<nat>) {
    sc.Whole() && f0 <= f1 < |sc.index| && Supplies(answers, asked, sc.cts, sc.Pos(f0), sc.Pos(f1 + 1))
  }

  ghost predicate KeepsClean(sc: Scene, was: seq<Item>, now: seq<Item>) {
    forall lo, hi :: sc.SpanClean(was, lo, hi) ==> sc.SpanClean(now, lo, hi)
  }

  /** Where the feeding loop stands after the slots `[f0, s)` of `[f0, f1]`. */
  ghost predicate Progress(sc: Scene, was: seq<Item>, now: seq<Item>, f0: nat, s: nat, f1: nat, assembled: Bytes,
                           answers: Answers, asked: seq<nat>, asked': seq<nat>)
    requires WellFormed(sc.index) && f0 <= s <= f1 + 1 <= |sc.index|
  {
    && Reached(sc, f0, s, assembled, answers, asked, asked')
    && (SpanSupplied(sc, f0, f1, answers, asked) ==> KeepsClean(sc, was, now))
    && (sc.SpanMissed(was, f0, f1 + 1) ==> sc.SpanMissed(now, s, f1 + 1) && SpanAnswered(sc, answers, f0, s))
  }

  lemma ProgressStart(sc: Scene, was: seq<Item>, f0: nat, f1: nat, answers: Answers, asked: seq<nat>)
    requires WellFormed(sc.index) && f0 <= f1 < |sc.index|
    ensures Progress(sc, was, was, f0, f0, f1, [], answers, asked, asked)
  {
    ReachedStart(sc, f0, answers, asked);
  }

  lemma MissNext(sc: Scene, mid: seq<Item>, now: seq<Item>, f0: nat, s: nat, f1: nat, answers: Answers)
    requires WellFormed(sc.index) && f0 <= s <= f1 < |sc.index| && f1 < U32_BOUND
    requires sc.SpanMissed(mid, s, f1 + 1) && SpanAnswered(sc, answers, f0, s) && OnlyTouches(mid, now, sc.KeyOf(s))
    requires forall i :: sc.Pos(s) <= i < End(sc.index, s) ==> Answered(answers, i)
    ensures sc.SpanMissed(now, s + 1, f1 + 1) && SpanAnswered(sc, answers, f0, s + 1)
  {
    hide ValidatedKey, OnlyTouches, Answered, Offered;
    PosStep(sc, s);
    forall k | s + 1 <= k < f1 + 1 && k < |sc.index| && k < U32_BOUND ensures sc.SlotMissed(now, k) {
      assert sc.SlotMissed(mid, k);
      OtherKeys(sc, mid, now, s, k);
    }
  }

  lemma KeepsCleanNext(sc: Scene, was: seq<Item>, mid: seq<Item>, now: seq<Item>, s: nat)
    requires s < |sc.index| && s < U32_BOUND && sc.Whole()
    requires KeepsClean(sc, was, mid) && OnlyTouches(mid, now, sc.KeyOf(s)) && End(sc.index, s) <= |sc.cts|
    requires OnlyStores(mid, now, sc.KeyOf(s), Frame(sc.cts[sc.index[s].chunkStart..End(sc.index, s)]))
    ensures KeepsClean(sc, was, now)
  {
    hide OnlyTouches, OnlyStores, ValidatedKey, Scene.SpanClean, Frame;
    forall lo, hi | sc.SpanClean(was, lo, hi) ensures sc.SpanClean(now, lo, hi) {
      FedKeepsClean(sc, mid, now, s, lo, hi);
    }
  }

  /** One fed slot moves the loop on; with an honest source and a clean span, it is always fed. */
  lemma ProgressNext(sc: Scene, was: seq<Item>, mid: seq<Item>, now: seq<Item>, kept: bool, f0: nat, s: nat, f1: nat,
                     assembled: Bytes, answers: Answers, asked: seq<nat>, asked': seq<nat>, asked'': seq<nat>,
                     r: Result<Bytes, PlayError>)
    requires WellFormed(sc.index) && f0 <= s <= f1 < |sc.index| && f1 < U32_BOUND
    requires Progress(sc, was, mid, f0, s, f1, assembled, answers, asked, asked')
    requires Fed(sc.index[s], sc.d, sc.KeyOf(s), mid, answers, asked', sc.content, sc.cs, sc.cts, r)
    requires Traffic(sc.index[s], sc.KeyOf(s), mid, now, kept, answers, asked', asked'', sc.cts, r.Ok?)
    ensures r.Ok? ==> Progress(sc, was, now, f0, s + 1, f1, assembled + r.value, answers, asked, asked'')
    ensures SpanSupplied(sc, f0, f1, answers, asked) && sc.SpanClean(was, f0, f1 + 1) ==> r.Ok?
    ensures SpanSupplied(sc, f0, f1, answers, asked) ==> KeepsClean(sc, was, now)
  {
    hide Supplies, Reached, OnlyTouches, OnlyStores, ValidatedKey, Frame, Clean, Offered, C.Binds, C.ChunkBytes;
    PosStep(sc, s);
    if SpanSupplied(sc, f0, f1, answers, asked) {
      StillSupplies(sc, f0, s, f1, assembled, answers, asked, asked');
      PosMono(sc, s + 1, |sc.index|);
      KeepsCleanNext(sc, was, mid, now, s);
      if sc.SpanClean(was, f0, f1 + 1) { assert sc.SpanClean(mid, f0, f1 + 1) && sc.SlotClean(mid, s); }
    }
    if r.Ok? {
      ReachedNext(sc, f0, s, assembled, r.value, answers, asked, asked', asked'');
      if sc.SpanMissed(was, f0, f1 + 1) {
        assert sc.SlotMissed(mid, s);
        MissNext(sc, mid, now, f0, s, f1, answers);
      }
    }
  }

  // ---- a span, over a cache that does not fail ----

  /** The feeding loop, from chunks at hand. */
  ghost function FeedAll(sc: Scene, st: State, held: map<nat, Bytes>, s: nat, f1: nat): Outcome
    requires f1 < |sc.index| && f1 < U32_BOUND
    decreases f1 + 1 - s
  {
    if s > f1 then Outcome(true, st)
    else
      var one := Feed(sc.index[s], sc.d, sc.ns, sc.id, s, st, held);
      if one.ok then FeedAll(sc, one.st, held, s + 1, f1) else one
  }

  lemma FeedAllNext(sc: Scene, st: State, held: map<nat, Bytes>, s: nat, f1: nat)
    requires f1 < |sc.index| && f1 < U32_BOUND
    ensures s > f1 ==> FeedAll(sc, st, held, s, f1) == Outcome(true, st)
    ensures s <= f1 ==>
              var one := Feed(sc.index[s], sc.d, sc.ns, sc.id, s, st, held);
              FeedAll(sc, st, held, s, f1) == if one.ok then FeedAll(sc, one.st, held, s + 1, f1) else one
  {
    hide Feed;
  }

  /** The slots `[f0, f1]` are in bounds, and a fresh source hands out `held`. */
  ghost predicate FromHand(sc: Scene, held: map<nat, Bytes>, f0: nat, f1: nat, answers: Answers, asked: seq<nat>) {
    sc.Covered() && f0 <= f1 < |sc.index| && f1 < U32_BOUND && answers == RemoveFrom(held) && asked == []
  }

  /** The feeding loop has come to slot `s`, on the way that `FeedAll` describes. */
  ghost predicate OnTrack(sc: Scene, st0: State, st: State, held: map<nat, Bytes>, f0: nat, s: nat, f1: nat,
                          answers: Answers, asked: seq<nat>)
  {
    && sc.Covered() && f0 <= s <= f1 + 1 <= |sc.index| && f1 < U32_BOUND && answers == RemoveFrom(held)
    && FeedAll(sc, st0, held, f0, f1) == FeedAll(sc, st, held, s, f1)
    && forall i :: i in asked ==> i < sc.Pos(s)
  }

  lemma OnTrackStart(sc: Scene, st: State, held: map<nat, Bytes>, f0: nat, f1: nat, answers: Answers, asked: seq<nat>)
    requires FromHand(sc, held, f0, f1, answers, asked)
    ensures OnTrack(sc, st, st, held, f0, f0, f1, answers, asked)
  {
    hide FeedAll;
  }

  lemma OnTrackNext(sc: Scene, st0: State, st: State, now: State, held: map<nat, Bytes>, f0: nat, s: nat, f1: nat,
                    answers: Answers, asked: seq<nat>, asked': seq<nat>, ok: bool)
    requires OnTrack(sc, st0, st, held, f0, s, f1, answers, asked) && s <= f1
    requires InBounds(sc.index, sc.d, s) ==>
               var e := FragmentIndex.Lookup(sc.index, s).value;
               && (Hands(answers, asked, held, e.chunkStart, Stop(e)) ==>
                     Outcome(ok, now) == Feed(e, sc.d, sc.ns, sc.id, s, st, held))
               && (forall i :: i in asked' ==> i in asked || e.chunkStart <= i < Stop(e))
    ensures ok ==> OnTrack(sc, st0, now, held, f0, s + 1, f1, answers, asked')
    ensures !ok ==> FeedAll(sc, st0, held, f0, f1) == Outcome(false, now)
  {
    hide Feed, FeedAll;
    PosStep(sc, s);
    PosMono(sc, s + 1, |sc.index|);
    FeedAllNext(sc, st, held, s, f1);
  }

  lemma OnTrackEnd(sc: Scene, st0: State, st: State, held: map<nat, Bytes>, f0: nat, f1: nat,
                   answers: Answers, asked: seq<nat>)
    requires OnTrack(sc, st0, st, held, f0, f1 + 1, f1, answers, asked)
    ensures FeedAll(sc, st0, held, f0, f1) == Outcome(true, st)
  {
  }

  lemma SlotInBounds(sc: Scene, s: nat)
    requires WellFormed(sc.index) && s < |sc.index| && s < U32_BOUND
    ensures FragmentIndex.Lookup(sc.index, s) == Some(sc.index[s])
    ensures sc.Whole() ==> InBounds(sc.index, sc.d, s)
  {
    PosStep(sc, s);
    PosMono(sc, s + 1, |sc.index|);
  }

  /** What feeding the slots `[f0, f1]` promises. */
  ghost predicate SpanFed(sc: Scene, was: seq<Item>, now: seq<Item>, f0: nat, f1: nat, answers: Answers,
                          asked: seq<nat>, r: Result<Bytes, PlayError>)
    requires WellFormed(sc.index) && f0 <= f1 < |sc.index|
  {
    PosMono(sc, f0, f1 + 1);
    && (r.Ok? && sc.Sound() ==> r.value == C.ChunkBytes(sc.content, sc.cs, sc.Pos(f0), sc.Pos(f1 + 1)))
    && (r.Ok? && sc.SpanMissed(was, f0, f1 + 1) ==> SpanAnswered(sc, answers, f0, f1 + 1))
    && (SpanSupplied(sc, f0, f1, answers, asked) && sc.SpanClean(was, f0, f1 + 1) ==> r.Ok?)
    && (SpanSupplied(sc, f0, f1, answers, asked) ==> KeepsClean(sc, was, now))
  }

  lemma SpanDone(sc: Scene, was: seq<Item>, now: seq<Item>, f0: nat, f1: nat, assembled: Bytes, answers: Answers,
                 asked: seq<nat>, asked': seq<nat>)
    requires WellFormed(sc.index) && f0 <= f1 < |sc.index|
    requires Progress(sc, was, now, f0, f1 + 1, f1, assembled, answers, asked, asked')
    ensures SpanFed(sc, was, now, f0, f1, answers, asked, Ok(assembled))
  {
    hide C.Binds, C.ChunkBytes, Scene.SpanClean, Scene.SpanMissed, SpanAnswered, KeepsClean, Supplies;
  }

  /** The feeding loop of `assemble_range`. */
  method FeedSpan(ghost sc: Scene, index: seq<FragmentEntry>, cache: BC.BlobCache, ns: Ns, d: C.ContentDecryptor,
                  id: string, f0: u32, f1: u32, source: Fetcher, ghost held: map<nat, Bytes>)
    returns (r: Result<Bytes, PlayError>)
    requires sc.index == index && sc.ns == ns && sc.d == d && sc.id == id
    requires cache.Valid() && d.chunkCount >= 1
    modifies cache, source
    ensures cache.Valid() && cache.backend.Disk? == old(cache.backend.Disk?)
    ensures cache.faults >= old(cache.faults) && (cache.backend.Memory? ==> cache.faults == old(cache.faults))
    ensures f1 < f0 ==> r == Ok([])
    ensures WellFormed(index) && f0 <= f1 < |index| ==>
              SpanFed(sc, old(cache.items), cache.items, f0, f1, source.answers, old(source.asked), r)
    ensures cache.faults == old(cache.faults) && FromHand(sc, held, f0, f1, source.answers, old(source.asked)) ==>
              Outcome(r.Ok?, cache.View()) == FeedAll(sc, old(cache.View()), held, f0, f1)
  {
    hide *;
    ViewParts(cache);
    ghost var fine := WellFormed(index) && f0 <= f1 < |index|;
    ghost var hand := FromHand(sc, held, f0, f1, source.answers, source.asked);
    ghost var was, st0, asked := cache.items, cache.View(), source.asked;
    var assembled: Bytes := [];
    var s: nat := f0;
    if fine { ProgressStart(sc, was, f0, f1, source.answers, asked); }
    if hand {
      FromHandSlots(sc, held, f0, f1, source.answers, asked);
      OnTrackStart(sc, st0, held, f0, f1, source.answers, asked);
    }
    while s <= f1
      invariant f0 <= s && (f0 <= f1 ==> s <= f1 + 1) && (f1 < f0 ==> s == f0 && assembled == [])
      invariant cache.Valid() && cache.backend.Disk? == old(cache.backend.Disk?)
      invariant cache.faults >= old(cache.faults) && (cache.backend.Memory? ==> cache.faults == old(cache.faults))
      invariant fine ==> Progress(sc, was, cache.items, f0, s, f1, assembled, source.answers, asked, source.asked)
      invariant hand && cache.faults == old(cache.faults) ==>
                  OnTrack(sc, st0, cache.View(), held, f0, s, f1, source.answers, source.asked)
    {
      ViewParts(cache);
      ghost var mid, asked', st, faults := cache.items, source.asked, cache.View(), cache.faults;
      var plain := FeedFragment(index, cache, ns, d, id, s, source, sc.content, sc.cs, sc.cts, held);
      if fine { AfterFeed(sc, was, mid, cache.items, cache.faults == faults, f0, s, f1, assembled, source.answers,
                          asked, asked', source.asked, plain); }
      if hand && cache.faults == old(cache.faults) {
        OnlyThisSlot(sc, s, mid, cache.items, source.answers, asked', source.asked, plain.Ok?);
        OnTrackNext(sc, st0, st, cache.View(), held, f0, s, f1, source.answers, asked', source.asked, plain.Ok?);
      }
      if plain.Err? { return plain; }
      assembled := assembled + plain.value;
      s := s + 1;
    }
    if fine { SpanDone(sc, was, cache.items, f0, f1, assembled, source.answers, asked, source.asked); }
    if hand && cache.faults == old(cache.faults) {
      OnTrackEnd(sc, st0, cache.View(), held, f0, f1, source.answers, source.asked);
    }
    return Ok(assembled);
  }

  lemma FromHandSlots(sc: Scene, held: map<nat, Bytes>, f0: nat, f1: nat, answers: Answers, asked: seq<nat>)
    requires FromHand(sc, held, f0, f1, answers, asked)
    ensures f0 <= f1 < |sc.index| && f1 < U32_BOUND
  {
  }

  lemma OnlyThisSlot(sc: Scene, s: u32, was: seq<Item>, now: seq<Item>, answers: Answers, asked: seq<nat>,
                     asked': seq<nat>, ok: bool)
    requires InBounds(sc.index, sc.d, s) ==>
               var e := FragmentIndex.Lookup(sc.index, s).value;
               Traffic(e, Canonical(sc.ns, sc.id, s), was, now, true, answers, asked, asked', sc.cts, ok)
    ensures InBounds(sc.index, sc.d, s) ==>
              var e := FragmentIndex.Lookup(sc.index, s).value;
              forall i :: i in asked' ==> i in asked || e.chunkStart <= i < Stop(e)
  {
    hide OnlyTouches, OnlyStores, Supplies, Offered, Frame;
  }

  /** `ProgressNext` for what `feed_fragment` returned, in bounds or not. */
  lemma AfterFeed(sc: Scene, was: seq<Item>, mid: seq<Item>, now: seq<Item>, kept: bool, f0: nat, s: nat, f1: nat,
                  assembled: Bytes, answers: Answers, asked: seq<nat>, asked': seq<nat>, asked'': seq<nat>,
                  r: Result<Bytes, PlayError>)
    requires WellFormed(sc.index) && f0 <= s <= f1 < |sc.index| && f1 < U32_BOUND
    requires Progress(sc, was, mid, f0, s, f1, assembled, answers, asked, asked')
    requires !InBounds(sc.index, sc.d, s) ==> r.Err? && now == mid
    requires InBounds(sc.index, sc.d, s) ==>
               var e, key := FragmentIndex.Lookup(sc.index, s).value, Canonical(sc.ns, sc.id, s);
               && Fed(e, sc.d, key, mid, answers, asked', sc.content, sc.cs, sc.cts, r)
               && Traffic(e, key, mid, now, kept, answers, asked', asked'', sc.cts, r.Ok?)
    ensures r.Ok? ==> Progress(sc, was, now, f0, s + 1, f1, assembled + r.value, answers, asked, asked'')
    ensures r.Err? ==> SpanFed(sc, was, now, f0, f1, answers, asked, r)
  {
    hide Fed, Traffic, Reached, C.Binds, C.ChunkBytes, Scene.SpanClean, Scene.SpanMissed, SpanAnswered, KeepsClean,
      Supplies;
    SlotInBounds(sc, s);
    if InBounds(sc.index, sc.d, s) {
      ProgressNext(sc, was, mid, now, kept, f0, s, f1, assembled, answers, asked, asked', asked'', r);
    }
  }

  // ---- assemble_range ----

  /** The plan came out of `plan_range` for this request: its first and last bytes lie in slots `k0` and `k1`. */
  ghost predicate Planned(sc: Scene, req: RangeReq, k0: nat, k1: nat, plan: Plan) {
    WellFormed(sc.index) && sc.cs >= 1 && req.len >= 1 && PlanOf(sc.index, sc.cs, req, k0, k1, plan)
  }

  /** The plaintext of the planned slots, in order. */
  ghost predicate Assembled(sc: Scene, plan: Plan, assembled: Bytes)
    requires sc.index != []
  {
    && (plan.f1 < plan.f0 ==> assembled == [])
    && (plan.f0 <= plan.f1 ==>
          && sc.Pos(plan.f0) <= sc.Pos(plan.f1 + 1)
          && assembled == C.ChunkBytes(sc.content, sc.cs, sc.Pos(plan.f0), sc.Pos(plan.f1 + 1)))
  }

  /** Slicing the plaintext of the slots `[f0, f1]` gives the requested content, if it gives anything. */
  lemma SliceIsContent(sc: Scene, req: RangeReq, k0: nat, k1: nat, plan: Plan, assembled: Bytes)
    requires Planned(sc, req, k0, k1, plan) && sc.Sound()
    requires Assembled(sc, plan, assembled)
    ensures var r := SliceRange(assembled, plan.base, req);
            r.Ok? ==> req.start + req.len <= |sc.content| && r.value == sc.content[req.start..req.start + req.len]
  {
    hide C.Binds, WellFormed, C.ByteOf, C.ChunkOf;
    var r := SliceRange(assembled, plan.base, req);
    if r.Ok? {
      var lo, hi := Min(plan.base, |sc.content|), Min(C.ByteOf(sc.cs, sc.Pos(plan.f1 + 1)), |sc.content|);
      assert plan.f0 <= plan.f1;
      C.ByteMono(sc.cs, sc.Pos(plan.f0), sc.Pos(plan.f1 + 1));
      assert assembled == sc.content[lo..hi];
      assert lo == plan.base;
      assert r.value == assembled[req.start - lo..req.start - lo + req.len];
    }
  }

  /** The slice exists exactly when the last slot's number was not truncated. */
  lemma SliceExists(sc: Scene, req: RangeReq, k0: nat, k1: nat, plan: Plan, assembled: Bytes)
    requires Planned(sc, req, k0, k1, plan) && sc.Sound() && Assembled(sc, plan, assembled)
    requires req.start + req.len <= |sc.content|
    ensures SliceRange(assembled, plan.base, req).Ok? <==> k1 < U32_BOUND
  {
    hide C.Binds, WellFormed, C.ByteOf, C.ChunkOf, C.ChunkBytes, FragmentIndex.Lookup;
    C.ChunkBounds(sc.cs, LastByte(req));
    var c := C.ChunkOf(sc.cs, LastByte(req));
    if k1 < U32_BOUND {
      SmallAsU32(k0);
      SmallAsU32(k1);
      PosStep(sc, k1);
      C.ByteMono(sc.cs, c + 1, sc.Pos(k1 + 1));
      AssembledLength(sc, plan, assembled);
    } else if plan.f0 <= plan.f1 {
      PosMono(sc, plan.f1 + 1, k1);
      C.ByteMono(sc.cs, sc.Pos(plan.f1 + 1), c);
      AssembledLength(sc, plan, assembled);
    }
  }

  lemma AssembledLength(sc: Scene, plan: Plan, assembled: Bytes)
    requires sc.index != [] && Assembled(sc, plan, assembled) && plan.f0 <= plan.f1
    ensures var lo, hi := C.ByteOf(sc.cs, sc.Pos(plan.f0)), C.ByteOf(sc.cs, sc.Pos(plan.f1 + 1));
            lo <= hi && |assembled| == Min(hi, |sc.content|) - Min(lo, |sc.content|)
  {
    C.ByteMono(sc.cs, sc.Pos(plan.f0), sc.Pos(plan.f1 + 1));
  }

  /**
   `assemble_range`. Sound: over any cache and any source, a result is the requested content.
   Complete: over clean entries and an honest source it succeeds, exactly as long as the last slot's
   number fits `u32`, and leaves every clean entry clean. On a miss everywhere, it succeeds only if
   the source could answer for the whole span.
   */
  method AssembleRange(ghost sc: Scene, ghost k0: nat, ghost k1: nat, index: seq<FragmentEntry>, cache: BC.BlobCache,
                       ns: Ns, d: C.ContentDecryptor, id: string, plan: Plan, req: RangeReq, source: Fetcher,
                       ghost held: map<nat, Bytes>)
    returns (r: Result<Bytes, PlayError>)
    requires sc.index == index && sc.ns == ns && sc.d == d && sc.id == id
    requires cache.Valid() && d.chunkCount >= 1
    modifies cache, source
    ensures cache.Valid() && cache.backend.Disk? == old(cache.backend.Disk?)
    ensures cache.faults >= old(cache.faults) && (cache.backend.Memory? ==> cache.faults == old(cache.faults))
    ensures Planned(sc, req, k0, k1, plan) ==>
              Served(sc, req, k0, k1, old(cache.items), cache.items, source.answers, old(source.asked), r)
    ensures Planned(sc, req, k0, k1, plan) && Exact(sc, req, k1) && cache.faults == old(cache.faults)
            && source.answers == RemoveFrom(held) && old(source.asked) == []
            ==> Outcome(r.Ok?, cache.View()) == FeedAll(sc, old(cache.View()), held, k0, k1)
  {
    hide *;
    ghost var was, asked, st := cache.items, source.asked, cache.View();
    if Planned(sc, req, k0, k1, plan) && Exact(sc, req, k1) { ExactSlots(sc, req, k0, k1, plan, held); }
    var assembled := FeedSpan(sc, index, cache, ns, d, id, plan.f0, plan.f1, source, held);
    r := if assembled.Err? then assembled
         else
           var slice := SliceRange(assembled.value, plan.base, req);
           if slice.Ok? then Ok(slice.value) else Err(VideoFailed);
    if Planned(sc, req, k0, k1, plan) {
      PlannedSlots(sc, req, k0, k1, plan);
      ServedFrom(sc, req, k0, k1, plan, was, cache.items, source.answers, asked, assembled, r);
    }
  }

  /** The request is inside the content, and every number of the plan is exact. */
  ghost predicate Exact(sc: Scene, req: RangeReq, k1: nat) {
    sc.Sound() && sc.Covered() && req.start + req.len <= |sc.content| && k1 < U32_BOUND
  }

  lemma ExactSlots(sc: Scene, req: RangeReq, k0: nat, k1: nat, plan: Plan, held: map<nat, Bytes>)
    requires Planned(sc, req, k0, k1, plan) && Exact(sc, req, k1)
    ensures plan.f0 == k0 <= plan.f1 == k1 < |sc.index| && k1 < U32_BOUND && sc.Sound()
    ensures req.start + req.len <= |sc.content|
    ensures FromHand(sc, held, k0, k1, RemoveFrom(held), [])
  {
    SmallAsU32(k0);
    SmallAsU32(k1);
    hide C.Binds, WellFormed;
  }

  lemma PlannedSlots(sc: Scene, req: RangeReq, k0: nat, k1: nat, plan: Plan)
    requires Planned(sc, req, k0, k1, plan)
    ensures WellFormed(sc.index) && k0 <= k1 < |sc.index| && plan.f1 < |sc.index|
  {
  }

  /** What one request promises. */
  ghost predicate Served(sc: Scene, req: RangeReq, k0: nat, k1: nat, was: seq<Item>, now: seq<Item>,
                         answers: Answers, asked: seq<nat>, r: Result<Bytes, PlayError>)
    requires WellFormed(sc.index) && k0 <= k1 < |sc.index|
  {
    var inside := req.start + req.len <= |sc.content|;
    && (sc.Sound() && r.Ok? ==> inside && r.value == sc.content[req.start..req.start + req.len])
    && (sc.Sound() && inside && SpanSupplied(sc, k0, k1, answers, asked) && sc.SpanClean(was, k0, k1 + 1)
        ==> (r.Ok? <==> k1 < U32_BOUND))
    && (SpanSupplied(sc, k0, k1, answers, asked) && k1 < U32_BOUND ==> KeepsClean(sc, was, now))
    && (sc.Sound() && r.Ok? ==>
          k1 < U32_BOUND && (sc.SpanMissed(was, k0, k1 + 1) ==> SpanAnswered(sc, answers, k0, k1 + 1)))
  }

  lemma ServedFrom(sc: Scene, req: RangeReq, k0: nat, k1: nat, plan: Plan, was: seq<Item>, now: seq<Item>,
                   answers: Answers, asked: seq<nat>, assembled: Result<Bytes, PlayError>, r: Result<Bytes, PlayError>)
    requires Planned(sc, req, k0, k1, plan)
    requires plan.f1 < plan.f0 ==> assembled == Ok([])
    requires plan.f0 <= plan.f1 ==> SpanFed(sc, was, now, plan.f0, plan.f1, answers, asked, assembled)
    requires r.Ok? <==> assembled.Ok? && SliceRange(assembled.value, plan.base, req).Ok?
    requires r.Ok? ==> r.value == SliceRange(assembled.value, plan.base, req).value
    ensures Served(sc, req, k0, k1, was, now, answers, asked, r)
    ensures sc.Sound() && assembled.Ok? && req.start + req.len <= |sc.content| && k1 < U32_BOUND ==> r.Ok?
  {
    hide C.Binds, WellFormed, SliceRange, SpanAnswered, KeepsClean, SpanSupplied, Scene.SpanClean, Scene.SpanMissed;
    if k1 < U32_BOUND {
      SmallAsU32(k0);
      SmallAsU32(k1);
    }
    if sc.Sound() && assembled.Ok? {
      if plan.f0 <= plan.f1 { PosMono(sc, plan.f0, plan.f1 + 1); }
      SliceIsContent(sc, req, k0, k1, plan, assembled.value);
      if req.start + req.len <= |sc.content| { SliceExists(sc, req, k0, k1, plan, assembled.value); }
    }
  }
}
