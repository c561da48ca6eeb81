/** From the author's file to the viewer's bytes: everything in between must be invisible. */
module EndToEnd {
  import opened Machine
  import opened Wrappers
  import opened FragmentIndex
  import opened AuthorIndex
  import opened RangePlan
  import C = Content
  import BlobKeys
  import Lru
  import BC = BlobCache
  import P = Playback
  import S = Serving
  import RS = ServingModel
  import Laws = ServingLaws
  import Runs = ServingRuns

  // ---- the length of the whole ----

  /** `trusted_total_len`: the length a server claims, if it ends within the last chunk. */
  function TrustedTotalLen(n: u64, cs: u64, claimed: u64): (r: Option<u64>)
    ensures r.Some? ==> r.value == claimed
    ensures r.Some? <==> && n >= 1 && cs >= 1 && C.ByteOf(cs, n) < U64_BOUND
                         && C.ByteOf(cs, n - 1) < claimed <= C.ByteOf(cs, n)
  {
    if n == 0 || cs == 0 || claimed == 0 then None
    else
      var hi := C.ByteOf(cs, n);
      if hi >= U64_BOUND then None
      else
        var lo := C.ByteOf(cs, n - 1);
        if claimed > lo && claimed <= hi then Some(claimed) else None
  }

  /** A false claim that is trusted is off by less than one chunk. */
  lemma TrustedIsNear(d: C.ContentDecryptor, content: Bytes, cs: u64, claimed: u64)
    requires C.Binds(d, content, cs) && TrustedTotalLen(d.chunkCount, cs, claimed).Some?
    ensures |content| - claimed < cs && claimed - |content| <= cs
    ensures |content| > C.ByteOf(cs, d.chunkCount - 1) ==> claimed - |content| < cs
  {
    assert C.ByteOf(cs, d.chunkCount) == C.ByteOf(cs, d.chunkCount - 1) + cs;
  }

  /**
   `probe_total_len`: open the last chunk, once more through the proxy if a direct link supplied a
   bad one. What it returns is the length of the content.
   */
  method ProbeTotalLen(ghost sc: P.Scene, d: C.ContentDecryptor, cs: u64, routed: P.Fetcher, direct: set<nat>,
                       proxy: P.Fetcher)
    returns (r: Result<u64, RangeError>)
    requires sc.d == d && sc.cs == cs
    modifies routed, proxy
    ensures r.Ok? && C.Binds(d, sc.content, cs) && |sc.content| < U64_BOUND ==> r.value == |sc.content|
    ensures sc.Whole() && |sc.content| < U64_BOUND
            && RS.Routed(sc, routed.answers, direct) && RS.Routed(sc, proxy.answers, {})
            ==> r.Ok?
  {
    ghost var good := sc.Whole() && RS.Routed(sc, routed.answers, direct) && RS.Routed(sc, proxy.answers, {});
    hide *;
    var n := d.chunkCount;
    if good { WholeHasChunks(sc); }
    if n == 0 { return Err(RangeFailed); }
    if good { LastIsAnswered(sc, routed.answers, routed.asked, direct); }
    var ct := routed.Fetch(n - 1);
    if ct.None? { return Err(RangeFailed); }
    var usedDirect := n - 1 in direct;
    while true
      invariant good && !usedDirect ==> ct == Some(sc.cts[n - 1])
      invariant ct.Some?
      decreases usedDirect
    {
      var attempt := C.OpenRange(d, n - 1, [ct.value]);
      LastOpens(sc, d, cs, ct.value, attempt);
      if attempt.Ok? { return TotalLen(n, cs, AsU64(|attempt.value|)); }
      if !usedDirect { return Err(RangeFailed); }
      if good { LastIsAnswered(sc, proxy.answers, proxy.asked, {}); }
      ct := proxy.Fetch(n - 1);
      if ct.None? { return Err(RangeFailed); }
      usedDirect := false;
    }
  }

  lemma WholeHasChunks(sc: P.Scene)
    ensures sc.Whole() ==> sc.d.chunkCount >= 1
  {
  }

  lemma LastIsAnswered(sc: P.Scene, answers: P.Answers, asked: seq<nat>, direct: set<nat>)
    requires sc.Whole() && RS.Routed(sc, answers, direct)
    ensures var last: nat := sc.d.chunkCount - 1;
            && last < |sc.cts| && answers(asked, last).Some?
            && (last !in direct ==> answers(asked, last) == Some(sc.cts[last]))
  {
    hide C.Binds, WellFormed, Coverage;
    var last: nat := sc.d.chunkCount - 1;
    assert RS.AlwaysAnswers(answers, last);
  }

  /** Opening the last chunk gives away the length of the content; the uploaded last chunk opens. */
  lemma LastOpens(sc: P.Scene, d: C.ContentDecryptor, cs: u64, ct: Bytes, attempt: Result<Bytes, C.DownloadError>)
    requires sc.d == d && sc.cs == cs && d.chunkCount >= 1
    requires attempt == if C.AllOpen(d, d.chunkCount - 1, [ct]) then Ok(C.Plain(d, d.chunkCount - 1, [ct]))
                        else Err(C.StreamFraming)
    ensures C.Binds(d, sc.content, cs) && |sc.content| < U64_BOUND && attempt.Ok?
            ==> TotalLen(d.chunkCount, cs, AsU64(|attempt.value|)) == Ok(|sc.content|)
    ensures sc.Whole() && d.chunkCount <= |sc.cts| && ct == sc.cts[d.chunkCount - 1] ==> attempt.Ok?
  {
    hide C.Binds, C.ChunkBytes, C.Plain, C.ByteOf, WellFormed, Coverage;
    var n := d.chunkCount;
    P.OpenedIsContent(d, sc.content, cs, n - 1, [ct]);
    if C.Binds(d, sc.content, cs) && |sc.content| < U64_BOUND { TotalLenIsContentLength(d, sc.content, cs); }
    if sc.Whole() && n <= |sc.cts| && ct == sc.cts[n - 1] {
      P.UploadedOpens(d, sc.cts, n - 1, n);
      assert sc.cts[n - 1..n] == [ct];
    }
  }

  // ---- the whole way ----

  /** A server that holds the uploaded chunks; chunks of `direct` come over a link that may say anything. */
  function Routing(cts: seq<Bytes>, lies: (seq<nat>, nat) -> Bytes, direct: set<nat>): P.Answers {
    (h: seq<nat>, i: nat) => if i in direct then Some(lies(h, i)) else if i < |cts| then Some(cts[i]) else None
  }

  /** The cipher expands a chunk to less than 4 GiB. */
  ghost predicate Compact(enc: (C.ChunkAad, Bytes) -> Bytes) {
    forall aad, b :: |b| <= VIDEO_CHUNK_SIZE ==> |enc(aad, b)| < U32_BOUND
  }

  lemma RoutingIsRouted(sc: P.Scene, lies: (seq<nat>, nat) -> Bytes, direct: set<nat>)
    ensures RS.Routed(sc, Routing(sc.cts, lies, direct), direct)
  {
  }

  /** The file is published whole, and its index read back. */
  ghost predicate Shown(sc: P.Scene, content: Bytes) {
    && |content| < U64_BOUND && sc.content == content && S.Playable(sc, |content|, VIDEO_CHUNK_SIZE)
    && Runs.Short(sc.index) && C.Unambiguous(sc.d)
  }

  /** The scene is this file, published under this id: its index, its key and every chunk uploaded. */
  ghost predicate Published(sc: P.Scene, enc: (C.ChunkAad, Bytes) -> Bytes, fileId: Bytes, version: u64, content: Bytes,
                            id: string)
  {
    && Shown(sc, content) && sc.ns == BlobKeys.Frag && sc.id == id
    && sc.d.fileId == fileId && sc.d.version == version
    && |sc.cts| == sc.d.chunkCount == DivCeil(|content|, VIDEO_CHUNK_SIZE)
    && |sc.index| == DivCeil(|sc.cts|, FRAG_CHUNKS) && Grouped(sc.index, |sc.cts|, FRAG_CHUNKS)
    && forall i :: 0 <= i < |sc.cts| ==>
         sc.cts[i] == enc(sc.d.Aad(i), C.ChunkBytes(content, VIDEO_CHUNK_SIZE, i, i + 1))
  }

  lemma PublishedShown(sc: P.Scene, enc: (C.ChunkAad, Bytes) -> Bytes, fileId: Bytes, version: u64, content: Bytes,
                       id: string)
    requires Published(sc, enc, fileId, version, content, id)
    ensures Shown(sc, content)
  {
  }

  lemma ShownShape(sc: P.Scene, content: Bytes)
    requires Shown(sc, content)
    ensures sc.cs == VIDEO_CHUNK_SIZE >= 1 && 0 < |sc.index| <= U32_BOUND && |content| < U64_BOUND
    ensures sc.content == content && S.Playable(sc, |content|, VIDEO_CHUNK_SIZE) && Runs.Short(sc.index)
    ensures sc.Whole() && sc.Sound() && sc.d.chunkCount >= 1 && C.Binds(sc.d, content, VIDEO_CHUNK_SIZE)
  {
    S.PlayableShape(sc, |content|, VIDEO_CHUNK_SIZE);
    hide S.Playable, Runs.Short;
    SoundHasChunks(sc);
  }

  lemma SoundHasChunks(sc: P.Scene)
    requires sc.Sound()
    ensures sc.d.chunkCount >= 1 && C.Binds(sc.d, sc.content, sc.cs)
  {
    hide WellFormed, C.Binds;
  }

  /** Prepare, seal and publish a file, and parse its index as a viewer does. */
  method PublishFile(enc: (C.ChunkAad, Bytes) -> Bytes, fileId: Bytes, version: u64, content: Bytes, title: string,
                     tags: seq<string>, id: string)
    returns (index: seq<FragmentEntry>, cts: seq<Bytes>, d: C.ContentDecryptor, ghost sc: P.Scene)
    requires 0 < |content| < U64_BOUND && DivCeil(|content|, VIDEO_CHUNK_SIZE) < U32_BOUND && Compact(enc)
    ensures sc.index == index && sc.ns == BlobKeys.Frag && sc.id == id && sc.d == d && sc.cts == cts
    ensures Published(sc, enc, fileId, version, content, id)
  {
    hide *;
    ChunkCounts(|content|);
    var prepared := PrepareIndex(|content|, title, tags);
    var (built, meta) := prepared.value.value;
    index := built;
    IndexIsPublished(title, tags, index);
    var parsed := ParseFragmentIndex(meta);
    ParsedBack(title, tags, index, parsed.value);
    var log;
    cts, log := C.SealStream(enc, fileId, version, VIDEO_CHUNK_SIZE, content);
    d := C.ContentDecryptor(fileId, version, |cts|, log);
    sc := P.Scene(index, BlobKeys.Frag, id, d, content, VIDEO_CHUNK_SIZE, cts);
    IsPlayable(sc, enc);
    IsShort(sc);
    IsShown(sc, content);
    IsPublished(sc, enc, fileId, version, content, id);
    index := parsed.value;
  }

  /** No fragment is longer than the whole. */
  lemma IsShort(sc: P.Scene)
    requires WellFormed(sc.index) && Coverage(sc.index) < U32_BOUND
    ensures Runs.Short(sc.index)
  {
    forall k | 0 <= k < |sc.index| ensures sc.index[k].chunkLen < U32_BOUND {
      P.PosStep(sc, k);
      P.PosMono(sc, k + 1, |sc.index|);
    }
  }

  lemma IsPublished(sc: P.Scene, enc: (C.ChunkAad, Bytes) -> Bytes, fileId: Bytes, version: u64, content: Bytes,
                    id: string)
    requires Shown(sc, content) && sc.ns == BlobKeys.Frag && sc.id == id && 0 < |content|
    requires sc.d.fileId == fileId && sc.d.version == version
    requires |sc.cts| == sc.d.chunkCount == C.FrameCount(|content|, VIDEO_CHUNK_SIZE)
    requires |sc.index| == DivCeil(DivCeil(|content|, VIDEO_CHUNK_SIZE), FRAG_CHUNKS)
    requires Grouped(sc.index, DivCeil(|content|, VIDEO_CHUNK_SIZE), FRAG_CHUNKS)
    requires forall i :: 0 <= i < |sc.cts| ==>
               sc.cts[i] == enc(sc.d.Aad(i), C.ChunkBytes(content, VIDEO_CHUNK_SIZE, i, i + 1))
    ensures Published(sc, enc, fileId, version, content, id)
  {
    hide Shown, Grouped, C.ChunkBytes;
  }

  lemma IsShown(sc: P.Scene, content: Bytes)
    requires |content| < U64_BOUND && sc.content == content && S.Playable(sc, |content|, VIDEO_CHUNK_SIZE)
    requires Runs.Short(sc.index) && C.Unambiguous(sc.d)
    ensures Shown(sc, content)
  {
    hide S.Playable, Runs.Short, C.Unambiguous;
  }

  /**
   Prepare, seal and publish a file, then open it and serve one range of it, over a fresh cache of any
   kind and size. Whatever the direct links say, the answer is exactly the requested window of the
   file, or the refusal of a request that names no byte of it.
   */
  method PublishAndServe(enc: (C.ChunkAad, Bytes) -> Bytes, fileId: Bytes, version: u64, content: Bytes, title: string,
                         tags: seq<string>, id: string, cap: Option<nat>, disk: bool, lies: (seq<nat>, nat) -> Bytes,
                         direct: set<nat>, first: u64, last: Option<u64>, maxBody: u64)
    returns (r: Result<Bytes, S.ServeError>)
    requires 0 < |content| < U64_BOUND && DivCeil(|content|, VIDEO_CHUNK_SIZE) < U32_BOUND && Compact(enc)
    ensures var req := ResolveRange(first, last, |content|, maxBody);
            r == if req.Some? then Ok(content[first..first + req.value.len]) else Err(S.NotSatisfiable)
  {
    hide *;
    var cs := VIDEO_CHUNK_SIZE;
    var index, cts, d;
    ghost var sc;
    index, cts, d, sc := PublishFile(enc, fileId, version, content, title, tags, id);
    PublishedShown(sc, enc, fileId, version, content, id);
    ShownShape(sc, content);
    var cache := new BC.BlobCache.Open(cap, disk);
    NothingCached(sc, cache);
    RoutingIsRouted(sc, lies, direct);
    RoutingIsRouted(sc, lies, {});
    var routed := new P.Fetcher(Routing(cts, lies, direct));
    var proxy := new P.Fetcher(Routing(cts, lies, {}));
    var total := ProbeTotalLen(sc, d, cs, routed, direct, proxy);
    r := S.ServeRange(sc, index, cache, BlobKeys.Frag, d, id, cs, total.value, first, last, maxBody,
                      routed, direct, proxy);
  }

  /**
   One range request, as it arrives over HTTP, and the links it is served over: chunks of `direct` come
   over links that may say anything.
   */
  datatype Query = Query(first: u64, last: Option<u64>, maxBody: u64, lies: (seq<nat>, nat) -> Bytes, direct: set<nat>)

  /** Whether the cache as it is, and what comes over the direct links, admit the request (see `Runs.Admits`). */
  ghost predicate Admitted(sc: P.Scene, st: Lru.State, req: RangeReq, q: Query)
    requires sc.cs >= 1 && 0 < |sc.index| <= U32_BOUND && req.len >= 1
  {
    var k0, k1 := S.FirstSlot(sc, req), S.LastSlot(sc, req);
    Runs.Admits(sc, st, k0, k1, RS.Came(sc, st.items, k0, k1, Routing(sc.cts, q.lies, q.direct), []), q.direct)
  }

  /** What a query over this cache state must be answered with. */
  ghost function Expected(sc: P.Scene, st: Lru.State, content: Bytes, q: Query): Result<Bytes, S.ServeError>
    requires sc.cs >= 1 && 0 < |sc.index| <= U32_BOUND && |content| < U64_BOUND
  {
    var req := ResolveRange(q.first, q.last, |content|, q.maxBody);
    if req.None? then Err(S.NotSatisfiable)
    else if Admitted(sc, st, req.value, q) && q.first + req.value.len <= |content|
    then Ok(content[q.first..q.first + req.value.len]) else Err(S.NotServed)
  }

  /** The cache after a query. */
  ghost function Next(sc: P.Scene, st: Lru.State, content: Bytes, q: Query): Lru.State
    requires sc.cs >= 1 && 0 < |sc.index| <= U32_BOUND && |content| < U64_BOUND
  {
    var req := ResolveRange(q.first, q.last, |content|, q.maxBody);
    S.ServeRequest(sc, st, req, Routing(sc.cts, q.lies, q.direct), [], q.direct, Routing(sc.cts, q.lies, {})).st
  }

  /** Whatever the cache does, an answer is the window of the file, and a refusal as empty is right. */
  ghost predicate Right(content: Bytes, q: Query, r: Result<Bytes, S.ServeError>)
    requires |content| < U64_BOUND
  {
    var req := ResolveRange(q.first, q.last, |content|, q.maxBody);
    && (r == Err(S.NotSatisfiable) <==> req.None?)
    && (r.Ok? ==> req.Some? && q.first + req.value.len <= |content|
                  && r.value == content[q.first..q.first + req.value.len])
  }

  /** Every answer so far is the expected one, every state leads to the next, and every entry stays genuine. */
  ghost predicate AsExpected(sc: P.Scene, content: Bytes, queries: seq<Query>,
                             answers: seq<Result<Bytes, S.ServeError>>, seen: seq<Lru.State>)
    requires sc.cs >= 1 && 0 < |sc.index| <= U32_BOUND && |content| < U64_BOUND
  {
    && |answers| + 1 == |seen| <= |queries| + 1
    && (forall i :: 0 <= i < |answers| ==> answers[i] == Expected(sc, seen[i], content, queries[i]))
    && (forall i :: 0 <= i < |answers| ==> seen[i + 1] == Next(sc, seen[i], content, queries[i]))
    && (forall i :: 0 <= i < |seen| ==> Runs.Sane(seen[i]) && Runs.AllTidy(sc, seen[i].items))
  }

  lemma AsExpectedStart(sc: P.Scene, content: Bytes, queries: seq<Query>, cap: Option<nat>)
    requires sc.cs >= 1 && 0 < |sc.index| <= U32_BOUND && |content| < U64_BOUND
    ensures AsExpected(sc, content, queries, [], [Lru.State(cap, 0, [])])
  {
    StartsTidy(sc, cap);
    hide Runs.Sane, Runs.AllTidy;
  }

  lemma AsExpectedNext(sc: P.Scene, content: Bytes, queries: seq<Query>, answers: seq<Result<Bytes, S.ServeError>>,
                       seen: seq<Lru.State>, now: Lru.State, r: Result<Bytes, S.ServeError>)
    requires Shown(sc, content) && sc.cs >= 1 && 0 < |sc.index| <= U32_BOUND && |content| < U64_BOUND
    requires AsExpected(sc, content, queries, answers, seen) && |answers| < |queries|
    requires var q := queries[|answers|];
             && Right(content, q, r)
             && P.Outcome(r.Ok?, now)
                == S.ServeRequest(sc, seen[|answers|], ResolveRange(q.first, q.last, |content|, q.maxBody),
                                  Routing(sc.cts, q.lies, q.direct), [], q.direct, Routing(sc.cts, q.lies, {}))
    ensures AsExpected(sc, content, queries, answers + [r], seen + [now])
  {
    hide Shown, Right, Expected, Next, Runs.Sane, Runs.AllTidy, S.ServeRequest, Routing, ResolveRange;
    QueryAnswered(sc, content, seen[|answers|], now, queries[|answers|], r);
  }

  /**
   Prepare, seal and publish a file, then answer any queries over one cache of either kind and any size,
   each over its own direct links, which may say anything, with an honest proxy. Every body is the
   requested window of the file. As long as no read or write of the cache has failed, as none does in RAM,
   a query that names a byte is answered exactly if the cache it meets admits it: nothing of it is held,
   or the direct chunks it needs open and the budget has room (`Runs.Admits`). Every entry stays genuine.
   */
  method PublishAndServeAll(enc: (C.ChunkAad, Bytes) -> Bytes, fileId: Bytes, version: u64, content: Bytes,
                            title: string, tags: seq<string>, id: string, cap: Option<nat>, disk: bool,
                            lies: (seq<nat>, nat) -> Bytes, direct: set<nat>, queries: seq<Query>)
    returns (answers: seq<Result<Bytes, S.ServeError>>, ghost sc: P.Scene, ghost seen: seq<Lru.State>,
             ghost kept: bool)
    requires 0 < |content| < U64_BOUND && DivCeil(|content|, VIDEO_CHUNK_SIZE) < U32_BOUND && Compact(enc)
    ensures Published(sc, enc, fileId, version, content, id) && sc.cs >= 1 && 0 < |sc.index| <= U32_BOUND
    ensures |answers| == |queries| == |seen| - 1 && seen[0] == Lru.State(cap, 0, [])
    ensures forall i :: 0 <= i < |queries| ==> Right(content, queries[i], answers[i])
    ensures !disk ==> kept
    ensures kept ==> AsExpected(sc, content, queries, answers, seen)
  {
    hide *;
    var index, cts, d;
    index, cts, d, sc := PublishFile(enc, fileId, version, content, title, tags, id);
    PublishedShown(sc, enc, fileId, version, content, id);
    ShownShape(sc, content);
    RoutingIsRouted(sc, lies, direct);
    RoutingIsRouted(sc, lies, {});
    var cache := new BC.BlobCache.Open(cap, disk);
    AsExpectedStart(sc, content, queries, cap);
    var probe := new P.Fetcher(Routing(cts, lies, direct));
    var proxied := new P.Fetcher(Routing(cts, lies, {}));
    var total := ProbeTotalLen(sc, d, VIDEO_CHUNK_SIZE, probe, direct, proxied);
    answers, seen := [], [cache.View()];
    for i := 0 to |queries|
      invariant cache.Valid() && cache.backend.Disk? == disk && (!disk ==> cache.faults == 0)
      invariant |answers| == i && |seen| == i + 1 && seen[0] == Lru.State(cap, 0, []) && seen[i] == cache.View()
      invariant forall j :: 0 <= j < i ==> Right(content, queries[j], answers[j])
      invariant cache.faults == 0 ==> AsExpected(sc, content, queries, answers, seen)
    {
      var q := queries[i];
      QueryIsRouted(sc, q);
      var routed := new P.Fetcher(Routing(cts, q.lies, q.direct));
      var proxy := new P.Fetcher(Routing(cts, q.lies, {}));
      var r := S.ServeRange(sc, index, cache, BlobKeys.Frag, d, id, VIDEO_CHUNK_SIZE, total.value, q.first, q.last,
                            q.maxBody, routed, q.direct, proxy);
      AnswerIsRight(content, q, r);
      if cache.faults == 0 { AsExpectedNext(sc, content, queries, answers, seen, cache.View(), r); }
      answers, seen := answers + [r], seen + [cache.View()];
    }
    kept := cache.faults == 0;
  }

  lemma AnswerIsRight(content: Bytes, q: Query, r: Result<Bytes, S.ServeError>)
    requires |content| < U64_BOUND
    requires r == Err(S.NotSatisfiable) <==> forall b :: !Wanted(b, q.first, q.last, |content|)
    requires var req := ResolveRange(q.first, q.last, |content|, q.maxBody);
             r.Ok? ==> req.Some? && q.first + req.value.len <= |content|
                       && r.value == content[q.first..q.first + req.value.len]
    ensures Right(content, q, r)
  {
    hide Wanted, ResolveRange;
  }

  lemma QueryIsRouted(sc: P.Scene, q: Query)
    requires sc.Whole()
    ensures RS.Routed(sc, Routing(sc.cts, q.lies, q.direct), q.direct) && RS.Routed(sc, Routing(sc.cts, q.lies, {}), {})
    ensures RS.Steady(Routing(sc.cts, q.lies, {}), sc.d.chunkCount)
  {
    RoutingIsRouted(sc, q.lies, q.direct);
    RoutingIsRouted(sc, q.lies, {});
    hide C.Binds, WellFormed, Coverage;
  }

  lemma StartsTidy(sc: P.Scene, cap: Option<nat>)
    ensures Runs.Sane(Lru.State(cap, 0, [])) && Runs.AllTidy(sc, [])
  {
  }

  /** One query over a tidy cache is answered as expected, and leaves the cache tidy. */
  lemma QueryAnswered(sc: P.Scene, content: Bytes, st: Lru.State, now: Lru.State, q: Query,
                      r: Result<Bytes, S.ServeError>)
    requires Shown(sc, content) && Runs.Sane(st) && Runs.AllTidy(sc, st.items)
    requires sc.cs >= 1 && 0 < |sc.index| <= U32_BOUND && |content| < U64_BOUND && Right(content, q, r)
    requires var req := ResolveRange(q.first, q.last, |content|, q.maxBody);
             P.Outcome(r.Ok?, now) == S.ServeRequest(sc, st, req, Routing(sc.cts, q.lies, q.direct), [], q.direct,
                                                     Routing(sc.cts, q.lies, {}))
    ensures r == Expected(sc, st, content, q) && now == Next(sc, st, content, q)
    ensures Runs.Sane(now) && Runs.AllTidy(sc, now.items)
  {
    hide *;
    var req := ResolveRange(q.first, q.last, |content|, q.maxBody);
    var routed, proxied := Routing(sc.cts, q.lies, q.direct), Routing(sc.cts, q.lies, {});
    S.ServeRequestIs(sc, st, req, routed, [], q.direct, proxied);
    ShownShape(sc, content);
    ExpectedIs(sc, st, content, q, r);
    QueryIsRouted(sc, q);
    if req.Some? {
      var k0, k1 := S.FirstSlot(sc, req.value), S.LastSlot(sc, req.value);
      S.RequestSlots(sc, |content|, VIDEO_CHUNK_SIZE, q.first, q.last, q.maxBody, req.value);
      var came := RS.Came(sc, st.items, k0, k1, routed, []);
      RS.CameIsRouted(sc, st.items, k0, k1, routed, [], q.direct);
      ShownKey(sc, content);
      Runs.ServedTidy(sc, st, k0, k1, came, q.direct, proxied);
      Runs.RequestKeepsTidy(sc, st, k0, k1, came, q.direct, proxied);
    }
    NextIs(sc, st, content, q);
  }

  lemma ShownKey(sc: P.Scene, content: Bytes)
    requires Shown(sc, content)
    ensures C.Unambiguous(sc.d)
  {
    hide C.Unambiguous, S.Playable, Runs.Short;
  }

  lemma ExpectedIs(sc: P.Scene, st: Lru.State, content: Bytes, q: Query, r: Result<Bytes, S.ServeError>)
    requires sc.cs >= 1 && 0 < |sc.index| <= U32_BOUND && |content| < U64_BOUND && Right(content, q, r)
    ensures var req := ResolveRange(q.first, q.last, |content|, q.maxBody);
            && (req.Some? ==> req.value.len >= 1 && S.LastSlot(sc, req.value) < |sc.index|)
            && (req.None? ==> r == Expected(sc, st, content, q))
            && (req.Some? && q.first + req.value.len <= |content| ==>
                  var k0, k1 := S.FirstSlot(sc, req.value), S.LastSlot(sc, req.value);
                  var came := RS.Came(sc, st.items, k0, k1, Routing(sc.cts, q.lies, q.direct), []);
                  (r.Ok? <==> Runs.Admits(sc, st, k0, k1, came, q.direct)) ==> r == Expected(sc, st, content, q))
  {
    hide Runs.Admits, SlotAt, ResolveRange, Routing, RS.Came;
    assert r.Err? ==> r.error == S.NotSatisfiable || r.error == S.NotServed;
  }

  lemma NextIs(sc: P.Scene, st: Lru.State, content: Bytes, q: Query)
    requires sc.cs >= 1 && 0 < |sc.index| <= U32_BOUND && |content| < U64_BOUND
    ensures Next(sc, st, content, q)
            == S.ServeRequest(sc, st, ResolveRange(q.first, q.last, |content|, q.maxBody),
                              Routing(sc.cts, q.lies, q.direct), [], q.direct, Routing(sc.cts, q.lies, {})).st
  {
    hide S.ServeRequest, ResolveRange, Routing;
  }

  /** Author and cipher count the same chunks. */
  lemma ChunkCounts(len: nat)
    requires 0 < len
    ensures VIDEO_CHUNK_SIZE >= 1 && U32_BOUND < U64_BOUND
    ensures DivCeil(DivCeil(len, VIDEO_CHUNK_SIZE), FRAG_CHUNKS) == DivCeil(len, VIDEO_CHUNK_SIZE)
            == C.FrameCount(len, VIDEO_CHUNK_SIZE)
  {
  }

  lemma IndexIsPublished(title: string, tags: seq<string>, index: seq<FragmentEntry>)
    ensures Publish(title, tags, index).fragments.Some?
  {
  }

  lemma ParsedBack(title: string, tags: seq<string>, index: seq<FragmentEntry>, parsed: seq<FragmentEntry>)
    requires var arr := Publish(title, tags, index).fragments.value;
             && Acceptable(arr) && |parsed| == |arr|
             && (forall k :: 0 <= k < |index| ==> Kept(arr, k) == index[k])
             && forall k :: 0 <= k < |parsed| ==> parsed[k] == Kept(arr, k)
    ensures parsed == index
  {
    hide Acceptable;
  }

  lemma ChunkFits(content: Bytes, cs: nat, i: nat)
    ensures |C.ChunkBytes(content, cs, i, i + 1)| <= cs
  {
    assert C.ByteOf(cs, i + 1) == C.ByteOf(cs, i) + cs;
  }

  /** What the author prepared and sealed is playable. */
  lemma IsPlayable(sc: P.Scene, enc: (C.ChunkAad, Bytes) -> Bytes)
    requires WellFormed(sc.index) && |sc.content| < U64_BOUND && sc.cs == VIDEO_CHUNK_SIZE && Compact(enc)
    requires Coverage(sc.index) == |sc.cts| == sc.d.chunkCount < U32_BOUND
    requires C.Binds(sc.d, sc.content, sc.cs) && C.Genuine(sc.d, sc.cts)
    requires forall i :: 0 <= i < |sc.cts| ==> sc.cts[i] == enc(sc.d.Aad(i), C.ChunkBytes(sc.content, sc.cs, i, i + 1))
    ensures S.Playable(sc, |sc.content|, VIDEO_CHUNK_SIZE) && sc.Whole() && sc.Sound()
  {
    hide C.Binds, C.ChunkBytes, C.Genuine;
    SlotsAscend(sc.index, 0, |sc.index| - 1);
    assert Linked(sc.index, 0) && Linked(sc.index, |sc.index| - 1);
    forall i | 0 <= i < |sc.cts| ensures |sc.cts[i]| < U32_BOUND { ChunkFits(sc.content, sc.cs, i); }
    assert C.Binds(sc.d, sc.content, sc.cs) ==> sc.d.chunkCount >= 1 by {
      BindsHasChunks(sc.d, sc.content, sc.cs);
    }
  }

  lemma BindsHasChunks(d: C.ContentDecryptor, content: Bytes, cs: nat)
    ensures C.Binds(d, content, cs) ==> d.chunkCount >= 1
  {
  }

  lemma NothingCached(sc: P.Scene, cache: BC.BlobCache)
    requires cache.View().items == []
    ensures sc.SpanMissed(cache.items, 0, |sc.index|)
  {
  }
}
