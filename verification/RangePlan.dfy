/** From an HTTP byte range to the fragments that hold it (stream.rs). */
module RangePlan {
  import opened Machine
  import opened Wrappers
  import opened FragmentIndex
  import opened Content

  datatype RangeReq = RangeReq(start: u64, len: u64)

  datatype Plan = Plan(f0: u32, f1: u32, base: u64)

  datatype RangeError = RangeFailed

  /** Byte `b` is asked for by `bytes=first-last` and exists in a resource of `total` bytes. */
  ghost predicate Wanted(b: int, first: u64, last: Option<u64>, total: u64) {
    first <= b < total && (last.Some? ==> b <= last.value)
  }

  /**
   `resolve_range`: RFC 9110 section 14.1.2, with a cap on the body. Refused exactly when no wanted
   byte exists; otherwise the first wanted bytes, as many as there are or as the cap allows.
   */
  function ResolveRange(first: u64, last: Option<u64>, total: u64, maxBody: u64): (r: Option<RangeReq>)
    ensures r.None? <==> forall b :: !Wanted(b, first, last, total)
    ensures r.Some? ==> r.value.start == first && 1 <= r.value.len
    ensures r.Some? ==> forall b :: first <= b < first + r.value.len ==> Wanted(b, first, last, total)
    ensures r.Some? ==> r.value.len <= (if maxBody == 0 then 1 else maxBody)
    ensures r.Some? && r.value.len < (if maxBody == 0 then 1 else maxBody)
            ==> !Wanted(first + r.value.len, first, last, total)
  {
    if total == 0 || first >= total then None
    else
      var end := Min(if last.Some? then last.value else total - 1, total - 1);
      if end < first then
        assert forall b :: !Wanted(b, first, last, total);
        None
      else
        assert Wanted(first, first, last, total);
        Some(RangeReq(first, Min(end - first + 1, if maxBody == 0 then 1 else maxBody)))
  }

  /** `total_len`: the content length, from the chunk count and the length of the last chunk. */
  function TotalLen(n: u64, cs: u64, lastLen: u64): (r: Result<u64, RangeError>)
    ensures r.Ok? <==> n >= 1 && cs >= 1 && ByteOf(cs, n - 1) + lastLen < U64_BOUND
    ensures r.Ok? ==> r.value == ByteOf(cs, n - 1) + lastLen
  {
    if n == 0 || cs == 0 then Err(RangeFailed)
    else
      var whole := ByteOf(cs, n - 1);
      if whole >= U64_BOUND || whole + lastLen >= U64_BOUND then Err(RangeFailed) else Ok(whole + lastLen)
  }

  /** For a sealed stream the last chunk's own length gives back the length of the whole. */
  lemma TotalLenIsContentLength(d: ContentDecryptor, content: Bytes, cs: u64)
    requires Binds(d, content, cs) && |content| < U64_BOUND
    ensures var lastLen := |ChunkBytes(content, cs, d.chunkCount - 1, d.chunkCount)|;
            lastLen < U64_BOUND && TotalLen(d.chunkCount, cs, lastLen) == Ok(|content|)
  {
    var n := d.chunkCount;
    hide ByteOf;
    assert Min(ByteOf(cs, n - 1), |content|) == ByteOf(cs, n - 1) && Min(ByteOf(cs, n), |content|) == |content|;
  }

  /** Of the first `i` slots, the one that covers chunk `c`, by its truncated number. */
  ghost predicate Found(index: seq<FragmentEntry>, i: nat, c: nat, f: Option<u32>)
    requires i <= |index|
  {
    match f
    case Some(s) => exists k :: 0 <= k < i && Covers(index, k, c) && index[k].seqNo == s
    case None => forall k :: 0 <= k < i ==> !Covers(index, k, c)
  }

  lemma FoundNext(index: seq<FragmentEntry>, i: nat, c: nat, f: Option<u32>)
    requires i < |index| && Found(index, i, c, f)
    ensures Found(index, i + 1, c, if Covers(index, i, c) then Some(index[i].seqNo) else f)
  {
  }

  /** The plan for a request whose first and last chunks lie in slots `k0` and `k1`. */
  ghost predicate PlanOf(index: seq<FragmentEntry>, cs: nat, req: RangeReq, k0: nat, k1: nat, plan: Plan)
    requires cs >= 1 && req.len >= 1
  {
    && k0 <= k1 < |index| && Covers(index, k0, ChunkOf(cs, req.start)) && Covers(index, k1, ChunkOf(cs, LastByte(req)))
    && plan.f0 == AsU32(k0) && plan.f1 == AsU32(k1)
    && plan.base == ByteOf(cs, index[plan.f0].chunkStart) <= req.start
  }

  function LastByte(req: RangeReq): nat
    requires req.len >= 1
  {
    req.start + req.len - 1
  }

  /**
   `plan_range` over a parsed index: refused exactly when the last wanted byte is past the coverage
   (or past 64 bits); otherwise the slots of the first and last byte, by their truncated numbers,
   and the byte offset of the slot the first number stands for.
   */
  method PlanRange(index: seq<FragmentEntry>, cs: u64, req: RangeReq) returns (r: Result<Plan, RangeError>)
    ensures index == [] || cs == 0 || req.len == 0 ==> r.Err?
    ensures cs >= 1 && req.len >= 1 && WellFormed(index) ==>
              (r.Ok? <==> LastByte(req) < U64_BOUND && ChunkOf(cs, LastByte(req)) < Coverage(index))
    ensures cs >= 1 && req.len >= 1 && WellFormed(index) && r.Ok? ==>
              exists k0, k1 :: PlanOf(index, cs, req, k0, k1, r.value)
  {
    if index == [] || cs == 0 || req.len == 0 { return Err(RangeFailed); }
    var lastByte: int := req.start + (req.len - 1);
    if lastByte >= U64_BOUND { return Err(RangeFailed); }
    assert lastByte == LastByte(req);
    var firstChunk, lastChunk := ChunkOf(cs, req.start), ChunkOf(cs, lastByte);
    hide Found, WellFormed, Coverage, PlanOf, Lookup, LastByte, ChunkOf, ByteOf;
    var f0, f1, fits := LocateChunks(index, firstChunk, lastChunk);
    if !fits { return Err(RangeFailed); }
    ghost var wf := WellFormed(index);
    if wf { CoveredIff(index, cs, req, f0, f1); }
    if f0.None? || f1.None? { return Err(RangeFailed); }
    if wf { FoundPlan(index, cs, req, f0.value, f1.value); }
    var e0 := Lookup(index, f0.value);
    if e0.None? { return Err(RangeFailed); }
    var base: int := ByteOf(cs, e0.value.chunkStart);
    if base >= U64_BOUND { return Err(RangeFailed); }
    return Ok(Plan(f0.value, f1.value, base));
  }

  /** The search loop of `plan_range`; it gives up (`!fits`) on a slot whose end leaves 64 bits. */
  method LocateChunks(index: seq<FragmentEntry>, firstChunk: u64, lastChunk: u64)
    returns (f0: Option<u32>, f1: Option<u32>, fits: bool)
    ensures !fits ==> !WellFormed(index)
    ensures fits ==> Found(index, |index|, firstChunk, f0) && Found(index, |index|, lastChunk, f1)
  {
    f0, f1 := None, None;
    hide Found, WellFormed;
    FoundNone(index, firstChunk);
    FoundNone(index, lastChunk);
    for i := 0 to |index|
      invariant Found(index, i, firstChunk, f0) && Found(index, i, lastChunk, f1)
    {
      var e := index[i];
      var cend: int := e.chunkStart + e.chunkLen;
      if cend >= U64_BOUND {
        NotWellFormed(index, i);
        return None, None, false;
      }
      FoundNext(index, i, firstChunk, f0);
      FoundNext(index, i, lastChunk, f1);
      if e.chunkStart <= firstChunk < cend { f0 := Some(e.seqNo); }
      if e.chunkStart <= lastChunk < cend { f1 := Some(e.seqNo); }
    }
    fits := true;
  }

  lemma FoundNone(index: seq<FragmentEntry>, c: nat)
    ensures Found(index, 0, c, None)
  {
  }

  lemma NotWellFormed(index: seq<FragmentEntry>, i: nat)
    requires i < |index| && index[i].chunkStart + index[i].chunkLen >= U64_BOUND
    ensures !WellFormed(index)
  {
    assert !Linked(index, i);
  }

  /** Both searches succeed exactly when the last chunk is covered. */
  lemma CoveredIff(index: seq<FragmentEntry>, cs: nat, req: RangeReq, f0: Option<u32>, f1: Option<u32>)
    requires cs >= 1 && req.len >= 1 && WellFormed(index)
    requires Found(index, |index|, ChunkOf(cs, req.start), f0) && Found(index, |index|, ChunkOf(cs, LastByte(req)), f1)
    ensures f0.Some? && f1.Some? <==> ChunkOf(cs, LastByte(req)) < Coverage(index)
  {
    ChunkMono(cs, req.start, LastByte(req));
    CoveredOne(index, ChunkOf(cs, req.start), f0);
    CoveredOne(index, ChunkOf(cs, LastByte(req)), f1);
  }

  lemma CoveredOne(index: seq<FragmentEntry>, c: nat, f: Option<u32>)
    requires WellFormed(index) && Found(index, |index|, c, f)
    ensures f.Some? <==> c < Coverage(index)
  {
    if c < Coverage(index) {
      var k := SlotOfChunk(index, c);
    } else if f.Some? {
      var k :| 0 <= k < |index| && Covers(index, k, c) && index[k].seqNo == f.value;
      SlotsAscend(index, k, |index| - 1);
    }
  }

  /** The found numbers make a plan, and its base never leaves 64 bits. */
  lemma FoundPlan(index: seq<FragmentEntry>, cs: nat, req: RangeReq, s0: u32, s1: u32)
    requires cs >= 1 && req.len >= 1 && WellFormed(index)
    requires Found(index, |index|, ChunkOf(cs, req.start), Some(s0))
    requires Found(index, |index|, ChunkOf(cs, LastByte(req)), Some(s1))
    ensures var e0 := Lookup(index, s0);
            && e0.Some? && ByteOf(cs, e0.value.chunkStart) <= req.start
            && exists k0, k1 :: PlanOf(index, cs, req, k0, k1, Plan(s0, s1, ByteOf(cs, e0.value.chunkStart)))
  {
    hide *;
    var c0, c1 := ChunkOf(cs, req.start), ChunkOf(cs, LastByte(req));
    StartBeforeEnd(req);
    ChunkMono(cs, req.start, LastByte(req));
    var k0 := SlotFound(index, c0, s0);
    var k1 := SlotFound(index, c1, s1);
    SlotsInOrder(index, k0, k1, c0, c1);
    LookupSlot(index, s0);
    SlotsAscend(index, s0, k0);
    IsPlan(index, cs, req, k0, k1, s0, s1);
  }

  lemma StartBeforeEnd(req: RangeReq)
    requires req.len >= 1
    ensures req.start <= LastByte(req)
  {
  }

  lemma SlotFound(index: seq<FragmentEntry>, c: nat, s: u32) returns (k: nat)
    requires WellFormed(index) && Found(index, |index|, c, Some(s))
    ensures k < |index| && Covers(index, k, c) && s == AsU32(k) <= k && s < U32_BOUND
  {
    k :| 0 <= k < |index| && Covers(index, k, c) && index[k].seqNo == s;
    assert Linked(index, k);
  }

  lemma SlotsInOrder(index: seq<FragmentEntry>, k0: nat, k1: nat, c0: nat, c1: nat)
    requires WellFormed(index) && k0 < |index| && k1 < |index| && c0 <= c1
    requires Covers(index, k0, c0) && Covers(index, k1, c1)
    ensures k0 <= k1
  {
    if k1 < k0 { SlotsAscend(index, k1, k0); }
  }

  lemma IsPlan(index: seq<FragmentEntry>, cs: nat, req: RangeReq, k0: nat, k1: nat, s0: u32, s1: u32)
    requires cs >= 1 && req.len >= 1 && k0 <= k1 < |index| && s0 == AsU32(k0) <= k0 && s1 == AsU32(k1)
    requires Covers(index, k0, ChunkOf(cs, req.start)) && Covers(index, k1, ChunkOf(cs, LastByte(req)))
    requires index[s0].chunkStart <= index[k0].chunkStart
    ensures ByteOf(cs, index[s0].chunkStart) <= req.start
    ensures PlanOf(index, cs, req, k0, k1, Plan(s0, s1, ByteOf(cs, index[s0].chunkStart)))
  {
    ChunkBounds(cs, req.start);
    ByteMono(cs, index[s0].chunkStart, ChunkOf(cs, req.start));
  }

  /** `slice_range`: exactly the requested window of the assembled plaintext, or nothing. */
  function SliceRange(assembled: Bytes, base: u64, req: RangeReq): (r: Result<Bytes, RangeError>)
    ensures r.Ok? <==> base <= req.start && req.start - base + req.len <= |assembled|
    ensures r.Ok? ==> |r.value| == req.len
    ensures r.Ok? ==> forall i :: 0 <= i < req.len ==> r.value[i] == assembled[req.start - base + i]
  {
    if req.start < base then Err(RangeFailed)
    else
      var lo := req.start - base;
      if lo + req.len > |assembled| then Err(RangeFailed) else Ok(assembled[lo..lo + req.len])
  }
}
