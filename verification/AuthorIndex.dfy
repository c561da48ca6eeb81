/** The author's side of the seek contract (upload.rs): building, publishing and re-checking the index. */
module AuthorIndex {
  import opened Machine
  import opened Wrappers
  import opened FragmentIndex

  /** Bytes per content chunk, and content chunks per fragment. */
  const VIDEO_CHUNK_SIZE: u64 := 1024 * 1024
  const FRAG_CHUNKS: u64 := 1

  /** Fragments `[k * f, min((k + 1) * f, n))`, numbered from `k`: the index `chunk_grouped_index` means. */
  ghost predicate Grouped(index: seq<FragmentEntry>, n: nat, f: nat) {
    forall k :: 0 <= k < |index| ==>
      && index[k].seqNo == AsU32(k) && index[k].ptsMs == 0
      && index[k].chunkStart == k * f < n && index[k].chunkLen == Min(f, n - k * f)
  }

  /**
   `chunk_grouped_index`. The counter is incremented after every push, with overflow checks on, so
   the call aborts (`None`) once 2^32 fragments are reached.
   */
  method ChunkGroupedIndex(n: u64, f: u64) returns (r: Option<seq<FragmentEntry>>)
    requires f >= 1
    ensures r.Some? <==> DivCeil(n, f) < U32_BOUND
    ensures r.Some? ==> |r.value| == DivCeil(n, f) && Grouped(r.value, n, f)
  {
    var frags: seq<FragmentEntry> := [];
    var chunkStart: u64, seqNo: u32 := 0, 0;
    while chunkStart < n
      invariant |frags| == seqNo && Grouped(frags, n, f)
      invariant chunkStart == Min(seqNo * f, n)
      invariant seqNo <= DivCeil(n, f) && (chunkStart == n ==> seqNo == DivCeil(n, f))
      decreases n - chunkStart
    {
      var remaining := n - chunkStart;
      var chunkLen: u64 := Min(f, remaining);
      StepCount(n, f, seqNo);
      frags := frags + [FragmentEntry(seqNo, 0, chunkStart, chunkLen)];
      chunkStart := chunkStart + chunkLen;
      if seqNo + 1 >= U32_BOUND { return None; }
      seqNo := seqNo + 1;
    }
    return Some(frags);
  }

  /** The fragment count, as the loop reaches it. */
  lemma StepCount(n: nat, f: nat, k: nat)
    requires f >= 1 && k * f < n
    ensures (k + 1) * f == k * f + f
    ensures k + 1 <= DivCeil(n, f) && (n <= (k + 1) * f ==> k + 1 == DivCeil(n, f))
  {
    if n <= (k + 1) * f {
      if n == (k + 1) * f { DivUnique(n, f, k + 1, 0); } else { DivUnique(n, f, k, n - k * f); }
    } else {
      var q := n / f;
      assert n == q * f + n % f;
      assert q <= k ==> q * f <= k * f;
    }
  }

  /** `build_metadata_with_fragments`: every field is written under the name the viewer reads. */
  function Publish(title: string, tags: seq<string>, index: seq<FragmentEntry>): Metadata {
    Metadata(title, tags, Some(seq(|index|, i requires 0 <= i < |index| => RawOf(index[i]))))
  }

  function RawOf(e: FragmentEntry): RawEntry {
    RawEntry(Some(e.seqNo), Some(e.ptsMs), Some(e.chunkStart), Some(e.chunkLen))
  }

  lemma {:induction false} PublishedStart(title: string, tags: seq<string>, index: seq<FragmentEntry>, k: nat)
    requires WellFormed(index) && k <= |index|
    ensures StartOf(Publish(title, tags, index).fragments.value, k) == if k == 0 then 0 else End(index, k - 1)
  {
    if k > 0 {
      PublishedStart(title, tags, index, k - 1);
      assert Linked(index, k - 1);
    }
  }

  lemma PublishedIsGood(title: string, tags: seq<string>, index: seq<FragmentEntry>, k: nat)
    requires WellFormed(index) && k < |index| && k < U32_BOUND
    ensures GoodSlot(Publish(title, tags, index).fragments.value, k)
  {
    PublishedStart(title, tags, index, k);
    SmallAsU32(k);
    assert Linked(index, k);
  }

  lemma GoodSlotIsKept(arr: seq<RawEntry>, k: nat, e: FragmentEntry)
    requires k < |arr| && GoodSlot(arr, k) && arr[k] == RawOf(e)
    ensures k < U32_BOUND && Kept(arr, k) == e
  {
    SmallAsU32(k);
  }

  /** The parser takes a published index back, unchanged, exactly when it is well-formed and short enough. */
  lemma PublishedParsesBack(title: string, tags: seq<string>, index: seq<FragmentEntry>)
    ensures var arr := Publish(title, tags, index).fragments.value;
            && (Acceptable(arr) <==> WellFormed(index) && |index| <= U32_BOUND)
            && (Acceptable(arr) ==> forall k :: 0 <= k < |index| ==> Kept(arr, k) == index[k])
  {
    var arr := Publish(title, tags, index).fragments.value;
    if WellFormed(index) && |index| <= U32_BOUND {
      forall k | 0 <= k < |arr| ensures GoodSlot(arr, k) { PublishedIsGood(title, tags, index, k); }
    }
    if Acceptable(arr) {
      forall k | 0 <= k < |arr| ensures k < U32_BOUND && Kept(arr, k) == index[k] {
        GoodSlotIsKept(arr, k, index[k]);
      }
      ParsedIsWellFormed(arr, index);
      GoodSlotIsKept(arr, |arr| - 1, index[|arr| - 1]);
    }
  }

  lemma GroupedEnd(index: seq<FragmentEntry>, n: u64, f: u64, k: nat)
    requires f >= 1 && |index| == DivCeil(n, f) && Grouped(index, n, f) && k < |index|
    ensures End(index, k) == (if k + 1 < |index| then index[k + 1].chunkStart else n)
  {
    StepCount(n, f, k);
  }

  /** A grouped index of all `n` chunks is well-formed and covers exactly `n`. */
  lemma GroupedIsWellFormed(index: seq<FragmentEntry>, n: u64, f: u64)
    requires n >= 1 && f >= 1 && |index| == DivCeil(n, f) && Grouped(index, n, f)
    ensures WellFormed(index) && Coverage(index) == n
  {
    StepCount(n, f, 0);
    forall k | 0 <= k < |index| ensures Linked(index, k) {
      GroupedEnd(index, n, f, k);
      if k > 0 { GroupedEnd(index, n, f, k - 1); }
    }
    GroupedEnd(index, n, f, |index| - 1);
  }

  /**
   Steps 7 and 8 of `prepare_video_streams`: index the chunks of the transcoded file, publish, parse
   back and re-check the coverage. Neither re-check ever rejects, and the index it hands on is the
   one the viewer will parse; the build aborts (`None`) exactly at 2^32 fragments.
   */
  method PrepareIndex(outputSize: u64, title: string, tags: seq<string>)
    returns (r: Option<Result<(seq<FragmentEntry>, Metadata), ParseError>>)
    ensures r.None? <==> DivCeil(DivCeil(outputSize, VIDEO_CHUNK_SIZE), FRAG_CHUNKS) >= U32_BOUND
    ensures r.Some? ==> (r.value.Err? <==> outputSize == 0)
    ensures r.None? <==> DivCeil(outputSize, 1_048_576) >= 0x1_0000_0000
    ensures r.Some? && r.value.Ok? ==>
              var (index, meta) := r.value.value;
              && |index| == DivCeil(outputSize, 1_048_576) && (forall k :: 0 <= k < |index| ==> index[k].chunkLen == 1)
              && meta.title == title && meta.tags == tags
    ensures r.Some? && r.value.Ok? ==>
              var (index, meta) := r.value.value;
              && WellFormed(index) && Coverage(index) == DivCeil(outputSize, VIDEO_CHUNK_SIZE)
              && Grouped(index, DivCeil(outputSize, VIDEO_CHUNK_SIZE), FRAG_CHUNKS)
              && |index| == DivCeil(DivCeil(outputSize, VIDEO_CHUNK_SIZE), FRAG_CHUNKS)
              && meta == Publish(title, tags, index) && Acceptable(meta.fragments.value)
              && forall k :: 0 <= k < |index| ==> Kept(meta.fragments.value, k) == index[k]
  {
    if outputSize == 0 { return Some(Err(BadIndex)); }
    var nChunks: u64 := DivCeil(outputSize, VIDEO_CHUNK_SIZE);
    var frags := ChunkGroupedIndex(nChunks, FRAG_CHUNKS);
    if frags.None? { return None; }
    var meta := Publish(title, tags, frags.value);
    GroupedIsWellFormed(frags.value, nChunks, FRAG_CHUNKS);
    PublishedParsesBack(title, tags, frags.value);
    var index := ParseFragmentIndex(meta);
    if index.Err? { return Some(Err(BadIndex)); }
    assert index.value == frags.value;
    var last := index.value[|index.value| - 1];
    var covered: int := last.chunkStart + last.chunkLen;
    if covered >= U64_BOUND || covered != nChunks { return Some(Err(BadIndex)); }
    return Some(Ok((frags.value, meta)));
  }
}
