/**
 The fragment index (video.rs): the seek map the viewer parses out of the authenticated metadata,
 and the lookups over it. Metadata is the record of fields the parser reads; a field is `None` when
 it is absent or is not a `u64`.
 */
module FragmentIndex {
  import opened Machine
  import opened Wrappers

  datatype FragmentEntry = FragmentEntry(seqNo: u32, ptsMs: u64, chunkStart: u64, chunkLen: u64)

  datatype RawEntry = RawEntry(seqNo: Option<u64>, ptsMs: Option<u64>,
                               chunkStart: Option<u64>, chunkLen: Option<u64>)

  /** `fragments` is `None` when the metadata has no such array. */
  datatype Metadata = Metadata(title: string, tags: seq<string>, fragments: Option<seq<RawEntry>>)

  datatype ParseError = BadIndex

  /** The chunk at which slot `k` of a contiguous index begins: everything before it, summed. */
  ghost function StartOf(arr: seq<RawEntry>, k: nat): nat
    requires k <= |arr|
  {
    if k == 0 then 0
    else StartOf(arr, k - 1) + (if arr[k - 1].chunkLen.Some? then arr[k - 1].chunkLen.value else 0)
  }

  /** Slot `k` is complete, carries its own number, is not empty, and starts where the last ended. */
  ghost predicate GoodSlot(arr: seq<RawEntry>, k: nat)
    requires k < |arr|
  {
    var e := arr[k];
    && e.seqNo.Some? && e.ptsMs.Some? && e.chunkStart.Some? && e.chunkLen.Some?
    && e.seqNo.value == k && e.chunkStart.value == StartOf(arr, k)
    && e.chunkLen.value >= 1 && StartOf(arr, k) + e.chunkLen.value < U64_BOUND
    && (k > 0 && arr[k - 1].ptsMs.Some? ==> arr[k - 1].ptsMs.value <= e.ptsMs.value)
  }

  /** What the parser accepts. */
  ghost predicate Acceptable(arr: seq<RawEntry>) {
    arr != [] && forall k :: 0 <= k < |arr| ==> GoodSlot(arr, k)
  }

  /** The entry stored for a good slot; its number is truncated to `u32`. */
  ghost function Kept(arr: seq<RawEntry>, k: nat): FragmentEntry
    requires k < |arr| && GoodSlot(arr, k)
  {
    FragmentEntry(AsU32(k), arr[k].ptsMs.value, arr[k].chunkStart.value, arr[k].chunkLen.value)
  }

  /** `parse_fragment_index`: accepts exactly the acceptable arrays, and keeps every slot. */
  method ParseFragmentIndex(meta: Metadata) returns (r: Result<seq<FragmentEntry>, ParseError>)
    ensures r.Ok? <==> meta.fragments.Some? && Acceptable(meta.fragments.value)
    ensures r.Ok? ==> |r.value| == |meta.fragments.value|
    ensures r.Ok? ==> forall k :: 0 <= k < |r.value| ==> r.value[k] == Kept(meta.fragments.value, k)
  {
    if meta.fragments.None? { return Err(BadIndex); }
    var arr := meta.fragments.value;
    if arr == [] { return Err(BadIndex); }
    var out: seq<FragmentEntry> := [];
    var expectedStart: u64, lastPts: u64 := 0, 0;
    for k := 0 to |arr|
      invariant forall j :: 0 <= j < k ==> GoodSlot(arr, j)
      invariant |out| == k && forall j :: 0 <= j < k ==> out[j] == Kept(arr, j)
      invariant expectedStart == StartOf(arr, k)
      invariant k == 0 ==> lastPts == 0
      invariant k > 0 ==> GoodSlot(arr, k - 1) && lastPts == arr[k - 1].ptsMs.value
    {
      var item := arr[k];
      if item.seqNo.None? || item.ptsMs.None? || item.chunkStart.None? || item.chunkLen.None? {
        assert !GoodSlot(arr, k);
        return Err(BadIndex);
      }
      if || item.seqNo.value != k || item.ptsMs.value < lastPts || item.chunkLen.value < 1
         || item.chunkStart.value != expectedStart
      {
        assert !GoodSlot(arr, k);
        return Err(BadIndex);
      }
      var end: int := item.chunkStart.value + item.chunkLen.value;
      if end >= U64_BOUND {
        assert !GoodSlot(arr, k);
        return Err(BadIndex);
      }
      expectedStart, lastPts := end, item.ptsMs.value;
      out := out + [FragmentEntry(AsU32(item.seqNo.value), item.ptsMs.value, item.chunkStart.value,
                                  item.chunkLen.value)];
    }
    return Ok(out);
  }

  /** The shape of every parsed index, without its raw form. */
  ghost predicate WellFormed(index: seq<FragmentEntry>) {
    index != [] && forall k :: 0 <= k < |index| ==> Linked(index, k)
  }

  /** Slot `k` is numbered, not empty, and continues the slot before it. */
  ghost predicate Linked(index: seq<FragmentEntry>, k: nat)
    requires k < |index|
  {
    && index[k].seqNo == AsU32(k) && index[k].chunkLen >= 1 && End(index, k) < U64_BOUND
    && index[k].chunkStart == (if k == 0 then 0 else End(index, k - 1))
    && (k > 0 ==> index[k - 1].ptsMs <= index[k].ptsMs)
  }

  /** The chunk just past slot `k`. */
  ghost function End(index: seq<FragmentEntry>, k: nat): nat
    requires k < |index|
  {
    index[k].chunkStart + index[k].chunkLen
  }

  /** How many chunks the whole index covers. */
  ghost function Coverage(index: seq<FragmentEntry>): nat
    requires index != []
  {
    End(index, |index| - 1)
  }

  /** Parsing yields exactly the well-formed indexes: this one from a metadata, that one from its own raw form. */
  lemma ParsedIsWellFormed(arr: seq<RawEntry>, index: seq<FragmentEntry>)
    requires Acceptable(arr) && |index| == |arr|
    requires forall k :: 0 <= k < |arr| ==> index[k] == Kept(arr, k)
    ensures WellFormed(index)
  {
    forall k | 0 <= k < |index| ensures Linked(index, k) {
      assert GoodSlot(arr, k) && (k > 0 ==> GoodSlot(arr, k - 1));
    }
  }

  lemma {:induction false} SlotsAscend(index: seq<FragmentEntry>, i: nat, j: nat)
    requires WellFormed(index) && i <= j < |index|
    ensures index[i].ptsMs <= index[j].ptsMs
    ensures index[i].chunkStart + (j - i) <= index[j].chunkStart
    ensures i < j ==> End(index, i) <= index[j].chunkStart
    decreases j
  {
    if i < j {
      SlotsAscend(index, i, j - 1);
      assert Linked(index, j) && Linked(index, j - 1);
    }
  }

  /** The slots partition `[0, Coverage)`: each covered chunk lies in one slot and in no other. */
  lemma {:induction false} SlotOfChunk(index: seq<FragmentEntry>, c: nat) returns (k: nat)
    requires WellFormed(index) && c < Coverage(index)
    ensures k < |index| && Covers(index, k, c)
    ensures forall j :: 0 <= j < |index| && Covers(index, j, c) ==> j == k
  {
    k := |index| - 1;
    while c < index[k].chunkStart
      invariant 0 <= k < |index| && c < End(index, k)
      decreases k
    {
      assert Linked(index, k);
      k := k - 1;
    }
    forall j | 0 <= j < |index| && Covers(index, j, c) ensures j == k {
      if j < k { SlotsAscend(index, j, k); }
      if k < j { SlotsAscend(index, k, j); }
    }
  }

  ghost predicate Covers(index: seq<FragmentEntry>, k: nat, c: nat)
    requires k < |index|
  {
    index[k].chunkStart <= c < End(index, k)
  }

  /** The slot that covers chunk `c`, if there is one. */
  ghost function SlotAt(index: seq<FragmentEntry>, c: nat): (k: nat)
    ensures index != [] ==> k < |index|
  {
    if exists k :: 0 <= k < |index| && Covers(index, k, c)
    then
      var k :| 0 <= k < |index| && Covers(index, k, c);
      k
    else 0
  }

  lemma SlotAtIs(index: seq<FragmentEntry>, k: nat, c: nat)
    requires WellFormed(index) && k < |index| && Covers(index, k, c)
    ensures SlotAt(index, c) == k
  {
    var j := SlotAt(index, c);
    if j < k { SlotsAscend(index, j, k); }
    if k < j { SlotsAscend(index, k, j); }
  }

  /** Slot `k` has opened by `t` and no later slot has. */
  ghost predicate LastOpen(index: seq<FragmentEntry>, k: nat, t: u64)
    requires k < |index|
  {
    index[k].ptsMs <= t && forall j :: k < j < |index| ==> index[j].ptsMs > t
  }

  /**
   `fragment_for_time` stops at the first unopened slot, yet over a parsed index it finds the last
   slot whose window has opened by `t`.
   */
  method FragmentForTime(index: seq<FragmentEntry>, t: u64) returns (hit: Option<u32>)
    ensures WellFormed(index) ==> (hit.None? <==> t < index[0].ptsMs)
    ensures WellFormed(index) && hit.Some? ==>
              exists k :: 0 <= k < |index| && hit.value == index[k].seqNo && LastOpen(index, k, t)
    ensures index == [] ==> hit == None
  {
    hit := None;
    var i := 0;
    while i < |index|
      invariant 0 <= i <= |index|
      invariant forall k :: 0 <= k < i ==> index[k].ptsMs <= t
      invariant i == 0 ==> hit == None
      invariant i > 0 ==> hit == Some(index[i - 1].seqNo)
    {
      if index[i].ptsMs > t { break; }
      hit := Some(index[i].seqNo);
      i := i + 1;
    }
    if WellFormed(index) {
      forall k | i <= k < |index| ensures index[k].ptsMs > t {
        SlotsAscend(index, i, k);
      }
      assert i > 0 ==> LastOpen(index, i - 1, t);
    }
  }

  /** `e` is the first entry numbered `s`. */
  ghost predicate FirstNumbered(index: seq<FragmentEntry>, s: u32, k: nat, e: FragmentEntry) {
    k < |index| && index[k] == e && e.seqNo == s && forall j :: 0 <= j < k ==> index[j].seqNo != s
  }

  /** `chunks_for_fragment` finds the first entry numbered `s`. */
  function Lookup(index: seq<FragmentEntry>, s: u32): (r: Option<FragmentEntry>)
    ensures r.None? ==> forall k :: 0 <= k < |index| ==> index[k].seqNo != s
    ensures r.Some? ==> exists k :: FirstNumbered(index, s, k, r.value)
  {
    if index == [] then None
    else if index[0].seqNo == s then
      assert FirstNumbered(index, s, 0, index[0]);
      Some(index[0])
    else
      var r := Lookup(index[1..], s);
      assert r.Some? ==> exists k :: FirstNumbered(index, s, k, r.value) by {
        if r.Some? {
          var k: nat :| FirstNumbered(index[1..], s, k, r.value);
          assert FirstNumbered(index, s, k + 1, r.value);
        }
      }
      r
  }

  /** A number below 2^32 finds its own slot, whatever the length of the index. */
  lemma LookupSlot(index: seq<FragmentEntry>, k: nat)
    requires WellFormed(index) && k < |index| && k < U32_BOUND
    ensures Lookup(index, k) == Some(index[k])
  {
    var r := Lookup(index, k);
    SmallAsU32(k);
    assert Linked(index, k) && index[k].seqNo == k;
    var j: nat :| FirstNumbered(index, k, j, r.value);
    assert j <= k;
    SmallAsU32(j);
    assert Linked(index, j) && index[j].seqNo == j;
  }

  /** Slot numbers identify slots exactly up to 2^32 fragments; a longer index is still accepted. */
  lemma NumbersIdentifySlots(index: seq<FragmentEntry>)
    requires WellFormed(index)
    ensures (forall k :: 0 <= k < |index| ==> Lookup(index, index[k].seqNo) == Some(index[k]))
            <==> |index| <= U32_BOUND
  {
    if |index| <= U32_BOUND {
      forall k | 0 <= k < |index| ensures Lookup(index, index[k].seqNo) == Some(index[k]) {
        SmallAsU32(k);
        assert Linked(index, k);
        LookupSlot(index, k);
      }
    } else {
      LookupSlot(index, 0);
      SlotsAscend(index, 0, U32_BOUND);
      assert Linked(index, 0) && Linked(index, U32_BOUND);
    }
  }

  /** An array of 2^32 + 1 fragments of one chunk each. */
  ghost function OneTooMany(): seq<RawEntry> {
    seq(U32_BOUND + 1, k requires 0 <= k < U32_BOUND + 1 => RawEntry(Some(k), Some(0), Some(k), Some(1)))
  }

  lemma {:induction false} OneTooManyStarts(k: nat)
    requires k <= U32_BOUND + 1
    ensures StartOf(OneTooMany(), k) == k
  {
    if k > 0 { OneTooManyStarts(k - 1); }
  }

  /** It is accepted, and asking for its last fragment finds the first. */
  lemma {:induction false} LastFindsFirst(index: seq<FragmentEntry>)
    requires var arr := OneTooMany();
             |index| == |arr| && forall k :: 0 <= k < |arr| && GoodSlot(arr, k) ==> index[k] == Kept(arr, k)
    ensures Acceptable(OneTooMany()) && |index| == U32_BOUND + 1
    ensures Lookup(index, index[U32_BOUND].seqNo) == Some(index[0])
    ensures index[0].chunkStart != index[U32_BOUND].chunkStart
  {
    var arr := OneTooMany();
    forall k | 0 <= k < |arr| ensures GoodSlot(arr, k) { OneTooManyStarts(k); }
    ParsedIsWellFormed(arr, index);
    LookupSlot(index, 0);
    assert GoodSlot(arr, 0) && GoodSlot(arr, U32_BOUND);
  }
}
