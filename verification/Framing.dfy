/**
 The length-prefixed framing under which a fragment's ciphertext chunks rest in the cache
 (video.rs): `u32 count`, then `u32 len` and the bytes of every chunk, all little-endian.
 */
module Framing {
  import opened Machine
  import opened Wrappers

  /** `u32::to_le_bytes` */
  function Word(x: u32): (bs: Bytes)
    ensures |bs| == 4
  {
    LeBytes(x, WORD)
  }

  lemma WordIsLittle(x: u32)
    ensures LittleWord(Word(x)) == x
  {
    Pow256Word();
    WordRoundTrips(x, WORD);
    WordValues(Word(x));
  }

  lemma WordInjective(x: u32, y: u32)
    requires Word(x) == Word(y)
    ensures x == y
  {
    Pow256Word();
    WordRoundTrips(x, WORD);
    WordRoundTrips(y, WORD);
  }

  /** Every count and length survives its cast to `u32`. */
  ghost predicate Fits(chunks: seq<Bytes>) {
    |chunks| < U32_BOUND && forall i :: 0 <= i < |chunks| ==> |chunks[i]| < U32_BOUND
  }

  /** The chunk records alone, without the leading count. */
  function Body(chunks: seq<Bytes>): Bytes {
    if chunks == [] then []
    else Word(AsU32(|chunks[0]|)) + chunks[0] + Body(chunks[1..])
  }

  /** The bytes `frame_chunks` writes; both casts truncate. */
  function Frame(chunks: seq<Bytes>): Bytes {
    Word(AsU32(|chunks|)) + Body(chunks)
  }

  /** What a blob means: the chunk list whose frame it is, if there is one. */
  ghost function Deframed(blob: Bytes): Option<seq<Bytes>> {
    if exists cs :: Frames(cs, blob) then var cs :| Frames(cs, blob); Some(cs) else None
  }

  ghost predicate Frames(cs: seq<Bytes>, blob: Bytes) { Fits(cs) && Frame(cs) == blob }

  lemma {:induction false} BodySnoc(chunks: seq<Bytes>, c: Bytes)
    ensures Body(chunks + [c]) == Body(chunks) + (Word(AsU32(|c|)) + c)
  {
    hide Word;
    if chunks == [] {
      assert [c][1..] == [];
    } else {
      assert (chunks + [c])[1..] == chunks[1..] + [c];
      BodySnoc(chunks[1..], c);
    }
  }

  /** Each record costs at least its own length header. */
  lemma {:induction false} BodyLength(chunks: seq<Bytes>)
    ensures |Body(chunks)| >= 4 * |chunks|
  {
    if chunks != [] { BodyLength(chunks[1..]); }
  }

  /** Bodies of equally many fitting chunks are prefix-free, hence injective. */
  lemma {:induction false} BodyInjective(a: seq<Bytes>, b: seq<Bytes>, s: Bytes, t: Bytes)
    requires Fits(a) && Fits(b) && |a| == |b|
    requires Body(a) + s == Body(b) + t
    ensures a == b && s == t
  {
    if a != [] {
      var u, v := Body(a) + s, Body(b) + t;
      HeadRecord(a, s);
      HeadRecord(b, t);
      assert Word(|a[0]|) == u[..4] == v[..4] == Word(|b[0]|);
      WordInjective(|a[0]|, |b[0]|);
      assert a[0] == u[4..4 + |a[0]|] == b[0];
      BodyInjective(a[1..], b[1..], s, t);
      assert a == [a[0]] + a[1..] && b == [b[0]] + b[1..];
    } else {
      assert s == Body(a) + s == t;
    }
  }

  /** How a body splits after its first record. */
  lemma HeadRecord(a: seq<Bytes>, s: Bytes)
    requires Fits(a) && a != []
    ensures var u := Body(a) + s;
            |u| >= 4 + |a[0]| && u[..4] == Word(|a[0]|) && u[4..4 + |a[0]|] == a[0]
            && u[4 + |a[0]|..] == Body(a[1..]) + s
  {
    hide Word;
    SmallAsU32(|a[0]|);
    assert Body(a) == Word(|a[0]|) + a[0] + Body(a[1..]);
    hide Body;
    SplitRecord(Word(|a[0]|), a[0], Body(a[1..]), s);
  }

  lemma SplitRecord<T>(h: seq<T>, c: seq<T>, t: seq<T>, s: seq<T>)
    ensures var u := h + c + t + s;
            u[..|h|] == h && u[|h|..|h| + |c|] == c && u[|h| + |c|..] == t + s
  {
    assert h + c + t + s == h + c + (t + s);
  }

  lemma FrameParts(cs: seq<Bytes>)
    requires Fits(cs)
    ensures |Frame(cs)| >= 4 && Frame(cs)[..4] == Word(|cs|) && Frame(cs)[4..] == Body(cs)
  {
    hide Word;
    hide Body;
    SmallAsU32(|cs|);
    HeaderThenRest(Frame(cs), Word(|cs|), Body(cs), |Frame(cs)|);
  }

  lemma FrameInjective(a: seq<Bytes>, b: seq<Bytes>)
    requires Fits(a) && Fits(b) && Frame(a) == Frame(b)
    ensures a == b
  {
    FrameParts(a);
    FrameParts(b);
    WordInjective(|a|, |b|);
    assert Body(a) + [] == Body(a) && Body(b) + [] == Body(b);
    BodyInjective(a, b, [], []);
  }

  /**
   Framing is a bijection onto its image exactly for the lists whose counts and lengths fit: those
   come back, every other list does not.
   */
  lemma DeframeInvertsFrame(chunks: seq<Bytes>)
    ensures Deframed(Frame(chunks)) == Some(chunks) <==> Fits(chunks)
  {
    if Fits(chunks) {
      assert Frames(chunks, Frame(chunks));
      FrameInjective(Deframed(Frame(chunks)).value, chunks);
    }
  }

  /** A frame of a list with too many chunks never passes for a frame of that many chunks. */
  lemma OverlongCountIsAMiss(chunks: seq<Bytes>)
    requires |chunks| >= U32_BOUND
    ensures var d := Deframed(Frame(chunks)); d.Some? ==> |d.value| != |chunks|
  {
  }

  /** Where the record of a chunk lies in a frame, and what it is: the length, truncated, and the bytes. */
  lemma RecordAt(chunks: seq<Bytes>, k: nat)
    requires k < |chunks|
    ensures LittleWord(Frame(chunks)[..4]) == |chunks| % 0x1_0000_0000
    ensures var c, at := chunks[k], 4 + |Body(chunks[..k])|;
            && |Body(chunks[..k + 1])| == |Body(chunks[..k])| + 4 + |c| && at + 4 + |c| <= |Frame(chunks)|
            && LittleWord(Frame(chunks)[at..at + 4]) == |c| % 0x1_0000_0000
            && Frame(chunks)[at + 4..at + 4 + |c|] == c
  {
    WordIsLittle(AsU32(|chunks|));
    WordIsLittle(AsU32(|chunks[k]|));
    BodyAt(chunks, k);
    hide Body, Word, LittleWord;
    PartsAt(Word(AsU32(|chunks|)), Body(chunks[..k]), Word(AsU32(|chunks[k]|)), chunks[k], Body(chunks[k + 1..]));
  }

  lemma BodyAt(chunks: seq<Bytes>, k: nat)
    requires k < |chunks|
    ensures Body(chunks[..k + 1]) == Body(chunks[..k]) + (Word(AsU32(|chunks[k]|)) + chunks[k])
    ensures Body(chunks)
            == Body(chunks[..k]) + (Word(AsU32(|chunks[k]|)) + chunks[k]) + Body(chunks[k + 1..])
  {
    hide Word;
    BodySplit(chunks, k + 1);
    BodySnoc(chunks[..k], chunks[k]);
    assert chunks[..k + 1] == chunks[..k] + [chunks[k]];
  }

  lemma PartsAt<T>(h: seq<T>, a: seq<T>, w: seq<T>, c: seq<T>, z: seq<T>)
    ensures var u, at := h + (a + (w + c) + z), |h| + |a|;
            && at + |w| + |c| <= |u| && u[..|h|] == h
            && u[at..at + |w|] == w && u[at + |w|..at + |w| + |c|] == c
  {
    assert h + (a + (w + c) + z) == (h + a) + w + c + z;
  }

  /** `frame_chunks` */
  method FrameChunks(chunks: seq<Bytes>) returns (out: Bytes)
    ensures out == Frame(chunks)
  {
    hide Word;
    out := Word(AsU32(|chunks|));
    for i := 0 to |chunks|
      invariant out == Word(AsU32(|chunks|)) + Body(chunks[..i])
    {
      out := out + Word(AsU32(|chunks[i]|));
      out := out + chunks[i];
      BodySnoc(chunks[..i], chunks[i]);
      assert chunks[..i + 1] == chunks[..i] + [chunks[i]];
    }
    assert chunks[..|chunks|] == chunks;
  }

  /** `read_u32`: the word at `pos` and the advanced position, or nothing past the end. */
  method ReadU32(blob: Bytes, pos: nat) returns (r: Option<(u32, nat)>)
    ensures r.None? <==> pos + 4 > |blob|
    ensures r.Some? ==> r.value.1 == pos + 4 && blob[pos..pos + 4] == Word(r.value.0)
    ensures r.Some? ==> r.value.0 == LittleWord(blob[pos..pos + 4])
  {
    var next := pos + 4;
    if next > |blob| { return None; }
    LeBytesOfValue(blob[pos..next]);
    WordValues(blob[pos..next]);
    Pow256Word();
    return Some((LeValue(blob[pos..next]), next));
  }

  /** `pos` bytes of `blob` have been read as the count and the records of `done`. */
  ghost predicate Parsed(blob: Bytes, count: u32, done: seq<Bytes>, pos: nat) {
    && |done| <= count && Fits(done) && 4 <= pos <= |blob|
    && blob[..pos] == Word(count) + Body(done)
  }

  lemma {:induction false} BodySplit(cs: seq<Bytes>, k: nat)
    requires k <= |cs|
    ensures Body(cs) == Body(cs[..k]) + Body(cs[k..])
  {
    if k == 0 {
      assert cs[..0] == [] && cs[0..] == cs;
    } else {
      hide Word;
      BodySplit(cs[1..], k - 1);
      assert cs[..k][1..] == cs[1..][..k - 1];
      assert cs[k..] == cs[1..][k - 1..];
    }
  }

  lemma SameCount(blob: Bytes, count: u32, done: seq<Bytes>, pos: nat, cs: seq<Bytes>)
    requires Parsed(blob, count, done, pos) && Frames(cs, blob)
    ensures |cs| == count && blob[4..] == Body(cs)
    ensures blob[4..] == Body(done) + blob[pos..]
  {
    HeaderThenRest(blob, Word(count), Body(done), pos);
    FrameParts(cs);
    WordInjective(count, |cs|);
  }

  lemma HeaderThenRest(blob: Bytes, header: Bytes, body: Bytes, pos: nat)
    requires pos <= |blob| && blob[..pos] == header + body
    ensures |header| <= pos && blob[..|header|] == header && blob[|header|..] == body + blob[pos..]
    ensures pos == |blob| ==> blob[|header|..] == body
  {
    assert blob == header + (body + blob[pos..]);
  }

  lemma Adjacent(blob: Bytes, i: nat, j: nat, k: nat)
    requires i <= j <= k <= |blob|
    ensures blob[i..k] == blob[i..j] + blob[j..k]
  {
  }

  lemma AppendRecord(blob: Bytes, header: Bytes, body: Bytes, record: Bytes, pos: nat, next: nat)
    requires pos <= next <= |blob| && blob[..pos] == header + body && blob[pos..next] == record
    ensures blob[..next] == header + (body + record)
  {
    Adjacent(blob, 0, pos, next);
  }

  /** A parsed blob can only frame a list that extends the records read so far. */
  lemma FrameExtends(blob: Bytes, count: u32, done: seq<Bytes>, pos: nat, cs: seq<Bytes>)
    requires Parsed(blob, count, done, pos) && Frames(cs, blob)
    ensures |cs| == count && cs[..|done|] == done && blob[pos..] == Body(cs[|done|..])
  {
    SameCount(blob, count, done, pos, cs);
    BodySplit(cs, |done|);
    BodyInjective(done, cs[..|done|], blob[pos..], Body(cs[|done|..]));
  }

  /** Any further record of a framed list lies inside the blob, so neither read can run off its end. */
  lemma NextRecord(blob: Bytes, count: u32, done: seq<Bytes>, pos: nat, cs: seq<Bytes>)
    requires Parsed(blob, count, done, pos) && |done| < count && Frames(cs, blob)
    ensures pos + 4 <= |blob|
    ensures forall len: u32 :: blob[pos..pos + 4] == Word(len) ==> pos + 4 + len <= |blob|
  {
    FrameExtends(blob, count, done, pos, cs);
    var rest := cs[|done|..];
    assert Body(rest) + [] == Body(rest);
    HeadRecord(rest, []);
    assert blob[pos..][..4] == blob[pos..pos + 4];
    forall len: u32 | blob[pos..pos + 4] == Word(len) ensures pos + 4 + len <= |blob| {
      WordInjective(len, |rest[0]|);
    }
  }

  lemma TakeRecord(blob: Bytes, count: u32, done: seq<Bytes>, pos: nat, len: u32)
    requires Parsed(blob, count, done, pos) && |done| < count
    requires pos + 4 + len <= |blob| && blob[pos..pos + 4] == Word(len)
    ensures Parsed(blob, count, done + [blob[pos + 4..pos + 4 + len]], pos + 4 + len)
  {
    hide Word;
    var c := blob[pos + 4..pos + 4 + len];
    BodySnoc(done, c);
    SmallAsU32(len);
    Adjacent(blob, pos, pos + 4, pos + 4 + len);
    AppendRecord(blob, Word(count), Body(done), Word(len) + c, pos, pos + 4 + len);
  }

  lemma NoFrame(blob: Bytes)
    requires forall cs :: !Frames(cs, blob)
    ensures Deframed(blob) == None
  {
  }

  /** The early bound on the count rejects no genuine frame. */
  lemma CountTooBig(blob: Bytes, count: u32)
    requires Parsed(blob, count, [], 4) && count > (|blob| - 4) / 4
    ensures Deframed(blob) == None
  {
    forall cs ensures !Frames(cs, blob) {
      if Frames(cs, blob) {
        SameCount(blob, count, [], 4, cs);
        BodyLength(cs);
      }
    }
    NoFrame(blob);
  }

  lemma RunsOff(blob: Bytes, count: u32, done: seq<Bytes>, pos: nat, w: Option<(u32, nat)>)
    requires Parsed(blob, count, done, pos) && |done| < count
    requires w.None? ==> pos + 4 > |blob|
    requires w.Some? ==> w.value.1 == pos + 4 <= |blob| && blob[pos..pos + 4] == Word(w.value.0)
                         && pos + 4 + w.value.0 > |blob|
    ensures Deframed(blob) == None
  {
    forall cs ensures !Frames(cs, blob) {
      if Frames(cs, blob) { NextRecord(blob, count, done, pos, cs); }
    }
    NoFrame(blob);
  }

  lemma Finished(blob: Bytes, count: u32, done: seq<Bytes>, pos: nat)
    requires Parsed(blob, count, done, pos) && |done| == count
    ensures Deframed(blob) == if pos == |blob| then Some(done) else None
  {
    hide Word;
    if pos == |blob| {
      assert blob[..pos] == blob;
      SmallAsU32(count);
      DeframeInvertsFrame(done);
    } else {
      forall cs ensures !Frames(cs, blob) {
        if Frames(cs, blob) { FrameExtends(blob, count, done, pos, cs); }
      }
      NoFrame(blob);
    }
  }

  lemma Started(blob: Bytes, count: u32)
    requires |blob| >= 4 && blob[0..4] == Word(count)
    ensures Parsed(blob, count, [], 4)
  {
    assert Word(count) + [] == blob[..4];
  }

  lemma TooShort(blob: Bytes)
    requires |blob| < 4
    ensures Deframed(blob) == None
  {
  }

  /** `deframe_chunks`: exactly the inverse of `frame_chunks`, `None` for every other blob. */
  method DeframeChunks(blob: Bytes) returns (r: Option<seq<Bytes>>)
    ensures r == Deframed(blob)
  {
    hide *;
    var word := ReadU32(blob, 0);
    if word.None? {
      TooShort(blob);
      return None;
    }
    var count: u32, pos: nat := word.value.0, word.value.1;
    Started(blob, count);
    var maxCount := (|blob| - 4) / 4;
    if count > maxCount {
      CountTooBig(blob, count);
      return None;
    }
    var chunks: seq<Bytes> := [];
    for i := 0 to count
      invariant |chunks| == i && Parsed(blob, count, chunks, pos)
    {
      var w := ReadU32(blob, pos);
      if w.None? || w.value.1 + w.value.0 > |blob| {
        RunsOff(blob, count, chunks, pos, w);
        return None;
      }
      var next := w.value.1 + w.value.0;
      TakeRecord(blob, count, chunks, pos, w.value.0);
      chunks := chunks + [blob[w.value.1..next]];
      pos := next;
    }
    Finished(blob, count, chunks, pos);
    if pos != |blob| { return None; }
    return Some(chunks);
  }

  /** `deframe_count`, the copy of the parser that only counts: it accepts the same blobs. */
  method DeframeCount(blob: Bytes) returns (r: Option<nat>)
    ensures r == if Deframed(blob).Some? then Some(|Deframed(blob).value|) else None
  {
    hide *;
    var word := ReadU32(blob, 0);
    if word.None? {
      TooShort(blob);
      return None;
    }
    var count: u32, pos: nat := word.value.0, word.value.1;
    Started(blob, count);
    if count > (|blob| - 4) / 4 {
      CountTooBig(blob, count);
      return None;
    }
    ghost var chunks: seq<Bytes> := [];
    for i := 0 to count
      invariant |chunks| == i && Parsed(blob, count, chunks, pos)
    {
      var w := ReadU32(blob, pos);
      if w.None? || w.value.1 + w.value.0 > |blob| {
        RunsOff(blob, count, chunks, pos, w);
        return None;
      }
      TakeRecord(blob, count, chunks, pos, w.value.0);
      chunks := chunks + [blob[w.value.1..w.value.1 + w.value.0]];
      pos := w.value.1 + w.value.0;
    }
    Finished(blob, count, chunks, pos);
    if pos != |blob| { return None; }
    return Some(count);
  }
}
