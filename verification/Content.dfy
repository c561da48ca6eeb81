/**
 Sealed content streams: the author cuts and seals (crypto/aead.rs), the viewer opens ranges
 (client-core/download.rs). Authenticated encryption is ideal: a key is the table of everything
 sealed under it, and opening looks the pair of associated data and ciphertext up.
 */
module Content {
  import opened Machine
  import opened Wrappers

  datatype StreamType = ContentStream | MetadataStream | ThumbnailStream | PreviewStream

  datatype ChunkAad = ChunkAad(fileId: Bytes, version: u64, stream: StreamType, index: nat, isLast: bool)

  type Sealings = map<(ChunkAad, Bytes), Bytes>

  datatype DownloadError = FramingBoundsExceeded | StreamFraming

  datatype ContentDecryptor = ContentDecryptor(fileId: Bytes, version: u64, chunkCount: u64, sealings: Sealings)
  {
    /** The associated data of content chunk `i`; `is_last` comes from the signed count. */
    function Aad(i: nat): ChunkAad {
      ChunkAad(fileId, version, ContentStream, i, i == chunkCount - 1)
    }

    ghost predicate Opens(i: nat, ct: Bytes) { (Aad(i), ct) in sealings }
  }

  /** The byte at which chunk `c` begins, and the chunk in which byte `b` lies. */
  function ByteOf(cs: nat, c: nat): nat { c * cs }

  function ChunkOf(cs: nat, b: nat): nat
    requires cs >= 1
  {
    b / cs
  }

  lemma ByteMono(cs: nat, c: nat, d: nat)
    requires c <= d
    ensures ByteOf(cs, c) <= ByteOf(cs, d)
  {
  }

  lemma ChunkBounds(cs: nat, b: nat)
    requires cs >= 1
    ensures ByteOf(cs, ChunkOf(cs, b)) <= b < ByteOf(cs, ChunkOf(cs, b) + 1)
  {
    assert b == b / cs * cs + b % cs;
    assert ByteOf(cs, b / cs + 1) == b / cs * cs + cs;
  }

  lemma ChunkMono(cs: nat, a: nat, b: nat)
    requires cs >= 1 && a <= b
    ensures ChunkOf(cs, a) <= ChunkOf(cs, b)
  {
    hide ByteOf, ChunkOf;
    ChunkBounds(cs, a);
    ChunkBounds(cs, b);
    if ChunkOf(cs, b) < ChunkOf(cs, a) { ByteMono(cs, ChunkOf(cs, b) + 1, ChunkOf(cs, a)); }
  }

  /** Content bytes of the chunks `[lo, hi)`. */
  function ChunkBytes(content: Bytes, cs: nat, lo: nat, hi: nat): Bytes
    requires lo <= hi
  {
    ByteMono(cs, lo, hi);
    content[Min(ByteOf(cs, lo), |content|)..Min(ByteOf(cs, hi), |content|)]
  }

  lemma ChunkBytesJoin(content: Bytes, cs: nat, lo: nat, mid: nat, hi: nat)
    requires lo <= mid <= hi
    ensures ChunkBytes(content, cs, lo, mid) + ChunkBytes(content, cs, mid, hi) == ChunkBytes(content, cs, lo, hi)
  {
    hide ByteOf;
    ByteMono(cs, lo, mid);
    ByteMono(cs, mid, hi);
  }

  lemma NoChunkBytes(content: Bytes, cs: nat, c: nat)
    ensures ChunkBytes(content, cs, c, c) == []
  {
  }

  /** The key opens, at each index of this file version, only that chunk of `content`. */
  ghost predicate Binds(d: ContentDecryptor, content: Bytes, cs: nat) {
    && d.chunkCount >= 1 && cs >= 1
    && ByteOf(cs, d.chunkCount - 1) <= |content| <= ByteOf(cs, d.chunkCount)
    && forall i, ct :: 0 <= i < d.chunkCount && d.Opens(i, ct) ==>
         d.sealings[(d.Aad(i), ct)] == ChunkBytes(content, cs, i, i + 1)
  }

  /** `cts` is the ciphertext list the author uploaded. */
  ghost predicate Genuine(d: ContentDecryptor, cts: seq<Bytes>) {
    |cts| == d.chunkCount && forall i :: 0 <= i < |cts| ==> d.Opens(i, cts[i])
  }

  /** At each index of this file version the key opens one chunk at most, as when it sealed each of them once. */
  ghost predicate Unambiguous(d: ContentDecryptor) {
    forall i, a, b :: 0 <= i < d.chunkCount && d.Opens(i, a) && d.Opens(i, b) ==> a == b
  }

  /** `chunks` of `seal_stream`: whole chunks, or the single empty chunk of an empty stream. */
  function FrameCount(len: nat, cs: nat): (n: nat)
    requires cs >= 1
    ensures n >= 1 && ByteOf(cs, n - 1) <= len <= ByteOf(cs, n)
    ensures len > 0 ==> ByteOf(cs, n - 1) < len
  {
    assert len == len / cs * cs + len % cs;
    if len == 0 then 1 else DivCeil(len, cs)
  }

  /** What a key has sealed after the first `i` chunks of `content`. */
  ghost predicate Sealed(d: ContentDecryptor, content: Bytes, cs: nat, chunks: seq<Bytes>, log: Sealings) {
    && (forall key :: key in log ==> key.0.index < |chunks| && key == (d.Aad(key.0.index), chunks[key.0.index])
                                     && log[key] == ChunkBytes(content, cs, key.0.index, key.0.index + 1))
    && (forall j :: 0 <= j < |chunks| ==> (d.Aad(j), chunks[j]) in log)
  }

  lemma SealedNext(d: ContentDecryptor, content: Bytes, cs: nat, chunks: seq<Bytes>, log: Sealings, ct: Bytes)
    requires Sealed(d, content, cs, chunks, log)
    ensures var i := |chunks|;
            Sealed(d, content, cs, chunks + [ct], log[(d.Aad(i), ct) := ChunkBytes(content, cs, i, i + 1)])
  {
    hide ChunkBytes;
  }

  /**
   `seal_stream` over an arbitrary cipher; `log`, what the key has sealed, stands for the key. Under any
   file, version and count, the key opens exactly the sealed chunks at their own index of this file
   version, and the last chunk only as a last one: nothing swapped, truncated or extended.
   */
  method SealStream(enc: (ChunkAad, Bytes) -> Bytes, fileId: Bytes, version: u64, cs: nat, content: Bytes)
    returns (chunks: seq<Bytes>, log: Sealings)
    requires cs >= 1 && FrameCount(|content|, cs) < U64_BOUND
    ensures |chunks| == FrameCount(|content|, cs)
    ensures var d := ContentDecryptor(fileId, version, |chunks|, log);
            && Binds(d, content, cs) && Genuine(d, chunks) && Unambiguous(d)
            && forall i :: 0 <= i < |chunks| ==> chunks[i] == enc(d.Aad(i), ChunkBytes(content, cs, i, i + 1))
    ensures forall d: ContentDecryptor, i: nat, ct | d.sealings == log ::
              d.Opens(i, ct) <==> OpensOnly(fileId, version, chunks, d, i, ct)
  {
    var n: u64 := FrameCount(|content|, cs);
    hide FrameCount, ChunkBytes, ByteOf;
    chunks, log := [], map[];
    ghost var d := ContentDecryptor(fileId, version, n, map[]);
    for i := 0 to n
      invariant |chunks| == i && Sealed(d, content, cs, chunks, log)
      invariant forall j :: 0 <= j < i ==> chunks[j] == enc(d.Aad(j), ChunkBytes(content, cs, j, j + 1))
    {
      hide Sealed;
      var aad := ChunkAad(fileId, version, ContentStream, i, i == n - 1);
      var ct := enc(aad, ChunkBytes(content, cs, i, i + 1));
      SealedNext(d, content, cs, chunks, log, ct);
      chunks := chunks + [ct];
      log := log[(aad, ct) := ChunkBytes(content, cs, i, i + 1)];
    }
    SealedBinds(d, content, cs, chunks, log);
    forall d: ContentDecryptor, i: nat, ct | d.sealings == log
      ensures d.Opens(i, ct) <==> OpensOnly(fileId, version, chunks, d, i, ct)
    {
      SealedOpens(ContentDecryptor(fileId, version, n, map[]), content, cs, chunks, log, d, i, ct);
    }
  }

  ghost predicate OpensOnly(fileId: Bytes, version: u64, chunks: seq<Bytes>, d: ContentDecryptor, i: nat, ct: Bytes) {
    && i < |chunks| && ct == chunks[i] && d.fileId == fileId && d.version == version
    && (i == d.chunkCount - 1 <==> i == |chunks| - 1)
  }

  lemma SealedOpens(author: ContentDecryptor, content: Bytes, cs: nat, chunks: seq<Bytes>, log: Sealings,
                    d: ContentDecryptor, i: nat, ct: Bytes)
    requires Sealed(author, content, cs, chunks, log) && author.chunkCount == |chunks| && d.sealings == log
    ensures d.Opens(i, ct) <==> OpensOnly(author.fileId, author.version, chunks, d, i, ct)
  {
    hide ChunkBytes;
    if d.Opens(i, ct) { assert (d.Aad(i), ct).0.index == i; }
    if OpensOnly(author.fileId, author.version, chunks, d, i, ct) {
      assert (author.Aad(i), chunks[i]) in log;
      assert d.Aad(i) == author.Aad(i);
    }
  }

  lemma SealedBinds(d: ContentDecryptor, content: Bytes, cs: nat, chunks: seq<Bytes>, log: Sealings)
    requires cs >= 1 && |chunks| == FrameCount(|content|, cs) == d.chunkCount && Sealed(d, content, cs, chunks, log)
    ensures var d' := d.(sealings := log); Binds(d', content, cs) && Genuine(d', chunks) && Unambiguous(d')
  {
    hide FrameCount, ChunkBytes, ByteOf;
    var d' := d.(sealings := log);
    forall i ensures d'.Aad(i) == d.Aad(i) {}
  }

  /** Everything the key returns for `cts` placed at `start`. */
  ghost function Plain(d: ContentDecryptor, start: nat, cts: seq<Bytes>): Bytes
    requires AllOpen(d, start, cts)
  {
    if cts == [] then []
    else
      var k := |cts| - 1;
      assert d.Opens(start + k, cts[k]);
      Plain(d, start, cts[..k]) + d.sealings[(d.Aad(start + k), cts[k])]
  }

  ghost predicate AllOpen(d: ContentDecryptor, start: nat, cts: seq<Bytes>) {
    forall j :: 0 <= j < |cts| ==> d.Opens(start + j, cts[j])
  }

  /** `open_range`: the joined plaintext of chunks that all open at their absolute indices. */
  method OpenRange(d: ContentDecryptor, start: u64, cts: seq<Bytes>) returns (r: Result<Bytes, DownloadError>)
    requires d.chunkCount >= 1
    ensures start + |cts| > d.chunkCount ==> r == Err(FramingBoundsExceeded)
    ensures start + |cts| <= d.chunkCount ==>
              r == if AllOpen(d, start, cts) then Ok(Plain(d, start, cts)) else Err(StreamFraming)
  {
    if start + |cts| > d.chunkCount { return Err(FramingBoundsExceeded); }
    var out: Bytes := [];
    for j := 0 to |cts|
      invariant AllOpen(d, start, cts[..j]) && out == Plain(d, start, cts[..j])
    {
      var key := (d.Aad(start + j), cts[j]);
      if key !in d.sealings {
        assert !d.Opens(start + j, cts[j]);
        return Err(StreamFraming);
      }
      out := out + d.sealings[key];
      assert cts[..j + 1][..j] == cts[..j];
    }
    assert cts[..|cts|] == cts;
    return Ok(out);
  }

  /** Whatever ciphertext was supplied, a range that opens is that range of the content. */
  lemma {:induction false} PlainIsContent(d: ContentDecryptor, content: Bytes, cs: nat, start: nat, cts: seq<Bytes>)
    requires Binds(d, content, cs) && AllOpen(d, start, cts) && start + |cts| <= d.chunkCount
    ensures Plain(d, start, cts) == ChunkBytes(content, cs, start, start + |cts|)
  {
    hide ByteOf, ChunkBytes;
    if cts != [] {
      var k := |cts| - 1;
      PlainIsContent(d, content, cs, start, cts[..k]);
      assert d.Opens(start + k, cts[k]);
      ChunkBytesJoin(content, cs, start, start + k, start + k + 1);
    } else {
      NoChunkBytes(content, cs, start);
    }
  }
}
