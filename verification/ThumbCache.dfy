/** The sealed cache of feed cards (client-app/src/thumb_cache.rs), on top of the bounded blob cache. */
module ThumbCache {
  import opened Machine
  import opened Wrappers
  import opened HexText
  import opened BlobKeys
  import opened Lru
  import opened CacheRuns
  import BC = BlobCache

  /** A 16-byte file id and a version. */
  type FileId = b: Bytes | |b| == 16 witness seq(16, _ => 0)

  datatype CacheKey = CacheKey(fileId: FileId, version: u64)

  datatype CachedMeta = CachedMeta(fileType: string, title: string, tags: seq<string>, thumbnail: Option<string>,
                                   authorFp: string, recoveryOk: bool, mine: bool, memberCounts: (nat, nat))

  /** Serialising and sealing under the session key; opening refuses what it cannot authenticate or parse. */
  datatype SessionSeal = SessionSeal(seal: (Bytes, CachedMeta) -> Bytes, open: Bytes -> Option<CachedMeta>)
  {
    ghost predicate Correct() { forall nonce, m :: open(seal(nonce, m)) == Some(m) }
  }

  // ---- keys ----

  /** `key_parts`: the version is truncated to `u32`. */
  function KeyParts(key: CacheKey): (string, u32) { (HexOf(key.fileId), AsU32(key.version)) }

  function KeyOf(key: CacheKey): Key { Key(Card, HexOf(key.fileId), AsU32(key.version)) }

  lemma {:induction false} HexIsLower(bs: Bytes)
    ensures forall i :: 0 <= i < |HexOf(bs)| ==> IsLowerHex(HexOf(bs)[i])
  {
    if bs != [] {
      HexIsLower(bs[1..]);
      assert IsLowerHex(DigitChar(bs[0] / 16)) && IsLowerHex(DigitChar(bs[0] % 16));
    }
  }

  lemma KeyIsCanonical(file: FileId, sub: u32)
    ensures Canonical(Card, HexOf(file), sub) == Some(Key(Card, HexOf(file), sub))
    ensures Lowercase(HexOf(file)) == HexOf(file)
  {
    var s := HexOf(file);
    HexIsLower(file);
    forall i | 0 <= i < |s| ensures IsHexDigit(s[i]) && Lower(s[i]) == s[i] { assert IsLowerHex(s[i]); }
    assert Lowercase(s) == s;
  }

  /** Two cards share an entry exactly when they are of one file and their versions agree in the low 32 bits. */
  lemma KeysCollideExactly(a: CacheKey, b: CacheKey)
    ensures KeyOf(a) == KeyOf(b) <==> a.fileId == b.fileId && a.version % U32_BOUND == b.version % U32_BOUND
    ensures a.version < U32_BOUND && b.version < U32_BOUND ==> (KeyOf(a) == KeyOf(b) <==> a == b)
    ensures KeyOf(a).ns == Card && KeyOf(a).sub == a.version % 0x1_0000_0000 && Reads(KeyOf(a).id, a.fileId)
  {
    hide HexOf, ParsedPairs, Reads;
    HexParsesBack(a.fileId);
    HexParsesBack(b.fileId);
    HexReads(a.fileId);
    assert HexOf(a.fileId) == HexOf(b.fileId) <==> a.fileId == b.fileId;
  }

  // ---- one call on the ideal cache ----

  /**
   The calls. `readable` and `wrote` say how the backing read and write went, `nonce` is the random
   part of the seal.
   */
  datatype CardOp =
    | PutCard(key: CacheKey, meta: CachedMeta, readable: bool, wrote: bool, nonce: Bytes)
    | GetMeta(key: CacheKey, readable: bool)
    | Invalidate(key: CacheKey)
    | InvalidateFile(file: FileId)
    | SetCap(cap: nat)
    | Clear

  /** The card held under a key, as the seal opens it. */
  function Held(seal: SessionSeal, s: State, k: Key): Option<CachedMeta> {
    match Lookup(s.items, k)
    case Some(blob) => seal.open(blob)
    case None => None
  }

  predicate Present(s: State, k: Key) { k in Table(s.items) }

  /** The enrichment rule of `put_card`. */
  function Enriched(meta: CachedMeta, prior: Option<CachedMeta>): CachedMeta {
    if meta.thumbnail.None? && prior.Some? && prior.value.thumbnail.Some?
    then meta.(thumbnail := prior.value.thumbnail) else meta
  }

  function CardStep(seal: SessionSeal, s: State, op: CardOp): State {
    match op
    case PutCard(key, meta, readable, wrote, nonce) =>
      var (id, sub) := KeyParts(key);
      var looked := if meta.thumbnail.None? then Step(s, Op.Get(Card, id, sub, readable)) else s;
      var prior := if readable then Held(seal, s, KeyOf(key)) else None;
      Step(looked, Op.Put(Card, id, sub, seal.seal(nonce, Enriched(meta, prior)), wrote))
    case GetMeta(key, readable) =>
      var (id, sub) := KeyParts(key);
      Step(s, Op.Get(Card, id, sub, readable))
    case Invalidate(key) =>
      var (id, sub) := KeyParts(key);
      Step(s, Op.Evict(Card, id, sub))
    case InvalidateFile(file) => Step(s, Op.EvictPrefix(Card, HexOf(file)))
    case SetCap(cap) => Step(s, Op.SetCap(cap))
    case Clear => Step(s, Op.Clear)
  }

  predicate PutsTo(op: CardOp, k: Key) { op.PutCard? && KeyOf(op.key) == k }

  /** What one call does to the card under `k`: replace it, enriched, or leave it, or lose it. */
  lemma CardStepHolds(seal: SessionSeal, s: State, op: CardOp, k: Key)
    requires seal.Correct() && InOrder(s) && Present(CardStep(seal, s, op), k)
    ensures PutsTo(op, k) ==>
              Held(seal, CardStep(seal, s, op), k)
              == Some(Enriched(op.meta, if op.readable then Held(seal, s, k) else None))
    ensures !PutsTo(op, k) ==> Present(s, k) && Held(seal, CardStep(seal, s, op), k) == Held(seal, s, k)
  {
    hide Step, Canonical, HexOf, InOrder;
    match op {
      case PutCard(key, meta, readable, wrote, nonce) =>
        var (id, sub) := KeyParts(key);
        var get := Op.Get(Card, id, sub, readable);
        var looked := if meta.thumbnail.None? then Step(s, get) else s;
        var prior := if readable then Held(seal, s, KeyOf(key)) else None;
        KeyIsCanonical(key.fileId, sub);
        StepInOrder(s, get);
        StepKeeps(looked, Op.Put(Card, id, sub, seal.seal(nonce, Enriched(meta, prior)), wrote), k);
        if KeyOf(key) != k && meta.thumbnail.None? { StepKeeps(s, get, k); }
      case GetMeta(key, readable) =>
        var (id, sub) := KeyParts(key);
        StepKeeps(s, Op.Get(Card, id, sub, readable), k);
      case Invalidate(key) =>
        var (id, sub) := KeyParts(key);
        StepKeeps(s, Op.Evict(Card, id, sub), k);
      case InvalidateFile(file) => StepKeeps(s, Op.EvictPrefix(Card, HexOf(file)), k);
      case SetCap(cap) => StepKeeps(s, Op.SetCap(cap), k);
      case Clear => StepKeeps(s, Op.Clear, k);
    }
  }

  lemma CardStepInOrder(seal: SessionSeal, s: State, op: CardOp)
    requires InOrder(s)
    ensures InOrder(CardStep(seal, s, op))
  {
    hide Step, Canonical, HexOf, InOrder;
    match op {
      case PutCard(key, meta, readable, wrote, nonce) =>
        var (id, sub) := KeyParts(key);
        var get := Op.Get(Card, id, sub, readable);
        var looked := if meta.thumbnail.None? then Step(s, get) else s;
        var prior := if readable then Held(seal, s, KeyOf(key)) else None;
        StepInOrder(s, get);
        StepInOrder(looked, Op.Put(Card, id, sub, seal.seal(nonce, Enriched(meta, prior)), wrote));
      case GetMeta(key, readable) => StepInOrder(s, Op.Get(Card, KeyParts(key).0, KeyParts(key).1, readable));
      case Invalidate(key) => StepInOrder(s, Op.Evict(Card, KeyParts(key).0, KeyParts(key).1));
      case InvalidateFile(file) => StepInOrder(s, Op.EvictPrefix(Card, HexOf(file)));
      case SetCap(cap) => StepInOrder(s, Op.SetCap(cap));
      case Clear => StepInOrder(s, Op.Clear);
    }
  }

  /** `meta` as it should rest over the held entries: one without a thumbnail takes over the held card's. */
  ghost function Carried(seal: SessionSeal, was: seq<Item>, k: Key, meta: CachedMeta): CachedMeta {
    match (meta.thumbnail, Lookup(was, k))
    case (Some(_), _) => meta
    case (None, None) => meta
    case (None, Some(blob)) =>
      match seal.open(blob)
      case None => meta
      case Some(old') => meta.(thumbnail := old'.thumbnail)
  }

  /** The card rests sealed under its key, or is too large for the budget; other entries are only evicted. */
  ghost predicate CardLeft(seal: SessionSeal, was: State, now: State, k: Key, meta: CachedMeta, nonce: Bytes) {
    var blob := seal.seal(nonce, Carried(seal, was.items, k, meta));
    && Lookup(now.items, k) == (if was.cap.Some? && |blob| > was.cap.value then None else Some(blob))
    && OthersKept(was, now, k)
  }

  /** A put whose backing read and write went well, or needed none. */
  lemma CleanPutLeaves(seal: SessionSeal, s: State, key: CacheKey, meta: CachedMeta, readable: bool, nonce: Bytes)
    requires InOrder(s) && (meta.thumbnail.None? ==> (readable <==> Lookup(s.items, KeyOf(key)).Some?))
    requires meta.thumbnail.Some? ==> readable
    ensures var op := CardOp.PutCard(key, meta, readable, true, nonce);
            CardLeft(seal, s, CardStep(seal, s, op), KeyOf(key), meta, nonce)
  {
    hide HexOf, Canonical, Lookup, Shrunk, Minus, Ordered;
    var (id, sub) := KeyParts(key);
    var k := KeyOf(key);
    KeyIsCanonical(key.fileId, sub);
    var get := Op.Get(Card, id, sub, readable);
    var looked := if meta.thumbnail.None? then Step(s, get) else s;
    assert looked.cap == s.cap;
    StepInOrder(s, get);
    GetKeeps(s, k);
    var prior := if readable then Held(seal, s, k) else None;
    PutHolds(looked, k, seal.seal(nonce, Enriched(meta, prior)));
  }

  // ---- runs ----

  function CardRun(seal: SessionSeal, cap: Option<nat>, ops: seq<CardOp>): State {
    if ops == [] then State(cap, 0, []) else CardStep(seal, CardRun(seal, cap, ops[..|ops| - 1]), ops[|ops| - 1])
  }

  lemma NothingRun(seal: SessionSeal, cap: Option<nat>)
    ensures CardRun(seal, cap, []) == State(cap, 0, [])
  {
  }

  /** The card of the latest put under `k`. */
  function LatestPut(ops: seq<CardOp>, k: Key): Option<CachedMeta> {
    if ops == [] then None
    else if PutsTo(ops[|ops| - 1], k) then Some(ops[|ops| - 1].meta)
    else LatestPut(ops[..|ops| - 1], k)
  }

  /**
   The thumbnail of the latest put under `k` that carried one, searching back no further than where
   the entry was last absent; an entry that cannot be read when it is replaced counts as absent.
   */
  function LatestThumbnail(seal: SessionSeal, cap: Option<nat>, ops: seq<CardOp>, k: Key): Option<string> {
    if ops == [] || !Present(CardRun(seal, cap, ops), k) then None
    else
      var before, last := ops[..|ops| - 1], ops[|ops| - 1];
      if PutsTo(last, k) && last.meta.thumbnail.Some? then last.meta.thumbnail
      else if PutsTo(last, k) && !last.readable then None
      else LatestThumbnail(seal, cap, before, k)
  }

  lemma {:induction false} CardRunInOrder(seal: SessionSeal, cap: Option<nat>, ops: seq<CardOp>)
    ensures InOrder(CardRun(seal, cap, ops))
  {
    if ops != [] {
      CardRunInOrder(seal, cap, ops[..|ops| - 1]);
      CardStepInOrder(seal, CardRun(seal, cap, ops[..|ops| - 1]), ops[|ops| - 1]);
    }
  }

  /**
   After any calls, evictions and disk failures, a held card is the latest one put, with the latest
   thumbnail put since the entry was last absent.
   */
  lemma {:induction false} HeldIsLatest(seal: SessionSeal, cap: Option<nat>, ops: seq<CardOp>, k: Key)
    requires seal.Correct() && Present(CardRun(seal, cap, ops), k)
    ensures LatestPut(ops, k).Some?
    ensures Held(seal, CardRun(seal, cap, ops), k)
            == Some(LatestPut(ops, k).value.(thumbnail := LatestThumbnail(seal, cap, ops, k)))
  {
    if ops != [] {
      hide CardStep, Held, InOrder;
      var before, last := ops[..|ops| - 1], ops[|ops| - 1];
      CardRunInOrder(seal, cap, before);
      CardStepHolds(seal, CardRun(seal, cap, before), last, k);
      if Present(CardRun(seal, cap, before), k) {
        HeldIsLatest(seal, cap, before, k);
      } else {
        AbsentIsNotHeld(seal, CardRun(seal, cap, before), k);
      }
    }
  }

  lemma AbsentIsNotHeld(seal: SessionSeal, s: State, k: Key)
    requires !Present(s, k)
    ensures Held(seal, s, k) == None
  {
  }

  lemma ReadKeeps(s: State, key: CacheKey, readable: bool)
    requires InOrder(s) && (readable || !Present(s, KeyOf(key)))
    ensures var (id, sub) := KeyParts(key);
            forall j :: Lookup(Step(s, Op.Get(Card, id, sub, readable)).items, j) == Lookup(s.items, j)
  {
    hide HexOf, Canonical, Minus, Table;
    KeyIsCanonical(key.fileId, AsU32(key.version));
    GetKeeps(s, KeyOf(key));
  }

  /** A RAM cache drops its oldest cards until the rest fit the new budget; a disk cache stays as it is. */
  ghost predicate Resized(was: State, now: State, disk: bool, capMb: u32) {
    if disk then now == was
    else
      && now.cap == Some(capMb * 1_048_576) && now.clock == was.clock
      && Trimmed(was.items, now.items, now.cap, 0)
  }

  // ---- the cache object ----

  class ThumbCache {
    const seal: SessionSeal
    var cache: BC.BlobCache
    /** The calls since the blob cache was opened, and the budget it was opened with. */
    ghost var log: seq<CardOp>
    ghost var openedWith: Option<nat>

    ghost predicate Valid()
      reads this, cache
    {
      seal.Correct() && cache.Valid() && cache.View() == CardRun(seal, openedWith, log)
    }

    /** `ThumbCache::new` */
    constructor (seal: SessionSeal, capMb: u32, disk: bool)
      requires seal.Correct()
      ensures Valid() && this.seal == seal && log == [] && fresh(cache)
      ensures cache.backend.Disk? == disk && openedWith == if disk then None else Some(capMb * 1024 * 1024)
      ensures cache.items == [] && cache.cap == if disk then None else Some(capMb * 1_048_576)
    {
      this.seal := seal;
      var cap := if disk then None else Some(capMb * 1024 * 1024);
      cache := new BC.BlobCache.Open(cap, disk);
      log, openedWith := [], cap;
    }

    ghost method Log(op: CardOp)
      requires seal.Correct() && cache.Valid() && cache.View() == CardStep(seal, CardRun(seal, openedWith, log), op)
      modifies `log
      ensures Valid() && log == old(log) + [op]
    {
      log := log + [op];
      assert log[..|log| - 1] == old(log);
    }

    /**
     `put_card`. Where the backing reads and writes succeed, as they always do in RAM, the card rests under
     its key with its own thumbnail or else the one held before, unless it is too large for the budget.
     */
    method PutCard(key: CacheKey, meta: CachedMeta)
      requires Valid()
      modifies this, cache
      ensures Valid() && cache == old(cache) && openedWith == old(openedWith)
      ensures cache.backend.Disk? == old(cache.backend.Disk?)
      ensures |log| == |old(log)| + 1 && log[..|old(log)|] == old(log)
      ensures var op := log[|old(log)|];
              && op.PutCard? && op.key == key && op.meta == meta
              && (cache.faults == old(cache.faults) ==>
                    && op.wrote && (Lookup(old(cache.items), KeyOf(key)).Some? ==> op.readable)
                    && CardLeft(seal, old(cache.View()), cache.View(), KeyOf(key), meta, op.nonce))
      ensures cache.faults >= old(cache.faults) && (cache.backend.Memory? ==> cache.faults == old(cache.faults))
    {
      hide Step, HexOf, Canonical, Lookup, CardRun, Carried, CardLeft, PutLeaves, InOrder, Enriched, Held;
      KeyIsCanonical(key.fileId, AsU32(key.version));
      CardRunInOrder(seal, openedWith, log);
      ghost var was := cache.View();
      var m, readable := Enrich(key, meta);
      var (id, sub) := KeyParts(key);
      var nonce: Bytes := *;
      var stored := cache.Put(Card, id, sub, seal.seal(nonce, m));
      assert stored.Ok? || stored.error == BC.InvalidInput || stored.error == BC.WriteFailed;
      ghost var op := CardOp.PutCard(key, meta, readable, stored.Ok?, nonce);
      assert cache.View() == CardStep(seal, was, op);
      hide CardStep;
      if cache.faults == old(cache.faults) { CleanPutLeaves(seal, was, key, meta, readable, nonce); }
      Log(op);
    }

    /** The first half of `put_card`: a card without a thumbnail takes over that of the held one, if it opens. */
    method Enrich(key: CacheKey, meta: CachedMeta) returns (m: CachedMeta, ghost readable: bool)
      requires cache.Valid()
      modifies cache
      ensures cache.Valid() && cache.backend.Disk? == old(cache.backend.Disk?)
      ensures var (id, sub) := KeyParts(key);
              cache.View() == if meta.thumbnail.None? then Step(old(cache.View()), Op.Get(Card, id, sub, readable))
                              else old(cache.View())
      ensures m == Enriched(meta, if readable then Held(seal, old(cache.View()), KeyOf(key)) else None)
      ensures cache.faults >= old(cache.faults) && (cache.backend.Memory? ==> cache.faults == old(cache.faults))
      ensures meta.thumbnail.Some? ==> readable
      ensures meta.thumbnail.None? && cache.faults == old(cache.faults) ==>
                (readable <==> Lookup(old(cache.items), KeyOf(key)).Some?)
    {
      hide Step, HexOf, Canonical, Lookup, GetLeaves;
      m, readable := meta, true;
      if meta.thumbnail.None? {
        KeyIsCanonical(key.fileId, AsU32(key.version));
        var (id, sub) := KeyParts(key);
        var sealed := cache.Get(Card, id, sub);
        readable := sealed.Some?;
        if sealed.Some? {
          var prior := seal.open(sealed.value);
          if prior.Some? && prior.value.thumbnail.Some? { m := meta.(thumbnail := prior.value.thumbnail); }
        }
      }
    }

    /** `get_meta`: the held card, and nothing but its stamp changes unless the read goes wrong. */
    method GetMeta(key: CacheKey) returns (r: Option<CachedMeta>)
      requires Valid()
      modifies this, cache
      ensures Valid() && cache == old(cache) && openedWith == old(openedWith)
      ensures cache.backend.Disk? == old(cache.backend.Disk?)
      ensures log == old(log) + [CardOp.GetMeta(key, r.Some?)]
      ensures r.Some? ==>
                var k := KeyOf(key);
                && LatestPut(old(log), k).Some?
                && r.value == LatestPut(old(log), k).value.(thumbnail := LatestThumbnail(seal, openedWith, old(log), k))
      ensures cache.faults == old(cache.faults) ==>
                && (r.Some? <==> Present(old(cache.View()), KeyOf(key)))
                && (forall j :: Lookup(cache.items, j) == Lookup(old(cache.items), j))
      ensures cache.backend.Memory? ==> cache.faults == old(cache.faults)
    {
      hide Step, HexOf, Canonical, CardRun, LatestPut, LatestThumbnail, GetLeaves, InOrder, Table;
      CardRunInOrder(seal, openedWith, log);
      KeyIsCanonical(key.fileId, AsU32(key.version));
      ghost var was, k := cache.View(), KeyOf(key);
      var (id, sub) := KeyParts(key);
      var sealed := cache.Get(Card, id, sub);
      if Present(was, k) { HeldIsLatest(seal, openedWith, log, k); }
      if cache.faults == old(cache.faults) { ReadKeeps(was, key, sealed.Some?); }
      Log(CardOp.GetMeta(key, sealed.Some?));
      if sealed.None? { return None; }
      return seal.open(sealed.value);
    }

    /** `invalidate` */
    method Invalidate(key: CacheKey)
      requires Valid()
      modifies this, cache
      ensures Valid() && cache == old(cache) && openedWith == old(openedWith)
      ensures cache.backend.Disk? == old(cache.backend.Disk?)
      ensures log == old(log) + [CardOp.Invalidate(key)] && !Present(cache.View(), KeyOf(key))
      ensures Without(old(cache.items), cache.items, KeyOf(key)) && cache.cap == old(cache.cap)
    {
      hide HexOf, Canonical, CardRun, Table, Minus;
      KeyIsCanonical(key.fileId, AsU32(key.version));
      TableMinus(cache.items, {KeyOf(key)});
      var (id, sub) := KeyParts(key);
      cache.Evict(Card, id, sub);
      Log(CardOp.Invalidate(key));
    }

    /** `invalidate_file`: every version goes. */
    method InvalidateFile(file: FileId)
      requires Valid()
      modifies this, cache
      ensures Valid() && cache == old(cache) && openedWith == old(openedWith)
      ensures cache.backend.Disk? == old(cache.backend.Disk?)
      ensures log == old(log) + [CardOp.InvalidateFile(file)]
      ensures forall version :: !Present(cache.View(), KeyOf(CacheKey(file, version)))
      ensures forall j: Key :: !(j.ns == Card && j.id == HexOf(file)) ==>
                            Lookup(cache.items, j) == Lookup(old(cache.items), j)
    {
      hide HexOf, Canonical, CardRun, Table, Minus, Lowercase;
      KeyIsCanonical(file, 0);
      TableMinus(cache.items, FileKeys(cache.items, Card, HexOf(file)));
      cache.EvictPrefix(Card, HexOf(file));
      Log(CardOp.InvalidateFile(file));
    }

    /** `set_cap_mb`; a disk cache stays uncapped. */
    method SetCapMb(capMb: u32)
      requires Valid()
      modifies this, cache
      ensures Valid() && cache == old(cache) && openedWith == old(openedWith)
      ensures cache.backend.Disk? == old(cache.backend.Disk?)
      ensures log == if cache.backend.Disk? then old(log) else old(log) + [CardOp.SetCap(capMb * 1024 * 1024)]
      ensures Resized(old(cache.View()), cache.View(), cache.backend.Disk?, capMb)
    {
      hide Step, CardRun, Trimmed;
      if !cache.backend.Disk? {
        cache.SetCap(capMb * 1024 * 1024);
        Log(CardOp.SetCap(capMb * 1024 * 1024));
      }
    }

    /** `clear_and_zeroize`: no card stays. */
    method ClearAndZeroize()
      requires Valid()
      modifies this, cache
      ensures Valid() && cache == old(cache) && openedWith == old(openedWith)
      ensures cache.backend.Disk? == old(cache.backend.Disk?)
      ensures log == old(log) + [CardOp.Clear] && forall k :: !Present(cache.View(), k)
      ensures cache.items == [] && cache.cap == old(cache.cap)
    {
      hide CardRun;
      cache.ClearAndZeroize();
      Log(CardOp.Clear);
    }

    /**
     `apply_location_and_cap`: a change of backend starts from an empty cache, unless the new
     directory cannot be opened; then nothing changes.
     */
    method ApplyLocationAndCap(disk: bool, capMb: u32) returns (ok: bool)
      requires Valid()
      modifies this, cache
      ensures Valid() && (ok ==> cache.backend.Disk? == disk)
      ensures ok && old(cache.backend.Disk?) != disk ==>
                && fresh(cache) && log == [] && openedWith == (if disk then None else Some(capMb * 1024 * 1024))
                && cache.items == [] && cache.cap == (if disk then None else Some(capMb * 1_048_576))
      ensures !ok ==> disk && !old(cache.backend.Disk?) && cache == old(cache) && cache.View() == old(cache.View())
      ensures !ok ==> log == old(log) && openedWith == old(openedWith)
      ensures old(cache.backend.Disk?) == disk ==>
                && ok && cache == old(cache) && openedWith == old(openedWith)
                && log == (if disk then old(log) else old(log) + [CardOp.SetCap(capMb * 1024 * 1024)])
                && Resized(old(cache.View()), cache.View(), disk, capMb)
    {
      hide Step, CardRun, Resized;
      if cache.backend.Disk? != disk {
        var opens: bool := *;
        if disk && !opens { return false; }
        openedWith := if disk then None else Some(capMb * 1024 * 1024);
        cache := new BC.BlobCache.Open(if disk then None else Some(capMb * 1024 * 1024), disk);
        log := [];
        NothingRun(seal, openedWith);
      } else {
        SetCapMb(capMb);
      }
      return true;
    }
  }
}
