/**
 The delegation hop: the pinned root key signs a short-lived certificate for the key that signs the
 directory (crypto/src/delegation.rs, client-app/src/directory.rs). `raw` is the raw signature check.
 */
module Delegation {
  import opened Machine
  import opened Wrappers
  import Directory

  // ---- certificates ----

  const DELEGATION_VERSION: byte := 1
  const DELEGATION_WIRE_LEN := 113

  datatype Cert = Cert(operationalPub: Bytes, validFrom: u64, validUntil: u64)

  /** `raw(key, body, signature)` */
  type RawCheck = (Bytes, Bytes, Bytes) -> bool

  datatype CryptoError = BadLength | BadSignature | DelegationExpired

  lemma Pow256Long()
    ensures Pow256(8) == U64_BOUND
  {
    assert Pow256(2) == 0x1_0000;
    assert Pow256(4) == 0x1_0000_0000;
    assert Pow256(6) == 0x1_0000_0000_0000;
  }

  function BodyBytes(c: Cert): (r: Bytes)
    ensures |r| == |c.operationalPub| + 17
  {
    [DELEGATION_VERSION] + c.operationalPub + LeBytes(c.validFrom, 8) + LeBytes(c.validUntil, 8)
  }

  /** `parse` */
  function ParseCert(bytes: Bytes): Option<(Cert, Bytes)> {
    if |bytes| != DELEGATION_WIRE_LEN || bytes[0] != DELEGATION_VERSION then None
    else
      Pow256Long();
      LeBytesOfValue(bytes[33..41]);
      LeBytesOfValue(bytes[41..49]);
      Some((Cert(bytes[1..33], LeValue(bytes[33..41]), LeValue(bytes[41..49])), bytes[49..]))
  }

  lemma CertPrintsBack(bytes: Bytes, c: Cert, sig: Bytes)
    requires ParseCert(bytes) == Some((c, sig))
    ensures |c.operationalPub| == 32 && |sig| == 64 && bytes == BodyBytes(c) + sig
  {
    hide LeBytes, LeValue;
    LeBytesOfValue(bytes[33..41]);
    LeBytesOfValue(bytes[41..49]);
    assert bytes == [bytes[0]] + bytes[1..33] + bytes[33..41] + bytes[41..49] + bytes[49..];
  }

  lemma CertParsesBack(c: Cert, sig: Bytes)
    requires |c.operationalPub| == 32 && |sig| == 64
    ensures ParseCert(BodyBytes(c) + sig) == Some((c, sig))
  {
    hide LeBytes, LeValue, Pow256;
    Pow256Long();
    WordRoundTrips(c.validFrom, 8);
    WordRoundTrips(c.validUntil, 8);
    var bytes := BodyBytes(c) + sig;
    assert bytes[1..33] == c.operationalPub && bytes[49..] == sig;
    assert bytes[33..41] == LeBytes(c.validFrom, 8) && bytes[41..49] == LeBytes(c.validUntil, 8);
  }

  /** The wire form and the parsed form determine each other. */
  lemma CertRoundTrip(bytes: Bytes, c: Cert, sig: Bytes)
    ensures ParseCert(bytes) == Some((c, sig))
            <==> |c.operationalPub| == 32 && |sig| == 64 && bytes == BodyBytes(c) + sig
  {
    hide ParseCert, BodyBytes;
    if ParseCert(bytes) == Some((c, sig)) { CertPrintsBack(bytes, c, sig); }
    if |c.operationalPub| == 32 && |sig| == 64 { CertParsesBack(c, sig); }
  }

  // ---- what a certificate says, byte by byte ----

  /** 113 bytes that begin with the version. */
  ghost predicate WellFormed(bytes: Bytes) { |bytes| == 113 && bytes[0] == 1 }

  /** The last 64 bytes are a signature over the 49 before. */
  ghost predicate SignedBy(raw: RawCheck, root: Bytes, bytes: Bytes)
    requires WellFormed(bytes)
  {
    raw(root, bytes[..49], bytes[49..])
  }

  ghost predicate InWindow(bytes: Bytes, now: u64)
    requires WellFormed(bytes)
  {
    LittleLong(bytes[33..41]) <= now <= LittleLong(bytes[41..49])
  }

  /** `bytes` are a certificate by `root` whose window contains `now`. */
  ghost predicate Good(raw: RawCheck, root: Bytes, bytes: Bytes, now: u64) {
    WellFormed(bytes) && SignedBy(raw, root, bytes) && InWindow(bytes, now)
  }

  /** `root` signed a certificate for `key` whose window contains `now`. */
  ghost predicate Authorized(raw: RawCheck, root: Bytes, key: Bytes, now: u64) {
    exists bytes :: Good(raw, root, bytes, now) && key == bytes[1..33]
  }

  /** What parsing finds, field by field. */
  lemma ParsedFields(bytes: Bytes)
    ensures ParseCert(bytes).Some? <==> WellFormed(bytes)
    ensures WellFormed(bytes) ==>
              var (c, sig) := ParseCert(bytes).value;
              && c.operationalPub == bytes[1..33] && sig == bytes[49..] && BodyBytes(c) == bytes[..49]
              && c.validFrom == LittleLong(bytes[33..41]) && c.validUntil == LittleLong(bytes[41..49])
  {
    hide LeBytes, LeValue, LittleLong;
    if WellFormed(bytes) {
      LongValue(bytes[33..41]);
      LongValue(bytes[41..49]);
      var (c, sig) := ParseCert(bytes).value;
      CertPrintsBack(bytes, c, sig);
      assert bytes[..49] == BodyBytes(c);
    }
  }

  /** `verify` of a certificate; an expired one is told from a forged one. */
  function VerifyDelegation(raw: RawCheck, root: Bytes, bytes: Bytes, now: u64): (r: Result<Bytes, CryptoError>)
    ensures r.Ok? <==> Good(raw, root, bytes, now)
    ensures r.Ok? ==> r.value == bytes[1..33]
    ensures r == Err(BadLength) <==> !WellFormed(bytes)
    ensures r == Err(BadSignature) <==> WellFormed(bytes) && !SignedBy(raw, root, bytes)
    ensures r == Err(DelegationExpired)
            <==> WellFormed(bytes) && SignedBy(raw, root, bytes) && !InWindow(bytes, now)
  {
    ParsedFields(bytes);
    hide ParseCert, BodyBytes, LittleLong;
    var parsed := ParseCert(bytes);
    if parsed.None? then Err(BadLength)
    else
      var (c, sig) := parsed.value;
      if !raw(root, BodyBytes(c), sig) then Err(BadSignature)
      else if now < c.validFrom || now > c.validUntil then Err(DelegationExpired)
      else Ok(c.operationalPub)
  }

  /** The root's own certificates, and only signed ones in their window, verify. */
  lemma SignedCertVerifies(raw: RawCheck, root: Bytes, c: Cert, sig: Bytes, now: u64)
    requires |c.operationalPub| == 32 && |sig| == 64
    ensures VerifyDelegation(raw, root, BodyBytes(c) + sig, now) == Ok(c.operationalPub)
            <==> raw(root, BodyBytes(c), sig) && c.validFrom <= now <= c.validUntil
  {
    var bytes := BodyBytes(c) + sig;
    CertRoundTrip(bytes, c, sig);
    ParsedFields(bytes);
    assert bytes[..49] == BodyBytes(c);
  }

  // ---- the hop and its cache ----

  const DELEGATION_CACHE_TTL_MS: u64 := 60_000

  datatype UiError = Untrusted | Network

  /** A document is the served directory key and the certificate; `None` where the body is malformed. */
  type Doc = (Bytes, Bytes)

  datatype ServerAnswer = Broken | Found(doc: Option<Doc>) | NotFound | OtherStatus

  /** `build_from_delegation_bytes`, yielding the effective directory key. */
  function BuildFromBytes(raw: RawCheck, pinned: Bytes, doc: Doc, nowSecs: u64): (r: Result<Bytes, UiError>)
    ensures r.Ok? <==> doc.0 == pinned && Good(raw, pinned, doc.1, nowSecs)
    ensures r.Ok? ==> r.value == doc.1[1..33]
    ensures r.Ok? || r == Err(Untrusted)
  {
    if doc.0 != pinned then Err(Untrusted)
    else
      var key := VerifyDelegation(raw, pinned, doc.1, nowSecs);
      if key.Ok? then Ok(key.value) else Err(Untrusted)
  }

  datatype CachedDelegation = CachedDelegation(host: string, doc: Doc, fetchedAtMs: u64)

  /** The cached document for this host, while it is younger than the limit; a clock gone back makes it young. */
  function Recent(entry: Option<CachedDelegation>, host: string, nowMs: u64): (r: Option<Doc>)
    ensures r.Some? <==>
            entry.Some? && entry.value.host == host && nowMs < entry.value.fetchedAtMs + 60_000
    ensures r.Some? ==> r.value == entry.value.doc
  {
    if entry.Some? && entry.value.host == host
       && SaturatingSub(nowMs, entry.value.fetchedAtMs) < DELEGATION_CACHE_TTL_MS
    then Some(entry.value.doc) else None
  }

  class DelegationCache {
    var entry: Option<CachedDelegation>
    const raw: RawCheck

    /** Whatever is cached was checked, against the key it names, by the clock of its time. */
    ghost predicate Valid()
      reads this
    {
      entry.Some? ==> BuildFromBytes(raw, entry.value.doc.0, entry.value.doc, entry.value.fetchedAtMs / 1000).Ok?
    }

    constructor (raw: RawCheck)
      ensures Valid() && this.raw == raw && entry == None
    {
      this.raw, entry := raw, None;
    }

    method Get(host: string, nowMs: u64) returns (r: Option<Doc>)
      ensures r == Recent(entry, host, nowMs)
    {
      return Recent(entry, host, nowMs);
    }

    method Put(host: string, doc: Doc, nowMs: u64)
      requires BuildFromBytes(raw, doc.0, doc, nowMs / 1000).Ok?
      modifies this
      ensures Valid() && entry == Some(CachedDelegation(host, doc, nowMs))
    {
      entry := Some(CachedDelegation(host, doc, nowMs));
    }
  }

  /** Something from this host is cached that was fetched less than a minute ago, or later than now. */
  ghost predicate Young(entry: Option<CachedDelegation>, host: string, nowMs: u64) {
    entry.Some? && entry.value.host == host && nowMs < entry.value.fetchedAtMs + 60_000
  }

  /** The served key must be the pinned one; then the certificate decides. */
  ghost predicate Decides(raw: RawCheck, pinned: Bytes, doc: Doc, now: u64,
                          r: Result<Directory.DirectoryVerifier, UiError>)
  {
    if doc.0 == pinned && Good(raw, pinned, doc.1, now)
    then r.Ok? && r.value.dirPub == doc.1[1..33]
    else r == Err(Untrusted)
  }

  /**
   `build_delegated_verifier_cached`; `server` is what the server would answer if asked now. For any
   cache, clock, host, pin and answer, the effective key is one the pinned key has authorized for
   this very moment, or it is the pinned key because this very call was answered 404.
   */
  method BuildDelegatedVerifier(cache: DelegationCache, scheme: Directory.Scheme, host: string, pinned: Bytes,
                                nowMs: u64, server: ServerAnswer)
    returns (r: Result<Directory.DirectoryVerifier, UiError>, ghost asked: bool)
    requires cache.Valid()
    modifies cache
    ensures cache.Valid()
    ensures r.Ok? ==> r.value.scheme == scheme
    ensures asked ==>
              match server
              case Broken => r == Err(Network)
              case Found(Some(doc)) => Decides(cache.raw, pinned, doc, nowMs / 1000, r)
              case NotFound => r.Ok? && r.value.dirPub == pinned
              case _ => r == Err(Untrusted)
    ensures asked <==> !Young(old(cache.entry), host, nowMs)
    ensures !asked ==> Decides(cache.raw, pinned, old(cache.entry).value.doc, nowMs / 1000, r)
    ensures r.Ok? ==> || Authorized(cache.raw, pinned, r.value.dirPub, nowMs / 1000)
                      || (asked && server == NotFound && r.value.dirPub == pinned)
    ensures Mapped(scheme, Outcome(cache.raw, old(cache.entry), host, pinned, nowMs, server)) == r
    ensures cache.entry == if asked && r.Ok? && server.Found? then Some(CachedDelegation(host, server.doc.value, nowMs))
                           else old(cache.entry)
  {
    hide ParseCert, BodyBytes, VerifyDelegation;
    var nowSecs: u64 := nowMs / 1000;
    var hit := cache.Get(host, nowMs);
    if hit.Some? {
      var key := BuildFromBytes(cache.raw, pinned, hit.value, nowSecs);
      return Mapped(scheme, key), false;
    }
    match server {
      case Broken => return Err(Network), true;
      case Found(doc) =>
        if doc.None? { return Err(Untrusted), true; }
        var key := BuildFromBytes(cache.raw, pinned, doc.value, nowSecs);
        if key.Err? { return Err(key.error), true; }
        cache.Put(host, doc.value, nowMs);
        return Mapped(scheme, key), true;
      case NotFound => return Mapped(scheme, Ok(pinned)), true;
      case OtherStatus => return Err(Untrusted), true;
    }
  }

  function Mapped(scheme: Directory.Scheme, key: Result<Bytes, UiError>): Result<Directory.DirectoryVerifier, UiError> {
    if key.Ok? then Ok(Directory.DirectoryVerifier(scheme, key.value)) else Err(key.error)
  }

  /** The verdict of one call, given what is cached. */
  function Outcome(raw: RawCheck, entry: Option<CachedDelegation>, host: string, pinned: Bytes, nowMs: u64,
                   server: ServerAnswer): Result<Bytes, UiError>
  {
    var hit := Recent(entry, host, nowMs);
    if hit.Some? then BuildFromBytes(raw, pinned, hit.value, nowMs / 1000)
    else
      match server
      case Broken => Err(Network)
      case Found(doc) => if doc.Some? then BuildFromBytes(raw, pinned, doc.value, nowMs / 1000) else Err(Untrusted)
      case NotFound => Ok(pinned)
      case OtherStatus => Err(Untrusted)
  }

  /** A cache hit decides exactly as if the server had just served the stored document. */
  lemma HitDecidesAfresh(raw: RawCheck, entry: Option<CachedDelegation>, host: string, pinned: Bytes, nowMs: u64,
                         server: ServerAnswer)
    requires Recent(entry, host, nowMs).Some?
    ensures Outcome(raw, entry, host, pinned, nowMs, server)
            == Outcome(raw, None, host, pinned, nowMs, Found(Some(entry.value.doc)))
  {
  }

  // ---- runs ----

  datatype Call = Call(host: string, pinned: Bytes, nowMs: u64, server: ServerAnswer)

  function EntryAfter(raw: RawCheck, entry: Option<CachedDelegation>, call: Call): Option<CachedDelegation> {
    if Recent(entry, call.host, call.nowMs).None? && call.server.Found?
       && Outcome(raw, entry, call.host, call.pinned, call.nowMs, call.server).Ok?
    then Some(CachedDelegation(call.host, call.server.doc.value, call.nowMs)) else entry
  }

  function Run(raw: RawCheck, calls: seq<Call>): Option<CachedDelegation> {
    if calls == [] then None else EntryAfter(raw, Run(raw, calls[..|calls| - 1]), calls[|calls| - 1])
  }

  /** `calls[i]` fetched and checked this document from this host. */
  ghost predicate Fetched(raw: RawCheck, calls: seq<Call>, i: nat, entry: CachedDelegation)
    requires i < |calls|
  {
    && calls[i].server == Found(Some(entry.doc)) && calls[i].host == entry.host && calls[i].nowMs == entry.fetchedAtMs
    && BuildFromBytes(raw, calls[i].pinned, entry.doc, entry.fetchedAtMs / 1000).Ok?
  }

  /** Over any run, what is cached is a document that some call itself fetched from that host and found good. */
  lemma {:induction false} CachedWasFetched(raw: RawCheck, calls: seq<Call>) returns (i: nat)
    requires Run(raw, calls).Some?
    ensures i < |calls| && Fetched(raw, calls, i, Run(raw, calls).value)
  {
    hide BuildFromBytes;
    var n := |calls| - 1;
    if EntryAfter(raw, Run(raw, calls[..n]), calls[n]) == Run(raw, calls[..n]) {
      i := CachedWasFetched(raw, calls[..n]);
    } else {
      i := n;
    }
  }
}
