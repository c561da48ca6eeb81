/**
 The password-sealed blob of a user's private keys, in its two versions
 (client-core/src/keyblob.rs). Key derivation and the cipher are arbitrary but for what AES-GCM
 guarantees: opening inverts sealing, and opens nothing else.
 */
module KeyBlob {
  import opened Machine
  import opened Wrappers

  const MAGIC: Bytes := [0x4D, 0x58, 0x4B, 0x42]
  const VERSION_V1: byte := 1
  const VERSION_V2: byte := 2
  const HEADER_LEN := 45
  const PLAINTEXT_V1_LEN := 96
  const PLAINTEXT_V2_LEN := 160
  const TAG_LEN := 16

  type Bytes32 = b: Bytes | |b| == 32 witness seq(32, _ => 0)
  type Bytes64 = b: Bytes | |b| == 64 witness seq(64, _ => 0)
  type Salt = b: Bytes | |b| == 16 witness seq(16, _ => 0)
  type Nonce = b: Bytes | |b| == 12 witness seq(12, _ => 0)

  /** An identity by its secret bytes; one with an ML-KEM seed is post-quantum. */
  datatype Identity = Identity(encSk: Bytes32, encPk: Bytes32, sigSeed: Bytes32, mlkemSeed: Option<Bytes64>)

  datatype Argon2Params = Argon2Params(mKib: u32, t: u32, p: u32)
  {
    predicate MeetsFloor() { mKib >= 19 * 1024 && t >= 2 && p >= 1 }
  }

  datatype ClientError = CorruptBlob | UnsupportedBlobVersion(version: byte) | BelowArgonFloor | WrongPassword

  /** `limits`: what the key-derivation library accepts beyond the floor. */
  datatype Crypto = Crypto(limits: (string, Argon2Params) -> bool, kdf: (string, Salt, Argon2Params) -> Bytes,
                           seal: (Bytes, Nonce, Bytes, Bytes) -> Bytes,
                           open: (Bytes, Nonce, Bytes, Bytes) -> Option<Bytes>)
  {
    /** `derive_key`; below the floor nothing is derived. */
    function DeriveKey(password: string, salt: Salt, params: Argon2Params): Option<Bytes> {
      if params.MeetsFloor() && limits(password, params) then Some(kdf(password, salt, params)) else None
    }

    ghost predicate Authentic() {
      && (forall k, n, a, p :: open(k, n, a, seal(k, n, a, p)) == Some(p) && |seal(k, n, a, p)| == |p| + 16)
      && (forall k, n, a, c :: open(k, n, a, c).Some? ==> c == seal(k, n, a, open(k, n, a, c).value))
    }
  }

  // ---- the format ----

  function Header(version: byte, params: Argon2Params, salt: Salt, nonce: Nonce): (h: Bytes)
    ensures |h| == HEADER_LEN
  {
    MAGIC + [version] + BeBytes(params.mKib, WORD) + BeBytes(params.t, WORD) + BeBytes(params.p, WORD) + salt + nonce
  }

  function VersionOf(id: Identity): byte { if id.mlkemSeed.Some? then VERSION_V2 else VERSION_V1 }

  function PlainOf(id: Identity): (p: Bytes)
    ensures |p| == PlainLen(VersionOf(id))
  {
    id.encSk + id.encPk + id.sigSeed + if id.mlkemSeed.Some? then id.mlkemSeed.value else []
  }

  function PlainLen(version: byte): nat { if version == VERSION_V2 then PLAINTEXT_V2_LEN else PLAINTEXT_V1_LEN }

  // ---- the format, byte by byte ----

  /** The least cost the password hash must have. */
  ghost predicate Costly(params: Argon2Params) { params.mKib >= 19_456 && params.t >= 2 && params.p >= 1 }

  /** The cost parameters in a header, as big-endian words. */
  ghost function CostIn(blob: Bytes): Argon2Params
    requires |blob| >= 45
  {
    Argon2Params(BigWord(blob[5..9]), BigWord(blob[9..13]), BigWord(blob[13..17]))
  }

  ghost predicate Marked(blob: Bytes) { |blob| >= 45 && blob[..4] == [0x4D, 0x58, 0x4B, 0x42] }

  /** The blob starts with the header of these fields. */
  ghost predicate Headed(blob: Bytes, version: byte, params: Argon2Params, salt: Salt, nonce: Nonce) {
    && Marked(blob) && blob[4] == version && CostIn(blob) == params
    && blob[17..33] == salt && blob[33..45] == nonce
  }

  /** Three keys of 32 bytes each, and the seed of 64 where there is one. */
  ghost predicate PlainFor(plain: Bytes, id: Identity) {
    && |plain| == (if id.mlkemSeed.Some? then 160 else 96)
    && plain[..32] == id.encSk && plain[32..64] == id.encPk && plain[64..96] == id.sigSeed
    && (id.mlkemSeed.Some? ==> plain[96..] == id.mlkemSeed.value)
  }

  /** `blob` is `id` sealed under the password and these fields, with the header authenticated. */
  ghost predicate SealedWith(cr: Crypto, password: string, id: Identity, params: Argon2Params, salt: Salt, nonce: Nonce,
                             blob: Bytes)
  {
    && Costly(params) && cr.limits(password, params)
    && Headed(blob, if id.mlkemSeed.Some? then 2 else 1, params, salt, nonce)
    && exists plain :: PlainFor(plain, id)
                       && blob[45..] == cr.seal(cr.kdf(password, salt, params), nonce, blob[..45], plain)
  }

  /** `blob` is what sealing `id` under `password` may produce. */
  ghost predicate IsSealed(cr: Crypto, password: string, id: Identity, blob: Bytes) {
    exists params, salt, nonce :: SealedWith(cr, password, id, params, salt, nonce, blob)
  }

  // ---- sealing, into a buffer ----

  /** `copy_from_slice` at an offset. */
  method CopyInto(a: array<byte>, at: nat, src: Bytes)
    requires at + |src| <= a.Length
    modifies a
    ensures a[..at] == old(a[..at]) && a[at..at + |src|] == src && a[at + |src|..] == old(a[at + |src|..])
  {
    forall i | 0 <= i < |src| { a[at + i] := src[i]; }
  }

  lemma Splice(was: Bytes, now: Bytes, at: nat, src: Bytes)
    requires at + |src| <= |was| == |now|
    requires now[..at] == was[..at] && now[at..at + |src|] == src
    ensures now[..at + |src|] == was[..at] + src
  {
  }

  /** Fill the buffer from `at`, which holds `done` so far. */
  method Append(a: array<byte>, at: nat, src: Bytes, ghost done: Bytes) returns (next: nat)
    requires at + |src| <= a.Length && a[..at] == done
    modifies a
    ensures next == at + |src| && a[..next] == done + src
  {
    ghost var was := a[..];
    assert was[..at] == a[..at];
    CopyInto(a, at, src);
    assert a[..][..at] == a[..at] && a[..][at..at + |src|] == a[at..at + |src|];
    Splice(was, a[..], at, src);
    next := at + |src|;
    assert a[..][..next] == a[..next];
  }

  /** `build_header` */
  method BuildHeader(version: byte, params: Argon2Params, salt: Salt, nonce: Nonce) returns (h: array<byte>)
    ensures fresh(h) && h[..] == Header(version, params, salt, nonce)
    ensures h.Length == 45 && Headed(h[..], version, params, salt, nonce)
  {
    HeaderIsHeaded(version, params, salt, nonce, []);
    hide BeBytes, MAGIC, Headed;
    MagicLength();
    h := new byte[HEADER_LEN](_ => 0);
    var at := Append(h, 0, MAGIC, []);
    at := Append(h, at, [version], MAGIC);
    at := Append(h, at, BeBytes(params.mKib, WORD), MAGIC + [version]);
    ghost var soFar := MAGIC + [version] + BeBytes(params.mKib, WORD);
    at := Append(h, at, BeBytes(params.t, WORD), soFar);
    at := Append(h, at, BeBytes(params.p, WORD), soFar + BeBytes(params.t, WORD));
    at := Append(h, at, salt, soFar + BeBytes(params.t, WORD) + BeBytes(params.p, WORD));
    at := Append(h, at, nonce, soFar + BeBytes(params.t, WORD) + BeBytes(params.p, WORD) + salt);
    assert h[..at] == h[..] == h[..] + [];
  }

  lemma MagicLength()
    ensures |MAGIC| == 4
  {
  }

  /** `seal`, with the system's random bytes. */
  method Seal(cr: Crypto, password: string, id: Identity, params: Argon2Params) returns (r: Result<Bytes, ClientError>)
    ensures r.Ok? <==> Costly(params) && cr.limits(password, params)
    ensures r.Ok? ==> IsSealed(cr, password, id, r.value)
    ensures r.Err? ==> r.error == BelowArgonFloor
  {
    hide Header, BeBytes, Headed, PlainFor, SealedWith;
    var salt: Salt, nonce: Nonce := *, *;
    var key := cr.DeriveKey(password, salt, params);
    if key.None? { return Err(BelowArgonFloor); }
    var version := VersionOf(id);
    var pt := new byte[PlainLen(version)](_ => 0);
    var at := Append(pt, 0, id.encSk, []);
    at := Append(pt, at, id.encPk, id.encSk);
    at := Append(pt, at, id.sigSeed, id.encSk + id.encPk);
    if id.mlkemSeed.Some? { at := Append(pt, at, id.mlkemSeed.value, id.encSk + id.encPk + id.sigSeed); }
    assert pt[..at] == pt[..] == PlainOf(id);
    var header := BuildHeader(version, params, salt, nonce);
    var ct := cr.seal(key.value, nonce, header[..], pt[..]);
    PlainIsPlainFor(id, pt[..]);
    SealedIs(cr, password, id, params, salt, nonce, header[..] + ct);
    return Ok(header[..] + ct);
  }

  lemma HeaderIsHeaded(version: byte, params: Argon2Params, salt: Salt, nonce: Nonce, rest: Bytes)
    ensures Headed(Header(version, params, salt, nonce) + rest, version, params, salt, nonce)
  {
    HeaderParsesBack(version, params, salt, nonce, rest);
    var blob := Header(version, params, salt, nonce) + rest;
    CostIsParams(blob);
    assert blob[..4] == blob[0..4];
  }

  lemma CostIsParams(blob: Bytes)
    requires |blob| >= HEADER_LEN
    ensures ParamsOf(blob) == CostIn(blob)
  {
    WordValues(blob[5..9]);
    WordValues(blob[9..13]);
    WordValues(blob[13..17]);
  }

  lemma PlainIsPlainFor(id: Identity, plain: Bytes)
    ensures plain == PlainOf(id) <==> PlainFor(plain, id)
  {
    var p := PlainOf(id);
    assert p[..32] == id.encSk && p[32..64] == id.encPk && p[64..96] == id.sigSeed;
    if id.mlkemSeed.Some? { assert p[96..] == id.mlkemSeed.value; }
    if PlainFor(plain, id) { assert plain == plain[..32] + plain[32..64] + plain[64..96] + plain[96..]; }
  }

  lemma SealedIs(cr: Crypto, password: string, id: Identity, params: Argon2Params, salt: Salt, nonce: Nonce,
                 blob: Bytes)
    ensures SealedWith(cr, password, id, params, salt, nonce, blob)
            <==> && params.MeetsFloor() && cr.limits(password, params)
                 && var header := Header(VersionOf(id), params, salt, nonce);
                    blob == header + cr.seal(cr.kdf(password, salt, params), nonce, header, PlainOf(id))
  {
    var header := Header(VersionOf(id), params, salt, nonce);
    var ct := cr.seal(cr.kdf(password, salt, params), nonce, header, PlainOf(id));
    HeaderIsHeaded(VersionOf(id), params, salt, nonce, ct);
    PlainIsPlainFor(id, PlainOf(id));
    assert (header + ct)[..45] == header && (header + ct)[45..] == ct;
    if SealedWith(cr, password, id, params, salt, nonce, blob) {
      var plain :| PlainFor(plain, id)
                   && blob[45..] == cr.seal(cr.kdf(password, salt, params), nonce, blob[..45], plain);
      PlainIsPlainFor(id, plain);
      CostIsParams(blob);
      assert blob[0..4] == blob[..4];
      HeaderPrintsBack(blob);
      assert blob == blob[..45] + blob[45..] && blob[0..45] == blob[..45];
    }
  }

  // ---- unlocking ----

  function ParamsOf(blob: Bytes): Argon2Params
    requires |blob| >= HEADER_LEN
  {
    BeBytesOfValue(blob[5..9]);
    BeBytesOfValue(blob[9..13]);
    BeBytesOfValue(blob[13..17]);
    Pow256Word();
    Argon2Params(BeValue(blob[5..9]), BeValue(blob[9..13]), BeValue(blob[13..17]))
  }

  function IdentityOf(version: byte, plain: Bytes): Identity
    requires |plain| == PlainLen(version)
  {
    Identity(plain[0..32], plain[32..64], plain[64..96], if version == VERSION_V2 then Some(plain[96..160]) else None)
  }

  /** What a blob unlocks to. */
  function Unlocked(cr: Crypto, password: string, blob: Bytes): Result<Identity, ClientError> {
    if |blob| < HEADER_LEN || blob[0..4] != MAGIC then Err(CorruptBlob)
    else if blob[4] != VERSION_V1 && blob[4] != VERSION_V2 then Err(UnsupportedBlobVersion(blob[4]))
    else if |blob| != HEADER_LEN + PlainLen(blob[4]) + TAG_LEN then Err(CorruptBlob)
    else
      var key := cr.DeriveKey(password, blob[17..33], ParamsOf(blob));
      if key.None? then Err(BelowArgonFloor)
      else
        var plain := cr.open(key.value, blob[33..45], blob[0..HEADER_LEN], blob[HEADER_LEN..]);
        if plain.None? then Err(WrongPassword)
        else if |plain.value| != PlainLen(blob[4]) then Err(CorruptBlob)
        else Ok(IdentityOf(blob[4], plain.value))
  }

  /** Of a known version, and as long as that version says. */
  ghost predicate WellShaped(blob: Bytes) {
    Marked(blob) && ((blob[4] == 1 && |blob| == 157) || (blob[4] == 2 && |blob| == 221))
  }

  ghost predicate CostOk(cr: Crypto, password: string, blob: Bytes)
    requires |blob| >= 45
  {
    Costly(CostIn(blob)) && cr.limits(password, CostIn(blob))
  }

  /** What the rest of the blob decrypts to, with the header authenticated. */
  ghost function Decrypted(cr: Crypto, password: string, blob: Bytes): Option<Bytes>
    requires |blob| >= 45
  {
    cr.open(cr.kdf(password, blob[17..33], CostIn(blob)), blob[33..45], blob[..45], blob[45..])
  }

  /** What the error says of the blob. */
  ghost predicate Reason(cr: Crypto, password: string, blob: Bytes, e: ClientError) {
    match e
    case CorruptBlob => !Marked(blob) || (blob[4] in {1, 2} && !WellShaped(blob))
    case UnsupportedBlobVersion(version) => Marked(blob) && version == blob[4] && version !in {1, 2}
    case BelowArgonFloor => WellShaped(blob) && !CostOk(cr, password, blob)
    case WrongPassword => WellShaped(blob) && CostOk(cr, password, blob) && Decrypted(cr, password, blob).None?
  }

  lemma UnlockedReason(cr: Crypto, password: string, blob: Bytes, e: ClientError)
    requires cr.Authentic()
    ensures Unlocked(cr, password, blob) == Err(e) <==> Reason(cr, password, blob, e)
  {
    hide BeValue, BeBytes, ParamsOf, CostIn, IdentityOf;
    if |blob| >= 45 {
      CostIsParams(blob);
      assert blob[..4] == blob[0..4] && blob[..45] == blob[0..45];
      var plain := Decrypted(cr, password, blob);
      assert plain.Some? ==> |blob[45..]| == |plain.value| + 16;
    }
  }

  /** `unlock` */
  method Unlock(cr: Crypto, password: string, blob: Bytes) returns (r: Result<Identity, ClientError>)
    requires cr.Authentic()
    ensures r == Unlocked(cr, password, blob)
    ensures forall id :: r == Ok(id) <==> IsSealed(cr, password, id, blob)
    ensures forall e :: r == Err(e) <==> Reason(cr, password, blob, e)
  {
    forall e ensures Unlocked(cr, password, blob) == Err(e) <==> Reason(cr, password, blob, e) {
      UnlockedReason(cr, password, blob, e);
    }
    hide Reason;
    forall id ensures Unlocked(cr, password, blob) == Ok(id) <==> IsSealed(cr, password, id, blob) {
      UnlockInvertsSeal(cr, password, id, blob);
    }
    hide IsSealed, BeValue, BeBytes;
    if |blob| < HEADER_LEN { return Err(CorruptBlob); }
    if blob[0..4] != MAGIC { return Err(CorruptBlob); }
    var version := blob[4];
    if version != VERSION_V1 && version != VERSION_V2 { return Err(UnsupportedBlobVersion(version)); }
    if |blob| != HEADER_LEN + PlainLen(version) + TAG_LEN { return Err(CorruptBlob); }
    var params := ParamsOf(blob);
    var salt: Salt, nonce: Nonce := blob[17..33], blob[33..45];
    var header, ct := blob[0..HEADER_LEN], blob[HEADER_LEN..];
    var key := cr.DeriveKey(password, salt, params);
    if key.None? { return Err(BelowArgonFloor); }
    var plain := cr.open(key.value, nonce, header, ct);
    if plain.None? { return Err(WrongPassword); }
    if |plain.value| != PlainLen(version) { return Err(CorruptBlob); }
    return Ok(IdentityOf(version, plain.value));
  }

  lemma HeaderPrintsBack(blob: Bytes)
    requires |blob| >= HEADER_LEN && blob[0..4] == MAGIC
    ensures blob[0..HEADER_LEN] == Header(blob[4], ParamsOf(blob), blob[17..33], blob[33..45])
  {
    hide BeBytes, BeValue, MAGIC;
    BeBytesOfValue(blob[5..9]);
    BeBytesOfValue(blob[9..13]);
    BeBytesOfValue(blob[13..17]);
    HeaderCut(blob);
  }

  lemma Adjacent(blob: Bytes, i: nat, j: nat)
    requires i <= j <= |blob|
    ensures blob[0..j] == blob[0..i] + blob[i..j]
  {
  }

  lemma HeaderCut(blob: Bytes)
    requires |blob| >= HEADER_LEN
    ensures blob[0..HEADER_LEN]
            == blob[0..4] + [blob[4]] + blob[5..9] + blob[9..13] + blob[13..17] + blob[17..33] + blob[33..45]
  {
    Adjacent(blob, 4, 5);
    Adjacent(blob, 5, 9);
    Adjacent(blob, 9, 13);
    Adjacent(blob, 13, 17);
    Adjacent(blob, 17, 33);
    Adjacent(blob, 33, 45);
    assert blob[4..5] == [blob[4]];
  }

  lemma {:induction false} HeaderParsesBack(version: byte, params: Argon2Params, salt: Salt, nonce: Nonce, rest: Bytes)
    ensures var blob := Header(version, params, salt, nonce) + rest;
            && blob[0..HEADER_LEN] == Header(version, params, salt, nonce) && blob[HEADER_LEN..] == rest
            && blob[0..4] == MAGIC && blob[4] == version && blob[17..33] == salt && blob[33..45] == nonce
            && ParamsOf(blob) == params
  {
    Pow256Word();
    hide BeBytes, BeValue, MAGIC, Pow256, Header;
    WordRoundTrips(params.mKib, WORD);
    WordRoundTrips(params.t, WORD);
    WordRoundTrips(params.p, WORD);
    HeaderSlices(version, params, salt, nonce, rest);
  }

  lemma HeaderSlices(version: byte, params: Argon2Params, salt: Salt, nonce: Nonce, rest: Bytes)
    ensures var blob := Header(version, params, salt, nonce) + rest;
            && blob[0..4] == MAGIC && blob[4] == version && blob[5..9] == BeBytes(params.mKib, WORD)
            && blob[9..13] == BeBytes(params.t, WORD) && blob[13..17] == BeBytes(params.p, WORD)
            && blob[17..33] == salt && blob[33..45] == nonce
  {
    hide BeBytes, MAGIC;
    MagicLength();
  }

  lemma PlainRoundTrips(id: Identity, version: byte, plain: Bytes)
    requires version == VERSION_V1 || version == VERSION_V2
    ensures IdentityOf(VersionOf(id), PlainOf(id)) == id
    ensures |plain| == PlainLen(version) ==>
              PlainOf(IdentityOf(version, plain)) == plain && VersionOf(IdentityOf(version, plain)) == version
  {
    var p := PlainOf(id);
    assert p[0..32] == id.encSk && p[32..64] == id.encPk && p[64..96] == id.sigSeed;
    if id.mlkemSeed.Some? { assert p[96..160] == id.mlkemSeed.value; }
    if |plain| == PlainLen(version) {
      assert plain == plain[0..32] + plain[32..64] + plain[64..96] + plain[96..];
    }
  }

  /** A blob unlocks to an identity exactly if it is a sealing of that identity under that password. */
  lemma UnlockInvertsSeal(cr: Crypto, password: string, id: Identity, blob: Bytes)
    requires cr.Authentic()
    ensures Unlocked(cr, password, blob) == Ok(id) <==> IsSealed(cr, password, id, blob)
  {
    if Unlocked(cr, password, blob) == Ok(id) { UnlockedWasSealed(cr, password, id, blob); }
    if IsSealed(cr, password, id, blob) {
      var params, salt, nonce :| SealedWith(cr, password, id, params, salt, nonce, blob);
      SealedUnlocks(cr, password, id, params, salt, nonce, blob);
    }
  }

  lemma UnlockedWasSealed(cr: Crypto, password: string, id: Identity, blob: Bytes)
    requires cr.Authentic() && Unlocked(cr, password, blob) == Ok(id)
    ensures |blob| >= HEADER_LEN
    ensures SealedWith(cr, password, id, ParamsOf(blob), blob[17..33], blob[33..45], blob)
  {
    hide Header, ParamsOf, IdentityOf, PlainOf, SealedWith;
    HeaderPrintsBack(blob);
    var params, salt: Salt, nonce: Nonce := ParamsOf(blob), blob[17..33], blob[33..45];
    var key := cr.kdf(password, salt, params);
    var plain := cr.open(key, nonce, blob[0..HEADER_LEN], blob[HEADER_LEN..]).value;
    PlainRoundTrips(id, blob[4], plain);
    assert blob[HEADER_LEN..] == cr.seal(key, nonce, blob[0..HEADER_LEN], plain);
    assert blob == blob[0..HEADER_LEN] + blob[HEADER_LEN..];
    SealedIs(cr, password, id, params, salt, nonce, blob);
  }

  lemma SealedUnlocks(cr: Crypto, password: string, id: Identity, params: Argon2Params, salt: Salt, nonce: Nonce,
                      blob: Bytes)
    requires cr.Authentic() && SealedWith(cr, password, id, params, salt, nonce, blob)
    ensures Unlocked(cr, password, blob) == Ok(id)
  {
    hide Header, ParamsOf, IdentityOf, PlainOf, SealedWith;
    SealedIs(cr, password, id, params, salt, nonce, blob);
    var header := Header(VersionOf(id), params, salt, nonce);
    var ct := cr.seal(cr.kdf(password, salt, params), nonce, header, PlainOf(id));
    HeaderParsesBack(VersionOf(id), params, salt, nonce, ct);
    PlainRoundTrips(id, VersionOf(id), PlainOf(id));
    assert |ct| == PlainLen(VersionOf(id)) + TAG_LEN;
    assert cr.open(cr.kdf(password, salt, params), nonce, header, ct) == Some(PlainOf(id));
  }

  // ---- changing the password ----

  /** `reseal` */
  method Reseal(cr: Crypto, blob: Bytes, oldPassword: string, newPassword: string, params: Argon2Params)
    returns (r: Result<Bytes, ClientError>)
    requires cr.Authentic()
    ensures r.Ok? <==> Unlocked(cr, oldPassword, blob).Ok? && Costly(params) && cr.limits(newPassword, params)
    ensures r.Ok? ==> Resealed(cr, blob, oldPassword, r.value, newPassword)
    ensures Unlocked(cr, oldPassword, blob).Err? ==> r == Err(Unlocked(cr, oldPassword, blob).error)
    ensures Unlocked(cr, oldPassword, blob).Ok? && r.Err? ==> r.error == BelowArgonFloor
  {
    hide Unlocked, IsSealed;
    var id := Unlock(cr, oldPassword, blob);
    if id.Err? { return Err(id.error); }
    r := Seal(cr, newPassword, id.value, params);
  }

  ghost predicate Resealed(cr: Crypto, blob: Bytes, oldPassword: string, blob': Bytes, newPassword: string) {
    Unlocked(cr, oldPassword, blob).Ok? && IsSealed(cr, newPassword, Unlocked(cr, oldPassword, blob).value, blob')
  }

  /** Each blob is a resealing of the one before it, under the next password. */
  ghost predicate ResealChain(cr: Crypto, blobs: seq<Bytes>, passwords: seq<string>) {
    && |blobs| == |passwords|
    && forall i :: 0 < i < |blobs| ==> Resealed(cr, blobs[i - 1], passwords[i - 1], blobs[i], passwords[i])
  }

  /**
   However often the password is changed, the newest password opens the newest blob to the first
   identity, in the same version.
   */
  lemma {:induction false} ChainKeepsIdentity(cr: Crypto, id: Identity, blobs: seq<Bytes>, passwords: seq<string>,
                                              n: nat)
    requires cr.Authentic() && ResealChain(cr, blobs, passwords) && n < |blobs|
    requires IsSealed(cr, passwords[0], id, blobs[0])
    ensures Unlocked(cr, passwords[n], blobs[n]) == Ok(id)
    ensures |blobs[n]| == |blobs[0]| == if id.mlkemSeed.Some? then 221 else 157
    ensures blobs[n][4] == blobs[0][4] == if id.mlkemSeed.Some? then 2 else 1
  {
    hide Unlocked, IsSealed;
    UnlockInvertsSeal(cr, passwords[0], id, blobs[0]);
    SealedShape(cr, passwords[0], id, blobs[0]);
    if n > 0 {
      ChainKeepsIdentity(cr, id, blobs, passwords, n - 1);
      assert Resealed(cr, blobs[n - 1], passwords[n - 1], blobs[n], passwords[n]);
      UnlockInvertsSeal(cr, passwords[n], id, blobs[n]);
      SealedShape(cr, passwords[n], id, blobs[n]);
    }
  }

  lemma SealedShape(cr: Crypto, password: string, id: Identity, blob: Bytes)
    requires cr.Authentic() && IsSealed(cr, password, id, blob)
    ensures |blob| == (if id.mlkemSeed.Some? then 221 else 157)
    ensures blob[4] == if id.mlkemSeed.Some? then 2 else 1
  {
    var params, salt, nonce :| SealedWith(cr, password, id, params, salt, nonce, blob);
  }
}
