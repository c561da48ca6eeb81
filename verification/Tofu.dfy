/**
 The sealed store of pinned user keys (client-app/src/tofu.rs), over a disk where any step may fail
 or lose power.
 */
module Tofu {
  import opened Machine
  import opened Wrappers
  import opened HexText

  // ---- the disk ----

  datatype Fate = Done | Failed | Crashed

  /** A file's data survives a power loss only once it is durable. */
  datatype File = File(data: Bytes, durable: bool)

  ghost predicate Safe(f: Option<File>) { f.Some? ==> f.value.durable }

  class Disk {
    var live: Option<File>
    var tmp: Option<File>

    constructor ()
      ensures live == None && tmp == None
    {
      live, tmp := None, None;
    }

    method PowerLoss()
      modifies this
      ensures Safe(old(live)) ==> live == old(live)
      ensures Safe(old(tmp)) ==> tmp == old(tmp)
    {
      if live.Some? && !live.value.durable { live := *; }
      if tmp.Some? && !tmp.value.durable { tmp := *; }
    }

    method CreateTmp() returns (fate: Fate)
      requires Safe(live)
      modifies this
      ensures live == old(live)
      ensures fate.Done? ==> tmp == Some(File([], false))
    {
      fate := *;
      if fate.Done? { tmp := Some(File([], false)); } else { tmp := *; }
      if fate.Crashed? { PowerLoss(); }
    }

    method WriteTmp(data: Bytes) returns (fate: Fate)
      requires Safe(live)
      modifies this
      ensures live == old(live)
      ensures fate.Done? ==> tmp == Some(File(data, false))
    {
      fate := *;
      if fate.Done? { tmp := Some(File(data, false)); } else { tmp := *; }
      if fate.Crashed? { PowerLoss(); }
    }

    method SyncTmp() returns (fate: Fate)
      requires Safe(live)
      modifies this
      ensures live == old(live)
      ensures fate.Done? && old(tmp).Some? ==> tmp == Some(File(old(tmp).value.data, true))
    {
      fate := *;
      if fate.Done? && tmp.Some? { tmp := Some(File(tmp.value.data, true)); }
      if fate.Crashed? { PowerLoss(); }
    }

    /** Atomic: on any fate the live file is the old one or the whole new one, as durable as either was. */
    method Rename() returns (fate: Fate)
      requires Safe(live)
      modifies this
      ensures fate.Done? ==> live == old(tmp)
      ensures fate.Failed? ==> live == old(live)
      ensures fate.Crashed? && Safe(old(tmp)) ==> live == old(live) || live == old(tmp)
    {
      fate := *;
      var moved: bool := *;
      if fate.Done? || (fate.Crashed? && moved) { live, tmp := tmp, None; }
      if fate.Crashed? { PowerLoss(); }
    }
  }

  // ---- sealing ----

  const NONCE := 12

  type PinMap = map<string, Digest>

  /** The on-disk form: user name to hexadecimal fingerprint. */
  type TextMap = map<string, string>

  /**
   Encryption of the serialised map under the identity's key; opening refuses whatever it cannot
   authenticate or parse.
   */
  datatype Sealer = Sealer(seal: (Bytes, TextMap) -> Bytes, open: (Bytes, Bytes) -> Option<TextMap>)
  {
    ghost predicate Correct() { forall nonce, m :: open(nonce, seal(nonce, m)) == Some(m) }
  }

  datatype UiError = Untrusted

  function HexMap(m: PinMap): TextMap { map u | u in m :: Hex32(m[u]) }

  /** Every fingerprint parsed, or nothing. */
  function ParsedMap(m: TextMap): Option<PinMap> {
    if forall u :: u in m ==> Parsed(m[u]).Some? then
      Some(map u | u in m :: ParsedDigest(m[u]))
    else None
  }

  function ParsedDigest(s: string): Digest
    requires Parsed(s).Some?
  {
    ParsedLength(s);
    Parsed(s).value
  }

  function Decrypted(sealer: Sealer, sealed: Bytes): Result<PinMap, UiError> {
    if |sealed| < NONCE then Err(Untrusted)
    else
      var text := sealer.open(sealed[..NONCE], sealed[NONCE..]);
      if text.None? then Err(Untrusted)
      else
        var m := ParsedMap(text.value);
        if m.Some? then Ok(m.value) else Err(Untrusted)
  }

  /** The pins a store file holds; no file holds none. */
  function Decoded(sealer: Sealer, live: Option<File>): Result<PinMap, UiError> {
    if live.None? then Ok(map[]) else Decrypted(sealer, live.value.data)
  }

  lemma HexMapParses(m: PinMap)
    ensures ParsedMap(HexMap(m)) == Some(m)
  {
    hide Parsed, Hex32;
    forall u | u in m ensures Parsed(HexMap(m)[u]) == Some(m[u]) { HexRoundTrips(m[u], ""); }
    MapParses(HexMap(m), m);
  }

  lemma MapParses(text: TextMap, pins: PinMap)
    requires pins.Keys == text.Keys && forall u :: u in pins ==> Parsed(text[u]) == Some(pins[u])
    ensures ParsedMap(text) == Some(pins)
  {
    hide Parsed;
    forall u | u in text ensures Parsed(text[u]).Some? && ParsedDigest(text[u]) == pins[u] {
      assert u in pins;
    }
    assert (map u | u in text :: ParsedDigest(text[u])) == pins;
  }

  lemma SealedDecrypts(sealer: Sealer, nonce: Bytes, m: PinMap)
    requires sealer.Correct() && |nonce| == NONCE
    ensures Decrypted(sealer, nonce + sealer.seal(nonce, HexMap(m))) == Ok(m)
  {
    var blob := nonce + sealer.seal(nonce, HexMap(m));
    assert blob[..NONCE] == nonce && blob[NONCE..] == sealer.seal(nonce, HexMap(m));
    HexMapParses(m);
  }

  /** The same names, each with the fingerprint that its text reads as. */
  ghost predicate Spells(text: TextMap, pins: PinMap) {
    pins.Keys == text.Keys && forall u :: u in pins ==> Reads(text[u], pins[u])
  }

  /** `sealed` is a nonce of 12 bytes and what opens under it to text that spells `pins`. */
  ghost predicate Holds(sealer: Sealer, sealed: Bytes, pins: PinMap) {
    |sealed| >= 12
    && var text := sealer.open(sealed[..12], sealed[12..]);
       text.Some? && Spells(text.value, pins)
  }

  lemma ParsedSpells(text: TextMap, pins: PinMap)
    ensures ParsedMap(text) == Some(pins) <==> Spells(text, pins)
  {
    hide Parsed, Reads;
    forall u, fp: Digest | u in text ensures Reads(text[u], fp) <==> Parsed(text[u]) == Some(fp) {
      ParsedExact(text[u], fp);
    }
    if Spells(text, pins) { MapParses(text, pins); }
  }

  lemma DecryptedHolds(sealer: Sealer, sealed: Bytes, pins: PinMap)
    ensures Decrypted(sealer, sealed) == Ok(pins) <==> Holds(sealer, sealed, pins)
  {
    hide ParsedMap, Spells;
    if |sealed| >= 12 {
      var text := sealer.open(sealed[..12], sealed[12..]);
      if text.Some? { ParsedSpells(text.value, pins); }
    }
  }

  /** `decrypt_map`: the pins that the sealed bytes hold, if they hold any. */
  method DecryptMap(sealer: Sealer, sealed: Bytes) returns (r: Result<PinMap, UiError>)
    ensures r == Decrypted(sealer, sealed)
    ensures forall m :: r == Ok(m) <==> Holds(sealer, sealed, m)
  {
    forall m ensures Decrypted(sealer, sealed) == Ok(m) <==> Holds(sealer, sealed, m) {
      DecryptedHolds(sealer, sealed, m);
    }
    hide Parsed, Holds;
    if |sealed| < NONCE { return Err(Untrusted); }
    var text := sealer.open(sealed[..NONCE], sealed[NONCE..]);
    if text.None? { return Err(Untrusted); }
    var pins: PinMap, left := map[], text.value.Keys;
    while left != {}
      invariant left <= text.value.Keys && pins.Keys == text.value.Keys - left
      invariant forall u :: u in pins ==> Parsed(text.value[u]) == Some(pins[u])
      decreases |left|
    {
      var u :| u in left;
      var fp := Unhex32(text.value[u]);
      if fp.None? { return Err(Untrusted); }
      pins, left := pins[u := fp.value], left - {u};
    }
    MapParses(text.value, pins);
    return Ok(pins);
  }

  // ---- the store ----

  datatype Outcome = Pinned | Match | Changed

  /** What a call comes to: an answer, a refused write, or a power loss on the way. */
  datatype Reply<T> = Answer(value: T) | WriteFailed | PowerLost

  class TofuStore {
    const sealer: Sealer
    const fingerprint: (Bytes, Bytes) -> Digest
    const disk: Disk
    var pins: PinMap

    /** RAM is what the live file decodes to, and that file would survive a power loss. */
    ghost predicate Valid()
      reads this, disk
    {
      sealer.Correct() && Safe(disk.live) && Decoded(sealer, disk.live) == Ok(pins)
    }

    constructor (sealer: Sealer, fingerprint: (Bytes, Bytes) -> Digest, disk: Disk, pins: PinMap)
      requires sealer.Correct() && Safe(disk.live) && Decoded(sealer, disk.live) == Ok(pins)
      ensures Valid() && this.pins == pins && this.disk == disk
      ensures this.sealer == sealer && this.fingerprint == fingerprint
    {
      this.sealer, this.fingerprint, this.disk, this.pins := sealer, fingerprint, disk, pins;
    }

    /** `persist` */
    method Persist(candidate: PinMap) returns (fate: Fate)
      requires sealer.Correct() && Safe(disk.live)
      modifies disk
      ensures Safe(disk.live)
      ensures fate.Done? ==> Decoded(sealer, disk.live) == Ok(candidate)
      ensures fate.Failed? ==> disk.live == old(disk.live)
      ensures fate.Crashed? ==> disk.live == old(disk.live) || Decoded(sealer, disk.live) == Ok(candidate)
    {
      hide Decrypted;
      assert |seq(NONCE, _ => 0)| == NONCE;
      var nonce: Bytes :| |nonce| == NONCE;
      var out := nonce + sealer.seal(nonce, HexMap(candidate));
      SealedDecrypts(sealer, nonce, candidate);
      fate := disk.CreateTmp();
      if !fate.Done? { return; }
      fate := disk.WriteTmp(out);
      if !fate.Done? { return; }
      fate := disk.SyncTmp();
      if !fate.Done? { return; }
      fate := disk.Rename();
    }

    /**
     `check_or_pin`: a first sighting pins, a known key matches, another key is reported and the pin
     stays. A refused write leaves both RAM and file as they were; after a power loss the file
     decodes to the pins before the call or after it.
     */
    method CheckOrPin(user: string, encPub: Bytes, sigPub: Bytes) returns (r: Reply<Outcome>)
      requires Valid()
      modifies this, disk
      ensures var fp := fingerprint(encPub, sigPub);
              && (r == Answer(Match) <==> user in old(pins) && old(pins)[user] == fp)
              && (r == Answer(Changed) <==> user in old(pins) && old(pins)[user] != fp)
              && (r == Answer(Pinned) ==> user !in old(pins) && pins == old(pins)[user := fp])
      ensures r != Answer(Pinned) && !r.PowerLost? ==> pins == old(pins) && Decoded(sealer, disk.live) == Ok(old(pins))
      ensures !r.PowerLost? ==> Valid()
      ensures Safe(disk.live)
      ensures MayLeave(CallCheck(user, fingerprint(encPub, sigPub)), old(pins), Decoded(sealer, disk.live))
    {
      hide Decrypted;
      var fp := fingerprint(encPub, sigPub);
      if user in pins { return Answer(if pins[user] == fp then Match else Changed); }
      var candidate := pins[user := fp];
      var fate := Persist(candidate);
      if fate.Failed? { return WriteFailed; }
      if fate.Crashed? { return PowerLost; }
      pins := candidate;
      return Answer(Pinned);
    }

    /** `repin`, after the user has confirmed the change. */
    method Repin(user: string, encPub: Bytes, sigPub: Bytes) returns (r: Reply<()>)
      requires Valid()
      modifies this, disk
      ensures r.Answer? ==> pins == old(pins)[user := fingerprint(encPub, sigPub)]
      ensures r.WriteFailed? ==> pins == old(pins) && Decoded(sealer, disk.live) == Ok(old(pins))
      ensures !r.PowerLost? ==> Valid()
      ensures Safe(disk.live)
      ensures MayLeave(CallRepin(user, fingerprint(encPub, sigPub)), old(pins), Decoded(sealer, disk.live))
    {
      hide Decrypted;
      var candidate := pins[user := fingerprint(encPub, sigPub)];
      var fate := Persist(candidate);
      if fate.Failed? { return WriteFailed; }
      if fate.Crashed? { return PowerLost; }
      pins := candidate;
      return Answer(());
    }
  }

  /**
   `open`: no pins if there is no file, otherwise the pins that the file holds; it fails exactly on a
   file that cannot be read or holds none. Nothing is written.
   */
  method Open(sealer: Sealer, fingerprint: (Bytes, Bytes) -> Digest, disk: Disk, readable: bool)
    returns (r: Result<TofuStore, UiError>)
    requires sealer.Correct() && Safe(disk.live)
    ensures r.Ok? <==> disk.live.None? || (readable && exists m :: Holds(sealer, disk.live.value.data, m))
    ensures r.Ok? && disk.live.None? ==> r.value.pins == map[]
    ensures r.Ok? && disk.live.Some? ==> Holds(sealer, disk.live.value.data, r.value.pins)
    ensures r.Err? ==> disk.live.Some? && (readable ==> Decoded(sealer, disk.live).Err?)
    ensures r.Ok? ==> && r.value.Valid() && fresh(r.value) && r.value.disk == disk && r.value.sealer == sealer
                      && r.value.fingerprint == fingerprint && Decoded(sealer, disk.live) == Ok(r.value.pins)
  {
    hide Holds, Decrypted;
    if disk.live.None? {
      var store := new TofuStore(sealer, fingerprint, disk, map[]);
      return Ok(store);
    }
    if !readable { return Err(Untrusted); }
    var pins := DecryptMap(sealer, disk.live.value.data);
    if pins.Err? { return Err(Untrusted); }
    var store := new TofuStore(sealer, fingerprint, disk, pins.value);
    return Ok(store);
  }

  // ---- runs ----

  datatype Call = CallCheck(user: string, fp: Digest) | CallRepin(user: string, fp: Digest) | CallReopen

  /** What a call, completed or not, may leave in the file: the pins before it, or with its one change. */
  ghost predicate MayLeave(call: Call, before: PinMap, now: Result<PinMap, UiError>) {
    || now == Ok(before)
    || (call.CallCheck? && call.user !in before && now == Ok(before[call.user := call.fp]))
    || (call.CallRepin? && now == Ok(before[call.user := call.fp]))
  }

  /** The file's pins before and after each call of a run with crashes and reopenings anywhere. */
  ghost predicate IsRun(calls: seq<Call>, states: seq<PinMap>) {
    |states| == |calls| + 1 && forall i :: 0 <= i < |calls| ==> MayLeave(calls[i], states[i], Ok(states[i + 1]))
  }

  /** What the application asks for; a file may turn out unreadable when it is reopened. */
  datatype Request =
    | Check(user: string, encPub: Bytes, sigPub: Bytes)
    | Confirm(user: string, encPub: Bytes, sigPub: Bytes)
    | Reopen(readable: bool)

  function CallOf(fingerprint: (Bytes, Bytes) -> Digest, request: Request): Call {
    match request
    case Check(user, encPub, sigPub) => CallCheck(user, fingerprint(encPub, sigPub))
    case Confirm(user, encPub, sigPub) => CallRepin(user, fingerprint(encPub, sigPub))
    case Reopen(_) => CallReopen
  }

  function CallsOf(fingerprint: (Bytes, Bytes) -> Digest, requests: seq<Request>): seq<Call> {
    seq(|requests|, i requires 0 <= i < |requests| => CallOf(fingerprint, requests[i]))
  }

  lemma RunNext(calls: seq<Call>, states: seq<PinMap>, n: nat, next: PinMap)
    requires n < |calls| && |states| == n + 1 && IsRun(calls[..n], states) && MayLeave(calls[n], states[n], Ok(next))
    ensures IsRun(calls[..n + 1], states + [next])
  {
    var more := states + [next];
    forall i | 0 <= i < n + 1 ensures MayLeave(calls[..n + 1][i], more[i], Ok(more[i + 1])) {
      if i < n { assert calls[..n][i] == calls[i] && MayLeave(calls[..n][i], states[i], Ok(states[i + 1])); }
    }
  }

  /**
   Any requests, one after another, each with whatever failures and power losses: what the file holds
   in between is a run. After a power loss, or a failed opening, only a reopening has any effect.
   */
  method Session(sealer: Sealer, fingerprint: (Bytes, Bytes) -> Digest, disk: Disk, requests: seq<Request>)
    returns (ghost states: seq<PinMap>)
    requires sealer.Correct() && Safe(disk.live) && Decoded(sealer, disk.live).Ok?
    modifies disk
    ensures IsRun(CallsOf(fingerprint, requests), states) && states[0] == old(Decoded(sealer, disk.live).value)
    ensures Safe(disk.live) && Decoded(sealer, disk.live) == Ok(states[|requests|])
  {
    hide Decoded, MayLeave, IsRun;
    ghost var calls := CallsOf(fingerprint, requests);
    states := [Decoded(sealer, disk.live).value];
    var store: TofuStore? := null;
    NoCalls(calls, states);
    for n := 0 to |requests|
      invariant IsRun(calls[..n], states) && |states| == n + 1 && states[0] == old(Decoded(sealer, disk.live).value)
      invariant Safe(disk.live) && Decoded(sealer, disk.live) == Ok(states[n])
      invariant store != null ==>
                  && fresh(store) && store.Valid() && store.disk == disk && store.sealer == sealer
                  && store.fingerprint == fingerprint
    {
      Unchanged(calls[n], states[n]);
      match requests[n] {
        case Check(user, encPub, sigPub) =>
          if store != null {
            ghost var before := store.pins;
            var r := store.CheckOrPin(user, encPub, sigPub);
            LeavesPins(calls[n], before, Decoded(sealer, disk.live));
            if r.PowerLost? { store := null; }
          }
        case Confirm(user, encPub, sigPub) =>
          if store != null {
            ghost var before := store.pins;
            var r := store.Repin(user, encPub, sigPub);
            LeavesPins(calls[n], before, Decoded(sealer, disk.live));
            if r.PowerLost? { store := null; }
          }
        case Reopen(readable) =>
          var r := Open(sealer, fingerprint, disk, readable);
          store := if r.Ok? then r.value else null;
      }
      RunNext(calls, states, n, Decoded(sealer, disk.live).value);
      states := states + [Decoded(sealer, disk.live).value];
    }
    assert calls[..|requests|] == calls;
  }

  lemma NoCalls(calls: seq<Call>, states: seq<PinMap>)
    requires |states| == 1
    ensures IsRun(calls[..0], states)
  {
  }

  lemma Unchanged(call: Call, pins: PinMap)
    ensures MayLeave(call, pins, Ok(pins))
  {
  }

  lemma LeavesPins(call: Call, before: PinMap, now: Result<PinMap, UiError>)
    requires MayLeave(call, before, now)
    ensures now.Ok?
  {
  }

  /** Whatever fails or crashes, an existing pin is never lost and changes only by a confirmed repin of that user. */
  lemma {:induction false} PinsChangeOnlyByRepin(calls: seq<Call>, states: seq<PinMap>, i: nat, j: nat, user: string)
    requires IsRun(calls, states) && i <= j <= |calls| && user in states[i]
    ensures user in states[j]
    ensures states[j][user] == states[i][user]
            || exists k :: i <= k < j && calls[k].CallRepin? && calls[k].user == user && states[j][user] == calls[k].fp
    decreases j
  {
    if i < j {
      PinsChangeOnlyByRepin(calls, states, i, j - 1, user);
      assert MayLeave(calls[j - 1], states[j - 1], Ok(states[j]));
    }
  }
}
