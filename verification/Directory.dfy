/**
 Trust-on-first-use verification of directory bindings (client-core/src/directory.rs). The signature
 check, the key fingerprint and the revocation view are arbitrary.
 */
module Directory {
  import opened Machine
  import opened Wrappers
  import opened Records
  import Control

  datatype Binding = Binding(username: string, userId: Id, encPub: Bytes, sigPub: Bytes, keyVersion: u64,
                             roles: seq<Control.Role>, notBefore: u64, notAfter: u64, mlkemPub: Option<Bytes>)

  datatype TrustRecord = TrustRecord(keyVersion: u64, fingerprint: Bytes)

  type Pins = map<Id, TrustRecord>

  datatype VerifiedBinding = VerifiedBinding(userId: Id, encPub: Bytes, sigPub: Bytes, keyVersion: u64,
                                             roles: seq<Control.Role>, fingerprint: Bytes, mlkemPub: Option<Bytes>)

  datatype KtError = SplitView | Regression | NotIncluded

  datatype VerifyError =
    | BadSignature
    | Rollback(remembered: u64, served: u64)
    | KeyChanged(fingerprint: Bytes)
    | NotYetValid
    | Expired
    | Revoked
    | NotInLog(error: KtError)
    | DelegationInvalid
    | DelegationExpired

  /** `signed(key, binding, sig)`: the signature over the binding verifies under the key. */
  datatype Scheme = Scheme(signed: (Bytes, Binding, Bytes) -> bool, fingerprint: (Bytes, Bytes) -> Bytes)
  {
    function Fingerprint(b: Binding): Bytes { fingerprint(b.encPub, b.sigPub) }

    function PinOf(b: Binding): TrustRecord { TrustRecord(b.keyVersion, Fingerprint(b)) }

    function Verified(b: Binding): VerifiedBinding {
      VerifiedBinding(b.userId, b.encPub, b.sigPub, b.keyVersion, b.roles, Fingerprint(b), b.mlkemPub)
    }
  }

  /** What the tombstones say of a user; they have been checked before. */
  datatype Tombstones = Tombstones(revoked: set<Id>, effective: (Id, seq<Control.Role>) -> seq<Control.Role>)

  /** The outcome of the key-transparency gate, where one is supplied. */
  datatype Gate = NoGate | Logged | Unlogged(error: KtError)

  // ---- what each check decides ----

  ghost predicate InWindow(b: Binding, now: u64) { b.notBefore <= now <= b.notAfter }

  /** The user is unknown, or pinned to exactly this version and these keys. */
  ghost predicate Agrees(sc: Scheme, pins: Pins, b: Binding) {
    b.userId in pins ==> pins[b.userId] == TrustRecord(b.keyVersion, sc.fingerprint(b.encPub, b.sigPub))
  }

  /** The user is pinned to this version and these keys, and nothing else has changed. */
  ghost predicate Pinned(sc: Scheme, was: Pins, now: Pins, b: Binding) {
    now == was[b.userId := TrustRecord(b.keyVersion, sc.fingerprint(b.encPub, b.sigPub))]
  }

  /** `v` carries every field of the binding that its users need, with the fingerprint of the two keys. */
  ghost predicate Tells(sc: Scheme, b: Binding, v: VerifiedBinding) {
    && v.userId == b.userId && v.encPub == b.encPub && v.sigPub == b.sigPub && v.mlkemPub == b.mlkemPub
    && v.keyVersion == b.keyVersion && v.roles == b.roles && v.fingerprint == sc.fingerprint(b.encPub, b.sigPub)
  }

  /**
   The verdict of `verify_binding`. Ok needs all three checks; among the failures the signature comes
   before the pin, the pin before the window, and a lower version before changed keys.
   */
  function Verdict(sc: Scheme, dirPub: Bytes, pins: Pins, b: Binding, sig: Bytes,
                   now: u64): (r: Result<VerifiedBinding, VerifyError>)
    ensures r.Ok? <==> sc.signed(dirPub, b, sig) && Agrees(sc, pins, b) && InWindow(b, now)
    ensures r.Ok? ==> Tells(sc, b, r.value)
    ensures r == Err(BadSignature) <==> !sc.signed(dirPub, b, sig)
    ensures r.Err? && (r.error.Rollback? || r.error.KeyChanged?) <==> sc.signed(dirPub, b, sig) && !Agrees(sc, pins, b)
    ensures r.Err? && r.error.Rollback? ==>
              && b.userId in pins && b.keyVersion < pins[b.userId].keyVersion
              && r.error == Rollback(pins[b.userId].keyVersion, b.keyVersion)
    ensures r.Err? && r.error.KeyChanged? ==>
              && b.userId in pins && b.keyVersion >= pins[b.userId].keyVersion
              && r.error.fingerprint == sc.fingerprint(b.encPub, b.sigPub)
    ensures r == Err(NotYetValid) <==> sc.signed(dirPub, b, sig) && Agrees(sc, pins, b) && now < b.notBefore
    ensures r == Err(Expired)
            <==> sc.signed(dirPub, b, sig) && Agrees(sc, pins, b) && b.notAfter < now && b.notBefore <= now
  {
    var fp := sc.Fingerprint(b);
    if !sc.signed(dirPub, b, sig) then Err(BadSignature)
    else if b.userId in pins && b.keyVersion < pins[b.userId].keyVersion then
      Err(Rollback(pins[b.userId].keyVersion, b.keyVersion))
    else if b.userId in pins && (b.keyVersion > pins[b.userId].keyVersion || fp != pins[b.userId].fingerprint) then
      Err(KeyChanged(fp))
    else if now < b.notBefore then Err(NotYetValid)
    else if now > b.notAfter then Err(Expired)
    else Ok(sc.Verified(b))
  }

  // ---- the verifier over a store ----

  class TrustStore {
    var records: Pins

    constructor ()
      ensures records == map[]
    {
      records := map[];
    }

    method Get(user: Id) returns (r: Option<TrustRecord>)
      ensures r == if user in records then Some(records[user]) else None
    {
      return if user in records then Some(records[user]) else None;
    }

    method Put(user: Id, record: TrustRecord)
      modifies this
      ensures records == old(records)[user := record]
    {
      records := records[user := record];
    }
  }

  datatype DirectoryVerifier = DirectoryVerifier(scheme: Scheme, dirPub: Bytes)
  {
    function CheckSignature(b: Binding, sig: Bytes): Result<(), VerifyError> {
      if scheme.signed(dirPub, b, sig) then Ok(()) else Err(BadSignature)
    }

    function CheckValidity(b: Binding, now: u64): Result<(), VerifyError> {
      if now < b.notBefore then Err(NotYetValid) else if now > b.notAfter then Err(Expired) else Ok(())
    }

    /** `verify_binding`: on success the user is pinned to this binding, on failure nothing changes. */
    method VerifyBinding(b: Binding, sig: Bytes, now: u64, trust: TrustStore)
      returns (r: Result<VerifiedBinding, VerifyError>)
      modifies trust
      ensures r == Verdict(scheme, dirPub, old(trust.records), b, sig, now)
      ensures if r.Ok? then Pinned(scheme, old(trust.records), trust.records, b)
              else trust.records == old(trust.records)
    {
      var signature := CheckSignature(b, sig);
      if signature.Err? { return Err(signature.error); }
      var fp := scheme.Fingerprint(b);
      var prev := trust.Get(b.userId);
      if prev.Some? {
        if b.keyVersion < prev.value.keyVersion { return Err(Rollback(prev.value.keyVersion, b.keyVersion)); }
        if b.keyVersion > prev.value.keyVersion || fp != prev.value.fingerprint { return Err(KeyChanged(fp)); }
      }
      var validity := CheckValidity(b, now);
      if validity.Err? { return Err(validity.error); }
      if prev.None? { trust.Put(b.userId, TrustRecord(b.keyVersion, fp)); }
      return Ok(scheme.Verified(b));
    }

    /** `verify_binding_with_kt`: the gate counts at first contact only. */
    method VerifyBindingWithKt(b: Binding, sig: Bytes, now: u64, trust: TrustStore, gate: Gate)
      returns (r: Result<VerifiedBinding, VerifyError>)
      modifies trust
      ensures r == Answer(scheme, dirPub, old(trust.records), Call.Verify(b, sig, now, gate))
      ensures trust.records == Step(scheme, dirPub, old(trust.records), Call.Verify(b, sig, now, gate))
      ensures r == if gate.Unlogged? && b.userId !in old(trust.records) then Err(NotInLog(gate.error))
                   else Verdict(scheme, dirPub, old(trust.records), b, sig, now)
      ensures if r.Ok? then Pinned(scheme, old(trust.records), trust.records, b)
              else trust.records == old(trust.records)
    {
      var prev := trust.Get(b.userId);
      if gate.Unlogged? && prev.None? { return Err(NotInLog(gate.error)); }
      r := VerifyBinding(b, sig, now, trust);
    }

    /** `authorize_recipient`; the revocation check comes after the pin. */
    method AuthorizeRecipient(b: Binding, sig: Bytes, now: u64, trust: TrustStore, tombs: Tombstones)
      returns (r: Result<VerifiedBinding, VerifyError>)
      modifies trust
      ensures Answer(scheme, dirPub, old(trust.records), Call.Authorize(b, sig, now, b.userId in tombs.revoked))
              == if r.Ok? then Ok(r.value.(roles := b.roles)) else r
      ensures r.Ok? ==> Tells(scheme, b.(roles := tombs.effective(b.userId, b.roles)), r.value)
      ensures var passes := scheme.signed(dirPub, b, sig) && Agrees(scheme, old(trust.records), b) && InWindow(b, now);
              && (r.Ok? <==> passes && b.userId !in tombs.revoked)
              && (r == Err(Revoked) <==> passes && b.userId in tombs.revoked)
              && (!passes ==> r == Verdict(scheme, dirPub, old(trust.records), b, sig, now))
              && if passes then Pinned(scheme, old(trust.records), trust.records, b)
                 else trust.records == old(trust.records)
      ensures trust.records == Step(scheme, dirPub, old(trust.records),
                                    Call.Authorize(b, sig, now, b.userId in tombs.revoked))
    {
      var v := VerifyBinding(b, sig, now, trust);
      if v.Err? { return v; }
      if v.value.userId in tombs.revoked { return Err(Revoked); }
      return Ok(v.value.(roles := tombs.effective(v.value.userId, v.value.roles)));
    }

    /** `accept_key_change` looks at the signature and the window, not at the pin it overwrites. */
    method AcceptKeyChange(b: Binding, sig: Bytes, now: u64, trust: TrustStore)
      returns (r: Result<VerifiedBinding, VerifyError>)
      modifies trust
      ensures r == Answer(scheme, dirPub, old(trust.records), Call.Accept(b, sig, now))
      ensures trust.records == Step(scheme, dirPub, old(trust.records), Call.Accept(b, sig, now))
      ensures r.Ok? <==> scheme.signed(dirPub, b, sig) && InWindow(b, now)
      ensures r.Ok? ==> Tells(scheme, b, r.value) && Pinned(scheme, old(trust.records), trust.records, b)
      ensures r.Err? ==> trust.records == old(trust.records)
      ensures r.Err? ==> r.error == if !scheme.signed(dirPub, b, sig) then BadSignature
                                    else if now < b.notBefore then NotYetValid else Expired
    {
      var signature := CheckSignature(b, sig);
      if signature.Err? { return Err(signature.error); }
      var validity := CheckValidity(b, now);
      if validity.Err? { return Err(validity.error); }
      trust.Put(b.userId, TrustRecord(b.keyVersion, scheme.Fingerprint(b)));
      return Ok(scheme.Verified(b));
    }
  }

  // ---- runs ----

  datatype Call =
    | Verify(binding: Binding, sig: Bytes, now: u64, gate: Gate)
    | Authorize(binding: Binding, sig: Bytes, now: u64, revoked: bool)
    | Accept(binding: Binding, sig: Bytes, now: u64)

  function Answer(sc: Scheme, dirPub: Bytes, pins: Pins, call: Call): Result<VerifiedBinding, VerifyError> {
    match call
    case Verify(b, sig, now, gate) =>
      if gate.Unlogged? && b.userId !in pins then Err(NotInLog(gate.error)) else Verdict(sc, dirPub, pins, b, sig, now)
    case Authorize(b, sig, now, revoked) =>
      var v := Verdict(sc, dirPub, pins, b, sig, now);
      if v.Ok? && revoked then Err(Revoked) else v
    case Accept(b, sig, now) => Verdict(sc, dirPub, map[], b, sig, now)
  }

  /** A successful call, or one refused only for the tombstone, leaves the user pinned to its binding. */
  function Step(sc: Scheme, dirPub: Bytes, pins: Pins, call: Call): Pins {
    var r := Answer(sc, dirPub, pins, call);
    if r.Ok? || r == Err(Revoked) then pins[call.binding.userId := sc.PinOf(call.binding)] else pins
  }

  /** Each call may come from another verifier, so it carries its own directory key. */
  function Run(sc: Scheme, pins: Pins, calls: seq<(Bytes, Call)>): Pins {
    if calls == [] then pins
    else
      var last := calls[|calls| - 1];
      Step(sc, last.0, Run(sc, pins, calls[..|calls| - 1]), last.1)
  }

  /** No call of `calls[from..]` accepts a key change of this user. */
  predicate NoAccept(calls: seq<(Bytes, Call)>, from: nat, user: Id) {
    forall i :: from <= i < |calls| ==> !(calls[i].1.Accept? && calls[i].1.binding.userId == user)
  }

  lemma StepKeepsPin(sc: Scheme, dirPub: Bytes, pins: Pins, call: Call, user: Id)
    requires user in pins && !(call.Accept? && call.binding.userId == user)
    ensures user in Step(sc, dirPub, pins, call) && Step(sc, dirPub, pins, call)[user] == pins[user]
  {
  }

  /** Whatever servers, clocks and other users do, only an accepted key change moves a pin. */
  lemma {:induction false} PinsAreStable(sc: Scheme, pins: Pins, calls: seq<(Bytes, Call)>, from: nat, user: Id)
    requires from <= |calls| && user in Run(sc, pins, calls[..from]) && NoAccept(calls, from, user)
    ensures user in Run(sc, pins, calls) && Run(sc, pins, calls)[user] == Run(sc, pins, calls[..from])[user]
    decreases |calls|
  {
    if from == |calls| {
      assert calls[..from] == calls;
    } else {
      var n := |calls| - 1;
      assert calls[..n][..from] == calls[..from];
      PinsAreStable(sc, pins, calls[..n], from, user);
      StepKeepsPin(sc, calls[n].0, Run(sc, pins, calls[..n]), calls[n].1, user);
    }
  }

  /** The `i`th call of the run, and its answer. */
  ghost predicate Answered(sc: Scheme, pins: Pins, calls: seq<(Bytes, Call)>, i: nat, v: VerifiedBinding)
    requires i < |calls|
  {
    Answer(sc, calls[i].0, Run(sc, pins, calls[..i]), calls[i].1) == Ok(v)
  }

  lemma AnsweredIsPinned(sc: Scheme, pins: Pins, calls: seq<(Bytes, Call)>, i: nat, v: VerifiedBinding)
    requires i < |calls| && Answered(sc, pins, calls, i, v)
    ensures v == sc.Verified(calls[i].1.binding)
    ensures v.userId in Run(sc, pins, calls[..i + 1])
    ensures Run(sc, pins, calls[..i + 1])[v.userId] == TrustRecord(v.keyVersion, sc.fingerprint(v.encPub, v.sigPub))
  {
    assert calls[..i + 1][..i] == calls[..i];
  }

  /** Two key pairs with one fingerprint. */
  ghost predicate Collide(sc: Scheme, v: VerifiedBinding, w: VerifiedBinding) {
    && (v.encPub, v.sigPub) != (w.encPub, w.sigPub)
    && sc.fingerprint(v.encPub, v.sigPub) == sc.fingerprint(w.encPub, w.sigPub)
  }

  /**
   Between accepted key changes, all successful answers about a user carry the same key version and
   the same two keys, unless two different key pairs share a fingerprint. The other fields of a
   binding are not pinned.
   */
  lemma SameKeysBetweenAccepts(sc: Scheme, pins: Pins, calls: seq<(Bytes, Call)>, i: nat, j: nat,
                               v: VerifiedBinding, w: VerifiedBinding)
    requires i < j < |calls| && Answered(sc, pins, calls, i, v) && Answered(sc, pins, calls, j, w)
    requires v.userId == w.userId && NoAccept(calls, i + 1, v.userId)
    ensures v.keyVersion == w.keyVersion
    ensures (v.encPub, v.sigPub) == (w.encPub, w.sigPub) || Collide(sc, v, w)
  {
    hide Run, Answer;
    AnsweredIsPinned(sc, pins, calls, i, v);
    AnsweredIsPinned(sc, pins, calls, j, w);
    assert calls[..j + 1][..i + 1] == calls[..i + 1];
    PinsAreStable(sc, pins, calls[..j + 1], i + 1, v.userId);
  }

  /** A refused call changes the store exactly when it is a first contact refused for its tombstone. */
  lemma RefusalsChangeNothingElse(sc: Scheme, dirPub: Bytes, pins: Pins, call: Call)
    requires Answer(sc, dirPub, pins, call).Err?
    ensures Step(sc, dirPub, pins, call) != pins <==>
            Answer(sc, dirPub, pins, call) == Err(Revoked) && call.binding.userId !in pins
  {
    var b := call.binding;
    var now := Step(sc, dirPub, pins, call);
    if Answer(sc, dirPub, pins, call) == Err(Revoked) {
      if b.userId in pins {
        assert pins[b.userId] == sc.PinOf(b);
        assert now == pins;
      } else {
        assert b.userId in now;
      }
    }
  }

  /** Every call about this user is a verification past a gate. */
  predicate AlwaysGated(calls: seq<(Bytes, Call)>, user: Id) {
    forall i :: 0 <= i < |calls| && calls[i].1.binding.userId == user ==>
      calls[i].1.Verify? && calls[i].1.gate != NoGate
  }

  lemma GatedStep(sc: Scheme, dirPub: Bytes, pins: Pins, call: Call, user: Id)
    requires user !in pins && user in Step(sc, dirPub, pins, call)
    requires call.binding.userId == user ==> call.Verify? && call.gate != NoGate
    ensures call.Verify? && call.gate == Logged && call.binding.userId == user
    ensures sc.signed(dirPub, call.binding, call.sig) && InWindow(call.binding, call.now)
    ensures Step(sc, dirPub, pins, call)[user] == sc.PinOf(call.binding)
  {
  }

  /**
   Where every call about a user passes a gate, a user who was unknown and is pinned after the run was
   pinned by a call whose binding the log showed, and to that binding still.
   */
  lemma {:induction false} FirstContactIsLogged(sc: Scheme, pins: Pins, calls: seq<(Bytes, Call)>, user: Id)
    returns (i: nat)
    requires user !in pins && user in Run(sc, pins, calls) && AlwaysGated(calls, user)
    ensures i < |calls| && user !in Run(sc, pins, calls[..i])
    ensures var call := calls[i].1;
            && call.Verify? && call.gate == Logged && call.binding.userId == user
            && sc.signed(calls[i].0, call.binding, call.sig) && InWindow(call.binding, call.now)
            && Run(sc, pins, calls)[user] == sc.PinOf(call.binding)
  {
    hide Step;
    var n := |calls| - 1;
    var before := calls[..n];
    if user in Run(sc, pins, before) {
      i := FirstContactIsLogged(sc, pins, before, user);
      assert before[..i] == calls[..i];
      StepKeepsPin(sc, calls[n].0, Run(sc, pins, before), calls[n].1, user);
    } else {
      i := n;
      GatedStep(sc, calls[n].0, Run(sc, pins, before), calls[n].1, user);
    }
  }

  /** Once a key change is accepted, verifying the same binding then succeeds and changes nothing more. */
  lemma AcceptedVerifies(sc: Scheme, dirPub: Bytes, pins: Pins, b: Binding, sig: Bytes, now: u64, gate: Gate)
    requires Answer(sc, dirPub, pins, Accept(b, sig, now)).Ok?
    ensures var after := Step(sc, dirPub, pins, Accept(b, sig, now));
            && Answer(sc, dirPub, after, Verify(b, sig, now, gate)) == Answer(sc, dirPub, pins, Accept(b, sig, now))
            && Step(sc, dirPub, after, Verify(b, sig, now, gate)) == after
  {
    var after := Step(sc, dirPub, pins, Accept(b, sig, now));
    assert after[b.userId := sc.PinOf(b)] == after;
  }

  /**
   The one way a remembered key version ever falls: accepting a properly signed older binding. Every
   other call keeps it, so rollback protection holds exactly between accepted key changes.
   */
  lemma VersionsFallOnlyByAccept(sc: Scheme, dirPub: Bytes, pins: Pins, call: Call, user: Id)
    requires user in pins
    ensures user in Step(sc, dirPub, pins, call)
    ensures Step(sc, dirPub, pins, call)[user].keyVersion < pins[user].keyVersion <==>
            && call.Accept? && call.binding.userId == user && call.binding.keyVersion < pins[user].keyVersion
            && sc.signed(dirPub, call.binding, call.sig) && InWindow(call.binding, call.now)
  {
  }
}
