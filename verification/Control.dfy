/**
 The hash-chained log of revocations, reinstatements and key compromises: how an administrator
 issues it (admin-core/src/control.rs) and how a client checks what a server claims it is
 (client-core/src/revocation.rs).
 */
module Control {
  import opened Machine
  import opened Wrappers
  import opened Records

  type Head = Bytes

  const GENESIS_HEAD: Head := seq(32, _ => 0)

  datatype Role = User | Admin

  datatype Scope = AccountWide | Specific(file: Id)

  datatype Record =
    | Revocation(scope: Scope, user: Id, capability: Option<Role>, fromVersion: u64, epoch: nat,
                 prevHead: Head, issuedBy: Id, coSigner: Option<Id>, createdAt: u64)
    | Reinstatement(scope: Scope, user: Id, supersedes: nat, epoch: nat,
                    prevHead: Head, issuedBy: Id, coSignedBy: Id, createdAt: u64)
    | KeyCompromise(user: Id, keyVersion: u64, effectiveFrom: u64,
                    prevHead: Head, issuedBy: Id, coSignedBy: Id, createdAt: u64)

  datatype Key = Key(secret: Bytes)

  /** The byte encoding of records, the hash of bytes and the signature over records, all arbitrary. */
  datatype Scheme = Scheme(encode: Record -> Bytes, decode: Bytes -> Option<Record>, hash: Bytes -> Head,
                           sign: (Key, Record) -> Bytes)
  {
    /** Every record has one encoding, and only it decodes to the record. */
    ghost predicate Canonical() {
      && (forall r :: decode(encode(r)) == Some(r))
      && (forall b :: decode(b).Some? ==> encode(decode(b).value) == b)
    }

    function Digest(r: Record): Head { hash(encode(r)) }
  }

  // ---- chains ----

  function HeadAfter(sc: Scheme, start: Head, log: seq<Record>): Head {
    if log == [] then start else sc.Digest(log[|log| - 1])
  }

  /** Every record names the head of everything before it. */
  ghost predicate Chained(sc: Scheme, start: Head, log: seq<Record>) {
    forall i :: 0 <= i < |log| ==> log[i].prevHead == HeadAfter(sc, start, log[..i])
  }

  /** Evidence against the hash among the given records: a collision, or a record that hashes to the start. */
  ghost predicate HashBroken(sc: Scheme, start: Head, log: seq<Record>) {
    || (exists x, y :: x in log && y in log && x != y && sc.Digest(x) == sc.Digest(y))
    || (exists x :: x in log && sc.Digest(x) == start)
  }

  lemma ChainedPrefix(sc: Scheme, start: Head, log: seq<Record>, n: nat)
    requires Chained(sc, start, log) && n <= |log|
    ensures Chained(sc, start, log[..n])
  {
    forall i | 0 <= i < n ensures log[..n][i].prevHead == HeadAfter(sc, start, log[..n][..i]) {
      assert log[..n][..i] == log[..i];
    }
  }

  /** A head commits to everything chained below it, or the hash is broken on those very records. */
  lemma {:induction false} HeadCommits(sc: Scheme, start: Head, a: seq<Record>, b: seq<Record>)
    requires Chained(sc, start, a) && Chained(sc, start, b) && HeadAfter(sc, start, a) == HeadAfter(sc, start, b)
    ensures a == b || HashBroken(sc, start, a + b)
    decreases |a|
  {
    hide *;
    if a == [] || b == [] {
      if a != b { HeadIsStart(sc, start, a, b); }
    } else if a[|a| - 1] == b[|b| - 1] {
      var m, n := |a| - 1, |b| - 1;
      LastNamesHead(sc, start, a);
      LastNamesHead(sc, start, b);
      HeadCommits(sc, start, a[..m], b[..n]);
      assert a == a[..m] + [a[m]] && b == b[..n] + [b[n]];
      BrokenOnMore(sc, start, a[..m] + b[..n], a + b);
    } else {
      LastsCollide(sc, start, a, b);
    }
  }

  lemma LastNamesHead(sc: Scheme, start: Head, a: seq<Record>)
    requires a != [] && Chained(sc, start, a)
    ensures Chained(sc, start, a[..|a| - 1]) && HeadAfter(sc, start, a[..|a| - 1]) == a[|a| - 1].prevHead
  {
    ChainedPrefix(sc, start, a, |a| - 1);
  }

  lemma LastsCollide(sc: Scheme, start: Head, a: seq<Record>, b: seq<Record>)
    requires a != [] && b != [] && HeadAfter(sc, start, a) == HeadAfter(sc, start, b) && a[|a| - 1] != b[|b| - 1]
    ensures HashBroken(sc, start, a + b)
  {
    assert a[|a| - 1] in a + b && b[|b| - 1] in a + b;
  }

  lemma HeadIsStart(sc: Scheme, start: Head, a: seq<Record>, b: seq<Record>)
    requires HeadAfter(sc, start, a) == HeadAfter(sc, start, b) && a != b && (a == [] || b == [])
    ensures HashBroken(sc, start, a + b)
  {
    if a == [] { assert b[|b| - 1] in a + b; } else { assert a[|a| - 1] in a + b; }
  }

  lemma BrokenOnMore(sc: Scheme, start: Head, few: seq<Record>, more: seq<Record>)
    requires forall x :: x in few ==> x in more
    ensures HashBroken(sc, start, few) ==> HashBroken(sc, start, more)
  {
  }

  // ---- issuing ----

  datatype State = State(head: Head, revokes: map<Scope, nat>, reinstates: map<Scope, nat>)

  /** `ControlChain::resume`: whatever was issued before, counting starts anew. */
  function Resumed(head: Head): State { State(head, map[], map[]) }

  function Latest(epochs: map<Scope, nat>, scope: Scope): nat { if scope in epochs then epochs[scope] else 0 }

  /** `record` may be issued next: chained, numbered next in its scope, and co-signed if account-wide. */
  predicate Issuable(st: State, record: Record) {
    && record.prevHead == st.head
    && (record.Revocation? ==> record.epoch == Latest(st.revokes, record.scope) + 1)
    && (record.Revocation? && record.scope == AccountWide ==> record.coSigner.Some?)
    && (record.Reinstatement? ==> record.epoch == Latest(st.reinstates, record.scope) + 1)
  }

  function After(sc: Scheme, st: State, record: Record): State {
    match record
    case Revocation(scope, _, _, _, epoch, _, _, _, _) =>
      State(sc.Digest(record), st.revokes[scope := epoch], st.reinstates)
    case Reinstatement(scope, _, _, epoch, _, _, _, _) =>
      State(sc.Digest(record), st.revokes, st.reinstates[scope := epoch])
    case KeyCompromise(_, _, _, _, _, _, _) => st.(head := sc.Digest(record))
  }

  function Ran(sc: Scheme, st: State, log: seq<Record>): State {
    if log == [] then st else After(sc, Ran(sc, st, log[..|log| - 1]), log[|log| - 1])
  }

  /** `log` is what one chain object, started in `st`, issued. */
  predicate Issued(sc: Scheme, st: State, log: seq<Record>) {
    log == [] ||
    (Issued(sc, st, log[..|log| - 1]) && Issuable(Ran(sc, st, log[..|log| - 1]), log[|log| - 1]))
  }

  lemma IssuedNext(sc: Scheme, st: State, log: seq<Record>, record: Record)
    requires Issued(sc, st, log) && Issuable(Ran(sc, st, log), record)
    ensures Issued(sc, st, log + [record]) && Ran(sc, st, log + [record]) == After(sc, Ran(sc, st, log), record)
  {
    assert (log + [record])[..|log|] == log;
  }

  datatype CoSign = CoSign(adminId: Id, key: Key)

  datatype SignedRecord = SignedRecord(record: Record, bytes: Bytes, head: Head, sig: Bytes, coSig: Option<Bytes>)

  datatype CeremonyError = DualControlRequired

  class ControlChain {
    const scheme: Scheme
    var head: Head
    var revokes: map<Scope, nat>
    var reinstates: map<Scope, nat>
    ghost const start: Head
    ghost var log: seq<Record>

    ghost function View(): State
      reads this
    {
      State(head, revokes, reinstates)
    }

    /** Everything issued since the object was made is a run from its start. */
    ghost predicate Valid()
      reads this
    {
      Issued(scheme, Resumed(start), log) && View() == Ran(scheme, Resumed(start), log)
    }

    constructor Resume(scheme: Scheme, from: Head)
      ensures Valid() && this.scheme == scheme && start == from && log == []
    {
      this.scheme, head, revokes, reinstates := scheme, from, map[], map[];
      start, log := from, [];
    }

    constructor (scheme: Scheme)
      ensures Valid() && this.scheme == scheme && start == GENESIS_HEAD && log == []
    {
      this.scheme, head, revokes, reinstates := scheme, GENESIS_HEAD, map[], map[];
      start, log := GENESIS_HEAD, [];
    }

    /** `finish` */
    method Finish(record: Record, issuer: Key, coKey: Option<Key>) returns (r: SignedRecord)
      requires Issued(scheme, Resumed(start), log)
      requires Issuable(Ran(scheme, Resumed(start), log), record)
      requires View() == After(scheme, Ran(scheme, Resumed(start), log), record).(head := head)
      modifies `head, `log
      ensures Valid() && log == old(log) + [record]
      ensures r.record == record && Carries(scheme, r, issuer)
      ensures r.coSig == if coKey.Some? then Some(scheme.sign(coKey.value, record)) else None
    {
      hide Issued, Ran, Issuable;
      IssuedNext(scheme, Resumed(start), log, record);
      var bytes := scheme.encode(record);
      head := scheme.hash(bytes);
      log := log + [record];
      r := SignedRecord(record, bytes, head, scheme.sign(issuer, record),
                        if coKey.Some? then Some(scheme.sign(coKey.value, record)) else None);
    }

    /** `revoke`: refused, changing nothing, exactly when an account-wide revocation lacks a co-signer. */
    method Revoke(issuer: Key, scope: Scope, user: Id, capability: Option<Role>, fromVersion: u64, issuedBy: Id,
                  createdAt: u64, coSign: Option<CoSign>)
      returns (r: Result<SignedRecord, CeremonyError>)
      requires Valid()
      modifies this
      ensures Valid()
      ensures r.Err? <==> scope == AccountWide && coSign.None?
      ensures r.Err? ==> View() == old(View()) && log == old(log)
      ensures r.Ok? ==>
                && log == old(log) + [r.value.record]
                && r.value.record.Revocation?
                && r.value.record == Revocation(scope, user, capability, fromVersion, Latest(old(revokes), scope) + 1,
                                                old(head), issuedBy, r.value.record.coSigner, createdAt)
                && Carries(scheme, r.value, issuer)
      ensures r.Ok? && coSign.None? ==> r.value.record.coSigner == None && r.value.coSig == None
      ensures r.Ok? && coSign.Some? ==>
                && r.value.record.coSigner == Some(coSign.value.adminId)
                && r.value.coSig == Some(scheme.sign(coSign.value.key, r.value.record))
    {
      if scope == AccountWide && coSign.None? { return Err(DualControlRequired); }
      var epoch := Latest(revokes, scope) + 1;
      revokes := revokes[scope := epoch];
      var record := Revocation(scope, user, capability, fromVersion, epoch, head, issuedBy, CoSignerOf(coSign),
                               createdAt);
      var signed := Finish(record, issuer, CoKey(coSign));
      return Ok(signed);
    }

    /** `reinstate` */
    method Reinstate(issuer: Key, scope: Scope, user: Id, supersedes: nat, issuedBy: Id, createdAt: u64, coSign: CoSign)
      returns (r: SignedRecord)
      requires Valid()
      modifies this
      ensures Valid() && log == old(log) + [r.record]
      ensures r.record == Reinstatement(scope, user, supersedes, Latest(old(reinstates), scope) + 1, old(head),
                                        issuedBy, coSign.adminId, createdAt)
      ensures Carries(scheme, r, issuer) && r.coSig == Some(scheme.sign(coSign.key, r.record))
    {
      var epoch := Latest(reinstates, scope) + 1;
      reinstates := reinstates[scope := epoch];
      var record := Reinstatement(scope, user, supersedes, epoch, head, issuedBy, coSign.adminId, createdAt);
      r := Finish(record, issuer, Some(coSign.key));
    }

    /** `key_compromise` */
    method ReportCompromise(issuer: Key, user: Id, keyVersion: u64, effectiveFrom: u64, issuedBy: Id, createdAt: u64,
                            coSign: CoSign)
      returns (r: SignedRecord)
      requires Valid()
      modifies this
      ensures Valid() && log == old(log) + [r.record]
      ensures r.record == KeyCompromise(user, keyVersion, effectiveFrom, old(head), issuedBy, coSign.adminId, createdAt)
      ensures Carries(scheme, r, issuer) && r.coSig == Some(scheme.sign(coSign.key, r.record))
    {
      var record := KeyCompromise(user, keyVersion, effectiveFrom, head, issuedBy, coSign.adminId, createdAt);
      r := Finish(record, issuer, Some(coSign.key));
    }
  }

  function CoSignerOf(coSign: Option<CoSign>): Option<Id> { if coSign.Some? then Some(coSign.value.adminId) else None }

  function CoKey(coSign: Option<CoSign>): Option<Key> { if coSign.Some? then Some(coSign.value.key) else None }

  /** The signed form of a record: its encoding, its hash, and the issuer's signature. */
  ghost predicate Carries(sc: Scheme, r: SignedRecord, issuer: Key) {
    r.bytes == sc.encode(r.record) && r.head == sc.hash(sc.encode(r.record)) && r.sig == sc.sign(issuer, r.record)
  }

  // ---- what one chain object issues ----

  /** What was issued is chained from the start to the current head. */
  lemma {:induction false} IssuedIsChained(sc: Scheme, start: Head, log: seq<Record>)
    requires Issued(sc, Resumed(start), log)
    ensures Chained(sc, start, log) && Ran(sc, Resumed(start), log).head == HeadAfter(sc, start, log)
  {
    if log != [] {
      var n := |log| - 1;
      IssuedIsChained(sc, start, log[..n]);
      forall i | 0 <= i < |log| ensures log[i].prevHead == HeadAfter(sc, start, log[..i]) {
        if i < n { assert log[..n][..i] == log[..i] && log[..n][i] == log[i]; }
      }
    }
  }

  function Revokes(log: seq<Record>, scope: Scope): nat {
    if log == [] then 0
    else
      var last := log[|log| - 1];
      Revokes(log[..|log| - 1], scope) + if last.Revocation? && last.scope == scope then 1 else 0
  }

  function Reinstates(log: seq<Record>, scope: Scope): nat {
    if log == [] then 0
    else
      var last := log[|log| - 1];
      Reinstates(log[..|log| - 1], scope) + if last.Reinstatement? && last.scope == scope then 1 else 0
  }

  lemma {:induction false} CountersCount(sc: Scheme, start: Head, log: seq<Record>, scope: Scope)
    requires Issued(sc, Resumed(start), log)
    ensures Latest(Ran(sc, Resumed(start), log).revokes, scope) == Revokes(log, scope)
    ensures Latest(Ran(sc, Resumed(start), log).reinstates, scope) == Reinstates(log, scope)
  {
    if log != [] {
      var n := |log| - 1;
      CountersCount(sc, start, log[..n], scope);
      if !log[n].KeyCompromise? { CountersCount(sc, start, log[..n], log[n].scope); }
    }
  }

  lemma {:induction false} IssuedPrefix(sc: Scheme, st: State, log: seq<Record>, n: nat)
    requires Issued(sc, st, log) && n <= |log|
    ensures Issued(sc, st, log[..n])
    ensures n < |log| ==> Issuable(Ran(sc, st, log[..n]), log[n])
    decreases |log|
  {
    if n < |log| {
      if n < |log| - 1 { IssuedPrefix(sc, st, log[..|log| - 1], n); }
      assert log[..|log| - 1][..n] == log[..n];
    } else {
      assert log[..n] == log;
    }
  }

  /** Of each kind, the records of one scope are numbered 1, 2, 3 and so on. */
  lemma EpochsCount(sc: Scheme, start: Head, log: seq<Record>, i: nat)
    requires Issued(sc, Resumed(start), log) && i < |log|
    ensures log[i].Revocation? ==> log[i].epoch == Revokes(log[..i], log[i].scope) + 1
    ensures log[i].Reinstatement? ==> log[i].epoch == Reinstates(log[..i], log[i].scope) + 1
  {
    IssuedPrefix(sc, Resumed(start), log, i);
    if !log[i].KeyCompromise? { CountersCount(sc, start, log[..i], log[i].scope); }
  }

  lemma {:induction false} RevokesGrow(log: seq<Record>, i: nat, j: nat, scope: Scope)
    requires i <= j <= |log|
    ensures Revokes(log[..i], scope) <= Revokes(log[..j], scope)
    ensures i < j && log[i].Revocation? && log[i].scope == scope ==> Revokes(log[..i], scope) < Revokes(log[..j], scope)
  {
    if i < j {
      assert log[..j][..j - 1] == log[..j - 1];
      RevokesGrow(log, i, j - 1, scope);
    }
  }

  /** Within one chain object, scope and epoch identify a revocation. */
  lemma EpochsIdentify(sc: Scheme, start: Head, log: seq<Record>, i: nat, j: nat)
    requires Issued(sc, Resumed(start), log) && i < j < |log|
    requires log[i].Revocation? && log[j].Revocation? && log[i].scope == log[j].scope
    ensures log[i].epoch < log[j].epoch
  {
    EpochsCount(sc, start, log, i);
    EpochsCount(sc, start, log, j);
    RevokesGrow(log, i, j, log[i].scope);
  }

  // ---- checking a served chain ----

  datatype TombstoneError = Gap | BrokenChain | Malformed | UnknownIssuer | BadAuthority | NotAdmin | DualControlMissing

  /** `log` is what the served bytes decode to. */
  ghost predicate Reads(sc: Scheme, served: seq<Bytes>, log: seq<Record>) {
    |served| == |log| && forall i :: 0 <= i < |log| ==> sc.decode(served[i]) == Some(log[i])
  }

  /** After the good records `log` comes one that does not decode, or one that names another head. */
  ghost predicate StopsAfter(sc: Scheme, start: Head, served: seq<Bytes>, log: seq<Record>, e: TombstoneError) {
    && |log| < |served| && Reads(sc, served[..|log|], log) && Chained(sc, start, log)
    && var next := sc.decode(served[|log|]);
       || (e == Malformed && next.None?)
       || (e == BrokenChain && next.Some? && next.value.prevHead != HeadAfter(sc, start, log))
  }

  /**
   `TombstoneSet::verify`: accepts exactly a contiguous chain of records from the genesis head to the
   anchored one; a contiguous chain that ends elsewhere is a gap.
   */
  method VerifyChain(sc: Scheme, served: seq<Bytes>, anchored: Head) returns (r: Result<seq<Record>, TombstoneError>)
    requires sc.Canonical()
    ensures r.Ok? ==> Reads(sc, served, r.value) && Chained(sc, GENESIS_HEAD, r.value)
    ensures forall log :: Reads(sc, served, log) && Chained(sc, GENESIS_HEAD, log) ==>
                            r == if HeadAfter(sc, GENESIS_HEAD, log) == anchored then Ok(log) else Err(Gap)
    ensures r == Err(Gap) ==> exists log :: Reads(sc, served, log) && Chained(sc, GENESIS_HEAD, log)
    ensures r.Err? && r.error != Gap ==> exists log :: StopsAfter(sc, GENESIS_HEAD, served, log, r.error)
  {
    hide GENESIS_HEAD;
    var head := GENESIS_HEAD;
    var decoded: seq<Record> := [];
    for i := 0 to |served|
      invariant Reads(sc, served[..i], decoded) && Chained(sc, GENESIS_HEAD, decoded)
      invariant head == HeadAfter(sc, GENESIS_HEAD, decoded)
    {
      var d := sc.decode(served[i]);
      if d.None? {
        assert StopsAfter(sc, GENESIS_HEAD, served, decoded, Malformed);
        return Err(Malformed);
      }
      if d.value.prevHead != head {
        assert StopsAfter(sc, GENESIS_HEAD, served, decoded, BrokenChain);
        forall log: seq<Record> | Reads(sc, served, log) ensures !Chained(sc, GENESIS_HEAD, log) {
          ReadsPrefix(sc, served, log, decoded, i);
          assert log[i].prevHead != HeadAfter(sc, GENESIS_HEAD, log[..i]);
        }
        return Err(BrokenChain);
      }
      ChainedNext(sc, GENESIS_HEAD, decoded, d.value);
      head := sc.hash(served[i]);
      decoded := decoded + [d.value];
    }
    assert served[..|served|] == served;
    forall log: seq<Record> | Reads(sc, served, log) ensures log == decoded {
      ReadsPrefix(sc, served, log, decoded, |served|);
      assert log[..|served|] == log;
    }
    return if head != anchored then Err(Gap) else Ok(decoded);
  }

  lemma ReadsPrefix(sc: Scheme, served: seq<Bytes>, log: seq<Record>, decoded: seq<Record>, n: nat)
    requires n <= |served| && Reads(sc, served, log) && Reads(sc, served[..n], decoded)
    ensures log[..n] == decoded
  {
    forall i | 0 <= i < n ensures log[i] == decoded[i] { assert served[..n][i] == served[i]; }
  }

  lemma ChainedNext(sc: Scheme, start: Head, log: seq<Record>, next: Record)
    requires Chained(sc, start, log) && next.prevHead == HeadAfter(sc, start, log)
    ensures Chained(sc, start, log + [next])
  {
    forall i | 0 <= i <= |log| ensures (log + [next])[i].prevHead == HeadAfter(sc, start, (log + [next])[..i]) {
      assert (log + [next])[..i] == log[..i];
      assert log[..|log|] == log;
    }
  }

  /** The served bytes read as `log`, chained from `start` up to the anchored head. */
  ghost predicate Accepts(sc: Scheme, start: Head, served: seq<Bytes>, anchored: Head, log: seq<Record>) {
    Reads(sc, served, log) && Chained(sc, start, log) && HeadAfter(sc, start, log) == anchored
  }

  /** What one object after another issues, each resumed at the head of the last, is one chain. */
  lemma {:induction false} ResumedIsChained(sc: Scheme, start: Head, earlier: seq<Record>, log: seq<Record>)
    requires Chained(sc, start, earlier) && Issued(sc, Resumed(HeadAfter(sc, start, earlier)), log)
    ensures Chained(sc, start, earlier + log)
  {
    hide Issued, HeadAfter;
    IssuedIsChained(sc, HeadAfter(sc, start, earlier), log);
    forall i | 0 <= i < |earlier + log|
      ensures (earlier + log)[i].prevHead == HeadAfter(sc, start, (earlier + log)[..i])
    {
      ResumedLink(sc, start, earlier, log, i);
      hide *;
    }
  }

  lemma {:induction false} ResumedLink(sc: Scheme, start: Head, earlier: seq<Record>, log: seq<Record>, i: nat)
    requires Chained(sc, start, earlier) && Chained(sc, HeadAfter(sc, start, earlier), log) && i < |earlier + log|
    ensures (earlier + log)[i].prevHead == HeadAfter(sc, start, (earlier + log)[..i])
  {
    hide HeadAfter;
    if i < |earlier| {
      LinkAt(sc, start, earlier, i);
      hide *;
      assert (earlier + log)[..i] == earlier[..i];
    } else {
      var k := i - |earlier|;
      LinkAt(sc, HeadAfter(sc, start, earlier), log, k);
      HeadOfMore(sc, start, earlier, log[..k]);
      hide *;
      assert (earlier + log)[..i] == earlier + log[..k];
    }
  }

  lemma LinkAt(sc: Scheme, start: Head, log: seq<Record>, i: nat)
    requires Chained(sc, start, log) && i < |log|
    ensures log[i].prevHead == HeadAfter(sc, start, log[..i])
  {
  }

  lemma {:induction false} HeadOfMore(sc: Scheme, start: Head, earlier: seq<Record>, log: seq<Record>)
    ensures HeadAfter(sc, start, earlier + log) == HeadAfter(sc, HeadAfter(sc, start, earlier), log)
  {
    if log == [] { assert earlier + log == earlier; }
  }

  /**
   Under the head of a chain, however many objects issued it, the check accepts the encodings of that
   chain and nothing else: nothing dropped, added, altered or withheld, unless the hash is broken on the
   records involved.
   */
  lemma OnlyTheIssuedChainIsAccepted(sc: Scheme, start: Head, issued: seq<Record>, served: seq<Bytes>, log: seq<Record>)
    requires sc.Canonical() && Chained(sc, start, issued)
    requires Accepts(sc, start, served, HeadAfter(sc, start, issued), log)
    ensures HashBroken(sc, start, log + issued)
            || (log == issued && |served| == |issued|
                && forall i :: 0 <= i < |issued| ==> served[i] == sc.encode(issued[i]))
  {
    HeadCommits(sc, start, log, issued);
    if log == issued {
      forall i | 0 <= i < |issued| ensures served[i] == sc.encode(issued[i]) {
        assert sc.decode(served[i]) == Some(issued[i]);
      }
    }
  }

  /** And the encodings of the chain are accepted under its head. */
  lemma TheIssuedChainIsAccepted(sc: Scheme, start: Head, earlier: seq<Record>, log: seq<Record>, served: seq<Bytes>)
    requires sc.Canonical() && Chained(sc, start, earlier) && Issued(sc, Resumed(HeadAfter(sc, start, earlier)), log)
    requires var issued := earlier + log;
             |served| == |issued| && forall i :: 0 <= i < |issued| ==> served[i] == sc.encode(issued[i])
    ensures Accepts(sc, start, served, HeadAfter(sc, start, earlier + log), earlier + log)
  {
    ResumedIsChained(sc, start, earlier, log);
    hide Issued, Chained, HeadAfter;
  }

  // ---- what a reinstatement undoes ----

  predicate Names(d: Record, rev: Record)
    requires rev.Revocation?
  {
    d.Reinstatement? && d.scope == rev.scope && d.user == rev.user && d.supersedes == rev.epoch
  }

  /** `is_superseded_in` */
  ghost predicate Superseded(log: seq<Record>, rev: Record)
    requires rev.Revocation?
  {
    exists d :: d in log && Names(d, rev)
  }

  ghost predicate RevokesAccount(rev: Record, user: Id) {
    rev.Revocation? && rev.scope == AccountWide && rev.user == user && rev.capability == None
  }

  /** `is_account_revoked` */
  ghost predicate IsAccountRevoked(log: seq<Record>, user: Id) {
    exists rev :: rev in log && RevokesAccount(rev, user) && !Superseded(log, rev)
  }

  /** A reinstatement already in the log that names the epoch the next revocation in its scope is given. */
  ghost predicate Forestalled(before: seq<Record>, scope: Scope, user: Id, next: nat) {
    exists d :: d in before && d.Reinstatement? && d.scope == scope && d.user == user && d.supersedes == next
  }

  /**
   A new revocation is undone from the start exactly if some reinstatement before it, by whichever chain
   object, names the epoch it is given: one more than the revocations its own object has issued in the
   scope. An account is then revoked only if it was before.
   */
  lemma NewRevocationHolds(sc: Scheme, start: Head, earlier: seq<Record>, log: seq<Record>, rev: Record)
    requires Issued(sc, Resumed(start), log + [rev]) && rev.Revocation?
    ensures Superseded(earlier + log + [rev], rev)
            <==> Forestalled(earlier + log, rev.scope, rev.user, Revokes(log, rev.scope) + 1)
    ensures RevokesAccount(rev, rev.user) ==>
              (IsAccountRevoked(earlier + log + [rev], rev.user)
               <==> IsAccountRevoked(earlier + log, rev.user)
                    || !Forestalled(earlier + log, AccountWide, rev.user, Revokes(log, AccountWide) + 1))
  {
    var issued, before, all := log + [rev], earlier + log, earlier + log + [rev];
    assert issued[..|log|] == log;
    EpochsCount(sc, start, issued, |log|);
    assert forall d :: d in all <==> d in before || d == rev;
    forall r: Record | r.Revocation? ensures Superseded(all, r) <==> Superseded(before, r) {}
    if RevokesAccount(rev, rev.user) {
      assert rev in all;
      assert IsAccountRevoked(before, rev.user) ==> IsAccountRevoked(all, rev.user);
    }
  }

  /** Reinstatements name only epochs their own chain object has already issued; nothing enforces it. */
  ghost predicate NamesOnlyThePast(log: seq<Record>) {
    forall i :: 0 <= i < |log| && log[i].Reinstatement? ==> log[i].supersedes <= Revokes(log[..i], log[i].scope)
  }

  /** Where reinstatements name only the past, what undoes a new revocation is from before the resume. */
  lemma OnlyTheEarlierForestall(sc: Scheme, start: Head, earlier: seq<Record>, log: seq<Record>, rev: Record)
    requires Issued(sc, Resumed(start), log + [rev]) && rev.Revocation? && NamesOnlyThePast(log)
    ensures Superseded(earlier + log + [rev], rev) <==> Superseded(earlier, rev)
  {
    var all := log + [rev];
    assert all[..|log|] == log;
    EpochsCount(sc, start, all, |log|);
    forall d | d in log ensures !Names(d, rev) {
      var i :| 0 <= i < |log| && log[i] == d;
      RevokesGrow(log, i, |log|, rev.scope);
      assert log[..|log|] == log;
    }
  }

  /**
   Within one object: a reinstatement that names epoch 1 of the whole account, before anything has been
   revoked, undoes the first revocation of the account that follows.
   */
  lemma ReinstatedInAdvance(sc: Scheme, user: Id, admin: Id, second: Id) returns (log: seq<Record>, rev: Record)
    ensures Issued(sc, Resumed(GENESIS_HEAD), log + [rev]) && |log| == 1
    ensures RevokesAccount(rev, user) && Superseded(log + [rev], rev) && !IsAccountRevoked(log + [rev], user)
  {
    hide GENESIS_HEAD;
    var undo := Reinstatement(AccountWide, user, 1, 1, GENESIS_HEAD, admin, second, 0);
    rev := Revocation(AccountWide, user, None, 0, 1, sc.Digest(undo), admin, Some(second), 0);
    log := [undo];
    assert [undo, rev] == log + [rev] && [undo, rev][..1] == [undo] && [undo][..0] == [];
    assert Issued(sc, Resumed(GENESIS_HEAD), [undo]);
    assert Ran(sc, Resumed(GENESIS_HEAD), [undo]) == State(sc.Digest(undo), map[], map[AccountWide := 1]);
    assert Names(undo, rev) && undo in log + [rev];
    assert forall r :: r in log + [rev] ==> r == undo || r == rev;
  }

  /** Within one chain object a reinstatement undoes at most one revocation. */
  lemma ReinstatementNamesOne(sc: Scheme, start: Head, log: seq<Record>, d: Record, i: nat, j: nat)
    requires Issued(sc, Resumed(start), log) && i < |log| && j < |log|
    requires log[i].Revocation? && log[j].Revocation? && Names(d, log[i]) && Names(d, log[j])
    ensures i == j
  {
    if i < j { EpochsIdentify(sc, start, log, i, j); }
    if j < i { EpochsIdentify(sc, start, log, j, i); }
  }

  /**
   Revoke, reinstate, resume the chain, revoke again: the second revocation gets the first one's
   epoch, the old reinstatement names it too, and the user is not revoked.
   */
  lemma ResumedRevocationIsLost(sc: Scheme, user: Id, admin: Id, second: Id)
    returns (first: seq<Record>, again: seq<Record>)
    ensures Issued(sc, Resumed(GENESIS_HEAD), first) && NamesOnlyThePast(first)
    ensures Issued(sc, Resumed(HeadAfter(sc, GENESIS_HEAD, first)), again)
    ensures again != [] && RevokesAccount(again[|again| - 1], user) && !IsAccountRevoked(first + again, user)
  {
    hide GENESIS_HEAD;
    var rev := Revocation(AccountWide, user, None, 0, 1, GENESIS_HEAD, admin, Some(second), 0);
    var undo := Reinstatement(AccountWide, user, 1, 1, sc.Digest(rev), admin, second, 0);
    var rev' := Revocation(AccountWide, user, None, 0, 1, sc.Digest(undo), admin, Some(second), 0);
    first, again := [rev, undo], [rev'];
    assert first[..1] == [rev] && [rev][..0] == [] && again[..0] == [];
    assert Issued(sc, Resumed(GENESIS_HEAD), [rev]);
    assert Ran(sc, Resumed(GENESIS_HEAD), first[..1]) == State(sc.Digest(rev), map[AccountWide := 1], map[]);
    assert Revokes([rev], AccountWide) == 1;
    assert Names(undo, rev) && Names(undo, rev') && undo in first + again;
    assert forall r :: r in first + again ==> r == rev || r == undo || r == rev';
  }

  // ---- issuer authority ----

  datatype IssuerInfo = IssuerInfo(sigPub: Bytes, roles: seq<Role>)

  datatype ServedRecord = ServedRecord(bytes: Bytes, sig: Bytes, coSig: Option<Bytes>)

  /** `issuer` resolves an administrator to its directory binding, `checks(key, record, sig)` verifies a signature. */
  datatype Authority = Authority(issuer: Id -> Option<IssuerInfo>, checks: (Bytes, Record, Bytes) -> bool)

  predicate NeedsDualControl(record: Record) { !record.Revocation? || record.scope == AccountWide }

  function CoSignedBy(record: Record): Option<Id> {
    match record
    case Revocation(_, _, _, _, _, _, _, coSigner, _) => coSigner
    case Reinstatement(_, _, _, _, _, _, coSignedBy, _) => Some(coSignedBy)
    case KeyCompromise(_, _, _, _, _, coSignedBy, _) => Some(coSignedBy)
  }

  predicate NarrowsAdmin(rev: Record, user: Id) { rev.Revocation? && rev.user == user && rev.capability == Some(Admin) }

  /** `prefix_is_admin`: in the ceiling, and not taken away by a revocation still in force. */
  predicate IsAdmin(prefix: seq<Record>, user: Id, ceiling: seq<Role>) {
    && Admin in ceiling
    && forall rev :: rev in prefix && NarrowsAdmin(rev, user) ==> exists d :: d in prefix && Names(d, rev)
  }

  /** One signer of a record: resolved, its signature valid, and an administrator by the chain so far. */
  function SignerError(au: Authority, prefix: seq<Record>, record: Record, id: Id, sig: Bytes): Option<TombstoneError> {
    var info := au.issuer(id);
    if info.None? then Some(UnknownIssuer)
    else if !au.checks(info.value.sigPub, record, sig) then Some(BadAuthority)
    else if !IsAdmin(prefix, id, info.value.roles) then Some(NotAdmin)
    else None
  }

  /** `authenticate_authority` */
  function AuthorityError(au: Authority, prefix: seq<Record>, record: Record, r: ServedRecord): Option<TombstoneError> {
    var first := SignerError(au, prefix, record, record.issuedBy, r.sig);
    if first.Some? then first
    else if !NeedsDualControl(record) then None
    else if CoSignedBy(record).None? || r.coSig.None? || CoSignedBy(record).value == record.issuedBy
    then Some(DualControlMissing)
    else SignerError(au, prefix, record, CoSignedBy(record).value, r.coSig.value)
  }

  // ---- who backs a record, said of the records and signatures alone ----

  /** Whatever revocation in `prefix` takes the admin role from `user`, a reinstatement there names it. */
  ghost predicate Unstripped(prefix: seq<Record>, user: Id) {
    forall rev :: rev in prefix && rev.Revocation? && rev.user == user && rev.capability == Some(Admin) ==>
                    Lifted(prefix, rev.scope, user, rev.epoch)
  }

  ghost predicate Lifted(prefix: seq<Record>, scope: Scope, user: Id, epoch: nat) {
    exists d :: d in prefix && d.Reinstatement? && d.scope == scope && d.user == user && d.supersedes == epoch
  }

  /** `id` is known, its key verifies the signature, and it is an administrator after `prefix`. */
  ghost predicate Vouched(au: Authority, prefix: seq<Record>, record: Record, id: Id, sig: Bytes) {
    var info := au.issuer(id);
    && info.Some? && au.checks(info.value.sigPub, record, sig)
    && Admin in info.value.roles && Unstripped(prefix, id)
  }

  /** Another administrator than the issuer has co-signed. */
  ghost predicate CoVouched(au: Authority, prefix: seq<Record>, record: Record, id: Id, coSig: Option<Bytes>) {
    id != record.issuedBy && coSig.Some? && Vouched(au, prefix, record, id, coSig.value)
  }

  /** The issuer vouches for the record and, unless it revokes in one file only, so does its co-signer. */
  ghost predicate Backed(au: Authority, prefix: seq<Record>, record: Record, r: ServedRecord) {
    && Vouched(au, prefix, record, record.issuedBy, r.sig)
    && match record
       case Revocation(Specific(_), _, _, _, _, _, _, _, _) => true
       case Revocation(AccountWide, _, _, _, _, _, _, coSigner, _) =>
         coSigner.Some? && CoVouched(au, prefix, record, coSigner.value, r.coSig)
       case Reinstatement(_, _, _, _, _, _, coSignedBy, _) => CoVouched(au, prefix, record, coSignedBy, r.coSig)
       case KeyCompromise(_, _, _, _, _, coSignedBy, _) => CoVouched(au, prefix, record, coSignedBy, r.coSig)
  }

  /** `id` does not vouch, for the first of the three reasons that applies. */
  ghost predicate Unvouched(au: Authority, prefix: seq<Record>, record: Record, id: Id, sig: Bytes,
                            e: TombstoneError)
  {
    match au.issuer(id)
    case None => e == UnknownIssuer
    case Some(info) =>
      if !au.checks(info.sigPub, record, sig) then e == BadAuthority
      else e == NotAdmin && !(Admin in info.roles && Unstripped(prefix, id))
  }

  /** The issuer does not vouch; or it does, and a co-signature is missing, the issuer's own, or no good. */
  ghost predicate Refused(au: Authority, prefix: seq<Record>, record: Record, r: ServedRecord, e: TombstoneError) {
    || Unvouched(au, prefix, record, record.issuedBy, r.sig, e)
    || (&& Vouched(au, prefix, record, record.issuedBy, r.sig)
        && match record
           case Revocation(Specific(_), _, _, _, _, _, _, _, _) => false
           case Revocation(AccountWide, _, _, _, _, _, _, coSigner, _) =>
             if coSigner.None? then e == DualControlMissing
             else CoRefused(au, prefix, record, coSigner.value, r.coSig, e)
           case Reinstatement(_, _, _, _, _, _, coSignedBy, _) =>
             CoRefused(au, prefix, record, coSignedBy, r.coSig, e)
           case KeyCompromise(_, _, _, _, _, coSignedBy, _) =>
             CoRefused(au, prefix, record, coSignedBy, r.coSig, e))
  }

  ghost predicate CoRefused(au: Authority, prefix: seq<Record>, record: Record, id: Id, coSig: Option<Bytes>,
                            e: TombstoneError)
  {
    if coSig.None? || id == record.issuedBy then e == DualControlMissing
    else Unvouched(au, prefix, record, id, coSig.value, e)
  }

  lemma AdminIsUnstripped(prefix: seq<Record>, user: Id, ceiling: seq<Role>)
    ensures IsAdmin(prefix, user, ceiling) <==> Admin in ceiling && Unstripped(prefix, user)
  {
    if IsAdmin(prefix, user, ceiling) {
      forall rev | rev in prefix && rev.Revocation? && rev.user == user && rev.capability == Some(Admin)
        ensures Lifted(prefix, rev.scope, user, rev.epoch)
      {
        assert NarrowsAdmin(rev, user);
        var d :| d in prefix && Names(d, rev);
      }
    }
    if Admin in ceiling && Unstripped(prefix, user) {
      forall rev | rev in prefix && NarrowsAdmin(rev, user) ensures exists d :: d in prefix && Names(d, rev) {
        assert Lifted(prefix, rev.scope, user, rev.epoch);
        var d :| d in prefix && d.Reinstatement? && d.scope == rev.scope && d.user == user && d.supersedes == rev.epoch;
        assert Names(d, rev);
      }
    }
  }

  lemma SignerExact(au: Authority, prefix: seq<Record>, record: Record, id: Id, sig: Bytes)
    ensures var e := SignerError(au, prefix, record, id, sig);
            && (e.None? <==> Vouched(au, prefix, record, id, sig))
            && (e.Some? ==> Unvouched(au, prefix, record, id, sig, e.value))
  {
    hide IsAdmin, Unstripped;
    if au.issuer(id).Some? { AdminIsUnstripped(prefix, id, au.issuer(id).value.roles); }
  }

  /** The check lets a record pass exactly if it is backed, and otherwise says why it is refused. */
  lemma AuthorityExact(au: Authority, prefix: seq<Record>, record: Record, r: ServedRecord)
    ensures var e := AuthorityError(au, prefix, record, r);
            && (e.None? <==> Backed(au, prefix, record, r))
            && (e.Some? ==> Refused(au, prefix, record, r, e.value))
  {
    hide SignerError, Vouched, Unvouched;
    SignerExact(au, prefix, record, record.issuedBy, r.sig);
    var co := CoSignedBy(record);
    if co.Some? && r.coSig.Some? { SignerExact(au, prefix, record, co.value, r.coSig.value); }
  }

  ghost predicate AllBacked(au: Authority, served: seq<ServedRecord>, log: seq<Record>) {
    |served| == |log| && forall i :: 0 <= i < |log| ==> Backed(au, log[..i], log[i], served[i])
  }

  ghost predicate ReadsServed(sc: Scheme, served: seq<ServedRecord>, log: seq<Record>) {
    |served| == |log| && forall i :: 0 <= i < |log| ==> sc.decode(served[i].bytes) == Some(log[i])
  }

  /** After the good records `log` comes one that does not decode, names another head, or is refused. */
  ghost predicate FailsAfter(sc: Scheme, au: Authority, start: Head, served: seq<ServedRecord>, log: seq<Record>,
                             e: TombstoneError)
  {
    && |log| < |served| && ReadsServed(sc, served[..|log|], log) && Chained(sc, start, log)
    && AllBacked(au, served[..|log|], log)
    && var next := sc.decode(served[|log|].bytes);
       if next.None? then e == Malformed
       else if next.value.prevHead != HeadAfter(sc, start, log) then e == BrokenChain
       else Refused(au, log, next.value, served[|log|], e)
  }

  /**
   `TombstoneSet::verify_authenticated`: accepts exactly contiguous chains from genesis to the anchor
   in which every record is backed, judged by the records before it; the first record that will not do
   decides the error.
   */
  method VerifyAuthenticated(sc: Scheme, au: Authority, served: seq<ServedRecord>, anchored: Head)
    returns (r: Result<seq<Record>, TombstoneError>)
    requires sc.Canonical()
    ensures r.Ok? ==> ReadsServed(sc, served, r.value) && Chained(sc, GENESIS_HEAD, r.value)
    ensures r.Ok? ==> AllBacked(au, served, r.value) && HeadAfter(sc, GENESIS_HEAD, r.value) == anchored
    ensures forall log ::
              ReadsServed(sc, served, log) && Chained(sc, GENESIS_HEAD, log) && AllBacked(au, served, log) ==>
                            r == if HeadAfter(sc, GENESIS_HEAD, log) == anchored then Ok(log) else Err(Gap)
    ensures r == Err(Gap) ==>
              exists log :: ReadsServed(sc, served, log) && Chained(sc, GENESIS_HEAD, log) && AllBacked(au, served, log)
    ensures r.Err? && r.error != Gap ==> exists log :: FailsAfter(sc, au, GENESIS_HEAD, served, log, r.error)
  {
    hide *;
    var head := GENESIS_HEAD;
    var decoded: seq<Record> := [];
    CheckedNone(sc, au, GENESIS_HEAD, served);
    for i := 0 to |served|
      invariant Checked(sc, au, GENESIS_HEAD, served, i, decoded, head)
    {
      var d := sc.decode(served[i].bytes);
      if d.None? || d.value.prevHead != head {
        NotNext(sc, au, GENESIS_HEAD, served, i, decoded, head, if d.None? then Malformed else BrokenChain);
        return Err(if d.None? then Malformed else BrokenChain);
      }
      AuthorityExact(au, decoded, d.value, served[i]);
      var bad := AuthorityError(au, decoded, d.value, served[i]);
      if bad.Some? {
        NotNext(sc, au, GENESIS_HEAD, served, i, decoded, head, bad.value);
        return Err(bad.value);
      }
      CheckedNext(sc, au, GENESIS_HEAD, served, i, decoded, head, d.value);
      head := sc.hash(served[i].bytes);
      decoded := decoded + [d.value];
    }
    CheckedAll(sc, au, GENESIS_HEAD, served, decoded, head);
    return if head != anchored then Err(Gap) else Ok(decoded);
  }

  /** The first `n` served records are in order, and `log` is what they say. */
  ghost predicate Checked(sc: Scheme, au: Authority, start: Head, served: seq<ServedRecord>, n: nat, log: seq<Record>,
                          head: Head)
    requires n <= |served|
  {
    && ReadsServed(sc, served[..n], log) && Chained(sc, start, log)
    && AllBacked(au, served[..n], log) && head == HeadAfter(sc, start, log)
  }

  lemma CheckedNone(sc: Scheme, au: Authority, start: Head, served: seq<ServedRecord>)
    ensures Checked(sc, au, start, served, 0, [], start)
  {
  }

  lemma CheckedNext(sc: Scheme, au: Authority, start: Head, served: seq<ServedRecord>, n: nat, log: seq<Record>,
                    head: Head, next: Record)
    requires n < |served| && Checked(sc, au, start, served, n, log, head) && sc.Canonical()
    requires sc.decode(served[n].bytes) == Some(next) && next.prevHead == head
    requires Backed(au, log, next, served[n])
    ensures Checked(sc, au, start, served, n + 1, log + [next], sc.hash(served[n].bytes))
  {
    hide Backed;
    ChainedNext(sc, start, log, next);
    BackedNext(au, served, log, next, n);
    assert served[..n + 1] == served[..n] + [served[n]];
  }

  /** If the next record is unreadable, unchained or refused, no log passes. */
  lemma NotNext(sc: Scheme, au: Authority, start: Head, served: seq<ServedRecord>, n: nat, log: seq<Record>, head: Head,
                e: TombstoneError)
    requires n < |served| && Checked(sc, au, start, served, n, log, head)
    requires var d := sc.decode(served[n].bytes);
             if d.None? then e == Malformed
             else if d.value.prevHead != head then e == BrokenChain
             else !Backed(au, log, d.value, served[n]) && Refused(au, log, d.value, served[n], e)
    ensures FailsAfter(sc, au, start, served, log, e) && e != Gap
    ensures forall l: seq<Record> ::
              !(ReadsServed(sc, served, l) && Chained(sc, start, l) && AllBacked(au, served, l))
  {
    hide Backed;
    forall l: seq<Record> | ReadsServed(sc, served, l) && Chained(sc, start, l) ensures !AllBacked(au, served, l) {
      ServedPrefix(sc, served, l, log, n);
      assert sc.decode(served[n].bytes) == Some(l[n]) && l[n].prevHead == HeadAfter(sc, start, l[..n]);
      assert !Backed(au, l[..n], l[n], served[n]);
    }
  }

  lemma CheckedAll(sc: Scheme, au: Authority, start: Head, served: seq<ServedRecord>, log: seq<Record>, head: Head)
    requires Checked(sc, au, start, served, |served|, log, head)
    ensures ReadsServed(sc, served, log) && Chained(sc, start, log) && AllBacked(au, served, log)
    ensures forall l: seq<Record> :: ReadsServed(sc, served, l) ==> l == log && HeadAfter(sc, start, l) == head
  {
    hide Backed;
    assert served[..|served|] == served;
    forall l: seq<Record> | ReadsServed(sc, served, l) ensures l == log {
      ServedPrefix(sc, served, l, log, |served|);
      assert l[..|served|] == l;
    }
  }

  lemma ServedPrefix(sc: Scheme, served: seq<ServedRecord>, log: seq<Record>, decoded: seq<Record>, n: nat)
    requires n <= |served| && ReadsServed(sc, served, log) && ReadsServed(sc, served[..n], decoded)
    ensures log[..n] == decoded
  {
    forall i | 0 <= i < n ensures log[i] == decoded[i] { assert served[..n][i] == served[i]; }
  }

  lemma BackedNext(au: Authority, served: seq<ServedRecord>, log: seq<Record>, next: Record, n: nat)
    requires n < |served| && AllBacked(au, served[..n], log) && Backed(au, log, next, served[n])
    ensures AllBacked(au, served[..n + 1], log + [next])
  {
    hide Backed;
    var more := log + [next];
    forall i | 0 <= i <= n ensures Backed(au, more[..i], more[i], served[..n + 1][i]) {
      if i < n {
        assert more[..i] == log[..i] && more[i] == log[i] && served[..n][i] == served[i];
      } else {
        assert more[..n] == log && log[..n] == log;
      }
    }
  }

  /**
   An administrator whose role has been taken away signs nothing that counts, until a reinstatement
   names that revocation; and has no hand in the first one that does, which takes two others.
   */
  lemma LostAuthorityNeedsOthers(au: Authority, served: seq<ServedRecord>, log: seq<Record>, user: Id, i: nat, j: nat)
    requires AllBacked(au, served, log) && i < j < |log| && NarrowsAdmin(log[i], user)
    requires forall k :: 0 <= k < j ==> !Names(log[k], log[i])
    ensures log[j].issuedBy != user
    ensures NeedsDualControl(log[j]) ==> CoSignedBy(log[j]) != Some(user)
    ensures Names(log[j], log[i]) ==>
              log[j].issuedBy != log[j].coSignedBy && log[j].issuedBy != user && log[j].coSignedBy != user
  {
    assert log[..j][i] == log[i] && log[i] in log[..j];
    forall d | d in log[..j] ensures !Names(d, log[i]) {
      var k :| 0 <= k < j && log[k] == d;
    }
    assert Backed(au, log[..j], log[j], served[j]);
  }
}
