/** What the cache can answer after any sequence of calls. */
module CacheRuns {
  import opened Machine
  import opened Wrappers
  import opened BlobKeys
  import opened Lru

  function Run(cap: Option<nat>, ops: seq<Op>): State {
    if ops == [] then State(cap, 0, []) else Step(Run(cap, ops[..|ops| - 1]), ops[|ops| - 1])
  }

  /** The entry a put or a get is about. */
  function Target(op: Op): Option<Key> {
    match op
    case Put(ns, id, sub, _, _) => Canonical(ns, id, sub)
    case Get(ns, id, sub, _) => Canonical(ns, id, sub)
    case _ => None
  }

  /** Whether the call takes `k` out of the cache, if it was there. */
  predicate Removes(op: Op, k: Key) {
    match op
    case Put(_, _, _, _, wrote) => Target(op) == Some(k) && !wrote
    case Get(_, _, _, readable) => Target(op) == Some(k) && !readable
    case Evict(ns, id, sub) => Canonical(ns, id, sub) == Some(k)
    case EvictPrefix(ns, id) => k.ns == ns && k.id == Lowercase(id)
    case SetCap(_) => false
    case Clear => true
  }

  /** The bytes of the latest put of `k`, if nothing has removed it since. */
  function LastStored(ops: seq<Op>, k: Key): Option<Bytes> {
    if ops == [] then None
    else
      var op := ops[|ops| - 1];
      if Removes(op, k) then None
      else if op.Put? && Target(op) == Some(k) then Some(op.bytes)
      else LastStored(ops[..|ops| - 1], k)
  }

  /** How many calls had been made once `k` was last put or got; 0 if it never was. */
  function LastTouch(ops: seq<Op>, k: Key): (n: nat)
    ensures n <= |ops|
  {
    if ops == [] then 0
    else if Target(ops[|ops| - 1]) == Some(k) then |ops|
    else LastTouch(ops[..|ops| - 1], k)
  }

  ghost predicate InOrder(s: State) { Ordered(s.items, 0, s.clock) }

  /** No call breaks the recency order. */
  lemma StepInOrder(s: State, op: Op)
    requires InOrder(s)
    ensures InOrder(Step(s, op)) && s.clock <= Step(s, op).clock <= s.clock + 1
  {
    hide ValidatedKey, Minus, Table, Shrunk;
    match op {
      case Put(ns, id, sub, bytes, wrote) =>
        var k := Canonical(ns, id, sub);
        if k.Some? {
          RemoveInOrder(s.items, s.clock, {k.value});
          ShrinkInOrder(Minus(s.items, {k.value}), s.cap, |bytes|, s.clock);
          if wrote && !(s.cap.Some? && |bytes| > s.cap.value) {
            OrderedSnoc(Shrunk(Minus(s.items, {k.value}), s.cap, |bytes|), 0, s.clock,
                        Item(k.value, bytes, s.clock + 1));
          }
        }
      case Get(ns, id, sub, readable) =>
        var k := Canonical(ns, id, sub);
        if k.Some? && Lookup(s.items, k.value).Some? {
          RemoveInOrder(s.items, s.clock, {k.value});
          OrderedSnoc(Minus(s.items, {k.value}), 0, s.clock,
                      Item(k.value, Lookup(s.items, k.value).value, s.clock + 1));
        }
      case Evict(ns, id, sub) =>
        var k := Canonical(ns, id, sub);
        if k.Some? { RemoveInOrder(s.items, s.clock, {k.value}); }
      case EvictPrefix(ns, id) => RemoveInOrder(s.items, s.clock, FileKeys(s.items, ns, Lowercase(id)));
      case SetCap(cap) => ShrinkInOrder(s.items, Some(cap), 0, s.clock);
      case Clear =>
    }
  }

  lemma RemoveInOrder(items: seq<Item>, clock: nat, gone: set<Key>)
    requires Ordered(items, 0, clock)
    ensures Ordered(Minus(items, gone), 0, clock) && Table(Minus(items, gone)) == Table(items) - gone
  {
    OrderedMinus(items, 0, clock, gone);
    TableMinus(items, gone);
  }

  lemma {:induction false} ShrinkInOrder(items: seq<Item>, cap: Option<nat>, extra: nat, clock: nat)
    requires Ordered(items, 0, clock)
    ensures var kept := Shrunk(items, cap, extra);
            && Ordered(kept, 0, clock)
            && forall k :: k in Table(kept) ==> k in Table(items) && Table(items)[k] == Table(kept)[k]
  {
    if Shrunk(items, cap, extra) != items {
      OrderedSuffix(items, 0, clock, 1);
      ShrinkInOrder(items[1..], cap, extra, clock);
      TableSuffix(items, 1);
    }
  }

  /** The call stamped `k`: it put it, or found it. */
  ghost predicate Stamps(s: State, op: Op, k: Key) {
    var now, then' := Table(Step(s, op).items), Table(s.items);
    && k in now && now[k].lastUsed == s.clock + 1 == Step(s, op).clock
    && (op.Put? ==> now[k].bytes == op.bytes)
    && (!op.Put? ==> k in then' && now[k].bytes == then'[k].bytes)
  }

  /** A call never invents an entry: what it holds was put or found now, or was already there, as it was. */
  lemma StepKeeps(s: State, op: Op, k: Key)
    requires InOrder(s) && k in Table(Step(s, op).items)
    ensures !Removes(op, k)
    ensures Target(op) == Some(k) ==> Stamps(s, op, k)
    ensures Target(op) != Some(k) ==> k in Table(s.items) && Table(s.items)[k] == Table(Step(s, op).items)[k]
  {
    hide ValidatedKey, Minus, Shrunk, Ordered;
    match op {
      case Put(ns, id, sub, bytes, wrote) =>
        var key := Canonical(ns, id, sub);
        if key.Some? {
          RemoveInOrder(s.items, s.clock, {key.value});
          var rest := Minus(s.items, {key.value});
          ShrinkInOrder(rest, s.cap, |bytes|, s.clock);
          var kept := Shrunk(rest, s.cap, |bytes|);
          AppendTable(kept, Item(key.value, bytes, s.clock + 1));
        }
      case Get(ns, id, sub, readable) =>
        var key := Canonical(ns, id, sub);
        if key.Some? && Lookup(s.items, key.value).Some? {
          RemoveInOrder(s.items, s.clock, {key.value});
          AppendTable(Minus(s.items, {key.value}), Item(key.value, Lookup(s.items, key.value).value, s.clock + 1));
        }
      case Evict(ns, id, sub) =>
        var key := Canonical(ns, id, sub);
        if key.Some? { RemoveInOrder(s.items, s.clock, {key.value}); }
      case EvictPrefix(ns, id) => RemoveInOrder(s.items, s.clock, FileKeys(s.items, ns, Lowercase(id)));
      case SetCap(cap) => ShrinkInOrder(s.items, Some(cap), 0, s.clock);
      case Clear =>
    }
  }

  /** Every other key holds what it did, or nothing any more; without a budget none is lost. */
  ghost predicate OthersKept(was: State, now: State, k: Key) {
    forall j :: j != k ==>
                  || Lookup(now.items, j) == Lookup(was.items, j)
                  || (was.cap.Some? && Lookup(now.items, j) == None)
  }

  /** A put that was written holds its blob, unless the blob alone is over the budget: then nothing. */
  lemma PutHolds(s: State, k: Key, bytes: Bytes)
    requires InOrder(s)
    ensures var now := StepPut(s, k, bytes, true);
            && Lookup(now.items, k) == (if s.cap.Some? && |bytes| > s.cap.value then None else Some(bytes))
            && OthersKept(s, now, k)
  {
    hide Minus, Ordered, Table;
    RemoveInOrder(s.items, s.clock, {k});
    var rest := Minus(s.items, {k});
    ShrinkInOrder(rest, s.cap, |bytes|, s.clock);
    AppendTable(Shrunk(rest, s.cap, |bytes|), Item(k, bytes, s.clock + 1));
  }

  /** A get that could be read changes no entry but for its stamp. */
  lemma GetKeeps(s: State, k: Key)
    requires InOrder(s)
    ensures forall j :: Lookup(StepGet(s, k, true).items, j) == Lookup(s.items, j)
  {
    hide Minus, Ordered, Table;
    RemoveInOrder(s.items, s.clock, {k});
    if Lookup(s.items, k).Some? {
      AppendTable(Minus(s.items, {k}), Item(k, Lookup(s.items, k).value, s.clock + 1));
    }
  }

  lemma AppendTable(items: seq<Item>, item: Item)
    ensures Table(items + [item]) == Table(items)[item.key := item]
  {
    TableJoin(items, [item]);
  }

  /** Without a budget, only a removal takes an entry out. */
  lemma StepForgetsNothing(s: State, op: Op, k: Key)
    requires InOrder(s) && s.cap == None && !op.SetCap? && !Removes(op, k)
    requires k in Table(s.items) || (op.Put? && Target(op) == Some(k))
    ensures k in Table(Step(s, op).items)
  {
    hide ValidatedKey, Minus, Ordered, Table;
    match op {
      case Put(ns, id, sub, bytes, wrote) =>
        var key := Canonical(ns, id, sub);
        if key.Some? {
          RemoveInOrder(s.items, s.clock, {key.value});
          AppendTable(Minus(s.items, {key.value}), Item(key.value, bytes, s.clock + 1));
        }
      case Get(ns, id, sub, readable) =>
        var key := Canonical(ns, id, sub);
        if key.Some? && Lookup(s.items, key.value).Some? {
          RemoveInOrder(s.items, s.clock, {key.value});
          AppendTable(Minus(s.items, {key.value}), Item(key.value, Lookup(s.items, key.value).value, s.clock + 1));
        }
      case Evict(ns, id, sub) =>
        var key := Canonical(ns, id, sub);
        if key.Some? { RemoveInOrder(s.items, s.clock, {key.value}); }
      case EvictPrefix(ns, id) => RemoveInOrder(s.items, s.clock, FileKeys(s.items, ns, Lowercase(id)));
      case Clear =>
    }
  }

  lemma {:induction false} RunInOrder(cap: Option<nat>, ops: seq<Op>)
    ensures InOrder(Run(cap, ops))
  {
    if ops != [] {
      RunInOrder(cap, ops[..|ops| - 1]);
      StepInOrder(Run(cap, ops[..|ops| - 1]), ops[|ops| - 1]);
    }
  }

  /**
   After any calls, under any budget and any disk failures, an entry is either absent or holds the
   bytes of the latest put of its key, with no removal since.
   */
  lemma {:induction false} CacheIsHonest(cap: Option<nat>, ops: seq<Op>, k: Key)
    ensures var r := Lookup(Run(cap, ops).items, k); r == None || r == LastStored(ops, k)
  {
    if ops != [] {
      var before, op := ops[..|ops| - 1], ops[|ops| - 1];
      CacheIsHonest(cap, before, k);
      RunInOrder(cap, before);
      if Lookup(Run(cap, ops).items, k).Some? {
        hide Step, Canonical;
        StepKeeps(Run(cap, before), op, k);
      }
    }
  }

  /** Without a budget nothing is forgotten: the cache holds exactly what was stored and not removed. */
  lemma {:induction false} UncappedCacheIsExact(ops: seq<Op>, k: Key)
    requires forall i :: 0 <= i < |ops| ==> !ops[i].SetCap?
    ensures Run(None, ops).cap == None && Lookup(Run(None, ops).items, k) == LastStored(ops, k)
  {
    if ops != [] {
      var before, op := ops[..|ops| - 1], ops[|ops| - 1];
      UncappedCacheIsExact(before, k);
      CacheIsHonest(None, ops, k);
      RunInOrder(None, before);
      if LastStored(ops, k).Some? { StepForgetsNothing(Run(None, before), op, k); }
    }
  }

  lemma {:induction false} ClockGrows(cap: Option<nat>, ops: seq<Op>, m: nat, n: nat)
    requires m <= n <= |ops|
    ensures Run(cap, ops[..m]).clock <= Run(cap, ops[..n]).clock
    decreases n
  {
    if m < n {
      ClockGrows(cap, ops, m, n - 1);
      RunInOrder(cap, ops[..n - 1]);
      assert ops[..n][..n - 1] == ops[..n - 1];
      StepInOrder(Run(cap, ops[..n - 1]), ops[n - 1]);
    }
  }

  lemma Prefixes(ops: seq<Op>, n: nat)
    requires 1 <= n < |ops|
    ensures ops[..|ops| - 1][..n] == ops[..n] && ops[..|ops| - 1][..n - 1] == ops[..n - 1]
  {
  }

  /** A held entry carries the clock of the call that last touched it. */
  lemma {:induction false} StampIsLastTouch(cap: Option<nat>, ops: seq<Op>, k: Key)
    requires k in Table(Run(cap, ops).items)
    ensures var n := LastTouch(ops, k);
            && n >= 1 && Table(Run(cap, ops).items)[k].lastUsed == Run(cap, ops[..n]).clock
            && Run(cap, ops[..n - 1]).clock < Run(cap, ops[..n]).clock
  {
    if ops != [] {
      hide Step, Canonical, Table, InOrder;
      var before, op := ops[..|ops| - 1], ops[|ops| - 1];
      RunInOrder(cap, before);
      StepKeeps(Run(cap, before), op, k);
      assert Run(cap, ops) == Step(Run(cap, before), op);
      assert LastTouch(ops, k) == if Target(op) == Some(k) then |ops| else LastTouch(before, k);
      hide Run, LastTouch, Target;
      assert ops[..|ops|] == ops;
      if Target(op) != Some(k) {
        StampIsLastTouch(cap, before, k);
        Prefixes(ops, LastTouch(before, k));
      }
    }
  }

  /**
   The list is in order of last use, so the head that capacity eviction takes is the entry whose last
   put or hit lies furthest back.
   */
  lemma ListIsByLastUse(cap: Option<nat>, ops: seq<Op>, i: nat, j: nat)
    requires i < j < |Run(cap, ops).items|
    ensures LastTouch(ops, Run(cap, ops).items[i].key) < LastTouch(ops, Run(cap, ops).items[j].key)
  {
    var s := Run(cap, ops);
    RunInOrder(cap, ops);
    hide Run;
    TableOf(s.items, 0, s.clock, i);
    TableOf(s.items, 0, s.clock, j);
    StampsAscend(s.items, 0, s.clock, i, j);
    var a, b := s.items[i].key, s.items[j].key;
    StampIsLastTouch(cap, ops, a);
    StampIsLastTouch(cap, ops, b);
    if LastTouch(ops, b) <= LastTouch(ops, a) { ClockGrows(cap, ops, LastTouch(ops, b), LastTouch(ops, a)); }
  }
}
