/**
 The ideal cache the real one must look like: a list of entries from the least to the most recently
 used, under an optional byte budget and a clock that counts uses.
 */
module Lru {
  import opened Machine
  import opened Wrappers
  import opened BlobKeys

  datatype Item = Item(key: Key, bytes: Bytes, lastUsed: nat)

  datatype State = State(cap: Option<nat>, clock: nat, items: seq<Item>)

  /**
   One call on the cache. `wrote` says whether the backing write of a put succeeded, `readable`
   whether the backing read of a get did; a RAM cache never fails.
   */
  datatype Op =
    | Put(ns: Ns, id: string, sub: u32, bytes: Bytes, wrote: bool)
    | Get(ns: Ns, id: string, sub: u32, readable: bool)
    | Evict(ns: Ns, id: string, sub: u32)
    | EvictPrefix(ns: Ns, id: string)
    | SetCap(cap: nat)
    | Clear

  function Total(items: seq<Item>): nat {
    if items == [] then 0 else |items[0].bytes| + Total(items[1..])
  }

  /** The entry held under each key. */
  function Table(items: seq<Item>): map<Key, Item> {
    if items == [] then map[] else map[items[0].key := items[0]] + Table(items[1..])
  }

  function Lookup(items: seq<Item>, key: Key): Option<Bytes> {
    if key in Table(items) then Some(Table(items)[key].bytes) else None
  }

  /** What remains after the keys in `gone` are removed. */
  function Minus(items: seq<Item>, gone: set<Key>): seq<Item> {
    if items == [] then []
    else if items[0].key in gone then Minus(items[1..], gone)
    else [items[0]] + Minus(items[1..], gone)
  }

  /** Drop from the old end until `extra` more bytes fit. */
  function Shrunk(items: seq<Item>, cap: Option<nat>, extra: nat): seq<Item> {
    if cap.Some? && Total(items) + extra > cap.value && items != [] then Shrunk(items[1..], cap, extra) else items
  }

  /** The held keys of one file in one namespace. */
  function FileKeys(items: seq<Item>, ns: Ns, id: string): set<Key> {
    set k | k in Table(items) && k.ns == ns && k.id == id
  }

  /** Move or add `key` to the recent end. */
  function Used(s: State, rest: seq<Item>, key: Key, bytes: Bytes): State {
    s.(clock := s.clock + 1, items := rest + [Item(key, bytes, s.clock + 1)])
  }

  function StepPut(s: State, key: Key, bytes: Bytes, wrote: bool): State {
    var rest := Minus(s.items, {key});
    if s.cap.Some? && |bytes| > s.cap.value then s.(items := rest)
    else
      var kept := Shrunk(rest, s.cap, |bytes|);
      if wrote then Used(s, kept, key, bytes) else s.(items := kept)
  }

  function StepGet(s: State, key: Key, readable: bool): State {
    match Lookup(s.items, key)
    case None => s
    case Some(bytes) =>
      if readable then Used(s, Minus(s.items, {key}), key, bytes) else s.(items := Minus(s.items, {key}))
  }

  function Step(s: State, op: Op): State {
    match op
    case Put(ns, id, sub, bytes, wrote) =>
      var k := Canonical(ns, id, sub);
      if k.Some? then StepPut(s, k.value, bytes, wrote) else s
    case Get(ns, id, sub, readable) =>
      var k := Canonical(ns, id, sub);
      if k.Some? then StepGet(s, k.value, readable) else s
    case Evict(ns, id, sub) =>
      var k := Canonical(ns, id, sub);
      if k.Some? then s.(items := Minus(s.items, {k.value})) else s
    case EvictPrefix(ns, id) => s.(items := Minus(s.items, FileKeys(s.items, ns, Lowercase(id))))
    case SetCap(cap) => s.(cap := Some(cap), items := Shrunk(s.items, Some(cap), 0))
    case Clear => s.(items := [])
  }

  // ---- capacity eviction ----

  ghost predicate FitsIn(items: seq<Item>, cap: Option<nat>, extra: nat) {
    cap.Some? ==> Total(items) + extra <= cap.value
  }

  /**
   Capacity eviction removes the shortest prefix of the recency list that makes room, and it always
   does make room when the newcomer alone fits.
   */
  lemma {:induction false} ShrunkIsShortest(items: seq<Item>, cap: Option<nat>, extra: nat) returns (n: nat)
    requires cap.Some? ==> extra <= cap.value
    ensures n <= |items| && Shrunk(items, cap, extra) == items[n..] && FitsIn(items[n..], cap, extra)
    ensures forall m :: 0 <= m < n ==> !FitsIn(items[m..], cap, extra)
  {
    if FitsIn(items, cap, extra) || items == [] {
      n := 0;
    } else {
      n := ShrunkIsShortest(items[1..], cap, extra);
      assert items[1..][n..] == items[n + 1..];
      n := n + 1;
      forall m | 0 <= m < n ensures !FitsIn(items[m..], cap, extra) {
        if m > 0 { assert items[m..] == items[1..][m - 1..]; }
      }
    }
  }

  lemma ShrunkStep(items: seq<Item>, cap: Option<nat>, extra: nat)
    ensures FitsIn(items, cap, extra) || items == [] ==> Shrunk(items, cap, extra) == items
    ensures !FitsIn(items, cap, extra) && items != [] ==> Shrunk(items, cap, extra) == Shrunk(items[1..], cap, extra)
  {
  }

  // ---- what a call leaves, said of the items themselves ----

  /** The same items in the same order, but for the one under `key`, if there was one. */
  ghost predicate Without(was: seq<Item>, now: seq<Item>, key: Key) {
    || (now == was && forall j :: 0 <= j < |was| ==> was[j].key != key)
    || (exists i :: 0 <= i < |was| && was[i].key == key && now == was[..i] + was[i + 1..])
  }

  /** The longest recent end of the list that leaves room for `extra` more bytes. */
  ghost predicate Trimmed(was: seq<Item>, now: seq<Item>, cap: Option<nat>, extra: nat) {
    exists n :: TrimmedBy(was, now, cap, extra, n)
  }

  /** The first `n` are gone, and with one of them fewer gone there would be no room. */
  ghost predicate TrimmedBy(was: seq<Item>, now: seq<Item>, cap: Option<nat>, extra: nat, n: nat) {
    && n <= |was| && now == was[n..] && FitsIn(now, cap, extra)
    && forall m :: 0 <= m < n ==> !FitsIn(was[m..], cap, extra)
  }

  /** `Without`, then `Trimmed`. */
  ghost predicate MadeRoom(was: seq<Item>, now: seq<Item>, key: Key, cap: Option<nat>, extra: nat) {
    exists rest :: Without(was, rest, key) && Trimmed(rest, now, cap, extra)
  }

  /**
   After a put of `key`: its old entry is gone; a blob that fits the budget is the newest entry if it was
   stored, and the oldest others have gone until there was room for it; a larger one is skipped.
   */
  ghost predicate PutLeaves(was: State, now: State, key: Key, bytes: Bytes, stored: bool) {
    var n, fits := |now.items| - 1, was.cap.Some? ==> |bytes| <= was.cap.value;
    && now.cap == was.cap
    && (!fits ==> Without(was.items, now.items, key) && now.clock == was.clock)
    && (fits && !stored ==> MadeRoom(was.items, now.items, key, was.cap, |bytes|) && now.clock == was.clock)
    && (fits && stored ==>
          && n >= 0 && now.items[n] == Item(key, bytes, was.clock + 1) && now.clock == was.clock + 1
          && MadeRoom(was.items, now.items[..n], key, was.cap, |bytes|))
  }

  /** After a get of `key`: a hit is the newest entry; an entry that could not be read is gone. */
  ghost predicate GetLeaves(was: State, now: State, key: Key, r: Option<Bytes>, fault: bool) {
    var n := |now.items| - 1;
    && now.cap == was.cap
    && (r.None? && !fault ==> now == was)
    && (r.None? && fault ==> Without(was.items, now.items, key) && now.clock == was.clock)
    && (r.Some? ==>
          && n >= 0 && now.items[n] == Item(key, r.value, was.clock + 1) && now.clock == was.clock + 1
          && Without(was.items, now.items[..n], key))
  }

  lemma {:induction false} MinusIsWithout(items: seq<Item>, lo: nat, clock: nat, key: Key)
    requires Ordered(items, lo, clock)
    ensures Without(items, Minus(items, {key}), key)
  {
    if key in Table(items) {
      var i := MinusCuts(items, lo, clock, key);
    } else {
      MinusAbsent(items, key);
      forall j | 0 <= j < |items| ensures items[j].key != key { TableOf(items, lo, clock, j); }
    }
  }

  lemma {:induction false} MinusCuts(items: seq<Item>, lo: nat, clock: nat, key: Key) returns (i: nat)
    requires Ordered(items, lo, clock) && key in Table(items)
    ensures i < |items| && items[i].key == key && Minus(items, {key}) == items[..i] + items[i + 1..]
  {
    if items[0].key == key {
      i := 0;
      MinusAbsent(items[1..], key);
    } else {
      i := MinusCuts(items[1..], items[0].lastUsed, clock, key);
      assert items[..i + 1] == [items[0]] + items[1..][..i] && items[i + 2..] == items[1..][i + 1..];
      i := i + 1;
    }
  }

  lemma ShrunkIsTrimmed(items: seq<Item>, cap: Option<nat>, extra: nat)
    requires cap.Some? ==> extra <= cap.value
    ensures Trimmed(items, Shrunk(items, cap, extra), cap, extra)
  {
    hide Shrunk, FitsIn;
    var n := ShrunkIsShortest(items, cap, extra);
    assert TrimmedBy(items, Shrunk(items, cap, extra), cap, extra, n);
  }

  /** Nothing is dropped from a list that has the room. */
  lemma FittingStays(was: seq<Item>, now: seq<Item>, cap: Option<nat>, extra: nat)
    requires Trimmed(was, now, cap, extra) && FitsIn(was, cap, extra)
    ensures now == was
  {
    hide FitsIn;
    assert was[0..] == was;
    var n: nat :| TrimmedBy(was, now, cap, extra, n);
  }

  // ---- tables ----

  lemma {:induction false} TableJoin(a: seq<Item>, b: seq<Item>)
    ensures Table(a + b) == Table(a) + Table(b)
  {
    if a == [] {
      assert a + b == b;
    } else {
      assert (a + b)[1..] == a[1..] + b;
      TableJoin(a[1..], b);
      MergeAssociates(map[a[0].key := a[0]], Table(a[1..]), Table(b));
    }
  }

  lemma MergeAssociates<K, V>(a: map<K, V>, b: map<K, V>, c: map<K, V>)
    ensures (a + b) + c == a + (b + c)
  {
  }

  lemma {:induction false} TableMinus(items: seq<Item>, gone: set<Key>)
    ensures Table(Minus(items, gone)) == Table(items) - gone
  {
    if items != [] {
      TableMinus(items[1..], gone);
      if items[0].key !in gone { assert Minus(items, gone)[1..] == Minus(items[1..], gone); }
    }
  }

  /** Removals compose. */
  lemma {:induction false} MinusTwice(items: seq<Item>, a: set<Key>, b: set<Key>)
    ensures Minus(Minus(items, a), b) == Minus(items, a + b)
  {
    if items != [] {
      MinusTwice(items[1..], a, b);
      if items[0].key !in a { assert Minus(items, a)[1..] == Minus(items[1..], a); }
    }
  }

  lemma {:induction false} MinusNone(items: seq<Item>)
    ensures Minus(items, {}) == items
  {
    if items != [] { MinusNone(items[1..]); }
  }

  lemma {:induction false} MinusAll(items: seq<Item>, gone: set<Key>)
    requires Table(items).Keys <= gone
    ensures Minus(items, gone) == []
  {
    if items != [] { MinusAll(items[1..], gone); }
  }

  lemma TableSuffix(items: seq<Item>, n: nat)
    requires n <= |items|
    ensures forall k :: k in Table(items[n..]) ==> k in Table(items) && Table(items)[k] == Table(items[n..])[k]
  {
    TableJoin(items[..n], items[n..]);
    assert items == items[..n] + items[n..];
  }

  lemma {:induction false} TotalJoin(a: seq<Item>, b: seq<Item>)
    ensures Total(a + b) == Total(a) + Total(b)
  {
    if a == [] {
      assert a + b == b;
    } else {
      assert (a + b)[1..] == a[1..] + b;
      TotalJoin(a[1..], b);
    }
  }

  /** Removing a key frees exactly the bytes held under it. */
  lemma {:induction false} TotalMinus(items: seq<Item>, lo: nat, clock: nat, key: Key)
    requires Ordered(items, lo, clock)
    ensures Total(items) == Total(Minus(items, {key})) + if key in Table(items) then |Table(items)[key].bytes| else 0
  {
    if items != [] {
      TotalMinus(items[1..], items[0].lastUsed, clock, key);
      if items[0].key != key { assert Minus(items, {key})[1..] == Minus(items[1..], {key}); }
    }
  }

  lemma {:induction false} MinusAbsent(items: seq<Item>, key: Key)
    requires key !in Table(items)
    ensures Minus(items, {key}) == items
  {
    if items != [] { MinusAbsent(items[1..], key); }
  }

  /** The least recently used entry is the head. */
  lemma HeadIsOldest(items: seq<Item>, lo: nat, clock: nat)
    requires Ordered(items, lo, clock) && items != []
    ensures items[0].key in Table(items) && Table(items)[items[0].key] == items[0]
    ensures forall k :: k in Table(items) && k != items[0].key ==> Table(items)[k].lastUsed > items[0].lastUsed
    ensures Minus(items, {items[0].key}) == items[1..]
  {
    MinusAbsent(items[1..], items[0].key);
    forall k | k in Table(items) && k != items[0].key ensures Table(items)[k].lastUsed > items[0].lastUsed {
      TableHolds(items[1..], items[0].lastUsed, clock, k);
    }
  }

  // ---- lists in order of use ----

  /** Stamps grow along the list, within `(lo, clock]`, and no key repeats. */
  ghost predicate Ordered(items: seq<Item>, lo: nat, clock: nat) {
    items == [] ||
    (lo < items[0].lastUsed <= clock && items[0].key !in Table(items[1..])
     && Ordered(items[1..], items[0].lastUsed, clock))
  }

  lemma {:induction false} OrderedFrom(items: seq<Item>, lo: nat, lo': nat, clock: nat)
    requires Ordered(items, lo, clock) && lo' <= lo
    ensures Ordered(items, lo', clock)
  {
  }

  lemma {:induction false} OrderedMinus(items: seq<Item>, lo: nat, clock: nat, gone: set<Key>)
    requires Ordered(items, lo, clock)
    ensures Ordered(Minus(items, gone), lo, clock)
  {
    if items != [] {
      OrderedMinus(items[1..], items[0].lastUsed, clock, gone);
      TableMinus(items[1..], gone);
      if items[0].key in gone {
        OrderedFrom(Minus(items[1..], gone), items[0].lastUsed, lo, clock);
      } else {
        assert Minus(items, gone)[1..] == Minus(items[1..], gone);
      }
    }
  }

  lemma {:induction false} OrderedSnoc(items: seq<Item>, lo: nat, clock: nat, item: Item)
    requires Ordered(items, lo, clock) && lo <= clock && item.key !in Table(items) && item.lastUsed == clock + 1
    ensures Ordered(items + [item], lo, clock + 1)
  {
    if items == [] {
      assert ([] + [item])[1..] == [];
    } else {
      assert (items + [item])[1..] == items[1..] + [item];
      OrderedSnoc(items[1..], items[0].lastUsed, clock, item);
      TableJoin(items[1..], [item]);
    }
  }

  lemma {:induction false} OrderedSuffix(items: seq<Item>, lo: nat, clock: nat, n: nat)
    requires Ordered(items, lo, clock) && n <= |items|
    ensures Ordered(items[n..], lo, clock)
  {
    if n > 0 {
      OrderedSuffix(items[1..], items[0].lastUsed, clock, n - 1);
      assert items[1..][n - 1..] == items[n..];
      OrderedFrom(items[n..], items[0].lastUsed, lo, clock);
    }
  }

  /** In a list in order, the table is a mere index into it. */
  lemma {:induction false} TableHolds(items: seq<Item>, lo: nat, clock: nat, k: Key)
    requires Ordered(items, lo, clock)
    ensures k in Table(items) ==>
              Table(items)[k] in items && Table(items)[k].key == k && lo < Table(items)[k].lastUsed <= clock
  {
    if items != [] { TableHolds(items[1..], items[0].lastUsed, clock, k); }
  }

  lemma {:induction false} TableOf(items: seq<Item>, lo: nat, clock: nat, i: nat)
    requires Ordered(items, lo, clock) && i < |items|
    ensures items[i].key in Table(items) && Table(items)[items[i].key] == items[i]
  {
    if i > 0 { TableOf(items[1..], items[0].lastUsed, clock, i - 1); }
  }

  /** Looking a key up finds the bytes of the item under it, and finds nothing exactly if there is no such item. */
  lemma LookupFinds(items: seq<Item>, lo: nat, clock: nat, key: Key, bytes: Bytes)
    requires Ordered(items, lo, clock)
    ensures Lookup(items, key) == Some(bytes)
            <==> exists i :: 0 <= i < |items| && items[i].key == key && items[i].bytes == bytes
  {
    hide Table, Ordered;
    if Lookup(items, key) == Some(bytes) {
      TableHolds(items, lo, clock, key);
      var i :| 0 <= i < |items| && items[i] == Table(items)[key];
    }
    forall i | 0 <= i < |items| && items[i].key == key && items[i].bytes == bytes
      ensures Lookup(items, key) == Some(bytes)
    {
      TableOf(items, lo, clock, i);
    }
  }

  /** The position of an entry says when it was last used, relative to every other. */
  lemma {:induction false} StampsAscend(items: seq<Item>, lo: nat, clock: nat, i: nat, j: nat)
    requires Ordered(items, lo, clock) && i < j < |items|
    ensures items[i].lastUsed < items[j].lastUsed && items[i].key != items[j].key
  {
    if i > 0 {
      StampsAscend(items[1..], items[0].lastUsed, clock, i - 1, j - 1);
    } else {
      TableOf(items[1..], items[0].lastUsed, clock, j - 1);
      TableHolds(items[1..], items[0].lastUsed, clock, items[j].key);
    }
  }
}
