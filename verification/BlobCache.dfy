/**
 The bounded ciphertext cache (blob_cache.rs). Every method is proved against one step of the ideal
 list in `Lru`, on both backends; what the file system may do is left to chance.
 */
module BlobCache {
  import opened Machine
  import opened Wrappers
  import opened BlobKeys
  import opened Lru

  datatype Entry = Entry(sizeBytes: nat, lastUsed: nat)

  /** `files` is the content of the cache's own directory. */
  datatype Backend = Disk(files: map<string, Bytes>) | Memory(blobs: map<Key, Bytes>)

  datatype IoError = InvalidInput | WriteFailed

  function IndexOf(table: map<Key, Item>): map<Key, Entry> {
    map k | k in table :: Entry(|table[k].bytes|, table[k].lastUsed)
  }

  function BytesOf(table: map<Key, Item>): map<Key, Bytes> {
    map k | k in table :: table[k].bytes
  }

  /** RAM holds exactly the tracked bytes; a tracked file holds its bytes unless it has been lost. */
  ghost predicate Backs(table: map<Key, Item>, backend: Backend) {
    match backend
    case Memory(blobs) => blobs == BytesOf(table)
    case Disk(files) => forall k :: k in table && BlobFilename(k) in files ==> files[BlobFilename(k)] == table[k].bytes
  }

  ghost predicate AllCanonical(table: map<Key, Item>) { forall k :: k in table ==> IsCanonical(k) }

  /** The bookkeeping describes exactly `items`. */
  ghost predicate Coherent(items: seq<Item>, tick: nat, index: map<Key, Entry>, totalBytes: nat) {
    && Ordered(items, 0, tick) && index == IndexOf(Table(items))
    && AllCanonical(Table(items)) && totalBytes == Total(items)
  }

  /** The backend after deleting one key's bytes; the file itself may survive. */
  ghost predicate Deleted(key: Key, was: Backend, now: Backend) {
    match was
    case Memory(blobs) => now == Memory(blobs - {key})
    case Disk(files) => now == was || now == Disk(files - {BlobFilename(key)})
  }

  lemma BacksWithout(table: map<Key, Item>, key: Key, was: Backend, now: Backend)
    requires Backs(table, was) && Deleted(key, was, now)
    ensures Backs(table - {key}, now)
  {
    if was.Memory? { assert BytesOf(table - {key}) == BytesOf(table) - {key}; }
  }

  /** Writing one entry's file changes no other entry, since canonical keys have their own files. */
  lemma BacksWrite(table: map<Key, Item>, item: Item, files: map<string, Bytes>, files': map<string, Bytes>)
    requires AllCanonical(table) && IsCanonical(item.key) && item.key !in table && Backs(table, Disk(files))
    requires forall f :: f in files' && f != BlobFilename(item.key) ==> f in files && files[f] == files'[f]
    ensures Backs(table, Disk(files'))
    ensures BlobFilename(item.key) in files' && files'[BlobFilename(item.key)] == item.bytes
            ==> Backs(table[item.key := item], Disk(files'))
  {
    forall k | k in table ensures BlobFilename(k) != BlobFilename(item.key) {
      if BlobFilename(k) == BlobFilename(item.key) { FilenameInjective(k, item.key); }
    }
  }

  lemma IndexEmpty(items: seq<Item>, clock: nat)
    requires Ordered(items, 0, clock)
    ensures IndexOf(Table(items)) == map[] <==> items == []
  {
    if items != [] { assert items[0].key in IndexOf(Table(items)); }
  }

  class BlobCache {
    var backend: Backend
    var cap: Option<nat>
    var totalBytes: nat
    var tick: nat
    var index: map<Key, Entry>
    /** The ideal list. */
    ghost var items: seq<Item>
    /** How many reads and writes of tracked bytes have failed. */
    ghost var faults: nat

    ghost predicate Consistent()
      reads this
    {
      Coherent(items, tick, index, totalBytes) && Backs(Table(items), backend)
    }

    ghost predicate Valid()
      reads this
    {
      Consistent() && (cap.Some? ==> totalBytes <= cap.value)
    }

    ghost function View(): State
      reads this
    {
      State(cap, tick, items)
    }

    /** `open_located` in RAM, or on a freshly wiped directory. */
    constructor Open(cap: Option<nat>, disk: bool)
      ensures Valid() && View() == State(cap, 0, []) && backend.Disk? == disk && faults == 0
    {
      this.cap, totalBytes, tick, index, items, faults := cap, 0, 0, map[], [], 0;
      backend := if disk then Disk(map[]) else Memory(map[]);
    }

    /** `remove_entry`: untrack the key and drop its bytes; deleting the file may fail. */
    method RemoveEntry(key: Key)
      requires Consistent()
      modifies this
      ensures Consistent() && items == Minus(old(items), {key}) && key !in Table(items)
      ensures cap == old(cap) && backend.Disk? == old(backend.Disk?) && tick == old(tick)
      ensures totalBytes <= old(totalBytes) && faults == old(faults)
    {
      hide Coherent, Backs, Table, Minus;
      Removed(items, key, tick, index, totalBytes);
      ghost var table := Table(items);
      if key !in index { return; }
      var e := index[key];
      index := index - {key};
      items := Minus(items, {key});
      var was := backend;
      match was {
        case Disk(files) =>
          var deleted: bool := *;
          if deleted { backend := Disk(files - {BlobFilename(key)}); }
        case Memory(blobs) =>
          backend := Memory(blobs - {key});
      }
      BacksWithout(table, key, was, backend);
      totalBytes := SaturatingSub(totalBytes, e.sizeBytes);
    }

    /** `evict_one`: the victim is the head of the list. */
    method EvictOne() returns (evicted: bool)
      requires Consistent()
      modifies this
      ensures Consistent() && cap == old(cap) && backend.Disk? == old(backend.Disk?) && tick == old(tick)
      ensures (evicted <==> old(items) != []) && faults == old(faults)
      ensures items == if evicted then old(items)[1..] else old(items)
    {
      IndexEmpty(items, tick);
      if index == map[] { return false; }
      HeadIsOldest(items, 0, tick);
      assert items[0].key in index && forall k :: k in index ==> index[items[0].key].lastUsed <= index[k].lastUsed;
      var victim :| victim in index && forall k :: k in index ==> index[victim].lastUsed <= index[k].lastUsed;
      assert victim == items[0].key;
      RemoveEntry(victim);
      return true;
    }

    /** The eviction loops of `put` and `set_cap`. */
    method EvictUntilFits(extra: nat)
      requires Consistent() && (cap.Some? ==> extra <= cap.value)
      modifies this
      ensures Consistent() && cap == old(cap) && backend.Disk? == old(backend.Disk?) && tick == old(tick)
      ensures items == Shrunk(old(items), cap, extra) && (cap.Some? ==> totalBytes + extra <= cap.value)
      ensures Table(items).Keys <= Table(old(items)).Keys && faults == old(faults)
    {
      hide Backs, Table, Ordered, IndexOf, AllCanonical, Shrunk;
      ghost var n := ShrunkIsShortest(items, cap, extra);
      TableSuffix(items, n);
      ShrunkStep(items, cap, extra);
      var go := cap.Some? && totalBytes + extra > cap.value;
      while go
        invariant Consistent() && cap == old(cap) && backend.Disk? == old(backend.Disk?) && tick == old(tick)
        invariant Shrunk(items, cap, extra) == Shrunk(old(items), cap, extra) && faults == old(faults)
        invariant go ==> cap.Some? && totalBytes + extra > cap.value
        invariant !go ==> items == Shrunk(items, cap, extra)
        decreases |items|, go
      {
        ShrunkStep(items, cap, extra);
        go := EvictOne();
        ShrunkStep(items, cap, extra);
        go := go && totalBytes + extra > cap.value;
      }
    }

    /**
     `put`. Under a valid key: the old entry of the key is gone; a blob that fits the budget is the newest
     entry, after dropping the oldest others until there is room; a larger blob is skipped.
     */
    method Put(ns: Ns, id: string, sub: u32, ciphertext: Bytes) returns (r: Result<(), IoError>)
      requires Valid()
      modifies this
      ensures Valid() && backend.Disk? == old(backend.Disk?)
      ensures View() == Step(old(View()), Op.Put(ns, id, sub, ciphertext, r.Ok?))
      ensures r == Err(InvalidInput) <==> Canonical(ns, id, sub).None?
      ensures faults == old(faults) + if r == Err(WriteFailed) then 1 else 0
      ensures r == Err(WriteFailed) ==> cap.Some? ==> |ciphertext| <= cap.value
      ensures backend.Memory? ==> faults == old(faults)
      ensures r == Err(InvalidInput) ==> View() == old(View())
      ensures r != Err(InvalidInput) ==>
                PutLeaves(old(View()), View(), Canonical(ns, id, sub).value, ciphertext, r.Ok?)
    {
      hide ValidatedKey;
      var key := Canonical(ns, id, sub);
      if key.None? { return Err(InvalidInput); }
      CanonicalIsFixed(ns, id, sub);
      InOrderOf(items, tick, index, totalBytes);
      StepPutLeaves(View(), key.value, ciphertext, true);
      StepPutLeaves(View(), key.value, ciphertext, false);
      hide Canonical, StepPut, PutLeaves, Coherent, Backs;
      var stored := PutKey(key.value, ciphertext);
      return if stored then Ok(()) else Err(WriteFailed);
    }

    /** `put` after key validation; a blob larger than the whole budget is skipped, which is no error. */
    method PutKey(key: Key, ciphertext: Bytes) returns (stored: bool)
      requires Valid() && IsCanonical(key)
      modifies this
      ensures Valid() && backend.Disk? == old(backend.Disk?)
      ensures View() == StepPut(old(View()), key, ciphertext, stored)
      ensures faults == old(faults) + if stored then 0 else 1
      ensures !stored && cap.Some? ==> |ciphertext| <= cap.value
      ensures backend.Memory? ==> stored
    {
      hide Coherent, Backs, Table, Minus, Shrunk, Total;
      RemoveEntry(key);
      if cap.Some? && |ciphertext| > cap.value { return true; }
      EvictUntilFits(|ciphertext|);
      stored := WriteBytes(key, ciphertext);
      if stored { Track(key, ciphertext); } else { faults := faults + 1; }
    }

    /** The bookkeeping half of `put`: tick, add up, index. */
    method Track(key: Key, ciphertext: Bytes)
      requires Coherent(items, tick, index, totalBytes) && IsCanonical(key) && key !in Table(items)
      modifies `items, `tick, `totalBytes, `index
      ensures Coherent(items, tick, index, totalBytes)
      ensures Table(items) == Table(old(items))[key := Item(key, ciphertext, tick)]
      ensures items == old(items) + [Item(key, ciphertext, tick)] && tick == old(tick) + 1
      ensures totalBytes == old(totalBytes) + |ciphertext|
    {
      hide *;
      Append(items, Item(key, ciphertext, tick + 1), tick, index, totalBytes);
      items := items + [Item(key, ciphertext, tick + 1)];
      tick := tick + 1;
      totalBytes := totalBytes + |ciphertext|;
      index := index[key := Entry(|ciphertext|, tick)];
    }

    /** The backend half of `put`; a failed write may leave anything in the entry's own file. */
    method WriteBytes(key: Key, ciphertext: Bytes) returns (wrote: bool)
      requires Consistent() && IsCanonical(key) && key !in Table(items)
      modifies `backend
      ensures wrote ==> Backs(Table(items)[key := Item(key, ciphertext, tick + 1)], backend)
      ensures !wrote ==> Backs(Table(items), backend)
      ensures backend.Disk? == old(backend.Disk?) && (!wrote ==> backend.Disk?)
    {
      match backend {
        case Disk(files) =>
          var left: Option<Bytes>;
          wrote, left := *, *;
          var name := BlobFilename(key);
          var files' := if wrote then files[name := ciphertext]
                        else if left.Some? then files[name := left.value] else files - {name};
          BacksWrite(Table(items), Item(key, ciphertext, tick + 1), files, files');
          backend := Disk(files');
        case Memory(blobs) =>
          backend := Memory(blobs[key := ciphertext]);
          wrote := true;
      }
    }

    /** `get`: a hit becomes the newest entry; a file that cannot be read is a miss that drops its own entry. */
    method Get(ns: Ns, id: string, sub: u32) returns (r: Option<Bytes>)
      requires Valid()
      modifies this
      ensures Valid() && backend.Disk? == old(backend.Disk?)
      ensures View() == Step(old(View()), Op.Get(ns, id, sub, r.Some?))
      ensures var key := Canonical(ns, id, sub);
              && (r.Some? ==> key.Some? && r == Lookup(old(items), key.value))
              && (key.Some? && faults == old(faults) ==> r == Lookup(old(items), key.value))
      ensures faults >= old(faults) && (backend.Memory? ==> faults == old(faults))
      ensures var key := Canonical(ns, id, sub);
              && (key.None? ==> View() == old(View()))
              && (key.Some? ==> GetLeaves(old(View()), View(), key.value, r, faults > old(faults)))
    {
      hide ValidatedKey;
      var key := Canonical(ns, id, sub);
      if key.None? { return None; }
      InOrderOf(items, tick, index, totalBytes);
      StepGetLeaves(View(), key.value);
      hide Canonical, StepGet, GetLeaves, Coherent, Backs, Table;
      r := GetKey(key.value);
    }

    /** `get` after key validation. */
    method GetKey(key: Key) returns (r: Option<Bytes>)
      requires Valid()
      modifies this
      ensures Valid() && backend.Disk? == old(backend.Disk?)
      ensures View() == StepGet(old(View()), key, r.Some?)
      ensures r.Some? || faults == old(faults) ==> r == Lookup(old(items), key)
      ensures faults >= old(faults) && (backend.Memory? ==> faults == old(faults))
      ensures faults > old(faults) ==> r.None? && key in Table(old(items))
    {
      hide Coherent, Backs, Table, Minus;
      Known(items, key, tick, index, totalBytes);
      if key !in index { return None; }
      r := ReadBytes(key);
      if r.None? {
        faults := faults + 1;
        RemoveEntry(key);
      } else {
        Touch(key);
      }
    }

    /** The backend half of `get`. */
    method ReadBytes(key: Key) returns (r: Option<Bytes>)
      requires Consistent() && key in index && key in Table(items)
      ensures r.Some? ==> r.value == Table(items)[key].bytes
      ensures backend.Memory? ==> r.Some?
    {
      match backend {
        case Disk(files) =>
          var readable: bool := *;
          if !readable || BlobFilename(key) !in files { return None; }
          return Some(files[BlobFilename(key)]);
        case Memory(blobs) =>
          return Some(blobs[key]);
      }
    }

    /** Stamp an entry as the most recently used. */
    method Touch(key: Key)
      requires Consistent() && key in index && key in Table(items)
      modifies `items, `tick, `index
      ensures Consistent() && tick == old(tick) + 1
      ensures items == Minus(old(items), {key}) + [Item(key, Table(old(items))[key].bytes, tick)]
    {
      hide Coherent, Backs, Table, Minus;
      Restamped(items, key, tick, index, totalBytes);
      BacksRestamp(Table(items), Item(key, Table(items)[key].bytes, tick + 1), backend);
      items := Minus(items, {key}) + [Item(key, Table(items)[key].bytes, tick + 1)];
      tick := tick + 1;
      index := index[key := Entry(index[key].sizeBytes, tick)];
    }

    /** `contains` */
    method Contains(ns: Ns, id: string, sub: u32) returns (r: bool)
      requires Valid()
      ensures var key := Canonical(ns, id, sub); r <==> key.Some? && Lookup(items, key.value).Some?
    {
      var key := Canonical(ns, id, sub);
      return key.Some? && key.value in index;
    }

    /** `evict` */
    method Evict(ns: Ns, id: string, sub: u32)
      requires Valid()
      modifies this
      ensures Valid() && backend.Disk? == old(backend.Disk?)
      ensures View() == Step(old(View()), Op.Evict(ns, id, sub)) && faults == old(faults)
      ensures cap == old(cap) && tick == old(tick)
      ensures Canonical(ns, id, sub).None? ==> items == old(items)
      ensures Canonical(ns, id, sub).Some? ==> Without(old(items), items, Canonical(ns, id, sub).value)
    {
      InOrderOf(items, tick, index, totalBytes);
      var key := Canonical(ns, id, sub);
      if key.Some? {
        MinusIsWithout(items, 0, tick, key.value);
        RemoveEntry(key.value);
      }
    }

    /** The removal loops of `evict_prefix` and `clear_and_zeroize`. */
    method RemoveAll(victims: set<Key>)
      requires Valid()
      modifies this
      ensures Valid() && cap == old(cap) && backend.Disk? == old(backend.Disk?) && tick == old(tick)
      ensures items == Minus(old(items), victims) && faults == old(faults)
    {
      hide Coherent, Backs, Table, Minus;
      var left := victims;
      MinusNone(items);
      assert victims - left == {};
      while left != {}
        invariant Valid() && cap == old(cap) && backend.Disk? == old(backend.Disk?) && tick == old(tick)
        invariant left <= victims && items == Minus(old(items), victims - left) && faults == old(faults)
        decreases |left|
      {
        var k :| k in left;
        RemoveEntry(k);
        MinusTwice(old(items), victims - left, {k});
        assert victims - left + {k} == victims - (left - {k});
        left := left - {k};
      }
      assert victims - left == victims;
    }

    /** `evict_prefix` */
    method EvictPrefix(ns: Ns, id: string)
      requires Valid()
      modifies this
      ensures Valid() && backend.Disk? == old(backend.Disk?)
      ensures View() == Step(old(View()), Op.EvictPrefix(ns, id)) && faults == old(faults)
      ensures cap == old(cap) && tick == old(tick) && Ordered(items, 0, tick)
      ensures Table(items)
              == map k | k in Table(old(items)) && !(k.ns == ns && k.id == Lowercase(id)) :: Table(old(items))[k]
    {
      hide Lowercase, Minus, Table, Backs, Coherent;
      var lower := Lowercase(id);
      var victims := set k | k in index && k.ns == ns && k.id == lower;
      IndexKeys(items, tick, index, totalBytes);
      assert victims == FileKeys(items, ns, lower);
      TableMinus(items, victims);
      RemoveAll(victims);
      InOrderOf(items, tick, index, totalBytes);
    }

    /** `clear_and_zeroize` */
    method ClearAndZeroize()
      requires Valid()
      modifies this
      ensures Valid() && backend.Disk? == old(backend.Disk?)
      ensures View() == Step(old(View()), Op.Clear) && faults == old(faults)
      ensures cap == old(cap) && tick == old(tick) && items == []
    {
      MinusAll(items, index.Keys);
      RemoveAll(index.Keys);
      totalBytes := 0;
    }

    /** `set_cap`: the oldest entries go until the rest fit the new budget; if all fit, nothing changes. */
    method SetCap(newCap: nat)
      requires Valid()
      modifies this
      ensures Valid() && backend.Disk? == old(backend.Disk?)
      ensures View() == Step(old(View()), Op.SetCap(newCap)) && faults == old(faults)
      ensures cap == Some(newCap) && tick == old(tick) && Trimmed(old(items), items, Some(newCap), 0)
      ensures FitsIn(old(items), Some(newCap), 0) ==> items == old(items)
    {
      hide Trimmed, Shrunk;
      ShrunkIsTrimmed(items, Some(newCap), 0);
      if FitsIn(items, Some(newCap), 0) { FittingStays(items, Shrunk(items, Some(newCap), 0), Some(newCap), 0); }
      cap := Some(newCap);
      EvictUntilFits(0);
    }

    /** The world deletes backing files behind the cache's back: nothing tracked changes. */
    method LoseFiles(names: set<string>)
      requires Valid()
      modifies `backend
      ensures Valid() && View() == old(View()) && backend.Disk? == old(backend.Disk?)
    {
      if backend.Disk? { backend := Disk(backend.files - names); }
    }
  }

  lemma IndexKeys(items: seq<Item>, tick: nat, index: map<Key, Entry>, totalBytes: nat)
    requires Coherent(items, tick, index, totalBytes)
    ensures index.Keys == Table(items).Keys
  {
  }

  lemma InOrderOf(items: seq<Item>, tick: nat, index: map<Key, Entry>, totalBytes: nat)
    requires Coherent(items, tick, index, totalBytes)
    ensures Ordered(items, 0, tick)
  {
  }

  lemma {:induction false} StepPutLeaves(s: State, key: Key, bytes: Bytes, wrote: bool)
    requires Ordered(s.items, 0, s.clock)
    ensures PutLeaves(s, StepPut(s, key, bytes, wrote), key, bytes, wrote)
  {
    hide Minus, Shrunk, Trimmed, Without;
    var rest := Minus(s.items, {key});
    MinusIsWithout(s.items, 0, s.clock, key);
    if s.cap.Some? ==> |bytes| <= s.cap.value {
      ShrunkIsTrimmed(rest, s.cap, |bytes|);
      var kept := Shrunk(rest, s.cap, |bytes|);
      assert MadeRoom(s.items, kept, key, s.cap, |bytes|);
      assert (kept + [Item(key, bytes, s.clock + 1)])[..|kept|] == kept;
    }
  }

  lemma {:induction false} StepGetLeaves(s: State, key: Key)
    requires Ordered(s.items, 0, s.clock)
    ensures var found := Lookup(s.items, key);
            && GetLeaves(s, StepGet(s, key, true), key, found, false)
            && (found.Some? ==> GetLeaves(s, StepGet(s, key, false), key, None, true))
            && (found.None? ==> StepGet(s, key, false) == StepGet(s, key, true) == s)
  {
    hide Minus, Lookup, Without, Ordered;
    var rest, found := Minus(s.items, {key}), Lookup(s.items, key);
    MinusIsWithout(s.items, 0, s.clock, key);
    if found.Some? {
      var used := rest + [Item(key, found.value, s.clock + 1)];
      assert used[..|used| - 1] == rest;
    }
  }

  lemma Removed(items: seq<Item>, key: Key, tick: nat, index: map<Key, Entry>, totalBytes: nat)
    requires Coherent(items, tick, index, totalBytes)
    ensures Table(Minus(items, {key})) == Table(items) - {key}
    ensures key in index <==> key in Table(items)
    ensures key in index ==> Coherent(Minus(items, {key}), tick, index - {key},
                                      SaturatingSub(totalBytes, index[key].sizeBytes))
    ensures key !in index ==> Minus(items, {key}) == items
  {
    OrderedMinus(items, 0, tick, {key});
    TableMinus(items, {key});
    TotalMinus(items, 0, tick, key);
    hide Ordered, Total, ValidatedKey, Table, Minus;
    IndexWithout(Table(items), key);
    if key !in index { MinusAbsent(items, key); }
  }

  lemma IndexWithout(table: map<Key, Item>, key: Key)
    ensures IndexOf(table - {key}) == IndexOf(table) - {key}
    ensures AllCanonical(table) ==> AllCanonical(table - {key})
  {
    hide ValidatedKey;
  }

  /** The bookkeeping after one use: the entry moves to the recent end. */
  lemma Restamped(items: seq<Item>, key: Key, tick: nat, index: map<Key, Entry>, totalBytes: nat)
    requires Coherent(items, tick, index, totalBytes) && key in index
    ensures var item := Item(key, Table(items)[key].bytes, tick + 1);
            && Table(Minus(items, {key}) + [item]) == Table(items)[key := item]
            && Coherent(Minus(items, {key}) + [item], tick + 1,
                        index[key := Entry(index[key].sizeBytes, tick + 1)], totalBytes)
  {
    var item := Item(key, Table(items)[key].bytes, tick + 1);
    Removed(items, key, tick, index, totalBytes);
    TotalMinus(items, 0, tick, key);
    assert index[key].sizeBytes == |item.bytes| && totalBytes >= |item.bytes|;
    hide Coherent, Table, Minus, Total;
    Append(Minus(items, {key}), item, tick, index - {key}, totalBytes - |item.bytes|);
    PutBack(index, key, Entry(|item.bytes|, tick + 1));
    PutBack(Table(items), key, item);
  }

  /** Restamping an entry leaves the stored bytes alone. */
  lemma BacksRestamp(table: map<Key, Item>, item: Item, backend: Backend)
    requires Backs(table, backend) && item.key in table && table[item.key].bytes == item.bytes
    ensures Backs(table[item.key := item], backend)
  {
    if backend.Memory? { assert BytesOf(table[item.key := item]) == BytesOf(table); }
  }

  lemma Append(items: seq<Item>, item: Item, tick: nat, index: map<Key, Entry>, totalBytes: nat)
    requires Coherent(items, tick, index, totalBytes)
    requires item.key !in Table(items) && item.lastUsed == tick + 1 && IsCanonical(item.key)
    ensures Table(items + [item]) == Table(items)[item.key := item]
    ensures Coherent(items + [item], tick + 1, index[item.key := Entry(|item.bytes|, tick + 1)],
                     totalBytes + |item.bytes|)
  {
    assert Table([item]) == map[item.key := item] && Total([item]) == |item.bytes|;
    hide Table, Total, Ordered, IndexOf, AllCanonical, ValidatedKey;
    OrderedSnoc(items, 0, tick, item);
    TableJoin(items, [item]);
    TotalJoin(items, [item]);
    assert Table(items + [item]) == Table(items)[item.key := item];
    IndexPut(Table(items), item);
  }

  lemma IndexPut(table: map<Key, Item>, item: Item)
    ensures IndexOf(table[item.key := item]) == IndexOf(table)[item.key := Entry(|item.bytes|, item.lastUsed)]
    ensures AllCanonical(table) && IsCanonical(item.key) ==> AllCanonical(table[item.key := item])
  {
  }

  lemma Known(items: seq<Item>, key: Key, tick: nat, index: map<Key, Entry>, totalBytes: nat)
    requires Coherent(items, tick, index, totalBytes)
    ensures key in index <==> key in Table(items)
  {
  }
}
