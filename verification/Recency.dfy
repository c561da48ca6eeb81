/**
 One pass over a span of entries in a recency cache: first all of them are looked up, then each is
 read if it was found, and stored if it was not. Which spans get through, exactly.
 */
module Recency {
  import opened Machine
  import opened Wrappers
  import opened BlobKeys
  import opened Lru
  import opened CacheRuns

  /** An entry the pass needs: read from the cache if it was found there, else stored as `bytes`. */
  datatype Want = Want(key: Key, found: bool, bytes: Bytes)

  ghost predicate Distinct(wants: seq<Want>) {
    forall i, j :: 0 <= i < j < |wants| ==> wants[i].key != wants[j].key
  }

  ghost predicate NoneFound(wants: seq<Want>) { forall w :: w in wants ==> !w.found }

  /** The state once every entry has been looked up. */
  function Looked(st: State, wants: seq<Want>): State
    decreases wants
  {
    if wants == [] then st else Looked(StepGet(st, wants[0].key, true), wants[1..])
  }

  /** Whether the pass gets through: what was found must still be there when its turn comes. */
  predicate Passes(st: State, wants: seq<Want>)
    decreases wants
  {
    wants == [] ||
    (var got := StepGet(st, wants[0].key, true);
     if wants[0].found then wants[0].key in Table(st.items) && Passes(got, wants[1..])
     else Passes(StepPut(got, wants[0].key, wants[0].bytes, true), wants[1..]))
  }

  // ---- the condition ----

  /** The bytes held under each key. */
  function Sizes(items: seq<Item>): map<Key, nat> { map k | k in Table(items) :: |Table(items)[k].bytes| }

  type Marks = seq<(Key, nat)>

  function Sum(marks: Marks): nat { if marks == [] then 0 else marks[0].1 + Sum(marks[1..]) }

  /** The wanted entries that are held, in order, with their sizes. */
  function Present(wants: seq<Want>, had: map<Key, nat>): Marks {
    if wants == [] then []
    else (if wants[0].key in had then [(wants[0].key, had[wants[0].key])] else []) + Present(wants[1..], had)
  }

  /** The same from the first found one on: losing any of these loses that one first. */
  function Waiting(wants: seq<Want>, had: map<Key, nat>): Marks {
    if wants == [] then []
    else if wants[0].found then Present(wants, had)
    else Waiting(wants[1..], had)
  }

  /**
   Every store that comes before the last found entry leaves room for the found entries still
   waiting and for all the pass has used so far (`used` bytes). A store over the budget is skipped.
   */
  predicate Room(cap: nat, wants: seq<Want>, had: map<Key, nat>, used: nat) {
    wants == [] ||
    (var w, rest := wants[0], wants[1..];
     if w.found then Room(cap, rest, had, used + if w.key in had then had[w.key] else 0)
     else if |w.bytes| > cap then Room(cap, rest, had, used)
     else
       && ((forall v :: v in rest ==> !v.found) || Sum(Waiting(rest, had)) + used + |w.bytes| <= cap)
       && Room(cap, rest, had, used + |w.bytes|))
  }

  // ---- lists by key and size ----

  function MarksOf(items: seq<Item>): Marks {
    if items == [] then [] else [(items[0].key, |items[0].bytes|)] + MarksOf(items[1..])
  }

  lemma {:induction false} MarksJoin(a: seq<Item>, b: seq<Item>)
    ensures MarksOf(a + b) == MarksOf(a) + MarksOf(b)
  {
    if a == [] {
      assert a + b == b;
    } else {
      assert (a + b)[1..] == a[1..] + b;
      MarksJoin(a[1..], b);
    }
  }

  lemma {:induction false} MarksLength(items: seq<Item>)
    ensures |MarksOf(items)| == |items| && Sum(MarksOf(items)) == Total(items)
    ensures forall i :: 0 <= i < |items| ==> MarksOf(items)[i] == (items[i].key, |items[i].bytes|)
  {
    if items != [] { MarksLength(items[1..]); }
  }

  lemma {:induction false} MarksSuffix(items: seq<Item>, n: nat)
    requires n <= |items| || n <= |MarksOf(items)|
    ensures n <= |items| == |MarksOf(items)| && MarksOf(items[n..]) == MarksOf(items)[n..]
  {
    MarksLength(items);
    if n > 0 {
      MarksSuffix(items[1..], n - 1);
      assert items[1..][n - 1..] == items[n..];
      assert MarksOf(items)[1..] == MarksOf(items[1..]);
      assert MarksOf(items)[1..][n - 1..] == MarksOf(items)[n..];
    } else {
      assert items[0..] == items && MarksOf(items)[0..] == MarksOf(items);
    }
  }

  lemma {:induction false} SumJoin(a: Marks, b: Marks)
    ensures Sum(a + b) == Sum(a) + Sum(b)
  {
    if a == [] {
      assert a + b == b;
    } else {
      assert (a + b)[1..] == a[1..] + b;
      SumJoin(a[1..], b);
    }
  }

  ghost predicate HasKey(marks: Marks, key: Key) { exists i :: 0 <= i < |marks| && marks[i].0 == key }

  lemma {:induction false} TableKeys(items: seq<Item>, key: Key)
    ensures key in Table(items) <==> HasKey(MarksOf(items), key)
  {
    MarksLength(items);
    if items != [] {
      TableKeys(items[1..], key);
      KeyAhead(MarksOf(items)[0], MarksOf(items[1..]), key);
    }
  }

  lemma KeyAhead(m: (Key, nat), marks: Marks, key: Key)
    ensures HasKey([m] + marks, key) <==> m.0 == key || HasKey(marks, key)
  {
    var all := [m] + marks;
    if m.0 == key { assert all[0].0 == key; }
    if HasKey(marks, key) {
      var i :| 0 <= i < |marks| && marks[i].0 == key;
      assert all[i + 1].0 == key;
    }
    if HasKey(all, key) && m.0 != key {
      var i :| 0 <= i < |all| && all[i].0 == key;
      assert marks[i - 1].0 == key;
    }
  }

  lemma KeyJoin(a: Marks, b: Marks, key: Key)
    ensures HasKey(a + b, key) <==> HasKey(a, key) || HasKey(b, key)
  {
    if HasKey(a, key) {
      var i :| 0 <= i < |a| && a[i].0 == key;
      assert (a + b)[i].0 == key;
    }
    if HasKey(b, key) {
      var i :| 0 <= i < |b| && b[i].0 == key;
      assert (a + b)[|a| + i].0 == key;
    }
    if HasKey(a + b, key) {
      var i :| 0 <= i < |a + b| && (a + b)[i].0 == key;
      assert if i < |a| then a[i].0 == key else b[i - |a|].0 == key;
    }
  }

  lemma {:induction false} PresentKeys(wants: seq<Want>, had: map<Key, nat>, key: Key)
    requires forall w :: w in wants ==> w.key != key
    ensures !HasKey(Present(wants, had), key) && !HasKey(Waiting(wants, had), key)
  {
    if wants != [] {
      PresentKeys(wants[1..], had, key);
      KeyJoin(if wants[0].key in had then [(wants[0].key, had[wants[0].key])] else [], Present(wants[1..], had), key);
    }
  }

  /** The entries still waiting end the list of those present. */
  lemma {:induction false} WaitingEnds(wants: seq<Want>, had: map<Key, nat>) returns (p: Marks)
    ensures Present(wants, had) == p + Waiting(wants, had)
    ensures NoneFound(wants) ==> Waiting(wants, had) == []
  {
    if wants == [] {
      p := [];
    } else if wants[0].found {
      p := [];
      assert wants[0] in wants;
    } else {
      var q := WaitingEnds(wants[1..], had);
      p := (if wants[0].key in had then [(wants[0].key, had[wants[0].key])] else []) + q;
    }
  }

  /** The first entry waiting is a found one. */
  lemma {:induction false} WaitingHead(wants: seq<Want>, had: map<Key, nat>) returns (w: Want)
    requires !NoneFound(wants) && forall v :: v in wants && v.found ==> v.key in had
    ensures w in wants && w.found && Waiting(wants, had) != [] && Waiting(wants, had)[0].0 == w.key
  {
    if wants[0].found {
      w := wants[0];
    } else {
      w := WaitingHead(wants[1..], had);
    }
  }

  // ---- lists of items ----

  lemma {:induction false} MinusJoin(a: seq<Item>, b: seq<Item>, gone: set<Key>)
    ensures Minus(a + b, gone) == Minus(a, gone) + Minus(b, gone)
  {
    if a == [] {
      assert a + b == b;
    } else {
      assert (a + b)[1..] == a[1..] + b;
      MinusJoin(a[1..], b, gone);
    }
  }

  /** Eviction for `extra` more bytes never reaches a tail that leaves room for them. */
  lemma {:induction false} ShrunkKeeps(a: seq<Item>, b: seq<Item>, cap: Option<nat>, extra: nat) returns (m: nat)
    requires FitsIn(b, cap, extra)
    ensures m <= |a| && Shrunk(a + b, cap, extra) == a[m..] + b
  {
    if a == [] || FitsIn(a + b, cap, extra) {
      m := 0;
      assert a == [] ==> a + b == b;
    } else {
      assert (a + b)[1..] == a[1..] + b;
      m := ShrunkKeeps(a[1..], b, cap, extra);
      assert a[1..][m..] == a[m + 1..];
      m := m + 1;
    }
  }

  /** A tail that does not leave room loses at least its head. */
  lemma {:induction false} ShrunkDrops(a: seq<Item>, b: seq<Item>, cap: Option<nat>, extra: nat) returns (m: nat)
    requires !FitsIn(b, cap, extra) && b != []
    ensures 1 <= m <= |b| && Shrunk(a + b, cap, extra) == b[m..]
  {
    TotalJoin(a, b);
    if a == [] {
      assert a + b == b;
      m := ShrunkCuts(b[1..], cap, extra);
      assert b[1..][m..] == b[m + 1..];
      m := m + 1;
    } else {
      assert (a + b)[1..] == a[1..] + b;
      m := ShrunkDrops(a[1..], b, cap, extra);
    }
  }

  lemma {:induction false} ShrunkCuts(items: seq<Item>, cap: Option<nat>, extra: nat) returns (m: nat)
    ensures m <= |items| && Shrunk(items, cap, extra) == items[m..]
  {
    if FitsIn(items, cap, extra) || items == [] {
      m := 0;
    } else {
      m := ShrunkCuts(items[1..], cap, extra);
      assert items[1..][m..] == items[m + 1..];
      m := m + 1;
    }
  }

  /** In a list in order, the two halves share no key. */
  lemma {:induction false} HalvesDiffer(a: seq<Item>, b: seq<Item>, lo: nat, clock: nat, key: Key)
    requires Ordered(a + b, lo, clock) && key in Table(b)
    ensures key !in Table(a)
  {
    if a != [] {
      assert (a + b)[0] == a[0] && (a + b)[1..] == a[1..] + b;
      HalvesDiffer(a[1..], b, a[0].lastUsed, clock, key);
      TableJoin(a[1..], b);
    }
  }

  // ---- one step of the pass ----

  lemma GetShape(s: State, key: Key)
    ensures StepGet(s, key, true).cap == s.cap
    ensures key !in Table(s.items) ==> StepGet(s, key, true) == s
    ensures key in Table(s.items) ==>
              StepGet(s, key, true).items == Minus(s.items, {key}) + [Item(key, Table(s.items)[key].bytes, s.clock + 1)]
  {
  }

  lemma {:induction false} MinusSnoc(items: seq<Item>, item: Item)
    ensures Minus(Minus(items, {item.key}) + [item], {item.key}) == Minus(items, {item.key})
  {
    MinusJoin(Minus(items, {item.key}), [item], {item.key});
    MinusTwice(items, {item.key}, {item.key});
    assert {item.key} + {item.key} == {item.key};
    assert Minus([item], {item.key}) == Minus([item][1..], {item.key}) == [];
  }

  /** Looking an entry up before storing it anew makes no difference to what is stored. */
  lemma PutShape(s: State, key: Key, bytes: Bytes)
    ensures var now, rest := StepPut(StepGet(s, key, true), key, bytes, true), Minus(s.items, {key});
            && now.cap == s.cap
            && (s.cap.Some? && |bytes| > s.cap.value ==> now.items == rest)
            && (!(s.cap.Some? && |bytes| > s.cap.value) ==>
                  exists stamp :: now.items == Shrunk(rest, s.cap, |bytes|) + [Item(key, bytes, stamp)])
  {
    var got := StepGet(s, key, true);
    GetShape(s, key);
    if key in Table(s.items) {
      MinusSnoc(s.items, Item(key, Table(s.items)[key].bytes, s.clock + 1));
    }
    hide StepGet, Minus, Table;
    PutOf(got, key, bytes, Minus(s.items, {key}));
  }

  lemma PutOf(s: State, key: Key, bytes: Bytes, rest: seq<Item>)
    requires Minus(s.items, {key}) == rest
    ensures var now := StepPut(s, key, bytes, true);
            && now.cap == s.cap
            && (s.cap.Some? && |bytes| > s.cap.value ==> now.items == rest)
            && (!(s.cap.Some? && |bytes| > s.cap.value) ==>
                  now.items == Shrunk(rest, s.cap, |bytes|) + [Item(key, bytes, s.clock + 1)])
  {
  }

  lemma UseInOrder(s: State, key: Key)
    requires InOrder(s)
    ensures InOrder(StepGet(s, key, true))
    ensures forall k :: Lookup(StepGet(s, key, true).items, k) == Lookup(s.items, k)
  {
    hide Minus, Table, Ordered, StepGet, Lookup;
    GetShape(s, key);
    if key in Table(s.items) {
      var item := Item(key, Table(s.items)[key].bytes, s.clock + 1);
      RemoveInOrder(s.items, s.clock, {key});
      OrderedSnoc(Minus(s.items, {key}), 0, s.clock, item);
      UsedLookups(s.items, key, item);
      UsedClock(s, key);
    }
  }

  lemma UsedLookups(items: seq<Item>, key: Key, item: Item)
    requires key in Table(items) && item.key == key && item.bytes == Table(items)[key].bytes
    ensures forall k :: Lookup(Minus(items, {key}) + [item], k) == Lookup(items, k)
  {
    hide Minus, Table;
    TableMinus(items, {key});
    AppendTable(Minus(items, {key}), item);
  }

  lemma UsedClock(s: State, key: Key)
    requires key in Table(s.items)
    ensures StepGet(s, key, true).clock == s.clock + 1
  {
  }

  lemma StoreInOrder(s: State, key: Key, bytes: Bytes)
    requires InOrder(s)
    ensures InOrder(StepPut(s, key, bytes, true))
    ensures forall k :: k != key && Lookup(s.items, k).None? ==> Lookup(StepPut(s, key, bytes, true).items, k).None?
  {
    hide Minus, Ordered, Shrunk, Table;
    RemoveInOrder(s.items, s.clock, {key});
    var rest := Minus(s.items, {key});
    ShrinkInOrder(rest, s.cap, |bytes|, s.clock);
    var kept := Shrunk(rest, s.cap, |bytes|);
    if !(s.cap.Some? && |bytes| > s.cap.value) {
      OrderedSnoc(kept, 0, s.clock, Item(key, bytes, s.clock + 1));
      AppendTable(kept, Item(key, bytes, s.clock + 1));
    }
  }

  // ---- the pass, exactly ----

  /** The recent end of the list: what is still waiting, then what the pass has used. */
  ghost predicate Standing(st: State, a: seq<Item>, b: seq<Item>, wants: seq<Want>, had: map<Key, nat>, used: Marks) {
    InOrder(st) && st.items == a + b && (NoneFound(wants) || MarksOf(b) == Waiting(wants, had) + used)
  }

  lemma RestDistinct(wants: seq<Want>)
    requires Distinct(wants) && wants != []
    ensures Distinct(wants[1..]) && forall w :: w in wants[1..] ==> w.key != wants[0].key
  {
    forall w | w in wants[1..] ensures w.key != wants[0].key {
      var i :| 0 <= i < |wants[1..]| && wants[1..][i] == w;
      assert wants[i + 1] == w;
    }
  }

  lemma CutOut(a: seq<Item>, b: seq<Item>, clock: nat)
    requires Ordered(a + b, 0, clock) && b != []
    ensures b[0].key in Table(a + b) && Table(a + b)[b[0].key] == b[0] && Minus(a + b, {b[0].key}) == a + b[1..]
  {
    var key := b[0].key;
    TableJoin(a, b);
    HalvesDiffer(a, b, 0, clock, key);
    OrderedSuffix(a + b, 0, clock, |a|);
    assert (a + b)[|a|..] == b;
    MinusAbsent(a, key);
    MinusAbsent(b[1..], key);
    MinusJoin(a, b, {key});
  }

  /** Reading the entry at the head of the tail moves it to the end. */
  lemma ReadHead(st: State, a: seq<Item>, b: seq<Item>, key: Key)
    requires InOrder(st) && st.items == a + b && b != [] && b[0].key == key
    ensures key in Table(st.items) && InOrder(StepGet(st, key, true))
    ensures StepGet(st, key, true).items == a + b[1..] + [Item(key, b[0].bytes, st.clock + 1)]
  {
    hide Minus, Table, StepGet, Ordered, Lookup;
    CutOut(a, b, st.clock);
    GetShape(st, key);
    UseInOrder(st, key);
  }

  /** Reading a found entry moves it from the head of the tail to the end. */
  lemma ReadNext(st: State, a: seq<Item>, b: seq<Item>, wants: seq<Want>, had: map<Key, nat>, used: Marks)
    returns (a': seq<Item>, b': seq<Item>)
    requires wants != [] && wants[0].found && wants[0].key in had && Standing(st, a, b, wants, had, used)
    ensures var w := wants[0];
            && w.key in Table(st.items)
            && Standing(StepGet(st, w.key, true), a', b', wants[1..], had, used + [(w.key, had[w.key])])
  {
    hide Minus, Table, StepGet, InOrder, Lookup, MarksOf, Waiting, Present;
    var w, rest := wants[0], wants[1..];
    assert w in wants;
    ReadList(b, wants, had, used);
    FirstMark(b, w.key, had[w.key]);
    ReadHead(st, a, b, w.key);
    var item := Item(w.key, b[0].bytes, st.clock + 1);
    if NoneFound(rest) {
      a', b' := StepGet(st, w.key, true).items, [];
    } else {
      var p := WaitingEnds(rest, had);
      ReadTail(b, w, rest, had, used, p, item);
      var c := b[1..];
      a', b' := a + c[..|p|], c[|p|..] + [item];
      assert a + c + [item] == a' + b';
    }
  }

  lemma FirstMark(b: seq<Item>, key: Key, size: nat)
    requires MarksOf(b) != [] && MarksOf(b)[0] == (key, size)
    ensures b != [] && b[0].key == key && |b[0].bytes| == size
  {
    MarksLength(b);
  }

  lemma {:induction false} ReadList(b: seq<Item>, wants: seq<Want>, had: map<Key, nat>, used: Marks)
    requires wants != [] && wants[0].found && wants[0].key in had && MarksOf(b) == Waiting(wants, had) + used
    ensures MarksOf(b) == [(wants[0].key, had[wants[0].key])] + Present(wants[1..], had) + used
  {
  }

  lemma {:induction false} ReadTail(b: seq<Item>, w: Want, rest: seq<Want>, had: map<Key, nat>, used: Marks,
                                     p: Marks, item: Item)
    requires b != [] && w.key in had && item.key == w.key && |item.bytes| == had[w.key]
    requires Present(rest, had) == p + Waiting(rest, had)
    requires MarksOf(b) == [(w.key, had[w.key])] + Present(rest, had) + used
    ensures |p| <= |b| - 1
    ensures MarksOf(b[1..][|p|..] + [item]) == Waiting(rest, had) + (used + [(w.key, had[w.key])])
  {
    hide MarksOf, Present, Waiting;
    var m, waiting: Marks := [(w.key, had[w.key])], Waiting(rest, had);
    assert m + (p + waiting) + used == m + (p + waiting + used);
    MarksCut(b, m, p + waiting + used);
    var c := b[1..];
    assert p + waiting + used == p + (waiting + used);
    MarksCut(c, p, waiting + used);
    MarksJoin(c[|p|..], [item]);
    OneMark(item);
    assert waiting + used + m == waiting + (used + m);
  }

  lemma OneMark(item: Item)
    ensures MarksOf([item]) == [(item.key, |item.bytes|)]
  {
  }

  /** Storing an entry leaves the tail alone, and joins it, if the tail leaves room. */
  lemma StoreNext(st: State, a: seq<Item>, b: seq<Item>, wants: seq<Want>, had: map<Key, nat>, used: Marks)
    returns (a': seq<Item>, b': seq<Item>, used': Marks)
    requires wants != [] && !wants[0].found && Standing(st, a, b, wants, had, used) && Distinct(wants)
    requires !HasKey(used, wants[0].key) && st.cap.Some?
    requires |wants[0].bytes| <= st.cap.value ==>
               NoneFound(wants[1..]) || FitsIn(b, st.cap, |wants[0].bytes|)
    ensures var w := wants[0];
            && Standing(StepPut(StepGet(st, w.key, true), w.key, w.bytes, true), a', b', wants[1..], had, used')
            && used' == if |w.bytes| > st.cap.value then used else used + [(w.key, |w.bytes|)]
  {
    hide Minus, Table, Total, StepGet, StepPut, Shrunk, Ordered, Lookup, Waiting, HasKey;
    var w, rest := wants[0], wants[1..];
    var now := StepPut(StepGet(st, w.key, true), w.key, w.bytes, true);
    used' := if |w.bytes| > st.cap.value then used else used + [(w.key, |w.bytes|)];
    UseInOrder(st, w.key);
    StoreInOrder(StepGet(st, w.key, true), w.key, w.bytes);
    if NoneFound(rest) {
      a', b' := now.items, [];
    } else {
      StrangerToTail(b, wants, had, used);
      PutShape(st, w.key, w.bytes);
      MinusJoin(a, b, {w.key});
      MinusAbsent(b, w.key);
      a', b' := Minus(a, {w.key}), b;
      WaitingRest(wants, had);
      if |w.bytes| <= st.cap.value {
        var m := ShrunkKeeps(a', b, st.cap, |w.bytes|);
        var stamp :| now.items == Shrunk(a' + b, st.cap, |w.bytes|) + [Item(w.key, w.bytes, stamp)];
        MarksJoin(b, [Item(w.key, w.bytes, stamp)]);
        assert MarksOf([Item(w.key, w.bytes, stamp)]) == [(w.key, |w.bytes|)];
        a', b' := a'[m..], b + [Item(w.key, w.bytes, stamp)];
        assert Waiting(rest, had) + used' == Waiting(rest, had) + used + [(w.key, |w.bytes|)];
      }
    }
  }

  lemma WaitingRest(wants: seq<Want>, had: map<Key, nat>)
    requires wants != [] && !wants[0].found
    ensures Waiting(wants, had) == Waiting(wants[1..], had)
  {
  }

  /** The next entry to store is not in the tail. */
  lemma StrangerToTail(b: seq<Item>, wants: seq<Want>, had: map<Key, nat>, used: Marks)
    requires wants != [] && !wants[0].found && Distinct(wants) && !HasKey(used, wants[0].key)
    requires MarksOf(b) == Waiting(wants, had) + used
    ensures wants[0].key !in Table(b)
  {
    RestDistinct(wants);
    PresentKeys(wants[1..], had, wants[0].key);
    KeyJoin(Waiting(wants, had), used, wants[0].key);
    TableKeys(b, wants[0].key);
  }

  /** What is lost before its turn is never read. */
  lemma {:induction false} LostFails(st: State, wants: seq<Want>, w: Want)
    requires InOrder(st) && Distinct(wants) && w in wants && w.found && w.key !in Table(st.items)
    ensures !Passes(st, wants)
    decreases wants
  {
    hide StepGet, StepPut, InOrder, Table, Distinct;
    RestDistinct(wants);
    var v := wants[0];
    var got := StepGet(st, v.key, true);
    UseInOrder(st, v.key);
    StoreInOrder(got, v.key, v.bytes);
    if v == w {
    } else {
      assert w in wants[1..];
      assert Lookup(st.items, w.key).None?;
      LostFails(if v.found then got else StepPut(got, v.key, v.bytes, true), wants[1..], w);
    }
  }

  /** Storing over the tail loses the first entry waiting. */
  lemma {:induction false} StoreLoses(st: State, a: seq<Item>, b: seq<Item>, wants: seq<Want>, had: map<Key, nat>,
                                      used: Marks)
    requires wants != [] && !wants[0].found && Standing(st, a, b, wants, had, used) && Distinct(wants)
    requires !HasKey(used, wants[0].key) && st.cap.Some? && |wants[0].bytes| <= st.cap.value
    requires !NoneFound(wants[1..]) && !FitsIn(b, st.cap, |wants[0].bytes|)
    requires forall v :: v in wants && v.found ==> v.key in had
    ensures !Passes(st, wants)
  {
    var w, rest := wants[0], wants[1..];
    assert !NoneFound(wants) by { var v :| v in rest && v.found; assert v in wants; }
    hide Minus, Table, Total, StepGet, StepPut, Shrunk, Ordered, Waiting, HasKey, MarksOf, NoneFound, Distinct;
    var now := StepPut(StepGet(st, w.key, true), w.key, w.bytes, true);
    UseInOrder(st, w.key);
    StoreInOrder(StepGet(st, w.key, true), w.key, w.bytes);
    StrangerToTail(b, wants, had, used);
    PutShape(st, w.key, w.bytes);
    MinusJoin(a, b, {w.key});
    MinusAbsent(b, w.key);
    WaitingRest(wants, had);
    var lost := WaitingHead(rest, had);
    RestDistinct(wants);
    TailHead(b, Waiting(rest, had), used, lost.key);
    var m := ShrunkDrops(Minus(a, {w.key}), b, st.cap, |w.bytes|);
    var stamp :| now.items == b[m..] + [Item(w.key, w.bytes, stamp)];
    GoneFromTail(st, a, b, m, Item(w.key, w.bytes, stamp), lost.key);
    LostFails(now, rest, lost);
  }

  lemma {:induction false} TailHead(b: seq<Item>, waiting: Marks, used: Marks, key: Key)
    requires MarksOf(b) == waiting + used && waiting != [] && waiting[0].0 == key
    ensures b != [] && b[0].key == key
  {
    MarksLength(b);
  }

  lemma {:induction false} GoneFromTail(st: State, a: seq<Item>, b: seq<Item>, m: nat, item: Item, key: Key)
    requires InOrder(st) && st.items == a + b && 1 <= m <= |b| && b[0].key == key && item.key != key
    ensures key !in Table(b[m..] + [item])
  {
    OrderedSuffix(a + b, 0, st.clock, |a|);
    assert (a + b)[|a|..] == b;
    assert b[m..] == b[1..][m - 1..];
    TableSuffix(b[1..], m - 1);
    AppendTable(b[m..], item);
  }

  lemma {:induction false} FitsBySum(b: seq<Item>, waiting: Marks, used: Marks, cap: Option<nat>, extra: nat)
    requires MarksOf(b) == waiting + used
    ensures FitsIn(b, cap, extra) <==> (cap.Some? ==> Sum(waiting) + Sum(used) + extra <= cap.value)
  {
    MarksLength(b);
    SumJoin(waiting, used);
  }

  lemma SumSnoc(used: Marks, m: (Key, nat))
    ensures Sum(used + [m]) == Sum(used) + m.1
  {
    SumJoin(used, [m]);
    assert Sum([m]) == m.1 + Sum([m][1..]) == m.1;
  }

  lemma StrangersStay(wants: seq<Want>, used: Marks, m: (Key, nat))
    requires wants != [] && Distinct(wants) && m.0 == wants[0].key
    requires forall w :: w in wants ==> !HasKey(used, w.key)
    ensures forall w :: w in wants[1..] ==> !HasKey(used, w.key) && !HasKey(used + [m], w.key)
  {
    RestDistinct(wants);
    forall w | w in wants[1..] ensures !HasKey(used, w.key) && !HasKey(used + [m], w.key) {
      assert w in wants;
      KeyJoin(used, [m], w.key);
    }
  }

  /** A bounded pass gets through exactly if every store leaves room for what is still waiting. */
  lemma {:induction false} PassExact(st: State, a: seq<Item>, b: seq<Item>, wants: seq<Want>, had: map<Key, nat>,
                                     used: Marks)
    requires Standing(st, a, b, wants, had, used) && Distinct(wants) && st.cap.Some?
    requires forall w :: w in wants && w.found ==> w.key in had
    requires forall w :: w in wants ==> !HasKey(used, w.key)
    ensures Passes(st, wants) <==> Room(st.cap.value, wants, had, Sum(used))
    decreases wants
  {
    hide *;
    if wants == [] {
      NothingWanted(st, st.cap.value, had, Sum(used));
    } else {
      var w, rest := wants[0], wants[1..];
      RestDistinct(wants);
      Unfold(st, st.cap.value, wants, had, Sum(used));
      var got := StepGet(st, w.key, true);
      if w.found {
        GetShape(st, w.key);
        var a', b' := ReadNext(st, a, b, wants, had, used);
        StrangersStay(wants, used, (w.key, had[w.key]));
        SumSnoc(used, (w.key, had[w.key]));
        PassExact(got, a', b', rest, had, used + [(w.key, had[w.key])]);
      } else {
        TailFits(st, a, b, wants, had, used);
        StrangersStay(wants, used, (w.key, |w.bytes|));
        SumSnoc(used, (w.key, |w.bytes|));
        if |w.bytes| <= st.cap.value && !NoneFound(rest) && !FitsIn(b, st.cap, |w.bytes|) {
          StoreLoses(st, a, b, wants, had, used);
        } else {
          PutShape(st, w.key, w.bytes);
          var a', b', used' := StoreNext(st, a, b, wants, had, used);
          PassExact(StepPut(got, w.key, w.bytes, true), a', b', rest, had, used');
        }
      }
    }
  }

  lemma NothingWanted(st: State, cap: nat, had: map<Key, nat>, used: nat)
    ensures Passes(st, []) && Room(cap, [], had, used)
  {
  }

  /** The pass and its condition, one entry at a time. */
  lemma Unfold(st: State, cap: nat, wants: seq<Want>, had: map<Key, nat>, used: nat)
    requires wants != [] && (wants[0].found ==> wants[0].key in had)
    ensures var w, rest, got := wants[0], wants[1..], StepGet(st, wants[0].key, true);
            && w in wants && (forall v :: v in rest ==> v in wants)
            && (w.found ==> (Passes(st, wants) <==> w.key in Table(st.items) && Passes(got, rest)))
            && (w.found ==> (Room(cap, wants, had, used) <==> Room(cap, rest, had, used + had[w.key])))
            && (!w.found ==> (Passes(st, wants) <==> Passes(StepPut(got, w.key, w.bytes, true), rest)))
            && (!w.found && |w.bytes| > cap ==> (Room(cap, wants, had, used) <==> Room(cap, rest, had, used)))
            && (!w.found && |w.bytes| <= cap ==>
                  (Room(cap, wants, had, used) <==>
                     && (NoneFound(rest) || Sum(Waiting(rest, had)) + used + |w.bytes| <= cap)
                     && Room(cap, rest, had, used + |w.bytes|)))
  {
    hide StepGet, StepPut, Table, Waiting, Sum;
  }

  lemma TailFits(st: State, a: seq<Item>, b: seq<Item>, wants: seq<Want>, had: map<Key, nat>, used: Marks)
    requires wants != [] && !wants[0].found && Standing(st, a, b, wants, had, used) && st.cap.Some?
    ensures !NoneFound(wants[1..]) ==>
              (FitsIn(b, st.cap, |wants[0].bytes|)
               <==> Sum(Waiting(wants[1..], had)) + Sum(used) + |wants[0].bytes| <= st.cap.value)
  {
    if !NoneFound(wants[1..]) {
      var v :| v in wants[1..] && v.found;
      assert v in wants;
      FitsBySum(b, Waiting(wants, had), used, st.cap, |wants[0].bytes|);
    }
  }

  // ---- looking everything up first ----

  /** `had` is what is held of the wanted entries. */
  ghost predicate Records(items: seq<Item>, wants: seq<Want>, had: map<Key, nat>) {
    forall w :: w in wants ==> (if w.key in Table(items) then w.key in had && had[w.key] == |Table(items)[w.key].bytes|
                                else w.key !in had)
  }

  lemma LookNext(st: State, a: seq<Item>, b: seq<Item>, key: Key)
    returns (a': seq<Item>, b': seq<Item>)
    requires InOrder(st) && st.items == a + b && !HasKey(MarksOf(b), key)
    ensures var now := StepGet(st, key, true);
            && now.items == a' + b'
            && MarksOf(b') == MarksOf(b) + if key in Table(st.items) then [(key, |Table(st.items)[key].bytes|)] else []
  {
    GetShape(st, key);
    if key in Table(st.items) {
      var item := Item(key, Table(st.items)[key].bytes, st.clock + 1);
      TableKeys(b, key);
      MinusAbsent(b, key);
      MinusJoin(a, b, {key});
      MarksJoin(b, [item]);
      assert MarksOf([item]) == [(key, |item.bytes|)];
      a', b' := Minus(a, {key}), b + [item];
      hide Minus, Table, StepGet;
      assert Minus(a, {key}) + b + [item] == a' + b';
    } else {
      a', b' := a, b;
    }
  }

  lemma RecordsRest(items: seq<Item>, items': seq<Item>, wants: seq<Want>, had: map<Key, nat>)
    requires wants != [] && Records(items, wants, had) && forall k :: Lookup(items', k) == Lookup(items, k)
    ensures Records(items', wants[1..], had)
  {
    hide Table;
    forall w | w in wants[1..]
      ensures if w.key in Table(items') then w.key in had && had[w.key] == |Table(items')[w.key].bytes|
              else w.key !in had
    {
      assert w in wants && Lookup(items', w.key) == Lookup(items, w.key);
    }
  }

  /** Once all entries have been looked up, those that are held end the list, in order. */
  lemma {:induction false} LookedTail(st: State, a: seq<Item>, b: seq<Item>, wants: seq<Want>, had: map<Key, nat>)
    returns (a': seq<Item>, b': seq<Item>)
    requires InOrder(st) && st.items == a + b && Distinct(wants) && Records(st.items, wants, had)
    requires forall w :: w in wants ==> !HasKey(MarksOf(b), w.key)
    ensures var now := Looked(st, wants);
            && InOrder(now) && now.cap == st.cap && now.items == a' + b'
            && MarksOf(b') == MarksOf(b) + Present(wants, had)
            && forall k :: Lookup(now.items, k) == Lookup(st.items, k)
    decreases wants
  {
    hide StepGet, InOrder, Table, HasKey, MarksOf;
    if wants == [] {
      a', b' := a, b;
    } else {
      var w := wants[0];
      GetShape(st, w.key);
      UseInOrder(st, w.key);
      var a1, b1 := LookNext(st, a, b, w.key);
      RecordsRest(st.items, StepGet(st, w.key, true).items, wants, had);
      RestDistinct(wants);
      var m := if w.key in Table(st.items) then [(w.key, |Table(st.items)[w.key].bytes|)] else [];
      forall v | v in wants[1..] ensures !HasKey(MarksOf(b1), v.key) {
        assert v in wants;
        KeyJoin(MarksOf(b), m, v.key);
        OneKey(m, v.key);
      }
      a', b' := LookedTail(StepGet(st, w.key, true), a1, b1, wants[1..], had);
      assert MarksOf(b) + m + Present(wants[1..], had) == MarksOf(b) + Present(wants, had);
    }
  }

  lemma OneKey(m: Marks, key: Key)
    requires |m| <= 1 && (m != [] ==> m[0].0 != key)
    ensures !HasKey(m, key)
  {
  }

  lemma SizesRecord(items: seq<Item>, wants: seq<Want>)
    ensures Records(items, wants, Sizes(items))
  {
    hide Table;
  }

  /**
   Look everything up, then read what was found and store what was not: this gets through exactly if
   there is no budget or every store that still matters has room.
   */
  lemma LookThenPass(st: State, wants: seq<Want>)
    requires InOrder(st) && Distinct(wants) && forall w :: w in wants && w.found ==> w.key in Table(st.items)
    ensures InOrder(Looked(st, wants)) && Looked(st, wants).cap == st.cap
    ensures forall k :: Lookup(Looked(st, wants).items, k) == Lookup(st.items, k)
    ensures Passes(Looked(st, wants), wants) <==> (st.cap.Some? ==> Room(st.cap.value, wants, Sizes(st.items), 0))
  {
    hide StepGet, StepPut, InOrder, Table, MarksOf, Distinct, Looked, Passes, Room, Present, Waiting;
    var had, now := Sizes(st.items), Looked(st, wants);
    SizesRecord(st.items, wants);
    NoMarks();
    assert st.items == st.items + [];
    var a, b := LookedTail(st, st.items, [], wants, had);
    if st.cap.Some? {
      var p := WaitingEnds(wants, had);
      MarksCut(b, p, Waiting(wants, had));
      assert now.items == (a + b[..|p|]) + b[|p|..];
      assert MarksOf(b[|p|..]) == Waiting(wants, had) + [];
      NoSum();
      PassExact(now, a + b[..|p|], b[|p|..], wants, had, []);
    } else {
      forall w | w in wants && w.found ensures w.key in Table(now.items) {
        assert Lookup(now.items, w.key) == Lookup(st.items, w.key);
      }
      PassUncapped(now, wants);
    }
  }

  lemma NoMarks()
    ensures MarksOf([]) == [] && forall k :: !HasKey([], k)
  {
  }

  lemma NoSum()
    ensures Sum([]) == 0
  {
  }

  lemma {:induction false} MarksCut(b: seq<Item>, p: Marks, q: Marks)
    requires MarksOf(b) == p + q
    ensures |p| <= |b| && MarksOf(b[|p|..]) == q
  {
    MarksSuffix(b, |p|);
    assert (p + q)[|p|..] == q;
  }

  lemma StoreUncapped(s: State, key: Key, bytes: Bytes, k: Key)
    requires s.cap == None && k != key && k in Table(s.items)
    ensures StepPut(s, key, bytes, true).cap == None && k in Table(StepPut(s, key, bytes, true).items)
  {
    hide Minus, Table;
    TableMinus(s.items, {key});
    AppendTable(Minus(s.items, {key}), Item(key, bytes, s.clock + 1));
  }

  lemma {:induction false} PassUncapped(st: State, wants: seq<Want>)
    requires st.cap == None && InOrder(st) && Distinct(wants)
    requires forall w :: w in wants && w.found ==> w.key in Table(st.items)
    ensures Passes(st, wants)
    decreases wants
  {
    if wants != [] {
      hide StepGet, StepPut, InOrder, Table, Distinct;
      var w := wants[0];
      var got := StepGet(st, w.key, true);
      var now := if w.found then got else StepPut(got, w.key, w.bytes, true);
      GetShape(st, w.key);
      UseInOrder(st, w.key);
      StoreInOrder(got, w.key, w.bytes);
      PutShape(st, w.key, w.bytes);
      RestDistinct(wants);
      forall v | v in wants[1..] && v.found ensures v.key in Table(now.items) {
        assert v in wants && Lookup(got.items, v.key) == Lookup(st.items, v.key);
        StoreUncapped(got, w.key, w.bytes, v.key);
      }
      PassUncapped(now, wants[1..]);
    }
  }

  // ---- the condition as one sum ----

  /** The wanted entries up to the last one found. */
  function UpToLastFound(wants: seq<Want>): seq<Want> {
    if (forall w :: w in wants ==> !w.found) then [] else [wants[0]] + UpToLastFound(wants[1..])
  }

  /** What these take up in the cache together; an entry over the budget is never stored. */
  function Needs(cap: nat, wants: seq<Want>, had: map<Key, nat>): nat {
    if wants == [] then 0
    else
      (if wants[0].key in had then had[wants[0].key] else if |wants[0].bytes| <= cap then |wants[0].bytes| else 0)
      + Needs(cap, wants[1..], had)
  }

  /** Whatever is held has been found. */
  ghost predicate Clear(wants: seq<Want>, had: map<Key, nat>) { forall w :: w in wants ==> (w.found <==> w.key in had) }

  lemma {:induction false} WaitingIsPresent(wants: seq<Want>, had: map<Key, nat>)
    requires Clear(wants, had)
    ensures Waiting(wants, had) == Present(wants, had)
  {
    if wants != [] && !wants[0].found {
      assert wants[0] in wants && forall w :: w in wants[1..] ==> w in wants;
      WaitingIsPresent(wants[1..], had);
    }
  }

  /** One entry's share of the sum. */
  lemma PresentSum(wants: seq<Want>, had: map<Key, nat>)
    requires wants != []
    ensures Sum(Present(wants, had))
            == (if wants[0].key in had then had[wants[0].key] else 0) + Sum(Present(wants[1..], had))
  {
    var mark := if wants[0].key in had then [(wants[0].key, had[wants[0].key])] else [];
    SumJoin(mark, Present(wants[1..], had));
    assert mark != [] ==> mark[1..] == [];
  }

  lemma ClearRest(wants: seq<Want>, had: map<Key, nat>)
    requires Clear(wants, had) && wants != []
    ensures Clear(wants[1..], had) && (wants[0].found <==> wants[0].key in had)
  {
    assert wants[0] in wants && forall w :: w in wants[1..] ==> w in wants;
  }

  /** The needs up to the last found entry, one entry at a time. */
  lemma NeedsNext(cap: nat, wants: seq<Want>, had: map<Key, nat>)
    requires wants != []
    ensures var w, rest := wants[0], Needs(cap, UpToLastFound(wants[1..]), had);
            Needs(cap, UpToLastFound(wants), had)
            == if NoneFound(wants) then 0
               else (if w.key in had then had[w.key] else if |w.bytes| <= cap then |w.bytes| else 0) + rest
  {
    if !NoneFound(wants) { assert ([wants[0]] + UpToLastFound(wants[1..]))[1..] == UpToLastFound(wants[1..]); }
  }

  lemma {:induction false} NeedsHeld(cap: nat, wants: seq<Want>, had: map<Key, nat>)
    requires Clear(wants, had)
    ensures Needs(cap, UpToLastFound(wants), had) >= Sum(Present(wants, had))
    ensures NoneFound(wants) ==> Sum(Present(wants, had)) == 0 && Needs(cap, UpToLastFound(wants), had) == 0
  {
    hide Needs, UpToLastFound, Present, Sum;
    if wants == [] {
      NothingNeeded(cap, had);
    } else {
      ClearRest(wants, had);
      NeedsHeld(cap, wants[1..], had);
      PresentSum(wants, had);
      NeedsNext(cap, wants, had);
      NoneFoundNext(wants);
    }
  }

  lemma NoneFoundNext(wants: seq<Want>)
    requires wants != []
    ensures NoneFound(wants) <==> !wants[0].found && NoneFound(wants[1..])
  {
    forall w | w in wants ensures w == wants[0] || w in wants[1..] {
      var i :| 0 <= i < |wants| && wants[i] == w;
      assert i > 0 ==> wants[1..][i - 1] == w;
    }
  }

  lemma NothingNeeded(cap: nat, had: map<Key, nat>)
    ensures Needs(cap, UpToLastFound([]), had) == 0 && Sum(Present([], had)) == 0 && NoneFound([])
  {
  }

  /** `Room`, one entry at a time, where whatever is held has been found. */
  lemma RoomNext(cap: nat, wants: seq<Want>, had: map<Key, nat>, used: nat)
    requires wants != [] && Clear(wants, had)
    ensures var w, rest := wants[0], wants[1..];
            && (w.found ==> (Room(cap, wants, had, used) <==> Room(cap, rest, had, used + had[w.key])))
            && (!w.found && |w.bytes| > cap ==> (Room(cap, wants, had, used) <==> Room(cap, rest, had, used)))
            && (!w.found && |w.bytes| <= cap ==>
                  (Room(cap, wants, had, used) <==>
                     && (NoneFound(rest) || Sum(Present(rest, had)) + used + |w.bytes| <= cap)
                     && Room(cap, rest, had, used + |w.bytes|)))
  {
    ClearRest(wants, had);
    WaitingIsPresent(wants[1..], had);
    hide Sum, Present, Waiting;
  }

  lemma {:induction false} NoneFoundRoom(cap: nat, wants: seq<Want>, had: map<Key, nat>, used: nat)
    requires NoneFound(wants)
    ensures Room(cap, wants, had, used)
    decreases wants
  {
    hide Sum, Waiting;
    if wants != [] {
      NoneFoundNext(wants);
      NoneFoundRoom(cap, wants[1..], had, used);
      NoneFoundRoom(cap, wants[1..], had, used + |wants[0].bytes|);
    }
  }

  /**
   Where whatever is held has been found, the pass gets through exactly if everything up to the last
   found entry fits the budget together.
   */
  lemma {:induction false} RoomIsSum(cap: nat, wants: seq<Want>, had: map<Key, nat>, used: nat)
    requires Clear(wants, had) && used + Sum(Present(wants, had)) <= cap
    ensures Room(cap, wants, had, used) <==> used + Needs(cap, UpToLastFound(wants), had) <= cap
    decreases wants
  {
    hide Needs, UpToLastFound, Present, Sum, Room, NoneFound;
    NeedsHeld(cap, wants, had);
    if NoneFound(wants) {
      NoneFoundRoom(cap, wants, had, used);
    } else {
      assert wants != [] by { SomeFound(wants); }
      var w, rest := wants[0], wants[1..];
      ClearRest(wants, had);
      RoomNext(cap, wants, had, used);
      NeedsNext(cap, wants, had);
      PresentSum(wants, had);
      NoneFoundNext(wants);
      NeedsHeld(cap, rest, had);
      if w.found {
        RoomIsSum(cap, rest, had, used + had[w.key]);
      } else if |w.bytes| > cap {
        RoomIsSum(cap, rest, had, used);
      } else if used + |w.bytes| + Sum(Present(rest, had)) <= cap {
        RoomIsSum(cap, rest, had, used + |w.bytes|);
      }
    }
  }

  lemma SomeFound(wants: seq<Want>)
    requires !NoneFound(wants)
    ensures wants != []
  {
  }

  lemma SizesWithout(items: seq<Item>, key: Key, wants: seq<Want>)
    requires forall w :: w in wants ==> w.key != key
    ensures Present(wants, Sizes(Minus(items, {key}))) == Present(wants, Sizes(items))
  {
    TableMinus(items, {key});
    hide Table, Minus;
    PresentSame(wants, Sizes(Minus(items, {key})), Sizes(items));
  }

  lemma {:induction false} PresentSame(wants: seq<Want>, had: map<Key, nat>, had': map<Key, nat>)
    requires forall w :: w in wants ==>
      (w.key in had <==> w.key in had') && (w.key in had ==> had[w.key] == had'[w.key])
    ensures Present(wants, had) == Present(wants, had')
  {
    if wants != [] {
      assert wants[0] in wants && forall w :: w in wants[1..] ==> w in wants;
      PresentSame(wants[1..], had, had');
    }
  }

  /** What is held of a span is no more than what the cache holds. */
  lemma {:induction false} HeldIsPart(items: seq<Item>, clock: nat, wants: seq<Want>)
    requires Ordered(items, 0, clock) && Distinct(wants)
    ensures Sum(Present(wants, Sizes(items))) <= Total(items)
    decreases wants
  {
    if wants != [] {
      var w, rest := wants[0], wants[1..];
      RestDistinct(wants);
      var fewer := Minus(items, {w.key});
      TotalMinus(items, 0, clock, w.key);
      OrderedMinus(items, 0, clock, {w.key});
      SizesWithout(items, w.key, rest);
      HeldIsPart(fewer, clock, rest);
      PresentSum(wants, Sizes(items));
    }
  }
}
