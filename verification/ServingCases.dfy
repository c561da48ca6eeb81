/** Small files on which a request is refused although every fragment is to be had. */
module ServingCases {
  import opened Machine
  import opened Wrappers
  import opened Framing
  import opened FragmentIndex
  import C = Content
  import opened RangePlan
  import opened BlobKeys
  import opened Lru
  import opened Playback
  import opened ServingModel
  import opened ServingLaws
  import opened ServingRuns

  lemma OneChunkFrame(c: Bytes)
    ensures |Frame([c])| == 8 + |c|
  {
    assert [c][1..] == [] && Body([]) == [];
  }

  /** The ideal key of a file of two one-byte chunks. */
  function TwoChunkKey(): C.ContentDecryptor {
    var first, second := C.ChunkAad([], 1, C.ContentStream, 0, false), C.ChunkAad([], 1, C.ContentStream, 1, true);
    C.ContentDecryptor([], 1, 2, map[(first, [1]) := [7], (second, [2]) := [8]])
  }

  /** A two-byte file of two fragments, each of one chunk. */
  ghost function TwoChunks(): Scene {
    Scene([FragmentEntry(0, 0, 0, 1), FragmentEntry(1, 0, 1, 1)], Frag, "aa", TwoChunkKey(), [7, 8], 1, [[1], [2]])
  }

  /** A RAM cache that holds these bytes for the second fragment, and nothing else. */
  function Second(cap: Option<nat>, bytes: Bytes): State { State(cap, 1, [Item(Key(Frag, "aa", 1), bytes, 1)]) }

  /** An honest source for the two chunks. */
  function BothChunks(): Answers { (h: seq<nat>, i: nat) => if i < 2 then Some([i + 1]) else None }

  /** A source that answers chunk `bad` with bytes that do not open. */
  function AllBut(bad: nat): Answers {
    (h: seq<nat>, i: nat) => if i == bad then Some([9]) else if i < 2 then Some([i + 1]) else None
  }

  lemma TwoChunksAreWhole()
    ensures TwoChunks().Whole() && C.Unambiguous(TwoChunkKey())
    ensures |TwoChunks().index| == 2 < U32_BOUND && Short(TwoChunks().index)
    ensures forall req: RangeReq :: req.start + req.len <= 2 && req.len >= 1 ==>
              Planned(TwoChunks(), req, req.start, LastByte(req), Plan(req.start, LastByte(req), req.start))
  {
    var sc := TwoChunks();
    assert Linked(sc.index, 0) && Linked(sc.index, 1);
    assert sc.d.Opens(0, [1]) && sc.d.Opens(1, [2]);
    assert C.ChunkBytes(sc.content, 1, 0, 1) == [7] && C.ChunkBytes(sc.content, 1, 1, 2) == [8];
  }

  lemma TwoChunkSources()
    ensures Routed(TwoChunks(), BothChunks(), {})
    ensures Routed(TwoChunks(), AllBut(0), {0}) && Routed(TwoChunks(), AllBut(1), {1})
  {
  }

  lemma TwoChunkSlots()
    ensures TwoChunks().KeyOf(0) == Some(Key(Frag, "aa", 0)) && TwoChunks().KeyOf(1) == Some(Key(Frag, "aa", 1))
    ensures TwoChunks().FrameOf(0) == Frame([[1]]) && TwoChunks().FrameOf(1) == Frame([[2]])
    ensures |Frame([[1]])| == |Frame([[2]])| == |Frame([[9]])| == 9
  {
    OneChunkFrame([1]);
    OneChunkFrame([2]);
    OneChunkFrame([9]);
    var sc := TwoChunks();
    assert sc.cts[0..1] == [[1]] && sc.cts[1..2] == [[2]];
    assert Lowercase("aa") == "aa";
  }

  lemma SecondHeld(cap: Option<nat>, bytes: Bytes)
    ensures var st := Second(cap, bytes);
            && (cap.None? || |bytes| <= cap.value ==> Sane(st))
            && Lru.Lookup(st.items, Key(Frag, "aa", 0)) == None
            && Lru.Lookup(st.items, Key(Frag, "aa", 1)) == Some(bytes)
  {
    var st := Second(cap, bytes);
    assert st.items[1..] == [];
    assert Total(st.items) == |bytes| && Ordered(st.items, 0, 1);
    assert Table(st.items) == map[Key(Frag, "aa", 1) := st.items[0]];
  }

  lemma SecondIsTidy(cap: Option<nat>)
    ensures var sc, st := TwoChunks(), Second(cap, Frame([[2]]));
            AllTidy(sc, st.items) && !sc.SlotIn(st.items, 0) && sc.SlotIn(st.items, 1)
  {
    TwoChunkSlots();
    SecondHeld(cap, Frame([[2]]));
    hide Frame, Scene.KeyOf, Lru.Lookup, Scene.FrameOf;
  }

  /**
   All sources honest, and a budget that has room for either fragment: with the second one held, the
   request for both is refused, and with either one asked for alone it is served.
   */
  lemma CrampedHappens()
    ensures var sc, st := TwoChunks(), Second(Some(10), Frame([[2]]));
            && Sane(st) && AllTidy(sc, st.items) && Routed(sc, BothChunks(), {})
            && !Serve(sc, st, 0, 1, BothChunks(), {}, BothChunks()).ok
            && Serve(sc, st, 0, 0, BothChunks(), {}, BothChunks()).ok
            && Serve(sc, st, 1, 1, BothChunks(), {}, BothChunks()).ok
  {
    hide *;
    var sc, st, honest := TwoChunks(), Second(Some(10), Frame([[2]])), BothChunks();
    TwoChunksAreWhole();
    TwoChunkSources();
    TwoChunkSlots();
    SecondHeld(Some(10), Frame([[2]]));
    SecondIsTidy(Some(10));
    TwoChunkNeeds(sc, st);
    ServedTidy(sc, st, 0, 1, honest, {}, honest);
    HonestAdmits(sc, st, 0, 1, honest);
    ServedTidy(sc, st, 0, 0, honest, {}, honest);
    HonestAdmits(sc, st, 0, 0, honest);
    ServedTidy(sc, st, 1, 1, honest, {}, honest);
    HonestAdmits(sc, st, 1, 1, honest);
  }

  lemma TwoChunkNeeds(sc: Scene, st: State)
    requires |sc.index| == 2 && !sc.SlotIn(st.items, 0) && sc.SlotIn(st.items, 1)
    requires |sc.FrameOf(0)| == |sc.FrameOf(1)| == 9
    ensures SpanNeeds(sc, st.items, 10, 0, 1) == 18
    ensures SpanNeeds(sc, st.items, 10, 0, 0) == 0 && SpanNeeds(sc, st.items, 10, 1, 1) == 9
    ensures st == Second(Some(10), Frame([[2]])) ==> st.cap == Some(10)
  {
    hide Scene.SlotIn, Scene.FrameOf, Frame;
    SpanNeedsNext(sc, st.items, 10, 0, 1);
    SpanNeedsNext(sc, st.items, 10, 1, 1);
    SpanNeedsNext(sc, st.items, 10, 2, 1);
    SpanNeedsNext(sc, st.items, 10, 0, 0);
  }

  /**
   No budget, an honest proxy, and a direct link that lies about the first fragment: with the second
   one held, the request for both is refused; with nothing held, the same link does no harm.
   */
  lemma LinkDenies()
    ensures var sc, st := TwoChunks(), Second(None, Frame([[2]]));
            && Sane(st) && AllTidy(sc, st.items) && Routed(sc, AllBut(0), {0}) && Routed(sc, BothChunks(), {})
            && !Serve(sc, st, 0, 1, AllBut(0), {0}, BothChunks()).ok
            && Serve(sc, State(None, 0, []), 0, 1, AllBut(0), {0}, BothChunks()).ok
  {
    hide *;
    var sc, st, empty := TwoChunks(), Second(None, Frame([[2]])), State(None, 0, []);
    TwoChunksAreWhole();
    TwoChunkSources();
    SecondHeld(None, Frame([[2]]));
    SecondIsTidy(None);
    EmptyIsTidy(sc, None);
    SaneInOrder(st);
    SaneInOrder(empty);
    AllTidySpan(sc, st.items, 0, 1);
    AllTidySpan(sc, empty.items, 0, 1);
    LinksExact(sc, st, 0, 1, AllBut(0), {0}, BothChunks());
    LinksExact(sc, empty, 0, 1, AllBut(0), {0}, BothChunks());
    FirstDoesNotOpen(sc, st.items);
    SomeHeld(sc, st.items);
  }

  lemma SomeHeld(sc: Scene, items: seq<Item>)
    requires sc.SlotIn(items, 1)
    ensures !NoneHeld(sc, items, 0, 1)
  {
  }

  lemma EmptyIsTidy(sc: Scene, cap: Option<nat>)
    ensures Sane(State(cap, 0, [])) && AllTidy(sc, [])
    ensures forall k0, k1: u32 :: NoneHeld(sc, [], k0, k1)
  {
  }

  lemma FirstDoesNotOpen(sc: Scene, items: seq<Item>)
    requires sc == TwoChunks() && !sc.SlotIn(items, 0)
    ensures |sc.index| == 2 && !DirectOpens(sc, items, 0, 1, AllBut(0), {0})
  {
    AbsentMisses(sc, items, 0) by { hide Scene.KeyOf; }
    assert MissAt(sc, items, 0, 0) by { hide HitOf; }
    assert !sc.d.Opens(0, [9]);
    hide HitOf, MissAt;
    assert AllBut(0)([], 0) == Some([9]);
  }

  /**
   One bad chunk from the server for the second fragment, over an empty cache without a budget: the
   request is refused, as it must be, and so is every later request for that fragment, however many
   there are and however honest the sources have become.
   */
  lemma PoisonedForGood(tries: seq<Try>, t: Try)
    ensures var sc := TwoChunks();
            var first := Serve(sc, State(None, 0, []), 1, 1, AllBut(1), {}, AllBut(1));
            !first.ok && !Serve(sc, Tried(sc, first.st, 1, 1, tries), 1, 1, t.routed, t.direct, t.proxied).ok
  {
    hide *;
    var sc := TwoChunks();
    TwoChunksAreWhole();
    FirstPoisons();
    SecondHeld(None, Frame([[9]]));
    SaneInOrder(Second(None, Frame([[9]])));
    BadIsOffered(Second(None, Frame([[9]])));
    WholeIsFormed(sc);
    RefusedForever(sc, Second(None, Frame([[9]])), 1, 1, tries, t);
  }

  lemma WholeIsFormed(sc: Scene)
    requires sc.Whole()
    ensures WellFormed(sc.index)
  {
  }

  /** The bad chunk is stored before it is found not to open. */
  lemma FirstPoisons()
    ensures |TwoChunks().index| == 2
    ensures Serve(TwoChunks(), State(None, 0, []), 1, 1, AllBut(1), {}, AllBut(1))
            == Outcome(false, Second(None, Frame([[9]])))
  {
    var sc, st := TwoChunks(), State(None, 0, []);
    SecondListed();
    SecondFed();
    assert AllBut(1)([], 1) == Some([9]);
    hide Frame, Scene.KeyOf, Step, Feed, Gathered, Listed, FeedAll;
    GatheredOne(AllBut(1), 1, [9]);
    FeedAllNext(sc, st, map[1 := [9]], 1, 1);
  }

  /** Over an empty cache the one chunk of the second fragment is fetched. */
  lemma SecondListed()
    ensures var sc, st := TwoChunks(), State(None, 0, []);
            |sc.index| == 2 && Listed(sc, [], 1, 1) == {1} && LookAll(sc, st, 1, 1) == st
  {
    var sc, st := TwoChunks(), State(None, 0, []);
    TwoChunkSlots();
    assert Indices(1, 2) == Indices(1, 1) + [1] == [1];
    hide Scene.KeyOf, Step, Indices, Deframed;
    AbsentMisses(sc, [], 1);
    GetStep(sc, st, 1);
    assert Todo(sc, [], 1, 1) == [1] + Todo(sc, [], 2, 1) == [1];
    LookAllOne(sc, st, 1);
  }

  /** It is stored, and does not open. */
  lemma SecondFed()
    ensures var sc := TwoChunks();
            && |sc.index| == 2
            && Feed(sc.index[1], sc.d, sc.ns, sc.id, 1, State(None, 0, []), map[1 := [9]])
               == Outcome(false, Second(None, Frame([[9]])))
  {
    var sc, st, held := TwoChunks(), State(None, 0, []), map[1 := [9]];
    TwoChunkSlots();
    KeyIs(sc, 1);
    hide Frame, Step, Feed, Deframed;
    FeedIs(sc.index[1], sc.d, sc.ns, sc.id, 1, st, held);
    GetStep(sc, st, 1);
    AllHeld(held, 1, 2, [[9]]);
    assert !sc.d.Opens(1 + 0, [[9]][0]);
    PutStep(sc, st, 1, Frame([[9]]));
    StoreInEmpty(Key(Frag, "aa", 1), Frame([[9]]));
  }

  lemma GatheredOne(answers: Answers, i: nat, c: Bytes)
    requires answers([], i) == Some(c)
    ensures Gathered(answers, {i}) == Some(map[i := c])
  {
    assert Gathered(answers, {i}).value == map[i := c];
  }

  lemma LookAllOne(sc: Scene, st: State, k: nat)
    requires k < U32_BOUND && Step(st, Get(sc.ns, sc.id, k, true)) == st
    ensures LookAll(sc, st, k, k) == st
  {
    hide Step;
  }

  lemma StoreInEmpty(key: Key, bytes: Bytes)
    ensures StepGet(State(None, 0, []), key, true) == State(None, 0, [])
    ensures StepPut(State(None, 0, []), key, bytes, true) == State(None, 1, [Item(key, bytes, 1)])
  {
  }

  /** It is offered from then on, and never opens. */
  lemma BadIsOffered(st: State)
    requires Lru.Lookup(st.items, Key(Frag, "aa", 1)) == Some(Frame([[9]]))
    ensures |TwoChunks().index| == 2
    ensures AllHit(TwoChunks(), st.items, 1, 1) && !OffersOpen(TwoChunks(), st.items, 1, 1)
  {
    var sc := TwoChunks();
    TwoChunkSlots();
    hide Frame, Deframed, Scene.KeyOf, Lru.Lookup;
    assert Fits([[9]]);
    DeframeInvertsFrame([[9]]);
    assert HitOf(sc, st.items, 1) == Some([[9]]);
    assert !sc.d.Opens(1 + 0, [[9]][0]);
    assert !OfferOpens(sc, st.items, 1);
  }
}
