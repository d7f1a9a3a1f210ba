/**
 * What the deadline scheduler is named after: a request whose deadline has
 * passed is dispatched, or has become part of another, within a bounded number
 * of dispatch calls.
 */
module DeadlineLatency {
  import opened Block
  import opened Lists
  import opened Numbers
  import opened DeadlineSpec
  import opened DeadlineSafety

  // ----- places in a fifo --------------------------------------------------

  /** How many requests stand before `z`. */
  function Ahead(f: seq<nat>, z: nat): nat {
    if f == [] || f[0] == z then 0 else 1 + Ahead(f[1..], z)
  }

  /** If `z` is in the later list it was in the earlier one, and no further ahead. */
  ghost predicate NoWorse(f: seq<nat>, f': seq<nat>, z: nat) {
    z in f' ==> z in f && Ahead(f', z) <= Ahead(f, z)
  }

  lemma {:induction false} AheadWithout(f: seq<nat>, x: nat, z: nat)
    ensures NoWorse(f, Without(f, x), z)
    ensures f != [] && f[0] == x && x != z && z in f ==> Ahead(Without(f, x), z) < Ahead(f, z)
  {
    WithoutIn(f, x);
    if f != [] {
      InHeadTail(f);
      AheadWithout(f[1..], x, z);
      WithoutIn(f[1..], x);
      var t := Without(f[1..], x);
      assert ([f[0]] + t)[1..] == t;
      assert [] + t == t;
    }
  }

  lemma {:induction false} AheadAppend(f: seq<nat>, x: nat, z: nat)
    requires x != z
    ensures NoWorse(f, f + [x], z)
  {
    if f == [] {
      assert f + [x] == [x];
    } else {
      InHeadTail(f);
      assert (f + [x])[1..] == f[1..] + [x];
      InHeadTail(f + [x]);
      AheadAppend(f[1..], x, z);
    }
  }

  lemma NoWorseTwice(f: seq<nat>, g: seq<nat>, h: seq<nat>, z: nat)
    requires NoWorse(f, g, z) && NoWorse(g, h, z)
    ensures NoWorse(f, h, z)
  {
  }

  lemma WithoutCons(a: nat, t: seq<nat>, x: nat)
    ensures Without([a] + t, x) == (if a == x then [] else [a]) + Without(t, x)
  {
    assert ([a] + t)[1..] == t;
  }

  lemma AheadCons(a: nat, t: seq<nat>, z: nat)
    ensures Ahead([a] + t, z) == if a == z then 0 else 1 + Ahead(t, z)
  {
    assert ([a] + t)[1..] == t;
  }

  /** `x` in the place of `y`. */
  lemma {:induction false} AheadReplace(f: seq<nat>, x: nat, y: nat, z: nat)
    requires Distinct(f) && z != y && z != x && z in f
    ensures Ahead(Without(InsertAfter(f, x, y), y), z) <= Ahead(f, z)
  {
    hide Without;
    InHeadTail(f);
    var t := f[1..];
    AheadCons(f[0], t, z);
    assert [f[0]] + t == f;
    if f[0] == y {
      assert [y, x] + t == [y] + ([x] + t);
      WithoutCons(y, [x] + t, y);
      assert [] + Without([x] + t, y) == Without([x] + t, y);
      WithoutCons(x, t, y);
      AheadWithout(t, y, z);
      WithoutIn(t, y);
      AheadCons(x, Without(t, y), z);
      assert [] + Without(t, y) == Without(t, y);
    } else {
      var u := InsertAfter(t, x, y);
      WithoutCons(f[0], u, y);
      AheadCons(f[0], Without(u, y), z);
      if f[0] != z {
        AheadReplace(t, x, y, z);
      }
    }
  }

  /** A request that takes the place of an older one does not lose by it. */
  lemma {:induction false} AheadTakes(items: map<nat, Item>, f: seq<nat>, x: nat, y: nat)
    requires ByAge(items, f) && Distinct(f) && x in f && y in f && Expire(items, y) < Expire(items, x)
    ensures Ahead(Without(MoveAfter(f, x, y), y), x) <= Ahead(f, x)
  {
    hide Without;
    InHeadTail(f);
    var t := f[1..];
    assert [f[0]] + t == f;
    assert f[0] != x;
    WithoutCons(f[0], t, x);
    AheadCons(f[0], t, x);
    var g := Without(t, x);
    if f[0] == y {
      assert ([y] + g)[1..] == g;
      assert InsertAfter([y] + g, x, y) == [y, x] + g == [y] + ([x] + g);
      WithoutCons(y, [x] + g, y);
      assert [] + Without([x] + g, y) == Without([x] + g, y);
      WithoutCons(x, g, y);
      AheadCons(x, Without(g, y), x);
    } else {
      assert ([f[0]] + g)[1..] == g;
      var u := InsertAfter(g, x, y);
      WithoutCons(f[0], u, y);
      AheadCons(f[0], Without(u, y), x);
      AheadTakes(items, t, x, y);
    }
  }

  // ----- operations --------------------------------------------------------

  lemma Same(f: seq<nat>, z: nat)
    ensures NoWorse(f, f, z)
  {
  }

  lemma MoveFifo(s: State, a: nat, w: bool, z: nat)
    requires a in s.items
    ensures NoWorse(SideOf(s, w).fifo, SideOf(Move(s, a), w).fifo, z)
    ensures Move(s, a).items == s.items && Move(s, a).batching == s.batching && Move(s, a).starved == s.starved
  {
    hide Without, After, Ahead;
    AheadWithout(SideOf(s, w).fifo, a, z);
    Same(SideOf(s, w).fifo, z);
  }

  lemma AddSortedFifo(s: State, x: nat, w: bool, z: nat)
    requires x in s.items
    ensures NoWorse(SideOf(s, w).fifo, SideOf(AddSorted(s, x), w).fifo, z)
    ensures var s' := AddSorted(s, x); s'.items == s.items && s'.batching == s.batching && s'.starved == s.starved
  {
    hide Move, NoWorse, Insert, Alias;
    Same(SideOf(s, w).fifo, z);
    var alias := Alias(s.items, SideOf(s, s.items[x].write).sorted, s.items[x].sector);
    if alias.Some? && alias.value in s.items {
      MoveFifo(s, alias.value, w, z);
    }
  }

  lemma AddFifo(cfg: Settings, s: State, x: nat, write: bool, sector: nat, sectors: nat, now: nat, w: bool, z: nat)
    requires x != z
    ensures var s' := Add(cfg, s, x, write, sector, sectors, now);
      && NoWorse(SideOf(s, w).fifo, SideOf(s', w).fifo, z)
      && s'.batching == s.batching && s'.starved == s.starved && s'.items == s.items[x := s'.items[x]]
  {
    hide AddSorted, NoWorse;
    var expire := now + if write then cfg.writeExpire else cfg.readExpire;
    var s0 := s.(items := s.items[x := Item(write, sector, sectors, expire)], nrSorted := s.nrSorted + 1);
    AddSortedFifo(s0, x, w, z);
    var f := SideOf(AddSorted(s0, x), w).fifo;
    AheadAppend(f, x, z);
    NoWorseTwice(SideOf(s, w).fifo, f, f + [x], z);
  }

  lemma FrontFifo(s: State, x: nat, sector: nat, sectors: nat, w: bool, z: nat)
    requires x in s.items
    ensures var s' := FrontMerged(s, x, sector, sectors);
      && NoWorse(SideOf(s, w).fifo, SideOf(s', w).fifo, z)
      && s'.batching == s.batching && s'.starved == s.starved
      && s'.items == s.items[x := s.items[x].(sector := sector, sectors := sectors)]
  {
    hide AddSorted, NoWorse, Without;
    var s1 := s.(items := s.items[x := s.items[x].(sector := sector, sectors := sectors)]);
    var v := s.items[x].write;
    AddSortedFifo(WithSide(s1, v, SideOf(s1, v).(sorted := Without(SideOf(s1, v).sorted, x))), x, w, z);
  }

  lemma JoinedPlace(items: map<nat, Item>, f: seq<nat>, x: nat, y: nat, z: nat)
    requires ByAge(items, f) && Distinct(f) && x != y && x in f && y in f && z in f
    requires Expire(items, y) < Expire(items, x)
    ensures NoWorse(f, Without(MoveAfter(f, x, y), y), z)
  {
    hide Distinct, ByAge, InsertAfter, Ahead;
    if z == y {
      WithoutIn(MoveAfter(f, x, y), y);
    } else if z == x {
      AheadTakes(items, f, x, y);
    } else {
      WithoutIn(f, x);
      WithoutDistinct(f, x);
      AheadWithout(f, x, z);
      AheadReplace(Without(f, x), x, y, z);
    }
  }

  lemma JoinedFifo(s: State, x: nat, y: nat, sectors: nat, z: nat)
    requires Near(s, None) && x != y && Held(s, x) && Held(s, y) && s.items[x].write == s.items[y].write && Held(s, z)
    ensures var s', w := Joined(s, x, y, sectors), s.items[z].write;
      && NoWorse(SideOf(s, w).fifo, SideOf(s', w).fifo, z)
      && s'.batching == s.batching && s'.starved == s.starved
      && s'.items.Keys == s.items.Keys && s'.items[z].write == w && s'.items[z].expire <= s.items[z].expire
  {
    hide Distinct, BySector, Without, MoveAfter, After, NoWorse, Gone;
    var w, v := s.items[z].write, s.items[x].write;
    var f := SideOf(s, w).fifo;
    Same(f, z);
    if w == v {
      if s.items[y].expire < s.items[x].expire {
        JoinedPlace(s.items, f, x, y, z);
      } else {
        AheadWithout(f, y, z);
      }
    }
  }

  /** Nothing but dispatching touches the counters, and nothing sends a waiting request back. */
  lemma PlaceKept(cfg: Settings, s: State, op: Op, now: nat, z: nat)
    requires Inv(cfg, s, now) && Allowed(cfg, s, op, now) && !op.DispatchOne? && Held(s, z)
    ensures var s', w := Next(cfg, s, op, now), s.items[z].write;
      && s'.batching == s.batching && s'.starved == s.starved
      && z in s'.items && s'.items[z].write == w && s'.items[z].expire <= s.items[z].expire
      && NoWorse(SideOf(s, w).fifo, SideOf(s', w).fifo, z)
  {
    hide Near, Fresh, Add, FrontMerged, Joined, NoWorse;
    var w := s.items[z].write;
    match op
    case Arrive(x, write, sector, sectors) => AddFifo(cfg, s, x, write, sector, sectors, now, w, z);
    case Back(x, sectors) => Same(SideOf(s, w).fifo, z);
    case Front(x, sector, sectors) => FrontFifo(s, x, sector, sectors, w, z);
    case Join(x, y, sectors) => JoinedFifo(s, x, y, sectors, z);
  }

  // ----- batches -----------------------------------------------------------

  /** The next in the sorted index is the one with the least higher sector. */
  lemma {:induction false} AfterIsNext(items: map<nat, Item>, s: seq<nat>, x: nat)
    requires BySector(items, s) && x in s
    ensures After(s, x).Some? ==>
      var y := After(s, x).value;
      && y in s && Sector(items, x) < Sector(items, y)
      && forall z | z in s && Sector(items, z) > Sector(items, x) :: Sector(items, y) <= Sector(items, z)
    ensures After(s, x).None? ==> forall z | z in s :: Sector(items, z) <= Sector(items, x)
  {
    InHeadTail(s);
    if s[0] == x {
      if |s| > 1 {
        InHeadTail(s[1..]);
      }
    } else {
      AfterIsNext(items, s[1..], x);
    }
  }

  /** A batch goes up: what follows `x` is the waiting request of its direction with the least higher sector. */
  lemma BatchGoesUp(s: State, x: nat)
    requires x in s.items && x in SideOf(s, s.items[x].write).sorted
    requires BySector(s.items, SideOf(s, s.items[x].write).sorted)
    ensures
      var w := s.items[x].write;
      var d, e := SideOf(Move(s, x), w), SideOf(Move(s, x), !w);
      && e.next.None?
      && (d.next.Some? ==>
            && d.next.value in d.sorted && Sector(s.items, x) < Sector(s.items, d.next.value)
            && forall z | z in d.sorted && Sector(s.items, z) > Sector(s.items, x) ::
                 Sector(s.items, d.next.value) <= Sector(s.items, z))
      && (d.next.None? ==> forall z | z in d.sorted :: Sector(s.items, z) <= Sector(s.items, x))
  {
    hide After, Without, BySector, ByAge, Distinct, Gone;
    var sorted := SideOf(s, s.items[x].write).sorted;
    AfterIsNext(s.items, sorted, x);
    WithoutIn(sorted, x);
  }

  // ----- a potential -------------------------------------------------------

  /** How many batches the other direction may still get before this one has its turn. */
  function Passes(cfg: Settings, s: State, w: bool): nat {
    if w then (if s.starved < cfg.writesStarved then cfg.writesStarved - s.starved else 0)
    else if s.starved >= cfg.writesStarved then 1 else 0
  }

  function MaxPasses(cfg: Settings, w: bool): nat {
    if w then cfg.writesStarved else 1
  }

  function Rest(cfg: Settings, s: State): nat {
    if s.batching < cfg.fifoBatch then cfg.fifoBatch - s.batching else 0
  }

  /** Calls from one batch of a direction to the next, at most. */
  function Window(cfg: Settings, w: bool): nat {
    Mul(MaxPasses(cfg, w) + 1, Batch(cfg))
  }

  /** Calls until `z`, whose deadline has passed, is gone, at most. */
  function Calls(cfg: Settings, s: State, w: bool, z: nat): nat {
    Mul(Ahead(SideOf(s, w).fifo, z), Window(cfg, w)) + Rest(cfg, s) + Mul(Passes(cfg, s, w), Batch(cfg))
  }

  /** The other direction can hold this one up for good only if writes need not starve at all. */
  predicate Served(cfg: Settings, w: bool) {
    w || cfg.writesStarved > 0
  }

  /** The head of a fifo has expired if any request in it has. */
  lemma HeadExpired(items: map<nat, Item>, f: seq<nat>, z: nat)
    requires ByAge(items, f) && z in f
    ensures f != [] && Expire(items, f[0]) <= Expire(items, z)
  {
    InHeadTail(f);
  }

  lemma DispatchFifo(cfg: Settings, s: State, now: nat, z: nat)
    requires Inv(cfg, s, now) && Held(s, z) && Choose(cfg, s, now).Some? && Choose(cfg, s, now).value in s.items
    ensures var s', w, rq := Dispatch(cfg, s, now), s.items[z].write, Choose(cfg, s, now).value;
      && s'.items == s.items
      && NoWorse(SideOf(s, w).fifo, SideOf(s', w).fifo, z)
      && (rq == SideOf(s, w).fifo[0] && Held(s', z) ==> Ahead(SideOf(s', w).fifo, z) < Ahead(SideOf(s, w).fifo, z))
  {
    hide Without, After, Ahead, Choose, ByAge, BySector, Distinct, Gone, Fresh;
    var w, rq := s.items[z].write, Choose(cfg, s, now).value;
    var f := SideOf(s, w).fifo;
    MoveFifo(s, rq, w, z);
    WithoutIn(f, rq);
    AheadWithout(f, rq, z);
    assert f[0] in f;
  }

  /** After its own batch began, the rest of it and all the others' batches fit in a window. */
  lemma TurnTaken(cfg: Settings, s: State, w: bool, a: nat, b: nat)
    requires s.batching == 1 && a < b
    ensures Mul(a, Window(cfg, w)) + Rest(cfg, s) + Mul(Passes(cfg, s, w), Batch(cfg)) < Mul(b, Window(cfg, w))
  {
    hide Mul;
    MulSucc(a, Window(cfg, w));
    MulLe(Window(cfg, w), a + 1, b);
    MulLe(Batch(cfg), Passes(cfg, s, w), MaxPasses(cfg, w));
    MulSucc(MaxPasses(cfg, w), Batch(cfg));
  }

  /** A dispatch call that leaves `z` waiting brings its turn nearer. */
  lemma DispatchNearer(cfg: Settings, s: State, now: nat, z: nat)
    requires Inv(cfg, s, now) && Allowed(cfg, s, DispatchOne, now) && Held(s, z) && now > s.items[z].expire
    requires Served(cfg, s.items[z].write) && Held(Next(cfg, s, DispatchOne, now), z)
    ensures var s', w := Next(cfg, s, DispatchOne, now), s.items[z].write;
      s'.items == s.items && Calls(cfg, s', w, z) < Calls(cfg, s, w, z)
  {
    hide ByAge, BySector, Distinct, Gone, Fresh, Ahead, Mul, Move;
    ChooseOk(cfg, s, now);
    var w, rq, s' := s.items[z].write, Choose(cfg, s, now).value, Dispatch(cfg, s, now);
    DispatchFifo(cfg, s, now, z);
    MoveFields(s, rq);
    var f, f' := SideOf(s, w).fifo, SideOf(s', w).fifo;
    MulLe(Window(cfg, w), Ahead(f', z), Ahead(f, z));
    HeadExpired(s.items, f, z);
    if Continued(cfg, s).None? {
      if TakeWrites(cfg, s) == w {
        assert rq == f[0];
        TurnTaken(cfg, s', w, Ahead(f', z), Ahead(f, z));
      } else {
        assert Passes(cfg, s, w) == Passes(cfg, s', w) + 1;
        MulSucc(Passes(cfg, s', w), Batch(cfg));
      }
    }
  }

  // ----- every run ---------------------------------------------------------

  /** The request waits in every state of the run. */
  predicate WaitsThroughout(cfg: Settings, s: State, now: nat, calls: seq<Call>, z: nat)
    requires CanRun(cfg, s, now, calls)
    decreases |calls|
  {
    Held(s, z) &&
    (calls == [] || WaitsThroughout(cfg, Next(cfg, s, calls[0].op, calls[0].now), calls[0].now, calls[1..], z))
  }

  lemma StaysNear(cfg: Settings, s: State, op: Op, t: nat, z: nat)
    requires Inv(cfg, s, t) && Allowed(cfg, s, op, t) && Held(s, z) && Held(Next(cfg, s, op, t), z)
    requires t > s.items[z].expire && Served(cfg, s.items[z].write)
    ensures var s', w := Next(cfg, s, op, t), s.items[z].write;
      && s'.items[z].write == w && s'.items[z].expire < t
      && Calls(cfg, s', w, z) + (if op.DispatchOne? then 1 else 0) <= Calls(cfg, s, w, z)
  {
    hide Inv, Next, Mul, Ahead;
    if op.DispatchOne? {
      DispatchNearer(cfg, s, t, z);
    } else {
      PlaceKept(cfg, s, op, t, z);
      var w := s.items[z].write;
      MulLe(Window(cfg, w), Ahead(SideOf(Next(cfg, s, op, t), w).fifo, z), Ahead(SideOf(s, w).fifo, z));
    }
  }

  lemma {:induction false} WaitBounded(cfg: Settings, s: State, now: nat, calls: seq<Call>, z: nat)
    requires Inv(cfg, s, now) && CanRun(cfg, s, now, calls) && WaitsThroughout(cfg, s, now, calls, z)
    requires now > s.items[z].expire && Served(cfg, s.items[z].write)
    ensures Dispatches(calls) <= Calls(cfg, s, s.items[z].write, z)
    decreases |calls|
  {
    hide Inv, Next, Calls, Allowed, Served;
    if calls != [] {
      var op, t := calls[0].op, calls[0].now;
      var s' := Next(cfg, s, op, t);
      InvLater(cfg, s, now, t);
      NextOk(cfg, s, op, t);
      StaysNear(cfg, s, op, t, z);
      WaitBounded(cfg, s', t, calls[1..], z);
    }
  }

  lemma CallsBound(cfg: Settings, s: State, w: bool, z: nat)
    ensures Calls(cfg, s, w, z) <= Ahead(SideOf(s, w).fifo, z) * ((MaxPasses(cfg, w) + 1) * Batch(cfg))
                                   + cfg.fifoBatch + MaxPasses(cfg, w) * Batch(cfg)
  {
    hide Ahead;
    MulLe(Batch(cfg), Passes(cfg, s, w), MaxPasses(cfg, w));
  }

  /**
   * Deadlines are kept up to a bounded delay: with `k` requests before it in its
   * fifo, a request whose deadline has passed is gone after at most
   * `k * (p + 1) * b + fifo_batch + p * b` dispatch calls, where `b` is a batch and
   * `p`, the batches the other direction can get in between, is writes_starved
   * for a write and 1 for a read. Reads need writes_starved > 0 for that: see
   * ReadsMayStarve.
   */
  lemma ExpiredServed(cfg: Settings, s: State, now: nat, calls: seq<Call>, z: nat)
    requires Inv(cfg, s, now) && CanRun(cfg, s, now, calls) && Held(s, z) && now > s.items[z].expire
    requires Served(cfg, s.items[z].write)
    requires var w := s.items[z].write;
      Dispatches(calls) > Ahead(SideOf(s, w).fifo, z) * ((MaxPasses(cfg, w) + 1) * Batch(cfg))
                          + cfg.fifoBatch + MaxPasses(cfg, w) * Batch(cfg)
    ensures !WaitsThroughout(cfg, s, now, calls, z)
  {
    hide Inv, CanRun, WaitsThroughout;
    var w := s.items[z].write;
    CallsBound(cfg, s, w, z);
    if WaitsThroughout(cfg, s, now, calls, z) {
      WaitBounded(cfg, s, now, calls, z);
    }
  }

  // ----- without the condition ---------------------------------------------

  /** A write arrives and one request is dispatched, `n` times over. */
  function Rounds(k: nat, n: nat, t: nat): seq<Call>
    decreases n
  {
    if n == 0 then []
    else [Call(Arrive(k + 1, true, 0, 8), t), Call(DispatchOne, t)] + Rounds(k + 1, n - 1, t)
  }

  /** Only read 0 waits. */
  ghost predicate ReadAlone(s: State, k: nat) {
    && s.rd == Side([0], [0], None) && s.wr == Side([], [], None) && 0 in s.items && !s.items[0].write
    && forall x | x in s.items :: x <= k
  }

  /** So it is when a single read has arrived. */
  lemma ReadAloneReached(cfg: Settings, t: nat)
    ensures CanRun(cfg, Init(), t, [Call(Arrive(0, false, 0, 8), t)])
    ensures ReadAlone(Next(cfg, Init(), Arrive(0, false, 0, 8), t), 0)
  {
    var s := Next(cfg, Init(), Arrive(0, false, 0, 8), t);
    assert Insert(s.items, [], 0) == [0] && [] + [0] == [0];
  }

  lemma OneRound(cfg: Settings, s: State, k: nat, t: nat)
    requires ReadAlone(s, k) && cfg.writesStarved == 0
    ensures Allowed(cfg, s, Arrive(k + 1, true, 0, 8), t)
    ensures var s1 := Next(cfg, s, Arrive(k + 1, true, 0, 8), t);
      Held(s1, 0) && Allowed(cfg, s1, DispatchOne, t) && ReadAlone(Next(cfg, s1, DispatchOne, t), k + 1)
  {
    var s1 := Next(cfg, s, Arrive(k + 1, true, 0, 8), t);
    assert Insert(s1.items, [], k + 1) == [k + 1] && [] + [k + 1] == [k + 1];
    assert s1.wr == Side([k + 1], [k + 1], None) && s1.rd == s.rd;
    assert Choose(cfg, s1, t) == Some(k + 1);
    assert Without([k + 1], k + 1) == [];
  }

  /** With writes_starved = 0 reads can be held up for any number of dispatch calls. */
  lemma {:induction false} ReadsMayStarve(cfg: Settings, s: State, k: nat, n: nat, t: nat)
    requires ReadAlone(s, k) && cfg.writesStarved == 0
    ensures CanRun(cfg, s, t, Rounds(k, n, t)) && Dispatches(Rounds(k, n, t)) == n
    ensures WaitsThroughout(cfg, s, t, Rounds(k, n, t), 0)
    decreases n
  {
    hide Next, Allowed;
    if n > 0 {
      var calls, arrive := Rounds(k, n, t), Arrive(k + 1, true, 0, 8);
      OneRound(cfg, s, k, t);
      var s1 := Next(cfg, s, arrive, t);
      var s2 := Next(cfg, s1, DispatchOne, t);
      ReadsMayStarve(cfg, s2, k + 1, n - 1, t);
      assert calls[1..][1..] == Rounds(k + 1, n - 1, t);
      assert calls[0] == Call(arrive, t) && calls[1..][0] == Call(DispatchOne, t);
      assert CanRun(cfg, s1, t, calls[1..]);
    }
  }
}
