/**
 * What every run of the deadline scheduler keeps, and the bound on how long
 * reads can starve writes.
 */
module DeadlineSafety {
  import opened Block
  import opened Lists
  import opened Numbers
  import opened DeadlineSpec

  // ----- ordered lists -----------------------------------------------------

  /** In sector order, no two at the same sector. */
  ghost predicate BySector(items: map<nat, Item>, s: seq<nat>) {
    s == [] || ((forall y | y in s[1..] :: Sector(items, s[0]) < Sector(items, y)) && BySector(items, s[1..]))
  }

  /** In the order of their deadlines. */
  ghost predicate ByAge(items: map<nat, Item>, s: seq<nat>) {
    s == [] || ((forall y | y in s[1..] :: Expire(items, s[0]) <= Expire(items, y)) && ByAge(items, s[1..]))
  }

  lemma {:induction false} WithoutBySector(items: map<nat, Item>, s: seq<nat>, x: nat)
    requires BySector(items, s)
    ensures BySector(items, Without(s, x))
  {
    if s != [] {
      WithoutBySector(items, s[1..], x);
      WithoutIn(s[1..], x);
      var t := Without(s[1..], x);
      assert ([s[0]] + t)[1..] == t;
      assert [] + t == t;
    }
  }

  lemma {:induction false} WithoutByAge(items: map<nat, Item>, s: seq<nat>, x: nat)
    requires ByAge(items, s)
    ensures ByAge(items, Without(s, x))
  {
    if s != [] {
      WithoutByAge(items, s[1..], x);
      WithoutIn(s[1..], x);
      var t := Without(s[1..], x);
      assert ([s[0]] + t)[1..] == t;
      assert [] + t == t;
    }
  }

  lemma {:induction false} AfterIn(s: seq<nat>, x: nat)
    requires Distinct(s)
    ensures After(s, x).Some? ==> After(s, x).value in s && After(s, x).value != x
  {
    if s != [] && s[0] != x {
      AfterIn(s[1..], x);
    }
  }

  lemma {:induction false} AliasIn(items: map<nat, Item>, s: seq<nat>, sector: nat)
    ensures var a := Alias(items, s, sector);
      && (a.Some? ==> a.value in s && Sector(items, a.value) == sector)
      && (a.None? ==> forall y | y in s :: Sector(items, y) != sector)
  {
    if s != [] {
      AliasIn(items, s[1..], sector);
      InHeadTail(s);
    }
  }

  lemma {:induction false} InsertIn(items: map<nat, Item>, s: seq<nat>, x: nat)
    ensures forall y :: y in Insert(items, s, x) <==> y in s || y == x
  {
    if s != [] && Sector(items, x) >= Sector(items, s[0]) {
      InsertIn(items, s[1..], x);
      InHeadTail(s);
    }
  }

  lemma {:induction false} InsertBySector(items: map<nat, Item>, s: seq<nat>, x: nat)
    requires BySector(items, s) && forall y | y in s :: Sector(items, y) != Sector(items, x)
    ensures BySector(items, Insert(items, s, x))
  {
    if s == [] || Sector(items, x) < Sector(items, s[0]) {
      assert ([x] + s)[1..] == s;
      if s != [] {
        InHeadTail(s);
      }
    } else {
      InHeadTail(s);
      InsertBySector(items, s[1..], x);
      InsertIn(items, s[1..], x);
      var t := Insert(items, s[1..], x);
      assert ([s[0]] + t)[1..] == t;
    }
  }

  lemma {:induction false} BySectorDistinct(items: map<nat, Item>, s: seq<nat>)
    requires BySector(items, s)
    ensures Distinct(s)
  {
    if s != [] {
      BySectorDistinct(items, s[1..]);
    }
  }

  /** A change that does not touch what the list is ordered by. */
  lemma {:induction false} SectorsSame(a: map<nat, Item>, b: map<nat, Item>, s: seq<nat>)
    requires BySector(a, s) && forall x | x in s :: Sector(a, x) == Sector(b, x)
    ensures BySector(b, s)
  {
    if s != [] {
      InHeadTail(s);
      SectorsSame(a, b, s[1..]);
    }
  }

  lemma {:induction false} AgesSame(a: map<nat, Item>, b: map<nat, Item>, s: seq<nat>)
    requires ByAge(a, s) && forall x | x in s :: Expire(a, x) == Expire(b, x)
    ensures ByAge(b, s)
  {
    if s != [] {
      InHeadTail(s);
      AgesSame(a, b, s[1..]);
    }
  }

  lemma {:induction false} AppendByAge(items: map<nat, Item>, s: seq<nat>, x: nat)
    requires ByAge(items, s) && forall y | y in s :: Expire(items, y) <= Expire(items, x)
    ensures ByAge(items, s + [x])
  {
    if s == [] {
      assert s + [x] == [x];
    } else {
      InHeadTail(s);
      AppendByAge(items, s[1..], x);
      assert (s + [x])[1..] == s[1..] + [x];
    }
  }

  lemma {:induction false} InsertAfterIn(s: seq<nat>, x: nat, y: nat)
    requires y in s && Distinct(s) && x !in s
    ensures forall z :: z in InsertAfter(s, x, y) <==> z in s || z == x
    ensures Distinct(InsertAfter(s, x, y)) && |InsertAfter(s, x, y)| == |s| + 1
  {
    InHeadTail(s);
    if s[0] == y {
      assert ([y, x] + s[1..])[1..] == [x] + s[1..];
      assert ([x] + s[1..])[1..] == s[1..];
    } else {
      InsertAfterIn(s[1..], x, y);
      var t := InsertAfter(s[1..], x, y);
      assert ([s[0]] + t)[1..] == t;
    }
  }

  lemma {:induction false} InsertAfterByAge(items: map<nat, Item>, s: seq<nat>, x: nat, y: nat)
    requires y in s && Distinct(s) && x !in s && ByAge(items, s) && Expire(items, x) == Expire(items, y)
    ensures ByAge(items, InsertAfter(s, x, y))
  {
    InHeadTail(s);
    if s[0] == y {
      assert ([y, x] + s[1..])[1..] == [x] + s[1..];
      assert ([x] + s[1..])[1..] == s[1..];
    } else {
      InsertAfterByAge(items, s[1..], x, y);
      InsertAfterIn(s[1..], x, y);
      var t := InsertAfter(s[1..], x, y);
      assert ([s[0]] + t)[1..] == t;
    }
  }

  // ----- the invariant -----------------------------------------------------

  /**
   * One direction: both indexes hold the same requests, each in its own order,
   * and the next one in line is one of them. Request `z` may be missing from
   * one index while it is being put in its place.
   */
  ghost predicate SideIs(items: map<nat, Item>, d: Side, w: bool, z: Option<nat>) {
    && Distinct(d.fifo) && BySector(items, d.sorted) && ByAge(items, d.fifo)
    && (forall y | y in d.sorted :: y in items && items[y].write == w)
    && (forall y | y in d.fifo :: y in items && items[y].write == w)
    && (forall y | z != Some(y) :: y in d.sorted <==> y in d.fifo)
    && (d.next.Some? ==> d.next.value in d.sorted || z == d.next)
    && (d.next.Some? ==> d.next.value in items && items[d.next.value].write == w)
  }

  /** Nothing is dispatched twice, and nothing that was dispatched still waits. */
  ghost predicate Gone(s: State, z: Option<nat>) {
    && Distinct(s.dispatched)
    && forall y | y in s.dispatched :: y in s.items && y !in s.rd.fifo && y !in s.wr.fifo && z != Some(y)
  }

  ghost predicate Near(s: State, z: Option<nat>) {
    && SideIs(s.items, s.rd, false, z) && SideIs(s.items, s.wr, true, z)
    && (s.rd.next.None? || s.wr.next.None?)
    && Gone(s, z)
  }

  function Waiting(s: State): nat {
    |s.rd.fifo| + |s.wr.fifo|
  }

  /** No deadline lies further ahead than a request that came now would get. */
  ghost predicate Fresh(cfg: Settings, s: State, now: nat) {
    && (forall y | y in s.rd.fifo :: Expire(s.items, y) <= now + cfg.readExpire)
    && (forall y | y in s.wr.fifo :: Expire(s.items, y) <= now + cfg.writeExpire)
  }

  ghost predicate Inv(cfg: Settings, s: State, now: nat) {
    Near(s, None) && Fresh(cfg, s, now) && s.nrSorted == Waiting(s)
  }

  // ----- operations keep it ------------------------------------------------

  lemma RemoveOk(items: map<nat, Item>, d: Side, w: bool, x: nat, z: Option<nat>)
    requires SideIs(items, d, w, z) && x in d.sorted && z != Some(x)
    ensures SideIs(items, Remove(d, x), w, z)
    ensures |Remove(d, x).fifo| == |d.fifo| - 1
    ensures forall y :: y in Remove(d, x).fifo <==> y in d.fifo && y != x
    ensures forall y :: y in Remove(d, x).sorted <==> y in d.sorted && y != x
  {
    hide Distinct, BySector, ByAge;
    BySectorDistinct(items, d.sorted);
    WithoutIn(d.sorted, x);
    WithoutIn(d.fifo, x);
    WithoutDistinct(d.fifo, x);
    WithoutBySector(items, d.sorted, x);
    WithoutByAge(items, d.fifo, x);
    AfterIn(d.sorted, x);
  }

  lemma NextIs(items: map<nat, Item>, d: Side, w: bool, z: Option<nat>, next: Option<nat>)
    requires SideIs(items, d, w, z) && (next.Some? ==> next.value in d.sorted)
    ensures SideIs(items, d.(next := next), w, z)
  {
    hide Distinct, BySector, ByAge;
  }

  lemma MoveOk(s: State, x: nat, z: Option<nat>)
    requires Near(s, z) && x in s.items && x in SideOf(s, s.items[x].write).sorted && z != Some(x)
    ensures Near(Move(s, x), z)
    ensures Waiting(Move(s, x)) == Waiting(s) - 1
    ensures Move(s, x).items == s.items && Move(s, x).batching == s.batching && Move(s, x).starved == s.starved
    ensures forall y :: y in Move(s, x).rd.fifo ==> y in s.rd.fifo
    ensures forall y :: y in Move(s, x).wr.fifo ==> y in s.wr.fifo
    ensures var w := s.items[x].write;
      forall y :: y in SideOf(Move(s, x), w).sorted <==> y in SideOf(s, w).sorted && y != x
  {
    hide Distinct, BySector, ByAge, Remove;
    var w := s.items[x].write;
    var s1 := s.(rd := s.rd.(next := None), wr := s.wr.(next := None));
    NextIs(s.items, s.rd, false, z, None);
    NextIs(s.items, s.wr, true, z, None);
    BySectorDistinct(s.items, SideOf(s, w).sorted);
    AfterIn(SideOf(s1, w).sorted, x);
    var d := SideOf(s1, w).(next := After(SideOf(s1, w).sorted, x));
    NextIs(s.items, SideOf(s1, w), w, z, d.next);
    RemoveOk(s.items, d, w, x, z);
    assert x in SideOf(s, w).fifo;
    AppendDistinct(s.dispatched, x);
  }

  lemma {:induction false} SectorUnique(items: map<nat, Item>, s: seq<nat>, a: nat, b: nat)
    requires BySector(items, s) && a in s && b in s && Sector(items, a) == Sector(items, b)
    ensures a == b
  {
    InHeadTail(s);
    if a in s[1..] && b in s[1..] {
      SectorUnique(items, s[1..], a, b);
    }
  }

  /** Inserting into the sector index when the place is free. */
  lemma InsertSide(items: map<nat, Item>, d: Side, w: bool, x: nat)
    requires SideIs(items, d, w, Some(x)) && x in items && items[x].write == w
    requires forall y | y in d.sorted :: Sector(items, y) != Sector(items, x)
    ensures var d' := d.(sorted := Insert(items, d.sorted, x)); SideIs(items, d', w, Some(x)) && x in d'.sorted
  {
    hide Distinct, BySector, ByAge, Insert, Sector;
    InsertIn(items, d.sorted, x);
    InsertBySector(items, d.sorted, x);
  }

  lemma MoveCount(s: State, x: nat)
    requires x in s.items && s.nrSorted > 0
    ensures Move(s, x).nrSorted == s.nrSorted - 1
  {
  }

  lemma AddSortedOk(s: State, x: nat)
    requires Near(s, Some(x)) && x in s.items && x !in SideOf(s, s.items[x].write).sorted
    requires s.nrSorted >= Waiting(s)
    ensures
      var w, s' := s.items[x].write, AddSorted(s, x);
      && Near(s', Some(x)) && x in SideOf(s', w).sorted
      && s'.items == s.items && s'.batching == s.batching && s'.starved == s.starved
      && s'.nrSorted - Waiting(s') == s.nrSorted - Waiting(s)
      && (forall y :: y in s'.rd.fifo ==> y in s.rd.fifo) && (forall y :: y in s'.wr.fifo ==> y in s.wr.fifo)
  {
    hide Distinct, BySector, ByAge, Insert, Move, Alias;
    var w := s.items[x].write;
    var d := SideOf(s, w);
    var alias := Alias(s.items, d.sorted, s.items[x].sector);
    AliasIn(s.items, d.sorted, s.items[x].sector);
    var s1 := s;
    if alias.Some? {
      MoveOk(s, alias.value, Some(x));
      MoveCount(s, alias.value);
      s1 := Move(s, alias.value);
      forall y | y in SideOf(s1, w).sorted ensures Sector(s1.items, y) != Sector(s1.items, x) {
        if Sector(s1.items, y) == Sector(s1.items, x) {
          SectorUnique(s.items, d.sorted, y, alias.value);
        }
      }
    }
    InsertSide(s1.items, SideOf(s1, w), w, x);
  }

  /** One request changes; the orders do not notice. */
  lemma ItemChange(items: map<nat, Item>, d: Side, w: bool, z: Option<nat>, x: nat, item: Item)
    requires SideIs(items, d, w, z)
    requires x in d.sorted || x in d.fifo || d.next == Some(x) ==> x in items && item.write == items[x].write
    requires x in d.sorted ==> item.sector == items[x].sector
    requires x in d.fifo ==> item.expire == items[x].expire
    ensures SideIs(items[x := item], d, w, z)
  {
    hide Distinct, BySector, ByAge;
    SectorsSame(items, items[x := item], d.sorted);
    AgesSame(items, items[x := item], d.fifo);
  }

  /** A request the scheduler has not seen is announced. */
  lemma EnterOk(s: State, x: nat, item: Item, nr: nat)
    requires Near(s, None) && x !in s.items
    ensures Near(s.(items := s.items[x := item], nrSorted := nr), Some(x))
  {
    hide Distinct, BySector, ByAge;
    ItemChange(s.items, s.rd, false, None, x, item);
    ItemChange(s.items, s.wr, true, None, x, item);
  }

  /** A request that is in both indexes of its direction is in its place. */
  lemma Settle(s: State, x: nat)
    requires SideIs(s.items, s.rd, false, Some(x)) && SideIs(s.items, s.wr, true, Some(x)) && x in s.items
    requires x in SideOf(s, s.items[x].write).sorted && x in SideOf(s, s.items[x].write).fifo
    ensures SideIs(s.items, s.rd, false, None) && SideIs(s.items, s.wr, true, None)
  {
    hide Distinct, BySector, ByAge;
  }

  /** ... and goes to the tail of the queue once it is in the sector index. */
  lemma TailOk(s: State, x: nat)
    requires Near(s, Some(x)) && x in s.items
    requires x in SideOf(s, s.items[x].write).sorted && x !in SideOf(s, s.items[x].write).fifo
    requires forall y | y in SideOf(s, s.items[x].write).fifo :: Expire(s.items, y) <= s.items[x].expire
    ensures
      var w := s.items[x].write;
      Near(WithSide(s, w, SideOf(s, w).(fifo := SideOf(s, w).fifo + [x])), None)
  {
    hide Distinct, BySector, ByAge;
    var w := s.items[x].write;
    var d := SideOf(s, w);
    AppendDistinct(d.fifo, x);
    AppendByAge(s.items, d.fifo, x);
    Settle(WithSide(s, w, d.(fifo := d.fifo + [x])), x);
  }

  lemma NotWaiting(s: State, x: nat)
    requires Near(s, None) && x !in s.items
    ensures x !in s.rd.sorted && x !in s.rd.fifo && x !in s.wr.sorted && x !in s.wr.fifo
  {
    hide Distinct, BySector, ByAge;
  }

  lemma AddOk(cfg: Settings, s: State, x: nat, write: bool, sector: nat, sectors: nat, now: nat)
    requires Inv(cfg, s, now) && x !in s.items
    ensures Inv(cfg, Add(cfg, s, x, write, sector, sectors, now), now)
    ensures var s' := Add(cfg, s, x, write, sector, sectors, now);
      s'.batching == s.batching && s'.starved == s.starved
  {
    hide Near, AddSorted;
    var expire := now + if write then cfg.writeExpire else cfg.readExpire;
    var item := Item(write, sector, sectors, expire);
    var s0 := s.(items := s.items[x := item], nrSorted := s.nrSorted + 1);
    EnterOk(s, x, item, s.nrSorted + 1);
    NotWaiting(s, x);
    AddSortedOk(s0, x);
    var s1 := AddSorted(s0, x);
    TailOk(s1, x);
  }

  lemma BackMergedOk(cfg: Settings, s: State, x: nat, sectors: nat, now: nat)
    requires Inv(cfg, s, now) && x in s.items
    ensures Inv(cfg, BackMerged(s, x, sectors), now)
  {
    hide Distinct, BySector, ByAge;
    var item := s.items[x].(sectors := sectors);
    ItemChange(s.items, s.rd, false, None, x, item);
    ItemChange(s.items, s.wr, true, None, x, item);
  }

  /** A request that is taken out of the sector index may change its place on the disk. */
  lemma FrontOutOk(s: State, x: nat, item: Item)
    requires Near(s, None) && x in s.items && x in SideOf(s, s.items[x].write).fifo
    requires item.write == s.items[x].write && item.expire == s.items[x].expire
    ensures
      var w := s.items[x].write;
      var d := SideOf(s, w).(sorted := Without(SideOf(s, w).sorted, x));
      x !in d.sorted && Near(WithSide(s.(items := s.items[x := item]), w, d), Some(x))
  {
    hide Distinct, BySector, ByAge, Without;
    var w := s.items[x].write;
    var d := SideOf(s, w);
    var d1 := d.(sorted := Without(d.sorted, x));
    WithoutIn(d.sorted, x);
    WithoutBySector(s.items, d.sorted, x);
    assert SideIs(s.items, d1, w, Some(x));
    ItemChange(s.items, d1, w, Some(x), x, item);
    var e := SideOf(s, !w);
    assert x !in e.sorted && x !in e.fifo && e.next != Some(x);
    ItemChange(s.items, e, !w, None, x, item);
  }

  /** Evicting an alias does not touch the request that is being repositioned. */
  lemma StaysInFifo(s: State, x: nat)
    requires Near(s, Some(x)) && x in s.items && x in SideOf(s, s.items[x].write).fifo
    requires x !in SideOf(s, s.items[x].write).sorted
    ensures x in SideOf(AddSorted(s, x), s.items[x].write).fifo
  {
    hide Distinct, BySector, ByAge, Insert;
    var w := s.items[x].write;
    var d := SideOf(s, w);
    AliasIn(s.items, d.sorted, s.items[x].sector);
    var alias := Alias(s.items, d.sorted, s.items[x].sector);
    if alias.Some? {
      WithoutIn(d.fifo, alias.value);
    }
  }

  lemma FrontMergedOk(cfg: Settings, s: State, x: nat, sector: nat, sectors: nat, now: nat)
    requires Inv(cfg, s, now) && x in s.items && x in SideOf(s, s.items[x].write).fifo
    ensures Inv(cfg, FrontMerged(s, x, sector, sectors), now)
    ensures var s' := FrontMerged(s, x, sector, sectors); s'.batching == s.batching && s'.starved == s.starved
  {
    hide SideIs, Without, AddSorted;
    var w := s.items[x].write;
    var item := s.items[x].(sector := sector, sectors := sectors);
    var d1 := SideOf(s, w).(sorted := Without(SideOf(s, w).sorted, x));
    FrontOutOk(s, x, item);
    var s1 := WithSide(s.(items := s.items[x := item]), w, d1);
    AddSortedOk(s1, x);
    StaysInFifo(s1, x);
    Settle(AddSorted(s1, x), x);
  }

  /** `x` moves right behind `y` in the queue and takes over its deadline. */
  lemma MoveAfterOk(items: map<nat, Item>, d: Side, w: bool, x: nat, y: nat, item: Item)
    requires SideIs(items, d, w, None) && x in d.fifo && y in d.fifo && x != y
    requires item.write == w && item.sector == items[x].sector && item.expire == items[y].expire
    ensures var d' := d.(fifo := MoveAfter(d.fifo, x, y));
      && SideIs(items[x := item], d', w, None) && |d'.fifo| == |d.fifo|
      && forall z :: z in d'.fifo <==> z in d.fifo
  {
    hide Distinct, BySector, ByAge, Without, InsertAfter;
    var d0 := d.(fifo := Without(d.fifo, x));
    WithoutIn(d.fifo, x);
    WithoutDistinct(d.fifo, x);
    WithoutByAge(items, d.fifo, x);
    assert SideIs(items, d0, w, Some(x));
    ItemChange(items, d0, w, Some(x), x, item);
    InsertAfterIn(d0.fifo, x, y);
    InsertAfterByAge(items[x := item], d0.fifo, x, y);
  }

  lemma RemoveNext(d: Side, x: nat)
    ensures d.next.None? ==> Remove(d, x).next.None?
  {
  }

  lemma JoinedOk(cfg: Settings, s: State, x: nat, y: nat, sectors: nat, now: nat)
    requires Inv(cfg, s, now) && x != y && x in s.items && y in s.items && s.items[x].write == s.items[y].write
    requires x in SideOf(s, s.items[x].write).fifo && y in SideOf(s, s.items[x].write).fifo
    ensures Inv(cfg, Joined(s, x, y, sectors), now)
  {
    hide Distinct, BySector, ByAge, Remove, MoveAfter;
    var w := s.items[x].write;
    var better := s.items[y].expire < s.items[x].expire;
    var d, e := SideOf(s, w), SideOf(s, !w);
    var d1 := if better then d.(fifo := MoveAfter(d.fifo, x, y)) else d;
    var item := s.items[x].(sectors := sectors, expire := if better then s.items[y].expire else s.items[x].expire);
    if better {
      MoveAfterOk(s.items, d, w, x, y, item);
    } else {
      ItemChange(s.items, d, w, None, x, item);
    }
    RemoveOk(s.items[x := item], d1, w, y, None);
    RemoveNext(d1, y);
    assert x !in e.sorted && x !in e.fifo && e.next != Some(x);
    ItemChange(s.items, e, !w, None, x, item);
  }

  // ----- dispatching -------------------------------------------------------

  /** What is chosen is waiting; nothing is chosen exactly when nothing waits. */
  lemma ChooseOk(cfg: Settings, s: State, now: nat)
    requires Near(s, None)
    ensures var rq := Choose(cfg, s, now);
      && (rq.None? <==> Waiting(s) == 0)
      && (rq.Some? ==> rq.value in s.items && rq.value in SideOf(s, s.items[rq.value].write).sorted)
  {
    hide Distinct, BySector, ByAge;
    assert s.rd.fifo != [] ==> s.rd.fifo[0] in s.rd.fifo;
    assert s.wr.fifo != [] ==> s.wr.fifo[0] in s.wr.fifo;
  }

  lemma DispatchOk(cfg: Settings, s: State, now: nat)
    requires Inv(cfg, s, now)
    ensures Choose(cfg, s, now).Some? ==> Choose(cfg, s, now).value in s.items
    ensures Inv(cfg, Dispatch(cfg, s, now), now)
    ensures Waiting(Dispatch(cfg, s, now)) == if Waiting(s) == 0 then 0 else Waiting(s) - 1
  {
    hide Distinct, BySector, ByAge, Move, Choose, Continued;
    ChooseOk(cfg, s, now);
    var rq := Choose(cfg, s, now);
    if rq.Some? {
      MoveOk(s, rq.value, None);
      MoveCount(s, rq.value);
    }
  }

  /** elv_drain_elevator: dispatch until nothing is dispatched any more */
  function Drain(cfg: Settings, s: State, now: nat): State
    requires Inv(cfg, s, now)
    decreases Waiting(s)
  {
    DispatchOk(cfg, s, now);
    ChooseOk(cfg, s, now);
    if Choose(cfg, s, now).None? then s else Drain(cfg, Dispatch(cfg, s, now), now)
  }

  /** Draining always comes to an end, with no request left behind. */
  lemma {:induction false} DrainEmpties(cfg: Settings, s: State, now: nat)
    requires Inv(cfg, s, now)
    ensures Drain(cfg, s, now).nrSorted == 0 && Waiting(Drain(cfg, s, now)) == 0
    ensures Inv(cfg, Drain(cfg, s, now), now)
    decreases Waiting(s)
  {
    hide Near, Fresh, Dispatch, Choose;
    DispatchOk(cfg, s, now);
    ChooseOk(cfg, s, now);
    if Choose(cfg, s, now).Some? {
      DrainEmpties(cfg, Dispatch(cfg, s, now), now);
    }
  }

  // ----- starvation --------------------------------------------------------

  function Batch(cfg: Settings): nat {
    if cfg.fifoBatch == 0 then 1 else cfg.fifoBatch
  }

  /**
   * How many more requests can be dispatched before the writes get their turn:
   * the rest of the running batch, and a full batch of reads for each time the
   * writes may still be passed over.
   */
  function Credit(cfg: Settings, s: State): nat {
    (if s.batching < cfg.fifoBatch then cfg.fifoBatch - s.batching else 0) +
    Mul(if s.starved < cfg.writesStarved then cfg.writesStarved - s.starved else 0, Batch(cfg))
  }

  /** Does this call dispatch a write? */
  predicate Writes(cfg: Settings, s: State, now: nat) {
    var rq := Choose(cfg, s, now);
    rq.Some? && rq.value in s.items && s.items[rq.value].write
  }

  lemma MoveFields(s: State, x: nat)
    requires x in s.items
    ensures Move(s, x).batching == s.batching && Move(s, x).starved == s.starved && Move(s, x).items == s.items
  {
  }

  /** While writes wait, every dispatched read uses up credit. */
  lemma ReadUsesCredit(cfg: Settings, s: State, now: nat)
    requires Inv(cfg, s, now) && s.wr.fifo != [] && !Writes(cfg, s, now)
    requires Choose(cfg, s, now).Some? ==> Choose(cfg, s, now).value in s.items
    ensures Credit(cfg, Dispatch(cfg, s, now)) < Credit(cfg, s)
  {
    hide Distinct, BySector, ByAge, Mul;
    ChooseOk(cfg, s, now);
    var rq, s' := Choose(cfg, s, now), Dispatch(cfg, s, now);
    MoveFields(s, rq.value);
    if Continued(cfg, s).None? {
      assert s.wr.fifo[0] in s.wr.fifo;
      assert !TakeWrites(cfg, s);
      MulSucc(cfg.writesStarved - s.starved - 1, Batch(cfg));
    }
  }

  // ----- every run ---------------------------------------------------------

  datatype Op =
    | Arrive(x: nat, write: bool, sector: nat, sectors: nat)
    | Back(x: nat, sectors: nat)
    | Front(x: nat, sector: nat, sectors: nat)
    | Join(x: nat, y: nat, sectors: nat)
    | DispatchOne

  datatype Call = Call(op: Op, now: nat)

  predicate Held(s: State, x: nat) {
    x in s.items && x in SideOf(s, s.items[x].write).fifo
  }

  predicate Allowed(cfg: Settings, s: State, op: Op, now: nat) {
    match op
    case Arrive(x, _, _, _) => x !in s.items
    case Back(x, _) => Held(s, x)
    case Front(x, _, _) => Held(s, x)
    case Join(x, y, _) => x != y && Held(s, x) && Held(s, y) && s.items[x].write == s.items[y].write
    case DispatchOne => Choose(cfg, s, now).Some? ==> Choose(cfg, s, now).value in s.items
  }

  function Next(cfg: Settings, s: State, op: Op, now: nat): State
    requires Allowed(cfg, s, op, now)
  {
    match op
    case Arrive(x, write, sector, sectors) => Add(cfg, s, x, write, sector, sectors, now)
    case Back(x, sectors) => BackMerged(s, x, sectors)
    case Front(x, sector, sectors) => FrontMerged(s, x, sector, sectors)
    case Join(x, y, sectors) => Joined(s, x, y, sectors)
    case DispatchOne => Dispatch(cfg, s, now)
  }

  lemma BackMergedFields(s: State, x: nat, sectors: nat)
    requires x in s.items
    ensures BackMerged(s, x, sectors).batching == s.batching && BackMerged(s, x, sectors).starved == s.starved
  {
  }

  lemma NextOk(cfg: Settings, s: State, op: Op, now: nat)
    requires Inv(cfg, s, now) && Allowed(cfg, s, op, now)
    ensures Inv(cfg, Next(cfg, s, op, now), now)
    ensures !op.DispatchOne? ==> Credit(cfg, Next(cfg, s, op, now)) == Credit(cfg, s)
  {
    hide Near, Fresh, Add, BackMerged, FrontMerged, Dispatch, Choose, Mul;
    match op
    case Arrive(x, write, sector, sectors) => AddOk(cfg, s, x, write, sector, sectors, now);
    case Back(x, sectors) =>
      BackMergedOk(cfg, s, x, sectors, now);
      BackMergedFields(s, x, sectors);
    case Front(x, sector, sectors) => FrontMergedOk(cfg, s, x, sector, sectors, now);
    case Join(x, y, sectors) => JoinedOk(cfg, s, x, y, sectors, now);
    case DispatchOne => DispatchOk(cfg, s, now);
  }

  lemma InvLater(cfg: Settings, s: State, now: nat, later: nat)
    requires Inv(cfg, s, now) && now <= later
    ensures Inv(cfg, s, later)
  {
    hide Near;
  }

  predicate CanRun(cfg: Settings, s: State, now: nat, calls: seq<Call>)
    decreases |calls|
  {
    calls == [] ||
    (now <= calls[0].now && Allowed(cfg, s, calls[0].op, calls[0].now) &&
     CanRun(cfg, Next(cfg, s, calls[0].op, calls[0].now), calls[0].now, calls[1..]))
  }

  function Run(cfg: Settings, s: State, now: nat, calls: seq<Call>): State
    requires CanRun(cfg, s, now, calls)
    decreases |calls|
  {
    if calls == [] then s
    else Run(cfg, Next(cfg, s, calls[0].op, calls[0].now), calls[0].now, calls[1..])
  }

  function TimeAfter(now: nat, calls: seq<Call>): nat
    decreases |calls|
  {
    if calls == [] then now else TimeAfter(calls[0].now, calls[1..])
  }

  /** The two indexes agree in every reachable state. */
  lemma {:induction false} AlwaysInv(cfg: Settings, s: State, now: nat, calls: seq<Call>)
    requires Inv(cfg, s, now) && CanRun(cfg, s, now, calls)
    ensures Inv(cfg, Run(cfg, s, now, calls), TimeAfter(now, calls))
    decreases |calls|
  {
    hide Inv, Next, Allowed;
    if calls != [] {
      InvLater(cfg, s, now, calls[0].now);
      NextOk(cfg, s, calls[0].op, calls[0].now);
      AlwaysInv(cfg, Next(cfg, s, calls[0].op, calls[0].now), calls[0].now, calls[1..]);
    }
  }

  /** How many of the calls are dispatch calls. */
  function Dispatches(calls: seq<Call>): nat
    decreases |calls|
  {
    if calls == [] then 0 else (if calls[0].op.DispatchOne? then 1 else 0) + Dispatches(calls[1..])
  }

  /** Whenever a dispatch call is made, writes are waiting. */
  predicate WritesWait(cfg: Settings, s: State, now: nat, calls: seq<Call>)
    requires CanRun(cfg, s, now, calls)
    decreases |calls|
  {
    calls == [] ||
    ((calls[0].op.DispatchOne? ==> s.wr.fifo != []) &&
     WritesWait(cfg, Next(cfg, s, calls[0].op, calls[0].now), calls[0].now, calls[1..]))
  }

  /** Some dispatch call of the run dispatches a write. */
  predicate SomeWrite(cfg: Settings, s: State, now: nat, calls: seq<Call>)
    requires CanRun(cfg, s, now, calls)
    decreases |calls|
  {
    calls != [] &&
    ((calls[0].op.DispatchOne? && Writes(cfg, s, calls[0].now)) ||
     SomeWrite(cfg, Next(cfg, s, calls[0].op, calls[0].now), calls[0].now, calls[1..]))
  }

  lemma DispatchUsesCredit(cfg: Settings, s: State, now: nat)
    requires Inv(cfg, s, now) && Allowed(cfg, s, DispatchOne, now) && s.wr.fifo != [] && !Writes(cfg, s, now)
    ensures Credit(cfg, Next(cfg, s, DispatchOne, now)) < Credit(cfg, s)
  {
    ReadUsesCredit(cfg, s, now);
  }

  lemma {:induction false} ReadsBounded(cfg: Settings, s: State, now: nat, calls: seq<Call>)
    requires Inv(cfg, s, now) && CanRun(cfg, s, now, calls)
    requires WritesWait(cfg, s, now, calls) && !SomeWrite(cfg, s, now, calls)
    ensures Dispatches(calls) <= Credit(cfg, s)
    decreases |calls|
  {
    hide Inv, Next, Credit, Choose, Writes, Allowed;
    if calls != [] {
      var op, t := calls[0].op, calls[0].now;
      InvLater(cfg, s, now, t);
      NextOk(cfg, s, op, t);
      if op.DispatchOne? {
        DispatchUsesCredit(cfg, s, t);
      }
      ReadsBounded(cfg, Next(cfg, s, op, t), t, calls[1..]);
    }
  }

  lemma CreditBound(cfg: Settings, s: State)
    ensures Credit(cfg, s) <= cfg.fifoBatch + cfg.writesStarved * Batch(cfg)
  {
    MulLe(Batch(cfg), if s.starved < cfg.writesStarved then cfg.writesStarved - s.starved else 0, cfg.writesStarved);
  }

  /**
   * Bounded starvation. Among any `fifoBatch + writesStarved * max(1, fifoBatch) + 1`
   * dispatch calls with writes waiting, whatever else happens in between, one
   * dispatches a write.
   */
  lemma WritesNotStarved(cfg: Settings, s: State, now: nat, calls: seq<Call>)
    requires Inv(cfg, s, now) && CanRun(cfg, s, now, calls) && WritesWait(cfg, s, now, calls)
    requires Dispatches(calls) > cfg.fifoBatch + cfg.writesStarved * Batch(cfg)
    ensures SomeWrite(cfg, s, now, calls)
  {
    hide Inv, CanRun, WritesWait, SomeWrite, Credit;
    CreditBound(cfg, s);
    if !SomeWrite(cfg, s, now, calls) {
      ReadsBounded(cfg, s, now, calls);
    }
  }
}
