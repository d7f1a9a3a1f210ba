/**
 * The merge hash of the elevator and the sorted index of the deadline scheduler
 * together: one is searched for back merges and the other for front merges, and
 * a request that is evicted from one has to leave the other.
 */
module MergeQueue {
  import opened Block
  import opened Lists
  import opened MergeHash
  import DS = DeadlineSpec
  import DF = DeadlineSafety

  /** The scheduler, and the requests the elevator holds. */
  datatype Both = Both(dd: DS.State, rqs: map<nat, Rq>)

  /** They hold the same requests, in the same places. */
  ghost predicate Tied(b: Both) {
    && (forall r :: r in b.rqs <==> DF.Held(b.dd, r))
    && (forall r | r in b.rqs && r in b.dd.items ::
          && b.rqs[r].sector == b.dd.items[r].sector && b.rqs[r].Sectors() == b.dd.items[r].sectors
          && b.rqs[r].write == b.dd.items[r].write)
  }

  // ----- steps -------------------------------------------------------------

  /** `x` becomes `rq`, and another request that starts at the same place goes to the dispatch queue. */
  function Place(rqs: map<nat, Rq>, x: nat, rq: Rq): map<nat, Rq> {
    (map r | r in rqs && !(rqs[r].write == rq.write && rqs[r].sector == rq.sector) :: rqs[r])[x := rq]
  }

  datatype Op =
    | Insert(x: nat, rq: Rq)
    | BackBio(x: nat, bytes: nat)
    | FrontBio(x: nat, sector: nat, bytes: nat)
    | JoinBio(x: nat, y: nat, bytes: nat)     // a bio between them, or none, joins two requests
    | DispatchOne

  predicate Allowed(cfg: DS.Settings, b: Both, op: Op, now: nat) {
    match op
    case Insert(x, _) => x !in b.dd.items
    case BackBio(x, _) => x in b.rqs && DF.Held(b.dd, x)
    case FrontBio(x, _, _) => x in b.rqs && DF.Held(b.dd, x)
    case JoinBio(x, y, _) =>
      && x != y && x in b.rqs && y in b.rqs && b.rqs[x].write == b.rqs[y].write
      && DF.Held(b.dd, x) && DF.Held(b.dd, y)
    case DispatchOne => DF.Allowed(cfg, b.dd, DF.DispatchOne, now)
  }

  function Next(cfg: DS.Settings, b: Both, op: Op, now: nat): Both
    requires Allowed(cfg, b, op, now)
  {
    match op
    case Insert(x, rq) =>
      Both(DS.Add(cfg, b.dd, x, rq.write, rq.sector, rq.Sectors(), now), Place(b.rqs, x, rq))
    case BackBio(x, bytes) =>
      var rq := Longer(b.rqs[x], bytes);
      Both(DS.BackMerged(b.dd, x, rq.Sectors()), b.rqs[x := rq])
    case FrontBio(x, sector, bytes) =>
      var rq := Lower(b.rqs[x], sector, bytes);
      Both(DS.FrontMerged(b.dd, x, sector, rq.Sectors()), Place(b.rqs, x, rq))
    case JoinBio(x, y, bytes) =>
      var rq := Longer(b.rqs[x], bytes + b.rqs[y].dataLen);
      Both(DS.Joined(b.dd, x, y, rq.Sectors()), b.rqs[x := rq] - {y})
    case DispatchOne =>
      var chosen := DS.Choose(cfg, b.dd, now);
      Both(DS.Dispatch(cfg, b.dd, now), if chosen.Some? then b.rqs - {chosen.value} else b.rqs)
  }

  // ----- who is held -------------------------------------------------------

  lemma HeldMove(s: DS.State, x: nat)
    requires x in s.items
    ensures forall r :: DF.Held(DS.Move(s, x), r) <==> DF.Held(s, r) && r != x
    ensures DS.Move(s, x).items == s.items
  {
    WithoutIn(DS.SideOf(s, s.items[x].write).fifo, x);
  }

  /** The alias is the one request in the index at that sector. */
  lemma AliasIs(items: map<nat, DS.Item>, sorted: seq<nat>, sector: nat, r: nat)
    requires DF.BySector(items, sorted)
    ensures DS.Alias(items, sorted, sector) == Some(r) <==> r in sorted && DS.Sector(items, r) == sector
  {
    DF.AliasIn(items, sorted, sector);
    var a := DS.Alias(items, sorted, sector);
    if a.Some? && r in sorted && DS.Sector(items, r) == sector {
      DF.SectorUnique(items, sorted, a.value, r);
    }
  }

  /** Does `r` stand where `x` is to be put? */
  predicate InTheWay(s: DS.State, x: nat, r: nat)
    requires x in s.items
  {
    r in DS.SideOf(s, s.items[x].write).sorted && DS.Sector(s.items, r) == s.items[x].sector
  }

  lemma HeldAddSorted(s: DS.State, x: nat)
    requires DF.Near(s, Some(x)) && x in s.items
    ensures DS.AddSorted(s, x).items == s.items
    ensures forall r :: DF.Held(DS.AddSorted(s, x), r) <==> DF.Held(s, r) && !InTheWay(s, x, r)
  {
    hide DS.Move, DS.Alias, DF.BySector, DF.ByAge, Distinct, DS.Insert, DS.Sector;
    var w := s.items[x].write;
    var sorted := DS.SideOf(s, w).sorted;
    var alias := DS.Alias(s.items, sorted, s.items[x].sector);
    assert DF.SideIs(s.items, DS.SideOf(s, w), w, Some(x));
    forall r: nat
      ensures alias == Some(r) <==> InTheWay(s, x, r)
    {
      AliasIs(s.items, sorted, s.items[x].sector, r);
    }
    DF.AliasIn(s.items, sorted, s.items[x].sector);
    if alias.Some? {
      HeldMove(s, alias.value);
    }
  }

  /** A waiting request is in the way exactly if it has the direction and the sector. */
  lemma WayIs(s: DS.State, x: nat, r: nat)
    requires DF.Near(s, Some(x)) && x in s.items && DF.Held(s, r) && r != x
    ensures InTheWay(s, x, r) <==> s.items[r].write == s.items[x].write && s.items[r].sector == s.items[x].sector
  {
    hide DF.BySector, DF.ByAge, Distinct, DF.Gone;
    assert DF.SideIs(s.items, DS.SideOf(s, s.items[x].write), s.items[x].write, Some(x));
    assert r in DS.SideOf(s, s.items[r].write).sorted by {
      assert DF.SideIs(s.items, DS.SideOf(s, s.items[r].write), s.items[r].write, Some(x));
    }
  }

  /** What is held after `x` has been put in its place. */
  lemma HeldPlaced(s: DS.State, x: nat)
    requires DF.Near(s, Some(x)) && x in s.items
    ensures DS.AddSorted(s, x).items == s.items
    ensures forall r | r != x ::
      DF.Held(DS.AddSorted(s, x), r) <==>
      DF.Held(s, r) && !(s.items[r].write == s.items[x].write && s.items[r].sector == s.items[x].sector)
    ensures x !in DS.SideOf(s, s.items[x].write).sorted ==> (DF.Held(DS.AddSorted(s, x), x) <==> DF.Held(s, x))
  {
    hide DF.Near, DS.AddSorted;
    HeldAddSorted(s, x);
    forall r: nat | r != x && DF.Held(s, r)
      ensures InTheWay(s, x, r) <==> s.items[r].write == s.items[x].write && s.items[r].sector == s.items[x].sector
    {
      WayIs(s, x, r);
    }
  }

  // ----- every step keeps them tied ----------------------------------------

  lemma HeldAdd(cfg: DS.Settings, s: DS.State, x: nat, write: bool, sector: nat, sectors: nat, now: nat)
    requires DF.Near(s, None) && x !in s.items
    ensures var s' := DS.Add(cfg, s, x, write, sector, sectors, now);
      && DF.Held(s', x) && x in s'.items && s'.items == s.items[x := s'.items[x]]
      && s'.items[x].write == write && s'.items[x].sector == sector && s'.items[x].sectors == sectors
      && forall r | r != x ::
           DF.Held(s', r) <==> DF.Held(s, r) && !(s.items[r].write == write && s.items[r].sector == sector)
  {
    hide DF.Near, DS.AddSorted;
    var expire := now + if write then cfg.writeExpire else cfg.readExpire;
    var item := DS.Item(write, sector, sectors, expire);
    var s0 := s.(items := s.items[x := item], nrSorted := s.nrSorted + 1);
    DF.EnterOk(s, x, item, s.nrSorted + 1);
    HeldPlaced(s0, x);
  }

  lemma HeldFront(s: DS.State, x: nat, sector: nat, sectors: nat)
    requires DF.Near(s, None) && DF.Held(s, x)
    ensures var s', w := DS.FrontMerged(s, x, sector, sectors), s.items[x].write;
      && DF.Held(s', x) && s'.items == s.items[x := s.items[x].(sector := sector, sectors := sectors)]
      && forall r | r != x ::
           DF.Held(s', r) <==> DF.Held(s, r) && !(s.items[r].write == w && s.items[r].sector == sector)
  {
    hide DF.Near, DS.AddSorted, Without;
    var w := s.items[x].write;
    var item := s.items[x].(sector := sector, sectors := sectors);
    var d := DS.SideOf(s, w).(sorted := Without(DS.SideOf(s, w).sorted, x));
    DF.FrontOutOk(s, x, item);
    HeldPlaced(DS.WithSide(s.(items := s.items[x := item]), w, d), x);
  }

  lemma HeldJoined(s: DS.State, x: nat, y: nat, sectors: nat)
    requires DF.Near(s, None) && DF.Held(s, x) && DF.Held(s, y) && x != y && s.items[x].write == s.items[y].write
    ensures var s' := DS.Joined(s, x, y, sectors);
      && (forall r :: DF.Held(s', r) <==> DF.Held(s, r) && r != y)
      && s'.items == s.items[x := s'.items[x]] && s'.items[x].sectors == sectors
      && s'.items[x].sector == s.items[x].sector && s'.items[x].write == s.items[x].write
  {
    hide DS.InsertAfter, Without, Distinct, DF.BySector, DF.ByAge, DF.Gone;
    var d := DS.SideOf(s, s.items[x].write);
    WithoutIn(d.fifo, x);
    WithoutDistinct(d.fifo, x);
    DF.InsertAfterIn(Without(d.fifo, x), x, y);
    WithoutIn(d.fifo, y);
    WithoutIn(DS.MoveAfter(d.fifo, x, y), y);
  }

  lemma HeldDispatch(cfg: DS.Settings, s: DS.State, now: nat)
    requires DF.Near(s, None)
    ensures var rq := DS.Choose(cfg, s, now);
      && (rq.Some? ==> rq.value in s.items && DF.Held(s, rq.value))
      && DS.Dispatch(cfg, s, now).items == s.items
      && forall r: nat :: DF.Held(DS.Dispatch(cfg, s, now), r) <==> DF.Held(s, r) && rq != Some(r)
  {
    hide DS.Move, DS.Choose, DS.Continued, DF.BySector, DF.ByAge, Distinct, DF.Gone;
    DF.ChooseOk(cfg, s, now);
    var rq := DS.Choose(cfg, s, now);
    if rq.Some? {
      HeldMove(s, rq.value);
      assert DF.SideIs(s.items, DS.SideOf(s, s.items[rq.value].write), s.items[rq.value].write, None);
    }
  }

  /** Placing a request leaves those alone that do not start at the same place. */
  lemma PlaceTied(b: Both, s': DS.State, x: nat, rq: Rq)
    requires Tied(b) && DF.Held(s', x) && s'.items == b.dd.items[x := s'.items[x]]
    requires s'.items[x].write == rq.write && s'.items[x].sector == rq.sector && s'.items[x].sectors == rq.Sectors()
    requires forall r | r != x ::
      DF.Held(s', r) <==> DF.Held(b.dd, r) && !(b.dd.items[r].write == rq.write && b.dd.items[r].sector == rq.sector)
    ensures Tied(Both(s', Place(b.rqs, x, rq)))
  {
    var rqs' := Place(b.rqs, x, rq);
    forall r: nat
      ensures r in rqs' <==> DF.Held(s', r)
    {
    }
  }

  lemma InsertTied(cfg: DS.Settings, b: Both, x: nat, rq: Rq, now: nat)
    requires DF.Near(b.dd, None) && Tied(b) && Allowed(cfg, b, Insert(x, rq), now)
    ensures Tied(Next(cfg, b, Insert(x, rq), now))
  {
    hide DF.Near, DS.Add, Place, Tied;
    HeldAdd(cfg, b.dd, x, rq.write, rq.sector, rq.Sectors(), now);
    PlaceTied(b, DS.Add(cfg, b.dd, x, rq.write, rq.sector, rq.Sectors(), now), x, rq);
  }

  lemma FrontTied(cfg: DS.Settings, b: Both, x: nat, sector: nat, bytes: nat, now: nat)
    requires DF.Near(b.dd, None) && Tied(b) && Allowed(cfg, b, FrontBio(x, sector, bytes), now)
    ensures Tied(Next(cfg, b, FrontBio(x, sector, bytes), now))
  {
    hide DF.Near, DS.FrontMerged;
    var rq := Lower(b.rqs[x], sector, bytes);
    HeldFront(b.dd, x, sector, rq.Sectors());
    PlaceTied(b, DS.FrontMerged(b.dd, x, sector, rq.Sectors()), x, rq);
  }

  lemma BackTied(cfg: DS.Settings, b: Both, x: nat, bytes: nat, now: nat)
    requires Tied(b) && Allowed(cfg, b, BackBio(x, bytes), now)
    ensures Tied(Next(cfg, b, BackBio(x, bytes), now))
  {
    hide Rq.Sectors;
    var rq := Longer(b.rqs[x], bytes);
    var s' := DS.BackMerged(b.dd, x, rq.Sectors());
    assert forall r: nat :: DF.Held(s', r) <==> DF.Held(b.dd, r);
  }

  /** One request changes but for its place, and another may leave. */
  lemma LeaveTied(b: Both, s': DS.State, x: nat, rq: Rq, y: nat)
    requires Tied(b) && x in b.rqs && x != y && x in s'.items && s'.items == b.dd.items[x := s'.items[x]]
    requires s'.items[x].sectors == rq.Sectors()
    requires s'.items[x].sector == rq.sector && s'.items[x].write == rq.write
    requires forall r: nat :: DF.Held(s', r) <==> DF.Held(b.dd, r) && r != y
    ensures Tied(Both(s', b.rqs[x := rq] - {y}))
  {
    hide Rq.Sectors;
    var rqs' := b.rqs[x := rq] - {y};
    forall r: nat
      ensures r in rqs' <==> DF.Held(s', r)
    {
    }
  }

  lemma JoinTied(cfg: DS.Settings, b: Both, x: nat, y: nat, bytes: nat, now: nat)
    requires DF.Near(b.dd, None) && Tied(b) && Allowed(cfg, b, JoinBio(x, y, bytes), now)
    ensures Tied(Next(cfg, b, JoinBio(x, y, bytes), now))
  {
    hide DF.Near, DS.Joined, Rq.Sectors;
    var rq := Longer(b.rqs[x], bytes + b.rqs[y].dataLen);
    HeldJoined(b.dd, x, y, rq.Sectors());
    LeaveTied(b, DS.Joined(b.dd, x, y, rq.Sectors()), x, rq, y);
  }

  lemma DispatchTied(cfg: DS.Settings, b: Both, now: nat)
    requires DF.Near(b.dd, None) && Tied(b) && Allowed(cfg, b, DispatchOne, now)
    ensures Tied(Next(cfg, b, DispatchOne, now))
  {
    hide DF.Near, DS.Dispatch, DS.Choose;
    HeldDispatch(cfg, b.dd, now);
  }

  /** The step of the scheduler that goes with a step of both. */
  function SchedulerOp(b: Both, op: Op): DF.Op
    requires op.BackBio? || op.FrontBio? ==> op.x in b.rqs
    requires op.JoinBio? ==> op.x in b.rqs && op.y in b.rqs
  {
    match op
    case Insert(x, rq) => DF.Arrive(x, rq.write, rq.sector, rq.Sectors())
    case BackBio(x, bytes) => DF.Back(x, Longer(b.rqs[x], bytes).Sectors())
    case FrontBio(x, sector, bytes) => DF.Front(x, sector, Lower(b.rqs[x], sector, bytes).Sectors())
    case JoinBio(x, y, bytes) => DF.Join(x, y, Longer(b.rqs[x], bytes + b.rqs[y].dataLen).Sectors())
    case DispatchOne => DF.DispatchOne
  }

  lemma NextTied(cfg: DS.Settings, b: Both, op: Op, now: nat)
    requires DF.Inv(cfg, b.dd, now) && Tied(b) && Allowed(cfg, b, op, now)
    ensures DF.Inv(cfg, Next(cfg, b, op, now).dd, now) && Tied(Next(cfg, b, op, now))
  {
    hide DF.Near, DF.Fresh, Place, DS.Add, DS.BackMerged, DS.FrontMerged, DS.Joined, DS.Dispatch, DS.Choose;
    DF.NextOk(cfg, b.dd, SchedulerOp(b, op), now);
    match op
    case Insert(x, rq) => InsertTied(cfg, b, x, rq, now);
    case BackBio(x, bytes) => BackTied(cfg, b, x, bytes, now);
    case FrontBio(x, sector, bytes) => FrontTied(cfg, b, x, sector, bytes, now);
    case JoinBio(x, y, bytes) => JoinTied(cfg, b, x, y, bytes, now);
    case DispatchOne => DispatchTied(cfg, b, now);
  }

  // ----- every run ---------------------------------------------------------

  datatype Call = Call(op: Op, now: nat)

  predicate CanRun(cfg: DS.Settings, b: Both, now: nat, calls: seq<Call>)
    decreases |calls|
  {
    calls == [] ||
    (now <= calls[0].now && Allowed(cfg, b, calls[0].op, calls[0].now) &&
     CanRun(cfg, Next(cfg, b, calls[0].op, calls[0].now), calls[0].now, calls[1..]))
  }

  function Run(cfg: DS.Settings, b: Both, now: nat, calls: seq<Call>): Both
    requires CanRun(cfg, b, now, calls)
    decreases |calls|
  {
    if calls == [] then b
    else Run(cfg, Next(cfg, b, calls[0].op, calls[0].now), calls[0].now, calls[1..])
  }

  lemma {:induction false} RunTied(cfg: DS.Settings, b: Both, now: nat, calls: seq<Call>)
    requires DF.Inv(cfg, b.dd, now) && Tied(b) && CanRun(cfg, b, now, calls)
    ensures DF.Near(Run(cfg, b, now, calls).dd, None) && Tied(Run(cfg, b, now, calls))
    decreases |calls|
  {
    hide DF.Near, DF.Fresh, Tied, Next, Allowed;
    if calls != [] {
      DF.InvLater(cfg, b.dd, now, calls[0].now);
      NextTied(cfg, b, calls[0].op, calls[0].now);
      RunTied(cfg, Next(cfg, b, calls[0].op, calls[0].now), calls[0].now, calls[1..]);
    }
  }

  /**
   * In every run from an empty queue, whatever is inserted, merged, joined and
   * dispatched, the sorted lists of the scheduler are indexes of the requests the
   * elevator holds.
   */
  lemma IndexAlways(cfg: DS.Settings, calls: seq<Call>, write: bool)
    requires CanRun(cfg, Both(DS.Init(), map[]), 0, calls)
    ensures var b := Run(cfg, Both(DS.Init(), map[]), 0, calls);
      IndexOf(b.rqs, write, DS.SideOf(b.dd, write).sorted)
  {
    hide CanRun, Run, IndexOf;
    RunTied(cfg, Both(DS.Init(), map[]), 0, calls);
    var b := Run(cfg, Both(DS.Init(), map[]), 0, calls);
    SchedulerIndex(b.dd, b.rqs, write);
  }

  // ----- as it is written --------------------------------------------------

  /** The element before `x` (rb_prev in the sorted index). */
  function Former(s: seq<nat>, x: nat): Option<nat> {
    if |s| < 2 then None else if s[1] == x then Some(s[0]) else Former(s[1..], x)
  }

  lemma {:induction false} FormerIn(s: seq<nat>, x: nat)
    requires Distinct(s)
    ensures Former(s, x).Some? ==> Former(s, x).value in s && Former(s, x).value != x
  {
    if |s| >= 2 && s[1] != x {
      FormerIn(s[1..], x);
    }
  }

  /** What elv_rb_add runs into, once `x` is out of the index. */
  function AliasOf(b: Both, x: nat, rq: Rq): Option<nat> {
    DS.Alias(b.dd.items, Without(DS.SideOf(b.dd, rq.write).sorted, x), rq.sector)
  }

  lemma AliasTaken(b: Both, x: nat, rq: Rq, r: nat)
    requires DF.Near(b.dd, None) && Tied(b)
    ensures AliasOf(b, x, rq) == Some(r) <==>
      r != x && r in b.rqs && b.rqs[r].write == rq.write && b.rqs[r].sector == rq.sector
  {
    hide DF.BySector, DF.ByAge, DF.Gone, Distinct, DS.Alias, Without, Rq.Sectors;
    var d := DS.SideOf(b.dd, rq.write);
    assert DF.SideIs(b.dd.items, d, rq.write, None);
    WithoutIn(d.sorted, x);
    DF.WithoutBySector(b.dd.items, d.sorted, x);
    AliasIs(b.dd.items, Without(d.sorted, x), rq.sector, r);
    assert r in d.sorted <==> r in d.fifo;
  }

  /** It is the request that Place takes out. */
  lemma PlaceTakes(b: Both, x: nat, rq: Rq)
    requires DF.Near(b.dd, None) && Tied(b)
    ensures var alias := AliasOf(b, x, rq);
      && (alias.Some? ==> alias.value in b.rqs && alias.value != x)
      && Place(b.rqs, x, rq) == if alias.Some? then b.rqs[x := rq] - {alias.value} else b.rqs[x := rq]
  {
    hide DF.Near, Tied, AliasOf;
    var alias := AliasOf(b, x, rq);
    forall r: nat
      ensures alias == Some(r) <==>
        r != x && r in b.rqs && b.rqs[r].write == rq.write && b.rqs[r].sector == rq.sector
    {
      AliasTaken(b, x, rq, r);
    }
    if alias.Some? {
      assert alias == Some(alias.value);
    }
  }

  /** The requests after and before one in the index (elv_latter_request, elv_former_request). */
  function LatterOf(b: Both, x: nat): Option<nat> {
    if x in b.rqs then DS.After(DS.SideOf(b.dd, b.rqs[x].write).sorted, x) else None
  }

  function FormerOf(b: Both, x: nat): Option<nat> {
    if x in b.rqs then Former(DS.SideOf(b.dd, b.rqs[x].write).sorted, x) else None
  }

  /** The request that `x` with a bio at its back is joined with, if any. */
  predicate JoinsLatter(b: Both, x: nat, bytes: nat, alike: bool, fits: bool) {
    var next := LatterOf(b, x);
    next.Some? && x in b.rqs && next.value in b.rqs && JoinOk(Longer(b.rqs[x], bytes), b.rqs[next.value], alike, fits)
  }

  predicate JoinsFormer(b: Both, x: nat, sector: nat, bytes: nat, alike: bool, fits: bool) {
    var prev := FormerOf(b, x);
    && prev.Some? && x in b.rqs && prev.value in b.rqs
    && JoinOk(b.rqs[prev.value], Lower(b.rqs[x], sector, bytes), alike, fits)
  }

  /** A step was possible, and was taken. */
  predicate Step(cfg: DS.Settings, b: Both, op: Op, now: nat, b': Both) {
    Allowed(cfg, b, op, now) && b' == Next(cfg, b, op, now)
  }

  /** The neighbours of a request in the index are other requests the elevator holds. */
  lemma Neighbours(b: Both, x: nat)
    requires DF.Near(b.dd, None) && Tied(b) && x in b.rqs
    ensures LatterOf(b, x).Some? ==> LatterOf(b, x).value in b.rqs && LatterOf(b, x).value != x
    ensures FormerOf(b, x).Some? ==> FormerOf(b, x).value in b.rqs && FormerOf(b, x).value != x
  {
    hide DF.BySector, DF.ByAge, DF.Gone, Distinct, DS.After, Former, Rq.Sectors;
    var d := DS.SideOf(b.dd, b.rqs[x].write);
    assert DF.SideIs(b.dd.items, d, b.rqs[x].write, None);
    DF.BySectorDistinct(b.dd.items, d.sorted);
    DF.AfterIn(d.sorted, x);
    FormerIn(d.sorted, x);
  }

  lemma StartTied(cfg: DS.Settings)
    ensures DF.Inv(cfg, DS.Init(), 0) && Tied(Both(DS.Init(), map[]))
  {
  }

  class Queue {
    const cfg: DS.Settings
    const elv: Elevator
    var dd: DS.State
    var now: nat

    /** All is well but for the hash keys of some requests. */
    ghost predicate ValidBut(stale: set<nat>)
      reads this, elv, elv.buckets
    {
      elv.ValidBut(stale) && DF.Inv(cfg, dd, now) && Tied(View())
    }

    ghost predicate Valid()
      reads this, elv, elv.buckets
    {
      ValidBut({})
    }

    ghost function View(): Both
      reads this, elv
    {
      Both(dd, elv.rqs)
    }

    constructor (cfg: DS.Settings, hash: nat -> nat)
      requires InRange(hash)
      ensures Valid() && fresh(elv) && fresh(elv.buckets) && View() == Both(DS.Init(), map[])
    {
      hide Elevator.ValidBut, DF.Inv, Tied;
      StartTied(cfg);
      this.cfg := cfg;
      elv := new Elevator(hash);
      dd := DS.Init();
      now := 0;
    }

    /** The scheduler sends off what is in the way of a request, and it leaves the hash. */
    method Evict(x: nat, rq: Rq, ghost b: Both, ghost stale: set<nat>)
      requires elv.ValidBut(stale) && stale <= {x} && elv.rqs == b.rqs[x := rq]
      requires dd == b.dd && DF.Near(b.dd, None) && Tied(b)
      modifies elv, elv.buckets
      ensures elv.ValidBut(stale) && elv.rqs == Place(b.rqs, x, rq) && elv.buckets == old(elv.buckets)
    {
      hide Elevator.ValidBut, DF.Near, Place, DS.Alias, Without, Tied;
      PlaceTakes(b, x, rq);
      var alias := DS.Alias(dd.items, Without(DS.SideOf(dd, rq.write).sorted, x), rq.sector);
      if alias.Some? {
        elv.Dispatch(alias.value, stale);
        assert stale - {alias.value} == stale;
      }
    }

    /** elv_insert of a sorted request, alias included */
    method AddRequest(x: nat, rq: Rq, t: nat)
      requires Valid() && x !in dd.items && now <= t
      modifies this`dd, this`now, elv, elv.buckets
      ensures Valid() && now == t && Step(cfg, old(View()), Insert(x, rq), t, View())
    {
      hide Elevator.ValidBut, DF.Near, DF.Fresh, DS.Add, Place;
      ghost var b := View();
      DF.InvLater(cfg, dd, now, t);
      NextTied(cfg, b, Insert(x, rq), t);
      elv.Insert(x, rq);
      Evict(x, rq, b, {});
      dd := DS.Add(cfg, dd, x, rq.write, rq.sector, rq.Sectors(), t);
      now := t;
    }

    /** deadline_merged_requests, after the elevator has joined two requests */
    method MergedRequests(x: nat, y: nat, ghost bytes: nat, ghost b: Both)
      requires elv.Valid() && dd == b.dd && DF.Inv(cfg, b.dd, now) && Tied(b)
      requires x != y && x in b.rqs && y in b.rqs && b.rqs[x].write == b.rqs[y].write
      requires elv.rqs == b.rqs[x := Longer(b.rqs[x], bytes + b.rqs[y].dataLen)] - {y}
      modifies this`dd
      ensures Valid() && Step(cfg, b, JoinBio(x, y, bytes), now, View())
    {
      hide Elevator.ValidBut, DF.Near, DF.Fresh, DS.Joined, Rq.Sectors;
      NextTied(cfg, b, JoinBio(x, y, bytes), now);
      dd := DS.Joined(dd, x, y, elv.rqs[x].Sectors());
    }

    /** deadline_merged_request, after the elevator has merged a bio at the front */
    method MergedFront(x: nat, ghost sector: nat, ghost bytes: nat, ghost b: Both, ghost stale: set<nat>)
      requires elv.ValidBut(stale) && stale <= {x} && dd == b.dd && DF.Inv(cfg, b.dd, now) && Tied(b)
      requires x in b.rqs && elv.rqs == b.rqs[x := Lower(b.rqs[x], sector, bytes)]
      modifies this`dd, elv, elv.buckets
      ensures ValidBut(stale) && elv.buckets == old(elv.buckets)
      ensures Step(cfg, b, FrontBio(x, sector, bytes), now, View())
    {
      hide Elevator.ValidBut, DF.Near, DF.Fresh, DS.FrontMerged, Place, Rq.Sectors;
      NextTied(cfg, b, FrontBio(x, sector, bytes), now);
      var rq := elv.rqs[x];
      Evict(x, rq, b, stale);
      dd := DS.FrontMerged(dd, x, rq.sector, rq.Sectors());
    }

    method MergedBack(x: nat, ghost bytes: nat, ghost b: Both)
      requires elv.Valid() && dd == b.dd && DF.Inv(cfg, b.dd, now) && Tied(b)
      requires x in b.rqs && elv.rqs == b.rqs[x := Longer(b.rqs[x], bytes)]
      modifies this`dd
      ensures Valid() && Step(cfg, b, BackBio(x, bytes), now, View())
    {
      hide Elevator.ValidBut, DF.Near, DF.Fresh, DS.BackMerged, Rq.Sectors;
      NextTied(cfg, b, BackBio(x, bytes), now);
      dd := DS.BackMerged(dd, x, elv.rqs[x].Sectors());
    }

    /** The back merge of __make_request: the request may then be joined with the one after it in the index. */
    method BackMerge(x: nat, bytes: nat, alike: bool, fits: bool) returns (joined: bool)
      requires Valid() && x in elv.rqs && elv.rqs[x].Mergeable()
      modifies this`dd, elv, elv.buckets
      ensures Valid() && (joined <==> JoinsLatter(old(View()), x, bytes, alike, fits))
      ensures joined ==> Step(cfg, old(View()), JoinBio(x, LatterOf(old(View()), x).value, bytes), now, View())
      ensures !joined ==> Step(cfg, old(View()), BackBio(x, bytes), now, View())
    {
      hide Elevator.ValidBut, DF.Near, DF.Fresh, Tied, DS.After, Step, Rq.Sectors, Rq.End, Rq.Mergeable;
      ghost var b := View();
      Neighbours(b, x);
      var next := DS.After(DS.SideOf(dd, elv.rqs[x].write).sorted, x);
      joined := elv.BackMerge(x, bytes, next, alike, fits);
      if joined {
        MergedRequests(x, next.value, bytes, b);
      } else {
        MergedBack(x, bytes, b);
      }
    }

    /**
     * The front merge of __make_request: the request may then be joined to the one
     * before it in the index, or else it takes the place of one that starts where it
     * now starts. Its key may be stale if odd bytes have made up a sector.
     */
    method FrontMerge(x: nat, sector: nat, bytes: nat, alike: bool, fits: bool) returns (joined: bool)
      requires Valid() && x in elv.rqs && elv.rqs[x].Mergeable()
      requires sector + bytes / SECTOR_SIZE == elv.rqs[x].sector
      modifies this`dd, elv, elv.buckets
      ensures ValidBut(if joined || KeepsKey(old(elv.rqs)[x], bytes) then {} else {x})
      ensures joined <==> JoinsFormer(old(View()), x, sector, bytes, alike, fits)
      ensures joined ==> Step(cfg, old(View()), JoinBio(FormerOf(old(View()), x).value, x, bytes), now, View())
      ensures !joined ==> Step(cfg, old(View()), FrontBio(x, sector, bytes), now, View())
    {
      hide Elevator.ValidBut, DF.Near, DF.Fresh, Tied, Former, Step, KeepsKey, Rq.Sectors, Rq.End, Rq.Mergeable;
      ghost var b := View();
      Neighbours(b, x);
      var prev := Former(DS.SideOf(dd, elv.rqs[x].write).sorted, x);
      joined := elv.FrontMerge(x, sector, bytes, prev, alike, fits);
      if joined {
        MergedRequests(prev.value, x, bytes, b);
      } else {
        MergedFront(x, sector, bytes, b, if KeepsKey(b.rqs[x], bytes) then {} else {x});
      }
    }

    /** One request is dispatched, if any waits, and leaves the hash. */
    method DispatchRequest(t: nat) returns (rq: Option<nat>)
      requires Valid() && now <= t
      modifies this`dd, this`now, elv, elv.buckets
      ensures Valid() && now == t && rq == DS.Choose(cfg, old(dd), t)
      ensures Step(cfg, old(View()), DispatchOne, t, View())
    {
      hide Elevator.ValidBut, DF.Near, DF.Fresh, DS.Choose, DS.Dispatch;
      DF.InvLater(cfg, dd, now, t);
      HeldDispatch(cfg, dd, t);
      NextTied(cfg, View(), DispatchOne, t);
      rq := DS.Choose(cfg, dd, t);
      if rq.Some? {
        elv.Dispatch(rq.value, {});
        assert {} - {rq.value} == {};
      }
      dd := DS.Dispatch(cfg, dd, t);
      now := t;
    }

    lemma SchedulerTied(write: bool)
      requires Valid()
      ensures IndexOf(elv.rqs, write, DS.SideOf(dd, write).sorted)
      ensures forall sector :: elv.hash(sector) < elv.buckets.Length
    {
      hide DF.Near, DF.Fresh, IndexOf, Linked, Keyed, Complete;
      SchedulerIndex(dd, elv.rqs, write);
    }

    /** elv_merge with the index that the scheduler keeps */
    method Merge(sector: nat, sectors: nat, write: bool, alike: set<nat>, frontMerges: bool) returns (d: Decision)
      requires Valid()
      modifies elv`on, elv.buckets
      ensures Valid() && View() == old(View())
      ensures d.Back? ==> elv.MergeOk(d.rq, write, alike) && elv.rqs[d.rq].End() == sector
      ensures d.Front? ==> elv.MergeOk(d.rq, write, alike) && elv.rqs[d.rq].sector == sector + sectors
      ensures d.NoMerge? <==>
        && !elv.LastTakes(sector, sectors, write, alike)
        && !elv.ChainTakes(old(elv.buckets[..])[elv.hash(sector)], sector, write, alike)
        && !(frontMerges && elv.StartTakes(sector + sectors, write, alike))
    {
      hide Elevator.ValidBut, DF.Near, DF.Fresh, Tied, IndexOf, FirstEnding, Pruned;
      SchedulerTied(write);
      d := elv.Merge(sector, sectors, write, alike, false, false, frontMerges, DS.SideOf(dd, write).sorted);
    }
  }
}
