/**
 * Which request the deadline scheduler dispatches: on from the last one in the
 * order of sectors, across the end of a batch, unless the oldest request of the
 * direction has expired or there is nothing further up.
 */
module DeadlineOrder {
  import opened Block
  import opened Lists
  import opened DeadlineSpec
  import opened DeadlineSafety
  import opened DeadlineLatency

  // ----- what is known of the past -----------------------------------------

  /** Direction and sector of the request dispatched last. */
  datatype Spot = Spot(write: bool, sector: nat)

  /** ... and the requests that have come, or have grown at the front, since then. */
  datatype Track = Track(last: Option<Spot>, news: set<nat>)

  function SpotOf(s: State, x: nat): Spot
    requires x in s.items
  {
    Spot(s.items[x].write, s.items[x].sector)
  }

  /** Told from the dispatch queue before and after a step. */
  function NextTrack(tr: Track, s: State, op: Op, s': State): Track {
    var came := if op.Arrive? || op.Front? then {op.x} else {};
    if |s'.dispatched| > |s.dispatched| && s'.dispatched[|s'.dispatched| - 1] in s'.items
    then Track(Some(SpotOf(s', s'.dispatched[|s'.dispatched| - 1])), came)
    else tr.(news := tr.news + came)
  }

  /** A front merge takes a request down, but not across the request dispatched last. */
  predicate Tame(tr: Track, s: State, op: Op) {
    op.Front? && op.x in s.items ==>
      && op.sector <= s.items[op.x].sector
      && (tr.last.Some? && tr.last.value.write == s.items[op.x].write && s.items[op.x].sector > tr.last.value.sector ==>
            op.sector > tr.last.value.sector)
  }

  // ----- where the batch goes on -------------------------------------------

  /** next_rq is the first one further up, but for news; there is none if only news are further up. */
  ghost predicate Onward(items: map<nat, Item>, d: Side, from: nat, news: set<nat>) {
    && (d.next.Some? ==>
          && Sector(items, d.next.value) > from
          && forall y | y in d.sorted && y !in news && Sector(items, y) > from ::
               Sector(items, d.next.value) <= Sector(items, y))
    && (d.next.None? ==> forall y | y in d.sorted && y !in news :: Sector(items, y) <= from)
  }

  ghost predicate Cursor(s: State, tr: Track) {
    match tr.last
    case None => s.rd.next.None? && s.wr.next.None?
    case Some(spot) =>
      && SideOf(s, !spot.write).next.None?
      && Onward(s.items, SideOf(s, spot.write), spot.sector, tr.news)
  }

  lemma MoveIs(s: State, x: nat)
    requires x in s.items
    ensures Move(s, x).items == s.items && Move(s, x).dispatched == s.dispatched + [x]
  {
  }

  /** Whatever is dispatched, the cursor is where it was. */
  lemma MoveCursor(s: State, x: nat, news: set<nat>)
    requires x in s.items && x in SideOf(s, s.items[x].write).sorted
    requires BySector(s.items, SideOf(s, s.items[x].write).sorted)
    ensures Cursor(Move(s, x), Track(Some(SpotOf(s, x)), news)) && Move(s, x).items == s.items
    ensures Move(s, x).dispatched == s.dispatched + [x]
  {
    hide Move, BySector;
    BatchGoesUp(s, x);
    MoveIs(s, x);
  }

  /** Something new in the index, at its place, changes nothing. */
  lemma InsertOnward(items: map<nat, Item>, d: Side, x: nat, from: nat, news: set<nat>)
    requires Onward(items, d, from, news)
    ensures Onward(items, d.(sorted := Insert(items, d.sorted, x)), from, news + {x})
  {
    hide Insert;
    InsertIn(items, d.sorted, x);
  }

  lemma MoreNews(items: map<nat, Item>, d: Side, from: nat, news: set<nat>, more: set<nat>)
    requires Onward(items, d, from, news) && news <= more
    ensures Onward(items, d, from, more)
  {
  }

  lemma InsertCursor(s: State, x: nat, tr: Track)
    requires x in s.items && Cursor(s, tr)
    ensures var w := s.items[x].write;
      var d := SideOf(s, w).(sorted := Insert(s.items, SideOf(s, w).sorted, x));
      Cursor(WithSide(s, w, d), tr.(news := tr.news + {x}))
  {
    hide Insert, Onward;
    var w := s.items[x].write;
    if tr.last.Some? {
      if tr.last.value.write == w {
        InsertOnward(s.items, SideOf(s, w), x, tr.last.value.sector, tr.news);
      } else {
        MoreNews(s.items, SideOf(s, !w), tr.last.value.sector, tr.news, tr.news + {x});
      }
    }
  }

  /** Putting a request in its place in the index, with an alias or without. */
  lemma AddSortedCursor(s: State, x: nat, tr: Track)
    requires Near(s, Some(x)) && x in s.items && Cursor(s, tr)
    ensures var s' := AddSorted(s, x);
      && s'.items == s.items
      && (s'.dispatched == s.dispatched ==> Cursor(s', tr.(news := tr.news + {x})))
      && (s'.dispatched != s.dispatched ==>
            && |s'.dispatched| == |s.dispatched| + 1
            && var a := s'.dispatched[|s.dispatched|];
            a in s.items && Cursor(s', Track(Some(SpotOf(s, a)), {x})))
  {
    hide Move, Alias, Insert, BySector, ByAge, Distinct, Cursor, Onward;
    var w := s.items[x].write;
    var alias := Alias(s.items, SideOf(s, w).sorted, s.items[x].sector);
    assert SideIs(s.items, SideOf(s, w), w, Some(x));
    AliasIn(s.items, SideOf(s, w).sorted, s.items[x].sector);
    if alias.Some? {
      var a := alias.value;
      MoveCursor(s, a, {});
      InsertCursor(Move(s, a), x, Track(Some(SpotOf(s, a)), {}));
      assert Track(Some(SpotOf(s, a)), {}).news + {x} == {x};
    } else {
      InsertCursor(s, x, tr);
    }
  }

  // ----- every step keeps it -----------------------------------------------

  /** Items that are not in the index, or keep their sector, do not matter. */
  lemma ItemsOnward(items: map<nat, Item>, items': map<nat, Item>, d: Side, from: nat, news: set<nat>)
    requires Onward(items, d, from, news)
    requires d.next.Some? ==> Sector(items', d.next.value) == Sector(items, d.next.value)
    requires forall y | y in d.sorted && y !in news :: Sector(items', y) == Sector(items, y)
    ensures Onward(items', d, from, news)
  {
  }

  /** The fifo does not matter either. */
  lemma TailCursor(s: State, x: nat, tr: Track)
    requires x in s.items && Cursor(s, tr)
    ensures var w := s.items[x].write; Cursor(WithSide(s, w, SideOf(s, w).(fifo := SideOf(s, w).fifo + [x])), tr)
  {
  }

  lemma ArriveCursor(cfg: Settings, s: State, tr: Track, op: Op, now: nat)
    requires Inv(cfg, s, now) && Cursor(s, tr) && op.Arrive? && Allowed(cfg, s, op, now)
    ensures Cursor(Next(cfg, s, op, now), NextTrack(tr, s, op, Next(cfg, s, op, now)))
  {
    hide Distinct, BySector, ByAge, Gone, Onward, AddSorted, Insert;
    var x, w := op.x, op.write;
    var item := Item(w, op.sector, op.sectors, now + if w then cfg.writeExpire else cfg.readExpire);
    var s0 := s.(items := s.items[x := item], nrSorted := s.nrSorted + 1);
    EnterOk(s, x, item, s.nrSorted + 1);
    NotWaiting(s, x);
    assert Cursor(s0, tr) by {
      if tr.last.Some? {
        ItemsOnward(s.items, s0.items, SideOf(s, tr.last.value.write), tr.last.value.sector, tr.news);
      }
    }
    AddSortedCursor(s0, x, tr);
    var s1 := AddSorted(s0, x);
    TailCursor(s1, x, NextTrack(tr, s, op, s1));
  }

  /** A request that is taken out of the index to grow at the front. */
  lemma OutCursor(s: State, tr: Track, op: Op)
    requires Near(s, None) && Cursor(s, tr) && op.Front? && Held(s, op.x) && Tame(tr, s, op)
    ensures
      var x, w := op.x, s.items[op.x].write;
      var s1 := s.(items := s.items[x := s.items[x].(sector := op.sector, sectors := op.sectors)]);
      Cursor(WithSide(s1, w, SideOf(s1, w).(sorted := Without(SideOf(s1, w).sorted, x))), tr.(news := tr.news + {x}))
  {
    hide Distinct, BySector, ByAge, Gone, Without;
    var x, w := op.x, s.items[op.x].write;
    WithoutIn(SideOf(s, w).sorted, x);
    assert SideIs(s.items, SideOf(s, !w), !w, None) && SideIs(s.items, SideOf(s, w), w, None);
    assert x !in SideOf(s, !w).sorted && SideOf(s, !w).next != Some(x);
  }

  lemma FrontCursor(cfg: Settings, s: State, tr: Track, op: Op, now: nat)
    requires Inv(cfg, s, now) && Cursor(s, tr) && op.Front? && Allowed(cfg, s, op, now) && Tame(tr, s, op)
    ensures Cursor(Next(cfg, s, op, now), NextTrack(tr, s, op, Next(cfg, s, op, now)))
  {
    hide SideIs, Cursor, AddSorted, Without, Tame;
    var x, w := op.x, s.items[op.x].write;
    var item := s.items[x].(sector := op.sector, sectors := op.sectors);
    var s1 := s.(items := s.items[x := item]);
    var s2 := WithSide(s1, w, SideOf(s1, w).(sorted := Without(SideOf(s1, w).sorted, x)));
    OutCursor(s, tr, op);
    FrontOutOk(s, x, item);
    AddSortedCursor(s2, x, tr.(news := tr.news + {x}));
    assert tr.news + {x} + {x} == tr.news + {x};
  }

  lemma BackCursor(cfg: Settings, s: State, tr: Track, op: Op, now: nat)
    requires Cursor(s, tr) && op.Back? && Allowed(cfg, s, op, now)
    ensures Cursor(Next(cfg, s, op, now), NextTrack(tr, s, op, Next(cfg, s, op, now)))
  {
    assert tr.news + {} == tr.news;
    var s' := Next(cfg, s, op, now);
    assert forall y :: Sector(s'.items, y) == Sector(s.items, y);
  }

  /** A request leaves the index; if the batch was to go on with it, it goes on with the one after it. */
  lemma RemoveOnward(items: map<nat, Item>, d: Side, y: nat, from: nat, news: set<nat>)
    requires BySector(items, d.sorted) && y in d.sorted && Onward(items, d, from, news)
    ensures Onward(items, Remove(d, y), from, news)
  {
    hide After, Without, BySector;
    AfterIsNext(items, d.sorted, y);
    WithoutIn(d.sorted, y);
    if d.next == Some(y) {
      forall z | z in d.sorted && z != y && z !in news && Sector(items, z) > from
        ensures Sector(items, z) > Sector(items, y)
      {
        if Sector(items, z) == Sector(items, y) {
          SectorUnique(items, d.sorted, z, y);
        }
      }
    }
  }

  lemma JoinCursor(cfg: Settings, s: State, tr: Track, op: Op, now: nat)
    requires Inv(cfg, s, now) && Cursor(s, tr) && op.Join? && Allowed(cfg, s, op, now)
    ensures Cursor(Next(cfg, s, op, now), NextTrack(tr, s, op, Next(cfg, s, op, now)))
  {
    hide Distinct, BySector, ByAge, Gone, Without, After, MoveAfter;
    assert tr.news + {} == tr.news;
    var w := s.items[op.x].write;
    var s' := Next(cfg, s, op, now);
    assert forall z :: Sector(s'.items, z) == Sector(s.items, z);
    assert SideIs(s.items, SideOf(s, w), w, None);
    if tr.last.Some? && tr.last.value.write == w {
      RemoveOnward(s.items, SideOf(s, w), op.y, tr.last.value.sector, tr.news);
    } else {
      assert SideOf(s, w).next.None?;
    }
  }

  lemma DispatchCursor(cfg: Settings, s: State, tr: Track, op: Op, now: nat)
    requires Inv(cfg, s, now) && Cursor(s, tr) && op.DispatchOne? && Allowed(cfg, s, op, now)
    ensures Cursor(Next(cfg, s, op, now), NextTrack(tr, s, op, Next(cfg, s, op, now)))
  {
    hide Distinct, BySector, ByAge, Gone, Move, Choose, Continued, Onward;
    assert tr.news + {} == tr.news;
    ChooseOk(cfg, s, now);
    var rq := Choose(cfg, s, now);
    if rq.Some? {
      var w := s.items[rq.value].write;
      assert SideIs(s.items, SideOf(s, w), w, None);
      MoveCursor(s, rq.value, {});
    }
  }

  lemma StepCursor(cfg: Settings, s: State, tr: Track, op: Op, now: nat)
    requires Inv(cfg, s, now) && Cursor(s, tr) && Allowed(cfg, s, op, now) && Tame(tr, s, op)
    ensures Cursor(Next(cfg, s, op, now), NextTrack(tr, s, op, Next(cfg, s, op, now)))
  {
    hide Inv, Cursor, Next, Tame, NextTrack, Allowed;
    match op
    case Arrive(_, _, _, _) => ArriveCursor(cfg, s, tr, op, now);
    case Back(_, _) => BackCursor(cfg, s, tr, op, now);
    case Front(_, _, _) => FrontCursor(cfg, s, tr, op, now);
    case Join(_, _, _) => JoinCursor(cfg, s, tr, op, now);
    case DispatchOne => DispatchCursor(cfg, s, tr, op, now);
  }

  // ----- what is dispatched ------------------------------------------------

  /** A request of a direction waits further up and is no news. */
  predicate Further(s: State, tr: Track, y: nat) {
    && tr.last.Some? && Held(s, y) && y !in tr.news
    && s.items[y].write == tr.last.value.write && s.items[y].sector > tr.last.value.sector
  }

  ghost predicate NothingFurther(s: State, tr: Track) {
    tr.last.Some? ==>
      forall y | Held(s, y) && s.items[y].write == tr.last.value.write :: s.items[y].sector <= tr.last.value.sector
  }

  /** No request of its direction has an earlier deadline. */
  ghost predicate Oldest(s: State, x: nat)
    requires x in s.items
  {
    forall y | Held(s, y) && s.items[y].write == s.items[x].write :: s.items[x].expire <= s.items[y].expire
  }

  /** The oldest request of a direction has expired. */
  ghost predicate Expired(s: State, write: bool, now: nat) {
    exists y :: Held(s, y) && s.items[y].write == write && Oldest(s, y) && now > s.items[y].expire
  }

  lemma {:induction false} HeadIsOldest(items: map<nat, Item>, f: seq<nat>, y: nat)
    requires ByAge(items, f) && y in f
    ensures Expire(items, f[0]) <= Expire(items, y)
  {
    InHeadTail(f);
  }

  lemma FirstIsOldest(s: State, w: bool)
    requires Near(s, None) && SideOf(s, w).fifo != []
    ensures var x := SideOf(s, w).fifo[0]; x in s.items && s.items[x].write == w && Held(s, x) && Oldest(s, x)
  {
    hide Distinct, BySector, ByAge, Gone;
    var f := SideOf(s, w).fifo;
    assert SideIs(s.items, SideOf(s, w), w, None) && f[0] in f;
    forall y | Held(s, y) && s.items[y].write == w
      ensures s.items[f[0]].expire <= s.items[y].expire
    {
      HeadIsOldest(s.items, f, y);
    }
  }

  lemma ExpiredIs(s: State, w: bool, now: nat)
    requires Near(s, None) && SideOf(s, w).fifo != []
    ensures Expired(s, w, now) <==> now > Expire(s.items, SideOf(s, w).fifo[0])
  {
    hide Near;
    FirstIsOldest(s, w);
  }

  /** In terms of who waits: next_rq is the first further up, and there is none if nothing is. */
  lemma CursorHeld(s: State, tr: Track)
    requires Near(s, None) && Cursor(s, tr) && tr.last.Some?
    ensures var next := SideOf(s, tr.last.value.write).next;
      && (next.Some? ==>
            && Held(s, next.value) && s.items[next.value].write == tr.last.value.write
            && s.items[next.value].sector > tr.last.value.sector
            && forall y | Further(s, tr, y) :: s.items[next.value].sector <= s.items[y].sector)
      && (next.None? ==> forall y :: !Further(s, tr, y))
      && (NothingFurther(s, tr) ==> next.None?)
  {
    hide Distinct, BySector, ByAge, Gone;
    var w := tr.last.value.write;
    assert SideIs(s.items, SideOf(s, w), w, None);
    forall y | Further(s, tr, y)
      ensures y in SideOf(s, w).sorted && Sector(s.items, y) > tr.last.value.sector
    {
    }
  }

  /** The batch is used up, and the request is of the other direction or that of an expired one. */
  ghost predicate NewBatch(cfg: Settings, s: State, tr: Track, c: nat, now: nat)
    requires c in s.items
  {
    && s.batching >= cfg.fifoBatch
    && (tr.last.None? || s.items[c].write != tr.last.value.write || Expired(s, s.items[c].write, now))
  }

  /** What Choose comes to, in terms of next_rq of the direction of the last dispatch. */
  lemma Chosen(cfg: Settings, s: State, tr: Track, now: nat)
    requires Near(s, None) && Cursor(s, tr) && Choose(cfg, s, now).Some?
    ensures
      var c := Choose(cfg, s, now).value;
      var next := if tr.last.None? then None else SideOf(s, tr.last.value.write).next;
      && c in s.items && Held(s, c)
      && (next.Some? && s.batching < cfg.fifoBatch ==> c == next.value)
      && (next.Some? && s.items[c].write == tr.last.value.write && !Expired(s, tr.last.value.write, now) ==>
            c == next.value)
      && (next.None? ==> Oldest(s, c))
      && (NewBatch(cfg, s, tr, c, now) ==> Oldest(s, c))
  {
    hide Distinct, BySector, ByAge, Gone, Onward, Oldest, Expired;
    ChooseOk(cfg, s, now);
    if s.rd.fifo != [] {
      FirstIsOldest(s, false);
      ExpiredIs(s, false, now);
    }
    if s.wr.fifo != [] {
      FirstIsOldest(s, true);
      ExpiredIs(s, true, now);
    }
  }

  /**
   * Which request a call dispatches, told from what was dispatched before. As long
   * as the batch lasts, and after it if the direction stays and its oldest request
   * has not expired, it is the waiting one with the least sector above that of the
   * last, of those that were there then. If there is nothing further up, or if a new
   * batch starts in the other direction or because the oldest has expired, it is the
   * oldest of its direction.
   */
  ghost predicate InOrder(cfg: Settings, s: State, tr: Track, now: nat, s': State) {
    |s'.dispatched| == |s.dispatched| + 1 &&
    var c := s'.dispatched[|s.dispatched|];
    && Held(s, c) && s'.dispatched == s.dispatched + [c]
    && ((exists y :: Further(s, tr, y)) &&
        (s.batching < cfg.fifoBatch ||
         (s.items[c].write == tr.last.value.write && !Expired(s, tr.last.value.write, now))) ==>
          && s.items[c].write == tr.last.value.write && s.items[c].sector > tr.last.value.sector
          && forall y | Further(s, tr, y) :: s.items[c].sector <= s.items[y].sector)
    && (NothingFurther(s, tr) || tr.last.None? || NewBatch(cfg, s, tr, c, now) ==> Oldest(s, c))
  }

  lemma DispatchInOrder(cfg: Settings, s: State, tr: Track, now: nat)
    requires Inv(cfg, s, now) && Cursor(s, tr) && Waiting(s) > 0
    ensures Choose(cfg, s, now).Some? && Choose(cfg, s, now).value in s.items
    ensures InOrder(cfg, s, tr, now, Dispatch(cfg, s, now))
  {
    hide Near, Fresh, Cursor, Choose, Continued, Move, Oldest, Expired, NothingFurther;
    ChooseOk(cfg, s, now);
    Chosen(cfg, s, tr, now);
    var c := Choose(cfg, s, now).value;
    MoveIs(s, c);
    if tr.last.Some? {
      CursorHeld(s, tr);
    }
  }

  // ----- every run ---------------------------------------------------------

  /** What is known after a run; and front merges in it are tame. */
  function TrackOf(cfg: Settings, s: State, tr: Track, now: nat, calls: seq<Call>): Track
    requires CanRun(cfg, s, now, calls)
    decreases |calls|
  {
    if calls == [] then tr
    else
      var s' := Next(cfg, s, calls[0].op, calls[0].now);
      TrackOf(cfg, s', NextTrack(tr, s, calls[0].op, s'), calls[0].now, calls[1..])
  }

  predicate TameRun(cfg: Settings, s: State, tr: Track, now: nat, calls: seq<Call>)
    requires CanRun(cfg, s, now, calls)
    decreases |calls|
  {
    calls == [] ||
    var s' := Next(cfg, s, calls[0].op, calls[0].now);
    && Tame(tr, s, calls[0].op)
    && TameRun(cfg, s', NextTrack(tr, s, calls[0].op, s'), calls[0].now, calls[1..])
  }

  lemma {:induction false} RunCursor(cfg: Settings, s: State, tr: Track, now: nat, calls: seq<Call>)
    requires Inv(cfg, s, now) && Cursor(s, tr) && CanRun(cfg, s, now, calls) && TameRun(cfg, s, tr, now, calls)
    ensures Inv(cfg, Run(cfg, s, now, calls), TimeAfter(now, calls))
    ensures Cursor(Run(cfg, s, now, calls), TrackOf(cfg, s, tr, now, calls))
    decreases |calls|
  {
    hide Inv, Cursor, Next, Allowed, Tame, NextTrack;
    if calls != [] {
      var op, t := calls[0].op, calls[0].now;
      InvLater(cfg, s, now, t);
      NextOk(cfg, s, op, t);
      StepCursor(cfg, s, tr, op, t);
      RunCursor(cfg, Next(cfg, s, op, t), NextTrack(tr, s, op, Next(cfg, s, op, t)), t, calls[1..]);
    }
  }

  lemma InitInOrder(cfg: Settings)
    ensures Inv(cfg, Init(), 0) && Cursor(Init(), Track(None, {}))
  {
  }

  /** After every run from an empty scheduler, a dispatch call with anything waiting takes the request in order. */
  lemma AlwaysInOrder(cfg: Settings, calls: seq<Call>, now: nat)
    requires CanRun(cfg, Init(), 0, calls) && TameRun(cfg, Init(), Track(None, {}), 0, calls)
    requires TimeAfter(0, calls) <= now && Waiting(Run(cfg, Init(), 0, calls)) > 0
    ensures var s := Run(cfg, Init(), 0, calls);
      && Choose(cfg, s, now).Some? && Choose(cfg, s, now).value in s.items
      && InOrder(cfg, s, TrackOf(cfg, Init(), Track(None, {}), 0, calls), now, Dispatch(cfg, s, now))
  {
    hide CanRun, Run, TimeAfter, TameRun, TrackOf, Waiting, InOrder, Choose, Dispatch;
    assert Inv(cfg, Init(), 0) && Cursor(Init(), Track(None, {})) by {
      InitInOrder(cfg);
    }
    RunCursor(cfg, Init(), Track(None, {}), 0, calls);
    InvLater(cfg, Run(cfg, Init(), 0, calls), TimeAfter(0, calls), now);
    DispatchInOrder(cfg, Run(cfg, Init(), 0, calls), TrackOf(cfg, Init(), Track(None, {}), 0, calls), now);
  }

  // ----- why news are left out ---------------------------------------------

  /** Reads 1 and 2 at sectors 100 and 200, and read 3 at sector 150 that comes after 1 was dispatched. */
  function LateCalls(): seq<Call> {
    [Call(Arrive(1, false, 100, 8), 0), Call(Arrive(2, false, 200, 8), 0), Call(DispatchOne, 0),
     Call(Arrive(3, false, 150, 8), 0)]
  }

  function LateItem(cfg: Settings, sector: nat): Item {
    Item(false, sector, 8, cfg.readExpire)
  }

  function OneRead(cfg: Settings): State {
    State(map[1 := LateItem(cfg, 100)], Side([1], [1], None), Side([], [], None), 0, 0, 0, [], 1)
  }

  function TwoReads(cfg: Settings): State {
    State(map[1 := LateItem(cfg, 100)][2 := LateItem(cfg, 200)],
          Side([1, 2], [1, 2], None), Side([], [], None), 0, 0, 0, [], 2)
  }

  function OneGone(cfg: Settings): State {
    State(TwoReads(cfg).items, Side([2], [2], Some(2)), Side([], [], None), 1, 0, 108, [1], 1)
  }

  function LateRead(cfg: Settings): State {
    State(TwoReads(cfg).items[3 := LateItem(cfg, 150)],
          Side([3, 2], [2, 3], Some(2)), Side([], [], None), 1, 0, 108, [1], 2)
  }

  lemma OneInIndex(items: map<nat, Item>, a: nat, x: nat)
    requires Sector(items, a) != Sector(items, x)
    ensures Alias(items, [a], Sector(items, x)) == None
    ensures Insert(items, [a], x) == if Sector(items, x) < Sector(items, a) then [x, a] else [a, x]
  {
    assert [a][1..] == [];
  }

  lemma FirstReads(cfg: Settings)
    ensures Add(cfg, Init(), 1, false, 100, 8, 0) == OneRead(cfg)
    ensures Add(cfg, OneRead(cfg), 2, false, 200, 8, 0) == TwoReads(cfg)
  {
    OneInIndex(TwoReads(cfg).items, 1, 2);
    assert [1] + [2] == [1, 2];
  }

  lemma FirstDispatch(cfg: Settings)
    ensures Choose(cfg, TwoReads(cfg), 0) == Some(1) && Dispatch(cfg, TwoReads(cfg), 0) == OneGone(cfg)
  {
    assert [1, 2][1..] == [2] && [2][1..] == [];
  }

  lemma ThirdRead(cfg: Settings)
    ensures Add(cfg, OneGone(cfg), 3, false, 150, 8, 0) == LateRead(cfg)
  {
    OneInIndex(LateRead(cfg).items, 2, 3);
    assert [2] + [3] == [2, 3];
  }

  /** The third read is above the last sector and below the second one, and is passed over. */
  lemma NewsPassedOver(cfg: Settings)
    requires cfg.fifoBatch >= 2
    ensures CanRun(cfg, Init(), 0, LateCalls())
    ensures var s := Run(cfg, Init(), 0, LateCalls());
      && Held(s, 3) && s.items[3].sector == 150 && s.dispatched == [1] && s.items[1].sector == 100
      && Choose(cfg, s, 0) == Some(2) && s.items[2].sector == 200
  {
    hide Add, Dispatch;
    FirstReads(cfg);
    FirstDispatch(cfg);
    ThirdRead(cfg);
    var calls := LateCalls();
    var c1, c2, c3 := calls[1..], calls[1..][1..], calls[1..][1..][1..];
    assert CanRun(cfg, LateRead(cfg), 0, c3[1..]);
    assert CanRun(cfg, OneGone(cfg), 0, c3) && Run(cfg, OneGone(cfg), 0, c3) == LateRead(cfg);
    assert CanRun(cfg, TwoReads(cfg), 0, c2) && Run(cfg, TwoReads(cfg), 0, c2) == LateRead(cfg);
    assert CanRun(cfg, OneRead(cfg), 0, c1) && Run(cfg, OneRead(cfg), 0, c1) == LateRead(cfg);
  }
}
