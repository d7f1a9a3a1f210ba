/**
 * The order of the dispatch queue (elv_dispatch_sort and the boundary that
 * blk_peek_request moves): a one-way elevator. Sectors at or past the boundary
 * come first, in ascending order; the rest follow, ascending again.
 */
module DispatchOrder {
  import opened Block

  /** Sector `x` is served before sector `y` by an elevator that stands at `b`. */
  predicate Before(b: nat, x: nat, y: nat) {
    (x >= b && y < b) || ((x >= b <==> y >= b) && x < y)
  }

  /** A request no other may be sorted past. */
  predicate Barrier(rq: Rq) {
    rq.started || rq.softBarrier
  }

  /** May `rq` be put in front of `pos`? */
  predicate Passes(b: nat, rq: Rq, pos: Rq) {
    rq.discard == pos.discard && rq.write == pos.write && !Barrier(pos) && Before(b, rq.sector, pos.sector)
  }

  /** Where elv_dispatch_sort puts `rq`: from the tail, past everything it may pass. */
  function Place(b: nat, queue: seq<Rq>, rq: Rq): (k: nat)
    ensures k <= |queue|
  {
    if queue == [] || !Passes(b, rq, queue[|queue| - 1]) then |queue|
    else Place(b, queue[..|queue| - 1], rq)
  }

  function InsertAt(queue: seq<Rq>, k: nat, rq: Rq): (q: seq<Rq>)
    requires k <= |queue|
    ensures |q| == |queue| + 1
    ensures forall i | 0 <= i < |q| :: q[i] == if i < k then queue[i] else if i == k then rq else queue[i - 1]
  {
    queue[..k] + [rq] + queue[k..]
  }

  function Sorted(b: nat, queue: seq<Rq>, rq: Rq): seq<Rq> {
    InsertAt(queue, Place(b, queue, rq), rq)
  }

  datatype State = State(queue: seq<Rq>, endSector: nat, boundary: Option<nat>)

  /** blk_peek_request, as far as the queue goes */
  function Peek(s: State): State
    requires s.queue != []
  {
    var rq := s.queue[0];
    var s1 := s.(queue := s.queue[0 := rq.(started := true)]);
    if s.boundary.None? || s.boundary == Some(rq.id) then s1.(endSector := rq.End(), boundary := None) else s1
  }

  /** elv_dispatch_add_tail: at the back, and a boundary until it is peeked at */
  function AddTail(s: State, rq: Rq): State {
    State(s.queue + [rq], rq.End(), Some(rq.id))
  }

  // ----- what sorting does -------------------------------------------------

  /** Only what may be passed is passed, and the first thing that may not stops it. */
  lemma {:induction false} PlaceStops(b: nat, queue: seq<Rq>, rq: Rq)
    ensures var k := Place(b, queue, rq);
      && (forall i | k <= i < |queue| :: Passes(b, rq, queue[i]))
      && (k > 0 ==> !Passes(b, rq, queue[k - 1]))
  {
    if queue != [] && Passes(b, rq, queue[|queue| - 1]) {
      PlaceStops(b, queue[..|queue| - 1], rq);
    }
  }

  /** No started or barrier request, and no request of another kind, is overtaken. */
  lemma NeverPassesBarrier(b: nat, queue: seq<Rq>, rq: Rq, i: nat)
    requires i < |queue|
    requires Barrier(queue[i]) || queue[i].write != rq.write || queue[i].discard != rq.discard
    ensures i < Place(b, queue, rq)
    ensures Sorted(b, queue, rq)[i] == queue[i]
  {
    PlaceStops(b, queue, rq);
  }

  // ----- runs in one direction ---------------------------------------------

  /** Two different requests, and no sector belongs to both. */
  predicate Apart(x: Rq, y: Rq) {
    x.id != y.id && (x.End() <= y.sector || y.End() <= x.sector)
  }

  predicate Plain(write: bool, discard: bool, rq: Rq) {
    rq.write == write && rq.discard == discard && !rq.softBarrier && rq.Sectors() > 0
  }

  /** Served in the order they stand in. */
  ghost predicate OneWay(b: nat, rqs: seq<Rq>) {
    forall i, j | 0 <= i < j < |rqs| :: Before(b, rqs[i].sector, rqs[j].sector)
  }

  /** The first `k` are at or past `b`, the others before it, and the sectors of either part ascend. */
  ghost predicate TwoRuns(b: nat, rqs: seq<Rq>, k: nat) {
    && k <= |rqs|
    && (forall i | 0 <= i < |rqs| :: rqs[i].sector >= b <==> i < k)
    && (forall i, j | 0 <= i < j < k :: rqs[i].sector < rqs[j].sector)
    && (forall i, j | k <= i < j < |rqs| :: rqs[i].sector < rqs[j].sector)
  }

  /** That is what the order comes to. */
  lemma OneWayIs(b: nat, rqs: seq<Rq>)
    ensures OneWay(b, rqs) <==> exists k: nat :: TwoRuns(b, rqs, k)
  {
    if OneWay(b, rqs) {
      var k: nat := 0;
      while k < |rqs| && rqs[k].sector >= b
        invariant k <= |rqs| && forall i | 0 <= i < k :: rqs[i].sector >= b
      {
        k := k + 1;
      }
      forall i | k <= i < |rqs|
        ensures rqs[i].sector < b
      {
        assert i == k || Before(b, rqs[k].sector, rqs[i].sector);
      }
      assert TwoRuns(b, rqs, k);
    }
  }

  ghost predicate AllApart(rqs: seq<Rq>) {
    forall i, j | 0 <= i < j < |rqs| :: Apart(rqs[i], rqs[j])
  }

  ghost predicate AllPlain(write: bool, discard: bool, rqs: seq<Rq>) {
    forall i | 0 <= i < |rqs| :: Plain(write, discard, rqs[i])
  }

  /** The part of the queue the driver has not seen: all of it but a head that was peeked at. */
  function Unseen(s: State): seq<Rq> {
    if s.queue != [] && s.queue[0].started then s.queue[1..] else s.queue
  }

  /** The boundary is the end of the last request peeked at or, until that is peeked at, of one added at the tail. */
  ghost predicate Bounded(s: State) {
    match s.boundary
    case None => s.queue != [] && s.queue[0].started ==> s.endSector == s.queue[0].End()
    case Some(id) => exists i :: 0 <= i < |Unseen(s)| && Unseen(s)[i].id == id && Unseen(s)[i].End() == s.endSector
  }

  ghost predicate Inv(write: bool, discard: bool, s: State) {
    && AllPlain(write, discard, s.queue)
    && (forall i | 0 < i < |s.queue| :: !s.queue[i].started)
    && AllApart(s.queue)
    && OneWay(s.endSector, Unseen(s))
    && Bounded(s)
  }

  lemma InsertInOrder(b: nat, rqs: seq<Rq>, k: nat, rq: Rq)
    requires OneWay(b, rqs) && k <= |rqs|
    requires forall i | 0 <= i < k :: Before(b, rqs[i].sector, rq.sector)
    requires forall i | k <= i < |rqs| :: Before(b, rq.sector, rqs[i].sector)
    ensures OneWay(b, InsertAt(rqs, k, rq))
  {
    hide Before;
    var t := InsertAt(rqs, k, rq);
    forall i, j | 0 <= i < j < |t| ensures Before(b, t[i].sector, t[j].sector) {
    }
  }

  lemma PlaceInOrder(b: nat, rqs: seq<Rq>, rq: Rq)
    requires OneWay(b, rqs) && forall i | 0 <= i < |rqs| :: rqs[i].sector != rq.sector
    requires forall i | 0 <= i < |rqs| :: !Barrier(rqs[i]) && rqs[i].write == rq.write && rqs[i].discard == rq.discard
    ensures OneWay(b, Sorted(b, rqs, rq))
  {
    var k := Place(b, rqs, rq);
    PlaceStops(b, rqs, rq);
    forall i | 0 <= i < k ensures Before(b, rqs[i].sector, rq.sector) {
      assert !Before(b, rq.sector, rqs[k - 1].sector);
      assert i < k - 1 ==> Before(b, rqs[i].sector, rqs[k - 1].sector);
    }
    forall i | k <= i < |rqs| ensures Before(b, rq.sector, rqs[i].sector) {
      assert Passes(b, rq, rqs[i]);
    }
    InsertInOrder(b, rqs, k, rq);
  }

  /** Sorting the part behind a started head is sorting the whole. */
  lemma {:induction false} PlaceBehind(b: nat, head: Rq, rest: seq<Rq>, rq: Rq)
    requires head.started
    ensures Place(b, [head] + rest, rq) == 1 + Place(b, rest, rq)
  {
    var q := [head] + rest;
    if rest == [] {
      assert q[|q| - 1] == head;
    } else {
      assert q[|q| - 1] == rest[|rest| - 1];
      assert q[..|q| - 1] == [head] + rest[..|rest| - 1];
      if Passes(b, rq, rest[|rest| - 1]) {
        PlaceBehind(b, head, rest[..|rest| - 1], rq);
      }
    }
  }

  lemma SortUnseen(s: State, rq: Rq)
    requires !rq.started
    ensures Unseen(s.(queue := Sorted(s.endSector, s.queue, rq))) == Sorted(s.endSector, Unseen(s), rq)
  {
    hide Place;
    if s.queue != [] && s.queue[0].started {
      assert s.queue == [s.queue[0]] + s.queue[1..];
      PlaceBehind(s.endSector, s.queue[0], s.queue[1..], rq);
      var t, u := Sorted(s.endSector, s.queue, rq), Sorted(s.endSector, s.queue[1..], rq);
      assert t[1..] == u;
    }
  }

  lemma InsertApart(queue: seq<Rq>, k: nat, rq: Rq)
    requires k <= |queue| && AllApart(queue) && forall i | 0 <= i < |queue| :: Apart(rq, queue[i])
    ensures AllApart(InsertAt(queue, k, rq))
  {
    var t := InsertAt(queue, k, rq);
    forall i, j | 0 <= i < j < |t| ensures Apart(t[i], t[j]) {
      if i == k {
        assert Apart(rq, queue[j - 1]);
      } else if j == k {
        assert Apart(rq, queue[i]);
      }
    }
  }

  /** The unseen requests can be compared with a new one of the same kind, and none starts where it does. */
  lemma UnseenComparable(write: bool, discard: bool, s: State, rq: Rq)
    requires Inv(write, discard, s) && Plain(write, discard, rq)
    requires forall i | 0 <= i < |s.queue| :: Apart(rq, s.queue[i])
    ensures forall i | 0 <= i < |Unseen(s)| ::
      !Barrier(Unseen(s)[i]) && Unseen(s)[i].write == rq.write && Unseen(s)[i].discard == rq.discard
    ensures forall i | 0 <= i < |Unseen(s)| :: Unseen(s)[i].sector != rq.sector
  {
    hide OneWay, AllApart;
    forall i | 0 <= i < |Unseen(s)|
      ensures !Barrier(Unseen(s)[i]) && Unseen(s)[i].write == rq.write && Unseen(s)[i].discard == rq.discard
      ensures Unseen(s)[i].sector != rq.sector
    {
      var j := if |Unseen(s)| == |s.queue| then i else i + 1;
      assert Unseen(s)[i] == s.queue[j];
      assert Plain(write, discard, s.queue[j]) && Apart(rq, s.queue[j]);
    }
  }

  lemma SortElements(write: bool, discard: bool, s: State, rq: Rq)
    requires Inv(write, discard, s) && Plain(write, discard, rq) && !rq.started
    ensures var t := Sorted(s.endSector, s.queue, rq);
      && AllPlain(write, discard, t)
      && (forall i | 0 < i < |t| :: !t[i].started)
      && (t[0].started ==> s.queue != [] && s.queue[0].started && t[0] == s.queue[0])
  {
    hide Place, OneWay, AllApart;
    var k := Place(s.endSector, s.queue, rq);
    PlaceStops(s.endSector, s.queue, rq);
    var t := InsertAt(s.queue, k, rq);
    forall i | 0 <= i < |t| ensures Plain(write, discard, t[i]) {
      assert i < k ==> Plain(write, discard, s.queue[i]);
      assert i > k ==> Plain(write, discard, s.queue[i - 1]);
    }
    forall i | 0 < i < |t| ensures !t[i].started {
      if k == 0 && s.queue != [] {
        assert Passes(s.endSector, rq, s.queue[0]);
      }
    }
  }

  /** A started head stays the head, and no other becomes one. */
  lemma SortStarted(s: State, rq: Rq)
    requires !rq.started
    ensures var t := Sorted(s.endSector, s.queue, rq);
      t[0].started ==> s.queue != [] && s.queue[0].started && t[0] == s.queue[0]
  {
    hide Place;
    PlaceStops(s.endSector, s.queue, rq);
    var k := Place(s.endSector, s.queue, rq);
    if k == 0 && s.queue != [] {
      assert Passes(s.endSector, rq, s.queue[0]);
    }
  }

  lemma SortBounded(s: State, rq: Rq)
    requires Bounded(s) && !rq.started
    ensures Bounded(s.(queue := Sorted(s.endSector, s.queue, rq)))
  {
    hide Place, Unseen;
    var s', k := s.(queue := Sorted(s.endSector, s.queue, rq)), Place(s.endSector, Unseen(s), rq);
    SortUnseen(s, rq);
    if s.boundary.Some? {
      var i :| 0 <= i < |Unseen(s)| && Unseen(s)[i].id == s.boundary.value && Unseen(s)[i].End() == s.endSector;
      var j := if i < k then i else i + 1;
      assert Unseen(s')[j] == Unseen(s)[i];
    } else {
      SortStarted(s, rq);
    }
  }

  lemma SortKeeps(write: bool, discard: bool, s: State, rq: Rq)
    requires Inv(write, discard, s) && Plain(write, discard, rq) && !rq.started
    requires forall i | 0 <= i < |s.queue| :: Apart(rq, s.queue[i])
    ensures Inv(write, discard, s.(queue := Sorted(s.endSector, s.queue, rq)))
  {
    hide Place, OneWay, AllApart, AllPlain, Unseen, Apart, InsertAt, Bounded;
    SortBounded(s, rq);
    InsertApart(s.queue, Place(s.endSector, s.queue, rq), rq);
    SortElements(write, discard, s, rq);
    SortUnseen(s, rq);
    UnseenComparable(write, discard, s, rq);
    PlaceInOrder(s.endSector, Unseen(s), rq);
  }

  /** Moving the boundary to the end of the head keeps the rest in order. */
  lemma BoundaryMoves(b: nat, rqs: seq<Rq>)
    requires rqs != [] && OneWay(b, rqs) && AllApart(rqs) && forall i | 0 <= i < |rqs| :: rqs[i].Sectors() > 0
    ensures OneWay(rqs[0].End(), rqs[1..])
  {
    var h, t := rqs[0], rqs[1..];
    forall i, j | 0 <= i < j < |t| ensures Before(h.End(), t[i].sector, t[j].sector) {
      assert t[i] == rqs[i + 1] && t[j] == rqs[j + 1];
      assert Before(b, rqs[i + 1].sector, rqs[j + 1].sector);
      assert Before(b, h.sector, rqs[i + 1].sector) && Before(b, h.sector, rqs[j + 1].sector);
      assert Apart(h, rqs[i + 1]) && Apart(h, rqs[j + 1]);
    }
  }

  /** Only peeking at a request that was added at the tail ends its time as a boundary. */
  lemma PeekBounded(s: State)
    requires s.queue != [] && Bounded(s) && AllApart(s.queue)
    ensures Bounded(Peek(s))
    ensures s.boundary.Some? || s.queue[0].started ==> Peek(s).endSector == s.endSector
  {
    var s', h := Peek(s), s.queue[0];
    if s.boundary.Some? {
      var u := Unseen(s);
      var i :| 0 <= i < |u| && u[i].id == s.boundary.value && u[i].End() == s.endSector;
      var k := if h.started then i + 1 else i;
      assert u[i] == s.queue[k];
      if k > 0 {
        assert Apart(s.queue[0], s.queue[k]);
        assert Unseen(s')[k - 1] == s.queue[k];
      }
    }
  }

  lemma PeekApart(s: State)
    requires s.queue != [] && AllApart(s.queue)
    ensures AllApart(Peek(s).queue)
  {
    var t := Peek(s).queue;
    forall i, j | 0 <= i < j < |t| ensures Apart(t[i], t[j]) {
      assert Apart(s.queue[i], s.queue[j]);
    }
  }

  lemma UnseenAfterPeek(s: State)
    requires s.queue != []
    ensures Unseen(Peek(s)) == s.queue[1..]
    ensures s.queue[0].started ==> Unseen(s) == s.queue[1..]
    ensures !s.queue[0].started ==> Unseen(s) == s.queue
  {
  }

  lemma PeekOrder(s: State)
    requires s.queue != [] && OneWay(s.endSector, Unseen(s)) && AllApart(s.queue) && Bounded(s)
    requires forall i | 0 <= i < |s.queue| :: s.queue[i].Sectors() > 0
    ensures OneWay(Peek(s).endSector, Unseen(Peek(s)))
  {
    hide Bounded, Apart, Before, Unseen;
    PeekBounded(s);
    UnseenAfterPeek(s);
    if !s.queue[0].started && s.boundary.None? {
      BoundaryMoves(s.endSector, s.queue);
    }
  }

  lemma PeekElements(write: bool, discard: bool, s: State)
    requires s.queue != [] && AllPlain(write, discard, s.queue) && forall i | 0 < i < |s.queue| :: !s.queue[i].started
    ensures AllPlain(write, discard, Peek(s).queue) && forall i | 0 < i < |Peek(s).queue| :: !Peek(s).queue[i].started
    ensures forall i | 0 <= i < |s.queue| :: s.queue[i].Sectors() > 0
  {
    var t := Peek(s).queue;
    forall i | 0 <= i < |t| ensures Plain(write, discard, t[i]) {
      assert Plain(write, discard, s.queue[i]);
    }
    assert forall i | 0 <= i < |s.queue| :: Plain(write, discard, s.queue[i]) ==> s.queue[i].Sectors() > 0;
  }

  lemma PeekKeeps(write: bool, discard: bool, s: State)
    requires Inv(write, discard, s) && s.queue != []
    ensures Inv(write, discard, Peek(s))
  {
    hide Bounded, Apart, AllApart, AllPlain, OneWay, Unseen;
    PeekBounded(s);
    PeekApart(s);
    PeekElements(write, discard, s);
    PeekOrder(s);
  }

  /** The head is the next in line: no other waiting request is served before it. */
  lemma PeekTakesNext(write: bool, discard: bool, s: State, i: nat)
    requires Inv(write, discard, s) && s.queue != [] && !s.queue[0].started && 0 < i < |s.queue|
    ensures Before(s.endSector, s.queue[0].sector, s.queue[i].sector)
    ensures Peek(s).queue[0].id == s.queue[0].id && (s.boundary.None? ==> Peek(s).endSector == s.queue[0].End())
  {
    assert Unseen(s)[0] == s.queue[0] && Unseen(s)[i] == s.queue[i];
  }

  // ----- adding at the tail ------------------------------------------------

  /** A sector between two boundaries. */
  predicate Between(b: nat, e: nat, x: nat) {
    b <= x < e || e <= x < b
  }

  /** The boundary may move from `b` to `e`: no request starts between them, or all do. */
  ghost predicate MayMove(b: nat, e: nat, rqs: seq<Rq>) {
    || (forall i | 0 <= i < |rqs| :: !Between(b, e, rqs[i].sector))
    || (forall i | 0 <= i < |rqs| :: Between(b, e, rqs[i].sector))
  }

  /** Requests in order for an elevator at `b` are in order for one at `e` exactly then. */
  lemma OrderAtOther(b: nat, e: nat, rqs: seq<Rq>)
    requires OneWay(b, rqs)
    ensures OneWay(e, rqs) <==> MayMove(b, e, rqs)
  {
    if !MayMove(b, e, rqs) {
      var i :| 0 <= i < |rqs| && Between(b, e, rqs[i].sector);
      var j :| 0 <= j < |rqs| && !Between(b, e, rqs[j].sector);
      if i < j {
        assert Before(b, rqs[i].sector, rqs[j].sector) && !Before(e, rqs[i].sector, rqs[j].sector);
      } else {
        assert Before(b, rqs[j].sector, rqs[i].sector) && !Before(e, rqs[j].sector, rqs[i].sector);
      }
    } else {
      forall i, j | 0 <= i < j < |rqs|
        ensures Before(e, rqs[i].sector, rqs[j].sector)
      {
        assert Before(b, rqs[i].sector, rqs[j].sector);
      }
    }
  }

  /** What does not overlap a request is served before it by an elevator that stands at its end. */
  lemma BeforeTail(x: Rq, rq: Rq)
    requires Apart(rq, x) && x.Sectors() > 0 && rq.Sectors() > 0
    ensures Before(rq.End(), x.sector, rq.sector)
  {
  }

  lemma TailOrder(rqs: seq<Rq>, rq: Rq)
    requires rq.Sectors() > 0 && forall i | 0 <= i < |rqs| :: Apart(rq, rqs[i]) && rqs[i].Sectors() > 0
    ensures OneWay(rq.End(), rqs + [rq]) <==> OneWay(rq.End(), rqs)
  {
    hide Before, Apart;
    var t, e := rqs + [rq], rq.End();
    assert forall i | 0 <= i < |rqs| :: t[i] == rqs[i];
    if OneWay(e, rqs) {
      forall i, j | 0 <= i < j < |t|
        ensures Before(e, t[i].sector, t[j].sector)
      {
        if j == |rqs| {
          BeforeTail(rqs[i], rq);
        } else {
          assert Before(e, rqs[i].sector, rqs[j].sector);
        }
      }
    }
    if OneWay(e, t) {
      forall i, j | 0 <= i < j < |rqs|
        ensures Before(e, rqs[i].sector, rqs[j].sector)
      {
        assert Before(e, t[i].sector, t[j].sector);
      }
    }
  }

  /** Everything but the order. */
  lemma TailElements(write: bool, discard: bool, s: State, rq: Rq)
    requires Inv(write, discard, s) && Plain(write, discard, rq) && !rq.started
    requires forall i | 0 <= i < |s.queue| :: Apart(rq, s.queue[i])
    ensures var s' := AddTail(s, rq);
      && Unseen(s') == Unseen(s) + [rq] && Bounded(s') && AllApart(s'.queue) && AllPlain(write, discard, s'.queue)
      && (forall i | 0 < i < |s'.queue| :: !s'.queue[i].started)
      && (forall i | 0 <= i < |Unseen(s)| :: Apart(rq, Unseen(s)[i]) && Unseen(s)[i].Sectors() > 0)
  {
    hide OneWay, Apart;
    var s' := AddTail(s, rq);
    var u := Unseen(s);
    assert Unseen(s') == u + [rq];
    assert Unseen(s')[|u|] == rq;
    assert InsertAt(s.queue, |s.queue|, rq) == s'.queue;
    InsertApart(s.queue, |s.queue|, rq);
    forall i | 0 <= i < |s'.queue|
      ensures Plain(write, discard, s'.queue[i])
    {
      assert i < |s.queue| ==> Plain(write, discard, s.queue[i]);
    }
    forall i | 0 <= i < |u|
      ensures Apart(rq, u[i]) && u[i].Sectors() > 0
    {
      var j := if |u| == |s.queue| then i else i + 1;
      assert u[i] == s.queue[j] && Plain(write, discard, s.queue[j]);
    }
  }

  /**
   * Adding a request at the tail moves the boundary to its end. That keeps the
   * one-way order if and only if no waiting request starts between the old
   * boundary and the new one, or all do.
   */
  lemma AddTailKeeps(write: bool, discard: bool, s: State, rq: Rq)
    requires Inv(write, discard, s) && Plain(write, discard, rq) && !rq.started
    requires forall i | 0 <= i < |s.queue| :: Apart(rq, s.queue[i])
    ensures Inv(write, discard, AddTail(s, rq)) <==> MayMove(s.endSector, rq.End(), Unseen(s))
  {
    hide OneWay, Apart, Bounded, AllApart, AllPlain, MayMove, Unseen;
    TailElements(write, discard, s, rq);
    TailOrder(Unseen(s), rq);
    OrderAtOther(s.endSector, rq.End(), Unseen(s));
  }

  // ----- every run ---------------------------------------------------------

  datatype Op = SortIn(rq: Rq) | TailIn(rq: Rq) | PeekHead | StartHead

  ghost predicate Allowed(write: bool, discard: bool, s: State, op: Op) {
    match op
    case SortIn(rq) =>
      Plain(write, discard, rq) && !rq.started && forall i | 0 <= i < |s.queue| :: Apart(rq, s.queue[i])
    case TailIn(rq) =>
      && Plain(write, discard, rq) && !rq.started && (forall i | 0 <= i < |s.queue| :: Apart(rq, s.queue[i]))
      && MayMove(s.endSector, rq.End(), Unseen(s))
    case PeekHead => s.queue != []
    case StartHead => s.queue != [] && s.queue[0].started
  }

  function Next(s: State, op: Op): State
    requires op.SortIn? || op.TailIn? || s.queue != []
  {
    match op
    case SortIn(rq) => s.(queue := Sorted(s.endSector, s.queue, rq))
    case TailIn(rq) => AddTail(s, rq)
    case PeekHead => Peek(s)
    case StartHead => s.(queue := s.queue[1..])
  }

  ghost predicate CanRun(write: bool, discard: bool, s: State, ops: seq<Op>)
    decreases |ops|
  {
    ops == [] || (Allowed(write, discard, s, ops[0]) && CanRun(write, discard, Next(s, ops[0]), ops[1..]))
  }

  ghost function Run(write: bool, discard: bool, s: State, ops: seq<Op>): State
    requires CanRun(write, discard, s, ops)
    decreases |ops|
  {
    if ops == [] then s else Run(write, discard, Next(s, ops[0]), ops[1..])
  }

  lemma StartKeeps(write: bool, discard: bool, s: State)
    requires Inv(write, discard, s) && s.queue != [] && s.queue[0].started
    ensures Inv(write, discard, Next(s, StartHead))
  {
    var t := s.queue[1..];
    assert forall i | 0 <= i < |t| :: t[i] == s.queue[i + 1];
    assert Unseen(Next(s, StartHead)) == t == Unseen(s);
    forall i, j | 0 <= i < j < |t| ensures Apart(t[i], t[j]) {
      assert Apart(s.queue[i + 1], s.queue[j + 1]);
    }
  }

  lemma {:induction false} AlwaysInv(write: bool, discard: bool, s: State, ops: seq<Op>)
    requires Inv(write, discard, s) && CanRun(write, discard, s, ops)
    ensures Inv(write, discard, Run(write, discard, s, ops))
    decreases |ops|
  {
    hide Inv, Plain, Sorted, Apart, MayMove, Unseen;
    if ops != [] {
      match ops[0] {
        case SortIn(rq) => SortKeeps(write, discard, s, rq);
        case TailIn(rq) => AddTailKeeps(write, discard, s, rq);
        case PeekHead => PeekKeeps(write, discard, s);
        case StartHead => StartKeeps(write, discard, s);
      }
      AlwaysInv(write, discard, Next(s, ops[0]), ops[1..]);
    }
  }

  /**
   * The one-way elevator. In every run with one kind of request that do not
   * overlap, starting with an empty queue and the head anywhere on the disk, the
   * requests the driver has not seen stand in the order in which an elevator at
   * the current boundary serves them. Requests may be added at the tail as well,
   * under the exact condition of AddTailKeeps.
   */
  lemma OneWayElevator(write: bool, discard: bool, start: nat, ops: seq<Op>)
    requires CanRun(write, discard, State([], start, None), ops)
    ensures var s := Run(write, discard, State([], start, None), ops);
      && OneWay(s.endSector, Unseen(s)) && (exists k: nat :: TwoRuns(s.endSector, Unseen(s), k))
      && AllApart(s.queue)
  {
    AlwaysInv(write, discard, State([], start, None), ops);
    var s := Run(write, discard, State([], start, None), ops);
    OneWayIs(s.endSector, Unseen(s));
  }

  // ----- as it is written --------------------------------------------------

  lemma {:induction false} PlacePrefix(b: nat, queue: seq<Rq>, rq: Rq, k: nat)
    requires k <= |queue| && forall i | k <= i < |queue| :: Passes(b, rq, queue[i])
    ensures Place(b, queue, rq) == Place(b, queue[..k], rq)
  {
    if k == |queue| {
      assert queue[..k] == queue;
    } else {
      PlacePrefix(b, queue[..|queue| - 1], rq, k);
      assert queue[..|queue| - 1][..k] == queue[..k];
    }
  }

  class DispatchQueue {
    var queue: seq<Rq>          // queue_head
    var endSector: nat          // end_sector
    var boundary: Option<nat>   // boundary_rq

    function Abs(): State
      reads this
    {
      State(queue, endSector, boundary)
    }

    /** elv_dispatch_sort: from the tail, past what may be passed */
    method DispatchSort(rq: Rq)
      modifies this`queue
      ensures queue == Sorted(endSector, old(queue), rq)
    {
      var k := |queue|;
      while k > 0
        invariant 0 <= k <= |queue| && forall i | k <= i < |queue| :: Passes(endSector, rq, queue[i])
      {
        var pos := queue[k - 1];
        if rq.discard != pos.discard || rq.write != pos.write || pos.softBarrier || pos.started {
          break;
        }
        if rq.sector >= endSector {
          if pos.sector >= endSector && rq.sector >= pos.sector {
            break;
          }
        } else {
          if pos.sector >= endSector || rq.sector >= pos.sector {
            break;
          }
        }
        k := k - 1;
      }
      PlacePrefix(endSector, queue, rq, k);
      assert k > 0 ==> queue[..k][k - 1] == queue[k - 1];
      queue := queue[..k] + [rq] + queue[k..];
    }

    /** elv_dispatch_add_tail, whose effect on the order is that of AddTailKeeps */
    method DispatchAddTail(rq: Rq)
      modifies this
      ensures Abs() == AddTail(old(Abs()), rq)
    {
      endSector := rq.End();
      boundary := Some(rq.id);
      queue := queue + [rq];
    }

    /** blk_peek_request, as far as the queue goes */
    method PeekRequest() returns (rq: Rq)
      requires queue != []
      modifies this
      ensures Abs() == Peek(old(Abs())) && rq == queue[0]
    {
      rq := queue[0];
      if !rq.started {
        rq := rq.(started := true);
      }
      queue := queue[0 := rq];
      if boundary.None? || boundary == Some(rq.id) {
        endSector := rq.End();
        boundary := None;
      }
    }
  }
}
