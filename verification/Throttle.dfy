/**
 * The dispatcher of blk-throttle.c: groups with queued bios on a service tree
 * ordered by dispatch time, a cached leftmost node, and counters. Every method
 * keeps the counters, the tree and the rate accounts right.
 */
module Throttle {
  import opened Block
  import opened Lists
  import opened Numbers
  import opened ThrottleRate

  // A queued bio.
  datatype QBio = QBio(id: nat, size: nat)

  // One direction of a group: its bio list, nr_queued, and its account.
  datatype Lane = Lane(bios: seq<QBio>, nr: nat, m: Meter, lim: Limit)

  datatype Group = Group(rd: Lane, wr: Lane, disptime: nat, onTree: bool)

  // A bio that was let through, and where it came from.
  datatype Sent = Sent(group: nat, write: bool, bio: QBio)

  function LaneOf(g: Group, write: bool): Lane {
    if write then g.wr else g.rd
  }

  function WithLane(g: Group, write: bool, l: Lane): Group {
    if write then g.(wr := l) else g.(rd := l)
  }

  predicate Busy(g: Group) {
    g.rd.bios != [] || g.wr.bios != []
  }

  ghost predicate LaneOk(c: Clock, l: Lane, now: nat) {
    l.nr == |l.bios| && l.lim.Valid() && MeterOk(c, l.lim, l.m, now)
  }

  ghost predicate GroupOk(c: Clock, g: Group, now: nat) {
    LaneOk(c, g.rd, now) && LaneOk(c, g.wr, now)
  }

  // ----- lanes -------------------------------------------------------------

  /** tg_may_dispatch for the first bio of a lane */
  function AskLane(c: Clock, l: Lane, now: nat): (Lane, Verdict)
    requires c.Valid() && l.lim.Valid() && l.bios != []
  {
    var (m, v) := Ask(c, l.lim, l.m, now, l.bios[0].size);
    (l.(m := m), v)
  }

  predicate Refused(c: Clock, l: Lane, now: nat)
    requires c.Valid() && l.lim.Valid()
  {
    l.bios != [] && !AskLane(c, l, now).1.ok
  }

  /** tg_dispatch_one_bio, as far as the lane goes */
  function PopLane(c: Clock, l: Lane, now: nat): Lane
    requires c.Valid() && l.bios != [] && l.nr > 0
  {
    var m := Spend(l.m, l.bios[0].size);
    l.(bios := l.bios[1..], nr := l.nr - 1, m := m.(s := Trim(c, l.lim, m.s, now)))
  }

  /** When the first bio of a lane will be asked about again, in ticks from now. */
  function LaneWait(c: Clock, l: Lane, now: nat): Option<nat>
    requires c.Valid() && l.lim.Valid()
  {
    if l.bios == [] then None else Some(AskLane(c, l, now).1.wait)
  }

  function Sooner(a: Option<nat>, b: Option<nat>): (r: Option<nat>)
    ensures r == a || r == b
    ensures forall o | o in {a, b} && o.Some? :: r.Some? && r.value <= o.value
  {
    if a.None? then b else if b.None? || a.value <= b.value then a else b
  }

  lemma RenewedIsCurrent(c: Clock, s: Slice, now: nat)
    requires c.Valid()
    ensures Renewed(c, s, now).start <= now && Renewed(c, s, now).end >= now + c.slice
  {
    RoundUpBounds(now + c.slice, c.slice);
  }

  /** Asking again at once gives the same answer. */
  lemma AskAgain(c: Clock, lim: Limit, m: Meter, now: nat, size: nat)
    requires c.Valid() && lim.Valid() && MeterOk(c, lim, m, now) && !Ask(c, lim, m, now, size).1.ok
    ensures Ask(c, lim, Ask(c, lim, m, now, size).0, now, size).1 == Ask(c, lim, m, now, size).1
  {
    hide Rate, RoundUp, In, MeterOk;
    var s1 := Renewed(c, m.s, now);
    RoundUpBounds(now + c.slice, c.slice);
    RenewedIsCurrent(c, m.s, now);
    var v := Ask(c, lim, m, now, size).1;
    RoundUpBounds(now + v.wait, c.slice);
    var s2 := Wait(c, s1, now, v.wait);
    assert Ask(c, lim, m, now, size).0.s == s2;
    assert s2.start == s1.start && s2.bytes == s1.bytes && s2.ios == s1.ios && s2.end >= s1.end;
    assert Renewed(c, s2, now) == s2;
  }

  lemma AskLaneOk(c: Clock, l: Lane, now: nat)
    requires c.Valid() && LaneOk(c, l, now) && l.bios != []
    ensures var (l', v) := AskLane(c, l, now);
      && LaneOk(c, l', now) && l' == l.(m := l'.m)
      && (v.ok ==> LaneOk(c, PopLane(c, l', now), now) && v.wait == 0)
      && (!v.ok ==> v.wait > 0 && Refused(c, l', now))
  {
    hide MeterOk, Spend, Trim;
    var (l', v) := AskLane(c, l, now);
    AskOk(c, l.lim, l.m, now, l.bios[0].size);
    if v.ok {
      SpendOk(c, l.lim, l'.m, now, l.bios[0].size);
      TrimOk(c, l.lim, Spend(l'.m, l.bios[0].size), now);
    } else {
      AskAgain(c, l.lim, l.m, now, l.bios[0].size);
    }
  }

  // ----- the service tree --------------------------------------------------

  ghost predicate OnTree(gs: seq<Group>, tree: seq<nat>) {
    && (forall k | 0 <= k < |tree| :: tree[k] < |gs| && gs[tree[k]].onTree)
    && (forall i | 0 <= i < |gs| && gs[i].onTree :: i in tree)
  }

  function Key(gs: seq<Group>, i: nat): nat {
    if i < |gs| then gs[i].disptime else 0
  }

  ghost predicate InOrder(gs: seq<Group>, tree: seq<nat>) {
    forall j, k | 0 <= j < k < |tree| :: Key(gs, tree[j]) <= Key(gs, tree[k])
  }

  /** The tree in key order: exactly the groups marked as on it, each once. */
  ghost predicate TreeOk(gs: seq<Group>, tree: seq<nat>) {
    OnTree(gs, tree) && Distinct(tree) && InOrder(gs, tree)
  }

  lemma EraseDistinct(tree: seq<nat>, k: nat)
    requires Distinct(tree) && k < |tree|
    ensures Distinct(tree[..k] + tree[k + 1..]) && tree[k] !in tree[..k] + tree[k + 1..]
  {
    hide Distinct;
    var t := tree[..k] + tree[k + 1..];
    DistinctAt(tree);
    DistinctAt(t);
    assert forall j | 0 <= j < |t| :: t[j] == if j < k then tree[j] else tree[j + 1];
  }

  lemma EraseInOrder(gs: seq<Group>, tree: seq<nat>, k: nat)
    requires InOrder(gs, tree) && k < |tree|
    ensures InOrder(gs, tree[..k] + tree[k + 1..])
  {
    var t := tree[..k] + tree[k + 1..];
    assert forall j | 0 <= j < |t| :: t[j] == if j < k then tree[j] else tree[j + 1];
  }

  lemma SameKeys(gs: seq<Group>, gs': seq<Group>, tree: seq<nat>)
    requires InOrder(gs, tree) && forall i | i in tree :: Key(gs, i) == Key(gs', i)
    ensures InOrder(gs', tree)
  {
    forall j, k | 0 <= j < k < |tree| ensures Key(gs', tree[j]) <= Key(gs', tree[k]) {
      assert Key(gs, tree[j]) <= Key(gs, tree[k]);
    }
  }

  lemma TreeErase(gs: seq<Group>, tree: seq<nat>, k: nat)
    requires TreeOk(gs, tree) && k < |tree|
    ensures TreeOk(gs[tree[k] := gs[tree[k]].(onTree := false)], tree[..k] + tree[k + 1..])
    ensures tree[k] !in tree[..k] + tree[k + 1..]
  {
    hide InOrder, Distinct;
    var i, t := tree[k], tree[..k] + tree[k + 1..];
    var gs' := gs[i := gs[i].(onTree := false)];
    EraseDistinct(tree, k);
    EraseInOrder(gs, tree, k);
    SameKeys(gs, gs', t);
    assert tree == tree[..k] + [i] + tree[k + 1..];
    assert forall x :: x in tree <==> x in t || x == i;
  }

  lemma InsertDistinct(tree: seq<nat>, i: nat, k: nat)
    requires Distinct(tree) && i !in tree && k <= |tree|
    ensures Distinct(tree[..k] + [i] + tree[k..])
  {
    hide Distinct;
    var t := tree[..k] + [i] + tree[k..];
    DistinctAt(tree);
    DistinctAt(t);
    assert forall j | 0 <= j < |t| :: t[j] == if j < k then tree[j] else if j == k then i else tree[j - 1];
  }

  lemma InsertInOrder(gs: seq<Group>, tree: seq<nat>, i: nat, k: nat)
    requires InOrder(gs, tree) && k <= |tree|
    requires forall j | 0 <= j < k :: Key(gs, tree[j]) <= Key(gs, i)
    requires k < |tree| ==> Key(gs, i) <= Key(gs, tree[k])
    ensures InOrder(gs, tree[..k] + [i] + tree[k..])
  {
    var t := tree[..k] + [i] + tree[k..];
    assert forall j | 0 <= j < |t| :: t[j] == if j < k then tree[j] else if j == k then i else tree[j - 1];
  }

  lemma InsertOnTree(gs: seq<Group>, tree: seq<nat>, i: nat, k: nat)
    requires OnTree(gs, tree) && i < |gs| && k <= |tree|
    ensures OnTree(gs[i := gs[i].(onTree := true)], tree[..k] + [i] + tree[k..])
  {
    var t := tree[..k] + [i] + tree[k..];
    var gs' := gs[i := gs[i].(onTree := true)];
    forall j | 0 <= j < |t| ensures t[j] < |gs'| && gs'[t[j]].onTree {
      assert t[j] == i || t[j] == tree[if j < k then j else j - 1];
    }
    forall x | 0 <= x < |gs'| && gs'[x].onTree ensures x in t {
      if x != i {
        assert x in tree;
        assert x in tree[..k] || x in tree[k..] by {
          assert tree == tree[..k] + tree[k..];
        }
      }
    }
  }

  lemma OnTreeIn(gs: seq<Group>, tree: seq<nat>, i: nat)
    requires OnTree(gs, tree) && i < |gs|
    ensures gs[i].onTree <==> i in tree
  {
  }

  lemma TreeInsert(gs: seq<Group>, tree: seq<nat>, i: nat, k: nat)
    requires TreeOk(gs, tree) && i < |gs| && !gs[i].onTree && k <= |tree|
    requires forall j | 0 <= j < k :: Key(gs, tree[j]) <= Key(gs, i)
    requires k < |tree| ==> Key(gs, i) <= Key(gs, tree[k])
    ensures TreeOk(gs[i := gs[i].(onTree := true)], tree[..k] + [i] + tree[k..])
  {
    hide InOrder, Distinct, OnTree;
    OnTreeIn(gs, tree, i);
    InsertDistinct(tree, i, k);
    InsertInOrder(gs, tree, i, k);
    InsertOnTree(gs, tree, i, k);
    SameKeys(gs, gs[i := gs[i].(onTree := true)], tree[..k] + [i] + tree[k..]);
  }

  // ----- counters ----------------------------------------------------------

  /** The bios queued in one direction, over all groups. */
  function Sum(gs: seq<Group>, write: bool): nat {
    if gs == [] then 0 else |LaneOf(gs[0], write).bios| + Sum(gs[1..], write)
  }

  lemma {:induction false} SumChange(gs: seq<Group>, i: nat, g: Group, write: bool)
    requires i < |gs|
    ensures Sum(gs[i := g], write) + |LaneOf(gs[i], write).bios| == Sum(gs, write) + |LaneOf(g, write).bios|
    ensures Sum(gs, write) >= |LaneOf(gs[i], write).bios|
  {
    if i > 0 {
      SumChange(gs[1..], i - 1, g, write);
      assert gs[i := g][1..] == gs[1..][i - 1 := g];
    }
  }

  /** How many groups on the tree are due. */
  function Due(gs: seq<Group>, tree: seq<nat>, now: nat): nat {
    if tree == [] then 0
    else Due(gs, tree[1..], now) + if tree[0] < |gs| && gs[tree[0]].disptime <= now then 1 else 0
  }

  lemma {:induction false} DueConcat(gs: seq<Group>, a: seq<nat>, b: seq<nat>, now: nat)
    ensures Due(gs, a + b, now) == Due(gs, a, now) + Due(gs, b, now)
  {
    if a == [] {
      assert a + b == b;
    } else {
      assert (a + b)[1..] == a[1..] + b;
      DueConcat(gs, a[1..], b, now);
    }
  }

  lemma {:induction false} DueChange(gs: seq<Group>, gs': seq<Group>, tree: seq<nat>, now: nat)
    requires |gs| == |gs'| && forall i | i in tree && i < |gs| :: gs[i].disptime == gs'[i].disptime
    ensures Due(gs, tree, now) == Due(gs', tree, now)
  {
    if tree != [] {
      assert forall i | i in tree[1..] :: i in tree;
      DueChange(gs, gs', tree[1..], now);
    }
  }

  // ----- what was let through ----------------------------------------------

  function SentFrom(sent: seq<Sent>, group: nat, write: bool): seq<QBio> {
    if sent == [] then []
    else
      var x := sent[|sent| - 1];
      SentFrom(sent[..|sent| - 1], group, write) + if x.group == group && x.write == write then [x.bio] else []
  }

  lemma SentOne(sent: seq<Sent>, x: Sent, group: nat, write: bool)
    ensures SentFrom(sent + [x], group, write) ==
            SentFrom(sent, group, write) + if x.group == group && x.write == write then [x.bio] else []
  {
    assert (sent + [x])[..|sent|] == sent;
  }

  /** Every lane has sent a prefix of what it held, in order, and keeps the rest. */
  ghost predicate Kept(gs: seq<Group>, sent: seq<Sent>, gs': seq<Group>) {
    |gs| == |gs'| && forall i, w: bool | 0 <= i < |gs| ::
      LaneOf(gs[i], w).bios == SentFrom(sent, i, w) + LaneOf(gs'[i], w).bios
  }

  ghost predicate AllOk(c: Clock, gs: seq<Group>, now: nat) {
    forall i | 0 <= i < |gs| :: GroupOk(c, gs[i], now)
  }

  /** Marking a group changes no count. */
  lemma MarkCounts(c: Clock, gs: seq<Group>, i: nat, on: bool, now: nat)
    requires i < |gs|
    ensures var gs' := gs[i := gs[i].(onTree := on)];
      && Sum(gs', false) == Sum(gs, false) && Sum(gs', true) == Sum(gs, true)
      && (AllOk(c, gs, now) ==> AllOk(c, gs', now))
      && forall t :: Due(gs', t, now) == Due(gs, t, now)
  {
    var gs' := gs[i := gs[i].(onTree := on)];
    SumChange(gs, i, gs'[i], false);
    SumChange(gs, i, gs'[i], true);
    forall t ensures Due(gs', t, now) == Due(gs, t, now) {
      DueChange(gs, gs', t, now);
    }
    assert AllOk(c, gs, now) ==> AllOk(c, gs', now) by {
      hide LaneOk;
    }
  }

  /** Changing a lane moves its bios in and out of the counts, and leaves the tree alone. */
  lemma ChangeLane(c: Clock, gs: seq<Group>, tree: seq<nat>, i: nat, w: bool, l: Lane, now: nat)
    requires i < |gs| && TreeOk(gs, tree) && AllOk(c, gs, now) && LaneOk(c, l, now)
    ensures var gs' := gs[i := WithLane(gs[i], w, l)];
      && TreeOk(gs', tree) && AllOk(c, gs', now)
      && Sum(gs', w) + |LaneOf(gs[i], w).bios| == Sum(gs, w) + |l.bios| && Sum(gs, w) >= |LaneOf(gs[i], w).bios|
      && Sum(gs', !w) == Sum(gs, !w)
      && Due(gs', tree, now) == Due(gs, tree, now)
  {
    hide InOrder, Distinct, LaneOk;
    var gs' := gs[i := WithLane(gs[i], w, l)];
    SumChange(gs, i, gs'[i], w);
    SumChange(gs, i, gs'[i], !w);
    DueChange(gs, gs', tree, now);
    SameKeys(gs, gs', tree);
  }

  lemma DueErase(gs: seq<Group>, t: seq<nat>, k: nat, now: nat)
    requires k < |t|
    ensures Due(gs, t, now) == Due(gs, t[..k] + t[k + 1..], now) + Due(gs, [t[k]], now)
  {
    assert t == t[..k] + ([t[k]] + t[k + 1..]);
    DueConcat(gs, t[..k], [t[k]] + t[k + 1..], now);
    DueConcat(gs, [t[k]], t[k + 1..], now);
    DueConcat(gs, t[..k], t[k + 1..], now);
  }

  lemma DueInsert(gs: seq<Group>, t: seq<nat>, i: nat, k: nat, now: nat)
    requires k <= |t|
    ensures Due(gs, t[..k] + [i] + t[k..], now) == Due(gs, t, now) + Due(gs, [i], now)
  {
    assert t == t[..k] + t[k..];
    DueConcat(gs, t[..k], t[k..], now);
    DueConcat(gs, t[..k], [i], now);
    DueConcat(gs, t[..k] + [i], t[k..], now);
  }

  lemma DueOne(gs: seq<Group>, i: nat, now: nat)
    requires i < |gs|
    ensures Due(gs, [i], now) == if gs[i].disptime <= now then 1 else 0
  {
    assert [i][1..] == [];
  }

  /** Whatever the dispatcher has done, in every valid state each lane has kept its rate. */
  lemma LanesKeepRate(c: Clock, gs: seq<Group>, now: nat, i: nat, w: bool)
    requires AllOk(c, gs, now) && i < |gs|
    ensures
      var l := LaneOf(gs[i], w);
      l.m.ios > 0 ==>
        && (l.lim.bps.Some? || l.lim.iops.Some? ==> l.m.first <= now)
        && (l.lim.bps.Some? ==> l.m.bytes * c.hz <= l.lim.bps.value * (now - l.m.first + c.slice))
        && (l.lim.iops.Some? ==> l.m.ios * c.hz <= l.lim.iops.value * (now - l.m.first + c.slice))
  {
    assert GroupOk(c, gs[i], now);
  }

  lemma {:induction false} SumIdle(gs: seq<Group>, write: bool)
    requires forall i | 0 <= i < |gs| :: !Busy(gs[i])
    ensures Sum(gs, write) == 0
  {
    if gs != [] {
      assert !Busy(gs[0]);
      SumIdle(gs[1..], write);
    }
  }

  /** The totals are zero exactly when no group has anything queued. */
  lemma {:induction false} QueuedMeansBusy(gs: seq<Group>)
    ensures Sum(gs, false) + Sum(gs, true) == 0 <==> forall i | 0 <= i < |gs| :: !Busy(gs[i])
  {
    if gs != [] {
      QueuedMeansBusy(gs[1..]);
      assert forall i | 0 < i < |gs| :: gs[i] == gs[1..][i - 1];
    }
  }

  lemma KeptStart(gs: seq<Group>)
    ensures Kept(gs, [], gs)
  {
    forall i, w: bool | 0 <= i < |gs| ensures LaneOf(gs[i], w).bios == SentFrom([], i, w) + LaneOf(gs[i], w).bios {
    }
  }

  ghost predicate SameBios(gs: seq<Group>, gs': seq<Group>) {
    |gs| == |gs'| && forall i, w: bool | 0 <= i < |gs| :: LaneOf(gs[i], w).bios == LaneOf(gs'[i], w).bios
  }

  lemma MarkKept(gs0: seq<Group>, sent: seq<Sent>, gs: seq<Group>, gs': seq<Group>)
    requires Kept(gs0, sent, gs) && SameBios(gs, gs')
    ensures Kept(gs0, sent, gs')
  {
    hide SentFrom;
  }

  /** The first of the tree has the least key. */
  lemma LeastFirst(gs: seq<Group>, tree: seq<nat>)
    requires TreeOk(gs, tree) && tree != []
    ensures forall i | 0 <= i < |gs| && gs[i].onTree :: gs[tree[0]].disptime <= gs[i].disptime
  {
    forall i | 0 <= i < |gs| && gs[i].onTree ensures gs[tree[0]].disptime <= gs[i].disptime {
      var k :| 0 <= k < |tree| && tree[k] == i;
      assert Key(gs, tree[0]) <= Key(gs, tree[k]);
    }
  }

  // Bios one group may send in a round, and all groups together.
  const GRP_QUANTUM: nat := 8

  const QUANTUM: nat := 32

  /** No lane of the group may send its first bio now. */
  predicate Stalled(c: Clock, g: Group, now: nat)
  {
    && c.Valid() && g.rd.lim.Valid() && g.wr.lim.Valid()
    && (g.rd.bios != [] ==> Refused(c, g.rd, now))
    && (g.wr.bios != [] ==> Refused(c, g.wr, now))
  }

  /** Asking moves no bios. */
  lemma AskKept(gs0: seq<Group>, sent: seq<Sent>, gs: seq<Group>, gs': seq<Group>, i: nat, w: bool)
    requires i < |gs| && Kept(gs0, sent, gs) && |gs'| == |gs|
    requires gs' == gs[i := WithLane(gs[i], w, LaneOf(gs'[i], w))] && LaneOf(gs'[i], w).bios == LaneOf(gs[i], w).bios
    ensures Kept(gs0, sent, gs')
  {
    hide SentFrom;
  }

  lemma PopKept(gs0: seq<Group>, sent: seq<Sent>, gs: seq<Group>, i: nat, w: bool, l: Lane)
    requires i < |gs| && Kept(gs0, sent, gs)
    requires LaneOf(gs[i], w).bios != [] && l.bios == LaneOf(gs[i], w).bios[1..]
    ensures Kept(gs0, sent + [Sent(i, w, LaneOf(gs[i], w).bios[0])], gs[i := WithLane(gs[i], w, l)])
  {
    var x := Sent(i, w, LaneOf(gs[i], w).bios[0]);
    var gs' := gs[i := WithLane(gs[i], w, l)];
    forall j, v: bool | 0 <= j < |gs0|
      ensures LaneOf(gs0[j], v).bios == SentFrom(sent + [x], j, v) + LaneOf(gs'[j], v).bios
    {
      SentOne(sent, x, j, v);
      if j == i && v == w {
        assert LaneOf(gs[i], w).bios == [x.bio] + l.bios;
      }
    }
  }

  class Dispatcher {
    const c: Clock
    var now: nat              // jiffies
    var groups: seq<Group>    // tg_list
    var tree: seq<nat>        // tg_service_tree, in key order
    var left: Option<nat>     // its cached leftmost node
    var count: nat
    var queuedReads: nat      // nr_queued[]
    var queuedWrites: nat

    /** Everything agrees, except that group `x`, being served, may be off the tree with bios queued. */
    ghost predicate ValidBut(x: int)
      reads this
    {
      && c.Valid() && TreeOk(groups, tree) && count == |tree|
      && (left.Some? ==> tree != [] && left.value == tree[0])
      && AllOk(c, groups, now)
      && (forall i | 0 <= i < |groups| && i != x :: groups[i].onTree <==> Busy(groups[i]))
      && queuedReads == Sum(groups, false) && queuedWrites == Sum(groups, true)
    }

    ghost predicate Valid()
      reads this
    {
      ValidBut(-1)
    }

    /** throtl_rb_first */
    method First() returns (tg: Option<nat>)
      requires Valid()
      modifies this`left
      ensures Valid()
      ensures tg == if tree == [] then None else Some(tree[0])
    {
      if count == 0 {
        return None;
      }
      if left.None? {
        left := Some(tree[0]);
      }
      return left;
    }

    /** throtl_dequeue_tg */
    method Dequeue(i: nat)
      requires i < |groups| && ValidBut(i)
      modifies this`groups, this`tree, this`left, this`count
      ensures ValidBut(i) && i !in tree
      ensures groups == old(groups)[i := old(groups)[i].(onTree := false)]
      ensures Due(groups, tree, now) + (if old(groups)[i].onTree && old(groups)[i].disptime <= now then 1 else 0)
              == old(Due(groups, tree, now))
    {
      hide InOrder, Distinct, OnTree, Due, Sum, GroupOk;
      assert OnTree(groups, tree);
      OnTreeIn(groups, tree, i);
      MarkCounts(c, groups, i, false, now);
      DueOne(groups, i, now);
      if groups[i].onTree {
        var k :| 0 <= k < |tree| && tree[k] == i;
        TreeErase(groups, tree, k);
        DueErase(groups, tree, k, now);
        if left == Some(i) {
          left := None;
        }
        tree := tree[..k] + tree[k + 1..];
        count := count - 1;
        groups := groups[i := groups[i].(onTree := false)];
      } else {
        assert groups[i := groups[i].(onTree := false)] == groups;
      }
    }

    /** throtl_enqueue_tg, with the search of tg_service_tree_add: after all groups due no later */
    method Enqueue(i: nat)
      requires i < |groups| && ValidBut(i) && !groups[i].onTree
      modifies this`groups, this`tree, this`left, this`count
      ensures ValidBut(i) && groups == old(groups)[i := old(groups)[i].(onTree := true)]
      ensures Due(groups, tree, now) ==
              old(Due(groups, tree, now)) + if groups[i].disptime <= now then 1 else 0
    {
      hide InOrder, Distinct, OnTree, Due, Sum, GroupOk;
      MarkCounts(c, groups, i, true, now);
      DueOne(groups, i, now);
      var k := 0;
      while k < |tree| && Key(groups, tree[k]) <= groups[i].disptime
        invariant k <= |tree| && forall j | 0 <= j < k :: Key(groups, tree[j]) <= groups[i].disptime
      {
        k := k + 1;
      }
      TreeInsert(groups, tree, i, k);
      DueInsert(groups, tree, i, k, now);
      if k == 0 {
        left := Some(i);
      }
      tree := tree[..k] + [i] + tree[k..];
      count := count + 1;
      groups := groups[i := groups[i].(onTree := true)];
    }

    /** Put a lane back into its group, with the counters kept right. */
    method SetLane(i: nat, w: bool, l: Lane, ghost x: int)
      requires i < |groups| && ValidBut(x) && LaneOk(c, l, now)
      requires i == x || (groups[i].onTree <==> Busy(WithLane(groups[i], w, l)))
      modifies this`groups, this`queuedReads, this`queuedWrites
      ensures ValidBut(x) && groups == old(groups)[i := WithLane(old(groups)[i], w, l)]
      ensures Due(groups, tree, now) == old(Due(groups, tree, now))
      ensures queuedReads + queuedWrites + |LaneOf(old(groups)[i], w).bios| ==
              old(queuedReads + queuedWrites) + |l.bios|
    {
      hide TreeOk, Due, Sum, LaneOk, GroupOk;
      ChangeLane(c, groups, tree, i, w, l, now);
      if w {
        // the BUG_ON of tg_dispatch_one_bio: the total covers every lane
        assert queuedWrites >= |groups[i].wr.bios|;
        queuedWrites := queuedWrites - |groups[i].wr.bios| + |l.bios|;
      } else {
        assert queuedReads >= |groups[i].rd.bios|;
        queuedReads := queuedReads - |groups[i].rd.bios| + |l.bios|;
      }
      groups := groups[i := WithLane(groups[i], w, l)];
    }

    /** tg_may_dispatch for the first queued bio */
    method AskHead(i: nat, w: bool, ghost x: int) returns (v: Verdict)
      requires i < |groups| && ValidBut(x) && LaneOf(groups[i], w).bios != []
      modifies this`groups, this`queuedReads, this`queuedWrites
      ensures ValidBut(x)
      ensures
        var l := old(LaneOf(groups[i], w));
        && c.Valid() && l.lim.Valid()
        && var (l', v') := AskLane(c, l, now);
           && groups == old(groups)[i := WithLane(old(groups)[i], w, l')]
           && LaneOk(c, l', now) && l' == l.(m := l'.m)
           && v == v' && (v.ok ==> LaneOk(c, PopLane(c, l', now), now)) && (!v.ok ==> v.wait > 0 && Refused(c, l', now))
      ensures Due(groups, tree, now) == old(Due(groups, tree, now))
      ensures queuedReads + queuedWrites == old(queuedReads + queuedWrites)
    {
      hide TreeOk, Due, Sum, MeterOk, AskLane, PopLane;
      var l := LaneOf(groups[i], w);
      assert GroupOk(c, groups[i], now);
      AskLaneOk(c, l, now);
      var (l', v') := AskLane(c, l, now);
      SetLane(i, w, l', x);
      v := v';
    }

    /** tg_dispatch_one_bio */
    method DispatchOne(i: nat, w: bool, sent0: seq<Sent>, ghost gs0: seq<Group>) returns (sent: seq<Sent>)
      requires i < |groups| && ValidBut(i) && LaneOf(groups[i], w).bios != []
      requires LaneOf(groups[i], w).nr > 0 && LaneOk(c, PopLane(c, LaneOf(groups[i], w), now), now)
      requires Kept(gs0, sent0, groups)
      modifies this`groups, this`queuedReads, this`queuedWrites
      ensures ValidBut(i) && Kept(gs0, sent, groups)
      ensures groups == old(groups)[i := WithLane(old(groups)[i], w, PopLane(c, old(LaneOf(groups[i], w)), now))]
      ensures sent == sent0 + [Sent(i, w, old(LaneOf(groups[i], w)).bios[0])]
      ensures Due(groups, tree, now) == old(Due(groups, tree, now))
      ensures queuedReads + queuedWrites == old(queuedReads + queuedWrites) - 1
    {
      hide TreeOk, Due, Sum, LaneOk, GroupOk, AllOk, SentFrom;
      var l := LaneOf(groups[i], w);
      sent := sent0 + [Sent(i, w, l.bios[0])];
      PopKept(gs0, sent0, groups, i, w, PopLane(c, l, now));
      SetLane(i, w, PopLane(c, l, now), i);
    }

    /** One of the two loops of throtl_dispatch_tg: let bios of a lane go, at most `max`. */
    method DispatchLane(i: nat, w: bool, max: nat, sent0: seq<Sent>, ghost gs0: seq<Group>)
      returns (n: nat, sent: seq<Sent>)
      requires i < |groups| && ValidBut(i) && Kept(gs0, sent0, groups) && max > 0
      modifies this`groups, this`queuedReads, this`queuedWrites
      ensures ValidBut(i) && Kept(gs0, sent, groups)
      ensures |groups| == |old(groups)|
      ensures groups == old(groups)[i := WithLane(old(groups)[i], w, LaneOf(groups[i], w))]
      ensures n <= max && queuedReads + queuedWrites == old(queuedReads + queuedWrites) - n
      ensures Due(groups, tree, now) == old(Due(groups, tree, now))
      ensures LaneOf(groups[i], w).lim.Valid() && LaneOf(groups[i], w).lim == old(LaneOf(groups[i], w)).lim
      ensures n < max && LaneOf(groups[i], w).bios != [] ==> Refused(c, LaneOf(groups[i], w), now)
      ensures |old(LaneOf(groups[i], w)).bios| == |LaneOf(groups[i], w).bios| + n && |sent| == |sent0| + n
    {
      hide TreeOk, Due, Sum, MeterOk, Kept, AskLane, Refused;
      n, sent := 0, sent0;
      assert GroupOk(c, groups[i], now);
      while LaneOf(groups[i], w).bios != []
        invariant |groups| == |old(groups)| && ValidBut(i) && Kept(gs0, sent, groups) && n < max
        invariant groups == old(groups)[i := WithLane(old(groups)[i], w, LaneOf(groups[i], w))]
        invariant queuedReads + queuedWrites == old(queuedReads + queuedWrites) - n
        invariant Due(groups, tree, now) == old(Due(groups, tree, now))
        invariant LaneOf(groups[i], w).lim.Valid() && LaneOf(groups[i], w).lim == old(LaneOf(groups[i], w)).lim
        invariant |old(LaneOf(groups[i], w)).bios| == |LaneOf(groups[i], w).bios| + n && |sent| == |sent0| + n
        decreases |LaneOf(groups[i], w).bios|
      {
        ghost var gs := groups;
        var v := AskHead(i, w, i);
        AskKept(gs0, sent, gs, groups, i, w);
        if !v.ok {
          return;
        }
        sent := DispatchOne(i, w, sent, gs0);
        n := n + 1;
        if n >= max {
          return;
        }
      }
    }

    /** throtl_dispatch_tg: three quarters reads, one quarter writes */
    method DispatchGroup(i: nat, sent0: seq<Sent>, ghost gs0: seq<Group>) returns (n: nat, sent: seq<Sent>)
      requires i < |groups| && ValidBut(i) && Kept(gs0, sent0, groups) && !groups[i].onTree
      modifies this`groups, this`queuedReads, this`queuedWrites
      ensures ValidBut(i) && Kept(gs0, sent, groups)
      ensures |groups| == |old(groups)| && !groups[i].onTree
      ensures forall j | 0 <= j < |groups| && j != i :: groups[j] == old(groups)[j]
      ensures n <= GRP_QUANTUM && queuedReads + queuedWrites == old(queuedReads + queuedWrites) - n
      ensures Due(groups, tree, now) == old(Due(groups, tree, now))
      ensures n == 0 ==> Stalled(c, groups[i], now)
      ensures |sent| == |sent0| + n
      ensures |old(groups)[i].rd.bios| <= |groups[i].rd.bios| + GRP_QUANTUM * 3 / 4
      ensures |old(groups)[i].wr.bios| <= |groups[i].wr.bios| + (GRP_QUANTUM - GRP_QUANTUM * 3 / 4)
      ensures c.Valid() && groups[i].rd.lim.Valid() && groups[i].wr.lim.Valid()
      ensures |old(groups)[i].rd.bios| < |groups[i].rd.bios| + GRP_QUANTUM * 3 / 4 && groups[i].rd.bios != [] ==>
        Refused(c, groups[i].rd, now)
      ensures
        && |old(groups)[i].wr.bios| < |groups[i].wr.bios| + (GRP_QUANTUM - GRP_QUANTUM * 3 / 4)
        && groups[i].wr.bios != [] ==>
        Refused(c, groups[i].wr, now)
    {
      hide TreeOk, Due, Sum, MeterOk, Kept, Refused;
      var maxReads := GRP_QUANTUM * 3 / 4;
      var nr, nw;
      nr, sent := DispatchLane(i, false, maxReads, sent0, gs0);
      nw, sent := DispatchLane(i, true, GRP_QUANTUM - maxReads, sent, gs0);
      n := nr + nw;
      assert GroupOk(c, groups[i], now);
    }

    /** The first half of tg_update_disptime: how long until one of the lanes may send? */
    method MinWait(i: nat) returns (wait: nat)
      requires i < |groups| && ValidBut(i) && Busy(groups[i])
      modifies this`groups, this`queuedReads, this`queuedWrites
      ensures ValidBut(i) && |groups| == |old(groups)|
      ensures groups[i].onTree == old(groups[i].onTree) && SameBios(old(groups), groups)
      ensures queuedReads + queuedWrites == old(queuedReads + queuedWrites)
      ensures Due(groups, tree, now) == old(Due(groups, tree, now))
      ensures old(Stalled(c, groups[i], now)) ==> wait > 0
      ensures
        var g := old(groups)[i];
        && c.Valid() && g.rd.lim.Valid() && g.wr.lim.Valid()
        && Some(wait) == Sooner(LaneWait(c, g.rd, now), LaneWait(c, g.wr, now))
      ensures forall j | 0 <= j < |groups| :: groups[j].disptime == old(groups)[j].disptime
    {
      hide TreeOk, Due, Sum, MeterOk, AskLane;
      assert GroupOk(c, groups[i], now);
      var w: Option<nat> := None;
      if groups[i].rd.bios != [] {
        var v := AskHead(i, false, i);
        w := Some(v.wait);
      }
      assert GroupOk(c, groups[i], now);
      if groups[i].wr.bios != [] {
        var v := AskHead(i, true, i);
        w := if w.None? || v.wait < w.value then Some(v.wait) else w;
      }
      wait := w.value;
    }

    method SetDisptime(i: nat, disptime: nat)
      requires i < |groups| && ValidBut(i) && !groups[i].onTree && i !in tree
      modifies this`groups
      ensures ValidBut(i) && groups == old(groups)[i := old(groups)[i].(disptime := disptime)]
      ensures Due(groups, tree, now) == old(Due(groups, tree, now))
    {
      hide InOrder, Distinct, Due, Sum, LaneOk;
      var g := groups[i].(disptime := disptime);
      SumChange(groups, i, g, false);
      SumChange(groups, i, g, true);
      DueChange(groups, groups[i := g], tree, now);
      SameKeys(groups, groups[i := g], tree);
      groups := groups[i := g];
    }

    /** tg_update_disptime: the group goes to its place on the tree */
    method UpdateDisptime(i: nat)
      requires i < |groups| && ValidBut(i) && Busy(groups[i])
      modifies this`groups, this`queuedReads, this`queuedWrites, this`tree, this`left, this`count
      ensures Valid() && SameBios(old(groups), groups)
      ensures queuedReads + queuedWrites == old(queuedReads + queuedWrites)
      ensures !old(groups[i].onTree) && old(Stalled(c, groups[i], now)) ==>
        Due(groups, tree, now) == old(Due(groups, tree, now))
      ensures
        var g := old(groups)[i];
        && c.Valid() && g.rd.lim.Valid() && g.wr.lim.Valid()
        && Sooner(LaneWait(c, g.rd, now), LaneWait(c, g.wr, now)) == Some(groups[i].disptime - now)
      ensures forall j | 0 <= j < |groups| && j != i :: groups[j].disptime == old(groups)[j].disptime
    {
      hide TreeOk, Due, Sum, AllOk, Stalled, LaneWait;
      var wait := MinWait(i);
      ghost var gs := groups;
      Dequeue(i);
      SetDisptime(i, now + wait);
      Enqueue(i);
      assert forall w: bool :: LaneOf(groups[i], w).bios == LaneOf(gs[i], w).bios;
      assert LaneOf(old(groups)[i], false).bios == LaneOf(gs[i], false).bios;
      assert LaneOf(old(groups)[i], true).bios == LaneOf(gs[i], true).bios;
    }

    /**
     * throtl_select_dispatch. It comes to an end although time stands still: a
     * round sends a bio, or leaves one group fewer that is due.
     */
    method SelectDispatch() returns (n: nat, sent: seq<Sent>)
      requires Valid()
      modifies this`groups, this`queuedReads, this`queuedWrites, this`tree, this`left, this`count
      ensures Valid() && Kept(old(groups), sent, groups)
      ensures queuedReads + queuedWrites == old(queuedReads + queuedWrites) - n && |sent| == n
      ensures n < QUANTUM ==> forall i | 0 <= i < |groups| && Busy(groups[i]) :: groups[i].disptime > now
    {
      hide InOrder, Distinct, Due, Sum, MeterOk, Stalled, SentFrom;
      n, sent := 0, [];
      KeptStart(groups);
      while true
        invariant Valid() && Kept(old(groups), sent, groups)
        invariant queuedReads + queuedWrites == old(queuedReads + queuedWrites) - n && |sent| == n < QUANTUM
        decreases queuedReads + queuedWrites, Due(groups, tree, now)
      {
        var tg := First();
        if tg.None? {
          return;
        }
        var i := tg.value;
        if now < groups[i].disptime {
          LeastFirst(groups, tree);
          return;
        }
        ghost var gs := groups;
        Dequeue(i);
        MarkKept(old(groups), sent, gs, groups);
        var k;
        k, sent := DispatchGroup(i, sent, old(groups));
        n := n + k;
        assert GroupOk(c, groups[i], now);
        if groups[i].rd.nr > 0 || groups[i].wr.nr > 0 {
          gs := groups;
          UpdateDisptime(i);
          MarkKept(old(groups), sent, gs, groups);
        }
        if n >= QUANTUM {
          return;
        }
      }
    }

    /** A dispatcher for groups that have done nothing yet. */
    constructor (c: Clock, limits: seq<(Limit, Limit)>)
      requires c.Valid() && forall i | 0 <= i < |limits| :: limits[i].0.Valid() && limits[i].1.Valid()
      ensures Valid() && this.c == c && now == 0 && |groups| == |limits|
      ensures forall i | 0 <= i < |groups| ::
        groups[i] == Group(Lane([], 0, FRESH, limits[i].0), Lane([], 0, FRESH, limits[i].1), 0, false)
    {
      this.c := c;
      now, tree, left, count, queuedReads, queuedWrites := 0, [], None, 0, 0, 0;
      groups := seq(|limits|, i requires 0 <= i < |limits| =>
        Group(Lane([], 0, FRESH, limits[i].0), Lane([], 0, FRESH, limits[i].1), 0, false));
      new;
      SumIdle(groups, false);
      SumIdle(groups, true);
    }

    /** Time passes. */
    method Tick(later: nat)
      requires Valid() && now <= later
      modifies this`now
      ensures Valid() && now == later
    {
      hide TreeOk, Sum, MeterOk;
      forall i | 0 <= i < |groups| ensures GroupOk(c, groups[i], later) {
        assert GroupOk(c, groups[i], now);
        MeterLater(c, groups[i].rd.lim, groups[i].rd.m, now, later);
        MeterLater(c, groups[i].wr.lim, groups[i].wr.m, now, later);
      }
      now := later;
    }

    /** blk_throtl_bio, for a bio that has not been throttled yet: it passes, or it is queued last */
    method Submit(i: nat, w: bool, bio: QBio) returns (passed: bool)
      requires Valid() && i < |groups|
      modifies this`groups, this`queuedReads, this`queuedWrites, this`tree, this`left, this`count
      ensures Valid() && |groups| == |old(groups)|
      ensures
        var l := old(LaneOf(groups[i], w));
        && c.Valid() && l.lim.Valid()
        && (passed <==> l.bios == [] && Ask(c, l.lim, l.m, now, bio.size).1.ok)
        && (passed ==> LaneOf(groups[i], w).m == Spend(Ask(c, l.lim, l.m, now, bio.size).0, bio.size))
      ensures passed ==> SameBios(old(groups), groups)
      ensures !passed ==>
        && LaneOf(groups[i], w).bios == old(LaneOf(groups[i], w).bios) + [bio]
        && forall j, v: bool | 0 <= j < |groups| && (j != i || v != w) ::
             LaneOf(groups[j], v).bios == LaneOf(old(groups)[j], v).bios
    {
      hide TreeOk, Sum, MeterOk, Due, Ask, Spend;
      assert GroupOk(c, groups[i], now);
      var l := LaneOf(groups[i], w);
      var update := l.nr == 0;
      if update {
        AskOk(c, l.lim, l.m, now, bio.size);
        var (m, v) := Ask(c, l.lim, l.m, now, bio.size);
        if v.ok {
          SpendOk(c, l.lim, m, now, bio.size);
          SetLane(i, w, l.(m := Spend(m, bio.size)), -1);
          return true;
        }
        l := l.(m := m);
      }
      // throtl_add_bio_tg
      SetLane(i, w, l.(bios := l.bios + [bio], nr := l.nr + 1), i);
      if !groups[i].onTree {
        Enqueue(i);
      }
      if update {
        ghost var gs := groups;
        UpdateDisptime(i);
        assert SameBios(gs, groups);
        assert LaneOf(gs[i], w).bios == LaneOf(groups[i], w).bios;
      }
      return false;
    }

    /**
     * throtl_schedule_next_dispatch: no delay is needed if nothing is queued; its
     * BUG_ON, bios queued but no group on the tree, cannot happen; and the delay
     * is up to the earliest dispatch time of any group with queued bios.
     */
    method NextDelay() returns (delay: Option<nat>)
      requires Valid()
      modifies this`left
      ensures Valid()
      ensures delay.None? <==> forall i | 0 <= i < |groups| :: !Busy(groups[i])
      ensures delay.Some? ==>
        && (exists i :: 0 <= i < |groups| && Busy(groups[i]) && groups[i].disptime <= now + delay.value)
        && (delay.value > 0 ==>
              forall i | 0 <= i < |groups| && Busy(groups[i]) :: now + delay.value <= groups[i].disptime)
    {
      hide InOrder, Distinct, MeterOk, Sum;
      QueuedMeansBusy(groups);
      if queuedReads + queuedWrites == 0 {
        return None;
      }
      var tg := First();
      var i :| 0 <= i < |groups| && Busy(groups[i]);
      assert i in tree;
      LeastFirst(groups, tree);
      var d := groups[tg.value].disptime;
      assert Busy(groups[tg.value]);
      return Some(if d <= now then 0 else d - now);
    }
  }
}
