/**
 * deadline-iosched.c and the parts of elevator.c it uses, as they are written:
 * fields updated step by step, a loop that evicts aliases, a loop that drains.
 * Each method is proved to do what module DeadlineSpec says.
 */
module Deadline {
  import opened Block
  import opened Lists
  import opened DeadlineSpec
  import opened DeadlineSafety

  // ----- searching a list --------------------------------------------------

  /** rb_next */
  method Latter(s: seq<nat>, x: nat) returns (r: Option<nat>)
    ensures r == After(s, x)
  {
    var i := 0;
    while i < |s| && s[i] != x
      invariant i <= |s| && After(s, x) == After(s[i..], x)
      decreases |s| - i
    {
      assert s[i..][1..] == s[i + 1..];
      i := i + 1;
    }
    return if i + 1 < |s| then Some(s[i + 1]) else None;
  }

  /** list_del, rb_erase */
  method Delete(s: seq<nat>, x: nat) returns (r: seq<nat>)
    ensures r == Without(s, x)
  {
    r := [];
    for i := 0 to |s|
      invariant Without(s, x) == r + Without(s[i..], x)
    {
      assert s[i..][1..] == s[i + 1..];
      if s[i] != x {
        assert r + ([s[i]] + Without(s[i + 1..], x)) == r + [s[i]] + Without(s[i + 1..], x);
        r := r + [s[i]];
      }
    }
  }

  /** Past the place where it would be there is no alias. */
  lemma {:induction false} NoAlias(items: map<nat, Item>, s: seq<nat>, sector: nat)
    requires BySector(items, s) && (s != [] ==> sector < Sector(items, s[0]))
    ensures Alias(items, s, sector).None?
  {
    if s != [] {
      assert s[1..] != [] ==> s[1..][0] in s[1..];
      NoAlias(items, s[1..], sector);
    }
  }

  /** elv_rb_add: insert by sector, or find the request that is in the way */
  method RbAdd(items: map<nat, Item>, s: seq<nat>, x: nat) returns (alias: Option<nat>, r: seq<nat>)
    requires BySector(items, s)
    ensures alias == Alias(items, s, Sector(items, x))
    ensures alias.None? ==> r == Insert(items, s, x)
  {
    var i := 0;
    while i < |s| && Sector(items, s[i]) < Sector(items, x)
      invariant i <= |s| && BySector(items, s[i..])
      invariant Alias(items, s, Sector(items, x)) == Alias(items, s[i..], Sector(items, x))
      invariant Insert(items, s, x) == s[..i] + Insert(items, s[i..], x)
      decreases |s| - i
    {
      assert s[i..][1..] == s[i + 1..];
      assert s[..i] + ([s[i]] + Insert(items, s[i + 1..], x)) == s[..i + 1] + Insert(items, s[i + 1..], x);
      i := i + 1;
    }
    if i < |s| && Sector(items, s[i]) == Sector(items, x) {
      return Some(s[i]), s;
    }
    NoAlias(items, s[i..], Sector(items, x));
    assert i < |s| ==> s[i..][0] == s[i];
    assert s[..i] + ([x] + s[i..]) == s[..i] + [x] + s[i..];
    return None, s[..i] + [x] + s[i..];
  }

  // ----- the scheduler -----------------------------------------------------

  lemma MoveCommutes(s: State, x: nat, batching: nat, starved: nat)
    requires x in s.items
    ensures Move(s.(batching := batching, starved := starved), x) ==
            Move(s, x).(batching := batching, starved := starved)
  {
  }

  lemma DispatchNothing(cfg: Settings, s: State, now: nat)
    requires Choose(cfg, s, now).Some? ==> Choose(cfg, s, now).value in s.items
    ensures Choose(cfg, s, now).None? ==> Dispatch(cfg, s, now) == s
  {
  }

  /** Once the alias is gone the place is free. */
  lemma AliasGone(s: State, alias: nat, x: nat)
    requires x in s.items && Near(s, Some(x)) && alias in s.items
    requires alias in SideOf(s, s.items[x].write).sorted && Sector(s.items, alias) == Sector(s.items, x) && alias != x
    ensures s.items[alias].write == s.items[x].write
    ensures Alias(s.items, SideOf(Move(s, alias), s.items[x].write).sorted, Sector(s.items, x)).None?
    ensures BySector(s.items, SideOf(Move(s, alias), s.items[x].write).sorted)
  {
    hide Distinct, BySector, ByAge, Move;
    var w := s.items[x].write;
    MoveOk(s, alias, Some(x));
    var t := SideOf(Move(s, alias), w).sorted;
    AliasIn(s.items, t, Sector(s.items, x));
    if Alias(s.items, t, Sector(s.items, x)).Some? {
      SectorUnique(s.items, SideOf(s, w).sorted, Alias(s.items, t, Sector(s.items, x)).value, alias);
    }
  }

  class Scheduler {
    const cfg: Settings
    var items: map<nat, Item>
    var rd: Side
    var wr: Side
    var batching: nat
    var starved: nat
    var lastSector: nat
    var dispatched: seq<nat>
    var nrSorted: nat

    function Abs(): State
      reads this
    {
      State(items, rd, wr, batching, starved, lastSector, dispatched, nrSorted)
    }

    constructor (cfg: Settings)
      ensures this.cfg == cfg && Abs() == Init() && Inv(cfg, Abs(), 0)
    {
      this.cfg := cfg;
      items, rd, wr := map[], Side([], [], None), Side([], [], None);
      batching, starved, lastSector, dispatched, nrSorted := 0, 0, 0, [], 0;
    }

    /** deadline_remove_request */
    method RemoveRequest(x: nat, w: bool)
      modifies this`rd, this`wr
      ensures Abs() == WithSide(old(Abs()), w, Remove(SideOf(old(Abs()), w), x))
    {
      hide Without, After;
      var d := if w then wr else rd;
      var fifo := Delete(d.fifo, x);
      d := d.(fifo := fifo);
      if d.next == Some(x) {
        var next := Latter(d.sorted, x);
        d := d.(next := next);
      }
      var sorted := Delete(d.sorted, x);
      d := d.(sorted := sorted);
      if w {
        wr := d;
      } else {
        rd := d;
      }
    }

    /** deadline_move_request, with elv_dispatch_add_tail */
    method MoveRequest(x: nat)
      requires x in items && nrSorted > 0
      modifies this
      ensures Abs() == Move(old(Abs()), x)
    {
      hide Remove, After;
      var w := items[x].write;
      rd := rd.(next := None);
      wr := wr.(next := None);
      if w {
        var next := Latter(wr.sorted, x);
        wr := wr.(next := next);
      } else {
        var next := Latter(rd.sorted, x);
        rd := rd.(next := next);
      }
      lastSector := items[x].sector + items[x].sectors;
      RemoveRequest(x, w);
      nrSorted := nrSorted - 1;
      dispatched := dispatched + [x];
    }

    /** deadline_add_rq_rb: its loop runs once for each alias, and there is at most one */
    method AddRqRb(x: nat)
      requires x in items && Near(Abs(), Some(x)) && x !in SideOf(Abs(), items[x].write).sorted
      requires nrSorted >= Waiting(Abs())
      modifies this
      ensures Abs() == AddSorted(old(Abs()), x)
    {
      hide Without, After, Insert, Distinct, ByAge, Remove;
      var w := items[x].write;
      ghost var s0 := Abs();
      AliasIn(items, SideOf(s0, w).sorted, items[x].sector);
      var alias, sorted := RbAdd(items, if w then wr.sorted else rd.sorted, x);
      ghost var first := alias;
      while alias.Some?
        invariant first == Alias(s0.items, SideOf(s0, w).sorted, Sector(s0.items, x))
        invariant Abs() == if first.None? || alias.Some? then s0 else Move(s0, first.value)
        invariant alias.Some? ==> alias == first
        invariant alias.None? ==> sorted == Insert(items, SideOf(Abs(), w).sorted, x)
        invariant first.Some? ==> first.value in s0.items && s0.items[first.value].write == w
        decreases if alias.Some? then 1 else 0
      {
        MoveOk(s0, alias.value, Some(x));
        AliasGone(s0, alias.value, x);
        MoveRequest(alias.value);
        alias, sorted := RbAdd(items, if w then wr.sorted else rd.sorted, x);
      }
      if w {
        wr := wr.(sorted := sorted);
      } else {
        rd := rd.(sorted := sorted);
      }
    }

    /** elv_insert of a new request, and deadline_add_request */
    method AddRequest(x: nat, write: bool, sector: nat, sectors: nat, now: nat)
      requires Inv(cfg, Abs(), now) && x !in items
      modifies this
      ensures Abs() == Add(cfg, old(Abs()), x, write, sector, sectors, now) && Inv(cfg, Abs(), now)
    {
      hide AddSorted, Near, Fresh;
      AddOk(cfg, Abs(), x, write, sector, sectors, now);
      var expire := now + if write then cfg.writeExpire else cfg.readExpire;
      EnterOk(Abs(), x, Item(write, sector, sectors, expire), nrSorted + 1);
      NotWaiting(Abs(), x);
      nrSorted := nrSorted + 1;
      items := items[x := Item(write, sector, sectors, expire)];
      AddRqRb(x);
      if write {
        wr := wr.(fifo := wr.fifo + [x]);
      } else {
        rd := rd.(fifo := rd.fifo + [x]);
      }
    }

    /** deadline_merged_request after a front merge has moved the start of the request */
    method MergedRequest(x: nat, sector: nat, sectors: nat, now: nat)
      requires Inv(cfg, Abs(), now) && Held(Abs(), x)
      modifies this
      ensures Abs() == FrontMerged(old(Abs()), x, sector, sectors) && Inv(cfg, Abs(), now)
    {
      hide AddSorted, SideIs, Fresh, Without, Gone;
      FrontMergedOk(cfg, Abs(), x, sector, sectors, now);
      FrontOutOk(Abs(), x, items[x].(sector := sector, sectors := sectors));
      items := items[x := items[x].(sector := sector, sectors := sectors)];
      if items[x].write {
        var sorted := Delete(wr.sorted, x);
        wr := wr.(sorted := sorted);
      } else {
        var sorted := Delete(rd.sorted, x);
        rd := rd.(sorted := sorted);
      }
      AddRqRb(x);
    }

    /** elv_merge_requests and deadline_merged_requests: `x` takes over `y` */
    method MergedRequests(x: nat, y: nat, sectors: nat, now: nat)
      requires Inv(cfg, Abs(), now) && x != y && Held(Abs(), x) && Held(Abs(), y) && items[x].write == items[y].write
      modifies this
      ensures Abs() == Joined(old(Abs()), x, y, sectors) && Inv(cfg, Abs(), now)
    {
      hide Near, Fresh, Remove, MoveAfter;
      JoinedOk(cfg, Abs(), x, y, sectors, now);
      var w := items[x].write;
      assert nrSorted > 0;
      if items[y].expire < items[x].expire {
        if w {
          wr := wr.(fifo := MoveAfter(wr.fifo, x, y));
        } else {
          rd := rd.(fifo := MoveAfter(rd.fifo, x, y));
        }
        items := items[x := items[x].(expire := items[y].expire)];
      }
      RemoveRequest(y, w);
      items := items[x := items[x].(sectors := sectors)];
      nrSorted := nrSorted - 1;
    }

    /** deadline_dispatch_requests */
    method DispatchRequests(now: nat) returns (sent: bool)
      requires Inv(cfg, Abs(), now)
      modifies this
      ensures Choose(cfg, old(Abs()), now).Some? ==> Choose(cfg, old(Abs()), now).value in old(items)
      ensures Abs() == Dispatch(cfg, old(Abs()), now) && Inv(cfg, Abs(), now)
      ensures sent <==> old(Waiting(Abs())) > 0
    {
      hide SideIs, Gone, Fresh, Move;
      DispatchOk(cfg, Abs(), now);
      ChooseOk(cfg, Abs(), now);
      var haveReads := rd.fifo != [];
      var haveWrites := wr.fifo != [];
      var rq := if wr.next.Some? then wr.next else rd.next;
      if rq.Some? && batching < cfg.fifoBatch {
        MoveCommutes(Abs(), rq.value, batching + 1, starved);
        MoveFields(Abs(), rq.value);
        batching := batching + 1;
        MoveRequest(rq.value);
        return true;
      }
      var w;
      if haveReads {
        w := false;
        if haveWrites {
          w := starved >= cfg.writesStarved;
          starved := if w then 0 else starved + 1;
        }
      } else if haveWrites {
        starved := 0;
        w := true;
      } else {
        return false;
      }
      var d := if w then wr else rd;
      if now > Expire(items, d.fifo[0]) || d.next.None? {
        rq := Some(d.fifo[0]);
      } else {
        rq := d.next;
      }
      MoveCommutes(old(Abs()), rq.value, 1, starved);
      batching := 1;
      MoveRequest(rq.value);
      return true;
    }

    /** elv_drain_elevator */
    method DrainElevator(now: nat)
      requires Inv(cfg, Abs(), now)
      modifies this
      ensures Inv(cfg, Abs(), now) && nrSorted == 0 && Abs() == Drain(cfg, old(Abs()), now)
    {
      hide Near, Fresh, Dispatch, Choose;
      DrainEmpties(cfg, Abs(), now);
      var sent := true;
      while sent
        invariant Inv(cfg, Abs(), now) && Drain(cfg, Abs(), now) == Drain(cfg, old(Abs()), now)
        invariant !sent ==> Drain(cfg, Abs(), now) == Abs()
        decreases Waiting(Abs()), sent
      {
        ChooseOk(cfg, Abs(), now);
        DispatchOk(cfg, Abs(), now);
        DispatchNothing(cfg, Abs(), now);
        sent := DispatchRequests(now);
      }
    }
  }
}
