/**
 * Deadlines and turns of the deadline scheduler, told from what has happened: a
 * request is due when it came plus the time its direction allows, or earlier if
 * it has swallowed an older one; and reads go first until they have done so as
 * often as they may.
 */
module DeadlineTurns {
  import opened Block
  import opened Lists
  import opened Numbers
  import opened DeadlineSpec
  import opened DeadlineSafety
  import opened DeadlineOrder

  // ----- when a request is due ---------------------------------------------

  function NextDue(cfg: Settings, due: map<nat, nat>, op: Op, now: nat): map<nat, nat> {
    match op
    case Arrive(x, write, _, _) => due[x := now + if write then cfg.writeExpire else cfg.readExpire]
    case Join(x, y, _) => if x in due && y in due then due[x := Min(due[x], due[y])] else due
    case _ => due
  }

  ghost predicate DueThen(s: State, due: map<nat, nat>) {
    forall x | x in s.items :: x in due && s.items[x].expire == due[x]
  }

  /** Only arrivals and joins change a deadline. */
  lemma SameItems(cfg: Settings, s: State, op: Op, now: nat)
    requires Allowed(cfg, s, op, now) && !op.Join?
    ensures var s' := Next(cfg, s, op, now);
      && (op.Arrive? ==> s'.items.Keys == s.items.Keys + {op.x})
      && (!op.Arrive? ==> s'.items.Keys == s.items.Keys)
      && forall x | x in s.items && (op.Arrive? ==> x != op.x) :: s'.items[x].expire == s.items[x].expire
  {
    hide Alias, Insert, Remove, Choose, After;
    if op.DispatchOne? {
      assert Next(cfg, s, op, now).items == s.items;
    }
  }

  lemma ArriveDue(cfg: Settings, s: State, op: Op, now: nat)
    requires Allowed(cfg, s, op, now) && op.Arrive?
    ensures var s' := Next(cfg, s, op, now);
      op.x in s'.items && s'.items[op.x].expire == now + if op.write then cfg.writeExpire else cfg.readExpire
  {
    hide Alias, Insert, Remove, After;
  }

  lemma NextDueThen(cfg: Settings, s: State, due: map<nat, nat>, op: Op, now: nat)
    requires Allowed(cfg, s, op, now) && DueThen(s, due)
    ensures DueThen(Next(cfg, s, op, now), NextDue(cfg, due, op, now))
  {
    if !op.Join? {
      SameItems(cfg, s, op, now);
      if op.Arrive? {
        ArriveDue(cfg, s, op, now);
      }
      hide Next;
    }
  }

  // ----- whose turn it is --------------------------------------------------

  ghost predicate Waits(s: State, write: bool) {
    exists x :: Held(s, x) && s.items[x].write == write
  }

  /** A call that does not go on with a batch begins one, if anything waits. */
  predicate Begins(cfg: Settings, s: State, op: Op) {
    op.DispatchOne? && Continued(cfg, s).None?
  }

  /** The direction of what a step has dispatched last. */
  predicate TookWrite(s': State) {
    s'.dispatched != [] &&
    var c := s'.dispatched[|s'.dispatched| - 1];
    c in s'.items && s'.items[c].write
  }

  /** How often a batch of reads has begun while writes waited, since the last batch of writes. */
  ghost function NextPassed(cfg: Settings, n: nat, s: State, op: Op, s': State): nat {
    if !Begins(cfg, s, op) || |s'.dispatched| <= |s.dispatched| then n
    else if TookWrite(s') then 0
    else if Waits(s, true) then n + 1
    else n
  }

  lemma WaitsIs(s: State, w: bool)
    requires Near(s, None)
    ensures Waits(s, w) <==> SideOf(s, w).fifo != []
  {
    hide Distinct, BySector, ByAge, Gone;
    assert SideIs(s.items, SideOf(s, w), w, None);
    if SideOf(s, w).fifo != [] {
      var x := SideOf(s, w).fifo[0];
      assert x in SideOf(s, w).fifo && Held(s, x);
    }
  }

  lemma MoveStarved(s: State, x: nat)
    requires x in s.items
    ensures Move(s, x).starved == s.starved
  {
  }

  /** A new batch: which direction it has, and how the count goes on. */
  lemma BatchTurn(cfg: Settings, s: State, now: nat)
    requires Near(s, None) && Continued(cfg, s).None? && Choose(cfg, s, now).Some?
    ensures Choose(cfg, s, now).value in s.items
    ensures var c, s' := Choose(cfg, s, now).value, Dispatch(cfg, s, now);
      && s'.dispatched == s.dispatched + [c] && s'.items == s.items
      && (s.items[c].write <==> Waits(s, true) && (!Waits(s, false) || s.starved >= cfg.writesStarved))
      && s'.starved == (if s.items[c].write then 0 else if Waits(s, true) then s.starved + 1 else s.starved)
  {
    hide Distinct, BySector, ByAge, Gone, Move, Continued, Waits;
    ChooseOk(cfg, s, now);
    var c := Choose(cfg, s, now).value;
    MoveIs(s, c);
    MoveStarved(s, c);
    WaitsIs(s, true);
    WaitsIs(s, false);
    var w := TakeWrites(cfg, s);
    assert SideIs(s.items, SideOf(s, w), w, None) && SideIs(s.items, SideOf(s, !w), !w, None);
    assert SideOf(s, w).fifo != [] ==> SideOf(s, w).fifo[0] in SideOf(s, w).fifo;
  }

  lemma StarvedStays(cfg: Settings, s: State, op: Op, now: nat)
    requires Allowed(cfg, s, op, now) && !op.DispatchOne?
    ensures Next(cfg, s, op, now).starved == s.starved
  {
    hide Alias, Insert, After, Without;
  }

  lemma NextStarved(cfg: Settings, s: State, op: Op, now: nat)
    requires Inv(cfg, s, now) && Allowed(cfg, s, op, now)
    ensures Next(cfg, s, op, now).starved == NextPassed(cfg, s.starved, s, op, Next(cfg, s, op, now))
  {
    hide Near, Fresh, Choose, Waits;
    if op.DispatchOne? {
      ChooseOk(cfg, s, now);
      if Choose(cfg, s, now).Some? {
        MoveStarved(s, Choose(cfg, s, now).value);
        if Continued(cfg, s).None? {
          BatchTurn(cfg, s, now);
        }
      }
    } else {
      hide Move;
      StarvedStays(cfg, s, op, now);
    }
  }

  // ----- every run ---------------------------------------------------------

  /** What has happened in a run: deadlines and turns. */
  datatype Past = Past(due: map<nat, nat>, passed: nat)

  ghost function PastOf(cfg: Settings, s: State, p: Past, now: nat, calls: seq<Call>): Past
    requires CanRun(cfg, s, now, calls)
    decreases |calls|
  {
    if calls == [] then p
    else
      var op, t := calls[0].op, calls[0].now;
      var s' := Next(cfg, s, op, t);
      PastOf(cfg, s', Past(NextDue(cfg, p.due, op, t), NextPassed(cfg, p.passed, s, op, s')), t, calls[1..])
  }

  lemma {:induction false} RunPast(cfg: Settings, s: State, p: Past, now: nat, calls: seq<Call>)
    requires Inv(cfg, s, now) && CanRun(cfg, s, now, calls) && DueThen(s, p.due) && s.starved == p.passed
    ensures var s', p' := Run(cfg, s, now, calls), PastOf(cfg, s, p, now, calls);
      Inv(cfg, s', TimeAfter(now, calls)) && DueThen(s', p'.due) && s'.starved == p'.passed
    decreases |calls|
  {
    hide Inv, DueThen, Next, Allowed, NextDue, NextPassed;
    if calls != [] {
      var op, t := calls[0].op, calls[0].now;
      InvLater(cfg, s, now, t);
      NextOk(cfg, s, op, t);
      NextDueThen(cfg, s, p.due, op, t);
      NextStarved(cfg, s, op, t);
      var s' := Next(cfg, s, op, t);
      RunPast(cfg, s', Past(NextDue(cfg, p.due, op, t), NextPassed(cfg, p.passed, s, op, s')), t, calls[1..]);
    }
  }

  const NOTHING := Past(map[], 0)

  /** After every run a request is due at the earliest of the times of those that have become part of it. */
  lemma DueAsPromised(cfg: Settings, calls: seq<Call>, x: nat)
    requires CanRun(cfg, Init(), 0, calls) && Held(Run(cfg, Init(), 0, calls), x)
    ensures var due := PastOf(cfg, Init(), NOTHING, 0, calls).due;
      x in due && Run(cfg, Init(), 0, calls).items[x].expire == due[x]
  {
    hide CanRun, Run, PastOf;
    InitInOrder(cfg);
    RunPast(cfg, Init(), NOTHING, 0, calls);
  }

  /**
   * After every run, a call that begins a batch takes a write if and only if one
   * waits and either no read does or reads have gone first writes_starved times.
   */
  lemma ReadsGoFirst(cfg: Settings, calls: seq<Call>, now: nat)
    requires CanRun(cfg, Init(), 0, calls) && TimeAfter(0, calls) <= now
    requires var s := Run(cfg, Init(), 0, calls); Continued(cfg, s).None? && Waiting(s) > 0
    ensures var s := Run(cfg, Init(), 0, calls);
      var c := Choose(cfg, s, now);
      && c.Some? && c.value in s.items
      && (s.items[c.value].write <==>
            Waits(s, true) && (!Waits(s, false) || PastOf(cfg, Init(), NOTHING, 0, calls).passed >= cfg.writesStarved))
  {
    hide CanRun, Run, PastOf, Choose, Waits, Waiting, Continued;
    InitInOrder(cfg);
    RunPast(cfg, Init(), NOTHING, 0, calls);
    var s := Run(cfg, Init(), 0, calls);
    ChooseOk(cfg, s, now);
    BatchTurn(cfg, s, now);
  }
}
