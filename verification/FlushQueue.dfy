/**
 * blk-flush.c and the request fetching loop of blk.h as they are written: a
 * bit mask of finished stages, one stashed request, one shared flush_rq.
 * Every operation is proved to do what module FlushSpec says.
 */
module FlushQueue {
  import opened Block
  import opened FlushSpec
  import opened FlushSafety

  const FSEQ_STARTED: bv8 := 1

  const FSEQ_PREFLUSH: bv8 := 2

  const FSEQ_DATA: bv8 := 4

  const FSEQ_POSTFLUSH: bv8 := 8

  const FSEQ_DONE: bv8 := 16

  /** Find first zero: the index of the lowest clear bit. */
  function Ffz(x: bv8): (i: nat)
    requires x != 255
    ensures i < 8
  {
    if x & 1 == 0 then 0 else if x & 2 == 0 then 1 else if x & 4 == 0 then 2 else if x & 8 == 0 then 3
    else if x & 16 == 0 then 4 else if x & 32 == 0 then 5 else if x & 64 == 0 then 6 else 7
  }

  function Bit(stage: Stage): bv8 {
    match stage
    case PreFlush => FSEQ_PREFLUSH
    case Data => FSEQ_DATA
    case PostFlush => FSEQ_POSTFLUSH
  }

  /** The stages a mask still has to go through. */
  function TodoOf(mask: bv8): seq<Stage> {
    (if mask & FSEQ_PREFLUSH == 0 then [PreFlush] else []) +
    (if mask & FSEQ_DATA == 0 then [Data] else []) +
    (if mask & FSEQ_POSTFLUSH == 0 then [PostFlush] else [])
  }

  predicate Started(mask: bv8) {
    mask & FSEQ_STARTED != 0 && mask < FSEQ_DONE
  }

  function CurSeqOf(mask: bv8): bv8
    requires mask != 255
  {
    if mask == 0 then 0 else 1 << Ffz(mask)
  }

  /** The current stage is the lowest bit not yet set, and DONE comes after the last one. */
  lemma CurSeqIsNext(mask: bv8)
    requires Started(mask)
    ensures CurSeqOf(mask) == if TodoOf(mask) == [] then FSEQ_DONE else Bit(TodoOf(mask)[0])
  {
  }

  /** Finishing the current stage leaves the others. */
  lemma TodoAfter(mask: bv8)
    requires Started(mask) && TodoOf(mask) != []
    ensures var bit := Bit(TodoOf(mask)[0]);
      mask & bit == 0 && bit < FSEQ_DONE && Started(mask | bit) && TodoOf(mask | bit) == TodoOf(mask)[1..]
  {
  }

  /** The mask of skipped stages leaves exactly the plan. */
  lemma TodoAfterSkip(pre: bool, data: bool, post: bool)
    ensures var skip := (if pre then 0 else FSEQ_PREFLUSH) | (if data then 0 else FSEQ_DATA) |
                        (if post then 0 else FSEQ_POSTFLUSH);
      && FSEQ_STARTED & skip == 0 && Started(FSEQ_STARTED | skip)
      && TodoOf(FSEQ_STARTED | skip) ==
           (if pre then [PreFlush] else []) + (if data then [Data] else []) + (if post then [PostFlush] else [])
  {
  }

  /** What looking at the head hands to the fetching loop, if anything. */
  function Returned(q: Queue): Option<Item>
    requires q.items != [] && q.items[0].Req? && Flagged(q.items[0].rq)
  {
    var rq := q.items[0].rq;
    if Direct(q.caps, rq) then Some(Req(Clean(q.caps, rq)))
    else if q.run.Running? then None
    else if Plan(q.caps, rq) != [] then Some(FlushRq(Plan(q.caps, rq)[0]))
    else if q.pending != [] then Some(Req(q.pending[0]))
    else None
  }

  /** Every flagged request has a stage to go through. */
  ghost predicate NoEmptyPlan(caps: Caps, items: seq<Item>) {
    forall i | 0 <= i < |items| && items[i].Req? && Flagged(items[i].rq) :: Plan(caps, items[i].rq) != []
  }

  lemma RunNothing(w: World)
    ensures CanRun(w, []) && RunAll(w, []) == w
  {
  }

  /** Taking an unflagged request from the elevator. */
  lemma UnflaggedDispatch(caps: Caps, w: World, i: nat)
    requires Enabled(w, Dispatch(i)) && NoEmptyPlan(caps, w.q.items)
    requires forall j | 0 <= j < |w.elevator| :: !Flagged(w.elevator[j])
    ensures NoEmptyPlan(caps, NextQueue(w, Dispatch(i)).items)
    ensures forall j | 0 <= j < |NextElevator(w, Dispatch(i))| :: !Flagged(NextElevator(w, Dispatch(i))[j])
    ensures |NextElevator(w, Dispatch(i))| == |w.elevator| - 1
  {
  }

  /** What a driver understands: a stage, or a request without REQ_FLUSH, and with REQ_FUA only if the device has it. */
  predicate Understood(caps: Caps, item: Item) {
    item.Req? ==> !item.rq.flush && (item.rq.fua ==> caps.fua)
  }

  /** A request that has a stage is made pending, or something fit for the driver takes its place. */
  lemma ExamineOutcome(q: Queue)
    requires q.items != [] && q.items[0].Req? && Flagged(q.items[0].rq) && NoEmptyPlan(q.caps, q.items)
    ensures
      var q', r := FlushSpec.DoFlush(q), Returned(q);
      && NoEmptyPlan(q.caps, q'.items)
      && (r.None? ==> q'.items == q.items[1..])
      && (r.Some? ==> q'.items != [] && q'.items[0] == r.value && Ready(q.caps, r.value) && Understood(q.caps, r.value))
  {
  }

  lemma {:induction false} RunOneMore(w: World, steps: seq<Step>, last: Step)
    requires CanRun(w, steps) && Enabled(RunAll(w, steps), last)
    ensures CanRun(w, steps + [last]) && RunAll(w, steps + [last]) == Apply(RunAll(w, steps), last)
    decreases |steps|
  {
    if steps == [] {
      assert steps + [last] == [last];
    } else {
      assert (steps + [last])[1..] == steps[1..] + [last];
      RunOneMore(Apply(w, steps[0]), steps[1..], last);
    }
  }

  class Sequencer {
    const caps: Caps                 // flush_flags
    var queueHead: seq<Item>
    var pendingFlushes: seq<Rq>
    var flushSeq: bv8
    var flushErr: int
    var origFlushRq: Option<Rq>
    var elevator: seq<Rq>            // requests the I/O scheduler holds
    var ended: seq<Ended>            // requests ended so far

    ghost predicate Valid()
      reads this
    {
      && caps.Valid()
      && (flushSeq == 0 <==> origFlushRq.None?)
      && (flushSeq != 0 ==> Started(flushSeq) && TodoOf(flushSeq) != [])
    }

    function RunOf(): Run
      reads this
    {
      if origFlushRq.None? then Idle else Running(origFlushRq.value, TodoOf(flushSeq), flushErr)
    }

    function Abs(): Queue
      reads this
    {
      Queue(caps, queueHead, pendingFlushes, RunOf(), ended)
    }

    constructor (caps: Caps)
      requires caps.Valid()
      ensures Valid() && Abs() == Init(caps).q && elevator == []
    {
      this.caps := caps;
      queueHead, pendingFlushes, elevator, ended := [], [], [], [];
      flushSeq, flushErr, origFlushRq := 0, 0, None;
    }

    /** blk_flush_cur_seq */
    method CurSeq() returns (bit: bv8)
      requires flushSeq < FSEQ_DONE
      ensures bit == CurSeqOf(flushSeq)
    {
      if flushSeq == 0 {
        return 0;
      }
      return 1 << Ffz(flushSeq);
    }

    /** queue_next_fseq; its default case, a BUG, is never reached */
    method QueueNextFseq() returns (rq: Item)
      requires Valid() && flushSeq != 0
      modifies this`queueHead
      ensures rq == FlushRq(TodoOf(flushSeq)[0])
      ensures queueHead == [rq] + old(queueHead)
    {
      CurSeqIsNext(flushSeq);
      var cur := CurSeq();
      if cur == FSEQ_PREFLUSH {
        rq := FlushRq(PreFlush);
      } else if cur == FSEQ_DATA {
        rq := FlushRq(Data);
      } else {
        assert cur == FSEQ_POSTFLUSH;
        rq := FlushRq(PostFlush);
      }
      queueHead := [rq] + queueHead;
    }

    /**
     * blk_flush_complete_seq: `seq` is the stage that finished, or the mask of
     * all stages a new sequence skips. The first requires is its BUG_ON.
     */
    method CompleteStages(seq_: bv8, error: int) returns (next: Option<Item>)
      requires flushSeq & seq_ == 0
      requires caps.Valid() && Started(flushSeq) && Started(flushSeq | seq_) && origFlushRq.Some?
      modifies this
      ensures Valid() && elevator == old(elevator)
      ensures
        var q := old(Abs());
        var todo := TodoOf(old(flushSeq) | seq_);
        var err := if error != 0 && old(flushErr) == 0 then error else old(flushErr);
        if todo != [] then
          && next == Some(FlushRq(todo[0]))
          && Abs() == q.(items := [FlushRq(todo[0])] + q.items, run := Running(old(origFlushRq).value, todo, err))
        else
          && next == (if q.pending == [] then None else Some(Req(q.pending[0])))
          && Abs() == EndRun(q, old(origFlushRq).value, err)
    {
      if error != 0 && flushErr == 0 {
        flushErr := error;
      }
      flushSeq := flushSeq | seq_;
      next := None;
      CurSeqIsNext(flushSeq);
      var cur := CurSeq();
      if cur != FSEQ_DONE {
        var rq := QueueNextFseq();
        next := Some(rq);
      } else {
        ended := ended + [Ended(origFlushRq.value.id, flushErr)];
        origFlushRq := None;
        flushSeq := 0;
        if pendingFlushes != [] {
          next := Some(Req(pendingFlushes[0]));
          queueHead := [next.value] + queueHead;
          pendingFlushes := pendingFlushes[1..];
        }
      }
    }

    /** pre_flush_end_io, flush_data_end_io and post_flush_end_io */
    method StageEndIo(stage: Stage, error: int) returns (next: Option<Item>)
      requires Valid() && Abs().run.Running? && Abs().run.todo[0] == stage
      modifies this
      ensures Valid() && elevator == old(elevator)
      ensures Abs() == CompleteSeq(old(Abs()), error)
    {
      TodoAfter(flushSeq);
      next := CompleteStages(Bit(stage), error);
    }

    /** The second half of blk_do_flush: no sequence is running, start one for the head. */
    method StartSequence(doPreflush: bool, doPostflush: bool) returns (ret: Option<Item>)
      requires Valid() && queueHead != [] && queueHead[0].Req? && flushSeq == 0
      requires doPreflush == NeedsPreFlush(caps, queueHead[0].rq)
      requires doPostflush == NeedsPostFlush(caps, queueHead[0].rq)
      modifies this
      ensures Valid() && elevator == old(elevator)
      ensures
        var q, rq := old(Abs()), old(queueHead[0].rq);
        var rest, plan := q.(items := q.items[1..]), Plan(caps, rq);
        if plan != [] then
          && ret == Some(FlushRq(plan[0]))
          && Abs() == q.(items := [FlushRq(plan[0])] + q.items[1..], run := Running(Clean(caps, rq), plan, 0))
        else
          && ret == (if q.pending == [] then None else Some(Req(q.pending[0])))
          && Abs() == EndRun(rest, Clean(caps, rq), 0)
    {
      flushErr := 0;
      flushSeq := flushSeq | FSEQ_STARTED;
      var rq := queueHead[0].rq.(flush := false);
      if !caps.fua {
        rq := rq.(fua := false);
      }
      queueHead := queueHead[1..];
      origFlushRq := Some(rq);
      var skip := 0;
      if !doPreflush {
        skip := skip | FSEQ_PREFLUSH;
      }
      if rq.Sectors() == 0 {
        skip := skip | FSEQ_DATA;
      }
      if !doPostflush {
        skip := skip | FSEQ_POSTFLUSH;
      }
      TodoAfterSkip(doPreflush, rq.Sectors() != 0, doPostflush);
      ret := CompleteStages(skip, 0);
    }

    /** blk_do_flush, on the request at the head of the queue */
    method DoFlush() returns (ret: Option<Item>)
      requires Valid() && queueHead != [] && queueHead[0].Req? && Flagged(queueHead[0].rq)
      modifies this
      ensures Valid() && elevator == old(elevator)
      ensures Abs() == FlushSpec.DoFlush(old(Abs()))
      ensures ret == Returned(old(Abs()))
    {
      hide EndRun, Plan, TodoOf, Started;
      var rq := queueHead[0].rq;
      var doPreflush := caps.flush && rq.flush;
      var doPostflush := caps.flush && !caps.fua && rq.fua;
      if rq.Sectors() != 0 && !doPreflush && !doPostflush {
        rq := rq.(flush := false);
        if !caps.fua {
          rq := rq.(fua := false);
        }
        queueHead := [Req(rq)] + queueHead[1..];
        return Some(Req(rq));
      }
      if flushSeq != 0 {
        queueHead := queueHead[1..];
        pendingFlushes := pendingFlushes + [rq];
        return None;
      }
      ret := StartSequence(doPreflush, doPostflush);
    }

    /** elevator_dispatch_fn: hands over any of its requests, or none */
    method ElevatorDispatch(ghost w: World) returns (moved: bool, ghost i: nat)
      requires w.q == Abs() && w.elevator == elevator
      modifies this`queueHead, this`elevator
      ensures !moved ==> queueHead == old(queueHead) && elevator == old(elevator)
      ensures moved ==>
        Enabled(w, Dispatch(i)) && Abs() == NextQueue(w, Dispatch(i)) && elevator == NextElevator(w, Dispatch(i))
    {
      moved, i := false, 0;
      if elevator != [] {
        if * {
          var k :| 0 <= k < |elevator|;
          moved, i := true, k;
          queueHead := queueHead + [Req(elevator[k])];
          elevator := elevator[..k] + elevator[k + 1..];
        }
      }
    }

    /** The queue and the elevator are where the steps lead from `w`, and the device has not noticed. */
    ghost predicate At(w: World, steps: seq<Step>)
      reads this
    {
      && CanRun(w, steps)
      && var w' := RunAll(w, steps);
      && w'.q == Abs() && w'.elevator == elevator
      && w'.driver == w.driver && w'.issued == w.issued && w'.disk == w.disk
    }

    /** The inner loop of __elv_next_request: look at heads until one is fit for the driver. */
    method FirstReady(ghost w: World, ghost before: seq<Step>) returns (rq: Option<Item>, ghost steps: seq<Step>)
      requires Valid() && NoEmptyPlan(caps, queueHead) && At(w, before)
      modifies this
      ensures Valid() && NoEmptyPlan(caps, queueHead) && At(w, steps) && elevator == old(elevator)
      ensures rq.None? ==> queueHead == []
      ensures rq.Some? ==>
        queueHead != [] && rq.value == queueHead[0] && Ready(caps, rq.value) && Understood(caps, rq.value)
    {
      hide TodoOf, Started, FlushSpec.DoFlush, Returned, Plan, CanRun, RunAll, NextHistory;
      steps := before;
      while queueHead != []
        invariant Valid() && NoEmptyPlan(caps, queueHead) && elevator == old(elevator) && At(w, steps)
        decreases |queueHead|
      {
        if queueHead[0].FlushRq? || !Flagged(queueHead[0].rq) {
          return Some(queueHead[0]), steps;
        }
        ExamineOutcome(Abs());
        RunOneMore(w, steps, Examine);
        steps := steps + [Examine];
        var r := DoFlush();
        if r.Some? {
          return r, steps;
        }
      }
      return None, steps;
    }

    /**
     * __elv_next_request. What it returns is the head of the queue and fit for
     * the driver, and the queue has got there by looking at heads and taking
     * requests from the elevator only.
     */
    method NextRequest(ghost w: World) returns (rq: Option<Item>, ghost steps: seq<Step>)
      requires Valid() && NoEmptyPlan(caps, queueHead) && w.q == Abs() && w.elevator == elevator
      requires forall i | 0 <= i < |elevator| :: !Flagged(elevator[i])
      modifies this
      ensures Valid() && At(w, steps)
      ensures rq.None? ==> queueHead == []
      ensures rq.Some? ==>
        queueHead != [] && rq.value == queueHead[0] && Ready(caps, rq.value) && Understood(caps, rq.value)
    {
      hide TodoOf, Started, CanRun, RunAll, Plan;
      RunNothing(w);
      steps := [];
      while true
        invariant Valid() && NoEmptyPlan(caps, queueHead) && At(w, steps)
        invariant forall i | 0 <= i < |elevator| :: !Flagged(elevator[i])
        decreases |elevator|
      {
        rq, steps := FirstReady(w, steps);
        if rq.Some? {
          return;
        }
        var moved, i := ElevatorDispatch(RunAll(w, steps));
        if !moved {
          return;
        }
        UnflaggedDispatch(caps, RunAll(w, steps), i);
        RunOneMore(w, steps, Dispatch(i));
        steps := steps + [Dispatch(i)];
      }
    }
  }

  lemma {:induction false} CapsStay(w: World, steps: seq<Step>)
    requires CanRun(w, steps)
    ensures RunAll(w, steps).q.caps == w.q.caps
    decreases |steps|
  {
    hide NextQueue;
    if steps != [] {
      CapsStay(Apply(w, steps[0]), steps[1..]);
    }
  }

  /** What __elv_next_request expects of the queue and the elevator holds in every run. */
  lemma AlwaysFetchable(caps: Caps, steps: seq<Step>)
    requires caps.Valid() && CanRun(Init(caps), steps)
    ensures var w := RunAll(Init(caps), steps);
      NoEmptyPlan(caps, w.q.items) && forall i | 0 <= i < |w.elevator| :: !Flagged(w.elevator[i])
  {
    InvAlways(Init(caps), steps);
    CapsStay(Init(caps), steps);
    var w := RunAll(Init(caps), steps);
    forall i | 0 <= i < |w.q.items| && w.q.items[i].Req? && Flagged(w.q.items[i].rq)
      ensures Plan(caps, w.q.items[i].rq) != []
    {
      assert Known(w, w.q.items[i].rq);
    }
  }

  /**
   * An empty request that asks for FUA only has no stage to run, and ends on
   * the spot. If another request is pending, blk_do_flush then hands that one
   * to the driver, unsequenced. Exactly then is its result not fit for a driver.
   */
  lemma HandsOutReady(q: Queue)
    requires q.items != [] && q.items[0].Req? && Flagged(q.items[0].rq)
    requires forall i | 0 <= i < |q.pending| :: Sequenced(q.caps, q.pending[i])
    ensures (Returned(q).Some? ==> Ready(q.caps, Returned(q).value))
            <==> !(q.run.Idle? && Plan(q.caps, q.items[0].rq) == [] && q.pending != [])
  {
  }

  /** The queue when the driver has taken the head. */
  function Taken(q: Queue): Queue
    requires q.items != []
  {
    q.(items := q.items[1..])
  }

  const FIRST_WRITE := Rq(1, true, false, true, false, false, false, false, 0, 4096)

  const EMPTY_FUA := Rq(2, true, false, false, true, false, false, false, 0, 0)

  const SECOND_WRITE := Rq(3, true, false, true, false, false, false, false, 8, 4096)

  /**
   * How a queue gets there: two FLUSH writes, and an empty FUA request between
   * them. The first starts its sequence and the others are made pending; when both
   * its stages have completed, the empty request is looked at, and the second write
   * is handed to the driver as it is.
   */
  lemma HandsOutUnready()
    ensures
      var items := [Req(FIRST_WRITE), Req(EMPTY_FUA), Req(SECOND_WRITE)];
      var q1 := FlushSpec.DoFlush(Queue(Caps(true, true), items, [], Idle, []));
      && q1.items == [FlushRq(PreFlush), Req(EMPTY_FUA), Req(SECOND_WRITE)]
      && var q2 := FlushSpec.DoFlush(Taken(q1));
      && q2.items == [Req(SECOND_WRITE)]
      && var q3 := FlushSpec.DoFlush(q2);
      && q3.items == [] && q3.pending == [EMPTY_FUA, SECOND_WRITE] && q3.run.Running? && q3.run.todo == [PreFlush, Data]
      && var q4 := CompleteSeq(q3, 0);
      && q4.items == [FlushRq(Data)] && q4.run.Running? && q4.run.todo == [Data]
      && var q5 := CompleteSeq(Taken(q4), 0);
      && q5.items == [Req(EMPTY_FUA)] && q5.pending == [SECOND_WRITE] && q5.run.Idle?
      && Returned(q5) == Some(Req(SECOND_WRITE)) && !Ready(q5.caps, Req(SECOND_WRITE))
  {
    var caps := Caps(true, true);
    assert Plan(caps, FIRST_WRITE) == [PreFlush, Data] && Plan(caps, EMPTY_FUA) == [];
  }
}
