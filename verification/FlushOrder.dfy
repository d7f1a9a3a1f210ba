/**
 * In which order flush sequences run: first come, first served. A request that
 * was put aside while another sequence ran is the next to get one, before any
 * that has come in meanwhile, and a stage is handed out before anything else.
 */
module FlushOrder {
  import opened Block
  import opened FlushSpec
  import opened FlushSafety

  // ----- what comes next ---------------------------------------------------

  /**
   * The last stage of a sequence completes while requests are pending: the next
   * time the queue is looked at, the first stage of the one that has been pending
   * longest is at its head, before everything that was queued.
   */
  lemma PendingNext(q: Queue, err: int)
    requires q.run.Running? && |q.run.todo| == 1 && q.pending != []
    requires Sequenced(q.caps, q.pending[0]) && Plan(q.caps, q.pending[0]) != []
    ensures var q1, first := CompleteSeq(q, err), q.pending[0];
      && q1.items != [] && q1.items[0] == Req(first) && Flagged(first)
      && DoFlush(q1).items == [FlushRq(Plan(q.caps, first)[0])] + q.items
      && DoFlush(q1).pending == q.pending[1..]
      && DoFlush(q1).run.Running? && DoFlush(q1).run.orig.id == first.id
      && DoFlush(q1).run.todo == Plan(q.caps, first)
  {
    assert q.run.todo[1..] == [];
  }

  /** A stage completes and is not the last: the next one is at the head of the queue. */
  lemma NextStage(q: Queue, err: int)
    requires q.run.Running? && |q.run.todo| > 1
    ensures CompleteSeq(q, err).items == [FlushRq(q.run.todo[1])] + q.items
    ensures CompleteSeq(q, err).pending == q.pending && CompleteSeq(q, err).ended == q.ended
  {
  }

  /**
   * A request that needs no sequence, or the data of one that does: the driver sees
   * the flags the device has, and the rest as asked.
   */
  lemma HandedClean(q: Queue)
    requires q.items != [] && q.items[0].Req? && Flagged(q.items[0].rq)
    ensures var rq, q' := q.items[0].rq, DoFlush(q);
      && (Direct(q.caps, rq) ==>
            && q'.items != [] && q'.items[0].Req? && q'.items[1..] == q.items[1..]
            && var r := q'.items[0].rq;
            && !r.flush && (r.fua <==> rq.fua && q.caps.fua) && r == rq.(flush := r.flush, fua := r.fua))
      && (!Direct(q.caps, rq) && q.run.Idle? && q'.run.Running? ==>
            var r := q'.run.orig;
            && !r.flush && (r.fua <==> rq.fua && q.caps.fua) && r == rq.(flush := r.flush, fua := r.fua))
  {
  }

  /** No stage is run for nothing: a flush only for one who asked, on a device that needs it, and no stage twice. */
  lemma NoWaste(caps: Caps, rq: Rq)
    ensures PreFlush in Plan(caps, rq) ==> rq.flush && caps.flush
    ensures PostFlush in Plan(caps, rq) ==> rq.fua && caps.flush && !caps.fua
    ensures Data in Plan(caps, rq) <==> HasData(rq)
    ensures forall i, j | 0 <= i < j < |Plan(caps, rq)| :: Plan(caps, rq)[i] != Plan(caps, rq)[j]
    ensures Direct(caps, rq) ==> Plan(caps, rq) == [Data]
    ensures !caps.flush ==> !Sequenced(caps, rq) || !HasData(rq)
  {
  }

  // ----- the line ----------------------------------------------------------

  /** The requests of a list that need a sequence. */
  function InLine(caps: Caps, items: seq<Item>): seq<Rq> {
    if items == [] then []
    else (if items[0].Req? && Sequenced(caps, items[0].rq) then [items[0].rq] else []) + InLine(caps, items[1..])
  }

  /** Who waits for a sequence, in the order in which they will get it. */
  function Line(q: Queue): seq<Rq> {
    var queued := InLine(q.caps, q.items);
    if q.run.Running? || queued == [] then q.pending + queued
    else [queued[0]] + q.pending + queued[1..]
  }

  function Ids(rqs: seq<Rq>): seq<nat> {
    seq(|rqs|, i requires 0 <= i < |rqs| => rqs[i].id)
  }

  lemma IdsConcat(a: seq<Rq>, b: seq<Rq>)
    ensures Ids(a + b) == Ids(a) + Ids(b)
  {
  }

  lemma {:induction false} InLineConcat(caps: Caps, a: seq<Item>, b: seq<Item>)
    ensures InLine(caps, a + b) == InLine(caps, a) + InLine(caps, b)
  {
    hide Sequenced;
    if a == [] {
      assert a + b == b;
    } else {
      assert (a + b)[1..] == a[1..] + b;
      InLineConcat(caps, a[1..], b);
    }
  }

  lemma InLineOne(caps: Caps, item: Item)
    ensures InLine(caps, [item]) == if item.Req? && Sequenced(caps, item.rq) then [item.rq] else []
  {
    assert [item][1..] == [];
  }

  // ----- what a run records ------------------------------------------------

  /** The request that joins the dispatch queue at its end and needs a sequence. */
  function Enters(w: World, step: Step): seq<nat> {
    if step.Submit? && step.where == Back && Sequenced(w.q.caps, Admit(w.q.caps, step.rq)) then [step.rq.id] else []
  }

  /** The request that is looked at and needs a sequence. */
  function Looks(w: World, step: Step): seq<nat> {
    if step.Examine? && w.q.items != [] && w.q.items[0].Req? && Sequenced(w.q.caps, w.q.items[0].rq)
    then [w.q.items[0].rq.id] else []
  }

  /** The request whose sequence begins. */
  function Begins(w: World, w': World): seq<nat> {
    if w.q.run.Idle? && w'.q.run.Running? then [w'.q.run.orig.id] else []
  }

  /** Request ids in the order in which they came, were first looked at, and got their sequence. */
  datatype Trace = Trace(entered: seq<nat>, looked: seq<nat>, begun: seq<nat>)

  function Noted(t: Trace, w: World, step: Step): Trace
    requires Enabled(w, step)
  {
    var looks := Looks(w, step);
    Trace(t.entered + Enters(w, step),
          if looks != [] && looks[0] in t.looked then t.looked else t.looked + looks,
          t.begun + Begins(w, Apply(w, step)))
  }

  function TraceOf(t: Trace, w: World, steps: seq<Step>): Trace
    requires CanRun(w, steps)
    decreases |steps|
  {
    if steps == [] then t else TraceOf(Noted(t, w, steps[0]), Apply(w, steps[0]), steps[1..])
  }

  /** Nothing that needs a sequence is put at the head of the queue by those who submit. */
  predicate InTurn(caps: Caps, steps: seq<Step>) {
    forall i | 0 <= i < |steps| && steps[i].Submit? && steps[i].where == Front ::
      !Sequenced(caps, Admit(caps, steps[i].rq))
  }

  // ----- every step keeps the line -----------------------------------------

  lemma HeadInLine(caps: Caps, items: seq<Item>)
    requires items != []
    ensures InLine(caps, items) ==
      (if items[0].Req? && Sequenced(caps, items[0].rq) then [items[0].rq] else []) + InLine(caps, items[1..])
  {
  }

  lemma FrontInLine(caps: Caps, item: Item, items: seq<Item>)
    ensures InLine(caps, [item] + items) ==
      (if item.Req? && Sequenced(caps, item.rq) then [item.rq] else []) + InLine(caps, items)
  {
    assert ([item] + items)[1..] == items;
  }

  lemma BackInLine(caps: Caps, items: seq<Item>, item: Item)
    ensures InLine(caps, items + [item]) ==
      InLine(caps, items) + if item.Req? && Sequenced(caps, item.rq) then [item.rq] else []
  {
    InLineConcat(caps, items, [item]);
    InLineOne(caps, item);
  }

  /** One more at the end of the queue is one more at the end of the line. */
  lemma LineBack(q: Queue, item: Item)
    requires q.run.Idle? && InLine(q.caps, q.items) == [] ==> q.pending == []
    ensures Line(q.(items := q.items + [item])) ==
      Line(q) + if item.Req? && Sequenced(q.caps, item.rq) then [item.rq] else []
  {
    hide InLine, Sequenced;
    BackInLine(q.caps, q.items, item);
  }

  /** When a sequence ends the one pending longest goes to the head of the queue, and is still first in line. */
  lemma LineEnd(q: Queue, err: int)
    requires q.run.Running? && |q.run.todo| == 1
    requires q.pending != [] ==> Sequenced(q.caps, q.pending[0])
    ensures Line(CompleteSeq(q, err)) == Line(q)
  {
    hide InLine, Sequenced;
    assert q.run.todo[1..] == [];
    var queued := InLine(q.caps, q.items);
    if q.pending != [] {
      var first := q.pending[0];
      FrontInLine(q.caps, Req(first), q.items);
      var q' := CompleteSeq(q, err);
      assert InLine(q'.caps, q'.items) == [first] + queued && q'.pending == q.pending[1..];
      assert q.pending + queued == [first] + q.pending[1..] + queued;
    }
  }

  /** Completing a stage leaves the line alone. */
  lemma LineComplete(q: Queue, err: int)
    requires q.run.Running? && q.run.todo != []
    requires forall i | 0 <= i < |q.pending| :: Sequenced(q.caps, q.pending[i])
    ensures Line(CompleteSeq(q, err)) == Line(q)
  {
    hide InLine, Sequenced;
    if |q.run.todo| > 1 {
      FrontInLine(q.caps, FlushRq(q.run.todo[1]), q.items);
    } else {
      LineEnd(q, err);
    }
  }

  /** Looking at a request leaves it alone too, but for the first in line, whose sequence begins if none runs. */
  lemma LineExamine(q: Queue)
    requires q.items != [] && q.items[0].Req? && Flagged(q.items[0].rq)
    requires Sequenced(q.caps, q.items[0].rq) ==> Plan(q.caps, q.items[0].rq) != []
    ensures var q' := DoFlush(q);
      if Sequenced(q.caps, q.items[0].rq) && q.run.Idle?
      then Line(q) == [q.items[0].rq] + Line(q') && q'.run.Running? && q'.run.orig.id == q.items[0].rq.id
      else Line(q') == Line(q) && q'.run == q.run
  {
    hide InLine, Plan;
    HeadInLine(q.caps, q.items);
    var rq, rest := q.items[0].rq, q.items[1..];
    if Direct(q.caps, rq) {
      FrontInLine(q.caps, Req(Clean(q.caps, rq)), rest);
    } else if q.run.Idle? {
      FrontInLine(q.caps, FlushRq(Plan(q.caps, rq)[0]), rest);
    }
  }

  /** One that needs no sequence, in front of the others or gone from there, is not in line. */
  lemma LineFront(q: Queue, item: Item)
    requires !(item.Req? && Sequenced(q.caps, item.rq))
    ensures Line(q.(items := [item] + q.items)) == Line(q)
  {
    hide InLine, Sequenced;
    FrontInLine(q.caps, item, q.items);
  }

  lemma LineIssue(q: Queue)
    requires q.items != [] && Ready(q.caps, q.items[0])
    ensures Line(q.(items := q.items[1..])) == Line(q)
  {
    hide InLine, Sequenced;
    HeadInLine(q.caps, q.items);
  }

  lemma {:induction false} StarterInLine(caps: Caps, items: seq<Item>, i: nat)
    requires i < |items| && items[i].Req? && Sequenced(caps, items[i].rq)
    ensures InLine(caps, items) != []
  {
    hide Sequenced;
    if i > 0 {
      StarterInLine(caps, items[1..], i - 1);
    }
  }

  /** Without a running sequence and anyone in the queue to start one, nobody is pending. */
  lemma NobodyPending(w: World)
    requires NoneStuck(w)
    ensures w.q.run.Idle? && InLine(w.q.caps, w.q.items) == [] ==> w.q.pending == []
  {
    hide InLine, Sequenced;
    if w.q.run.Idle? && w.q.pending != [] {
      var i :| 0 <= i < |w.q.items| && w.q.items[i].Req? && Sequenced(w.q.caps, w.q.items[i].rq);
      StarterInLine(w.q.caps, w.q.items, i);
    }
  }

  lemma PlanOfKnown(w: World)
    requires AllKnown(w) && w.q.items != [] && w.q.items[0].Req? && Sequenced(w.q.caps, w.q.items[0].rq)
    ensures Plan(w.q.caps, w.q.items[0].rq) != []
  {
    assert Known(w, w.q.items[0].rq);
  }

  /** Those in line only move up, and whoever comes goes to its end. */
  ghost predicate Orderly(w: World, step: Step)
    requires Enabled(w, step)
  {
    Ids(Line(w.q)) + Enters(w, step) == Begins(w, Apply(w, step)) + Ids(Line(Apply(w, step).q))
  }

  lemma Unmoved(w: World, step: Step)
    requires Enabled(w, step) && NextQueue(w, step).run == w.q.run && Line(NextQueue(w, step)) == Line(w.q)
    requires Enters(w, step) == []
    ensures Orderly(w, step)
  {
    hide Line, NextQueue;
  }

  lemma NotFlagged(caps: Caps, rq: Rq)
    ensures !Flagged(rq) ==> !Sequenced(caps, rq)
  {
  }

  lemma SameLine(q: Queue, q': Queue)
    requires q.caps == q'.caps && q.items == q'.items && q.pending == q'.pending && q.run == q'.run
    ensures Line(q) == Line(q')
  {
  }

  lemma SubmitOrderly(w: World, step: Step)
    requires Enabled(w, step) && NoneStuck(w) && step.Submit? && InTurn(w.q.caps, [step])
    ensures Orderly(w, step)
  {
    hide Line, Sequenced, NoneStuck;
    assert [step][0] == step;
    var rq := Admit(w.q.caps, step.rq);
    if EndsAtOnce(w.q.caps, step.rq) {
      assert !Sequenced(w.q.caps, rq) by {
        NotFlagged(w.q.caps, rq);
      }
      SameLine(w.q, NextQueue(w, step));
      Unmoved(w, step);
    } else if step.where == Front {
      LineFront(w.q, Req(rq));
      Unmoved(w, step);
    } else if step.where == Back {
      NobodyPending(w);
      LineBack(w.q, Req(rq));
      IdsConcat(Line(w.q), if Sequenced(w.q.caps, rq) then [rq] else []);
    } else {
      Unmoved(w, step);
    }
  }

  lemma ExamineOrderly(w: World)
    requires Enabled(w, Examine) && AllKnown(w)
    ensures Orderly(w, Examine)
    ensures Begins(w, Apply(w, Examine)) == if w.q.run.Idle? then Looks(w, Examine) else []
  {
    hide Line, Sequenced, AllKnown, DoFlush, Plan;
    var rq := w.q.items[0].rq;
    if Sequenced(w.q.caps, rq) {
      PlanOfKnown(w);
    }
    LineExamine(w.q);
    IdsConcat([rq], Line(Apply(w, Examine).q));
  }

  lemma CompleteOrderly(w: World, step: Step)
    requires Enabled(w, step) && Sorted(w) && step.CompleteFlush?
    ensures Orderly(w, step)
  {
    hide Line, Sequenced;
    LineComplete(w.q, step.err);
  }

  lemma DispatchOrderly(w: World, step: Step)
    requires Enabled(w, step) && Sorted(w) && NoneStuck(w) && step.Dispatch?
    ensures Orderly(w, step)
  {
    hide Line, Sequenced;
    NobodyPending(w);
    LineBack(w.q, Req(w.elevator[step.i]));
    NotFlagged(w.q.caps, w.elevator[step.i]);
    Unmoved(w, step);
  }

  lemma OtherOrderly(w: World, step: Step)
    requires Enabled(w, step) && Sorted(w)
    requires step.Issue? || step.Requeue? || step.RequeueFlush? || step.Complete? || step.Writeback?
    ensures Orderly(w, step)
  {
    hide Line, Sequenced;
    match step
    case Issue =>
      LineIssue(w.q);
      Unmoved(w, step);
    case Requeue(id) =>
      LineFront(w.q, Req(w.driver[id]));
      Unmoved(w, step);
    case RequeueFlush =>
      LineFront(w.q, FlushRq(w.q.run.todo[0]));
      Unmoved(w, step);
    case Complete(id, err) =>
      SameLine(w.q, NextQueue(w, step));
      Unmoved(w, step);
    case Writeback(_) =>
      Unmoved(w, step);
  }

  lemma StepOrderly(w: World, step: Step)
    requires Structure(w) && Enabled(w, step) && InTurn(w.q.caps, [step])
    ensures Orderly(w, step)
  {
    hide Orderly, Enabled, InTurn, Conserved, AllKnown, Sorted, OneStage, NoneStuck;
    match step
    case Submit(_, _) => SubmitOrderly(w, step);
    case Dispatch(_) => DispatchOrderly(w, step);
    case Examine => ExamineOrderly(w);
    case CompleteFlush(_) => CompleteOrderly(w, step);
    case _ => OtherOrderly(w, step);
  }

  // ----- every run ---------------------------------------------------------

  ghost predicate NoRepeat(ids: seq<nat>) {
    forall i, j | 0 <= i < j < |ids| :: ids[i] != ids[j]
  }

  /** How many have been looked at and wait to begin: those pending, and one that was moved back to the queue. */
  predicate Lookers(q: Queue, n: nat) {
    if q.run.Running? then n == |q.pending| else n == |q.pending| + 1 || (n == 0 && q.pending == [])
  }

  /** Who came has begun or is in line, and those looked at are the first of them. */
  ghost predicate Told(w: World, t: Trace) {
    && t.entered == t.begun + Ids(Line(w.q))
    && |t.begun| <= |t.looked| <= |t.entered| && t.looked == t.entered[..|t.looked|]
    && Lookers(w.q, |t.looked| - |t.begun|)
    && NoRepeat(t.entered) && forall id | id in t.entered :: id in w.hist.asked
  }

  lemma EntersNew(w: World, t: Trace, step: Step)
    requires Told(w, t) && Enabled(w, step)
    ensures NoRepeat(t.entered + Enters(w, step))
    ensures forall id | id in t.entered + Enters(w, step) :: id in Apply(w, step).hist.asked
  {
    hide Line, NextQueue, Lookers;
    if Enters(w, step) != [] {
      assert step.rq.id !in t.entered;
    }
  }

  /** Who is looked at: the next one in line that has not been, or the first in line. */
  lemma LooksNext(w: World, t: Trace)
    requires Told(w, t) && Enabled(w, Examine) && Looks(w, Examine) != []
    ensures var k := if w.q.run.Running? then |t.looked| else |t.begun|;
      k < |t.entered| && t.entered[k] == Looks(w, Examine)[0]
  {
    hide InLine, NoRepeat, Sequenced;
    HeadInLine(w.q.caps, w.q.items);
    var k := if w.q.run.Running? then |w.q.pending| else 0;
    assert Line(w.q)[k] == w.q.items[0].rq;
    assert Ids(Line(w.q))[k] == w.q.items[0].rq.id;
  }

  lemma LineTold(w: World, t: Trace, step: Step)
    requires t.entered == t.begun + Ids(Line(w.q)) && Enabled(w, step) && Orderly(w, step)
    ensures Noted(t, w, step).entered == Noted(t, w, step).begun + Ids(Line(Apply(w, step).q))
  {
    hide Line, NextQueue;
    var l, l', e, b := Ids(Line(w.q)), Ids(Line(Apply(w, step).q)), Enters(w, step), Begins(w, Apply(w, step));
    assert t.begun + l + e == t.begun + (l + e);
    assert t.begun + b + l' == t.begun + (b + l');
  }

  lemma ExamineFields(w: World)
    requires Enabled(w, Examine) && AllKnown(w)
    ensures var q, q' := w.q, Apply(w, Examine).q;
      && (Looks(w, Examine) == [] ==> q'.run == q.run && q'.pending == q.pending)
      && (Looks(w, Examine) != [] && q.run.Idle? ==> q'.run.Running? && q'.pending == q.pending)
      && (Looks(w, Examine) != [] && q.run.Running? ==> q'.run == q.run && |q'.pending| == |q.pending| + 1)
  {
    hide AllKnown;
    if Looks(w, Examine) != [] {
      PlanOfKnown(w);
    }
  }

  lemma ExamineTold(w: World, t: Trace)
    requires Told(w, t) && Enabled(w, Examine) && AllKnown(w)
    ensures Told(Apply(w, Examine), Noted(t, w, Examine))
  {
    var w', t' := Apply(w, Examine), Noted(t, w, Examine);
    EntersNew(w, t, Examine);
    hide Line, AllKnown, Sequenced, Orderly;
    ExamineOrderly(w);
    ExamineFields(w);
    if Looks(w, Examine) != [] {
      LooksNext(w, t);
    }
    assert t'.entered == t'.begun + Ids(Line(w'.q)) by {
      LineTold(w, t, Examine);
    }
  }

  /** The other steps look at nothing; when a sequence ends the one pending longest is moved back. */
  lemma OtherFields(w: World, step: Step)
    requires Enabled(w, step) && !step.Examine?
    ensures var q, q' := w.q, Apply(w, step).q;
      && Looks(w, step) == [] && Begins(w, Apply(w, step)) == []
      && (q.run.Idle? ==> q'.run.Idle? && q'.pending == q.pending)
      && (q.run.Running? && q'.run.Running? ==> q'.pending == q.pending)
      && (q.run.Running? && q'.run.Idle? ==> |q.pending| == |q'.pending| + 1 || q.pending == q'.pending == [])
  {
  }

  lemma OtherTold(w: World, t: Trace, step: Step)
    requires Told(w, t) && Enabled(w, step) && !step.Examine? && Orderly(w, step)
    ensures Told(Apply(w, step), Noted(t, w, step))
  {
    EntersNew(w, t, step);
    hide Line, Orderly, NextQueue, Enters, NoRepeat, Looks, Begins, NextHistory;
    OtherFields(w, step);
    LineTold(w, t, step);
  }

  lemma StepTold(w: World, t: Trace, step: Step)
    requires Told(w, t) && Enabled(w, step) && Structure(w) && InTurn(w.q.caps, [step])
    ensures Told(Apply(w, step), Noted(t, w, step))
  {
    if step.Examine? {
      ExamineTold(w, t);
    } else {
      hide Line, Structure, InTurn, Orderly;
      StepOrderly(w, step);
      OtherTold(w, t, step);
    }
  }

  lemma CapsKept(w: World, step: Step)
    requires Enabled(w, step)
    ensures Apply(w, step).q.caps == w.q.caps
  {
    hide NextQueue;
  }

  lemma {:induction false} RunTold(w: World, t: Trace, steps: seq<Step>)
    requires Inv(w) && Told(w, t) && CanRun(w, steps) && InTurn(w.q.caps, steps)
    ensures Told(RunAll(w, steps), TraceOf(t, w, steps))
    decreases |steps|
  {
    hide Told, Structure, Recorded, Untouched, Progress, Promises, Noted, Enabled, Apply;
    if steps != [] {
      InvKept(w, steps[0]);
      assert InTurn(w.q.caps, [steps[0]]);
      StepTold(w, t, steps[0]);
      CapsKept(w, steps[0]);
      RunTold(Apply(w, steps[0]), Noted(t, w, steps[0]), steps[1..]);
    }
  }

  /**
   * First come, first served. In every run in which nothing that needs a sequence
   * is submitted at the head of the queue, sequences begin in the order in which
   * their requests came, and in which they were first looked at: who has begun are
   * the first of those looked at, and these the first of those that came. Requests
   * of other kinds may go to the head, and requests may be requeued.
   */
  lemma FirstCome(caps: Caps, steps: seq<Step>)
    requires caps.Valid() && CanRun(Init(caps), steps) && InTurn(caps, steps)
    ensures var t := TraceOf(Trace([], [], []), Init(caps), steps);
      && t.begun <= t.looked <= t.entered && NoRepeat(t.entered)
      && t.entered == t.begun + Ids(Line(RunAll(Init(caps), steps).q))
  {
    hide CanRun, RunAll, TraceOf;
    RunTold(Init(caps), Trace([], [], []), steps);
    var t := TraceOf(Trace([], [], []), Init(caps), steps);
    assert t.begun == t.looked[..|t.begun|];
  }

  // ----- stages go first ---------------------------------------------------

  /** Nothing is put at the head of the queue: no request is submitted there, and none comes back. */
  predicate NoBarging(steps: seq<Step>) {
    forall i | 0 <= i < |steps| :: !(steps[i].Submit? && steps[i].where == Front) && !steps[i].Requeue?
  }

  /** A stage that waits is at the head of the queue. */
  ghost predicate StageAtHead(w: World) {
    w.q.run.Running? && w.issued.None? ==>
      w.q.run.todo != [] && w.q.items != [] && w.q.items[0] == FlushRq(w.q.run.todo[0])
  }

  lemma StageAtHeadKept(w: World, step: Step)
    requires Structure(w) && StageAtHead(w) && Enabled(w, step) && NoBarging([step])
    ensures StageAtHead(Apply(w, step))
  {
    hide Conserved, AllKnown, Sorted, NoneStuck, Plan;
    assert [step][0] == step;
    if step.Examine? {
      assert w.q.run.Running? ==> w.issued.Some?;
    }
  }

  /** While a sequence runs its next stage is handed out before any request, in runs where nothing barges in. */
  lemma {:induction false} StagesFirst(w: World, steps: seq<Step>)
    requires Inv(w) && StageAtHead(w) && CanRun(w, steps) && NoBarging(steps)
    ensures StageAtHead(RunAll(w, steps))
    decreases |steps|
  {
    hide StageAtHead, Structure, Recorded, Untouched, Progress, Promises, Enabled, Apply;
    if steps != [] {
      InvKept(w, steps[0]);
      StageAtHeadKept(w, steps[0]);
      StagesFirst(Apply(w, steps[0]), steps[1..]);
    }
  }

  // ----- requests without data ---------------------------------------------

  /** It asked for a flush, or for its data to be durable, and has none. */
  ghost predicate EmptyOne(asked: map<nat, Rq>, rq: Rq) {
    rq.id in asked && Flagged(asked[rq.id]) && !HasData(asked[rq.id])
  }

  ghost predicate NoneOf(asked: map<nat, Rq>, items: seq<Item>, elevator: seq<Rq>, driver: map<nat, Rq>) {
    && (forall i | 0 <= i < |items| && items[i].Req? :: !EmptyOne(asked, items[i].rq))
    && (forall i | 0 <= i < |elevator| :: !EmptyOne(asked, elevator[i]))
    && (forall id | id in driver :: !EmptyOne(asked, driver[id]))
  }

  /** On a queue without a cache to flush no such request is on its way to the driver. */
  ghost predicate NoneEmpty(w: World) {
    !w.q.caps.flush ==> NoneOf(w.hist.asked, w.q.items, w.elevator, w.driver)
  }

  /** On such a queue nothing is looked at and no sequence runs. */
  lemma NothingSequenced(w: World)
    requires Structure(w) && !w.q.caps.flush
    ensures w.q.run.Idle? && !Enabled(w, Examine)
  {
    hide Conserved, Sorted, NoneStuck;
    assert w.q.items != [] && w.q.items[0].Req? ==> Known(w, w.q.items[0].rq);
  }

  lemma SameAsked(w: World, step: Step)
    requires Enabled(w, step) && !step.Submit?
    ensures Apply(w, step).hist.asked == w.hist.asked
  {
    hide NextQueue;
  }

  lemma MovedNoneOf(w: World, step: Step, asked: map<nat, Rq>)
    requires Enabled(w, step) && !step.Submit? && !step.Examine? && w.q.run.Idle?
    requires NoneOf(asked, w.q.items, w.elevator, w.driver)
    ensures NoneOf(asked, NextQueue(w, step).items, NextElevator(w, step), NextDriver(w, step))
  {
    hide EmptyOne;
  }

  lemma SubmitNoneEmpty(w: World, step: Step)
    requires AllKnown(w) && NoneEmpty(w) && Enabled(w, step) && step.Submit? && !w.q.caps.flush
    ensures NoneEmpty(Apply(w, step))
  {
    hide HasData;
    var asked, asked' := w.hist.asked, w.hist.asked[step.rq.id := step.rq];
    forall r: Rq | Known(w, r)
      ensures EmptyOne(asked', r) <==> EmptyOne(asked, r)
    {
    }
    forall id | id in w.driver
      ensures !EmptyOne(asked', w.driver[id])
    {
      assert Known(w, w.driver[id]);
    }
  }

  lemma NoneEmptyKept(w: World, step: Step)
    requires Structure(w) && NoneEmpty(w) && Enabled(w, step)
    ensures NoneEmpty(Apply(w, step))
  {
    hide NoneOf, NextQueue, NextElevator, NextDriver;
    CapsKept(w, step);
    if !w.q.caps.flush {
      NothingSequenced(w);
      if step.Submit? {
        SubmitNoneEmpty(w, step);
      } else {
        hide Structure;
        SameAsked(w, step);
        MovedNoneOf(w, step, w.hist.asked);
      }
    }
  }

  lemma {:induction false} RunNoneEmpty(w: World, steps: seq<Step>)
    requires Inv(w) && NoneEmpty(w) && CanRun(w, steps)
    ensures Inv(RunAll(w, steps)) && NoneEmpty(RunAll(w, steps))
    decreases |steps|
  {
    hide NoneEmpty, Structure, Recorded, Untouched, Progress, Promises, Enabled, Apply;
    if steps != [] {
      InvKept(w, steps[0]);
      NoneEmptyKept(w, steps[0]);
      RunNoneEmpty(Apply(w, steps[0]), steps[1..]);
    }
  }

  lemma InvAtStart(caps: Caps)
    requires caps.Valid()
    ensures Inv(Init(caps))
  {
  }

  /** In every run, a request that asks for FLUSH or FUA reaches the driver only if it has data. */
  lemma EmptyNeverIssued(caps: Caps, steps: seq<Step>, id: nat)
    requires caps.Valid() && CanRun(Init(caps), steps)
    ensures var w := RunAll(Init(caps), steps);
      id in w.driver ==> id in w.hist.asked && (Flagged(w.hist.asked[id]) ==> HasData(w.hist.asked[id]))
  {
    hide CanRun, RunAll, Recorded, Untouched, Progress, Promises;
    assert Inv(Init(caps)) by {
      InvAtStart(caps);
    }
    RunNoneEmpty(Init(caps), steps);
    var w := RunAll(Init(caps), steps);
    hide Conserved, OneStage, NoneStuck;
    assert id in w.driver ==> Known(w, w.driver[id]) && w.driver[id].id == id;
  }
}
