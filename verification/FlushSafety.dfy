/**
 * What every run of the flush protocol keeps, and what follows for a file
 * system that sets REQ_FLUSH or REQ_FUA: its data is where it was promised.
 */
module FlushSafety {
  import opened Block
  import opened FlushSpec

  // ----- where a request is ------------------------------------------------

  function One(b: bool): nat {
    if b then 1 else 0
  }

  function InItems(items: seq<Item>, id: nat): nat {
    if items == [] then 0
    else One(items[0].Req? && items[0].rq.id == id) + InItems(items[1..], id)
  }

  function InRqs(rqs: seq<Rq>, id: nat): nat {
    if rqs == [] then 0 else One(rqs[0].id == id) + InRqs(rqs[1..], id)
  }

  function InEnded(ended: seq<Ended>, id: nat): nat {
    if ended == [] then 0 else One(ended[0].id == id) + InEnded(ended[1..], id)
  }

  function InRun(run: Run, id: nat): nat {
    One(run.Running? && run.orig.id == id)
  }

  /** How often request `id` occurs in the places the flush machinery keeps requests. */
  function InQueue(q: Queue, id: nat): nat {
    InItems(q.items, id) + InRqs(q.pending, id) + InRun(q.run, id) + InEnded(q.ended, id)
  }

  /** How often it occurs anywhere. */
  function Copies(w: World, id: nat): nat {
    InQueue(w.q, id) + InRqs(w.elevator, id) + One(id in w.driver)
  }

  function Stages(items: seq<Item>): seq<Stage> {
    if items == [] then []
    else (if items[0].FlushRq? then [items[0].stage] else []) + Stages(items[1..])
  }

  // ----- the invariant -----------------------------------------------------

  /** `r` is the request that was submitted under its id, with the flags the queue admits. */
  ghost predicate Known(w: World, r: Rq) {
    r.id in w.hist.asked && r == Admit(w.q.caps, w.hist.asked[r.id])
  }

  ghost predicate KnownItems(w: World, items: seq<Item>) {
    forall i | 0 <= i < |items| && items[i].Req? :: Known(w, items[i].rq)
  }

  ghost predicate KnownRqs(w: World, rqs: seq<Rq>) {
    forall i | 0 <= i < |rqs| :: Known(w, rqs[i])
  }

  /** A request that was submitted is in exactly one place, and no other request is anywhere. */
  ghost predicate Conserved(w: World) {
    forall id: nat :: Copies(w, id) == One(id in w.hist.asked)
  }

  ghost predicate AllKnown(w: World) {
    && KnownItems(w, w.q.items) && KnownRqs(w, w.q.pending) && KnownRqs(w, w.elevator)
    && (forall id | id in w.driver :: w.driver[id].id == id && Known(w, w.driver[id]))
    && (forall id | id in w.hist.asked :: w.hist.asked[id].id == id && Sensible(w.hist.asked[id]))
  }

  /** Drivers only hold requests that need no flush stage; pending ones all do. */
  ghost predicate Sorted(w: World) {
    && (forall id | id in w.driver :: !Sequenced(w.q.caps, w.driver[id]))
    && (forall i | 0 <= i < |w.elevator| :: !Flagged(w.elevator[i]))
    && (forall i | 0 <= i < |w.q.pending| :: Sequenced(w.q.caps, w.q.pending[i]))
  }

  ghost predicate OneStage(w: World) {
    match w.q.run
    case Idle => Stages(w.q.items) == [] && w.issued.None?
    case Running(orig, todo, _) =>
      && todo != []
      && Stages(w.q.items) == (if w.issued.None? then [todo[0]] else [])
      && orig.id in w.hist.asked
      && Sequenced(w.q.caps, Admit(w.q.caps, w.hist.asked[orig.id]))
      && orig == Clean(w.q.caps, Admit(w.q.caps, w.hist.asked[orig.id]))
  }

  /** Some request in the dispatch queue starts a sequence when it is looked at. */
  ghost predicate WillStart(q: Queue) {
    exists i :: 0 <= i < |q.items| && q.items[i].Req? && Sequenced(q.caps, q.items[i].rq)
  }

  ghost predicate NoneStuck(w: World) {
    w.q.pending != [] ==> w.q.run.Running? || WillStart(w.q)
  }

  // ----- what the history records ------------------------------------------

  function StagesOf(reports: seq<Report>): seq<Stage> {
    if reports == [] then [] else [reports[0].stage] + StagesOf(reports[1..])
  }

  function FirstError(reports: seq<Report>): int {
    if reports == [] then 0
    else if reports[0].err != 0 then reports[0].err
    else FirstError(reports[1..])
  }

  ghost predicate Recorded(w: World) {
    && w.hist.before.Keys == w.hist.asked.Keys == w.hist.reports.Keys
    && w.hist.dataAt.Keys <= w.hist.asked.Keys
    && (forall id | id in w.hist.before :: w.hist.before[id] <= w.disk.completed)
    && (forall id | id in w.driver :: id in w.hist.dataAt)
    // without a volatile cache nothing is ever at risk
    && (!w.q.caps.flush ==>
          && w.disk.completed <= w.disk.durable
          && forall id | id in w.hist.dataAt && id in w.hist.before :: w.hist.before[id] <= w.hist.dataAt[id])
  }

  /** Requests whose turn has not come have no reports and have issued no data. */
  ghost predicate Untouched(w: World)
    requires Recorded(w)
  {
    forall id | id in w.hist.asked && InRun(w.q.run, id) + InEnded(w.q.ended, id) == 0 ::
      && w.hist.reports[id] == []
      && (Sequenced(w.q.caps, Admit(w.q.caps, w.hist.asked[id])) ==> id !in w.hist.dataAt)
  }

  ghost predicate Achieved(w: World, id: nat, todo: seq<Stage>)
    requires Recorded(w) && id in w.hist.asked
  {
    var rq, issued := w.hist.asked[id], w.issued;
    && (rq.flush && PreFlush !in todo ==> w.hist.before[id] <= w.disk.durable)
    && (issued.Some? ==> w.hist.before[id] <= issued.value)
    && (rq.flush && id in w.hist.dataAt ==> w.hist.before[id] <= w.hist.dataAt[id])
    && (issued.Some? && todo != [] && todo[0] == Data ==> id in w.hist.dataAt)
    && (HasData(rq) && Data !in todo ==> id in w.hist.dataAt)
    && (HasData(rq) && Data !in todo && rq.write ==>
          && id in w.disk.completed
          && (rq.fua && w.q.caps.fua ==> id in w.disk.durable)
          && (issued.Some? ==> id in issued.value))
  }

  /** What has been done for the running request; the durability part if nothing failed so far. */
  ghost predicate Progress(w: World)
    requires Recorded(w)
  {
    w.q.run.Running? && w.q.run.orig.id in w.hist.asked ==>
      var id, todo := w.q.run.orig.id, w.q.run.todo;
      && StagesOf(w.hist.reports[id]) + todo == Plan(w.q.caps, Admit(w.q.caps, w.hist.asked[id]))
      && FirstError(w.hist.reports[id]) == w.q.run.err
      && (PreFlush in todo ==> id !in w.hist.dataAt)
      && (w.q.run.err == 0 ==> Achieved(w, id, todo))
  }

  // ----- what a file system is promised ------------------------------------

  /** REQ_FUA: a write that ended without error is on non-volatile storage. */
  ghost predicate FuaKept(w: World, e: Ended) {
    && e.err == 0 && e.id in w.hist.asked && w.hist.asked[e.id].fua
    && w.hist.asked[e.id].write && HasData(w.hist.asked[e.id]) ==>
      e.id in w.disk.durable
  }

  /**
   * REQ_FLUSH: a request that ended without error found every write that had
   * completed when its sequence began durable, and already durable when its own
   * data was first issued.
   */
  ghost predicate FlushKept(w: World, e: Ended) {
    e.err == 0 && e.id in w.hist.asked && e.id in w.hist.before && w.hist.asked[e.id].flush ==>
      && w.hist.before[e.id] <= w.disk.durable
      && (HasData(w.hist.asked[e.id]) ==> e.id in w.hist.dataAt && w.hist.before[e.id] <= w.hist.dataAt[e.id])
  }

  /** The stages ran in plan order, each once, and the first error is the one reported. */
  ghost predicate StagesKept(w: World, e: Ended) {
    e.id in w.hist.asked && e.id in w.hist.reports && Sequenced(w.q.caps, Admit(w.q.caps, w.hist.asked[e.id])) ==>
      && StagesOf(w.hist.reports[e.id]) == Plan(w.q.caps, Admit(w.q.caps, w.hist.asked[e.id]))
      && FirstError(w.hist.reports[e.id]) == e.err
  }

  ghost predicate Promises(w: World) {
    forall i | 0 <= i < |w.q.ended| ::
      FuaKept(w, w.q.ended[i]) && FlushKept(w, w.q.ended[i]) && StagesKept(w, w.q.ended[i])
  }

  ghost predicate Structure(w: World) {
    w.q.caps.Valid() && Conserved(w) && AllKnown(w) && Sorted(w) && OneStage(w) && NoneStuck(w)
  }

  ghost predicate Inv(w: World) {
    Structure(w) && Recorded(w) && Untouched(w) && Progress(w) && Promises(w)
  }

  // ----- list lemmas -------------------------------------------------------

  lemma {:induction false} InItemsAppend(a: seq<Item>, b: seq<Item>, id: nat)
    ensures InItems(a + b, id) == InItems(a, id) + InItems(b, id)
  {
    if a == [] {
      assert a + b == b;
    } else {
      assert (a + b)[1..] == a[1..] + b;
      InItemsAppend(a[1..], b, id);
    }
  }

  lemma {:induction false} StagesAppend(a: seq<Item>, b: Item)
    ensures Stages(a + [b]) == Stages(a) + Stages([b])
  {
    if a == [] {
      assert a + [b] == [b];
    } else {
      assert (a + [b])[1..] == a[1..] + [b];
      StagesAppend(a[1..], b);
      var h := if a[0].FlushRq? then [a[0].stage] else [];
      assert h + (Stages(a[1..]) + Stages([b])) == h + Stages(a[1..]) + Stages([b]);
    }
  }

  lemma {:induction false} InRqsAppend(a: seq<Rq>, b: seq<Rq>, id: nat)
    ensures InRqs(a + b, id) == InRqs(a, id) + InRqs(b, id)
  {
    if a == [] {
      assert a + b == b;
    } else {
      assert (a + b)[1..] == a[1..] + b;
      InRqsAppend(a[1..], b, id);
    }
  }

  lemma {:induction false} InEndedAppend(a: seq<Ended>, e: Ended, id: nat)
    ensures InEnded(a + [e], id) == InEnded(a, id) + One(e.id == id)
  {
    if a == [] {
      assert a + [e] == [e];
    } else {
      assert (a + [e])[1..] == a[1..] + [e];
      InEndedAppend(a[1..], e, id);
    }
  }

  lemma InRqsRemove(a: seq<Rq>, i: nat, id: nat)
    requires i < |a|
    ensures InRqs(a, id) == InRqs(a[..i] + a[i + 1..], id) + One(a[i].id == id)
  {
    assert a == a[..i] + ([a[i]] + a[i + 1..]);
    InRqsAppend(a[..i], [a[i]] + a[i + 1..], id);
    InRqsAppend(a[..i], a[i + 1..], id);
    assert ([a[i]] + a[i + 1..])[1..] == a[i + 1..];
  }

  // ----- the queue operations keep every request ---------------------------

  lemma EndRunKeeps(q: Queue, rq: Rq, err: int, id: nat)
    ensures InQueue(EndRun(q, rq, err), id) + InRun(q.run, id) == InQueue(q, id) + One(rq.id == id)
    ensures Stages(EndRun(q, rq, err).items) == Stages(q.items)
  {
    InEndedAppend(q.ended, Ended(rq.id, err), id);
    if q.pending != [] {
      assert ([Req(q.pending[0])] + q.items)[1..] == q.items;
    }
  }

  lemma DoFlushKeeps(q: Queue, id: nat)
    requires q.items != [] && q.items[0].Req? && Flagged(q.items[0].rq)
    ensures InQueue(DoFlush(q), id) == InQueue(q, id)
  {
    var rq, rest := q.items[0].rq, q.items[1..];
    if Direct(q.caps, rq) {
      assert ([Req(Clean(q.caps, rq))] + rest)[1..] == rest;
    } else if q.run.Running? {
      InRqsAppend(q.pending, [rq], id);
    } else if Plan(q.caps, rq) == [] {
      EndRunKeeps(q.(items := rest), Clean(q.caps, rq), 0, id);
    } else {
      assert ([FlushRq(Plan(q.caps, rq)[0])] + rest)[1..] == rest;
    }
  }

  lemma CompleteSeqKeeps(q: Queue, err: int, id: nat)
    requires q.run.Running? && q.run.todo != []
    ensures InQueue(CompleteSeq(q, err), id) == InQueue(q, id)
  {
    var todo := q.run.todo[1..];
    if todo == [] {
      var err' := if err != 0 && q.run.err == 0 then err else q.run.err;
      EndRunKeeps(q, q.run.orig, err', id);
    } else {
      assert ([FlushRq(todo[0])] + q.items)[1..] == q.items;
    }
  }

  lemma SubmitKeeps(w: World, rq: Rq, where: Where, id: nat)
    requires Enabled(w, Submit(rq, where))
    ensures var s := Submit(rq, where);
      InQueue(NextQueue(w, s), id) + InRqs(NextElevator(w, s), id)
      == InQueue(w.q, id) + InRqs(w.elevator, id) + One(rq.id == id)
  {
    var r := Admit(w.q.caps, rq);
    InEndedAppend(w.q.ended, Ended(rq.id, 0), id);
    InItemsAppend(w.q.items, [Req(r)], id);
    InRqsAppend(w.elevator, [r], id);
    assert ([Req(r)] + w.q.items)[1..] == w.q.items;
  }

  /** No step loses or duplicates a request. */
  lemma CopiesKept(w: World, step: Step, id: nat)
    requires Enabled(w, step)
    requires step.Requeue? || step.Complete? ==> w.driver[step.id].id == step.id
    requires step.Issue? && w.q.items[0].Req? ==> w.q.items[0].rq.id !in w.driver
    ensures Copies(Apply(w, step), id) == Copies(w, id) + One(step.Submit? && step.rq.id == id)
  {
    match step
    case Submit(rq, where) => SubmitKeeps(w, rq, where, id);
    case Dispatch(i) =>
      InRqsRemove(w.elevator, i, id);
      InItemsAppend(w.q.items, [Req(w.elevator[i])], id);
    case Examine => DoFlushKeeps(w.q, id);
    case Issue =>
    case Requeue(k) => assert ([Req(w.driver[k])] + w.q.items)[1..] == w.q.items;
    case RequeueFlush => assert ([FlushRq(w.q.run.todo[0])] + w.q.items)[1..] == w.q.items;
    case Complete(k, err) => InEndedAppend(w.q.ended, Ended(k, err), id);
    case CompleteFlush(err) => CompleteSeqKeeps(w.q, err, id);
    case Writeback(ids) =>
  }

  lemma ConservedKept(w: World, step: Step)
    requires Conserved(w) && AllKnown(w) && Enabled(w, step)
    ensures Conserved(Apply(w, step))
  {
    var w' := Apply(w, step);
    if step.Issue? && w.q.items[0].Req? {
      assert Copies(w, w.q.items[0].rq.id) <= 1;
    }
    forall id: nat ensures Copies(w', id) == One(id in w'.hist.asked) {
      assert Copies(w, id) == One(id in w.hist.asked);
      CopiesKept(w, step, id);
    }
  }

  // ----- requests keep the flags they came with ----------------------------

  lemma DoFlushKnown(w: World)
    requires w.q.caps.Valid() && KnownItems(w, w.q.items) && KnownRqs(w, w.q.pending) && Enabled(w, Examine)
    ensures KnownItems(w, DoFlush(w.q).items) && KnownRqs(w, DoFlush(w.q).pending)
  {
    assert Known(w, w.q.items[0].rq);
  }

  lemma NextQueueKnown(w: World, step: Step)
    requires w.q.caps.Valid() && AllKnown(w) && Enabled(w, step) && !step.Submit?
    ensures var q := NextQueue(w, step); KnownItems(w, q.items) && KnownRqs(w, q.pending)
  {
    if step.Examine? {
      DoFlushKnown(w);
    }
  }

  lemma AskedSame(w: World, step: Step)
    requires Enabled(w, step) && !step.Submit?
    ensures NextHistory(w, step).asked == w.hist.asked
  {
  }

  lemma KnownSame(w: World, w': World, items: seq<Item>, rqs: seq<Rq>)
    requires w'.hist.asked == w.hist.asked && w'.q.caps == w.q.caps && KnownItems(w, items) && KnownRqs(w, rqs)
    ensures KnownItems(w', items) && KnownRqs(w', rqs)
  {
  }

  lemma AllKnownQuiet(w: World, step: Step)
    requires w.q.caps.Valid() && AllKnown(w) && Enabled(w, step) && !step.Submit?
    ensures AllKnown(Apply(w, step))
  {
    hide NextQueue, NextHistory, NextDisk, NextIssued, Admit, Sensible;
    var w' := Apply(w, step);
    AskedSame(w, step);
    NextQueueKnown(w, step);
    KnownSame(w, w', w'.q.items, w'.q.pending);
    if step.Issue? && w.q.items[0].Req? {
      assert Known(w, w.q.items[0].rq);
    }
  }

  lemma AllKnownKept(w: World, step: Step)
    requires w.q.caps.Valid() && AllKnown(w) && Enabled(w, step)
    ensures AllKnown(Apply(w, step))
  {
    hide NextDisk, NextIssued;
    if !step.Submit? {
      AllKnownQuiet(w, step);
    } else {
      var w' := Apply(w, step);
      assert forall r | Known(w, r) :: Known(w', r);
      assert Known(w', Admit(w.q.caps, step.rq));
    }
  }

  lemma SortedKept(w: World, step: Step)
    requires w.q.caps.Valid() && AllKnown(w) && Enabled(w, step) && Sorted(w)
    ensures Sorted(Apply(w, step))
  {
  }

  // ----- one stage at a time -----------------------------------------------

  /** Examining a request keeps the stage count right; only an idle queue starts a sequence. */
  lemma DoFlushOneStage(w: World)
    requires w.q.caps.Valid() && AllKnown(w) && OneStage(w) && Enabled(w, Examine)
    ensures OneStage(w.(q := DoFlush(w.q)))
  {
    assert Known(w, w.q.items[0].rq);
  }

  lemma OneStageIssue(w: World)
    requires Enabled(w, Issue) && OneStage(w)
    ensures OneStage(Apply(w, Issue))
  {
    hide NextElevator, NextDriver, NextDisk, Admit, Sequenced, Clean, Ready;
  }

  lemma OneStageFlush(w: World, step: Step)
    requires (step.CompleteFlush? || step.RequeueFlush?) && Enabled(w, step) && OneStage(w)
    ensures OneStage(Apply(w, step))
  {
    hide NextElevator, NextDriver, NextDisk, Admit, Sequenced, Clean;
  }

  /** A new request is no stage, wherever it is put. */
  lemma SubmitStages(w: World, rq: Rq, where: Where)
    requires Enabled(w, Submit(rq, where))
    ensures var q := NextQueue(w, Submit(rq, where)); Stages(q.items) == Stages(w.q.items) && q.run == w.q.run
  {
    hide Admit;
    var r := Req(Admit(w.q.caps, rq));
    if !EndsAtOnce(w.q.caps, rq) {
      if where == Back {
        StagesAppend(w.q.items, r);
      } else if where == Front {
        assert ([r] + w.q.items)[1..] == w.q.items;
      }
    }
  }

  lemma OneStageSubmit(w: World, rq: Rq, where: Where)
    requires Enabled(w, Submit(rq, where)) && OneStage(w)
    ensures OneStage(Apply(w, Submit(rq, where)))
  {
    hide NextQueue, NextElevator, NextDriver, NextDisk, Stages, Admit, Sequenced, Clean;
    SubmitStages(w, rq, where);
  }

  lemma OneStageQuiet(w: World, step: Step)
    requires Enabled(w, step) && OneStage(w)
    requires step.Dispatch? || step.Requeue? || step.Complete? || step.Writeback?
    ensures OneStage(Apply(w, step))
  {
    hide NextElevator, NextDriver, NextDisk, Sequenced, Clean, Admit;
    if step.Dispatch? {
      StagesAppend(w.q.items, Req(w.elevator[step.i]));
    }
  }

  lemma SameStages(w: World)
    requires Enabled(w, Examine) && OneStage(w.(q := DoFlush(w.q)))
    ensures OneStage(Apply(w, Examine))
  {
    hide DoFlush, NextElevator, NextDriver, NextDisk, Stages, Sequenced, Clean, Admit;
  }

  lemma OneStageKept(w: World, step: Step)
    requires w.q.caps.Valid() && AllKnown(w) && Enabled(w, step) && OneStage(w)
    ensures OneStage(Apply(w, step))
  {
    hide AllKnown, OneStage;
    match step
    case Submit(rq, where) => OneStageSubmit(w, rq, where);
    case Examine =>
      DoFlushOneStage(w);
      SameStages(w);
    case Issue => OneStageIssue(w);
    case CompleteFlush(_) => OneStageFlush(w, step);
    case RequeueFlush => OneStageFlush(w, step);
    case _ => OneStageQuiet(w, step);
  }

  lemma NoneStuckKept(w: World, step: Step)
    requires w.q.caps.Valid() && AllKnown(w) && Enabled(w, step) && Sorted(w) && NoneStuck(w)
    ensures NoneStuck(Apply(w, step))
  {
    var q, q' := w.q, NextQueue(w, step);
    if q'.pending != [] && q'.run.Idle? {
      if step.CompleteFlush? || (step.Examine? && !Direct(q.caps, q.items[0].rq)) {
        assert q'.items[0] == Req(q.pending[0]) && Sequenced(q.caps, q.pending[0]);
      } else {
        assert WillStart(q);
        var i :| 0 <= i < |q.items| && q.items[i].Req? && Sequenced(q.caps, q.items[i].rq);
        if q'.items == q.items[1..] {
          assert q'.items[i - 1] == q.items[i];
        } else if |q'.items| == |q.items| + 1 && q'.items[1..] == q.items {
          assert q'.items[i + 1] == q.items[i];
        } else {
          assert q'.items[i] == q.items[i];
        }
      }
    }
  }

  // ----- the history -------------------------------------------------------

  lemma RecordedIssue(w: World)
    requires AllKnown(w) && OneStage(w) && Enabled(w, Issue) && Recorded(w)
    ensures Recorded(Apply(w, Issue))
  {
    hide NextQueue, NextElevator, NextIssued, Stages, KnownRqs, Admit, Clean, Sequenced;
    if w.q.items[0].Req? {
      assert Known(w, w.q.items[0].rq);
    }
  }

  lemma RecordedExamine(w: World)
    requires AllKnown(w) && Enabled(w, Examine) && Recorded(w)
    ensures Recorded(Apply(w, Examine))
  {
    hide NextQueue, NextElevator, NextIssued, Plan, KnownRqs, Clean, Sequenced;
    assert Known(w, w.q.items[0].rq);
  }

  lemma RecordedFlush(w: World, err: int)
    requires OneStage(w) && Enabled(w, CompleteFlush(err)) && Recorded(w)
    ensures Recorded(Apply(w, CompleteFlush(err)))
  {
    hide NextQueue, NextElevator, NextIssued, Stages, Admit, Sequenced;
  }

  lemma RecordedQuiet(w: World, step: Step)
    requires Enabled(w, step) && Recorded(w) && !step.Issue? && !step.Examine? && !step.CompleteFlush?
    ensures Recorded(Apply(w, step))
  {
    hide NextQueue, NextElevator, NextIssued;
  }

  lemma RecordedKept(w: World, step: Step)
    requires AllKnown(w) && OneStage(w) && Enabled(w, step) && Recorded(w)
    ensures Recorded(Apply(w, step))
  {
    hide Recorded, AllKnown, OneStage, Enabled, Apply;
    match step
    case Issue => RecordedIssue(w);
    case Examine => RecordedExamine(w);
    case CompleteFlush(err) => RecordedFlush(w, err);
    case _ => RecordedQuiet(w, step);
  }

  /** Once a request is running or ended it stays running or ended. */
  lemma TouchedStays(w: World, step: Step, id: nat)
    requires Enabled(w, step) && InRun(w.q.run, id) + InEnded(w.q.ended, id) > 0
    ensures var q := NextQueue(w, step); InRun(q.run, id) + InEnded(q.ended, id) > 0
  {
    match step
    case Submit(rq, _) => InEndedAppend(w.q.ended, Ended(rq.id, 0), id);
    case Complete(k, err) => InEndedAppend(w.q.ended, Ended(k, err), id);
    case Examine => InEndedAppend(w.q.ended, Ended(w.q.items[0].rq.id, 0), id);
    case CompleteFlush(err) =>
      var err' := if err != 0 && w.q.run.err == 0 then err else w.q.run.err;
      InEndedAppend(w.q.ended, Ended(w.q.run.orig.id, err'), id);
    case _ =>
  }

  lemma UntouchedKept(w: World, step: Step)
    requires w.q.caps.Valid() && AllKnown(w) && Enabled(w, step) && Recorded(w) && Untouched(w)
    requires Recorded(Apply(w, step))
    ensures Untouched(Apply(w, step))
  {
    hide NextQueue, NextElevator, NextDriver, NextDisk, NextIssued, InEnded, Plan;
    var w' := Apply(w, step);
    forall id | id in w'.hist.asked && InRun(w'.q.run, id) + InEnded(w'.q.ended, id) == 0
      ensures w'.hist.reports[id] == []
      ensures Sequenced(w'.q.caps, Admit(w'.q.caps, w'.hist.asked[id])) ==> id !in w'.hist.dataAt
    {
      if InRun(w.q.run, id) + InEnded(w.q.ended, id) > 0 {
        TouchedStays(w, step, id);
      }
      if step.Issue? && w.q.items[0].Req? {
        assert Known(w, w.q.items[0].rq);
      }
    }
  }

  // ----- the running request -----------------------------------------------

  lemma {:induction false} StagesOfAppend(rs: seq<Report>, r: Report)
    ensures StagesOf(rs + [r]) == StagesOf(rs) + [r.stage]
    ensures FirstError(rs + [r]) == (if FirstError(rs) != 0 then FirstError(rs) else r.err)
  {
    if rs == [] {
      assert rs + [r] == [r];
    } else {
      assert (rs + [r])[1..] == rs[1..] + [r];
      StagesOfAppend(rs[1..], r);
    }
  }

  /** In a plan no stage occurs twice and the order is fixed. */
  lemma PlanOrder(caps: Caps, rq: Rq, done: seq<Stage>, todo: seq<Stage>)
    requires done + todo == Plan(caps, rq) && todo != []
    ensures todo[0] !in todo[1..]
    ensures PreFlush in todo ==> todo[0] == PreFlush
    ensures todo[0] == PostFlush ==> Data !in todo
  {
    var p := Plan(caps, rq);
    assert forall i, j | 0 <= i < j < |p| :: p[i] != p[j] && p[j] != PreFlush && p[i] != PostFlush;
    assert forall i | 0 <= i < |todo| :: todo[i] == p[|done| + i];
  }

  lemma HeadIsFresh(w: World)
    requires Conserved(w) && KnownItems(w, w.q.items) && w.q.items != [] && w.q.items[0].Req?
    ensures var id := w.q.items[0].rq.id;
      id in w.hist.asked && InRun(w.q.run, id) + InEnded(w.q.ended, id) == 0 && id !in w.driver
  {
    assert Known(w, w.q.items[0].rq);
    assert Copies(w, w.q.items[0].rq.id) <= 1;
  }

  lemma ProgressQuiet(w: World, step: Step)
    requires Recorded(w) && Progress(w) && OneStage(w) && Enabled(w, step)
    requires !step.Examine? && !step.Issue? && !step.CompleteFlush?
    requires Recorded(Apply(w, step))
    ensures Progress(Apply(w, step))
  {
    var w' := Apply(w, step);
    assert w'.q.run == w.q.run;
  }

  lemma ProgressExamine(w: World)
    requires Recorded(w) && Untouched(w) && Progress(w) && Enabled(w, Examine)
    requires Conserved(w) && KnownItems(w, w.q.items) && OneStage(w)
    requires Recorded(Apply(w, Examine))
    ensures Progress(Apply(w, Examine))
  {
    hide NextElevator, NextDriver, NextDisk, Conserved, Stages;
    var w', rq := Apply(w, Examine), w.q.items[0].rq;
    if w.q.run.Idle? && w'.q.run.Running? {
      HeadIsFresh(w);
      assert Known(w, rq);
      assert w'.q.run == Running(Clean(w.q.caps, rq), Plan(w.q.caps, rq), 0);
      assert [] + Plan(w.q.caps, rq) == Plan(w.q.caps, rq);
    }
  }

  lemma HeadStage(w: World)
    requires OneStage(w) && w.q.items != [] && w.q.items[0].FlushRq?
    ensures w.q.run.Running? && w.issued.None? && w.q.items[0].stage == w.q.run.todo[0]
  {
    assert Stages(w.q.items)[0] == w.q.items[0].stage;
  }

  lemma ProgressIssue(w: World)
    requires Recorded(w) && Progress(w) && Enabled(w, Issue)
    requires Conserved(w) && KnownItems(w, w.q.items) && OneStage(w)
    requires Recorded(Apply(w, Issue))
    ensures Progress(Apply(w, Issue))
  {
    hide NextElevator, NextDriver, Plan, Admit, Sequenced, Clean, Conserved, KnownItems, Stages;
    var w' := Apply(w, Issue);
    if w.q.items[0].Req? {
      HeadIsFresh(w);
    } else {
      HeadStage(w);
      var id, todo := w.q.run.orig.id, w.q.run.todo;
      PlanOrder(w.q.caps, Admit(w.q.caps, w.hist.asked[id]), StagesOf(w.hist.reports[id]), todo);
    }
  }

  /** A stage that succeeds brings the durability promise one step further. */
  lemma AchievedComplete(w: World, w': World, id: nat, todo: seq<Stage>)
    requires Recorded(w) && Enabled(w, CompleteFlush(0)) && w.q.run.orig.id == id && w.q.run.todo == todo
    requires id in w.hist.asked && w.hist.asked[id].id == id
    requires w.q.run.orig == Clean(w.q.caps, Admit(w.q.caps, w.hist.asked[id]))
    requires Achieved(w, id, todo) && Recorded(w') && id in w'.hist.asked
    requires w'.hist.asked == w.hist.asked && w'.hist.before == w.hist.before && w'.hist.dataAt == w.hist.dataAt
    requires w'.q.caps == w.q.caps && w'.issued.None? && w'.disk == NextDisk(w, CompleteFlush(0))
    ensures Achieved(w', id, todo[1..])
  {
    assert forall x | x in todo :: x == todo[0] || x in todo[1..];
  }

  lemma ProgressComplete(w: World, err: int)
    requires Recorded(w) && Progress(w) && Enabled(w, CompleteFlush(err))
    requires OneStage(w) && w.hist.asked[w.q.run.orig.id].id == w.q.run.orig.id
    requires Recorded(Apply(w, CompleteFlush(err)))
    ensures Progress(Apply(w, CompleteFlush(err)))
  {
    hide NextElevator, NextDriver, Plan, Admit, Sequenced, Stages, Achieved;
    var w' := Apply(w, CompleteFlush(err));
    if |w.q.run.todo| > 1 {
      var id, todo := w.q.run.orig.id, w.q.run.todo;
      StagesOfAppend(w.hist.reports[id], Report(todo[0], err));
      assert StagesOf(w'.hist.reports[id]) + todo[1..] == StagesOf(w.hist.reports[id]) + todo;
      if w'.q.run.err == 0 {
        AchievedComplete(w, w', id, todo);
      }
    }
  }

  lemma ProgressKept(w: World, step: Step)
    requires Structure(w) && Recorded(w) && Untouched(w) && Progress(w) && Enabled(w, step)
    requires Recorded(Apply(w, step))
    ensures Progress(Apply(w, step))
  {
    match step
    case Examine => ProgressExamine(w);
    case Issue => ProgressIssue(w);
    case CompleteFlush(err) => ProgressComplete(w, err);
    case _ => ProgressQuiet(w, step);
  }

  // ----- the promises ------------------------------------------------------

  ghost predicate Kept(w: World, e: Ended) {
    FuaKept(w, e) && FlushKept(w, e) && StagesKept(w, e)
  }

  /** A promise once kept stays kept. */
  lemma KeptStays(w: World, step: Step, e: Ended)
    requires Enabled(w, step) && Recorded(w) && Kept(w, e) && e.id in w.hist.asked
    requires step.CompleteFlush? ==> w.q.run.orig.id != e.id
    requires step.Examine? ==> w.q.items[0].rq.id != e.id
    ensures Kept(Apply(w, step), e)
  {
  }

  /** A request the driver held and completed. */
  lemma KeptDirect(w: World, id: nat, err: int)
    requires Enabled(w, Complete(id, err)) && w.q.caps.Valid() && Recorded(w)
    requires w.driver[id].id == id && Known(w, w.driver[id]) && !Sequenced(w.q.caps, w.driver[id])
    ensures Kept(Apply(w, Complete(id, err)), Ended(id, err))
  {
  }

  /** A request whose last stage completed. */
  lemma KeptSequenced(w: World, err: int)
    requires Enabled(w, CompleteFlush(err)) && w.q.caps.Valid() && Recorded(w) && Progress(w) && OneStage(w)
    requires w.hist.asked[w.q.run.orig.id].id == w.q.run.orig.id
    requires Recorded(Apply(w, CompleteFlush(err))) && |w.q.run.todo| == 1
    ensures var err' := if err != 0 && w.q.run.err == 0 then err else w.q.run.err;
      Kept(Apply(w, CompleteFlush(err)), Ended(w.q.run.orig.id, err'))
  {
    var w', id, todo := Apply(w, CompleteFlush(err)), w.q.run.orig.id, w.q.run.todo;
    StagesOfAppend(w.hist.reports[id], Report(todo[0], err));
    assert todo == [todo[0]];
    if err == 0 && w.q.run.err == 0 {
      var plan := Plan(w.q.caps, Admit(w.q.caps, w.hist.asked[id]));
      assert plan[|plan| - 1] == todo[0];
      AchievedComplete(w, w', id, todo);
    }
  }

  /** An empty request on a device without a cache. */
  lemma KeptAtOnce(w: World, rq: Rq, where: Where)
    requires Enabled(w, Submit(rq, where)) && Recorded(w) && EndsAtOnce(w.q.caps, rq)
    ensures Kept(Apply(w, Submit(rq, where)), Ended(rq.id, 0))
  {
  }

  /** A request that is looked at is never ended on the spot: it has something to do. */
  lemma ExamineEndsNothing(w: World)
    requires Enabled(w, Examine) && KnownItems(w, w.q.items)
    requires forall id | id in w.hist.asked :: Sensible(w.hist.asked[id])
    ensures DoFlush(w.q).ended == w.q.ended
  {
    assert Known(w, w.q.items[0].rq);
  }

  /** The request a step ends, if any. */
  function EndedBy(w: World, step: Step): Option<Ended>
    requires Enabled(w, step)
  {
    match step
    case Submit(rq, _) => if EndsAtOnce(w.q.caps, rq) then Some(Ended(rq.id, 0)) else None
    case Complete(id, err) => Some(Ended(id, err))
    case CompleteFlush(err) =>
      if |w.q.run.todo| > 1 then None
      else Some(Ended(w.q.run.orig.id, if err != 0 && w.q.run.err == 0 then err else w.q.run.err))
    case _ => None
  }

  lemma EndedByIsAll(w: World, step: Step)
    requires Enabled(w, step) && AllKnown(w)
    ensures var e := EndedBy(w, step);
      NextQueue(w, step).ended == w.q.ended + if e.Some? then [e.value] else []
  {
    if step.Examine? {
      ExamineEndsNothing(w);
    }
  }

  lemma EndedByKept(w: World, step: Step)
    requires Enabled(w, step) && w.q.caps.Valid() && AllKnown(w) && Sorted(w) && OneStage(w)
    requires Recorded(w) && Progress(w) && Recorded(Apply(w, step))
    ensures EndedBy(w, step).Some? ==> Kept(Apply(w, step), EndedBy(w, step).value)
  {
    match step
    case Submit(rq, where) =>
      if EndsAtOnce(w.q.caps, rq) {
        KeptAtOnce(w, rq, where);
      }
    case Complete(id, err) => KeptDirect(w, id, err);
    case CompleteFlush(err) =>
      if |w.q.run.todo| == 1 {
        KeptSequenced(w, err);
      }
    case _ =>
  }

  lemma {:induction false} EndedIsCounted(ended: seq<Ended>, i: nat)
    requires i < |ended|
    ensures InEnded(ended, ended[i].id) > 0
  {
    if i > 0 {
      EndedIsCounted(ended[1..], i - 1);
    }
  }

  lemma PromisesKept(w: World, step: Step)
    requires Inv(w) && Enabled(w, step) && Recorded(Apply(w, step))
    ensures Promises(Apply(w, step))
  {
    hide FuaKept, FlushKept, StagesKept, Progress, Untouched, NextElevator, NextDriver, NextDisk, NextHistory;
    hide Sorted, OneStage, NoneStuck;
    var w' := Apply(w, step);
    EndedByIsAll(w, step);
    EndedByKept(w, step);
    forall i | 0 <= i < |w'.q.ended| ensures Kept(w', w'.q.ended[i]) {
      if i < |w.q.ended| {
        var x := w.q.ended[i];
        EndedIsCounted(w.q.ended, i);
        assert Copies(w, x.id) == One(x.id in w.hist.asked);
        if step.Examine? {
          HeadIsFresh(w);
        }
        KeptStays(w, step, x);
        assert w'.q.ended[i] == x;
      } else {
        assert w'.q.ended[i] == EndedBy(w, step).value;
      }
    }
  }

  // ----- every run ---------------------------------------------------------

  lemma InvKept(w: World, step: Step)
    requires Inv(w) && Enabled(w, step)
    ensures Inv(Apply(w, step))
  {
    ConservedKept(w, step);
    AllKnownKept(w, step);
    SortedKept(w, step);
    OneStageKept(w, step);
    NoneStuckKept(w, step);
    RecordedKept(w, step);
    UntouchedKept(w, step);
    ProgressKept(w, step);
    PromisesKept(w, step);
  }

  lemma {:induction false} InvAlways(w: World, steps: seq<Step>)
    requires Inv(w) && CanRun(w, steps)
    ensures Inv(RunAll(w, steps))
    decreases |steps|
  {
    if steps != [] {
      InvKept(w, steps[0]);
      InvAlways(Apply(w, steps[0]), steps[1..]);
    }
  }

  /**
   * Durability. In every run, from an empty queue, on every kind of device:
   * an ended REQ_FUA write without error is durable, and an ended REQ_FLUSH
   * request without error had every write completed before its sequence began
   * made durable before its own data was issued.
   */
  lemma Durability(caps: Caps, steps: seq<Step>)
    requires caps.Valid() && CanRun(Init(caps), steps)
    ensures var w := RunAll(Init(caps), steps);
      forall i | 0 <= i < |w.q.ended| :: FuaKept(w, w.q.ended[i]) && FlushKept(w, w.q.ended[i])
  {
    InvAlways(Init(caps), steps);
  }

  /**
   * Stage order. A request that needs stages ends after exactly those of its
   * plan, each once and in order, with the first error any of them reported.
   * While it runs, the queue or the device holds exactly one stage for it.
   */
  lemma StageOrder(caps: Caps, steps: seq<Step>)
    requires caps.Valid() && CanRun(Init(caps), steps)
    ensures var w := RunAll(Init(caps), steps);
      && OneStage(w)
      && forall i | 0 <= i < |w.q.ended| :: StagesKept(w, w.q.ended[i])
  {
    InvAlways(Init(caps), steps);
  }

  /** No request is lost or duplicated, and none waits for a sequence that will never start. */
  lemma NoneLost(caps: Caps, steps: seq<Step>)
    requires caps.Valid() && CanRun(Init(caps), steps)
    ensures var w := RunAll(Init(caps), steps);
      && (forall id: nat :: Copies(w, id) == One(id in w.hist.asked))
      && (w.q.pending != [] ==> w.q.run.Running? || WillStart(w.q))
  {
    InvAlways(Init(caps), steps);
  }
}
