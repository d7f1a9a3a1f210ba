/**
 * The FLUSH/FUA protocol as a transition system: the dispatch queue, the
 * single running flush sequence and a disk with a volatile write cache.
 *
 * A sequence is described by the list of stages it still has to perform. The
 * bit mask the kernel keeps instead is in module FlushQueue, which refines the
 * queue operations of this module.
 */
module FlushSpec {
  import opened Block

  // What the device can do: flush its cache, and write through it.
  datatype Caps = Caps(flush: bool, fua: bool) {
    // blk_queue_flush drops FUA when FLUSH is missing
    predicate Valid() {
      fua ==> flush
    }
  }

  datatype Stage = PreFlush | Data | PostFlush

  // An entry of the dispatch queue: a request, or the queue's own flush_rq.
  datatype Item = Req(rq: Rq) | FlushRq(stage: Stage)

  // todo[0] is the stage in progress.
  datatype Run = Idle | Running(orig: Rq, todo: seq<Stage>, err: int)

  // A request that has been ended, and with which error (0 is success).
  datatype Ended = Ended(id: nat, err: int)

  datatype Queue = Queue(caps: Caps, items: seq<Item>, pending: seq<Rq>, run: Run, ended: seq<Ended>)

  // ----- the request's plan ------------------------------------------------

  predicate Flagged(rq: Rq) {
    rq.flush || rq.fua
  }

  predicate HasData(rq: Rq) {
    rq.Sectors() != 0
  }

  predicate NeedsPreFlush(caps: Caps, rq: Rq) {
    caps.flush && rq.flush
  }

  predicate NeedsPostFlush(caps: Caps, rq: Rq) {
    caps.flush && !caps.fua && rq.fua
  }

  /** The stages of a request, in the order they must run. */
  function Plan(caps: Caps, rq: Rq): seq<Stage> {
    (if NeedsPreFlush(caps, rq) then [PreFlush] else []) +
    (if HasData(rq) then [Data] else []) +
    (if NeedsPostFlush(caps, rq) then [PostFlush] else [])
  }

  /** The flags the driver may see: FLUSH never, FUA only if the device has it. */
  function Clean(caps: Caps, rq: Rq): Rq {
    rq.(flush := false, fua := rq.fua && caps.fua)
  }

  /** A request with data and no flush stage goes to the driver as it is. */
  predicate Direct(caps: Caps, rq: Rq) {
    HasData(rq) && !NeedsPreFlush(caps, rq) && !NeedsPostFlush(caps, rq)
  }

  predicate Sequenced(caps: Caps, rq: Rq) {
    Flagged(rq) && !Direct(caps, rq)
  }

  // ----- queue operations --------------------------------------------------

  /** Looking at the request begins its sequence. */
  predicate Starts(q: Queue, rq: Rq) {
    q.run.Idle? && Sequenced(q.caps, rq) && Plan(q.caps, rq) != []
  }

  /** What the driver may be handed. */
  predicate Ready(caps: Caps, item: Item) {
    item.FlushRq? || !Sequenced(caps, item.rq)
  }

  function MovePending(q: Queue): (q': Queue)
    ensures q'.caps == q.caps
  {
    if q.pending == [] then q
    else q.(items := [Req(q.pending[0])] + q.items, pending := q.pending[1..])
  }

  function EndRun(q: Queue, rq: Rq, err: int): Queue {
    MovePending(q.(run := Idle, ended := q.ended + [Ended(rq.id, err)]))
  }

  /** Look at the flagged request at the head of the dispatch queue. */
  function DoFlush(q: Queue): (q': Queue)
    requires q.items != [] && q.items[0].Req? && Flagged(q.items[0].rq)
    ensures q'.caps == q.caps
  {
    var rq, rest := q.items[0].rq, q.items[1..];
    if Direct(q.caps, rq) then
      q.(items := [Req(Clean(q.caps, rq))] + rest)
    else if q.run.Running? then
      q.(items := rest, pending := q.pending + [rq])
    else
      var plan := Plan(q.caps, rq);
      if plan == [] then
        EndRun(q.(items := rest), Clean(q.caps, rq), 0)
      else
        q.(items := [FlushRq(plan[0])] + rest, run := Running(Clean(q.caps, rq), plan, 0))
  }

  /** The stage in progress has completed with the given error. */
  function CompleteSeq(q: Queue, err: int): (q': Queue)
    requires q.run.Running? && q.run.todo != []
    ensures q'.caps == q.caps
  {
    var todo := q.run.todo[1..];
    var err' := if err != 0 && q.run.err == 0 then err else q.run.err;
    if todo == [] then
      EndRun(q, q.run.orig, err')
    else
      q.(items := [FlushRq(todo[0])] + q.items, run := Running(q.run.orig, todo, err'))
  }

  // ----- the world: queue, elevator, driver, disk and history --------------

  // Writes the device has acknowledged, and those of them on non-volatile storage.
  datatype Disk = Disk(completed: set<nat>, durable: set<nat>)

  datatype Report = Report(stage: Stage, err: int)

  datatype History = History(
    asked: map<nat, Rq>,             // requests as submitted
    before: map<nat, set<nat>>,      // writes completed when a request's sequence began or, without one, it came
    dataAt: map<nat, set<nat>>,      // writes durable when a request's data was first issued
    reports: map<nat, seq<Report>>   // stages of a request the device has finished
  )

  /** While the device has flush_rq, `issued` holds the writes that had completed when it got it. */
  datatype World = World(
    q: Queue,
    elevator: seq<Rq>,
    driver: map<nat, Rq>,
    issued: Option<set<nat>>,
    disk: Disk,
    hist: History
  )

  datatype Where = Front | Back | Elevator

  datatype Step =
    | Submit(rq: Rq, where: Where)
    | Dispatch(i: nat)
    | Examine
    | Issue
    | Requeue(id: nat)
    | RequeueFlush
    | Complete(id: nat, err: int)
    | CompleteFlush(err: int)
    | Writeback(ids: set<nat>)

  function Init(caps: Caps): World {
    World(Queue(caps, [], [], Idle, []), [], map[], None, Disk({}, {}), History(map[], map[], map[], map[]))
  }

  /** An empty request asks for a flush: the only thing it can do. */
  predicate Sensible(rq: Rq) {
    rq.fua && !HasData(rq) ==> rq.flush
  }

  predicate Enabled(w: World, step: Step) {
    match step
    case Submit(rq, where) =>
      && rq.id !in w.hist.asked
      && Sensible(rq)
      // flagged requests never enter the elevator
      && (where == Elevator ==> !Flagged(rq))
    case Dispatch(i) => i < |w.elevator|
    case Examine => w.q.items != [] && w.q.items[0].Req? && Flagged(w.q.items[0].rq)
    case Issue => w.q.items != [] && Ready(w.q.caps, w.q.items[0])
    case Requeue(id) => id in w.driver
    case RequeueFlush => w.issued.Some? && w.q.run.Running? && w.q.run.todo != []
    case Complete(id, err) => id in w.driver
    case CompleteFlush(err) => w.issued.Some? && w.q.run.Running? && w.q.run.todo != []
    case Writeback(ids) => ids <= w.disk.completed
  }

  /** generic_make_request strips the flags on a queue without a cache to flush. */
  function Admit(caps: Caps, rq: Rq): Rq {
    if caps.flush then rq else rq.(flush := false, fua := false)
  }

  /** ... and ends the request at once if nothing is left of it. */
  predicate EndsAtOnce(caps: Caps, rq: Rq) {
    Flagged(rq) && !caps.flush && !HasData(rq)
  }

  function NextQueue(w: World, step: Step): (q: Queue)
    requires Enabled(w, step)
    ensures q.caps == w.q.caps
  {
    var q := w.q;
    match step
    case Submit(rq, where) =>
      var r := Req(Admit(q.caps, rq));
      if EndsAtOnce(q.caps, rq) then q.(ended := q.ended + [Ended(rq.id, 0)])
      else if where == Front then q.(items := [r] + q.items)
      else if where == Back then q.(items := q.items + [r])
      else q
    case Dispatch(i) => q.(items := q.items + [Req(w.elevator[i])])
    case Examine => DoFlush(q)
    case Issue => q.(items := q.items[1..])
    case Requeue(id) => q.(items := [Req(w.driver[id])] + q.items)
    case RequeueFlush => q.(items := [FlushRq(q.run.todo[0])] + q.items)
    case Complete(id, err) => q.(ended := q.ended + [Ended(id, err)])
    case CompleteFlush(err) => CompleteSeq(q, err)
    case Writeback(_) => q
  }

  function NextElevator(w: World, step: Step): seq<Rq>
    requires Enabled(w, step)
  {
    match step
    case Submit(rq, where) =>
      if where == Elevator && !EndsAtOnce(w.q.caps, rq) then w.elevator + [Admit(w.q.caps, rq)] else w.elevator
    case Dispatch(i) => w.elevator[..i] + w.elevator[i + 1..]
    case _ => w.elevator
  }

  function NextDriver(w: World, step: Step): map<nat, Rq>
    requires Enabled(w, step)
  {
    match step
    case Issue => if w.q.items[0].Req? then w.driver[w.q.items[0].rq.id := w.q.items[0].rq] else w.driver
    case Requeue(id) => w.driver - {id}
    case Complete(id, _) => w.driver - {id}
    case _ => w.driver
  }

  function NextIssued(w: World, step: Step): Option<set<nat>>
    requires Enabled(w, step)
  {
    match step
    case Issue => if w.q.items[0].FlushRq? then Some(w.disk.completed) else w.issued
    case RequeueFlush => None
    case CompleteFlush(_) => None
    case _ => w.issued
  }

  /**
   * The device acknowledges a write. The write is durable at once if it went
   * through the cache (FUA) or if there is no cache; otherwise it is durable
   * only after a write back or a flush.
   */
  function WriteDone(caps: Caps, disk: Disk, rq: Rq): Disk {
    if !rq.write || !HasData(rq) then disk
    else Disk(disk.completed + {rq.id},
              if (rq.fua && caps.fua) || !caps.flush then disk.durable + {rq.id} else disk.durable)
  }

  /** A flush that succeeds makes every write durable that had completed when it was issued. */
  function NextDisk(w: World, step: Step): (disk: Disk)
    requires Enabled(w, step)
    ensures w.disk.completed <= disk.completed && w.disk.durable <= disk.durable
  {
    match step
    case Complete(id, err) => if err == 0 then WriteDone(w.q.caps, w.disk, w.driver[id]) else w.disk
    case CompleteFlush(err) =>
      if err != 0 then w.disk
      else if w.q.run.todo[0] == Data then WriteDone(w.q.caps, w.disk, w.q.run.orig)
      else w.disk.(durable := w.disk.durable + w.issued.value)
    case Writeback(ids) => w.disk.(durable := w.disk.durable + ids)
    case _ => w.disk
  }

  // The request whose data goes to the device in this step, if any.
  function DataIssued(w: World, step: Step): Option<nat> {
    if !step.Issue? || w.q.items == [] then None
    else match w.q.items[0]
      case Req(rq) => Some(rq.id)
      case FlushRq(stage) => if stage == Data && w.q.run.Running? then Some(w.q.run.orig.id) else None
  }

  function NextHistory(w: World, step: Step): History
    requires Enabled(w, step)
  {
    var h := w.hist;
    match step
    case Submit(rq, _) =>
      h.(asked := h.asked[rq.id := rq], before := h.before[rq.id := w.disk.completed],
         reports := h.reports[rq.id := []])
    case Examine =>
      var rq := w.q.items[0].rq;
      if Starts(w.q, rq) then h.(before := h.before[rq.id := w.disk.completed]) else h
    case CompleteFlush(err) =>
      var id := w.q.run.orig.id;
      h.(reports := h.reports[id := (if id in h.reports then h.reports[id] else []) +
                                    [Report(w.q.run.todo[0], err)]])
    case Issue =>
      var d := DataIssued(w, step);
      if d.Some? && d.value !in h.dataAt then h.(dataAt := h.dataAt[d.value := w.disk.durable]) else h
    case _ => h
  }

  function Apply(w: World, step: Step): World
    requires Enabled(w, step)
  {
    World(NextQueue(w, step), NextElevator(w, step), NextDriver(w, step), NextIssued(w, step),
          NextDisk(w, step), NextHistory(w, step))
  }

  predicate CanRun(w: World, steps: seq<Step>)
    decreases |steps|
  {
    steps == [] || (Enabled(w, steps[0]) && CanRun(Apply(w, steps[0]), steps[1..]))
  }

  function RunAll(w: World, steps: seq<Step>): World
    requires CanRun(w, steps)
    decreases |steps|
  {
    if steps == [] then w else RunAll(Apply(w, steps[0]), steps[1..])
  }
}
