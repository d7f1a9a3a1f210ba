/**
 * The deadline I/O scheduler as a transition system. Requests wait in two
 * indexes per direction, one by sector and one by age; dispatching runs in
 * batches, and reads may starve writes only for so long.
 */
module DeadlineSpec {
  import opened Block
  import opened Lists

  // A waiting request: where it starts on the disk, how long it is, and when it expires.
  datatype Item = Item(write: bool, sector: nat, sectors: nat, expire: nat)

  // sort_list, fifo_list and next_rq of one direction
  datatype Side = Side(sorted: seq<nat>, fifo: seq<nat>, next: Option<nat>)

  // The tunables.
  datatype Settings = Settings(readExpire: nat, writeExpire: nat, fifoBatch: nat, writesStarved: nat)

  datatype State = State(
    items: map<nat, Item>,   // every request the scheduler has seen
    rd: Side,
    wr: Side,
    batching: nat,
    starved: nat,
    lastSector: nat,
    dispatched: seq<nat>,    // the dispatch queue
    nrSorted: nat            // the elevator's count of waiting requests
  )

  function SideOf(s: State, write: bool): Side {
    if write then s.wr else s.rd
  }

  function WithSide(s: State, write: bool, d: Side): State {
    if write then s.(wr := d) else s.(rd := d)
  }

  function Init(): State {
    State(map[], Side([], [], None), Side([], [], None), 0, 0, 0, [], 0)
  }

  // ----- lists -------------------------------------------------------------

  /** The element after `x` (rb_next in the sorted index). */
  function After(s: seq<nat>, x: nat): Option<nat> {
    if s == [] then None
    else if s[0] == x then (if |s| > 1 then Some(s[1]) else None)
    else After(s[1..], x)
  }

  function Sector(items: map<nat, Item>, x: nat): nat {
    if x in items then items[x].sector else 0
  }

  function Expire(items: map<nat, Item>, x: nat): nat {
    if x in items then items[x].expire else 0
  }

  /** The request that starts at the same sector, if any (what elv_rb_add runs into). */
  function Alias(items: map<nat, Item>, sorted: seq<nat>, sector: nat): Option<nat> {
    if sorted == [] then None
    else if Sector(items, sorted[0]) == sector then Some(sorted[0])
    else Alias(items, sorted[1..], sector)
  }

  /** Insert by sector. */
  function Insert(items: map<nat, Item>, sorted: seq<nat>, x: nat): seq<nat> {
    if sorted == [] || Sector(items, x) < Sector(items, sorted[0]) then [x] + sorted
    else [sorted[0]] + Insert(items, sorted[1..], x)
  }

  // ----- operations --------------------------------------------------------

  /** deadline_remove_request */
  function Remove(d: Side, x: nat): Side {
    Side(Without(d.sorted, x), Without(d.fifo, x), if d.next == Some(x) then After(d.sorted, x) else d.next)
  }

  /** deadline_move_request: to the tail of the dispatch queue, and the batch goes on after it */
  function Move(s: State, x: nat): State
    requires x in s.items
  {
    var w := s.items[x].write;
    var s1 := s.(rd := s.rd.(next := None), wr := s.wr.(next := None));
    var d := SideOf(s1, w).(next := After(SideOf(s1, w).sorted, x));
    WithSide(s1, w, Remove(d, x)).(
      lastSector := s.items[x].sector + s.items[x].sectors,
      dispatched := s.dispatched + [x],
      nrSorted := if s.nrSorted > 0 then s.nrSorted - 1 else 0)
  }

  /** deadline_add_rq_rb: an alias is sent off to make room */
  function AddSorted(s: State, x: nat): State
    requires x in s.items
  {
    var w := s.items[x].write;
    var alias := Alias(s.items, SideOf(s, w).sorted, s.items[x].sector);
    var s1 := if alias.Some? && alias.value in s.items then Move(s, alias.value) else s;
    WithSide(s1, w, SideOf(s1, w).(sorted := Insert(s1.items, SideOf(s1, w).sorted, x)))
  }

  /** elv_insert and deadline_add_request */
  function Add(cfg: Settings, s: State, x: nat, write: bool, sector: nat, sectors: nat, now: nat): State {
    var expire := now + if write then cfg.writeExpire else cfg.readExpire;
    var s1 := AddSorted(s.(items := s.items[x := Item(write, sector, sectors, expire)], nrSorted := s.nrSorted + 1), x);
    WithSide(s1, write, SideOf(s1, write).(fifo := SideOf(s1, write).fifo + [x]))
  }

  /** A bio merged at the back: the request gets longer. */
  function BackMerged(s: State, x: nat, sectors: nat): State
    requires x in s.items
  {
    s.(items := s.items[x := s.items[x].(sectors := sectors)])
  }

  /** A bio merged at the front: the request starts earlier and is repositioned (deadline_merged_request). */
  function FrontMerged(s: State, x: nat, sector: nat, sectors: nat): State
    requires x in s.items
  {
    var w := s.items[x].write;
    var s1 := s.(items := s.items[x := s.items[x].(sector := sector, sectors := sectors)]);
    AddSorted(WithSide(s1, w, SideOf(s1, w).(sorted := Without(SideOf(s1, w).sorted, x))), x)
  }

  function InsertAfter(s: seq<nat>, x: nat, y: nat): seq<nat> {
    if s == [] then [] else if s[0] == y then [y, x] + s[1..] else [s[0]] + InsertAfter(s[1..], x, y)
  }

  /** Put `x` right after `y` (list_move). */
  function MoveAfter(s: seq<nat>, x: nat, y: nat): seq<nat> {
    InsertAfter(Without(s, x), x, y)
  }

  /** deadline_merged_requests: `x` swallows `y`, and its place in the queue if that is better */
  function Joined(s: State, x: nat, y: nat, sectors: nat): State
    requires x in s.items && y in s.items
  {
    var w := s.items[x].write;
    var better := s.items[y].expire < s.items[x].expire;
    var d := SideOf(s, w);
    var d1 := if better then d.(fifo := MoveAfter(d.fifo, x, y)) else d;
    var item := s.items[x].(sectors := sectors, expire := if better then s.items[y].expire else s.items[x].expire);
    WithSide(s, w, Remove(d1, y)).(
      items := s.items[x := item],
      nrSorted := if s.nrSorted > 0 then s.nrSorted - 1 else 0)
  }

  // ----- dispatching -------------------------------------------------------

  /** The request that continues the running batch, if there is one and it may go on. */
  function Continued(cfg: Settings, s: State): Option<nat> {
    var next := if s.wr.next.Some? then s.wr.next else s.rd.next;
    if next.Some? && s.batching < cfg.fifoBatch then next else None
  }

  /** Which direction gets the next batch: reads, unless they have starved the writes long enough. */
  function TakeWrites(cfg: Settings, s: State): bool {
    s.wr.fifo != [] && (s.rd.fifo == [] || s.starved >= cfg.writesStarved)
  }

  /** deadline_dispatch_requests; None if nothing waits */
  function Choose(cfg: Settings, s: State, now: nat): Option<nat> {
    if Continued(cfg, s).Some? then Continued(cfg, s)
    else
      var d := SideOf(s, TakeWrites(cfg, s));
      if d.fifo == [] then None
      else if now > Expire(s.items, d.fifo[0]) || d.next.None? then Some(d.fifo[0])
      else d.next
  }

  function Dispatch(cfg: Settings, s: State, now: nat): State
    requires Choose(cfg, s, now).Some? ==> Choose(cfg, s, now).value in s.items
  {
    var rq := Choose(cfg, s, now);
    if rq.None? then s
    else if Continued(cfg, s).Some? then Move(s, rq.value).(batching := s.batching + 1)
    else
      var starved :=
        if TakeWrites(cfg, s) then 0 else if s.wr.fifo != [] then s.starved + 1 else s.starved;
      Move(s, rq.value).(batching := 1, starved := starved)
  }
}
