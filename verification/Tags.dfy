/**
 * Tagged command queueing (blk-tag.c): a bit map of busy tags, an index from
 * tags to requests, and the list of tagged requests, newest first.
 */
module Tags {
  import opened Block
  import opened Lists

  const BITS_PER_LONG := 64

  const BLKDEV_MIN_RQ := 4      // the least nr_requests that can be set

  const BLKDEV_MAX_RQ := 128    // and what it is by default

  /** ALIGN(depth, BITS_PER_LONG) */
  function Align(depth: nat): (n: nat)
    ensures depth <= n
  {
    (depth + BITS_PER_LONG - 1) / BITS_PER_LONG * BITS_PER_LONG
  }

  ghost predicate Outstanding(tags: map<nat, nat>, t: nat) {
    exists r :: r in tags && tags[r] == t
  }

  /**
   * Set bits, used index slots and tagged requests are in one-to-one
   * correspondence: a request's tag is the slot it is in. A request whose tag is
   * beyond the map has lost its slot, though perhaps not its bit.
   */
  ghost predicate Agree(bits: seq<bool>, index: seq<Option<nat>>, tags: map<nat, nat>, busy: seq<nat>) {
    && |index| <= |bits|
    && (forall t | 0 <= t < |index| :: bits[t] <==> index[t].Some?)
    && (forall t | |index| <= t < |bits| && bits[t] :: Outstanding(tags, t))
    && (forall t | 0 <= t < |index| && index[t].Some? :: index[t].value in tags && tags[index[t].value] == t)
    && (forall r | r in tags && tags[r] < |index| :: index[tags[r]] == Some(r))
    && (forall r, s | r in tags && s in tags && tags[r] == tags[s] :: r == s)
    && Distinct(busy)
    && (forall r :: r in busy <==> r in tags)
  }

  /** No tag is beyond a map of size `n`. */
  ghost predicate Within(tags: map<nat, nat>, n: nat) {
    forall r | r in tags :: tags[r] < n
  }

  /**
   * If no tag is beyond the map: a bit is set if and only if a request has that
   * tag, and only one has.
   */
  lemma Bijection(bits: seq<bool>, index: seq<Option<nat>>, tags: map<nat, nat>, busy: seq<nat>)
    requires Agree(bits, index, tags, busy) && Within(tags, |index|)
    ensures forall t | 0 <= t < |bits| :: bits[t] <==> Outstanding(tags, t)
    ensures forall t | 0 <= t < |index| :: index[t].Some? <==> Outstanding(tags, t)
    ensures forall r, s | r in tags && s in tags && tags[r] == tags[s] :: r == s
  {
    forall t | 0 <= t < |bits|
      ensures bits[t] <==> Outstanding(tags, t)
    {
      if t < |index| && index[t].Some? {
        assert tags[index[t].value] == t;
      }
    }
  }

  /** Later starts stand first. */
  ghost predicate NewestFirst(busy: seq<nat>, startedAt: map<nat, nat>) {
    busy != [] ==>
      && busy[0] in startedAt
      && (forall r | r in busy[1..] :: r in startedAt && startedAt[r] < startedAt[busy[0]])
      && NewestFirst(busy[1..], startedAt)
  }

  lemma {:induction false} SameStarts(busy: seq<nat>, startedAt: map<nat, nat>, startedAt': map<nat, nat>)
    requires NewestFirst(busy, startedAt)
    requires forall s | s in busy && s in startedAt :: s in startedAt' && startedAt'[s] == startedAt[s]
    ensures NewestFirst(busy, startedAt')
  {
    if busy != [] {
      InHeadTail(busy);
      SameStarts(busy[1..], startedAt, startedAt');
    }
  }

  /** What the busy list and the times of starting keep between calls. */
  ghost predicate Timed(busy: seq<nat>, startedAt: map<nat, nat>, clock: nat) {
    NewestFirst(busy, startedAt) && forall r | r in busy :: r in startedAt && startedAt[r] < clock
  }

  lemma TimedStart(busy: seq<nat>, startedAt: map<nat, nat>, clock: nat, r: nat)
    requires Timed(busy, startedAt, clock) && r !in busy
    ensures Timed([r] + busy, startedAt[r := clock], clock + 1)
  {
    SameStarts(busy, startedAt, startedAt[r := clock]);
    assert ([r] + busy)[1..] == busy;
    InHeadTail([r] + busy);
  }

  lemma {:induction false} NewestFirstWithout(busy: seq<nat>, startedAt: map<nat, nat>, r: nat)
    requires NewestFirst(busy, startedAt)
    ensures NewestFirst(Without(busy, r), startedAt)
  {
    if busy != [] {
      NewestFirstWithout(busy[1..], startedAt, r);
      WithoutIn(busy[1..], r);
      var t := Without(busy[1..], r);
      assert ([busy[0]] + t)[1..] == t;
      assert [] + t == t;
    }
  }

  lemma TimedEnd(busy: seq<nat>, startedAt: map<nat, nat>, clock: nat, r: nat)
    requires Timed(busy, startedAt, clock)
    ensures Timed(Without(busy, r), startedAt, clock)
  {
    NewestFirstWithout(busy, startedAt, r);
    WithoutIn(busy, r);
  }

  lemma BusyIsTagged(bits: seq<bool>, index: seq<Option<nat>>, tags: map<nat, nat>, busy: seq<nat>)
    requires Agree(bits, index, tags, busy)
    ensures forall r :: r in busy <==> r in tags
  {
  }

  lemma StartDistinct(busy: seq<nat>, r: nat)
    requires Distinct(busy) && r !in busy
    ensures Distinct([r] + busy)
  {
    assert ([r] + busy)[1..] == busy;
  }

  lemma AgreeStart(bits: seq<bool>, index: seq<Option<nat>>, tags: map<nat, nat>, busy: seq<nat>, r: nat, t: nat)
    requires Agree(bits, index, tags, busy) && r !in tags && t < |index| && !bits[t]
    ensures Agree(bits[t := true], index[t := Some(r)], tags[r := t], [r] + busy)
  {
    hide Distinct;
    var tags' := tags[r := t];
    forall u | |index| <= u < |bits| && bits[u]
      ensures Outstanding(tags', u)
    {
      var s :| s in tags && tags[s] == u;
      assert tags'[s] == u;
    }
    StartDistinct(busy, r);
    InHeadTail([r] + busy);
    assert ([r] + busy)[1..] == busy;
  }

  lemma AgreeEnd(bits: seq<bool>, index: seq<Option<nat>>, tags: map<nat, nat>, busy: seq<nat>, r: nat)
    requires Agree(bits, index, tags, busy) && r in tags && tags[r] < |index|
    ensures Agree(bits[tags[r] := false], index[tags[r] := None], tags - {r}, Without(busy, r))
  {
    hide Distinct, Without;
    var tags' := tags - {r};
    forall u | |index| <= u < |bits| && bits[u]
      ensures Outstanding(tags', u)
    {
      var s :| s in tags && tags[s] == u;
      assert s in tags' && tags'[s] == u;
    }
    WithoutIn(busy, r);
    WithoutDistinct(busy, r);
  }

  /** No tag that was beyond a map of size `n` is within one of size `m`. */
  ghost predicate NoneReturns(tags: map<nat, nat>, n: nat, m: nat) {
    forall r | r in tags :: tags[r] < n || m <= tags[r]
  }

  /** A larger map that starts with the old one and is empty after it agrees unless a lost tag returns. */
  lemma AgreeGrow(bits: seq<bool>, index: seq<Option<nat>>, tags: map<nat, nat>, busy: seq<nat>,
                  bits': seq<bool>, index': seq<Option<nat>>)
    requires Agree(bits, index, tags, busy) && |index| <= |index'| <= |bits'| && |bits| <= |bits'|
    requires bits'[..|bits|] == bits && (forall t | |bits| <= t < |bits'| :: !bits'[t])
    requires index'[..|index|] == index && (forall t | |index| <= t < |index'| :: index'[t] == None)
    ensures Agree(bits', index', tags, busy) <==> NoneReturns(tags, |index|, |index'|)
  {
    hide Distinct;
    assert forall t | 0 <= t < |bits| :: bits'[t] == bits[t];
    assert forall t | 0 <= t < |index| :: index'[t] == index[t];
  }

  /** A smaller map that the old one was cut down to: the tags beyond it have lost their slots. */
  lemma AgreeCut(bits: seq<bool>, index: seq<Option<nat>>, tags: map<nat, nat>, busy: seq<nat>, n: nat, m: nat)
    requires Agree(bits, index, tags, busy) && m <= |index| && m <= n <= |bits|
    ensures Agree(bits[..n], index[..m], tags, busy)
  {
    hide Distinct;
    forall t | m <= t < n && bits[t]
      ensures Outstanding(tags, t)
    {
      if t < |index| {
        assert tags[index[t].value] == t;
      }
    }
  }

  /** Every earlier start stands before every later one. */
  ghost predicate OldestFirst(s: seq<nat>, startedAt: map<nat, nat>) {
    && (forall r | r in s :: r in startedAt)
    && (forall i, j | 0 <= i < j < |s| :: startedAt[s[i]] < startedAt[s[j]])
  }

  /** Turned round, the busy list is in the order of starting. */
  lemma {:induction false} StartOrder(busy: seq<nat>, startedAt: map<nat, nat>)
    requires NewestFirst(busy, startedAt)
    ensures forall r :: r in Reverse(busy) <==> r in busy
    ensures OldestFirst(Reverse(busy), startedAt)
  {
    if busy != [] {
      InHeadTail(busy);
      StartOrder(busy[1..], startedAt);
    }
  }

  lemma AlignMonotone(a: nat, b: nat)
    requires a <= b
    ensures Align(a) <= Align(b)
  {
  }

  /** init_tag_map: a queue's map is never larger than twice its requests */
  function Clamped(nrRequests: nat, depth: nat): nat {
    if depth > nrRequests * 2 then nrRequests * 2 else depth
  }

  /** When a new map is made, the old one fits in it if and only if twice nr_requests is not below its size. */
  lemma OldMapFits(nrRequests: nat, size: nat, depth: nat)
    requires depth > size
    ensures size <= Clamped(nrRequests, depth) <==> size <= 2 * nrRequests
    ensures size <= 2 * nrRequests ==> Align(size) <= Align(Clamped(nrRequests, depth))
  {
    if size <= 2 * nrRequests {
      AlignMonotone(size, Clamped(nrRequests, depth));
    }
  }

  // ----- requests in flight ------------------------------------------------

  /** How many of the requests are asynchronous. */
  function Async(sync: nat -> bool, busy: seq<nat>): nat {
    if busy == [] then 0 else (if sync(busy[0]) then 0 else 1) + Async(sync, busy[1..])
  }

  lemma {:induction false} AsyncWithout(sync: nat -> bool, busy: seq<nat>, r: nat)
    requires Distinct(busy)
    ensures Async(sync, Without(busy, r)) == Async(sync, busy) - (if r in busy && !sync(r) then 1 else 0)
  {
    if busy != [] {
      InHeadTail(busy);
      AsyncWithout(sync, busy[1..], r);
      var t := Without(busy[1..], r);
      assert ([busy[0]] + t)[1..] == t;
      assert [] + t == t;
    }
  }

  lemma AsyncStart(sync: nat -> bool, busy: seq<nat>, r: nat)
    ensures Async(sync, [r] + busy) == Async(sync, busy) + if sync(r) then 0 else 1
  {
    assert ([r] + busy)[1..] == busy;
  }

  datatype ResizeResult = Resized | Busy | NoMemory | Overrun

  /** A map of another size that holds what there is room for. */
  lemma Replaced(bits: seq<bool>, index: seq<Option<nat>>, tags: map<nat, nat>, busy: seq<nat>,
                 bits': seq<bool>, index': seq<Option<nat>>)
    requires Agree(bits, index, tags, busy) && |bits| == Align(|index|) && |bits'| == Align(|index'|)
    requires forall t | 0 <= t < |bits'| :: bits'[t] <==> t < |bits| && bits[t]
    requires forall t | 0 <= t < |index'| :: index'[t] == if t < |index| then index[t] else None
    ensures Agree(bits', index', tags, busy) <==> NoneReturns(tags, |index|, |index'|)
  {
    hide Agree, Align;
    if |index'| < |index| {
      AlignMonotone(|index'|, |index|);
      assert index' == index[..|index'|] && bits' == bits[..|bits'|];
      AgreeCut(bits, index, tags, busy, |bits'|, |index'|);
    } else {
      AlignMonotone(|index|, |index'|);
      assert index'[..|index|] == index && bits'[..|bits|] == bits;
      AgreeGrow(bits, index, tags, busy, bits', index');
    }
  }

  lemma BeyondMap(tags: map<nat, nat>, n: nat, r: nat)
    requires r in tags && tags[r] >= n
    ensures !Within(tags, n)
  {
  }

  lemma NoTags(tags: map<nat, nat>, n: nat)
    requires forall r :: r !in tags
    ensures Within(tags, n) && tags == map[]
  {
  }

  lemma StartTimes(busy: seq<nat>, startedAt: map<nat, nat>, clock: nat)
    requires Timed(busy, startedAt, clock)
    ensures OldestFirst(Reverse(busy), startedAt)
  {
    StartOrder(busy, startedAt);
  }

  lemma WithoutHead(s: seq<nat>)
    requires s != [] && Distinct(s)
    ensures Without(s, s[0]) == s[1..]
  {
    WithoutAbsent(s[1..], s[0]);
  }

  lemma WithinStart(tags: map<nat, nat>, n: nat, r: nat, t: nat)
    requires r !in tags && t < n
    ensures Within(tags[r := t], n) <==> Within(tags, n)
  {
    if Within(tags[r := t], n) {
      forall s | s in tags
        ensures tags[s] < n
      {
        assert tags[r := t][s] == tags[s];
      }
    }
  }

  lemma WithinEnd(tags: map<nat, nat>, n: nat, r: nat)
    requires r in tags && tags[r] < n
    ensures Within(tags - {r}, n) <==> Within(tags, n)
  {
    if Within(tags - {r}, n) {
      forall s | s in tags
        ensures tags[s] < n
      {
        assert s != r ==> (tags - {r})[s] == tags[s];
      }
    }
  }

  lemma WithinMore(tags: map<nat, nat>, n: nat, m: nat)
    ensures n <= m && Within(tags, n) ==> Within(tags, m)
    ensures m <= n && Within(tags, m) ==> Within(tags, n)
    ensures m <= n || Within(tags, n) ==> NoneReturns(tags, n, m)
  {
  }

  lemma DistinctBusy(bits: seq<bool>, index: seq<Option<nat>>, tags: map<nat, nat>, busy: seq<nat>)
    requires Agree(bits, index, tags, busy)
    ensures Distinct(busy)
  {
  }

  class TagQueue {
    const sync: nat -> bool            // rq_is_sync
    var nrRequests: nat                // q->nr_requests
    var maxDepth: nat
    var realMaxDepth: nat
    var tagMap: array<bool>
    var tagIndex: array<Option<nat>>
    var refcnt: nat
    var busyList: seq<nat>             // tag_busy_list
    var tags: map<nat, nat>            // rq->tag of the requests that have one
    var queue: seq<nat>                // queue_head
    var asyncInFlight: nat             // in_flight[BLK_RW_ASYNC]
    ghost var clock: nat               // starts so far
    ghost var startedAt: map<nat, nat> // when each request was last started

    ghost predicate Valid()
      reads this, tagMap, tagIndex
    {
      && tagIndex.Length == realMaxDepth && tagMap.Length == Align(realMaxDepth) && maxDepth <= realMaxDepth
      && Agree(tagMap[..], tagIndex[..], tags, busyList)
      && (forall r | r in queue :: r !in tags)
      && Timed(busyList, startedAt, clock)
      && Async(sync, busyList) <= asyncInFlight
    }

    /** No outstanding tag is beyond the map. */
    ghost predicate Whole()
      reads this
    {
      Within(tags, realMaxDepth)
    }

    /** blk_queue_init_tags, init_tag_map */
    constructor (nrRequests: nat, depth: nat, sync: nat -> bool)
      ensures Valid() && Whole() && tags == map[] && queue == [] && fresh(tagMap) && fresh(tagIndex) && busyList == []
      ensures maxDepth == realMaxDepth == Clamped(nrRequests, depth)
      ensures this.nrRequests == nrRequests && this.sync == sync && refcnt == 1
      ensures forall t | 0 <= t < tagMap.Length :: !tagMap[t]
    {
      var d := Clamped(nrRequests, depth);
      this.nrRequests, this.sync := nrRequests, sync;
      maxDepth, realMaxDepth := d, d;
      tagMap := new bool[Align(d)](_ => false);
      tagIndex := new Option<nat>[d](_ => None);
      refcnt, busyList, tags, queue, asyncInFlight := 1, [], map[], [], 0;
      clock, startedAt := 0, map[];
    }

    /** How many tags a request may choose from: a few are kept for synchronous ones. */
    function Depth(sync: bool): nat
      reads this
    {
      if sync || maxDepth <= 1 then maxDepth else if maxDepth == 2 then 1 else maxDepth - 2
    }

    /** find_first_zero_bit */
    method FirstZero(depth: nat) returns (tag: nat)
      requires depth <= tagMap.Length
      ensures tag <= depth && (tag < depth ==> !tagMap[tag])
      ensures forall t | 0 <= t < tag :: tagMap[t]
    {
      tag := 0;
      while tag < depth && tagMap[tag]
        invariant tag <= depth && forall t | 0 <= t < tag :: tagMap[t]
      {
        tag := tag + 1;
      }
    }

    /** The lowest free tag this kind of request may have, or nothing */
    method FreeTag(sync: bool) returns (tag: Option<nat>)
      requires Valid()
      ensures tag.Some? <==>
        && (sync || maxDepth <= 1 || asyncInFlight <= Depth(sync))
        && exists t :: 0 <= t < Depth(sync) && !tagMap[t]
      ensures tag.Some? ==> tag.value < Depth(sync) && !tagMap[tag.value] && forall t | 0 <= t < tag.value :: tagMap[t]
    {
      hide Agree, Align, Timed, Async;
      var depth := maxDepth;
      if !sync && depth > 1 {
        depth := depth - 2;
        if depth == 0 {
          depth := 1;
        }
        if asyncInFlight > depth {
          return None;
        }
      }
      var tag' := FirstZero(depth);
      return if tag' >= depth then None else Some(tag');
    }

    method SetSlot(tag: nat, r: Option<nat>)
      requires tag < tagIndex.Length && tag < tagMap.Length
      modifies tagMap, tagIndex
      ensures tagMap[..] == old(tagMap[..])[tag := r.Some?] && tagIndex[..] == old(tagIndex[..])[tag := r]
    {
      tagMap[tag] := r.Some?;
      tagIndex[tag] := r;
    }

    method TakeTag(r: nat, tag: nat)
      requires Valid() && r !in tags && r in queue && tag < realMaxDepth && !tagMap[tag]
      modifies this`tags, this`busyList, this`queue, this`clock, this`startedAt, this`asyncInFlight, tagMap, tagIndex
      ensures Valid()
      ensures tags == old(tags)[r := tag] && busyList == [r] + old(busyList) && queue == Without(old(queue), r)
      ensures startedAt == old(startedAt)[r := old(clock)] && clock == old(clock) + 1
      ensures tagMap[..] == old(tagMap[..])[tag := true] && tagIndex[..] == old(tagIndex[..])[tag := Some(r)]
      ensures asyncInFlight == old(asyncInFlight) + if sync(r) then 0 else 1
    {
      hide Agree, Without, Align, Timed, Async, Within;
      ghost var bits, index := tagMap[..], tagIndex[..];
      BusyIsTagged(bits, index, tags, busyList);
      AgreeStart(bits, index, tags, busyList, r, tag);
      AsyncStart(sync, busyList, r);
      WithoutIn(queue, r);
      TimedStart(busyList, startedAt, clock, r);
      SetSlot(tag, Some(r));
      tags := tags[r := tag];
      queue := Without(queue, r);
      startedAt, clock := startedAt[r := clock], clock + 1;
      asyncInFlight := asyncInFlight + if sync(r) then 0 else 1;
      busyList := [r] + busyList;
    }

    /**
     * blk_queue_start_tag, for a request that has no tag: it gets the lowest free
     * one and is in flight, or nothing changes because there is none, or because
     * too many asynchronous requests are under way.
     */
    method StartTag(r: nat) returns (ok: bool)
      requires Valid() && r !in tags && r in queue
      modifies this`tags, this`busyList, this`queue, this`clock, this`startedAt, this`asyncInFlight, tagMap, tagIndex
      ensures Valid() && (old(Whole()) <==> Whole())
      ensures ok <==>
        && (sync(r) || maxDepth <= 1 || old(asyncInFlight) <= Depth(sync(r)))
        && exists t :: 0 <= t < Depth(sync(r)) && !old(tagMap[..])[t]
      ensures ok ==>
        && r in tags && tags == old(tags)[r := tags[r]] && tags[r] < Depth(sync(r))
        && !old(tagMap[..])[tags[r]] && (forall t | 0 <= t < tags[r] :: old(tagMap[..])[t])
        && tagMap[..] == old(tagMap[..])[tags[r] := true]
        && busyList == [r] + old(busyList) && queue == Without(old(queue), r)
        && startedAt == old(startedAt)[r := old(clock)] && clock == old(clock) + 1
        && asyncInFlight == old(asyncInFlight) + if sync(r) then 0 else 1
      ensures ok ==> tags[r] < maxDepth && (!sync(r) && maxDepth > 2 ==> tags[r] + 2 < maxDepth)
      ensures !ok ==>
        && tags == old(tags) && busyList == old(busyList) && queue == old(queue)
        && asyncInFlight == old(asyncInFlight) && tagMap[..] == old(tagMap[..])
    {
      hide Agree, Without, Align, Timed, Async, Within;
      var tag := FreeTag(sync(r));
      if tag == None {
        return false;
      }
      WithinStart(tags, realMaxDepth, r, tag.value);
      TakeTag(r, tag.value);
      return true;
    }

    /**
     * blk_queue_end_tag. A request whose tag is beyond the map is left alone; for
     * the others neither complaint, a missing tag or a free one, ever comes up.
     */
    method EndTag(r: nat) returns (ended: bool)
      requires Valid() && r in tags
      modifies this`tags, this`busyList, tagMap, tagIndex
      ensures Valid() && (old(Whole()) <==> Whole())
      ensures ended <==> old(tags[r]) < realMaxDepth
      ensures !ended ==> tags == old(tags) && busyList == old(busyList) && tagMap[..] == old(tagMap[..])
      ensures ended ==> tags == old(tags) - {r} && busyList == Without(old(busyList), r)
      ensures ended ==> tagMap[..] == old(tagMap[..])[old(tags[r]) := false]
    {
      hide Without, Align, Distinct, Timed, Async;
      ghost var bits, index := tagMap[..], tagIndex[..];
      var tag := tags[r];
      if tag >= realMaxDepth {
        return false;
      }
      AgreeEnd(bits, index, tags, busyList, r);
      WithinEnd(tags, realMaxDepth, r);
      TimedEnd(busyList, startedAt, clock, r);
      AsyncWithout(sync, busyList, r);
      busyList := Without(busyList, r);
      tags := tags - {r};
      assert tagIndex[tag] == Some(r) && tagMap[tag];
      SetSlot(tag, None);
      return true;
    }

    /** One request fewer in flight: its account covers the busy ones */
    method Land(r: nat)
      requires Async(sync, busyList) + (if sync(r) then 0 else 1) <= asyncInFlight
      modifies this`asyncInFlight
      ensures asyncInFlight == old(asyncInFlight) - if sync(r) then 0 else 1
    {
      if !sync(r) {
        asyncInFlight := asyncInFlight - 1;
      }
    }

    /**
     * blk_finish_request, up to elv_completed_request: the tag is given back and
     * the request no longer in flight. Its BUG_ON, a request that is still on a
     * list, is hit exactly if the tag is beyond the map.
     */
    method Finish(r: nat) returns (ok: bool)
      requires Valid() && r in tags
      modifies this`tags, this`busyList, this`asyncInFlight, tagMap, tagIndex
      ensures Valid() && (old(Whole()) <==> Whole()) && (ok <==> old(tags[r]) < realMaxDepth)
      ensures ok ==> tags == old(tags) - {r} && busyList == Without(old(busyList), r)
      ensures ok ==> asyncInFlight == old(asyncInFlight) - if sync(r) then 0 else 1
      ensures !ok ==> tags == old(tags) && busyList == old(busyList) && asyncInFlight == old(asyncInFlight)
    {
      hide Agree, Without, Align, Timed, Within, Async;
      BusyIsTagged(tagMap[..], tagIndex[..], tags, busyList);
      DistinctBusy(tagMap[..], tagIndex[..], tags, busyList);
      AsyncWithout(sync, busyList, r);
      ok := EndTag(r);
      if ok {
        Land(r);
      }
    }

    /** blk_requeue_request: back to the head of the queue, with the same BUG_ON */
    method Requeue(r: nat) returns (ok: bool)
      requires Valid() && r in tags
      modifies this`tags, this`busyList, this`queue, this`asyncInFlight, tagMap, tagIndex
      ensures Valid() && (old(Whole()) <==> Whole()) && (ok <==> old(tags[r]) < realMaxDepth)
      ensures ok ==> tags == old(tags) - {r} && busyList == Without(old(busyList), r) && queue == [r] + old(queue)
      ensures ok ==> asyncInFlight == old(asyncInFlight) - if sync(r) then 0 else 1
      ensures !ok ==>
        tags == old(tags) && busyList == old(busyList) && queue == old(queue) && asyncInFlight == old(asyncInFlight)
    {
      hide Agree, Without, Align, Timed, Within, Async;
      ok := Finish(r);
      if ok {
        queue := [r] + queue;
      }
    }

    /**
     * blk_queue_invalidate_tags: unless a tag is beyond the map, every outstanding
     * request goes back to the head of the queue, and they stand there in the order
     * in which they were started: the times of their starts ascend.
     */
    method InvalidateTags() returns (ok: bool)
      requires Valid()
      modifies this`tags, this`busyList, this`queue, this`asyncInFlight, tagMap, tagIndex
      ensures Valid() && (ok <==> old(Whole()))
      ensures ok ==> tags == map[] && busyList == [] && queue == Reverse(old(busyList)) + old(queue)
      ensures OldestFirst(Reverse(old(busyList)), startedAt)
    {
      hide Agree, Without, Align, Timed, OldestFirst, Within, Async, Distinct;
      StartTimes(busyList, startedAt, clock);
      while busyList != []
        invariant Valid() && (old(Whole()) <==> Whole())
        invariant Reverse(busyList) + queue == Reverse(old(busyList)) + old(queue)
        decreases |busyList|
      {
        var r := busyList[0];
        assert r in busyList;
        BusyIsTagged(tagMap[..], tagIndex[..], tags, busyList);
        DistinctBusy(tagMap[..], tagIndex[..], tags, busyList);
        WithoutHead(busyList);
        ghost var rest, q := busyList[1..], queue;
        assert Reverse(rest) + [r] + q == Reverse(rest) + ([r] + q);
        ok := Requeue(r);
        if !ok {
          BeyondMap(tags, realMaxDepth, r);
          return;
        }
      }
      BusyIsTagged(tagMap[..], tagIndex[..], tags, busyList);
      assert forall r :: r in tags ==> r in busyList;
      NoTags(tags, realMaxDepth);
      ok := true;
    }

    method CopyIndex(d: nat, n: nat) returns (index: array<Option<nat>>)
      requires n <= d && n <= tagIndex.Length
      ensures fresh(index) && index.Length == d
      ensures forall t | 0 <= t < d :: index[t] == if t < n then tagIndex[t] else None
    {
      index := new Option<nat>[d](_ => None);
      forall t | 0 <= t < n {
        index[t] := tagIndex[t];
      }
    }

    method CopyMap(d: nat) returns (bits: array<bool>)
      ensures fresh(bits) && bits.Length == Align(d)
      ensures forall t | 0 <= t < bits.Length :: bits[t] <==> t < tagMap.Length && tagMap[t]
    {
      hide Align;
      bits := new bool[Align(d)](_ => false);
      forall t | 0 <= t < bits.Length && t < tagMap.Length {
        bits[t] := tagMap[t];
      }
    }

    /**
     * init_tag_map and the two copies, of which what is beyond the new map is lost.
     * The new map is right exactly if no tag that had lost its slot is within it.
     */
    method Replace(d: nat)
      requires Valid()
      modifies this`maxDepth, this`realMaxDepth, this`tagMap, this`tagIndex
      ensures maxDepth == realMaxDepth == d && tagIndex.Length == d
      ensures Valid() <==> NoneReturns(tags, old(realMaxDepth), d)
      ensures var n := if d < old(realMaxDepth) then d else old(realMaxDepth);
        tagIndex[..n] == old(tagIndex[..])[..n] && forall t | n <= t < d :: tagIndex[t] == None
    {
      hide Agree, Align, Timed, Async, NoneReturns;
      ghost var oldBits, oldIndex := tagMap[..], tagIndex[..];
      var n := if d < realMaxDepth then d else realMaxDepth;
      var index := CopyIndex(d, n);
      var bits := CopyMap(d);
      assert index[..n] == oldIndex[..n];
      Replaced(oldBits, oldIndex, tags, busyList, bits[..], index[..]);
      maxDepth, realMaxDepth := d, d;
      tagIndex, tagMap := index, bits;
    }

    /**
     * blk_queue_resize_tags. When a new map is made, the copy overruns it exactly
     * if twice nr_requests has meanwhile become less than its old size; the new map
     * is then the smaller one. Outstanding tags stay where they are, and they all
     * have a place unless the copy overran. The map is right again exactly if no
     * tag that an earlier overrun has put beyond it is now within it.
     */
    method Resize(depth: nat, memory: bool) returns (res: ResizeResult)
      requires Valid()
      modifies this`maxDepth, this`realMaxDepth, this`tagMap, this`tagIndex
      ensures res == if depth <= old(realMaxDepth) then Resized
                     else if refcnt != 1 then Busy
                     else if !memory then NoMemory
                     else if nrRequests * 2 < old(realMaxDepth) then Overrun
                     else Resized
      ensures depth <= old(realMaxDepth) ==> maxDepth == depth
      ensures res == Busy || res == NoMemory ==> maxDepth == old(maxDepth)
      ensures depth <= old(realMaxDepth) || res == Busy || res == NoMemory ==>
        realMaxDepth == old(realMaxDepth) && tagMap == old(tagMap) && tagIndex == old(tagIndex) && Valid()
      ensures depth > old(realMaxDepth) && (res == Resized || res == Overrun) ==>
        maxDepth == realMaxDepth == Clamped(nrRequests, depth)
      ensures res == Overrun <==> realMaxDepth < old(realMaxDepth)
      ensures var n := if res == Overrun then realMaxDepth else old(realMaxDepth);
        n <= tagIndex.Length && n <= old(tagIndex.Length) && tagIndex[..n] == old(tagIndex[..])[..n]
      ensures Valid() <==> NoneReturns(tags, old(realMaxDepth), realMaxDepth)
      ensures old(Whole()) || res == Overrun ==> Valid()
      ensures old(Whole()) && res != Overrun ==> Whole()
    {
      hide Agree, Align, Timed, Async, Within, NoneReturns;
      WithinMore(tags, realMaxDepth, realMaxDepth);
      assert tagIndex[..][..realMaxDepth] == tagIndex[..realMaxDepth];
      if depth <= realMaxDepth {
        maxDepth := depth;
        return Resized;
      }
      if refcnt != 1 {
        return Busy;
      }
      if !memory {
        return NoMemory;
      }
      OldMapFits(nrRequests, realMaxDepth, depth);
      var d := Clamped(nrRequests, depth);
      res := if d < realMaxDepth then Overrun else Resized;
      WithinMore(tags, realMaxDepth, d);
      Replace(d);
    }
  }

  /** Exactly the first `n` tags are taken. */
  ghost predicate FirstTaken(bits: seq<bool>, n: nat) {
    forall t | 0 <= t < |bits| :: bits[t] <==> t < n
  }

  lemma TakeNext(bits: seq<bool>, n: nat, t: nat)
    requires FirstTaken(bits, n) && t < |bits| && !bits[t] && forall u | 0 <= u < t :: bits[u]
    ensures t == n && FirstTaken(bits[t := true], n + 1)
  {
    assert n < |bits| ==> !bits[n];
  }

  method StartInTurn(q: TagQueue, r: nat)
    requires q.Valid() && q.sync(r) && r in q.queue && r !in q.tags && r < q.maxDepth && FirstTaken(q.tagMap[..], r)
    modifies q`tags, q`busyList, q`queue, q`clock, q`startedAt, q`asyncInFlight, q.tagMap, q.tagIndex
    ensures q.Valid() && (old(q.Whole()) <==> q.Whole())
    ensures q.tags == old(q.tags)[r := r] && q.queue == Without(old(q.queue), r) && FirstTaken(q.tagMap[..], r + 1)
  {
    hide Agree, Without, Align, Timed, Async, Within;
    assert r < q.tagMap.Length;
    ghost var bits := q.tagMap[..];
    assert !bits[r];
    var ok := q.StartTag(r);
    TakeNext(bits, r, q.tags[r]);
  }

  lemma NoneTaken(bits: seq<bool>)
    requires forall t | 0 <= t < |bits| :: !bits[t]
    ensures FirstTaken(bits, 0)
  {
  }

  /**
   * A queue of ten tags, all taken, whose nr_requests goes down from 128 to four:
   * it asks for eleven, gets a map of eight, and request nine, whose tag is beyond
   * it, can neither be finished nor requeued.
   */
  method GrowthLosesTags() returns (q: TagQueue, res: ResizeResult)
    ensures q.Valid() && !q.Whole() && res == Overrun && q.realMaxDepth == 8 && 9 in q.tags && q.tags[9] == 9
  {
    hide Agree, Without, Align, Timed, Async, FirstTaken, Within;
    q := new TagQueue(BLKDEV_MAX_RQ, 10, _ => true);
    NoneTaken(q.tagMap[..]);
    q.queue := seq(10, i => i);
    forall x: nat | x < 10
      ensures x in q.queue
    {
      assert q.queue[x] == x;
    }
    var r: nat := 0;
    while r < 10
      invariant r <= 10 && q.Valid() && q.Whole() && fresh(q) && fresh(q.tagMap) && fresh(q.tagIndex)
      invariant q.maxDepth == q.realMaxDepth == 10 && q.refcnt == 1 && forall x :: q.sync(x)
      invariant forall x: nat | r <= x < 10 :: x in q.queue
      invariant forall x | x in q.tags :: x < r && q.tags[x] == x
      invariant r > 0 ==> r - 1 in q.tags
      invariant FirstTaken(q.tagMap[..], r)
    {
      WithoutIn(q.queue, r);
      StartInTurn(q, r);
      r := r + 1;
    }
    q.nrRequests := BLKDEV_MIN_RQ;
    res := q.Resize(11, true);
    BeyondMap(q.tags, q.realMaxDepth, 9);
  }
}
