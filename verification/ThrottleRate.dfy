/**
 * The slice arithmetic of blk-throttle.c for one direction of one group, and
 * the rate it enforces: over any time, whatever is queued, dispatched, extended
 * or trimmed, no more than the limit plus one slice's worth gets through.
 */
module ThrottleRate {
  import opened Block
  import opened Numbers

  // Ticks per second and ticks per slice.
  datatype Clock = Clock(hz: nat, slice: nat) {
    predicate Valid() {
      hz > 0 && slice > 0
    }
  }

  // Bytes and bios per second; None is "no limit" (-1).
  datatype Limit = Limit(bps: Option<nat>, iops: Option<nat>) {
    predicate Valid() {
      (bps.Some? ==> bps.value > 0) && (iops.Some? ==> iops.value > 0)
    }
  }

  const UINT_MAX: nat := 4294967295

  /** bytes_disp, io_disp, slice_start and slice_end */
  datatype Slice = Slice(bytes: nat, ios: nat, start: nat, end: nat)

  /** What a rate per second amounts to in some ticks, rounded down. */
  function In(rate: nat, ticks: nat, hz: nat): nat
    requires hz > 0
  {
    rate * ticks / hz
  }

  function NewSlice(c: Clock, now: nat): Slice {
    Slice(0, 0, now, now + c.slice)
  }

  /** throtl_slice_used */
  predicate Used(s: Slice, now: nat) {
    !(s.start <= now <= s.end)
  }

  /** The slice tg_may_dispatch looks at: a new one if the last has run out, else at least a slice long from now. */
  function Renewed(c: Clock, s: Slice, now: nat): Slice
    requires c.Valid()
  {
    if Used(s, now) then NewSlice(c, now)
    else if s.end < now + c.slice then s.(end := RoundUp(now + c.slice, c.slice))
    else s
  }

  /** The time that counts against the limit: rounded up to whole slices. */
  function Elapsed(c: Clock, s: Slice, now: nat): nat
    requires c.Valid() && s.start <= now
  {
    RoundUp(if now == s.start then c.slice else now - s.start, c.slice)
  }

  datatype Verdict = Verdict(ok: bool, wait: nat)

  /** tg_with_in_bps_limit */
  function WithinBps(c: Clock, bps: Option<nat>, s: Slice, now: nat, size: nat): Verdict
    requires c.Valid() && s.start <= now && (bps.Some? ==> bps.value > 0)
  {
    if bps.None? then Verdict(true, 0)
    else
      var rnd := Elapsed(c, s, now);
      var allowed := In(bps.value, rnd, c.hz);
      if s.bytes + size <= allowed then Verdict(true, 0)
      else
        var wait := In(s.bytes + size - allowed, c.hz, bps.value);
        Verdict(false, Max(wait, 1) + if rnd >= now - s.start then rnd - (now - s.start) else 0)
  }

  /** tg_with_in_iops_limit */
  function WithinIops(c: Clock, iops: Option<nat>, s: Slice, now: nat): Verdict
    requires c.Valid() && s.start <= now && (iops.Some? ==> iops.value > 0)
  {
    if iops.None? then Verdict(true, 0)
    else
      var tmp := In(iops.value, Elapsed(c, s, now), c.hz);
      var allowed := if tmp > UINT_MAX then UINT_MAX else tmp;
      if s.ios + 1 <= allowed then Verdict(true, 0)
      else
        var wait := In(s.ios + 1, c.hz, iops.value) + 1;
        Verdict(false, if wait > now - s.start then wait - (now - s.start) else 1)
  }

  function Wait(c: Clock, s: Slice, now: nat, wait: nat): Slice
    requires c.Valid()
  {
    if s.end < now + wait then s.(end := RoundUp(now + wait, c.slice)) else s
  }

  /** tg_may_dispatch: the slice afterwards, and whether the bio may go */
  function MayDispatch(c: Clock, lim: Limit, s: Slice, now: nat, size: nat): (Slice, Verdict)
    requires c.Valid() && lim.Valid()
  {
    if lim.bps.None? && lim.iops.None? then (s, Verdict(true, 0))
    else
      var s1 := Renewed(c, s, now);
      var b := WithinBps(c, lim.bps, s1, now, size);
      if b.ok then
        var i := WithinIops(c, lim.iops, s1, now);
        if i.ok then (s1, Verdict(true, 0)) else (Wait(c, s1, now, i.wait), i)
      else (Wait(c, s1, now, b.wait), b)
  }

  /** throtl_charge_bio */
  function Charge(s: Slice, size: nat): Slice {
    s.(bytes := s.bytes + size, ios := s.ios + 1)
  }

  function Less(n: nat, trim: Option<nat>): nat {
    if trim.None? || n < trim.value then 0 else n - trim.value
  }

  /** The ticks of the whole slices that have passed. */
  function WholeSlices(c: Clock, start: nat, now: nat): (passed: nat)
    requires c.Valid() && start <= now
    ensures start + passed <= now
  {
    (now - start) / c.slice * c.slice
  }

  /** throtl_trim_slice: give back what the whole slices that have passed allowed */
  function Trim(c: Clock, lim: Limit, s: Slice, now: nat): Slice
    requires c.Valid()
  {
    if Used(s, now) then s
    else
      var s1 := s.(end := RoundUp(now + c.slice, c.slice));
      var passed := WholeSlices(c, s.start, now);
      if passed == 0 then s1
      else
        var bytes := if lim.bps.None? then None else Some(In(lim.bps.value, passed, c.hz));
        var ios := if lim.iops.None? then None else Some(In(lim.iops.value, passed, c.hz));
        if bytes == Some(0) && ios == Some(0) then s1
        else Slice(Less(s.bytes, bytes), Less(s.ios, ios), s.start + passed, s1.end)
  }

  // ----- arithmetic --------------------------------------------------------

  lemma InTimes(rate: nat, ticks: nat, hz: nat)
    requires hz > 0
    ensures Mul(In(rate, ticks, hz), hz) <= Mul(rate, ticks)
  {
  }

  // ----- one rate ----------------------------------------------------------

  // The slice and the clock of one rate: when the first slice that counts began, this one's start and end, and now.
  datatype Times = Times(first: nat, start: nat, end: nat, now: nat)

  /**
   * The state of one limit: `total` charged since `t.first`, `disp` of it in the
   * current slice. What is not in the current slice fits in the time before it;
   * everything fits in the time up to the end of the slice; and everything fits
   * in the time up to now and one slice more.
   */
  ghost predicate Rate(c: Clock, rate: nat, total: nat, disp: nat, t: Times) {
    && t.first <= t.start <= t.now && t.start <= t.end
    && Mul(total, c.hz) <= Mul(rate, t.start - t.first) + Mul(disp, c.hz)
    && Mul(total, c.hz) <= Mul(rate, t.end - t.first)
    && Mul(total, c.hz) <= Mul(rate, t.now - t.first + c.slice)
  }

  lemma RateLater(c: Clock, rate: nat, total: nat, disp: nat, t: Times, later: nat)
    requires Rate(c, rate, total, disp, t) && t.now <= later
    ensures Rate(c, rate, total, disp, t.(now := later))
  {
    hide Mul;
    MulLe(rate, t.now - t.first + c.slice, later - t.first + c.slice);
  }

  lemma RateExtend(c: Clock, rate: nat, total: nat, disp: nat, t: Times, end: nat)
    requires Rate(c, rate, total, disp, t) && t.end <= end
    ensures Rate(c, rate, total, disp, t.(end := end))
  {
    hide Mul;
    MulLe(rate, t.end - t.first, end - t.first);
  }

  /** A slice has run out and a new one starts: the old one covers all that was charged. */
  lemma RateNew(c: Clock, rate: nat, total: nat, disp: nat, t: Times)
    requires Rate(c, rate, total, disp, t) && t.end < t.now
    ensures Rate(c, rate, total, 0, Times(t.first, t.now, t.now + c.slice, t.now))
  {
    assert Mul(0, c.hz) == 0;
    MulLe(rate, t.end - t.first, t.now - t.first);
    MulLe(rate, t.end - t.first, t.now + c.slice - t.first);
  }

  /** A charge that is within the limit. */
  lemma RateCharge(c: Clock, rate: nat, total: nat, disp: nat, t: Times, size: nat, rnd: nat)
    requires Rate(c, rate, total, disp, t) && c.hz > 0
    requires rnd <= t.now - t.start + c.slice && t.now + c.slice <= t.end
    requires disp + size <= In(rate, rnd, c.hz)
    ensures Rate(c, rate, total + size, disp + size, t)
  {
    hide Mul, In;
    MulPlus(c.hz, total, size);
    MulPlus(c.hz, disp, size);
    InTimes(rate, rnd, c.hz);
    MulLe(c.hz, disp + size, In(rate, rnd, c.hz));
    MulLe(rate, rnd, t.now - t.start + c.slice);
    MulPlus(rate, t.start - t.first, t.now - t.start + c.slice);
    assert t.start - t.first + (t.now - t.start + c.slice) == t.now - t.first + c.slice;
    MulLe(rate, t.now - t.first + c.slice, t.end - t.first);
  }

  lemma MulZero(a: int)
    ensures Mul(0, a) == 0
  {
  }

  /** Whole slices that have passed are taken off, rounding what they allowed down. */
  lemma RateTrim(c: Clock, rate: nat, total: nat, disp: nat, t: Times, passed: nat, end: nat)
    requires Rate(c, rate, total, disp, t) && c.hz > 0
    requires t.start + passed <= t.now && t.now + c.slice <= end
    ensures Rate(c, rate, total, Less(disp, Some(In(rate, passed, c.hz))), t.(start := t.start + passed, end := end))
  {
    hide Mul, In;
    var trim := In(rate, passed, c.hz);
    InTimes(rate, passed, c.hz);
    MulPlus(rate, t.start - t.first, passed);
    assert t.start - t.first + passed == t.start + passed - t.first;
    MulLe(rate, t.now - t.first + c.slice, end - t.first);
    if disp >= trim {
      MulPlus(c.hz, disp - trim, trim);
    } else {
      MulLe(c.hz, disp, trim);
      MulZero(c.hz);
    }
  }

  lemma RateZero(c: Clock, rate: nat, disp: nat, t: Times)
    requires t.first == t.start <= t.now && t.start <= t.end
    ensures Rate(c, rate, 0, disp, t)
  {
    MulLe(rate, 0, t.end - t.first);
    MulLe(rate, 0, t.now - t.first + c.slice);
    MulLe(c.hz, 0, disp);
  }

  // ----- a direction of a group --------------------------------------------

  /** A slice, and the history of what was charged: bytes, bios, and the start of the slice of the first charge. */
  datatype Meter = Meter(s: Slice, bytes: nat, ios: nat, first: nat)

  const FRESH := Meter(Slice(0, 0, 0, 0), 0, 0, 0)

  function TimesOf(m: Meter, now: nat): Times {
    Times(m.first, m.s.start, m.s.end, now)
  }

  ghost predicate MeterOk(c: Clock, lim: Limit, m: Meter, now: nat) {
    && m.s.start <= now && m.s.start <= m.s.end
    && (m.ios == 0 ==> m.bytes == 0)
    && (m.ios > 0 && lim.bps.Some? ==> Rate(c, lim.bps.value, m.bytes, m.s.bytes, TimesOf(m, now)))
    && (m.ios > 0 && lim.iops.Some? ==> Rate(c, lim.iops.value, m.ios, m.s.ios, TimesOf(m, now)))
  }

  lemma MeterLater(c: Clock, lim: Limit, m: Meter, now: nat, later: nat)
    requires MeterOk(c, lim, m, now) && now <= later
    ensures MeterOk(c, lim, m, later)
  {
    hide Rate;
    if m.ios > 0 && lim.bps.Some? {
      RateLater(c, lim.bps.value, m.bytes, m.s.bytes, TimesOf(m, now), later);
    }
    if m.ios > 0 && lim.iops.Some? {
      RateLater(c, lim.iops.value, m.ios, m.s.ios, TimesOf(m, now), later);
    }
  }

  lemma MeterExtend(c: Clock, lim: Limit, m: Meter, now: nat, end: nat)
    requires MeterOk(c, lim, m, now) && m.s.end <= end
    ensures MeterOk(c, lim, m.(s := m.s.(end := end)), now)
  {
    hide Rate;
    if m.ios > 0 && lim.bps.Some? {
      RateExtend(c, lim.bps.value, m.bytes, m.s.bytes, TimesOf(m, now), end);
    }
    if m.ios > 0 && lim.iops.Some? {
      RateExtend(c, lim.iops.value, m.ios, m.s.ios, TimesOf(m, now), end);
    }
  }

  lemma MeterRenew(c: Clock, lim: Limit, m: Meter, now: nat)
    requires c.Valid() && MeterOk(c, lim, m, now)
    ensures MeterOk(c, lim, m.(s := Renewed(c, m.s, now)), now)
    ensures Renewed(c, m.s, now).end >= now + c.slice
  {
    hide Rate, RoundUp;
    RoundUpBounds(now + c.slice, c.slice);
    if Used(m.s, now) {
      if m.ios > 0 && lim.bps.Some? {
        RateNew(c, lim.bps.value, m.bytes, m.s.bytes, TimesOf(m, now));
      }
      if m.ios > 0 && lim.iops.Some? {
        RateNew(c, lim.iops.value, m.ios, m.s.ios, TimesOf(m, now));
      }
    } else if m.s.end < now + c.slice {
      MeterExtend(c, lim, m, now, RoundUp(now + c.slice, c.slice));
    }
  }

  /** Asking whether a bio may go. */
  function Ask(c: Clock, lim: Limit, m: Meter, now: nat, size: nat): (Meter, Verdict)
    requires c.Valid() && lim.Valid()
  {
    var (s, v) := MayDispatch(c, lim, m.s, now, size);
    (m.(s := s), v)
  }

  predicate Unlimited(lim: Limit) {
    lim.bps.None? && lim.iops.None?
  }

  /** The bio fits in what the rounded-up time since the slice began allows. */
  ghost predicate Fits(c: Clock, lim: Limit, s: Slice, now: nat, size: nat)
    requires c.Valid()
  {
    && s.start <= now && s.end >= now + c.slice
    && (lim.bps.Some? ==> s.bytes + size <= In(lim.bps.value, Elapsed(c, s, now), c.hz))
    && (lim.iops.Some? ==> s.ios + 1 <= In(lim.iops.value, Elapsed(c, s, now), c.hz))
  }

  lemma AskOk(c: Clock, lim: Limit, m: Meter, now: nat, size: nat)
    requires c.Valid() && lim.Valid() && MeterOk(c, lim, m, now)
    ensures var (m', v) := Ask(c, lim, m, now, size);
      && MeterOk(c, lim, m', now)
      && m' == m.(s := m'.s)
      && (v.ok && !Unlimited(lim) ==> Fits(c, lim, m'.s, now, size))
      && (v.ok ==> v.wait == 0) && (!v.ok ==> v.wait > 0)
  {
    hide Rate, RoundUp, In;
    if !Unlimited(lim) {
      MeterRenew(c, lim, m, now);
      var m1 := m.(s := Renewed(c, m.s, now));
      var (m', v) := Ask(c, lim, m, now, size);
      if !v.ok && m1.s.end < now + v.wait {
        RoundUpBounds(now + v.wait, c.slice);
        MeterExtend(c, lim, m1, now, RoundUp(now + v.wait, c.slice));
      }
    }
  }

  /** Charging a bio; the first one fixes when the account begins. */
  function Spend(m: Meter, size: nat): Meter {
    Meter(Charge(m.s, size), m.bytes + size, m.ios + 1, if m.ios == 0 then m.s.start else m.first)
  }

  lemma SliceIsMultiple(y: nat)
    requires y > 0
    ensures RoundUp(y, y) == y
  {
    assert (y + (y - 1)) / y == 1;
  }

  lemma ElapsedBound(c: Clock, s: Slice, now: nat)
    requires c.Valid() && s.start <= now
    ensures Elapsed(c, s, now) <= now - s.start + c.slice
  {
    RoundUpBounds(if now == s.start then c.slice else now - s.start, c.slice);
    if now == s.start {
      SliceIsMultiple(c.slice);
    }
  }

  lemma SpendOk(c: Clock, lim: Limit, m: Meter, now: nat, size: nat)
    requires c.Valid() && MeterOk(c, lim, m, now) && (!Unlimited(lim) ==> Fits(c, lim, m.s, now, size))
    ensures MeterOk(c, lim, Spend(m, size), now)
  {
    hide Rate, In, Elapsed;
    var t := TimesOf(Spend(m, size), now);
    if lim.bps.Some? {
      ElapsedBound(c, m.s, now);
      if m.ios == 0 {
        RateZero(c, lim.bps.value, m.s.bytes, t);
      }
      RateCharge(c, lim.bps.value, m.bytes, m.s.bytes, t, size, Elapsed(c, m.s, now));
    }
    if lim.iops.Some? {
      ElapsedBound(c, m.s, now);
      if m.ios == 0 {
        RateZero(c, lim.iops.value, m.s.ios, t);
      }
      RateCharge(c, lim.iops.value, m.ios, m.s.ios, t, 1, Elapsed(c, m.s, now));
    }
  }

  /** Moving the end, even back, is right as long as it is a slice from now. */
  lemma TrimEnd(c: Clock, lim: Limit, m: Meter, now: nat, end: nat)
    requires MeterOk(c, lim, m, now) && now + c.slice <= end
    ensures MeterOk(c, lim, m.(s := m.s.(end := end)), now)
  {
    hide Mul;
    if m.ios > 0 && lim.bps.Some? {
      MulLe(lim.bps.value, now - m.first + c.slice, end - m.first);
    }
    if m.ios > 0 && lim.iops.Some? {
      MulLe(lim.iops.value, now - m.first + c.slice, end - m.first);
    }
  }

  lemma TrimOk(c: Clock, lim: Limit, m: Meter, now: nat)
    requires c.Valid() && MeterOk(c, lim, m, now)
    ensures MeterOk(c, lim, m.(s := Trim(c, lim, m.s, now)), now)
  {
    hide Rate, In, RoundUp, WholeSlices;
    if !Used(m.s, now) {
      var end, passed := RoundUp(now + c.slice, c.slice), WholeSlices(c, m.s.start, now);
      RoundUpBounds(now + c.slice, c.slice);
      TrimEnd(c, lim, m, now, end);
      if m.ios > 0 && lim.bps.Some? {
        RateTrim(c, lim.bps.value, m.bytes, m.s.bytes, TimesOf(m, now), passed, end);
      }
      if m.ios > 0 && lim.iops.Some? {
        RateTrim(c, lim.iops.value, m.ios, m.s.ios, TimesOf(m, now), passed, end);
      }
    }
  }

  // ----- every run ---------------------------------------------------------

  /** A bio is asked about only, or goes if it may; from a queue, the slice is trimmed after it. */
  datatype Event =
    | Asked(now: nat, size: nat)
    | Passed(now: nat, size: nat)
    | Dequeued(now: nat, size: nat)

  function Step(c: Clock, lim: Limit, m: Meter, e: Event): Meter
    requires c.Valid() && lim.Valid()
  {
    var (m1, v) := Ask(c, lim, m, e.now, e.size);
    if !v.ok || e.Asked? then m1
    else if e.Passed? then Spend(m1, e.size)
    else
      var m2 := Spend(m1, e.size);
      m2.(s := Trim(c, lim, m2.s, e.now))
  }

  lemma StepOk(c: Clock, lim: Limit, m: Meter, now: nat, e: Event)
    requires c.Valid() && lim.Valid() && MeterOk(c, lim, m, now) && now <= e.now
    ensures MeterOk(c, lim, Step(c, lim, m, e), e.now)
  {
    hide MeterOk, Fits, Trim, Ask, Spend;
    MeterLater(c, lim, m, now, e.now);
    AskOk(c, lim, m, e.now, e.size);
    var (m1, v) := Ask(c, lim, m, e.now, e.size);
    if v.ok && !e.Asked? {
      SpendOk(c, lim, m1, e.now, e.size);
      TrimOk(c, lim, Spend(m1, e.size), e.now);
    }
  }

  /** Time does not go backwards. */
  predicate Ordered(now: nat, events: seq<Event>)
    decreases |events|
  {
    events == [] || (now <= events[0].now && Ordered(events[0].now, events[1..]))
  }

  function Run(c: Clock, lim: Limit, m: Meter, events: seq<Event>): Meter
    requires c.Valid() && lim.Valid()
    decreases |events|
  {
    if events == [] then m else Run(c, lim, Step(c, lim, m, events[0]), events[1..])
  }

  function TimeAfter(now: nat, events: seq<Event>): nat
    decreases |events|
  {
    if events == [] then now else TimeAfter(events[0].now, events[1..])
  }

  lemma {:induction false} RunOk(c: Clock, lim: Limit, m: Meter, now: nat, events: seq<Event>)
    requires c.Valid() && lim.Valid() && MeterOk(c, lim, m, now) && Ordered(now, events)
    ensures MeterOk(c, lim, Run(c, lim, m, events), TimeAfter(now, events))
    decreases |events|
  {
    hide MeterOk, Step;
    if events != [] {
      StepOk(c, lim, m, now, events[0]);
      RunOk(c, lim, Step(c, lim, m, events[0]), events[0].now, events[1..]);
    }
  }

  /**
   * The rate bound. In every run of a fresh group, at any later time, the bytes
   * charged since the first slice fit its rate over the time since then and one
   * slice more; and so do the bios.
   */
  lemma RateBound(c: Clock, lim: Limit, events: seq<Event>, later: nat)
    requires c.Valid() && lim.Valid() && Ordered(0, events) && TimeAfter(0, events) <= later
    ensures
      var m := Run(c, lim, FRESH, events);
      m.ios > 0 ==>
        && (lim.bps.Some? || lim.iops.Some? ==> m.first <= later)
        && (lim.bps.Some? ==> m.bytes * c.hz <= lim.bps.value * (later - m.first + c.slice))
        && (lim.iops.Some? ==> m.ios * c.hz <= lim.iops.value * (later - m.first + c.slice))
  {
    hide Run, TimeAfter, Ordered;
    RunOk(c, lim, FRESH, 0, events);
    MeterLater(c, lim, Run(c, lim, FRESH, events), TimeAfter(0, events), later);
  }
}
