/**
 * What a throttled lane gets: trimming its slice costs it next to nothing, and a
 * lane that always has bios queued, and asks when it was told to, gets its rate.
 */
module ThrottleService {
  import opened Block
  import opened Numbers
  import opened ThrottleRate
  import opened ThrottleWait

  // ----- trimming ----------------------------------------------------------

  /** What a limit still allows at `t`, given when the slice began and what was charged in it; negative if over. */
  function Allows(c: Clock, rate: nat, s: Slice, disp: nat, t: nat): int
    requires c.Valid() && s.start <= t
  {
    In(rate, Elapsed(c, s, t), c.hz) - disp
  }

  /** Allowance of slices that have passed and was not used. */
  function Unused(allowed: nat, disp: nat): nat {
    if disp < allowed then allowed - disp else 0
  }

  lemma InParts(rate: nat, a: nat, b: nat, hz: nat)
    requires hz > 0
    ensures In(rate, a, hz) + In(rate, b, hz) <= In(rate, a + b, hz) <= In(rate, a, hz) + In(rate, b, hz) + 1
  {
    hide Mul, In;
    var x, y, z := In(rate, a, hz), In(rate, b, hz), In(rate, a + b, hz);
    InTimes(rate, a, hz);
    InTimes(rate, b, hz);
    InTimes(rate, a + b, hz);
    Below(rate, a, hz);
    Below(rate, b, hz);
    MulPlus(rate, a, b);
    MulPlus(hz, x, y);
    AtLeast(rate, a + b, hz, x + y);
    MulPlus(hz, x + 1, y + 1);
    if z >= x + y + 2 {
      MulLe(hz, x + 1 + (y + 1), z);
    }
  }

  /** Whole slices off the front leave the time that counts shorter by them. */
  lemma ElapsedMoved(c: Clock, s: Slice, s': Slice, now: nat, t: nat)
    requires c.Valid() && s.start <= now < t && s'.start == s.start + WholeSlices(c, s.start, now)
    ensures Elapsed(c, s, t) == WholeSlices(c, s.start, now) + Elapsed(c, s', t)
  {
    var m, x, y := (now - s.start) / c.slice, t - s'.start, c.slice;
    assert t - s.start == x + m * y;
    DivShift(m, x + (y - 1), y);
    assert x + m * y + (y - 1) == x + (y - 1) + m * y;
    assert ((x + (y - 1)) / y + m) * y == (x + (y - 1)) / y * y + m * y;
  }

  /** One count: it is less by what the slices that have passed allowed, or nothing is left of it. */
  lemma GivenBack(c: Clock, rate: nat, s: Slice, disp: nat, s': Slice, disp': nat, now: nat, t: nat)
    requires c.Valid() && s.start <= now < t && s'.start == s.start + WholeSlices(c, s.start, now)
    requires disp' == Less(disp, Some(In(rate, WholeSlices(c, s.start, now), c.hz)))
    ensures var unused := Unused(In(rate, s'.start - s.start, c.hz), disp);
      var before, after := Allows(c, rate, s, disp, t), Allows(c, rate, s', disp', t);
      after + unused <= before <= after + unused + 1
  {
    hide In, Elapsed, WholeSlices;
    ElapsedMoved(c, s, s', now, t);
    InParts(rate, s'.start - s.start, Elapsed(c, s', t), c.hz);
  }

  lemma NothingPassed(c: Clock, lim: Limit, s: Slice, s': Slice, t: nat)
    requires c.Valid() && s.start == s'.start <= t && s.bytes == s'.bytes && s.ios == s'.ios
    ensures Elapsed(c, s, t) == Elapsed(c, s', t)
    ensures lim.bps.Some? ==> In(lim.bps.value, 0, c.hz) == 0
    ensures lim.iops.Some? ==> In(lim.iops.value, 0, c.hz) == 0
  {
  }

  /**
   * The price of trimming. At any later time the limit allows what it would have
   * allowed without it, but for one byte, or one bio, that is lost in rounding, and
   * for what the slices that have passed had allowed and was not used.
   */
  lemma TrimCost(c: Clock, lim: Limit, s: Slice, now: nat, t: nat)
    requires c.Valid() && !Used(s, now) && now < t
    ensures var s' := Trim(c, lim, s, now);
      && s.start <= s'.start <= now
      && (lim.bps.Some? ==>
            var unused := Unused(In(lim.bps.value, s'.start - s.start, c.hz), s.bytes);
            var before, after := Allows(c, lim.bps.value, s, s.bytes, t), Allows(c, lim.bps.value, s', s'.bytes, t);
            after + unused <= before <= after + unused + 1)
      && (lim.iops.Some? ==>
            var unused := Unused(In(lim.iops.value, s'.start - s.start, c.hz), s.ios);
            var before, after := Allows(c, lim.iops.value, s, s.ios, t), Allows(c, lim.iops.value, s', s'.ios, t);
            after + unused <= before <= after + unused + 1)
  {
    hide In, Elapsed, WholeSlices, Less, RoundUp;
    var s' := Trim(c, lim, s, now);
    if s'.start == s.start + WholeSlices(c, s.start, now) && WholeSlices(c, s.start, now) > 0 {
      if lim.bps.Some? {
        GivenBack(c, lim.bps.value, s, s.bytes, s', s'.bytes, now, t);
      }
      if lim.iops.Some? {
        GivenBack(c, lim.iops.value, s, s.ios, s', s'.ios, now, t);
      }
    } else {
      NothingPassed(c, lim, s, s', t);
    }
  }

  /**
   * So a bio that would have fit with a byte to spare still fits if no allowance was
   * left unused; and if more than a byte was, the largest such bio does not. With
   * one byte left unused it depends on the rounding.
   */
  lemma StillFits(c: Clock, bps: nat, s: Slice, now: nat, t: nat, size: nat)
    requires c.Valid() && !Used(s, now) && now < t
    requires s.bytes + size + 1 <= In(bps, Elapsed(c, s, t), c.hz)
    ensures
      var s' := Trim(c, Limit(Some(bps), None), s, now);
      var unused := Unused(In(bps, WholeSlices(c, s.start, now), c.hz), s.bytes);
      && s'.start <= t
      && (unused == 0 ==> s'.bytes + size <= In(bps, Elapsed(c, s', t), c.hz))
      && (unused > 1 && s.bytes + size + 1 == In(bps, Elapsed(c, s, t), c.hz) ==>
            s'.bytes + size > In(bps, Elapsed(c, s', t), c.hz))
  {
    hide In, Elapsed, WholeSlices, Less, RoundUp;
    TrimCost(c, Limit(Some(bps), None), s, now, t);
    NothingPassed(c, Limit(Some(bps), None), s, s, t);
  }

  lemma TenthsOf(h: nat, k: nat, n: nat)
    requires h > 0
    ensures In(10 * k, n * h, 10 * h) == n * k
  {
    assert 10 * k * (n * h) == n * k * (10 * h);
    QuotientUnique(10 * k * (n * h), n * k, 0, 10 * h);
  }

  /**
   * What was not used is lost: ten slices a second, `10 * k` bytes a second, and a
   * slice in which nothing was charged, trimmed when two slices have passed. A bio
   * of more bytes than one slice allows would have fit, and does not.
   */
  lemma UnusedIsLost(h: nat, k: nat, size: nat)
    requires h > 0 && k < size < 3 * k
    ensures
      var c, lim, s := Clock(10 * h, h), Limit(Some(10 * k), None), Slice(0, 0, 0, 3 * h);
      var s' := Trim(c, lim, s, 2 * h);
      && !Used(s, 2 * h) && s'.start <= 2 * h
      && size + 1 <= Allows(c, 10 * k, s, s.bytes, 2 * h + 1)
      && size > Allows(c, 10 * k, s', s'.bytes, 2 * h + 1)
  {
    var c, s := Clock(10 * h, h), Slice(0, 0, 0, 3 * h);
    QuotientUnique(2 * h, 2, 0, h);
    QuotientUnique(2 * h + 1 + (h - 1), 3, 0, h);
    QuotientUnique(1 + (h - 1), 1, 0, h);
    TenthsOf(h, k, 1);
    TenthsOf(h, k, 2);
    TenthsOf(h, k, 3);
  }

  // ----- a lane that keeps asking ------------------------------------------

  /**
   * One count of a lane that has been busy since `t0`: `total` went through, `disp`
   * of it in the current slice, which began at `start` after `k` trimmings. What was
   * given back makes up for the time before the slice but for `lost` each time.
   */
  ghost predicate Past(c: Clock, rate: nat, lost: nat, total: nat, disp: nat, t0: nat, start: nat, k: nat) {
    && t0 <= start && disp <= total && Mul(k, c.slice) <= start - t0
    && Mul(rate, start - t0) <= Mul(total - disp, c.hz) + Mul(k, lost)
  }

  /** With the bio at the head the slice is used but for one unit and one tick. */
  ghost predicate Prompt(c: Clock, rate: nat, disp: nat, next: nat, start: nat, now: nat) {
    start <= now && Mul(rate, now - start) <= Mul(disp + next + 1, c.hz) + rate
  }

  lemma InZero(rate: nat, hz: nat)
    requires hz > 0
    ensures In(rate, 0, hz) == 0 && Mul(rate, 0) == 0
  {
  }

  lemma WholeSlicesIs(c: Clock, start: nat, now: nat)
    requires c.Valid() && start <= now
    ensures var p := WholeSlices(c, start, now); p <= now - start < p + c.slice && (p > 0 ==> p >= c.slice)
    ensures WholeSlices(c, start, now) == Mul((now - start) / c.slice, c.slice)
  {
    DivMod(now - start, c.slice);
    if (now - start) / c.slice >= 1 {
      MulLe(c.slice, 1, (now - start) / c.slice);
    }
  }

  /** The bio at the head goes and the slice is trimmed. */
  lemma ServedOne(c: Clock, rate: nat, lost: nat, total: nat, disp: nat, next: nat, t0: nat, start: nat, now: nat,
                  k: nat)
    requires c.Valid() && Past(c, rate, lost, total, disp, t0, start, k) && Prompt(c, rate, disp, next, start, now)
    requires
      || lost >= c.hz + rate
      || (lost >= c.hz && In(rate, WholeSlices(c, start, now), c.hz) <= disp + next)
    ensures
      var p := WholeSlices(c, start, now);
      var disp' := Less(disp + next, Some(In(rate, p, c.hz)));
      && Past(c, rate, lost, total + next, disp', t0, start + p, if p == 0 then k else k + 1)
      && Prompt(c, rate, disp', 0, start + p, now)
  {
    hide Mul, In, WholeSlices;
    var p, n := WholeSlices(c, start, now), disp + next;
    var back := In(rate, p, c.hz);
    WholeSlicesIs(c, start, now);
    MulPlus(rate, start - t0, p);
    MulPlus(rate, p, now - start - p);
    MulSucc(k, lost);
    MulSucc(k, c.slice);
    MulSucc(n, c.hz);
    InTimes(rate, p, c.hz);
    Below(rate, p, c.hz);
    MulSucc(back, c.hz);
    if n >= back {
      MulPlus(c.hz, total - disp, back);
      MulPlus(c.hz, n - back, back);
      MulSucc(n - back, c.hz);
      if p == 0 {
        InZero(rate, c.hz);
      }
    } else {
      MulPlus(c.hz, total - disp, n);
      MulLe(c.hz, n, back);
      MulLe(rate, p, now - start);
      MulSucc(0, c.hz);
      MulZero(c.hz);
      if p == 0 {
        InZero(rate, c.hz);
      }
    }
  }

  // ----- asking when told --------------------------------------------------

  /** A tick after the end of a slice, no other has passed. */
  lemma SliceAfter(c: Clock, s: Slice, now: nat, t: nat)
    requires c.Valid() && c.slice >= 2 && s.start <= now && t - s.start == Elapsed(c, s, now) + 1
    ensures WholeSlices(c, s.start, t) == Elapsed(c, s, now)
  {
    var x := if now == s.start then c.slice else now - s.start;
    var q := (x + (c.slice - 1)) / c.slice;
    assert Elapsed(c, s, now) == q * c.slice;
    QuotientUnique(t - s.start, q, 1, c.slice);
  }

  /** The time it is told: the extra bytes take that long at the rate, but for one byte and one tick. */
  lemma BytesTold(c: Clock, bps: nat, s: Slice, now: nat, size: nat)
    requires c.Valid() && s.start <= now && bps > 0 && !WithinBps(c, Some(bps), s, now, size).ok
    ensures var t := now + WithinBps(c, Some(bps), s, now, size).wait;
      && Prompt(c, bps, s.bytes, size, s.start, t)
      && (c.slice >= 2 ==> In(bps, WholeSlices(c, s.start, t), c.hz) <= s.bytes + size)
  {
    hide Mul, In, Elapsed, RoundUp, WholeSlices;
    var rnd, extra, n := Elapsed(c, s, now), Extra(c, bps, s, now, size), s.bytes + size;
    var w, t := In(extra, c.hz, bps), now + WithinBps(c, Some(bps), s, now, size).wait;
    var ticks := Max(w, 1);
    var allowed := In(bps, rnd, c.hz);
    ElapsedIs(c, s, now);
    assert t - s.start == rnd + ticks;
    MulPlus(bps, rnd, ticks);
    Below(bps, rnd, c.hz);
    MulPlus(c.hz, allowed + 1, extra);
    MulSwap(w, bps);
    InTimes(extra, c.hz, bps);
    MulSucc(n, c.hz);
    MulLe(c.hz, allowed + 1, n);
    MulSucc(0, bps);
    MulZero(bps);
    MulSwap(1, bps);
    if c.slice >= 2 {
      WholeSlicesIs(c, s.start, t);
      var p := WholeSlices(c, s.start, t);
      if w >= 1 {
        MulLe(bps, p, t - s.start);
        InTimes(bps, p, c.hz);
        if In(bps, p, c.hz) > n {
          MulLe(c.hz, n + 1, In(bps, p, c.hz));
        }
      } else {
        SliceAfter(c, s, now, t);
      }
    }
  }

  lemma BiosTold(c: Clock, iops: nat, s: Slice, now: nat)
    requires c.Valid() && s.start <= now && iops > 0 && !WithinIops(c, Some(iops), s, now).ok && s.ios < UINT_MAX
    ensures Prompt(c, iops, s.ios, 1, s.start, now + WithinIops(c, Some(iops), s, now).wait)
  {
    hide Mul, In, Elapsed, RoundUp;
    var w := In(s.ios + 1, c.hz, iops);
    ElapsedIs(c, s, now);
    WithinIopsIff(c, iops, s, now);
    InTimes(s.ios + 1, c.hz, iops);
    MulSwap(w, iops);
    MulLe(iops, now - s.start, Elapsed(c, s, now));
    MulSwap(iops, now - s.start);
    AtLeast(s.ios + 1, c.hz, iops, now - s.start);
    MulSucc(w, iops);
    MulSwap(w + 1, iops);
    MulSucc(s.ios + 1, c.hz);
  }

  // ----- every run ---------------------------------------------------------

  /**
   * A lane that always has a bio queued: once one has gone the next is asked about
   * at once, and one that was refused is asked about again when it was told.
   */
  predicate Diligent(c: Clock, lim: Limit, m: Meter, events: seq<Event>)
    requires c.Valid() && lim.Valid()
    decreases |events|
  {
    (forall i | 0 <= i < |events| :: events[i].Dequeued?) &&
    (|events| > 1 ==>
       var v := Ask(c, lim, m, events[0].now, events[0].size).1;
       && events[1].now == events[0].now + v.wait && (!v.ok ==> events[1].size == events[0].size)
       && Diligent(c, lim, Step(c, lim, m, events[0]), events[1..]))
  }

  /** What Trim does when there is one limit. */
  lemma TrimBytes(c: Clock, bps: nat, s: Slice, now: nat)
    requires c.Valid() && !Used(s, now)
    ensures var s', p := Trim(c, Limit(Some(bps), None), s, now), WholeSlices(c, s.start, now);
      && s'.start == s.start + p && s'.bytes == Less(s.bytes, Some(In(bps, p, c.hz))) && s'.end >= now + c.slice
  {
    hide RoundUp, In, WholeSlices;
    RoundUpBounds(now + c.slice, c.slice);
    InZero(bps, c.hz);
  }

  lemma TrimBios(c: Clock, iops: nat, s: Slice, now: nat)
    requires c.Valid() && !Used(s, now)
    ensures var s', p := Trim(c, Limit(None, Some(iops)), s, now), WholeSlices(c, s.start, now);
      && s'.start == s.start + p && s'.ios == Less(s.ios, Some(In(iops, p, c.hz))) && s'.end >= now + c.slice
  {
    hide RoundUp, In, WholeSlices;
    RoundUpBounds(now + c.slice, c.slice);
    InZero(iops, c.hz);
  }

  /** The slice at `now` begins no later and lasts a slice more. */
  lemma RenewedIs(c: Clock, s: Slice, now: nat)
    requires c.Valid()
    ensures Renewed(c, s, now).start <= now && Renewed(c, s, now).end >= now + c.slice
    ensures s.start <= now <= s.end ==> Renewed(c, s, now) == s.(end := Renewed(c, s, now).end)
  {
    hide RoundUp;
    RoundUpBounds(now + c.slice, c.slice);
  }

  /** What a trimming may cost, times HZ: a byte, and if a slice is a single tick, a tick more. */
  function Lost(c: Clock, bps: nat): nat {
    if c.slice >= 2 then c.hz else c.hz + bps
  }

  /** Before a bio is asked about: the account since `t0`, and nothing will be forfeited if it goes. */
  ghost predicate BytesReady(c: Clock, bps: nat, m: Meter, t0: nat, k: nat, now: nat, size: nat)
    requires c.Valid()
  {
    var s := Renewed(c, m.s, now);
    && s.start <= now && Past(c, bps, Lost(c, bps), m.bytes, s.bytes, t0, s.start, k)
    && Prompt(c, bps, s.bytes, size, s.start, now)
    && (c.slice >= 2 ==> In(bps, WholeSlices(c, s.start, now), c.hz) <= s.bytes + size)
  }

  lemma MorePrompt(c: Clock, rate: nat, disp: nat, next: nat, start: nat, now: nat)
    requires Prompt(c, rate, disp, 0, start, now)
    ensures Prompt(c, rate, disp, next, start, now)
  {
    MulLe(c.hz, disp + 1, disp + next + 1);
  }

  lemma BytesGone(c: Clock, bps: nat, m: Meter, t0: nat, k: nat, e: Event, size: nat) returns (k': nat)
    requires c.Valid() && bps > 0 && e.Dequeued? && BytesReady(c, bps, m, t0, k, e.now, e.size)
    requires Ask(c, Limit(Some(bps), None), m, e.now, e.size).1.ok
    ensures BytesReady(c, bps, Step(c, Limit(Some(bps), None), m, e), t0, k', e.now, size)
  {
    hide Mul, In, Elapsed, RoundUp, WholeSlices, Past;
    var lim, now := Limit(Some(bps), None), e.now;
    var s := Renewed(c, m.s, now);
    RenewedIs(c, m.s, now);
    var m2 := Spend(m.(s := s), e.size);
    TrimBytes(c, bps, m2.s, now);
    var m' := Step(c, lim, m, e);
    assert m'.s == Trim(c, lim, m2.s, now) && m'.bytes == m.bytes + e.size;
    RenewedIs(c, m'.s, now);
    ServedOne(c, bps, Lost(c, bps), m.bytes, s.bytes, e.size, t0, s.start, now, k);
    k' := if WholeSlices(c, s.start, now) == 0 then k else k + 1;
    MorePrompt(c, bps, m'.s.bytes, size, m'.s.start, now);
    WholeSlicesIs(c, s.start, now);
    WholeSlicesIs(c, m'.s.start, now);
    InZero(bps, c.hz);
  }

  lemma BytesRefused(c: Clock, bps: nat, m: Meter, t0: nat, k: nat, e: Event)
    requires c.Valid() && bps > 0 && e.Dequeued? && BytesReady(c, bps, m, t0, k, e.now, e.size)
    requires !Ask(c, Limit(Some(bps), None), m, e.now, e.size).1.ok
    ensures var lim := Limit(Some(bps), None);
      var later := e.now + Ask(c, lim, m, e.now, e.size).1.wait;
      BytesReady(c, bps, Step(c, lim, m, e), t0, k, later, e.size)
  {
    hide Mul, In, Elapsed, RoundUp, WholeSlices, Past;
    var lim, now := Limit(Some(bps), None), e.now;
    var s := Renewed(c, m.s, now);
    RenewedIs(c, m.s, now);
    AfterRefusal(c, lim, m, now, e.size);
    BytesTold(c, bps, s, now, e.size);
    var m' := Step(c, lim, m, e);
    RenewedIs(c, m'.s, now + Ask(c, lim, m, now, e.size).1.wait);
  }

  lemma OkNoWait(c: Clock, lim: Limit, m: Meter, now: nat, size: nat)
    requires c.Valid() && lim.Valid()
    ensures Ask(c, lim, m, now, size).1.ok ==> Ask(c, lim, m, now, size).1.wait == 0
  {
  }

  lemma {:induction false} RunBytes(c: Clock, bps: nat, m: Meter, t0: nat, k: nat, events: seq<Event>) returns (k': nat)
    requires c.Valid() && bps > 0 && events != [] && Diligent(c, Limit(Some(bps), None), m, events)
    requires BytesReady(c, bps, m, t0, k, events[0].now, events[0].size)
    ensures var last := events[|events| - 1];
      BytesReady(c, bps, Run(c, Limit(Some(bps), None), m, events[..|events| - 1]), t0, k', last.now, last.size)
    decreases |events|
  {
    hide BytesReady, Ask, Step;
    var lim := Limit(Some(bps), None);
    if |events| == 1 {
      assert events[..0] == [];
      k' := k;
    } else {
      var e, k1 := events[0], k;
      if Ask(c, lim, m, e.now, e.size).1.ok {
        k1 := BytesGone(c, bps, m, t0, k, e, events[1].size);
        OkNoWait(c, lim, m, e.now, e.size);
      } else {
        BytesRefused(c, bps, m, t0, k, e);
      }
      k' := RunBytes(c, bps, Step(c, lim, m, e), t0, k1, events[1..]);
      assert events[..|events| - 1][1..] == events[1..][..|events| - 2];
    }
  }

  lemma FirstReady(c: Clock, bps: nat, now: nat, size: nat)
    requires c.Valid()
    ensures BytesReady(c, bps, FRESH, now, 0, now, size)
  {
    hide In, RoundUp;
    InZero(bps, c.hz);
    MulZero(c.slice);
    MulZero(c.hz);
    MulLe(c.hz, 0, size + 1);
    WholeSlicesIs(c, now, now);
    MulSwap(bps, 0);
    MulZero(bps);
  }

  /** Past and present together, and no more trimmings than slices. */
  lemma Summed(c: Clock, rate: nat, lost: nat, total: nat, disp: nat, next: nat, t0: nat, start: nat, now: nat, k: nat)
    requires c.Valid() && Past(c, rate, lost, total, disp, t0, start, k) && Prompt(c, rate, disp, next, start, now)
    ensures t0 <= now
    ensures Mul(rate, now - t0) <= Mul(total + next + 1, c.hz) + Mul((now - t0) / c.slice, lost) + rate
  {
    hide Mul;
    MulPlus(rate, start - t0, now - start);
    MulPlus(c.hz, total - disp, disp + next + 1);
    var n := (now - t0) / c.slice;
    DivMod(now - t0, c.slice);
    MulSucc(n, c.slice);
    if k > n {
      MulLe(c.slice, n + 1, k);
    }
    MulLe(lost, k, n);
  }

  /**
   * The rate is reached. A lane limited in bytes that has been busy since its first
   * bio was asked about at `t0`: when the last one is asked about, what went through
   * is what the limit allows over that time, but for that bio, one byte, one tick,
   * and one byte for each slice that has passed (if a slice is more than a tick).
   */
  lemma RateReached(c: Clock, bps: nat, events: seq<Event>)
    requires c.Valid() && bps > 0 && events != []
    requires Diligent(c, Limit(Some(bps), None), FRESH, events)
    ensures
      var m, last := Run(c, Limit(Some(bps), None), FRESH, events[..|events| - 1]), events[|events| - 1];
      var time := last.now - events[0].now;
      && time >= 0
      && bps * time <= (m.bytes + last.size + 1) * c.hz + bps + time / c.slice * Lost(c, bps)
  {
    hide Diligent, Run;
    var t0 := events[0].now;
    FirstReady(c, bps, t0, events[0].size);
    var k := RunBytes(c, bps, FRESH, t0, 0, events);
    var m, last := Run(c, Limit(Some(bps), None), FRESH, events[..|events| - 1]), events[|events| - 1];
    var s := Renewed(c, m.s, last.now);
    Summed(c, bps, Lost(c, bps), m.bytes, s.bytes, last.size, t0, s.start, last.now, k);
  }

  // ----- bios per second ---------------------------------------------------

  /** The count of bios in the slice never reaches the largest number it can hold. */
  predicate NoClamp(c: Clock, lim: Limit, m: Meter, events: seq<Event>)
    requires c.Valid() && lim.Valid()
    decreases |events|
  {
    events == [] ||
    (Renewed(c, m.s, events[0].now).ios < UINT_MAX && NoClamp(c, lim, Step(c, lim, m, events[0]), events[1..]))
  }

  ghost predicate BiosReady(c: Clock, iops: nat, m: Meter, t0: nat, k: nat, now: nat)
    requires c.Valid()
  {
    var s := Renewed(c, m.s, now);
    && s.start <= now && Past(c, iops, c.hz + iops, m.ios, s.ios, t0, s.start, k)
    && Prompt(c, iops, s.ios, 1, s.start, now)
  }

  lemma BiosGone(c: Clock, iops: nat, m: Meter, t0: nat, k: nat, e: Event) returns (k': nat)
    requires c.Valid() && iops > 0 && e.Dequeued? && BiosReady(c, iops, m, t0, k, e.now)
    requires Ask(c, Limit(None, Some(iops)), m, e.now, e.size).1.ok
    ensures BiosReady(c, iops, Step(c, Limit(None, Some(iops)), m, e), t0, k', e.now)
  {
    hide Mul, In, Elapsed, RoundUp, WholeSlices, Past;
    var lim, now := Limit(None, Some(iops)), e.now;
    var s := Renewed(c, m.s, now);
    RenewedIs(c, m.s, now);
    var m2 := Spend(m.(s := s), e.size);
    TrimBios(c, iops, m2.s, now);
    var m' := Step(c, lim, m, e);
    assert m'.s == Trim(c, lim, m2.s, now) && m'.ios == m.ios + 1;
    RenewedIs(c, m'.s, now);
    ServedOne(c, iops, c.hz + iops, m.ios, s.ios, 1, t0, s.start, now, k);
    k' := if WholeSlices(c, s.start, now) == 0 then k else k + 1;
    MorePrompt(c, iops, m'.s.ios, 1, m'.s.start, now);
  }

  lemma BiosRefused(c: Clock, iops: nat, m: Meter, t0: nat, k: nat, e: Event)
    requires c.Valid() && iops > 0 && e.Dequeued? && BiosReady(c, iops, m, t0, k, e.now)
    requires !Ask(c, Limit(None, Some(iops)), m, e.now, e.size).1.ok && Renewed(c, m.s, e.now).ios < UINT_MAX
    ensures var lim := Limit(None, Some(iops));
      var later := e.now + Ask(c, lim, m, e.now, e.size).1.wait;
      BiosReady(c, iops, Step(c, lim, m, e), t0, k, later)
  {
    hide Mul, In, Elapsed, RoundUp, Past;
    var lim, now := Limit(None, Some(iops)), e.now;
    RenewedIs(c, m.s, now);
    AfterRefusal(c, lim, m, now, e.size);
    BiosTold(c, iops, Renewed(c, m.s, now), now);
    var m' := Step(c, lim, m, e);
    RenewedIs(c, m'.s, now + Ask(c, lim, m, now, e.size).1.wait);
  }

  lemma {:induction false} RunBios(c: Clock, iops: nat, m: Meter, t0: nat, k: nat, events: seq<Event>) returns (k': nat)
    requires c.Valid() && iops > 0 && events != [] && Diligent(c, Limit(None, Some(iops)), m, events)
    requires NoClamp(c, Limit(None, Some(iops)), m, events) && BiosReady(c, iops, m, t0, k, events[0].now)
    ensures var last := events[|events| - 1];
      BiosReady(c, iops, Run(c, Limit(None, Some(iops)), m, events[..|events| - 1]), t0, k', last.now)
    decreases |events|
  {
    hide BiosReady, Ask, Step, Renewed;
    var lim := Limit(None, Some(iops));
    if |events| == 1 {
      assert events[..0] == [];
      k' := k;
    } else {
      var e, k1 := events[0], k;
      if Ask(c, lim, m, e.now, e.size).1.ok {
        k1 := BiosGone(c, iops, m, t0, k, e);
        OkNoWait(c, lim, m, e.now, e.size);
      } else {
        BiosRefused(c, iops, m, t0, k, e);
      }
      k' := RunBios(c, iops, Step(c, lim, m, e), t0, k1, events[1..]);
      assert events[..|events| - 1][1..] == events[1..][..|events| - 2];
    }
  }

  lemma FirstBio(c: Clock, iops: nat, now: nat)
    requires c.Valid()
    ensures BiosReady(c, iops, FRESH, now, 0, now)
  {
    hide RoundUp;
    MulZero(c.slice);
    MulZero(c.hz);
    MulLe(c.hz, 0, 2);
    MulSwap(iops, 0);
    MulZero(iops);
  }

  /** The same for a lane limited in bios; a trimming may cost it one bio and a tick. */
  lemma BioRateReached(c: Clock, iops: nat, events: seq<Event>)
    requires c.Valid() && iops > 0 && events != []
    requires Diligent(c, Limit(None, Some(iops)), FRESH, events) && NoClamp(c, Limit(None, Some(iops)), FRESH, events)
    ensures
      var m, last := Run(c, Limit(None, Some(iops)), FRESH, events[..|events| - 1]), events[|events| - 1];
      var time := last.now - events[0].now;
      && time >= 0
      && iops * time <= (m.ios + 2) * c.hz + iops + time / c.slice * (c.hz + iops)
  {
    hide Diligent, NoClamp, Run;
    var t0 := events[0].now;
    FirstBio(c, iops, t0);
    var k := RunBios(c, iops, FRESH, t0, 0, events);
    var m, last := Run(c, Limit(None, Some(iops)), FRESH, events[..|events| - 1]), events[|events| - 1];
    var s := Renewed(c, m.s, last.now);
    Summed(c, iops, c.hz + iops, m.ios, s.ios, 1, t0, s.start, last.now, k);
  }
}
