/**
 * How long a bio that is over its limit is told to wait (blk-throttle.c), and
 * what it is told when it asks again: while the slice lasts, and after that.
 */
module ThrottleWait {
  import opened Block
  import opened Numbers
  import opened ThrottleRate

  lemma Below(rate: nat, ticks: nat, hz: nat)
    requires hz > 0
    ensures Mul(rate, ticks) < Mul(In(rate, ticks, hz) + 1, hz)
  {
    var n := rate * ticks;
    assert n == n / hz * hz + n % hz;
  }

  lemma AtLeast(rate: nat, ticks: nat, hz: nat, n: nat)
    requires hz > 0 && Mul(n, hz) <= Mul(rate, ticks)
    ensures n <= In(rate, ticks, hz)
  {
    hide Mul, In;
    var q := In(rate, ticks, hz);
    Below(rate, ticks, hz);
    if n > q {
      MulLe(hz, q + 1, n);
    }
  }

  lemma MulSwap(a: int, b: int)
    ensures Mul(a, b) == Mul(b, a)
  {
  }

  lemma ElapsedIs(c: Clock, s: Slice, now: nat)
    requires c.Valid() && s.start <= now
    ensures Elapsed(c, s, now) >= now - s.start
    ensures now > s.start ==> Elapsed(c, s, now) == RoundUp(now - s.start, c.slice)
  {
    RoundUpBounds(if now == s.start then c.slice else now - s.start, c.slice);
  }

  // ----- asking ------------------------------------------------------------

  /** The bio is within both limits for the time that has passed in a slice. */
  predicate FitsAt(c: Clock, lim: Limit, s: Slice, now: nat, size: nat)
    requires c.Valid() && s.start <= now
  {
    && (lim.bps.Some? ==> Mul(s.bytes + size, c.hz) <= Mul(lim.bps.value, Elapsed(c, s, now)))
    && (lim.iops.Some? ==>
          s.ios + 1 <= UINT_MAX && Mul(s.ios + 1, c.hz) <= Mul(lim.iops.value, Elapsed(c, s, now)))
  }

  /** It is within what one slice allows. */
  predicate FitsFresh(c: Clock, lim: Limit, size: nat) {
    && (lim.bps.Some? ==> Mul(size, c.hz) <= Mul(lim.bps.value, c.slice))
    && (lim.iops.Some? ==> Mul(1, c.hz) <= Mul(lim.iops.value, c.slice))
  }

  lemma InIff(rate: nat, ticks: nat, hz: nat, n: nat)
    requires hz > 0
    ensures n <= In(rate, ticks, hz) <==> Mul(n, hz) <= Mul(rate, ticks)
  {
    hide Mul, In;
    if n <= In(rate, ticks, hz) {
      MulLe(hz, n, In(rate, ticks, hz));
      InTimes(rate, ticks, hz);
    }
    if Mul(n, hz) <= Mul(rate, ticks) {
      AtLeast(rate, ticks, hz, n);
    }
  }

  lemma WithinBpsIff(c: Clock, bps: nat, s: Slice, now: nat, size: nat)
    requires c.Valid() && s.start <= now && bps > 0
    ensures WithinBps(c, Some(bps), s, now, size).ok <==> Mul(s.bytes + size, c.hz) <= Mul(bps, Elapsed(c, s, now))
  {
    hide Mul, In, Elapsed;
    InIff(bps, Elapsed(c, s, now), c.hz, s.bytes + size);
  }

  lemma WithinIopsIff(c: Clock, iops: nat, s: Slice, now: nat)
    requires c.Valid() && s.start <= now && iops > 0
    ensures WithinIops(c, Some(iops), s, now).ok <==>
      s.ios + 1 <= UINT_MAX && Mul(s.ios + 1, c.hz) <= Mul(iops, Elapsed(c, s, now))
  {
    hide Mul, In, Elapsed;
    InIff(iops, Elapsed(c, s, now), c.hz, s.ios + 1);
  }

  /** A bio may go exactly if it fits in the slice that is current then. */
  lemma AskIs(c: Clock, lim: Limit, m: Meter, now: nat, size: nat)
    requires c.Valid() && lim.Valid()
    ensures Renewed(c, m.s, now).start <= now
    ensures Ask(c, lim, m, now, size).1.ok <==> FitsAt(c, lim, Renewed(c, m.s, now), now, size)
  {
    hide Mul, In, Elapsed, RoundUp;
    var s := Renewed(c, m.s, now);
    if lim.bps.Some? {
      WithinBpsIff(c, lim.bps.value, s, now, size);
    }
    if lim.iops.Some? {
      WithinIopsIff(c, lim.iops.value, s, now);
    }
  }

  /** A new slice allows what one slice allows. */
  lemma FreshIs(c: Clock, lim: Limit, now: nat, size: nat)
    requires c.Valid()
    ensures FitsAt(c, lim, NewSlice(c, now), now, size) <==> FitsFresh(c, lim, size)
  {
    hide Mul, RoundUp;
    SliceIsMultiple(c.slice);
  }

  /** What a refusal leaves: the slice goes on, and lasts at least as long as the bio is told to wait. */
  lemma AfterRefusal(c: Clock, lim: Limit, m: Meter, now: nat, size: nat)
    requires c.Valid() && lim.Valid() && !Ask(c, lim, m, now, size).1.ok
    ensures var (m', v) := Ask(c, lim, m, now, size);
      && m'.s == Renewed(c, m.s, now).(end := m'.s.end) && m'.s.start <= now
      && m'.s.end >= now + v.wait && m'.s.end >= now + c.slice && v.wait > 0
  {
    hide Mul, In, Elapsed, RoundUp;
    var (m', v) := Ask(c, lim, m, now, size);
    RoundUpBounds(now + c.slice, c.slice);
    RoundUpBounds(now + v.wait, c.slice);
  }

  /** Only what was charged and when the slice began matter. */
  lemma SameFit(c: Clock, lim: Limit, s: Slice, s': Slice, now: nat, size: nat)
    requires c.Valid() && s.start == s'.start <= now && s.bytes == s'.bytes && s.ios == s'.ios
    ensures FitsAt(c, lim, s, now, size) <==> FitsAt(c, lim, s', now, size)
  {
  }

  /**
   * A bio that was refused at `now` asks again at `t`. As long as the slice lasts
   * it may go exactly if it fits in the time that has passed in it; after that a
   * new slice is started, and it may go exactly if it fits in a single slice.
   */
  lemma AskedAgain(c: Clock, lim: Limit, m: Meter, now: nat, size: nat, t: nat)
    requires c.Valid() && lim.Valid() && !Ask(c, lim, m, now, size).1.ok && now <= t
    ensures var m' := Ask(c, lim, m, now, size).0;
      && m'.s.start <= t
      && (Ask(c, lim, m', t, size).1.ok <==>
            if t <= m'.s.end then FitsAt(c, lim, m'.s, t, size) else FitsFresh(c, lim, size))
  {
    hide Mul, In, Elapsed, RoundUp, FitsAt, FitsFresh, Ask;
    var m' := Ask(c, lim, m, now, size).0;
    AfterRefusal(c, lim, m, now, size);
    AskIs(c, lim, m', t, size);
    if t <= m'.s.end {
      SameFit(c, lim, m'.s, Renewed(c, m'.s, t), t, size);
    } else {
      FreshIs(c, lim, t, size);
    }
  }

  // ----- bios per second ---------------------------------------------------

  lemma IopsFits(c: Clock, iops: nat, s: Slice, now: nat, t: nat)
    requires c.Valid() && s.start <= now && iops > 0 && !WithinIops(c, Some(iops), s, now).ok
    requires t >= now + WithinIops(c, Some(iops), s, now).wait
    ensures Mul(s.ios + 1, c.hz) <= Mul(iops, Elapsed(c, s, t))
  {
    hide Mul, In, Elapsed, RoundUp;
    var w := In(s.ios + 1, c.hz, iops) + 1;
    Below(s.ios + 1, c.hz, iops);
    ElapsedIs(c, s, t);
    MulLe(iops, w, Elapsed(c, s, t));
    MulSwap(w, iops);
  }

  lemma ElapsedSame(c: Clock, s: Slice, s': Slice, now: nat)
    requires c.Valid() && s.start == s'.start <= now
    ensures Elapsed(c, s, now) == Elapsed(c, s', now)
  {
  }

  lemma RoundUpGrows(x: nat, x': nat, y: nat)
    requires y > 0
    ensures x <= x' ==> RoundUp(x, y) <= RoundUp(x', y)
  {
    var q, q' := (x + (y - 1)) / y, (x' + (y - 1)) / y;
    if x <= x' && q > q' {
      assert x' + (y - 1) < (q' + 1) * y;
      MulLe(y, q' + 1, q);
    }
    if q <= q' {
      MulLe(y, q, q');
    }
  }

  lemma AtLeastOne(x: nat, y: nat)
    requires 0 < x && 0 < y
    ensures RoundUp(x, y) >= y
  {
    var q := (x + (y - 1)) / y;
    assert q >= 1;
    MulLe(y, 1, q);
  }

  lemma ElapsedGrows(c: Clock, s: Slice, now: nat, later: nat)
    requires c.Valid() && s.start <= now <= later
    ensures Elapsed(c, s, now) <= Elapsed(c, s, later)
  {
    hide RoundUp;
    RoundUpGrows(if now == s.start then c.slice else now - s.start,
                 if later == s.start then c.slice else later - s.start, c.slice);
    if now == s.start && later > now {
      SliceIsMultiple(c.slice);
      AtLeastOne(later - s.start, c.slice);
    }
  }

  /**
   * A bio over the limit on bios per second only: after the announced time it may
   * go, if it asks while its slice lasts, and if not, exactly if it fits in one.
   */
  lemma IopsWaitSuffices(c: Clock, lim: Limit, m: Meter, now: nat, size: nat, t: nat)
    requires c.Valid() && lim.Valid() && !Ask(c, lim, m, now, size).1.ok
    requires Renewed(c, m.s, now).start <= now && Renewed(c, m.s, now).ios < UINT_MAX
    requires WithinBps(c, lim.bps, Renewed(c, m.s, now), now, size).ok
    ensures var (m', v) := Ask(c, lim, m, now, size);
      && now + v.wait <= m'.s.end
      && (now + v.wait <= t <= m'.s.end ==> Ask(c, lim, m', t, size).1.ok)
      && (t > m'.s.end ==> (Ask(c, lim, m', t, size).1.ok <==> FitsFresh(c, lim, size)))
  {
    hide Mul, In, Elapsed, RoundUp, FitsFresh;
    var (m', v) := Ask(c, lim, m, now, size);
    var s := m'.s;
    AfterRefusal(c, lim, m, now, size);
    if t >= now {
      AskedAgain(c, lim, m, now, size, t);
    }
    if now + v.wait <= t <= s.end {
      var s1 := Renewed(c, m.s, now);
      IopsFits(c, lim.iops.value, s1, now, t);
      ElapsedSame(c, s1, s, t);
      if lim.bps.Some? {
        WithinBpsIff(c, lim.bps.value, s1, now, size);
        ElapsedSame(c, s1, s, now);
        ElapsedGrows(c, s, now, t);
        MulLe(lim.bps.value, Elapsed(c, s, now), Elapsed(c, s, t));
      }
    }
  }

  // ----- bytes per second --------------------------------------------------

  /** The bytes over the limit, and the ticks they take at that rate, rounded down but at least one. */
  function Extra(c: Clock, bps: nat, s: Slice, now: nat, size: nat): nat
    requires c.Valid() && s.start <= now && bps > 0 && !WithinBps(c, Some(bps), s, now, size).ok
  {
    s.bytes + size - In(bps, Elapsed(c, s, now), c.hz)
  }

  function Ticks(c: Clock, bps: nat, s: Slice, now: nat, size: nat): nat
    requires c.Valid() && s.start <= now && bps > 0 && !WithinBps(c, Some(bps), s, now, size).ok
  {
    Max(In(Extra(c, bps, s, now, size), c.hz, bps), 1)
  }

  /** Bytes that fit in the limit now and in some ticks more. */
  lemma FitsLater(c: Clock, bps: nat, s: Slice, now: nat, size: nat, ticks: nat)
    requires c.Valid() && s.start <= now && bps > 0 && !WithinBps(c, Some(bps), s, now, size).ok
    requires Mul(Extra(c, bps, s, now, size), c.hz) <= Mul(bps, ticks)
    ensures s.bytes + size <= In(bps, Elapsed(c, s, now) + ticks, c.hz)
  {
    hide Mul, In, Elapsed;
    var rnd, extra := Elapsed(c, s, now), Extra(c, bps, s, now, size);
    InTimes(bps, rnd, c.hz);
    MulPlus(c.hz, In(bps, rnd, c.hz), extra);
    MulPlus(bps, rnd, ticks);
    AtLeast(bps, rnd + ticks, c.hz, s.bytes + size);
  }

  lemma DivShift(m: nat, n: nat, y: nat)
    requires y > 0
    ensures (n + m * y) / y == n / y + m
  {
    var q, r := n / y, n % y;
    assert n + m * y == (q + m) * y + r;
    QuotientUnique(n + m * y, q + m, r, y);
  }

  lemma RoundUpPast(k: nat, x: nat, y: nat)
    requires y > 0
    ensures RoundUp(RoundUp(k, y) + x, y) == RoundUp(k, y) + RoundUp(x, y)
  {
    var m := (k + (y - 1)) / y;
    DivShift(m, x + (y - 1), y);
    assert m * y + x + (y - 1) == x + (y - 1) + m * y;
    assert ((x + (y - 1)) / y + m) * y == (x + (y - 1)) / y * y + m * y;
  }

  /** The time that will count when the announced wait is over: whole slices again. */
  lemma ElapsedAfterWait(c: Clock, bps: nat, s: Slice, now: nat, size: nat)
    requires c.Valid() && s.start <= now && bps > 0 && !WithinBps(c, Some(bps), s, now, size).ok
    ensures var later := now + WithinBps(c, Some(bps), s, now, size).wait;
      Elapsed(c, s, later) == Elapsed(c, s, now) + RoundUp(Ticks(c, bps, s, now, size), c.slice)
  {
    hide RoundUp, In;
    ElapsedIs(c, s, now);
    RoundUpPast(if now == s.start then c.slice else now - s.start, Ticks(c, bps, s, now, size), c.slice);
  }

  lemma OneMore(c: Clock, bps: nat, extra: nat, ticks: nat)
    requires bps > 0 && ticks == Max(In(extra, c.hz, bps), 1)
    ensures Mul(extra, c.hz) <= Mul(bps, ticks + 1)
  {
    hide Mul, In;
    Below(extra, c.hz, bps);
    MulSwap(In(extra, c.hz, bps) + 1, bps);
    MulLe(bps, In(extra, c.hz, bps) + 1, ticks + 1);
  }

  /** More than the announced time after the refusal, the bytes fit in the slice. */
  lemma BytesFit(c: Clock, bps: nat, s: Slice, now: nat, size: nat, t: nat)
    requires c.Valid() && s.start <= now && bps > 0 && !WithinBps(c, Some(bps), s, now, size).ok
    requires t > now + WithinBps(c, Some(bps), s, now, size).wait
    ensures Mul(s.bytes + size, c.hz) <= Mul(bps, Elapsed(c, s, t))
  {
    hide Mul, In, Elapsed, RoundUp;
    var rnd, ticks := Elapsed(c, s, now), Ticks(c, bps, s, now, size);
    ElapsedIs(c, s, now);
    ElapsedIs(c, s, t);
    OneMore(c, bps, Extra(c, bps, s, now, size), ticks);
    FitsLater(c, bps, s, now, size, ticks + 1);
    InIff(bps, rnd + ticks + 1, c.hz, s.bytes + size);
    MulLe(bps, rnd + ticks + 1, Elapsed(c, s, t));
  }

  lemma SameVerdict(c: Clock, bps: nat, s: Slice, s': Slice, now: nat, size: nat)
    requires c.Valid() && bps > 0 && s.start == s'.start <= now && s.bytes == s'.bytes
    ensures WithinBps(c, Some(bps), s, now, size) == WithinBps(c, Some(bps), s', now, size)
  {
  }

  /**
   * A bio over a limit on bytes per second. At the announced time it may go if
   * and only if its bytes fit in that time rounded up to slices: the division that
   * gives the time is rounded down, so they may not. Later it may go as long as
   * its slice lasts. After that it may go if and only if it fits in one slice.
   */
  lemma BpsWaitSuffices(c: Clock, bps: nat, m: Meter, now: nat, size: nat, t: nat)
    requires c.Valid() && bps > 0 && !Ask(c, Limit(Some(bps), None), m, now, size).1.ok
    ensures var lim := Limit(Some(bps), None);
      var (m', v) := Ask(c, lim, m, now, size);
      && m'.s.start <= now && now + v.wait <= m'.s.end && !WithinBps(c, Some(bps), m'.s, now, size).ok
      && (t == now + v.wait ==>
           (Ask(c, lim, m', t, size).1.ok <==>
            Mul(m'.s.bytes + size, c.hz) <=
            Mul(bps, Elapsed(c, m'.s, now) + RoundUp(Ticks(c, bps, m'.s, now, size), c.slice))))
      && (now + v.wait < t <= m'.s.end ==> Ask(c, lim, m', t, size).1.ok)
      && (t > m'.s.end ==> (Ask(c, lim, m', t, size).1.ok <==> Mul(size, c.hz) <= Mul(bps, c.slice)))
  {
    hide Mul, In, Elapsed, RoundUp;
    var lim := Limit(Some(bps), None);
    var (m', v) := Ask(c, lim, m, now, size);
    AfterRefusal(c, lim, m, now, size);
    SameVerdict(c, bps, Renewed(c, m.s, now), m'.s, now, size);
    assert v == WithinBps(c, Some(bps), m'.s, now, size);
    if t >= now {
      AskedAgain(c, lim, m, now, size, t);
    }
    ElapsedAfterWait(c, bps, m'.s, now, size);
    if now + v.wait < t {
      BytesFit(c, bps, m'.s, now, size, t);
    }
  }

  lemma TwoSlices(c: Clock, s: Slice)
    requires c.Valid()
    ensures Elapsed(c, s, s.start) == c.slice && Elapsed(c, s, s.start + 2 * c.slice) == 2 * c.slice
  {
    hide RoundUp;
    SliceIsMultiple(c.slice);
    RoundUpPast(c.slice, c.slice, c.slice);
  }

  /** Ten times `a` a second is `a` in a tenth of a second, and `a + 2` takes a tick less than `h + 1`. */
  lemma TenthRates(a: nat, h: nat)
    requires 0 < h && 2 * h < a
    ensures In(10 * a, h, 10 * h) == a && In(10 * a, 2 * h, 10 * h) == 2 * a && In(a + 2, 10 * h, 10 * a) == h
  {
    assert 10 * a * h == a * (10 * h);
    QuotientUnique(10 * a * h, a, 0, 10 * h);
    assert 10 * a * (2 * h) == 2 * a * (10 * h);
    QuotientUnique(10 * a * (2 * h), 2 * a, 0, 10 * h);
    assert (a + 2) * (10 * h) == h * (10 * a) + 20 * h;
    QuotientUnique((a + 2) * (10 * h), h, 20 * h, 10 * a);
  }

  /**
   * With ten slices a second, as the kernel has, and `10 * (256 * k - 1)` bytes a
   * second: after the wait for a bio of `k` sectors it is refused again.
   */
  lemma BpsWaitTooShort(h: nat, k: nat)
    requires 0 < h && 2 * h < 256 * k - 1
    ensures
      var c, lim, size := Clock(10 * h, h), Limit(Some(10 * (256 * k - 1)), None), 512 * k;
      var (m, v) := Ask(c, lim, FRESH, 0, size);
      !v.ok && v.wait == 2 * h && m.s.end == 2 * h && !Ask(c, lim, m, v.wait, size).1.ok
  {
    hide In, Elapsed, RoundUp, Mul;
    var c, a := Clock(10 * h, h), 256 * k - 1;
    var lim, size := Limit(Some(10 * a), None), 512 * k;
    var s := Renewed(c, FRESH.s, 0);
    SliceIsMultiple(h);
    TwoSlices(c, Slice(0, 0, 0, h));
    TwoSlices(c, s);
    TenthRates(a, h);
    RoundUpPast(h, h, h);
    assert s == Slice(0, 0, 0, h);
    var (m, v) := Ask(c, lim, FRESH, 0, size);
    assert v == Verdict(false, 2 * h);
    assert m.s == Slice(0, 0, 0, 2 * h);
    AskedAgain(c, lim, FRESH, 0, size, 2 * h);
    TwoSlices(c, m.s);
    WithinBpsIff(c, 10 * a, m.s, 2 * h, size);
  }

  // ----- asking too late ---------------------------------------------------

  /** The bio asks again and again, never sooner than it was told, and is refused each time. */
  predicate Starves(c: Clock, lim: Limit, m: Meter, soonest: nat, size: nat, events: seq<Event>)
    requires c.Valid() && lim.Valid()
    decreases |events|
  {
    events == [] ||
    (&& events[0] == Asked(events[0].now, size) && soonest <= events[0].now
     && var (m', v) := Ask(c, lim, m, events[0].now, size);
        !v.ok && Starves(c, lim, m', events[0].now + v.wait, size, events[1..]))
  }

  /** It asks a tick after its slice has ended, `n` times. */
  function LateAsks(c: Clock, lim: Limit, m: Meter, size: nat, n: nat): seq<Event>
    requires c.Valid() && lim.Valid()
    decreases n
  {
    if n == 0 then []
    else [Asked(m.s.end + 1, size)] + LateAsks(c, lim, Ask(c, lim, m, m.s.end + 1, size).0, size, n - 1)
  }

  /** A bio that does not fit in one slice may be refused any number of times, if it always asks too late. */
  lemma {:induction false} LateAskerStarves(c: Clock, lim: Limit, m: Meter, size: nat, n: nat, soonest: nat)
    requires c.Valid() && lim.Valid() && !FitsFresh(c, lim, size) && soonest <= m.s.end
    ensures |LateAsks(c, lim, m, size, n)| == n && Starves(c, lim, m, soonest, size, LateAsks(c, lim, m, size, n))
    decreases n
  {
    hide Mul, In, Elapsed, RoundUp, FitsAt, FitsFresh, Ask;
    if n > 0 {
      var t := m.s.end + 1;
      AskIs(c, lim, m, t, size);
      FreshIs(c, lim, t, size);
      assert Renewed(c, m.s, t) == NewSlice(c, t);
      var (m', v) := Ask(c, lim, m, t, size);
      AfterRefusal(c, lim, m, t, size);
      LateAskerStarves(c, lim, m', size, n - 1, t + v.wait);
      var events := LateAsks(c, lim, m, size, n);
      assert events[1..] == LateAsks(c, lim, m', size, n - 1);
    }
  }
}
