/**
 * The request operations of blk-merge.c and blk-core.c as they are written:
 * loops over bios and vectors, updating the request in place. Each is proved
 * to do what modules Requests and Completion say.
 */
module RequestObject {
  import opened Block
  import opened Numbers
  import opened Segments
  import opened Completion
  import opened Requests

  // ----- counting segments -------------------------------------------------

  /** What the counting loop knows after the vectors `vs`. */
  ghost predicate Tally(q: Limits, vs: seq<Bvec>, front0: nat, nr: nat, segSize: nat, highPrv: bool, front: nat) {
    var p := Recalc(q, vs);
    && nr == |p|
    && (p == [] ==> highPrv && segSize == 0 && front == front0)
    && (p != [] ==>
          && vs != [] && Last(p) != [] && Last(Last(p)) == Last(vs)
          && segSize == Total(Last(p)) && highPrv == q.high(Last(p)[0])
          && front == if |p| == 1 then front0 else Max(front0, Total(p[0])))
  }

  lemma RecalcAppend(q: Limits, vs: seq<Bvec>, v: Bvec)
    ensures var p := Recalc(q, vs);
      Recalc(q, vs + [v]) == Put(p != [] && Fits(q, Last(p), v) && !q.high(v) && !q.high(Last(p)[0]), p, v)
  {
    assert (vs + [v])[..|vs|] == vs;
  }

  lemma TallyJoin(q: Limits, vs: seq<Bvec>, v: Bvec, front0: nat, nr: nat, segSize: nat, front: nat)
    requires Tally(q, vs, front0, nr, segSize, false, front) && nr > 0 && !q.high(v)
    requires q.cluster && segSize + v.len <= q.maxSegmentSize && q.together(Last(vs), v)
    ensures Tally(q, vs + [v], front0, nr, segSize + v.len, false, front)
  {
    RecalcAppend(q, vs, v);
    TotalAppend(Last(Recalc(q, vs)), v);
  }

  lemma TallyNew(q: Limits, vs: seq<Bvec>, v: Bvec, front0: nat, nr: nat, segSize: nat, highPrv: bool, front: nat)
    requires Tally(q, vs, front0, nr, segSize, highPrv, front)
    requires nr > 0 && !highPrv && !q.high(v) && q.cluster && segSize + v.len <= q.maxSegmentSize ==>
               !q.together(Last(vs), v)
    ensures Tally(q, vs + [v], front0, nr + 1, v.len, q.high(v), if nr == 1 && segSize > front then segSize else front)
  {
    RecalcAppend(q, vs, v);
    TotalAppend([], v);
  }

  // The local variables of __blk_recalc_rq_segments.
  datatype Counter = Counter(nr: nat, segSize: nat, highPrv: bool, front: nat, prev: Bvec)

  ghost predicate Tallied(q: Limits, vs: seq<Bvec>, front0: nat, c: Counter) {
    Tally(q, vs, front0, c.nr, c.segSize, c.highPrv, c.front) && (vs != [] ==> c.prev == Last(vs))
  }

  /** The inner loop of __blk_recalc_rq_segments: the vectors of one bio. */
  method CountBio(q: Limits, b: Bio, c0: Counter, ghost before: seq<Bvec>, ghost front0: nat) returns (c: Counter)
    requires Tallied(q, before, front0, c0)
    ensures Tallied(q, before + b.Left(), front0, c)
  {
    hide Recalc, Total;
    var nr: nat, segSize: nat, highPrv, front: nat, prev := c0.nr, c0.segSize, c0.highPrv, c0.front, c0.prev;
    var j := b.idx;
    ghost var vs := before;
    while j < |b.vecs|
      invariant j <= |b.vecs| ==> b.idx <= j && vs == before + b.vecs[b.idx..j]
      invariant j > |b.vecs| ==> j == b.idx && vs == before
      invariant Tallied(q, vs, front0, Counter(nr, segSize, highPrv, front, prev))
    {
      var v := b.vecs[j];
      var high := q.high(v);
      if !high && !highPrv && q.cluster && segSize + v.len <= q.maxSegmentSize && q.together(prev, v) {
        TallyJoin(q, vs, v, front0, nr, segSize, front);
        segSize := segSize + v.len;
      } else {
        TallyNew(q, vs, v, front0, nr, segSize, highPrv, front);
        if nr == 1 && segSize > front {
          front := segSize;
        }
        nr := nr + 1;
        segSize := v.len;
        highPrv := high;
      }
      prev := v;
      vs := vs + [v];
      j := j + 1;
    }
    assert vs == before + b.Left();
    return Counter(nr, segSize, highPrv, front, prev);
  }

  lemma TallyStart(q: Limits, front0: nat)
    ensures Recalc(q, []) == [] && Vecs([]) == []
    ensures Tallied(q, Vecs([]), front0, Counter(0, 0, true, front0, Bvec(0, 0, 0)))
  {
  }

  /** The loop over the bios. */
  method CountBios(q: Limits, bios: seq<Bio>) returns (c: Counter)
    requires bios != []
    ensures Tallied(q, Vecs(bios), bios[0].segFront, c)
  {
    hide Recalc, Total, Tallied;
    TallyStart(q, bios[0].segFront);
    c := Counter(0, 0, true, bios[0].segFront, Bvec(0, 0, 0));
    assert bios[..0] == [];
    for i := 0 to |bios|
      invariant Tallied(q, Vecs(bios[..i]), bios[0].segFront, c)
    {
      c := CountBio(q, bios[i], c, Vecs(bios[..i]), bios[0].segFront);
      assert bios[..i + 1][..i] == bios[..i];
    }
    assert bios[..|bios|] == bios;
  }

  /** __blk_recalc_rq_segments */
  method CountSegments(q: Limits, bios: seq<Bio>) returns (nr: nat, bs: seq<Bio>)
    ensures nr == |Recalc(q, Vecs(bios))|
    ensures bs == Caches(q, bios)
  {
    hide Recalc, Total, Vecs;
    TallyStart(q, 0);
    if bios == [] {
      return 0, [];
    }
    var c := CountBios(q, bios);
    nr := c.nr;
    bs := bios;
    if nr == 1 && c.segSize > c.front {
      bs := bs[0 := bs[0].(segFront := c.segSize)];
    } else {
      bs := bs[0 := bs[0].(segFront := c.front)];
    }
    if c.segSize > Last(bs).segBack {
      bs := bs[|bs| - 1 := Last(bs).(segBack := c.segSize)];
    }
  }

  /** bio_phys_segments, which counts with blk_recount_segments if it has to */
  method RecountBio(q: Limits, b: Bio) returns (b': Bio)
    ensures b' == Recount(q, b)
  {
    if b.segs.Some? {
      return b;
    }
    var n, bs := CountSegments(q, [b]);
    assert Vecs([b]) == b.Left() by {
      assert [b][..0] == [];
      assert Vecs([b]) == Vecs([]) + b.Left();
    }
    return bs[0].(segs := Some(n));
  }

  // ----- the scatterlist ---------------------------------------------------

  // A scatterlist entry as the driver gets it.
  datatype Sg = Sg(page: nat, offset: nat, length: nat)

  function SgOf(e: Entry): Sg
    requires e != []
  {
    Sg(e[0].page, e[0].offset, Total(e))
  }

  ghost predicate Describes(sgs: seq<Sg>, p: seq<Entry>) {
    |sgs| == |p| && forall i | 0 <= i < |p| :: p[i] != [] && sgs[i] == SgOf(p[i])
  }

  lemma DescribesPut(sgs: seq<Sg>, p: seq<Entry>, v: Bvec, join: bool)
    requires Describes(sgs, p) && (join ==> p != [])
    ensures !join ==> Describes(sgs + [Sg(v.page, v.offset, v.len)], Put(join, p, v))
    ensures join ==>
      Describes(sgs[|sgs| - 1 := Last(sgs).(length := Last(sgs).length + v.len)], Put(join, p, v))
  {
    if join {
      TotalAppend(Last(p), v);
    } else {
      TotalAppend([], v);
    }
  }

  /** The loop of blk_rq_map_sg over the vectors of a request. */
  method MapVecs(q: Limits, vs: seq<Bvec>) returns (sgs: seq<Sg>)
    ensures Describes(sgs, MapSg(q, vs))
  {
    sgs := [];
    var prev := Bvec(0, 0, 0);
    for i := 0 to |vs|
      invariant Describes(sgs, MapSg(q, vs[..i]))
      invariant i > 0 ==> prev == vs[i - 1] && sgs != []
    {
      var v := vs[i];
      ghost var p := MapSg(q, vs[..i]);
      assert vs[..i + 1][..i] == vs[..i];
      ghost var join := p != [] && Fits(q, Last(p), v);
      assert i > 0 ==> Last(Last(p)) == prev by {
        if i > 0 {
          MapSgPartition(q, vs[..i]);
          var _ := Chop(q, p, vs[..i]);
        }
      }
      DescribesPut(sgs, p, v, join);
      if i > 0 && q.cluster && Last(sgs).length + v.len <= q.maxSegmentSize && q.together(prev, v) {
        sgs := sgs[|sgs| - 1 := Last(sgs).(length := Last(sgs).length + v.len)];
      } else {
        sgs := sgs + [Sg(v.page, v.offset, v.len)];
      }
      prev := v;
    }
    assert vs[..|vs|] == vs;
  }

  // ----- completing bytes --------------------------------------------------

  /** The cursor of blk_update_request inside the first bio: `k` vectors and `done` bytes passed, `nr` to go. */
  ghost predicate Cursor(b: Bio, k: nat, done: nat, nr: nat) {
    && k <= |b.Left()|
    && |BytesOf(b.Left())| == done + |BytesOf(b.Left()[k..])|
    && Skip(b.Left(), done + nr) == Skip(b.Left()[k..], nr)
    && (k > 0 ==> done + nr < b.size)
  }

  lemma CursorStep(b: Bio, k: nat, done: nat, nr: nat)
    requires BioOk(b) && Cursor(b, k, done, nr) && done + nr < b.size
    ensures k < |b.Left()|
    ensures nr > 0 && b.Left()[k].len <= nr ==> Cursor(b, k + 1, done + b.Left()[k].len, nr - b.Left()[k].len)
  {
    assert b.Left()[k..][1..] == b.Left()[k + 1..] || k >= |b.Left()|;
  }

  // Where blk_update_request stops.
  datatype Stop = Stop(bios: seq<Bio>, k: nat, done: nat, nr: nat, ended: seq<EndedBio>)

  function Shorten(v: Bvec, n: nat): Bvec
    requires n <= v.len
  {
    Bvec(v.page, v.offset + n, v.len - n)
  }

  /** The stop inside the first bio left, if some of it is done: its vectors are advanced to the cursor. */
  ghost predicate StopsAt(s: Stop, bios: seq<Bio>, n: nat, err: int) {
    && s.ended == Finished(bios, n, err)
    && (s.bios == [] <==> Drop(bios, n, err) == [])
    && (s.bios != [] ==>
          var b := s.bios[0];
          && BioOk(b)
          && (s.done == 0 ==> SameView(s.bios, Drop(bios, n, err)))
          && (s.done > 0 ==>
                && s.k < |b.Left()| && s.nr <= b.Left()[s.k].len && s.done < b.size
                && Skip(b.Left(), s.done) == [Shorten(b.Left()[s.k], s.nr)] + b.Left()[s.k + 1..]
                && Drop(bios, n, err) == [Advance(b, s.done, err)] + s.bios[1..]))
  }

  lemma StopInVec(b: Bio, k: nat, done: nat, nr: nat)
    requires BioOk(b) && Cursor(b, k, done, nr) && k < |b.Left()| && nr < b.Left()[k].len
    ensures Skip(b.Left(), done + nr) == [Shorten(b.Left()[k], nr)] + b.Left()[k + 1..]
  {
    assert b.Left()[k..][1..] == b.Left()[k + 1..];
    if nr == 0 {
      assert b.Left()[k..] == [b.Left()[k]] + b.Left()[k + 1..];
    }
  }

  lemma StopAfterVec(b: Bio, k: nat, done: nat)
    requires BioOk(b) && Cursor(b, k, done, 0) && done < b.size
    ensures k < |b.Left()|
    ensures Skip(b.Left(), done) == [Shorten(b.Left()[k], 0)] + b.Left()[k + 1..]
  {
    assert k < |b.Left()|;
    assert b.Left()[k..] == [b.Left()[k]] + b.Left()[k + 1..];
  }

  /** The loop invariant: what is left to do from here is what is left of the whole. */
  ghost predicate Going(s: Stop, bios: seq<Bio>, n: nat, err: int) {
    && s.bios != [] && BiosOk(s.bios) && s.nr <= n
    && Cursor(s.bios[0], s.k, s.done, s.nr) && (s.k > 0 ==> s.nr > 0)
    && Drop(bios, n, err) == Drop(s.bios, s.done + s.nr, err)
    && Finished(bios, n, err) == s.ended + Finished(s.bios, s.done + s.nr, err)
  }

  lemma GoingStart(bios: seq<Bio>, n: nat, err: int)
    requires BiosOk(bios) && bios != []
    ensures Going(Stop(bios, 0, 0, n, []), bios, n, err)
  {
  }

  lemma CursorAtStart(b: Bio, k: nat, done: nat, nr: nat)
    requires Cursor(b, k, done, nr) && nr >= b.size
    ensures k == 0 && done == 0
  {
    hide BytesOf, Skip;
    assert b.Left()[0..] == b.Left();
  }

  lemma DropWhole(bios: seq<Bio>, n: nat, err: int)
    requires bios != [] && n >= bios[0].size
    ensures Drop(bios, n, err) == if n == bios[0].size then bios[1..] else Drop(bios[1..], n - bios[0].size, err)
    ensures Finished(bios, n, err) == [EndedBio(bios[0].id, EndError(bios[0], err))] +
                                      if n == bios[0].size then [] else Finished(bios[1..], n - bios[0].size, err)
  {
  }

  lemma DropNothing(n: nat, err: int)
    ensures Drop([], n, err) == [] && Finished([], n, err) == []
  {
  }

  lemma SameViewSelf(bios: seq<Bio>)
    ensures SameView(bios, bios)
  {
  }

  lemma CursorStart(b: Bio, nr: nat)
    ensures Cursor(b, 0, 0, nr)
  {
    assert b.Left()[0..] == b.Left();
  }

  /** The first bio is done completely. */
  lemma GoingEnd(s: Stop, bios: seq<Bio>, n: nat, err: int)
    requires Going(s, bios, n, err) && s.nr >= s.bios[0].size
    ensures
      var b := s.bios[0];
      var s' := Stop(s.bios[1..], 0, 0, s.nr - b.size, s.ended + [EndedBio(b.id, EndError(b, err))]);
      if s'.bios == [] || s'.nr == 0 then StopsAt(s', bios, n, err) else Going(s', bios, n, err)
  {
    hide BytesOf, Skip, Advance, Drop, Finished, Cursor, BioOk, SameView;
    var b, rest := s.bios[0], s.bios[1..];
    CursorAtStart(b, s.k, s.done, s.nr);
    DropWhole(s.bios, s.nr, err);
    var e := EndedBio(b.id, EndError(b, err));
    var more := if s.nr == b.size then [] else Finished(rest, s.nr - b.size, err);
    assert s.ended + ([e] + more) == s.ended + [e] + more;
    if rest == [] {
      DropNothing(s.nr - b.size, err);
    } else {
      CursorStart(rest[0], s.nr - b.size);
      SameViewSelf(rest);
    }
  }

  /** The cursor stops inside the first bio. */
  lemma GoingStop(s: Stop, bios: seq<Bio>, n: nat, err: int, s': Stop)
    requires Going(s, bios, n, err) && s'.bios == s.bios && s'.ended == s.ended
    requires s'.done == s.done + s.nr < s.bios[0].size
    requires s'.k < |s.bios[0].Left()| && s'.nr <= s.bios[0].Left()[s'.k].len
    requires Skip(s.bios[0].Left(), s'.done) ==
             [Shorten(s.bios[0].Left()[s'.k], s'.nr)] + s.bios[0].Left()[s'.k + 1..]
    ensures StopsAt(s', bios, n, err)
  {
    hide BytesOf, Skip;
    if s'.done == 0 {
      assert View(View(s.bios[0])) == View(s.bios[0]);
    }
  }

  /** No byte was to be completed: nothing changes. */
  lemma NothingDone(s: Stop, bios: seq<Bio>, n: nat, err: int)
    requires Going(s, bios, n, err) && s.nr == 0 && s.bios[0].size > 0
    ensures s.done == 0 && StopsAt(s.(k := s.k + 1), bios, n, err)
  {
    assert View(View(s.bios[0])) == View(s.bios[0]);
    assert s.k == 0;
  }

  /** One more vector of the first bio is done. */
  lemma GoingStep(s: Stop, bios: seq<Bio>, n: nat, err: int)
    requires Going(s, bios, n, err) && s.nr < s.bios[0].size
    ensures s.k < |s.bios[0].Left()|
    ensures
      var b := s.bios[0];
      var len := b.Left()[s.k].len;
      if len > s.nr then StopsAt(Stop(s.bios, s.k, s.done + s.nr, s.nr, s.ended), bios, n, err)
      else
        var s' := Stop(s.bios, s.k + 1, s.done + len, s.nr - len, s.ended);
        if s'.nr == 0 then StopsAt(s', bios, n, err) else Going(s', bios, n, err)
  {
    hide Drop, Finished, Advance, BytesOf, Skip, SameView;
    var b := s.bios[0];
    assert s.done + s.nr < b.size;
    CursorStep(b, s.k, s.done, s.nr);
    var len := b.Left()[s.k].len;
    if len > s.nr {
      StopInVec(b, s.k, s.done, s.nr);
      GoingStop(s, bios, n, err, Stop(s.bios, s.k, s.done + s.nr, s.nr, s.ended));
    } else if s.nr == len {
      if s.nr > 0 {
        StopAfterVec(b, s.k + 1, s.done + len);
        GoingStop(s, bios, n, err, Stop(s.bios, s.k + 1, s.done + len, 0, s.ended));
      } else {
        NothingDone(s, bios, n, err);
      }
    }
  }

  /** The loop of blk_update_request. Its "bio idx" branch, past the last vector, is never taken. */
  method CompleteBytes(bios: seq<Bio>, n: nat, err: int) returns (s: Stop, total: nat)
    requires BiosOk(bios) && bios != []
    ensures StopsAt(s, bios, n, err)
    ensures s.bios != [] ==> total == n
  {
    hide BytesOf, Skip, Drop, Finished, Advance, StopsAt;
    GoingStart(bios, n, err);
    var left, k: nat, done: nat, nr: nat, ended := bios, 0, 0, n, [];
    total := 0;
    while true
      invariant Going(Stop(left, k, done, nr, ended), bios, n, err)
      invariant total + nr == n
      decreases |left|, |left[0].Left()| - k
    {
      var b := left[0];
      if nr >= b.size {
        GoingEnd(Stop(left, k, done, nr, ended), bios, n, err);
        left := left[1..];
        ended := ended + [EndedBio(b.id, EndError(b, err))];
        total := total + b.size;
        nr := nr - b.size;
        k, done := 0, 0;
        if left == [] || nr == 0 {
          return Stop(left, k, done, nr, ended), total;
        }
      } else {
        GoingStep(Stop(left, k, done, nr, ended), bios, n, err);
        assert b.idx + k < |b.vecs|;
        var len := b.vecs[b.idx + k].len;
        if len > nr {
          return Stop(left, k, done + nr, nr, ended), total + nr;
        }
        k, done, nr := k + 1, done + len, nr - len;
        total := total + len;
        if nr == 0 {
          return Stop(left, k, done, nr, ended), total;
        }
      }
    }
  }

  // ----- the request -------------------------------------------------------

  /** Requests that differ only in vectors that are done. */
  ghost predicate SameReq(a: Req, b: Req) {
    SameView(a.bios, b.bios) && a.(bios := []) == b.(bios := [])
  }

  lemma {:induction false} SameViewVecs(a: seq<Bio>, b: seq<Bio>)
    requires SameView(a, b)
    ensures Vecs(a) == Vecs(b)
  {
    if a != [] {
      assert View(Last(a)) == View(Last(b));
      SameViewVecs(a[..|a| - 1], b[..|b| - 1]);
    }
  }

  lemma SameViewCaches(q: Limits, a: seq<Bio>, b: seq<Bio>)
    requires SameView(a, b)
    ensures SameView(Caches(q, a), Caches(q, b))
  {
    SameViewVecs(a, b);
    hide Recalc;
    if a != [] {
      assert View(a[0]) == View(b[0]) && View(Last(a)) == View(Last(b));
    }
  }

  /** The first bio with its own cursor moved to where the loop stopped. */
  function Moved(b: Bio, k: nat, done: nat, nr: nat, err: int): Bio
    requires b.idx + k < |b.vecs| && nr <= b.vecs[b.idx + k].len && done <= b.size
  {
    b.(size := b.size - done, sector := b.sector + done / SECTOR_SIZE, upToDate := b.upToDate && err == 0,
       idx := b.idx + k, vecs := b.vecs[b.idx + k := Shorten(b.vecs[b.idx + k], nr)])
  }

  lemma MovedCursor(b: Bio, k: nat, done: nat, nr: nat, err: int)
    requires BioOk(b) && k < |b.Left()| && nr <= b.Left()[k].len && 0 < done < b.size
    requires Skip(b.Left(), done) == [Shorten(b.Left()[k], nr)] + b.Left()[k + 1..]
    ensures b.idx + k < |b.vecs| && b.vecs[b.idx + k] == b.Left()[k]
    ensures View(Moved(b, k, done, nr, err)) == Advance(b, done, err) && BioOk(Moved(b, k, done, nr, err))
  {
    var b' := Moved(b, k, done, nr, err);
    assert b'.Left() == [Shorten(b.Left()[k], nr)] + b.Left()[k + 1..];
    SkipBytes(b.Left(), done);
  }

  lemma SameViewOk(a: seq<Bio>, b: seq<Bio>)
    requires SameView(a, b) && BiosOk(b)
    ensures forall i | 0 <= i < |a| :: a[i].size == |BytesOf(a[i].Left())|
    ensures Size(a) == Size(b)
    decreases |a|
  {
    if a != [] {
      assert View(a[0]) == View(b[0]);
      SameViewOk(a[1..], b[1..]);
      forall i | 0 <= i < |a| ensures a[i].size == |BytesOf(a[i].Left())| {
        assert View(a[i]) == View(b[i]) && BioOk(b[i]);
        assert View(b[i]).Left() == b[i].Left();
      }
    }
  }

  /** The bios after the loop and the cursor move. */
  function MoveTo(s: Stop, err: int): seq<Bio>
    requires s.bios != []
  {
    var b := s.bios[0];
    if s.done > 0 && b.idx + s.k < |b.vecs| && s.nr <= b.vecs[b.idx + s.k].len && s.done <= b.size then
      [Moved(b, s.k, s.done, s.nr, err)] + s.bios[1..]
    else s.bios
  }

  /** bio_cur_bytes */
  function CurBytes(b: Bio): nat {
    if b.vecs == [] then b.size else if b.idx < |b.vecs| then b.vecs[b.idx].len else 0
  }

  lemma CurBytesInBio(b: Bio)
    requires BioOk(b)
    ensures CurBytes(b) <= b.size
  {
  }

  lemma MoveToIs(s: Stop, bios: seq<Bio>, n: nat, err: int)
    requires StopsAt(s, bios, n, err) && s.bios != []
    ensures SameView(MoveTo(s, err), Drop(bios, n, err)) && BioOk(MoveTo(s, err)[0])
  {
    hide BytesOf, Skip, Drop, Finished, Advance, BioOk, Moved;
    if s.done > 0 {
      MovedCursor(s.bios[0], s.k, s.done, s.nr, err);
    }
  }

  lemma SizeAfter(bios: seq<Bio>, n: nat, err: int)
    requires BiosOk(bios) && bios != [] && Drop(bios, n, err) != []
    ensures n <= Size(bios) && BiosOk(Drop(bios, n, err)) && Size(Drop(bios, n, err)) == Size(bios) - n
  {
    hide BytesOf, Skip;
    DropStream(bios, n, err);
    StreamSize(bios);
    StreamSize(Drop(bios, n, err));
    DropAll(bios, n, err);
  }

  /** They are what Drop says, and the request is not shorter than its first vector. */
  lemma AfterLoop(s: Stop, bios: seq<Bio>, n: nat, err: int)
    requires BiosOk(bios) && bios != [] && StopsAt(s, bios, n, err) && s.bios != []
    ensures SameView(MoveTo(s, err), Drop(bios, n, err))
    ensures n <= Size(bios) && CurBytes(MoveTo(s, err)[0]) <= Size(bios) - n
  {
    hide BytesOf, Skip, Drop, Finished, Advance, BioOk, BiosOk, Moved, CurBytes, SameView;
    MoveToIs(s, bios, n, err);
    SizeAfter(bios, n, err);
    SameViewOk(MoveTo(s, err), Drop(bios, n, err));
    CurBytesInBio(MoveTo(s, err)[0]);
  }

  /** What blk_update_request makes of a request, given the bios after the cursor move. */
  function Shrunk(q: Limits, r: Req, n: nat, bs: seq<Bio>): Req
    requires bs != [] && n <= r.dataLen
  {
    r.(bios := Caches(q, bs), dataLen := r.dataLen - n, sector := r.sector + n / SECTOR_SIZE,
       failfast := if r.mixed then bs[0].failfast else r.failfast,
       segs := |Recalc(q, Vecs(bs))|, own := |Recalc(q, Vecs(bs))|)
  }

  lemma ShrunkIsUpdate(q: Limits, r: Req, n: nat, err: int, bs: seq<Bio>)
    requires bs != [] && SameView(bs, Drop(r.bios, n, err)) && r.dataLen == Size(r.bios) && n <= Size(r.bios)
    ensures SameReq(Shrunk(q, r, n, bs), Update(q, r, n, err))
  {
    hide Caches, Drop, Recalc, Vecs;
    SameViewCaches(q, bs, Drop(r.bios, n, err));
    SameViewVecs(bs, Drop(r.bios, n, err));
    assert View(bs[0]) == View(Drop(r.bios, n, err)[0]);
  }

  lemma UpdateAll(q: Limits, r: Req, n: nat, err: int)
    requires Drop(r.bios, n, err) == []
    ensures SameReq(r.(bios := [], dataLen := 0), Update(q, r, n, err))
  {
  }

  lemma RoundUpBy(n: nat, m: nat)
    requires m > 0
    ensures n + (if n % m == 0 then 0 else m - n % m) == RoundUp(n, m)
  {
    var q, r := n / m, n % m;
    if r == 0 {
      QuotientUnique(n + (m - 1), q, m - 1, m);
    } else {
      QuotientUnique(n + (m - 1), q + 1, r - 1, m);
    }
  }

  lemma {:induction false} SizeSnoc(bios: seq<Bio>, i: nat)
    requires i < |bios|
    ensures Size(bios[..i + 1]) == Size(bios[..i]) + bios[i].size
  {
    if i == 0 {
      assert bios[..1][1..] == [];
    } else {
      assert bios[..i + 1][1..] == bios[1..][..i] && bios[..i][1..] == bios[1..][..i - 1];
      SizeSnoc(bios[1..], i - 1);
    }
  }

  class Request {
    const q: Limits
    var bios: seq<Bio>
    var sector: nat
    var dataLen: nat
    var failfast: set<FailBit>
    var mixed: bool
    var noMerge: bool
    var started: bool
    var special: bool
    var kind: Kind
    var segs: nat
    ghost var own: nat

    ghost function Val(): Req
      reads this
    {
      Req(bios, sector, dataLen, failfast, mixed, noMerge, started, special, kind, segs, own)
    }

    /** init_request_from_bio */
    constructor (q: Limits, bio: Bio, kind: Kind)
      ensures this.q == q && Val() == New(q, bio, kind)
    {
      var b := RecountBio(q, bio);
      this.q := q;
      bios := [b];
      sector, dataLen := b.sector, b.size;
      failfast := if b.readAhead then b.failfast + FAILFAST_MASK else b.failfast;
      mixed, noMerge, started, special := false, false, false, false;
      this.kind := kind;
      segs := b.segs.value;
      own := b.segs.value;
    }

    /** blk_rq_set_mixed_merge */
    method SetMixedMerge()
      modifies this`bios, this`mixed
      ensures Val() == SetMixed(old(Val()))
    {
      if mixed {
        return;
      }
      for i := 0 to |bios|
        invariant |bios| == |old(bios)| && !mixed
        invariant forall j | 0 <= j < i :: bios[j] == old(bios)[j].(failfast := old(bios)[j].failfast + failfast)
        invariant forall j | i <= j < |bios| :: bios[j] == old(bios)[j]
      {
        bios := bios[i := bios[i].(failfast := bios[i].failfast + failfast)];
      }
      mixed := true;
    }

    /** ll_new_hw_segment, for a bio whose segments are counted */
    method NewHwSegment(b: Bio) returns (ok: bool)
      requires b.segs.Some?
      modifies this`segs, this`own, this`noMerge
      ensures ok == (old(segs) + b.segs.value <= q.maxSegments)
      ensures Val() == if ok then Plus(old(Val()), b) else old(Val()).(noMerge := true)
    {
      if segs + b.segs.value > q.maxSegments {
        noMerge := true;
        return false;
      }
      segs := segs + b.segs.value;
      own := own + b.segs.value;
      return true;
    }

    /** Count the segments of one of the bios, if that has not been done. */
    method RecountAt(i: nat)
      requires i < |bios|
      modifies this`bios
      ensures Val() == old(Val()).(bios := old(bios)[i := Recount(q, old(bios)[i])])
    {
      var b := RecountBio(q, bios[i]);
      bios := bios[i := b];
    }

    method ChainBack(b: Bio)
      modifies this`bios, this`mixed, this`dataLen
      ensures Val() == Append(old(Val()), b)
    {
      if failfast != b.failfast {
        SetMixedMerge();
      }
      bios := bios + [b];
      dataLen := dataLen + b.size;
    }

    method ChainFront(b: Bio)
      modifies this`bios, this`mixed, this`dataLen, this`sector, this`failfast
      ensures Val() == Prepend(old(Val()), b)
    {
      if failfast != b.failfast {
        SetMixedMerge();
        failfast := b.failfast;
      }
      bios := [b] + bios;
      sector := b.sector;
      dataLen := dataLen + b.size;
    }

    /** The back merge of __make_request, with ll_back_merge_fn */
    method TryBackMerge(bio: Bio) returns (merged: bool, b: Bio)
      requires bios != []
      modifies this
      ensures
        match BackMerge(q, old(Val()), bio)
        case Merged(r) => merged && Val() == r
        case Refused(r, bio') => !merged && Val() == r && b == bio'
    {
      hide Append, Recount;
      if dataLen / SECTOR_SIZE + bio.size / SECTOR_SIZE > q.maxSectors {
        noMerge := true;
        return false, bio;
      }
      RecountAt(|bios| - 1);
      b := RecountBio(q, bio);
      merged := NewHwSegment(b);
      if merged {
        ChainBack(b);
      }
    }

    /** The front merge of __make_request, with ll_front_merge_fn */
    method TryFrontMerge(bio: Bio) returns (merged: bool, b: Bio)
      requires bios != []
      modifies this
      ensures
        match FrontMerge(q, old(Val()), bio)
        case Merged(r) => merged && Val() == r
        case Refused(r, bio') => !merged && Val() == r && b == bio'
    {
      hide Prepend, Recount;
      if dataLen / SECTOR_SIZE + bio.size / SECTOR_SIZE > q.maxSectors {
        noMerge := true;
        return false, bio;
      }
      b := RecountBio(q, bio);
      RecountAt(0);
      merged := NewHwSegment(b);
      if merged {
        ChainFront(b);
      }
    }

    /** The size caches and the count of ll_merge_requests_fn, with blk_phys_contig_segment */
    method GlueTo(next: Request) returns (total: nat)
      requires next != this && next.q == q && bios != [] && next.bios != []
      modifies this`bios, next`bios
      ensures
        var g := Glue(q, old(bios), segs, old(next.bios), next.segs);
        total == g.segs && bios == g.front && next.bios == g.back
    {
      var size := Last(bios).segBack + next.bios[0].segFront;
      total := segs + next.segs;
      if PhysContig(q, Last(bios), next.bios[0]) && total > 0 {
        if segs == 1 {
          bios := bios[0 := bios[0].(segFront := size)];
        }
        if next.segs == 1 {
          next.bios := next.bios[|next.bios| - 1 := Last(next.bios).(segBack := size)];
        }
        total := total - 1;
      }
    }

    /** The second half of attempt_merge: the bios of `next` go over to this request. */
    method TakeOver(next: Request)
      requires next != this
      modifies this`bios, this`mixed, this`dataLen, next`bios, next`mixed
      ensures
        var r, n := old(Val()), old(next.Val());
        Val() == Chain(r, n, r.mixed || n.mixed || r.failfast != n.failfast) && next.bios == []
    {
      if mixed || next.mixed || failfast != next.failfast {
        SetMixedMerge();
        next.SetMixedMerge();
      }
      bios := bios + next.bios;
      dataLen := dataLen + next.dataLen;
      next.bios := [];
    }

    /** attempt_merge */
    method AttemptMerge(next: Request) returns (merged: bool)
      requires next != this && next.q == q && bios != [] && next.bios != []
      modifies this, next
      ensures
        match Join(q, old(Val()), old(next.Val()))
        case Joined(r) => merged && Val() == r && next.bios == []
        case Apart(r, n) => !merged && Val() == r && next.Val() == n
    {
      hide Chain, Glue;
      if noMerge || started || next.noMerge || next.started
         || kind != next.kind || sector + dataLen / SECTOR_SIZE != next.sector || special || next.special
         || dataLen / SECTOR_SIZE + next.dataLen / SECTOR_SIZE > q.maxSectors {
        return false;
      }
      var total := GlueTo(next);
      if total > q.maxSegments {
        return false;
      }
      segs := total;
      own := total;
      TakeOver(next);
      merged := true;
    }

    /** Leave the first bio where the loop stopped. */
    method MoveCursor(s: Stop, err: int)
      requires s.bios != []
      modifies this`bios
      ensures bios == MoveTo(s, err)
    {
      bios := s.bios;
      var b := bios[0];
      if s.done > 0 && b.idx + s.k < |b.vecs| && s.nr <= b.vecs[b.idx + s.k].len && s.done <= b.size {
        bios := [Moved(b, s.k, s.done, s.nr, err)] + bios[1..];
      }
    }

    /** The end of blk_update_request, for a request that is not complete. */
    method Shrink(total: nat)
      requires bios != [] && total <= dataLen
      // a request shorter than its first vector would be "botched"
      requires CurBytes(bios[0]) <= dataLen - total
      modifies this
      ensures Val() == Shrunk(q, old(Val()), total, old(bios))
    {
      hide Caches, Recalc, Vecs;
      dataLen := dataLen - total;
      sector := sector + total / SECTOR_SIZE;
      if mixed {
        failfast := bios[0].failfast;
      }
      segs, bios := CountSegments(q, bios);
      own := segs;
    }

    /**
     * blk_update_request. Besides the new state: it returns false exactly when
     * nothing is left, and it ends the bios that are complete, in order.
     */
    method UpdateRequest(err: int, n: nat) returns (more: bool, ended: seq<EndedBio>)
      requires BiosOk(bios) && dataLen == Size(bios)
      modifies this
      ensures ended == Finished(old(bios), n, err)
      ensures more <==> Drop(old(bios), n, err) != []
      ensures SameReq(Val(), Update(q, old(Val()), n, err))
    {
      hide Skip, Advance, MoveTo, BytesOf, Update, Caches, Recalc;
      if bios == [] {
        UpdateAll(q, Val(), n, err);
        return false, [];
      }
      var s, total := CompleteBytes(bios, n, err);
      ended := s.ended;
      if s.bios == [] {
        UpdateAll(q, Val(), n, err);
        bios := [];
        dataLen := 0;
        return false, ended;
      }
      AfterLoop(s, bios, n, err);
      ShrunkIsUpdate(q, Val(), n, err, MoveTo(s, err));
      MoveCursor(s, err);
      Shrink(total);
      more := true;
    }

    /**
     * blk_rq_map_sg: the greedy scatterlist; its last entry is lengthened so that
     * the total is a multiple of `padTo` (0: no padding), and the drain buffer,
     * if there is one, comes last.
     */
    method ScatterList(padTo: nat, drain: Option<Sg>) returns (sgs: seq<Sg>)
      requires Vecs(bios) != []
      ensures var p := MapSg(q, Vecs(bios));
        |sgs| == |p| + (if drain.Some? then 1 else 0) && (drain.Some? ==> Last(sgs) == drain.value)
      ensures
        var p := MapSg(q, Vecs(bios));
        && (forall i | 0 <= i < |p| - 1 :: p[i] != [] && sgs[i] == SgOf(p[i]))
        && p != [] && Last(p) != []
        && var pad := sgs[|p| - 1].length - Total(Last(p));
           && sgs[|p| - 1] == SgOf(Last(p)).(length := Total(Last(p)) + pad)
           && 0 <= pad && (padTo == 0 ==> pad == 0) && (padTo > 0 ==> dataLen + pad == RoundUp(dataLen, padTo))
    {
      sgs := MapVecs(q, Vecs(bios));
      MapSgPartition(q, Vecs(bios));
      if padTo > 0 {
        RoundUpBy(dataLen, padTo);
      }
      if padTo > 0 && dataLen % padTo != 0 {
        var pad := padTo - dataLen % padTo;
        sgs := sgs[|sgs| - 1 := Last(sgs).(length := Last(sgs).length + pad)];
      }
      if drain.Some? {
        sgs := sgs + [drain.value];
      }
    }

    /** blk_rq_err_bytes */
    method BytesToFail() returns (bytes: nat)
      ensures bytes == ErrBytes(Val())
    {
      if !mixed {
        return dataLen;
      }
      bytes := 0;
      var i := 0;
      while i < |bios| && failfast <= bios[i].failfast
        invariant i <= |bios|
        invariant EagerPrefix(bios, failfast) == i + EagerPrefix(bios[i..], failfast)
        invariant bytes == Size(bios[..i])
        decreases |bios| - i
      {
        assert bios[i..][1..] == bios[i + 1..];
        SizeSnoc(bios, i);
        bytes := bytes + bios[i].size;
        i := i + 1;
      }
    }
  }
}
