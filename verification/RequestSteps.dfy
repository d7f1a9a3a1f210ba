/**
 * Completing a request in two calls of blk_update_request, and when that leaves
 * the same request as one call does.
 */
module RequestSteps {
  import opened Block
  import opened Numbers
  import opened Segments
  import opened Completion
  import opened Requests

  // ----- chains that differ in their size caches ---------------------------

  /** A bio without the vectors that are done and without its size caches. */
  function Bare(b: Bio): Bio {
    View(b).(segFront := 0, segBack := 0)
  }

  /** The same bio but for vectors that are done, and with size caches that are at least as large. */
  predicate Cached(a: Bio, b: Bio) {
    Bare(a) == Bare(b) && a.segFront <= b.segFront && a.segBack <= b.segBack
  }

  ghost predicate AllCached(a: seq<Bio>, b: seq<Bio>) {
    |a| == |b| && forall i | 0 <= i < |a| :: Cached(a[i], b[i])
  }

  lemma CachedLeft(a: Bio, b: Bio)
    requires Cached(a, b)
    ensures a.Left() == b.Left() && a.size == b.size && a.sector == b.sector && a.failfast == b.failfast && a.id == b.id
    ensures a.upToDate == b.upToDate
  {
    assert View(a).vecs == Bare(a).vecs && View(b).vecs == Bare(b).vecs;
  }

  lemma AllCachedTwice(a: seq<Bio>, b: seq<Bio>, c: seq<Bio>)
    requires AllCached(a, b) && AllCached(b, c)
    ensures AllCached(a, c)
  {
    hide Bare;
    assert forall i | 0 <= i < |a| :: Cached(a[i], b[i]) && Cached(b[i], c[i]);
  }

  lemma SameViewCached(a: seq<Bio>, b: seq<Bio>)
    requires SameView(a, b)
    ensures AllCached(a, b) && AllCached(b, a)
  {
    forall i | 0 <= i < |a|
      ensures Cached(a[i], b[i]) && Cached(b[i], a[i])
    {
      assert View(a[i]) == View(b[i]);
    }
  }

  lemma CachesCached(q: Limits, bios: seq<Bio>)
    ensures AllCached(bios, Caches(q, bios))
  {
    hide Recalc, Vecs, Total;
  }

  lemma {:induction false} CachedVecs(a: seq<Bio>, b: seq<Bio>)
    requires AllCached(a, b)
    ensures Vecs(a) == Vecs(b)
  {
    hide Cached;
    if a != [] {
      CachedVecs(a[..|a| - 1], b[..|b| - 1]);
      CachedLeft(a[|a| - 1], b[|b| - 1]);
    }
  }

  lemma {:induction false} CachedSize(a: seq<Bio>, b: seq<Bio>)
    requires AllCached(a, b)
    ensures Size(a) == Size(b)
  {
    hide Cached;
    if a != [] {
      CachedSize(a[1..], b[1..]);
      CachedLeft(a[0], b[0]);
    }
  }

  /** Counting afresh makes caches larger in the same way. */
  lemma CachedCaches(q: Limits, a: seq<Bio>, b: seq<Bio>)
    requires AllCached(a, b)
    ensures AllCached(Caches(q, a), Caches(q, b))
  {
    hide Recalc, Vecs, Total;
    CachedVecs(a, b);
    var p, a', b' := Recalc(q, Vecs(a)), Caches(q, a), Caches(q, b);
    forall i | 0 <= i < |a|
      ensures Cached(a'[i], b'[i])
    {
      assert Cached(a[i], b[i]);
    }
  }

  lemma AdvanceCached(a: Bio, b: Bio, n: nat, err: int)
    requires Cached(a, b)
    ensures Cached(Advance(a, n, err), Advance(b, n, err))
  {
    hide Skip;
    CachedLeft(a, b);
    var a', b' := Advance(a, n, err), Advance(b, n, err);
    assert a'.Left() == a'.vecs && b'.Left() == b'.vecs;
  }

  /** Completing bytes does not look at the caches. */
  lemma {:induction false} DropCached(a: seq<Bio>, b: seq<Bio>, n: nat, err: int)
    requires AllCached(a, b)
    ensures AllCached(Drop(a, n, err), Drop(b, n, err)) && Finished(a, n, err) == Finished(b, n, err)
  {
    hide Cached, Advance;
    if a != [] {
      CachedLeft(a[0], b[0]);
      if n < a[0].size {
        AdvanceCached(a[0], b[0], n, err);
      } else if n > a[0].size {
        DropCached(a[1..], b[1..], n - a[0].size, err);
      }
    }
  }

  // ----- two calls ---------------------------------------------------------

  lemma NothingFinished(bios: seq<Bio>, err: int)
    requires bios == [] || bios[0].size > 0
    ensures Finished(bios, 0, err) == []
  {
  }

  /** The bios left by two calls: the size caches are counted afresh in between. */
  lemma ChainTwice(q: Limits, bios: seq<Bio>, m: nat, n: nat, err: int)
    requires m % SECTOR_SIZE == 0 && WholeSectors(bios)
    requires var left := Drop(bios, m, err); n > 0 || left == [] || left[0].size > 0
    ensures var left := Drop(bios, m, err);
      && AllCached(Drop(bios, m + n, err), Drop(Caches(q, left), n, err))
      && Finished(bios, m, err) + Finished(Caches(q, left), n, err) == Finished(bios, m + n, err)
  {
    hide Caches, Cached, Drop, Finished, SameView;
    var left := Drop(bios, m, err);
    DropTwice(bios, m, n, err);
    SameViewCached(Drop(left, n, err), Drop(bios, m + n, err));
    CachesCached(q, left);
    DropCached(left, Caches(q, left), n, err);
    AllCachedTwice(Drop(bios, m + n, err), Drop(left, n, err), Drop(Caches(q, left), n, err));
    if n == 0 {
      NothingFinished(left, err);
      assert Finished(bios, m, err) + [] == Finished(bios, m, err);
    }
  }

  /** Bytes left are bytes not done. */
  lemma SizeLeft(bios: seq<Bio>, n: nat, err: int)
    requires BiosOk(bios)
    ensures Size(Drop(bios, n, err)) == Size(bios) - Min(n, Size(bios))
  {
    hide Drop, Stream;
    DropStream(bios, n, err);
    StreamSize(bios);
    StreamSize(Drop(bios, n, err));
  }

  lemma {:induction false} SizeInSectors(bios: seq<Bio>)
    requires WholeSectors(bios)
    ensures Size(bios) % SECTOR_SIZE == 0
  {
    if bios != [] {
      assert bios[0].size % SECTOR_SIZE == 0;
      SizeInSectors(bios[1..]);
    }
  }

  /** Nothing is left: all bytes are done, and one more if the last of several bios is empty. */
  predicate AllDone(bios: seq<Bio>, n: nat) {
    bios == [] || n > Size(bios) || (n == Size(bios) && (Last(bios).size > 0 || |bios| == 1))
  }

  lemma AllDoneIs(bios: seq<Bio>, n: nat, err: int)
    ensures AllDone(bios, n) <==> Drop(bios, n, err) == []
  {
    if bios != [] {
      DropAll(bios, n, err);
    }
  }

  /**
   * The same request: every field, and the bios up to vectors that are done. The
   * size caches of the second may be larger; `own` is history and not compared.
   */
  ghost predicate SameRequest(a: Req, b: Req) {
    a.(bios := [], own := 0) == b.(bios := [], own := 0) && AllCached(a.bios, b.bios)
  }

  /** A first call for `m` bytes that leaves something has changed nothing but the bios. */
  predicate NothingChanged(q: Limits, r: Req, m: nat, err: int) {
    var left := Drop(r.bios, m, err);
    && left != [] && Min(m, Size(r.bios)) == 0
    && |Recalc(q, Vecs(left))| == r.segs && (r.mixed ==> left[0].failfast == r.failfast)
  }

  /** When two calls are as good as one. */
  predicate TwoAreOne(q: Limits, r: Req, m: nat, n: nat, err: int) {
    || AllDone(r.bios, m)
    || ((n > 0 || Drop(r.bios, m, err) == [] || Drop(r.bios, m, err)[0].size > 0)
        && (!AllDone(r.bios, m + n) || NothingChanged(q, r, m, err)))
  }

  lemma CachesNotEmpty(q: Limits, bios: seq<Bio>)
    requires bios != []
    ensures Caches(q, bios) != []
  {
  }

  lemma SectorsTwice(sector: nat, a: nat, b: nat)
    requires a % SECTOR_SIZE == 0
    ensures sector + a / SECTOR_SIZE + b / SECTOR_SIZE == sector + (a + b) / SECTOR_SIZE
  {
  }

  /** The fields of a request of which something is left after both calls. */
  lemma FieldsTwice(q: Limits, r: Req, m: nat, n: nat, err: int)
    requires BiosOk(r.bios) && WholeSectors(r.bios) && r.dataLen == Size(r.bios) && m % SECTOR_SIZE == 0
    requires Drop(r.bios, m, err) != [] && Drop(r.bios, m + n, err) != []
    requires n > 0 || Drop(r.bios, m, err)[0].size > 0
    ensures SameRequest(Update(q, r, m + n, err), Update(q, Update(q, r, m, err), n, err))
  {
    hide Drop, Caches, Cached, Recalc, Vecs, Size, Finished;
    var left, one := Drop(r.bios, m, err), Drop(r.bios, m + n, err);
    var two := Drop(Caches(q, left), n, err);
    ChainTwice(q, r.bios, m, n, err);
    CachedVecs(one, two);
    CachedCaches(q, one, two);
    CachedLeft(one[0], two[0]);
    SizeLeft(r.bios, m, err);
    CachesCached(q, left);
    CachedSize(left, Caches(q, left));
    SizeInSectors(r.bios);
    SectorsTwice(r.sector, Min(m, Size(r.bios)), Min(n, Size(left)));
    CachesNotEmpty(q, left);
  }

  /** A request that is used up: whether one call did it or two can be seen from what the first one changed. */
  lemma UsedUpTwice(q: Limits, r: Req, m: nat, n: nat, err: int)
    requires WholeSectors(r.bios) && r.dataLen == Size(r.bios) && m % SECTOR_SIZE == 0
    requires Drop(r.bios, m, err) != [] && Drop(r.bios, m + n, err) == []
    requires n > 0 || Drop(r.bios, m, err)[0].size > 0
    ensures SameRequest(Update(q, r, m + n, err), Update(q, Update(q, r, m, err), n, err))
       <==> NothingChanged(q, r, m, err)
  {
    hide Drop, Caches, Cached, Recalc, Vecs, Size, Finished;
    var left := Drop(r.bios, m, err);
    ChainTwice(q, r.bios, m, n, err);
    SizeInSectors(r.bios);
    CachesNotEmpty(q, left);
  }

  /** An empty bio at the head is ended by a second call that completes nothing. */
  lemma EmptyHeadTwice(q: Limits, r: Req, m: nat, err: int)
    requires Drop(r.bios, m, err) != [] && Drop(r.bios, m, err)[0].size == 0
    ensures !SameRequest(Update(q, r, m, err), Update(q, Update(q, r, m, err), 0, err))
  {
    hide Recalc, Vecs, Finished;
    var left := Drop(r.bios, m, err);
    CachesCached(q, left);
    CachedLeft(left[0], Caches(q, left)[0]);
    assert Drop(Caches(q, left), 0, err) == Caches(q, left)[1..];
  }

  lemma NothingLeft(q: Limits, r: Req, m: nat, n: nat, err: int)
    requires WholeSectors(r.bios) && m % SECTOR_SIZE == 0 && Drop(r.bios, m, err) == []
    ensures SameRequest(Update(q, r, m + n, err), Update(q, Update(q, r, m, err), n, err))
    ensures Finished(r.bios, m, err) + Finished(Update(q, r, m, err).bios, n, err) == Finished(r.bios, m + n, err)
  {
    hide Recalc, Vecs, Size, Cached, Finished;
    ChainTwice(q, r.bios, m, n, err);
    assert Caches(q, []) == [];
    assert Drop([], n, err) == [];
  }

  /**
   * Completing `m` bytes and then `n` leaves the request that completing `m + n`
   * leaves, with the same bios ended, if and only if TwoAreOne: nothing was left
   * for the second call, or it does not end an empty bio for nothing and the
   * request is not used up, or the first call changed nothing.
   */
  lemma UpdateTwice(q: Limits, r: Req, m: nat, n: nat, err: int)
    requires BiosOk(r.bios) && WholeSectors(r.bios) && r.dataLen == Size(r.bios) && m % SECTOR_SIZE == 0
    ensures SameRequest(Update(q, r, m + n, err), Update(q, Update(q, r, m, err), n, err))
       <==> TwoAreOne(q, r, m, n, err)
    ensures TwoAreOne(q, r, m, n, err) ==>
      Finished(r.bios, m, err) + Finished(Update(q, r, m, err).bios, n, err) == Finished(r.bios, m + n, err)
  {
    hide Drop, Caches, Cached, Recalc, Vecs, Size, Finished, NothingChanged, AllDone, SameRequest;
    var left := Drop(r.bios, m, err);
    AllDoneIs(r.bios, m, err);
    AllDoneIs(r.bios, m + n, err);
    if left == [] {
      NothingLeft(q, r, m, n, err);
    } else if n == 0 && left[0].size == 0 {
      EmptyHeadTwice(q, r, m, err);
    } else {
      ChainTwice(q, r.bios, m, n, err);
      if Drop(r.bios, m + n, err) != [] {
        FieldsTwice(q, r, m, n, err);
      } else {
        UsedUpTwice(q, r, m, n, err);
      }
    }
  }

  lemma {:induction false} LeftHasData(bios: seq<Bio>, n: nat, err: int)
    requires n < Size(bios) && forall i | 0 <= i < |bios| :: bios[i].size > 0
    ensures Drop(bios, n, err) != [] && Drop(bios, n, err)[0].size > 0
  {
    if n > bios[0].size {
      LeftHasData(bios[1..], n - bios[0].size, err);
    }
  }

  /** The usual case: requests whose bios all have data, and whole sectors. */
  lemma DataTwice(q: Limits, r: Req, m: nat, n: nat, err: int)
    requires BiosOk(r.bios) && WholeSectors(r.bios) && r.dataLen == Size(r.bios) && m % SECTOR_SIZE == 0
    requires forall i | 0 <= i < |r.bios| :: r.bios[i].size > 0
    ensures m + n < r.dataLen || m >= r.dataLen ==>
      SameRequest(Update(q, r, m + n, err), Update(q, Update(q, r, m, err), n, err))
    ensures 0 < m < r.dataLen <= m + n ==>
      && Update(q, r, m + n, err).sector == r.sector
      && Update(q, Update(q, r, m, err), n, err).sector == r.sector + m / SECTOR_SIZE != r.sector
  {
    hide Recalc, Vecs, Cached, Finished, SameRequest, NothingChanged, Caches;
    UpdateTwice(q, r, m, n, err);
    AllDoneIs(r.bios, m, err);
    AllDoneIs(r.bios, m + n, err);
    if m < r.dataLen {
      LeftHasData(r.bios, m, err);
      CachesCached(q, Drop(r.bios, m, err));
      DropCached(Drop(r.bios, m, err), Caches(q, Drop(r.bios, m, err)), n, err);
      if m + n >= r.dataLen {
        ChainTwice(q, r.bios, m, n, err);
      }
    }
  }
}
