/**
 * Physical segments. A scatterlist entry is a run of bio vectors that the
 * device sees as one piece. This module has the scatterlist the block layer
 * builds (greedily, left to right), the count it caches instead, and why the
 * cached count is always enough.
 */
module Segments {
  import opened Block

  /**
   * The limits of a request queue. `together` says that two neighbouring
   * vectors are physically mergeable and share a segment boundary window;
   * `high` says that a vector's page may be bounced.
   */
  datatype Limits = Limits(
    cluster: bool,
    maxSegmentSize: nat,
    maxSegments: nat,
    maxSectors: nat,
    together: (Bvec, Bvec) -> bool,
    high: Bvec -> bool
  )

  type Entry = seq<Bvec>

  function Last<T>(s: seq<T>): T
    requires s != []
  {
    s[|s| - 1]
  }

  function Flatten(p: seq<Entry>): seq<Bvec> {
    if p == [] then [] else Flatten(p[..|p| - 1]) + Last(p)
  }

  /** What the hardware accepts as one entry. A single vector always is. */
  ghost predicate ValidEntry(q: Limits, e: Entry) {
    && e != []
    && (|e| > 1 ==>
          && q.cluster && Total(e) <= q.maxSegmentSize
          && forall i | 0 <= i < |e| - 1 :: q.together(e[i], e[i + 1]))
  }

  /** A way to cut the vectors into entries: all of them, in order, each entry acceptable. */
  ghost predicate Partition(q: Limits, p: seq<Entry>, vs: seq<Bvec>) {
    Flatten(p) == vs && forall i | 0 <= i < |p| :: ValidEntry(q, p[i])
  }

  // ----- the scatterlist, built greedily -----------------------------------

  predicate Fits(q: Limits, e: Entry, v: Bvec) {
    e != [] && q.cluster && Total(e) + v.len <= q.maxSegmentSize && q.together(Last(e), v)
  }

  function Put(join: bool, p: seq<Entry>, v: Bvec): seq<Entry>
    requires join ==> p != []
  {
    if join then p[..|p| - 1] + [Last(p) + [v]] else p + [[v]]
  }

  /** blk_rq_map_sg, before padding and drain */
  function MapSg(q: Limits, vs: seq<Bvec>): seq<Entry> {
    if vs == [] then []
    else
      var p, v := MapSg(q, vs[..|vs| - 1]), Last(vs);
      Put(p != [] && Fits(q, Last(p), v), p, v)
  }

  /** __blk_recalc_rq_segments: the same, but a high page is never merged with anything */
  function Recalc(q: Limits, vs: seq<Bvec>): seq<Entry> {
    if vs == [] then []
    else
      var p, v := Recalc(q, vs[..|vs| - 1]), Last(vs);
      Put(p != [] && Fits(q, Last(p), v) && !q.high(v) && !q.high(Last(p)[0]), p, v)
  }

  lemma PutPartition(q: Limits, p: seq<Entry>, vs: seq<Bvec>, v: Bvec, join: bool)
    requires Partition(q, p, vs)
    requires join ==> p != [] && Fits(q, Last(p), v)
    ensures Partition(q, Put(join, p, v), vs + [v])
  {
    var p' := Put(join, p, v);
    assert p'[..|p'| - 1] == if join then p[..|p| - 1] else p;
    if join {
      var e := Last(p);
      assert (e + [v])[..|e|] == e;
      assert ValidEntry(q, e);
      assert ValidEntry(q, e + [v]);
    }
  }

  /** Both cut the vectors in acceptable entries, each vector once and in order. */
  lemma {:induction false} MapSgPartition(q: Limits, vs: seq<Bvec>)
    ensures Partition(q, MapSg(q, vs), vs)
    ensures vs != [] <==> MapSg(q, vs) != []
  {
    if vs != [] {
      var init := vs[..|vs| - 1];
      MapSgPartition(q, init);
      var p := MapSg(q, init);
      PutPartition(q, p, init, Last(vs), p != [] && Fits(q, Last(p), Last(vs)));
      assert init + [Last(vs)] == vs;
    }
  }

  lemma {:induction false} RecalcPartition(q: Limits, vs: seq<Bvec>)
    ensures Partition(q, Recalc(q, vs), vs)
    ensures vs != [] <==> Recalc(q, vs) != []
    ensures forall e | e in Recalc(q, vs) :: e != []
  {
    if vs != [] {
      var init := vs[..|vs| - 1];
      RecalcPartition(q, init);
      var p, v := Recalc(q, init), Last(vs);
      PutPartition(q, p, init, v, p != [] && Fits(q, Last(p), v) && !q.high(v) && !q.high(Last(p)[0]));
      assert init + [Last(vs)] == vs;
    }
  }

  // ----- greedy is optimal -------------------------------------------------

  /** Taking the last vector off a partition. */
  lemma Chop(q: Limits, p: seq<Entry>, vs: seq<Bvec>) returns (p': seq<Entry>)
    requires Partition(q, p, vs) && vs != []
    ensures p != [] && Last(p) != [] && Last(Last(p)) == Last(vs)
    ensures Partition(q, p', vs[..|vs| - 1])
    ensures |Last(p)| == 1 ==> p' == p[..|p| - 1]
    ensures |Last(p)| > 1 ==>
      && |p'| == |p| && Fits(q, Last(p'), Last(vs)) && Last(p) == Last(p') + [Last(vs)]
  {
    var e := Last(p);
    assert ValidEntry(q, e);
    var front := p[..|p| - 1];
    assert vs == Flatten(front) + e;
    if |e| == 1 {
      p' := front;
      assert vs[..|vs| - 1] == Flatten(front);
    } else {
      var e' := e[..|e| - 1];
      p' := front + [e'];
      assert p'[..|p'| - 1] == front;
      assert vs[..|vs| - 1] == Flatten(front) + e';
      assert ValidEntry(q, e');
      assert e == e' + [Last(e)];
      assert q.together(e[|e| - 2], e[|e| - 1]);
    }
  }

  lemma TotalAppend(e: seq<Bvec>, v: Bvec)
    ensures Total(e + [v]) == Total(e) + v.len
  {
    assert (e + [v])[..|e|] == e;
  }

  /**
   * No partition has fewer entries than the greedy one, and one with as many
   * does not have a smaller last entry.
   */
  lemma {:induction false} GreedyIsOptimal(q: Limits, vs: seq<Bvec>, p: seq<Entry>)
    requires Partition(q, p, vs)
    ensures |MapSg(q, vs)| <= |p|
    ensures vs != [] && |MapSg(q, vs)| == |p| ==> MapSg(q, vs) != [] && Total(Last(MapSg(q, vs))) <= Total(Last(p))
    decreases |vs|
  {
    MapSgPartition(q, vs);
    if vs != [] {
      var init, v := vs[..|vs| - 1], Last(vs);
      MapSgPartition(q, init);
      var p' := Chop(q, p, vs);
      GreedyIsOptimal(q, init, p');
      var g := MapSg(q, init);
      assert init != [] ==> Last(Last(g)) == Last(init) && Last(Last(p')) == Last(init) by {
        if init != [] {
          var _ := Chop(q, g, init);
          var _ := Chop(q, p', init);
        }
      }
      TotalAppend(if g == [] then [] else Last(g), v);
      TotalAppend([], v);
      TotalAppend(if p' == [] then [] else Last(p'), v);
    }
  }

  // ----- keeping high pages apart ------------------------------------------

  /** Limits under which a high page touches nothing. */
  function HighApart(q: Limits): Limits {
    q.(together := (a, b) => q.together(a, b) && !q.high(a) && !q.high(b))
  }

  /** No entry joins a high page to anything. */
  ghost predicate KeepsHighApart(q: Limits, p: seq<Entry>) {
    forall e, i | e in p && |e| > 1 && 0 <= i < |e| :: !q.high(e[i])
  }

  lemma LastPut(join: bool, p: seq<Entry>, v: Bvec)
    requires join ==> p != [] && Last(p) != []
    ensures Put(join, p, v) != [] && Last(Put(join, p, v)) == (if join then Last(p) else []) + [v]
  {
  }

  /** Counting afresh is building the scatterlist under those limits. */
  lemma {:induction false} RecalcIsMapSg(q: Limits, vs: seq<Bvec>)
    ensures Recalc(q, vs) == MapSg(HighApart(q), vs)
    ensures vs != [] ==>
      var p := Recalc(q, vs);
      p != [] && Last(p) != [] && Last(Last(p)) == Last(vs) && (q.high(Last(p)[0]) <==> q.high(Last(vs)))
  {
    hide Put, Total;
    if vs != [] {
      var init, v := vs[..|vs| - 1], Last(vs);
      RecalcIsMapSg(q, init);
      var p := Recalc(q, init);
      LastPut(p != [] && Fits(q, Last(p), v) && !q.high(v) && !q.high(Last(p)[0]), p, v);
      assert p != [] ==> init != [];
    }
  }

  lemma EntryApart(q: Limits, e: Entry)
    ensures ValidEntry(HighApart(q), e) <==> ValidEntry(q, e) && KeepsHighApart(q, [e])
  {
    if ValidEntry(HighApart(q), e) && |e| > 1 {
      forall i | 0 <= i < |e| ensures !q.high(e[i]) {
        assert HighApart(q).together(e[if i > 0 then i - 1 else 0], e[if i > 0 then i else 1]);
      }
    }
    if ValidEntry(q, e) && KeepsHighApart(q, [e]) && |e| > 1 {
      assert e in [e];
    }
  }

  lemma PartitionApart(q: Limits, p: seq<Entry>, vs: seq<Bvec>)
    ensures Partition(HighApart(q), p, vs) <==> Partition(q, p, vs) && KeepsHighApart(q, p)
  {
    forall i | 0 <= i < |p|
      ensures ValidEntry(HighApart(q), p[i]) <==> ValidEntry(q, p[i]) && KeepsHighApart(q, [p[i]])
    {
      EntryApart(q, p[i]);
      assert p[i] in p;
    }
    assert KeepsHighApart(q, p) <==> forall i | 0 <= i < |p| :: KeepsHighApart(q, [p[i]]) by {
      forall i | 0 <= i < |p| && KeepsHighApart(q, p) ensures KeepsHighApart(q, [p[i]]) {
        assert p[i] in p;
      }
      if forall i | 0 <= i < |p| :: KeepsHighApart(q, [p[i]]) {
        forall e | e in p ensures KeepsHighApart(q, [e]) {
          var i :| 0 <= i < |p| && p[i] == e;
        }
        assert forall e | e in p :: e in [e];
      }
    }
  }

  /** The fresh count is the least one of a partition that keeps high pages apart. */
  lemma RecalcIsOptimal(q: Limits, vs: seq<Bvec>, p: seq<Entry>)
    requires Partition(q, p, vs) && KeepsHighApart(q, p)
    ensures Partition(q, Recalc(q, vs), vs) && KeepsHighApart(q, Recalc(q, vs)) && |Recalc(q, vs)| <= |p|
  {
    RecalcIsMapSg(q, vs);
    MapSgPartition(HighApart(q), vs);
    PartitionApart(q, Recalc(q, vs), vs);
    PartitionApart(q, p, vs);
    GreedyIsOptimal(HighApart(q), vs, p);
  }

  /** Some shortest scatterlist keeps every high page apart. */
  ghost predicate ShortestKeepsApart(q: Limits, vs: seq<Bvec>) {
    exists p :: Partition(q, p, vs) && KeepsHighApart(q, p) && |p| == |MapSg(q, vs)|
  }

  /** Neighbours that could share an entry, if one of them were not a high page. */
  predicate Split(q: Limits, a: Bvec, b: Bvec) {
    q.cluster && q.together(a, b) && (q.high(a) || q.high(b))
  }

  function Splits(q: Limits, vs: seq<Bvec>): nat {
    if |vs| < 2 then 0
    else Splits(q, vs[..|vs| - 1]) + if Split(q, vs[|vs| - 2], vs[|vs| - 1]) then 1 else 0
  }

  /** Without such neighbours, and so without bounce pages, counting afresh is exact. */
  lemma {:induction false} RecalcExact(q: Limits, vs: seq<Bvec>)
    ensures Splits(q, vs) == 0 ==> Recalc(q, vs) == MapSg(q, vs)
    ensures (forall v | v in vs :: !q.high(v)) ==> Splits(q, vs) == 0
  {
    hide Put, Total;
    if vs != [] {
      var init := vs[..|vs| - 1];
      RecalcExact(q, init);
      RecalcIsMapSg(q, init);
      if |vs| > 1 {
        assert vs[|vs| - 2] == Last(init) && vs[|vs| - 2] in vs;
      }
    }
  }

  /** Places where neighbours do not touch. */
  function Gaps(q: Limits, vs: seq<Bvec>): nat {
    if |vs| < 2 then 0
    else Gaps(q, vs[..|vs| - 1]) + if q.cluster && q.together(vs[|vs| - 2], vs[|vs| - 1]) then 0 else 1
  }

  /** Vectors that make one entry if they are not too many bytes. */
  ghost predicate Touching(q: Limits, e: Entry) {
    |e| > 1 && q.cluster && forall i | 0 <= i < |e| - 1 :: q.together(e[i], e[i + 1])
  }

  /** However many vectors in a row touch, they do not fill more than one entry. */
  ghost predicate RunsFit(q: Limits, vs: seq<Bvec>) {
    forall i, j | 0 <= i < j <= |vs| && Touching(q, vs[i..j]) :: Total(vs[i..j]) <= q.maxSegmentSize
  }

  lemma RunsFitInit(q: Limits, vs: seq<Bvec>)
    requires RunsFit(q, vs) && vs != []
    ensures RunsFit(q, vs[..|vs| - 1])
  {
    var init := vs[..|vs| - 1];
    forall i, j | 0 <= i < j <= |init| && Touching(q, init[i..j])
      ensures Total(init[i..j]) <= q.maxSegmentSize
    {
      assert init[i..j] == vs[i..j];
    }
  }

  /** The last entry so far takes the next vector exactly if they touch. */
  lemma TouchIsFit(q: Limits, p: seq<Entry>, vs: seq<Bvec>)
    requires vs != [] && RunsFit(q, vs) && Partition(q, p, vs[..|vs| - 1]) && p != []
    ensures Last(p) != [] && |vs| > 1 && Last(Last(p)) == vs[|vs| - 2]
    ensures Fits(q, Last(p), Last(vs)) <==> q.cluster && q.together(vs[|vs| - 2], Last(vs))
  {
    var init, e, v := vs[..|vs| - 1], Last(p), Last(vs);
    assert ValidEntry(q, e);
    var i := |init| - |e|;
    assert init == Flatten(p[..|p| - 1]) + e;
    assert vs == init + [v];
    assert vs[i..|vs|] == e + [v];
    TotalAppend(e, v);
    if q.cluster && q.together(Last(e), v) {
      assert Touching(q, vs[i..|vs|]);
    }
  }

  lemma {:induction false} GapsCount(q: Limits, vs: seq<Bvec>)
    requires RunsFit(q, vs)
    ensures |MapSg(q, vs)| == if vs == [] then 0 else Gaps(q, vs) + 1
  {
    if vs != [] {
      var init := vs[..|vs| - 1];
      hide RunsFit, Partition, Total, Fits;
      RunsFitInit(q, vs);
      GapsCount(q, init);
      MapSgPartition(q, init);
      if init != [] {
        TouchIsFit(q, MapSg(q, init), vs);
      }
    }
  }

  lemma {:induction false} GapsApart(q: Limits, vs: seq<Bvec>)
    ensures Gaps(HighApart(q), vs) == Gaps(q, vs) + Splits(q, vs)
  {
    if |vs| >= 2 {
      GapsApart(q, vs[..|vs| - 1]);
    }
  }

  /** Every split costs the count one more entry, as long as runs fit in one. */
  lemma SplitsCount(q: Limits, vs: seq<Bvec>)
    requires RunsFit(q, vs)
    ensures |Recalc(q, vs)| == |MapSg(q, vs)| + Splits(q, vs)
  {
    assert RunsFit(HighApart(q), vs) by {
      forall i, j | 0 <= i < j <= |vs| && Touching(HighApart(q), vs[i..j])
        ensures Total(vs[i..j]) <= q.maxSegmentSize
      {
        assert forall k | 0 <= k < |vs[i..j]| - 1 :: HighApart(q).together(vs[i..j][k], vs[i..j][k + 1]);
        assert Touching(q, vs[i..j]);
      }
    }
    hide RunsFit, MapSg, Recalc;
    GapsCount(q, vs);
    GapsCount(HighApart(q), vs);
    GapsApart(q, vs);
    RecalcIsMapSg(q, vs);
  }

  lemma FreshCount(q: Limits, vs: seq<Bvec>)
    ensures |MapSg(q, vs)| <= |Recalc(q, vs)|
    ensures |MapSg(q, vs)| == |Recalc(q, vs)| <==> ShortestKeepsApart(q, vs)
  {
    RecalcPartition(q, vs);
    GreedyIsOptimal(q, vs, Recalc(q, vs));
    RecalcIsMapSg(q, vs);
    MapSgPartition(HighApart(q), vs);
    PartitionApart(q, Recalc(q, vs), vs);
    if ShortestKeepsApart(q, vs) {
      var p :| Partition(q, p, vs) && KeepsHighApart(q, p) && |p| == |MapSg(q, vs)|;
      RecalcIsOptimal(q, vs, p);
    }
  }

  // ----- the cached count --------------------------------------------------

  /**
   * What the cached numbers of a chain of bios stand for: some partition has
   * exactly `n` entries, and its first and last entry are no larger than the
   * front size of the first bio and the back size of the last.
   */
  ghost predicate Accounts(q: Limits, bios: seq<Bio>, n: nat, p: seq<Entry>) {
    && bios != [] && p != [] && |p| == n && Partition(q, p, Vecs(bios))
    && Total(p[0]) <= bios[0].segFront && Total(Last(p)) <= Last(bios).segBack
  }

  ghost predicate Accounted(q: Limits, bios: seq<Bio>, n: nat) {
    exists p :: Accounts(q, bios, n, p)
  }

  /** The scatterlist never has more entries than the cached count. */
  lemma EnoughSegments(q: Limits, bios: seq<Bio>, n: nat)
    requires Accounted(q, bios, n)
    ensures |MapSg(q, Vecs(bios))| <= n
  {
    var p :| Accounts(q, bios, n, p);
    GreedyIsOptimal(q, Vecs(bios), p);
  }

  lemma Regroup<T>(x: seq<T>, y: seq<T>, z: seq<T>)
    ensures x + (y + z) == x + y + z
  {
  }

  lemma {:induction false} FlattenConcat(a: seq<Entry>, b: seq<Entry>)
    ensures Flatten(a + b) == Flatten(a) + Flatten(b)
  {
    if b == [] {
      assert a + b == a;
    } else {
      var init := b[..|b| - 1];
      assert (a + b)[..|a + b| - 1] == a + init && Last(a + b) == Last(b);
      FlattenConcat(a, init);
      Regroup(Flatten(a), Flatten(init), Last(b));
    }
  }

  lemma {:induction false} VecsConcat(a: seq<Bio>, b: seq<Bio>)
    ensures Vecs(a + b) == Vecs(a) + Vecs(b)
  {
    hide Bio.Left;
    if b == [] {
      assert a + b == a;
    } else {
      var init := b[..|b| - 1];
      assert (a + b)[..|a + b| - 1] == a + init && Last(a + b) == Last(b);
      VecsConcat(a, init);
      Regroup(Vecs(a), Vecs(init), Last(b).Left());
    }
  }

  lemma PartitionConcat(q: Limits, p1: seq<Entry>, vs1: seq<Bvec>, p2: seq<Entry>, vs2: seq<Bvec>)
    requires Partition(q, p1, vs1) && Partition(q, p2, vs2)
    ensures Partition(q, p1 + p2, vs1 + vs2)
  {
    FlattenConcat(p1, p2);
  }

  /** Chaining two lists of bios: the counts add up (ll_new_hw_segment). */
  lemma AccountedConcat(q: Limits, a: seq<Bio>, n: nat, b: seq<Bio>, m: nat)
    requires Accounted(q, a, n) && Accounted(q, b, m)
    ensures Accounted(q, a + b, n + m)
  {
    var p1 :| Accounts(q, a, n, p1);
    var p2 :| Accounts(q, b, m, p2);
    VecsConcat(a, b);
    PartitionConcat(q, p1, Vecs(a), p2, Vecs(b));
    assert Accounts(q, a + b, n + m, p1 + p2);
  }

  /** Larger caches are still right, for the same vectors. */
  lemma AccountedGrows(q: Limits, a: seq<Bio>, b: seq<Bio>, n: nat)
    requires Accounted(q, a, n) && b != [] && Vecs(a) == Vecs(b)
    requires a[0].segFront <= b[0].segFront && Last(a).segBack <= Last(b).segBack
    ensures Accounted(q, b, n)
  {
    var p :| Accounts(q, a, n, p);
    assert Accounts(q, b, n, p);
  }

  /** Counting afresh (blk_recalc_rq_segments, blk_recount_segments). */
  lemma AccountedRecalc(q: Limits, bios: seq<Bio>)
    requires bios != [] && Vecs(bios) != []
    requires var p := Recalc(q, Vecs(bios));
      p != [] && Total(p[0]) <= bios[0].segFront && Total(Last(p)) <= Last(bios).segBack
    ensures Accounted(q, bios, |Recalc(q, Vecs(bios))|)
  {
    RecalcPartition(q, Vecs(bios));
    assert Accounts(q, bios, |Recalc(q, Vecs(bios))|, Recalc(q, Vecs(bios)));
  }

  lemma {:induction false} TotalConcat(a: seq<Bvec>, b: seq<Bvec>)
    ensures Total(a + b) == Total(a) + Total(b)
  {
    if b == [] {
      assert a + b == a;
    } else {
      assert (a + b)[..|a + b| - 1] == a + b[..|b| - 1];
      TotalConcat(a, b[..|b| - 1]);
    }
  }

  lemma GlueEntries(q: Limits, e1: Entry, e2: Entry)
    requires ValidEntry(q, e1) && ValidEntry(q, e2)
    requires q.cluster && Total(e1) + Total(e2) <= q.maxSegmentSize && q.together(Last(e1), e2[0])
    ensures ValidEntry(q, e1 + e2) && Total(e1 + e2) == Total(e1) + Total(e2)
  {
    TotalConcat(e1, e2);
    var e := e1 + e2;
    forall i | 0 <= i < |e| - 1 ensures q.together(e[i], e[i + 1]) {
      if i < |e1| - 1 {
        assert q.together(e1[i], e1[i + 1]);
      } else if i >= |e1| {
        assert q.together(e2[i - |e1|], e2[i - |e1| + 1]);
      }
    }
  }

  lemma FlattenGlue(a: seq<Entry>, e1: Entry, e2: Entry, b: seq<Entry>)
    ensures Flatten(a + [e1]) == Flatten(a) + e1
    ensures Flatten([e2] + b) == e2 + Flatten(b)
    ensures Flatten(a + [e1 + e2] + b) == Flatten(a + [e1]) + Flatten([e2] + b)
  {
    assert forall e: Entry :: (a + [e])[..|a|] == a;
    FlattenConcat([e2], b);
    FlattenConcat(a + [e1 + e2], b);
    assert Flatten([e2]) == Flatten([]) + e2 == e2;
    assert Flatten(a) + (e1 + e2) + Flatten(b) == (Flatten(a) + e1) + (e2 + Flatten(b));
  }

  /** Gluing the last entry of one partition to the first of the next. */
  lemma PartitionGlue(q: Limits, p1: seq<Entry>, vs1: seq<Bvec>, p2: seq<Entry>, vs2: seq<Bvec>) returns (p: seq<Entry>)
    requires Partition(q, p1, vs1) && Partition(q, p2, vs2) && p1 != [] && p2 != [] && vs1 != [] && vs2 != []
    requires q.cluster && Total(Last(p1)) + Total(p2[0]) <= q.maxSegmentSize && q.together(Last(vs1), vs2[0])
    ensures Partition(q, p, vs1 + vs2) && |p| == |p1| + |p2| - 1
    ensures |p1| > 1 ==> p[0] == p1[0]
    ensures |p1| == 1 ==> Total(p[0]) == Total(Last(p1)) + Total(p2[0])
    ensures |p2| > 1 ==> Last(p) == Last(p2)
    ensures |p2| == 1 ==> Total(Last(p)) == Total(Last(p1)) + Total(p2[0])
  {
    var a, b, e1, e2 := p1[..|p1| - 1], p2[1..], Last(p1), p2[0];
    p := a + [e1 + e2] + b;
    assert p1 == a + [e1] && p2 == [e2] + b;
    assert ValidEntry(q, e1) && ValidEntry(q, e2);
    FlattenGlue(a, e1, e2, b);
    assert Last(vs1) == Last(e1) && vs2[0] == e2[0];
    GlueEntries(q, e1, e2);
  }

  /**
   * Merging two requests whose ends touch in memory (ll_merge_requests_fn): one
   * segment fewer, with the joint size as new front or back size where a side
   * was a single segment.
   */
  lemma AccountedGlue(q: Limits, a: seq<Bio>, n: nat, b: seq<Bio>, m: nat, c: seq<Bio>)
    requires Accounted(q, a, n) && Accounted(q, b, m) && Vecs(a) != [] && Vecs(b) != []
    requires q.cluster && Last(a).segBack + b[0].segFront <= q.maxSegmentSize && q.together(Last(Vecs(a)), Vecs(b)[0])
    requires c != [] && Vecs(c) == Vecs(a) + Vecs(b)
    requires c[0].segFront == if n == 1 then Last(a).segBack + b[0].segFront else a[0].segFront
    requires Last(c).segBack == if m == 1 then Last(a).segBack + b[0].segFront else Last(b).segBack
    ensures n + m >= 2 && Accounted(q, c, n + m - 1)
  {
    var p1 :| Accounts(q, a, n, p1);
    var p2 :| Accounts(q, b, m, p2);
    var p := PartitionGlue(q, p1, Vecs(a), p2, Vecs(b));
    assert Accounts(q, c, n + m - 1, p);
  }
}
