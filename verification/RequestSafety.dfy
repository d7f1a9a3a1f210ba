/**
 * What every sequence of merges, completions and error completions keeps of a
 * request: its bios are contiguous, its failfast bits are those of its first
 * bio, and its segment count is enough for the scatterlist.
 */
module RequestSafety {
  import opened Block
  import opened Segments
  import opened Completion
  import opened Requests

  // ----- the invariant -----------------------------------------------------

  ghost predicate DataBio(b: Bio) {
    BioOk(b) && b.size > 0 && b.size % SECTOR_SIZE == 0
  }

  predicate Follows(a: Bio, b: Bio) {
    b.sector == a.sector + a.size / SECTOR_SIZE
  }

  ghost predicate DataBios(bios: seq<Bio>) {
    forall i | 0 <= i < |bios| :: DataBio(bios[i])
  }

  ghost predicate Contiguous(bios: seq<Bio>) {
    forall i | 0 <= i < |bios| - 1 :: Follows(bios[i], bios[i + 1])
  }

  /** The bios follow each other on the disk, from `sector`, for `len` bytes. */
  ghost predicate Covers(bios: seq<Bio>, sector: nat, len: nat) {
    bios != [] && DataBios(bios) && Contiguous(bios) && sector == bios[0].sector && len == Size(bios)
  }

  /** A request covers exactly its bios. */
  ghost predicate Shape(r: Req) {
    Covers(r.bios, r.sector, r.dataLen)
  }

  /** The first bio of a mixed request is as eager to fail as the request. */
  ghost predicate Eager(r: Req) {
    r.mixed && r.bios != [] ==> r.failfast <= r.bios[0].failfast
  }

  /** The segment count, apart from drain slots, is that of some partition. */
  ghost predicate Counted(q: Limits, r: Req) {
    && Accounted(q, r.bios, r.own)
    && r.own <= r.segs
    && (!r.started ==> r.own == r.segs)
  }

  ghost predicate ReqOk(q: Limits, r: Req) {
    Shape(r) && Eager(r) && Counted(q, r)
  }

  /** A bio on its own: what it caches about its segments is right. */
  ghost predicate FreeBio(q: Limits, b: Bio) {
    DataBio(b) && (b.segs.Some? ==> Accounted(q, [b], b.segs.value))
  }

  // ----- chains that differ only in flags and caches -----------------------

  predicate SameBio(a: Bio, b: Bio) {
    a.sector == b.sector && a.size == b.size && a.vecs == b.vecs && a.idx == b.idx
  }

  ghost predicate SameBios(a: seq<Bio>, b: seq<Bio>) {
    |a| == |b| && forall i | 0 <= i < |a| :: SameBio(a[i], b[i])
  }

  lemma {:induction false} SameBiosVecs(a: seq<Bio>, b: seq<Bio>)
    requires SameBios(a, b)
    ensures Vecs(a) == Vecs(b)
  {
    if a != [] {
      SameBiosVecs(a[..|a| - 1], b[..|b| - 1]);
    }
  }

  lemma {:induction false} SameBiosSize(a: seq<Bio>, b: seq<Bio>)
    requires SameBios(a, b)
    ensures Size(a) == Size(b)
  {
    if a != [] {
      SameBiosSize(a[1..], b[1..]);
    }
  }

  lemma {:induction false} SizeConcat(a: seq<Bio>, b: seq<Bio>)
    ensures Size(a + b) == Size(a) + Size(b)
  {
    if a == [] {
      assert a + b == b;
    } else {
      assert (a + b)[1..] == a[1..] + b;
      SizeConcat(a[1..], b);
    }
  }

  /** Where a contiguous chain ends. */
  lemma {:induction false} ContiguousEnd(bios: seq<Bio>)
    requires bios != [] && Contiguous(bios)
    requires forall i | 0 <= i < |bios| :: bios[i].size % SECTOR_SIZE == 0
    ensures Last(bios).sector + Last(bios).size / SECTOR_SIZE == bios[0].sector + Size(bios) / SECTOR_SIZE
    ensures Size(bios) % SECTOR_SIZE == 0
  {
    if |bios| == 1 {
      assert Size(bios) == bios[0].size + Size([]);
    } else {
      ContiguousEnd(bios[1..]);
      assert Follows(bios[0], bios[1]);
      assert forall i | 0 <= i < |bios| - 2 ::
          Follows(bios[i + 1], bios[i + 2]) ==> Follows(bios[1..][i], bios[1..][i + 1]);
    }
  }

  lemma ContiguousConcat(a: seq<Bio>, b: seq<Bio>)
    requires a != [] && b != [] && Contiguous(a) && Contiguous(b) && Follows(Last(a), b[0])
    ensures Contiguous(a + b)
  {
    var c := a + b;
    forall i | 0 <= i < |c| - 1 ensures Follows(c[i], c[i + 1]) {
      if i < |a| - 1 {
        assert Follows(a[i], a[i + 1]);
      } else if i >= |a| {
        assert Follows(b[i - |a|], b[i - |a| + 1]);
      }
    }
  }

  lemma ChainSame(a: seq<Bio>, b: seq<Bio>)
    requires SameBios(a, b)
    ensures Contiguous(a) ==> Contiguous(b)
    ensures DataBios(a) ==> DataBios(b)
  {
    if Contiguous(a) {
      forall i | 0 <= i < |b| - 1 ensures Follows(b[i], b[i + 1]) {
        assert SameBio(a[i], b[i]) && SameBio(a[i + 1], b[i + 1]) && Follows(a[i], a[i + 1]);
      }
    }
    if DataBios(a) {
      forall i | 0 <= i < |b| ensures DataBio(b[i]) {
        assert DataBio(a[i]) && SameBio(a[i], b[i]);
      }
    }
  }

  lemma CoversSame(a: seq<Bio>, b: seq<Bio>, sector: nat, len: nat)
    requires Covers(a, sector, len) && SameBios(a, b)
    ensures Covers(b, sector, len)
  {
    SameBiosSize(a, b);
    ChainSame(a, b);
    assert SameBio(a[0], b[0]);
  }

  lemma CoversOne(b: Bio)
    requires DataBio(b)
    ensures Covers([b], b.sector, b.size)
  {
    assert Size([b]) == b.size + Size([]);
  }

  /** Two chains that touch on the disk are one. */
  lemma CoversConcat(a: seq<Bio>, b: seq<Bio>, sector: nat, m: nat, n: nat)
    requires Covers(a, sector, m) && Covers(b, sector + m / SECTOR_SIZE, n)
    ensures Covers(a + b, sector, m + n)
  {
    ContiguousEnd(a);
    ContiguousConcat(a, b);
    SizeConcat(a, b);
  }

  /** Flags and larger caches do not disturb the count. */
  lemma CountedSame(q: Limits, r: Req, r': Req)
    requires Counted(q, r) && r.bios != [] && SameBios(r.bios, r'.bios)
    requires r'.segs == r.segs && r'.own == r.own && r'.started == r.started
    requires r.bios[0].segFront <= r'.bios[0].segFront && Last(r.bios).segBack <= Last(r'.bios).segBack
    ensures Counted(q, r')
  {
    SameBiosVecs(r.bios, r'.bios);
    AccountedGrows(q, r.bios, r'.bios, r.own);
  }

  // ----- counting ----------------------------------------------------------

  lemma VecsOne(b: Bio)
    ensures Vecs([b]) == b.Left()
  {
    assert [b][..0] == [];
    assert Vecs([b]) == Vecs([]) + b.Left();
  }

  lemma DataBioHasVecs(b: Bio)
    requires DataBio(b)
    ensures b.Left() != []
  {
  }

  lemma {:induction false} VecsNonEmpty(bios: seq<Bio>)
    requires bios != [] && DataBios(bios)
    ensures Vecs(bios) != []
    ensures Last(bios).Left() != [] && Last(Vecs(bios)) == Last(Last(bios).Left())
    ensures bios[0].Left() != [] && Vecs(bios)[0] == bios[0].Left()[0]
  {
    DataBioHasVecs(Last(bios));
    if |bios| > 1 {
      VecsNonEmpty(bios[..|bios| - 1]);
    } else {
      VecsOne(bios[0]);
      assert bios == [bios[0]];
    }
  }

  lemma CachesSame(q: Limits, bios: seq<Bio>)
    requires bios != []
    ensures var bs, p := Caches(q, bios), Recalc(q, Vecs(bios));
      && SameBios(bios, bs) && bs[0].failfast == bios[0].failfast
      && bios[0].segFront <= bs[0].segFront && Last(bios).segBack <= Last(bs).segBack
      && (p != [] ==> Total(p[0]) <= bs[0].segFront && Total(Last(p)) <= Last(bs).segBack)
  {
  }

  lemma CachesAccounted(q: Limits, bios: seq<Bio>)
    requires bios != [] && DataBios(bios)
    ensures Accounted(q, Caches(q, bios), |Recalc(q, Vecs(bios))|)
  {
    CachesSame(q, bios);
    VecsNonEmpty(bios);
    RecalcPartition(q, Vecs(bios));
    SameBiosVecs(bios, Caches(q, bios));
    AccountedRecalc(q, Caches(q, bios));
  }

  lemma RecountOk(q: Limits, b: Bio)
    requires FreeBio(q, b)
    ensures var b' := Recount(q, b);
      && SameBio(b, b') && b'.failfast == b.failfast && b'.id == b.id
      && b.segFront <= b'.segFront && b.segBack <= b'.segBack
      && FreeBio(q, b') && Accounted(q, [b'], b'.segs.value)
  {
    hide Accounted, Recalc;
    if b.segs.None? {
      VecsOne(b);
      CachesSame(q, [b]);
      CachesAccounted(q, [b]);
      var b', c := Recount(q, b), Caches(q, [b]);
      assert SameBios([b], c) && SameBio([b][0], c[0]);
      AccountedGrows(q, c, [b'], |Recalc(q, b.Left())|);
    }
  }

  lemma RecountSame(q: Limits, b: Bio)
    ensures var b' := Recount(q, b);
      SameBio(b, b') && b'.failfast == b.failfast && b.segFront <= b'.segFront && b.segBack <= b'.segBack
  {
  }

  // ----- merging -----------------------------------------------------------

  /** Caches may grow and flags may change; the chain stays the same. */
  ghost predicate Grown(a: seq<Bio>, b: seq<Bio>) {
    SameBios(a, b) && (a != [] ==> a[0].segFront <= b[0].segFront && Last(a).segBack <= Last(b).segBack)
  }

  lemma OkSame(q: Limits, r: Req, r': Req)
    requires ReqOk(q, r) && Grown(r.bios, r'.bios) && Eager(r')
    requires r'.sector == r.sector && r'.dataLen == r.dataLen
    requires r'.segs == r.segs && r'.own == r.own && r'.started == r.started
    ensures ReqOk(q, r')
  {
    CoversSame(r.bios, r'.bios, r.sector, r.dataLen);
    CountedSame(q, r, r');
  }

  lemma SetMixedGrown(r: Req)
    ensures Grown(r.bios, SetMixed(r).bios)
    ensures r.bios != [] && Eager(r) ==> r.failfast <= SetMixed(r).bios[0].failfast
    ensures SetMixed(r) == r.(mixed := true, bios := SetMixed(r).bios)
  {
  }

  lemma GrownConcat(a: seq<Bio>, a': seq<Bio>, b: seq<Bio>, b': seq<Bio>)
    requires Grown(a, a') && Grown(b, b') && a != [] && b != []
    ensures Grown(a + b, a' + b')
  {
    var c, c' := a + b, a' + b';
    forall i | 0 <= i < |c|
      ensures SameBio(c[i], c'[i])
    {
      if i < |a| {
        assert SameBio(a[i], a'[i]);
      } else {
        assert SameBio(b[i - |a|], b'[i - |a|]);
      }
    }
  }

  lemma GrownSelf(a: seq<Bio>)
    ensures Grown(a, a)
  {
  }

  /** A bio whose segments are counted. */
  ghost predicate CountedBio(q: Limits, b: Bio) {
    DataBio(b) && b.segs.Some? && Accounted(q, [b], b.segs.value)
  }

  /** A bio as a request of its own. */
  lemma NewOk(q: Limits, bio: Bio, kind: Kind)
    requires FreeBio(q, bio)
    ensures ReqOk(q, New(q, bio, kind))
  {
    RecountOk(q, bio);
    CoversOne(Recount(q, bio));
  }

  lemma AppendOk(q: Limits, r: Req, b: Bio, n: nat)
    requires Shape(r) && Eager(r) && Accounted(q, r.bios, n) && CountedBio(q, b)
    requires r.own == n + b.segs.value <= r.segs && (!r.started ==> r.own == r.segs)
    requires r.sector + r.Sectors() == b.sector
    ensures ReqOk(q, Append(r, b))
  {
    hide Accounted, DataBio, DataBios, Contiguous, Size;
    SetMixedGrown(r);
    var bios := (if r.failfast != b.failfast then SetMixed(r) else r).bios;
    CoversSame(r.bios, bios, r.sector, r.dataLen);
    CoversOne(b);
    CoversConcat(bios, [b], r.sector, r.dataLen, b.size);
    SameBiosVecs(r.bios, bios);
    AccountedGrows(q, r.bios, bios, n);
    AccountedConcat(q, bios, n, [b], b.segs.value);
    assert Append(r, b).bios == bios + [b];
  }

  lemma PrependOk(q: Limits, r: Req, b: Bio, n: nat)
    requires Shape(r) && Eager(r) && Accounted(q, r.bios, n) && CountedBio(q, b)
    requires r.own == n + b.segs.value <= r.segs && (!r.started ==> r.own == r.segs)
    requires b.sector + b.size / SECTOR_SIZE == r.sector
    ensures ReqOk(q, Prepend(r, b))
  {
    hide Accounted, DataBio, DataBios, Contiguous, Size;
    SetMixedGrown(r);
    var bios := (if r.failfast != b.failfast then SetMixed(r) else r).bios;
    CoversSame(r.bios, bios, r.sector, r.dataLen);
    CoversOne(b);
    CoversConcat([b], bios, b.sector, b.size, r.dataLen);
    SameBiosVecs(r.bios, bios);
    AccountedGrows(q, r.bios, bios, n);
    AccountedConcat(q, [b], b.segs.value, bios, n);
    assert Prepend(r, b).bios == [b] + bios;
  }

  /** The outcome of offering a bio: the request covers it as well, or both are as they were. */
  ghost predicate BioMergeOk(q: Limits, r: Req, bio: Bio, m: BioMerge) {
    && ReqOk(q, m.r)
    && (m.Merged? ==> m.r.dataLen == r.dataLen + bio.size && |m.r.bios| == |r.bios| + 1)
    && (m.Refused? ==>
          m.r.noMerge && Grown(r.bios, m.r.bios) && m.r.sector == r.sector && FreeBio(q, m.bio) && SameBio(bio, m.bio))
  }

  lemma RecountIn(q: Limits, r: Req, k: nat)
    requires ReqOk(q, r) && k < |r.bios|
    ensures var r' := r.(bios := r.bios[k := Recount(q, r.bios[k])]); ReqOk(q, r') && Grown(r.bios, r'.bios)
  {
    hide Accounted, DataBio;
    RecountSame(q, r.bios[k]);
    var r' := r.(bios := r.bios[k := Recount(q, r.bios[k])]);
    assert SameBios(r.bios, r'.bios);
    OkSame(q, r, r');
  }

  lemma BackMergeOk(q: Limits, r: Req, bio: Bio)
    requires ReqOk(q, r) && FreeBio(q, bio) && r.sector + r.Sectors() == bio.sector
    ensures BioMergeOk(q, r, bio, BackMerge(q, r, bio))
  {
    hide Accounted, DataBio, DataBios, Contiguous, Size;
    var r1, b := r.(bios := r.bios[|r.bios| - 1 := Recount(q, Last(r.bios))]), Recount(q, bio);
    RecountIn(q, r, |r.bios| - 1);
    RecountOk(q, bio);
    AppendOk(q, Plus(r1, b), b, r1.own);
    if r.Sectors() + bio.size / SECTOR_SIZE > q.maxSectors || r.segs + b.segs.value > q.maxSegments {
      assert BackMerge(q, r, bio).Refused?;
    } else {
      SetMixedGrown(Plus(r1, b));
    }
  }

  lemma FrontMergeOk(q: Limits, r: Req, bio: Bio)
    requires ReqOk(q, r) && FreeBio(q, bio) && bio.sector + bio.size / SECTOR_SIZE == r.sector
    ensures BioMergeOk(q, r, bio, FrontMerge(q, r, bio))
  {
    hide Accounted, DataBio, DataBios, Contiguous, Size;
    var r1, b := r.(bios := r.bios[0 := Recount(q, r.bios[0])]), Recount(q, bio);
    RecountIn(q, r, 0);
    RecountOk(q, bio);
    PrependOk(q, Plus(r1, b), b, r1.own);
    if r.Sectors() + bio.size / SECTOR_SIZE > q.maxSectors || r.segs + b.segs.value > q.maxSegments {
      assert FrontMerge(q, r, bio).Refused?;
    } else {
      SetMixedGrown(Plus(r1, b));
    }
  }

  /** With a single segment the front is the back, so the joint size bounds both sides. */
  lemma GlueSides(q: Limits, a: seq<Bio>, a': seq<Bio>, n: nat, b: seq<Bio>, b': seq<Bio>, m: nat)
    requires Accounted(q, a, n) && Accounted(q, b, m)
    requires a' != [] && b' != [] && Vecs(a) == Vecs(a') && Vecs(b) == Vecs(b')
    requires a'[0].segFront == (if n == 1 then Last(a).segBack + b[0].segFront else a[0].segFront)
    requires Last(a').segBack == Last(a).segBack
    requires b'[0].segFront == b[0].segFront
    requires Last(b').segBack == (if m == 1 then Last(a).segBack + b[0].segFront else Last(b).segBack)
    ensures Accounted(q, a', n) && Accounted(q, b', m)
  {
    var p1 :| Accounts(q, a, n, p1);
    var p2 :| Accounts(q, b, m, p2);
    assert Accounts(q, a', n, p1);
    assert Accounts(q, b', m, p2);
  }

  lemma GlueSame(q: Limits, a: seq<Bio>, n: nat, b: seq<Bio>, m: nat)
    requires a != [] && b != []
    ensures var g := Glue(q, a, n, b, m); SameBios(a, g.front) && SameBios(b, g.back)
    ensures var g := Glue(q, a, n, b, m); g.front[0].failfast == a[0].failfast && g.back[0].failfast == b[0].failfast
  {
  }

  lemma GlueFields(q: Limits, a: seq<Bio>, n: nat, b: seq<Bio>, m: nat)
    requires a != [] && b != [] && PhysContig(q, Last(a), b[0]) && n + m > 0
    ensures var g, size := Glue(q, a, n, b, m), Last(a).segBack + b[0].segFront;
      && g.front != [] && g.back != [] && g.segs == n + m - 1
      && g.front[0].segFront == (if n == 1 then size else a[0].segFront) && Last(g.front).segBack == Last(a).segBack
      && g.back[0].segFront == b[0].segFront && Last(g.back).segBack == (if m == 1 then size else Last(b).segBack)
      && (g.front + g.back)[0] == g.front[0] && Last(g.front + g.back) == Last(g.back)
  {
  }

  /** Two chains that touch in memory share a segment; the caches of either stay right by themselves. */
  lemma GlueOk(q: Limits, a: seq<Bio>, n: nat, b: seq<Bio>, m: nat)
    requires a != [] && b != [] && DataBios(a) && DataBios(b)
    requires Accounted(q, a, n) && Accounted(q, b, m)
    ensures var g := Glue(q, a, n, b, m);
      Accounted(q, g.front, n) && Accounted(q, g.back, m) && Accounted(q, g.front + g.back, g.segs)
  {
    hide Accounted, DataBio, Vecs, SameBios;
    var g := Glue(q, a, n, b, m);
    GlueSame(q, a, n, b, m);
    SameBiosVecs(a, g.front);
    SameBiosVecs(b, g.back);
    if PhysContig(q, Last(a), b[0]) && n + m > 0 {
      hide Glue;
      GlueFields(q, a, n, b, m);
      GlueSides(q, a, g.front, n, b, g.back, m);
      VecsConcat(g.front, g.back);
      VecsNonEmpty(a);
      VecsNonEmpty(b);
      AccountedGlue(q, a, n, b, m, g.front + g.back);
    } else {
      AccountedConcat(q, a, n, b, m);
    }
  }

  ghost predicate ReqMergeOk(q: Limits, r: Req, next: Req, m: ReqMerge) {
    match m
    case Joined(c) =>
      && ReqOk(q, c)
      && c.dataLen == r.dataLen + next.dataLen && c.sector == r.sector && SameBios(c.bios, r.bios + next.bios)
    case Apart(r', n') =>
      && ReqOk(q, r') && ReqOk(q, n')
      && SameBios(r.bios, r'.bios) && SameBios(next.bios, n'.bios)
  }

  lemma GrownHead(a: seq<Bio>, b: seq<Bio>)
    requires Grown(a, b)
    ensures |a| == |b|
  {
  }

  lemma ChainOkHere(q: Limits, r: Req, c: seq<Bio>, c': seq<Bio>, len: nat)
    requires c != [] && Grown(c, c') && Covers(c, r.sector, len) && Accounted(q, c, r.segs)
    ensures Covers(c', r.sector, len) && Accounted(q, c', r.segs) && SameBios(c', c)
  {
    hide Accounted, DataBio, DataBios, Contiguous, Size, Vecs;
    CoversSame(c, c', r.sector, len);
    SameBiosVecs(c, c');
    AccountedGrows(q, c, c', r.segs);
    forall i | 0 <= i < |c|
      ensures SameBio(c'[i], c[i])
    {
      assert SameBio(c[i], c'[i]);
    }
  }

  lemma ChainOk(q: Limits, r: Req, next: Req, differ: bool)
    requires Covers(r.bios, r.sector, r.dataLen) && Covers(next.bios, r.sector + r.Sectors(), next.dataLen)
    requires Eager(r) && (r.mixed ==> differ)
    requires r.segs == r.own && Accounted(q, r.bios + next.bios, r.segs)
    ensures ReqOk(q, Chain(r, next, differ)) && SameBios(Chain(r, next, differ).bios, r.bios + next.bios)
  {
    hide Accounted, DataBio, DataBios, Contiguous, Size, SetMixed, Vecs, Grown, SameBios;
    var a, b := (if differ then SetMixed(r) else r).bios, (if differ then SetMixed(next) else next).bios;
    SetMixedGrown(r);
    SetMixedGrown(next);
    GrownSelf(r.bios);
    GrownSelf(next.bios);
    CoversConcat(r.bios, next.bios, r.sector, r.dataLen, next.dataLen);
    GrownConcat(r.bios, a, next.bios, b);
    ChainOkHere(q, r, r.bios + next.bios, a + b, r.dataLen + next.dataLen);
    GrownHead(r.bios, a);
    assert (a + b)[0] == a[0];
  }

  lemma SameBiosConcat(a: seq<Bio>, a': seq<Bio>, b: seq<Bio>, b': seq<Bio>, c: seq<Bio>)
    requires SameBios(a, a') && SameBios(b, b') && SameBios(c, a' + b')
    ensures SameBios(c, a + b)
  {
    forall i | 0 <= i < |c| ensures SameBio(c[i], (a + b)[i]) {
      assert SameBio(c[i], (a' + b')[i]);
      if i < |a| {
        assert SameBio(a[i], a'[i]);
      } else {
        assert SameBio(b[i - |a|], b'[i - |a|]);
      }
    }
  }

  lemma SameBiosRefl(a: seq<Bio>)
    ensures SameBios(a, a)
  {
  }

  lemma ChainFields(r: Req, next: Req, differ: bool)
    ensures var c := Chain(r, next, differ);
      c.dataLen == r.dataLen + next.dataLen && c.sector == r.sector && c.segs == r.segs && c.kind == r.kind
  {
  }

  lemma JoinOk(q: Limits, r: Req, next: Req)
    requires ReqOk(q, r) && ReqOk(q, next)
    ensures ReqMergeOk(q, r, next, Join(q, r, next))
  {
    hide Accounted, DataBio, DataBios, Contiguous, Size, Glue, SetMixed, Chain, SameBio;
    if MayJoin(q, r, next) {
      var g := Glue(q, r.bios, r.segs, next.bios, next.segs);
      assert DataBios(r.bios) && DataBios(next.bios);
      GlueOk(q, r.bios, r.segs, next.bios, next.segs);
      GlueSame(q, r.bios, r.segs, next.bios, next.segs);
      CoversSame(r.bios, g.front, r.sector, r.dataLen);
      CoversSame(next.bios, g.back, next.sector, next.dataLen);
      if g.segs <= q.maxSegments {
        var differ := r.mixed || next.mixed || r.failfast != next.failfast;
        var r1, n1 := r.(bios := g.front, segs := g.segs, own := g.segs), next.(bios := g.back);
        ChainOk(q, r1, n1, differ);
        ChainFields(r1, n1, differ);
        SameBiosConcat(r.bios, g.front, next.bios, g.back, Chain(r1, n1, differ).bios);
      }
    } else {
      SameBiosRefl(r.bios);
      SameBiosRefl(next.bios);
    }
  }

  // ----- completing --------------------------------------------------------

  lemma AdvanceCovers(b: Bio, n: nat, err: int)
    requires DataBio(b) && n < b.size && n % SECTOR_SIZE == 0
    ensures var b' := Advance(b, n, err);
      && DataBio(b') && b'.sector == b.sector + n / SECTOR_SIZE && b'.size == b.size - n
      && b'.sector + b'.size / SECTOR_SIZE == b.sector + b.size / SECTOR_SIZE
  {
    AdvanceOk(b, n, err);
  }

  lemma CoversTail(bios: seq<Bio>, sector: nat, len: nat)
    requires Covers(bios, sector, len) && |bios| > 1
    ensures bios[0].size <= len
    ensures Covers(bios[1..], sector + bios[0].size / SECTOR_SIZE, len - bios[0].size)
  {
    hide DataBio;
    assert Follows(bios[0], bios[1]);
    var t := bios[1..];
    forall i | 0 <= i < |t| - 1 ensures Follows(t[i], t[i + 1]) {
      assert Follows(bios[i + 1], bios[i + 2]);
    }
  }

  lemma CoversAdvance(bios: seq<Bio>, sector: nat, len: nat, n: nat, err: int)
    requires Covers(bios, sector, len) && n < bios[0].size && n % SECTOR_SIZE == 0
    ensures Covers([Advance(bios[0], n, err)] + bios[1..], sector + n / SECTOR_SIZE, len - n)
  {
    AdvanceCovers(bios[0], n, err);
    var b, t := Advance(bios[0], n, err), bios[1..];
    hide DataBio, Advance;
    CoversOne(b);
    if t == [] {
      assert [b] + t == [b];
      assert Size(bios) == bios[0].size + Size(t);
    } else {
      CoversTail(bios, sector, len);
      CoversConcat([b], t, b.sector, b.size, len - bios[0].size);
    }
  }

  lemma SizePositive(bios: seq<Bio>)
    requires bios != [] && DataBios(bios)
    ensures Size(bios) > 0
  {
    assert DataBio(bios[0]);
  }

  /** What is left of a contiguous chain is the rest of it. */
  lemma {:induction false} DropCovers(bios: seq<Bio>, sector: nat, len: nat, n: nat, err: int)
    requires Covers(bios, sector, len) && n % SECTOR_SIZE == 0 && Drop(bios, n, err) != []
    ensures n < len && Covers(Drop(bios, n, err), sector + n / SECTOR_SIZE, len - n)
    decreases |bios|
  {
    hide BioOk, Contiguous, Advance;
    if n < bios[0].size {
      CoversAdvance(bios, sector, len, n, err);
      assert Size(bios) == bios[0].size + Size(bios[1..]);
    } else {
      CoversTail(bios, sector, len);
      if n > bios[0].size {
        DropCovers(bios[1..], sector + bios[0].size / SECTOR_SIZE, len - bios[0].size, n - bios[0].size, err);
      } else {
        SizePositive(bios[1..]);
      }
    }
  }

  lemma DropAllData(bios: seq<Bio>, sector: nat, len: nat, n: nat, err: int)
    requires Covers(bios, sector, len)
    ensures Drop(bios, n, err) == [] <==> n >= len
  {
    DropAll(bios, n, err);
    assert DataBio(Last(bios));
  }

  lemma UpdateOk(q: Limits, r: Req, n: nat, err: int)
    requires ReqOk(q, r) && n % SECTOR_SIZE == 0
    ensures
      var r' := Update(q, r, n, err);
      if n >= r.dataLen then r'.bios == []
      else ReqOk(q, r') && r'.dataLen == r.dataLen - n && r'.sector == r.sector + n / SECTOR_SIZE
  {
    hide DataBio, DataBios, Drop, Accounted, Contiguous, Recalc, Vecs, Caches, Size;
    var bios := Drop(r.bios, n, err);
    DropAllData(r.bios, r.sector, r.dataLen, n, err);
    if bios != [] {
      DropCovers(r.bios, r.sector, r.dataLen, n, err);
      assert DataBios(bios);
      CachesSame(q, bios);
      CachesAccounted(q, bios);
      CoversSame(bios, Caches(q, bios), r.sector + n / SECTOR_SIZE, r.dataLen - n);
    }
  }

  // ----- failure boundaries ------------------------------------------------

  /** The prefix is as long as it can be: all its bios have the bits, the next one lacks one. */
  lemma {:induction false} EagerPrefixLongest(bios: seq<Bio>, ff: set<FailBit>)
    ensures var k := EagerPrefix(bios, ff);
      && k <= |bios|
      && (forall i | 0 <= i < k :: ff <= bios[i].failfast)
      && (k < |bios| ==> !(ff <= bios[k].failfast))
  {
    if bios != [] && ff <= bios[0].failfast {
      EagerPrefixLongest(bios[1..], ff);
    }
  }

  /** How many bios one error completion takes off a request. */
  function FailCount(r: Req): nat {
    if r.mixed then EagerPrefix(r.bios, r.failfast) else |r.bios|
  }

  lemma {:induction false} SizeWhole(bios: seq<Bio>)
    requires DataBios(bios)
    ensures Size(bios) % SECTOR_SIZE == 0
  {
    if bios != [] {
      assert DataBio(bios[0]);
      SizeWhole(bios[1..]);
    }
  }

  /**
   * blk_rq_err_bytes is the size of a non-empty prefix of whole bios, so it is
   * positive and its BUG_ON is never hit.
   */
  lemma ErrBytesPositive(q: Limits, r: Req)
    requires ReqOk(q, r)
    ensures 1 <= FailCount(r) <= |r.bios|
    ensures ErrBytes(r) == Size(r.bios[..FailCount(r)])
    ensures 0 < ErrBytes(r) <= r.dataLen && ErrBytes(r) % SECTOR_SIZE == 0
  {
    hide BioOk, Contiguous, Accounted;
    var k := FailCount(r);
    EagerPrefixLongest(r.bios, r.failfast);
    assert r.bios[..|r.bios|] == r.bios;
    var a, b := r.bios[..k], r.bios[k..];
    assert r.bios == a + b;
    SizeConcat(a, b);
    SizePositive(a);
    SizeWhole(a);
  }

  /** Completing a prefix of whole, non-empty bios leaves the others as they are. */
  lemma {:induction false} DropPrefix(bios: seq<Bio>, k: nat, err: int)
    requires k <= |bios| && forall i | 0 <= i < |bios| :: bios[i].size > 0
    requires k > 0
    ensures Drop(bios, Size(bios[..k]), err) == bios[k..]
  {
    var n := Size(bios[..k]);
    assert n == bios[0].size + Size(bios[1..][..k - 1]) by {
      assert bios[..k][1..] == bios[1..][..k - 1];
    }
    if k > 1 {
      assert bios[1..][..k - 1][0] == bios[1];
      DropPrefix(bios[1..], k - 1, err);
    } else {
      assert bios[1..][..0] == [];
    }
  }

  /** One error completion ends exactly the bios up to the failure boundary. */
  lemma ErrorStep(q: Limits, r: Req, err: int)
    requires ReqOk(q, r)
    ensures
      var r' := Update(q, r, ErrBytes(r), err);
      && |r'.bios| == |r.bios| - FailCount(r)
      && (r'.bios != [] ==> ReqOk(q, r') && SameBios(r.bios[FailCount(r)..], r'.bios))
  {
    hide BioOk, Contiguous, Accounted, ErrBytes;
    ErrBytesPositive(q, r);
    UpdateOk(q, r, ErrBytes(r), err);
    DropPrefix(r.bios, FailCount(r), err);
    if r.bios[FailCount(r)..] != [] {
      CachesSame(q, r.bios[FailCount(r)..]);
      SizePositive(r.bios[FailCount(r)..]);
    }
  }

  /** Failing a request piece by piece comes to an end; this is how many pieces it takes. */
  function Pieces(q: Limits, r: Req, err: int): nat
    requires r.bios != [] ==> ReqOk(q, r)
    decreases |r.bios|
  {
    if r.bios == [] then 0
    else
      ErrBytesPositive(q, r);
      ErrorStep(q, r, err);
      1 + Pieces(q, Update(q, r, ErrBytes(r), err), err)
  }

  // ----- the drain buffer --------------------------------------------------

  /** The scatterlist of a request, with the drain entry if the device needs one. */
  function SgEntries(q: Limits, r: Req, drain: bool): nat {
    |MapSg(q, Vecs(r.bios))| + if drain then 1 else 0
  }

  /**
   * A partial completion counts the segments afresh and forgets the slot that
   * was reserved for the drain buffer. From then on the count is enough exactly if
   * the device does not drain, or if keeping high pages apart costs an entry: no
   * shortest scatterlist does so. As long as the vectors that touch fit in one
   * entry, that is if and only if a high page touches a neighbour. If none does
   * it is never so, whatever the sizes.
   */
  lemma DrainForgotten(q: Limits, r: Req, n: nat, err: int, drain: bool)
    requires ReqOk(q, r) && n % SECTOR_SIZE == 0 && n < r.dataLen
    ensures var vs, r' := Vecs(Drop(r.bios, n, err)), Update(q, r, n, err);
      && (SgEntries(q, r', drain) <= r'.segs <==> !drain || !ShortestKeepsApart(q, vs))
      && (RunsFit(q, vs) ==> (SgEntries(q, r', drain) <= r'.segs <==> !drain || Splits(q, vs) > 0))
      && (Splits(q, vs) == 0 ==> (SgEntries(q, r', drain) <= r'.segs <==> !drain))
  {
    hide BioOk, DataBio, DataBios, Contiguous, Accounted, MapSg, Recalc, RunsFit, Splits, ShortestKeepsApart;
    var bios := Drop(r.bios, n, err);
    var vs := Vecs(bios);
    DropAllData(r.bios, r.sector, r.dataLen, n, err);
    CachesSame(q, bios);
    SameBiosVecs(bios, Caches(q, bios));
    FreshCount(q, vs);
    RecalcExact(q, vs);
    if RunsFit(q, vs) {
      SplitsCount(q, vs);
    }
  }

  // ----- every run ---------------------------------------------------------

  datatype Op =
    | NewReq(bio: Bio, kind: Kind)
    | Back(i: nat, bio: Bio)
    | Front(i: nat, bio: Bio)
    | JoinReqs(i: nat, j: nat)
    | Peek(i: nat, drain: bool)    // blk_peek_request hands it to the driver
    | Defer(i: nat)                // ... which takes it back from the prep function
    | Complete(i: nat, n: nat, err: int)
    | Fail(i: nat, err: int)       // complete up to the next failure boundary, with an error

  predicate Has(rs: seq<Req>, i: nat) {
    i < |rs| && rs[i].bios != []
  }

  ghost predicate Allowed(q: Limits, rs: seq<Req>, op: Op) {
    match op
    case NewReq(bio, _) => FreeBio(q, bio)
    case Back(i, bio) =>
      Has(rs, i) && FreeBio(q, bio) && rs[i].Mergeable() && rs[i].sector + rs[i].Sectors() == bio.sector
    case Front(i, bio) =>
      Has(rs, i) && FreeBio(q, bio) && rs[i].Mergeable() && bio.sector + bio.size / SECTOR_SIZE == rs[i].sector
    case JoinReqs(i, j) => Has(rs, i) && Has(rs, j) && i != j
    case Peek(i, _) => Has(rs, i)
    case Defer(i) => Has(rs, i) && rs[i].own < rs[i].segs
    case Complete(i, n, _) => Has(rs, i) && n % SECTOR_SIZE == 0
    case Fail(i, _) => Has(rs, i)
  }

  function Remove(rs: seq<Req>, i: nat): seq<Req>
    requires i < |rs|
  {
    rs[..i] + rs[i + 1..]
  }

  function Replace(rs: seq<Req>, i: nat, r: Req): seq<Req>
    requires i < |rs|
  {
    if r.bios == [] then Remove(rs, i) else rs[i := r]
  }

  ghost function Next(q: Limits, rs: seq<Req>, op: Op): seq<Req>
    requires Allowed(q, rs, op)
  {
    match op
    case NewReq(bio, kind) => rs + [New(q, bio, kind)]
    case Back(i, bio) => rs[i := BackMerge(q, rs[i], bio).r]
    case Front(i, bio) => rs[i := FrontMerge(q, rs[i], bio).r]
    case JoinReqs(i, j) =>
      (match Join(q, rs[i], rs[j])
       case Joined(r) => Remove(rs[i := r], j)
       case Apart(r, next) => rs[i := r][j := next])
    case Peek(i, drain) =>
      rs[i := rs[i].(started := true, segs := if drain then rs[i].segs + 1 else rs[i].segs)]
    case Defer(i) => rs[i := rs[i].(segs := rs[i].segs - 1)]
    case Complete(i, n, err) => Replace(rs, i, Update(q, rs[i], n, err))
    case Fail(i, err) => Replace(rs, i, Update(q, rs[i], ErrBytes(rs[i]), err))
  }

  ghost predicate AllOk(q: Limits, rs: seq<Req>) {
    forall i | 0 <= i < |rs| :: ReqOk(q, rs[i]) && rs[i].bios != []
  }

  lemma OkNonEmpty(q: Limits, r: Req)
    requires ReqOk(q, r)
    ensures r.bios != []
  {
  }

  lemma PeekOk(q: Limits, r: Req, drain: bool)
    requires ReqOk(q, r)
    ensures ReqOk(q, r.(started := true, segs := if drain then r.segs + 1 else r.segs))
  {
  }

  lemma DeferOk(q: Limits, r: Req)
    requires ReqOk(q, r) && r.own < r.segs
    ensures ReqOk(q, r.(segs := r.segs - 1))
  {
  }

  lemma NextOk(q: Limits, rs: seq<Req>, op: Op)
    requires AllOk(q, rs) && Allowed(q, rs, op)
    ensures AllOk(q, Next(q, rs, op))
  {
    hide ReqOk, FreeBio, Covers, Counted, Eager, Accounted, BioOk, DataBio, SameBios, Grown;
    hide BackMerge, FrontMerge, Join, Update, New, ErrBytes;
    match op
    case NewReq(bio, kind) =>
      NewOk(q, bio, kind);
      OkNonEmpty(q, New(q, bio, kind));
    case Back(i, bio) =>
      BackMergeOk(q, rs[i], bio);
      OkNonEmpty(q, BackMerge(q, rs[i], bio).r);
    case Front(i, bio) =>
      FrontMergeOk(q, rs[i], bio);
      OkNonEmpty(q, FrontMerge(q, rs[i], bio).r);
    case JoinReqs(i, j) =>
      JoinOk(q, rs[i], rs[j]);
      OkNonEmpty(q, Join(q, rs[i], rs[j]).r);
      if Join(q, rs[i], rs[j]).Apart? {
        OkNonEmpty(q, Join(q, rs[i], rs[j]).next);
      }
    case Peek(i, drain) => PeekOk(q, rs[i], drain);
    case Defer(i) => DeferOk(q, rs[i]);
    case Complete(i, n, err) => UpdateOk(q, rs[i], n, err);
    case Fail(i, err) => ErrorStep(q, rs[i], err);
  }

  ghost predicate CanRun(q: Limits, rs: seq<Req>, ops: seq<Op>)
    decreases |ops|
  {
    ops == [] || (Allowed(q, rs, ops[0]) && CanRun(q, Next(q, rs, ops[0]), ops[1..]))
  }

  ghost function RunAll(q: Limits, rs: seq<Req>, ops: seq<Op>): seq<Req>
    requires CanRun(q, rs, ops)
    decreases |ops|
  {
    if ops == [] then rs else RunAll(q, Next(q, rs, ops[0]), ops[1..])
  }

  /** There are such runs: any sound bio becomes a request. */
  lemma FirstRun(q: Limits, bio: Bio, kind: Kind)
    requires FreeBio(q, bio)
    ensures CanRun(q, [], [NewReq(bio, kind)]) && RunAll(q, [], [NewReq(bio, kind)]) == [New(q, bio, kind)]
  {
    hide FreeBio, New;
    var ops := [NewReq(bio, kind)];
    assert ops[1..] == [] && [] + [New(q, bio, kind)] == [New(q, bio, kind)];
  }

  lemma {:induction false} AlwaysOk(q: Limits, rs: seq<Req>, ops: seq<Op>)
    requires AllOk(q, rs) && CanRun(q, rs, ops)
    ensures AllOk(q, RunAll(q, rs, ops))
    decreases |ops|
  {
    hide ReqOk, Next;
    if ops != [] {
      NextOk(q, rs, ops[0]);
      AlwaysOk(q, Next(q, rs, ops[0]), ops[1..]);
    }
  }

  /**
   * Whatever is merged, completed or failed: nr_phys_segments is enough for the
   * scatterlist, and for the drain entry too while its slot is reserved.
   */
  lemma SegmentBound(q: Limits, ops: seq<Op>, i: nat)
    requires CanRun(q, [], ops) && i < |RunAll(q, [], ops)|
    ensures var r := RunAll(q, [], ops)[i];
      SgEntries(q, r, false) <= r.segs && (r.own < r.segs ==> SgEntries(q, r, true) <= r.segs)
  {
    AlwaysOk(q, [], ops);
    var r := RunAll(q, [], ops)[i];
    EnoughSegments(q, r.bios, r.own);
  }

  /** ... the bios of a request are contiguous on the disk, and the request covers exactly them ... */
  lemma MergedShape(q: Limits, ops: seq<Op>, i: nat)
    requires CanRun(q, [], ops) && i < |RunAll(q, [], ops)|
    ensures var r := RunAll(q, [], ops)[i];
      && r.bios != [] && Contiguous(r.bios) && r.sector == r.bios[0].sector
      && r.dataLen == Size(r.bios) == |Stream(r.bios)|
  {
    AlwaysOk(q, [], ops);
    StreamSize(RunAll(q, [], ops)[i].bios);
  }

  /** ... and its error completion takes a longest non-empty prefix at least as eager to fail. */
  lemma FailureBoundary(q: Limits, ops: seq<Op>, i: nat)
    requires CanRun(q, [], ops) && i < |RunAll(q, [], ops)| && RunAll(q, [], ops)[i].mixed
    ensures
      var r := RunAll(q, [], ops)[i];
      var k := FailCount(r);
      && 1 <= k <= |r.bios| && 0 < ErrBytes(r) == Size(r.bios[..k])
      && (forall j | 0 <= j < k :: r.failfast <= r.bios[j].failfast)
      && (k < |r.bios| ==> !(r.failfast <= r.bios[k].failfast))
  {
    AlwaysOk(q, [], ops);
    var r := RunAll(q, [], ops)[i];
    ErrBytesPositive(q, r);
    EagerPrefixLongest(r.bios, r.failfast);
  }
}
