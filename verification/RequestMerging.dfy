/**
 * When bios and requests are merged, and what a bio may rely on once it is part
 * of a request: the request stays within the limits of the queue, and whether
 * the bio may be failed early is what it was when the bio came.
 */
module RequestMerging {
  import opened Block
  import opened Numbers
  import opened Segments
  import opened Completion
  import opened Requests
  import opened RequestSafety

  // ----- when --------------------------------------------------------------

  /** How many segments a bio brings: what it says, or else a fresh count. */
  function SegsOf(q: Limits, b: Bio): nat {
    if b.segs.Some? then b.segs.value else |Recalc(q, b.Left())|
  }

  lemma RecountIs(q: Limits, b: Bio)
    ensures var b' := Recount(q, b);
      && b'.segs.value == SegsOf(q, b) && b'.size == b.size && b'.sector == b.sector
      && b'.failfast == b.failfast && b'.readAhead == b.readAhead && b'.id == b.id
  {
  }

  /** A bio of this size and number of segments is too much for the request. */
  predicate TooMuch(q: Limits, r: Req, bio: Bio) {
    (r.dataLen + bio.size) / SECTOR_SIZE > q.maxSectors || r.segs + SegsOf(q, bio) > q.maxSegments
  }

  /** The request has grown by the bio, and is within the limits if it was merged; else it is never tried again. */
  ghost predicate MergedWithin(q: Limits, r: Req, bio: Bio, m: BioMerge) {
    && (m.Merged? <==> !TooMuch(q, r, bio))
    && (m.Merged? ==>
          && m.r.dataLen == r.dataLen + bio.size && m.r.Sectors() <= q.maxSectors
          && m.r.segs == r.segs + SegsOf(q, bio) <= q.maxSegments && m.r.own == r.own + SegsOf(q, bio)
          && |m.r.bios| == |r.bios| + 1 && m.r.noMerge == r.noMerge)
    && (m.Refused? ==>
          && m.r.noMerge && m.r.dataLen == r.dataLen && m.r.segs == r.segs && m.r.own == r.own
          && m.r.sector == r.sector && |m.r.bios| == |r.bios|)
  }

  lemma AppendFields(r: Req, b: Bio)
    ensures var r' := Append(r, b);
      && r'.dataLen == r.dataLen + b.size && r'.segs == r.segs && r'.own == r.own
      && |r'.bios| == |r.bios| + 1 && r'.noMerge == r.noMerge
  {
  }

  lemma PrependFields(r: Req, b: Bio)
    ensures var r' := Prepend(r, b);
      && r'.dataLen == r.dataLen + b.size && r'.segs == r.segs && r'.own == r.own && |r'.bios| == |r.bios| + 1
      && r'.noMerge == r.noMerge && r'.sector == b.sector
  {
  }

  lemma BackMergeWithin(q: Limits, r: Req, bio: Bio)
    requires r.bios != [] && r.dataLen % SECTOR_SIZE == 0
    ensures MergedWithin(q, r, bio, BackMerge(q, r, bio))
  {
    hide Recount, Append, SegsOf;
    RecountIs(q, bio);
    var b := Recount(q, bio);
    AppendFields(Plus(r.(bios := r.bios[|r.bios| - 1 := Recount(q, Last(r.bios))]), b), b);
  }

  lemma FrontMergeWithin(q: Limits, r: Req, bio: Bio)
    requires r.bios != [] && r.dataLen % SECTOR_SIZE == 0
    ensures MergedWithin(q, r, bio, FrontMerge(q, r, bio))
    ensures FrontMerge(q, r, bio).Merged? ==> FrontMerge(q, r, bio).r.sector == bio.sector
  {
    hide Recount, Prepend, SegsOf;
    RecountIs(q, bio);
    var b := Recount(q, bio);
    PrependFields(Plus(r.(bios := r.bios[0 := Recount(q, r.bios[0])]), b), b);
  }

  /** Whether the last vector of one request and the first of another make one segment. */
  predicate Touch(q: Limits, r: Req, next: Req)
    requires r.bios != [] && next.bios != []
  {
    PhysContig(q, Last(r.bios), next.bios[0]) && r.segs + next.segs > 0
  }

  function JointSegs(q: Limits, r: Req, next: Req): nat
    requires r.bios != [] && next.bios != []
  {
    r.segs + next.segs - if Touch(q, r, next) then 1 else 0
  }

  /**
   * Two requests are joined if and only if both can be merged, they are of one
   * kind, the second starts where the first ends, neither is special, and together
   * they are within the limits.
   */
  lemma JoinWithin(q: Limits, r: Req, next: Req)
    requires r.bios != [] && next.bios != [] && r.dataLen % SECTOR_SIZE == 0
    ensures var m := Join(q, r, next);
      && (m.Joined? <==>
            && !r.noMerge && !r.started && !next.noMerge && !next.started && r.kind == next.kind
            && r.sector + r.Sectors() == next.sector && !r.special && !next.special
            && (r.dataLen + next.dataLen) / SECTOR_SIZE <= q.maxSectors && JointSegs(q, r, next) <= q.maxSegments)
      && (m.Joined? ==>
            && m.r.dataLen == r.dataLen + next.dataLen && m.r.Sectors() <= q.maxSectors
            && m.r.segs == m.r.own == JointSegs(q, r, next) <= q.maxSegments && m.r.sector == r.sector)
      && (m.Apart? ==>
            && m.r == r.(bios := m.r.bios) && |m.r.bios| == |r.bios|
            && m.next == next.(bios := m.next.bios) && |m.next.bios| == |next.bios|)
  {
    hide PhysContig;
  }

  // ----- every run stays within the limits ---------------------------------

  /** The bios that become requests are within the limits by themselves. */
  ghost predicate BiosWithin(q: Limits, ops: seq<Op>) {
    forall i | 0 <= i < |ops| && ops[i].NewReq? :: ops[i].bio.size / SECTOR_SIZE <= q.maxSectors
  }

  ghost predicate AllWithin(q: Limits, rs: seq<Req>) {
    forall i | 0 <= i < |rs| :: rs[i].Sectors() <= q.maxSectors
  }

  /** The same for segments, as long as nothing is completed: a fresh count may be larger than the one before. */
  ghost predicate BiosCounted(q: Limits, ops: seq<Op>) {
    forall i | 0 <= i < |ops| ::
      && (ops[i].NewReq? ==> SegsOf(q, ops[i].bio) <= q.maxSegments)
      && !ops[i].Complete? && !ops[i].Fail?
  }

  ghost predicate AllCounted(q: Limits, rs: seq<Req>) {
    forall i | 0 <= i < |rs| :: rs[i].own <= q.maxSegments
  }

  lemma OkIsWhole(q: Limits, r: Req)
    requires ReqOk(q, r)
    ensures r.dataLen % SECTOR_SIZE == 0 && r.bios != []
  {
    SizeWhole(r.bios);
  }

  lemma Shorter(q: Limits, r: Req, n: nat, err: int)
    ensures Update(q, r, n, err).dataLen <= r.dataLen && Update(q, r, n, err).Sectors() <= r.Sectors()
  {
  }

  lemma NewWithin(q: Limits, bio: Bio, kind: Kind)
    ensures New(q, bio, kind).dataLen == bio.size && New(q, bio, kind).segs == New(q, bio, kind).own == SegsOf(q, bio)
  {
  }

  lemma NextWithin(q: Limits, rs: seq<Req>, op: Op)
    requires AllOk(q, rs) && Allowed(q, rs, op) && AllWithin(q, rs) && BiosWithin(q, [op])
    ensures AllWithin(q, Next(q, rs, op))
  {
    hide ReqOk, FreeBio, BackMerge, FrontMerge, Join, Update, New, ErrBytes, SegsOf, TooMuch, JointSegs;
    assert [op][0] == op;
    match op
    case NewReq(bio, kind) => NewWithin(q, bio, kind);
    case Back(i, bio) =>
      OkIsWhole(q, rs[i]);
      BackMergeWithin(q, rs[i], bio);
    case Front(i, bio) =>
      OkIsWhole(q, rs[i]);
      FrontMergeWithin(q, rs[i], bio);
    case JoinReqs(i, j) =>
      OkIsWhole(q, rs[i]);
      JoinWithin(q, rs[i], rs[j]);
    case Peek(i, drain) =>
    case Defer(i) =>
    case Complete(i, n, err) => Shorter(q, rs[i], n, err);
    case Fail(i, err) => Shorter(q, rs[i], ErrBytes(rs[i]), err);
  }

  lemma {:induction false} RunWithin(q: Limits, rs: seq<Req>, ops: seq<Op>)
    requires AllOk(q, rs) && CanRun(q, rs, ops) && AllWithin(q, rs) && BiosWithin(q, ops)
    ensures AllWithin(q, RunAll(q, rs, ops))
    decreases |ops|
  {
    hide AllOk, AllWithin, Next, Allowed;
    if ops != [] {
      NextOk(q, rs, ops[0]);
      NextWithin(q, rs, ops[0]);
      RunWithin(q, Next(q, rs, ops[0]), ops[1..]);
    }
  }

  /** Over every run, if each bio that becomes a request is within max_sectors, so is every request. */
  lemma SectorLimit(q: Limits, ops: seq<Op>, i: nat)
    requires CanRun(q, [], ops) && BiosWithin(q, ops) && i < |RunAll(q, [], ops)|
    ensures RunAll(q, [], ops)[i].Sectors() <= q.maxSectors
  {
    RunWithin(q, [], ops);
  }

  lemma NextCounted(q: Limits, rs: seq<Req>, op: Op)
    requires AllOk(q, rs) && Allowed(q, rs, op) && AllCounted(q, rs) && BiosCounted(q, [op])
    ensures AllCounted(q, Next(q, rs, op))
  {
    hide Shape, Eager, Accounted, FreeBio, BackMerge, FrontMerge, Join, New, SegsOf, TooMuch, JointSegs;
    assert [op][0] == op;
    match op
    case NewReq(bio, kind) => NewWithin(q, bio, kind);
    case Back(i, bio) =>
      OkIsWhole(q, rs[i]);
      BackMergeWithin(q, rs[i], bio);
    case Front(i, bio) =>
      OkIsWhole(q, rs[i]);
      FrontMergeWithin(q, rs[i], bio);
    case JoinReqs(i, j) =>
      OkIsWhole(q, rs[i]);
      JoinWithin(q, rs[i], rs[j]);
    case _ =>
  }

  lemma {:induction false} RunCounted(q: Limits, rs: seq<Req>, ops: seq<Op>)
    requires AllOk(q, rs) && CanRun(q, rs, ops) && AllCounted(q, rs) && BiosCounted(q, ops)
    ensures AllOk(q, RunAll(q, rs, ops)) && AllCounted(q, RunAll(q, rs, ops))
    decreases |ops|
  {
    hide AllOk, AllCounted, Next, Allowed;
    if ops != [] {
      NextOk(q, rs, ops[0]);
      NextCounted(q, rs, ops[0]);
      RunCounted(q, Next(q, rs, ops[0]), ops[1..]);
    }
  }

  /** Until a request is completed in part, its scatterlist is within max_segments. */
  lemma SegmentLimit(q: Limits, ops: seq<Op>, i: nat)
    requires CanRun(q, [], ops) && BiosCounted(q, ops) && i < |RunAll(q, [], ops)|
    ensures SgEntries(q, RunAll(q, [], ops)[i], false) <= RunAll(q, [], ops)[i].own <= q.maxSegments
  {
    RunCounted(q, [], ops);
    EnoughSegments(q, RunAll(q, [], ops)[i].bios, RunAll(q, [], ops)[i].own);
  }

  // ----- failfast bits -----------------------------------------------------

  /** The failfast bits that count for each bio: its own in a mixed request, those of the request else. */
  function Bits(r: Req): seq<set<FailBit>> {
    seq(|r.bios|, i requires 0 <= i < |r.bios| => if r.mixed then r.bios[i].failfast else r.failfast)
  }

  /** The request has the bits of its first bio, and if not mixed no bio has others. */
  ghost predicate Uniform(r: Req) {
    && (r.bios != [] ==> Bits(r)[0] == r.failfast)
    && (!r.mixed ==> forall i | 0 <= i < |r.bios| :: r.bios[i].failfast <= r.failfast)
  }

  lemma SetMixedBits(r: Req)
    requires Uniform(r)
    ensures Bits(SetMixed(r)) == Bits(r) && Uniform(SetMixed(r)) && SetMixed(r).failfast == r.failfast
  {
    if !r.mixed {
      forall i | 0 <= i < |r.bios| ensures r.bios[i].failfast + r.failfast == r.failfast {
      }
    }
  }

  lemma SetMixedFields(r: Req)
    ensures var r' := SetMixed(r); r'.mixed && |r'.bios| == |r.bios|
  {
  }

  lemma AppendBits(r: Req, b: Bio)
    requires Uniform(r) && r.bios != []
    ensures Bits(Append(r, b)) == Bits(r) + [b.failfast] && Uniform(Append(r, b))
  {
    hide SetMixed;
    SetMixedBits(r);
    SetMixedFields(r);
  }

  lemma PrependBits(r: Req, b: Bio)
    requires Uniform(r) && r.bios != []
    ensures Bits(Prepend(r, b)) == [b.failfast] + Bits(r) && Uniform(Prepend(r, b))
  {
    hide SetMixed;
    SetMixedBits(r);
    SetMixedFields(r);
  }

  lemma ChainBits(r: Req, next: Req, differ: bool)
    requires Uniform(r) && Uniform(next) && r.bios != []
    requires differ || (!r.mixed && !next.mixed && r.failfast == next.failfast)
    ensures Bits(Chain(r, next, differ)) == Bits(r) + Bits(next) && Uniform(Chain(r, next, differ))
  {
    hide SetMixed;
    SetMixedBits(r);
    SetMixedBits(next);
    SetMixedFields(r);
    SetMixedFields(next);
  }

  /** Bios may be replaced by others with the same bits. */
  lemma SameBits(r: Req, r': Req)
    requires |r.bios| == |r'.bios| && forall i | 0 <= i < |r.bios| :: r.bios[i].failfast == r'.bios[i].failfast
    requires r.mixed == r'.mixed && r.failfast == r'.failfast
    ensures Bits(r) == Bits(r') && (Uniform(r) ==> Uniform(r'))
  {
  }

  /** What a bio asks for when it becomes a request: read-ahead may fail in every way. */
  function Asked(bio: Bio): set<FailBit> {
    if bio.readAhead then FAILFAST_MASK else bio.failfast
  }

  lemma NewBits(q: Limits, bio: Bio, kind: Kind)
    ensures Bits(New(q, bio, kind)) == [Asked(bio)] && Uniform(New(q, bio, kind))
  {
    hide Recount;
    RecountIs(q, bio);
    assert bio.failfast + FAILFAST_MASK == FAILFAST_MASK by {
      forall f | f in bio.failfast ensures f in FAILFAST_MASK {
        match f
        case Dev =>
        case Transport =>
        case Driver =>
      }
    }
  }

  lemma GlueBits(q: Limits, a: seq<Bio>, n: nat, b: seq<Bio>, m: nat)
    requires a != [] && b != []
    ensures var g := Glue(q, a, n, b, m);
      && |g.front| == |a| && (forall i | 0 <= i < |a| :: g.front[i].failfast == a[i].failfast)
      && |g.back| == |b| && (forall i | 0 <= i < |b| :: g.back[i].failfast == b[i].failfast)
  {
    hide PhysContig;
  }

  lemma CachesBits(q: Limits, bios: seq<Bio>)
    ensures |Caches(q, bios)| == |bios| && forall i | 0 <= i < |bios| :: Caches(q, bios)[i].failfast == bios[i].failfast
  {
  }

  lemma {:induction false} DropBits(bios: seq<Bio>, n: nat, err: int)
    ensures var j, left := |Finished(bios, n, err)|, Drop(bios, n, err);
      |left| == |bios| - j && forall i | 0 <= i < |left| :: left[i].failfast == bios[j + i].failfast
  {
    if bios != [] && n > bios[0].size {
      DropBits(bios[1..], n - bios[0].size, err);
    }
  }

  lemma UpdateFields(q: Limits, r: Req, n: nat, err: int)
    ensures var r', left := Update(q, r, n, err), Drop(r.bios, n, err);
      && r'.mixed == r.mixed && |r'.bios| == |left|
      && (forall i | 0 <= i < |left| :: r'.bios[i].failfast == left[i].failfast)
      && r'.failfast == if left != [] && r.mixed then left[0].failfast else r.failfast
  {
    CachesBits(q, Drop(r.bios, n, err));
    hide Caches, Drop, Recalc;
  }

  /** The bios left keep their bits, and the request takes those of the first of them. */
  lemma UpdateBits(q: Limits, r: Req, n: nat, err: int)
    requires Uniform(r)
    ensures |Finished(r.bios, n, err)| + |Update(q, r, n, err).bios| == |r.bios|
    ensures Bits(Update(q, r, n, err)) == Bits(r)[|Finished(r.bios, n, err)|..]
    ensures Uniform(Update(q, r, n, err))
  {
    hide Update, Drop, Finished;
    DropBits(r.bios, n, err);
    UpdateFields(q, r, n, err);
    var j, r' := |Finished(r.bios, n, err)|, Update(q, r, n, err);
    assert forall i | 0 <= i < |r'.bios| :: r'.bios[i].failfast == r.bios[j + i].failfast;
  }

  lemma BackBits(q: Limits, r: Req, bio: Bio)
    requires Uniform(r) && r.bios != []
    ensures var m := BackMerge(q, r, bio);
      Uniform(m.r) && Bits(m.r) == if m.Merged? then Bits(r) + [bio.failfast] else Bits(r)
  {
    hide Recount, Append, Uniform, Bits;
    RecountIs(q, bio);
    RecountIs(q, Last(r.bios));
    var r1 := r.(bios := r.bios[|r.bios| - 1 := Recount(q, Last(r.bios))]);
    SameBits(r, r1);
    SameBits(r, r.(noMerge := true));
    SameBits(r, r1.(noMerge := true));
    SameBits(r, Plus(r1, Recount(q, bio)));
    AppendBits(Plus(r1, Recount(q, bio)), Recount(q, bio));
  }

  lemma FrontBits(q: Limits, r: Req, bio: Bio)
    requires Uniform(r) && r.bios != []
    ensures var m := FrontMerge(q, r, bio);
      Uniform(m.r) && Bits(m.r) == if m.Merged? then [bio.failfast] + Bits(r) else Bits(r)
  {
    hide Recount, Prepend, Uniform, Bits;
    RecountIs(q, bio);
    RecountIs(q, r.bios[0]);
    var r1 := r.(bios := r.bios[0 := Recount(q, r.bios[0])]);
    SameBits(r, r1);
    SameBits(r, r.(noMerge := true));
    SameBits(r, r1.(noMerge := true));
    SameBits(r, Plus(r1, Recount(q, bio)));
    PrependBits(Plus(r1, Recount(q, bio)), Recount(q, bio));
  }

  lemma JoinBits(q: Limits, r: Req, next: Req)
    requires Uniform(r) && Uniform(next) && r.bios != [] && next.bios != []
    ensures match Join(q, r, next)
      case Joined(c) => Uniform(c) && Bits(c) == Bits(r) + Bits(next)
      case Apart(r', next') => Uniform(r') && Uniform(next') && Bits(r') == Bits(r) && Bits(next') == Bits(next)
  {
    hide Glue, Chain, Uniform, Bits, MayJoin;
    GlueBits(q, r.bios, r.segs, next.bios, next.segs);
    var g := Glue(q, r.bios, r.segs, next.bios, next.segs);
    var a, b := r.(bios := g.front, segs := g.segs, own := g.segs), next.(bios := g.back);
    SameBits(r, r.(bios := g.front));
    SameBits(r, a);
    SameBits(next, b);
    ChainBits(a, b, r.mixed || next.mixed || r.failfast != next.failfast);
  }

  // ----- over every run ----------------------------------------------------

  /** For each request, the bits its bios came with, in order. */
  type Came = seq<seq<set<FailBit>>>

  function Dropped<T>(s: seq<T>, i: nat): seq<T>
    requires i < |s|
  {
    s[..i] + s[i + 1..]
  }

  function EndFirst(came: Came, i: nat, k: nat): Came
    requires i < |came|
  {
    if k >= |came[i]| then Dropped(came, i) else came[i := came[i][k..]]
  }

  /** Bios join at either end, chains are put together, and those at the front end; nothing else happens to a bit. */
  ghost function NextCame(q: Limits, rs: seq<Req>, came: Came, op: Op): Came
    requires Allowed(q, rs, op) && |came| == |rs|
  {
    match op
    case NewReq(bio, _) => came + [[Asked(bio)]]
    case Back(i, bio) => if BackMerge(q, rs[i], bio).Merged? then came[i := came[i] + [bio.failfast]] else came
    case Front(i, bio) => if FrontMerge(q, rs[i], bio).Merged? then came[i := [bio.failfast] + came[i]] else came
    case JoinReqs(i, j) =>
      if Join(q, rs[i], rs[j]).Joined? then Dropped(came[i := came[i] + came[j]], j) else came
    case Complete(i, n, err) => EndFirst(came, i, |Finished(rs[i].bios, n, err)|)
    case Fail(i, err) => EndFirst(came, i, |Finished(rs[i].bios, ErrBytes(rs[i]), err)|)
    case _ => came
  }

  ghost predicate AllCame(rs: seq<Req>, came: Came) {
    |rs| == |came| && forall i | 0 <= i < |rs| :: Uniform(rs[i]) && Bits(rs[i]) == came[i]
  }

  lemma CompleteCame(q: Limits, rs: seq<Req>, came: Came, i: nat, n: nat, err: int)
    requires AllCame(rs, came) && i < |rs|
    ensures AllCame(Replace(rs, i, Update(q, rs[i], n, err)), EndFirst(came, i, |Finished(rs[i].bios, n, err)|))
  {
    hide Uniform, Update, Finished;
    UpdateBits(q, rs[i], n, err);
    assert |came[i]| == |rs[i].bios|;
  }

  lemma JoinCame(q: Limits, rs: seq<Req>, came: Came, i: nat, j: nat)
    requires AllOk(q, rs) && AllCame(rs, came) && Allowed(q, rs, JoinReqs(i, j))
    ensures AllCame(Next(q, rs, JoinReqs(i, j)), NextCame(q, rs, came, JoinReqs(i, j)))
  {
    hide Uniform, Bits, Join, ReqOk;
    JoinBits(q, rs[i], rs[j]);
  }

  lemma NextAllCame(q: Limits, rs: seq<Req>, came: Came, op: Op)
    requires AllOk(q, rs) && AllCame(rs, came) && Allowed(q, rs, op)
    ensures AllCame(Next(q, rs, op), NextCame(q, rs, came, op))
  {
    hide Uniform, Bits, BackMerge, FrontMerge, Join, Update, New, ErrBytes, Finished, ReqOk, FreeBio;
    match op
    case NewReq(bio, kind) => NewBits(q, bio, kind);
    case Back(i, bio) => BackBits(q, rs[i], bio);
    case Front(i, bio) => FrontBits(q, rs[i], bio);
    case JoinReqs(i, j) => JoinCame(q, rs, came, i, j);
    case Peek(i, drain) =>
      SameBits(rs[i], rs[i].(started := true, segs := if drain then rs[i].segs + 1 else rs[i].segs));
    case Defer(i) => SameBits(rs[i], rs[i].(segs := rs[i].segs - 1));
    case Complete(i, n, err) => CompleteCame(q, rs, came, i, n, err);
    case Fail(i, err) => CompleteCame(q, rs, came, i, ErrBytes(rs[i]), err);
  }

  ghost function RunCame(q: Limits, rs: seq<Req>, came: Came, ops: seq<Op>): Came
    requires CanRun(q, rs, ops) && AllOk(q, rs) && AllCame(rs, came)
    decreases |ops|
  {
    if ops == [] then came
    else
      NextOk(q, rs, ops[0]);
      NextAllCame(q, rs, came, ops[0]);
      RunCame(q, Next(q, rs, ops[0]), NextCame(q, rs, came, ops[0]), ops[1..])
  }

  lemma {:induction false} RunAllCame(q: Limits, rs: seq<Req>, came: Came, ops: seq<Op>)
    requires CanRun(q, rs, ops) && AllOk(q, rs) && AllCame(rs, came)
    ensures AllOk(q, RunAll(q, rs, ops)) && AllCame(RunAll(q, rs, ops), RunCame(q, rs, came, ops))
    decreases |ops|
  {
    hide AllOk, Uniform, Bits, Next, NextCame, Allowed;
    if ops != [] {
      NextOk(q, rs, ops[0]);
      NextAllCame(q, rs, came, ops[0]);
      RunAllCame(q, Next(q, rs, ops[0]), NextCame(q, rs, came, ops[0]), ops[1..]);
    }
  }

  /**
   * Over every run the failfast bits that count for a bio are those it came with,
   * whatever it was merged with; the request has those of its first bio; and an
   * error completion takes the longest run of bios, from the first, that asked for
   * at least as much.
   */
  lemma FailfastKept(q: Limits, ops: seq<Op>, i: nat)
    requires CanRun(q, [], ops) && i < |RunAll(q, [], ops)|
    ensures
      var r, came := RunAll(q, [], ops)[i], RunCame(q, [], [], ops);
      && |came| == |RunAll(q, [], ops)| && came[i] != [] && Bits(r) == came[i] && r.failfast == came[i][0]
      && var k := FailCount(r);
      && 1 <= k <= |came[i]| && ErrBytes(r) == Size(r.bios[..k])
      && (forall j | 0 <= j < k :: came[i][0] <= came[i][j])
      && (k < |came[i]| ==> !(came[i][0] <= came[i][k]))
  {
    hide CanRun, RunAll, RunCame;
    RunAllCame(q, [], [], ops);
    var r := RunAll(q, [], ops)[i];
    ErrBytesPositive(q, r);
    EagerPrefixLongest(r.bios, r.failfast);
  }
}
