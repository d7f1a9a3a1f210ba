/**
 * A request as a chain of bios: how it grows by merging, how it shrinks by
 * completion, and what all of that keeps. The operations here are values; the
 * in-place versions of module RequestObject are proved against them.
 */
module Requests {
  import opened Block
  import opened Numbers
  import opened Segments
  import opened Completion

  // What two requests, or a request and a bio, must share to be merged.
  datatype Kind = Kind(write: bool, discard: bool, secure: bool, disk: nat)

  datatype Req = Req(
    bios: seq<Bio>,          // bio .. biotail
    sector: nat,             // __sector
    dataLen: nat,            // __data_len
    failfast: set<FailBit>,  // the failfast bits of cmd_flags
    mixed: bool,             // REQ_MIXED_MERGE
    noMerge: bool,           // REQ_NOMERGE
    started: bool,           // REQ_STARTED
    special: bool,
    kind: Kind,
    segs: nat,               // nr_phys_segments
    own: nat                 // history: the same, without what was added for the drain buffer
  ) {
    function Sectors(): nat {
      dataLen / SECTOR_SIZE
    }

    predicate Mergeable() {
      !noMerge && !started
    }
  }

  // ----- counting segments -------------------------------------------------

  /** The size caches after __blk_recalc_rq_segments has walked the chain. */
  function Caches(q: Limits, bios: seq<Bio>): seq<Bio> {
    var p := Recalc(q, Vecs(bios));
    if bios == [] || p == [] then bios
    else
      var bs := bios[0 := bios[0].(segFront := Max(bios[0].segFront, Total(p[0])))];
      bs[|bs| - 1 := Last(bs).(segBack := Max(Last(bs).segBack, Total(Last(p))))]
  }

  /** bio_phys_segments: count a bio's own segments unless that is known. */
  function Recount(q: Limits, b: Bio): (b': Bio)
    ensures b'.segs.Some?
  {
    if b.segs.Some? then b
    else Caches(q, [b])[0].(segs := Some(|Recalc(q, b.Left())|))
  }

  /** A request made from a bio; read-ahead may fail in every way. */
  function New(q: Limits, bio: Bio, kind: Kind): Req {
    var b := Recount(q, bio);
    Req([b], b.sector, b.size, if b.readAhead then b.failfast + FAILFAST_MASK else b.failfast,
        false, false, false, false, kind, b.segs.value, b.segs.value)
  }

  // ----- merging -----------------------------------------------------------

  /** blk_rq_set_mixed_merge: every bio carries its own failfast bits from now on. */
  function SetMixed(r: Req): Req {
    if r.mixed then r
    else r.(mixed := true,
            bios := seq(|r.bios|, i requires 0 <= i < |r.bios| =>
                          r.bios[i].(failfast := r.bios[i].failfast + r.failfast)))
  }

  datatype BioMerge = Merged(r: Req) | Refused(r: Req, bio: Bio)

  /** The request with the segments of another bio added to its count (ll_new_hw_segment). */
  function Plus(r: Req, b: Bio): Req
    requires b.segs.Some?
  {
    r.(segs := r.segs + b.segs.value, own := r.own + b.segs.value)
  }

  /** Chain a bio to the back of a request. */
  function Append(r: Req, b: Bio): Req {
    var r1 := if r.failfast != b.failfast then SetMixed(r) else r;
    r1.(bios := r1.bios + [b], dataLen := r1.dataLen + b.size)
  }

  /** ... or to the front: the request now starts where the bio does and fails like it. */
  function Prepend(r: Req, b: Bio): Req {
    var r1 := if r.failfast != b.failfast then SetMixed(r).(failfast := b.failfast) else r;
    r1.(bios := [b] + r1.bios, sector := b.sector, dataLen := r1.dataLen + b.size)
  }

  function BackMerge(q: Limits, r: Req, bio: Bio): BioMerge
    requires r.bios != []
  {
    if r.Sectors() + bio.size / SECTOR_SIZE > q.maxSectors then Refused(r.(noMerge := true), bio)
    else
      var r1 := r.(bios := r.bios[|r.bios| - 1 := Recount(q, Last(r.bios))]);
      var b := Recount(q, bio);
      if r.segs + b.segs.value > q.maxSegments then Refused(r1.(noMerge := true), b) else Merged(Append(Plus(r1, b), b))
  }

  function FrontMerge(q: Limits, r: Req, bio: Bio): BioMerge
    requires r.bios != []
  {
    if r.Sectors() + bio.size / SECTOR_SIZE > q.maxSectors then Refused(r.(noMerge := true), bio)
    else
      var b := Recount(q, bio);
      var r1 := r.(bios := r.bios[0 := Recount(q, r.bios[0])]);
      if r.segs + b.segs.value > q.maxSegments then Refused(r1.(noMerge := true), b)
      else Merged(Prepend(Plus(r1, b), b))
  }

  datatype ReqMerge = Joined(r: Req) | Apart(r: Req, next: Req)

  /** blk_phys_contig_segment */
  predicate PhysContig(q: Limits, a: Bio, b: Bio) {
    && q.cluster
    && a.segBack + b.segFront <= q.maxSegmentSize
    && (a.vecs == [] || (a.Left() != [] && b.Left() != [] && q.together(Last(a.Left()), b.Left()[0])))
  }

  /** The tests attempt_merge makes before it touches anything. */
  predicate MayJoin(q: Limits, r: Req, next: Req) {
    && r.Mergeable() && next.Mergeable()
    && r.kind == next.kind
    && r.sector + r.Sectors() == next.sector
    && !r.special && !next.special
    && r.Sectors() + next.Sectors() <= q.maxSectors
  }

  datatype Glued = Glued(front: seq<Bio>, back: seq<Bio>, segs: nat)

  /** ll_merge_requests_fn: the new size caches of both chains, and the joint number of segments. */
  function Glue(q: Limits, a: seq<Bio>, n: nat, b: seq<Bio>, m: nat): Glued
    requires a != [] && b != []
  {
    var size := Last(a).segBack + b[0].segFront;
    if PhysContig(q, Last(a), b[0]) && n + m > 0 then
      Glued(if n == 1 then a[0 := a[0].(segFront := size)] else a,
            if m == 1 then b[|b| - 1 := Last(b).(segBack := size)] else b,
            n + m - 1)
    else Glued(a, b, n + m)
  }

  /** Chain the bios of `next` to `r`; if their failfast bits differ, both become mixed first. */
  function Chain(r: Req, next: Req, differ: bool): Req {
    var r1 := if differ then SetMixed(r) else r;
    var n1 := if differ then SetMixed(next) else next;
    r1.(bios := r1.bios + n1.bios, dataLen := r.dataLen + next.dataLen)
  }

  /** attempt_merge; the caches are updated even if the merge is refused for too many segments. */
  function Join(q: Limits, r: Req, next: Req): ReqMerge
    requires r.bios != [] && next.bios != []
  {
    if !MayJoin(q, r, next) then Apart(r, next)
    else
      var g := Glue(q, r.bios, r.segs, next.bios, next.segs);
      if g.segs > q.maxSegments then Apart(r.(bios := g.front), next.(bios := g.back))
      else
        Joined(Chain(r.(bios := g.front, segs := g.segs, own := g.segs), next.(bios := g.back),
                     r.mixed || next.mixed || r.failfast != next.failfast))
  }

  // ----- completing --------------------------------------------------------

  /** blk_update_request, when something is left of the request. */
  function Update(q: Limits, r: Req, n: nat, err: int): Req {
    var done := Min(n, Size(r.bios));
    var bios := Drop(r.bios, n, err);
    if bios == [] then r.(bios := [], dataLen := 0)
    else
      r.(bios := Caches(q, bios),
         dataLen := if done <= r.dataLen then r.dataLen - done else 0,
         sector := r.sector + done / SECTOR_SIZE,
         failfast := if r.mixed then bios[0].failfast else r.failfast,
         segs := |Recalc(q, Vecs(bios))|,
         own := |Recalc(q, Vecs(bios))|)
  }

  /** How many bios, from the first, have all the given failfast bits. */
  function EagerPrefix(bios: seq<Bio>, ff: set<FailBit>): nat {
    if bios == [] || !(ff <= bios[0].failfast) then 0 else 1 + EagerPrefix(bios[1..], ff)
  }

  /** blk_rq_err_bytes */
  function ErrBytes(r: Req): nat {
    if !r.mixed then r.dataLen
    else
      var k := EagerPrefix(r.bios, r.failfast);
      Size(if k <= |r.bios| then r.bios[..k] else r.bios)
  }
}
