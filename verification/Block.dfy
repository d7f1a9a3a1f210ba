/**
 * The values shared by every part of the block layer: bio vectors, bios and
 * the fields of `struct request` that the queueing code reads and writes.
 */
module Block {

  datatype Option<+T> = None | Some(value: T)

  const SECTOR_SIZE := 512

  // One physically contiguous run of bytes inside a page.
  datatype Bvec = Bvec(page: nat, offset: nat, len: nat)

  // The failfast bits of REQ_FAILFAST_MASK.
  datatype FailBit = Dev | Transport | Driver

  const FAILFAST_MASK: set<FailBit> := {Dev, Transport, Driver}

  function Total(vs: seq<Bvec>): nat {
    if vs == [] then 0 else Total(vs[..|vs| - 1]) + vs[|vs| - 1].len
  }

  /** `struct bio`. The last three fields cache what is known about its segments. */
  datatype Bio = Bio(
    id: nat,
    sector: nat,             // bi_sector
    size: nat,               // bi_size: bytes left
    vecs: seq<Bvec>,         // bi_io_vec
    idx: nat,                // bi_idx: the vectors before it are done
    failfast: set<FailBit>,  // the failfast bits of bi_rw
    readAhead: bool,         // REQ_RAHEAD
    upToDate: bool,          // BIO_UPTODATE
    segFront: nat,           // bi_seg_front_size
    segBack: nat,            // bi_seg_back_size
    segs: Option<nat>        // bi_phys_segments, if BIO_SEG_VALID
  ) {
    // the vectors still to be transferred
    function Left(): seq<Bvec> {
      if idx <= |vecs| then vecs[idx..] else []
    }
  }

  /** The vectors of a chain of bios, in order. */
  function Vecs(bios: seq<Bio>): seq<Bvec> {
    if bios == [] then [] else Vecs(bios[..|bios| - 1]) + bios[|bios| - 1].Left()
  }

  /** `struct request` as the queues see it. */
  datatype Rq = Rq(
    id: nat,
    write: bool,         // REQ_WRITE
    discard: bool,       // REQ_DISCARD
    flush: bool,         // REQ_FLUSH
    fua: bool,           // REQ_FUA
    noMerge: bool,       // REQ_NOMERGE
    softBarrier: bool,   // REQ_SOFTBARRIER
    started: bool,       // REQ_STARTED
    sector: nat,         // __sector
    dataLen: nat         // __data_len, in bytes
  ) {
    // blk_rq_sectors
    function Sectors(): nat {
      dataLen / SECTOR_SIZE
    }

    // rq_end_sector, and the key of the merge hash
    function End(): nat {
      sector + Sectors()
    }

    // rq_mergeable; every request here is a file system request
    predicate Mergeable() {
      !noMerge && !softBarrier && !started && !flush && !fua
    }
  }
}
