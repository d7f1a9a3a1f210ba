/**
 * The merge hash of an elevator (elevator.c): the requests it holds are found by
 * the sector where they end. Buckets are chains; a request knows its bucket.
 */
module MergeHash {
  import opened Block
  import opened Lists
  import DS = DeadlineSpec
  import DF = DeadlineSafety

  const HASH_ENTRIES := 64

  datatype Decision = NoMerge | Back(rq: nat) | Front(rq: nat)

  /** Chains and bucket numbers say the same. */
  ghost predicate Linked(on: map<nat, nat>, table: seq<seq<nat>>) {
    && (forall i | 0 <= i < |table| :: Distinct(table[i]))
    && (forall i, r | 0 <= i < |table| :: r in table[i] <==> r in on && on[r] == i)
    && (forall r | r in on :: on[r] < |table|)
  }

  /** Hashed requests, but for those in `stale`, are in the bucket of their end sector. */
  ghost predicate Keyed(hash: nat -> nat, rqs: map<nat, Rq>, on: map<nat, nat>, stale: set<nat>) {
    && (forall r | r in on :: r in rqs)
    && (forall r | r in on && r !in stale :: on[r] == hash(rqs[r].End()))
  }

  /** No request that could be merged is missing. */
  ghost predicate Complete(rqs: map<nat, Rq>, on: map<nat, nat>) {
    forall r | r in rqs && rqs[r].Mergeable() :: r in on
  }

  /** The hash has lost nothing but requests that can no longer be merged. */
  ghost predicate Pruned(rqs: map<nat, Rq>, before: map<nat, nat>, after: map<nat, nat>) {
    && (forall r | r in after :: r in before && after[r] == before[r])
    && (forall r | r in before && r in rqs && rqs[r].Mergeable() :: r in after)
  }

  lemma PruneOne(hash: nat -> nat, rqs: map<nat, Rq>, before: map<nat, nat>, on: map<nat, nat>, r: nat)
    requires Keyed(hash, rqs, on, {}) && Complete(rqs, on) && Pruned(rqs, before, on) && r in rqs && !rqs[r].Mergeable()
    ensures Keyed(hash, rqs, on - {r}, {}) && Complete(rqs, on - {r}) && Pruned(rqs, before, on - {r})
  {
  }

  /** A new key for one request; the others keep theirs. */
  lemma KeyOne(hash: nat -> nat, rqs: map<nat, Rq>, on: map<nat, nat>, stale: set<nat>, x: nat)
    requires Keyed(hash, rqs, on, stale) && Complete(rqs, on) && x in rqs
    ensures Keyed(hash, rqs, on[x := hash(rqs[x].End())], stale - {x}) && Complete(rqs, on[x := hash(rqs[x].End())])
  {
  }

  /** One hashed request is changed. */
  lemma ChangeOne(hash: nat -> nat, rqs: map<nat, Rq>, on: map<nat, nat>, stale: set<nat>, x: nat, rq: Rq)
    requires Keyed(hash, rqs, on, stale) && Complete(rqs, on) && x in rqs && x in on
    ensures Keyed(hash, rqs[x := rq], on, stale + {x}) && Complete(rqs[x := rq], on)
  {
  }

  lemma RemoveOne(hash: nat -> nat, rqs: map<nat, Rq>, on: map<nat, nat>, stale: set<nat>, x: nat)
    requires Keyed(hash, rqs, on, stale) && Complete(rqs, on)
    ensures Keyed(hash, rqs - {x}, on - {x}, stale - {x}) && Complete(rqs - {x}, on - {x})
  {
  }

  lemma AddOne(hash: nat -> nat, rqs: map<nat, Rq>, on: map<nat, nat>, x: nat, rq: Rq)
    requires Keyed(hash, rqs, on, {}) && Complete(rqs, on) && x !in rqs
    ensures x !in on
    ensures rq.Mergeable() ==>
      var on' := on[x := hash(rq.End())];
      Keyed(hash, rqs[x := rq], on', {}) && Complete(rqs[x := rq], on')
    ensures !rq.Mergeable() ==> Keyed(hash, rqs[x := rq], on, {}) && Complete(rqs[x := rq], on)
  {
  }

  lemma Counted(rqs: map<nat, Rq>, x: nat, rq: Rq)
    ensures |rqs[x := rq]| == |rqs| + if x in rqs then 0 else 1
    ensures |rqs - {x}| == |rqs| - if x in rqs then 1 else 0
  {
    assert rqs[x := rq].Keys == rqs.Keys + {x};
    assert (rqs - {x}).Keys == rqs.Keys - {x};
  }

  ghost predicate InRange(hash: nat -> nat) {
    forall sector: nat :: hash(sector) < HASH_ENTRIES
  }

  // ----- chains ------------------------------------------------------------

  lemma Unlink(on: map<nat, nat>, table: seq<seq<nat>>, r: nat)
    requires Linked(on, table) && r in on
    ensures Linked(on - {r}, table[on[r] := Without(table[on[r]], r)])
  {
    WithoutIn(table[on[r]], r);
    WithoutDistinct(table[on[r]], r);
  }

  /** The table with `r` at the head of chain `i`. */
  function Entered(table: seq<seq<nat>>, i: nat, r: nat): seq<seq<nat>> {
    if i < |table| then table[i := [r] + table[i]] else table
  }

  lemma Link(on: map<nat, nat>, table: seq<seq<nat>>, r: nat, i: nat)
    requires Linked(on, table) && r !in on && i < |table|
    ensures Linked(on[r := i], table[i := [r] + table[i]])
  {
    var chain := [r] + table[i];
    InHeadTail(chain);
    assert chain[1..] == table[i];
    assert Distinct(chain);
  }

  // ----- looking up --------------------------------------------------------

  /** The first request of a list that could be merged and ends at a sector: a linear scan. */
  function FirstEnding(rqs: map<nat, Rq>, chain: seq<nat>, sector: nat): Option<nat> {
    if chain == [] then None
    else if chain[0] in rqs && rqs[chain[0]].Mergeable() && rqs[chain[0]].End() == sector then Some(chain[0])
    else FirstEnding(rqs, chain[1..], sector)
  }

  lemma {:induction false} FirstEndingFinds(rqs: map<nat, Rq>, chain: seq<nat>, sector: nat)
    ensures FirstEnding(rqs, chain, sector).Some? <==>
      exists r :: r in chain && r in rqs && rqs[r].Mergeable() && rqs[r].End() == sector
    ensures FirstEnding(rqs, chain, sector).Some? ==>
      var r := FirstEnding(rqs, chain, sector).value;
      r in chain && r in rqs && rqs[r].Mergeable() && rqs[r].End() == sector
  {
    if chain != [] {
      InHeadTail(chain);
      FirstEndingFinds(rqs, chain[1..], sector);
    }
  }

  /** The bucket of a sector is enough: no request ending there is anywhere else. */
  lemma BucketSuffices(hash: nat -> nat, rqs: map<nat, Rq>, on: map<nat, nat>, table: seq<seq<nat>>, sector: nat)
    requires Linked(on, table) && Keyed(hash, rqs, on, {}) && Complete(rqs, on) && hash(sector) < |table|
    ensures FirstEnding(rqs, table[hash(sector)], sector).Some? <==>
      exists r :: r in rqs && rqs[r].Mergeable() && rqs[r].End() == sector
  {
    hide Distinct;
    var chain := table[hash(sector)];
    FirstEndingFinds(rqs, chain, sector);
    forall r | r in rqs && rqs[r].Mergeable() && rqs[r].End() == sector
      ensures r in chain
    {
      assert r in on;
    }
  }

  // ----- what merging does to the key --------------------------------------

  function Lower(rq: Rq, sector: nat, bytes: nat): Rq {
    rq.(sector := sector, dataLen := rq.dataLen + bytes)
  }

  /** No odd bytes make up a sector: a front merge keeps the key. */
  predicate KeepsKey(rq: Rq, bytes: nat) {
    rq.dataLen % SECTOR_SIZE + bytes % SECTOR_SIZE < SECTOR_SIZE
  }

  /**
   * A front merge moves the start of a request down by the bio's sectors and so
   * leaves its end, the key, alone: if and only if the odd bytes of the two, past
   * whole sectors, do not make up another sector.
   */
  lemma FrontKeepsEnd(rq: Rq, sector: nat, bytes: nat)
    requires sector + bytes / SECTOR_SIZE == rq.sector
    ensures Lower(rq, sector, bytes).End() == rq.End()
       <==> KeepsKey(rq, bytes)
  {
  }

  function Longer(rq: Rq, bytes: nat): Rq {
    rq.(dataLen := rq.dataLen + bytes)
  }

  /** A back merge moves it, unless it only adds odd bytes that do not make up a sector. */
  lemma BackMovesEnd(rq: Rq, bytes: nat)
    ensures Longer(rq, bytes).End() > rq.End() <==> rq.dataLen % SECTOR_SIZE + bytes >= SECTOR_SIZE
    ensures Longer(rq, bytes).End() >= rq.End()
  {
  }

  /** attempt_merge; `alike` stands for its tests of disk and special requests, `fits` for ll_merge_requests_fn. */
  predicate JoinOk(rq: Rq, next: Rq, alike: bool, fits: bool) {
    && rq.Mergeable() && next.Mergeable() && rq.discard == next.discard && rq.End() == next.sector
    && rq.write == next.write && alike && fits
  }

  /** The joined request covers both, one after the other, and they were of one direction and kind. */
  lemma JoinCovers(rq: Rq, next: Rq, alike: bool, fits: bool)
    requires JoinOk(rq, next, alike, fits) && rq.dataLen % SECTOR_SIZE == 0
    ensures var joined := Longer(rq, next.dataLen);
      && joined.sector == rq.sector && rq.End() == next.sector && joined.End() == next.End()
      && joined.Mergeable() && next.Mergeable() && joined.write == next.write && joined.discard == next.discard
  {
  }

  // ----- the scheduler's index ---------------------------------------------

  function Start(rqs: map<nat, Rq>, r: nat): nat {
    if r in rqs then rqs[r].sector else 0
  }

  /** The requests of one direction in the order of their sectors (sort_list). */
  ghost predicate IndexOf(rqs: map<nat, Rq>, write: bool, index: seq<nat>) {
    && (forall r :: r in index <==> r in rqs && rqs[r].write == write)
    && (forall i, j | 0 <= i < j < |index| :: Start(rqs, index[i]) < Start(rqs, index[j]))
  }

  lemma {:induction false} SectorsAscend(items: map<nat, DS.Item>, rqs: map<nat, Rq>, index: seq<nat>)
    requires DF.BySector(items, index)
    requires forall r | r in index :: r in items && r in rqs && rqs[r].sector == items[r].sector
    ensures forall i, j | 0 <= i < j < |index| :: Start(rqs, index[i]) < Start(rqs, index[j])
  {
    if index != [] {
      InHeadTail(index);
      SectorsAscend(items, rqs, index[1..]);
      forall i, j | 0 <= i < j < |index|
        ensures Start(rqs, index[i]) < Start(rqs, index[j])
      {
        assert j > 0 && index[j] == index[1..][j - 1];
        if i > 0 {
          assert index[i] == index[1..][i - 1];
        }
      }
    }
  }

  /** The deadline scheduler keeps such an index for each direction. */
  lemma SchedulerIndex(s: DS.State, rqs: map<nat, Rq>, write: bool)
    requires DF.Near(s, None) && forall r :: r in rqs <==> DF.Held(s, r)
    requires forall r | r in rqs && r in s.items ::
      rqs[r].sector == s.items[r].sector && rqs[r].write == s.items[r].write
    ensures IndexOf(rqs, write, DS.SideOf(s, write).sorted)
  {
    hide Distinct, DF.BySector, DF.ByAge, DF.Gone;
    var index := DS.SideOf(s, write).sorted;
    assert DF.SideIs(s.items, DS.SideOf(s, write), write, None);
    forall r
      ensures r in index <==> r in rqs && rqs[r].write == write
    {
      assert r in index <==> r in DS.SideOf(s, write).fifo;
    }
    SectorsAscend(s.items, rqs, index);
  }

  lemma SamePlace(rqs: map<nat, Rq>, write: bool, index: seq<nat>, i: nat, k: nat)
    requires IndexOf(rqs, write, index) && i < |index| && k < |index|
    ensures Start(rqs, index[i]) == Start(rqs, index[k]) ==> i == k
  {
  }

  lemma OnlyOne(rqs: map<nat, Rq>, write: bool, index: seq<nat>, k: nat)
    requires IndexOf(rqs, write, index) && k < |index|
    ensures forall r | r in rqs && rqs[r].write == write && rqs[r].sector == Start(rqs, index[k]) :: r == index[k]
  {
    forall r | r in rqs && rqs[r].write == write && rqs[r].sector == Start(rqs, index[k])
      ensures r == index[k]
    {
      assert r in index;
      var i :| 0 <= i < |index| && index[i] == r;
      SamePlace(rqs, write, index, i, k);
    }
  }

  lemma NoneThere(rqs: map<nat, Rq>, write: bool, index: seq<nat>, k: nat, sector: nat)
    requires IndexOf(rqs, write, index) && k <= |index|
    requires forall i | 0 <= i < k :: Start(rqs, index[i]) < sector
    requires forall i | k <= i < |index| :: Start(rqs, index[i]) > sector
    ensures forall r | r in rqs && rqs[r].write == write :: rqs[r].sector != sector
  {
    forall r | r in rqs && rqs[r].write == write
      ensures rqs[r].sector != sector
    {
      assert r in index;
      var i :| 0 <= i < |index| && index[i] == r;
      assert Start(rqs, index[i]) == rqs[r].sector;
    }
  }

  /** elv_rb_find: halving the index */
  method RbFind(rqs: map<nat, Rq>, write: bool, index: seq<nat>, sector: nat) returns (found: Option<nat>)
    requires IndexOf(rqs, write, index)
    ensures found.Some? <==> exists r :: r in rqs && rqs[r].write == write && rqs[r].sector == sector
    ensures found.Some? ==>
      && found.value in rqs && rqs[found.value].write == write && rqs[found.value].sector == sector
      && forall r | r in rqs && rqs[r].write == write && rqs[r].sector == sector :: r == found.value
  {
    var lo, hi := 0, |index|;
    while lo < hi
      invariant 0 <= lo <= hi <= |index|
      invariant forall i | 0 <= i < lo :: Start(rqs, index[i]) < sector
      invariant forall i | hi <= i < |index| :: Start(rqs, index[i]) > sector
    {
      var mid := (lo + hi) / 2;
      var s := Start(rqs, index[mid]);
      if sector < s {
        hi := mid;
      } else if sector > s {
        lo := mid + 1;
      } else {
        assert index[mid] in index;
        OnlyOne(rqs, write, index, mid);
        return Some(index[mid]);
      }
    }
    NoneThere(rqs, write, index, lo, sector);
    return None;
  }

  lemma NothingPruned(rqs: map<nat, Rq>, on: map<nat, nat>)
    ensures Pruned(rqs, on, on)
  {
  }

  lemma MergeableOn(rqs: map<nat, Rq>, on: map<nat, nat>, x: nat)
    requires Complete(rqs, on) && x in rqs && rqs[x].Mergeable()
    ensures x in on
  {
  }

  lemma Marked(hash: nat -> nat, rqs: map<nat, Rq>, on: map<nat, nat>, x: nat)
    requires Keyed(hash, rqs, on, {}) && Complete(rqs, on) && x in rqs
    ensures var rqs' := rqs[x := rqs[x].(noMerge := true)];
      Keyed(hash, rqs', on, {}) && Complete(rqs', on)
  {
  }

  lemma SameKey(hash: nat -> nat, rqs: map<nat, Rq>, on: map<nat, nat>, x: nat, rq: Rq)
    requires Keyed(hash, rqs, on, {}) && Complete(rqs, on)
    requires x in rqs && rqs[x].End() == rq.End() && rqs[x].Mergeable()
    ensures Keyed(hash, rqs[x := rq], on, {}) && Complete(rqs[x := rq], on)
  {
  }

  lemma WeakerKeys(hash: nat -> nat, rqs: map<nat, Rq>, on: map<nat, nat>, stale: set<nat>, more: set<nat>)
    requires Keyed(hash, rqs, on, stale) && stale <= more
    ensures Keyed(hash, rqs, on, more)
  {
  }

  lemma ChainHeld(hash: nat -> nat, rqs: map<nat, Rq>, on: map<nat, nat>, table: seq<seq<nat>>, i: nat)
    requires Linked(on, table) && Keyed(hash, rqs, on, {}) && i < |table|
    ensures forall r | r in table[i] :: r in rqs
  {
    hide Distinct;
  }

  class Elevator {
    const hash: nat -> nat             // ELV_HASH_FN
    var rqs: map<nat, Rq>              // the requests that are sorted in
    var on: map<nat, nat>              // ELV_ON_HASH, and in which bucket
    var buckets: array<seq<nat>>
    var lastMerge: Option<nat>
    var nrSorted: nat

    /** All is well but for the keys of some requests. */
    ghost predicate ValidBut(stale: set<nat>)
      reads this, buckets
    {
      && InRange(hash) && buckets.Length == HASH_ENTRIES
      && Linked(on, buckets[..])
      && Keyed(hash, rqs, on, stale)
      && Complete(rqs, on)
      && (lastMerge.Some? ==> lastMerge.value in rqs)
      && nrSorted == |rqs|
    }

    ghost predicate Valid()
      reads this, buckets
    {
      ValidBut({})
    }

    constructor (hash: nat -> nat)
      requires InRange(hash)
      ensures Valid() && this.hash == hash && rqs == map[] && on == map[] && lastMerge == None && fresh(buckets)
    {
      this.hash := hash;
      rqs, on, lastMerge, nrSorted := map[], map[], None, 0;
      buckets := new seq<nat>[HASH_ENTRIES](_ => []);
    }

    lemma InTable(sector: nat)
      requires Valid()
      ensures hash(sector) < buckets.Length
    {
      hide Linked, Keyed, Complete;
    }

    /** __elv_rqhash_del */
    method Del(r: nat)
      requires InRange(hash) && buckets.Length == HASH_ENTRIES && Linked(on, buckets[..])
      modifies this`on, buckets
      ensures Linked(on, buckets[..]) && on == old(on) - {r}
      ensures r !in old(on) ==> buckets[..] == old(buckets[..])
      ensures r in old(on) ==> buckets[..] == old(buckets[..])[old(on)[r] := Without(old(buckets[..])[old(on)[r]], r)]
    {
      hide Without, Distinct;
      if r in on {
        ghost var table := buckets[..];
        Unlink(on, table, r);
        var i := on[r];
        buckets[i] := Without(buckets[i], r);
        on := on - {r};
        assert buckets[..] == table[i := Without(table[i], r)];
      }
    }

    /** elv_rqhash_add: the request is not on the hash */
    method Add(r: nat)
      requires InRange(hash) && buckets.Length == HASH_ENTRIES && Linked(on, buckets[..])
      requires r in rqs && r !in on
      modifies this`on, buckets
      ensures Linked(on, buckets[..]) && on == old(on)[r := hash(rqs[r].End())]
      ensures buckets[..] == Entered(old(buckets[..]), hash(rqs[r].End()), r)
    {
      hide Linked;
      ghost var table := buckets[..];
      var i := hash(rqs[r].End());
      Link(on, table, r, i);
      buckets[i] := [r] + buckets[i];
      on := on[r := i];
      assert buckets[..] == table[i := [r] + table[i]];
    }

    /** elv_rqhash_reposition; what elv_rqhash_add rules out does not happen */
    method Reposition(r: nat)
      requires InRange(hash) && buckets.Length == HASH_ENTRIES && Linked(on, buckets[..]) && r in rqs
      modifies this`on, buckets
      ensures Linked(on, buckets[..]) && on == old(on)[r := hash(rqs[r].End())]
    {
      hide Linked;
      Del(r);
      Add(r);
    }

    /**
     * elv_rqhash_find: what a linear scan of all mergeable requests would find,
     * although only one bucket is searched and requests that can no longer be
     * merged are dropped from it on the way.
     */
    method Find(sector: nat) returns (found: Option<nat>)
      requires Valid()
      modifies this`on, buckets
      ensures Valid()
      ensures found == FirstEnding(rqs, old(buckets[..])[hash(sector)], sector)
      ensures found.Some? <==> exists r :: r in rqs && rqs[r].Mergeable() && rqs[r].End() == sector
      ensures found.Some? ==> found.value in rqs && rqs[found.value].Mergeable() && rqs[found.value].End() == sector
      ensures Pruned(rqs, old(on), on)
    {
      hide Linked, Without, Distinct, Keyed, Complete, Pruned;
      assert Pruned(rqs, on, on) by {
        NothingPruned(rqs, on);
      }
      ghost var table := buckets[..];
      BucketSuffices(hash, rqs, on, table, sector);
      var h := hash(sector);
      var chain := buckets[h];
      FirstEndingFinds(rqs, chain, sector);
      ChainHeld(hash, rqs, on, table, h);
      var i := 0;
      while i < |chain|
        invariant i <= |chain| && Valid()
        invariant FirstEnding(rqs, chain[i..], sector) == FirstEnding(rqs, chain, sector)
        invariant Pruned(rqs, old(on), on)
      {
        var r := chain[i];
        assert r in chain;
        assert chain[i..][1..] == chain[i + 1..];
        if !rqs[r].Mergeable() {
          PruneOne(hash, rqs, old(on), on, r);
          Del(r);
        } else if rqs[r].End() == sector {
          return Some(r);
        }
        i := i + 1;
      }
      return None;
    }

    method Enter(x: nat, rq: Rq)
      requires Valid() && x !in rqs && rq.Mergeable()
      modifies this`rqs, this`on, this`nrSorted, buckets
      ensures Valid() && rqs == old(rqs)[x := rq] && on == old(on)[x := hash(rq.End())]
      ensures buckets[..] == Entered(old(buckets[..]), hash(rq.End()), x)
    {
      hide Linked, Keyed, Complete, Rq.Mergeable, Rq.End;
      AddOne(hash, rqs, on, x, rq);
      Counted(rqs, x, rq);
      rqs := rqs[x := rq];
      nrSorted := nrSorted + 1;
      Add(x);
    }

    /** elv_insert of a sorted request */
    method Insert(x: nat, rq: Rq)
      requires Valid() && x !in rqs
      modifies this`rqs, this`on, this`lastMerge, this`nrSorted, buckets
      ensures Valid() && rqs == old(rqs)[x := rq]
      ensures rq.Mergeable() ==>
        on == old(on)[x := hash(rq.End())] && buckets[..] == Entered(old(buckets[..]), hash(rq.End()), x)
      ensures !rq.Mergeable() ==> on == old(on) && buckets[..] == old(buckets[..])
      ensures lastMerge == if rq.Mergeable() && old(lastMerge).None? then Some(x) else old(lastMerge)
    {
      hide Linked, Keyed, Complete, InRange, Rq.Mergeable, Rq.End;
      AddOne(hash, rqs, on, x, rq);
      Counted(rqs, x, rq);
      if rq.Mergeable() {
        Enter(x, rq);
        if lastMerge.None? {
          lastMerge := Some(x);
        }
      } else {
        rqs := rqs[x := rq];
        nrSorted := nrSorted + 1;
      }
    }

    /** ll_back_merge_fn, ll_front_merge_fn: too large to grow, so never tried again */
    method Refuse(x: nat)
      requires Valid() && x in rqs
      modifies this`rqs, this`lastMerge
      ensures Valid() && rqs == old(rqs)[x := old(rqs)[x].(noMerge := true)]
      ensures lastMerge == if old(lastMerge) == Some(x) then None else old(lastMerge)
    {
      hide Linked, Keyed, Complete;
      Marked(hash, rqs, on, x);
      Counted(rqs, x, rqs[x].(noMerge := true));
      rqs := rqs[x := rqs[x].(noMerge := true)];
      if lastMerge == Some(x) {
        lastMerge := None;
      }
    }

    /** A bio was chained to the back: until the request is hashed again its key is wrong. */
    method GrowBack(x: nat, bytes: nat)
      requires Valid() && x in rqs && rqs[x].Mergeable()
      modifies this`rqs
      ensures ValidBut({x}) && rqs == old(rqs)[x := Longer(old(rqs)[x], bytes)]
    {
      hide Linked, Keyed, Complete;
      var rq := Longer(rqs[x], bytes);
      MergeableOn(rqs, on, x);
      ChangeOne(hash, rqs, on, {}, x, rq);
      Counted(rqs, x, rq);
      rqs := rqs[x := rq];
    }

    /** A bio was chained to the front: the key is still right, if no odd bytes have made up a sector. */
    method GrowFront(x: nat, sector: nat, bytes: nat)
      requires Valid() && x in rqs && rqs[x].Mergeable() && sector + bytes / SECTOR_SIZE == rqs[x].sector
      modifies this`rqs
      ensures ValidBut({x}) && (KeepsKey(old(rqs)[x], bytes) ==> Valid())
      ensures rqs == old(rqs)[x := Lower(old(rqs)[x], sector, bytes)]
    {
      hide Linked, Keyed, Complete;
      FrontKeepsEnd(rqs[x], sector, bytes);
      var rq := Lower(rqs[x], sector, bytes);
      MergeableOn(rqs, on, x);
      ChangeOne(hash, rqs, on, {}, x, rq);
      if rq.End() == rqs[x].End() {
        SameKey(hash, rqs, on, x, rq);
      }
      Counted(rqs, x, rq);
      rqs := rqs[x := rq];
    }

    /** elv_merged_request: only after a back merge is the request hashed again */
    method MergedRequest(x: nat, back: bool, ghost stale: set<nat>)
      requires ValidBut(stale) && stale <= {x} && x in rqs
      modifies this`on, this`lastMerge, buckets
      ensures ValidBut(if back then {} else stale) && lastMerge == Some(x)
      ensures on == if back then old(on)[x := hash(rqs[x].End())] else old(on)
    {
      hide Linked, Keyed, Complete;
      if back {
        KeyOne(hash, rqs, on, stale, x);
        assert stale - {x} == {};
        Reposition(x);
      }
      lastMerge := Some(x);
    }

    /** elv_merge_requests: it does not matter whether their keys were right */
    method MergeRequests(x: nat, y: nat)
      requires ValidBut({x, y}) && x in rqs && y in rqs && x != y
      modifies this, buckets
      ensures Valid() && buckets == old(buckets)
      ensures rqs == old(rqs) - {y} && on == old(on)[x := hash(rqs[x].End())] - {y} && lastMerge == Some(x)
    {
      hide Linked, Keyed, Complete;
      KeyOne(hash, rqs, on, {x, y}, x);
      Reposition(x);
      RemoveOne(hash, rqs, on, {x, y} - {x}, y);
      assert {x, y} - {x} - {y} == {};
      Counted(rqs, y, rqs[y]);
      Del(y);
      rqs := rqs - {y};
      nrSorted := nrSorted - 1;
      lastMerge := Some(x);
    }

    /**
     * attempt_merge: `y` is joined to the end of `x` if both can be merged and it
     * starts where `x` ends.
     */
    method AttemptMerge(x: nat, y: nat, alike: bool, fits: bool, ghost stale: set<nat>) returns (ok: bool)
      requires ValidBut(stale) && stale <= {x, y} && x in rqs && y in rqs && x != y
      modifies this, buckets
      ensures ok <==> JoinOk(old(rqs)[x], old(rqs)[y], alike, fits)
      ensures !ok ==> rqs == old(rqs) && on == old(on) && ValidBut(stale) && lastMerge == old(lastMerge)
      ensures ok ==> Valid() && lastMerge == Some(x)
      ensures ok ==> rqs == old(rqs)[x := Longer(old(rqs)[x], old(rqs)[y].dataLen)] - {y}
      ensures buckets == old(buckets)
    {
      hide Linked, Keyed, Complete;
      if !rqs[x].Mergeable() || !rqs[y].Mergeable() {
        return false;
      }
      if rqs[x].discard != rqs[y].discard || rqs[x].End() != rqs[y].sector {
        return false;
      }
      if rqs[x].write != rqs[y].write || !alike || !fits {
        return false;
      }
      var rq := Longer(rqs[x], rqs[y].dataLen);
      MergeableOn(rqs, on, x);
      ChangeOne(hash, rqs, on, stale, x, rq);
      WeakerKeys(hash, rqs[x := rq], on, stale + {x}, {x, y});
      Counted(rqs, x, rq);
      rqs := rqs[x := rq];
      MergeRequests(x, y);
      return true;
    }

    /** elv_dispatch_sort and elv_dispatch_add_tail, as far as the hash is concerned */
    method Dispatch(x: nat, ghost stale: set<nat>)
      requires ValidBut(stale) && x in rqs
      modifies this, buckets
      ensures ValidBut(stale - {x}) && buckets == old(buckets) && rqs == old(rqs) - {x} && on == old(on) - {x}
      ensures lastMerge == if old(lastMerge) == Some(x) then None else old(lastMerge)
    {
      hide Linked, Keyed, Complete;
      if lastMerge == Some(x) {
        lastMerge := None;
      }
      RemoveOne(hash, rqs, on, stale, x);
      Counted(rqs, x, rqs[x]);
      Del(x);
      rqs := rqs - {x};
      nrSorted := nrSorted - 1;
    }

    /** elv_rq_merge_ok, where `alike` are the requests that pass its other tests */
    predicate MergeOk(r: nat, write: bool, alike: set<nat>)
      reads this
    {
      r in rqs && rqs[r].Mergeable() && rqs[r].write == write && r in alike
    }

    /** The request of the last merge may take the bio. */
    predicate LastTakes(sector: nat, sectors: nat, write: bool, alike: set<nat>)
      reads this
    {
      && lastMerge.Some? && MergeOk(lastMerge.value, write, alike)
      && (rqs[lastMerge.value].End() == sector || rqs[lastMerge.value].sector == sector + sectors)
    }

    /** elv_try_merge with the request of the last merge */
    method TryLast(sector: nat, sectors: nat, write: bool, alike: set<nat>) returns (d: Decision)
      requires lastMerge.Some? ==> lastMerge.value in rqs
      ensures d.NoMerge? <==> !LastTakes(sector, sectors, write, alike)
      ensures d.Back? || d.Front? ==> lastMerge == Some(d.rq)
      ensures d.Back? ==> MergeOk(d.rq, write, alike) && rqs[d.rq].End() == sector
      ensures d.Front? ==> MergeOk(d.rq, write, alike) && rqs[d.rq].sector == sector + sectors
    {
      if lastMerge.Some? {
        var l := lastMerge.value;
        if rqs[l].Mergeable() && rqs[l].write == write && l in alike {
          if rqs[l].End() == sector {
            return Back(l);
          } else if rqs[l].sector == sector + sectors {
            return Front(l);
          }
        }
      }
      return NoMerge;
    }

    /** Some request that starts where the bio ends may take it. */
    ghost predicate StartTakes(end: nat, write: bool, alike: set<nat>)
      reads this
    {
      exists r :: MergeOk(r, write, alike) && rqs[r].sector == end
    }

    /** deadline_merge: a request that starts where the bio ends */
    method FrontSearch(sector: nat, sectors: nat, write: bool, alike: set<nat>, frontMerges: bool, index: seq<nat>)
      returns (d: Decision)
      requires IndexOf(rqs, write, index)
      ensures !d.Back? && (d.Front? ==> MergeOk(d.rq, write, alike) && rqs[d.rq].sector == sector + sectors)
      ensures d.Front? <==> frontMerges && StartTakes(sector + sectors, write, alike)
    {
      hide IndexOf, Rq.Mergeable;
      d := NoMerge;
      if frontMerges {
        var found := RbFind(rqs, write, index, sector + sectors);
        if found.Some? && rqs[found.value].Mergeable() && found.value in alike {
          d := Front(found.value);
          assert MergeOk(found.value, write, alike);
        }
      }
    }

    /** The first request in its chain that ends at the bio may take it. */
    predicate ChainTakes(chain: seq<nat>, sector: nat, write: bool, alike: set<nat>)
      reads this
    {
      var found := FirstEnding(rqs, chain, sector);
      found.Some? && MergeOk(found.value, write, alike)
    }

    /** Some request that ends where the bio starts may take it. */
    ghost predicate EndTakes(sector: nat, write: bool, alike: set<nat>)
      reads this
    {
      exists r :: MergeOk(r, write, alike) && rqs[r].End() == sector
    }

    /** The chain has one that ends at the bio if there is one at all, but perhaps not the right one first. */
    lemma ChainFinds(sector: nat, write: bool, alike: set<nat>)
      requires Valid()
      ensures ChainTakes(buckets[..][hash(sector)], sector, write, alike) ==> EndTakes(sector, write, alike)
      ensures
        (forall r | r in rqs && rqs[r].Mergeable() && rqs[r].End() == sector :: MergeOk(r, write, alike)) ==>
        (ChainTakes(buckets[..][hash(sector)], sector, write, alike) <==> EndTakes(sector, write, alike))
    {
      hide Linked, Keyed, Complete, FirstEnding;
      BucketSuffices(hash, rqs, on, buckets[..], sector);
      FirstEndingFinds(rqs, buckets[..][hash(sector)], sector);
    }

    /**
     * elv_merge, with the deadline scheduler: which request takes a bio of `sectors`
     * sectors at `sector`. With all merges enabled a request that could take it is
     * missed exactly if it ends where the bio starts, and the first in its chain
     * that ends there is not fit for the bio and hides it, and neither the request
     * of the last merge nor one that starts at the end of the bio is.
     */
    method Merge(sector: nat, sectors: nat, write: bool, alike: set<nat>, noMerges: bool, noXMerges: bool,
                 frontMerges: bool, index: seq<nat>)
      returns (d: Decision)
      requires Valid() && IndexOf(rqs, write, index)
      modifies this`on, buckets
      ensures Valid() && Pruned(rqs, old(on), on)
      ensures d.Back? ==> MergeOk(d.rq, write, alike) && rqs[d.rq].End() == sector
      ensures d.Front? ==> MergeOk(d.rq, write, alike) && rqs[d.rq].sector == sector + sectors
      ensures !d.NoMerge? ==> d.rq in rqs && rqs[d.rq].Mergeable() && rqs[d.rq].write == write && d.rq in alike
      ensures d.NoMerge? <==>
        || noMerges
        || (&& !LastTakes(sector, sectors, write, alike)
            && (noXMerges || (&& !ChainTakes(old(buckets[..])[hash(sector)], sector, write, alike)
                              && !(frontMerges && StartTakes(sector + sectors, write, alike)))))
      ensures !d.NoMerge? && LastTakes(sector, sectors, write, alike) ==> d.rq == lastMerge.value
      ensures !d.NoMerge? && !LastTakes(sector, sectors, write, alike) ==>
        (d.Back? <==> ChainTakes(old(buckets[..])[hash(sector)], sector, write, alike))
      ensures ChainTakes(old(buckets[..])[hash(sector)], sector, write, alike) ==> EndTakes(sector, write, alike)
      ensures
        (forall r | r in rqs && rqs[r].Mergeable() && rqs[r].End() == sector :: MergeOk(r, write, alike)) ==>
        (ChainTakes(old(buckets[..])[hash(sector)], sector, write, alike) <==> EndTakes(sector, write, alike))
      ensures !noMerges && !noXMerges && frontMerges ==>
        (d.NoMerge? && (EndTakes(sector, write, alike) || StartTakes(sector + sectors, write, alike)) <==>
           && EndTakes(sector, write, alike) && !ChainTakes(old(buckets[..])[hash(sector)], sector, write, alike)
           && !LastTakes(sector, sectors, write, alike) && !StartTakes(sector + sectors, write, alike))
    {
      hide Linked, Keyed, Complete, Pruned, FirstEnding, IndexOf;
      NothingPruned(rqs, on);
      ChainFinds(sector, write, alike);
      if noMerges {
        return NoMerge;
      }
      d := TryLast(sector, sectors, write, alike);
      if !d.NoMerge? {
        return;
      }
      if noXMerges {
        return NoMerge;
      }
      var found := Find(sector);
      if found.Some? && rqs[found.value].write == write && found.value in alike {
        assert MergeOk(found.value, write, alike);
        return Back(found.value);
      }
      d := FrontSearch(sector, sectors, write, alike, frontMerges, index);
    }

    /**
     * The back merge of __make_request: the bio is chained, then the request that
     * follows, if any, may be joined; either way the hash is right again.
     */
    method BackMerge(x: nat, bytes: nat, next: Option<nat>, alike: bool, fits: bool) returns (joined: bool)
      requires Valid() && x in rqs && rqs[x].Mergeable()
      requires next.Some? ==> next.value in rqs && next.value != x
      modifies this, buckets
      ensures Valid() && lastMerge == Some(x) && buckets == old(buckets)
      ensures joined <==> next.Some? && JoinOk(Longer(old(rqs)[x], bytes), old(rqs)[next.value], alike, fits)
      ensures !joined ==> rqs == old(rqs)[x := Longer(old(rqs)[x], bytes)]
      ensures joined ==> rqs == old(rqs)[x := Longer(old(rqs)[x], bytes + old(rqs)[next.value].dataLen)] - {next.value}
    {
      hide Linked, Keyed, Complete;
      GrowBack(x, bytes);
      joined := false;
      if next.Some? {
        joined := AttemptMerge(x, next.value, alike, fits, {x});
      }
      if !joined {
        MergedRequest(x, true, {x});
      }
    }

    /**
     * The front merge of __make_request: the request may then be joined to the one
     * before. If it is not, and odd bytes have made up a sector, its key is stale.
     */
    method FrontMerge(x: nat, sector: nat, bytes: nat, prev: Option<nat>, alike: bool, fits: bool)
      returns (joined: bool)
      requires Valid() && x in rqs && rqs[x].Mergeable() && sector + bytes / SECTOR_SIZE == rqs[x].sector
      requires prev.Some? ==> prev.value in rqs && prev.value != x
      modifies this, buckets
      ensures ValidBut(if joined || KeepsKey(old(rqs)[x], bytes) then {} else {x})
      ensures lastMerge == (if joined then prev else Some(x)) && buckets == old(buckets)
      ensures joined <==> prev.Some? && JoinOk(old(rqs)[prev.value], Lower(old(rqs)[x], sector, bytes), alike, fits)
      ensures !joined ==> rqs == old(rqs)[x := Lower(old(rqs)[x], sector, bytes)]
      ensures joined ==> rqs == old(rqs)[prev.value := Longer(old(rqs)[prev.value], bytes + old(rqs)[x].dataLen)] - {x}
    {
      hide Linked, Keyed, Complete, KeepsKey;
      ghost var stale := if KeepsKey(rqs[x], bytes) then {} else {x};
      GrowFront(x, sector, bytes);
      joined := false;
      if prev.Some? {
        joined := AttemptMerge(prev.value, x, alike, fits, stale);
      }
      if !joined {
        MergedRequest(x, false, stale);
      }
    }
  }

  const FAR := Rq(2, false, false, false, false, false, false, false, 100, 4096)

  const READ := Rq(0, false, false, false, false, false, false, false, 0, 4096)

  const WRITE := Rq(1, true, false, false, false, false, false, false, 0, 4096)

  function ThreeRequests(): map<nat, Rq> {
    map[2 := FAR][0 := READ][1 := WRITE]
  }

  lemma ThreeIndexed()
    ensures IndexOf(ThreeRequests(), false, [0, 2])
  {
  }

  /** The write stands before the read and ends where it ends. */
  lemma WriteFirst(chain: seq<nat>)
    ensures FirstEnding(ThreeRequests(), [1] + chain, 8) == Some(1)
    ensures READ.End() == WRITE.End() == 8 && FAR.End() == 108
    ensures READ.Mergeable() && WRITE.Mergeable() && FAR.Mergeable()
  {
  }

  method HashThree(hash: nat -> nat) returns (e: Elevator)
    requires InRange(hash)
    ensures e.Valid() && fresh(e) && fresh(e.buckets) && e.hash == hash
    ensures e.rqs == ThreeRequests() && e.lastMerge == Some(2)
    ensures FirstEnding(e.rqs, e.buckets[..][hash(8)], 8) == Some(1)
  {
    hide Elevator.ValidBut, InRange, FirstEnding, Rq.Mergeable, Rq.End;
    WriteFirst([]);
    e := new Elevator(hash);
    e.Insert(2, FAR);
    e.Insert(0, READ);
    e.InTable(8);
    ghost var chain := e.buckets[..][hash(8)];
    e.Insert(1, WRITE);
    assert e.buckets[..][hash(8)] == [1] + chain;
    WriteFirst(chain);
  }

  /**
   * A read that ends where the bio starts, and a write that ends there too and was
   * hashed after it: whatever the hash function, the read bio is not merged.
   */
  method HiddenPartner(hash: nat -> nat) returns (e: Elevator, d: Decision)
    requires InRange(hash)
    ensures e.Valid() && e.rqs == ThreeRequests() && d.NoMerge?
    ensures e.MergeOk(0, false, {0, 1, 2}) && e.rqs[0].End() == 8
  {
    hide Linked, Keyed, Complete, Pruned, FirstEnding, IndexOf;
    ThreeIndexed();
    e := HashThree(hash);
    d := e.Merge(8, 8, false, {0, 1, 2}, false, false, true, [0, 2]);
  }
}
