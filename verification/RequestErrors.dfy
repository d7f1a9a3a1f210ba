/**
 * With which error a bio ends. A request may be completed by any number of calls
 * of blk_update_request, each for some bytes and with an error of its own; a bio
 * may be spread over several of them, and must not forget that one failed.
 */
module RequestErrors {
  import opened Block
  import opened Numbers
  import opened Segments
  import opened Completion
  import opened Requests

  datatype Call = Call(n: nat, err: int)

  /** The bios that end in a list of calls, in order. */
  function AllEnded(q: Limits, r: Req, calls: seq<Call>): seq<EndedBio>
    decreases |calls|
  {
    if calls == [] then []
    else Finished(r.bios, calls[0].n, calls[0].err) + AllEnded(q, Update(q, r, calls[0].n, calls[0].err), calls[1..])
  }

  function Completed(calls: seq<Call>): nat {
    if calls == [] then 0 else calls[0].n + Completed(calls[1..])
  }

  /** What is left of a distance after `n` bytes. */
  function Ahead(a: nat, n: nat): nat {
    if a <= n then 0 else a - n
  }

  /** The errors of the calls that completed some of the bytes from `a` up to `b`. */
  function ErrsOn(a: nat, b: nat, calls: seq<Call>): seq<int>
    decreases |calls|
  {
    if calls == [] || a >= b then []
    else (if a < calls[0].n then [calls[0].err] else [])
         + ErrsOn(Ahead(a, calls[0].n), Ahead(b, calls[0].n), calls[1..])
  }

  /** The last error, and if that is none, -EIO if there has been one or the bio had failed before. */
  function Outcome(ok: bool, errs: seq<int>): int
    requires errs != []
  {
    if Last(errs) != 0 then Last(errs)
    else if ok && forall i | 0 <= i < |errs| :: errs[i] == 0 then 0
    else -EIO
  }

  // ----- one call ----------------------------------------------------------

  /** The first bio left: how far the call got in it, and what it remembers. */
  lemma {:induction false} HeadLeft(bios: seq<Bio>, n: nat, err: int)
    requires Drop(bios, n, err) != []
    ensures var j := |Finished(bios, n, err)|;
      && j < |bios| && Size(bios[..j]) <= n
      && (n == Size(bios[..j]) || n - Size(bios[..j]) < bios[j].size)
      && var b := Drop(bios, n, err)[0];
      && b.id == bios[j].id && b.size == bios[j].size - (n - Size(bios[..j]))
      && (b.upToDate <==> bios[j].upToDate && (n == Size(bios[..j]) || err == 0))
  {
    if n > bios[0].size {
      HeadLeft(bios[1..], n - bios[0].size, err);
      var j := |Finished(bios, n, err)|;
      assert bios[..j][1..] == bios[1..][..j - 1];
    } else if n == bios[0].size {
      assert bios[..1][1..] == [];
    }
  }

  /** What matters of a bio here. */
  predicate SameFace(a: Bio, b: Bio) {
    a.id == b.id && a.size == b.size && a.upToDate == b.upToDate
  }

  lemma CachesFaces(q: Limits, bios: seq<Bio>)
    ensures |Caches(q, bios)| == |bios| && forall i | 0 <= i < |bios| :: SameFace(Caches(q, bios)[i], bios[i])
  {
  }

  lemma {:induction false} SizeFaces(a: seq<Bio>, b: seq<Bio>)
    requires |a| == |b| && forall i | 0 <= i < |a| :: SameFace(a[i], b[i])
    ensures Size(a) == Size(b)
  {
    if a != [] {
      assert SameFace(a[0], b[0]);
      SizeFaces(a[1..], b[1..]);
    }
  }

  lemma {:induction false} SizeSplit(bios: seq<Bio>, i: nat, k: nat)
    requires i <= k <= |bios|
    ensures Size(bios[..k]) == Size(bios[..i]) + Size(bios[i..k])
  {
    if i > 0 {
      assert bios[..k][1..] == bios[1..][..k - 1] && bios[..i][1..] == bios[1..][..i - 1];
      assert bios[1..][i - 1..k - 1] == bios[i..k];
      SizeSplit(bios[1..], i - 1, k - 1);
    } else {
      assert bios[..k] == bios[0..k];
    }
  }

  lemma LeftSize(bios: seq<Bio>, n: nat, err: int, k: nat)
    requires Drop(bios, n, err) != [] && |Finished(bios, n, err)| <= k <= |bios|
    ensures var j := |Finished(bios, n, err)|;
      |Drop(bios, n, err)| == |bios| - j && Size(Drop(bios, n, err)[..k - j]) == Ahead(Size(bios[..k]), n)
  {
    FinishedPrefix(bios, n, err);
    HeadLeft(bios, n, err);
    hide Drop, Finished;
    var j, left := |Finished(bios, n, err)|, Drop(bios, n, err);
    if k == j {
      assert left[..0] == [];
    } else {
      assert left[..k - j][1..] == bios[j + 1..k];
      assert bios[j..k][1..] == bios[j + 1..k];
      SizeSplit(bios, j, k);
    }
  }

  lemma SizeOfOne(bios: seq<Bio>, k: nat)
    requires k < |bios|
    ensures Size(bios[..k + 1]) == Size(bios[..k]) + bios[k].size
  {
    SizeSplit(bios, k, k + 1);
    assert bios[k..k + 1] == [bios[k]] && Size([bios[k]]) == bios[k].size;
  }

  /** A bio that is left, and whether the call was for bytes of it. */
  lemma LeftFace(bios: seq<Bio>, n: nat, err: int, k: nat)
    requires Drop(bios, n, err) != [] && |Finished(bios, n, err)| <= k < |bios|
    ensures var j, left := |Finished(bios, n, err)|, Drop(bios, n, err);
      && |left| == |bios| - j
      && left[k - j].id == bios[k].id && (left[k - j].size > 0 <==> bios[k].size > 0)
      && (bios[k].size > 0 ==> Size(bios[..k + 1]) > n)
      && (bios[k].size == 0 ==> left[k - j].upToDate == bios[k].upToDate)
      && (bios[k].size > 0 ==>
           (left[k - j].upToDate <==> bios[k].upToDate && (n <= Size(bios[..k]) || err == 0)))
  {
    FinishedPrefix(bios, n, err);
    HeadLeft(bios, n, err);
    hide Drop, Finished, Size;
    var j := |Finished(bios, n, err)|;
    SizeOfOne(bios, j);
    SizeOfOne(bios, k);
    if k > j {
      SizeSplit(bios, j + 1, k);
    }
  }

  /** The same after the segments have been counted: how far ahead the bio now is, and what it remembers. */
  lemma LeftBio(q: Limits, r: Req, n: nat, err: int, k: nat)
    requires |Finished(r.bios, n, err)| <= k < |r.bios|
    ensures var j, bs := |Finished(r.bios, n, err)|, Update(q, r, n, err).bios;
      && |bs| == |r.bios| - j
      && Size(bs[..k - j]) == Ahead(Size(r.bios[..k]), n)
      && Size(bs[..k - j + 1]) == Ahead(Size(r.bios[..k + 1]), n)
      && bs[k - j].id == r.bios[k].id && (bs[k - j].size > 0 <==> r.bios[k].size > 0)
      && (r.bios[k].size > 0 ==> Size(r.bios[..k + 1]) > n)
      && (r.bios[k].size == 0 ==> bs[k - j].upToDate == r.bios[k].upToDate)
      && (r.bios[k].size > 0 ==>
           (bs[k - j].upToDate <==> r.bios[k].upToDate && (n <= Size(r.bios[..k]) || err == 0)))
  {
    FinishedPrefix(r.bios, n, err);
    hide Caches, Drop, Finished, Size;
    var j, left := |Finished(r.bios, n, err)|, Drop(r.bios, n, err);
    var bs := Update(q, r, n, err).bios;
    LeftFace(r.bios, n, err, k);
    LeftSize(r.bios, n, err, k);
    LeftSize(r.bios, n, err, k + 1);
    CachesFaces(q, left);
    SizeFaces(bs[..k - j], left[..k - j]);
    SizeFaces(bs[..k - j + 1], left[..k - j + 1]);
    assert SameFace(bs[k - j], left[k - j]);
  }

  // ----- any number of calls -----------------------------------------------

  lemma OutcomeMore(ok: bool, err: int, errs: seq<int>)
    requires errs != []
    ensures Outcome(ok && err == 0, errs) == Outcome(ok, [err] + errs)
  {
    var more := [err] + errs;
    assert Last(more) == Last(errs);
    assert (forall i | 0 <= i < |more| :: more[i] == 0) <==> err == 0 && forall i | 0 <= i < |errs| :: errs[i] == 0 by {
      assert more[0] == err && forall i | 0 <= i < |errs| :: more[i + 1] == errs[i];
    }
  }

  /** A bio with data that the first call ends: no other call was for its bytes. */
  lemma {:induction false} EndedNow(r: Req, calls: seq<Call>, k: nat)
    requires calls != [] && k < |Finished(r.bios, calls[0].n, calls[0].err)|
    ensures k < |r.bios| && Size(r.bios[..k + 1]) <= calls[0].n
    ensures var f := Finished(r.bios, calls[0].n, calls[0].err)[k];
      && f == EndedBio(r.bios[k].id, Outcome(r.bios[k].upToDate, [calls[0].err]))
      && (r.bios[k].size > 0 ==> ErrsOn(Size(r.bios[..k]), Size(r.bios[..k + 1]), calls) == [calls[0].err])
  {
    var n, err := calls[0].n, calls[0].err;
    FinishedPrefix(r.bios, n, err);
    var j := |Finished(r.bios, n, err)|;
    SizeSplit(r.bios, k + 1, j);
    SizeSplit(r.bios, k, k + 1);
    assert r.bios[k..k + 1] == [r.bios[k]] && Size([r.bios[k]]) == r.bios[k].size;
  }

  /**
   * Errors stick. Over any list of calls, each with its own number of bytes and its
   * own error, a bio with data is ended exactly if all its bytes are done, and ends
   * with 0 if and only if it was up to date and no call for bytes of it reported
   * an error; otherwise with the error of the call that ended it, or with -EIO if
   * that one had none.
   */
  lemma {:induction false} BioErrors(q: Limits, r: Req, calls: seq<Call>, k: nat)
    requires k < |r.bios| && r.bios[k].size > 0
    ensures k < |AllEnded(q, r, calls)| <==> Size(r.bios[..k + 1]) <= Completed(calls)
    ensures k < |AllEnded(q, r, calls)| ==>
      var errs := ErrsOn(Size(r.bios[..k]), Size(r.bios[..k + 1]), calls);
      errs != [] && AllEnded(q, r, calls)[k] == EndedBio(r.bios[k].id, Outcome(r.bios[k].upToDate, errs))
    decreases |calls|
  {
    hide Update, Finished, Drop, Outcome, Size;
    SizeOfOne(r.bios, k);
    if calls != [] {
      var n, err := calls[0].n, calls[0].err;
      var j, r' := |Finished(r.bios, n, err)|, Update(q, r, n, err);
      if k < j {
        EndedNow(r, calls, k);
      } else {
        LeftBio(q, r, n, err, k);
        BioErrors(q, r', calls[1..], k - j);
        var errs := ErrsOn(Size(r'.bios[..k - j]), Size(r'.bios[..k - j + 1]), calls[1..]);
        assert ErrsOn(Size(r.bios[..k]), Size(r.bios[..k + 1]), calls)
            == (if Size(r.bios[..k]) < n then [err] else []) + errs;
        if errs != [] {
          if Size(r.bios[..k]) < n {
            OutcomeMore(r.bios[k].upToDate, err, errs);
          } else {
            assert [] + errs == errs;
          }
        }
      }
    }
  }

  /** A bio without data ends with the error of one of the calls, or with -EIO if it had failed before. */
  lemma {:induction false} EmptyBioErrors(q: Limits, r: Req, calls: seq<Call>, k: nat)
    requires k < |r.bios| && r.bios[k].size == 0 && k < |AllEnded(q, r, calls)|
    ensures exists i ::
      && 0 <= i < |calls|
      && AllEnded(q, r, calls)[k] == EndedBio(r.bios[k].id, Outcome(r.bios[k].upToDate, [calls[i].err]))
    decreases |calls|
  {
    hide Update, Finished, Drop, Outcome, Size;
    if calls != [] {
      var n, err := calls[0].n, calls[0].err;
      var j, r' := |Finished(r.bios, n, err)|, Update(q, r, n, err);
      if k < j {
        EndedNow(r, calls, k);
      } else {
        LeftBio(q, r, n, err, k);
        EmptyBioErrors(q, r', calls[1..], k - j);
        var i :| 0 <= i < |calls[1..]| && AllEnded(q, r', calls[1..])[k - j]
          == EndedBio(r'.bios[k - j].id, Outcome(r'.bios[k - j].upToDate, [calls[1..][i].err]));
        assert calls[1..][i] == calls[i + 1];
      }
    }
  }
}
