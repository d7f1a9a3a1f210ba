/**
 * Completing part of a request. A request is a chain of bios, a bio a list of
 * vectors; together they describe a stream of bytes in memory. Completing `n`
 * bytes takes exactly the first `n` off that stream.
 */
module Completion {
  import opened Block
  import opened Numbers
  import opened Segments

  const EIO := 5

  /** The vectors left after the first `n` bytes are done. */
  function Skip(vs: seq<Bvec>, n: nat): seq<Bvec> {
    if n == 0 || vs == [] then vs
    else if vs[0].len <= n then Skip(vs[1..], n - vs[0].len)
    else [Bvec(vs[0].page, vs[0].offset + n, vs[0].len - n)] + vs[1..]
  }

  /** A bio without the vectors that are done. */
  function View(b: Bio): Bio {
    b.(vecs := b.Left(), idx := 0)
  }

  /** A bio after `n` of its bytes have completed (req_bio_endio); errors stick. */
  function Advance(b: Bio, n: nat, err: int): Bio {
    if n == 0 then View(b)
    else b.(sector := b.sector + n / SECTOR_SIZE, size := if n <= b.size then b.size - n else 0,
            vecs := Skip(b.Left(), n), idx := 0, upToDate := b.upToDate && err == 0)
  }

  /** The bios of a request after blk_update_request. */
  function Drop(bios: seq<Bio>, n: nat, err: int): seq<Bio> {
    if bios == [] then []
    else if n < bios[0].size then [Advance(bios[0], n, err)] + bios[1..]
    else if n == bios[0].size then bios[1..]
    else Drop(bios[1..], n - bios[0].size, err)
  }

  // A bio handed back to its owner, and with which error.
  datatype EndedBio = EndedBio(id: nat, err: int)

  /** A bio is ended with the error of this completion or of an earlier one. */
  function EndError(b: Bio, err: int): int {
    if err != 0 then err else if !b.upToDate then -EIO else 0
  }

  /** The bios that end, in order. */
  function Finished(bios: seq<Bio>, n: nat, err: int): seq<EndedBio> {
    if bios == [] || n < bios[0].size then []
    else
      [EndedBio(bios[0].id, EndError(bios[0], err))] +
      if n == bios[0].size then [] else Finished(bios[1..], n - bios[0].size, err)
  }

  function Size(bios: seq<Bio>): nat {
    if bios == [] then 0 else bios[0].size + Size(bios[1..])
  }

  // ----- the byte stream ---------------------------------------------------

  // A byte in memory: page and offset.
  type Byte = (nat, nat)

  function Bytes(v: Bvec): (s: seq<Byte>)
    ensures |s| == v.len
  {
    seq(v.len, i requires 0 <= i < v.len => (v.page, v.offset + i))
  }

  function BytesOf(vs: seq<Bvec>): seq<Byte> {
    if vs == [] then [] else Bytes(vs[0]) + BytesOf(vs[1..])
  }

  function Stream(bios: seq<Bio>): seq<Byte> {
    if bios == [] then [] else BytesOf(bios[0].Left()) + Stream(bios[1..])
  }

  /** The bio's size agrees with its vectors, and its cursor is inside them. */
  predicate BioOk(b: Bio) {
    b.size == |BytesOf(b.Left())| && (b.vecs == [] || b.idx < |b.vecs|)
  }

  ghost predicate BiosOk(bios: seq<Bio>) {
    forall i | 0 <= i < |bios| :: BioOk(bios[i])
  }

  lemma {:induction false} SkipBytes(vs: seq<Bvec>, n: nat)
    requires n <= |BytesOf(vs)|
    ensures BytesOf(Skip(vs, n)) == BytesOf(vs)[n..]
    ensures n < |BytesOf(vs)| ==> Skip(vs, n) != []
  {
    if n == 0 || vs == [] {
    } else if vs[0].len <= n {
      SkipBytes(vs[1..], n - vs[0].len);
    } else {
      var v := Bvec(vs[0].page, vs[0].offset + n, vs[0].len - n);
      assert ([v] + vs[1..])[1..] == vs[1..];
      assert Bytes(v) == Bytes(vs[0])[n..];
    }
  }

  lemma AdvanceOk(b: Bio, n: nat, err: int)
    requires BioOk(b) && n < b.size
    ensures BioOk(Advance(b, n, err)) && BytesOf(Advance(b, n, err).Left()) == BytesOf(b.Left())[n..]
    ensures Advance(b, n, err).size == b.size - n
  {
    SkipBytes(b.Left(), n);
    var b' := Advance(b, n, err);
    assert b'.Left() == b'.vecs;
  }

  lemma {:induction false} StreamSize(bios: seq<Bio>)
    requires BiosOk(bios)
    ensures |Stream(bios)| == Size(bios)
  {
    if bios != [] {
      StreamSize(bios[1..]);
    }
  }

  lemma DropConcat(a: seq<Byte>, b: seq<Byte>, n: nat)
    requires n <= |a| + |b|
    ensures (a + b)[n..] == if n < |a| then a[n..] + b else b[n - |a|..]
  {
  }

  /** Exactly the first bytes go, as many as were completed, and the rest is untouched. */
  lemma {:induction false} DropStream(bios: seq<Bio>, n: nat, err: int)
    requires BiosOk(bios)
    ensures BiosOk(Drop(bios, n, err))
    ensures Stream(Drop(bios, n, err)) == Stream(bios)[Min(n, |Stream(bios)|)..]
  {
    hide BytesOf, Advance;
    if bios != [] {
      var b := bios[0];
      DropConcat(BytesOf(b.Left()), Stream(bios[1..]), Min(n, |Stream(bios)|));
      if n < b.size {
        AdvanceOk(b, n, err);
        assert ([Advance(b, n, err)] + bios[1..])[1..] == bios[1..];
      } else if n > b.size {
        DropStream(bios[1..], n - b.size, err);
      }
    }
  }

  /** Each bio ends once and in order: the ones ended and the ones left make up the chain. */
  lemma {:induction false} FinishedPrefix(bios: seq<Bio>, n: nat, err: int)
    ensures var k := |Finished(bios, n, err)|;
      && k + |Drop(bios, n, err)| == |bios|
      && (forall i | 0 <= i < k :: Finished(bios, n, err)[i] == EndedBio(bios[i].id, EndError(bios[i], err)))
      && (forall i | 0 < i < |Drop(bios, n, err)| :: Drop(bios, n, err)[i] == bios[k + i])
      && Size(bios[..k]) <= n
  {
    if bios != [] && n >= bios[0].size {
      if n > bios[0].size {
        FinishedPrefix(bios[1..], n - bios[0].size, err);
        var k := |Finished(bios, n, err)|;
        assert bios[..k][1..] == bios[1..][..k - 1];
      } else {
        assert bios[..1][1..] == [];
      }
    }
  }

  lemma {:induction false} SizeLast(bios: seq<Bio>)
    requires bios != []
    ensures Size(bios) >= Last(bios).size
  {
    if |bios| > 1 {
      SizeLast(bios[1..]);
    }
  }

  /** Nothing is left exactly when all bytes are completed; an empty last bio needs one byte more. */
  lemma {:induction false} DropAll(bios: seq<Bio>, n: nat, err: int)
    requires bios != []
    ensures Drop(bios, n, err) == []
            <==> n > Size(bios) || (n == Size(bios) && (Last(bios).size > 0 || |bios| == 1))
  {
    if |bios| == 1 {
      assert bios[1..] == [];
    } else {
      if n > bios[0].size {
        DropAll(bios[1..], n - bios[0].size, err);
      } else if n == bios[0].size {
        SizeLast(bios[1..]);
      }
    }
  }

  // ----- in two steps or in one --------------------------------------------

  lemma {:induction false} SkipTwice(vs: seq<Bvec>, m: nat, n: nat)
    ensures Skip(Skip(vs, m), n) == Skip(vs, m + n)
  {
    if m == 0 || vs == [] {
    } else if vs[0].len <= m {
      SkipTwice(vs[1..], m - vs[0].len, n);
    } else {
      var v := Bvec(vs[0].page, vs[0].offset + m, vs[0].len - m);
      assert ([v] + vs[1..])[1..] == vs[1..];
    }
  }

  lemma AdvanceTwice(b: Bio, m: nat, n: nat, err: int)
    requires m % SECTOR_SIZE == 0 && m + n <= b.size
    ensures Advance(Advance(b, m, err), n, err) == Advance(b, m + n, err)
  {
    SkipTwice(b.Left(), m, n);
    if m > 0 {
      assert Advance(b, m, err).Left() == Skip(b.Left(), m);
    } else {
      assert View(b).Left() == b.Left();
    }
  }

  /** Chains that differ only in vectors that are done. */
  ghost predicate SameView(a: seq<Bio>, b: seq<Bio>) {
    |a| == |b| && forall i | 0 <= i < |a| :: View(a[i]) == View(b[i])
  }

  ghost predicate WholeSectors(bios: seq<Bio>) {
    forall i | 0 <= i < |bios| :: bios[i].size % SECTOR_SIZE == 0
  }

  /** The first part ends inside the first bio. */
  lemma DropTwiceInBio(bios: seq<Bio>, m: nat, n: nat, err: int)
    requires bios != [] && m < bios[0].size && m % SECTOR_SIZE == 0
    ensures SameView(Drop(Drop(bios, m, err), n, err), Drop(bios, m + n, err))
    ensures Finished(bios, m, err) + Finished(Drop(bios, m, err), n, err) == Finished(bios, m + n, err)
  {
    var b, b' := bios[0], Advance(bios[0], m, err);
    assert ([b'] + bios[1..])[1..] == bios[1..];
    assert b'.size == b.size - m && EndError(b', err) == EndError(b, err) && b'.id == b.id;
    if m + n < b.size {
      AdvanceTwice(b, m, n, err);
    }
  }

  lemma {:induction false} DropMore(bios: seq<Bio>, m: nat, n: nat, err: int)
    requires m % SECTOR_SIZE == 0 && WholeSectors(bios) && n > 0
    ensures SameView(Drop(Drop(bios, m, err), n, err), Drop(bios, m + n, err))
    ensures Finished(bios, m, err) + Finished(Drop(bios, m, err), n, err) == Finished(bios, m + n, err)
  {
    if bios == [] {
    } else if m < bios[0].size {
      DropTwiceInBio(bios, m, n, err);
    } else if m > bios[0].size {
      DropMore(bios[1..], m - bios[0].size, n, err);
    }
  }

  /**
   * Completing m bytes and then n is completing m + n, when m is a whole number
   * of sectors. The one exception: completing no byte at all ends an empty bio
   * at the head of what is left.
   */
  lemma DropTwice(bios: seq<Bio>, m: nat, n: nat, err: int)
    requires m % SECTOR_SIZE == 0 && WholeSectors(bios)
    ensures SameView(Drop(Drop(bios, m, err), n, err), Drop(bios, m + n, err))
            <==> n > 0 || Drop(bios, m, err) == [] || Drop(bios, m, err)[0].size > 0
    ensures n > 0 ==>
      Finished(bios, m, err) + Finished(Drop(bios, m, err), n, err) == Finished(bios, m + n, err)
  {
    if n > 0 {
      DropMore(bios, m, n, err);
    } else {
      var left := Drop(bios, m, err);
      if left != [] && left[0].size > 0 {
        assert View(View(left[0])) == View(left[0]);
      }
    }
  }

  /** An empty bio at the end is left when all bytes are done, and completing no byte at all then ends it. */
  lemma EmptyBios()
    ensures
      var b := Bio(0, 0, 512, [Bvec(0, 0, 512)], 0, {}, false, true, 0, 0, None);
      var e := Bio(1, 1, 0, [], 0, {}, false, true, 0, 0, None);
      && Size([b, e]) == 512 && Drop([b, e], 512, 0) == [e]
      && Drop(Drop([b, e], 512, 0), 0, 0) == [] != Drop([b, e], 512 + 0, 0)
  {
    var b := Bio(0, 0, 512, [Bvec(0, 0, 512)], 0, {}, false, true, 0, 0, None);
    var e := Bio(1, 1, 0, [], 0, {}, false, true, 0, 0, None);
    assert [b, e][1..] == [e] && [e][1..] == [];
    assert Size([]) == 0 && Size([e]) == 0;
  }
}
