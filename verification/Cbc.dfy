/**
 * Cipher block chaining as section 6.2 of NIST SP 800-38A defines it, over
 * bytes: only whole blocks are transformed, what is left over stays outside.
 */
module Cbc {

  type Bytes = seq<bv8>

  /** A block cipher under a fixed key. */
  datatype Cipher = Cipher(bsize: nat, enc: Bytes -> Bytes, dec: Bytes -> Bytes) {
    ghost predicate Sized() {
      && bsize > 0
      && (forall b | |b| == bsize :: |enc(b)| == bsize)
      && (forall b | |b| == bsize :: |dec(b)| == bsize)
    }

    ghost predicate Permutation() {
      Sized() && forall b | |b| == bsize :: dec(enc(b)) == b
    }
  }

  function XorBits(x: bv8, y: bv8): bv8 {
    x ^ y
  }

  function Xor(a: Bytes, b: Bytes): (r: Bytes)
    requires |a| == |b|
    ensures |r| == |a|
  {
    seq(|a|, i requires 0 <= i < |a| => XorBits(a[i], b[i]))
  }

  /** How many of `n` bytes make up whole blocks. */
  function Whole(bsize: nat, n: nat): (r: nat)
    requires bsize > 0
    ensures r <= n
    decreases n
  {
    if n < bsize then 0 else bsize + Whole(bsize, n - bsize)
  }

  lemma WholeStep(bsize: nat, n: nat)
    requires bsize > 0 && n >= bsize
    ensures Whole(bsize, n) == bsize + Whole(bsize, n - bsize)
  {
  }

  /** Each block is mixed with the ciphertext block before it, the first with the IV. */
  ghost function Encrypt(c: Cipher, iv: Bytes, p: Bytes): (r: Bytes)
    requires c.Sized() && |iv| == c.bsize
    ensures |r| == Whole(c.bsize, |p|)
    decreases |p|
  {
    if |p| < c.bsize then []
    else
      WholeStep(c.bsize, |p|);
      var b := c.enc(Xor(p[..c.bsize], iv));
      b + Encrypt(c, b, p[c.bsize..])
  }

  ghost function Decrypt(c: Cipher, iv: Bytes, x: Bytes): (r: Bytes)
    requires c.Sized() && |iv| == c.bsize
    ensures |r| == Whole(c.bsize, |x|)
    decreases |x|
  {
    if |x| < c.bsize then []
    else
      WholeStep(c.bsize, |x|);
      Xor(c.dec(x[..c.bsize]), iv) + Decrypt(c, x[..c.bsize], x[c.bsize..])
  }

  /** The chaining value after a message: its last whole ciphertext block. */
  function LastBlock(bsize: nat, iv: Bytes, x: Bytes): (r: Bytes)
    requires bsize > 0 && |iv| == bsize
    ensures |r| == bsize
    decreases |x|
  {
    if |x| < bsize then iv else LastBlock(bsize, x[..bsize], x[bsize..])
  }

  lemma EncryptStep(c: Cipher, iv: Bytes, p: Bytes)
    requires c.Sized() && |iv| == c.bsize && |p| >= c.bsize
    ensures var b, x := c.enc(Xor(p[..c.bsize], iv)), Encrypt(c, iv, p);
      && |b| == c.bsize && |x| >= c.bsize && x == b + Encrypt(c, b, p[c.bsize..])
      && x[..c.bsize] == b && x[c.bsize..] == Encrypt(c, b, p[c.bsize..])
  {
    hide Xor, Whole;
  }

  lemma DecryptStep(c: Cipher, iv: Bytes, x: Bytes)
    requires c.Sized() && |iv| == c.bsize && |x| >= c.bsize
    ensures |c.dec(x[..c.bsize])| == c.bsize
    ensures var b, p := Xor(c.dec(x[..c.bsize]), iv), Decrypt(c, iv, x);
      && |p| >= c.bsize && p == b + Decrypt(c, x[..c.bsize], x[c.bsize..])
      && p[..c.bsize] == b && p[c.bsize..] == Decrypt(c, x[..c.bsize], x[c.bsize..])
  {
    hide Xor, Whole;
  }

  lemma NoBlock(c: Cipher, iv: Bytes, s: Bytes)
    requires c.Sized() && |iv| == c.bsize && |s| < c.bsize
    ensures Encrypt(c, iv, s) == [] && Decrypt(c, iv, s) == []
    ensures LastBlock(c.bsize, iv, s) == iv && Whole(c.bsize, |s|) == 0
  {
  }

  // ----- whole blocks ------------------------------------------------------

  lemma Apart(bsize: int, q: int, q': int)
    requires bsize > 0 && q < q'
    ensures q' * bsize >= q * bsize + bsize
  {
    var d := q' - q - 1;
    assert d * bsize >= 0;
    assert q' * bsize == q * bsize + d * bsize + bsize;
  }

  lemma SameQuotient(bsize: int, q: int, r: int, q': int, r': int)
    requires q * bsize + r == q' * bsize + r' && 0 <= r < bsize && 0 <= r' < bsize
    ensures r == r'
  {
    if q < q' {
      Apart(bsize, q, q');
    } else if q' < q {
      Apart(bsize, q', q);
    }
  }

  lemma ModUnique(bsize: nat, n: nat, q: int, r: nat)
    requires bsize > 0 && n == q * bsize + r && r < bsize
    ensures n % bsize == r
  {
    var q', r' := n / bsize, n % bsize;
    assert n == q' * bsize + r';
    SameQuotient(bsize, q, r, q', r');
  }

  lemma ModStep(bsize: nat, n: nat)
    requires bsize > 0 && n >= bsize
    ensures (n - bsize) % bsize == n % bsize
  {
    var q, r := n / bsize, n % bsize;
    assert n == q * bsize + r;
    assert n - bsize == (q - 1) * bsize + r;
    ModUnique(bsize, n - bsize, q - 1, r);
  }

  /** The rest is the remainder of a division. */
  lemma {:induction false} WholeIs(bsize: nat, n: nat)
    requires bsize > 0
    ensures Whole(bsize, n) == n - n % bsize
    decreases n
  {
    if n >= bsize {
      WholeIs(bsize, n - bsize);
      ModStep(bsize, n);
    } else {
      assert n % bsize == n;
    }
  }

  lemma {:induction false} WholeWhole(bsize: nat, n: nat)
    requires bsize > 0
    ensures Whole(bsize, Whole(bsize, n)) == Whole(bsize, n)
    ensures n - Whole(bsize, n) < bsize
    decreases n
  {
    if n >= bsize {
      WholeWhole(bsize, n - bsize);
    }
  }

  lemma {:induction false} WholeSum(bsize: nat, n: nat, m: nat)
    requires bsize > 0 && Whole(bsize, n) == n
    ensures Whole(bsize, n + m) == n + Whole(bsize, m)
    decreases n
  {
    if n >= bsize {
      WholeSum(bsize, n - bsize, m);
    }
  }

  // ----- the textbook recurrence -------------------------------------------

  /** Block `j` of some bytes. */
  function Nth(bsize: nat, s: Bytes, j: nat): (r: Bytes)
    requires bsize > 0 && (j + 1) * bsize <= |s|
    ensures |r| == bsize
  {
    s[j * bsize..(j + 1) * bsize]
  }

  lemma NthTail(bsize: nat, s: Bytes, j: nat)
    requires bsize > 0 && (j + 2) * bsize <= |s|
    ensures bsize <= |s| && (j + 1) * bsize <= |s[bsize..]| && Nth(bsize, s, j + 1) == Nth(bsize, s[bsize..], j)
  {
    assert (j + 1) * bsize == j * bsize + bsize;
    assert (j + 2) * bsize == (j + 1) * bsize + bsize;
  }

  lemma FirstFits(bsize: nat, j: nat)
    requires bsize > 0
    ensures (j + 1) * bsize == j * bsize + bsize && j * bsize >= 0
  {
  }

  /** C[1] = E(P[1] xor IV), C[j] = E(P[j] xor C[j-1]). */
  lemma {:induction false} EncryptIs(c: Cipher, iv: Bytes, p: Bytes, j: nat)
    requires c.Sized() && |iv| == c.bsize && (j + 1) * c.bsize <= |Encrypt(c, iv, p)|
    ensures Nth(c.bsize, Encrypt(c, iv, p), j) ==
            c.enc(Xor(Nth(c.bsize, p, j), if j == 0 then iv else Nth(c.bsize, Encrypt(c, iv, p), j - 1)))
    decreases j
  {
    hide Encrypt, Xor, Whole;
    var x := Encrypt(c, iv, p);
    var bs := c.bsize;
    FirstFits(bs, j);
    EncryptStep(c, iv, p);
    var b := c.enc(Xor(p[..bs], iv));
    if j > 0 {
      NthTail(bs, x, j - 1);
      NthTail(bs, p, j - 1);
      EncryptIs(c, b, p[bs..], j - 1);
      if j > 1 {
        NthTail(bs, x, j - 2);
      }
    }
  }

  /** P[1] = D(C[1]) xor IV, P[j] = D(C[j]) xor C[j-1]. */
  lemma {:induction false} DecryptIs(c: Cipher, iv: Bytes, x: Bytes, j: nat)
    requires c.Sized() && |iv| == c.bsize && (j + 1) * c.bsize <= |Decrypt(c, iv, x)|
    ensures Nth(c.bsize, Decrypt(c, iv, x), j) ==
            Xor(c.dec(Nth(c.bsize, x, j)), if j == 0 then iv else Nth(c.bsize, x, j - 1))
    decreases j
  {
    hide Decrypt, Xor, Whole;
    var p := Decrypt(c, iv, x);
    var bs := c.bsize;
    FirstFits(bs, j);
    DecryptStep(c, iv, x);
    if j > 0 {
      NthTail(bs, p, j - 1);
      NthTail(bs, x, j - 1);
      DecryptIs(c, x[..bs], x[bs..], j - 1);
      if j > 1 {
        NthTail(bs, x, j - 2);
      }
    }
  }

  // ----- inverse and chunking ----------------------------------------------

  lemma XorBitsTwice(x: bv8, y: bv8)
    ensures XorBits(XorBits(x, y), y) == x
  {
  }

  lemma XorTwice(a: Bytes, b: Bytes)
    requires |a| == |b|
    ensures Xor(Xor(a, b), b) == a
  {
    hide XorBits;
    forall i | 0 <= i < |a|
      ensures Xor(Xor(a, b), b)[i] == a[i]
    {
      XorBitsTwice(a[i], b[i]);
    }
  }

  /** Decryption gives back every whole block that was encrypted. */
  lemma {:induction false} RoundTrip(c: Cipher, iv: Bytes, p: Bytes)
    requires c.Permutation() && |iv| == c.bsize
    ensures Decrypt(c, iv, Encrypt(c, iv, p)) == p[..Whole(c.bsize, |p|)]
    decreases |p|
  {
    hide Encrypt, Decrypt, Xor, Whole;
    var bs := c.bsize;
    var x := Encrypt(c, iv, p);
    if |p| < bs {
      NoBlock(c, iv, p);
      NoBlock(c, iv, x);
    } else {
      var m := Xor(p[..bs], iv);
      EncryptStep(c, iv, p);
      DecryptStep(c, iv, x);
      RoundTrip(c, c.enc(m), p[bs..]);
      XorTwice(p[..bs], iv);
      WholeStep(bs, |p|);
      assert p[..Whole(bs, |p|)] == p[..bs] + p[bs..][..Whole(bs, |p| - bs)];
    }
  }

  /** Encrypting a message in two parts, the second with the last block of the first as its IV. */
  lemma {:induction false} EncryptParts(c: Cipher, iv: Bytes, p: Bytes, q: Bytes)
    requires c.Sized() && |iv| == c.bsize && Whole(c.bsize, |p|) == |p|
    ensures Encrypt(c, iv, p + q) == Encrypt(c, iv, p) + Encrypt(c, LastBlock(c.bsize, iv, Encrypt(c, iv, p)), q)
    decreases |p|
  {
    hide Encrypt, Xor, Whole;
    var bs := c.bsize;
    if |p| < bs {
      NoBlock(c, iv, p);
      assert p + q == q;
    } else {
      var b := c.enc(Xor(p[..bs], iv));
      assert (p + q)[..bs] == p[..bs] && (p + q)[bs..] == p[bs..] + q;
      WholeStep(bs, |p|);
      EncryptStep(c, iv, p);
      EncryptStep(c, iv, p + q);
      EncryptParts(c, b, p[bs..], q);
    }
  }

  lemma {:induction false} DecryptParts(c: Cipher, iv: Bytes, x: Bytes, y: Bytes)
    requires c.Sized() && |iv| == c.bsize && Whole(c.bsize, |x|) == |x|
    ensures Decrypt(c, iv, x + y) == Decrypt(c, iv, x) + Decrypt(c, LastBlock(c.bsize, iv, x), y)
    decreases |x|
  {
    hide Decrypt, Xor, Whole;
    var bs := c.bsize;
    if |x| < bs {
      NoBlock(c, iv, x);
      assert x + y == y;
    } else {
      assert (x + y)[..bs] == x[..bs] && (x + y)[bs..] == x[bs..] + y;
      WholeStep(bs, |x|);
      DecryptStep(c, iv, x);
      DecryptStep(c, iv, x + y);
      DecryptParts(c, x[..bs], x[bs..], y);
    }
  }

  lemma {:induction false} LastParts(bsize: nat, iv: Bytes, x: Bytes, y: Bytes)
    requires bsize > 0 && |iv| == bsize && Whole(bsize, |x|) == |x|
    ensures LastBlock(bsize, iv, x + y) == LastBlock(bsize, LastBlock(bsize, iv, x), y)
    decreases |x|
  {
    if |x| < bsize {
      assert x + y == y;
    } else {
      assert (x + y)[..bsize] == x[..bsize] && (x + y)[bsize..] == x[bsize..] + y;
      LastParts(bsize, x[..bsize], x[bsize..], y);
    }
  }

  /** The tail makes no difference. */
  lemma {:induction false} TailIgnored(c: Cipher, iv: Bytes, s: Bytes)
    requires c.Sized() && |iv| == c.bsize
    ensures var w := s[..Whole(c.bsize, |s|)];
      && Encrypt(c, iv, w) == Encrypt(c, iv, s)
      && Decrypt(c, iv, w) == Decrypt(c, iv, s)
      && LastBlock(c.bsize, iv, w) == LastBlock(c.bsize, iv, s)
  {
    var n := Whole(c.bsize, |s|);
    var w, t := s[..n], s[n..];
    WholeWhole(c.bsize, |s|);
    assert w + t == s;
    EncryptParts(c, iv, w, t);
    DecryptParts(c, iv, w, t);
    LastParts(c.bsize, iv, w, t);
    assert Encrypt(c, LastBlock(c.bsize, iv, Encrypt(c, iv, w)), t) == [];
    assert Decrypt(c, LastBlock(c.bsize, iv, w), t) == [];
  }
}
