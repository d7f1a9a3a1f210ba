/**
 * The loops of cbc.c on byte buffers. A pointer is a buffer and an offset. Each
 * loop is proved against the block chaining of module Cbc.
 */
module CbcBuffers {
  import opened Cbc

  /** A buffer with some bytes overwritten. */
  function Put(s: Bytes, off: nat, b: Bytes): (r: Bytes)
    requires off + |b| <= |s|
    ensures |r| == |s|
  {
    s[..off] + b + s[off + |b|..]
  }

  lemma PutRead(s: Bytes, off: nat, b: Bytes)
    requires off + |b| <= |s|
    ensures Put(s, off, b)[off..off + |b|] == b
    ensures Put(s, off, b)[..off] == s[..off] && Put(s, off, b)[off + |b|..] == s[off + |b|..]
  {
  }

  lemma PutElsewhere(s: Bytes, off: nat, b: Bytes, lo: nat, hi: nat)
    requires off + |b| <= |s| && lo <= hi <= |s| && (hi <= off || off + |b| <= lo)
    ensures Put(s, off, b)[lo..hi] == s[lo..hi]
  {
  }

  lemma PutNext(s: Bytes, off: nat, a: Bytes, b: Bytes)
    requires off + |a| + |b| <= |s|
    ensures Put(Put(s, off, a), off + |a|, b) == Put(s, off, a + b)
  {
  }

  lemma PutBefore(s: Bytes, off: nat, a: Bytes, b: Bytes)
    requires off + |a| + |b| <= |s|
    ensures Put(Put(s, off + |a|, b), off, a) == Put(s, off, a + b)
  {
  }

  lemma PutAgain(s: Bytes, off: nat, a: Bytes, b: Bytes)
    requires |a| == |b| && off + |a| <= |s|
    ensures Put(Put(s, off, a), off, b) == Put(s, off, b)
  {
  }

  lemma PutPointwise(s: Bytes, off: nat, b: Bytes, r: Bytes)
    requires off + |b| <= |s| == |r|
    requires forall i | 0 <= i < |s| :: r[i] == if off <= i < off + |b| then b[i - off] else s[i]
    ensures r == Put(s, off, b)
  {
  }

  // ----- words -------------------------------------------------------------

  /** Four bytes read as one 32-bit word. */
  function Word(b0: bv8, b1: bv8, b2: bv8, b3: bv8): bv32 {
    (b0 as bv32) | ((b1 as bv32) << 8) | ((b2 as bv32) << 16) | ((b3 as bv32) << 24)
  }

  function XorWide(v: bv32, w: bv32): bv32 {
    v ^ w
  }

  function Byte0(w: bv32): bv8 { (w & 0xff) as bv8 }

  function Byte1(w: bv32): bv8 { ((w >> 8) & 0xff) as bv8 }

  function Byte2(w: bv32): bv8 { ((w >> 16) & 0xff) as bv8 }

  function Byte3(w: bv32): bv8 { ((w >> 24) & 0xff) as bv8 }

  lemma WordBytes(b0: bv8, b1: bv8, b2: bv8, b3: bv8)
    ensures var w := Word(b0, b1, b2, b3);
      Byte0(w) == b0 && Byte1(w) == b1 && Byte2(w) == b2 && Byte3(w) == b3
  {
  }

  lemma RawXor(v: bv32, w: bv32)
    ensures Byte0(v ^ w) == Byte0(v) ^ Byte0(w)
    ensures Byte1(v ^ w) == Byte1(v) ^ Byte1(w)
    ensures Byte2(v ^ w) == Byte2(v) ^ Byte2(w)
    ensures Byte3(v ^ w) == Byte3(v) ^ Byte3(w)
  {
  }

  lemma BytesXor(v: bv32, w: bv32)
    ensures Byte0(XorWide(v, w)) == XorBits(Byte0(v), Byte0(w))
    ensures Byte1(XorWide(v, w)) == XorBits(Byte1(v), Byte1(w))
    ensures Byte2(XorWide(v, w)) == XorBits(Byte2(v), Byte2(w))
    ensures Byte3(XorWide(v, w)) == XorBits(Byte3(v), Byte3(w))
  {
    hide Byte0, Byte1, Byte2, Byte3;
    RawXor(v, w);
  }

  /** Two words of four bytes each, combined as words. */
  function WordXor(x: Bytes, y: Bytes): (r: Bytes)
    requires |x| == |y| == 4
    ensures |r| == 4
  {
    var w := XorWide(Word(x[0], x[1], x[2], x[3]), Word(y[0], y[1], y[2], y[3]));
    [Byte0(w), Byte1(w), Byte2(w), Byte3(w)]
  }

  /** It is the same as byte by byte. */
  lemma WordXorIsXor(x: Bytes, y: Bytes)
    requires |x| == |y| == 4
    ensures WordXor(x, y) == Xor(x, y)
  {
    hide Word, XorWide, XorBits, Byte0, Byte1, Byte2, Byte3;
    WordBytes(x[0], x[1], x[2], x[3]);
    WordBytes(y[0], y[1], y[2], y[3]);
    BytesXor(Word(x[0], x[1], x[2], x[3]), Word(y[0], y[1], y[2], y[3]));
  }

  /** crypto_xor_byte */
  method XorByte(dst: array<bv8>, d: nat, src: array<bv8>, s: nat, size: nat)
    requires d + size <= dst.Length && s + size <= src.Length
    requires dst != src || d + size <= s || s + size <= d
    modifies dst
    ensures forall i | 0 <= i < dst.Length ::
      dst[i] == if d <= i < d + size then XorBits(old(dst[i]), old(src[s + i - d])) else old(dst[i])
  {
    hide XorBits;
    var k := 0;
    while k < size
      invariant k <= size
      invariant forall i | 0 <= i < dst.Length ::
        dst[i] == if d <= i < d + k then XorBits(old(dst[i]), old(src[s + i - d])) else old(dst[i])
      invariant forall i | s <= i < s + size :: src[i] == old(src[i])
    {
      dst[d + k] := XorBits(dst[d + k], src[s + k]);
      k := k + 1;
    }
  }

  method XorWord(dst: array<bv8>, a: nat, src: array<bv8>, b: nat)
    requires a + 4 <= dst.Length && b + 4 <= src.Length
    requires dst != src || a + 4 <= b || b + 4 <= a
    modifies dst
    ensures forall i | 0 <= i < dst.Length && !(a <= i < a + 4) :: dst[i] == old(dst[i])
    ensures forall i | a <= i < a + 4 :: dst[i] == XorBits(old(dst[i]), old(src[b + i - a]))
  {
    hide WordXor, XorBits;
    ghost var before, from := dst[..], src[..];
    WordXorIsXor(dst[a..a + 4], src[b..b + 4]);
    var w := WordXor(dst[a..a + 4], src[b..b + 4]);
    forall i | 0 <= i < 4
      ensures w[i] == XorBits(before[a + i], from[b + i])
    {
    }
    dst[a], dst[a + 1], dst[a + 2], dst[a + 3] := w[0], w[1], w[2], w[3];
  }

  /** crypto_xor: words first, then the odd bytes */
  method XorWords(dst: array<bv8>, d: nat, src: array<bv8>, s: nat, size: nat)
    requires d + size <= dst.Length && s + size <= src.Length
    requires dst != src || d + size <= s || s + size <= d
    modifies dst
    ensures forall i | 0 <= i < dst.Length ::
      dst[i] == if d <= i < d + size then XorBits(old(dst[i]), old(src[s + i - d])) else old(dst[i])
  {
    hide XorBits;
    var k := 0;
    while size - k >= 4
      invariant k <= size
      invariant forall i | 0 <= i < dst.Length ::
        dst[i] == if d <= i < d + k then XorBits(old(dst[i]), old(src[s + i - d])) else old(dst[i])
      invariant forall i | s <= i < s + size :: src[i] == old(src[i])
    {
      XorWord(dst, d + k, src, s + k);
      k := k + 4;
    }
    XorByte(dst, d + k, src, s + k, size - k);
  }

  method CryptoXor(dst: array<bv8>, d: nat, src: array<bv8>, s: nat, size: nat)
    requires d + size <= dst.Length && s + size <= src.Length
    requires dst != src || d + size <= s || s + size <= d
    modifies dst
    ensures dst[..] == Put(old(dst[..]), d, Xor(old(dst[d..d + size]), old(src[s..s + size])))
  {
    hide Put;
    ghost var before, x := dst[..], Xor(dst[d..d + size], src[s..s + size]);
    XorWords(dst, d, src, s, size);
    PutPointwise(before, d, x, dst[..]);
  }

  /** The cipher's own function: one block from `src` to `dst`, which may be the same place. */
  method CipherBlock(f: Bytes -> Bytes, bsize: nat, dst: array<bv8>, d: nat, src: array<bv8>, s: nat)
    requires d + bsize <= dst.Length && s + bsize <= src.Length && |f(src[s..s + bsize])| == bsize
    modifies dst
    ensures dst[..] == Put(old(dst[..]), d, f(old(src[s..s + bsize])))
  {
    hide Put;
    ghost var before := dst[..];
    var b := f(src[s..s + bsize]);
    forall i | 0 <= i < bsize {
      dst[d + i] := b[i];
    }
    PutPointwise(before, d, b, dst[..]);
  }

  method MemCpy(dst: array<bv8>, d: nat, src: array<bv8>, s: nat, n: nat)
    requires d + n <= dst.Length && s + n <= src.Length
    modifies dst
    ensures dst[..] == Put(old(dst[..]), d, old(src[s..s + n]))
  {
    hide Put;
    ghost var before, b := dst[..], src[s..s + n];
    forall i | 0 <= i < n {
      dst[d + i] := src[s + i];
    }
    PutPointwise(before, d, b, dst[..]);
  }

  // ----- one more block ----------------------------------------------------

  lemma XorBitsSwap(x: bv8, y: bv8)
    ensures XorBits(x, y) == XorBits(y, x)
  {
  }

  lemma XorSwap(a: Bytes, b: Bytes)
    requires |a| == |b|
    ensures Xor(a, b) == Xor(b, a)
  {
    hide XorBits;
    forall i | 0 <= i < |a|
      ensures XorBits(a[i], b[i]) == XorBits(b[i], a[i])
    {
      XorBitsSwap(a[i], b[i]);
    }
  }

  lemma OneBlock(bsize: nat, iv: Bytes, b: Bytes)
    requires bsize > 0 && |iv| == |b| == bsize
    ensures LastBlock(bsize, iv, b) == b
  {
    assert b[..bsize] == b;
  }

  lemma OneWhole(bsize: nat)
    requires bsize > 0
    ensures Whole(bsize, bsize) == bsize
  {
  }

  /** The message so far, one block longer. */
  lemma EncryptNext(c: Cipher, iv: Bytes, p: Bytes, k: nat)
    requires c.Sized() && |iv| == c.bsize && Whole(c.bsize, k) == k && k + c.bsize <= |p|
    ensures var done := Encrypt(c, iv, p[..k]);
      var b := c.enc(Xor(p[k..k + c.bsize], LastBlock(c.bsize, iv, done)));
      && |b| == c.bsize
      && Encrypt(c, iv, p[..k + c.bsize]) == done + b
      && LastBlock(c.bsize, iv, done + b) == b
      && Whole(c.bsize, k + c.bsize) == k + c.bsize
  {
    hide Encrypt, Xor, Whole;
    var bs := c.bsize;
    var m := p[k..k + bs];
    var done := Encrypt(c, iv, p[..k]);
    var last := LastBlock(bs, iv, done);
    EncryptParts(c, iv, p[..k], m);
    assert p[..k] + m == p[..k + bs];
    EncryptStep(c, last, m);
    var b := c.enc(Xor(m, last));
    assert m[..bs] == m;
    NoBlock(c, b, m[bs..]);
    assert Encrypt(c, last, m) == b;
    OneBlock(bs, last, b);
    LastParts(bs, iv, done, b);
    WholeSum(bs, k, bs);
    OneWhole(bs);
  }

  lemma DecryptNext(c: Cipher, iv: Bytes, x: Bytes, k: nat)
    requires c.Sized() && |iv| == c.bsize && Whole(c.bsize, k) == k && k + c.bsize <= |x|
    ensures var b := x[k..k + c.bsize];
      && |c.dec(b)| == c.bsize
      && Decrypt(c, iv, x[..k + c.bsize]) == Decrypt(c, iv, x[..k]) + Xor(c.dec(b), LastBlock(c.bsize, iv, x[..k]))
      && LastBlock(c.bsize, iv, x[..k + c.bsize]) == b
      && Whole(c.bsize, k + c.bsize) == k + c.bsize
  {
    hide Decrypt, Xor, Whole;
    var bs := c.bsize;
    var b := x[k..k + bs];
    var last := LastBlock(bs, iv, x[..k]);
    DecryptParts(c, iv, x[..k], b);
    LastParts(bs, iv, x[..k], b);
    assert x[..k] + b == x[..k + bs];
    DecryptStep(c, last, b);
    assert b[..bs] == b;
    NoBlock(c, b, b[bs..]);
    OneBlock(bs, last, b);
    WholeSum(bs, k, bs);
    OneWhole(bs);
  }

  /** All whole blocks are done when less than one is left. */
  lemma AllWhole(bsize: nat, k: nat, left: nat)
    requires bsize > 0 && Whole(bsize, k) == k && left < bsize
    ensures k == Whole(bsize, k + left)
  {
    WholeSum(bsize, k, left);
  }

  // ----- the loops ---------------------------------------------------------

  lemma PutAll(s: Bytes, b: Bytes)
    requires |s| == |b|
    ensures Put(s, 0, b) == b
  {
  }

  /** The body of the loop: the IV is overwritten with the new block. */
  method EncryptOne(c: Cipher, src: array<bv8>, s: nat, dst: array<bv8>, d: nat, iv: array<bv8>)
    requires c.Sized() && iv.Length == c.bsize && iv != src && iv != dst && src != dst
    requires s + c.bsize <= src.Length && d + c.bsize <= dst.Length
    modifies dst, iv
    ensures iv[..] == c.enc(Xor(src[s..s + c.bsize], old(iv[..])))
    ensures dst[..] == Put(old(dst[..]), d, iv[..])
  {
    hide Put, Xor;
    var bs := c.bsize;
    ghost var iv0, m, dst0 := iv[..], src[s..s + bs], dst[..];
    assert iv[0..bs] == iv0;
    XorSwap(iv0, m);
    CryptoXor(iv, 0, src, s, bs);
    ghost var iv1 := iv[..];
    PutAll(iv0, Xor(m, iv0));
    assert iv[0..bs] == iv1;
    CipherBlock(c.enc, bs, dst, d, iv, 0);
    ghost var b := c.enc(iv1);
    PutRead(dst0, d, b);
    assert dst[d..d + bs] == dst[..][d..d + bs];
    MemCpy(iv, 0, dst, d, bs);
    PutAll(iv1, b);
  }

  lemma StartWhole(c: Cipher, iv: Bytes, p: Bytes)
    requires c.Sized() && |iv| == c.bsize
    ensures Whole(c.bsize, 0) == 0 && Encrypt(c, iv, p[..0]) == [] && Decrypt(c, iv, p[..0]) == []
    ensures LastBlock(c.bsize, iv, []) == iv && LastBlock(c.bsize, iv, p[..0]) == iv
  {
  }

  lemma PutNothing(s: Bytes, off: nat)
    requires off <= |s|
    ensures Put(s, off, []) == s
  {
  }

  lemma SliceSlice(s: Bytes, off: nat, n: nat, k: nat, m: nat)
    requires off + n <= |s| && k + m <= n
    ensures s[off..off + n][k..k + m] == s[off + k..off + k + m]
  {
    var a, b := s[off..off + n][k..k + m], s[off + k..off + k + m];
    forall i | 0 <= i < m
      ensures a[i] == b[i]
    {
      assert a[i] == s[off..off + n][k + i];
    }
  }

  lemma ArraySlice(a: array<bv8>, off: nat, n: nat, k: nat, m: nat)
    requires off + n <= a.Length && k + m <= n
    ensures a[off..off + n][k..k + m] == a[off + k..off + k + m]
  {
    SliceSlice(a[..], off, n, k, m);
    assert a[..][off..off + n] == a[off..off + n];
    assert a[..][off + k..off + k + m] == a[off + k..off + k + m];
  }

  /** crypto_cbc_encrypt_segment */
  method EncryptSegment(c: Cipher, src: array<bv8>, s: nat, dst: array<bv8>, d: nat, iv: array<bv8>, nbytes: nat)
    returns (left: nat)
    requires c.Sized() && iv.Length == c.bsize && nbytes >= c.bsize
    requires s + nbytes <= src.Length && d + nbytes <= dst.Length && src != dst && iv != src && iv != dst
    modifies dst, iv
    ensures left == nbytes - Whole(c.bsize, nbytes)
    ensures dst[..] == Put(old(dst[..]), d, Encrypt(c, old(iv[..]), src[s..s + nbytes]))
    ensures iv[..] == LastBlock(c.bsize, old(iv[..]), Encrypt(c, old(iv[..]), src[s..s + nbytes]))
  {
    hide Put, Encrypt, Xor, Whole, LastBlock;
    var bs := c.bsize;
    ghost var iv0, dst0, p := iv[..], dst[..], src[s..s + nbytes];
    left := nbytes;
    var k := 0;
    StartWhole(c, iv0, p);
    PutNothing(dst0, d);
    while left >= bs
      invariant k + left == nbytes && Whole(bs, k) == k && src[s..s + nbytes] == p
      invariant dst[..] == Put(dst0, d, Encrypt(c, iv0, p[..k]))
      invariant iv[..] == LastBlock(bs, iv0, Encrypt(c, iv0, p[..k]))
    {
      ghost var done := Encrypt(c, iv0, p[..k]);
      EncryptNext(c, iv0, p, k);
      ArraySlice(src, s, nbytes, k, bs);
      EncryptOne(c, src, s + k, dst, d + k, iv);
      PutNext(dst0, d, done, iv[..]);
      k, left := k + bs, left - bs;
    }
    AllWhole(bs, k, left);
    TailIgnored(c, iv0, p);
  }

  lemma InplaceNext(c: Cipher, iv: Bytes, buf: Bytes, s: nat, n: nat, k: nat)
    requires c.Sized() && |iv| == c.bsize && s + n <= |buf| && Whole(c.bsize, k) == k && k + c.bsize <= n
    ensures var p := buf[s..s + n];
      var done := Encrypt(c, iv, p[..k]);
      var now := Put(buf, s, done);
      var b := c.enc(Xor(now[s + k..s + k + c.bsize], LastBlock(c.bsize, iv, done)));
      && |b| == c.bsize
      && Put(now, s + k, b) == Put(buf, s, Encrypt(c, iv, p[..k + c.bsize]))
      && LastBlock(c.bsize, iv, Encrypt(c, iv, p[..k + c.bsize])) == b == Put(now, s + k, b)[s + k..s + k + c.bsize]
      && Whole(c.bsize, k + c.bsize) == k + c.bsize
  {
    hide Put, Encrypt, Xor, Whole, LastBlock;
    var p := buf[s..s + n];
    var done := Encrypt(c, iv, p[..k]);
    EncryptNext(c, iv, p, k);
    SliceSlice(buf, s, n, k, c.bsize);
    PutElsewhere(buf, s, done, s + k, s + k + c.bsize);
    var b := c.enc(Xor(p[k..k + c.bsize], LastBlock(c.bsize, iv, done)));
    PutNext(buf, s, done, b);
    PutRead(Put(buf, s, done), s + k, b);
  }

  method MixAndEncrypt(c: Cipher, buf: array<bv8>, s: nat, ivBuf: array<bv8>, ivOff: nat)
    requires c.Sized() && s + c.bsize <= buf.Length && ivOff + c.bsize <= ivBuf.Length
    requires ivBuf != buf || ivOff + c.bsize <= s
    modifies buf
    ensures buf[..] == Put(old(buf[..]), s, c.enc(Xor(old(buf[s..s + c.bsize]), old(ivBuf[ivOff..ivOff + c.bsize]))))
  {
    hide Put, Xor;
    var bs := c.bsize;
    ghost var buf0, m := buf[..], Xor(buf[s..s + bs], ivBuf[ivOff..ivOff + bs]);
    CryptoXor(buf, s, ivBuf, ivOff, bs);
    PutRead(buf0, s, m);
    assert buf[s..s + bs] == buf[..][s..s + bs] == m;
    CipherBlock(c.enc, bs, buf, s, buf, s);
    PutAgain(buf0, s, m, c.enc(m));
  }

  /** The first `k` bytes at `s` are encrypted in place, and `last` is the chaining value. */
  ghost predicate Encrypted(c: Cipher, iv0: Bytes, buf0: Bytes, s: nat, n: nat, k: nat, buf: Bytes, last: Bytes) {
    && c.Sized() && |iv0| == c.bsize && k <= n && s + n <= |buf0| && Whole(c.bsize, k) == k
    && var done := Encrypt(c, iv0, buf0[s..s + n][..k]);
    buf == Put(buf0, s, done) && last == LastBlock(c.bsize, iv0, done)
  }

  lemma EncryptedStart(c: Cipher, iv0: Bytes, buf0: Bytes, s: nat, n: nat)
    requires c.Sized() && |iv0| == c.bsize && s + n <= |buf0|
    ensures Encrypted(c, iv0, buf0, s, n, 0, buf0, iv0)
  {
    StartWhole(c, iv0, buf0[s..s + n]);
    PutNothing(buf0, s);
  }

  lemma EncryptedEnd(c: Cipher, iv0: Bytes, buf0: Bytes, s: nat, n: nat, k: nat, buf: Bytes, last: Bytes)
    requires Encrypted(c, iv0, buf0, s, n, k, buf, last) && n - k < c.bsize
    ensures var x := Encrypt(c, iv0, buf0[s..s + n]);
      k == Whole(c.bsize, n) && buf == Put(buf0, s, x) && last == LastBlock(c.bsize, iv0, x)
  {
    hide Put, Encrypt, Whole, LastBlock;
    AllWhole(c.bsize, k, n - k);
    TailIgnored(c, iv0, buf0[s..s + n]);
  }

  /** The body of the loop: the block at `k` is mixed with the IV, wherever that is, and encrypted */
  method EncryptNextBlock(c: Cipher, buf: array<bv8>, s: nat, n: nat, k: nat, ivBuf: array<bv8>, ivOff: nat,
                          ghost iv0: Bytes, ghost buf0: Bytes)
    requires c.Sized() && k + c.bsize <= n && s + n <= buf.Length && ivOff + c.bsize <= ivBuf.Length
    requires ivBuf != buf || ivOff + c.bsize == s + k
    requires Encrypted(c, iv0, buf0, s, n, k, buf[..], ivBuf[ivOff..ivOff + c.bsize])
    modifies buf
    ensures Encrypted(c, iv0, buf0, s, n, k + c.bsize, buf[..], buf[s + k..s + k + c.bsize])
  {
    hide Put, Encrypt, Xor, Whole, LastBlock;
    var bs := c.bsize;
    ghost var buf1 := buf[..];
    InplaceNext(c, iv0, buf0, s, n, k);
    assert buf[s + k..s + k + bs] == buf1[s + k..s + k + bs];
    MixAndEncrypt(c, buf, s + k, ivBuf, ivOff);
    assert buf[s + k..s + k + bs] == buf[..][s + k..s + k + bs];
  }

  /** crypto_cbc_encrypt_inplace: the IV is wherever the block before is */
  method EncryptInplace(c: Cipher, buf: array<bv8>, s: nat, iv: array<bv8>, nbytes: nat) returns (left: nat)
    requires c.Sized() && iv.Length == c.bsize && nbytes >= c.bsize && s + nbytes <= buf.Length && iv != buf
    modifies buf, iv
    ensures left == nbytes - Whole(c.bsize, nbytes)
    ensures buf[..] == Put(old(buf[..]), s, Encrypt(c, old(iv[..]), old(buf[s..s + nbytes])))
    ensures iv[..] == LastBlock(c.bsize, old(iv[..]), Encrypt(c, old(iv[..]), old(buf[s..s + nbytes])))
  {
    hide Put, Encrypt, Whole, LastBlock, Encrypted;
    var bs := c.bsize;
    ghost var iv0, buf0 := iv[..], buf[..];
    left := nbytes;
    var k := 0;
    var ivBuf := iv;
    var ivOff: nat := 0;
    EncryptedStart(c, iv0, buf0, s, nbytes);
    assert iv[0..bs] == iv0 && buf0[s..s + nbytes] == buf[s..s + nbytes];
    while left >= bs
      invariant k + left == nbytes && iv[..] == iv0
      invariant (ivBuf == iv && ivOff == 0) || (ivBuf == buf && ivOff + bs == s + k)
      invariant Encrypted(c, iv0, buf0, s, nbytes, k, buf[..], ivBuf[ivOff..ivOff + bs])
    {
      EncryptNextBlock(c, buf, s, nbytes, k, ivBuf, ivOff, iv0, buf0);
      ivBuf, ivOff := buf, s + k;
      k, left := k + bs, left - bs;
    }
    ghost var last := ivBuf[ivOff..ivOff + bs];
    EncryptedEnd(c, iv0, buf0, s, nbytes, k, buf[..], last);
    MemCpy(iv, 0, ivBuf, ivOff, bs);
    PutAll(iv0, last);
  }

  lemma SegmentNext(c: Cipher, iv: Bytes, x: Bytes, buf: Bytes, d: nat, k: nat)
    requires c.Sized() && |iv| == c.bsize && Whole(c.bsize, k) == k && k + c.bsize <= |x| && d + |x| <= |buf|
    ensures var b := x[k..k + c.bsize];
      && |c.dec(b)| == c.bsize
      && Put(Put(buf, d, Decrypt(c, iv, x[..k])), d + k, Xor(c.dec(b), LastBlock(c.bsize, iv, x[..k]))) ==
         Put(buf, d, Decrypt(c, iv, x[..k + c.bsize]))
      && LastBlock(c.bsize, iv, x[..k + c.bsize]) == b
      && Whole(c.bsize, k + c.bsize) == k + c.bsize
  {
    hide Put, Decrypt, Xor, Whole, LastBlock;
    DecryptNext(c, iv, x, k);
    PutNext(buf, d, Decrypt(c, iv, x[..k]), Xor(c.dec(x[k..k + c.bsize]), LastBlock(c.bsize, iv, x[..k])));
  }

  method DecryptAndMix(c: Cipher, src: array<bv8>, s: nat, dst: array<bv8>, d: nat, ivBuf: array<bv8>, ivOff: nat)
    requires c.Sized() && s + c.bsize <= src.Length && d + c.bsize <= dst.Length && ivOff + c.bsize <= ivBuf.Length
    requires dst != ivBuf && dst != src
    modifies dst
    ensures dst[..] == Put(old(dst[..]), d, Xor(c.dec(src[s..s + c.bsize]), ivBuf[ivOff..ivOff + c.bsize]))
  {
    hide Put, Xor;
    var bs := c.bsize;
    ghost var dst0, m := dst[..], c.dec(src[s..s + bs]);
    CipherBlock(c.dec, bs, dst, d, src, s);
    PutRead(dst0, d, m);
    assert dst[d..d + bs] == dst[..][d..d + bs] == m;
    CryptoXor(dst, d, ivBuf, ivOff, bs);
    PutAgain(dst0, d, m, Xor(m, ivBuf[ivOff..ivOff + bs]));
  }

  /** The first `k` bytes of `x` are decrypted to `d`, and `last` is the chaining value. */
  ghost predicate Decrypted(c: Cipher, iv0: Bytes, x: Bytes, dst0: Bytes, d: nat, k: nat, dst: Bytes, last: Bytes) {
    && c.Sized() && |iv0| == c.bsize && k <= |x| && d + |x| <= |dst0| && Whole(c.bsize, k) == k
    && dst == Put(dst0, d, Decrypt(c, iv0, x[..k])) && last == LastBlock(c.bsize, iv0, x[..k])
  }

  lemma DecryptedStart(c: Cipher, iv0: Bytes, x: Bytes, dst0: Bytes, d: nat)
    requires c.Sized() && |iv0| == c.bsize && d + |x| <= |dst0|
    ensures Decrypted(c, iv0, x, dst0, d, 0, dst0, iv0)
  {
    StartWhole(c, iv0, x);
    PutNothing(dst0, d);
  }

  lemma DecryptedEnd(c: Cipher, iv0: Bytes, x: Bytes, dst0: Bytes, d: nat, k: nat, dst: Bytes, last: Bytes)
    requires Decrypted(c, iv0, x, dst0, d, k, dst, last) && |x| - k < c.bsize
    ensures k == Whole(c.bsize, |x|) && dst == Put(dst0, d, Decrypt(c, iv0, x)) && last == LastBlock(c.bsize, iv0, x)
  {
    hide Put, Decrypt, Whole, LastBlock;
    AllWhole(c.bsize, k, |x| - k);
    TailIgnored(c, iv0, x);
  }

  /** The body of the loop: a block goes from `src` to `dst`, decrypted and mixed with the IV */
  method DecryptNextBlock(c: Cipher, src: array<bv8>, s: nat, dst: array<bv8>, d: nat, n: nat, k: nat,
                          ivBuf: array<bv8>, ivOff: nat, ghost iv0: Bytes, ghost dst0: Bytes)
    requires c.Sized() && k + c.bsize <= n && s + n <= src.Length && d + n <= dst.Length
    requires ivOff + c.bsize <= ivBuf.Length && dst != src && dst != ivBuf
    requires Decrypted(c, iv0, src[s..s + n], dst0, d, k, dst[..], ivBuf[ivOff..ivOff + c.bsize])
    modifies dst
    ensures Decrypted(c, iv0, src[s..s + n], dst0, d, k + c.bsize, dst[..], src[s + k..s + k + c.bsize])
  {
    hide Put, Decrypt, Xor, Whole, LastBlock;
    SegmentNext(c, iv0, src[s..s + n], dst0, d, k);
    ArraySlice(src, s, n, k, c.bsize);
    DecryptAndMix(c, src, s + k, dst, d + k, ivBuf, ivOff);
  }

  /** crypto_cbc_decrypt_segment */
  method DecryptSegment(c: Cipher, src: array<bv8>, s: nat, dst: array<bv8>, d: nat, iv: array<bv8>, nbytes: nat)
    returns (left: nat)
    requires c.Sized() && iv.Length == c.bsize && nbytes >= c.bsize
    requires s + nbytes <= src.Length && d + nbytes <= dst.Length && src != dst && iv != src && iv != dst
    modifies dst, iv
    ensures left == nbytes - Whole(c.bsize, nbytes)
    ensures dst[..] == Put(old(dst[..]), d, Decrypt(c, old(iv[..]), src[s..s + nbytes]))
    ensures iv[..] == LastBlock(c.bsize, old(iv[..]), src[s..s + nbytes])
  {
    hide Put, Decrypt, Whole, LastBlock, Decrypted;
    var bs := c.bsize;
    ghost var iv0, dst0, x := iv[..], dst[..], src[s..s + nbytes];
    left := nbytes;
    var k := 0;
    var ivBuf := iv;
    var ivOff: nat := 0;
    DecryptedStart(c, iv0, x, dst0, d);
    assert iv[0..bs] == iv0;
    while left >= bs
      invariant k + left == nbytes && src[s..s + nbytes] == x && iv[..] == iv0
      invariant (ivBuf == iv && ivOff == 0) || (ivBuf == src && ivOff + bs == s + k)
      invariant Decrypted(c, iv0, x, dst0, d, k, dst[..], ivBuf[ivOff..ivOff + bs])
    {
      DecryptNextBlock(c, src, s, dst, d, nbytes, k, ivBuf, ivOff, iv0, dst0);
      ivBuf, ivOff := src, s + k;
      k, left := k + bs, left - bs;
    }
    ghost var last := ivBuf[ivOff..ivOff + bs];
    DecryptedEnd(c, iv0, x, dst0, d, k, dst[..], last);
    MemCpy(iv, 0, ivBuf, ivOff, bs);
    PutAll(iv0, last);
  }

  // ----- the mask of the last block ----------------------------------------

  /** The bitwise and of two unsigned numbers. */
  function And(a: nat, b: nat): nat {
    if a == 0 || b == 0 then 0 else 2 * And(a / 2, b / 2) + (if a % 2 == 1 && b % 2 == 1 then 1 else 0)
  }

  /** is_power_of_2 */
  predicate PowerOf2(n: nat) {
    n != 0 && And(n, n - 1) == 0
  }

  lemma {:induction false} AndSelf(n: nat)
    ensures And(n, n) == n
  {
    if n != 0 {
      AndSelf(n / 2);
    }
  }

  /** Such a number is 1 or twice another. */
  lemma PowerOf2Half(n: nat)
    requires PowerOf2(n) && n != 1
    ensures n % 2 == 0 && n / 2 > 0 && PowerOf2(n / 2)
  {
    if n % 2 == 1 {
      assert (n - 1) / 2 == n / 2;
      AndSelf(n / 2);
    } else {
      assert (n - 1) / 2 == n / 2 - 1;
    }
  }

  lemma PositivePower(b: nat)
    requires PowerOf2(b)
    ensures b > 0
  {
  }

  lemma AndZero(n: nat, b: nat)
    requires n == 0 || b == 0
    ensures And(n, b) == 0
  {
  }

  lemma SmallMod(n: nat, b: nat)
    requires b == 1 || n == 0 < b
    ensures n % b == 0
  {
  }

  lemma AndOdd(n: nat, h: nat)
    requires n > 0 && h > 0
    ensures And(n, 2 * h - 1) == 2 * And(n / 2, h - 1) + n % 2
  {
    assert (2 * h - 1) / 2 == h - 1 && (2 * h - 1) % 2 == 1;
  }

  lemma HalfMod(n: nat, h: nat)
    requires h > 0
    ensures n % (2 * h) == 2 * (n / 2 % h) + n % 2
  {
    var q, r := n / 2 / h, n / 2 % h;
    assert n / 2 == q * h + r;
    assert n == q * (2 * h) + (2 * r + n % 2);
    ModUnique(2 * h, n, q, 2 * r + n % 2);
  }

  /** The mask `b - 1` takes the remainder of a division by `b`, because `b` is a power of two. */
  lemma {:induction false} MaskIsMod(n: nat, b: nat)
    requires PowerOf2(b)
    ensures And(n, b - 1) == n % b
    decreases b
  {
    hide And, PowerOf2;
    PositivePower(b);
    if b == 1 || n == 0 {
      AndZero(n, b - 1);
      SmallMod(n, b);
    } else {
      PowerOf2Half(b);
      MaskIsMod(n / 2, b / 2);
      AndOdd(n, b / 2);
      HalfMod(n, b / 2);
    }
  }

  // ----- backwards ---------------------------------------------------------

  lemma WholeRest(bsize: nat, pos: nat, w: nat)
    requires bsize > 0 && Whole(bsize, pos) == pos && Whole(bsize, w) == w && pos + bsize <= w
    ensures Whole(bsize, w - pos) == w - pos && Whole(bsize, w - pos - bsize) == w - pos - bsize
  {
    WholeSum(bsize, pos, w - pos);
    WholeStep(bsize, w - pos);
  }

  /** The buffer when the blocks of `x` after the one at `pos` are decrypted, up to `w`. */
  ghost function Behind(c: Cipher, buf: Bytes, s: nat, x: Bytes, w: nat, pos: nat): (r: Bytes)
    requires c.Sized() && Whole(c.bsize, pos) == pos && Whole(c.bsize, w) == w
    requires pos + c.bsize <= w <= |x| && s + |x| <= |buf|
    ensures |r| == |buf|
  {
    WholeRest(c.bsize, pos, w);
    Put(buf, s + pos + c.bsize, Decrypt(c, x[pos..pos + c.bsize], x[pos + c.bsize..w]))
  }

  /** A whole number of blocks less than one is none. */
  lemma SmallWhole(bsize: nat, n: nat)
    requires bsize > 0 && Whole(bsize, n) == n
    ensures n < bsize ==> n == 0
    ensures n >= bsize ==> Whole(bsize, n - bsize) == n - bsize
  {
  }

  /** With the block at `pos` mixed with `prev`, everything from there on is decrypted. */
  lemma BackOne(c: Cipher, buf: Bytes, s: nat, x: Bytes, w: nat, pos: nat, prev: Bytes)
    requires c.Sized() && Whole(c.bsize, pos) == pos && Whole(c.bsize, w) == w
    requires pos + c.bsize <= w <= |x| && s + |x| <= |buf|
    requires |prev| == c.bsize
    ensures |c.dec(x[pos..pos + c.bsize])| == c.bsize && |Decrypt(c, prev, x[pos..w])| == w - pos
    ensures Put(Behind(c, buf, s, x, w, pos), s + pos, Xor(c.dec(x[pos..pos + c.bsize]), prev)) ==
            Put(buf, s + pos, Decrypt(c, prev, x[pos..w]))
  {
    hide Put, Decrypt, Xor, Whole;
    WholeRest(c.bsize, pos, w);
    var bs, y := c.bsize, x[pos..w];
    assert y[..bs] == x[pos..pos + bs] && y[bs..] == x[pos + bs..w];
    DecryptStep(c, prev, y);
    PutBefore(buf, s + pos, Xor(c.dec(x[pos..pos + bs]), prev), Decrypt(c, x[pos..pos + bs], x[pos + bs..w]));
  }

  /** What the loop finds, and what it leaves for the block before. */
  lemma BackNext(c: Cipher, buf: Bytes, s: nat, x: Bytes, w: nat, pos: nat)
    requires c.Sized() && Whole(c.bsize, pos) == pos && Whole(c.bsize, w) == w
    requires pos + c.bsize <= w <= |x| && s + |x| <= |buf|
    requires x == buf[s..s + |x|]
    ensures var bs, now := c.bsize, Behind(c, buf, s, x, w, pos);
      && |c.dec(x[pos..pos + bs])| == bs
      && now[s + pos..s + pos + bs] == x[pos..pos + bs]
      && (pos >= bs ==>
        && Whole(bs, pos - bs) == pos - bs
        && now[s + pos - bs..s + pos] == x[pos - bs..pos]
        && Put(now, s + pos, Xor(c.dec(x[pos..pos + bs]), x[pos - bs..pos])) == Behind(c, buf, s, x, w, pos - bs))
  {
    hide Put, Decrypt, Xor, Whole;
    var bs := c.bsize;
    WholeRest(bs, pos, w);
    var rest := Decrypt(c, x[pos..pos + bs], x[pos + bs..w]);
    SliceSlice(buf, s, |x|, pos, bs);
    PutElsewhere(buf, s + pos + bs, rest, s + pos, s + pos + bs);
    if pos >= bs {
      SmallWhole(bs, pos);
      SliceSlice(buf, s, |x|, pos - bs, bs);
      PutElsewhere(buf, s + pos + bs, rest, s + pos - bs, s + pos);
      BackOne(c, buf, s, x, w, pos, x[pos - bs..pos]);
    }
  }

  /** The block at `pos`, decrypted in place */
  method DecryptHere(c: Cipher, buf: array<bv8>, s: nat, pos: nat, ghost buf0: Bytes, ghost x: Bytes, ghost w: nat)
    requires c.Sized() && Whole(c.bsize, pos) == pos && Whole(c.bsize, w) == w && pos + c.bsize <= w <= |x|
    requires s + |x| <= |buf0| == buf.Length && x == buf0[s..s + |x|] && buf[..] == Behind(c, buf0, s, x, w, pos)
    modifies buf
    ensures |c.dec(x[pos..pos + c.bsize])| == c.bsize
    ensures buf[..] == Put(Behind(c, buf0, s, x, w, pos), s + pos, c.dec(x[pos..pos + c.bsize]))
  {
    hide Put, Decrypt, Xor, Whole, Behind;
    BackNext(c, buf0, s, x, w, pos);
    ghost var now := buf[..];
    assert buf[s + pos..s + pos + c.bsize] == now[s + pos..s + pos + c.bsize];
    CipherBlock(c.dec, c.bsize, buf, s + pos, buf, s + pos);
  }

  /** crypto_xor of a block just written */
  method XorAt(buf: array<bv8>, at: nat, other: array<bv8>, o: nat, bsize: nat, ghost now: Bytes, ghost m: Bytes)
    requires at + bsize <= buf.Length && o + bsize <= other.Length && |now| == buf.Length && |m| == bsize
    requires buf[..] == Put(now, at, m) && (buf != other || o + bsize <= at)
    modifies buf
    ensures buf[..] == Put(now, at, Xor(m, old(other[o..o + bsize])))
  {
    hide Put, Xor;
    ghost var y := other[o..o + bsize];
    PutRead(now, at, m);
    assert buf[at..at + bsize] == buf[..][at..at + bsize] == m;
    CryptoXor(buf, at, other, o, bsize);
    PutAgain(now, at, m, Xor(m, y));
  }

  /** ... and mixed with the ciphertext before it */
  method MixBefore(c: Cipher, buf: array<bv8>, s: nat, pos: nat, ghost buf0: Bytes, ghost x: Bytes, ghost w: nat)
    requires c.Sized() && Whole(c.bsize, pos) == pos && Whole(c.bsize, w) == w
    requires c.bsize <= pos <= w - c.bsize <= |x| - c.bsize
    requires s + |x| <= |buf0| == buf.Length && x == buf0[s..s + |x|] && |c.dec(x[pos..pos + c.bsize])| == c.bsize
    requires buf[..] == Put(Behind(c, buf0, s, x, w, pos), s + pos, c.dec(x[pos..pos + c.bsize]))
    modifies buf
    ensures Whole(c.bsize, pos - c.bsize) == pos - c.bsize && buf[..] == Behind(c, buf0, s, x, w, pos - c.bsize)
  {
    hide Put, Decrypt, Xor, Whole, Behind;
    var bs := c.bsize;
    ghost var now, m := Behind(c, buf0, s, x, w, pos), c.dec(x[pos..pos + bs]);
    BackNext(c, buf0, s, x, w, pos);
    PutElsewhere(now, s + pos, m, s + pos - bs, s + pos);
    assert buf[s + pos - bs..s + pos] == buf[..][s + pos - bs..s + pos];
    XorAt(buf, s + pos, buf, s + pos - bs, bs, now, m);
  }

  lemma BackStart(c: Cipher, buf: Bytes, s: nat, x: Bytes, w: nat)
    requires c.Sized() && c.bsize <= w <= |x| && s + |x| <= |buf|
    requires Whole(c.bsize, w - c.bsize) == w - c.bsize && Whole(c.bsize, w) == w
    ensures Behind(c, buf, s, x, w, w - c.bsize) == buf
  {
    hide Decrypt, Put, Whole;
    NoBlock(c, x[w - c.bsize..w], x[w..w]);
    PutNothing(buf, s + w);
  }

  lemma BackEnd(c: Cipher, buf: Bytes, s: nat, x: Bytes, w: nat, iv: Bytes)
    requires c.Sized() && Whole(c.bsize, w) == w && c.bsize <= w <= |x| && s + |x| <= |buf| && |iv| == c.bsize
    ensures Whole(c.bsize, 0) == 0
    ensures |c.dec(x[0..c.bsize])| == c.bsize && |Decrypt(c, iv, x[0..w])| == w
    ensures Put(Behind(c, buf, s, x, w, 0), s, Xor(c.dec(x[0..c.bsize]), iv)) == Put(buf, s, Decrypt(c, iv, x[0..w]))
  {
    hide Put, Decrypt, Xor, Behind;
    BackOne(c, buf, s, x, w, 0, iv);
  }

  /** Its loop, and the exclusive or with the IV after it */
  method Backwards(c: Cipher, buf: array<bv8>, s: nat, iv: array<bv8>, nbytes: nat, start: nat) returns (left: nat)
    requires c.Sized() && iv.Length == c.bsize && s + nbytes <= buf.Length && iv != buf
    requires start + c.bsize == Whole(c.bsize, nbytes) && Whole(c.bsize, start) == start
    modifies buf
    ensures left == nbytes - Whole(c.bsize, nbytes)
    ensures buf[..] == Put(old(buf[..]), s, Decrypt(c, iv[..], old(buf[s..s + nbytes])[0..start + c.bsize]))
  {
    hide Put, Decrypt, Xor, Whole, Behind;
    var bs := c.bsize;
    ghost var buf0, x, w := buf[..], buf[s..s + nbytes], start + bs;
    WholeWhole(bs, nbytes);
    BackStart(c, buf0, s, x, w);
    left := nbytes;
    var pos: nat := start;
    while true
      invariant Whole(bs, pos) == pos && pos + bs <= w && left == pos + bs + (nbytes - w)
      invariant buf[..] == Behind(c, buf0, s, x, w, pos)
      decreases pos
    {
      SmallWhole(bs, pos);
      DecryptHere(c, buf, s, pos, buf0, x, w);
      left := left - bs;
      if left < bs {
        break;
      }
      MixBefore(c, buf, s, pos, buf0, x, w);
      pos := pos - bs;
    }
    BackEnd(c, buf0, s, x, w, iv[..]);
    assert iv[0..bs] == iv[..];
    XorAt(buf, s + pos, iv, 0, bs, Behind(c, buf0, s, x, w, 0), c.dec(x[0..bs]));
  }

  method CopyOut(dst: array<bv8>, src: array<bv8>, s: nat, n: nat)
    requires dst.Length == n && s + n <= src.Length && dst != src
    modifies dst
    ensures dst[..] == src[s..s + n]
  {
    hide Put;
    ghost var before := dst[..];
    MemCpy(dst, 0, src, s, n);
    PutAll(before, src[s..s + n]);
  }

  lemma LastStep(bsize: nat, iv: Bytes, x: Bytes)
    requires 0 < bsize <= |x| && |iv| == bsize
    ensures LastBlock(bsize, iv, x) == LastBlock(bsize, x[..bsize], x[bsize..])
  {
  }

  lemma LastNone(bsize: nat, iv: Bytes, x: Bytes)
    requires |x| < bsize == |iv|
    ensures LastBlock(bsize, iv, x) == iv
  {
  }

  lemma NoWhole(bsize: nat, n: nat)
    requires n < bsize
    ensures Whole(bsize, n) == 0 && Whole(bsize, 0) == 0
  {
  }

  lemma {:induction false} LastIs(bsize: nat, iv: Bytes, x: Bytes)
    requires 0 < bsize <= |x| && |iv| == bsize
    ensures var w := Whole(bsize, |x|);
      w >= bsize && Whole(bsize, w - bsize) == w - bsize && LastBlock(bsize, iv, x) == x[w - bsize..w]
    decreases |x|
  {
    hide LastBlock, Whole;
    LastStep(bsize, iv, x);
    WholeStep(bsize, |x|);
    var w := Whole(bsize, |x|);
    if |x| - bsize < bsize {
      NoWhole(bsize, |x| - bsize);
      LastNone(bsize, x[..bsize], x[bsize..]);
    } else {
      LastIs(bsize, x[..bsize], x[bsize..]);
      WholeWhole(bsize, |x|);
      WholeStep(bsize, w - bsize);
      WholeStep(bsize, w);
      assert x[bsize..][w - bsize - bsize..w - bsize] == x[w - bsize..w] by {
        SliceSlice(x, bsize, |x| - bsize, w - bsize - bsize, bsize);
      }
    }
  }

  lemma DecryptWhole(c: Cipher, iv: Bytes, x: Bytes)
    requires c.Sized() && |iv| == c.bsize
    ensures Decrypt(c, iv, x[0..Whole(c.bsize, |x|)]) == Decrypt(c, iv, x)
  {
    hide Decrypt, Whole, LastBlock;
    assert x[0..Whole(c.bsize, |x|)] == x[..Whole(c.bsize, |x|)];
    TailIgnored(c, iv, x);
  }

  /** crypto_cbc_decrypt_inplace: from the last block to the first, so that each still finds the one before. */
  method DecryptInplace(c: Cipher, buf: array<bv8>, s: nat, iv: array<bv8>, nbytes: nat) returns (left: nat)
    requires c.Sized() && PowerOf2(c.bsize)
    requires iv.Length == c.bsize && nbytes >= c.bsize && s + nbytes <= buf.Length && iv != buf
    modifies buf, iv
    ensures left == nbytes - Whole(c.bsize, nbytes)
    ensures buf[..] == Put(old(buf[..]), s, Decrypt(c, old(iv[..]), old(buf[s..s + nbytes])))
    ensures iv[..] == LastBlock(c.bsize, old(iv[..]), old(buf[s..s + nbytes]))
  {
    hide Put, Decrypt, Xor, Whole, LastBlock, And, PowerOf2;
    var bs := c.bsize;
    ghost var iv0, buf0, x := iv[..], buf[..], buf[s..s + nbytes];
    MaskIsMod(nbytes, bs);
    WholeIs(bs, nbytes);
    LastIs(bs, iv0, x);
    DecryptWhole(c, iv0, x);
    var start := nbytes - And(nbytes, bs - 1) - bs;
    var lastIv := new bv8[bs];
    SliceSlice(buf0, s, nbytes, start, bs);
    assert buf[s + start..s + start + bs] == buf0[s + start..s + start + bs];
    CopyOut(lastIv, buf, s + start, bs);
    left := Backwards(c, buf, s, iv, nbytes, start);
    CopyOut(iv, lastIv, 0, bs);
  }

  // ----- the walks ---------------------------------------------------------

  /** What the walk over the scatterlists offers next, and whether source and destination coincide. */
  datatype Chunk = Chunk(nbytes: nat, inPlace: bool)

  /** Never less than a block, never more than is left. */
  function Offered(want: nat, bsize: nat, rest: nat): (n: nat)
    requires 0 < bsize <= rest
    ensures bsize <= n <= rest
  {
    if want < bsize then bsize else if want > rest then rest else want
  }

  /** One chunk more: `n` bytes are offered, of which the whole blocks are taken. */
  lemma EncryptChunk(c: Cipher, iv: Bytes, msg: Bytes, k: nat, n: nat)
    requires c.Sized() && |iv| == c.bsize && Whole(c.bsize, k) == k && k + n <= |msg|
    ensures var done := Encrypt(c, iv, msg[..k]);
      var last, w := LastBlock(c.bsize, iv, done), Whole(c.bsize, n);
      var more := Encrypt(c, last, msg[k..k + n]);
      && Encrypt(c, iv, msg[..k + w]) == done + more
      && LastBlock(c.bsize, iv, done + more) == LastBlock(c.bsize, last, more)
      && Whole(c.bsize, k + w) == k + w
  {
    hide Encrypt, Whole, LastBlock;
    var w := Whole(c.bsize, n);
    var done := Encrypt(c, iv, msg[..k]);
    var last := LastBlock(c.bsize, iv, done);
    EncryptParts(c, iv, msg[..k], msg[k..k + w]);
    assert msg[..k] + msg[k..k + w] == msg[..k + w];
    TailIgnored(c, last, msg[k..k + n]);
    assert msg[k..k + n][..w] == msg[k..k + w];
    LastParts(c.bsize, iv, done, Encrypt(c, last, msg[k..k + n]));
    WholeWhole(c.bsize, n);
    WholeSum(c.bsize, k, w);
  }

  lemma DecryptChunk(c: Cipher, iv: Bytes, msg: Bytes, k: nat, n: nat)
    requires c.Sized() && |iv| == c.bsize && Whole(c.bsize, k) == k && k + n <= |msg|
    ensures var last, w := LastBlock(c.bsize, iv, msg[..k]), Whole(c.bsize, n);
      && Decrypt(c, iv, msg[..k + w]) == Decrypt(c, iv, msg[..k]) + Decrypt(c, last, msg[k..k + n])
      && LastBlock(c.bsize, iv, msg[..k + w]) == LastBlock(c.bsize, last, msg[k..k + n])
      && Whole(c.bsize, k + w) == k + w
  {
    hide Decrypt, Whole, LastBlock;
    var w := Whole(c.bsize, n);
    var last := LastBlock(c.bsize, iv, msg[..k]);
    DecryptParts(c, iv, msg[..k], msg[k..k + w]);
    LastParts(c.bsize, iv, msg[..k], msg[k..k + w]);
    assert msg[..k] + msg[k..k + w] == msg[..k + w];
    TailIgnored(c, last, msg[k..k + n]);
    assert msg[k..k + n][..w] == msg[k..k + w];
    WholeWhole(c.bsize, n);
    WholeSum(c.bsize, k, w);
  }

  /** One round of crypto_cbc_encrypt on a chunk in memory of its own */
  method EncryptRound(c: Cipher, iv: array<bv8>, chunk: Bytes, inPlace: bool) returns (out: Bytes)
    requires c.Sized() && iv.Length == c.bsize <= |chunk|
    modifies iv
    ensures out == Encrypt(c, old(iv[..]), chunk) && iv[..] == LastBlock(c.bsize, old(iv[..]), out)
  {
    hide Encrypt, Whole, LastBlock, Put;
    var n := |chunk|;
    var src := new bv8[n](i requires 0 <= i < n => chunk[i]);
    assert src[..] == src[0..n] == chunk;
    var left;
    if inPlace {
      PutRead(chunk, 0, Encrypt(c, iv[..], chunk));
      left := EncryptInplace(c, src, 0, iv, n);
      out := src[..n - left];
    } else {
      var dst := new bv8[n];
      PutRead(dst[..], 0, Encrypt(c, iv[..], chunk));
      left := EncryptSegment(c, src, 0, dst, 0, iv, n);
      out := dst[..n - left];
    }
  }

  method DecryptRound(c: Cipher, iv: array<bv8>, chunk: Bytes, inPlace: bool) returns (out: Bytes)
    requires c.Sized() && PowerOf2(c.bsize) && iv.Length == c.bsize <= |chunk|
    modifies iv
    ensures out == Decrypt(c, old(iv[..]), chunk) && iv[..] == LastBlock(c.bsize, old(iv[..]), chunk)
  {
    hide Decrypt, Whole, LastBlock, Put, PowerOf2;
    var n := |chunk|;
    var src := new bv8[n](i requires 0 <= i < n => chunk[i]);
    assert src[..] == src[0..n] == chunk;
    var left;
    if inPlace {
      PutRead(chunk, 0, Decrypt(c, iv[..], chunk));
      left := DecryptInplace(c, src, 0, iv, n);
      out := src[..n - left];
    } else {
      var dst := new bv8[n];
      PutRead(dst[..], 0, Decrypt(c, iv[..], chunk));
      left := DecryptSegment(c, src, 0, dst, 0, iv, n);
      out := dst[..n - left];
    }
  }

  /**
   * crypto_cbc_encrypt: however the walk cuts the message into chunks, the result
   * is that of the whole message, and there is an error exactly if bytes are left.
   */
  method EncryptMessage(c: Cipher, iv: array<bv8>, msg: Bytes, plan: nat -> Chunk) returns (out: Bytes, err: bool)
    requires c.Sized() && iv.Length == c.bsize
    modifies iv
    ensures out == Encrypt(c, old(iv[..]), msg) && iv[..] == LastBlock(c.bsize, old(iv[..]), out)
    ensures err <==> |msg| % c.bsize != 0
  {
    hide Encrypt, Whole, LastBlock;
    ghost var iv0 := iv[..];
    out := [];
    var step := 0;
    StartWhole(c, iv0, msg);
    while |msg| - |out| >= c.bsize
      invariant |out| <= |msg| && Whole(c.bsize, |out|) == |out|
      invariant out == Encrypt(c, iv0, msg[..|out|]) && iv[..] == LastBlock(c.bsize, iv0, out)
      decreases |msg| - |out|
    {
      var n := Offered(plan(step).nbytes, c.bsize, |msg| - |out|);
      EncryptChunk(c, iv0, msg, |out|, n);
      WholeStep(c.bsize, n);
      var more := EncryptRound(c, iv, msg[|out|..|out| + n], plan(step).inPlace);
      out := out + more;
      step := step + 1;
    }
    AllWhole(c.bsize, |out|, |msg| - |out|);
    TailIgnored(c, iv0, msg);
    WholeIs(c.bsize, |msg|);
    err := |out| != |msg|;
  }

  /** crypto_cbc_decrypt */
  method DecryptMessage(c: Cipher, iv: array<bv8>, msg: Bytes, plan: nat -> Chunk) returns (out: Bytes, err: bool)
    requires c.Sized() && PowerOf2(c.bsize) && iv.Length == c.bsize
    modifies iv
    ensures out == Decrypt(c, old(iv[..]), msg) && iv[..] == LastBlock(c.bsize, old(iv[..]), msg)
    ensures err <==> |msg| % c.bsize != 0
  {
    hide Decrypt, Whole, LastBlock, PowerOf2;
    ghost var iv0 := iv[..];
    out := [];
    var step := 0;
    StartWhole(c, iv0, msg);
    while |msg| - |out| >= c.bsize
      invariant |out| <= |msg| && Whole(c.bsize, |out|) == |out|
      invariant out == Decrypt(c, iv0, msg[..|out|]) && iv[..] == LastBlock(c.bsize, iv0, msg[..|out|])
      decreases |msg| - |out|
    {
      var n := Offered(plan(step).nbytes, c.bsize, |msg| - |out|);
      DecryptChunk(c, iv0, msg, |out|, n);
      WholeStep(c.bsize, n);
      var more := DecryptRound(c, iv, msg[|out|..|out| + n], plan(step).inPlace);
      out := out + more;
      step := step + 1;
    }
    AllWhole(c.bsize, |out|, |msg| - |out|);
    TailIgnored(c, iv0, msg);
    WholeIs(c.bsize, |msg|);
    err := |out| != |msg|;
  }
}
