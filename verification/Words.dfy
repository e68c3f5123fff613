/** Bytes and little-endian 64-bit words in memory. */
module Words {
  import opened Bits

  type byte = b: int | 0 <= b < 0x100

  const WORD_MAX: nat := 0x1_0000_0000_0000_0000

  type u64 = w: int | 0 <= w < 0x1_0000_0000_0000_0000

  /** Pointer addition in 64 bits. */
  function Add64(a: u64, b: u64): u64
  {
    (a + b) % WORD_MAX
  }

  function Sub64(a: u64, b: u64): u64
  {
    (a - b) % WORD_MAX
  }

  /** Moving a pointer by the difference of two bases moves it from one base to the other, whether
      or not the difference wraps around. */
  lemma RebaseExact(from: u64, to: u64, off: nat)
    requires from + off < WORD_MAX && to + off < WORD_MAX
    ensures Add64(from + off, Sub64(to, from)) == to + off
  {
  }

  function Power256(n: nat): (p: nat)
    ensures p > 0
  {
    if n == 0 then 1 else 256 * Power256(n - 1)
  }

  /** Little-endian digits. */
  function ToBytes(w: nat, n: nat): (s: seq<byte>)
    ensures |s| == n
  {
    seq(n, i requires 0 <= i < n => (w / Power256(i)) % 256)
  }

  lemma DivDiv(w: nat, p: nat)
    requires p > 0
    ensures w / (256 * p) == (w / 256) / p
  {
    var a, r := w / 256, w % 256;
    var q, t := a / p, a % p;
    assert a == q * p + t;
    assert w == 256 * p * q + (256 * t + r);
    ModIs(w, 256 * p, q, 256 * t + r);
  }

  lemma ToBytesTail(w: nat, n: nat)
    requires n > 0
    ensures ToBytes(w, n)[0] == w % 256
    ensures ToBytes(w, n)[1..] == ToBytes(w / 256, n - 1)
  {
    forall i | 1 <= i < n ensures ToBytes(w, n)[i] == ToBytes(w / 256, n - 1)[i - 1] {
      DivDiv(w, Power256(i - 1));
    }
  }

  function FromBytes(s: seq<byte>): (w: nat)
    ensures w < Power256(|s|)
  {
    if s == [] then 0 else s[0] + 256 * FromBytes(s[1..])
  }

  lemma {:induction false} FromTo(w: nat, n: nat)
    requires w < Power256(n)
    ensures FromBytes(ToBytes(w, n)) == w
  {
    if n > 0 {
      ToBytesTail(w, n);
      FromTo(w / 256, n - 1);
    }
  }

  lemma WordRange()
    ensures Power256(8) == WORD_MAX
  {
    assert Power256(2) == 0x1_0000;
    assert Power256(4) == 0x1_0000_0000;
    assert Power256(6) == 0x1_0000_0000_0000;
  }

  /** The eight bytes of a word, and the word in eight bytes. */
  function Bytes(w: u64): (s: seq<byte>)
    ensures |s| == 8
  {
    ToBytes(w, 8)
  }

  function WordAt(m: seq<byte>, off: nat): u64
    requires off + 8 <= |m|
  {
    WordRange();
    FromBytes(m[off..off + 8])
  }

  lemma WordHas(m: seq<byte>, off: nat, w: u64)
    requires HasAt(m, off, Bytes(w))
    ensures WordAt(m, off) == w
  {
    WordRange();
    FromTo(w, 8);
  }

  /** Overwriting part of a memory, byte by byte. */
  function Put(m: seq<byte>, off: nat, b: seq<byte>): (r: seq<byte>)
    requires off + |b| <= |m|
    ensures |r| == |m|
    decreases |b|
  {
    if b == [] then m else Put(m[off := b[0]], off + 1, b[1..])
  }

  lemma {:induction false} PutBytes(m: seq<byte>, off: nat, b: seq<byte>)
    requires off + |b| <= |m|
    ensures forall i :: 0 <= i < |m| ==>
      Put(m, off, b)[i] == if off <= i < off + |b| then b[i - off] else m[i]
    decreases |b|
  {
    if b != [] {
      PutBytes(m[off := b[0]], off + 1, b[1..]);
    }
  }

  lemma PutAway(m: seq<byte>, off: nat, b: seq<byte>, at: nat, n: nat)
    requires off + |b| <= |m| && at + n <= |m|
    requires at + n <= off || off + |b| <= at
    ensures Put(m, off, b)[at..at + n] == m[at..at + n]
  {
    PutBytes(m, off, b);
  }

  lemma PutHas(m: seq<byte>, off: nat, b: seq<byte>)
    requires off + |b| <= |m|
    ensures HasAt(Put(m, off, b), off, b)
  {
    PutBytes(m, off, b);
  }

  lemma PutPrefixKept(m: seq<byte>, off: nat, b: seq<byte>)
    requires off + |b| <= |m|
    ensures Put(m, off, b)[..off] == m[..off]
  {
    PutBytes(m, off, b);
  }

  lemma WordPut(m: seq<byte>, off: nat, w: u64)
    requires off + 8 <= |m|
    ensures WordAt(Put(m, off, Bytes(w)), off) == w
  {
    PutHas(m, off, Bytes(w));
    WordHas(Put(m, off, Bytes(w)), off, w);
  }

  lemma SliceSlice(s: seq<byte>, a: nat, b: nat, o: nat, n: nat)
    requires a <= b <= |s| && o + n <= b - a
    ensures s[a..b][o..o + n] == s[a + o..a + o + n]
  {
    var x, y := s[a..b][o..o + n], s[a + o..a + o + n];
    assert |x| == |y|;
    forall i | 0 <= i < n ensures x[i] == y[i] {
    }
  }

  /** `x` is found at offset `o` of `s`. */
  ghost predicate HasAt(s: seq<byte>, o: nat, x: seq<byte>)
  {
    o + |x| <= |s| && s[o..o + |x|] == x
  }
}
