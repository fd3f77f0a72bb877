/** Bits of a byte, numbered from the most significant one (index 0) to the
    least significant one (index 7): the order in which the bit streams lay
    bits out. Every fact about a shift by an amount that the source computes
    from an integer goes through the small lemmas below. */
module Bits {

  /** A uint8_t value read as a number: a symbol, or a code's bit length. */
  type Uint8 = x: int | 0 <= x < 256

  /** Bit `k` of `b`, counting from the most significant bit. */
  predicate BitAt(b: bv8, k: nat)
    requires k < 8
  {
    match k
    case 0 => b & 0x80 != 0
    case 1 => b & 0x40 != 0
    case 2 => b & 0x20 != 0
    case 3 => b & 0x10 != 0
    case 4 => b & 0x08 != 0
    case 5 => b & 0x04 != 0
    case 6 => b & 0x02 != 0
    case _ => b & 0x01 != 0
  }

  /** A byte is determined by its eight bits. */
  lemma BitsDetermineByte(x: bv8, y: bv8)
    requires forall k :: 0 <= k < 8 ==> BitAt(x, k) == BitAt(y, k)
    ensures x == y
  {
    assert BitAt(x, 0) == BitAt(y, 0) && BitAt(x, 1) == BitAt(y, 1);
    assert BitAt(x, 2) == BitAt(y, 2) && BitAt(x, 3) == BitAt(y, 3);
    assert BitAt(x, 4) == BitAt(y, 4) && BitAt(x, 5) == BitAt(y, 5);
    assert BitAt(x, 6) == BitAt(y, 6) && BitAt(x, 7) == BitAt(y, 7);
  }

  lemma ZeroBits(k: nat)
    requires k < 8
    ensures !BitAt(0, k)
  {
  }

  /** A bit count from 0 to 8 as the uint8_t shift amount computed from it. */
  function Amount(n: nat): (r: bv8)
    requires n <= 8
    ensures r <= 8 && (n < 8 ==> r < 8)
  {
    match n
    case 0 => 0
    case 1 => 1
    case 2 => 2
    case 3 => 3
    case 4 => 4
    case 5 => 5
    case 6 => 6
    case 7 => 7
    case _ => 8
  }

  /** A logical right shift moves bit `k - s` to bit `k` and fills with zeros. */
  lemma ShrBit(x: bv8, s: nat, k: nat)
    requires s <= 8 && k < 8
    ensures BitAt(x >> Amount(s), k) == (k >= s && BitAt(x, k - s))
  {
  }

  /** A left shift by 8 - s moves bit `k + 8 - s` to bit `k`; what falls off the
      top is lost. */
  lemma ShlBit(x: bv8, s: nat, k: nat)
    requires s <= 8 && k < 8
    ensures BitAt(x << (8 - Amount(s)), k) == (k < s && BitAt(x, k + 8 - s))
  {
  }

  lemma OrBit(x: bv8, y: bv8, k: nat)
    requires k < 8
    ensures BitAt(x | y, k) == (BitAt(x, k) || BitAt(y, k))
  {
  }

  /** A code value fits in `len` bits: nothing is set above its low `len` bits. */
  predicate Fits(code: bv8, len: nat)
    requires len <= 8
  {
    code >> Amount(len) == 0
  }

  /** The `len`-bit code held in the low bits of `code`, most significant bit first. */
  function CodeBits(code: bv8, len: nat): (r: seq<bool>)
    requires len <= 8
    ensures |r| == len
  {
    seq(len, t requires 0 <= t < len => BitAt(code, 8 - len + t))
  }

  /** A code that fits in `len` bits has no bit set before its `len` code bits. */
  lemma FitsHighBits(code: bv8, len: nat, k: nat)
    requires len <= 8 && Fits(code, len) && k < 8 - len
    ensures !BitAt(code, k)
  {
    ShrBit(code, len, k + len);
    ZeroBits(k + len);
  }

  /** Appending one path bit to a code, as `(path << 1) | bit` does, appends that
      bit to the code's bit sequence. */
  lemma ExtendCode(code: bv8, len: nat, bit: bv8)
    requires len < 8 && Fits(code, len) && (bit == 0 || bit == 1)
    ensures Fits((code << 1) | bit, len + 1)
    ensures CodeBits((code << 1) | bit, len + 1) == CodeBits(code, len) + [bit == 1]
  {
    var c := (code << 1) | bit;
    FitsShiftLeft(code, bit, len);
    var lhs, rhs := CodeBits(c, len + 1), CodeBits(code, len) + [bit == 1];
    forall t | 0 <= t < len + 1 ensures lhs[t] == rhs[t] {
      var k := 8 - (len + 1) + t;
      OrBit(code << 1, bit, k);
      ShiftOneBit(code, k);
      if t == len {
        assert k == 7;
      }
    }
    assert lhs == rhs;
  }

  /** A left shift by one, as in `path << 1`. */
  lemma ShiftOneBit(x: bv8, k: nat)
    requires k < 8
    ensures BitAt(x << 1, k) == (k < 7 && BitAt(x, k + 1))
  {
  }

  lemma FitsShiftLeft(code: bv8, bit: bv8, len: nat)
    requires len < 8 && Fits(code, len) && (bit == 0 || bit == 1)
    ensures Fits((code << 1) | bit, len + 1)
  {
  }
  /** The byte that bitstream_append writes between two source bytes: the tail
      of `a` (its last `sh` bits) followed by the head of `b`. */
  lemma JoinBit(a: bv8, b: bv8, sh: nat, k: nat)
    requires sh < 8 && k < 8
    ensures BitAt((a << (8 - Amount(sh))) | (b >> Amount(sh)), k)
         == if k < sh then BitAt(a, k + 8 - sh) else BitAt(b, k - sh)
  {
    OrBit(a << (8 - Amount(sh)), b >> Amount(sh), k);
    ShlBit(a, sh, k);
    ShrBit(b, sh, k);
  }

  /** The head of `b` OR'ed in after the first `sh` bits of `a`. */
  lemma HeadBit(a: bv8, b: bv8, sh: nat, k: nat)
    requires sh <= 8 && k < 8
    ensures BitAt(a | (b >> Amount(sh)), k) == (BitAt(a, k) || (k >= sh && BitAt(b, k - sh)))
  {
    OrBit(a, b >> Amount(sh), k);
    ShrBit(b, sh, k);
  }
}
