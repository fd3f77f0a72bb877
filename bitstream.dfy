/** The bit-granular output stream (struct bitstream): a fixed-capacity byte
    buffer written bit by bit, most significant bit of each byte first.
    serial_compression.c and parallel_compression.c each define it; the two
    definitions of bitstream_new and bitstream_push_chunk are identical and
    are modelled once here, together with bitstream_append, which only the
    parallel file has. */
module BitStreams {
  import opened Bits

  /** Bit `i` of a buffer read as one string of bits. */
  predicate Bit(buf: seq<bv8>, i: nat)
    requires i < 8 * |buf|
  {
    BitAt(buf[i / 8], i % 8)
  }

  /** The first `n` bits of a buffer. */
  function BitsOf(buf: seq<bv8>, n: nat): (r: seq<bool>)
    requires n <= 8 * |buf|
    ensures |r| == n
  {
    seq(n, i requires 0 <= i < n => Bit(buf, i))
  }

  /** Every bit of the buffer from position `n` on is clear. */
  ghost predicate ClearFrom(buf: seq<bv8>, n: nat)
  {
    forall i :: n <= i < 8 * |buf| ==> !Bit(buf, i)
  }

  /** Number of bytes that hold `bits` bits (q_size in bitstream_append). */
  function ByteCount(bits: nat): nat
  {
    if bits % 8 == 0 then bits / 8 else bits / 8 + 1
  }

  // ---------------------------------------------------------------------------
  // The byte-level shapes both bitstream_push_chunk and bitstream_append write

  /** The byte holding a stream's offset, with the head of `b` OR'ed in after
      its first `shift` bits. */
  function Head(a: bv8, b: bv8, shift: bv8): bv8
    requires shift < 8
  {
    a | (b >> shift)
  }

  /** The tail of `a` followed by the head of `b`; the left shift of a uint8_t
      by 8 - shift keeps only the low eight bits once stored. */
  function Join(a: bv8, b: bv8, shift: bv8): bv8
    requires shift < 8
  {
    (a << (8 - shift)) | (b >> shift)
  }

  /** The tail of `a` moved to the top of a byte. */
  function Tail(a: bv8, shift: bv8): bv8
    requires shift < 8
  {
    a << (8 - shift)
  }

  // ---------------------------------------------------------------------------
  // bitstream_push_chunk as a function on the buffer

  /** The 16-bit window of bitstream_push_chunk: the current byte in the high
      half, OR'ed with the chunk moved to the top of 16 bits and shifted right
      by the bit offset within the byte. The shift is computed on an int and
      then truncated to uint16_t. */
  function Window(lastByte: bv8, chunk: bv8, offsetWithinByte: bv8, bitLength: bv8): bv16
    requires offsetWithinByte < 8 && bitLength <= 8
  {
    var expandedOriginalByte := (lastByte as bv16) << 8;
    var expandedAndShiftedChunk := ((((chunk as bv32) << (16 - bitLength)) >> offsetWithinByte) & 0xFFFF) as bv16;
    expandedOriginalByte | expandedAndShiftedChunk
  }

  function HighByte(w: bv16): bv8 { (w >> 8) as bv8 }

  function LowByte(w: bv16): bv8 { (w & 0xFF) as bv8 }

  /** The buffer after bitstream_push_chunk: the window's high byte replaces the
      byte holding the offset and its low byte replaces the next one, which is
      written whether or not the chunk reaches it. */
  function PushBytes(buf: seq<bv8>, offset: nat, chunk: bv8, bitLength: nat): (r: seq<bv8>)
    requires bitLength <= 8 && offset / 8 + 1 < |buf|
    ensures |r| == |buf|
  {
    var byteOffset := offset / 8;
    var w := Window(buf[byteOffset], chunk, Amount(offset % 8), Amount(bitLength));
    buf[byteOffset := HighByte(w)][byteOffset + 1 := LowByte(w)]
  }

  /** With a chunk that fits in its bit length, the two bytes of the window are
      the old byte with the left-justified chunk shifted in, and what spills
      over into the next byte. */
  lemma WindowBytes(lastByte: bv8, chunk: bv8, o: bv8, bl: bv8)
    requires o < 8 && bl <= 8 && chunk >> bl == 0
    ensures HighByte(Window(lastByte, chunk, o, bl)) == lastByte | ((chunk << (8 - bl)) >> o)
    ensures LowByte(Window(lastByte, chunk, o, bl)) == (chunk << (8 - bl)) << (8 - o)
  {
  }

  /** What bit `i` of the buffer holds after a push. */
  predicate PushedBit(buf: seq<bv8>, offset: nat, chunk: bv8, bitLength: nat, i: nat)
    requires bitLength <= 8 && i < 8 * |buf|
  {
    if i < offset then Bit(buf, i)
    else if i < offset + bitLength then CodeBits(chunk, bitLength)[i - offset]
    else false
  }

  /** The chunk moved to the top of a byte: its `bitLength` code bits first. */
  function Justified(chunk: bv8, bitLength: nat): bv8
    requires bitLength <= 8
  {
    chunk << (8 - Amount(bitLength))
  }

  /** The two bytes a push rewrites, and all the others it leaves alone: the
      byte holding the offset gets the justified chunk OR'ed in after its
      first offset % 8 bits, the next one receives what spills over. */
  lemma PushedBytes(buf: seq<bv8>, offset: nat, chunk: bv8, bitLength: nat, bo: nat, o: nat)
    requires bitLength <= 8 && offset / 8 + 1 < |buf| && Fits(chunk, bitLength)
    requires offset == 8 * bo + o && o < 8
    ensures var r := PushBytes(buf, offset, chunk, bitLength);
      && r[bo] == Head(buf[bo], Justified(chunk, bitLength), Amount(o))
      && r[bo + 1] == Tail(Justified(chunk, bitLength), Amount(o))
      && forall j :: 0 <= j < |buf| && j != bo && j != bo + 1 ==> r[j] == buf[j]
  {
    var w := PushedWindow(buf, offset, chunk, bitLength, bo, o);
    WindowHalves(buf[bo], chunk, bitLength, o);
  }

  lemma WindowHalves(lastByte: bv8, chunk: bv8, bitLength: nat, o: nat)
    requires bitLength <= 8 && Fits(chunk, bitLength) && o < 8
    ensures HighByte(Window(lastByte, chunk, Amount(o), Amount(bitLength)))
         == Head(lastByte, Justified(chunk, bitLength), Amount(o))
    ensures LowByte(Window(lastByte, chunk, Amount(o), Amount(bitLength)))
         == Tail(Justified(chunk, bitLength), Amount(o))
  {
    WindowShapes(lastByte, chunk, Amount(o), Amount(bitLength), Justified(chunk, bitLength));
  }

  lemma WindowShapes(lastByte: bv8, chunk: bv8, o: bv8, bl: bv8, justified: bv8)
    requires o < 8 && bl <= 8 && chunk >> bl == 0 && justified == chunk << (8 - bl)
    ensures HighByte(Window(lastByte, chunk, o, bl)) == Head(lastByte, justified, o)
    ensures LowByte(Window(lastByte, chunk, o, bl)) == Tail(justified, o)
  {
    WindowBytes(lastByte, chunk, o, bl);
  }

  lemma PushedWindow(buf: seq<bv8>, offset: nat, chunk: bv8, bitLength: nat, bo: nat, o: nat) returns (w: bv16)
    requires bitLength <= 8 && offset / 8 + 1 < |buf|
    requires offset == 8 * bo + o && o < 8
    ensures w == Window(buf[bo], chunk, Amount(o), Amount(bitLength))
    ensures var r := PushBytes(buf, offset, chunk, bitLength);
      && r[bo] == HighByte(w) && r[bo + 1] == LowByte(w)
      && forall j :: 0 <= j < |buf| && j != bo && j != bo + 1 ==> r[j] == buf[j]
  {
    SplitOffset(offset, bo, o);
    w := Window(buf[bo], chunk, Amount(o), Amount(bitLength));
  }

  /** The byte holding the offset after a push: its old bits, then code bits. */
  lemma PushFirstByteBits(lastByte: bv8, chunk: bv8, bitLength: nat, o: nat, k: nat)
    requires bitLength <= 8 && o < 8 && k < 8
    ensures BitAt(Head(lastByte, Justified(chunk, bitLength), Amount(o)), k)
         == (BitAt(lastByte, k) || (k >= o && k - o < bitLength && BitAt(chunk, 8 - bitLength + (k - o))))
  {
    if k >= o {
      ShlBit(chunk, bitLength, k - o);
    }
    HeadOfJustified(lastByte, Justified(chunk, bitLength), chunk, bitLength, o, k);
  }

  lemma HeadOfJustified(lastByte: bv8, justified: bv8, chunk: bv8, bitLength: nat, o: nat, k: nat)
    requires bitLength <= 8 && o < 8 && k < 8
    requires k >= o ==> BitAt(justified, k - o) == (k - o < bitLength && BitAt(chunk, 8 - bitLength + (k - o)))
    ensures BitAt(Head(lastByte, justified, Amount(o)), k)
         == (BitAt(lastByte, k) || (k >= o && k - o < bitLength && BitAt(chunk, 8 - bitLength + (k - o))))
  {
    HeadBit(lastByte, justified, o, k);
  }

  lemma PushFirstByteMeaning(buf: seq<bv8>, offset: nat, chunk: bv8, bitLength: nat, bo: nat, o: nat, k: nat)
    requires bitLength <= 8 && bo + 1 < |buf| && k < 8
    requires offset == 8 * bo + o && o < 8 && ClearFrom(buf, offset)
    ensures (BitAt(buf[bo], k) || (k >= o && k - o < bitLength && BitAt(chunk, 8 - bitLength + (k - o))))
         == PushedBit(buf, offset, chunk, bitLength, 8 * bo + k)
  {
    BitIndex(buf, bo, k);
    if k >= o {
      assert !Bit(buf, 8 * bo + k);
    }
  }

  /** The byte after it: the code bits that spill over, then clear bits. */
  lemma PushSecondByteBits(chunk: bv8, bitLength: nat, o: nat, k: nat)
    requires bitLength <= 8 && o < 8 && k < 8
    ensures BitAt(Tail(Justified(chunk, bitLength), Amount(o)), k)
         == (k < o && k + 8 - o < bitLength && BitAt(chunk, 8 - bitLength + (k + 8 - o)))
  {
    if k < o {
      ShlBit(chunk, bitLength, k + 8 - o);
    }
    TailOfJustified(Justified(chunk, bitLength), chunk, bitLength, o, k);
  }

  lemma TailOfJustified(justified: bv8, chunk: bv8, bitLength: nat, o: nat, k: nat)
    requires bitLength <= 8 && o < 8 && k < 8
    requires k < o ==> BitAt(justified, k + 8 - o) == (k + 8 - o < bitLength && BitAt(chunk, 8 - bitLength + (k + 8 - o)))
    ensures BitAt(Tail(justified, Amount(o)), k)
         == (k < o && k + 8 - o < bitLength && BitAt(chunk, 8 - bitLength + (k + 8 - o)))
  {
    ShlBit(justified, o, k);
  }

  lemma PushSecondByteMeaning(buf: seq<bv8>, offset: nat, chunk: bv8, bitLength: nat, bo: nat, o: nat, k: nat)
    requires bitLength <= 8 && bo + 1 < |buf| && k < 8
    requires offset == 8 * bo + o && o < 8
    ensures (k < o && k + 8 - o < bitLength && BitAt(chunk, 8 - bitLength + (k + 8 - o)))
         == PushedBit(buf, offset, chunk, bitLength, 8 * (bo + 1) + k)
  {
  }

  /** Bit `i` of the buffer after a push: old bits before the offset, the code
      bits after it, clear bits past the new offset. */
  lemma PushBit(buf: seq<bv8>, offset: nat, chunk: bv8, bitLength: nat, i: nat)
    requires bitLength <= 8 && offset / 8 + 1 < |buf| && i < 8 * |buf|
    requires ClearFrom(buf, offset) && Fits(chunk, bitLength)
    ensures Bit(PushBytes(buf, offset, chunk, bitLength), i) == PushedBit(buf, offset, chunk, bitLength, i)
  {
    var r := PushBytes(buf, offset, chunk, bitLength);
    var j, k := i / 8, i % 8;
    assert i == 8 * j + k;
    BitIndex(r, j, k);
    PushByteBit(buf, offset, chunk, bitLength, j, k);
  }

  /** Bit `k` of byte `j` after a push, by the byte of the window that wrote it. */
  lemma PushByteBit(buf: seq<bv8>, offset: nat, chunk: bv8, bitLength: nat, j: nat, k: nat)
    requires bitLength <= 8 && offset / 8 + 1 < |buf| && j < |buf| && k < 8
    requires ClearFrom(buf, offset) && Fits(chunk, bitLength)
    ensures BitAt(PushBytes(buf, offset, chunk, bitLength)[j], k) == PushedBit(buf, offset, chunk, bitLength, 8 * j + k)
  {
    var bo, o := offset / 8, offset % 8;
    assert offset == 8 * bo + o;
    if j == bo {
      PushedFirstBit(buf, offset, chunk, bitLength, bo, o, k);
    } else if j == bo + 1 {
      PushedSecondBit(buf, offset, chunk, bitLength, bo, o, k);
    } else {
      PushedOtherBit(buf, offset, chunk, bitLength, bo, o, j, k);
    }
  }

  /** A byte the push does not write keeps its bits, all of them outside the chunk. */
  lemma PushedOtherBit(buf: seq<bv8>, offset: nat, chunk: bv8, bitLength: nat, bo: nat, o: nat, j: nat, k: nat)
    requires bitLength <= 8 && offset / 8 + 1 < |buf| && j < |buf| && k < 8
    requires offset == 8 * bo + o && o < 8 && j != bo && j != bo + 1
    requires ClearFrom(buf, offset) && Fits(chunk, bitLength)
    ensures BitAt(PushBytes(buf, offset, chunk, bitLength)[j], k) == PushedBit(buf, offset, chunk, bitLength, 8 * j + k)
  {
    PushedBytes(buf, offset, chunk, bitLength, bo, o);
    BitIndex(buf, j, k);
    if j > bo + 1 {
      assert 8 * j + k >= offset + bitLength;
      assert !Bit(buf, 8 * j + k);
    } else {
      assert 8 * j + k < offset;
    }
  }

  /** Bit `k` of the byte holding the offset after a push. */
  lemma PushedFirstBit(buf: seq<bv8>, offset: nat, chunk: bv8, bitLength: nat, bo: nat, o: nat, k: nat)
    requires bitLength <= 8 && offset / 8 + 1 < |buf| && k < 8
    requires offset == 8 * bo + o && o < 8
    requires ClearFrom(buf, offset) && Fits(chunk, bitLength)
    ensures BitAt(PushBytes(buf, offset, chunk, bitLength)[bo], k) == PushedBit(buf, offset, chunk, bitLength, 8 * bo + k)
  {
    PushedBytes(buf, offset, chunk, bitLength, bo, o);
    PushFirstByteBits(buf[bo], chunk, bitLength, o, k);
    PushFirstByteMeaning(buf, offset, chunk, bitLength, bo, o, k);
  }

  /** Bit `k` of the byte after the one holding the offset, after a push. */
  lemma PushedSecondBit(buf: seq<bv8>, offset: nat, chunk: bv8, bitLength: nat, bo: nat, o: nat, k: nat)
    requires bitLength <= 8 && offset / 8 + 1 < |buf| && k < 8
    requires offset == 8 * bo + o && o < 8
    requires Fits(chunk, bitLength)
    ensures BitAt(PushBytes(buf, offset, chunk, bitLength)[bo + 1], k) == PushedBit(buf, offset, chunk, bitLength, 8 * (bo + 1) + k)
  {
    PushedBytes(buf, offset, chunk, bitLength, bo, o);
    PushSecondByteBits(chunk, bitLength, o, k);
    PushSecondByteMeaning(buf, offset, chunk, bitLength, bo, o, k);
  }

  /** bitstream_push_chunk appends exactly the chunk's code bits to the stream
      and keeps every bit after the new offset clear. */
  lemma PushBits(buf: seq<bv8>, offset: nat, chunk: bv8, bitLength: nat)
    requires bitLength <= 8 && offset / 8 + 1 < |buf|
    requires ClearFrom(buf, offset) && Fits(chunk, bitLength)
    ensures offset + bitLength <= 8 * |buf|
    ensures BitsOf(PushBytes(buf, offset, chunk, bitLength), offset + bitLength)
         == BitsOf(buf, offset) + CodeBits(chunk, bitLength)
    ensures ClearFrom(PushBytes(buf, offset, chunk, bitLength), offset + bitLength)
  {
    var r := PushBytes(buf, offset, chunk, bitLength);
    var lhs, rhs := BitsOf(r, offset + bitLength), BitsOf(buf, offset) + CodeBits(chunk, bitLength);
    forall i | 0 <= i < offset + bitLength ensures lhs[i] == rhs[i] {
      PushBit(buf, offset, chunk, bitLength, i);
    }
    assert lhs == rhs;
    forall i | offset + bitLength <= i < 8 * |r| ensures !Bit(r, i) {
      PushBit(buf, offset, chunk, bitLength, i);
    }
  }

  // ---------------------------------------------------------------------------
  // bitstream_append as a function on the destination buffer

  /** The destination buffer after bitstream_append(p, q) when q holds at least
      one bit: the first byte gets q's first byte OR'ed in shifted right, each
      following byte is overwritten with the tail of one byte of q joined to the
      head of the next, and the last one with the tail of q's last byte. The
      shifted values are truncated to uint8_t when stored. */
  function AppendBytes(p: seq<bv8>, pOffset: nat, q: seq<bv8>, qOffset: nat): (r: seq<bv8>)
    requires 0 < qOffset <= 8 * |q|
    requires pOffset / 8 + ByteCount(qOffset) < |p|
    ensures |r| == |p|
  {
    seq(|p|, j requires 0 <= j < |p| => AppendedByte(p, pOffset, q, qOffset, j))
  }

  /** Byte `j` of the destination after bitstream_append. */
  function AppendedByte(p: seq<bv8>, pOffset: nat, q: seq<bv8>, qOffset: nat, j: nat): bv8
    requires 0 < qOffset <= 8 * |q|
    requires pOffset / 8 + ByteCount(qOffset) < |p| && j < |p|
  {
    var idx := pOffset / 8;
    var qSize := ByteCount(qOffset);
    var shift := Amount(pOffset % 8);
    if j == idx then Head(p[idx], q[0], shift)
    else if idx < j < idx + qSize then Join(q[j - idx - 1], q[j - idx], shift)
    else if j == idx + qSize then Tail(q[qSize - 1], shift)
    else p[j]
  }

  /** Bit `k` of byte `j` is bit 8 * j + k of the buffer. */
  lemma BitIndex(buf: seq<bv8>, j: nat, k: nat)
    requires j < |buf| && k < 8
    ensures Bit(buf, 8 * j + k) == BitAt(buf[j], k)
  {
    assert (8 * j + k) / 8 == j && (8 * j + k) % 8 == k;
  }

  /** What bit `i` of the destination holds after an append. */
  predicate AppendedBit(p: seq<bv8>, pOffset: nat, q: seq<bv8>, qOffset: nat, i: nat)
    requires pOffset <= 8 * |p| && qOffset <= 8 * |q| && i < 8 * |p|
  {
    if i < pOffset then Bit(p, i)
    else if i < pOffset + qOffset then i - pOffset < 8 * |q| && Bit(q, i - pOffset)
    else false
  }

  /** Splits a bit offset into its byte and its bit within the byte. */
  lemma SplitOffset(n: nat, idx: nat, sh: nat)
    requires n == 8 * idx + sh && sh < 8
    ensures n / 8 == idx && n % 8 == sh
  {
  }

  /** The byte holding p's offset keeps p's bits and receives q's first bits. */
  lemma AppendFirstByte(p: seq<bv8>, pOffset: nat, q: seq<bv8>, qOffset: nat, idx: nat, sh: nat, k: nat)
    requires 0 < qOffset <= 8 * |q| && pOffset / 8 + ByteCount(qOffset) < |p| && k < 8
    requires pOffset == 8 * idx + sh && sh < 8
    requires ClearFrom(p, pOffset) && ClearFrom(q, qOffset)
    ensures BitAt(AppendedByte(p, pOffset, q, qOffset, idx), k)
         == AppendedBit(p, pOffset, q, qOffset, 8 * idx + k)
  {
    FirstByteValue(p, pOffset, q, qOffset, idx, sh);
    HeadBit(p[idx], q[0], sh, k);
    FirstByteBits(p, pOffset, q, qOffset, idx, sh, k);
  }

  lemma FirstByteValue(p: seq<bv8>, pOffset: nat, q: seq<bv8>, qOffset: nat, idx: nat, sh: nat)
    requires 0 < qOffset <= 8 * |q| && pOffset / 8 + ByteCount(qOffset) < |p|
    requires pOffset == 8 * idx + sh && sh < 8
    ensures AppendedByte(p, pOffset, q, qOffset, idx) == Head(p[idx], q[0], Amount(sh))
  {
    SplitOffset(pOffset, idx, sh);
  }

  lemma FirstByteBits(p: seq<bv8>, pOffset: nat, q: seq<bv8>, qOffset: nat, idx: nat, sh: nat, k: nat)
    requires 0 < qOffset <= 8 * |q| && idx < |p| && k < 8
    requires pOffset == 8 * idx + sh && sh < 8
    requires ClearFrom(p, pOffset) && ClearFrom(q, qOffset)
    ensures (BitAt(p[idx], k) || (k >= sh && BitAt(q[0], k - sh)))
         == AppendedBit(p, pOffset, q, qOffset, 8 * idx + k)
  {
    BitIndex(p, idx, k);
    if k >= sh {
      assert !Bit(p, 8 * idx + k);
      BitIndex(q, 0, k - sh);
    }
  }

  /** A middle byte joins the tail of q's byte m with the head of byte m + 1. */
  lemma AppendMiddleByte(p: seq<bv8>, pOffset: nat, q: seq<bv8>, qOffset: nat, idx: nat, sh: nat, j: nat, k: nat)
    requires 0 < qOffset <= 8 * |q| && pOffset / 8 + ByteCount(qOffset) < |p| && k < 8
    requires pOffset == 8 * idx + sh && sh < 8
    requires idx < j < idx + ByteCount(qOffset)
    requires ClearFrom(q, qOffset)
    ensures BitAt(AppendedByte(p, pOffset, q, qOffset, j), k)
         == AppendedBit(p, pOffset, q, qOffset, 8 * j + k)
  {
    MiddleByteValue(p, pOffset, q, qOffset, idx, sh, j);
    JoinBit(q[j - idx - 1], q[j - idx], sh, k);
    MiddleByteBits(p, pOffset, q, qOffset, idx, sh, j, k);
  }

  lemma MiddleByteValue(p: seq<bv8>, pOffset: nat, q: seq<bv8>, qOffset: nat, idx: nat, sh: nat, j: nat)
    requires 0 < qOffset <= 8 * |q| && pOffset / 8 + ByteCount(qOffset) < |p|
    requires pOffset == 8 * idx + sh && sh < 8
    requires idx < j < idx + ByteCount(qOffset)
    ensures AppendedByte(p, pOffset, q, qOffset, j)
         == Join(q[j - idx - 1], q[j - idx], Amount(sh))
  {
    SplitOffset(pOffset, idx, sh);
  }

  lemma MiddleByteBits(p: seq<bv8>, pOffset: nat, q: seq<bv8>, qOffset: nat, idx: nat, sh: nat, j: nat, k: nat)
    requires 0 < qOffset <= 8 * |q| && j < |p| && k < 8
    requires pOffset == 8 * idx + sh && sh < 8
    requires idx < j < idx + ByteCount(qOffset)
    requires ClearFrom(q, qOffset)
    ensures (if k < sh then BitAt(q[j - idx - 1], k + 8 - sh) else BitAt(q[j - idx], k - sh))
         == AppendedBit(p, pOffset, q, qOffset, 8 * j + k)
  {
    var m := j - idx - 1;
    if k < sh {
      assert 8 * j + k - pOffset == 8 * m + (k + 8 - sh);
      BitIndex(q, m, k + 8 - sh);
    } else {
      assert 8 * j + k - pOffset == 8 * (m + 1) + (k - sh);
      BitIndex(q, m + 1, k - sh);
    }
  }

  /** The byte after the middle ones receives the tail of q's last byte. */
  lemma AppendLastByte(p: seq<bv8>, pOffset: nat, q: seq<bv8>, qOffset: nat, idx: nat, sh: nat, k: nat)
    requires 0 < qOffset <= 8 * |q| && pOffset / 8 + ByteCount(qOffset) < |p| && k < 8
    requires pOffset == 8 * idx + sh && sh < 8
    requires ClearFrom(q, qOffset)
    ensures BitAt(AppendedByte(p, pOffset, q, qOffset, idx + ByteCount(qOffset)), k)
         == AppendedBit(p, pOffset, q, qOffset, 8 * (idx + ByteCount(qOffset)) + k)
  {
    LastByteValue(p, pOffset, q, qOffset, idx, sh);
    ShlBit(q[ByteCount(qOffset) - 1], sh, k);
    LastByteBits(p, pOffset, q, qOffset, idx, sh, k);
  }

  lemma LastByteValue(p: seq<bv8>, pOffset: nat, q: seq<bv8>, qOffset: nat, idx: nat, sh: nat)
    requires 0 < qOffset <= 8 * |q| && pOffset / 8 + ByteCount(qOffset) < |p|
    requires pOffset == 8 * idx + sh && sh < 8
    ensures AppendedByte(p, pOffset, q, qOffset, idx + ByteCount(qOffset))
         == Tail(q[ByteCount(qOffset) - 1], Amount(sh))
  {
    SplitOffset(pOffset, idx, sh);
  }

  lemma LastByteBits(p: seq<bv8>, pOffset: nat, q: seq<bv8>, qOffset: nat, idx: nat, sh: nat, k: nat)
    requires 0 < qOffset <= 8 * |q| && idx + ByteCount(qOffset) < |p| && k < 8
    requires pOffset == 8 * idx + sh && sh < 8
    requires ClearFrom(q, qOffset)
    ensures (k < sh && BitAt(q[ByteCount(qOffset) - 1], k + 8 - sh))
         == AppendedBit(p, pOffset, q, qOffset, 8 * (idx + ByteCount(qOffset)) + k)
  {
    var qSize := ByteCount(qOffset);
    assert 8 * (qSize - 1) < qOffset <= 8 * qSize;
    if k < sh {
      assert 8 * (idx + qSize) + k - pOffset == 8 * (qSize - 1) + (k + 8 - sh);
      BitIndex(q, qSize - 1, k + 8 - sh);
    }
  }

  /** Bit `i` of the destination after an append: p's bits, then q's, then clear. */
  lemma AppendBit(p: seq<bv8>, pOffset: nat, q: seq<bv8>, qOffset: nat, i: nat)
    requires 0 < qOffset <= 8 * |q| && pOffset / 8 + ByteCount(qOffset) < |p| && i < 8 * |p|
    requires ClearFrom(p, pOffset) && ClearFrom(q, qOffset)
    ensures Bit(AppendBytes(p, pOffset, q, qOffset), i) == AppendedBit(p, pOffset, q, qOffset, i)
  {
    var r := AppendBytes(p, pOffset, q, qOffset);
    var j, k := i / 8, i % 8;
    assert i == 8 * j + k;
    BitIndex(r, j, k);
    assert r[j] == AppendedByte(p, pOffset, q, qOffset, j);
    AppendByteBit(p, pOffset, q, qOffset, j, k);
  }

  /** Bit `k` of byte `j` of the destination, by the part of the append that wrote it. */
  lemma AppendByteBit(p: seq<bv8>, pOffset: nat, q: seq<bv8>, qOffset: nat, j: nat, k: nat)
    requires 0 < qOffset <= 8 * |q| && pOffset / 8 + ByteCount(qOffset) < |p| && j < |p| && k < 8
    requires ClearFrom(p, pOffset) && ClearFrom(q, qOffset)
    ensures BitAt(AppendedByte(p, pOffset, q, qOffset, j), k) == AppendedBit(p, pOffset, q, qOffset, 8 * j + k)
  {
    var idx, sh, qSize := pOffset / 8, pOffset % 8, ByteCount(qOffset);
    if j < idx {
      BitIndex(p, j, k);
    } else if j == idx {
      AppendFirstByte(p, pOffset, q, qOffset, idx, sh, k);
    } else if j < idx + qSize {
      AppendMiddleByte(p, pOffset, q, qOffset, idx, sh, j, k);
    } else if j == idx + qSize {
      AppendLastByte(p, pOffset, q, qOffset, idx, sh, k);
    } else {
      BitIndex(p, j, k);
      assert !Bit(p, 8 * j + k);
    }
  }

  /** bitstream_append leaves p's bits in place, follows them with exactly q's
      bits, and keeps every bit after the new offset clear. */
  lemma AppendBits(p: seq<bv8>, pOffset: nat, q: seq<bv8>, qOffset: nat)
    requires 0 < qOffset <= 8 * |q| && pOffset / 8 + ByteCount(qOffset) < |p|
    requires pOffset <= 8 * |p| && ClearFrom(p, pOffset) && ClearFrom(q, qOffset)
    ensures pOffset + qOffset <= 8 * |p|
    ensures BitsOf(AppendBytes(p, pOffset, q, qOffset), pOffset + qOffset)
         == BitsOf(p, pOffset) + BitsOf(q, qOffset)
    ensures ClearFrom(AppendBytes(p, pOffset, q, qOffset), pOffset + qOffset)
  {
    var r := AppendBytes(p, pOffset, q, qOffset);
    var lhs, rhs := BitsOf(r, pOffset + qOffset), BitsOf(p, pOffset) + BitsOf(q, qOffset);
    forall i | 0 <= i < pOffset + qOffset ensures lhs[i] == rhs[i] {
      AppendBit(p, pOffset, q, qOffset, i);
      assert lhs[i] == Bit(r, i);
    }
    assert lhs == rhs;
    forall i | pOffset + qOffset <= i < 8 * |r| ensures !Bit(r, i) {
      AppendBit(p, pOffset, q, qOffset, i);
    }
  }

  /** On a byte boundary, bitstream_append copies q's bytes verbatim after p's
      and clears the byte after them: the left shift by 8 of a uint8_t value,
      stored back into a uint8_t, is zero. */
  lemma AlignedAppendCopies(p: seq<bv8>, pOffset: nat, q: seq<bv8>, qOffset: nat)
    requires 0 < qOffset <= 8 * |q| && pOffset / 8 + ByteCount(qOffset) < |p|
    requires pOffset % 8 == 0 && ClearFrom(p, pOffset)
    ensures var r := AppendBytes(p, pOffset, q, qOffset);
      && r[..pOffset / 8] == p[..pOffset / 8]
      && r[pOffset / 8 .. pOffset / 8 + ByteCount(qOffset)] == q[..ByteCount(qOffset)]
      && r[pOffset / 8 + ByteCount(qOffset)] == 0
  {
    var r := AppendBytes(p, pOffset, q, qOffset);
    var idx := pOffset / 8;
    assert p[idx] == 0 by {
      forall k | 0 <= k < 8 ensures BitAt(p[idx], k) == BitAt(0, k) {
        assert !Bit(p, 8 * idx + k);
        ZeroBits(k);
      }
      BitsDetermineByte(p[idx], 0);
    }
  }

  // ---------------------------------------------------------------------------
  // bitstream_append on an empty q, as written

  /** The largest size_t on a 64-bit target. */
  const SizeMax: nat := 0xFFFF_FFFF_FFFF_FFFF

  /** The bound of bitstream_append's middle loop as the source computes
      it: q_size - 1 in size_t arithmetic, which wraps when q_size is 0. */
  function SourceMiddleCount(qOffset: nat): (r: nat)
    requires ByteCount(qOffset) <= SizeMax
    ensures r <= SizeMax
  {
    (ByteCount(qOffset) + SizeMax) % (SizeMax + 1)
  }

  /** For a q holding bits, the source's bound is the q_size - 1 joined
      bytes that the model writes. */
  lemma MiddleCountAgrees(qOffset: nat)
    requires 0 < qOffset && ByteCount(qOffset) <= SizeMax
    ensures SourceMiddleCount(qOffset) == ByteCount(qOffset) - 1
  {
  }

  /** For an empty q, q_size is 0 and the middle loop runs SizeMax times:
      its last write, at p's byte offset / 8 + SizeMax, lies past the end
      of any buffer the stream can have, and it reads q's byte SizeMax. */
  lemma EmptyAppendOverruns(pOffset: nat, capacity: nat)
    requires capacity <= SizeMax
    ensures ByteCount(0) == 0 && SourceMiddleCount(0) == SizeMax
    ensures pOffset / 8 + 1 + (SourceMiddleCount(0) - 1) >= capacity
  {
    assert (0 + SizeMax) % (SizeMax + 1) == SizeMax;
  }

  /** A buffer is determined by its first `n` bits once every later bit is
      clear: two such buffers of one size are equal. */
  lemma SameBitsSameBuffer(a: seq<bv8>, b: seq<bv8>, n: nat)
    requires |a| == |b| && n <= 8 * |a|
    requires BitsOf(a, n) == BitsOf(b, n) && ClearFrom(a, n) && ClearFrom(b, n)
    ensures a == b
  {
    forall j | 0 <= j < |a| ensures a[j] == b[j] {
      forall k | 0 <= k < 8 ensures BitAt(a[j], k) == BitAt(b[j], k) {
        BitIndex(a, j, k);
        BitIndex(b, j, k);
        if 8 * j + k < n {
          assert BitsOf(a, n)[8 * j + k] == BitsOf(b, n)[8 * j + k];
        }
      }
      BitsDetermineByte(a[j], b[j]);
    }
  }

  // ---------------------------------------------------------------------------
  // The stream object

  class BitStream {
    var buf: array<bv8>
    var offset: nat

    /** The offset stays inside the buffer and no bit after it is set. */
    ghost predicate Valid()
      reads this, buf
    {
      offset <= 8 * buf.Length && ClearFrom(buf[..], offset)
    }

    /** The bits written so far. */
    ghost function Bits(): seq<bool>
      reads this, buf
      requires offset <= 8 * buf.Length
    {
      BitsOf(buf[..], offset)
    }

    /** bitstream_new: a zero-filled buffer of `capacity` bytes and offset 0. */
    constructor (capacity: nat)
      ensures Valid() && fresh(buf) && buf.Length == capacity && offset == 0
      ensures forall j :: 0 <= j < capacity ==> buf[j] == 0
      ensures Bits() == []
    {
      buf := new bv8[capacity](_ => 0);
      offset := 0;
      new;
      forall i | 0 <= i < 8 * capacity ensures !Bit(buf[..], i) {
        ZeroBits(i % 8);
      }
    }

    /** bitstream_push_chunk: writes the low `bitLength` bits of `chunk` after the
        offset, most significant first. It always rewrites the byte after the one
        holding the offset, so that byte must exist. */
    method PushChunk(chunk: bv8, bitLength: nat)
      requires Valid() && bitLength <= 8
      requires offset / 8 + 1 < buf.Length
      modifies this`offset, buf
      ensures offset == old(offset) + bitLength
      ensures buf[..] == PushBytes(old(buf[..]), old(offset), chunk, bitLength)
      ensures Fits(chunk, bitLength) ==> Valid() && Bits() == old(Bits()) + CodeBits(chunk, bitLength)
    {
      ghost var before := buf[..];
      var byteOffset := offset / 8;
      var offsetWithinByte := Amount(offset % 8);
      var lastByte := buf[byteOffset];
      var result := Window(lastByte, chunk, offsetWithinByte, Amount(bitLength));
      buf[byteOffset] := HighByte(result);
      buf[byteOffset + 1] := LowByte(result);
      offset := offset + bitLength;
      assert buf[..] == PushBytes(before, old(offset), chunk, bitLength);
      if Fits(chunk, bitLength) {
        PushBits(before, old(offset), chunk, bitLength);
      }
    }

    /** bitstream_append: concatenates q's bits onto this stream at any bit
        alignment. It writes up to the byte at offset / 8 + q_size, which must
        exist. A q with no bits leaves the stream unchanged. */
    method Append(q: BitStream)
      requires Valid() && q.Valid() && q != this && q.buf != buf
      requires q.offset > 0 ==> offset / 8 + ByteCount(q.offset) < buf.Length
      modifies this`offset, buf
      ensures Valid() && offset == old(offset) + q.offset
      ensures Bits() == old(Bits()) + q.Bits()
      ensures buf[..] == if q.offset == 0 then old(buf[..])
                         else AppendBytes(old(buf[..]), old(offset), q.buf[..], q.offset)
    {
      if q.offset == 0 {
        assert q.Bits() == [];
        return;
      }
      ghost var before, qBuf := buf[..], q.buf[..];
      WriteAppended(q);
      AppendBits(before, offset, qBuf, q.offset);
      offset := offset + q.offset;
      assert q.Bits() == BitsOf(qBuf, q.offset);
    }

    /** The byte writes of bitstream_append for a nonempty q: the head byte,
        the joined middle bytes and the tail byte. */
    method WriteAppended(q: BitStream)
      requires q.buf != buf && 0 < q.offset <= 8 * q.buf.Length
      requires offset / 8 + ByteCount(q.offset) < buf.Length
      modifies buf
      ensures buf[..] == AppendBytes(old(buf[..]), offset, q.buf[..], q.offset)
    {
      ghost var before, qBuf := buf[..], q.buf[..];
      ghost var first, sh := offset / 8, offset % 8;
      var idx := offset / 8;
      var qSize := if q.offset % 8 == 0 then q.offset / 8 else q.offset / 8 + 1;
      var shift := Amount(offset % 8);
      assert qSize == ByteCount(q.offset);
      FirstByteValue(before, offset, qBuf, q.offset, first, sh);
      buf[idx] := Head(buf[idx], q.buf[0], shift);
      idx := idx + 1;
      WriteJoined(q, idx, qSize - 1, shift);
      forall j | first < j < first + qSize
        ensures buf[j] == AppendedByte(before, offset, qBuf, q.offset, j)
      {
        MiddleByteValue(before, offset, qBuf, q.offset, first, sh, j);
      }
      LastByteValue(before, offset, qBuf, q.offset, first, sh);
      buf[idx + qSize - 1] := Tail(q.buf[qSize - 1], shift);
    }

    /** The middle loop of bitstream_append: byte idx + i becomes the low bits
        of q's byte i joined with the high bits of its byte i + 1. */
    method WriteJoined(q: BitStream, idx: nat, count: nat, shift: bv8)
      requires q.buf != buf && shift < 8 && count < q.buf.Length && idx + count <= buf.Length
      modifies buf
      ensures forall j :: 0 <= j < buf.Length ==>
        buf[j] == if idx <= j < idx + count then Join(q.buf[j - idx], q.buf[j - idx + 1], shift) else old(buf[j])
    {
      var i := 0;
      while i < count
        invariant 0 <= i <= count
        invariant forall j :: 0 <= j < buf.Length ==>
          buf[j] == if idx <= j < idx + i then Join(q.buf[j - idx], q.buf[j - idx + 1], shift) else old(buf[j])
      {
        buf[idx + i] := Join(q.buf[i], q.buf[i + 1], shift);
        i := i + 1;
      }
    }
  }

  // ---------------------------------------------------------------------------
  // The traces the source checks in test_bitstream_push_chunk and
  // test_bitstream_append.

  /** Pushing 0b1101 (4 bits) and then 0b111111 (6 bits) onto a new 16-byte
      stream gives 0b11010000 at offset 4, then 0b11011111 0b11000000 at 10. */
  method PushChunkTrace() returns (first: bv8, offsetAfterFirst: nat, b0: bv8, b1: bv8, offsetAfterSecond: nat)
    ensures first == 0xD0 && offsetAfterFirst == 4
    ensures b0 == 0xDF && b1 == 0xC0 && offsetAfterSecond == 10
  {
    var p := new BitStream(16);
    p.PushChunk(0xD, 4);
    first, offsetAfterFirst := p.buf[0], p.offset;
    p.PushChunk(0x3F, 6);
    b0, b1, offsetAfterSecond := p.buf[0], p.buf[1], p.offset;
  }

  /** A = 0b11110111 then 0b000 (11 bits), B = 0b11111 then 0b11111111
      (13 bits); appending B to A gives 0b11110111 0b00011111 0b11111111. */
  method AppendTrace() returns (a0: bv8, a1: bv8, a2: bv8, offset: nat)
    ensures a0 == 0xF7 && a1 == 0x1F && a2 == 0xFF && offset == 24
  {
    var a := TraceStreamA();
    var b := TraceStreamB();
    a.Append(b);
    a0, a1, a2, offset := a.buf[0], a.buf[1], a.buf[2], a.offset;
  }

  /** Stream A of the append test. */
  method TraceStreamA() returns (a: BitStream)
    ensures fresh(a) && fresh(a.buf) && a.Valid() && a.buf.Length == 16
    ensures a.offset == 11 && a.buf[0] == 0xF7 && a.buf[1] == 0
  {
    a := new BitStream(16);
    a.PushChunk(0xF7, 8);
    a.PushChunk(0x0, 3);
  }

  /** Stream B of the append test. */
  method TraceStreamB() returns (b: BitStream)
    ensures fresh(b) && fresh(b.buf) && b.Valid() && b.buf.Length == 16
    ensures b.offset == 13 && b.buf[0] == 0xFF && b.buf[1] == 0xF8
  {
    b := new BitStream(16);
    b.PushChunk(0x1F, 5);
    b.PushChunk(0xFF, 8);
  }
}
