// The parallel compressor, with its workers run one after another: the input
// is split into one contiguous range per worker; each worker counts its range
// and encodes it into a stream of its own; the counts are summed and the
// streams appended in worker order.

module ParallelCompression {
  import opened Bits
  import opened MinHeaps
  import opened Huffman
  import opened BitStreams
  import opened Coding
  import opened SerialCompression

  // ---------------------------------------------------------------------------
  // The static schedule

  /** The first input index of worker `t` when `n` iterations are shared by
      `workers` workers in contiguous ranges of near-equal size, the first
      n % workers workers taking one iteration more. */
  function Start(n: nat, workers: nat, t: nat): nat
    requires workers >= 1 && t <= workers
  {
    t * (n / workers) + if t < n % workers then t else n % workers
  }

  /** `bounds` cuts [0, n) into contiguous ranges, in order. */
  predicate Contiguous(bounds: seq<nat>, n: nat)
  {
    && |bounds| >= 1 && bounds[0] == 0 && bounds[|bounds| - 1] == n
    && forall j, k :: 0 <= j <= k < |bounds| ==> bounds[j] <= bounds[k]
  }

  /** Each worker's range is n / workers long, plus one for the first
      n % workers workers. */
  lemma StartStep(n: nat, workers: nat, t: nat)
    requires workers >= 1 && t < workers
    ensures Start(n, workers, t + 1) == Start(n, workers, t) + n / workers + if t < n % workers then 1 else 0
  {
    assert (t + 1) * (n / workers) == t * (n / workers) + n / workers;
  }

  lemma {:induction false} MulMonotone(j: nat, k: nat, q: nat)
    requires j <= k
    ensures j * q <= k * q
    decreases k - j
  {
    if j < k {
      MulMonotone(j, k - 1, q);
      assert k * q == (k - 1) * q + q;
    }
  }

  lemma StartMonotone(n: nat, workers: nat, j: nat, k: nat)
    requires workers >= 1 && j <= k <= workers
    ensures Start(n, workers, j) <= Start(n, workers, k)
  {
    MulMonotone(j, k, n / workers);
  }

  /** Worker 0 starts at 0, the starts never decrease, and past the last
      worker comes the end of the input. */
  lemma StartBounds(n: nat, workers: nat)
    requires workers >= 1
    ensures Start(n, workers, 0) == 0 && Start(n, workers, workers) == n
    ensures forall j, k :: 0 <= j <= k <= workers ==> Start(n, workers, j) <= Start(n, workers, k)
  {
    assert Start(n, workers, workers) == workers * (n / workers) + n % workers == n;
    forall j, k | 0 <= j <= k <= workers ensures Start(n, workers, j) <= Start(n, workers, k) {
      StartMonotone(n, workers, j, k);
    }
  }

  /** The range bounds of all workers: worker t covers [b[t], b[t + 1]). They
      cut the input into contiguous ranges, in worker order. */
  function Schedule(n: nat, workers: nat): (b: seq<nat>)
    requires workers >= 1
    ensures |b| == workers + 1 && Contiguous(b, n)
  {
    StartBounds(n, workers);
    seq(workers + 1, t requires 0 <= t <= workers => Start(n, workers, t))
  }

  /** With more workers than input bytes, the last worker's range is
      empty, so its stream stays empty (offset 0) and reaches the merge
      loop's bitstream_append as an empty q. */
  lemma IdleWorker(n: nat, workers: nat)
    requires workers > n
    ensures Schedule(n, workers)[workers - 1] == Schedule(n, workers)[workers] == n
  {
  }

  /** The smallest such case: one input byte and two workers. */
  lemma OneByteTwoWorkers(b: Uint8, dict: seq<Code>)
    requires UsableTable(dict)
    ensures Schedule(1, 2) == [0, 1, 1]
    ensures Parts([b], dict, Schedule(1, 2))[1] == []
  {
    assert Schedule(1, 2)[0] == 0 && Schedule(1, 2)[1] == 1 && Schedule(1, 2)[2] == 1;
    assert [b][1..1] == [];
  }

  /** The ranges of the schedule differ in length by at most one. */
  lemma ScheduleSizes(n: nat, workers: nat)
    requires workers >= 1
    ensures forall t :: 0 <= t < workers ==>
      Schedule(n, workers)[t + 1] - Schedule(n, workers)[t] == n / workers + if t < n % workers then 1 else 0
  {
    var b := Schedule(n, workers);
    forall t | 0 <= t < workers
      ensures b[t + 1] - b[t] == n / workers + if t < n % workers then 1 else 0
    {
      StartStep(n, workers, t);
    }
  }

  // ---------------------------------------------------------------------------
  // Partitioned counting

  /** Element-wise sum of two tables. */
  function AddTables(a: seq<nat>, b: seq<nat>): (r: seq<nat>)
    requires |a| == |b|
    ensures |r| == |a|
  {
    seq(|a|, j requires 0 <= j < |a| => a[j] + b[j])
  }

  /** What the critical section has summed after the first `k` workers: the
      zeroed table plus the counts of their ranges. */
  function RangeCountsSum(input: seq<Uint8>, bounds: seq<nat>, k: nat): (r: seq<nat>)
    requires Contiguous(bounds, |input|) && k < |bounds|
    ensures |r| == 256
  {
    if k == 0 then Frequencies([])
    else AddTables(RangeCountsSum(input, bounds, k - 1), Frequencies(input[bounds[k - 1]..bounds[k]]))
  }

  /** Counting two parts separately and adding the tables is counting the whole. */
  lemma FrequenciesConcat(a: seq<Uint8>, b: seq<Uint8>)
    ensures Frequencies(a + b) == AddTables(Frequencies(a), Frequencies(b))
  {
    assert multiset(a + b) == multiset(a) + multiset(b);
  }

  /** Summing the counts of the first k ranges counts the input up to the end
      of range k - 1; summing all of them counts the whole input. */
  lemma {:induction false} PartitionedCount(input: seq<Uint8>, bounds: seq<nat>, k: nat)
    requires Contiguous(bounds, |input|) && k < |bounds|
    ensures RangeCountsSum(input, bounds, k) == Frequencies(input[..bounds[k]])
  {
    if k == 0 {
      assert input[..bounds[0]] == [];
    } else {
      PartitionedCount(input, bounds, k - 1);
      assert bounds[k - 1] <= bounds[k] <= bounds[|bounds| - 1];
      assert input[..bounds[k]] == input[..bounds[k - 1]] + input[bounds[k - 1]..bounds[k]];
      FrequenciesConcat(input[..bounds[k - 1]], input[bounds[k - 1]..bounds[k]]);
    }
  }

  /** Worker t's range is [Start(t), Start(t + 1)), and counting it adds its
      table to the sum of the tables before it. */
  lemma NextRange(input: seq<Uint8>, workers: nat, t: nat)
    requires workers >= 1 && t < workers
    ensures var b := Schedule(|input|, workers);
      && b[t] == Start(|input|, workers, t) <= b[t + 1] == Start(|input|, workers, t + 1) <= |input|
      && RangeCountsSum(input, b, t + 1)
         == AddTables(RangeCountsSum(input, b, t), Frequencies(input[b[t]..b[t + 1]]))
  {
    var b := Schedule(|input|, workers);
    assert b[t] <= b[t + 1] <= b[workers];
  }

  /** The critical section: adds a worker's table into the shared one. */
  method AddInto(frequencies: array<nat>, local: array<nat>)
    requires frequencies.Length == local.Length == 256 && frequencies != local
    modifies frequencies
    ensures frequencies[..] == AddTables(old(frequencies[..]), local[..])
  {
    var i := 0;
    while i < 256
      invariant 0 <= i <= 256
      invariant forall j :: 0 <= j < 256 ==>
        frequencies[j] == if j < i then old(frequencies[j]) + local[j] else old(frequencies[j])
    {
      frequencies[i] := frequencies[i] + local[i];
      i := i + 1;
    }
  }

  // ---------------------------------------------------------------------------
  // Encoding by ranges and merging

  /** The bits each worker produces: the encoding of its range. */
  function Parts(input: seq<Uint8>, dict: seq<Code>, bounds: seq<nat>): (p: seq<seq<bool>>)
    requires Contiguous(bounds, |input|) && UsableTable(dict)
    ensures |p| == |bounds| - 1
  {
    seq(|bounds| - 1, k requires 0 <= k < |bounds| - 1 =>
      assert bounds[k] <= bounds[k + 1] <= bounds[|bounds| - 1];
      Encoded(input[bounds[k]..bounds[k + 1]], dict))
  }

  /** Worker t's part is the encoding of [Start(t), Start(t + 1)). */
  lemma WorkerPart(input: seq<Uint8>, dict: seq<Code>, workers: nat, t: nat)
    requires workers >= 1 && t < workers && UsableTable(dict)
    ensures Start(|input|, workers, t) <= Start(|input|, workers, t + 1) <= |input|
    ensures Parts(input, dict, Schedule(|input|, workers))[t]
         == Encoded(input[Start(|input|, workers, t)..Start(|input|, workers, t + 1)], dict)
  {
    var b := Schedule(|input|, workers);
    assert b[t] <= b[t + 1] <= b[workers];
  }

  /** The streams appended one after another. */
  function Concat(parts: seq<seq<bool>>): seq<bool>
  {
    if parts == [] then [] else Concat(parts[..|parts| - 1]) + parts[|parts| - 1]
  }

  /** One more part appends its bits. */
  lemma ConcatStep(parts: seq<seq<bool>>, t: nat)
    requires t < |parts|
    ensures Concat(parts[..t + 1]) == Concat(parts[..t]) + parts[t]
  {
    assert parts[..t + 1][..t] == parts[..t];
  }

  /** The bound AppendsFit gives for the append of part t. */
  lemma AppendFitsAt(offset: nat, parts: seq<seq<bool>>, capacity: nat, t: nat)
    requires AppendsFit(offset, parts, capacity) && t < |parts| && |parts[t]| > 0
    ensures (offset + |Concat(parts[..t])|) / 8 + ByteCount(|parts[t]|) < capacity
  {
  }

  /** Encoding the ranges separately and concatenating the results in order
      is encoding the input up to the end of range k - 1. */
  lemma {:induction false} EncodedPrefix(input: seq<Uint8>, dict: seq<Code>, bounds: seq<nat>, k: nat)
    requires Contiguous(bounds, |input|) && UsableTable(dict) && k < |bounds|
    ensures Concat(Parts(input, dict, bounds)[..k]) == Encoded(input[..bounds[k]], dict)
  {
    var parts := Parts(input, dict, bounds);
    if k == 0 {
      assert input[..bounds[0]] == [];
      assert parts[..0] == [];
    } else {
      var lo, hi := bounds[k - 1], bounds[k];
      assert lo <= hi <= bounds[|bounds| - 1];
      EncodedPrefix(input, dict, bounds, k - 1);
      ConcatStep(parts, k - 1);
      assert parts[k - 1] == Encoded(input[lo..hi], dict);
      assert input[..hi] == input[..lo] + input[lo..hi];
      EncodedConcat(input[..lo], input[lo..hi], dict);
    }
  }

  /** The merged stream of all ranges is the encoding of the whole input. */
  lemma EncodedRanges(input: seq<Uint8>, dict: seq<Code>, bounds: seq<nat>)
    requires Contiguous(bounds, |input|) && UsableTable(dict)
    ensures Concat(Parts(input, dict, bounds)) == Encoded(input, dict)
  {
    var parts := Parts(input, dict, bounds);
    EncodedPrefix(input, dict, bounds, |bounds| - 1);
    assert parts[..|bounds| - 1] == parts;
    assert input[..bounds[|bounds| - 1]] == input;
  }

  /** Every append of the merge loop stays inside a buffer of `capacity`
      bytes (an empty stream writes nothing). */
  predicate AppendsFit(offset: nat, parts: seq<seq<bool>>, capacity: nat)
  {
    forall k :: 0 <= k < |parts| && |parts[k]| > 0 ==>
      (offset + |Concat(parts[..k])|) / 8 + ByteCount(|parts[k]|) < capacity
  }

  lemma {:induction false} ConcatPrefixLength(parts: seq<seq<bool>>, k: nat)
    requires k <= |parts|
    ensures |Concat(parts[..k])| <= |Concat(parts)|
    decreases |parts|
  {
    if k < |parts| {
      var n := |parts| - 1;
      assert parts[..n][..k] == parts[..k];
      ConcatPrefixLength(parts[..n], k);
    } else {
      assert parts[..k] == parts;
    }
  }

  /** The byte after the one holding bit p, plus the bytes q bits take, never
      go beyond the bytes that p + q bits take. */
  lemma ByteBound(p: nat, q: nat)
    ensures p / 8 + ByteCount(q) <= ByteCount(p + q)
  {
  }

  /** A fresh stream of OutputCapacity(n) bytes takes every append of a merge
      of at most 8 * n bits. */
  lemma MergeFits(parts: seq<seq<bool>>, n: nat)
    requires |Concat(parts)| <= 8 * n
    ensures AppendsFit(0, parts, OutputCapacity(n))
  {
    forall k | 0 <= k < |parts| && |parts[k]| > 0
      ensures |Concat(parts[..k])| / 8 + ByteCount(|parts[k]|) < OutputCapacity(n)
    {
      ConcatPrefixLength(parts, k + 1);
      assert parts[..k + 1][..k] == parts[..k];
      ByteBound(|Concat(parts[..k])|, |parts[k]|);
    }
  }

  /** Every append of the merge loop fits the output stream the compressor
      allocates, whatever the number of workers. */
  lemma MergeSuffices(input: seq<Uint8>, dict: seq<Code>, workers: nat)
    requires UsableTable(dict) && workers >= 1
    ensures AppendsFit(0, Parts(input, dict, Schedule(|input|, workers)), OutputCapacity(|input|))
  {
    var bounds := Schedule(|input|, workers);
    EncodedRanges(input, dict, bounds);
    EncodedSize(input, dict);
    MergeFits(Parts(input, dict, bounds), |input|);
  }

  // ---------------------------------------------------------------------------

  /** `s` is a worker's stream: well formed, holding exactly the bits `part`,
      and sharing neither itself nor its buffer with the output stream `out`
      whose buffer is `outBuf`. */
  ghost predicate Holding(s: BitStream, part: seq<bool>, out: BitStream, outBuf: array<bv8>)
    reads s, s.buf
  {
    s != out && s.buf != outBuf && s.Valid() && s.Bits() == part
  }

  class ParallelCompressor {
    var dict: array<Code>
    const input: seq<Uint8>
    var ostream: BitStream

    /** parallel_compressor_new: an all-zero code table and an empty output
        stream of OutputCapacity(|input|) bytes. */
    constructor (input: seq<Uint8>)
      ensures this.input == input
      ensures fresh(dict) && dict.Length == 256 && forall s :: 0 <= s < 256 ==> dict[s] == Code(0, 0)
      ensures fresh(ostream) && fresh(ostream.buf) && ostream.Valid() && ostream.buf as object != dict
      ensures ostream.offset == 0 && ostream.Bits() == [] && ostream.buf.Length == OutputCapacity(|input|)
    {
      this.input := input;
      dict := new Code[256](_ => Code(0, 0));
      ostream := new BitStream(OutputCapacity(|input|));
    }

    /** parallel_compressor_generate_frequency_table: clears the table; each
        worker counts its range into a table of its own, then adds it into
        the shared one. */
    method GenerateFrequencyTable(frequencies: array<nat>, workers: nat)
      requires frequencies.Length == 256 && workers >= 1
      modifies frequencies
      ensures frequencies[..] == Frequencies(input)
    {
      forall b | 0 <= b < 256 {
        frequencies[b] := 0;
      }
      ghost var bounds := Schedule(|input|, workers);
      var t := 0;
      while t < workers
        invariant 0 <= t <= workers
        invariant frequencies[..] == RangeCountsSum(input, bounds, t)
      {
        var lo, hi := Start(|input|, workers, t), Start(|input|, workers, t + 1);
        NextRange(input, workers, t);
        var local := CountRange(lo, hi);
        AddInto(frequencies, local);
        t := t + 1;
      }
      PartitionedCount(input, bounds, workers);
      assert input[..bounds[workers]] == input;
    }

    /** One worker's counting loop, over input[lo..hi], into a zeroed table. */
    method CountRange(lo: nat, hi: nat) returns (local: array<nat>)
      requires lo <= hi <= |input|
      ensures fresh(local) && local[..] == Frequencies(input[lo..hi])
    {
      local := new nat[256](_ => 0);
      assert input[lo..lo] == [];
      assert local[..] == Frequencies(input[lo..lo]);
      var i := lo;
      while i < hi
        invariant lo <= i <= hi
        invariant local[..] == Frequencies(input[lo..i])
      {
        var b := input[i];
        FrequenciesSnoc(input[lo..i], b);
        assert input[lo..i + 1] == input[lo..i] + [b];
        local[b] := local[b] + 1;
        i := i + 1;
      }
    }

    /** One worker's encode loop: its range pushed onto a stream of its own,
        OutputCapacity(hi - lo) bytes long. */
    method EncodeRange(lo: nat, hi: nat) returns (s: BitStream)
      requires lo <= hi <= |input| && UsableTable(dict[..])
      ensures fresh(s) && fresh(s.buf) && s.Valid()
      ensures s.Bits() == Encoded(input[lo..hi], dict[..])
    {
      s := new BitStream(OutputCapacity(hi - lo));
      CapacitySuffices(input[lo..hi], dict[..]);
      PushCodes(s, dict, input[lo..hi]);
    }

    /** The parallel encode loop: each worker encodes its range of the
        schedule into its own stream. */
    method EncodeWorkers(workers: nat) returns (ostreams: seq<BitStream>)
      requires workers >= 1 && UsableTable(dict[..])
      ensures |ostreams| == workers
      ensures forall t :: 0 <= t < workers ==>
        Holding(ostreams[t], Parts(input, dict[..], Schedule(|input|, workers))[t], ostream, ostream.buf)
    {
      ostreams := [];
      while |ostreams| < workers
        invariant |ostreams| <= workers
        invariant forall k :: 0 <= k < |ostreams| ==>
          Holding(ostreams[k], Parts(input, dict[..], Schedule(|input|, workers))[k], ostream, ostream.buf)
        decreases workers - |ostreams|
      {
        ostreams := EncodeNext(ostreams, workers);
      }
    }

    /** One iteration of the encode loop: worker |ostreams| encodes its range
        of the schedule into a new stream. */
    method EncodeNext(ostreams: seq<BitStream>, workers: nat) returns (next: seq<BitStream>)
      requires workers >= 1 && UsableTable(dict[..]) && |ostreams| < workers
      requires forall k :: 0 <= k < |ostreams| ==>
        Holding(ostreams[k], Parts(input, dict[..], Schedule(|input|, workers))[k], ostream, ostream.buf)
      ensures |next| == |ostreams| + 1 && next[..|ostreams|] == ostreams
      ensures forall k :: 0 <= k < |next| ==>
        Holding(next[k], Parts(input, dict[..], Schedule(|input|, workers))[k], ostream, ostream.buf)
    {
      var t := |ostreams|;
      var lo, hi := Start(|input|, workers, t), Start(|input|, workers, t + 1);
      WorkerPart(input, dict[..], workers, t);
      ghost var parts := Parts(input, dict[..], Schedule(|input|, workers));
      var s := EncodeRange(lo, hi);
      assert parts == Parts(input, dict[..], Schedule(|input|, workers));
      next := ostreams + [s];
      forall k | 0 <= k <= t
        ensures Holding(next[k], parts[k], ostream, ostream.buf)
      {
        if k < t {
          assert next[k] == ostreams[k];
          assert old(Holding(ostreams[k], parts[k], ostream, ostream.buf));
        }
      }
      assert next[..t] == ostreams;
    }

    /** The merge loop of parallel_compressor_digest: appends the worker
        streams onto the output stream, in worker order. */
    method MergeStreams(ostreams: seq<BitStream>, ghost parts: seq<seq<bool>>)
      requires ostream.Valid() && |parts| == |ostreams|
      requires forall k :: 0 <= k < |ostreams| ==> Holding(ostreams[k], parts[k], ostream, ostream.buf)
      requires AppendsFit(ostream.offset, parts, ostream.buf.Length)
      modifies ostream`offset, ostream.buf
      ensures ostream.Valid()
      ensures ostream.offset == old(ostream.offset) + |Concat(parts)|
      ensures ostream.Bits() == old(ostream.Bits()) + Concat(parts)
    {
      ghost var start, startOffset := ostream.Bits(), ostream.offset;
      assert parts[..0] == [];
      var t := 0;
      while t < |ostreams|
        invariant 0 <= t <= |ostreams| && ostream.Valid()
        invariant ostream.offset == startOffset + |Concat(parts[..t])|
        invariant ostream.Bits() == start + Concat(parts[..t])
        invariant forall k :: 0 <= k < |ostreams| ==> Holding(ostreams[k], parts[k], ostream, ostream.buf)
      {
        MergeOne(ostreams, parts, t, start, startOffset);
        t := t + 1;
      }
      assert parts[..t] == parts;
    }

    /** One iteration of the merge loop: stream t appended onto the output
        stream; the worker streams are left as they were. */
    method MergeOne(ostreams: seq<BitStream>, ghost parts: seq<seq<bool>>, t: nat,
                    ghost start: seq<bool>, ghost startOffset: nat)
      requires t < |ostreams| == |parts| && ostream.Valid()
      requires forall k :: 0 <= k < |ostreams| ==> Holding(ostreams[k], parts[k], ostream, ostream.buf)
      requires AppendsFit(startOffset, parts, ostream.buf.Length)
      requires ostream.offset == startOffset + |Concat(parts[..t])|
      requires ostream.Bits() == start + Concat(parts[..t])
      modifies ostream`offset, ostream.buf
      ensures ostream.Valid()
      ensures ostream.offset == startOffset + |Concat(parts[..t + 1])|
      ensures ostream.Bits() == start + Concat(parts[..t + 1])
      ensures forall k :: 0 <= k < |ostreams| ==> Holding(ostreams[k], parts[k], ostream, ostream.buf)
    {
      AppendPart(ostreams[t], parts, t, start, startOffset);
      forall k | 0 <= k < |ostreams|
        ensures Holding(ostreams[k], parts[k], ostream, ostream.buf)
      {
        var w := ostreams[k];
        assert old(Holding(w, parts[k], ostream, ostream.buf));
        assert unchanged(w, w.buf);
      }
    }

    /** The output stream, holding the first t parts, gains part t from the
        worker stream q. */
    method AppendPart(q: BitStream, ghost parts: seq<seq<bool>>, t: nat,
                      ghost start: seq<bool>, ghost startOffset: nat)
      requires t < |parts| && ostream.Valid() && Holding(q, parts[t], ostream, ostream.buf)
      requires AppendsFit(startOffset, parts, ostream.buf.Length)
      requires ostream.offset == startOffset + |Concat(parts[..t])|
      requires ostream.Bits() == start + Concat(parts[..t])
      modifies ostream`offset, ostream.buf
      ensures ostream.Valid()
      ensures ostream.offset == startOffset + |Concat(parts[..t + 1])|
      ensures ostream.Bits() == start + Concat(parts[..t + 1])
    {
      ConcatStep(parts, t);
      BitsAssociate(start, Concat(parts[..t]), parts[t]);
      assert q.offset == |parts[t]|;
      if q.offset > 0 {
        AppendFitsAt(startOffset, parts, ostream.buf.Length, t);
      }
      ostream.Append(q);
      assert q.Bits() == parts[t];
    }

    /** The encode and merge loops together: the output stream gains the
        encoding of the whole input. */
    method EncodeParallel(workers: nat)
      requires workers >= 1 && UsableTable(dict[..]) && ostream.Valid() && ostream.buf as object != dict
      requires AppendsFit(ostream.offset, Parts(input, dict[..], Schedule(|input|, workers)), ostream.buf.Length)
      modifies ostream`offset, ostream.buf
      ensures ostream.Valid()
      ensures ostream.offset == old(ostream.offset) + EncodedLength(input, dict[..])
      ensures ostream.Bits() == old(ostream.Bits()) + Encoded(input, dict[..])
    {
      ghost var parts := Parts(input, dict[..], Schedule(|input|, workers));
      var ostreams := EncodeWorkers(workers);
      MergeStreams(ostreams, parts);
      EncodedRanges(input, dict[..], Schedule(|input|, workers));
      EncodedSize(input, dict[..]);
    }

    /** The first half of parallel_compressor_digest: the partitioned count,
        then the tree and the code table, as in the serial digest. */
    method BuildTable(workers: nat) returns (root: Option<Node>)
      requires dict.Length == 256 && workers >= 1
      modifies dict
      ensures root.None? <==> input == []
      ensures root.None? ==> dict[..] == old(dict[..])
      ensures root.Some? ==>
        TreeOfInput(root.value, input) && dict[..] == Collect(root.value, old(dict[..]), 0, 0)
    {
      var frequencies := new nat[256];
      GenerateFrequencyTable(frequencies, workers);
      root := TableFromCounts(input, frequencies[..], dict);
    }

    /** parallel_compressor_digest with `workers` threads: builds the code
        table, has each worker encode its range of the static schedule into a
        stream of its own, and appends the streams in worker order. As in the
        serial digest, a tree deeper than 8 bits stops the model after the
        table with `encoded` false. */
    method Digest(workers: nat) returns (encoded: bool, ghost root: Option<Node>)
      requires dict.Length == 256 && UsableTable(dict[..]) && workers >= 1
      requires ostream.Valid() && ostream.offset == 0 && ostream.buf.Length == OutputCapacity(|input|)
      requires ostream.buf as object != dict
      modifies dict, ostream`offset, ostream.buf
      ensures root.None? <==> input == []
      ensures root.Some? ==> TreeOfInput(root.value, input)
      ensures root.None? ==> dict[..] == old(dict[..])
      ensures root.Some? ==> dict[..] == Collect(root.value, old(dict[..]), 0, 0)
      ensures encoded <==> root.None? || Height(root.value) <= 8
      ensures !encoded ==> ostream.offset == old(ostream.offset) && ostream.buf[..] == old(ostream.buf[..])
      ensures encoded ==>
        && UsableTable(dict[..]) && ostream.Valid()
        && ostream.Bits() == Encoded(input, dict[..])
        && ostream.offset == |ostream.Bits()| == EncodedLength(input, dict[..])
      ensures encoded && root.Some? ==> CodesArePaths(root.value, dict[..])
      ensures encoded && root.Some? && root.value.Internal? ==>
        DecodeAll(root.value, ostream.Bits()) == Some(input)
      ensures encoded && root.Some? && root.value.Leaf? ==> ostream.Bits() == []
    {
      var tree := BuildTable(workers);
      root := tree;
      if tree.Some? && Height(tree.value) > 8 {
        return false, root;
      }
      if tree.Some? {
        TableFromTree(tree.value, old(dict[..]));
      }
      MergeSuffices(input, dict[..], workers);
      EncodeParallel(workers);
      if tree.Some? {
        EncodingMeaning(tree.value, dict[..], input);
      }
      return true, root;
    }
  }

  // ---------------------------------------------------------------------------
  // The two compressors agree

  /** Loads `table` into a compressor's code table. */
  method LoadTable(dict: array<Code>, table: seq<Code>)
    requires dict.Length == |table|
    modifies dict
    ensures dict[..] == table
  {
    forall s | 0 <= s < dict.Length {
      dict[s] := table[s];
    }
  }

  /** With the same code table, the serial encode loop and the parallel
      encode and merge loops, with any number of workers, leave the same
      offset and the same output buffer: the encoding of the input followed
      by clear bits. */
  method SameOutput(input: seq<Uint8>, table: seq<Code>, workers: nat)
    returns (serialBits: nat, serialOut: seq<bv8>, parallelBits: nat, parallelOut: seq<bv8>)
    requires UsableTable(table) && workers >= 1
    ensures serialBits == parallelBits == EncodedLength(input, table)
    ensures serialOut == parallelOut && |serialOut| == OutputCapacity(|input|)
    ensures serialBits <= 8 * |serialOut| && BitsOf(serialOut, serialBits) == Encoded(input, table)
    ensures ClearFrom(serialOut, serialBits)
  {
    var serial := new SerialCompressor(input);
    LoadTable(serial.dict, table);
    CapacitySuffices(input, table);
    serial.EncodeInput();
    var parallel := new ParallelCompressor(input);
    LoadTable(parallel.dict, table);
    MergeSuffices(input, table, workers);
    parallel.EncodeParallel(workers);
    serialBits, serialOut := serial.ostream.offset, serial.ostream.buf[..];
    parallelBits, parallelOut := parallel.ostream.offset, parallel.ostream.buf[..];
    SameBitsSameBuffer(serialOut, parallelOut, serialBits);
  }
}
