// The serial compressor: counts the input's bytes, builds the code table from
// the counts, and pushes each input byte's code onto one output stream.

module SerialCompression {
  import opened Bits
  import opened MinHeaps
  import opened Huffman
  import opened BitStreams
  import opened Coding

  // ---------------------------------------------------------------------------
  // Output capacity

  /** The byte that the push of input byte `i` rewrites (the one after the
      byte holding the offset), when the stream starts at `offset`. */
  function PushIndex(offset: nat, input: seq<Uint8>, dict: seq<Code>, i: nat): nat
    requires |dict| == 256 && i <= |input|
  {
    (offset + EncodedLength(input[..i], dict)) / 8 + 1
  }

  /** Every push of the encode loop stays inside a buffer of `capacity` bytes. */
  predicate PushesFit(offset: nat, input: seq<Uint8>, dict: seq<Code>, capacity: nat)
    requires |dict| == 256
  {
    forall i :: 0 <= i < |input| ==> PushIndex(offset, input, dict, i) < capacity
  }

  /** The output capacity serial_compressor_new allocates: one byte per input byte. */
  function SourceCapacity(inSize: nat): nat
  {
    inSize
  }

  /** The output capacity of this model: one byte more, for the byte after
      the last one that push_chunk always rewrites. */
  function OutputCapacity(inSize: nat): nat
  {
    inSize + 1
  }

  /** With the source's capacity, a one-byte input already overflows: its
      only push rewrites byte 1 of a one-byte buffer. */
  lemma OneByteOverflows(b: Uint8, dict: seq<Code>)
    requires |dict| == 256
    ensures PushIndex(0, [b], dict, 0) == 1 == SourceCapacity(|[b]|)
    ensures !PushesFit(0, [b], dict, SourceCapacity(|[b]|))
  {
    assert [b][..0] == [];
  }

  /** With the source's capacity, an input whose codes are all 8 bits long
      overflows at its last push, whatever its length. */
  lemma {:induction false} FullCodesOverflow(input: seq<Uint8>, dict: seq<Code>)
    requires |dict| == 256 && |input| > 0
    requires forall i :: 0 <= i < |input| ==> dict[input[i]].bitLength == 8
    ensures PushIndex(0, input, dict, |input| - 1) == SourceCapacity(|input|)
    ensures !PushesFit(0, input, dict, SourceCapacity(|input|))
  {
    FullCodesLength(input[..|input| - 1], dict);
  }

  lemma {:induction false} FullCodesLength(input: seq<Uint8>, dict: seq<Code>)
    requires |dict| == 256
    requires forall i :: 0 <= i < |input| ==> dict[input[i]].bitLength == 8
    ensures EncodedLength(input, dict) == 8 * |input|
  {
    if input != [] {
      FullCodesLength(input[1..], dict);
    }
  }

  /** With one byte more, every push of a fresh stream fits, whatever the
      code table, as long as no code is longer than 8 bits. */
  lemma CapacitySuffices(input: seq<Uint8>, dict: seq<Code>)
    requires UsableTable(dict)
    ensures PushesFit(0, input, dict, OutputCapacity(|input|))
  {
    forall i | 0 <= i < |input| ensures PushIndex(0, input, dict, i) < OutputCapacity(|input|) {
      EncodedSize(input[..i], dict);
    }
  }

  // ---------------------------------------------------------------------------
  // The encode loop

  /** Pushes the code of each byte of `bytes` onto `out`, in order, as the
      encode loops of both digests do. Each push must find its next byte
      inside the buffer. */
  method PushCodes(out: BitStream, dict: array<Code>, bytes: seq<Uint8>)
    requires UsableTable(dict[..]) && out.Valid() && out.buf as object != dict
    requires PushesFit(out.offset, bytes, dict[..], out.buf.Length)
    modifies out`offset, out.buf
    ensures out.Valid()
    ensures out.offset == old(out.offset) + EncodedLength(bytes, dict[..])
    ensures out.Bits() == old(out.Bits()) + Encoded(bytes, dict[..])
  {
    ghost var d, start, startOffset := dict[..], out.Bits(), out.offset;
    assert bytes[..0] == [];
    var i := 0;
    while i < |bytes|
      invariant 0 <= i <= |bytes| && out.Valid() && dict[..] == d
      invariant out.offset == startOffset + EncodedLength(bytes[..i], d)
      invariant out.Bits() == start + Encoded(bytes[..i], d)
    {
      PushCode(out, dict, bytes, i, startOffset, start);
      i := i + 1;
    }
    assert bytes[..i] == bytes;
  }

  /** One iteration of the encode loop: the code of byte `i`. */
  method PushCode(out: BitStream, dict: array<Code>, bytes: seq<Uint8>, i: nat,
                  ghost startOffset: nat, ghost start: seq<bool>)
    requires i < |bytes| && UsableTable(dict[..]) && out.Valid() && out.buf as object != dict
    requires PushesFit(startOffset, bytes, dict[..], out.buf.Length)
    requires out.offset == startOffset + EncodedLength(bytes[..i], dict[..])
    requires out.Bits() == start + Encoded(bytes[..i], dict[..])
    modifies out`offset, out.buf
    ensures out.Valid()
    ensures out.offset == startOffset + EncodedLength(bytes[..i + 1], dict[..])
    ensures out.Bits() == start + Encoded(bytes[..i + 1], dict[..])
  {
    ghost var d, before := dict[..], out.Bits();
    var b := bytes[i];
    var t := dict[b];
    assert PushIndex(startOffset, bytes, d, i) < out.buf.Length;
    out.PushChunk(t.code, t.bitLength);
    assert out.Bits() == before + CodeOf(d, b);
    EncodedTake(bytes, i, d);
    BitsAssociate(start, Encoded(bytes[..i], d), CodeOf(d, b));
  }

  // ---------------------------------------------------------------------------
  // Building the table, as both digests do once the counts are in

  /** hftree_new on the input's counts, then hftree_generate_dict into
      `dict`. The tree is None for the empty input, which leaves the table
      as it was. */
  method TableFromCounts(input: seq<Uint8>, frequencies: seq<nat>, dict: array<Code>)
    returns (root: Option<Node>)
    requires frequencies == Frequencies(input) && dict.Length == 256
    modifies dict
    ensures root.None? <==> input == []
    ensures root.None? ==> dict[..] == old(dict[..])
    ensures root.Some? ==>
      TreeOfInput(root.value, input) && dict[..] == Collect(root.value, old(dict[..]), 0, 0)
  {
    var tree := new HuffTree(frequencies);
    ghost var nodes := tree.heap.Nodes();
    InitialForest(frequencies, nodes);
    SomeLeaf(input, nodes);
    tree.GenerateDict(dict);
    root := tree.root;
    if root.Some? {
      BuiltTree(input, nodes, root.value);
    }
  }

  // ---------------------------------------------------------------------------

  class SerialCompressor {
    var dict: array<Code>
    const input: seq<Uint8>
    var ostream: BitStream

    /** serial_compressor_new: an all-zero code table and an empty output
        stream of OutputCapacity(|input|) bytes. */
    constructor (input: seq<Uint8>)
      ensures this.input == input
      ensures fresh(dict) && dict.Length == 256 && forall s :: 0 <= s < 256 ==> dict[s] == Code(0, 0)
      ensures fresh(ostream) && fresh(ostream.buf) && ostream.Valid() && ostream.buf as object != dict
      ensures ostream.offset == 0 && ostream.Bits() == [] && ostream.buf.Length == OutputCapacity(|input|)
    {
      this.input := input;
      dict := new Code[256](_ => Code(0, 0));
      ostream := new BitStream(OutputCapacity(|input|));
    }

    /** serial_compressor_generate_frequency_table: clears the table, then
        adds one to the entry of each input byte. */
    method GenerateFrequencyTable(frequencies: array<nat>)
      requires frequencies.Length == 256
      modifies frequencies
      ensures frequencies[..] == Frequencies(input)
    {
      forall b | 0 <= b < 256 {
        frequencies[b] := 0;
      }
      assert frequencies[..] == Frequencies(input[..0]);
      var i := 0;
      while i < |input|
        invariant 0 <= i <= |input|
        invariant frequencies[..] == Frequencies(input[..i])
      {
        var b := input[i];
        FrequenciesSnoc(input[..i], b);
        assert input[..i + 1] == input[..i] + [b];
        frequencies[b] := frequencies[b] + 1;
        i := i + 1;
      }
      assert input[..i] == input;
    }

    /** The encode loop of serial_compressor_digest, over the whole input. */
    method EncodeInput()
      requires UsableTable(dict[..]) && ostream.Valid() && ostream.buf as object != dict
      requires PushesFit(ostream.offset, input, dict[..], ostream.buf.Length)
      modifies ostream`offset, ostream.buf
      ensures ostream.Valid()
      ensures ostream.offset == old(ostream.offset) + EncodedLength(input, dict[..])
      ensures ostream.Bits() == old(ostream.Bits()) + Encoded(input, dict[..])
    {
      PushCodes(ostream, dict, input);
    }

    /** The first half of serial_compressor_digest: counts the bytes, builds
        the tree from the counts and fills the code table from it. The tree
        is None for the empty input, which leaves the table as it was. */
    method BuildTable() returns (root: Option<Node>)
      requires dict.Length == 256
      modifies dict
      ensures root.None? <==> input == []
      ensures root.None? ==> dict[..] == old(dict[..])
      ensures root.Some? ==>
        TreeOfInput(root.value, input) && dict[..] == Collect(root.value, old(dict[..]), 0, 0)
    {
      var frequencies := new nat[256];
      GenerateFrequencyTable(frequencies);
      root := TableFromCounts(input, frequencies[..], dict);
    }

    /** serial_compressor_digest: builds the code table, then encodes the
        input. Codes deeper than 8 bits do not fit the table's 8-bit fields;
        for such a tree the model stops after building the table and reports
        `encoded` false. `root` is the tree the table was built from. */
    method Digest() returns (encoded: bool, ghost root: Option<Node>)
      requires dict.Length == 256 && UsableTable(dict[..])
      requires ostream.Valid() && ostream.offset == 0 && ostream.buf.Length == OutputCapacity(|input|)
      requires ostream.buf as object != dict
      modifies dict, ostream`offset, ostream.buf
      ensures root.None? <==> input == []
      ensures root.Some? ==> TreeOfInput(root.value, input)
      ensures root.None? ==> dict[..] == old(dict[..])
      ensures root.Some? ==> dict[..] == Collect(root.value, old(dict[..]), 0, 0)
      ensures encoded <==> root.None? || Height(root.value) <= 8
      ensures !encoded ==> ostream.offset == old(ostream.offset) && ostream.buf[..] == old(ostream.buf[..])
      ensures encoded ==>
        && UsableTable(dict[..]) && ostream.Valid()
        && ostream.Bits() == Encoded(input, dict[..])
        && ostream.offset == |ostream.Bits()| == EncodedLength(input, dict[..])
      ensures encoded && root.Some? ==> CodesArePaths(root.value, dict[..])
      ensures encoded && root.Some? && root.value.Internal? ==>
        DecodeAll(root.value, ostream.Bits()) == Some(input)
      ensures encoded && root.Some? && root.value.Leaf? ==> ostream.Bits() == []
    {
      var tree := BuildTable();
      root := tree;
      if tree.Some? && Height(tree.value) > 8 {
        return false, root;
      }
      if tree.Some? {
        TableFromTree(tree.value, old(dict[..]));
      }
      CapacitySuffices(input, dict[..]);
      EncodeInput();
      EncodedSize(input, dict[..]);
      if tree.Some? {
        EncodingMeaning(tree.value, dict[..], input);
      }
      return true, root;
    }
  }

  // ---------------------------------------------------------------------------
  // What the digest's tree is

  /** The tree of an input: well formed, its frequency the input's length,
      holding each byte of the input exactly once and nothing else, its
      leaves those hftree_new makes from the input's counts (each byte with
      its count), and merged from them greedily as hftree_build does. */
  ghost predicate TreeOfInput(t: Node, input: seq<Uint8>)
  {
    && WellFormed(t) && Distinct(t) && t.frequency == |input|
    && (forall s: Uint8 :: Holds(t, s) <==> s in input)
    && multiset(Leaves(t)) == multiset(LeavesBelow(Frequencies(input), 256))
    && GreedyTree(multiset(LeavesBelow(Frequencies(input), 256)), t)
  }

  /** The tree GenerateDict builds from the leaves of the input's frequency
      table is the tree of the input. */
  lemma BuiltTree(input: seq<Uint8>, nodes: seq<Node>, t: Node)
    requires multiset(nodes) == multiset(LeavesBelow(Frequencies(input), 256))
    requires WellFormed(t) && multiset(Leaves(t)) == LeafBag(nodes)
    requires LeafBag(nodes) == multiset(LeavesBelow(Frequencies(input), 256))
    requires GreedyTree(multiset(nodes), t)
    ensures TreeOfInput(t, input)
  {
    var freqs := Frequencies(input);
    TreeOfFrequencies(freqs, t);
    FrequenciesTotal(input);
    forall s: Uint8 ensures Holds(t, s) <==> s in input {
      FrequencyOccurs(input, s);
    }
  }

  /** The heap starts with at least one leaf exactly when the input is
      nonempty, so no tree is built only for the empty input. */
  lemma SomeLeaf(input: seq<Uint8>, nodes: seq<Node>)
    requires multiset(nodes) == multiset(LeavesBelow(Frequencies(input), 256))
    ensures input != [] <==> |nodes| > 0
  {
    if input == [] {
      NoLeaves(256);
      assert |multiset(nodes)| == 0;
    } else {
      var freqs := Frequencies(input);
      FrequencyOccurs(input, input[0]);
      LeavesBelowExactly(freqs, 256, Leaf(input[0], freqs[input[0]]));
      assert Leaf(input[0], freqs[input[0]]) in multiset(nodes);
    }
  }

  /** The empty input creates no leaves. */
  lemma {:induction false} NoLeaves(n: nat)
    requires n <= 256
    ensures LeavesBelow(Frequencies([]), n) == []
  {
    if n > 0 {
      NoLeaves(n - 1);
    }
  }

  /** With the table of the input's tree, the encoding decodes back to the
      input, or is empty when the tree is a single leaf. */
  lemma EncodingMeaning(t: Node, dict: seq<Code>, input: seq<Uint8>)
    requires TreeOfInput(t, input) && UsableTable(dict) && CodesArePaths(t, dict)
    ensures t.Internal? ==> DecodeAll(t, Encoded(input, dict)) == Some(input)
    ensures t.Leaf? ==> Encoded(input, dict) == []
  {
    forall i | 0 <= i < |input| ensures Holds(t, input[i]) {
      assert input[i] in input;
    }
    if t.Internal? {
      RoundTrip(t, dict, input);
    } else {
      SilentInput(t, dict, input);
    }
  }
}
