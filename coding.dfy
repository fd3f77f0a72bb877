// What the compressors compute, independently of how: the frequency table of
// an input, the bits of an input under a code table, and a decoder that walks
// the Huffman tree to give those bits their meaning.

module Coding {
  import opened Bits
  import opened MinHeaps
  import opened Huffman

  // ---------------------------------------------------------------------------
  // Frequencies

  /** Entry `b` is the number of occurrences of byte `b` in `input`. */
  function Frequencies(input: seq<Uint8>): (r: seq<nat>)
    ensures |r| == 256
  {
    seq(256, b requires 0 <= b < 256 => multiset(input)[b])
  }

  /** One more byte `x` adds one to entry `x` and to nothing else. */
  lemma FrequenciesSnoc(input: seq<Uint8>, x: Uint8)
    ensures Frequencies(input + [x]) == Frequencies(input)[x := Frequencies(input)[x] + 1]
  {
    assert multiset(input + [x]) == multiset(input) + multiset{x};
  }

  /** A byte has a nonzero frequency exactly when it occurs in the input. */
  lemma FrequencyOccurs(input: seq<Uint8>, b: Uint8)
    ensures Frequencies(input)[b] != 0 <==> b in input
  {
  }

  lemma {:induction false} SumZeros(n: nat)
    ensures Sum(seq(n, _ => 0)) == 0
  {
    if n > 0 {
      assert seq(n, _ => 0)[..n - 1] == seq(n - 1, _ => 0);
      SumZeros(n - 1);
    }
  }

  /** Adding one to an entry adds one to the sum. */
  lemma {:induction false} SumBump(f: seq<nat>, x: nat)
    requires x < |f|
    ensures Sum(f[x := f[x] + 1]) == Sum(f) + 1
  {
    var g := f[x := f[x] + 1];
    var n := |f| - 1;
    if x == n {
      assert g[..n] == f[..n];
    } else {
      assert g[..n] == f[..n][x := f[x] + 1];
      SumBump(f[..n], x);
    }
  }

  /** The frequencies add up to the length of the input. */
  lemma {:induction false} FrequenciesTotal(input: seq<Uint8>)
    ensures Sum(Frequencies(input)) == |input|
  {
    if input == [] {
      assert Frequencies(input) == seq(256, _ => 0);
      SumZeros(256);
    } else {
      var n := |input| - 1;
      assert input == input[..n] + [input[n]];
      FrequenciesTotal(input[..n]);
      FrequenciesSnoc(input[..n], input[n]);
      SumBump(Frequencies(input[..n]), input[n]);
    }
  }

  // ---------------------------------------------------------------------------
  // Encoding

  /** Every entry of the table holds at most 8 bits, in its low bits. */
  predicate UsableTable(dict: seq<Code>)
  {
    |dict| == 256 && forall s :: 0 <= s < 256 ==> Usable(dict[s])
  }

  /** The bits of the code of `b`. */
  function CodeOf(dict: seq<Code>, b: Uint8): (r: seq<bool>)
    requires UsableTable(dict)
    ensures |r| == dict[b].bitLength
  {
    CodeBits(dict[b].code, dict[b].bitLength)
  }

  /** The codes of the bytes of `input`, in input order. */
  function Encoded(input: seq<Uint8>, dict: seq<Code>): seq<bool>
    requires UsableTable(dict)
  {
    if input == [] then [] else CodeOf(dict, input[0]) + Encoded(input[1..], dict)
  }

  /** The sum of the code lengths of the bytes of `input`. */
  function EncodedLength(input: seq<Uint8>, dict: seq<Code>): nat
    requires |dict| == 256
  {
    if input == [] then 0 else dict[input[0]].bitLength + EncodedLength(input[1..], dict)
  }

  /** Encoding distributes over concatenation: encoding the parts of an input
      separately and joining the results is encoding it whole. */
  lemma {:induction false} EncodedConcat(a: seq<Uint8>, b: seq<Uint8>, dict: seq<Code>)
    requires UsableTable(dict)
    ensures Encoded(a + b, dict) == Encoded(a, dict) + Encoded(b, dict)
    ensures EncodedLength(a + b, dict) == EncodedLength(a, dict) + EncodedLength(b, dict)
  {
    if a == [] {
      assert a + b == b;
    } else {
      assert (a + b)[1..] == a[1..] + b;
      EncodedConcat(a[1..], b, dict);
    }
  }

  /** The encoding has as many bits as the code lengths add up to, at most 8
      per input byte. */
  lemma {:induction false} EncodedSize(input: seq<Uint8>, dict: seq<Code>)
    requires UsableTable(dict)
    ensures |Encoded(input, dict)| == EncodedLength(input, dict) <= 8 * |input|
  {
    if input != [] {
      EncodedSize(input[1..], dict);
    }
  }

  /** Encoding one more byte appends its code. */
  lemma EncodedSnoc(input: seq<Uint8>, x: Uint8, dict: seq<Code>)
    requires UsableTable(dict)
    ensures Encoded(input + [x], dict) == Encoded(input, dict) + CodeOf(dict, x)
    ensures EncodedLength(input + [x], dict) == EncodedLength(input, dict) + dict[x].bitLength
  {
    EncodedConcat(input, [x], dict);
  }

  /** Bit sequences concatenate associatively. */
  lemma BitsAssociate(a: seq<bool>, b: seq<bool>, c: seq<bool>)
    ensures a + (b + c) == a + b + c
  {
  }

  /** Encoding the first i + 1 bytes appends byte i's code to the first i. */
  lemma EncodedTake(input: seq<Uint8>, i: nat, dict: seq<Code>)
    requires UsableTable(dict) && i < |input|
    ensures Encoded(input[..i + 1], dict) == Encoded(input[..i], dict) + CodeOf(dict, input[i])
    ensures EncodedLength(input[..i + 1], dict) == EncodedLength(input[..i], dict) + dict[input[i]].bitLength
  {
    assert input[..i + 1] == input[..i] + [input[i]];
    EncodedSnoc(input[..i], input[i], dict);
  }

  // ---------------------------------------------------------------------------
  // Decoding

  datatype Decoded = Decoded(symbol: Uint8, rest: seq<bool>)

  /** Follows `bits` from the root of `t` (false = left, true = right) down to
      a leaf; None when the bits run out first. */
  function DecodeSymbol(t: Node, bits: seq<bool>): (d: Option<Decoded>)
    ensures d.Some? ==> |d.value.rest| <= |bits|
    ensures d.Some? && t.Internal? ==> |d.value.rest| < |bits|
  {
    match t
    case Leaf(s, _) => Some(Decoded(s, bits))
    case Internal(_, l, r) =>
      if bits == [] then None else DecodeSymbol(if bits[0] then r else l, bits[1..])
  }

  /** Decodes symbols until the bits are used up. */
  function DecodeAll(t: Node, bits: seq<bool>): Option<seq<Uint8>>
    requires t.Internal?
    decreases |bits|
  {
    if bits == [] then Some([])
    else match DecodeSymbol(t, bits)
      case None => None
      case Some(d) =>
        match DecodeAll(t, d.rest)
        case None => None
        case Some(symbols) => Some([d.symbol] + symbols)
  }

  /** Walking the path of a leaf reaches its symbol and leaves the rest. */
  lemma {:induction false} DecodePath(t: Node, p: seq<bool>, s: Uint8, rest: seq<bool>)
    requires LeafAt(t, p, s)
    ensures DecodeSymbol(t, p + rest) == Some(Decoded(s, rest))
    decreases |p|
  {
    if p == [] {
      assert p + rest == rest;
    } else {
      assert (p + rest)[0] == p[0] && (p + rest)[1..] == p[1..] + rest;
      DecodePath(if p[0] then t.right else t.left, p[1..], s, rest);
    }
  }

  /** Every held symbol's code is its path in `t`. */
  ghost predicate CodesArePaths(t: Node, dict: seq<Code>)
    requires UsableTable(dict)
  {
    forall s: Uint8 :: Holds(t, s) ==> CodeOf(dict, s) == PathOf(t, s)
  }

  /** The table hftree_generate_dict leaves for a tree no deeper than 8
      bits: every entry stays usable, and every held symbol's code is its
      path. */
  lemma TableFromTree(t: Node, dict: seq<Code>)
    requires UsableTable(dict) && Distinct(t) && Height(t) <= 8
    ensures UsableTable(Collect(t, dict, 0, 0)) && CodesArePaths(t, Collect(t, dict, 0, 0))
  {
    CodeTable(t, dict);
  }

  /** A single-leaf tree gives the input no bits at all: its one symbol has
      the empty code. */
  lemma {:induction false} SilentInput(t: Node, dict: seq<Code>, input: seq<Uint8>)
    requires t.Leaf? && UsableTable(dict) && CodesArePaths(t, dict)
    requires forall i :: 0 <= i < |input| ==> Holds(t, input[i])
    ensures Encoded(input, dict) == []
  {
    if input != [] {
      assert Holds(t, input[0]);
      SilentInput(t, dict, input[1..]);
    }
  }

  /** Decoding the encoding gives the input back, when every input byte has
      a leaf and the table holds the paths to the leaves. */
  lemma {:induction false} RoundTrip(t: Node, dict: seq<Code>, input: seq<Uint8>)
    requires t.Internal? && UsableTable(dict) && CodesArePaths(t, dict)
    requires forall i :: 0 <= i < |input| ==> Holds(t, input[i])
    ensures DecodeAll(t, Encoded(input, dict)) == Some(input)
  {
    if input != [] {
      var a := input[0];
      var p := PathOf(t, a);
      var bits := Encoded(input[1..], dict);
      assert Holds(t, a);
      assert Encoded(input, dict) == p + bits;
      assert p != [];
      DecodePath(t, p, a, bits);
      RoundTrip(t, dict, input[1..]);
      assert [a] + input[1..] == input;
    }
  }
}
