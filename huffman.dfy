/** The Huffman tree of src/huffman.c: leaves for the symbols that occur, built
    by repeatedly merging the two least frequent nodes of a MinHeap, and the
    walk that turns each leaf's path into a code table entry. */
module Huffman {
  import opened Bits
  import opened MinHeaps

  /** struct hfcode: a code held in the low `bitLength` bits of `code`. */
  datatype Code = Code(code: bv8, bitLength: Uint8)

  /** A code push_chunk can write: at most 8 bits, none set above them. */
  predicate Usable(c: Code)
  {
    c.bitLength <= 8 && Fits(c.code, c.bitLength)
  }

  function Sum(s: seq<nat>): nat
  {
    if s == [] then 0 else Sum(s[..|s| - 1]) + s[|s| - 1]
  }

  // ---------------------------------------------------------------------------
  // Trees

  /** The leaves of `t`, left to right. */
  function Leaves(t: Node): (r: seq<Node>)
    ensures |r| > 0
  {
    match t
    case Leaf(_, _) => [t]
    case Internal(_, l, r) => Leaves(l) + Leaves(r)
  }

  function InternalCount(t: Node): nat
  {
    match t
    case Leaf(_, _) => 0
    case Internal(_, l, r) => 1 + InternalCount(l) + InternalCount(r)
  }

  /** The length of the longest path from `t` to a leaf. */
  function Height(t: Node): nat
  {
    match t
    case Leaf(_, _) => 0
    case Internal(_, l, r) => 1 + if Height(l) < Height(r) then Height(r) else Height(l)
  }

  /** What hftree_build guarantees of every node it creates: its frequency is the
      sum of its children's, and the left child is no more frequent. */
  predicate WellFormed(t: Node)
  {
    match t
    case Leaf(_, _) => true
    case Internal(f, l, r) =>
      && f == l.frequency + r.frequency && l.frequency <= r.frequency
      && WellFormed(l) && WellFormed(r)
  }

  /** `t` has a leaf for symbol `s`. */
  predicate Holds(t: Node, s: int)
  {
    match t
    case Leaf(sym, _) => sym == s
    case Internal(_, l, r) => Holds(l, s) || Holds(r, s)
  }

  /** No symbol has leaves in both subtrees of any internal node. */
  ghost predicate Distinct(t: Node)
  {
    match t
    case Leaf(_, _) => true
    case Internal(_, l, r) =>
      && Distinct(l) && Distinct(r)
      && forall s :: Holds(l, s) ==> !Holds(r, s)
  }

  /** Following `path` from `t` (false = left, true = right) ends at the leaf of `s`. */
  predicate LeafAt(t: Node, path: seq<bool>, s: int)
    decreases |path|
  {
    if path == [] then t.Leaf? && t.symbol == s
    else t.Internal? && LeafAt(if path[0] then t.right else t.left, path[1..], s)
  }

  /** The path to the leaf of `s`. */
  function PathOf(t: Node, s: int): (p: seq<bool>)
    requires Holds(t, s)
    ensures LeafAt(t, p, s) && |p| <= Height(t)
  {
    match t
    case Leaf(_, _) => []
    case Internal(_, l, r) =>
      if Holds(l, s) then
        var p := PathOf(l, s);
        assert ([false] + p)[1..] == p;
        [false] + p
      else
        var p := PathOf(r, s);
        assert ([true] + p)[1..] == p;
        [true] + p
  }

  /** A tree with k leaves has k - 1 internal nodes. */
  lemma {:induction false} InternalNodes(t: Node)
    ensures InternalCount(t) == |Leaves(t)| - 1
  {
    match t
    case Leaf(_, _) =>
    case Internal(_, l, r) =>
      InternalNodes(l);
      InternalNodes(r);
  }

  lemma {:induction false} LeafAtHolds(t: Node, p: seq<bool>, s: int)
    requires LeafAt(t, p, s)
    ensures Holds(t, s)
    decreases |p|
  {
    if p != [] {
      LeafAtHolds(if p[0] then t.right else t.left, p[1..], s);
    }
  }

  /** No leaf lies on the path to another: the path of one leaf is never a
      proper prefix of another's, and equal paths lead to the same leaf. */
  lemma {:induction false} PrefixFree(t: Node, p: seq<bool>, q: seq<bool>, s: int, s': int)
    requires LeafAt(t, p, s) && LeafAt(t, q, s')
    requires |p| <= |q| && q[..|p|] == p
    ensures p == q && s == s'
    decreases |p|
  {
    if p != [] {
      assert q[0] == p[0];
      assert q[1..][..|p| - 1] == p[1..];
      PrefixFree(if p[0] then t.right else t.left, p[1..], q[1..], s, s');
    }
  }

  // ---------------------------------------------------------------------------
  // Forests: the nodes held by the heap while the tree is built

  /** The sum of the frequencies of `s`. */
  function SumFreqs(s: seq<Node>): nat
  {
    if s == [] then 0 else s[0].frequency + SumFreqs(s[1..])
  }

  /** All leaves under the nodes of `s`. */
  function LeafBag(s: seq<Node>): multiset<Node>
  {
    if s == [] then multiset{} else multiset(Leaves(s[0])) + LeafBag(s[1..])
  }

  lemma {:induction false} ForestConcat(a: seq<Node>, b: seq<Node>)
    ensures SumFreqs(a + b) == SumFreqs(a) + SumFreqs(b)
    ensures LeafBag(a + b) == LeafBag(a) + LeafBag(b)
    decreases |a|
  {
    if a == [] {
      assert a + b == b;
    } else {
      assert (a + b)[0] == a[0] && (a + b)[1..] == a[1..] + b;
      ForestConcat(a[1..], b);
    }
  }

  /** The leaves and the total frequency of a forest do not depend on the order
      in which the heap keeps its nodes. */
  lemma {:induction false} PermutedForest(a: seq<Node>, b: seq<Node>)
    requires multiset(a) == multiset(b)
    ensures LeafBag(a) == LeafBag(b) && SumFreqs(a) == SumFreqs(b)
    decreases |a|
  {
    if a == [] {
      assert |b| == |multiset(b)| == 0;
    } else {
      var x := a[0];
      assert x in multiset(a);
      var j :| 0 <= j < |b| && b[j] == x;
      var b' := b[..j] + b[j + 1..];
      RemoveOne(a, b, j);
      PermutedForest(a[1..], b');
      SplitAt(b, j);
    }
  }

  /** Removing the first node of `a` and a copy of it from `b` keeps the two
      sequences permutations of each other. */
  lemma RemoveOne(a: seq<Node>, b: seq<Node>, j: nat)
    requires multiset(a) == multiset(b) && |a| > 0 && j < |b| && b[j] == a[0]
    ensures multiset(a[1..]) == multiset(b[..j] + b[j + 1..])
  {
    var x, tail, rest := a[0], a[1..], b[..j] + b[j + 1..];
    assert a == [x] + tail;
    assert b == b[..j] + [x] + b[j + 1..];
    var m := multiset{x};
    assert multiset(a) == m + multiset(tail);
    assert multiset(b) == m + multiset(rest);
    assert multiset(tail) == multiset(b) - m;
  }

  /** A forest read around its node `j`. */
  lemma SplitAt(b: seq<Node>, j: nat)
    requires j < |b|
    ensures var rest := b[..j] + b[j + 1..];
      && LeafBag(b) == multiset(Leaves(b[j])) + LeafBag(rest)
      && SumFreqs(b) == b[j].frequency + SumFreqs(rest)
  {
    var x := b[j];
    assert b == (b[..j] + [x]) + b[j + 1..];
    ForestConcat(b[..j] + [x], b[j + 1..]);
    ForestConcat(b[..j], [x]);
    ForestConcat(b[..j], b[j + 1..]);
    assert [x][1..] == [];
  }

  /** The frequency of a well-formed tree is the sum of its leaves' frequencies. */
  lemma {:induction false} RootWeight(t: Node)
    requires WellFormed(t)
    ensures t.frequency == SumFreqs(Leaves(t))
  {
    match t
    case Leaf(_, _) =>
      assert [t][1..] == [];
    case Internal(_, l, r) =>
      RootWeight(l);
      RootWeight(r);
      ForestConcat(Leaves(l), Leaves(r));
  }

  /** One iteration of hftree_build on the heap's contents: the two nodes popped
      first (`n0[0]`, then `n1[0]`) are replaced by their merge `c`. The leaves,
      the total frequency and well-formedness are kept. */
  lemma MergeStep(n0: seq<Node>, n1: seq<Node>, n2: seq<Node>, n3: seq<Node>, c: Node)
    requires |n0| > 0 && multiset(n1) == multiset(n0) - multiset{n0[0]}
    requires |n1| > 0 && multiset(n2) == multiset(n1) - multiset{n1[0]}
    requires c.Internal? && c.frequency == n0[0].frequency + n1[0].frequency
    requires (c.left == n0[0] && c.right == n1[0]) || (c.left == n1[0] && c.right == n0[0])
    requires c.left.frequency <= c.right.frequency
    requires multiset(n3) == multiset(n2) + multiset{c}
    requires forall n :: n in n0 ==> WellFormed(n)
    ensures forall n :: n in n3 ==> WellFormed(n)
    ensures LeafBag(n3) == LeafBag(n0) && SumFreqs(n3) == SumFreqs(n0)
  {
    PopFront(n0, n1);
    PopFront(n1, n2);
    PermutedForest(n3, n2 + [c]);
    ForestConcat(n2, [c]);
    MergedLeaves(c);
    RegroupBags(LeafBag(n0), LeafBag(n3), multiset(Leaves(n0[0])), multiset(Leaves(n1[0])), LeafBag(n2));
    MergeKeepsWellFormed(n0, n1, n2, n3, c);
  }

  lemma RegroupBags(x0: multiset<Node>, x3: multiset<Node>, a: multiset<Node>, b: multiset<Node>, rest: multiset<Node>)
    requires x0 == a + (b + rest)
    requires x3 == rest + (a + b) || x3 == rest + (b + a)
    ensures x3 == x0
  {
    forall y ensures x3[y] == x0[y] {
    }
  }

  lemma MergedLeaves(c: Node)
    ensures c.Internal? ==> LeafBag([c]) == multiset(Leaves(c.left)) + multiset(Leaves(c.right))
    ensures SumFreqs([c]) == c.frequency
  {
    assert [c][1..] == [];
  }

  /** The nodes left after popping the first of `n0` weigh and hold what `n0`
      did without it. */
  lemma PopFront(n0: seq<Node>, n1: seq<Node>)
    requires |n0| > 0 && multiset(n1) == multiset(n0) - multiset{n0[0]}
    ensures LeafBag(n0) == multiset(Leaves(n0[0])) + LeafBag(n1)
    ensures SumFreqs(n0) == n0[0].frequency + SumFreqs(n1)
    ensures forall n :: n in n1 ==> n in n0
  {
    assert n0 == [n0[0]] + n0[1..];
    assert multiset(n1) == multiset(n0[1..]);
    PermutedForest(n1, n0[1..]);
    forall n | n in n1 ensures n in n0 {
      assert n in multiset(n1);
    }
  }

  lemma MergeKeepsWellFormed(n0: seq<Node>, n1: seq<Node>, n2: seq<Node>, n3: seq<Node>, c: Node)
    requires |n0| > 0 && |n1| > 0
    requires forall n :: n in n1 ==> n in n0
    requires forall n :: n in n2 ==> n in n1
    requires c.Internal? && c.frequency == n0[0].frequency + n1[0].frequency
    requires (c.left == n0[0] && c.right == n1[0]) || (c.left == n1[0] && c.right == n0[0])
    requires c.left.frequency <= c.right.frequency
    requires multiset(n3) == multiset(n2) + multiset{c}
    requires forall n :: n in n0 ==> WellFormed(n)
    ensures forall n :: n in n3 ==> WellFormed(n)
  {
    assert n1[0] in n1;
    assert WellFormed(c);
    forall n | n in n3 ensures WellFormed(n) {
      assert n in multiset(n3);
    }
  }

  // ---------------------------------------------------------------------------
  // The leaves hftree_new creates

  /** One leaf per symbol below `n` with a nonzero frequency, in symbol order. */
  function LeavesBelow(freqs: seq<nat>, n: nat): (r: seq<Node>)
    requires n <= |freqs| <= 256
    ensures |r| <= n
  {
    if n == 0 then []
    else LeavesBelow(freqs, n - 1) + if freqs[n - 1] != 0 then [Leaf(n - 1, freqs[n - 1])] else []
  }

  /** A leaf is created exactly for a symbol of nonzero frequency, with that frequency. */
  lemma {:induction false} LeavesBelowExactly(freqs: seq<nat>, n: nat, x: Node)
    requires n <= |freqs| <= 256
    ensures x in LeavesBelow(freqs, n) <==>
      x.Leaf? && x.symbol < n && freqs[x.symbol] != 0 && x.frequency == freqs[x.symbol]
  {
    if n > 0 {
      LeavesBelowExactly(freqs, n - 1, x);
    }
  }

  /** The created leaves sum to the total of the frequencies. */
  lemma {:induction false} LeavesBelowTotal(freqs: seq<nat>, n: nat)
    requires n <= |freqs| <= 256
    ensures SumFreqs(LeavesBelow(freqs, n)) == Sum(freqs[..n])
  {
    if n > 0 {
      LeavesBelowTotal(freqs, n - 1);
      SumOfPrefix(freqs, n);
      if freqs[n - 1] != 0 {
        var x := Leaf(n - 1, freqs[n - 1]);
        ForestConcat(LeavesBelow(freqs, n - 1), [x]);
        MergedLeaves(x);
      } else {
        assert LeavesBelow(freqs, n) == LeavesBelow(freqs, n - 1);
      }
    }
  }

  lemma SumOfPrefix(s: seq<nat>, n: nat)
    requires 0 < n <= |s|
    ensures Sum(s[..n]) == Sum(s[..n - 1]) + s[n - 1]
  {
    assert s[..n][..n - 1] == s[..n - 1];
  }

  /** One step of hftree_new's loop: symbol `i` adds its leaf when its
      frequency is nonzero; there are never more leaves than symbols. */
  lemma NextLeaves(freqs: seq<nat>, i: nat)
    requires i < |freqs| <= 256
    ensures |multiset(LeavesBelow(freqs, i))| <= i
    ensures freqs[i] != 0 ==>
      multiset(LeavesBelow(freqs, i + 1)) == multiset(LeavesBelow(freqs, i)) + multiset{Leaf(i, freqs[i])}
    ensures freqs[i] == 0 ==> LeavesBelow(freqs, i + 1) == LeavesBelow(freqs, i)
  {
  }

  /** The loop of hftree_new, over all 256 symbols. */
  method InitialHeap(freqs: seq<nat>) returns (h: MinHeap)
    requires |freqs| == 256
    ensures fresh(h) && fresh(h.data) && h.Valid()
    ensures multiset(h.Nodes()) == multiset(LeavesBelow(freqs, 256))
  {
    h := new MinHeap();
    var i := 0;
    while i < 256
      invariant 0 <= i <= 256 && fresh(h.data) && HoldsLeavesBelow(h, freqs, i)
    {
      AddLeaf(h, freqs, i);
      i := i + 1;
    }
  }

  /** The heap is valid and holds exactly the leaves of the symbols below `n`. */
  ghost predicate HoldsLeavesBelow(h: MinHeap, freqs: seq<nat>, n: nat)
    reads h, h.data
    requires n <= |freqs| <= 256
  {
    h.Valid() && multiset(h.Nodes()) == multiset(LeavesBelow(freqs, n))
  }

  /** The body of hftree_new's loop: inserts the leaf of symbol `i` when
      its frequency is nonzero. */
  method AddLeaf(h: MinHeap, freqs: seq<nat>, i: nat)
    requires i < |freqs| <= 256 && HoldsLeavesBelow(h, freqs, i)
    modifies h`size, h.data
    ensures h.data == old(h.data) && HoldsLeavesBelow(h, freqs, i + 1)
  {
    NextLeaves(freqs, i);
    if freqs[i] != 0 {
      h.Insert(Leaf(i, freqs[i]));
    }
  }

  /** Every created leaf occurs once, and no two share a symbol. */
  ghost predicate OnePerSymbol(m: multiset<Node>)
  {
    && (forall x :: x in m ==> m[x] == 1)
    && (forall x, y :: x in m && y in m && x.Leaf? && y.Leaf? && x.symbol == y.symbol ==> x == y)
  }

  lemma {:induction false} LeavesBelowOnce(freqs: seq<nat>, n: nat)
    requires n <= |freqs| <= 256
    ensures OnePerSymbol(multiset(LeavesBelow(freqs, n)))
  {
    if n > 0 {
      LeavesBelowOnce(freqs, n - 1);
      if freqs[n - 1] != 0 {
        NewLeafOnce(freqs, n);
      } else {
        assert LeavesBelow(freqs, n) == LeavesBelow(freqs, n - 1);
      }
    }
  }

  /** The leaf of symbol n - 1 is new among the leaves below it. */
  lemma NewLeafOnce(freqs: seq<nat>, n: nat)
    requires 0 < n <= |freqs| <= 256 && freqs[n - 1] != 0
    requires OnePerSymbol(multiset(LeavesBelow(freqs, n - 1)))
    ensures OnePerSymbol(multiset(LeavesBelow(freqs, n)))
  {
    var below := LeavesBelow(freqs, n - 1);
    LeavesBelowSymbols(freqs, n - 1);
    AddNewSymbol(below, Leaf(n - 1, freqs[n - 1]));
  }

  lemma {:induction false} LeavesBelowSymbols(freqs: seq<nat>, n: nat)
    requires n <= |freqs| <= 256
    ensures forall i :: 0 <= i < |LeavesBelow(freqs, n)| ==>
      LeavesBelow(freqs, n)[i].Leaf? && LeavesBelow(freqs, n)[i].symbol < n
  {
    forall i | 0 <= i < |LeavesBelow(freqs, n)|
      ensures LeavesBelow(freqs, n)[i].Leaf? && LeavesBelow(freqs, n)[i].symbol < n
    {
      LeavesBelowExactly(freqs, n, LeavesBelow(freqs, n)[i]);
    }
  }

  /** Adding a leaf whose symbol is above all others keeps one leaf per symbol. */
  lemma AddNewSymbol(s: seq<Node>, x: Node)
    requires OnePerSymbol(multiset(s)) && x.Leaf?
    requires forall i :: 0 <= i < |s| ==> s[i].Leaf? && s[i].symbol < x.symbol
    ensures OnePerSymbol(multiset(s + [x]))
  {
    assert x !in s;
    assert multiset(s + [x]) == multiset(s) + multiset{x};
  }

  /** Each leaf of `t` holds its symbol. */
  lemma {:induction false} LeafHolds(t: Node, x: Node)
    requires x in Leaves(t)
    ensures x.Leaf? && Holds(t, x.symbol)
  {
    match t
    case Leaf(_, _) =>
    case Internal(_, l, r) =>
      if x in Leaves(l) {
        LeafHolds(l, x);
      } else {
        LeafHolds(r, x);
      }
  }

  /** A symbol held by `t` has a leaf among `Leaves(t)`. */
  lemma {:induction false} HeldLeaf(t: Node, s: int) returns (x: Node)
    requires Holds(t, s)
    ensures x in Leaves(t) && x.Leaf? && x.symbol == s
  {
    match t
    case Leaf(_, _) =>
      x := t;
    case Internal(_, l, r) =>
      if Holds(l, s) {
        x := HeldLeaf(l, s);
      } else {
        x := HeldLeaf(r, s);
      }
  }

  /** Leaves with one per symbol make a tree in which every symbol has one leaf. */
  lemma {:induction false} DistinctFromLeaves(t: Node)
    requires OnePerSymbol(multiset(Leaves(t)))
    ensures Distinct(t)
  {
    match t
    case Leaf(_, _) =>
    case Internal(_, l, r) =>
      assert multiset(Leaves(t)) == multiset(Leaves(l)) + multiset(Leaves(r));
      SplitOnePerSymbol(multiset(Leaves(l)), multiset(Leaves(r)));
      DistinctFromLeaves(l);
      DistinctFromLeaves(r);
      forall s | Holds(l, s) ensures !Holds(r, s) {
        var x := HeldLeaf(l, s);
        assert x in multiset(Leaves(l));
        AbsentSymbol(r, s);
      }
  }

  /** A symbol that no leaf of `t` carries is not held by `t`. */
  lemma {:induction false} AbsentSymbol(t: Node, s: int)
    requires forall y :: y in multiset(Leaves(t)) && y.Leaf? ==> y.symbol != s
    ensures !Holds(t, s)
  {
    match t
    case Leaf(_, _) =>
      assert t in multiset(Leaves(t));
    case Internal(_, l, r) =>
      assert multiset(Leaves(t)) == multiset(Leaves(l)) + multiset(Leaves(r));
      AbsentSymbol(l, s);
      AbsentSymbol(r, s);
  }

  /** The two halves of a bag with one leaf per symbol share no symbol. */
  lemma SplitOnePerSymbol(ml: multiset<Node>, mr: multiset<Node>)
    requires OnePerSymbol(ml + mr)
    ensures OnePerSymbol(ml) && OnePerSymbol(mr)
    ensures forall x, y :: x in ml && y in mr && x.Leaf? && y.Leaf? ==> x.symbol != y.symbol
  {
    forall x | x in ml ensures ml[x] == 1 {
      assert (ml + mr)[x] == ml[x] + mr[x];
    }
    forall x | x in mr ensures mr[x] == 1 {
      assert (ml + mr)[x] == ml[x] + mr[x];
    }
    forall x, y | x in ml && y in mr && x.Leaf? && y.Leaf? ensures x.symbol != y.symbol {
      assert (ml + mr)[x] == ml[x] + mr[x];
    }
  }

  // ---------------------------------------------------------------------------
  // The code table: hftree_collect_codes

  /** hftree_collect_codes: writes `Code(path, length)` for a leaf and walks an
      internal node's left child with bit 0 and its right child with bit 1
      appended. As in the source, the path and the length are uint8_t, so a
      path longer than 8 loses its first bits and a length wraps at 256. */
  function Collect(t: Node, dict: seq<Code>, path: bv8, length: Uint8): (r: seq<Code>)
    requires |dict| == 256
    ensures |r| == 256
    ensures forall s :: 0 <= s < 256 && !Holds(t, s) ==> r[s] == dict[s]
  {
    match t
    case Leaf(sym, _) => dict[sym := Code(path, length)]
    case Internal(_, l, rt) =>
      var deeper := (length + 1) % 256;
      Collect(rt, Collect(l, dict, (path << 1) | 0, deeper), (path << 1) | 1, deeper)
  }

  /** The entry of a leaf reached by `p` from a node reached with the code
      `path` of `length` bits: its length grows by |p| and its bits by `p`. */
  lemma {:induction false} CollectLeaf(t: Node, dict: seq<Code>, path: bv8, length: Uint8, p: seq<bool>, s: Uint8)
    requires |dict| == 256 && Distinct(t) && LeafAt(t, p, s)
    requires length + Height(t) <= 8 && Fits(path, length)
    ensures var c := Collect(t, dict, path, length)[s];
      && c.bitLength == length + |p| && Usable(c)
      && CodeBits(c.code, c.bitLength) == CodeBits(path, length) + p
    decreases t, 1
  {
    if t.Internal? {
      if !p[0] {
        CollectLeft(t, dict, path, length, p, s);
      } else {
        CollectRight(t, dict, path, length, p, s);
      }
    }
  }

  /** CollectLeaf for a leaf of the left subtree, whose walk the right
      subtree's walk leaves alone. */
  lemma {:induction false} CollectLeft(t: Node, dict: seq<Code>, path: bv8, length: Uint8, p: seq<bool>, s: Uint8)
    requires |dict| == 256 && Distinct(t) && LeafAt(t, p, s)
    requires length + Height(t) <= 8 && Fits(path, length)
    requires t.Internal? && p != [] && !p[0]
    ensures var c := Collect(t, dict, path, length)[s];
      && c.bitLength == length + |p| && Usable(c)
      && CodeBits(c.code, c.bitLength) == CodeBits(path, length) + p
    decreases t, 0
  {
    var deeper := (length + 1) % 256;
    assert deeper == length + 1;
    var inner := Collect(t.left, dict, (path << 1) | 0, deeper);
    LeafAtHolds(t.left, p[1..], s);
    assert !Holds(t.right, s);
    assert Collect(t, dict, path, length)[s] == inner[s];
    FitsShiftLeft(path, 0, length);
    CollectLeaf(t.left, dict, (path << 1) | 0, deeper, p[1..], s);
    ChildStep(path, length, 0, p, inner[s]);
  }

  /** CollectLeaf for a leaf of the right subtree. */
  lemma {:induction false} CollectRight(t: Node, dict: seq<Code>, path: bv8, length: Uint8, p: seq<bool>, s: Uint8)
    requires |dict| == 256 && Distinct(t) && LeafAt(t, p, s)
    requires length + Height(t) <= 8 && Fits(path, length)
    requires t.Internal? && p != [] && p[0]
    ensures var c := Collect(t, dict, path, length)[s];
      && c.bitLength == length + |p| && Usable(c)
      && CodeBits(c.code, c.bitLength) == CodeBits(path, length) + p
    decreases t, 0
  {
    var deeper := (length + 1) % 256;
    assert deeper == length + 1;
    var inner := Collect(t.left, dict, (path << 1) | 0, deeper);
    var c := Collect(t.right, inner, (path << 1) | 1, deeper)[s];
    assert Collect(t, dict, path, length)[s] == c;
    FitsShiftLeft(path, 1, length);
    CollectLeaf(t.right, inner, (path << 1) | 1, deeper, p[1..], s);
    ChildStep(path, length, 1, p, c);
  }

  /** One level of CollectLeaf: a code that extends the child's code
      `(path << 1) | bit` by the rest of `p` extends `path` by all of `p`. */
  lemma ChildStep(path: bv8, length: nat, bit: bv8, p: seq<bool>, c: Code)
    requires length < 8 && Fits(path, length) && (bit == 0 || bit == 1)
    requires |p| > 0 && p[0] == (bit == 1)
    requires c.bitLength == length + 1 + |p[1..]| && Usable(c)
    requires CodeBits(c.code, c.bitLength) == CodeBits((path << 1) | bit, length + 1) + p[1..]
    ensures c.bitLength == length + |p|
    ensures CodeBits(c.code, c.bitLength) == CodeBits(path, length) + p
  {
    ExtendCode(path, length, bit);
    assert p == [bit == 1] + p[1..];
  }

  /** hftree_collect_codes from the root: each symbol of the tree gets its
      path as code and its depth as length; every other entry is kept. */
  lemma CodeTable(t: Node, dict: seq<Code>)
    requires |dict| == 256 && Distinct(t) && Height(t) <= 8
    ensures var d := Collect(t, dict, 0, 0);
      && (forall s: Uint8 :: Holds(t, s) ==>
            Usable(d[s]) && CodeBits(d[s].code, d[s].bitLength) == PathOf(t, s))
      && (forall s: Uint8 :: !Holds(t, s) ==> d[s] == dict[s])
  {
    forall s: Uint8 | Holds(t, s)
      ensures var d := Collect(t, dict, 0, 0);
        Usable(d[s]) && CodeBits(d[s].code, d[s].bitLength) == PathOf(t, s)
    {
      CollectLeaf(t, dict, 0, 0, PathOf(t, s), s);
    }
  }

  /** The table is a prefix code: the code of one symbol of the tree never
      begins the code of another. */
  lemma PrefixFreeCodes(t: Node, dict: seq<Code>, s1: Uint8, s2: Uint8)
    requires |dict| == 256 && Distinct(t) && Height(t) <= 8
    requires Holds(t, s1) && Holds(t, s2) && s1 != s2
    ensures var d := Collect(t, dict, 0, 0);
      && d[s1].bitLength <= 8 && d[s2].bitLength <= 8
      && var c1, c2 := CodeBits(d[s1].code, d[s1].bitLength), CodeBits(d[s2].code, d[s2].bitLength);
      !(|c1| <= |c2| && c2[..|c1|] == c1)
  {
    CodeTable(t, dict);
    var p1, p2 := PathOf(t, s1), PathOf(t, s2);
    if |p1| <= |p2| && p2[..|p1|] == p1 {
      PrefixFree(t, p1, p2, s1, s2);
    }
  }

  /** A tree of a single leaf, as built from one symbol, gives that symbol the
      empty code: code 0 of length 0. */
  lemma SingleLeafCode(s: Uint8, f: nat, dict: seq<Code>)
    requires |dict| == 256
    ensures Collect(Leaf(s, f), dict, 0, 0) == dict[s := Code(0, 0)]
    ensures CodeBits(0, 0) == []
  {
  }

  /** What a tree whose leaves are exactly those hftree_new creates from
      `freqs` is: its frequency is the total, it holds exactly the symbols of
      nonzero frequency, each once, and it has one internal node fewer than
      leaves. */
  lemma TreeOfFrequencies(freqs: seq<nat>, t: Node)
    requires |freqs| == 256 && WellFormed(t)
    requires multiset(Leaves(t)) == multiset(LeavesBelow(freqs, 256))
    ensures t.frequency == Sum(freqs)
    ensures Distinct(t)
    ensures forall s: Uint8 :: Holds(t, s) <==> freqs[s] != 0
    ensures InternalCount(t) == |LeavesBelow(freqs, 256)| - 1
  {
    TreeFrequency(freqs, t);
    LeavesBelowOnce(freqs, 256);
    DistinctFromLeaves(t);
    forall s: Uint8 ensures Holds(t, s) <==> freqs[s] != 0 {
      TreeSymbol(freqs, t, s);
    }
    InternalNodes(t);
    assert |Leaves(t)| == |multiset(Leaves(t))|;
  }

  /** The root of a tree over the leaves of `freqs` weighs their total. */
  lemma TreeFrequency(freqs: seq<nat>, t: Node)
    requires |freqs| == 256 && WellFormed(t)
    requires multiset(Leaves(t)) == multiset(LeavesBelow(freqs, 256))
    ensures t.frequency == Sum(freqs)
  {
    RootWeight(t);
    PermutedForest(Leaves(t), LeavesBelow(freqs, 256));
    LeavesBelowTotal(freqs, 256);
    assert freqs[..256] == freqs;
  }

  /** A tree over the leaves of `freqs` holds a symbol exactly when its
      frequency is nonzero. */
  lemma TreeSymbol(freqs: seq<nat>, t: Node, s: Uint8)
    requires |freqs| == 256
    requires multiset(Leaves(t)) == multiset(LeavesBelow(freqs, 256))
    ensures Holds(t, s) <==> freqs[s] != 0
  {
    if Holds(t, s) {
      var x := HeldLeaf(t, s);
      assert x in multiset(LeavesBelow(freqs, 256));
      LeavesBelowExactly(freqs, 256, x);
    }
    if freqs[s] != 0 {
      var x := Leaf(s, freqs[s]);
      LeavesBelowExactly(freqs, 256, x);
      assert x in multiset(Leaves(t));
      LeafHolds(t, x);
    }
  }

  /** A forest of single leaves holds exactly those leaves. */
  lemma {:induction false} LeafForest(s: seq<Node>)
    requires forall n :: n in s ==> n.Leaf?
    ensures LeafBag(s) == multiset(s)
  {
    if s != [] {
      assert s == [s[0]] + s[1..];
      LeafForest(s[1..]);
    }
  }

  /** The heap hftree_new fills holds well-formed nodes (single leaves) whose
      leaves are the created ones. */
  lemma InitialForest(freqs: seq<nat>, nodes: seq<Node>)
    requires |freqs| == 256 && multiset(nodes) == multiset(LeavesBelow(freqs, 256))
    ensures forall n :: n in nodes ==> n.Leaf? && WellFormed(n)
    ensures LeafBag(nodes) == multiset(LeavesBelow(freqs, 256))
  {
    forall n | n in nodes ensures n.Leaf? {
      assert n in multiset(LeavesBelow(freqs, 256));
      LeavesBelowExactly(freqs, 256, n);
    }
    LeafForest(nodes);
  }

  // ---------------------------------------------------------------------------

  /** The parent hftree_build makes of the nodes it popped first (`a`) and
      second (`b`): their summed frequency, the less frequent one on the left
      and, on a tie, `a`. */
  function Merge(a: Node, b: Node): (m: Node)
    ensures m.Internal? && m.frequency == a.frequency + b.frequency
    ensures m.left.frequency <= m.right.frequency
    ensures (m.left == a && m.right == b) || (m.left == b && m.right == a)
  {
    var left := if a.frequency <= b.frequency then a else b;
    var right := if a.frequency > b.frequency then a else b;
    Internal(a.frequency + b.frequency, left, right)
  }

  /** One iteration of hftree_build's loop on the heap's contents: `a` is a
      least frequent node, `b` a least frequent node of the rest, and their
      merge replaces the two. */
  ghost predicate GreedyStep(before: multiset<Node>, after: multiset<Node>, a: Node, b: Node)
  {
    && a in before && b in before - multiset{a}
    && (forall n :: n in before ==> a.frequency <= n.frequency)
    && (forall n :: n in before - multiset{a} ==> b.frequency <= n.frequency)
    && after == before - multiset{a} - multiset{b} + multiset{Merge(a, b)}
  }

  /** Successive heap contents of hftree_build's loop, each one greedy step
      (merging `pairs[i]`) after the one before. */
  ghost predicate GreedyRun(steps: seq<multiset<Node>>, pairs: seq<(Node, Node)>)
  {
    && |steps| == |pairs| + 1
    && forall i :: 0 <= i < |pairs| ==> GreedyStep(steps[i], steps[i + 1], pairs[i].0, pairs[i].1)
  }

  /** Greedy merging, as hftree_build does it, leads from a heap holding
      `start` to one holding `now`. */
  ghost predicate GreedyFrom(start: multiset<Node>, now: multiset<Node>)
  {
    exists steps, pairs :: GreedyRun(steps, pairs) && steps[0] == start && steps[|steps| - 1] == now
  }

  /** `t` is a tree that greedy merging can build from a heap holding `start`. */
  ghost predicate GreedyTree(start: multiset<Node>, t: Node)
  {
    GreedyFrom(start, multiset{t})
  }

  /** No merge at all: the heap as it starts. */
  lemma GreedyFromStart(start: multiset<Node>)
    ensures GreedyFrom(start, start)
  {
    var steps: seq<multiset<Node>>, pairs: seq<(Node, Node)> := [start], [];
    assert GreedyRun(steps, pairs);
  }

  /** A greedy run extended by one more greedy step. */
  lemma {:induction false} GreedyFromStep(start: multiset<Node>, now: multiset<Node>, next: multiset<Node>, a: Node, b: Node)
    requires GreedyFrom(start, now) && GreedyStep(now, next, a, b)
    ensures GreedyFrom(start, next)
  {
    var steps, pairs :| GreedyRun(steps, pairs) && steps[0] == start && steps[|steps| - 1] == now;
    var steps', pairs' := steps + [next], pairs + [(a, b)];
    GreedyRunExtend(steps, pairs, next, a, b);
    assert steps'[0] == start && steps'[|steps'| - 1] == next;
  }

  /** A greedy run extended by one more greedy step. */
  lemma GreedyRunExtend(steps: seq<multiset<Node>>, pairs: seq<(Node, Node)>, next: multiset<Node>, a: Node, b: Node)
    requires GreedyRun(steps, pairs) && GreedyStep(steps[|steps| - 1], next, a, b)
    ensures GreedyRun(steps + [next], pairs + [(a, b)])
  {
    var steps', pairs' := steps + [next], pairs + [(a, b)];
    assert steps'[..|steps|] == steps && pairs'[..|pairs|] == pairs;
    forall i | 0 <= i < |pairs'| ensures GreedyStep(steps'[i], steps'[i + 1], pairs'[i].0, pairs'[i].1) {
      if i < |pairs| {
        RunStep(steps, pairs, i);
      } else {
        assert steps'[i] == steps[|steps| - 1];
      }
    }
  }

  /** The greedy choice: no two nodes of the heap weigh less together than
      the two a greedy step merges. */
  lemma LightestPair(before: multiset<Node>, after: multiset<Node>, a: Node, b: Node, x: Node, y: Node)
    requires GreedyStep(before, after, a, b)
    requires x in before && y in before - multiset{x}
    ensures Merge(a, b).frequency <= x.frequency + y.frequency
  {
    if x != a && y != a {
      assert x in before - multiset{a};
    } else if x == a {
      assert y in before - multiset{a};
    } else {
      assert x in before - multiset{a};
    }
  }

  /** A greedy step leaves one node fewer. */
  lemma StepSize(before: multiset<Node>, after: multiset<Node>, a: Node, b: Node)
    requires GreedyStep(before, after, a, b)
    ensures |after| + 1 == |before|
  {
    assert |before - multiset{a}| == |before| - 1;
    assert |before - multiset{a} - multiset{b}| == |before| - 2;
  }

  /** Along a greedy run the heap loses one node per step. */
  lemma {:induction false} RunSizes(steps: seq<multiset<Node>>, pairs: seq<(Node, Node)>, k: nat)
    requires GreedyRun(steps, pairs) && k < |steps|
    ensures |steps[k]| + k == |steps[0]|
  {
    if k > 0 {
      RunSizes(steps, pairs, k - 1);
      StepSize(steps[k - 1], steps[k], pairs[k - 1].0, pairs[k - 1].1);
    }
  }

  /** A two-node bag, written out. */
  lemma PairOf(m: multiset<Node>) returns (x: Node, y: Node)
    requires |m| == 2
    ensures m == multiset{x, y}
  {
    assert m != multiset{};
    x :| x in m;
    assert |m - multiset{x}| == 1 && m - multiset{x} != multiset{};
    y :| y in m - multiset{x};
    assert |m - multiset{x} - multiset{y}| == 0;
    assert m - multiset{x} - multiset{y} == multiset{};
  }

  /** Four nodes of frequency one, as a bag. */
  lemma FourLight(p: Node, q: Node, r: Node, u: Node, bag: multiset<Node>)
    requires p.frequency == 1 && q.frequency == 1 && r.frequency == 1 && u.frequency == 1
    requires bag == multiset{p, q, r, u}
    ensures |bag| == 4 && forall n :: n in bag ==> n.frequency == 1
  {
  }

  /** Adding one node to a two-node bag. */
  lemma AddToPair(rest: multiset<Node>, x: Node, y: Node, m: Node)
    requires rest == multiset{x, y}
    ensures rest + multiset{m} == multiset{x, y, m}
  {
  }

  /** The first greedy step on four nodes of frequency one merges two of them. */
  lemma FirstOfFour(before: multiset<Node>, after: multiset<Node>, a: Node, b: Node) returns (x: Node, y: Node)
    requires |before| == 4 && forall n :: n in before ==> n.frequency == 1
    requires GreedyStep(before, after, a, b)
    ensures x.frequency == 1 && y.frequency == 1 && Merge(a, b).frequency == 2
    ensures after == multiset{x, y, Merge(a, b)}
  {
    var rest := before - multiset{a} - multiset{b};
    assert |rest| == 2 by {
      assert |before - multiset{a}| == 3;
    }
    x, y := PairOf(rest);
    assert x in rest && y in rest;
    AddToPair(rest, x, y, Merge(a, b));
  }

  /** Taking a node of frequency one out of two such nodes and one of
      frequency two leaves the other light node and the heavy one. */
  lemma DropLight(x: Node, y: Node, m: Node, a: Node) returns (z: Node)
    requires x.frequency == 1 && y.frequency == 1 && m.frequency == 2
    requires a in multiset{x, y, m} && a.frequency <= 1
    ensures z.frequency == 1 && multiset{x, y, m} - multiset{a} == multiset{z, m}
  {
    if a == x {
      z := y;
    } else {
      z := x;
    }
  }

  /** Taking the lighter of a node of frequency one and one of frequency two
      leaves the heavy one. */
  lemma DropLighter(z: Node, m: Node, b: Node)
    requires z.frequency == 1 && m.frequency == 2
    requires b in multiset{z, m} && b.frequency <= 1
    ensures multiset{z, m} - multiset{b} == multiset{m}
  {
    assert b == z;
  }

  /** Two removals in a row, each known on its own. */
  lemma Remaining(before: multiset<Node>, a: Node, b: Node, z: Node, m: Node)
    requires before - multiset{a} == multiset{z, m} && multiset{z, m} - multiset{b} == multiset{m}
    ensures before - multiset{a} - multiset{b} + multiset{Merge(a, b)} == multiset{m, Merge(a, b)}
  {
  }

  /** The second greedy step on two nodes of frequency one and one of
      frequency two merges the two light ones. */
  lemma SecondOfFour(x: Node, y: Node, m: Node, before: multiset<Node>, after: multiset<Node>, a: Node, b: Node)
    requires x.frequency == 1 && y.frequency == 1 && m.frequency == 2
    requires before == multiset{x, y, m} && GreedyStep(before, after, a, b)
    ensures Merge(a, b).frequency == 2 && after == multiset{m, Merge(a, b)}
  {
    assert a in before && a.frequency <= 1 by {
      assert x in before;
    }
    var z := DropLight(x, y, m, a);
    assert b in multiset{z, m} && b.frequency <= 1 by {
      assert z in before - multiset{a};
    }
    DropLighter(z, m, b);
    Remaining(before, a, b, z, m);
  }

  /** The third greedy step on two nodes of frequency two makes the root. */
  lemma ThirdOfFour(m1: Node, m2: Node, t: Node, before: multiset<Node>, after: multiset<Node>, a: Node, b: Node)
    requires m1.frequency == 2 && m2.frequency == 2
    requires before == multiset{m1, m2} && after == multiset{t} && GreedyStep(before, after, a, b)
    ensures t.Internal? && t.frequency == 4
    ensures t.left.frequency == 2 && t.right.frequency == 2
  {
    assert a == m1 || a == m2;
    assert b == m1 || b == m2;
    assert t == Merge(a, b) by {
      assert Merge(a, b) in multiset{t};
    }
  }

  /** The step a greedy run takes at `i`. */
  lemma RunStep(steps: seq<multiset<Node>>, pairs: seq<(Node, Node)>, i: nat)
    requires GreedyRun(steps, pairs) && i < |pairs|
    ensures GreedyStep(steps[i], steps[i + 1], pairs[i].0, pairs[i].1)
  {
  }

  /** A greedy run from four nodes to one takes three steps. */
  lemma RunOfFour(steps: seq<multiset<Node>>, pairs: seq<(Node, Node)>, t: Node)
    requires GreedyRun(steps, pairs) && |steps[0]| == 4 && steps[|steps| - 1] == multiset{t}
    ensures |steps| == 4 && |pairs| == 3 && steps[3] == multiset{t}
  {
    RunSizes(steps, pairs, |steps| - 1);
  }

  /** Four symbols of equal frequency: the heap merges them pairwise, so
      the root's two subtrees weigh two each (a balanced tree, never the
      chain of depth three that is just as long a code in total). */
  lemma {:induction false} EqualFourBalanced(p: Node, q: Node, r: Node, u: Node, t: Node)
    requires p.frequency == 1 && q.frequency == 1 && r.frequency == 1 && u.frequency == 1
    requires GreedyTree(multiset{p, q, r, u}, t)
    ensures t.Internal? && t.frequency == 4
    ensures t.left.frequency == 2 && t.right.frequency == 2
  {
    var steps: seq<multiset<Node>>, pairs: seq<(Node, Node)> :|
      GreedyRun(steps, pairs) && steps[0] == multiset{p, q, r, u} && steps[|steps| - 1] == multiset{t};
    FourLight(p, q, r, u, steps[0]);
    RunOfFour(steps, pairs, t);
    RunStep(steps, pairs, 0);
    var x, y := FirstOfFour(steps[0], steps[1], pairs[0].0, pairs[0].1);
    var m1 := Merge(pairs[0].0, pairs[0].1);
    RunStep(steps, pairs, 1);
    SecondOfFour(x, y, m1, steps[1], steps[2], pairs[1].0, pairs[1].1);
    var m2 := Merge(pairs[1].0, pairs[1].1);
    RunStep(steps, pairs, 2);
    ThirdOfFour(m1, m2, t, steps[2], steps[3], pairs[2].0, pairs[2].1);
  }

  /** Two pops of least frequent nodes followed by the insertion of their
      merge make one greedy step. */
  lemma PopsGreedy(n0: seq<Node>, n1: seq<Node>, n2: seq<Node>, n3: seq<Node>, a: Node, b: Node)
    requires a in n0 && multiset(n1) == multiset(n0) - multiset{a}
    requires forall n :: n in n0 ==> a.frequency <= n.frequency
    requires b in n1 && multiset(n2) == multiset(n1) - multiset{b}
    requires forall n :: n in n1 ==> b.frequency <= n.frequency
    requires multiset(n3) == multiset(n2) + multiset{Merge(a, b)}
    ensures GreedyStep(multiset(n0), multiset(n3), a, b)
  {
    forall n | n in multiset(n0) - multiset{a} ensures b.frequency <= n.frequency {
      assert n in multiset(n1);
    }
    assert b in multiset(n1);
  }

  /** The body of hftree_build's loop: pops a least frequent node `a`, then a
      least frequent node `b` of the rest, and inserts their merge. */
  method MergeSmallest(h: MinHeap) returns (ghost a: Node, ghost b: Node)
    requires h.Valid() && h.size > 1
    requires forall n :: n in h.Nodes() ==> WellFormed(n)
    modifies h`size, h.data
    ensures h.data == old(h.data) && h.Valid() && h.size == old(h.size) - 1
    ensures GreedyStep(multiset(old(h.Nodes())), multiset(h.Nodes()), a, b)
    ensures forall n :: n in h.Nodes() ==> WellFormed(n)
    ensures LeafBag(h.Nodes()) == LeafBag(old(h.Nodes()))
    ensures SumFreqs(h.Nodes()) == SumFreqs(old(h.Nodes()))
  {
    ghost var n0 := h.Nodes();
    var first := h.Pop();
    ghost var n1 := h.Nodes();
    var second := h.Pop();
    ghost var n2 := h.Nodes();
    var internal := Merge(first.value, second.value);
    h.Insert(internal);
    a, b := first.value, second.value;
    MergeStep(n0, n1, n2, h.Nodes(), internal);
    PopsGreedy(n0, n1, n2, h.Nodes(), a, b);
  }

  /** The single node left in the heap is the whole forest. */
  lemma LastNode(last: seq<Node>, r: Node)
    requires last == [r]
    ensures LeafBag(last) == multiset(Leaves(r)) && SumFreqs(last) == r.frequency
  {
    assert last[1..] == [];
  }

  /** What hftree_build's loop keeps of the heap it started with: the nodes
      `now` are well-formed trees, reached from `start` by greedy merges, over
      the same leaves and with the same total frequency; and the heap empties
      only if it started empty. */
  ghost predicate Forest(start: seq<Node>, now: seq<Node>)
  {
    && (forall n :: n in now ==> WellFormed(n))
    && LeafBag(now) == LeafBag(start) && SumFreqs(now) == SumFreqs(start)
    && (|now| == 0) == (|start| == 0)
    && GreedyFrom(multiset(start), multiset(now))
  }

  /** One iteration of the loop keeps the forest. */
  lemma ForestStep(start: seq<Node>, now: seq<Node>, next: seq<Node>, a: Node, b: Node)
    requires Forest(start, now) && |now| > 1 && |next| == |now| - 1
    requires GreedyStep(multiset(now), multiset(next), a, b)
    requires forall n :: n in next ==> WellFormed(n)
    requires LeafBag(next) == LeafBag(now) && SumFreqs(next) == SumFreqs(now)
    ensures Forest(start, next)
  {
    GreedyFromStep(multiset(start), multiset(now), multiset(next), a, b);
  }

  /** The single tree the loop leaves is a greedy tree over the starting
      leaves, weighing what they weigh together. */
  lemma ForestRoot(start: seq<Node>, last: seq<Node>, r: Node)
    requires Forest(start, last) && last == [r]
    ensures WellFormed(r) && GreedyTree(multiset(start), r)
    ensures multiset(Leaves(r)) == LeafBag(start) && r.frequency == SumFreqs(start)
  {
    LastNode(last, r);
    assert multiset(last) == multiset{r};
  }

  /** The loop of hftree_build: merges the two least frequent nodes while
      more than one is left, keeping the forest. */
  method MergeAll(h: MinHeap, ghost start: seq<Node>)
    requires h.Valid() && Forest(start, h.Nodes())
    modifies h`size, h.data
    ensures h.data == old(h.data) && h.Valid() && h.size <= 1 && Forest(start, h.Nodes())
  {
    while h.size > 1
      invariant h.data == old(h.data) && h.Valid() && Forest(start, h.Nodes())
      decreases h.size
    {
      ghost var now := h.Nodes();
      ghost var a, b := MergeSmallest(h);
      ForestStep(start, now, h.Nodes(), a, b);
    }
  }

  /** struct hftree: the heap the tree is built in and, once built, its root. */
  class HuffTree {
    var heap: MinHeap
    var root: Option<Node>

    /** hftree_new: a heap holding one leaf per symbol of nonzero frequency. */
    constructor (freqs: seq<nat>)
      requires |freqs| == 256
      ensures fresh(heap) && fresh(heap.data) && heap.Valid() && root == None
      ensures multiset(heap.Nodes()) == multiset(LeavesBelow(freqs, 256))
    {
      var h := InitialHeap(freqs);
      heap := h;
      root := None;
    }

    /** hftree_build: while more than one node is left, pops two, and inserts
        their merge with the less frequent one on the left; then pops the
        root, which is NULL (None) for an empty heap. Both pops in the loop
        succeed because the heap holds at least two nodes, so the source's
        NULL branches for them are never taken. */
    method Build()
      requires heap.Valid() && forall n :: n in heap.Nodes() ==> WellFormed(n)
      modifies this`root, heap`size, heap.data
      ensures heap.Valid() && heap.size == 0
      ensures root.None? <==> old(heap.size) == 0
      ensures root.Some? ==>
        && WellFormed(root.value)
        && GreedyTree(multiset(old(heap.Nodes())), root.value)
        && multiset(Leaves(root.value)) == LeafBag(old(heap.Nodes()))
        && root.value.frequency == SumFreqs(old(heap.Nodes()))
    {
      ghost var start := heap.Nodes();
      GreedyFromStart(multiset(start));
      MergeAll(heap, start);
      ghost var last := heap.Nodes();
      root := heap.Pop();
      if root.Some? {
        ForestRoot(start, last, root.value);
      }
    }

    /** hftree_generate_dict: builds the tree and walks it from the root with
        the empty path; an empty tree leaves the table untouched. */
    method GenerateDict(dict: array<Code>)
      requires heap.Valid() && forall n :: n in heap.Nodes() ==> WellFormed(n)
      requires dict.Length == 256
      modifies this`root, heap`size, heap.data, dict
      ensures heap.Valid() && heap.size == 0
      ensures root.None? <==> old(heap.size) == 0
      ensures root.None? ==> dict[..] == old(dict[..])
      ensures root.Some? ==>
        && WellFormed(root.value)
        && GreedyTree(multiset(old(heap.Nodes())), root.value)
        && multiset(Leaves(root.value)) == LeafBag(old(heap.Nodes()))
        && root.value.frequency == SumFreqs(old(heap.Nodes()))
        && dict[..] == Collect(root.value, old(dict[..]), 0, 0)
    {
      Build();
      if root.Some? {
        var d := Collect(root.value, dict[..], 0, 0);
        forall j | 0 <= j < 256 {
          dict[j] := d[j];
        }
      }
    }
  }
}
