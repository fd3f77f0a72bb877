/** The binary min-heap of tree nodes (struct minheap in minheap.h): a fixed
    array of 256 node slots of which the first `size` hold a heap ordered by
    frequency. */
module MinHeaps {
  import opened Bits

  /** A Huffman tree node (struct node). A leaf stands for one byte; an
      internal node has two children. Both carry a frequency. The NULL child
      pointers of a leaf are the absence of children here. */
  datatype Node =
    | Leaf(symbol: Uint8, frequency: nat)
    | Internal(frequency: nat, left: Node, right: Node)

  datatype Option<T> = None | Some(value: T)

  /** Number of node slots in struct minheap. */
  const Capacity: nat := 256

  function Parent(i: nat): nat
    requires i > 0
  {
    (i - 1) / 2
  }

  /** No node has a smaller frequency than its parent. */
  predicate HeapOrdered(s: seq<Node>)
  {
    forall c {:trigger Parent(c)} :: 0 < c < |s| ==> s[Parent(c)].frequency <= s[c].frequency
  }

  /** Heap order everywhere except possibly between `i` and its parent, with
      i's parent no larger than i's children: the state while sifting up. */
  predicate HeapExceptUp(s: seq<Node>, i: nat)
  {
    && (forall c {:trigger Parent(c)} :: 0 < c < |s| && c != i ==> s[Parent(c)].frequency <= s[c].frequency)
    && (0 < i < |s| ==>
          forall c {:trigger Parent(c)} :: 0 < c < |s| && Parent(c) == i ==> s[Parent(i)].frequency <= s[c].frequency)
  }

  /** Heap order everywhere except possibly between `i` and its children, with
      i's parent no larger than i's children: the state while sifting down. */
  predicate HeapExceptDown(s: seq<Node>, i: nat)
  {
    && (forall c {:trigger Parent(c)} :: 0 < c < |s| && Parent(c) != i ==> s[Parent(c)].frequency <= s[c].frequency)
    && (0 < i < |s| ==>
          forall c {:trigger Parent(c)} :: 0 < c < |s| && Parent(c) == i ==> s[Parent(i)].frequency <= s[c].frequency)
  }

  /** Every node of a heap has at least the frequency of every node above it. */
  lemma {:induction false} AncestorBound(s: seq<Node>, j: nat)
    requires HeapOrdered(s) && j < |s|
    ensures s[0].frequency <= s[j].frequency
    decreases j
  {
    if j > 0 {
      AncestorBound(s, Parent(j));
    }
  }

  /** The root of a heap has a minimum frequency. */
  lemma RootIsMinimum(s: seq<Node>)
    requires HeapOrdered(s) && |s| > 0
    ensures forall n :: n in s ==> s[0].frequency <= n.frequency
  {
    forall n | n in s ensures s[0].frequency <= n.frequency {
      var j :| 0 <= j < |s| && s[j] == n;
      AncestorBound(s, j);
    }
  }

  /** Exchanging two entries keeps the same nodes. */
  lemma SwapKeepsNodes(s: seq<Node>, a: nat, b: nat)
    requires a < |s| && b < |s|
    ensures multiset(s[a := s[b]][b := s[a]]) == multiset(s)
  {
  }

  /** Moving the last node of a heap to the root in place of the minimum leaves a
      heap except below the root, holding the other nodes. */
  lemma PopStep(s: seq<Node>)
    requires HeapOrdered(s) && |s| >= 2
    ensures var t := [s[|s| - 1]] + s[1..|s| - 1];
      && HeapExceptDown(t, 0) && multiset(t) == multiset(s) - multiset{s[0]}
  {
    var t := [s[|s| - 1]] + s[1..|s| - 1];
    assert s == [s[0]] + s[1..|s| - 1] + [s[|s| - 1]];
    forall c | 0 < c < |t| && Parent(c) != 0 ensures t[Parent(c)].frequency <= t[c].frequency {
      assert t[Parent(c)] == s[Parent(c)] && t[c] == s[c];
    }
  }

  /** The children of `i` below `n` are its left and right slots. */
  lemma ChildrenOf(i: nat, n: nat)
    ensures forall d {:trigger Parent(d)} :: 0 < d < n && Parent(d) == i ==> d == 2 * i + 1 || d == 2 * i + 2
  {
  }

  /** One step of sifting up: exchanging the node at `i` with a strictly larger
      parent moves the exception up to the parent and keeps the nodes. */
  lemma SiftUpStep(s: seq<Node>, i: nat)
    requires 0 < i < |s| && HeapExceptUp(s, i)
    requires s[Parent(i)].frequency > s[i].frequency
    ensures var p := Parent(i);
      var s' := s[p := s[i]][i := s[p]];
      && HeapExceptUp(s', p) && multiset(s') == multiset(s)
  {
    var p := Parent(i);
    var s' := s[p := s[i]][i := s[p]];
    SwapKeepsNodes(s, p, i);
    forall c | 0 < c < |s'| && c != p ensures s'[Parent(c)].frequency <= s'[c].frequency {
      if c == i {
      } else if Parent(c) == i {
        assert s[Parent(i)].frequency <= s[c].frequency;
      } else if Parent(c) == p {
        assert s[Parent(c)].frequency <= s[c].frequency;
      } else {
        assert s[Parent(c)].frequency <= s[c].frequency;
      }
    }
    if 0 < p {
      forall c | 0 < c < |s'| && Parent(c) == p ensures s'[Parent(p)].frequency <= s'[c].frequency {
        assert s[Parent(p)].frequency <= s[p].frequency;
        if c != i {
          assert s[Parent(c)].frequency <= s[c].frequency;
        }
      }
    }
  }

  /** Sifting up stops at the root or below a parent that is no larger. */
  lemma SiftUpDone(s: seq<Node>, i: nat)
    requires i < |s| && HeapExceptUp(s, i)
    requires i == 0 || s[Parent(i)].frequency <= s[i].frequency
    ensures HeapOrdered(s)
  {
    forall c | 0 < c < |s| ensures s[Parent(c)].frequency <= s[c].frequency {
    }
  }

  /** One step of sifting down: exchanging the node at `i` with its smallest
      child `c` moves the exception down to `c` and keeps the nodes. */
  lemma SiftDownStep(s: seq<Node>, i: nat, c: nat)
    requires (c == 2 * i + 1 || c == 2 * i + 2) && c < |s| && HeapExceptDown(s, i)
    requires s[c].frequency < s[i].frequency
    requires 2 * i + 1 < |s| ==> s[c].frequency <= s[2 * i + 1].frequency
    requires 2 * i + 2 < |s| ==> s[c].frequency <= s[2 * i + 2].frequency
    ensures var s' := s[c := s[i]][i := s[c]];
      && HeapExceptDown(s', c) && multiset(s') == multiset(s)
  {
    var s' := s[c := s[i]][i := s[c]];
    ChildrenOf(i, |s|);
    assert Parent(c) == i;
    SwapKeepsNodes(s, c, i);
    forall d | 0 < d < |s'| && Parent(d) != c ensures s'[Parent(d)].frequency <= s'[d].frequency {
      if d == i {
        assert s[Parent(i)].frequency <= s[c].frequency;
      } else if Parent(d) == i {
        assert s[c].frequency <= s[d].frequency;
      } else {
        assert s[Parent(d)].frequency <= s[d].frequency;
      }
    }
    forall d | 0 < d < |s'| && Parent(d) == c ensures s'[Parent(c)].frequency <= s'[d].frequency {
      assert s[Parent(d)].frequency <= s[d].frequency;
    }
  }

  /** Sifting down stops when neither child is smaller. */
  lemma SiftDownDone(s: seq<Node>, i: nat)
    requires i < |s| && HeapExceptDown(s, i)
    requires 2 * i + 1 < |s| ==> s[i].frequency <= s[2 * i + 1].frequency
    requires 2 * i + 2 < |s| ==> s[i].frequency <= s[2 * i + 2].frequency
    ensures HeapOrdered(s)
  {
    ChildrenOf(i, |s|);
    forall d | 0 < d < |s| ensures s[Parent(d)].frequency <= s[d].frequency {
    }
  }

  /** A sequence that agrees with `s` except that entries `a` and `b` are
      exchanged is `s` with those entries exchanged. */
  lemma SwappedPrefix(t: seq<Node>, s: seq<Node>, a: nat, b: nat)
    requires |t| == |s| && a < |s| && b < |s|
    requires t[a] == s[b] && t[b] == s[a]
    requires forall j :: 0 <= j < |s| && j != a && j != b ==> t[j] == s[j]
    ensures t == s[a := s[b]][b := s[a]]
  {
  }

  class MinHeap {
    var data: array<Node>
    var size: nat

    /** The slots are the 256 of struct minheap and the first `size` form a heap. */
    ghost predicate Valid()
      reads this, data
    {
      data.Length == Capacity && size <= Capacity && HeapOrdered(data[..size])
    }

    /** The nodes the heap holds. */
    ghost function Nodes(): seq<Node>
      reads this, data
      requires size <= data.Length
    {
      data[..size]
    }

    /** minheap_new: an empty heap. The C slots start as NULL pointers; here
        they hold an arbitrary node that no operation reads. */
    constructor ()
      ensures Valid() && fresh(data) && size == 0 && Nodes() == []
    {
      data := new Node[Capacity](_ => Leaf(0, 0));
      size := 0;
    }

    /** Exchanges two of the first `size` slots, as the three-assignment swaps
        of minheap_insert and minheap_heapify do. */
    method Swap(a: nat, b: nat)
      requires data.Length == Capacity && size <= Capacity && a < size && b < size
      modifies data
      ensures data[..size] == old(data[..size])[a := old(data[b])][b := old(data[a])]
      ensures multiset(data[..size]) == multiset(old(data[..size]))
    {
      ghost var s := data[..size];
      SwapKeepsNodes(s, a, b);
      data[a], data[b] := data[b], data[a];
      SwappedPrefix(data[..size], s, a, b);
    }

    /** minheap_insert: stores `t` in the first free slot and swaps it with its
        parent while the parent's frequency is strictly larger. Nothing in the
        source checks the 256-slot bound, so the caller must leave room. */
    method Insert(t: Node)
      requires Valid() && size < Capacity
      modifies this`size, data
      ensures Valid() && size == old(size) + 1
      ensures multiset(Nodes()) == multiset(old(Nodes())) + multiset{t}
    {
      ghost var before := data[..size];
      var i: nat := size;
      size := size + 1;
      data[i] := t;
      assert data[..size] == before + [t];
      while i != 0 && data[Parent(i)].frequency > t.frequency
        invariant size == old(size) + 1 && i < size <= data.Length == Capacity
        invariant data[i] == t
        invariant HeapExceptUp(data[..size], i)
        invariant multiset(data[..size]) == multiset(before) + multiset{t}
        decreases i
      {
        i := SwapUp(i);
      }
      SiftUpDone(data[..size], i);
    }

    /** One step of the insert loop: the node at `i` changes places with its
        larger parent, and the exception moves up to the parent. */
    method SwapUp(i: nat) returns (p: nat)
      requires data.Length == Capacity && size <= Capacity && 0 < i < size
      requires HeapExceptUp(data[..size], i) && data[Parent(i)].frequency > data[i].frequency
      modifies data
      ensures p == Parent(i) && data[p] == old(data[i])
      ensures HeapExceptUp(data[..size], p)
      ensures multiset(data[..size]) == multiset(old(data[..size]))
    {
      p := Parent(i);
      ghost var s := data[..size];
      SiftUpStep(s, i);
      Swap(p, i);
      assert data[..size] == s[p := s[i]][i := s[p]];
    }

    /** minheap_heapify: moves the node at `i` down, swapping it with the child
        of strictly smaller frequency (the left one when both qualify equally),
        until neither child is smaller. */
    method Heapify(i: nat)
      requires data.Length == Capacity && size <= Capacity && i < size
      requires HeapExceptDown(data[..size], i)
      modifies data
      ensures HeapOrdered(data[..size])
      ensures multiset(data[..size]) == multiset(old(data[..size]))
      decreases size - i
    {
      var smallest := i;
      var l, r := 2 * i + 1, 2 * i + 2;
      if l < size && data[l].frequency < data[smallest].frequency {
        smallest := l;
      }
      if r < size && data[r].frequency < data[smallest].frequency {
        smallest := r;
      }
      if smallest != i {
        SwapDown(i, smallest);
        Heapify(smallest);
      } else {
        SiftDownDone(data[..size], i);
      }
    }

    /** One step of heapify: the node at `i` changes places with its smallest
        child `c`, and the exception moves down to `c`. */
    method SwapDown(i: nat, c: nat)
      requires data.Length == Capacity && size <= Capacity
      requires (c == 2 * i + 1 || c == 2 * i + 2) && c < size && HeapExceptDown(data[..size], i)
      requires data[c].frequency < data[i].frequency
      requires 2 * i + 1 < size ==> data[c].frequency <= data[2 * i + 1].frequency
      requires 2 * i + 2 < size ==> data[c].frequency <= data[2 * i + 2].frequency
      modifies data
      ensures HeapExceptDown(data[..size], c)
      ensures multiset(data[..size]) == multiset(old(data[..size]))
    {
      ghost var s := data[..size];
      SiftDownStep(s, i, c);
      Swap(c, i);
      assert data[..size] == s[c := s[i]][i := s[c]];
    }

    /** The first half of minheap_pop's removal: the last node takes the root's
        slot and the heap shrinks by one. */
    method MoveLastToRoot()
      requires data.Length == Capacity && 2 <= size <= Capacity
      modifies this`size, data
      ensures size == old(size) - 1
      ensures var s := old(data[..size]); data[..size] == [s[|s| - 1]] + s[1..|s| - 1]
    {
      ghost var before := data[..size];
      data[0] := data[size - 1];
      size := size - 1;
      assert data[..size] == [before[|before| - 1]] + before[1..|before| - 1];
    }

    /** minheap_pop: NULL on an empty heap; otherwise removes and returns the
        root, moving the last node to the root and sifting it down. */
    method Pop() returns (r: Option<Node>)
      requires Valid()
      modifies this`size, data
      ensures Valid()
      ensures old(size) == 0 ==> r == None && size == 0 && data[..] == old(data[..])
      ensures old(size) > 0 ==>
        && r.Some? && r.value == old(Nodes())[0] && size == old(size) - 1
        && multiset(Nodes()) == multiset(old(Nodes())) - multiset{r.value}
        && forall n :: n in old(Nodes()) ==> r.value.frequency <= n.frequency
    {
      if size == 0 {
        return None;
      }
      RootIsMinimum(data[..size]);
      var root := data[0];
      if size == 1 {
        size := size - 1;
        return Some(root);
      }
      RemoveRoot();
      return Some(root);
    }

    /** The pop of a heap of two or more nodes: the last node moves to the
        root and sifts down; the heap loses its root and nothing else. */
    method RemoveRoot()
      requires Valid() && size >= 2
      modifies this`size, data
      ensures Valid() && size == old(size) - 1
      ensures multiset(Nodes()) == multiset(old(Nodes())) - multiset{old(Nodes())[0]}
    {
      ghost var before := data[..size];
      PopStep(before);
      MoveLastToRoot();
      ghost var moved := data[..size];
      Heapify(0);
      assert multiset(data[..size]) == multiset(moved) == multiset(before) - multiset{before[0]};
    }
  }

  /** A node popped from a heap holding `ns`, no larger than any of its nodes,
      is `first` when the heap holds `first` and the nodes of `rest`, all of
      strictly larger frequency; the nodes of `rest` are left. */
  lemma PopsLeast(ns: seq<Node>, first: Node, rest: multiset<Node>, r: Node)
    requires multiset(ns) == multiset{first} + rest
    requires forall n :: n in rest ==> first.frequency < n.frequency
    requires |ns| > 0 && r == ns[0] && forall n :: n in ns ==> r.frequency <= n.frequency
    ensures r == first && multiset(ns) - multiset{r} == rest
  {
    assert first in multiset(ns);
    assert r in multiset(ns);
  }

  /** One pop of the trace below: the heap holds `first` and the nodes of
      `rest`, all of strictly larger frequency, so `first` comes out. */
  method PopNext(h: MinHeap, first: Node, ghost rest: multiset<Node>) returns (t: Node)
    requires h.Valid() && multiset(h.Nodes()) == multiset{first} + rest
    requires forall n :: n in rest ==> first.frequency < n.frequency
    modifies h`size, h.data
    ensures h.Valid() && t == first && multiset(h.Nodes()) == rest && h.size == |rest|
  {
    ghost var ns := h.Nodes();
    var r := h.Pop();
    PopsLeast(ns, first, rest, r.value);
    t := r.value;
  }

  lemma Regroup(empty: seq<Node>, a: Node, b: Node, c: Node, d: Node, e: Node)
    requires empty == []
    ensures multiset(empty) + multiset{a} + multiset{b} + multiset{c} + multiset{d} + multiset{e}
         == multiset{c} + (multiset{d} + (multiset{e} + (multiset{a} + multiset{b})))
  {
  }

  /** The insertions of the test below: leaves of frequencies 5, 7, 1, 2, 3 for
      symbols 0 to 4, in that order. */
  method FillTrace() returns (h: MinHeap)
    ensures fresh(h) && fresh(h.data) && h.Valid()
    ensures multiset(h.Nodes()) == multiset{Leaf(2, 1)} + (multiset{Leaf(3, 2)}
      + (multiset{Leaf(4, 3)} + (multiset{Leaf(0, 5)} + multiset{Leaf(1, 7)})))
  {
    h := new MinHeap();
    Regroup(h.Nodes(), Leaf(0, 5), Leaf(1, 7), Leaf(2, 1), Leaf(3, 2), Leaf(4, 3));
    h.Insert(Leaf(0, 5));
    h.Insert(Leaf(1, 7));
    h.Insert(Leaf(2, 1));
    h.Insert(Leaf(3, 2));
    h.Insert(Leaf(4, 3));
  }

  /** The source's test: after those insertions the leaves pop in symbol order
      2, 3, 4, 0, 1, and a sixth pop finds the heap empty. */
  method PopOrderTrace() returns (symbols: seq<Uint8>, last: Option<Node>)
    ensures symbols == [2, 3, 4, 0, 1] && last == None
  {
    var h := FillTrace();
    var t0 := PopNext(h, Leaf(2, 1), multiset{Leaf(3, 2)} + (multiset{Leaf(4, 3)} + (multiset{Leaf(0, 5)} + multiset{Leaf(1, 7)})));
    var t1 := PopNext(h, Leaf(3, 2), multiset{Leaf(4, 3)} + (multiset{Leaf(0, 5)} + multiset{Leaf(1, 7)}));
    var t2 := PopNext(h, Leaf(4, 3), multiset{Leaf(0, 5)} + multiset{Leaf(1, 7)});
    var t3 := PopNext(h, Leaf(0, 5), multiset{Leaf(1, 7)});
    var t4 := PopNext(h, Leaf(1, 7), multiset{});
    symbols := [t0.symbol, t1.symbol, t2.symbol, t3.symbol, t4.symbol];
    last := h.Pop();
  }
}
