/**
 The sparse tree that keeps node hashes and sums in two maps, and how far it agrees with the full
 tree of the orders inserted into it.
 */
module OrderBookTree {
  import opened OrderBook
  import opened Arith

  /** The maps and the root of a tree, as a value. */
  datatype Tree = Tree(levels: nat, hashes: map<nat, Hash>, data: map<nat, Sums>, root: Hash)

  function EmptyHash(height: nat): Hash {
    if height == 0 then ZERO else TwoToOne(TwoToOne(EmptyHash(height - 1), EmptyHash(height - 1)), Elements(NONE))
  }

  /** The recorded hash of a node, or that of an empty subtree. */
  function HashIn(t: Tree, height: nat, n: nat): Hash {
    if n in t.hashes then t.hashes[n] else EmptyHash(height)
  }

  function DataIn(t: Tree, n: nat): Sums {
    if n in t.data then t.data[n] else NONE
  }

  predicate AtHeight(t: Tree, n: nat, height: nat) {
    height <= t.levels && Ancestor(n, t.levels - height) == 1
  }

  /** A leaf's record: the hash of its order, and the order's asks without its bids. */
  predicate LeafSound(t: Tree, book: Leaves, key: nat) {
    HashIn(t, 0, key) == HashOrder(At(book, key)) && DataIn(t, key) == At(book, key).(bidBase := 0, bidQuote := 0)
  }

  /** A node's hash is that of its children and its sums, and its asks are those of its children. */
  predicate NodeSound(t: Tree, height: nat, n: nat)
    requires height > 0
  {
    && HashIn(t, height, n)
       == TwoToOne(TwoToOne(HashIn(t, height - 1, 2 * n), HashIn(t, height - 1, 2 * n + 1)), Elements(DataIn(t, n)))
    && DataIn(t, n).askBase == DataIn(t, 2 * n).askBase + DataIn(t, 2 * n + 1).askBase
    && DataIn(t, n).askQuote == DataIn(t, 2 * n).askQuote + DataIn(t, 2 * n + 1).askQuote
  }

  ghost predicate Sound(t: Tree, book: Leaves) {
    && t.levels > 0
    && (forall k: nat {:trigger LeafSound(t, book, k)} :: AtHeight(t, k, 0) ==> LeafSound(t, book, k))
    && (forall i: nat, n: nat {:trigger NodeSound(t, i, n)} :: 0 < i && AtHeight(t, n, i) ==> NodeSound(t, i, n))
    && t.root == HashIn(t, t.levels, 1)
  }

  lemma {:induction false} AncestorOfOne(steps: nat)
    ensures steps > 0 ==> Ancestor(1, steps) == 0
    ensures Ancestor(0, steps) == 0
  {
    if steps > 0 {
      AncestorOfOne(steps - 1);
    }
  }

  lemma {:induction false} AncestorSplit(n: nat, a: nat, b: nat)
    ensures Ancestor(n, a + b) == Ancestor(Ancestor(n, a), b)
  {
    if a > 0 {
      AncestorSplit(n / 2, a - 1, b);
    }
  }

  /** A node has one height. */
  lemma OneHeight(t: Tree, n: nat, i: nat, j: nat)
    requires AtHeight(t, n, i) && AtHeight(t, n, j)
    ensures i == j
  {
    if i < j {
      AncestorSplit(n, t.levels - j, j - i);
      AncestorOfOne(j - i);
    } else if j < i {
      AncestorSplit(n, t.levels - i, i - j);
      AncestorOfOne(i - j);
    }
  }

  lemma Relatives(t: Tree, n: nat, height: nat)
    requires height <= t.levels
    ensures height > 0 ==> (AtHeight(t, n, height) <==> AtHeight(t, 2 * n, height - 1))
    ensures height > 0 ==> (AtHeight(t, n, height) <==> AtHeight(t, 2 * n + 1, height - 1))
    ensures height < t.levels && AtHeight(t, n, height) ==>
              AtHeight(t, n / 2, height + 1) && AtHeight(t, Sibling(n), height)
    ensures AtHeight(t, n, height) ==> n > 0
  {
    ParentOf(n);
    AncestorOfOne(t.levels - height);
  }

  // ---------- asks and hashes ----------

  /** Cached asks are the asks of the leaves below. */
  lemma {:induction false} AsksAreExact(t: Tree, book: Leaves, height: nat, n: nat)
    requires Sound(t, book) && AtHeight(t, n, height)
    ensures DataIn(t, n).askBase == SumAt(book, height, n).askBase
    ensures DataIn(t, n).askQuote == SumAt(book, height, n).askQuote
  {
    if height == 0 {
      assert LeafSound(t, book, n);
    } else {
      Relatives(t, n, height);
      assert NodeSound(t, height, n);
      AsksAreExact(t, book, height - 1, 2 * n);
      AsksAreExact(t, book, height - 1, 2 * n + 1);
    }
  }

  /** The path the tree hands out from a node up some steps. */
  function CachedPath(t: Tree, height: nat, n: nat, steps: nat): (p: seq<PathNode>)
    ensures |p| == steps
    decreases steps
  {
    if steps == 0 then []
    else [PathNode(HashIn(t, height, Sibling(n)), DataIn(t, n / 2))] + CachedPath(t, height + 1, n / 2, steps - 1)
  }

  lemma {:induction false} CachedPathVerifies(t: Tree, book: Leaves, height: nat, n: nat, steps: nat)
    requires Sound(t, book) && AtHeight(t, n, height) && steps == t.levels - height
    ensures Fold(HashIn(t, height, n), CachedPath(t, height, n, steps), Bits(n, steps)) == t.root
    decreases steps
  {
    if steps > 0 {
      Relatives(t, n, height);
      ParentOf(n);
      assert NodeSound(t, height + 1, n / 2);
      CachedPathVerifies(t, book, height + 1, n / 2, steps - 1);
    }
  }

  /** Every proof verifies, for inserted and absent leaves alike. */
  lemma {:induction false} ProofVerifies(t: Tree, book: Leaves, key: nat)
    requires Sound(t, book) && AtHeight(t, key, 0)
    ensures Fold(HashOrder(At(book, key)), CachedPath(t, 0, key, t.levels), Bits(key, t.levels)) == t.root
  {
    assert LeafSound(t, book, key);
    CachedPathVerifies(t, book, 0, key, t.levels);
  }

  // ---------- bids ----------

  /** All cached bid sums above the leaves are right. */
  ghost predicate BidsRight(t: Tree, book: Leaves) {
    forall i: nat, n: nat {:trigger BidRight(t, book, i, n)} :: 0 < i && AtHeight(t, n, i) ==> BidRight(t, book, i, n)
  }

  predicate BidRight(t: Tree, book: Leaves, height: nat, n: nat) {
    && DataIn(t, n).bidBase == SumAt(book, height, n).bidBase
    && DataIn(t, n).bidQuote == SumAt(book, height, n).bidQuote
  }

  lemma {:induction false} HashesAreExact(t: Tree, book: Leaves, height: nat, n: nat)
    requires Sound(t, book) && BidsRight(t, book) && AtHeight(t, n, height)
    ensures HashIn(t, height, n) == HashAt(book, height, n)
    ensures height > 0 ==> DataIn(t, n) == SumAt(book, height, n)
  {
    if height == 0 {
      assert LeafSound(t, book, n);
    } else {
      Relatives(t, n, height);
      assert NodeSound(t, height, n) && BidRight(t, book, height, n);
      AsksAreExact(t, book, height, n);
      HashesAreExact(t, book, height - 1, 2 * n);
      HashesAreExact(t, book, height - 1, 2 * n + 1);
    }
  }

  /** The root of the full tree pins every node of the sparse one, down to its sums. */
  lemma {:induction false} RootPins(t: Tree, book: Leaves, height: nat, n: nat)
    requires Sound(t, book) && AtHeight(t, n, height) && t.root == HashAt(book, t.levels, 1)
    ensures HashIn(t, height, n) == HashAt(book, height, n)
    ensures height > 0 ==> BidRight(t, book, height, n)
    decreases t.levels - height
  {
    if height < t.levels {
      Relatives(t, n, height);
      ParentOf(n);
      assert NodeSound(t, height + 1, n / 2);
      RootPins(t, book, height + 1, n / 2);
    }
    if height > 0 {
      assert NodeSound(t, height, n);
    }
  }

  /** The sparse tree has the root of the full tree exactly when all its bid sums are right. */
  lemma {:induction false} SparseIsFull(t: Tree, book: Leaves)
    requires Sound(t, book)
    ensures t.root == HashAt(book, t.levels, 1) <==> BidsRight(t, book)
  {
    assert AtHeight(t, 1, t.levels);
    if t.root == HashAt(book, t.levels, 1) {
      forall i: nat, n: nat | 0 < i && AtHeight(t, n, i) ensures BidRight(t, book, i, n) {
        RootPins(t, book, i, n);
      }
    } else if BidsRight(t, book) {
      HashesAreExact(t, book, t.levels, 1);
    }
  }

  /** With right bid sums its paths are those of the full tree. */
  lemma {:induction false} PathsAreFull(t: Tree, book: Leaves, height: nat, n: nat, steps: nat)
    requires Sound(t, book) && BidsRight(t, book) && AtHeight(t, n, height) && steps == t.levels - height
    ensures CachedPath(t, height, n, steps) == TruePath(book, height, n, steps)
    decreases steps
  {
    if steps > 0 {
      Relatives(t, n, height);
      HashesAreExact(t, book, height, Sibling(n));
      HashesAreExact(t, book, height + 1, n / 2);
      PathsAreFull(t, book, height + 1, n / 2, steps - 1);
    }
  }

  // ---------- one step of an insertion ----------

  /** Sound but for the ancestors of a key above some height. */
  ghost predicate SoundBelow(t: Tree, book: Leaves, key: nat, height: nat) {
    && t.levels > 0 && AtHeight(t, key, 0)
    && (forall k: nat {:trigger LeafSound(t, book, k)} :: AtHeight(t, k, 0) ==> LeafSound(t, book, k))
    && (forall i: nat, n: nat {:trigger NodeSound(t, i, n)} ::
          0 < i && AtHeight(t, n, i) && !(i > height && n == Ancestor(key, i)) ==> NodeSound(t, i, n))
  }

  lemma {:induction false} AncestorAtHeight(t: Tree, key: nat, height: nat)
    requires AtHeight(t, key, 0) && height <= t.levels
    ensures AtHeight(t, Ancestor(key, height), height)
  {
    AncestorSplit(key, height, t.levels - height);
  }

  /** The parent of a node on the way up, as the insertion records it. */
  function Recorded(t: Tree, height: nat, n: nat, sums: Sums): Tree {
    var p := n / 2;
    var children := TwoToOne(HashIn(t, height, 2 * p), HashIn(t, height, 2 * p + 1));
    t.(hashes := t.hashes[p := TwoToOne(children, Elements(sums))],
       data := t.data[p := sums])
  }

  lemma RecordLeaf(t: Tree, u: Tree, book: Leaves, key: nat, leaf: Sums)
    requires Sound(t, book) && AtHeight(t, key, 0)
    requires u == t.(hashes := t.hashes[key := HashOrder(leaf)],
                     data := t.data[key := leaf.(bidBase := 0, bidQuote := 0)])
    ensures SoundBelow(u, book[key := leaf], key, 0)
  {
    forall k: nat | AtHeight(u, k, 0) ensures LeafSound(u, book[key := leaf], k) {
      assert AtHeight(t, k, 0) && LeafSound(t, book, k);
    }
    forall i: nat, n: nat | 0 < i && AtHeight(u, n, i) && !(i > 0 && n == Ancestor(key, i)) ensures NodeSound(u, i, n) {
      assert AtHeight(t, n, i) && NodeSound(t, i, n);
      NotTheLeaf(t, key, i, n);
    }
  }

  /** A node above the leaves that is no ancestor of a leaf neither is that leaf nor has it as a child. */
  lemma {:induction false} NotTheLeaf(t: Tree, key: nat, height: nat, n: nat)
    requires AtHeight(t, key, 0) && 0 < height && AtHeight(t, n, height) && n != Ancestor(key, height)
    ensures n != key && 2 * n != key && 2 * n + 1 != key
  {
    if n == key {
      OneHeight(t, n, 0, height);
    }
    if 2 * n == key || 2 * n + 1 == key {
      Relatives(t, n, height);
      OneHeight(t, key, 0, height - 1);
    }
  }

  /** Recording a parent leaves the leaves alone. */
  lemma RecordKeepsLeaves(t: Tree, u: Tree, book: Leaves, p: nat, height: nat, k: nat)
    requires AtHeight(t, p, height + 1) && AtHeight(t, k, 0) && LeafSound(t, book, k)
    requires p in u.hashes && u.hashes == t.hashes[p := u.hashes[p]]
    requires p in u.data && u.data == t.data[p := u.data[p]]
    ensures LeafSound(u, book, k)
  {
    if k == p {
      OneHeight(t, k, 0, height + 1);
    }
  }

  /** It makes the parent sound and disturbs only that parent's own. */
  lemma RecordKeepsNodes(t: Tree, u: Tree, key: nat, height: nat, sums: Sums, i: nat, n: nat)
    requires height < t.levels && AtHeight(t, Ancestor(key, height + 1), height + 1)
    requires Ancestor(key, height + 1) == Ancestor(key, height) / 2
    requires u == Recorded(t, height, Ancestor(key, height), sums)
    requires var p := Ancestor(key, height + 1);
             && sums.askBase == DataIn(t, 2 * p).askBase + DataIn(t, 2 * p + 1).askBase
             && sums.askQuote == DataIn(t, 2 * p).askQuote + DataIn(t, 2 * p + 1).askQuote
    requires 0 < i && AtHeight(t, n, i) && !(i > height + 1 && n == Ancestor(key, i))
    requires !(i > height && n == Ancestor(key, i)) ==> NodeSound(t, i, n)
    ensures NodeSound(u, i, n)
  {
    Relatives(t, Ancestor(key, height + 1), height + 1);
    if n == Ancestor(key, height + 1) {
      OneHeight(t, n, i, height + 1);
    } else {
      NotAboveParent(t, key, height, i, n);
    }
  }

  /** Recording a parent makes it sound and disturbs only its own parent. */
  lemma RecordParent(t: Tree, u: Tree, book: Leaves, key: nat, height: nat, sums: Sums)
    requires SoundBelow(t, book, key, height) && height < t.levels
    requires u == Recorded(t, height, Ancestor(key, height), sums)
    requires var p := Ancestor(key, height) / 2;
             && sums.askBase == DataIn(t, 2 * p).askBase + DataIn(t, 2 * p + 1).askBase
             && sums.askQuote == DataIn(t, 2 * p).askQuote + DataIn(t, 2 * p + 1).askQuote
    ensures SoundBelow(u, book, key, height + 1)
    ensures AtHeight(u, Ancestor(key, height + 1), height + 1) && Ancestor(key, height + 1) == Ancestor(key, height) / 2
  {
    AncestorStep(key, height);
    AncestorAtHeight(t, key, height + 1);
    forall k: nat | AtHeight(u, k, 0) ensures LeafSound(u, book, k) {
      assert AtHeight(t, k, 0) && LeafSound(t, book, k);
      RecordKeepsLeaves(t, u, book, Ancestor(key, height + 1), height, k);
    }
    forall i: nat, n: nat | 0 < i && AtHeight(u, n, i) && !(i > height + 1 && n == Ancestor(key, i))
      ensures NodeSound(u, i, n)
    {
      assert AtHeight(t, n, i);
      assert !(i > height && n == Ancestor(key, i)) ==> NodeSound(t, i, n);
      RecordKeepsNodes(t, u, key, height, sums, i, n);
    }
  }

  lemma NotAboveParent(t: Tree, key: nat, height: nat, i: nat, n: nat)
    requires height < t.levels && AtHeight(t, Ancestor(key, height + 1), height + 1)
    requires 0 < i && AtHeight(t, n, i) && !(i > height + 1 && n == Ancestor(key, i))
    ensures 2 * n != Ancestor(key, height + 1) && 2 * n + 1 != Ancestor(key, height + 1)
  {
    var p := Ancestor(key, height + 1);
    if 2 * n == p || 2 * n + 1 == p {
      Relatives(t, n, i);
      OneHeight(t, p, i - 1, height + 1);
      AncestorStep(key, height + 1);
    }
  }

  // ---------- bids along an insertion ----------

  /** Bid sums are right but for the recorded ancestors of a key, which lack what the key's sibling wants. */
  ghost predicate BidsLack(t: Tree, book: Leaves, key: nat, height: nat) {
    forall i: nat, n: nat {:trigger BidRight(t, book, i, n)} :: 0 < i && AtHeight(t, n, i) ==>
      if n != Ancestor(key, i) then BidRight(t, book, i, n)
      else i <= height ==> BidShort(t, book, key, i, n)
  }

  predicate BidShort(t: Tree, book: Leaves, key: nat, height: nat, n: nat) {
    && DataIn(t, n).bidBase == SumAt(book, height, n).bidBase - At(book, Sibling(key)).bidBase
    && DataIn(t, n).bidQuote == SumAt(book, height, n).bidQuote - At(book, Sibling(key)).bidQuote
  }

  /** Bid sums are right wherever an insertion at a key leaves them alone. */
  ghost predicate OffPathRight(t: Tree, book: Leaves, key: nat) {
    forall i: nat, n: nat {:trigger BidRight(t, book, i, n)} ::
      0 < i && AtHeight(t, n, i) && n != Ancestor(key, i) ==> BidRight(t, book, i, n)
  }

  /** Replacing a leaf leaves the sums of all but its ancestors as they were. */
  lemma {:induction false} BidAfterLeaf(t: Tree, u: Tree, book: Leaves, key: nat, leaf: Sums, i: nat, n: nat)
    requires AtHeight(t, key, 0) && 0 < i && AtHeight(t, n, i) && n != Ancestor(key, i)
    requires u == t.(hashes := t.hashes[key := HashOrder(leaf)],
                     data := t.data[key := leaf.(bidBase := 0, bidQuote := 0)])
    ensures BidRight(u, book[key := leaf], i, n) <==> BidRight(t, book, i, n)
  {
    NotTheLeaf(t, key, i, n);
    Untouched(book, key, leaf, i, n);
  }

  lemma OffPathAfterLeaf(t: Tree, u: Tree, book: Leaves, key: nat, leaf: Sums)
    requires AtHeight(t, key, 0)
    requires u == t.(hashes := t.hashes[key := HashOrder(leaf)],
                     data := t.data[key := leaf.(bidBase := 0, bidQuote := 0)])
    ensures OffPathRight(u, book[key := leaf], key) <==> OffPathRight(t, book, key)
  {
    var after := book[key := leaf];
    forall i: nat, n: nat | 0 < i && AtHeight(t, n, i) && n != Ancestor(key, i)
      ensures AtHeight(u, n, i) && (BidRight(u, after, i, n) <==> BidRight(t, book, i, n))
    {
      BidAfterLeaf(t, u, book, key, leaf, i, n);
    }
    if OffPathRight(t, book, key) {
      forall i: nat, n: nat | 0 < i && AtHeight(u, n, i) && n != Ancestor(key, i) ensures BidRight(u, after, i, n) {
        assert AtHeight(t, n, i) && BidRight(t, book, i, n);
      }
    }
    if OffPathRight(u, after, key) {
      forall i: nat, n: nat | 0 < i && AtHeight(t, n, i) && n != Ancestor(key, i) ensures BidRight(t, book, i, n) {
        assert AtHeight(u, n, i) && BidRight(u, after, i, n);
      }
    }
  }

  lemma {:induction false} OffPathAfterParent(t: Tree, u: Tree, book: Leaves, key: nat, height: nat, sums: Sums)
    requires AtHeight(t, key, 0) && height < t.levels && u == Recorded(t, height, Ancestor(key, height), sums)
    ensures OffPathRight(u, book, key) <==> OffPathRight(t, book, key)
  {
    AncestorStep(key, height);
    AncestorAtHeight(t, key, height + 1);
    forall i: nat, n: nat | 0 < i && AtHeight(t, n, i) && n != Ancestor(key, i)
      ensures AtHeight(u, n, i) && DataIn(u, n) == DataIn(t, n)
    {
      if n == Ancestor(key, height + 1) {
        OneHeight(t, n, i, height + 1);
      }
    }
    if OffPathRight(t, book, key) {
      forall i: nat, n: nat | 0 < i && AtHeight(u, n, i) && n != Ancestor(key, i) ensures BidRight(u, book, i, n) {
        assert AtHeight(t, n, i) && BidRight(t, book, i, n);
      }
    }
    if OffPathRight(u, book, key) {
      forall i: nat, n: nat | 0 < i && AtHeight(t, n, i) && n != Ancestor(key, i) ensures BidRight(t, book, i, n) {
        assert AtHeight(u, n, i) && BidRight(u, book, i, n);
      }
    }
  }

  /** Recording a parent carries the missing bids up. */
  lemma {:induction false} BidsAfterParent(t: Tree, u: Tree, book: Leaves, key: nat, height: nat, sums: Sums)
    requires AtHeight(t, key, 0) && height < t.levels && BidsLack(t, book, key, height)
    requires u == Recorded(t, height, Ancestor(key, height), sums)
    requires BidShortSums(sums, book, key, height + 1)
    ensures BidsLack(u, book, key, height + 1)
  {
    var p := Ancestor(key, height + 1);
    AncestorStep(key, height);
    AncestorAtHeight(t, key, height + 1);
    forall i: nat, n: nat | 0 < i && AtHeight(u, n, i) && n != Ancestor(key, i) ensures BidRight(u, book, i, n) {
      assert AtHeight(t, n, i) && BidRight(t, book, i, n);
      if n == p {
        OneHeight(t, n, i, height + 1);
      }
    }
    forall i: nat, n: nat | 0 < i <= height + 1 && AtHeight(u, n, i) && n == Ancestor(key, i)
      ensures BidShort(u, book, key, i, n)
    {
      assert AtHeight(t, n, i);
      if n == p {
        OneHeight(t, n, i, height + 1);
      } else {
        assert i <= height;
        assert BidRight(t, book, i, n) || BidShort(t, book, key, i, n);
      }
    }
  }

  predicate BidShortSums(sums: Sums, book: Leaves, key: nat, height: nat) {
    var n := Ancestor(key, height);
    && sums.bidBase == SumAt(book, height, n).bidBase - At(book, Sibling(key)).bidBase
    && sums.bidQuote == SumAt(book, height, n).bidQuote - At(book, Sibling(key)).bidQuote
  }

  lemma SumUp(book: Leaves, height: nat, n: nat)
    ensures var here, sibling := SumAt(book, height, n), SumAt(book, height, Sibling(n));
            var up := SumAt(book, height + 1, n / 2);
            && up.bidBase == here.bidBase + sibling.bidBase
            && up.bidQuote == here.bidQuote + sibling.bidQuote
  {
    ParentOf(n);
  }

  /** At the end the bid sums are right exactly when nothing was missing. */
  lemma BidsAtTheEnd(t: Tree, book: Leaves, key: nat)
    requires t.levels > 0 && AtHeight(t, key, 0) && BidsLack(t, book, key, t.levels)
    ensures BidsRight(t, book) <==> At(book, Sibling(key)).bidBase == 0 && At(book, Sibling(key)).bidQuote == 0
  {
    var p := Ancestor(key, 1);
    AncestorAtHeight(t, key, 1);
    assert BidRight(t, book, 1, p) || !BidRight(t, book, 1, p);
    assert BidShort(t, book, key, 1, p);
    if At(book, Sibling(key)).bidBase == 0 && At(book, Sibling(key)).bidQuote == 0 {
      forall i: nat, n: nat | 0 < i && AtHeight(t, n, i) ensures BidRight(t, book, i, n) {
        if n == Ancestor(key, i) {
          assert BidRight(t, book, i, n) || BidShort(t, book, key, i, n);
        }
      }
    }
  }

  function WithSibling(t: Tree, n: nat, sums: Sums): Sums {
    var d := DataIn(t, Sibling(n));
    Sums(sums.askBase + d.askBase, sums.askQuote + d.askQuote, sums.bidBase + d.bidBase, sums.bidQuote + d.bidQuote)
  }

  /** The running sums with the sibling's added lack just what the leaf's sibling wants. */
  lemma {:induction false} SumsLack(t: Tree, book: Leaves, key: nat, height: nat, sums: Sums)
    requires height < t.levels && SoundBelow(t, book, key, height) && BidsLack(t, book, key, height)
    requires if height == 0 then sums == At(book, key) else BidShortSums(sums, book, key, height)
    ensures BidShortSums(WithSibling(t, Ancestor(key, height), sums), book, key, height + 1)
  {
    var n := Ancestor(key, height);
    AncestorStep(key, height);
    AncestorAtHeight(t, key, height);
    Relatives(t, n, height);
    SumUp(book, height, n);
    if height == 0 {
      assert LeafSound(t, book, Sibling(n));
    } else {
      ParentOf(n);
      assert BidRight(t, book, height, Sibling(n));
    }
  }

  /** How far an insertion has come: the node reached, its hash and the sums below it. */
  ghost predicate Climbing(t: Tree, book: Leaves, key: nat, height: nat, hash: Hash, sums: Sums, bids: bool) {
    var n := Ancestor(key, height);
    && height <= t.levels && SoundBelow(t, book, key, height)
    && hash == HashIn(t, height, n)
    && sums.askBase == DataIn(t, n).askBase && sums.askQuote == DataIn(t, n).askQuote
    && (bids <==> OffPathRight(t, book, key))
    && (bids ==> BidsLack(t, book, key, height)
                 && if height == 0 then sums == At(book, key) else BidShortSums(sums, book, key, height))
  }

  lemma ClimbStart(t: Tree, u: Tree, book: Leaves, key: nat, order: Sums)
    requires Sound(t, book) && AtHeight(t, key, 0)
    requires u == t.(hashes := t.hashes[key := HashOrder(order)],
                     data := t.data[key := order.(bidBase := 0, bidQuote := 0)])
    ensures Climbing(u, book[key := order], key, 0, HashOrder(order), order, OffPathRight(t, book, key))
  {
    RecordLeaf(t, u, book, key, order);
    OffPathAfterLeaf(t, u, book, key, order);
  }

  lemma ClimbStep(t: Tree, u: Tree, book: Leaves, key: nat, height: nat, hash: Hash, sums: Sums, above: Sums,
                  bids: bool)
    requires height < t.levels && Climbing(t, book, key, height, hash, sums, bids)
    requires above == WithSibling(t, Ancestor(key, height), sums)
    requires u == Recorded(t, height, Ancestor(key, height), above)
    ensures Climbing(u, book, key, height + 1, HashIn(u, height + 1, Ancestor(key, height + 1)), above, bids)
  {
    var n := Ancestor(key, height);
    ParentOf(n);
    AncestorStep(key, height);
    RecordParent(t, u, book, key, height, above);
    OffPathAfterParent(t, u, book, key, height, above);
    if bids {
      SumsLack(t, book, key, height, sums);
      BidsAfterParent(t, u, book, key, height, above);
    }
  }

  lemma ClimbEnd(t: Tree, u: Tree, book: Leaves, key: nat, hash: Hash, sums: Sums, bids: bool)
    requires Climbing(t, book, key, t.levels, hash, sums, bids) && u == t.(root := hash)
    ensures Sound(u, book)
    ensures BidsRight(u, book) <==> bids && At(book, Sibling(key)).bidBase == 0 && At(book, Sibling(key)).bidQuote == 0
  {
    forall k: nat | AtHeight(u, k, 0) ensures LeafSound(u, book, k) {
      assert AtHeight(t, k, 0) && LeafSound(t, book, k);
    }
    forall i: nat, n: nat | 0 < i && AtHeight(u, n, i) ensures NodeSound(u, i, n) {
      assert AtHeight(t, n, i) && NodeSound(t, i, n);
    }
    if bids {
      forall i: nat, n: nat | 0 < i && AtHeight(u, n, i) && n != Ancestor(key, i) ensures BidRight(u, book, i, n) {
        assert AtHeight(t, n, i) && BidRight(t, book, i, n);
      }
      forall i: nat, n: nat | 0 < i && AtHeight(u, n, i) && n == Ancestor(key, i) ensures BidShort(u, book, key, i, n) {
        assert AtHeight(t, n, i);
        assert BidRight(t, book, i, n) || BidShort(t, book, key, i, n);
      }
      BidsAtTheEnd(u, book, key);
    } else if BidsRight(u, book) {
      forall i: nat, n: nat | 0 < i && AtHeight(t, n, i) && n != Ancestor(key, i) ensures BidRight(t, book, i, n) {
        assert AtHeight(u, n, i) && BidRight(u, book, i, n);
      }
    }
  }

  lemma ClimbingKey(t: Tree, key: nat, height: nat)
    requires AtHeight(t, key, 0) && height < t.levels
    ensures Ancestor(key, height) > 1 && Ancestor(key, height + 1) == Ancestor(key, height) / 2
  {
    AncestorAtHeight(t, key, height);
    AncestorAtHeight(t, key, height + 1);
    AncestorStep(key, height);
    Relatives(t, Ancestor(key, height + 1), height + 1);
  }

  // ---------- the tree updated in place ----------

  class SparseTree {
    const levels: nat
    var emptyHashes: seq<Hash>
    var hashes: map<nat, Hash>
    var data: map<nat, Sums>
    var root: Hash
    ghost var book: Leaves

    function Value(): Tree
      reads this
    {
      Tree(levels, hashes, data, root)
    }

    ghost predicate Valid()
      reads this
    {
      && |emptyHashes| == levels + 1 && (forall i :: 0 <= i <= levels ==> emptyHashes[i] == EmptyHash(i))
      && Sound(Value(), book)
    }

    constructor (height: nat)
      requires height > 0
      ensures Valid() && levels == height && book == map[] && BidsRight(Value(), book)
    {
      var h, empty := ZERO, [ZERO];
      for i := 0 to height
        invariant |empty| == i + 1 && h == EmptyHash(i)
        invariant forall k :: 0 <= k <= i ==> empty[k] == EmptyHash(k)
      {
        h := TwoToOne(TwoToOne(h, h), ZERO);
        empty := empty + [h];
      }
      levels, emptyHashes, hashes, data, root, book := height, empty, map[], map[], h, map[];
      EmptyIsSound(height);
    }

    /** What the maps, or the empty subtrees, say of a node's sibling. */
    method LookUpSibling(height: nat, key: nat) returns (hash: Hash, sums: Sums)
      requires height < |emptyHashes| && emptyHashes[height] == EmptyHash(height)
      ensures hash == HashIn(Value(), height, Sibling(key)) && sums == DataIn(Value(), Sibling(key))
    {
      ParentOf(key);
      var sibling := if key % 2 == 0 then key + 1 else key - 1;
      hash := if sibling in hashes then hashes[sibling] else emptyHashes[height];
      sums := if sibling in data then data[sibling] else NONE;
    }

    /** Hashes and sums a node with its sibling, and records both at the parent. */
    method RecordUp(height: nat, key: nat, hash: Hash, sums: Sums) returns (parent: nat, parentHash: Hash, above: Sums)
      requires height < |emptyHashes| && emptyHashes[height] == EmptyHash(height)
      requires key > 1 && hash == HashIn(Value(), height, key)
      modifies this`hashes, this`data
      ensures parent == key / 2 && above == WithSibling(old(Value()), key, sums)
      ensures Value() == Recorded(old(Value()), height, key, above)
      ensures parentHash == HashIn(Value(), height + 1, parent)
    {
      ParentOf(key);
      parent := key / 2;
      var siblingHash, siblingSums := LookUpSibling(height, key);
      above := Sums(sums.askBase + siblingSums.askBase, sums.askQuote + siblingSums.askQuote,
                    sums.bidBase + siblingSums.bidBase, sums.bidQuote + siblingSums.bidQuote);
      var children := if key % 2 == 0 then TwoToOne(hash, siblingHash) else TwoToOne(siblingHash, hash);
      parentHash := TwoToOne(children, Elements(above));
      hashes := hashes[parent := parentHash];
      data := data[parent := above];
    }

    /**
     Records an order at its leaf, then hashes and sums up to the root. All bid sums are right
     afterwards exactly when those off the path were, and the sibling leaf carries no bids.
     */
    method InsertLeaf(index: nat, order: Sums)
      requires Valid() && index < Pow2(levels)
      modifies this`hashes, this`data, this`root, this`book
      ensures Valid()
      ensures book == old(book)[Pow2(levels) + index := order]
      ensures var sibling := At(book, Sibling(Pow2(levels) + index));
              BidsRight(Value(), book) <==>
                && OffPathRight(old(Value()), old(book), Pow2(levels) + index)
                && sibling.bidBase == 0 && sibling.bidQuote == 0
    {
      ghost var leaf: nat, before, bookBefore := Pow2(levels) + index, Value(), book;
      AncestorOfLeaf(leaf, levels);
      ghost var bids := OffPathRight(before, bookBefore, leaf);
      var key: nat, nodeHash, sums := Pow2(levels) + index, HashOrder(order), order;
      hashes := hashes[key := nodeHash];
      data := data[key := order.(bidBase := 0, bidQuote := 0)];
      book := book[key := order];
      ClimbStart(before, Value(), bookBefore, leaf, order);
      for i := 0 to levels
        invariant key == Ancestor(leaf, i) && book == bookBefore[leaf := order]
        invariant Climbing(Value(), book, leaf, i, nodeHash, sums, bids)
      {
        ghost var t, hash, below := Value(), nodeHash, sums;
        ClimbingKey(t, leaf, i);
        key, nodeHash, sums := RecordUp(i, key, nodeHash, sums);
        ClimbStep(t, Value(), book, leaf, i, hash, below, sums, bids);
      }
      ghost var t := Value();
      root := nodeHash;
      ClimbEnd(t, Value(), book, leaf, nodeHash, sums, bids);
    }

    /** The path of a leaf: recorded sums, and sibling hashes that default to those of empty subtrees. */
    method Proof(index: nat) returns (proof: seq<PathNode>)
      requires Valid() && index < Pow2(levels)
      ensures proof == CachedPath(Value(), 0, Pow2(levels) + index, levels)
    {
      ghost var leaf := Pow2(levels) + index;
      proof := [];
      var key: nat := Pow2(levels) + index;
      for i := 0 to levels
        invariant CachedPath(Value(), 0, leaf, levels) == proof + CachedPath(Value(), i, key, levels - i)
      {
        var siblingHash, siblingSums := LookUpSibling(i, key);
        key := key / 2;
        var sums := if key in data then data[key] else NONE;
        proof := proof + [PathNode(siblingHash, sums)];
      }
    }
  }

  /** A bid inserted before its neighbour is lost from the sums, and the root is not that of the full tree. */
  method NeighbourLosesBids(height: nat, bid: Sums, other: Sums) returns (t: SparseTree)
    requires height > 0 && bid.bidBase > 0
    ensures t.Valid() && t.levels == height && t.book == map[][Pow2(height) := bid][Pow2(height) + 1 := other]
    ensures !BidsRight(t.Value(), t.book) && t.root != HashAt(t.book, t.levels, 1)
  {
    t := new SparseTree(height);
    t.InsertLeaf(0, bid);
    t.InsertLeaf(1, other);
    assert Pow2(height) == 2 * Pow2(height - 1);
    SparseIsFull(t.Value(), t.book);
  }

  lemma {:induction false} NothingToSum(height: nat, n: nat)
    ensures SumAt(map[], height, n) == NONE
  {
    if height > 0 {
      NothingToSum(height - 1, 2 * n);
      NothingToSum(height - 1, 2 * n + 1);
    }
  }

  lemma {:induction false} EmptyIsSound(height: nat)
    requires height > 0
    ensures var t := Tree(height, map[], map[], EmptyHash(height)); Sound(t, map[]) && BidsRight(t, map[])
  {
    var t := Tree(height, map[], map[], EmptyHash(height));
    forall i: nat, n: nat | 0 < i && AtHeight(t, n, i) ensures BidRight(t, map[], i, n) {
      NothingToSum(i, n);
    }
  }
}
