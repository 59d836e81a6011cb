/**
 The order book as a binary tree of subtree sums. Nodes are numbered as in a heap: the root is 1, the
 children of n are 2n and 2n + 1, and the leaves of a tree of height L are the keys from 2^L on.
 Hashes are free terms; a node's own sums are hashed as they are, so that all-zero sums are the zero hash.
 */
module OrderBook {
  import opened Arith

  /** What is offered and wanted below a node. */
  datatype Sums = Sums(askBase: int, askQuote: int, bidBase: int, bidQuote: int)

  const NONE := Sums(0, 0, 0, 0)

  datatype Hash =
    | Elements(sums: Sums)
    | OrderHash(order: Sums)
    | TwoToOne(left: Hash, right: Hash)

  const ZERO := Elements(NONE)

  /** One step of a path: the hash of the other child, and the sums of the parent. */
  datatype PathNode = PathNode(sibling: Hash, sums: Sums)

  /** A total of base and of quote. */
  datatype Depth = Depth(base: int, quote: int)

  type Leaves = map<nat, Sums>

  function Plus(a: Sums, b: Sums): Sums {
    Sums(a.askBase + b.askBase, a.askQuote + b.askQuote, a.bidBase + b.bidBase, a.bidQuote + b.bidQuote)
  }

  function Minus(a: Sums, b: Sums): Sums {
    Sums(a.askBase - b.askBase, a.askQuote - b.askQuote, a.bidBase - b.bidBase, a.bidQuote - b.bidQuote)
  }

  function At(book: Leaves, key: nat): Sums {
    if key in book then book[key] else NONE
  }

  function HashOrder(s: Sums): Hash {
    if s == NONE then ZERO else OrderHash(s)
  }

  // ---------- the tree of a book ----------

  function SumAt(book: Leaves, height: nat, n: nat): Sums {
    if height == 0 then At(book, n)
    else
      var l, r := SumAt(book, height - 1, 2 * n), SumAt(book, height - 1, 2 * n + 1);
      Sums(l.askBase + r.askBase, l.askQuote + r.askQuote, l.bidBase + r.bidBase, l.bidQuote + r.bidQuote)
  }

  function HashAt(book: Leaves, height: nat, n: nat): Hash {
    if height == 0 then HashOrder(At(book, n))
    else TwoToOne(TwoToOne(HashAt(book, height - 1, 2 * n), HashAt(book, height - 1, 2 * n + 1)),
                  Elements(SumAt(book, height, n)))
  }

  function Sibling(n: nat): nat {
    if n % 2 == 0 then n + 1 else n - 1
  }

  function Ancestor(n: nat, steps: nat): nat {
    if steps == 0 then n else Ancestor(n / 2, steps - 1)
  }

  /** The path from a node up some steps. */
  function TruePath(book: Leaves, height: nat, n: nat, steps: nat): seq<PathNode>
    decreases steps
  {
    if steps == 0 then []
    else [PathNode(HashAt(book, height, Sibling(n)), SumAt(book, height + 1, n / 2))]
         + TruePath(book, height + 1, n / 2, steps - 1)
  }

  /** The lowest bits of a number, lowest first. */
  function Bits(x: nat, count: nat): (b: seq<bool>)
    ensures |b| == count
  {
    if count == 0 then [] else [x % 2 == 1] + Bits(x / 2, count - 1)
  }

  function Up(state: Hash, node: PathNode, right: bool): Hash {
    if right then TwoToOne(TwoToOne(node.sibling, state), Elements(node.sums))
    else TwoToOne(TwoToOne(state, node.sibling), Elements(node.sums))
  }

  /** The root a path leads to. */
  function Fold(state: Hash, path: seq<PathNode>, helpers: seq<bool>): Hash
    requires |path| == |helpers|
    decreases |path|
  {
    if path == [] then state else Fold(Up(state, path[0], helpers[0]), path[1..], helpers[1..])
  }

  /** A node is one of the two children of its parent. */
  lemma ParentOf(n: nat)
    ensures if n % 2 == 0 then n == 2 * (n / 2) && Sibling(n) == 2 * (n / 2) + 1
            else n == 2 * (n / 2) + 1 && Sibling(n) == 2 * (n / 2)
  {
  }

  lemma UpTrue(book: Leaves, height: nat, n: nat)
    ensures Up(HashAt(book, height, n), PathNode(HashAt(book, height, Sibling(n)), SumAt(book, height + 1, n / 2)),
               n % 2 == 1)
            == HashAt(book, height + 1, n / 2)
    ensures SumAt(book, height + 1, n / 2) == Plus(SumAt(book, height, n), SumAt(book, height, Sibling(n)))
  {
    ParentOf(n);
  }

  /** The true path verifies. */
  lemma {:induction false} TruePathVerifies(book: Leaves, height: nat, n: nat, steps: nat)
    ensures |TruePath(book, height, n, steps)| == steps
    ensures Fold(HashAt(book, height, n), TruePath(book, height, n, steps), Bits(n, steps))
            == HashAt(book, height + steps, Ancestor(n, steps))
    decreases steps
  {
    if steps > 0 {
      UpTrue(book, height, n);
      TruePathVerifies(book, height + 1, n / 2, steps - 1);
    }
  }

  /** A path that verifies is the true one: it pins the leaf, every sibling and every sum. */
  lemma {:induction false} VerifiedPathIsTrue(book: Leaves, height: nat, n: nat, state: Hash, path: seq<PathNode>)
    requires Fold(state, path, Bits(n, |path|)) == HashAt(book, height + |path|, Ancestor(n, |path|))
    ensures state == HashAt(book, height, n) && path == TruePath(book, height, n, |path|)
    decreases |path|
  {
    if path != [] {
      var up := Up(state, path[0], n % 2 == 1);
      VerifiedPathIsTrue(book, height + 1, n / 2, up, path[1..]);
      ParentOf(n);
      assert path == [path[0]] + path[1..];
    }
  }

  lemma OrderHashInjective(a: Sums, b: Sums)
    ensures HashOrder(a) == HashOrder(b) <==> a == b
  {
  }

  /** Verification against the root of a book, exactly. */
  lemma {:induction false} VerifiesExactly(book: Leaves, key: nat, leaf: Sums, path: seq<PathNode>)
    ensures Fold(HashOrder(leaf), path, Bits(key, |path|)) == HashAt(book, |path|, Ancestor(key, |path|))
            <==> leaf == At(book, key) && path == TruePath(book, 0, key, |path|)
  {
    TruePathVerifies(book, 0, key, |path|);
    if Fold(HashOrder(leaf), path, Bits(key, |path|)) == HashAt(book, |path|, Ancestor(key, |path|)) {
      VerifiedPathIsTrue(book, 0, key, HashOrder(leaf), path);
      OrderHashInjective(leaf, At(book, key));
    }
  }

  /** The loop that recomputes a root; verification compares its result. */
  method RecalculateRoot(leaf: Hash, path: seq<PathNode>, helpers: seq<bool>) returns (state: Hash)
    requires |path| == |helpers|
    ensures state == Fold(leaf, path, helpers)
  {
    state := leaf;
    for i := 0 to |path|
      invariant Fold(state, path[i..], helpers[i..]) == Fold(leaf, path, helpers)
    {
      assert path[i..][1..] == path[i + 1..] && helpers[i..][1..] == helpers[i + 1..];
      var children := if helpers[i] then TwoToOne(path[i].sibling, state) else TwoToOne(state, path[i].sibling);
      state := TwoToOne(children, Elements(path[i].sums));
    }
  }

  // ---------- one leaf replaced ----------

  lemma {:induction false} AncestorStep(n: nat, steps: nat)
    ensures Ancestor(n, steps + 1) == Ancestor(n, steps) / 2
  {
    if steps > 0 {
      AncestorStep(n / 2, steps - 1);
    }
  }

  /** A node that is not above the changed leaf keeps its sums and hash. */
  lemma {:induction false} Untouched(book: Leaves, key: nat, leaf: Sums, height: nat, n: nat)
    requires Ancestor(key, height) != n
    ensures SumAt(book[key := leaf], height, n) == SumAt(book, height, n)
    ensures HashAt(book[key := leaf], height, n) == HashAt(book, height, n)
  {
    if height > 0 {
      AncestorStep(key, height - 1);
      Untouched(book, key, leaf, height - 1, 2 * n);
      Untouched(book, key, leaf, height - 1, 2 * n + 1);
    }
  }

  /** New sums of a path whose lower end changed from before to after. */
  function PathDelta(path: seq<PathNode>, before: Sums, after: Sums): (updated: seq<PathNode>)
    ensures |updated| == |path|
  {
    if path == [] then []
    else
      var sums := Plus(after, Minus(path[0].sums, before));
      [path[0].(sums := sums)] + PathDelta(path[1..], path[0].sums, sums)
  }

  lemma {:induction false} DeltaCons(x: PathNode, rest: seq<PathNode>, before: Sums, after: Sums)
    ensures PathDelta([x] + rest, before, after)
            == [x.(sums := Plus(after, Minus(x.sums, before)))]
                + PathDelta(rest, x.sums, Plus(after, Minus(x.sums, before)))
  {
    assert ([x] + rest)[1..] == rest;
  }

  lemma {:induction false} DeltaIsTruePath(book: Leaves, key: nat, leaf: Sums, height: nat, n: nat, steps: nat)
    requires n == Ancestor(key, height)
    ensures PathDelta(TruePath(book, height, n, steps), SumAt(book, height, n), SumAt(book[key := leaf], height, n))
            == TruePath(book[key := leaf], height, n, steps)
    decreases steps
  {
    if steps > 0 {
      var after := book[key := leaf];
      AncestorStep(key, height);
      ParentOf(n);
      Untouched(book, key, leaf, height, Sibling(n));
      UpTrue(book, height, n);
      UpTrue(after, height, n);
      DeltaIsTruePath(book, key, leaf, height + 1, n / 2, steps - 1);
      DeltaCons(PathNode(HashAt(book, height, Sibling(n)), SumAt(book, height + 1, n / 2)),
                TruePath(book, height + 1, n / 2, steps - 1), SumAt(book, height, n), SumAt(after, height, n));
    }
  }

  /** Updating a path and recomputing the root gives the tree with exactly that leaf replaced. */
  lemma UpdateReplacesLeaf(book: Leaves, key: nat, leaf: Sums, steps: nat)
    ensures var path := PathDelta(TruePath(book, 0, key, steps), At(book, key), leaf);
            && path == TruePath(book[key := leaf], 0, key, steps)
            && |path| == steps
            && Fold(HashOrder(leaf), path, Bits(key, steps)) == HashAt(book[key := leaf], steps, Ancestor(key, steps))
  {
    DeltaIsTruePath(book, key, leaf, 0, key, steps);
    TruePathVerifies(book[key := leaf], 0, key, steps);
  }

  /** The loop over the levels, carrying the sums of the level below before and after. */
  method UpdatePath(path: seq<PathNode>, before: Sums, after: Sums) returns (updated: seq<PathNode>)
    ensures updated == PathDelta(path, before, after)
  {
    updated := [];
    var below, newBelow := before, after;
    for i := 0 to |path|
      invariant PathDelta(path, before, after) == updated + PathDelta(path[i..], below, newBelow)
    {
      var sibling := Minus(path[i].sums, below);
      assert path[i..][1..] == path[i + 1..];
      newBelow := Plus(newBelow, sibling);
      below := path[i].sums;
      updated := updated + [PathNode(path[i].sibling, newBelow)];
    }
  }

  // ---------- strict-priority depth ----------

  /** The total of the leaves from lo up to but not including hi. */
  function RangeSum(book: Leaves, lo: nat, hi: nat): Sums
    requires lo <= hi
    decreases hi
  {
    if lo == hi then NONE
    else
      var s, last := RangeSum(book, lo, hi - 1), At(book, hi - 1);
      Sums(s.askBase + last.askBase, s.askQuote + last.askQuote, s.bidBase + last.bidBase, s.bidQuote + last.bidQuote)
  }

  lemma {:induction false} RangeSplit(book: Leaves, lo: nat, mid: nat, hi: nat)
    requires lo <= mid <= hi
    ensures RangeSum(book, lo, hi) == Plus(RangeSum(book, lo, mid), RangeSum(book, mid, hi))
    decreases hi
  {
    if mid < hi {
      RangeSplit(book, lo, mid, hi - 1);
    }
  }

  /** The first leaf below a node. */
  function Start(n: nat, height: nat): nat
    decreases height
  {
    if height == 0 then n else Start(2 * n, height - 1)
  }

  lemma {:induction false} StartNext(n: nat, height: nat)
    ensures Start(n + 1, height) == Start(n, height) + Pow2(height)
    decreases height
  {
    if height > 0 {
      StartNext(2 * n, height - 1);
      StartNext(2 * n + 1, height - 1);
    }
  }

  lemma {:induction false} StartOfRoot(height: nat)
    ensures Start(0, height) == 0 && Start(1, height) == Pow2(height) && Start(2, height) == 2 * Pow2(height)
  {
    if height > 0 {
      StartOfRoot(height - 1);
    }
    StartNext(0, height);
    StartNext(1, height);
  }

  lemma {:induction false} StartOfChildren(n: nat, height: nat)
    ensures Start(2 * n, height) == Start(n, height + 1)
    ensures Start(2 * n + 2, height) == Start(n + 1, height + 1)
  {
    assert 2 * (n + 1) == 2 * n + 2;
  }

  lemma {:induction false} RangesJoin(book: Leaves, height: nat, n: nat, a: nat, b: nat, c: nat)
    requires a <= b <= c
    requires SumAt(book, height, 2 * n) == RangeSum(book, a, b)
    requires SumAt(book, height, 2 * n + 1) == RangeSum(book, b, c)
    ensures SumAt(book, height + 1, n) == RangeSum(book, a, c)
  {
    RangeSplit(book, a, b, c);
  }

  /** A node sums the range lo..hi of leaves below it. */
  lemma {:induction false} SumIsRange(book: Leaves, height: nat, n: nat, lo: nat, hi: nat)
    requires lo == Start(n, height) && hi == Start(n + 1, height)
    ensures lo < hi && SumAt(book, height, n) == RangeSum(book, lo, hi)
  {
    if height == 0 {
      assert RangeSum(book, n, n) == NONE;
    } else {
      var mid := Start(2 * n + 1, height - 1);
      StartOfChildren(n, height - 1);
      SumIsRange(book, height - 1, 2 * n, lo, mid);
      SumIsRange(book, height - 1, 2 * n + 1, mid, hi);
      RangesJoin(book, height - 1, n, lo, mid, hi);
    }
  }

  /** Base and quote a path shows ahead of its leaf: bids to the right for an ask, asks to the left for a bid. */
  function QuoteOf(isAsk: bool, below: Sums, path: seq<PathNode>, helpers: seq<bool>): Depth
    requires |path| == |helpers|
    decreases |path|
  {
    if path == [] then Depth(0, 0)
    else
      var d, rest := Minus(path[0].sums, below), QuoteOf(isAsk, path[0].sums, path[1..], helpers[1..]);
      if isAsk && !helpers[0] then Depth(d.bidBase + rest.base, d.bidQuote + rest.quote)
      else if !isAsk && helpers[0] then Depth(d.askBase + rest.base, d.askQuote + rest.quote)
      else rest
  }

  /** What lies ahead of a node, as a range: bids at greater keys or asks at smaller ones. */
  function Ahead(book: Leaves, isAsk: bool, lo: nat, from: nat, to: nat, hi: nat): Depth
    requires lo <= from && to <= hi
  {
    if isAsk then Depth(RangeSum(book, to, hi).bidBase, RangeSum(book, to, hi).bidQuote)
    else Depth(RangeSum(book, lo, from).askBase, RangeSum(book, lo, from).askQuote)
  }

  lemma {:induction false} QuoteCons(isAsk: bool, below: Sums, x: PathNode, rest: seq<PathNode>, bit: bool,
                                     bits: seq<bool>)
    requires |rest| == |bits|
    ensures var d, q := Minus(x.sums, below), QuoteOf(isAsk, x.sums, rest, bits);
            QuoteOf(isAsk, below, [x] + rest, [bit] + bits)
            == if isAsk && !bit then Depth(d.bidBase + q.base, d.bidQuote + q.quote)
               else if !isAsk && bit then Depth(d.askBase + q.base, d.askQuote + q.quote)
               else q
  {
    assert ([x] + rest)[1..] == rest && ([bit] + bits)[1..] == bits;
  }

  /** What a true path shows ahead of a node is the range ahead of it below the ancestor a. */
  lemma {:induction false} QuoteIsAhead(book: Leaves, isAsk: bool, height: nat, n: nat, steps: nat, a: nat, top: nat)
    requires a == Ancestor(n, steps) && top == height + steps
    ensures |TruePath(book, height, n, steps)| == steps
    ensures Start(a, top) <= Start(n, height) && Start(n + 1, height) <= Start(a + 1, top)
    ensures QuoteOf(isAsk, SumAt(book, height, n), TruePath(book, height, n, steps), Bits(n, steps))
            == Ahead(book, isAsk, Start(a, top), Start(n, height), Start(n + 1, height), Start(a + 1, top))
    decreases steps
  {
    if steps == 0 {
      assert RangeSum(book, Start(a, top), Start(a, top)) == NONE;
      assert RangeSum(book, Start(a + 1, top), Start(a + 1, top)) == NONE;
    } else {
      var p := n / 2;
      QuoteIsAhead(book, isAsk, height + 1, p, steps - 1, a, top);
      UpTrue(book, height, n);
      AheadStep(book, isAsk, height, n, Start(a, top), Start(a + 1, top));
      QuoteCons(isAsk, SumAt(book, height, n), PathNode(HashAt(book, height, Sibling(n)), SumAt(book, height + 1, p)),
                TruePath(book, height + 1, p, steps - 1), n % 2 == 1, Bits(p, steps - 1));
    }
  }

  /** Moving to the parent adds the sibling to what is ahead, when it is on the side that counts. */
  lemma {:induction false} AheadStep(book: Leaves, isAsk: bool, height: nat, n: nat, lo: nat, hi: nat)
    requires lo <= Start(n / 2, height + 1) && Start(n / 2 + 1, height + 1) <= hi
    ensures lo <= Start(n, height) && Start(n + 1, height) <= hi
    ensures var here := Ahead(book, isAsk, lo, Start(n, height), Start(n + 1, height), hi);
            var above := Ahead(book, isAsk, lo, Start(n / 2, height + 1), Start(n / 2 + 1, height + 1), hi);
            var s := SumAt(book, height, Sibling(n));
            here == if isAsk && n % 2 == 0 then Depth(s.bidBase + above.base, s.bidQuote + above.quote)
                    else if !isAsk && n % 2 == 1 then Depth(s.askBase + above.base, s.askQuote + above.quote)
                    else above
  {
    var from, to := Start(n, height), Start(n + 1, height);
    ParentOf(n);
    StartOfChildren(n / 2, height);
    SumIsRange(book, height, n, from, to);
    if n % 2 == 0 {
      var end := Start(n + 2, height);
      SumIsRange(book, height, n + 1, to, end);
      AheadRight(book, isAsk, lo, from, to, end, hi);
    } else {
      var begin := Start(n - 1, height);
      SumIsRange(book, height, n - 1, begin, from);
      AheadLeft(book, isAsk, lo, begin, from, to, hi);
    }
  }

  lemma {:induction false} AheadRight(book: Leaves, isAsk: bool, lo: nat, from: nat, to: nat, end: nat, hi: nat)
    requires lo <= from <= to <= end <= hi
    ensures var here, above := Ahead(book, isAsk, lo, from, to, hi), Ahead(book, isAsk, lo, from, end, hi);
            var s := RangeSum(book, to, end);
            here == if isAsk then Depth(s.bidBase + above.base, s.bidQuote + above.quote) else above
  {
    if isAsk {
      RangeSplit(book, to, end, hi);
    }
  }

  lemma {:induction false} AheadLeft(book: Leaves, isAsk: bool, lo: nat, begin: nat, from: nat, to: nat, hi: nat)
    requires lo <= begin <= from <= to <= hi
    ensures var here, above := Ahead(book, isAsk, lo, from, to, hi), Ahead(book, isAsk, lo, begin, to, hi);
            var s := RangeSum(book, begin, from);
            here == if isAsk then above else Depth(s.askBase + above.base, s.askQuote + above.quote)
  {
    if !isAsk {
      RangeSplit(book, lo, begin, from);
    }
  }

  /** The key of a leaf in the full tree: price first, then nonce. */
  function LeafKey(price: nat, nonce: nat, priceBits: nat, nonceBits: nat): nat {
    Pow2(priceBits + nonceBits) + (price * Pow2(nonceBits) + nonce)
  }

  lemma {:induction false} AncestorOfLeaf(key: nat, steps: nat)
    requires Pow2(steps) <= key < 2 * Pow2(steps)
    ensures Ancestor(key, steps) == 1
  {
    if steps > 0 {
      AncestorOfLeaf(key / 2, steps - 1);
    }
  }

  /**
   Strict priority: on a true path the quote totals are those of all bids at greater keys for an ask,
   and of all asks at smaller keys for a bid.
   */
  lemma {:induction false} QuoteIsStrictPriority(book: Leaves, isAsk: bool, key: nat, levels: nat)
    requires Pow2(levels) <= key < 2 * Pow2(levels)
    ensures |TruePath(book, 0, key, levels)| == levels
    ensures QuoteOf(isAsk, At(book, key), TruePath(book, 0, key, levels), Bits(key, levels))
            == Ahead(book, isAsk, Pow2(levels), key, key + 1, 2 * Pow2(levels))
  {
    var root := Ancestor(key, levels);
    AncestorOfLeaf(key, levels);
    StartOfRoot(levels);
    assert Start(root, levels) == Pow2(levels) && Start(root + 1, levels) == 2 * Pow2(levels);
    assert Start(key, 0) == key && Start(key + 1, 0) == key + 1 && SumAt(book, 0, key) == At(book, key);
    QuoteIsAhead(book, isAsk, 0, key, levels, root, levels);
  }

  predicate NonNegative(book: Leaves) {
    forall k :: k in book ==> book[k].askBase >= 0 && book[k].bidBase >= 0
  }

  lemma {:induction false} RangeZero(book: Leaves, lo: nat, hi: nat)
    requires lo <= hi && NonNegative(book)
    ensures RangeSum(book, lo, hi).bidBase >= 0 && RangeSum(book, lo, hi).askBase >= 0
    ensures RangeSum(book, lo, hi).bidBase == 0 <==> forall k :: lo <= k < hi ==> At(book, k).bidBase == 0
    ensures RangeSum(book, lo, hi).askBase == 0 <==> forall k :: lo <= k < hi ==> At(book, k).askBase == 0
    decreases hi
  {
    if lo < hi {
      RangeZero(book, lo, hi - 1);
      assert At(book, hi - 1).bidBase >= 0 && At(book, hi - 1).askBase >= 0;
    }
  }

  /** A zero total means that no order of the other side is ahead. */
  lemma {:induction false} ZeroMeansBest(book: Leaves, isAsk: bool, key: nat, levels: nat)
    requires Pow2(levels) <= key < 2 * Pow2(levels) && NonNegative(book)
    ensures |TruePath(book, 0, key, levels)| == levels
    ensures QuoteOf(isAsk, At(book, key), TruePath(book, 0, key, levels), Bits(key, levels)).base == 0 <==>
            if isAsk then forall k :: key < k < 2 * Pow2(levels) ==> At(book, k).bidBase == 0
            else forall k :: Pow2(levels) <= k < key ==> At(book, k).askBase == 0
  {
    QuoteIsStrictPriority(book, isAsk, key, levels);
    RangeZero(book, key + 1, 2 * Pow2(levels));
    RangeZero(book, Pow2(levels), key);
  }

  /** Keys are ordered by price, then by nonce, and all of them are leaves. */
  lemma KeyOrder(price: nat, nonce: nat, otherPrice: nat, otherNonce: nat, priceBits: nat, nonceBits: nat)
    requires price < Pow2(priceBits) && otherPrice < Pow2(priceBits)
    requires nonce < Pow2(nonceBits) && otherNonce < Pow2(nonceBits)
    ensures LeafKey(price, nonce, priceBits, nonceBits) < LeafKey(otherPrice, otherNonce, priceBits, nonceBits) <==>
            price < otherPrice || (price == otherPrice && nonce < otherNonce)
    ensures Pow2(priceBits + nonceBits) <= LeafKey(price, nonce, priceBits, nonceBits) < 2 * Pow2(priceBits + nonceBits)
  {
    Pow2Add(priceBits, nonceBits);
    Lexicographic(price, nonce, otherPrice, otherNonce, Pow2(nonceBits));
    IndexBound(price, nonce, Pow2(priceBits), Pow2(nonceBits));
  }

  lemma IndexBound(price: nat, nonce: nat, prices: nat, unit: nat)
    requires price < prices && nonce < unit
    ensures price * unit + nonce < prices * unit
  {
    Arith.MulMonotone(price + 1, prices, unit);
    assert (price + 1) * unit == price * unit + unit;
  }

  lemma Lexicographic(a: nat, b: nat, c: nat, d: nat, unit: nat)
    requires b < unit && d < unit
    ensures a * unit + b < c * unit + d <==> a < c || (a == c && b < d)
  {
    if a < c {
      Arith.MulMonotone(a + 1, c, unit);
    } else if c < a {
      Arith.MulMonotone(c + 1, a, unit);
    }
  }

  /** The helper bits: those of the nonce, then those of the price. */
  function PathHelpers(price: nat, nonce: nat, priceBits: nat, nonceBits: nat): seq<bool> {
    Bits(nonce, nonceBits) + Bits(price, priceBits)
  }

  lemma {:induction false} BitsConcat(high: nat, low: nat, lowBits: nat, count: nat)
    requires low < Pow2(lowBits)
    ensures Bits(low, lowBits) + Bits(high, count) == Bits(high * Pow2(lowBits) + low, lowBits + count)
    decreases lowBits
  {
    if lowBits > 0 {
      var half := high * Pow2(lowBits - 1);
      assert high * Pow2(lowBits) == 2 * half by {
        TwiceProduct(high, Pow2(lowBits - 1));
      }
      HalveSum(half, low);
      BitsConcat(high, low / 2, lowBits - 1, count);
      BitsCons(low, lowBits, Bits(high, count));
      BitsCons(high * Pow2(lowBits) + low, lowBits + count, []);
    } else {
      assert high * Pow2(0) == high;
    }
  }

  lemma TwiceProduct(a: nat, b: nat)
    ensures a * (2 * b) == 2 * (a * b)
  {
  }

  lemma HalveSum(half: nat, low: nat)
    ensures (2 * half + low) % 2 == low % 2 && (2 * half + low) / 2 == half + low / 2
  {
  }

  lemma BitsCons(x: nat, count: nat, rest: seq<bool>)
    requires count > 0
    ensures Bits(x, count) + rest == [x % 2 == 1] + (Bits(x / 2, count - 1) + rest)
  {
  }

  /** The helpers of a price and nonce are the low bits of its leaf key. */
  lemma {:induction false} HelpersAreKeyBits(price: nat, nonce: nat, priceBits: nat, nonceBits: nat)
    requires price < Pow2(priceBits) && nonce < Pow2(nonceBits)
    ensures PathHelpers(price, nonce, priceBits, nonceBits)
            == Bits(LeafKey(price, nonce, priceBits, nonceBits), nonceBits + priceBits)
  {
    var index := price * Pow2(nonceBits) + nonce;
    BitsConcat(price, nonce, nonceBits, priceBits);
    KeyOrder(price, nonce, price, nonce, priceBits, nonceBits);
    BitsConcat(1, index, nonceBits + priceBits, 0);
    assert Bits(index, nonceBits + priceBits) + Bits(1, 0) == Bits(index, nonceBits + priceBits);
  }

  /** The loop over the levels above the leaf, and then the leaf's own sibling. */
  method GetQuote(isAsk: bool, leaf: Sums, path: seq<PathNode>, helpers: seq<bool>) returns (base: int, quote: int)
    requires |path| == |helpers| > 0
    ensures Depth(base, quote) == QuoteOf(isAsk, leaf, path, helpers)
  {
    base, quote := 0, 0;
    ghost var whole := QuoteOf(isAsk, leaf, path, helpers);
    var first := Minus(path[0].sums, leaf);
    var firstBase :=
      if isAsk then if helpers[0] then 0 else first.bidBase else if helpers[0] then first.askBase else 0;
    var firstQuote :=
      if isAsk then if helpers[0] then 0 else first.bidQuote else if helpers[0] then first.askQuote else 0;
    for i := 1 to |path|
      invariant var rest := QuoteOf(isAsk, path[i - 1].sums, path[i..], helpers[i..]);
                whole == Depth(firstBase + base + rest.base, firstQuote + quote + rest.quote)
    {
      assert path[i..][1..] == path[i + 1..] && helpers[i..][1..] == helpers[i + 1..];
      var d := Minus(path[i].sums, path[i - 1].sums);
      var askSize, askQuote := if helpers[i] then d.askBase else 0, if helpers[i] then d.askQuote else 0;
      var bidSize, bidQuote := if helpers[i] then 0 else d.bidBase, if helpers[i] then 0 else d.bidQuote;
      base := base + if isAsk then bidSize else askSize;
      quote := quote + if isAsk then bidQuote else askQuote;
    }
    base, quote := base + firstBase, quote + firstQuote;
  }
}
