/**
 Matching against the order book: what an execution reads is proved by a path of the tree of sums, and
 its leaf is put back along that path. The book of all resting orders is only in the specification.
 */
module MatchingBook {
  import opened Arith
  import opened Positions
  import opened Orders
  import opened MatchingRules
  import opened MatchingTheorems
  import opened OrderBook

  /** A tree over all prices and nonces of some widths, and the orders that rest on it by their leaf's key. */
  datatype Book = Book(priceBits: nat, nonceBits: nat, leaves: Leaves, orders: map<nat, AccountOrder>)

  /** One execution and the path of its leaf. */
  datatype Execution = Execution(state: State, env: Env, judge: Judge, path: seq<PathNode>)

  function Levels(b: Book): nat {
    b.priceBits + b.nonceBits
  }

  function Root(b: Book): Hash {
    HashAt(b.leaves, Levels(b), 1)
  }

  predicate Fits(b: Book, price: nat, nonce: nat) {
    price < Pow2(b.priceBits) && nonce < Pow2(b.nonceBits)
  }

  function KeyOf(b: Book, price: nat, nonce: nat): nat {
    LeafKey(price, nonce, b.priceBits, b.nonceBits)
  }

  function SumsOf(l: Leaf): Sums {
    Sums(l.askBase, l.askQuote, l.bidBase, l.bidQuote)
  }

  function OrderSums(o: AccountOrder): Sums {
    if o.isAsk then Sums(o.remaining, o.price * o.remaining, 0, 0) else Sums(0, 0, o.remaining, o.price * o.remaining)
  }

  // ---------- the book ----------

  /** A leaf shows the order that rests at it, or nothing. */
  predicate Shown(b: Book, key: nat) {
    if key in b.orders then
      var o := b.orders[key];
      Fits(b, o.price, o.nonce) && key == KeyOf(b, o.price, o.nonce) && o.remaining >= 0
          && At(b.leaves, key) == OrderSums(o)
    else At(b.leaves, key) == NONE
  }

  ghost predicate Consistent(b: Book) {
    forall key: nat :: Shown(b, key)
  }

  /** Every bid lies below every ask. */
  ghost predicate Uncrossed(b: Book) {
    forall ask: nat, bid: nat :: At(b.leaves, ask).askBase != 0 && At(b.leaves, bid).bidBase != 0 ==> bid < ask
  }

  lemma BookNonNegative(b: Book)
    requires Consistent(b)
    ensures NonNegative(b.leaves)
  {
    forall k | k in b.leaves ensures b.leaves[k].askBase >= 0 && b.leaves[k].bidBase >= 0 {
      assert Shown(b, k) && At(b.leaves, k) == b.leaves[k];
    }
  }

  /**
   On a consistent, uncrossed book every bid is cheaper than every ask, or as dear with a smaller nonce;
   nonces of asks that stay below those of bids leave only cheaper bids.
   */
  lemma BestPrices(b: Book, ask: nat, bid: nat)
    requires Consistent(b) && Uncrossed(b) && ask in b.orders && bid in b.orders
    requires b.orders[ask].isAsk && b.orders[ask].remaining > 0
    requires !b.orders[bid].isAsk && b.orders[bid].remaining > 0
    ensures var a, c := b.orders[ask], b.orders[bid];
            && (c.price < a.price || (c.price == a.price && c.nonce < a.nonce))
            && (a.nonce < c.nonce ==> c.price < a.price)
  {
    assert Shown(b, ask) && Shown(b, bid);
    var a, c := b.orders[ask], b.orders[bid];
    KeyOrder(c.price, c.nonce, a.price, a.nonce, b.priceBits, b.nonceBits);
  }

  // ---------- what an execution reads ----------

  function LeafKeyOf(b: Book, x: Execution): nat {
    KeyOf(b, x.state.leaf.price, x.state.leaf.nonce)
  }

  function HelpersOf(b: Book, x: Execution): (h: seq<bool>)
    ensures |h| == Levels(b)
  {
    PathHelpers(x.state.leaf.price, x.state.leaf.nonce, b.priceBits, b.nonceBits)
  }

  /**
   The leaf's path verifies, the totals are those the path shows, and a maker order that matches the
   leaf is the one that rests there.
   */
  predicate Reads(root: Hash, b: Book, x: Execution) {
    var s, e, helpers := x.state, x.env, HelpersOf(b, x);
    && Valid(s) && Fits(b, s.leaf.price, s.leaf.nonce) && |x.path| == Levels(b) > 0
    && Fold(HashOrder(SumsOf(s.leaf)), x.path, helpers) == root
    && e.betterBase == QuoteOf(Front(s).isAsk, SumsOf(s.leaf), x.path, helpers).base
    && e.oppositeTotal == (var top := x.path[|x.path| - 1].sums; if Front(s).isAsk then top.bidBase else top.askBase)
    && (EarlyRule(s, e) == Continue && LeafMatchesOrder(s, e) && LeafKeyOf(b, x) in b.orders ==>
          s.order == b.orders[LeafKeyOf(b, x)])
  }

  /** A verified path is that of the book. */
  lemma ReadsBook(b: Book, x: Execution)
    requires Reads(Root(b), b, x)
    ensures var key, n := LeafKeyOf(b, x), Levels(b);
            && Pow2(n) <= key < 2 * Pow2(n) && Ancestor(key, n) == 1
            && SumsOf(x.state.leaf) == At(b.leaves, key)
            && x.path == TruePath(b.leaves, 0, key, n) && HelpersOf(b, x) == Bits(key, n)
  {
    var l, key, n := x.state.leaf, LeafKeyOf(b, x), Levels(b);
    KeyOrder(l.price, l.nonce, l.price, l.nonce, b.priceBits, b.nonceBits);
    HelpersAreKeyBits(l.price, l.nonce, b.priceBits, b.nonceBits);
    AncestorOfLeaf(key, n);
    VerifiesExactly(b.leaves, key, SumsOf(l), x.path);
  }

  /** No order of the taker's opposite side lies ahead of the leaf. */
  ghost predicate NoneAhead(b: Book, isAsk: bool, key: nat) {
    if isAsk then forall k: nat :: key < k ==> At(b.leaves, k).bidBase == 0
    else forall k: nat :: k < key ==> At(b.leaves, k).askBase == 0
  }

  lemma OutsideIsEmpty(b: Book, k: nat)
    requires Consistent(b) && !(Pow2(Levels(b)) <= k < 2 * Pow2(Levels(b)))
    ensures At(b.leaves, k) == NONE
  {
    assert Shown(b, k);
    if k in b.orders {
      var o := b.orders[k];
      KeyOrder(o.price, o.nonce, o.price, o.nonce, b.priceBits, b.nonceBits);
    }
  }

  /** The priority test is about the whole book. */
  lemma BetterBaseIsAhead(b: Book, x: Execution)
    requires Consistent(b) && Reads(Root(b), b, x)
    ensures x.env.betterBase == 0 <==> NoneAhead(b, Front(x.state).isAsk, LeafKeyOf(b, x))
  {
    var key, n, isAsk := LeafKeyOf(b, x), Levels(b), Front(x.state).isAsk;
    ReadsBook(b, x);
    BookNonNegative(b);
    ZeroMeansBest(b.leaves, isAsk, key, n);
    forall k: nat | !(Pow2(n) <= k < 2 * Pow2(n)) ensures At(b.leaves, k) == NONE {
      OutsideIsEmpty(b, k);
    }
  }

  lemma {:induction false} TopOfPath(book: Leaves, height: nat, n: nat, steps: nat)
    requires steps > 0
    ensures |TruePath(book, height, n, steps)| == steps
    ensures TruePath(book, height, n, steps)[steps - 1].sums == SumAt(book, height + steps, Ancestor(n, steps))
    decreases steps
  {
    if steps > 1 {
      TopOfPath(book, height + 1, n / 2, steps - 1);
    }
  }

  /** No order of the taker's opposite side rests at all. */
  ghost predicate SideEmpty(b: Book, isAsk: bool) {
    if isAsk then forall k: nat :: At(b.leaves, k).bidBase == 0 else forall k: nat :: At(b.leaves, k).askBase == 0
  }

  /** The total a taker that must not rest is cancelled for is that of the whole opposite side. */
  lemma OppositeTotalIsSide(b: Book, x: Execution)
    requires Consistent(b) && Reads(Root(b), b, x)
    ensures x.env.oppositeTotal == 0 <==> SideEmpty(b, Front(x.state).isAsk)
  {
    var n := Levels(b);
    ReadsBook(b, x);
    BookNonNegative(b);
    TopOfPath(b.leaves, 0, LeafKeyOf(b, x), n);
    StartOfRoot(n);
    SumIsRange(b.leaves, n, 1, Pow2(n), 2 * Pow2(n));
    RangeZero(b.leaves, Pow2(n), 2 * Pow2(n));
    forall k: nat | !(Pow2(n) <= k < 2 * Pow2(n)) ensures At(b.leaves, k) == NONE {
      OutsideIsEmpty(b, k);
    }
  }

  // ---------- the book after an execution ----------

  function After(x: Execution): State
    requires Valid(x.state)
  {
    Execute(x.state, x.env, x.judge)
  }

  function DecisionOf(x: Execution): Decision
    requires Valid(x.state)
  {
    Decide(x.state, x.env, x.judge)
  }

  /** The root recomputed from the leaf after the execution along the updated path. */
  function RootAfter(b: Book, x: Execution): Hash
    requires Valid(x.state) && |x.path| == Levels(b)
  {
    var leaf := SumsOf(After(x).leaf);
    Fold(HashOrder(leaf), PathDelta(x.path, SumsOf(x.state.leaf), leaf), HelpersOf(b, x))
  }

  /** The order that rests at the leaf after the execution: removed, filled or inserted. */
  function OrdersAfter(b: Book, x: Execution): map<nat, AccountOrder>
    requires Valid(x.state)
  {
    var d, key := DecisionOf(x), LeafKeyOf(b, x);
    if d.cancelMaker then b.orders - {key}
    else if d.live || d.reduces || RestsOnBook(Front(x.state), d.insertTaker) then b.orders[key := After(x).order]
    else b.orders
  }

  function BookAfter(b: Book, x: Execution): Book
    requires Valid(x.state)
  {
    b.(leaves := b.leaves[LeafKeyOf(b, x) := SumsOf(After(x).leaf)], orders := OrdersAfter(b, x))
  }

  lemma RootFollows(b: Book, x: Execution)
    requires Reads(Root(b), b, x)
    ensures RootAfter(b, x) == Root(BookAfter(b, x))
  {
    ReadsBook(b, x);
    UpdateReplacesLeaf(b.leaves, LeafKeyOf(b, x), SumsOf(After(x).leaf), Levels(b));
  }

  /** An execution that meets a maker meets the order that rests at its leaf. */
  lemma MakerRests(b: Book, x: Execution)
    requires Consistent(b) && Reads(Root(b), b, x) && Accepts(x.state, x.env, x.judge)
    requires EarlyRule(x.state, x.env) == Continue
    ensures var s, key := x.state, LeafKeyOf(b, x);
            && key in b.orders && b.orders[key] == s.order && s.order.remaining > 0
            && s.leaf.price == s.order.price && SumsOf(s.leaf) == OrderSums(s.order)
  {
    ReadsBook(b, x);
    assert Shown(b, LeafKeyOf(b, x));
  }

  lemma MeetsMaker(s: State, e: Env, judge: Judge)
    requires Valid(s)
    ensures var d := Decide(s, e, judge); d.live || d.reduces || d.cancelMaker ==> EarlyRule(s, e) == Continue
  {
  }

  /** An insertion on the book is at the taker's own, empty leaf, with nothing of the other side ahead. */
  lemma InsertsOwn(s: State, e: Env, judge: Judge)
    requires Valid(s) && Accepts(s, e, judge) && RestsOnBook(Front(s), Decide(s, e, judge).insertTaker)
    ensures LeafEmpty(s.leaf) && s.leaf.price == Front(s).price && s.leaf.nonce == Front(s).nonce && e.betterBase == 0
  {
  }

  lemma InsertedShown(b: Book, x: Execution)
    requires Reads(Root(b), b, x) && Accepts(x.state, x.env, x.judge)
    requires RestsOnBook(Front(x.state), DecisionOf(x).insertTaker)
    ensures Shown(BookAfter(b, x), LeafKeyOf(b, x))
  {
    LeafAfter(x.state, x.env, x.judge);
    NeverBoth(x.state, x.env, x.judge);
    InsertsOwn(x.state, x.env, x.judge);
  }

  lemma FilledShown(b: Book, key: nat, l: Leaf, o: AccountOrder, base: nat)
    requires Shown(b, key) && key in b.orders && b.orders[key] == o && base <= o.remaining
    requires l.price == o.price && SumsOf(l) == OrderSums(o)
    ensures var left := o.remaining - base;
            Shown(b.(leaves := b.leaves[key := SumsOf(WithRemaining(l, o.isAsk, left))],
                     orders := b.orders[key := o.(remaining := left)]), key)
  {
  }

  lemma MetShown(b: Book, x: Execution)
    requires Consistent(b) && Reads(Root(b), b, x) && Accepts(x.state, x.env, x.judge)
    requires DecisionOf(x).live || DecisionOf(x).reduces || DecisionOf(x).cancelMaker
    ensures Shown(BookAfter(b, x), LeafKeyOf(b, x))
  {
    var s, d, key := x.state, DecisionOf(x), LeafKeyOf(b, x);
    LeafAfter(s, x.env, x.judge);
    NeverBoth(s, x.env, x.judge);
    MeetsMaker(s, x.env, x.judge);
    if !d.cancelMaker {
      BaseFits(s, x.env, x.judge);
      MakerRests(b, x);
      assert Shown(b, key);
      FilledShown(b, key, s.leaf, s.order, d.base);
    }
  }

  /** The leaf after an execution shows the order that then rests at it. */
  lemma LeafStaysShown(b: Book, x: Execution)
    requires Consistent(b) && Reads(Root(b), b, x) && Accepts(x.state, x.env, x.judge)
    ensures Shown(BookAfter(b, x), LeafKeyOf(b, x))
  {
    var d := DecisionOf(x);
    if RestsOnBook(Front(x.state), d.insertTaker) {
      InsertedShown(b, x);
    } else if d.live || d.reduces || d.cancelMaker {
      MetShown(b, x);
    } else {
      LeafAfter(x.state, x.env, x.judge);
      ReadsBook(b, x);
      assert Shown(b, LeafKeyOf(b, x));
    }
  }

  lemma StaysConsistent(b: Book, x: Execution)
    requires Consistent(b) && Reads(Root(b), b, x) && Accepts(x.state, x.env, x.judge)
    ensures Consistent(BookAfter(b, x))
  {
    var after := BookAfter(b, x);
    forall k: nat ensures Shown(after, k) {
      assert Shown(b, k);
      if k == LeafKeyOf(b, x) {
        LeafStaysShown(b, x);
      }
    }
  }

  /** Only an insertion shows more than before: at an empty leaf, with nothing of the other side ahead. */
  lemma LeafShrinks(b: Book, x: Execution)
    requires Consistent(b) && Reads(Root(b), b, x) && Accepts(x.state, x.env, x.judge)
    requires !RestsOnBook(Front(x.state), DecisionOf(x).insertTaker)
    ensures SumsOf(x.state.leaf).askBase == 0 ==> SumsOf(After(x).leaf).askBase == 0
    ensures SumsOf(x.state.leaf).bidBase == 0 ==> SumsOf(After(x).leaf).bidBase == 0
  {
    LeafAfter(x.state, x.env, x.judge);
    MeetsMaker(x.state, x.env, x.judge);
    if DecisionOf(x).live || DecisionOf(x).reduces {
      MakerRests(b, x);
    }
  }

  lemma StaysUncrossed(b: Book, x: Execution)
    requires Consistent(b) && Uncrossed(b) && Reads(Root(b), b, x) && Accepts(x.state, x.env, x.judge)
    ensures Uncrossed(BookAfter(b, x))
  {
    var s, key, after := x.state, LeafKeyOf(b, x), BookAfter(b, x);
    ReadsBook(b, x);
    if RestsOnBook(Front(s), DecisionOf(x).insertTaker) {
      InsertsOwn(s, x.env, x.judge);
      LeafAfter(s, x.env, x.judge);
      BetterBaseIsAhead(b, x);
    } else {
      LeafShrinks(b, x);
    }
    forall ask: nat, bid: nat | At(after.leaves, ask).askBase != 0 && At(after.leaves, bid).bidBase != 0
      ensures bid < ask
    {
      assert ask != key ==> At(after.leaves, ask) == At(b.leaves, ask);
      assert bid != key ==> At(after.leaves, bid) == At(b.leaves, bid);
    }
  }

  /**
   The book is kept by every accepted execution: each leaf shows the order that rests at it, no bid
   reaches an ask, and the recomputed root is that of the new book.
   */
  lemma ExecutionKeepsBook(b: Book, x: Execution)
    requires Consistent(b) && Uncrossed(b) && Reads(Root(b), b, x) && Accepts(x.state, x.env, x.judge)
    ensures Consistent(BookAfter(b, x)) && Uncrossed(BookAfter(b, x))
    ensures RootAfter(b, x) == Root(BookAfter(b, x))
  {
    StaysConsistent(b, x);
    StaysUncrossed(b, x);
    RootFollows(b, x);
  }

  // ---------- runs ----------

  /** Accepted executions of any takers, each read against the root the one before it left. */
  predicate RunReads(root: Hash, b: Book, run: seq<Execution>)
    decreases |run|
  {
    run != [] ==>
      var x := run[0];
      && Reads(root, b, x) && Accepts(x.state, x.env, x.judge)
      && RunReads(RootAfter(b, x), BookAfter(b, x), run[1..])
  }

  function BookOf(root: Hash, b: Book, run: seq<Execution>): Book
    requires RunReads(root, b, run)
    decreases |run|
  {
    if run == [] then b else BookOf(RootAfter(b, run[0]), BookAfter(b, run[0]), run[1..])
  }

  function RootOf(root: Hash, b: Book, run: seq<Execution>): Hash
    requires RunReads(root, b, run)
    decreases |run|
  {
    if run == [] then root else RootOf(RootAfter(b, run[0]), BookAfter(b, run[0]), run[1..])
  }

  /** Over any run the published root is that of a consistent book on which no bid reaches an ask. */
  lemma {:induction false} RunKeepsBook(root: Hash, b: Book, run: seq<Execution>)
    requires Consistent(b) && Uncrossed(b) && root == Root(b) && RunReads(root, b, run)
    ensures Consistent(BookOf(root, b, run)) && Uncrossed(BookOf(root, b, run))
    ensures RootOf(root, b, run) == Root(BookOf(root, b, run))
    decreases |run|
  {
    if run != [] {
      ExecutionKeepsBook(b, run[0]);
      RunKeepsBook(RootAfter(b, run[0]), BookAfter(b, run[0]), run[1..]);
    }
  }

  // ---------- who is met ----------

  /** An order of the other side within a taker's price rests at a key. */
  predicate Crosses(b: Book, isAsk: bool, price: nat, key: nat) {
    && key in b.orders && b.orders[key].isAsk != isAsk && b.orders[key].remaining > 0
    && if isAsk then b.orders[key].price >= price else b.orders[key].price <= price
  }

  /** The leaf's price is at least as good for the taker as its own. */
  predicate WithinLimit(s: State)
    requires Valid(s)
  {
    if Front(s).isAsk then s.leaf.price >= Front(s).price else s.leaf.price <= Front(s).price
  }

  /** The leaf holds something of the side opposite to the taker's. */
  predicate ShowsOpposite(s: State)
    requires Valid(s)
  {
    if Front(s).isAsk then s.leaf.bidBase != 0 else s.leaf.askBase != 0
  }

  /** A better price of the other side would be ahead of the leaf. */
  lemma CrossingIsNotBetter(b: Book, x: Execution, k: nat)
    requires Consistent(b) && Reads(Root(b), b, x) && x.env.betterBase == 0
    requires k in b.orders && b.orders[k].isAsk != Front(x.state).isAsk && b.orders[k].remaining > 0
    ensures if Front(x.state).isAsk then b.orders[k].price <= x.state.leaf.price
            else b.orders[k].price >= x.state.leaf.price
  {
    var o, l := b.orders[k], x.state.leaf;
    assert Shown(b, k);
    BetterBaseIsAhead(b, x);
    KeyOrder(l.price, l.nonce, o.price, o.nonce, b.priceBits, b.nonceBits);
    KeyOrder(o.price, o.nonce, l.price, l.nonce, b.priceBits, b.nonceBits);
  }

  lemma SidesShown(b: Book, x: Execution)
    requires Consistent(b) && Reads(Root(b), b, x) && Accepts(x.state, x.env, x.judge)
    requires EarlyRule(x.state, x.env) == Continue
    ensures OppositeSides(x.state) <==> ShowsOpposite(x.state)
  {
    MakerRests(b, x);
  }

  lemma CrossesAtLeaf(b: Book, x: Execution)
    requires Consistent(b) && Reads(Root(b), b, x) && Accepts(x.state, x.env, x.judge)
    requires EarlyRule(x.state, x.env) == Continue && OppositeSides(x.state) && WithinLimit(x.state)
    ensures Crosses(b, Front(x.state).isAsk, Front(x.state).price, LeafKeyOf(b, x))
  {
    MakerRests(b, x);
  }

  lemma PriorityHeld(s: State, e: Env, judge: Judge)
    requires Valid(s) && Accepts(s, e, judge) && EarlyRule(s, e) == Continue
    ensures e.betterBase == 0
  {
  }

  /**
   Neither sides nor prices are compared: an accepted execution that reaches a maker has one of the
   other side within the taker's price exactly when its leaf shows the other side and the book holds
   an order of the other side within that price; the maker is then the best of them.
   */
  lemma MeetsBest(b: Book, x: Execution)
    requires Consistent(b) && Reads(Root(b), b, x) && Accepts(x.state, x.env, x.judge)
    requires EarlyRule(x.state, x.env) == Continue
    ensures var s, r := x.state, Front(x.state);
            && (OppositeSides(s) && WithinLimit(s) <==>
                  ShowsOpposite(s) && exists k :: Crosses(b, r.isAsk, r.price, k))
            && (OppositeSides(s) && WithinLimit(s) ==> Crosses(b, r.isAsk, r.price, LeafKeyOf(b, x)))
            && (OppositeSides(s) ==> NoneAhead(b, r.isAsk, LeafKeyOf(b, x)))
  {
    var s, r := x.state, Front(x.state);
    SidesShown(b, x);
    PriorityHeld(s, x.env, x.judge);
    BetterBaseIsAhead(b, x);
    if OppositeSides(s) && WithinLimit(s) {
      CrossesAtLeaf(b, x);
    }
    forall k | Crosses(b, r.isAsk, r.price, k) ensures WithinLimit(s) {
      CrossingIsNotBetter(b, x, k);
    }
  }

  /** On an uncrossed book an order of the taker's own side passes the priority test wherever it rests. */
  lemma OwnSidePasses(b: Book, x: Execution)
    requires Consistent(b) && Uncrossed(b) && Reads(Root(b), b, x)
    requires if Front(x.state).isAsk then x.state.leaf.askBase != 0 else x.state.leaf.bidBase != 0
    ensures x.env.betterBase == 0
  {
    ReadsBook(b, x);
    BetterBaseIsAhead(b, x);
  }

  /** A state whose leaf is the book's, with nothing ahead of it, can be read along the true path. */
  lemma ReadLeaf(b: Book, s: State, e: Env, judge: Judge) returns (x: Execution)
    requires Consistent(b) && Valid(s) && Levels(b) > 0 && Fits(b, s.leaf.price, s.leaf.nonce)
    requires var key := KeyOf(b, s.leaf.price, s.leaf.nonce);
             && SumsOf(s.leaf) == At(b.leaves, key) && NoneAhead(b, Front(s).isAsk, key)
             && key in b.orders && b.orders[key] == s.order
    requires e.betterBase == 0
    ensures Reads(Root(b), b, x)
    ensures x.state == s && x.judge == judge && x.env == e.(oppositeTotal := x.env.oppositeTotal)
  {
    var key := KeyOf(b, s.leaf.price, s.leaf.nonce);
    var path := TruePath(b.leaves, 0, key, Levels(b));
    KeyOrder(s.leaf.price, s.leaf.nonce, s.leaf.price, s.leaf.nonce, b.priceBits, b.nonceBits);
    HelpersAreKeyBits(s.leaf.price, s.leaf.nonce, b.priceBits, b.nonceBits);
    AncestorOfLeaf(key, Levels(b));
    TruePathVerifies(b.leaves, 0, key, Levels(b));
    var helpers := PathHelpers(s.leaf.price, s.leaf.nonce, b.priceBits, b.nonceBits);
    var top := path[|path| - 1].sums;
    x := Execution(s, e.(oppositeTotal := if Front(s).isAsk then top.bidBase else top.askBase,
                         betterBase := QuoteOf(Front(s).isAsk, SumsOf(s.leaf), path, helpers).base), judge, path);
    BetterBaseIsAhead(b, x);
  }

  /** A book with one order, and an execution read from it. */
  lemma SingleOrder(s: State, e: Env, judge: Judge, priceBits: nat, nonceBits: nat)
      returns (b: Book, x: Execution)
    requires Valid(s) && e.betterBase == 0 && priceBits + nonceBits > 0
    requires s.leaf.price < Pow2(priceBits) && s.leaf.nonce < Pow2(nonceBits)
    requires s.leaf.price == s.order.price && s.leaf.nonce == s.order.nonce
    requires s.order.remaining >= 0 && SumsOf(s.leaf) == OrderSums(s.order)
    ensures Consistent(b) && Uncrossed(b) && Reads(Root(b), b, x)
    ensures b.orders == map[LeafKeyOf(b, x) := s.order]
    ensures x.state == s && x.judge == judge && x.env == e.(oppositeTotal := x.env.oppositeTotal)
  {
    var key := LeafKey(s.leaf.price, s.leaf.nonce, priceBits, nonceBits);
    b := Book(priceBits, nonceBits, map[key := OrderSums(s.order)], map[key := s.order]);
    x := ReadLeaf(b, s, e, judge);
  }

  /** An accepted trade on a consistent book with an order of the other side beyond the taker's price. */
  lemma TradesBeyondLimit(judge: Judge) returns (b: Book, x: Execution)
    requires forall base :: !judge(base).takerBad && !judge(base).makerBad
    ensures Consistent(b) && Uncrossed(b) && Reads(Root(b), b, x) && Accepts(x.state, x.env, x.judge)
    ensures DecisionOf(x).live && OppositeSides(x.state) && !WithinLimit(x.state)
  {
    var s, e := MeetingExists(50, false, false, 10, 5);
    b, x := PlainOnBook(s, e, judge);
  }

  /** An accepted trade on a consistent book with an order of the taker's own side. */
  lemma TradesWithOwnSide(judge: Judge) returns (b: Book, x: Execution)
    requires forall base :: !judge(base).takerBad && !judge(base).makerBad
    ensures Consistent(b) && Uncrossed(b) && Reads(Root(b), b, x) && Accepts(x.state, x.env, x.judge)
    ensures DecisionOf(x).live && !OppositeSides(x.state)
  {
    var s, e := MeetingExists(100, true, false, 10, 5);
    b, x := PlainOnBook(s, e, judge);
  }

  lemma PlainOnBook(s: State, e: Env, judge: Judge) returns (b: Book, x: Execution)
    requires PlainMeeting(s, e) && !judge(TradeBase(s)).takerBad && !judge(TradeBase(s)).makerBad
    requires s.leaf.price < 128 && s.leaf.nonce < 16 && SumsOf(s.leaf) == OrderSums(s.order)
    ensures Consistent(b) && Uncrossed(b) && Reads(Root(b), b, x) && x.state == s && Accepts(s, x.env, x.judge)
    ensures b.orders == map[LeafKeyOf(b, x) := s.order] && x.env == e.(oppositeTotal := x.env.oppositeTotal)
    ensures x.judge == judge && DecisionOf(x).live
  {
    assert Pow2(7) == 128 && Pow2(4) == 16;
    b, x := SingleOrder(s, e, judge, 7, 4);
    PlainMeetingTrades(s, x.env, judge);
  }

  // ---------- one taker's executions ----------

  /** The next execution while the taker stays at the front: the same market, as the last one left it. */
  predicate Follows(x: Execution, y: Execution)
    requires Valid(x.state) && Valid(y.state)
  {
    && |After(x).registers| > 0 && Front(y.state) == After(x).registers[0]
    && y.state.openInterest == After(x).openInterest && y.env.risk == x.env.risk
  }

  /** Executions of one taker until it leaves. */
  predicate TakerRun(root: Hash, b: Book, run: seq<Execution>)
    decreases |run|
  {
    run != [] ==>
      var x := run[0];
      && Reads(root, b, x) && Accepts(x.state, x.env, x.judge)
      && x.state.matching && ReduceOnlyIsPerps(x.state, x.env)
      && (|run| > 1 ==> !Pops(DecisionOf(x)) && Valid(run[1].state) && Follows(x, run[1]))
      && TakerRun(RootAfter(b, x), BookAfter(b, x), run[1..])
  }

  /** An execution whose trade a reduce-only maker on the taker's own side caps, ending neither order. */
  predicate Stuck(x: Execution) {
    Valid(x.state) && SameSideStuck(x.state, x.env, x.judge(TradeBase(x.state)))
  }

  function StuckCount(run: seq<Execution>): nat {
    if run == [] then 0 else (if Stuck(run[0]) then 1 else 0) + StuckCount(run[1..])
  }

  /** What carries over to the taker's next execution. */
  lemma {:induction false} TakerGoesOn(b: Book, run: seq<Execution>)
    requires Consistent(b) && Uncrossed(b) && |run| > 1 && TakerRun(Root(b), b, run)
    requires KeepsCancel(run[0].state, run[0].env)
    ensures var x, after := run[0], BookAfter(b, run[0]);
            && Consistent(after) && Uncrossed(after) && TakerRun(Root(after), after, run[1..])
            && KeepsCancel(run[1].state, run[1].env)
            && Front(run[1].state).isAsk == Front(x.state).isAsk && Front(run[1].state).price == Front(x.state).price
            && Front(run[1].state).size == Front(x.state).size - DecisionOf(x).base
  {
    var x := run[0];
    ExecutionKeepsBook(b, x);
    ExecutionKeepsNotional(x.state, x.env, x.judge);
    TakerStays(x.state, x.env, x.judge);
  }

  /** While the taker stays, an execution removes the resting order it met, or is stuck and shrinks both. */
  lemma TakerStep(b: Book, x: Execution)
    requires Consistent(b) && Reads(Root(b), b, x) && Accepts(x.state, x.env, x.judge)
    requires x.state.matching && ReduceOnlyIsPerps(x.state, x.env) && KeepsCancel(x.state, x.env)
    requires !Pops(DecisionOf(x))
    ensures var key, after := LeafKeyOf(b, x), BookAfter(b, x);
            && EarlyRule(x.state, x.env) == Continue && key in b.orders
            && if Stuck(x) then after.orders.Keys == b.orders.Keys && DecisionOf(x).base > 0
               else after.orders == b.orders - {key}
  {
    Progress(x.state, x.env, x.judge);
    MeetsMaker(x.state, x.env, x.judge);
    if Stuck(x) {
      StuckTrades(x.state, x.env, x.judge);
    }
    MakerRests(b, x);
  }

  lemma TakerCounts(b: Book, x: Execution)
    requires Consistent(b) && Reads(Root(b), b, x) && Accepts(x.state, x.env, x.judge)
    requires x.state.matching && ReduceOnlyIsPerps(x.state, x.env) && KeepsCancel(x.state, x.env)
    requires !Pops(DecisionOf(x))
    ensures |b.orders| == |BookAfter(b, x).orders| + if Stuck(x) then 0 else 1
    ensures DecisionOf(x).base >= if Stuck(x) then 1 else 0
  {
    TakerStep(b, x);
    OrdersLeft(b.orders, BookAfter(b, x).orders, LeafKeyOf(b, x), Stuck(x));
  }

  lemma StuckHasSize(x: Execution)
    requires Stuck(x) && x.state.matching && ReduceOnlyIsPerps(x.state, x.env)
    ensures Front(x.state).size >= 1
  {
    StuckTrades(x.state, x.env, x.judge);
  }

  /**
   One taker finishes within as many executions as orders rest, one, and as many as are stuck, of which
   there are no more than units of its size. The notional of open interest has to be within its maximum
   at the first execution only.
   */
  lemma {:induction false} TakerFinishes(b: Book, run: seq<Execution>)
    requires Consistent(b) && Uncrossed(b) && run != [] && TakerRun(Root(b), b, run)
    requires KeepsCancel(run[0].state, run[0].env)
    ensures |run| <= |b.orders| + 1 + StuckCount(run)
    ensures StuckCount(run) <= Front(run[0].state).size
    decreases |run|
  {
    if |run| > 1 {
      TakerGoesOn(b, run);
      TakerCounts(b, run[0]);
      TakerFinishes(BookAfter(b, run[0]), run[1..]);
    } else if Stuck(run[0]) {
      StuckHasSize(run[0]);
    }
  }

  /** A taker that is never stuck finishes within as many executions as orders rest, and one. */
  lemma {:induction false} FreeTakerFinishes(b: Book, run: seq<Execution>)
    requires Consistent(b) && Uncrossed(b) && run != [] && TakerRun(Root(b), b, run)
    requires KeepsCancel(run[0].state, run[0].env) && forall i :: 0 <= i < |run| ==> !Stuck(run[i])
    ensures |run| <= |b.orders| + 1
  {
    TakerFinishes(b, run);
    NeverStuck(run);
  }

  lemma {:induction false} NeverStuck(run: seq<Execution>)
    requires forall i :: 0 <= i < |run| ==> !Stuck(run[i])
    ensures StuckCount(run) == 0
  {
    if run != [] {
      NeverStuck(run[1..]);
    }
  }

  lemma OrdersLeft<T>(m: map<nat, T>, after: map<nat, T>, key: nat, kept: bool)
    requires key in m && if kept then after.Keys == m.Keys else after == m - {key}
    ensures |after| == if kept then |m| else |m| - 1
  {
    if kept {
      assert |m| == |m.Keys| && |after| == |after.Keys|;
    } else {
      OneFewer(m, key);
    }
  }

  /**
   The bound is needed: a seller of four meets a reduce-only sell order of four whose owner is long by one.
   The trades are one, two and one, so three executions are read from a book with one order.
   */
  lemma StuckRun(judge: Judge) returns (b: Book, run: seq<Execution>)
    requires forall base :: !judge(base).takerBad && !judge(base).makerBad
    ensures Consistent(b) && Uncrossed(b) && |b.orders| == 1
    ensures |run| == 3 && TakerRun(Root(b), b, run) && KeepsCancel(run[0].state, run[0].env)
  {
    var s, e := MeetingExists(100, true, true, 4, 1);
    var x;
    b, x := PlainOnBook(s, e, judge);
    SameMeeting(s, e, x.env, 1000);
    run := ThreeExecutions(b, x);
  }

  lemma ThreeExecutions(b: Book, x: Execution) returns (run: seq<Execution>)
    requires forall base :: !x.judge(base).takerBad && !x.judge(base).makerBad
    requires Consistent(b) && Uncrossed(b) && StuckMeeting(b, x, 1000) && Abs(x.state.makerPosition.size) == 1
    requires Front(x.state).size == x.state.order.remaining == 4
    ensures |run| == 3 && run[0] == x && TakerRun(Root(b), b, run)
  {
    var after, y := StuckNext(b, x, 1000);
    var last, z := StuckNext(after, y, 998);
    LastOfRun(last, z);
    OneBefore(after, y, [z]);
    OneBefore(b, x, [y] + [z]);
    run := [x] + ([y] + [z]);
  }

  lemma {:induction false} LastOfRun(b: Book, x: Execution)
    requires Reads(Root(b), b, x) && PlainMeeting(x.state, x.env)
    requires forall base :: !x.judge(base).takerBad && !x.judge(base).makerBad
    ensures TakerRun(Root(b), b, [x])
  {
    PlainMeetingTrades(x.state, x.env, x.judge);
  }

  lemma {:induction false} OneBefore(b: Book, x: Execution, rest: seq<Execution>)
    requires Reads(Root(b), b, x) && Accepts(x.state, x.env, x.judge)
    requires x.state.matching && ReduceOnlyIsPerps(x.state, x.env) && !Pops(DecisionOf(x))
    requires rest != [] && Valid(rest[0].state) && Follows(x, rest[0])
    requires TakerRun(Root(BookAfter(b, x)), BookAfter(b, x), rest)
    ensures TakerRun(Root(b), b, [x] + rest)
  {
    RootFollows(b, x);
    assert ([x] + rest)[1..] == rest;
  }

  /** A book whose one order is the maker met, on the taker's own side, with a position that does not end it. */
  predicate StuckMeeting(b: Book, x: Execution, room: nat) {
    && Reads(Root(b), b, x) && PlainMeeting(x.state, x.env) && x.state.order.reduceOnly && !OppositeSides(x.state)
    && b.orders.Keys == {LeafKeyOf(b, x)} && FarFromCaps(x.state, x.env, room)
  }

  /** The next such execution, read from the book the last one left. */
  lemma StuckNext(b: Book, x: Execution, room: nat) returns (after: Book, y: Execution)
    requires forall base :: !x.judge(base).takerBad && !x.judge(base).makerBad
    requires Consistent(b) && Uncrossed(b) && StuckMeeting(b, x, room) && 6 * Abs(x.state.makerPosition.size) <= room
    requires Abs(x.state.makerPosition.size) < Front(x.state).size
    requires Abs(x.state.makerPosition.size) < x.state.order.remaining
    ensures after == BookAfter(b, x) && Consistent(after) && Uncrossed(after)
    ensures y.judge == x.judge && y.state == After(x) && y.env.risk == x.env.risk
    ensures StuckMeeting(after, y, room - 2 * Abs(x.state.makerPosition.size))
    ensures BothShrunk(x.state, y.state, Abs(x.state.makerPosition.size))
    ensures Accepts(x.state, x.env, x.judge) && ReduceOnlyIsPerps(x.state, x.env) && !Pops(DecisionOf(x))
    ensures Follows(x, y)
  {
    var t, base := After(x), Abs(x.state.makerPosition.size);
    StuckAccepted(x.state, x.env, x.judge);
    MeetsAgain(x.state, x.env, x.judge, room);
    StuckBook(b, x);
    after := BookAfter(b, x);
    y := ReadNext(after, LeafKeyOf(b, x), x.state, t, x.env, x.judge, base, room - 2 * base);
    FollowsAfter(x, y);
  }

  /** Reading the state after such an execution from the book it left. */
  lemma ReadNext(after: Book, key: nat, s: State, t: State, e: Env, judge: Judge, base: nat, room: nat)
      returns (y: Execution)
    requires PlainMeeting(s, e) && s.order.reduceOnly && !OppositeSides(s) && BothShrunk(s, t, base)
    requires PlainMeeting(t, e) && FarFromCaps(t, e, room)
    requires Consistent(after) && Levels(after) > 0 && Fits(after, s.leaf.price, s.leaf.nonce)
    requires key == KeyOf(after, s.leaf.price, s.leaf.nonce) && after.orders.Keys == {key}
    requires after.orders[key] == t.order && SumsOf(t.leaf) == At(after.leaves, key)
    requires NoneAhead(after, Front(s).isAsk, key)
    ensures y.state == t && y.judge == judge && y.env.risk == e.risk && StuckMeeting(after, y, room)
  {
    y := ReadLeaf(after, t, e, judge);
    SameMeeting(t, e, y.env, room);
  }

  /** The opposite total plays no part in such a meeting. */
  lemma SameMeeting(s: State, e: Env, f: Env, room: nat)
    requires f == e.(oppositeTotal := f.oppositeTotal) && PlainMeeting(s, e)
    ensures PlainMeeting(s, f) && (FarFromCaps(s, e, room) ==> FarFromCaps(s, f, room))
  {
  }

  lemma FollowsAfter(x: Execution, y: Execution)
    requires Valid(x.state) && Valid(y.state) && y.state == After(x) && y.env.risk == x.env.risk
    ensures Follows(x, y)
  {
  }

  lemma StuckAccepted(s: State, e: Env, judge: Judge)
    requires PlainMeeting(s, e) && !judge(TradeBase(s)).takerBad && !judge(TradeBase(s)).makerBad
    requires s.order.reduceOnly && !OppositeSides(s)
    requires Abs(s.makerPosition.size) < Front(s).size && Abs(s.makerPosition.size) < s.order.remaining
    ensures Accepts(s, e, judge) && ReduceOnlyIsPerps(s, e)
    ensures var d := Decide(s, e, judge); d.live && !Pops(d) && !d.cancelMaker
  {
    PlainMeetingTrades(s, e, judge);
    SameSideExecution(s, e, judge);
  }

  lemma StuckBook(b: Book, x: Execution)
    requires Consistent(b) && Uncrossed(b) && Reads(Root(b), b, x) && Accepts(x.state, x.env, x.judge)
    requires var d := DecisionOf(x); d.live && !d.cancelMaker
    requires b.orders.Keys == {LeafKeyOf(b, x)}
    ensures var after := BookAfter(b, x);
            && Consistent(after) && Uncrossed(after) && after.orders.Keys == {LeafKeyOf(b, x)}
            && after.orders[LeafKeyOf(b, x)] == After(x).order
            && SumsOf(After(x).leaf) == At(after.leaves, LeafKeyOf(b, x))
            && NoneAhead(after, Front(x.state).isAsk, LeafKeyOf(b, x))
  {
    ExecutionKeepsBook(b, x);
    OnlyOrder(BookAfter(b, x), LeafKeyOf(b, x), Front(x.state).isAsk);
  }

  /** Nothing is ahead of the only order of a book. */
  lemma OnlyOrder(b: Book, key: nat, isAsk: bool)
    requires Consistent(b) && b.orders.Keys == {key}
    ensures NoneAhead(b, isAsk, key)
  {
    forall k: nat | k != key ensures At(b.leaves, k) == NONE {
      assert Shown(b, k);
    }
  }

  lemma OneFewer<T>(m: map<nat, T>, key: nat)
    requires key in m
    ensures |m - {key}| == |m| - 1
  {
    var less := m - {key};
    assert m.Keys == less.Keys + {key};
    assert |m| == |m.Keys| && |less| == |less.Keys|;
  }

  /** The orders a taker can trade with. */
  function Crossing(b: Book, isAsk: bool, price: nat): set<nat> {
    set k | k in b.orders && Crosses(b, isAsk, price, k)
  }

  /** Every maker is met on the other side's leaf, while some order of that side is within the taker's price. */
  ghost predicate MeetsCrossing(root: Hash, b: Book, run: seq<Execution>)
    requires TakerRun(root, b, run)
    decreases |run|
  {
    run != [] ==>
      var x := run[0];
      && (EarlyRule(x.state, x.env) == Continue ==>
            ShowsOpposite(x.state) && exists k :: Crosses(b, Front(x.state).isAsk, Front(x.state).price, k))
      && MeetsCrossing(RootAfter(b, x), BookAfter(b, x), run[1..])
  }

  /** A taker that only meets orders it crosses finishes within as many executions as there are of them, and one. */
  lemma {:induction false} CrossingTakerFinishes(b: Book, run: seq<Execution>)
    requires Consistent(b) && Uncrossed(b) && run != [] && TakerRun(Root(b), b, run) && MeetsCrossing(Root(b), b, run)
    requires KeepsCancel(run[0].state, run[0].env)
    ensures |run| <= |Crossing(b, Front(run[0].state).isAsk, Front(run[0].state).price)| + 1
    decreases |run|
  {
    if |run| > 1 {
      var x, after := run[0], BookAfter(b, run[0]);
      TakerGoesOn(b, run);
      TakerStep(b, x);
      RootFollows(b, x);
      SidesShown(b, x);
      MeetsBest(b, x);
      CrossingTakerFinishes(after, run[1..]);
      CrossingShrinks(b, after, Front(x.state).isAsk, Front(x.state).price, LeafKeyOf(b, x));
    }
  }

  lemma CrossingShrinks(b: Book, after: Book, isAsk: bool, price: nat, key: nat)
    requires after.orders == b.orders - {key} && Crosses(b, isAsk, price, key)
    ensures |Crossing(b, isAsk, price)| == |Crossing(after, isAsk, price)| + 1
  {
    assert Crossing(after, isAsk, price) == Crossing(b, isAsk, price) - {key};
  }
}
