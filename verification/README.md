# Verification of the block prover's protocols and arithmetic

This project models, in Dafny, the parts of the block prover in which a mistake would be hardest to see, and proves
what they are for. `dafny verify dfyconfig.toml` checks all of it.

**The heavy and light chains.** A block's transactions are proved in two chains by circuit type. Each chain carries a
jump state: its last index, the start of its open run, and the folded hashes of the segments it covered and of the
gaps it claims the other chain covered. `Jump` is the step in field arithmetic, with hashes as free terms;
`JumpTrail` is its meaning over integers and lists of segments, and shows where the field index stops being the
integer index; `JumpExecution` and `JumpTheorems` show that the block's cross-check holds exactly when the two chains
are the projections of one sequential execution, for as many transactions as the field counts. `Chunking` and
`HonestBlock` are the honest producer, from the parsed list of transactions to accepted chains. `Chain` and `ChainTheorems` are the batch circuit and the recursion
over its proofs: a proof is a term whose step zero stands on an unproved record, and every verified proof's public
record summarizes all the transactions below it. `ChainCompleteness` says exactly which lists of batches have proofs.

**Trades.** `Positions`, `Trades` and `SpotTrades` are the settlement arithmetic; `Exchange` is one market with all its
accounts over any run of trades, funding and price updates; `PreExecution` is the loop that updates funding and
prices; `ZeroQuote` is the liquidation quote.

**Matching.** `Orders` and `MatchingRules` state one matching execution as a list of rules, the first that applies
deciding, with its effect on the state and the checks it passes. `MatchingEngine` is the execution as the circuit runs
it: a transaction state updated in place, threading a flag that says whether anything is decided yet.
`MatchingOutcomes` and `MatchingEffects` say, of the fields of both orders and their accounts and not through the rule
list, exactly which maker may be traded with and for how much, who is cancelled otherwise, and what changes.
`MatchingTheorems`, `MatchingBalances` and `OpenInterestCap` prove what executions keep; `MatchingLight` is the light
matcher and its refinement. `MatchingBook` reads executions from verified paths of the order book and follows the book
over whole runs: its root, its orders, and that no bid reaches an ask.

**The order book.** `OrderBook` is the full tree of subtree sums over a map of leaves, for any number of levels, with
path verification, path update and the depth ahead of a leaf. `OrderBookTree` is the sparse tree kept in two maps.

**The pipeline.** `Scheduler` is a state machine of two path threads and the threads they spawn; a run is any
interleaving.

**Arithmetic and encoding cores.** `GoldilocksPrime` and `FieldInverse` are the extended binary Euclidean inverse and
the primality it rests on; `Varint` and `Embed` are the varints (unsigned LEB128, section 7.6 of DWARF 5), the zigzag
deltas and the three delta-coded tables of an embedded circuit.

Six results say where the code falls short of the plain statement, each with its exact condition and an input:

- The open interest notional test of the perps checks is not masked when no trade is computed. Past the maximum it
  takes back a cancellation of the taker that an earlier case decided (`MatchingTheorems.Progress`,
  `MatchingTheorems.StuckExecution`, `MatchingLight.LightRefinesFull`).
- A reduce-only maker on the taker's own side caps a trade that enlarges its position, and neither order ends
  (`MatchingTheorems.Progress`, `MatchingTheorems.SameSideExecution`, `MatchingTheorems.SameSideExists`). Such a taker
  still finishes, but not within one execution more than orders rest (`MatchingBook.TakerFinishes`,
  `MatchingBook.StuckRun`).
- The matching lines compare neither the sides nor, but for slippage, the prices of taker and maker. A maker is of the
  other side and within the taker's price exactly when its leaf shows the other side and the book holds an order of that
  side within the price (`MatchingBook.MeetsBest`, `MatchingBook.TradesBeyondLimit`, `MatchingBook.TradesWithOwnSide`).
- The sparse tree's leaf record leaves out bid sums. An insertion leaves all cached bid sums right exactly when those
  off its path were and the sibling leaf carries no bids, and its root is that of the full tree exactly when all are
  right (`OrderBookTree.SparseTree.InsertLeaf`, `OrderBookTree.SparseIsFull`, `OrderBookTree.NeighbourLosesBids`).
- The field index of a chain is the integer index for up to 2^32 - 1 active transactions and not for one more
  (`JumpTrail.NoIndexWrap`, `JumpTrail.IndexWrapsOneLater`). The cross-check needs less: it is sound and complete for
  fewer than P transactions in both chains together, and not for more (`JumpTheorems.JumpExact`,
  `JumpTheorems.BlockWrapsLater`).
- The range check on the gap rejects a sequential execution exactly when one type pauses for 2^32 transactions of the
  other (`HonestBlock.PaddedAccepted`, `HonestBlock.PauseTooLong`).

Division by zero yields zero, as the circuits' division gadgets constrain it.

## Model

| member | source | states |
|---|---|---|
| Goldilocks.EncodeInjective | circuit/src/block_tx_constraints.rs:479-489 | two integers of one window of P values have the same field encoding only when they are equal, which is what an index comparison in the field relies on |
| Goldilocks.EncodeAdd | circuit/src/block_tx_constraints.rs:479-489 | field addition and subtraction of encodings are the encodings of the integer sum and difference |
| Jump.FoldJumps | circuit/src/block_tx_constraints.rs:386-441 | the loop over one batch is satisfied exactly when every jump step in turn is, and ends in the fold of the steps |
| Jump.RunConcat | circuit/src/block_tx_constraints.rs:386-454 | folding two batches one after the other is folding their concatenation, and is accepted exactly when both are |
| JumpTrail.HashSegmentsInjective | circuit/src/block_tx_constraints.rs:500-560 | two folded coverage or claim hashes are equal exactly when the lists of segments folded into them are |
| JumpTrail.StepMatches | circuit/src/block_tx_constraints.rs:467-562 | one field step on an encoded trail is accepted exactly when the integer trail takes the transaction at the index its gap leads to (or the padding repeats the last index), and encodes the extended trail |
| JumpTrail.RunLifts | circuit/src/block_tx_constraints.rs:386-454 | for any number of active transactions below the modulus a field run is accepted exactly when the transactions, lifted to the integers their gaps lead to, form a trail, and its state encodes that trail |
| JumpTrail.NoIndexWrap | circuit/src/block_tx_constraints.rs:479-489 | for up to 2^32 - 1 active transactions, and for as long as the integers stay below the modulus, the trail is that of the field indices themselves |
| JumpTrail.IndexWrapsOneLater | circuit/src/block_tx_constraints.rs:479-489 | the count is tight: 2^32 accepted active transactions exist that bring the field index back to the sentinel |
| JumpExecution.SplitLastRun | circuit/src/block_tx_constraints.rs:497-535 | the open run of a trail is a suffix of neighbouring transactions, and what stands before it is a trail whose closed list is the covered list |
| JumpExecution.Interleave | circuit/src/block_constraints.rs:494-563 | when the closed runs of one chain are the claims of the other, the two are the projections of one continuous execution ending with the claiming chain |
| JumpExecution.ProjectionsMirror | circuit/src/block_constraints.rs:494-563 | the two projections of a continuous execution are accepted trails whose closed lists are each other's claims |
| JumpTheorems.FinalizeEncodes | circuit/src/block_constraints.rs:443-492 | finalising an encoded chain hashes the closed coverage and the claims completed up to the total |
| JumpTheorems.ChecksEncode | circuit/src/block_constraints.rs:494-563 | for any two chains whose active transactions the field counts, the hash cross-check holds exactly when the cross-check on their integer lists of segments does |
| JumpTheorems.OneListDecides | circuit/src/block_constraints.rs:494-563 | when one chain claims exactly the runs of the other, the two are the projections of one execution as long as both together, the claiming chain ends it and the other list agrees |
| JumpTheorems.AcceptedChain | circuit/src/block_tx_constraints.rs:386-454 | a chain is accepted exactly when its lifted transactions form a trail and its padding repeats the last index; they are its own when they stay below the modulus |
| JumpTheorems.ProjectionsPartition | circuit/src/block_constraints.rs:494-563 | every position of the block belongs to exactly one chain, the one of its type, with the same roots |
| JumpTheorems.JumpSoundness | circuit/src/block_constraints.rs:494-563 | two accepted chains that pass the cross-check are, merged by index, one gap-free execution from the initial roots to the block's roots, and exactly one chain sits at its end |
| JumpTheorems.JumpCompleteness | circuit/src/block_constraints.rs:494-563 | the projections of any continuous execution, padded as required and exposing the final roots, are accepted by every step and by the cross-check |
| JumpTheorems.JumpExact | circuit/src/block_constraints.rs:494-563 | the block is accepted exactly when the chains are well formed and are the projections of some continuous execution whose last roots they expose |
| JumpTheorems.OtherEqualityFollows | circuit/src/block_constraints.rs:536-563 | of the two hash equalities one is enough, whichever chain ends the block: when the ending chain claims the covered hash of the other, the whole cross-check holds |
| JumpTheorems.BlockWrapsLater | circuit/src/block_constraints.rs:494-563 | the bound of the two directions is tight: an accepted block of P transactions has both chains at its end, and one of P + 1 is no execution |
| Chunking.Push | circuit/src/block.rs:302-320 | buffering a transaction keeps every group full and of one type, loses nothing and leaves the other type alone |
| Chunking.ChunkTxs | circuit/src/block.rs:282-337 | the groups are full and of one type; per type they hold its transactions in order, then padding with that type's last index, to the next full group and at least one |
| Chunking.PadLast | circuit/src/block.rs:321-335 | the last group of a type is completed with padding; a type that already ended on a full group gets none, an absent type gets a whole one |
| Chunking.EmptyTxChunks | circuit/src/block.rs:254-280 | a block without active transactions becomes padding groups only: per type the requested count rounded up, and never none |
| Chunking.ChunkCount | circuit/src/block.rs:274-277 | the number of padding groups is the least number holding the count, and at least one |
| Chunking.SplitPaths | bench/src/prover.rs:1000-1010 | the two proving paths get exactly the transactions of their type, in order |
| HonestBlock.ParseBlock | circuit/src/block.rs:203-252 | parsing yields groups exactly when the list is active transactions followed by padding; the first padding is the template, indices are positions, and the groups are those of the grouping or of the empty block |
| HonestBlock.Number | circuit/src/block.rs:220-232 | every transaction gets its position as index, and the last index of each type, or the sentinel, is remembered |
| HonestBlock.PaddedChain | circuit/src/block.rs:216-252 | a type's transactions followed by padding with its last index hold exactly that type's projection of the execution, and are well formed when that leaves no gap too wide |
| HonestBlock.PaddedAccepted | circuit/src/block.rs:254-337 | any amount of such padding, with at least one transaction a chain, is accepted exactly when neither type pauses for 2^32 transactions, and then exposes the template's roots |
| HonestBlock.GroupedAccepted | circuit/src/block.rs:282-337 | what the grouping emits for a sequential execution is accepted by every jump step and by the block exactly when neither type pauses for too long |
| HonestBlock.ParsedAccepted | circuit/src/block.rs:193-252 | every parsed block whose transactions ran in sequence becomes two chains the block circuit accepts, ending in the template's roots, exactly when neither type pauses for too long, which up to 2^32 transactions cannot |
| HonestBlock.PauseTooLong | circuit/src/block_tx_constraints.rs:483-489 | one transaction more can: a heavy one after 2^32 light ones |
| Chain.HandleMessage | circuit/src/block_tx_constraints.rs:626-662 | a message loop accepts exactly when the number of messages equals its square, and returns the last message or the empty one |
| Chain.DefineTxLoop | circuit/src/block_tx_constraints.rs:358-462 | the transaction loop counts on-chain and priority operations of heavy batches only, keeps the last data, and folds the jumps |
| Chain.DefineBatch | circuit/src/block_tx_constraints.rs:564-615 | the batch circuit is satisfied by the computed record, or by none |
| Chain.AbsentIsZero | circuit/src/block_tx_chain_constraints.rs:360-377 | the operation data a chain starts from is zero in every byte |
| Chain.SelectOnChainPubData | circuit/src/block_tx_chain_constraints.rs:729-753 | the nested loops overwrite the one slot at the count, and nothing when the batch has no on-chain operation or the count is past the slots |
| ChainTheorems.SquareMeansBit | circuit/src/block_tx_constraints.rs:651-653 | a counter that equals its square in the field is zero or one, for every value below the modulus |
| ChainTheorems.NoZeroProduct | circuit/src/block_tx_constraints.rs:651-653 | a product of two nonzero field numbers is not zero, because the modulus is prime |
| ChainTheorems.BaseRecordStarts | circuit/src/block_tx_chain_constraints.rs:378-426 | step zero accepts exactly the records that look like the base record, whatever their market hash |
| ChainTheorems.InitialByFields | circuit/src/block_tx.rs:181-218 | the field-wise test of an initial jump state accepts exactly the initial state |
| ChainTheorems.OnChainStep | circuit/src/block_tx_chain_constraints.rs:555-580 | one step keeps the slots equal to all contributed data in order, then zeros, and the count equal to their number |
| ChainTheorems.PriorityStep | circuit/src/block_tx_chain_constraints.rs:537-554 | one step keeps at most one priority operation, with its data |
| ChainTheorems.MessageStep | circuit/src/block_tx_chain_constraints.rs:492-535 | one step keeps each message the only contributed one with an account, or the empty one |
| ChainTheorems.ChainSound | circuit/src/block_tx_chain_constraints.rs:453-625 | for a verified proof of any depth the counter counts the batches since step zero, block number, timestamp and initial roots are those of the start, the jump is the fold over all transactions, and operations and messages are those the transactions contribute |
| ChainTheorems.BlockSound | circuit/src/block_constraints.rs:393-441 | two verified chains that pass the block's checks hold one gap-free execution from the roots of the block's first part to its published roots, and the heavy record lists exactly the operations and messages of the block |
| ChainTheorems.LightCarriesNothing | circuit/src/block_constraints.rs:428-441 | a verified light chain always passes the test that it carries no operation and no message |
| ChainCompleteness.ProofIsProvable | circuit/src/block_tx_chain_constraints.rs:453-625 | the batches below a verified proof are full, have at most one operation of each sort and one message of each kind, run on from the initial roots, and publish no more than fits |
| ChainCompleteness.Prove | circuit/src/block_tx_chain_constraints.rs:453-625 | such batches have a proof on top of any record that starts a chain with their roots |
| ChainCompleteness.ChainExact | circuit/src/block_tx_chain_constraints.rs:453-625 | a chain of proofs over given batches exists exactly when they are of that kind |
| ChainCompleteness.BlockExact | circuit/src/block_constraints.rs:393-441 | verified proofs of both chains that pass all checks of the block exist exactly when both lists of batches are of that kind and the jump checks accept their transactions |
| ChainCompleteness.HonestBlockProof | circuit/src/block.rs:282-337 | what the grouping emits for a sequential execution has a block proof exactly when the batches are full and single, the heavy chain publishes no more than fits, and neither type pauses for too long |
| Trades.ApplySide | circuit/src/apply_trade.rs:274-334 | the steps of one side, in the order of the circuit, compute the closed form of the side effect |
| Trades.ApplyPerpsTrade | circuit/src/apply_trade.rs:201-662 | both sides with opposite size changes and their fees; accepted exactly when the total fee is not negative |
| Trades.FeesPaid | circuit/src/apply_trade.rs:420-442 | against the same trade without fees the taker pays the quote at the taker rate and the maker the quote at the maker rate, both together are the fee, and nothing else changes but how much of the collateral is margin |
| Trades.FundingPaid | circuit/src/liquidation.rs:26-57 | for every step the prefix sum has risen a long pays its size times the multiplier, and a short is paid, beside what the trade does without a rise |
| Trades.ModeAndFraction | circuit/src/apply_trade.rs:274-334 | the first use of a position fixes its margin mode, cross for pools and the insurance fund and the market's default otherwise; the initial fraction is raised to the market's minimum, and order counters stay |
| Trades.RequirementIsFraction | circuit/src/apply_trade.rs:795-840 | the requirement is the initial fraction, in ticks, of the notional at the mark price, in collateral units |
| Trades.SideKeepsCollateral | circuit/src/apply_trade.rs:325-475 | cross collateral and isolated margin together change by exactly funding plus realised profit minus fee, open interest by the change of the absolute size |
| Trades.EntryFollowsSize | circuit/src/apply_trade.rs:700-742 | reducing keeps the average entry price up to one rounding, a side change starts at the rounded-down trade price, closing leaves no entry quote, and adding adds the positive quote |
| Trades.WithdrawalKeepsRequirement | circuit/src/apply_trade.rs:795-1084 | margin leaves an open position only down to the initial requirement; a flip leaves exactly that; a reduction withdraws at most the non-negative margin and leaves at least its share of the old value; an increase never withdraws |
| Trades.WithdrawalIsLargest | circuit/src/apply_trade.rs:960-1030 | a reduction hands back as much as it may: any larger part of the margin would leave less than the requirement or less than the share of a positive old value |
| Trades.IncreaseAddsRequirement | circuit/src/apply_trade.rs:922-960 | opening an isolated position or adding to one raises its value, beside the profit realized, by at least the initial requirement of the added size, and by exactly that whenever margin is moved in |
| Trades.IsolatedTradeSafe | circuit/src/apply_trade.rs:408-475 | a whole trade of an isolated position that takes margin out leaves a value of at least the initial requirement, exactly the requirement after a flip, and moves the same amount across |
| Trades.ClosingReturnsMargin | circuit/src/apply_trade.rs:850-870 | closing an isolated position hands back its margin when that is not negative, and nothing otherwise |
| Exchange.SideEquity | circuit/src/apply_trade.rs:325-475 | a trade changes the equity of a side by the price difference less its fee, whatever the roundings of entry quotes |
| Exchange.ProfitIsUnrealized | circuit/src/types/account_position/account_position.rs:459-479 | the profit counted in the equity is the unrealized profit at the mark price |
| Exchange.TradeConserves | circuit/src/apply_trade.rs:201-662 | a trade keeps sizes summing to zero, open interest equal to the sum of absolute sizes, and total equity constant, the fee account included and possibly one of the two |
| Exchange.UpdateConserves | circuit/src/block_pre_execution_constraints.rs:568-581 | a change of the funding prefix sum and of the mark price keeps all three |
| Exchange.RunConserves | circuit/src/apply_trade.rs:201-662 | over any run of trades, funding and price updates sizes balance, open interest is exact and total equity is constant |
| SpotTrades.SpotConserves | circuit/src/apply_trade.rs:51-199 | a spot trade conserves both assets exactly unless the fee account is counted as taker and maker at once with a fee |
| SpotTrades.ReceiversReceive | circuit/src/apply_trade.rs:51-199 | with fee rates up to one whole the receiver of an asset never ends up paying it |
| SpotTrades.OwnRateOnReceived | circuit/src/apply_trade.rs:51-199 | the sides exchange base for quote, each pays at most its own rate on what it receives, exactly that rate when the multipliers are whole fee ticks, and the fee account gets both fees whoever it is |
| PreExecution.UpdateMarkets | circuit/src/block_pre_execution_constraints.rs:482-655 | the loop accepts exactly when every market's row does, and leaves every row of both arrays as specified |
| PreExecution.FundStep | circuit/src/block_pre_execution_constraints.rs:496-566 | the sign and magnitude arithmetic computes the clamped hourly funding added to the prefix sum |
| PreExecution.FundingRate | circuit/src/block_pre_execution_constraints.rs:496-581 | a funded market gains, on its prefix sum, an eighth of the rate, rounded toward zero, at the index price; the rate is as near to the interest rate as the small clamp lets it leave the twice floored average premium, and at most the big clamp |
| PreExecution.NeutralFunding | circuit/src/block_pre_execution_constraints.rs:513-581 | a neutral premium charges an eighth of an interest rate that both clamps leave alone |
| PreExecution.OnlyWhatIsAsked | circuit/src/block_pre_execution_constraints.rs:568-655 | inactive markets stay as they are, funding resets the premium sum and moves the prefix sum, price updates set both prices, and nothing else changes |
| PreExecution.RowAcceptsExactly | circuit/src/block_pre_execution_constraints.rs:575-655 | a row is accepted exactly when both prices are 32-bit, the funded prefix sum stays within 62 bits, and an active update has prices that are not zero and a notional within its maximum |
| PreExecution.FundingBounded | circuit/src/block_pre_execution_constraints.rs:540-566 | one hour of funding never exceeds an eighth of the big clamp at the index price |
| PreExecution.MarkCapExact | circuit/src/block_pre_execution_constraints.rs:606-641 | through both floors, a mark price is within the cap exactly when it is a valid price and the notional is within its maximum |
| OpenInterestCap.StepKeepsCap | circuit/src/matching_engine.rs:1859-1980 | one accepted price update or matching execution keeps open interest times mark price times multiplier within the maximum |
| OpenInterestCap.RunKeepsCap | circuit/src/block_pre_execution_constraints.rs:606-658 | the cap holds after any accepted run of price updates and matching executions |
| OpenInterestCap.FieldDecides | circuit/src/matching_engine.rs:1850-1940 | from an open interest within the maximum, the comparisons of the products in the field decide as over the integers for every trade that at the mark price is worth less than half of what the field leaves above the maximum |
| ZeroQuote.TrueCeilingOrFloor | circuit/src/liquidation.rs:233-245 | for every sign of the dividend the selection of magnitudes is the true ceiling for a long and the true floor for a short |
| ZeroQuote.ZeroQuoteTightest | circuit/src/liquidation.rs:182-250 | closing at a quote keeps the health exactly when the quote is at least (long) or at most (short) the zero quote |
| ZeroQuote.HealthBound | circuit/src/types/risk_info.rs:406-421 | health after closing, cross-multiplied, is a bound on the quote times the divisor |
| ZeroQuote.NoRequirementNoQuote | circuit/src/liquidation.rs:182-250 | without a maintenance requirement the result is zero |
| ZeroQuote.TradeCloses | circuit/src/liquidation.rs:182-250 | a fee-less trade that closes part of a position changes the account's value by the quote less the notional, as the zero quote assumes |
| OrderBook.TruePathVerifies | circuit/src/order_book_tree_helpers.rs:33-49 | the path of true sums and siblings leads from the leaf to the root |
| OrderBook.VerifiesExactly | circuit/src/order_book_tree_helpers.rs:33-49 | a path verifies exactly when the leaf, every sibling and every sum are those of the committed tree |
| OrderBook.RecalculateRoot | circuit/src/order_book_tree_helpers.rs:51-66 | the loop computes the root a path leads to |
| OrderBook.UpdatePath | circuit/src/matching_engine.rs:47-135 | the loop adds each level's sibling sums to the new sums below |
| OrderBook.UpdateReplacesLeaf | circuit/src/matching_engine.rs:47-135 | the updated path is the true path, and the recomputed root the root, of the tree with exactly that leaf replaced |
| OrderBook.Untouched | circuit/src/matching_engine.rs:47-135 | nodes that are not above the replaced leaf keep their sums and hashes |
| OrderBook.SumIsRange | circuit/src/types/order_book_node.rs:15-33 | a node's sums are the totals of the range of leaves below it |
| OrderBook.GetQuote | circuit/src/matching_engine.rs:138-196 | the accumulator loop computes the totals the path shows ahead of its leaf |
| OrderBook.QuoteIsStrictPriority | circuit/src/matching_engine.rs:138-196 | on a true path the totals are those of all bids at greater keys for an ask, and of all asks at smaller keys for a bid |
| OrderBook.ZeroMeansBest | circuit/src/matching_engine.rs:138-196 | the base total is zero exactly when no order of the other side is ahead |
| OrderBook.KeyOrder | circuit/src/order_book_tree_helpers.rs:17-31 | leaf keys are ordered by price and then nonce, and all lie among the leaves |
| OrderBook.HelpersAreKeyBits | circuit/src/order_book_tree_helpers.rs:17-31 | the bits of nonce and then price are the low bits of the leaf key |
| OrderBookTree.SparseTree.constructor | circuit/src/order_book_tree_helpers.rs:79-100 | an empty tree is sound and agrees with the empty full tree |
| OrderBookTree.SparseTree.InsertLeaf | circuit/src/order_book_tree_helpers.rs:102-163 | an insertion keeps the tree sound for the orders with that leaf replaced; all bid sums are right afterwards exactly when those off its path were right before and the sibling leaf carries no bids |
| OrderBookTree.SparseTree.Proof | circuit/src/order_book_tree_helpers.rs:165-191 | the proof is the path of recorded sums and of recorded or empty sibling hashes |
| OrderBookTree.ProofVerifies | circuit/src/order_book_tree_helpers.rs:165-191 | every proof of a sound tree, for inserted and absent leaves alike, leads to its root |
| OrderBookTree.AsksAreExact | circuit/src/order_book_tree_helpers.rs:102-163 | every cached ask sum is the sum of the asks below |
| OrderBookTree.SparseIsFull | circuit/src/order_book_tree_helpers.rs:78-197 | the sparse tree has the root of the full tree exactly when all its bid sums are right |
| OrderBookTree.PathsAreFull | circuit/src/order_book_tree_helpers.rs:165-191 | with right bid sums its proofs are the paths of the full tree |
| OrderBookTree.NeighbourLosesBids | circuit/src/order_book_tree_helpers.rs:106-113 | in a tree of any height, a bid at the first key and then any order at its neighbour leave a wrong bid sum and a root that is not that of the full tree |
| OrderBookTree.BidsAtTheEnd | circuit/src/order_book_tree_helpers.rs:106-113 | after the climb the bid sums are right exactly when nothing of the sibling leaf was missing |
| Orders.ChangeLockedBalance | circuit/src/matching_engine.rs:2936-3035 | the loop changes the locked balance of the first matching asset only, and accepts exactly when the amount fits, the asset is there and the balance stays in range |
| Orders.CanChangeExactly | circuit/src/matching_engine.rs:2936-3035 | a change is allowed exactly for a 96-bit amount of an asset that is there, whose locked balance stays in 96 bits |
| Orders.TypesApart | circuit/src/matching_engine.rs:263-274 | limit, liquidation and the two limit-trigger types behave as limits, market, the two market triggers and TWAP slices as markets, and no type as both |
| Orders.ChangeMovesFirst | circuit/src/matching_engine.rs:2936-3035 | the first asset with the index moves up or down by the amount, and no other |
| MatchingEngine.TxState.EarlyCases | circuit/src/matching_engine.rs:306-427 | the flags after the cases without a maker order are those of the first applicable rule, and the assertions those reached by then |
| MatchingEngine.TxState.ApplySelfTradeReduce | circuit/src/matching_engine.rs:2638-2735 | both sizes fall by the base and each emptied side is cancelled, unless the taker is post-only, which cancels the taker |
| MatchingEngine.TxState.SelfTradeCases | circuit/src/matching_engine.rs:482-655 | self-trades, expiry, the dead-man's switch and common masters decide as the rule list says, and reduce both sides where it says so |
| MatchingEngine.TxState.LateCases | circuit/src/matching_engine.rs:658-697 | maker identity, post-only takers and reduce-only makers |
| MatchingEngine.TxState.SizeTrade | circuit/src/matching_engine.rs:699-786 | the trade's size is the smaller remaining size, capped by reduce-only positions and the slippage allowance; an empty market trade cancels the taker |
| MatchingEngine.TxState.IsValidPerpsTrade | circuit/src/matching_engine.rs:1823-2028 | the cancellations of the perps checks, with the notional test taking effect also when no trade is computed |
| MatchingEngine.TxState.TradeCases | circuit/src/matching_engine.rs:801-1262 | a trade happens exactly when no check rejects it; then the state is the settled one and each side leaves as specified |
| MatchingEngine.TxState.FinishOrders | circuit/src/matching_engine.rs:1374-1564 | pops, removes and inserts what was decided, with counters, locked balances and child orders |
| MatchingEngine.TxState.ExecuteMatching | circuit/src/matching_engine.rs:206-1821 | the flag-threading execution accepts exactly the states the rule list accepts and leaves the state the rule list gives |
| MatchingEngine.TxState.ExecuteMatchingLight | circuit/src/matching_engine.rs:3328-3535 | the light execution against its own rule list |
| MatchingEngine.TxState.PopFront | circuit/src/types/register/register_stack.rs:155-165 | the shifting loop removes the front register and needs a nonzero count |
| MatchingLight.LightRefinesFull | circuit/src/matching_engine.rs:3328-3535 | what the light matcher accepts the full one accepts exactly when flags and fee rates are in the ranges only it checks, with the same resulting state exactly when the unmasked notional test takes no cancellation back |
| MatchingOutcomes.Unmatched | circuit/src/matching_engine.rs:306-427 | takers that are not matched, wait for a trigger, cannot reduce, find no opposite side or an empty leaf: each with its own decision |
| MatchingOutcomes.ExpiredMaker | circuit/src/matching_engine.rs:483-612 | an expired maker order is removed without a fill, whoever owns it, and the taker stays |
| MatchingOutcomes.SwitchedMaker | circuit/src/matching_engine.rs:602-640 | so is the order of another account whose dead-man's switch has passed |
| MatchingOutcomes.SelfTradeModes | circuit/src/matching_engine.rs:482-600 | within one account the four self-trade modes cancel the maker, the taker, both, or take the smaller size off both; with an integrator fee it is always the last |
| MatchingOutcomes.MasterTradeModes | circuit/src/matching_engine.rs:612-655 | within one master account the first three modes cancel the maker, the taker or both, and the fourth does nothing |
| MatchingOutcomes.LateCancels | circuit/src/matching_engine.rs:658-786 | post-only takers do not trade, reduce-only makers only against a position they reduce, and market takers not without a base |
| MatchingOutcomes.BaseIsLargest | circuit/src/matching_engine.rs:699-786 | the trade is as large as it can be: a base is tradable, by both sizes, the positions of reduce-only orders and the slippage allowance, exactly when it is at most the base of the trade |
| MatchingOutcomes.InterestRules | circuit/src/matching_engine.rs:1844-1940 | past the market limit only the insurance fund trades or a taker that shrinks without turning around, nobody else takes the market over it, and both maxima hold for everyone |
| MatchingOutcomes.TradeOutcome | circuit/src/matching_engine.rs:801-1262 | which side is cancelled instead of a trade, and which of the two a trade ends |
| MatchingOutcomes.LiveExactly | circuit/src/matching_engine.rs:306-797 | a trade happens exactly when the taker reaches an order that has not expired, whose owner's switch has not passed, that self-trade prevention lets through, and both sides pass the checks |
| MatchingOutcomes.LiveMeans | circuit/src/matching_engine.rs:483-697 | a live trade means an unexpired maker, a switch that has not passed, a taker that is not post-only, two accounts, and two masters where the taker asked for that |
| MatchingOutcomes.AcceptsExactly | circuit/src/matching_engine.rs:206-1821 | an execution is accepted exactly when what is asserted of both orders, accounts and fees holds and balances and counters allow its effects |
| MatchingEffects.RegistersAfter | circuit/src/matching_engine.rs:1374-1402 | a taker that leaves or rests is popped; one that stays has the fill taken off its size and a market taker the price difference off its allowance |
| MatchingEffects.OrderAfter | circuit/src/matching_engine.rs:1136-1230 | the order and leaf are inserted as the register says, put aside for a trigger, vacated, filled or left alone |
| MatchingEffects.CountersExactly | circuit/src/matching_engine.rs:2793-2904 | a removed order is taken off its owner's account and position, an inserted one is added to the taker's, tied orders and orders apart from cross margin under their own conditions, and nobody else's counters move |
| MatchingEffects.PositionsAfter | circuit/src/matching_engine.rs:1100-1136 | only a perps trade changes positions and open interest, by the base in opposite directions and as the settlement says |
| MatchingEffects.InstructionsExactly | circuit/src/matching_engine.rs:1266-1821 | the instructions of one execution are the children of both orders that leave, the orders tied to positions that turned around, and the integrator fees of a trade, each in its slot |
| MatchingBalances.BalancesExactly | circuit/src/matching_engine.rs:2906-3035 | account by account, a fill and a removal free what the order locked for its owner, an inserted order locks for the taker unless it waits for a trigger, and nothing else is locked or freed |
| MatchingBalances.EffectsExactly | circuit/src/matching_engine.rs:2906-3035 | a decision can take effect exactly when a register is there to pop, the fees of a trade are allowed, what a fill and a removal free is locked for the owner, and what an inserted order locks fits |
| MatchingTheorems.BaseFits | circuit/src/matching_engine.rs:448-454 | a fill is at most either remaining size, and at most the positions reduce-only orders reduce |
| MatchingTheorems.SizesFallTogether | circuit/src/matching_engine.rs:1136-1205 | taker and maker sizes fall by the same non-negative amount and stay non-negative, and the leaf shows the rest |
| MatchingTheorems.SlippageStays | circuit/src/matching_engine.rs:1147-1177 | a market taker never spends more slippage than it has |
| MatchingTheorems.ExecutionStaysValid | circuit/src/matching_engine.rs:206-1821 | sizes and slippage allowances stay non-negative over executions |
| MatchingTheorems.Progress | circuit/src/matching_engine.rs:307-797 | an execution with the matching flag pops the register or removes the maker, except exactly when the notional test takes back a cancellation of the taker, or a reduce-only maker on the taker's own side caps a trade that both orders outlast |
| MatchingTheorems.StuckTrades | circuit/src/matching_engine.rs:699-797 | in the second exception the trade is not empty and both orders keep something to trade |
| MatchingTheorems.StuckExecution | circuit/src/matching_engine.rs:1937-1980 | the first exception is real: an accepted execution that changes nothing |
| MatchingTheorems.SameSideExecution | circuit/src/matching_engine.rs:699-797 | the second exception is real: a plain limit taker trades with a reduce-only order of its own side and neither order ends |
| MatchingTheorems.SameSideExists | circuit/src/matching_engine.rs:699-797 | such a state exists: a seller of ten meets a reduce-only sell order of ten of an account that is long by five |
| MatchingTheorems.PlainMeetingTrades | circuit/src/matching_engine.rs:206-1821 | a plain limit taker at another account's leaf trades, whatever the sides and prices of the two orders |
| MatchingTheorems.NeverBoth | circuit/src/matching_engine.rs:307-797 | a taker is never both cancelled and inserted, and an inserted taker meets no maker |
| MatchingTheorems.TradeWithinCaps | circuit/src/matching_engine.rs:1859-1980 | a perps trade that happens leaves open interest and its notional within both maxima, and passes the market's limit only by shrinking the taker or with the insurance fund |
| MatchingTheorems.ExecutionKeepsNotional | circuit/src/matching_engine.rs:1937-1980 | the notional maximum, once kept, is kept by every execution, in perps and spot markets |
| MatchingTheorems.LeafAfter | circuit/src/matching_engine.rs:1374-1564 | the leaf is left filled, emptied, holding the inserted taker, or as it was, as decided |
| MatchingTheorems.CountsFollow | circuit/src/matching_engine.rs:2793-2904 | market, account and position order counters move exactly with the orders inserted and removed |
| MatchingTheorems.NoSlotOverwritten | circuit/src/types/tx_state.rs:152-168 | no instruction slot is written twice in one execution, and all are below eight |
| MatchingBalances.LockedFollows | circuit/src/matching_engine.rs:2906-3035 | locked balances of the two accounts change by exactly what the order at the leaf locks more or less |
| MatchingBook.ReadsBook | circuit/src/tx_constraints.rs:2346-2383 | a leaf and path that verify against the root of a book are those of the book, at a key among its leaves |
| MatchingBook.BetterBaseIsAhead | circuit/src/matching_engine.rs:379-388 | the priority test is zero exactly when no order of the other side lies ahead of the leaf in the whole book |
| MatchingBook.OppositeTotalIsSide | circuit/src/matching_engine.rs:287-292 | the opposite total is zero exactly when no order of the other side rests at all |
| MatchingBook.RootFollows | circuit/src/tx_constraints.rs:2370-2386 | the root recomputed after an execution is that of the book with the leaf the execution leaves |
| MatchingBook.ExecutionKeepsBook | circuit/src/matching_engine.rs:206-1821 | every accepted execution read from a verified path keeps each leaf showing the order that rests at it, every bid below every ask, and the root that of the new book |
| MatchingBook.RunKeepsBook | circuit/src/matching_engine.rs:206-1821 | over any run of accepted executions of any takers, each read against the root the one before it left, the final root is that of a consistent and uncrossed book |
| MatchingBook.BestPrices | circuit/src/order_book_tree_helpers.rs:17-31 | on such a book every bid is cheaper than every ask, or as dear with a smaller nonce |
| MatchingBook.MeetsBest | circuit/src/matching_engine.rs:379-427 | an execution that reaches a maker has one of the other side within the taker's price exactly when its leaf shows the other side and the book holds an order of that side within that price; the maker is then the best of them |
| MatchingBook.OwnSidePasses | circuit/src/matching_engine.rs:379-388 | on an uncrossed book an order of the taker's own side passes the priority test wherever it rests |
| MatchingBook.TradesBeyondLimit | circuit/src/matching_engine.rs:699-797 | an accepted trade, read from a consistent book, with an order of the other side beyond the taker's price |
| MatchingBook.TradesWithOwnSide | circuit/src/matching_engine.rs:699-797 | an accepted trade, read from a consistent book, with an order of the taker's own side |
| MatchingBook.TakerFinishes | circuit/src/matching_engine.rs:206-1821 | one taker finishes within as many executions as orders rest on the book, one, and those in which a same-side reduce-only maker caps the trade, which are no more than units of its size; the notional has to be within its maximum at the first only |
| MatchingBook.FreeTakerFinishes | circuit/src/matching_engine.rs:206-1821 | without such executions the resting orders and one are enough |
| MatchingBook.StuckRun | circuit/src/matching_engine.rs:699-797 | with them they are not: a seller of four needs three executions on a book with one reduce-only sell order of four |
| MatchingBook.TakerStep | circuit/src/matching_engine.rs:307-797 | while the taker stays, an execution removes the resting order it met, or is such an execution and keeps the orders |
| MatchingBook.CrossingTakerFinishes | circuit/src/matching_engine.rs:206-1821 | a taker that only meets orders it crosses finishes within as many executions as there are of them, and one |
| GoldilocksPrime.PrimeModulus | circuit/src/inverse_exploration.rs:15-15 | the modulus has no proper divisor |
| GoldilocksPrime.ModulusIsLarge | circuit/src/inverse_exploration.rs:15-15 | a modulus with an element whose 2^s-th power is -1 exceeds 2^(s+1) |
| FieldInverse.BinaryXgcdInverse | circuit/src/inverse_exploration.rs:18-58 | terminates for every nonzero field element with its inverse, a reduced field element |
| FieldInverse.StripTwos | circuit/src/inverse_exploration.rs:25-40 | dividing out twos keeps the congruence and coprimality and ends odd |
| FieldInverse.SubtractTracked | circuit/src/inverse_exploration.rs:41-55 | subtracting with wrapped coefficients keeps the congruence and never leaves a 64-bit word |
| FieldInverse.InverseUnique | circuit/src/inverse_exploration.rs:84-98 | there is only one reduced inverse, so any two ways of inverting agree |
| Scheduler.RunKeepsPath | bench/src/prover.rs:680-880 | every step of a path thread keeps its queue, the order of its chain steps and its window |
| Scheduler.RunKeepsInvariant | bench/src/prover.rs:574-884 | any interleaving of path, transaction and chain threads keeps the invariant of both paths and the shared counters |
| Scheduler.PipelineSafe | bench/src/prover.rs:574-884 | from the start of a block every run keeps the invariant and has bounded length |
| Scheduler.InFlightBounded | bench/src/prover.rs:754-782 | unfinished transaction proofs are among the last max(2, window) spawned on the light path and the last one on the heavy path |
| Scheduler.HeavyNeverClaims | bench/src/prover.rs:824-846 | the heavy path has nothing to drain and never claims the exclusive phase |
| Scheduler.ExclusiveIsAlone | bench/src/prover.rs:171-173 | while the exclusive phase is set only the light path holds it, the heavy path has retired, and no transaction proof is unfinished |
| Scheduler.ClaimExactly | bench/src/prover.rs:833-845 | a step sets the exclusive phase exactly when it is the light path's claim after its last join and after the heavy path is done |
| Scheduler.StaysUntilRelease | bench/src/prover.rs:839-873 | once set the phase stays until the light path releases it after its last chain step |
| Scheduler.ExclusiveIsReached | bench/src/prover.rs:680-884 | for any block and window some run sets the exclusive phase |
| Scheduler.LightClaims | bench/src/prover.rs:820-845 | with the heavy path done, a light path that has not joined its last proof goes on until it claims |
| Scheduler.WindowIsUsed | bench/src/prover.rs:754-782 | over any run the thread joins no earlier than it has to: its queue is exactly as long as the window lets it be |
| Scheduler.NeverStuck | bench/src/prover.rs:574-884 | unless both paths are done some thread can take a step |
| Scheduler.DoneIsClean | bench/src/prover.rs:870-884 | when both are done all chain steps ran in order, the backlog is back at zero and the exclusive phase is clear |
| Scheduler.RunsEnd | bench/src/prover.rs:574-884 | every step lowers a rank, so runs are finite |
| Scheduler.ProvePath | bench/src/prover.rs:680-880 | the loops of one path start each chain step once, in order, each after its predecessor, within the window |
| Varint.WriteUvarint | circuit/src/embed.rs:76-86 | the loop appends the base-128 encoding of the value |
| Varint.ReadUvarint | circuit/src/embed.rs:88-103 | the loop reads as specified, with the truncation and overflow errors |
| Varint.VarintRoundTrip | circuit/src/embed.rs:76-103 | a written 64-bit value reads back anywhere in a stream and consumes exactly its bytes |
| Varint.EncodedIsLeb128 | circuit/src/embed.rs:76-86 | the written form is unsigned LEB128: continuation bits on all bytes but the last, the value's bits lowest first, and no more bytes than it takes |
| Varint.ReadsWithinTen | circuit/src/embed.rs:88-103 | reading succeeds exactly when one of the next ten bytes, all of them there, has no continuation bit |
| Varint.LittleDigits | circuit/src/embed.rs:113-133 | the length of a section is written as its digits to the base 256, lowest first |
| Varint.ZigzagRoundTrip | circuit/src/embed.rs:105-111 | zigzag is undone by its inverse on all signed words, and is twice the magnitude, less one for negatives |
| Varint.UnzigzagRoundTrip | circuit/src/embed.rs:105-111 | the inverse is undone by zigzag on all unsigned words |
| Varint.SectionRoundTrip | circuit/src/embed.rs:113-133 | a framed section reads back wherever it stands |
| Varint.CompressedRoundTrip | circuit/src/embed.rs:135-164 | a compressed section reads back with any codec that restores what it compresses |
| Embed.CountedRoundTrip | circuit/src/embed.rs:248-260 | a counted list of varints reads back whole |
| Embed.WriteOffsets | circuit/src/embed.rs:248-260 | succeeds exactly on sorted offsets and writes their counted deltas |
| Embed.ReadOffsets | circuit/src/embed.rs:450-471 | offsets, watched bits and entry count are those of the deltas read; an offset past 32 bits is an error |
| Embed.OffsetsRoundTrip | circuit/src/embed.rs:248-471 | written offsets read back, and an entry is watched exactly when its range is not empty |
| Embed.ReadFits | circuit/src/embed.rs:88-103 | every varint read is a 64-bit value |
| Embed.WriteIdentityDeltas | circuit/src/embed.rs:283-309 | writes the counted zigzag deltas against the identity |
| Embed.ReadIdentityDeltas | circuit/src/embed.rs:522-532 | the map's decoding loop returns the entries of the deltas read, or an error when one leaves 32 bits |
| Embed.IdentityDeltasRoundTrip | circuit/src/embed.rs:283-532 | a written map reads back and leaves nothing over |
| Embed.RowMajorInverse | circuit/src/embed.rs:311-337 | the closed form of the cursor index is a bijection of the table: exchanging the dimensions inverts it |
| Embed.RowMajorCursor.Advance | circuit/src/embed.rs:327-337 | one advance moves the cursor from the closed form of a position to that of the next |
| Embed.SetBitOnly | circuit/src/embed.rs:566-570 | setting a mask bit sets it and no other |
| Embed.ReadSigma | circuit/src/embed.rs:534-586 | succeeds exactly on sections holding a table of the expected length with entries in its domain and nothing behind it, and returns its successors and the mask of its zero deltas |
| Embed.SigmaRoundTrip | circuit/src/embed.rs:299-586 | a written sigma is such a section, reads back, and the row-major mask bit of a position is set exactly when the permutation fixes it |

## Left out

- JumpTheorems.JumpSoundness: asks for fewer than P active transactions in both chains together, because the total wraps there; so do JumpCompleteness, JumpExact, OtherEqualityFollows and ChainTheorems.BlockSound.
- ChainTheorems.ChainSound: asks for batches smaller than the field, whose counters are exact only then; so do the step lemmas, BlockSound, LightCarriesNothing and the lemmas of ChainCompleteness.
- HonestBlock.ParseBlock: asks for positive group sizes and fewer transactions than the modulus; the source takes both for granted.
- MatchingTheorems.Progress: asks that only perps markets have reduce-only orders.
- MatchingBook.TakerFinishes: asks the same of every execution; executions of other registers between those of the taker are not part of a run.
- MatchingBook.ExecutionKeepsBook: takes the maker order that matches a leaf in price, nonce and market for the one that rests there; the tree of account orders is not modelled.
- MatchingBalances.LockedFollows: asks that the taker register belongs to the taker account.
- OpenInterestCap.StepKeepsCap: multiplies open interest, mark price and multiplier over the integers; FieldDecides says for which trades the circuit's product in the field decides the same.
- OpenInterestCap.RunKeepsCap: the same.
- Scheduler.PipelineSafe: takes the two path threads and their spawned threads as sequentially consistent, and raising the backlog and spawning a chain step as one step; panics of threads are not modelled.
- Embed.ReadOffsets: the error values are not told apart, only that there is one.
- Embed.ReadIdentityDeltas: the error values are not told apart, only that there is one.
- MatchingEngine.TxState.IsValidPerpsTrade: position validity, risk change and collateral checks are one given bit for each side.
- MatchingEngine.TxState.TradeCases: risk, spot balance and fee cap checks are parameters.
- MatchingEngine.TxState.ExecuteMatching: the same checks and the integrator fee amounts are parameters.
- Chain.SelectOnChainPubData: bytes are unbounded naturals here; their range checks belong to the transaction circuit.
- The proof system: a verified proof stands for its constraints having held; gates, witness generation and serialization registries are not modelled.
- Concrete hashes: jump records, order leaves and tree nodes are free terms, so equal hashes have equal preimages.
- Field reduction outside the jump state and the chain counters: amounts, prices and products are unbounded integers, and limb gadgets and plain range checks are their integer meaning.
- Risk parameters, available collateral and the spot balance updates: whether a trade is acceptable to either side is a parameter of the matching execution, and so are integrator fee amounts and the comparison of fee rates with their caps.
- The liquidation fee cap, impact prices, premium sampling, deleveraging and liquidation transactions: not part of this model.
- The queue that takes over new instructions after an execution, public data and account deltas.
- Generators, lookups, watcher lists, constant polynomials and the outer framing of an embedded circuit; compression is any codec that restores what it compresses.
- Overflow of 64-bit sums in the sparse order book tree.
- GPU routing, memory release, thread priorities and logging of the prover; the JSON deserializers of a block.
