# Verified model of the trading engine

The engine takes market data and execution reports over FIX 4.4, keeps a sliding price ladder per side
and symbol, keeps the books of its own orders, and hands events between threads over ring buffers.
This project models the four parts of it where state, order and arithmetic meet, and proves what they
keep. It follows the code as it stands; where the code misses what it is evidently for, the project
states exactly when it does meet it.

| part | specification | code |
|---|---|---|
| price ladder | `Ladder.dfy`, `LadderRuns.dfy`, `LadderClearing.dfy`, `LadderWitnesses.dfy` | `Liquidity.dfy` |
| order book-keeping | `Orders.dfy`, `OrderWorld.dfy`, `OrderFunds.dfy`, `OrderValues.dfy`, `OrderIds.dfy`, `OrderCells.dfy`, `OrderRuns.dfy`, `OrderFacts.dfy`, `OrderWitnesses.dfy`, `Ledgers.dfy`, `SymbolRuns.dfy`, `SymbolWitnesses.dfy` | `OrderManager.dfy` |
| order rate | `RateLimiter.dfy`, `FastRing.dfy`, `Bits.dfy` | the classes in the same files |
| slot ring between threads | `SlotRing.dfy`, `SlotRingFifo.dfy`, `SlotRingOrder.dfy` | its atomic steps |
| update counter | `SeqLock.dfy` | its atomic steps |
| calendar and time | `Calendar.dfy`, `Timestamp.dfy` | the methods of `Timestamp.dfy` |
| FIX frames | `FixText.dfy`, `FixFrames.dfy`, `FixFields.dfy`, `FixVerdicts.dfy`, `FixRoundTrip.dfy`, `FixArrival.dfy`, `FixDamage.dfy`, `FixFrameDamage.dfy`, `FixPrices.dfy` | `FixBuilder.dfy`, `FixReader.dfy`, `FixParser.dfy`, `FixDelivery.dfy` |
| shared | `Common.dfy`, `Arith.dfy`, `Sums.dfy`, `Digits.dfy` | `Buffers.dfy` |

Code that changes things in place is a class or a method over an array. Its contract ties the new state
to a function of the old one, and the results are lemmas about those functions. Threads are state
machines: one step is one atomic load, store or compare-and-swap, or the copy of one word, and a run is
any sequence of steps. Prices are raw integers (ten-thousandths) unless said otherwise, a missing price
is a real "none", and ladder prices lie on ticks.

## Where the code departs from what it is for

Each departure has its exact condition and, where one run shows it, that run.

- **Ladder units.** Placing the window scales the tick by 10^4, through the conversion in
  `util/Decimal.h`; offsets do not (`market/Liquidity.h:102-105`). `scale` stands for that factor. A ladder of
  several levels is right in no run unless it is 1 (`LadderRuns.WrongUnitFailsAtOnce`); the other results
  hold if it is, or there is one level. A copy of bids needs the same, one of asks nothing (`Ladder.CopyAgrees`).
- **Bids sliding down.** The test at `market/Liquidity.cpp:87` is the reverse of the asks' at `:199`. The slide is
  right exactly over empty top levels (`Ladder.BidTurnedIsRightIffTopIsEmpty`), which are those it refuses.
  Volumes go wrong exactly when it turns more than one level over (`LadderRuns.RunReadsRightIffHarmless`);
  under the asks' test they never do (`LadderRuns.NothingTurnedReadsRight`). Witnesses:
  `LadderWitnesses.SlideDownLosesBest`, `SlideDownShowsOldVolume`, `SlideDownIsRefusedOverEmpty`.
- **Rescan for the best.** It does not look at anything when the deleted best is on the edge it would stop
  at (`LadderWitnesses.EdgeRescanLosesBest`). That, the inverted test, a zero volume outside the window
  (`LadderWitnesses.DeletionPushesBestOut`) and clearing are the ways the best goes wrong:
  `LadderRuns.RunKeepsBestIffSafe`.
- **A deletion a whole window beyond the best** empties the ladder and does not report it
  (`Ladder.ChangeIsSilentIffThrownOut`, `LadderWitnesses.BestGoesSilently`).
- **Clearing a ladder** assigns the best to locals of the same names (`market/Liquidity.cpp:19-21`):
  `Ladder.ClearKeepsBestIffNone`, `LadderWitnesses.ClearKeepsBest`.
- **Ids and free slots.** A request that is not refused writes map cell `maxOrders`, one past the end, when
  that id is next, and an edit reads the next free slot although it takes none (`execution/OrderManager.cpp:246`).
  The model's id map has that cell, and runs go on past both; the accesses as written are listed apart, and
  `OrderRuns.AccessesStayInsideIff` says exactly when they stay inside (`OrderWitnesses.LastIdIsOutside`,
  `OrderWitnesses.EditReadsOutside`). The class, which has the code's arrays, asks for that condition.
- **Replacements and money.** An accepted replacement loses what it was cheaper when asked for, and what the
  shares filled since would have cost more at its price; a rejected one gives back what those shares changed
  of its extra cost (`OrderFunds.LossIsExact`, `OrderFunds.ExcessIsExact`, `OrderWitnesses.MoneyLost`,
  `OrderWitnesses.MoneyFromNowhere`). The balance falls below zero exactly by cancelling an order that was
  replaced by fewer shares than were filled, and only if the balance does not cover the difference
  (`OrderRuns.BalanceHoldsIffCovered`, `OrderRuns.BalanceIsCovered`, `OrderWitnesses.BalanceBelowZero`).
- **Pending cancellations** keep for good the shares that are filled while a cancellation is out, in a
  broker's total (`OrderRuns.PendingIsWhatOrdersAskFor`, `OrderWitnesses.CancelledForGood`) and in a symbol's
  (`SymbolRuns.SymbolTotals`, `QuietSymbol`), whether it is granted or refused
  (`SymbolWitnesses.CancelledLeavesShares`, `RefusedLeavesShares`).
- **Ids of closed orders** lead to the slot given back, and to the next order in it, exactly when
  `OrderRuns.ClosedIdsLeadNowhereIff` does not hold; `OrderWitnesses.OldIdNewOrder` is such a run.
- **Pending values** of a symbol keep what shares were filled below or above the limit, and what a later
  replacement changes in the price of shares already filled (`SymbolRuns.SymbolTotals`).
- **A broker's pending values** do not follow cancellations and accepted replacements at all: what a cancelled
  order had still to fill, and what a replacement changed, stays in them, with what fills off the limit leave
  (`OrderValues.PendingValueIsExact`, `ClosedValueIsWhatWasLeft`, `OrderWitnesses.CancelledForGood`).
- **Commission** evaluates to 0, so a purchase costs price times volume and a sale nothing.
- **Rate limit.** Above the capacity of its buffer the limit refuses nothing (`RateLimiter.LimitHoldsIffItFits`).
- **Order of the slot ring.** It is kept at every schedule exactly if the ring has one slot, or one thread
  writes and one reads, or nobody does one of both (`SlotRingOrder.FifoIffOneOfEach`): with more slots, two
  writers or two readers are enough to lose it.
- **Checksum.** It is printed without leading zeros while the parser wants six trailer bytes, so a frame
  with a one-digit checksum is not read until a byte of the next one is there (`FixArrival.LogonArrives`).
- **Frames cut by the network** are not always taken as incomplete: `FixArrival.PrefixIsNoFrame` gives the
  verdict on every first part of a frame, two of which close the session (`FixArrival.CutShortFrameIsAnError`).
- **A checksum of 0** can become a separator unnoticed: an empty number is read as 0, and the message ends a byte
  early. In a stream of messages no other change of one byte in a trailer passes (`FixFrameDamage.FrameIsGuarded`,
  `ZeroChecksumPasses`). Before the trailer one passes only if it makes the message end at another trailer that
  fits (`FixDamage.RefusedOrEndsElsewhere`), which a change of the length can do (`FixFrameDamage.LengthChangePasses`).
- **Prices below 1000 raw units** get their decimal point into the tag, and negative ones are misread
  (`FixPrices.PriceRoundTrip`).
- **A field that breaks off** at the end of the bytes is taken if it is a text that fits, and then read again as a
  tag (`FixFields.UnclosedStops`).
- **A negative encryption method** is not read back (`FixRoundTrip.SignedReads`).

The broker contract (`OrderWorld.Contract`): prices and volumes are not negative; requests name open orders
with nothing outstanding; reports name open orders with their side; a cancellation or replacement is
answered under its own id; a rejection answers only a new order not yet answered; a fill does not
overfill and says FILLED exactly when it completes the order with nothing outstanding.

## Model

| member | source | states |
|---|---|---|
| LadderRuns.RunReadsRightIffHarmless | market/Liquidity.cpp:15-289 | in any run of updates and clears, every price reads at every moment the volume last accepted for it since it entered the window, exactly when no update turned more than one bid level over |
| LadderRuns.RunKeepsBestIffSafe | market/Liquidity.cpp:15-289 | in any such run the cached best is the best occupied level at every moment exactly when every event was safe, a condition on the state before it |
| LadderRuns.NothingTurnedReadsRight | market/Liquidity.cpp:191-289 | asks, and bids under the asks' test, read right in every run |
| LadderClearing.ClearingStartsOver | market/Liquidity.cpp:15-22 | after a clearing, window and volumes are at every moment those of a new ladder that was given only what came since |
| LadderRuns.VolumesFollow | market/Liquidity.cpp:104-156 | an accepted update shows its volume at its price and leaves all other prices of the new window alone, unless the update turns a bid ladder over; what the window loses lies on the side away from the best; a refused one changes no volume; whatever the cached best is |
| LadderRuns.TurnByMoreMisreads | market/Liquidity.cpp:91-99 | a bid ladder turned over more than one level shows an old volume at a price below the old window |
| LadderRuns.WrongUnitFailsAtOnce | market/Liquidity.cpp:108-118 | when window and offsets count in different units a ladder of several levels is wrong from its first price on |
| Ladder.UpdateKeepsBestIffSafe | market/Liquidity.cpp:104-156 | a ladder whose cached best is its best occupied level still is after an update exactly when a condition on the state before the update holds, for the code's test before the bids' slide and for the asks' |
| Ladder.BidTurnedIsRightIffTopIsEmpty | market/Liquidity.cpp:81-102 | sliding bids down keeps the best right exactly when the levels that wrap are empty |
| Ladder.Rescan | market/Liquidity.cpp:137-153 | the rescan finds the next best level unless the deleted best sat on the edge where the scan stops |
| Ladder.ClearKeepsBestIffNone | market/Liquidity.cpp:15-22 | clearing leaves a right ladder exactly when there was no best |
| Ladder.ChangeIsSilentIffThrownOut | market/Liquidity.cpp:129-153 | a changed top is reported, except exactly when a deletion a whole window beyond it empties the ladder |
| Ladder.ReportsIffAtTheTop | market/Liquidity.cpp:104-156 | of a ladder that is right, an update reports a changed top if and only if it is accepted and its price is the best before it or the best after it |
| Ladder.ReportIsExact | market/Liquidity.cpp:104-156 | the same of any ladder at any scale: but for a best that was thrown out |
| Ladder.NoBestShows | market/Liquidity.cpp:137-153 | the volume shown without a best: 0 when the last bid is deleted, -1 when the last ask is or the best is thrown out, and what it was before otherwise |
| Ladder.NewIsEmpty | market/Liquidity.cpp:3-13 | a new ladder is right, holds nothing and shows -1 |
| Ladder.FirstUpdateReadsBack | market/Liquidity.cpp:108-118 | the first price's volume can be read back exactly when window and offsets use one unit, or there is one level |
| Ladder.CopyAgrees | market/Liquidity.cpp:158-184 | a copy of any size has the same best; it is right, agrees at every price in both windows and is empty elsewhere, for asks always, for bids exactly if its window is placed in the units of its levels |
| LiquidityCode.Liquidity.constructor | market/Liquidity.cpp:3-13 | a new ladder is the empty one |
| LiquidityCode.Liquidity.Clear | market/Liquidity.cpp:15-22 | the masked array after `clear` is the cleared ladder |
| LiquidityCode.Liquidity.BidShiftTowardsHigherPrices | market/Liquidity.cpp:56-79 | moving indices over the circular array is sliding the window up, with what enters emptied |
| LiquidityCode.Liquidity.BidShiftTowardsLowerPrices | market/Liquidity.cpp:81-102 | the same downwards, refused on an empty top level |
| LiquidityCode.Liquidity.BidUpdate | market/Liquidity.cpp:104-156 | the in-place update is the specified one, with its status; a right ladder reports a changed top exactly for an accepted price that is its best before or after |
| LiquidityCode.Liquidity.BidFindBest | market/Liquidity.cpp:141-152 | the downward index loop is the specified rescan |
| LiquidityCode.Liquidity.AskShiftTowardsHigherPrices | market/Liquidity.cpp:191-216 | the upward slide of asks, refused on an occupied bottom level |
| LiquidityCode.Liquidity.AskShiftTowardsLowerPrices | market/Liquidity.cpp:218-239 | the downward slide of asks |
| LiquidityCode.Liquidity.AskUpdate | market/Liquidity.cpp:241-289 | the same for asks |
| LiquidityCode.Liquidity.AskFindBest | market/Liquidity.cpp:275-285 | the upward index loop is the specified rescan |
| LiquidityCode.Liquidity.BidCopyTo | market/Liquidity.cpp:158-184 | the index loop over two rings makes the specified copy |
| LiquidityCode.Liquidity.AskCopyTo | market/Liquidity.cpp:291-319 | the same for asks |
| LiquidityCode.Liquidity.PriceFromIndex | market/Liquidity.h:87-95 | an index gives the price of its level |
| LiquidityCode.Liquidity.IndexFromPrice | market/Liquidity.h:97-100 | a price gives the index of its level |
| OrderRuns.FundsAreExact | execution/OrderManager.cpp:55-356 | over every run under the contract, what is missing from the balance is exactly what is held for open orders, what was bought at limit prices, and what accepted replacements lost less what rejected ones gave back too much |
| OrderRuns.LossAndExcess | execution/OrderManager.cpp:309-356 | after any run, what the next event loses or gives back too much, from what the replacement changed when asked for and the shares filled since |
| OrderFunds.LossIsExact | execution/OrderManager.cpp:341-356 | an accepted replacement loses what it was cheaper when asked for plus what the fills since would have cost more at its price; with no fills, nothing exactly if it was not cheaper |
| OrderFunds.ExcessIsExact | execution/OrderManager.cpp:309-339 | a rejected replacement gives back exactly what was taken for it exactly when the fills since cost the same at both prices, or it was not dearer then or now |
| OrderFunds.BalanceFallsIff | execution/OrderManager.cpp:283-307 | a balance falls below zero exactly by a cancellation that gives back a negative amount it does not cover |
| OrderRuns.BalanceHoldsIffCovered | execution/OrderManager.cpp:283-307 | over every run the balance is never below zero exactly if, whenever an order with fewer shares than are filled was cancelled, the balance covered what that took |
| OrderRuns.BalanceIsCovered | execution/OrderManager.cpp:55-356 | balance and reserves stay at or above zero over every run in which no accepted replacement leaves fewer shares than are filled |
| OrderFunds.SpentGrows | execution/OrderManager.cpp:139-181 | fills and accepted replacements never add to balance and reserves, and outside replacements a fill takes exactly its shares at the limit price |
| OrderRuns.FundsAreSafe | execution/OrderManager.cpp:55-356 | over every run under the contract balance and reserves never exceed the initial balance, and without replacements the shortfall is exactly what was bought at limit prices |
| OrderRuns.SlotsArePartitioned | execution/OrderManager.cpp:64-92 | the free list's tail has no duplicates and shares out all slots with the open orders, whose number is the list's pointer |
| OrderRuns.PendingIsWhatOrdersAskFor | execution/OrderManager.cpp:81-356 | pending shares are what open orders still ask for; pending cancellations are right exactly when no share was filled while its cancellation was out |
| OrderValues.PendingValueIsExact | execution/OrderManager.cpp:81-356 | after every run a side's pending value is what open orders have still to fill, at their limits, and what fills off the limit, cancellations and accepted replacements have left in it, event by event |
| OrderValues.ClosedValueIsWhatWasLeft | execution/OrderManager.cpp:81-356 | with no order open it is exactly what was left in it |
| OrderRuns.ClosedIdsLeadNowhereIff | execution/OrderManager.cpp:283-356 | after any run, all ids of an order that closes lead nowhere exactly when it is rejected, or cancelled with no replacement ever accepted, or filled under one of its ids with at most one accepted |
| OrderRuns.AccessesStayInsideIff | execution/OrderManager.cpp:55-258 | after any run, every element a handler touches as written exists exactly when the id `maxOrders` is neither looked up nor written and no edit goes through with all slots taken |
| OrderCells.ChangedIsAccessed | execution/OrderManager.cpp:55-356 | every element of map, free list and entries that a handler changes is among those it is said to touch |
| OrderCells.FreeListAccesses | execution/OrderManager.cpp:55-356 | of the free list it touches exactly the element it hands out or gives back, and an edit that goes through the next free one |
| OrderRuns.EveryRunKeepsInv | execution/OrderManager.cpp:55-356 | the invariant behind these holds after every run |
| OrderWitnesses.BalanceBelowZero | execution/OrderManager.cpp:208-356 | eight shares filled while a replacement by five is out, accepted and then cancelled: the balance is negative |
| OrderWitnesses.MoneyFromNowhere | execution/OrderManager.cpp:309-339 | ten shares filled while a dearer replacement is out: its rejection gives back twice what was taken |
| OrderWitnesses.OldIdNewOrder | execution/OrderManager.cpp:283-307 | an id of a cancelled order leads to the next order |
| OrderWitnesses.CancelledForGood | execution/OrderManager.cpp:139-307 | four shares filled during a cancellation stay in the pending cancellations, and the six cancelled in the pending value, with no order open |
| SymbolRuns.SymbolTotals | execution/SymbolState.cpp:21-95 | for any brokers, whatever fills come between requests and answers: a symbol's pending shares are what its open orders ask for, its pending cancellations what is being withdrawn and the shares filled while their cancellation was out, its pending value what open orders are worth and what fills off the limit and changed prices of filled shares left behind, its own shares those bought less those sold |
| SymbolRuns.LateIsZeroIffNever | execution/SymbolState.cpp:29-74 | the shares left in a symbol's pending cancellations are never negative, and none exactly if in the whole run no share was filled while a cancellation was out |
| SymbolRuns.QuietSymbol | execution/SymbolState.cpp:21-95 | with no order open in a symbol none of its shares is pending, and some are still being cancelled exactly if some were ever filled while a cancellation was out |
| SymbolWitnesses.CancelledLeavesShares | execution/SymbolState.cpp:29-74 | four of ten shares filled below the limit while a cancellation is out: when it is granted no order is open, yet four shares are being cancelled and 4 is pending value |
| SymbolWitnesses.RefusedLeavesShares | execution/SymbolState.cpp:29-65 | the same when it is refused: four shares are being cancelled with no cancellation out |
| Ledgers.CallMirrorsHandler | execution/SymbolState.cpp:21-95 | what a handler adds to its broker's totals its ledger call adds to the symbol's |
| Ledgers.LedgersAgree | execution/OrderManager.cpp:81-356 | for any brokers, symbols and events the brokers' totals equal the symbols' |
| Ledgers.AverageIsClose | execution/SymbolState.cpp:29-42 | after any calls on a new ledger, buys and sales in any order that never sell more than is held, the shares cost no less than their average says, and more by less than the largest holding for each buy; the average lies between the prices paid |
| Ledgers.CloseAfterSale | execution/SymbolState.cpp:36-41 | a sale leaves the average as it was, and what it says as close |
| OrderManagement.BrokerProfile.DebitBalance | execution/BrokerProfile.cpp:13-20 | the amount is taken exactly when the balance covers it |
| OrderManagement.OrderManager.constructor | execution/OrderManager.cpp:4-15 | a new manager starts a run: all slots free, no id mapped, the invariant of every run holds |
| OrderManagement.OrderManager.GetOrderEntry | execution/OrderManager.h:96-120 | every id of an open order leads to its slot |
| OrderManagement.OrderManager.HandleSingleOrder | execution/OrderManager.cpp:55-93 | 0 exactly when ids, slots or money run out, and then nothing changes; else the id leads to a slot that was free, all other orders stay, the cost leaves the balance, and broker's and symbol's totals move alike |
| OrderManagement.OrderManager.HandleSingleOrderAck | execution/OrderManager.cpp:95-106 | the order is NEW; no money, total or other order changes |
| OrderManagement.OrderManager.HandleSingleOrderReject | execution/OrderManager.cpp:108-137 | the slot is the next one handed out, the order's cost is back, its shares and their value are not pending, none of its ids leads anywhere |
| OrderManagement.OrderManager.HandleOrderFill | execution/OrderManager.cpp:139-181 | refused exactly if the id leads nowhere or the cumulated volume does not fit; else shares move from pending to own without cost, what they fetched leaves the pending value, and a complete fill gives the slot back |
| OrderManagement.OrderManager.HandleCancelOrder | execution/OrderManager.cpp:183-206 | the next id leads to the order's slot too, and its unfilled shares are being cancelled |
| OrderManagement.OrderManager.HandleEditOrder | execution/OrderManager.cpp:208-259 | refused exactly if order or id is not there, fewer shares are left than filled, or the balance does not cover what it is dearer; else the next id leads to the order's slot too; exactly what the new terms cost more is taken; pending moves by the difference in shares; the next free slot is read as in the code |
| OrderManagement.OrderManager.HandleCancelOrderReject | execution/OrderManager.cpp:261-281 | the cancellation is forgotten, with its id and its shares |
| OrderManagement.OrderManager.HandleCanceledOrder | execution/OrderManager.cpp:283-307 | the slot is the next one handed out, the cost of the unfilled shares is back, first id and request lead nowhere |
| OrderManagement.OrderManager.HandleEditOrderReject | execution/OrderManager.cpp:309-339 | the old terms stand, the id leads nowhere, what the new terms would cost more by now is credited |
| OrderManagement.OrderManager.HandleEditOrderAck | execution/OrderManager.cpp:341-357 | the new terms stand, the first id leads nowhere, no money moves |
| RateLimiter.LimitHolds | execution/BrokerProfile.cpp:62-150 | over every run with a fixed limit within the capacity any closed second holds at most that many recorded orders |
| RateLimiter.LimitHoldsIffItFits | execution/BrokerProfile.cpp:62-92 | that holds for all runs exactly when the limit does not exceed the buffer's capacity |
| RateLimiter.PassesExactly | execution/BrokerProfile.cpp:62-150 | after any run on a steady clock a request passes if and only if fewer than the limit were recorded in the closed second before it, or the limit is above the buffer's capacity |
| RateLimiter.RecordsExactly | execution/BrokerProfile.cpp:75-150 | a request leaves its finishing time if and only if it passes and is a new order, taken or not, or was taken |
| RateLimiter.PruneIsExact | execution/BrokerProfile.cpp:67-70 | pruning a sorted queue from the front leaves exactly the timestamps that are recent |
| RateLimiter.OrderRate.IsOrderRateWithinLimit | execution/BrokerProfile.cpp:62-73 | the loop over the ring prunes as specified and answers by the count left |
| RateLimiter.OrderRate.HandleEvent | execution/BrokerProfile.cpp:75-150 | a request that passes is recorded with its finishing time if the order manager took it, and a new order even if it did not |
| FastRing.FastRingBuffer.constructor | util/FastRingBuffer.h:68-71 | a ring of the smallest power of two that holds the wanted number is the empty queue |
| FastRing.FastRingBuffer.Push | util/FastRingBuffer.h:73-80 | pushing keeps the last `size` elements |
| FastRing.FastRingBuffer.PopFront | util/FastRingBuffer.h:92-97 | the oldest element is taken off |
| FastRing.FastRingBuffer.Front | util/FastRingBuffer.h:82-85 | the oldest element |
| FastRing.FastRingBuffer.Back | util/FastRingBuffer.h:99-102 | the newest element |
| Bits.GetNextPowerOfTwo | util/CommonUtils.h:28-41 | the shifts and ors give the smallest power of two that is not below a 64-bit number, and 0 where that does not fit |
| Bits.MaskIsMod | market/Liquidity.h:97-100 | masking with a power of two less one is the remainder, for negative numbers too |
| SlotRing.EveryInterleavingIsSafe | util/MWMRNoOverWriteSlotRingBuffer.h:48-111 | for any threads and schedule a claimed slot has one holder, no published unread datum is overwritten, each is claimed at most once, and its reader sees what its writer stored |
| SlotRing.EveryCallIsAnsweredRight | util/MWMRNoOverWriteSlotRingBuffer.h:48-105 | for any threads and schedule a call for a slot to write comes back empty exactly if the slot it looks at holds something unread or being read, one for a slot to read exactly if it holds nothing unread and is not being read; while another thread writes it, or reads it, or takes it first, the call goes back to the load; and the index moves on past a slot taken |
| SlotRing.StatusMeans | util/MWMRNoOverWriteSlotRingBuffer.h:48-111 | a slot's status says who holds it and whether it has something unread |
| SlotRing.LookSees | util/MWMRNoOverWriteSlotRingBuffer.h:77-105 | a reader that holds a slot sees, under its own claim, what was published there |
| SlotRing.ExecInv | util/MWMRNoOverWriteSlotRingBuffer.h:48-111 | the invariant of every slot, thread, publication and claim holds under every schedule |
| SlotRing.OnlyTheWriterChangesData | util/MWMRNoOverWriteSlotRingBuffer.h:48-111 | a step changes a slot's datum only if its thread holds the slot for writing |
| SlotRingOrder.FifoIffOneOfEach | util/MWMRNoOverWriteSlotRingBuffer.h:48-111 | every schedule of these writers and readers takes data out in the order they were put in exactly if the ring has one slot, or nobody writes, or nobody reads, or one thread writes and one reads |
| SlotRingOrder.OrderIsKept | util/MWMRNoOverWriteSlotRingBuffer.h:48-111 | the first half of it, for data of any type |
| SlotRingOrder.TwoWritersLoseOrder | util/MWMRNoOverWriteSlotRingBuffer.h:52-69 | at every size from two on, a schedule in which a stalled writer's datum is overtaken |
| SlotRingOrder.TwoReadersLoseOrder | util/MWMRNoOverWriteSlotRingBuffer.h:85-105 | at every size from two on, a schedule in which a stalled reader takes a datum of the next lap |
| SlotRingFifo.OneWriterOneReaderIsFifo | util/MWMRNoOverWriteSlotRingBuffer.h:48-111 | with one writing and one reading thread, or one that does both, the claimed data are a prefix of the published ones, at most `size` ahead, at every interleaving |
| SlotRingFifo.RefusalsAreExact | util/MWMRNoOverWriteSlotRingBuffer.h:57-61 | a write is refused exactly when all slots are in use, a read exactly when nothing is published, and nobody retries |
| SeqLock.NoTornCopy | strategy/MeanReversion.cpp:36-65 | a reader that leaves the retry loop holds, whole, the book that was the newest finished one when it last loaded the counter, so none older than when it entered, at every interleaving |
| SeqLock.OneRoundIsEnoughIffQuiet | strategy/MeanReversion.cpp:36-65 | a round that nobody disturbs ends with the book as it stands between writer sections, and at the top of the loop inside one |
| SeqLock.EnteringIsEnoughIfQuiet | strategy/MeanReversion.cpp:36-65 | a reader that enters between sections and is not disturbed leaves with the book |
| SeqLock.EverySectionPublishes | market/MarketState.cpp:14-103 | however readers move in between, the writer's sections leave the counter at twice their number, and the books there ever were are those their stores made, in order |
| SeqLock.ExecInv | market/MarketState.cpp:11-103 | what each reader's partial copy may be trusted for, given the counter it loaded, holds after every run |
| Calendar.ClosedFormIsDayCount | message/FixMessageParser.cpp:16-24 | the closed form is the number of days since 1970 counted by year and month lengths under the leap rule |
| Calendar.OneMoreDay | message/FixMessageParser.cpp:16-24 | the next calendar day counts one more |
| Calendar.CountsAreOrdered | message/FixMessageParser.cpp:16-24 | later dates count more, and different dates differently |
| Timestamp.PrintThenParse | message/FixMessageBuilder.cpp:8-99 | for every instant of a 64-bit nanosecond clock the text has 18 characters and the fraction, and is parsed as the instant in whole units |
| Timestamp.PrintedIsFormed | message/FixMessageBuilder.cpp:8-99 | and it has the form `yyyymmdd-hh:mm:ss.` with digits behind |
| Timestamp.ToFixFormat | message/FixMessageBuilder.cpp:8-99 | the text is written into the buffer and nothing else, or nothing at all if it does not fit |
| Timestamp.FixTimestampToNs | message/FixMessageParser.cpp:26-74 | what a well-formed text is parsed as, modulo the 64-bit word |
| Timestamp.WholeSecondsRead | message/FixMessageParser.cpp:26-74 | a text with the fixed fields of any date of a four-digit year, and no point behind them, is read as its whole seconds since 1970 |
| Timestamp.FractionRead | message/FixMessageParser.cpp:48-73 | with a point and up to nine digits behind them, as that and the digits' part of a second |
| Timestamp.ToInt | message/FixMessageParser.cpp:8-14 | the number that fixed-width characters stand for |
| Timestamp.ReadDigits | message/FixMessageParser.cpp:53-61 | the leading digits, nine at most |
| Timestamp.ScaleUp | message/FixMessageParser.cpp:63-68 | the fraction in nanoseconds |
| FixDelivery.Deliver | message/FixMessageParser.cpp:84-150 | a Logon or HeartBeat built, finalized and put anywhere in a ring is parsed back to its header and body; it could not be built, or the parser waits, or a Logon's method is misread, exactly under the conditions named |
| FixDelivery.Send | message/FixMessageBuilder.cpp:464-503 | building and finalizing succeed exactly if length and sequence number have fewer digits than their fields and the frame leaves a byte of the buffer free |
| FixArrival.CutShortFrameIsAnError | message/FixMessageParser.cpp:84-127 | one frame whose first 16 and first 30 bytes are errors and whose first 29 are incomplete |
| FixArrival.LogonArrives | message/FixMessageParser.cpp:84-150 | a Logon frame, at any ring offset and whatever follows, gives back type, ids, sequence number, time, size and body exactly when enough bytes are there and the encryption method is not negative |
| FixArrival.HeartBeatArrives | message/FixMessageParser.cpp:481-508 | the same for a HeartBeat frame |
| FixArrival.KindArrives | message/FixTags.cpp:138-159 | a frame of any message type announces it to the parser, byte by byte of the table |
| FixArrival.PrefixIsNoFrame | message/FixMessageParser.cpp:84-127 | the parser's verdict on every proper prefix of a frame |
| FixRoundTrip.LogonRoundTrip | message/FixMessageBuilder.cpp:464-503 | the frame round trip for any text of the sending time |
| FixRoundTrip.HeartBeatRoundTrip | message/FixMessageBuilder.cpp:195-207 | the same for HeartBeat |
| FixRoundTrip.EnvelopeRead | message/FixMessageParser.cpp:86-142 | version, length and trailer of a frame are found where they are, or the parser waits |
| FixRoundTrip.ClockTells | message/FixMessageBuilder.cpp:478-486 | the clock's text fits the parser's array and is read as the clock in whole units |
| FixRoundTrip.SignedReads | message/FixTagValueReader.h:40-58 | a printed integer is read back exactly when it is not negative |
| FixFrames.HeaderTagsRead | message/FixMessageParser.cpp:176-243 | the five header fields in a row fill the header |
| FixFrames.FieldAt | message/FixTagValueReader.cpp:4-23 | a field gives its tag, and its value up to the separator |
| FixFrames.FieldLooks | message/FixMessageBuilder.cpp:505-522 | a field is the tag's digits, an equals sign, the value and byte 1 |
| FixFields.HeaderInAnyOrder | message/FixMessageParser.cpp:176-243 | header fields in any order and number fill the header with the last of each, six kinds are passed over, and any other field ends it there |
| FixFields.LongValueStops | message/FixMessageParser.cpp:191-219 | after any such fields a name of 30 bytes or a time of 40 is reported by its tag |
| FixFields.UnclosedStops | message/FixTagValueReader.cpp:44-63 | what is said of a header that breaks off in a field |
| FixFields.NoTagStops | message/FixMessageParser.cpp:180-183 | bytes in which no tag ends are reported by the number they make |
| FixFields.CutAtZero | message/FixTagValueReader.cpp:44-63 | a text is kept up to a zero byte in it |
| FixFields.LogonInAnyOrder | message/FixMessageParser.cpp:393-452 | a Logon's fields in any order and number: the last of each counts, and any other field ends them |
| FixFields.LogonBreaksOff | message/FixMessageParser.cpp:393-452 | what is said of a Logon that breaks off |
| FixFields.TestIdsRead | message/FixMessageParser.cpp:481-508 | the last test id counts, any other field ends them, and one of 30 bytes is reported |
| FixFields.HeartBeatBreaksOff | message/FixMessageParser.cpp:481-508 | what is said of a HeartBeat that breaks off |
| FixVerdicts.MessageVerdict | message/FixMessageParser.cpp:84-142 | a message of version, length, body of that length and trailer is accepted exactly if the tags are 8, 9 and 10, the version is FIX.4.4, the number is the byte sum modulo 256 and six bytes of trailer or more are there; and what is wrong first is what is said |
| FixVerdicts.WaitsForMore | message/FixMessageParser.cpp:86-114 | fewer than sixteen bytes, and a length of more than there is or below -6, are waited for |
| FixVerdicts.UnreadableStart | message/FixMessageParser.cpp:89-98 | bytes without a tag, or a version without its separator, are reported |
| FixDamage.AcceptedIsSound | message/FixMessageParser.cpp:104-142 | a header is accepted only if the body length leads to a trailer whose number is the byte sum of all before it, modulo 256 |
| FixDamage.SizeIsKept | message/FixMessageParser.cpp:146-149 | header fields do not change the size found for the message |
| FixDamage.OneByteChangeIsNoticed | message/FixMessageParser.cpp:131-142 | changing any one byte of an accepted message's body is refused as a wrong checksum |
| FixDamage.RefusedOrEndsElsewhere | message/FixMessageParser.cpp:86-142 | changing any one byte before the trailer, in version, length or body, is refused or makes the message end at another trailer |
| FixFrameDamage.FrameIsGuarded | message/FixMessageParser.cpp:104-142 | of a frame that the next messages or nothing follow, a change of one byte of the trailer passes exactly if it turns a lone 0 of the checksum into a separator, and one before it only if the message then ends at another trailer |
| FixFrameDamage.ChecksumIsGuardedUnlessZero | message/FixMessageParser.cpp:117-142 | whatever follows, another byte in the checksum is a wrong checksum, but for that one case, where the message ends a byte early |
| FixFrameDamage.ZeroChecksumPasses | message/FixMessageParser.cpp:117-142 | a frame whose checksum is 0 is still accepted with a separator in its place |
| FixFrameDamage.LengthChangePasses | message/FixMessageParser.cpp:104-127 | at every width of the length field a message whose body is itself a fitting trailer is accepted, as ending there, when its length becomes 0 |
| FixPrices.PriceRoundTrip | message/FixMessageBuilder.cpp:542-567 | a price field, of any raw value, is read back as its tag and raw value exactly from 1000 raw units on |
| FixPrices.PriceReads | message/FixTagValueReader.h:96-136 | a price whose text has four bytes or more is read as what its text is worth |
| FixPrices.AnyPriceReads | message/FixTagValueReader.h:96-136 | any price text counts whole units without a point; with one its decimals are filled up to four, and more than four are refused |
| FixPrices.FilledIsScaled | message/FixTagValueReader.h:121-125 | padding missing decimals multiplies by the power of ten they lack |
| FixBuilder.OutMessage.constructor | message/OutMessage.h:11 | a new message is empty |
| FixBuilder.OutMessage.AddText | message/FixMessageBuilder.cpp:505-522 | a text field is appended exactly if it fits; else nothing changes but the status |
| FixBuilder.OutMessage.AddChar | message/FixMessageBuilder.cpp:524-540 | the same for a character |
| FixBuilder.OutMessage.AddInt | message/FixMessageBuilder.h:117-140 | a number is appended exactly if it fits with a byte to spare; else at most its tag is left |
| FixBuilder.OutMessage.AddPrice | message/FixMessageBuilder.cpp:542-567 | a price is appended exactly if it fits, with nothing written outside the buffer |
| FixBuilder.MessageBuilder.constructor | message/FixMessageBuilder.cpp:101-115 | the placeholders are as wide as the numbers they are made for |
| FixBuilder.MessageBuilder.AddDataToOutMsg | message/FixMessageBuilder.h:52-115 | a message is built exactly if it fits and its length has fewer digits than the placeholder, and then its BodyLength is the length of its body |
| FixBuilder.MessageBuilder.AddLogon | message/FixMessageBuilder.cpp:177-192 | the Logon body |
| FixBuilder.MessageBuilder.AddHeartBeat | message/FixMessageBuilder.cpp:195-207 | the HeartBeat body |
| FixBuilder.MessageBuilder.FinalizeOutMessage | message/FixMessageBuilder.cpp:464-503 | patching number and time and adding the checksum yields the frame, exactly if the number has fewer digits than its placeholder and the trailer fits |
| FixReader.TagValueReader.ReadTag | message/FixTagValueReader.cpp:4-23 | reading over the masked ring is reading the bytes in order, wherever they wrap |
| FixReader.TagValueReader.ReadInt | message/FixTagValueReader.h:40-58 | the same for integers |
| FixReader.TagValueReader.ReadPrice | message/FixTagValueReader.h:96-136 | the same for prices, refusing more than four decimals |
| FixReader.TagValueReader.ReadChar | message/FixTagValueReader.cpp:25-42 | the same for characters |
| FixReader.TagValueReader.ReadText | message/FixTagValueReader.cpp:44-63 | the same for text, never writing past the array |
| FixReader.TagValueReader.MoveReadPosTo | message/FixTagValueReader.cpp:65-75 | the position moves exactly when the offset is below the end's ring index |
| FixReader.TagValueReader.MoveToNextTag | message/FixTagValueReader.cpp:77-90 | the position moves past the next separator, or stays |
| FixParser.MessageParser.ParseHeader | message/FixMessageParser.cpp:84-150 | status, header and position are those of the specified parser |
| FixParser.MessageParser.ParseHeaderTags | message/FixMessageParser.cpp:176-243 | the tag loop is the specified recursion |
| FixParser.MessageParser.ParseLoginSuccess | message/FixMessageParser.cpp:393-452 | the same for Logon bodies |
| FixParser.MessageParser.ParseHeartBeat | message/FixMessageParser.cpp:481-508 | the same for HeartBeat bodies |
| FixParser.MessageParser.ParseBody | message/FixMessageParser.cpp:152-174 | the body is read by the parser of the kind announced, a Logout or request is refused, and the four other kinds are left to their parsers |
| FixParser.FindEnvelope | message/FixMessageParser.cpp:86-142 | version, length, trailer and checksum are checked as specified |
| FixParser.SumBytes | message/FixMessageParser.cpp:131-136 | the checksum loop sums the bytes before the trailer as unsigned |

## Left out

- Sockets, the session, the gateway and the logs: input and output. The parser's ring is given; how the session moves its start, and its gap buffer whose mask is not one below a power of two (`network/Session.h:439`), are not modelled.
- The bodies of other message types and their enum tables: more of the same fields. A type byte that names no message is `Undefined` here; the code's conversion runs off its end.
- Snapshot and update sequencing of a symbol's market state, and the strategy's analytics: only the update counter around the book is modelled.
- `util/SWSRNoOverWriteRingBuffer.h`: a counter-guarded ring whose `write` also lacks its final return; the slot ring is the harder of the two.
- `util/SWSRRingBuffer.h`, `util/Buffer.h` and the copying of a symbol's state: their retry guards let a torn copy out.
- Weak memory ordering: steps interleave sequentially.
- A thread that holds several slots of a ring at once counts as several threads.
- Overflow of machine integers, except where a 64-bit word is named; a parsed number is unbounded, and own shares do not wrap.
- The price −1 as "no price": a ladder with a tick of one could reach it; "none" is a separate value here.
- Negative ladder volumes, and negative prices and volumes in orders: the contract excludes them.
- Clocks and `std::to_chars` are given by their results; `std::chrono` by its calendar split.
- Listeners, failure events and symbol names.
- Agreement of pending share values between brokers and symbols: acknowledged cancellations and replacements update only the symbol's.
- SymbolRuns.SymbolTotals: a call that names no symbol, or would divide by zero in the average, does not happen in a run.
- FixFrameDamage.FrameIsGuarded: what follows the frame is nothing or further messages; with other bytes behind it, a changed equals sign or last separator of the trailer is not followed.
- OrderManagement.OrderManager.GetOrderEntry: asks that the id is not `maxOrders`, whose cell the code's map does not have; `OrderRuns` follows that look-up.
- FixParser.MessageParser.ParseHeader: does not model the part of a name or time already copied into the record when its field turns out too long, nor bytes behind a text that no separator closed.
- FixReader.TagValueReader.ReadText: the same; the bytes after an unclosed text stay whatever the array held.
- FixReader.TagValueReader.MoveReadPosTo: takes offsets up to the number of bytes at hand, which are all the parsers use.
- FixBuilder.OutMessage.AddPrice: takes tags of two digits and more; with one digit and a short value the point would go into the field before.
- FixBuilder.MessageBuilder.AddDataToOutMsg: takes an empty message; in one that holds data the checksum would cover that too.
- FixBuilder.MessageBuilder.AddLogon: without credentials, which the parser does not read, and without an unknown reset flag.
- FixDelivery.Deliver: the ring holds the whole buffer; a frame longer than the ring never arrives whole.
- Timestamp.FixTimestampToNs: its result means the code's only for texts that have the fixed fields. Of a shorter text the code reads bytes it has not set, where the model reads zeros; it does not stop at a zero byte inside; and it takes a malformed month or day as unsigned.
- LiquidityCode.Liquidity.BidUpdate: prices lie on ticks; the code truncates the offset of others.
- LiquidityCode.Liquidity.AskUpdate: the same.
- LiquidityCode.Liquidity.IndexFromPrice: the same.
- LadderRuns.VolumesFollow: takes one unit for window and offsets, and no update that turns a bid ladder over, whose volumes `RunReadsRightIffHarmless` follows; the run results take one unit or one level, and `WrongUnitFailsAtOnce` says why.
- Ladder.UpdateKeepsBestIffSafe: the same.
- OrderManagement.OrderManager.HandleSingleOrder: asks, like the other handlers, for the contract and for accesses that stay inside; the runs ask only for the contract.
- Ledgers.AverageIsClose: a fill that sells more than is held, or of no shares, does not happen in its runs.
- FixArrival.KindArrives: the kinds the parser does not convert ('D', 'F', 'G' and all other bytes) are `Undefined`.
- RateLimiter.OrderRate.HandleEvent: whether the order manager took the request is an input, which `OrderManagement` answers.
- SeqLock.NoTornCopy: the book stands for all words the writer brackets. The trades that the reader pushes into its windows, and its own trade counter, survive a retry and are not modelled.
