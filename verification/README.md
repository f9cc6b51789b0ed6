# An NFT marketplace with escrow, auctions and collections

A Dafny model of the `NFTMarketplace` contract, of the `NFTCollection` contracts it deploys, and of the ERC-721
ledger these inherit, with proofs of what holds in every reachable state. Sellers put tokens into escrow and pay a
listing fee; buyers pay the asking price; sellers may start auctions; bidders lock ether that turns into a pending
return when they are outbid; buyers may lock ether in offers; collection owners mint.

## How it is modelled

The contracts change their storage step by step, so they are classes: `Collections.NFTCollection` and
`Marketplace.NFTMarketplace` hold the storage fields, and each method makes the source's checks and writes in the
source's order. Each method is proved against a function on values: the ledger functions of `ERC721` and the functions
from state to state of `Market` and `Runs`. Everything else is proved about those functions:

| modules | subject |
|---|---|
| `Basics`, `Sums`, `ERC721`, `Market`, `Runs` | words, sums over maps, the token ledger, the state and every call, transactions and steps |
| `Registry`, `Custody`, `Entries`, `Records`, `Bids`, `Money` | one inductive invariant each, kept by every step |
| `Reachability` | the invariants together hold in every reachable state |
| `TokenCalls`, `MarketCalls`, `RegisterCalls`, `SafeCalls`, `Reasons` | every call by itself: when it succeeds, everything it changes and leaves alone, and that the reason of a failure is true |
| `Escrow`, `Stranded`, `Settlement`, `Returns`, `LostBids`, `Minting`, `Purchases`, `Views` | what follows for users |
| `Resale` | three runs of whole transactions that refute what one might expect |
| `Text`, `ViewLoops` | the view functions as loops, proved equal to their simple definitions |
| `Collections`, `Marketplace`, `Deployment` | the two contracts as classes; a deployed marketplace is always in a reachable state |

A transaction is a tree: the receiver of a safely minted or safely transferred token is called back and may send any
further transactions, nested to any depth, before the outer one goes on. `Runs.ExecIsRun` flattens trees into steps. A
*reachable state* (`Reachability.Reachable`) is what steps in any order lead to; by `Reachability.WithinIsReachable`
these include whatever a receiver finds in a callback, at any depth. Reachable states are more than the ones that
occur, so they serve for what holds always; what can happen is shown for states between whole transactions
(`Reachability.AtRest`). Between steps, any user may approve, set operators, transfer tokens and send ether.

A history of events (`Market.History`) is kept beside the storage. No call reads it; properties are stated with it.

Assumptions about the environment:

- The sender of a transaction is neither the zero address nor the marketplace; such a call reverts (`IllegalSender`).
  Any other address may send any call at any time, collection addresses included, which only adds runs.
- `new NFTCollection` lands at an address with no contract; where it lands is a parameter of the call.
- Block time never decreases. It may advance within a transaction too, which only adds runs.
- A reverted call leaves the state as it was. In the classes this is `Restore`, called by the frame of the failed call.
- Ether reaches the marketplace only through its payable functions. Its address may have held ether before
  (`start[MARKET]`).
- Whether a seller accepts a payment and whether a receiver accepts a token are parameters of the call.

Three things that the code does and that one might not expect are kept and stated:

- The purchase view panics for a user who bought a token that was later sold to somebody else or is on sale again:
  `Purchases.PurchaseViewExact` says exactly when, `Resale.PurchaseViewCanFail` is such a run.
- An auction does not need the token to be in escrow: `Escrow.AuctionStartsExactly` says exactly when one can start,
  `Resale.AuctionNeedNotBeHeld` is a run to an auction of a token that its buyer has.
- A relisting can wipe a standing bid, whose ether stays in the marketplace with no record of its owner.
  `LostBids.StepLosesExactly` and `LostBids.ListingLosesExactly` say when: the token is listed over a record whose
  `highestBid` is positive, which is then a sold item under auction. `Resale.RelistingLosesBid` is such a run.

## Model

In the source column, line 20 of the JSON file is OpenZeppelin's `ERC721.sol` and line 23 its `ERC721URIStorage.sol`.

| member | source | states |
|---|---|---|
| ERC721.TransferFromExact | deployment/localhost/solcInputs/1803f0398c4d1ef4386af52706dbf31b.json:20 | `transferFrom` succeeds exactly when the token exists, `from` owns it, `to` is nonzero and the caller is authorized; it then moves that one token and one unit of balance, clears the approval and keeps balances equal to tokens owned |
| ERC721.BeginMintExact | contracts/NFTCollection.sol:32-35 | minting up to the callback fails only for a stranger, a zero receiver or an exhausted counter, and otherwise adds exactly the next id with a valid ledger; the existence check inside never fires |
| ERC721.UpdateMoves | deployment/localhost/solcInputs/1803f0398c4d1ef4386af52706dbf31b.json:20 | `_update` with its unchecked arithmetic moves exactly one token and one unit of balance, leaves every other balance and preserves the sum |
| ERC721.MoveDoesNotWrap | deployment/localhost/solcInputs/1803f0398c4d1ef4386af52706dbf31b.json:20 | the unchecked decrement and increment of balances never wrap |
| ERC721.MovedKeepsValid | deployment/localhost/solcInputs/1803f0398c4d1ef4386af52706dbf31b.json:20 | after a move every balance is still the number of tokens owned and balances still add up to the supply |
| ERC721.AddedKeepsValid | deployment/localhost/solcInputs/1803f0398c4d1ef4386af52706dbf31b.json:20 | the same after a mint, and the ids that exist are still exactly 1..`_tokenIds` |
| ERC721.ApproveKeepsValid | deployment/localhost/solcInputs/1803f0398c4d1ef4386af52706dbf31b.json:20 | `approve` keeps the ledger valid |
| ERC721.SetApprovalForAllKeepsValid | deployment/localhost/solcInputs/1803f0398c4d1ef4386af52706dbf31b.json:20 | `setApprovalForAll` keeps balances, owners and supply consistent (what it sets: `TokenCalls.SetApprovalForAllSucceedsExactly`) |
| Runs.ExecIsRun | contracts/NFTCollection.sol:32-40 | a completed transaction, however deeply its callbacks nest, equals a sequence of steps |
| Runs.ExecAllIsRun | contracts/NFTCollection.sol:32-40 | so does any sequence of transactions, the reverted ones contributing nothing |
| Registry.EnterKeepsInv | contracts/NFTMarketplace.sol:195-218 | registering a collection keeps the address list distinct and both derived indices equal to its in-order filters |
| Registry.SelectMembers | contracts/NFTMarketplace.sol:207-218 | the filter of the address list holds exactly the collections of a category or creator, each once |
| Registry.StepKeepsRegistry | contracts/NFTMarketplace.sol:119-124 | every step of the system keeps the register, its indices and the category list consistent, and the register naming exactly the deployed contracts |
| Custody.UserTransferKeeps | deployment/localhost/solcInputs/1803f0398c4d1ef4386af52706dbf31b.json:20 | no user's `transferFrom` moves or un-guards a token the marketplace holds |
| Custody.ApproveKeeps | deployment/localhost/solcInputs/1803f0398c4d1ef4386af52706dbf31b.json:20 | no user's `approve` gives anybody a token the marketplace holds |
| Custody.SetApprovalForAllKeeps | deployment/localhost/solcInputs/1803f0398c4d1ef4386af52706dbf31b.json:20 | no user can make an operator for the marketplace |
| Custody.EscrowIn | contracts/NFTMarketplace.sol:251 | a token taken in by a listing is held afterwards, was not held before, and all other held tokens stay held |
| Custody.EscrowOut | contracts/NFTMarketplace.sol:355 | the marketplace can always hand over a token it holds, and this releases no other token |
| Custody.StepKeepsCustody | contracts/NFTMarketplace.sol:235-251 | every step keeps every item on sale owned by the marketplace with no approval and no operator |
| Entries.ListingIsNew | contracts/NFTMarketplace.sol:235-251 | although the code does not check it, no item that is on sale can be listed: the token transfer would fail |
| Entries.StepMakesEntry | contracts/NFTMarketplace.sol:223-419 | every successful step changes the records by at most one listing, sale, auction, bid or offer, which has passed the checks for it |
| Records.WriteKeepsLifecycle | contracts/NFTMarketplace.sol:227-247 | every entry keeps the shape of all listed records |
| Records.WriteKeepsListings | contracts/NFTMarketplace.sol:249 | every entry keeps, for each token, listings equal to sales plus one if on sale |
| Records.WriteKeepsPurchases | contracts/NFTMarketplace.sol:357-358 | every entry keeps the purchase flags and counts equal to the history of sales |
| Records.WriteKeepsAsks | contracts/NFTMarketplace.sol:347-354 | every entry keeps recorded prices and sellers equal to the open asks of the history, and every sale at the ask |
| Records.WriteKeepsTotals | contracts/NFTMarketplace.sol:249-358 | every entry keeps total listings equal to total purchases plus open items |
| Bids.WriteKeepsBids | contracts/NFTMarketplace.sol:390-399 | every entry keeps the standing bid equal to the last bid since the last listing, bids rising, and pending returns equal to what was outbid |
| Bids.BidsSinceListingRise | contracts/NFTMarketplace.sol:392 | bids since the last listing strictly increase and the standing bid is the last and the highest |
| Bids.OutbidSinceListing | contracts/NFTMarketplace.sol:394-399 | since the last listing a bidder's returns grow by the sum of its bids less the one it has standing |
| Money.MoveEtherExact | contracts/NFTMarketplace.sol:354 | a payment moves the amount between two accounts, leaves all others and conserves the total, also when payer and payee are the same |
| Money.AccountedAfterWrite | contracts/NFTMarketplace.sol:223-419 | what the marketplace's ether is accounted for by grows, with every entry, by exactly what the entry brings in |
| Money.WriteKeepsSolvency | contracts/NFTMarketplace.sol:223-419 | every entry keeps net inflow equal to fees, live bids, pending returns, offers and abandoned bids |
| Money.StepMovesEther | contracts/NFTMarketplace.sol:341-419 | in every step each account's balance changes by exactly what the history says, and the sum of all balances not at all |
| Reachability.StepKeepsInv | contracts/NFTMarketplace.sol:110-419 | every step keeps all the invariants together |
| Reachability.ReachableInv | contracts/NFTMarketplace.sol:110-117 | all the invariants hold in every reachable state |
| Reachability.TransactionsReach | contracts/NFTCollection.sol:32-40 | whatever sequence of whole transactions, with nested callbacks, leads to a reachable state |
| Reachability.WithinIsReachable | contracts/NFTCollection.sol:35 | whatever a receiver finds in a callback, at any depth, is reachable, also if the transaction around it reverts later |
| Reachability.BetweenIsDuring | contracts/NFTCollection.sol:35 | the moments so covered include those before, between, within and after all the transactions a receiver sends |
| TokenCalls.TransferSucceedsExactly | deployment/localhost/solcInputs/1803f0398c4d1ef4386af52706dbf31b.json:20 | a user's `transferFrom` goes through exactly when the caller is the owner named, its operator or the approved address, and the receiver is nonzero; it moves that token of that collection and changes nothing else anywhere |
| TokenCalls.ApproveSucceedsExactly | deployment/localhost/solcInputs/1803f0398c4d1ef4386af52706dbf31b.json:20 | `approve` goes through exactly for the owner or its operator and sets that one approval |
| TokenCalls.SetApprovalForAllSucceedsExactly | deployment/localhost/solcInputs/1803f0398c4d1ef4386af52706dbf31b.json:20 | `setApprovalForAll` fails only for the zero operator; the pair of caller and operator is then set exactly if `approved`, and no other pair changes |
| RegisterCalls.CategorySucceedsExactly | contracts/NFTMarketplace.sol:119-124 | exactly the owner adds exactly a new category, at the end of the list |
| RegisterCalls.CreationSucceedsExactly | contracts/NFTMarketplace.sol:174-221 | exactly for an existing category and an unused address: an empty contract owned by the caller, its entry with all fields, one more place in the list and in the two indices it belongs to, all else unchanged |
| RegisterCalls.SupplySucceedsExactly | contracts/NFTMarketplace.sol:595-604 | exactly the collection itself updates its recorded supply, to its counter; no other field or collection changes |
| MarketCalls.ListingStoredExactly | contracts/NFTMarketplace.sol:223-260 | the whole effect of a listing: the record with the token's URI, the index, the token, the fee of 0.0005 ether |
| MarketCalls.SaleStoredExactly | contracts/NFTMarketplace.sol:341-367 | the whole effect of a sale: record, purchase flag and count, token to the buyer, price to the seller |
| MarketCalls.AuctionStoredExactly | contracts/NFTMarketplace.sol:369-382 | the whole effect of starting an auction: three fields of one record, no ether |
| MarketCalls.BidStoredExactly | contracts/NFTMarketplace.sol:384-400 | a bid's exact condition and whole effect: bidder and bid of one record, the beaten bid added to one pending return |
| MarketCalls.OfferSucceedsExactly | contracts/NFTMarketplace.sol:402-419 | an offer goes through exactly for a positive amount on an item on sale and not in auction, and is appended with buyer, amount and time to that token's offers only |
| Reasons.ReasonIsTrue | contracts/NFTMarketplace.sol:119-604 | the reason a call fails for is one of that call's and is true in the state it ran in |
| SafeCalls.OneMore | contracts/NFTCollection.sol:35 | each transaction of a callback takes effect on what the ones before it left, or leaves that alone if it reverts |
| SafeCalls.SafeTransferSucceedsExactly | deployment/localhost/solcInputs/1803f0398c4d1ef4386af52706dbf31b.json:20 | a safe transfer completes exactly when the transfer would and the receiver accepts; the token moves first, then all the receiver does has happened |
| SafeCalls.MintSucceedsExactly | contracts/NFTCollection.sol:32-40 | a mint completes exactly for the collection's owner, a counter not exhausted, and a nonzero receiver that accepts, never the marketplace or a collection; the id exists before the callback, all the receiver did has happened, URI and supply are stored on top of it |
| SafeCalls.MintsAddUp | contracts/NFTCollection.sol:32-40 | a mint around `n` completed nested mints raises the counter by `n + 1` |
| SafeCalls.MintTree | contracts/NFTCollection.sol:32-40 | a tree of `n` accepted mints by the owner, nested in any way, completes and mints `n` tokens |
| Escrow.OnSaleIsHeld | contracts/NFTMarketplace.sol:251 | an item on sale is owned by the marketplace, with no token approval and no operator |
| Escrow.OnlySaleReleases | contracts/NFTMarketplace.sol:351-355 | only its own completed sale takes an item off sale or lets its token leave |
| Escrow.ListingSucceedsExactly | contracts/NFTMarketplace.sol:223-260 | a listing goes through exactly when the caller pays the fee, asks a positive price, owns the token of a registered collection and has approved the marketplace; it was then not on sale, and is now in escrow, indexed once more and under a fresh record |
| Escrow.SaleSucceedsExactly | contracts/NFTMarketplace.sol:341-367 | a sale goes through exactly when an item on sale and not in auction is paid its price and the seller takes it: the token transfer and the ether payment inside never fail; the buyer gets the token |
| Escrow.AuctionStartsExactly | contracts/NFTMarketplace.sol:369-382 | exactly the seller of the last listing can start an auction, once a listing, also after the item was sold; it sets price and end time; the item is locked exactly when it was still on sale |
| Escrow.WriteKeepsLock | contracts/NFTMarketplace.sol:347-400 | no entry sells, relists, reprices or restarts an item that is on sale and in auction; after the end time none changes its bid |
| Escrow.AuctionIsFinal | contracts/NFTMarketplace.sol:375-400 | over every run, such an item stays in escrow under the same terms with a standing bid that never falls, and from the end time on its record never changes |
| Stranded.StepKeepsHeld | contracts/NFTMarketplace.sol:251-355 | no step but its sale takes from the marketplace a token it holds, on sale or not, and none lists it |
| Stranded.StrandedForever | contracts/NFTMarketplace.sol:251-355 | over every run, a token the marketplace owns without having it on sale never leaves it and is never listed |
| Settlement.Solvency | contracts/NFTMarketplace.sol:223-419 | in every reachable state the marketplace's ether is exactly what its address started with plus fees times listings, live bids, pending returns, offers and the bids wiped by relistings |
| Settlement.EtherIsConserved | contracts/NFTMarketplace.sol:341-367 | all accounts together hold what they started with |
| Settlement.EtherNeverLeaves | contracts/NFTMarketplace.sol:341-419 | over no run does the marketplace's ether fall: nothing that came in ever goes out |
| Settlement.NetOfUser | contracts/NFTMarketplace.sol:354 | in a history whose sales honour the asks, a user's net flow is its proceeds at those asks plus transfers in less what it spent |
| Settlement.AccountStatement | contracts/NFTMarketplace.sol:341-367 | each user's balance: from the marketplace it received exactly the asking prices in force when its items sold |
| Settlement.SalePaysSeller | contracts/NFTMarketplace.sol:347-354 | a sale moves the price from buyer to seller and leaves the marketplace's ether unchanged |
| Settlement.RefundIsCovered | contracts/NFTMarketplace.sol:394-396 | a pending return plus the bid to be added to it never exceeds the marketplace's ether |
| Settlement.BidSucceedsExactly | contracts/NFTMarketplace.sol:384-400 | while the marketplace's ether fits a word, a bid fails only for the bidder's own reasons: the checked refund does not overflow |
| Settlement.BidLedger | contracts/NFTMarketplace.sol:390-399 | in every reachable state bids since the last listing rise, the record holds the last of them, and pending returns are those outbid by the history |
| Returns.ReturnsGrow | contracts/NFTMarketplace.sol:390-399 | over any run in which the token is not listed again, a stored pending return grows by the bidder's bids in between, plus its stake before, less its stake after |
| Returns.ReturnsSinceListing | contracts/NFTMarketplace.sol:390-399 | from a listing on, the pending return stored at that time has grown by the sum of the bidder's bids since, less the one it has standing |
| LostBids.StepLosesExactly | contracts/NFTMarketplace.sol:235-247 | a step takes a bid off record exactly when it lists the token over a record in which that bid stands, and then the whole bid |
| LostBids.ListingLosesExactly | contracts/NFTMarketplace.sol:235-247 | a listing loses exactly the `highestBid` of the record it overwrites and adds nothing to the pending returns; a record with a bid is then of a sold item in auction |
| LostBids.AllOnRecord | contracts/NFTMarketplace.sol:235-399 | all bids of all bidders are on record as stake or pending return exactly when the marketplace holds no abandoned ether |
| Settlement.ListingLedger | contracts/NFTMarketplace.sol:249-358 | a token occurs in `collectionTokenIds` once for each sale and once more if it is on sale |
| Settlement.PurchasesAreClosedListings | contracts/NFTMarketplace.sol:249-358 | the sum of all purchase counts is all listings less the open ones |
| Settlement.RecordLifecycle | contracts/NFTMarketplace.sol:227-399 | key fields, a nonzero seller, on sale iff no owner, sold iff flagged to the owner, positive price before an auction, bid iff bidder and then in auction |
| Settlement.TokenLedgers | deployment/localhost/solcInputs/1803f0398c4d1ef4386af52706dbf31b.json:20 | in every collection the ids with owners are exactly 1..`_tokenIds`, balances count tokens owned and add up to `totalSupply` |
| Minting.ExecMints | contracts/NFTCollection.sol:32-40 | a completed transaction, with all that its callbacks did, returns each id of a gapless range exactly once and leaves the supply record settled |
| Minting.ExecAllMints | contracts/NFTCollection.sol:32-40 | so does any sequence of transactions |
| Minting.MintReturnsNextId | contracts/NFTCollection.sol:32-40 | a completed mint returns the next id whatever its callback minted, stores its URI, and leaves `collections[c].totalSupply` equal to the counter |
| Minting.MintingIsExact | contracts/NFTMarketplace.sol:595-604 | between transactions every id in 1..`_tokenIds` was returned exactly once and has an owner, no other id has, and the marketplace's supply record equals the counter |
| Text.ContainsIgnoreCase | contracts/NFTMarketplace.sol:558-593 | the loop is true exactly when some window of the base equals the search string byte by byte but for the case of ASCII letters |
| Text.ContainsBytewise | contracts/NFTMarketplace.sol:572-586 | the relation holds exactly when at some offset every byte equals its partner or is the other case, 0x20 apart, of the same ASCII letter |
| Text.ContainsItself | contracts/NFTMarketplace.sol:558-593 | the relation is reflexive |
| Text.ContainsIsTransitive | contracts/NFTMarketplace.sol:558-593 | the relation is transitive |
| Text.ContainsIgnoresCase | contracts/NFTMarketplace.sol:579-581 | lower-casing either side changes nothing |
| Text.ContainsMiddle | contracts/NFTMarketplace.sol:572-590 | a string is found in anything written around it, in any case |
| Views.LowestPriceIsMinimum | contracts/NFTMarketplace.sol:300-305 | over any list of ids, duplicates included, the result bounds every price on sale and is one of them |
| Views.DetailsExactly | contracts/NFTMarketplace.sol:262-282 | the details view fails exactly for an unknown address, and otherwise shows that collection's entry and floor price |
| Views.FloorPriceIsMinimum | contracts/NFTMarketplace.sol:296-308 | the floor price is the least price over all records on sale, indexed or not; 0 if there are none or that price is the largest word |
| Views.FetchingNeverFails | contracts/NFTMarketplace.sol:131-294 | `fetchCollections` and `fetchUserCreatedCollections` never fail their activity check and list, in order, all collections and those the user created |
| Views.IndicesAgree | contracts/NFTMarketplace.sol:207-218 | in every reachable state each derived index is the in-order filter of the address list, distinct and active, and the category list matches `categoryExists` |
| Views.CategoryIsExact | contracts/NFTMarketplace.sol:430-445 | the category view fails only for an unknown category and otherwise lists exactly its collections, once each, in order |
| Views.SearchAppend | contracts/NFTMarketplace.sol:505 | searching a concatenation is searching its parts, hence stopping early once all are found loses nothing |
| Views.SearchNarrows | contracts/NFTMarketplace.sol:477-555 | a narrower query yields an in-order subsequence of the results |
| Views.SearchFinds | contracts/NFTMarketplace.sol:505-523 | every result stems from a matching collection and every matching collection has its result |
| Views.EmptyQueryFindsAll | contracts/NFTMarketplace.sol:459 | the empty query lists every active collection in order |
| Views.SearchIsExact | contracts/NFTMarketplace.sol:477-526 | in a reachable state a search finds exactly the matching collections, once each, and the empty query all of them |
| Views.MatchesExactly | contracts/NFTMarketplace.sol:529-555 | the criteria come to: the term occurs in name or symbol, the category text in the category, byte by byte but for case, and the floor price is within bounds |
| Views.SearchShowsEntries | contracts/NFTMarketplace.sol:511-520 | a collection is shown exactly if it matches, with the name, symbol, category and supply of its entry and its floor price |
| Purchases.PurchaseViewExact | contracts/NFTMarketplace.sol:147-172 | distinct purchases are at most the purchase count, which is at most the slots written; the view works exactly when no token the user bought was sold to another or is on sale again, and then leaves no blank |
| Purchases.PurchaseViewShows | contracts/NFTMarketplace.sol:164-166 | a view that works shows only current records of tokens the user bought, each as often as the user bought it |
| Purchases.PurchaseCountIsSum | contracts/NFTMarketplace.sol:358 | the purchase count is the sum, over the flagged tokens, of how often the user bought each |
| Purchases.SlotsIsSum | contracts/NFTMarketplace.sol:157-169 | the view writes, for each flagged token, one slot a listing |
| Purchases.BoughtIsSold | contracts/NFTMarketplace.sol:357-358 | a token was sold at least as often as any one user bought it |
| Resale.PurchaseViewCanFail | contracts/NFTMarketplace.sol:165 | after a run of whole transactions the view writes past its array |
| Resale.AuctionNeedNotBeHeld | contracts/NFTMarketplace.sol:375-381 | after a run of whole transactions a record is in auction and the token belongs to its buyer |
| Resale.RelistingLosesBid | contracts/NFTMarketplace.sol:235-247 | after a run of whole transactions an accepted bid of 7 is neither standing nor a pending return |
| ViewLoops.GetFloorPrice | contracts/NFTMarketplace.sol:296-308 | the loop computes `FloorPrice` |
| ViewLoops.FetchCollectionDetails | contracts/NFTMarketplace.sol:262-282 | the details of an active collection, or the failure |
| ViewLoops.FetchAllDetails | contracts/NFTMarketplace.sol:284-294 | the loop of both fetch views fills its array with `AllDetails`, or fails with the first failing address |
| ViewLoops.FetchCollectionsByCategory | contracts/NFTMarketplace.sol:430-445 | the loop fills its array with `CategoryCollections`, or fails for an unknown category |
| ViewLoops.FetchUserPurchasedItems | contracts/NFTMarketplace.sol:147-172 | the two nested loops fill the array as `PurchasedItems` says, panicking exactly when there are more slots than places |
| ViewLoops.MatchesSearchCriteria | contracts/NFTMarketplace.sol:529-555 | the criteria hold exactly when `Matches` does |
| ViewLoops.SearchWithFilters | contracts/NFTMarketplace.sol:477-526 | the counting pass and the filling pass with its early exit yield filter-then-map, with no blank and no index out of range |
| Collections.NFTCollection.constructor | contracts/NFTCollection.sol:19-30 | a new collection is an empty ledger owned by its creator |
| Collections.NFTCollection.Update | deployment/localhost/solcInputs/1803f0398c4d1ef4386af52706dbf31b.json:20 | `_update` on the fields is `ERC721.Update` on the ledger, with its unchecked arithmetic |
| Collections.NFTCollection.TransferFrom | deployment/localhost/solcInputs/1803f0398c4d1ef4386af52706dbf31b.json:20 | `transferFrom` refines the function characterised by `TransferFromExact` |
| Collections.NFTCollection.Approve | deployment/localhost/solcInputs/1803f0398c4d1ef4386af52706dbf31b.json:20 | `approve` refines its function, error cases included |
| Collections.NFTCollection.SetApprovalForAll | deployment/localhost/solcInputs/1803f0398c4d1ef4386af52706dbf31b.json:20 | `setApprovalForAll` refines its function |
| Collections.NFTCollection.BeginMint | contracts/NFTCollection.sol:32-35 | `mint` up to the callback refines the function characterised by `BeginMintExact` |
| Collections.NFTCollection.SetTokenUri | deployment/localhost/solcInputs/1803f0398c4d1ef4386af52706dbf31b.json:23 | storing a URI changes nothing else |
| Marketplace.NFTMarketplace.constructor | contracts/NFTMarketplace.sol:110-117 | deployment yields the initial state, with the six categories added one by one |
| Marketplace.NFTMarketplace.AddCategory | contracts/NFTMarketplace.sol:119-124 | refines `Market.AddCategory`, error cases included |
| Marketplace.NFTMarketplace.CreateCollection | contracts/NFTMarketplace.sol:174-221 | deploys a fresh contract and updates the three indices as `Market.CreateCollection` says |
| Marketplace.NFTMarketplace.CreateMarketItem | contracts/NFTMarketplace.sol:223-260 | the statements in order, with the token transfer last, yield `Market.CreateMarketItem` |
| Marketplace.NFTMarketplace.CreateMarketSale | contracts/NFTMarketplace.sol:341-367 | the statements in order, with payment and token transfer inside, yield `Market.CreateMarketSale` |
| Marketplace.NFTMarketplace.CreateAuction | contracts/NFTMarketplace.sol:369-382 | refines `Market.CreateAuction`, including the overflow of the end time |
| Marketplace.NFTMarketplace.PlaceBid | contracts/NFTMarketplace.sol:384-400 | refines `Market.PlaceBid`, including the checked addition to the pending return |
| Marketplace.NFTMarketplace.MakeOffer | contracts/NFTMarketplace.sol:402-419 | refines `Market.MakeOffer` |
| Marketplace.NFTMarketplace.UpdateCollectionTotalSupply | contracts/NFTMarketplace.sol:595-604 | refines `Market.UpdateCollectionTotalSupply`, reading the counter of the calling contract |
| Marketplace.NFTMarketplace.TransferToken | contracts/NFTMarketplace.sol:251 | a call into a collection contract changes that contract's ledger and no other |
| Marketplace.NFTMarketplace.Deploy | contracts/NFTMarketplace.sol:184-193 | a new contract aliases none of the deployed ones |
| Marketplace.NFTMarketplace.StartMint | contracts/NFTCollection.sol:32-35 | the first half of `mint` in the whole system |
| Marketplace.NFTMarketplace.FinishMint | contracts/NFTCollection.sol:36-39 | the second half: URI, then the supply pushed to the marketplace |
| Marketplace.NFTMarketplace.Transact | contracts/NFTMarketplace.sol:223-419 | a transaction either yields the specified state or fails for the specified reason with everything undone |
| Marketplace.NFTMarketplace.Execute | contracts/NFTCollection.sol:32-40 | a transaction with nested callbacks does what `Runs.Exec` says, a failure undoing all that was nested in it |
| Marketplace.NFTMarketplace.ExecuteAll | contracts/NFTCollection.sol:32-40 | a sequence of transactions does what `Runs.ExecAll` says |
| Deployment.DeployAndExecute | contracts/NFTMarketplace.sol:110-419 | the value of a deployed marketplace object, after any transactions, is a reachable state and satisfies all the invariants |

## Left out

- The Node backend (`src/`, `utils/`, `scripts/`, `deploy/`) and the older contracts in its comments: plumbing around the contracts.
- `fetchCollectionItems`, `getCollectionDetails`, `getCategories` and the two public search wrappers: they copy storage or forward their arguments.
- `_getTotalVolume` and `_getUniqueOwnerCount`: placeholders that return 0; the details carry these zeros.
- Events as log entries, gas, ABI encoding and the 2300-gas stipend: a payment to a seller is accepted or it reverts the sale.
- `Pausable`: inherited, used by no function.
- `ReentrancyGuard`'s flag: no guarded function calls code that can call back (`transferFrom` calls no receiver, and the seller's stipend is too small to call back), and during the callback of `mint` the flag is not set.
- `transferOwnership` and `renounceOwnership`: the owners of the marketplace and of the collections are fixed.
- Ether forced into the marketplace by `selfdestruct` or block rewards: with it, `Solvency` would be a lower bound.
- `getApproved`, `isApprovedForAll`, `balanceOf`, `supportsInterface` and burning: reads, or not exposed by `NFTCollection`.
- The `name`, `symbol`, `baseURI` and `category` a collection contract stores for itself: no modelled function reads them.
- Collection-like contracts that were not deployed by the marketplace: it refuses to list their tokens, so no modelled call reaches them.
- `safeTransferFrom`'s data argument, and error data beyond one reason a failure: the reason tells which check failed, not with what values.
- Nested mappings are maps with tuple keys, and mappings to `bool` are sets; this drops only the difference between a stored default and an absent key.
- The view functions take the storage they read as values instead of being methods of the marketplace class; they change no storage.
- Marketplace.NFTMarketplace.CreateMarketItem: on failure promises only the reason, as do the other function bodies; what was half done is undone by the frame (`Transact`, `Execute`), whose contracts state the whole state.
