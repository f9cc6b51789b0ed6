/** The bid ledger: what the record and the pending returns say, against the history of accepted bids. */
module Bids {
  import opened Basics
  import opened Market
  import opened Entries
  import opened Records

  /** The bid that stands; `Stake(ZERO_ADDRESS, 0)` when there is none. */
  datatype Stake = Stake(bidder: Address, amount: nat)

  function StakeOf(s: Stake, a: Address): nat {
    if s.bidder == a then s.amount else 0
  }

  /** The last bid on the token since it was last listed. */
  function Standing(h: History, k: TokenKey): Stake {
    match h
    case Start => Stake(ZERO_ADDRESS, 0)
    case Then(past, Listed(j, _, _)) => if j == k then Stake(ZERO_ADDRESS, 0) else Standing(past, k)
    case Then(past, BidPlaced(j, bidder, amount)) => if j == k then Stake(bidder, amount) else Standing(past, k)
    case Then(past, _) => Standing(past, k)
  }

  /** All bids on the token since it was last listed, in order. */
  function BidsSinceListing(h: History, k: TokenKey): seq<Stake> {
    match h
    case Start => []
    case Then(past, Listed(j, _, _)) => if j == k then [] else BidsSinceListing(past, k)
    case Then(past, BidPlaced(j, bidder, amount)) =>
      if j == k then BidsSinceListing(past, k) + [Stake(bidder, amount)] else BidsSinceListing(past, k)
    case Then(past, _) => BidsSinceListing(past, k)
  }

  /** The history before the token's last listing. */
  function BeforeListing(h: History, k: TokenKey): History {
    match h
    case Start => Start
    case Then(past, Listed(j, _, _)) => if j == k then past else BeforeListing(past, k)
    case Then(past, _) => BeforeListing(past, k)
  }

  /** Everything `a` ever bid on the token. */
  function TotalBids(h: History, k: TokenKey, a: Address): nat {
    match h
    case Start => 0
    case Then(past, BidPlaced(j, bidder, amount)) => TotalBids(past, k, a) + if j == k then StakeOf(Stake(bidder, amount), a) else 0
    case Then(past, _) => TotalBids(past, k, a)
  }

  /** What `a` had standing on the token whenever a new listing wiped the record. */
  function AbandonedBids(h: History, k: TokenKey, a: Address): nat {
    match h
    case Start => 0
    case Then(past, Listed(j, _, _)) => AbandonedBids(past, k, a) + if j == k then StakeOf(Standing(past, k), a) else 0
    case Then(past, _) => AbandonedBids(past, k, a)
  }

  /** Bids of `a` that were outbid: all of them, less the one that stands and those lost to a relisting. */
  function Outbid(h: History, k: TokenKey, a: Address): int {
    TotalBids(h, k, a) - AbandonedBids(h, k, a) - StakeOf(Standing(h, k), a)
  }

  function SumBy(bids: seq<Stake>, a: Address): nat {
    if bids == [] then 0 else SumBy(bids[..|bids| - 1], a) + StakeOf(bids[|bids| - 1], a)
  }

  /** Every accepted bid was higher than the one standing before it. */
  predicate BidsRise(h: History) {
    match h
    case Start => true
    case Then(past, BidPlaced(k, bidder, amount)) => BidsRise(past) && LegalSender(bidder) && amount > Standing(past, k).amount
    case Then(past, _) => BidsRise(past)
  }

  ghost predicate BidInv(b: Book) {
    && BidsRise(b.history)
    && (forall k: TokenKey :: Standing(b.history, k) == Stake(b.Item(k).highestBidder, b.Item(k).highestBid))
    && (forall k: TokenKey, a: Address :: b.Pending(k, a) == Outbid(b.history, k, a))
  }

  lemma WriteKeepsStanding(b: Book, now: Uint256, e: Entry, k: TokenKey)
    requires Allowed(b, now, e) && Standing(b.history, k) == Stake(b.Item(k).highestBidder, b.Item(k).highestBid)
    ensures var b' := Write(b, now, e); Standing(b'.history, k) == Stake(b'.Item(k).highestBidder, b'.Item(k).highestBid)
  {
  }

  lemma WriteKeepsPending(b: Book, now: Uint256, e: Entry, k: TokenKey, a: Address)
    requires Allowed(b, now, e) && Standing(b.history, k) == Stake(b.Item(k).highestBidder, b.Item(k).highestBid)
    requires k in b.items ==> RecordOk(k, b.items[k], b.purchases)
    requires b.Pending(k, a) == Outbid(b.history, k, a)
    ensures var b' := Write(b, now, e); b'.Pending(k, a) == Outbid(b'.history, k, a)
  {
  }

  lemma WriteKeepsRise(b: Book, now: Uint256, e: Entry)
    requires BidInv(b) && Allowed(b, now, e)
    ensures BidsRise(Write(b, now, e).history)
  {
    if e.Bidding? {
      assert Standing(b.history, e.key) == Stake(b.Item(e.key).highestBidder, b.Item(e.key).highestBid);
    }
  }

  lemma WriteKeepsBids(b: Book, now: Uint256, e: Entry)
    requires BidInv(b) && LifecycleInv(b) && Allowed(b, now, e)
    ensures BidInv(Write(b, now, e))
  {
    hide Write, Allowed, RecordOk, Standing, Outbid, BidsRise;
    WriteKeepsRise(b, now, e);
    forall k: TokenKey, a: Address
      ensures var b' := Write(b, now, e); b'.Pending(k, a) == Outbid(b'.history, k, a)
    {
      WriteKeepsPending(b, now, e, k, a);
    }
    forall k: TokenKey
      ensures var b' := Write(b, now, e); Standing(b'.history, k) == Stake(b'.Item(k).highestBidder, b'.Item(k).highestBid)
    {
      WriteKeepsStanding(b, now, e, k);
    }
  }

  /** Since the last listing bids strictly increase, and the standing bid is the last of them. */
  lemma {:induction false} BidsSinceListingRise(h: History, k: TokenKey)
    requires BidsRise(h)
    ensures var bids := BidsSinceListing(h, k);
      && (forall i, j | 0 <= i < j < |bids| :: bids[i].amount < bids[j].amount)
      && (forall i | 0 <= i < |bids| :: 0 < bids[i].amount <= Standing(h, k).amount && LegalSender(bids[i].bidder))
      && Standing(h, k) == if bids == [] then Stake(ZERO_ADDRESS, 0) else bids[|bids| - 1]
  {
    if h.Then? {
      BidsSinceListingRise(h.past, k);
    }
  }

  /** What `a` is owed grew, since the last listing, by the bids made since less the one still standing. */
  lemma {:induction false} OutbidSinceListing(h: History, k: TokenKey, a: Address)
    ensures Outbid(h, k, a) == Outbid(BeforeListing(h, k), k, a) + SumBy(BidsSinceListing(h, k), a) - StakeOf(Standing(h, k), a)
  {
    if h.Then? {
      OutbidSinceListing(h.past, k, a);
      if h.event.BidPlaced? && h.event.key == k {
        var bids := BidsSinceListing(h.past, k);
        assert (bids + [Stake(h.event.bidder, h.event.amount)])[..|bids|] == bids;
      }
    }
  }
}
