/** How pending returns grow over a run in which the token is not listed again. */
module Returns {
  import opened Basics
  import opened Market
  import opened Runs
  import opened Registry
  import opened Custody
  import opened Entries
  import opened Records
  import opened Bids
  import opened Money
  import opened Reachability
  import Settlement

  lemma EntryKeepsListing(b: Book, now: Uint256, e: Entry, k: TokenKey)
    requires Allowed(b, now, e)
    ensures Occurrences(Write(b, now, e), k) >= Occurrences(b, k)
    ensures Occurrences(Write(b, now, e), k) == Occurrences(b, k) ==>
      && BeforeListing(Write(b, now, e).history, k) == BeforeListing(b.history, k)
      && BidsSinceListing(b.history, k) <= BidsSinceListing(Write(b, now, e).history, k)
  {
    OccurrencesAfter(b, now, e, k);
    hide Occurrences;
  }

  /** While the token occurs no further time among the listings, its last listing stays the last, and bids are only added. */
  lemma {:induction false} SameListing(start: map<Address, nat>, s: State, steps: seq<Step>, k: TokenKey)
    requires Reachable(start, s)
    ensures var b, b' := s.book, Run(s, steps).book;
      && Occurrences(b', k) >= Occurrences(b, k)
      && (Occurrences(b', k) == Occurrences(b, k) ==>
        && BeforeListing(b'.history, k) == BeforeListing(b.history, k)
        && BidsSinceListing(b.history, k) <= BidsSinceListing(b'.history, k))
    decreases |steps|
  {
    if steps != [] {
      var init, step := steps[..|steps| - 1], steps[|steps| - 1];
      var before := Run(s, init);
      SameListing(start, s, init, k);
      RunStaysReachable(start, s, init);
      ReachableInv(start, before);
      hide EntryOf, Write, Allowed, RegistryInv, CustodyInv, KnownInv, BookInv, EtherInv, Apply, Reachable, Occurrences;
      if Apply(before, step).Ok? {
        StepMakesEntry(before, step);
        EntryKeepsListing(before.book, before.now, EntryOf(before, step), k);
      }
    }
  }

  /** What `a` has standing on the token. */
  function OwnStake(b: Book, k: TokenKey, a: Address): nat {
    if b.Item(k).highestBidder == a then b.Item(k).highestBid else 0
  }

  lemma ReturnsNow(start: map<Address, nat>, s: State, k: TokenKey, a: Address)
    requires Reachable(start, s)
    ensures var h := s.book.history;
      s.book.Pending(k, a) == Outbid(BeforeListing(h, k), k, a) + SumBy(BidsSinceListing(h, k), a) - OwnStake(s.book, k, a)
  {
    Settlement.BidLedger(start, s, k, a);
  }

  lemma {:induction false} SumByAppend(x: seq<Stake>, y: seq<Stake>, a: Address)
    ensures SumBy(x + y, a) == SumBy(x, a) + SumBy(y, a)
  {
    if y == [] {
      assert x + y == x;
    } else {
      SumByAppend(x, y[..|y| - 1], a);
      assert (x + y)[..|x + y| - 1] == x + y[..|y| - 1];
    }
  }

  /**
   * Between two states with no listing of the token in between, a bidder's pending return grows by the sum
   * of the bids it made in between, plus what it had standing before, less what it has standing now.
   */
  lemma ReturnsGrow(start: map<Address, nat>, s: State, steps: seq<Step>, k: TokenKey, a: Address)
    requires Reachable(start, s) && Occurrences(Run(s, steps).book, k) == Occurrences(s.book, k)
    ensures var b, b' := s.book, Run(s, steps).book;
      && BidsSinceListing(b.history, k) <= BidsSinceListing(b'.history, k)
      && b'.Pending(k, a) == b.Pending(k, a)
           + SumBy(BidsSinceListing(b'.history, k)[|BidsSinceListing(b.history, k)|..], a)
           + OwnStake(b, k, a) - OwnStake(b', k, a)
  {
    SameListing(start, s, steps, k);
    RunStaysReachable(start, s, steps);
    ReturnsNow(start, s, k, a);
    ReturnsNow(start, Run(s, steps), k, a);
    hide *;
    var bids, bids' := BidsSinceListing(s.book.history, k), BidsSinceListing(Run(s, steps).book.history, k);
    SumByAppend(bids, bids'[|bids|..], a);
    assert bids + bids'[|bids|..] == bids';
  }

  lemma ListingStartsAfresh(start: map<Address, nat>, s: State, seller: Address, value: Uint256, k: TokenKey, price: Uint256)
    requires Reachable(start, s) && Transact(s, seller, value, CallCreateMarketItem(k, price)).Ok?
    ensures var s1 := Transact(s, seller, value, CallCreateMarketItem(k, price)).value;
      && Reachable(start, s1) && s1.book.pendingReturns == s.book.pendingReturns
      && BidsSinceListing(s1.book.history, k) == [] && s1.book.Item(k).highestBid == 0
  {
    var step := DoTransact(seller, value, CallCreateMarketItem(k, price));
    StepStaysReachable(start, s, step);
    ReachableInv(start, s);
    hide RegistryInv, CustodyInv, KnownInv, BookInv, EtherInv, Transact, Reachable;
    StepMakesEntry(s, step);
  }

  /**
   * From a listing to any later state before the next listing of the token: the pending return stored when
   * the listing was made has grown by exactly the sum of the bidder's bids since, less the one it has standing.
   */
  lemma ReturnsSinceListing(start: map<Address, nat>, s: State, seller: Address, value: Uint256, k: TokenKey, price: Uint256, steps: seq<Step>, a: Address)
    requires Reachable(start, s) && Transact(s, seller, value, CallCreateMarketItem(k, price)).Ok?
    ensures var s1 := Transact(s, seller, value, CallCreateMarketItem(k, price)).value; var s2 := Run(s1, steps);
      Occurrences(s2.book, k) == Occurrences(s1.book, k) ==>
        s2.book.Pending(k, a) == s.book.Pending(k, a) + SumBy(BidsSinceListing(s2.book.history, k), a) - OwnStake(s2.book, k, a)
  {
    ListingStartsAfresh(start, s, seller, value, k, price);
    hide Transact, Reachable, Occurrences, Run;
    var s1 := Transact(s, seller, value, CallCreateMarketItem(k, price)).value;
    if Occurrences(Run(s1, steps).book, k) == Occurrences(s1.book, k) {
      ReturnsGrow(start, s1, steps, k, a);
      var bids := BidsSinceListing(Run(s1, steps).book.history, k);
      assert bids[0..] == bids;
    }
  }
}
