/** The purchase view, and exactly when it works. */
module Purchases {
  import opened Basics
  import opened Sums
  import opened Market
  import opened Registry
  import opened Records
  import opened Reachability

  function Keys(c: Address, ids: seq<Uint256>): seq<TokenKey> {
    if ids == [] then [] else Keys(c, ids[..|ids| - 1]) + [TokenKey(c, ids[|ids| - 1])]
  }

  /** Every listing ever made in the collections `addresses`, in the order the view visits them. */
  function AllListings(b: Book, addresses: seq<Address>): seq<TokenKey> {
    if addresses == [] then [] else
    var init, c := addresses[..|addresses| - 1], addresses[|addresses| - 1];
    AllListings(b, init) + Keys(c, b.TokenIds(c))
  }

  /** The records of those tokens in `keys` that `user` is flagged to have bought. */
  function Taken(b: Book, user: Address, keys: seq<TokenKey>): seq<MarketItem> {
    if keys == [] then [] else
    var init, k := Taken(b, user, keys[..|keys| - 1]), keys[|keys| - 1];
    if (user, k) in b.purchases then init + [b.Item(k)] else init
  }

  /** What the view writes for `user`, one slot a flagged listing. */
  function Slots(r: Register, b: Book, user: Address): seq<MarketItem> {
    Taken(b, user, AllListings(b, r.collectionAddresses))
  }

  function Blanks(n: nat): seq<MarketItem> {
    seq(n, i requires 0 <= i < n => EMPTY_ITEM)
  }

  /** `fetchUserPurchasedItems`: the result array has `userPurchaseCount` places; writing past them panics. */
  function PurchasedItems(r: Register, b: Book, user: Address): Result<seq<MarketItem>> {
    var slots := Slots(r, b, user);
    if |slots| > b.PurchaseCount(user) then Reverted(IndexOutOfBounds)
    else Ok(slots + Blanks(b.PurchaseCount(user) - |slots|))
  }

  /** The tokens `user` is flagged to have bought. */
  function Flagged(b: Book, user: Address): set<TokenKey> {
    set p | p in b.purchases && p.0 == user :: p.1
  }

  lemma {:induction false} TakenCounts(b: Book, user: Address, keys: seq<TokenKey>)
    ensures |Taken(b, user, keys)| == CountIn(keys, Flagged(b, user))
  {
    if keys != [] {
      TakenCounts(b, user, keys[..|keys| - 1]);
      var k := keys[|keys| - 1];
      assert (user, k) in b.purchases <==> k in Flagged(b, user) by {
        if (user, k) in b.purchases {
          assert (user, k).1 in Flagged(b, user);
        }
      }
    }
  }

  lemma {:induction false} TakenAppend(b: Book, user: Address, x: seq<TokenKey>, y: seq<TokenKey>)
    ensures Taken(b, user, x + y) == Taken(b, user, x) + Taken(b, user, y)
  {
    if y == [] {
      assert x + y == x;
    } else {
      TakenAppend(b, user, x, y[..|y| - 1]);
      assert (x + y)[..|x + y| - 1] == x + y[..|y| - 1];
    }
  }

  lemma {:induction false} KeysCount(c: Address, ids: seq<Uint256>, k: TokenKey)
    ensures multiset(Keys(c, ids))[k] == if k.collection == c then multiset(ids)[k.tokenId] else 0
  {
    if ids != [] {
      var init, t := ids[..|ids| - 1], ids[|ids| - 1];
      KeysCount(c, init, k);
      OccurrencesPush(init, t, k.tokenId);
      OccurrencesPush(Keys(c, init), TokenKey(c, t), k);
      assert ids == init + [t];
      assert k.collection == c ==> (k == TokenKey(c, t) <==> k.tokenId == t);
    }
  }

  lemma {:induction false} AllListingsCount(b: Book, addresses: seq<Address>, k: TokenKey)
    requires Distinct(addresses)
    ensures multiset(AllListings(b, addresses))[k] == if k.collection in addresses then Occurrences(b, k) else 0
  {
    if addresses != [] {
      var init, c := addresses[..|addresses| - 1], addresses[|addresses| - 1];
      AllListingsCount(b, init, k);
      KeysCount(c, b.TokenIds(c), k);
      assert addresses == init + [c] && c !in init;
    }
  }

  /** A token was sold at least as often as any one user bought it. */
  lemma {:induction false} BoughtIsSold(h: History, user: Address, k: TokenKey)
    ensures multiset(Bought(h, user))[k] <= SoldTimes(h, k)
  {
    if h.Then? {
      BoughtIsSold(h.past, user, k);
      if h.event.Sold? {
        OccurrencesPush(Bought(h.past, user), h.event.key, k);
      }
    }
  }

  /** For each flagged token, how often `user` bought it, and how often it was listed. */
  ghost function TimesBought(b: Book, user: Address): map<TokenKey, int> {
    map k | k in Flagged(b, user) :: multiset(Bought(b.history, user))[k]
  }

  ghost function TimesListed(b: Book, user: Address): map<TokenKey, int> {
    map k | k in Flagged(b, user) :: Occurrences(b, k)
  }

  /** What the counts need from a reachable state. */
  ghost predicate Consistent(r: Register, b: Book) {
    && Distinct(r.collectionAddresses)
    && (forall c :: c in b.tokenIds ==> c in r.collectionAddresses)
    && ListingInv(b) && PurchaseInv(b)
  }

  lemma ReachableIsConsistent(start: map<Address, nat>, s: State)
    requires Reachable(start, s)
    ensures Consistent(s.register, s.book)
  {
    ReachableInv(start, s);
  }

  lemma DistinctAddresses(r: Register, b: Book)
    requires Consistent(r, b)
    ensures Distinct(r.collectionAddresses)
  {
  }

  lemma FlaggedToken(r: Register, b: Book, user: Address, k: TokenKey)
    requires Consistent(r, b) && k in Flagged(b, user)
    ensures k.collection in r.collectionAddresses
    ensures 1 <= multiset(Bought(b.history, user))[k] <= SoldTimes(b.history, k) <= Occurrences(b, k)
  {
    assert (user, k) in b.purchases;
    assert k in Bought(b.history, user);
    BoughtIsSold(b.history, user, k);
    assert Occurrences(b, k) == SoldTimes(b.history, k) + if b.Item(k).isOnSale then 1 else 0;
  }

  lemma {:induction false} CountInAll<K>(q: seq<K>, p: set<K>)
    requires forall x | x in q :: x in p
    ensures CountIn(q, p) == |q|
  {
    if q != [] {
      CountInAll(q[..|q| - 1], p);
    }
  }

  lemma PurchaseCountIsSum(r: Register, b: Book, user: Address)
    requires Consistent(r, b)
    ensures b.PurchaseCount(user) == Sum(TimesBought(b, user))
  {
    var bought := Bought(b.history, user);
    forall k | k in bought
      ensures k in Flagged(b, user)
    {
      assert (user, k) in b.purchases;
      assert (user, k).1 in Flagged(b, user);
    }
    CountInAll(bought, Flagged(b, user));
    CountInIsSum(bought, Flagged(b, user));
  }

  lemma SlotsIsSum(r: Register, b: Book, user: Address)
    requires Consistent(r, b)
    ensures |Slots(r, b, user)| == Sum(TimesListed(b, user))
  {
    var listings := AllListings(b, r.collectionAddresses);
    TakenCounts(b, user, listings);
    CountInIsSum(listings, Flagged(b, user));
    hide Consistent, AllListings, Taken, Occurrences, Flagged;
    forall k | k in Flagged(b, user)
      ensures multiset(listings)[k] == Occurrences(b, k)
    {
      FlaggedToken(r, b, user, k);
      DistinctAddresses(r, b);
      AllListingsCount(b, r.collectionAddresses, k);
    }
    assert TimesListed(b, user) == map k | k in Flagged(b, user) :: multiset(listings)[k];
  }

  /** Every token `user` ever bought was listed only as often as `user` bought it: nobody else bought it and it is not on sale. */
  ghost predicate NoResale(b: Book, user: Address) {
    forall k | k in Flagged(b, user) :: SoldTimes(b.history, k) == multiset(Bought(b.history, user))[k] && !b.Item(k).isOnSale
  }

  lemma ListedAsBought(r: Register, b: Book, user: Address, k: TokenKey)
    requires Consistent(r, b) && k in Flagged(b, user)
    ensures Occurrences(b, k) == multiset(Bought(b.history, user))[k] <==>
      SoldTimes(b.history, k) == multiset(Bought(b.history, user))[k] && !b.Item(k).isOnSale
  {
    FlaggedToken(r, b, user, k);
    assert Occurrences(b, k) == SoldTimes(b.history, k) + if b.Item(k).isOnSale then 1 else 0;
  }

  lemma NoResaleIsEqualCounts(r: Register, b: Book, user: Address)
    requires Consistent(r, b)
    ensures NoResale(b, user) <==> TimesBought(b, user) == TimesListed(b, user)
  {
    hide Consistent, Occurrences, Flagged, SoldTimes, Bought;
    var x, y := TimesBought(b, user), TimesListed(b, user);
    forall k | k in Flagged(b, user)
      ensures x[k] == y[k] <==> SoldTimes(b.history, k) == multiset(Bought(b.history, user))[k] && !b.Item(k).isOnSale
    {
      ListedAsBought(r, b, user, k);
    }
    if x == y {
      assert forall k | k in Flagged(b, user) :: k in x && x[k] == y[k];
    }
  }

  lemma CountsCompare(r: Register, b: Book, user: Address)
    requires Consistent(r, b)
    ensures |Flagged(b, user)| <= Sum(TimesBought(b, user)) <= Sum(TimesListed(b, user))
    ensures Sum(TimesBought(b, user)) == Sum(TimesListed(b, user)) <==> TimesBought(b, user) == TimesListed(b, user)
  {
    hide Consistent, Occurrences, Bought, SoldTimes, Flagged;
    var ones := map k | k in Flagged(b, user) :: 1;
    forall k | k in Flagged(b, user)
      ensures 1 <= TimesBought(b, user)[k] <= TimesListed(b, user)[k]
    {
      FlaggedToken(r, b, user, k);
    }
    assert ones.Keys == Flagged(b, user);
    SumOfOnes(ones);
    SumCompare(ones, TimesBought(b, user));
    SumCompare(TimesBought(b, user), TimesListed(b, user));
  }

  /**
   * A user's distinct purchases are at most the purchase count, which is at most the number of slots the
   * view writes. The view works exactly when no token the user bought was ever sold to somebody else or is
   * on sale again; it then leaves no slot blank.
   */
  lemma PurchaseViewExact(start: map<Address, nat>, s: State, user: Address)
    requires Reachable(start, s)
    ensures |Flagged(s.book, user)| <= s.book.PurchaseCount(user) <= |Slots(s.register, s.book, user)|
    ensures PurchasedItems(s.register, s.book, user).Ok? <==> NoResale(s.book, user)
    ensures NoResale(s.book, user) ==> PurchasedItems(s.register, s.book, user) == Ok(Slots(s.register, s.book, user))
  {
    var r, b := s.register, s.book;
    ReachableIsConsistent(start, s);
    hide Reachable, Consistent, Slots, NoResale, Flagged, TimesBought, TimesListed;
    PurchaseCountIsSum(r, b, user);
    SlotsIsSum(r, b, user);
    NoResaleIsEqualCounts(r, b, user);
    CountsCompare(r, b, user);
    assert Slots(r, b, user) + Blanks(0) == Slots(r, b, user);
  }

  // ---- What the view shows ----

  /** The token a record is about. */
  function KeyOf(item: MarketItem): TokenKey {
    TokenKey(item.nftContract, item.tokenId)
  }

  /** `items` holds the current records of tokens in `keys` that `user` is flagged for, each as often as it occurs there. */
  ghost predicate ShowsFlagged(b: Book, user: Address, keys: seq<TokenKey>, items: seq<MarketItem>) {
    && (forall i | 0 <= i < |items| :: (user, KeyOf(items[i])) in b.purchases && items[i] == b.Item(KeyOf(items[i])))
    && (forall k | (user, k) in b.purchases :: multiset(items)[b.Item(k)] == multiset(keys)[k])
  }

  /** One more listing adds its record, if flagged, and changes no other count. */
  lemma TakenOneMore(b: Book, user: Address, init: seq<TokenKey>, k: TokenKey, j: TokenKey)
    requires (user, j) in b.purchases && KeyOf(b.Item(j)) == j && ((user, k) in b.purchases ==> KeyOf(b.Item(k)) == k)
    requires multiset(Taken(b, user, init))[b.Item(j)] == multiset(init)[j]
    ensures multiset(Taken(b, user, init + [k]))[b.Item(j)] == multiset(init + [k])[j]
  {
    assert (init + [k])[..|init|] == init;
    OccurrencesPush(init, k, j);
    if (user, k) in b.purchases {
      OccurrencesPush(Taken(b, user, init), b.Item(k), b.Item(j));
    }
    hide Book.Item, KeyOf;
  }

  lemma {:induction false} TakenShows(b: Book, user: Address, keys: seq<TokenKey>)
    requires forall k | (user, k) in b.purchases :: KeyOf(b.Item(k)) == k
    ensures ShowsFlagged(b, user, keys, Taken(b, user, keys))
  {
    if keys != [] {
      var init, k := keys[..|keys| - 1], keys[|keys| - 1];
      TakenShows(b, user, init);
      assert keys == init + [k];
      forall j | (user, j) in b.purchases
        ensures multiset(Taken(b, user, keys))[b.Item(j)] == multiset(keys)[j]
      {
        TakenOneMore(b, user, init, k, j);
      }
      hide Book.Item, KeyOf;
    }
  }

  lemma BoughtIsListed(b: Book, user: Address, k: TokenKey)
    requires LifecycleInv(b) && PurchaseInv(b) && (user, k) in b.purchases
    ensures KeyOf(b.Item(k)) == k
  {
    assert RecordOk(k, b.items[k], b.purchases);
  }

  lemma FlaggedRecords(start: map<Address, nat>, s: State, user: Address)
    requires Reachable(start, s)
    ensures forall k | (user, k) in s.book.purchases :: KeyOf(s.book.Item(k)) == k
  {
    ReachableInv(start, s);
    hide LifecycleInv, PurchaseInv, ListingInv, AskInv, TotalsInv, Reachable;
    forall k | (user, k) in s.book.purchases
      ensures KeyOf(s.book.Item(k)) == k
    {
      BoughtIsListed(s.book, user, k);
    }
  }

  lemma SlotsShow(r: Register, b: Book, user: Address)
    requires Consistent(r, b) && forall k | (user, k) in b.purchases :: KeyOf(b.Item(k)) == k
    ensures ShowsFlagged(b, user, AllListings(b, r.collectionAddresses), Slots(r, b, user))
    ensures forall k | (user, k) in b.purchases :: multiset(AllListings(b, r.collectionAddresses))[k] == Occurrences(b, k)
  {
    TakenShows(b, user, AllListings(b, r.collectionAddresses));
    DistinctAddresses(r, b);
    hide AllListings, Occurrences, Consistent;
    forall k | (user, k) in b.purchases
      ensures multiset(AllListings(b, r.collectionAddresses))[k] == Occurrences(b, k)
    {
      IsFlagged(b, user, k);
      FlaggedToken(r, b, user, k);
      AllListingsCount(b, r.collectionAddresses, k);
    }
  }

  /**
   * When the view works, it shows current records of tokens the user bought and no others: the record of each
   * such token as often as the user bought it.
   */
  lemma PurchaseViewShows(start: map<Address, nat>, s: State, user: Address)
    requires Reachable(start, s) && PurchasedItems(s.register, s.book, user).Ok?
    ensures var items := PurchasedItems(s.register, s.book, user).value; var b := s.book;
      && |items| == b.PurchaseCount(user)
      && (forall i | 0 <= i < |items| :: (user, KeyOf(items[i])) in b.purchases && items[i] == b.Item(KeyOf(items[i])))
      && (forall k | (user, k) in b.purchases :: multiset(items)[b.Item(k)] == multiset(Bought(b.history, user))[k] >= 1)
  {
    var r, b := s.register, s.book;
    ReachableIsConsistent(start, s);
    FlaggedRecords(start, s, user);
    PurchaseViewExact(start, s, user);
    SlotsShow(r, b, user);
    hide Reachable, Consistent, Occurrences, Flagged, AllListings, Slots;
    forall k | (user, k) in b.purchases
      ensures multiset(Slots(r, b, user))[b.Item(k)] == multiset(Bought(b.history, user))[k] >= 1
    {
      IsFlagged(b, user, k);
      FlaggedToken(r, b, user, k);
      ListedAsBought(r, b, user, k);
    }
  }

  lemma IsFlagged(b: Book, user: Address, k: TokenKey)
    requires (user, k) in b.purchases
    ensures k in Flagged(b, user)
  {
    assert (user, k).1 in Flagged(b, user);
  }
}
