/** What the calls that write to the register of collections need, and everything they do. */
module RegisterCalls {
  import opened Basics
  import opened ERC721
  import opened Market
  import opened Registry
  import opened Reachability
  import opened Escrow
  import opened TokenCalls

  // ---- Categories ----

  /** The category was added at the end of the list, and nothing else differs. */
  ghost predicate CategoryStored(s: State, t: State, category: Bytes) {
    && t.admin == s.admin && t.now == s.now && t.ledgers == s.ledgers && t.book == s.book
    && t.register == s.register.(categories := s.register.categories + [category], categoryExists := t.register.categoryExists)
    && (forall c: Bytes :: c in t.register.categoryExists <==> c == category || c in s.register.categoryExists)
  }

  /** Only the marketplace's owner adds categories, and only new ones. */
  lemma CategorySucceedsExactly(start: map<Address, nat>, s: State, sender: Address, value: Uint256, category: Bytes)
    requires Reachable(start, s)
    ensures var r := Transact(s, sender, value, CallAddCategory(category));
      && (r.Ok? <==> LegalSender(sender) && value == 0 && sender == s.admin && category !in s.register.categories)
      && (r.Ok? ==> CategoryStored(s, r.value, category) && SameEther(s, r.value))
  {
    TransactIsBody(s, sender, value, CallAddCategory(category));
    KnownCategories(start, s);
    if value <= s.Ether(sender) {
      ArrivedPays(s, sender, value);
    }
    hide Reachable, Transact, MoveEther, SameEther;
  }

  lemma KnownCategories(start: map<Address, nat>, s: State)
    requires Reachable(start, s)
    ensures forall c: Bytes :: c in s.register.categoryExists <==> c in s.register.categories
  {
    ReachableInv(start, s);
  }

  // ---- Creating a collection ----

  /** The contract at `c` has no tokens, no approvals and no operators, and belongs to `owner`. */
  ghost predicate IsEmptyLedger(l: Ledger, owner: Address) {
    && l.owners == map[] && l.balances == map[] && l.approvals == map[] && l.operators == {} && l.uris == map[]
    && l.admin == owner && l.minted == 0
  }

  /** The collection's entry in the register. */
  ghost predicate IsFreshCollection(col: Collection, c: Address, owner: Address, name: Bytes, symbol: Bytes, baseUri: Bytes, category: Bytes, now: Uint256) {
    && col.collectionAddress == c && col.owner == owner && col.name == name && col.symbol == symbol
    && col.baseUri == baseUri && col.category == category && col.createdAt == now && col.isActive && col.totalSupply == 0
  }

  /** One contract and one entry are new, and the address is new in the list and in the two indices it belongs to. */
  ghost predicate CollectionStored(s: State, t: State, c: Address, owner: Address, category: Bytes) {
    && t.admin == s.admin && t.now == s.now && t.book == s.book
    && t.ledgers.Keys == s.ledgers.Keys + {c} && (forall d | d in s.ledgers && d != c :: t.ledgers[d] == s.ledgers[d])
    && IsEmptyLedger(t.ledgers[c], owner)
    && t.register.categories == s.register.categories && t.register.categoryExists == s.register.categoryExists
    && t.register.collections.Keys == s.register.collections.Keys + {c}
    && (forall d | d in s.register.collections && d != c :: t.register.collections[d] == s.register.collections[d])
    && t.register.collectionAddresses == s.register.collectionAddresses + [c]
    && (forall g: Bytes :: Index(t.register, ByCategory(g)) == Index(s.register, ByCategory(g)) + if g == category then [c] else [])
    && (forall u: Address :: Index(t.register, ByCreator(u)) == Index(s.register, ByCreator(u)) + if u == owner then [c] else [])
  }

  lemma CreationBody(s: State, sender: Address, c: Address, name: Bytes, symbol: Bytes, baseUri: Bytes, category: Bytes)
    ensures var r := CreateCollection(s, sender, c, name, symbol, baseUri, category);
      && (r.Ok? <==> category in s.register.categoryExists && c != ZERO_ADDRESS && c != MARKET && c !in s.ledgers)
      && (r.Ok? ==>
        && CollectionStored(s, r.value, c, sender, category) && r.value.ether == s.ether
        && IsFreshCollection(r.value.register.collections[c], c, sender, name, symbol, baseUri, category, s.now))
  {
  }

  /** Anybody can create a collection in an existing category, at an unused address; it belongs to its creator. */
  lemma CreationSucceedsExactly(start: map<Address, nat>, s: State, sender: Address, value: Uint256, c: Address, name: Bytes, symbol: Bytes, baseUri: Bytes, category: Bytes)
    requires Reachable(start, s)
    ensures var r := Transact(s, sender, value, CallCreateCollection(c, name, symbol, baseUri, category));
      && (r.Ok? <==>
        && LegalSender(sender) && value == 0 && category in s.register.categories
        && c != ZERO_ADDRESS && c != MARKET && c !in s.ledgers)
      && (r.Ok? ==>
        && CollectionStored(s, r.value, c, sender, category) && SameEther(s, r.value)
        && IsFreshCollection(r.value.register.collections[c], c, sender, name, symbol, baseUri, category, s.now))
  {
    TransactIsBody(s, sender, value, CallCreateCollection(c, name, symbol, baseUri, category));
    KnownCategories(start, s);
    if value <= s.Ether(sender) {
      ArrivedPays(s, sender, value);
      CreationBody(Arrived(s, sender, value), sender, c, name, symbol, baseUri, category);
    }
    hide Reachable, Transact, CreateCollection, MoveEther, IsFreshCollection, SameEther;
  }

  // ---- Updating a supply ----

  /** Only the recorded supply of `c` differs. */
  ghost predicate SupplyStored(r: Register, r': Register, c: Address, supply: Uint256) {
    && r' == r.(collections := r'.collections)
    && r'.collections.Keys == r.collections.Keys && c in r.collections
    && (forall d | d in r.collections ::
         r'.collections[d] == if d == c then r.collections[c].(totalSupply := supply) else r.collections[d])
  }

  /** Only a collection contract updates its supply, to the number of tokens it has minted. */
  lemma SupplySucceedsExactly(start: map<Address, nat>, s: State, sender: Address, value: Uint256, c: Address)
    requires Reachable(start, s)
    ensures var r := Transact(s, sender, value, CallUpdateSupply(c));
      && (r.Ok? <==> LegalSender(sender) && value == 0 && sender == c && c in s.ledgers)
      && (r.Ok? ==>
        && r.value.admin == s.admin && r.value.now == s.now && r.value.ledgers == s.ledgers && r.value.book == s.book
        && SameEther(s, r.value) && SupplyStored(s.register, r.value.register, c, s.ledgers[c].minted))
  {
    TransactIsBody(s, sender, value, CallUpdateSupply(c));
    CollectionLedger(start, s, c);
    if value <= s.Ether(sender) {
      ArrivedPays(s, sender, value);
    }
    hide Reachable, Transact, MoveEther, SameEther;
  }
}
