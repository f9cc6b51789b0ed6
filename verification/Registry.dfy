/** The register of collections: its address list, its two derived indices, and the category list. */
module Registry {
  import opened Basics
  import opened Market
  import opened Runs

  /** What an index selects collections by. */
  datatype Facet = ByCategory(category: Bytes) | ByCreator(creator: Address)

  predicate Has(col: Collection, f: Facet) {
    match f
    case ByCategory(category) => col.category == category
    case ByCreator(creator) => col.owner == creator
  }

  /** The addresses in `q`, in order, whose collection has facet `f`. */
  function Select(q: seq<Address>, collections: map<Address, Collection>, f: Facet): seq<Address> {
    if q == [] then [] else
    var init, a := Select(q[..|q| - 1], collections, f), q[|q| - 1];
    if a in collections && Has(collections[a], f) then init + [a] else init
  }

  /** The index kept for a facet. */
  function Index(r: Register, f: Facet): seq<Address> {
    match f
    case ByCategory(category) => Lookup(r.categoryToCollections, category, [])
    case ByCreator(creator) => Lookup(r.userCreatedCollections, creator, [])
  }

  ghost predicate Distinct<T(!new)>(q: seq<T>) {
    forall i, j | 0 <= i < j < |q| :: q[i] != q[j]
  }

  /** The address list names each collection once, and every collection is in order. */
  ghost predicate Registered(r: Register) {
    && Distinct(r.collectionAddresses)
    && (forall a :: a in r.collections <==> a in r.collectionAddresses)
    && ZERO_ADDRESS !in r.collections && MARKET !in r.collections
    && (forall a | a in r.collections :: r.collections[a].collectionAddress == a && r.collections[a].isActive && r.collections[a].category in r.categoryExists)
  }

  ghost predicate Indexed(r: Register) {
    forall f: Facet :: Index(r, f) == Select(r.collectionAddresses, r.collections, f)
  }

  ghost predicate Categorised(r: Register) {
    && Distinct(r.categories)
    && (forall c :: c in r.categories <==> c in r.categoryExists)
  }

  ghost predicate RegisterInv(r: Register) {
    Registered(r) && Indexed(r) && Categorised(r)
  }

  /** The register lists exactly the deployed contracts. */
  ghost predicate RegistryInv(s: State) {
    RegisterInv(s.register) && s.ledgers.Keys == s.register.collections.Keys
  }

  lemma {:induction false} SelectAgrees(q: seq<Address>, a: map<Address, Collection>, b: map<Address, Collection>, f: Facet)
    requires forall x | x in q :: x in a && x in b && (Has(a[x], f) <==> Has(b[x], f))
    ensures Select(q, a, f) == Select(q, b, f)
  {
    if q != [] {
      SelectAgrees(q[..|q| - 1], a, b, f);
    }
  }

  /** An index holds exactly the addresses it should, each once. */
  lemma {:induction false} SelectMembers(q: seq<Address>, collections: map<Address, Collection>, f: Facet)
    ensures forall a :: a in Select(q, collections, f) <==> a in q && a in collections && Has(collections[a], f)
    ensures Distinct(q) ==> Distinct(Select(q, collections, f))
  {
    if q != [] {
      var init, a := q[..|q| - 1], q[|q| - 1];
      SelectMembers(init, collections, f);
      assert q == init + [a];
      if Distinct(q) {
        assert a !in init;
      }
    }
  }

  lemma GenesisRegistry(deployer: Address, now: Uint256, ether: map<Address, nat>)
    ensures RegistryInv(Genesis(deployer, now, ether))
  {
    var q := CATEGORIES;
    assert |q[0]| == 3 && |q[1]| == 6 && |q[2]| == 11 && |q[3]| == 5 && |q[4]| == 4 && |q[5]| == 11;
    assert q[2][0] != q[5][0];
  }

  lemma EnterKeepsIndex(r: Register, col: Collection, f: Facet)
    requires Registered(r) && Indexed(r) && col.collectionAddress !in r.collections
    ensures Index(r.Enter(col), f) == Select(r.Enter(col).collectionAddresses, r.Enter(col).collections, f)
  {
    var r' := r.Enter(col);
    SelectAgrees(r.collectionAddresses, r.collections, r'.collections, f);
    assert r'.collectionAddresses[..|r'.collectionAddresses| - 1] == r.collectionAddresses;
    assert Index(r, f) == Select(r.collectionAddresses, r.collections, f);
  }

  lemma EnterKeepsInv(r: Register, col: Collection)
    requires RegisterInv(r) && col.collectionAddress !in r.collections
    requires col.collectionAddress != ZERO_ADDRESS && col.collectionAddress != MARKET
    requires col.isActive && col.category in r.categoryExists
    ensures RegisterInv(r.Enter(col))
  {
    forall f: Facet
      ensures Index(r.Enter(col), f) == Select(r.Enter(col).collectionAddresses, r.Enter(col).collections, f)
    {
      EnterKeepsIndex(r, col, f);
    }
  }

  lemma SetSupplyKeepsInv(r: Register, c: Address, supply: Uint256)
    requires RegisterInv(r) && c in r.collections
    ensures RegisterInv(r.SetSupply(c, supply))
  {
    var r' := r.SetSupply(c, supply);
    forall f: Facet
      ensures Index(r', f) == Select(r'.collectionAddresses, r'.collections, f)
    {
      SelectAgrees(r.collectionAddresses, r.collections, r'.collections, f);
      assert Index(r, f) == Select(r.collectionAddresses, r.collections, f);
    }
  }

  lemma AddCategoryKeepsInv(r: Register, category: Bytes)
    requires RegisterInv(r) && category !in r.categoryExists
    ensures RegisterInv(r.(categories := r.categories + [category], categoryExists := r.categoryExists + {category}))
  {
    var r' := r.(categories := r.categories + [category], categoryExists := r.categoryExists + {category});
    assert forall f: Facet :: Index(r', f) == Index(r, f);
  }

  lemma CallKeepsRegistry(s: State, sender: Address, value: Uint256, call: Call)
    requires RegistryInv(s)
    ensures var r := Body(s, sender, value, call); r.Ok? ==> RegistryInv(r.value)
  {
    hide RegisterInv;
    if Body(s, sender, value, call).Ok? {
      match call
      case CallAddCategory(category) => AddCategoryKeepsInv(s.register, category);
      case CallCreateCollection(deployed, name, symbol, baseUri, category) =>
        EnterKeepsInv(s.register, Collection(deployed, name, symbol, category, sender, true, s.now, baseUri, 0));
      case CallUpdateSupply(c) => SetSupplyKeepsInv(s.register, c, s.LedgerOf(c).minted);
      case _ =>
    }
  }

  lemma FinishMintKeepsRegistry(s: State, c: Address, tokenId: Uint256, uri: Bytes)
    requires RegistryInv(s)
    ensures var r := FinishMint(s, c, tokenId, uri); r.Ok? ==> RegistryInv(r.value)
  {
    hide RegisterInv;
    if FinishMint(s, c, tokenId, uri).Ok? {
      SetSupplyKeepsInv(s.register, c, s.LedgerOf(c).minted);
    }
  }

  lemma StepKeepsRegistry(s: State, step: Step)
    requires RegistryInv(s)
    ensures RegistryInv(After(s, step))
  {
    hide RegisterInv, Body, FinishMint;
    match step
    case DoTransact(sender, value, call) =>
      if Apply(s, step).Ok? {
        CallKeepsRegistry(s.(ether := MoveEther(s.ether, sender, MARKET, value)), sender, value, call);
      }
    case DoFinishMint(c, tokenId, uri) => FinishMintKeepsRegistry(s, c, tokenId, uri);
    case _ =>
  }
}
