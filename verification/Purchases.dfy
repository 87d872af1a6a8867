/** `GetUserPurchases`: one pass over the purchases, one over the distinct product ids, in map order. */
module Purchases {
  import opened Collections
  import Gateway

  datatype Purchase = Purchase(id: nat, userId: string, productId: string, amount: real)
  datatype PbPurchase = PbPurchase(id: string, userId: string, productId: string, amount: real, status: string)
  datatype UserData = UserData(id: string, name: string, email: string)
  datatype ProductData = ProductData(id: string, name: string, price: real)

  datatype Response = Response(purchases: seq<PbPurchase>, user: UserData, products: seq<ProductData>)

  datatype Error = DbError(cause: string) | NoUsersClient(cause: string) | NoUser(cause: string) | NoProductsClient(cause: string)
  datatype Result = Ok(response: Response) | Err(error: Error)

  /** A listed purchase carries its row's fields, and its id in decimal. */
  predicate Shows(pb: PbPurchase, p: Purchase) {
    && pb.userId == p.userId && pb.productId == p.productId && pb.amount == p.amount
    && pb.id == Gateway.Decimal(p.id) && pb.status == "PURCHASE_STATUS_COMPLETED"
  }

  function ProductIds(purchases: seq<Purchase>): set<string> {
    set i | 0 <= i < |purchases| :: purchases[i].productId
  }

  /** The distinct ids among `ids` whose lookup gives exactly `p`. */
  function Giving(lookup: string -> Lookup<ProductData>, ids: set<string>, p: ProductData): set<string> {
    set id | id in ids && lookup(id) == Found(p)
  }

  /** The distinct product ids of the purchases whose lookup gives exactly `p`. */
  function IdsGiving(lookup: string -> Lookup<ProductData>, purchases: seq<Purchase>, p: ProductData): set<string> {
    set i | 0 <= i < |purchases| && lookup(purchases[i].productId) == Found(p) :: purchases[i].productId
  }

  /** A product is listed exactly if some purchase is of it, and as often as different ids lead to it. */
  lemma ListedExactly(lookup: string -> Lookup<ProductData>, purchases: seq<Purchase>, products: seq<ProductData>)
    requires OnePerId(lookup, ProductIds(purchases), products)
    ensures forall p :: multiset(products)[p] == |IdsGiving(lookup, purchases, p)|
    ensures forall p :: p in products <==>
      exists i :: 0 <= i < |purchases| && lookup(purchases[i].productId) == Found(p)
  {
    forall p: ProductData
      ensures multiset(products)[p] == |IdsGiving(lookup, purchases, p)|
      ensures p in products <==> exists i :: 0 <= i < |purchases| && lookup(purchases[i].productId) == Found(p)
    {
      assert IdsGiving(lookup, purchases, p) == Giving(lookup, ProductIds(purchases), p);
      assert p in products <==> multiset(products)[p] > 0;
      if i :| 0 <= i < |purchases| && lookup(purchases[i].productId) == Found(p) {
        assert purchases[i].productId in IdsGiving(lookup, purchases, p);
      }
      if IdsGiving(lookup, purchases, p) != {} {
        var id :| id in IdsGiving(lookup, purchases, p);
      }
    }
  }

  /** `products` has one entry for each id in `ids` whose lookup succeeds, and no others. */
  ghost predicate OnePerId(lookup: string -> Lookup<ProductData>, ids: set<string>, products: seq<ProductData>) {
    forall p :: multiset(products)[p] == |Giving(lookup, ids, p)|
  }

  lemma OneMore(lookup: string -> Lookup<ProductData>, ids: set<string>, products: seq<ProductData>, id: string)
    requires OnePerId(lookup, ids, products) && id !in ids && lookup(id).Found?
    ensures OnePerId(lookup, ids + {id}, products + [lookup(id).value])
  {
    forall p: ProductData
      ensures multiset(products + [lookup(id).value])[p] == |Giving(lookup, ids + {id}, p)|
    {
      if lookup(id).value == p {
        assert Giving(lookup, ids + {id}, p) == Giving(lookup, ids, p) + {id};
      } else {
        assert Giving(lookup, ids + {id}, p) == Giving(lookup, ids, p);
      }
    }
  }

  lemma OnlyFoundCount(lookup: string -> Lookup<ProductData>, found: set<string>, ids: set<string>, products: seq<ProductData>)
    requires OnePerId(lookup, found, products)
    requires forall id :: id in found <==> id in ids && lookup(id).Found?
    ensures OnePerId(lookup, ids, products)
  {
    forall p: ProductData
      ensures multiset(products)[p] == |Giving(lookup, ids, p)|
    {
      assert Giving(lookup, ids, p) == Giving(lookup, found, p);
    }
  }

  /** The distinct product ids, collected in a map. */
  method CollectIds(purchases: seq<Purchase>) returns (ids: map<string, bool>)
    ensures ids.Keys == ProductIds(purchases)
    ensures forall id :: id in ids <==> exists i :: 0 <= i < |purchases| && purchases[i].productId == id
  {
    ids := map[];
    for i := 0 to |purchases|
      invariant ids.Keys == ProductIds(purchases[..i])
    {
      ids := ids[purchases[i].productId := true];
      assert purchases[..i + 1] == purchases[..i] + [purchases[i]];
      assert purchases[i].productId in ProductIds(purchases[..i + 1]) by {
        assert purchases[..i + 1][i] == purchases[i];
      }
      assert forall j :: 0 <= j < i ==> purchases[..i + 1][j] == purchases[..i][j];
      assert ProductIds(purchases[..i + 1]) == ProductIds(purchases[..i]) + {purchases[i].productId};
    }
    assert purchases[..|purchases|] == purchases;
  }

  /** One lookup per id, in whatever order the map is ranged over; failures are skipped. */
  method FetchProducts(ids: set<string>, lookup: string -> Lookup<ProductData>) returns (products: map<string, ProductData>)
    ensures forall id :: id in products <==> id in ids && lookup(id).Found?
    ensures forall id :: id in products ==> lookup(id) == Found(products[id])
  {
    products := map[];
    var left := ids;
    while left != {}
      invariant left <= ids
      invariant forall id :: id in products <==> id in ids - left && lookup(id).Found?
      invariant forall id :: id in products ==> lookup(id) == Found(products[id])
      decreases left
    {
      var id :| id in left;
      left := left - {id};
      var r := lookup(id);
      if r.Failed? {
        continue;
      }
      products := products[id := r.value];
    }
  }

  /** The fetched products as a list, in whatever order the map is ranged over. */
  method ListProducts(m: map<string, ProductData>, lookup: string -> Lookup<ProductData>) returns (products: seq<ProductData>)
    requires forall id :: id in m ==> lookup(id) == Found(m[id])
    ensures OnePerId(lookup, m.Keys, products)
  {
    products := [];
    var left := m.Keys;
    assert forall p :: Giving(lookup, m.Keys - left, p) == {};
    while left != {}
      invariant left <= m.Keys
      invariant OnePerId(lookup, m.Keys - left, products)
      decreases left
    {
      var id :| id in left;
      OneMore(lookup, m.Keys - left, products, id);
      assert m.Keys - left + {id} == m.Keys - (left - {id});
      left := left - {id};
      products := products + [m[id]];
    }
    assert m.Keys - left == m.Keys;
  }

  method BuildPurchases(purchases: seq<Purchase>) returns (r: seq<PbPurchase>)
    ensures |r| == |purchases| && forall i :: 0 <= i < |purchases| ==> Shows(r[i], purchases[i])
  {
    var a := new PbPurchase[|purchases|](_ => PbPurchase("", "", "", 0.0, ""));
    for i := 0 to |purchases|
      invariant forall j :: 0 <= j < i ==> Shows(a[j], purchases[j])
    {
      var p := purchases[i];
      a[i] := PbPurchase(Gateway.Decimal(p.id), p.userId, p.productId, p.amount, "PURCHASE_STATUS_COMPLETED");
    }
    return a[..];
  }

  /**
   * The whole handler. `Some` in a client argument is its error. On success every purchase is
   * there in order, and each distinct product id whose lookup succeeded contributes one product.
   */
  method GetUserPurchases(rows: Lookup<seq<Purchase>>, usersClient: Option<string>, user: Lookup<UserData>,
                          productsClient: Option<string>, lookup: string -> Lookup<ProductData>)
    returns (r: Result)
    ensures r.Ok? <==> rows.Found? && usersClient == None && user.Found? && productsClient == None
    ensures r.Ok? ==>
      && |r.response.purchases| == |rows.value|
      && (forall i :: 0 <= i < |rows.value| ==>
            r.response.purchases[i] == PbPurchase(
              Gateway.Decimal(rows.value[i].id), rows.value[i].userId, rows.value[i].productId, rows.value[i].amount,
              "PURCHASE_STATUS_COMPLETED"))
      && r.response.user == user.value
      && (forall p :: multiset(r.response.products)[p] == |IdsGiving(lookup, rows.value, p)|)
    ensures r.Ok? ==> forall p :: p in r.response.products <==>
      exists i :: 0 <= i < |rows.value| && lookup(rows.value[i].productId) == Found(p)
    ensures r.Err? ==>
      match r.error
      case DbError(e) => rows == Failed(e)
      case NoUsersClient(e) => rows.Found? && usersClient == Some(e)
      case NoUser(e) => rows.Found? && usersClient == None && user == Failed(e)
      case NoProductsClient(e) => rows.Found? && usersClient == None && user.Found? && productsClient == Some(e)
  {
    if rows.Failed? {
      return Err(DbError(rows.error));
    }
    if usersClient.Some? {
      return Err(NoUsersClient(usersClient.value));
    }
    if user.Failed? {
      return Err(NoUser(user.error));
    }
    var ids := CollectIds(rows.value);
    if productsClient.Some? {
      return Err(NoProductsClient(productsClient.value));
    }
    var found := FetchProducts(ids.Keys, lookup);
    var purchases := BuildPurchases(rows.value);
    var products := ListProducts(found, lookup);
    OnlyFoundCount(lookup, found.Keys, ids.Keys, products);
    ListedExactly(lookup, rows.value, products);
    return Ok(Response(purchases, user.value, products));
  }
}
