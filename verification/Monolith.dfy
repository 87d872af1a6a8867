/**
 * The monolith's `CreateOrder`, taken as one atomic step on one store: the sequential
 * specification that the services are a refactoring of.
 */
module Monolith {
  import opened Collections
  import opened Models

  datatype ItemRequest = ItemRequest(menuItemId: Id, quantity: int)
  datatype OrderRequest = OrderRequest(userId: Id, items: seq<ItemRequest>)

  /** At most one database or network call of a request fails for a reason of its own. */
  datatype Fault = NoFault | UserLookup | ItemLookup(index: nat) | Save

  datatype Outcome =
    | Created(order: Order)
    | UserNotFound
    | ItemNotFound(index: nat)
    | SaveFailed

  /** The first item from `start` on whose lookup fails, or the number of items. */
  function FirstFailure(menu: Menu, items: seq<ItemRequest>, fault: Fault, start: nat): (k: nat)
    requires start <= |items|
    ensures start <= k <= |items|
    ensures forall j :: start <= j < k ==> items[j].menuItemId in menu && fault != ItemLookup(j)
    ensures k < |items| ==> items[k].menuItemId !in menu || fault == ItemLookup(k)
    decreases |items| - start
  {
    if start == |items| || items[start].menuItemId !in menu || fault == ItemLookup(start) then start
    else FirstFailure(menu, items, fault, start + 1)
  }

  function Priced(menu: Menu, items: seq<ItemRequest>): (lines: seq<Line>)
    requires forall k :: 0 <= k < |items| ==> items[k].menuItemId in menu
  {
    seq(|items|, k requires 0 <= k < |items| =>
      Line(items[k].menuItemId, items[k].quantity, menu[items[k].menuItemId].price))
  }

  /** The request passes every check, so that an order is built for it. */
  predicate Accepts(s: Store, req: OrderRequest, fault: Fault) {
    && fault != UserLookup && req.userId in s.users
    && FirstFailure(s.menu, req.items, fault, 0) == |req.items|
  }

  /** The keys are only looked at when a row is inserted. */
  ghost predicate KeysFit(s: Store, req: OrderRequest, fault: Fault, keys: Keys) {
    Accepts(s, req, fault) && fault != Save ==> Fresh(s.tables, keys, |req.items|)
  }

  function CreateOrder(s: Store, req: OrderRequest, fault: Fault, keys: Keys): (r: (Store, Outcome))
    requires KeysFit(s, req, fault, keys)
  {
    if fault == UserLookup || req.userId !in s.users then (s, UserNotFound)
    else
      var k := FirstFailure(s.menu, req.items, fault, 0);
      if k < |req.items| then (s, ItemNotFound(k))
      else if fault == Save then (s, SaveFailed)
      else
        var order := Saved(req.userId, Priced(s.menu, req.items), keys);
        (s.(tables := Insert(s.tables, order)), Created(order))
  }

  predicate UserOk(s: Store, req: OrderRequest, fault: Fault) {
    req.userId in s.users && fault != UserLookup
  }

  predicate ItemOk(s: Store, req: OrderRequest, fault: Fault, k: nat)
    requires k < |req.items|
  {
    req.items[k].menuItemId in s.menu && fault != ItemLookup(k)
  }

  predicate AllItemsOk(s: Store, req: OrderRequest, fault: Fault) {
    forall k :: 0 <= k < |req.items| ==> ItemOk(s, req, fault, k)
  }

  /** On a fixed store: which requests succeed, what they store, and what a refusal names. */
  lemma CreateOrderMeaning(s: Store, req: OrderRequest, fault: Fault, keys: Keys)
    requires KeysFit(s, req, fault, keys)
    ensures var (s', outcome) := CreateOrder(s, req, fault, keys);
      && (outcome.UserNotFound? <==> !UserOk(s, req, fault))
      && (forall k: nat :: outcome == ItemNotFound(k) <==>
            && UserOk(s, req, fault) && k < |req.items| && !ItemOk(s, req, fault, k)
            && forall j :: 0 <= j < k ==> ItemOk(s, req, fault, j))
      && (outcome.SaveFailed? <==> UserOk(s, req, fault) && AllItemsOk(s, req, fault) && fault == Save)
      && (outcome.Created? <==> UserOk(s, req, fault) && AllItemsOk(s, req, fault) && fault != Save)
      && (!outcome.Created? ==> s' == s)
      && (outcome.Created? ==>
            var o := outcome.order;
            && s'.users == s.users && s'.menu == s.menu
            && (Referential(s.tables) ==> Loads(s'.tables, o))
            && o.id == keys.order && o.userId == req.userId && o.status == "pending" && |o.items| == |req.items|
            && forall k :: 0 <= k < |req.items| ==>
                 && o.items[k].id == keys.items[k] && o.items[k].orderId == keys.order
                 && o.items[k].menuItemId == req.items[k].menuItemId
                 && o.items[k].quantity == req.items[k].quantity
                 && o.items[k].price == s.menu[req.items[k].menuItemId].price)
  {
    var first := FirstFailure(s.menu, req.items, fault, 0);
    assert forall j :: 0 <= j < first ==> ItemOk(s, req, fault, j);
    assert first < |req.items| ==> !ItemOk(s, req, fault, first);
    if Accepts(s, req, fault) && fault != Save && Referential(s.tables) {
      CreateThenLoad(s.tables, req.userId, Priced(s.menu, req.items), keys);
    }
  }
}
