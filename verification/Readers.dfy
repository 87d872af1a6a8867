/** What the order service's readers return, and that it is what the writers were told. */
module Readers {
  import opened Collections
  import opened Integers
  import opened Models
  import opened Monolith
  import opened Gateway
  import opened Protocol
  import opened Refinement
  import opened Realization
  import opened Histories

  /** Possible results of `GetOrder`; the database chooses the order of the lines. */
  ghost predicate GetOrderReturns(t: Tables, id: Id, r: RpcResult<ProtoOrder>) {
    if id in t.orders
    then r.Ok? && exists o :: Loads(t, o) && o.id == id && r.value == ToProto(o)
    else r == Err(Status(NotFound))
  }

  ghost predicate ListsOrders(t: Tables, orders: seq<Order>) {
    && (forall i :: 0 <= i < |orders| ==> Loads(t, orders[i]))
    && Enumerates(Ids(orders), t.orders.Keys)
  }

  function Ids(orders: seq<Order>): seq<Id> {
    Map((o: Order) => o.id, orders)
  }

  /** Possible results of `GetOrders`: every order once, in some order. */
  ghost predicate GetOrdersReturns(t: Tables, protos: seq<ProtoOrder>) {
    exists orders :: ListsOrders(t, orders) && protos == Map(ToProto, orders)
  }

  /** Possible answers of the gateway to `GET /api/orders/{id}`. */
  ghost predicate GatewayReads(t: Tables, id: string, http: Http<ProtoOrder>) {
    match ParseUint32(id)
    case None => http == Http(400, None)
    case Some(n) =>
      exists r :: GetOrderReturns(t, n, r) &&
        http == if r.Ok? then Http(200, Some(r.value)) else Http(404, None)
  }

  lemma ViewsAgree(t: Tables, a: Order, b: Order)
    requires Loads(t, a) && Loads(t, b) && a.id == b.id
    ensures ViewOf(ToProto(a)) == ViewOf(ToProto(b))
  {
    LoadsAgree(t, a, b);
    MapKeepsMultisets(ToProtoItem, a.items, b.items);
  }

  /** The join over the two tables is the nested order its own call built: no line is lost, added or mixed in. */
  lemma {:induction false} JoinIsNested(run: seq<Step>, c: CallId, items: seq<OrderItem>)
    requires Committed(Exec(run), c) && Preloads(Exec(run).store.tables, OrderOf(Exec(run), c).id, items)
    ensures multiset(items) == multiset(OrderOf(Exec(run), c).items)
  {
    var t, o := Exec(run).store.tables, OrderOf(Exec(run), c);
    ReachableInv(run);
    assert CallSound(Exec(run).store, Exec(run).calls[c]);
    LoadsAgree(t, o, o.(items := items));
  }

  /** An order created by step `n` is what its returned id yields in every later state. */
  lemma {:induction false} ReadBack(run: seq<Step>, n: nat, c: CallId, r: RpcResult<ProtoOrder>)
    requires n <= |run| && Committed(Exec(run[..n]), c) && OrderOf(Exec(run[..n]), c).id < TWO_32
    requires GetOrderReturns(Exec(run).store.tables, ToUint32(OrderOf(Exec(run[..n]), c).id), r)
    ensures r.Ok? && ViewOf(r.value) == ViewOf(ToProto(OrderOf(Exec(run[..n]), c)))
  {
    DoneStays(run, n, c);
    ReachableInv(run);
    assert CallSound(Exec(run).store, Exec(run).calls[c]);
    var o := OrderOf(Exec(run), c);
    var read :| Loads(Exec(run).store.tables, read) && read.id == o.id && r.value == ToProto(read);
    ViewsAgree(Exec(run).store.tables, read, o);
  }

  /** The same through the gateway, with the shown id written in decimal. */
  lemma {:induction false} ReadBackOverHttp(run: seq<Step>, n: nat, c: CallId, http: Http<ProtoOrder>)
    requires n <= |run| && Committed(Exec(run[..n]), c) && OrderOf(Exec(run[..n]), c).id < TWO_32
    requires GatewayReads(Exec(run).store.tables, Decimal(ToProto(OrderOf(Exec(run[..n]), c)).id), http)
    ensures http.status == 200 && http.payload.Some?
    ensures ViewOf(http.payload.value) == ViewOf(ToProto(OrderOf(Exec(run[..n]), c)))
  {
    var id := ToProto(OrderOf(Exec(run[..n]), c)).id;
    ParseInvertsDecimal(id);
    var r :| GetOrderReturns(Exec(run).store.tables, id, r) &&
      http == if r.Ok? then Http(200, Some(r.value)) else Http(404, None);
    ReadBack(run, n, c, r);
  }

  // ---- GetOrders ------------------------------------------------------------------------------

  ghost function Commits(s: State): set<CallId> {
    set c | c in s.calls && Committed(s, c)
  }

  /** What the committer was told, up to line order. */
  ghost function ToldView(s: State, c: CallId): View {
    if Committed(s, c) then ViewOf(ToProto(OrderOf(s, c))) else View(0, 0, "", multiset{})
  }

  /** The same by the order's key. */
  ghost function RowView(s: State, id: Id): View {
    if exists c :: CommittedAs(s, c, id)
    then var c :| CommittedAs(s, c, id); ToldView(s, c)
    else View(0, 0, "", multiset{})
  }

  lemma CommitKeys(s: State, cs: seq<CallId>)
    requires Inv(s) && Enumerates(cs, Commits(s))
    ensures forall i :: 0 <= i < |cs| ==> Committed(s, cs[i])
    ensures Enumerates(CommitIds(s, cs), s.store.tables.orders.Keys)
  {
    forall i | 0 <= i < |cs|
      ensures Committed(s, cs[i])
    {
      assert cs[i] in Commits(s);
    }
    var ids := CommitIds(s, cs);
    forall id | id in ids
      ensures id in s.store.tables.orders.Keys
    {
      var i :| 0 <= i < |cs| && ids[i] == id;
      assert CallSound(s.store, s.calls[cs[i]]);
    }
    forall id | id in s.store.tables.orders.Keys
      ensures id in ids
    {
      var c :| CommittedAs(s, c, id);
      assert c in Commits(s);
      var i :| 0 <= i < |cs| && cs[i] == c;
      assert ids[i] == id;
    }
  }

  lemma RowViewOfCommit(s: State, c: CallId)
    requires Inv(s) && Committed(s, c)
    ensures RowView(s, OrderOf(s, c).id) == ToldView(s, c)
  {
  }

  lemma RowViewOfOrder(s: State, o: Order)
    requires Inv(s) && Loads(s.store.tables, o)
    ensures RowView(s, o.id) == ViewOf(ToProto(o))
  {
    var c :| CommittedAs(s, c, o.id);
    RowViewOfCommit(s, c);
    assert CallSound(s.store, s.calls[c]);
    ViewsAgree(s.store.tables, o, OrderOf(s, c));
  }

  ghost function CommitIds(s: State, cs: seq<CallId>): seq<Id>
    requires forall i :: 0 <= i < |cs| ==> Committed(s, cs[i])
  {
    seq(|cs|, i requires 0 <= i < |cs| => OrderOf(s, cs[i]).id)
  }

  ghost function RowViews(s: State, ids: seq<Id>): seq<View> {
    Map((id: Id) => RowView(s, id), ids)
  }

  lemma ListedByRow(s: State, orders: seq<Order>)
    requires Inv(s) && ListsOrders(s.store.tables, orders)
    ensures RowViews(s, Ids(orders)) == Map(ViewOf, Map(ToProto, orders))
  {
    forall i | 0 <= i < |orders|
      ensures RowView(s, orders[i].id) == ViewOf(ToProto(orders[i]))
    {
      RowViewOfOrder(s, orders[i]);
    }
  }

  lemma ToldByRow(s: State, cs: seq<CallId>)
    requires Inv(s) && forall i :: 0 <= i < |cs| ==> Committed(s, cs[i])
    ensures RowViews(s, CommitIds(s, cs)) == Map(c => ToldView(s, c), cs)
  {
  }

  /** `GetOrders` is, as a multiset, what all committers were told: every order once and nothing else. */
  lemma {:induction false} GetOrdersIsCommits(run: seq<Step>, protos: seq<ProtoOrder>, cs: seq<CallId>)
    requires GetOrdersReturns(Exec(run).store.tables, protos) && Enumerates(cs, Commits(Exec(run)))
    ensures multiset(Map(ViewOf, protos)) == multiset(Map(c => ToldView(Exec(run), c), cs))
  {
    var s := Exec(run);
    ReachableInv(run);
    var orders :| ListsOrders(s.store.tables, orders) && protos == Map(ToProto, orders);
    CommitKeys(s, cs);
    EnumerationsAgree(Ids(orders), CommitIds(s, cs), s.store.tables.orders.Keys);
    MapKeepsMultisets((id: Id) => RowView(s, id), Ids(orders), CommitIds(s, cs));
    ListedByRow(s, orders);
    ToldByRow(s, cs);
  }

  // ---- Preload is two queries -------------------------------------------------------------------

  /** An order row read from one state of the tables, its lines from another. */
  ghost predicate Joined(rows: Tables, lines: Tables, o: Order) {
    && o.id in rows.orders && rows.orders[o.id] == OrderRow(o.userId, o.status)
    && Preloads(lines, o.id, o.items)
  }

  ghost predicate FoundThenPreloaded(rows: Tables, lines: Tables, orders: seq<Order>) {
    && (forall i :: 0 <= i < |orders| ==> Joined(rows, lines, orders[i]))
    && Enumerates(Ids(orders), rows.orders.Keys)
  }

  lemma SamePreload(t: Tables, u: Tables, o: Order, items: seq<OrderItem>)
    requires Loads(t, o) && Loads(u, o) && Preloads(t, o.id, items)
    ensures Preloads(u, o.id, items)
  {
    PreloadsWithin(t, o, o.(items := items));
    PreloadsWithin(t, o.(items := items), o);
    forall i | i in u.items && u.items[i].orderId == o.id
      ensures HasKey(items, i)
    {
      var k :| 0 <= k < |o.items| && o.items[k].id == i;
      assert o.items[k] in items;
    }
  }

  /** Whatever commits between the two queries, the lines are those of the moment the row was read. */
  lemma {:induction false} JoinIsAtomic(run: seq<Step>, n: nat, o: Order)
    requires n <= |run|
    ensures Joined(Exec(run[..n]).store.tables, Exec(run).store.tables, o) <==> Loads(Exec(run[..n]).store.tables, o)
  {
    var s, s' := Exec(run[..n]), Exec(run);
    if o.id in s.store.tables.orders {
      ReachableInv(run[..n]);
      ReachableInv(run);
      var c :| CommittedAs(s, c, o.id);
      DoneStays(run, n, c);
      assert CallSound(s.store, s.calls[c]) && CallSound(s'.store, s'.calls[c]);
      if Preloads(s.store.tables, o.id, o.items) {
        SamePreload(s.store.tables, s'.store.tables, OrderOf(s, c), o.items);
      }
      if Preloads(s'.store.tables, o.id, o.items) {
        SamePreload(s'.store.tables, s.store.tables, OrderOf(s, c), o.items);
      }
    }
  }

  /** So a listing interrupted by commits is an atomic listing at its first query, and any of those is possible. */
  lemma {:induction false} ListingIsAtomic(run: seq<Step>, n: nat, orders: seq<Order>)
    requires n <= |run|
    ensures FoundThenPreloaded(Exec(run[..n]).store.tables, Exec(run).store.tables, orders) <==>
      ListsOrders(Exec(run[..n]).store.tables, orders)
  {
    forall i | 0 <= i < |orders|
      ensures Joined(Exec(run[..n]).store.tables, Exec(run).store.tables, orders[i]) <==>
        Loads(Exec(run[..n]).store.tables, orders[i])
    {
      JoinIsAtomic(run, n, orders[i]);
    }
  }

  // ---- Ids from 2^32 on -----------------------------------------------------------------------

  /** The reader got the order of call `d`, stored under `id`. */
  ghost predicate ReadsOrderOf(s: State, d: CallId, id: Id, r: RpcResult<ProtoOrder>) {
    CommittedAs(s, d, id) && r.Ok? && ViewOf(r.value) == ToldView(s, d)
  }

  lemma ReadsOwner(s: State, id: Id, r: RpcResult<ProtoOrder>) returns (d: CallId)
    requires Inv(s) && id in s.store.tables.orders && GetOrderReturns(s.store.tables, id, r)
    ensures ReadsOrderOf(s, d, id, r)
  {
    d :| CommittedAs(s, d, id);
    assert CallSound(s.store, s.calls[d]);
    var read :| Loads(s.store.tables, read) && read.id == id && r.value == ToProto(read);
    ViewsAgree(s.store.tables, read, OrderOf(s, d));
  }

  /**
   * What the id shown for an order reads, in every run: the order itself exactly below 2^32; from
   * there on another call's order if the narrowed id is in use, and nothing if it is not.
   */
  lemma {:induction false} ReadBackExactly(run: seq<Step>, c: CallId, r: RpcResult<ProtoOrder>)
    requires Committed(Exec(run), c)
    requires GetOrderReturns(Exec(run).store.tables, ToProto(OrderOf(Exec(run), c)).id, r)
    ensures var s, id := Exec(run), OrderOf(Exec(run), c).id;
      && (id < TWO_32 <==> ReadsOrderOf(s, c, ToUint32(id), r))
      && (id >= TWO_32 && ToUint32(id) in s.store.tables.orders <==>
            exists d :: d != c && ReadsOrderOf(s, d, ToUint32(id), r))
      && (id >= TWO_32 && ToUint32(id) !in s.store.tables.orders <==> r == Err(Status(NotFound)))
  {
    var s, id := Exec(run), OrderOf(Exec(run), c).id;
    ReachableInv(run);
    assert CallSound(s.store, s.calls[c]);
    if ToUint32(id) in s.store.tables.orders {
      var d := ReadsOwner(s, ToUint32(id), r);
      assert d == c <==> id < TWO_32;
    }
  }

  function PlaceEmpty(c: CallId, userId: Id, key: Id): Atomic {
    PlaceOrder(c, OrderRequest(userId, []), NoFault, Keys(key, []))
  }

  lemma EmptyOrderPlaced(m: MonolithState, c: CallId, userId: Id, key: Id)
    requires c !in m.outcomes && userId in m.store.users && key > 0 && key !in m.store.tables.orders
    ensures var o := Order(key, userId, "pending", []);
      Do(m, PlaceEmpty(c, userId, key)) ==
        Some(MonolithState(m.store.(tables := Insert(m.store.tables, o)), m.outcomes[c := Created(o)]))
  {
  }

  /** Two customers, the second order's key being the first one's plus 2^32. */
  function Aliased(a: User, b: User): seq<Atomic> {
    [AddUser(1, a)] + [AddUser(2, b)] + [PlaceEmpty(0, 1, 1)] + [PlaceEmpty(1, 2, TWO_32 + 1)]
  }

  lemma AliasedRuns(a: User, b: User)
    requires a.email != b.email
    ensures DoAll(Aliased(a, b)).Some?
    ensures DoAll(Aliased(a, b)).value.outcomes ==
      map[0 := Created(Order(1, 1, "pending", [])), 1 := Created(Order(TWO_32 + 1, 2, "pending", []))]
  {
    var one, two := [AddUser(1, a)], [AddUser(1, a)] + [AddUser(2, b)];
    DoAllMore([], AddUser(1, a));
    assert [] + [AddUser(1, a)] == one;
    DoAllMore(one, AddUser(2, b));
    var m := DoAll(two).value;
    EmptyOrderPlaced(m, 0, 1, 1);
    DoAllMore(two, PlaceEmpty(0, 1, 1));
    EmptyOrderPlaced(DoAll(two + [PlaceEmpty(0, 1, 1)]).value, 1, 2, TWO_32 + 1);
    DoAllMore(two + [PlaceEmpty(0, 1, 1)], PlaceEmpty(1, 2, TWO_32 + 1));
  }

  ghost predicate BothPlaced(s: State) {
    && CommittedAs(s, 0, 1) && OrderOf(s, 0).userId == 1
    && CommittedAs(s, 1, TWO_32 + 1) && OrderOf(s, 1).userId == 2
  }

  lemma BothArePlaced(s: State)
    requires Abs(s).outcomes ==
      map[0 := Created(Order(1, 1, "pending", [])), 1 := Created(Order(TWO_32 + 1, 2, "pending", []))]
    ensures BothPlaced(s)
  {
    assert 0 in Abs(s).outcomes && 1 in Abs(s).outcomes;
  }

  lemma ReadsUnderNarrowedId(s: State, c: CallId, d: CallId, r: RpcResult<ProtoOrder>)
    requires Inv(s) && Committed(s, c) && CommittedAs(s, d, ToUint32(OrderOf(s, c).id))
    requires GetOrderReturns(s.store.tables, ToProto(OrderOf(s, c)).id, r)
    ensures r.Ok? && ViewOf(r.value) == ToldView(s, d)
  {
    assert CallSound(s.store, s.calls[d]);
    var owner := ReadsOwner(s, OrderOf(s, d).id, r);
    assert owner == d;
  }

  lemma AliasedRun(a: User, b: User) returns (run: seq<Step>)
    requires a.email != b.email
    ensures BothPlaced(Exec(run))
  {
    var trace := Aliased(a, b);
    AliasedRuns(a, b);
    run := Realize(trace);
    MonolithIsRealized(trace);
    BothArePlaced(Exec(run));
  }

  /** Some run has a customer read another customer's order under the id they were given for theirs. */
  lemma ReadsAnothersOrder(a: User, b: User) returns (run: seq<Step>)
    requires a.email != b.email
    ensures Committed(Exec(run), 0) && OrderOf(Exec(run), 0).userId == 1
    ensures Committed(Exec(run), 1) && OrderOf(Exec(run), 1).userId == 2
    ensures forall r :: GetOrderReturns(Exec(run).store.tables, ToProto(OrderOf(Exec(run), 1)).id, r) ==>
      r.Ok? && r.value.userId == 1 && ViewOf(r.value) == ToldView(Exec(run), 0)
  {
    run := AliasedRun(a, b);
    ReachableInv(run);
    forall r | GetOrderReturns(Exec(run).store.tables, ToProto(OrderOf(Exec(run), 1)).id, r)
      ensures r.Ok? && r.value.userId == 1 && ViewOf(r.value) == ToldView(Exec(run), 0)
    {
      assert CommittedAs(Exec(run), 0, ToUint32(OrderOf(Exec(run), 1).id));
      ReadsUnderNarrowedId(Exec(run), 1, 0, r);
    }
  }

  // ---- What a client is shown ---------------------------------------------------------------

  /**
   * Line `k` of the order shown for a call is line `k` of its request, at the stored price. The
   * quantity, which went from `uint32` through `int32` and `int` and back, agrees modulo 2^32,
   * and is the one asked for exactly when that is below 2^31.
   */
  ghost predicate LineAnswers(store: Store, asked: Body, o: Order, k: nat) {
    var shown := ToProto(o);
    && shown.userId == asked.userId && shown.status == "pending"
    && k < |shown.items| == |asked.items|
    && shown.items[k].menuItemId == asked.items[k].menuItemId
    && shown.items[k].orderId == shown.id && shown.items[k].id == ToUint32(o.items[k].id)
    && o.items[k].id in store.tables.items && shown.items[k].price == store.tables.items[o.items[k].id].price
    && (shown.items[k].quantity - asked.items[k].quantity) % TWO_32 == 0
    && (shown.items[k].quantity == asked.items[k].quantity <==> asked.items[k].quantity < TWO_31)
  }

  lemma SoundCallAnswers(store: Store, call: Call, o: Order, k: nat)
    requires CallSound(store, call) && call.phase == Done(Created(o)) && k < |o.items|
    ensures LineAnswers(store, call.body, o, k)
  {
    assert MatchesItem(store.menu, Req(call).items[k], o.items[k].menuItemId, o.items[k].quantity);
    assert o.items[k].quantity == ToInt32(call.body.items[k].quantity);
  }

  /** Every commit of every run shows the request it answers. */
  lemma {:induction false} ShownOrderAnswersRequest(run: seq<Step>, c: CallId, k: nat)
    requires Committed(Exec(run), c) && k < |OrderOf(Exec(run), c).items|
    ensures LineAnswers(Exec(run).store, Exec(run).calls[c].body, OrderOf(Exec(run), c), k)
  {
    ReachableInv(run);
    SoundCallAnswers(Exec(run).store, Exec(run).calls[c], OrderOf(Exec(run), c), k);
  }
}
