/**
 * The handlers as the services run them: loops with early returns over databases that are
 * updated in place. Each is proved against the monolith's atomic step or the readers' relation.
 */
module Services {
  import opened Collections
  import opened Integers
  import opened Models
  import opened Monolith
  import opened Gateway
  import opened Protocol
  import opened Refinement
  import opened Readers

  /** One GORM database; a service uses the tables it owns, the monolith all of them. */
  class Database {
    var users: Users
    var menu: Menu
    var tables: Tables

    constructor ()
      ensures users == map[] && menu == map[] && tables == EMPTY_STORE.tables
    {
      users, menu, tables := map[], map[], Tables(map[], map[]);
    }

    method FirstUser(id: Id, fault: bool) returns (r: Option<User>)
      ensures r.Some? <==> !fault && id in users
      ensures r.Some? ==> r.value == users[id]
    {
      if fault || id !in users {
        return None;
      }
      return Some(users[id]);
    }

    method FirstMenuItem(id: Id, fault: bool) returns (r: Option<MenuItem>)
      ensures r.Some? <==> !fault && id in menu
      ensures r.Some? ==> r.value == menu[id]
    {
      if fault || id !in menu {
        return None;
      }
      return Some(menu[id]);
    }

    /** `Create(&order)` with its lines, in one transaction. */
    method CreateOrder(userId: Id, lines: seq<Line>, fault: bool, keys: Keys) returns (r: Option<Order>)
      requires !fault ==> Fresh(tables, keys, |lines|)
      modifies this`tables
      ensures fault ==> r == None && tables == old(tables)
      ensures !fault ==> r == Some(Saved(userId, lines, keys)) && tables == Insert(old(tables), r.value)
    {
      if fault {
        return None;
      }
      var order := Saved(userId, lines, keys);
      tables := Insert(tables, order);
      return Some(order);
    }

    /** The rows of one order, picked up in whatever order the database likes. */
    method Preload(id: Id) returns (items: seq<OrderItem>)
      ensures Preloads(tables, id, items)
    {
      items := [];
      var left := set i | i in tables.items && tables.items[i].orderId == id;
      while left != {}
        invariant DistinctKeys(items)
        invariant forall i :: i in left ==> i in tables.items && tables.items[i].orderId == id && !HasKey(items, i)
        invariant forall k :: 0 <= k < |items| ==>
          items[k].orderId == id && items[k].id in tables.items && tables.items[items[k].id] == ToRow(items[k])
        invariant forall i :: i in tables.items && tables.items[i].orderId == id ==> i in left || HasKey(items, i)
        decreases left
      {
        var i :| i in left;
        var row := tables.items[i];
        var item := OrderItem(i, row.orderId, row.menuItemId, row.quantity, row.price);
        var before := items;
        items := items + [item];
        left := left - {i};
        HasKeyAppend(before, item);
      }
    }
  }

  // ---- User and menu services -------------------------------------------------------------------

  datatype ProtoUser = ProtoUser(id: int, name: string, email: string, isCafeOwner: bool)
  datatype ProtoMenuItem = ProtoMenuItem(id: int, name: string, description: string, price: real)

  class UserServer {
    const db: Database

    constructor (db: Database)
      ensures this.db == db
    {
      this.db := db;
    }

    /** Refused by the database on a duplicate email or an error of its own; otherwise one new row. */
    method CreateUser(user: User, fault: bool, id: Id) returns (r: RpcResult<ProtoUser>)
      requires id > 0 && id !in db.users
      modifies db`users
      ensures r.Ok? <==> !fault && forall i :: i in old(db.users) ==> old(db.users)[i].email != user.email
      ensures r.Ok? ==> db.users == old(db.users)[id := user]
      ensures r.Ok? ==> r.value == ProtoUser(ToUint32(id), user.name, user.email, user.isCafeOwner)
      ensures r.Err? ==> r.error == Status(Internal) && db.users == old(db.users)
    {
      if fault || exists i :: i in db.users && db.users[i].email == user.email {
        return Err(Status(Internal));
      }
      db.users := db.users[id := user];
      return Ok(ProtoUser(ToUint32(id), user.name, user.email, user.isCafeOwner));
    }

    method GetUser(id: Id, fault: bool) returns (r: RpcResult<ProtoUser>)
      ensures r.Ok? <==> !fault && id in db.users
      ensures r.Ok? ==> r.value == ProtoUser(ToUint32(id), db.users[id].name, db.users[id].email, db.users[id].isCafeOwner)
      ensures r.Err? ==> r.error == Status(if fault then Internal else NotFound)
    {
      var user := db.FirstUser(id, fault);
      if user == None {
        return Err(Status(if fault then Internal else NotFound));
      }
      return Ok(ProtoUser(ToUint32(id), user.value.name, user.value.email, user.value.isCafeOwner));
    }
  }

  class MenuServer {
    const db: Database

    constructor (db: Database)
      ensures this.db == db
    {
      this.db := db;
    }

    method CreateMenuItem(item: MenuItem, fault: bool, id: Id) returns (r: RpcResult<ProtoMenuItem>)
      requires MenuItemFits(db.menu, id)
      modifies db`menu
      ensures r.Ok? <==> !fault
      ensures r.Ok? ==> db.menu == old(db.menu)[id := item]
      ensures r.Ok? ==> r.value == ProtoMenuItem(ToUint32(id), item.name, item.description, item.price)
      ensures r.Err? ==> r.error == Status(Internal) && db.menu == old(db.menu)
    {
      if fault {
        return Err(Status(Internal));
      }
      db.menu := db.menu[id := item];
      return Ok(ProtoMenuItem(ToUint32(id), item.name, item.description, item.price));
    }

    method GetMenuItem(id: Id, fault: bool) returns (r: RpcResult<ProtoMenuItem>)
      ensures r.Ok? <==> !fault && id in db.menu
      ensures r.Ok? ==> r.value == ProtoMenuItem(ToUint32(id), db.menu[id].name, db.menu[id].description, db.menu[id].price)
      ensures r.Err? ==> r.error == Status(if fault then Internal else NotFound)
    {
      var item := db.FirstMenuItem(id, fault);
      if item == None {
        return Err(Status(if fault then Internal else NotFound));
      }
      return Ok(ProtoMenuItem(ToUint32(id), item.value.name, item.value.description, item.value.price));
    }
  }

  // ---- Three forms of CreateOrder ----------------------------------------------------------------

  /** The lookups so far all succeeded and these are their lines. */
  ghost predicate PricedSoFar(menu: Menu, items: seq<ItemRequest>, fault: Fault, lines: seq<Line>) {
    && |lines| <= |items|
    && (forall j :: 0 <= j < |lines| ==> items[j].menuItemId in menu && fault != ItemLookup(j))
    && (forall j :: 0 <= j < |lines| ==>
          lines[j] == Line(items[j].menuItemId, items[j].quantity, menu[items[j].menuItemId].price))
  }

  /** What the loop knows after any number of lookups settles what the atomic step does. */
  lemma LoopDecides(s: Store, req: OrderRequest, fault: Fault, keys: Keys, lines: seq<Line>)
    requires KeysFit(s, req, fault, keys) && fault != UserLookup && req.userId in s.users
    requires PricedSoFar(s.menu, req.items, fault, lines)
    ensures |lines| < |req.items| && (fault == ItemLookup(|lines|) || req.items[|lines|].menuItemId !in s.menu) ==>
      CreateOrder(s, req, fault, keys) == (s, ItemNotFound(|lines|))
    ensures |lines| == |req.items| && fault == Save ==> CreateOrder(s, req, fault, keys) == (s, SaveFailed)
    ensures |lines| == |req.items| && fault != Save ==>
      && Fresh(s.tables, keys, |lines|)
      && var o := Saved(req.userId, lines, keys);
         CreateOrder(s, req, fault, keys) == (s.(tables := Insert(s.tables, o)), Created(o))
  {
    if |lines| == |req.items| {
      assert FirstFailure(s.menu, req.items, fault, 0) == |req.items|;
      assert lines == Priced(s.menu, req.items);
    }
  }

  /** The monolith's handler: everything in one database. */
  method MonolithCreateOrder(db: Database, req: OrderRequest, fault: Fault, keys: Keys)
    returns (status: nat, outcome: Outcome)
    requires KeysFit(Store(db.users, db.menu, db.tables), req, fault, keys)
    modifies db`tables
    ensures (Store(db.users, db.menu, db.tables), outcome) ==
      CreateOrder(old(Store(db.users, db.menu, db.tables)), req, fault, keys)
    ensures status == MonolithStatus(outcome)
    ensures var found := AllFound(old(Store(db.users, db.menu, db.tables)), req, fault);
      status == if !found then 400 else if fault == Save then 500 else 201
  {
    var before := Store(db.users, db.menu, db.tables);
    assert MonolithStatus(CreateOrder(before, req, fault, keys).1) ==
      (if !AllFound(before, req, fault) then 400 else if fault == Save then 500 else 201) by {
      AnswersMean(before, req, fault, keys);
    }
    var user := db.FirstUser(req.userId, fault == UserLookup);
    if user == None {
      return 400, UserNotFound;
    }
    var lines: seq<Line> := [];
    for i := 0 to |req.items|
      invariant |lines| == i && PricedSoFar(db.menu, req.items, fault, lines)
      invariant db.tables == old(db.tables)
    {
      LoopDecides(old(Store(db.users, db.menu, db.tables)), req, fault, keys, lines);
      var item := db.FirstMenuItem(req.items[i].menuItemId, fault == ItemLookup(i));
      if item == None {
        return 400, ItemNotFound(i);
      }
      lines := lines + [Line(req.items[i].menuItemId, req.items[i].quantity, item.value.price)];
    }
    LoopDecides(old(Store(db.users, db.menu, db.tables)), req, fault, keys, lines);
    var order := db.CreateOrder(req.userId, lines, fault == Save, keys);
    if order == None {
      return 500, SaveFailed;
    }
    return 201, Created(order.value);
  }

  class OrderServer {
    const users: UserServer
    const menu: MenuServer
    const db: Database

    constructor (users: UserServer, menu: MenuServer, db: Database)
      ensures this.users == users && this.menu == menu && this.db == db
    {
      this.users, this.menu, this.db := users, menu, db;
    }

    /** The three databases, seen as the monolith's one. */
    function Seen(): Store
      reads users.db, menu.db, db
    {
      Store(users.db.users, menu.db.menu, db.tables)
    }

    /** The gRPC handler: lookups are calls to the other services. */
    method CreateOrder(req: OrderRequest, fault: Fault, keys: Keys) returns (r: RpcResult<ProtoOrder>)
      requires KeysFit(Seen(), req, fault, keys)
      modifies db`tables
      ensures var (store, outcome) := Monolith.CreateOrder(old(Seen()), req, fault, keys);
        Seen() == store && r == RpcOf(outcome)
      ensures Tells(r, AllFound(old(Seen()), req, fault), fault)
    {
      ghost var found := AllFound(Seen(), req, fault);
      assert Tells(RpcOf(Monolith.CreateOrder(Seen(), req, fault, keys).1), found, fault) by {
        AnswersMean(Seen(), req, fault, keys);
      }
      var user := users.GetUser(req.userId, fault == UserLookup);
      if user.Err? {
        return Err(Status(InvalidArgument));
      }
      var lines: seq<Line> := [];
      for i := 0 to |req.items|
        invariant |lines| == i && PricedSoFar(menu.db.menu, req.items, fault, lines)
        invariant Seen() == old(Seen())
      {
        LoopDecides(old(Seen()), req, fault, keys, lines);
        var item := menu.GetMenuItem(req.items[i].menuItemId, fault == ItemLookup(i));
        if item.Err? {
          return Err(Status(InvalidArgument));
        }
        lines := lines + [Line(req.items[i].menuItemId, req.items[i].quantity, item.value.price)];
      }
      LoopDecides(old(Seen()), req, fault, keys, lines);
      var order := db.CreateOrder(req.userId, lines, fault == Save, keys);
      if order == None {
        return Err(Status(Internal));
      }
      var proto := ModelToProto(order.value);
      return Ok(proto);
    }

    /** The HTTP handler that the service still contains: lookups by the low 32 bits, rows by the full ids. */
    method HandlerCreateOrder(req: OrderRequest, fault: Fault, keys: Keys) returns (status: nat, outcome: Outcome)
      requires HandlerKeysFit(Seen(), req, fault, keys)
      modifies db`tables
      ensures (Seen(), outcome) == NarrowCreateOrder(old(Seen()), req, fault, keys)
      ensures status == MonolithStatus(outcome)
    {
      var user := users.GetUser(ToUint32(req.userId), fault == UserLookup);
      if user.Err? {
        return 400, UserNotFound;
      }
      var lines: seq<Line> := [];
      for i := 0 to |req.items|
        invariant |lines| == i && NarrowPricedSoFar(menu.db.menu, req.items, fault, lines)
        invariant Seen() == old(Seen())
      {
        NarrowDecides(old(Seen()), req, fault, keys, lines);
        var item := menu.GetMenuItem(ToUint32(req.items[i].menuItemId), fault == ItemLookup(i));
        if item.Err? {
          return 400, ItemNotFound(i);
        }
        lines := lines + [Line(req.items[i].menuItemId, req.items[i].quantity, item.value.price)];
      }
      NarrowDecides(old(Seen()), req, fault, keys, lines);
      var order := db.CreateOrder(req.userId, lines, fault == Save, keys);
      if order == None {
        return 500, SaveFailed;
      }
      return 201, Created(order.value);
    }

    method GetOrder(id: Id, fault: bool) returns (r: RpcResult<ProtoOrder>)
      ensures fault ==> r == Err(Status(NotFound))
      ensures !fault ==> GetOrderReturns(db.tables, id, r)
    {
      if fault || id !in db.tables.orders {
        return Err(Status(NotFound));
      }
      var items := db.Preload(id);
      var order := Order(id, db.tables.orders[id].userId, db.tables.orders[id].status, items);
      assert Loads(db.tables, order);
      var proto := ModelToProto(order);
      return Ok(proto);
    }

    method GetOrders(fault: bool) returns (r: RpcResult<seq<ProtoOrder>>)
      ensures fault ==> r == Err(Status(Internal))
      ensures !fault ==> r.Ok? && GetOrdersReturns(db.tables, r.value)
    {
      if fault {
        return Err(Status(Internal));
      }
      var orders := FindOrders();
      var protos := new ProtoOrder[|orders|](_ => ProtoOrder(0, 0, "", []));
      for i := 0 to |orders|
        invariant protos[..i] == Map(ToProto, orders)[..i]
      {
        var proto := ModelToProto(orders[i]);
        protos[i] := proto;
      }
      assert protos[..] == Map(ToProto, orders);
      return Ok(protos[..]);
    }

    /** `Preload("OrderItems").Find(&orders)`. */
    method FindOrders() returns (orders: seq<Order>)
      ensures ListsOrders(db.tables, orders)
    {
      orders := [];
      var left := db.tables.orders.Keys;
      while left != {}
        invariant left <= db.tables.orders.Keys
        invariant forall i :: 0 <= i < |orders| ==> Loads(db.tables, orders[i])
        invariant Enumerates(Ids(orders), db.tables.orders.Keys - left)
        decreases left
      {
        var id :| id in left;
        var items := db.Preload(id);
        var order := Order(id, db.tables.orders[id].userId, db.tables.orders[id].status, items);
        assert Ids(orders + [order]) == Ids(orders) + [id];
        orders := orders + [order];
        left := left - {id};
      }
    }
  }

  // ---- The gateway's handlers --------------------------------------------------------------------

  /** What the connection to the order service does to one call. */
  datatype Link = Up | RequestLost(error: RpcError) | ReplyLost(error: RpcError)

  /** `POST /api/orders`: for bodies in range, the monolith's effect, and its status unless the link fails. */
  method GatewayCreateOrder(server: OrderServer, body: Body, link: Link, fault: Fault, keys: Keys)
    returns (http: Http<ProtoOrder>)
    requires GatewayDecodes(body) ==> KeysFit(server.Seen(), WireRequest(body), fault, keys)
    modifies server.db`tables
    ensures !GatewayDecodes(body) ==> http == Http(400, None)
    ensures !GatewayDecodes(body) || link.RequestLost? ==> server.Seen() == old(server.Seen())
    ensures GatewayDecodes(body) && !link.Up? ==> http == Http(HttpStatus(link.error), None)
    ensures GatewayDecodes(body) && !link.RequestLost? ==>
      server.Seen() == CreateOrder(old(server.Seen()), WireRequest(body), fault, keys).0
    ensures GatewayDecodes(body) && link.Up? ==>
      var outcome := CreateOrder(old(server.Seen()), WireRequest(body), fault, keys).1;
      var found := AllFound(old(server.Seen()), WireRequest(body), fault);
      && http.status == MonolithStatus(outcome)
      && http.status == (if !found then 400 else if fault == Save then 500 else 201)
      && http.payload == if outcome.Created? then Some(ToProto(outcome.order)) else None
    ensures InRange(body) ==> MonolithDecodes(body) && WireRequest(body) == MonolithRequest(body)
  {
    SameRequest(body);
    if !GatewayDecodes(body) {
      return Http(400, None);
    }
    var req := Translate(body);
    var r: RpcResult<ProtoOrder>;
    if link.RequestLost? {
      r := Err(link.error);
    } else {
      r := server.CreateOrder(req, fault, keys);
      if link.ReplyLost? {
        r := Err(link.error);
      }
    }
    if r.Err? {
      return Http(HttpStatus(r.error), None);
    }
    http := Http(201, Some(r.value));
  }

  /** `GET /api/orders/{id}`; the order service reports any database error as a missing order. */
  method GatewayGetOrder(server: OrderServer, id: string, link: Link, fault: bool) returns (http: Http<ProtoOrder>)
    ensures ParseUint32(id) == None ==> http == Http(400, None)
    ensures ParseUint32(id).Some? && !link.Up? ==> http == Http(HttpStatus(link.error), None)
    ensures ParseUint32(id).Some? && link.Up? && fault ==> http == Http(404, None)
    ensures link.Up? && !fault ==> GatewayReads(server.db.tables, id, http)
  {
    var n := ParseUint32(id);
    if n == None {
      return Http(400, None);
    }
    if !link.Up? {
      return Http(HttpStatus(link.error), None);
    }
    var r := server.GetOrder(n.value, fault);
    if r.Err? {
      return Http(HttpStatus(r.error), None);
    }
    http := Http(200, Some(r.value));
  }

  method ModelToProto(o: Order) returns (p: ProtoOrder)
    ensures p == ToProto(o)
  {
    var items := new ProtoItem[|o.items|](_ => ProtoItem(0, 0, 0, 0, 0.0));
    for i := 0 to |o.items|
      invariant items[..i] == Map(ToProtoItem, o.items)[..i]
    {
      var item := o.items[i];
      items[i] := ProtoItem(ToUint32(item.id), ToUint32(item.orderId), ToUint32(item.menuItemId),
                            ToInt32(item.quantity), item.price);
    }
    assert items[..] == Map(ToProtoItem, o.items);
    p := ProtoOrder(ToUint32(o.id), ToUint32(o.userId), o.status, items[..]);
  }

  // ---- When the HTTP form agrees ----------------------------------------------------------------

  function Narrow(items: seq<ItemRequest>): (r: seq<ItemRequest>)
    ensures |r| == |items|
  {
    seq(|items|, k requires 0 <= k < |items| => ItemRequest(ToUint32(items[k].menuItemId), items[k].quantity))
  }

  function NarrowRequest(req: OrderRequest): OrderRequest {
    OrderRequest(ToUint32(req.userId), Narrow(req.items))
  }

  /** Lines priced by narrowed ids, stored under the full ones. */
  function Widen(lines: seq<Line>, items: seq<ItemRequest>): (r: seq<Line>)
    requires |lines| == |items|
    ensures |r| == |lines|
  {
    seq(|lines|, k requires 0 <= k < |lines| => lines[k].(menuItemId := items[k].menuItemId))
  }

  /** As `PricedSoFar`, for lookups by narrowed ids. */
  ghost predicate NarrowPricedSoFar(menu: Menu, items: seq<ItemRequest>, fault: Fault, lines: seq<Line>) {
    && |lines| <= |items|
    && (forall j :: 0 <= j < |lines| ==> ToUint32(items[j].menuItemId) in menu && fault != ItemLookup(j))
    && (forall j :: 0 <= j < |lines| ==>
          lines[j] == Line(items[j].menuItemId, items[j].quantity, menu[ToUint32(items[j].menuItemId)].price))
  }

  ghost predicate HandlerKeysFit(s: Store, req: OrderRequest, fault: Fault, keys: Keys) {
    KeysFit(s, NarrowRequest(req), fault, keys)
  }

  /** The HTTP handler's effect on the store. */
  function NarrowCreateOrder(s: Store, req: OrderRequest, fault: Fault, keys: Keys): (r: (Store, Outcome))
    requires HandlerKeysFit(s, req, fault, keys)
  {
    if fault == UserLookup || ToUint32(req.userId) !in s.users then (s, UserNotFound)
    else
      var narrow := Narrow(req.items);
      var k := FirstFailure(s.menu, narrow, fault, 0);
      if k < |req.items| then (s, ItemNotFound(k))
      else if fault == Save then (s, SaveFailed)
      else
        var order := Saved(req.userId, Widen(Priced(s.menu, narrow), req.items), keys);
        (s.(tables := Insert(s.tables, order)), Created(order))
  }

  /** The stored record has the request's own ids, at the prices of what was looked up for them. */
  ghost predicate KeepsFullIds(s: Store, req: OrderRequest, o: Order) {
    && o.userId == req.userId && |o.items| == |req.items|
    && forall k :: 0 <= k < |req.items| ==>
         && o.items[k].menuItemId == req.items[k].menuItemId && o.items[k].quantity == req.items[k].quantity
         && MenuPrice(s.menu, ToUint32(req.items[k].menuItemId), o.items[k].price)
  }

  lemma NarrowStatus(s: Store, req: OrderRequest, fault: Fault, keys: Keys)
    requires HandlerKeysFit(s, req, fault, keys)
    ensures MonolithStatus(NarrowCreateOrder(s, req, fault, keys).1) ==
      if !AllFound(s, NarrowRequest(req), fault) then 400 else if fault == Save then 500 else 201
  {
    AnswersMean(s, NarrowRequest(req), fault, keys);
  }

  /** What the HTTP handler answers and stores: refused exactly if a narrowed id is missing, otherwise the full ids at its prices. */
  lemma NarrowMeaning(s: Store, req: OrderRequest, fault: Fault, keys: Keys)
    requires HandlerKeysFit(s, req, fault, keys)
    ensures var (s', outcome) := NarrowCreateOrder(s, req, fault, keys);
      && MonolithStatus(outcome) ==
           (if !AllFound(s, NarrowRequest(req), fault) then 400 else if fault == Save then 500 else 201)
      && (!outcome.Created? ==> s' == s)
      && (outcome.Created? ==>
            && KeepsFullIds(s, req, outcome.order) && s' == s.(tables := s'.tables)
            && (Referential(s.tables) ==> Loads(s'.tables, outcome.order)))
  {
    NarrowStatus(s, req, fault, keys);
    if NarrowCreateOrder(s, req, fault, keys).1.Created? {
      if Referential(s.tables) {
        CreateThenLoad(s.tables, req.userId, Widen(Priced(s.menu, Narrow(req.items)), req.items), keys);
      }
      forall k | 0 <= k < |req.items|
        ensures ToUint32(req.items[k].menuItemId) in s.menu
      {
        assert Narrow(req.items)[k].menuItemId in s.menu;
      }
    }
  }

  /** As `LoopDecides`, for the HTTP handler. */
  lemma NarrowDecides(s: Store, req: OrderRequest, fault: Fault, keys: Keys, lines: seq<Line>)
    requires HandlerKeysFit(s, req, fault, keys) && fault != UserLookup && ToUint32(req.userId) in s.users
    requires NarrowPricedSoFar(s.menu, req.items, fault, lines)
    ensures |lines| < |req.items| && (fault == ItemLookup(|lines|) || ToUint32(req.items[|lines|].menuItemId) !in s.menu) ==>
      NarrowCreateOrder(s, req, fault, keys) == (s, ItemNotFound(|lines|))
    ensures |lines| == |req.items| && fault == Save ==> NarrowCreateOrder(s, req, fault, keys) == (s, SaveFailed)
    ensures |lines| == |req.items| && fault != Save ==>
      && Fresh(s.tables, keys, |lines|)
      && var o := Saved(req.userId, lines, keys);
         NarrowCreateOrder(s, req, fault, keys) == (s.(tables := Insert(s.tables, o)), Created(o))
  {
    var narrow := Narrow(req.items);
    assert forall j :: 0 <= j < |narrow| ==> narrow[j].menuItemId == ToUint32(req.items[j].menuItemId);
    if |lines| < |req.items| && (fault == ItemLookup(|lines|) || narrow[|lines|].menuItemId !in s.menu) {
      assert FirstFailure(s.menu, narrow, fault, 0) == |lines|;
    }
    if |lines| == |req.items| {
      assert FirstFailure(s.menu, narrow, fault, 0) == |req.items|;
      assert lines == Widen(Priced(s.menu, narrow), req.items);
    }
  }

  ghost predicate AgreesOn(req: OrderRequest, s: Store, fault: Fault, keys: Keys) {
    KeysFit(s, req, fault, keys) && HandlerKeysFit(s, req, fault, keys) ==>
      NarrowCreateOrder(s, req, fault, keys) == CreateOrder(s, req, fault, keys)
  }

  ghost predicate PositiveKeys(s: Store) {
    (forall id :: id in s.users ==> id > 0) && (forall id :: id in s.menu ==> id > 0)
  }

  predicate ZeroBefore(items: seq<ItemRequest>, k: nat)
    requires k <= |items|
  {
    exists j :: 0 <= j < k && items[j].menuItemId == 0
  }

  /** No id from 2^32 on is looked up: there is none, or the lookup of a zero id before it fails. */
  predicate Agreeable(req: OrderRequest) {
    || req.userId == 0
    || (IsUint32(req.userId) &&
        forall k :: 0 <= k < |req.items| && !IsUint32(req.items[k].menuItemId) ==> ZeroBefore(req.items, k))
  }

  /** Both lookups get as far, and no further than the first zero id. */
  lemma SameFailure(menu: Menu, items: seq<ItemRequest>, fault: Fault)
    requires forall id :: id in menu ==> id > 0
    requires forall k :: 0 <= k < |items| && !IsUint32(items[k].menuItemId) ==> ZeroBefore(items, k)
    ensures FirstFailure(menu, items, fault, 0) == FirstFailure(menu, Narrow(items), fault, 0)
    ensures FirstFailure(menu, items, fault, 0) == |items| ==> Narrow(items) == items
  {
    var f, g := FirstFailure(menu, items, fault, 0), FirstFailure(menu, Narrow(items), fault, 0);
    FitsBefore(menu, items, fault, f);
    FitsBefore(menu, items, fault, g);
  }

  /** Up to a place that one of the two lookups reaches, all ids fit. */
  lemma FitsBefore(menu: Menu, items: seq<ItemRequest>, fault: Fault, f: nat)
    requires forall id :: id in menu ==> id > 0
    requires forall k :: 0 <= k < |items| && !IsUint32(items[k].menuItemId) ==> ZeroBefore(items, k)
    requires f <= |items|
    requires forall j :: 0 <= j < f ==> items[j].menuItemId in menu || Narrow(items)[j].menuItemId in menu
    ensures forall j :: 0 <= j <= f && j < |items| ==> Narrow(items)[j] == items[j]
  {
    assert !ZeroBefore(items, f);
  }

  lemma HandlerAgrees(req: OrderRequest, s: Store, fault: Fault, keys: Keys)
    requires Agreeable(req) && PositiveKeys(s)
    ensures AgreesOn(req, s, fault, keys)
  {
    if req.userId != 0 {
      SameFailure(s.menu, req.items, fault);
      if Accepts(s, req, fault) {
        assert Widen(Priced(s.menu, req.items), req.items) == Priced(s.menu, req.items);
      }
    }
  }

  const SOMEONE := User("", "", false)
  const SOMETHING := MenuItem("", "", 0.0)

  function SmallStore(user: Id, ids: set<Id>): Store {
    Store(map[user := SOMEONE], map id | id in ids :: SOMETHING, EMPTY_STORE.tables)
  }

  lemma {:induction false} SmallStoreIsReachable(user: Id, ids: set<Id>) returns (run: seq<Step>)
    requires user > 0 && forall id :: id in ids ==> id > 0
    ensures Exec(run).store == SmallStore(user, ids)
    decreases |ids|
  {
    if ids == {} {
      run := [CreateUser(user, SOMEONE)];
      assert run[..0] == [];
    } else {
      var id :| id in ids;
      var front := SmallStoreIsReachable(user, ids - {id});
      run := front + [CreateMenuItem(id, SOMETHING)];
      assert run[..|front|] == front;
    }
  }

  /** Of an id that does not fit and its narrowed form, the one that a table can hold, preferably the latter. */
  function OneOf(id: Id): (r: Id)
    requires !IsUint32(id)
    ensures r > 0 && (r == id <==> r != ToUint32(id))
  {
    if ToUint32(id) > 0 then ToUint32(id) else id
  }

  ghost function SomeKeys(n: nat): Keys {
    Keys(1, seq(n, (k: nat) => k + 1))
  }

  lemma UserDisagrees(req: OrderRequest)
    requires !IsUint32(req.userId)
    ensures !AgreesOn(req, SmallStore(OneOf(req.userId), {}), NoFault, SomeKeys(|req.items|))
  {
  }

  lemma ItemDisagrees(req: OrderRequest, k: nat, ids: set<Id>)
    requires IsUint32(req.userId) && k < |req.items| && !IsUint32(req.items[k].menuItemId)
    requires forall j :: 0 <= j < k ==> IsUint32(req.items[j].menuItemId) && req.items[j].menuItemId in ids
    requires req.items[k].menuItemId in ids <==> ToUint32(req.items[k].menuItemId) !in ids
    ensures !AgreesOn(req, SmallStore(req.userId, ids), NoFault, SomeKeys(|req.items|))
  {
    var s, narrow := SmallStore(req.userId, ids), Narrow(req.items);
    assert forall j :: 0 <= j < k ==> narrow[j] == req.items[j];
    assert narrow[k].menuItemId == ToUint32(req.items[k].menuItemId);
    var f, g := FirstFailure(s.menu, req.items, NoFault, 0), FirstFailure(s.menu, narrow, NoFault, 0);
    assert f >= k && g >= k && (f == k <==> g != k);
  }

  function IdsBefore(items: seq<ItemRequest>, k: nat): set<Id>
    requires k <= |items|
  {
    set j | 0 <= j < k :: items[j].menuItemId
  }

  lemma {:induction false} FirstUnfit(items: seq<ItemRequest>, k: nat) returns (first: nat)
    requires k < |items| && !IsUint32(items[k].menuItemId)
    ensures first <= k && !IsUint32(items[first].menuItemId)
    ensures forall j :: 0 <= j < first ==> IsUint32(items[j].menuItemId)
  {
    first := k;
    if !forall j :: 0 <= j < k ==> IsUint32(items[j].menuItemId) {
      var j :| 0 <= j < k && !IsUint32(items[j].menuItemId);
      first := FirstUnfit(items, j);
    }
  }

  /**
   * If an id from 2^32 on is looked up, some reachable store tells the two apart: the handler finds
   * what is not there, or, where it looks for the id 0, does not find what is.
   */
  lemma HandlerDisagrees(req: OrderRequest)
    requires !Agreeable(req)
    ensures exists run, fault, keys :: !AgreesOn(req, Exec(run).store, fault, keys)
  {
    var keys := SomeKeys(|req.items|);
    if !IsUint32(req.userId) {
      var run := SmallStoreIsReachable(OneOf(req.userId), {});
      UserDisagrees(req);
      assert !AgreesOn(req, Exec(run).store, NoFault, keys);
    } else {
      var some :| 0 <= some < |req.items| && !IsUint32(req.items[some].menuItemId) && !ZeroBefore(req.items, some);
      var k := FirstUnfit(req.items, some);
      var ids := IdsBefore(req.items, k) + {OneOf(req.items[k].menuItemId)};
      var run := SmallStoreIsReachable(req.userId, ids);
      ItemDisagrees(req, k, ids);
      assert !AgreesOn(req, Exec(run).store, NoFault, keys);
    }
  }

  /**
   * The HTTP form is the monolith's on every store that any run can reach exactly for the requests
   * whose lookups never come to an id from 2^32 on.
   */
  lemma HandlerAgreesIff(req: OrderRequest)
    ensures Agreeable(req) <==> forall run, fault, keys :: AgreesOn(req, Exec(run).store, fault, keys)
  {
    if Agreeable(req) {
      forall run, fault, keys
        ensures AgreesOn(req, Exec(run).store, fault, keys)
      {
        ReachableInv(run);
        HandlerAgrees(req, Exec(run).store, fault, keys);
      }
    } else {
      HandlerDisagrees(req);
    }
  }
}
