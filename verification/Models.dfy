/** The café's records and the order store: two tables joined on `OrderID`. */
module Models {
  import opened Collections

  /** Primary keys: GORM's `uint`, assigned by the database from 1 upwards. */
  type Id = nat

  datatype User = User(name: string, email: string, isCafeOwner: bool)

  /** Prices are only ever copied, so a real stands for the float64. */
  datatype MenuItem = MenuItem(name: string, description: string, price: real)

  type Users = map<Id, User>
  type Menu = map<Id, MenuItem>

  /** An order line as the creation loop builds it, before the database has given it keys. */
  datatype Line = Line(menuItemId: Id, quantity: int, price: real)

  /** The nested records that `Create` fills in and `Preload` reads back. */
  datatype OrderItem = OrderItem(id: Id, orderId: Id, menuItemId: Id, quantity: int, price: real)
  datatype Order = Order(id: Id, userId: Id, status: string, items: seq<OrderItem>)

  datatype OrderRow = OrderRow(userId: Id, status: string)
  datatype ItemRow = ItemRow(orderId: Id, menuItemId: Id, quantity: int, price: real)
  datatype Tables = Tables(orders: map<Id, OrderRow>, items: map<Id, ItemRow>)

  datatype Store = Store(users: Users, menu: Menu, tables: Tables)

  const EMPTY_STORE := Store(map[], map[], Tables(map[], map[]))

  /** Keys chosen by the database for one order and its lines. */
  datatype Keys = Keys(order: Id, items: seq<Id>)

  ghost predicate Fresh(t: Tables, keys: Keys, n: nat) {
    && keys.order > 0 && keys.order !in t.orders
    && |keys.items| == n && Distinct(keys.items)
    && forall k :: 0 <= k < n ==> keys.items[k] > 0 && keys.items[k] !in t.items
  }

  function ToRow(item: OrderItem): ItemRow {
    ItemRow(item.orderId, item.menuItemId, item.quantity, item.price)
  }

  function Keyed(lines: seq<Line>, keys: Keys): (r: seq<OrderItem>)
    requires |keys.items| == |lines|
  {
    seq(|lines|, k requires 0 <= k < |lines| =>
      OrderItem(keys.items[k], keys.order, lines[k].menuItemId, lines[k].quantity, lines[k].price))
  }

  /** The record as `Create` leaves it, keys filled in. */
  function Saved(userId: Id, lines: seq<Line>, keys: Keys): (o: Order)
    requires |keys.items| == |lines|
  {
    Order(keys.order, userId, "pending", Keyed(lines, keys))
  }

  ghost predicate DistinctKeys(items: seq<OrderItem>) {
    forall i, j :: 0 <= i < j < |items| ==> items[i].id != items[j].id
  }

  ghost predicate HasKey(items: seq<OrderItem>, id: Id) {
    exists k :: 0 <= k < |items| && items[k].id == id
  }

  lemma HasKeyAppend(items: seq<OrderItem>, item: OrderItem)
    ensures forall i :: HasKey(items + [item], i) <==> HasKey(items, i) || item.id == i
  {
    forall i
      ensures HasKey(items + [item], i) <==> HasKey(items, i) || item.id == i
    {
      if HasKey(items, i) {
        var k :| 0 <= k < |items| && items[k].id == i;
        assert (items + [item])[k].id == i;
      }
      if item.id == i {
        assert (items + [item])[|items|].id == i;
      }
    }
  }

  function InsertItems(rows: map<Id, ItemRow>, items: seq<OrderItem>): map<Id, ItemRow> {
    if items == [] then rows
    else
      var last := items[|items| - 1];
      InsertItems(rows, items[..|items| - 1])[last.id := ToRow(last)]
  }

  /** Exactly the given rows are added, and all others stay. */
  lemma {:induction false} InsertItemsRows(rows: map<Id, ItemRow>, items: seq<OrderItem>)
    ensures var r := InsertItems(rows, items);
      && (forall id :: id in r <==> id in rows || HasKey(items, id))
      && (forall id :: id in rows && !HasKey(items, id) ==> r[id] == rows[id])
      && (DistinctKeys(items) ==> forall k :: 0 <= k < |items| ==> items[k].id in r && r[items[k].id] == ToRow(items[k]))
  {
    if items != [] {
      var front, last := items[..|items| - 1], items[|items| - 1];
      assert items == front + [last];
      HasKeyAppend(front, last);
      InsertItemsRows(rows, front);
    }
  }

  /** `DB.Create(&order)`: one order row and one row per line, all or nothing. */
  function Insert(t: Tables, o: Order): Tables {
    Tables(t.orders[o.id := OrderRow(o.userId, o.status)], InsertItems(t.items, o.items))
  }

  /** `Preload("OrderItems")`: `items` are the rows whose `order_id` is `id`, each once, in some order. */
  ghost predicate Preloads(t: Tables, id: Id, items: seq<OrderItem>) {
    && DistinctKeys(items)
    && (forall k :: 0 <= k < |items| ==>
          && items[k].orderId == id && items[k].id in t.items && t.items[items[k].id] == ToRow(items[k]))
    && (forall i :: i in t.items && t.items[i].orderId == id ==> HasKey(items, i))
  }

  /** `o` is what `Preload(...).First(&order, o.id)` may put together from the two tables. */
  ghost predicate Loads(t: Tables, o: Order) {
    && o.id in t.orders && t.orders[o.id] == OrderRow(o.userId, o.status)
    && Preloads(t, o.id, o.items)
  }

  ghost predicate Referential(t: Tables) {
    forall i :: i in t.items ==> t.items[i].orderId in t.orders
  }

  /** What was created is what is read back, and nobody else's lines are in it. */
  lemma CreateThenLoad(t: Tables, userId: Id, lines: seq<Line>, keys: Keys)
    requires Referential(t) && Fresh(t, keys, |lines|)
    ensures var o := Saved(userId, lines, keys);
      Loads(Insert(t, o), o) && Referential(Insert(t, o))
  {
    var o := Saved(userId, lines, keys);
    var t' := Insert(t, o);
    InsertItemsRows(t.items, o.items);
    forall i | i in t'.items
      ensures t'.items[i].orderId in t'.orders
      ensures t'.items[i].orderId == o.id ==> HasKey(o.items, i)
    {
      if !HasKey(o.items, i) {
        assert t'.items[i] == t.items[i];
      }
    }
  }

  /** A commit leaves every other order's join exactly as it was. */
  lemma CreateKeepsOthers(t: Tables, o: Order, userId: Id, lines: seq<Line>, keys: Keys)
    requires Fresh(t, keys, |lines|) && Loads(t, o)
    ensures Loads(Insert(t, Saved(userId, lines, keys)), o)
  {
    var added := Saved(userId, lines, keys);
    var t' := Insert(t, added);
    InsertItemsRows(t.items, added.items);
    forall i | i in t'.items && t'.items[i].orderId == o.id
      ensures HasKey(o.items, i)
    {
      assert !HasKey(added.items, i);
      assert i in t.items && t.items[i].orderId == o.id;
    }
    forall k | 0 <= k < |o.items|
      ensures o.items[k].id in t'.items && t'.items[o.items[k].id] == ToRow(o.items[k])
    {
      assert !HasKey(added.items, o.items[k].id);
    }
  }

  /** The order's keys are distinct and none of them is taken. */
  ghost predicate KeysFree(t: Tables, o: Order) {
    && o.id !in t.orders && DistinctKeys(o.items)
    && forall id :: HasKey(o.items, id) ==> id !in t.items
  }

  lemma InsertItemsSwap(rows: map<Id, ItemRow>, a: seq<OrderItem>, b: seq<OrderItem>)
    requires DistinctKeys(a) && DistinctKeys(b) && forall id :: !(HasKey(a, id) && HasKey(b, id))
    ensures InsertItems(InsertItems(rows, a), b) == InsertItems(InsertItems(rows, b), a)
  {
    InsertItemsRows(rows, a);
    InsertItemsRows(rows, b);
    InsertItemsRows(InsertItems(rows, a), b);
    InsertItemsRows(InsertItems(rows, b), a);
    var l, r := InsertItems(InsertItems(rows, a), b), InsertItems(InsertItems(rows, b), a);
    forall id | id in l
      ensures id in r && r[id] == l[id]
    {
      if HasKey(a, id) {
        var k :| 0 <= k < |a| && a[k].id == id;
        assert l[id] == ToRow(a[k]) == r[id];
      } else if HasKey(b, id) {
        var k :| 0 <= k < |b| && b[k].id == id;
        assert l[id] == ToRow(b[k]) == r[id];
      }
    }
  }

  /** Two readings of one order differ at most in the order of the lines. */
  lemma LoadsAgree(t: Tables, a: Order, b: Order)
    requires Loads(t, a) && Loads(t, b) && a.id == b.id
    ensures a.userId == b.userId && a.status == b.status && multiset(a.items) == multiset(b.items)
  {
    PreloadsWithin(t, a, b);
    PreloadsWithin(t, b, a);
    var items := set x | x in a.items;
    assert Enumerates(a.items, items) && Enumerates(b.items, items);
    EnumerationsAgree(a.items, b.items, items);
  }

  lemma PreloadsWithin(t: Tables, a: Order, b: Order)
    requires Loads(t, a) && Loads(t, b) && a.id == b.id
    ensures forall x :: x in a.items ==> x in b.items
  {
  }
}
