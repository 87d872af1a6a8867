/**
 * Runs in which the menu may be edited: which of them are still runs of the atomic monolith,
 * whatever instants one picks for the orders.
 *
 * A choice of instants is a sequence of blocks, one for each state of the run: block `n` holds
 * the orders that take effect, whole, in the state after `n` steps.
 */
module Linearizability {
  import opened Collections
  import opened Models
  import opened Monolith
  import opened Gateway
  import opened Protocol
  import opened Refinement
  import opened Histories

  // ---- Choosing instants --------------------------------------------------------------------

  type Blocks = seq<seq<Atomic>>

  /** What a step does by itself: additions and edits stay where they are, orders are placed by the blocks. */
  ghost function OwnEffect(s: State, step: Step): seq<Atomic> {
    match PointOf(s, step)
    case Some(a) => if a.PlaceOrder? then [] else [a]
    case None => []
  }

  /** The run's additions and edits with the blocks' orders woven in at their instants. */
  ghost function Woven(run: seq<Step>, blocks: Blocks): seq<Atomic>
    requires |blocks| == |run| + 1
  {
    if run == [] then blocks[0]
    else
      var front := run[..|run| - 1];
      Woven(front, blocks[..|run|]) + OwnEffect(Exec(front), run[|run| - 1]) + blocks[|run|]
  }

  ghost predicate OnlyOrders(blocks: Blocks) {
    forall n, j :: 0 <= n < |blocks| && 0 <= j < |blocks[n]| ==> blocks[n][j].PlaceOrder?
  }

  /** An order of this run (its request, faults and keys), at an instant when its call was in flight. */
  ghost predicate InWindow(run: seq<Step>, n: nat, a: Atomic)
    requires n <= |run|
  {
    a.PlaceOrder? && a in Linearize(run) && InFlight(Exec(run[..n]), a.c)
  }

  /** Every order of the blocks belongs to the run and sits in its own call. */
  ghost predicate InWindows(run: seq<Step>, blocks: Blocks) {
    |blocks| == |run| + 1 &&
    forall n, j :: 0 <= n < |blocks| && 0 <= j < |blocks[n]| ==> InWindow(run, n, blocks[n][j])
  }

  ghost predicate Explains(run: seq<Step>, blocks: Blocks) {
    InWindows(run, blocks) && DoAll(Woven(run, blocks)) == Some(Abs(Exec(run)))
  }

  /** Some choice of instants, each within its call, makes the run a run of the monolith. */
  ghost predicate Linearizable(run: seq<Step>) {
    exists blocks :: Explains(run, blocks)
  }

  // ---- The condition --------------------------------------------------------------------------

  ghost predicate ShownTogether(menu: Menu, items: seq<OrderItem>) {
    forall k :: 0 <= k < |items| ==> MenuPrice(menu, items[k].menuItemId, items[k].price)
  }

  /** In this state the order's user exists and the menu shows all its prices at once. */
  ghost predicate Coherent(s: State, o: Order) {
    o.userId in s.store.users && ShownTogether(s.store.menu, o.items)
  }

  ghost predicate CoherentAt(run: seq<Step>, c: CallId, o: Order, n: nat) {
    n <= |run| && InFlight(Exec(run[..n]), c) && Coherent(Exec(run[..n]), o)
  }

  ghost predicate HasInstant(run: seq<Step>, c: CallId)
    requires Committed(Exec(run), c)
  {
    exists n: nat :: CoherentAt(run, c, OrderOf(Exec(run), c), n)
  }

  ghost predicate AllHaveInstants(run: seq<Step>) {
    forall c :: Committed(Exec(run), c) ==> HasInstant(run, c)
  }

  // ---- A monolith run sees the run's own users and menu ------------------------------------------

  /** The last order of the last block is the last of the trace. */
  lemma WovenLast(run: seq<Step>, blocks: Blocks)
    requires |blocks| == |run| + 1 && blocks[|run|] != []
    ensures var last := blocks[|run|]; var shorter := blocks[|run| := last[..|last| - 1]];
      Woven(run, blocks) == Woven(run, shorter) + [last[|last| - 1]]
  {
    var last := blocks[|run|];
    var shorter := blocks[|run| := last[..|last| - 1]];
    assert last == last[..|last| - 1] + [last[|last| - 1]];
    assert shorter[..|run|] == blocks[..|run|];
  }

  /** A trace that ends without orders ends with the last step's own effect. */
  lemma WovenStep(run: seq<Step>, blocks: Blocks)
    requires run != [] && |blocks| == |run| + 1 && blocks[|run|] == []
    ensures Woven(run, blocks) ==
      Woven(run[..|run| - 1], blocks[..|run|]) + OwnEffect(Exec(run[..|run| - 1]), run[|run| - 1])
  {
  }

  ghost predicate SeesStore(m: MonolithState, s: State) {
    m.store.users == s.store.users && m.store.menu == s.store.menu
  }

  lemma OwnEffectSees(s: State, step: Step, trace: seq<Atomic>)
    requires DoAll(trace + OwnEffect(s, step)).Some?
    requires DoAll(trace).Some? ==> SeesStore(DoAll(trace).value, s)
    ensures DoAll(trace).Some? && SeesStore(DoAll(trace + OwnEffect(s, step)).value, Apply(s, step))
    ensures DoAll(trace + OwnEffect(s, step)).value.outcomes == DoAll(trace).value.outcomes
  {
    if OwnEffect(s, step) == [] {
      assert trace + OwnEffect(s, step) == trace;
    } else {
      DoAllMore(trace, OwnEffect(s, step)[0]);
    }
  }

  lemma OrderSees(trace: seq<Atomic>, a: Atomic)
    requires a.PlaceOrder? && DoAll(trace + [a]).Some?
    ensures DoAll(trace).Some?
    ensures var m, m' := DoAll(trace).value, DoAll(trace + [a]).value;
      m'.store.users == m.store.users && m'.store.menu == m.store.menu
  {
    DoAllMore(trace, a);
  }

  lemma OnlyOrdersShorter(blocks: Blocks, n: nat)
    requires OnlyOrders(blocks) && n < |blocks| && blocks[n] != []
    ensures blocks[n][|blocks[n]| - 1].PlaceOrder?
    ensures OnlyOrders(blocks[n := blocks[n][..|blocks[n]| - 1]])
  {
  }

  lemma {:induction false} WovenSees(run: seq<Step>, blocks: Blocks)
    requires |blocks| == |run| + 1 && OnlyOrders(blocks) && DoAll(Woven(run, blocks)).Some?
    ensures SeesStore(DoAll(Woven(run, blocks)).value, Exec(run))
    decreases |run|, |blocks[|run|]|
  {
    var last := blocks[|run|];
    if last != [] {
      var shorter := blocks[|run| := last[..|last| - 1]];
      OnlyOrdersShorter(blocks, |run|);
      WovenLast(run, blocks);
      OrderSees(Woven(run, shorter), last[|last| - 1]);
      WovenSees(run, shorter);
    } else if run != [] {
      var front := run[..|run| - 1];
      WovenStep(run, blocks);
      if DoAll(Woven(front, blocks[..|run|])).Some? {
        WovenSees(front, blocks[..|run|]);
      }
      OwnEffectSees(Exec(front), run[|run| - 1], Woven(front, blocks[..|run|]));
    }
  }

  // ---- Only if: a created order had an instant -----------------------------------------------------

  lemma CreatedIsCoherent(m: MonolithState, a: Atomic, s: State, o: Order)
    requires a.PlaceOrder? && Do(m, a).Some? && SeesStore(m, s)
    requires Do(m, a).value.outcomes[a.c] == Created(o)
    ensures Coherent(s, o)
  {
    CreateOrderMeaning(m.store, a.req, a.fault, a.keys);
    forall k | 0 <= k < |o.items|
      ensures MenuPrice(s.store.menu, o.items[k].menuItemId, o.items[k].price)
    {
      assert ItemOk(m.store, a.req, a.fault, k);
    }
  }

  ghost predicate PlacedIn(run: seq<Step>, blocks: Blocks, c: CallId, o: Order, n: nat, j: nat) {
    && |blocks| == |run| + 1 && n <= |run| && j < |blocks[n]|
    && blocks[n][j].PlaceOrder? && blocks[n][j].c == c && Coherent(Exec(run[..n]), o)
  }

  /** The order placed last is created from what the run's last state shows; all others were there before. */
  lemma LastOrder(run: seq<Step>, trace: seq<Atomic>, a: Atomic, c: CallId, o: Order)
    requires a.PlaceOrder? && DoAll(trace + [a]).Some?
    requires DoAll(trace).Some? ==> SeesStore(DoAll(trace).value, Exec(run))
    requires var m := DoAll(trace + [a]).value; c in m.outcomes && m.outcomes[c] == Created(o)
    ensures DoAll(trace).Some?
    ensures if a.c == c then Coherent(Exec(run), o)
      else c in DoAll(trace).value.outcomes && DoAll(trace).value.outcomes[c] == Created(o)
  {
    DoAllMore(trace, a);
    if a.c == c {
      CreatedIsCoherent(DoAll(trace).value, a, Exec(run), o);
    }
  }

  lemma PlacedInMore(run: seq<Step>, blocks: Blocks, more: Blocks, c: CallId, o: Order, n: nat, j: nat)
    requires PlacedIn(run, blocks, c, o, n, j) && |more| == |blocks|
    requires forall i :: 0 <= i < |blocks| ==> blocks[i] <= more[i]
    ensures PlacedIn(run, more, c, o, n, j)
  {
    assert blocks[n] <= more[n];
  }

  lemma PlacedInLonger(run: seq<Step>, blocks: Blocks, c: CallId, o: Order, n: nat, j: nat)
    requires run != [] && |blocks| == |run| + 1
    requires PlacedIn(run[..|run| - 1], blocks[..|run|], c, o, n, j)
    ensures PlacedIn(run, blocks, c, o, n, j)
  {
    assert run[..|run| - 1][..n] == run[..n];
  }

  /** Wherever orders are woven in, an order the monolith creates was coherent at its own instant. */
  lemma {:induction false} CreatedHadInstant(run: seq<Step>, blocks: Blocks, c: CallId, o: Order)
    requires |blocks| == |run| + 1 && OnlyOrders(blocks) && DoAll(Woven(run, blocks)).Some?
    requires var m := DoAll(Woven(run, blocks)).value; c in m.outcomes && m.outcomes[c] == Created(o)
    ensures exists n: nat, j: nat :: PlacedIn(run, blocks, c, o, n, j)
    decreases |run|, |blocks[|run|]|
  {
    var last := blocks[|run|];
    if last != [] {
      var shorter, a := blocks[|run| := last[..|last| - 1]], last[|last| - 1];
      OnlyOrdersShorter(blocks, |run|);
      WovenLast(run, blocks);
      if DoAll(Woven(run, shorter)).Some? {
        WovenSees(run, shorter);
      }
      LastOrder(run, Woven(run, shorter), a, c, o);
      if a.c == c {
        assert run[..|run|] == run;
        assert PlacedIn(run, blocks, c, o, |run|, |last| - 1);
      } else {
        CreatedHadInstant(run, shorter, c, o);
        var n: nat, j: nat :| PlacedIn(run, shorter, c, o, n, j);
        PlacedInMore(run, shorter, blocks, c, o, n, j);
      }
    } else if run != [] {
      var front := run[..|run| - 1];
      WovenStep(run, blocks);
      if DoAll(Woven(front, blocks[..|run|])).Some? {
        WovenSees(front, blocks[..|run|]);
      }
      OwnEffectSees(Exec(front), run[|run| - 1], Woven(front, blocks[..|run|]));
      CreatedHadInstant(front, blocks[..|run|], c, o);
      var n: nat, j: nat :| PlacedIn(front, blocks[..|run|], c, o, n, j);
      PlacedInLonger(run, blocks, c, o, n, j);
    }
  }

  lemma LinearizableHasInstants(run: seq<Step>, blocks: Blocks)
    requires Explains(run, blocks)
    ensures AllHaveInstants(run)
  {
    forall n, j | 0 <= n < |blocks| && 0 <= j < |blocks[n]|
      ensures blocks[n][j].PlaceOrder?
    {
      assert InWindow(run, n, blocks[n][j]);
    }
    forall c | Committed(Exec(run), c)
      ensures HasInstant(run, c)
    {
      var o := OrderOf(Exec(run), c);
      CreatedHadInstant(run, blocks, c, o);
      var n: nat, j: nat :| PlacedIn(run, blocks, c, o, n, j);
      assert InWindow(run, n, blocks[n][j]);
      assert CoherentAt(run, c, o, n);
    }
  }

  // ---- If: an order can be moved to any instant that shows its prices -----------------------------

  /** A monolith state with one more order in it. */
  ghost function With(m: MonolithState, c: CallId, o: Order): MonolithState {
    MonolithState(m.store.(tables := Insert(m.store.tables, o)), m.outcomes[c := Created(o)])
  }

  /** The order could still be created: nobody has its call id or any of its keys. */
  ghost predicate Room(m: MonolithState, c: CallId, o: Order) {
    c !in m.outcomes && KeysFree(m.store.tables, o)
  }

  lemma RoomBefore(m: MonolithState, a: Atomic, c: CallId, o: Order)
    requires Do(m, a).Some? && Room(Do(m, a).value, c, o)
    ensures Room(m, c, o)
  {
    if a.PlaceOrder? {
      var outcome := CreateOrder(m.store, a.req, a.fault, a.keys).1;
      if outcome.Created? {
        InsertItemsRows(m.store.tables.items, outcome.order.items);
      }
    }
  }

  /** Two new orders have no key in common. */
  lemma NewKeysDiffer(t: Tables, o: Order, d: Order)
    requires KeysFree(Insert(t, d), o)
    ensures o.id != d.id && forall id :: !(HasKey(o.items, id) && HasKey(d.items, id))
  {
    InsertItemsRows(t.items, d.items);
  }

  lemma FreshBeside(t: Tables, o: Order, userId: Id, lines: seq<Line>, keys: Keys)
    requires Fresh(t, keys, |lines|) && KeysFree(Insert(t, Saved(userId, lines, keys)), o)
    ensures Fresh(Insert(t, o), keys, |lines|)
  {
    var d := Saved(userId, lines, keys);
    NewKeysDiffer(t, o, d);
    InsertItemsRows(t.items, o.items);
    forall k | 0 <= k < |lines|
      ensures keys.items[k] !in Insert(t, o).items
    {
      assert d.items[k].id == keys.items[k];
      assert HasKey(d.items, keys.items[k]);
    }
  }

  lemma InsertSwap(t: Tables, o: Order, d: Order)
    requires DistinctKeys(d.items) && KeysFree(Insert(t, d), o)
    ensures Insert(Insert(t, o), d) == Insert(Insert(t, d), o)
  {
    NewKeysDiffer(t, o, d);
    InsertItemsSwap(t.items, o.items, d.items);
  }

  /** Adding an order and any other action can be swapped. */
  lemma Commutes(m: MonolithState, a: Atomic, c: CallId, o: Order)
    requires Do(m, a).Some? && Room(Do(m, a).value, c, o)
    ensures Do(With(m, c, o), a) == Some(With(Do(m, a).value, c, o))
  {
    if a.PlaceOrder? {
      var (store, outcome) := CreateOrder(m.store, a.req, a.fault, a.keys);
      if outcome.Created? {
        FreshBeside(m.store.tables, o, a.req.userId, Priced(m.store.menu, a.req.items), a.keys);
        InsertSwap(m.store.tables, o, outcome.order);
      }
      assert m.outcomes[c := Created(o)][a.c := outcome] == m.outcomes[a.c := outcome][c := Created(o)];
    }
  }

  /** An order created earlier in a trace could as well have been created last. */
  lemma {:induction false} CommutesWithAll(trace: seq<Atomic>, a: Atomic, rest: seq<Atomic>, c: CallId, o: Order)
    requires DoAll(trace + rest).Some? && Room(DoAll(trace + rest).value, c, o)
    requires DoAll(trace).Some? && Room(DoAll(trace).value, c, o) ==>
      DoAll(trace + [a]) == Some(With(DoAll(trace).value, c, o))
    ensures DoAll(trace + [a] + rest) == Some(With(DoAll(trace + rest).value, c, o))
  {
    if rest == [] {
      assert trace + rest == trace && trace + [a] + rest == trace + [a];
    } else {
      var front, b := rest[..|rest| - 1], rest[|rest| - 1];
      assert trace + rest == trace + front + [b] && trace + [a] + rest == trace + [a] + front + [b];
      DoAllMore(trace + front, b);
      DoAllMore(trace + [a] + front, b);
      RoomBefore(DoAll(trace + front).value, b, c, o);
      CommutesWithAll(trace, a, front, c, o);
      Commutes(DoAll(trace + front).value, b, c, o);
    }
  }

  /** What comes after block `n`. */
  ghost function After(run: seq<Step>, blocks: Blocks, n: nat): seq<Atomic>
    requires |blocks| == |run| + 1 && n <= |run|
  {
    if n == |run| then []
    else
      var front := run[..|run| - 1];
      After(front, blocks[..|run|], n) + OwnEffect(Exec(front), run[|run| - 1]) + blocks[|run|]
  }

  lemma Regroup<X>(a: seq<X>, b: seq<X>, c: seq<X>, d: seq<X>)
    ensures a + b + c + d == a + (b + c + d)
  {
  }

  lemma {:induction false} WovenSplit(run: seq<Step>, blocks: Blocks, n: nat)
    requires |blocks| == |run| + 1 && n <= |run|
    ensures Woven(run, blocks) == Woven(run[..n], blocks[..n + 1]) + After(run, blocks, n)
  {
    if n == |run| {
      assert run[..n] == run && blocks[..n + 1] == blocks;
    } else {
      var front, init := run[..|run| - 1], blocks[..|run|];
      WovenSplit(front, init, n);
      assert front[..n] == run[..n] && init[..n + 1] == blocks[..n + 1];
      Regroup(Woven(run[..n], blocks[..n + 1]), After(front, init, n),
              OwnEffect(Exec(front), run[|run| - 1]), blocks[|run|]);
    }
  }

  lemma {:induction false} AfterIgnores(run: seq<Step>, blocks: Blocks, n: nat, block: seq<Atomic>)
    requires |blocks| == |run| + 1 && n <= |run|
    ensures After(run, blocks[n := block], n) == After(run, blocks, n)
  {
    if n < |run| {
      AfterIgnores(run[..|run| - 1], blocks[..|run|], n, block);
      assert blocks[n := block][..|run|] == blocks[..|run|][n := block];
    }
  }

  /** Putting one more order at the end of block `n`. */
  lemma WovenInsert(run: seq<Step>, blocks: Blocks, n: nat, a: Atomic)
    requires |blocks| == |run| + 1 && n <= |run|
    ensures Woven(run, blocks[n := blocks[n] + [a]]) ==
      Woven(run[..n], blocks[..n + 1]) + [a] + After(run, blocks, n)
  {
    var more := blocks[n := blocks[n] + [a]];
    WovenSplit(run, more, n);
    AfterIgnores(run, blocks, n, blocks[n] + [a]);
    WovenLast(run[..n], more[..n + 1]);
    assert more[n] == blocks[n] + [a] && (blocks[n] + [a])[..|blocks[n]|] == blocks[n];
    assert more[..n + 1][n := blocks[n]] == blocks[..n + 1];
  }

  // ---- The choice of instants, built along the run --------------------------------------------------

  lemma WindowsStay(run: seq<Step>, blocks: Blocks)
    requires run != [] && InWindows(run[..|run| - 1], blocks)
    ensures InWindows(run, blocks + [[]])
  {
    var front := run[..|run| - 1];
    forall n, j | 0 <= n < |blocks| && 0 <= j < |blocks[n]|
      ensures InWindow(run, n, (blocks + [[]])[n][j])
    {
      assert InWindow(front, n, blocks[n][j]);
      assert front[..n] == run[..n];
    }
  }

  lemma WindowsMore(run: seq<Step>, blocks: Blocks, n: nat, a: Atomic)
    requires InWindows(run, blocks) && n <= |run| && InWindow(run, n, a)
    ensures InWindows(run, blocks[n := blocks[n] + [a]])
  {
  }

  lemma WovenQuiet(run: seq<Step>, blocks: Blocks)
    requires run != [] && |blocks| == |run|
    ensures Woven(run, blocks + [[]]) ==
      Woven(run[..|run| - 1], blocks) + OwnEffect(Exec(run[..|run| - 1]), run[|run| - 1])
  {
    assert (blocks + [[]])[..|run|] == blocks;
    WovenStep(run, blocks + [[]]);
  }

  /** A step that places no order, or an invisible one, needs no new instant. */
  lemma QuietStep(run: seq<Step>, blocks: Blocks)
    requires run != [] && Explains(run[..|run| - 1], blocks)
    requires var s, last := Exec(run[..|run| - 1]), run[|run| - 1];
      PointRefines(s, last) && (PointOf(s, last).Some? ==> !PointOf(s, last).value.PlaceOrder?)
    ensures Explains(run, blocks + [[]])
  {
    var front, last := run[..|run| - 1], run[|run| - 1];
    WindowsStay(run, blocks);
    WovenQuiet(run, blocks);
    if PointOf(Exec(front), last).Some? {
      DoAllMore(Woven(front, blocks), PointOf(Exec(front), last).value);
    } else {
      assert Woven(front, blocks) + [] == Woven(front, blocks);
    }
  }

  lemma PointInWindow(run: seq<Step>, n: nat)
    requires run != [] && n < |run|
    requires var point := PointOf(Exec(run[..|run| - 1]), run[|run| - 1]);
      point.Some? && point.value.PlaceOrder? && InFlight(Exec(run[..n]), point.value.c)
    ensures InWindow(run, n, PointOf(Exec(run[..|run| - 1]), run[|run| - 1]).value)
  {
    var point := PointOf(Exec(run[..|run| - 1]), run[|run| - 1]).value;
    assert Linearize(run) == Linearize(run[..|run| - 1]) + [point];
  }

  lemma WindowsPlace(run: seq<Step>, blocks: Blocks, n: nat, a: Atomic)
    requires run != [] && InWindows(run[..|run| - 1], blocks) && n < |run| && InWindow(run, n, a)
    ensures InWindows(run, blocks[n := blocks[n] + [a]] + [[]])
  {
    WindowsStay(run, blocks);
    WindowsMore(run, blocks + [[]], n, a);
    assert (blocks + [[]])[n := (blocks + [[]])[n] + [a]] == blocks[n := blocks[n] + [a]] + [[]];
  }

  /** A trace that already has the new order in one of its blocks is one for the whole run. */
  lemma PlaceAt(run: seq<Step>, blocks: Blocks)
    requires run != [] && |blocks| == |run| && InWindows(run, blocks + [[]])
    requires OwnEffect(Exec(run[..|run| - 1]), run[|run| - 1]) == []
    requires DoAll(Woven(run[..|run| - 1], blocks)) == Some(Abs(Exec(run)))
    ensures Linearizable(run)
  {
    WovenQuiet(run, blocks);
    assert Woven(run[..|run| - 1], blocks) + [] == Woven(run[..|run| - 1], blocks);
    assert Explains(run, blocks + [[]]);
  }

  lemma AppendOrder(run: seq<Step>, blocks: Blocks, a: Atomic)
    requires |blocks| == |run| + 1
    ensures Woven(run, blocks[|run| := blocks[|run|] + [a]]) == Woven(run, blocks) + [a]
  {
    var more := blocks[|run| := blocks[|run|] + [a]];
    WovenLast(run, more);
    assert (blocks[|run|] + [a])[..|blocks[|run|]|] == blocks[|run|];
    assert more[|run| := blocks[|run|]] == blocks;
  }

  /** A refused or unsaved order takes effect right where it is settled. */
  lemma RefusalStep(run: seq<Step>, blocks: Blocks, a: Atomic)
    requires run != [] && Explains(run[..|run| - 1], blocks)
    requires var s, last := Exec(run[..|run| - 1]), run[|run| - 1];
      PointRefines(s, last) && PointOf(s, last) == Some(a) && a.PlaceOrder? && InFlight(s, a.c)
    ensures Linearizable(run)
  {
    var front := run[..|run| - 1];
    AppendOrder(front, blocks, a);
    DoAllMore(Woven(front, blocks), a);
    PointInWindow(run, |front|);
    WindowsPlace(run, blocks, |front|, a);
    PlaceAt(run, blocks[|front| := blocks[|front|] + [a]]);
  }

  /** At a coherent instant the monolith, with room for the order, creates exactly it. */
  lemma CoherentCreates(m: MonolithState, s: State, call: Call, c: CallId, lines: seq<Line>, keys: Keys)
    requires CallSound(s.store, call) && call.phase == Pricing(lines) && |lines| == |Req(call).items| == |keys.items|
    requires var o := Saved(Req(call).userId, lines, keys);
      && Room(m, c, o) && Fresh(m.store.tables, keys, |lines|)
      && o.userId in m.store.users && ShownTogether(m.store.menu, o.items)
    ensures Do(m, PlaceOrder(c, Req(call), NoFault, keys)) == Some(With(m, c, Saved(Req(call).userId, lines, keys)))
  {
    var o, items := Saved(Req(call).userId, lines, keys), Req(call).items;
    forall k | 0 <= k < |items|
      ensures items[k].menuItemId in m.store.menu
      ensures lines[k] == Line(items[k].menuItemId, items[k].quantity, m.store.menu[items[k].menuItemId].price)
    {
      assert MatchesItem(s.store.menu, items[k], lines[k].menuItemId, lines[k].quantity);
      assert MenuPrice(m.store.menu, o.items[k].menuItemId, o.items[k].price);
    }
    assert Priced(m.store.menu, items) == lines;
    assert FirstFailure(m.store.menu, items, NoFault, 0) == |items|;
  }

  lemma FreeIsFresh(t: Tables, later: Tables, userId: Id, lines: seq<Line>, keys: Keys)
    requires Fresh(later, keys, |lines|) && KeysFree(t, Saved(userId, lines, keys))
    ensures Fresh(t, keys, |lines|)
  {
    forall k | 0 <= k < |lines|
      ensures keys.items[k] !in t.items
    {
      assert Keyed(lines, keys)[k].id == keys.items[k];
      assert HasKey(Saved(userId, lines, keys).items, keys.items[k]);
    }
  }

  lemma FreshIsFree(t: Tables, userId: Id, lines: seq<Line>, keys: Keys)
    requires Fresh(t, keys, |lines|)
    ensures KeysFree(t, Saved(userId, lines, keys))
  {
  }

  lemma BlocksAreOrders(run: seq<Step>, blocks: Blocks, n: nat)
    requires InWindows(run, blocks) && n <= |run|
    ensures OnlyOrders(blocks[..n + 1])
  {
    forall i, j | 0 <= i < n + 1 && 0 <= j < |blocks[i]|
      ensures blocks[i][j].PlaceOrder?
    {
      assert InWindow(run, i, blocks[i][j]);
    }
  }

  /** The saved order, put at its coherent instant among those already placed, takes effect as it was saved. */
  lemma SaveMoves(run: seq<Step>, blocks: Blocks, n: nat, c: CallId, keys: Keys)
    requires Explains(run, blocks) && Enabled(Exec(run), Commit(c, false, keys)) && n <= |run|
    requires Coherent(Exec(run[..n]), Saved(Req(Exec(run).calls[c]).userId, Exec(run).calls[c].phase.lines, keys))
    ensures var a := PlaceOrder(c, Req(Exec(run).calls[c]), NoFault, keys);
      DoAll(Woven(run, blocks[n := blocks[n] + [a]])) == Some(Abs(Next(Exec(run), Commit(c, false, keys))))
  {
    var s := Exec(run);
    var call := s.calls[c];
    var lines, userId := call.phase.lines, Req(call).userId;
    var o, a := Saved(userId, lines, keys), PlaceOrder(c, Req(call), NoFault, keys);
    var trace, rest := Woven(run[..n], blocks[..n + 1]), After(run, blocks, n);
    ReachableInv(run);
    WovenSplit(run, blocks, n);
    FreshIsFree(s.store.tables, userId, lines, keys);
    if DoAll(trace).Some? && Room(DoAll(trace).value, c, o) {
      var m := DoAll(trace).value;
      BlocksAreOrders(run, blocks, n);
      WovenSees(run[..n], blocks[..n + 1]);
      FreeIsFresh(m.store.tables, s.store.tables, userId, lines, keys);
      DoAllMore(trace, a);
      CoherentCreates(m, s, call, c, lines, keys);
    }
    CommutesWithAll(trace, a, rest, c, o);
    WovenInsert(run, blocks, n, a);
    CommitAbs(s, c, false, keys);
  }

  lemma SaveStep(run: seq<Step>, blocks: Blocks, n: nat)
    requires run != [] && Explains(run[..|run| - 1], blocks) && n < |run|
    requires var s, last := Exec(run[..|run| - 1]), run[|run| - 1];
      && last.Commit? && !last.fault && Enabled(s, last) && InFlight(Exec(run[..n]), last.c)
      && Coherent(Exec(run[..n]), Saved(Req(s.calls[last.c]).userId, s.calls[last.c].phase.lines, last.keys))
    ensures Linearizable(run)
  {
    var front, last := run[..|run| - 1], run[|run| - 1];
    var a := PlaceOrder(last.c, Req(Exec(front).calls[last.c]), NoFault, last.keys);
    assert front[..n] == run[..n];
    SaveMoves(front, blocks, n, last.c, last.keys);
    PointInWindow(run, n);
    WindowsPlace(run, blocks, n, a);
    PlaceAt(run, blocks[n := blocks[n] + [a]]);
  }

  /** Instants do not depend on how the run goes on. */
  lemma InstantsBefore(run: seq<Step>)
    requires run != [] && AllHaveInstants(run)
    ensures AllHaveInstants(run[..|run| - 1])
  {
    var front, last := run[..|run| - 1], run[|run| - 1];
    forall c | Committed(Exec(front), c)
      ensures HasInstant(front, c)
    {
      StepGrows(Exec(front), last);
      assert HasInstant(run, c);
      var n: nat :| CoherentAt(run, c, OrderOf(Exec(run), c), n);
      assert n != |run| by {
        assert run[..|run|] == run;
      }
      assert front[..n] == run[..n];
      assert CoherentAt(front, c, OrderOf(Exec(front), c), n);
    }
  }

  lemma InstantOfSave(run: seq<Step>) returns (n: nat)
    requires run != [] && AllHaveInstants(run)
    requires run[|run| - 1].Commit? && !run[|run| - 1].fault && Enabled(Exec(run[..|run| - 1]), run[|run| - 1])
    ensures n < |run|
    ensures var s, last := Exec(run[..|run| - 1]), run[|run| - 1];
      && InFlight(Exec(run[..n]), last.c)
      && Coherent(Exec(run[..n]), Saved(Req(s.calls[last.c]).userId, s.calls[last.c].phase.lines, last.keys))
  {
    var c := run[|run| - 1].c;
    assert Committed(Exec(run), c) && HasInstant(run, c);
    n :| CoherentAt(run, c, OrderOf(Exec(run), c), n);
    assert n != |run| by {
      assert run[..|run|] == run;
    }
  }

  lemma {:induction false} InstantsSuffice(run: seq<Step>)
    requires AllHaveInstants(run)
    ensures Linearizable(run)
  {
    if run == [] {
      assert Abs(INIT).outcomes == map[];
      assert Explains(run, [[]]);
    } else {
      var front, last := run[..|run| - 1], run[|run| - 1];
      InstantsBefore(run);
      InstantsSuffice(front);
      var blocks :| Explains(front, blocks);
      ReachableInv(front);
      if last.Commit? && !last.fault && Enabled(Exec(front), last) {
        var n := InstantOfSave(run);
        SaveStep(run, blocks, n);
      } else {
        StepRefines(Exec(front), last);
        var point := PointOf(Exec(front), last);
        if point.Some? && point.value.PlaceOrder? {
          RefusalStep(run, blocks, point.value);
        } else {
          QuietStep(run, blocks);
        }
      }
    }
  }

  /**
   * Whatever is done to prices: the run is a monolith run with the same rows, outcomes and edits,
   * each order taking effect at some instant within its own call, exactly when every stored order
   * had an instant in flight at which its user existed and the menu showed all its prices.
   */
  lemma {:induction false} LinearizableIff(run: seq<Step>)
    ensures Linearizable(run) <==> AllHaveInstants(run)
  {
    if Linearizable(run) {
      var blocks :| Explains(run, blocks);
      LinearizableHasInstants(run, blocks);
    }
    if AllHaveInstants(run) {
      InstantsSuffice(run);
    }
  }

  // ---- Saves at current prices -------------------------------------------------------------------

  lemma InstantLasts(run: seq<Step>, c: CallId)
    requires run != [] && Committed(Exec(run[..|run| - 1]), c) && HasInstant(run[..|run| - 1], c)
    ensures Committed(Exec(run), c) && HasInstant(run, c)
  {
    var front := run[..|run| - 1];
    StepGrows(Exec(front), run[|run| - 1]);
    var n: nat :| CoherentAt(front, c, OrderOf(Exec(front), c), n);
    assert front[..n] == run[..n];
    assert CoherentAt(run, c, OrderOf(Exec(run), c), n);
  }

  lemma CurrentIsCoherent(s: State, c: CallId, keys: Keys)
    requires Inv(s) && Enabled(s, Commit(c, false, keys)) && Current(s, c)
    ensures Coherent(s, Saved(Req(s.calls[c]).userId, s.calls[c].phase.lines, keys))
  {
    assert CallSound(s.store, s.calls[c]);
  }

  lemma CurrentSaveHasInstant(run: seq<Step>, c: CallId)
    requires run != [] && SavesCurrent(Exec(run[..|run| - 1]), run[|run| - 1])
    requires !Committed(Exec(run[..|run| - 1]), c) && Committed(Exec(run), c)
    ensures HasInstant(run, c)
  {
    var front := run[..|run| - 1];
    ReachableInv(front);
    BecomesCommitted(Exec(front), run[|run| - 1], c);
    CurrentIsCoherent(Exec(front), c, run[|run| - 1].keys);
    assert CoherentAt(run, c, OrderOf(Exec(run), c), |front|);
  }

  /** A save that finds its prices current is an instant for its order. */
  lemma {:induction false} CurrentSavesHaveInstants(run: seq<Step>)
    requires AllSavesCurrent(run)
    ensures AllHaveInstants(run)
  {
    if run != [] {
      AllSavesCurrentSplit(run);
      CurrentSavesHaveInstants(run[..|run| - 1]);
      forall c | Committed(Exec(run), c)
        ensures HasInstant(run, c)
      {
        if Committed(Exec(run[..|run| - 1]), c) {
          InstantLasts(run, c);
        } else {
          CurrentSaveHasInstant(run, c);
        }
      }
    }
  }

  /** The run is about to save an order at current prices, and one of them is edited just before. */
  ghost predicate EditedBeforeSave(run: seq<Step>, c: CallId, keys: Keys, k: nat, price: real) {
    && AllSavesCurrent(run) && Enabled(Exec(run), Commit(c, false, keys)) && Current(Exec(run), c)
    && k < |Exec(run).calls[c].phase.lines| && Exec(run).calls[c].phase.lines[k].price != price
  }

  lemma EditMakesStale(s: State, c: CallId, keys: Keys, k: nat, price: real)
    requires Enabled(s, Commit(c, false, keys)) && Current(s, c)
    requires k < |s.calls[c].phase.lines| && s.calls[c].phase.lines[k].price != price
    ensures var s' := Apply(s, ChangePrice(s.calls[c].phase.lines[k].menuItemId, price));
      && s'.calls == s.calls && s'.store.tables == s.store.tables
      && Enabled(s', Commit(c, false, keys)) && !Current(s', c)
  {
    var lines, id := s.calls[c].phase.lines, s.calls[c].phase.lines[k].menuItemId;
    assert MenuPrice(s.store.menu, id, lines[k].price);
    assert !MenuPrice(s.store.menu[id := s.store.menu[id].(price := price)], id, lines[k].price);
  }

  lemma OneMore(run: seq<Step>, step: Step)
    ensures (run + [step])[..|run|] == run && Exec(run + [step]) == Apply(Exec(run), step)
  {
  }

  lemma SaveAfterEdit(run: seq<Step>, edit: Step, c: CallId, keys: Keys)
    requires AllHaveInstants(run) && !edit.Commit? && Exec(run + [edit]).calls == Exec(run).calls
    requires Enabled(Exec(run), Commit(c, false, keys)) && Enabled(Exec(run + [edit]), Commit(c, false, keys))
    requires Current(Exec(run), c)
    ensures AllHaveInstants(run + [edit] + [Commit(c, false, keys)])
  {
    var save := Commit(c, false, keys);
    var all := run + [edit] + [save];
    OneMore(run, edit);
    OneMore(run + [edit], save);
    forall d | Committed(Exec(all), d)
      ensures HasInstant(all, d)
    {
      if d == c {
        ReachableInv(run);
        CurrentIsCoherent(Exec(run), c, keys);
        assert all[..|run|] == run;
        assert CoherentAt(all, c, OrderOf(Exec(all), c), |run|);
      } else {
        InstantLasts(run + [edit], d);
        InstantLasts(all, d);
      }
    }
  }

  /** A stale save may still be atomic: the order took effect before the edit, and not at its save. */
  lemma StaleSaveCanBeAtomic(run: seq<Step>, c: CallId, keys: Keys, k: nat, price: real)
    requires EditedBeforeSave(run, c, keys, k, price)
    ensures var edit := ChangePrice(Exec(run).calls[c].phase.lines[k].menuItemId, price);
      var all := run + [edit] + [Commit(c, false, keys)];
      Linearizable(all) && !AllSavesCurrent(all) && !Refines(all)
  {
    var edit := ChangePrice(Exec(run).calls[c].phase.lines[k].menuItemId, price);
    var all := run + [edit] + [Commit(c, false, keys)];
    OneMore(run, edit);
    OneMore(run + [edit], Commit(c, false, keys));
    EditMakesStale(Exec(run), c, keys, k, price);
    CurrentSavesHaveInstants(run);
    SaveAfterEdit(run, edit, c, keys);
    LinearizableIff(all);
    AllSavesCurrentSplit(all);
    RefinesIffSavesCurrent(all);
  }

  // ---- Traces without instants ------------------------------------------------------------------

  /** The additions and edits of a monolith run, in order. */
  ghost function NonOrders(trace: seq<Atomic>): seq<Atomic> {
    if trace == [] then []
    else
      var last := trace[|trace| - 1];
      NonOrders(trace[..|trace| - 1]) + if last.PlaceOrder? then [] else [last]
  }

  lemma NonOrdersOfRun(run: seq<Step>)
    requires run != []
    ensures NonOrders(Linearize(run)) ==
      NonOrders(Linearize(run[..|run| - 1])) + OwnEffect(Exec(run[..|run| - 1]), run[|run| - 1])
  {
    var front := run[..|run| - 1];
    if PointOf(Exec(front), run[|run| - 1]).Some? {
      var a := PointOf(Exec(front), run[|run| - 1]).value;
      assert (Linearize(front) + [a])[..|Linearize(front)|] == Linearize(front);
    }
  }

  ghost predicate AllOrders(trace: seq<Atomic>) {
    forall i :: 0 <= i < |trace| ==> trace[i].PlaceOrder?
  }

  lemma {:induction false} NoNonOrders(trace: seq<Atomic>)
    requires NonOrders(trace) == []
    ensures AllOrders(trace)
  {
    if trace != [] {
      NoNonOrders(trace[..|trace| - 1]);
    }
  }

  lemma {:induction false} LastNonOrder(trace: seq<Atomic>) returns (i: nat)
    requires NonOrders(trace) != []
    ensures i < |trace| && AllOrders(trace[i + 1..])
    ensures NonOrders(trace) == NonOrders(trace[..i]) + [trace[i]]
  {
    var front := trace[..|trace| - 1];
    i := |trace| - 1;
    if trace[i].PlaceOrder? {
      i := LastNonOrder(front);
      assert trace[i + 1..] == front[i + 1..] + [trace[|trace| - 1]];
      assert front[..i] == trace[..i];
    }
  }

  lemma SameEnds(x: seq<Atomic>, a: Atomic, y: seq<Atomic>, b: Atomic)
    requires x + [a] == y + [b]
    ensures x == y && a == b
  {
    assert (x + [a])[..|x|] == x && (y + [b])[..|y|] == y;
    assert (x + [a])[|x|] == a && (y + [b])[|y|] == b;
  }

  lemma WovenMore(run: seq<Step>, init: Blocks, block: seq<Atomic>)
    requires run != [] && |init| == |run|
    ensures Woven(run, init + [block]) ==
      Woven(run[..|run| - 1], init) + OwnEffect(Exec(run[..|run| - 1]), run[|run| - 1]) + block
  {
    assert (init + [block])[..|run|] == init;
  }

  /** A trace can be cut at its last addition or edit. */
  lemma SplitAtLast(trace: seq<Atomic>, before: seq<Atomic>, own: seq<Atomic>) returns (i: nat)
    requires NonOrders(trace) == before + own && |own| == 1
    ensures i < |trace| && AllOrders(trace[i + 1..])
    ensures NonOrders(trace[..i]) == before && trace == trace[..i] + own + trace[i + 1..]
  {
    i := LastNonOrder(trace);
    assert own == [own[0]];
    SameEnds(NonOrders(trace[..i]), trace[i], before, own[0]);
  }

  /** Any trace with the run's additions and edits comes from some choice of instants. */
  lemma {:induction false} EveryTraceIsWoven(run: seq<Step>, trace: seq<Atomic>) returns (blocks: Blocks)
    requires NonOrders(trace) == NonOrders(Linearize(run))
    ensures |blocks| == |run| + 1 && OnlyOrders(blocks) && Woven(run, blocks) == trace
  {
    if run == [] {
      NoNonOrders(trace);
      blocks := [trace];
    } else {
      var front := run[..|run| - 1];
      var init, rest := [], trace;
      var own := OwnEffect(Exec(front), run[|run| - 1]);
      NonOrdersOfRun(run);
      if own == [] {
        init := EveryTraceIsWoven(front, trace);
        rest := [];
      } else {
        var i := SplitAtLast(trace, NonOrders(Linearize(front)), own);
        init := EveryTraceIsWoven(front, trace[..i]);
        rest := trace[i + 1..];
      }
      WovenMore(run, init, rest);
      blocks := init + [rest];
    }
  }

  /** The instant is needed even if orders may take effect outside their calls. */
  lemma AtomicRunNeedsInstant(run: seq<Step>, trace: seq<Atomic>, c: CallId)
    requires NonOrders(trace) == NonOrders(Linearize(run)) && DoAll(trace) == Some(Abs(Exec(run)))
    requires Committed(Exec(run), c)
    ensures exists n: nat :: n <= |run| && Coherent(Exec(run[..n]), OrderOf(Exec(run), c))
  {
    var blocks := EveryTraceIsWoven(run, trace);
    CreatedHadInstant(run, blocks, c, OrderOf(Exec(run), c));
    var n: nat, j: nat :| PlacedIn(run, blocks, c, OrderOf(Exec(run), c), n, j);
  }
}
