/**
 * Why the refinement needs prices that stand still: a concrete run in which the menu is edited
 * between two lookups of one order. No service offers such an edit.
 */
module EditedPrices {
  import opened Collections
  import opened Models
  import opened Monolith
  import opened Gateway
  import opened Protocol
  import opened Refinement
  import opened Histories
  import opened Linearizability

  const TEA := MenuItem("", "", 1.0)
  const TORN_BODY := Body(1, [BodyItem(1, 1), BodyItem(2, 1)])

  ghost predicate Torn(run: seq<Step>) {
    run == [CreateUser(1, User("", "", false)), CreateMenuItem(1, TEA), CreateMenuItem(2, TEA),
            Arrive(0, TORN_BODY), CheckUser(0, false),
            PriceItem(0, false), ChangePrice(1, 2.0), ChangePrice(2, 2.0), PriceItem(0, false),
            Commit(0, false, Keys(1, [1, 2]))]
  }

  /** The state within the torn run: two items at these prices, one call in this phase, no orders yet. */
  ghost predicate TornAt(s: State, first: real, second: real, phase: Phase) {
    && s.store.users == map[1 := User("", "", false)]
    && s.store.menu == map[1 := TEA.(price := first), 2 := TEA.(price := second)]
    && s.store.tables == EMPTY_STORE.tables
    && s.calls == map[0 := Call(TORN_BODY, phase, Waiting)]
  }

  lemma TornMenu(run: seq<Step>)
    requires Torn(run)
    ensures forall n :: 0 <= n <= 3 ==> !MenuPrice(Exec(run[..n]).store.menu, 2, 2.0)
    ensures Exec(run[..3]) == State(
      Store(map[1 := User("", "", false)], map[1 := TEA, 2 := TEA], EMPTY_STORE.tables), map[])
  {
    ExecPrefix(run, 0);
    ExecPrefix(run, 1);
    ExecPrefix(run, 2);
  }

  lemma TornOpening(run: seq<Step>)
    requires Torn(run)
    ensures TornAt(Exec(run[..4]), 1.0, 1.0, Started)
    ensures TornAt(Exec(run[..5]), 1.0, 1.0, Pricing([]))
  {
    TornMenu(run);
    ExecPrefix(run, 3);
    ExecPrefix(run, 4);
  }

  lemma TornPricing(s: State, first: real, second: real, lines: seq<Line>)
    requires TornAt(s, first, second, Pricing(lines)) && |lines| < 2
    ensures TornAt(Apply(s, PriceItem(0, false)), first, second,
      Pricing(lines + [Line(|lines| + 1, 1, if |lines| == 0 then first else second)]))
  {
  }

  lemma TornEdits(s: State, first: real, second: real, phase: Phase, price: real)
    requires TornAt(s, first, second, phase)
    ensures TornAt(Apply(s, ChangePrice(1, price)), price, second, phase)
    ensures TornAt(Apply(s, ChangePrice(2, price)), first, price, phase)
  {
  }

  lemma TornCommit(s: State, first: real, second: real, lines: seq<Line>)
    requires TornAt(s, first, second, Pricing(lines)) && |lines| == 2
    ensures var s' := Apply(s, Commit(0, false, Keys(1, [1, 2])));
      && s'.store.menu == s.store.menu && Committed(s', 0)
      && OrderOf(s', 0).items == Keyed(lines, Keys(1, [1, 2]))
  {
  }

  lemma TornFirst(run: seq<Step>)
    requires Torn(run)
    ensures TornAt(Exec(run[..6]), 1.0, 1.0, Pricing([Line(1, 1, 1.0)]))
  {
    TornOpening(run);
    ExecPrefix(run, 5);
    TornPricing(Exec(run[..5]), 1.0, 1.0, []);
    assert [] + [Line(1, 1, 1.0)] == [Line(1, 1, 1.0)];
  }

  lemma TornEdited(run: seq<Step>)
    requires Torn(run)
    ensures TornAt(Exec(run[..7]), 2.0, 1.0, Pricing([Line(1, 1, 1.0)]))
    ensures TornAt(Exec(run[..8]), 2.0, 2.0, Pricing([Line(1, 1, 1.0)]))
  {
    var phase := Pricing([Line(1, 1, 1.0)]);
    TornFirst(run);
    ExecPrefix(run, 6);
    TornEdits(Exec(run[..6]), 1.0, 1.0, phase, 2.0);
    ExecPrefix(run, 7);
    TornEdits(Exec(run[..7]), 2.0, 1.0, phase, 2.0);
  }

  lemma TornSecond(run: seq<Step>)
    requires Torn(run)
    ensures TornAt(Exec(run[..9]), 2.0, 2.0, Pricing([Line(1, 1, 1.0), Line(2, 1, 2.0)]))
  {
    TornEdited(run);
    ExecPrefix(run, 8);
    TornPricing(Exec(run[..8]), 2.0, 2.0, [Line(1, 1, 1.0)]);
    assert [Line(1, 1, 1.0)] + [Line(2, 1, 2.0)] == [Line(1, 1, 1.0), Line(2, 1, 2.0)];
  }

  lemma TornEnd(run: seq<Step>)
    requires Torn(run)
    ensures Exec(run).store.menu == Exec(run[..9]).store.menu && Committed(Exec(run), 0)
    ensures OrderOf(Exec(run), 0).items == Keyed([Line(1, 1, 1.0), Line(2, 1, 2.0)], Keys(1, [1, 2]))
  {
    TornSecond(run);
    ExecPrefix(run, 9);
    TornCommit(Exec(run[..9]), 2.0, 2.0, [Line(1, 1, 1.0), Line(2, 1, 2.0)]);
    assert run[..10] == run;
  }

  lemma NeverBoth(run: seq<Step>, n: nat)
    requires Torn(run) && n <= 10
    ensures !(MenuPrice(Exec(run[..n]).store.menu, 1, 1.0) && MenuPrice(Exec(run[..n]).store.menu, 2, 2.0))
  {
    if n <= 3 {
      TornMenu(run);
    } else if n <= 5 {
      TornOpening(run);
    } else {
      TornFirst(run);
      TornEdited(run);
      TornSecond(run);
      TornEnd(run);
      assert run[..10] == run;
      assert n in {6, 7, 8, 9, 10};
    }
  }

  /** If prices were edited between lookups, an order could mix prices that the menu never showed at one time. */
  lemma EditedPricesCanTear(run: seq<Step>, n: nat)
    requires Torn(run) && n <= |run|
    ensures Committed(Exec(run), 0)
    ensures !ShownTogether(Exec(run[..n]).store.menu, OrderOf(Exec(run), 0).items)
  {
    TornEnd(run);
    NeverBoth(run, n);
    var items := OrderOf(Exec(run), 0).items;
    assert items[0].menuItemId == 1 && items[0].price == 1.0 && items[1].menuItemId == 2 && items[1].price == 2.0;
  }

  lemma TornHasNoInstant(run: seq<Step>)
    requires Torn(run)
    ensures Committed(Exec(run), 0)
    ensures forall n: nat :: n <= |run| ==> !Coherent(Exec(run[..n]), OrderOf(Exec(run), 0))
    ensures !AllHaveInstants(run)
  {
    TornEnd(run);
    forall n: nat | n <= |run|
      ensures !Coherent(Exec(run[..n]), OrderOf(Exec(run), 0))
    {
      EditedPricesCanTear(run, n);
    }
    assert !HasInstant(run, 0);
  }

  /** So it is no run of the monolith, not even with orders taking effect outside their calls. */
  lemma TornIsNotAtomic(run: seq<Step>, trace: seq<Atomic>)
    requires Torn(run) && NonOrders(trace) == NonOrders(Linearize(run))
    ensures DoAll(trace) != Some(Abs(Exec(run))) && !Linearizable(run)
  {
    TornHasNoInstant(run);
    LinearizableIff(run);
    if DoAll(trace) == Some(Abs(Exec(run))) {
      AtomicRunNeedsInstant(run, trace, 0);
      assert false;
    }
  }
}
