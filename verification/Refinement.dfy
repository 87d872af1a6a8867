/**
 * The interleaved services and the atomic monolith have the same runs.
 *
 * `Linearize` picks for each call the step at which the monolith's whole `CreateOrder` would
 * have happened: the failing lookup of a refused request, the save of any other.
 */
module Refinement {
  import opened Collections
  import opened Integers
  import opened Models
  import opened Monolith
  import opened Gateway
  import opened Protocol

  // ---- The monolith's runs ----------------------------------------------------------------

  datatype Atomic =
    | AddUser(id: Id, user: User)
    | AddMenuItem(id: Id, item: MenuItem)
    | SetPrice(id: Id, price: real)
    | PlaceOrder(c: CallId, req: OrderRequest, fault: Fault, keys: Keys)

  datatype MonolithState = MonolithState(store: Store, outcomes: map<CallId, Outcome>)

  ghost function Do(m: MonolithState, a: Atomic): Option<MonolithState> {
    match a
    case AddUser(id, user) =>
      if UserFits(m.store.users, id, user)
      then Some(m.(store := m.store.(users := m.store.users[id := user]))) else None
    case AddMenuItem(id, item) =>
      if MenuItemFits(m.store.menu, id)
      then Some(m.(store := m.store.(menu := m.store.menu[id := item]))) else None
    case SetPrice(id, price) =>
      if id in m.store.menu
      then Some(m.(store := m.store.(menu := m.store.menu[id := m.store.menu[id].(price := price)]))) else None
    case PlaceOrder(c, req, fault, keys) =>
      if c in m.outcomes || !KeysFit(m.store, req, fault, keys) then None
      else
        var (store, outcome) := CreateOrder(m.store, req, fault, keys);
        Some(MonolithState(store, m.outcomes[c := outcome]))
  }

  /** The state after a monolith run, or `None` if the run asks for something impossible. */
  ghost function DoAll(trace: seq<Atomic>): Option<MonolithState> {
    if trace == [] then Some(MonolithState(EMPTY_STORE, map[]))
    else
      match DoAll(trace[..|trace| - 1])
      case None => None
      case Some(m) => Do(m, trace[|trace| - 1])
  }

  lemma DoAllMore(trace: seq<Atomic>, a: Atomic)
    ensures DoAll(trace + [a]) == match DoAll(trace) case None => None case Some(m) => Do(m, a)
  {
    assert (trace + [a])[..|trace|] == trace;
  }

  // ---- Linearization points ---------------------------------------------------------------

  const NO_KEYS := Keys(0, [])

  ghost function PointOf(s: State, step: Step): Option<Atomic> {
    if !Enabled(s, step) then None
    else
      match step
      case CreateUser(id, user) => Some(AddUser(id, user))
      case CreateMenuItem(id, item) => Some(AddMenuItem(id, item))
      case ChangePrice(id, price) => Some(SetPrice(id, price))
      case CheckUser(c, fault) =>
        if Next(s, step).calls[c].phase.Done?
        then Some(PlaceOrder(c, Req(s.calls[c]), if fault then UserLookup else NoFault, NO_KEYS)) else None
      case PriceItem(c, fault) =>
        if Next(s, step).calls[c].phase.Done?
        then
          var k := |s.calls[c].phase.lines|;
          Some(PlaceOrder(c, Req(s.calls[c]), if fault then ItemLookup(k) else NoFault, NO_KEYS))
        else None
      case Commit(c, fault, keys) =>
        Some(PlaceOrder(c, Req(s.calls[c]), if fault then Save else NoFault, keys))
      case _ => None
  }

  ghost function Linearize(run: seq<Step>): seq<Atomic> {
    if run == [] then []
    else
      var front := run[..|run| - 1];
      match PointOf(Exec(front), run[|run| - 1])
      case None => Linearize(front)
      case Some(a) => Linearize(front) + [a]
  }

  /** The service state as the monolith would show it: unfinished calls are not there. */
  ghost function Abs(s: State): MonolithState {
    MonolithState(s.store, map c | c in s.calls && s.calls[c].phase.Done? :: s.calls[c].phase.outcome)
  }

  // ---- Services refine the monolith -------------------------------------------------------

  /** The user was seen earlier and the first `k` items too; the `k`-th lookup decides. */
  lemma RefusalIsAtomic(s: State, c: CallId, fault: bool)
    requires Inv(s) && Enabled(s, PriceItem(c, fault))
    requires Next(s, PriceItem(c, fault)).calls[c].phase.Done?
    ensures var k := |s.calls[c].phase.lines|;
      FirstFailure(s.store.menu, Req(s.calls[c]).items, if fault then ItemLookup(k) else NoFault, 0) == k
  {
  }

  ghost predicate MenuPrice(menu: Menu, id: Id, price: real) {
    id in menu && menu[id].price == price
  }

  /** The lines a call has priced so far carry the prices the menu shows now. */
  ghost predicate Current(s: State, c: CallId) {
    c in s.calls && s.calls[c].phase.Pricing? ==>
      forall k :: 0 <= k < |s.calls[c].phase.lines| ==>
        MenuPrice(s.store.menu, s.calls[c].phase.lines[k].menuItemId, s.calls[c].phase.lines[k].price)
  }

  /** At the save, the monolith would accept too, and build the same lines if the snapshots are current. */
  lemma CommitIsAtomic(s: State, c: CallId, fault: bool, keys: Keys)
    requires Inv(s) && Enabled(s, Commit(c, fault, keys))
    ensures Accepts(s.store, Req(s.calls[c]), if fault then Save else NoFault)
    ensures Priced(s.store.menu, Req(s.calls[c]).items) == s.calls[c].phase.lines <==> Current(s, c)
  {
  }

  lemma AbsEnter(s: State, c: CallId, phase: Phase)
    requires c in s.calls && !s.calls[c].phase.Done?
    ensures Abs(Enter(s, c, phase)).store == s.store
    ensures Abs(Enter(s, c, phase)).outcomes ==
      if phase.Done? then Abs(s).outcomes[c := phase.outcome] else Abs(s).outcomes
  {
  }

  lemma PriceItemRefines(s: State, c: CallId, fault: bool)
    requires Inv(s) && Enabled(s, PriceItem(c, fault))
    ensures PointRefines(s, PriceItem(c, fault))
  {
    var phase := Next(s, PriceItem(c, fault)).calls[c].phase;
    AbsEnter(s, c, phase);
    if phase.Done? {
      assert CallSound(s.store, s.calls[c]);
      RefusalIsAtomic(s, c, fault);
    }
  }

  /** The monolith's state after the call's point is this one but for the lines of a stale order. */
  lemma CommitAbs(s: State, c: CallId, fault: bool, keys: Keys)
    requires Inv(s) && Enabled(s, Commit(c, fault, keys))
    ensures var s' := Next(s, Commit(c, fault, keys));
      Abs(s') == MonolithState(s'.store, Abs(s).outcomes[c := s'.calls[c].phase.outcome])
  {
  }

  lemma FailedSaveRefines(s: State, c: CallId, keys: Keys)
    requires Inv(s) && Enabled(s, Commit(c, true, keys))
    ensures PointRefines(s, Commit(c, true, keys))
  {
    CommitIsAtomic(s, c, true, keys);
    CommitAbs(s, c, true, keys);
    assert CreateOrder(s.store, Req(s.calls[c]), Save, keys) == (s.store, SaveFailed);
  }

  lemma SaveIsAtomic(s: State, c: CallId, keys: Keys)
    requires Inv(s) && Enabled(s, Commit(c, false, keys)) && Current(s, c)
    ensures KeysFit(s.store, Req(s.calls[c]), NoFault, keys)
    ensures var s' := Next(s, Commit(c, false, keys));
      CreateOrder(s.store, Req(s.calls[c]), NoFault, keys) == (s'.store, s'.calls[c].phase.outcome)
  {
    CommitIsAtomic(s, c, false, keys);
  }

  lemma SaveRefines(s: State, c: CallId, keys: Keys)
    requires Inv(s) && Enabled(s, Commit(c, false, keys)) && Current(s, c)
    ensures PointRefines(s, Commit(c, false, keys))
  {
    SaveIsAtomic(s, c, keys);
    CommitAbs(s, c, false, keys);
  }

  lemma StaleCommitDiverges(s: State, c: CallId, keys: Keys)
    requires Inv(s) && Enabled(s, Commit(c, false, keys)) && !Current(s, c)
    ensures Diverged(Do(Abs(s), PointOf(s, Commit(c, false, keys)).value), Abs(Next(s, Commit(c, false, keys))))
  {
    CommitIsAtomic(s, c, false, keys);
    CommitAbs(s, c, false, keys);
    var priced := Priced(s.store.menu, Req(s.calls[c]).items);
    KeyedInjective(priced, s.calls[c].phase.lines, keys);
    var m := Do(Abs(s), PointOf(s, Commit(c, false, keys)).value);
    assert m.Some? ==> DiffersAt(m.value, Abs(Next(s, Commit(c, false, keys))), c);
  }

  lemma KeyedInjective(a: seq<Line>, b: seq<Line>, keys: Keys)
    requires |a| == |b| == |keys.items| && a != b
    ensures Keyed(a, keys) != Keyed(b, keys)
  {
    var k :| 0 <= k < |a| && a[k] != b[k];
    assert Keyed(a, keys)[k] != Keyed(b, keys)[k];
  }

  /** A step is the atomic step at its linearization point, or invisible to the monolith. */
  ghost predicate PointRefines(s: State, step: Step) {
    match PointOf(s, step)
    case None => Abs(Apply(s, step)) == Abs(s)
    case Some(a) => Do(Abs(s), a) == Some(Abs(Apply(s, step)))
  }

  /** A successful save is of snapshots that are still the menu's prices. */
  ghost predicate SavesCurrent(s: State, step: Step) {
    step.Commit? && !step.fault && Enabled(s, step) ==> Current(s, step.c)
  }

  lemma OtherStepRefines(s: State, step: Step)
    requires Enabled(s, step) && !step.CheckUser? && !step.PriceItem? && !step.Commit?
    ensures PointRefines(s, step)
  {
  }

  lemma StepRefines(s: State, step: Step)
    requires Inv(s) && SavesCurrent(s, step)
    ensures PointRefines(s, step)
  {
    if Enabled(s, step) {
      if step.CheckUser? {
        AbsEnter(s, step.c, Next(s, step).calls[step.c].phase);
      } else if step.PriceItem? {
        PriceItemRefines(s, step.c, step.fault);
      } else if step.Commit? {
        if step.fault {
          FailedSaveRefines(s, step.c, step.keys);
        } else {
          SaveRefines(s, step.c, step.keys);
        }
      } else {
        OtherStepRefines(s, step);
      }
    }
  }

  ghost predicate DiffersAt(m: MonolithState, n: MonolithState, c: CallId) {
    c in m.outcomes && c in n.outcomes && m.outcomes[c] != n.outcomes[c]
  }

  /** The monolith got stuck, or told some finished call something else. */
  ghost predicate Diverged(m: Option<MonolithState>, n: MonolithState) {
    m.None? || exists c :: DiffersAt(m.value, n, c)
  }

  ghost predicate AllSavesCurrent(run: seq<Step>) {
    forall i :: 0 <= i < |run| ==> SavesCurrent(Exec(run[..i]), run[i])
  }

  ghost predicate Refines(run: seq<Step>) {
    DoAll(Linearize(run)) == Some(Abs(Exec(run)))
  }

  lemma AllSavesCurrentSplit(run: seq<Step>)
    requires run != []
    ensures var front := run[..|run| - 1];
      AllSavesCurrent(run) <==> AllSavesCurrent(front) && SavesCurrent(Exec(front), run[|run| - 1])
  {
    var front := run[..|run| - 1];
    assert forall i :: 0 <= i < |front| ==> front[..i] == run[..i] && front[i] == run[i];
  }

  lemma OutcomeStays(s: State, step: Step, c: CallId)
    requires c in Abs(s).outcomes
    ensures c in Abs(Apply(s, step)).outcomes && Abs(Apply(s, step)).outcomes[c] == Abs(s).outcomes[c]
  {
  }

  lemma DoKeepsOutcome(m: MonolithState, a: Atomic, c: CallId)
    requires c in m.outcomes && Do(m, a).Some?
    ensures c in Do(m, a).value.outcomes && Do(m, a).value.outcomes[c] == m.outcomes[c]
  {
  }

  lemma DivergenceStays(s: State, step: Step, m: Option<MonolithState>)
    requires Diverged(m, Abs(s))
    ensures Diverged(m, Abs(Apply(s, step)))
    ensures m.Some? && PointOf(s, step).Some? ==> Diverged(Do(m.value, PointOf(s, step).value), Abs(Apply(s, step)))
  {
    if m.Some? {
      var c :| DiffersAt(m.value, Abs(s), c);
      OutcomeStays(s, step, c);
      assert DiffersAt(m.value, Abs(Apply(s, step)), c);
      if PointOf(s, step).Some? && Do(m.value, PointOf(s, step).value).Some? {
        DoKeepsOutcome(m.value, PointOf(s, step).value, c);
        assert DiffersAt(Do(m.value, PointOf(s, step).value).value, Abs(Apply(s, step)), c);
      }
    }
  }

  /**
   * The points of `Linearize`, which has created orders take effect at their saves, turn a run
   * into the monolith's run, with the same rows and the same outcome for every finished call,
   * exactly when each successful save finds its snapshots still current. Other points may do when
   * these do not: module `Linearizability` says when.
   */
  lemma {:induction false} RefinesIffSavesCurrent(run: seq<Step>)
    ensures AllSavesCurrent(run) ==> Refines(run)
    ensures !AllSavesCurrent(run) ==> Diverged(DoAll(Linearize(run)), Abs(Exec(run))) && !Refines(run)
  {
    if run != [] {
      var front, last := run[..|run| - 1], run[|run| - 1];
      var s := Exec(front);
      RefinesIffSavesCurrent(front);
      AllSavesCurrentSplit(run);
      ReachableInv(front);
      if PointOf(s, last).Some? {
        assert (Linearize(front) + [PointOf(s, last).value])[..|Linearize(front)|] == Linearize(front);
      }
      if !AllSavesCurrent(front) {
        DivergenceStays(s, last, DoAll(Linearize(front)));
      } else if SavesCurrent(s, last) {
        StepRefines(s, last);
      } else {
        StaleCommitDiverges(s, last.c, last.keys);
      }
    }
  }

  // ---- Prices that nobody changes ---------------------------------------------------------

  ghost predicate NoPriceChange(run: seq<Step>) {
    forall i :: 0 <= i < |run| ==> !run[i].ChangePrice?
  }

  /** Half-built and stored lines all carry the price the menu shows now. */
  ghost predicate PricesCurrent(s: State) {
    && (forall c :: c in s.calls ==> Current(s, c))
    && (forall i :: i in s.store.tables.items ==>
          MenuPrice(s.store.menu, s.store.tables.items[i].menuItemId, s.store.tables.items[i].price))
  }

  lemma StepKeepsPrices(s: State, step: Step)
    requires PricesCurrent(s) && !step.ChangePrice?
    ensures PricesCurrent(Apply(s, step))
  {
    if Enabled(s, step) && step.Commit? && !step.fault {
      var lines := s.calls[step.c].phase.lines;
      var o := Saved(Req(s.calls[step.c]).userId, lines, step.keys);
      var s' := Next(s, step);
      InsertItemsRows(s.store.tables.items, o.items);
      forall i | i in s'.store.tables.items
        ensures MenuPrice(s'.store.menu, s'.store.tables.items[i].menuItemId, s'.store.tables.items[i].price)
      {
        if HasKey(o.items, i) {
          var k :| 0 <= k < |o.items| && o.items[k].id == i;
          assert MenuPrice(s.store.menu, lines[k].menuItemId, lines[k].price);
        }
      }
    }
  }

  lemma {:induction false} ReachablePrices(run: seq<Step>)
    requires NoPriceChange(run)
    ensures PricesCurrent(Exec(run))
  {
    if run != [] {
      ReachablePrices(run[..|run| - 1]);
      StepKeepsPrices(Exec(run[..|run| - 1]), run[|run| - 1]);
    }
  }

  /** No service changes a price, so every run of the services alone refines the monolith. */
  lemma {:induction false} ServicesRefineMonolith(run: seq<Step>)
    requires NoPriceChange(run)
    ensures DoAll(Linearize(run)) == Some(Abs(Exec(run)))
  {
    forall i | 0 <= i < |run|
      ensures SavesCurrent(Exec(run[..i]), run[i])
    {
      ReachablePrices(run[..i]);
    }
    RefinesIffSavesCurrent(run);
  }

  // ---- Linearizability: the points respect the order clients can see ---------------------------

  ghost predicate PlacedAt(trace: seq<Atomic>, i: nat, c: CallId) {
    i < |trace| && trace[i].PlaceOrder? && trace[i].c == c
  }

  ghost predicate Placed(trace: seq<Atomic>, c: CallId) {
    exists i: nat :: PlacedAt(trace, i, c)
  }

  lemma PlacedAppend(trace: seq<Atomic>, a: Atomic, c: CallId)
    ensures Placed(trace + [a], c) <==> Placed(trace, c) || (a.PlaceOrder? && a.c == c)
  {
    if Placed(trace, c) {
      var i: nat :| PlacedAt(trace, i, c);
      assert PlacedAt(trace + [a], i, c);
    }
    if a.PlaceOrder? && a.c == c {
      assert PlacedAt(trace + [a], |trace|, c);
    }
    if Placed(trace + [a], c) {
      var i: nat :| PlacedAt(trace + [a], i, c);
      assert i < |trace| ==> PlacedAt(trace, i, c);
    }
  }

  /** A call has its point from the moment its handler is done, and not before. */
  lemma {:induction false} PlacedWhenDone(run: seq<Step>, c: CallId)
    ensures Placed(Linearize(run), c) <==> c in Exec(run).calls && Exec(run).calls[c].phase.Done?
  {
    if run != [] {
      var front, last := run[..|run| - 1], run[|run| - 1];
      PlacedWhenDone(front, c);
      if PointOf(Exec(front), last).Some? {
        PlacedAppend(Linearize(front), PointOf(Exec(front), last).value, c);
      }
    }
  }

  /** Points are never revised as the run goes on. */
  lemma {:induction false} LinearizePrefix(run: seq<Step>, n: nat)
    requires n <= |run|
    ensures Linearize(run[..n]) <= Linearize(run)
  {
    if n == |run| {
      assert run[..n] == run;
    } else {
      var front := run[..|run| - 1];
      LinearizePrefix(front, n);
      assert front[..n] == run[..n];
    }
  }

  /** No call takes effect twice. */
  lemma {:induction false} PlacedOnce(run: seq<Step>, c: CallId, i: nat, j: nat)
    requires PlacedAt(Linearize(run), i, c) && PlacedAt(Linearize(run), j, c)
    ensures i == j
  {
    var front, last := run[..|run| - 1], run[|run| - 1];
    var point := PointOf(Exec(front), last);
    PlacedWhenDone(front, c);
    if i < |Linearize(front)| {
      assert PlacedAt(Linearize(front), i, c);
    }
    if j < |Linearize(front)| {
      assert PlacedAt(Linearize(front), j, c);
    }
    if i < |Linearize(front)| && j < |Linearize(front)| {
      PlacedOnce(front, c, i, j);
    }
  }

  /** If one order's answer was out before another's request came in, they happened in that order. */
  lemma {:induction false} RealTimeOrder(run: seq<Step>, n: nat, c: CallId, d: CallId, i: nat, j: nat)
    requires n <= |run|
    requires c in Exec(run[..n]).calls && Exec(run[..n]).calls[c].reply.FromService?
    requires d !in Exec(run[..n]).calls
    requires PlacedAt(Linearize(run), i, c) && PlacedAt(Linearize(run), j, d)
    ensures i < j
  {
    var early := Linearize(run[..n]);
    LinearizePrefix(run, n);
    ReachableInv(run[..n]);
    assert ReplySound(Exec(run[..n]).calls[c]);
    PlacedWhenDone(run[..n], c);
    var i': nat :| PlacedAt(early, i', c);
    assert PlacedAt(Linearize(run), i', c);
    PlacedOnce(run, c, i, i');
    PlacedWhenDone(run[..n], d);
    if j < |early| {
      assert PlacedAt(early, j, d);
    }
  }

  ghost predicate FaultFree(run: seq<Step>) {
    forall i :: 0 <= i < |run| ==>
      !(run[i].CheckUser? && run[i].fault) && !(run[i].PriceItem? && run[i].fault) && !(run[i].Commit? && run[i].fault)
  }

  /** The monolith is fed the requests the clients sent, and faults only where a call of ours had one. */
  lemma {:induction false} PointsAreFaithful(run: seq<Step>, i: nat)
    requires i < |Linearize(run)| && Linearize(run)[i].PlaceOrder?
    ensures var a, s := Linearize(run)[i], Exec(run);
      && a.c in s.calls && GatewayDecodes(s.calls[a.c].body) && a.req == WireRequest(s.calls[a.c].body)
      && (InRange(s.calls[a.c].body) ==>
            MonolithDecodes(s.calls[a.c].body) && a.req == MonolithRequest(s.calls[a.c].body))
      && (FaultFree(run) ==> a.fault == NoFault)
  {
    var front, last := run[..|run| - 1], run[|run| - 1];
    StepGrows(Exec(front), last);
    if i < |Linearize(front)| {
      PointsAreFaithful(front, i);
    }
    SameRequest(Exec(run).calls[Linearize(run)[i].c].body);
  }

  ghost predicate BodiesInRange(run: seq<Step>) {
    forall i :: 0 <= i < |run| && run[i].Arrive? ==> InRange(run[i].body)
  }

  lemma {:induction false} CallsInRange(run: seq<Step>, c: CallId)
    requires BodiesInRange(run) && c in Exec(run).calls
    ensures InRange(Exec(run).calls[c].body)
  {
    var front, last := run[..|run| - 1], run[|run| - 1];
    if c in Exec(front).calls {
      CallsInRange(front, c);
      StepGrows(Exec(front), last);
    }
  }

  /** The client is shown the record itself, field by field. */
  predicate ShowsRecord(p: ProtoOrder, o: Order) {
    && p.id == o.id && p.userId == o.userId && p.status == o.status && |p.items| == |o.items|
    && forall k :: 0 <= k < |o.items| ==>
         && p.items[k].id == o.items[k].id && p.items[k].orderId == o.items[k].orderId
         && p.items[k].menuItemId == o.items[k].menuItemId
         && p.items[k].quantity == o.items[k].quantity && p.items[k].price == o.items[k].price
  }

  /** The keys the database chose fit the wire. */
  predicate KeysOnWire(o: Order) {
    IsUint32(o.id) && forall k :: 0 <= k < |o.items| ==> IsUint32(o.items[k].id)
  }

  /** Everything else in an order came over the wire, so only its keys can be cut off. */
  lemma ShownExactly(store: Store, call: Call, o: Order)
    requires CallSound(store, call) && call.phase == Done(Created(o))
    ensures ShowsRecord(ToProto(o), o) <==> KeysOnWire(o)
  {
    forall k | 0 <= k < |o.items|
      ensures o.items[k].orderId == o.id && IsUint32(o.items[k].menuItemId) && IsInt32(o.items[k].quantity)
    {
      assert MatchesItem(store.menu, Req(call).items[k], o.items[k].menuItemId, o.items[k].quantity);
    }
    if ShowsRecord(ToProto(o), o) {
      forall k | 0 <= k < |o.items|
        ensures IsUint32(o.items[k].id)
      {
        assert ToProto(o).items[k] == ToProtoItem(o.items[k]);
      }
    }
  }

  /** The order service's answer, beside the monolith's outcome for the same call. */
  ghost predicate AnsweredAlike(answer: Http<ProtoOrder>, outcome: Outcome) {
    && answer.status == MonolithStatus(outcome)
    && answer.payload == (if outcome.Created? then Some(ToProto(outcome.order)) else None)
    && (outcome.Created? ==> (ShowsRecord(answer.payload.value, outcome.order) <==> KeysOnWire(outcome.order)))
  }

  lemma AnswerMatches(s: State, c: CallId)
    requires Inv(s) && c in s.calls && s.calls[c].reply.FromService?
    ensures c in Abs(s).outcomes && AnsweredAlike(s.calls[c].reply.answer, Abs(s).outcomes[c])
  {
    assert CallSound(s.store, s.calls[c]) && ReplySound(s.calls[c]);
    if Committed(s, c) {
      ShownExactly(s.store, s.calls[c], OrderOf(s, c));
    }
  }

  /**
   * Clients cannot tell the services from the monolith: fed the same HTTP bodies, in an order
   * that respects what clients saw, the monolith ends with the same rows and gives every request
   * that the order service answered the same status. The order shown is the monolith's, with ids
   * cut to 32 bits; it is that order exactly as long as the keys of the order and its lines fit.
   */
  lemma {:induction false} IndistinguishableFromMonolith(run: seq<Step>)
    requires NoPriceChange(run) && BodiesInRange(run)
    ensures var trace, s := Linearize(run), Exec(run);
      && DoAll(trace) == Some(Abs(s))
      && (forall i :: 0 <= i < |trace| && trace[i].PlaceOrder? ==>
            && trace[i].c in s.calls && MonolithDecodes(s.calls[trace[i].c].body)
            && trace[i].req == MonolithRequest(s.calls[trace[i].c].body)
            && (FaultFree(run) ==> trace[i].fault == NoFault))
      && (forall c :: c in s.calls && s.calls[c].reply.FromService? ==>
            c in Abs(s).outcomes && AnsweredAlike(s.calls[c].reply.answer, Abs(s).outcomes[c]))
  {
    var trace, s := Linearize(run), Exec(run);
    ServicesRefineMonolith(run);
    ReachableInv(run);
    forall i | 0 <= i < |trace| && trace[i].PlaceOrder?
      ensures trace[i].c in s.calls && MonolithDecodes(s.calls[trace[i].c].body)
      ensures trace[i].req == MonolithRequest(s.calls[trace[i].c].body)
      ensures FaultFree(run) ==> trace[i].fault == NoFault
    {
      PointsAreFaithful(run, i);
      CallsInRange(run, trace[i].c);
    }
    forall c | c in s.calls && s.calls[c].reply.FromService?
      ensures c in Abs(s).outcomes && AnsweredAlike(s.calls[c].reply.answer, Abs(s).outcomes[c])
    {
      AnswerMatches(s, c);
    }
  }
}
