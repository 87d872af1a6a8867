/** What whole runs of the order protocol guarantee to clients, readers and the books. */
module Histories {
  import opened Collections
  import opened Models
  import opened Monolith
  import opened Gateway
  import opened Protocol
  import opened Refinement
  import opened Realization

  lemma ExecPrefix(run: seq<Step>, i: nat)
    requires i < |run|
    ensures Exec(run[..i + 1]) == Apply(Exec(run[..i]), run[i])
  {
    assert run[..i + 1][..i] == run[..i];
  }

  // ---- The books ----------------------------------------------------------------------------

  lemma RowsHaveCommits(s: State)
    requires Inv(s)
    ensures forall id :: id in s.store.tables.orders ==> id > 0 && s.store.tables.orders[id].userId in s.store.users
    ensures forall i :: i in s.store.tables.items ==>
      exists c :: CommittedAs(s, c, s.store.tables.items[i].orderId) && HasKey(OrderOf(s, c).items, i)
  {
  }

  /**
   * However many orders are in flight: stored orders name existing users, stored lines name
   * existing menu items at exactly the menu's price, and each row belongs to one commit.
   */
  lemma StoredOrdersAreSound(run: seq<Step>)
    requires NoPriceChange(run)
    ensures var s := Exec(run); var t := s.store.tables;
      && (forall id :: id in t.orders ==> id > 0 && t.orders[id].userId in s.store.users)
      && (forall i :: i in t.items ==> MenuPrice(s.store.menu, t.items[i].menuItemId, t.items[i].price))
      && (forall i :: i in t.items ==>
            exists c :: CommittedAs(s, c, t.items[i].orderId) && HasKey(OrderOf(s, c).items, i))
      && (forall c, d :: Committed(s, c) && Committed(s, d) && c != d ==> OrderOf(s, c).id != OrderOf(s, d).id)
  {
    ReachableInv(run);
    ReachablePrices(run);
    RowsHaveCommits(Exec(run));
  }

  // ---- Price snapshots, whatever happens to the menu --------------------------------------------

  /** At index `u`, call `c`'s user check succeeded. */
  ghost predicate UserCheckedAt(run: seq<Step>, c: CallId, u: nat) {
    && u < |run| && run[u] == CheckUser(c, false)
    && Enabled(Exec(run[..u]), run[u])
    && Req(Exec(run[..u]).calls[c]).userId in Exec(run[..u]).store.users
  }

  /** At index `i`, call `c` looked up its `k`-th item, and the menu's price was `price`. */
  ghost predicate PricedAt(run: seq<Step>, c: CallId, k: nat, price: real, i: nat) {
    && i < |run| && run[i] == PriceItem(c, false)
    && Enabled(Exec(run[..i]), run[i])
    && |Exec(run[..i]).calls[c].phase.lines| == k
    && MenuPrice(Exec(run[..i]).store.menu, Req(Exec(run[..i]).calls[c]).items[k].menuItemId, price)
  }

  /** At index `m`, call `c`'s order was saved. */
  ghost predicate SavedAt(run: seq<Step>, c: CallId, m: nat) {
    m < |run| && run[m].Commit? && run[m].c == c && !run[m].fault && Enabled(Exec(run[..m]), run[m])
  }

  ghost predicate PricedAfterCheck(run: seq<Step>, c: CallId, k: nat, price: real, u: nat, i: nat) {
    UserCheckedAt(run, c, u) && PricedAt(run, c, k, price, i) && u < i
  }

  ghost predicate PricedBeforeSave(run: seq<Step>, c: CallId, k: nat, price: real, u: nat, i: nat, m: nat) {
    PricedAfterCheck(run, c, k, price, u, i) && SavedAt(run, c, m) && i < m
  }

  lemma {:induction false} UserWasChecked(run: seq<Step>, c: CallId)
    requires c in Exec(run).calls && Exec(run).calls[c].phase.Pricing?
    ensures exists u: nat :: UserCheckedAt(run, c, u)
  {
    var front, last := run[..|run| - 1], run[|run| - 1];
    if Exec(front).calls[c].phase.Pricing? {
      UserWasChecked(front, c);
      var u: nat :| UserCheckedAt(front, c, u);
      assert run[..u] == front[..u];
      assert UserCheckedAt(run, c, u);
    } else {
      assert UserCheckedAt(run, c, |front|);
    }
  }

  lemma PricedExtends(run: seq<Step>, c: CallId, k: nat, price: real, u: nat, i: nat)
    requires run != [] && PricedAfterCheck(run[..|run| - 1], c, k, price, u, i)
    ensures PricedAfterCheck(run, c, k, price, u, i)
  {
    var front := run[..|run| - 1];
    assert run[..u] == front[..u] && run[..i] == front[..i];
  }

  /** Lines are only ever appended, each by the call's own successful lookup. */
  lemma PricingStep(s: State, step: Step, c: CallId, k: nat)
    requires c in Apply(s, step).calls && Apply(s, step).calls[c].phase.Pricing?
    requires k < |Apply(s, step).calls[c].phase.lines|
    ensures c in s.calls && s.calls[c].phase.Pricing?
    ensures var line := Apply(s, step).calls[c].phase.lines[k]; var before := s.calls[c].phase.lines;
      if k < |before| then before[k] == line
      else
        && k == |before| && step == PriceItem(c, false) && Enabled(s, step)
        && MenuPrice(s.store.menu, Req(s.calls[c]).items[k].menuItemId, line.price)
  {
  }

  lemma {:induction false} HalfBuiltSnapshot(run: seq<Step>, c: CallId, k: nat)
    requires c in Exec(run).calls && Exec(run).calls[c].phase.Pricing? && k < |Exec(run).calls[c].phase.lines|
    ensures exists u: nat, i: nat :: PricedAfterCheck(run, c, k, Exec(run).calls[c].phase.lines[k].price, u, i)
  {
    var front, last := run[..|run| - 1], run[|run| - 1];
    var price := Exec(run).calls[c].phase.lines[k].price;
    PricingStep(Exec(front), last, c, k);
    if k < |Exec(front).calls[c].phase.lines| {
      HalfBuiltSnapshot(front, c, k);
      var u: nat, i: nat :| PricedAfterCheck(front, c, k, price, u, i);
      PricedExtends(run, c, k, price, u, i);
    } else {
      UserWasChecked(front, c);
      var u: nat :| UserCheckedAt(front, c, u);
      assert run[..u] == front[..u];
      assert PricedAfterCheck(run, c, k, price, u, |front|);
    }
  }

  lemma SnapshotExtends(run: seq<Step>, c: CallId, k: nat, price: real, u: nat, i: nat, m: nat)
    requires run != [] && PricedBeforeSave(run[..|run| - 1], c, k, price, u, i, m)
    ensures PricedBeforeSave(run, c, k, price, u, i, m)
  {
    PricedExtends(run, c, k, price, u, i);
    assert run[..m] == run[..|run| - 1][..m];
  }

  /** The only way to become committed is to save the lines priced so far. */
  lemma BecomesCommitted(s: State, step: Step, c: CallId)
    requires !Committed(s, c) && Committed(Apply(s, step), c)
    ensures step.Commit? && step.c == c && !step.fault && Enabled(s, step)
    ensures OrderOf(Apply(s, step), c).items == Keyed(s.calls[c].phase.lines, step.keys)
  {
  }

  lemma SaveOfSnapshot(run: seq<Step>, c: CallId, k: nat, price: real, u: nat, i: nat)
    requires run != [] && PricedAfterCheck(run[..|run| - 1], c, k, price, u, i)
    requires SavedAt(run, c, |run| - 1)
    ensures PricedBeforeSave(run, c, k, price, u, i, |run| - 1)
  {
    PricedExtends(run, c, k, price, u, i);
  }

  lemma SnapshotAtSave(run: seq<Step>, c: CallId, k: nat, price: real)
    requires run != [] && SavedAt(run, c, |run| - 1)
    requires var phase := Exec(run[..|run| - 1]).calls[c].phase; k < |phase.lines| && phase.lines[k].price == price
    ensures exists u: nat, i: nat, m: nat :: PricedBeforeSave(run, c, k, price, u, i, m)
  {
    var front := run[..|run| - 1];
    HalfBuiltSnapshot(front, c, k);
    var u: nat, i: nat :| PricedAfterCheck(front, c, k, price, u, i);
    SaveOfSnapshot(run, c, k, price, u, i);
  }

  /**
   * Even if the menu is edited at any time, each line of a stored order carries the price the
   * menu held at that line's own lookup, after the user check and before the save.
   */
  lemma {:induction false} PriceIsSnapshot(run: seq<Step>, c: CallId, k: nat)
    requires Committed(Exec(run), c) && k < |OrderOf(Exec(run), c).items|
    ensures exists u: nat, i: nat, m: nat :: PricedBeforeSave(run, c, k, OrderOf(Exec(run), c).items[k].price, u, i, m)
  {
    var front, last := run[..|run| - 1], run[|run| - 1];
    if Committed(Exec(front), c) {
      StepGrows(Exec(front), last);
      PriceIsSnapshot(front, c, k);
      var price := OrderOf(Exec(run), c).items[k].price;
      var u: nat, i: nat, m: nat :| PricedBeforeSave(front, c, k, price, u, i, m);
      SnapshotExtends(run, c, k, price, u, i, m);
    } else {
      BecomesCommitted(Exec(front), last, c);
      assert OrderOf(Exec(run), c).items[k] == Keyed(Exec(front).calls[c].phase.lines, last.keys)[k];
      SnapshotAtSave(run, c, k, OrderOf(Exec(run), c).items[k].price);
    }
  }

  /** No later step alters a stored line: its row holds the snapshot in every later state. */
  lemma SnapshotStays(run: seq<Step>, n: nat, c: CallId, k: nat)
    requires n <= |run| && Committed(Exec(run[..n]), c) && k < |OrderOf(Exec(run[..n]), c).items|
    ensures var item := OrderOf(Exec(run[..n]), c).items[k];
      item.id in Exec(run).store.tables.items && Exec(run).store.tables.items[item.id] == ToRow(item)
  {
    DoneStays(run, n, c);
    ReachableInv(run);
    assert CallSound(Exec(run).store, Exec(run).calls[c]);
  }

  // ---- Each request commits at most once ----------------------------------------------------------

  lemma {:induction false} DoneStays(run: seq<Step>, n: nat, c: CallId)
    requires n <= |run| && c in Exec(run[..n]).calls && Exec(run[..n]).calls[c].phase.Done?
    ensures c in Exec(run).calls && Exec(run).calls[c].phase == Exec(run[..n]).calls[c].phase
  {
    if n == |run| {
      assert run[..n] == run;
    } else {
      var front := run[..|run| - 1];
      assert front[..n] == run[..n];
      DoneStays(front, n, c);
      StepGrows(Exec(front), run[|run| - 1]);
    }
  }

  lemma SavedIsCommitted(run: seq<Step>, c: CallId, m: nat)
    requires SavedAt(run, c, m)
    ensures Committed(Exec(run), c)
  {
    ExecPrefix(run, m);
    DoneStays(run, m + 1, c);
  }

  lemma AtMostOneCommit(run: seq<Step>, c: CallId, m: nat, n: nat)
    requires SavedAt(run, c, m) && SavedAt(run, c, n)
    ensures m == n
  {
    if m < n {
      NotSavedAgain(run, c, m, n);
    } else if n < m {
      NotSavedAgain(run, c, n, m);
    }
  }

  lemma NotSavedAgain(run: seq<Step>, c: CallId, m: nat, n: nat)
    requires SavedAt(run, c, m) && m < n <= |run|
    ensures Committed(Exec(run[..n]), c)
  {
    assert run[..n][..m] == run[..m];
    SavedIsCommitted(run[..n], c, m);
  }

  /** Only a successful save changes the order tables. */
  lemma OnlySavesWrite(run: seq<Step>, m: nat)
    requires m < |run|
    requires Exec(run[..m + 1]).store.tables != Exec(run[..m]).store.tables
    ensures run[m].Commit? && SavedAt(run, run[m].c, m)
  {
    ExecPrefix(run, m);
  }

  function StatusOf(reply: Reply): nat
    requires !reply.Waiting?
  {
    if reply.FromService? then reply.answer.status else reply.status
  }

  lemma {:induction false} ReplySources(run: seq<Step>, c: CallId)
    requires c in Exec(run).calls && Exec(run).calls[c].reply.FromTransport?
    ensures Exec(run).calls[c].reply.status in {401, 403, 500, 501, 503}
  {
    var front := run[..|run| - 1];
    if c in Exec(front).calls && Exec(front).calls[c].reply.FromTransport? {
      ReplySources(front, c);
    }
  }

  /** A 201 or a 400 is always the order service's word, and reports the call's final outcome. */
  lemma DefiniteAnswers(run: seq<Step>, n: nat, c: CallId)
    requires n <= |run| && c in Exec(run[..n]).calls && !Exec(run[..n]).calls[c].reply.Waiting?
    ensures var reply := Exec(run[..n]).calls[c].reply;
      && (StatusOf(reply) in {201, 400} ==> reply.FromService?)
      && (reply.FromService? ==>
            && c in Exec(run).calls && Exec(run).calls[c].phase.Done?
            && reply.answer == Answer(RpcOf(Exec(run).calls[c].phase.outcome)))
  {
    if Exec(run[..n]).calls[c].reply.FromTransport? {
      ReplySources(run[..n], c);
    } else {
      ReachableInv(run[..n]);
      assert ReplySound(Exec(run[..n]).calls[c]);
      DoneStays(run, n, c);
    }
  }

  /** A 201 means that the order is stored as shown, in that and every later state. */
  lemma {:induction false} CreatedIsStored(run: seq<Step>, n: nat, c: CallId)
    requires n <= |run| && c in Exec(run[..n]).calls && !Exec(run[..n]).calls[c].reply.Waiting?
    requires StatusOf(Exec(run[..n]).calls[c].reply) == 201
    ensures Committed(Exec(run), c) && Loads(Exec(run).store.tables, OrderOf(Exec(run), c))
    ensures var reply := Exec(run[..n]).calls[c].reply;
      reply.FromService? && reply.answer.payload == Some(ToProto(OrderOf(Exec(run), c)))
  {
    DefiniteAnswers(run, n, c);
    ReachableInv(run);
    assert CallSound(Exec(run).store, Exec(run).calls[c]);
  }

  function CallOf(step: Step): Option<CallId> {
    match step
    case CreateUser(_, _) => None
    case CreateMenuItem(_, _) => None
    case ChangePrice(_, _) => None
    case _ => Some(step.c)
  }

  /** A 400, or any refusal by the order service, means that no step of this request ever writes to the order store. */
  lemma RefusedIsNeverStored(run: seq<Step>, n: nat, c: CallId, m: nat)
    requires n <= |run| && c in Exec(run[..n]).calls && !Exec(run[..n]).calls[c].reply.Waiting?
    requires var reply := Exec(run[..n]).calls[c].reply;
      StatusOf(reply) == 400 || (reply.FromService? && StatusOf(reply) != 201)
    ensures !SavedAt(run, c, m)
    ensures m < |run| && CallOf(run[m]) == Some(c) ==>
      Exec(run[..m + 1]).store.tables == Exec(run[..m]).store.tables
  {
    DefiniteAnswers(run, n, c);
    if SavedAt(run, c, m) {
      SavedIsCommitted(run, c, m);
    }
    if m < |run| && Exec(run[..m + 1]).store.tables != Exec(run[..m]).store.tables {
      OnlySavesWrite(run, m);
    }
  }

  // ---- Why the service answered as it did ---------------------------------------------------------

  /** At index `m`, call `c`'s user check failed, of itself or because there is no such user. */
  ghost predicate UserCheckFailedAt(run: seq<Step>, c: CallId, m: nat) {
    && m < |run| && run[m].CheckUser? && run[m].c == c && Enabled(Exec(run[..m]), run[m])
    && (run[m].fault || Req(Exec(run[..m]).calls[c]).userId !in Exec(run[..m]).store.users)
  }

  /** At index `m`, call `c`'s lookup of its `k`-th item failed, of itself or because there is no such item. */
  ghost predicate ItemLookupFailedAt(run: seq<Step>, c: CallId, k: nat, m: nat) {
    && m < |run| && run[m].PriceItem? && run[m].c == c && Enabled(Exec(run[..m]), run[m])
    && |Exec(run[..m]).calls[c].phase.lines| == k
    && (run[m].fault || Req(Exec(run[..m]).calls[c]).items[k].menuItemId !in Exec(run[..m]).store.menu)
  }

  ghost predicate SaveFailedAt(run: seq<Step>, c: CallId, m: nat) {
    m < |run| && run[m].Commit? && run[m].c == c && run[m].fault && Enabled(Exec(run[..m]), run[m])
  }

  /** At index `m`, something happened to call `c` that leaves it with this outcome. */
  ghost predicate SettledAt(run: seq<Step>, c: CallId, outcome: Outcome, m: nat) {
    match outcome
    case Created(o) => SavedAt(run, c, m)
    case UserNotFound => UserCheckFailedAt(run, c, m)
    case ItemNotFound(k) => ItemLookupFailedAt(run, c, k, m)
    case SaveFailed => SaveFailedAt(run, c, m)
  }

  lemma SettledExtends(run: seq<Step>, c: CallId, outcome: Outcome, m: nat)
    requires run != [] && SettledAt(run[..|run| - 1], c, outcome, m)
    ensures SettledAt(run, c, outcome, m)
  {
    assert run[..|run| - 1][..m] == run[..m];
  }

  lemma {:induction false} OutcomeHasCause(run: seq<Step>, c: CallId)
    requires c in Exec(run).calls && Exec(run).calls[c].phase.Done?
    ensures exists m: nat :: SettledAt(run, c, Exec(run).calls[c].phase.outcome, m)
  {
    var front := run[..|run| - 1];
    var outcome := Exec(run).calls[c].phase.outcome;
    if c in Exec(front).calls && Exec(front).calls[c].phase.Done? {
      OutcomeHasCause(front, c);
      StepGrows(Exec(front), run[|run| - 1]);
      var m: nat :| SettledAt(front, c, outcome, m);
      SettledExtends(run, c, outcome, m);
    } else {
      assert SettledAt(run, c, outcome, |front|);
    }
  }

  /** Whatever settles a call leaves it with its own kind of outcome. */
  lemma CauseHasOutcome(run: seq<Step>, c: CallId, outcome: Outcome, m: nat)
    requires SettledAt(run, c, outcome, m)
    ensures c in Exec(run).calls && Exec(run).calls[c].phase.Done?
    ensures var o := Exec(run).calls[c].phase.outcome; if outcome.Created? then o.Created? else o == outcome
  {
    ExecPrefix(run, m);
    DoneStays(run, m + 1, c);
  }

  ghost predicate LookupFailed(run: seq<Step>, c: CallId) {
    || (exists m: nat :: UserCheckFailedAt(run, c, m))
    || (exists k: nat, m: nat :: ItemLookupFailedAt(run, c, k, m))
  }

  ghost predicate SaveHappened(run: seq<Step>, c: CallId) {
    exists m: nat :: SavedAt(run, c, m)
  }

  ghost predicate SaveWentWrong(run: seq<Step>, c: CallId) {
    exists m: nat :: SaveFailedAt(run, c, m)
  }

  lemma CausesAreExact(run: seq<Step>, c: CallId)
    requires c in Exec(run).calls && Exec(run).calls[c].phase.Done?
    ensures var o := Exec(run).calls[c].phase.outcome;
      && (o.Created? <==> SaveHappened(run, c))
      && (o.UserNotFound? || o.ItemNotFound? <==> LookupFailed(run, c))
      && (o.SaveFailed? <==> SaveWentWrong(run, c))
  {
    var o := Exec(run).calls[c].phase.outcome;
    OutcomeHasCause(run, c);
    var m: nat :| SettledAt(run, c, o, m);
    if SaveHappened(run, c) {
      var i: nat :| SavedAt(run, c, i);
      SavedIsCommitted(run, c, i);
    }
    if i: nat :| UserCheckFailedAt(run, c, i) {
      CauseHasOutcome(run, c, UserNotFound, i);
    }
    if k: nat, i: nat :| ItemLookupFailedAt(run, c, k, i) {
      CauseHasOutcome(run, c, ItemNotFound(k), i);
    }
    if SaveWentWrong(run, c) {
      var i: nat :| SaveFailedAt(run, c, i);
      CauseHasOutcome(run, c, SaveFailed, i);
    }
  }

  /** The service answers 201 exactly after a save, 400 exactly after a failed lookup, 500 exactly after a failed save. */
  lemma ServiceAnswers(run: seq<Step>, c: CallId)
    requires c in Exec(run).calls && Exec(run).calls[c].reply.FromService?
    ensures var answer := Exec(run).calls[c].reply.answer;
      && (answer.status == 201 <==> SaveHappened(run, c))
      && (answer.status == 400 <==> LookupFailed(run, c))
      && (answer.status == 500 <==> SaveWentWrong(run, c))
      && answer.status in {201, 400, 500}
      && (answer.payload.Some? <==> answer.status == 201)
  {
    ReachableInv(run);
    assert ReplySound(Exec(run).calls[c]);
    CausesAreExact(run, c);
  }

  // ---- What can always happen ---------------------------------------------------------------------

  /** Requests are taken at any time, whatever else is in flight. */
  lemma RequestsAlwaysArrive(run: seq<Step>, c: CallId, body: Body)
    requires c !in Exec(run).calls
    ensures Exec(run + [Arrive(c, body)]) ==
      if GatewayDecodes(body) then Exec(run).(calls := Exec(run).calls[c := Call(body, Started, Waiting)]) else Exec(run)
  {
    ExecOneMore(Exec(run), [], Arrive(c, body));
    ExecAppend(run, [Arrive(c, body)]);
    assert [] + [Arrive(c, body)] == [Arrive(c, body)];
  }

  /** Users with a new email and menu items are added at any time under unused keys, and nothing else changes. */
  lemma RowsCanBeAdded(run: seq<Step>, id: Id, user: User, item: MenuItem)
    requires id > 0
    ensures var s := Exec(run);
      Exec(run + [CreateUser(id, user)]) ==
        if id !in s.store.users && forall i :: i in s.store.users ==> s.store.users[i].email != user.email
        then s.(store := s.store.(users := s.store.users[id := user])) else s
    ensures var s := Exec(run);
      Exec(run + [CreateMenuItem(id, item)]) ==
        if id !in s.store.menu then s.(store := s.store.(menu := s.store.menu[id := item])) else s
  {
    assert (run + [CreateUser(id, user)])[..|run|] == run;
    assert (run + [CreateMenuItem(id, item)])[..|run|] == run;
  }

  /** A finished call's waiting client can be given the service's answer. */
  lemma AnswersAreDelivered(run: seq<Step>, c: CallId)
    requires c in Exec(run).calls && Exec(run).calls[c].reply.Waiting? && Exec(run).calls[c].phase.Done?
    ensures var s, s' := Exec(run), Exec(run + [Deliver(c)]);
      && c in s'.calls && s'.calls[c].reply.FromService?
      && s' == s.(calls := s.calls[c := s.calls[c].(reply := s'.calls[c].reply)])
  {
    ReachableInv(run);
    assert CallSound(Exec(run).store, Exec(run).calls[c]);
  }

  /** A reply can be lost at any time, and the call knows nothing of it. */
  lemma LostReply(run: seq<Step>, c: CallId, e: RpcError)
    requires c in Exec(run).calls && Exec(run).calls[c].reply.Waiting? && TransportError(e)
    ensures Exec(run + [LoseReply(c, e)]) ==
      Exec(run).(calls := Exec(run).calls[c := Exec(run).calls[c].(reply := FromTransport(HttpStatus(e)))])
  {
    ReachableInv(run);
    assert CallSound(Exec(run).store, Exec(run).calls[c]);
  }

  // ---- A lost reply -----------------------------------------------------------------------------

  /** A run with one order stored and its client still waiting. */
  lemma StoredAndWaiting(user: User) returns (run: seq<Step>)
    ensures Committed(Exec(run), 0) && Exec(run).calls[0].reply.Waiting?
  {
    var req, keys := OrderRequest(1, []), Keys(1, []);
    var users := [CreateUser(1, user)];
    assert users[..0] == [];
    run := users + Solo(0, req, NoFault, keys);
    ExecAppend(users, Solo(0, req, NoFault, keys));
    SoloEnds(Exec(users), 0, req, NoFault, keys);
  }

  ghost predicate SeenAs(run: seq<Step>, c: CallId, status: nat) {
    c in Exec(run).calls && Exec(run).calls[c].reply == FromTransport(status)
  }

  /** A transport failure tells nothing: whichever it is, it is seen with the order stored and with no order at all. */
  lemma LostReplyIsAmbiguous(e: RpcError)
    requires TransportError(e)
    ensures exists stored, c :: SeenAs(stored, c, HttpStatus(e)) && Committed(Exec(stored), c)
    ensures exists unstored, c :: SeenAs(unstored, c, HttpStatus(e)) && Exec(unstored).store.tables.orders == map[]
  {
    var stored := StoredAndWaiting(User("", "", false));
    LostReply(stored, 0, e);
    assert SeenAs(stored + [LoseReply(0, e)], 0, HttpStatus(e));
    RequestsAlwaysArrive([], 0, Body(1, []));
    var unstored := [] + [Arrive(0, Body(1, []))];
    LostReply(unstored, 0, e);
    assert SeenAs(unstored + [LoseReply(0, e)], 0, HttpStatus(e));
  }

  /** The call can still save: its lookups would succeed from here on and the keys are new. */
  ghost predicate CanSave(s: State, c: CallId, keys: Keys) {
    && InFlight(s, c) && Underway(s.calls[c]) && UserPasses(s.store, s.calls[c], NoFault)
    && FirstFailure(s.store.menu, Req(s.calls[c]).items, NoFault, |LinesSoFar(s.calls[c])|) == |Req(s.calls[c]).items|
    && Fresh(s.store.tables, keys, |Req(s.calls[c]).items|)
  }

  /** Wherever a call in flight is, its client can be given an error first and the order be stored after. */
  lemma StoredAfterLoss(run: seq<Step>, c: CallId, e: RpcError, keys: Keys) returns (more: seq<Step>)
    requires CanSave(Exec(run), c, keys) && Exec(run).calls[c].reply.Waiting? && TransportError(e)
    ensures SeenAs(run + [LoseReply(c, e)], c, HttpStatus(e)) && !Committed(Exec(run + [LoseReply(c, e)]), c)
    ensures Exec(run + [LoseReply(c, e)]).store == Exec(run).store
    ensures Committed(Exec(run + [LoseReply(c, e)] + more), c)
  {
    var lost := run + [LoseReply(c, e)];
    LostReply(run, c, e);
    var call := Exec(lost).calls[c];
    assert call == Exec(run).calls[c].(reply := FromTransport(HttpStatus(e)));
    more := Rest(call, c, NoFault, keys);
    CallFinishes(Exec(lost), c, NoFault, keys);
    ExecAppend(lost, more);
  }

  // ---- What a status settles ---------------------------------------------------------------------

  /** After `n` steps of the run, call `c` has been answered with this status. */
  ghost predicate AnsweredAt(run: seq<Step>, n: nat, c: CallId, status: nat) {
    && n <= |run| && c in Exec(run[..n]).calls && !Exec(run[..n]).calls[c].reply.Waiting?
    && StatusOf(Exec(run[..n]).calls[c].reply) == status
  }

  ghost predicate Answerable(status: nat) {
    exists run, n, c :: AnsweredAt(run, n, c, status)
  }

  ghost predicate AlwaysStored(status: nat) {
    forall run, n, c :: AnsweredAt(run, n, c, status) ==> Committed(Exec(run), c)
  }

  ghost predicate NeverStored(status: nat) {
    forall run, n, c :: AnsweredAt(run, n, c, status) ==> !Committed(Exec(run), c)
  }

  lemma AnswerStatuses(run: seq<Step>, n: nat, c: CallId, status: nat)
    requires AnsweredAt(run, n, c, status)
    ensures status in {201, 400, 401, 403, 500, 501, 503}
    ensures status == 201 ==> Committed(Exec(run), c)
    ensures status == 400 ==> !Committed(Exec(run), c)
  {
    DefiniteAnswers(run, n, c);
    if Exec(run[..n]).calls[c].reply.FromTransport? {
      ReplySources(run[..n], c);
    }
  }

  function ErrorFor(status: nat): (e: RpcError)
    requires status in {401, 403, 500, 501, 503}
    ensures TransportError(e) && HttpStatus(e) == status
  {
    Status(if status == 401 then Unauthenticated else if status == 403 then PermissionDenied
           else if status == 500 then Internal else if status == 501 then Unimplemented else Unavailable)
  }

  lemma SeenIsAnswered(run: seq<Step>, c: CallId, status: nat)
    requires c in Exec(run).calls && !Exec(run).calls[c].reply.Waiting?
    requires StatusOf(Exec(run).calls[c].reply) == status
    ensures AnsweredAt(run, |run|, c, status)
  {
    assert run[..|run|] == run;
  }

  lemma StoredAndAnswered(run: seq<Step>, c: CallId, status: nat)
    requires SeenAs(run, c, status) && Committed(Exec(run), c)
    ensures Answerable(status) && !NeverStored(status)
  {
    SeenIsAnswered(run, c, status);
  }

  lemma UnstoredAndAnswered(run: seq<Step>, c: CallId, status: nat)
    requires SeenAs(run, c, status) && Exec(run).store.tables.orders == map[]
    ensures !AlwaysStored(status)
  {
    SeenIsAnswered(run, c, status);
    ReachableInv(run);
    assert CallSound(Exec(run).store, Exec(run).calls[c]);
  }

  lemma TransportStatusSettlesNothing(status: nat)
    requires status in {401, 403, 500, 501, 503}
    ensures Answerable(status) && !AlwaysStored(status) && !NeverStored(status)
  {
    LostReplyIsAmbiguous(ErrorFor(status));
    var stored, c :| SeenAs(stored, c, status) && Committed(Exec(stored), c);
    StoredAndAnswered(stored, c, status);
    var unstored, d :| SeenAs(unstored, d, status) && Exec(unstored).store.tables.orders == map[];
    UnstoredAndAnswered(unstored, d, status);
  }

  lemma AnsweredByService(run: seq<Step>, c: CallId, status: nat)
    requires c in Exec(run).calls && Exec(run).calls[c].reply.Waiting? && Exec(run).calls[c].phase.Done?
    requires var o := Exec(run).calls[c].phase.outcome; status == if o.Created? then 201 else if o.SaveFailed? then 500 else 400
    ensures Answerable(status)
  {
    var answered := run + [Deliver(c)];
    AnswersAreDelivered(run, c);
    ReachableInv(answered);
    assert ReplySound(Exec(answered).calls[c]);
    SeenIsAnswered(answered, c, status);
  }

  lemma DefiniteAreAnswerable()
    ensures Answerable(201) && Answerable(400)
  {
    var stored := StoredAndWaiting(User("", "", false));
    AnsweredByService(stored, 0, 201);
    var req, keys := OrderRequest(1, []), Keys(1, []);
    var refused := [] + Solo(0, req, NoFault, keys);
    ExecAppend([], Solo(0, req, NoFault, keys));
    SoloEnds(INIT, 0, req, NoFault, keys);
    AnsweredByService(refused, 0, 400);
  }

  /** These are the statuses a client can get, and of them exactly 201 and 400 settle whether the order is stored. */
  lemma StatusSettles(status: nat)
    ensures Answerable(status) <==> status in {201, 400, 401, 403, 500, 501, 503}
    ensures Answerable(status) ==> (AlwaysStored(status) <==> status == 201)
    ensures Answerable(status) ==> (NeverStored(status) <==> status == 400)
  {
    forall run, n, c | AnsweredAt(run, n, c, status)
      ensures status in {201, 400, 401, 403, 500, 501, 503}
      ensures status == 201 ==> Committed(Exec(run), c)
      ensures status == 400 ==> !Committed(Exec(run), c)
    {
      AnswerStatuses(run, n, c, status);
    }
    if status in {401, 403, 500, 501, 503} {
      TransportStatusSettlesNothing(status);
    }
    DefiniteAreAnswerable();
  }

  /** A client is told `status` before its order is stored. */
  ghost predicate ToldTooSoon(run: seq<Step>, n: nat, c: CallId, status: nat) {
    AnsweredAt(run, n, c, status) && !Committed(Exec(run[..n]), c) && Committed(Exec(run), c)
  }

  lemma TransportStatusTooSoon(status: nat, user: User)
    requires status in {401, 403, 500, 501, 503}
    ensures exists run, n, c :: ToldTooSoon(run, n, c, status)
  {
    var users := [] + [CreateUser(1, user)];
    var run, e := users + [Arrive(0, Body(1, []))], ErrorFor(status);
    assert users[..0] == [];
    RequestsAlwaysArrive(users, 0, Body(1, []));
    var more := StoredAfterLoss(run, 0, e, Keys(1, []));
    var lost := run + [LoseReply(0, e)];
    assert (lost + more)[..|lost|] == lost;
    assert ToldTooSoon(lost + more, |lost|, 0, status);
  }

  /** Exactly after the statuses that settle nothing, an order may be stored that was not when its client was told. */
  lemma ToldTooSoonIff(status: nat)
    ensures (exists run, n, c :: ToldTooSoon(run, n, c, status)) <==> status in {401, 403, 500, 501, 503}
  {
    forall run, n: nat, c | ToldTooSoon(run, n, c, status)
      ensures status in {401, 403, 500, 501, 503}
    {
      AnswerStatuses(run, n, c, status);
      assert run[..n][..n] == run[..n];
      AnswerStatuses(run[..n], n, c, status);
    }
    if status in {401, 403, 500, 501, 503} {
      TransportStatusTooSoon(status, User("", "", false));
    }
  }
}
