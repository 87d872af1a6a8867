/**
 * Order creation across the gateway and the three services, as interleaved steps.
 *
 * Any number of `CreateOrder` calls are in flight. Each checks its user, prices its items one
 * call at a time and commits once; no lock spans the services. A label says which step is
 * scheduled and what the environment does to it (a failing call, the keys the database picks).
 * A label that is not enabled changes nothing, so every sequence of labels is a run.
 */
module Protocol {
  import opened Collections
  import opened Models
  import opened Monolith
  import opened Gateway

  type CallId = nat

  datatype Phase =
    | Started
    | Pricing(lines: seq<Line>)
    | Done(outcome: Outcome)

  /** What the HTTP client has been told, and whether the order service said it. */
  datatype Reply =
    | Waiting
    | FromService(answer: Http<ProtoOrder>)
    | FromTransport(status: nat)

  datatype Call = Call(body: Body, phase: Phase, reply: Reply)

  datatype State = State(store: Store, calls: map<CallId, Call>)

  datatype Step =
    | CreateUser(id: Id, user: User)
    | CreateMenuItem(id: Id, item: MenuItem)
    | ChangePrice(id: Id, price: real)       // no service offers this; the environment may do it
    | Arrive(c: CallId, body: Body)          // the gateway forwards a decoded request
    | CheckUser(c: CallId, fault: bool)      // GetUser, failing of itself if `fault`
    | PriceItem(c: CallId, fault: bool)      // GetMenuItem for the next item
    | Commit(c: CallId, fault: bool, keys: Keys)
    | Deliver(c: CallId)                     // the gateway gets the service's result
    | LoseReply(c: CallId, error: RpcError)  // the gateway gets a transport error instead

  const INIT := State(EMPTY_STORE, map[])

  function Req(call: Call): OrderRequest
    requires GatewayDecodes(call.body)
  {
    WireRequest(call.body)
  }

  predicate UserFits(users: Users, id: Id, user: User) {
    id > 0 && id !in users && forall i :: i in users ==> users[i].email != user.email
  }

  predicate MenuItemFits(menu: Menu, id: Id) {
    id > 0 && id !in menu
  }

  predicate Active(s: State, c: CallId) {
    c in s.calls && GatewayDecodes(s.calls[c].body)
  }

  predicate InFlight(s: State, c: CallId) {
    c in s.calls && !s.calls[c].phase.Done?
  }

  ghost predicate Enabled(s: State, step: Step) {
    match step
    case CreateUser(id, user) => UserFits(s.store.users, id, user)
    case CreateMenuItem(id, _) => MenuItemFits(s.store.menu, id)
    case ChangePrice(id, _) => id in s.store.menu
    case Arrive(c, body) => c !in s.calls && GatewayDecodes(body)
    case CheckUser(c, _) => Active(s, c) && s.calls[c].phase.Started?
    case PriceItem(c, _) =>
      Active(s, c) && s.calls[c].phase.Pricing? && |s.calls[c].phase.lines| < |Req(s.calls[c]).items|
    case Commit(c, fault, keys) =>
      && Active(s, c) && s.calls[c].phase.Pricing?
      && |s.calls[c].phase.lines| == |Req(s.calls[c]).items|
      && (fault || Fresh(s.store.tables, keys, |Req(s.calls[c]).items|))
    case Deliver(c) => Active(s, c) && s.calls[c].phase.Done? && s.calls[c].reply.Waiting?
    case LoseReply(c, error) => Active(s, c) && s.calls[c].reply.Waiting? && TransportError(error)
  }

  ghost function Next(s: State, step: Step): State
    requires Enabled(s, step)
  {
    match step
    case CreateUser(id, user) => s.(store := s.store.(users := s.store.users[id := user]))
    case CreateMenuItem(id, item) => s.(store := s.store.(menu := s.store.menu[id := item]))
    case ChangePrice(id, price) =>
      s.(store := s.store.(menu := s.store.menu[id := s.store.menu[id].(price := price)]))
    case Arrive(c, body) => s.(calls := s.calls[c := Call(body, Started, Waiting)])
    case CheckUser(c, fault) =>
      Enter(s, c, if fault || Req(s.calls[c]).userId !in s.store.users then Done(UserNotFound) else Pricing([]))
    case PriceItem(c, fault) =>
      var lines := s.calls[c].phase.lines;
      var item := Req(s.calls[c]).items[|lines|];
      Enter(s, c,
        if fault || item.menuItemId !in s.store.menu then Done(ItemNotFound(|lines|))
        else Pricing(lines + [Line(item.menuItemId, item.quantity, s.store.menu[item.menuItemId].price)]))
    case Commit(c, fault, keys) =>
      if fault then Enter(s, c, Done(SaveFailed))
      else
        var order := Saved(Req(s.calls[c]).userId, s.calls[c].phase.lines, keys);
        Enter(s.(store := s.store.(tables := Insert(s.store.tables, order))), c, Done(Created(order)))
    case Deliver(c) => Tell(s, c, FromService(Answer(RpcOf(s.calls[c].phase.outcome))))
    case LoseReply(c, error) => Tell(s, c, FromTransport(HttpStatus(error)))
  }

  function Enter(s: State, c: CallId, phase: Phase): State
    requires c in s.calls
  {
    s.(calls := s.calls[c := s.calls[c].(phase := phase)])
  }

  function Tell(s: State, c: CallId, reply: Reply): State
    requires c in s.calls
  {
    s.(calls := s.calls[c := s.calls[c].(reply := reply)])
  }

  ghost function Apply(s: State, step: Step): State {
    if Enabled(s, step) then Next(s, step) else s
  }

  /** The state after a run from the empty system. */
  ghost function Exec(run: seq<Step>): State {
    if run == [] then INIT else Apply(Exec(run[..|run| - 1]), run[|run| - 1])
  }

  // ---- What every step keeps ------------------------------------------------------------------

  /** Tables only grow: rows are neither removed nor, prices aside, changed. */
  ghost predicate Grows(s: State, s': State) {
    && (forall id :: id in s.store.users ==> id in s'.store.users && s'.store.users[id] == s.store.users[id])
    && (forall id :: id in s.store.menu ==>
          id in s'.store.menu && s'.store.menu[id].(price := s.store.menu[id].price) == s.store.menu[id])
    && (forall id :: id in s.store.tables.orders ==>
          id in s'.store.tables.orders && s'.store.tables.orders[id] == s.store.tables.orders[id])
    && (forall id :: id in s.store.tables.items ==>
          id in s'.store.tables.items && s'.store.tables.items[id] == s.store.tables.items[id])
  }

  ghost predicate MatchesItem(menu: Menu, item: ItemRequest, menuItemId: Id, quantity: int) {
    item.menuItemId in menu && menuItemId == item.menuItemId && quantity == item.quantity
  }

  /** A call's half-built or finished order answers its own request, against rows that exist. */
  ghost predicate CallSound(store: Store, call: Call) {
    && GatewayDecodes(call.body)
    && match call.phase
       case Started => true
       case Pricing(lines) =>
         && Req(call).userId in store.users && |lines| <= |Req(call).items|
         && forall k :: 0 <= k < |lines| ==>
              MatchesItem(store.menu, Req(call).items[k], lines[k].menuItemId, lines[k].quantity)
       case Done(Created(o)) =>
         && Req(call).userId in store.users && o.userId == Req(call).userId && o.status == "pending"
         && |o.items| == |Req(call).items|
         && (forall k :: 0 <= k < |o.items| ==>
              MatchesItem(store.menu, Req(call).items[k], o.items[k].menuItemId, o.items[k].quantity))
         && o.id > 0 && Loads(store.tables, o)
       case Done(_) => true
  }

  ghost predicate Committed(s: State, c: CallId) {
    c in s.calls && s.calls[c].phase.Done? && s.calls[c].phase.outcome.Created?
  }

  ghost function OrderOf(s: State, c: CallId): Order
    requires Committed(s, c)
  {
    s.calls[c].phase.outcome.order
  }

  ghost predicate CommittedAs(s: State, c: CallId, id: Id) {
    Committed(s, c) && OrderOf(s, c).id == id
  }

  /** Commits and order rows correspond one to one. */
  ghost predicate Owned(s: State) {
    && (forall id :: id in s.store.tables.orders ==> exists c :: CommittedAs(s, c, id))
    && (forall c, d :: Committed(s, c) && Committed(s, d) && OrderOf(s, c).id == OrderOf(s, d).id ==> c == d)
  }

  /** A reply given by the order service reports the call's outcome. */
  ghost predicate ReplySound(call: Call) {
    call.reply.FromService? ==> call.phase.Done? && call.reply.answer == Answer(RpcOf(call.phase.outcome))
  }

  ghost predicate UniqueEmails(users: Users) {
    forall i, j :: i in users && j in users && users[i].email == users[j].email ==> i == j
  }

  ghost predicate Inv(s: State) {
    && UniqueEmails(s.store.users)
    && Referential(s.store.tables)
    && Owned(s)
    && forall c :: c in s.calls ==> CallSound(s.store, s.calls[c]) && ReplySound(s.calls[c])
  }

  lemma CommitGrows(t: Tables, userId: Id, lines: seq<Line>, keys: Keys)
    requires Fresh(t, keys, |lines|)
    ensures var t' := Insert(t, Saved(userId, lines, keys));
      && (forall id :: id in t.orders ==> id in t'.orders && t'.orders[id] == t.orders[id])
      && (forall id :: id in t.items ==> id in t'.items && t'.items[id] == t.items[id])
  {
    var order := Saved(userId, lines, keys);
    InsertItemsRows(t.items, order.items);
    forall id | id in t.items
      ensures !HasKey(order.items, id)
    {
    }
  }

  lemma StepGrows(s: State, step: Step)
    ensures Grows(s, Apply(s, step))
    ensures forall c :: c in s.calls ==> c in Apply(s, step).calls && Apply(s, step).calls[c].body == s.calls[c].body
    ensures forall c :: c in s.calls && s.calls[c].phase.Done? ==> Apply(s, step).calls[c].phase == s.calls[c].phase
  {
    if Enabled(s, step) && step.Commit? && !step.fault {
      CommitGrows(s.store.tables, Req(s.calls[step.c]).userId, s.calls[step.c].phase.lines, step.keys);
    }
  }

  /** A call's soundness survives whatever other parties do to the store. */
  lemma SoundAsStoreGrows(s: State, step: Step, call: Call)
    requires CallSound(s.store, call)
    ensures CallSound(Apply(s, step).store, call)
  {
    StepGrows(s, step);
    if call.phase.Done? && call.phase.outcome.Created? && Enabled(s, step) && step.Commit? && !step.fault {
      CreateKeepsOthers(s.store.tables, call.phase.outcome.order,
        Req(s.calls[step.c]).userId, s.calls[step.c].phase.lines, step.keys);
    }
  }

  /** The committing call's finished order is sound: its lines were, and the insertion reads back. */
  lemma CommitSound(s: State, c: CallId, keys: Keys)
    requires Inv(s) && Enabled(s, Commit(c, false, keys))
    ensures var s' := Next(s, Commit(c, false, keys));
      Referential(s'.store.tables) && CallSound(s'.store, s'.calls[c])
  {
    var call := s.calls[c];
    var o := Saved(Req(call).userId, call.phase.lines, keys);
    CreateThenLoad(s.store.tables, Req(call).userId, call.phase.lines, keys);
    assert CallSound(s.store, call);
    forall k | 0 <= k < |o.items|
      ensures MatchesItem(s.store.menu, Req(call).items[k], o.items[k].menuItemId, o.items[k].quantity)
    {
    }
  }

  lemma FreshKeyIsNobodys(s: State, c: CallId, keys: Keys, d: CallId)
    requires Inv(s) && Enabled(s, Commit(c, false, keys)) && d != c
    ensures var s' := Next(s, Commit(c, false, keys));
      && (Committed(s', d) <==> Committed(s, d))
      && (Committed(s, d) ==> OrderOf(s', d) == OrderOf(s, d) && OrderOf(s, d).id != keys.order)
  {
  }

  /** A fresh key keeps commits and order rows in step with each other. */
  lemma CommitOwned(s: State, c: CallId, keys: Keys)
    requires Inv(s) && Enabled(s, Commit(c, false, keys))
    ensures Owned(Next(s, Commit(c, false, keys)))
  {
    var s' := Next(s, Commit(c, false, keys));
    forall d | d != c
      ensures Committed(s', d) <==> Committed(s, d)
      ensures Committed(s, d) ==> OrderOf(s', d) == OrderOf(s, d) && OrderOf(s, d).id != keys.order
    {
      FreshKeyIsNobodys(s, c, keys, d);
    }
    assert CommittedAs(s', c, keys.order);
    forall id | id in s'.store.tables.orders && id != keys.order
      ensures exists d :: CommittedAs(s', d, id)
    {
      var d :| CommittedAs(s, d, id);
      assert CommittedAs(s', d, id);
    }
  }

  lemma OwnedUnlessCommit(s: State, s': State)
    requires Owned(s) && s'.store.tables == s.store.tables
    requires forall c :: Committed(s', c) <==> Committed(s, c)
    requires forall c :: Committed(s, c) ==> OrderOf(s', c) == OrderOf(s, c)
    ensures Owned(s')
  {
    forall id | id in s'.store.tables.orders
      ensures exists c :: CommittedAs(s', c, id)
    {
      var c :| CommittedAs(s, c, id);
      assert CommittedAs(s', c, id);
    }
  }

  /** The scheduled call moves from one sound phase to another; all others are left alone. */
  lemma StepKeepsCall(s: State, step: Step, c: CallId)
    requires Inv(s) && Enabled(s, step) && c in Next(s, step).calls
    ensures CallSound(Next(s, step).store, Next(s, step).calls[c]) && ReplySound(Next(s, step).calls[c])
  {
    if c in s.calls {
      SoundAsStoreGrows(s, step, s.calls[c]);
      if step.Commit? && !step.fault && step.c == c {
        CommitSound(s, c, step.keys);
      }
    }
  }

  lemma StepKeepsInv(s: State, step: Step)
    requires Inv(s)
    ensures Inv(Apply(s, step))
  {
    if Enabled(s, step) {
      var s' := Next(s, step);
      if step.Commit? && !step.fault {
        CommitSound(s, step.c, step.keys);
        CommitOwned(s, step.c, step.keys);
      } else {
        OwnedUnlessCommit(s, s');
      }
      forall c | c in s'.calls
        ensures CallSound(s'.store, s'.calls[c]) && ReplySound(s'.calls[c])
      {
        StepKeepsCall(s, step, c);
      }
    }
  }

  /** Every reachable state, half-built orders included, satisfies the invariant. */
  lemma {:induction false} ReachableInv(run: seq<Step>)
    ensures Inv(Exec(run))
    ensures forall id :: id in Exec(run).store.users || id in Exec(run).store.menu ==> id > 0
  {
    if run != [] {
      ReachableInv(run[..|run| - 1]);
      StepKeepsInv(Exec(run[..|run| - 1]), run[|run| - 1]);
    }
  }
}
