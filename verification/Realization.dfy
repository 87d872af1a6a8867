/**
 * The converse of the refinement: whatever the monolith can do with a request that fits the
 * wire, the services can do by running that call's steps without interruption.
 */
module Realization {
  import opened Collections
  import opened Integers
  import opened Models
  import opened Monolith
  import opened Gateway
  import opened Protocol
  import opened Refinement

  predicate OnWire(req: OrderRequest) {
    && IsUint32(req.userId)
    && forall k :: 0 <= k < |req.items| ==> IsUint32(req.items[k].menuItemId) && IsInt32(req.items[k].quantity)
  }

  /** A body the gateway turns into `req`: a negative `int32` travels as its `uint32` pattern. */
  function BodyFor(req: OrderRequest): Body {
    Body(req.userId, seq(|req.items|, k requires 0 <= k < |req.items| =>
      BodyItem(req.items[k].menuItemId, ToUint32(req.items[k].quantity))))
  }

  lemma BodyForWire(req: OrderRequest)
    requires OnWire(req)
    ensures GatewayDecodes(BodyFor(req)) && WireRequest(BodyFor(req)) == req
  {
  }

  ghost function ExecFrom(s: State, steps: seq<Step>): State {
    if steps == [] then s else Apply(ExecFrom(s, steps[..|steps| - 1]), steps[|steps| - 1])
  }

  lemma {:induction false} ExecAppend(run: seq<Step>, more: seq<Step>)
    ensures Exec(run + more) == ExecFrom(Exec(run), more)
  {
    if more == [] {
      assert run + more == run;
    } else {
      ExecAppend(run, more[..|more| - 1]);
      assert (run + more)[..|run + more| - 1] == run + more[..|more| - 1];
    }
  }

  lemma ExecOneMore(s: State, steps: seq<Step>, step: Step)
    ensures ExecFrom(s, steps + [step]) == Apply(ExecFrom(s, steps), step)
  {
  }

  // ---- What is left of a call ---------------------------------------------------------------------

  function LinesSoFar(call: Call): seq<Line> {
    if call.phase.Pricing? then call.phase.lines else []
  }

  /** A call that has not come further than its request allows, as in every reachable state. */
  predicate Underway(call: Call) {
    GatewayDecodes(call.body) && !call.phase.Done? && |LinesSoFar(call)| <= |Req(call).items|
  }

  function Lookups(c: CallId, fault: Fault, start: nat, end: nat): seq<Step>
    requires start <= end
  {
    seq(end - start, (k: nat) => PriceItem(c, fault == ItemLookup(start + k)))
  }

  /** The user check, unless it is behind the call, and the lookups before item `k`. */
  function RestUpTo(call: Call, c: CallId, fault: Fault, k: nat): seq<Step>
    requires |LinesSoFar(call)| <= k
  {
    [CheckUser(c, fault == UserLookup)] + Lookups(c, fault, |LinesSoFar(call)|, k)
  }

  /** All steps a call has left, in a row; those behind it or after a refusal are not enabled. */
  function Rest(call: Call, c: CallId, fault: Fault, keys: Keys): seq<Step>
    requires Underway(call)
  {
    RestUpTo(call, c, fault, |Req(call).items|) + [Commit(c, fault == Save, keys)]
  }

  predicate UserPasses(store: Store, call: Call, fault: Fault)
    requires Underway(call)
  {
    call.phase.Pricing? || (fault != UserLookup && Req(call).userId in store.users)
  }

  /** The call's phase once it has looked up the items before `k`, on a store that stands still. */
  ghost function PhaseAfter(store: Store, call: Call, fault: Fault, k: nat): Phase
    requires Underway(call) && |LinesSoFar(call)| <= k <= |Req(call).items|
  {
    var req, lines := Req(call), LinesSoFar(call);
    var first := FirstFailure(store.menu, req.items, fault, |lines|);
    if !UserPasses(store, call, fault) then Done(UserNotFound)
    else if first < k then Done(ItemNotFound(first))
    else Pricing(lines + Priced(store.menu, req.items[|lines|..k]))
  }

  ghost predicate FinishFits(store: Store, call: Call, fault: Fault, keys: Keys)
    requires Underway(call)
  {
    var req := Req(call);
    UserPasses(store, call, fault) && fault != Save
      && FirstFailure(store.menu, req.items, fault, |LinesSoFar(call)|) == |req.items| ==>
      Fresh(store.tables, keys, |req.items|)
  }

  /** What the rest of the call comes to: lines it has are kept, the others are priced now. */
  ghost function Finish(store: Store, call: Call, fault: Fault, keys: Keys): (Store, Outcome)
    requires Underway(call) && FinishFits(store, call, fault, keys)
  {
    match PhaseAfter(store, call, fault, |Req(call).items|)
    case Done(outcome) => (store, outcome)
    case Pricing(lines) =>
      if fault == Save then (store, SaveFailed)
      else
        var order := Saved(Req(call).userId, lines, keys);
        (store.(tables := Insert(store.tables, order)), Created(order))
    case Started => (store, SaveFailed)
  }

  lemma AfterCheck(s: State, c: CallId, fault: Fault)
    requires c in s.calls && Underway(s.calls[c])
    ensures Apply(s, CheckUser(c, fault == UserLookup)) ==
      Enter(s, c, PhaseAfter(s.store, s.calls[c], fault, |LinesSoFar(s.calls[c])|))
  {
    var lines := LinesSoFar(s.calls[c]);
    assert lines + Priced(s.store.menu, Req(s.calls[c]).items[|lines|..|lines|]) == lines;
    assert s.calls[c := s.calls[c].(phase := s.calls[c].phase)] == s.calls;
  }

  lemma PricedOneMore(menu: Menu, items: seq<ItemRequest>, fault: Fault, start: nat, k: nat)
    requires start <= k < |items| && FirstFailure(menu, items, fault, start) > k
    ensures Priced(menu, items[start..k + 1]) ==
      Priced(menu, items[start..k]) + [Line(items[k].menuItemId, items[k].quantity, menu[items[k].menuItemId].price)]
  {
  }

  lemma EnterAgain(s: State, c: CallId, phase: Phase, next: Phase)
    requires c in s.calls
    ensures Enter(Enter(s, c, phase), c, next) == Enter(s, c, next)
  {
  }

  /** The phase after one more lookup, from the phase before it. */
  lemma PhaseAfterOne(store: Store, call: Call, fault: Fault, k: nat)
    requires Underway(call) && |LinesSoFar(call)| <= k < |Req(call).items|
    ensures var phase, item := PhaseAfter(store, call, fault, k), Req(call).items[k];
      PhaseAfter(store, call, fault, k + 1) ==
        if phase.Done? then phase
        else if fault == ItemLookup(k) || item.menuItemId !in store.menu then Done(ItemNotFound(k))
        else Pricing(phase.lines + [Line(item.menuItemId, item.quantity, store.menu[item.menuItemId].price)])
    ensures var phase := PhaseAfter(store, call, fault, k); !phase.Started? && (phase.Pricing? ==> |phase.lines| == k)
  {
    var items, start := Req(call).items, |LinesSoFar(call)|;
    if UserPasses(store, call, fault) && FirstFailure(store.menu, items, fault, start) > k {
      PricedOneMore(store.menu, items, fault, start, k);
    }
  }

  lemma OneLookup(s: State, c: CallId, fault: Fault, k: nat)
    requires c in s.calls && Underway(s.calls[c]) && |LinesSoFar(s.calls[c])| <= k < |Req(s.calls[c]).items|
    ensures Apply(Enter(s, c, PhaseAfter(s.store, s.calls[c], fault, k)), PriceItem(c, fault == ItemLookup(k))) ==
      Enter(s, c, PhaseAfter(s.store, s.calls[c], fault, k + 1))
  {
    var phase, next := PhaseAfter(s.store, s.calls[c], fault, k), PhaseAfter(s.store, s.calls[c], fault, k + 1);
    PhaseAfterOne(s.store, s.calls[c], fault, k);
    EnterAgain(s, c, phase, next);
    assert Enter(s, c, phase).calls[c] == s.calls[c].(phase := phase);
  }

  lemma OneMoreLookup(call: Call, c: CallId, fault: Fault, k: nat)
    requires |LinesSoFar(call)| <= k
    ensures RestUpTo(call, c, fault, k + 1) == RestUpTo(call, c, fault, k) + [PriceItem(c, fault == ItemLookup(k))]
  {
  }

  ghost predicate ArrivesAt(s: State, c: CallId, fault: Fault, k: nat) {
    && c in s.calls && Underway(s.calls[c]) && |LinesSoFar(s.calls[c])| <= k <= |Req(s.calls[c]).items|
    && ExecFrom(s, RestUpTo(s.calls[c], c, fault, k)) == Enter(s, c, PhaseAfter(s.store, s.calls[c], fault, k))
  }

  lemma ArrivesFirst(s: State, c: CallId, fault: Fault)
    requires c in s.calls && Underway(s.calls[c])
    ensures ArrivesAt(s, c, fault, |LinesSoFar(s.calls[c])|)
  {
    var check := CheckUser(c, fault == UserLookup);
    AfterCheck(s, c, fault);
    ExecOneMore(s, [], check);
    assert RestUpTo(s.calls[c], c, fault, |LinesSoFar(s.calls[c])|) == [] + [check];
  }

  lemma ArrivesNext(s: State, c: CallId, fault: Fault, k: nat)
    requires ArrivesAt(s, c, fault, k) && k < |Req(s.calls[c]).items|
    ensures ArrivesAt(s, c, fault, k + 1)
  {
    var steps := RestUpTo(s.calls[c], c, fault, k);
    OneMoreLookup(s.calls[c], c, fault, k);
    ExecOneMore(s, steps, PriceItem(c, fault == ItemLookup(k)));
    OneLookup(s, c, fault, k);
  }

  lemma AfterLookups(s: State, c: CallId, fault: Fault)
    requires c in s.calls && Underway(s.calls[c])
    ensures ArrivesAt(s, c, fault, |Req(s.calls[c]).items|)
  {
    ArrivesFirst(s, c, fault);
    for k := |LinesSoFar(s.calls[c])| to |Req(s.calls[c]).items|
      invariant ArrivesAt(s, c, fault, k)
    {
      ArrivesNext(s, c, fault, k);
    }
  }

  lemma LastStep(s: State, c: CallId, fault: Fault, keys: Keys)
    requires c in s.calls && Underway(s.calls[c]) && FinishFits(s.store, s.calls[c], fault, keys)
    ensures var (store, outcome) := Finish(s.store, s.calls[c], fault, keys);
      Apply(Enter(s, c, PhaseAfter(s.store, s.calls[c], fault, |Req(s.calls[c]).items|)), Commit(c, fault == Save, keys)) ==
        Enter(s.(store := store), c, Done(outcome))
  {
    var phase := PhaseAfter(s.store, s.calls[c], fault, |Req(s.calls[c]).items|);
    var s' := Enter(s, c, phase);
    assert s'.calls[c] == s.calls[c].(phase := phase) && Req(s'.calls[c]) == Req(s.calls[c]);
    assert Enabled(s', Commit(c, fault == Save, keys)) <==> phase.Pricing?;
  }

  /** A call under way can go on by itself to its end, whatever its client has been told meanwhile. */
  lemma CallFinishes(s: State, c: CallId, fault: Fault, keys: Keys)
    requires c in s.calls && Underway(s.calls[c]) && FinishFits(s.store, s.calls[c], fault, keys)
    ensures var (store, outcome) := Finish(s.store, s.calls[c], fault, keys);
      ExecFrom(s, Rest(s.calls[c], c, fault, keys)) == Enter(s.(store := store), c, Done(outcome))
  {
    var n := |Req(s.calls[c]).items|;
    ExecOneMore(s, RestUpTo(s.calls[c], c, fault, n), Commit(c, fault == Save, keys));
    AfterLookups(s, c, fault);
    LastStep(s, c, fault, keys);
  }

  /** The fault, if any, is of a call not made yet. */
  predicate FaultAhead(call: Call, fault: Fault) {
    call.phase.Pricing? ==> fault != UserLookup && (fault.ItemLookup? ==> fault.index >= |call.phase.lines|)
  }

  lemma FailureAhead(menu: Menu, items: seq<ItemRequest>, fault: Fault, start: nat)
    requires start <= |items|
    requires forall k :: 0 <= k < start ==> items[k].menuItemId in menu && fault != ItemLookup(k)
    ensures FirstFailure(menu, items, fault, 0) == FirstFailure(menu, items, fault, start)
  {
  }

  lemma PricedTogether(menu: Menu, items: seq<ItemRequest>, lines: seq<Line>)
    requires |lines| <= |items| && forall k :: 0 <= k < |items| ==> items[k].menuItemId in menu
    requires forall k :: 0 <= k < |lines| ==>
      lines[k] == Line(items[k].menuItemId, items[k].quantity, menu[items[k].menuItemId].price)
    ensures lines + Priced(menu, items[|lines|..]) == Priced(menu, items)
  {
  }

  lemma LinesAreCurrent(s: State, c: CallId, fault: Fault, k: nat)
    requires c in s.calls && CallSound(s.store, s.calls[c]) && Current(s, c) && FaultAhead(s.calls[c], fault)
    requires k < |LinesSoFar(s.calls[c])|
    ensures var item := Req(s.calls[c]).items[k];
      && item.menuItemId in s.store.menu && fault != ItemLookup(k)
      && LinesSoFar(s.calls[c])[k] == Line(item.menuItemId, item.quantity, s.store.menu[item.menuItemId].price)
  {
    var line := LinesSoFar(s.calls[c])[k];
    assert MatchesItem(s.store.menu, Req(s.calls[c]).items[k], line.menuItemId, line.quantity);
    assert MenuPrice(s.store.menu, line.menuItemId, line.price);
  }

  /** With current prices so far, the rest of the call is the whole atomic step. */
  lemma FinishIsAtomic(s: State, c: CallId, fault: Fault, keys: Keys)
    requires c in s.calls && CallSound(s.store, s.calls[c]) && InFlight(s, c)
    requires Current(s, c) && FaultAhead(s.calls[c], fault)
    ensures FinishFits(s.store, s.calls[c], fault, keys) <==> KeysFit(s.store, Req(s.calls[c]), fault, keys)
    ensures FinishFits(s.store, s.calls[c], fault, keys) ==>
      Finish(s.store, s.calls[c], fault, keys) == CreateOrder(s.store, Req(s.calls[c]), fault, keys)
  {
    var req, lines := Req(s.calls[c]), LinesSoFar(s.calls[c]);
    forall k | 0 <= k < |lines|
      ensures req.items[k].menuItemId in s.store.menu && fault != ItemLookup(k)
      ensures lines[k] == Line(req.items[k].menuItemId, req.items[k].quantity, s.store.menu[req.items[k].menuItemId].price)
    {
      LinesAreCurrent(s, c, fault, k);
    }
    FailureAhead(s.store.menu, req.items, fault, |lines|);
    if Accepts(s.store, req, fault) {
      PricedTogether(s.store.menu, req.items, lines);
      assert req.items[|lines|..|req.items|] == req.items[|lines|..];
    }
  }

  /**
   * In every reachable state, every call in flight can be finished by its own steps, also after
   * its client was given an error: it keeps the lines it has and prices the others now. If the
   * prices it has are current, this is the monolith's atomic step. Nothing else changes.
   */
  lemma CallCanFinish(run: seq<Step>, c: CallId, fault: Fault, keys: Keys)
    requires InFlight(Exec(run), c)
    ensures Underway(Exec(run).calls[c])
    ensures FinishFits(Exec(run).store, Exec(run).calls[c], fault, keys) ==>
      var s := Exec(run);
      var (store, outcome) := Finish(s.store, s.calls[c], fault, keys);
      && Exec(run + Rest(s.calls[c], c, fault, keys)) ==
           State(store, s.calls[c := s.calls[c].(phase := Done(outcome))])
      && (Current(s, c) && FaultAhead(s.calls[c], fault) ==>
            KeysFit(s.store, Req(s.calls[c]), fault, keys) &&
            (store, outcome) == CreateOrder(s.store, Req(s.calls[c]), fault, keys))
  {
    var s := Exec(run);
    ReachableInv(run);
    assert CallSound(s.store, s.calls[c]);
    if FinishFits(s.store, s.calls[c], fault, keys) {
      CallFinishes(s, c, fault, keys);
      ExecAppend(run, Rest(s.calls[c], c, fault, keys));
      if Current(s, c) && FaultAhead(s.calls[c], fault) {
        FinishIsAtomic(s, c, fault, keys);
      }
    }
  }

  // ---- Whole calls ----------------------------------------------------------------------------------

  /** A request from its arrival to its end, without interruption. */
  function Solo(c: CallId, req: OrderRequest, fault: Fault, keys: Keys): seq<Step>
    requires OnWire(req)
  {
    BodyForWire(req);
    [Arrive(c, BodyFor(req))] + Rest(Call(BodyFor(req), Started, Waiting), c, fault, keys)
  }

  lemma {:induction false} ExecFromAppend(s: State, steps: seq<Step>, more: seq<Step>)
    ensures ExecFrom(s, steps + more) == ExecFrom(ExecFrom(s, steps), more)
  {
    if more == [] {
      assert steps + more == steps;
    } else {
      ExecFromAppend(s, steps, more[..|more| - 1]);
      assert (steps + more)[..|steps + more| - 1] == steps + more[..|more| - 1];
    }
  }

  lemma ArrivalStarts(s: State, c: CallId, req: OrderRequest)
    requires c !in s.calls && OnWire(req)
    ensures var call := Call(BodyFor(req), Started, Waiting);
      && ExecFrom(s, [Arrive(c, BodyFor(req))]) == State(s.store, s.calls[c := call])
      && Underway(call) && Req(call) == req
  {
    BodyForWire(req);
    ExecOneMore(s, [], Arrive(c, BodyFor(req)));
    assert [] + [Arrive(c, BodyFor(req))] == [Arrive(c, BodyFor(req))];
  }

  lemma SoloEnds(s: State, c: CallId, req: OrderRequest, fault: Fault, keys: Keys)
    requires c !in s.calls && OnWire(req) && KeysFit(s.store, req, fault, keys)
    ensures var (store, outcome) := CreateOrder(s.store, req, fault, keys);
      ExecFrom(s, Solo(c, req, fault, keys)) == State(store, s.calls[c := Call(BodyFor(req), Done(outcome), Waiting)])
  {
    var call := Call(BodyFor(req), Started, Waiting);
    ArrivalStarts(s, c, req);
    var s' := State(s.store, s.calls[c := call]);
    ExecFromAppend(s, [Arrive(c, BodyFor(req))], Rest(call, c, fault, keys));
    FinishIsAtomic(s', c, fault, keys);
    CallFinishes(s', c, fault, keys);
  }

  lemma AbsFinished(s: State, store: Store, c: CallId, call: Call)
    requires c !in s.calls && call.phase.Done?
    ensures Abs(State(store, s.calls[c := call])) == MonolithState(store, Abs(s).outcomes[c := call.phase.outcome])
  {
  }

  /** An uninterrupted call is the monolith's atomic step. */
  lemma SoloIsAtomic(s: State, c: CallId, req: OrderRequest, fault: Fault, keys: Keys)
    requires c !in s.calls && OnWire(req) && KeysFit(s.store, req, fault, keys)
    ensures Do(Abs(s), PlaceOrder(c, req, fault, keys)) == Some(Abs(ExecFrom(s, Solo(c, req, fault, keys))))
    ensures ExecFrom(s, Solo(c, req, fault, keys)).calls.Keys == s.calls.Keys + {c}
  {
    SoloEnds(s, c, req, fault, keys);
    var (store, outcome) := CreateOrder(s.store, req, fault, keys);
    AbsFinished(s, store, c, Call(BodyFor(req), Done(outcome), Waiting));
  }

  lemma AdditionIsAtomic(s: State, a: Atomic)
    requires !a.PlaceOrder? && Do(Abs(s), a).Some?
    ensures Do(Abs(s), a) == Some(Abs(ExecFrom(s, RealizeStep(a))))
    ensures ExecFrom(s, RealizeStep(a)).calls == s.calls
    ensures Do(Abs(s), a).value.outcomes == Abs(s).outcomes
  {
  }

  function RealizeStep(a: Atomic): seq<Step>
    requires a.PlaceOrder? ==> OnWire(a.req)
  {
    match a
    case AddUser(id, user) => [CreateUser(id, user)]
    case AddMenuItem(id, item) => [CreateMenuItem(id, item)]
    case SetPrice(id, price) => [ChangePrice(id, price)]
    case PlaceOrder(c, req, fault, keys) => Solo(c, req, fault, keys)
  }

  predicate AllOnWire(trace: seq<Atomic>) {
    forall i :: 0 <= i < |trace| && trace[i].PlaceOrder? ==> OnWire(trace[i].req)
  }

  function Realize(trace: seq<Atomic>): seq<Step>
    requires AllOnWire(trace)
  {
    if trace == [] then [] else Realize(trace[..|trace| - 1]) + RealizeStep(trace[|trace| - 1])
  }

  /** Every possible monolith run over wire requests is a run of the services. */
  lemma {:induction false} MonolithIsRealized(trace: seq<Atomic>)
    requires DoAll(trace).Some? && AllOnWire(trace)
    ensures Some(Abs(Exec(Realize(trace)))) == DoAll(trace)
    ensures Exec(Realize(trace)).calls.Keys == DoAll(trace).value.outcomes.Keys
  {
    if trace != [] {
      var front, a := trace[..|trace| - 1], trace[|trace| - 1];
      MonolithIsRealized(front);
      var s := Exec(Realize(front));
      ExecAppend(Realize(front), RealizeStep(a));
      if a.PlaceOrder? {
        SoloIsAtomic(s, a.c, a.req, a.fault, a.keys);
      } else {
        AdditionIsAtomic(s, a);
      }
    }
  }
}
