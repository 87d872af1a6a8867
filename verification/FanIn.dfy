/**
 * `GetPurchase`: two goroutines, three buffered channels and a two-round select loop, under
 * every schedule. A label that is not enabled changes nothing, so every sequence of labels is
 * a schedule.
 */
module FanIn {
  import opened Collections

  /** A goroutine is in its RPC, about to send what the RPC returned, or gone. */
  datatype Worker<+T> = Calling | Sending(result: Lookup<T>) | Gone(sent: Lookup<T>)

  datatype Handler =
    | Selecting(round: nat)
    | Answered
    | Errored(error: string)
    | Cancelled

  const USER_CAP := 1
  const PRODUCT_CAP := 1
  const ERR_CAP := 2

  datatype State<U, P> = State(
    user: Worker<U>, product: Worker<P>,
    userChan: seq<U>, productChan: seq<P>, errChan: seq<string>,
    ctxDone: bool,
    handler: Handler, userRes: Option<U>, productRes: Option<P>)

  datatype Step<U, P> =
    | UserReturns(u: Lookup<U>) | UserSends
    | ProductReturns(p: Lookup<P>) | ProductSends
    | Cancel
    | TakeUser | TakeProduct | TakeError | TakeDone
    | Reply                                   // after the loop

  function Init<U, P>(): State<U, P> {
    State(Calling, Calling, [], [], [], false, Selecting(0), None, None)
  }

  predicate InLoop(s: State) {
    s.handler.Selecting? && s.handler.round < 2
  }

  /** A send goes through only while the buffer has room. */
  predicate UserCanSend(s: State)
    requires s.user.Sending?
  {
    if s.user.result.Found? then |s.userChan| < USER_CAP else |s.errChan| < ERR_CAP
  }

  predicate ProductCanSend(s: State)
    requires s.product.Sending?
  {
    if s.product.result.Found? then |s.productChan| < PRODUCT_CAP else |s.errChan| < ERR_CAP
  }

  predicate Enabled<U, P>(s: State<U, P>, step: Step<U, P>) {
    match step
    case UserReturns(_) => s.user.Calling?
    case UserSends => s.user.Sending? && UserCanSend(s)
    case ProductReturns(_) => s.product.Calling?
    case ProductSends => s.product.Sending? && ProductCanSend(s)
    case Cancel => !s.ctxDone
    case TakeUser => InLoop(s) && s.userChan != []
    case TakeProduct => InLoop(s) && s.productChan != []
    case TakeError => InLoop(s) && s.errChan != []
    case TakeDone => InLoop(s) && s.ctxDone
    case Reply => s.handler == Selecting(2)
  }

  function Next<U, P>(s: State<U, P>, step: Step<U, P>): State<U, P>
    requires Enabled(s, step)
  {
    match step
    case UserReturns(u) => s.(user := Sending(u))
    case UserSends =>
      var t := s.(user := Gone(s.user.result));
      if s.user.result.Found? then t.(userChan := s.userChan + [s.user.result.value])
      else t.(errChan := s.errChan + [s.user.result.error])
    case ProductReturns(p) => s.(product := Sending(p))
    case ProductSends =>
      var t := s.(product := Gone(s.product.result));
      if s.product.result.Found? then t.(productChan := s.productChan + [s.product.result.value])
      else t.(errChan := s.errChan + [s.product.result.error])
    case Cancel => s.(ctxDone := true)
    case TakeUser => s.(userRes := Some(s.userChan[0]), userChan := s.userChan[1..], handler := Selecting(s.handler.round + 1))
    case TakeProduct =>
      s.(productRes := Some(s.productChan[0]), productChan := s.productChan[1..], handler := Selecting(s.handler.round + 1))
    case TakeError => s.(handler := Errored(s.errChan[0]), errChan := s.errChan[1..])
    case TakeDone => s.(handler := Cancelled)
    case Reply => s.(handler := Answered)
  }

  function Apply<U, P>(s: State<U, P>, step: Step<U, P>): State<U, P> {
    if Enabled(s, step) then Next(s, step) else s
  }

  function Exec<U, P>(run: seq<Step<U, P>>): State<U, P> {
    if run == [] then Init() else Apply(Exec(run[..|run| - 1]), run[|run| - 1])
  }

  // ---- The invariant: every message is somewhere, once ------------------------------------------

  /** One lookup's result is with its goroutine, in its channel, with the handler, or among the errors. */
  ghost predicate Tracked<T>(w: Worker<T>, channel: seq<T>, res: Option<T>) {
    if w.Gone? && w.sent.Found?
    then (channel == [w.sent.value] && res == None) || (channel == [] && res == Some(w.sent.value))
    else channel == [] && res == None
  }

  function FailedCount<T>(w: Worker<T>): nat {
    if w.Gone? && w.sent.Failed? then 1 else 0
  }

  function Got<T>(o: Option<T>): nat { if o.Some? then 1 else 0 }

  ghost predicate Inv<U, P>(s: State<U, P>) {
    && Tracked(s.user, s.userChan, s.userRes)
    && Tracked(s.product, s.productChan, s.productRes)
    && |s.errChan| + (if s.handler.Errored? then 1 else 0) == FailedCount(s.user) + FailedCount(s.product)
    && (s.handler.Selecting? ==> s.handler.round == Got(s.userRes) + Got(s.productRes))
    && (s.handler.Answered? ==> s.userRes.Some? && s.productRes.Some?)
    && (s.handler.Errored? ==>
          || s.user == Gone(Failed(s.handler.error))
          || s.product == Gone(Failed(s.handler.error)))
    && (forall i :: 0 <= i < |s.errChan| ==> s.user == Gone(Failed(s.errChan[i])) || s.product == Gone(Failed(s.errChan[i])))
    && (s.handler.Cancelled? ==> s.ctxDone)
  }

  lemma UserSendKeepsInv<U, P>(s: State<U, P>)
    requires Inv(s)
    ensures Inv(Apply(s, UserSends))
  {
  }

  lemma ProductSendKeepsInv<U, P>(s: State<U, P>)
    requires Inv(s)
    ensures Inv(Apply(s, ProductSends))
  {
  }

  lemma TakeKeepsInv<U, P>(s: State<U, P>, step: Step<U, P>)
    requires Inv(s) && (step.TakeUser? || step.TakeProduct?)
    ensures Inv(Apply(s, step))
  {
  }

  lemma StopKeepsInv<U, P>(s: State<U, P>, step: Step<U, P>)
    requires Inv(s) && (step.TakeError? || step.TakeDone? || step.Reply?)
    ensures Inv(Apply(s, step))
  {
  }

  lemma ReturnKeepsInv<U, P>(s: State<U, P>, step: Step<U, P>)
    requires Inv(s) && (step.UserReturns? || step.ProductReturns? || step.Cancel?)
    ensures Inv(Apply(s, step))
  {
  }

  lemma StepKeepsInv<U, P>(s: State<U, P>, step: Step<U, P>)
    requires Inv(s)
    ensures Inv(Apply(s, step))
  {
    match step
    case UserSends => UserSendKeepsInv(s);
    case ProductSends => ProductSendKeepsInv(s);
    case TakeUser => TakeKeepsInv(s, step);
    case TakeProduct => TakeKeepsInv(s, step);
    case TakeError => StopKeepsInv(s, step);
    case TakeDone => StopKeepsInv(s, step);
    case Reply => StopKeepsInv(s, step);
    case _ => ReturnKeepsInv(s, step);
  }

  lemma {:induction false} Reachable<U, P>(run: seq<Step<U, P>>)
    ensures Inv(Exec(run))
    ensures Exec(run).handler.Selecting? ==> Exec(run).handler.round <= 2
  {
    if run != [] {
      Reachable(run[..|run| - 1]);
      StepKeepsInv(Exec(run[..|run| - 1]), run[|run| - 1]);
    }
  }

  /**
   * A finished loop has both results, each from its own lookup; an error returned is one a
   * lookup gave; a cancellation is reported only if there was one.
   */
  lemma AnswerHasBoth<U, P>(run: seq<Step<U, P>>)
    ensures var s := Exec(run);
      && (s.handler == Selecting(2) || s.handler == Answered ==>
            && s.userRes.Some? && s.user == Gone(Found(s.userRes.value))
            && s.productRes.Some? && s.product == Gone(Found(s.productRes.value)))
      && (s.handler.Errored? ==>
            s.user == Gone(Failed(s.handler.error)) || s.product == Gone(Failed(s.handler.error)))
      && (s.handler.Cancelled? ==> s.ctxDone)
  {
    Reachable(run);
  }

  /** No send ever blocks, whatever the handler has done meanwhile. */
  lemma SendsNeverBlock<U, P>(run: seq<Step<U, P>>)
    ensures Exec(run).user.Sending? ==> UserCanSend(Exec(run))
    ensures Exec(run).product.Sending? ==> ProductCanSend(Exec(run))
  {
    Reachable(run);
  }

  // ---- Termination ------------------------------------------------------------------------------

  function StepsLeft<T>(w: Worker<T>): nat {
    match w case Calling => 2 case Sending(_) => 1 case Gone(_) => 0
  }

  function Fuel(s: State): nat {
    StepsLeft(s.user) + StepsLeft(s.product) + (if s.ctxDone then 0 else 1)
    + (if s.handler.Selecting? && s.handler.round <= 2 then 3 - s.handler.round else 0)
  }

  predicate Finished(s: State) {
    s.user.Gone? && s.product.Gone? && !s.handler.Selecting?
  }

  /** The number of labels in a schedule that did something. */
  function Effective<U, P>(run: seq<Step<U, P>>): nat {
    if run == [] then 0
    else
      var front := run[..|run| - 1];
      Effective(front) + if Enabled(Exec(front), run[|run| - 1]) then 1 else 0
  }

  lemma StepBurnsFuel<U, P>(s: State<U, P>, step: Step<U, P>)
    requires Inv(s) && Enabled(s, step)
    ensures Fuel(Next(s, step)) < Fuel(s)
  {
  }

  /** No schedule does more than eight things. */
  lemma {:induction false} SchedulesAreBounded<U, P>(run: seq<Step<U, P>>)
    ensures Effective(run) + Fuel(Exec(run)) <= 8
  {
    if run != [] {
      var front, last := run[..|run| - 1], run[|run| - 1];
      SchedulesAreBounded(front);
      Reachable(front);
      if Enabled(Exec(front), last) {
        StepBurnsFuel(Exec(front), last);
      }
    }
  }

  /** Nobody but the client can move. */
  ghost predicate Stuck<U(!new), P(!new)>(s: State<U, P>) {
    forall step: Step<U, P> :: step == Cancel || !Enabled(s, step)
  }

  /** Until both goroutines are gone and the handler has returned, someone other than the client can move. */
  lemma NobodyIsLeftWaiting<U(!new), P(!new)>(run: seq<Step<U, P>>)
    requires Stuck(Exec(run))
    ensures Finished(Exec(run))
  {
    Reachable(run);
    var s := Exec(run);
    assert !Enabled(s, UserReturns(Failed(""))) && !Enabled(s, UserSends);
    assert !Enabled(s, ProductReturns(Failed(""))) && !Enabled(s, ProductSends);
    assert !Enabled(s, TakeUser) && !Enabled(s, TakeProduct) && !Enabled(s, TakeError) && !Enabled(s, Reply);
  }

  // ---- What the answer is, by the labels of the schedule ------------------------------------------

  /** The labels that did something. */
  ghost function Taken<U, P>(run: seq<Step<U, P>>): set<Step<U, P>> {
    if run == [] then {}
    else
      var front, last := run[..|run| - 1], run[|run| - 1];
      Taken(front) + if Enabled(Exec(front), last) then {last} else {}
  }

  /** The error a label puts in the error channel. */
  function ErrorOf<U, P>(s: State<U, P>, step: Step<U, P>): seq<string> {
    if !Enabled(s, step) then []
    else if step.UserSends? && s.user.result.Failed? then [s.user.result.error]
    else if step.ProductSends? && s.product.result.Failed? then [s.product.result.error]
    else []
  }

  /** The errors sent, in the order of their sends. */
  function ErrorsSent<U, P>(run: seq<Step<U, P>>): seq<string> {
    if run == [] then []
    else
      var front := run[..|run| - 1];
      ErrorsSent(front) + ErrorOf(Exec(front), run[|run| - 1])
  }

  function ResultOf<T>(w: Worker<T>): Option<Lookup<T>> {
    match w case Calling => None case Sending(r) => Some(r) case Gone(r) => Some(r)
  }

  /** Each goroutine carries exactly what its RPC returned; the context is done exactly if the client cancelled. */
  lemma {:induction false} WorkersCarryResults<U(!new), P(!new)>(run: seq<Step<U, P>>)
    ensures forall u :: UserReturns(u) in Taken(run) <==> ResultOf(Exec(run).user) == Some(u)
    ensures forall p :: ProductReturns(p) in Taken(run) <==> ResultOf(Exec(run).product) == Some(p)
    ensures Cancel in Taken(run) <==> Exec(run).ctxDone
  {
    if run != [] {
      WorkersCarryResults(run[..|run| - 1]);
    }
  }

  /** The error returned, then those still in the channel. */
  function ErrorsHeld<U, P>(s: State<U, P>): seq<string> {
    (if s.handler.Errored? then [s.handler.error] else []) + s.errChan
  }

  lemma ErrorStep<U, P>(s: State<U, P>, step: Step<U, P>)
    ensures ErrorsHeld(Apply(s, step)) == ErrorsHeld(s) + ErrorOf(s, step)
  {
  }

  /** Errors are received in the order they were sent, and at most the first one is. */
  lemma {:induction false} ErrorsInOrder<U, P>(run: seq<Step<U, P>>)
    ensures ErrorsHeld(Exec(run)) == ErrorsSent(run)
  {
    if run != [] {
      ErrorsInOrder(run[..|run| - 1]);
      ErrorStep(Exec(run[..|run| - 1]), run[|run| - 1]);
    }
  }

  function Failure<T>(w: Worker<T>): seq<string> {
    if w.Gone? && w.sent.Failed? then [w.sent.error] else []
  }

  lemma FailureStep<U, P>(s: State<U, P>, step: Step<U, P>)
    ensures Failure(Apply(s, step).user) == Failure(s.user) + if step.UserSends? then ErrorOf(s, step) else []
    ensures Failure(Apply(s, step).product) == Failure(s.product) + if step.ProductSends? then ErrorOf(s, step) else []
    ensures !step.UserSends? && !step.ProductSends? ==> ErrorOf(s, step) == []
  {
  }

  /** The errors sent are those of the goroutines that failed and are gone. */
  lemma {:induction false} ErrorsAreFailures<U, P>(run: seq<Step<U, P>>)
    ensures multiset(ErrorsSent(run)) == multiset(Failure(Exec(run).user)) + multiset(Failure(Exec(run).product))
  {
    if run != [] {
      var s, last := Exec(run[..|run| - 1]), run[|run| - 1];
      ErrorsAreFailures(run[..|run| - 1]);
      FailureStep(s, last);
      assert multiset(ErrorsSent(run)) == multiset(ErrorsSent(run[..|run| - 1])) + multiset(ErrorOf(s, last));
    }
  }

  /** At any time: a reply has what both RPCs returned, an error is the first one sent, a cancellation the client's. */
  lemma AnswersAreReal<U(!new), P(!new)>(run: seq<Step<U, P>>)
    ensures var s := Exec(run);
      && (s.handler.Answered? ==>
            && s.userRes.Some? && UserReturns(Found(s.userRes.value)) in Taken(run)
            && s.productRes.Some? && ProductReturns(Found(s.productRes.value)) in Taken(run))
      && (s.handler.Errored? ==> ErrorsSent(run) != [] && s.handler.error == ErrorsSent(run)[0])
      && (s.handler.Cancelled? ==> Cancel in Taken(run))
  {
    AnswerHasBoth(run);
    WorkersCarryResults(run);
    ErrorsInOrder(run);
  }

  /**
   * Where every schedule ends if the client does not cancel: with both values if both RPCs
   * succeeded, otherwise with the error that was sent first.
   */
  lemma EverySchedule<U(!new), P(!new)>(run: seq<Step<U, P>>, u: Lookup<U>, p: Lookup<P>)
    requires Stuck(Exec(run)) && Cancel !in Taken(run)
    requires UserReturns(u) in Taken(run) && ProductReturns(p) in Taken(run)
    ensures var s := Exec(run);
      if u.Found? && p.Found?
      then s.handler == Answered && s.userRes == Some(u.value) && s.productRes == Some(p.value)
      else ErrorsSent(run) != [] && s.handler == Errored(ErrorsSent(run)[0])
    ensures multiset(ErrorsSent(run)) ==
      multiset(if u.Failed? then [u.error] else []) + multiset(if p.Failed? then [p.error] else [])
  {
    NobodyIsLeftWaiting(run);
    Reachable(run);
    WorkersCarryResults(run);
    ErrorsInOrder(run);
    ErrorsAreFailures(run);
  }

  // ---- What can always happen -----------------------------------------------------------------------

  lemma OneMore<U, P>(run: seq<Step<U, P>>, step: Step<U, P>)
    ensures Exec(run + [step]) == Apply(Exec(run), step)
  {
    assert (run + [step])[..|run|] == run;
  }

  /** An RPC returns whatever and whenever it likes, and its goroutine then sends without waiting for anyone; the client cancels when it likes. */
  lemma WorkersRunFreely<U, P>(run: seq<Step<U, P>>, u: Lookup<U>, p: Lookup<P>)
    ensures Exec(run).user.Calling? ==> Exec(run + [UserReturns(u)] + [UserSends]).user == Gone(u)
    ensures Exec(run).product.Calling? ==> Exec(run + [ProductReturns(p)] + [ProductSends]).product == Gone(p)
    ensures Exec(run + [Cancel]).ctxDone
  {
    OneMore(run, Cancel);
    OneMore(run, UserReturns(u));
    OneMore(run + [UserReturns(u)], UserSends);
    SendsNeverBlock(run + [UserReturns(u)]);
    OneMore(run, ProductReturns(p));
    OneMore(run + [ProductReturns(p)], ProductSends);
    SendsNeverBlock(run + [ProductReturns(p)]);
  }

  lemma ReadyCases<U, P>(s: State<U, P>)
    requires Inv(s) && InLoop(s)
    ensures s.user.Gone? && s.user.sent.Found? && s.userRes == None ==>
      Apply(s, TakeUser).userRes == Some(s.user.sent.value)
    ensures s.product.Gone? && s.product.sent.Found? && s.productRes == None ==>
      Apply(s, TakeProduct).productRes == Some(s.product.sent.value)
    ensures ErrorsHeld(s) != [] ==> Apply(s, TakeError).handler == Errored(ErrorsHeld(s)[0])
    ensures Apply(Apply(s, Cancel), TakeDone).handler == Cancelled
  {
  }

  /** Until the loop is through, select can take any case that is ready, and a cancellation at any time. */
  lemma SelectIsFree<U, P>(run: seq<Step<U, P>>)
    requires Exec(run).handler.Selecting? && Exec(run).handler.round < 2
    ensures var s := Exec(run);
      && (s.user.Gone? && s.user.sent.Found? && s.userRes == None ==>
            Exec(run + [TakeUser]).userRes == Some(s.user.sent.value))
      && (s.product.Gone? && s.product.sent.Found? && s.productRes == None ==>
            Exec(run + [TakeProduct]).productRes == Some(s.product.sent.value))
      && (ErrorsSent(run) != [] ==> Exec(run + [TakeError]).handler == Errored(ErrorsSent(run)[0]))
      && Exec(run + [Cancel] + [TakeDone]).handler == Cancelled
  {
    Reachable(run);
    ErrorsInOrder(run);
    ReadyCases(Exec(run));
    OneMore(run, TakeUser);
    OneMore(run, TakeProduct);
    OneMore(run, TakeError);
    OneMore(run, Cancel);
    OneMore(run + [Cancel], TakeDone);
  }
}
