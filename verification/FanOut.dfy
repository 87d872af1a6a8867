/**
 * `getPurchaseDataHandler`: two goroutines write shared variables, a WaitGroup joins them, and
 * the handler then reads the variables. What the calls return is given; the schedule is not.
 */
module FanOut {
  import opened Collections

  /** What each goroutine will meet: a client error, or a client and the RPC's result. */
  datatype World<+U, +P> = World(
    userClient: Option<string>, userRpc: Lookup<U>,
    productClient: Option<string>, productRpc: Lookup<P>)

  datatype Worker = GettingClient | InRpc | FailingClient | Writing | Deferring | Gone

  datatype Answer<+U, +P> =
    | UserFailure(error: string)
    | ProductFailure(error: string)
    | Purchase(user: U, product: P)

  datatype Main<+U, +P> = Waiting | Resumed | Replied(answer: Answer<U, P>)

  datatype State<+U, +P> = State(
    counter: nat,
    userWorker: Worker, user: Option<U>, userErr: Option<string>,
    productWorker: Worker, product: Option<P>, productErr: Option<string>,
    main: Main<U, P>)

  /** Whose turn it is. */
  datatype Actor = UserGoroutine | ProductGoroutine | Handler

  function Init<U, P>(): State<U, P> {
    State(2, GettingClient, None, None, GettingClient, None, None, Waiting)
  }

  predicate Enabled(s: State, a: Actor) {
    match a
    case UserGoroutine => s.userWorker != Gone && (s.userWorker == Deferring ==> s.counter > 0)
    case ProductGoroutine => s.productWorker != Gone && (s.productWorker == Deferring ==> s.counter > 0)
    case Handler => match s.main case Waiting => s.counter == 0 case Resumed => true case Replied(_) => false
  }

  function Advance(w: Worker, client: Option<string>): Worker {
    match w
    case GettingClient => if client.Some? then FailingClient else InRpc
    case InRpc => Writing
    case FailingClient => Deferring
    case Writing => Deferring
    case _ => Gone
  }

  /** The value or error a goroutine has put in its variables by its next step. */
  function Value<T>(w: Worker, rpc: Lookup<T>, now: Option<T>): Option<T> {
    if w == Writing && rpc.Found? then Some(rpc.value) else now
  }

  function Error<T>(w: Worker, client: Option<string>, rpc: Lookup<T>, now: Option<string>): Option<string> {
    if w == FailingClient then client
    else if w == Writing && rpc.Failed? then Some(rpc.error)
    else now
  }

  /** The handler's reading of the four variables; `None` stands for the nil dereference it must not make. */
  function Read<U, P>(s: State<U, P>): Option<Answer<U, P>> {
    if s.userErr.Some? then Some(UserFailure(s.userErr.value))
    else if s.productErr.Some? then Some(ProductFailure(s.productErr.value))
    else if s.user.Some? && s.product.Some? then Some(Purchase(s.user.value, s.product.value))
    else None
  }

  function Apply<U, P>(w: World<U, P>, s: State<U, P>, a: Actor): State<U, P> {
    if !Enabled(s, a) then s
    else
      match a
      case UserGoroutine =>
        s.(userWorker := Advance(s.userWorker, w.userClient),
           user := Value(s.userWorker, w.userRpc, s.user),
           userErr := Error(s.userWorker, w.userClient, w.userRpc, s.userErr),
           counter := if s.userWorker == Deferring then s.counter - 1 else s.counter)
      case ProductGoroutine =>
        s.(productWorker := Advance(s.productWorker, w.productClient),
           product := Value(s.productWorker, w.productRpc, s.product),
           productErr := Error(s.productWorker, w.productClient, w.productRpc, s.productErr),
           counter := if s.productWorker == Deferring then s.counter - 1 else s.counter)
      case Handler =>
        if s.main.Waiting? then s.(main := Resumed)
        else if Read(s).Some? then s.(main := Replied(Read(s).value)) else s
  }

  function Exec<U, P>(w: World<U, P>, schedule: seq<Actor>): State<U, P> {
    if schedule == [] then Init() else Apply(w, Exec(w, schedule[..|schedule| - 1]), schedule[|schedule| - 1])
  }

  /** What a lookup comes to in the end, clients included. */
  function Result<T>(client: Option<string>, rpc: Lookup<T>): Lookup<T> {
    if client.Some? then Failed(client.value) else rpc
  }

  /** The answer, with no schedule in sight. */
  function Expected<U, P>(w: World<U, P>): Answer<U, P> {
    var user, product := Result(w.userClient, w.userRpc), Result(w.productClient, w.productRpc);
    if user.Failed? then UserFailure(user.error)
    else if product.Failed? then ProductFailure(product.error)
    else Purchase(user.value, product.value)
  }

  function Pending(w: Worker): nat { if w == Gone then 0 else 1 }

  ghost predicate WorkerOk<T>(w: Worker, client: Option<string>, rpc: Lookup<T>, value: Option<T>, error: Option<string>) {
    match w
    case GettingClient => value == None && error == None
    case InRpc => client == None && value == None && error == None
    case FailingClient => client.Some? && value == None && error == None
    case Writing => client == None && value == None && error == None
    case _ =>
      match Result(client, rpc)
      case Found(v) => value == Some(v) && error == None
      case Failed(e) => value == None && error == Some(e)
  }

  ghost predicate Inv<U, P>(w: World<U, P>, s: State<U, P>) {
    && s.counter == Pending(s.userWorker) + Pending(s.productWorker)
    && WorkerOk(s.userWorker, w.userClient, w.userRpc, s.user, s.userErr)
    && WorkerOk(s.productWorker, w.productClient, w.productRpc, s.product, s.productErr)
    && (!s.main.Waiting? ==> s.counter == 0)
    && (s.main.Replied? ==> s.main.answer == Expected(w))
  }

  lemma StepKeepsInv<U, P>(w: World<U, P>, s: State<U, P>, a: Actor)
    requires Inv(w, s)
    ensures Inv(w, Apply(w, s, a))
  {
  }

  lemma {:induction false} Reachable<U, P>(w: World<U, P>, schedule: seq<Actor>)
    ensures Inv(w, Exec(w, schedule))
  {
    if schedule != [] {
      Reachable(w, schedule[..|schedule| - 1]);
      StepKeepsInv(w, Exec(w, schedule[..|schedule| - 1]), schedule[|schedule| - 1]);
    }
  }

  /** The lookup, client included, gives `v`; it gives the error `e`. */
  predicate Gives<T(==)>(client: Option<string>, rpc: Lookup<T>, v: T) {
    client == None && rpc == Found(v)
  }

  predicate GivesError<T(==)>(client: Option<string>, rpc: Lookup<T>, e: string) {
    client == Some(e) || (client == None && rpc == Failed(e))
  }

  /**
   * Whatever the schedule: a reply carries both values exactly when both lookups succeed, and a
   * user failure wins over a product failure; when the handler reads the variables, nobody can
   * write them any more and none it needs is unset.
   */
  lemma AnswerIsScheduleFree<U(!new), P(!new)>(w: World<U, P>, schedule: seq<Actor>)
    ensures var s := Exec(w, schedule);
      && (s.main.Replied? ==>
            && (forall u, p :: s.main.answer == Purchase(u, p) <==>
                  Gives(w.userClient, w.userRpc, u) && Gives(w.productClient, w.productRpc, p))
            && (forall e :: s.main.answer == UserFailure(e) <==> GivesError(w.userClient, w.userRpc, e))
            && (forall e :: s.main.answer == ProductFailure(e) <==>
                  (exists u :: Gives(w.userClient, w.userRpc, u)) && GivesError(w.productClient, w.productRpc, e)))
      && (s.main.Resumed? ==> s.userWorker == Gone && s.productWorker == Gone && Read(s) == Some(Expected(w)))
  {
    Reachable(w, schedule);
    var user := Result(w.userClient, w.userRpc);
    assert user.Found? ==> Gives(w.userClient, w.userRpc, user.value);
  }

  /** Until it is gone, a goroutine can always take its next step, whatever the other one does. */
  lemma GoroutinesRunFreely<U, P>(w: World<U, P>, schedule: seq<Actor>)
    ensures Exec(w, schedule).userWorker != Gone ==>
      Exec(w, schedule + [UserGoroutine]).userWorker != Exec(w, schedule).userWorker
    ensures Exec(w, schedule).productWorker != Gone ==>
      Exec(w, schedule + [ProductGoroutine]).productWorker != Exec(w, schedule).productWorker
  {
    Reachable(w, schedule);
    assert (schedule + [UserGoroutine])[..|schedule|] == schedule;
    assert (schedule + [ProductGoroutine])[..|schedule|] == schedule;
  }

  /** A schedule that leaves nobody able to move has answered and left no goroutine behind. */
  lemma NobodyIsLeftWaiting<U, P>(w: World<U, P>, schedule: seq<Actor>)
    requires forall a :: !Enabled(Exec(w, schedule), a)
    ensures var s := Exec(w, schedule);
      s.main == Replied(Expected(w)) && s.userWorker == Gone && s.productWorker == Gone
  {
    Reachable(w, schedule);
    var s := Exec(w, schedule);
    assert !Enabled(s, UserGoroutine) && !Enabled(s, ProductGoroutine) && !Enabled(s, Handler);
  }

  function Left(w: Worker): nat {
    match w
    case GettingClient => 4 case InRpc => 3 case FailingClient => 2 case Writing => 2 case Deferring => 1 case Gone => 0
  }

  function Fuel(s: State): nat {
    Left(s.userWorker) + Left(s.productWorker)
    + match s.main case Waiting => 2 case Resumed => 1 case Replied(_) => 0
  }

  function Effective<U, P>(w: World<U, P>, schedule: seq<Actor>): nat {
    if schedule == [] then 0
    else
      var front := schedule[..|schedule| - 1];
      Effective(w, front) + if Enabled(Exec(w, front), schedule[|schedule| - 1]) then 1 else 0
  }

  /** No schedule takes more than ten steps, so every one that keeps going gets to the answer. */
  lemma {:induction false} SchedulesAreBounded<U, P>(w: World<U, P>, schedule: seq<Actor>)
    ensures Effective(w, schedule) + Fuel(Exec(w, schedule)) <= 10
  {
    if schedule != [] {
      SchedulesAreBounded(w, schedule[..|schedule| - 1]);
      Reachable(w, schedule[..|schedule| - 1]);
    }
  }
}
