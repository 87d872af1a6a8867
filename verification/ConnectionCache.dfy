/**
 * The mutex-guarded connection cache: `getServiceConnection` under any interleaving of any
 * number of callers. A label that is not enabled changes nothing, so every sequence of labels
 * is a run.
 */
module ConnectionCache {
  import opened Collections

  type CallerId = nat
  type Conn = nat
  type Connections = map<string, Conn>

  datatype Discovery = QueryFailed(error: string) | NoInstances | Address(address: string)
  datatype Dialled = DialFailed(error: string) | Connected(conn: Conn)

  /** The three errors a caller can get, with what their texts name. */
  datatype Failure =
    | NotDiscovered(name: string, cause: string)
    | NoneHealthy(name: string)
    | NotConnected(name: string, address: string, cause: string)

  datatype Result = Ok(conn: Conn) | Err(failure: Failure)

  /** One whole call on a cache that nobody else touches. */
  function GetConnection(m: Connections, name: string, found: Discovery, dialled: Dialled): (r: (Connections, Result)) {
    if name in m then (m, Ok(m[name]))
    else
      match found
      case QueryFailed(e) => (m, Err(NotDiscovered(name, e)))
      case NoInstances => (m, Err(NoneHealthy(name)))
      case Address(address) =>
        match dialled
        case DialFailed(e) => (m, Err(NotConnected(name, address, e)))
        case Connected(conn) => (m[name := conn], Ok(conn))
  }

  /** The body between `Lock` and the deferred `Unlock`. */
  class ServiceDiscovery {
    var connections: Connections

    constructor ()
      ensures connections == map[]
    {
      connections := map[];
    }

    method GetServiceConnection(name: string, found: Discovery, dialled: Dialled) returns (r: Result)
      modifies this
      ensures (connections, r) == GetConnection(old(connections), name, found, dialled)
      ensures r.Ok? ==> name in connections && connections[name] == r.conn
      ensures name in old(connections) || r.Err? ==> connections == old(connections)
      ensures r.Ok? <==> name in old(connections) || (found.Address? && dialled.Connected?)
      ensures r.Ok? && name !in old(connections) ==>
        r.conn == dialled.conn && connections == old(connections)[name := dialled.conn]
      ensures forall e :: r == Err(NotDiscovered(name, e)) <==> name !in old(connections) && found == QueryFailed(e)
      ensures r == Err(NoneHealthy(name)) <==> name !in old(connections) && found.NoInstances?
      ensures forall a, e :: r == Err(NotConnected(name, a, e)) <==>
        name !in old(connections) && found == Address(a) && dialled == DialFailed(e)
      ensures forall n :: n in old(connections) ==> n in connections && connections[n] == old(connections)[n]
    {
      if name in connections {
        return Ok(connections[name]);
      }
      if found.QueryFailed? {
        return Err(NotDiscovered(name, found.error));
      }
      if found.NoInstances? {
        return Err(NoneHealthy(name));
      }
      if dialled.DialFailed? {
        return Err(NotConnected(name, found.address, dialled.error));
      }
      connections := connections[name := dialled.conn];
      return Ok(dialled.conn);
    }
  }

  // ---- Interleaved callers ------------------------------------------------------------------------

  datatype Pc =
    | Locking
    | Checking
    | Discovering
    | Dialling(address: string)
    | Storing(address: string, conn: Conn)
    | Unlocking(result: Result)
    | Returned(result: Result)

  datatype Caller = Caller(name: string, pc: Pc)

  datatype State = State(connections: Connections, holder: Option<CallerId>, callers: map<CallerId, Caller>)

  datatype Step =
    | Enter(c: CallerId, name: string)
    | Lock(c: CallerId)
    | Check(c: CallerId)
    | Discover(c: CallerId, found: Discovery)
    | Dial(c: CallerId, dialled: Dialled)
    | StoreConn(c: CallerId)
    | Unlock(c: CallerId)

  const INIT := State(map[], None, map[])

  predicate Enabled(s: State, step: Step) {
    if step.Enter? then step.c !in s.callers
    else
      step.c in s.callers &&
      var pc := s.callers[step.c].pc;
      match step
      case Lock(_) => pc.Locking? && s.holder == None
      case Check(_) => pc.Checking?
      case Discover(_, _) => pc.Discovering?
      case Dial(_, _) => pc.Dialling?
      case StoreConn(_) => pc.Storing?
      case _ => pc.Unlocking?
  }

  function At(s: State, c: CallerId, pc: Pc): State
    requires c in s.callers
  {
    s.(callers := s.callers[c := s.callers[c].(pc := pc)])
  }

  function Next(s: State, step: Step): State
    requires Enabled(s, step)
  {
    match step
    case Enter(c, name) => s.(callers := s.callers[c := Caller(name, Locking)])
    case Lock(c) => At(s.(holder := Some(c)), c, Checking)
    case Check(c) =>
      var name := s.callers[c].name;
      At(s, c, if name in s.connections then Unlocking(Ok(s.connections[name])) else Discovering)
    case Discover(c, found) =>
      At(s, c, match found
               case QueryFailed(e) => Unlocking(Err(NotDiscovered(s.callers[c].name, e)))
               case NoInstances => Unlocking(Err(NoneHealthy(s.callers[c].name)))
               case Address(address) => Dialling(address))
    case Dial(c, dialled) =>
      At(s, c, match dialled
               case DialFailed(e) => Unlocking(Err(NotConnected(s.callers[c].name, s.callers[c].pc.address, e)))
               case Connected(conn) => Storing(s.callers[c].pc.address, conn))
    case StoreConn(c) =>
      var conn := s.callers[c].pc.conn;
      At(s.(connections := s.connections[s.callers[c].name := conn]), c, Unlocking(Ok(conn)))
    case Unlock(c) => At(s.(holder := None), c, Returned(s.callers[c].pc.result))
  }

  function Apply(s: State, step: Step): State {
    if Enabled(s, step) then Next(s, step) else s
  }

  function Exec(run: seq<Step>): State {
    if run == [] then INIT else Apply(Exec(run[..|run| - 1]), run[|run| - 1])
  }

  predicate Critical(pc: Pc) {
    !pc.Locking? && !pc.Returned?
  }

  predicate Decided(pc: Pc) {
    pc.Unlocking? || pc.Returned?
  }

  ghost predicate CallerOk(s: State, c: CallerId)
    requires c in s.callers
  {
    var name, pc := s.callers[c].name, s.callers[c].pc;
    && (Critical(pc) <==> s.holder == Some(c))
    && (pc.Discovering? || pc.Dialling? || pc.Storing? ==> name !in s.connections)
    && (Decided(pc) && pc.result.Ok? ==> name in s.connections && s.connections[name] == pc.result.conn)
  }

  /** Mutual exclusion, and what it protects: a name found missing stays missing until its finder stores it. */
  ghost predicate Inv(s: State) {
    && (s.holder.Some? ==> s.holder.value in s.callers)
    && forall c :: c in s.callers ==> CallerOk(s, c)
  }

  lemma StepKeepsInv(s: State, step: Step)
    requires Inv(s)
    ensures Inv(Apply(s, step))
    ensures forall n :: n in s.connections ==>
      n in Apply(s, step).connections && Apply(s, step).connections[n] == s.connections[n]
  {
  }

  lemma {:induction false} Reachable(run: seq<Step>)
    ensures Inv(Exec(run))
  {
    if run != [] {
      Reachable(run[..|run| - 1]);
      StepKeepsInv(Exec(run[..|run| - 1]), run[|run| - 1]);
    }
  }

  /** Entries are never removed or replaced. */
  lemma {:induction false} EntriesStay(run: seq<Step>, n: nat)
    requires n <= |run|
    ensures forall name :: name in Exec(run[..n]).connections ==>
      name in Exec(run).connections && Exec(run).connections[name] == Exec(run[..n]).connections[name]
  {
    if n == |run| {
      assert run[..n] == run;
    } else {
      var front := run[..|run| - 1];
      assert front[..n] == run[..n];
      EntriesStay(front, n);
      Reachable(front);
      StepKeepsInv(Exec(front), run[|run| - 1]);
    }
  }

  // ---- What callers see -----------------------------------------------------------------------------

  /** At index `i`, a connection was stored under `name`. */
  ghost predicate StoredAt(run: seq<Step>, i: nat, name: string) {
    && i < |run| && run[i].StoreConn? && Enabled(Exec(run[..i]), run[i])
    && Exec(run[..i]).callers[run[i].c].name == name
  }

  lemma NotStoredAgain(run: seq<Step>, i: nat, j: nat, name: string)
    requires StoredAt(run, i, name) && StoredAt(run, j, name)
    ensures j <= i
  {
    if i < j {
      assert run[..i + 1][..i] == run[..i];
      assert name in Exec(run[..i + 1]).connections;
      assert run[..j][..i + 1] == run[..i + 1];
      Reachable(run[..j]);
      assert CallerOk(Exec(run[..j]), run[j].c);
      EntriesStay(run[..j], i + 1);
    }
  }

  /** At most one connection per service name is ever stored. */
  lemma StoredOnce(run: seq<Step>, i: nat, j: nat, name: string)
    requires StoredAt(run, i, name) && StoredAt(run, j, name)
    ensures i == j
  {
    NotStoredAgain(run, i, j, name);
    NotStoredAgain(run, j, i, name);
  }

  // ---- Results come from the caller's own lookups ---------------------------------------------------

  /** The steps that did something. */
  function Taken(run: seq<Step>): set<Step> {
    if run == [] then {}
    else
      var front, last := run[..|run| - 1], run[|run| - 1];
      Taken(front) + if Enabled(Exec(front), last) then {last} else {}
  }

  /** What a caller has in hand was named, discovered and dialled by steps of its own. */
  predicate OwnSteps(taken: set<Step>, c: CallerId, caller: Caller) {
    && Enter(c, caller.name) in taken
    && match caller.pc
       case Dialling(address) => Discover(c, Address(address)) in taken
       case Storing(address, conn) => Discover(c, Address(address)) in taken && Dial(c, Connected(conn)) in taken
       case Unlocking(Err(f)) => OwnFailure(taken, c, caller.name, f)
       case Returned(Err(f)) => OwnFailure(taken, c, caller.name, f)
       case _ => true
  }

  predicate OwnFailure(taken: set<Step>, c: CallerId, name: string, f: Failure) {
    match f
    case NotDiscovered(n, e) => n == name && Discover(c, QueryFailed(e)) in taken
    case NoneHealthy(n) => n == name && Discover(c, NoInstances) in taken
    case NotConnected(n, address, e) =>
      n == name && Discover(c, Address(address)) in taken && Dial(c, DialFailed(e)) in taken
  }

  lemma OwnStepsNext(taken: set<Step>, s: State, step: Step)
    requires Enabled(s, step) && (!step.Enter? ==> OwnSteps(taken, step.c, s.callers[step.c]))
    ensures OwnSteps(taken + {step}, step.c, Next(s, step).callers[step.c])
  {
  }

  lemma {:induction false} CallersActAlone(run: seq<Step>, c: CallerId)
    requires c in Exec(run).callers
    ensures OwnSteps(Taken(run), c, Exec(run).callers[c])
  {
    var front, last := run[..|run| - 1], run[|run| - 1];
    if c in Exec(front).callers {
      CallersActAlone(front, c);
    }
    if Enabled(Exec(front), last) && last.c == c {
      OwnStepsNext(Taken(front), Exec(front), last);
    }
  }

  /** The connection stored is the one its caller dialled before, at the address it discovered. */
  lemma StoredIsDialled(run: seq<Step>, i: nat, name: string)
    requires StoredAt(run, i, name)
    ensures name in Exec(run[..i + 1]).connections
    ensures Dial(run[i].c, Connected(Exec(run[..i + 1]).connections[name])) in Taken(run[..i])
    ensures Enter(run[i].c, name) in Taken(run[..i])
  {
    assert run[..i + 1][..i] == run[..i];
    CallersActAlone(run[..i], run[i].c);
  }

  ghost predicate EntryStored(run: seq<Step>, name: string, conn: Conn, i: nat) {
    StoredAt(run, i, name) && Dial(run[i].c, Connected(conn)) in Taken(run[..i])
  }

  /** Every entry of the cache was dialled and stored by some caller for that very name. */
  lemma {:induction false} EntriesAreDialled(run: seq<Step>, name: string)
    requires name in Exec(run).connections
    ensures exists i: nat :: EntryStored(run, name, Exec(run).connections[name], i)
  {
    var front := run[..|run| - 1];
    if name in Exec(front).connections {
      EntriesAreDialled(front, name);
      Reachable(front);
      StepKeepsInv(Exec(front), run[|run| - 1]);
      var i: nat :| EntryStored(front, name, Exec(run).connections[name], i);
      assert front[..i] == run[..i];
      assert EntryStored(run, name, Exec(run).connections[name], i);
    } else {
      assert StoredAt(run, |front|, name);
      assert run[..|front| + 1] == run;
      StoredIsDialled(run, |front|, name);
      assert EntryStored(run, name, Exec(run).connections[name], |front|);
    }
  }

  /**
   * A result, whoever else was there: a connection that some caller dialled for that name and
   * stored, or an error that names the caller's own service and what its own lookups met.
   */
  lemma ResultsAreReal(run: seq<Step>, c: CallerId)
    requires c in Exec(run).callers && Decided(Exec(run).callers[c].pc)
    ensures var name, r := Exec(run).callers[c].name, Exec(run).callers[c].pc.result;
      && Enter(c, name) in Taken(run)
      && (r.Ok? ==> exists i: nat :: EntryStored(run, name, r.conn, i))
      && (r.Err? ==> OwnFailure(Taken(run), c, name, r.failure))
  {
    CallersActAlone(run, c);
    Reachable(run);
    assert CallerOk(Exec(run), c);
    if Exec(run).callers[c].pc.result.Ok? {
      EntriesAreDialled(run, Exec(run).callers[c].name);
    }
  }

  predicate PastDiscovery(s: State, c: CallerId) {
    c in s.callers && !s.callers[c].pc.Locking? && !s.callers[c].pc.Checking? && !s.callers[c].pc.Discovering?
  }

  predicate PastDialling(s: State, c: CallerId) {
    PastDiscovery(s, c) && !s.callers[c].pc.Dialling?
  }

  lemma PastStays(s: State, step: Step, c: CallerId)
    ensures PastDiscovery(s, c) ==> PastDiscovery(Apply(s, step), c)
    ensures PastDialling(s, c) ==> PastDialling(Apply(s, step), c)
  {
  }

  /** A caller discovers at most once and dials at most once, so what it met is well defined. */
  lemma {:induction false} OneLookupEach(run: seq<Step>, c: CallerId)
    ensures forall x :: Discover(c, x) in Taken(run) ==> PastDiscovery(Exec(run), c)
    ensures forall x :: Dial(c, x) in Taken(run) ==> PastDialling(Exec(run), c)
    ensures forall x, y :: Discover(c, x) in Taken(run) && Discover(c, y) in Taken(run) ==> x == y
    ensures forall x, y :: Dial(c, x) in Taken(run) && Dial(c, y) in Taken(run) ==> x == y
  {
    if run != [] {
      OneLookupEach(run[..|run| - 1], c);
      PastStays(Exec(run[..|run| - 1]), run[|run| - 1], c);
    }
  }

  ghost predicate ReturnedOk(s: State, c: CallerId, name: string, conn: Conn) {
    c in s.callers && s.callers[c] == Caller(name, Returned(Ok(conn)))
  }

  /** All successful callers for one name hold the same connection, the stored one. */
  lemma SameConnection(run: seq<Step>, c: CallerId, d: CallerId, name: string, conn: Conn, conn': Conn)
    requires ReturnedOk(Exec(run), c, name, conn) && ReturnedOk(Exec(run), d, name, conn')
    ensures conn == conn' && name in Exec(run).connections && Exec(run).connections[name] == conn
  {
    Reachable(run);
    assert CallerOk(Exec(run), c) && CallerOk(Exec(run), d);
  }

  /** A caller that ends in an error has not changed the cache by any of its steps. */
  lemma {:induction false} FailureChangesNothing(run: seq<Step>, c: CallerId, i: nat)
    requires c in Exec(run).callers && Decided(Exec(run).callers[c].pc) && Exec(run).callers[c].pc.result.Err?
    requires i < |run| && run[i].c == c
    ensures Exec(run[..i + 1]).connections == Exec(run[..i]).connections
  {
    assert run[..i + 1][..i] == run[..i];
    if Exec(run[..i + 1]).connections != Exec(run[..i]).connections {
      var s := Exec(run[..i + 1]);
      assert s.callers[c].pc.Unlocking? && s.callers[c].pc.result.Ok?;
      ResultStays(run, i + 1, c);
    }
  }

  lemma StepKeepsResult(s: State, step: Step, c: CallerId)
    requires c in s.callers && Decided(s.callers[c].pc)
    ensures var s' := Apply(s, step);
      c in s'.callers && Decided(s'.callers[c].pc) && s'.callers[c].pc.result == s.callers[c].pc.result
  {
  }

  lemma {:induction false} ResultStays(run: seq<Step>, n: nat, c: CallerId)
    requires n <= |run| && c in Exec(run[..n]).callers && Decided(Exec(run[..n]).callers[c].pc)
    ensures c in Exec(run).callers && Decided(Exec(run).callers[c].pc)
    ensures Exec(run).callers[c].pc.result == Exec(run[..n]).callers[c].pc.result
  {
    if n == |run| {
      assert run[..n] == run;
    } else {
      assert run[..|run| - 1][..n] == run[..n];
      ResultStays(run[..|run| - 1], n, c);
      StepKeepsResult(Exec(run[..|run| - 1]), run[|run| - 1], c);
    }
  }

  /** The mutex cannot wedge: until every caller has returned, some caller can move. */
  lemma NoDeadlock(run: seq<Step>, c: CallerId)
    requires c in Exec(run).callers && !Exec(run).callers[c].pc.Returned?
    ensures exists step: Step :: !step.Enter? && Enabled(Exec(run), step)
  {
    Reachable(run);
    var s := Exec(run);
    assert CallerOk(s, c);
    if s.holder == None {
      assert Enabled(s, Lock(c));
    } else {
      var h := s.holder.value;
      assert CallerOk(s, h);
      match s.callers[h].pc
      case Checking => assert Enabled(s, Check(h));
      case Discovering => assert Enabled(s, Discover(h, NoInstances));
      case Dialling(_) => assert Enabled(s, Dial(h, DialFailed("")));
      case Storing(_, _) => assert Enabled(s, StoreConn(h));
      case Unlocking(_) => assert Enabled(s, Unlock(h));
    }
  }

  // ---- The calls are atomic ---------------------------------------------------------------------------

  datatype Op = Op(c: CallerId, name: string, found: Discovery, dialled: Dialled)

  /** The step at which a call's result is settled, as one sequential call. */
  function PointOf(s: State, step: Step): Option<Op> {
    if !Enabled(s, step) || step.Enter? || !Decided(Next(s, step).callers[step.c].pc) then None
    else
      var name, pc := s.callers[step.c].name, s.callers[step.c].pc;
      match step
      case Check(c) => Some(Op(c, name, NoInstances, DialFailed("")))
      case Discover(c, found) => Some(Op(c, name, found, DialFailed("")))
      case Dial(c, dialled) => Some(Op(c, name, Address(pc.address), dialled))
      case StoreConn(c) => Some(Op(c, name, Address(pc.address), Connected(pc.conn)))
      case _ => None
  }

  function Linearize(run: seq<Step>): seq<Op> {
    if run == [] then []
    else
      var front := run[..|run| - 1];
      match PointOf(Exec(front), run[|run| - 1])
      case None => Linearize(front)
      case Some(op) => Linearize(front) + [op]
  }

  /** Whole calls one after another: the cache and every caller's result. */
  function Sequential(ops: seq<Op>): (Connections, map<CallerId, Result>) {
    if ops == [] then (map[], map[])
    else
      var (m, results) := Sequential(ops[..|ops| - 1]);
      var op := ops[|ops| - 1];
      var (m', r) := GetConnection(m, op.name, op.found, op.dialled);
      (m', results[op.c := r])
  }

  ghost function Results(s: State): map<CallerId, Result> {
    map c | c in s.callers && Decided(s.callers[c].pc) :: s.callers[c].pc.result
  }

  lemma StepIsAtomic(s: State, step: Step)
    requires Inv(s)
    ensures var s' := Apply(s, step);
      match PointOf(s, step)
      case None => s'.connections == s.connections && Results(s') == Results(s)
      case Some(op) =>
        var (m, r) := GetConnection(s.connections, op.name, op.found, op.dialled);
        s'.connections == m && Results(s') == Results(s)[op.c := r]
  {
  }

  /** Every interleaving of callers is some order of whole, uninterrupted calls. */
  lemma {:induction false} CallsAreAtomic(run: seq<Step>)
    ensures Sequential(Linearize(run)) == (Exec(run).connections, Results(Exec(run)))
  {
    if run != [] {
      var front, last := run[..|run| - 1], run[|run| - 1];
      CallsAreAtomic(front);
      Reachable(front);
      StepIsAtomic(Exec(front), last);
      if PointOf(Exec(front), last).Some? {
        assert (Linearize(front) + [PointOf(Exec(front), last).value])[..|Linearize(front)|] == Linearize(front);
      }
    }
  }

  ghost predicate PointIsOwn(run: seq<Step>, op: Op, m: Connections) {
    && Enter(op.c, op.name) in Taken(run)
    && (op.name !in m ==>
          && Discover(op.c, op.found) in Taken(run)
          && (op.found.Address? ==> Dial(op.c, op.dialled) in Taken(run)))
  }

  lemma PointIsOwnStays(run: seq<Step>, op: Op, m: Connections)
    requires run != [] && PointIsOwn(run[..|run| - 1], op, m)
    ensures PointIsOwn(run, op, m)
  {
  }

  lemma NewPointIsOwn(run: seq<Step>)
    requires run != [] && PointOf(Exec(run[..|run| - 1]), run[|run| - 1]).Some?
    ensures var s := Exec(run[..|run| - 1]); PointIsOwn(run, PointOf(s, run[|run| - 1]).value, s.connections)
  {
    var front, step := run[..|run| - 1], run[|run| - 1];
    var caller := Exec(front).callers[step.c];
    CallersActAlone(front, step.c);
  }

  /** The sequential calls are the callers' own: the names they asked for, and what they themselves met where they had to look. */
  lemma {:induction false} PointsAreFaithful(run: seq<Step>, i: nat)
    requires i < |Linearize(run)|
    ensures PointIsOwn(run, Linearize(run)[i], Sequential(Linearize(run)[..i]).0)
  {
    var front, last := run[..|run| - 1], run[|run| - 1];
    assert Linearize(run)[..|Linearize(front)|] == Linearize(front);
    if i < |Linearize(front)| {
      PointsAreFaithful(front, i);
      assert Linearize(run)[..i] == Linearize(front)[..i];
      PointIsOwnStays(run, Linearize(run)[i], Sequential(Linearize(run)[..i]).0);
    } else {
      CallsAreAtomic(front);
      NewPointIsOwn(run);
    }
  }

  // ---- Whatever the lookups return, the calls go through ------------------------------------------------

  lemma OneMore(run: seq<Step>, step: Step)
    ensures Exec(run + [step]) == Apply(Exec(run), step)
  {
    assert (run + [step])[..|run|] == run;
  }

  /** All steps of one call from the lock on; those behind it or after its result are not enabled. */
  function Rest(c: CallerId, found: Discovery, dialled: Dialled): seq<Step> {
    [Lock(c)] + [Check(c)] + [Discover(c, found)] + [Dial(c, dialled)] + [StoreConn(c)] + [Unlock(c)]
  }

  function AfterLookup(s: State, c: CallerId, found: Discovery, dialled: Dialled): State {
    Apply(Apply(Apply(Apply(s, Check(c)), Discover(c, found)), Dial(c, dialled)), StoreConn(c))
  }

  lemma RestRuns(run: seq<Step>, c: CallerId, found: Discovery, dialled: Dialled)
    ensures Exec(run + Rest(c, found, dialled)) ==
      Apply(AfterLookup(Apply(Exec(run), Lock(c)), c, found, dialled), Unlock(c))
  {
    var a := run + [Lock(c)];
    var b := a + [Check(c)] + [Discover(c, found)];
    OneMore(run, Lock(c));
    OneMore(a, Check(c));
    OneMore(a + [Check(c)], Discover(c, found));
    OneMore(b, Dial(c, dialled));
    OneMore(b + [Dial(c, dialled)], StoreConn(c));
    OneMore(b + [Dial(c, dialled)] + [StoreConn(c)], Unlock(c));
    assert run + Rest(c, found, dialled) == b + [Dial(c, dialled)] + [StoreConn(c)] + [Unlock(c)];
  }

  /** What the caller still has to find out, given what it will meet. */
  function Found(pc: Pc, found: Discovery): Discovery {
    if pc.Dialling? || pc.Storing? then Address(pc.address) else found
  }

  function DialledTo(pc: Pc, dialled: Dialled): Dialled {
    if pc.Storing? then Connected(pc.conn) else dialled
  }

  /** It is this caller's turn: it has the lock, or nobody has and it waits for it. */
  predicate Turn(s: State, c: CallerId) {
    c in s.callers && (s.holder == Some(c) || (s.holder == None && s.callers[c].pc.Locking?))
  }

  lemma LockedFinishes(s: State, c: CallerId, found: Discovery, dialled: Dialled)
    requires Inv(s) && c in s.callers && s.holder == Some(c) && !Decided(s.callers[c].pc)
    ensures var name, pc := s.callers[c].name, s.callers[c].pc;
      var (m, r) := GetConnection(s.connections, name, Found(pc, found), DialledTo(pc, dialled));
      AfterLookup(s, c, found, dialled) == State(m, Some(c), s.callers[c := Caller(name, Unlocking(r))])
  {
    assert CallerOk(s, c);
  }

  lemma DecidedStays(s: State, c: CallerId, found: Discovery, dialled: Dialled)
    requires c in s.callers && Decided(s.callers[c].pc)
    ensures AfterLookup(s, c, found, dialled) == s
  {
  }

  lemma TurnLocks(s: State, c: CallerId)
    requires Inv(s) && Turn(s, c)
    ensures var pc := s.callers[c].pc;
      Apply(s, Lock(c)) ==
        if pc.Locking? then State(s.connections, Some(c), s.callers[c := Caller(s.callers[c].name, Checking)]) else s
    ensures s.callers[c].pc.Locking? || (s.holder == Some(c) && !s.callers[c].pc.Returned?)
  {
    assert CallerOk(s, c);
  }

  /** What finishing the call comes to. */
  function FinishOf(s: State, c: CallerId, found: Discovery, dialled: Dialled): (Connections, Result)
    requires c in s.callers
  {
    var name, pc := s.callers[c].name, s.callers[c].pc;
    if Decided(pc) then (s.connections, pc.result)
    else GetConnection(s.connections, name, Found(pc, found), DialledTo(pc, dialled))
  }

  lemma HolderFinishes(s: State, c: CallerId, found: Discovery, dialled: Dialled)
    requires Inv(s) && c in s.callers && s.holder == Some(c)
    ensures var (m, r) := FinishOf(s, c, found, dialled);
      Apply(AfterLookup(s, c, found, dialled), Unlock(c)) ==
        State(m, None, s.callers[c := Caller(s.callers[c].name, Returned(r))])
  {
    assert CallerOk(s, c);
    if Decided(s.callers[c].pc) {
      DecidedStays(s, c, found, dialled);
    } else {
      LockedFinishes(s, c, found, dialled);
    }
  }

  lemma TurnFinishes(s: State, c: CallerId, found: Discovery, dialled: Dialled)
    requires Inv(s) && Turn(s, c)
    ensures var (m, r) := FinishOf(s, c, found, dialled);
      Apply(AfterLookup(Apply(s, Lock(c)), c, found, dialled), Unlock(c)) ==
        State(m, None, s.callers[c := Caller(s.callers[c].name, Returned(r))])
  {
    TurnLocks(s, c);
    StepKeepsInv(s, Lock(c));
    HolderFinishes(Apply(s, Lock(c)), c, found, dialled);
  }

  /**
   * In every reachable state, the caller whose turn it is can finish by its own steps, whatever
   * discovery and dialling return: it gets the sequential result and hands the lock on.
   */
  lemma CallCanFinish(run: seq<Step>, c: CallerId, found: Discovery, dialled: Dialled)
    requires Turn(Exec(run), c)
    ensures var s := Exec(run);
      var (m, r) := FinishOf(s, c, found, dialled);
      Exec(run + Rest(c, found, dialled)) == State(m, None, s.callers[c := Caller(s.callers[c].name, Returned(r))])
  {
    Reachable(run);
    RestRuns(run, c, found, dialled);
    TurnFinishes(Exec(run), c, found, dialled);
  }

  /** Callers come in at any time. */
  lemma CallersAlwaysEnter(run: seq<Step>, c: CallerId, name: string)
    requires c !in Exec(run).callers
    ensures Exec(run + [Enter(c, name)]) == Exec(run).(callers := Exec(run).callers[c := Caller(name, Locking)])
  {
    OneMore(run, Enter(c, name));
  }

  predicate DistinctCallers(ops: seq<Op>) {
    forall i, j :: 0 <= i < j < |ops| ==> ops[i].c != ops[j].c
  }

  ghost predicate Realizes(run: seq<Step>, ops: seq<Op>) {
    && Exec(run).holder == None
    && Sequential(ops) == (Exec(run).connections, Results(Exec(run)))
    && forall c :: c in Exec(run).callers ==> c in Results(Exec(run))
  }

  lemma {:induction false} SequentialCallers(ops: seq<Op>, c: CallerId)
    ensures c in Sequential(ops).1 <==> exists i :: 0 <= i < |ops| && ops[i].c == c
  {
    if ops != [] {
      SequentialCallers(ops[..|ops| - 1], c);
    }
  }

  lemma ResultsWith(s: State, m: Connections, c: CallerId, name: string, r: Result)
    ensures Results(State(m, None, s.callers[c := Caller(name, Returned(r))])) == Results(s)[c := r]
  {
  }

  lemma OneMoreCall(run: seq<Step>, ops: seq<Op>, op: Op)
    requires Realizes(run, ops) && op.c !in Exec(run).callers
    ensures Realizes(run + [Enter(op.c, op.name)] + Rest(op.c, op.found, op.dialled), ops + [op])
  {
    var s := Exec(run);
    var (m, r) := GetConnection(s.connections, op.name, op.found, op.dialled);
    CallersAlwaysEnter(run, op.c, op.name);
    CallCanFinish(run + [Enter(op.c, op.name)], op.c, op.found, op.dialled);
    assert s.callers[op.c := Caller(op.name, Locking)][op.c := Caller(op.name, Returned(r))] ==
      s.callers[op.c := Caller(op.name, Returned(r))];
    ResultsWith(s, m, op.c, op.name, r);
    assert (ops + [op])[..|ops|] == ops;
  }

  /** Any sequence of whole calls, with whatever they meet, is a run. */
  lemma {:induction false} EverySequenceIsRun(ops: seq<Op>) returns (run: seq<Step>)
    requires DistinctCallers(ops)
    ensures Realizes(run, ops)
  {
    if ops == [] {
      run := [];
    } else {
      var front, op := ops[..|ops| - 1], ops[|ops| - 1];
      run := EverySequenceIsRun(front);
      assert ops == front + [op];
      SequentialCallers(front, op.c);
      OneMoreCall(run, front, op);
      run := run + [Enter(op.c, op.name)] + Rest(op.c, op.found, op.dialled);
    }
  }
}
