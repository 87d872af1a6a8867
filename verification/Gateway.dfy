/**
 * The HTTP gateway: request decoding and narrowing, the proto form of an order, and the
 * translation of gRPC results to HTTP answers.
 */
module Gateway {
  import opened Collections
  import opened Integers
  import opened Models
  import opened Monolith

  // ---- Requests -----------------------------------------------------------------------

  /** A JSON order request whose numbers are integers of any size. */
  datatype BodyItem = BodyItem(menuItemId: int, quantity: int)
  datatype Body = Body(userId: int, items: seq<BodyItem>)

  /** The gateway decodes into `uint32` fields; a number that does not fit is a decoding error. */
  predicate GatewayDecodes(b: Body) {
    && IsUint32(b.userId)
    && forall k :: 0 <= k < |b.items| ==> IsUint32(b.items[k].menuItemId) && IsUint32(b.items[k].quantity)
  }

  /** The monolith decodes into `uint` and `int`. */
  predicate MonolithDecodes(b: Body) {
    && IsUint64(b.userId)
    && forall k :: 0 <= k < |b.items| ==> IsUint64(b.items[k].menuItemId) && IsInt64(b.items[k].quantity)
  }

  /** Ids below 2^32 and quantities below 2^31. */
  predicate InRange(b: Body) {
    && IsUint32(b.userId)
    && forall k :: 0 <= k < |b.items| ==> IsUint32(b.items[k].menuItemId) && 0 <= b.items[k].quantity < TWO_31
  }

  function MonolithRequest(b: Body): OrderRequest
    requires MonolithDecodes(b)
  {
    OrderRequest(b.userId, seq(|b.items|, k requires 0 <= k < |b.items| =>
      ItemRequest(b.items[k].menuItemId, b.items[k].quantity)))
  }

  /** The request as it reaches the order service: quantities have become `int32`. */
  function WireRequest(b: Body): OrderRequest
    requires GatewayDecodes(b)
  {
    OrderRequest(b.userId, seq(|b.items|, k requires 0 <= k < |b.items| =>
      ItemRequest(b.items[k].menuItemId, ToInt32(b.items[k].quantity))))
  }

  method Translate(b: Body) returns (req: OrderRequest)
    requires GatewayDecodes(b)
    ensures req == WireRequest(b)
    ensures |req.items| == |b.items|
    ensures forall k :: 0 <= k < |b.items| ==> (req.items[k].quantity - b.items[k].quantity) % TWO_32 == 0
  {
    var items: seq<ItemRequest> := [];
    for i := 0 to |b.items|
      invariant items == WireRequest(b).items[..i]
    {
      items := items + [ItemRequest(b.items[i].menuItemId, ToInt32(b.items[i].quantity))];
    }
    req := OrderRequest(b.userId, items);
  }

  /** Gateway and monolith hand the same request on exactly for the bodies in range. */
  lemma SameRequest(b: Body)
    ensures InRange(b) <==>
      GatewayDecodes(b) && MonolithDecodes(b) && WireRequest(b) == MonolithRequest(b)
  {
    if GatewayDecodes(b) && MonolithDecodes(b) && WireRequest(b) == MonolithRequest(b) {
      forall k | 0 <= k < |b.items|
        ensures b.items[k].quantity < TWO_31
      {
        assert WireRequest(b).items[k] == MonolithRequest(b).items[k];
      }
    }
    if InRange(b) {
      assert WireRequest(b).items == MonolithRequest(b).items;
    }
  }

  /** Every request of 64-bit ids and quantities can be sent to the monolith. */
  lemma MonolithTakesAll(req: OrderRequest) returns (b: Body)
    requires req.userId < TWO_64
    requires forall k :: 0 <= k < |req.items| ==> req.items[k].menuItemId < TWO_64 && IsInt64(req.items[k].quantity)
    ensures MonolithDecodes(b) && MonolithRequest(b) == req
  {
    b := Body(req.userId, seq(|req.items|, k requires 0 <= k < |req.items| =>
      BodyItem(req.items[k].menuItemId, req.items[k].quantity)));
    assert MonolithRequest(b).items == req.items;
  }

  // ---- Orders on the wire ---------------------------------------------------------------

  datatype ProtoItem = ProtoItem(id: int, orderId: int, menuItemId: int, quantity: int, price: real)
  datatype ProtoOrder = ProtoOrder(id: int, userId: int, status: string, items: seq<ProtoItem>)

  function ToProtoItem(item: OrderItem): ProtoItem {
    ProtoItem(ToUint32(item.id), ToUint32(item.orderId), ToUint32(item.menuItemId), ToInt32(item.quantity), item.price)
  }

  function ToProto(o: Order): ProtoOrder {
    ProtoOrder(ToUint32(o.id), ToUint32(o.userId), o.status, Map(ToProtoItem, o.items))
  }

  /** A proto order up to the order of its lines, which the database does not fix. */
  datatype View = View(id: int, userId: int, status: string, items: multiset<ProtoItem>)

  function ViewOf(p: ProtoOrder): View {
    View(p.id, p.userId, p.status, multiset(p.items))
  }

  // ---- Answers --------------------------------------------------------------------------

  datatype Code =
    | Canceled | Unknown | InvalidArgument | DeadlineExceeded | NotFound | AlreadyExists
    | PermissionDenied | ResourceExhausted | FailedPrecondition | Aborted | OutOfRange
    | Unimplemented | Internal | Unavailable | DataLoss | Unauthenticated

  datatype RpcError = Status(code: Code) | NotGrpc
  datatype RpcResult<+T> = Ok(value: T) | Err(error: RpcError)

  /** `handleGRPCError`: eight codes have a status of their own, and nothing else is shown with it. */
  function HttpStatus(e: RpcError): (status: nat)
    ensures status == 404 <==> e == Status(NotFound)
    ensures status == 400 <==> e == Status(InvalidArgument)
    ensures status == 409 <==> e == Status(AlreadyExists)
    ensures status == 403 <==> e == Status(PermissionDenied)
    ensures status == 401 <==> e == Status(Unauthenticated)
    ensures status == 412 <==> e == Status(FailedPrecondition)
    ensures status == 501 <==> e == Status(Unimplemented)
    ensures status == 503 <==> e == Status(Unavailable)
    ensures status in {400, 401, 403, 404, 409, 412, 500, 501, 503}
  {
    match e
    case NotGrpc => 500
    case Status(code) =>
      match code
      case NotFound => 404
      case InvalidArgument => 400
      case AlreadyExists => 409
      case PermissionDenied => 403
      case Unauthenticated => 401
      case FailedPrecondition => 412
      case Unimplemented => 501
      case Unavailable => 503
      case _ => 500
  }

  /** Codes that gRPC itself can report for a call; the others only ever come from a handler. */
  predicate TransportError(e: RpcError) {
    e != Status(InvalidArgument) && e != Status(NotFound) && e != Status(AlreadyExists)
    && e != Status(FailedPrecondition) && e != Status(Aborted) && e != Status(OutOfRange) && e != Status(DataLoss)
  }

  /** What the order service returns for an outcome. */
  function RpcOf(outcome: Outcome): RpcResult<ProtoOrder> {
    match outcome
    case Created(o) => Ok(ToProto(o))
    case UserNotFound => Err(Status(InvalidArgument))
    case ItemNotFound(_) => Err(Status(InvalidArgument))
    case SaveFailed => Err(Status(Internal))
  }

  datatype Http<+T> = Http(status: nat, payload: Option<T>)

  /** The gateway's answer to a finished `CreateOrder` call. */
  function Answer(r: RpcResult<ProtoOrder>): Http<ProtoOrder> {
    match r
    case Ok(order) => Http(201, Some(order))
    case Err(e) => Http(HttpStatus(e), None)
  }

  /** The status the monolith writes for an outcome. */
  function MonolithStatus(outcome: Outcome): nat {
    match outcome
    case Created(_) => 201
    case UserNotFound => 400
    case ItemNotFound(_) => 400
    case SaveFailed => 500
  }

  predicate AllFound(s: Store, req: OrderRequest, fault: Fault) {
    UserOk(s, req, fault) && AllItemsOk(s, req, fault)
  }

  /** The order service's result, given whether user and items were found. */
  predicate Tells(r: RpcResult<ProtoOrder>, found: bool, fault: Fault) {
    && (r.Ok? <==> found && fault != Save)
    && (r == Err(Status(InvalidArgument)) <==> !found)
    && (r == Err(Status(Internal)) <==> found && fault == Save)
  }

  /** On a fixed store: what a client of the monolith, and the gateway, are told about which requests. */
  lemma AnswersMean(s: Store, req: OrderRequest, fault: Fault, keys: Keys)
    requires KeysFit(s, req, fault, keys)
    ensures var status := MonolithStatus(CreateOrder(s, req, fault, keys).1);
      && (status == 201 <==> AllFound(s, req, fault) && fault != Save)
      && (status == 400 <==> !AllFound(s, req, fault))
      && (status == 500 <==> AllFound(s, req, fault) && fault == Save)
    ensures Tells(RpcOf(CreateOrder(s, req, fault, keys).1), AllFound(s, req, fault), fault)
  {
    CreateOrderMeaning(s, req, fault, keys);
    if AllFound(s, req, fault) {
      assert !CreateOrder(s, req, fault, keys).1.ItemNotFound?;
    }
  }

  // ---- Ids in paths -----------------------------------------------------------------------

  predicate IsDigit(c: char) { '0' <= c <= '9' }

  function DecimalValue(s: string): nat
    requires forall i :: 0 <= i < |s| ==> IsDigit(s[i])
  {
    if s == "" then 0
    else
      assert IsDigit(s[|s| - 1]);
      10 * DecimalValue(s[..|s| - 1]) + (s[|s| - 1] as int - '0' as int)
  }

  /** `strconv.ParseUint(s, 10, 32)`. */
  function ParseUint32(s: string): (r: Option<nat>)
    ensures r.Some? ==> IsUint32(r.value)
  {
    if s == "" || !forall i :: 0 <= i < |s| ==> IsDigit(s[i]) then None
    else if DecimalValue(s) < TWO_32 then Some(DecimalValue(s))
    else None
  }

  function Decimal(n: nat): string {
    var digit := [(n % 10 + '0' as int) as char];
    if n < 10 then digit else Decimal(n / 10) + digit
  }

  lemma {:induction false} DecimalDigits(n: nat)
    ensures Decimal(n) != "" && forall i :: 0 <= i < |Decimal(n)| ==> IsDigit(Decimal(n)[i])
    ensures DecimalValue(Decimal(n)) == n
  {
    if n >= 10 {
      DecimalDigits(n / 10);
      assert Decimal(n)[..|Decimal(n)| - 1] == Decimal(n / 10);
    }
  }

  function Zeros(n: nat): string {
    seq(n, _ => '0')
  }

  lemma DecimalStep(n: nat, c: char)
    requires IsDigit(c) && n > 0
    ensures Decimal(10 * n + (c as int - '0' as int)) == Decimal(n) + [c]
  {
  }

  /** A digit string is the decimal form of its value behind some zeros. */
  lemma {:induction false} DigitsAreDecimal(s: string) returns (z: nat)
    requires s != "" && forall i :: 0 <= i < |s| ==> IsDigit(s[i])
    ensures s == Zeros(z) + Decimal(DecimalValue(s))
  {
    var front, c := s[..|s| - 1], s[|s| - 1];
    assert IsDigit(c) && s == front + [c];
    if front == "" {
      assert DecimalValue(s[..|s| - 1]) == 0;
      z := 0;
    } else {
      z := DigitsAreDecimal(front);
      if DecimalValue(front) > 0 {
        DecimalStep(DecimalValue(front), c);
      } else {
        assert Zeros(z) + "0" == Zeros(z + 1);
        z := z + 1;
      }
    }
  }

  lemma {:induction false} ZerosAddNothing(z: nat, n: nat)
    ensures var s := Zeros(z) + Decimal(n);
      (forall i :: 0 <= i < |s| ==> IsDigit(s[i])) && DecimalValue(s) == n
    decreases n
  {
    DecimalDigits(n);
    var s := Zeros(z) + Decimal(n);
    if n >= 10 {
      ZerosAddNothing(z, n / 10);
      assert s[..|s| - 1] == Zeros(z) + Decimal(n / 10);
    } else {
      assert s[..|s| - 1] == Zeros(z);
      ZerosAreZero(z);
    }
  }

  lemma {:induction false} ZerosAreZero(z: nat)
    ensures (forall i :: 0 <= i < |Zeros(z)| ==> IsDigit(Zeros(z)[i])) && DecimalValue(Zeros(z)) == 0
  {
    if z > 0 {
      ZerosAreZero(z - 1);
      assert Zeros(z)[..z - 1] == Zeros(z - 1);
    }
  }

  /** Exactly the decimal forms of numbers below 2^32, behind any zeros, are accepted. */
  lemma ParsesExactly(s: string, n: nat)
    ensures ParseUint32(s) == Some(n) <==> n < TWO_32 && exists z: nat :: s == Zeros(z) + Decimal(n)
  {
    if ParseUint32(s) == Some(n) {
      var z := DigitsAreDecimal(s);
      assert s == Zeros(z) + Decimal(n);
    }
    if n < TWO_32 && exists z: nat :: s == Zeros(z) + Decimal(n) {
      var z: nat :| s == Zeros(z) + Decimal(n);
      ZerosAddNothing(z, n);
      DecimalDigits(n);
    }
  }

  /** A rendered id is parsed back to itself, and is refused exactly from 2^32 on. */
  lemma ParseInvertsDecimal(n: nat)
    ensures ParseUint32(Decimal(n)) == if n < TWO_32 then Some(n) else None
  {
    DecimalDigits(n);
  }
}
