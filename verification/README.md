# Student Café services: a verified model

This project models the parts of the Student Café course repository that carry real
properties, and proves them in Dafny 4.11:

* order creation across the gateway, the order service, the user service and the menu service,
  with any number of orders in flight and no lock across the services. The monolith's
  `CreateOrder`, taken as one atomic step, is its specification;
* the concurrent code of practical 3: the mutex-guarded connection cache, the WaitGroup fan-out
  and the channel/select fan-in;
* the two gateways' path rewriting.

Run `dafny verify dfyconfig.toml` to check everything.

## How it is built

| file | contents |
|---|---|
| `Integers.dfy` | Go's integer conversions |
| `Collections.dfy` | rows in unspecified order: enumerations and their multisets |
| `Models.dfy` | records, the two order tables, `Create` and `Preload` |
| `Monolith.dfy` | the atomic `CreateOrder` |
| `Gateway.dfy` | decoding, narrowing, proto orders, gRPC code to HTTP status, ids in paths |
| `Protocol.dfy` | the interleaved steps of all services, and the invariant of every reachable state |
| `Refinement.dfy` | linearization points; interleaved runs are monolith runs |
| `Realization.dfy` | every call can finish by itself from wherever it is; monolith runs are runs of the services |
| `Histories.dfy` | price snapshots, at most one commit, what answers settle |
| `Linearizability.dfy` | menus that are edited: which runs are monolith runs under any choice of instants |
| `EditedPrices.dfy` | an edited run that is no monolith run under any |
| `Readers.dfy` | `GetOrder` and `GetOrders`, one query after another, against what was committed |
| `Services.dfy` | the handlers as loops over databases updated in place |
| `ConnectionCache.dfy`, `FanOut.dfy`, `FanIn.dfy`, `Purchases.dfy` | practical 3 |
| `Paths.dfy` | both path rewriters |

A *run* is any sequence of step labels. A label says whose step is scheduled and what the
environment does to it: which call fails of itself, which keys the database picks, what an RPC
returns. A label that is not enabled changes nothing, so theorems about all sequences of labels
are theorems about all runs. Failures of a call's own (`fault`) are kept apart from genuine
misses: a run without faults is matched by a monolith run without faults.

Assumptions about what the repository does not contain:

* `Create` is atomic with its child rows, and an error from it means that nothing was written;
* keys are positive and not in the table already; nothing else is known about them;
* `First` by key finds the row, or reports an error if there is none or if it fails of itself;
* `Preload("OrderItems")` queries for the rows whose `order_id` matches, after the query for the
  orders, and returns each once, in any order;
* two users never share an email;
* the gRPC library never reports `InvalidArgument`, `NotFound`, `AlreadyExists`,
  `FailedPrecondition`, `Aborted`, `OutOfRange` or `DataLoss` by itself;
* `uint` and `int` have 64 bits.

Findings, each stated exactly:

* The services and the monolith hand on the same request exactly for ids below 2^32 and
  quantities below 2^31 (`Gateway.SameRequest`).
* With prices that nobody changes, which is all the services offer, every run refines the
  monolith (`Refinement.ServicesRefineMonolith`). With edits, a run is a monolith run, for some
  choice of instants within the calls, exactly when every stored order had a moment in flight at
  which its user existed and the menu showed all its prices (`Linearizability.LinearizableIff`).
  A save at outdated prices may still have one (`Linearizability.StaleSaveCanBeAtomic`); an order priced across
  two edits may not, and then no monolith run explains it (`EditedPrices.TornIsNotAtomic`).
* A client can get 201, 400, 401, 403, 500, 501 and 503; 201 means stored, 400 means never stored,
  and each of the others is seen in both cases (`Histories.StatusSettles`). After exactly those
  others an order may still be stored that was not when its client was told
  (`Histories.ToldTooSoonIff`), because the service goes on whatever the client was told
  (`Realization.CallCanFinish`).
* The HTTP handler still kept in the order service agrees with the monolith in every reachable
  state exactly for requests that never come to look up an id from 2^32 on, because there is none
  or because an id 0 is refused first (`Services.HandlerAgreesIff`). Otherwise it can find what is
  not there, or miss what is.
* The id shown for an order reads back that order exactly below 2^32. From there on it reads
  another call's order if the low 32 bits are a key in use, and nothing otherwise
  (`Readers.ReadBackExactly`); in some run a customer is shown another customer's order
  (`Readers.ReadsAnothersOrder`).
* The order shown by the services is the monolith's, field by field, exactly when the keys of the
  order and its lines are below 2^32 (`Refinement.IndistinguishableFromMonolith`).
* `Preload` is two queries, and still an atomic read: commits between them cannot be seen
  (`Readers.ListingIsAtomic`).
* The splitting gateway also accepts `api/…` without a leading slash; it agrees with the trimming
  gateway exactly on rooted paths (`Paths.RewritesAgree`). It refuses `/api/users`, `/api/menu` and
  `/api/orders`, which the trimming gateway serves (`Paths.CollectionsAreRefused`, `Paths.Proxy`).

## Model

| member | source | states |
|---|---|---|
| `Integers.ToUint32` | practicals/practical6-example/order-service/grpc/server.go:125-127 | a `uint32` conversion is in range, congruent modulo 2^32, and keeps the value iff it already was in range |
| `Integers.ToInt32` | practicals/practical6-example/api-gateway/handlers/order_handlers.go:35 | an `int32` conversion is in range, congruent modulo 2^32, and keeps the value iff it already was in range |
| `Models.CreateThenLoad` | practicals/practical6-example/order-service/models/order.go:5-18 | what `Create` puts in the two tables is what `Preload` joins back, and references stay intact |
| `Models.CreateKeepsOthers` | practicals/practical6-example/order-service/models/order.go:5-18 | a commit leaves every other order's join as it was |
| `Models.LoadsAgree` | practicals/practical6-example/order-service/grpc/server.go:108-118 | two readings of one order differ at most in line order |
| `Monolith.FirstFailure` | practicals/practical5/student-cafe-monolith/handlers/order_handlers.go:38-44 | the least position whose lookup fails, or the number of items |
| `Monolith.CreateOrderMeaning` | practicals/practical5/student-cafe-monolith/handlers/order_handlers.go:25-57 | exact outcome on a fixed store: created iff user and all items are found, the refused item is the first that fails, lines are the request's pointwise at menu prices, a refusal stores nothing |
| `Gateway.Translate` | practicals/practical6-example/api-gateway/handlers/order_handlers.go:30-37 | the loop yields the wire request; every quantity is congruent modulo 2^32 |
| `Gateway.SameRequest` | practicals/practical6-example/api-gateway/handlers/order_handlers.go:17-37 | gateway and monolith decode to the same request iff ids are below 2^32 and quantities below 2^31 |
| `Gateway.MonolithTakesAll` | practicals/practical5/student-cafe-monolith/handlers/order_handlers.go:18-23 | every request of 64-bit ids and quantities has a body that the monolith decodes to it |
| `Gateway.HttpStatus` | practicals/practical6-example/api-gateway/handlers/handlers.go:22-55 | each of the eight statuses 404, 400, 409, 403, 401, 412, 501 and 503 is shown for exactly its own code, and 500 for every other error |
| `Gateway.AnswersMean` | practicals/practical6-example/order-service/grpc/server.go:53-89 | on a fixed store: 201 iff user and items are found and the save succeeds, 400 iff user or item is not found, 500 iff the save fails; the order service returns an order, `InvalidArgument` or `Internal` in the same cases |
| `Gateway.ParsesExactly` | practicals/practical6-example/api-gateway/handlers/order_handlers.go:61-65 | the strings accepted for `n` are exactly its decimal form behind any number of zeros, for `n` below 2^32 |
| `Gateway.ParseInvertsDecimal` | practicals/practical6-example/api-gateway/handlers/order_handlers.go:60-65 | a rendered id parses to itself, and is refused iff it is 2^32 or more |
| `Protocol.ReachableInv` | practicals/practical6-example/order-service/grpc/server.go:53-89 | inductive invariant over all runs, half-built orders included: checked users and items exist, finished orders are in the tables, commits and order rows correspond one to one, replies report outcomes, emails are unique, keys are positive |
| `Protocol.StepGrows` | practicals/practical6-example/order-service/grpc/server.go:53-89 | no step removes a row or changes anything in one but a menu price; bodies and finished outcomes are final |
| `Refinement.StepRefines` | practicals/practical6-example/order-service/grpc/server.go:55-84 | each step is the atomic step at its linearization point, or invisible |
| `Refinement.ReachablePrices` | practicals/practical6-example/order-service/grpc/server.go:67-79 | without price edits, half-built and stored lines always carry the menu's current prices |
| `Refinement.RefinesIffSavesCurrent` | practicals/practical6-example/order-service/grpc/server.go:53-89 | with price edits allowed, the points that place orders at their saves make the run a monolith run iff every successful save finds its snapshots current; otherwise the monolith gets stuck on them or tells some finished call something else |
| `Refinement.ServicesRefineMonolith` | practicals/practical6-example/order-service/grpc/server.go:53-89 | every run without price edits is a monolith run with the same rows and outcomes |
| `Refinement.PlacedWhenDone` | practicals/practical6-example/order-service/grpc/server.go:53-89 | a call has its linearization point exactly from the step that settles it |
| `Refinement.PlacedOnce` | practicals/practical6-example/order-service/grpc/server.go:53-89 | no call takes effect twice |
| `Refinement.RealTimeOrder` | practicals/practical6-example/api-gateway/handlers/order_handlers.go:39-53 | an order answered before another arrived takes effect before it |
| `Refinement.PointsAreFaithful` | practicals/practical6-example/api-gateway/handlers/order_handlers.go:30-43 | the monolith run is fed the clients' own requests, and no faults if no call had one |
| `Refinement.IndistinguishableFromMonolith` | practicals/practical6-example/api-gateway/handlers/order_handlers.go:15-54 | for bodies in range: the monolith, fed the same bodies, ends with the same rows and gives each answered request the same status and, ids cut to 32 bits, the same order; the fields shown are the order's own iff its key and its lines' keys are below 2^32 |
| `Realization.SoloIsAtomic` | practicals/practical6-example/order-service/grpc/server.go:53-89 | a call's steps from its arrival on, run without interruption, are the atomic step, for every fault |
| `Realization.CallCanFinish` | practicals/practical6-example/order-service/grpc/server.go:53-89 | in every reachable state, every call in flight, whatever its client was told, can finish by its own steps, with every fault: lines it has are kept, the others priced now, nothing else changes; with current prices this is the monolith's atomic step on that state |
| `Realization.MonolithIsRealized` | practicals/practical5/student-cafe-monolith/handlers/order_handlers.go:18-62 | every monolith run over wire requests is a run of the services |
| `Histories.StoredOrdersAreSound` | practicals/practical6-example/order-service/grpc/server.go:55-84 | in every reachable state stored users and items exist, stored prices are the menu's, each row belongs to exactly one commit |
| `Histories.PriceIsSnapshot` | practicals/practical6-example/order-service/grpc/server.go:67-79 | under any price edits, each stored price was the menu's at that line's own lookup, after the user check and before the save |
| `Histories.SnapshotStays` | practicals/practical6-example/order-service/grpc/server.go:67-84 | no later step alters a stored line |
| `Histories.AtMostOneCommit` | practicals/practical6-example/order-service/grpc/server.go:81-84 | one request saves at most once in any run |
| `Histories.OnlySavesWrite` | practicals/practical6-example/order-service/grpc/server.go:81-84 | nothing but a successful save changes the order tables |
| `Histories.DefiniteAnswers` | practicals/practical6-example/api-gateway/handlers/order_handlers.go:45-53 | a 201 or 400 is always the order service's word, and its answers report the call's final outcome |
| `Histories.CreatedIsStored` | practicals/practical6-example/api-gateway/handlers/order_handlers.go:45-53 | a 201 comes from the service, and its order is stored as shown in all later states |
| `Histories.RefusedIsNeverStored` | practicals/practical6-example/api-gateway/handlers/order_handlers.go:45-48 | a 400, or any refusal by the service, means that no step of the request ever writes |
| `Histories.ServiceAnswers` | practicals/practical6-example/order-service/grpc/server.go:53-89 | over all runs: the service's answer is 201 iff the call's save happened, 400 iff a lookup of it failed, 500 iff its save failed, and carries an order iff 201 |
| `Histories.RequestsAlwaysArrive` | practicals/practical6-example/api-gateway/handlers/order_handlers.go:15-43 | a decodable request is taken in every reachable state, whatever else is in flight, and an undecodable one never |
| `Histories.RowsCanBeAdded` | practicals/practical6-example/user-service/grpc/server.go:25-40 | in every reachable state a user is added iff key and email are new, a menu item iff its key is |
| `Histories.AnswersAreDelivered` | practicals/practical6-example/api-gateway/handlers/order_handlers.go:45-53 | a finished call's waiting client can always be answered, and nothing else changes |
| `Histories.LostReply` | practicals/practical6-example/api-gateway/handlers/order_handlers.go:45-48 | a waiting client can be given any transport error at any time, and nothing else changes |
| `Histories.StoredAfterLoss` | practicals/practical6-example/order-service/grpc/server.go:81-84 | wherever a call in flight is: if its lookups would still succeed, its client can be shown the error first and the order be stored afterwards |
| `Histories.ReplySources` | practicals/practical6-example/api-gateway/handlers/handlers.go:22-55 | a transport error is shown as 401, 403, 500, 501 or 503, never as 201 or 400 |
| `Histories.LostReplyIsAmbiguous` | practicals/practical6-example/api-gateway/handlers/order_handlers.go:45-48 | for every error that gRPC itself can report, its status is reachable with the order stored and with no order at all |
| `Histories.StatusSettles` | practicals/practical6-example/api-gateway/handlers/order_handlers.go:45-53 | the statuses a client can get are exactly these seven; of them 201 alone always means stored, 400 alone never stored, over all runs and later states |
| `Histories.ToldTooSoonIff` | practicals/practical6-example/order-service/grpc/server.go:81-84 | exactly after 401, 403, 500, 501 and 503 an order that was not stored when the client was told can be stored later |
| `Linearizability.LinearizableIff` | practicals/practical6-example/order-service/grpc/server.go:53-89 | under any price edits: some choice of instants within the calls makes the run a monolith run with the same rows, outcomes and edits iff every stored order had an instant in flight at which its user existed and the menu showed all its prices |
| `Linearizability.AtomicRunNeedsInstant` | practicals/practical6-example/order-service/grpc/server.go:53-89 | any monolith run with the same rows, outcomes, additions and edits, orders placed anywhere, needs for every stored order a state of the run that shows its user and all its prices |
| `Linearizability.StaleSaveCanBeAtomic` | practicals/practical6-example/order-service/grpc/server.go:67-84 | a price edited just before a save leaves the run atomic, though not with the order taking effect at its save |
| `EditedPrices.EditedPricesCanTear` | practicals/practical6-example/order-service/grpc/server.go:67-79 | a concrete run with price edits stores prices that the menu never showed together |
| `EditedPrices.TornIsNotAtomic` | practicals/practical6-example/order-service/grpc/server.go:67-79 | that run is not linearizable, and no monolith run with the same additions and edits has its rows and outcomes |
| `Readers.JoinIsNested` | practicals/practical6-example/order-service/models/order.go:5-18 | in every reachable state the join for a committed order is the nested order its call built, as a multiset |
| `Readers.ReadBack` | practicals/practical6-example/order-service/grpc/server.go:86-118 | an order is what `GetOrder` on its returned id yields in every later state (id below 2^32) |
| `Readers.ReadBackOverHttp` | practicals/practical6-example/api-gateway/handlers/order_handlers.go:56-80 | the same through the gateway, with the shown id written in decimal |
| `Readers.ReadBackExactly` | practicals/practical6-example/order-service/grpc/server.go:108-143 | in every run, the id shown for an order reads that order iff its id is below 2^32, another call's order iff it is not and the narrowed id is in the table, and `NotFound` iff it is not and the narrowed id is not |
| `Readers.ReadsAnothersOrder` | practicals/practical6-example/order-service/grpc/server.go:108-143 | a run of the services in which a customer reads another customer's order under the id given for their own |
| `Readers.GetOrdersIsCommits` | practicals/practical6-example/order-service/grpc/server.go:91-106 | `GetOrders` is, as a multiset, what all committers were told |
| `Readers.JoinIsAtomic` | practicals/practical6-example/order-service/grpc/server.go:108-113 | an order row with its lines read in any later state is exactly an order joined when the row was read |
| `Readers.ListingIsAtomic` | practicals/practical6-example/order-service/grpc/server.go:93-96 | a listing whose lines are read after further commits is exactly an atomic listing at its first query |
| `Readers.ShownOrderAnswersRequest` | practicals/practical6-example/order-service/grpc/server.go:120-143 | in every run, the order shown for a commit has the request's user and items in order at stored prices; quantities agree modulo 2^32, and exactly iff below 2^31 |
| `Services.Database.Preload` | practicals/practical6-example/order-service/grpc/server.go:110-113 | every row of the order once, in some order |
| `Services.UserServer.CreateUser` | practicals/practical6-example/user-service/grpc/server.go:25-40 | succeeds iff nothing fails and the email is new; then one row more and its fields in the reply, else `Internal` and none |
| `Services.UserServer.GetUser` | practicals/practical6-example/user-service/grpc/server.go:42-55 | finds the row iff it exists; `NotFound` and `Internal` told apart |
| `Services.MenuServer.GetMenuItem` | practicals/practical6-example/menu-service/grpc/server.go:25-38 | finds the row, with its price, iff it exists |
| `Services.MonolithCreateOrder` | practicals/practical5/student-cafe-monolith/handlers/order_handlers.go:18-62 | the handler's loop and early returns compute the atomic step; the status is 400 iff user or item is not found, otherwise 500 iff the save fails, otherwise 201 |
| `Services.OrderServer.CreateOrder` | practicals/practical6-example/order-service/grpc/server.go:52-89 | the gRPC handler, undisturbed, has the monolith's effect and the gRPC form of its outcome: an order, `InvalidArgument` iff user or item is not found, `Internal` iff the save fails |
| `Services.OrderServer.HandlerCreateOrder` | practicals/practical6-example/order-service/handlers/order_handlers.go:25-75 | the HTTP handler looks up narrowed ids and stores full ones |
| `Services.NarrowMeaning` | practicals/practical6-example/order-service/handlers/order_handlers.go:25-75 | what it answers: 400 iff a narrowed id is not found, otherwise 500 iff the save fails, otherwise 201; what it stores: the full ids at the narrowed ids' prices, all rows or none |
| `Services.OrderServer.GetOrder` | practicals/practical6-example/order-service/grpc/server.go:108-118 | returns the order's join, or `NotFound` |
| `Services.OrderServer.GetOrders` | practicals/practical6-example/order-service/grpc/server.go:91-106 | returns every order once, each with its join |
| `Services.OrderServer.FindOrders` | practicals/practical6-example/order-service/grpc/server.go:93-96 | every order once, with its join, in some order |
| `Services.ModelToProto` | practicals/practical6-example/order-service/grpc/server.go:120-143 | the slice filled by index is the proto form, narrowed field by field |
| `Services.GatewayCreateOrder` | practicals/practical6-example/api-gateway/handlers/order_handlers.go:13-54 | undecodable bodies get 400 and change nothing; others have the monolith's effect, unless the request is lost, and 400, 500 or 201 as user and items are found and the save succeeds, with the order, unless the connection fails |
| `Services.GatewayGetOrder` | practicals/practical6-example/api-gateway/handlers/order_handlers.go:56-80 | 400 for a bad id, the error's status if the connection fails, 404 for a missing order, otherwise 200 with the order |
| `Services.HandlerAgreesIff` | practicals/practical6-example/order-service/handlers/order_handlers.go:34-65 | the HTTP form equals the monolith on every store that a run can reach iff the user id is 0, or fits in 32 bits and each item id that does not comes after an item id 0 |
| `ConnectionCache.ServiceDiscovery.GetServiceConnection` | practicals/practical3_solution.md:742-774 | the body under the lock: a hit or a new entry for the connection dialled on success, an unchanged cache and exactly the error met on failure |
| `ConnectionCache.Reachable` | practicals/practical3_solution.md:742-774 | mutual exclusion; a name found missing stays missing until its finder stores it; results agree with the cache |
| `ConnectionCache.CallsAreAtomic` | practicals/practical3_solution.md:742-774 | every interleaving of callers is a sequence of whole calls, with the same cache and results |
| `ConnectionCache.PointsAreFaithful` | practicals/practical3_solution.md:742-774 | those whole calls are the callers' own: the name each asked for, and what its own discovery and dialling returned wherever the name was not cached |
| `ConnectionCache.CallCanFinish` | practicals/practical3_solution.md:742-774 | in every reachable state, the caller holding the lock, or any caller waiting for a free one, can finish by its own steps whatever discovery and dialling return, with the sequential result, and frees the lock |
| `ConnectionCache.EverySequenceIsRun` | practicals/practical3_solution.md:742-774 | any sequence of whole calls, with whatever they meet, is a run with the same cache and results |
| `ConnectionCache.StoredOnce` | practicals/practical3_solution.md:746-771 | at most one connection per service name is ever stored |
| `ConnectionCache.StoredIsDialled` | practicals/practical3_solution.md:766-771 | the connection stored under a name is the one that its caller dialled before, having asked for that name |
| `ConnectionCache.ResultsAreReal` | practicals/practical3_solution.md:746-774 | a connection returned was dialled and stored by some caller for that very name; an error names the caller's service and what its own lookups met |
| `ConnectionCache.OneLookupEach` | practicals/practical3_solution.md:751-766 | no caller discovers or dials twice |
| `ConnectionCache.SameConnection` | practicals/practical3_solution.md:746-774 | all successful callers for a name hold the stored connection |
| `ConnectionCache.FailureChangesNothing` | practicals/practical3_solution.md:751-769 | a caller that ends in an error changed the cache by none of its steps |
| `ConnectionCache.EntriesStay` | practicals/practical3_solution.md:742-774 | entries are never removed or replaced |
| `ConnectionCache.NoDeadlock` | practicals/practical3_solution.md:743-744 | until every caller has returned, some caller can move |
| `FanOut.AnswerIsScheduleFree` | practicals/practical3_solution.md:886-939 | under every schedule both values iff both clients and both RPCs succeed, the user's error iff its client or RPC fails, the product's iff only that side fails; the variables are final and set when read |
| `FanOut.NobodyIsLeftWaiting` | practicals/practical3_solution.md:891-925 | a schedule with nobody left to move has answered, and both goroutines are gone |
| `FanOut.SchedulesAreBounded` | practicals/practical3_solution.md:881-943 | no schedule does more than ten steps |
| `FanOut.Reachable` | practicals/practical3_solution.md:886-925 | the counter counts the goroutines still running, and each variable holds exactly what its goroutine has got so far |
| `FanOut.GoroutinesRunFreely` | practicals/practical3_solution.md:891-923 | until it is gone, each goroutine can take its next step in every schedule |
| `FanIn.AnswerHasBoth` | practicals/practical3_solution.md:2076-2110 | a finished loop has both results, each from its own lookup; errors and cancellations are real ones |
| `FanIn.EverySchedule` | practicals/practical3_solution.md:2054-2090 | every schedule that has come to its end without a cancellation has answered with what both RPCs returned iff both succeeded, otherwise with the first error sent; the errors sent are exactly those returned |
| `FanIn.WorkersCarryResults` | practicals/practical3_solution.md:2058-2074 | each goroutine carries exactly what its RPC returned |
| `FanIn.ErrorsInOrder` | practicals/practical3_solution.md:2085-2086 | errors are received in the order of their sends, and at most the first is |
| `FanIn.AnswersAreReal` | practicals/practical3_solution.md:2079-2090 | at any time: both values are what the RPCs returned, an error is the first one sent, a cancellation the client's |
| `FanIn.WorkersRunFreely` | practicals/practical3_solution.md:2058-2074 | each RPC can return anything in any state, and its goroutine then ends without waiting for anyone |
| `FanIn.SelectIsFree` | practicals/practical3_solution.md:2079-2090 | in every state of the loop each ready case can be taken, and a cancellation at once |
| `FanIn.SendsNeverBlock` | practicals/practical3_solution.md:2054-2074 | no goroutine ever waits on a send, also after an early return |
| `FanIn.SchedulesAreBounded` | practicals/practical3_solution.md:2054-2090 | no schedule does more than eight steps |
| `FanIn.NobodyIsLeftWaiting` | practicals/practical3_solution.md:2054-2090 | once only a cancellation could happen, the handler has returned and both goroutines are gone |
| `FanIn.Reachable` | practicals/practical3_solution.md:2054-2090 | every result is in exactly one place: its goroutine, its channel, the handler or the error channel |
| `Purchases.CollectIds` | practicals/practical3_solution.md:2130-2134 | the map's keys are the distinct product ids |
| `Purchases.FetchProducts` | practicals/practical3_solution.md:2141-2153 | in any map order, exactly the ids whose lookup succeeds are fetched |
| `Purchases.ListProducts` | practicals/practical3_solution.md:2169-2171 | in any map order, each fetched id contributes its product once |
| `Purchases.BuildPurchases` | practicals/practical3_solution.md:2156-2167 | the slice filled by index shows each row's fields in order |
| `Purchases.ListedExactly` | practicals/practical3_solution.md:2130-2171 | a product is listed iff some purchase's id leads to it, as often as different ids do |
| `Purchases.GetUserPurchases` | practicals/practical3_solution.md:2113-2182 | every purchase in order, one product per distinct id found, first error reported otherwise |
| `Paths.JoinInvertsSplit` | practicals/practical2/api-gateway/main.go:33-55 | joining the segments of a path gives the path |
| `Paths.SplitInvertsJoin` | practicals/practical2/api-gateway/main.go:33-55 | splitting joined slash-free segments gives the segments |
| `Paths.AcceptsExactly` | practicals/practical2/api-gateway/main.go:33-37 | accepted iff the path is `api/`, a slash-free part, `/` and any rest, with or without a leading slash |
| `Paths.RouteMeaning` | practicals/practical2/api-gateway/main.go:33-55 | service `a-service` and forwarded path `/a/rest` |
| `Paths.RootedAcceptsExactly` | practicals/practical2/api-gateway/main.go:33-55 | a rooted path is accepted iff it is `/api/a/rest` with `a` slash-free; then the service is `a-service` and the forwarded path `/a/rest` |
| `Paths.RewritesAgree` | practicals/practical5/api-gateway/main.go:35-39 | `/api` plus the forwarded path is the path, and both gateways rewrite it alike, iff it is rooted |
| `Paths.CollectionsAreRefused` | practicals/practical2/api-gateway/main.go:33-37 | `/api/` and a single segment is refused by the splitting gateway |
| `Paths.RouteRequest` | practicals/practical2/api-gateway/main.go:28-60 | 400 iff no such shape, 503 iff discovery of `a-service` fails, and only a forwarded request is rewritten, to `/a/rest` |
| `Paths.Proxy` | practicals/practical5/api-gateway/main.go:35-40 | `/api` is taken off every path that starts with it, so `/api/a` becomes `/a`, and no other path is changed; on rooted accepted paths this is the splitting gateway's result |

## Left out

- JSON, chi routing, HTTP headers and the reverse proxy: a body is a record of integers, an answer a status and an order.
- Timestamps: `created_at` and `updated_at` are in no record.
- Floating point: prices are reals, since they are only copied.
- Error texts: outcomes keep what a text names (the failing item's position, the service and its address), not the wording.
- The unlocked connection cache (practicals/practical3_solution.md:2200-2235): it does not have the at-most-one property.
- `GetPurchase` before its channels are made (the row lookup and the two clients) and the copying of the fetched fields: straight-line code.
- `CreatePurchase`, `GetUsers`, `GetMenu`, the practical 4 services and the practical 5 and 5a services: the same patterns again, or nothing hard to state.
- Start-up, Consul registration, Docker and deployment files, the user interface.
- Services.OrderServer.CreateOrder: as a method it runs undisturbed; interference between its calls is the subject of `Protocol` and `Refinement`, on values.
