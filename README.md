# Marketplace order service: a Dafny model of its business core

The order service of a marketplace keeps two tables. One is a catalog of **items**, each with a name and a
price. The other is **orders**: each has an owner (a user id), a status (`PENDING`, `SHIPPED` or `DELIVERED`;
the model adds a fourth, `Cancelled`), a creation time, and lines. Each line references an item and has a
quantity. Callers are authenticated. An administrator may act for anybody. Anybody else may act only for the identity whose e-mail
is their own login name. Identities live in a separate user service, which the order service calls with the
caller's bearer token. If that call fails, a fixed placeholder identity is used instead.

The model covers:

- **the item catalog** (`ItemService.ItemServiceImpl`). This is create, list, read, patch and delete, with
  item names kept unique by looking a name up before writing it.
- **the order service** (`OrderService.OrderServiceImpl`). It places an order for the identity an e-mail
  resolves to. Placing is all-or-nothing: the lines are built in a local list by looking every requested item
  up by name, and one `PENDING` order is saved at the end. The service also reads one order with its owner,
  lists orders by optional id and status filters, patches an order's status, and deletes an order.
- **the access policy** (`AccessChecker`).
- **the identity resolver and its two placeholder identities** (`UserServiceClient`). The remote user
  service is an oracle. Each lookup returns either an identity or a failure, and the client turns a failure
  into the placeholder. A lookup by id is keyed by its position among the operation's lookups, so each call
  can succeed or fall back on its own.
- **the repository queries** as selections over the tables (`OrderRepository`, `ItemRepository`,
  `Tables`).
- **the mappers** as field copies and null-ignoring patches (`ItemMapper`, `OrderItemMapper`,
  `OrderMapper`).

Representation:

- Tables are maps from primary key to row.
- Id sequences are counters in the service objects.
- Nullable fields and arguments are `Option`s.
- Exceptions are the error values of a `Result`.
- Prices are integer cents and times are integers passed in.
- A listing returns its rows in ascending id order.

## Model

| member | source | states |
|---|---|---|
| `AccessChecker.AnyMatch` | src/main/java/org/oldvabik/orderservice/security/AccessChecker.java:10-10 | the stream `anyMatch` finds an authority exactly when that string is among the caller's authorities |
| `AccessChecker.CanAccessUser` | src/main/java/org/oldvabik/orderservice/security/AccessChecker.java:9-14 | a holder of `ROLE_ADMIN` is allowed for every target; for anybody else, allowed exactly when the caller's name equals the target's e-mail (both directions) |
| `AccessChecker.DecisionDependsOnNamesOnly` | src/main/java/org/oldvabik/orderservice/security/AccessChecker.java:9-14 | two checks that agree on the authorities, the caller's name and the target's e-mail reach the same decision |
| `AccessChecker.OtherAuthoritiesDoNotBypass` | src/main/java/org/oldvabik/orderservice/security/AccessChecker.java:10-13 | `ROLE_USER`, `role_admin`, `ROLE_ADMIN_` and `ADMIN` grant no bypass: such a caller, not the target, is denied |
| `UserServiceClient.GetUserByEmailFallback` | src/main/java/org/oldvabik/orderservice/client/UserServiceClient.java:59-67 | id -1, the requested e-mail unchanged, name and surname `unknown`, no birth date, for every input |
| `UserServiceClient.GetUserByIdFallback` | src/main/java/org/oldvabik/orderservice/client/UserServiceClient.java:69-77 | the requested id unchanged, e-mail `unknown@gmail.com`, name and surname `unknown`, no birth date, for every input |
| `UserServiceClient.FallbacksIgnoreCause` | src/main/java/org/oldvabik/orderservice/client/UserServiceClient.java:59-77 | neither placeholder depends on the failure cause or on the caller |
| `UserServiceClient.GetUserByEmail` | src/main/java/org/oldvabik/orderservice/client/UserServiceClient.java:27-37 | the identity the service answers with for the caller's token and the e-mail, or the e-mail placeholder when the call fails |
| `UserServiceClient.GetUserById` | src/main/java/org/oldvabik/orderservice/client/UserServiceClient.java:39-49 | the identity the service answers, in that lookup, for the caller's token and the id, or the id placeholder when that lookup fails |
| `OrderRepository.FindByIdWithDetails` | src/main/java/org/oldvabik/orderservice/repository/OrderRepository.java:15-22 | present exactly when the id is stored, and then the stored order with its lines, whose id is the one asked for |
| `OrderRepository.FindAllWithDetails` | src/main/java/org/oldvabik/orderservice/repository/OrderRepository.java:24-30 | every stored order and nothing else, each once, in ascending id order |
| `OrderRepository.FindByIdIn` | src/main/java/org/oldvabik/orderservice/repository/OrderRepository.java:32-39 | exactly the stored orders whose id is listed (both directions), each once, in id order |
| `OrderRepository.FindByStatusIn` | src/main/java/org/oldvabik/orderservice/repository/OrderRepository.java:41-48 | exactly the stored orders whose status is listed (both directions), each once, in id order |
| `OrderRepository.FindByIdInAndStatusIn` | src/main/java/org/oldvabik/orderservice/repository/OrderRepository.java:50-57 | exactly the stored orders whose id and status are both listed (both directions), each once, in id order |
| `OrderRepository.AscendingRowsAreDistinct` | src/main/java/org/oldvabik/orderservice/repository/OrderRepository.java:25-25 | rows in ascending id order are pairwise distinct: `DISTINCT` returns an order at most once |
| `OrderRepository.ConjunctionExample` | src/main/java/org/oldvabik/orderservice/repository/OrderRepository.java:55-55 | with orders 5 (pending), 6 and 7 (shipped), ids [5, 7] and status [shipped] select order 7 alone |
| `ItemRepository.FindById` | src/main/java/org/oldvabik/orderservice/service/impl/ItemServiceImpl.java:69-69 | present exactly when the id is stored, and then that row |
| `ItemRepository.FindByName` | src/main/java/org/oldvabik/orderservice/repository/ItemRepository.java:12-12 | absent exactly when no row has the name; otherwise a row with that name, the one under the smallest key (the smallest id when rows are stored under their own ids), which is the only one when names are unique |
| `ItemRepository.FindAll` | src/main/java/org/oldvabik/orderservice/service/impl/ItemServiceImpl.java:58-58 | every row and nothing else; with rows stored under their own ids, in strictly ascending id order |
| `ItemRepository.FindByNameContainingIgnoreCase` | src/main/java/org/oldvabik/orderservice/repository/ItemRepository.java:14-14 | exactly the rows whose name contains the filter, ignoring case (both directions); with rows stored under their own ids, in strictly ascending id order |
| `ItemRepository.SaveNew` | src/main/java/org/oldvabik/orderservice/service/impl/ItemServiceImpl.java:42-42 | the saved row has the generated id and the unsaved row's name and price |
| `Text.ContainsIgnoreCaseOfEqual` | src/main/java/org/oldvabik/orderservice/repository/ItemRepository.java:14-14 | a filter equal to a name up to case matches that name |
| `ItemMapper.ToDto` | src/main/java/org/oldvabik/orderservice/mapper/ItemMapper.java:14-14 | id, name and price are copied |
| `ItemMapper.ToEntity` | src/main/java/org/oldvabik/orderservice/mapper/ItemMapper.java:15-15 | name and price are copied, and the result has no id until it is saved |
| `ItemMapper.UpdateEntityFromDto` | src/main/java/org/oldvabik/orderservice/mapper/ItemMapper.java:17-18 | each present field overwrites, each null field keeps the old value, the id never changes |
| `ItemMapper.PatchIsIdempotent` | src/main/java/org/oldvabik/orderservice/mapper/ItemMapper.java:17-18 | applying the same patch twice is the same as applying it once |
| `ItemMapper.EmptyPatchIsIdentity` | src/main/java/org/oldvabik/orderservice/mapper/ItemMapper.java:17-18 | a patch with both fields null leaves the item as it is |
| `OrderItemMapper.ToDto` | src/main/java/org/oldvabik/orderservice/mapper/OrderItemMapper.java:10-13 | the line's own id and quantity are copied; item id, name and price are those of the referenced item, absent when the item row is |
| `OrderMapper.ToDto` | src/main/java/org/oldvabik/orderservice/mapper/OrderMapper.java:11-12 | `user` is unset; id, user id, status and creation time are copied; one line view per line, in line order |
| `OrderMapper.UpdateEntityFromDto` | src/main/java/org/oldvabik/orderservice/mapper/OrderMapper.java:16-17 | a given status overwrites the status; a null status leaves the order unchanged; id, user id, creation time and lines are never touched |
| `OrderMapper.LinePriceFollowsCatalog` | src/main/java/org/oldvabik/orderservice/mapper/OrderItemMapper.java:12-12 | a line shows its item's price at read time: changing that price changes how an existing order reads |
| `ItemService.AlreadyExistsMessageNamesItem` | src/main/java/org/oldvabik/orderservice/service/impl/ItemServiceImpl.java:38-38 | the duplicate-name error message contains the offending name |
| `ItemService.ListedRows` | src/main/java/org/oldvabik/orderservice/service/impl/ItemServiceImpl.java:55-59 | a null or blank filter selects every item; any other filter selects exactly the items whose name contains it, ignoring case; rows come in ascending id order |
| `ItemService.ListingShowsFilteredItems` | src/main/java/org/oldvabik/orderservice/service/impl/ItemServiceImpl.java:49-63 | the listing holds the view of every item the filter selects and of no other item |
| `ItemService.AddFreshNameKeepsNamesUnique` | src/main/java/org/oldvabik/orderservice/service/impl/ItemServiceImpl.java:36-42 | saving an item under a name no row holds keeps names unique |
| `ItemService.PatchKeepsNamesUnique` | src/main/java/org/oldvabik/orderservice/service/impl/ItemServiceImpl.java:90-98 | a patch that passed the rename check keeps names unique and every row under its own id |
| `ItemService.ItemServiceImpl.constructor` | src/main/java/org/oldvabik/orderservice/service/impl/ItemServiceImpl.java:24-28 | an empty catalog whose id sequence starts at 1 |
| `ItemService.ItemServiceImpl.CreateItem` | src/main/java/org/oldvabik/orderservice/service/impl/ItemServiceImpl.java:33-46 | a taken name gives AlreadyExists with the catalog unchanged; a fresh name adds exactly one item with the next id and the given name and price, and returns it; names stay unique |
| `ItemService.ItemServiceImpl.GetItems` | src/main/java/org/oldvabik/orderservice/service/impl/ItemServiceImpl.java:49-63 | every row returned is the view of a stored item the filter selects, and every such item is returned; ids strictly ascend, so no item appears twice |
| `ItemService.ItemServiceImpl.GetItemById` | src/main/java/org/oldvabik/orderservice/service/impl/ItemServiceImpl.java:66-77 | the item's view exactly when the id is stored, else NotFound with the id in the message |
| `ItemService.ItemServiceImpl.UpdateItem` | src/main/java/org/oldvabik/orderservice/service/impl/ItemServiceImpl.java:81-102 | a missing id gives NotFound and a rename to a taken name gives AlreadyExists, each leaving the catalog unchanged; otherwise only that item is replaced by its patch; keeping the name skips the lookup; names stay unique |
| `ItemService.ItemServiceImpl.DeleteItem` | src/main/java/org/oldvabik/orderservice/service/impl/ItemServiceImpl.java:106-118 | a missing id gives NotFound with the catalog unchanged; otherwise exactly that id is removed |
| `OrderService.BuildLines` | src/main/java/org/oldvabik/orderservice/service/impl/OrderServiceImpl.java:67-80 | when the lines are built there is one per request line |
| `OrderService.BuildLinesFailureIsFinal` | src/main/java/org/oldvabik/orderservice/service/impl/OrderServiceImpl.java:69-73 | a missing item in a prefix of the request aborts the whole request with the same error |
| `OrderService.BuildLinesFailsIffSomeItemMissing` | src/main/java/org/oldvabik/orderservice/service/impl/OrderServiceImpl.java:69-73 | building fails exactly when some request line names an item absent from the catalog, whatever the other lines are |
| `OrderService.BuildLinesReportsFirstMissing` | src/main/java/org/oldvabik/orderservice/service/impl/OrderServiceImpl.java:70-73 | the NotFound message names the first missing item in request order |
| `OrderService.BuildLinesFollowRequest` | src/main/java/org/oldvabik/orderservice/service/impl/OrderServiceImpl.java:69-80 | one line per request line, in request order; each references the catalog item with the requested name and keeps the requested quantity |
| `OrderService.CollectLines` | src/main/java/org/oldvabik/orderservice/service/impl/OrderServiceImpl.java:67-80 | the loop over the request lines computes exactly `BuildLines`: the lines in request order, or NotFound for the first item missing from the catalog |
| `OrderService.BuildLinesStep` | src/main/java/org/oldvabik/orderservice/service/impl/OrderServiceImpl.java:75-79 | a request line whose item exists appends one line, with that item's id and the requested quantity |
| `OrderService.BuildLinesStepFails` | src/main/java/org/oldvabik/orderservice/service/impl/OrderServiceImpl.java:70-73 | a request line whose item is missing ends building with NotFound naming it |
| `OrderService.ListedOrders` | src/main/java/org/oldvabik/orderservice/service/impl/OrderServiceImpl.java:104-115 | the query chosen for the filter shape returns exactly the orders `Selected` admits, in id order: no filter gives all orders, both give the conjunction, one gives that filter; null and empty lists both mean no filter |
| `OrderService.NoFilterSelectsAll` | src/main/java/org/oldvabik/orderservice/service/impl/OrderServiceImpl.java:107-108 | with neither filter every order is selected, and the unfiltered query lists all of them |
| `OrderService.BothFiltersSelectConjunction` | src/main/java/org/oldvabik/orderservice/service/impl/OrderServiceImpl.java:109-110 | with both filters an order is selected exactly when the conjunction query admits it |
| `OrderService.IdFilterSelectsIds` | src/main/java/org/oldvabik/orderservice/service/impl/OrderServiceImpl.java:111-112 | with the id filter alone an order is selected exactly when its id is listed |
| `OrderService.StatusFilterSelectsStatuses` | src/main/java/org/oldvabik/orderservice/service/impl/OrderServiceImpl.java:113-114 | with the status filter alone an order is selected exactly when its status is listed |
| `OrderService.NullAndEmptyFiltersAgree` | src/main/java/org/oldvabik/orderservice/service/impl/OrderServiceImpl.java:104-105 | a null filter list and an empty one select the same orders |
| `OrderService.WithOwner` | src/main/java/org/oldvabik/orderservice/service/impl/OrderServiceImpl.java:117-121 | the mapped order keeps id, owner and status, and carries the identity resolved from its own user id by the given lookup |
| `OrderService.WithOwners` | src/main/java/org/oldvabik/orderservice/service/impl/OrderServiceImpl.java:117-121 | one annotated view per row, in row order, row `i` resolved by the operation's lookup number `i` |
| `OrderService.ListingShowsSelectedOrders` | src/main/java/org/oldvabik/orderservice/service/impl/OrderServiceImpl.java:94-125 | the listing holds every selected order once, with its owner resolved by the lookup at its position, in id order, and no other order |
| `OrderService.FallbackOwnerAdmitsRequester` | src/main/java/org/oldvabik/orderservice/service/impl/OrderServiceImpl.java:53-62 | when e-mail resolution fails, a caller ordering under its own login e-mail passes the access check and the order's owner id is -1 |
| `OrderService.OrderServiceImpl.constructor` | src/main/java/org/oldvabik/orderservice/service/impl/OrderServiceImpl.java:35-46 | no orders; both id sequences start at 1; the catalog is the one given |
| `OrderService.OrderServiceImpl.CreateOrder` | src/main/java/org/oldvabik/orderservice/service/impl/OrderServiceImpl.java:50-91 | denied access gives AccessDenied and a missing item gives NotFound, each with the store and id sequences unchanged; otherwise exactly one `PENDING` order is added, owned by the resolved identity, with the built lines, and returned with that identity |
| `OrderService.OrderServiceImpl.GetOrders` | src/main/java/org/oldvabik/orderservice/service/impl/OrderServiceImpl.java:94-125 | every row is a stored order the filters select, annotated with the owner resolved from its user id by a lookup of its own, so two rows with the same owner can get different answers; every such order appears; ids strictly ascend, so no order appears twice |
| `OrderService.OrderServiceImpl.GetOrderById` | src/main/java/org/oldvabik/orderservice/service/impl/OrderServiceImpl.java:128-147 | a missing id gives NotFound; otherwise the owner is resolved by the order's user id, and the order is returned with it when the caller may act for it, else AccessDenied; reads only |
| `OrderService.OrderServiceImpl.UpdateOrder` | src/main/java/org/oldvabik/orderservice/service/impl/OrderServiceImpl.java:151-167 | a missing id gives NotFound with the store unchanged; otherwise only that order's status changes (when one is given), and it is returned with its owner |
| `OrderService.OrderServiceImpl.DeleteOrder` | src/main/java/org/oldvabik/orderservice/service/impl/OrderServiceImpl.java:171-183 | a missing id gives NotFound with the store unchanged; otherwise exactly that id is removed |

## Left out

- HTTP and the circuit breaker. The REST call, the URL building and the bearer header are network I/O. The
  resilience4j breaker is annotation machinery. Both appear only as the user-service oracle, which either
  answers or fails, and the fallback identities.
- The remote call answering with an empty body: the Java client would pass on a null identity. The oracle
  always answers with an identity or fails.
- Kafka. The order event producer is never called by the order service. The payment consumer calls an
  `updateOrderStatusByPayment` that the order service interface does not declare, and no file defines it.
  So there is no payment-status mapping to model.
- The controllers: HTTP routing and the role gates in front of listing, updating and deleting orders.
  The service operations are modelled without them, as the service itself has no gate.
- Paging. `getItems` and `getOrders` return the whole filtered listing; page slicing is left out.
- Row order of the list queries. The SQL queries have no `ORDER BY`, so the database may return rows in
  any order. The model returns them in ascending id order.
- Transactions, rollback and concurrency. In particular the check-then-save race on item names is out.
  Operations run one at a time, and `createOrder`'s atomicity comes from saving once at the end.
- Bean-validation annotations on the request objects (sizes, minimum prices, e-mail format, non-empty
  lists). The framework checks them before the service runs; the model accepts any request.
- `BigDecimal` prices are integer cents. `LocalDateTime.now()` is the `now` argument of `CreateOrder`.
  Long ids are unbounded integers; there is no 64-bit overflow.
- Case-insensitive matching and blankness cover ASCII only: upper-casing of a-z, and Java's ASCII white
  space. Unicode case mapping and Unicode white space are out.
- In-place mutation by the mappers. The two `updateEntityFromDto` methods patch their target object; the
  model returns the patched row and the service writes it back. Object identity and aliasing are not
  modelled.
- `OrderMapper.toEntity` is not modelled. Nothing in the core calls it.
- Line ids. The database assigns an order line its id when the order is saved. The model draws them from
  a line-id counter while building the lines.
- `ItemRepository.FindByName`: a derived `findByName` over duplicate names would fail with an
  incorrect-result-size error. The model returns the duplicate with the smallest id instead. The catalog
  keeps names unique, so the case does not arise.
- The entity classes (`Order`, `Item`, `OrderItem`, `OrderStatus`) and `ItemUpdateDto` are modelled
  from their uses in the services, mappers, DTOs and tests, not from their own declarations. The status
  values `PENDING`, `SHIPPED` and `DELIVERED` are the ones the code and the tests use; the model's
  `OrderStatus` has `Cancelled` as a fourth value, which no operation produces.
- Referential integrity between order lines and catalog items. `DeleteItem` removes an item even when
  order lines still name it, and succeeds in the model. Such a line then maps with its item fields
  absent.
- Lookups by e-mail are one per operation. `createOrder` is the only operation that asks for an
  identity by e-mail, and it asks once, so the oracle's e-mail endpoint is not indexed by call.
- Logging, the error-response body and the configuration properties.
