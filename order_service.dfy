/** Order orchestration: place an order for an identity resolved by e-mail, read one order with
    its owner's identity, list orders by optional id and status filters, patch an order's status,
    delete an order. Placing an order is all-or-nothing: the lines are built in a local list and
    the order is written to the store once, at the end. */
module OrderService {
  import opened Wrappers
  import opened Domain
  import opened Text
  import ItemRepository
  import OrderRepository
  import OrderMapper
  import AccessChecker
  import UserServiceClient
  import ItemService

  const AccessDeniedMessage := "Access denied"

  function ItemNotFoundMessage(name: string): string {
    "Item not found: " + name
  }

  function OrderNotFoundMessage(id: int): string {
    "order with id " + Decimal(id) + " not found"
  }

  // ---------------------------------------------------------------------------------------
  // The lines of a new order

  /** The lines `createOrder` builds for the request lines `reqs`, looking each item up by name
      in request order; the first name the catalog lacks ends the attempt. The lines take ids
      `firstLineId`, `firstLineId + 1`, ... from the line id sequence. */
  function BuildLines(reqs: seq<OrderItemCreateDto>, items: map<int, Item>, firstLineId: int)
    : (r: Result<seq<OrderLine>>)
    ensures r.Success? ==> |r.value| == |reqs|
    decreases |reqs|
  {
    if reqs == [] then Success([])
    else
      var prev := BuildLines(reqs[..|reqs| - 1], items, firstLineId);
      var last := reqs[|reqs| - 1];
      if prev.Failure? then prev
      else match ItemRepository.FindByName(items, last.name)
        case None => Failure(NotFound(ItemNotFoundMessage(last.name)))
        case Some(item) => Success(prev.value + [OrderLine(firstLineId + |reqs| - 1, item.id, last.quantity)])
  }

  /** Once a prefix of the request has failed, the whole request fails the same way. */
  lemma {:induction false} BuildLinesFailureIsFinal(reqs: seq<OrderItemCreateDto>, n: nat,
                                                    items: map<int, Item>, firstLineId: int)
    requires n <= |reqs| && BuildLines(reqs[..n], items, firstLineId).Failure?
    ensures BuildLines(reqs, items, firstLineId) == BuildLines(reqs[..n], items, firstLineId)
    decreases |reqs| - n
  {
    if n < |reqs| {
      var front := reqs[..|reqs| - 1];
      assert front[..n] == reqs[..n];
      BuildLinesFailureIsFinal(front, n, items, firstLineId);
    } else {
      assert reqs[..n] == reqs;
    }
  }

  /** All or nothing: building fails exactly when some request line names an item the catalog
      does not have, whatever the other lines are. */
  lemma {:induction false} BuildLinesFailsIffSomeItemMissing(reqs: seq<OrderItemCreateDto>,
                                                             items: map<int, Item>, firstLineId: int)
    ensures BuildLines(reqs, items, firstLineId).Failure? <==>
              exists j :: 0 <= j < |reqs| && !ItemRepository.NameTaken(items, reqs[j].name)
  {
    if reqs != [] {
      var front := reqs[..|reqs| - 1];
      BuildLinesFailsIffSomeItemMissing(front, items, firstLineId);
      if exists j :: 0 <= j < |front| && !ItemRepository.NameTaken(items, front[j].name) {
        var j :| 0 <= j < |front| && !ItemRepository.NameTaken(items, front[j].name);
        assert reqs[j] == front[j];
      }
      if exists j :: 0 <= j < |reqs| && !ItemRepository.NameTaken(items, reqs[j].name) {
        var j :| 0 <= j < |reqs| && !ItemRepository.NameTaken(items, reqs[j].name);
        if j < |front| { assert front[j] == reqs[j]; }
      }
    }
  }

  /** The error names the first request line, in request order, whose item is missing. */
  lemma BuildLinesReportsFirstMissing(reqs: seq<OrderItemCreateDto>, items: map<int, Item>,
                                      firstLineId: int, j: nat)
    requires j < |reqs| && !ItemRepository.NameTaken(items, reqs[j].name)
    requires forall i :: 0 <= i < j ==> ItemRepository.NameTaken(items, reqs[i].name)
    ensures BuildLines(reqs, items, firstLineId) == Failure(NotFound(ItemNotFoundMessage(reqs[j].name)))
  {
    var upto := reqs[..j + 1];
    assert upto[..j] == reqs[..j];
    BuildLinesFailsIffSomeItemMissing(reqs[..j], items, firstLineId);
    BuildLinesFailureIsFinal(reqs, j + 1, items, firstLineId);
  }

  /** One more request line whose item exists extends the lines built so far by one line. */
  lemma BuildLinesStep(reqs: seq<OrderItemCreateDto>, n: nat, items: map<int, Item>, firstLineId: int,
                       lines: seq<OrderLine>, item: Item)
    requires n < |reqs| && BuildLines(reqs[..n], items, firstLineId) == Success(lines)
    requires ItemRepository.FindByName(items, reqs[n].name) == Some(item)
    ensures BuildLines(reqs[..n + 1], items, firstLineId)
              == Success(lines + [OrderLine(firstLineId + n, item.id, reqs[n].quantity)])
  {
    var upto := reqs[..n + 1];
    assert upto[..|upto| - 1] == reqs[..n];
    assert upto[|upto| - 1] == reqs[n];
    assert BuildLines(upto, items, firstLineId)
             == Success(lines + [OrderLine(firstLineId + |upto| - 1, item.id, reqs[n].quantity)]);
  }

  /** One more request line whose item is missing makes the lines built so far fail. */
  lemma BuildLinesStepFails(reqs: seq<OrderItemCreateDto>, n: nat, items: map<int, Item>,
                            firstLineId: int, lines: seq<OrderLine>)
    requires n < |reqs| && BuildLines(reqs[..n], items, firstLineId) == Success(lines)
    requires ItemRepository.FindByName(items, reqs[n].name).None?
    ensures BuildLines(reqs[..n + 1], items, firstLineId) == Failure(NotFound(ItemNotFoundMessage(reqs[n].name)))
  {
    assert reqs[..n + 1][..n] == reqs[..n];
  }

  /** A line that references the catalog item named by its request line, keeps its quantity
      and carries the given line id. */
  predicate LineFollows(line: OrderLine, req: OrderItemCreateDto, items: map<int, Item>, id: int) {
    && line.id == id
    && line.itemId in items
    && items[line.itemId].name == req.name
    && line.quantity == req.quantity
  }

  /** On success there is one line per request line, in request order: each references the
      catalog item with the requested name, keeps the requested quantity, and takes the next
      line id. */
  lemma {:induction false} BuildLinesFollowRequest(reqs: seq<OrderItemCreateDto>,
                                                   items: map<int, Item>, firstLineId: int)
    requires ItemRepository.WellKeyed(items)
    requires BuildLines(reqs, items, firstLineId).Success?
    ensures var lines := BuildLines(reqs, items, firstLineId).value;
            && |lines| == |reqs|
            && forall i :: 0 <= i < |lines| ==> LineFollows(lines[i], reqs[i], items, firstLineId + i)
  {
    if reqs != [] {
      var front := reqs[..|reqs| - 1];
      var before := BuildLines(front, items, firstLineId).value;
      BuildLinesFollowRequest(front, items, firstLineId);
      var last := reqs[|reqs| - 1];
      var item := ItemRepository.FindByName(items, last.name).value;
      var k :| k in items && items[k] == item;
      assert item.id == k;
      var lines := BuildLines(reqs, items, firstLineId).value;
      assert lines == before + [OrderLine(firstLineId + |reqs| - 1, item.id, last.quantity)];
      forall i | 0 <= i < |lines| ensures LineFollows(lines[i], reqs[i], items, firstLineId + i) {
        if i < |before| {
          assert lines[i] == before[i] && reqs[i] == front[i];
        }
      }
    }
  }

  // ---------------------------------------------------------------------------------------
  // Listing

  /** A filter list that is neither null nor empty. */
  predicate HasEntries<T>(xs: Option<seq<T>>) {
    xs.Some? && |xs.value| > 0
  }

  /** The meaning of the two filters, as one condition: a null or empty list does not filter,
      a non-empty one must list the order's id (resp. status). */
  predicate Selected(o: Order, ids: Option<seq<int>>, statuses: Option<seq<OrderStatus>>) {
    && (HasEntries(ids) ==> o.id in ids.value)
    && (HasEntries(statuses) ==> o.status in statuses.value)
  }

  /** The repository query `getOrders` picks for the shape of the filters, and its rows. */
  function ListedOrders(orders: map<int, Order>, ids: Option<seq<int>>,
                        statuses: Option<seq<OrderStatus>>): (r: seq<Order>)
    ensures forall i :: 0 <= i < |r| ==> r[i] in orders.Values && Selected(r[i], ids, statuses)
    ensures forall k :: k in orders && Selected(orders[k], ids, statuses) ==> orders[k] in r
    ensures OrderRepository.WellKeyed(orders) ==> OrderRepository.IdsAscending(r)
  {
    var hasIds := HasEntries(ids);
    var hasStatuses := HasEntries(statuses);
    if !hasIds && !hasStatuses then
      NoFilterSelectsAll(orders, ids, statuses);
      OrderRepository.FindAllWithDetails(orders)
    else if hasIds && hasStatuses then
      BothFiltersSelectConjunction(orders, ids, statuses);
      OrderRepository.FindByIdInAndStatusIn(orders, ids.value, statuses.value)
    else if hasIds then
      IdFilterSelectsIds(orders, ids, statuses);
      OrderRepository.FindByIdIn(orders, ids.value)
    else
      StatusFilterSelectsStatuses(orders, ids, statuses);
      OrderRepository.FindByStatusIn(orders, statuses.value)
  }

  /** With neither filter, every order is selected and all of them are listed. */
  lemma NoFilterSelectsAll(orders: map<int, Order>, ids: Option<seq<int>>,
                           statuses: Option<seq<OrderStatus>>)
    requires !HasEntries(ids) && !HasEntries(statuses)
    ensures var r := OrderRepository.FindAllWithDetails(orders);
            && (forall i :: 0 <= i < |r| ==> Selected(r[i], ids, statuses))
            && (forall k :: k in orders ==> Selected(orders[k], ids, statuses))
  {
  }

  /** With both filters, the conjunction query lists exactly the selected orders. */
  lemma BothFiltersSelectConjunction(orders: map<int, Order>, ids: Option<seq<int>>,
                                     statuses: Option<seq<OrderStatus>>)
    requires HasEntries(ids) && HasEntries(statuses)
    ensures var r := OrderRepository.FindByIdInAndStatusIn(orders, ids.value, statuses.value);
            && (forall i :: 0 <= i < |r| ==> Selected(r[i], ids, statuses))
            && (forall k :: k in orders && Selected(orders[k], ids, statuses) ==>
                  orders[k].id in ids.value && orders[k].status in statuses.value)
  {
  }

  /** With the id filter alone, the id query lists exactly the selected orders. */
  lemma IdFilterSelectsIds(orders: map<int, Order>, ids: Option<seq<int>>,
                           statuses: Option<seq<OrderStatus>>)
    requires HasEntries(ids) && !HasEntries(statuses)
    ensures var r := OrderRepository.FindByIdIn(orders, ids.value);
            && (forall i :: 0 <= i < |r| ==> Selected(r[i], ids, statuses))
            && (forall k :: k in orders && Selected(orders[k], ids, statuses) ==> orders[k].id in ids.value)
  {
  }

  /** With the status filter alone, the status query lists exactly the selected orders. */
  lemma StatusFilterSelectsStatuses(orders: map<int, Order>, ids: Option<seq<int>>,
                                    statuses: Option<seq<OrderStatus>>)
    requires !HasEntries(ids) && HasEntries(statuses)
    ensures var r := OrderRepository.FindByStatusIn(orders, statuses.value);
            && (forall i :: 0 <= i < |r| ==> Selected(r[i], ids, statuses))
            && (forall k :: k in orders && Selected(orders[k], ids, statuses) ==> orders[k].status in statuses.value)
  {
  }

  /** A null filter list and an empty one select the same orders. */
  lemma NullAndEmptyFiltersAgree(orders: map<int, Order>, ids: Option<seq<int>>,
                                 statuses: Option<seq<OrderStatus>>)
    ensures ListedOrders(orders, None, statuses) == ListedOrders(orders, Some([]), statuses)
    ensures ListedOrders(orders, ids, None) == ListedOrders(orders, ids, Some([]))
  {
  }

  /** The view of an order handed out by the service: the mapped order with its owner's
      identity, resolved by the owner's id in the operation's lookup number `call`, filled in. */
  function WithOwner(auth: Authentication, order: Order, items: map<int, Item>,
                     users: UserServiceClient.UserService, call: nat): (d: OrderDto)
    ensures d.id == order.id && d.userId == order.userId && d.status == order.status
    ensures d.user == Some(UserServiceClient.GetUserById(auth, order.userId, users, call))
  {
    OrderMapper.ToDto(order, items).(user := Some(UserServiceClient.GetUserById(auth, order.userId, users, call)))
  }

  function WithOwners(auth: Authentication, rows: seq<Order>, items: map<int, Item>,
                      users: UserServiceClient.UserService): (r: seq<OrderDto>)
    ensures |r| == |rows| && forall i :: 0 <= i < |r| ==> r[i] == WithOwner(auth, rows[i], items, users, i)
  {
    seq(|rows|, i requires 0 <= i < |rows| => WithOwner(auth, rows[i], items, users, i))
  }

  /** Annotating rows that are selected stored orders yields views of selected stored orders. */
  lemma AnnotatedRowsAreSelected(auth: Authentication, orders: map<int, Order>, rows: seq<Order>,
                                 ids: Option<seq<int>>, statuses: Option<seq<OrderStatus>>,
                                 items: map<int, Item>, users: UserServiceClient.UserService)
    requires OrderRepository.WellKeyed(orders)
    requires forall i :: 0 <= i < |rows| ==> rows[i] in orders.Values && Selected(rows[i], ids, statuses)
    ensures var r := WithOwners(auth, rows, items, users);
            forall i :: 0 <= i < |r| ==>
              r[i].id in orders && Selected(orders[r[i].id], ids, statuses)
              && r[i] == WithOwner(auth, orders[r[i].id], items, users, i)
  {
    var r := WithOwners(auth, rows, items, users);
    forall i | 0 <= i < |r|
      ensures r[i].id in orders && Selected(orders[r[i].id], ids, statuses)
              && r[i] == WithOwner(auth, orders[r[i].id], items, users, i)
    {
      OrderRepository.StoredUnderOwnId(orders, rows[i]);
    }
  }

  /** Annotating rows that include every selected order yields a view of each of them. */
  lemma SelectedOrdersAreAnnotated(auth: Authentication, orders: map<int, Order>, rows: seq<Order>,
                                   ids: Option<seq<int>>, statuses: Option<seq<OrderStatus>>,
                                   items: map<int, Item>, users: UserServiceClient.UserService)
    requires forall k :: k in orders && Selected(orders[k], ids, statuses) ==> orders[k] in rows
    ensures var r := WithOwners(auth, rows, items, users);
            forall k :: k in orders && Selected(orders[k], ids, statuses) ==>
              exists i :: 0 <= i < |r| && r[i] == WithOwner(auth, orders[k], items, users, i)
  {
    var r := WithOwners(auth, rows, items, users);
    forall k | k in orders && Selected(orders[k], ids, statuses)
      ensures exists i :: 0 <= i < |r| && r[i] == WithOwner(auth, orders[k], items, users, i)
    {
      assert orders[k] in rows;
      var i :| 0 <= i < |rows| && rows[i] == orders[k];
      assert r[i] == WithOwner(auth, orders[k], items, users, i);
    }
  }

  /** Annotation keeps the ids of the rows, so rows in id order stay in id order. */
  lemma AnnotatedRowsAscend(auth: Authentication, rows: seq<Order>, items: map<int, Item>,
                            users: UserServiceClient.UserService)
    requires OrderRepository.IdsAscending(rows)
    ensures var r := WithOwners(auth, rows, items, users);
            forall i, j :: 0 <= i < j < |r| ==> r[i].id < r[j].id
  {
    var r := WithOwners(auth, rows, items, users);
    forall i, j | 0 <= i < j < |r| ensures r[i].id < r[j].id {
      assert r[i].id == rows[i].id && r[j].id == rows[j].id;
    }
  }

  /** What `getOrders` returns: the selected orders, each once, in id order, each with its owner. */
  lemma ListingShowsSelectedOrders(auth: Authentication, orders: map<int, Order>,
                                   ids: Option<seq<int>>, statuses: Option<seq<OrderStatus>>,
                                   items: map<int, Item>, users: UserServiceClient.UserService)
    requires OrderRepository.WellKeyed(orders)
    ensures var r := WithOwners(auth, ListedOrders(orders, ids, statuses), items, users);
            && (forall i :: 0 <= i < |r| ==>
                  r[i].id in orders && Selected(orders[r[i].id], ids, statuses)
                  && r[i] == WithOwner(auth, orders[r[i].id], items, users, i))
            && (forall k :: k in orders && Selected(orders[k], ids, statuses) ==>
                  exists i :: 0 <= i < |r| && r[i] == WithOwner(auth, orders[k], items, users, i))
            && (forall i, j :: 0 <= i < j < |r| ==> r[i].id < r[j].id)
  {
    var rows := ListedOrders(orders, ids, statuses);
    AnnotatedRowsAreSelected(auth, orders, rows, ids, statuses, items, users);
    SelectedOrdersAreAnnotated(auth, orders, rows, ids, statuses, items, users);
    AnnotatedRowsAscend(auth, rows, items, users);
  }

  /** A failed e-mail lookup yields an identity with no account (id -1) whose e-mail is the one
      asked for, so a caller ordering under its own e-mail passes the access check with it. */
  lemma FallbackOwnerAdmitsRequester(auth: Authentication, users: UserServiceClient.UserService)
    requires users.searchByEmail(auth.credentials, auth.name).Unavailable?
    ensures var user := UserServiceClient.GetUserByEmail(auth, auth.name, users);
            user.id == -1 && AccessChecker.CanAccessUser(auth, user)
  {
  }

  /** The loop of `createOrder`: looks the request lines' items up one by one, in order, and
      collects a line for each, stopping at the first name the catalog lacks. */
  method CollectLines(reqs: seq<OrderItemCreateDto>, items: map<int, Item>, firstLineId: int)
    returns (r: Result<seq<OrderLine>>)
    ensures r == BuildLines(reqs, items, firstLineId)
  {
    var lines: seq<OrderLine> := [];
    var i := 0;
    while i < |reqs|
      invariant 0 <= i <= |reqs|
      invariant BuildLines(reqs[..i], items, firstLineId) == Success(lines)
    {
      var itemDto := reqs[i];
      var found := ItemRepository.FindByName(items, itemDto.name);
      if found.None? {
        BuildLinesStepFails(reqs, i, items, firstLineId, lines);
        BuildLinesFailureIsFinal(reqs, i + 1, items, firstLineId);
        return Failure(NotFound(ItemNotFoundMessage(itemDto.name)));
      }
      BuildLinesStep(reqs, i, items, firstLineId, lines, found.value);
      lines := lines + [OrderLine(firstLineId + i, found.value.id, itemDto.quantity)];
      i := i + 1;
    }
    assert reqs[..i] == reqs;
    r := Success(lines);
  }

  // ---------------------------------------------------------------------------------------
  // The service

  class OrderServiceImpl {
    /** The `orders` table, each order with its lines. */
    var orders: map<int, Order>
    /** The next values of the order and order-line id sequences. */
    var nextId: int
    var nextLineId: int
    /** The catalog, which orders only read. */
    const catalog: ItemService.ItemServiceImpl

    ghost predicate Valid()
      reads this
    {
      OrderRepository.WellKeyed(orders) && forall k :: k in orders ==> k < nextId
    }

    constructor (catalog: ItemService.ItemServiceImpl)
      ensures Valid() && orders == map[] && nextId == 1 && nextLineId == 1
      ensures this.catalog == catalog
    {
      orders := map[];
      nextId := 1;
      nextLineId := 1;
      this.catalog := catalog;
    }

    /** `createOrder`: resolves the identity, checks access, builds the lines, saves one new
        pending order, and returns it with the resolved identity. Each failure leaves the store
        as it was. */
    method CreateOrder(auth: Authentication, dto: OrderCreateDto, users: UserServiceClient.UserService,
                       now: Timestamp) returns (r: Result<OrderDto>)
      requires Valid()
      modifies this
      ensures Valid()
      ensures var user := UserServiceClient.GetUserByEmail(auth, dto.email, users);
              !AccessChecker.CanAccessUser(auth, user) ==>
                && r == Failure(AccessDenied(AccessDeniedMessage))
                && orders == old(orders) && nextId == old(nextId) && nextLineId == old(nextLineId)
      ensures var user := UserServiceClient.GetUserByEmail(auth, dto.email, users);
              var built := BuildLines(dto.items, catalog.items, old(nextLineId));
              AccessChecker.CanAccessUser(auth, user) && built.Failure? ==>
                && r == Failure(built.error)
                && orders == old(orders) && nextId == old(nextId) && nextLineId == old(nextLineId)
      ensures var user := UserServiceClient.GetUserByEmail(auth, dto.email, users);
              var built := BuildLines(dto.items, catalog.items, old(nextLineId));
              AccessChecker.CanAccessUser(auth, user) && built.Success? ==>
                var order := Order(old(nextId), user.id, Pending, now, built.value);
                && old(nextId) !in old(orders)
                && orders == old(orders)[old(nextId) := order]
                && nextId == old(nextId) + 1 && nextLineId == old(nextLineId) + |dto.items|
                && r == Success(OrderMapper.ToDto(order, catalog.items).(user := Some(user)))
    {
      var user := UserServiceClient.GetUserByEmail(auth, dto.email, users);
      if !AccessChecker.CanAccessUser(auth, user) {
        return Failure(AccessDenied(AccessDeniedMessage));
      }
      var built := CollectLines(dto.items, catalog.items, nextLineId);
      if built.Failure? {
        return Failure(built.error);
      }
      var lines := built.value;
      var order := Order(nextId, user.id, Pending, now, lines);
      orders := orders[nextId := order];
      nextId := nextId + 1;
      nextLineId := nextLineId + |lines|;
      var response := OrderMapper.ToDto(order, catalog.items);
      r := Success(response.(user := Some(user)));
    }

    /** `getOrders` (without paging): the orders the filters select, each once, in id order,
        each with its owner's identity. */
    function GetOrders(auth: Authentication, ids: Option<seq<int>>, statuses: Option<seq<OrderStatus>>,
                       users: UserServiceClient.UserService): (r: seq<OrderDto>)
      reads this, catalog
      requires Valid()
      ensures forall i :: 0 <= i < |r| ==>
                && r[i].id in orders && Selected(orders[r[i].id], ids, statuses)
                && r[i] == WithOwner(auth, orders[r[i].id], catalog.items, users, i)
      ensures forall k :: k in orders && Selected(orders[k], ids, statuses) ==>
                exists i :: 0 <= i < |r| && r[i] == WithOwner(auth, orders[k], catalog.items, users, i)
      ensures forall i, j :: 0 <= i < j < |r| ==> r[i].id < r[j].id
    {
      ListingShowsSelectedOrders(auth, orders, ids, statuses, catalog.items, users);
      WithOwners(auth, ListedOrders(orders, ids, statuses), catalog.items, users)
    }

    /** `getOrderById`: not found, or the order with its owner resolved by the order's user id if
        the caller may act for that owner, else access denied. */
    function GetOrderById(auth: Authentication, id: int, users: UserServiceClient.UserService)
      : (r: Result<OrderDto>)
      reads this, catalog
      requires Valid()
      ensures id !in orders ==> r == Failure(NotFound(OrderNotFoundMessage(id)))
      ensures id in orders ==>
                var owner := UserServiceClient.GetUserById(auth, orders[id].userId, users, 0);
                && (AccessChecker.CanAccessUser(auth, owner) ==>
                      r == Success(WithOwner(auth, orders[id], catalog.items, users, 0)))
                && (!AccessChecker.CanAccessUser(auth, owner) ==>
                      r == Failure(AccessDenied(AccessDeniedMessage)))
      ensures r.Success? ==> r.value.id == id && r.value.user.Some?
                             && AccessChecker.CanAccessUser(auth, r.value.user.value)
    {
      match OrderRepository.FindByIdWithDetails(orders, id)
      case None => Failure(NotFound(OrderNotFoundMessage(id)))
      case Some(order) =>
        var dto := WithOwner(auth, order, catalog.items, users, 0);
        if !AccessChecker.CanAccessUser(auth, dto.user.value) then Failure(AccessDenied(AccessDeniedMessage))
        else Success(dto)
    }

    /** `updateOrder`: not found, or the order with only its status replaced (when one is
        given), saved and returned with its owner. */
    method UpdateOrder(auth: Authentication, id: int, dto: OrderUpdateDto,
                       users: UserServiceClient.UserService) returns (r: Result<OrderDto>)
      requires Valid()
      modifies this
      ensures Valid() && nextId == old(nextId) && nextLineId == old(nextLineId)
      ensures id !in old(orders) ==>
                r == Failure(NotFound(OrderNotFoundMessage(id))) && orders == old(orders)
      ensures id in old(orders) ==>
                var before := old(orders)[id];
                var after := if dto.status.Some? then before.(status := dto.status.value) else before;
                && orders == old(orders)[id := after]
                && r == Success(WithOwner(auth, after, catalog.items, users, 0))
    {
      var found := OrderRepository.FindByIdWithDetails(orders, id);
      if found.None? {
        return Failure(NotFound(OrderNotFoundMessage(id)));
      }
      var order := OrderMapper.UpdateEntityFromDto(dto, found.value);
      orders := orders[id := order];
      r := Success(WithOwner(auth, order, catalog.items, users, 0));
    }

    /** `deleteOrder`: not found, or exactly that order (with its lines) removed. */
    method DeleteOrder(id: int) returns (r: Outcome)
      requires Valid()
      modifies this
      ensures Valid() && nextId == old(nextId) && nextLineId == old(nextLineId)
      ensures id !in old(orders) ==> r == Fail(NotFound(OrderNotFoundMessage(id))) && orders == old(orders)
      ensures id in old(orders) ==> r == Pass && orders == old(orders) - {id}
    {
      if OrderRepository.FindByIdWithDetails(orders, id).None? {
        return Fail(NotFound(OrderNotFoundMessage(id)));
      }
      orders := orders - {id};
      r := Pass;
    }
  }
}
