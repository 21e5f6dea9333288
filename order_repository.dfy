/** The `orders` table as a map from id to the order aggregate (header with its lines, as the
    `LEFT JOIN FETCH` queries load it), and the repository's queries over it. The list queries
    are `SELECT DISTINCT`: an order comes back once however many lines it has. */
module OrderRepository {
  import opened Wrappers
  import opened Domain
  import Tables

  /** Every order is stored under its own id. */
  predicate WellKeyed(orders: map<int, Order>) {
    forall k :: k in orders ==> orders[k].id == k
  }

  /** In a well-keyed table, a stored order is found under its own id. */
  lemma StoredUnderOwnId(orders: map<int, Order>, o: Order)
    requires WellKeyed(orders) && o in orders.Values
    ensures o.id in orders && orders[o.id] == o
  {
    Tables.ValueHasKey(orders, o);
    var k :| k in orders && orders[k] == o;
  }

  /** Rows in strictly ascending id order, hence each order at most once. */
  predicate IdsAscending(rows: seq<Order>) {
    forall i, j :: 0 <= i < j < |rows| ==> rows[i].id < rows[j].id
  }

  lemma {:induction false} AscendingRowsAreDistinct(rows: seq<Order>)
    requires IdsAscending(rows)
    ensures forall i, j :: 0 <= i < |rows| && 0 <= j < |rows| && i != j ==> rows[i] != rows[j]
  {
    forall i, j | 0 <= i < |rows| && 0 <= j < |rows| && i != j ensures rows[i] != rows[j] {
      if i < j { assert rows[i].id < rows[j].id; } else { assert rows[j].id < rows[i].id; }
    }
  }

  /** Ascending ids are at least one apart: the last id exceeds the first by |rows| - 1 or more. */
  lemma {:induction false} AscendingIdsSpread(rows: seq<Order>)
    requires IdsAscending(rows) && rows != []
    ensures rows[|rows| - 1].id - rows[0].id >= |rows| - 1
  {
    if |rows| > 1 {
      var front := rows[..|rows| - 1];
      assert IdsAscending(front);
      AscendingIdsSpread(front);
      assert rows[|rows| - 2].id < rows[|rows| - 1].id;
    }
  }

  /** A scan of a well-keyed table returns its rows in ascending id order. */
  lemma ScanIdsAscending(orders: map<int, Order>, keep: Order -> bool)
    ensures WellKeyed(orders) ==> IdsAscending(Tables.Select(orders, keep))
  {
    Tables.SelectAscendsByKey(orders, keep, (o: Order) => o.id);
  }

  lemma ConjunctionRowsAreSeven(orders: map<int, Order>, ids: seq<int>, statuses: seq<OrderStatus>, r: seq<Order>, o7: Order)
    requires orders.Keys == {5, 6, 7} && orders[7] == o7
    requires orders[5].status == Pending && orders[6].id == 6
    requires ids == [5, 7] && statuses == [Shipped]
    requires forall i :: 0 <= i < |r| ==> r[i] in orders.Values && r[i].id in ids && r[i].status in statuses
    ensures forall i :: 0 <= i < |r| ==> r[i] == o7
  {
    forall i | 0 <= i < |r| ensures r[i] == o7 {
      var k :| k in orders && orders[k] == r[i];
      assert k in {5, 6, 7};
    }
  }

  /** `findByIdWithDetails`: the order with that id, with its lines, or none. */
  function FindByIdWithDetails(orders: map<int, Order>, id: int): (r: Option<Order>)
    ensures r.Some? <==> id in orders
    ensures r.Some? ==> r.value == orders[id]
    ensures WellKeyed(orders) && r.Some? ==> r.value.id == id
  {
    if id in orders then Some(orders[id]) else None
  }

  /** `findAllWithDetails`: every stored order, once. */
  function FindAllWithDetails(orders: map<int, Order>): (r: seq<Order>)
    ensures forall i :: 0 <= i < |r| ==> r[i] in orders.Values
    ensures forall k :: k in orders ==> orders[k] in r
    ensures WellKeyed(orders) ==> IdsAscending(r)
  {
    var keep := (o: Order) => true;
    ScanIdsAscending(orders, keep);
    Tables.Select(orders, keep)
  }

  /** `findByIdIn`: exactly the stored orders whose id is listed, once each. */
  function FindByIdIn(orders: map<int, Order>, ids: seq<int>): (r: seq<Order>)
    ensures forall i :: 0 <= i < |r| ==> r[i] in orders.Values && r[i].id in ids
    ensures forall k :: k in orders && orders[k].id in ids ==> orders[k] in r
    ensures WellKeyed(orders) ==> IdsAscending(r)
  {
    var keep := (o: Order) => o.id in ids;
    ScanIdsAscending(orders, keep);
    Tables.Select(orders, keep)
  }

  /** `findByStatusIn`: exactly the stored orders whose status is listed, once each. */
  function FindByStatusIn(orders: map<int, Order>, statuses: seq<OrderStatus>): (r: seq<Order>)
    ensures forall i :: 0 <= i < |r| ==> r[i] in orders.Values && r[i].status in statuses
    ensures forall k :: k in orders && orders[k].status in statuses ==> orders[k] in r
    ensures WellKeyed(orders) ==> IdsAscending(r)
  {
    var keep := (o: Order) => o.status in statuses;
    ScanIdsAscending(orders, keep);
    Tables.Select(orders, keep)
  }

  /** `findByIdInAndStatusIn`: the stored orders both listed by id and in a listed status. */
  function FindByIdInAndStatusIn(orders: map<int, Order>, ids: seq<int>,
                                 statuses: seq<OrderStatus>): (r: seq<Order>)
    ensures forall i :: 0 <= i < |r| ==>
              r[i] in orders.Values && r[i].id in ids && r[i].status in statuses
    ensures forall k :: k in orders && orders[k].id in ids && orders[k].status in statuses ==>
              orders[k] in r
    ensures WellKeyed(orders) ==> IdsAscending(r)
  {
    var keep := (o: Order) => o.id in ids && o.status in statuses;
    ScanIdsAscending(orders, keep);
    Tables.Select(orders, keep)
  }

  /** Rows in id order that all equal `o`, and include it, are `o` alone. */
  lemma OnlyRow(r: seq<Order>, o: Order)
    requires IdsAscending(r) && o in r
    requires forall i :: 0 <= i < |r| ==> r[i] == o
    ensures r == [o]
  {
    AscendingIdsSpread(r);
    assert r[|r| - 1] == o && r[0] == o;
  }

  /** Orders 5 (pending), 6 and 7 (shipped): asking for ids {5, 7} in status shipped gives 7 alone. */
  lemma {:induction false} ConjunctionExample(orders: map<int, Order>, o5: Order, o6: Order, o7: Order)
    requires o5.id == 5 && o5.status == Pending
    requires o6.id == 6 && o6.status == Shipped
    requires o7.id == 7 && o7.status == Shipped
    requires orders.Keys == {5, 6, 7} && orders[5] == o5 && orders[6] == o6 && orders[7] == o7
    ensures FindByIdInAndStatusIn(orders, [5, 7], [Shipped]) == [o7]
  {
    var ids, statuses := [5, 7], [Shipped];
    assert WellKeyed(orders) by {
      forall k | k in orders ensures orders[k].id == k {
        assert k in {5, 6, 7};
      }
    }
    var r := FindByIdInAndStatusIn(orders, ids, statuses);
    assert 7 in orders && o7.id in ids && o7.status in statuses;
    assert o7 in r;
    ConjunctionRowsAreSeven(orders, ids, statuses, r, o7);
    OnlyRow(r, o7);
  }
}
