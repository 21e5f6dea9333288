/** The `items` table as a map from id to row, and the derived queries the catalog runs on it. */
module ItemRepository {
  import opened Wrappers
  import opened Domain
  import Text
  import Tables

  /** Every row is stored under its own id. */
  predicate WellKeyed(items: map<int, Item>) {
    forall k :: k in items ==> items[k].id == k
  }

  /** No two rows share a name. */
  ghost predicate UniqueNames(items: map<int, Item>) {
    forall k1, k2 :: k1 in items && k2 in items && items[k1].name == items[k2].name ==> k1 == k2
  }

  /** Some row carries `name`. */
  predicate NameTaken(items: map<int, Item>, name: string) {
    exists k :: k in items && items[k].name == name
  }

  /** `findById`. */
  function FindById(items: map<int, Item>, id: int): (r: Option<Item>)
    ensures r.Some? <==> id in items
    ensures r.Some? ==> r.value == items[id]
  {
    if id in items then Some(items[id]) else None
  }

  /** `findByName`: the row with that name, if there is one (the first in id order should the
      names not be unique). */
  function FindByName(items: map<int, Item>, name: string): (r: Option<Item>)
    ensures r.None? <==> !NameTaken(items, name)
    ensures r.Some? ==> r.value in items.Values && r.value.name == name
    ensures r.Some? ==> exists k :: k in items && items[k] == r.value &&
                                    forall k2 :: k2 in items && items[k2].name == name ==> k <= k2
    ensures UniqueNames(items) ==>
              forall k :: k in items && items[k].name == name ==> r == Some(items[k])
    ensures r.Some? && WellKeyed(items) ==>
              forall k :: k in items && items[k].name == name ==> r.value.id <= items[k].id
  {
    var named := set k | k in items && items[k].name == name;
    assert forall k :: k in items && items[k].name == name ==> k in named;
    if named == {} then None
    else
      var first := Tables.MinOf(named);
      assert first in items && items[first] in items.Values;
      Some(items[first])
  }

  /** `findAll`: every row once, in id order. */
  function FindAll(items: map<int, Item>): (r: seq<Item>)
    ensures forall i :: 0 <= i < |r| ==> r[i] in items.Values
    ensures forall k :: k in items ==> items[k] in r
    ensures WellKeyed(items) ==> forall i, j :: 0 <= i < j < |r| ==> r[i].id < r[j].id
  {
    var keep := (it: Item) => true;
    Tables.SelectAscendsByKey(items, keep, (it: Item) => it.id);
    Tables.Select(items, keep)
  }

  /** `findByNameContainingIgnoreCase`: the rows whose name contains `name`, ignoring case,
      once each, in id order. */
  function FindByNameContainingIgnoreCase(items: map<int, Item>, name: string): (r: seq<Item>)
    ensures forall i :: 0 <= i < |r| ==>
              r[i] in items.Values && Text.ContainsIgnoreCase(r[i].name, name)
    ensures forall k :: k in items && Text.ContainsIgnoreCase(items[k].name, name) ==> items[k] in r
    ensures WellKeyed(items) ==> forall i, j :: 0 <= i < j < |r| ==> r[i].id < r[j].id
  {
    var keep := (it: Item) => Text.ContainsIgnoreCase(it.name, name);
    Tables.SelectAscendsByKey(items, keep, (it: Item) => it.id);
    Tables.Select(items, keep)
  }

  /** `save` of a new row: it gets the next value of the id sequence. */
  function SaveNew(item: NewItem, id: int): (saved: Item)
    ensures saved.id == id && saved.name == item.name && saved.price == item.price
  {
    Item(id, item.name, item.price)
  }
}
