/** The item catalog: create, list, read, patch and delete items, keeping item names unique.
    Uniqueness is enforced by looking the name up before writing (on create, and on rename only
    when the new name is given and differs from the current one). */
module ItemService {
  import opened Wrappers
  import opened Domain
  import opened Text
  import opened ItemRepository
  import ItemMapper
  import Tables

  function AlreadyExistsMessage(name: string): string {
    "item with name " + name + " already exists"
  }

  function NotFoundMessage(id: int): string {
    "item with id " + Decimal(id) + " not found"
  }

  /** The duplicate-name error names the offending name. */
  lemma AlreadyExistsMessageNamesItem(name: string)
    ensures OccursAt(name, AlreadyExistsMessage(name), |"item with name "|)
  {
    var m := AlreadyExistsMessage(name);
    assert m == "item with name " + (name + " already exists");
    assert m[15..15 + |name|] == (name + " already exists")[..|name|];
  }

  /** Which items a listing with the optional name filter shows: all of them when the filter is
      null or blank, otherwise those whose name contains it, ignoring case. */
  predicate ShownBy(filter: Option<string>, itemName: string) {
    filter.None? || IsBlank(filter.value) || ContainsIgnoreCase(itemName, filter.value)
  }

  /** An update that asks for a different name than the item has. */
  predicate Renames(dto: ItemUpdateDto, item: Item) {
    dto.name.Some? && dto.name.value != item.name
  }

  /** Adding a row whose name nobody has keeps the names unique. */
  lemma AddFreshNameKeepsNamesUnique(items: map<int, Item>, id: int, item: Item)
    requires UniqueNames(items) && !NameTaken(items, item.name) && id !in items
    ensures UniqueNames(items[id := item])
  {
  }

  /** A patch that passed the rename check keeps the names unique and every row under its id. */
  lemma PatchKeepsNamesUnique(items: map<int, Item>, id: int, dto: ItemUpdateDto)
    requires WellKeyed(items) && UniqueNames(items) && id in items
    requires Renames(dto, items[id]) ==> !NameTaken(items, dto.name.value)
    ensures WellKeyed(items[id := ItemMapper.UpdateEntityFromDto(dto, items[id])])
    ensures UniqueNames(items[id := ItemMapper.UpdateEntityFromDto(dto, items[id])])
  {
  }

  function ToDtos(rows: seq<Item>): (r: seq<ItemDto>)
    ensures |r| == |rows| && forall i :: 0 <= i < |r| ==> r[i] == ItemMapper.ToDto(rows[i])
  {
    seq(|rows|, i requires 0 <= i < |rows| => ItemMapper.ToDto(rows[i]))
  }

  /** The rows `getItems` selects, by the branch on the filter. */
  function ListedRows(items: map<int, Item>, name: Option<string>): (rows: seq<Item>)
    ensures forall i :: 0 <= i < |rows| ==> rows[i] in items.Values && ShownBy(name, rows[i].name)
    ensures forall k :: k in items && ShownBy(name, items[k].name) ==> items[k] in rows
    ensures WellKeyed(items) ==> forall i, j :: 0 <= i < j < |rows| ==> rows[i].id < rows[j].id
  {
    if name.Some? && !IsBlank(name.value) then FindByNameContainingIgnoreCase(items, name.value)
    else FindAll(items)
  }

  lemma ShownRowsAreStored(items: map<int, Item>, name: Option<string>, rows: seq<Item>)
    requires WellKeyed(items)
    requires forall i :: 0 <= i < |rows| ==> rows[i] in items.Values && ShownBy(name, rows[i].name)
    ensures var r := ToDtos(rows);
            forall i :: 0 <= i < |r| ==>
              r[i].id in items && r[i] == ItemMapper.ToDto(items[r[i].id]) && ShownBy(name, r[i].name)
  {
    var r := ToDtos(rows);
    forall i | 0 <= i < |r|
      ensures r[i].id in items && r[i] == ItemMapper.ToDto(items[r[i].id]) && ShownBy(name, r[i].name)
    {
      Tables.ValueHasKey(items, rows[i]);
      var k :| k in items && items[k] == rows[i];
    }
  }

  lemma ShownItemsAreListed(items: map<int, Item>, name: Option<string>, rows: seq<Item>)
    requires forall k :: k in items && ShownBy(name, items[k].name) ==> items[k] in rows
    ensures var r := ToDtos(rows);
            forall k :: k in items && ShownBy(name, items[k].name) ==> ItemMapper.ToDto(items[k]) in r
  {
    var r := ToDtos(rows);
    forall k | k in items && ShownBy(name, items[k].name) ensures ItemMapper.ToDto(items[k]) in r {
      assert items[k] in rows;
      var i :| 0 <= i < |rows| && rows[i] == items[k];
      assert r[i] == ItemMapper.ToDto(items[k]);
    }
  }

  /** What `getItems` returns: the view of every item the filter shows, and of no other item. */
  lemma ListingShowsFilteredItems(items: map<int, Item>, name: Option<string>)
    requires WellKeyed(items)
    ensures var r := ToDtos(ListedRows(items, name));
            && (forall i :: 0 <= i < |r| ==>
                  r[i].id in items && r[i] == ItemMapper.ToDto(items[r[i].id]) && ShownBy(name, r[i].name))
            && (forall k :: k in items && ShownBy(name, items[k].name) ==> ItemMapper.ToDto(items[k]) in r)
  {
    var rows := ListedRows(items, name);
    ShownRowsAreStored(items, name, rows);
    ShownItemsAreListed(items, name, rows);
  }

  class ItemServiceImpl {
    /** The `items` table. */
    var items: map<int, Item>
    /** The next value of the id sequence. */
    var nextId: int

    ghost predicate Valid()
      reads this
    {
      WellKeyed(items) && UniqueNames(items) && forall k :: k in items ==> k < nextId
    }

    constructor ()
      ensures Valid() && items == map[] && nextId == 1
    {
      items := map[];
      nextId := 1;
    }

    /** `createItem`: refuses a name already in the catalog, else saves one new item. */
    method CreateItem(dto: ItemCreateDto) returns (r: Result<ItemDto>)
      requires Valid()
      modifies this
      ensures Valid()
      ensures NameTaken(old(items), dto.name) ==>
                r == Failure(AlreadyExists(AlreadyExistsMessage(dto.name)))
                && items == old(items) && nextId == old(nextId)
      ensures !NameTaken(old(items), dto.name) ==>
                old(nextId) !in old(items)
                && items == old(items)[old(nextId) := Item(old(nextId), dto.name, dto.price)]
                && nextId == old(nextId) + 1
                && r == Success(ItemDto(old(nextId), dto.name, dto.price))
    {
      if FindByName(items, dto.name).Some? {
        return Failure(AlreadyExists(AlreadyExistsMessage(dto.name)));
      }
      var item := ItemMapper.ToEntity(dto);
      var saved := SaveNew(item, nextId);
      AddFreshNameKeepsNamesUnique(items, nextId, saved);
      items := items[nextId := saved];
      nextId := nextId + 1;
      r := Success(ItemMapper.ToDto(saved));
    }

    /** `getItems` (without paging): the items the filter shows, each once, in id order. */
    function GetItems(name: Option<string>): (r: seq<ItemDto>)
      reads this
      requires Valid()
      ensures forall i :: 0 <= i < |r| ==>
                r[i].id in items && r[i] == ItemMapper.ToDto(items[r[i].id]) && ShownBy(name, r[i].name)
      ensures forall k :: k in items && ShownBy(name, items[k].name) ==> ItemMapper.ToDto(items[k]) in r
      ensures forall i, j :: 0 <= i < j < |r| ==> r[i].id < r[j].id
    {
      ListingShowsFilteredItems(items, name);
      ToDtos(ListedRows(items, name))
    }

    /** `getItemById`. */
    function GetItemById(id: int): (r: Result<ItemDto>)
      reads this
      requires Valid()
      ensures r.Success? <==> id in items
      ensures r.Success? ==> r.value.id == id && r.value == ItemMapper.ToDto(items[id])
      ensures r.Failure? ==> r.error == NotFound(NotFoundMessage(id))
    {
      match FindById(items, id)
      case None => Failure(NotFound(NotFoundMessage(id)))
      case Some(item) => Success(ItemMapper.ToDto(item))
    }

    /** `updateItem`: a missing id is not found; a rename to a name another item holds is refused;
        otherwise the null-ignoring patch is saved over that item. */
    method UpdateItem(id: int, dto: ItemUpdateDto) returns (r: Result<ItemDto>)
      requires Valid()
      modifies this
      ensures Valid() && nextId == old(nextId)
      ensures id !in old(items) ==>
                r == Failure(NotFound(NotFoundMessage(id))) && items == old(items)
      ensures id in old(items) && Renames(dto, old(items)[id]) && NameTaken(old(items), dto.name.value) ==>
                r == Failure(AlreadyExists(AlreadyExistsMessage(dto.name.value))) && items == old(items)
      ensures id in old(items) && !(Renames(dto, old(items)[id]) && NameTaken(old(items), dto.name.value)) ==>
                var e := ItemMapper.UpdateEntityFromDto(dto, old(items)[id]);
                items == old(items)[id := e] && r == Success(ItemMapper.ToDto(e))
    {
      var found := FindById(items, id);
      if found.None? {
        return Failure(NotFound(NotFoundMessage(id)));
      }
      var item := found.value;
      if dto.name.Some? && dto.name.value != item.name {
        if FindByName(items, dto.name.value).Some? {
          return Failure(AlreadyExists(AlreadyExistsMessage(dto.name.value)));
        }
      }
      var patched := ItemMapper.UpdateEntityFromDto(dto, item);
      PatchKeepsNamesUnique(items, id, dto);
      items := items[id := patched];
      r := Success(ItemMapper.ToDto(patched));
    }

    /** `deleteItem`: a missing id is not found; otherwise exactly that item goes. */
    method DeleteItem(id: int) returns (r: Outcome)
      requires Valid()
      modifies this
      ensures Valid() && nextId == old(nextId)
      ensures id !in old(items) ==> r == Fail(NotFound(NotFoundMessage(id))) && items == old(items)
      ensures id in old(items) ==> r == Pass && items == old(items) - {id}
    {
      if FindById(items, id).None? {
        return Fail(NotFound(NotFoundMessage(id)));
      }
      items := items - {id};
      r := Pass;
    }
  }
}
