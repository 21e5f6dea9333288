/** The view of an order, and the patch an update request applies to it. */
module OrderMapper {
  import opened Wrappers
  import opened Domain
  import ItemRepository
  import OrderItemMapper

  /** The view of one line of an order, with its item looked up among `items` (the join). */
  function LineToDto(line: OrderLine, items: map<int, Item>): (d: OrderItemDto)
  {
    OrderItemMapper.ToDto(line, ItemRepository.FindById(items, line.itemId))
  }

  /** Copies the header fields, maps every line in order, and leaves `user` unset. */
  function ToDto(entity: Order, items: map<int, Item>): (d: OrderDto)
    ensures d.user.None?
    ensures d.id == entity.id && d.userId == entity.userId && d.status == entity.status
            && d.creationDate == entity.creationDate
    ensures |d.items| == |entity.items|
    ensures forall i :: 0 <= i < |d.items| ==> d.items[i] == LineToDto(entity.items[i], items)
  {
    OrderDto(entity.id, entity.userId, entity.status, entity.creationDate,
             seq(|entity.items|, i requires 0 <= i < |entity.items| => LineToDto(entity.items[i], items)),
             None)
  }

  /** The null-ignoring patch of an order: the update request carries nothing but a status. */
  function UpdateEntityFromDto(dto: OrderUpdateDto, entity: Order): (e: Order)
    ensures dto.status.Some? ==> e.status == dto.status.value
    ensures dto.status.None? ==> e == entity
    ensures e.id == entity.id && e.userId == entity.userId && e.creationDate == entity.creationDate
            && e.items == entity.items
  {
    match dto.status
    case Some(s) => entity.(status := s)
    case None => entity
  }

  /** A line shows the price its item has in the catalog at read time: changing the item's price
      after the order was placed changes how the order reads. */
  lemma LinePriceFollowsCatalog(entity: Order, items: map<int, Item>, i: int, p: Price)
    requires 0 <= i < |entity.items| && entity.items[i].itemId in items
    ensures var k := entity.items[i].itemId;
            ToDto(entity, items[k := items[k].(price := p)]).items[i].price == Some(p)
  {
  }
}
