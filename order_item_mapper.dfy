/** The view of one order line: its own id and quantity, and the id, name and price of the item
    it references as that item is NOW, not as it was when the order was placed. */
module OrderItemMapper {
  import opened Wrappers
  import opened Domain

  /** `item` is the line's item as the join loaded it, absent when the row is gone. */
  function ToDto(entity: OrderLine, item: Option<Item>): (d: OrderItemDto)
    ensures d.id == entity.id && d.quantity == entity.quantity
    ensures item.Some? ==> d.itemId == Some(item.value.id) && d.name == Some(item.value.name)
                           && d.price == Some(item.value.price)
    ensures item.None? ==> d.itemId.None? && d.name.None? && d.price.None?
  {
    match item
    case Some(it) => OrderItemDto(entity.id, Some(it.id), Some(it.name), Some(it.price), entity.quantity)
    case None => OrderItemDto(entity.id, None, None, None, entity.quantity)
  }
}
