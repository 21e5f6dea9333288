/** Field copies between an item row and its transfer objects. */
module ItemMapper {
  import opened Wrappers
  import opened Domain

  function ToDto(entity: Item): (d: ItemDto)
    ensures d.id == entity.id && d.name == entity.name && d.price == entity.price
  {
    ItemDto(entity.id, entity.name, entity.price)
  }

  /** The row to save for a creation request: its name and price, and no id yet. */
  function ToEntity(dto: ItemCreateDto): (e: NewItem)
    ensures e.name == dto.name && e.price == dto.price
  {
    NewItem(dto.name, dto.price)
  }

  /** The null-ignoring patch: each present field overwrites, each absent one is kept, the id
      is never touched. */
  function UpdateEntityFromDto(dto: ItemUpdateDto, entity: Item): (e: Item)
    ensures e.id == entity.id
    ensures dto.name.Some? ==> e.name == dto.name.value
    ensures dto.name.None? ==> e.name == entity.name
    ensures dto.price.Some? ==> e.price == dto.price.value
    ensures dto.price.None? ==> e.price == entity.price
  {
    var named := if dto.name.Some? then entity.(name := dto.name.value) else entity;
    if dto.price.Some? then named.(price := dto.price.value) else named
  }

  /** Applying the same patch a second time changes nothing more. */
  lemma PatchIsIdempotent(dto: ItemUpdateDto, entity: Item)
    ensures UpdateEntityFromDto(dto, UpdateEntityFromDto(dto, entity)) == UpdateEntityFromDto(dto, entity)
  {
  }

  /** A patch with both fields null is the identity. */
  lemma EmptyPatchIsIdentity(entity: Item)
    ensures UpdateEntityFromDto(ItemUpdateDto(None, None), entity) == entity
  {
  }
}
