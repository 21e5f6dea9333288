/** The persistent entities (rows of the `items`, `orders` and order-line tables), the transfer
    objects the services accept and return, and the caller's authentication. Java's nullable
    fields are `Option`s; `BigDecimal` prices are integer cents; `LocalDateTime`/`LocalDate`
    values are opaque integers supplied from outside. */
module Domain {
  import opened Wrappers

  /** A price in cents. */
  type Price = int
  /** An instant (`LocalDateTime`), passed in by the caller of an operation. */
  type Timestamp = int
  /** A calendar date (`LocalDate`). */
  type Date = int

  datatype OrderStatus = Pending | Shipped | Delivered | Cancelled

  /** A catalog item as stored, with its generated id. */
  datatype Item = Item(id: int, name: string, price: Price)

  /** An item that has not been saved yet, so has no id. */
  datatype NewItem = NewItem(name: string, price: Price)

  /** One line of an order: a reference to an item (by its id) and a quantity. */
  datatype OrderLine = OrderLine(id: int, itemId: int, quantity: int)

  /** An order header together with the lines it owns, in order. */
  datatype Order = Order(id: int, userId: int, status: OrderStatus, creationDate: Timestamp,
                         items: seq<OrderLine>)

  /** An identity as the user service describes it. */
  datatype UserDto = UserDto(id: int, name: string, surname: string, birthDate: Option<Date>,
                             email: string)

  datatype ItemDto = ItemDto(id: int, name: string, price: Price)
  datatype ItemCreateDto = ItemCreateDto(name: string, price: Price)
  /** A partial update of an item; a missing field means "leave as is". */
  datatype ItemUpdateDto = ItemUpdateDto(name: Option<string>, price: Option<Price>)

  /** An order line as shown: the referenced item's fields are absent when the item is. */
  datatype OrderItemDto = OrderItemDto(id: int, itemId: Option<int>, name: Option<string>,
                                       price: Option<Price>, quantity: int)
  datatype OrderDto = OrderDto(id: int, userId: int, status: OrderStatus, creationDate: Timestamp,
                               items: seq<OrderItemDto>, user: Option<UserDto>)
  datatype OrderItemCreateDto = OrderItemCreateDto(name: string, quantity: int)
  datatype OrderCreateDto = OrderCreateDto(email: string, items: seq<OrderItemCreateDto>)
  /** A partial update of an order: only its status. */
  datatype OrderUpdateDto = OrderUpdateDto(status: Option<OrderStatus>)

  /** The authenticated caller: its name (the e-mail it logged in with), the authorities it was
      granted, and the bearer token it presented. */
  datatype Authentication = Authentication(name: string, authorities: seq<string>,
                                           credentials: string)
}
