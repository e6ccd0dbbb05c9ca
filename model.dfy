/** Entities and transfer objects of the sharing service. Entities are values:
    a Booking carries copies of the Item and User it refers to.
    An item's owner reference is kept as the owner's id, the only part of it
    the core ever reads. Times are instants on an integer clock. */
module Model {
  import opened Common

  datatype User = User(id: int, name: string, email: string)

  datatype Item = Item(id: int, name: string, description: string, available: bool, ownerId: int)

  datatype BookingStatus = Waiting | Approved | Rejected

  datatype Booking = Booking(id: int, start: int, end: int, item: Item, booker: User, status: BookingStatus)

  datatype Comment = Comment(id: int, text: string, itemId: int, authorName: string, created: int)

  /** A store in which every record is filed under its own id, as a
      repository keyed by primary key holds it. */
  predicate UsersKeyed(m: map<int, User>)
  {
    forall id :: id in m ==> m[id].id == id
  }

  predicate ItemsKeyed(m: map<int, Item>)
  {
    forall id :: id in m ==> m[id].id == id
  }

  predicate BookingsKeyed(m: map<int, Booking>)
  {
    forall id :: id in m ==> m[id].id == id
  }

  predicate CommentsKeyed(m: map<int, Comment>)
  {
    forall id :: id in m ==> m[id].id == id
  }

  /** The tokens a listing query accepts, named as the enum constants are. */
  datatype BookingState = All | Current | Past | Future | WaitingState | RejectedState

  /** A booking request. Start and end may be absent (a Java null). */
  datatype BookingItemDto = BookingItemDto(start: Option<int>, end: Option<int>, itemId: int)

  /** The short view of a booking attached to an item listing. */
  datatype BookingDto = BookingDto(id: int, start: int, end: int, status: BookingStatus, bookerId: int)

  datatype CommentDto = CommentDto(id: int, text: string, authorName: string, created: int)

  /** An item as listed. lastBooking, nextBooking and comments are absent (null)
      until the item service fills them. */
  datatype ItemDtoOut = ItemDtoOut(
    id: int, name: string, description: string, available: bool,
    lastBooking: Option<BookingDto>, nextBooking: Option<BookingDto>,
    comments: Option<seq<CommentDto>>, ownerId: int)

  /** An item payload for creation or partial update; a null name or description
      is "", a null availability is None. */
  datatype ItemDto = ItemDto(id: int, name: string, description: string, available: Option<bool>)

  /** A user payload; a null name or email is "". */
  datatype UserDto = UserDto(id: int, name: string, email: string)
}
