/** Field copies between entities and transfer objects. */
module UserMapper {
  import opened Model

  function ToDto(u: User): (d: UserDto)
    ensures d.id == u.id && d.name == u.name && d.email == u.email
  {
    UserDto(u.id, u.name, u.email)
  }

  function ToEntity(d: UserDto): (u: User)
    ensures u.id == d.id && u.name == d.name && u.email == d.email
  {
    User(d.id, d.name, d.email)
  }

  /** Mapping a user to its transfer object and back loses nothing. */
  lemma EntityRoundTrip(u: User)
    ensures ToEntity(ToDto(u)) == u
  {
  }

  /** Mapping a transfer object to a user and back loses nothing. */
  lemma DtoRoundTrip(d: UserDto)
    ensures ToDto(ToEntity(d)) == d
  {
  }
}

module ItemMapper {
  import opened Common
  import opened Model

  /** The id and owner of an item that has not been saved yet (a Java null);
      the repositories hand out ids from 1 upwards. */
  const Unset: int := 0

  /** Copies the item's own fields; lastBooking, nextBooking and comments stay absent. */
  function ToDto(item: Item): (d: ItemDtoOut)
    ensures d.id == item.id && d.name == item.name && d.description == item.description
    ensures d.available == item.available && d.ownerId == item.ownerId
    ensures d.lastBooking == None && d.nextBooking == None && d.comments == None
  {
    ItemDtoOut(item.id, item.name, item.description, item.available, None, None, None, item.ownerId)
  }

  /** Builds an unsaved item from a creation payload, whose availability the
      creation validation group guarantees to be present. */
  function ToItem(d: ItemDto): (item: Item)
    requires d.available.Some?
    ensures item.name == d.name && item.description == d.description
    ensures item.available == d.available.value
    ensures item.id == Unset && item.ownerId == Unset
  {
    Item(Unset, d.name, d.description, d.available.value, Unset)
  }

  /** A payload turned into an item, saved under an id and an owner, and
      mapped back keeps its name, description and availability, and shows the
      id and owner the save gave it. */
  lemma PayloadRoundTrip(d: ItemDto, id: int, ownerId: int)
    requires d.available.Some? && 0 < id
    ensures var out := ToDto(ToItem(d).(id := id, ownerId := ownerId));
      && out.name == d.name && out.description == d.description && Some(out.available) == d.available
      && out.id == id && out.ownerId == ownerId
  {
  }
}

module BookingMapper {
  import opened Model

  /** The short view of a booking: its own fields and the booker's id. */
  function ToBookingDtoShort(b: Booking): (d: BookingDto)
    ensures d.id == b.id && d.start == b.start && d.end == b.end && d.status == b.status
    ensures d.bookerId == b.booker.id
  {
    BookingDto(b.id, b.start, b.end, b.status, b.booker.id)
  }

  /** Fills a booking from a request: the request's dates and status WAITING,
      whatever the booking held before. Id, item and booker are kept, which is
      what returning the very object that was passed in amounts to. The dates
      have been checked to be present before the service calls it. */
  function ToBooking(d: BookingItemDto, b: Booking): (r: Booking)
    requires d.start.Some? && d.end.Some?
    ensures r.status == Waiting
    ensures r.start == d.start.value && r.end == d.end.value
    ensures r.id == b.id && r.item == b.item && r.booker == b.booker
  {
    b.(start := d.start.value, end := d.end.value, status := Waiting)
  }

  /** Filling is idempotent: a second fill from the same request changes nothing. */
  lemma ToBookingIdempotent(d: BookingItemDto, b: Booking)
    requires d.start.Some? && d.end.Some?
    ensures ToBooking(d, ToBooking(d, b)) == ToBooking(d, b)
  {
  }
}
