/** The booking lifecycle: creation of a WAITING booking, the single
    WAITING -> APPROVED | REJECTED decision, reads gated to the booker and the
    item's owner, and the listings of a booker's or an owner's bookings by a
    state token. Users and items are the id-keyed stores the engine resolves
    against; the wall clock is the parameter `now`. */
module BookingService {
  import opened Common
  import opened Model
  import opened Sorting
  import BookingMapper

  /** findById(..).orElseThrow(EntityNotFoundException). */
  function Lookup<V>(store: map<int, V>, id: int): (r: Result<V>)
    ensures r.Success? <==> id in store
    ensures r.Success? ==> r.value == store[id]
    ensures r.Failure? ==> r.error == EntityNotFound
  {
    if id in store then Success(store[id]) else Failure(EntityNotFound)
  }

  // ---------------------------------------------------------------- creation

  /** A booking request's dates are acceptable: both present, the end strictly
      after the start, and the start not before now (a start equal to now is
      accepted). */
  predicate DatesValid(d: BookingItemDto, now: int)
  {
    d.start.Some? && d.end.Some? && d.start.value < d.end.value && now <= d.start.value
  }

  /** The date check as the service intends it: a missing date is a wrong date. */
  function CheckDates(d: BookingItemDto, now: int): (r: Option<Error>)
    ensures r == None <==> DatesValid(d, now)
    ensures r != None ==> r == Some(WrongDates)
  {
    if d.start.None? || d.end.None? then Some(WrongDates)
    else if !(d.end.value > d.start.value) || d.start.value < now then Some(WrongDates)
    else None
  }

  /** The date check as the code is written: `end.isAfter(start)` dereferences
      the end, and `isAfter(null)` the start, before any WrongDates is thrown. */
  function CheckDatesAsWritten(d: BookingItemDto, now: int): (r: Option<Error>)
    ensures d.start.None? || d.end.None? ==> r == Some(NullDereference)
    ensures d.start.Some? && d.end.Some? ==> (r == None <==> DatesValid(d, now))
    ensures d.start.Some? && d.end.Some? && r != None ==> r == Some(WrongDates)
  {
    if d.end.None? || d.start.None? then Some(NullDereference)
    else if !(d.end.value > d.start.value) || d.start.value < now then Some(WrongDates)
    else None
  }

  /** With both dates present the two checks agree. */
  lemma DateChecksAgreeWhenPresent(d: BookingItemDto, now: int)
    requires d.start.Some? && d.end.Some?
    ensures CheckDatesAsWritten(d, now) == CheckDates(d, now)
  {
  }

  /** A request without an end date: the code as written fails with a null
      dereference where the service's tests expect WrongDates. */
  lemma MissingEndIsNotWrongDatesAsWritten(now: int)
    ensures var d := BookingItemDto(Some(now + 1), None, 1);
      CheckDatesAsWritten(d, now) == Some(NullDereference) && CheckDates(d, now) == Some(WrongDates)
  {
  }

  /** The outcome of addBooking for the booking that would receive `id`:
      the checks run in the order user, item, availability, own item, dates. */
  function NewBooking(users: map<int, User>, items: map<int, Item>, d: BookingItemDto,
                      userId: int, now: int, id: int): (r: Result<Booking>)
    ensures userId !in users ==> r == Failure(EntityNotFound)
    ensures userId in users && d.itemId !in items ==> r == Failure(EntityNotFound)
    ensures userId in users && d.itemId in items && !items[d.itemId].available ==>
      r == Failure(ItemNotAvailableForBooking)
    ensures (userId in users && d.itemId in items && items[d.itemId].available &&
             users[userId].id == items[d.itemId].ownerId) ==> r == Failure(BookOwnItems)
    ensures (userId in users && d.itemId in items && items[d.itemId].available &&
             users[userId].id != items[d.itemId].ownerId) ==>
              (r.Success? <==> DatesValid(d, now)) && (r.Failure? ==> r.error == WrongDates)
    ensures r.Success? ==>
      && r.value.id == id && r.value.status == Waiting
      && Some(r.value.start) == d.start && Some(r.value.end) == d.end
      && r.value.item == items[d.itemId] && r.value.booker == users[userId]
      && r.value.start < r.value.end && now <= r.value.start
      && r.value.item.available && r.value.booker.id != r.value.item.ownerId
  {
    if userId !in users then Failure(EntityNotFound)
    else if d.itemId !in items then Failure(EntityNotFound)
    else
      var booker := users[userId];
      var item := items[d.itemId];
      if !item.available then Failure(ItemNotAvailableForBooking)
      else if booker.id == item.ownerId then Failure(BookOwnItems)
      else if CheckDates(d, now).Some? then Failure(CheckDates(d, now).value)
      else Success(Booking(id, d.start.value, d.end.value, item, booker, Waiting))
  }

  // ---------------------------------------------------------------- decision

  function DecisionStatus(approved: bool): BookingStatus
  {
    if approved then Approved else Rejected
  }

  /** The outcome of approve: the booking after the decision, or the failure.
      The terminal-state guard runs before the owner check, so a decided
      booking reports ItemNotAvailableForBooking to any caller. */
  function Decide(bookings: map<int, Booking>, items: map<int, Item>, bookingId: int,
                  approved: bool, userId: int): (r: Result<Booking>)
    ensures r.Success? <==>
      && bookingId in bookings && bookings[bookingId].item.id in items
      && bookings[bookingId].status == Waiting && bookings[bookingId].item.ownerId == userId
    ensures bookingId !in bookings ==> r == Failure(EntityNotFound)
    ensures bookingId in bookings && bookings[bookingId].item.id !in items ==> r == Failure(EntityNotFound)
    ensures (bookingId in bookings && bookings[bookingId].item.id in items &&
             bookings[bookingId].status != Waiting) ==> r == Failure(ItemNotAvailableForBooking)
    ensures (bookingId in bookings && bookings[bookingId].item.id in items &&
             bookings[bookingId].status == Waiting && bookings[bookingId].item.ownerId != userId) ==>
              r == Failure(IllegalViewAndUpdate)
    ensures r.Success? ==>
      r.value.status == DecisionStatus(approved) && r.value.(status := Waiting) == bookings[bookingId]
  {
    if bookingId !in bookings then Failure(EntityNotFound)
    else
      var b := bookings[bookingId];
      if b.item.id !in items then Failure(EntityNotFound)
      else if b.status != Waiting then Failure(ItemNotAvailableForBooking)
      else if b.item.ownerId != userId then Failure(IllegalViewAndUpdate)
      else Success(b.(status := DecisionStatus(approved)))
  }

  /** A decision is applied at most once: once a booking has been decided,
      every later decision on it fails with ItemNotAvailableForBooking,
      whatever its flag and whoever asks. */
  lemma DecisionIsFinal(bookings: map<int, Booking>, items: map<int, Item>, bookingId: int,
                        approved: bool, userId: int, approved': bool, userId': int)
    requires Decide(bookings, items, bookingId, approved, userId).Success?
    ensures var b := Decide(bookings, items, bookingId, approved, userId).value;
      Decide(bookings[bookingId := b], items, bookingId, approved', userId') ==
        Failure(ItemNotAvailableForBooking)
  {
  }

  /** Of approve(true) and approve(false) on one WAITING booking by its owner,
      whichever comes first succeeds and the other then fails. */
  lemma ExactlyOneDecisionSucceeds(bookings: map<int, Booking>, items: map<int, Item>,
                                   bookingId: int, approved: bool)
    requires bookingId in bookings && bookings[bookingId].item.id in items
    requires bookings[bookingId].status == Waiting
    ensures var owner := bookings[bookingId].item.ownerId;
      var first := Decide(bookings, items, bookingId, approved, owner);
      && first.Success?
      && Decide(bookings[bookingId := first.value], items, bookingId, !approved, owner).Failure?
  {
    var owner := bookings[bookingId].item.ownerId;
    DecisionIsFinal(bookings, items, bookingId, approved, owner, !approved, owner);
  }

  // ---------------------------------------------------------------- guarded read

  /** The booking is visible to `userId`: its booker, or the owner resolved
      from the user store. */
  predicate MayView(b: Booking, owner: User, userId: int)
  {
    userId == b.booker.id || userId == owner.id
  }

  /** getBookingById: the booking itself, for its booker or its item's owner.
      The owner's account is resolved before the access check, so a booking
      whose owner cannot be resolved is not found by anyone. */
  function BookingById(bookings: map<int, Booking>, users: map<int, User>,
                       bookingId: int, userId: int): (r: Result<Booking>)
    ensures r.Success? <==>
      && bookingId in bookings && bookings[bookingId].item.ownerId in users
      && MayView(bookings[bookingId], users[bookings[bookingId].item.ownerId], userId)
    ensures r.Success? ==> r.value == bookings[bookingId]
    ensures bookingId !in bookings ==> r == Failure(EntityNotFound)
    ensures bookingId in bookings && bookings[bookingId].item.ownerId !in users ==> r == Failure(EntityNotFound)
    ensures (bookingId in bookings && bookings[bookingId].item.ownerId in users &&
             !MayView(bookings[bookingId], users[bookings[bookingId].item.ownerId], userId)) ==>
              r == Failure(IllegalViewAndUpdate)
  {
    if bookingId !in bookings then Failure(EntityNotFound)
    else
      var b := bookings[bookingId];
      var owner := Lookup(users, b.item.ownerId);
      if owner.Failure? then Failure(owner.error)
      else if !MayView(b, owner.value, userId) then Failure(IllegalViewAndUpdate)
      else Success(b)
  }

  // ---------------------------------------------------------------- listings

  function StateName(s: BookingState): string
  {
    match s
    case All => "ALL"
    case Current => "CURRENT"
    case Past => "PAST"
    case Future => "FUTURE"
    case WaitingState => "WAITING"
    case RejectedState => "REJECTED"
  }

  /** BookingState.valueOf: an exact, case-sensitive match of a constant's name. */
  function ParseState(token: string): (r: Option<BookingState>)
    ensures forall s :: r == Some(s) <==> token == StateName(s)
  {
    if token == "ALL" then Some(All)
    else if token == "CURRENT" then Some(Current)
    else if token == "PAST" then Some(Past)
    else if token == "FUTURE" then Some(Future)
    else if token == "WAITING" then Some(WaitingState)
    else if token == "REJECTED" then Some(RejectedState)
    else None
  }

  /** Whose bookings a listing is about: those made by the subject, or those
      of the items the subject owns. */
  datatype Role = AsBooker | AsOwner

  predicate InvolvedAs(b: Booking, role: Role, subject: int)
  {
    match role
    case AsBooker => b.booker.id == subject
    case AsOwner => b.item.ownerId == subject
  }

  /** The store query each token selects. The CURRENT, PAST and FUTURE queries
      are named after these conditions; their bodies are not part of this model. */
  predicate InState(b: Booking, s: BookingState, now: int)
  {
    match s
    case All => true
    case Current => b.start <= now <= b.end
    case Past => b.end < now
    case Future => b.start > now
    case WaitingState => b.status == Waiting
    case RejectedState => b.status == Rejected
  }

  function StartOf(b: Booking): int { b.start }

  function EndOf(b: Booking): int { b.end }

  /** Every listing sorts by start, most recent first, except the booker's
      REJECTED listing, which sorts by end. */
  function SortKey(role: Role, s: BookingState): Booking -> int
  {
    if role == AsBooker && s == RejectedState then EndOf else StartOf
  }

  /** The bookings of the store that the query selects, sorted by its key. */
  function Select(bookings: map<int, Booking>, role: Role, subject: int, s: BookingState, now: int): (r: seq<Booking>)
    ensures forall b :: b in r <==> b in bookings.Values && InvolvedAs(b, role, subject) && InState(b, s, now)
    ensures SortedDesc(r, SortKey(role, s))
    ensures BookingsKeyed(bookings) ==> NoDuplicates(r)
  {
    assert BookingsKeyed(bookings) ==> Injective(bookings);
    var stored := InIdOrder(bookings);
    var chosen := Filter(stored, b => InvolvedAs(b, role, subject) && InState(b, s, now));
    SortDesc(chosen, SortKey(role, s))
  }

  /** Both listings: the subject is resolved first, then the token parsed. */
  function ListBookings(users: map<int, User>, bookings: map<int, Booking>, role: Role,
                        subject: int, token: string, now: int): (r: Result<seq<Booking>>)
    ensures subject !in users ==> r == Failure(EntityNotFound)
    ensures subject in users ==> (r.Failure? <==> ParseState(token).None?)
    ensures subject in users && r.Failure? ==> r.error == UnsupportedStatus
    ensures r.Success? ==>
      var s := ParseState(token).value;
      && (forall b :: b in r.value <==> b in bookings.Values && InvolvedAs(b, role, subject) && InState(b, s, now))
      && SortedDesc(r.value, SortKey(role, s))
    ensures r.Success? && BookingsKeyed(bookings) ==> NoDuplicates(r.value)
  {
    if subject !in users then Failure(EntityNotFound)
    else
      match ParseState(token)
      case None => Failure(UnsupportedStatus)
      case Some(s) => Success(Select(bookings, role, subject, s, now))
  }

  /** getAllByBooker. */
  function AllByBooker(users: map<int, User>, bookings: map<int, Booking>, token: string,
                       bookerId: int, now: int): (r: Result<seq<Booking>>)
    ensures bookerId !in users ==> r == Failure(EntityNotFound)
    ensures bookerId in users ==> (r.Failure? <==> ParseState(token).None?)
    ensures bookerId in users && r.Failure? ==> r.error == UnsupportedStatus
    ensures r.Success? ==>
      (forall b :: b in r.value <==>
        b in bookings.Values && b.booker.id == bookerId && InState(b, ParseState(token).value, now))
    ensures r.Success? && token == "REJECTED" ==> SortedDesc(r.value, EndOf)
    ensures r.Success? && token != "REJECTED" ==> SortedDesc(r.value, StartOf)
    ensures r.Success? && BookingsKeyed(bookings) ==> NoDuplicates(r.value)
  {
    var r := ListBookings(users, bookings, AsBooker, bookerId, token, now);
    assert r.Success? ==> var s := ParseState(token).value;
      token == StateName(s) && SortKey(AsBooker, s) == if token == "REJECTED" then EndOf else StartOf;
    r
  }

  /** getAllByOwner: the owner's REJECTED listing sorts by start like the rest. */
  function AllByOwner(users: map<int, User>, bookings: map<int, Booking>, ownerId: int,
                      token: string, now: int): (r: Result<seq<Booking>>)
    ensures ownerId !in users ==> r == Failure(EntityNotFound)
    ensures ownerId in users ==> (r.Failure? <==> ParseState(token).None?)
    ensures ownerId in users && r.Failure? ==> r.error == UnsupportedStatus
    ensures r.Success? ==>
      (forall b :: b in r.value <==>
        b in bookings.Values && b.item.ownerId == ownerId && InState(b, ParseState(token).value, now))
    ensures r.Success? ==> SortedDesc(r.value, StartOf)
    ensures r.Success? && BookingsKeyed(bookings) ==> NoDuplicates(r.value)
  {
    var r := ListBookings(users, bookings, AsOwner, ownerId, token, now);
    assert r.Success? ==> SortKey(AsOwner, ParseState(token).value) == StartOf;
    r
  }

  /** The ALL listing holds every booking any other token lists. */
  lemma AllListsEveryState(bookings: map<int, Booking>, role: Role, subject: int, s: BookingState, now: int)
    ensures forall b :: b in Select(bookings, role, subject, s, now) ==> b in Select(bookings, role, subject, All, now)
  {
  }

  // ---------------------------------------------------------------- the store

  /** The service over its booking store. Users and items are resolved from
      their own stores; the booking store hands out ids after `lastId`. */
  class BookingEngine {
    var users: map<int, User>
    var items: map<int, Item>
    var bookings: map<int, Booking>
    var lastId: nat

    ghost predicate Valid()
      reads this
    {
      forall id :: id in bookings ==> bookings[id].id == id && 0 < id <= lastId
    }

    constructor (users: map<int, User>, items: map<int, Item>)
      ensures Valid()
      ensures this.users == users && this.items == items && bookings == map[] && lastId == 0
    {
      this.users := users;
      this.items := items;
      bookings := map[];
      lastId := 0;
    }

    /** addBooking: on success a new WAITING booking is stored under a fresh
        id; on failure nothing changes. */
    method AddBooking(d: BookingItemDto, userId: int, now: int) returns (r: Result<Booking>)
      requires Valid()
      modifies this
      ensures Valid()
      ensures r == NewBooking(old(users), old(items), d, userId, now, old(lastId) + 1)
      ensures users == old(users) && items == old(items)
      ensures r.Success? ==> r.value.id !in old(bookings)
      ensures r.Success? ==> bookings == old(bookings)[r.value.id := r.value] && lastId == old(lastId) + 1
      ensures r.Failure? ==> bookings == old(bookings) && lastId == old(lastId)
    {
      var booker := Lookup(users, userId);
      if booker.Failure? { return Failure(booker.error); }
      var item := Lookup(items, d.itemId);
      if item.Failure? { return Failure(item.error); }
      if !item.value.available { return Failure(ItemNotAvailableForBooking); }
      if booker.value.id == item.value.ownerId { return Failure(BookOwnItems); }
      var bad := CheckDates(d, now);
      if bad.Some? { return Failure(bad.value); }
      var booking := Booking(0, 0, 0, item.value, booker.value, Waiting);
      booking := BookingMapper.ToBooking(d, booking);
      lastId := lastId + 1;
      booking := booking.(id := lastId);
      bookings := bookings[lastId := booking];
      r := Success(booking);
    }

    /** approve: on success the booking's status, and nothing else, changes. */
    method Approve(bookingId: int, approved: bool, userId: int) returns (r: Result<Booking>)
      requires Valid()
      modifies this
      ensures Valid()
      ensures r == Decide(old(bookings), old(items), bookingId, approved, userId)
      ensures users == old(users) && items == old(items) && lastId == old(lastId)
      ensures r.Success? ==> bookings == old(bookings)[bookingId := r.value]
      ensures r.Failure? ==> bookings == old(bookings)
    {
      var found := Lookup(bookings, bookingId);
      if found.Failure? { return Failure(found.error); }
      var booking := found.value;
      var item := Lookup(items, booking.item.id);
      if item.Failure? { return Failure(item.error); }
      if booking.status != Waiting { return Failure(ItemNotAvailableForBooking); }
      if booking.item.ownerId != userId { return Failure(IllegalViewAndUpdate); }
      booking := booking.(status := if approved then Approved else Rejected);
      bookings := bookings[bookingId := booking];
      r := Success(booking);
    }
  }
}
