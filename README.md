# ShareIt booking core in Dafny

ShareIt is a service where users lend items to each other. This project models
the service's core and proves properties of the model:

- **Booking lifecycle** (`booking_service.dfy`, module `BookingService`). A
  booking request becomes a WAITING booking after checks on the user, the
  item, its availability, self-booking and dates. The item's owner then
  decides it once, to APPROVED or REJECTED. A booking can be read only by its
  booker or the item's owner. Listings of a booker's or an owner's bookings
  are chosen by a state token (ALL, CURRENT, PAST, FUTURE, WAITING, REJECTED).
  `BookingEngine` is the service over its booking store: a class whose
  methods update the store in place. Each method is proved equal to a pure
  function (`NewBooking`, `Decide`), and the lemmas are about those functions.
- **Item listings and edits, server generation** (`item_service.dfy`, module
  `ItemService`). An item is shown with its last and next APPROVED booking
  (owner only) and with its comments. The same page is also built for many
  items at once, from three bulk lookups and a loop. The module also has the
  owner-only partial update, the search, and the rule that only a past
  booker may comment (`ItemCatalog`).
- **In-memory stores, first generation** (`user_repository.dfy`,
  `item_repository.dfy`). Each store is a map with an id counter. The item
  store also keeps a per-owner index of its items in the order they were
  saved, and supports a case-insensitive text search.
- **User and item services, first generation** (`user_service.dfy`,
  `legacy_item_service.dfy`). These cover email uniqueness, partial updates
  where a blank value keeps the old one, and owner checks.
- **Mappers** (`mappers.dfy`): field copies between entities and transfer
  objects, with their round trips.
- **Shared pieces.** `model.dfy` holds the entities and transfer objects, as
  datatypes. `common.dfy` holds the error kinds, Java's `isBlank`, ASCII
  `toLowerCase` and `contains`. `sorting.dfy` stands in for the database:
  stores are visited in ascending id order, and `Sort.by` becomes a sort by
  a key.

Times are integers. The wall clock is the parameter `now`. A thrown exception
is a `Failure` carrying an `Error` kind. A Java `null` string is modelled as
`""`: every guard on such a field is `s != null && !s.isBlank()`, and `""` is
blank too. A `null` Boolean is `None`.

## Model

| member | source | states |
|---|---|---|
| Common.Contains | src/main/java/ru/practicum/shareit/repository/impl/ItemRepositoryImpl.java:29-30 | `contains` is true exactly when the text occurs at some position of the string |
| Sorting.SortDesc | src/main/java/ru/practicum/shareit/service/impl/BookingServiceImpl.java:93-104 | `Sort.by(DESC, key)`: the result is sorted by descending key and is a permutation of the input, so an input without repeats gives a result without repeats |
| Sorting.InIdOrder | src/main/java/ru/practicum/shareit/repository/impl/UserRepositoryImpl.java:16-18 | visiting a store yields exactly its values, as many as it has keys. When no value is stored under two keys, each appears once |
| Sorting.FilterKeepsSorted | server/src/main/java/ru/practicum/shareit/service/impl/ItemServiceImpl.java:162-165 | picking some elements of a sorted list keeps them sorted |
| UserMapper.ToDto | server/src/main/java/ru/practicum/shareit/mapper/UserMapper.java:10-16 | copies id, name and email |
| UserMapper.ToEntity | server/src/main/java/ru/practicum/shareit/mapper/UserMapper.java:18-24 | copies id, name and email |
| UserMapper.EntityRoundTrip | server/src/main/java/ru/practicum/shareit/mapper/UserMapper.java:10-24 | user to transfer object and back gives the same user |
| UserMapper.DtoRoundTrip | server/src/main/java/ru/practicum/shareit/mapper/UserMapper.java:10-24 | transfer object to user and back gives the same transfer object |
| ItemMapper.ToDto | src/main/java/ru/practicum/shareit/mapper/ItemMapper.java:8-16 | copies id, name, description, availability and owner; last booking, next booking and comments stay absent |
| ItemMapper.ToItem | src/main/java/ru/practicum/shareit/mapper/ItemMapper.java:18-24 | copies name, description and availability; id and owner stay unset |
| ItemMapper.PayloadRoundTrip | src/main/java/ru/practicum/shareit/mapper/ItemMapper.java:8-24 | a payload turned into an item, saved under an id and an owner, and mapped back keeps its name, description and availability and shows the saved id and owner |
| BookingMapper.ToBookingDtoShort | server/src/main/java/ru/practicum/shareit/mapper/BookingMapper.java:14-22 | copies id, start, end and status; bookerId is the booker's id |
| BookingMapper.ToBooking | server/src/main/java/ru/practicum/shareit/mapper/BookingMapper.java:24-29 | status becomes WAITING whatever it was; start and end come from the request; id, item and booker are kept |
| BookingMapper.ToBookingIdempotent | server/src/main/java/ru/practicum/shareit/mapper/BookingMapper.java:24-29 | filling a booking twice from one request is filling it once |
| BookingService.Lookup | src/main/java/ru/practicum/shareit/service/impl/BookingServiceImpl.java:135-148 | the stored entity when the id is present, else EntityNotFound |
| BookingService.CheckDates | src/main/java/ru/practicum/shareit/service/impl/BookingServiceImpl.java:43-46 | no error exactly when both dates are present, end is after start, and start is not before now (start == now passes); otherwise WrongDates |
| BookingService.CheckDatesAsWritten | src/main/java/ru/practicum/shareit/service/impl/BookingServiceImpl.java:43-46 | as written: a missing start or end gives NullDereference. With both dates present there is no error exactly when end is after start and start is not before now; otherwise WrongDates |
| BookingService.DateChecksAgreeWhenPresent | src/main/java/ru/practicum/shareit/service/impl/BookingServiceImpl.java:43-46 | with both dates present, the check as written and the intended check agree |
| BookingService.MissingEndIsNotWrongDatesAsWritten | src/main/java/ru/practicum/shareit/service/impl/BookingServiceImpl.java:43-44 | a request without an end date dereferences null as written, where WrongDates is intended |
| BookingService.NewBooking | src/main/java/ru/practicum/shareit/service/impl/BookingServiceImpl.java:34-51 | checks in order: unknown user, unknown item, unavailable item, own item, then dates. Each failure shadows the later ones. A success is a WAITING booking of that item by that user, with the request's dates, which are well ordered and not in the past |
| BookingService.BookingEngine.AddBooking | src/main/java/ru/practicum/shareit/service/impl/BookingServiceImpl.java:34-52 | outcome is `NewBooking`. A success is stored under a fresh id and no other booking changes. A failure changes nothing |
| BookingService.Decide | src/main/java/ru/practicum/shareit/service/impl/BookingServiceImpl.java:55-68 | fails in order: missing booking, missing item, status not WAITING (for any caller), caller not the owner. Succeeds exactly otherwise, with status APPROVED or REJECTED by the flag and no other field changed |
| BookingService.BookingEngine.Approve | src/main/java/ru/practicum/shareit/service/impl/BookingServiceImpl.java:55-69 | outcome is `Decide`. A success replaces only that booking. A failure changes nothing |
| BookingService.DecisionIsFinal | src/main/java/ru/practicum/shareit/service/impl/BookingServiceImpl.java:59-66 | after a successful decision, every later decision on the same booking fails with ItemNotAvailableForBooking, whatever the flag and the caller |
| BookingService.ExactlyOneDecisionSucceeds | src/main/java/ru/practicum/shareit/service/impl/BookingServiceImpl.java:59-66 | of two opposite decisions by the owner on a WAITING booking, the first succeeds and the second fails |
| BookingService.BookingById | src/main/java/ru/practicum/shareit/service/impl/BookingServiceImpl.java:73-81 | the stored booking, unchanged, exactly when the caller is its booker or its item's owner. An unknown booking, or an owner missing from the user store, gives EntityNotFound; any other caller gets IllegalViewAndUpdate |
| BookingService.ParseState | src/main/java/ru/practicum/shareit/service/impl/BookingServiceImpl.java:87-92 | a token parses to a state exactly when it is that state's name, case-sensitive |
| BookingService.Select | src/main/java/ru/practicum/shareit/service/impl/BookingServiceImpl.java:93-105 | exactly the stored bookings of the subject that satisfy the state's condition, sorted by the listing's key. When every record is stored under its own id, each appears once |
| BookingService.ListBookings | src/main/java/ru/practicum/shareit/service/impl/BookingServiceImpl.java:85-131 | the unknown-user check comes before parsing. An unparsable token gives UnsupportedStatus. A valid token always gives a list (possibly empty). When every record is stored under its own id, each appears once |
| BookingService.AllByBooker | src/main/java/ru/practicum/shareit/service/impl/BookingServiceImpl.java:85-106 | the booker's bookings in the token's state. REJECTED is sorted by end, descending; every other token by start, descending. When every record is stored under its own id, each appears once |
| BookingService.AllByOwner | src/main/java/ru/practicum/shareit/service/impl/BookingServiceImpl.java:110-132 | the bookings of the owner's items in the token's state, every listing (REJECTED included) sorted by start, descending. When every record is stored under its own id, each appears once |
| BookingService.AllListsEveryState | src/main/java/ru/practicum/shareit/service/impl/BookingServiceImpl.java:93-104 | every booking in any state's listing is also in the ALL listing |
| ItemService.LastBooking | server/src/main/java/ru/practicum/shareit/service/impl/ItemServiceImpl.java:126-130 | absent exactly when the item has no APPROVED booking starting at or before now; otherwise such a booking with the greatest end |
| ItemService.NextBooking | server/src/main/java/ru/practicum/shareit/service/impl/ItemServiceImpl.java:132-136 | absent exactly when the item has no APPROVED booking starting after now; otherwise such a booking with the smallest end |
| ItemService.LastView | server/src/main/java/ru/practicum/shareit/service/impl/ItemServiceImpl.java:125-131 | the short view of a last booking, and null exactly when there is none |
| ItemService.NextView | server/src/main/java/ru/practicum/shareit/service/impl/ItemServiceImpl.java:132-137 | the short view of a next booking, and null exactly when there is none |
| ItemService.ItemComments | server/src/main/java/ru/practicum/shareit/service/impl/ItemServiceImpl.java:139-142 | exactly the item's comments, as transfer objects. When every record is stored under its own id, each appears once |
| ItemService.AddBookingsAndComments | server/src/main/java/ru/practicum/shareit/service/impl/ItemServiceImpl.java:121-145 | the owner sees the last and the next booking; anyone else sees neither. Everyone sees the item's comments. The item's own fields are copied |
| ItemService.ItemById | server/src/main/java/ru/practicum/shareit/service/impl/ItemServiceImpl.java:85-88 | EntityNotFound exactly for an unknown item; otherwise the item filled as by `AddBookingsAndComments`: the owner sees the last and next booking, a non-owner neither, and everyone the item's comments |
| ItemService.FirstPerItem | server/src/main/java/ru/practicum/shareit/service/impl/ItemServiceImpl.java:150-160 | the first-wins merge has a key exactly for each item that has a booking in the list. It maps the key to one of that item's bookings from the list, and the list's first booking is kept for its item |
| ItemService.FirstPerItemKeepsFirst | server/src/main/java/ru/practicum/shareit/service/impl/ItemServiceImpl.java:150-160 | the `(o1, o2) -> o1` merge keeps, for each item, the booking at the item's first position in the list |
| ItemService.FirstPerItemIsExtremal | server/src/main/java/ru/practicum/shareit/service/impl/ItemServiceImpl.java:150-160 | over a list sorted by descending key, the booking kept for an item has the greatest key among that item's bookings |
| ItemService.GroupByItem | server/src/main/java/ru/practicum/shareit/service/impl/ItemServiceImpl.java:162-165 | `groupingBy`: a group exists exactly for each item that has a comment in the list; it is non-empty and holds exactly that item's comments. `GroupIsFilter` adds that they keep the list order |
| ItemService.GroupIsFilter | server/src/main/java/ru/practicum/shareit/service/impl/ItemServiceImpl.java:162-182 | grouping, then looking an item up with an empty default, gives exactly that item's comments in list order |
| ItemService.LastOfPage | server/src/main/java/ru/practicum/shareit/service/impl/ItemServiceImpl.java:150-154 | exactly the APPROVED bookings of the page's items that have started by now, latest end first. When every record is stored under its own id, each appears once |
| ItemService.NextOfPage | server/src/main/java/ru/practicum/shareit/service/impl/ItemServiceImpl.java:156-160 | exactly the APPROVED bookings of the page's items that start after now, earliest end first. When every record is stored under its own id, each appears once |
| ItemService.CommentsOfPage | server/src/main/java/ru/practicum/shareit/service/impl/ItemServiceImpl.java:162-165 | exactly the comments on the page's items, newest first. When every record is stored under its own id, each appears once |
| ItemService.FillPage | server/src/main/java/ru/practicum/shareit/service/impl/ItemServiceImpl.java:167-186 | the loop yields one entry per input item, in input order, each filled from the lookups |
| ItemService.AddBookingsAndCommentsForList | server/src/main/java/ru/practicum/shareit/service/impl/ItemServiceImpl.java:147-187 | one entry per input item, in input order, built from the three bulk lookups |
| ItemService.PageEntryMeaning | server/src/main/java/ru/practicum/shareit/service/impl/ItemServiceImpl.java:147-186 | on the page, an item's last booking is null exactly when it has no candidate, and otherwise it has the greatest end. The same holds for the next booking with the smallest end |
| ItemService.PageCommentsMeaning | server/src/main/java/ru/practicum/shareit/service/impl/ItemServiceImpl.java:162-182 | on the page, an item's comments are exactly its own, newest first; an item without comments gets an empty list. When every record is stored under its own id, each appears once, in the group and in the transfer objects |
| ItemService.PageAgreesWithSingleView | server/src/main/java/ru/practicum/shareit/service/impl/ItemServiceImpl.java:121-186 | the page and the owner's single-item view agree on whether the last and the next booking exist, and on their ends |
| ItemService.Patched | server/src/main/java/ru/practicum/shareit/service/impl/ItemServiceImpl.java:71-79 | name and description are replaced only by non-blank values, and availability only when present. Id and owner are kept |
| ItemService.PatchIdempotent | server/src/main/java/ru/practicum/shareit/service/impl/ItemServiceImpl.java:71-79 | applying the same patch twice is applying it once |
| ItemService.EmptyPatchKeepsItem | server/src/main/java/ru/practicum/shareit/service/impl/ItemServiceImpl.java:71-79 | a payload with blank texts and no availability leaves the item as it was |
| ItemService.UpdateOutcome | server/src/main/java/ru/practicum/shareit/service/impl/ItemServiceImpl.java:60-80 | checks in order: unknown user, unknown item, not the owner (NotOwner). Succeeds exactly for the owner, with the patched item |
| ItemService.ItemCatalog.UpdateItem | server/src/main/java/ru/practicum/shareit/service/impl/ItemServiceImpl.java:60-81 | outcome is `UpdateOutcome`. A success writes the patched item in place. A failure changes nothing |
| ItemService.ItemBySearch | server/src/main/java/ru/practicum/shareit/service/impl/ItemServiceImpl.java:101-107 | blank text gives an empty list whatever the store holds. Otherwise the result is exactly the available items whose name or description contains the text, ignoring case. When every record is stored under its own id, each appears once |
| ItemService.ItemCatalog.AddComment | server/src/main/java/ru/practicum/shareit/service/impl/ItemServiceImpl.java:110-119 | checks in order: unknown user, unknown item, then NotBooker unless the user has a booking of the item that ended before now. A success stores the comment under a fresh id, signed with the author's name and stamped with now |
| ItemRepository.InMemoryItemRepository.Save | src/main/java/ru/practicum/shareit/repository/impl/ItemRepositoryImpl.java:35-42 | the id is counter + 1, fresh and greater than every stored id. The owner is set to the user. The item is appended to the owner's index, created when absent. Every other entry is unchanged |
| ItemRepository.InMemoryItemRepository.FindById | src/main/java/ru/practicum/shareit/repository/impl/ItemRepositoryImpl.java:17-19 | the stored item when present, else nothing |
| ItemRepository.InMemoryItemRepository.FindItemsByOwner | src/main/java/ru/practicum/shareit/repository/impl/ItemRepositoryImpl.java:21-24 | null exactly when the user owns no item; otherwise exactly the user's items, oldest first |
| ItemRepository.InMemoryItemRepository.FindItemByText | src/main/java/ru/practicum/shareit/repository/impl/ItemRepositoryImpl.java:27-31 | exactly the available items whose lower-cased name or description contains the lower-cased text, each once |
| ItemRepository.InMemoryItemRepository.Edit | src/main/java/ru/practicum/shareit/service/impl/ItemServiceImpl.java:63-71 | the setters on a stored item change its name, description and availability only; the index is untouched |
| UserRepository.InMemoryUserRepository.Save | src/main/java/ru/practicum/shareit/repository/impl/UserRepositoryImpl.java:21-25 | the id is counter + 1, fresh and greater than every stored id, and the user is stored under it |
| UserRepository.InMemoryUserRepository.FindById | src/main/java/ru/practicum/shareit/repository/impl/UserRepositoryImpl.java:27-30 | the stored user when present, else nothing |
| UserRepository.InMemoryUserRepository.FindAll | src/main/java/ru/practicum/shareit/repository/impl/UserRepositoryImpl.java:16-18 | exactly the stored users, each once |
| UserRepository.InMemoryUserRepository.DeleteById | src/main/java/ru/practicum/shareit/repository/impl/UserRepositoryImpl.java:33-37 | an absent id gives EntityNotFound and changes nothing; otherwise only that id is removed |
| UserService.UserPatched | src/main/java/ru/practicum/shareit/service/impl/UserServiceImpl.java:48-57 | name and email are replaced only by non-blank values; the id is kept |
| UserService.UpdateOutcome | src/main/java/ru/practicum/shareit/service/impl/UserServiceImpl.java:42-59 | EntityNotFound for an unknown id. DuplicateEmail when the request changes the email to one some user already has; resubmitting one's own email skips the check. Otherwise the patched user |
| UserService.UpdateAsWritten | src/main/java/ru/practicum/shareit/service/impl/UserServiceImpl.java:42-59 | as written, a DuplicateEmail failure leaves the store with the new name already applied |
| UserService.RejectedUpdateRenamesAsWritten | src/main/java/ru/practicum/shareit/service/impl/UserServiceImpl.java:48-56 | a concrete request that fails with DuplicateEmail as written, yet has renamed the user |
| UserService.UpdateAgreesOnSuccess | src/main/java/ru/practicum/shareit/service/impl/UserServiceImpl.java:42-59 | whenever the code as written succeeds, it agrees with the check-first update on the result and on the store |
| UserService.UpdateKeepsEmailsUnique | src/main/java/ru/practicum/shareit/service/impl/UserServiceImpl.java:52-57 | a successful update keeps every stored email distinct |
| UserService.AddKeepsEmailsUnique | src/main/java/ru/practicum/shareit/service/impl/UserServiceImpl.java:34-38 | adding a user whose email is free keeps every stored email distinct |
| UserService.LegacyUserService.GetAllUsers | src/main/java/ru/practicum/shareit/service/impl/UserServiceImpl.java:22-24 | exactly the stored users, as transfer objects, one per stored user and each once |
| UserService.LegacyUserService.GetUserById | src/main/java/ru/practicum/shareit/service/impl/UserServiceImpl.java:27-31 | the stored user, or EntityNotFound exactly for an unknown id |
| UserService.LegacyUserService.ValidateUniqueEmail | src/main/java/ru/practicum/shareit/service/impl/UserServiceImpl.java:66-71 | true exactly when some stored user has that email |
| UserService.LegacyUserService.AddUser | src/main/java/ru/practicum/shareit/service/impl/UserServiceImpl.java:34-38 | a taken email gives DuplicateEmail and stores nothing. Otherwise the user is saved under the next id. Stored emails stay distinct |
| UserService.LegacyUserService.UpdateUser | src/main/java/ru/practicum/shareit/service/impl/UserServiceImpl.java:42-59 | outcome is `UpdateOutcome`. A success writes the patched user in place; a failure changes nothing. Stored emails stay distinct |
| UserService.LegacyUserService.DeleteUserById | src/main/java/ru/practicum/shareit/service/impl/UserServiceImpl.java:62-64 | an absent id gives EntityNotFound and changes nothing; otherwise only that user is removed |
| LegacyItemService.ItemsByOwnerAsWritten | src/main/java/ru/practicum/shareit/service/impl/ItemServiceImpl.java:32-35 | as written, a known user who owns nothing makes the listing dereference null |
| LegacyItemService.ItemsByOwner | src/main/java/ru/practicum/shareit/service/impl/ItemServiceImpl.java:32-35 | EntityNotFound exactly for an unknown user. A known user who owns nothing gets an empty list; otherwise the owner's items, in order |
| LegacyItemService.OwnerWithoutItemsAsWritten | src/main/java/ru/practicum/shareit/service/impl/ItemServiceImpl.java:32-35 | the listing as written and as intended differ exactly on a known user who owns nothing |
| LegacyItemService.LegacyItemService.FindById | src/main/java/ru/practicum/shareit/service/impl/ItemServiceImpl.java:25-29 | the stored item, or EntityNotFound exactly for an unknown id |
| LegacyItemService.LegacyItemService.GetItemsByOwner | src/main/java/ru/practicum/shareit/service/impl/ItemServiceImpl.java:32-35 | EntityNotFound exactly for an unknown user; otherwise exactly the user's items, oldest first |
| LegacyItemService.LegacyItemService.GetItemByText | src/main/java/ru/practicum/shareit/service/impl/ItemServiceImpl.java:38-43 | blank text gives an empty list. Otherwise the result is exactly the available items whose name or description contains the text, ignoring case, each once |
| LegacyItemService.LegacyItemService.AddItem | src/main/java/ru/practicum/shareit/service/impl/ItemServiceImpl.java:46-49 | an unknown user gives EntityNotFound and changes nothing. Otherwise the item is saved under the next id, owned by the user |
| LegacyItemService.LegacyItemService.UpdateItem | src/main/java/ru/practicum/shareit/service/impl/ItemServiceImpl.java:52-73 | checks in order: unknown user, unknown item, not the owner (WrongOwner, item unchanged). The owner's edit is the patch, written in place |

## Left out

- HTTP and transport: controllers, the gateway and its REST clients, header parsing, bean validation, and the mapping of exceptions to HTTP statuses. Exception messages are not modelled, only their kinds.
- Pagination (`PageRequest.of(from / size, size)`): a library call. Listings are modelled whole.
- Transactions, JPA dirty checking and concurrency between requests. A stored entity changed in place is modelled as a map entry replaced in one step.
- The wall clock: `LocalDateTime.now()` is the parameter `now`. addComment reads the clock twice (once for the booking check, once for the comment's timestamp); both reads are the same `now` here.
- BookingService.InState: the bodies of the CURRENT, PAST and FUTURE store queries are not part of this model. Their conditions come from the query names: start <= now <= end, end < now, and start > now.
- BookingService.Select: the database's order among bookings with equal sort keys is unspecified. The contracts promise the sort order and the contents, not the order of ties. Stores are visited in ascending id order.
- ItemService.ItemComments: `findAllByItemId` has no sort, so the comments' order is unspecified. The model lists them in id order and promises only their contents.
- ItemService.PageAgreesWithSingleView: the page and the single view may pick different bookings when two have the same end, so they are proved to agree on the end only.
- Common.ToLower: only the ASCII letters are lower-cased. Java's full Unicode case mapping is not modelled. The server's search (SQL `UPPER ... LIKE`) is modelled by the same case-insensitive containment, and `%` or `_` inside the search text is not treated as a wildcard.
- Java `null` strings are modelled as `""` and a `null` Boolean as `None`. validateUniqueEmail with a `null` email never finds a match, whereas `""` matches a stored `""`; that edge case is not distinguished.
- ItemMapper.ToItem: it requires the availability to be present, which the creation payload's validation guarantees. A `null` availability on creation is not modelled.
- ItemMapper.PayloadRoundTrip: is stated for an item that has been saved. In Java, `toDto(toItem(d))` without a save throws, because `toItem` leaves the `Long` id null and `toDto` unboxes it. `ItemMapper.Unset` (0) stands for that null. The code only maps an item back after `save` assigns an id.
- BookingMapper.ToBooking: the in-place fill of the passed booking is modelled as returning the filled value, which is what the caller stores.
- The id counters are `private static int` fields. Their 32-bit wrap-around and their sharing between repository instances are not modelled: each store has its own unbounded counter.
- `Collectors.toMap` and `groupingBy` key on the `Item` object. The model keys on the item id; the bookings and comments of one stored item carry that same item.
- ItemService.ItemCatalog.AddComment: the author's name is copied into the comment when it is created. The Java `CommentMapper` reads `comment.getAuthor().getName()` each time a comment is shown, so a later rename of the author shows in the Java listing but not in the model.
- Server `addItem`, `getItemsByOwner` (beyond the page it builds) and item requests, `CommentMapper` and `ItemRequestMapper` (`CommentView` is the comment field copy) are not part of this model.
- UserService.LegacyUserService.UpdateUser: makes every check before it writes, so a DuplicateEmail failure leaves the store unchanged; the code as written renames the user first, which UserService.UpdateAsWritten models (see Findings).
- LegacyItemService.LegacyItemService.GetItemsByOwner: returns an empty list for a known user without items, where the code as written dereferences null; LegacyItemService.ItemsByOwnerAsWritten models that (see Findings).

## Findings

| source | as written | input that shows it | evidently intended | confidence | as-written member | corrected member |
|---|---|---|---|---|---|---|
| src/main/java/ru/practicum/shareit/service/impl/BookingServiceImpl.java:43-44 | `getEnd().isAfter(getStart())` dereferences both dates with no null check, so a missing date throws a null-pointer exception | a request with start = now + 1 and no end | WrongDates, as the service's tests expect for a missing date | high (not executed) | BookingService.MissingEndIsNotWrongDatesAsWritten | BookingService.CheckDates |
| src/main/java/ru/practicum/shareit/service/impl/ItemServiceImpl.java:32-35 | the owner index returns `null` for a user with no items, and `.stream()` is called on it | an existing user who owns no item | an empty list | high (not executed) | LegacyItemService.OwnerWithoutItemsAsWritten | LegacyItemService.ItemsByOwner |
| src/main/java/ru/practicum/shareit/service/impl/UserServiceImpl.java:48-56 | the new name is set on the stored user before the email check, so a DuplicateEmail failure leaves the rename in place | users 1 (Ann, ann@mail.com) and 2 (Bob, bob@mail.com); update user 1 with name Carl and email bob@mail.com | the request is rejected and the store is unchanged | medium (not executed) | UserService.RejectedUpdateRenamesAsWritten | UserService.UpdateOutcome |
