/** The item service of the server: an item listing annotated with its last
    and next approved booking and its comments (for one item and for an
    owner's page of items), the owner-gated partial update, the search and
    the comment guard. */
module ItemService {
  import opened Common
  import opened Model
  import opened Sorting
  import ItemMapper
  import BookingMapper
  import BookingService
  import ItemRepository

  // ---------------------------------------------------------------- last and next booking

  /** An approved booking of the item that has started by now. */
  predicate LastCandidate(b: Booking, itemId: int, now: int)
  {
    b.item.id == itemId && b.start <= now && b.status == Approved
  }

  /** An approved booking of the item that starts after now. */
  predicate NextCandidate(b: Booking, itemId: int, now: int)
  {
    b.item.id == itemId && b.start > now && b.status == Approved
  }

  /** `b` is a last booking of the item: a candidate with the latest end. */
  predicate IsLast(b: Booking, bookings: map<int, Booking>, itemId: int, now: int)
  {
    && b in bookings.Values && LastCandidate(b, itemId, now)
    && forall c :: c in bookings.Values && LastCandidate(c, itemId, now) ==> c.end <= b.end
  }

  /** `b` is a next booking of the item: a candidate with the earliest end. */
  predicate IsNext(b: Booking, bookings: map<int, Booking>, itemId: int, now: int)
  {
    && b in bookings.Values && NextCandidate(b, itemId, now)
    && forall c :: c in bookings.Values && NextCandidate(c, itemId, now) ==> b.end <= c.end
  }

  /** Ascending by end is descending by the negated end. */
  function NegatedEnd(b: Booking): int { -b.end }

  /** findFirstByItemIdAndStartLessThanEqualAndStatus(.., APPROVED, Sort.by(DESC, "end")). */
  function LastBooking(bookings: map<int, Booking>, itemId: int, now: int): (r: Option<Booking>)
    ensures r.None? <==> forall b :: b in bookings.Values ==> !LastCandidate(b, itemId, now)
    ensures r.Some? ==> IsLast(r.value, bookings, itemId, now)
  {
    var found := SortDesc(Filter(InIdOrder(bookings), b => LastCandidate(b, itemId, now)), BookingService.EndOf);
    if found == [] then None
    else
      assert found[0] in found;
      assert forall c :: c in bookings.Values && LastCandidate(c, itemId, now) ==> c.end <= found[0].end by {
        forall c | c in bookings.Values && LastCandidate(c, itemId, now) ensures c.end <= found[0].end {
          HeadIsMax(found, BookingService.EndOf);
        }
      }
      Some(found[0])
  }

  /** findFirstByItemIdAndStartAfterAndStatus(.., APPROVED, Sort.by(ASC, "end")). */
  function NextBooking(bookings: map<int, Booking>, itemId: int, now: int): (r: Option<Booking>)
    ensures r.None? <==> forall b :: b in bookings.Values ==> !NextCandidate(b, itemId, now)
    ensures r.Some? ==> IsNext(r.value, bookings, itemId, now)
  {
    var found := SortDesc(Filter(InIdOrder(bookings), b => NextCandidate(b, itemId, now)), NegatedEnd);
    if found == [] then None
    else
      assert found[0] in found;
      assert forall c :: c in bookings.Values && NextCandidate(c, itemId, now) ==> found[0].end <= c.end by {
        forall c | c in bookings.Values && NextCandidate(c, itemId, now) ensures found[0].end <= c.end {
          HeadIsMax(found, NegatedEnd);
        }
      }
      Some(found[0])
  }

  function ShortView(b: Option<Booking>): (r: Option<BookingDto>)
    ensures r.Some? <==> b.Some?
    ensures r.Some? ==> r.value == BookingMapper.ToBookingDtoShort(b.value)
  {
    match b
    case None => None
    case Some(x) => Some(BookingMapper.ToBookingDtoShort(x))
  }

  /** The owner's view of the last booking of an item. */
  function LastView(bookings: map<int, Booking>, itemId: int, now: int): (r: Option<BookingDto>)
    ensures r.None? <==> forall b :: b in bookings.Values ==> !LastCandidate(b, itemId, now)
    ensures r.Some? ==> exists b :: IsLast(b, bookings, itemId, now) && r.value == BookingMapper.ToBookingDtoShort(b)
  {
    var last := LastBooking(bookings, itemId, now);
    assert last.Some? ==> IsLast(last.value, bookings, itemId, now);
    ShortView(last)
  }

  /** The owner's view of the next booking of an item. */
  function NextView(bookings: map<int, Booking>, itemId: int, now: int): (r: Option<BookingDto>)
    ensures r.None? <==> forall b :: b in bookings.Values ==> !NextCandidate(b, itemId, now)
    ensures r.Some? ==> exists b :: IsNext(b, bookings, itemId, now) && r.value == BookingMapper.ToBookingDtoShort(b)
  {
    var next := NextBooking(bookings, itemId, now);
    assert next.Some? ==> IsNext(next.value, bookings, itemId, now);
    ShortView(next)
  }

  function CommentView(c: Comment): CommentDto
  {
    CommentDto(c.id, c.text, c.authorName, c.created)
  }

  predicate OfItem(c: Comment, itemId: int)
  {
    c.itemId == itemId
  }

  /** Two comments of a store keyed by id that look the same are the same
      comment: the view carries the id. */
  lemma CommentViewsDistinct(comments: map<int, Comment>, cs: seq<Comment>)
    requires CommentsKeyed(comments) && NoDuplicates(cs) && forall c :: c in cs ==> c in comments.Values
    ensures NoDuplicates(MapSeq(cs, CommentView))
  {
    forall a, b | a in cs && b in cs && CommentView(a) == CommentView(b) ensures a == b {
      ValueHasKey(comments, a);
      ValueHasKey(comments, b);
    }
  }

  /** Two items of a store keyed by id with the same transfer object are the
      same item. */
  lemma ItemDtosDistinct(items: map<int, Item>, its: seq<Item>)
    requires ItemsKeyed(items) && NoDuplicates(its) && forall it :: it in its ==> it in items.Values
    ensures NoDuplicates(MapSeq(its, ItemMapper.ToDto))
  {
    forall a, b | a in its && b in its && ItemMapper.ToDto(a) == ItemMapper.ToDto(b) ensures a == b {
      ValueHasKey(items, a);
      ValueHasKey(items, b);
    }
  }

  /** findAllByItemId, mapped to transfer objects: exactly the item's comments,
      each once. */
  function ItemComments(comments: map<int, Comment>, itemId: int): (r: seq<CommentDto>)
    ensures forall c :: c in r <==> exists x :: x in comments.Values && OfItem(x, itemId) && c == CommentView(x)
    ensures CommentsKeyed(comments) ==> NoDuplicates(r)
  {
    var own := Filter(InIdOrder(comments), c => OfItem(c, itemId));
    if CommentsKeyed(comments) then
      assert Injective(comments);
      CommentViewsDistinct(comments, own);
      MapSeq(own, CommentView)
    else MapSeq(own, CommentView)
  }

  /** addBookingsAndComments: the owner sees the last and next booking, anyone
      else sees neither; everyone sees the item's comments. */
  function AddBookingsAndComments(item: Item, userId: int, bookings: map<int, Booking>,
                                  comments: map<int, Comment>, now: int): (d: ItemDtoOut)
    ensures d.id == item.id && d.name == item.name && d.description == item.description
    ensures d.available == item.available && d.ownerId == item.ownerId
    ensures item.ownerId != userId ==> d.lastBooking == None && d.nextBooking == None
    ensures item.ownerId == userId ==> d.lastBooking == LastView(bookings, item.id, now)
    ensures item.ownerId == userId ==> d.nextBooking == NextView(bookings, item.id, now)
    ensures d.comments == Some(ItemComments(comments, item.id))
  {
    var dto := ItemMapper.ToDto(item);
    var withBookings :=
      if dto.ownerId == userId then
        dto.(lastBooking := LastView(bookings, item.id, now), nextBooking := NextView(bookings, item.id, now))
      else dto;
    withBookings.(comments := Some(ItemComments(comments, item.id)))
  }

  /** getItemById. */
  function ItemById(items: map<int, Item>, bookings: map<int, Booking>, comments: map<int, Comment>,
                    itemId: int, userId: int, now: int): (r: Result<ItemDtoOut>)
    ensures r.Success? <==> itemId in items
    ensures r.Failure? ==> r.error == EntityNotFound
    ensures r.Success? ==> r.value.id == items[itemId].id && r.value.comments.Some?
    ensures r.Success? && items[itemId].ownerId != userId ==> r.value.lastBooking == None && r.value.nextBooking == None
    ensures r.Success? ==> r.value == AddBookingsAndComments(items[itemId], userId, bookings, comments, now)
  {
    if itemId in items then Success(AddBookingsAndComments(items[itemId], userId, bookings, comments, now))
    else Failure(EntityNotFound)
  }

  // ---------------------------------------------------------------- a page of items

  /** Collectors.toMap(Booking::getItem, identity(), (o1, o2) -> o1): walking
      the list in order, the first booking seen for an item is kept. */
  function FirstPerItem(bs: seq<Booking>): (m: map<int, Booking>)
    ensures forall i :: i in m <==> exists b :: b in bs && b.item.id == i
    ensures forall i :: i in m ==> m[i] in bs && m[i].item.id == i
    ensures bs != [] ==> m[bs[0].item.id] == bs[0]
  {
    if bs == [] then map[]
    else
      var rest := FirstPerItem(bs[1..]);
      assert forall b :: b in bs[1..] ==> b in bs;
      assert forall b :: b in bs && b != bs[0] ==> b in bs[1..];
      rest[bs[0].item.id := bs[0]]
  }

  /** The first-wins merge keeps, for each item, the booking at the item's
      first position in the list. */
  lemma {:induction false} FirstPerItemKeepsFirst(bs: seq<Booking>, j: int)
    requires 0 <= j < |bs| && forall k :: 0 <= k < j ==> bs[k].item.id != bs[j].item.id
    ensures FirstPerItem(bs)[bs[j].item.id] == bs[j]
  {
    if j > 0 {
      var tail := bs[1..];
      assert tail[j - 1] == bs[j];
      forall k | 0 <= k < j - 1 ensures tail[k].item.id != tail[j - 1].item.id {
        assert tail[k] == bs[k + 1];
      }
      FirstPerItemKeepsFirst(tail, j - 1);
      assert bs[0].item.id != bs[j].item.id;
    }
  }

  /** Over a list sorted by a descending key, the booking kept for an item is
      one with the greatest key among that item's bookings. */
  lemma {:induction false} FirstPerItemIsExtremal(bs: seq<Booking>, key: Booking -> int, i: int)
    requires SortedDesc(bs, key) && i in FirstPerItem(bs)
    ensures forall b :: b in bs && b.item.id == i ==> key(b) <= key(FirstPerItem(bs)[i])
  {
    var first := FirstPerItem(bs);
    if bs[0].item.id == i {
      assert first[i] == bs[0];
      HeadIsMax(bs, key);
    } else {
      var tail := bs[1..];
      var rest := FirstPerItem(tail);
      assert first[i] == rest[i];
      FirstPerItemIsExtremal(tail, key, i);
      forall b | b in bs && b.item.id == i ensures key(b) <= key(first[i]) {
        assert b in tail;
      }
    }
  }

  /** Collectors.groupingBy(Comment::getItem, toList()): each item's comments
      in the order of the list. */
  function GroupByItem(cs: seq<Comment>): (m: map<int, seq<Comment>>)
    ensures forall i :: i in m <==> exists c :: c in cs && c.itemId == i
    ensures forall i :: i in m ==> m[i] != [] && forall c :: c in m[i] <==> c in cs && c.itemId == i
  {
    if cs == [] then map[]
    else
      var tail := cs[1..];
      var rest := GroupByItem(tail);
      var i := cs[0].itemId;
      var group := [cs[0]] + (if i in rest then rest[i] else []);
      assert forall c :: c in cs <==> c == cs[0] || c in tail;
      assert forall c :: c in group <==> c == cs[0] || (i in rest && c in rest[i]);
      rest[i := group]
  }

  /** getOrDefault(item, emptyList()). */
  function GroupOf(groups: map<int, seq<Comment>>, itemId: int): seq<Comment>
  {
    if itemId in groups then groups[itemId] else []
  }

  /** Grouping then looking an item up gives the item's comments in list order. */
  lemma {:induction false} GroupIsFilter(cs: seq<Comment>, itemId: int, p: Comment -> bool)
    requires forall c :: p(c) <==> OfItem(c, itemId)
    ensures GroupOf(GroupByItem(cs), itemId) == Filter(cs, p)
  {
    if cs != [] {
      GroupIsFilter(cs[1..], itemId, p);
    }
  }

  /** The three lookups the page is assembled from, one query each for all items. */
  datatype Lookups = Lookups(last: map<int, Booking>, next: map<int, Booking>, comments: map<int, seq<Comment>>)

  function IdsOf(items: seq<Item>): set<int>
  {
    set it | it in items :: it.id
  }

  predicate LastInPage(b: Booking, ids: set<int>, now: int)
  {
    b.item.id in ids && b.start <= now && b.status == Approved
  }

  predicate NextInPage(b: Booking, ids: set<int>, now: int)
  {
    b.item.id in ids && b.start > now && b.status == Approved
  }

  function CreatedOf(c: Comment): int { c.created }

  /** findByItemInAndStartLessThanEqualAndStatus(.., Sort.by(DESC, "end")). */
  function LastOfPage(bookings: map<int, Booking>, ids: set<int>, now: int): (r: seq<Booking>)
    ensures SortedDesc(r, BookingService.EndOf)
    ensures forall b :: b in r <==> b in bookings.Values && LastInPage(b, ids, now)
    ensures BookingsKeyed(bookings) ==> NoDuplicates(r)
  {
    assert BookingsKeyed(bookings) ==> Injective(bookings);
    SortDesc(Filter(InIdOrder(bookings), b => LastInPage(b, ids, now)), BookingService.EndOf)
  }

  /** findByItemInAndStartAfterAndStatus(.., Sort.by(ASC, "end")). */
  function NextOfPage(bookings: map<int, Booking>, ids: set<int>, now: int): (r: seq<Booking>)
    ensures SortedDesc(r, NegatedEnd)
    ensures forall b :: b in r <==> b in bookings.Values && NextInPage(b, ids, now)
    ensures BookingsKeyed(bookings) ==> NoDuplicates(r)
  {
    assert BookingsKeyed(bookings) ==> Injective(bookings);
    SortDesc(Filter(InIdOrder(bookings), b => NextInPage(b, ids, now)), NegatedEnd)
  }

  /** findByItemIn(.., Sort.by(DESC, "created")). */
  function CommentsOfPage(comments: map<int, Comment>, ids: set<int>): (r: seq<Comment>)
    ensures SortedDesc(r, CreatedOf)
    ensures forall c :: c in r <==> c in comments.Values && c.itemId in ids
    ensures CommentsKeyed(comments) ==> NoDuplicates(r)
  {
    assert CommentsKeyed(comments) ==> Injective(comments);
    SortDesc(Filter(InIdOrder(comments), (c: Comment) => c.itemId in ids), CreatedOf)
  }

  function PageLookups(items: seq<Item>, bookings: map<int, Booking>, comments: map<int, Comment>, now: int): Lookups
  {
    var ids := IdsOf(items);
    Lookups(FirstPerItem(LastOfPage(bookings, ids, now)),
            FirstPerItem(NextOfPage(bookings, ids, now)),
            GroupByItem(CommentsOfPage(comments, ids)))
  }

  /** One entry of the page: the item's fields, its bookings when the lookups
      hold one for it, and its comments (empty when it has none). */
  function PageEntry(item: Item, l: Lookups): ItemDtoOut
  {
    var dto := ItemMapper.ToDto(item);
    var last := if item.id in l.last then Some(l.last[item.id]) else None;
    var next := if item.id in l.next then Some(l.next[item.id]) else None;
    dto.(lastBooking := ShortView(last), nextBooking := ShortView(next),
         comments := Some(MapSeq(GroupOf(l.comments, item.id), CommentView)))
  }

  /** The loop of addBookingsAndCommentsForList: one entry per item, in the
      order given, each filled from the lookups. */
  method FillPage(items: seq<Item>, l: Lookups) returns (out: seq<ItemDtoOut>)
    ensures |out| == |items|
    ensures forall k :: 0 <= k < |items| ==> out[k] == PageEntry(items[k], l)
  {
    out := [];
    for k := 0 to |items|
      invariant |out| == k
      invariant forall j :: 0 <= j < k ==> out[j] == PageEntry(items[j], l)
    {
      var item := items[k];
      var dto := ItemMapper.ToDto(item);
      if l.last != map[] && item.id in l.last {
        dto := dto.(lastBooking := Some(BookingMapper.ToBookingDtoShort(l.last[item.id])));
      }
      if l.next != map[] && item.id in l.next {
        dto := dto.(nextBooking := Some(BookingMapper.ToBookingDtoShort(l.next[item.id])));
      }
      dto := dto.(comments := Some(MapSeq(GroupOf(l.comments, item.id), CommentView)));
      out := out + [dto];
    }
  }

  /** addBookingsAndCommentsForList: the three lookups for all items, then the loop. */
  method AddBookingsAndCommentsForList(items: seq<Item>, bookings: map<int, Booking>,
                                       comments: map<int, Comment>, now: int) returns (out: seq<ItemDtoOut>)
    ensures |out| == |items|
    ensures forall k :: 0 <= k < |items| ==> out[k] == PageEntry(items[k], PageLookups(items, bookings, comments, now))
  {
    var ids := IdsOf(items);
    var l := Lookups(FirstPerItem(LastOfPage(bookings, ids, now)),
                     FirstPerItem(NextOfPage(bookings, ids, now)),
                     GroupByItem(CommentsOfPage(comments, ids)));
    out := FillPage(items, l);
  }

  /** What a page entry holds: the last and next booking are present exactly
      when the item has a candidate, and each is an extremal one; the comments
      are the item's own, latest first. */
  lemma PageEntryMeaning(items: seq<Item>, bookings: map<int, Booking>, comments: map<int, Comment>,
                         now: int, item: Item)
    requires item in items
    ensures var d := PageEntry(item, PageLookups(items, bookings, comments, now));
      && (d.lastBooking.None? <==> forall b :: b in bookings.Values ==> !LastCandidate(b, item.id, now))
      && (d.lastBooking.Some? ==>
            exists b :: IsLast(b, bookings, item.id, now) && d.lastBooking.value == BookingMapper.ToBookingDtoShort(b))
      && (d.nextBooking.None? <==> forall b :: b in bookings.Values ==> !NextCandidate(b, item.id, now))
      && (d.nextBooking.Some? ==>
            exists b :: IsNext(b, bookings, item.id, now) && d.nextBooking.value == BookingMapper.ToBookingDtoShort(b))
  {
    var ids := IdsOf(items);
    assert item.id in ids;
    var lastList := LastOfPage(bookings, ids, now);
    var nextList := NextOfPage(bookings, ids, now);
    var l := PageLookups(items, bookings, comments, now);
    assert forall b :: LastCandidate(b, item.id, now) ==> LastInPage(b, ids, now);
    assert forall b :: NextCandidate(b, item.id, now) ==> NextInPage(b, ids, now);
    if item.id in l.last {
      FirstPerItemIsExtremal(lastList, BookingService.EndOf, item.id);
      assert IsLast(l.last[item.id], bookings, item.id, now);
    }
    if item.id in l.next {
      FirstPerItemIsExtremal(nextList, NegatedEnd, item.id);
      assert IsNext(l.next[item.id], bookings, item.id, now);
    }
  }

  /** An item's group of the page's comments: the item's own comments, latest
      first, each once when the store is keyed by id. */
  lemma {:induction false} GroupedComments(comments: map<int, Comment>, ids: set<int>, itemId: int)
    requires itemId in ids
    ensures var own := GroupOf(GroupByItem(CommentsOfPage(comments, ids)), itemId);
      && SortedDesc(own, CreatedOf)
      && (forall c :: c in own <==> c in comments.Values && c.itemId == itemId)
      && (CommentsKeyed(comments) ==> NoDuplicates(own) && NoDuplicates(MapSeq(own, CommentView)))
  {
    var page := CommentsOfPage(comments, ids);
    var p := (c: Comment) => OfItem(c, itemId);
    GroupIsFilter(page, itemId, p);
    FilterKeepsSorted(page, p, CreatedOf);
    if CommentsKeyed(comments) {
      CommentViewsDistinct(comments, Filter(page, p));
    }
  }

  /** The comments of a page entry are the item's comments, latest first, each
      once when the store is keyed by id. */
  lemma PageCommentsMeaning(items: seq<Item>, bookings: map<int, Booking>, comments: map<int, Comment>,
                            now: int, item: Item)
    requires item in items
    ensures var l := PageLookups(items, bookings, comments, now);
      var own := GroupOf(l.comments, item.id);
      && SortedDesc(own, CreatedOf)
      && (forall c :: c in own <==> c in comments.Values && c.itemId == item.id)
      && PageEntry(item, l).comments == Some(MapSeq(own, CommentView))
      && (CommentsKeyed(comments) ==> NoDuplicates(own) && NoDuplicates(MapSeq(own, CommentView)))
  {
    GroupedComments(comments, IdsOf(items), item.id);
  }

  /** The page and the single-item view agree on the end of the last and of
      the next booking (ties between equal ends may pick different bookings). */
  lemma PageAgreesWithSingleView(items: seq<Item>, bookings: map<int, Booking>, comments: map<int, Comment>,
                                 now: int, item: Item)
    requires item in items
    ensures var d := PageEntry(item, PageLookups(items, bookings, comments, now));
      var single := AddBookingsAndComments(item, item.ownerId, bookings, comments, now);
      && d.lastBooking.Some? == single.lastBooking.Some?
      && (d.lastBooking.Some? ==> d.lastBooking.value.end == single.lastBooking.value.end)
      && d.nextBooking.Some? == single.nextBooking.Some?
      && (d.nextBooking.Some? ==> d.nextBooking.value.end == single.nextBooking.value.end)
  {
    PageEntryMeaning(items, bookings, comments, now, item);
  }

  // ---------------------------------------------------------------- edits, search, comments

  /** The partial update: name and description only by non-blank values,
      availability only when present; id and owner are never touched. */
  function Patched(item: Item, d: ItemDto): (r: Item)
    ensures r.name == (if Replaces(d.name) then d.name else item.name)
    ensures r.description == (if Replaces(d.description) then d.description else item.description)
    ensures r.available == (if d.available.Some? then d.available.value else item.available)
    ensures r.id == item.id && r.ownerId == item.ownerId
  {
    var r := item;
    var r := if Replaces(d.name) then r.(name := d.name) else r;
    var r := if Replaces(d.description) then r.(description := d.description) else r;
    if d.available.Some? then r.(available := d.available.value) else r
  }

  /** Applying the same patch twice is applying it once. */
  lemma PatchIdempotent(item: Item, d: ItemDto)
    ensures Patched(Patched(item, d), d) == Patched(item, d)
  {
  }

  /** A payload with nothing to replace leaves the item as it was. */
  lemma EmptyPatchKeepsItem(item: Item, d: ItemDto)
    requires IsBlank(d.name) && IsBlank(d.description) && d.available.None?
    ensures Patched(item, d) == item
  {
  }

  /** updateItem: the user, then the item, must exist; only the owner may edit. */
  function UpdateOutcome(users: map<int, User>, items: map<int, Item>, itemId: int,
                         d: ItemDto, userId: int): (r: Result<Item>)
    ensures userId !in users ==> r == Failure(EntityNotFound)
    ensures userId in users && itemId !in items ==> r == Failure(EntityNotFound)
    ensures (userId in users && itemId in items && items[itemId].ownerId != userId) ==> r == Failure(NotOwner)
    ensures r.Success? <==> userId in users && itemId in items && items[itemId].ownerId == userId
    ensures r.Success? ==> r.value == Patched(items[itemId], d)
  {
    if userId !in users then Failure(EntityNotFound)
    else if itemId !in items then Failure(EntityNotFound)
    else if items[itemId].ownerId != userId then Failure(NotOwner)
    else Success(Patched(items[itemId], d))
  }

  /** getItemBySearch: blank text gives an empty list without a query. */
  function ItemBySearch(items: map<int, Item>, text: string): (r: seq<ItemDtoOut>)
    ensures IsBlank(text) ==> r == []
    ensures !IsBlank(text) ==> forall d :: d in r <==>
      exists it :: it in items.Values && ItemRepository.MatchesText(it, text) && d == ItemMapper.ToDto(it)
    ensures ItemsKeyed(items) ==> NoDuplicates(r)
  {
    if IsBlank(text) then []
    else
      var found := Filter(InIdOrder(items), it => ItemRepository.MatchesText(it, text));
      if ItemsKeyed(items) then
        assert Injective(items);
        ItemDtosDistinct(items, found);
        MapSeq(found, ItemMapper.ToDto)
      else MapSeq(found, ItemMapper.ToDto)
  }

  /** existsByBookerIdAndItemIdAndEndBefore: the user has a booking of the item
      that ended before now, whatever its status. */
  predicate UsedBefore(bookings: map<int, Booking>, userId: int, itemId: int, now: int)
  {
    exists b :: b in bookings.Values && b.booker.id == userId && b.item.id == itemId && b.end < now
  }

  /** The item service over its stores; comments receive ids after `lastCommentId`. */
  class ItemCatalog {
    var users: map<int, User>
    var items: map<int, Item>
    var bookings: map<int, Booking>
    var comments: map<int, Comment>
    var lastCommentId: nat

    ghost predicate Valid()
      reads this
    {
      forall id :: id in comments ==> comments[id].id == id && 0 < id <= lastCommentId
    }

    constructor (users: map<int, User>, items: map<int, Item>, bookings: map<int, Booking>)
      ensures Valid()
      ensures this.users == users && this.items == items && this.bookings == bookings
      ensures comments == map[] && lastCommentId == 0
    {
      this.users := users;
      this.items := items;
      this.bookings := bookings;
      comments := map[];
      lastCommentId := 0;
    }

    /** updateItem: the owner's edit is applied to the stored item in place. */
    method UpdateItem(itemId: int, d: ItemDto, userId: int) returns (r: Result<ItemDtoOut>)
      requires Valid()
      modifies this
      ensures Valid()
      ensures var o := UpdateOutcome(old(users), old(items), itemId, d, userId);
        && (o.Success? ==> r == Success(ItemMapper.ToDto(o.value)) && items == old(items)[itemId := o.value])
        && (o.Failure? ==> r == Failure(o.error) && items == old(items))
      ensures users == old(users) && bookings == old(bookings) && comments == old(comments)
      ensures lastCommentId == old(lastCommentId)
    {
      if userId !in users { return Failure(EntityNotFound); }
      if itemId !in items { return Failure(EntityNotFound); }
      var item := items[itemId];
      if item.ownerId != userId { return Failure(NotOwner); }
      if Replaces(d.name) { item := item.(name := d.name); }
      if Replaces(d.description) { item := item.(description := d.description); }
      if d.available.Some? { item := item.(available := d.available.value); }
      items := items[itemId := item];
      r := Success(ItemMapper.ToDto(item));
    }

    /** addComment: only a user who has used the item may comment; the comment
        is stamped with `now` and signed with the author's name. */
    method AddComment(itemId: int, d: CommentDto, userId: int, now: int) returns (r: Result<CommentDto>)
      requires Valid()
      modifies this
      ensures Valid()
      ensures userId !in old(users) ==> r == Failure(EntityNotFound)
      ensures userId in old(users) && itemId !in old(items) ==> r == Failure(EntityNotFound)
      ensures (userId in old(users) && itemId in old(items) &&
               !UsedBefore(old(bookings), old(users)[userId].id, old(items)[itemId].id, now)) ==>
                r == Failure(NotBooker)
      ensures r.Success? <==>
        userId in old(users) && itemId in old(items) &&
        UsedBefore(old(bookings), old(users)[userId].id, old(items)[itemId].id, now)
      ensures r.Success? ==>
        && r.value == CommentDto(old(lastCommentId) + 1, d.text, old(users)[userId].name, now)
        && comments == old(comments)[r.value.id := Comment(r.value.id, d.text, old(items)[itemId].id, old(users)[userId].name, now)]
        && lastCommentId == old(lastCommentId) + 1
      ensures r.Failure? ==> comments == old(comments) && lastCommentId == old(lastCommentId)
      ensures users == old(users) && items == old(items) && bookings == old(bookings)
    {
      if userId !in users { return Failure(EntityNotFound); }
      var user := users[userId];
      if itemId !in items { return Failure(EntityNotFound); }
      var item := items[itemId];
      if !UsedBefore(bookings, user.id, item.id, now) { return Failure(NotBooker); }
      lastCommentId := lastCommentId + 1;
      var comment := Comment(lastCommentId, d.text, item.id, user.name, now);
      comments := comments[lastCommentId := comment];
      r := Success(CommentView(comment));
    }
  }
}
