/** The item service of the first service generation, over the in-memory item
    store and the user service. */
module LegacyItemService {
  import opened Common
  import opened Model
  import opened Sorting
  import ItemMapper
  import ItemRepository
  import UserService
  import ItemService

  /** getItemsByOwner as written: the owner lookup's null is streamed over, so a
      known user who owns nothing makes the call dereference null. */
  function ItemsByOwnerAsWritten(userKnown: bool, owned: Option<seq<Item>>): (r: Result<seq<ItemDtoOut>>)
    ensures !userKnown ==> r == Failure(EntityNotFound)
    ensures userKnown && owned.None? ==> r == Failure(NullDereference)
    ensures userKnown && owned.Some? ==> r.Success? && |r.value| == |owned.value|
  {
    if !userKnown then Failure(EntityNotFound)
    else if owned.None? then Failure(NullDereference)
    else Success(MapSeq(owned.value, ItemMapper.ToDto))
  }

  /** getItemsByOwner as intended: a known user who owns nothing has an empty list. */
  function ItemsByOwner(userKnown: bool, owned: Option<seq<Item>>): (r: Result<seq<ItemDtoOut>>)
    ensures r.Success? <==> userKnown
    ensures !userKnown ==> r == Failure(EntityNotFound)
    ensures userKnown && owned.None? ==> r == Success([])
    ensures userKnown && owned.Some? ==>
      |r.value| == |owned.value| && forall k :: 0 <= k < |owned.value| ==> r.value[k] == ItemMapper.ToDto(owned.value[k])
  {
    if !userKnown then Failure(EntityNotFound)
    else if owned.None? then Success([])
    else Success(MapSeq(owned.value, ItemMapper.ToDto))
  }

  /** The two differ exactly on a known user who owns nothing. */
  lemma OwnerWithoutItemsAsWritten(userKnown: bool, owned: Option<seq<Item>>)
    ensures ItemsByOwnerAsWritten(userKnown, owned) != ItemsByOwner(userKnown, owned) <==> userKnown && owned.None?
  {
  }

  class LegacyItemService {
    const store: ItemRepository.InMemoryItemRepository
    const users: UserService.LegacyUserService

    ghost predicate Valid()
      reads this, store, users, users.repo
    {
      store.Valid() && users.Valid()
    }

    constructor (store: ItemRepository.InMemoryItemRepository, users: UserService.LegacyUserService)
      requires store.Valid() && users.Valid()
      ensures Valid() && this.store == store && this.users == users
    {
      this.store := store;
      this.users := users;
    }

    /** findById: the stored item, or EntityNotFound. */
    method FindById(itemId: int) returns (r: Result<ItemDtoOut>)
      ensures r.Success? <==> itemId in store.items
      ensures r.Failure? ==> r.error == EntityNotFound
      ensures r.Success? ==> r.value == ItemMapper.ToDto(store.items[itemId])
    {
      var found := store.FindById(itemId);
      if found.None? {
        return Failure(EntityNotFound);
      }
      r := Success(ItemMapper.ToDto(found.value));
    }

    /** getItemsByOwner: the user must exist; its items follow, oldest first. */
    method GetItemsByOwner(userId: int) returns (r: Result<seq<ItemDtoOut>>)
      requires Valid()
      ensures r.Success? <==> userId in users.repo.users
      ensures r.Failure? ==> r.error == EntityNotFound
      ensures r.Success? ==> forall d :: d in r.value ==>
        exists it :: it in store.items.Values && it.ownerId == userId && d == ItemMapper.ToDto(it)
      ensures r.Success? ==> forall id :: id in store.items && store.items[id].ownerId == userId ==>
        ItemMapper.ToDto(store.items[id]) in r.value
      ensures r.Success? ==> forall i, j :: 0 <= i < j < |r.value| ==> r.value[i].id < r.value[j].id
    {
      var user := users.GetUserById(userId);
      var owned := store.FindItemsByOwner(userId);
      r := ItemsByOwner(user.Success?, owned);
      if r.Success? && owned.Some? {
        forall d | d in r.value
          ensures exists it :: it in store.items.Values && it.ownerId == userId && d == ItemMapper.ToDto(it)
        {
          var k :| 0 <= k < |r.value| && r.value[k] == d;
          assert owned.value[k] in owned.value;
        }
        forall id | id in store.items && store.items[id].ownerId == userId
          ensures ItemMapper.ToDto(store.items[id]) in r.value
        {
          var k :| 0 <= k < |owned.value| && owned.value[k] == store.items[id];
          assert r.value[k] == ItemMapper.ToDto(store.items[id]);
        }
      }
    }

    /** getItemByText: blank text gives an empty list; otherwise the matches. */
    method GetItemByText(text: string) returns (r: seq<ItemDtoOut>)
      requires Valid()
      ensures IsBlank(text) ==> r == []
      ensures !IsBlank(text) ==> forall d :: d in r <==>
        exists it :: it in store.items.Values && ItemRepository.MatchesText(it, text) && d == ItemMapper.ToDto(it)
      ensures NoDuplicates(r)
    {
      if IsBlank(text) {
        return [];
      }
      var found := store.FindItemByText(text);
      ItemService.ItemDtosDistinct(store.items, found);
      r := MapSeq(found, ItemMapper.ToDto);
    }

    /** addItem: the user must exist; the item is saved under the next id with
        the user as owner. */
    method AddItem(d: ItemDto, userId: int) returns (r: Result<ItemDtoOut>)
      requires Valid() && d.available.Some?
      modifies store
      ensures Valid()
      ensures userId !in users.repo.users ==>
        r == Failure(EntityNotFound) && store.items == old(store.items) && store.index == old(store.index)
        && store.lastId == old(store.lastId)
      ensures userId in users.repo.users ==>
        var saved := ItemMapper.ToItem(d).(id := old(store.lastId) + 1, ownerId := userId);
        && r == Success(ItemMapper.ToDto(saved))
        && store.items == old(store.items)[saved.id := saved]
        && store.lastId == old(store.lastId) + 1
    {
      var user := users.GetUserById(userId);
      if user.Failure? {
        return Failure(EntityNotFound);
      }
      var saved := store.Save(ItemMapper.ToItem(d), userId);
      r := Success(ItemMapper.ToDto(saved));
    }

    /** updateItem: the user, then the item, must exist; only the owner may
        edit, and the edit is made on the stored item. */
    method UpdateItem(itemId: int, d: ItemDto, userId: int) returns (r: Result<ItemDtoOut>)
      requires Valid()
      modifies store
      ensures Valid()
      ensures userId !in users.repo.users ==> r == Failure(EntityNotFound)
      ensures userId in users.repo.users && itemId !in old(store.items) ==> r == Failure(EntityNotFound)
      ensures (userId in users.repo.users && itemId in old(store.items) && old(store.items)[itemId].ownerId != userId) ==>
        r == Failure(WrongOwner)
      ensures r.Success? <==>
        userId in users.repo.users && itemId in old(store.items) && old(store.items)[itemId].ownerId == userId
      ensures r.Success? ==>
        var item := ItemService.Patched(old(store.items)[itemId], d);
        r.value == ItemMapper.ToDto(item) && store.items == old(store.items)[itemId := item]
      ensures r.Failure? ==> store.items == old(store.items)
      ensures store.index == old(store.index) && store.lastId == old(store.lastId)
    {
      var user := users.GetUserById(userId);
      if user.Failure? {
        return Failure(EntityNotFound);
      }
      var found := store.FindById(itemId);
      if found.None? {
        return Failure(EntityNotFound);
      }
      var item := found.value;
      if item.ownerId != userId {
        return Failure(WrongOwner);
      }
      var name := if Replaces(d.name) then d.name else item.name;
      var description := if Replaces(d.description) then d.description else item.description;
      var available := if d.available.Some? then d.available.value else item.available;
      store.Edit(itemId, name, description, available);
      r := Success(ItemMapper.ToDto(store.items[itemId]));
    }
  }
}
