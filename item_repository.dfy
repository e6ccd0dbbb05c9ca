/** The in-memory item store of the first service generation: a map from id to
    item, a per-owner index of the items in the order they were saved, and a
    counter that hands out ids. The index lists hold the very objects the map
    holds, so an item edited in place is seen through both; the model keeps
    ids in the index and reads the items from the map, which has that effect. */
module ItemRepository {
  import opened Common
  import opened Model
  import opened Sorting

  /** What findItemByText keeps: an available item whose lower-cased name or
      description contains the lower-cased text. */
  predicate MatchesText(item: Item, text: string)
  {
    item.available && (ContainsIgnoreCase(item.name, text) || ContainsIgnoreCase(item.description, text))
  }

  /** The index invariant over a store whose ids are all at most `lastId`. */
  ghost predicate Indexed(items: map<int, Item>, index: map<int, seq<int>>, lastId: int)
  {
    && (forall id :: id in items ==> items[id].id == id && 0 < id <= lastId)
    && (forall id :: id in items ==> items[id].ownerId in index)
    && (forall o :: o in index ==> index[o] != [] && StrictlyIncreasing(index[o]))
    && (forall o, id :: o in index ==> (id in index[o] <==> id in items && items[id].ownerId == o))
  }

  /** Storing an item under the next id and appending that id to its owner's
      list keeps the index invariant. */
  lemma IndexAppend(items: map<int, Item>, index: map<int, seq<int>>, saved: Item, lastId: int)
    requires Indexed(items, index, lastId - 1) && saved.id == lastId && 0 < lastId
    ensures var list := if saved.ownerId in index then index[saved.ownerId] else [];
      Indexed(items[saved.id := saved], index[saved.ownerId := list + [saved.id]], lastId)
  {
    var o' := saved.ownerId;
    var list := if o' in index then index[o'] else [];
    var items' := items[saved.id := saved];
    var index' := index[o' := list + [saved.id]];
    forall k | 0 <= k < |list| ensures list[k] < saved.id {
      assert list[k] in index[o'];
      assert list[k] in items;
    }
    assert StrictlyIncreasing(index'[o']);
    assert forall id :: id in items' ==> items'[id].id == id && 0 < id <= lastId;
    assert forall id :: id in items' ==> items'[id].ownerId in index';
    assert forall o :: o in index' ==> index'[o] != [] && StrictlyIncreasing(index'[o]);
    forall o, id | o in index' ensures id in index'[o] <==> id in items' && items'[id].ownerId == o {
      if o == o' {
        if id != saved.id {
          assert id in index'[o] <==> id in list;
        }
      } else if id == saved.id {
        assert saved.id !in items;
      }
    }
  }

  class InMemoryItemRepository {
    /** The last id handed out; the next item saved gets `lastId + 1`. */
    var lastId: nat
    var items: map<int, Item>
    /** Owner id to the ids of that owner's items, oldest first. */
    var index: map<int, seq<int>>

    /** Items are stored under their own ids; an owner has an index list exactly
        when it owns an item, and the list holds exactly its items' ids in the
        order they were saved. */
    ghost predicate Valid()
      reads this
    {
      Indexed(items, index, lastId)
    }

    constructor ()
      ensures Valid() && items == map[] && index == map[] && lastId == 0
    {
      lastId := 0;
      items := map[];
      index := map[];
    }

    /** save: the item gets the next id and the given owner, is stored under its
        id and is appended to its owner's list, which is created when absent. */
    method Save(item: Item, userId: int) returns (saved: Item)
      requires Valid()
      modifies this
      ensures Valid()
      ensures saved == item.(id := old(lastId) + 1, ownerId := userId)
      ensures lastId == old(lastId) + 1
      ensures saved.id !in old(items) && forall id :: id in old(items) ==> id < saved.id
      ensures items == old(items)[saved.id := saved]
      ensures index == old(index)[userId := (if userId in old(index) then old(index)[userId] else []) + [saved.id]]
    {
      lastId := lastId + 1;
      saved := item.(id := lastId, ownerId := userId);
      var list := if userId in index then index[userId] else [];
      IndexAppend(items, index, saved, lastId);
      items := items[saved.id := saved];
      index := index[userId := list + [saved.id]];
    }

    /** findById: the stored item, or nothing. */
    method FindById(id: int) returns (r: Option<Item>)
      ensures r.Some? <==> id in items
      ensures r.Some? ==> r.value == items[id]
    {
      r := if id in items then Some(items[id]) else None;
    }

    /** findItemsByOwner: the owner's items oldest first, and nothing (a Java
        null) for a user who owns none. */
    method FindItemsByOwner(userId: int) returns (r: Option<seq<Item>>)
      requires Valid()
      ensures r.None? <==> forall id :: id in items ==> items[id].ownerId != userId
      ensures r.Some? ==> forall it :: it in r.value ==> it in items.Values && it.ownerId == userId
      ensures r.Some? ==> forall id :: id in items && items[id].ownerId == userId ==> items[id] in r.value
      ensures r.Some? ==> forall i, j :: 0 <= i < j < |r.value| ==> r.value[i].id < r.value[j].id
    {
      var m := items;
      if userId !in index {
        return None;
      }
      var ids := index[userId];
      assert ids[0] in ids;
      var list := seq(|ids|, k requires 0 <= k < |ids| => m[ids[k]]);
      assert forall k :: 0 <= k < |ids| ==> list[k].id == ids[k];
      forall id | id in m && m[id].ownerId == userId ensures m[id] in list {
        assert id in ids;
        var k :| 0 <= k < |ids| && ids[k] == id;
        assert list[k] == m[id];
      }
      r := Some(list);
    }

    /** findItemByText: exactly the matching items, in id order. */
    method FindItemByText(text: string) returns (r: seq<Item>)
      requires Valid()
      ensures forall it :: it in r <==> it in items.Values && MatchesText(it, text)
      ensures NoDuplicates(r)
    {
      assert Injective(items);
      r := Filter(InIdOrder(items), it => MatchesText(it, text));
    }

    /** The setters a service calls on a stored item: its name, description and
        availability change in place, its id and owner do not. */
    method Edit(id: int, name: string, description: string, available: bool)
      requires Valid() && id in items
      modifies this
      ensures Valid()
      ensures items == old(items)[id := old(items)[id].(name := name, description := description, available := available)]
      ensures index == old(index) && lastId == old(lastId)
    {
      items := items[id := items[id].(name := name, description := description, available := available)];
    }
  }
}
