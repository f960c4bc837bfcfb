/** The in-memory store: an ordered list of entries and the flag that hides
    checked entries. The pure functions give each mutator's effect on the
    list; the class `Store` holds the state and updates it in place. */
module ShoppingStore {
  import opened ShoppingItem
  import opened ArraySplice

  /** The list after flipping `checked` on the first entry with `id`. */
  function ToggleChecked(items: seq<Item>, id: Id): (r: seq<Item>)
    requires Any(items, IdIs(id))
    ensures |r| == |items|
    ensures forall j :: 0 <= j < |items| ==>
      r[j] == if IsFirst(items, j, IdIs(id)) then items[j].(checked := !items[j].checked) else items[j]
  {
    var k := FindIndex(items, IdIs(id));
    forall j | 0 <= j < |items| && IsFirst(items, j, IdIs(id)) ensures j == k {
      FirstIsUnique(items, j, k, IdIs(id));
    }
    items[k := items[k].(checked := !items[k].checked)]
  }

  /** The list after flipping `editing` on the first entry with `id`. */
  function ToggleEditing(items: seq<Item>, id: Id): (r: seq<Item>)
    requires Any(items, IdIs(id))
    ensures |r| == |items|
    ensures forall j :: 0 <= j < |items| ==>
      r[j] == if IsFirst(items, j, IdIs(id)) then items[j].(editing := !items[j].editing) else items[j]
  {
    var k := FindIndex(items, IdIs(id));
    forall j | 0 <= j < |items| && IsFirst(items, j, IdIs(id)) ensures j == k {
      FirstIsUnique(items, j, k, IdIs(id));
    }
    items[k := items[k].(editing := !items[k].editing)]
  }

  /** The list after renaming the first entry whose `editing` flag is set. */
  function RenameEditing(items: seq<Item>, newName: string): (r: seq<Item>)
    requires Any(items, IsEditing)
    ensures |r| == |items|
    ensures forall j :: 0 <= j < |items| ==>
      r[j] == if IsFirst(items, j, IsEditing) then items[j].(name := newName) else items[j]
  {
    var k := FindIndex(items, IsEditing);
    forall j | 0 <= j < |items| && IsFirst(items, j, IsEditing) ensures j == k {
      FirstIsUnique(items, j, k, IsEditing);
    }
    items[k := items[k].(name := newName)]
  }

  /** The list after `splice(findIndex(item.id === id), 1)`. */
  function Deleted(items: seq<Item>, id: Id): (r: seq<Item>)
    ensures Any(items, IdIs(id)) ==> |r| == |items| - 1
    ensures !Any(items, IdIs(id)) ==> |r| == if items == [] then 0 else |items| - 1
  {
    var k := FindIndex(items, IdIs(id));
    Splice(items, k, 1)
  }

  /** Deleting a present identifier removes exactly the first entry carrying it
      and keeps the others in their order. */
  lemma DeletePresent(items: seq<Item>, id: Id, k: int)
    requires IsFirst(items, k, IdIs(id))
    ensures Deleted(items, id) == items[..k] + items[k + 1..]
  {
    var f := FindIndex(items, IdIs(id));
    FirstIsUnique(items, f, k, IdIs(id));
    SpliceOneAt(items, k);
  }

  /** Deleting an absent identifier: `findIndex` yields -1, and `splice(-1, 1)`
      removes the last entry, or nothing from an empty list. */
  lemma DeleteAbsent(items: seq<Item>, id: Id)
    requires !Any(items, IdIs(id))
    ensures Deleted(items, id) == if items == [] then [] else items[..|items| - 1]
  {
    SpliceOneFromEnd(items);
  }

  /** With unique identifiers, deleting a present identifier leaves no entry
      carrying it, and the identifiers left are still unique. */
  lemma DeleteRemovesId(items: seq<Item>, id: Id)
    requires UniqueIds(items) && Any(items, IdIs(id))
    ensures !Any(Deleted(items, id), IdIs(id))
    ensures UniqueIds(Deleted(items, id))
  {
    var k := FindIndex(items, IdIs(id));
    DeletePresent(items, id, k);
    var r := Deleted(items, id);
    forall j | 0 <= j < |r| ensures r[j].id != id {
      if j < k { assert r[j] == items[j]; } else { assert r[j] == items[j + 1]; }
    }
  }

  /** Deleting never makes identifiers collide. */
  lemma DeleteKeepsUniqueIds(items: seq<Item>, id: Id)
    requires UniqueIds(items)
    ensures UniqueIds(Deleted(items, id))
  {
    var k := FindIndex(items, IdIs(id));
    if k == -1 {
      DeleteAbsent(items, id);
    } else {
      DeleteRemovesId(items, id);
    }
  }

  /** Toggling `checked` on the first entry with `id`, at position `k`,
      replaces that entry and keeps the entries before and after it. */
  lemma ToggleCheckedAt(items: seq<Item>, k: int)
    requires 0 <= k < |items| && IsFirst(items, k, IdIs(items[k].id))
    ensures ToggleChecked(items, items[k].id)
         == items[..k] + [items[k].(checked := !items[k].checked)] + items[k + 1..]
  {
    var id := items[k].id;
    var r := ToggleChecked(items, id);
    forall j | 0 <= j < |items| && j != k ensures r[j] == items[j] {
      assert !IsFirst(items, j, IdIs(id));
    }
    assert r[k] == items[k].(checked := !items[k].checked);
  }

  /** Flipping `checked` twice on the same identifier restores the list. */
  lemma {:induction false} ToggleCheckedTwice(items: seq<Item>, id: Id)
    requires Any(items, IdIs(id))
    ensures Any(ToggleChecked(items, id), IdIs(id))
    ensures ToggleChecked(ToggleChecked(items, id), id) == items
  {
    var r := ToggleChecked(items, id);
    assert Ids(r) == Ids(items);
    FindIndexSeesOnlyIds(r, items, id);
  }

  /** Flipping `editing` twice on the same identifier restores the list. */
  lemma {:induction false} ToggleEditingTwice(items: seq<Item>, id: Id)
    requires Any(items, IdIs(id))
    ensures Any(ToggleEditing(items, id), IdIs(id))
    ensures ToggleEditing(ToggleEditing(items, id), id) == items
  {
    var r := ToggleEditing(items, id);
    assert Ids(r) == Ids(items);
    FindIndexSeesOnlyIds(r, items, id);
  }

  /** Every mutator but delete keeps the identifiers, so keeps them unique. */
  lemma SameIdsKeepUnique(a: seq<Item>, b: seq<Item>)
    requires UniqueIds(a) && Ids(a) == Ids(b)
    ensures UniqueIds(b)
  {
    forall i, j | 0 <= i < j < |b| ensures b[i].id != b[j].id {
      assert b[i].id == Ids(b)[i] == Ids(a)[i] == a[i].id;
      assert b[j].id == Ids(b)[j] == Ids(a)[j] == a[j].id;
    }
  }

  /** No entry other than `k` is being edited. */
  predicate OnlyEditing(items: seq<Item>, k: int) {
    && 0 <= k < |items|
    && items[k].editing
    && forall j :: 0 <= j < |items| && j != k ==> !items[j].editing
  }

  /** The edit-submit sequence (rename the entry being edited, then flip
      `editing` on the submitted identifier), when that entry is the only one
      being edited and carries the submitted identifier: it ends with the new
      name, `editing` off and `checked` as before, and nothing else changes. */
  lemma EditSubmit(items: seq<Item>, k: int, newName: string)
    requires UniqueIds(items) && OnlyEditing(items, k)
    ensures Any(RenameEditing(items, newName), IdIs(items[k].id))
    ensures ToggleEditing(RenameEditing(items, newName), items[k].id)
         == items[k := items[k].(name := newName, editing := false)]
  {
    var id := items[k].id;
    assert IsFirst(items, k, IsEditing);
    var r := RenameEditing(items, newName);
    assert r[k] == items[k].(name := newName);
    assert Ids(r) == Ids(items);
    SameIdsKeepUnique(items, r);
    UniqueIdIsFirst(r, k);
    var t := ToggleEditing(r, id);
    forall j | 0 <= j < |items|
      ensures t[j] == items[k := items[k].(name := newName, editing := false)][j]
    {
      if j != k {
        assert !IsFirst(r, j, IdIs(id));
        assert r[j] == items[j];
      }
    }
  }

  /** The seed list the page starts with. */
  function SeedItems(a: Id, b: Id, c: Id, d: Id): seq<Item> {
    [ Item(a, "apples", false, false),
      Item(b, "oranges", false, false),
      Item(c, "milk", true, false),
      Item(d, "bread", false, false) ]
  }

  class Store {
    var items: seq<Item>
    var hideCheckedItems: bool

    /** Identifiers are unique: the generator never repeats one. */
    ghost predicate Valid()
      reads this
    {
      UniqueIds(items)
    }

    /** The store as the page creates it, given four fresh identifiers. */
    constructor (a: Id, b: Id, c: Id, d: Id)
      requires a != b && a != c && a != d && b != c && b != d && c != d
      ensures Valid()
      ensures items == SeedItems(a, b, c, d) && !hideCheckedItems
    {
      items := SeedItems(a, b, c, d);
      hideCheckedItems := false;
    }

    /** `addItemToShoppingList`: append a new unchecked, unedited entry;
        `freshId` stands for the generated identifier. */
    method AddItemToShoppingList(freshId: Id, itemName: string)
      requires Valid() && !Any(items, IdIs(freshId))
      modifies this
      ensures Valid()
      ensures items == old(items) + [NewItem(freshId, itemName)]
      ensures hideCheckedItems == old(hideCheckedItems)
    {
      items := items + [NewItem(freshId, itemName)];
    }

    /** `toggleCheckedForListItem`: the entry must exist, since the source
        dereferences what `find` returns without checking it. */
    method ToggleCheckedForListItem(id: Id)
      requires Valid() && Any(items, IdIs(id))
      modifies this
      ensures Valid()
      ensures items == ToggleChecked(old(items), id)
      ensures hideCheckedItems == old(hideCheckedItems)
    {
      var k := FindIndex(items, IdIs(id));
      var old_items := items;
      items := items[k := items[k].(checked := !items[k].checked)];
      assert Ids(items) == Ids(old_items);
      SameIdsKeepUnique(old_items, items);
    }

    /** `deleteListItem`: `findIndex` followed by `splice(index, 1)`; an absent
        identifier removes the last entry. */
    method DeleteListItem(id: Id)
      requires Valid()
      modifies this
      ensures Valid()
      ensures items == Deleted(old(items), id)
      ensures hideCheckedItems == old(hideCheckedItems)
    {
      DeleteKeepsUniqueIds(items, id);
      var index := FindIndex(items, IdIs(id));
      items := Splice(items, index, 1);
    }

    /** `toggleCheckedItemsFilter`: negate the flag; doing it twice restores it. */
    method ToggleCheckedItemsFilter()
      modifies this
      ensures hideCheckedItems == !old(hideCheckedItems)
      ensures items == old(items)
    {
      hideCheckedItems := !hideCheckedItems;
    }

    /** `toggleEditingListItem`: the entry must exist, as for toggling `checked`. */
    method ToggleEditingListItem(id: Id)
      requires Valid() && Any(items, IdIs(id))
      modifies this
      ensures Valid()
      ensures items == ToggleEditing(old(items), id)
      ensures hideCheckedItems == old(hideCheckedItems)
    {
      var k := FindIndex(items, IdIs(id));
      var old_items := items;
      items := items[k := items[k].(editing := !items[k].editing)];
      assert Ids(items) == Ids(old_items);
      SameIdsKeepUnique(old_items, items);
    }

    /** `editItemNameInStore`: rename the first entry being edited, which must
        exist, since the source dereferences what `find` returns. */
    method EditItemNameInStore(newName: string)
      requires Valid() && Any(items, IsEditing)
      modifies this
      ensures Valid()
      ensures items == RenameEditing(old(items), newName)
      ensures hideCheckedItems == old(hideCheckedItems)
    {
      var k := FindIndex(items, IsEditing);
      var old_items := items;
      items := items[k := items[k].(name := newName)];
      assert Ids(items) == Ids(old_items);
      SameIdsKeepUnique(old_items, items);
    }

    /** The store updates of an edit-form submit: rename, then flip `editing`
        on the submitted entry, which is the only one being edited. */
    method SubmitEdit(id: Id, editedItemName: string)
      requires Valid()
      requires exists k :: OnlyEditing(items, k) && items[k].id == id
      modifies this
      ensures Valid()
      ensures forall k :: OnlyEditing(old(items), k) ==>
        items == old(items)[k := old(items)[k].(name := editedItemName, editing := false)]
      ensures !Any(items, IsEditing)
      ensures hideCheckedItems == old(hideCheckedItems)
    {
      ghost var k :| OnlyEditing(items, k) && items[k].id == id;
      EditSubmit(items, k, editedItemName);
      EditItemNameInStore(editedItemName);
      ToggleEditingListItem(id);
      assert forall j :: 0 <= j < |items| ==> !items[j].editing;
    }
  }
}
