/** A shopping-list entry, and the linear lookups the store performs over a
    list of entries (the callbacks given to `find` and `findIndex`). */
module ShoppingItem {

  /** Identifiers come from an external generator; only equality is used. */
  type Id = string

  datatype Item = Item(id: Id, name: string, checked: bool, editing: bool)

  /** A freshly added entry: not checked and not being edited. */
  function NewItem(id: Id, name: string): Item {
    Item(id, name, false, false)
  }

  /** The two search callbacks the store uses: `item.id === id` and
      `item.editing === true`. */
  datatype Match = IdIs(id: Id) | IsEditing

  predicate Matches(m: Match, item: Item) {
    match m
    case IdIs(id) => item.id == id
    case IsEditing => item.editing
  }

  /** Some entry of `items` satisfies `m`. */
  predicate Any(items: seq<Item>, m: Match) {
    exists j :: 0 <= j < |items| && Matches(m, items[j])
  }

  /** `k` is the position of the first entry satisfying `m`. */
  predicate IsFirst(items: seq<Item>, k: int, m: Match) {
    && 0 <= k < |items|
    && Matches(m, items[k])
    && forall i :: 0 <= i < k ==> !Matches(m, items[i])
  }

  /** `Array.prototype.findIndex`: scans from the front and yields the first
      matching position, or -1 when nothing matches. `find` is the entry at
      that position. */
  function FindIndex(items: seq<Item>, m: Match): (r: int)
    ensures -1 <= r < |items|
    ensures r == -1 <==> !Any(items, m)
    ensures r != -1 ==> IsFirst(items, r, m)
  {
    if items == [] then -1
    else if Matches(m, items[0]) then 0
    else
      var r := FindIndex(items[1..], m);
      if r == -1 then -1 else r + 1
  }

  /** There is only one first match. */
  lemma FirstIsUnique(items: seq<Item>, j: int, k: int, m: Match)
    requires IsFirst(items, j, m) && IsFirst(items, k, m)
    ensures j == k
  {
  }

  /** The identifiers of `items`, in order. */
  function Ids(items: seq<Item>): (r: seq<Id>)
    ensures |r| == |items|
    ensures forall j :: 0 <= j < |items| ==> r[j] == items[j].id
  {
    seq(|items|, j requires 0 <= j < |items| => items[j].id)
  }

  /** No identifier occurs twice: what the external generator guarantees. */
  predicate UniqueIds(items: seq<Item>) {
    forall i, j :: 0 <= i < j < |items| ==> items[i].id != items[j].id
  }

  /** Where identifiers are unique, the entry carrying an identifier is the
      first (and only) entry carrying it. */
  lemma UniqueIdIsFirst(items: seq<Item>, k: int)
    requires UniqueIds(items) && 0 <= k < |items|
    ensures IsFirst(items, k, IdIs(items[k].id))
  {
  }

  /** Lookup by identifier sees only the identifiers, so any update that keeps
      them keeps every lookup's answer. */
  lemma {:induction false} FindIndexSeesOnlyIds(a: seq<Item>, b: seq<Item>, id: Id)
    requires Ids(a) == Ids(b)
    ensures FindIndex(a, IdIs(id)) == FindIndex(b, IdIs(id))
  {
    if a != [] {
      assert a[0].id == Ids(a)[0] == Ids(b)[0] == b[0].id;
      assert Ids(a[1..]) == Ids(a)[1..] == Ids(b)[1..] == Ids(b[1..]);
      FindIndexSeesOnlyIds(a[1..], b[1..], id);
    }
  }
}
