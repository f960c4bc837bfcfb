/** The view derivation: which entries are shown, and the markup each one
    gets. Markup is kept abstract (which variant, with which styling, name and
    controls); the HTML text itself is not modelled. */
module ShoppingRender {
  import opened ShoppingItem
  import opened ShoppingStore

  /** The buttons an entry's markup offers. */
  datatype Control = CheckButton | EditButton | DeleteButton | SaveEditButton

  /** The two variants of an entry's markup. Both carry the entry's identifier
      as `data-item-id`. `Normal` shows the name, struck through when
      `checkedStyle`; `EditForm` shows a text input pre-filled with the name. */
  datatype Markup =
    | Normal(id: Id, name: string, checkedStyle: bool)
    | EditForm(id: Id, name: string)
  {
    function Controls(): seq<Control> {
      match this
      case Normal(_, _, _) => [CheckButton, EditButton, DeleteButton]
      case EditForm(_, _) => [SaveEditButton]
    }
  }

  /** `a` occurs in `b` in order, possibly with gaps. */
  predicate IsSubsequence<T(==)>(a: seq<T>, b: seq<T>)
    decreases |b|
  {
    a == [] ||
    (b != [] && if a[0] == b[0] then IsSubsequence(a[1..], b[1..]) else IsSubsequence(a, b[1..]))
  }

  /** `items.filter(item => !item.checked)`. */
  function Unchecked(items: seq<Item>): (r: seq<Item>)
    ensures |r| <= |items|
    ensures forall i :: 0 <= i < |r| ==> !r[i].checked
    ensures forall x :: x in r <==> x in items && !x.checked
  {
    if items == [] then []
    else if items[0].checked then Unchecked(items[1..])
    else [items[0]] + Unchecked(items[1..])
  }

  /** Filtering a concatenation filters each part. */
  lemma {:induction false} UncheckedAppend(a: seq<Item>, b: seq<Item>)
    ensures Unchecked(a + b) == Unchecked(a) + Unchecked(b)
  {
    if a == [] {
      assert a + b == b;
    } else {
      assert (a + b)[0] == a[0];
      assert (a + b)[1..] == a[1..] + b;
      UncheckedAppend(a[1..], b);
    }
  }

  /** The filter keeps the unchecked entries in their original relative order. */
  lemma {:induction false} UncheckedIsSubsequence(items: seq<Item>)
    ensures IsSubsequence(Unchecked(items), items)
  {
    if items != [] {
      UncheckedIsSubsequence(items[1..]);
      if !items[0].checked {
        assert ([items[0]] + Unchecked(items[1..]))[1..] == Unchecked(items[1..]);
      }
    }
  }

  /** The filter drops every occurrence of a checked entry and keeps every
      occurrence of an unchecked one: with the order above, it is exactly the
      unchecked entries. */
  lemma {:induction false} UncheckedCounts(items: seq<Item>, x: Item)
    ensures multiset(Unchecked(items))[x] == if x.checked then 0 else multiset(items)[x]
  {
    if items != [] {
      var h, t := items[0], items[1..];
      UncheckedCounts(t, x);
      assert items == [h] + t;
      assert multiset(items) == multiset([h]) + multiset(t);
      if h.checked {
        assert Unchecked(items) == Unchecked(t);
      } else {
        assert Unchecked(items) == [h] + Unchecked(t);
        assert multiset(Unchecked(items)) == multiset([h]) + multiset(Unchecked(t));
      }
    }
  }

  /** A list with no checked entry passes the filter unchanged. */
  lemma {:induction false} UncheckedKeepsUnchecked(items: seq<Item>)
    requires forall i :: 0 <= i < |items| ==> !items[i].checked
    ensures Unchecked(items) == items
  {
    if items != [] {
      UncheckedKeepsUnchecked(items[1..]);
    }
  }

  /** The entries `render` shows: all of them, or only the unchecked ones when
      `hideCheckedItems` is set. */
  function Visible(items: seq<Item>, hideCheckedItems: bool): (r: seq<Item>)
    ensures !hideCheckedItems ==> r == items
    ensures hideCheckedItems ==> forall i :: 0 <= i < |r| ==> !r[i].checked
    ensures hideCheckedItems ==> forall x :: x in items && !x.checked ==> x in r
    ensures IsSubsequence(r, items)
  {
    UncheckedIsSubsequence(items);
    IsSubsequenceOfSelf(items);
    if hideCheckedItems then Unchecked(items) else items
  }

  /** With checked entries hidden, every unchecked entry is shown as often as
      it occurs in the list, and no checked entry is shown. */
  lemma VisibleCounts(items: seq<Item>, x: Item)
    ensures multiset(Visible(items, true))[x] == if x.checked then 0 else multiset(items)[x]
  {
    UncheckedCounts(items, x);
  }

  lemma {:induction false} IsSubsequenceOfSelf<T>(s: seq<T>)
    ensures IsSubsequence(s, s)
  {
    if s != [] {
      IsSubsequenceOfSelf(s[1..]);
    }
  }

  /** Hiding checked entries a second time hides nothing more. */
  lemma VisibleIdempotent(items: seq<Item>, hideCheckedItems: bool)
    ensures Visible(Visible(items, hideCheckedItems), hideCheckedItems) == Visible(items, hideCheckedItems)
  {
    if hideCheckedItems {
      UncheckedKeepsUnchecked(Unchecked(items));
    }
  }

  /** `generateItemElement`: the edit form exactly when the entry is being
      edited; otherwise the normal variant, struck through exactly when the
      entry is checked. Both show the entry's identifier and name. */
  function ItemElement(item: Item): (m: Markup)
    ensures m.EditForm? <==> item.editing
    ensures m.Normal? ==> (m.checkedStyle <==> item.checked)
    ensures m.id == item.id && m.name == item.name
    ensures SaveEditButton in m.Controls() <==> item.editing
  {
    if !item.editing then Normal(item.id, item.name, item.checked)
    else EditForm(item.id, item.name)
  }

  /** `generateShoppingItemsString`: each entry's markup, in list order
      (`map` then `join('')`). */
  function ItemsMarkup(items: seq<Item>): (r: seq<Markup>)
    ensures |r| == |items|
    ensures forall i :: 0 <= i < |items| ==> r[i] == ItemElement(items[i])
  {
    if items == [] then [] else [ItemElement(items[0])] + ItemsMarkup(items[1..])
  }

  /** Joining markup for a concatenated list joins the two parts' markup. */
  lemma ItemsMarkupAppend(a: seq<Item>, b: seq<Item>)
    ensures ItemsMarkup(a + b) == ItemsMarkup(a) + ItemsMarkup(b)
  {
  }

  /** `render`: the markup of the visible entries. */
  function Render(items: seq<Item>, hideCheckedItems: bool): (r: seq<Markup>)
    ensures !hideCheckedItems ==> |r| == |items| && forall i :: 0 <= i < |items| ==> r[i] == ItemElement(items[i])
    ensures hideCheckedItems ==> |r| == |Unchecked(items)|
    ensures hideCheckedItems ==> forall i :: 0 <= i < |r| ==> r[i] == ItemElement(Unchecked(items)[i])
    ensures hideCheckedItems ==> forall i :: 0 <= i < |r| ==> !(r[i].Normal? && r[i].checkedStyle)
  {
    ItemsMarkup(Visible(items, hideCheckedItems))
  }

  /** A newly added entry shows as the last row, in the normal unstruck
      variant, whatever the filter; the rows before it are the old ones. */
  lemma AddedItemRendersLast(items: seq<Item>, id: Id, name: string, hideCheckedItems: bool)
    ensures Render(items + [NewItem(id, name)], hideCheckedItems)
         == Render(items, hideCheckedItems) + [Normal(id, name, false)]
  {
    var n := NewItem(id, name);
    var v := Visible(items, hideCheckedItems);
    assert Visible(items + [n], hideCheckedItems) == v + [n] by {
      if hideCheckedItems {
        UncheckedAppend(items, [n]);
        assert Unchecked([n]) == [n];
      }
    }
    ItemsMarkupAppend(v, [n]);
    assert ItemsMarkup([n]) == [Normal(id, name, false)];
    assert Render(items + [n], hideCheckedItems) == ItemsMarkup(v + [n]);
  }

  /** With checked entries hidden, checking an entry removes exactly its row. */
  lemma CheckingHidesItem(items: seq<Item>, k: int)
    requires 0 <= k < |items| && !items[k].checked
    requires IsFirst(items, k, IdIs(items[k].id))
    ensures Visible(ToggleChecked(items, items[k].id), true) == Visible(items[..k] + items[k + 1..], true)
  {
    var x := items[k].(checked := true);
    ToggleCheckedAt(items, k);
    assert Unchecked([x]) == [];
    UncheckedAppend(items[..k] + [x], items[k + 1..]);
    UncheckedAppend(items[..k], [x]);
    UncheckedAppend(items[..k], items[k + 1..]);
  }

  /** The start-up scenario: hiding checked entries shows all but the milk;
      turning the filter off shows all four again. */
  lemma SeedScenario(a: Id, b: Id, c: Id, d: Id)
    ensures Visible(SeedItems(a, b, c, d), true)
         == [SeedItems(a, b, c, d)[0], SeedItems(a, b, c, d)[1], SeedItems(a, b, c, d)[3]]
    ensures Visible(SeedItems(a, b, c, d), false) == SeedItems(a, b, c, d)
  {
    var s := SeedItems(a, b, c, d);
    assert Unchecked(s[3..]) == [s[3]] by {
      assert s[3..][1..] == [];
    }
    assert Unchecked(s[2..]) == [s[3]] by {
      assert s[2..][1..] == s[3..];
    }
    assert Unchecked(s[1..]) == [s[1], s[3]] by {
      assert s[1..][1..] == s[2..];
    }
  }
}
