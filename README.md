# Shopping-list store and view, in Dafny

A model of the client-side shopping list in `index.js`: the in-memory store
(an ordered list of entries `{id, name, checked, editing}` and the
`hideCheckedItems` flag), the six functions that mutate it, and the
derivation `render` performs from it (filter, then per-entry markup joined
in order).

- `ShoppingItem.dfy`: the entry record, the two `find` callbacks
  (`item.id === id`, `item.editing === true`) and `findIndex` as a
  recursive search.
- `ArraySplice.dfy`: the removing form of ECMAScript
  `Array.prototype.splice(start, deleteCount)`, with the start and count
  clamped as in section 23.1.3.31 of ECMA-262. A negative start counts back
  from the end.
- `ShoppingStore.dfy`: the pure functions `ToggleChecked`, `ToggleEditing`,
  `RenameEditing` and `Deleted`, the lemmas about them, and the class `Store`.
  Its methods update `items` and `hideCheckedItems` in place.
  `ToggleCheckedForListItem`, `ToggleEditingListItem`, `EditItemNameInStore`
  and `DeleteListItem` are specified by the matching pure function.
  `AddItemToShoppingList` states the appended list directly.
  `ToggleCheckedItemsFilter` negates the flag and keeps the list.
  `SubmitEdit` states the edited entry's new value, for the only entry in
  edit mode. Every method that changes the list keeps the invariant
  `Valid()`: identifiers are unique.
- `ShoppingRender.dfy`: the visible-entries filter, the abstract markup of
  one entry and of the list, and lemmas tying store changes to the view.

Behaviour of the code that the model keeps as written:

- Entering edit mode flips `editing` on one entry. It does not clear the
  flag on the other entries.
- Committing an edit renames the first entry whose `editing` flag is set.
  It does not look the entry up by identifier.
- A missing identifier is not a no-op. `find` returns `undefined` and the
  code then dereferences it. So toggling `checked` or `editing` on an absent
  identifier fails, and the model makes presence a precondition. Renaming
  with no entry in edit mode fails the same way, and the model requires such
  an entry.
- Deleting an absent identifier calls `splice(-1, 1)`. That removes the
  last entry. The model reproduces this exactly.
- Names are not validated or escaped, so an empty name is added as it is.

The generated identifier (`cuid()`) is a parameter of the add method and of
the constructor. Its uniqueness is a precondition.

## Model

| member | source | states |
|---|---|---|
| ShoppingItem.FindIndex | index.js:128 | the result is -1 exactly when no entry matches; otherwise it is the position of the first matching entry |
| ShoppingItem.FindIndexSeesOnlyIds | index.js:98 | lookup by identifier gives the same answer on any two lists with the same identifiers in the same order |
| ArraySplice.SpliceOneAt | index.js:132 | `splice(k, 1)` with `0 <= k < length` removes exactly element `k`; the rest stay in order and the length drops by one |
| ArraySplice.SpliceOneFromEnd | index.js:128-132 | `splice(-1, 1)` removes the last element; on an empty array it removes nothing |
| ShoppingStore.ToggleChecked | index.js:97-100 | same length; only the first entry with the identifier changes, and only its `checked` flag, which is negated |
| ShoppingStore.ToggleCheckedAt | index.js:97-100 | toggling `checked` on the first entry with an identifier replaces that entry with its `checked` negated and keeps the entries before and after it |
| ShoppingStore.ToggleCheckedTwice | index.js:97-100 | toggling `checked` twice on the same identifier restores the list |
| ShoppingStore.ToggleEditing | index.js:166-169 | same length; only the first entry with the identifier changes, and only its `editing` flag, which is negated |
| ShoppingStore.ToggleEditingTwice | index.js:166-169 | toggling `editing` twice on the same identifier restores the list |
| ShoppingStore.RenameEditing | index.js:196-199 | same length; only the first entry being edited changes, and only its name, which becomes the new name |
| ShoppingStore.Deleted | index.js:120-133 | the length drops by one when the identifier is present; when it is absent, it drops by one on a non-empty list and stays 0 on an empty one |
| ShoppingStore.DeletePresent | index.js:128-132 | deleting a present identifier removes exactly its first entry and keeps the others in order |
| ShoppingStore.DeleteAbsent | index.js:128-132 | deleting an absent identifier removes the last entry, or nothing from an empty list |
| ShoppingStore.DeleteRemovesId | index.js:128-132 | with unique identifiers, no entry with the deleted identifier remains and identifiers stay unique |
| ShoppingStore.EditSubmit | index.js:209-212 | rename then toggle `editing`, on the only entry being edited: that entry gets the new name and `editing` off, keeps `checked`, and no other entry changes |
| ShoppingStore.Store.constructor | index.js:3-11 | the store starts with apples, oranges, milk (checked) and bread, the filter is off, and identifiers are unique |
| ShoppingStore.Store.AddItemToShoppingList | index.js:83-85 | appends one unchecked, unedited entry with the given name and a fresh identifier; earlier entries and the filter are unchanged |
| ShoppingStore.Store.ToggleCheckedForListItem | index.js:97-100 | the list becomes `ToggleChecked` of the old list; the filter is unchanged |
| ShoppingStore.Store.DeleteListItem | index.js:120-133 | the list becomes `Deleted` of the old list, for present and absent identifiers; the filter is unchanged; identifiers stay unique |
| ShoppingStore.Store.ToggleCheckedItemsFilter | index.js:151-153 | the filter flag is negated, so two calls restore it; the list is unchanged |
| ShoppingStore.Store.ToggleEditingListItem | index.js:166-169 | the list becomes `ToggleEditing` of the old list; the filter is unchanged |
| ShoppingStore.Store.EditItemNameInStore | index.js:196-199 | the list becomes `RenameEditing` of the old list; the filter is unchanged |
| ShoppingStore.Store.SubmitEdit | index.js:201-218 | the store updates of an edit submit: the edited entry gets the new name and `editing` off, nothing else changes, and no entry is left in edit mode |
| ShoppingRender.Unchecked | index.js:69 | the filter result is no longer than the input, holds no checked entry, and holds every unchecked entry of the input |
| ShoppingRender.UncheckedAppend | index.js:69 | filtering a concatenation is the concatenation of the filtered parts |
| ShoppingRender.UncheckedIsSubsequence | index.js:63-70 | the filtered list keeps the original relative order (it is a subsequence of the input) |
| ShoppingRender.UncheckedCounts | index.js:69 | each checked entry occurs 0 times in the result; each unchecked entry occurs as often as in the input |
| ShoppingRender.Visible | index.js:63-70 | with the flag off, all entries in order; with it on, only unchecked entries, and all of them; always a subsequence of the list |
| ShoppingRender.VisibleCounts | index.js:68-69 | with the flag on, each unchecked entry is shown as often as it occurs in the list and each checked entry 0 times |
| ShoppingRender.VisibleIdempotent | index.js:63-70 | applying the filter to its own result changes nothing |
| ShoppingRender.ItemElement | index.js:13-49 | the edit-form variant exactly when the entry is being edited; otherwise the normal variant, with checked styling exactly when the entry is checked; the save button exactly in the edit form; identifier and name carried through |
| ShoppingRender.ItemsMarkup | index.js:51-54 | one markup per entry, in list order, each the entry's own markup |
| ShoppingRender.ItemsMarkupAppend | index.js:51-54 | the markup of a concatenated list is the concatenation of the two lists' markup |
| ShoppingRender.Render | index.js:59-81 | with the flag off, every entry's markup in order; with it on, exactly the markup of the unchecked entries in order, so no row carries the checked styling |
| ShoppingRender.AddedItemRendersLast | index.js:92-93 | after an add, the rendered rows are the old rows followed by the new entry's unstruck normal row, whatever the filter |
| ShoppingRender.CheckingHidesItem | index.js:102-107 | with checked entries hidden, checking an unchecked entry makes exactly its row disappear |
| ShoppingRender.SeedScenario | index.js:3-11 | on the start-up list, hiding checked entries shows apples, oranges and bread; with the filter off all four are shown |

## Left out

- DOM effects: inserting the markup into the page, enabling and disabling
  buttons while editing, moving focus, and registering event handlers. They
  belong to jQuery and the page, not to the store.
- `getItemIdFromElement`: it walks the DOM and relies on jQuery's `.data`
  type coercion. Handlers are modelled from the identifier they would pass on.
- `cuid()`: an external generator. Its result is a parameter, and its
  uniqueness is a precondition.
- HTML text, whitespace and class names. Markup is abstracted to its variant,
  identifier, name, checked styling and buttons. The source does not escape
  names, and the model adds no sanitising.
- The rule that only one entry is edited at a time. The code approximates it
  by disabling buttons, so it appears only as a precondition of
  `EditSubmit` and `SubmitEdit`.
- Entries are values held in a sequence. The source mutates the entry object
  that `find` returns. No reference to an entry outlives a call, so aliasing
  is not modelled.
- The array `splice` returns (the removed elements) is discarded by the
  source and not modelled.
- Render idempotence is not stated as a lemma. `Render` is a function of the
  list and the flag, so two calls on the same state give equal results by
  construction.
