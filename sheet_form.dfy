/** The simpler marking-sheet editor of `components/admin/marking-sheet-form.tsx`,
    whose items have only a text, a category and a position. */
module SheetForm {
  import opened Wrappers
  import opened Text
  import opened Lists
  import opened Supabase

  /** `ChecklistItemForm` of this editor. */
  datatype Item = Item(text: string, category: string, orderIndex: int)

  /** One of the fields `updateChecklistItem` can set, with its new value. */
  datatype Field =
    | TextField(text: string)
    | CategoryField(category: string)
    | OrderIndexField(orderIndex: int)

  /** What `handleSubmit` hands to `onSubmit`. */
  datatype SheetPayload = SheetPayload(name: string, description: string, checklistItems: seq<Item>)

  function BlankItem(orderIndex: int): Item {
    Item("", "", orderIndex)
  }

  /** The items carry their one-based position as `order_index`. */
  predicate Numbered(items: seq<Item>) {
    forall k :: 0 <= k < |items| ==> items[k].orderIndex == k + 1
  }

  /** The initial item list: the sheet's items numbered from one with the
      category defaulting to `""`, or a single blank item when there is no
      sheet or the sheet has no item list (an empty list stays empty). */
  function InitialItems(initialData: Option<MarkingSheet>): (r: seq<Item>)
    ensures Numbered(r)
    ensures (initialData.None? || initialData.value.checklistItems.None?) ==> r == [BlankItem(1)]
    ensures initialData.Some? && initialData.value.checklistItems.Some? ==>
      var stored := initialData.value.checklistItems.value;
      |r| == |stored| &&
      forall k :: 0 <= k < |r| ==>
        r[k].text == stored[k].text && r[k].category == StringOr(stored[k].category, "")
  {
    if initialData.Some? && initialData.value.checklistItems.Some? then
      var stored := initialData.value.checklistItems.value;
      seq(|stored|, k requires 0 <= k < |stored| => Item(stored[k].text, StringOr(stored[k].category, ""), k + 1))
    else
      [BlankItem(1)]
  }

  /** The item with one field set and the others kept. */
  function WithField(item: Item, field: Field): (r: Item)
    ensures field.TextField? ==> r == item.(text := field.text)
    ensures field.CategoryField? ==> r == item.(category := field.category)
    ensures field.OrderIndexField? ==> r == item.(orderIndex := field.orderIndex)
  {
    match field
    case TextField(v) => item.(text := v)
    case CategoryField(v) => item.(category := v)
    case OrderIndexField(v) => item.(orderIndex := v)
  }

  /** The item renumbered to position `n`. */
  function WithOrderIndex(x: Item, n: int): Item {
    x.(orderIndex := n)
  }

  /** The item's text is not blank. */
  predicate HasText(x: Item) {
    !IsBlank(x.text)
  }

  /** `items.filter((item) => item.text.trim())`: the items that are sent,
      in their original order. */
  function SubmittedItems(items: seq<Item>): (r: seq<Item>)
    ensures forall x :: x in r <==> x in items && !IsBlank(x.text)
    ensures |r| == |KeptPositions(items, HasText, 0)|
    ensures forall k :: 0 <= k < |r| ==> r[k] == items[KeptPositions(items, HasText, 0)[k]]
  {
    FilterMembers(items, HasText);
    FilterAtKeptPositions(items, HasText, 0);
    assert items[0..] == items;
    Filter(items, HasText)
  }

  class MarkingSheetForm {
    var name: string
    var description: string
    var checklistItems: seq<Item>

    /** The component's initial state. */
    constructor (initialData: Option<MarkingSheet>)
      ensures name == (if initialData.Some? then initialData.value.name else "")
      ensures description == (if initialData.Some? then StringOr(initialData.value.description, "") else "")
      ensures checklistItems == InitialItems(initialData)
    {
      if initialData.Some? {
        name := initialData.value.name;
        description := StringOr(initialData.value.description, "");
      } else {
        name, description := "", "";
      }
      checklistItems := InitialItems(initialData);
    }

    /** `addChecklistItem`: `{text: "", category: "", order_index: length + 1}`
      appended, the other items unchanged. */
    method AddChecklistItem()
      modifies this
      ensures checklistItems == old(checklistItems) + [BlankItem(|old(checklistItems)| + 1)]
      ensures Numbered(old(checklistItems)) ==> Numbered(checklistItems)
      ensures name == old(name) && description == old(description)
    {
      checklistItems := checklistItems + [BlankItem(|checklistItems| + 1)];
    }

    /** `removeChecklistItem(index)`. */
    method RemoveChecklistItem(index: int)
      modifies this
      ensures checklistItems == RemoveRenumbered(old(checklistItems), index, WithOrderIndex)
      ensures Numbered(checklistItems)
      ensures |old(checklistItems)| > 1 ==> |checklistItems| >= 1
      ensures name == old(name) && description == old(description)
    {
      var newItems := RemoveAt(checklistItems, index);
      checklistItems := Renumbered(newItems, WithOrderIndex);
    }

    /** `updateChecklistItem(index, field, value)` on a rendered item. */
    method UpdateChecklistItem(index: int, field: Field)
      requires 0 <= index < |checklistItems|
      modifies this
      ensures |checklistItems| == |old(checklistItems)|
      ensures checklistItems[index] == WithField(old(checklistItems)[index], field)
      ensures forall k :: 0 <= k < |checklistItems| && k != index ==> checklistItems[k] == old(checklistItems)[k]
      ensures !field.OrderIndexField? && Numbered(old(checklistItems)) ==> Numbered(checklistItems)
      ensures name == old(name) && description == old(description)
    {
      var newItems := checklistItems;
      newItems := newItems[index := WithField(newItems[index], field)];
      checklistItems := newItems;
    }

    /** The remove button is disabled while exactly one item exists. */
    function CanRemove(): bool
      reads this
    {
      |checklistItems| != 1
    }

    /** `handleSubmit`: name, description and the non-blank items. */
    method HandleSubmit() returns (payload: SheetPayload)
      ensures payload.checklistItems == SubmittedItems(checklistItems)
      ensures forall x :: x in payload.checklistItems <==> x in checklistItems && !IsBlank(x.text)
      ensures payload.name == name && payload.description == description
    {
      payload := SheetPayload(name, description, Filter(checklistItems, HasText));
    }
  }
}
