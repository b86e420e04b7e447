/** The marking-sheet editor of `components/admin/enhanced-marking-sheet-form.tsx`:
    an editable list of weighted, optionally critical checklist items, held
    in the component state `checklistItems` and replaced by each handler. */
module EnhancedSheetForm {
  import opened Wrappers
  import opened Text
  import opened Lists
  import opened Supabase

  /** `ChecklistItemForm`: the editor's item has exactly the shape the
      create and update calls take. */
  type Item = ChecklistItemInput

  /** One of the fields `updateChecklistItem` can set, with its new value. */
  datatype Field =
    | TextField(text: string)
    | CategoryField(category: string)
    | OrderIndexField(orderIndex: int)
    | PointsField(points: int)
    | IsCriticalField(isCritical: bool)
    | CriticalConditionField(criticalCondition: string)

  /** What `handleSubmit` hands to `onSubmit`. */
  datatype SheetPayload = SheetPayload(
    name: string,
    description: string,
    passingScore: int,
    password: string,
    isEnabled: bool,
    checklistItems: seq<Item>)

  /** The item the editor adds: blank text and category, one point, not
      critical. */
  function BlankItem(orderIndex: int): Item {
    ChecklistItemInput("", "", orderIndex, 1, false, "")
  }

  /** The items carry their one-based position as `order_index`. */
  predicate Numbered(items: seq<Item>) {
    forall k :: 0 <= k < |items| ==> items[k].orderIndex == k + 1
  }

  /** A stored item loaded into the editor at position `index`. */
  function Loaded(item: ChecklistItem, index: nat): Item {
    ChecklistItemInput(item.text, StringOr(item.category, ""), index + 1,
                       IntOr(item.points, 1), IsTrue(item.isCritical),
                       StringOr(item.criticalCondition, ""))
  }

  /** The initial item list: the sheet's items numbered from one, or a
      single blank item when there is no sheet or the sheet has no item
      list at all (an empty list is kept empty). */
  function InitialItems(initialData: Option<MarkingSheet>): (r: seq<Item>)
    ensures Numbered(r)
    ensures (initialData.None? || initialData.value.checklistItems.None?) ==> r == [BlankItem(1)]
    ensures initialData.Some? && initialData.value.checklistItems.Some? ==>
      var stored := initialData.value.checklistItems.value;
      |r| == |stored| &&
      forall k :: 0 <= k < |r| ==>
        r[k].text == stored[k].text &&
        r[k].points == EffectivePoints(stored[k]) &&
        r[k].isCritical == IsTrue(stored[k].isCritical) &&
        r[k].category == StringOr(stored[k].category, "") &&
        r[k].criticalCondition == StringOr(stored[k].criticalCondition, "")
  {
    if initialData.Some? && initialData.value.checklistItems.Some? then
      var stored := initialData.value.checklistItems.value;
      seq(|stored|, k requires 0 <= k < |stored| => Loaded(stored[k], k))
    else
      [BlankItem(1)]
  }

  /** The item with one field set and the others kept. */
  function WithField(item: Item, field: Field): (r: Item)
    ensures field.TextField? ==> r == item.(text := field.text)
    ensures field.CategoryField? ==> r == item.(category := field.category)
    ensures field.OrderIndexField? ==> r == item.(orderIndex := field.orderIndex)
    ensures field.PointsField? ==> r == item.(points := field.points)
    ensures field.IsCriticalField? ==> r == item.(isCritical := field.isCritical)
    ensures field.CriticalConditionField? ==> r == item.(criticalCondition := field.criticalCondition)
  {
    match field
    case TextField(v) => item.(text := v)
    case CategoryField(v) => item.(category := v)
    case OrderIndexField(v) => item.(orderIndex := v)
    case PointsField(v) => item.(points := v)
    case IsCriticalField(v) => item.(isCritical := v)
    case CriticalConditionField(v) => item.(criticalCondition := v)
  }

  /** The item renumbered to position `n`. */
  function WithOrderIndex(x: Item, n: int): Item {
    x.(orderIndex := n)
  }

  /** The item's text is not blank (`item.text.trim()` is truthy). */
  predicate HasText(x: Item) {
    !IsBlank(x.text)
  }

  predicate IsBlankItem(x: Item) {
    IsBlank(x.text)
  }

  predicate IsCriticalItem(x: Item) {
    x.isCritical
  }

  /** `items.filter((item) => item.text.trim())`: the items that are sent. */
  function SubmittedItems(items: seq<Item>): (r: seq<Item>)
    ensures forall x :: x in r <==> x in items && !IsBlank(x.text)
  {
    FilterMembers(items, HasText);
    Filter(items, HasText)
  }

  /** `items.filter((item) => item.is_critical)`: the critical-items summary. */
  function CriticalItems(items: seq<Item>): (r: seq<Item>)
    ensures |r| <= |items|
    ensures forall x :: x in r <==> x in items && x.isCritical
  {
    FilterMembers(items, IsCriticalItem);
    Filter(items, IsCriticalItem)
  }

  class EnhancedMarkingSheetForm {
    var name: string
    var description: string
    var passingScore: int
    var password: string
    var isEnabled: bool
    var checklistItems: seq<Item>

    /** The component's initial state. */
    constructor (initialData: Option<MarkingSheet>)
      ensures name == (if initialData.Some? then initialData.value.name else "")
      ensures description == (if initialData.Some? then StringOr(initialData.value.description, "") else "")
      ensures passingScore == (if initialData.Some? then IntOr(initialData.value.passingScore, 70) else 70)
      ensures password == (if initialData.Some? then StringOr(initialData.value.password, "assess2024") else "assess2024")
      ensures isEnabled == (initialData.None? || initialData.value.isEnabled != Some(false))
      ensures checklistItems == InitialItems(initialData)
    {
      if initialData.Some? {
        var d := initialData.value;
        name := d.name;
        description := StringOr(d.description, "");
        passingScore := IntOr(d.passingScore, 70);
        password := StringOr(d.password, "assess2024");
        isEnabled := if d.isEnabled.Some? then d.isEnabled.value else true;
      } else {
        name, description, passingScore, password, isEnabled := "", "", 70, "assess2024", true;
      }
      checklistItems := InitialItems(initialData);
    }

    /** `addChecklistItem`: one blank item appended, numbered after the
      others, which are unchanged. */
    method AddChecklistItem()
      modifies this
      ensures checklistItems == old(checklistItems) + [BlankItem(|old(checklistItems)| + 1)]
      ensures Numbered(old(checklistItems)) ==> Numbered(checklistItems)
      ensures name == old(name) && description == old(description) && passingScore == old(passingScore)
      ensures password == old(password) && isEnabled == old(isEnabled)
    {
      checklistItems := checklistItems + [BlankItem(|checklistItems| + 1)];
    }

    /** `removeChecklistItem(index)`. */
    method RemoveChecklistItem(index: int)
      modifies this
      ensures checklistItems == RemoveRenumbered(old(checklistItems), index, WithOrderIndex)
      ensures Numbered(checklistItems)
      ensures |old(checklistItems)| > 1 ==> |checklistItems| >= 1
      ensures name == old(name) && description == old(description) && passingScore == old(passingScore)
      ensures password == old(password) && isEnabled == old(isEnabled)
    {
      var newItems := RemoveAt(checklistItems, index);
      checklistItems := Renumbered(newItems, WithOrderIndex);
    }

    /** `updateChecklistItem(index, field, value)`: the list is copied and
      the copy's element at `index` replaced. The editor only ever passes
      the index of a rendered item. */
    method UpdateChecklistItem(index: int, field: Field)
      requires 0 <= index < |checklistItems|
      modifies this
      ensures |checklistItems| == |old(checklistItems)|
      ensures checklistItems[index] == WithField(old(checklistItems)[index], field)
      ensures forall k :: 0 <= k < |checklistItems| && k != index ==> checklistItems[k] == old(checklistItems)[k]
      ensures !field.OrderIndexField? && Numbered(old(checklistItems)) ==> Numbered(checklistItems)
      ensures name == old(name) && description == old(description) && passingScore == old(passingScore)
      ensures password == old(password) && isEnabled == old(isEnabled)
    {
      var newItems := checklistItems;
      newItems := newItems[index := WithField(newItems[index], field)];
      checklistItems := newItems;
    }

    /** The remove button is disabled while exactly one item exists. */
    function CanRemove(): bool
      reads this
    {
      |checklistItems| != 1
    }

    /** `handleSubmit`: the form's fields with only the items whose text
      is not blank. */
    method HandleSubmit() returns (payload: SheetPayload)
      ensures payload.checklistItems == SubmittedItems(checklistItems)
      ensures forall x :: x in payload.checklistItems <==> x in checklistItems && !IsBlank(x.text)
      ensures payload.name == name && payload.description == description && payload.passingScore == passingScore
      ensures payload.password == password && payload.isEnabled == isEnabled
    {
      payload := SheetPayload(name, description, passingScore, password, isEnabled,
                              Filter(checklistItems, HasText));
    }

    /** The "Total Points" figure: `sum + (item.points || 0)`, which on
      integer points is their plain sum. */
    function TotalPoints(): int
      reads this
    {
      PointsSum(checklistItems)
    }
  }

  // ----- properties of the editor's list operations -----

  /** Removing the item just added gives back the list it was added to. */
  lemma AddThenRemoveRestores(items: seq<Item>)
    requires Numbered(items)
    ensures RemoveRenumbered(items + [BlankItem(|items| + 1)], |items|, WithOrderIndex) == items
  {
    var r := RemoveRenumbered(items + [BlankItem(|items| + 1)], |items|, WithOrderIndex);
    assert forall k :: 0 <= k < |items| ==> r[k] == items[k];
  }

  /** The items sent on submit are in their original order, so with the
      editor's numbering their `order_index` values strictly increase,
      though blank items leave gaps. */
  lemma SubmittedOrderIncreases(items: seq<Item>)
    requires Numbered(items)
    ensures forall j, k :: 0 <= j < k < |SubmittedItems(items)| ==>
      SubmittedItems(items)[j].orderIndex < SubmittedItems(items)[k].orderIndex
  {
    FilterAtKeptPositions(items, HasText, 0);
    KeptPositionsExact(items, HasText, 0);
    assert items[0..] == items;
    var idx := KeptPositions(items, HasText, 0);
    forall k | 0 <= k < |SubmittedItems(items)|
      ensures SubmittedItems(items)[k].orderIndex == idx[k] + 1
    {
      assert SubmittedItems(items)[k] == items[idx[k]];
    }
  }

  /** The displayed total is the total of the items sent plus the total of
      the blank items dropped on submit. */
  lemma DisplayedTotalSplitsOnSubmit(items: seq<Item>)
    ensures PointsSum(items) == PointsSum(SubmittedItems(items)) + PointsSum(Filter(items, IsBlankItem))
  {
    PointsSumSplits(items, HasText, IsBlankItem);
  }
}
