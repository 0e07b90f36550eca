/** The list under the editor page's slash-command menu
    (src/Pages/Editor/SlashCommand/SuggestionList.jsx). Its entries are category headers
    and items; only items can be selected, and the selected index counts items only. */
module CategorySuggestionList {
  import opened Js
  import opened Wrappers
  import opened SuggestionTypes
  import opened Seqs
  import Cyclic = SuggestionList

  /** A menu entry: a category header (`type: 'category'`) or an item. */
  datatype Entry<T> = Header(title: string) | Command(item: T)

  function IsCommand<T>(): Entry<T> -> bool
  {
    (e: Entry<T>) => e.Command?
  }

  /** `items.filter(item => item.type !== 'category')`: the selectable entries. */
  function Selectable<T>(entries: seq<Entry<T>>): (r: seq<Entry<T>>)
    ensures forall i :: 0 <= i < |r| ==> r[i].Command?
  {
    SelectableAreCommands(entries);
    Filter(entries, IsCommand())
  }

  lemma SelectableAreCommands<T>(entries: seq<Entry<T>>)
    ensures forall i :: 0 <= i < |Filter(entries, IsCommand<T>())| ==> Filter(entries, IsCommand<T>())[i].Command?
  {
    FilterSatisfies(entries, IsCommand<T>());
  }

  /** The entry at index `k` of the entries is the `|Selectable(entries[..k])|`-th
      selectable entry: the visual index counts the items before it. */
  lemma {:induction false} VisualIndexIsPosition<T>(entries: seq<Entry<T>>, k: nat)
    requires k < |entries| && entries[k].Command?
    ensures |Selectable(entries[..k])| < |Selectable(entries)|
    ensures Selectable(entries)[|Selectable(entries[..k])|] == entries[k]
    decreases |entries|
  {
    if k + 1 < |entries| {
      VisualIndexIsPosition(entries[..|entries| - 1], k);
      assert entries[..|entries| - 1][..k] == entries[..k];
      assert entries == entries[..|entries| - 1] + [entries[|entries| - 1]];
      FilterAppend(entries[..|entries| - 1], entries[|entries| - 1], IsCommand());
    } else {
      assert entries == entries[..k] + [entries[k]];
      FilterAppend(entries[..k], entries[k], IsCommand());
    }
  }

  /** Two different item positions have different visual indices. */
  lemma {:induction false} VisualIndexGrows<T>(entries: seq<Entry<T>>, j: nat, k: nat)
    requires j < k <= |entries| && entries[j].Command?
    ensures |Selectable(entries[..j])| < |Selectable(entries[..k])|
    decreases k
  {
    if k == j + 1 {
      assert entries[..k] == entries[..j] + [entries[j]];
      FilterAppend(entries[..j], entries[j], IsCommand());
    } else {
      VisualIndexGrows(entries, j, k - 1);
      assert entries[..k] == entries[..k - 1] + [entries[k - 1]];
      FilterAppend(entries[..k - 1], entries[k - 1], IsCommand());
    }
  }

  /** Every selectable entry sits at a position of the entries whose visual index it is:
      the converse of VisualIndexIsPosition. */
  lemma {:induction false} PositionOfVisualIndex<T>(entries: seq<Entry<T>>, v: nat)
    requires v < |Selectable(entries)|
    ensures exists k :: 0 <= k < |entries| && entries[k].Command? && |Selectable(entries[..k])| == v
    decreases |entries|
  {
    var pre, last := entries[..|entries| - 1], entries[|entries| - 1];
    assert entries == pre + [last];
    FilterAppend(pre, last, IsCommand());
    if v < |Selectable(pre)| {
      PositionOfVisualIndex(pre, v);
      var k :| 0 <= k < |pre| && pre[k].Command? && |Selectable(pre[..k])| == v;
      assert pre[..k] == entries[..k];
      assert entries[k] == pre[k];
    } else {
      assert entries[..|pre|] == pre;
      assert entries[|pre|] == last;
    }
  }

  /** The `selectedIndex`-th selectable entry's item, when there is one. */
  function SelectedItem<T>(entries: seq<Entry<T>>, sel: Num): (r: Option<T>)
    ensures r.Some? <==> sel.Int? && 0 <= sel.v < |Selectable(entries)|
    ensures r.Some? ==> Selectable(entries)[sel.v] == Command(r.value)
  {
    var visible := Selectable(entries);
    if sel.Int? && 0 <= sel.v < |visible| then Some(visible[sel.v].item) else None
  }

  /** A rendered row: a category title, or an item's button and whether it is highlighted. */
  datatype Row<T> = HeaderRow(title: string) | ItemRow(item: T, highlighted: bool)

  /** The index the row's `onMouseEnter` handler selects, as the source has it: the
      closure reads the shared `visualIndex` variable after the render loop has finished,
      so every row selects the last selectable entry. */
  function HoverTargetAsWritten<T>(entries: seq<Entry<T>>, k: nat): int
    requires k < |entries|
  {
    |Selectable(entries)| - 1
  }

  /** The index a row's `onMouseEnter` evidently should select: the row's own visual index. */
  function HoverTarget<T>(entries: seq<Entry<T>>, k: nat): (r: nat)
    requires k < |entries| && entries[k].Command?
    ensures SelectedItem(entries, Int(r)) == Some(entries[k].item)
  {
    VisualIndexIsPosition(entries, k);
    |Selectable(entries[..k])|
  }

  /** As written, hovering the first of two items and pressing Enter runs the second. */
  lemma HoverAsWrittenSelectsLastItem()
    ensures var entries := [Header("Texto"), Command(1), Command(2)];
            HoverTargetAsWritten(entries, 1) == 1
            && SelectedItem(entries, Int(HoverTargetAsWritten(entries, 1))) == Some(2)
            && HoverTarget(entries, 1) == 0
  {
    var entries := [Header("Texto"), Command(1), Command(2)];
    assert entries[1..][1..] == [Command(2)];
    assert entries[..1] == [Header("Texto")];
    assert Selectable(entries) == [Command(1), Command(2)];
  }

  /** Rows whose item rows are highlighted where their visual index is the selection
      highlight only the selected item, at most one row, and some row whenever an item is
      selected. */
  lemma HighlightedRows<T>(items: seq<Entry<T>>, rows: seq<Row<T>>, sel: Num)
    requires |rows| == |items|
    requires forall k :: 0 <= k < |items| && items[k].Header? ==> rows[k] == HeaderRow(items[k].title)
    requires forall k :: 0 <= k < |items| && items[k].Command? ==>
               rows[k] == ItemRow(items[k].item, sel == Int(|Selectable(items[..k])|))
    ensures forall k :: 0 <= k < |items| && rows[k].ItemRow? && rows[k].highlighted ==>
              SelectedItem(items, sel) == Some(items[k].item) && sel == Int(|Selectable(items[..k])|)
    ensures forall j, k :: 0 <= j < k < |items| && rows[j].ItemRow? && rows[k].ItemRow? ==>
              !(rows[j].highlighted && rows[k].highlighted)
    ensures SelectedItem(items, sel).Some? ==>
              exists k :: 0 <= k < |items| && rows[k].ItemRow? && rows[k].highlighted
  {
    if SelectedItem(items, sel).Some? {
      PositionOfVisualIndex(items, sel.v);
      var k :| 0 <= k < |items| && items[k].Command? && |Selectable(items[..k])| == sel.v;
      assert rows[k].ItemRow? && rows[k].highlighted;
    }
    forall k | 0 <= k < |items| && rows[k].ItemRow? && rows[k].highlighted
      ensures SelectedItem(items, sel) == Some(items[k].item)
    {
      VisualIndexIsPosition(items, k);
    }
    forall j, k | 0 <= j < k < |items| && rows[j].ItemRow? && rows[k].ItemRow?
      ensures !(rows[j].highlighted && rows[k].highlighted)
    {
      VisualIndexGrows(items, j, k);
    }
  }

  class SuggestionList<T> {
    var items: seq<Entry<T>>
    var selectedIndex: Num

    /** The selection is a valid index into the selectable entries, or 0, or NaN after
        an arrow key with nothing selectable. */
    predicate Valid()
      reads this
    {
      match selectedIndex
      case Int(i) => 0 <= i && (i < |Selectable(items)| || i == 0)
      case NaN => |Selectable(items)| == 0
    }

    constructor (items: seq<Entry<T>>)
      ensures Valid() && this.items == items && selectedIndex == Int(0)
    {
      this.items := items;
      selectedIndex := Int(0);
    }

    /** The effect on `[items]`: new entries reset the selection to the first item. */
    method ItemsChanged(newItems: seq<Entry<T>>)
      modifies this
      ensures Valid() && items == newItems && selectedIndex == Int(0)
    {
      items := newItems;
      selectedIndex := Int(0);
    }

    /** The imperative handle's `onKeyDown` over the selectable entries; `chosen` is the
        item passed to `command`. The arrow keys use `(prev - 1 + n) % n` and
        `(prev + 1) % n`, the same values as the note page's list. */
    method OnKeyDown(key: Key) returns (handled: bool, chosen: Option<T>)
      requires Valid()
      modifies this
      ensures Valid() && items == old(items)
      ensures key == ArrowDown ==> selectedIndex == Cyclic.Down(old(selectedIndex), |Selectable(items)|)
      ensures key == ArrowUp ==> selectedIndex == Cyclic.Up(old(selectedIndex), |Selectable(items)|)
      ensures key != ArrowDown && key != ArrowUp ==> selectedIndex == old(selectedIndex)
      ensures chosen == if key == Enter then SelectedItem(items, selectedIndex) else None
      ensures handled <==> key == ArrowDown || key == ArrowUp || chosen.Some?
    {
      var visibleItems := Selectable(items);
      var n := |visibleItems|;
      if key == ArrowUp {
        selectedIndex := Rem(Add(Add(selectedIndex, Int(-1)), Int(n)), Int(n));
        return true, None;
      }
      if key == ArrowDown {
        selectedIndex := Rem(Add(selectedIndex, Int(1)), Int(n));
        return true, None;
      }
      if key == Enter {
        if selectedIndex.Int? && 0 <= selectedIndex.v < n {
          return true, Some(visibleItems[selectedIndex.v].item);
        }
      }
      return false, None;
    }

    /** The render loop: a header row per category entry and a button per item, where
        `visualIndex` counts the items so far. The highlighted row is exactly the
        `selectedIndex`-th selectable entry, and a valid selection over a menu with items
        always highlights one. */
    method Render() returns (rows: seq<Row<T>>)
      ensures |rows| == |items|
      ensures forall k :: 0 <= k < |items| && items[k].Header? ==> rows[k] == HeaderRow(items[k].title)
      ensures forall k :: 0 <= k < |items| && items[k].Command? ==>
                rows[k] == ItemRow(items[k].item, selectedIndex == Int(|Selectable(items[..k])|))
      ensures forall k :: 0 <= k < |items| && rows[k].ItemRow? && rows[k].highlighted ==>
                SelectedItem(items, selectedIndex) == Some(items[k].item)
                && selectedIndex == Int(|Selectable(items[..k])|)
      ensures forall j, k :: 0 <= j < k < |items| && rows[j].ItemRow? && rows[k].ItemRow? ==>
                !(rows[j].highlighted && rows[k].highlighted)
      ensures SelectedItem(items, selectedIndex).Some? ==>
                exists k :: 0 <= k < |items| && rows[k].ItemRow? && rows[k].highlighted
      ensures Valid() && |Selectable(items)| > 0 ==> SelectedItem(items, selectedIndex).Some?
    {
      var visualIndex := -1;
      rows := [];
      var index := 0;
      while index < |items|
        invariant 0 <= index <= |items|
        invariant |rows| == index
        invariant visualIndex == |Selectable(items[..index])| - 1
        invariant forall k :: 0 <= k < index && items[k].Header? ==> rows[k] == HeaderRow(items[k].title)
        invariant forall k :: 0 <= k < index && items[k].Command? ==>
                    rows[k] == ItemRow(items[k].item, selectedIndex == Int(|Selectable(items[..k])|))
      {
        var item := items[index];
        assert items[..index + 1] == items[..index] + [item];
        FilterAppend(items[..index], item, IsCommand());
        if item.Header? {
          rows := rows + [HeaderRow(item.title)];
        } else {
          visualIndex := visualIndex + 1;
          var isSelected := Int(visualIndex) == selectedIndex;
          rows := rows + [ItemRow(item.item, isSelected)];
        }
        index := index + 1;
      }
      assert items[..index] == items;
      HighlightedRows(items, rows, selectedIndex);
    }

    /** A row's `onMouseEnter`, as the source has it: selects the last selectable entry,
        whichever row is hovered. */
    method OnMouseEnterAsWritten(k: nat)
      requires Valid() && k < |items| && items[k].Command?
      modifies this
      ensures Valid() && items == old(items)
      ensures selectedIndex == Int(HoverTargetAsWritten(items, k))
    {
      VisualIndexIsPosition(items, k);
      selectedIndex := Int(|Selectable(items)| - 1);
    }

    /** A row's `onMouseEnter` with the row's own visual index: Enter afterwards runs the
        hovered item. */
    method OnMouseEnter(k: nat)
      requires Valid() && k < |items| && items[k].Command?
      modifies this
      ensures Valid() && items == old(items)
      ensures selectedIndex == Int(HoverTarget(items, k))
      ensures SelectedItem(items, selectedIndex) == Some(items[k].item)
    {
      VisualIndexIsPosition(items, k);
      selectedIndex := Int(|Selectable(items[..k])|);
    }

    /** A row's `onClick`: the clicked item is passed to `command`. */
    method OnClick(k: nat) returns (chosen: T)
      requires k < |items| && items[k].Command?
      ensures chosen == items[k].item
    {
      chosen := items[k].item;
    }
  }
}
