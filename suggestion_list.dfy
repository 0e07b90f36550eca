/** The list under the note page's slash-command menu (src/components/SuggestionList.jsx):
    a selected index moved cyclically by the arrow keys, Enter to run the selected item,
    and a button per item with the selected one highlighted. */
module SuggestionList {
  import opened Js
  import opened Wrappers
  import opened SuggestionTypes
  import SlashCommand

  type Item = SlashCommand.Item

  /** ArrowDown: `(prev + 1) % items.length`. */
  function Down(sel: Num, n: nat): (r: Num)
    ensures n == 0 || sel.NaN? ==> r == NaN
    ensures n > 0 && sel.Int? && 0 <= sel.v < n ==> r.Int? && 0 <= r.v < n && r.v == (sel.v + 1) % n
  {
    Rem(Add(sel, Int(1)), Int(n))
  }

  /** ArrowUp: `(prev + items.length - 1) % items.length`. */
  function Up(sel: Num, n: nat): (r: Num)
    ensures n == 0 || sel.NaN? ==> r == NaN
    ensures n > 0 && sel.Int? && 0 <= sel.v < n ==> r.Int? && 0 <= r.v < n && r.v == (sel.v + n - 1) % n
  {
    Rem(Add(Add(sel, Int(n)), Int(-1)), Int(n))
  }

  lemma ModInRange(a: int, n: int)
    requires 0 < n && 0 <= a < 2 * n
    ensures a % n == if a < n then a else a - n
  {
    if a >= n {
      assert a == (a - n) + n * 1;
    }
  }

  /** ArrowUp undoes ArrowDown and ArrowDown undoes ArrowUp, for a selection in range. */
  lemma UpDownCancel(i: int, n: nat)
    requires 0 <= i < n
    ensures Up(Down(Int(i), n), n) == Int(i)
    ensures Down(Up(Int(i), n), n) == Int(i)
  {
    ModInRange(i + 1, n);
    var d := if i + 1 < n then i + 1 else 0;
    assert Down(Int(i), n) == Int(d);
    ModInRange(d + n - 1, n);
    assert Up(Int(d), n) == Int(i);
    ModInRange(i + n - 1, n);
    var u := if i == 0 then n - 1 else i - 1;
    assert Up(Int(i), n) == Int(u);
    ModInRange(u + 1, n);
    assert Down(Int(u), n) == Int(i);
  }

  /** `items[selectedIndex]` when it exists. */
  function Selected(items: seq<Item>, sel: Num): (r: Option<Item>)
    ensures r.Some? <==> sel.Int? && 0 <= sel.v < |items|
  {
    if sel.Int? && 0 <= sel.v < |items| then Some(items[sel.v]) else None
  }

  datatype Button = Button(title: string, highlighted: bool)

  /** What the list renders: the "No result" placeholder, or one button per item. */
  datatype View = NoResult | Buttons(buttons: seq<Button>)

  function CountHighlighted(bs: seq<Button>): nat
  {
    if bs == [] then 0 else (if bs[0].highlighted then 1 else 0) + CountHighlighted(bs[1..])
  }

  class SuggestionList {
    var items: seq<Item>
    var selectedIndex: Num

    /** The selection is a valid index, or 0, or NaN after an arrow key on an empty list. */
    predicate Valid()
      reads this
    {
      match selectedIndex
      case Int(i) => 0 <= i && (i < |items| || i == 0)
      case NaN => |items| == 0
    }

    constructor (items: seq<Item>)
      ensures Valid() && this.items == items && selectedIndex == Int(0)
    {
      this.items := items;
      selectedIndex := Int(0);
    }

    /** The effect on `[items]`: new items reset the selection to the first one. */
    method ItemsChanged(newItems: seq<Item>)
      modifies this
      ensures Valid() && items == newItems && selectedIndex == Int(0)
    {
      items := newItems;
      selectedIndex := Int(0);
    }

    /** The imperative handle's `onKeyDown`; `chosen` is the item passed to `command`. */
    method OnKeyDown(key: Key) returns (handled: bool, chosen: Option<Item>)
      requires Valid()
      modifies this
      ensures Valid() && items == old(items)
      ensures key == ArrowDown ==> selectedIndex == Down(old(selectedIndex), |items|)
      ensures key == ArrowUp ==> selectedIndex == Up(old(selectedIndex), |items|)
      ensures key != ArrowDown && key != ArrowUp ==> selectedIndex == old(selectedIndex)
      ensures chosen == if key == Enter then Selected(items, selectedIndex) else None
      ensures handled <==> key == ArrowDown || key == ArrowUp || chosen.Some?
    {
      var n := |items|;
      if key == ArrowUp {
        selectedIndex := Rem(Add(Add(selectedIndex, Int(n)), Int(-1)), Int(n));
        return true, None;
      }
      if key == ArrowDown {
        selectedIndex := Rem(Add(selectedIndex, Int(1)), Int(n));
        return true, None;
      }
      if key == Enter {
        if selectedIndex.Int? && 0 <= selectedIndex.v < n {
          return true, Some(items[selectedIndex.v]);
        }
      }
      return false, None;
    }

    /** The rendered list: "No result" for no items, otherwise a button per item in order,
        highlighted exactly at the selected index. At most one button is highlighted, and
        one is exactly when Enter would run an item, which a valid selection over a
        non-empty list always gives. */
    function Render(): (v: View)
      reads this
      ensures v == NoResult <==> |items| == 0
      ensures v.Buttons? ==> |v.buttons| == |items|
                             && (forall k :: 0 <= k < |items| ==> v.buttons[k].title == items[k].title)
                             && (forall k :: 0 <= k < |items| ==> (v.buttons[k].highlighted <==> selectedIndex == Int(k)))
      ensures v.Buttons? ==> CountHighlighted(v.buttons) == if Selected(items, selectedIndex).Some? then 1 else 0
      ensures Valid() && v.Buttons? ==> CountHighlighted(v.buttons) == 1
    {
      if |items| == 0 then NoResult
      else
        var its, sel := items, selectedIndex;
        var bs := seq(|its|, k requires 0 <= k < |its| => Button(its[k].title, sel == Int(k)));
        HighlightCount(bs, sel, 0);
        Buttons(bs)
    }
  }

  /** Buttons highlighted where `sel == Int(offset + k)` contain one highlighted button
      exactly when `sel` points into them. */
  lemma {:induction false} HighlightCount(bs: seq<Button>, sel: Num, offset: int)
    requires forall k :: 0 <= k < |bs| ==> (bs[k].highlighted <==> sel == Int(offset + k))
    ensures CountHighlighted(bs) == if sel.Int? && offset <= sel.v < offset + |bs| then 1 else 0
    decreases |bs|
  {
    if bs != [] {
      HighlightCount(bs[1..], sel, offset + 1);
    }
  }
}
