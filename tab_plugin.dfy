/** The table-cell overlay of the editor page (src/Pages/Editor/plugins/TabPlugin/TabPlugin.jsx):
    it finds the table cell holding the cursor by walking up the DOM, keeps that cell's
    box relative to the editor container, and shows a row tab and a column tab whose
    menus run row and column commands, with at most one menu open at a time. */
module TabPlugin {
  import opened Wrappers

  /** A DOM node as the walk sees it: its name and its parent. `depth` is the number of
      ancestors, which makes the walk finite. */
  class DomNode {
    const nodeName: string
    const parentNode: DomNode?
    ghost const depth: nat

    constructor (nodeName: string, parentNode: DomNode?)
      ensures this.nodeName == nodeName && this.parentNode == parentNode
      ensures depth == if parentNode == null then 0 else parentNode.depth + 1
    {
      this.nodeName := nodeName;
      this.parentNode := parentNode;
      depth := if parentNode == null then 0 else parentNode.depth + 1;
    }
  }

  /** Every parent is one level closer to the root: the parent chain ends. */
  ghost predicate Chain(n: DomNode)
    decreases n.depth
  {
    n.parentNode != null ==> n.parentNode.depth < n.depth && Chain(n.parentNode)
  }

  /** The node followed by its ancestors, up to the root. */
  ghost function Path(n: DomNode): (p: seq<DomNode>)
    requires Chain(n)
    ensures |p| > 0 && p[0] == n
    decreases n.depth
  {
    if n.parentNode == null then [n] else [n] + Path(n.parentNode)
  }

  lemma {:induction false} PathStep(n: DomNode, i: nat)
    requires Chain(n) && i < |Path(n)|
    ensures Chain(Path(n)[i])
    ensures Path(n)[i].parentNode == if i + 1 < |Path(n)| then Path(n)[i + 1] else null
    decreases n.depth
  {
    if i > 0 {
      PathStep(n.parentNode, i - 1);
    }
  }

  predicate IsCell(n: DomNode)
  {
    n.nodeName == "TD" || n.nodeName == "TH"
  }

  /** `findTableCell`: nothing without an editor; otherwise the nearest node, starting
      from the one at the cursor and going up through its ancestors, named TD or TH, or
      nothing when there is none. */
  method FindTableCell(hasEditor: bool, atCursor: DomNode) returns (cell: DomNode?)
    requires Chain(atCursor)
    ensures !hasEditor ==> cell == null
    ensures hasEditor ==> (cell == null <==> forall j :: 0 <= j < |Path(atCursor)| ==> !IsCell(Path(atCursor)[j]))
    ensures cell != null ==> IsCell(cell)
                             && exists k :: 0 <= k < |Path(atCursor)| && Path(atCursor)[k] == cell
                                            && forall j :: 0 <= j < k ==> !IsCell(Path(atCursor)[j])
  {
    if !hasEditor {
      return null;
    }
    var dom: DomNode? := atCursor;
    ghost var i := 0;
    while dom != null && dom.nodeName != "TD" && dom.nodeName != "TH"
      invariant 0 <= i <= |Path(atCursor)|
      invariant i < |Path(atCursor)| ==> dom == Path(atCursor)[i]
      invariant i == |Path(atCursor)| ==> dom == null
      invariant forall j :: 0 <= j < i ==> !IsCell(Path(atCursor)[j])
      decreases |Path(atCursor)| - i
    {
      PathStep(atCursor, i);
      dom := dom.parentNode;
      i := i + 1;
    }
    cell := dom;
  }

  /** A box: position and size. */
  datatype Rect = Rect(top: int, left: int, width: int, height: int)

  /** The cell's box relative to the container's: the same size, moved by minus the
      container's top-left corner. */
  function Relative(box: Rect, container: Rect): (r: Rect)
    ensures r.top + container.top == box.top && r.left + container.left == box.left
    ensures r.width == box.width && r.height == box.height
  {
    Rect(box.top - container.top, box.left - container.left, box.width, box.height)
  }

  /** The commands the row and column menus run on the editor. */
  datatype TableCommand = AddRowBefore | AddRowAfter | DeleteRow | AddColumnBefore | AddColumnAfter | DeleteColumn
  {
    predicate IsRow() { this == AddRowBefore || this == AddRowAfter || this == DeleteRow }
  }

  /** Where a mousedown lands, relative to the overlay's tabs and menus. */
  datatype Target = InRowMenu | InRowToggle | InColMenu | InColToggle | Elsewhere

  /** What is drawn: the row tab above the cell, the column tab to its left, and the
      menus that are open. */
  datatype Overlay = Overlay(rowToggle: Rect, colToggle: Rect, rowMenu: bool, colMenu: bool)

  class TabPlugin {
    var cellRect: Option<Rect>
    var cellElement: DomNode?
    var showRowMenu: bool
    var showColMenu: bool

    /** At most one menu is open, and the cell and its box are known together. */
    predicate Valid()
      reads this
    {
      !(showRowMenu && showColMenu) && (cellRect.None? <==> cellElement == null)
    }

    constructor ()
      ensures Valid() && cellRect == None && cellElement == null && !showRowMenu && !showColMenu
    {
      cellRect := None;
      cellElement := null;
      showRowMenu := false;
      showColMenu := false;
    }

    /** `updateCellRect`: with a cell at the cursor and a container, the nearest cell
        above the cursor and its box relative to the container are kept; otherwise both are cleared. `boxOf` is
        `getBoundingClientRect`. */
    method UpdateCellRect(hasEditor: bool, atCursor: DomNode, container: Option<Rect>, boxOf: DomNode -> Rect)
      requires Valid() && Chain(atCursor)
      modifies this
      ensures Valid() && showRowMenu == old(showRowMenu) && showColMenu == old(showColMenu)
      ensures cellElement != null ==>
                IsCell(cellElement) && container.Some?
                && (exists k :: 0 <= k < |Path(atCursor)| && Path(atCursor)[k] == cellElement
                                && forall j :: 0 <= j < k ==> !IsCell(Path(atCursor)[j]))
                && cellRect == Some(Relative(boxOf(cellElement), container.value))
      ensures cellElement == null ==> cellRect == None
      ensures hasEditor && container.Some? ==>
                (cellElement == null <==> forall j :: 0 <= j < |Path(atCursor)| ==> !IsCell(Path(atCursor)[j]))
      ensures !hasEditor || container.None? ==> cellElement == null
    {
      var cell := FindTableCell(hasEditor, atCursor);
      if cell != null && container.Some? {
        cellElement := cell;
        cellRect := Some(Relative(boxOf(cell), container.value));
      } else {
        cellRect := None;
        cellElement := null;
      }
    }

    /** `toggleRowMenu`: flips the row menu and closes the column menu. */
    method ToggleRowMenu()
      requires Valid()
      modifies this
      ensures Valid() && showRowMenu == !old(showRowMenu) && !showColMenu
      ensures cellRect == old(cellRect) && cellElement == old(cellElement)
    {
      showRowMenu := !showRowMenu;
      showColMenu := false;
    }

    /** `toggleColMenu`: flips the column menu and closes the row menu. */
    method ToggleColMenu()
      requires Valid()
      modifies this
      ensures Valid() && showColMenu == !old(showColMenu) && !showRowMenu
      ensures cellRect == old(cellRect) && cellElement == old(cellElement)
    {
      showColMenu := !showColMenu;
      showRowMenu := false;
    }

    /** An entry of the open row menu: runs its command and closes the row menu. */
    method RunRowCommand(command: TableCommand) returns (run: TableCommand)
      requires Valid() && cellRect.Some? && showRowMenu && command.IsRow()
      modifies this
      ensures Valid() && run == command && !showRowMenu && showColMenu == old(showColMenu)
      ensures cellRect == old(cellRect) && cellElement == old(cellElement)
    {
      run := command;
      showRowMenu := false;
    }

    /** An entry of the open column menu: runs its command and closes the column menu. */
    method RunColumnCommand(command: TableCommand) returns (run: TableCommand)
      requires Valid() && cellRect.Some? && showColMenu && !command.IsRow()
      modifies this
      ensures Valid() && run == command && !showColMenu && showRowMenu == old(showRowMenu)
      ensures cellRect == old(cellRect) && cellElement == old(cellElement)
    {
      run := command;
      showColMenu := false;
    }

    /** The document's mousedown handler. A menu's element exists only while the overlay
        is drawn and the menu is open, and a tab's only while the overlay is drawn; a menu
        closes when both exist and the target is in neither. */
    method HandleClickOutside(target: Target)
      requires Valid()
      modifies this
      ensures Valid() && cellRect == old(cellRect) && cellElement == old(cellElement)
      ensures showRowMenu == (old(showRowMenu) && (cellRect.None? || target == InRowMenu || target == InRowToggle))
      ensures showColMenu == (old(showColMenu) && (cellRect.None? || target == InColMenu || target == InColToggle))
    {
      var drawn := cellRect.Some?;
      var rowMenuShown, colMenuShown := drawn && showRowMenu, drawn && showColMenu;
      if rowMenuShown && target != InRowMenu && drawn && target != InRowToggle {
        showRowMenu := false;
      }
      if colMenuShown && target != InColMenu && drawn && target != InColToggle {
        showColMenu := false;
      }
    }

    /** The rendered overlay: nothing without a cell box; otherwise a 20-pixel row tab
        above the cell, a 20-pixel column tab to its left, and the open menu, if any. */
    function Render(): (r: Option<Overlay>)
      reads this
      requires Valid()
      ensures r.None? <==> cellRect.None?
      ensures r.Some? ==> r.value.rowToggle == Rect(cellRect.value.top - 20, cellRect.value.left, cellRect.value.width, 20)
                          && r.value.colToggle == Rect(cellRect.value.top, cellRect.value.left - 20, 20, cellRect.value.height)
                          && r.value.rowMenu == showRowMenu && r.value.colMenu == showColMenu
                          && !(r.value.rowMenu && r.value.colMenu)
    {
      if cellRect.None? then None
      else
        var c := cellRect.value;
        Some(Overlay(Rect(c.top - 20, c.left, c.width, 20), Rect(c.top, c.left - 20, 20, c.height), showRowMenu, showColMenu))
    }
  }
}
