/** What the slash-command menus hand to the editor and receive from the suggestion
    plugin: the editor actions their items run, the "/query" range, the props the
    plugin passes to the render callbacks, the keys it forwards, and the popup. */
module SuggestionTypes {

  /** What an item's `command` does after deleting the typed "/query" range. */
  datatype Action =
    | SetHeading(level: nat)
    | SetParagraph
    | ToggleBulletList
    | ToggleOrderedList
    | ToggleTaskList
    | ToggleBlockquote
    | ToggleCodeBlock
    | SetHorizontalRule
    | InsertTable(rows: nat, cols: nat, withHeaderRow: bool)
    | ImageFromPromptedUrl
    | InsertImageUploader
    | InsertColumnsNode
    | InsertColumnsHtml
    | InsertTableOfContentsPlaceholder

  /** The document range covering the "/" and the query typed after it. */
  datatype Range = Range(from: nat, to: nat)

  /** The plugin's props as far as the commands use them; the editor is implicit. */
  datatype Props = Props(range: Range)

  /** One call of an item's command with the recorded editor and range. */
  datatype Invocation = Invocation(action: Action, range: Range)

  datatype Key = Escape | ArrowUp | ArrowDown | Enter | OtherKey(name: string)

  /** The tippy popup: not created yet, shown, hidden, or destroyed. */
  datatype Popup = NoPopup | Shown | Hidden | Destroyed

  /** Escape hides a popup that exists and has not been destroyed. */
  function HideOnEscape(p: Popup): (r: Popup)
    ensures p == NoPopup || p == Destroyed ==> r == p
    ensures p == Shown || p == Hidden ==> r == Hidden
  {
    if p == Shown || p == Hidden then Hidden else p
  }
}
