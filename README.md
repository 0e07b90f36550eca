# Struct note editor: a Dafny model of its logic

Struct is a note-taking web application. Notes are HTML documents kept in a storage bucket under
`<note>/index.html`, and their images are kept under `<note>/assets/`. This project models the
parts of the application that carry logic of their own and proves what they promise:

- **Autosave** (`autosave.dfy`) is the editor page's debounced autosave. It keeps a save status
  (`saved`, `unsaved`, `saving`, `error`), an in-progress flag, the last-saved HTML and a pending
  debounce timer. Pure transition functions specify each handler. The class `AutosaveEditor`
  holds the component's refs and state, and each of its methods is proved to make exactly its
  transition. Lemmas then show that a run of events keeps the invariant and that saves never
  overlap.
- **Slash-command menus.**
  - The note page's menu (`slash_command.dfy`) is a case-insensitive substring filter over 16
    items.
  - The editor page's menu (`category_slash_command.dfy`) groups the search results by category
    into a header-plus-items list. Its `grouped` loop is a method proved against a reference
    definition.
  - The two suggestion lists (`suggestion_list.dfy`, `category_suggestion_list.dfy`) do cyclic
    keyboard selection. Lists with no items are handled with JavaScript's NaN. The second list
    skips category rows and highlights the right row through a mutable visual index.
- **Image uploader node** (`image_uploader.dfy`): the `style` attribute it renders, and the
  first-match scanning that parses width and height back. It has a round-trip theorem.
- **Table-cell overlay** (`tab_plugin.dfy`): the walk up the DOM to the nearest `TD`/`TH`, the
  relative cell box, and the two menus, of which at most one is open.
- **Knowledge map** (`knowledge_map.dfy`): `toggleInTree` as a pure recursive map, and
  `flattenTree` as an imperative pre-order walk with absolute positions, the zoom gate and
  parent-to-child edges. The walk is proved equal to a recursive definition, and shape, count and
  edge properties are proved about that definition.
- **Note sessions** (`storage.dfy`, `notes_page.dfy`, `use_notes.dfy`). The two note pages run
  over the bucket, modelled as a map from path to text:
  - saving to `<id>/index.html`, with the empty-id guard;
  - listing only the folders that hold an `index.html`, in order;
  - deleting;
  - the unused-image cleanup;
  - the resets of their state.

Calls to the storage service, `confirm`, the fuzzy search and the regular expression's `exec`
become parameters that carry their outcome. `await` is modelled as a sequential call.

## Model

| member | source | states |
|---|---|---|
| Autosave.AfterCreate | src/Pages/Editor/Editor.jsx:73-76 | the editor's first HTML becomes the last-saved HTML and the status is `saved` |
| Autosave.AfterUpdate | src/Pages/Editor/Editor.jsx:77-85 | an edit while saving, or one equal to the last-saved HTML, changes nothing; otherwise the status is `unsaved`, exactly one timer is pending and last-saved is kept |
| Autosave.StartSave | src/Pages/Editor/Editor.jsx:88-97 | no save while one is in progress or without `onSave`; unchanged content outside `error` issues no save and turns `unsaved` into `saved`; otherwise (including the retry from `error`) the save starts with that HTML and the status is `saving` |
| Autosave.Settle | src/Pages/Editor/Editor.jsx:99-108 | on success last-saved becomes the saved HTML and the status `saved`; on failure the status is `error` and last-saved is untouched; either way the flag is off and no timer is pending |
| Autosave.TimerFires | src/Pages/Editor/Editor.jsx:83 | the debounce timer runs `handleSave` only when pending, and afterwards no timer is pending unless nothing happened |
| Autosave.ManualSave | src/Pages/Editor/Editor.jsx:111-114 | the pending timer is cancelled first; the save starts with the given HTML exactly when `handleSave` would issue one |
| Autosave.StepKeepsInv | src/Pages/Editor/Editor.jsx:77-114 | every handler keeps the invariant: the status reads `saving` exactly while a save is in progress, and no timer is pending then |
| Autosave.RunKeepsInv | src/Pages/Editor/Editor.jsx:73-114 | after creation, every sequence of edits, timer firings, manual saves and settles keeps the invariant |
| Autosave.RunFromInv | src/Pages/Editor/Editor.jsx:77-114 | any run of events from a state with the invariant keeps it |
| Autosave.StepSavingFlag | src/Pages/Editor/Editor.jsx:89-106 | a step issues `onSave` only when no save is in progress and then turns the flag on; a settle turns it off; any other step leaves it |
| Autosave.SavesNeverOverlap | src/Pages/Editor/Editor.jsx:89-106 | along any run, the saves started exceed the saves completed by exactly the change of the in-progress flag, so from no save in progress at most one save is ever awaited |
| Autosave.EditIsSavedByTimer | src/Pages/Editor/Editor.jsx:80-102 | a new edit, the timer firing and a successful save leave the status `saved` with the edit as last-saved |
| Autosave.FailedSaveIsRetried | src/Pages/Editor/Editor.jsx:91-104 | after a failed save the unchanged content is sent again by a manual save |
| Autosave.AutosaveEditor.constructor | src/Pages/Editor/Editor.jsx:34-37 | status `saved`, not saving, no timer, the initial content as last-saved |
| Autosave.AutosaveEditor.OnCreate | src/Pages/Editor/Editor.jsx:73-76 | the fields change exactly as `AfterCreate` says |
| Autosave.AutosaveEditor.OnUpdate | src/Pages/Editor/Editor.jsx:77-85 | the fields change exactly as `AfterUpdate` says, keeping the invariant |
| Autosave.AutosaveEditor.HandleSave | src/Pages/Editor/Editor.jsx:88-97 | the fields change exactly as `StartSave` says; the result tells whether `onSave` was called |
| Autosave.AutosaveEditor.SaveSettled | src/Pages/Editor/Editor.jsx:99-108 | the fields change exactly as `Settle` says |
| Autosave.AutosaveEditor.TimerFired | src/Pages/Editor/Editor.jsx:83-97 | the timer fires and the fields change as `TimerFires` says |
| Autosave.AutosaveEditor.HandleManualSave | src/Pages/Editor/Editor.jsx:111-114 | the fields change as `ManualSave` says; the result tells whether `onSave` was called |
| SlashCommand.AllItems | src/components/SlashCommand.jsx:32-154 | the menu has 16 items, in the source's order |
| SlashCommand.Items | src/components/SlashCommand.jsx:155 | every listed item's lower-cased title contains the lower-cased query |
| SlashCommand.ItemsAreTheMatches | src/components/SlashCommand.jsx:30-155 | an item is listed exactly when its lower-cased title contains the lower-cased query, in the items' order |
| SlashCommand.EmptyQueryListsAll | src/components/SlashCommand.jsx:155 | an empty query lists all 16 items |
| SlashCommand.CaseInsensitive | src/components/SlashCommand.jsx:31-155 | queries that lower-case alike give the same items, so upper-casing a query changes nothing |
| SlashCommand.ExtendingNarrows | src/components/SlashCommand.jsx:155 | the items for `q + more` are a subsequence of those for `q` |
| SlashCommand.NarrowerFilter | src/components/SlashCommand.jsx:155 | the filter for a longer query keeps a subsequence of what the shorter keeps, over any item list |
| SlashCommand.ExecuteCommand | src/components/SlashCommand.jsx:161-168 | nothing runs before props are recorded; otherwise the item's command runs with the recorded range |
| SlashCommand.OnKeyDown | src/components/SlashCommand.jsx:206-217 | Escape hides a live popup and is always consumed; other keys are whatever the list answers, or false without a list |
| SuggestionTypes.HideOnEscape | src/components/SlashCommand.jsx:207-211 | a shown popup is hidden; a missing or destroyed one is left alone |
| SuggestionList.Down | src/components/SuggestionList.jsx:19-22 | for n > 0 and a selection in range, the result is `(i + 1) mod n`, in range; with no items it is NaN |
| SuggestionList.Up | src/components/SuggestionList.jsx:14-17 | for n > 0 and a selection in range, the result is `(i + n - 1) mod n`, in range; with no items it is NaN |
| SuggestionList.UpDownCancel | src/components/SuggestionList.jsx:16-21 | ArrowUp after ArrowDown, and the reverse, give back the selection |
| SuggestionList.Selected | src/components/SuggestionList.jsx:26 | `items[selectedIndex]` exists exactly when the selection is an index of the items |
| SuggestionList.SuggestionList.constructor | src/components/SuggestionList.jsx:6 | the selection starts at 0 |
| SuggestionList.SuggestionList.ItemsChanged | src/components/SuggestionList.jsx:8-10 | new items reset the selection to 0 |
| SuggestionList.SuggestionList.OnKeyDown | src/components/SuggestionList.jsx:12-33 | arrows move the selection cyclically and return true; Enter passes exactly the selected item to `command` and returns true when it exists; any other key returns false with the selection unchanged |
| SuggestionList.SuggestionList.Render | src/components/SuggestionList.jsx:48-68 | no items render "No result"; otherwise one button per item, of which exactly one is highlighted when the selection is an index, else none, and always one under a valid selection |
| SuggestionList.HighlightCount | src/components/SuggestionList.jsx:55 | buttons highlighted where their index equals the selection contain one highlighted button if the selection falls among them, else none |
| CategorySuggestionList.Selectable | src/Pages/Editor/SlashCommand/SuggestionList.jsx:13 | only item entries are selectable |
| CategorySuggestionList.SelectableAreCommands | src/Pages/Editor/SlashCommand/SuggestionList.jsx:13 | the filter keeps only non-category entries |
| CategorySuggestionList.PositionOfVisualIndex | src/Pages/Editor/SlashCommand/SuggestionList.jsx:36-71 | every selectable index is the visual index of some item row |
| CategorySuggestionList.VisualIndexIsPosition | src/Pages/Editor/SlashCommand/SuggestionList.jsx:36-71 | the item at row k is the selectable entry whose index is the count of items before row k, which is the row's visual index |
| CategorySuggestionList.VisualIndexGrows | src/Pages/Editor/SlashCommand/SuggestionList.jsx:70 | item rows further down have larger visual indices |
| CategorySuggestionList.SelectedItem | src/Pages/Editor/SlashCommand/SuggestionList.jsx:26-27 | `visibleItems[selectedIndex]` exists exactly when the selection indexes the selectable entries, and is that entry |
| CategorySuggestionList.HoverTarget | src/Pages/Editor/SlashCommand/SuggestionList.jsx:70-76 | the index a hover should select: the one that makes the hovered row's item the selected item |
| CategorySuggestionList.HoverAsWrittenSelectsLastItem | src/Pages/Editor/SlashCommand/SuggestionList.jsx:36-76 | as written, hovering the first of two items selects the second, so Enter runs the item that was not hovered |
| CategorySuggestionList.HighlightedRows | src/Pages/Editor/SlashCommand/SuggestionList.jsx:70-84 | rows highlighted where their visual index equals the selection highlight only the selected item, never two rows, and some row whenever an item is selected |
| CategorySuggestionList.SuggestionList.constructor | src/Pages/Editor/SlashCommand/SuggestionList.jsx:5 | the selection starts at 0 |
| CategorySuggestionList.SuggestionList.ItemsChanged | src/Pages/Editor/SlashCommand/SuggestionList.jsx:7-9 | new entries reset the selection to 0 |
| CategorySuggestionList.SuggestionList.OnKeyDown | src/Pages/Editor/SlashCommand/SuggestionList.jsx:12-33 | arrows move cyclically over the non-category entries; Enter runs exactly the selected selectable item when it exists; other keys return false with the selection unchanged |
| CategorySuggestionList.SuggestionList.Render | src/Pages/Editor/SlashCommand/SuggestionList.jsx:36-95 | one row per entry: a header for a category, a button for an item highlighted exactly when its visual index is the selection; a highlighted row's item is the selected item, exactly one row is highlighted when an item is selected, and a valid selection over a menu with items always selects one |
| CategorySuggestionList.SuggestionList.OnMouseEnterAsWritten | src/Pages/Editor/SlashCommand/SuggestionList.jsx:36-76 | as written, hovering selects the final value of the shared visual index |
| CategorySuggestionList.SuggestionList.OnMouseEnter | src/Pages/Editor/SlashCommand/SuggestionList.jsx:71-76 | hovering a row selects that row's item |
| CategorySuggestionList.SuggestionList.OnClick | src/Pages/Editor/SlashCommand/SuggestionList.jsx:75 | clicking a row passes its item to `command` |
| CategorySlashCommand.AllItems | src/Pages/Editor/SlashCommand/SlashCommand.jsx:33-149 | the menu has 14 items, in the source's order |
| CategorySlashCommand.Items | src/Pages/Editor/SlashCommand/SlashCommand.jsx:156-167 | the results, grouped and flattened, are exactly the menu of the results |
| CategorySlashCommand.Group | src/Pages/Editor/SlashCommand/SlashCommand.jsx:157-162 | the loop's keys are the categories in order of first appearance and each group holds exactly that category's results, in order |
| CategorySlashCommand.GroupStep | src/Pages/Editor/SlashCommand/SlashCommand.jsx:159-161 | one more result appends its category to the keys if new, and the result to that group |
| CategorySlashCommand.CategoriesListed | src/Pages/Editor/SlashCommand/SlashCommand.jsx:158-162 | a category is a key exactly when some result has it, and no key repeats |
| CategorySlashCommand.UnlistedIsEmpty | src/Pages/Editor/SlashCommand/SlashCommand.jsx:158-162 | a category no result has has no items |
| CategorySlashCommand.CategoriesOfPrefix | src/Pages/Editor/SlashCommand/SlashCommand.jsx:159-161 | the categories of a prefix of the results come first, in the same order |
| CategorySlashCommand.FirstAppearance | src/Pages/Editor/SlashCommand/SlashCommand.jsx:160 | a category's first result places it right after the categories already seen |
| CategorySlashCommand.FlatMapHeaders | src/Pages/Editor/SlashCommand/SlashCommand.jsx:164-167 | the flattened groups hold one header per key, in key order |
| CategorySlashCommand.FlatMapSplit | src/Pages/Editor/SlashCommand/SlashCommand.jsx:164-167 | the flattened groups hold, as a multiset, exactly the results of the keys' categories |
| CategorySlashCommand.MenuContents | src/Pages/Editor/SlashCommand/SlashCommand.jsx:158-167 | the headers are the categories in order of first appearance; every result appears once; the length is results plus categories |
| CategorySlashCommand.FlatMapUnderHeaders | src/Pages/Editor/SlashCommand/SlashCommand.jsx:164-167 | in the flattened groups every item's last header above it is its group's |
| CategorySlashCommand.ItemsUnderTheirCategory | src/Pages/Editor/SlashCommand/SlashCommand.jsx:158-167 | every item of the menu sits under the header of its own category |
| CategorySlashCommand.FlatMapHeadersFollowed | src/Pages/Editor/SlashCommand/SlashCommand.jsx:164-167 | non-empty groups put an item of the header's category right after each header |
| CategorySlashCommand.HeadersHaveItems | src/Pages/Editor/SlashCommand/SlashCommand.jsx:158-167 | every header of the menu is directly followed by an item of its category |
| CategorySlashCommand.SplitCommands | src/Pages/Editor/SlashCommand/SlashCommand.jsx:166 | a group's spread gives back exactly its items, in order, and no header |
| CategorySlashCommand.GroupsKeepOrder | src/Pages/Editor/SlashCommand/SlashCommand.jsx:159-161 | within a category the items keep their order in the results |
| CategorySlashCommand.AllCategories | src/Pages/Editor/SlashCommand/SlashCommand.jsx:33-149 | the 14 items' categories in order of first appearance are Texto, Listas, Layout, Mídia |
| CategorySlashCommand.EmptyQueryMenu | src/Pages/Editor/SlashCommand/SlashCommand.jsx:33-167 | with an empty query the menu has headers Texto, Listas, Layout, Mídia, 18 entries, and all 14 items |
| CategorySlashCommand.Renderer.constructor | src/Pages/Editor/SlashCommand/SlashCommand.jsx:172 | no props, no popup, no list |
| CategorySlashCommand.Renderer.ExecuteCommand | src/Pages/Editor/SlashCommand/SlashCommand.jsx:174-181 | a category header never runs and nothing runs before props are recorded; otherwise the item's command runs with the recorded range |
| CategorySlashCommand.Renderer.OnStart | src/Pages/Editor/SlashCommand/SlashCommand.jsx:196-213 | without a client rect nothing changes; otherwise the props are recorded, a list is mounted and the popup is shown |
| CategorySlashCommand.Renderer.OnUpdate | src/Pages/Editor/SlashCommand/SlashCommand.jsx:215-223 | with a client rect the props are recorded and the mounted list gets the new entries, which resets its selection |
| CategorySlashCommand.ShownPopupPassesGuard | src/Pages/Editor/SlashCommand/SlashCommand.jsx:226-230 | a shown popup passes the intended guard and Escape then hides it |
| CategorySlashCommand.Renderer.OnKeyDown | src/Pages/Editor/SlashCommand/SlashCommand.jsx:225-236 | with the guard as intended: Escape hides a live popup and is always consumed; other keys go to the list, which moves its selection cyclically on the arrows and keeps it otherwise, or return false without one |
| CategorySlashCommand.Renderer.OnEscapeAsWritten | src/Pages/Editor/SlashCommand/SlashCommand.jsx:226-231 | as written, Escape is consumed and the popup is left as it was |
| CategorySlashCommand.Renderer.OnExit | src/Pages/Editor/SlashCommand/SlashCommand.jsx:238-243 | with the guard as intended, a live popup is destroyed and the list is unmounted |
| CategorySlashCommand.Renderer.OnExitAsWritten | src/Pages/Editor/SlashCommand/SlashCommand.jsx:238-243 | as written, the list is unmounted and the popup is left as it was |
| ImageUploader.Defaults | src/components/ImageUploader.js:11-17 | no image, and the width and height that a node without a style parses to |
| ImageUploader.FirstMatchIsLeftmost | src/components/ImageUploader.js:27-28 | the scan finds the leftmost matching position, or nothing exactly when no position matches |
| ImageUploader.GetAttrs | src/components/ImageUploader.js:23-37 | width and height are each the group of the leftmost match of their pattern in the style (a missing style read as empty), or `100%` and `auto` when it matches nowhere |
| ImageUploader.MatchAt | src/components/ImageUploader.js:27-28 | a match at a position is `key:` there, then white space, then the value up to `;` or the end |
| ImageUploader.SkipToMatch | src/components/ImageUploader.js:27-28 | the scan returns the first position from the start that matches |
| ImageUploader.LeftmostMatch | src/components/ImageUploader.js:27-28 | a match at position p with none before it is the match of the whole style |
| ImageUploader.NoMatchAnywhere | src/components/ImageUploader.js:27-30 | a style that matches at no position has no match |
| ImageUploader.ReadAfterKey | src/components/ImageUploader.js:27-28 | after `key:` and white space, the value read is the text up to `;` or the end |
| ImageUploader.RenderHTML | src/components/ImageUploader.js:42-54 | a `div` with `data-type` `image-uploader`, the style `width: W; height: H; overflow: hidden;`, a non-null src, and no width or height attributes of their own |
| ImageUploader.MissingStyleGivesDefaults | src/components/ImageUploader.js:13-30 | a missing style, or one with neither declaration, parses to `100%` and `auto` |
| ImageUploader.NoKeyNoMatch | src/components/ImageUploader.js:27-30 | without `key:` in the style there is no match, so the default applies |
| ImageUploader.MaxWidthWins | src/components/ImageUploader.js:27 | in `max-width: V;` followed by anything, including a later `width:`, the width parsed is V |
| ImageUploader.RoundTrip | src/components/ImageUploader.js:27-51 | non-empty W and H without `;` or leading white space, W without `height:`, parse back from the rendered style as (W, H) |
| ImageUploader.WidthOfStyle | src/components/ImageUploader.js:27-51 | the rendered style's width is read back |
| ImageUploader.HeightOfStyle | src/components/ImageUploader.js:28-51 | the rendered style's height is read back |
| ImageUploader.NoHeightBefore | src/components/ImageUploader.js:28-51 | no `height:` occurs before the one the renderer writes |
| TabPlugin.FindTableCell | src/Pages/Editor/plugins/TabPlugin/TabPlugin.jsx:17-27 | without an editor null; otherwise the first TD or TH among the node and its ancestors, or null exactly when there is none |
| TabPlugin.Relative | src/Pages/Editor/plugins/TabPlugin/TabPlugin.jsx:35-40 | the cell box moved by minus the container's top and left, with the same size |
| TabPlugin.TabPlugin.constructor | src/Pages/Editor/plugins/TabPlugin/TabPlugin.jsx:5-8 | no cell, no box, both menus closed |
| TabPlugin.TabPlugin.UpdateCellRect | src/Pages/Editor/plugins/TabPlugin/TabPlugin.jsx:29-45 | with a cell and a container, the nearest TD or TH above the cursor and its relative box are set; otherwise both are null; the menus are kept |
| TabPlugin.TabPlugin.ToggleRowMenu | src/Pages/Editor/plugins/TabPlugin/TabPlugin.jsx:138-142 | the row menu flips and the column menu closes, so at most one is open |
| TabPlugin.TabPlugin.ToggleColMenu | src/Pages/Editor/plugins/TabPlugin/TabPlugin.jsx:144-148 | the column menu flips and the row menu closes, so at most one is open |
| TabPlugin.TabPlugin.RunRowCommand | src/Pages/Editor/plugins/TabPlugin/TabPlugin.jsx:107-120 | a row command runs and closes the row menu; the column menu is unchanged |
| TabPlugin.TabPlugin.RunColumnCommand | src/Pages/Editor/plugins/TabPlugin/TabPlugin.jsx:122-135 | a column command runs and closes the column menu; the row menu is unchanged |
| TabPlugin.TabPlugin.HandleClickOutside | src/Pages/Editor/plugins/TabPlugin/TabPlugin.jsx:79-97 | a mousedown outside a rendered menu and its tab closes that menu; inside either it stays open |
| TabPlugin.TabPlugin.Render | src/Pages/Editor/plugins/TabPlugin/TabPlugin.jsx:104-190 | nothing without a cell box; otherwise a 20-pixel row tab above the cell, a 20-pixel column tab left of it, and the menus as their flags say, never both |
| KnowledgeMap.ToggleInTree | src/components/KnowledgeMap.jsx:47-56 | every level keeps its length |
| KnowledgeMap.ToggleNode | src/components/KnowledgeMap.jsx:48-55 | id, type, label and position are kept; a folder with the id has `expanded` flipped and is not descended into; any other node keeps its flag |
| KnowledgeMap.ToggleKeepsShape | src/components/KnowledgeMap.jsx:48-55 | toggling changes nothing but `expanded` flags: same nodes, ids and order at every level |
| KnowledgeMap.ToggleAbsent | src/components/KnowledgeMap.jsx:49-54 | an id that is absent or names only notes gives back the tree |
| KnowledgeMap.ToggleTwice | src/components/KnowledgeMap.jsx:50 | toggling the same id twice gives back the tree |
| KnowledgeMap.ToggleKeepsChildrenArrays | src/components/KnowledgeMap.jsx:48-55 | toggling keeps every folder's children array |
| KnowledgeMap.ChildrenArraysSuffice | src/components/KnowledgeMap.jsx:85-90 | a tree whose folders all have children arrays can be flattened at any zoom |
| KnowledgeMap.FlattenTree | src/components/KnowledgeMap.jsx:63-106 | the loop's pushes and concatenations build exactly the recursive flattening |
| KnowledgeMap.PushChildEdges | src/components/KnowledgeMap.jsx:90-101 | one edge `e-<parent>-<child>` per child, in the children's order, appended to the edges so far |
| KnowledgeMap.EdgePerChild | src/components/KnowledgeMap.jsx:85-102 | one edge per shown node below the top level |
| KnowledgeMap.BelowThresholdTopLevelOnly | src/components/KnowledgeMap.jsx:61-85 | below zoom 0.7 only the top-level nodes are shown, and no edge |
| KnowledgeMap.TopLevelShown | src/components/KnowledgeMap.jsx:67-82 | every top-level node is shown at the parent's absolute position plus its own, with its label, flag, type test, child count and level |
| KnowledgeMap.ChildrenShown | src/components/KnowledgeMap.jsx:69-88 | the children of an open top-level folder are shown at the folder's absolute position plus their own, one level deeper |
| KnowledgeMap.ClosedShowsOnlyItself | src/components/KnowledgeMap.jsx:84-102 | a note, a collapsed folder, or any folder below zoom 0.7 contributes only itself: no child and no edge |
| KnowledgeMap.EdgesLinkShownNodes | src/components/KnowledgeMap.jsx:90-102 | every edge is `e-<parent>-<child>` from a shown expanded folder to a child shown after it, one level deeper, with stroke width 3 from level 0 and 2 below |
| KnowledgeMap.EdgesAreTreeEdges | src/components/KnowledgeMap.jsx:84-102 | the edges are exactly `e-<folder>-<child>` for each open folder of the tree and each of its own children, with the width of the folder's depth |
| KnowledgeMap.InitialTreeFlattens | src/components/KnowledgeMap.jsx:218-267 | the initial data, after any sequence of toggles, can be flattened at any zoom |
| KnowledgeMap.InitialMapAtFullZoom | src/components/KnowledgeMap.jsx:218-267 | at zoom 1 the initial map shows 8 nodes joined by 5 edges |
| Storage.Upload | src/components/NotesPage.jsx:104-106 | an upsert upload that succeeds stores the content at the path and keeps every other path; a failed one changes nothing |
| Storage.Remove | src/components/NotesPage.jsx:90 | a successful removal drops exactly the given paths; a failed one changes nothing |
| Storage.AssetPathInjective | src/components/NotesPage.jsx:86 | different files of a note are stored at different paths |
| Storage.IndexIsNoAsset | src/components/NotesPage.jsx:86-101 | a note's HTML is never one of its asset files |
| Storage.IndexPathInjective | src/components/NotesPage.jsx:101 | different notes' HTML paths differ |
| NotesPage.UnusedExactly | src/components/NotesPage.jsx:85-91 | a listed asset is removed exactly when its public URL is not among the captured `src` values |
| NotesPage.CleanupKeepsNote | src/components/NotesPage.jsx:85-101 | the cleanup never removes the note's own HTML |
| NotesPage.UnusedStep | src/components/NotesPage.jsx:85-92 | one more listed file adds its path to the removals exactly when it is unreferenced |
| NotesPage.Saved | src/components/NotesPage.jsx:104-106 | a save that only uploads stores the HTML on success and changes nothing on failure |
| NotesPage.FailedSaveLosesNote | src/components/NotesPage.jsx:101-108 | as written, a stored note whose re-upload fails after the removal is no longer stored |
| NotesPage.SaveKeepsNoteOnFailure | src/components/NotesPage.jsx:103-106 | without the removal a failed upload keeps the bucket, and a successful one stores what the source stores |
| NotesPage.NotesPage.constructor | src/components/NotesPage.jsx:8-12 | no notes, nothing selected, empty content, not editing, no id |
| NotesPage.NotesPage.FetchNotes | src/components/NotesPage.jsx:18-29 | the listed folders become the notes; a listing error changes nothing |
| NotesPage.NotesPage.HandleEdit | src/components/NotesPage.jsx:31-45 | the id is set at once; a note whose HTML downloads is opened with that HTML; otherwise nothing else changes |
| NotesPage.NotesPage.HandleDelete | src/components/NotesPage.jsx:47-56 | nothing unless confirmed; then only `<name>/index.html` is removed, and the list is refreshed only on success |
| NotesPage.NotesPage.HandleNewNote | src/components/NotesPage.jsx:58-65 | editing a new note with a fresh id, nothing selected and empty content |
| NotesPage.NotesPage.CleanupUnusedImages | src/components/NotesPage.jsx:68-93 | the `src` values are collected in match order; when the assets list, exactly the unreferenced ones are removed; a listing error removes nothing |
| NotesPage.NotesPage.HandleSaveAsWritten | src/components/NotesPage.jsx:95-114 | without a name nothing is written; otherwise the HTML path is removed then uploaded to, and only a successful upload cleans up, leaves editing and refreshes the list |
| NotesPage.NotesPage.HandleSave | src/components/NotesPage.jsx:95-114 | the same without the removal: on success the note's path holds the HTML, and on failure the bucket is unchanged |
| UseNotes.ValidNotesExactly | src/hooks/useNotes.js:25-40 | a note is listed exactly when its folder is listed and holds an `index.html`, as `{ id: name, name, path }` |
| UseNotes.ValidNotesInOrder | src/hooks/useNotes.js:27-37 | the listed notes keep the folders' order |
| UseNotes.SavedNoteIsListed | src/hooks/useNotes.js:112-118 | after a successful save the note is listed whenever its folder is |
| UseNotes.NotesHook.constructor | src/hooks/useNotes.js:6-13 | no notes, loading, not saving, no error, no id |
| UseNotes.NotesHook.FetchNotes | src/hooks/useNotes.js:19-47 | the notes become the folders holding an `index.html`, in order; a listing error keeps them and sets the message; loading ends on both paths |
| UseNotes.NotesHook.HandleEdit | src/hooks/useNotes.js:49-67 | the note is opened and its id set at once; the fetched text becomes the content, or the error message is set; loading ends |
| UseNotes.NotesHook.HandleDelete | src/hooks/useNotes.js:69-88 | nothing unless confirmed; then `<id>/index.html` and `<id>/assets/` are removed and the list refreshed keeping the error, or on a failed listing the notes are kept and the listing error is set, or on a failed removal the error is set; loading ends |
| UseNotes.NotesHook.HandleNewNote | src/hooks/useNotes.js:90-96 | editing with no selection, empty content and a fresh id |
| UseNotes.NotesHook.HandleSave | src/hooks/useNotes.js:98-125 | an empty id only sets the error and writes nothing; otherwise the error is cleared, `<id>/index.html` is uploaded and the list refreshed, or the error is set with notes and loading unchanged; saving ends on both paths |
| UseNotes.NotesHook.HandleCancelEdit | src/hooks/useNotes.js:127-133 | not editing, nothing selected, empty content, no id and no error |

## Left out

- Storage service calls (list, download, upload, remove, `getPublicUrl`) are parameters that
  carry their outcome. The bucket is a map from path to text. A download succeeds exactly when the
  path is stored. The listing's limit, offset and sort options are not modelled.
- `remove` of the `<id>/assets/` key in the hook's delete is modelled as the removal of that exact
  key, as the call names it. Whether the service also removes the folder's contents is not
  modelled.
- The removals inside the image cleanup (src/components/NotesPage.jsx:90) are taken to succeed,
  because the source ignores their outcome.
- NotesPage.NotesPage.CleanupUnusedImages: the regular expression at src/components/NotesPage.jsx:69
  is a parameter `exec` that returns the next match from a position. It is required only to
  advance. Its exact backtracking is not modelled.
- The fuzzy search at src/Pages/Editor/SlashCommand/SlashCommand.jsx:151-156 is a function
  parameter.
- `await` is a sequential call with a given outcome. Handlers do not interleave, and a
  `fetchNotes()` that the source does not await is modelled as finishing before the handler does.
  Stale closures, such as `handleSave` reading an older `saveStatus`, are not modelled.
- The debounce delay is a pending-timer flag. `window.confirm`, `alert`, `uuidv4()`, `Date.now()`
  cache busting, `window.currentNoteId` and console logging are parameters or left out.
- The tippy popup, React roots, `useEffect` wiring, event listeners and the `ResizeObserver` are
  reduced to the state they leave. The repositioning of the popup in `onUpdate`
  (src/Pages/Editor/SlashCommand/SlashCommand.jsx:218) is not modelled.
- CategorySlashCommand.Renderer.OnKeyDown reads the editor page's popup guard as evidently
  intended. As written the guard never holds, so the source never hides the popup on Escape
  (see "## Findings"); CategorySlashCommand.Renderer.OnEscapeAsWritten models that.
- CategorySlashCommand.Renderer.OnExit reads the same guard as intended. As written the source
  never destroys the popup on exit; CategorySlashCommand.Renderer.OnExitAsWritten models that.
- The items' editor commands are values naming the command. The editor's document and the
  prompt for an image URL are not modelled.
- `mergeAttributes` in ImageUploader.RenderHTML is modelled as a map update. Attributes other than
  `src`, width and height are not modelled.
- `toLowerCase` covers Basic Latin and Latin-1 letters only. Other Unicode case mappings are not
  modelled.
- The knowledge map's zoom-dependent display thresholds and opacity arithmetic
  (src/components/KnowledgeMap.jsx:113,155,182) and its pixel geometry are not modelled. Positions
  are integers, and only the 0.7 gate is kept.
- A note's absent `expanded` property is read as false.
- KnowledgeMap.FlattenTree requires that every open folder has a children array. In the source, an
  expanded folder without `children` at zoom 0.7 or more throws a TypeError. The pure definition
  gives such a folder no children instead. Every folder of the initial data has an array, so this
  does not arise there (KnowledgeMap.InitialTreeFlattens).
- The visual styling of the menus and lists (colours, fonts, icons) is not modelled.

## Findings

| source | as written | input that shows it | evidently intended | confidence | as-written member | corrected member |
|---|---|---|---|---|---|---|
| src/Pages/Editor/SlashCommand/SuggestionList.jsx:36-76 | every row's `onMouseEnter` reads the shared `visualIndex` after the render loop has finished, so it selects the last selectable item | entries [header "Texto", item 1, item 2]: hovering item 1 sets the selection to 1, and Enter then runs item 2 | hovering a row selects that row's own visual index | not executed | CategorySuggestionList.SuggestionList.OnMouseEnterAsWritten, CategorySuggestionList.HoverAsWrittenSelectsLastItem | CategorySuggestionList.SuggestionList.OnMouseEnter |
| src/Pages/Editor/SlashCommand/SlashCommand.jsx:218-241 | the guard `popup[0]._tippy && !popup[0]._tippy.state.isDestroyed` reads `_tippy` on the tippy instance, which tippy sets only on the reference and popper elements, so it never holds | a shown popup and Escape: the popup stays shown; then the menu exits: the popup is never destroyed | Escape hides a live popup and exit destroys it | not executed; read from tippy's documented API | CategorySlashCommand.Renderer.OnEscapeAsWritten, CategorySlashCommand.Renderer.OnExitAsWritten, CategorySlashCommand.ShownPopupPassesGuard | CategorySlashCommand.Renderer.OnKeyDown, CategorySlashCommand.Renderer.OnExit |
| src/components/NotesPage.jsx:101-108 | `handleSave` removes `<name>/index.html` before the upsert upload, so a failed upload leaves the note deleted | a stored note, a successful removal and an upload that fails: the note's HTML is gone | an upsert upload alone replaces the HTML, and a failed save keeps the stored note | not executed | NotesPage.NotesPage.HandleSaveAsWritten, NotesPage.FailedSaveLosesNote | NotesPage.NotesPage.HandleSave, NotesPage.SaveKeepsNoteOnFailure |
