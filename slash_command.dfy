/** The slash-command menu of the note page editor (src/components/SlashCommand.jsx):
    sixteen fixed items, filtered by a case-insensitive substring match of the query
    against each title. */
module SlashCommand {
  import opened Js
  import opened Seqs
  import opened SuggestionTypes
  import opened Wrappers

  datatype Item = Item(title: string, action: Action)

  /** The menu's items, in the order the source lists them. */
  function AllItems(): (items: seq<Item>)
    ensures |items| == 16
  {
    [ Item("Heading 1", SetHeading(1)),
      Item("Heading 2", SetHeading(2)),
      Item("Heading 3", SetHeading(3)),
      Item("Paragraph", SetParagraph),
      Item("Bullet List", ToggleBulletList),
      Item("Numbered List", ToggleOrderedList),
      Item("Task List", ToggleTaskList),
      Item("Toggle List", ToggleBulletList),
      Item("Blockquote", ToggleBlockquote),
      Item("Code Block", ToggleCodeBlock),
      Item("Horizontal Rule", SetHorizontalRule),
      Item("Table", InsertTable(3, 3, true)),
      Item("Image", ImageFromPromptedUrl),
      Item("Upload Image", InsertImageUploader),
      Item("Columns", InsertColumnsHtml),
      Item("Table of Contents", InsertTableOfContentsPlaceholder) ]
  }

  /** The item's lower-cased title contains the lower-cased query. */
  predicate Matches(item: Item, query: string)
  {
    Includes(ToLower(item.title), ToLower(query))
  }

  /** `items({ query })`: the query is lower-cased once, then every item whose
      lower-cased title includes it is kept. */
  function Items(query: string): (r: seq<Item>)
    ensures forall i :: 0 <= i < |r| ==> Matches(r[i], query)
  {
    FilterSatisfies(AllItems(), TitleIncludes(ToLower(query)));
    ItemsIncluding(ToLower(query))
  }

  function ItemsIncluding(q: string): seq<Item>
  {
    Filter(AllItems(), TitleIncludes(q))
  }

  /** The filter callback for the lower-cased query `q`. */
  function TitleIncludes(q: string): Item -> bool
  {
    (item: Item) => Includes(ToLower(item.title), q)
  }

  /** The result is exactly the matching items, in the order of the item list. */
  lemma ItemsAreTheMatches(query: string)
    ensures forall item :: item in Items(query) <==> item in AllItems() && Matches(item, query)
    ensures IsSubsequence(Items(query), AllItems())
  {
    var p := TitleIncludes(ToLower(query));
    assert Items(query) == Filter(AllItems(), p);
    forall item ensures item in Filter(AllItems(), p) <==> item in AllItems() && Matches(item, query) {
      FilterMembership(AllItems(), p, item);
    }
    FilterIsSubsequence(AllItems(), p);
  }

  /** An empty query lists all sixteen items. */
  lemma EmptyQueryListsAll()
    ensures Items("") == AllItems() && |Items("")| == 16
  {
    forall i | 0 <= i < |AllItems()| ensures Matches(AllItems()[i], "") {
      IncludesEmpty(ToLower(AllItems()[i].title));
    }
    FilterKeepsAll(AllItems(), TitleIncludes(ToLower("")));
  }

  /** Queries with the same lower-cased form give the same items; in particular the
      result ignores the case of the query. */
  lemma CaseInsensitive(q1: string, q2: string)
    requires ToLower(q1) == ToLower(q2)
    ensures Items(q1) == Items(q2)
    ensures Items(ToUpper(q1)) == Items(q1)
  {
    LowerOfUpper(q1);
  }

  /** Typing more only narrows the menu: the items for `q + more` are a subsequence of
      the items for `q`. */
  lemma ExtendingNarrows(q: string, more: string)
    ensures IsSubsequence(Items(q + more), Items(q))
  {
    NarrowerFilter(AllItems(), q, more);
  }

  lemma NarrowerFilter(items: seq<Item>, q: string, more: string)
    ensures IsSubsequence(Filter(items, TitleIncludes(ToLower(q + more))), Filter(items, TitleIncludes(ToLower(q))))
  {
    var strong, weak := TitleIncludes(ToLower(q + more)), TitleIncludes(ToLower(q));
    forall item: Item | strong(item) ensures weak(item) {
      ToLowerConcat(q, more);
      IncludesPrefix(ToLower(item.title), ToLower(q), ToLower(more));
    }
    FilterStronger(items, strong, weak);
  }

  /** `executeCommand(item)`: runs the item's command with the recorded props, and does
      nothing before any props have been recorded. */
  function ExecuteCommand(currentProps: Option<Props>, item: Item): (r: Option<Invocation>)
    ensures r.Some? <==> currentProps.Some?
    ensures r.Some? ==> r.value.action == item.action && r.value.range == currentProps.value.range
  {
    if currentProps.Some? then Some(Invocation(item.action, currentProps.value.range)) else None
  }

  /** The render callbacks' `onKeyDown`: Escape hides the popup and is always consumed;
      any other key goes to the mounted list (`listAnswer` is what its handler returns)
      and is unhandled when no list is mounted. */
  function OnKeyDown(key: Key, popup: Popup, listAnswer: Option<bool>): (r: (bool, Popup))
    ensures key == Escape ==> r.0 && r.1 == HideOnEscape(popup)
    ensures key != Escape ==> r.1 == popup && (r.0 <==> listAnswer == Some(true))
  {
    if key == Escape then (true, HideOnEscape(popup))
    else if listAnswer.Some? then (listAnswer.value, popup)
    else (false, popup)
  }
}
