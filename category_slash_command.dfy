/** The slash-command menu of the editor page (src/Pages/Editor/SlashCommand/SlashCommand.jsx):
    fourteen items in four categories, searched by a fuzzy matcher, grouped by category in
    order of first appearance, and shown as a header per category followed by its items. */
module CategorySlashCommand {
  import opened Js
  import opened Seqs
  import opened SuggestionTypes
  import opened Wrappers
  import opened CategorySuggestionList
  import Cyclic = SuggestionList

  datatype Item = Item(title: string, category: string, keywords: seq<string>, action: Action)

  type MenuEntry = Entry<Item>

  /** The menu's items, in the order the source lists them. */
  function AllItems(): (items: seq<Item>)
    ensures |items| == 14
  {
    [ Item("Heading 1", "Texto", ["h1", "t\U{ED}tulo", "title"], SetHeading(1)),
      Item("Heading 2", "Texto", ["h2", "subt\U{ED}tulo"], SetHeading(2)),
      Item("Heading 3", "Texto", ["h3", "subsubtitulo"], SetHeading(3)),
      Item("Par\U{E1}grafo", "Texto", ["paragraph", "text", "paragrafi"], SetParagraph),
      Item("Lista com bullets", "Listas", ["lista", "bullets", "ul"], ToggleBulletList),
      Item("Lista numerada", "Listas", ["numerada", "ol", "n\U{FA}meros"], ToggleOrderedList),
      Item("Lista de tarefas", "Listas", ["task", "checkbox", "check"], ToggleTaskList),
      Item("Cita\U{E7}\U{E3}o", "Texto", ["quote", "blockquote", "cita\U{E7}\U{E3}o"], ToggleBlockquote),
      Item("Bloco de c\U{F3}digo", "Texto", ["code", "programa\U{E7}\U{E3}o"], ToggleCodeBlock),
      Item("Linha Horizontal", "Texto", ["hr", "linha", "separador"], SetHorizontalRule),
      Item("Tabela", "Layout", ["table", "tabela", "grid"], InsertTable(3, 3, true)),
      Item("Imagem via URL", "M\U{ED}dia", ["imagem", "url", "foto"], ImageFromPromptedUrl),
      Item("Upload de Imagem", "M\U{ED}dia", ["upload", "imagem", "foto"], InsertImageUploader),
      Item("Colunas", "Layout", ["columns", "layout", "duas colunas"], InsertColumnsNode) ]
  }

  /** `!query ? allItems : fuse.search(query).map(r => r.item)`; the fuzzy matcher is the
      parameter `search`. */
  function Results(query: string, search: string -> seq<Item>): (r: seq<Item>)
    ensures query == "" ==> r == AllItems()
  {
    if query == "" then AllItems() else search(query)
  }

  /** The categories of `results`, each once, in order of first appearance: the key order
      of the `grouped` object (no category name is an array index, so JavaScript keeps
      insertion order). */
  function Categories(results: seq<Item>): seq<string>
    decreases |results|
  {
    if results == [] then []
    else
      var prior := Categories(results[..|results| - 1]);
      var c := results[|results| - 1].category;
      if c in prior then prior else prior + [c]
  }

  function HasCategory(c: string): Item -> bool
  {
    (item: Item) => item.category == c
  }

  /** The items of `results` in category `c`, in their order in `results`. */
  function InCategory(results: seq<Item>, c: string): seq<Item>
  {
    Filter(results, HasCategory(c))
  }

  /** The `grouped` object the loop builds from `results`. */
  function Grouped(results: seq<Item>): map<string, seq<Item>>
  {
    map c | c in Categories(results) :: InCategory(results, c)
  }

  function Commands(items: seq<Item>): (r: seq<MenuEntry>)
    ensures |r| == |items| && forall i :: 0 <= i < |r| ==> r[i] == Command(items[i])
  {
    seq(|items|, i requires 0 <= i < |items| => Command(items[i]))
  }

  /** `Object.entries(grouped).flatMap(...)`: for each key, a category header followed by
      the key's items. */
  function FlatMap(keys: seq<string>, grouped: map<string, seq<Item>>): seq<MenuEntry>
    requires forall c :: c in keys ==> c in grouped
  {
    if keys == [] then [] else [Header(keys[0])] + Commands(grouped[keys[0]]) + FlatMap(keys[1..], grouped)
  }

  /** The menu built from `results`. */
  function Menu(results: seq<Item>): seq<MenuEntry>
  {
    FlatMap(Categories(results), Grouped(results))
  }

  /** `items({ query })`: the search results grouped by category into a menu. */
  method Items(query: string, search: string -> seq<Item>) returns (entries: seq<MenuEntry>)
    ensures entries == Menu(Results(query, search))
  {
    var results := Results(query, search);
    var keys, grouped := Group(results);
    entries := FlatMap(keys, grouped);
  }

  /** The `for (const item of results)` loop: `grouped[item.category]` is created empty
      the first time a category is met, and each result is pushed onto its category's
      group. `keys` is the insertion order of `grouped`'s keys. */
  method Group(results: seq<Item>) returns (keys: seq<string>, grouped: map<string, seq<Item>>)
    ensures keys == Categories(results) && grouped == Grouped(results)
  {
    grouped := map[];
    keys := [];
    var i := 0;
    while i < |results|
      invariant 0 <= i <= |results|
      invariant keys == Categories(results[..i]) && grouped == Grouped(results[..i])
    {
      var item := results[i];
      assert results[..i + 1] == results[..i] + [item];
      GroupStep(results[..i], item);
      var group: seq<Item> := [];
      if item.category in grouped {
        group := grouped[item.category];
      } else {
        keys := keys + [item.category];
      }
      grouped := grouped[item.category := group + [item]];
      i := i + 1;
    }
    assert results[..i] == results;
  }

  /** One more result: a new category is appended to the keys with an empty group, and
      the result is appended to its category's group. */
  lemma GroupStep(results: seq<Item>, item: Item)
    ensures var keys, grouped, c := Categories(results), Grouped(results), item.category;
            Categories(results + [item]) == (if c in grouped then keys else keys + [c])
            && Grouped(results + [item]) == grouped[c := (if c in grouped then grouped[c] else []) + [item]]
  {
    var c := item.category;
    assert (results + [item])[..|results|] == results;
    if c !in Categories(results) {
      UnlistedIsEmpty(results, c);
    }
    forall d | d in Categories(results + [item])
      ensures Grouped(results + [item])[d] == Grouped(results)[c := (if c in Grouped(results) then Grouped(results)[c] else []) + [item]][d]
    {
      FilterAppend(results, item, HasCategory(d));
    }
  }

  /** A category is listed exactly when some result has it, and no category is listed
      twice. */
  lemma {:induction false} CategoriesListed(results: seq<Item>)
    ensures forall c :: c in Categories(results) <==> exists i :: 0 <= i < |results| && results[i].category == c
    ensures forall j, k :: 0 <= j < k < |Categories(results)| ==> Categories(results)[j] != Categories(results)[k]
    decreases |results|
  {
    if results != [] {
      var prefix := results[..|results| - 1];
      CategoriesListed(prefix);
      forall c ensures c in Categories(results) <==> exists i :: 0 <= i < |results| && results[i].category == c {
        if c in Categories(results) && c != results[|results| - 1].category {
          var i :| 0 <= i < |prefix| && prefix[i].category == c;
          assert results[i].category == c;
        }
        if exists i :: 0 <= i < |results| && results[i].category == c {
          var i :| 0 <= i < |results| && results[i].category == c;
          if i < |prefix| {
            assert prefix[i].category == c;
          }
        }
      }
    }
  }

  /** A category no result has has no items. */
  lemma UnlistedIsEmpty(results: seq<Item>, c: string)
    requires c !in Categories(results)
    ensures InCategory(results, c) == []
  {
    CategoriesListed(results);
    FilterEmpty(results, HasCategory(c));
  }

  /** The categories of a prefix of the results come first, in the same order: categories
      are listed in order of first appearance. */
  lemma {:induction false} CategoriesOfPrefix(results: seq<Item>, i: nat)
    requires i <= |results|
    ensures Categories(results[..i]) <= Categories(results)
    decreases |results|
  {
    if i < |results| {
      var prefix := results[..|results| - 1];
      CategoriesOfPrefix(prefix, i);
      assert prefix[..i] == results[..i];
    } else {
      assert results[..i] == results;
    }
  }

  /** The first result of a category places that category right after the categories of
      the results before it. */
  lemma FirstAppearance(results: seq<Item>, i: nat)
    requires i < |results| && results[i].category !in Categories(results[..i])
    ensures |Categories(results[..i])| < |Categories(results)|
    ensures Categories(results)[|Categories(results[..i])|] == results[i].category
  {
    CategoriesOfPrefix(results, i + 1);
    assert results[..i + 1][..i] == results[..i];
  }

  /** The item entries of a menu, in order. */
  function ItemsOf(entries: seq<MenuEntry>): seq<Item>
  {
    if entries == [] then [] else (if entries[0].Command? then [entries[0].item] else []) + ItemsOf(entries[1..])
  }

  /** The category headers of a menu, in order. */
  function HeadersOf(entries: seq<MenuEntry>): seq<string>
  {
    if entries == [] then [] else (if entries[0].Header? then [entries[0].title] else []) + HeadersOf(entries[1..])
  }

  lemma {:induction false} ItemsOfConcat(a: seq<MenuEntry>, b: seq<MenuEntry>)
    ensures ItemsOf(a + b) == ItemsOf(a) + ItemsOf(b)
    decreases |a|
  {
    if a != [] {
      assert (a + b)[1..] == a[1..] + b;
      ItemsOfConcat(a[1..], b);
    } else {
      assert a + b == b;
    }
  }

  lemma {:induction false} HeadersOfConcat(a: seq<MenuEntry>, b: seq<MenuEntry>)
    ensures HeadersOf(a + b) == HeadersOf(a) + HeadersOf(b)
    decreases |a|
  {
    if a != [] {
      assert (a + b)[1..] == a[1..] + b;
      HeadersOfConcat(a[1..], b);
    } else {
      assert a + b == b;
    }
  }

  lemma {:induction false} SplitCommands(items: seq<Item>)
    ensures ItemsOf(Commands(items)) == items && HeadersOf(Commands(items)) == []
    decreases |items|
  {
    if items != [] {
      assert Commands(items)[1..] == Commands(items[1..]);
      SplitCommands(items[1..]);
    }
  }

  /** Every entry is a header or an item. */
  lemma {:induction false} SplitLength(entries: seq<MenuEntry>)
    ensures |entries| == |ItemsOf(entries)| + |HeadersOf(entries)|
    decreases |entries|
  {
    if entries != [] {
      SplitLength(entries[1..]);
    }
  }

  function InKeys(keys: seq<string>): Item -> bool
  {
    (item: Item) => item.category in keys
  }

  /** The headers of the flattened groups are the keys, in order. */
  lemma {:induction false} FlatMapHeaders(keys: seq<string>, grouped: map<string, seq<Item>>)
    requires forall c :: c in keys ==> c in grouped
    ensures HeadersOf(FlatMap(keys, grouped)) == keys
    decreases |keys|
  {
    if keys != [] {
      var c := keys[0];
      FlatMapHeaders(keys[1..], grouped);
      HeadersOfConcat([Header(c)] + Commands(grouped[c]), FlatMap(keys[1..], grouped));
      HeadersOfConcat([Header(c)], Commands(grouped[c]));
      SplitCommands(grouped[c]);
    }
  }

  /** The flattened groups hold, among them, each result of the listed categories as
      often as `results` does. */
  lemma {:induction false} FlatMapSplit(keys: seq<string>, grouped: map<string, seq<Item>>, results: seq<Item>)
    requires forall c :: c in keys ==> c in grouped && grouped[c] == InCategory(results, c)
    requires forall j, k :: 0 <= j < k < |keys| ==> keys[j] != keys[k]
    ensures multiset(ItemsOf(FlatMap(keys, grouped))) == multiset(Filter(results, InKeys(keys)))
    decreases |keys|
  {
    if keys == [] {
      FilterEmpty(results, InKeys(keys));
    } else {
      var c, rest := keys[0], keys[1..];
      var head, tail := [Header(c)] + Commands(grouped[c]), FlatMap(rest, grouped);
      assert FlatMap(keys, grouped) == head + tail;
      FlatMapSplit(rest, grouped, results);
      ItemsOfConcat(head, tail);
      GroupItems(c, grouped[c]);
      HeadNotInRest(keys);
      KeysSplit(results, c, rest);
      assert keys == [c] + rest;
    }
  }

  /** A group's header and items hold exactly the group's items. */
  lemma GroupItems(c: string, items: seq<Item>)
    ensures ItemsOf([Header(c)] + Commands(items)) == items
  {
    ItemsOfConcat([Header(c)], Commands(items));
    SplitCommands(items);
  }

  /** In keys without repetition the first key is not among the others. */
  lemma HeadNotInRest(keys: seq<string>)
    requires keys != [] && forall j, k :: 0 <= j < k < |keys| ==> keys[j] != keys[k]
    ensures keys[0] !in keys[1..]
  {
    forall k | 0 <= k < |keys[1..]| ensures keys[1..][k] != keys[0] {
      assert keys[1..][k] == keys[k + 1];
    }
  }

  /** The results of the categories `[c] + rest`, with `c` not in `rest`, are those of
      `c` together with those of `rest`. */
  lemma KeysSplit(results: seq<Item>, c: string, rest: seq<string>)
    requires c !in rest
    ensures multiset(InCategory(results, c)) + multiset(Filter(results, InKeys(rest)))
            == multiset(Filter(results, InKeys([c] + rest)))
  {
    var u := InKeys([c] + rest);
    forall x: Item ensures u(x) == (HasCategory(c)(x) || InKeys(rest)(x)) && !(HasCategory(c)(x) && InKeys(rest)(x)) {
      assert x.category in [c] + rest <==> x.category == c || x.category in rest;
    }
    FilterSplit(results, HasCategory(c), InKeys(rest), u);
  }

  /** The menu holds one header per category, in order of first appearance, and every
      result exactly as often as the search returned it. */
  lemma MenuContents(results: seq<Item>)
    ensures HeadersOf(Menu(results)) == Categories(results)
    ensures multiset(ItemsOf(Menu(results))) == multiset(results)
    ensures |Menu(results)| == |results| + |Categories(results)|
  {
    CategoriesListed(results);
    FlatMapSplit(Categories(results), Grouped(results), results);
    FlatMapHeaders(Categories(results), Grouped(results));
    forall i | 0 <= i < |results| ensures InKeys(Categories(results))(results[i]) {
      assert results[i].category in Categories(results);
    }
    FilterKeepsAll(results, InKeys(Categories(results)));
    SplitLength(Menu(results));
    assert |ItemsOf(Menu(results))| == |multiset(ItemsOf(Menu(results)))|;
  }

  /** The category header last seen before the end of `entries`. */
  function LastHeader(entries: seq<MenuEntry>): Option<string>
    decreases |entries|
  {
    if entries == [] then None
    else if entries[|entries| - 1].Header? then Some(entries[|entries| - 1].title)
    else LastHeader(entries[..|entries| - 1])
  }

  lemma {:induction false} LastHeaderConcat(a: seq<MenuEntry>, b: seq<MenuEntry>)
    ensures LastHeader(a + b) == if LastHeader(b).Some? then LastHeader(b) else LastHeader(a)
    decreases |b|
  {
    if b == [] {
      assert a + b == a;
    } else {
      assert (a + b)[..|a + b| - 1] == a + b[..|b| - 1];
      LastHeaderConcat(a, b[..|b| - 1]);
    }
  }

  lemma {:induction false} NoHeaderInCommands(items: seq<Item>)
    ensures LastHeader(Commands(items)) == None
    decreases |items|
  {
    if items != [] {
      assert Commands(items)[..|items| - 1] == Commands(items[..|items| - 1]);
      NoHeaderInCommands(items[..|items| - 1]);
    }
  }

  /** Every item entry has its own category's header as the last header before it. */
  predicate UnderHeaders(entries: seq<MenuEntry>)
  {
    forall k :: 0 <= k < |entries| && entries[k].Command? ==> LastHeader(entries[..k]) == Some(entries[k].item.category)
  }

  /** In the flattened groups, every item sits under the header of its own group. */
  lemma {:induction false} FlatMapUnderHeaders(keys: seq<string>, grouped: map<string, seq<Item>>)
    requires forall c :: c in keys ==> c in grouped
    requires forall c :: c in keys ==> forall item :: item in grouped[c] ==> item.category == c
    ensures UnderHeaders(FlatMap(keys, grouped))
    decreases |keys|
  {
    if keys != [] {
      var c := keys[0];
      var group := Commands(grouped[c]);
      var rest := FlatMap(keys[1..], grouped);
      var entries := FlatMap(keys, grouped);
      FlatMapUnderHeaders(keys[1..], grouped);
      assert entries == ([Header(c)] + group) + rest;
      forall k | 0 <= k < |entries| && entries[k].Command?
        ensures LastHeader(entries[..k]) == Some(entries[k].item.category)
      {
        if k <= |group| {
          var items := grouped[c][..k - 1];
          assert entries[..k] == [Header(c)] + Commands(items);
          NoHeaderInCommands(items);
          LastHeaderConcat([Header(c)], Commands(items));
          assert LastHeader([Header(c)]) == Some(c);
          assert entries[k] == Command(grouped[c][k - 1]);
          assert grouped[c][k - 1] in grouped[c];
        } else {
          var j := k - 1 - |group|;
          assert entries[k] == rest[j];
          assert entries[..k] == ([Header(c)] + group) + rest[..j];
          LastHeaderConcat([Header(c)] + group, rest[..j]);
        }
      }
    }
  }

  /** Every item of the menu is shown under its own category's header. */
  lemma ItemsUnderTheirCategory(results: seq<Item>)
    ensures UnderHeaders(Menu(results))
  {
    var grouped := Grouped(results);
    forall c, item: Item | c in Categories(results) && item in grouped[c] ensures item.category == c {
      FilterMembership(results, HasCategory(c), item);
    }
    FlatMapUnderHeaders(Categories(results), grouped);
  }

  /** Each header is directly followed by an item of its category. */
  predicate HeadersFollowedByItems(entries: seq<MenuEntry>)
  {
    forall k :: 0 <= k < |entries| && entries[k].Header? ==>
      k + 1 < |entries| && entries[k + 1].Command? && entries[k + 1].item.category == entries[k].title
  }

  lemma {:induction false} FlatMapHeadersFollowed(keys: seq<string>, grouped: map<string, seq<Item>>)
    requires forall c :: c in keys ==> c in grouped && grouped[c] != []
    requires forall c :: c in keys ==> forall item :: item in grouped[c] ==> item.category == c
    ensures HeadersFollowedByItems(FlatMap(keys, grouped))
    decreases |keys|
  {
    if keys != [] {
      var c := keys[0];
      var group := Commands(grouped[c]);
      var rest := FlatMap(keys[1..], grouped);
      var entries := FlatMap(keys, grouped);
      FlatMapHeadersFollowed(keys[1..], grouped);
      assert entries == ([Header(c)] + group) + rest;
      forall k | 0 <= k < |entries| && entries[k].Header?
        ensures k + 1 < |entries| && entries[k + 1].Command? && entries[k + 1].item.category == entries[k].title
      {
        if k == 0 {
          assert entries[1] == Command(grouped[c][0]);
          assert grouped[c][0] in grouped[c];
        } else {
          var j := k - 1 - |group|;
          assert entries[k] == rest[j];
          assert k + 1 < |entries| ==> entries[k + 1] == rest[j + 1];
        }
      }
    }
  }

  /** Every header of the menu is followed by at least one item, the first of its
      category. */
  lemma HeadersHaveItems(results: seq<Item>)
    ensures HeadersFollowedByItems(Menu(results))
  {
    var grouped := Grouped(results);
    CategoriesListed(results);
    forall c | c in Categories(results)
      ensures grouped[c] != [] && forall item: Item :: item in grouped[c] ==> item.category == c
    {
      var i :| 0 <= i < |results| && results[i].category == c;
      FilterMembership(results, HasCategory(c), results[i]);
      forall item: Item | item in grouped[c] ensures item.category == c {
        FilterMembership(results, HasCategory(c), item);
      }
    }
    FlatMapHeadersFollowed(Categories(results), grouped);
  }

  /** Within a category the items keep their order in the results. */
  lemma GroupsKeepOrder(results: seq<Item>, c: string)
    requires c in Categories(results)
    ensures IsSubsequence(Grouped(results)[c], results)
    ensures forall i :: 0 <= i < |Grouped(results)[c]| ==> Grouped(results)[c][i].category == c
  {
    FilterIsSubsequence(results, HasCategory(c));
    forall i | 0 <= i < |Grouped(results)[c]| ensures Grouped(results)[c][i].category == c {
      FilterMembership(results, HasCategory(c), Grouped(results)[c][i]);
    }
  }

  /** The categories of the fourteen items, in order of first appearance. */
  lemma AllCategories()
    ensures Categories(AllItems()) == ["Texto", "Listas", "Layout", "M\U{ED}dia"]
  {
    var a := AllItems();
    CategoriesOfFourteen(a, "Texto", "Listas", "Layout", "M\U{ED}dia");
  }

  /** Fourteen results whose categories follow the items' pattern list their four
      categories in order of first appearance. */
  lemma CategoriesOfFourteen(a: seq<Item>, t: string, l: string, y: string, m: string)
    requires t != l && t != y && t != m && l != y && l != m && y != m
    requires |a| == 14
    requires a[0].category == t && a[1].category == t && a[2].category == t && a[3].category == t
    requires a[4].category == l && a[5].category == l && a[6].category == l
    requires a[7].category == t && a[8].category == t && a[9].category == t
    requires a[10].category == y && a[11].category == m && a[12].category == m && a[13].category == y
    ensures Categories(a) == [t, l, y, m]
  {
    assert a[..0] == [];
    Steps(a, 0, [], t, t, [t]);
    Steps(a, 2, [t], t, t, [t]);
    Steps(a, 4, [t], l, l, [t, l]);
    LaterCategories(a, t, l, y, m);
  }

  lemma LaterCategories(a: seq<Item>, t: string, l: string, y: string, m: string)
    requires t != l && t != y && t != m && l != y && l != m && y != m
    requires |a| == 14 && Categories(a[..6]) == [t, l]
    requires a[6].category == l && a[7].category == t && a[8].category == t && a[9].category == t
    requires a[10].category == y && a[11].category == m && a[12].category == m && a[13].category == y
    ensures Categories(a) == [t, l, y, m]
  {
    Steps(a, 6, [t, l], l, t, [t, l]);
    Steps(a, 8, [t, l], t, t, [t, l]);
    LastCategories(a, t, l, y, m);
  }

  lemma LastCategories(a: seq<Item>, t: string, l: string, y: string, m: string)
    requires t != l && t != y && t != m && l != y && l != m && y != m
    requires |a| == 14 && Categories(a[..10]) == [t, l]
    requires a[10].category == y && a[11].category == m && a[12].category == m && a[13].category == y
    ensures Categories(a) == [t, l, y, m]
  {
    Steps(a, 10, [t, l], y, m, [t, l, y, m]);
    Steps(a, 12, [t, l, y, m], m, y, [t, l, y, m]);
    assert a[..14] == a;
  }

  /** Two more results with categories `c` and `d`. */
  lemma Steps(a: seq<Item>, i: nat, prior: seq<string>, c: string, d: string, after: seq<string>)
    requires i + 2 <= |a| && Categories(a[..i]) == prior && a[i].category == c && a[i + 1].category == d
    requires after == var mid := if c in prior then prior else prior + [c];
                      if d in mid then mid else mid + [d]
    ensures Categories(a[..i + 2]) == after
  {
    Step(a, i, prior, c);
    Step(a, i + 1, if c in prior then prior else prior + [c], d);
  }

  lemma Step(a: seq<Item>, i: nat, prior: seq<string>, c: string)
    requires i < |a| && Categories(a[..i]) == prior && a[i].category == c
    ensures Categories(a[..i + 1]) == if c in prior then prior else prior + [c]
  {
    assert a[..i + 1][..i] == a[..i];
  }

  /** With an empty query the menu lists the categories Texto, Listas, Layout and Mídia,
      with all fourteen items under them: eighteen entries. */
  lemma EmptyQueryMenu(search: string -> seq<Item>)
    ensures HeadersOf(Menu(Results("", search))) == ["Texto", "Listas", "Layout", "M\U{ED}dia"]
    ensures |Menu(Results("", search))| == 18
    ensures multiset(ItemsOf(Menu(Results("", search)))) == multiset(AllItems())
  {
    AllCategories();
    MenuContents(AllItems());
  }

  /** The popup guard `popup && popup[0] && popup[0]._tippy && !popup[0]._tippy.state.isDestroyed`
      as evidently intended: the popup exists and has not been destroyed. As written it
      holds for no popup: `popup[0]` is a tippy instance, and tippy sets `_tippy` on the
      reference and popper elements, not on the instance. */
  predicate Guard(p: Popup)
  {
    p == Shown || p == Hidden
  }

  /** A shown popup passes the intended guard, and Escape then hides it, where the
      as-written Escape and exit leave it shown. */
  lemma ShownPopupPassesGuard()
    ensures Guard(Shown) && HideOnEscape(Shown) == Hidden && HideOnEscape(Shown) != Shown
  {
  }

  /** The render callbacks' closure state: the last props, the popup and the mounted list
      (`suggestionRef.current`). */
  class Renderer {
    var currentProps: Option<Props>
    var popup: Popup
    var list: SuggestionList?<Item>

    predicate Valid()
      reads this, list
    {
      list != null ==> list.Valid()
    }

    constructor ()
      ensures Valid() && currentProps == None && popup == NoPopup && list == null
    {
      currentProps := None;
      popup := NoPopup;
      list := null;
    }

    /** `executeCommand(item)`: a category header never runs, and nothing runs before
        props have been recorded. */
    function ExecuteCommand(entry: MenuEntry): (r: Option<Invocation>)
      reads this
      ensures r.Some? <==> currentProps.Some? && entry.Command?
      ensures r.Some? ==> r.value == Invocation(entry.item.action, currentProps.value.range)
    {
      if currentProps.Some? && entry.Command? then Some(Invocation(entry.item.action, currentProps.value.range))
      else None
    }

    /** `onStart`: without a client rect nothing happens; otherwise the props are recorded,
        a list is mounted with the entries and the popup is shown. */
    method OnStart(props: Props, hasClientRect: bool, entries: seq<MenuEntry>)
      requires Valid()
      modifies this
      ensures Valid()
      ensures !hasClientRect ==> currentProps == old(currentProps) && popup == old(popup) && list == old(list)
      ensures hasClientRect ==> currentProps == Some(props) && popup == Shown && list != null && fresh(list)
                                && list.items == entries && list.selectedIndex == Int(0)
    {
      if !hasClientRect {
        return;
      }
      currentProps := Some(props);
      list := new SuggestionList(entries);
      popup := Shown;
    }

    /** `onUpdate`: with a client rect the props are recorded and the mounted list gets
        the new entries, which resets its selection. */
    method OnUpdate(props: Props, hasClientRect: bool, entries: seq<MenuEntry>)
      requires Valid()
      modifies this, list
      ensures Valid() && list == old(list) && popup == old(popup)
      ensures !hasClientRect ==> currentProps == old(currentProps) && (list != null ==> unchanged(list))
      ensures hasClientRect ==> currentProps == Some(props)
      ensures hasClientRect && list != null ==> list.items == entries && list.selectedIndex == Int(0)
    {
      if !hasClientRect {
        return;
      }
      currentProps := Some(props);
      if list != null {
        list.ItemsChanged(entries);
      }
    }

    /** `onKeyDown` with the popup guard as evidently intended (Guard): Escape hides the
        popup and is always consumed; other keys go to the mounted list, which moves its
        selection cyclically on the arrow keys, and the item it chooses on Enter runs
        through `executeCommand`. */
    method OnKeyDown(key: Key) returns (handled: bool, run: Option<Invocation>)
      requires Valid()
      modifies this, list
      ensures Valid() && list == old(list) && currentProps == old(currentProps)
      ensures key == Escape ==> handled && run == None && popup == HideOnEscape(old(popup))
                                && (list != null ==> unchanged(list))
      ensures key != Escape ==> popup == old(popup)
      ensures key != Escape && list == null ==> !handled && run == None
      ensures key != Escape && list != null ==>
                list.items == old(list.items)
                && list.selectedIndex == (if key == ArrowDown then Cyclic.Down(old(list.selectedIndex), |Selectable(list.items)|)
                                          else if key == ArrowUp then Cyclic.Up(old(list.selectedIndex), |Selectable(list.items)|)
                                          else old(list.selectedIndex))
                && run == (if key == Enter && SelectedItem(old(list.items), old(list.selectedIndex)).Some?
                           then ExecuteCommand(Command(SelectedItem(old(list.items), old(list.selectedIndex)).value))
                           else None)
                && (handled <==> key == ArrowUp || key == ArrowDown
                                 || (key == Enter && SelectedItem(old(list.items), old(list.selectedIndex)).Some?))
    {
      if key == Escape {
        popup := HideOnEscape(popup);
        return true, None;
      }
      if list != null {
        var chosen;
        handled, chosen := list.OnKeyDown(key);
        run := if chosen.Some? then ExecuteCommand(Command(chosen.value)) else None;
        return;
      }
      return false, None;
    }

    /** `onKeyDown` on Escape as written: the guard reads `popup[0]._tippy`, which the
        instance does not have, so `hide` never runs; the key is consumed and the popup
        stays as it was. */
    method OnEscapeAsWritten() returns (handled: bool)
      ensures handled && popup == old(popup) && currentProps == old(currentProps) && list == old(list)
    {
      return true;
    }

    /** `onExit` with the popup guard as evidently intended: the popup is destroyed and the
        list unmounted. */
    method OnExit()
      modifies this
      ensures Valid() && currentProps == old(currentProps) && list == null
      ensures popup == if old(popup) == Shown || old(popup) == Hidden then Destroyed else old(popup)
    {
      if Guard(popup) {
        popup := Destroyed;
      }
      list := null;
    }

    /** `onExit` as written: the guard never holds, so `destroy` never runs and a shown
        popup outlives the menu; only the list is unmounted. */
    method OnExitAsWritten()
      modifies this
      ensures Valid() && currentProps == old(currentProps) && list == null && popup == old(popup)
    {
      list := null;
    }
  }
}
