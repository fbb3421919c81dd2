# ARC Forge crafting tree and wiki scrapers — a Dafny model

This project models the core of ARC Forge, a web guide to the game ARC Raiders,
together with the Python scripts that fill its data files.

**Crafting-tree view** (`app/crafting-tree/page.tsx`)
- The element list: ten nodes and nine edges around the focal item `medkit`.
- The style sheet's node and edge rules, and the `control-point-distances` mapper.
- The preset `positions` table.
- The selection state behind the two `tap` listeners.

The data, styles and layout are pure, so they are constants and functions. The
selection is a `class` with one mutable field, updated by the listener methods.

**Quest scraper** (`script/get_quest_information.py`)
- Modelled: `sanitize_for_url`, `replace_wiki_links`, `clean_text`,
  `extract_bullets` and `parse_table_text`.
- Also modelled: the two helpers nested in `parse_quest_tree_from_wiki`,
  `extract_field` and `links_from_text`.
- Regular expressions become hand-written scanners. Each link match, row
  separator, field line, break and tag is decided as Python's `re` decides
  it. The one difference is `re.IGNORECASE` in the field pattern, which is
  modelled as ASCII case folding (see "Left out").
- The fallback split of `extract_bullets` cuts at the bare characters `,`,
  `;` and `/` and then strips each piece. This gives the same items as the
  source's pattern `\s*[,;/]\s*` followed by `strip`.
- Functions that loop and append are methods. Each is proved equal to a
  specification function, and the properties are proved about that function.
- Taken as parameters:
  - `decode`: the HTML-entity and markup step inside `clean_text`
    (`html.unescape` then BeautifulSoup's `get_text`).
  - `fetch`: the network lookup `parse_quest_tree_from_wiki`.

**Item corrections** (`script/adjust_item_data.py`)
- The correction loop runs over an `array` of item records and updates each in place.
- It counts the fields it writes.

**JSON-LD builder** (`app/components/StructuredData.tsx`)
- Builds the schema.org object for `WebSite`, `ItemList` and `WebPage`, modelled
  as a JavaScript value.
- Also gives the id of the script element that carries it.

**Sitemap** (`app/sitemap.ts`)
- The route list: the site root, then one crafting-tree page per relation
  record that has edges.
- Taken as inputs: the environment variable, the clock and `encodeURIComponent`.

Modules (one per file):
- `Wrappers`: `Option`.
- `TextUtil`: Python's whitespace set, `strip`, `splitlines`, `split`, `join`
  and `re.split` with `maxsplit`.
- `SeqUtil`: the list comprehensions as generic map and filter functions, with
  their append and provenance lemmas.
- `CraftingGraph`, `CraftingStyle`, `CraftingLayout` and `CraftingSelection`.
- `WikiText`, `QuestTable` and `QuestTree` (the quest scraper).
- `ItemAdjust`, `StructuredData` and `Sitemap`.

## Model

| member | source | states |
|---|---|---|
| CraftingGraph.NodeIdsUnique | app/crafting-tree/page.tsx:40-53 | there are 10 nodes and no two share an id |
| CraftingGraph.SingleCenter | app/crafting-tree/page.tsx:38-53 | exactly one node has type `center`, and it is `medkit` |
| CraftingGraph.EdgesAttached | app/crafting-tree/page.tsx:55-66 | there are 9 edges; each joins two distinct existing nodes and has `medkit` at one end |
| CraftingGraph.ElementsWellFormed | app/crafting-tree/page.tsx:38-67 | the element list meets every graph invariant: unique ids, one centre, edges attached to it, no self-loops |
| CraftingGraph.EdgeDirections | app/crafting-tree/page.tsx:55-66 | the edges ending at the centre are exactly the first six of the list and those starting from it exactly the last three |
| CraftingGraph.CurvatureTiers | app/crafting-tree/page.tsx:34-66 | every edge's curvature is -140, 0 or 140, and the `sold_by` edge is straight |
| CraftingStyle.NodeStyleRules | app/crafting-tree/page.tsx:70-125 | base node 80×80 with border 4; `center` 120×120 with border 6; `vendor` 90×90 and the only kind with a shape (diamond); `item` and `material` change only the two colours; other types keep the base |
| CraftingStyle.NodeStyleFor | app/crafting-tree/page.tsx:70-125 | every node is square and 80 to 120 wide, and it has a shape exactly when its type is `vendor` |
| CraftingStyle.CenterIsLargest | app/crafting-tree/page.tsx:70-125 | every other type is strictly smaller than `center` in width, height and border |
| CraftingStyle.ControlDistancesFor | app/crafting-tree/page.tsx:136-141 | a missing curvature counts as 0; the two distances are opposite, of size abs(c)·0.35; the first is non-negative exactly when c >= 0 |
| CraftingStyle.ControlDistancesMirror | app/crafting-tree/page.tsx:136-141 | c and -c give mirrored control points; a missing curvature equals 0; tier 140 gives 49 |
| CraftingStyle.LineColorRules | app/crafting-tree/page.tsx:126-182 | the five relation labels get five distinct colours other than the base, and every other label gets the base colour |
| CraftingStyle.LineColorFor | app/crafting-tree/page.tsx:127-182 | an edge's colour differs from the base colour exactly when its label is one of the five relation labels |
| CraftingStyle.EdgeStyleFor | app/crafting-tree/page.tsx:126-182 | every edge is 3 wide and an unbundled Bézier from the source's right side to the target's left side; its two control distances are opposite; its colour is not the base colour exactly for the five relation labels |
| CraftingStyle.EdgeStyleDependsOnLabelAndCurvature | app/crafting-tree/page.tsx:126-152 | an edge's style depends only on its label and its curvature |
| CraftingLayout.EdgeEndsInColumns | app/crafting-tree/page.tsx:196-220 | `medkit` is at (600, 400); sources of edges into it are at x = 200; targets of edges out of it are at x = 1000 |
| CraftingLayout.Position | app/crafting-tree/page.tsx:196-222 | an id outside the table gets (0, 0); a table id sits in one of the columns x = 200, 600, 1000; x = 600 holds `medkit` and nothing else |
| CraftingLayout.TableMatchesColumns | app/crafting-tree/page.tsx:196-220 | each node's x in the id table is the x of the column its edges to the centre call for, and every node has a column |
| CraftingLayout.TableCoversNodes | app/crafting-tree/page.tsx:196-222 | the table places exactly the element list's ids; any other id gets (0, 0) |
| CraftingLayout.RowsOnGrid | app/crafting-tree/page.tsx:209-220 | left-column y values are 400 + k·140 with k in [-3, 2]; right-column ones have k in [-1, 1] |
| CraftingLayout.ColumnRowsDistinct | app/crafting-tree/page.tsx:209-220 | no two placed ids in one column share a y |
| CraftingSelection.TapLaws | app/crafting-tree/page.tsx:237-253 | a node tap selects that node and re-tapping changes nothing; a background tap clears the selection; an edge tap changes nothing |
| CraftingSelection.AfterTap | app/crafting-tree/page.tsx:237-253 | a node tap selects a record carrying that node's id; a background tap clears the selection; an edge tap keeps it |
| CraftingSelection.AfterTaps | app/crafting-tree/page.tsx:237-253 | a run of edge taps keeps the selection; a selection afterwards is either the one before or the record of a node tapped in the run |
| CraftingSelection.LastDecisiveTapWins | app/crafting-tree/page.tsx:237-253 | after a sequence of taps, the selection is set by the last node or background tap; later edge taps do not count |
| CraftingSelection.EdgeTapsKeep | app/crafting-tree/page.tsx:237-253 | any run of edge taps leaves the selection where it was |
| CraftingSelection.Selection.constructor | app/crafting-tree/page.tsx:17 | the view starts with nothing selected |
| CraftingSelection.Selection.OnNodeTap | app/crafting-tree/page.tsx:237-246 | the node listener sets the selection to the tapped node's record |
| CraftingSelection.Selection.OnAnyTap | app/crafting-tree/page.tsx:249-253 | the catch-all listener clears the selection when the target is the core and otherwise keeps it |
| CraftingSelection.Selection.Tap | app/crafting-tree/page.tsx:237-253 | delivering a tap to both listeners gives the selection the tap reducer computes |
| WikiText.SanitizeForUrl | script/get_quest_information.py:17-19 | same length; each space becomes `_` and every other character is kept |
| WikiText.SanitizeForUrlLaws | script/get_quest_information.py:17-19 | the result has no space, keeps every non-space character, and sanitizing twice equals sanitizing once |
| WikiText.ReplaceWikiLinks | script/get_quest_information.py:37-48 | empty text stays empty and the result is never longer than the input |
| WikiText.MatchLink | script/get_quest_information.py:48 | a match starts with `[[`, ends with `]]`, spans at least four characters more than its label, and the label is non-empty with no `\|` or `]` |
| WikiText.LinkLabels | script/get_quest_information.py:185 | there is at most one label per four characters of text, and every label is non-empty with no `\|` or `]` |
| WikiText.MatchLinkForms | script/get_quest_information.py:48 | `[[P\|L]]` matches with label L and `[[P]]` with label P, each over its full length |
| WikiText.ReplaceLinkForms | script/get_quest_information.py:37-48 | `[[P\|L]]` followed by the rest becomes L followed by the rest replaced, and `[[P]]` likewise becomes P (where P and L hold no `\|` or `]`) |
| WikiText.NoLinksUnchanged | script/get_quest_information.py:37-48 | text in which the link pattern finds no match is returned unchanged |
| WikiText.NoOpenBracketsNoLinks | script/get_quest_information.py:48 | text without `[[` has no link matches |
| WikiText.DropQuoteRuns | script/get_quest_information.py:31 | removing runs of two or more apostrophes leaves no doubled apostrophe, keeps every other character in order, and keeps a leading non-apostrophe first |
| WikiText.DropQuoteRunsIdentity | script/get_quest_information.py:31 | text without doubled apostrophes is not changed |
| WikiText.DropQuoteRunsAppend | script/get_quest_information.py:31 | where two texts do not meet in two apostrophes, removing the runs from their concatenation removes them from each part |
| WikiText.DropQuoteRunsLone | script/get_quest_information.py:31 | a single apostrophe with no apostrophe beside it survives, and the text on either side is cleaned on its own |
| WikiText.DropQuoteRunsRun | script/get_quest_information.py:31 | a run of two or more apostrophes disappears entirely |
| WikiText.WordsNoAdjacent | script/get_quest_information.py:33 | whitespace splitting creates no doubled apostrophe |
| WikiText.JoinWordsNormalized | script/get_quest_information.py:33 | joining the words with single spaces gives normalized text with no doubled apostrophe |
| WikiText.CleanText | script/get_quest_information.py:21-34 | empty text stays empty; otherwise the result has no outer whitespace, each inner whitespace is one space between two other characters, and no apostrophe is doubled |
| WikiText.CleanTextWords | script/get_quest_information.py:21-34 | for non-empty text, the words of the result are exactly the words of the decoded, stripped text once its apostrophe runs are dropped: nothing but spacing changes |
| TextUtil.WordsJoin | script/get_quest_information.py:33 | `' '.join(ws).split()` gives back `ws` when every word is non-empty and free of whitespace |
| QuestTable.BulletItemsFromBulletLines | script/get_quest_information.py:55-63 | every bullet item is the cleaned text of some line starting with `*` |
| QuestTable.ExtractBullets | script/get_quest_information.py:51-69 | an empty cell gives []; items are non-empty; if some bullet cleans to non-empty the result is the bullets in order, else the comma, semicolon and slash pieces of the cleaned cell |
| QuestTable.Bullets | script/get_quest_information.py:51-69 | an empty cell gives [] and no item is empty |
| QuestTable.PadTo5 | script/get_quest_information.py:88-90 | exactly five columns, the given ones first and the padding empty |
| QuestTable.SplitRowsJoin | script/get_quest_information.py:78 | there is one more row than row separators, and the rows with the matched separators between them give back the table text |
| TextUtil.SplitOnCharsJoin | script/get_quest_information.py:69 | the pieces of a split at `,`, `;` or `/`, with the separators between them, give back the text that was split |
| QuestTable.CellsOf | script/get_quest_information.py:92 | five cells; each is a trimmed slice of its column with only `!`s and whitespace cut before it and only whitespace after it |
| QuestTable.StripCellPeels | script/get_quest_information.py:92 | `lstrip(c).strip()` gives trimmed text that is a slice of its input with only `c`s and whitespace removed in front and only whitespace behind |
| QuestTable.ColumnsLoseNothing | script/get_quest_information.py:85-87 | joining the split row cells with the separator gives back the trimmed row |
| QuestTable.PreviousQuests | script/get_quest_information.py:114-115 | the result is the fetched list or empty and never starts with "N", "A"; it is empty only when the fetched list is empty or starts with "N", "A" |
| QuestTable.ParseRow | script/get_quest_information.py:80-137 | a row gives a quest exactly when it is neither a header nor empty and its cleaned first column starts with an ASCII letter or digit; the quest holds the cleaned name, trader and location, the bullet lists of the objective and reward columns, and the previous (with "N/A" dropped) and next quests fetched under the sanitized name |
| QuestTable.ParseOne | script/get_quest_information.py:81-137 | one pass of the loop body gives exactly the quest, or the skip, that `ParseRow` describes |
| QuestTable.QuestsOfAppend | script/get_quest_information.py:78-140 | the quests of concatenated rows are the quests of each part, in order |
| QuestTable.QuestsOf | script/get_quest_information.py:78-140 | a run of rows gives at most one quest per row |
| QuestTable.QuestsFromRows | script/get_quest_information.py:78-140 | every quest returned is parsed from one of the rows, and its name is valid |
| QuestTable.HeaderRowsSkipped | script/get_quest_information.py:81-83 | a header or empty row adds no quest |
| QuestTable.ParseTableText | script/get_quest_information.py:72-140 | the loop returns the rows' quests in row order, at most one per row, with valid names |
| QuestTree.AsciiLowerLaws | script/get_quest_information.py:171 | lowering leaves no upper-case ASCII letter and is idempotent; two characters agree ignoring case exactly when equal or one is the other's upper-case ASCII form |
| QuestTree.MatchField | script/get_quest_information.py:171-175 | a matched value has no surrounding whitespace |
| QuestTree.ExtractField | script/get_quest_information.py:169-176 | the value comes from the first matching line and has no surrounding whitespace; with no matching line it is "" |
| QuestTree.FirstMatchWins | script/get_quest_information.py:172-175 | when line i is the first match, the field's value is that line's value |
| QuestTree.FieldLineAt | script/get_quest_information.py:171-175 | a line holding, at given positions, whitespace, `\|`, whitespace, the field name, whitespace and `=` matches with the stripped rest of the line |
| QuestTree.PlainFieldLine | script/get_quest_information.py:171-175 | a line of whitespace, `\|`, whitespace, the field name in any ASCII case, whitespace, `=` and V matches with V stripped |
| QuestTree.MatchFieldForm | script/get_quest_information.py:171-175 | conversely, every line that yields a value V is whitespace, `\|`, whitespace, the field name in some ASCII case, whitespace, `=` and a rest whose stripped form is V |
| QuestTree.SplitBreaks | script/get_quest_information.py:192 | splitting at `<br>`, `<br/>`, newlines, `,`, `;`, `\|` and `/` leaves pieces with no break character |
| QuestTree.BreakAt | script/get_quest_information.py:192 | a match is one separator character, or `<br`, whitespace, an optional `/` and `>`; a separator character always matches on its own |
| QuestTree.SplitBreaksJoin | script/get_quest_information.py:192 | there is one more piece than breaks, and the pieces with the matched breaks between them give back the text |
| QuestTree.NoTagsUnchanged | script/get_quest_information.py:195 | text without `<` keeps all its characters when tags are removed |
| QuestTree.StripTagsTagFree | script/get_quest_information.py:195 | after tag removal no `<` has a `>` after it on its line |
| QuestTree.TagFreeUnchanged | script/get_quest_information.py:195 | text with no such `<` is not changed by tag removal |
| QuestTree.StripTagsIdempotent | script/get_quest_information.py:195 | removing tags twice is removing them once |
| QuestTree.Links | script/get_quest_information.py:181-199 | empty text gives []; every name is non-empty and normalized, with no doubled apostrophe |
| QuestTree.CleanLabels | script/get_quest_information.py:185-189 | the loop keeps the non-empty cleaned link labels, in order |
| QuestTree.CleanPieces | script/get_quest_information.py:193-198 | the loop keeps the non-empty cleaned pieces, tags removed, in order |
| QuestTree.LinksFromText | script/get_quest_information.py:181-199 | empty text gives []; the link labels win when any cleans to non-empty; otherwise the break-separated pieces are used; every name is non-empty and normalized |
| ItemAdjust.ApplyTypes | script/adjust_item_data.py:54-57 | the type loop adds at most the key `type` and keeps every other entry; with no list naming the item the infobox is unchanged, otherwise `type` is the type of a list that names it |
| ItemAdjust.AdjustItem | script/adjust_item_data.py:49-69 | the item ends with an infobox holding the old keys and at most `type` and `sellprice` more; every other old entry is kept; apart from `sellprice` it is the type-adjusted infobox; a price override writes `sellprice`; name and other keys are kept; an image override writes `thumb` into a possibly new `image_urls`, which is otherwise untouched |
| ItemAdjust.AdjustOne | script/adjust_item_data.py:49-69 | one pass of the loop body yields the adjusted item and the number of fields it wrote |
| ItemAdjust.AdjustItemData | script/adjust_item_data.py:46-69 | each array slot holds its adjusted old item, keeping the number and order of items; the counter is the total of fields written |
| ItemAdjust.UnlistedUnchanged | script/adjust_item_data.py:49-69 | an item named in no table changes only by gaining an empty infobox if it had none, and counts 0 |
| ItemAdjust.ApplyTypesUnlisted | script/adjust_item_data.py:54-57 | a name in no type list leaves the infobox unchanged and counts 0 |
| ItemAdjust.LastListWins | script/adjust_item_data.py:54-57 | the type is that of the last list naming the item |
| ItemAdjust.TypeListsDisjoint | script/adjust_item_data.py:22-35 | the three type lists share no name |
| ItemAdjust.SourceTypeRule | script/adjust_item_data.py:22-56 | with the source's tables, a name in a type list gets exactly that list's type |
| ItemAdjust.SourceMatches | script/adjust_item_data.py:22-69 | with the source's tables (no price or image overrides), an item counts 1 if listed and 0 otherwise |
| ItemAdjust.SourceUpdatedCount | script/adjust_item_data.py:46-69 | with the source's tables, the counter equals the number of listed items |
| StructuredData.OrLaws | app/components/StructuredData.tsx:18 | `a \|\| b` is truthy when either side is, groups either way, is b when a is falsy, a when a is truthy, and a for `a \|\| a` |
| StructuredData.Build | app/components/StructuredData.tsx:9-62 | each object starts with `@context` set to schema.org and `@type` set to the requested type |
| StructuredData.ContextAndType | app/components/StructuredData.tsx:9-61 | looking up `@context` gives `https://schema.org` and looking up `@type` gives the requested type, for all three types |
| StructuredData.WebSiteName | app/components/StructuredData.tsx:18 | a website's name is `data.name` when truthy, else "ARC Forge" |
| StructuredData.WebSiteSearchTemplate | app/components/StructuredData.tsx:21-26 | the search action's target template is `data.url` as a string followed by `?search={search_term_string}` |
| StructuredData.ArrayToString | app/components/StructuredData.tsx:25 | an array in a template literal reads as `join(',')`: a one-element array reads as its element (`undefined` and `null` as ""), and the string of two non-empty arrays concatenated is their two strings with one `,` between |
| StructuredData.IntToDecimal | app/components/StructuredData.tsx:25 | a number's numeral has a minus sign exactly when it is negative, and its digits denote its magnitude |
| StructuredData.NatToDecimal | app/components/StructuredData.tsx:25 | the numeral of n has only digits, no leading zero, and denotes n |
| StructuredData.ItemListElements | app/components/StructuredData.tsx:39-49 | without `items` the list is undefined; otherwise it has one `ListItem` per entry, in order, at positions 1..n, each holding its entry's product |
| StructuredData.ProductCopiesEntry | app/components/StructuredData.tsx:42-47 | a product has type `Product` and copies name, description, image and url from its entry |
| StructuredData.Product | app/components/StructuredData.tsx:42-48 | a product is an object of five properties, the first being `@type` `Product` |
| StructuredData.ListElements | app/components/StructuredData.tsx:39-49 | one element per entry; element i is a `ListItem` at position i + 1 holding entry i's product |
| StructuredData.ScriptId | app/components/StructuredData.tsx:66 | the id is `structured-data-` followed by exactly the page type's name |
| StructuredData.ScriptIdsDistinct | app/components/StructuredData.tsx:66 | different page types get different script ids |
| Sitemap.BaseUrl | app/sitemap.ts:6 | the environment value when set and non-empty, else `http://localhost:3000`; never empty |
| Sitemap.RoutesShape | app/sitemap.ts:10-29 | the first route is the base URL, `daily`, priority 1.0; the total is 1 plus the number of records with non-empty edges |
| Sitemap.Routes | app/sitemap.ts:10-29 | there is at least one route and at most one more than the records; the first is the non-empty base URL |
| Sitemap.CraftingRoutes | app/sitemap.ts:20-27 | one route per record with edges, so never more routes than records |
| Sitemap.CraftingRoutesFromRecordsWithEdges | app/sitemap.ts:20-27 | each later route is a record's page, built from base + `/crafting-tree?item=` + enc(name), `weekly`, 0.8, for a record whose edges are present and non-empty |
| Sitemap.RecordsWithEdgesRouted | app/sitemap.ts:20-29 | every record with present, non-empty edges gets its page |
| Sitemap.CraftingRoutesInOrder | app/sitemap.ts:20-29 | crafting routes follow the order of the records: the routes of a concatenation are the routes of its parts, one after the other |

## Left out

- Cytoscape itself: construction, rendering, pan and zoom, `fit`/`padding`, the painting of the `:selected` highlight, the `cyRef` handle and its `destroy` cleanup. This is a foreign library.
- React hooks and JSX markup (`useEffect`, `isReady`, header, navigation, canvas). These are UI plumbing.
- Style attributes beyond those listed in `NodeStyle` and `EdgeStyle`: label, text alignment and the edge-label text background. They are constant data with nothing to state.
- CraftingStyle.ControlDistancesFor: gives the two distances as exact reals, not JavaScript's formatting of them into the string `"d -d"`. Binary floating point is not modelled.
- Network access, HTML parsing and file output of the quest scraper: `requests.get`, BeautifulSoup `find`, the Infobox search regex, `json.dump`, `mkdir` and the `print` logging. I/O is out of scope.
- `parse_quest_tree_from_wiki` is the `fetch` parameter, along with its error handling. Its two nested helpers are modelled on their own.
- `html.unescape` and BeautifulSoup `get_text` inside `clean_text` are the `decode` parameter. They are foreign code.
- QuestTree.MatchField: `re.IGNORECASE` is modelled as ASCII case folding. Python also folds other Unicode letters.
- QuestTable.ExtractBullets: "a cell with bullet lines gives only bullets" holds only when some bullet cleans to non-empty text. Otherwise the source itself falls back to splitting the whole cell, and the contract states exactly that.
- QuestTree.CleanLabels, QuestTree.CleanPieces, QuestTable.ParseOne, ItemAdjust.AdjustOne: each is one loop, or one loop body, of its source function split out as a method. The behaviour is the same.
- The JSON load, the missing-file early return and the save in `adjust_item_data.py` (lines 14-19, 72-75). These are I/O.
- ItemAdjust: item records are assumed to have a name. The source raises `KeyError` on a record without one. A value under `infobox` or `image_urls` that is not a dictionary is not modelled.
- The `Script` component and `JSON.stringify` in `StructuredData.tsx`. Only the object is modelled.
- StructuredData: `Js.Num` holds integers only. JavaScript's number-to-string conversion of fractions, its exponent form from 1e21 up and its loss of precision beyond 2^53 are not modelled; the builder itself only produces integer list positions, and values copied from the page data are taken to be integers where they are numbers.
- StructuredData: `data.items` is modelled as absent or a list of records. A value that is neither makes the source throw, and that path is not modelled.
- `process.env`, `new Date()` and `encodeURIComponent` in `sitemap.ts` are inputs. The encoder is an arbitrary function, so percent-encoding itself is not modelled.
- `app/manifest.ts` and `next.config.ts` are constant configuration with no behaviour; they are not part of this model.
