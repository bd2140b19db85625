# zbuffers tab picker, modelled in Dafny

zbuffers is a zellij plugin that lists the session's tabs and lets the user
pick one, either by browsing the list with the arrow keys or by typing to
fuzzy-search it. This project models the plugin's core and proves properties
about it:

- **The tab list** (`src/tab_list.rs`). This covers:
  - the `minimize_lines` window that centres the visible tabs on the cursor;
  - the `TabList` state, which has two cursors: one for browsing, one for searching;
  - how `set_tabs` orders the tabs: the others by name, the current tab last;
  - the wrap rules of the cursor moves;
  - `update_rows`, which drops a search cursor that would not be drawn;
  - the two renderers: the search results filled greedily into the row budget, and the windowed tab list with its "hidden above/below" counts (the `render_assets!` macro).
- **Line composition** (`src/ui/mod.rs`). This covers:
  - spans truncated to a column budget measured in display width;
  - characters highlighted by index;
  - the first alternative of a telescope that fits;
  - the `LineToRender` buffer, with its selection marker and `[+N]` indicator;
  - the colour and style escape sequences.
- **The plugin's entry points** (`src/main.rs`). This covers:
  - the key table of `handle_key`, as a decode to an action and a redraw flag;
  - the event dispatch of `update`;
  - `main_menu_size`.

Files:

| file | module | contents |
|---|---|---|
| `wrappers.dfy` | `Wrappers` | `Option` |
| `measure.dfy` | `Measure` | saturating subtraction, weighted sums, the greedy longest prefix that fits a budget |
| `ansi.dfy` | `Ansi` | control sequences; decimal numerals; `Visible`, the text a terminal shows for a string; `Complete`, every escape closed |
| `ui.dfy` | `Ui` | `src/ui/mod.rs` |
| `tab_list.dfy` | `TabList` | `src/tab_list.rs` |
| `plugin.dfy` | `Plugin` | `src/main.rs` |

Modelling choices:

- **Objects the source updates in place are classes.**
  - `LineToRender` is a class with `line`, `isSelected` and `truncatedResultCount` fields.
  - `TabList` is a class with the five fields of the Rust struct.
  - Each state-changing method states its whole new state.
- **Renderers produce fresh lines described by functions.**
  - A renderer returns fresh `LineToRender` objects.
  - Its contract says their abstract values (`LineView`, collected by `ViewsOf`) equal a specification function: `SearchViews`, `ListViews`, `ListItem.Views`, and so on.
  - The properties are then proved about those functions.
- **The source's loops are methods with invariants.** These are `RenderAbove` and `RenderTrailing` (the `render_assets!` loops; `RenderBelow` calls the second), `RenderSearchResults` with `RenderResult` (its `iter_mut` loop), `UpdateRows` (the fold of `update_rows`), `Truncate`, `HighlightChars`, `UiSpanTelescope.Render` and `RenderSpans`.
- **Width is a parameter.**
  - Display width comes from the unicode_width crate, so here it is a parameter `w: char -> nat`, the width of one character.
  - A string's width is the sum of its characters' widths.
- **Integers are unbounded, except at one point.** `usize` is modelled as unbounded, except that the search cursor's `saturating_add(1)` stops at `UsizeMax`, the `usize::MAX` of the wasm32 target zellij plugins are built for (2^32 - 1).
- **Escape sequences are written out.**
  - They are exact strings, with the decimal numerals `format!` produces.
  - It is proved (`Ansi.DecimalRoundTrip`) that the numerals read back as the numbers they came from.
  - Visible-text lemmas show that styling never changes what a terminal prints for plain text, i.e. text with no escape character (`NoEsc`).

## Model

| member | source | states |
|---|---|---|
| `Measure.SaturatingSub` | src/ui/mod.rs:383 | `saturating_sub`: `a - b` when `b <= a`, otherwise 0 |
| `Measure.FitLength` | src/ui/mod.rs:357-364 | the greedy prefix: its weight fits the budget, and either it is the whole sequence or one more element would not fit |
| `Measure.FitLengthUnique` | src/ui/mod.rs:357-364 | any prefix length with those two properties is the greedy one |
| `Measure.FitLengthAll` | src/ui/mod.rs:354-355 | a sequence whose whole weight fits is kept whole |
| `Measure.FitLengthCovers` | src/tab_list.rs:130-143 | an element whose prefix, itself included, fits the budget is taken by the greedy scan |
| `Measure.SumAppend` | src/tab_list.rs:104-110 | the rows of a concatenation are the sum of the rows of its parts (the fold in `update_rows`) |
| `Measure.SumPrefixMonotone` | src/tab_list.rs:104-110 | a longer prefix never takes fewer rows |
| `Ansi.Decimal` | src/ui/mod.rs:53 | `{}` of an unsigned number: at least one digit, all decimal digits, no leading zero |
| `Ansi.DecimalRoundTrip` | src/ui/mod.rs:53 | the numeral reads back as the number |
| `Ansi.DecimalInjective` | src/ui/mod.rs:53 | different bytes are written differently |
| `Ansi.VisibleAppend` | src/ui/mod.rs:189-191 | appending to a line whose escapes are closed shows the old text followed by the new |
| `Ansi.CompleteAppend` | src/ui/mod.rs:189-191 | two strings whose escapes are closed stay closed when joined |
| `Ansi.CsiInvisible` | src/ui/mod.rs:47 | a control sequence prints nothing |
| `Ansi.PlainVisible` | src/ui/mod.rs:301 | text without an escape character prints as itself |
| `Ansi.Wrapped` | src/ui/mod.rs:299-328 | plain text between two SGR sequences prints as itself |
| `Ui.ColorParams` | src/ui/mod.rs:52-57 | the colour parameters `5;byte` or `2;r;g;b` are digits and semicolons only |
| `Ui.Colors.Bold` | src/ui/mod.rs:46-48 | bold text prints as the text |
| `Ui.Colors.Color` | src/ui/mod.rs:50-59 | coloured bold text prints as the text |
| `Ui.SpanStyle.StyleString` | src/ui/mod.rs:299-328 | `SpanStyle::None` is the identity; every style prints plain text as itself |
| `Ui.ColorIsForegroundBold` | src/ui/mod.rs:50-59 | `Colors::color` writes exactly what `SpanStyle::ForegroundBold` writes |
| `Ui.BoldIsBoldStyle` | src/ui/mod.rs:46-48 | `Colors::bold` writes exactly what `SpanStyle::Bold` writes |
| `Ui.Selected` | src/ui/mod.rs:193-237 | a selected line is marked selected and keeps its count and colours; its old text becomes a suffix behind the selection prefix |
| `Ui.SelectionPrefixVisible` | src/ui/mod.rs:193-237 | behind the selection prefix a line prints the arrows, or six blanks, followed by its old text |
| `Ui.LineToRender.constructor` | src/ui/mod.rs:180-187 | `new` is an empty, unselected line with count 0 |
| `Ui.LineToRender.Append` | src/ui/mod.rs:189-191 | only the text changes, and it becomes the old text followed by the appended text |
| `Ui.LineToRender.MakeSelectedAsSearch` | src/ui/mod.rs:193-214 | the line becomes `Selected` with the search arrows ` <↓↑> ` |
| `Ui.LineToRender.MakeSelected` | src/ui/mod.rs:216-237 | the line becomes `Selected` with the list arrows `<←↓↑→>` |
| `Ui.LineToRender.AddTruncatedResults` | src/ui/mod.rs:257-259 | only the count changes: new count = old count + n |
| `Ui.LineToRender.Render` | src/ui/mod.rs:239-255 | a selected line is written as its text; an unselected one starts with the background reset, six blanks and its text, and is exactly that when it hides no results |
| `Ui.RenderVisible` | src/ui/mod.rs:239-255 | a selected line renders as its text alone, never with `[+N]`; an unselected one prints six blanks, its text, then ` [+N]` exactly when N > 0 |
| `Ui.MoreVisible` | src/ui/mod.rs:242-247 | the red ` [+N]` indicator prints ` [+N]` when N > 0 and nothing otherwise |
| `Ui.ViewsOfAppend` | src/tab_list.rs:158-160 | appending two vectors of lines appends their values |
| `Ui.Truncation` | src/ui/mod.rs:354-366 | the truncated text is a prefix of the text (the rest of its meaning is `Ui.TruncationFits`) |
| `Ui.TruncationFits` | src/ui/mod.rs:354-366 | the truncated text is a prefix of the text that fits the budget; it is the whole text when the text fits, otherwise one more character would overflow |
| `Ui.Truncate` | src/ui/mod.rs:354-366 | the loop builds exactly `Truncation`: the whole text when it fits, otherwise the greedy prefix |
| `Ui.StyledChars` | src/ui/mod.rs:369-377 | one styled piece per character of the truncated text |
| `Ui.HighlightChars` | src/ui/mod.rs:367-378 | the loop builds the pieces in order: character `i` styled with the index style iff `i` is among the indices |
| `Ui.IndicesBeyondTextIgnored` | src/ui/mod.rs:369-377 | indices at or beyond the truncated length make no difference |
| `Ui.HighlightVisible` | src/ui/mod.rs:367-378 | highlighted text prints as the truncated text |
| `Ui.PiecesVisible` | src/ui/mod.rs:367-378 | pieces that each print one character of a text print, joined in order, as the text |
| `Ui.TruncatableUiSpan.Output` | src/ui/mod.rs:347-385 | the truncation fits the budget; the new budget is the old minus its width, without underflow; without indices the text is styled once; the output prints as the truncation |
| `Ui.TruncatableUiSpan.Render` | src/ui/mod.rs:347-385 | appends `Output`'s text to the line, changes nothing else in it, and returns `Output`'s budget |
| `Ui.TruncatableVisible` | src/ui/mod.rs:367-382 | with or without indices, the rendered span prints as its truncated text |
| `Ui.FirstFit` | src/ui/mod.rs:396-397 | the first alternative whose length is strictly less than the budget, or none if none is |
| `Ui.UiSpanTelescope.Render` | src/ui/mod.rs:395-403 | appends the first alternative that fits and subtracts its length; with none, the line and the budget stay as they were |
| `Ui.UiSpan.Render` | src/ui/mod.rs:271-285 | dispatches to the telescope or the truncatable span, with the same effect on the line and budget |
| `Ui.RenderSpans` | src/ui/mod.rs:105-107 | renders spans left to right, each given the budget the earlier ones left |
| `Ui.TabUiInfo.FromTabInfo` | src/ui/mod.rs:89-95 | keeps the name and the position; the tab is current iff it is active |
| `Ui.TabUiInfo.AsLineToRender` | src/ui/mod.rs:97-109 | a fresh unselected line holding the name truncated to `max_cols`, with count 0 |
| `Ui.BuildTabUiLine` | src/ui/mod.rs:22-35 | a single truncatable span of the tab's name with no style (its rendering is `Ui.TabUiLineIsName`) |
| `Ui.TabUiLineIsName` | src/ui/mod.rs:22-35 | the tab line is one unstyled span of the name, so it renders as the truncated name with no escape added |
| `Ui.ListItem.LineCount` | src/ui/mod.rs:123-129 | 1 iff there is a tab name, else 0 |
| `Ui.ListItem.Views` | src/ui/mod.rs:131-152 | exactly `line_count` lines, unselected, with count 0 |
| `Ui.ListItem.Highlight` | src/ui/mod.rs:140-142 | indices, if any, are highlighted in bold magenta |
| `Ui.ListItem.Render` | src/ui/mod.rs:131-152 | returns `line_count` fresh lines equal to `Views`: one shared budget threaded through the spans in order |
| `TabList.Min` | src/tab_list.rs:72-75 | the smaller of two numbers |
| `TabList.Get` | src/tab_list.rs:11 | `slice::get(i..j)` answers iff `i <= j <= len`, and then with the slice `s[i..j]` |
| `TabList.CountToRender` | src/tab_list.rs:65-69 | the lines the window keeps: one when more lines must go than there are, otherwise the total less those removed |
| `TabList.MinimizeLines` | src/tab_list.rs:59-78 | both regimes; the anchor is `unwrap_or(0)`; `start <= end <= total`; `end - start = min(count_to_render, total)`; the anchor lies in the window when it is in range; in the interior the window is centred on the anchor |
| `TabList.MinimizeLinesCentred` | src/tab_list.rs:59-78 | `(10,3,Some 5)` gives `(2,5,9,0)`; `(5,7,None)` gives `(0,0,1,3)`; `(20,15,Some 10)` gives `(8,10,13,0)` |
| `TabList.MinimizeLinesShiftedBack` | src/tab_list.rs:73-76 | a window running past the end is shifted back: `(10,4,Some 9)` gives `(4,9,10,0)` |
| `TabList.MinimizeLinesEmpty` | src/tab_list.rs:65-72 | removing every line leaves an empty window at the anchor |
| `TabList.RowsWindow` | src/tab_list.rs:59-78 | with at least one row and the anchor in range, the window holds the anchor and `min(max_rows, len)` entries |
| `TabList.RenderAbove` | src/tab_list.rs:8-21 | the tabs `start..anchor` in order, the first carrying the `start` hidden above; hands on what was not placed |
| `TabList.RenderTab` | src/tab_list.rs:12-15 | a fresh line of the tab carrying the given count of hidden results |
| `TabList.RenderAnchor` | src/tab_list.rs:22-42 | the anchor tab, selected and carrying the counts only when selected without deeper selection |
| `TabList.RenderBelow` | src/tab_list.rs:43-54 | the tabs `anchor+1..end` in order, built back to front; the last carries the `len - end` hidden below |
| `TabList.RenderTrailing` | src/tab_list.rs:46-53 | the loop of the lines after the anchor: built from the last back to the first, each put in front, they are the given tabs in order, fresh, the count on the last tab only |
| `TabList.RenderAssets` | src/tab_list.rs:4-57 | the macro: the lines until and after the anchor are those the window picks, and it returns the deficit left over |
| `TabList.ListViews` | src/tab_list.rs:147-162 | what `render_list` shows: the window for `len - max_rows` removals (saturating), its lines above, at and below the anchor joined in that order (its shape is `TabList.ListViewsShape`) |
| `TabList.LayoutShape` | src/tab_list.rs:4-57 | the lines above, at and below the anchor, joined, are the window's tabs in index order, each with the count `render_assets!` gives it |
| `TabList.ListViewsShape` | src/tab_list.rs:147-162 | for `win`, the window `minimize_lines` gives, the list shows exactly the tabs `start..end` in index order, `min(max_rows, len)` of them, the anchor among them |
| `TabList.ListNeverSelected` | src/tab_list.rs:23 | no line of the list is ever marked selected |
| `TabList.ListCountsComplete` | src/tab_list.rs:8-54 | with at least three rows: the first line carries `start`, the last `len - end`, and every other line 0 |
| `TabList.ListTwoRowsLosesBelow` | src/tab_list.rs:9-54 | with two rows and the cursor strictly inside the list (not on the first or last tab), the lines are the tab before the cursor, carrying the count above, and the cursor's tab, carrying 0; so the tabs hidden below are counted on no line |
| `TabList.ListTwoRowsExample` | src/tab_list.rs:9-54 | ten tabs, cursor on the sixth: two lines carrying 4 and 0 |
| `TabList.ListTwoRowsAtTop` | src/tab_list.rs:9-54 | with two rows and the cursor on the first tab (or none), the second line carries all `len - 2` hidden tabs |
| `TabList.ListOneRow` | src/tab_list.rs:9-54 | with one row only the cursor's tab is listed, with count 0: neither the tabs above nor those below are counted |
| `TabList.ListStaleCursorEmpty` | src/tab_list.rs:147-162 | a cursor beyond `len` gives an empty list |
| `TabList.ListCursorAtEnd` | src/tab_list.rs:147-162 | for any tabs and row count, a cursor at `len` lists the last `m = min(max_rows, len)` tabs in index order, none marked; the first carries the `len - m` tabs hidden above and the rest carry 0 (so zero rows give an empty list) |
| `TabList.ListCursorAtEndExample` | src/tab_list.rs:147-162 | three tabs, five rows, cursor 3: all three tabs, each with count 0 |
| `TabList.ListZeroRows` | src/tab_list.rs:22-42 | with no rows the anchor tab is still listed |
| `TabList.SearchResult.LinesToRender` | src/tab_list.rs:308-310 | 1 iff the item has a tab name |
| `TabList.SearchResult.Views` | src/tab_list.rs:311-313 | `lines_to_render` unselected lines |
| `TabList.SearchResult.Render` | src/tab_list.rs:311-313 | returns them as fresh lines, highlighted at the result's indices |
| `TabList.MarkSelected` | src/tab_list.rs:132-137 | every line of the result is selected, with the arrows on the first only |
| `TabList.ResultViews` | src/tab_list.rs:130-138 | a result's lines, all selected or none, as it is under the cursor or not |
| `TabList.ResultsViews` | src/tab_list.rs:128-142 | as many lines as the results take |
| `TabList.SearchViews` | src/tab_list.rs:127-145 | at most `max_rows` lines |
| `TabList.ResultsSelection` | src/tab_list.rs:127-145 | line k is selected iff it belongs to the result under the search cursor |
| `TabList.BlocksSelection` | src/tab_list.rs:128-141 | in blocks of lines flagged exactly at the block under the cursor, line k is flagged iff it lies within that block |
| `TabList.SearchSelection` | src/tab_list.rs:127-145 | the results are taken in order up to the first that does not fit; line k is selected iff it belongs to the cursor's result and that result was drawn |
| `TabList.RenderResult` | src/tab_list.rs:130-138 | one result's fresh lines, marked selected as search when it is under the cursor |
| `TabList.ResultsViewsStep` | src/tab_list.rs:128-139 | one more result appends its lines after the earlier ones |
| `TabList.TakeResult` | src/tab_list.rs:130-139 | one turn of the loop: the new lines extend the old ones with the next result's lines, all fresh |
| `TabList.BrowseDown` | src/tab_list.rs:200-216 | from none onto tab 0 iff there is a tab; from `i` onto `i + 1` iff `i + 1 < len`, otherwise back to none; a valid cursor stays valid |
| `TabList.BrowseUp` | src/tab_list.rs:231-247 | from none onto the last tab iff there is a tab; from `i` onto `i - 1` iff `i > 0`, otherwise back to none; a valid cursor stays valid |
| `TabList.BrowseInverse` | src/tab_list.rs:200-247 | on valid cursors, browsing up undoes browsing down, and the other way round |
| `TabList.BrowseDownCycle` | src/tab_list.rs:200-216 | over three tabs, down from no selection visits 0, 1, 2, then none |
| `TabList.BrowseWraps` | src/tab_list.rs:200-247 | off either end of a non-empty list onto none, and from none onto the first (down) or the last (up) |
| `TabList.BrowseSteps` | src/tab_list.rs:203-210 | between neighbouring tabs `i` and `i + 1`, down steps from `i` to `i + 1` and up steps back |
| `TabList.SearchDown` | src/tab_list.rs:189-199 | from none onto the first result if there is one; otherwise one further, with no bound but `usize`'s |
| `TabList.SearchUp` | src/tab_list.rs:220-230 | from none onto the first result if there is one; otherwise one back, stopping at 0 |
| `TabList.SearchDownLeavesRange` | src/tab_list.rs:192 | down from the last result leaves the range of results |
| `TabList.UpdatedSearchIndex` | src/tab_list.rs:103-117 | the cursor is kept or dropped; it is kept iff it is on a result and the results up to it fit in the rows |
| `TabList.UpdatedCursorIsDrawn` | src/tab_list.rs:103-145 | a cursor that survives `update_rows` is on a result `render_search_results` will draw |
| `TabList.SearchDownThenUpdateRows` | src/tab_list.rs:103-117 | moving down past the last result and then `update_rows` drops the cursor |
| `TabList.NameLeTotal` | src/tab_list.rs:97 | the name order is total |
| `TabList.NameLeTransitive` | src/tab_list.rs:97 | the name order is transitive |
| `TabList.Insert` | src/tab_list.rs:91-99 | inserting into an ordered list keeps it ordered, adds the tab and counts its currency |
| `TabList.SortTabs` | src/tab_list.rs:91-99 | the result is ordered, a permutation of the input, with as many current tabs |
| `TabList.OneCurrentIsLast` | src/tab_list.rs:92-95 | in an ordered list with one current tab, that tab is last and no other is current |
| `TabList.SortTabsCurrentLast` | src/tab_list.rs:90-101 | with exactly one current tab it ends up last, and the others are in non-decreasing name order |
| `TabList.TabList.constructor` | src/tab_list.rs:80-87 | `TabList::default()`: no tabs, no results, no cursors, browsing |
| `TabList.TabList.SetTabs` | src/tab_list.rs:90-101 | the tabs become an ordered permutation of the input; no other field changes |
| `TabList.TabList.UpdateRows` | src/tab_list.rs:103-117 | the search cursor becomes `UpdatedSearchIndex`; no other field changes |
| `TabList.TabList.Render` | src/tab_list.rs:119-125 | the search layout while searching, otherwise the list layout |
| `TabList.TabList.RenderSearchResults` | src/tab_list.rs:127-145 | the lines are `SearchViews` of the results and the search cursor |
| `TabList.TabList.RenderList` | src/tab_list.rs:147-166 | the deficit is the tab count less `max_rows`, saturating; the lines before the anchor, the anchor, and those after it, joined in that order, are `ListViews` |
| `TabList.TabList.TotalLinesToRender` | src/tab_list.rs:164-166 | one line per tab: the count of tabs |
| `TabList.TabList.RenderTabs` | src/tab_list.rs:168-186 | the macro over the tabs and the browsing cursor, deeper selection set iff there is a cursor |
| `TabList.TabList.MoveSelectionDown` | src/tab_list.rs:188-217 | while searching only the search cursor moves (`SearchDown`); otherwise only the browsing cursor moves (`BrowseDown`); the tabs, the results and the mode stay |
| `TabList.TabList.MoveSelectionUp` | src/tab_list.rs:219-248 | the same, with `SearchUp` and `BrowseUp` |
| `Plugin.HandleKey` | src/main.rs:56-98 | Esc, Ctrl+g and Ctrl+c dismiss without a redraw. Up, Ctrl+p and Ctrl+k move up; Down, Ctrl+n and Ctrl+j move down. Backspace pops a search character; Enter goes to the selected tab. Any other character without modifiers is typed. Every other key does nothing. A redraw is asked for exactly when something other than nothing or dismissal happens |
| `Plugin.KeyWithModifier.HasNoModifiers` | src/main.rs:60-90 | `has_no_modifiers`: no modifier is held |
| `Plugin.KeyWithModifier.HasModifiers` | src/main.rs:79-88 | `has_modifiers(&[..])`: every listed modifier is held, whatever else is held too |
| `Plugin.PlainLettersAreTyped` | src/main.rs:90-93 | plain `g c p k n j`, without Ctrl, are typed into the search |
| `Plugin.ExtraModifiersKeepBinding` | src/main.rs:79-94 | Ctrl+Alt+n still moves down (`has_modifiers` asks only for Ctrl); Shift+x and Shift+Esc do nothing |
| `Plugin.Update` | src/main.rs:24-37 | a tab update always asks for a redraw, a key answers as `handle_key` does, and any other event does nothing |
| `Plugin.MainMenuSize` | src/main.rs:46-54 | `(0, 0, cols, rows)` |

## Left out

- `render_prompt` (src/ui/mod.rs:8-19) prints to the terminal; it is I/O.
- `Colors::orange`, `green`, `red`, `cyan` and `magenta` are modelled as one-line wrappers of `Color` without contracts of their own. `Color`'s contract covers them.
- The host glue in `src/main.rs` is left out: `register_plugin!`, `load` (`request_permission`, `subscribe`), the `render` callback, and the `hide_self()` call. Dismissal is the `Dismiss` action.
- Methods that `src/main.rs` calls on the tab list but whose bodies are not part of this model are carried only as action tags: `update`, `push_search_character`, `pop_search_character`, `go_to_selected_tab` and the four-argument `render`. So `Plugin.HandleKey` returns the action; it does not apply it to a `TabList`.
- The fuzzy scorer, which builds and orders `search_results`, is not part of this model. Only the `SearchResult` container is.
- Display width (the unicode_width crate) is the parameter `w`. A character the crate gives no width counts as whatever `w` gives it.
- zellij's `Palette`, `PaletteColor`, `TabInfo`, `KeyWithModifier`, `BareKey` and `Event` are reduced to the parts the plugin reads. Keys the picker does not tell apart are `OtherKey`, and other events are `OtherEvent`.
- `TabList.SortTabs`: the model does not follow `sort_unstable_by`'s algorithm. It is specified by its result only: ordered and a permutation. The relative order of tabs with equal names is not modelled.
- `TabList.SortTabs`: with more than one current tab the source's comparator is not a consistent order. The model puts every current tab after every other.
- The `u8` counter `current_index` of `render_assets!` feeds only the unused `_tab_index` parameter of `as_line_to_render`. It is left out, together with its possible overflow.
- `usize` overflow of sums, counts and `i + 1` is not modelled. Row counts, widths and the browsing cursor's `selected_tab + 1` are unbounded naturals. Only the search cursor's `saturating_add` stops at `UsizeMax`.
- `TabList.RenderAssets` starts from empty output vectors, as `render_tabs` always calls it; appending to non-empty vectors is not modelled.
- `TabList.TabList.SetTabs` does not reset or clamp the cursors, as written. A browsing cursor can be out of range after fewer tabs arrive. The list layouts are stated for cursors in range. A cursor beyond the last index plus one renders an empty list (`TabList.ListStaleCursorEmpty`), and one exactly at `len` renders the last `min(max_rows, len)` tabs before it without a marked line, the first counting the tabs hidden above (`TabList.ListCursorAtEnd`).
- `Ui.UiSpanTelescope.Output`, `Ui.UiSpan.Output` and `Ui.SpansOutput` only bound the remaining budget in their own contracts. What is appended is stated by the `Render` methods over them.
- `Ui.ColorParams`: it is not proved that different colours produce different parameters.
- `SpanStyle::Background` closes with `ESC[39m`, which resets the foreground, not the background. This is modelled as written; no span of the plugin uses that style.
- Commented-out code (src/tab_list.rs:256-276 and src/ui/mod.rs:25-32) is not modelled.
- The `score`, `tab_name`, `tab_position` and `is_current_tab` fields of a search result are carried but never read by the modelled code.
