# Tool launcher core, modelled in Dafny

The launcher shows a grid of buttons, one per external tool, chosen from a
compiled-in registry. Each registry entry has a name, a category and a path.
With an empty search field the grid shows the tools of the category selected
in the sidebar. With a non-empty search field it shows every tool whose
lower-cased name contains the lower-cased query. Clicking a button asks the
application to launch that tool. A missing executable sets a pending error,
shown in a closable window. Hovering a button shows the tool's path, with the
`.\tools\` prefix removed and backslashes shown as slashes.

The model lifts this logic out of the UI closures of `src/main.rs`:

- `text.dfy`: `Wrappers.Option` and module `Text`: ASCII lower-casing,
  substring search with its positional characterisation, prefix stripping,
  character replacement.
- `filter.dfy`: `Registry.Tool` and module `ToolFilter`: the tool filter
  `ToolFilter.FilterTools` (src/main.rs:138-151) as a function over an
  arbitrary registry, with its exact characterisation.
- `tooltip.dfy`: module `Tooltip`: the tooltip path rewrite
  `Tooltip.TooltipText` (src/main.rs:191-195).
- `grid.dfy`: module `Grid`: the loop `Grid.LayOutGrid` that lays out the
  filtered tools, `perRow` buttons to a row, and the function `Grid.GridCells`
  (src/main.rs:172-180) that gives what it produces.
- `app.dfy`: module `App`: class `ToolboxApp` with the fields the source
  updates (`selectedCategory`, `searchQuery`, `errorPopup`), its per-frame
  methods, and the spec functions they are proved against: `App.Launch`
  (src/main.rs:85-113), `App.MissingToolMessage` (src/main.rs:94) and
  `App.SelectedAfter` (src/main.rs:238-244).

Inputs from outside the program are parameters:

- the filesystem existence check is an oracle `pathExists: string -> bool`;
- the content of `tools/Version` is an `Option<string>`;
- the clicks of one frame are a set of sidebar indices and a "window closed" flag;
- the typed search text is a string;
- the index taken from the launch queue is an `Option<nat>`;
- the number of buttons per row is a number `perRow >= 1`.

An error set by a launch is shown in the same frame: `update` launches first
(src/main.rs:215-217) and shows the error window last (src/main.rs:254);
`App.ToolboxApp.Update` states it that way.

The selection invariant is `selectedCategory == 0 || selectedCategory < |categories|`:
the selection starts at 0 and is only set to an index of the category list.

## Model

| member | source | states |
|---|---|---|
| `Text.LowerChar` | src/main.rs:146-148 | the result is never an ASCII upper-case letter; upper-case letters move to their lower-case form, other characters are kept |
| `Text.Lower` | src/main.rs:146-148 | lower-casing keeps the length and maps each character independently |
| `Text.LowerIdempotent` | src/main.rs:146-148 | lower-casing an already lower-cased string changes nothing |
| `Text.ContainsIff` | src/main.rs:146-148 | the substring test `Text.Contains` holds exactly when the query occurs at some position of the name (both directions) |
| `Text.ContainsAtIndex` | src/main.rs:146-148 | any occurrence at a given position makes the substring test true |
| `Text.ContainsFirstChar` | src/main.rs:146-148 | a non-empty query can only be found in a string that holds its first character |
| `Text.StripPrefix` | src/main.rs:191-194 | the strip succeeds exactly when the path starts with the prefix, and then prefix plus remainder gives back the path |
| `Text.ReplaceChar` | src/main.rs:195 | the result has the input's length, with `from` replaced by `to` at every position and all other characters kept |
| `Text.ReplaceCharRemoves` | src/main.rs:195 | after replacing backslashes by slashes no backslash remains |
| `Text.ReplaceCharAbsent` | src/main.rs:195 | replacing a character that does not occur leaves the string unchanged |
| `ToolFilter.FilterSound` | src/main.rs:138-151 | every pair `(i, t)` in the filtered list `FilterTools` has `i < \|tools\|`, `tools[i] == t`, and `t` passes the filter condition |
| `ToolFilter.FilterOrdered` | src/main.rs:138-142 | registry indices in the filtered list strictly increase: registry order is kept, no tool appears twice |
| `ToolFilter.FilterComplete` | src/main.rs:138-151 | every registry entry that passes the filter condition appears in the filtered list |
| `ToolFilter.FilterExact` | src/main.rs:138-151 | an index is in the filtered list exactly when it is in range and its tool passes the filter condition |
| `ToolFilter.FilterByCategory` | src/main.rs:143-144 | with an empty query, exactly the tools whose category equals the selected category name are listed |
| `ToolFilter.FilterBySearch` | src/main.rs:145-149 | with a non-empty query, exactly the tools whose lower-cased name contains the lower-cased query are listed |
| `ToolFilter.FilterSearchIgnoresCategory` | src/main.rs:143-149 | with a non-empty query, the filtered list is the same whichever category is selected |
| `ToolFilter.FilterCaseInsensitive` | src/main.rs:146-148 | two queries that lower-case to the same string give the same filtered list |
| `ToolFilter.FilterCongruent` | src/main.rs:142-150 | two filter conditions that agree on every registry entry give the same filtered list |
| `ToolFilter.DiskExampleByCategory` | src/main.rs:143-144 | a registry holding only "DiskCheck" in "Disk": selecting "Disk" with no query lists exactly that tool at index 0 |
| `ToolFilter.DiskExampleSearchHit` | src/main.rs:145-149 | in that registry, searching "CHECK" lists that tool whatever category is selected |
| `ToolFilter.DiskExampleSearchMiss` | src/main.rs:145-149 | in that registry, searching "xyz" lists nothing |
| `Tooltip.TooltipAt` | src/main.rs:191-195 | the tooltip `TooltipText` is the path after `.\tools\` (or the whole path when that prefix is absent), position by position, with each backslash shown as `/` |
| `Tooltip.TooltipOfPrefixed` | src/main.rs:191-195 | for a path `.\tools\` + rest, the tooltip is rest with backslashes turned into slashes |
| `Tooltip.TooltipOfUnprefixed` | src/main.rs:194-195 | a path without the prefix is shown whole, with backslashes turned into slashes |
| `Tooltip.TooltipHasNoBackslash` | src/main.rs:195 | no tooltip contains a backslash |
| `Tooltip.TooltipIdempotent` | src/main.rs:191-195 | rewriting a tooltip text again leaves it unchanged |
| `Grid.LayOutGrid` | src/main.rs:172-180 | the loop over grid positions emits exactly the cells of `GridCells`: a row break before position `p` iff `p > 0 && p % perRow == 0`, then that tool's button |
| `Grid.ShowTools` | src/main.rs:153-180 | an empty filtered list shows the "no tools found" label; otherwise the panel shows the laid-out grid |
| `Grid.GridButtons` | src/main.rs:172-180 | the grid has exactly one button per filtered tool, in filtered order, carrying its registry index and its name |
| `Grid.GridEndRows` | src/main.rs:172-175 | a grid of `n > 0` buttons has `(n - 1) / perRow` row breaks |
| `Grid.GridRowCount` | src/main.rs:163-175 | a grid of `n > 0` buttons has `(n + perRow - 1) / perRow` rows |
| `Grid.GridButtonPlace` | src/main.rs:172-175 | the button at position `p` comes after exactly `p / perRow` row breaks, so it sits in row `p / perRow` of the grid of `GridCells` |
| `Grid.GridPrefix` | src/main.rs:172-175 | laying out a prefix of the filtered list gives a prefix of the full grid's cells |
| `App.MissingToolMessageMentions` | src/main.rs:93-95 | the missing-tool error text `MissingToolMessage` contains the tool's name and its path |
| `App.Launch` | src/main.rs:85-113 | a launch request is ignored iff the index is out of range; it reports the missing-tool message iff the index is in range and the path does not exist; otherwise it opens that tool's path |
| `App.LaunchReportsMissingTool` | src/main.rs:86-96 | a launch sets an error iff the index is in range and the path is missing, and that error names the tool and its path |
| `App.SelectedAfterSpec` | src/main.rs:238-244 | after the sidebar loop (`SelectedAfter`), the selection is the last clicked index when some entry was clicked, and is unchanged when none was |
| `App.SelectionStaysInBounds` | src/main.rs:238-244 | with a non-empty category list, any selection the sidebar leaves is a valid index into it, so the lookup at src/main.rs:133 is in bounds |
| `App.ToolboxApp.constructor` | src/main.rs:65-82 | the selection starts at 0, the query empty, no error pending; the version label is the file content, or `未知` when the file is missing or unreadable |
| `App.ToolboxApp.CategoryName` | src/main.rs:133 | the selected category name is one of the categories |
| `App.ToolboxApp.LaunchTool` | src/main.rs:85-113 | out of range: no state change; path missing: `errorPopup` becomes the missing-tool message; path present: `errorPopup` unchanged, and the path is returned as the one handed to the shell; no other field changes |
| `App.ToolboxApp.ShowErrorPopup` | src/main.rs:115-129 | the window shows the pending error; closing it clears the error; with no error pending nothing changes |
| `App.ToolboxApp.EditSearch` | src/main.rs:226-227 | the query becomes the typed text and nothing else changes |
| `App.ToolboxApp.ShowCategories` | src/main.rs:238-244 | the selection becomes `SelectedAfter` of the clicks, only this field changes, and the selection invariant is kept |
| `App.ToolboxApp.ShowToolsUi` | src/main.rs:132-159 | the heading names the selected category, and the view is the layout of the filtered tools for the current selection and query |
| `App.ToolboxApp.Update` | src/main.rs:214-255 | one frame: launch the queued index, take the typed query, run the sidebar, lay out the panel for the new selection and query, then show and possibly close the error window |

## Left out

- Text.Lower: lower-cases ASCII letters only, because Rust's `to_lowercase` applies Unicode case mapping, which can change the length of a string; Unicode case mapping is not modelled.
- The substring test `Text.Contains` compares characters (Unicode scalar values), which matches Rust's `str::contains` on a `&str` pattern.
- App.ToolboxApp.Update: requires a non-empty category list, because the source panics at src/main.rs:133 when the list is empty; that panic is not modelled.
- App.ToolboxApp.ShowToolsUi: requires a non-empty category list, because the source panics at src/main.rs:133 when the list is empty; that panic is not modelled.
- All rendering is left out: panels, the grid widget, buttons, tooltip widgets, windows, styles and fonts (src/main.rs:36-63, 119-124, 153-209, 219-252). Only the cells the grid loop emits and the texts it shows are modelled.
- Font loading is left out (src/main.rs:47-63); it is filesystem I/O with a silent fallback.
- Reading `tools/Version` is left out (src/main.rs:65-71); it is filesystem I/O, so the constructor takes the file content as a parameter.
- The `ShellExecuteW` call and its UTF-16 strings are left out (src/main.rs:99-112); they are Windows FFI. A successful launch changes no state and returns the path that would be opened. The result of the OS call is never checked by the source either.
- The click thread and `mpsc` channel are left out (src/main.rs:183-187, 215-217); they are concurrency. `Update` takes the index drained from the queue, if any, as a parameter.
- Computing `buttons_per_row` from the panel width is left out (src/main.rs:161-164); it is floating point. `perRow >= 1` is a parameter, as `.max(1)` guarantees.
- `Path::exists` is the oracle `pathExists`.
- The `tools_info` module (`TOOLS`, `CATEGORIES`) is not part of this model; the registry is an arbitrary pair of sequences.
- `main` and the window options are left out (src/main.rs:258-272); they are UI start-up code.
