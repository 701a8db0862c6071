# OneMore context menu settings sheet, modelled in Dafny

`ContextMenuSheet` is the OneMore settings page on which the user picks the commands shown on
the page context menu. This project models its logic:

- **Menu collection** (`CollectCommandMenus`, `menus.dfy`). The add-in's commands are filtered
  and grouped by category into menus. Commands are sorted by name within a menu and menus by
  name. The proofing-language menu is added when the host has more than one editing language.
  Sorting is `Enumerable.OrderBy`: a stable sort under the culture comparer (`ordering.dfy`).
- **Row layout** (`MenuPanel.AddMenus`, `layout.dfy`). There is one row per menu, followed by
  rows for its commands, except for the colorize menu. A running maximum of the widths becomes
  one common width, so that all right edges line up.
- **Load and save** (the constructor's load loop and `CollectSettings`, `binding.dfy` and
  `sheet.dfy`). A row is checked when its key is in the stored `items` list. Saving edits
  that list in place and writes the collection only when it changed.
- **Migration** (`UpgradeSettings`, `upgrade.dfy`). It renames four buttons and flattens the old
  one-key-per-command format into an `items` list. It stores and saves only when something
  changed.

The settings store (`store.dfy`) is a map of named collections. Each collection maps keys to
values. `SetCollection` and `Save` append to a log of effects.

Parts of the system are parameters:

- Reflection over `AddIn` is a sequence of `Descriptor`s.
- `Resx.ResourceManager.GetString` is `lookup`, which may return null (`None`).
- The formatting of a menu name is `format`.
- The culture comparer is `leq`, assumed to be a total preorder. Null sorts first.
- `Office.GetEditingLanguages()` is `codes`.
- A new control's width is `measure(text, indented)`.
- `SystemInformation.MenuCheckSize.Width` is `checkSize`.

The source's `new ContextMenuSheet(provider)` is split in two:

- The Dafny constructor covers lines 181-204: it builds the panel through `NewMenuPanel`.
- `Load` covers the load loop, lines 206-219. That loop dereferences a null `items` list when
  the collection has none; `Load` reports this case with `ok == false` and changes nothing.

The source's `AddMenus` is modelled as `AddMenus` plus three helpers, one per loop:

- `AddRows`: the outer loop.
- `AddCommandRows`: the loop over a menu's commands.
- `SetWidths`: the final loop that sets widths.

## Model

| member | source | states |
|---|---|---|
| Strings.EndsWith | OneMore/Commands/Settings/ContextMenuSheet.cs:234 | The name ends with the suffix: its last characters are exactly the suffix. No contract |
| Strings.IsNullOrWhiteSpace | OneMore/Commands/Settings/ContextMenuSheet.cs:236 | `string.IsNullOrWhiteSpace`: null, or every character is white space. No contract |
| Strings.StripLabel | OneMore/Commands/Settings/ContextMenuSheet.cs:213 | `Replace("_Label", string.Empty)`, scanning left to right: the result is no longer than the input, and an input that does not begin with `_Label` keeps its first character. Its relation to a resource id is stated by `StripLabelSuffix` |
| Strings.StripLabelSuffix | OneMore/Commands/Settings/ContextMenuSheet.cs:284 | Removing `_Label` from a key followed by `_Label` gives the same persisted key as removing it from the key alone |
| Ordering.NameLeq | OneMore/Commands/Settings/ContextMenuSheet.cs:251-267 | The default string comparer used by the three `OrderBy` calls: null precedes every string, otherwise `leq` decides. No contract; `NameLeqTotal`, `NameLeqTransitive` and `OrderBySorted` state the order it gives |
| Ordering.OrderBy | OneMore/Commands/Settings/ContextMenuSheet.cs:251-253 | Sorting keeps every element exactly as often as before |
| Ordering.OrderBySorted | OneMore/Commands/Settings/ContextMenuSheet.cs:251-253 | Under a total preorder, the sorted sequence is ordered by key for every pair of positions, null keys first |
| Ordering.InsertByAbove | OneMore/Commands/Settings/ContextMenuSheet.cs:251-253 | Inserting an element at or above a bound into elements at or above it leaves every element at or above that bound |
| Ordering.CountOrderBy | OneMore/Commands/Settings/ContextMenuSheet.cs:251-253 | Sorting neither adds nor drops an element satisfying any predicate |
| CommandMenus.IsCommand | OneMore/Commands/Settings/ContextMenuSheet.cs:233-237 | The filter: the method name ends in `Cmd`, the attribute is present, and its category is not null or whitespace. No contract; `CollectCommandMenusContents` states that exactly these commands are kept |
| CommandMenus.Entries | OneMore/Commands/Settings/ContextMenuSheet.cs:233-244 | The filter followed by the projection, in input order. No contract; `EntriesCategory` and `ItemsWhere` state what it yields |
| CommandMenus.GroupBy | OneMore/Commands/Settings/ContextMenuSheet.cs:245 | Groupings in order of first appearance of their key, members in input order. No contract; `GroupByGroups` states the members against the independent filter `Where`, and `GroupByOrder` states the order of the groupings |
| CommandMenus.MenusOf | OneMore/Commands/Settings/ContextMenuSheet.cs:246-252 | One menu per grouping, in grouping order: the formatted category name, the category resource id, and the commands sorted by name |
| CommandMenus.CategoryMenus | OneMore/Commands/Settings/ContextMenuSheet.cs:227-253 | The category menus sorted by name. No contract; `CollectCommandMenusSorted` and `CollectCommandMenusMembers` state its order and members |
| CommandMenus.ProofingMenu | OneMore/Commands/Settings/ContextMenuSheet.cs:260-265 | The proofing menu: looked-up name, `ribProofingMenu_Label`, no commands. No contract; `CollectCommandMenusProofing` states when it appears |
| CommandMenus.CategoryResID | OneMore/Commands/Settings/ContextMenuSheet.cs:241 | The category followed by `_Label`. No contract |
| CommandMenus.EntryOf | OneMore/Commands/Settings/ContextMenuSheet.cs:238-244 | The projected record of one kept method: its resource id, the category resource id, and both looked up. No contract |
| CommandMenus.MenuOf | OneMore/Commands/Settings/ContextMenuSheet.cs:246-252 | The menu of one grouping: the formatted key name, the key resource id, and the members as commands sorted by name. No contract |
| CommandMenus.HasProofing | OneMore/Commands/Settings/ContextMenuSheet.cs:257 | The languages array is non-null and has more than one element. No contract |
| CommandMenus.EntriesCategory | OneMore/Commands/Settings/ContextMenuSheet.cs:238-244 | Each projected command's category name is the lookup of its category resource id `category + "_Label"` |
| CommandMenus.ItemOf | OneMore/Commands/Settings/ContextMenuSheet.cs:250 | One member as a menu item: its name and resource id. No contract; `ItemsWhere` states it through `Items` |
| CommandMenus.Items | OneMore/Commands/Settings/ContextMenuSheet.cs:250 | The projection of a group's members to menu items, one item per member, so no member is dropped or added; `ItemsWhere` states the contents |
| CommandMenus.ItemsWhere | OneMore/Commands/Settings/ContextMenuSheet.cs:233-250 | A group's items, in order, are exactly the commands that pass the filter and belong to that category |
| CommandMenus.GroupByGroups | OneMore/Commands/Settings/ContextMenuSheet.cs:245 | Grouping gives distinct keys. Each group holds exactly the entries with its key, in order, and is nonempty. Every entry's key has a group |
| CommandMenus.GroupByOrder | OneMore/Commands/Settings/ContextMenuSheet.cs:245-253 | The groupings' keys are the entries' keys, each once, in order of first appearance (`FirstKeys`). This order is what the stable sort at line 253 keeps between menus whose names compare equal |
| CommandMenus.UnsortedMenuContents | OneMore/Commands/Settings/ContextMenuSheet.cs:245-252 | Each category menu has commands, is named by formatting its category's display name, and holds the category's commands |
| CommandMenus.UnsortedMenusDistinct | OneMore/Commands/Settings/ContextMenuSheet.cs:245-249 | No two category menus share a resource id |
| CommandMenus.UnsortedMenusCover | OneMore/Commands/Settings/ContextMenuSheet.cs:233-249 | Every kept command's category has a menu |
| CommandMenus.UnsortedMenusNonEmpty | OneMore/Commands/Settings/ContextMenuSheet.cs:233-252 | Every category menu has commands, so none of them counts as empty |
| CommandMenus.CollectCommandMenus | OneMore/Commands/Settings/ContextMenuSheet.cs:223-271 | The result has one menu per category, plus one when more than one editing language is reported |
| CommandMenus.CollectCommandMenusSorted | OneMore/Commands/Settings/ContextMenuSheet.cs:250-267 | Menus are ordered by name, with or without the proofing menu, and each menu's commands are ordered by name |
| CommandMenus.MenusOfSorted | OneMore/Commands/Settings/ContextMenuSheet.cs:246-252 | Every category menu lists its commands in name order |
| CommandMenus.CollectCommandMenusMembers | OneMore/Commands/Settings/ContextMenuSheet.cs:256-268 | A menu is in the result iff it is a category menu, or it is the proofing menu and the languages array is non-null with length > 1 |
| CommandMenus.CollectCommandMenusContents | OneMore/Commands/Settings/ContextMenuSheet.cs:233-252 | A menu with commands is named after its category and holds exactly that category's kept commands. A command is kept iff its method name ends in `Cmd`, it has an attribute, and its category is not null or whitespace |
| CommandMenus.UnsortedOnePerCategory | OneMore/Commands/Settings/ContextMenuSheet.cs:233-252 | Before the final sort, a kept command's category `category + "_Label"` has exactly one menu with commands |
| CommandMenus.CollectCommandMenusOnePerCategory | OneMore/Commands/Settings/ContextMenuSheet.cs:233-252 | A kept command's category `category + "_Label"` has exactly one menu with commands |
| CommandMenus.ProofingCount | OneMore/Commands/Settings/ContextMenuSheet.cs:253-268 | The result has exactly one menu without commands when the array is non-null with length > 1, and none otherwise |
| CommandMenus.ProofingOnlyEmpty | OneMore/Commands/Settings/ContextMenuSheet.cs:253-268 | The only menu in the result that can lack commands is the proofing menu |
| CommandMenus.ProofingPresent | OneMore/Commands/Settings/ContextMenuSheet.cs:256-268 | The proofing menu is in the result iff the array is non-null with length > 1 |
| CommandMenus.CollectCommandMenusProofing | OneMore/Commands/Settings/ContextMenuSheet.cs:256-268 | A menu without commands is present iff the array is non-null with length > 1. It is then the proofing menu (`ribProofingMenu_Label`, looked-up name, no commands), exactly once |
| Layout.NewRow | OneMore/Commands/Settings/ContextMenuSheet.cs:59-60 | A new `MenuItemPanel`: its text and tag, its indent, its natural width, no flow break, unchecked. No contract |
| Layout.Offset | OneMore/Commands/Settings/ContextMenuSheet.cs:64-79 | What one row contributes to `width`: a command row its width, a menu row its width plus `checkSize`. No contract |
| Layout.MenuRows | OneMore/Commands/Settings/ContextMenuSheet.cs:57-81 | One menu's rows: its own unindented row, then one indented row per command unless it is the colorize menu. No contract; `EmittedRowsHeaders` states the counts |
| Layout.EmittedRows | OneMore/Commands/Settings/ContextMenuSheet.cs:57-82 | Every menu's rows, in menu order. No contract; `AddRows` is proved to append exactly these rows |
| Layout.MaxOffset | OneMore/Commands/Settings/ContextMenuSheet.cs:55-82 | The running maximum `width` of the first loop, from 0, with a menu row counting `checkSize` more. No contract; `MaxOffsetIsMaximum` states it is the maximum |
| Layout.Resized | OneMore/Commands/Settings/ContextMenuSheet.cs:89-90 | The last loop on one row: a flow break, and width W for an indented row, W + checkSize otherwise. No contract; `SetWidths` and `AddMenus` state the result |
| Layout.CommandRows | OneMore/Commands/Settings/ContextMenuSheet.cs:72-80 | A menu contributes one row per command, and each of these rows is indented |
| Layout.EmittedRowsHeaders | OneMore/Commands/Settings/ContextMenuSheet.cs:57-82 | Each menu contributes exactly one unindented header row. The row count is the menu count plus the commands of every menu except the colorize menu |
| Layout.CommandRowsUnchecked | OneMore/Commands/Settings/ContextMenuSheet.cs:72-80 | Every command row starts unchecked: its check box is created without setting `Checked` (lines 125-149) |
| Layout.EmittedRowsUnchecked | OneMore/Commands/Settings/ContextMenuSheet.cs:57-82 | Every row `AddMenus` creates starts unchecked, because each `MenuItemPanel` creates its check box without setting `Checked` (lines 125-149) |
| Layout.MaxOffsetIsMaximum | OneMore/Commands/Settings/ContextMenuSheet.cs:55-82 | The running maximum is at least 0, bounds every row's offset (a menu row counts `checkSize` more), and is 0 or attained by some row |
| Layout.MaxOffsetAppend | OneMore/Commands/Settings/ContextMenuSheet.cs:55-82 | Continuing the running maximum over more rows equals the running maximum over all rows |
| Layout.MenuPanel.AddRows | OneMore/Commands/Settings/ContextMenuSheet.cs:55-82 | Appends each menu's row followed by its command rows (none for the colorize menu), and returns the running maximum over the new rows |
| Layout.MenuPanel.AddCommandRows | OneMore/Commands/Settings/ContextMenuSheet.cs:72-80 | Appends one indented row per command and carries the running maximum over them |
| Layout.MenuPanel.SetWidths | OneMore/Commands/Settings/ContextMenuSheet.cs:87-91 | Every control gets a flow break, and its width is the common width, plus `checkSize` for an unindented row |
| Layout.MenuPanel.AddMenus | OneMore/Commands/Settings/ContextMenuSheet.cs:53-92 | Existing and new rows all get a flow break and the width W = 20 + the running maximum (command rows W, menu rows W + checkSize), so every row's indent plus width is W + checkSize |
| Binding.Key | OneMore/Commands/Settings/ContextMenuSheet.cs:213 | The persisted key of a row: its tag with every `_Label` removed; the save loop at line 284 uses the same key. No contract; `StripLabelSuffix` and `LoadedChecked` state it |
| Binding.LoadRow | OneMore/Commands/Settings/ContextMenuSheet.cs:211-217 | One row of the load loop: checked when its stripped tag is listed, otherwise as it was. No contract; `LoadedChecked` states it |
| Binding.Loaded | OneMore/Commands/Settings/ContextMenuSheet.cs:209-219 | The load loop over every row. No contract; `LoadedChecked` and `SaveThenLoad` state it |
| Binding.Cleared | OneMore/Commands/Settings/ContextMenuSheet.cs:196-204 | The rows with every check box cleared, as a new sheet creates them. No contract; `ClearedUnchecked` states it |
| Binding.ClearedUnchecked | OneMore/Commands/Settings/ContextMenuSheet.cs:196-219 | A sequence of rows equals its own cleared form exactly when no row in it is checked. Together with the constructor's `Unchecked` clause, this makes `LoadedChecked` describe the sheet the constructor builds |
| Binding.LoadedChecked | OneMore/Commands/Settings/ContextMenuSheet.cs:209-219 | On a new sheet, loading checks a row iff its `_Label`-stripped tag is listed, and changes nothing else about it |
| Binding.RemoveFirst | OneMore/Commands/Settings/ContextMenuSheet.cs:296-301 | Removes the first element equal to the key. No contract; `RemoveFirstAt`, `RemoveFirstAbsent` and `RemoveFirstCount` state what it removes |
| Binding.RemoveFirstAbsent | OneMore/Commands/Settings/ContextMenuSheet.cs:296-301 | Removing a key that is not listed leaves the list unchanged |
| Binding.RemoveFirstAt | OneMore/Commands/Settings/ContextMenuSheet.cs:296-301 | Removing a listed key cuts the list at its first occurrence and keeps everything else in order |
| Binding.RemoveFirstCount | OneMore/Commands/Settings/ContextMenuSheet.cs:296-301 | Removing a key lowers that key's count by one when it is listed and changes no other count |
| Binding.RemoveFirstNoDup | OneMore/Commands/Settings/ContextMenuSheet.cs:296-301 | In a list without duplicates, removal leaves no duplicates and no occurrence of the key |
| Binding.SaveStep | OneMore/Commands/Settings/ContextMenuSheet.cs:284-302 | One iteration of the save loop: a checked, unlisted key is appended; an unchecked, listed key loses its first occurrence; the flag says whether the list changed. No contract; `SaveStepKeepsMembership` and `SaveAllListed` state its effect |
| Binding.SaveAll | OneMore/Commands/Settings/ContextMenuSheet.cs:276-303 | The save loop over every row from the stored list, with the `updated` flag. No contract; the `SaveAll` lemmas state it |
| Binding.SaveStepKeepsMembership | OneMore/Commands/Settings/ContextMenuSheet.cs:286-302 | One iteration of the save loop leaves every other key listed iff it was listed |
| Binding.SaveAllOthers | OneMore/Commands/Settings/ContextMenuSheet.cs:282-303 | A key that belongs to no row is listed as many times after saving as before |
| Binding.SaveAllKeepsMembership | OneMore/Commands/Settings/ContextMenuSheet.cs:282-303 | A key that belongs to no row is listed after saving iff it was listed before |
| Binding.SaveAllNoDup | OneMore/Commands/Settings/ContextMenuSheet.cs:286-302 | A checked key is appended only when absent, so a list without duplicates stays without duplicates |
| Binding.SaveAllUnflagged | OneMore/Commands/Settings/ContextMenuSheet.cs:282-303 | A save that reports no change leaves the stored list exactly as it was |
| Binding.SaveAllChanged | OneMore/Commands/Settings/ContextMenuSheet.cs:276-303 | `updated` is true iff some row is checked but unlisted, or unchecked but listed, for any rows, since the list is untouched up to the first such row |
| Binding.SaveAllListed | OneMore/Commands/Settings/ContextMenuSheet.cs:282-303 | With distinct row keys and no duplicates, a row's key is listed after saving iff the row is checked |
| Binding.SaveAllIdempotent | OneMore/Commands/Settings/ContextMenuSheet.cs:274-320 | When no two rows share a key and the stored list has no duplicates, saving again right after a save reports no change |
| Binding.SaveDuplicatesNotIdempotent | OneMore/Commands/Settings/ContextMenuSheet.cs:296-301 | An unchecked row whose key is listed twice: the first save leaves it listed once, and a second save still reports a change |
| Binding.SaveThenLoad | OneMore/Commands/Settings/ContextMenuSheet.cs:274-320 | When no two rows share a key and the stored list has no duplicates, loading the saved list into a new sheet reproduces every row's checked state |
| Binding.LoadThenSave | OneMore/Commands/Settings/ContextMenuSheet.cs:206-303 | Saving a freshly loaded sheet without edits reports no change, for any rows and any stored list |
| Store.ItemsOf | OneMore/Commands/Settings/ContextMenuSheet.cs:207 | `Get<XElement>("items")`: the list when `items` holds one, otherwise null. No contract; the store's behaviour is an assumption listed under "## Left out" |
| Store.ItemsOrEmpty | OneMore/Commands/Settings/ContextMenuSheet.cs:279-280 | `items ??= new XElement("items")`: the stored list, or an empty one. No contract |
| Store.SettingsProvider.GetCollection | OneMore/Commands/Settings/ContextMenuSheet.cs:206 | The named collection, or an empty one when the store has none. No contract; the store's behaviour is an assumption listed under "## Left out" |
| Store.SettingsProvider.SetCollection | OneMore/Commands/Settings/ContextMenuSheet.cs:311 | The named collection is replaced, and one `Stored` write is recorded |
| Store.SettingsProvider.Save | OneMore/Commands/Settings/ContextMenuSheet.cs:383 | The collections are unchanged, and one `Saved` flush is recorded |
| Sheet.NewMenuPanel | OneMore/Commands/Settings/ContextMenuSheet.cs:196-204 | A new panel holds exactly the menus' rows, in order, each resized to the common width with a flow break, and none of them checked |
| Sheet.ContextMenuSheet.constructor | OneMore/Commands/Settings/ContextMenuSheet.cs:181-204 | The sheet keeps its provider. Its new panel holds exactly the collected menus' rows, in order, each resized to the common width with a flow break, and none of them checked, so `ClearedUnchecked` and `LoadedChecked` apply to the rows that `Load` reads |
| Sheet.ContextMenuSheet.Load | OneMore/Commands/Settings/ContextMenuSheet.cs:206-219 | With an `items` list (or no rows), every row is loaded against the list. Otherwise it fails with the rows untouched |
| Sheet.ContextMenuSheet.CollectSettings | OneMore/Commands/Settings/ContextMenuSheet.cs:274-320 | Returns the save loop's flag. When the flag is set, `items` is replaced by the edited list and `SetCollection` is called once. Otherwise the store is untouched |
| Upgrade.RenameStep | OneMore/Commands/Settings/ContextMenuSheet.cs:344-349 | One table entry: when the old key is present it is removed and the new key is set to `true`. No contract; `RenameAllKeys` states the effect |
| Upgrade.RenameAll | OneMore/Commands/Settings/ContextMenuSheet.cs:342-350 | The rename pass over the table, with the `updated` flag. No contract; `RenameAllKeys`, `RenameAllNone` and `RenameAllIdempotent` state it |
| Upgrade.ExchangeOldKeysDistinct | OneMore/Commands/Settings/ContextMenuSheet.cs:331-337 | No old button name appears twice in the rename table |
| Upgrade.ExchangeNewKeysNotOld | OneMore/Commands/Settings/ContextMenuSheet.cs:331-337 | No new button name in the rename table is also an old one |
| Upgrade.ExchangeWellFormed | OneMore/Commands/Settings/ContextMenuSheet.cs:331-337 | The old keys in the rename table are distinct, no new key is an old key, and `items` is not an old key |
| Upgrade.RenameAllKeys | OneMore/Commands/Settings/ContextMenuSheet.cs:342-350 | After renaming, old keys are gone. A new key whose old key was present is `true`. Every other key is unchanged. `updated` is set iff some old key was present |
| Upgrade.RenameAllNone | OneMore/Commands/Settings/ContextMenuSheet.cs:342-350 | Without old keys, renaming changes nothing and reports nothing |
| Upgrade.RenameAllIdempotent | OneMore/Commands/Settings/ContextMenuSheet.cs:342-350 | Renaming twice is the same as renaming once, and the second pass reports nothing |
| Upgrade.RenameKeepsItems | OneMore/Commands/Settings/ContextMenuSheet.cs:342-367 | Renaming leaves `items` as it was, so flattening runs iff the stored collection lacks `items` |
| Upgrade.UpgradedStays | OneMore/Commands/Settings/ContextMenuSheet.cs:323-385 | On an upgraded collection (has `items`, no old key), the upgrade renames nothing and does not flatten, so a second run is a no-op |
| Upgrade.Flattened | OneMore/Commands/Settings/ContextMenuSheet.cs:367-378 | A flattened collection: `items` is its only key, holds a list, lists no key twice, and lists exactly the keys of the renamed collection. No contract; `UpgradeSettings` ensures it |
| Upgrade.UpgradeSettings | OneMore/Commands/Settings/ContextMenuSheet.cs:323-385 | Renames, then flattens a collection without `items` into `items` alone, listing every remaining key once. Stores and saves iff either pass changed something; otherwise the store is untouched. The result is always upgraded |

## Left out

- The WinForms layer is not modelled: control construction, colours, padding, docking, cursors and `HandyCheckBox`. Each control's natural width comes from `measure`.
- Text measurement with `Graphics.MeasureString` and the float-to-int height are not modelled, because they are floating-point toolkit calls.
- Reflection over `AddIn` and the `CommandAttribute` lookup are not modelled; they are replaced by the `Descriptor` sequence.
- Localisation is not modelled: `GetString` and `string.Format` are the parameters `lookup` and `format`, and the culture comparer is `leq`.
- The settings store's implementation is not part of this model: XML serialisation, `Get<XElement>` parsing and file I/O.
  - A collection is a map.
  - `GetCollection` returns a copy, or an empty collection when there is none.
  - `Add` of an existing key overwrites it.
  - An `items` entry that is not a list reads as missing.
- Aliasing between the provider and the collection object that `GetCollection` returns is not modelled. If the store hands out its own object, the in-place edits of `UpgradeSettings` reach the store before `SetCollection`. The model applies them only through `SetCollection`.
- Sheet.ContextMenuSheet.CollectSettings: the `RemoveCollection` branch (line 315) is not modelled. The model assumes that `Add(items)` stores the list under its name.
  - Under that assumption, the count checked at line 309 is at least 1, so the model omits the branch, and a save that clears every box still stores an empty `items` list.
- Sheet.ContextMenuSheet.Load: the source's constructor throws on a missing `items` list as soon as a row exists. The model returns `ok == false` instead of raising an exception.
  - `Load` does not treat a missing list as an empty one, because the load loop dereferences null.
- Upgrade.UpgradeSettings: the order of the flattened `items` list is the collection's key enumeration order, which is not visible. The model picks keys in an unspecified order and states only that each remaining key is listed exactly once.
- Binding.SaveAllListed assumes that no two rows share a persisted key and that the stored list has no duplicates.
- Binding.SaveAllIdempotent assumes the same two conditions.
- Binding.SaveThenLoad assumes the same two conditions. Both are needed:
  - Two rows with one key (two commands with the same resource id, or tags `x_Label` and `x_Label_Label`) can add and then remove the same key in one save.
  - On a list with duplicates the source's save is not idempotent: an unchecked row removes only the first occurrence of its key, so the next save removes another (`Binding.SaveDuplicatesNotIdempotent`). The list stays duplicate-free only because the save loop (`Binding.SaveAllNoDup`) and the upgrade (`Flattened` in `Upgrade.UpgradeSettings`) never create duplicates.
- Strings.EndsWith compares characters exactly. The source's `EndsWith(string)` compares under the current culture, which makes no difference for the ASCII method names it is applied to.
