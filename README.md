# Blip favourites: a Dafny model

Blip is a macOS menu-bar utility. The user pins files, folders and
applications as favourites, opens or reveals them from the tray menu, removes
them one at a time or all at once, relocates one that has gone missing, and
toggles "Open at Login". This project models the bookkeeping behind that menu
in `src/main.js` and proves properties of it:

- the favourites list and its edits;
- the display names;
- the duplicate notice;
- the menu template;
- the `dialogIsOpen` re-entrancy guard;
- the login-item reconciliation.

Modules, one per concern:

- `Wrappers` (wrappers.dfy): `Option`.
- `Text` (text.dfy): the ECMAScript string built-ins the code relies on. These are `trim` (the exact WhiteSpace and
  LineTerminator set), `toLowerCase` on ASCII letters, and `Array.prototype.join`. `Split` is included only as the inverse
  that `Join` is proved against.
- `Paths` (paths.dfy): a simplified POSIX reading of `path.parse(p).name` and `path.extname(p)`. Trailing slashes are
  dropped, and the base name is the last segment. The extension runs from the last `.` of the base name to its end. It is
  empty when that `.` is the first character of the base name, or when the base name is `..`.
- `Favourites` (favourites.dfy): the `{name, path, type}` record, `getTruncatedFilename`, `getFavouriteObj`, the
  split of an added batch into rejected and new paths, the duplicate-notice text, removal and relocation, and the two
  loops of `addToFavourites` and `updateUserFavourites`.
- `Menu` (menu.dfy): the template `buildMenu` assembles, without icons. Each click handler is represented by the command it runs and the path and
  index its closure captured. `loadPreferences` is a loop over the preference entries.
- `App` (app.dfy): class `TrayApp`. It holds the store and its cache as fields, plus the guard, the pending dialog, the
  operating system's login-item state with a log of writes to it, and the current menu. Its object invariant
  `Valid()` says two things: the guard is set exactly while a dialog is pending, and the menu is the template for
  the stored favourites and preference.

Points where the code's behaviour is easy to misread:

- A truncated name keeps the first 12 and the last **13** characters. `maxChars / 2` is 12.5, and `substring`
  truncates its arguments toward zero (`Favourites.HalfCut`).
- The `.app` extension is not dropped from a display name. The extension, lower-cased, is always appended.
- Rejected paths are joined with `","` and no space, so three paths read `A,B and C`.
- The code does not keep paths unique. A new path given twice in one batch is appended twice
  (`Favourites.BatchRepeatAppendedTwice`). Relocating onto a path already in the list also duplicates it. A path already in the
  list is rejected however often the batch repeats it, so uniqueness can be lost only through a new path repeated in
  the batch, or through relocation (`Favourites.PresentRepeatRejectedTwice`, `Favourites.AddedKeepsPathsDistinct`).

Asynchronous dialogs are split in two steps. `ChooseFavourite` and `FindFile` open a dialog: they set the guard and
record what the answer will do. `ResolveDialog` is the dialog's promise settling with `Canceled`, `Picked(paths)` or
`PickerFailed`. The duplicate notice, the "File Not Found" question, the filesystem (`isDir`, existence) and the
operating system's login-item state are inputs or fields.

## Model

| member | source | states |
|---|---|---|
| `Text.IsWhitespace` | src/main.js:237-238 | the characters `trim` removes: ECMAScript's WhiteSpace and LineTerminator code points |
| `Text.TrimStart` | src/main.js:237-238 | the result is the suffix of the input left after its leading whitespace; that whitespace is ECMAScript's WhiteSpace and LineTerminator set |
| `Text.TrimEnd` | src/main.js:237-238 | the result is the prefix of the input left after its trailing whitespace |
| `Text.Trim` | src/main.js:237-238 | `trim()` returns a contiguous slice: everything before and after it is whitespace, and its first and last characters are not |
| `Text.TrimUnchanged` | src/main.js:237-238 | a string that neither starts nor ends with whitespace is its own trim |
| `Text.LowerChar` | src/main.js:205 | `toLowerCase` on one character maps A to Z onto a to z; in the model every other character is left as it is, which differs from JavaScript for non-ASCII capitals |
| `Text.Lower` | src/main.js:205 | lower-casing keeps the length and lowers character by character |
| `Text.Join` | src/main.js:163-164 | `join` of a single part is that part (`toString` of a one-element array) |
| `Text.Split` | src/main.js:161-164 | the inverse `Join` is checked against: a split always has at least one piece |
| `Text.LowerIdempotent` | src/main.js:205 | lower-casing is idempotent and leaves no ASCII capital |
| `Text.SplitJoin` | src/main.js:161-164 | the comma-joined list of rejected paths splits back into exactly those paths when no path contains a comma |
| `Text.JoinSplit` | src/main.js:161-164 | splitting any string on a character and joining it back is the identity |
| `Text.JoinContainsParts` | src/main.js:163 | every part of a joined list occurs in the joined string |
| `Paths.LastIndexOf` | src/main.js:204-205 | the index of the last occurrence of a character, or -1 when there is none |
| `Paths.StripTrailingSlashes` | src/main.js:204-205 | the path without trailing `/`, and only slashes were removed |
| `Paths.BaseName` | src/main.js:204 | the base name is a suffix of the path without trailing slashes, and it contains no `/` |
| `Paths.BaseNameWhole` | src/main.js:204 | the base name is the whole last segment: it is the whole path without trailing slashes, or it follows a `/` |
| `Paths.ExtName` | src/main.js:205 | the extension is empty, or a `.` followed by characters that are neither `.` nor `/`; it is a suffix of the base name shorter than the base name |
| `Paths.ExtNameFound` | src/main.js:205 | when the base name has a `.` after its first character and is not `..`, the extension is non-empty and runs from the last `.` of the base name |
| `Paths.FileStem` | src/main.js:204 | `path.parse(p).name` followed by the extension is the base name |
| `Favourites.TruncateToInt` | src/main.js:237-238 | ToIntegerOrInfinity of a finite number: the integer nearest to it in the direction of zero |
| `Favourites.Clamp` | src/main.js:237-238 | an argument of `substring` clamped to the string: a negative one becomes 0, one beyond the length becomes the length, and one in range is kept |
| `Favourites.Substring` | src/main.js:237-238 | `substring(start, end)` with in-range truncated bounds is the slice between them |
| `Favourites.HalfCut` | src/main.js:234-238 | with `maxChars = 25`, `substring` reads `maxChars / 2` as 12 and `len - maxChars / 2` as `len - 13` |
| `Favourites.TruncatedFilename` | src/main.js:233-243 | a name of at most 25 characters gives `name + ext`; a longer one gives `trim(name[..12]) + "..." + trim(name[len-13..]) + ext` |
| `Favourites.TruncatedBounds` | src/main.js:236-240 | a shortened name contains "...", ends with the extension, and is between 3 and 28 characters long before it |
| `Favourites.JoinedPieces` | src/main.js:239 | a head of at most 12 and a tail of at most 13 characters, joined by "..." with the extension, give at most 28 characters plus the extension |
| `Favourites.TruncatedPlain` | src/main.js:236-240 | when the kept pieces have no surrounding whitespace, the shortened name is exactly head, "...", tail and extension: 28 characters plus the extension |
| `Favourites.FavouriteFor` | src/main.js:203-222 | `getFavouriteObj(p)` keeps `p` as its path and names it with the truncated stem and lower-cased extension; the type is `app` iff the extension is `.app`, else `dir` iff `isDir(p)`, else `file` |
| `Favourites.ShortNameShown` | src/main.js:203-243 | a favourite whose stem has at most 25 characters shows its stem followed by its lower-cased extension, which is as long as its base name |
| `Favourites.PathsOf` | src/main.js:145 | the paths of the list, index by index, which is what duplicates are matched against |
| `Favourites.Rejected` | src/main.js:144-152 | a path is rejected iff it is in the batch and already in the list |
| `Favourites.NewPaths` | src/main.js:144-152 | a path is new iff it is in the batch and not already in the list |
| `Favourites.PartitionComplete` | src/main.js:144-152 | every input path is either rejected or new, and counts are kept: the two parts together are the batch as a multiset |
| `Favourites.AllPresentRejected` | src/main.js:144-152 | when every input path is already present, the whole batch is rejected and nothing is new |
| `Favourites.NewPathsDistinct` | src/main.js:144-152 | the new paths of a batch without repeats have no repeats |
| `Favourites.RecordsSnoc` | src/main.js:195-198 | one more path pushed gives one more record at the end |
| `Favourites.Records` | src/main.js:195-198 | one record per path, in the same order, and with that path |
| `Favourites.RecordFor` | src/main.js:195-198 | `getFavouriteObj` as the function `updateUserFavourites` applies to each path |
| `Favourites.MapSeq` | src/main.js:195-198 | mapping a function over a sequence keeps the length and puts the image of each element at its index |
| `Favourites.Added` | src/main.js:192-200 | the list after a batch is committed: the old list followed by the records of the new paths |
| `Favourites.AddedExtends` | src/main.js:192-200 | after adding, the old list is an unchanged prefix, and a record for each new path follows in input order |
| `Favourites.AddAbsent` | src/main.js:144-200 | one path not yet present grows the list by exactly its record, and nothing is rejected |
| `Favourites.AddPresent` | src/main.js:144-169 | one path already present leaves the list unchanged, and it is rejected |
| `Favourites.BatchRepeatAppendedTwice` | src/main.js:144-152 | a new path given twice in one batch is appended twice |
| `Favourites.PresentRepeatRejectedTwice` | src/main.js:144-152 | a path already present, given twice in one batch, is rejected twice and leaves the list as it is |
| `Favourites.AddedKeepsPathsDistinct` | src/main.js:144-200 | paths stay distinct when the list has no repeats and the new paths of the batch have none |
| `Favourites.DistinctBatchKeepsPathsDistinct` | src/main.js:144-200 | in particular, paths stay distinct when the list and the batch each have no repeats |
| `Favourites.ReAddIsNoOp` | src/main.js:144-200 | adding the same batch a second time changes nothing, and rejects every path of it |
| `Favourites.RejectedMessage` | src/main.js:161-169 | one rejected path gives `The file/folder "A" is already added`; several give `The files/folders "…" are already added`, with all but the last joined by `,`, then ` and `, then the last |
| `Favourites.RejectedMessageNamesAll` | src/main.js:161-169 | the notice names every rejected path |
| `Favourites.RejectedMessageThree` | src/main.js:161-169 | three rejected paths read `A,B and C` |
| `Favourites.SpliceOne` | src/main.js:369 | `splice(start, 1)` on a copy with a non-negative start, described by `Favourites.Removed` |
| `Favourites.Removed` | src/main.js:366-372 | a valid index loses exactly its element, and the others keep their order (a multiset minus that element); any other index leaves the list unchanged |
| `Favourites.Relocated` | src/main.js:349-355 | `copy[i] = record` puts the new record at index `i` and leaves every other index untouched; an index inside the list keeps the length, the index just past the end appends |
| `Favourites.Partition` | src/main.js:140-152 | the loop returns exactly the rejected paths and the new paths of the batch |
| `Favourites.AppendRecords` | src/main.js:192-200 | the loop returns a copy of the list followed by the records of the paths, in order |
| `Menu.FavouriteMenuItem` | src/main.js:250-277 | a favourite's item is a submenu labelled with the favourite's name |
| `Menu.FavouriteItems` | src/main.js:76-79 | one item per favourite in list order: item `k` is built from favourite `k` and index `k` |
| `Menu.AddBlock` | src/main.js:44-51 | the Add entry (Command+N, runs `chooseFavourite`) and a separator |
| `Menu.ClearBlock` | src/main.js:83-88 | a separator and the Clear All entry (Command+Backspace, runs `clearFavourites`) |
| `Menu.ClosingBlock` | src/main.js:53-73 | Preferences with the login checkbox, a separator and Quit; its meaning is stated by `Menu.ClosingBlockSetChecked` and `Menu.BlockCommands` |
| `Menu.FavouritesBlock` | src/main.js:76-92 | the favourites' items and the Clear All block, present only when there are favourites |
| `Menu.MenuTemplate` | src/main.js:41-98 | the three blocks concatenated as `buildMenu` does, with the login checkbox showing a given state; its layout is stated by `Menu.EmptyMenu` and `Menu.NonEmptyMenu` |
| `Menu.EmptyMenu` | src/main.js:41-98 | with no favourites the menu is Add, a separator, Preferences, a separator and Quit |
| `Menu.NonEmptyMenu` | src/main.js:75-95 | with favourites the menu is Add and a separator, then the favourites' items in list order, each labelled with its name, then a separator and Clear All, then Preferences, a separator and Quit |
| `Menu.CommandsSingle` | src/main.js:41-98 | a one-item list runs that item's commands |
| `Menu.CommandsAppend` | src/main.js:95 | the commands of concatenated templates are the concatenated commands |
| `Menu.FavouriteCommands` | src/main.js:253-272 | a folder's submenu runs Open and Remove; any other favourite's runs Open, Reveal and Remove; each carries the favourite's path and index |
| `Menu.FavouriteItemsTargets` | src/main.js:76-79 | the commands of the favourites' items designate existing favourites |
| `Menu.CommandsOfElement` | src/main.js:95 | an item's commands are among the commands of any list that contains it |
| `Menu.BlockCommands` | src/main.js:44-73 | the fixed blocks run Add, Clear All and Quit |
| `Menu.TemplateCommands` | src/main.js:41-95 | the menu runs Add, then the favourites' commands and Clear All when there are favourites, then Quit |
| `Menu.MenuCommandsTarget` | src/main.js:250-272 | every index a menu command captured is an index of the list it was built from, and that entry has the captured path; Reveal is never offered for a folder; every favourite can be opened and removed |
| `Menu.OpenedPathsSingle` | src/main.js:253-256 | a one-item list opens what that item opens |
| `Menu.OpenedPathsAppend` | src/main.js:95 | the paths opened by concatenated templates are the concatenated paths |
| `Menu.OpenedPathsOfItems` | src/main.js:76-79 | the favourites' items open the favourites' paths in order |
| `Menu.BlockOpenedPaths` | src/main.js:44-73 | the fixed blocks open no favourite |
| `Menu.MenuOpensFavourites` | src/main.js:76-82 | reading back the Open command of each top-level submenu recovers the favourites' paths, in list order |
| `Menu.SetCheckedItem` | src/main.js:109 | `checked = b` on a checkbox with the id, inside submenus too; any other item is kept |
| `Menu.SetChecked` | src/main.js:109 | the same over a template, item by item; stated by the lemmas below |
| `Menu.SetCheckedSingle` | src/main.js:109 | setting a checkbox in a one-item list sets it in that item |
| `Menu.SetCheckedAppend` | src/main.js:109 | setting a checkbox distributes over concatenated templates |
| `Menu.SetCheckedUnaffected` | src/main.js:109 | items without that checkbox are left as they are |
| `Menu.BlockSetChecked` | src/main.js:44-51 | the Add block and the Clear All block hold no checkbox, so setting the login checkbox leaves them as they are |
| `Menu.ClosingBlockSetChecked` | src/main.js:53-66 | in the Preferences/Quit block, setting the login checkbox gives the block built with that state |
| `Menu.SetLoginChecked` | src/main.js:109 | setting the login checkbox of a built menu gives the menu built with that state, and nothing else changes |
| `Menu.UserPrefs` | src/main.js:15-18 | the in-memory preferences in the order of the defaults object (lines 31-35): the favourites, then `pref_open_at_login` |
| `Menu.IsPrefKey` | src/main.js:104-107 | a key matches `^pref_` |
| `Menu.ApplyPreference` | src/main.js:106-110 | one entry: a boolean value under a `pref_` key sets the checkbox with that id; any other entry leaves the menu |
| `Menu.ApplyPreferences` | src/main.js:103-113 | the entries applied in order; `Menu.LoadPreferences` is proved equal to it |
| `Menu.LoadPreferences` | src/main.js:103-113 | the loop applies each boolean `pref_` entry, in order, to the checkbox with that id |
| `Menu.PreferencesRestored` | src/main.js:97-113 | after `loadPreferences`, a rebuilt menu's login checkbox shows the stored preference, and the rest is the template |
| `App.Notice` | src/main.js:154-169 | a notice is shown iff some input path is already a favourite |
| `App.AddOutcome` | src/main.js:140-190 | the list after `addToFavourites`: the batch committed, unless there were duplicates and the notice failed |
| `App.AfterDialog` | src/main.js:124-136 | the list once a pending dialog settles; stated by `App.AfterDialogUnpicked`, `App.AfterDialogAdds` and `App.AfterDialogRelocates` |
| `App.AfterDialogUnpicked` | src/main.js:343-362 | a cancelled or failed dialog leaves the list as it was |
| `App.AfterDialogAdds` | src/main.js:124-136 | settling the Add dialog keeps the old list as a prefix |
| `App.AfterDialogRelocates` | src/main.js:348-353 | a relocation changes only its index and puts the record of the first picked path there; it keeps the length, except that the index just past the end appends the record |
| `App.TrayApp.constructor` | src/main.js:22-29 | startup loads the stored state, builds the menu with the guard clear, and writes the login item once if it differs from the stored preference, never otherwise |
| `App.TrayApp.BuildMenu` | src/main.js:41-101 | the rebuilt menu is the template for the current favourites with the login checkbox at the stored preference |
| `App.TrayApp.SetLoginSettings` | src/main.js:402-405 | the login item takes the given state, and the write is logged |
| `App.TrayApp.SetupAppSettings` | src/main.js:394-400 | afterwards the login item equals the stored preference; exactly one write happens if they differed, and none if they agreed |
| `App.TrayApp.ToggleOpenAtLogin` | src/main.js:57-64 | the checkbox click flips the stored preference, and the change listener writes it to the login item once |
| `App.TrayApp.StoreFavourites` | src/main.js:379-391 | a store write replaces the favourites and rebuilds the menu from the committed list |
| `App.TrayApp.AddToFavourites` | src/main.js:140-190 | the list becomes the old list followed by a record per new path, in input order, unless the duplicate notice fails; the notice is returned; the guard is not touched |
| `App.TrayApp.ChooseFavourite` | src/main.js:115-123 | with the guard clear, opens the Add dialog and sets the guard; with the guard set, changes nothing |
| `App.TrayApp.FindFile` | src/main.js:334-342 | with the guard clear, opens the relocation dialog for index `i` and sets the guard; with the guard set, changes nothing |
| `App.TrayApp.Relocate` | src/main.js:349-355 | the stored list becomes the old one with entry `i` set to the record of the picked path (appended when `i` is the length); the menu follows |
| `App.TrayApp.ResolveDialog` | src/main.js:343-362 | every way a dialog settles (cancel, pick, error, and likewise `chooseFavourite`'s at lines 124-136) clears the guard; a pick adds the batch or relocates the entry |
| `App.TrayApp.RemoveFavourite` | src/main.js:366-372 | the list becomes the list with exactly element `i` removed, or stays unchanged for an invalid index |
| `App.TrayApp.ClearFavourites` | src/main.js:245-248 | the list becomes empty |
| `App.TrayApp.HandleFile` | src/main.js:303-332 | an existing file is opened or revealed; for a missing one, button 0 opens the relocation dialog and button 1 removes the entry; any other answer or an error changes nothing |

## Left out

- Electron menu and tray rendering (`Tray`, `Menu.buildFromTemplate`, `setContextMenu`), `app.dock.hide`, and the tray
  image: GUI plumbing. The menu is kept as a template value.
- Icon extraction (src/main.js:279-298). It is asynchronous, and its failures are swallowed, so menu items are
  modelled without icons.
- Native dialogs. Their outcomes are inputs: picker result, notice result, button index or failure.
- Filesystem calls. `isDir` is a total predicate supplied by the caller, so it never fails, matching the source's
  catch-all. File existence is a boolean input. The `shell.openPath` and `shell.showItemInFolder` calls are returned as values.
- electron-store persistence and its change notifications. The store and its cache are one field. A write is followed
  directly by the rebuild its listener triggers. electron-store notifies only on an actual change, but the menu is a
  function of the stored state, so rebuilding on an unchanged write gives the same menu.
- Asynchronous ordering. The duplicate notice and the "File Not Found" question are answered within the call that shows
  them. A notice that fails commits nothing, as in the source. Interleavings of other events while one of them is
  pending are not modelled.
- App.TrayApp.ResolveDialog: a relocation whose captured index has become stale beyond the end of the list (greater
  than its length) leaves the list unchanged. JavaScript would write past the end and leave holes, which the record
  list cannot represent. An index equal to the length appends, as in JavaScript.
- App.AfterDialog: the same stale index beyond the end leaves the list unchanged, for the same reason.
- Text.LowerChar: `toLowerCase` is modelled on ASCII letters only; JavaScript also lowers non-ASCII capitals.
- Text.Lower: built on `Text.LowerChar`, so it shares that ASCII-only case mapping.
- Favourites.FavouriteFor: the extension is lower-cased by `Text.Lower` (ASCII only), and `path.parse`/`path.extname`
  are read by the simplified POSIX split described above. Windows paths are not modelled.
- Favourites.TruncatedFilename: JavaScript lengths and `substring` count UTF-16 code units. The model counts characters
  (Unicode scalar values), so names with characters outside the Basic Multilingual Plane are measured differently.
- Menu.SetChecked: `getMenuItemById` sets the first item with the id. The model sets every checkbox with that id.
  The template has exactly one, so the two agree there.
- `console.log` and `console.error` on error paths; accelerators are kept only as strings. `src/strings.js` is used
  only for its label values.
