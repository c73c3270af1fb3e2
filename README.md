# web-vm controllers in Dafny

A model of the logic in a browser front end for an x86 emulator. The emulator itself is a third-party library. The model covers two controllers:

- **`FileManager`** (vm/js/filemanager.js). It is a mock file browser over a fixed list of twelve entries. It holds a selection of list positions, a clipboard that takes a snapshot of the selection together with a copy or cut action, and the current path, view mode and sort criterion. It sorts the list in place each time it draws it, and it counts search hits. In the module `Files`, this is a class whose methods update `selectedItems`, `clipboard`, `clipboardAction` and `files`. The sort order and the search count are functions, with lemmas about them.
- **`ManualISOVM`** (vm/js/emulator.js). It is the ISO-upload controller. It decides which uploaded files to accept, keeps the last accepted file's name and size in the browser's local storage, guards start, stop and reset, builds the emulator configuration (and picks its CD-ROM source), and sends Ctrl+Alt+Del. In the module `Emulator`, this is a class over the fields `emulator`, `isRunning`, `isoFile`, `storage` (local storage as a `map<string, string>`), `isoInfo` (the label showing the stored name) and `calls` (the commands sent to the emulator so far, in order).
- **`JsString`** gives the JavaScript string built-ins these controllers use: `toLowerCase`, `includes`, `endsWith`, `localeCompare` and `Number#toString`. `Wrappers` gives `Option`, which stands for JavaScript's `null`.

Things outside the program become parameters:
- the answers to `confirm` and `prompt`;
- the text in the search box;
- the file chosen in the upload dialog;
- whether the emulator script loaded;
- the storage left by earlier visits.

The emulator library's own behaviour is not modelled. Its creation is recorded as the configuration it was given. Its `stop`, `restart` and `keyboard_send_scancodes` calls are recorded in `calls`. Its "emulator-started" event is the method `OnStarted`.

Where the code does something other than its messages or a quick reading suggest, the model follows the code:
- The notices of `pasteHere` and `deleteSelected` say the operation would only take effect in a real environment (vm/js/filemanager.js:240, 251). Yet `copySelected`, `cutSelected`, `pasteHere` and `deleteSelected` still update the selection and the clipboard (lines 221-256), and the model includes those updates.
- The size message says "500MB" (vm/js/emulator.js:51), but the test on line 50 compares against 500 × 1024 × 1024 = 524288000 bytes, and the model uses that number.
- `start` and `updateSystemInfo` test the stored name for JavaScript truthiness. So an empty stored name counts as no name at all, just like a missing one (`Emulator.Truthy`).

Some properties follow from the field frames. No method except `OnStarted` may write `isRunning` to true: the others either lack `isRunning` in their `modifies` clause or only clear it. `SearchFiles` and `RenameItem` have no `modifies` clause, so they change neither the listing nor the selection.

## Model

| member | source | states |
|---|---|---|
| `Files.Fixture` | vm/js/filemanager.js:48-61 | the listing every load installs: the twelve entries of the source, in the source's order |
| `Files.FileManager.constructor` | vm/js/filemanager.js:2-17 | initial state: path `/home/user`, view `grid`, sort criterion `name`, empty selection and clipboard, no action, and the fixture loaded by `init`; the object invariant holds |
| `Files.FileManager.LoadFiles` | vm/js/filemanager.js:44-61 | `files` becomes the fixture; nothing else changes, in particular not the selection |
| `Files.FileManager.NavigateTo` | vm/js/filemanager.js:172-176 | the path becomes the argument and the fixture is reloaded |
| `Files.FileManager.SortFiles` | vm/js/filemanager.js:110-121 | sorts `files` in place and returns it: the new `files` is the stable sort of the old one under the criterion, a permutation of it, and sorted |
| `Files.Insert` | vm/js/filemanager.js:111-120 | one step of the stable sort: the result holds the old entries plus the inserted one (multiset equality) |
| `Files.Sort` | vm/js/filemanager.js:110-121 | the result of `files.sort(comparator)` is a permutation of its input with the same length |
| `Files.Compare` | vm/js/filemanager.js:111-120 | the comparator: by `name` it ties exactly the entries with equal names; by `size` a negative value puts the larger entry first and it ties exactly equal sizes; by `date` it ties exactly equal dates; every other criterion ties every pair (`return 0`) |
| `Files.CompareAntisymmetric` | vm/js/filemanager.js:111-120 | the comparator is consistent: swapping its arguments negates it, for every criterion |
| `Files.PrecedesTransitive` | vm/js/filemanager.js:111-120 | the comparator's "may come first" relation is transitive, for every criterion |
| `Files.InsertSorted` | vm/js/filemanager.js:111-120 | inserting into a sorted listing keeps it sorted |
| `Files.SortIsSorted` | vm/js/filemanager.js:110-121 | the sorted listing is ordered by the comparator for every pair of positions |
| `Files.SortOfSortedIsIdentity` | vm/js/filemanager.js:110-121 | sorting a listing that is already in order changes nothing (stability) |
| `Files.TiesOfInsert` | vm/js/filemanager.js:111-120 | one insertion step puts the new entry ahead of the entries it ties with and keeps the order of those ties |
| `Files.SortIsStable` | vm/js/filemanager.js:110-121 | the sort is stable: for every entry, the entries it ties with (the six size-0 folders by `size`, the entries sharing a day by `date`) appear in the sorted listing in the order they had before |
| `Files.SortIdempotent` | vm/js/filemanager.js:75 | sorting again when the listing is redrawn moves no entry, so the selected positions keep naming the same files |
| `Files.SortByNameAscending` | vm/js/filemanager.js:112-113 | by `name`, names never decrease along the result |
| `Files.SortBySizeNonIncreasing` | vm/js/filemanager.js:114-115 | by `size`, sizes never increase along the result |
| `Files.SortByDateNonIncreasing` | vm/js/filemanager.js:116-117 | by `date`, modification dates never increase along the result |
| `Files.SortByUnknownCriterionKeepsOrder` | vm/js/filemanager.js:119 | for any other criterion the comparator returns 0 and the listing keeps its order |
| `Files.DateTextComparesLikeDigits` | vm/js/filemanager.js:117 | comparing two YYYY-MM-DD dates as text gives the same result as comparing their eight digits |
| `Files.DateTextOrderIsCalendarOrder` | vm/js/filemanager.js:117 | for YYYY-MM-DD dates, the text order is numeric YYYYMMDD order, both for "earlier" and for "same day", which is what subtracting the parsed dates decides |
| `Files.SortByDateIsNewestFirst` | vm/js/filemanager.js:116-117 | sorting a listing of YYYY-MM-DD dates by `date` puts the latest calendar day first |
| `Files.FixtureDatesAreIsoDates` | vm/js/filemanager.js:48-61 | every fixture date has the YYYY-MM-DD form, so the previous lemma applies to the fixture |
| `Files.IndexOf` | vm/js/filemanager.js:132 | `indexOf`: -1 exactly when the index is not selected, otherwise a position holding it with no earlier occurrence |
| `Files.RemoveAt` | vm/js/filemanager.js:134 | `splice(k, 1)`: the element at `k` is removed and the rest keep their order |
| `Files.Toggled` | vm/js/filemanager.js:131-137 | the selection `toggleSelect` leaves: as a multiset, one occurrence of the index is removed when it was selected and one is added when it was not |
| `Files.FileManager.ToggleSelect` | vm/js/filemanager.js:131-140 | removes the index when it is selected and otherwise appends it; afterwards it is selected exactly when it was not before, no other index changes, and the selection still has no duplicates |
| `Files.ToggledFlipsOnlyX` | vm/js/filemanager.js:131-137 | on a selection without duplicates, toggling keeps it duplicate-free, flips the toggled index and leaves every other index as it was |
| `Files.ToggleUnselectedTwice` | vm/js/filemanager.js:132-137 | toggling an unselected index twice restores exactly the original selection sequence |
| `Files.ToggleSelectedTwice` | vm/js/filemanager.js:132-137 | toggling a selected index twice moves it to the end of the selection: the same set, not always the same sequence |
| `Files.FileManager.SelectSingle` | vm/js/filemanager.js:142-146 | the selection becomes exactly `[index]`, whatever it held before |
| `Files.FileManager.CopySelected` | vm/js/filemanager.js:221-227 | with a selection, the clipboard becomes a copy of it and the action becomes `Copy`; with none, nothing changes |
| `Files.FileManager.CutSelected` | vm/js/filemanager.js:229-235 | with a selection, the clipboard becomes a copy of it and the action becomes `Cut`; with none, nothing changes |
| `Files.FileManager.PasteHere` | vm/js/filemanager.js:237-246 | after a cut, the clipboard is emptied and the action reset; after a copy, or with an empty clipboard, nothing changes |
| `Files.FileManager.DeleteSelected` | vm/js/filemanager.js:248-257 | with a selection and a confirmed dialog, the selection is emptied and `files` stays as it was; otherwise nothing changes |
| `Files.FileManager.RenameItem` | vm/js/filemanager.js:259-267 | the rename notice appears exactly when one entry is selected, it exists, and the prompt returned a non-empty name different from the current one; reading a missing entry is a separate outcome; nothing changes |
| `Files.MatchCountIsNumberOfMatches` | vm/js/filemanager.js:204-206 | the filter's count is the number of positions whose lower-cased name contains the term, and at most the listing's length |
| `Files.FileManager.SearchFiles` | vm/js/filemanager.js:201-209 | an empty term reports nothing; otherwise the report is the number of entries whose lower-cased name contains the lower-cased term; files and selection are unchanged |
| `Files.ClipboardIsSnapshot` | vm/js/filemanager.js:221-226 | after a copy, later reselecting, toggling and deleting leave the clipboard equal to the selection at copy time |
| `Files.RepeatedPasteAfterCopy` | vm/js/filemanager.js:237-246 | after a copy the clipboard and the `Copy` action survive repeated pastes |
| `Files.MatchCount` | vm/js/filemanager.js:204-207 | `results.length`: at most the number of entries, and 0 exactly when no lower-cased name contains the term |
| `JsString.ToLower` | vm/js/filemanager.js:205 | `toLowerCase` keeps the length, maps each character with the ASCII rule, and leaves no upper-case letter |
| `JsString.ToLowerIdempotent` | vm/js/filemanager.js:202-205 | lower-casing twice is lower-casing once, so lower-casing the term again adds nothing |
| `JsString.IncludesIffOccurs` | vm/js/filemanager.js:205 | `includes` holds exactly when the term occurs at some position |
| `JsString.LexCompare` | vm/js/filemanager.js:113 | the name comparison returns -1, 0 or 1, and 0 exactly for equal strings |
| `JsString.LexCompareAntisymmetric` | vm/js/filemanager.js:113 | swapping the strings negates the comparison |
| `JsString.LexCompareTransitive` | vm/js/filemanager.js:113 | "not after" is transitive |
| `JsString.LexCompareAppend` | vm/js/filemanager.js:117 | for heads of the same length, the heads decide the comparison unless they are equal |
| `JsString.LexCompareDigits` | vm/js/filemanager.js:117 | for digit strings of the same length, text order is numeric order |
| `JsString.NatToString` | vm/js/emulator.js:77 | `size.toString()` gives a non-empty string of digits with no leading zero |
| `JsString.ParseNatToString` | vm/js/emulator.js:77 | the stored size string parses back to the size |
| `Emulator.CheckIso` | vm/js/emulator.js:44-57 | a file is accepted exactly when its lower-cased name ends with `.iso` and its size is at most 500 × 1024 × 1024 bytes; a bad extension is reported before the size |
| `Emulator.HasIsoExtension` | vm/js/emulator.js:45 | `file.name.toLowerCase().endsWith('.iso')`: the name has at least four characters and its last four, lower-cased, are `.iso` |
| `Emulator.IsoExtensionByCharacters` | vm/js/emulator.js:45 | the extension test, character by character: the name ends with a dot followed by i, s and o, each in either case |
| `Emulator.SizeLimitIsInclusive` | vm/js/emulator.js:50 | exactly 524288000 bytes is accepted, and 524288001 is too large |
| `Emulator.Truthy` | vm/js/emulator.js:31-34 | `localStorage.getItem(key)` used as a condition: the key is stored and its value is not the empty string (`null` and `""` are both falsy) |
| `Emulator.StoredIsoName` | vm/js/emulator.js:278-279 | the stored name as `start` (lines 94-95) and `updateSystemInfo` read it: present exactly when `vm_iso_name` is stored and not empty, and then it is that value |
| `Emulator.StoredIsoRecord` | vm/js/emulator.js:31-34 | the stored name as `checkStoredISO` reads it: present exactly when the name is present and `vm_iso_size` is stored and not empty, and then it is the same name |
| `Emulator.Persist` | vm/js/emulator.js:76-77 | the two `setItem` calls: the keys become the old keys plus `vm_iso_name` and `vm_iso_size`, which hold the name and the decimal size, and every other key keeps its value |
| `Emulator.ManualIsoVm.HandleModalFileSelect` | vm/js/emulator.js:44-57 | the verdict is `CheckIso`; an accepted file replaces `isoFile`, and a refused one leaves it as it was |
| `Emulator.PersistReadsBack` | vm/js/emulator.js:76-77 | an accepted file's saved record reads back whole: both page-load guards see its name, the size string parses back to its size, and no other key changes |
| `Emulator.ManualIsoVm.ConfirmIsoUpload` | vm/js/emulator.js:73-85 | with a chosen file, storage gets `vm_iso_name` and `vm_iso_size` and the label shows the name, so `start` will find the name; without one, storage and label are unchanged |
| `Emulator.StorageGuardsDisagree` | vm/js/emulator.js:30-38 | `checkStoredISO` and `updateSystemInfo` disagree exactly when a name is stored without a size |
| `Emulator.PageLoadLabelIgnoresSize` | vm/js/emulator.js:9-13 | running `checkStoredISO` before `updateSystemInfo` shows the same label as `updateSystemInfo` alone |
| `Emulator.AfterCheckStoredIso` | vm/js/emulator.js:30-38 | the "iso-info" label after `checkStoredISO`: the stored name when name and size are both present, otherwise the label as it was |
| `Emulator.AfterUpdateSystemInfo` | vm/js/emulator.js:277-283 | the "iso-info" label after `updateSystemInfo`: the stored name whenever it is present, otherwise the label as it was |
| `Emulator.ManualIsoVm.CheckStoredIso` | vm/js/emulator.js:30-38 | the label shows the stored name only when both name and size are stored |
| `Emulator.ManualIsoVm.UpdateSystemInfo` | vm/js/emulator.js:277-283 | the label shows the stored name whenever a name is stored |
| `Emulator.ManualIsoVm.constructor` | vm/js/emulator.js:2-13 | page load: no emulator, not running, no chosen file, nothing sent; the label shows the stored name exactly when one is stored |
| `Emulator.ConfigFor` | vm/js/emulator.js:114-138 | the CD-ROM is the chosen local file when there is one, and otherwise the default Linux image URL, never both; the other settings are the source's constants |
| `Emulator.ManualIsoVm.Start` | vm/js/emulator.js:87-149 | creates no emulator when a machine is running, when no name is stored, or when the library fails to load; otherwise it creates one from `ConfigFor(isoFile)`; it never sets `isRunning` |
| `Emulator.ManualIsoVm.OnStarted` | vm/js/emulator.js:179-182 | the "emulator-started" event sets `isRunning`; it is the only member that can |
| `Emulator.ManualIsoVm.Stop` | vm/js/emulator.js:198-205 | with a running emulator, sends `stop` and clears `isRunning`; otherwise nothing changes |
| `Emulator.ManualIsoVm.Reset` | vm/js/emulator.js:207-213 | with an emulator, running or not, sends `restart`; `isRunning` never changes |
| `Emulator.ManualIsoVm.SendCtrlAltDel` | vm/js/emulator.js:248-255 | sends `[0x1D, 0x38, 0x53, 0xD3, 0xB8, 0x9D]` exactly when an emulator exists and is running; otherwise sends nothing |
| `Emulator.CtrlAltDelIsChord` | vm/js/emulator.js:250 | the sequence is the make codes of Ctrl, Alt and Delete followed by their break codes (make with 0x80 set) in reverse order |
| `Emulator.HeldAfterAppend` | vm/js/emulator.js:250 | the keys held after a concatenated scancode stream are those held after its first part, then its second |
| `Emulator.PressingHoldsAll` | vm/js/emulator.js:250 | pressing distinct keys holds all of them |
| `Emulator.ChordReleasesAll` | vm/js/emulator.js:250 | a chord of distinct keys releases every key it pressed |
| `Emulator.CtrlAltDelPressesAndReleases` | vm/js/emulator.js:250 | Ctrl, Alt and Delete are all down once Delete is pressed, and no key is held at the end |
| `Emulator.ReloadBootsDefaultImage` | vm/js/emulator.js:94-138 | after a reload, with a name still stored but no file chosen, starting boots the default Linux image |
| `Emulator.UploadThenStart` | vm/js/emulator.js:44-138 | choosing an acceptable file, confirming it and starting boots that file and saves its record |
| `Emulator.CommandsWaitForStart` | vm/js/emulator.js:179-254 | a newly created emulator receives neither Ctrl+Alt+Del nor stop until the "emulator-started" event; after it, Ctrl+Alt+Del is sent |

## Left out

- Everything that only touches the page: `innerHTML` rendering, `updateSelection`, `updateStatusBar`, the context menu, modals, loading overlays, progress bars, status texts other than the "iso-info" label, and fullscreen.
- The messages of `alert`, `confirm` and `prompt`. Their answers are parameters.
- `formatFileSize` and the download-progress percentage: both rest on floating-point `Math.log`, `toFixed` and division.
- The performance monitor (`startPerformanceMonitor`): it uses `setInterval` and `Math.random`. The `setTimeout` delays in `loadFiles` and in the "emulator-started" handler are timing only.
- `ensureV86Loaded` and the whole emulator library. Whether the script loads is the parameter `libraryLoaded` of `Start`. The library's "download-progress", "emulator-ready" and "download-error" events only update the page.
- Asynchrony in `start`. The model runs the guards, the library load and the creation as one step. So it does not capture a second click during the load, or a replaced emulator's listeners that still fire.
- `Emulator.ManualIsoVm.Start`: when `isRunning` is false but an emulator already exists (it was stopped, or it is still booting), the source creates a new one. The model does the same and keeps only the newest configuration. It does not model the old instance.
- The `viewMode(mode)` and `sortBy(criteria)` methods. The constructor's string fields of the same names shadow them, so the global `sortBy` would call a string and throw. The model therefore has no working criterion setter: `sortBy` stays `"name"`, and `SortFiles` takes the criterion as a parameter.
- `openItem`, `showProperties`, `uploadFiles`, `handleFileUpload`, `createFolder`, `openInTerminal`, `mountISO`, `openISOUpload`, `createVirtualDisk`, `takeScreenshot`, `saveState`, `loadState`, `closeModal` and the global forwarding functions. They only show a dialog or a page element, or call a modelled method.
- `JsString.ToLower`: it lower-cases ASCII letters only. `toLowerCase` also maps non-ASCII letters, so the search and extension rules agree with the source only on ASCII names.
- `JsString.LexCompare`: it stands for `localeCompare` and compares characters by code point. Under code-point order every upper-case letter comes before every lower-case one, so by `name` the six capitalised folders (`Desktop` … `Videos`) all come before `backup.zip`, `data.csv` and the other lower-case files. A browser's collation interleaves them instead (`backup.zip`, `data.csv`, `Desktop`, …). The model therefore orders the fixture differently from the page, and a list position can name a different entry in the model than on the page.
- `Files.Compare`: for dates, it keeps only the sign of `new Date(b) - new Date(a)`, compared as YYYY-MM-DD text. `Files.DateTextOrderIsCalendarOrder` shows that this agrees with calendar order for dates of that form, which all fixture dates have. Other date formats and invalid dates (`NaN`) are not modelled.
- Entry sizes are unbounded natural numbers. The size comparison `b.size - a.size` is exact in the model, which matches the source for the fixture's small sizes.
