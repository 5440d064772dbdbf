# KaomojiHelper view-model, in Dafny

KaomojiHelper is a desktop picker for kaomoji (text emoticons). A global
hotkey summons a small window. The user searches the catalogue by tag, pages
through the results, and clicks one; it is then typed into the focused
application and remembered as recently used. This project models the logic
behind that window, plus two small stores:

- **The picker's view-model** (`KaomojiHelper.py`), as the class
  `KaomojiView.KaomojiHelper`. Its fields are the catalogue (entries of a
  symbol and its `original_tags`, with unique symbols), the search text, the
  result list, the current page, the recently-used list, and what one refresh
  selects: the heading, the rows, the "no kaomoji found" flag and the status
  line. The search loop, the refresh, the page buttons, the keybind dispatch
  and `insert` are methods. Each one is proved against specification
  functions in five modules:
  - `Catalog`: tag search.
  - `Paging`: page count, page slice, status line, page moves.
  - `Recent`: the recently-used list.
  - `PyList` and `Text`: Python's slicing, `strip`, `lower`, `join` and `in`.
- **Settings** (`config.py`), as the class `Settings.Config`. The INI store is
  a map from section names to option maps. `Load` backfills the defaults in
  place and reports whether anything was added. `Set` stores one option.
- **Pressed keys** (`keyboardListener.py`), as the class
  `Keyboard.KeyboardListener`. It keeps the list of keycodes held down.

Some behaviour of the code is easy to misread, and the model keeps it as
written:

- **Blank search text.** When the text is blank after `strip()`, no filter
  applies. The window shows the recently-used list if there is one, and
  otherwise every catalogue key. A non-blank query always filters, even when
  nothing matches.
- **The recently-used view ignores the page.** It always shows the last 10
  entries. The status line and the `<` and `>` buttons still follow
  `current_page`, so the status line can name rows other than the ones shown
  (`RecentStatusFollowsPage`). Outside this view the page stays between 0
  and the larger of 1 and the page count, and it is 0 only when there are
  no results.
- **`last_page` with no results sets the page to 0.** There is no
  `max(1, …)`, so the page is not kept at 1. Page 0 shows no rows
  (`PageZeroIsEmpty`).
- **An empty result list leaves the status line unchanged.** `update_pages`
  returns before setting the label, so it keeps whatever text it had: the
  initial "0-0 results | 0 (total)", or the numbers of an earlier page.
- **The de-duplication window is one page (10 entries), not the whole
  list.** So a kaomoji used long ago can be appended a second time
  (`DuplicateBeyondWindow`).

## Model

| member | source | states |
|---|---|---|
| `Text.BlankIffAllSpace` | KaomojiHelper.py:77 | `not text.strip()` holds exactly when every character is Python whitespace |
| `Catalog.Keys` | KaomojiHelper.py:84 | the key list has one entry per catalogue entry, in catalogue order |
| `Catalog.FilterMembers` | KaomojiHelper.py:64-68 | a kaomoji is in the search results iff some catalogue entry with that symbol has lower-cased space-joined tags containing the lower-cased query |
| `Catalog.FilterAppend` | KaomojiHelper.py:66-68 | the results of a catalogue split in two are the results of each part, concatenated in order |
| `Catalog.FilterKeepsOrder` | KaomojiHelper.py:66-68 | two matching entries appear in the results in their catalogue order |
| `Catalog.FilterEmptyQuery` | KaomojiHelper.py:67 | the empty query keeps every key, in catalogue order |
| `Catalog.FilterNoDup` | KaomojiHelper.py:64-68 | with unique keys no kaomoji is listed twice |
| `Catalog.MatchesIgnoresCase` | KaomojiHelper.py:67 | a query and its lower-cased form match the same entries |
| `Catalog.TagHitMatches` | KaomojiHelper.py:67 | a query found (ignoring case) in any one tag finds the entry |
| `Paging.TotalPages` | KaomojiHelper.py:202 | `(n + rpp - 1) // rpp` is the ceiling of n / rpp, and is 0 exactly when there are no results |
| `Paging.PageSliceFits` | KaomojiHelper.py:74-75 | the slice `results[start:end]` never has more than rpp rows, for any page number |
| `Paging.PageSliceWindow` | KaomojiHelper.py:74-75 | from page 1 on, the slice is the rows with index in [(p-1)·rpp, p·rpp), cut at the end of the list |
| `Paging.PageZeroIsEmpty` | KaomojiHelper.py:74-75 | page 0 (`results[-rpp:0]`) shows no rows |
| `Paging.PageSliceLength` | KaomojiHelper.py:74-75 | a page is non-empty iff it is one of pages 1 to TotalPages; every page before the last is full, and the last holds the remainder |
| `Paging.StatusOf` | KaomojiHelper.py:191-192 | the status line's end is never past the total |
| `Paging.StatusDescribesPage` | KaomojiHelper.py:185-194 | on a page in range, `start` ≤ `end` and the status line names exactly the rows of the page slice |
| `Paging.PageBefore` | KaomojiHelper.py:196-199 | `<` never takes a page ≥ 1 below 1, never moves forward, and moves iff the page is above 1 |
| `Paging.PageAfter` | KaomojiHelper.py:201-205 | `>` never passes the last page, never moves back, and moves iff the page is below the last |
| `Paging.PagesAfterStopAtLast` | KaomojiHelper.py:201-205 | k presses of `>` reach min(p + k, last page), and leave a page at or past the last as it is |
| `Paging.PagesBeforeStopAtFirst` | KaomojiHelper.py:196-199 | k presses of `<` reach max(p - k, 1), and leave a page ≤ 1 as it is |
| `Paging.PageMovesInverse` | KaomojiHelper.py:196-205 | away from the first and last pages, `<` undoes `>` and `>` undoes `<` |
| `Recent.RecordUseBounded` | KaomojiHelper.py:124 | the recent list never exceeds `max_recent_kaomojis` entries |
| `Recent.RecordUseIsRecent` | KaomojiHelper.py:121-124 | after an insert the kaomoji is among the last `results_per_page` entries |
| `Recent.RecordUseKeepsWindowDistinct` | KaomojiHelper.py:121-124 | no duplicate among the last `results_per_page` entries is preserved |
| `Recent.RecordUseAlreadyRecent` | KaomojiHelper.py:121-124 | a kaomoji already in the last page of recents leaves the list unchanged |
| `Recent.RecordUseAppends` | KaomojiHelper.py:121-124 | otherwise it is appended, and the oldest entry drops out when the list was full |
| `Recent.DuplicateBeyondWindow` | KaomojiHelper.py:121-123 | a kaomoji in the list but outside its last page is appended again, leaving a duplicate in the list |
| `Recent.DuplicateBeyondTenEntries` | KaomojiHelper.py:121-123 | with the picker's page of 10, reusing the oldest of 11 entries appends it a second time |
| `KaomojiView.RowsFitOnePage` | KaomojiHelper.py:98-106 | a refresh never selects more than `results_per_page` rows, so every selected row gets a button |
| `KaomojiView.RowsArePage` | KaomojiHelper.py:77-93 | outside the recently-used view the rows are the current page of the chosen result list, and none when it is empty |
| `KaomojiView.RecentRowsIgnorePage` | KaomojiHelper.py:78-81 | the recently-used view shows the last `results_per_page` uses, whatever the page |
| `KaomojiView.StatusMatchesRows` | KaomojiHelper.py:185-194 | outside the recently-used view, on a page in range, the status line names exactly the rows shown |
| `KaomojiView.RecentStatusFollowsPage` | KaomojiHelper.py:78-81 | in the recently-used view the status line follows the page number, not the rows shown |
| `KaomojiView.KaomojiHelper.constructor` | KaomojiHelper.py:27-52 | setting aside the `AttributeError` at line 140 (see "## Left out"), the window starts hidden, with no recents, blank search text, page 1, and all keys as results showing page 1; the status line describes page 1, or stays at the initial 0-0 of 0 for an empty catalogue |
| `KaomojiView.KaomojiHelper.SetSearchText` | KaomojiHelper.py:134 | editing the search entry runs `search` on the new text: page 1, and the results are the filter for non-blank text, otherwise the recents or all keys; the status line describes page 1, or is kept when nothing matches; the invariant is kept |
| `KaomojiView.KaomojiHelper.Search` | KaomojiHelper.py:64-70 | the loop builds exactly the filter of the catalogue, the page becomes 1, and the window is refreshed |
| `KaomojiView.KaomojiHelper.Update` | KaomojiHelper.py:72-96 | the refresh picks the result list, rows, heading, no-match message and status line from the search text, recents and page, and changes nothing else |
| `KaomojiView.KaomojiHelper.UpdatePages` | KaomojiHelper.py:185-194 | the status line follows the page, and is left as it was when there are no results |
| `KaomojiView.KaomojiHelper.Insert` | KaomojiHelper.py:114-125 | a blank kaomoji changes nothing; otherwise it is typed, the window hides, the recents are updated by the one-page de-dup rule, the status line is kept when the result list is empty, and the invariant is kept |
| `KaomojiView.KaomojiHelper.PrevPage` | KaomojiHelper.py:196-199 | the page moves back only from above 1, and only then is the window refreshed; the status line follows the page, or is kept on an empty list |
| `KaomojiView.KaomojiHelper.NextPage` | KaomojiHelper.py:201-205 | the page moves on only while below the last, and only then is the window refreshed; the status line follows the page, or is kept on an empty list |
| `KaomojiView.KaomojiHelper.FirstPage` | KaomojiHelper.py:207-210 | the page becomes 1, with a refresh only when it was not 1; the status line follows the page, or is kept on an empty list |
| `KaomojiView.KaomojiHelper.LastPage` | KaomojiHelper.py:212-217 | the page becomes the page count (0 with no results), with a refresh only when it changed; the status line follows the page, or is kept on an empty list |
| `KaomojiView.KaomojiHelper.ControlGui` | KaomojiHelper.py:219-227 | SHOW and HIDE set visibility and refresh nothing; PREV and NEXT act as the `<` and `>` buttons, changing nothing at the first or last page; the status line is kept on an empty list |
| `Settings.DefaultValues` | config.py:55-78 | four default sections with distinct names, and no option name repeated within a section |
| `Settings.BackfillCompletes` | config.py:20-28 | after the merge every default section and option is present |
| `Settings.BackfillOptionsValues` | config.py:25-28 | within a present section, every option it lacked now holds its default value |
| `Settings.BackfillValueAt` | config.py:20-28 | one default option the file lacked, whether its whole section was missing or only the option, holds its default value after the merge |
| `Settings.BackfillValues` | config.py:20-28 | every default option the file lacked holds its default value after the merge, given distinct section names and distinct option names per section, as the defaults have |
| `Settings.BackfillExtends` | config.py:21-28 | the merge never drops or overwrites a section or option the file has |
| `Settings.BackfillOnlyDefaults` | config.py:20-28 | every added section is a default one, every added option is a default of its section, and sections outside the defaults are untouched |
| `Settings.BackfillKeepsComplete` | config.py:20-28 | a file that already has every default is left as it is |
| `Settings.BackfillChangesIffIncomplete` | config.py:16-29 | the merge changes the store iff a default section or option was missing |
| `Settings.Get` | config.py:36-37 | `get` returns the stored value (without interpolation), or fails with no-section or no-option |
| `Settings.GetAfterSet` | config.py:45-48 | after `set`, `get` returns the new value; other options read as before, except that a new section turns no-section into no-option |
| `Settings.Config.constructor` | config.py:5-13 | setting aside the `AttributeError` from `writeConfig` (see "## Left out"), an existing file is loaded and backfilled; otherwise the store starts empty, without defaults |
| `Settings.Config.Load` | config.py:15-29 | the store becomes the backfilled file, and `write_needed` is true iff that differs from what the file held |
| `Settings.Config.BackfillSection` | config.py:25-28 | each missing option of one present section is added; the flag is true iff the section changed |
| `Settings.Config.Set` | config.py:45-48 | the section is created if missing and the value stored; nothing else changes |
| `Keyboard.IndexOf` | keyboardListener.py:34 | `list.index` gives the first position holding the keycode |
| `Keyboard.PressedNoDup` | keyboardListener.py:24-25 | pressing keeps the list free of duplicates, and the key is then held |
| `Keyboard.ReleasedRemovesOne` | keyboardListener.py:34 | releasing a held key removes exactly one occurrence and keeps the others in order; releasing one not held fails with `ValueError` |
| `Keyboard.ReleasedNoDup` | keyboardListener.py:34 | releasing from a duplicate-free list leaves the key no longer held |
| `Keyboard.PressThenRelease` | keyboardListener.py:24-34 | pressing a key not held and releasing it restores the list |
| `Keyboard.KeyboardListener.constructor` | keyboardListener.py:7-9 | the listener starts with no keys held |
| `Keyboard.KeyboardListener.OnPress` | keyboardListener.py:24-26 | a new keycode is appended and the signal carries the new list; a held one changes nothing and emits nothing |
| `Keyboard.KeyboardListener.OnRelease` | keyboardListener.py:34 | the list becomes the released list, or `ValueError` with the list unchanged |

## Left out

- Qt widgets are not modelled: their construction (`create_widgets`), the button texts and visibility in `update_results`, the title and message label texts, `center`, and the `pyqtSignal` plumbing. The model keeps the selected rows, the heading, the no-match flag and the status line as values.
- pynput is left out, because it is a foreign library running on its own thread: the `keyboard.Listener` threads, and the decoding of keys into keybinds in `on_release`. `controller.type` becomes the `typed` result of `Insert`. `ControlGui` takes the decoded keybind.
- The `type(key) == keyboard._win32.KeyCode` decoding in `keyboardListener.py` is Windows-specific library code. `OnPress` and `OnRelease` take the keycode as an int.
- In pynput, an exception raised in a callback stops the listener. The model only returns `ValueError` from `OnRelease`.
- File I/O is left out. The catalogue is a constructor argument instead of `json.load` of `kaomojis.json`. `Load` takes what `configparser.read` parsed. `write`, `createDefaultConfig` and the write at the end of `set` are not modelled.
- A JSON entry without an `original_tags` key, or whose tags are not strings, is not modelled, because the code does no validation of its own. For a missing key, `info['original_tags']` raises `KeyError` at KaomojiHelper.py:67. `Entry` always carries its tags.
- `KaomojiView.KaomojiHelper.constructor`: as written, construction does not finish. Line 140 of `KaomojiHelper.py`, `self.title_label.set`, reads an attribute that `QLabel` does not have, so `create_widgets` raises `AttributeError` before its `self.update()` at line 183. The constructor models the state `create_widgets` would reach without that line: the first `update` done, with all keys as results on page 1.
- `Settings.Config.Load`: `load` calls `self.writeConfig()` when `write_needed` is true, but the class defines only `write`. At run time that call raises `AttributeError`. So `Config(filename)` over an existing file that lacks any default section or option raises and constructs nothing. The model stops at returning the flag, and `Settings.Config.constructor` gives the store `load` has built by then.
- `Settings.Config.BackfillSection`: `load`'s inner loop over the options of a present section is a method of its own, to keep each proof small. It returns whether anything was added; the source sets `write_needed` inside that loop.
- configparser internals are left out: option names are taken as already lower-case, and there is no DEFAULT section. `getboolean`, `getInt` and `getBoolean` are not modelled. `set` takes its value as the string `str(value)` gives.
- `Settings.Get` does not model `ConfigParser`'s default `BasicInterpolation`: it returns the raw stored string, where `get` turns `%%` into `%`, substitutes `%(name)s`, and raises `InterpolationSyntaxError` on any other `%`. So `Settings.GetAfterSet` holds for `get` only for values without `%`.
- `Settings.Config.Set` never fails. `ConfigParser.set` raises `ValueError` for a value whose `%` signs are not valid interpolation syntax, such as `50%`, and that error is not modelled.
- `Text.Lower` lowers ASCII letters only. Python's `str.lower` also folds other scripts.
- `SetSearchText` runs `search` on every call. Qt emits `textChanged` only when the text actually differs.
- `self.results = self.recent_kaomojis` (KaomojiHelper.py:80) makes the two names share one list, while Dafny sequences are values. After a refresh in the recently-used view, the `append` in `insert` (line 123) grows `results` as well, and the rebind at line 124 leaves `results` on the old list. Nothing reads `results` before the `update()` at line 125. In the recently-used view that `update()` assigns `results` again at line 80. With non-blank search text, `results` is the fresh list `search` built and is shared with nothing. So the values the model keeps are the ones the program reads.
- `onPress` emits `self.keysPressed` itself, so a receiver of the signal shares the listener's live list, which later presses and releases change. `Keyboard.KeyboardListener.OnPress` returns a copy of the list as it was at that press.
- `keybinder.py`, `tableItemDelegate.py`, `tableViewDelegate.py`, `ui/scrollEventFilter.py`, `tabData.py` and `test.py` are not part of this model. They are native event filters, Qt painting and a demo, with no logic beyond bookkeeping on a foreign call's result (`keybinder.py` adds a hotkey to its `hotkeys` set only when the native registration succeeds).
