# Preferences service decision rules (Tiny RDM)

This project models the pure decision rules of the Tiny RDM desktop client's
preferences service (`backend/services/preferences_service.go`) and proves
properties about them in Dafny. The service is glue between the GUI bridge,
the persisted preferences, the OS font finder and the window manager. Its
rules are modelled as pure functions over an immutable preferences record:

- `GoStrings`: Go strings as byte sequences. It defines `HasPrefix` and Go's
  `<` on strings (`Less`, byte-wise lexicographic). Less is proved to equal
  the first-difference reading of lexicographic order, and to be a strict
  total order.
- `Prefs`: the `behavior` section (window width, height, maximised flag, x and
  y position) and the `general` section (language, scan size) of the
  preferences. The size constants are a `Consts` record of positive integers,
  because their values are not part of this model. This module also holds the
  dotted-key update requests (`"behavior.windowWidth"`, …) that the service
  sends to the store. `Apply` performs a request entry by entry. Entries with
  different keys commute, and any two orderings of a request with distinct
  keys have the same effect, so the unspecified iteration order of Go maps
  does not matter.
- `PreferencesService`: the rules behind the service's entry points.
  - `SetAppVersion` normalises a version so that it starts with `v`.
  - `SaveWindowSize` and `GetWindowSize` store and read the window size. A
    maximised save stores only the flag. A non-maximised save is guarded by
    the minimum sizes. The reader substitutes defaults for non-positive sizes.
  - `GetWindowPosition` picks the first screen flagged current (`FirstCurrent`,
    `ScreenSize`). It keeps a stored position that fits on that screen and
    otherwise centres the window, using Go's truncating division (`Half`).
  - `SaveWindowPosition` stores a position only when one coordinate is
    positive.
  - `GetScanSize` defaults a non-positive scan size.
- `FontList`: the font list.
  - `CollectFonts` is the finder loop. It drops empty and hidden (leading `.`)
    families and keeps the first font of each family.
  - `SortByName` stands for `sort.Slice` by name.
  - `GetFontList` produces a list that is strictly sorted, contains only first
    occurrences, and misses none of them. `FontListUnique` shows that these
    properties determine the list, so the unstable sort cannot make the
    output differ.

The window manager's screen list is a parameter (`Option<seq<Screen>>`, where
`None` is a failed query), and so is the font finder's output (`seq<Font>`).

One behaviour is worth noting. A position whose x or y is not positive but
whose other coordinate is positive is still saved. The reader never keeps
such a position: it recentres the window. `EdgePositionIsRecentred` states
this.

## Model

| member | source | states |
|---|---|---|
| `PreferencesService.SetAppVersion` | backend/services/preferences_service.go:125-131 | the kept version starts with `v`, ends with the given version and is at most one byte longer; a version already starting with `v` is kept as is |
| `PreferencesService.SetAppVersionIdempotent` | backend/services/preferences_service.go:125-131 | normalising an already normalised version changes nothing |
| `PreferencesService.SetAppVersionPrepends` | backend/services/preferences_service.go:126-127 | a version without the prefix becomes `v` followed by the version |
| `PreferencesService.SaveWindowSizeRequest` | backend/services/preferences_service.go:141-153 | the request SaveWindowSize sends never names a dotted key twice |
| `PreferencesService.SaveWindowSize` | backend/services/preferences_service.go:141-154 | a maximised save sets only the maximised flag and keeps the stored size; an unmaximised save at least the minimum size stores that size and clears the flag; a smaller one changes nothing; the position and the general section are never touched |
| `PreferencesService.SaveWindowSizeIdempotent` | backend/services/preferences_service.go:141-154 | repeating the same save leaves the preferences as the first save left them |
| `PreferencesService.GetWindowSize` | backend/services/preferences_service.go:156-166 | the reported width and height are positive: the stored value when it is positive, the default otherwise; the maximised flag is passed through |
| `PreferencesService.SaveThenGetWindowSize` | backend/services/preferences_service.go:141-166 | a size that passes the minimum check is read back exactly, with the maximised flag cleared |
| `PreferencesService.SaveMaximisedThenGetWindowSize` | backend/services/preferences_service.go:141-166 | after a maximised save the reader reports the previous size, now maximised |
| `PreferencesService.FirstCurrent` | backend/services/preferences_service.go:173-180 | finds the first screen flagged current, or reports that no screen is current |
| `PreferencesService.ScreenSize` | backend/services/preferences_service.go:172-183 | the screen size used is positive: that of the first current screen when both its dimensions are positive; the default window size when the query failed, no screen is current or a dimension is not positive |
| `PreferencesService.Half` | backend/services/preferences_service.go:186 | halves with truncation toward zero, as Go's integer division does |
| `PreferencesService.GetWindowPosition` | backend/services/preferences_service.go:168-189 | a stored position where the stored window fits on the screen is returned unchanged; otherwise each coordinate centres the window, the two gaps differing by at most one, with the sign of the gap determined by whether the window is wider than the screen |
| `PreferencesService.RecentredWindowIsCentred` | backend/services/preferences_service.go:184-187 | a recentred position is half the free space; a window no larger than the screen then lies entirely on it |
| `PreferencesService.SaveWindowPositionRequest` | backend/services/preferences_service.go:191-198 | the request SaveWindowPosition sends never names a dotted key twice |
| `PreferencesService.SaveWindowPosition` | backend/services/preferences_service.go:191-198 | x and y are stored when either is positive; otherwise nothing changes; the size, the maximised flag and the general section are never touched |
| `PreferencesService.SaveThenGetWindowPosition` | backend/services/preferences_service.go:168-198 | a saved position with positive coordinates where the stored window fits is read back unchanged |
| `PreferencesService.EdgePositionIsRecentred` | backend/services/preferences_service.go:184-198 | a position with one non-positive coordinate is stored but read back as the centred position |
| `PreferencesService.GetScanSize` | backend/services/preferences_service.go:200-207 | the scan size is positive: the stored one when positive, the default otherwise |
| `PreferencesService.WindowSavesKeepScanSize` | backend/services/preferences_service.go:141-207 | saving window size or position never changes the scan size read back |
| `Prefs.Assign` | backend/services/preferences_service.go:144-152 | writing one dotted key sets that field and leaves every other field unchanged |
| `Prefs.Apply` | backend/services/preferences_service.go:144-152 | applying a request never touches the general section |
| `Prefs.AssignCommutes` | backend/services/preferences_service.go:148-152 | entries with different keys can be written in either order |
| `Prefs.KeyIdentifiesField` | backend/services/preferences_service.go:144-152 | two entries carry the same dotted key exactly when they write the same field |
| `Prefs.ApplySwapAdjacent` | backend/services/preferences_service.go:148-152 | swapping two adjacent entries with different keys does not change the effect of a request |
| `Prefs.ApplyMoveToFront` | backend/services/preferences_service.go:148-152 | an entry whose key no other entry shares can be moved to the front of a request without changing its effect |
| `Prefs.DistinctKeysPermutation` | backend/services/preferences_service.go:148-152 | every reordering of a request with distinct keys still has distinct keys |
| `Prefs.ApplyOrderIrrelevant` | backend/services/preferences_service.go:148-152 | every reordering of a request with distinct keys has the same effect as the request, so the iteration order of the Go map is irrelevant |
| `PreferencesService.SaveWindowSizeAnyOrder` | backend/services/preferences_service.go:144-152 | whatever order the store receives the window-size request's entries in, it performs the same save |
| `PreferencesService.SaveWindowPositionAnyOrder` | backend/services/preferences_service.go:193-196 | whatever order the store receives the window-position request's entries in, it performs the same save |
| `GoStrings.HasPrefix` | backend/services/preferences_service.go:126 | `strings.HasPrefix`: the prefix is no longer than the string and agrees with it byte by byte |
| `GoStrings.Less` | backend/services/preferences_service.go:97 | Go's `<` on strings, byte-wise lexicographic; no string sorts before itself |
| `GoStrings.LessIsFirstDifference` | backend/services/preferences_service.go:97 | Go's string `<` holds exactly when the first string is a proper prefix of the second, or is smaller at the first differing byte |
| `GoStrings.LessIrreflexive` | backend/services/preferences_service.go:97 | no name sorts before itself |
| `GoStrings.LessTransitive` | backend/services/preferences_service.go:97 | the name order is transitive |
| `GoStrings.LessTotal` | backend/services/preferences_service.go:97 | of two different names, one sorts before the other |
| `GoStrings.LessAsymmetric` | backend/services/preferences_service.go:97 | two names never sort before each other |
| `FontList.Listed` | backend/services/preferences_service.go:89 | a family is listed exactly when it is non-empty and does not start with `.` |
| `FontList.CollectFonts` | backend/services/preferences_service.go:86-95 | the kept items have distinct names; each is the entry of the first listed font of its family; every such first font is kept |
| `FontList.Insert` | backend/services/preferences_service.go:96-98 | inserting adds exactly the new item |
| `FontList.SortByName` | backend/services/preferences_service.go:96-98 | sorting is a permutation of the list |
| `FontList.InsertSorted` | backend/services/preferences_service.go:96-98 | inserting a new name into a strictly sorted list keeps it strictly sorted |
| `FontList.SortByNameSorted` | backend/services/preferences_service.go:96-98 | a list with distinct names sorts into strictly increasing names |
| `FontList.GetFontList` | backend/services/preferences_service.go:84-104 | the list is strictly increasing by name; every name is non-empty and does not start with `.`; each item carries the filename of the first font of its family; every listed family appears |
| `FontList.SortedSameEntriesEqual` | backend/services/preferences_service.go:96-98 | two strictly sorted lists with the same items are equal |
| `FontList.FontListUnique` | backend/services/preferences_service.go:84-98 | the font list's properties determine it completely |

## Left out

- `GetPreferences`, `SetPreferences`, `UpdatePreferences` and `RestorePreferences` are thin wrappers over the preferences storage, which is not part of this model. `Prefs.Apply` models only what a request does to the record.
- `PreferencesService.SaveWindowSize` and `PreferencesService.SaveWindowPosition` assume the store applies the request. SaveWindowSize and SaveWindowPosition ignore the store's error, and the storage code that could fail is not part of this model.
- `PreferencesService.GetWindowPosition` uses unbounded integers. Go's `int` is 64 bits, so `x+width` and `screenWidth-width` wrap for stored values near 2^63. The model does not reproduce that wrap-around.
- `GetFontList`: the OS font finder (`sysfont`) is replaced by its output sequence. The JSON response wrapper is omitted; when no font is listed, Go's nil slice is sent as `"fonts": null`, whereas the model returns the empty sequence. `sort.Slice` is modelled by an insertion sort; its instability does not matter because names are unique after deduplication.
- `FontList.CollectFonts` assumes that `fontSet.Add` of the `coll` package adds the family and returns true exactly when the family was not yet in the set; that package is not part of this model.
- `GetWindowPosition`: the window manager query (`ScreenGetAll`) and its context are replaced by an optional screen list.
- `CheckForUpdate` is left out. It returns a fixed stub before an HTTP request and JSON decoding.
- `GetBuildInDecoder` is left out. It iterates a Go map, so its order is unspecified, and the decoder registry is not part of this model.
- `GetDecoder` is left out as a plain field copy.
- `UpdateEnv` is left out. It sets or unsets a process environment variable.
- `GetLanguage` and `GetAppVersion` are left out as plain reads of a stored field.
- The `Preferences()` singleton with `sync.Once` is left out as initialisation plumbing.
