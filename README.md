# Phoenix game list and game editor, modelled in Dafny

Phoenix is a macOS game-library manager. This project models two pieces of its
view code and proves properties of them.

- **The sidebar list** (`GameListView.body`). The catalog is filtered by the
  search text, hidden games are dropped, and listed favorites form a leading
  "Favorites" section. The other listed games are grouped by the sort mode:
  - platform, status or recency: one section per case, in `allCases` order,
    with empty sections left out;
  - name: a single "Name" section sorted by name.

  Each header can show the section's size. This is the pure function
  `GameList.Sections` in `game_list.dfy`.
- **The game editor** (`GameInputView`). It is a form of draft fields.
  - `onAppear` fills the form from the selected catalog record.
  - "Save Game" refuses a blank name. Otherwise it appends a new game, or
    replaces the selected record, carrying forward its recency and favorite
    flag.
  - "Fetch Metadata" does the same merge without the name check, then selects
    the built record.

  This is the class `GameInput.GameForm` in `game_input.dfy`, acting on a
  `GameInput.Catalog` (the catalog array and selection of `GameViewModel`).
  Each of its methods is proved against a pure function: `Save` or
  `FetchMerge`, `LoadInto`, or `FirstMatch`. The properties are lemmas about
  those functions.

Shared pieces:
- `game_model.dfy` holds the `Game` record and `firstIndex(where:)` on ids.
- `text.dfy` holds the string operations the views call:
  - Foundation's case-insensitive search;
  - Foundation's trimming of whitespace;
  - the standard library's `<` on names.

Modelling decisions:
- **Enums.** `Platform`, `Status` and `Recency` are Swift enums whose cases are
  not part of this model. A case is a number, and each `allCases` list is an
  input (`EnumCases`) with no case listed twice.
- **Swift's `<` on strings.** The model takes it as lexicographic order on
  characters. So "Zelda" sorts before "mario", because upper-case letters come
  first.
  - A sort that puts ["Zelda", "Alpha", "mario"] in the order
    ["Alpha", "mario", "Zelda"] would need a case-insensitive collation.
  - The code asks for `<`, and the model follows the code.
- **Name search.** The model of `localizedCaseInsensitiveContains` folds ASCII
  letters only. An empty needle is never found, so it is the `|| searchText.isEmpty` test
  that makes an empty search list every game.
- **Whitespace.** The model of `trimmingCharacters(in: .whitespaces)` removes
  spaces and tabs.
- **Dismissing on a blank name.** Refusing a blank name also dismisses the
  editor (`dismiss()` at `GameInputView.swift:143`). The model does the same:
  `dismissed` is set. It does not keep the form open.
- **Release dates.** `convertIntoString` and `convertIntoDate` are not part
  of this model. They come in as a `DateFormat` parameter: a pair of
  functions between the date picker's `Date` and the text stored under
  "release_date". Nothing is assumed about them, so every lemma holds for any
  date format.
- **What an edit save loses.** `UneditedSaveRestoresIff` states this as an
  if-and-only-if. A stored name the guard refuses (one "Fetch Metadata" can
  write, since it skips the guard) makes the save write nothing. Otherwise an
  edit save builds a brand-new record, so opening a game and saving it
  unchanged:
  - drops its cover, because the cover is never loaded into the form;
  - drops metadata kept under any other key;
  - rewrites "release_date" as the date format's text for the date read from
    it, which changes it unless the two conversions give the text back;
  - resets `isHidden` to the initializer's value.

  Only recency and the favorite flag are carried forward.

## Model

| member | source | states |
|---|---|---|
| `GameModel.FirstMatch` | Phoenix/Phoenix/Views/GameInputView.swift:168 | There is no index exactly when no record has the selected id. Otherwise the index is in range, its record has the selected id, and no earlier record does. |
| `Text.ContainsIgnoringCase` | Phoenix/Phoenix/Views/GameListView.swift:29 | `localizedCaseInsensitiveContains`: the search term is non-empty and occurs in the name once both are lower-cased. Stated by `Text.ContainsIgnoringCaseIff`. |
| `Text.ContainsIgnoringCaseIff` | Phoenix/Phoenix/Views/GameListView.swift:29 | A search term is found in a name exactly when it is non-empty and its lower-cased form occurs, at some index, in the lower-cased name. |
| `Text.CaseOfEitherSideIgnored` | Phoenix/Phoenix/Views/GameListView.swift:29 | Lower-casing the name or the search term never changes whether the term is found. |
| `Text.Trim` | Phoenix/Phoenix/Views/GameInputView.swift:140 | `trimmingCharacters(in: .whitespaces)`: leading whitespace removed, then trailing whitespace. Stated by the three lemmas below. |
| `Text.TrimEmptyIffBlank` | Phoenix/Phoenix/Views/GameInputView.swift:140 | Trimming leaves nothing exactly when every character is whitespace. |
| `Text.TrimLeadingDropsBlankPrefix` | Phoenix/Phoenix/Views/GameInputView.swift:140 | Trimming the front removes a run of whitespace and keeps the rest of the string unchanged. |
| `Text.TrimTrailingDropsBlankSuffix` | Phoenix/Phoenix/Views/GameInputView.swift:140 | Trimming the back removes a run of whitespace and keeps the rest of the string unchanged. |
| `Text.Below` | Phoenix/Phoenix/Views/GameListView.swift:68 | Swift's `<` on names: lexicographic order on characters, a proper prefix first. Stated as a strict total order by the four lemmas below. |
| `Text.BelowIrreflexive` | Phoenix/Phoenix/Views/GameListView.swift:68 | No name is `<` itself. |
| `Text.BelowTransitive` | Phoenix/Phoenix/Views/GameListView.swift:68 | `<` on names is transitive. |
| `Text.BelowTotal` | Phoenix/Phoenix/Views/GameListView.swift:68 | Of two different names, one is `<` the other. |
| `Text.NotBelowTransitive` | Phoenix/Phoenix/Views/GameListView.swift:68 | "Not `<`" is transitive, which is the order a sort by `<` produces. |
| `GameList.Matches` | Phoenix/Phoenix/Views/GameListView.swift:29 | The name filter: the name contains the search text, ignoring case, or the search text is empty. Its meaning is stated by `Text.ContainsIgnoringCaseIff` and `GameList.EmptySearchMatchesEverything`. |
| `GameList.Select` | Phoenix/Phoenix/Views/GameListView.swift:28-80 | The `filter` of one section (lines 28-30, 41-43, 54-56, 66-67, 78-80), keeping catalog order. Its contents are stated by `GameList.SelectMembers` and `GameList.SelectKeepsCatalogOrder`. |
| `GameList.ModeSections` | Phoenix/Phoenix/Views/GameListView.swift:38-89 | The sections of the `switch sortBy`: the sorted "Name" section in name mode, otherwise one section per case with a non-empty filter. Stated by `GameList.ModeSectionAt`, `GameList.ModeSectionsInOrder` and `GameList.ModeSectionsComplete`. |
| `GameList.Sections` | Phoenix/Phoenix/Views/GameListView.swift:27-89 | The whole list: the Favorites section, if any, followed by the mode's sections. Stated by `GameList.SectionAt`, `GameList.SectionMembers`, `GameList.SectionsInCaseOrder` and the lemmas after them. |
| `GameList.SelectMembers` | Phoenix/Phoenix/Views/GameListView.swift:28-30 | A section's filter keeps exactly the catalog records that pass it: not hidden, matching the search, and with the group's favorite flag and field. |
| `GameList.SelectKeepsCatalogOrder` | Phoenix/Phoenix/Views/GameListView.swift:41-43 | The filtered games are the catalog records at strictly increasing indices, and exactly those indices whose records pass the filter. The filter is stable. |
| `GameList.Buckets` | Phoenix/Phoenix/Views/GameListView.swift:40-51 | The `ForEach(allCases)` sections: one section for each case whose filter is non-empty, holding that whole filter with its count label. Every such case gets a section, and the cases appear in `allCases` order with none repeated or reordered. |
| `GameList.SortByName` | Phoenix/Phoenix/Views/GameListView.swift:68 | `sorted(by: { $0.name < $1.name })` returns a permutation of its input in which no name is `<` an earlier one. |
| `GameList.InsertByName` | Phoenix/Phoenix/Views/GameListView.swift:68 | Inserting into a sorted list keeps it sorted, and adds exactly that game. |
| `GameList.NameSection` | Phoenix/Phoenix/Views/GameListView.swift:66-75 | The name-mode section is absent exactly when no non-favorite is listed. When present it is the one "Name" section, with no count, and it holds the listed non-favorites as a permutation sorted by name. |
| `GameList.FavoritesSection` | Phoenix/Phoenix/Views/GameListView.swift:28-37 | The Favorites section exists exactly when some listed game is a favorite. It holds all listed favorites in catalog order, with its count label. |
| `GameList.ModeSectionAt` | Phoenix/Phoenix/Views/GameListView.swift:38-89 | Each section of the `switch sortBy`: its group is one of the mode's groups; it is non-empty and holds exactly the catalog records of its group. In name mode it is the sorted "Name" section; otherwise it is the whole filter with its count label. |
| `GameList.ModeSectionsInOrder` | Phoenix/Phoenix/Views/GameListView.swift:38-89 | The mode's sections follow the mode's groups in order, with groups left out but never reordered or repeated. |
| `GameList.ModeSectionsComplete` | Phoenix/Phoenix/Views/GameListView.swift:40-51 | Every group of the mode whose filter keeps a game has a section. |
| `GameList.ModeGroupShape` | Phoenix/Phoenix/Views/GameListView.swift:38-89 | No group of a sort mode is Favorites, and a "Name" group occurs only in name mode. |
| `GameList.SectionAt` | Phoenix/Phoenix/Views/GameListView.swift:27-89 | Any one section of the list is non-empty. Its group is one the mode may show, and it holds exactly the records of that group. Its count is the section's size when counts are shown, and never on "Name". It is the Favorites section only when it is the first section. |
| `GameList.SectionMembers` | Phoenix/Phoenix/Views/GameListView.swift:27-89 | Every section holds exactly the catalog records that pass its group's filter. |
| `GameList.SectionsInCaseOrder` | Phoenix/Phoenix/Views/GameListView.swift:27-89 | The sections' groups are Favorites followed by the mode's groups in `allCases` order, with some left out. |
| `GameList.AllGroupsDistinct` | Phoenix/Phoenix/Views/GameListView.swift:40 | With `allCases` listing each case once, no group a mode may show is listed twice. |
| `GameList.SectionGroupsDistinct` | Phoenix/Phoenix/Views/GameListView.swift:27-89 | No two sections have the same group. |
| `GameList.BelongsOnlyToItsGroup` | Phoenix/Phoenix/Views/GameListView.swift:28-80 | Among the groups of a mode, a game passes exactly the filter of its own group: Favorites for a favorite, and otherwise the one for its field. |
| `GameList.HiddenGameInNoSection` | Phoenix/Phoenix/Views/GameListView.swift:27-89 | A hidden game is in no section, for every search text and sort mode. |
| `GameList.EmptySearchMatchesEverything` | Phoenix/Phoenix/Views/GameListView.swift:29 | With an empty search text, a game is listed exactly when it is not hidden. |
| `GameList.FavoritesLead` | Phoenix/Phoenix/Views/GameListView.swift:28-37 | The first section is Favorites exactly when some listed game is a favorite. That section holds the listed favorites in catalog order, and no later section holds a favorite. |
| `GameList.ListedGameShown` | Phoenix/Phoenix/Views/GameListView.swift:27-89 | A listed game whose field is one of the listed cases is in the section for its own group. |
| `GameList.ListedGameInExactlyOneSection` | Phoenix/Phoenix/Views/GameListView.swift:27-89 | Such a game is in exactly one section: the one for its own group. |
| `GameList.NameModeSingleSortedSection` | Phoenix/Phoenix/Views/GameListView.swift:65-75 | In name mode there are at most two sections, and at most one of them is "Name". Every section but Favorites is the "Name" section: no count, sorted by name, and a permutation of the listed non-favorites. |
| `GameList.HeaderCounts` | Phoenix/Phoenix/Views/GameListView.swift:31-82 | A header shows a count, equal to its section's size, exactly when `showSortByNumber` is set. The "Name" header never does. |
| `GameInput.NameAccepted` | Phoenix/Phoenix/Views/GameInputView.swift:140 | The `guard`: the name is non-empty and is not empty once trimmed. Stated by `GameInput.NameAcceptedIff`. |
| `GameInput.BuildRecord` | Phoenix/Phoenix/Views/GameInputView.swift:108-110 | The `Game.init` call of both buttons (also lines 146-148): the form's fields, the eight metadata keys with the release date as text, and the initializer's recency and flags. Stated by `GameInput.LoadInvertsBuild` and the save lemmas. |
| `GameInput.LoadInto` | Phoenix/Phoenix/Views/GameInputView.swift:208-223 | The field copy of `onAppear`: missing metadata reads as "", the release date goes through the date format, and the cover field is left as it was. Stated by `GameInput.LoadInvertsBuild` and `GameInput.UneditedSaveRestoresIff`. |
| `GameInput.MergeSelected` | Phoenix/Phoenix/Views/GameInputView.swift:111-114 | The merge of both buttons (also lines 168-171): the first record with the selected id is replaced by the new one, carrying its recency and favorite flag. With no such record nothing changes. Stated by `GameInput.SaveEditReplacesFirstMatch` and `GameInput.SaveEditNotFound`. |
| `GameInput.Save` | Phoenix/Phoenix/Views/GameInputView.swift:138-181 | "Save Game" on values: a refused name, an added game, a saved edit or a missing record, with the catalog afterwards. Stated by the save lemmas below. |
| `GameInput.FetchMerge` | Phoenix/Phoenix/Views/GameInputView.swift:106-131 | The synchronous part of "Fetch Metadata" on values: the merge without the name check, then the selection of the built record's id. Stated by `GameInput.FetchMergesLikeSave`. |
| `GameInput.NameAcceptedIff` | Phoenix/Phoenix/Views/GameInputView.swift:140 | A name passes the guard exactly when some character of it is not whitespace. |
| `GameInput.SaveRejectsBlankName` | Phoenix/Phoenix/Views/GameInputView.swift:140-145 | Saving with an empty or whitespace-only name ends in "Game must have a name." and leaves the catalog as it was. |
| `GameInput.EmptyAndSpacesRejected` | Phoenix/Phoenix/Views/GameInputView.swift:140 | Both "" and "   " are refused. |
| `GameInput.SaveNewGameAppends` | Phoenix/Phoenix/Views/GameInputView.swift:146-151 | A new game is added at the end and every earlier record is kept. The record has the form's id (or the fresh one) and the draft's name. Loading it back gives the draft, with the release date passed through the date format both ways. Its metadata has exactly the editor's keys, with the draft's cover and the date as text. It takes its recency, favorite flag and hidden flag from the initializer. |
| `GameInput.NewGameShownUnderName` | Phoenix/Phoenix/Views/GameInputView.swift:146-151 | A new visible, non-favorite game is then listed, with an empty search in name mode, in the "Name" section. |
| `GameInput.SaveNewGameKeepsIdsUnique` | Phoenix/Phoenix/Views/GameInputView.swift:147-150 | A new game whose fresh id is unused keeps the catalog's ids unique. |
| `GameInput.SaveEditReplacesFirstMatch` | Phoenix/Phoenix/Views/GameInputView.swift:168-174 | An edit replaces the first record with the selected id, and only that record; the length is kept. The new record keeps the old recency and favorite flag. It takes its name and id from the form and its hidden flag from the initializer. Loading it back gives the draft, with the release date passed through the date format both ways. Its metadata has exactly the editor's keys, with the draft's cover and the date as text. |
| `GameInput.SaveEditNotFound` | Phoenix/Phoenix/Views/GameInputView.swift:175-178 | An edit with no record matching the selection ends in "couldn't be found" and writes nothing. |
| `GameInput.SaveFailureLeavesCatalog` | Phoenix/Phoenix/Views/GameInputView.swift:140-179 | A failure toast is raised exactly when the name is missing or the game is not found. In both cases the catalog is unchanged, and "not found" only happens on an edit with no matching record. |
| `GameInput.EditKeepsIds` | Phoenix/Phoenix/Views/GameInputView.swift:147 | When the form's id is the selection, as after loading, an edit keeps every record's id. Unique ids stay unique. |
| `GameInput.LoadInvertsBuild` | Phoenix/Phoenix/Views/GameInputView.swift:208-223 | Loading a record the form built gives back the draft it was built from, except that the release date is passed through the date format to text and back. |
| `GameInput.UneditedSaveRestoresIff` | Phoenix/Phoenix/Views/GameInputView.swift:146-224 | Opening the selected game and saving without changes leaves the catalog as it was exactly when either the stored name is refused by the guard, so nothing is written, or the record has only the editor's metadata keys, no cover, a release date the date format gives back unchanged, and the initializer's hidden flag. |
| `GameInput.FetchMergesLikeSave` | Phoenix/Phoenix/Views/GameInputView.swift:106-131 | "Fetch Metadata" selects the built record's id. With an accepted name it merges exactly as an edit save does. With any name it keeps the catalog's length and every record but the first match. That match becomes the record an edit save with an accepted name would write, but with the draft's name, even when blank. With no match it leaves the catalog unchanged. |
| `GameInput.Catalog.constructor` | Phoenix/Phoenix/Views/GameInputView.swift:13 | The catalog holds the given games and selection. |
| `GameInput.Catalog.FindSelected` | Phoenix/Phoenix/Views/GameInputView.swift:168 | The loop returns the first index whose record has the selected id, or none, as `FirstMatch` says. |
| `GameInput.Catalog.AddGame` | Phoenix/Phoenix/Views/GameInputView.swift:150 | The game is appended, and the selection is kept. |
| `GameInput.GameForm.constructor` | Phoenix/Phoenix/Views/GameInputView.swift:32-46 | A new form has no id and a blank draft with the `.none` pickers and today's date. The toast bindings are the presenting view's, as passed in. |
| `GameInput.GameForm.Appear` | Phoenix/Phoenix/Views/GameInputView.swift:207-224 | An editor for an existing game with a match loads that record: the id becomes the selection, and the fields are copied with missing metadata read as "". Otherwise nothing changes, and no toast changes either way. |
| `GameInput.GameForm.SaveGame` | Phoenix/Phoenix/Views/GameInputView.swift:138-181 | The catalog and outcome are those of `Save` on the state before, and the selection and draft are kept. The matching toast is raised, and the editor is dismissed unless a game was added. |
| `GameInput.GameForm.FetchMetadata` | Phoenix/Phoenix/Views/GameInputView.swift:105-132 | The catalog and selection afterwards are those of `FetchMerge` on the catalog before. |

## Left out

- The metadata lookup of "Fetch Metadata" and of a new game's save is left out: the `fetchGamesFromName` call, its completion handler and the `ChooseGameView` sheet (`GameInputView.swift:117-130`, `152-166`, `199-206`). It is asynchronous and calls an external service. Only the synchronous merge is modelled. The toasts it raises and the dismissal after adding a game are left out with it.
- `saveGames()` persistence, the `Defaults[...]` settings store and the image import buttons are external I/O. A save is modelled as its change to the in-memory catalog.
- `GameViewModel.addGame` is not part of this model. It is taken to append the game to the catalog.
- `convertIntoString` and `convertIntoDate` are not part of this model. They are a `DateFormat` parameter, and a `Date` is a number. `Date()` is the `now` parameter of the form's initializer.
- `Game.init` and the enums' `.none` cases are not part of this model. Their values come in as a `Defaults` parameter.
- `UUID()` is a parameter (`freshId`). Lemmas that need a fresh id assume it is unused.
- `GameInput.GameForm`: the thirteen `@State` inputs (`nameInput` … `dateInput`) are kept as one `draft` field. So `onAppear`'s field-by-field copy is one update, and the order of those assignments is not modelled. The user's typing is any assignment to `draft`.
- `Text.ContainsIgnoringCase`: folds ASCII letters only. Foundation's locale-aware, Unicode case folding and its diacritic handling are not modelled.
- `Text.Trim`: removes only spaces and tabs. Foundation's `.whitespaces` set also holds other Unicode space characters.
- `Text.Below`: compares characters one by one. Swift's `<` on `String` compares Unicode-normalized scalars, so it treats canonically equivalent strings (a precomposed "é" and "e" with a combining accent) as equal, and `Text.Below` does not.
- `GameList.SortByName`: one particular sort (insertion, stable). `sorted(by:)` promises only a sorted permutation, which is all the lemmas state about it.
- `List(selection:)`, `GameListItem`, the section titles' text (`displayName`), the add-game button, colours and gradients are presentation. A header is modelled as its group and its optional count.
- `SettingsView` is a tab layout with no logic.
