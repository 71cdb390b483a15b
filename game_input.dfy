/** The game editor (`GameInputView`): a form of draft fields that is filled from
    the selected game when it appears, and whose "Save Game" and "Fetch Metadata"
    buttons write a record built from the draft back into the catalog. */
module GameInput {
  import opened GameModel
  import opened Text
  import opened GameList

  /** A point in time (Foundation's `Date`); its representation is not part of this model. */
  type Date = int

  /** `convertIntoString(input:)` and `convertIntoDate(input:)`, the conversions between
      the date picker's value and the text stored under "release_date". Their bodies
      are not part of this model, so they are parameters. */
  datatype DateFormat = DateFormat(toText: Date -> string, toDate: string -> Date)

  /** The values the editor's text boxes, pickers and date picker hold. */
  datatype Draft = Draft(
    name: string,
    icon: string,
    platform: Platform,
    status: Status,
    launcher: string,
    description: string,
    genre: string,
    headerImage: string,
    cover: string,
    rating: string,
    developer: string,
    publisher: string,
    releaseDate: Date)

  /** Values taken from declarations that are not part of this model: the `.none`
      cases a blank form starts with, and what `Game.init` gives the fields the
      editor does not pass to it. */
  datatype Defaults = Defaults(
    platform: Platform,
    status: Status,
    recency: Recency,
    isFavorite: bool,
    isHidden: bool)

  /** The form as it is created: empty text, `.none` pickers, the current date. */
  function BlankDraft(defaults: Defaults, now: Date): Draft
  {
    Draft("", "", defaults.platform, defaults.status, "", "", "", "", "", "", "", "", now)
  }

  /** The keys the editor writes into a record's `metadata`. */
  function MetadataKeys(): set<string>
  {
    {"description", "header_img", "cover", "rating", "genre", "developer", "publisher", "release_date"}
  }

  function MetadataOf(d: Draft, dates: DateFormat): map<string, string>
  {
    map["description" := d.description, "header_img" := d.headerImage, "cover" := d.cover,
        "rating" := d.rating, "genre" := d.genre, "developer" := d.developer,
        "publisher" := d.publisher, "release_date" := dates.toText(d.releaseDate)]
  }

  /** `Game.init(id:launcher:metadata:icon:name:platform:status:)` on the draft. */
  function BuildRecord(d: Draft, id: Uuid, defaults: Defaults, dates: DateFormat): Game
  {
    Game(id, d.name, d.launcher, d.icon, d.platform, d.status, MetadataOf(d, dates),
         defaults.recency, defaults.isFavorite, defaults.isHidden)
  }

  /** `onAppear`'s copy of a record into the form; the cover is not loaded. */
  function LoadInto(d: Draft, g: Game, dates: DateFormat): Draft
  {
    Draft(g.name, g.icon, g.platform, g.status, g.launcher,
          Lookup(g.metadata, "description"), Lookup(g.metadata, "genre"),
          Lookup(g.metadata, "header_img"), d.cover, Lookup(g.metadata, "rating"),
          Lookup(g.metadata, "developer"), Lookup(g.metadata, "publisher"),
          dates.toDate(Lookup(g.metadata, "release_date")))
  }

  /** The new record with the recency and favorite flag of the record it replaces. */
  function Carried(candidate: Game, previous: Game): Game
  {
    candidate.(recency := previous.recency, isFavorite := previous.isFavorite)
  }

  /** The catalog after the selected record, if any, is replaced by `candidate`. */
  function MergeSelected(games: seq<Game>, selected: Option<Uuid>, candidate: Game): seq<Game>
  {
    match FirstMatch(games, selected)
    case None => games
    case Some(i) => games[i := Carried(candidate, games[i])]
  }

  /** The guard of "Save Game": a name that is neither empty nor only whitespace. */
  predicate NameAccepted(name: string)
  {
    name != [] && Trim(name) != []
  }

  /** How a press of "Save Game" ends. */
  datatype SaveOutcome =
    | NameMissing
    | Added(added: Game)
    | Saved(saved: Game)
    | NotFound

  datatype SaveResult = SaveResult(outcome: SaveOutcome, games: seq<Game>)

  /** The "Save Game" action on the catalog. `formId` is the form's `id`, and
      `freshId` the value `UUID()` returns when the form has none. */
  function Save(games: seq<Game>, selected: Option<Uuid>, d: Draft, formId: Option<Uuid>, freshId: Uuid,
                isNewGame: bool, defaults: Defaults, dates: DateFormat): SaveResult
  {
    if !NameAccepted(d.name) then SaveResult(NameMissing, games)
    else
      var game := BuildRecord(d, formId.GetOr(freshId), defaults, dates);
      if isNewGame then SaveResult(Added(game), games + [game])
      else
        match FirstMatch(games, selected)
        case None => SaveResult(NotFound, games)
        case Some(i) => SaveResult(Saved(Carried(game, games[i])), MergeSelected(games, selected, game))
  }

  datatype FetchResult = FetchResult(games: seq<Game>, selected: Option<Uuid>)

  /** The synchronous part of "Fetch Metadata": the same merge as an edit, without the
      name guard, after which the built record's id becomes the selection. */
  function FetchMerge(games: seq<Game>, selected: Option<Uuid>, d: Draft, formId: Option<Uuid>, freshId: Uuid,
                      defaults: Defaults, dates: DateFormat): FetchResult
  {
    var game := BuildRecord(d, formId.GetOr(freshId), defaults, dates);
    FetchResult(MergeSelected(games, selected, game), Some(game.id))
  }

  /** A toast the editor raises. */
  datatype Toast = Success(text: string) | Failure(text: string)

  /** The toast raised when "Save Game" ends; adding a game raises none of its own. */
  function ToastFor(outcome: SaveOutcome): Option<Toast>
  {
    match outcome
    case NameMissing => Some(Failure("Game must have a name."))
    case Added(_) => None
    case Saved(_) => Some(Success("Game saved!"))
    case NotFound => Some(Failure("Game couldn't be found."))
  }

  // ---------------------------------------------------------------------------
  // Properties of saving

  /** A name passes the guard exactly when some character is not whitespace. */
  lemma NameAcceptedIff(name: string)
    ensures NameAccepted(name) <==> exists i :: 0 <= i < |name| && !IsWhitespace(name[i])
  {
    TrimEmptyIffBlank(name);
  }

  /** An empty or blank name is refused: the catalog is left as it was. */
  lemma SaveRejectsBlankName(games: seq<Game>, selected: Option<Uuid>, d: Draft, formId: Option<Uuid>, freshId: Uuid,
                             isNewGame: bool, defaults: Defaults, dates: DateFormat)
    requires forall i :: 0 <= i < |d.name| ==> IsWhitespace(d.name[i])
    ensures Save(games, selected, d, formId, freshId, isNewGame, defaults, dates) == SaveResult(NameMissing, games)
  {
    NameAcceptedIff(d.name);
  }

  /** A new game is appended, built from the draft with the initializer's defaults. */
  lemma SaveNewGameAppends(games: seq<Game>, selected: Option<Uuid>, d: Draft, formId: Option<Uuid>, freshId: Uuid,
                           defaults: Defaults, dates: DateFormat, r: SaveResult)
    requires NameAccepted(d.name)
    requires r == Save(games, selected, d, formId, freshId, true, defaults, dates)
    ensures r.outcome.Added?
    ensures |r.games| == |games| + 1 && r.games[..|games|] == games && r.games[|games|] == r.outcome.added
    ensures r.outcome.added.id == formId.GetOr(freshId)
    ensures LoadInto(d, r.outcome.added, dates) == d.(releaseDate := dates.toDate(dates.toText(d.releaseDate)))
    ensures r.outcome.added.metadata.Keys == MetadataKeys() && r.outcome.added.metadata["cover"] == d.cover
    ensures r.outcome.added.metadata["release_date"] == dates.toText(d.releaseDate)
    ensures r.outcome.added.recency == defaults.recency && r.outcome.added.isFavorite == defaults.isFavorite
    ensures r.outcome.added.isHidden == defaults.isHidden
  {
  }

  /** "" and "   " are both refused. */
  lemma EmptyAndSpacesRejected()
    ensures !NameAccepted("") && !NameAccepted("   ")
  {
    NameAcceptedIff("   ");
  }

  /** A new visible, non-favorite game is listed, with an empty search in name mode,
      in the "Name" section. */
  lemma NewGameShownUnderName(games: seq<Game>, selected: Option<Uuid>, d: Draft, formId: Option<Uuid>, freshId: Uuid,
                              defaults: Defaults, dates: DateFormat, showCount: bool, cases: EnumCases, r: SaveResult, sections: seq<Section>)
    requires NameAccepted(d.name) && !defaults.isHidden && !defaults.isFavorite
    requires r == Save(games, selected, d, formId, freshId, true, defaults, dates)
    requires sections == Sections(r.games, [], ByName, showCount, cases)
    ensures exists k :: 0 <= k < |sections| && sections[k].group == NameGroup && r.outcome.added in sections[k].games
  {
    var g := r.outcome.added;
    assert r.games[|games|] == g;
    ListedGameShown(r.games, [], ByName, showCount, cases, sections, g);
  }

  /** A new game with an unused id keeps the catalog's ids unique. */
  lemma SaveNewGameKeepsIdsUnique(games: seq<Game>, selected: Option<Uuid>, d: Draft, freshId: Uuid, defaults: Defaults, dates: DateFormat)
    requires UniqueIds(games) && freshId !in Ids(games)
    ensures UniqueIds(Save(games, selected, d, None, freshId, true, defaults, dates).games)
  {
    var r := Save(games, selected, d, None, freshId, true, defaults, dates);
    if NameAccepted(d.name) {
      forall i | 0 <= i < |games|
        ensures r.games[i].id != freshId
      {
        assert Ids(games)[i] == games[i].id;
      }
    }
  }

  /** An edit replaces the first record whose id is the selection, and only it;
      the new record keeps the old one's recency and favorite flag and takes every
      other field from the draft. */
  lemma SaveEditReplacesFirstMatch(games: seq<Game>, selected: Option<Uuid>, d: Draft, formId: Option<Uuid>, freshId: Uuid,
                                   defaults: Defaults, dates: DateFormat, r: SaveResult, i: nat)
    requires NameAccepted(d.name)
    requires r == Save(games, selected, d, formId, freshId, false, defaults, dates)
    requires FirstMatch(games, selected) == Some(i)
    ensures r.outcome.Saved? && |r.games| == |games|
    ensures Some(games[i].id) == selected
    ensures forall j :: 0 <= j < i ==> Some(games[j].id) != selected
    ensures r.games[i] == r.outcome.saved
    ensures forall j :: 0 <= j < |games| && j != i ==> r.games[j] == games[j]
    ensures r.outcome.saved.recency == games[i].recency && r.outcome.saved.isFavorite == games[i].isFavorite
    ensures r.outcome.saved.id == formId.GetOr(freshId)
    ensures LoadInto(d, r.outcome.saved, dates) == d.(releaseDate := dates.toDate(dates.toText(d.releaseDate)))
    ensures r.outcome.saved.metadata.Keys == MetadataKeys() && r.outcome.saved.metadata["cover"] == d.cover
    ensures r.outcome.saved.metadata["release_date"] == dates.toText(d.releaseDate)
    ensures r.outcome.saved.isHidden == defaults.isHidden
  {
    var b := BuildRecord(d, formId.GetOr(freshId), defaults, dates);
    var c := Carried(b, games[i]);
    assert r == SaveResult(Saved(c), games[i := c]);
    LoadInvertsBuild(d, formId.GetOr(freshId), defaults, dates);
    assert LoadInto(d, c, dates) == LoadInto(d, b, dates);
  }

  /** With nothing selected, or a selection no record has, an edit changes nothing. */
  lemma SaveEditNotFound(games: seq<Game>, selected: Option<Uuid>, d: Draft, formId: Option<Uuid>, freshId: Uuid,
                         defaults: Defaults, dates: DateFormat)
    requires NameAccepted(d.name)
    requires forall i :: 0 <= i < |games| ==> Some(games[i].id) != selected
    ensures Save(games, selected, d, formId, freshId, false, defaults, dates) == SaveResult(NotFound, games)
  {
  }

  /** A save that does not succeed leaves the catalog as it was, and raises a failure
      toast; one that does raises no failure toast. */
  lemma SaveFailureLeavesCatalog(games: seq<Game>, selected: Option<Uuid>, d: Draft, formId: Option<Uuid>, freshId: Uuid,
                                 isNewGame: bool, defaults: Defaults, dates: DateFormat, r: SaveResult)
    requires r == Save(games, selected, d, formId, freshId, isNewGame, defaults, dates)
    ensures (ToastFor(r.outcome).Some? && ToastFor(r.outcome).value.Failure?) <==> r.outcome.NameMissing? || r.outcome.NotFound?
    ensures r.outcome.NameMissing? || r.outcome.NotFound? ==> r.games == games
    ensures r.outcome.NotFound? ==> !isNewGame && forall i :: 0 <= i < |games| ==> Some(games[i].id) != selected
  {
  }

  /** When the form's id is the selection (as after it appeared), an edit keeps every
      record's id, so the edited game stays selected and ids stay unique. */
  lemma EditKeepsIds(games: seq<Game>, selected: Option<Uuid>, d: Draft, freshId: Uuid, defaults: Defaults, dates: DateFormat)
    ensures Ids(Save(games, selected, d, selected, freshId, false, defaults, dates).games) == Ids(games)
    ensures UniqueIds(games) ==> UniqueIds(Save(games, selected, d, selected, freshId, false, defaults, dates).games)
  {
    var r := Save(games, selected, d, selected, freshId, false, defaults, dates);
    assert |r.games| == |games|;
    forall j | 0 <= j < |games|
      ensures r.games[j].id == games[j].id
    {
    }
  }

  /** The form loads back the draft a record was built from: every field, except
      that the date comes back through `convertIntoDate(convertIntoString(_))`
      (and the cover is never loaded, so it stays whatever the form held). */
  lemma LoadInvertsBuild(d: Draft, id: Uuid, defaults: Defaults, dates: DateFormat)
    ensures LoadInto(d, BuildRecord(d, id, defaults, dates), dates)
      == d.(releaseDate := dates.toDate(dates.toText(d.releaseDate)))
  {
  }

  /** A record an unchanged save writes back as it was: only the editor's metadata
      keys, no cover, a release-date text that survives `convertIntoDate` followed by
      `convertIntoString`, and the initializer's hidden flag. */
  predicate Canonical(g: Game, defaults: Defaults, dates: DateFormat)
  {
    && g.metadata.Keys == MetadataKeys()
    && g.metadata["cover"] == ""
    && dates.toText(dates.toDate(g.metadata["release_date"])) == g.metadata["release_date"]
    && g.isHidden == defaults.isHidden
  }

  /** A canonical record comes back from the form unchanged. */
  lemma CanonicalRoundTrip(g: Game, blank: Draft, defaults: Defaults, dates: DateFormat)
    requires blank.cover == "" && Canonical(g, defaults, dates)
    ensures Carried(BuildRecord(LoadInto(blank, g, dates), g.id, defaults, dates), g) == g
  {
    var d := LoadInto(blank, g, dates);
    assert MetadataOf(d, dates) == g.metadata;
  }

  /** A record that comes back from the form unchanged is canonical. */
  lemma RoundTripCanonical(g: Game, blank: Draft, defaults: Defaults, dates: DateFormat)
    requires blank.cover == ""
    requires Carried(BuildRecord(LoadInto(blank, g, dates), g.id, defaults, dates), g) == g
    ensures Canonical(g, defaults, dates)
  {
    var d := LoadInto(blank, g, dates);
    assert MetadataOf(d, dates) == g.metadata;
    assert Lookup(g.metadata, "release_date") == g.metadata["release_date"];
  }

  /** Opening the editor on the selected game and saving without changes leaves the
      catalog exactly as it was if and only if the stored name is refused by the guard
      (nothing is written) or the record is canonical; otherwise a cover is dropped,
      metadata under other keys is dropped, the release date is rewritten in the date
      format, or a hidden game is shown again. */
  lemma UneditedSaveRestoresIff(games: seq<Game>, selected: Option<Uuid>, blank: Draft, freshId: Uuid,
                                defaults: Defaults, dates: DateFormat, i: nat)
    requires FirstMatch(games, selected) == Some(i)
    requires blank.cover == ""
    ensures Save(games, selected, LoadInto(blank, games[i], dates), Some(games[i].id), freshId, false, defaults, dates).games == games
            <==> !NameAccepted(games[i].name) || Canonical(games[i], defaults, dates)
  {
    var g := games[i];
    var d := LoadInto(blank, g, dates);
    assert d.name == g.name;
    if NameAccepted(g.name) {
      var c := Carried(BuildRecord(d, g.id, defaults, dates), g);
      var r := Save(games, selected, d, Some(g.id), freshId, false, defaults, dates);
      assert r.games == games[i := c];
      if Canonical(g, defaults, dates) {
        CanonicalRoundTrip(g, blank, defaults, dates);
      }
      if r.games == games {
        assert r.games[i] == c;
        RoundTripCanonical(g, blank, defaults, dates);
      }
    }
  }

  /** Fetching metadata merges exactly as saving an edit does when the name is
      accepted, skips the name guard otherwise, and selects the built record. */
  lemma FetchMergesLikeSave(games: seq<Game>, selected: Option<Uuid>, d: Draft, formId: Option<Uuid>, freshId: Uuid,
                            defaults: Defaults, dates: DateFormat, f: FetchResult)
    requires f == FetchMerge(games, selected, d, formId, freshId, defaults, dates)
    ensures f.selected == Some(formId.GetOr(freshId))
    ensures NameAccepted(d.name) ==> f.games == Save(games, selected, d, formId, freshId, false, defaults, dates).games
    ensures forall i :: FirstMatch(games, selected) == Some(i) ==> f.games[i].name == d.name
    ensures FirstMatch(games, selected).None? ==> f.games == games
    ensures |f.games| == |games|
    ensures forall i, j :: FirstMatch(games, selected) == Some(i) && 0 <= j < |games| && j != i ==> f.games[j] == games[j]
    ensures forall i, n :: FirstMatch(games, selected) == Some(i) && NameAccepted(n) ==>
      f.games[i] == Save(games, selected, d.(name := n), formId, freshId, false, defaults, dates).games[i].(name := d.name)
  {
  }

  // ---------------------------------------------------------------------------
  // The catalog and the editor's state

  /** The part of `GameViewModel` the editor uses: the catalog and its selection. */
  class Catalog {
    var games: seq<Game>
    var selectedGame: Option<Uuid>

    constructor(games: seq<Game>, selectedGame: Option<Uuid>)
      ensures this.games == games && this.selectedGame == selectedGame
    {
      this.games := games;
      this.selectedGame := selectedGame;
    }

    /** `games.firstIndex(where: { $0.id == selectedGame })`. */
    method FindSelected() returns (r: Option<nat>)
      ensures r == FirstMatch(games, selectedGame)
    {
      var i := 0;
      while i < |games|
        invariant 0 <= i <= |games|
        invariant forall j :: 0 <= j < i ==> Some(games[j].id) != selectedGame
      {
        if Some(games[i].id) == selectedGame {
          return Some(i);
        }
        i := i + 1;
      }
      return None;
    }

    /** `addGame`: the game joins the end of the catalog. */
    method AddGame(g: Game)
      modifies this
      ensures games == old(games) + [g]
      ensures selectedGame == old(selectedGame)
    {
      games := games + [g];
    }
  }

  /** The four toast bindings the editor sets: whether each toast shows, and its text. */
  datatype ToastState = ToastState(showSuccess: bool, successText: string, showFailure: bool, failureText: string)

  /** The bindings after the editor raises `toast`; the other toast is left alone. */
  function Raise(t: ToastState, toast: Option<Toast>): ToastState
  {
    match toast
    case None => t
    case Some(Success(text)) => t.(showSuccess := true, successText := text)
    case Some(Failure(text)) => t.(showFailure := true, failureText := text)
  }

  /** The editor's state: the draft fields, the id of the game it loaded, and the
      toast bindings it sets. */
  class GameForm {
    const catalog: Catalog
    const isNewGame: bool
    const defaults: Defaults
    const dates: DateFormat

    var id: Option<Uuid>
    /** The thirteen input fields (`nameInput` … `dateInput`), held as one value. */
    var draft: Draft

    /** The toast bindings, owned by the view that presents the editor. */
    var showSuccessToast: bool
    var successToastText: string
    var showFailureToast: bool
    var failureToastText: string
    var dismissed: bool

    function Toasts(): ToastState
      reads this
    {
      ToastState(showSuccessToast, successToastText, showFailureToast, failureToastText)
    }

    /** A new editor: the `@State` inputs take their initial values, and the toast
        bindings are whatever the presenting view holds. */
    constructor(catalog: Catalog, isNewGame: bool, defaults: Defaults, dates: DateFormat, now: Date, toasts: ToastState)
      ensures this.catalog == catalog && this.isNewGame == isNewGame && this.defaults == defaults && this.dates == dates
      ensures id == None && draft == BlankDraft(defaults, now)
      ensures Toasts() == toasts && !dismissed
    {
      this.catalog := catalog;
      this.isNewGame := isNewGame;
      this.defaults := defaults;
      this.dates := dates;
      id := None;
      draft := BlankDraft(defaults, now);
      showSuccessToast, successToastText := toasts.showSuccess, toasts.successText;
      showFailureToast, failureToastText := toasts.showFailure, toasts.failureText;
      dismissed := false;
    }

    /** `onAppear`: an editor for an existing game loads the selected record. */
    method Appear()
      modifies this
      ensures !isNewGame && FirstMatch(catalog.games, catalog.selectedGame).Some? ==>
        var i := FirstMatch(catalog.games, catalog.selectedGame).value;
        && id == Some(catalog.games[i].id) && id == catalog.selectedGame
        && draft == LoadInto(old(draft), catalog.games[i], dates)
      ensures isNewGame || FirstMatch(catalog.games, catalog.selectedGame).None? ==>
        id == old(id) && draft == old(draft)
      ensures Toasts() == old(Toasts()) && dismissed == old(dismissed)
    {
      if !isNewGame {
        var idx := catalog.FindSelected();
        if idx.Some? {
          var current := catalog.games[idx.value];
          id := Some(current.id);
          draft := LoadInto(draft, current, dates);
        }
      }
    }

    /** "Save Game". */
    method SaveGame(freshId: Uuid) returns (outcome: SaveOutcome)
      modifies this, catalog
      ensures SaveResult(outcome, catalog.games)
        == Save(old(catalog.games), old(catalog.selectedGame), old(draft), old(id), freshId, isNewGame, defaults, dates)
      ensures catalog.selectedGame == old(catalog.selectedGame)
      ensures id == old(id) && draft == old(draft)
      ensures Toasts() == Raise(old(Toasts()), ToastFor(outcome))
      ensures dismissed == (old(dismissed) || !outcome.Added?)
    {
      if !NameAccepted(draft.name) {
        failureToastText := "Game must have a name.";
        showFailureToast := true;
        dismissed := true;
        return NameMissing;
      }
      var game := BuildRecord(draft, id.GetOr(freshId), defaults, dates);
      if isNewGame {
        catalog.AddGame(game);
        outcome := Added(game);
      } else {
        var idx := catalog.FindSelected();
        if idx.Some? {
          game := Carried(game, catalog.games[idx.value]);
          catalog.games := catalog.games[idx.value := game];
          successToastText := "Game saved!";
          showSuccessToast := true;
          outcome := Saved(game);
        } else {
          failureToastText := "Game couldn't be found.";
          showFailureToast := true;
          outcome := NotFound;
        }
        dismissed := true;
      }
    }

    /** The synchronous part of "Fetch Metadata", a button only an editor for an
        existing game shows. */
    method FetchMetadata(freshId: Uuid)
      requires !isNewGame
      modifies catalog
      ensures FetchResult(catalog.games, catalog.selectedGame)
        == FetchMerge(old(catalog.games), old(catalog.selectedGame), draft, id, freshId, defaults, dates)
    {
      var game := BuildRecord(draft, id.GetOr(freshId), defaults, dates);
      var idx := catalog.FindSelected();
      if idx.Some? {
        game := Carried(game, catalog.games[idx.value]);
        catalog.games := catalog.games[idx.value := game];
      }
      catalog.selectedGame := Some(game.id);
    }
  }
}
