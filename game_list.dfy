/** The sections of the sidebar list (`GameListView.body`): the catalog filtered by
    the search text, favorites first, the rest grouped by the chosen sort mode. */
module GameList {
  import opened GameModel
  import opened Text

  /** `PhoenixApp.SortBy`. */
  datatype SortBy = ByPlatform | ByStatus | ByName | ByRecency

  /** What a section holds, and the title its header shows. */
  datatype Group =
    | Favorites
    | PlatformGroup(platform: Platform)
    | StatusGroup(status: Status)
    | NameGroup
    | RecencyGroup(recency: Recency)

  /** A `Section`: its group, the `(count)` its header shows if any, and its games. */
  datatype Section = Section(group: Group, count: Option<nat>, games: seq<Game>)

  /** `Platform.allCases`, `Status.allCases` and `Recency.allCases`, in declaration order. */
  datatype EnumCases = EnumCases(platforms: seq<Platform>, statuses: seq<Status>, recencies: seq<Recency>)

  predicate Distinct<T(==)>(s: seq<T>)
  {
    forall i, j :: 0 <= i < j < |s| ==> s[i] != s[j]
  }

  /** Case lists as Swift produces them: no case listed twice. */
  predicate WellFormedCases(cases: EnumCases)
  {
    Distinct(cases.platforms) && Distinct(cases.statuses) && Distinct(cases.recencies)
  }

  /** The name filter shared by every section. */
  predicate Matches(g: Game, search: string)
  {
    ContainsIgnoringCase(g.name, search) || search == []
  }

  /** Shown at all: not hidden, and matching the search. */
  predicate Listed(g: Game, search: string)
  {
    !g.isHidden && Matches(g, search)
  }

  /** The filter of the section for `grp`. */
  predicate Belongs(g: Game, search: string, grp: Group)
  {
    Listed(g, search) &&
    match grp
    case Favorites => g.isFavorite
    case PlatformGroup(p) => g.platform == p && !g.isFavorite
    case StatusGroup(s) => g.status == s && !g.isFavorite
    case NameGroup => !g.isFavorite
    case RecencyGroup(r) => g.recency == r && !g.isFavorite
  }

  /** The group a listed game is shown under in a sort mode. */
  function GroupOf(g: Game, sortBy: SortBy): Group
  {
    if g.isFavorite then Favorites
    else
      match sortBy
      case ByPlatform => PlatformGroup(g.platform)
      case ByStatus => StatusGroup(g.status)
      case ByName => NameGroup
      case ByRecency => RecencyGroup(g.recency)
  }

  /** `games.filter { ... }` with the filter of `grp`: stable, so catalog order is kept. */
  function Select(games: seq<Game>, search: string, grp: Group): seq<Game>
  {
    if games == [] then []
    else
      var last := games[|games| - 1];
      Select(games[..|games| - 1], search, grp) + (if Belongs(last, search, grp) then [last] else [])
  }

  /** The filter keeps exactly the catalog entries that satisfy it. */
  lemma {:induction false} SelectMembers(games: seq<Game>, search: string, grp: Group)
    ensures forall g :: g in Select(games, search, grp) <==> g in games && Belongs(g, search, grp)
  {
    if games != [] {
      var n := |games| - 1;
      SelectMembers(games[..n], search, grp);
      assert games == games[..n] + [games[n]];
    }
  }

  /** The catalog indices the filter keeps, ascending. */
  function Positions(games: seq<Game>, search: string, grp: Group): seq<nat>
  {
    if games == [] then []
    else
      var n := |games| - 1;
      Positions(games[..n], search, grp) + (if Belongs(games[n], search, grp) then [n] else [])
  }

  lemma {:induction false} PositionsPickSelected(games: seq<Game>, search: string, grp: Group, sel: seq<Game>, pos: seq<nat>)
    requires sel == Select(games, search, grp) && pos == Positions(games, search, grp)
    ensures |pos| == |sel|
    ensures forall k :: 0 <= k < |pos| ==> pos[k] < |games| && sel[k] == games[pos[k]]
  {
    if games != [] {
      var n := |games| - 1;
      var sel0, pos0 := Select(games[..n], search, grp), Positions(games[..n], search, grp);
      PositionsPickSelected(games[..n], search, grp, sel0, pos0);
      assert forall k :: 0 <= k < |pos0| ==> games[..n][pos0[k]] == games[pos0[k]];
    }
  }

  lemma {:induction false} PositionsAscend(games: seq<Game>, search: string, grp: Group, pos: seq<nat>)
    requires pos == Positions(games, search, grp)
    ensures forall k :: 0 <= k < |pos| ==> pos[k] < |games|
    ensures forall k, l :: 0 <= k < l < |pos| ==> pos[k] < pos[l]
  {
    if games != [] {
      var n := |games| - 1;
      var pos0 := Positions(games[..n], search, grp);
      PositionsAscend(games[..n], search, grp, pos0);
      assert |games[..n]| == n;
      assert pos == pos0 + (if Belongs(games[n], search, grp) then [n] else []);
      assert forall k :: 0 <= k < |pos0| ==> pos[k] == pos0[k] && pos0[k] < n;
      assert |pos| > |pos0| ==> pos[|pos0|] == n;
    }
  }

  lemma {:induction false} PositionsExact(games: seq<Game>, search: string, grp: Group)
    ensures forall i :: 0 <= i < |games| ==> (i in Positions(games, search, grp) <==> Belongs(games[i], search, grp))
  {
    if games != [] {
      var n := |games| - 1;
      PositionsExact(games[..n], search, grp);
      var pos0 := Positions(games[..n], search, grp);
      PositionsAscend(games[..n], search, grp, pos0);
      assert |games[..n]| == n;
      forall i | 0 <= i < n
        ensures games[..n][i] == games[i]
      {
      }
      assert n !in pos0;
      assert Positions(games, search, grp) == pos0 + (if Belongs(games[n], search, grp) then [n] else []);
    }
  }

  /** A section's games are exactly the catalog entries that satisfy its filter,
      at strictly increasing catalog indices. */
  lemma SelectKeepsCatalogOrder(games: seq<Game>, search: string, grp: Group, sel: seq<Game>, pos: seq<nat>)
    requires sel == Select(games, search, grp) && pos == Positions(games, search, grp)
    ensures |pos| == |sel|
    ensures forall k :: 0 <= k < |pos| ==> pos[k] < |games| && sel[k] == games[pos[k]]
    ensures forall k, l :: 0 <= k < l < |pos| ==> pos[k] < pos[l]
    ensures forall i :: 0 <= i < |games| ==> (i in pos <==> Belongs(games[i], search, grp))
  {
    PositionsPickSelected(games, search, grp, sel, pos);
    PositionsAscend(games, search, grp, pos);
    PositionsExact(games, search, grp);
  }

  /** `"(\(count))"` when `showSortByNumber` is set, nothing otherwise. */
  function CountLabel(showCount: bool, n: nat): Option<nat>
  {
    if showCount then Some(n) else None
  }

  /** The groups of a list of sections, in order. */
  function GroupsOf(sections: seq<Section>): (r: seq<Group>)
    ensures |r| == |sections|
    ensures forall i :: 0 <= i < |sections| ==> r[i] == sections[i].group
  {
    seq(|sections|, i requires 0 <= i < |sections| => sections[i].group)
  }

  /** `a` is `b` with some elements left out. */
  predicate IsSubsequence<T(==)>(a: seq<T>, b: seq<T>)
    decreases |b|
  {
    a == [] || (b != [] && ((a[0] == b[0] && IsSubsequence(a[1..], b[1..])) || IsSubsequence(a, b[1..])))
  }

  /** A section showing the whole, non-empty filter of its group, under a header
      whose count is that filter's size when counts are shown. */
  predicate ShowsFilter(s: Section, games: seq<Game>, search: string, showCount: bool)
  {
    s.games != [] && s.games == Select(games, search, s.group) && s.count == CountLabel(showCount, |s.games|)
  }

  /** The section's games are exactly the catalog entries passing its group's filter. */
  ghost predicate HoldsExactly(s: Section, games: seq<Game>, search: string)
  {
    forall g :: g in s.games <==> g in games && Belongs(g, search, s.group)
  }

  lemma ShowsFilterHoldsExactly(s: Section, games: seq<Game>, search: string, showCount: bool)
    requires ShowsFilter(s, games, search, showCount)
    ensures HoldsExactly(s, games, search)
  {
    SelectMembers(games, search, s.group);
  }

  /** One section per group with a non-empty filter, in the order of `groups`; empty
      ones are left out (the `ForEach(X.allCases)` loops and the Favorites section). */
  function Buckets(games: seq<Game>, search: string, showCount: bool, groups: seq<Group>): (r: seq<Section>)
    ensures forall k :: 0 <= k < |r| ==> r[k].group in groups && ShowsFilter(r[k], games, search, showCount)
    ensures forall grp :: grp in groups && Select(games, search, grp) != [] ==> grp in GroupsOf(r)
    ensures IsSubsequence(GroupsOf(r), groups)
  {
    if groups == [] then []
    else
      var rest := Buckets(games, search, showCount, groups[1..]);
      var sel := Select(games, search, groups[0]);
      if sel == [] then
        rest
      else
        var r := [Section(groups[0], CountLabel(showCount, |sel|), sel)] + rest;
        assert GroupsOf(r) == [groups[0]] + GroupsOf(rest);
        r
  }

  /** Swift's `a.name < b.name` never holds of a later element and an earlier one. */
  predicate SortedByName(games: seq<Game>)
  {
    forall i, j :: 0 <= i < j < |games| ==> !Below(games[j].name, games[i].name)
  }

  function InsertByName(g: Game, games: seq<Game>): (r: seq<Game>)
    requires SortedByName(games)
    ensures SortedByName(r)
    ensures multiset(r) == multiset(games) + multiset{g}
  {
    if games == [] then [g]
    else if !Below(games[0].name, g.name) then
      forall j | 0 <= j < |games|
        ensures !Below(games[j].name, g.name)
      {
        if j > 0 {
          NotBelowTransitive(g.name, games[0].name, games[j].name);
        }
      }
      [g] + games
    else
      var tail := InsertByName(g, games[1..]);
      assert games == [games[0]] + games[1..];
      forall x | x in tail
        ensures !Below(x.name, games[0].name)
      {
        assert x in multiset(tail);
        if x != g {
          assert x in games[1..];
        } else {
          BelowAsymmetric(games[0].name, g.name);
        }
      }
      [games[0]] + tail
  }

  /** `sorted(by: { $0.name < $1.name })`: ascending by name, a permutation of its input. */
  function SortByName(games: seq<Game>): (r: seq<Game>)
    ensures SortedByName(r)
    ensures multiset(r) == multiset(games)
  {
    if games == [] then []
    else
      assert games == [games[0]] + games[1..];
      InsertByName(games[0], SortByName(games[1..]))
  }

  /** The single "Name" section of name mode, which never shows a count. */
  function NameSection(games: seq<Game>, search: string): (r: seq<Section>)
    ensures |r| <= 1
    ensures r == [] <==> Select(games, search, NameGroup) == []
    ensures r != [] ==> r[0].group == NameGroup && r[0].count == None
    ensures r != [] ==> SortedByName(r[0].games)
    ensures r != [] ==> multiset(r[0].games) == multiset(Select(games, search, NameGroup))
  {
    var sel := Select(games, search, NameGroup);
    if sel == [] then [] else [Section(NameGroup, None, SortByName(sel))]
  }

  /** The groups a sort mode lays out, in `allCases` order. */
  function ModeGroups(sortBy: SortBy, cases: EnumCases): seq<Group>
  {
    match sortBy
    case ByPlatform => seq(|cases.platforms|, i requires 0 <= i < |cases.platforms| => PlatformGroup(cases.platforms[i]))
    case ByStatus => seq(|cases.statuses|, i requires 0 <= i < |cases.statuses| => StatusGroup(cases.statuses[i]))
    case ByName => [NameGroup]
    case ByRecency => seq(|cases.recencies|, i requires 0 <= i < |cases.recencies| => RecencyGroup(cases.recencies[i]))
  }

  /** Every group a section may have in a sort mode, in display order. */
  function AllGroups(sortBy: SortBy, cases: EnumCases): seq<Group>
  {
    [Favorites] + ModeGroups(sortBy, cases)
  }

  /** The Favorites section, shown first whatever the sort mode and only when
      some listed game is a favorite. */
  function FavoritesSection(games: seq<Game>, search: string, showCount: bool): (r: seq<Section>)
    ensures |r| <= 1
    ensures r != [] <==> exists g :: g in games && Belongs(g, search, Favorites)
    ensures r != [] ==> r[0].group == Favorites && ShowsFilter(r[0], games, search, showCount)
  {
    var favs := Select(games, search, Favorites);
    SelectMembers(games, search, Favorites);
    if favs == [] then []
    else
      assert favs[0] in favs;
      [Section(Favorites, CountLabel(showCount, |favs|), favs)]
  }

  /** The sections of the `switch sortBy` that follows the Favorites section. */
  function ModeSections(games: seq<Game>, search: string, sortBy: SortBy, showCount: bool, cases: EnumCases): seq<Section>
  {
    if sortBy == ByName then NameSection(games, search)
    else Buckets(games, search, showCount, ModeGroups(sortBy, cases))
  }

  /** The list `GameListView.body` renders, section by section. */
  function Sections(games: seq<Game>, search: string, sortBy: SortBy, showCount: bool, cases: EnumCases): seq<Section>
  {
    FavoritesSection(games, search, showCount) + ModeSections(games, search, sortBy, showCount, cases)
  }

  /** The game's own field is one of the listed cases of its sort mode (always so
      for a Swift enum and its `allCases`). */
  predicate Covered(g: Game, sortBy: SortBy, cases: EnumCases)
  {
    match sortBy
    case ByPlatform => g.platform in cases.platforms
    case ByStatus => g.status in cases.statuses
    case ByName => true
    case ByRecency => g.recency in cases.recencies
  }

  // ---------------------------------------------------------------------------
  // Properties of the section list

  lemma {:induction false} SubsequenceMembers<T>(a: seq<T>, b: seq<T>)
    requires IsSubsequence(a, b)
    ensures forall x :: x in a ==> x in b
    decreases |b|
  {
    if a != [] {
      if a[0] == b[0] && IsSubsequence(a[1..], b[1..]) {
        SubsequenceMembers(a[1..], b[1..]);
        assert a == [a[0]] + a[1..];
      } else {
        SubsequenceMembers(a, b[1..]);
      }
    }
  }

  lemma {:induction false} SubsequenceDistinct<T>(a: seq<T>, b: seq<T>)
    requires IsSubsequence(a, b) && Distinct(b)
    ensures Distinct(a)
    decreases |b|
  {
    if a != [] {
      if a[0] == b[0] && IsSubsequence(a[1..], b[1..]) {
        SubsequenceDistinct(a[1..], b[1..]);
        SubsequenceMembers(a[1..], b[1..]);
        forall j | 0 < j < |a|
          ensures a[0] != a[j]
        {
          assert a[j] == a[1..][j - 1];
          assert a[j] in b[1..];
        }
      } else {
        SubsequenceDistinct(a, b[1..]);
      }
    }
  }

  lemma {:induction false} SubsequenceExtendLeft<T>(a: seq<T>, b: seq<T>, c: seq<T>)
    requires IsSubsequence(a, b)
    ensures IsSubsequence(a, c + b)
    decreases |c|
  {
    if c == [] {
      assert c + b == b;
    } else if a != [] {
      SubsequenceExtendLeft(a, b, c[1..]);
      assert (c + b)[1..] == c[1..] + b;
      assert IsSubsequence(a, (c + b)[1..]);
    }
  }

  lemma {:induction false} SubsequenceAppend<T>(a1: seq<T>, b1: seq<T>, a2: seq<T>, b2: seq<T>)
    requires IsSubsequence(a1, b1) && IsSubsequence(a2, b2)
    ensures IsSubsequence(a1 + a2, b1 + b2)
    decreases |b1|
  {
    if a1 == [] {
      assert a1 + a2 == a2;
      SubsequenceExtendLeft(a2, b2, b1);
    } else {
      assert (b1 + b2)[1..] == b1[1..] + b2;
      if a1[0] == b1[0] && IsSubsequence(a1[1..], b1[1..]) {
        SubsequenceAppend(a1[1..], b1[1..], a2, b2);
        assert (a1 + a2)[1..] == a1[1..] + a2;
      } else {
        SubsequenceAppend(a1, b1[1..], a2, b2);
      }
    }
  }

  /** Within the groups of one sort mode, a listed game satisfies exactly the filter
      of the group it is shown under. */
  lemma BelongsOnlyToItsGroup(g: Game, search: string, sortBy: SortBy, cases: EnumCases, grp: Group)
    requires grp in AllGroups(sortBy, cases)
    ensures Belongs(g, search, grp) <==> Listed(g, search) && grp == GroupOf(g, sortBy)
  {
    if grp != Favorites {
      assert grp in ModeGroups(sortBy, cases);
    }
  }

  lemma AllGroupsDistinct(sortBy: SortBy, cases: EnumCases)
    requires WellFormedCases(cases)
    ensures Distinct(AllGroups(sortBy, cases))
  {
    var all := AllGroups(sortBy, cases);
    forall i, j | 0 <= i < j < |all|
      ensures all[i] != all[j]
    {
      assert all[j] == ModeGroups(sortBy, cases)[j - 1];
      if i > 0 {
        assert all[i] == ModeGroups(sortBy, cases)[i - 1];
      }
    }
  }

  /** Within a sort mode's own groups there is no Favorites group, and a "Name"
      group only in name mode. */
  lemma ModeGroupShape(sortBy: SortBy, cases: EnumCases, grp: Group)
    requires grp in ModeGroups(sortBy, cases)
    ensures grp != Favorites
    ensures grp == NameGroup <==> sortBy == ByName
  {
    var i :| 0 <= i < |ModeGroups(sortBy, cases)| && ModeGroups(sortBy, cases)[i] == grp;
  }

  /** What each section after Favorites holds: in name mode the sorted "Name"
      section, otherwise the whole filter of one of the mode's groups. */
  lemma ModeSectionAt(games: seq<Game>, search: string, sortBy: SortBy, showCount: bool, cases: EnumCases, mode: seq<Section>, k: nat)
    requires mode == ModeSections(games, search, sortBy, showCount, cases) && k < |mode|
    ensures mode[k].group in ModeGroups(sortBy, cases)
    ensures mode[k].games != []
    ensures HoldsExactly(mode[k], games, search)
    ensures sortBy != ByName ==> ShowsFilter(mode[k], games, search, showCount)
    ensures sortBy == ByName ==>
      && mode[k].group == NameGroup
      && mode[k].count == None
      && SortedByName(mode[k].games)
      && multiset(mode[k].games) == multiset(Select(games, search, NameGroup))
  {
    if sortBy == ByName {
      var sel := Select(games, search, NameGroup);
      SelectMembers(games, search, NameGroup);
      forall g
        ensures g in mode[k].games <==> g in sel
      {
        assert g in mode[k].games <==> g in multiset(mode[k].games);
      }
      assert mode[k].games != [] by {
        assert sel[0] in multiset(mode[k].games);
      }
    } else {
      ShowsFilterHoldsExactly(mode[k], games, search, showCount);
    }
  }

  lemma ModeSectionsInOrder(games: seq<Game>, search: string, sortBy: SortBy, showCount: bool, cases: EnumCases, mode: seq<Section>)
    requires mode == ModeSections(games, search, sortBy, showCount, cases)
    ensures IsSubsequence(GroupsOf(mode), ModeGroups(sortBy, cases))
  {
    if sortBy == ByName && mode != [] {
      assert GroupsOf(mode) == [NameGroup];
      assert IsSubsequence(GroupsOf(mode)[1..], [NameGroup][1..]);
    }
  }

  /** Every group of the mode whose filter keeps some game has a section. */
  lemma ModeSectionsComplete(games: seq<Game>, search: string, sortBy: SortBy, showCount: bool, cases: EnumCases, mode: seq<Section>, grp: Group)
    requires mode == ModeSections(games, search, sortBy, showCount, cases)
    requires grp in ModeGroups(sortBy, cases) && Select(games, search, grp) != []
    ensures grp in GroupsOf(mode)
  {
    if sortBy == ByName {
      assert GroupsOf(mode)[0] == NameGroup;
    }
  }

  /** What any one section of the list holds and shows. */
  lemma SectionAt(games: seq<Game>, search: string, sortBy: SortBy, showCount: bool, cases: EnumCases, r: seq<Section>, k: nat)
    requires r == Sections(games, search, sortBy, showCount, cases) && k < |r|
    ensures r[k].group in AllGroups(sortBy, cases)
    ensures r[k].games != []
    ensures HoldsExactly(r[k], games, search)
    ensures r[k].count == (if showCount && r[k].group != NameGroup then Some(|r[k].games|) else None)
    ensures r[k].group == Favorites <==> k == 0 && FavoritesSection(games, search, showCount) != []
    ensures r[k].group == Favorites ==> r[k].games == Select(games, search, Favorites)
    ensures sortBy == ByName && r[k].group != Favorites ==>
      && SortedByName(r[k].games)
      && multiset(r[k].games) == multiset(Select(games, search, NameGroup))
  {
    var fav := FavoritesSection(games, search, showCount);
    var mode := ModeSections(games, search, sortBy, showCount, cases);
    if k < |fav| {
      assert r[k] == fav[0];
      ShowsFilterHoldsExactly(fav[0], games, search, showCount);
    } else {
      assert r == fav + mode && |r| == |fav| + |mode|;
      var j := k - |fav|;
      assert j < |mode|;
      ModeSectionAt(games, search, sortBy, showCount, cases, mode, j);
      assert r[k] == mode[j];
      ModeGroupShape(sortBy, cases, r[k].group);
    }
  }

  /** Each section's games are exactly the catalog entries passing its filter. */
  lemma SectionMembers(games: seq<Game>, search: string, sortBy: SortBy, showCount: bool, cases: EnumCases, r: seq<Section>)
    requires r == Sections(games, search, sortBy, showCount, cases)
    ensures forall k, g :: 0 <= k < |r| ==> (g in r[k].games <==> g in games && Belongs(g, search, r[k].group))
  {
    forall k | 0 <= k < |r|
      ensures HoldsExactly(r[k], games, search)
    {
      SectionAt(games, search, sortBy, showCount, cases, r, k);
    }
  }

  lemma FavoritesSectionInOrder(games: seq<Game>, search: string, showCount: bool)
    ensures IsSubsequence(GroupsOf(FavoritesSection(games, search, showCount)), [Favorites])
  {
    var fav := FavoritesSection(games, search, showCount);
    if fav != [] {
      assert GroupsOf(fav) == [Favorites];
      assert IsSubsequence(GroupsOf(fav)[1..], [Favorites][1..]);
    }
  }

  lemma GroupsOfAppend(a: seq<Section>, b: seq<Section>)
    ensures GroupsOf(a + b) == GroupsOf(a) + GroupsOf(b)
  {
  }

  /** The sections' groups appear in display order: Favorites, then the mode's
      groups in `allCases` order, with groups left out but never reordered. */
  lemma SectionsInCaseOrder(games: seq<Game>, search: string, sortBy: SortBy, showCount: bool, cases: EnumCases, r: seq<Section>)
    requires r == Sections(games, search, sortBy, showCount, cases)
    ensures IsSubsequence(GroupsOf(r), AllGroups(sortBy, cases))
  {
    var fav := FavoritesSection(games, search, showCount);
    var mode := ModeSections(games, search, sortBy, showCount, cases);
    GroupsOfAppend(fav, mode);
    FavoritesSectionInOrder(games, search, showCount);
    ModeSectionsInOrder(games, search, sortBy, showCount, cases, mode);
    SubsequenceAppend(GroupsOf(fav), [Favorites], GroupsOf(mode), ModeGroups(sortBy, cases));
  }

  /** No two sections share a group: at most one Favorites section, at most one
      "Name" section, at most one section per case. */
  lemma SectionGroupsDistinct(games: seq<Game>, search: string, sortBy: SortBy, showCount: bool, cases: EnumCases, r: seq<Section>)
    requires WellFormedCases(cases)
    requires r == Sections(games, search, sortBy, showCount, cases)
    ensures Distinct(GroupsOf(r))
  {
    SectionsInCaseOrder(games, search, sortBy, showCount, cases, r);
    AllGroupsDistinct(sortBy, cases);
    SubsequenceDistinct(GroupsOf(r), AllGroups(sortBy, cases));
  }

  /** A hidden game is in no section, whatever the search text and sort mode. */
  lemma HiddenGameInNoSection(games: seq<Game>, search: string, sortBy: SortBy, showCount: bool, cases: EnumCases, g: Game)
    requires g.isHidden
    ensures forall s :: s in Sections(games, search, sortBy, showCount, cases) ==> g !in s.games
  {
    var r := Sections(games, search, sortBy, showCount, cases);
    forall s | s in r
      ensures g !in s.games
    {
      var k :| 0 <= k < |r| && r[k] == s;
      SectionAt(games, search, sortBy, showCount, cases, r, k);
    }
  }

  /** An empty search text lists every game that is not hidden. */
  lemma EmptySearchMatchesEverything(g: Game)
    ensures Listed(g, []) <==> !g.isHidden
  {
  }

  /** The Favorites section comes first, exactly when some listed game is a favorite;
      it holds exactly the listed favorites, in catalog order; no later section
      holds a favorite. */
  lemma FavoritesLead(games: seq<Game>, search: string, sortBy: SortBy, showCount: bool, cases: EnumCases, r: seq<Section>)
    requires r == Sections(games, search, sortBy, showCount, cases)
    ensures (exists g :: g in games && Belongs(g, search, Favorites)) <==> (r != [] && r[0].group == Favorites)
    ensures r != [] && r[0].group == Favorites ==> r[0].games == Select(games, search, Favorites)
    ensures forall k, g :: 0 < k < |r| && g in r[k].games ==> !g.isFavorite
  {
    if r != [] {
      SectionAt(games, search, sortBy, showCount, cases, r, 0);
    }
    forall k, g | 0 < k < |r| && g in r[k].games
      ensures !g.isFavorite
    {
      SectionAt(games, search, sortBy, showCount, cases, r, k);
    }
  }

  lemma CoveredGroupListed(g: Game, sortBy: SortBy, cases: EnumCases)
    requires Covered(g, sortBy, cases)
    ensures GroupOf(g, sortBy) in AllGroups(sortBy, cases)
  {
    var grp := GroupOf(g, sortBy);
    var modes := ModeGroups(sortBy, cases);
    if !g.isFavorite {
      match sortBy
      case ByPlatform =>
        var i :| 0 <= i < |cases.platforms| && cases.platforms[i] == g.platform;
        assert modes[i] == grp;
      case ByStatus =>
        var i :| 0 <= i < |cases.statuses| && cases.statuses[i] == g.status;
        assert modes[i] == grp;
      case ByRecency =>
        var i :| 0 <= i < |cases.recencies| && cases.recencies[i] == g.recency;
        assert modes[i] == grp;
      case ByName =>
      assert grp in modes;
    }
  }

  /** A listed game whose field is one of the listed cases has a section for its group. */
  lemma ListedGameShown(games: seq<Game>, search: string, sortBy: SortBy, showCount: bool, cases: EnumCases, r: seq<Section>, g: Game)
    requires r == Sections(games, search, sortBy, showCount, cases)
    requires g in games && Listed(g, search) && Covered(g, sortBy, cases)
    ensures exists k :: 0 <= k < |r| && r[k].group == GroupOf(g, sortBy) && g in r[k].games
  {
    var fav := FavoritesSection(games, search, showCount);
    var mode := ModeSections(games, search, sortBy, showCount, cases);
    var grp := GroupOf(g, sortBy);
    assert Belongs(g, search, grp);
    SelectMembers(games, search, grp);
    if g.isFavorite {
      SectionAt(games, search, sortBy, showCount, cases, r, 0);
      assert r[0].group == grp && g in r[0].games;
    } else {
      CoveredGroupListed(g, sortBy, cases);
      assert grp in ModeGroups(sortBy, cases);
      ModeSectionsComplete(games, search, sortBy, showCount, cases, mode, grp);
      var j :| 0 <= j < |mode| && GroupsOf(mode)[j] == grp;
      ModeSectionAt(games, search, sortBy, showCount, cases, mode, j);
      assert r[|fav| + j] == mode[j];
    }
  }

  /** In every sort mode, a listed game whose field is one of the listed cases is in
      exactly one section: the one for its own group (Favorites for a favorite). */
  lemma ListedGameInExactlyOneSection(games: seq<Game>, search: string, sortBy: SortBy, showCount: bool, cases: EnumCases, r: seq<Section>, g: Game)
    requires WellFormedCases(cases)
    requires r == Sections(games, search, sortBy, showCount, cases)
    requires g in games && Listed(g, search) && Covered(g, sortBy, cases)
    ensures exists k :: 0 <= k < |r| && r[k].group == GroupOf(g, sortBy) && g in r[k].games
    ensures forall k :: 0 <= k < |r| && g in r[k].games ==> r[k].group == GroupOf(g, sortBy)
    ensures forall k, l :: 0 <= k < |r| && 0 <= l < |r| && g in r[k].games && g in r[l].games ==> k == l
  {
    ListedGameShown(games, search, sortBy, showCount, cases, r, g);
    forall k | 0 <= k < |r| && g in r[k].games
      ensures r[k].group == GroupOf(g, sortBy)
    {
      SectionAt(games, search, sortBy, showCount, cases, r, k);
      BelongsOnlyToItsGroup(g, search, sortBy, cases, r[k].group);
    }
    SectionGroupsDistinct(games, search, sortBy, showCount, cases, r);
    forall k, l | 0 <= k < |r| && 0 <= l < |r| && g in r[k].games && g in r[l].games
      ensures k == l
    {
      assert GroupsOf(r)[k] == GroupsOf(r)[l];
    }
  }

  /** Name mode adds at most one section after Favorites: the "Name" section, with
      no count, holding the listed non-favorites sorted ascending by name. */
  lemma NameModeSingleSortedSection(games: seq<Game>, search: string, showCount: bool, cases: EnumCases, r: seq<Section>)
    requires r == Sections(games, search, ByName, showCount, cases)
    ensures |r| <= 2
    ensures forall k, l :: 0 <= k < l < |r| ==> !(r[k].group == NameGroup && r[l].group == NameGroup)
    ensures forall k :: 0 <= k < |r| && r[k].group != Favorites ==>
      && r[k].group == NameGroup
      && r[k].count == None
      && SortedByName(r[k].games)
      && multiset(r[k].games) == multiset(Select(games, search, NameGroup))
  {
    OneNameSection(games, search, showCount, cases, r);
    forall k | 0 <= k < |r| && r[k].group != Favorites
      ensures r[k].group == NameGroup
    {
      SectionAt(games, search, ByName, showCount, cases, r, k);
      ModeGroupShape(ByName, cases, r[k].group);
    }
    forall k | 0 <= k < |r|
      ensures r[k].group != Favorites ==> r[k].count == None && SortedByName(r[k].games)
      ensures r[k].group != Favorites ==> multiset(r[k].games) == multiset(Select(games, search, NameGroup))
    {
      SectionAt(games, search, ByName, showCount, cases, r, k);
    }
  }

  /** In name mode no two sections are "Name" sections. */
  lemma OneNameSection(games: seq<Game>, search: string, showCount: bool, cases: EnumCases, r: seq<Section>)
    requires r == Sections(games, search, ByName, showCount, cases)
    ensures |r| <= 2
    ensures forall k, l :: 0 <= k < l < |r| ==> !(r[k].group == NameGroup && r[l].group == NameGroup)
  {
    var fav := FavoritesSection(games, search, showCount);
    var mode := ModeSections(games, search, ByName, showCount, cases);
    assert r == fav + mode && |mode| <= 1;
    forall k, l | 0 <= k < l < |r|
      ensures !(r[k].group == NameGroup && r[l].group == NameGroup)
    {
      assert k == 0 && |fav| == 1 && r[k] == fav[0];
    }
  }

  /** A header shows `(count)`, equal to its section's size, exactly when
      `showSortByNumber` is set; the "Name" header never does. */
  lemma HeaderCounts(games: seq<Game>, search: string, sortBy: SortBy, showCount: bool, cases: EnumCases, r: seq<Section>)
    requires r == Sections(games, search, sortBy, showCount, cases)
    ensures forall k :: 0 <= k < |r| ==>
      r[k].count == (if showCount && r[k].group != NameGroup then Some(|r[k].games|) else None)
  {
    forall k | 0 <= k < |r|
      ensures r[k].count == (if showCount && r[k].group != NameGroup then Some(|r[k].games|) else None)
    {
      SectionAt(games, search, sortBy, showCount, cases, r, k);
    }
  }
}
