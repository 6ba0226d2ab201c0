/**
 * The Pokédex route: the loader's data, the toggle/clear action, and the
 * decisions the page makes from them (disabled cards, team heading, clear
 * button, page controls).
 */
module Pokedex {
  import opened Wrappers
  import opened Pokemons
  import opened Sequences
  import opened Text
  import opened Team
  import opened TeamStore
  import opened Catalogue
  import opened Pagination

  /** The single identity both the loader and the action use. */
  const DemoUser: UserId := "demo-user"

  /** What the loader hands to the page. */
  datatype LoaderData = LoaderData(pokemonList: seq<Pokemon>, userTeam: seq<Pokemon>, pagination: PageInfo, searchTerm: string)

  /**
   * The loader, given the catalogue the client fetched, the roster store, the
   * `search` parameter and the parsed `page` number.
   */
  function Loader(catalogue: seq<Pokemon>, store: Store, search: Option<string>, page: int): (d: LoaderData)
    ensures d.userTeam == GetUserTeam(store, DemoUser)
    ensures d.searchTerm == SearchTerm(search)
    ensures |d.pokemonList| <= PageSize
    ensures forall p :: p in d.pokemonList ==> p in catalogue && NameOrTypeContains(p, d.searchTerm)
    ensures d.pagination.currentPage == page
    ensures d.pagination.totalPages == TotalPages(|FilterCatalogue(catalogue, d.searchTerm)|)
    ensures page >= 1 ==> (d.pokemonList != [] <==> page <= d.pagination.totalPages)
    ensures d.pokemonList == Page(FilterCatalogue(catalogue, d.searchTerm), page)
    ensures d.pagination == Paginate(|FilterCatalogue(catalogue, d.searchTerm)|, page)
  {
    var term := SearchTerm(search);
    var filtered := FilterCatalogue(catalogue, term);
    var shown := Page(filtered, page);
    assert forall p :: p in shown ==> p in filtered by {
      var a :| IsSegmentAt(shown, filtered, a);
      forall p | p in shown ensures p in filtered {
        var i :| 0 <= i < |shown| && shown[i] == p;
        assert filtered[a + i] == p;
      }
    }
    LoaderData(shown, GetUserTeam(store, DemoUser), Paginate(|filtered|, page), term)
  }

  /** Without a search, page one lists the first twenty-four catalogue entries (or all of them). */
  lemma {:induction false} DefaultLoaderShowsCatalogueStart(catalogue: seq<Pokemon>, store: Store)
    ensures Loader(catalogue, store, None, 1).pokemonList == catalogue[..Min(PageSize, |catalogue|)]
  {
    EmptySearchKeepsAll(catalogue);
  }

  /** The form intents the action understands; JSON decoding of the Pokémon is left out. */
  datatype Intent = ToggleIntent(pokemon: Pokemon) | ClearIntent | UnknownIntent

  /** The action's JSON response: status, `success`, the optional `team` and `message`. */
  datatype ActionData = ActionData(status: nat, success: bool, team: Option<seq<Pokemon>>, message: Option<string>)

  /**
   * The message of a toggle response, as written: the inner "team full"
   * alternative sits under a test that already requires success.
   */
  function ToggleMessage(success: bool, name: string): (m: Option<string>)
    ensures success ==> m == Some(name + " updated in team")
    ensures !success ==> m == None
    ensures m != Some(name + " could not be added (team full)")
  {
    if success then
      var m := name + (if success then " updated in team" else " could not be added (team full)");
      assert m[|name| + 1] == 'u';
      assert (name + " could not be added (team full)")[|name| + 1] == 'c';
      Some(m)
    else None
  }

  /** The action for the demo user. */
  function Action(store: Store, intent: Intent): (r: (Store, ActionData))
    ensures r.1.status == (if intent.UnknownIntent? then 400 else 200)
    ensures intent.UnknownIntent? ==> r.0 == store && !r.1.success && r.1.team == None
    ensures !intent.UnknownIntent? ==> r.1.team == Some(GetUserTeam(r.0, DemoUser))
    ensures intent.ClearIntent? ==> r.1.success && GetUserTeam(r.0, DemoUser) == []
    ensures intent.ToggleIntent? ==>
              && r.1.success == ToggleTeam(GetUserTeam(store, DemoUser), intent.pokemon).outcome.Succeeded()
              && GetUserTeam(r.0, DemoUser) == ToggleTeam(GetUserTeam(store, DemoUser), intent.pokemon).team
              && (r.1.message.Some? <==> r.1.success)
              && r.1.message == ToggleMessage(r.1.success, intent.pokemon.name)
    ensures intent.ClearIntent? ==> r.0 == ClearTeam(store, DemoUser) && r.1.message == Some("Team cleared")
    ensures intent.UnknownIntent? ==> r.1.message == Some("Invalid action")
    ensures forall v :: v != DemoUser ==> GetUserTeam(r.0, v) == GetUserTeam(store, v)
  {
    match intent
    case ToggleIntent(p) =>
      var (next, success) := TogglePokemonInTeam(store, DemoUser, p);
      (next, ActionData(200, success, Some(GetUserTeam(next, DemoUser)), ToggleMessage(success, p.name)))
    case ClearIntent =>
      (ClearTeam(store, DemoUser), ActionData(200, true, Some([]), Some("Team cleared")))
    case UnknownIntent =>
      (store, ActionData(400, false, None, Some("Invalid action")))
  }

  /** Every action keeps every stored team well formed. */
  lemma {:induction false} ActionKeepsValidStore(store: Store, intent: Intent)
    requires ValidStore(store)
    ensures ValidStore(Action(store, intent).0)
  {
    match intent
    case ToggleIntent(p) => ToggleKeepsValidStore(store, DemoUser, p);
    case ClearIntent => ClearKeepsValidStore(store, DemoUser);
    case UnknownIntent =>
  }

  /** After an action, the page reloads with the very team the action reported. */
  lemma {:induction false} ReloadShowsReportedTeam(store: Store, intent: Intent, catalogue: seq<Pokemon>, search: Option<string>, page: int)
    requires !intent.UnknownIntent?
    ensures Some(Loader(catalogue, Action(store, intent).0, search, page).userTeam) == Action(store, intent).1.team
  {
  }

  /**
   * The team the page shows: the team in the action's response when there is
   * one (an empty array is truthy, so even an empty team wins), otherwise the
   * loader's team.
   */
  function CurrentTeam(actionTeam: Option<seq<Pokemon>>, userTeam: seq<Pokemon>): (team: seq<Pokemon>)
    ensures actionTeam.Some? ==> team == actionTeam.value
    ensures actionTeam.None? ==> team == userTeam
  {
    actionTeam.GetOr(userTeam)
  }

  /**
   * The "disabled" rule of a catalogue card's button: the card is not in a
   * full team, or an update is in flight.
   */
  function CardDisabled(currentTeam: seq<Pokemon>, p: Pokemon, isUpdating: bool): (disabled: bool)
    ensures isUpdating ==> disabled
    ensures !isUpdating ==> (disabled <==> ToggleTeam(currentTeam, p).outcome == Rejected)
  {
    (!HasId(currentTeam, p.id) && |currentTeam| >= MaxTeamSize) || isUpdating
  }

  /** With no update in flight, against the stored team: a disabled card is exactly a toggle the service would refuse. */
  lemma {:induction false} DisabledIffServiceRefuses(store: Store, p: Pokemon)
    ensures CardDisabled(GetUserTeam(store, DemoUser), p, false) <==> !TogglePokemonInTeam(store, DemoUser, p).1
  {
    ToggleFailsOnlyWhenFull(store, DemoUser, p);
  }

  /** The text before and after the team size in the team heading. */
  const HeadingPrefix: string := "Your Team ("
  const HeadingSuffix: string := "/6)"

  /** The team heading: the prefix, the team size in decimal, the suffix. */
  function TeamHeading(team: seq<Pokemon>): (h: string)
    ensures |h| > |HeadingPrefix| + |HeadingSuffix|
    ensures h[..|HeadingPrefix|] == HeadingPrefix
    ensures h[|h| - |HeadingSuffix|..] == HeadingSuffix
    ensures forall i :: 0 <= i < |HeadingCount(h)| ==> IsDigit(HeadingCount(h)[i])
    ensures |team| <= MaxTeamSize ==> |HeadingCount(h)| == 1
  {
    var digits := NatToString(|team|);
    var h := HeadingPrefix + digits + HeadingSuffix;
    assert HeadingCount(h) == digits;
    h
  }

  /** The part of a heading between its prefix and its suffix. */
  function HeadingCount(h: string): string
    requires |h| >= |HeadingPrefix| + |HeadingSuffix|
  {
    h[|HeadingPrefix|..|h| - |HeadingSuffix|]
  }

  /** The count in the heading reads back as the number of team members. */
  lemma {:induction false} TeamHeadingShowsSize(team: seq<Pokemon>)
    ensures DecimalValue(HeadingCount(TeamHeading(team))) == |team|
  {
    var digits := NatToString(|team|);
    assert HeadingCount(HeadingPrefix + digits + HeadingSuffix) == digits;
    NatToStringRoundTrip(|team|);
  }

  /** The "Clear Team" button is shown only for a non-empty team. */
  function ShowClearButton(currentTeam: seq<Pokemon>): (shown: bool)
    ensures shown <==> currentTeam != []
  {
    |currentTeam| > 0
  }

  /** After a clear, the page shows an empty team and no "Clear Team" button. */
  lemma {:induction false} ClearHidesClearButton(store: Store, userTeam: seq<Pokemon>)
    ensures CurrentTeam(Action(store, ClearIntent).1.team, userTeam) == []
    ensures !ShowClearButton(CurrentTeam(Action(store, ClearIntent).1.team, userTeam))
  {
  }
}
