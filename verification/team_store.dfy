/**
 * `PokemonService`'s in-memory roster store: a map from user identifier to
 * that user's ordered team, with read, clear and toggle.
 */
module TeamStore {
  import opened Pokemons
  import opened Team

  type UserId = string

  /** The `userTeams` map; a user without an entry has the empty team. */
  type Store = map<UserId, seq<Pokemon>>

  /** Every stored team keeps the roster invariants. */
  ghost predicate ValidStore(store: Store)
  {
    forall u :: u in store ==> WellFormed(store[u])
  }

  /** `getUserTeam`: the stored team, or the empty team for an unknown user. */
  function GetUserTeam(store: Store, u: UserId): (team: seq<Pokemon>)
    ensures u !in store ==> team == []
    ensures u in store ==> team == store[u]
  {
    if u in store then store[u] else []
  }

  /** `clearTeam`: forgets the user's entry; every other user keeps theirs. */
  function ClearTeam(store: Store, u: UserId): (r: Store)
    ensures u !in r && GetUserTeam(r, u) == []
    ensures r.Keys == store.Keys - {u}
    ensures forall v :: v != u ==> GetUserTeam(r, v) == GetUserTeam(store, v)
  {
    store - {u}
  }

  /**
   * `togglePokemonInTeam`: applies the roster toggle to the user's team and
   * stores the result, except that a rejected add leaves the store as it was
   * (no entry is created for it).
   */
  function TogglePokemonInTeam(store: Store, u: UserId, p: Pokemon): (r: (Store, bool))
    ensures r.1 == ToggleTeam(GetUserTeam(store, u), p).outcome.Succeeded()
    ensures GetUserTeam(r.0, u) == ToggleTeam(GetUserTeam(store, u), p).team
    ensures !r.1 ==> r.0 == store
    ensures r.1 ==> u in r.0
    ensures forall v :: v != u ==> (v in r.0 <==> v in store)
    ensures forall v :: v != u ==> GetUserTeam(r.0, v) == GetUserTeam(store, v)
  {
    var toggled := ToggleTeam(GetUserTeam(store, u), p);
    if toggled.outcome.Succeeded() then (store[u := toggled.team], true) else (store, false)
  }

  /** Clearing twice leaves the same store as clearing once. */
  lemma {:induction false} ClearTeamIdempotent(store: Store, u: UserId)
    ensures ClearTeam(ClearTeam(store, u), u) == ClearTeam(store, u)
  {
  }

  /** Clearing keeps every stored team well formed. */
  lemma {:induction false} ClearKeepsValidStore(store: Store, u: UserId)
    requires ValidStore(store)
    ensures ValidStore(ClearTeam(store, u))
  {
  }

  /** Toggling keeps every stored team well formed. */
  lemma {:induction false} ToggleKeepsValidStore(store: Store, u: UserId, p: Pokemon)
    requires ValidStore(store)
    ensures ValidStore(TogglePokemonInTeam(store, u, p).0)
  {
    var team := GetUserTeam(store, u);
    assert WellFormed(team);
    ToggleKeepsWellFormed(team, p);
  }

  /** A user who never toggled reads the empty team, and the first toggle adds. */
  lemma {:induction false} FirstToggleAdds(store: Store, u: UserId, p: Pokemon)
    requires u !in store
    ensures TogglePokemonInTeam(store, u, p) == (store[u := [p]], true)
  {
    assert !HasId([], p.id);
    assert [] + [p] == [p];
  }

  /**
   * A rejected add is the only failing toggle, and it happens exactly when the
   * user's team is full and does not hold the Pokémon.
   */
  lemma {:induction false} ToggleFailsOnlyWhenFull(store: Store, u: UserId, p: Pokemon)
    ensures !TogglePokemonInTeam(store, u, p).1 <==>
              !HasId(GetUserTeam(store, u), p.id) && |GetUserTeam(store, u)| >= MaxTeamSize
  {
    ToggleFailsIffFullAdd(GetUserTeam(store, u), p);
  }
}
