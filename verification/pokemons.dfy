/** The catalogue record shared by the roster and the Pokédex page. */
module Pokemons {

  /** One Pokémon as the catalogue client builds it: identity is `id`. */
  datatype Pokemon = Pokemon(id: int, name: string, sprite: string, types: seq<string>)

  /** Some entry of `team` carries the identifier `id`. */
  predicate HasId(team: seq<Pokemon>, id: int)
  {
    exists i :: 0 <= i < |team| && team[i].id == id
  }

  /** No two entries of `team` share an identifier. */
  ghost predicate DistinctIds(team: seq<Pokemon>)
  {
    forall i, j :: 0 <= i < j < |team| ==> team[i].id != team[j].id
  }
}
