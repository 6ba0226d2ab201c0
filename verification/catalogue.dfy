/** The Pokédex loader's search: which catalogue entries a search term keeps. */
module Catalogue {
  import opened Wrappers
  import opened Pokemons
  import opened Sequences
  import opened Text

  /** The term the loader searches for: the `search` parameter lower-cased, or "" when it is absent. */
  function SearchTerm(param: Option<string>): (term: string)
    ensures IsLowerCase(term)
    ensures param.None? ==> term == ""
    ensures param.Some? ==> |term| == |param.value|
    ensures param.Some? ==> forall i :: 0 <= i < |term| ==> term[i] == LowerChar(param.value[i])
  {
    match param
    case None => ""
    case Some(s) => Lower(s)
  }

  /** The same condition stated with explicit occurrence positions. */
  ghost predicate NameOrTypeContains(p: Pokemon, term: string)
  {
    || (exists k :: OccursAt(Lower(p.name), term, k))
    || (exists i, k :: 0 <= i < |p.types| && OccursAt(Lower(p.types[i]), term, k))
  }

  /**
   * The loader's filter predicate: the lower-cased name or some lower-cased
   * type includes `term`, that is, contains it at some position.
   */
  function Matches(p: Pokemon, term: string): (r: bool)
    ensures r <==> NameOrTypeContains(p, term)
  {
    IncludesIffOccurs(Lower(p.name), term);
    assert forall i :: 0 <= i < |p.types| ==>
             (Includes(Lower(p.types[i]), term) <==> exists k :: OccursAt(Lower(p.types[i]), term, k)) by {
      forall i | 0 <= i < |p.types|
        ensures Includes(Lower(p.types[i]), term) <==> exists k :: OccursAt(Lower(p.types[i]), term, k)
      {
        IncludesIffOccurs(Lower(p.types[i]), term);
      }
    }
    || Includes(Lower(p.name), term)
    || exists i :: 0 <= i < |p.types| && Includes(Lower(p.types[i]), term)
  }

  function MatchesTerm(term: string): Pokemon -> bool
  {
    p => Matches(p, term)
  }

  /** The loader's filtered list: the catalogue entries that match the term, in catalogue order. */
  function FilterCatalogue(items: seq<Pokemon>, term: string): (r: seq<Pokemon>)
    ensures |r| <= |items|
    ensures forall p :: p in r <==> p in items && NameOrTypeContains(p, term)
  {
    Filter(items, MatchesTerm(term))
  }

  /**
   * The filtered list is exactly the order-preserving selection of the
   * catalogue entries whose name or one of whose types contains the term.
   */
  lemma {:induction false} FilterCatalogueSelectsInOrder(items: seq<Pokemon>, term: string)
    ensures IsFilterOf(FilterCatalogue(items, term), items, p => NameOrTypeContains(p, term))
  {
    FilterIsFilterOf(items, MatchesTerm(term));
    assert forall p :: MatchesTerm(term)(p) == NameOrTypeContains(p, term);
  }

  /** An empty search term keeps the whole catalogue, in order. */
  lemma {:induction false} EmptySearchKeepsAll(items: seq<Pokemon>)
    ensures FilterCatalogue(items, SearchTerm(None)) == items
  {
    assert forall i :: 0 <= i < |items| ==> MatchesTerm("")(items[i]);
    FilterKeepsAll(items, MatchesTerm(""));
  }
}
