/**
 * The roster rule of `PokemonService.togglePokemonInTeam`, as a pure function
 * from a team and a Pokémon to the new team and the outcome.
 */
module Team {
  import opened Pokemons
  import opened Sequences

  /** The capacity the toggle checks before adding. */
  const MaxTeamSize: nat := 6

  /** What a toggle did; the service collapses it to a boolean. */
  datatype Outcome = Removed | Rejected | Added {

    /** The boolean `togglePokemonInTeam` returns: only a rejected add fails. */
    predicate Succeeded() {
      !Rejected?
    }
  }

  datatype Toggled = Toggled(team: seq<Pokemon>, outcome: Outcome)

  /** The two invariants every roster keeps: at most six entries, no identifier twice. */
  ghost predicate WellFormed(team: seq<Pokemon>)
  {
    |team| <= MaxTeamSize && DistinctIds(team)
  }

  /** Accepts the Pokémon whose identifier differs from `id`. */
  function OtherId(id: int): Pokemon -> bool
  {
    (p: Pokemon) => p.id != id
  }

  /** The team with every entry carrying `id` filtered out. */
  function WithoutId(team: seq<Pokemon>, id: int): (r: seq<Pokemon>)
    ensures !HasId(r, id)
    ensures forall p :: p in r <==> p in team && p.id != id
  {
    var r := Filter(team, OtherId(id));
    assert forall i :: 0 <= i < |r| ==> r[i] in r;
    r
  }

  /**
   * Toggles `p` in `team`: an entry with the same identifier is removed;
   * otherwise a full team rejects the add; otherwise `p` is appended.
   */
  function ToggleTeam(team: seq<Pokemon>, p: Pokemon): (r: Toggled)
    ensures HasId(team, p.id) ==>
              && r.outcome == Removed
              && !HasId(r.team, p.id)
              && forall q :: q in r.team <==> q in team && q.id != p.id
    ensures !HasId(team, p.id) && |team| >= MaxTeamSize ==> r.outcome == Rejected && r.team == team
    ensures !HasId(team, p.id) && |team| < MaxTeamSize ==> r.outcome == Added && r.team == team + [p]
  {
    if HasId(team, p.id) then Toggled(WithoutId(team, p.id), Removed)
    else if |team| >= MaxTeamSize then Toggled(team, Rejected)
    else Toggled(team + [p], Added)
  }

  /**
   * Removing a present Pokémon keeps every entry with another identifier, in its
   * original relative order, and nothing else.
   */
  lemma {:induction false} ToggleRemovalKeepsOrder(team: seq<Pokemon>, p: Pokemon)
    requires HasId(team, p.id)
    ensures IsFilterOf(ToggleTeam(team, p).team, team, OtherId(p.id))
  {
    FilterIsFilterOf(team, OtherId(p.id));
  }

  /** The boolean result of the toggle is false exactly when an absent Pokémon meets a full team. */
  lemma {:induction false} ToggleFailsIffFullAdd(team: seq<Pokemon>, p: Pokemon)
    ensures !ToggleTeam(team, p).outcome.Succeeded() <==> !HasId(team, p.id) && |team| >= MaxTeamSize
  {
  }

  /** Removing an identifier from a team without duplicates removes exactly one entry. */
  lemma {:induction false} WithoutIdRemovesOne(team: seq<Pokemon>, id: int)
    requires DistinctIds(team)
    requires HasId(team, id)
    ensures |WithoutId(team, id)| == |team| - 1
  {
    if team[0].id == id {
      assert !HasId(team[1..], id) by {
        forall i | 0 <= i < |team[1..]| ensures team[1..][i].id != id {
          assert team[1..][i] == team[i + 1];
        }
      }
      assert Filter(team[1..], OtherId(id)) == team[1..] by {
        FilterKeepsAll(team[1..], OtherId(id));
      }
    } else {
      var k :| 0 <= k < |team| && team[k].id == id;
      assert team[1..][k - 1] == team[k];
      WithoutIdRemovesOne(team[1..], id);
    }
  }

  /** Filtering keeps identifiers distinct. */
  lemma {:induction false} FilterKeepsDistinctIds(team: seq<Pokemon>, keep: Pokemon -> bool)
    requires DistinctIds(team)
    ensures DistinctIds(Filter(team, keep))
  {
    if team != [] {
      FilterKeepsDistinctIds(team[1..], keep);
      var rest := Filter(team[1..], keep);
      if keep(team[0]) {
        forall j | 0 <= j < |rest| ensures rest[j].id != team[0].id {
          assert rest[j] in team[1..];
        }
        var r := [team[0]] + rest;
        forall i, j | 0 <= i < j < |r| ensures r[i].id != r[j].id {
          if i > 0 {
            assert r[i] == rest[i - 1] && r[j] == rest[j - 1];
          }
        }
      }
    }
  }

  /** Toggling preserves the roster invariants. */
  lemma {:induction false} ToggleKeepsWellFormed(team: seq<Pokemon>, p: Pokemon)
    requires WellFormed(team)
    ensures WellFormed(ToggleTeam(team, p).team)
  {
    if HasId(team, p.id) {
      FilterKeepsDistinctIds(team, OtherId(p.id));
    } else if |team| < MaxTeamSize {
      var r := team + [p];
      forall i, j | 0 <= i < j < |r| ensures r[i].id != r[j].id {
        if j == |team| {
          assert r[i] == team[i];
        } else {
          assert r[i] == team[i] && r[j] == team[j];
        }
      }
    }
  }

  /** Adding an absent Pokémon to a team with room and toggling it again restores the team. */
  lemma {:induction false} ToggleTwiceRestores(team: seq<Pokemon>, p: Pokemon)
    requires !HasId(team, p.id)
    requires |team| < MaxTeamSize
    ensures ToggleTeam(team, p).outcome == Added
    ensures ToggleTeam(ToggleTeam(team, p).team, p) == Toggled(team, Removed)
  {
    var added := team + [p];
    assert added[|team|] == p;
    FilterAppend(team, [p], OtherId(p.id));
    FilterKeepsAll(team, OtherId(p.id));
    FilterDropsAll([p], OtherId(p.id));
  }

  /** The walk-through of a full roster, step one: a new Pokémon is rejected. */
  lemma {:induction false} FullTeamRejects(a: Pokemon, b: Pokemon, c: Pokemon, d: Pokemon, e: Pokemon, f: Pokemon, g: Pokemon)
    requires a.id == 1 && b.id == 2 && c.id == 3 && d.id == 4 && e.id == 5 && f.id == 6 && g.id == 7
    ensures ToggleTeam([a, b, c, d, e, f], g) == Toggled([a, b, c, d, e, f], Rejected)
  {
    assert !HasId([a, b, c, d, e, f], g.id);
  }

  /** Toggling the one entry with a given identifier closes the gap it leaves. */
  lemma {:induction false} ToggleSplicesOut(before: seq<Pokemon>, p: Pokemon, after: seq<Pokemon>)
    requires !HasId(before, p.id) && !HasId(after, p.id)
    ensures ToggleTeam(before + [p] + after, p) == Toggled(before + after, Removed)
  {
    var team := before + [p] + after;
    assert team[|before|] == p;
    var keep := OtherId(p.id);
    assert forall i :: 0 <= i < |before| ==> keep(before[i]);
    assert forall i :: 0 <= i < |after| ==> keep(after[i]);
    FilterDropsOne(before, p, after, keep);
  }

  /** Step two: a member of the full roster is removed and the others keep their order. */
  lemma {:induction false} FullTeamRemoves(a: Pokemon, b: Pokemon, c: Pokemon, d: Pokemon, e: Pokemon, f: Pokemon)
    requires a.id == 1 && b.id == 2 && c.id == 3 && d.id == 4 && e.id == 5 && f.id == 6
    ensures ToggleTeam([a, b, c, d, e, f], c) == Toggled([a, b, d, e, f], Removed)
  {
    assert !HasId([a, b], c.id) && !HasId([d, e, f], c.id);
    ToggleSplicesOut([a, b], c, [d, e, f]);
    SplitAroundThird(a, b, c, d, e, f);
  }

  lemma {:induction false} SplitAroundThird<T>(a: T, b: T, c: T, d: T, e: T, f: T)
    ensures [a, b] + [c] + [d, e, f] == [a, b, c, d, e, f]
    ensures [a, b] + [d, e, f] == [a, b, d, e, f]
  {
  }

  /** Step three: with room again, the rejected Pokémon is appended. */
  lemma {:induction false} FreedTeamAdds(a: Pokemon, b: Pokemon, d: Pokemon, e: Pokemon, f: Pokemon, g: Pokemon)
    requires a.id == 1 && b.id == 2 && d.id == 4 && e.id == 5 && f.id == 6 && g.id == 7
    ensures ToggleTeam([a, b, d, e, f], g) == Toggled([a, b, d, e, f, g], Added)
  {
    assert !HasId([a, b, d, e, f], g.id);
  }
}
