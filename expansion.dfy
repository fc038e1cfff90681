/**
 * Which seasons are expanded. The table maps a season to a boolean; a season
 * that is not in the table reads as collapsed, because the missing entry is
 * `undefined` and `undefined` is falsy.
 */
module Expansion {

  /** The season's row shows its episodes: the entry exists and is `true`. */
  predicate IsExpanded(expanded: map<int, bool>, season: int): (r: bool)
    ensures season !in expanded ==> !r
    ensures season in expanded ==> (r <==> expanded[season])
  {
    season in expanded && expanded[season]
  }

  /** The two tables expand the same seasons: they agree once a missing entry is read as `false`. */
  ghost predicate SameExpansion(a: map<int, bool>, b: map<int, bool>)
  {
    forall s :: IsExpanded(a, s) <==> IsExpanded(b, s)
  }

  /**
   * The new table after a press on a season title: a copy of the old table in
   * which the season's entry becomes the negation of its old value (a missing
   * entry negates to `true`).
   */
  function ToggleSeason(expanded: map<int, bool>, season: int): (r: map<int, bool>)
    ensures r.Keys == expanded.Keys + {season}
    ensures IsExpanded(r, season) <==> !IsExpanded(expanded, season)
    ensures forall s :: s in expanded && s != season ==> r[s] == expanded[s]
  {
    expanded[season := !IsExpanded(expanded, season)]
  }

  /** The first press on a season that was never pressed expands it. */
  lemma FirstToggleExpands(expanded: map<int, bool>, season: int)
    requires season !in expanded
    ensures IsExpanded(ToggleSeason(expanded, season), season)
    ensures ToggleSeason(expanded, season) == expanded[season := true]
  {
  }

  /** A press on one season never changes whether another season is expanded. */
  lemma ToggleIsolated(expanded: map<int, bool>, season: int, other: int)
    requires other != season
    ensures IsExpanded(ToggleSeason(expanded, season), other) == IsExpanded(expanded, other)
  {
  }

  /**
   * Two presses on the same season restore what is expanded. The table itself
   * comes back only when the season already had an entry; otherwise it gains an
   * explicit `false` entry.
   */
  lemma ToggleTwice(expanded: map<int, bool>, season: int)
    ensures SameExpansion(ToggleSeason(ToggleSeason(expanded, season), season), expanded)
    ensures ToggleSeason(ToggleSeason(expanded, season), season) == expanded[season := IsExpanded(expanded, season)]
    ensures ToggleSeason(ToggleSeason(expanded, season), season) == expanded <==> season in expanded
  {
    var twice := ToggleSeason(ToggleSeason(expanded, season), season);
    if season !in expanded {
      assert season in twice;
    }
  }

  /** A press gives the same expansion on tables that already expanded the same seasons. */
  lemma ToggleRespectsSameExpansion(a: map<int, bool>, b: map<int, bool>, season: int)
    requires SameExpansion(a, b)
    ensures SameExpansion(ToggleSeason(a, season), ToggleSeason(b, season))
  {
    forall s ensures IsExpanded(ToggleSeason(a, season), s) <==> IsExpanded(ToggleSeason(b, season), s) {
      assert IsExpanded(a, s) <==> IsExpanded(b, s);
    }
  }

  /** Presses on different seasons can be made in either order: the entries are independent. */
  lemma ToggleCommutes(expanded: map<int, bool>, s: int, t: int)
    ensures ToggleSeason(ToggleSeason(expanded, s), t) == ToggleSeason(ToggleSeason(expanded, t), s)
  {
  }
}
