/** The episode record the TVmaze endpoint returns, restricted to the fields the screen reads. */
module Episodes {

  /** One episode: `season` is the grouping key, the other fields are only displayed. */
  datatype Episode = Episode(id: int, season: int, number: int, name: string, airdate: string)

  /** No value occurs twice in `s`. */
  predicate Distinct(s: seq<int>)
  {
    forall i, j :: 0 <= i < j < |s| ==> s[i] != s[j]
  }

  /** The set of seasons that occur in `eps`. */
  function Seasons(eps: seq<Episode>): set<int>
  {
    set e | e in eps :: e.season
  }

  /** Appending one episode adds exactly its season to the season set. */
  lemma SeasonsSnoc(eps: seq<Episode>, e: Episode)
    ensures Seasons(eps + [e]) == Seasons(eps) + {e.season}
  {
    var l, r := Seasons(eps + [e]), Seasons(eps) + {e.season};
    forall s | s in l ensures s in r {
      var x :| x in eps + [e] && x.season == s;
      if x != e { assert x in eps; }
    }
    forall s | s in r ensures s in l {
      if s != e.season {
        var x :| x in eps && x.season == s;
        assert x in eps + [e];
      } else {
        assert e in eps + [e];
      }
    }
  }
}
