/**
 * The episode screen: its three pieces of state, the transition when the one
 * fetch settles, the press on a season title, and what one render pass shows.
 */
module Screen {
  import opened Episodes
  import opened SeasonGrouping
  import opened KeyOrder
  import opened Expansion

  /** How the fetch of the episode list ended; the request itself is not modelled. */
  datatype FetchOutcome = Success(data: seq<Episode>) | Failure

  /** One season row: its title's season and the episodes shown under it (none when collapsed). */
  datatype Row = Row(season: int, shown: seq<Episode>)

  /** What a render pass shows: the loading indicator, or the list of season rows. */
  datatype View = Spinner | SeasonList(rows: seq<Row>)

  /** The seasons of the rows, top to bottom. */
  function RowSeasons(rows: seq<Row>): (r: seq<int>)
    ensures |r| == |rows| && forall i :: 0 <= i < |rows| ==> r[i] == rows[i].season
  {
    seq(|rows|, i requires 0 <= i < |rows| => rows[i].season)
  }

  /** The rows for the keys `keys`, each showing its group when the season is expanded. */
  function SeasonRows(keys: seq<int>, groups: map<int, seq<Episode>>, expanded: map<int, bool>): (rows: seq<Row>)
    requires forall i :: 0 <= i < |keys| ==> keys[i] in groups
    ensures RowSeasons(rows) == keys
    ensures forall i :: 0 <= i < |rows| ==>
              rows[i].shown == if IsExpanded(expanded, keys[i]) then groups[keys[i]] else []
  {
    seq(|keys|, i requires 0 <= i < |keys| =>
      Row(keys[i], if IsExpanded(expanded, keys[i]) then groups[keys[i]] else []))
  }

  /** The number of episodes shown in all rows together. */
  function ShownCount(rows: seq<Row>): nat
  {
    if rows == [] then 0 else |rows[0].shown| + ShownCount(rows[1..])
  }

  /** The order of the season rows for an episode list: each season once, array-index seasons ascending. */
  lemma RowOrderListsEachSeasonOnce(eps: seq<Episode>)
    ensures Distinct(OwnKeys(FirstSeen(eps)))
    ensures forall s :: s in OwnKeys(FirstSeen(eps)) <==> s in Seasons(eps)
    ensures (forall e :: e in eps ==> IsArrayIndex(e.season)) ==> Ascending(OwnKeys(FirstSeen(eps)))
  {
    var created := FirstSeen(eps);
    if forall e :: e in eps ==> IsArrayIndex(e.season) {
      var sorted := SortAscending(created);
      forall k | k in created ensures IsArrayIndex(k) {
        var e :| e in eps && e.season == k;
      }
      AllIndexKeysAscending(created, sorted);
    }
  }

  lemma {:induction false} ShownCountIsGroupSizes(eps: seq<Episode>, rows: seq<Row>)
    requires forall i :: 0 <= i < |rows| ==> rows[i].shown == InSeason(eps, rows[i].season)
    ensures ShownCount(rows) == GroupSizes(eps, RowSeasons(rows))
  {
    if rows != [] {
      ShownCountIsGroupSizes(eps, rows[1..]);
      assert RowSeasons(rows)[1..] == RowSeasons(rows[1..]);
    }
  }

  /**
   * With every season expanded, the rows together show exactly as many episodes
   * as the list holds: none is hidden and none is shown twice.
   */
  lemma {:induction false} AllExpandedShowsEveryEpisode(eps: seq<Episode>, rows: seq<Row>)
    requires RowSeasons(rows) == OwnKeys(FirstSeen(eps))
    requires forall i :: 0 <= i < |rows| ==> rows[i].shown == InSeason(eps, rows[i].season)
    ensures ShownCount(rows) == |eps|
  {
    RowOrderListsEachSeasonOnce(eps);
    ShownCountIsGroupSizes(eps, rows);
    forall e | e in eps ensures e.season in RowSeasons(rows) {
      assert e.season in Seasons(eps);
    }
    GroupSizesCover(eps, RowSeasons(rows));
  }

  class EpisodeScreen {
    var episodes: seq<Episode>
    var expanded: map<int, bool>
    var loading: bool

    /** Until the fetch settles the list is empty. */
    ghost predicate Valid()
      reads this
    {
      loading ==> episodes == []
    }

    /** The screen as first displayed: no episodes, nothing expanded, loading. */
    constructor ()
      ensures Valid()
      ensures episodes == [] && expanded == map[] && loading
    {
      episodes, expanded, loading := [], map[], true;
    }

    /**
     * The fetch settled: on success the list is replaced by the fetched one, on
     * failure it is kept (the failure is only logged); either way loading ends.
     */
    method FetchSettled(outcome: FetchOutcome)
      requires Valid()
      modifies this
      ensures Valid()
      ensures !loading
      ensures episodes == (if outcome.Success? then outcome.data else old(episodes))
      ensures old(loading) && outcome.Failure? ==> episodes == []
      ensures expanded == old(expanded)
    {
      match outcome {
        case Success(data) => episodes := data;
        case Failure =>
      }
      loading := false;
    }

    /** A press on the title of `season`. */
    method Toggle(season: int)
      requires Valid()
      modifies this
      ensures Valid()
      ensures expanded == ToggleSeason(old(expanded), season)
      ensures episodes == old(episodes) && loading == old(loading)
    {
      expanded := ToggleSeason(expanded, season);
    }

    /**
     * One render pass: the loading indicator while loading; otherwise one row
     * per season in the key order of the grouped table, each showing the
     * season's episodes exactly when the season is expanded.
     */
    method Render() returns (v: View)
      ensures loading <==> v == Spinner
      ensures !loading ==> RowSeasons(v.rows) == OwnKeys(FirstSeen(episodes))
      ensures !loading ==> forall i :: 0 <= i < |v.rows| ==>
                v.rows[i].shown == if IsExpanded(expanded, v.rows[i].season)
                                   then InSeason(episodes, v.rows[i].season) else []
    {
      if loading {
        return Spinner;
      }
      var groups, created := GroupBySeason(episodes);
      var keys := OwnKeys(created);
      assert forall i :: 0 <= i < |keys| ==> keys[i] in created;
      v := SeasonList(SeasonRows(keys, groups, expanded));
    }
  }

  /** Three episodes, the first two of season 1 and the third of season 2, give rows for seasons 1 and 2 in that order. */
  lemma TwoSeasonRowOrder(a: Episode, b: Episode, c: Episode)
    requires a.season == 1 && b.season == 1 && c.season == 2
    ensures OwnKeys(FirstSeen([a, b, c])) == [1, 2]
  {
    assert FirstSeen([a, b, c]) == [1, 2] by {
      assert [] + [a] == [a] && [a] + [b] == [a, b] && [a, b] + [c] == [a, b, c];
      FirstSeenSnoc([], a);
      FirstSeenSnoc([a], b);
      FirstSeenSnoc([a, b], c);
    }
    assert OwnKeys([1, 2]) == [1, 2] by {
      AllIndexKeysAscending([1, 2], [1, 2]);
    }
  }

  /** Of those three episodes, season 1 holds the first two and season 2 the third. */
  lemma TwoSeasonGroups(a: Episode, b: Episode, c: Episode)
    requires a.season == 1 && b.season == 1 && c.season == 2
    ensures InSeason([a, b, c], 1) == [a, b]
    ensures InSeason([a, b, c], 2) == [c]
  {
    assert [] + [a] == [a] && [a] + [b] == [a, b] && [a, b] + [c] == [a, b, c];
    InSeasonSnoc([], a, 1);
    InSeasonSnoc([a], b, 1);
    InSeasonSnoc([a, b], c, 1);
    InSeasonSnoc([], a, 2);
    InSeasonSnoc([a], b, 2);
    InSeasonSnoc([a, b], c, 2);
  }

  /**
   * A fetch of three episodes over two seasons (for instance "Pilot" and
   * "Pinkman" in season 1, "Seven Thirty-Seven" in season 2): two collapsed
   * rows, and after a press on season 1 its row shows its two episodes.
   */
  method TwoSeasonScenario(a: Episode, b: Episode, c: Episode)
    requires a.season == 1 && b.season == 1 && c.season == 2
  {
    TwoSeasonRowOrder(a, b, c);
    TwoSeasonGroups(a, b, c);
    var screen := new EpisodeScreen();
    var v := screen.Render();
    assert v == Spinner;
    screen.FetchSettled(Success([a, b, c]));
    assert screen.episodes == [a, b, c] && screen.expanded == map[];
    v := screen.Render();
    assert RowSeasons(v.rows) == [1, 2];
    assert |v.rows| == 2 && v.rows[0].season == 1 && v.rows[1].season == 2;
    assert v.rows[0].shown == [] && v.rows[1].shown == [];
    screen.Toggle(1);
    assert screen.episodes == [a, b, c] && screen.expanded == map[1 := true];
    v := screen.Render();
    assert RowSeasons(v.rows) == [1, 2];
    assert |v.rows| == 2 && v.rows[0].season == 1 && v.rows[1].season == 2;
    assert IsExpanded(screen.expanded, 1) && !IsExpanded(screen.expanded, 2);
    assert v.rows[0].shown == [a, b] && v.rows[1].shown == [];
  }

  /** A failed fetch, and a fetch of an empty list, both show no rows at all. */
  method EmptyScenarios()
  {
    var failed := new EpisodeScreen();
    failed.FetchSettled(Failure);
    var v := failed.Render();
    assert !failed.loading && failed.episodes == [];
    assert v == SeasonList([]);
    var empty := new EpisodeScreen();
    empty.FetchSettled(Success([]));
    var w := empty.Render();
    assert w == v;
  }
}
