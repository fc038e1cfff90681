/**
 * The season grouping of the episode list: a fold that creates the group of a
 * season the first time the season is seen and appends every episode to the
 * group of its own season, in input order.
 */
module SeasonGrouping {
  import opened Episodes

  /** The episodes of `eps` whose season is `s`, in input order (the reference grouping). */
  function InSeason(eps: seq<Episode>, s: int): (r: seq<Episode>)
    ensures |r| <= |eps|
    ensures forall k :: 0 <= k < |r| ==> r[k].season == s
    decreases |eps|
  {
    if eps == [] then []
    else
      var last := eps[|eps| - 1];
      InSeason(eps[..|eps| - 1], s) + (if last.season == s then [last] else [])
  }

  /** The positions of `eps` that hold an episode of season `s`, in increasing order. */
  function SeasonIndices(eps: seq<Episode>, s: int): (r: seq<nat>)
    ensures forall k :: 0 <= k < |r| ==> r[k] < |eps| && eps[r[k]].season == s
    ensures forall k, l :: 0 <= k < l < |r| ==> r[k] < r[l]
    ensures forall i :: 0 <= i < |eps| && eps[i].season == s ==> i in r
    decreases |eps|
  {
    if eps == [] then []
    else
      var n := |eps| - 1;
      var p := SeasonIndices(eps[..n], s);
      p + (if eps[n].season == s then [n] else [])
  }

  /** The seasons of `eps` in the order in which each is first encountered. */
  function FirstSeen(eps: seq<Episode>): (r: seq<int>)
    ensures Distinct(r)
    ensures forall s :: s in r <==> s in Seasons(eps)
    decreases |eps|
  {
    if eps == [] then []
    else
      var n := |eps| - 1;
      var p := FirstSeen(eps[..n]);
      SeasonsSnoc(eps[..n], eps[n]);
      assert eps[..n] + [eps[n]] == eps;
      if eps[n].season in p then p else p + [eps[n].season]
  }

  /**
   * The group of season `s` is exactly the in-order selection of the positions of
   * `eps` that hold season `s`: nothing is reordered, dropped or duplicated.
   */
  lemma {:induction false} InSeasonSelects(eps: seq<Episode>, s: int)
    ensures |InSeason(eps, s)| == |SeasonIndices(eps, s)|
    ensures forall k :: 0 <= k < |InSeason(eps, s)| ==>
              InSeason(eps, s)[k] == eps[SeasonIndices(eps, s)[k]]
    decreases |eps|
  {
    if eps != [] {
      var n := |eps| - 1;
      var p := eps[..n];
      InSeasonSelects(p, s);
      var a, b := InSeason(eps, s), SeasonIndices(eps, s);
      var pa, pb := InSeason(p, s), SeasonIndices(p, s);
      assert a == pa + (if eps[n].season == s then [eps[n]] else []);
      assert b == pb + (if eps[n].season == s then [n] else []);
      forall k | 0 <= k < |a| ensures a[k] == eps[b[k]] {
        if k < |pa| {
          assert a[k] == pa[k] == p[pb[k]];
          assert b[k] == pb[k];
        }
      }
    }
  }

  /** Every input episode lies in the group of its own season. */
  lemma EpisodeInOwnGroup(eps: seq<Episode>, i: nat)
    requires i < |eps|
    ensures eps[i] in InSeason(eps, eps[i].season)
  {
    var s := eps[i].season;
    InSeasonSelects(eps, s);
    var idx := SeasonIndices(eps, s);
    var k :| 0 <= k < |idx| && idx[k] == i;
    assert InSeason(eps, s)[k] == eps[i];
  }

  /** A season that occurs in the input has a non-empty group. */
  lemma OccurringSeasonNonEmpty(eps: seq<Episode>, s: int)
    requires s in Seasons(eps)
    ensures InSeason(eps, s) != []
  {
    var e :| e in eps && e.season == s;
    var i :| 0 <= i < |eps| && eps[i] == e;
    EpisodeInOwnGroup(eps, i);
  }

  /** Once created, a season key keeps its place: the creation order only grows at its end. */
  lemma {:induction false} FirstSeenPrefix(eps: seq<Episode>, i: nat)
    requires i <= |eps|
    ensures FirstSeen(eps[..i]) <= FirstSeen(eps)
    decreases |eps| - i
  {
    if i < |eps| {
      FirstSeenPrefix(eps, i + 1);
      assert eps[..i + 1][..i] == eps[..i];
    } else {
      assert eps[..i] == eps;
    }
  }

  /** How many times `v` occurs in `keys`. */
  function Count(keys: seq<int>, v: int): nat
  {
    if keys == [] then 0 else (if keys[0] == v then 1 else 0) + Count(keys[1..], v)
  }

  lemma {:induction false} CountDistinct(keys: seq<int>, v: int)
    requires Distinct(keys)
    ensures Count(keys, v) == if v in keys then 1 else 0
  {
    if keys != [] {
      assert Distinct(keys[1..]);
      CountDistinct(keys[1..], v);
      assert v in keys <==> v == keys[0] || v in keys[1..];
    }
  }

  /** The total number of episodes held by the groups listed in `keys`. */
  function TotalSize(groups: map<int, seq<Episode>>, keys: seq<int>): nat
    requires forall i :: 0 <= i < |keys| ==> keys[i] in groups
  {
    if keys == [] then 0
    else
      |groups[keys[0]]| + TotalSize(groups, keys[1..])
  }

  /** The total size of the reference groups listed in `keys`. */
  function GroupSizes(eps: seq<Episode>, keys: seq<int>): nat
  {
    if keys == [] then 0 else |InSeason(eps, keys[0])| + GroupSizes(eps, keys[1..])
  }

  lemma {:induction false} GroupSizesSnoc(eps: seq<Episode>, e: Episode, keys: seq<int>)
    ensures GroupSizes(eps + [e], keys) == GroupSizes(eps, keys) + Count(keys, e.season)
  {
    if keys != [] {
      GroupSizesSnoc(eps, e, keys[1..]);
      assert (eps + [e])[..|eps|] == eps;
    }
  }

  /**
   * Summed over any duplicate-free list of keys that covers every season of the
   * input, the group sizes add up to the input length.
   */
  lemma {:induction false} GroupSizesCover(eps: seq<Episode>, keys: seq<int>)
    requires Distinct(keys)
    requires forall e :: e in eps ==> e.season in keys
    ensures GroupSizes(eps, keys) == |eps|
    decreases |eps|
  {
    if eps == [] {
      GroupSizesEmpty(keys);
    } else {
      var n := |eps| - 1;
      assert eps[..n] + [eps[n]] == eps;
      forall e | e in eps[..n] ensures e.season in keys { assert e in eps; }
      GroupSizesCover(eps[..n], keys);
      GroupSizesSnoc(eps[..n], eps[n], keys);
      CountDistinct(keys, eps[n].season);
    }
  }

  lemma {:induction false} GroupSizesEmpty(keys: seq<int>)
    ensures GroupSizes([], keys) == 0
  {
    if keys != [] { GroupSizesEmpty(keys[1..]); }
  }

  lemma {:induction false} TotalSizeOfGroups(groups: map<int, seq<Episode>>, eps: seq<Episode>, keys: seq<int>)
    requires forall i :: 0 <= i < |keys| ==> keys[i] in groups && groups[keys[i]] == InSeason(eps, keys[i])
    ensures TotalSize(groups, keys) == GroupSizes(eps, keys)
  {
    if keys != [] { TotalSizeOfGroups(groups, eps, keys[1..]); }
  }

  /** A season that does not occur in the input has no episodes. */
  lemma {:induction false} AbsentSeasonEmpty(eps: seq<Episode>, s: int)
    requires s !in Seasons(eps)
    ensures InSeason(eps, s) == []
    decreases |eps|
  {
    if eps != [] {
      var n := |eps| - 1;
      assert eps[..n] + [eps[n]] == eps;
      SeasonsSnoc(eps[..n], eps[n]);
      AbsentSeasonEmpty(eps[..n], s);
    }
  }

  lemma InSeasonSnoc(eps: seq<Episode>, e: Episode, s: int)
    ensures InSeason(eps + [e], s) == InSeason(eps, s) + (if e.season == s then [e] else [])
  {
    assert (eps + [e])[..|eps|] == eps;
  }

  lemma FirstSeenSnoc(eps: seq<Episode>, e: Episode)
    ensures FirstSeen(eps + [e]) ==
            if e.season in FirstSeen(eps) then FirstSeen(eps) else FirstSeen(eps) + [e.season]
  {
    assert (eps + [e])[..|eps|] == eps;
  }

  lemma PrefixSnoc(eps: seq<Episode>, i: nat)
    requires i < |eps|
    ensures eps[..i + 1] == eps[..i] + [eps[i]]
  {
  }

  /** One step of the fold keeps the table equal to the reference grouping of the prefix read so far. */
  lemma PushStep(done: seq<Episode>, e: Episode, before: map<int, seq<Episode>>, after: map<int, seq<Episode>>)
    requires before.Keys == Seasons(done)
    requires forall s :: s in before ==> before[s] == InSeason(done, s)
    requires after.Keys == before.Keys + {e.season}
    requires after[e.season] == (if e.season in before then before[e.season] else []) + [e]
    requires forall s :: s in before && s != e.season ==> after[s] == before[s]
    ensures after.Keys == Seasons(done + [e])
    ensures forall s :: s in after ==> after[s] == InSeason(done + [e], s)
  {
    SeasonsSnoc(done, e);
    forall s | s in after ensures after[s] == InSeason(done + [e], s) {
      if s == e.season {
        PushStepOwnGroup(done, e, before, after[s]);
      } else {
        assert s in before && after[s] == before[s];
        InSeasonSnoc(done, e, s);
      }
    }
  }

  lemma PushStepOwnGroup(done: seq<Episode>, e: Episode, before: map<int, seq<Episode>>, group: seq<Episode>)
    requires before.Keys == Seasons(done)
    requires e.season in before ==> before[e.season] == InSeason(done, e.season)
    requires group == (if e.season in before then before[e.season] else []) + [e]
    ensures group == InSeason(done + [e], e.season)
  {
    InSeasonSnoc(done, e, e.season);
    if e.season !in before {
      AbsentSeasonEmpty(done, e.season);
    }
  }

  /** What the finished table promises, given that it agrees with the reference grouping. */
  lemma GroupedTableFacts(eps: seq<Episode>, groups: map<int, seq<Episode>>, created: seq<int>)
    requires groups.Keys == Seasons(eps)
    requires forall s :: s in groups ==> groups[s] == InSeason(eps, s)
    requires created == FirstSeen(eps)
    ensures forall s :: s in groups ==> groups[s] != []
    ensures forall s :: s in created <==> s in groups
    ensures forall i :: 0 <= i < |created| ==> created[i] in groups
    ensures TotalSize(groups, created) == |eps|
    ensures eps == [] <==> groups == map[]
  {
    forall s | s in groups ensures groups[s] != [] {
      OccurringSeasonNonEmpty(eps, s);
    }
    forall e | e in eps ensures e.season in created {
      assert e.season in Seasons(eps);
    }
    GroupSizesCover(eps, created);
    TotalSizeOfGroups(groups, eps, created);
    if eps != [] {
      assert eps[0].season in Seasons(eps);
    }
  }

  /**
   * The reduce over the episode list. Besides the table it returns the order in
   * which its keys were created, which a script object remembers.
   */
  method GroupBySeason(eps: seq<Episode>) returns (groups: map<int, seq<Episode>>, created: seq<int>)
    ensures groups.Keys == Seasons(eps)
    ensures forall s :: s in groups ==> groups[s] == InSeason(eps, s)
    ensures forall s :: s in groups ==> groups[s] != []
    ensures created == FirstSeen(eps)
    ensures forall s :: s in created <==> s in groups
    ensures TotalSize(groups, created) == |eps|
    ensures eps == [] <==> groups == map[]
  {
    groups, created := map[], [];
    for i := 0 to |eps|
      invariant groups.Keys == Seasons(eps[..i])
      invariant forall s :: s in groups ==> groups[s] == InSeason(eps[..i], s)
      invariant created == FirstSeen(eps[..i])
    {
      var e := eps[i];
      ghost var done, before := eps[..i], groups;
      PrefixSnoc(eps, i);
      FirstSeenSnoc(done, e);
      assert e.season in FirstSeen(done) <==> e.season in before;
      if e.season !in groups {
        groups := groups[e.season := []];
        created := created + [e.season];
      }
      groups := groups[e.season := groups[e.season] + [e]];
      PushStep(done, e, before, groups);
    }
    assert eps[..|eps|] == eps;
    GroupedTableFacts(eps, groups, created);
  }
}
