/** The JSON-backed player repository: a class that keeps the record list in
    its `players` field, sorts that list in place when listing, and computes
    the mean BMI and the best country with loops. */
module JsonRepository {
  import opened Player
  import opened Sorting
  import opened Stats

  /** The sort key of `find`: comparator `(p1, p2) => p1.data.rank - p2.data.rank`. */
  function RankKey(p: Player): real {
    p.data.rank as real
  }

  /** The key difference is the comparator's value, so ordering by key is
      ordering by rank. */
  lemma RankKeyOrder(p: Player, q: Player)
    ensures RankKey(p) - RankKey(q) == (p.data.rank - q.data.rank) as real
    ensures RankKey(p) <= RankKey(q) <==> p.data.rank <= q.data.rank
  {
  }

  function Min(a: nat, b: nat): nat {
    if a <= b then a else b
  }

  /** `Array.prototype.findIndex(p => p.id === id)`: the first position whose
      record has the id, or -1. */
  function FindIndex(ps: seq<Player>, id: int): (r: int)
    ensures -1 <= r < |ps|
    ensures r >= 0 ==> ps[r].id == id && forall j :: 0 <= j < r ==> ps[j].id != id
    ensures r == -1 <==> forall j :: 0 <= j < |ps| ==> ps[j].id != id
  {
    if ps == [] then -1
    else if ps[0].id == id then 0
    else
      var k := FindIndex(ps[1..], id);
      assert forall j :: 1 <= j < |ps| ==> ps[j] == ps[1..][j - 1];
      if k < 0 then -1 else k + 1
  }

  /** The five records the constructor installs (display fields left out). */
  function Fixture(): (f: seq<Player>)
    ensures |f| == 5
    ensures forall i, j :: 0 <= i < j < |f| ==> f[i].id != f[j].id
  {
    [ Player(52, Country("SRB"), PlayerData(2, 2542, 80000.0, 188.0, 31, [1, 1, 1, 1, 1])),
      Player(95, Country("USA"), PlayerData(52, 1105, 74000.0, 185.0, 38, [0, 1, 0, 0, 1])),
      Player(65, Country("SUI"), PlayerData(21, 1784, 81000.0, 183.0, 33, [1, 1, 1, 0, 1])),
      Player(102, Country("USA"), PlayerData(10, 3521, 72000.0, 175.0, 37, [0, 1, 1, 1, 0])),
      Player(17, Country("ESP"), PlayerData(1, 1982, 85000.0, 185.0, 33, [1, 0, 0, 0, 1])) ]
  }

  // The fixture lemmas below take the fixture (or its heights) as a parameter
  // fixed by `requires`, not as the literal itself: on a literal argument the
  // verifier unfolds `SortBy`, `Members` and `Count` eagerly and runs out of
  // resources. Each step is a separate small lemma for the same reason.

  /** Listing the fixture with `limit: 2` gives Nadal (rank 1), then Djokovic (rank 2). */
  lemma FixtureFirstPage()
    ensures SortBy(Fixture(), RankKey)[..2] == [Fixture()[4], Fixture()[0]]
  {
    var f := Fixture();
    assert f == [f[0], f[1], f[2], f[3], f[4]];
    SortFixtureShape(f[0], f[1], f[2], f[3], f[4]);
  }

  /** Stable sort of five records whose ranks are those of the fixture, in the fixture's order. */
  lemma SortFixtureShape(a: Player, b: Player, c: Player, d: Player, e: Player)
    requires a.data.rank == 2 && b.data.rank == 52 && c.data.rank == 21
    requires d.data.rank == 10 && e.data.rank == 1
    ensures SortBy([a, b, c, d, e], RankKey) == [e, a, d, c, b]
  {
    SortByCons(e, [], RankKey);
    SortByCons(d, [e], RankKey);
    InsertAfter(d, e, [], RankKey);
    SortByCons(c, [d, e], RankKey);
    InsertAfter(c, e, [d], RankKey);
    InsertAfter(c, d, [], RankKey);
    assert SortBy([c, d, e], RankKey) == [e, d, c];
    SortByCons(b, [c, d, e], RankKey);
    InsertAfter(b, e, [d, c], RankKey);
    InsertAfter(b, d, [c], RankKey);
    InsertAfter(b, c, [], RankKey);
    assert SortBy([b, c, d, e], RankKey) == [e, d, c, b];
    SortByCons(a, [b, c, d, e], RankKey);
    InsertAfter(a, e, [d, c, b], RankKey);
  }

  /** The fixture's BMI contributions, weight / height² for each record. */
  lemma FixtureContributions(cs: seq<real>)
    requires cs == Contributions(Fixture())
    ensures cs == [80000.0 / 35344.0, 74000.0 / 34225.0, 81000.0 / 33489.0,
                   72000.0 / 30625.0, 85000.0 / 34225.0]
  {
  }

  /** Five numbers added from the left. */
  lemma SumOfFive(xs: seq<real>)
    requires |xs| == 5
    ensures Sum(xs) == xs[0] + xs[1] + xs[2] + xs[3] + xs[4]
  {
    assert xs[..1][..0] == [];
    assert Sum(xs[..1]) == xs[0];
    assert xs[..2][..1] == xs[..1];
    assert Sum(xs[..2]) == xs[0] + xs[1];
    assert xs[..3][..2] == xs[..2];
    assert Sum(xs[..3]) == xs[0] + xs[1] + xs[2];
    assert xs[..4][..3] == xs[..3];
    assert Sum(xs[..4]) == xs[0] + xs[1] + xs[2] + xs[3];
    assert xs[..5] == xs;
  }

  /** The fixture's mean BMI is the exact rational
      (80000/188² + 74000/185² + 81000/183² + 72000/175² + 85000/185²) / 5. */
  lemma FixtureMeanBMI(f: seq<Player>)
    requires f == Fixture()
    ensures MeanBMI(f) == Ok((80000.0 / 35344.0 + 74000.0 / 34225.0 + 81000.0 / 33489.0
                              + 72000.0 / 30625.0 + 85000.0 / 34225.0) / 5.0)
  {
    var cs := Contributions(f);
    FixtureContributions(cs);
    SumOfFive(cs);
  }

  /** That mean lies between 2.3357 and 2.3358, where the decimal value
      2.3357838995505835 of the repository's test falls. */
  lemma FixtureMeanBMIBounds(f: seq<Player>)
    requires f == Fixture()
    ensures 2.3357 < MeanBMI(f).value < 2.3358
  {
    FixtureMeanBMI(f);
  }

  /** The median height of the fixture is 185. */
  lemma FixtureMedianHeight(hs: seq<real>)
    requires hs == Heights(Fixture())
    ensures Median(hs) == Ok(185.0)
  {
    FixtureHeights(hs);
    var sorted := [175.0, 183.0, 185.0, 185.0, 188.0];
    FixtureHeightsArranged(hs, sorted);
    MedianOdd(hs, sorted);
  }

  lemma FixtureHeights(hs: seq<real>)
    requires hs == Heights(Fixture())
    ensures hs == [188.0, 185.0, 183.0, 175.0, 185.0]
  {
  }

  lemma FixtureHeightsArranged(hs: seq<real>, sorted: seq<real>)
    requires hs == [188.0, 185.0, 183.0, 175.0, 185.0]
    requires sorted == [175.0, 183.0, 185.0, 185.0, 188.0]
    ensures multiset(sorted) == multiset(hs) && SortedBy(sorted, Identity)
  {
    AdjacentSorted(sorted);
    assert sorted == [hs[3], hs[2], hs[1], hs[4], hs[0]];
  }

  /** Serbia, with five wins and no loss, is the fixture's best country. */
  lemma FixtureBestCountry(f: seq<Player>)
    requires f == Fixture()
    ensures BestCountry(f) == Ok("SRB")
  {
    FixtureSerbia(f);
    assert Codes(f)[0] == "SRB";
    assert FirstIndex(Codes(f), "SRB") == 0;
    BestCountryUnique(f, "SRB");
  }

  /** Djokovic is the only Serbian record of the fixture, and all five of his
      last results are wins. */
  lemma FixtureSerbia(f: seq<Player>)
    requires f == Fixture()
    ensures CountryRatio(f, "SRB") == Defined(1.0)
  {
    FixtureSerbians(f);
    FiveWins(f[0]);
    assert WinRatio(5, 0) == Defined(1.0);
  }

  /** A lone player whose last five results are all wins. */
  lemma FiveWins(p: Player)
    requires p.data.last == [1, 1, 1, 1, 1]
    ensures TotalWin([p]) == 5 && TotalLost([p]) == 0
  {
    var last := p.data.last;
    CountIsMultiplicity(last, WinMarker);
    CountIsMultiplicity(last, LossMarker);
    assert [p][..0] == [];
  }

  lemma FixtureSerbians(f: seq<Player>)
    requires f == Fixture()
    ensures Members(f, "SRB") == [f[0]]
  {
    assert f == [f[0], f[1], f[2], f[3], f[4]];
    OnlyFirstMember(f[0], f[1], f[2], f[3], f[4], "SRB");
  }

  /** Five records of which only the first has country `c`. */
  lemma OnlyFirstMember(a: Player, b: Player, c: Player, d: Player, e: Player, code: string)
    requires a.country.code == code && b.country.code != code && c.country.code != code
    requires d.country.code != code && e.country.code != code
    ensures Members([a, b, c, d, e], code) == [a]
  {
    var p0: seq<Player> := [];
    MembersSnoc(p0, a, code);
    MembersSnoc(p0 + [a], b, code);
    MembersSnoc(p0 + [a, b], c, code);
    MembersSnoc(p0 + [a, b, c], d, code);
    MembersSnoc(p0 + [a, b, c, d], e, code);
    assert p0 + [a] + [b] == p0 + [a, b];
    assert p0 + [a, b] + [c] == p0 + [a, b, c];
    assert p0 + [a, b, c] + [d] == p0 + [a, b, c, d];
    assert [a, b, c, d, e] == p0 + [a, b, c, d] + [e];
  }

  class PlayerJsonRepository {
    var players: seq<Player>

    constructor ()
      ensures players == Fixture()
    {
      players := Fixture();
    }

    /** Sorts `players` in place by ascending rank (stably), then returns the
        first `limit` records, or all of them when `limit` is absent or larger
        than the list. */
    method Find(params: PaginationParams) returns (r: seq<Player>)
      modifies this
      ensures players == SortBy(old(players), RankKey)
      ensures SortedBy(players, RankKey)
      ensures multiset(players) == multiset(old(players))
      ensures forall k :: WithKey(players, RankKey, k) == WithKey(old(players), RankKey, k)
      ensures params.limit.None? ==> r == players
      ensures params.limit.Some? ==> r == players[..Min(params.limit.value, |players|)]
      ensures SortedBy(r, RankKey)
    {
      ghost var before := players;
      players := SortBy(players, RankKey);
      SortBySorted(before, RankKey);
      SortByPermutes(before, RankKey);
      forall k | true
        ensures WithKey(players, RankKey, k) == WithKey(before, RankKey, k)
      {
        SortByStable(before, RankKey, k);
      }
      match params.limit
      case None =>
        // `undefined > length` is false, and `slice(0, undefined)` keeps everything
        r := players;
      case Some(limit) =>
        if limit > |players| {
          r := players;
        } else {
          r := players[..limit];
          assert forall i :: 0 <= i < |r| ==> r[i] == players[i];
        }
    }

    /** The first record with the given id, or NotFound naming the id. */
    method FindOne(id: int) returns (r: Result<Player>)
      ensures r.Err? <==> forall i :: 0 <= i < |players| ==> players[i].id != id
      ensures r.Err? ==> r.error == NotFound(id)
      ensures r.Ok? ==> exists i :: 0 <= i < |players| && players[i] == r.value
                          && r.value.id == id && forall j :: 0 <= j < i ==> players[j].id != id
    {
      var index := FindIndex(players, id);
      if index < 0 {
        return Err(NotFound(id));
      }
      r := Ok(players[index]);
    }

    /** Median height, mean BMI and best country over the same record list,
        computed in that order; the first failure is the result. */
    method Statistics() returns (r: Result<StatisticEntity>)
      ensures r.Err? <==> |players| == 0
      ensures r.Err? ==> r.error == HeightsEmpty
      ensures r.Ok? ==> r.value == StatisticEntity(
                BestCountry(players).value, MeanBMI(players).value, Median(Heights(players)).value)
    {
      var ps := players;
      var median :- ComputeMedianPlayerHeight(Heights(ps));
      // the heights are not empty, so neither is `ps`: the two calls below succeed
      var mean := ComputeMeanBodyMassIndex(ps);
      var country := ComputeCountryMostWinRatio(ps);
      r := Ok(StatisticEntity(country.value, mean.value, median));
    }

    /** Collects one contribution per player, then adds them with `reduce`
        (which starts from the first element) and divides by the count. */
    method ComputeMeanBodyMassIndex(ps: seq<Player>) returns (r: Result<real>)
      ensures r == MeanBMI(ps)
    {
      if |ps| == 0 {
        return Err(PlayersEmpty);
      }
      var results: seq<real> := [];
      for i := 0 to |ps|
        invariant |results| == i
        invariant forall k :: 0 <= k < i ==> results[k] == BodyMassIndex(ps[k])
      {
        var bodyMeanIndex := 0.0;
        var weight, height := ps[i].data.weight, ps[i].data.height;
        if weight > 0.0 && height > 0.0 {
          bodyMeanIndex := weight / (height * height);
        }
        results := results + [bodyMeanIndex];
      }
      assert results == Contributions(ps);
      var total := results[0];
      assert results[..1][..0] == [];
      for j := 1 to |results|
        invariant total == Sum(results[..j])
      {
        assert results[..j + 1][..j] == results[..j];
        total := total + results[j];
      }
      assert results[..|results|] == results;
      r := Ok(total / |results| as real);
    }

    /** Groups the players by country, counts wins (1) and losses (0) per
        country, and returns the country that a stable descending sort by win
        ratio puts first. */
    method ComputeCountryMostWinRatio(ps: seq<Player>) returns (r: Result<string>)
      ensures r == BestCountry(ps)
    {
      if |ps| == 0 {
        return Err(PlayersEmpty);
      }
      var groups := GroupByCountry(ps);
      var countryStatistics: seq<CountryStatistic> := [];
      for k := 0 to |groups|
        invariant |countryStatistics| == k
        invariant forall j :: 0 <= j < k ==> countryStatistics[j] == Statistic(groups[j])
      {
        var group := groups[k].players;
        var totalLost: nat, totalWin: nat := 0, 0;
        for i := 0 to |group|
          invariant totalWin == TotalWin(group[..i]) && totalLost == TotalLost(group[..i])
        {
          var last := group[i].data.last;
          for j := 0 to |last|
            invariant totalWin == TotalWin(group[..i]) + Count(last[..j], WinMarker)
            invariant totalLost == TotalLost(group[..i]) + Count(last[..j], LossMarker)
          {
            CountStep(last, j, WinMarker);
            CountStep(last, j, LossMarker);
            if last[j] == WinMarker {
              totalWin := totalWin + 1;
            }
            if last[j] == LossMarker {
              totalLost := totalLost + 1;
            }
          }
          assert last[..|last|] == last;
          TotalsStep(group, i);
        }
        assert group[..|group|] == group;
        countryStatistics := countryStatistics
          + [CountryStatistic(groups[k].country, totalLost, totalWin, WinRatio(totalWin, totalLost))];
      }
      assert countryStatistics == CountryStatistics(ps);
      var sorted := SortBy(countryStatistics, DescendingKey);
      SortedHeadIsBest(countryStatistics);
      r := Ok(sorted[0].country);
    }

    /** Median of a sorted copy of the heights; the argument is not reordered. */
    method ComputeMedianPlayerHeight(heights: seq<real>) returns (r: Result<real>)
      ensures r == Median(heights)
    {
      r := Median(heights);
    }
  }
}

/** The checks the repository's own test suite makes on a freshly constructed
    service, stated about the model. */
module FixtureScenarios {
  import opened Player
  import opened Stats
  import opened JsonRepository

  /** `find({ limit: 2 })` on the fixture yields two records, Nadal then
      Djokovic, in non-decreasing rank. */
  method FirstPageByRank() returns (page: seq<Player>)
    ensures |page| == 2 && page[0].data.rank <= page[1].data.rank
    ensures page == [Fixture()[4], Fixture()[0]]
  {
    var repository := new PlayerJsonRepository();
    page := repository.Find(PaginationParams(Some(2)));
    FixtureFirstPage();
  }

  /** `findOne` finds the first fixture record by its id, and fails with
      NotFound on an id no record has. */
  method LookupById() returns (found: Result<Player>, missing: Result<Player>)
    ensures found == Ok(Fixture()[0])
    ensures missing == Err(NotFound(12222222222222222))
  {
    var repository := new PlayerJsonRepository();
    found := repository.FindOne(52);
    missing := repository.FindOne(12222222222222222);
  }

  /** `statistics()` on the fixture: Serbia, the fixture's mean BMI, and a
      median height of 185. */
  method FixtureStatistics() returns (r: Result<StatisticEntity>)
    ensures r == Ok(StatisticEntity("SRB", MeanBMI(Fixture()).value, 185.0))
    ensures r.Ok? ==> 2.3357 < r.value.meanBodyMassIndex < 2.3358
  {
    var repository := new PlayerJsonRepository();
    r := repository.Statistics();
    FixtureBestCountry(repository.players);
    FixtureMedianHeight(Heights(repository.players));
    FixtureMeanBMIBounds(repository.players);
  }
}
