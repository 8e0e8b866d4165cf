/** The stateless helpers of `PlayerUtils`: the same three aggregates as the
    repository class, as static operations. Each returns exactly what the
    same-named repository method returns on the same input, because both are
    proved equal to the functions of `Stats`. */
module PlayerUtils {
  import opened Player
  import opened Sorting
  import opened Stats

  /** Groups the players by country, counts wins (1) and losses (0) per
      country, and returns the country that a stable descending sort by win
      ratio puts first. Only a non-empty `last` is scanned. */
  method ComputeMostWinRatioByCountry(ps: seq<Player>) returns (r: Result<string>)
    ensures r == BestCountry(ps)
  {
    if |ps| == 0 {
      return Err(PlayersEmpty);
    }
    var groups := GroupByCountry(ps);
    var countryStatistics: seq<CountryStatistic> := [];
    for k := 0 to |groups|
      invariant |countryStatistics| == k
      invariant forall j :: 0 <= j < k ==> countryStatistics[j] == Statistic(groups[j])
    {
      var group := groups[k].players;
      var totalLost: nat, totalWin: nat := 0, 0;
      for i := 0 to |group|
        invariant totalWin == TotalWin(group[..i]) && totalLost == TotalLost(group[..i])
      {
        var last := group[i].data.last;
        if |last| > 0 {
          for j := 0 to |last|
            invariant totalWin == TotalWin(group[..i]) + Count(last[..j], WinMarker)
            invariant totalLost == TotalLost(group[..i]) + Count(last[..j], LossMarker)
          {
            CountStep(last, j, WinMarker);
            CountStep(last, j, LossMarker);
            if last[j] == WinMarker {
              totalWin := totalWin + 1;
            }
            if last[j] == LossMarker {
              totalLost := totalLost + 1;
            }
          }
          assert last[..|last|] == last;
        }
        TotalsStep(group, i);
      }
      assert group[..|group|] == group;
      countryStatistics := countryStatistics
        + [CountryStatistic(groups[k].country, totalLost, totalWin, WinRatio(totalWin, totalLost))];
    }
    assert countryStatistics == CountryStatistics(ps);
    var sorted := SortBy(countryStatistics, DescendingKey);
    SortedHeadIsBest(countryStatistics);
    r := Ok(sorted[0].country);
  }

  /** Median of a sorted copy of the heights; the argument is not reordered. */
  method ComputeMedianPlayerHeight(heights: seq<real>) returns (r: Result<real>)
    ensures r == Median(heights)
  {
    r := Median(heights);
  }

  /** Collects one contribution per player, then adds them with `reduce`
      (which starts from the first element) and divides by the count. */
  method ComputeMeanBodyMassIndex(ps: seq<Player>) returns (r: Result<real>)
    ensures r == MeanBMI(ps)
  {
    if |ps| == 0 {
      return Err(PlayersEmpty);
    }
    var results: seq<real> := [];
    for i := 0 to |ps|
      invariant |results| == i
      invariant forall k :: 0 <= k < i ==> results[k] == BodyMassIndex(ps[k])
    {
      var bodyMeanIndexByPlayer := 0.0;
      var weight, height := ps[i].data.weight, ps[i].data.height;
      if weight > 0.0 && height > 0.0 {
        bodyMeanIndexByPlayer := weight / (height * height);
      }
      results := results + [bodyMeanIndexByPlayer];
    }
    assert results == Contributions(ps);
    var total := results[0];
    assert results[..1][..0] == [];
    for j := 1 to |results|
      invariant total == Sum(results[..j])
    {
      assert results[..j + 1][..j] == results[..j];
      total := total + results[j];
    }
    assert results[..|results|] == results;
    r := Ok(total / |results| as real);
  }
}
