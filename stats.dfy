/** The three aggregates of the statistics endpoint, as functions over the
    record list: median height, mean body-mass index and the country with the
    best win ratio. The repository class and PlayerUtils compute the mean BMI
    and the best country with loops, and all three are proved to return
    exactly these values. */
module Stats {
  import opened Player
  import opened Sorting

  // ---------------------------------------------------------------------
  // Median height
  // ---------------------------------------------------------------------

  /** Sorts a copy of the heights and picks the middle element (odd count) or
      the mean of the two middle elements (even count). */
  function Median(heights: seq<real>): (r: Result<real>)
    ensures r.Err? <==> |heights| == 0
    ensures r.Err? ==> r.error == HeightsEmpty
  {
    if |heights| == 0 then Err(HeightsEmpty)
    else Ok(Middle(SortBy(heights, Identity)))
  }

  /** The pick by parity, on an already sorted copy. */
  function Middle(nums: seq<real>): (r: real)
    requires |nums| > 0
    ensures SortedBy(nums, Identity) ==> nums[(|nums| - 1) / 2] <= r <= nums[|nums| / 2]
  {
    var mid := |nums| / 2;
    if |nums| % 2 != 0 then nums[mid]
    else
      assert SortedBy(nums, Identity) ==> Identity(nums[mid - 1]) <= Identity(nums[mid]);
      (nums[mid - 1] + nums[mid]) / 2.0
  }

  /** For an odd count the median is the middle element of ANY ascending
      arrangement of the heights. */
  lemma MedianOdd(heights: seq<real>, sorted: seq<real>)
    requires multiset(sorted) == multiset(heights) && SortedBy(sorted, Identity)
    requires |heights| % 2 == 1
    ensures |sorted| == |heights|
    ensures Median(heights) == Ok(sorted[|heights| / 2])
  {
    assert |sorted| == |multiset(sorted)| == |heights|;
    SortBySorted(heights, Identity);
    SortByPermutes(heights, Identity);
    SortedUnique(SortBy(heights, Identity), sorted);
  }

  /** For an even, non-zero count the median is the mean of the two middle
      elements of ANY ascending arrangement of the heights. */
  lemma MedianEven(heights: seq<real>, sorted: seq<real>)
    requires multiset(sorted) == multiset(heights) && SortedBy(sorted, Identity)
    requires |heights| % 2 == 0 && |heights| > 0
    ensures |sorted| == |heights|
    ensures Median(heights)
         == Ok((sorted[|heights| / 2 - 1] + sorted[|heights| / 2]) / 2.0)
  {
    assert |sorted| == |multiset(sorted)| == |heights|;
    SortBySorted(heights, Identity);
    SortByPermutes(heights, Identity);
    SortedUnique(SortBy(heights, Identity), sorted);
  }

  /** The median does not depend on the order of the input. */
  lemma MedianPermutation(heights: seq<real>, other: seq<real>)
    requires multiset(heights) == multiset(other)
    ensures Median(heights) == Median(other)
  {
    assert |heights| == |multiset(heights)| == |other|;
    SortBySorted(heights, Identity);
    SortBySorted(other, Identity);
    SortByPermutes(heights, Identity);
    SortByPermutes(other, Identity);
    SortedUnique(SortBy(heights, Identity), SortBy(other, Identity));
  }

  /** The median lies between the smallest and the largest height. */
  lemma MedianWithinRange(heights: seq<real>)
    requires |heights| > 0
    ensures exists i :: 0 <= i < |heights| && heights[i] <= Median(heights).value
    ensures exists j :: 0 <= j < |heights| && Median(heights).value <= heights[j]
  {
    var nums := SortBy(heights, Identity);
    var n, mid := |heights|, |heights| / 2;
    SortBySorted(heights, Identity);
    SortByPermutes(heights, Identity);
    var lo := if n % 2 != 0 then mid else mid - 1;
    SortedAt(nums, lo, mid);
    var i := IndexOf(heights, nums[lo]);
    var j := IndexOf(heights, nums[mid]);
    assert heights[i] <= Median(heights).value <= heights[j];
  }

  lemma SortedAt(s: seq<real>, i: nat, j: nat)
    requires SortedBy(s, Identity) && i <= j < |s|
    ensures s[i] <= s[j]
  {
    if i < j {
      assert Identity(s[i]) <= Identity(s[j]);
    }
  }

  /** Six heights with an even count: the median is (180 + 185) / 2.
      The heights come in as a parameter fixed by `requires` rather than as a
      literal in the `ensures`: on a literal argument the verifier unfolds
      `SortBy` eagerly and runs out of resources. */
  lemma MedianExample(heights: seq<real>)
    requires heights == [185.0, 185.0, 185.0, 180.0, 178.0, 180.0]
    ensures Median(heights) == Ok(182.5)
  {
    var sorted := [178.0, 180.0, 180.0, 185.0, 185.0, 185.0];
    MedianExampleArranged(heights, sorted);
    MedianEven(heights, sorted);
    assert sorted[2] == 180.0 && sorted[3] == 185.0;
  }

  lemma MedianExampleArranged(heights: seq<real>, sorted: seq<real>)
    requires heights == [185.0, 185.0, 185.0, 180.0, 178.0, 180.0]
    requires sorted == [178.0, 180.0, 180.0, 185.0, 185.0, 185.0]
    ensures multiset(sorted) == multiset(heights) && SortedBy(sorted, Identity)
  {
    AdjacentSorted(sorted);
    assert sorted == [heights[4], heights[3], heights[5], heights[0], heights[1], heights[2]];
  }

  lemma {:induction false} AdjacentSorted(s: seq<real>)
    requires forall i :: 0 <= i < |s| - 1 ==> s[i] <= s[i + 1]
    ensures SortedBy(s, Identity)
  {
    if |s| > 1 {
      AdjacentSorted(s[1..]);
      forall i, j | 0 <= i < j < |s| ensures Identity(s[i]) <= Identity(s[j]) {
        if 0 < i {
          assert Identity(s[1..][i - 1]) <= Identity(s[1..][j - 1]);
        } else if 1 < j {
          assert Identity(s[1..][0]) <= Identity(s[1..][j - 1]);
        }
      }
    }
  }

  // ---------------------------------------------------------------------
  // Mean body-mass index
  // ---------------------------------------------------------------------

  /** A player's contribution: weight / height² when both are positive,
      0 otherwise. */
  function BodyMassIndex(p: Player): (r: real)
    ensures 0.0 <= r
    ensures 0.0 < r <==> p.data.weight > 0.0 && p.data.height > 0.0
  {
    if p.data.weight > 0.0 && p.data.height > 0.0
    then p.data.weight / (p.data.height * p.data.height)
    else 0.0
  }

  /** One contribution per player, in input order. */
  function Contributions(ps: seq<Player>): (cs: seq<real>)
    ensures |cs| == |ps|
    ensures forall i :: 0 <= i < |ps| ==> cs[i] == BodyMassIndex(ps[i])
  {
    seq(|ps|, i requires 0 <= i < |ps| => BodyMassIndex(ps[i]))
  }

  /** Left-to-right sum, the order in which `reduce` adds. */
  function Sum(xs: seq<real>): real {
    if xs == [] then 0.0 else Sum(xs[..|xs| - 1]) + xs[|xs| - 1]
  }

  /** Adding from the left is adding the first element to the sum of the
      rest: `reduce` without an initial value starts from `xs[0]`. */
  lemma {:induction false} SumFromFirst(xs: seq<real>)
    requires |xs| > 0
    ensures Sum(xs) == xs[0] + Sum(xs[1..])
  {
    var n := |xs|;
    if n > 1 {
      SumFromFirst(xs[..n - 1]);
      assert xs[1..][..n - 2] == xs[..n - 1][1..];
    }
  }

  /** The mean of the contributions over ALL players, including the ones
      whose weight or height is not positive. */
  function MeanBMI(ps: seq<Player>): (r: Result<real>)
    ensures r.Err? <==> |ps| == 0
    ensures r.Err? ==> r.error == PlayersEmpty
  {
    if |ps| == 0 then Err(PlayersEmpty)
    else Ok(Sum(Contributions(ps)) / |ps| as real)
  }

  lemma {:induction false} SumNonNegative(xs: seq<real>)
    requires forall i :: 0 <= i < |xs| ==> 0.0 <= xs[i]
    ensures 0.0 <= Sum(xs)
  {
    if xs != [] {
      SumNonNegative(xs[..|xs| - 1]);
    }
  }

  lemma {:induction false} SumBounded(xs: seq<real>, hi: real)
    requires forall i :: 0 <= i < |xs| ==> xs[i] <= hi
    ensures Sum(xs) <= |xs| as real * hi
  {
    if xs != [] {
      SumBounded(xs[..|xs| - 1], hi);
    }
  }

  /** The mean is never negative, and it is at most the largest contribution. */
  lemma MeanBMIBounds(ps: seq<Player>, hi: real)
    requires |ps| > 0
    requires forall i :: 0 <= i < |ps| ==> BodyMassIndex(ps[i]) <= hi
    ensures 0.0 <= MeanBMI(ps).value <= hi
  {
    var cs := Contributions(ps);
    forall i | 0 <= i < |cs| ensures 0.0 <= cs[i] {
      var p := ps[i];
      if p.data.weight > 0.0 && p.data.height > 0.0 {
        assert p.data.height * p.data.height > 0.0;
      }
    }
    SumNonNegative(cs);
    SumBounded(cs, hi);
    var n := |ps| as real;
    QuotientAtMost(Sum(cs), n, hi);
    QuotientNonNegative(Sum(cs), n);
  }

  lemma QuotientNonNegative(a: real, b: real)
    requires 0.0 <= a && 0.0 < b
    ensures 0.0 <= a / b
  {
  }

  lemma QuotientAtMost(a: real, b: real, c: real)
    requires a <= b * c && 0.0 < b
    ensures a / b <= c
  {
    var q := a / b;
    assert q * b == a;
    if q > c {
      assert (q - c) * b > 0.0;
    }
  }

  lemma QuotientAtLeast(a: real, b: real, c: real)
    requires b * c <= a && 0.0 < b
    ensures c <= a / b
  {
    var q := a / b;
    assert q * b == a;
    if q < c {
      assert (c - q) * b > 0.0;
    }
  }

  /** A player without a positive weight and height adds nothing to the sum
      but still counts in the denominator: adding one scales the mean by
      n / (n + 1). */
  lemma MeanBMIInvalidCounted(ps: seq<Player>, q: Player)
    requires |ps| > 0
    requires !(q.data.weight > 0.0 && q.data.height > 0.0)
    ensures MeanBMI(ps + [q]).value * (|ps| + 1) as real == MeanBMI(ps).value * |ps| as real
  {
    var cs := Contributions(ps + [q]);
    assert cs[..|cs| - 1] == Contributions(ps);
    assert Sum(cs) == Sum(Contributions(ps));
  }

  /** With a single player the mean is that player's contribution, e.g.
      80000 g at 188 cm gives 80000 / 188². */
  lemma MeanBMISingle(p: Player)
    ensures MeanBMI([p]) == Ok(BodyMassIndex(p))
  {
    var cs := Contributions([p]);
    assert cs[..0] == [];
    assert Sum(cs) == BodyMassIndex(p);
  }

  lemma MeanBMIExample()
    ensures MeanBMI([Player(52, Country("SRB"), PlayerData(2, 2542, 80000.0, 188.0, 31, [1, 1, 1, 1, 1]))])
         == Ok(80000.0 / 35344.0)
  {
    MeanBMISingle(Player(52, Country("SRB"), PlayerData(2, 2542, 80000.0, 188.0, 31, [1, 1, 1, 1, 1])));
  }

  // ---------------------------------------------------------------------
  // Country with the best win ratio
  // ---------------------------------------------------------------------

  /** The country codes of the players, in input order. */
  function Codes(ps: seq<Player>): (cs: seq<string>)
    ensures |cs| == |ps|
    ensures forall i :: 0 <= i < |ps| ==> cs[i] == ps[i].country.code
  {
    seq(|ps|, i requires 0 <= i < |ps| => ps[i].country.code)
  }

  /** The distinct country codes in order of first appearance: the keys of
      `Object.groupBy`, as `for...in` visits them (the codes are not
      integer-like strings, so insertion order is kept). */
  function Countries(ps: seq<Player>): (cs: seq<string>)
    ensures |ps| > 0 ==> |cs| > 0
    ensures forall c :: c in cs <==> c in Codes(ps)
  {
    if ps == [] then []
    else
      assert Codes(ps) == Codes(ps[..|ps| - 1]) + [ps[|ps| - 1].country.code];
      var cs := Countries(ps[..|ps| - 1]);
      var c := ps[|ps| - 1].country.code;
      if c in cs then cs else cs + [c]
  }

  /** The players of country `c`, in input order: one group of `Object.groupBy`. */
  function Members(ps: seq<Player>, c: string): (ms: seq<Player>)
    ensures |ms| <= |ps|
  {
    if ps == [] then []
    else Members(ps[..|ps| - 1], c) + (if ps[|ps| - 1].country.code == c then [ps[|ps| - 1]] else [])
  }

  lemma MembersSnoc(ps: seq<Player>, q: Player, c: string)
    ensures Members(ps + [q], c) == Members(ps, c) + (if q.country.code == c then [q] else [])
  {
    assert (ps + [q])[..|ps|] == ps;
  }

  /** The number of entries of `xs` equal to `v`. */
  function Count(xs: seq<int>, v: int): (r: nat)
    ensures r <= |xs|
  {
    if xs == [] then 0 else Count(xs[..|xs| - 1], v) + (if xs[|xs| - 1] == v then 1 else 0)
  }

  const WinMarker := 1
  const LossMarker := 0

  /** Wins over all the given players: the entries of their `last` equal to 1. */
  function TotalWin(ms: seq<Player>): nat {
    if ms == [] then 0 else TotalWin(ms[..|ms| - 1]) + Count(ms[|ms| - 1].data.last, WinMarker)
  }

  /** Losses over all the given players: the entries of their `last` equal to 0. */
  function TotalLost(ms: seq<Player>): nat {
    if ms == [] then 0 else TotalLost(ms[..|ms| - 1]) + Count(ms[|ms| - 1].data.last, LossMarker)
  }

  /** Taking one more player into the totals adds the counts of its `last`. */
  lemma TotalsStep(ms: seq<Player>, i: nat)
    requires i < |ms|
    ensures TotalWin(ms[..i + 1]) == TotalWin(ms[..i]) + Count(ms[i].data.last, WinMarker)
    ensures TotalLost(ms[..i + 1]) == TotalLost(ms[..i]) + Count(ms[i].data.last, LossMarker)
  {
    assert ms[..i + 1][..i] == ms[..i];
  }

  /** The group of `c` holds exactly the input's records with code `c`. */
  lemma {:induction false} MembersExactly(ps: seq<Player>, c: string)
    ensures forall p :: p in Members(ps, c) <==> p in ps && p.country.code == c
  {
    if ps != [] {
      var pre := ps[..|ps| - 1];
      MembersExactly(pre, c);
      assert ps == pre + [ps[|ps| - 1]];
    }
  }

  /** A value is counted at least once exactly when it occurs. */
  lemma {:induction false} CountPositive(xs: seq<int>, v: int)
    ensures 0 < Count(xs, v) <==> v in xs
  {
    if xs != [] {
      CountPositive(xs[..|xs| - 1], v);
      assert xs == xs[..|xs| - 1] + [xs[|xs| - 1]];
    }
  }

  /** The totals of a group are at least each member's own counts. */
  lemma {:induction false} TotalsAtLeast(ms: seq<Player>, i: nat)
    requires i < |ms|
    ensures Count(ms[i].data.last, WinMarker) <= TotalWin(ms)
    ensures Count(ms[i].data.last, LossMarker) <= TotalLost(ms)
  {
    if i < |ms| - 1 {
      TotalsAtLeast(ms[..|ms| - 1], i);
    }
  }

  /** Counting one more entry of `xs` adds one exactly when it is `v`. */
  lemma CountStep(xs: seq<int>, j: nat, v: int)
    requires j < |xs|
    ensures Count(xs[..j + 1], v) == Count(xs[..j], v) + (if xs[j] == v then 1 else 0)
  {
    assert xs[..j + 1][..j] == xs[..j];
  }

  /** A win ratio; `Undefined` stands for the NaN that 0 / 0 gives. */
  datatype Ratio = Undefined | Defined(value: real)

  /** (W − L) / (W + L). */
  function WinRatio(totalWin: nat, totalLost: nat): (r: Ratio)
    ensures r.Defined? <==> totalWin + totalLost > 0
    ensures r.Defined? ==> -1.0 <= r.value <= 1.0
  {
    if totalWin + totalLost == 0 then Undefined
    else
      var d := (totalWin + totalLost) as real;
      var n := (totalWin - totalLost) as real;
      QuotientAtMost(n, d, 1.0);
      QuotientAtLeast(n, d, -1.0);
      Defined(n / d)
  }

  /** How ratios are ranked: a larger defined ratio ranks higher, and an
      undefined ratio ranks below every defined one. */
  predicate Greater(a: Ratio, b: Ratio) {
    match a
    case Undefined => false
    case Defined(x) => b.Undefined? || x > b.value
  }

  /** Two defined ratios compare as their numerators cross-multiplied by the
      other side's denominator: an integer test for the ranking. */
  lemma RatioCross(w1: nat, l1: nat, w2: nat, l2: nat)
    requires w1 + l1 > 0 && w2 + l2 > 0
    ensures Greater(WinRatio(w1, l1), WinRatio(w2, l2))
        <==> (w1 - l1) * (w2 + l2) > (w2 - l2) * (w1 + l1)
  {
    var n1, d1 := (w1 - l1) as real, (w1 + l1) as real;
    var n2, d2 := (w2 - l2) as real, (w2 + l2) as real;
    var q1, q2 := n1 / d1, n2 / d2;
    assert q1 * d1 == n1 && q2 * d2 == n2;
    assert (q1 - q2) * (d1 * d2) == n1 * d2 - n2 * d1;
    assert d1 * d2 > 0.0;
    assert ((w1 - l1) * (w2 + l2)) as real == n1 * d2;
    assert ((w2 - l2) * (w1 + l1)) as real == n2 * d1;
  }

  datatype CountryStatistic = CountryStatistic(
    country: string,
    totalLost: nat,
    totalWin: nat,
    winRatio: Ratio)

  datatype Group = Group(country: string, players: seq<Player>)

  /** `Object.groupBy(players, p => p.country.code)`, keys in first-appearance order. */
  function GroupByCountry(ps: seq<Player>): (gs: seq<Group>)
    ensures |gs| == |Countries(ps)|
    ensures forall k :: 0 <= k < |gs| ==> gs[k] == Group(Countries(ps)[k], Members(ps, Countries(ps)[k]))
  {
    var cs := Countries(ps);
    seq(|cs|, k requires 0 <= k < |cs| => Group(cs[k], Members(ps, cs[k])))
  }

  /** The statistic of one group. */
  function Statistic(g: Group): (s: CountryStatistic)
    ensures s.country == g.country
    ensures s.winRatio == WinRatio(s.totalWin, s.totalLost)
    ensures s.totalWin == TotalWin(g.players) && s.totalLost == TotalLost(g.players)
  {
    var w, l := TotalWin(g.players), TotalLost(g.players);
    CountryStatistic(g.country, l, w, WinRatio(w, l))
  }

  /** One statistic per country, in first-appearance order. */
  function CountryStatistics(ps: seq<Player>): (ss: seq<CountryStatistic>)
    ensures |ss| == |Countries(ps)|
    ensures forall k :: 0 <= k < |ss| ==> ss[k] == Statistic(GroupByCountry(ps)[k])
  {
    var gs := GroupByCountry(ps);
    seq(|gs|, k requires 0 <= k < |gs| => Statistic(gs[k]))
  }

  /** The win ratio of country `c` over all of its players. */
  function CountryRatio(ps: seq<Player>, c: string): (r: Ratio)
    ensures r.Undefined? <==> TotalWin(Members(ps, c)) + TotalLost(Members(ps, c)) == 0
    ensures r.Defined? ==> -1.0 <= r.value <= 1.0
  {
    WinRatio(TotalWin(Members(ps, c)), TotalLost(Members(ps, c)))
  }

  /** The position of the first statistic with a maximal ratio. */
  function BestIndex(ss: seq<CountryStatistic>): (k: nat)
    requires |ss| > 0
    ensures k < |ss|
    ensures forall j :: 0 <= j < |ss| ==> !Greater(ss[j].winRatio, ss[k].winRatio)
    ensures forall j :: 0 <= j < k ==> Greater(ss[k].winRatio, ss[j].winRatio)
  {
    if |ss| == 1 then 0
    else
      var k := BestIndex(ss[1..]) + 1;
      assert forall j :: 1 <= j < |ss| ==> ss[j] == ss[1..][j - 1];
      if Greater(ss[k].winRatio, ss[0].winRatio) then k else 0
  }

  /** The code of the first country, in order of first appearance, whose win
      ratio is maximal. */
  function BestCountry(ps: seq<Player>): (r: Result<string>)
    ensures r.Err? <==> |ps| == 0
    ensures r.Err? ==> r.error == PlayersEmpty
  {
    if |ps| == 0 then Err(PlayersEmpty)
    else
      var ss := CountryStatistics(ps);
      Ok(ss[BestIndex(ss)].country)
  }

  // ---------------------------------------------------------------------
  // Properties of the grouping and of the selected country
  // ---------------------------------------------------------------------

  /** The position of the first occurrence of `x` in `xs`. */
  function FirstIndex(xs: seq<string>, x: string): (i: nat)
    requires x in xs
    ensures i < |xs| && xs[i] == x
    ensures forall j :: 0 <= j < i ==> xs[j] != x
  {
    if xs[0] == x then 0 else FirstIndex(xs[1..], x) + 1
  }

  lemma FirstIndexPrefix(xs: seq<string>, ys: seq<string>, x: string)
    requires x in xs
    ensures FirstIndex(xs + ys, x) == FirstIndex(xs, x)
  {
    var i, k := FirstIndex(xs + ys, x), FirstIndex(xs, x);
    assert (xs + ys)[k] == x;
  }

  /** No country code is listed twice. */
  lemma {:induction false} CountriesDistinct(ps: seq<Player>)
    ensures forall i, j :: 0 <= i < j < |Countries(ps)| ==> Countries(ps)[i] != Countries(ps)[j]
  {
    if ps != [] {
      CountriesDistinct(ps[..|ps| - 1]);
    }
  }

  /** Countries are listed in the order of their first appearance in the input. */
  lemma {:induction false} CountriesInOrder(ps: seq<Player>)
    ensures forall i, j :: 0 <= i < j < |Countries(ps)| ==>
      FirstIndex(Codes(ps), Countries(ps)[i]) < FirstIndex(Codes(ps), Countries(ps)[j])
  {
    if ps != [] {
      var pre := ps[..|ps| - 1];
      var c := ps[|ps| - 1].country.code;
      var cs, cs0 := Countries(ps), Countries(pre);
      CountriesInOrder(pre);
      assert Codes(ps) == Codes(pre) + [c];
      forall i, j | 0 <= i < j < |cs|
        ensures FirstIndex(Codes(ps), cs[i]) < FirstIndex(Codes(ps), cs[j])
      {
        assert cs[i] == cs0[i];
        FirstIndexPrefix(Codes(pre), [c], cs[i]);
        if j < |cs0| {
          assert cs[j] == cs0[j];
          FirstIndexPrefix(Codes(pre), [c], cs[j]);
        } else {
          assert cs[j] == c && c !in Codes(pre);
          assert (Codes(pre) + [c])[|pre|] == c;
        }
      }
    }
  }

  lemma CountriesOrderedAt(ps: seq<Player>, i: nat, j: nat)
    requires i < j < |Countries(ps)|
    ensures FirstIndex(Codes(ps), Countries(ps)[i]) < FirstIndex(Codes(ps), Countries(ps)[j])
  {
    CountriesInOrder(ps);
  }

  /** `Count` is the multiplicity of `v` in `xs`: entries other than `v` add nothing. */
  lemma {:induction false} CountIsMultiplicity(xs: seq<int>, v: int)
    ensures Count(xs, v) == multiset(xs)[v]
  {
    if xs != [] {
      CountIsMultiplicity(xs[..|xs| - 1], v);
      assert xs == xs[..|xs| - 1] + [xs[|xs| - 1]];
    }
  }

  /** The statistic computed for a group says what its country's ratio is. */
  lemma CountryStatisticAt(ps: seq<Player>, k: nat)
    requires k < |Countries(ps)|
    ensures CountryStatistics(ps)[k].country == Countries(ps)[k]
    ensures CountryStatistics(ps)[k].winRatio == CountryRatio(ps, Countries(ps)[k])
  {
  }

  /** `c` occurs in the input, no country has a greater ratio, and every
      country with the same ratio appears later. */
  ghost predicate IsBestCountry(ps: seq<Player>, c: string) {
    && c in Codes(ps)
    && (forall d :: d in Codes(ps) ==> !Greater(CountryRatio(ps, d), CountryRatio(ps, c)))
    && (forall d :: d in Codes(ps) && !Greater(CountryRatio(ps, c), CountryRatio(ps, d)) ==>
          FirstIndex(Codes(ps), c) <= FirstIndex(Codes(ps), d))
  }

  lemma BestCountryIsBest(ps: seq<Player>)
    requires |ps| > 0
    ensures IsBestCountry(ps, BestCountry(ps).value)
  {
    var cs, ss := Countries(ps), CountryStatistics(ps);
    var k := BestIndex(ss);
    assert BestCountry(ps).value == cs[k];
    forall d | d in Codes(ps)
      ensures !Greater(CountryRatio(ps, d), CountryRatio(ps, cs[k]))
      ensures !Greater(CountryRatio(ps, cs[k]), CountryRatio(ps, d)) ==>
                FirstIndex(Codes(ps), cs[k]) <= FirstIndex(Codes(ps), d)
    {
      var j :| 0 <= j < |cs| && cs[j] == d;
      BestAgainst(ps, j);
    }
  }

  /** The selected country compared with the country at position `j`. */
  lemma BestAgainst(ps: seq<Player>, j: nat)
    requires |ps| > 0 && j < |Countries(ps)|
    ensures var cs, k := Countries(ps), BestIndex(CountryStatistics(ps));
      && !Greater(CountryRatio(ps, cs[j]), CountryRatio(ps, cs[k]))
      && (!Greater(CountryRatio(ps, cs[k]), CountryRatio(ps, cs[j])) ==>
            FirstIndex(Codes(ps), cs[k]) <= FirstIndex(Codes(ps), cs[j]))
  {
    var cs, ss := Countries(ps), CountryStatistics(ps);
    var k := BestIndex(ss);
    CountryStatisticAt(ps, k);
    CountryStatisticAt(ps, j);
    assert !Greater(ss[j].winRatio, ss[k].winRatio);
    if j < k {
      assert Greater(ss[k].winRatio, ss[j].winRatio);
    } else if k < j {
      CountriesOrderedAt(ps, k, j);
    }
  }

  /** The three conditions single out one country. */
  lemma BestCountryUnique(ps: seq<Player>, c: string)
    requires IsBestCountry(ps, c)
    ensures BestCountry(ps) == Ok(c)
  {
    var b := BestCountry(ps).value;
    BestCountryIsBest(ps);
    assert FirstIndex(Codes(ps), b) == FirstIndex(Codes(ps), c);
  }

  /** Descending order by win ratio, undefined ratios last, as a key for the
      ascending `SortBy`: defined ratios lie in [-1, 1], so 2 is above every
      negated defined ratio. */
  function DescendingKey(s: CountryStatistic): (r: real)
    ensures InRange(s.winRatio) ==> -1.0 <= r <= 2.0
    ensures InRange(s.winRatio) ==> (s.winRatio.Defined? <==> r <= 1.0)
  {
    match s.winRatio
    case Defined(v) => -v
    case Undefined => 2.0
  }

  ghost predicate InRange(r: Ratio) {
    r.Defined? ==> -1.0 <= r.value <= 1.0
  }

  lemma DescendingKeyOrder(a: CountryStatistic, b: CountryStatistic)
    requires InRange(a.winRatio) && InRange(b.winRatio)
    ensures DescendingKey(a) <= DescendingKey(b) <==> !Greater(b.winRatio, a.winRatio)
  {
  }

  /** After a stable sort by descending ratio, element 0 is the first
      statistic with a maximal ratio. */
  lemma {:induction false} SortedHeadIsBest(ss: seq<CountryStatistic>)
    requires |ss| > 0
    requires forall k :: 0 <= k < |ss| ==> InRange(ss[k].winRatio)
    ensures SortBy(ss, DescendingKey)[0] == ss[BestIndex(ss)]
  {
    if |ss| > 1 {
      SortedHeadIsBest(ss[1..]);
      SortByHead(ss, DescendingKey);
      DescendingKeyOrder(ss[0], SortBy(ss[1..], DescendingKey)[0]);
    }
  }
}
