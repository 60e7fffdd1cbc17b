/** The statistics behind the shipping heatmap
    (src/components/shipping-heatmap.tsx): commits counted per local day of
    the chosen range, the total, the number of active days, the current
    streak, the best day, the quartile thresholds that pick a cell's shade,
    and the grid of week columns from Monday to Sunday.

    Days are local day numbers (`startOfDay` and `format(…, "yyyy-MM-dd")` of
    the browser's time zone), whose order is the order of the `yyyy-MM-dd`
    keys the component compares. The local day of a commit's instant is a
    parameter, `localDayOf`. */
module ShippingHeatmap {
  import opened Wrappers
  import opened Calendar
  import opened Types
  import opened StableSort
  import opened DayTally

  // ---------------------------------------------------------------------
  // Small helpers

  /** `clampPercentileIndex`: 0 for an empty list, else the index pulled
      into `[0, n - 1]`. */
  function ClampPercentileIndex(n: int, rawIndex: int): (r: int)
    ensures n <= 0 ==> r == 0
    ensures n > 0 ==> 0 <= r < n
    ensures n > 0 && 0 <= rawIndex < n ==> r == rawIndex
  {
    if n <= 0 then 0
    else
      var upper := if n - 1 < rawIndex then n - 1 else rawIndex;
      if 0 > upper then 0 else upper
  }

  /** `quantile`: the element at `floor((n - 1) * percentile)` of a sorted
      list, 0 for an empty one. */
  function Quantile(sorted: seq<int>, percentile: real): (r: int)
    ensures sorted == [] ==> r == 0
    ensures sorted != [] ==> r in sorted
  {
    if |sorted| == 0 then 0
    else sorted[ClampPercentileIndex(|sorted|, ((|sorted| - 1) as real * percentile).Floor)]
  }

  predicate Ascending(s: seq<int>) {
    forall i, j :: 0 <= i < j < |s| ==> s[i] <= s[j]
  }

  /** On an ascending list the quartiles are in order, and each reads the
      index `floor((n - 1) * k / 4)`. */
  lemma QuartilesOrdered(sorted: seq<int>)
    requires Ascending(sorted)
    ensures Quantile(sorted, 0.25) <= Quantile(sorted, 0.5) <= Quantile(sorted, 0.75)
    ensures sorted != [] ==>
      && Quantile(sorted, 0.25) == sorted[(|sorted| - 1) / 4]
      && Quantile(sorted, 0.5) == sorted[(|sorted| - 1) * 2 / 4]
      && Quantile(sorted, 0.75) == sorted[(|sorted| - 1) * 3 / 4]
  {
    if sorted != [] {
      var m := |sorted| - 1;
      FloorQuarter(m, 1);
      FloorQuarter(m, 2);
      FloorQuarter(m, 3);
      assert m * 2 == m + m && m * 3 == m + m + m;
      var i1, i2, i3 := m * 1 / 4, m * 2 / 4, m * 3 / 4;
      assert i1 <= i2 <= i3;
      assert Quantile(sorted, 0.25) == sorted[i1];
      assert Quantile(sorted, 0.5) == sorted[i2];
      assert Quantile(sorted, 0.75) == sorted[i3];
    }
  }

  lemma FloorQuarter(m: nat, k: nat)
    requires k <= 3
    ensures (m as real * (k as real / 4.0)).Floor == m * k / 4
    ensures 0 <= m * k / 4 <= m
  {
    var q := m * k / 4;
    assert m as real * (k as real / 4.0) == (m * k) as real / 4.0;
    assert q as real <= (m * k) as real / 4.0 < q as real + 1.0;
  }

  /** `intensityLevel`: 0 for no commits, then 1 to 4 by the quartile
      thresholds. */
  function IntensityLevel(count: int, q1: int, q2: int, q3: int): (r: int)
    ensures 0 <= r <= 4
    ensures r == 0 <==> count <= 0
    ensures count > 0 ==> (r == 1 <==> count <= q1)
    ensures r == 4 <==> count > 0 && count > q1 && count > q2 && count > q3
  {
    if count <= 0 then 0
    else if count <= q1 then 1
    else if count <= q2 then 2
    else if count <= q3 then 3
    else 4
  }

  /** With ordered thresholds, more commits never give a lighter shade. */
  lemma IntensityMonotone(c1: int, c2: int, q1: int, q2: int, q3: int)
    requires c1 <= c2 && q1 <= q2 <= q3
    ensures IntensityLevel(c1, q1, q2, q3) <= IntensityLevel(c2, q1, q2, q3)
  {
  }

  /** `pluralize`: the singular for exactly one, else the plural, which
      defaults to the singular with an `s`. */
  function Pluralize(count: int, singular: string, plural: Option<string>): (r: string)
    ensures count == 1 ==> r == singular
    ensures count != 1 && plural.Some? ==> r == plural.value
    ensures count != 1 && plural.None? ==> r == singular + "s" && |r| == |singular| + 1
  {
    if count == 1 then singular else plural.GetOr(singular + "s")
  }

  /** `parseYmdToLocalDate`: the local date a `YYYY-MM-DD` key names, for
      real Gregorian dates in the years 0100 to 9999 only (`new Date(y, m, d)`
      reads years 0 to 99 as 1900 to 1999, which the round trip refuses). */
  function ParseYmdToLocalDate(value: string): (r: Option<int>)
    ensures r.Some? <==>
      IsYmdShape(value) && YearField(value) >= 100 && ValidDate(YearField(value), MonthField(value), DayField(value))
    ensures r.Some? ==> r.value == DayNumber(YearField(value), MonthField(value), DayField(value))
  {
    ParseYmdAccepts(value);
    ParseYmd(value)
  }

  // ---------------------------------------------------------------------
  // Counting

  /** The range ends as days, earlier first. */
  function OrderedRange(rangeStart: int, rangeEnd: int): (r: (int, int))
    ensures r.0 <= r.1
    ensures (r.0 == rangeStart && r.1 == rangeEnd) || (r.0 == rangeEnd && r.1 == rangeStart)
  {
    if rangeStart <= rangeEnd then (rangeStart, rangeEnd) else (rangeEnd, rangeStart)
  }

  /** Whether a day lies in the range, ends included. */
  function InRange(lo: int, hi: int): int -> bool {
    d => lo <= d <= hi
  }

  /** A commit's local day. */
  function CommitLocalDay(localDayOf: string -> int): CommitItem -> int {
    (c: CommitItem) => localDayOf(c.committedAt)
  }

  /** A day's count, 0 for a day without commits. */
  function CountOf(counts: map<int, nat>, d: int): nat {
    if d in counts then counts[d] else 0
  }

  /** `for (const value of counts.values()) total += value`, in whatever
      order the keys come. */
  method TotalOf(counts: map<int, nat>) returns (total: nat)
    ensures total == Total(counts)
  {
    total := 0;
    var remaining := counts.Keys;
    while remaining != {}
      invariant remaining <= counts.Keys
      invariant total + SumSet(counts, remaining) == Total(counts)
      decreases |remaining|
    {
      var key :| key in remaining;
      SumSetRemove(counts, remaining, key);
      total := total + counts[key];
      remaining := remaining - {key};
    }
  }

  // ---------------------------------------------------------------------
  // Streak

  /** The number of consecutive days with commits, going back from `cursor`
      and not past `lo`. */
  function Streak(counts: map<int, nat>, lo: int, cursor: int): (r: nat)
    ensures r <= (if cursor >= lo then cursor - lo + 1 else 0)
    ensures forall d :: cursor - r < d <= cursor ==> CountOf(counts, d) > 0
    ensures cursor - r >= lo ==> CountOf(counts, cursor - r) == 0
    decreases cursor - lo + 1
  {
    if cursor < lo || CountOf(counts, cursor) == 0 then 0
    else 1 + Streak(counts, lo, cursor - 1)
  }

  /** The streak loop: a cursor walks back from the last day of the range
      and stops at the first day without commits. */
  method CurrentStreak(counts: map<int, nat>, lo: int, hi: int) returns (streak: nat)
    ensures streak == Streak(counts, lo, hi)
  {
    streak := 0;
    var cursor := hi;
    while cursor >= lo
      invariant streak == hi - cursor
      invariant streak + Streak(counts, lo, cursor) == Streak(counts, lo, hi)
      decreases cursor - lo
    {
      if CountOf(counts, cursor) == 0 {
        break;
      }
      streak := streak + 1;
      cursor := cursor - 1;
    }
  }

  /** A range whose last day has no commits has no streak, and no streak is
      longer than the range. */
  lemma StreakBounds(counts: map<int, nat>, lo: int, hi: int)
    requires lo <= hi
    ensures Streak(counts, lo, hi) <= hi - lo + 1
    ensures CountOf(counts, hi) == 0 ==> Streak(counts, lo, hi) == 0
  {
  }

  // ---------------------------------------------------------------------
  // Best day

  /** The day with the most commits, the latest of those in a tie. */
  ghost predicate IsBestDay(counts: map<int, nat>, k: int) {
    && k in counts && counts[k] > 0
    && forall j :: j in counts ==> counts[j] < counts[k] || (counts[j] == counts[k] && j <= k)
  }

  /** There is at most one best day, so the loop's answer does not depend on
      the order it meets the days in. */
  lemma BestDayUnique(counts: map<int, nat>, a: int, b: int)
    requires IsBestDay(counts, a) && IsBestDay(counts, b)
    ensures a == b
  {
  }

  /** The best-day loop, over the days in any order: nothing until a day
      with commits; then a day with more commits, or as many on a later day,
      takes over. */
  method BestDay(counts: map<int, nat>) returns (bestKey: Option<int>, bestCount: nat)
    ensures bestKey.None? <==> forall k :: k in counts ==> counts[k] == 0
    ensures bestKey.None? ==> bestCount == 0
    ensures bestKey.Some? ==> IsBestDay(counts, bestKey.value) && bestCount == counts[bestKey.value]
  {
    bestKey := None;
    bestCount := 0;
    var remaining := counts.Keys;
    while remaining != {}
      invariant remaining <= counts.Keys
      invariant bestKey.None? ==> bestCount == 0 && forall k :: k in counts && k !in remaining ==> counts[k] == 0
      invariant bestKey.Some? ==>
        && bestKey.value in counts && bestKey.value !in remaining
        && bestCount == counts[bestKey.value] > 0
        && forall k :: k in counts && k !in remaining ==>
             counts[k] < bestCount || (counts[k] == bestCount && k <= bestKey.value)
      decreases |remaining|
    {
      MinExists(remaining);
      var key :| key in remaining;
      var count := counts[key];
      if count > bestCount || (count == bestCount && bestKey.Some? && key > bestKey.value) {
        bestCount := count;
        bestKey := Some(key);
      }
      if bestKey.None? && count > 0 {
        bestCount := count;
        bestKey := Some(key);
      }
      remaining := remaining - {key};
    }
  }

  // ---------------------------------------------------------------------
  // Shade thresholds

  /** The positive values of `s`, in order. */
  function Positive(s: seq<int>): (r: seq<int>)
    ensures forall x :: x in r <==> x in s && x > 0
    decreases |s|
  {
    if s == [] then []
    else (if s[0] > 0 then [s[0]] else []) + Positive(s[1..])
  }

  function Negate(x: int): int { -x }

  /** The days' counts in key order. */
  function CountsInOrder(counts: map<int, nat>): (r: seq<int>)
    ensures forall x :: x in r <==> exists k :: k in counts && counts[k] == x
  {
    CountsOf(counts, SortedKeys(counts.Keys))
  }

  /** The counts of the days `ks`, in that order. */
  function CountsOf(counts: map<int, nat>, ks: seq<int>): (r: seq<int>)
    requires forall k :: k in ks ==> k in counts
    ensures forall x :: x in r <==> exists k :: k in ks && counts[k] == x
    decreases |ks|
  {
    if ks == [] then []
    else
      var rest := CountsOf(counts, ks[1..]);
      assert forall k :: k in ks <==> k == ks[0] || k in ks[1..];
      [counts[ks[0]] as int] + rest
  }

  /** The positive counts, smallest first (a sort by `a - b`). */
  function NonZeroSorted(counts: map<int, nat>): seq<int> {
    SortByKeyDesc(Positive(CountsInOrder(counts)), Negate)
  }

  /** Some day's count is `q`. */
  ghost predicate IsDayCount(counts: map<int, nat>, q: int) {
    exists k :: k in counts && counts[k] == q
  }

  /** The sorted positive counts are ascending. */
  lemma NonZeroSortedAscending(counts: map<int, nat>)
    ensures Ascending(NonZeroSorted(counts))
  {
    var p := Positive(CountsInOrder(counts));
    var nz := NonZeroSorted(counts);
    SortByKeyDescSorted(p, Negate);
    forall i, j | 0 <= i < j < |nz| ensures nz[i] <= nz[j] {
      assert Negate(nz[i]) >= Negate(nz[j]);
    }
  }

  /** The sorted positive counts hold exactly the positive counts of the
      days. */
  lemma NonZeroSortedMembers(counts: map<int, nat>)
    ensures forall x :: x in NonZeroSorted(counts) <==> x > 0 && IsDayCount(counts, x)
  {
    var c := CountsInOrder(counts);
    var p := Positive(c);
    var nz := NonZeroSorted(counts);
    SortByKeyDescPermutes(p, Negate);
    forall x ensures x in nz <==> x > 0 && IsDayCount(counts, x) {
      assert x in nz <==> x in multiset(nz);
      assert x in p <==> x in multiset(p);
      assert x in p <==> x in c && x > 0;
    }
  }

  /** The thresholds are in order; with no commits all three are 0, and
      otherwise each is the positive count of some day. */
  lemma ThresholdsFacts(counts: map<int, nat>)
    ensures var nz := NonZeroSorted(counts);
      var q1, q2, q3 := Quantile(nz, 0.25), Quantile(nz, 0.5), Quantile(nz, 0.75);
      && q1 <= q2 <= q3
      && ((forall k :: k in counts ==> counts[k] == 0) ==> q1 == 0 && q2 == 0 && q3 == 0)
      && ((exists k :: k in counts && counts[k] > 0) ==>
            && q1 > 0 && IsDayCount(counts, q1)
            && q2 > 0 && IsDayCount(counts, q2)
            && q3 > 0 && IsDayCount(counts, q3))
  {
    var nz := NonZeroSorted(counts);
    NonZeroSortedAscending(counts);
    NonZeroSortedMembers(counts);
    QuartilesOrdered(nz);
    if exists k :: k in counts && counts[k] > 0 {
      var k :| k in counts && counts[k] > 0;
      assert counts[k] in nz;
    }
  }

  // ---------------------------------------------------------------------
  // The grid

  /** The day of the week, 0 for Monday to 6 for Sunday; day 0, 1970-01-01,
      was a Thursday. */
  function Weekday(d: int): (r: int)
    ensures 0 <= r < 7
  {
    (d + 3) % 7
  }

  /** `startOfWeek(…, { weekStartsOn: 1 })`. */
  function GridStart(lo: int): int {
    lo - Weekday(lo)
  }

  /** `endOfWeek(…, { weekStartsOn: 1 })`. */
  function GridEnd(hi: int): int {
    hi - Weekday(hi) + 6
  }

  /** `Math.max(1, Math.ceil(daySpan / 7))`. */
  function WeekCount(lo: int, hi: int): (n: int)
    ensures n >= 1
  {
    var span := GridEnd(hi) - GridStart(lo) + 1;
    if span <= 7 then 1 else (span + 6) / 7
  }

  /** The week column of day `d`. */
  function WeekOf(lo: int, d: int): int {
    (d - GridStart(lo)) / 7
  }

  /** The row of day `d`, 0 for Monday. */
  function RowOf(lo: int, d: int): int {
    (d - GridStart(lo)) % 7
  }

  /** The grid runs from the Monday on or before the first day to the Sunday
      on or after the last, in whole weeks, so every day of the range has
      exactly one cell: week `(d - start) / 7`, row `(d - start) % 7`. */
  lemma GridFacts(lo: int, hi: int)
    requires lo <= hi
    ensures Weekday(GridStart(lo)) == 0 && GridStart(lo) <= lo < GridStart(lo) + 7
    ensures Weekday(GridEnd(hi)) == 6 && hi <= GridEnd(hi) < hi + 7
    ensures GridEnd(hi) - GridStart(lo) + 1 == 7 * WeekCount(lo, hi)
    ensures forall d :: lo <= d <= hi ==>
      0 <= WeekOf(lo, d) < WeekCount(lo, hi) && 0 <= RowOf(lo, d) < 7
      && GridStart(lo) + 7 * WeekOf(lo, d) + RowOf(lo, d) == d
  {
    var span := GridEnd(hi) - GridStart(lo) + 1;
    assert (GridStart(lo) + 3) % 7 == 0;
    assert (GridEnd(hi) + 3) % 7 == 6;
    assert span % 7 == 0;
  }

  /** One cell of the grid. */
  datatype Cell = Cell(day: int, inRange: bool, count: nat, topRepos: seq<DayRepoCount>)

  /** The cell for day `d`: its count and, for all projects, its two largest
      repositories, when the day is in the range; empty otherwise. */
  function CellAt(lo: int, hi: int, counts: map<int, nat>, perDay: map<int, seq<DayRepoCount>>, isAll: bool, d: int): (c: Cell)
    ensures c.day == d && (c.inRange <==> lo <= d <= hi)
    ensures !c.inRange ==> c.count == 0 && c.topRepos == []
    ensures c.inRange ==> c.count == CountOf(counts, d)
    ensures !isAll ==> c.topRepos == []
    ensures c.inRange && isAll && d in perDay ==> c.topRepos == TopTwo(perDay[d])
  {
    var inRange := lo <= d <= hi;
    var count := if inRange then CountOf(counts, d) else 0;
    var topRepos := if inRange && isAll && d in perDay then TopTwo(perDay[d]) else [];
    Cell(d, inRange, count, topRepos)
  }

  /** A cell never lists more than two repositories, lists them largest
      first, and takes them, without repeats, from that day's tally. */
  lemma CellTopRepos(lo: int, hi: int, counts: map<int, nat>, perDay: map<int, seq<DayRepoCount>>, isAll: bool, d: int)
    ensures var c := CellAt(lo, hi, counts, perDay, isAll, d);
      && |c.topRepos| <= 2 && (|c.topRepos| == 2 ==> c.topRepos[0].count >= c.topRepos[1].count)
      && (c.topRepos != [] ==> d in perDay && multiset(c.topRepos) <= multiset(perDay[d]))
  {
    if lo <= d <= hi && isAll && d in perDay {
      TopTwoFacts(perDay[d]);
    }
  }

  /** `weeks` is the grid of the range: `WeekCount` weeks of seven cells,
      cell `d` of week `w` being the one for the `d`-th day after the grid's
      Monday plus `w` weeks. */
  ghost predicate IsGrid(weeks: seq<seq<Cell>>, lo: int, hi: int, counts: map<int, nat>, perDay: map<int, seq<DayRepoCount>>, isAll: bool) {
    && |weeks| == WeekCount(lo, hi)
    && (forall w :: 0 <= w < |weeks| ==> |weeks[w]| == 7)
    && forall w, d :: 0 <= w < |weeks| && 0 <= d < 7 ==>
         weeks[w][d] == CellAt(lo, hi, counts, perDay, isAll, GridStart(lo) + 7 * w + d)
  }

  /** The week loop: seven cells a week, from the grid's Monday. */
  method BuildGrid(lo: int, hi: int, counts: map<int, nat>, perDay: map<int, seq<DayRepoCount>>, isAll: bool)
    returns (weeks: seq<seq<Cell>>)
    ensures IsGrid(weeks, lo, hi, counts, perDay, isAll)
  {
    var gridStart := GridStart(lo);
    var weekCount := WeekCount(lo, hi);
    weeks := [];
    for w := 0 to weekCount
      invariant |weeks| == w
      invariant forall i :: 0 <= i < w ==> |weeks[i]| == 7
      invariant forall i, d :: 0 <= i < w && 0 <= d < 7 ==>
        weeks[i][d] == CellAt(lo, hi, counts, perDay, isAll, gridStart + 7 * i + d)
    {
      var weekStart := gridStart + w * 7;
      var days: seq<Cell> := [];
      for d := 0 to 7
        invariant |days| == d
        invariant forall j :: 0 <= j < d ==> days[j] == CellAt(lo, hi, counts, perDay, isAll, weekStart + j)
      {
        days := days + [CellAt(lo, hi, counts, perDay, isAll, weekStart + d)];
      }
      weeks := weeks + [days];
    }
  }

  // ---------------------------------------------------------------------
  // The whole component

  datatype Stats = Stats(
    dayCounts: map<int, nat>,
    perDayRepoCounts: map<int, seq<DayRepoCount>>,
    totalCommits: nat,
    activeDays: nat,
    currentStreak: nat,
    bestDayKey: Option<int>,
    bestDayCount: nat,
    q1: int,
    q2: int,
    q3: int,
    weeks: seq<seq<Cell>>)

  /** The statistics drawn from the day counts alone: the total, the streak
      ending on the last day, the best day (none exactly when the total is
      zero) and the three thresholds. */
  method Summarise(dayCounts: map<int, nat>, lo: int, hi: int)
    returns (totalCommits: nat, currentStreak: nat, bestDayKey: Option<int>, bestDayCount: nat, q1: int, q2: int, q3: int)
    ensures totalCommits == Total(dayCounts)
    ensures currentStreak == Streak(dayCounts, lo, hi)
    ensures bestDayKey.None? <==> totalCommits == 0
    ensures bestDayKey.Some? ==> IsBestDay(dayCounts, bestDayKey.value) && bestDayCount == dayCounts[bestDayKey.value]
    ensures var nz := NonZeroSorted(dayCounts);
      q1 == Quantile(nz, 0.25) && q2 == Quantile(nz, 0.5) && q3 == Quantile(nz, 0.75)
  {
    totalCommits := TotalOf(dayCounts);
    currentStreak := CurrentStreak(dayCounts, lo, hi);
    bestDayKey, bestDayCount := BestDay(dayCounts);
    TotalZeroIffNoCounts(dayCounts);
    var nonZero := NonZeroSorted(dayCounts);
    q1, q2, q3 := Quantile(nonZero, 0.25), Quantile(nonZero, 0.5), Quantile(nonZero, 0.75);
  }

  /** The component's computations, in the order its memo blocks run them:
      only commits whose local day lies in the (reordered) range are counted,
      per repository too when all projects are shown; the total is the
      number of counted commits; the streak, best day, thresholds and grid
      are read off the counts. */
  method Compute(commits: seq<CommitItem>, rangeStart: int, rangeEnd: int, selectedRepo: string, localDayOf: string -> int)
    returns (s: Stats)
    ensures var lo, hi := OrderedRange(rangeStart, rangeEnd).0, OrderedRange(rangeStart, rangeEnd).1;
      var dayOf := CommitLocalDay(localDayOf);
      var isAll := selectedRepo == "all";
      && s.dayCounts == DayCounts(commits, dayOf, InRange(lo, hi))
      && s.perDayRepoCounts == (if isAll then DayRepos(commits, dayOf, InRange(lo, hi)) else map[])
      && s.totalCommits == |Kept(commits, dayOf, InRange(lo, hi))|
      && s.activeDays == |s.dayCounts|
      && s.currentStreak == Streak(s.dayCounts, lo, hi)
      && (s.bestDayKey.None? <==> s.totalCommits == 0)
      && (s.bestDayKey.Some? ==> IsBestDay(s.dayCounts, s.bestDayKey.value) && s.bestDayCount == s.dayCounts[s.bestDayKey.value])
      && s.q1 == Quantile(NonZeroSorted(s.dayCounts), 0.25)
      && s.q2 == Quantile(NonZeroSorted(s.dayCounts), 0.5)
      && s.q3 == Quantile(NonZeroSorted(s.dayCounts), 0.75)
      && IsGrid(s.weeks, lo, hi, s.dayCounts, s.perDayRepoCounts, isAll)
  {
    var lo, hi := OrderedRange(rangeStart, rangeEnd).0, OrderedRange(rangeStart, rangeEnd).1;
    var dayOf := CommitLocalDay(localDayOf);
    var isAll := selectedRepo == "all";
    var dayCounts, perDayRepoCounts := TallyDays(commits, dayOf, InRange(lo, hi), isAll);
    DayCountsTotal(commits, dayOf, InRange(lo, hi));
    var totalCommits, currentStreak, bestDayKey, bestDayCount, q1, q2, q3 := Summarise(dayCounts, lo, hi);
    var weeks := BuildGrid(lo, hi, dayCounts, perDayRepoCounts, isAll);
    s := Stats(dayCounts, perDayRepoCounts, totalCommits, |dayCounts|, currentStreak, bestDayKey, bestDayCount, q1, q2, q3, weeks);
  }

  /** The counts add up to zero exactly when every one of them is zero. */
  lemma TotalZeroIffNoCounts(counts: map<int, nat>)
    ensures Total(counts) == 0 <==> forall k :: k in counts ==> counts[k] == 0
  {
    if forall k :: k in counts ==> counts[k] == 0 {
      NoCountsNoTotal(counts);
    } else {
      var k :| k in counts && counts[k] != 0;
      SumSetRemove(counts, counts.Keys, k);
    }
  }

  /** Counts that are all zero add up to zero. */
  lemma {:induction false} NoCountsNoTotal(counts: map<int, nat>)
    requires forall k :: k in counts ==> counts[k] == 0
    ensures Total(counts) == 0
  {
    ZeroSum(counts, counts.Keys);
  }

  lemma {:induction false} ZeroSum(counts: map<int, nat>, s: set<int>)
    requires s <= counts.Keys && forall k :: k in s ==> counts[k] == 0
    ensures SumSet(counts, s) == 0
    decreases |s|
  {
    if s != {} {
      ZeroSum(counts, s - {MinOf(s)});
    }
  }
}
