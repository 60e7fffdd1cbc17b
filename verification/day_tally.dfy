/** The per-day bookkeeping that the commits endpoint
    (src/app/api/commits/route.ts) and the heatmap
    (src/components/shipping-heatmap.tsx) both do over a list of commits:
    a count per day key and, per day, an insertion-ordered count per
    repository (a JavaScript `Map`, whose entries iterate in first-insertion
    order), the two largest of those counts, the day keys in ascending order
    and the sum of the counts. */
module DayTally {
  import opened Types
  import opened StableSort

  // ---------------------------------------------------------------------
  // Insertion-ordered per-repository counts

  /** `map.set(repo, (map.get(repo) ?? 0) + 1)`: an existing entry keeps its
      place, a new one goes last. */
  function TallyAdd(t: seq<DayRepoCount>, repo: string): (r: seq<DayRepoCount>)
    decreases |t|
  {
    if t == [] then [DayRepoCount(repo, 1)]
    else if t[0].repo == repo then [DayRepoCount(repo, t[0].count + 1)] + t[1..]
    else [t[0]] + TallyAdd(t[1..], repo)
  }

  /** The counts of `repos`, one entry per repository in order of first
      occurrence. */
  function Tally(repos: seq<string>): seq<DayRepoCount>
    decreases |repos|
  {
    if repos == [] then [] else TallyAdd(Tally(repos[..|repos| - 1]), repos[|repos| - 1])
  }

  /** The repository names of a tally, in order. */
  function Names(t: seq<DayRepoCount>): (names: seq<string>)
    ensures |names| == |t| && forall i :: 0 <= i < |t| ==> names[i] == t[i].repo
  {
    seq(|t|, i requires 0 <= i < |t| => t[i].repo)
  }

  ghost predicate Distinct<T>(s: seq<T>) {
    forall i, j :: 0 <= i < j < |s| ==> s[i] != s[j]
  }

  /** The elements of `s` without repeats, in order of first occurrence. */
  function Dedup<T(==)>(s: seq<T>): seq<T>
    decreases |s|
  {
    if s == [] then []
    else
      var init := s[..|s| - 1];
      Dedup(init) + (if s[|s| - 1] in init then [] else [s[|s| - 1]])
  }

  /** How often `x` occurs in `s`. */
  function Occurrences<T(==)>(s: seq<T>, x: T): nat
    decreases |s|
  {
    if s == [] then 0 else Occurrences(s[..|s| - 1], x) + (if s[|s| - 1] == x then 1 else 0)
  }

  function SumCounts(t: seq<DayRepoCount>): nat
    decreases |t|
  {
    if t == [] then 0 else SumCounts(t[..|t| - 1]) + t[|t| - 1].count
  }

  /** With distinct names, adding `repo` bumps the one entry named `repo` in
      place, or appends a new entry with count 1. */
  lemma {:induction false} TallyAddShape(t: seq<DayRepoCount>, repo: string)
    requires Distinct(Names(t))
    ensures var r := TallyAdd(t, repo);
      && |r| == |t| + (if repo in Names(t) then 0 else 1)
      && (forall i :: 0 <= i < |t| ==>
            r[i] == (if t[i].repo == repo then DayRepoCount(repo, t[i].count + 1) else t[i]))
      && (repo !in Names(t) ==> r[|t|] == DayRepoCount(repo, 1))
    decreases |t|
  {
    if t != [] {
      var tail := t[1..];
      assert Names(t) == [t[0].repo] + Names(tail);
      assert Distinct(Names(tail)) by {
        forall i, j | 0 <= i < j < |tail| ensures Names(tail)[i] != Names(tail)[j] {
          assert Names(t)[i + 1] != Names(t)[j + 1];
        }
      }
      if t[0].repo == repo {
        assert Names(t)[0] == repo;
        forall i | 0 < i < |t| ensures t[i].repo != repo {
          assert Names(t)[0] != Names(t)[i];
        }
        assert TallyAdd(t, repo) == [DayRepoCount(repo, t[0].count + 1)] + tail;
      } else {
        TallyAddShape(tail, repo);
        assert repo in Names(t) <==> repo in Names(tail);
        assert TallyAdd(t, repo) == [t[0]] + TallyAdd(tail, repo);
      }
    }
  }

  /** The names in a tally are the distinct repositories, in order of first
      occurrence. */
  lemma {:induction false} TallyNames(repos: seq<string>)
    ensures Names(Tally(repos)) == Dedup(repos)
    ensures Distinct(Names(Tally(repos)))
    decreases |repos|
  {
    DedupFacts(repos);
    if repos != [] {
      var init, x := repos[..|repos| - 1], repos[|repos| - 1];
      TallyNames(init);
      DedupFacts(init);
      var t := Tally(init);
      TallyAddShape(t, x);
      var r := TallyAdd(t, x);
      var expected := Names(t) + (if x in init then [] else [x]);
      assert |Names(r)| == |expected|;
      forall i | 0 <= i < |r| ensures Names(r)[i] == expected[i] {
      }
      assert Names(r) == expected;
    }
  }

  /** Each entry of a tally counts its repository's occurrences. */
  lemma {:induction false} TallyCounts(repos: seq<string>)
    ensures forall i :: 0 <= i < |Tally(repos)| ==>
      Tally(repos)[i].count == Occurrences(repos, Tally(repos)[i].repo) >= 1
    decreases |repos|
  {
    if repos != [] {
      var init, x := repos[..|repos| - 1], repos[|repos| - 1];
      TallyCounts(init);
      TallyNames(init);
      DedupFacts(init);
      var t := Tally(init);
      TallyAddShape(t, x);
      var r := Tally(repos);
      forall i | 0 <= i < |r| ensures r[i].count == Occurrences(repos, r[i].repo) >= 1 {
        if i >= |t| {
          assert x !in Names(t);
          OccurrencesAbsent(init, x);
        }
      }
    }
  }

  /** A tally's counts add up to the number of repositories counted. */
  lemma {:induction false} TallySum(repos: seq<string>)
    ensures SumCounts(Tally(repos)) == |repos|
    decreases |repos|
  {
    if repos != [] {
      var init := repos[..|repos| - 1];
      TallySum(init);
      TallyNames(init);
      SumCountsShape(Tally(init), repos[|repos| - 1]);
    }
  }

  lemma {:induction false} OccurrencesAbsent<T>(s: seq<T>, x: T)
    requires x !in s
    ensures Occurrences(s, x) == 0
    decreases |s|
  {
    if s != [] {
      assert x !in s[..|s| - 1];
      OccurrencesAbsent(s[..|s| - 1], x);
    }
  }

  /** `Dedup` lists each element of `s` once. */
  lemma {:induction false} DedupFacts<T>(s: seq<T>)
    ensures Distinct(Dedup(s))
    ensures forall x :: x in Dedup(s) <==> x in s
    decreases |s|
  {
    if s != [] {
      var init, x := s[..|s| - 1], s[|s| - 1];
      DedupFacts(init);
      assert s == init + [x];
    }
  }

  /** Adding to a tally adds one to its total. */
  lemma {:induction false} SumCountsShape(t: seq<DayRepoCount>, repo: string)
    requires Distinct(Names(t))
    ensures SumCounts(TallyAdd(t, repo)) == SumCounts(t) + 1
    decreases |t|
  {
    TallyAddShape(t, repo);
    var r := TallyAdd(t, repo);
    if repo in Names(t) {
      var k :| 0 <= k < |t| && Names(t)[k] == repo;
      SumCountsBump(t, r, k);
    } else {
      assert r[..|t|] == t;
    }
  }

  /** Two tallies that differ only in one entry's count, by one. */
  lemma {:induction false} SumCountsBump(t: seq<DayRepoCount>, r: seq<DayRepoCount>, k: int)
    requires |r| == |t| && 0 <= k < |t|
    requires forall i :: 0 <= i < |t| && i != k ==> r[i].count == t[i].count
    requires r[k].count == t[k].count + 1
    ensures SumCounts(r) == SumCounts(t) + 1
    decreases |t|
  {
    if k < |t| - 1 {
      SumCountsBump(t[..|t| - 1], r[..|r| - 1], k);
    } else {
      SumCountsSame(t[..|t| - 1], r[..|r| - 1]);
    }
  }

  lemma {:induction false} SumCountsSame(t: seq<DayRepoCount>, r: seq<DayRepoCount>)
    requires |r| == |t|
    requires forall i :: 0 <= i < |t| ==> r[i].count == t[i].count
    ensures SumCounts(r) == SumCounts(t)
    decreases |t|
  {
    if t != [] {
      SumCountsSame(t[..|t| - 1], r[..|r| - 1]);
    }
  }

  // ---------------------------------------------------------------------
  // The two largest counts

  function CountKey(e: DayRepoCount): int { e.count }

  /** `entries.sort((a, b) => b[1] - a[1]).slice(0, 2)`: the first two
      entries after a stable sort by count, largest first. */
  function TopTwo(t: seq<DayRepoCount>): seq<DayRepoCount> {
    var sorted := SortByKeyDesc(t, CountKey);
    sorted[..if |sorted| < 2 then |sorted| else 2]
  }

  /** At most two entries, taken from the tally without repeating any,
      largest count first; every entry left out counts no more than the last
      one kept. */
  lemma TopTwoFacts(t: seq<DayRepoCount>)
    ensures var r := TopTwo(t);
      && |r| == (if |t| < 2 then |t| else 2)
      && multiset(r) <= multiset(t)
      && (|r| == 2 ==> r[0].count >= r[1].count)
      && (forall e :: e in multiset(t) - multiset(r) ==> e.count <= r[|r| - 1].count)
  {
    var sorted := SortByKeyDesc(t, CountKey);
    SortByKeyDescSorted(t, CountKey);
    SortByKeyDescPermutes(t, CountKey);
    SortByKeyDescLength(t, CountKey);
    var n := if |sorted| < 2 then |sorted| else 2;
    SortedPrefix(sorted, n);
  }

  /** The first `n` entries of a list sorted by count: they and the rest
      make up the list, and the rest count no more than the last of them. */
  lemma SortedPrefix(sorted: seq<DayRepoCount>, n: nat)
    requires SortedDesc(sorted, CountKey) && n <= |sorted|
    ensures multiset(sorted) == multiset(sorted[..n]) + multiset(sorted[n..])
    ensures n > 0 ==> forall e :: e in sorted[n..] ==> e.count <= sorted[n - 1].count
  {
    assert sorted == sorted[..n] + sorted[n..];
    if n > 0 {
      forall e | e in sorted[n..] ensures e.count <= sorted[n - 1].count {
        var j :| n <= j < |sorted| && sorted[j] == e;
        assert CountKey(sorted[n - 1]) >= CountKey(sorted[j]);
      }
    }
  }

  /** Ties are broken by tally order: for every count, the entries kept with
      that count are the first entries of the tally with that count. */
  lemma TopTwoTies(t: seq<DayRepoCount>)
    ensures forall k :: WithKey(TopTwo(t), CountKey, k) <= WithKey(t, CountKey, k)
  {
    var sorted := SortByKeyDesc(t, CountKey);
    SortByKeyDescStable(t, CountKey);
    var r := TopTwo(t);
    assert sorted == r + sorted[|r|..];
    forall k ensures WithKey(r, CountKey, k) <= WithKey(t, CountKey, k) {
      WithKeyAppend(r, sorted[|r|..], CountKey, k);
    }
  }

  // ---------------------------------------------------------------------
  // Day keys in order, and sums over them

  /** A non-empty set of integers has a least element. */
  lemma {:induction false} MinExists(s: set<int>)
    requires s != {}
    ensures exists m :: m in s && forall x :: x in s ==> m <= x
    decreases |s|
  {
    if forall z :: z !in s {
      assert false;
    }
    var x :| x in s;
    if s != {x} {
      MinExists(s - {x});
      var y :| y in s - {x} && forall z :: z in s - {x} ==> y <= z;
      var m := if y < x then y else x;
      forall z | z in s ensures m <= z {
        if z != x {
          assert z in s - {x};
        }
      }
      assert m in s;
    } else {
      assert forall z :: z in s ==> x <= z;
    }
  }

  /** The smallest element of a non-empty set. */
  function MinOf(s: set<int>): (m: int)
    requires s != {}
    ensures m in s && forall x :: x in s ==> m <= x
  {
    MinExists(s);
    var m :| m in s && forall x :: x in s ==> m <= x;
    m
  }

  /** The keys in ascending order, as the daily summaries are sorted. */
  function SortedKeys(s: set<int>): (r: seq<int>)
    ensures |r| == |s|
    ensures forall x :: x in r <==> x in s
    ensures forall i, j :: 0 <= i < j < |r| ==> r[i] < r[j]
    decreases |s|
  {
    if s == {} then []
    else
      var m := MinOf(s);
      [m] + SortedKeys(s - {m})
  }

  /** The sum of the counts stored under the keys in `s`. */
  function SumSet(m: map<int, nat>, s: set<int>): nat
    requires s <= m.Keys
    decreases |s|
  {
    if s == {} then 0
    else
      var k := MinOf(s);
      m[k] + SumSet(m, s - {k})
  }

  /** The sum of every count in a map: `for (const v of map.values()) total += v`. */
  function Total(m: map<int, nat>): nat {
    SumSet(m, m.Keys)
  }

  /** A sum over a set may start from any of its keys. */
  lemma {:induction false} SumSetRemove(m: map<int, nat>, s: set<int>, k: int)
    requires s <= m.Keys && k in s
    ensures SumSet(m, s) == m[k] + SumSet(m, s - {k})
    decreases |s|
  {
    var mn := MinOf(s);
    if k != mn {
      SumSetRemove(m, s - {mn}, k);
      assert s - {mn} - {k} == s - {k} - {mn};
      assert MinOf(s - {k}) == mn by {
        var mk := MinOf(s - {k});
        assert mn in s - {k};
        assert mk <= mn && mn <= mk;
      }
    }
  }

  /** Sums over a set only read the counts stored under that set. */
  lemma {:induction false} SumSetAgree(m: map<int, nat>, m': map<int, nat>, s: set<int>)
    requires s <= m.Keys && s <= m'.Keys
    requires forall k :: k in s ==> m[k] == m'[k]
    ensures SumSet(m, s) == SumSet(m', s)
    decreases |s|
  {
    if s != {} {
      SumSetAgree(m, m', s - {MinOf(s)});
    }
  }

  /** Two strictly ascending sequences with the same elements are equal: any
      sort of distinct day keys by `a < b ? -1 : 1` gives `SortedKeys`. */
  lemma {:induction false} AscendingUnique(a: seq<int>, b: seq<int>)
    requires forall i, j :: 0 <= i < j < |a| ==> a[i] < a[j]
    requires forall i, j :: 0 <= i < j < |b| ==> b[i] < b[j]
    requires forall x :: x in a <==> x in b
    ensures a == b
    decreases |a|
  {
    if a != [] {
      assert a[0] in a;
    }
    if b != [] {
      assert b[0] in b;
    }
    if a != [] && b != [] {
      assert a[0] in b && b[0] in a;
      assert a[0] == b[0] by {
        var i :| 0 <= i < |b| && b[i] == a[0];
        var j :| 0 <= j < |a| && a[j] == b[0];
        assert b[0] <= b[i] && a[0] <= a[j];
      }
      forall x ensures x in a[1..] <==> x in b[1..] {
        InTail(a, x);
        InTail(b, x);
      }
      AscendingUnique(a[1..], b[1..]);
      assert a == [a[0]] + a[1..] && b == [b[0]] + b[1..];
    }
  }

  /** In a strictly ascending sequence, the tail holds everything but the head. */
  lemma InTail(a: seq<int>, x: int)
    requires a != [] && forall i, j :: 0 <= i < j < |a| ==> a[i] < a[j]
    ensures x in a[1..] <==> x in a && x != a[0]
  {
    if x in a && x != a[0] {
      var i :| 0 <= i < |a| && a[i] == x;
      assert a[1..][i - 1] == x;
    }
  }

  /** The sum of the counts under the keys `ks`, in order. */
  function SumOver(m: map<int, nat>, ks: seq<int>): nat
    requires forall i :: 0 <= i < |ks| ==> ks[i] in m
    decreases |ks|
  {
    if ks == [] then 0 else m[ks[0]] + SumOver(m, ks[1..])
  }

  /** Summing along a key list that starts with `k`. */
  lemma SumOverCons(m: map<int, nat>, k: int, ks: seq<int>)
    requires k in m && forall i :: 0 <= i < |ks| ==> ks[i] in m
    ensures SumOver(m, [k] + ks) == m[k] + SumOver(m, ks)
  {
    assert ([k] + ks)[1..] == ks;
  }

  /** Summing along the sorted keys gives the total over the set. */
  lemma {:induction false} SumOverSortedKeys(m: map<int, nat>, s: set<int>)
    requires s <= m.Keys
    ensures SumOver(m, SortedKeys(s)) == SumSet(m, s)
    decreases |s|
  {
    if s != {} {
      var k := MinOf(s);
      SumOverSortedKeys(m, s - {k});
      SumOverCons(m, k, SortedKeys(s - {k}));
    }
  }

  /** Adding one to a key's count (a new key starting from 0) adds one to
      the total. */
  lemma TotalBump(m: map<int, nat>, k: int)
    ensures Total(m[k := (if k in m then m[k] else 0) + 1]) == Total(m) + 1
  {
    var m' := m[k := (if k in m then m[k] else 0) + 1];
    SumSetRemove(m', m'.Keys, k);
    assert m'.Keys - {k} == m.Keys - {k};
    SumSetAgree(m, m', m.Keys - {k});
    if k in m {
      SumSetRemove(m, m.Keys, k);
    } else {
      assert m.Keys - {k} == m.Keys;
    }
  }

  // ---------------------------------------------------------------------
  // Counting commits per day

  /** The commits whose day key is `d`, in order. */
  function CommitsOn(cs: seq<CommitItem>, dayOf: CommitItem -> int, d: int): seq<CommitItem>
    decreases |cs|
  {
    if cs == [] then []
    else
      var c := cs[|cs| - 1];
      CommitsOn(cs[..|cs| - 1], dayOf, d) + (if dayOf(c) == d then [c] else [])
  }

  /** The commits whose day key passes `keep`, in order. */
  function Kept(cs: seq<CommitItem>, dayOf: CommitItem -> int, keep: int -> bool): seq<CommitItem>
    decreases |cs|
  {
    if cs == [] then []
    else
      var c := cs[|cs| - 1];
      Kept(cs[..|cs| - 1], dayOf, keep) + (if keep(dayOf(c)) then [c] else [])
  }

  /** The repository of each commit, in order. */
  function RepoNames(cs: seq<CommitItem>): (names: seq<string>)
    ensures |names| == |cs| && forall i :: 0 <= i < |cs| ==> names[i] == cs[i].repo
  {
    seq(|cs|, i requires 0 <= i < |cs| => cs[i].repo)
  }

  /** The day-count map the loop over commits leaves behind: for each kept
      commit, one more for its day key. */
  function DayCounts(cs: seq<CommitItem>, dayOf: CommitItem -> int, keep: int -> bool): map<int, nat>
    decreases |cs|
  {
    if cs == [] then map[]
    else
      var m := DayCounts(cs[..|cs| - 1], dayOf, keep);
      var d := dayOf(cs[|cs| - 1]);
      if keep(d) then m[d := (if d in m then m[d] else 0) + 1] else m
  }

  /** The per-day repository tallies the same loop leaves behind. */
  function DayRepos(cs: seq<CommitItem>, dayOf: CommitItem -> int, keep: int -> bool): map<int, seq<DayRepoCount>>
    decreases |cs|
  {
    if cs == [] then map[]
    else
      var m := DayRepos(cs[..|cs| - 1], dayOf, keep);
      var c := cs[|cs| - 1];
      var d := dayOf(c);
      if keep(d) then m[d := TallyAdd(if d in m then m[d] else [], c.repo)] else m
  }

  /** A day has a count exactly when it is kept and some commit falls on it,
      and the count is the number of commits on that day. */
  lemma {:induction false} DayCountsMeaning(cs: seq<CommitItem>, dayOf: CommitItem -> int, keep: int -> bool, d: int)
    ensures d in DayCounts(cs, dayOf, keep) <==> keep(d) && |CommitsOn(cs, dayOf, d)| > 0
    ensures d in DayCounts(cs, dayOf, keep) ==> DayCounts(cs, dayOf, keep)[d] == |CommitsOn(cs, dayOf, d)|
    decreases |cs|
  {
    if cs != [] {
      DayCountsMeaning(cs[..|cs| - 1], dayOf, keep, d);
    }
  }

  /** The days with a repository tally are the days with a count, and each
      day's tally counts the repositories of that day's commits, in order of
      first occurrence. */
  lemma {:induction false} DayReposMeaning(cs: seq<CommitItem>, dayOf: CommitItem -> int, keep: int -> bool, d: int)
    ensures d in DayRepos(cs, dayOf, keep) <==> d in DayCounts(cs, dayOf, keep)
    ensures d in DayRepos(cs, dayOf, keep) ==> DayRepos(cs, dayOf, keep)[d] == Tally(RepoNames(CommitsOn(cs, dayOf, d)))
    decreases |cs|
  {
    if cs != [] {
      var init, c := cs[..|cs| - 1], cs[|cs| - 1];
      DayReposMeaning(init, dayOf, keep, d);
      DayCountsMeaning(init, dayOf, keep, d);
      var before := RepoNames(CommitsOn(init, dayOf, d));
      if keep(d) && dayOf(c) == d {
        var after := RepoNames(CommitsOn(cs, dayOf, d));
        assert after[..|after| - 1] == before && after[|after| - 1] == c.repo;
        assert Tally(after) == TallyAdd(Tally(before), c.repo);
        if d !in DayRepos(init, dayOf, keep) {
          assert before == [];
        }
      } else if dayOf(c) != d {
        assert CommitsOn(cs, dayOf, d) == CommitsOn(init, dayOf, d);
      }
    }
  }

  /** The counts add up to the number of kept commits. */
  lemma {:induction false} DayCountsTotal(cs: seq<CommitItem>, dayOf: CommitItem -> int, keep: int -> bool)
    ensures Total(DayCounts(cs, dayOf, keep)) == |Kept(cs, dayOf, keep)|
    decreases |cs|
  {
    if cs != [] {
      var init := cs[..|cs| - 1];
      DayCountsTotal(init, dayOf, keep);
      var d := dayOf(cs[|cs| - 1]);
      if keep(d) {
        TotalBump(DayCounts(init, dayOf, keep), d);
      }
    }
  }

  /** The loop over commits: one count more per kept commit on its day and,
      when `trackRepos` holds, one more for its repository in that day's
      tally (left empty otherwise). */
  method TallyDays(commits: seq<CommitItem>, dayOf: CommitItem -> int, keep: int -> bool, trackRepos: bool)
    returns (dayCounts: map<int, nat>, perDayRepos: map<int, seq<DayRepoCount>>)
    ensures dayCounts == DayCounts(commits, dayOf, keep)
    ensures perDayRepos == if trackRepos then DayRepos(commits, dayOf, keep) else map[]
  {
    dayCounts := map[];
    perDayRepos := map[];
    for i := 0 to |commits|
      invariant dayCounts == DayCounts(commits[..i], dayOf, keep)
      invariant perDayRepos == if trackRepos then DayRepos(commits[..i], dayOf, keep) else map[]
    {
      assert commits[..i + 1][..i] == commits[..i];
      var commit := commits[i];
      var dayKey := dayOf(commit);
      if !keep(dayKey) {
        continue;
      }
      dayCounts := dayCounts[dayKey := (if dayKey in dayCounts then dayCounts[dayKey] else 0) + 1];
      if !trackRepos {
        continue;
      }
      var existing := if dayKey in perDayRepos then perDayRepos[dayKey] else [];
      perDayRepos := perDayRepos[dayKey := TallyAdd(existing, commit.repo)];
    }
    assert commits[..|commits|] == commits;
  }
}
