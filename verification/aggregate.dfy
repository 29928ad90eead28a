/**
 `Analytics.sort_by_revenue` (Analytics.py:140-141): the joined rows are grouped by
 `(Search_Engine_Domain, Search Keyword)`, each group's `Revenue` is summed, and the
 groups are sorted by that sum, largest first. Spark fixes neither the order in which
 groups are formed nor the order of equal sums; the model builds one such order and
 states only what every order shares.
 */
module Aggregate {
  import opened Records

  /** The grouping columns. */
  datatype GroupKey = GroupKey(domain: string, keyword: string)

  function KeyOf(x: JoinedRow): GroupKey
  {
    GroupKey(x.domain, x.keyword)
  }

  function ReportKey(g: ReportRow): GroupKey
  {
    GroupKey(g.domain, g.keyword)
  }

  /** The keys present among the joined rows. */
  function Keys(rows: seq<JoinedRow>): set<GroupKey>
  {
    if |rows| == 0 then {} else {KeyOf(rows[0])} + Keys(rows[1..])
  }

  /** The keys present among the report rows. */
  function ReportKeys(g: seq<ReportRow>): set<GroupKey>
  {
    if |g| == 0 then {} else {ReportKey(g[0])} + ReportKeys(g[1..])
  }

  /** No two report rows share a key. */
  predicate DistinctKeys(g: seq<ReportRow>)
  {
    |g| == 0 || (ReportKey(g[0]) !in ReportKeys(g[1..]) && DistinctKeys(g[1..]))
  }

  /** `sum('Revenue')` over the joined rows of group `k`. */
  function SumFor(rows: seq<JoinedRow>, k: GroupKey): real
  {
    if |rows| == 0 then 0.0
    else (if KeyOf(rows[0]) == k then rows[0].revenue else 0.0) + SumFor(rows[1..], k)
  }

  /** The revenue the report rows of key `k` carry together. */
  function ReportSumFor(g: seq<ReportRow>, k: GroupKey): real
  {
    if |g| == 0 then 0.0
    else (if ReportKey(g[0]) == k then g[0].revenue else 0.0) + ReportSumFor(g[1..], k)
  }

  /** Total revenue of the joined rows. */
  function JoinedTotal(rows: seq<JoinedRow>): real
  {
    if |rows| == 0 then 0.0 else rows[0].revenue + JoinedTotal(rows[1..])
  }

  /** Total revenue of the report rows. */
  function ReportTotal(g: seq<ReportRow>): real
  {
    if |g| == 0 then 0.0 else g[0].revenue + ReportTotal(g[1..])
  }

  /** A key absent from the report contributes nothing to it. */
  lemma {:induction false} AbsentKeySumsToZero(g: seq<ReportRow>, k: GroupKey)
    requires k !in ReportKeys(g)
    ensures ReportSumFor(g, k) == 0.0
  {
    if |g| > 0 {
      AbsentKeySumsToZero(g[1..], k);
    }
  }

  /** Adds one joined row to its group, opening the group when it is new. */
  function AddToGroups(g: seq<ReportRow>, x: JoinedRow): (r: seq<ReportRow>)
    requires DistinctKeys(g)
    ensures DistinctKeys(r)
    ensures ReportKeys(r) == ReportKeys(g) + {KeyOf(x)}
    ensures forall k :: ReportSumFor(r, k) == ReportSumFor(g, k) + (if k == KeyOf(x) then x.revenue else 0.0)
    ensures ReportTotal(r) == ReportTotal(g) + x.revenue
  {
    if |g| == 0 then
      [ReportRow(x.domain, x.keyword, x.revenue)]
    else if ReportKey(g[0]) == KeyOf(x) then
      [g[0].(revenue := g[0].revenue + x.revenue)] + g[1..]
    else
      [g[0]] + AddToGroups(g[1..], x)
  }

  /** `groupBy("Search_Engine_Domain", "Search Keyword").agg(sum('Revenue'))`. */
  function GroupBy(rows: seq<JoinedRow>): (r: seq<ReportRow>)
    ensures DistinctKeys(r)
    ensures ReportKeys(r) == Keys(rows)
    ensures forall k :: ReportSumFor(r, k) == SumFor(rows, k)
    ensures ReportTotal(r) == JoinedTotal(rows)
  {
    if |rows| == 0 then [] else AddToGroups(GroupBy(rows[1..]), rows[0])
  }

  /** With distinct keys, a report row holds all the revenue of its key. */
  lemma {:induction false} DistinctLookup(g: seq<ReportRow>, i: nat)
    requires DistinctKeys(g) && i < |g|
    ensures g[i].revenue == ReportSumFor(g, ReportKey(g[i]))
  {
    if i == 0 {
      AbsentKeySumsToZero(g[1..], ReportKey(g[0]));
    } else {
      DistinctLookup(g[1..], i - 1);
      assert ReportKey(g[i]) in ReportKeys(g[1..]) by {
        KeyInReportKeys(g[1..], i - 1);
      }
    }
  }

  lemma {:induction false} KeyInReportKeys(g: seq<ReportRow>, i: nat)
    requires i < |g|
    ensures ReportKey(g[i]) in ReportKeys(g)
  {
    if i > 0 {
      KeyInReportKeys(g[1..], i - 1);
    }
  }

  /** Sorted by revenue, largest first. */
  predicate SortedDesc(g: seq<ReportRow>)
  {
    forall i, j :: 0 <= i < j < |g| ==> g[i].revenue >= g[j].revenue
  }

  /** Puts `x` in front of the first row whose revenue does not exceed its own. */
  function Insert(x: ReportRow, g: seq<ReportRow>): (r: seq<ReportRow>)
    requires SortedDesc(g)
    ensures SortedDesc(r)
    ensures multiset(r) == multiset(g) + multiset{x}
    ensures r[0] == x || (|g| > 0 && r[0] == g[0])
  {
    if |g| == 0 || x.revenue >= g[0].revenue then
      [x] + g
    else
      assert g == [g[0]] + g[1..];
      [g[0]] + Insert(x, g[1..])
  }

  /** The rows after the first one of an insertion are the insertion into the rest. */
  lemma InsertStep(x: ReportRow, g: seq<ReportRow>)
    requires SortedDesc(g)
    ensures |g| == 0 || x.revenue >= g[0].revenue ==> Insert(x, g) == [x] + g
    ensures |g| > 0 && x.revenue < g[0].revenue ==> Insert(x, g) == [g[0]] + Insert(x, g[1..])
  {
  }

  lemma {:induction false} InsertKeys(x: ReportRow, g: seq<ReportRow>)
    requires SortedDesc(g)
    ensures ReportKeys(Insert(x, g)) == {ReportKey(x)} + ReportKeys(g)
  {
    InsertStep(x, g);
    if |g| == 0 || x.revenue >= g[0].revenue {
      assert ([x] + g)[1..] == g;
    } else {
      InsertKeys(x, g[1..]);
      assert ([g[0]] + Insert(x, g[1..]))[1..] == Insert(x, g[1..]);
    }
  }

  lemma {:induction false} InsertDistinct(x: ReportRow, g: seq<ReportRow>)
    requires SortedDesc(g) && DistinctKeys(g) && ReportKey(x) !in ReportKeys(g)
    ensures DistinctKeys(Insert(x, g))
  {
    InsertStep(x, g);
    if |g| == 0 || x.revenue >= g[0].revenue {
      assert ([x] + g)[1..] == g;
    } else {
      InsertDistinct(x, g[1..]);
      InsertKeys(x, g[1..]);
      assert ([g[0]] + Insert(x, g[1..]))[1..] == Insert(x, g[1..]);
    }
  }

  lemma {:induction false} InsertSum(x: ReportRow, g: seq<ReportRow>, k: GroupKey)
    requires SortedDesc(g)
    ensures ReportSumFor(Insert(x, g), k) == (if ReportKey(x) == k then x.revenue else 0.0) + ReportSumFor(g, k)
  {
    InsertStep(x, g);
    if |g| == 0 || x.revenue >= g[0].revenue {
      assert ([x] + g)[1..] == g;
    } else {
      InsertSum(x, g[1..], k);
      assert ([g[0]] + Insert(x, g[1..]))[1..] == Insert(x, g[1..]);
    }
  }

  lemma {:induction false} InsertTotal(x: ReportRow, g: seq<ReportRow>)
    requires SortedDesc(g)
    ensures ReportTotal(Insert(x, g)) == x.revenue + ReportTotal(g)
  {
    InsertStep(x, g);
    if |g| == 0 || x.revenue >= g[0].revenue {
      assert ([x] + g)[1..] == g;
    } else {
      InsertTotal(x, g[1..]);
      assert ([g[0]] + Insert(x, g[1..]))[1..] == Insert(x, g[1..]);
    }
  }

  /** `sort(f.desc('Revenue'))`, as an insertion sort. */
  function SortDesc(g: seq<ReportRow>): (r: seq<ReportRow>)
    ensures SortedDesc(r)
    ensures multiset(r) == multiset(g)
  {
    if |g| == 0 then []
    else
      assert g == [g[0]] + g[1..];
      Insert(g[0], SortDesc(g[1..]))
  }

  /** Sorting keeps the keys, their distinctness, the per-key revenue and the total. */
  lemma {:induction false} SortKeeps(g: seq<ReportRow>)
    ensures ReportKeys(SortDesc(g)) == ReportKeys(g)
    ensures DistinctKeys(g) ==> DistinctKeys(SortDesc(g))
    ensures forall k :: ReportSumFor(SortDesc(g), k) == ReportSumFor(g, k)
    ensures ReportTotal(SortDesc(g)) == ReportTotal(g)
  {
    if |g| > 0 {
      var rest := SortDesc(g[1..]);
      SortKeeps(g[1..]);
      InsertKeys(g[0], rest);
      if DistinctKeys(g) {
        InsertDistinct(g[0], rest);
      }
      forall k {
        InsertSum(g[0], rest, k);
      }
      InsertTotal(g[0], rest);
    }
  }

  /**
   `sort_by_revenue`: one row per (domain, keyword) group of the joined rows, carrying
   the group's summed revenue, largest first; no revenue is lost or invented.
   */
  function SortByRevenue(rows: seq<JoinedRow>): (r: seq<ReportRow>)
    ensures SortedDesc(r)
    ensures DistinctKeys(r)
    ensures ReportKeys(r) == Keys(rows)
    ensures forall k :: ReportSumFor(r, k) == SumFor(rows, k)
    ensures ReportTotal(r) == JoinedTotal(rows)
  {
    var g := GroupBy(rows);
    SortKeeps(g);
    SortDesc(g)
  }

  /** Each report row carries exactly the summed revenue of its group. */
  lemma ReportRowIsGroupSum(rows: seq<JoinedRow>, i: nat)
    requires i < |SortByRevenue(rows)|
    ensures var r := SortByRevenue(rows);
      r[i].revenue == SumFor(rows, ReportKey(r[i])) && ReportKey(r[i]) in Keys(rows)
  {
    var r := SortByRevenue(rows);
    DistinctLookup(r, i);
    KeyInReportKeys(r, i);
  }

  /** A key absent from the joined rows sums to nothing. */
  lemma {:induction false} SumForPositive(rows: seq<JoinedRow>, k: GroupKey)
    requires forall i :: 0 <= i < |rows| ==> rows[i].revenue > 0.0
    ensures k in Keys(rows) ==> SumFor(rows, k) > 0.0
    ensures k !in Keys(rows) ==> SumFor(rows, k) == 0.0
  {
    if |rows| > 0 {
      SumForPositive(rows[1..], k);
    }
  }

  /** When every joined revenue is positive, so is every reported group. */
  lemma ReportPositive(rows: seq<JoinedRow>, i: nat)
    requires forall j :: 0 <= j < |rows| ==> rows[j].revenue > 0.0
    requires i < |SortByRevenue(rows)|
    ensures SortByRevenue(rows)[i].revenue > 0.0
  {
    var r := SortByRevenue(rows);
    ReportRowIsGroupSum(rows, i);
    SumForPositive(rows, ReportKey(r[i]));
  }
}
