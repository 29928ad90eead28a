/**
 The `__main__` block of Analytics.py (lines 160-184) without its I/O: the hit rows are
 run through `fetch_external_sources`, `calculate_total_revenue`, `find_keyword`,
 `join_the_dfs` and `sort_by_revenue`, in that order. The Spark read and the S3 write
 are not part of this model; the job's input is the already-projected rows.
 */
module Analytics {
  import opened Wrappers
  import Strings
  import opened Records
  import opened Referrals
  import opened Keywords
  import opened Revenue
  import opened Joins
  import opened Aggregate

  /** The job's stages from the hit rows to the report, with revenue computed in `mode`. */
  function RunPipeline(mode: RevenueMode, hits: seq<Hit>): (r: Result<seq<ReportRow>, RevenueError>)
    ensures r.Success? <==> forall i :: 0 <= i < |hits| && IsPurchase(hits[i]) ==> RowRevenue(mode, hits[i]).Success?
    ensures r.Failure? ==> exists i :: 0 <= i < |hits| && IsPurchase(hits[i]) && RowRevenue(mode, hits[i]) == Failure(r.error)
    ensures r.Success? ==> SortedDesc(r.value) && DistinctKeys(r.value)
  {
    var external := FetchExternalSources(hits);
    var revenue :- CalculateTotalRevenue(mode, hits);
    var keywords := FindKeyword(external);
    Success(SortByRevenue(JoinTheDfs(external, revenue, keywords)))
  }

  /**
   The job as written: revenue is extracted by the loop that deletes its key on every
   entry, so the job completes exactly when every purchase's product list is a single
   entry with a readable revenue.
   */
  function Pipeline(hits: seq<Hit>): (r: Result<seq<ReportRow>, RevenueError>)
    ensures r.Success? <==> forall i :: 0 <= i < |hits| && IsPurchase(hits[i]) ==> SingleReadableEntry(hits[i])
    ensures r.Success? ==> SortedDesc(r.value) && DistinctKeys(r.value)
  {
    forall i | 0 <= i < |hits| {
      AsWrittenRowSucceeds(hits[i]);
    }
    RunPipeline(AsWritten, hits)
  }

  /**
   The job with the revenue loop corrected: every entry of a purchase is summed, and
   the job completes exactly when every purchase has a product list whose entries all
   have a readable revenue.
   */
  function PipelineIntended(hits: seq<Hit>): (r: Result<seq<ReportRow>, RevenueError>)
    ensures r.Success? <==> forall i :: 0 <= i < |hits| && IsPurchase(hits[i]) ==> AllEntriesReadable(hits[i])
    ensures r.Success? ==> SortedDesc(r.value) && DistinctKeys(r.value)
  {
    forall i | 0 <= i < |hits| {
      IntendedRowSucceeds(hits[i]);
    }
    RunPipeline(Intended, hits)
  }

  /** A group key of the joined rows names the domain and keyword of some joined row. */
  lemma {:induction false} KeyHasRow(rows: seq<JoinedRow>, k: GroupKey)
    requires k in Keys(rows)
    ensures exists i :: 0 <= i < |rows| && KeyOf(rows[i]) == k
  {
    if KeyOf(rows[0]) != k {
      KeyHasRow(rows[1..], k);
      var i :| 0 <= i < |rows[1..]| && KeyOf(rows[1..][i]) == k;
      assert KeyOf(rows[i + 1]) == k;
    }
  }

  /**
   What a joined row carries: its revenue is a positive revenue row of its `ip`, its domain
   an external-source row of that `ip`, and its keyword the keyword of such a row.
   */
  lemma JoinedRowOrigin(external: seq<ExternalRow>, revenue: seq<RevenueRow>, j: nat)
    requires forall k :: 0 <= k < |revenue| ==> revenue[k].revenue > 0.0
    requires j < |JoinOnIp(revenue, DropReferrer(external), FindKeyword(external))|
    ensures var x := JoinOnIp(revenue, DropReferrer(external), FindKeyword(external))[j];
      && x.revenue > 0.0
      && (exists i :: 0 <= i < |external| && external[i].ip == x.ip && external[i].domain == x.domain)
      && (exists i :: 0 <= i < |external| && external[i].ip == x.ip && x.keyword == Keyword(external[i].referrer))
  {
    var ext := DropReferrer(external);
    var kws := FindKeyword(external);
    var x := JoinOnIp(revenue, ext, kws)[j];
    JoinMembership(revenue, ext, kws, x);
    var a :| 0 <= a < |revenue| && revenue[a] == RevenueRow(x.ip, x.revenue);
    var b :| 0 <= b < |ext| && ext[b] == IpDomain(x.ip, x.domain);
    var c :| 0 <= c < |kws| && kws[c] == KeywordRow(x.ip, x.keyword);
    assert external[b].ip == x.ip && external[b].domain == x.domain;
    assert external[c].ip == x.ip && x.keyword == Keyword(external[c].referrer);
  }

  /**
   Every report row of a successful run is a search-engine referral: its domain is not the
   shop's own, its keyword holds no `-` and no `&`, and its revenue is positive.
   */
  lemma ReportRowShape(mode: RevenueMode, hits: seq<Hit>, n: nat)
    requires RunPipeline(mode, hits).Success? && n < |RunPipeline(mode, hits).value|
    ensures var row := RunPipeline(mode, hits).value[n];
      && row.revenue > 0.0
      && !Strings.EndsWith(row.domain, InternalDomain)
      && Placeholder !in row.keyword && '&' !in row.keyword
  {
    var external := FetchExternalSources(hits);
    var revenue := CalculateTotalRevenue(mode, hits).value;
    var keyed := JoinOnIp(revenue, DropReferrer(external), FindKeyword(external));
    var joined := DropIp(keyed);
    var report := SortByRevenue(joined);
    assert RunPipeline(mode, hits).value == report;
    forall j | 0 <= j < |joined|
      ensures joined[j].revenue > 0.0
    {
      JoinedRowOrigin(external, revenue, j);
    }
    ReportPositive(joined, n);
    ReportRowIsGroupSum(joined, n);
    KeyHasRow(joined, ReportKey(report[n]));
    var j :| 0 <= j < |joined| && KeyOf(joined[j]) == ReportKey(report[n]);
    JoinedRowOrigin(external, revenue, j);
    var b :| 0 <= b < |external| && external[b].ip == keyed[j].ip && external[b].domain == keyed[j].domain;
    var c :| 0 <= c < |external| && external[c].ip == keyed[j].ip && keyed[j].keyword == Keyword(external[c].referrer);
    assert Keyword(external[c].referrer) == keyed[j].keyword;
  }

  /**
   On success the report holds one row per (domain, keyword) group of the joined rows,
   each carrying that group's summed revenue, and the grand total is kept.
   */
  lemma ReportSummarisesJoin(mode: RevenueMode, hits: seq<Hit>)
    requires RunPipeline(mode, hits).Success?
    ensures var external := FetchExternalSources(hits);
      var joined := JoinTheDfs(external, CalculateTotalRevenue(mode, hits).value, FindKeyword(external));
      var report := RunPipeline(mode, hits).value;
      && ReportKeys(report) == Keys(joined)
      && (forall k :: ReportSumFor(report, k) == SumFor(joined, k))
      && ReportTotal(report) == JoinedTotal(joined)
  {
  }

  lemma {:induction false} ExternalCountsAgree(external: seq<ExternalRow>, ip: string)
    ensures KeywordCount(FindKeyword(external), ip) == DomainCount(DropReferrer(external), ip)
  {
    if |external| > 0 {
      ExternalCountsAgree(external[1..], ip);
      assert FindKeyword(external)[1..] == FindKeyword(external[1..]);
      assert DropReferrer(external)[1..] == DropReferrer(external[1..]);
    }
  }

  /**
   Fan-out of the job's join: keyword rows are derived one per external-source row, so an
   `ip` with `n` external rows and `m` revenue rows yields `m * n * n` joined rows.
   */
  lemma JobJoinFanOut(external: seq<ExternalRow>, revenue: seq<RevenueRow>, ip: string)
    ensures var n := DomainCount(DropReferrer(external), ip);
      KeyedCount(JoinOnIp(revenue, DropReferrer(external), FindKeyword(external)), ip)
        == RevenueCount(revenue, ip) * (n * n)
  {
    JoinIpCount(revenue, DropReferrer(external), FindKeyword(external), ip);
    ExternalCountsAgree(external, ip);
  }
}
