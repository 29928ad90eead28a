/**
 The rows that flow through the job. `Hit` is the projection of the hit-data feed read
 at Analytics.py:56 (`product_list`, `ip`, `referrer`, `event_list`); the nullable
 columns are options. The others are the rows of the derived data frames.
 */
module Records {
  import opened Wrappers

  datatype Hit = Hit(productList: Option<string>, ip: string, referrer: Option<string>, eventList: Option<string>)

  /** A row of `fetch_external_sources`: `ip, referrer, Search_Engine_Domain`. */
  datatype ExternalRow = ExternalRow(ip: string, referrer: string, domain: string)

  /** A row of `calculate_total_revenue`: `ip, Revenue`. */
  datatype RevenueRow = RevenueRow(ip: string, revenue: real)

  /** A row of `find_keyword`: `Search Keyword, ip`. */
  datatype KeywordRow = KeywordRow(ip: string, keyword: string)

  /** An external-source row after `drop('referrer')`. */
  datatype IpDomain = IpDomain(ip: string, domain: string)

  /** A row of the three-way join on `ip`, before `drop("ip")`. */
  datatype KeyedRow = KeyedRow(ip: string, revenue: real, domain: string, keyword: string)

  /** A row of `join_the_dfs`: `Revenue, Search_Engine_Domain, Search Keyword`. */
  datatype JoinedRow = JoinedRow(revenue: real, domain: string, keyword: string)

  /** A row of the final report: one (domain, keyword) group and its summed revenue. */
  datatype ReportRow = ReportRow(domain: string, keyword: string, revenue: real)
}
