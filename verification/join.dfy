/**
 `Analytics.join_the_dfs` (Analytics.py:135-136): the revenue rows are inner-joined
 with the external-source rows (after `drop('referrer')`) on `ip`, that result with the
 keyword rows on `ip`, and `ip` is dropped. No row is deduplicated, so a key that
 occurs several times in a relation multiplies the joined rows.
 */
module Joins {
  import opened Records

  /** `external_source_df.drop('referrer')`. */
  function DropReferrer(external: seq<ExternalRow>): (r: seq<IpDomain>)
    ensures |r| == |external|
    ensures forall i :: 0 <= i < |r| ==> r[i] == IpDomain(external[i].ip, external[i].domain)
  {
    seq(|external|, i requires 0 <= i < |external| => IpDomain(external[i].ip, external[i].domain))
  }

  /** One revenue row and one domain row of the same `ip`, joined with every keyword row of that `ip`. */
  function JoinKeywords(r: RevenueRow, e: IpDomain, keywords: seq<KeywordRow>): seq<KeyedRow>
  {
    if |keywords| == 0 then []
    else
      (if keywords[0].ip == r.ip then [KeyedRow(r.ip, r.revenue, e.domain, keywords[0].keyword)] else [])
      + JoinKeywords(r, e, keywords[1..])
  }

  /** One revenue row joined with the domain rows, then the keyword rows, of its `ip`. */
  function JoinExternal(r: RevenueRow, external: seq<IpDomain>, keywords: seq<KeywordRow>): seq<KeyedRow>
  {
    if |external| == 0 then []
    else
      (if external[0].ip == r.ip then JoinKeywords(r, external[0], keywords) else [])
      + JoinExternal(r, external[1..], keywords)
  }

  /** `revenue ⋈ external ⋈ keywords` on `ip`, keeping `ip`. */
  function JoinOnIp(revenue: seq<RevenueRow>, external: seq<IpDomain>, keywords: seq<KeywordRow>): seq<KeyedRow>
  {
    if |revenue| == 0 then []
    else JoinExternal(revenue[0], external, keywords) + JoinOnIp(revenue[1..], external, keywords)
  }

  /** `drop("ip")`. */
  function DropIp(rows: seq<KeyedRow>): (r: seq<JoinedRow>)
    ensures |r| == |rows|
    ensures forall i :: 0 <= i < |r| ==> r[i] == JoinedRow(rows[i].revenue, rows[i].domain, rows[i].keyword)
  {
    seq(|rows|, i requires 0 <= i < |rows| => JoinedRow(rows[i].revenue, rows[i].domain, rows[i].keyword))
  }

  /**
   `join_the_dfs(external_source_df, revenue_positive_df, search_keyword_df)`: a row
   `(revenue, domain, keyword)` is in the result exactly when some external-source row
   carries that domain for an `ip` that has that revenue and that keyword. Its rows
   are those of `JoinOnIp`, one for one with `ip` dropped, so `JoinMultiplicity` and
   `JoinIpCount` count the rows of the result.
   */
  function JoinTheDfs(external: seq<ExternalRow>, revenue: seq<RevenueRow>, keywords: seq<KeywordRow>): (r: seq<JoinedRow>)
    ensures forall y :: y in r <==> JoinedFrom(external, revenue, keywords, y)
  {
    forall y
      ensures y in DropIp(JoinOnIp(revenue, DropReferrer(external), keywords)) <==> JoinedFrom(external, revenue, keywords, y)
    {
      JoinedRowIff(external, revenue, keywords, y);
    }
    DropIp(JoinOnIp(revenue, DropReferrer(external), keywords))
  }

  /** Some external-source row pairs `y`'s domain with an `ip` of `y`'s revenue and keyword. */
  predicate JoinedFrom(external: seq<ExternalRow>, revenue: seq<RevenueRow>, keywords: seq<KeywordRow>, y: JoinedRow)
  {
    exists j :: 0 <= j < |external| && external[j].domain == y.domain
      && RevenueRow(external[j].ip, y.revenue) in revenue && KeywordRow(external[j].ip, y.keyword) in keywords
  }

  lemma JoinedRowIff(external: seq<ExternalRow>, revenue: seq<RevenueRow>, keywords: seq<KeywordRow>, y: JoinedRow)
    ensures y in DropIp(JoinOnIp(revenue, DropReferrer(external), keywords)) <==> JoinedFrom(external, revenue, keywords, y)
  {
    var domains := DropReferrer(external);
    var keyed := JoinOnIp(revenue, domains, keywords);
    if y in DropIp(keyed) {
      var i :| 0 <= i < |keyed| && DropIp(keyed)[i] == y;
      var x := keyed[i];
      JoinMembership(revenue, domains, keywords, x);
      var j :| 0 <= j < |domains| && domains[j] == IpDomain(x.ip, x.domain);
      assert external[j].ip == x.ip && external[j].domain == y.domain;
    }
    if JoinedFrom(external, revenue, keywords, y) {
      var j :| 0 <= j < |external| && external[j].domain == y.domain
        && RevenueRow(external[j].ip, y.revenue) in revenue && KeywordRow(external[j].ip, y.keyword) in keywords;
      var x := KeyedRow(external[j].ip, y.revenue, y.domain, y.keyword);
      assert domains[j] == IpDomain(x.ip, x.domain);
      JoinMembership(revenue, domains, keywords, x);
      var i :| 0 <= i < |keyed| && keyed[i] == x;
      assert DropIp(keyed)[i] == y;
    }
  }

  lemma MultisetCons<T>(s: seq<T>, x: T)
    requires |s| > 0
    ensures multiset(s)[x] == (if s[0] == x then 1 else 0) + multiset(s[1..])[x]
  {
    assert s == [s[0]] + s[1..];
  }

  lemma {:induction false} JoinKeywordsMultiplicity(r: RevenueRow, e: IpDomain, keywords: seq<KeywordRow>, x: KeyedRow)
    ensures multiset(JoinKeywords(r, e, keywords))[x]
      == if x.ip == r.ip && x.revenue == r.revenue && x.domain == e.domain
         then multiset(keywords)[KeywordRow(x.ip, x.keyword)] else 0
  {
    if |keywords| > 0 {
      JoinKeywordsMultiplicity(r, e, keywords[1..], x);
      MultisetCons(keywords, KeywordRow(x.ip, x.keyword));
    }
  }

  /** `(1 + m) * k` splits off one copy of `k`. */
  lemma OneMore(m: nat, k: nat)
    ensures (1 + m) * k == k + m * k
  {
  }

  /** A product of counts is non-zero exactly when every factor is. */
  lemma ProductPositive(a: nat, b: nat, c: nat)
    ensures a * (b * c) > 0 <==> a > 0 && b > 0 && c > 0
  {
    if a > 0 && b > 0 && c > 0 {
      assert b * c >= c;
      assert a * (b * c) >= b * c;
    }
  }

  lemma {:induction false} JoinExternalMultiplicity(r: RevenueRow, external: seq<IpDomain>, keywords: seq<KeywordRow>, x: KeyedRow)
    ensures multiset(JoinExternal(r, external, keywords))[x]
      == if x.ip == r.ip && x.revenue == r.revenue
         then multiset(external)[IpDomain(x.ip, x.domain)] * multiset(keywords)[KeywordRow(x.ip, x.keyword)] else 0
  {
    if |external| > 0 {
      var head := if external[0].ip == r.ip then JoinKeywords(r, external[0], keywords) else [];
      var rest := JoinExternal(r, external[1..], keywords);
      assert JoinExternal(r, external, keywords) == head + rest;
      JoinExternalMultiplicity(r, external[1..], keywords, x);
      JoinKeywordsMultiplicity(r, external[0], keywords, x);
      MultisetCons(external, IpDomain(x.ip, x.domain));
      var m := multiset(external[1..])[IpDomain(x.ip, x.domain)];
      var k := multiset(keywords)[KeywordRow(x.ip, x.keyword)];
      assert multiset(head + rest)[x] == multiset(head)[x] + multiset(rest)[x];
      assert multiset(external)[IpDomain(x.ip, x.domain)]
        == (if external[0] == IpDomain(x.ip, x.domain) then 1 else 0) + m;
      if x.ip == r.ip && x.revenue == r.revenue {
        assert multiset(rest)[x] == m * k;
        if external[0] == IpDomain(x.ip, x.domain) {
          assert multiset(head)[x] == k;
          OneMore(m, k);
        } else {
          assert multiset(head)[x] == 0;
        }
      } else {
        assert multiset(rest)[x] == 0;
        assert multiset(head)[x] == 0;
      }
    }
  }

  /**
   The join as a multiset: a row `(ip, revenue, domain, keyword)` occurs as many times
   as the product of the occurrences of `(ip, revenue)` among the revenue rows,
   `(ip, domain)` among the domain rows and `(ip, keyword)` among the keyword rows.
   */
  lemma {:induction false} JoinMultiplicity(revenue: seq<RevenueRow>, external: seq<IpDomain>, keywords: seq<KeywordRow>, x: KeyedRow)
    ensures multiset(JoinOnIp(revenue, external, keywords))[x]
      == multiset(revenue)[RevenueRow(x.ip, x.revenue)]
         * (multiset(external)[IpDomain(x.ip, x.domain)] * multiset(keywords)[KeywordRow(x.ip, x.keyword)])
  {
    if |revenue| > 0 {
      var head := JoinExternal(revenue[0], external, keywords);
      var rest := JoinOnIp(revenue[1..], external, keywords);
      assert JoinOnIp(revenue, external, keywords) == head + rest;
      var key := RevenueRow(x.ip, x.revenue);
      var p := multiset(external)[IpDomain(x.ip, x.domain)] * multiset(keywords)[KeywordRow(x.ip, x.keyword)];
      var m := multiset(revenue[1..])[key];
      JoinMultiplicity(revenue[1..], external, keywords, x);
      assert multiset(rest)[x] == m * p;
      JoinExternalMultiplicity(revenue[0], external, keywords, x);
      assert multiset(head)[x] == if revenue[0] == key then p else 0;
      MultisetCons(revenue, key);
      if revenue[0] == key {
        OneMore(m, p);
        assert multiset(revenue)[key] == 1 + m;
      } else {
        assert multiset(revenue)[key] == m;
      }
    }
  }

  /**
   A joined row exists exactly when its `ip` pairs its revenue, its domain and its
   keyword in all three relations (inner join: a key missing anywhere contributes nothing).
   */
  lemma {:induction false} JoinMembership(revenue: seq<RevenueRow>, external: seq<IpDomain>, keywords: seq<KeywordRow>, x: KeyedRow)
    ensures x in JoinOnIp(revenue, external, keywords)
      <==> (RevenueRow(x.ip, x.revenue) in revenue && IpDomain(x.ip, x.domain) in external
            && KeywordRow(x.ip, x.keyword) in keywords)
  {
    JoinMultiplicity(revenue, external, keywords, x);
    var a := multiset(revenue)[RevenueRow(x.ip, x.revenue)];
    var b := multiset(external)[IpDomain(x.ip, x.domain)];
    var c := multiset(keywords)[KeywordRow(x.ip, x.keyword)];
    ProductPositive(a, b, c);
  }

  /** Number of revenue rows with the given `ip`. */
  function RevenueCount(rows: seq<RevenueRow>, ip: string): nat
  {
    if |rows| == 0 then 0 else (if rows[0].ip == ip then 1 else 0) + RevenueCount(rows[1..], ip)
  }

  /** Number of domain rows with the given `ip`. */
  function DomainCount(rows: seq<IpDomain>, ip: string): nat
  {
    if |rows| == 0 then 0 else (if rows[0].ip == ip then 1 else 0) + DomainCount(rows[1..], ip)
  }

  /** Number of keyword rows with the given `ip`. */
  function KeywordCount(rows: seq<KeywordRow>, ip: string): nat
  {
    if |rows| == 0 then 0 else (if rows[0].ip == ip then 1 else 0) + KeywordCount(rows[1..], ip)
  }

  /** Number of joined rows with the given `ip`. */
  function KeyedCount(rows: seq<KeyedRow>, ip: string): nat
  {
    if |rows| == 0 then 0 else (if rows[0].ip == ip then 1 else 0) + KeyedCount(rows[1..], ip)
  }

  lemma {:induction false} KeyedCountAppend(a: seq<KeyedRow>, b: seq<KeyedRow>, ip: string)
    ensures KeyedCount(a + b, ip) == KeyedCount(a, ip) + KeyedCount(b, ip)
  {
    if |a| > 0 {
      KeyedCountAppend(a[1..], b, ip);
      assert (a + b)[1..] == a[1..] + b;
    } else {
      assert a + b == b;
    }
  }

  lemma {:induction false} JoinKeywordsCount(r: RevenueRow, e: IpDomain, keywords: seq<KeywordRow>, ip: string)
    ensures KeyedCount(JoinKeywords(r, e, keywords), ip) == if r.ip == ip then KeywordCount(keywords, ip) else 0
  {
    if |keywords| > 0 {
      JoinKeywordsCount(r, e, keywords[1..], ip);
      var head := if keywords[0].ip == r.ip then [KeyedRow(r.ip, r.revenue, e.domain, keywords[0].keyword)] else [];
      KeyedCountAppend(head, JoinKeywords(r, e, keywords[1..]), ip);
    }
  }

  lemma {:induction false} JoinExternalCount(r: RevenueRow, external: seq<IpDomain>, keywords: seq<KeywordRow>, ip: string)
    ensures KeyedCount(JoinExternal(r, external, keywords), ip)
      == if r.ip == ip then DomainCount(external, ip) * KeywordCount(keywords, ip) else 0
  {
    if |external| > 0 {
      JoinExternalCount(r, external[1..], keywords, ip);
      JoinKeywordsCount(r, external[0], keywords, ip);
      var head := if external[0].ip == r.ip then JoinKeywords(r, external[0], keywords) else [];
      KeyedCountAppend(head, JoinExternal(r, external[1..], keywords), ip);
      OneMore(DomainCount(external[1..], ip), KeywordCount(keywords, ip));
    }
  }

  /**
   Fan-out: the number of joined rows for an `ip` is the product of its numbers of
   revenue rows, domain rows and keyword rows.
   */
  lemma {:induction false} JoinIpCount(revenue: seq<RevenueRow>, external: seq<IpDomain>, keywords: seq<KeywordRow>, ip: string)
    ensures KeyedCount(JoinOnIp(revenue, external, keywords), ip)
      == RevenueCount(revenue, ip) * (DomainCount(external, ip) * KeywordCount(keywords, ip))
  {
    if |revenue| > 0 {
      JoinIpCount(revenue[1..], external, keywords, ip);
      JoinExternalCount(revenue[0], external, keywords, ip);
      KeyedCountAppend(JoinExternal(revenue[0], external, keywords), JoinOnIp(revenue[1..], external, keywords), ip);
      OneMore(RevenueCount(revenue[1..], ip), DomainCount(external, ip) * KeywordCount(keywords, ip));
    }
  }
}
