/**
 `Analytics.fetch_external_sources` (Analytics.py:62): the hits whose referrer host,
 segment 2 of `split(referrer, '/')`, does not end with the shop's own domain.
 */
module Referrals {
  import opened Wrappers
  import opened Strings
  import opened Records

  /** The shop's own domain; referrals from it are internal traffic. */
  const InternalDomain := "esshopzilla.com"

  /**
   `split(referrer, '/')[2]`: the host of a `scheme://host/...` URL. Null when the
   referrer is null or splits into fewer than three segments.
   */
  function Domain(referrer: Option<string>): (r: Option<string>)
    ensures r.Some? <==> referrer.Some? && |Split(referrer.value, "/")| >= 3
    ensures r.Some? ==> '/' !in r.value
  {
    match referrer
    case None => None
    case Some(url) =>
      var segments := Split(url, "/");
      if |segments| >= 3 then NoCharNoOccurrence(segments[2], '/'); Some(segments[2])
      else None
  }

  /** A character that does not occur as a one-character string is not in the text. */
  lemma NoCharNoOccurrence(s: string, c: char)
    requires !Contains(s, [c])
    ensures c !in s
  {
    forall j | 0 <= j < |s|
      ensures s[j] != c
    {
      OccursAtChar(s, c, j);
    }
  }

  /**
   The `where` clause: the domain exists and does not match `'%esshopzilla.com'`.
   A null domain makes `NOT LIKE` null, which drops the row.
   */
  predicate IsExternal(h: Hit)
  {
    var d := Domain(h.referrer);
    d.Some? && !EndsWith(d.value, InternalDomain)
  }

  /** `row` is the external-source row selected from hit `h`. */
  predicate ReferredBy(h: Hit, row: ExternalRow)
  {
    && h.ip == row.ip
    && h.referrer == Some(row.referrer)
    && Domain(h.referrer) == Some(row.domain)
  }

  /** Number of hits that pass the filter and select `row`. */
  function ExternalCount(hits: seq<Hit>, row: ExternalRow): nat
  {
    if |hits| == 0 then 0
    else (if IsExternal(hits[0]) && ReferredBy(hits[0], row) then 1 else 0) + ExternalCount(hits[1..], row)
  }

  /**
   Every selected row carries the `ip` and `referrer` of an input hit, its domain is
   that hit's referrer host, and the domain never ends with the internal domain. No row
   is merged or invented: a row occurs exactly as often as there are hits that select it.
   */
  function FetchExternalSources(hits: seq<Hit>): (r: seq<ExternalRow>)
    ensures |r| <= |hits|
    ensures forall k :: 0 <= k < |r| ==> !EndsWith(r[k].domain, InternalDomain)
    ensures forall k :: 0 <= k < |r| ==> exists i :: 0 <= i < |hits| && ReferredBy(hits[i], r[k])
    ensures forall row :: multiset(r)[row] == ExternalCount(hits, row)
  {
    if |hits| == 0 then []
    else
      var h := hits[0];
      var rest := FetchExternalSources(hits[1..]);
      assert forall k :: 0 <= k < |rest| ==> exists i :: 0 <= i < |hits| && ReferredBy(hits[i], rest[k]) by {
        forall k | 0 <= k < |rest|
          ensures exists i :: 0 <= i < |hits| && ReferredBy(hits[i], rest[k])
        {
          var i :| 0 <= i < |hits| - 1 && ReferredBy(hits[1..][i], rest[k]);
          assert hits[1..][i] == hits[i + 1];
        }
      }
      if IsExternal(h) then
        var row := ExternalRow(h.ip, h.referrer.value, Domain(h.referrer).value);
        assert ReferredBy(hits[0], row);
        SelectedOnce(hits, rest);
        [row] + rest
      else
        SelectedOnce(hits, rest);
        rest
  }

  /** One step of the selection: the first hit adds its row, if any, to the rest's counts. */
  lemma SelectedOnce(hits: seq<Hit>, rest: seq<ExternalRow>)
    requires |hits| > 0
    requires forall x :: multiset(rest)[x] == ExternalCount(hits[1..], x)
    ensures var h := hits[0];
      forall x :: multiset(if IsExternal(h)
                           then [ExternalRow(h.ip, h.referrer.value, Domain(h.referrer).value)] + rest
                           else rest)[x]
                  == ExternalCount(hits, x)
  {
    var h := hits[0];
    forall x
      ensures multiset(if IsExternal(h)
                       then [ExternalRow(h.ip, h.referrer.value, Domain(h.referrer).value)] + rest
                       else rest)[x]
              == ExternalCount(hits, x)
    {
      if IsExternal(h) {
        var row := ExternalRow(h.ip, h.referrer.value, Domain(h.referrer).value);
        assert ReferredBy(h, x) <==> x == row;
        assert multiset([row] + rest) == multiset{row} + multiset(rest);
      }
    }
  }

  /** Conversely, every hit that passes the filter yields its row. */
  lemma {:induction false} ExternalSourcesComplete(hits: seq<Hit>, i: nat)
    requires i < |hits| && IsExternal(hits[i])
    ensures ExternalRow(hits[i].ip, hits[i].referrer.value, Domain(hits[i].referrer).value)
      in FetchExternalSources(hits)
  {
    var rest := FetchExternalSources(hits[1..]);
    if i > 0 {
      assert hits[1..][i - 1] == hits[i];
      ExternalSourcesComplete(hits[1..], i - 1);
      assert FetchExternalSources(hits) == rest || FetchExternalSources(hits)[1..] == rest;
    }
  }

  /**
   Hits with a null referrer, or a referrer without a host segment, are never selected:
   each row's referrer has at least three `/`-segments and its domain is the third.
   */
  lemma NoHostNoRow(hits: seq<Hit>, k: nat)
    requires k < |FetchExternalSources(hits)|
    ensures var row := FetchExternalSources(hits)[k];
      |Split(row.referrer, "/")| >= 3 && row.domain == Split(row.referrer, "/")[2]
  {
    var r := FetchExternalSources(hits);
    var i :| 0 <= i < |hits| && ReferredBy(hits[i], r[k]);
  }
}
