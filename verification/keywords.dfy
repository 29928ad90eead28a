/**
 `Analytics.find_keyword` (Analytics.py:103-131). Search engines put the query after
 `q=`, Yahoo after `p=`. For each marker the job takes element 1 of the split on the
 marker, cuts it at the first `&`, and fills a null with `-`; the two parts are then
 concatenated, every `-` is deleted and the result is lower-cased. The markers are
 raw substrings, so `q=` also matches inside a parameter such as `aq=`.
 */
module Keywords {
  import opened Wrappers
  import opened Strings
  import opened Records

  /** Marker of the query parameter of most search engines (`partialURL1`). */
  const QueryMarker := "q="
  /** Marker of Yahoo's query parameter (`partialURL2`). */
  const YahooMarker := "p="
  /** `fillna('-')` and the character `regexp_replace` deletes. */
  const Placeholder := '-'

  /**
   `substring_index(split(referrer, marker)[1], '&', 1)`: null when the marker is
   absent, otherwise text that holds neither `&` nor the marker.
   */
  function MarkerPart(referrer: string, marker: string): (r: Option<string>)
    requires |marker| > 0
    ensures r.None? <==> !Contains(referrer, marker)
    ensures r.Some? ==> '&' !in r.value
  {
    match At(Split(referrer, marker), 1)
    case None => None
    case Some(segment) => Some(SubstringIndex1(segment, '&'))
  }

  /**
   The part is the text that follows the FIRST occurrence of the marker, up to the
   first `&`, the next occurrence of the marker, or the end of the referrer.
   */
  lemma MarkerPartFollowsFirstMarker(referrer: string, marker: string)
    requires |marker| > 0 && Contains(referrer, marker)
    ensures var i := IndexOf(referrer, marker).value;
      var tail := referrer[i + |marker|..];
      var p := MarkerPart(referrer, marker).value;
      && |p| <= |tail| && tail[..|p|] == p
      && !Contains(p, marker)
      && (|p| == |tail| || tail[|p|] == '&' || OccursAt(tail, marker, |p|))
  {
    var i := IndexOf(referrer, marker).value;
    var tail := referrer[i + |marker|..];
    SplitSecond(referrer, marker);
    var h := Split(tail, marker)[0];
    SplitHead(tail, marker);
    var p := SubstringIndex1(h, '&');
    assert MarkerPart(referrer, marker) == Some(p);
    assert tail[..|p|] == h[..|p|];
    assert p == h[..|p|];
    PrefixKeepsAbsence(h, |p|, marker);
  }

  /** The value `fillna('-')` gives a part. */
  function Filled(part: Option<string>): string
  {
    part.GetOr([Placeholder])
  }

  /**
   The `Search Keyword` of a referrer: it holds no `-` (the placeholders and hyphens
   are gone), no `&` (each part stops before one) and no upper-case ASCII letter.
   */
  function Keyword(referrer: string): (r: string)
    ensures Placeholder !in r
    ensures '&' !in r
    ensures forall i :: 0 <= i < |r| ==> !IsUpper(r[i])
  {
    var q := Filled(MarkerPart(referrer, QueryMarker));
    var y := Filled(MarkerPart(referrer, YahooMarker));
    var removed := RemoveAll(q + y, Placeholder);
    assert multiset(q + y)['&'] == multiset(q)['&'] + multiset(y)['&'];
    assert '&' !in q && '&' !in y;
    assert multiset(removed)['&'] == 0;
    LowerKeepsNonLetters(removed, Placeholder);
    LowerKeepsNonLetters(removed, '&');
    Lower(removed)
  }

  /** Lower-casing maps a character to `c` only when `c` is not a letter and was already there. */
  lemma LowerKeepsNonLetters(s: string, c: char)
    requires !IsUpper(c) && !('a' <= c <= 'z')
    ensures c in Lower(s) <==> c in s
  {
    if c in Lower(s) {
      var i :| 0 <= i < |s| && Lower(s)[i] == c;
    }
    if c in s {
      var i :| 0 <= i < |s| && s[i] == c;
      assert Lower(s)[i] == c;
    }
  }

  /**
   When only one convention matches, the placeholder of the other vanishes and the
   keyword is the matching part, de-hyphenated and lower-cased; when both match it is
   the cleaned `q=` part followed by the cleaned `p=` part; when neither matches the
   keyword is empty.
   */
  lemma KeywordSingleConvention(referrer: string)
    ensures !Contains(referrer, YahooMarker) && Contains(referrer, QueryMarker) ==>
      Keyword(referrer) == Lower(RemoveAll(MarkerPart(referrer, QueryMarker).value, Placeholder))
    ensures !Contains(referrer, QueryMarker) && Contains(referrer, YahooMarker) ==>
      Keyword(referrer) == Lower(RemoveAll(MarkerPart(referrer, YahooMarker).value, Placeholder))
    ensures Contains(referrer, QueryMarker) && Contains(referrer, YahooMarker) ==>
      Keyword(referrer) == Lower(RemoveAll(MarkerPart(referrer, QueryMarker).value, Placeholder))
                           + Lower(RemoveAll(MarkerPart(referrer, YahooMarker).value, Placeholder))
    ensures !Contains(referrer, QueryMarker) && !Contains(referrer, YahooMarker) ==>
      Keyword(referrer) == ""
  {
    var q := Filled(MarkerPart(referrer, QueryMarker));
    var y := Filled(MarkerPart(referrer, YahooMarker));
    RemoveAllAppend(q, y, Placeholder);
    LowerAppend(RemoveAll(q, Placeholder), RemoveAll(y, Placeholder));
    forall s: string
      ensures RemoveAll(s + [Placeholder], Placeholder) == RemoveAll(s, Placeholder)
      ensures RemoveAll([Placeholder] + s, Placeholder) == RemoveAll(s, Placeholder)
    {
      RemoveAllAppend(s, [Placeholder], Placeholder);
      RemoveAllAppend([Placeholder], s, Placeholder);
    }
  }

  /** Lower-casing works character by character, so it distributes over concatenation. */
  lemma LowerAppend(a: string, b: string)
    ensures Lower(a + b) == Lower(a) + Lower(b)
  {
  }

  /** Deleting a character distributes over concatenation. */
  lemma {:induction false} RemoveAllAppend(a: string, b: string, c: char)
    ensures RemoveAll(a + b, c) == RemoveAll(a, c) + RemoveAll(b, c)
  {
    if |a| > 0 {
      RemoveAllAppend(a[1..], b, c);
      assert (a + b)[1..] == a[1..] + b;
    } else {
      assert a + b == b;
    }
  }

  /** One keyword row per external-source row, in the same order and with the same `ip`. */
  function FindKeyword(external: seq<ExternalRow>): (r: seq<KeywordRow>)
    ensures |r| == |external|
    ensures forall i :: 0 <= i < |r| ==> r[i].ip == external[i].ip
    ensures forall i :: 0 <= i < |r| ==> r[i].keyword == Keyword(external[i].referrer)
  {
    seq(|external|, i requires 0 <= i < |external| => KeywordRow(external[i].ip, Keyword(external[i].referrer)))
  }
}
