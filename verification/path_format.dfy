/**
 `Analytics.format` (Analytics.py:28-34): the input location is split at its last `/`;
 the folder part is kept verbatim and every special character of the file name gets a
 backslash in front of it, so that the Spark reader takes the name literally.
 */
module PathFormat {
  import opened Strings

  /**
   The characters escaped at Analytics.py:32. In the Python literal `"\|"` is not an
   escape sequence, so the set holds a backslash as well as a bar.
   */
  const Specials: string := "!@#$%^&*()[]{};:,/<>?\\|`~-=_+"

  predicate IsSpecial(c: char)
  {
    c in Specials
  }

  /** Number of special characters in `s`. */
  function CountSpecial(s: string): nat
  {
    if |s| == 0 then 0 else (if IsSpecial(s[0]) then 1 else 0) + CountSpecial(s[1..])
  }

  /** What `translate` puts in place of one character. */
  function EscapeChar(c: char): string
  {
    if IsSpecial(c) then ['\\', c] else [c]
  }

  /** `file_name.translate({ord(c): "\\" + c for c in Specials})`. */
  function Escape(s: string): (r: string)
    ensures |r| == |s| + CountSpecial(s)
  {
    if |s| == 0 then ""
    else EscapeChar(s[0]) + Escape(s[1..])
  }

  /** Escaping works character by character, so it distributes over concatenation. */
  lemma {:induction false} EscapeAppend(a: string, b: string)
    ensures Escape(a + b) == Escape(a) + Escape(b)
  {
    if |a| == 0 {
      assert a + b == b;
    } else {
      assert (a + b)[0] == a[0];
      assert (a + b)[1..] == a[1..] + b;
      EscapeAppend(a[1..], b);
    }
  }

  /** A single character: a special one gets one backslash in front, any other is kept. */
  lemma EscapeSingle(c: char)
    ensures Escape([c]) == if IsSpecial(c) then ['\\', c] else [c]
  {
    assert [c][1..] == [];
  }

  /**
   Where each character of the name lands: the `i`-th character starts at position `i`
   plus the number of special characters before it; a special character is preceded by
   exactly one backslash there, any other character is copied as it is.
   */
  lemma EscapeAt(s: string, i: nat)
    requires i < |s|
    ensures var r, p := Escape(s), i + CountSpecial(s[..i]);
      && p < |r|
      && (IsSpecial(s[i]) ==> p + 1 < |r| && r[p] == '\\' && r[p + 1] == s[i])
      && (!IsSpecial(s[i]) ==> r[p] == s[i])
  {
    var before, after := s[..i], s[i + 1..];
    assert s == before + ([s[i]] + after);
    EscapeAppend(before, [s[i]] + after);
    EscapeAppend([s[i]], after);
    EscapeSingle(s[i]);
    var a, c, b := Escape(before), Escape([s[i]]), Escape(after);
    assert Escape(s) == a + (c + b);
    assert |a| == i + CountSpecial(before);
    ShiftedIndex(a, c + b, 0);
    if IsSpecial(s[i]) {
      ShiftedIndex(a, c + b, 1);
    }
  }

  lemma ShiftedIndex(a: string, b: string, q: nat)
    requires q < |b|
    ensures (a + b)[|a| + q] == b[q]
  {
  }

  /** Drops one backslash in front of each escaped character and keeps the rest. */
  function Unescape(s: string): string
    decreases |s|
  {
    if |s| == 0 then ""
    else if s[0] == '\\' && |s| >= 2 then [s[1]] + Unescape(s[2..])
    else [s[0]] + Unescape(s[1..])
  }

  /**
   Escaping loses nothing: removing the inserted backslashes gives the file name back,
   including backslashes that were in the name (they are themselves escaped).
   */
  lemma {:induction false} UnescapeEscape(s: string)
    ensures Unescape(Escape(s)) == s
  {
    if |s| > 0 {
      UnescapeEscape(s[1..]);
      var e := Escape(s[1..]);
      if IsSpecial(s[0]) {
        assert Escape(s) == ['\\', s[0]] + e;
        assert (['\\', s[0]] + e)[2..] == e;
      } else {
        assert Escape(s) == [s[0]] + e;
        assert s[0] != '\\';
        assert ([s[0]] + e)[1..] == e;
      }
    }
  }

  /** The folder part of a location ends right after its last `/` (0 when there is none). */
  function FolderEnd(location: string): (k: nat)
    ensures k <= |location|
    ensures k > 0 ==> location[k - 1] == '/'
    ensures '/' !in location[k..]
  {
    RFind(location, '/') + 1
  }

  /**
   The location with its file name escaped, or `""` when the file name is empty (the
   location is empty or ends with `/`): `formatted_file_location` keeps its initial
   value then. The folder part is copied unchanged, the escaped name unescapes to the
   original name, and it is longer by one backslash per special character.
   */
  function Format(location: string): (r: string)
    ensures |location| == 0 || location[|location| - 1] == '/' ==> r == ""
    ensures |location| > 0 && location[|location| - 1] != '/' ==>
      var k := FolderEnd(location);
      && |r| == |location| + CountSpecial(location[k..])
      && r[..k] == location[..k]
      && r[k..] == Escape(location[k..])
      && Unescape(r[k..]) == location[k..]
  {
    var parts := Split(location, "/");
    var fileName := parts[|parts| - 1];
    LastSegmentAfterRFind(location, '/');
    assert fileName == location[FolderEnd(location)..];
    if fileName != "" then
      var folderPathEndsAt := FolderEnd(location);
      var escaped := Escape(fileName);
      UnescapeEscape(fileName);
      var r := location[..folderPathEndsAt] + escaped;
      assert r[folderPathEndsAt..] == escaped;
      r
    else
      ""
  }
}
