/** Extracting a YouTube playlist id from a resource link: the first match of
    the pattern `list=([a-zA-Z0-9_-]+)`, whose capture group is the id. */
module Playlist {
  import opened Wrappers

  const ListKey: string := "list="

  /** A character of the class `[a-zA-Z0-9_-]`. */
  predicate IsTokenChar(c: char) {
    ('a' <= c <= 'z') || ('A' <= c <= 'Z') || ('0' <= c <= '9') || c == '_' || c == '-'
  }

  /** The pattern can match at `i`: `list=` starts there and is followed by at
      least one token character. */
  predicate MatchesAt(url: string, i: int) {
    0 <= i && i + |ListKey| < |url| && url[i..i + |ListKey|] == ListKey && IsTokenChar(url[i + |ListKey|])
  }

  /** The longest run of token characters starting at `j`: what the greedy
      `+` takes. */
  function TokenRun(s: string, j: nat): (t: string)
    requires j <= |s|
    decreases |s| - j
    ensures j + |t| <= |s| && t == s[j..j + |t|]
    ensures forall k :: 0 <= k < |t| ==> IsTokenChar(t[k])
    ensures j + |t| < |s| ==> !IsTokenChar(s[j + |t|])
  {
    if j < |s| && IsTokenChar(s[j]) then [s[j]] + TokenRun(s, j + 1) else []
  }

  /** The leftmost position at or after `i` where the pattern matches. */
  function FirstMatchFrom(url: string, i: nat): (r: Option<nat>)
    requires i <= |url|
    decreases |url| - i
    ensures r.None? <==> forall k :: i <= k < |url| ==> !MatchesAt(url, k)
    ensures r.Some? ==> i <= r.value && MatchesAt(url, r.value)
    ensures r.Some? ==> forall k :: i <= k < r.value ==> !MatchesAt(url, k)
  {
    if i == |url| then None
    else if MatchesAt(url, i) then Some(i)
    else FirstMatchFrom(url, i + 1)
  }

  /** A non-empty string of token characters. */
  predicate IsPlaylistId(id: string) {
    |id| > 0 && forall k :: 0 <= k < |id| ==> IsTokenChar(id[k])
  }

  /** `id` is what the first match captures: `list=` followed by `id` starts at
      `i`, the pattern matches nowhere before `i`, and `id` cannot be extended. */
  predicate IsFirstMatch(url: string, i: int, id: string) {
    && MatchesAt(url, i)
    && (forall k :: 0 <= k < i ==> !MatchesAt(url, k))
    && i + |ListKey| + |id| <= |url|
    && url[i + |ListKey|..i + |ListKey| + |id|] == id
    && IsPlaylistId(id)
    && (i + |ListKey| + |id| < |url| ==> !IsTokenChar(url[i + |ListKey| + |id|]))
  }

  /** `p` occurs in `s` starting at `i`. */
  predicate OccursAt(s: string, p: string, i: int) {
    0 <= i && i + |p| <= |s| && s[i..i + |p|] == p
  }

  ghost predicate IsSubstring(p: string, s: string) {
    exists i :: OccursAt(s, p, i)
  }

  /** `extractPlaylistId`: the capture group of the first match, or `None`. */
  function ExtractPlaylistId(url: string): (r: Option<string>)
    ensures r.None? <==> forall k :: 0 <= k < |url| ==> !MatchesAt(url, k)
    ensures r.Some? ==> IsPlaylistId(r.value)
    ensures r.Some? ==> IsFirstMatch(url, FirstMatchFrom(url, 0).value, r.value)
  {
    match FirstMatchFrom(url, 0)
    case None => None
    case Some(i) =>
      var id := TokenRun(url, i + |ListKey|);
      assert MatchesAt(url, i) && IsTokenChar(url[i + |ListKey|]);
      assert |id| > 0 && id[0] == url[i + |ListKey|];
      Some(id)
  }

  /** The first match is unique: a position and id that satisfy its
      description are exactly what the extractor returns. */
  lemma ExtractPlaylistIdComplete(url: string, i: int, id: string)
    requires IsFirstMatch(url, i, id)
    ensures ExtractPlaylistId(url) == Some(id)
  {
  }

  /** `list=` followed by the extracted id occurs in the link. */
  lemma ExtractPlaylistIdOccurs(url: string)
    requires ExtractPlaylistId(url).Some?
    ensures IsSubstring(ListKey + ExtractPlaylistId(url).value, url)
  {
    var id := ExtractPlaylistId(url).value;
    var i := FirstMatchFrom(url, 0).value;
    var n := |ListKey|;
    assert url[i..i + n + |id|] == url[i..i + n] + url[i + n..i + n + |id|];
    assert OccursAt(url, ListKey + id, i);
  }

  /** The pattern cannot match where no `=` follows four characters later, so
      a prefix free of `=` rules out every match that would end inside it. */
  lemma NoMatchBeforeEquals(url: string, m: nat)
    requires m <= |url| && '=' !in url[..m]
    ensures forall k :: 0 <= k && k + |ListKey| <= m ==> !MatchesAt(url, k)
  {
    forall k | 0 <= k && k + |ListKey| <= m ensures !MatchesAt(url, k) {
      assert url[..m][k + 4] != '=';
      MatchesAtEquals(url, k);
    }
  }

  lemma MatchesAtEquals(url: string, k: int)
    ensures MatchesAt(url, k) ==> url[k] == 'l' && url[k + 4] == '='
  {
  }

  /** A link with no `=` before its `list=` parameter, whose parameter value
      is a whole id, yields that id. */
  lemma ExtractAfterPrefix(a: string, id: string)
    requires '=' !in a && IsPlaylistId(id)
    ensures ExtractPlaylistId(a + ListKey + id) == Some(id)
  {
    var u := a + ListKey + id;
    assert u[..|a| + 4] == a + "list";
    NoMatchBeforeEquals(u, |a| + 4);
    assert u[|a|..|a| + 5] == ListKey;
    assert u[|a| + 5..|a| + 5 + |id|] == id;
    ExtractPlaylistIdComplete(u, |a|, id);
  }

  /** No `l`, no `list=`: such a link yields no id. */
  lemma NoMatchWithoutL(url: string)
    requires 'l' !in url
    ensures ExtractPlaylistId(url) == None
  {
    forall k | 0 <= k < |url| ensures !MatchesAt(url, k) {
      MatchesAtEquals(url, k);
    }
  }

  /** A playlist link yields its id. */
  lemma ExtractPlaylistIdFound()
    ensures ExtractPlaylistId("https://youtube.com/playlist?list=PL123abc_-") == Some("PL123abc_-")
  {
    var a, id := "https://youtube.com/playlist?", "PL123abc_-";
    assert '=' !in a by {}
    assert IsPlaylistId(id) by {}
    assert a + ListKey + id == "https://youtube.com/playlist?list=PL123abc_-" by {}
    ExtractAfterPrefix(a, id);
  }

  /** A watch link, which has no `list=` parameter, yields no id. */
  lemma ExtractPlaylistIdAbsent()
    ensures ExtractPlaylistId("https://youtube.com/watch?v=xyz") == None
  {
    NoMatchWithoutL("https://youtube.com/watch?v=xyz");
  }
}
