/**
 * `extract_video_id` and the guard of `get_youtube_transcript`
 * (backend/youtube_helper.py). The URL arrives already split into its host,
 * path and query components (section 3 of RFC 3986), as `urlparse` leaves
 * them; the query is read the way `parse_qs` reads it.
 */
module YouTube {
  import opened Strings

  /** The components of a parsed URL; a URL without an authority has no host. */
  datatype Url = Url(hostname: Option<string>, path: string, query: string)

  // ---------------------------------------------------------------------------
  // the query string

  /** `+` stands for a space in a query. */
  function Unplus(s: string): (r: string)
    ensures |r| == |s| && '+' !in r
    ensures forall i :: 0 <= i < |s| ==> r[i] == (if s[i] == '+' then ' ' else s[i])
  {
    ReplaceCharIndex(s, '+', ' ');
    ReplaceChar(s, '+', ' ')
  }

  /**
   * The pairs `parse_qsl` keeps from pieces of a query cut at '&': a piece
   * without '=' or with nothing after its first '=' is dropped.
   */
  function Pairs(pieces: seq<string>): (r: seq<(string, string)>)
    ensures |r| <= |pieces|
    ensures forall k :: 0 <= k < |r| ==> |r[k].1| > 0
  {
    if |pieces| == 0 then []
    else
      var p := pieces[0];
      var j := CharIndex(p, '=', 0);
      (if j + 1 < |p| then [(Unplus(p[..j]), Unplus(p[j + 1..]))] else []) + Pairs(pieces[1..])
  }

  function QueryPairs(query: string): seq<(string, string)> {
    Pairs(Split(query, "&"))
  }

  /** The first value given for `name`. */
  function FirstValue(pairs: seq<(string, string)>, name: string): (r: Option<string>)
    ensures r.Some? <==> exists k :: 0 <= k < |pairs| && pairs[k].0 == name
    ensures r.Some? ==> exists k :: 0 <= k < |pairs| && pairs[k] == (name, r.value)
                           && forall i :: 0 <= i < k ==> pairs[i].0 != name
  {
    if |pairs| == 0 then None
    else if pairs[0].0 == name then Some(pairs[0].1)
    else
      var r := FirstValue(pairs[1..], name);
      assert forall k :: 0 < k < |pairs| ==> pairs[k] == pairs[1..][k - 1];
      r
  }

  /** `parse_qs(query).get('v', [None])[0]` */
  function WatchValue(query: string): Option<string> {
    FirstValue(QueryPairs(query), "v")
  }

  /** The piece `p` of a query is kept as a pair whose name is `name`. */
  predicate Names(p: string, name: string) {
    var j := CharIndex(p, '=', 0);
    j + 1 < |p| && Unplus(p[..j]) == name
  }

  /** The value a piece carries: everything after its first '=', with `+` read as a space. */
  function ValueOf(p: string): string {
    var j := CharIndex(p, '=', 0);
    if j < |p| then Unplus(p[j + 1..]) else ""
  }

  /** The value of the first piece that names `name`, read piece by piece. */
  function FirstNamed(pieces: seq<string>, name: string): (r: Option<string>)
    ensures r.Some? <==> exists k :: 0 <= k < |pieces| && Names(pieces[k], name)
    ensures r.Some? ==> exists k :: 0 <= k < |pieces| && Names(pieces[k], name) && r.value == ValueOf(pieces[k])
                           && forall i :: 0 <= i < k ==> !Names(pieces[i], name)
  {
    if |pieces| == 0 then None
    else if Names(pieces[0], name) then Some(ValueOf(pieces[0]))
    else
      var r := FirstNamed(pieces[1..], name);
      assert forall k :: 0 < k < |pieces| ==> pieces[k] == pieces[1..][k - 1];
      r
  }

  /** Looking `name` up among the kept pairs finds the value of the first piece that names it. */
  lemma {:induction false} PairsFirst(pieces: seq<string>, name: string)
    ensures FirstValue(Pairs(pieces), name) == FirstNamed(pieces, name)
  {
    if |pieces| > 0 {
      var p := pieces[0];
      var j := CharIndex(p, '=', 0);
      var rest := Pairs(pieces[1..]);
      PairsFirst(pieces[1..], name);
      if j + 1 < |p| {
        var x := (Unplus(p[..j]), Unplus(p[j + 1..]));
        assert Pairs(pieces) == [x] + rest;
        assert ([x] + rest)[1..] == rest;
      } else {
        assert Pairs(pieces) == rest;
        assert !Names(p, name);
      }
    }
  }

  /**
   * `parse_qs(query).get('v', [None])[0]` for any query: present exactly when
   * some '&'-piece names `v`, and then the value of the first such piece.
   */
  lemma WatchValueFirst(query: string)
    ensures WatchValue(query) == FirstNamed(Split(query, "&"), "v")
    ensures var pieces := Split(query, "&");
      WatchValue(query).Some? <==> exists k :: 0 <= k < |pieces| && Names(pieces[k], "v")
  {
    PairsFirst(Split(query, "&"), "v");
  }

  // ---------------------------------------------------------------------------
  // the id

  predicate IsYouTubeHost(host: Option<string>) {
    host == Some("www.youtube.com") || host == Some("youtube.com")
  }

  /** A path under `/shorts/` splits into "", "shorts" and the segments after them. */
  lemma ShortsSplit(path: string)
    requires StartsWith(path, "/shorts/")
    ensures Split(path, "/") == ["", "shorts"] + Split(path[8..], "/")
  {
    var rest := path[8..];
    assert path == "" + "/" + ("shorts" + "/" + rest) by {
      assert path == path[..8] + rest;
    }
    SepOnlyAtEndChar("", '/');
    SepOnlyAtEndChar("shorts", '/');
    SplitLeadingPart("shorts", "/", rest);
    SplitLeadingPart("", "/", "shorts" + "/" + rest);
  }

  /** `extract_video_id` */
  function VideoId(u: Url): (r: Option<string>)
    ensures !IsYouTubeHost(u.hostname) && u.hostname != Some("youtu.be") ==> r.None?
    ensures IsYouTubeHost(u.hostname) && u.path != "/watch" && !StartsWith(u.path, "/shorts/") ==> r.None?
  {
    if IsYouTubeHost(u.hostname) && u.path == "/watch" then WatchValue(u.query)
    else if IsYouTubeHost(u.hostname) && StartsWith(u.path, "/shorts/") then
      ShortsSplit(u.path);
      Some(Split(u.path, "/")[2])
    else if u.hostname == Some("youtu.be") then Some(if |u.path| == 0 then "" else u.path[1..])
    else None
  }

  /** The guard of `get_youtube_transcript`: `None` is its "Invalid YouTube URL" error. */
  function CheckedId(u: Url): (r: Option<string>)
    ensures r.None? <==> VideoId(u) == None || VideoId(u) == Some("")
    ensures r.Some? ==> VideoId(u) == r && |r.value| > 0
  {
    match VideoId(u)
    case None => None
    case Some(id) => if |id| == 0 then None else Some(id)
  }

  // ---------------------------------------------------------------------------
  // the three shapes of link give their id back

  /** A piece `v=<id>` holds the pair ("v", id) when the id is non-empty. */
  lemma VPiece(id: string)
    requires |id| > 0 && '+' !in id
    ensures Pairs(["v=" + id]) == [("v", id)]
  {
    var p := "v=" + id;
    CharIndexAt(p, '=', 1);
    assert p[..1] == "v" && p[2..] == id;
    ReplaceCharAbsent("v", '+', ' ');
    ReplaceCharAbsent(id, '+', ' ');
  }

  /** The pairs of a query are those of its first piece followed by those of the rest. */
  lemma QueryCons(piece: string, rest: string)
    requires '&' !in piece
    ensures QueryPairs(piece + "&" + rest) == Pairs([piece]) + QueryPairs(rest)
  {
    SepOnlyAtEndChar(piece, '&');
    SplitLeadingPart(piece, "&", rest);
    var pieces := [piece] + Split(rest, "&");
    assert pieces[1..] == Split(rest, "&");
  }

  /** `/watch?v=<id>&...`: the id of the first `v` piece comes back. */
  lemma WatchLink(host: string, id: string, rest: string)
    requires host == "www.youtube.com" || host == "youtube.com"
    requires |id| > 0 && '&' !in id && '+' !in id
    ensures VideoId(Url(Some(host), "/watch", "v=" + id + "&" + rest)) == Some(id)
  {
    QueryCons("v=" + id, rest);
    VPiece(id);
    assert QueryPairs("v=" + id + "&" + rest)[0] == ("v", id);
  }

  /** `/watch?v=<id>` alone. */
  lemma WatchLinkAlone(host: string, id: string)
    requires host == "www.youtube.com" || host == "youtube.com"
    requires |id| > 0 && '&' !in id && '+' !in id
    ensures VideoId(Url(Some(host), "/watch", "v=" + id)) == Some(id)
  {
    var piece := "v=" + id;
    SepOnlyAtEndChar(piece, '&');
    SplitNoSep(piece, "&");
    VPiece(id);
  }

  /** A query with no `v` piece carrying a value gives no id. */
  lemma WatchWithoutV(host: string, query: string)
    requires host == "www.youtube.com" || host == "youtube.com"
    requires forall k :: 0 <= k < |QueryPairs(query)| ==> QueryPairs(query)[k].0 != "v"
    ensures VideoId(Url(Some(host), "/watch", query)) == None
  {
  }

  /** `/shorts/<id>`: the segment after `shorts`, possibly empty. */
  lemma ShortsLink(host: string, id: string)
    requires host == "www.youtube.com" || host == "youtube.com"
    requires '/' !in id
    ensures VideoId(Url(Some(host), "/shorts/" + id, "")) == Some(id)
  {
    var path := "/shorts/" + id;
    assert StartsWith(path, "/shorts/") && path[8..] == id by {
      assert path[..8] == "/shorts/";
    }
    ShortsSplit(path);
    SepOnlyAtEndChar(id, '/');
    SplitNoSep(id, "/");
  }

  /** `/shorts/<id>/...`: later segments are ignored. */
  lemma ShortsLinkWithTail(host: string, id: string, tail: string)
    requires host == "www.youtube.com" || host == "youtube.com"
    requires '/' !in id
    ensures VideoId(Url(Some(host), "/shorts/" + id + "/" + tail, "")) == Some(id)
  {
    var path := "/shorts/" + id + "/" + tail;
    assert StartsWith(path, "/shorts/") && path[8..] == id + "/" + tail by {
      assert path[..8] == "/shorts/";
    }
    ShortsSplit(path);
    SepOnlyAtEndChar(id, '/');
    SplitLeadingPart(id, "/", tail);
  }

  /** `youtu.be/<rest>`: everything after the first slash, later segments included. */
  lemma ShortLink(rest: string, query: string)
    ensures VideoId(Url(Some("youtu.be"), "/" + rest, query)) == Some(rest)
  {
    assert ("/" + rest)[1..] == rest;
  }

  /** `/shorts/` with nothing after it yields the empty id, which the guard refuses. */
  lemma EmptyShortsRefused(host: string)
    requires host == "www.youtube.com" || host == "youtube.com"
    ensures VideoId(Url(Some(host), "/shorts/", "")) == Some("")
    ensures CheckedId(Url(Some(host), "/shorts/", "")) == None
  {
    ShortsLink(host, "");
    assert "/shorts/" + "" == "/shorts/";
  }
}
