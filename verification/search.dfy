/** The result normalisation of `searchOnSpotify` and the `/spotifySearch`
    handler around it. The catalogue's reply is taken as already parsed: per
    media type an optional item list, each item with optional fields. */
module Search {
  import opened Options
  import opened Text

  /** The five `type` values the adapter handles. */
  datatype Kind = Album | Playlist | Track | Episode | Audiobook

  /** The `type` value that names each kind. */
  function KindName(k: Kind): string
  {
    match k
    case Album => "album"
    case Playlist => "playlist"
    case Track => "track"
    case Episode => "episode"
    case Audiobook => "audiobook"
  }

  /** Which kind, if any, the `type` value `t` selects. */
  function ParseKind(t: string): (k: Option<Kind>)
    ensures k.Some? <==> t in {"album", "playlist", "track", "episode", "audiobook"}
    ensures k.Some? ==> KindName(k.value) == t
  {
    if t == "album" then Some(Album)
    else if t == "playlist" then Some(Playlist)
    else if t == "track" then Some(Track)
    else if t == "episode" then Some(Episode)
    else if t == "audiobook" then Some(Audiobook)
    else None
  }

  /** Every kind is selected by its own name, and by no other. */
  lemma ParseKindName(k: Kind, t: string)
    ensures ParseKind(KindName(k)) == Some(k)
    ensures ParseKind(t) == Some(k) <==> t == KindName(k)
  {
  }

  /** One catalogue item, reduced to the four attributes the adapter reads:
      the contributor (first artist, playlist owner's display name, show
      publisher or first author), the name, the uri and the first image url. */
  datatype RawItem = RawItem(contributor: Option<string>, title: Option<string>,
                             uri: Option<string>, artwork: Option<string>)

  /** The optional item list of each media type in the catalogue's reply. */
  datatype RawResponse = RawResponse(albums: Option<seq<RawItem>>, playlists: Option<seq<RawItem>>,
                                     tracks: Option<seq<RawItem>>, episodes: Option<seq<RawItem>>,
                                     audiobooks: Option<seq<RawItem>>)

  /** One search result: artist, name, uri and artwork url. */
  datatype Summary = Summary(albumArtist: string, albumName: string, albumUri: string, albumArt: string)

  function Items(k: Kind, resp: RawResponse): seq<RawItem>
  {
    var list := match k
      case Album => resp.albums
      case Playlist => resp.playlists
      case Track => resp.tracks
      case Episode => resp.episodes
      case Audiobook => resp.audiobooks;
    list.GetOr([])
  }

  function DefaultContributor(k: Kind): string
  {
    match k
    case Album => "Unknown Artist"
    case Playlist => "Unknown Owner"
    case Track => "Unknown Artist"
    case Episode => "Unknown Publisher"
    case Audiobook => "Unknown Author"
  }

  function DefaultTitle(k: Kind): string
  {
    match k
    case Album => "Unknown Album"
    case Playlist => "Unknown Playlist"
    case Track => "Unknown Track"
    case Episode => "Unknown Episode"
    case Audiobook => "Unknown Audiobook"
  }

  /** An artist or name field: a present, non-empty value with every `;`
      turned into `,`; otherwise the type's default. */
  function TextField(v: Option<string>, default: string): (r: string)
    requires default != "" && ';' !in default
    ensures r != "" && ';' !in r
    ensures v.None? || v.value == "" ==> r == default
    ensures v.Some? && v.value != "" ==>
              |r| == |v.value| && forall i :: 0 <= i < |r| ==> r[i] == (if v.value[i] == ';' then ',' else v.value[i])
  {
    match v
    case Some(s) => if s == "" then default else ReplaceAll(s, ';', ',')
    case None => default
  }

  /** A uri or artwork field: passed through unchanged, separators included,
      or `""` when missing. */
  function PlainField(v: Option<string>): string
  {
    v.GetOr("")
  }

  function NormalizeItem(k: Kind, item: RawItem): (s: Summary)
    ensures s.albumArtist != "" && ';' !in s.albumArtist
    ensures s.albumName != "" && ';' !in s.albumName
    ensures item.contributor.None? || item.contributor == Some("") ==> s.albumArtist == DefaultContributor(k)
    ensures item.title.None? || item.title == Some("") ==> s.albumName == DefaultTitle(k)
    ensures item.contributor.Some? && item.contributor.value != "" ==>
              s.albumArtist == ReplaceAll(item.contributor.value, ';', ',')
    ensures item.title.Some? && item.title.value != "" ==>
              s.albumName == ReplaceAll(item.title.value, ';', ',')
    ensures item.uri.Some? ==> s.albumUri == item.uri.value
    ensures item.uri.None? ==> s.albumUri == ""
    ensures item.artwork.Some? ==> s.albumArt == item.artwork.value
    ensures item.artwork.None? ==> s.albumArt == ""
  {
    Summary(TextField(item.contributor, DefaultContributor(k)), TextField(item.title, DefaultTitle(k)),
            PlainField(item.uri), PlainField(item.artwork))
  }

  /** `searchOnSpotify` after the request: one summary per item of the list
      for `type`, in order, and `[]` for any other type. */
  function Normalize(t: string, resp: RawResponse): (r: seq<Summary>)
    ensures ParseKind(t).None? ==> r == []
    ensures ParseKind(t).Some? ==> |r| == |Items(ParseKind(t).value, resp)|
    ensures ParseKind(t).Some? ==> forall i :: 0 <= i < |r| ==>
              r[i] == NormalizeItem(ParseKind(t).value, Items(ParseKind(t).value, resp)[i])
    ensures forall i :: 0 <= i < |r| ==> IsSafeSummary(r[i])
  {
    match ParseKind(t)
    case None => []
    case Some(k) =>
      var items := Items(k, resp);
      seq(|items|, i requires 0 <= i < |items| => NormalizeItem(k, items[i]))
  }

  /** The text fields a selection copies into a card's name are non-empty
      and free of `;`. Newlines are not cleaned, so a title holding one can
      still break the row file. */
  predicate IsSafeSummary(s: Summary)
  {
    s.albumArtist != "" && ';' !in s.albumArtist && s.albumName != "" && ';' !in s.albumName
  }

  /** The reply of `/spotifySearch`: the results, or status 500. */
  datatype SearchReply = Results(results: seq<Summary>) | ServerError

  /** `/spotifySearch`: an empty or missing query answers `[]` without
      contacting the catalogue (`contacted` is false); a missing type means
      `"album"`; `upstream` is the catalogue's parsed reply, or `None` when the
      token exchange or the search request failed. */
  function HandleSearch(query: Option<string>, kind: Option<string>, upstream: Option<RawResponse>)
    : (r: (SearchReply, bool))
    ensures var (reply, contacted) := r;
      && (query.None? || query.value == "" ==> reply == Results([]) && !contacted)
      && (query.Some? && query.value != "" ==> contacted)
      && (contacted && upstream.None? ==> reply == ServerError)
      && (query.Some? && query.value != "" && upstream.Some? ==>
            reply == Results(Normalize(if kind.None? || kind.value == "" then "album" else kind.value, upstream.value)))
      && (reply.Results? ==> forall i :: 0 <= i < |reply.results| ==> IsSafeSummary(reply.results[i]))
  {
    var q := query.GetOr("");
    var t := if kind.None? || kind.value == "" then "album" else kind.value;
    if q == "" then (Results([]), false)
    else
      match upstream
      case None => (ServerError, true)
      case Some(resp) => (Results(Normalize(t, resp)), true)
  }

  /** Search fields keep newlines: a title `a\nb` reaches the summary as is. */
  lemma NewlineInTitleSurvives(k: Kind)
    ensures NormalizeItem(k, RawItem(None, Some("a\nb"), None, None)).albumName == "a\nb"
  {
  }

  /** A request without a type searches albums. */
  lemma DefaultKindIsAlbum(query: string, resp: RawResponse)
    requires query != ""
    ensures HandleSearch(Some(query), None, Some(resp)).0 == Results(Normalize("album", resp))
    ensures HandleSearch(Some(query), Some(""), Some(resp)).0 == Results(Normalize("album", resp))
  {
  }

  /** An album search reads the album list and names a bare item
      "Unknown Artist" / "Unknown Album"; a playlist search ignores that list. */
  lemma AlbumSearchReadsAlbums(resp: RawResponse)
    requires resp.albums == Some([RawItem(None, None, None, None)])
    requires resp.playlists.None?
    ensures Normalize("album", resp) == [Summary("Unknown Artist", "Unknown Album", "", "")]
    ensures Normalize("playlist", resp) == []
  {
    assert ParseKind("album") == Some(Album);
    assert ParseKind("playlist") == Some(Playlist);
  }
}
