/** The card registry of server.js: the module-level `rows` array and the
    handlers that change it. Each handler is a pure step from the registry
    state to a new state, an HTTP status and the trace of effects it causes:
    `saveData` calls and `broadcast` calls, in the order made. */
module Registry {
  import opened Options
  import opened Text
  import opened Codec
  import Thumbnails

  /** The `{type, payload}` messages sent to every open WebSocket client. */
  datatype Event = UpdateCard(row: Card) | NewCard(row: Card) | OpenCard(id: string)

  /** `saveData(rows)` writing both files, or `broadcast(event)`. */
  datatype Effect = Save(files: StoreFiles) | Broadcast(event: Event)

  /** The HTTP status of the reply: 200, 400 or 404. */
  datatype Status = Ok | BadRequest | NotFound

  /** The registry rows and the names in the thumbnail directory. */
  datatype State = State(rows: seq<Card>, thumbnails: set<string>)

  datatype Step = Step(state: State, status: Status, trace: seq<Effect>)

  /** The id `/newCard` uses when the request gives none or an empty one. */
  const DefaultCardId: string := "CARD_ID"

  /** `rows[i]` is the first row with card id `id`: the one `findIndex`
      picks. */
  predicate FirstWith(rows: seq<Card>, id: string, i: int)
  {
    0 <= i < |rows| && rows[i].card == id && forall j :: 0 <= j < i ==> rows[j].card != id
  }

  /** The index `findIndex` gives for `id`, with `None` for -1. */
  function FindIndex(rows: seq<Card>, id: string): (r: Option<nat>)
    ensures r.None? <==> id !in CardIds(rows)
    ensures r.Some? ==> FirstWith(rows, id, r.value)
  {
    if |rows| == 0 then None
    else if rows[0].card == id then Some(0)
    else
      match FindIndex(rows[1..], id)
      case None =>
        assert CardIds(rows) == {rows[0].card} + CardIds(rows[1..]) by {
          assert forall i :: 0 < i < |rows| ==> rows[i] == rows[1..][i - 1];
        }
        None
      case Some(i) =>
        assert rows[i + 1] == rows[1..][i];
        assert forall j :: 0 < j < i + 1 ==> rows[j] == rows[1..][j - 1];
        Some(i + 1)
  }

  /** The rows after the row at index `i` is given a new name and url; the
      card id and every other row stay as they were. */
  predicate ChangedOnly(before: seq<Card>, after: seq<Card>, i: int, name: string, url: string)
  {
    && 0 <= i < |before|
    && |after| == |before|
    && after[i] == Card(before[i].card, name, url)
    && forall j :: 0 <= j < |before| && j != i ==> after[j] == before[j]
  }

  /** The trace of a committed change: the save of the new rows, then one
      broadcast. */
  function Commit(rows: seq<Card>, event: Event): seq<Effect>
  {
    [Save(SaveData(rows)), Broadcast(event)]
  }

  /** `POST /update {card, name, url}`. An unknown card is a silent no-op that
      still reports success; otherwise the first row with that id takes the
      new name and url, the rows are saved, then the row is broadcast. */
  function Update(s: State, card: string, name: string, url: string): (r: Step)
    ensures r.status == Ok
    ensures r.state.thumbnails == s.thumbnails
    ensures card !in CardIds(s.rows) ==> r.state == s && r.trace == []
    ensures card in CardIds(s.rows) ==>
              exists i :: FirstWith(s.rows, card, i) && ChangedOnly(s.rows, r.state.rows, i, name, url)
    ensures card in CardIds(s.rows) ==>
              r.trace == Commit(r.state.rows, UpdateCard(Card(card, name, url)))
  {
    match FindIndex(s.rows, card)
    case None => Step(s, Ok, [])
    case Some(i) =>
      var row := Card(card, name, url);
      var rows := s.rows[i := row];
      Step(State(rows, s.thumbnails), Ok, Commit(rows, UpdateCard(row)))
  }

  /** The id `/newCard` uses: the given one, or the default when it is
      missing or empty. */
  function EffectiveId(id: Option<string>): (r: string)
    ensures r != ""
    ensures id.Some? && id.value != "" ==> r == id.value
    ensures id.None? || id.value == "" ==> r == DefaultCardId
  {
    if id.None? || id.value == "" then DefaultCardId else id.value
  }

  /** `POST /newCard {id}`. A taken id changes nothing, is not saved, asks
      every viewer to open the existing card and answers 400; a fresh id
      appends an empty row, saves, then broadcasts the new row. */
  function CreateCard(s: State, id: Option<string>): (r: Step)
    ensures r.state.thumbnails == s.thumbnails
    ensures EffectiveId(id) in CardIds(s.rows) ==>
              r.state == s && r.status == BadRequest && r.trace == [Broadcast(OpenCard(EffectiveId(id)))]
    ensures EffectiveId(id) !in CardIds(s.rows) ==>
              && r.status == Ok
              && r.state.rows == s.rows + [Card(EffectiveId(id), "", "")]
              && r.trace == Commit(r.state.rows, NewCard(Card(EffectiveId(id), "", "")))
    ensures UniqueIds(s.rows) ==> UniqueIds(r.state.rows)
  {
    var newId := EffectiveId(id);
    if FindIndex(s.rows, newId).Some? then
      Step(s, BadRequest, [Broadcast(OpenCard(newId))])
    else
      var row := Card(newId, "", "");
      var rows := s.rows + [row];
      assert forall i :: 0 <= i < |s.rows| ==> rows[i].card in CardIds(s.rows);
      Step(State(rows, s.thumbnails), Ok, Commit(rows, NewCard(row)))
  }

  /** `GET /openCard?id=...`: only a broadcast, no change and no save. */
  function RequestFocus(s: State, id: string): (r: Step)
    ensures r.state == s && r.status == Ok
    ensures r.trace == [Broadcast(OpenCard(id))]
  {
    Step(s, Ok, [Broadcast(OpenCard(id))])
  }

  /** `POST /selectAlbum {card, albumArtist, albumName, albumUri, albumArt}`.
      An unknown card answers 404 and changes nothing. Otherwise the row's
      name becomes `${albumArtist} - ${albumName}` and its url `albumUri`,
      every thumbnail starting with `${card}_` is deleted, and the artwork is
      stored under the sanitised title when `albumArt` is not empty and the
      download and the write both succeeded (`written`); then the rows are
      saved and the row broadcast. */
  function SelectMedia(s: State, card: string, artist: string, title: string, uri: string,
                       art: string, written: bool): (r: Step)
    ensures card !in CardIds(s.rows) ==> r == Step(s, NotFound, [])
    ensures card in CardIds(s.rows) ==>
              && r.status == Ok
              && (exists i :: FirstWith(s.rows, card, i) && ChangedOnly(s.rows, r.state.rows, i, artist + " - " + title, uri))
              && r.trace == Commit(r.state.rows, UpdateCard(Card(card, artist + " - " + title, uri)))
    ensures card in CardIds(s.rows) ==>
              && (forall f :: !StartsWith(f, Thumbnails.OwnerPrefix(card)) ==> (f in r.state.thumbnails <==> f in s.thumbnails))
              && (forall f :: f in r.state.thumbnails && StartsWith(f, Thumbnails.OwnerPrefix(card)) ==>
                    f == Thumbnails.ThumbnailName(card, title) && art != "" && written)
              && (art != "" && written ==>
                    Thumbnails.ThumbnailName(card, title) in r.state.thumbnails)
  {
    match FindIndex(s.rows, card)
    case None => Step(s, NotFound, [])
    case Some(i) =>
      var row := Card(card, artist + " - " + title, uri);
      var rows := s.rows[i := row];
      var files := Thumbnails.Refresh(s.thumbnails, card, title, art != "" && written);
      Step(State(rows, files), Ok, Commit(rows, UpdateCard(row)))
  }
}
