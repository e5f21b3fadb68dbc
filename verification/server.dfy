/** The request surface of server.js as one state machine: start-up loads the
    row file, then each request that reaches the registry is one registry
    step. Properties that span handlers or several requests live here. */
module Server {
  import opened Options
  import opened Text
  import opened Codec
  import opened Registry

  /** The requests that reach the registry. `written` is whether the artwork
      of `/selectAlbum` was downloaded and written as `${card}_<title>.jpg`
      directly inside the thumbnail directory. Every failure the handler's
      `catch` swallows makes it false: the download, a name longer than the
      file system allows, or a card id with `/` that sends the path elsewhere. */
  datatype Request =
    | UpdateReq(card: string, name: string, url: string)
    | NewCardReq(id: Option<string>)
    | SelectAlbumReq(card: string, artist: string, title: string, uri: string, art: string, written: bool)
    | OpenCardReq(focus: string)

  function Handle(s: State, req: Request): Step
  {
    match req
    case UpdateReq(card, name, url) => Update(s, card, name, url)
    case NewCardReq(id) => CreateCard(s, id)
    case SelectAlbumReq(card, artist, title, uri, art, written) => SelectMedia(s, card, artist, title, uri, art, written)
    case OpenCardReq(id) => RequestFocus(s, id)
  }

  /** Start-up: the rows are what the row file loads to, and the thumbnail
      directory is as found. A missing row file reads like an empty one. */
  function Boot(rowFile: Option<string>, thumbnails: set<string>): (s: State)
    ensures AllStorable(s.rows)
    ensures LoadRows(rowFile.GetOr("")) == s.rows
  {
    assert LoadRows("") == [] by {
      assert Split("", LineSep) == [""];
      assert IsBlank("");
    }
    State(LoadInitial(rowFile), thumbnails)
  }

  /** Requests in order, with the concatenated effect trace. */
  function Run(s: State, reqs: seq<Request>): (State, seq<Effect>)
    decreases |reqs|
  {
    if |reqs| == 0 then (s, [])
    else
      var step := Handle(s, reqs[0]);
      var (t, rest) := Run(step.state, reqs[1..]);
      (t, step.trace + rest)
  }

  // ----- traces -----

  /** The row file after the saves of `trace`, starting from `rowFile`. */
  function RowFileAfter(rowFile: string, trace: seq<Effect>): string
    decreases |trace|
  {
    if |trace| == 0 then rowFile
    else RowFileAfter(if trace[0].Save? then trace[0].files.rowFile else rowFile, trace[1..])
  }

  lemma RowFileAfterAppend(rowFile: string, a: seq<Effect>, b: seq<Effect>)
    ensures RowFileAfter(rowFile, a + b) == RowFileAfter(RowFileAfter(rowFile, a), b)
    decreases |a|
  {
    if |a| > 0 {
      assert (a + b)[0] == a[0];
      assert (a + b)[1..] == a[1..] + b;
      RowFileAfterAppend(if a[0].Save? then a[0].files.rowFile else rowFile, a[1..], b);
    } else {
      assert a + b == b;
    }
  }

  /** The two shapes a step can take. Either it changes no row and saves
      nothing, broadcasting at most focus requests; or it saves the resulting
      rows (row file and lookup table from that one snapshot) and only then
      broadcasts one row, taken from that snapshot. */
  predicate CommittedInOrder(s: State, step: Step)
  {
    || (&& step.state.rows == s.rows
        && forall i :: 0 <= i < |step.trace| ==> step.trace[i].Broadcast? && step.trace[i].event.OpenCard?)
    || (&& |step.trace| == 2
        && step.trace[0] == Save(SaveData(step.state.rows))
        && step.trace[1].Broadcast? && !step.trace[1].event.OpenCard?
        && step.trace[1].event.row in step.state.rows)
  }

  lemma HandleCommitsInOrder(s: State, req: Request)
    ensures CommittedInOrder(s, Handle(s, req))
  {
    var step := Handle(s, req);
    match req
    case UpdateReq(card, name, url) =>
      if card in CardIds(s.rows) {
        var i :| FirstWith(s.rows, card, i) && ChangedOnly(s.rows, step.state.rows, i, name, url);
        assert step.state.rows[i] == Card(card, name, url);
      }
    case SelectAlbumReq(card, artist, title, uri, art, written) =>
      if card in CardIds(s.rows) {
        var i :| FirstWith(s.rows, card, i) && ChangedOnly(s.rows, step.state.rows, i, artist + " - " + title, uri);
        assert step.state.rows[i] == Card(card, artist + " - " + title, uri);
      }
    case NewCardReq(id) =>
      if EffectiveId(id) !in CardIds(s.rows) {
        assert step.state.rows[|s.rows|] == Card(EffectiveId(id), "", "");
      }
    case OpenCardReq(focus) =>
  }

  /** Card ids stay unique under every request. */
  lemma HandlePreservesUniqueIds(s: State, req: Request)
    requires UniqueIds(s.rows)
    ensures UniqueIds(Handle(s, req).state.rows)
  {
    match req
    case UpdateReq(card, name, url) => UpdateKeepsIds(s, card, name, url);
    case SelectAlbumReq(card, artist, title, uri, art, written) => SelectKeepsIds(s, card, artist, title, uri, art, written);
    case NewCardReq(id) =>
    case OpenCardReq(id) =>
  }

  lemma UpdateKeepsIds(s: State, card: string, name: string, url: string)
    requires UniqueIds(s.rows)
    ensures UniqueIds(Update(s, card, name, url).state.rows)
  {
    var rows := Update(s, card, name, url).state.rows;
    if card in CardIds(s.rows) {
      var i :| FirstWith(s.rows, card, i) && ChangedOnly(s.rows, rows, i, name, url);
      SameIdsUnique(s.rows, rows);
    }
  }

  lemma SelectKeepsIds(s: State, card: string, artist: string, title: string, uri: string, art: string, written: bool)
    requires UniqueIds(s.rows)
    ensures UniqueIds(SelectMedia(s, card, artist, title, uri, art, written).state.rows)
  {
    var rows := SelectMedia(s, card, artist, title, uri, art, written).state.rows;
    if card in CardIds(s.rows) {
      var i :| FirstWith(s.rows, card, i) && ChangedOnly(s.rows, rows, i, artist + " - " + title, uri);
      SameIdsUnique(s.rows, rows);
    }
  }

  /** Rows with the same ids, position by position, are unique together. */
  lemma SameIdsUnique(before: seq<Card>, after: seq<Card>)
    requires UniqueIds(before) && |after| == |before|
    requires forall j :: 0 <= j < |before| ==> after[j].card == before[j].card
    ensures UniqueIds(after)
  {
  }

  lemma {:induction false} RunPreservesUniqueIds(s: State, reqs: seq<Request>)
    requires UniqueIds(s.rows)
    ensures UniqueIds(Run(s, reqs).0.rows)
    decreases |reqs|
  {
    if |reqs| > 0 {
      HandlePreservesUniqueIds(s, reqs[0]);
      RunPreservesUniqueIds(Handle(s, reqs[0]).state, reqs[1..]);
    }
  }

  // ----- restart -----

  /** Every text a request would write into a row is free of separators. */
  predicate StorableRequest(req: Request)
  {
    match req
    case UpdateReq(card, name, url) => IsStorable(card) && IsStorable(name) && IsStorable(url)
    case NewCardReq(id) => IsStorable(EffectiveId(id))
    case SelectAlbumReq(card, artist, title, uri, art, written) =>
      IsStorable(card) && IsStorable(artist + " - " + title) && IsStorable(uri)
    case OpenCardReq(id) => true
  }

  /** A restart after any request reloads exactly the rows held in memory,
      as long as the request's fields are free of separators. */
  lemma HandleKeepsRowFileInSync(s: State, rowFile: string, req: Request)
    ensures AllStorable(s.rows) && LoadRows(rowFile) == s.rows && StorableRequest(req) ==>
              && AllStorable(Handle(s, req).state.rows)
              && LoadRows(RowFileAfter(rowFile, Handle(s, req).trace)) == Handle(s, req).state.rows
  {
    if AllStorable(s.rows) && LoadRows(rowFile) == s.rows && StorableRequest(req) {
      var step := Handle(s, req);
      HandleCommitsInOrder(s, req);
      HandleStorable(s, req);
      CommittedKeepsRowFileInSync(s, step, rowFile);
    }
  }

  lemma CommittedKeepsRowFileInSync(s: State, step: Step, rowFile: string)
    requires CommittedInOrder(s, step)
    requires AllStorable(step.state.rows) && LoadRows(rowFile) == s.rows
    ensures LoadRows(RowFileAfter(rowFile, step.trace)) == step.state.rows
  {
    var t := step.trace;
    if |t| == 2 && t[0].Save? {
      var files := SaveData(step.state.rows);
      assert t[0].files == files;
      assert RowFileAfter(rowFile, t) == RowFileAfter(files.rowFile, t[1..]);
      assert t[1..][1..] == [];
      assert RowFileAfter(files.rowFile, t[1..]) == RowFileAfter(files.rowFile, []);
    } else {
      RowFileAfterUnsaved(rowFile, step.trace);
    }
  }

  lemma RowFileAfterUnsaved(rowFile: string, trace: seq<Effect>)
    requires forall i :: 0 <= i < |trace| ==> !trace[i].Save?
    ensures RowFileAfter(rowFile, trace) == rowFile
    decreases |trace|
  {
    if |trace| > 0 {
      RowFileAfterUnsaved(rowFile, trace[1..]);
    }
  }

  /** Storable rows stay storable under a storable request. */
  lemma HandleStorable(s: State, req: Request)
    requires AllStorable(s.rows) && StorableRequest(req)
    ensures AllStorable(Handle(s, req).state.rows)
  {
    match req
    case UpdateReq(card, name, url) =>
      var rows := Update(s, card, name, url).state.rows;
      if card in CardIds(s.rows) {
        var i :| FirstWith(s.rows, card, i) && ChangedOnly(s.rows, rows, i, name, url);
        ChangedOnlyStorable(s.rows, rows, i, name, url);
      }
    case SelectAlbumReq(card, artist, title, uri, art, written) =>
      var rows := SelectMedia(s, card, artist, title, uri, art, written).state.rows;
      if card in CardIds(s.rows) {
        var i :| FirstWith(s.rows, card, i) && ChangedOnly(s.rows, rows, i, artist + " - " + title, uri);
        ChangedOnlyStorable(s.rows, rows, i, artist + " - " + title, uri);
      }
    case NewCardReq(id) =>
    case OpenCardReq(focus) =>
  }

  lemma ChangedOnlyStorable(before: seq<Card>, after: seq<Card>, i: int, name: string, url: string)
    requires AllStorable(before) && ChangedOnly(before, after, i, name, url)
    requires IsStorable(name) && IsStorable(url)
    ensures AllStorable(after)
  {
  }

  /** Over a run of separator-free requests, the row file on disk always
      reloads to the rows in memory. */
  lemma {:induction false} RunKeepsRowFileInSync(s: State, rowFile: string, reqs: seq<Request>)
    ensures AllStorable(s.rows) && LoadRows(rowFile) == s.rows &&
            (forall i :: 0 <= i < |reqs| ==> StorableRequest(reqs[i])) ==>
              LoadRows(RowFileAfter(rowFile, Run(s, reqs).1)) == Run(s, reqs).0.rows
    decreases |reqs|
  {
    if |reqs| > 0 && AllStorable(s.rows) && LoadRows(rowFile) == s.rows &&
       (forall i :: 0 <= i < |reqs| ==> StorableRequest(reqs[i])) {
      var step := Handle(s, reqs[0]);
      HandleKeepsRowFileInSync(s, rowFile, reqs[0]);
      var next := RowFileAfter(rowFile, step.trace);
      RunKeepsRowFileInSync(step.state, next, reqs[1..]);
      RowFileAfterAppend(rowFile, step.trace, Run(step.state, reqs[1..]).1);
    }
  }

  /** A persisted update: reloading the saved row file gives the new rows,
      the lookup table maps the card to the new url, and the one broadcast
      carries the updated row. */
  lemma UpdateIsPersisted(s: State, card: string, name: string, url: string)
    requires UniqueIds(s.rows) && AllStorable(s.rows)
    requires card in CardIds(s.rows) && card != ProtoKey
    requires IsStorable(name) && IsStorable(url)
    ensures var step := Update(s, card, name, url);
      && |step.trace| == 2 && step.trace[0].Save?
      && LoadRows(step.trace[0].files.rowFile) == step.state.rows
      && card in step.trace[0].files.lookup
      && step.trace[0].files.lookup[card] == url + PlaySuffix
      && Broadcasts(step.trace) == [UpdateCard(Card(card, name, url))]
  {
    var step := Update(s, card, name, url);
    var rows := step.state.rows;
    var i :| FirstWith(s.rows, card, i) && ChangedOnly(s.rows, rows, i, name, url);
    assert rows[i] == Card(card, name, url);
    assert AllStorable(rows) by {
      assert forall j :: 0 <= j < |rows| && j != i ==> rows[j] == s.rows[j];
    }
    SameIdsUnique(s.rows, rows);
    var files := SaveData(rows);
    assert step.trace == Commit(rows, UpdateCard(Card(card, name, url)));
    assert step.trace[0].files == files;
    assert LoadRows(files.rowFile) == rows;
    assert files.lookup == LookupTable(rows);
    LookupTableOfUnique(rows);
    assert rows[i].card == card && rows[i].card != ProtoKey;
    BroadcastsOfCommit(rows, UpdateCard(Card(card, name, url)));
  }

  // ----- broadcasts -----

  /** The messages `broadcast` sent during `trace`, in order: what every
      connected viewer receives. */
  function Broadcasts(trace: seq<Effect>): (events: seq<Event>)
    ensures |events| <= |trace|
    decreases |trace|
  {
    if |trace| == 0 then []
    else (if trace[0].Broadcast? then [trace[0].event] else []) + Broadcasts(trace[1..])
  }

  lemma BroadcastsOfCommit(rows: seq<Card>, e: Event)
    ensures Broadcasts(Commit(rows, e)) == [e]
  {
    assert Commit(rows, e)[1..][1..] == [];
  }

  lemma BroadcastsAppend(a: seq<Effect>, b: seq<Effect>)
    ensures Broadcasts(a + b) == Broadcasts(a) + Broadcasts(b)
    decreases |a|
  {
    if |a| == 0 {
      assert a + b == b;
    } else {
      assert (a + b)[0] == a[0];
      assert (a + b)[1..] == a[1..] + b;
      BroadcastsAppend(a[1..], b);
    }
  }

  /** The empty cards that creating `ids` in order appends. */
  function EmptyCards(ids: seq<string>): (cards: seq<Card>)
    ensures |cards| == |ids|
    ensures forall i :: 0 <= i < |ids| ==> cards[i] == Card(ids[i], "", "")
    decreases |ids|
  {
    if |ids| == 0 then [] else [Card(ids[0], "", "")] + EmptyCards(ids[1..])
  }

  /** `POST /newCard` once per id, in order. */
  function CreateRequests(ids: seq<string>): (reqs: seq<Request>)
    ensures |reqs| == |ids|
    ensures forall i :: 0 <= i < |ids| ==> reqs[i] == NewCardReq(Some(ids[i]))
  {
    seq(|ids|, i requires 0 <= i < |ids| => NewCardReq(Some(ids[i])))
  }

  /** The `newCard` messages for `ids`, in order. */
  function NewCardEvents(ids: seq<string>): (events: seq<Event>)
    ensures |events| == |ids|
    ensures forall i :: 0 <= i < |ids| ==> events[i] == NewCard(Card(ids[i], "", ""))
    decreases |ids|
  {
    if |ids| == 0 then [] else [NewCard(Card(ids[0], "", ""))] + NewCardEvents(ids[1..])
  }

  /** One creation of a fresh id. */
  lemma CreateOne(s: State, id: string)
    requires id != "" && id !in CardIds(s.rows)
    ensures var step := Handle(s, NewCardReq(Some(id)));
      && step.state.rows == s.rows + [Card(id, "", "")]
      && CardIds(step.state.rows) == CardIds(s.rows) + {id}
      && Broadcasts(step.trace) == [NewCard(Card(id, "", ""))]
  {
    var step := CreateCard(s, Some(id));
    var card := Card(id, "", "");
    assert step.trace == Commit(step.state.rows, NewCard(card));
    BroadcastsOfCommit(step.state.rows, NewCard(card));
    assert forall i :: 0 <= i < |s.rows| ==> step.state.rows[i] == s.rows[i];
    assert step.state.rows[|s.rows|] == card;
  }

  /** The precondition of a run of creations carries over to its tail. */
  lemma FreshDistinctTail(s: State, ids: seq<string>)
    requires |ids| > 0
    requires forall i :: 0 <= i < |ids| ==> ids[i] != "" && ids[i] !in CardIds(s.rows)
    requires forall i, j :: 0 <= i < |ids| && 0 <= j < |ids| && ids[i] == ids[j] ==> i == j
    ensures var t := Handle(s, NewCardReq(Some(ids[0]))).state;
      && (forall i :: 0 <= i < |ids[1..]| ==> ids[1..][i] != "" && ids[1..][i] !in CardIds(t.rows))
      && (forall i, j :: 0 <= i < |ids[1..]| && 0 <= j < |ids[1..]| && ids[1..][i] == ids[1..][j] ==> i == j)
  {
    CreateOne(s, ids[0]);
    assert forall i :: 0 <= i < |ids[1..]| ==> ids[1..][i] == ids[i + 1];
  }

  /** Creating distinct new ids appends exactly one empty card per id, in
      creation order, and broadcasts exactly one `newCard` per id, in the
      same order, with no `openCard`. */
  lemma {:induction false} CreateDistinctInOrder(s: State, ids: seq<string>)
    requires forall i :: 0 <= i < |ids| ==> ids[i] != "" && ids[i] !in CardIds(s.rows)
    requires forall i, j :: 0 <= i < |ids| && 0 <= j < |ids| && ids[i] == ids[j] ==> i == j
    ensures Run(s, CreateRequests(ids)).0.rows == s.rows + EmptyCards(ids)
    ensures Broadcasts(Run(s, CreateRequests(ids)).1) == NewCardEvents(ids)
    decreases |ids|
  {
    var reqs := CreateRequests(ids);
    if |ids| > 0 {
      CreateOne(s, ids[0]);
      FreshDistinctTail(s, ids);
      var step := Handle(s, reqs[0]);
      var rest := ids[1..];
      assert CreateRequests(rest) == reqs[1..];
      CreateDistinctInOrder(step.state, rest);
      var tail := Run(step.state, reqs[1..]);
      BroadcastsAppend(step.trace, tail.1);
      assert Run(s, reqs) == (tail.0, step.trace + tail.1);
      assert s.rows + [Card(ids[0], "", "")] + EmptyCards(rest) == s.rows + EmptyCards(ids);
    }
  }

  // ----- worked examples -----

  /** Create `A1`, then update it: the rows, both saved files and the
      broadcast message are as documented. */
  lemma CreateThenUpdateExample()
    ensures var created := Handle(State([], {}), NewCardReq(Some("A1")));
      && created.state.rows == [Card("A1", "", "")]
      && var updated := Handle(created.state, UpdateReq("A1", "Song X", "spotify:track:1"));
      && updated.state.rows == [Card("A1", "Song X", "spotify:track:1")]
      && updated.trace == [Save(StoreFiles("A1;Song X;spotify:track:1", map["A1" := "spotify:track:1:play"])),
                           Broadcast(UpdateCard(Card("A1", "Song X", "spotify:track:1")))]
  {
    var row := Card("A1", "Song X", "spotify:track:1");
    var created := CreateCard(State([], {}), Some("A1"));
    assert created.state.rows == [Card("A1", "", "")];
    var updated := Update(created.state, "A1", "Song X", "spotify:track:1");
    assert FindIndex(created.state.rows, "A1") == Some(0);
    assert updated.state.rows == [row];
    LiteralLines();
    EncodeOneRow(row, "A1;Song X;spotify:track:1");
    LookupOfOne(row);
  }

  /** `/update` does not strip the field separator: a name `a;b` is saved as
      four fields, and the reloaded row has name `a` and url `b`, losing the
      real url. */
  lemma SeparatorInUpdateIsNotRoundTripped()
    ensures var step := Handle(State([Card("A1", "", "")], {}), UpdateReq("A1", "a;b", "u"));
      && step.state.rows == [Card("A1", "a;b", "u")]
      && LoadRows(step.trace[0].files.rowFile) == [Card("A1", "a", "b")]
  {
    var row := Card("A1", "a;b", "u");
    var step := Update(State([Card("A1", "", "")], {}), "A1", "a;b", "u");
    assert FindIndex([Card("A1", "", "")], "A1") == Some(0);
    assert step.state.rows == [row];
    LiteralLines();
    EncodeOneRow(row, "A1;a;b;u");
    LoadFourFieldLine();
  }

  /** The lines of the two examples, spelled out. */
  lemma LiteralLines()
    ensures "A1" + [FieldSep] + "Song X" + [FieldSep] + "spotify:track:1" == "A1;Song X;spotify:track:1"
    ensures "A1" + [FieldSep] + "a;b" + [FieldSep] + "u" == "A1;a;b;u"
    ensures "spotify:track:1" + PlaySuffix == "spotify:track:1:play"
    ensures "A1" != ProtoKey
    ensures "A1" + [FieldSep] + ("a" + [FieldSep] + "b" + [FieldSep] + "u") == "A1;a;b;u"
  {
  }

  lemma LookupOfOne(row: Card)
    requires row.card != ProtoKey
    ensures LookupTable([row]) == map[row.card := row.url + PlaySuffix]
  {
    assert [row][..0] == [];
  }

  lemma EncodeOneRow(row: Card, line: string)
    requires line == row.card + [FieldSep] + row.name + [FieldSep] + row.url
    ensures EncodeRows([row]) == line
  {
    Join3(row.card, row.name, row.url, FieldSep);
    assert EncodeLines([row]) == [line];
  }

  lemma LoadFourFieldLine()
    ensures LoadRows("A1;a;b;u") == [Card("A1", "a", "b")]
  {
    var line := "A1;a;b;u";
    var lines: seq<string> := [line];
    assert LineSep !in line;
    assert Split(line, LineSep) == lines;
    assert !IsBlank(line) by { assert !IsTrimmable(line[0]); }
    assert lines[1..] == [];
    assert DecodeLines(lines) == [DecodeRow(line)];
    DecodeFourFields();
  }

  lemma DecodeFourFields()
    ensures DecodeRow("A1;a;b;u") == Card("A1", "a", "b")
  {
    var parts := ["A1", "a", "b", "u"];
    assert Join(parts, FieldSep) == "A1;a;b;u" by {
      assert parts[1..] == ["a", "b", "u"];
      Join3("a", "b", "u", FieldSep);
      LiteralLines();
    }
    SplitJoin(parts, FieldSep);
  }
}
