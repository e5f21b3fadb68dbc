# Card registry of spotify-card-mapping, modelled in Dafny

The server keeps a registry of physical cards. Each card maps a card id to a
display name and a Spotify uri. The registry lives in memory as an ordered
list of `{card, name, url}` rows. Every change is written to two files and then
pushed to all connected WebSocket viewers. The files are a `card;name;url` row
file and a lookup table from card id to `url + ":play"`.

This project models that core as pure functions:

- `text.dfy` (`Text`): the JavaScript string operations the server relies on.
  These are `split` and `join` on one character, a global one-character
  `replace`, `startsWith`, and the blank-line test `trim() !== ""`.
- `codec.dfy` (`Codec`): `loadData` and `saveData`, covering the row format, its
  decoder and the lookup table.
- `thumbnails.dfy` (`Thumbnails`): the thumbnail directory as a set of file
  names, the title sanitiser, and the prefix deletion of `/selectAlbum`.
- `search.dfy` (`Search`): how `searchOnSpotify` normalises result fields per
  media type, and the `/spotifySearch` handler.
- `registry.dfy` (`Registry`): the `/update`, `/newCard`, `/selectAlbum` and
  `/openCard` handlers. Each one is a step from the registry state to a new
  state, an HTTP status, and an ordered trace of effects (`Save(files)` and
  `Broadcast(event)`).
- `server.dfy` (`Server`): start-up, request dispatch and runs of requests. It
  also holds the properties that span several handlers or requests:
  - card ids stay unique;
  - each save comes before its broadcast;
  - after any run, the row file reloads to exactly the rows in memory;
  - distinct creations append cards in creation order.
- `options.dfy` (`Options`): `Option`, used for absent request fields,
  search attributes and files.

Notes on how the code behaves, which the model follows:

- `/update` on an unknown card changes nothing, saves nothing and broadcasts
  nothing, yet still answers `{success: true}`.
- `/newCard` with a taken id changes nothing and saves nothing. It broadcasts
  `openCard` for that id and answers 400. A fresh id answers with status 200.
- `/update` and `/newCard` do not strip `;` or newlines from their input. A
  field that contains one is not read back as it was written
  (`Server.SeparatorInUpdateIsNotRoundTripped`). The search adapter replaces
  `;` with `,` only in the artist and name fields. It does not clean the uri
  and artwork fields: it passes them through unchanged.
- A row-file line with fewer than three fields yields JavaScript `undefined`
  for the missing fields. The model identifies that value with the text
  `"undefined"`, which is what the next save writes to both files. The
  program itself tells the two apart before that save (see "## Left out").
- The search adapter does not remove newlines from artist or name
  (`Search.NewlineInTitleSurvives`). A selected title holding a newline
  breaks the row file just as a `;` from `/update` does.
- A new thumbnail is recorded only when artwork was given and both its
  download and its write succeeded (the request flag `written`). The handler
  swallows every failure of either, for instance a file name longer than the
  file system allows or a card id whose `/` points into a missing
  subdirectory; then no file is recorded.
- The lookup table is a plain JavaScript object. Assigning to
  `map["__proto__"]` a string is ignored by the prototype setter. So a card
  whose id is `__proto__` gets no lookup entry, and the model leaves that key
  out.
- Thumbnail deletion removes every file whose name starts with `${card}_`.
  That includes the thumbnails of any other card whose id itself starts with
  `${card}_` (`Thumbnails.RefreshRemovesExtendedIds`). File names do not say
  which card owns them, so the model does not propose a different rule.

## Model

| member | source | states |
|---|---|---|
| Text.Split | server.js:97 | splitting never returns an empty list, no piece holds the separator, every piece character comes from the input, and joining the pieces gives the input back |
| Text.Join | server.js:107 | joining no parts gives the empty text, and the joined text starts with the first part; `Text.SplitJoin` is its inverse |
| Text.JoinHasSeparator | server.js:107 | with separator-free parts, the joined text holds the separator exactly when there are two parts or more |
| Text.SplitJoin | server.js:100 | splitting a join of separator-free parts returns exactly those parts, in order |
| Text.SplitAppendSep | server.js:97 | a trailing separator adds exactly one empty piece after the others |
| Text.TrimStart | server.js:98 | the result is a suffix of the text, everything dropped is trimmable, and it does not start with a trimmable character |
| Text.TrimEnd | server.js:98 | the result is a prefix of the text, everything dropped is trimmable, and it does not end with a trimmable character |
| Text.BlankIsTrimEmpty | server.js:98 | a line is blank (all trimmable characters) exactly when `trim` leaves nothing of it |
| Text.ReplaceAll | server.js:47 | a global one-character replace keeps the length, changes exactly the matching characters, and leaves none of them |
| Codec.EncodeRow | server.js:106 | an encoded row line always contains `;`, so the loader never drops it as blank |
| Codec.DecodeRow | server.js:100-101 | a newline-free line decodes to separator-free fields; a line without `;` is a card id with name and url the text `"undefined"` (JavaScript `undefined` in the program) |
| Codec.DecodeJoin | server.js:100-101 | a line of separator-free fields decodes to its first three fields as card, name and url in that order; a missing one is `"undefined"` and further fields are dropped |
| Codec.DecodeTwoFields | server.js:100-101 | the line `A1;x` decodes to card `A1`, name `x` and url `"undefined"` |
| Codec.DecodeEncodeRow | server.js:99-106 | decoding an encoded row whose fields hold no `;` or newline gives back the row |
| Codec.EncodeRows | server.js:106-107 | no rows give the empty file; storable rows give a file that splits at newlines into exactly one encoded line per row, in order |
| Codec.DecodeLines | server.js:98-102 | never more rows than lines; with no blank line, one row per line in order; lines free of newlines give storable rows |
| Codec.DecodeOneLine | server.js:98-102 | a single line gives nothing when blank and its decoded row otherwise |
| Codec.DecodeBlankLines | server.js:98-102 | input whose every line is blank gives no rows |
| Codec.DecodeLinesAppend | server.js:98-102 | decoding a concatenation of lines is decoding each part and concatenating, so every line is handled on its own, in order |
| Codec.TrailingNewlineIsHarmless | server.js:96-98 | a row file with an extra trailing newline loads to the same rows |
| Codec.LoadRows | server.js:95-102 | every row loaded from any file content is free of separators |
| Codec.LoadInitial | server.js:93-94 | a missing row file loads as an empty registry |
| Codec.LoadEncodeRoundTrip | server.js:96-107 | for separator-free rows, loading the written row file gives the same rows in the same order, including the empty registry |
| Codec.LoadSaveLoad | server.js:93-107 | whatever the file held, saving what was loaded and loading again gives the same rows, with `undefined` identified with its text |
| Codec.LookupTable | server.js:108-109 | the table's keys are the card ids except `__proto__`, and each key maps to the url of the last row with that id plus `:play` |
| Codec.LookupTableOfUnique | server.js:108-109 | with unique ids, every row other than `__proto__` maps to its own url plus `:play` |
| Codec.SaveData | server.js:105-111 | both files come from one snapshot: the table covers the snapshot's ids, and the row file reloads to the snapshot when it is separator-free |
| Thumbnails.Sanitize | server.js:170 | the output length is min(title length, 50); every character is an ASCII letter, digit or `_`; alphanumerics are kept in place and everything else becomes `_` |
| Thumbnails.SanitizeKeepsFileNames | server.js:170 | a title of at most 50 file-name characters is unchanged |
| Thumbnails.SanitizeIdempotent | server.js:170 | sanitising twice equals sanitising once |
| Thumbnails.ThumbnailName | server.js:171 | the stored file name starts with the card's `${card}_` prefix |
| Thumbnails.DeleteOwned | server.js:163-166 | exactly the files with prefix `${card}_` are removed and all others are kept |
| Thumbnails.Refresh | server.js:163-174 | files without the prefix are untouched; afterwards the only prefixed file is `${card}_<sanitised>.jpg`, present exactly when artwork was given and stored |
| Thumbnails.RefreshRemovesExtendedIds | server.js:165 | thumbnails of a card whose id extends `${card}_` are deleted as well |
| Search.ParseKind | server.js:44-89 | exactly the five type names album, playlist, track, episode and audiobook are handled, and each selects the kind it names |
| Search.ParseKindName | server.js:44-89 | every kind is selected by its own name and by no other |
| Search.AlbumSearchReadsAlbums | server.js:44-52 | an `album` search reads the album list and names a bare item `Unknown Artist` / `Unknown Album` with empty uri and artwork; a `playlist` search does not read that list |
| Search.TextField | server.js:47 | a present non-empty value has each `;` replaced by `,`; a missing or empty value gives the default; the result is never empty and holds no `;` |
| Search.NormalizeItem | server.js:46-51 | a present non-empty artist or name becomes that value with every `;` replaced by `,`, and a missing or empty one becomes the type's default; both are non-empty and `;`-free; uri and artwork pass through, and a missing one becomes `""` |
| Search.Normalize | server.js:44-90 | one summary per item of the type's list, in order, each with non-empty, `;`-free artist and name; an unhandled type gives `[]` |
| Search.HandleSearch | server.js:144-154 | an empty or missing query returns `[]` without contacting the catalogue; otherwise an upstream failure gives status 500 and a reply gives the normalised results for the requested type, `album` when the type is missing or empty |
| Search.NewlineInTitleSurvives | server.js:48 | a newline in a title reaches the summary unchanged |
| Search.DefaultKindIsAlbum | server.js:147 | a missing or empty type searches albums |
| Registry.FindIndex | server.js:121 | finds the first row with the id, and finds none exactly when the id is absent |
| Registry.Update | server.js:119-129 | on a miss, nothing changes and nothing is traced, yet status is 200. On a hit, only the first matching row gets the new name and url, followed by a save and then one updateCard broadcast |
| Registry.EffectiveId | server.js:132 | a missing or empty id becomes `CARD_ID`, and any other id is used as given |
| Registry.CreateCard | server.js:131-142 | a taken id gives status 400 with rows unchanged, no save and one openCard broadcast. A fresh id appends one empty row at the end, followed by a save and then a newCard broadcast. Unique ids stay unique |
| Registry.RequestFocus | server.js:181-185 | only an openCard broadcast, with no change and no save |
| Registry.SelectMedia | server.js:156-179 | a miss gives 404 with no change. A hit sets name to `artist - title` and url to the uri in the first matching row only, followed by a save and then an updateCard broadcast. The only file left with the card's prefix is the new thumbnail, present exactly when artwork was given and downloaded and written; other files are untouched |
| Server.Boot | server.js:93-113 | start-up rows are what the row file loads to, with a missing file read as empty, and they are separator-free |
| Server.HandleCommitsInOrder | server.js:119-185 | a request either changes no row, saves nothing and broadcasts only openCard; or it saves the resulting rows and then broadcasts one row taken from them |
| Server.HandlePreservesUniqueIds | server.js:119-185 | no request creates a duplicate card id |
| Server.RunPreservesUniqueIds | server.js:119-185 | card ids stay unique over any run of requests |
| Server.HandleKeepsRowFileInSync | server.js:105-179 | after a request with separator-free fields, the row file on disk reloads to exactly the rows in memory |
| Server.RunKeepsRowFileInSync | server.js:93-179 | the same holds over any run, starting from the file read at start-up |
| Server.UpdateIsPersisted | server.js:119-128 | after an update of a known card, the saved row file reloads to the new rows, the lookup table maps the card to the new url plus `:play`, and one updateCard message carries the row |
| Server.CreateOne | server.js:137-141 | one fresh creation appends `{id, "", ""}`, adds the id, and broadcasts one newCard |
| Server.CreateDistinctInOrder | server.js:131-142 | creating distinct fresh ids appends one empty card per id in creation order and broadcasts exactly one newCard per id in the same order |
| Server.CreateThenUpdateExample | server.js:119-142 | creating A1 and then updating it writes `A1;Song X;spotify:track:1`, maps A1 to `spotify:track:1:play` and broadcasts the updated row |
| Server.SeparatorInUpdateIsNotRoundTripped | server.js:100-126 | a name containing `;` written by /update reloads as a different row |

## Left out

- Express routing, request and response objects, and the message texts of
  replies: a reply is only its status (`Registry.Status`).
- `GET /data` returns the in-memory rows unchanged. That is the `rows` field of
  the state, so it needs no member of its own. For a row loaded from a short
  line the program omits the missing keys there, where the model shows the
  text `"undefined"`.
- The token exchange, the search request and the artwork download (axios).
  The catalogue reply is an already-parsed `RawResponse`, or `None` for any
  failure. The artwork download and the file write together are one success
  flag, `written`.
- The `limit: 5` search parameter: the catalogue enforces the bound, and the
  code does not truncate.
- Which JSON path each contributor comes from (`artists[0].name`,
  `owner.display_name`, `show.publisher`, `authors[0].name`) and the first-image
  lookups. Each item arrives with these four attributes already extracted.
- Filesystem I/O. Saves are `Save(files)` trace entries, and the thumbnail
  directory is a set of names.
- Partial failure of the deletion loop is out of scope. In the code, a failing
  `readdirSync` or `unlinkSync` silently ends the loop early. The model deletes
  every matching file.
- Write failures of `saveData`, which the code does not handle.
- The JSON text of both the lookup file and the broadcast messages. The table is
  a `map`, and a message is an `Event` value.
- The WebSocket server, its client set and the `readyState` filter. Broadcasts
  are trace entries, and `Server.Broadcasts` lists what every open client
  receives.
- Async interleaving between the awaits of `/selectAlbum`. Each request is one
  atomic step.
- JavaScript `undefined` or non-string request fields. Request fields are
  strings, and an absent `/newCard` id is `None`.
- Thumbnails.Sanitize: it works on Unicode scalar values, not UTF-16 code
  units. In the code, a character outside the Basic Multilingual Plane becomes
  two `_` and counts two toward the 50-character cut.
- The thumbnail directory creation at start-up (`mkdirSync`).
- Codec.DecodeRow: a missing field of a short line is the text `"undefined"`,
  not JavaScript's `undefined`. The two differ in the program until the next
  save writes the text.
- Codec.LoadSaveLoad: holds in the model only because of that identification.
  For a row file `A1` the program first loads `{card: "A1"}` with name and url
  undefined, and after a save and a restart it loads name and url
  `"undefined"`. So for files with short lines, `/data` before and after the
  reload differ in the program but not in the model.
- Registry.SelectMedia: a card id with `/` can make `path.join` put the
  thumbnail where the model does not look, and such a request has `written`
  false. Through `..` the file can land back inside the directory under
  another card's prefix: card `a/../b` with title `T` writes `b_T.jpg`, which
  the model does not add, and `b`'s older thumbnails stay as well. Through
  `../..` it can land outside the directory, where later refreshes never
  delete it.
