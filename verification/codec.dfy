/** The persistent store codec of server.js: `saveData` writes the registry as
    `card;name;url` lines and as a lookup table from card id to
    `url + ":play"`; `loadData` reads the lines back. */
module Codec {
  import opened Options
  import opened Text

  /** One registry record `{card, name, url}`. */
  datatype Card = Card(card: string, name: string, url: string)

  const FieldSep: char := ';'
  const LineSep: char := '\n'
  const PlaySuffix: string := ":play"

  /** A field missing from a short line is JavaScript `undefined`; the next
      save writes it through a template literal as this text. */
  const Undefined: string := "undefined"

  /** The one key that a plain JavaScript object does not store on
      assignment: `map["__proto__"] = aString` goes to the prototype setter,
      which ignores non-object values. */
  const ProtoKey: string := "__proto__"

  /** The card ids present in `rows`. */
  function CardIds(rows: seq<Card>): set<string>
  {
    set i | 0 <= i < |rows| :: rows[i].card
  }

  /** No two rows share a card id. */
  predicate UniqueIds(rows: seq<Card>)
  {
    forall i, j :: 0 <= i < |rows| && 0 <= j < |rows| && rows[i].card == rows[j].card ==> i == j
  }

  /** A field the row format can carry unchanged: no field or line separator. */
  predicate IsStorable(s: string)
  {
    FieldSep !in s && LineSep !in s
  }

  predicate IsStorableCard(r: Card)
  {
    IsStorable(r.card) && IsStorable(r.name) && IsStorable(r.url)
  }

  predicate AllStorable(rows: seq<Card>)
  {
    forall i :: 0 <= i < |rows| ==> IsStorableCard(rows[i])
  }

  // ----- row format -----

  /** `${r.card};${r.name};${r.url}`. The line always holds a separator, so
      it is never blank. */
  function EncodeRow(r: Card): (line: string)
    ensures FieldSep in line
    ensures !IsBlank(line)
  {
    Join3(r.card, r.name, r.url, FieldSep);
    var line := Join([r.card, r.name, r.url], FieldSep);
    assert line[|r.card|] == FieldSep;
    line
  }

  /** One row-file line, split at `;`: the first three fields are card,
      name and url, further fields are dropped and missing ones are
      `undefined`. */
  function DecodeRow(line: string): (r: Card)
    ensures LineSep !in line ==> IsStorableCard(r)
    ensures FieldSep !in line ==> r == Card(line, Undefined, Undefined)
  {
    var f := Split(line, FieldSep);
    assert forall j :: 0 <= j < |f[0]| ==> f[0][j] in line;
    assert |f| > 1 ==> forall j :: 0 <= j < |f[1]| ==> f[1][j] in line;
    assert |f| > 2 ==> forall j :: 0 <= j < |f[2]| ==> f[2][j] in line;
    Card(f[0], if |f| > 1 then f[1] else Undefined, if |f| > 2 then f[2] else Undefined)
  }

  /** A line made of separator-free fields decodes field by field: the first
      three become card, name and url in that order, a missing one is
      `Undefined`, and any further field is dropped. */
  lemma DecodeJoin(fs: seq<string>)
    requires |fs| >= 1
    requires forall k :: 0 <= k < |fs| ==> FieldSep !in fs[k]
    ensures DecodeRow(Join(fs, FieldSep)) ==
              Card(fs[0], if |fs| > 1 then fs[1] else Undefined, if |fs| > 2 then fs[2] else Undefined)
  {
    SplitJoin(fs, FieldSep);
  }

  /** `A1;x` has no url field: the url is `Undefined`. */
  lemma DecodeTwoFields()
    ensures DecodeRow("A1;x") == Card("A1", "x", Undefined)
  {
    var two: seq<string> := ["A1", "x"];
    assert two[1..] == ["x"];
    assert Join(two, FieldSep) == "A1" + [FieldSep] + "x";
    assert "A1" + [FieldSep] + "x" == "A1;x";
    DecodeJoin(two);
  }

  lemma DecodeEncodeRow(r: Card)
    requires IsStorableCard(r)
    ensures DecodeRow(EncodeRow(r)) == r
  {
    SplitJoin([r.card, r.name, r.url], FieldSep);
  }

  /** One encoded line per row, in row order. */
  function EncodeLines(rows: seq<Card>): (lines: seq<string>)
    ensures |lines| == |rows|
    ensures forall i :: 0 <= i < |rows| ==> lines[i] == EncodeRow(rows[i])
  {
    seq(|rows|, i requires 0 <= i < |rows| => EncodeRow(rows[i]))
  }

  /** The row file: the encoded lines joined by newlines. With storable
      rows it splits back into exactly one line per row; no rows is the
      empty file. */
  function EncodeRows(rows: seq<Card>): (content: string)
    ensures |rows| == 0 ==> content == ""
    ensures AllStorable(rows) && |rows| > 0 ==> Split(content, LineSep) == EncodeLines(rows)
  {
    var lines := EncodeLines(rows);
    if AllStorable(rows) && |rows| > 0 then
      EncodedLinesHaveNoLineSep(rows);
      SplitJoin(lines, LineSep);
      Join(lines, LineSep)
    else
      Join(lines, LineSep)
  }

  /** The loader over the split lines: blank lines are dropped and every
      other line is decoded, in order. */
  function DecodeLines(lines: seq<string>): (rows: seq<Card>)
    ensures |rows| <= |lines|
    ensures (forall k :: 0 <= k < |lines| ==> LineSep !in lines[k]) ==> AllStorable(rows)
    ensures (forall k :: 0 <= k < |lines| ==> !IsBlank(lines[k])) ==>
              |rows| == |lines| && forall k :: 0 <= k < |lines| ==> rows[k] == DecodeRow(lines[k])
  {
    if |lines| == 0 then [] else DecodeLine(lines[0]) + DecodeLines(lines[1..])
  }

  /** What one line contributes to the decoded rows. */
  function DecodeLine(line: string): seq<Card>
  {
    if IsBlank(line) then [] else [DecodeRow(line)]
  }

  /** Decoding a list of lines decodes its two halves independently: each
      line contributes nothing when blank and its one decoded row otherwise,
      in line order. */
  lemma {:induction false} DecodeLinesAppend(a: seq<string>, b: seq<string>)
    ensures DecodeLines(a + b) == DecodeLines(a) + DecodeLines(b)
    decreases |a|
  {
    if |a| == 0 {
      assert a + b == b;
    } else {
      assert (a + b)[0] == a[0];
      assert (a + b)[1..] == a[1..] + b;
      DecodeLinesAppend(a[1..], b);
      assert DecodeLines(a + b) == DecodeLine(a[0]) + (DecodeLines(a[1..]) + DecodeLines(b));
    }
  }

  /** One line decodes to nothing when blank and to its one row otherwise. */
  lemma DecodeOneLine(line: string)
    ensures IsBlank(line) ==> DecodeLines([line]) == []
    ensures !IsBlank(line) ==> DecodeLines([line]) == [DecodeRow(line)]
  {
    var lines: seq<string> := [line];
    assert lines[1..] == [];
  }

  /** Lines that are all blank decode to no rows at all. */
  lemma {:induction false} DecodeBlankLines(lines: seq<string>)
    requires forall k :: 0 <= k < |lines| ==> IsBlank(lines[k])
    ensures DecodeLines(lines) == []
    decreases |lines|
  {
    if |lines| > 0 {
      assert IsBlank(lines[0]);
      assert forall k :: 0 <= k < |lines| - 1 ==> lines[1..][k] == lines[k + 1];
      DecodeBlankLines(lines[1..]);
    }
  }

  /** `loadData` on the content of the row file. */
  function LoadRows(content: string): (rows: seq<Card>)
    ensures AllStorable(rows)
  {
    DecodeLines(Split(content, LineSep))
  }

  /** A trailing newline adds only an empty, blank line: the same rows load. */
  lemma TrailingNewlineIsHarmless(content: string)
    ensures LoadRows(content + [LineSep]) == LoadRows(content)
  {
    SplitAppendSep(content, LineSep);
    DecodeLinesAppend(Split(content, LineSep), [""]);
    assert IsBlank("");
  }

  /** `loadData` at start-up: no file gives an empty registry. */
  function LoadInitial(file: Option<string>): (rows: seq<Card>)
    ensures file.None? ==> rows == []
    ensures AllStorable(rows)
  {
    match file
    case None => []
    case Some(content) => LoadRows(content)
  }

  /** Reading back the row file gives the same rows in the same order,
      provided no field contains a separator. */
  lemma LoadEncodeRoundTrip(rows: seq<Card>)
    requires AllStorable(rows)
    ensures LoadRows(EncodeRows(rows)) == rows
  {
    var lines := EncodeLines(rows);
    if |rows| == 0 {
      assert Split("", LineSep) == [""];
      assert IsBlank("");
    } else {
      assert Split(EncodeRows(rows), LineSep) == lines;
      DecodeEncodedLines(rows);
    }
  }

  lemma DecodeEncodedLines(rows: seq<Card>)
    requires AllStorable(rows)
    ensures DecodeLines(EncodeLines(rows)) == rows
  {
    var lines := EncodeLines(rows);
    var back := DecodeLines(lines);
    assert |back| == |rows|;
    forall k | 0 <= k < |rows|
      ensures back[k] == rows[k]
    {
      DecodeEncodeRow(rows[k]);
    }
  }

  lemma EncodedLinesHaveNoLineSep(rows: seq<Card>)
    requires AllStorable(rows)
    ensures forall k :: 0 <= k < |rows| ==> LineSep !in EncodeLines(rows)[k]
  {
    forall k | 0 <= k < |rows|
      ensures LineSep !in EncodeLines(rows)[k]
    {
      EncodedRowHasNoLineSep(rows[k]);
    }
  }

  lemma EncodedRowHasNoLineSep(r: Card)
    requires IsStorableCard(r)
    ensures LineSep !in EncodeRow(r)
  {
    Join3(r.card, r.name, r.url, FieldSep);
  }

  /** Whatever the file held, saving what was loaded and loading again gives
      the same rows: one save normalises the file. */
  lemma LoadSaveLoad(content: string)
    ensures LoadRows(EncodeRows(LoadRows(content))) == LoadRows(content)
  {
    LoadEncodeRoundTrip(LoadRows(content));
  }

  // ----- lookup table -----

  /** `rows[i]` is the last row with card id `k`: the one whose
      assignment `map[k] = ...` wins in `rows.forEach`. */
  predicate LastWith(rows: seq<Card>, k: string, i: int)
  {
    0 <= i < |rows| && rows[i].card == k && forall j :: i < j < |rows| ==> rows[j].card != k
  }

  /** The lookup table of `saveData`: each row in turn assigns its card id
      its url followed by `:play`, so the last row with an id wins. */
  function LookupTable(rows: seq<Card>): (m: map<string, string>)
    ensures m.Keys == CardIds(rows) - {ProtoKey}
    ensures forall k :: k in m ==> exists i :: LastWith(rows, k, i) && m[k] == rows[i].url + PlaySuffix
  {
    if |rows| == 0 then map[]
    else
      var init := rows[..|rows| - 1];
      var last := rows[|rows| - 1];
      var m := LookupTable(init);
      assert CardIds(rows) == CardIds(init) + {last.card} by {
        assert forall i :: 0 <= i < |init| ==> init[i] == rows[i];
      }
      assert forall k, i :: LastWith(init, k, i) && k != last.card ==> LastWith(rows, k, i);
      if last.card == ProtoKey then m else m[last.card := last.url + PlaySuffix]
  }

  /** With unique ids every row other than `__proto__` has its own entry. */
  lemma LookupTableOfUnique(rows: seq<Card>)
    requires UniqueIds(rows)
    ensures forall i :: 0 <= i < |rows| && rows[i].card != ProtoKey ==>
              rows[i].card in LookupTable(rows) && LookupTable(rows)[rows[i].card] == rows[i].url + PlaySuffix
  {
    var m := LookupTable(rows);
    forall i | 0 <= i < |rows| && rows[i].card != ProtoKey
      ensures rows[i].card in m && m[rows[i].card] == rows[i].url + PlaySuffix
    {
      assert rows[i].card in CardIds(rows);
      var j :| LastWith(rows, rows[i].card, j) && m[rows[i].card] == rows[j].url + PlaySuffix;
      assert rows[j].card == rows[i].card;
      assert j == i;
    }
  }

  // ----- both files -----

  /** What one `saveData` call writes: the row file and the lookup table,
      always from the same snapshot. */
  datatype StoreFiles = StoreFiles(rowFile: string, lookup: map<string, string>)

  function SaveData(rows: seq<Card>): (files: StoreFiles)
    ensures files.lookup.Keys == CardIds(rows) - {ProtoKey}
    ensures AllStorable(rows) ==> LoadRows(files.rowFile) == rows
  {
    LoadEncodeRoundTripIf(rows);
    StoreFiles(EncodeRows(rows), LookupTable(rows))
  }

  lemma LoadEncodeRoundTripIf(rows: seq<Card>)
    ensures AllStorable(rows) ==> LoadRows(EncodeRows(rows)) == rows
  {
    if AllStorable(rows) {
      LoadEncodeRoundTrip(rows);
    }
  }
}
