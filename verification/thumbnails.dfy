/** The thumbnail directory of server.js, modelled as the set of file names in
    it. `/selectAlbum` removes every file whose name starts with `${card}_` and
    may then store `${card}_${sanitized}.jpg`. */
module Thumbnails {
  import opened Text

  /** `substring(0, 50)` bound on the sanitised title. */
  const MaxTitleLength: nat := 50

  /** A character `/[^a-z0-9]/gi` does not match. Without the `u` flag the
      case-insensitive class folds only ASCII letters, so this is exactly
      the ASCII letters and digits. */
  predicate IsAsciiAlnum(c: char)
  {
    ('a' <= c <= 'z') || ('A' <= c <= 'Z') || ('0' <= c <= '9')
  }

  predicate IsFileNameChar(c: char)
  {
    IsAsciiAlnum(c) || c == '_'
  }

  function Min(a: nat, b: nat): nat
  {
    if a < b then a else b
  }

  /** The title sanitiser: every character other than an ASCII letter or
      digit becomes `_`, then the result is cut to its first 50 characters. */
  function Sanitize(title: string): (r: string)
    ensures |r| == Min(|title|, MaxTitleLength)
    ensures forall i :: 0 <= i < |r| ==> IsFileNameChar(r[i])
    ensures forall i :: 0 <= i < |r| && IsAsciiAlnum(title[i]) ==> r[i] == title[i]
    ensures forall i :: 0 <= i < |r| && !IsAsciiAlnum(title[i]) ==> r[i] == '_'
  {
    var n := Min(|title|, MaxTitleLength);
    seq(n, i requires 0 <= i < n => if IsAsciiAlnum(title[i]) then title[i] else '_')
  }

  /** A title that is already a short run of file-name characters is kept. */
  lemma SanitizeKeepsFileNames(title: string)
    requires |title| <= MaxTitleLength
    requires forall i :: 0 <= i < |title| ==> IsFileNameChar(title[i])
    ensures Sanitize(title) == title
  {
  }

  /** Sanitising twice is sanitising once. */
  lemma SanitizeIdempotent(title: string)
    ensures Sanitize(Sanitize(title)) == Sanitize(title)
  {
    SanitizeKeepsFileNames(Sanitize(title));
  }

  /** The prefix that marks a file as belonging to `card`. */
  function OwnerPrefix(card: string): string
  {
    card + "_"
  }

  /** `${card}_${sanitized}.jpg`. */
  function ThumbnailName(card: string, title: string): (f: string)
    ensures StartsWith(f, OwnerPrefix(card))
  {
    var f := OwnerPrefix(card) + Sanitize(title) + ".jpg";
    assert f[..|OwnerPrefix(card)|] == OwnerPrefix(card);
    f
  }

  /** The unlink loop: every file starting with `${card}_` goes. */
  function DeleteOwned(files: set<string>, card: string): (r: set<string>)
    ensures r <= files
    ensures forall f :: f in files && !StartsWith(f, OwnerPrefix(card)) ==> f in r
    ensures forall f :: f in r ==> !StartsWith(f, OwnerPrefix(card))
  {
    set f | f in files && !StartsWith(f, OwnerPrefix(card))
  }

  /** The thumbnail part of `/selectAlbum`: delete the card's files, then,
      when artwork was given and its download succeeded (`stored`), add the
      new file. */
  function Refresh(files: set<string>, card: string, title: string, stored: bool): (r: set<string>)
    ensures forall f :: !StartsWith(f, OwnerPrefix(card)) ==> (f in r <==> f in files)
    ensures forall f :: f in r && StartsWith(f, OwnerPrefix(card)) ==> stored && f == ThumbnailName(card, title)
    ensures stored ==> ThumbnailName(card, title) in r
  {
    var kept := DeleteOwned(files, card);
    if stored then kept + {ThumbnailName(card, title)} else kept
  }

  /** The prefix test also matches the files of any card whose id extends
      `${card}_`: refreshing card `card` removes them. */
  lemma RefreshRemovesExtendedIds(files: set<string>, card: string, suffix: string, other: string, title: string, stored: bool)
    requires ThumbnailName(card + "_" + suffix, other) != ThumbnailName(card, title)
    ensures ThumbnailName(card + "_" + suffix, other) !in Refresh(files, card, title, stored)
  {
    var f := ThumbnailName(card + "_" + suffix, other);
    assert f[..|OwnerPrefix(card)|] == OwnerPrefix(card);
  }
}
