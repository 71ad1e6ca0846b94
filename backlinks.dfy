/**
  `BacklinkGenerator.generateBacklinks` (src/backlinkGenerator.ts): the
  `[[source]]: preview...` lines of `findSimilarNotes` are parsed back with
  the pattern `/\[\[(.*?)\]\]/`, and each path the vault knows as a file
  becomes a `[[path|basename]]` link. The vault lookup
  `getAbstractFileByPath` is a map from paths to vault items.
*/
module Backlinks {
  import opened Wrappers
  import opened Text
  import opened Rag

  /** What `getAbstractFileByPath` can return besides `null`: a file (`TFile`) or a folder. */
  datatype VaultItem = File(path: string, basename: string) | Folder(path: string)

  // ---------------------------------------------------------------------
  // The pattern /\[\[(.*?)\]\]/

  /** `]]` occurs at position `k` of `s`. */
  predicate ClosesAt(s: string, k: int) {
    0 <= k && k + 2 <= |s| && s[k] == ']' && s[k + 1] == ']'
  }

  /**
    Where the lazy group `(.*?)` opened at `i` closes: the first `j >= i`
    with `]]` at `j` such that no line terminator lies in `s[i..j]` (the
    wildcard does not match one).
  */
  function CloseFrom(s: string, i: nat): (r: Option<nat>)
    requires i <= |s|
    ensures r.Some? ==> i <= r.value && ClosesAt(s, r.value) && NoLineTerminator(s[i..r.value])
    ensures r.Some? ==> forall k :: i <= k < r.value ==> !ClosesAt(s, k)
    ensures r.None? ==> forall j :: i <= j && ClosesAt(s, j) ==> !NoLineTerminator(s[i..j])
    decreases |s| - i
  {
    if i + 2 > |s| then None
    else if ClosesAt(s, i) then Some(i)
    else if IsLineTerminator(s[i]) then
      assert forall j :: i < j <= |s| ==> s[i..j][0] == s[i];
      None
    else
      var r := CloseFrom(s, i + 1);
      assert forall j :: i + 1 <= j <= |s| ==> s[i..j] == [s[i]] + s[i + 1..j];
      r
  }

  /** The group of the leftmost match of the pattern that starts at `p` or later. */
  function MatchFrom(s: string, p: nat): Option<string>
    requires p <= |s|
    decreases |s| - p
  {
    if p + 2 > |s| then None
    else if s[p] == '[' && s[p + 1] == '[' && CloseFrom(s, p + 2).Some? then
      Some(s[p + 2..CloseFrom(s, p + 2).value])
    else MatchFrom(s, p + 1)
  }

  /** A match of the pattern can start at `q`: `[[` there, closed by `]]` later on the same line. */
  predicate OpensAt(s: string, q: int) {
    0 <= q && q + 2 <= |s| && s[q] == '[' && s[q + 1] == '[' && CloseFrom(s, q + 2).Some?
  }

  /**
    The match is the leftmost one: the group of the first position `q >= p`
    where a match can start, running up to the first `]]` after it on the
    same line; there is none exactly when no position can start a match.
    The group is `[[`-`]]`-delimited text of one line of `s`.
  */
  lemma {:induction false} MatchFromFound(s: string, p: nat)
    requires p <= |s|
    ensures MatchFrom(s, p).None? <==> forall q :: p <= q ==> !OpensAt(s, q)
    ensures MatchFrom(s, p).Some? ==>
      exists q :: p <= q && OpensAt(s, q) && (forall q' :: p <= q' < q ==> !OpensAt(s, q'))
        && MatchFrom(s, p).value == s[q + 2..CloseFrom(s, q + 2).value]
    ensures var r := MatchFrom(s, p);
      r.Some? ==> NoLineTerminator(r.value) && Contains(s[p..], "[[" + r.value + "]]")
    decreases |s| - p
  {
    if p + 2 <= |s| {
      if OpensAt(s, p) {
        var j := CloseFrom(s, p + 2).value;
        assert s[p..][..j + 2 - p] == "[[" + s[p + 2..j] + "]]";
        ContainsAt(s[p..], "[[" + s[p + 2..j] + "]]", 0);
      } else {
        MatchFromFound(s, p + 1);
        assert s[p + 1..] == s[p..][1..];
      }
    }
  }

  /** `match[1]` for `entry.match(/\[\[(.*?)\]\]/)`, or `None` when there is no match. */
  function LinkTarget(entry: string): Option<string> {
    MatchFrom(entry, 0)
  }

  // ---------------------------------------------------------------------
  // generateBacklinks

  /** `similarNotes.split('\n').filter(entry => entry.trim() !== '')` */
  function NoteEntries(similarNotes: string): seq<string> {
    NonBlank(SplitOn(similarNotes, '\n'))
  }

  /** The lines that are not empty after trimming, in order. */
  function NonBlank(lines: seq<string>): (r: seq<string>)
    ensures |r| <= |lines|
  {
    if lines == [] then []
    else
      var last := lines[|lines| - 1];
      NonBlank(lines[..|lines| - 1]) + (if Trim(last) != "" then [last] else [])
  }

  /** `idx` holds exactly the positions of the lines that are not blank. */
  predicate NonBlankAt(lines: seq<string>, idx: seq<int>) {
    forall j :: 0 <= j < |lines| ==> (j in idx <==> Trim(lines[j]) != "")
  }

  /** The positions the filter keeps are the non-blank ones, in increasing order. */
  lemma {:induction false} NonBlankPositions(lines: seq<string>)
    ensures exists idx :: PicksAt(NonBlank(lines), lines, idx) && NonBlankAt(lines, idx)
  {
    if lines == [] {
      assert PicksAt([], lines, []) && NonBlankAt(lines, []);
    } else {
      var n := |lines|;
      var init, last := lines[..n - 1], lines[n - 1];
      assert lines == init + [last];
      NonBlankPositions(init);
      var idx0 :| PicksAt(NonBlank(init), init, idx0) && NonBlankAt(init, idx0);
      PicksAtSnoc(NonBlank(init), init, idx0, last);
      if Trim(last) != "" {
        var idx := idx0 + [n - 1];
        assert NonBlank(lines) == NonBlank(init) + [last];
        forall j | 0 <= j < n ensures j in idx <==> Trim(lines[j]) != "" {
          if j < n - 1 {
            assert lines[j] == init[j];
          }
        }
        assert PicksAt(NonBlank(lines), lines, idx) && NonBlankAt(lines, idx);
      } else {
        assert NonBlank(lines) == NonBlank(init);
        forall j | 0 <= j < n ensures j in idx0 <==> Trim(lines[j]) != "" {
          if j < n - 1 {
            assert lines[j] == init[j];
          }
        }
        assert PicksAt(NonBlank(lines), lines, idx0) && NonBlankAt(lines, idx0);
      }
    }
  }

  /**
    The filter keeps exactly the lines that are not blank, in order and with
    their repetitions: the kept positions are the non-blank ones.
  */
  lemma {:induction false} NonBlankExactly(lines: seq<string>)
    ensures exists idx :: PicksAt(NonBlank(lines), lines, idx) && NonBlankAt(lines, idx)
    ensures forall k :: 0 <= k < |NonBlank(lines)| ==> Trim(NonBlank(lines)[k]) != "" && NonBlank(lines)[k] in lines
    ensures forall k :: 0 <= k < |lines| && Trim(lines[k]) != "" ==> lines[k] in NonBlank(lines)
  {
    NonBlankPositions(lines);
    if lines != [] {
      var init := lines[..|lines| - 1];
      NonBlankExactly(init);
      forall k | 0 <= k < |lines| && Trim(lines[k]) != ""
        ensures lines[k] in NonBlank(lines)
      {
        if k < |init| {
          assert lines[k] == init[k];
        }
      }
    }
  }

  /** The entries are the non-blank lines of the listing; none holds a newline. */
  lemma NoteEntriesLines(similarNotes: string)
    ensures forall k :: 0 <= k < |NoteEntries(similarNotes)| ==>
      Trim(NoteEntries(similarNotes)[k]) != "" && '\n' !in NoteEntries(similarNotes)[k]
    ensures forall line :: line in SplitOn(similarNotes, '\n') && Trim(line) != "" ==> line in NoteEntries(similarNotes)
  {
    NonBlankExactly(SplitOn(similarNotes, '\n'));
  }

  /** `[[${file.path}|${file.basename}]]` */
  function LinkText(path: string, basename: string): string {
    "[[" + path + "|" + basename + "]]"
  }

  /** The links one entry contributes: one when it names a vault file, none otherwise. */
  function EntryLinks(entry: string, vault: map<string, VaultItem>): (r: seq<string>)
    ensures |r| <= 1
  {
    match LinkTarget(entry)
    case None => []
    case Some(notePath) =>
      if notePath != "" && notePath in vault && vault[notePath].File? then
        [LinkText(vault[notePath].path, vault[notePath].basename)]
      else []
  }

  /** The links of the entries, entry after entry. */
  function LinksFrom(entries: seq<string>, vault: map<string, VaultItem>): (r: seq<string>)
    ensures |r| <= |entries|
  {
    if entries == [] then []
    else LinksFrom(entries[..|entries| - 1], vault) + EntryLinks(entries[|entries| - 1], vault)
  }

  /** The links `generateBacklinks` returns for the text of `findSimilarNotes`. */
  function Backlinks(similarNotes: string, vault: map<string, VaultItem>): seq<string> {
    LinksFrom(NoteEntries(similarNotes), vault)
  }

  /** The loop of `generateBacklinks` over the listing `similarNotes`. */
  method ParseBacklinks(similarNotes: string, vault: map<string, VaultItem>) returns (backlinks: seq<string>)
    ensures backlinks == Backlinks(similarNotes, vault)
    ensures |backlinks| <= |NoteEntries(similarNotes)|
  {
    backlinks := [];
    var noteEntries := NoteEntries(similarNotes);
    for i := 0 to |noteEntries|
      invariant backlinks == LinksFrom(noteEntries[..i], vault)
    {
      assert noteEntries[..i + 1][..i] == noteEntries[..i];
      var entry := noteEntries[i];
      var found := LinkTarget(entry);
      if found.Some? && found.value != "" {
        var notePath := found.value;
        if notePath in vault && vault[notePath].File? {
          var file := vault[notePath];
          backlinks := backlinks + [LinkText(file.path, file.basename)];
        }
      }
    }
    assert noteEntries[..|noteEntries|] == noteEntries;
  }

  /**
    `generateBacklinks`: `hits` is the outcome of the similarity search
    behind `findSimilarNotes`; the result holds at most one link per
    non-blank line of the listing.
  */
  method GenerateBacklinks(hits: Result<seq<Doc>, string>, vault: map<string, VaultItem>) returns (backlinks: seq<string>)
    ensures hits.Ok? ==> backlinks == Backlinks(SimilarNotesText(hits.value), vault)
    ensures hits.Err? ==> backlinks == []
  {
    var similarNotes := FindSimilarNotes(hits);
    backlinks := ParseBacklinks(similarNotes, vault);
    if hits.Err? {
      assert SplitOn("", '\n') == [""];
      assert Trim("") == "";
    }
  }

  // ---------------------------------------------------------------------
  // Round trip with findSimilarNotes

  /** A source path that reads back unchanged from its `[[source]]` backlink. */
  predicate LinkableSource(source: string) {
    && source != ""
    && NoLineTerminator(source)
    && !Contains(source, "]]")
    && source[|source| - 1] != ']'
  }

  lemma {:induction false} ContainsAt(s: string, sub: string, k: nat)
    requires k + |sub| <= |s| && s[k..k + |sub|] == sub
    ensures Contains(s, sub)
  {
    if k > 0 {
      assert s[1..][k - 1..k - 1 + |sub|] == sub;
      ContainsAt(s[1..], sub, k - 1);
    }
  }

  lemma {:induction false} CloseFromAt(s: string, i: nat, j: nat)
    requires i <= j && ClosesAt(s, j)
    requires forall k :: i <= k < j ==> !ClosesAt(s, k) && !IsLineTerminator(s[k])
    ensures CloseFrom(s, i) == Some(j)
    decreases j - i
  {
    if i < j {
      CloseFromAt(s, i + 1, j);
    }
  }

  /** The path read back from a listing line is the line's source. */
  lemma LinkTargetOfNoteLine(doc: Doc)
    requires LinkableSource(doc.source)
    ensures LinkTarget(NoteLine(doc)) == Some(doc.source)
  {
    var src := doc.source;
    var line := NoteLine(doc);
    var n := |src|;
    assert line == "[[" + src + "]]: " + Preview(doc.pageContent) + "...";
    assert line[2..n + 2] == src;
    forall k | 2 <= k < n + 2
      ensures !ClosesAt(line, k) && !IsLineTerminator(line[k])
    {
      assert line[k] == src[k - 2];
      if k < n + 1 {
        assert line[k + 1] == src[k - 1];
        if ClosesAt(line, k) {
          assert src[k - 2..k] == "]]";
          ContainsAt(src, "]]", k - 2);
        }
      } else {
        assert line[k + 1] == ']';
      }
    }
    assert ClosesAt(line, n + 2);
    CloseFromAt(line, 2, n + 2);
  }

  lemma {:induction false} NonBlankKeepsAll(lines: seq<string>)
    requires forall k :: 0 <= k < |lines| ==> Trim(lines[k]) != ""
    ensures NonBlank(lines) == lines
  {
    if lines != [] {
      NonBlankKeepsAll(lines[..|lines| - 1]);
    }
  }

  /** The listing lines of `docs`, one per document. */
  function ListingLines(docs: seq<Doc>): (r: seq<string>)
    ensures |r| == |docs| && forall k :: 0 <= k < |docs| ==> r[k] == NoteLine(docs[k])
  {
    seq(|docs|, k requires 0 <= k < |docs| => NoteLine(docs[k]))
  }

  /** The link of a document whose source the vault knows as a file. */
  function DocLink(doc: Doc, vault: map<string, VaultItem>): string
    requires doc.source in vault && vault[doc.source].File?
  {
    LinkText(vault[doc.source].path, vault[doc.source].basename)
  }

  /** The links of the documents, in order. */
  function DocLinks(docs: seq<Doc>, vault: map<string, VaultItem>): (r: seq<string>)
    requires forall k :: 0 <= k < |docs| ==> docs[k].source in vault && vault[docs[k].source].File?
    ensures |r| == |docs| && forall k :: 0 <= k < |docs| ==> r[k] == DocLink(docs[k], vault)
  {
    seq(|docs|, k requires 0 <= k < |docs| => DocLink(docs[k], vault))
  }

  /** A listing line whose source the vault knows as a file yields that file's link. */
  lemma EntryLinksOfNoteLine(doc: Doc, vault: map<string, VaultItem>)
    requires LinkableSource(doc.source)
    requires doc.source in vault && vault[doc.source].File?
    ensures EntryLinks(NoteLine(doc), vault) == [DocLink(doc, vault)]
  {
    LinkTargetOfNoteLine(doc);
  }

  /** When each entry yields exactly one link, the links are those, in entry order. */
  lemma {:induction false} LinksFromEach(entries: seq<string>, vault: map<string, VaultItem>, links: seq<string>)
    requires |entries| == |links|
    requires forall k :: 0 <= k < |entries| ==> EntryLinks(entries[k], vault) == [links[k]]
    ensures LinksFrom(entries, vault) == links
  {
    if entries != [] {
      var n := |entries|;
      LinksFromEach(entries[..n - 1], vault, links[..n - 1]);
      assert links == links[..n - 1] + [links[n - 1]];
    }
  }

  lemma PreviewNoNewline(content: string)
    requires '\n' !in content
    ensures '\n' !in Preview(content)
  {
    var p := Preview(content);
    assert p == content[..|p|];
  }

  /** A listing line of a linkable source and a text without newlines is one non-blank line. */
  lemma NoteLineIsEntry(doc: Doc)
    requires LinkableSource(doc.source) && '\n' !in doc.pageContent
    ensures '\n' !in NoteLine(doc) && Trim(NoteLine(doc)) != ""
  {
    var line := NoteLine(doc);
    PreviewNoNewline(doc.pageContent);
    assert line == "[[" + doc.source + "]]: " + Preview(doc.pageContent) + "...";
    assert line[0] == '[';
    TrimEmptyIffAllWhitespace(line);
  }

  /** Splitting the listing on newlines and dropping blank lines gives back its lines. */
  lemma ListingEntries(docs: seq<Doc>)
    requires forall k :: 0 <= k < |docs| ==> LinkableSource(docs[k].source) && '\n' !in docs[k].pageContent
    ensures NoteEntries(Join(ListingLines(docs), "\n")) == ListingLines(docs)
  {
    var lines := ListingLines(docs);
    if docs == [] {
      assert SplitOn("", '\n') == [""];
      assert Trim("") == "";
    } else {
      forall k | 0 <= k < |lines|
        ensures '\n' !in lines[k] && Trim(lines[k]) != ""
      {
        NoteLineIsEntry(docs[k]);
      }
      SplitOnJoin(lines, '\n');
      NonBlankKeepsAll(lines);
    }
  }

  /** Each listing line yields the link of its document's file. */
  lemma ListingLinks(docs: seq<Doc>, vault: map<string, VaultItem>)
    requires forall k :: 0 <= k < |docs| ==> LinkableSource(docs[k].source)
    requires forall k :: 0 <= k < |docs| ==> docs[k].source in vault && vault[docs[k].source].File?
    ensures LinksFrom(ListingLines(docs), vault) == DocLinks(docs, vault)
  {
    var lines := ListingLines(docs);
    forall k | 0 <= k < |lines|
      ensures EntryLinks(lines[k], vault) == [DocLinks(docs, vault)[k]]
    {
      EntryLinksOfNoteLine(docs[k], vault);
    }
    LinksFromEach(lines, vault, DocLinks(docs, vault));
  }

  /** `generateBacklinks` reads the listing of `docs` back into the links of their files. */
  lemma BacklinksOfListing(docs: seq<Doc>, vault: map<string, VaultItem>)
    requires forall k :: 0 <= k < |docs| ==> LinkableSource(docs[k].source) && '\n' !in docs[k].pageContent
    requires forall k :: 0 <= k < |docs| ==> docs[k].source in vault && vault[docs[k].source].File?
    ensures Backlinks(Join(ListingLines(docs), "\n"), vault) == DocLinks(docs, vault)
  {
    ListingEntries(docs);
    ListingLinks(docs, vault);
  }

  /**
    Round trip: when every hit's source reads back from its backlink, no
    hit's text holds a newline and the vault knows every source as a file,
    `generateBacklinks` links each distinct source once, in the order of
    its first hit.
  */
  lemma BacklinksRoundTrip(docs: seq<Doc>, vault: map<string, VaultItem>)
    requires forall k :: 0 <= k < |docs| ==> LinkableSource(docs[k].source) && '\n' !in docs[k].pageContent
    requires forall k :: 0 <= k < |docs| ==> docs[k].source in vault && vault[docs[k].source].File?
    ensures var d := Dedup(Sources(docs));
      Backlinks(SimilarNotesText(docs), vault)
      == seq(|d|, k requires 0 <= k < |d| => LinkText(vault[d[k]].path, vault[d[k]].basename))
  {
    var first := FirstHits(docs);
    assert SimilarNotesText(docs) == Join(ListingLines(first), "\n");
    BacklinksOfListing(first, vault);
    var d := Dedup(Sources(docs));
    assert DocLinks(first, vault) == seq(|d|, k requires 0 <= k < |d| => LinkText(vault[d[k]].path, vault[d[k]].basename));
  }
}
