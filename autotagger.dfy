/**
  The auto-tagger (src/autoTagger.ts): the LLM is asked for hashtags, its
  reply is cut into words, words that do not look like a hashtag are
  dropped, the rest get a `#` and at most five are inserted at the cursor.
  The request itself is an oracle: a function from the messages sent to the
  reply received.
*/
module AutoTagger {
  import opened Wrappers
  import opened Text

  const TagPrompt := "Generate 1-5 hashtags for the following text. Return only the hashtags, separated by spaces:"
  const TagSystemPrompt := "You are a helpful assistant that generates relevant hashtags."
  const MaxTags := 5

  const NoViewNotice := "No active Markdown view"
  const AppendedNotice := "Tags generated and appended"
  const FailedNotice := "Error generating tags. Check the console for details."

  datatype ChatMessage = ChatMessage(role: string, content: string)

  /** What the server answered: the HTTP status, the raw body and the first choice's message content. */
  datatype LlmReply = LlmReply(status: int, text: string, content: string)

  /** The editor of the active Markdown view; `cursor` is an offset into `document`. */
  datatype EditorState = EditorState(document: string, selection: string, cursor: nat)

  /** The document after the command (`None`: there was no view to change) and the notice shown. */
  datatype TagOutcome = TagOutcome(document: Option<string>, notice: string)

  // ---------------------------------------------------------------------
  // The hashtag pattern `/^#?[a-zA-Z0-9]+$/`

  predicate IsAsciiAlnum(c: char) {
    ('a' <= c <= 'z') || ('A' <= c <= 'Z') || ('0' <= c <= '9')
  }

  /** `[a-zA-Z0-9]+` */
  predicate AlnumWord(s: string) {
    s != [] && forall i :: 0 <= i < |s| ==> IsAsciiAlnum(s[i])
  }

  /** `/^#?[a-zA-Z0-9]+$/.test(t)` */
  predicate TagShaped(t: string) {
    AlnumWord(t) || (t != [] && t[0] == '#' && AlnumWord(t[1..]))
  }

  /** A finished tag: `#` and one or more ASCII letters or digits. */
  predicate IsTag(t: string) {
    |t| >= 2 && t[0] == '#' && AlnumWord(t[1..])
  }

  /** `tag.startsWith('#') ? tag : '#' + tag` */
  function Hashed(t: string): string {
    if StartsWith(t, "#") then t else "#" + t
  }

  /** The `filter` step. */
  function Filtered(words: seq<string>): (r: seq<string>)
    ensures |r| <= |words|
    ensures forall i :: 0 <= i < |r| ==> TagShaped(r[i])
    ensures forall w :: w in r <==> w in words && TagShaped(w)
  {
    if words == [] then []
    else if TagShaped(words[0]) then [words[0]] + Filtered(words[1..])
    else Filtered(words[1..])
  }

  /** The `map` step. */
  function HashedAll(words: seq<string>): (r: seq<string>)
    ensures |r| == |words|
    ensures forall i :: 0 <= i < |r| ==> r[i] == Hashed(words[i])
  {
    if words == [] then [] else [Hashed(words[0])] + HashedAll(words[1..])
  }

  /** `xs.slice(0, n)` */
  function Take(xs: seq<string>, n: nat): (r: seq<string>)
    ensures |r| == (if n < |xs| then n else |xs|)
    ensures r == xs[..|r|]
  {
    if n < |xs| then xs[..n] else xs
  }

  /** The filter and map steps together. */
  function Normalized(words: seq<string>): seq<string> {
    HashedAll(Filtered(words))
  }

  /** The tags read from the reply's content: trim, split on whitespace, normalise, keep five. */
  function ExtractTags(content: string): (tags: seq<string>)
    ensures |tags| <= MaxTags
    ensures forall i :: 0 <= i < |tags| ==> IsTag(tags[i])
    ensures |tags| == if |Normalized(SplitWs(Trim(content)))| < MaxTags then |Normalized(SplitWs(Trim(content)))| else MaxTags
    ensures tags == Normalized(SplitWs(Trim(content)))[..|tags|]
  {
    var words := SplitWs(Trim(content));
    NormalizedAreTags(words);
    Take(Normalized(words), MaxTags)
  }

  lemma HashedTag(t: string)
    requires TagShaped(t)
    ensures IsTag(Hashed(t))
    ensures t[0] == '#' ==> Hashed(t) == t
  {
    if t[0] != '#' {
      assert ("#" + t)[1..] == t;
    }
  }

  lemma NormalizedAreTags(words: seq<string>)
    ensures forall i :: 0 <= i < |Normalized(words)| ==> IsTag(Normalized(words)[i])
  {
    var f := Filtered(words);
    forall i | 0 <= i < |f|
      ensures IsTag(Normalized(words)[i])
    {
      HashedTag(f[i]);
    }
  }

  // ---------------------------------------------------------------------
  // Properties of the tag pipeline

  /** `xs` is `ys` with some elements left out, in the same order. */
  predicate SubsequenceOf(xs: seq<string>, ys: seq<string>)
    decreases |ys|
  {
    xs == [] || (ys != [] && ((xs[0] == ys[0] && SubsequenceOf(xs[1..], ys[1..])) || SubsequenceOf(xs, ys[1..])))
  }

  /** Filtering keeps the order of the words it keeps. */
  lemma {:induction false} FilteredSubsequence(words: seq<string>)
    ensures SubsequenceOf(Filtered(words), words)
  {
    if words != [] {
      FilteredSubsequence(words[1..]);
      if TagShaped(words[0]) {
        assert Filtered(words)[1..] == Filtered(words[1..]);
      }
    }
  }

  /** Filtering a list with one more word at the end. */
  lemma {:induction false} FilteredSnoc(words: seq<string>, w: string)
    ensures Filtered(words + [w]) == Filtered(words) + (if TagShaped(w) then [w] else [])
  {
    if words == [] {
      assert [w][1..] == [];
    } else {
      assert (words + [w])[1..] == words[1..] + [w];
      FilteredSnoc(words[1..], w);
    }
  }

  /** `idx` holds exactly the positions of the tag-shaped words. */
  predicate TagShapedAt(words: seq<string>, idx: seq<int>) {
    forall j :: 0 <= j < |words| ==> (j in idx <==> TagShaped(words[j]))
  }

  /**
    The filter keeps exactly the tag-shaped words, in order and with their
    repetitions: the kept positions are those of the tag-shaped words.
  */
  lemma {:induction false} FilteredExactly(words: seq<string>)
    ensures exists idx :: PicksAt(Filtered(words), words, idx) && TagShapedAt(words, idx)
  {
    if words == [] {
      assert PicksAt([], words, []) && TagShapedAt(words, []);
    } else {
      var n := |words|;
      var init, last := words[..n - 1], words[n - 1];
      assert words == init + [last];
      FilteredExactly(init);
      var idx0 :| PicksAt(Filtered(init), init, idx0) && TagShapedAt(init, idx0);
      PicksAtSnoc(Filtered(init), init, idx0, last);
      FilteredSnoc(init, last);
      var idx := if TagShaped(last) then idx0 + [n - 1] else idx0;
      forall j | 0 <= j < n ensures j in idx <==> TagShaped(words[j]) {
        if j < n - 1 {
          assert words[j] == init[j];
        }
      }
      assert PicksAt(Filtered(words), words, idx) && TagShapedAt(words, idx);
    }
  }

  /**
    The tags are, in order, the first tag-shaped words of the trimmed reply
    with `#` put in front where it was missing.
  */
  lemma TagsFromReply(content: string)
    ensures var tags := ExtractTags(content);
      var kept := Filtered(SplitWs(Trim(content)));
      |tags| == (if |kept| < MaxTags then |kept| else MaxTags) && SubsequenceOf(kept, SplitWs(Trim(content))) &&
      forall i :: 0 <= i < |tags| ==> tags[i] == Hashed(kept[i])
  {
    FilteredSubsequence(SplitWs(Trim(content)));
  }

  /** Normalising finished tags changes nothing. */
  lemma {:induction false} NormalizedOfTags(tags: seq<string>)
    requires forall i :: 0 <= i < |tags| ==> IsTag(tags[i])
    ensures Normalized(tags) == tags
  {
    if tags != [] {
      NormalizedOfTags(tags[1..]);
      assert TagShaped(tags[0]);
      HashedTag(tags[0]);
    }
  }

  /** The filter-and-prefix step is idempotent. */
  lemma NormalizedIdempotent(words: seq<string>)
    ensures Normalized(Normalized(words)) == Normalized(words)
  {
    NormalizedAreTags(words);
    NormalizedOfTags(Normalized(words));
  }

  /** Words with a doubled `#`, punctuation, or nothing after the `#` are dropped. */
  lemma RejectedWords()
    ensures !TagShaped("##x") && !TagShaped("foo-bar") && !TagShaped("#") && !TagShaped("")
    ensures TagShaped("#ai") && TagShaped("ai2")
  {
    assert !IsAsciiAlnum('-') && "foo-bar"[3] == '-';
    assert "##x"[1..][0] == '#';
  }

  // ---------------------------------------------------------------------
  // Request, reply and insertion

  /** `selectedText || fullText` */
  function TextToProcess(selection: string, fullText: string): string {
    if selection != "" then selection else fullText
  }

  /** The messages of the tagging request. */
  function TagRequest(text: string): (m: seq<ChatMessage>)
    ensures |m| == 2 && m[0].role == "system" && m[1].role == "user"
    ensures EndsWith(m[1].content, text) && StartsWith(m[1].content, TagPrompt)
  {
    [ChatMessage("system", TagSystemPrompt), ChatMessage("user", TagPrompt + "\n\n" + text)]
  }

  /** `generateTags`, given the server's reply: anything but status 200 is an error. */
  function GenerateTags(reply: LlmReply): (r: Result<seq<string>, string>)
    ensures r.Ok? <==> reply.status == 200
    ensures r.Ok? ==> r.value == ExtractTags(reply.content)
    ensures r.Err? ==> StartsWith(r.error, "Error from LLM server: ") && EndsWith(r.error, reply.text)
  {
    if reply.status != 200 then
      Err("Error from LLM server: " + DecimalString(reply.status) + " " + reply.text)
    else
      Ok(ExtractTags(reply.content))
  }

  /** The text `appendTags` inserts: a blank line, then the tags separated by spaces. */
  function TagsText(tags: seq<string>): string {
    "\n\n" + Join(tags, " ")
  }

  /** `appendTags`: the tag text is inserted at the cursor and the rest of the document is kept. */
  function AppendTags(document: string, tags: seq<string>, cursor: nat): (r: string)
    requires cursor <= |document|
    ensures |r| == |document| + |TagsText(tags)|
    ensures r[..cursor] == document[..cursor]
    ensures r[cursor..cursor + |TagsText(tags)|] == TagsText(tags)
    ensures r[cursor + |TagsText(tags)|..] == document[cursor..]
  {
    document[..cursor] + TagsText(tags) + document[cursor..]
  }

  /**
    Reading back the inserted text gives the same tags: finished tags have
    no whitespace, so the blank line and the single spaces separate them.
  */
  lemma ExtractTagsOfInserted(tags: seq<string>)
    requires |tags| <= MaxTags
    requires forall i :: 0 <= i < |tags| ==> IsTag(tags[i])
    ensures ExtractTags(TagsText(tags)) == tags
  {
    TrimOfInserted(tags);
    if tags == [] {
      assert SplitWs("") == [""];
      assert !TagShaped("");
      assert Filtered([""]) == [];
    } else {
      TagsAreWords(tags);
      SplitWsJoin(tags);
      NormalizedOfTags(tags);
    }
  }

  /** A finished tag is a non-empty word without whitespace. */
  lemma TagsAreWords(tags: seq<string>)
    requires forall i :: 0 <= i < |tags| ==> IsTag(tags[i])
    ensures forall i :: 0 <= i < |tags| ==> tags[i] != "" && NoWhitespace(tags[i])
  {
    forall i | 0 <= i < |tags|
      ensures tags[i] != "" && NoWhitespace(tags[i])
    {
      assert tags[i][0] == '#' && !IsWhitespace('#');
      forall k | 1 <= k < |tags[i]|
        ensures !IsWhitespace(tags[i][k])
      {
        assert tags[i][k] == tags[i][1..][k - 1];
      }
    }
  }

  /** Trimming the inserted text leaves the tags joined by spaces. */
  lemma TrimOfInserted(tags: seq<string>)
    requires forall i :: 0 <= i < |tags| ==> IsTag(tags[i])
    ensures Trim(TagsText(tags)) == Join(tags, " ")
  {
    TrimStartSkips("\n\n", Join(tags, " "));
    if tags != [] {
      JoinOfTagsEdges(tags);
    }
  }

  /** A join of finished tags starts with `#` and ends with a letter or digit. */
  lemma JoinOfTagsEdges(tags: seq<string>)
    requires tags != []
    requires forall i :: 0 <= i < |tags| ==> IsTag(tags[i])
    ensures var j := Join(tags, " "); j != [] && !IsWhitespace(j[0]) && !IsWhitespace(j[|j| - 1])
  {
    assert forall i :: 0 <= i < |tags| ==> tags[i] != "";
    JoinEnds(tags, " ");
    var last := tags[|tags| - 1];
    assert last[|last| - 1] == last[1..][|last| - 2];
    assert IsAsciiAlnum(last[|last| - 1]);
  }

  /** Tags extracted once and inserted are extracted again unchanged. */
  lemma ExtractTagsRoundTrip(content: string)
    ensures ExtractTags(TagsText(ExtractTags(content))) == ExtractTags(content)
  {
    ExtractTagsOfInserted(ExtractTags(content));
  }

  /**
    `generateAndAppendTags`: with no active view only a notice is shown;
    otherwise the selection (or the whole document) is sent, and on a
    status-200 reply its tags are inserted at the cursor saved before the
    request, while any other reply leaves the document as it was.
  */
  function GenerateAndAppendTags(view: Option<EditorState>, llm: seq<ChatMessage> -> LlmReply): (o: TagOutcome)
    requires view.Some? ==> view.value.cursor <= |view.value.document|
    ensures view.None? <==> o.document.None?
    ensures view.None? ==> o.notice == NoViewNotice
    ensures view.Some? ==>
      var e := view.value;
      var reply := llm(TagRequest(if e.selection != "" then e.selection else e.document));
      (reply.status == 200 ==> o == TagOutcome(Some(AppendTags(e.document, ExtractTags(reply.content), e.cursor)), AppendedNotice)) &&
      (reply.status != 200 ==> o == TagOutcome(Some(e.document), FailedNotice))
  {
    if view.None? then TagOutcome(None, NoViewNotice)
    else
      var e := view.value;
      match GenerateTags(llm(TagRequest(TextToProcess(e.selection, e.document))))
      case Ok(tags) => TagOutcome(Some(AppendTags(e.document, tags, e.cursor)), AppendedNotice)
      case Err(_) => TagOutcome(Some(e.document), FailedNotice)
  }
}
