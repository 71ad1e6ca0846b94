/**
  The "Chat with Notes" window (src/ragChatModal.ts): the header subtitle,
  the guard that ignores blank questions, the chat transcript it builds and
  the markdown-like formatting of answers. The DOM is reduced to the list of
  messages in the transcript; the answer of `getRAGResponse` is a parameter.
*/
module RagChat {
  import opened Wrappers
  import opened Text
  import opened Rag

  // ---------------------------------------------------------------------
  // Global replacement, as `String.prototype.replace` with a `g` regex

  /** `s.replace(/pat/g, rep)` for a literal, non-empty pattern: left to right, without overlaps. */
  function ReplaceAll(s: string, pat: string, rep: string): string
    requires pat != []
    decreases |s|
  {
    if s == [] then []
    else if StartsWith(s, pat) then rep + ReplaceAll(s[|pat|..], pat, rep)
    else [s[0]] + ReplaceAll(s[1..], pat, rep)
  }

  /**
    Where the lazy `(.*?)` after an opening delimiter first meets the
    closing delimiter `d`, scanning from `i`: `None` when a line terminator
    (which `.` does not match) or the end of `s` comes first.
  */
  function CloseAt(s: string, d: string, i: nat): (k: Option<nat>)
    requires d != []
    ensures k.Some? ==> i <= k.value && k.value + |d| <= |s| && s[k.value..k.value + |d|] == d
    ensures k.Some? ==> NoLineTerminator(s[i..k.value])
    decreases |s| - i
  {
    if i + |d| > |s| then None
    else if s[i..i + |d|] == d then Some(i)
    else if IsLineTerminator(s[i]) then None
    else
      var k := CloseAt(s, d, i + 1);
      if k.Some? then
        assert s[i..k.value] == [s[i]] + s[i + 1..k.value];
        k
      else k
  }

  /**
    `s.replace(/D(.*?)D/g, open + "$1" + close)` for a delimiter `D`: each
    delimited span on one line is wrapped in `open` and `close`.
  */
  function Wrap(s: string, d: string, open: string, close: string): string
    requires d != []
    decreases |s|
  {
    if s == [] then []
    else if StartsWith(s, d) then
      match CloseAt(s, d, |d|)
      case Some(k) => open + s[|d|..k] + close + Wrap(s[k + |d|..], d, open, close)
      case None => [s[0]] + Wrap(s[1..], d, open, close)
    else [s[0]] + Wrap(s[1..], d, open, close)
  }

  /** `formatResponse`: bold, then italics, then paragraph breaks, then line breaks. */
  function FormatResponse(text: string): string {
    var bold := Wrap(text, "**", "<strong>", "</strong>");
    var italic := Wrap(bold, "*", "<em>", "</em>");
    ReplaceAll(ReplaceAll(italic, "\n\n", "</p><p>"), "\n", "<br>")
  }

  // ---------------------------------------------------------------------
  // Properties of the formatter

  /** A global replacement of one character is a split on it followed by a join. */
  lemma {:induction false} ReplaceAllIsSplitJoin(s: string, c: char, rep: string)
    ensures ReplaceAll(s, [c], rep) == Join(SplitOn(s, c), rep)
  {
    if s != [] {
      ReplaceAllIsSplitJoin(s[1..], c, rep);
      var rest := SplitOn(s[1..], c);
      if s[0] == c {
        assert StartsWith(s, [c]);
        assert Join([""] + rest, rep) == "" + rep + Join(rest, rep);
      } else {
        assert !StartsWith(s, [c]);
        JoinConsFirst(s[0], rest, rep);
      }
    }
  }

  lemma JoinConsFirst(c: char, parts: seq<string>, sep: string)
    requires parts != []
    ensures Join([[c] + parts[0]] + parts[1..], sep) == [c] + Join(parts, sep)
  {
    var q := [[c] + parts[0]] + parts[1..];
    if |parts| > 1 {
      assert q[1..] == parts[1..];
    }
  }

  /** A replacement whose text avoids the character leaves none of it behind. */
  lemma {:induction false} ReplaceAllRemoves(s: string, c: char, rep: string)
    requires c !in rep
    ensures c !in ReplaceAll(s, [c], rep)
  {
    if s != [] {
      ReplaceAllRemoves(s[1..], c, rep);
      if !StartsWith(s, [c]) {
        assert s[0] != c;
      }
    }
  }

  /** A pattern whose first character does not occur changes nothing. */
  lemma {:induction false} ReplaceAllAbsent(s: string, pat: string, rep: string)
    requires pat != [] && pat[0] !in s
    ensures ReplaceAll(s, pat, rep) == s
  {
    if s != [] {
      assert !StartsWith(s, pat) by { assert s[0] != pat[0]; }
      ReplaceAllAbsent(s[1..], pat, rep);
    }
  }

  /** A delimiter whose first character does not occur changes nothing. */
  lemma {:induction false} WrapAbsent(s: string, d: string, open: string, close: string)
    requires d != [] && d[0] !in s
    ensures Wrap(s, d, open, close) == s
  {
    if s != [] {
      assert !StartsWith(s, d) by { assert s[0] != d[0]; }
      WrapAbsent(s[1..], d, open, close);
    }
  }

  /** Formatted answers contain no newline: every one becomes `</p><p>` or `<br>`. */
  lemma FormatResponseNoNewline(text: string)
    ensures '\n' !in FormatResponse(text)
  {
    var bold := Wrap(text, "**", "<strong>", "</strong>");
    var italic := Wrap(bold, "*", "<em>", "</em>");
    ReplaceAllRemoves(ReplaceAll(italic, "\n\n", "</p><p>"), '\n', "<br>");
  }

  /** Text without `*` and without newlines is shown as it is. */
  lemma FormatResponsePlain(text: string)
    requires '*' !in text && '\n' !in text
    ensures FormatResponse(text) == text
  {
    WrapAbsent(text, "**", "<strong>", "</strong>");
    WrapAbsent(text, "*", "<em>", "</em>");
    ReplaceAllAbsent(text, "\n\n", "</p><p>");
    ReplaceAllAbsent(text, "\n", "<br>");
  }

  /** The closing delimiter of `D x D` is found right after `x` when `x` holds no delimiter character or line terminator. */
  lemma {:induction false} CloseAtAfter(s: string, d: string, i: nat, k: nat)
    requires d != [] && i <= k && k + |d| <= |s| && s[k..k + |d|] == d
    requires forall j :: i <= j < k ==> s[j] != d[0] && !IsLineTerminator(s[j])
    ensures CloseAt(s, d, i) == Some(k)
    decreases k - i
  {
    if i < k {
      assert s[i..i + |d|][0] == s[i];
      CloseAtAfter(s, d, i + 1, k);
    }
  }

  /** A span `D x D` on its own is wrapped whole. */
  lemma WrapSpan(x: string, d: string, open: string, close: string)
    requires d != [] && d[0] !in x && NoLineTerminator(x)
    ensures Wrap(d + x + d, d, open, close) == open + x + close
  {
    var s := d + x + d;
    assert s[|d| + |x|..|d| + |x| + |d|] == d;
    forall j | |d| <= j < |d| + |x|
      ensures s[j] != d[0] && !IsLineTerminator(s[j])
    {
      assert s[j] == x[j - |d|];
    }
    CloseAtAfter(s, d, |d|, |d| + |x|);
    assert StartsWith(s, d);
    assert s[|d|..|d| + |x|] == x;
    assert s[|d| + |x| + |d|..] == [];
  }

  /**
    `**x**` is shown bold: the bold pass runs first, so the single-star pass
    never turns it into italics.
  */
  lemma FormatResponseBold(x: string)
    requires '*' !in x && NoLineTerminator(x)
    ensures FormatResponse("**" + x + "**") == "<strong>" + x + "</strong>"
  {
    WrapSpan(x, "**", "<strong>", "</strong>");
    var bold := "<strong>" + x + "</strong>";
    assert '*' !in bold && '\n' !in bold by {
      assert forall j :: 0 <= j < |x| ==> x[j] != '\n';
    }
    WrapAbsent(bold, "*", "<em>", "</em>");
    ReplaceAllAbsent(bold, "\n\n", "</p><p>");
    ReplaceAllAbsent(bold, "\n", "<br>");
  }

  /** `*x*` is shown in italics. */
  lemma FormatResponseItalic(x: string)
    requires '*' !in x && NoLineTerminator(x)
    ensures FormatResponse("*" + x + "*") == "<em>" + x + "</em>"
  {
    BoldSkipsItalic(x);
    WrapSpan(x, "*", "<em>", "</em>");
    var em := "<em>" + x + "</em>";
    assert '\n' !in em by {
      assert forall j :: 0 <= j < |x| ==> x[j] != '\n';
    }
    LineBreaksAbsent(em);
  }

  /** The bold pass leaves `*x*` alone. */
  lemma BoldSkipsItalic(x: string)
    requires '*' !in x
    ensures Wrap("*" + x + "*", "**", "<strong>", "</strong>") == "*" + x + "*"
  {
    var s := "*" + x + "*";
    if |x| == 0 {
      assert s == "**";
      assert CloseAt(s, "**", 2) == None;
    } else {
      assert !StartsWith(s, "**") by { assert s[1] == x[0]; }
      assert s[1..] == x + "*";
      WrapTail(x, "**", "<strong>", "</strong>");
    }
  }

  /** Without newlines the two line-break passes change nothing. */
  lemma LineBreaksAbsent(t: string)
    requires '\n' !in t
    ensures ReplaceAll(ReplaceAll(t, "\n\n", "</p><p>"), "\n", "<br>") == t
  {
    ReplaceAllAbsent(t, "\n\n", "</p><p>");
    ReplaceAllAbsent(t, "\n", "<br>");
  }

  /** A lone final `*` after text without `*` is not a span. */
  lemma {:induction false} WrapTail(x: string, d: string, open: string, close: string)
    requires d == "**" && '*' !in x
    ensures Wrap(x + "*", d, open, close) == x + "*"
  {
    if x == [] {
      assert !StartsWith("*", d);
      assert "*"[1..] == [];
    } else {
      assert !StartsWith(x + "*", d) by { assert (x + "*")[0] == x[0]; }
      assert (x + "*")[1..] == x[1..] + "*";
      WrapTail(x[1..], d, open, close);
    }
  }

  /** A prefix without the pattern's first character is copied as it is. */
  lemma {:induction false} ReplaceAllSkip(a: string, b: string, pat: string, rep: string)
    requires pat != [] && pat[0] !in a
    ensures ReplaceAll(a + b, pat, rep) == a + ReplaceAll(b, pat, rep)
  {
    if a == [] {
      assert a + b == b;
    } else {
      assert !StartsWith(a + b, pat) by { assert (a + b)[0] == a[0]; }
      assert (a + b)[1..] == a[1..] + b;
      ReplaceAllSkip(a[1..], b, pat, rep);
    }
  }

  /** Newlines are paired left to right before single ones are rewritten. */
  lemma FormatResponseThreeNewlines()
    ensures FormatResponse("\n\n\n") == "</p><p><br>"
  {
    var s := "\n\n\n";
    WrapAbsent(s, "**", "<strong>", "</strong>");
    WrapAbsent(s, "*", "<em>", "</em>");
    assert ReplaceAll(s, "\n\n", "</p><p>") == "</p><p>\n" by {
      assert StartsWith(s, "\n\n") && s[2..] == "\n";
      assert !StartsWith("\n", "\n\n");
      assert "\n"[1..] == [];
    }
    assert ReplaceAll("\n", "\n", "<br>") == "<br>" by {
      assert StartsWith("\n", "\n");
      assert "\n"[1..] == [];
    }
    assert "</p><p>\n" == "</p><p>" + "\n";
    ReplaceAllSkip("</p><p>", "\n", "\n", "<br>");
  }

  // ---------------------------------------------------------------------
  // The window

  const FailedResponse := "Failed to get response. Make sure notes are indexed."
  const NoFilesSubtitle := "No files indexed yet — index notes in settings"
  const ExampleQueries := ["What are my main topics?", "Summarize my notes on...", "What did I write about...?"]

  /** The header's subtitle for `getIndexedFilesCount()` files. */
  function Subtitle(indexedCount: nat): (s: string)
    ensures s == NoFilesSubtitle <==> indexedCount == 0
    ensures indexedCount > 0 ==>
      StartsWith(s, "Searching across ") && EndsWith(s, " indexed files") &&
      |s| >= 31 && s[17..|s| - 14] == DecimalString(indexedCount)
  {
    if indexedCount > 0 then
      var s := "Searching across " + DecimalString(indexedCount) + " indexed files";
      assert s[|s| - 2] == 'e' && NoFilesSubtitle[|NoFilesSubtitle| - 2] == 'g';
      assert s[17..|s| - 14] == DecimalString(indexedCount);
      s
    else NoFilesSubtitle
  }

  /** One entry of the transcript. */
  datatype ChatItem =
    | UserMessage(text: string)
    | AiMessage(html: string, sources: seq<string>)
    | ErrorMessage(text: string)

  /** What the transcript gains from `getRAGResponse`'s answer or the error it threw. */
  function ReplyItem(answer: Result<RagResponse, string>): (item: ChatItem)
    ensures answer.Ok? <==> item.AiMessage?
    ensures item.AiMessage? ==> item.sources == answer.value.sources && '\n' !in item.html
    ensures item.ErrorMessage? ==> item.text != ""
  {
    match answer
    case Ok(r) =>
      FormatResponseNoNewline(r.response);
      AiMessage(FormatResponse(r.response), r.sources)
    case Err(m) => ErrorMessage(if m == "" then FailedResponse else m)
  }

  class RagChatModal {
    const subtitle: string
    /** The text in the input box (`result`). */
    var result: string
    var transcript: seq<ChatItem>
    var welcomeShown: bool
    var submitDisabled: bool

    /** The send button is disabled exactly while the input is blank. */
    ghost predicate Valid()
      reads this
    {
      submitDisabled <==> Trim(result) == ""
    }

    /** `onOpen` with the manager's indexed-file count. */
    constructor (indexedCount: nat)
      ensures Valid()
      ensures subtitle == Subtitle(indexedCount)
      ensures result == "" && transcript == [] && welcomeShown
    {
      subtitle := Subtitle(indexedCount);
      result := "";
      transcript := [];
      welcomeShown := true;
      submitDisabled := true;
    }

    /** The input box's `onChange`, or a click on an example question. */
    method SetInput(value: string)
      modifies this
      ensures Valid()
      ensures result == value
      ensures transcript == old(transcript) && welcomeShown == old(welcomeShown)
    {
      result := value;
      submitDisabled := Trim(result) == "";
    }

    /**
      `handleSubmit` with the answer the manager gave for the question: a
      blank input is ignored; otherwise the welcome goes away, the input is
      cleared and the question and the answer (or the error) join the
      transcript.
    */
    method HandleSubmit(answer: Result<RagResponse, string>)
      requires Valid()
      modifies this
      ensures Valid()
      ensures Trim(old(result)) == "" ==>
        result == old(result) && transcript == old(transcript) && welcomeShown == old(welcomeShown) && submitDisabled == old(submitDisabled)
      ensures Trim(old(result)) != "" ==>
        result == "" && !welcomeShown && transcript == old(transcript) + [UserMessage(old(result)), ReplyItem(answer)]
    {
      if Trim(result) == "" {
        return;
      }
      welcomeShown := false;
      var query := result;
      transcript := transcript + [UserMessage(query)];
      result := "";
      submitDisabled := true;
      transcript := transcript + [ReplyItem(answer)];
    }

    /** `clearConversation`: the transcript is emptied and the welcome shown again. */
    method ClearConversation()
      requires Valid()
      modifies this
      ensures Valid()
      ensures transcript == [] && welcomeShown && result == old(result)
    {
      transcript := [];
      welcomeShown := true;
    }
  }
}
