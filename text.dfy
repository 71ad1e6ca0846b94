/**
  The JavaScript string primitives the plugin relies on: the `\s` character
  class, `trim()`, `split(/\s+/)`, `split(sep)`, `join(sep)`, `includes`,
  `endsWith` and `startsWith`. Strings are sequences of Unicode scalar values.
*/
module Text {

  /** The characters matched by `\s` and removed by `trim()` (ECMAScript WhiteSpace and LineTerminator). */
  const Whitespace: set<char> := {
    '\t', '\n', '\U{000B}', '\U{000C}', '\r', ' ', '\U{00A0}', '\U{1680}',
    '\U{2000}', '\U{2001}', '\U{2002}', '\U{2003}', '\U{2004}', '\U{2005}',
    '\U{2006}', '\U{2007}', '\U{2008}', '\U{2009}', '\U{200A}',
    '\U{2028}', '\U{2029}', '\U{202F}', '\U{205F}', '\U{3000}', '\U{FEFF}'
  }

  predicate IsWhitespace(c: char) {
    c in Whitespace
  }

  /** The characters the regular-expression wildcard `.` does not match. */
  predicate IsLineTerminator(c: char) {
    c == '\n' || c == '\r' || c == '\U{2028}' || c == '\U{2029}'
  }

  predicate NoWhitespace(s: string) {
    forall i :: 0 <= i < |s| ==> !IsWhitespace(s[i])
  }

  predicate AllWhitespace(s: string) {
    forall i :: 0 <= i < |s| ==> IsWhitespace(s[i])
  }

  predicate NoLineTerminator(s: string) {
    forall i :: 0 <= i < |s| ==> !IsLineTerminator(s[i])
  }

  // ---------------------------------------------------------------------
  // trim()

  /** `s` without its leading whitespace. */
  function TrimStart(s: string): string {
    if s != [] && IsWhitespace(s[0]) then TrimStart(s[1..]) else s
  }

  /** `s` without its trailing whitespace. */
  function TrimEnd(s: string): string {
    if s != [] && IsWhitespace(s[|s| - 1]) then TrimEnd(s[..|s| - 1]) else s
  }

  /** `s.trim()`: `s` without its leading and trailing whitespace. */
  function Trim(s: string): string {
    TrimEnd(TrimStart(s))
  }

  /** Leading whitespace makes no difference to `TrimStart`. */
  lemma {:induction false} TrimStartSkips(w: string, s: string)
    requires AllWhitespace(w)
    ensures TrimStart(w + s) == TrimStart(s)
  {
    if w == [] {
      assert w + s == s;
    } else {
      assert (w + s)[0] == w[0] && IsWhitespace(w[0]);
      assert (w + s)[1..] == w[1..] + s;
      TrimStartSkips(w[1..], s);
    }
  }

  /** `TrimStart` removes a whitespace prefix, and all of it. */
  lemma {:induction false} TrimStartRemovesPrefix(s: string)
    ensures var r := TrimStart(s);
      |r| <= |s| && r == s[|s| - |r|..] && (r == [] || !IsWhitespace(r[0])) && AllWhitespace(s[..|s| - |r|])
  {
    if s != [] && IsWhitespace(s[0]) {
      TrimStartRemovesPrefix(s[1..]);
      var r := TrimStart(s);
      assert s[..|s| - |r|] == [s[0]] + s[1..][..|s| - 1 - |r|];
    }
  }

  /** `TrimEnd` removes a whitespace suffix, and all of it. */
  lemma {:induction false} TrimEndRemovesSuffix(s: string)
    ensures var r := TrimEnd(s);
      |r| <= |s| && r == s[..|r|] && (r == [] || !IsWhitespace(r[|r| - 1])) && AllWhitespace(s[|r|..])
  {
    if s != [] && IsWhitespace(s[|s| - 1]) {
      TrimEndRemovesSuffix(s[..|s| - 1]);
      var r := TrimEnd(s);
      assert s[|r|..] == s[..|s| - 1][|r|..] + [s[|s| - 1]];
    }
  }

  /** A text trims to nothing exactly when it is all whitespace. */
  lemma TrimEmptyIffAllWhitespace(s: string)
    ensures Trim(s) == [] <==> AllWhitespace(s)
  {
    var t := TrimStart(s);
    TrimStartRemovesPrefix(s);
    TrimEndRemovesSuffix(t);
    if !AllWhitespace(s) {
      var i :| 0 <= i < |s| && !IsWhitespace(s[i]);
      assert t[i - (|s| - |t|)] == s[i];
    } else {
      assert s[|s| - |t|..] == t;
    }
  }

  // ---------------------------------------------------------------------
  // split(/\s+/)

  /** The fields of `s` separated by every single whitespace character. */
  function SplitEach(s: string): (r: seq<string>)
    ensures |r| >= 1
  {
    if s == [] then [""]
    else
      var rest := SplitEach(s[1..]);
      if IsWhitespace(s[0]) then [""] + rest else [[s[0]] + rest[0]] + rest[1..]
  }

  /** The non-empty elements of `xs`, in order. */
  function NonEmpty(xs: seq<string>): (r: seq<string>)
    ensures |r| <= |xs|
    ensures forall i :: 0 <= i < |r| ==> r[i] != "" && r[i] in xs
  {
    if xs == [] then []
    else if xs[0] == "" then NonEmpty(xs[1..])
    else [xs[0]] + NonEmpty(xs[1..])
  }

  /**
    `s.split(/\s+/)`: the fields between maximal runs of whitespace. A run at
    the very start or end of `s` yields an empty first or last field.
  */
  function SplitWs(s: string): (r: seq<string>)
    ensures |r| >= 1
  {
    if s == [] then [""]
    else
      var rest := SplitWs(s[1..]);
      if !IsWhitespace(s[0]) then [[s[0]] + rest[0]] + rest[1..]
      else if rest[0] == "" && |rest| > 1 then rest
      else [""] + rest
  }

  /**
    A second description of `split(/\s+/)`: split at every whitespace
    character, then drop the empty fields except the first and the last.
  */
  function SplitWsByRuns(s: string): seq<string> {
    RunsOf(SplitEach(s))
  }

  /** Keep the first and the last field, and the non-empty ones between them. */
  function RunsOf(f: seq<string>): seq<string>
    requires |f| >= 1
  {
    if |f| == 1 then f else [f[0]] + NonEmpty(f[1..|f| - 1]) + [f[|f| - 1]]
  }

  /** The words of `s`: its maximal runs of non-whitespace characters. */
  function Tokens(s: string): seq<string> {
    NonEmpty(SplitEach(s))
  }

  lemma NonEmptyAppend(xs: seq<string>, ys: seq<string>)
    ensures NonEmpty(xs + ys) == NonEmpty(xs) + NonEmpty(ys)
  {
    if xs == [] {
      assert xs + ys == ys;
    } else {
      assert (xs + ys)[1..] == xs[1..] + ys;
      NonEmptyAppend(xs[1..], ys);
    }
  }

  lemma NonEmptyKeeps(xs: seq<string>, x: string)
    requires x in xs && x != ""
    ensures x in NonEmpty(xs)
  {
    if xs[0] != x {
      NonEmptyKeeps(xs[1..], x);
    }
  }

  lemma NonEmptyIdempotent(xs: seq<string>)
    ensures NonEmpty(NonEmpty(xs)) == NonEmpty(xs)
  {
    if xs != [] {
      NonEmptyIdempotent(xs[1..]);
    }
  }

  lemma NonEmptyOfNonEmpty(xs: seq<string>)
    requires forall i :: 0 <= i < |xs| ==> xs[i] != ""
    ensures NonEmpty(xs) == xs
  {
    if xs != [] {
      NonEmptyOfNonEmpty(xs[1..]);
    }
  }

  lemma SplitEachNoWhitespace(s: string)
    ensures forall i :: 0 <= i < |SplitEach(s)| ==> NoWhitespace(SplitEach(s)[i])
  {
    if s != [] {
      SplitEachNoWhitespace(s[1..]);
    }
  }

  lemma SplitEachOfWord(w: string)
    requires NoWhitespace(w)
    ensures SplitEach(w) == [w]
  {
    if w != [] {
      SplitEachOfWord(w[1..]);
      assert [w[0]] + w[1..] == w;
    }
  }

  lemma {:induction false} SplitEachAround(a: string, c: char, b: string)
    requires IsWhitespace(c)
    ensures SplitEach(a + [c] + b) == SplitEach(a) + SplitEach(b)
  {
    if a == [] {
      assert a + [c] + b == [c] + b;
      assert ([c] + b)[1..] == b;
    } else {
      assert (a + [c] + b)[1..] == a[1..] + [c] + b;
      SplitEachAround(a[1..], c, b);
    }
  }

  /** The words of a word are the word itself, unless it is empty. */
  lemma TokensOfWord(w: string)
    requires NoWhitespace(w)
    ensures Tokens(w) == if w == "" then [] else [w]
  {
    SplitEachOfWord(w);
  }

  /** A whitespace character separates words: joining two texts with one adds no word and splits none. */
  lemma TokensAround(a: string, c: char, b: string)
    requires IsWhitespace(c)
    ensures Tokens(a + [c] + b) == Tokens(a) + Tokens(b)
  {
    SplitEachAround(a, c, b);
    NonEmptyAppend(SplitEach(a), SplitEach(b));
  }

  /** The two descriptions of `split(/\s+/)` agree on every text. */
  lemma {:induction false} SplitWsIsByRuns(s: string)
    ensures SplitWs(s) == SplitWsByRuns(s)
  {
    if s != [] {
      SplitWsIsByRuns(s[1..]);
      if IsWhitespace(s[0]) {
        ByRunsAfterWhitespace(s);
      } else {
        ByRunsAfterWordChar(s);
      }
    }
  }

  /** Extending the first field extends the first run. */
  lemma RunsOfExtendFirst(c: string, g: seq<string>)
    requires |g| >= 1
    ensures RunsOf([c + g[0]] + g[1..]) == [c + RunsOf(g)[0]] + RunsOf(g)[1..]
  {
    var f := [c + g[0]] + g[1..];
    if |g| > 1 {
      var mid, last := g[1..|g| - 1], g[|g| - 1];
      assert f[1..|f| - 1] == mid && f[|f| - 1] == last;
      var ne := NonEmpty(mid);
      var r := [g[0]] + ne + [last];
      assert RunsOf(g) == r;
      assert r[1..] == ne + [last];
      assert RunsOf(f) == [c + g[0]] + ne + [last];
    } else {
      assert f == [c + g[0]];
    }
  }

  /** A new empty first field merges with an empty first run. */
  lemma RunsOfPrependEmpty(g: seq<string>)
    requires |g| >= 1
    ensures var r := RunsOf(g);
      RunsOf([""] + g) == if r[0] == "" && |r| > 1 then r else [""] + r
  {
    var f := [""] + g;
    if |g| > 1 {
      var mid := g[1..|g| - 1];
      assert f[1..|f| - 1] == [g[0]] + mid;
      NonEmptyAppend([g[0]], mid);
    } else {
      assert f[1..|f| - 1] == [];
    }
  }

  lemma ByRunsAfterWordChar(s: string)
    requires s != [] && !IsWhitespace(s[0])
    ensures var r := SplitWsByRuns(s[1..]); SplitWsByRuns(s) == [[s[0]] + r[0]] + r[1..]
  {
    var g := SplitEach(s[1..]);
    assert SplitEach(s) == [[s[0]] + g[0]] + g[1..];
    RunsOfExtendFirst([s[0]], g);
  }

  lemma ByRunsAfterWhitespace(s: string)
    requires s != [] && IsWhitespace(s[0])
    ensures var r := SplitWsByRuns(s[1..]);
      SplitWsByRuns(s) == if r[0] == "" && |r| > 1 then r else [""] + r
  {
    assert SplitEach(s) == [""] + SplitEach(s[1..]);
    RunsOfPrependEmpty(SplitEach(s[1..]));
  }

  /** The fields of `split(/\s+/)` contain no whitespace and only the first and last may be empty. */
  lemma SplitWsFields(s: string)
    ensures |SplitWs(s)| >= 1
    ensures forall i :: 0 <= i < |SplitWs(s)| ==> NoWhitespace(SplitWs(s)[i])
    ensures forall i :: 0 < i < |SplitWs(s)| - 1 ==> SplitWs(s)[i] != ""
  {
    SplitWsIsByRuns(s);
    SplitEachNoWhitespace(s);
  }

  /** Dropping the empty fields of `split(/\s+/)` leaves exactly the words of the text. */
  lemma SplitWsTokens(s: string)
    ensures NonEmpty(SplitWs(s)) == Tokens(s)
  {
    SplitWsIsByRuns(s);
    var f := SplitEach(s);
    if |f| > 1 {
      var mid := f[1..|f| - 1];
      assert f == [f[0]] + mid + [f[|f| - 1]];
      NonEmptyAppend([f[0]] + mid, [f[|f| - 1]]);
      NonEmptyAppend([f[0]], mid);
      NonEmptyAppend([f[0]] + NonEmpty(mid), [f[|f| - 1]]);
      NonEmptyAppend([f[0]], NonEmpty(mid));
      NonEmptyIdempotent(mid);
    }
  }

  /** A word splits into itself. */
  lemma {:induction false} SplitWsOfWord(w: string)
    requires w != [] && NoWhitespace(w)
    ensures SplitWs(w) == [w]
  {
    if |w| > 1 {
      SplitWsOfWord(w[1..]);
      assert [w[0]] + w[1..] == w;
    } else {
      assert SplitWs(w[1..]) == SplitWs([]) == [""];
      assert [w[0]] + "" == w;
    }
  }

  /** A word followed by one whitespace character and more text that starts a word. */
  lemma {:induction false} SplitWsAfterWord(w: string, c: char, b: string)
    requires w != [] && NoWhitespace(w) && IsWhitespace(c)
    requires b != [] && !IsWhitespace(b[0])
    ensures SplitWs(w + [c] + b) == [w] + SplitWs(b)
  {
    var s := w + [c] + b;
    if |w| == 1 {
      assert s[1..] == [c] + b;
      assert ([c] + b)[1..] == b;
      assert SplitWs(b)[0] != "";
      assert SplitWs([c] + b) == [""] + SplitWs(b);
      assert s[0] == w[0] && [w[0]] + "" == w;
    } else {
      assert s[1..] == w[1..] + [c] + b;
      SplitWsAfterWord(w[1..], c, b);
      assert [w[0]] + w[1..] == w;
    }
  }

  /** Whitespace-free words joined by single spaces split back into the words. */
  lemma {:induction false} SplitWsJoin(words: seq<string>)
    requires words != []
    requires forall i :: 0 <= i < |words| ==> words[i] != "" && NoWhitespace(words[i])
    ensures SplitWs(Join(words, " ")) == words
  {
    if |words| == 1 {
      SplitWsOfWord(words[0]);
    } else {
      var rest := Join(words[1..], " ");
      SplitWsJoin(words[1..]);
      JoinEnds(words[1..], " ");
      assert Join(words, " ") == words[0] + [' '] + rest;
      SplitWsAfterWord(words[0], ' ', rest);
    }
  }

  /** A join of non-empty words starts with the first word's first character and ends with the last word's last character. */
  lemma {:induction false} JoinEnds(words: seq<string>, sep: string)
    requires words != []
    requires forall i :: 0 <= i < |words| ==> words[i] != ""
    ensures var j := Join(words, sep);
      j != [] && j[0] == words[0][0] && j[|j| - 1] == words[|words| - 1][|words[|words| - 1]| - 1]
  {
    if |words| > 1 {
      JoinEnds(words[1..], sep);
    }
  }

  // ---------------------------------------------------------------------
  // split(sep), join(sep), includes, startsWith, endsWith

  /** `s.split(sep)` for a one-character separator. */
  function SplitOn(s: string, sep: char): (r: seq<string>)
    ensures |r| >= 1
    ensures forall i :: 0 <= i < |r| ==> sep !in r[i]
  {
    if s == [] then [""]
    else
      var rest := SplitOn(s[1..], sep);
      if s[0] == sep then [""] + rest else [[s[0]] + rest[0]] + rest[1..]
  }

  /** `parts.join(sep)`. */
  function Join(parts: seq<string>, sep: string): string {
    if parts == [] then ""
    else if |parts| == 1 then parts[0]
    else parts[0] + sep + Join(parts[1..], sep)
  }

  /** `split` is the inverse of `join` for parts that do not contain the separator. */
  lemma {:induction false} SplitOnJoin(parts: seq<string>, sep: char)
    requires parts != []
    requires forall i :: 0 <= i < |parts| ==> sep !in parts[i]
    ensures SplitOn(Join(parts, [sep]), sep) == parts
  {
    if |parts| == 1 {
      SplitOnWithout(parts[0], sep);
    } else {
      var tail := parts[1..];
      assert forall i :: 0 <= i < |tail| ==> sep !in tail[i] by {
        forall i | 0 <= i < |tail| ensures sep !in tail[i] {
          assert tail[i] == parts[i + 1];
        }
      }
      SplitOnJoin(tail, sep);
      assert Join(parts, [sep]) == parts[0] + [sep] + Join(tail, [sep]);
      SplitOnAround(parts[0], sep, Join(tail, [sep]));
      assert [parts[0]] + tail == parts;
    }
  }

  lemma {:induction false} SplitOnWithout(s: string, sep: char)
    requires sep !in s
    ensures SplitOn(s, sep) == [s]
  {
    if s != [] {
      SplitOnWithout(s[1..], sep);
      assert [s[0]] + s[1..] == s;
    }
  }

  lemma {:induction false} SplitOnAround(a: string, sep: char, b: string)
    requires sep !in a
    ensures SplitOn(a + [sep] + b, sep) == [a] + SplitOn(b, sep)
  {
    if a == [] {
      assert a + [sep] + b == [sep] + b;
      assert ([sep] + b)[1..] == b;
    } else {
      assert (a + [sep] + b)[1..] == a[1..] + [sep] + b;
      SplitOnAround(a[1..], sep, b);
      assert [a[0]] + a[1..] == a;
    }
  }

  /** `${n}`: an integer written in decimal, as a template literal writes it. */
  function DecimalString(n: int): (s: string)
    ensures s != []
    ensures n >= 0 ==> forall i :: 0 <= i < |s| ==> '0' <= s[i] <= '9'
    decreases if n < 0 then 1 - n else n
  {
    if n < 0 then "-" + DecimalString(-n)
    else if n < 10 then [(n + '0' as int) as char]
    else DecimalString(n / 10) + DecimalString(n % 10)
  }

  /** `s.includes(sub)`. */
  predicate Contains(s: string, sub: string)
    decreases |s|
  {
    StartsWith(s, sub) || (s != [] && Contains(s[1..], sub))
  }

  /** `s.endsWith(suffix)`. */
  predicate EndsWith(s: string, suffix: string) {
    |suffix| <= |s| && s[|s| - |suffix|..] == suffix
  }

  /** `s.startsWith(prefix)`. */
  predicate StartsWith(s: string, prefix: string) {
    |prefix| <= |s| && s[..|prefix|] == prefix
  }

  // ---------------------------------------------------------------------
  // filter

  /**
    `r` lists the elements of `xs` at the positions `idx`, which increase:
    what `xs.filter(keep)` returns when `idx` holds exactly the positions
    whose element passes `keep`.
  */
  predicate PicksAt(r: seq<string>, xs: seq<string>, idx: seq<int>) {
    && |idx| == |r|
    && (forall k :: 0 <= k < |idx| ==> 0 <= idx[k] < |xs| && r[k] == xs[idx[k]])
    && (forall k, l :: 0 <= k < l < |idx| ==> idx[k] < idx[l])
  }

  /** Appending an element to the input keeps a selection, and may also select the new element. */
  lemma PicksAtSnoc(r: seq<string>, xs: seq<string>, idx: seq<int>, x: string)
    requires PicksAt(r, xs, idx)
    ensures PicksAt(r, xs + [x], idx)
    ensures PicksAt(r + [x], xs + [x], idx + [|xs|])
    ensures |xs| !in idx
  {
    assert forall k :: 0 <= k < |idx| ==> idx[k] < |xs| && (xs + [x])[idx[k]] == xs[idx[k]];
  }
}
