/**
  The word chunker of `RAGManager.splitIntoChunks` (src/rag.ts, and the same
  code in rag.ts): the text is split on runs of whitespace and the words are
  packed greedily into chunks of at most `chunkSize` characters joined by
  single spaces.
*/
module Chunking {
  import opened Text

  /** `CHUNK_SIZE`, the size every note is chunked with. */
  const ChunkSize: nat := 1000

  /** The two variables of the packing loop: the finished chunks and `currentChunk`. */
  datatype Packing = Packing(chunks: seq<string>, current: string)

  /** `currentChunk += (currentChunk ? ' ' : '') + word` */
  function Extend(current: string, word: string): string {
    current + (if current != "" then " " else "") + word
  }

  /** One iteration of the `forEach` over the words. */
  function Step(p: Packing, word: string, chunkSize: nat): Packing {
    if |p.current| + |word| + 1 <= chunkSize then Packing(p.chunks, Extend(p.current, word))
    else Packing(p.chunks + [p.current], word)
  }

  /** The loop state after the given words, taken left to right. */
  function Pack(words: seq<string>, chunkSize: nat): Packing {
    if words == [] then Packing([], "")
    else Step(Pack(words[..|words| - 1], chunkSize), words[|words| - 1], chunkSize)
  }

  /** The chunks `splitIntoChunks(content, chunkSize)` returns. */
  function Chunks(content: string, chunkSize: nat): seq<string> {
    var p := Pack(SplitWs(content), chunkSize);
    if p.current != "" then p.chunks + [p.current] else p.chunks
  }

  method SplitIntoChunks(content: string, chunkSize: nat) returns (chunks: seq<string>)
    ensures chunks == Chunks(content, chunkSize)
  {
    chunks := [];
    var currentChunk := "";
    var words := SplitWs(content);
    for i := 0 to |words|
      invariant Packing(chunks, currentChunk) == Pack(words[..i], chunkSize)
    {
      var word := words[i];
      assert words[..i + 1][..i] == words[..i];
      if |currentChunk| + |word| + 1 <= chunkSize {
        currentChunk := currentChunk + (if currentChunk != "" then " " else "") + word;
      } else {
        chunks := chunks + [currentChunk];
        currentChunk := word;
      }
    }
    assert words[..|words|] == words;
    if currentChunk != "" {
      chunks := chunks + [currentChunk];
    }
  }

  // ---------------------------------------------------------------------
  // Words are preserved

  /** The words of the chunks, chunk after chunk. */
  function ChunkTokens(chunks: seq<string>): seq<string> {
    if chunks == [] then [] else ChunkTokens(chunks[..|chunks| - 1]) + Tokens(chunks[|chunks| - 1])
  }

  predicate AllWords(words: seq<string>) {
    forall i :: 0 <= i < |words| ==> NoWhitespace(words[i])
  }

  lemma TokensOfExtend(current: string, word: string)
    requires NoWhitespace(word)
    ensures Tokens(Extend(current, word)) == Tokens(current) + Tokens(word)
  {
    if current == "" {
      assert Extend(current, word) == word;
    } else {
      TokensAround(current, ' ', word);
    }
  }

  /** One packing step adds the word's tokens after those already packed. */
  lemma StepTokens(p: Packing, w: string, chunkSize: nat)
    requires NoWhitespace(w)
    ensures var q := Step(p, w, chunkSize);
      ChunkTokens(q.chunks) + Tokens(q.current) == ChunkTokens(p.chunks) + Tokens(p.current) + Tokens(w)
  {
    if |p.current| + |w| + 1 <= chunkSize {
      TokensOfExtend(p.current, w);
    } else {
      assert (p.chunks + [p.current])[..|p.chunks|] == p.chunks;
    }
  }

  lemma {:induction false} PackTokens(words: seq<string>, chunkSize: nat)
    requires AllWords(words)
    ensures ChunkTokens(Pack(words, chunkSize).chunks) + Tokens(Pack(words, chunkSize).current) == NonEmpty(words)
  {
    if words != [] {
      var init, w := words[..|words| - 1], words[|words| - 1];
      assert AllWords(init) by {
        forall i | 0 <= i < |init| ensures NoWhitespace(init[i]) {
          assert init[i] == words[i];
        }
      }
      PackTokens(init, chunkSize);
      assert words == init + [w];
      NonEmptyAppend(init, [w]);
      TokensOfWord(w);
      StepTokens(Pack(init, chunkSize), w, chunkSize);
    }
  }

  /** Reading the words back out of the chunks gives the words of the content: none dropped, duplicated, split or reordered. */
  lemma ChunksPreserveWords(content: string, chunkSize: nat)
    ensures ChunkTokens(Chunks(content, chunkSize)) == Tokens(content)
  {
    var words := SplitWs(content);
    SplitWsFields(content);
    SplitWsTokens(content);
    PackTokens(words, chunkSize);
    var p := Pack(words, chunkSize);
    if p.current != "" {
      assert (p.chunks + [p.current])[..|p.chunks|] == p.chunks;
    } else {
      assert Tokens(p.current) == [];
    }
  }

  // ---------------------------------------------------------------------
  // Chunks hold no whitespace but single spaces

  /** Every whitespace character of `s` is a plain space. */
  predicate Spaced(s: string) {
    forall i :: 0 <= i < |s| && IsWhitespace(s[i]) ==> s[i] == ' '
  }

  lemma {:induction false} PackSpaced(words: seq<string>, chunkSize: nat)
    requires AllWords(words)
    ensures forall i :: 0 <= i < |Pack(words, chunkSize).chunks| ==> Spaced(Pack(words, chunkSize).chunks[i])
    ensures Spaced(Pack(words, chunkSize).current)
  {
    if words != [] {
      var init, w := words[..|words| - 1], words[|words| - 1];
      PackSpaced(init, chunkSize);
      assert AllWords(init);
    }
  }

  /** No chunk contains a newline, a tab or any whitespace other than a single-space separator. */
  lemma ChunksSpaced(content: string, chunkSize: nat)
    ensures forall i :: 0 <= i < |Chunks(content, chunkSize)| ==> Spaced(Chunks(content, chunkSize)[i])
    ensures forall i :: 0 <= i < |Chunks(content, chunkSize)| ==> '\n' !in Chunks(content, chunkSize)[i]
  {
    SplitWsFields(content);
    PackSpaced(SplitWs(content), chunkSize);
  }

  // ---------------------------------------------------------------------
  // The size bound

  lemma {:induction false} PackBounded(words: seq<string>, chunkSize: nat)
    requires forall i :: 0 <= i < |words| ==> |words[i]| <= chunkSize
    ensures forall i :: 0 <= i < |Pack(words, chunkSize).chunks| ==> |Pack(words, chunkSize).chunks[i]| <= chunkSize
    ensures |Pack(words, chunkSize).current| <= chunkSize
  {
    if words != [] {
      PackBounded(words[..|words| - 1], chunkSize);
    }
  }

  /** When no word of the content is longer than `chunkSize`, no chunk is either. */
  lemma ChunksBounded(content: string, chunkSize: nat)
    requires forall i :: 0 <= i < |Tokens(content)| ==> |Tokens(content)[i]| <= chunkSize
    ensures forall i :: 0 <= i < |Chunks(content, chunkSize)| ==> |Chunks(content, chunkSize)[i]| <= chunkSize
  {
    var words := SplitWs(content);
    SplitWsTokens(content);
    forall i | 0 <= i < |words|
      ensures |words[i]| <= chunkSize
    {
      if words[i] != "" {
        NonEmptyKeeps(words, words[i]);
      }
    }
    PackBounded(words, chunkSize);
  }

  // ---------------------------------------------------------------------
  // Empty chunks

  /** Only the first and the last field of `split(/\s+/)` can be empty. */
  predicate InnerNonEmpty(words: seq<string>) {
    forall j :: 0 < j < |words| - 1 ==> words[j] != ""
  }

  /** Every chunk after the first is non-empty; an empty `currentChunk` after a push means the last field was empty. */
  lemma {:induction false} PackInnerChunks(words: seq<string>, chunkSize: nat)
    requires chunkSize > 0 && InnerNonEmpty(words)
    ensures var p := Pack(words, chunkSize);
      && (forall i :: 0 < i < |p.chunks| ==> p.chunks[i] != "")
      && (p.current == "" && p.chunks != [] ==> |words| >= 2 && words[|words| - 1] == "")
  {
    if words != [] {
      var init, w := words[..|words| - 1], words[|words| - 1];
      assert InnerNonEmpty(init);
      PackInnerChunks(init, chunkSize);
      var p := Pack(init, chunkSize);
      if |p.current| + |w| + 1 <= chunkSize {
        assert Pack(words, chunkSize) == Packing(p.chunks, Extend(p.current, w));
      } else {
        assert Pack(words, chunkSize) == Packing(p.chunks + [p.current], w);
      }
    }
  }

  /** The first chunk is empty exactly when the first word does not fit. */
  lemma {:induction false} PackFirstChunk(words: seq<string>, chunkSize: nat)
    requires chunkSize > 0
    ensures var p := Pack(words, chunkSize);
      && (p.chunks == [] ==> (p.current == "" <==> NonEmpty(words) == []))
      && (p.chunks == [] && NonEmpty(words) != [] ==> |NonEmpty(words)[0]| < chunkSize)
      && (p.chunks != [] ==> NonEmpty(words) != [] && (p.chunks[0] == "" <==> |NonEmpty(words)[0]| >= chunkSize))
  {
    if words != [] {
      var init, w := words[..|words| - 1], words[|words| - 1];
      PackFirstChunk(init, chunkSize);
      assert words == init + [w];
      NonEmptyAppend(init, [w]);
      var p := Pack(init, chunkSize);
      var ne, neInit := NonEmpty(words), NonEmpty(init);
      assert ne == neInit + (if w == "" then [] else [w]);
      assert neInit != [] ==> ne[0] == neInit[0];
      if |p.current| + |w| + 1 <= chunkSize {
        assert Pack(words, chunkSize) == Packing(p.chunks, Extend(p.current, w));
      } else {
        assert Pack(words, chunkSize) == Packing(p.chunks + [p.current], w);
      }
    }
  }

  lemma PackEmptyChunks(words: seq<string>, chunkSize: nat)
    requires chunkSize > 0 && InnerNonEmpty(words)
    ensures var p := Pack(words, chunkSize);
      && (forall i :: 0 < i < |p.chunks| ==> p.chunks[i] != "")
      && (p.current == "" && p.chunks != [] ==> |words| >= 2 && words[|words| - 1] == "")
      && (p.chunks == [] ==> (p.current == "" <==> NonEmpty(words) == []))
      && (p.chunks == [] && NonEmpty(words) != [] ==> |NonEmpty(words)[0]| < chunkSize)
      && (p.chunks != [] ==> NonEmpty(words) != [] && (p.chunks[0] == "" <==> |NonEmpty(words)[0]| >= chunkSize))
  {
    PackInnerChunks(words, chunkSize);
    PackFirstChunk(words, chunkSize);
  }

  /**
    With a positive size, an empty chunk can only come first, and it comes
    exactly when the first word is at least `chunkSize` long (the empty
    `currentChunk` is pushed before that word).
  */
  lemma EmptyChunkOnlyFirst(content: string, chunkSize: nat)
    requires chunkSize > 0
    ensures forall i :: 0 < i < |Chunks(content, chunkSize)| ==> Chunks(content, chunkSize)[i] != ""
    ensures (|Chunks(content, chunkSize)| > 0 && Chunks(content, chunkSize)[0] == "")
        <==> (Tokens(content) != [] && |Tokens(content)[0]| >= chunkSize)
  {
    SplitWsFields(content);
    SplitWsTokens(content);
    PackEmptyChunks(SplitWs(content), chunkSize);
  }

  /** With a positive size, empty or whitespace-only content gives no chunks, and any word gives at least one. */
  lemma NoChunksIffNoWords(content: string, chunkSize: nat)
    requires chunkSize > 0
    ensures Chunks(content, chunkSize) == [] <==> Tokens(content) == []
  {
    SplitWsFields(content);
    SplitWsTokens(content);
    PackEmptyChunks(SplitWs(content), chunkSize);
  }
}
