/**
  `RAGManager` (src/rag.ts; the older rag.ts is the same code except where
  `Revision` says otherwise): provider selection, indexing bookkeeping,
  source de-duplication of answers and the `[[source]]: preview...` listing
  of similar notes. The vector store's similarity search, `addDocuments` and
  the generation chain are oracles: what they return or whether they throw
  is a parameter.
*/
module Rag {
  import opened Wrappers
  import opened Text
  import opened Chunking
  import opened Embeddings

  /** A document of the vector store: a chunk with its `source` and `chunk` metadata. */
  datatype Doc = Doc(pageContent: string, source: string, chunk: nat)

  /** Which copy of `RAGManager`: src/rag.ts (`Current`) or rag.ts (`Legacy`). */
  datatype Revision = Current | Legacy

  /** The settings the manager reads; an unset `providerType` is "". */
  datatype RagSettings = RagSettings(
    providerType: string,
    serverAddress: string,
    embeddingModelName: string,
    openAIApiKey: Option<string>)

  // ---------------------------------------------------------------------
  // Provider selection (constructor)

  /** `settings.providerType || 'ollama'` */
  function ProviderOf(settings: RagSettings): (provider: string)
    ensures provider != ""
    ensures settings.providerType != "" ==> provider == settings.providerType
    ensures settings.providerType == "" ==> provider == "ollama"
  {
    if settings.providerType == "" then "ollama" else settings.providerType
  }

  /**
    The embeddings client the constructor builds: Ollama for the "ollama"
    provider (and always in the older copy), otherwise the OpenAI-compatible
    client on the normalised `/v1` URL.
  */
  function EmbeddingsFor(revision: Revision, settings: RagSettings): (c: EmbeddingClient)
    ensures c.OllamaClient? <==> (revision == Legacy || ProviderOf(settings) == "ollama")
    ensures c.model == settings.embeddingModelName
    ensures c.OllamaClient? ==> c.baseUrl == settings.serverAddress
    ensures c.OpenAiCompatibleClient? ==> c == NewOpenAiCompatibleClient(settings.openAIApiKey, settings.embeddingModelName, settings.serverAddress)
  {
    if revision == Legacy || ProviderOf(settings) == "ollama" then
      OllamaClient(settings.serverAddress, settings.embeddingModelName)
    else
      NewOpenAiCompatibleClient(settings.openAIApiKey, settings.embeddingModelName, settings.serverAddress)
  }

  // ---------------------------------------------------------------------
  // De-duplication in order of first appearance: `[...new Set(xs)]`

  predicate Distinct<T(==)>(xs: seq<T>) {
    forall i, j :: 0 <= i < j < |xs| ==> xs[i] != xs[j]
  }

  /** The position of the first occurrence of `x` in `xs`. */
  function FirstIndex<T(==)>(xs: seq<T>, x: T): (k: nat)
    requires x in xs
    ensures k < |xs| && xs[k] == x && x !in xs[..k]
  {
    if xs[0] == x then 0 else 1 + FirstIndex(xs[1..], x)
  }

  lemma FirstIndexAppend<T>(xs: seq<T>, x: T, y: T)
    requires y in xs + [x]
    ensures y in xs ==> FirstIndex(xs + [x], y) == FirstIndex(xs, y)
    ensures y !in xs ==> FirstIndex(xs + [x], y) == |xs|
  {
    if y in xs {
      assert (xs + [x])[FirstIndex(xs, y)] == y;
    }
  }

  /** `[...new Set(xs)]`: each element of `xs` once, in order of first appearance. */
  function Dedup(xs: seq<string>): (r: seq<string>)
    ensures forall x :: x in r <==> x in xs
    ensures Distinct(r)
    ensures |r| <= |xs|
  {
    if xs == [] then []
    else
      var d := Dedup(xs[..|xs| - 1]);
      if xs[|xs| - 1] in xs[..|xs| - 1] then d else d + [xs[|xs| - 1]]
  }

  /** The de-duplicated elements keep the order in which they first appear in the input. */
  lemma {:induction false} DedupFirstAppearance(xs: seq<string>)
    ensures forall i, j :: 0 <= i < j < |Dedup(xs)| ==> FirstIndex(xs, Dedup(xs)[i]) < FirstIndex(xs, Dedup(xs)[j])
  {
    if xs != [] {
      var init, x := xs[..|xs| - 1], xs[|xs| - 1];
      assert xs == init + [x];
      DedupFirstAppearance(init);
      var d := Dedup(init);
      forall i, j | 0 <= i < j < |Dedup(xs)|
        ensures FirstIndex(xs, Dedup(xs)[i]) < FirstIndex(xs, Dedup(xs)[j])
      {
        FirstIndexAppend(init, x, Dedup(xs)[i]);
        FirstIndexAppend(init, x, Dedup(xs)[j]);
        if j == |d| {
          assert Dedup(xs)[j] == x && x !in init;
        }
      }
    }
  }

  /** De-duplicating a list without repetitions leaves it unchanged. */
  lemma {:induction false} DedupDistinct(xs: seq<string>)
    requires Distinct(xs)
    ensures Dedup(xs) == xs
  {
    if xs != [] {
      var init := xs[..|xs| - 1];
      assert Distinct(init);
      DedupDistinct(init);
      assert xs == init + [xs[|xs| - 1]];
    }
  }

  /** The `source` metadata of each document, in order. */
  function Sources(docs: seq<Doc>): (r: seq<string>)
    ensures |r| == |docs| && forall k :: 0 <= k < |docs| ==> r[k] == docs[k].source
  {
    seq(|docs|, k requires 0 <= k < |docs| => docs[k].source)
  }

  // ---------------------------------------------------------------------
  // getRAGResponse

  /** The output of the retrieval chain: the generated answer and the documents it was given. */
  datatype ChainOutput = ChainOutput(answer: string, context: seq<Doc>)

  datatype RagResponse = RagResponse(response: string, sources: seq<string>)

  /** The error thrown when the similarity search finds nothing. */
  function NoDocumentsMessage(revision: Revision): string {
    match revision
    case Current => "No relevant documents found"
    case Legacy => "No relevant documents found in vector store"
  }

  /**
    `getRAGResponse`, given the outcome of the first similarity search (`hits`)
    and of the retrieval chain (`chain`). Every error is rethrown.
  */
  function GetRagResponse(revision: Revision, hits: Result<seq<Doc>, string>, chain: Result<ChainOutput, string>)
    : (r: Result<RagResponse, string>)
    ensures hits.Err? ==> r == Err(hits.error)
    ensures hits == Ok([]) ==> r == Err(NoDocumentsMessage(revision))
    ensures r.Ok? <==> hits.Ok? && hits.value != [] && chain.Ok?
    ensures r.Ok? ==> r.value.response == chain.value.answer
    ensures r.Ok? ==> Distinct(r.value.sources)
    ensures r.Ok? ==> forall s :: s in r.value.sources <==> s in Sources(chain.value.context)
    ensures r.Ok? ==> forall i, j :: 0 <= i < j < |r.value.sources| ==>
      FirstIndex(Sources(chain.value.context), r.value.sources[i]) < FirstIndex(Sources(chain.value.context), r.value.sources[j])
  {
    match hits
    case Err(e) => Err(e)
    case Ok(docs) =>
      if |docs| == 0 then Err(NoDocumentsMessage(revision))
      else
        match chain
        case Err(e) => Err(e)
        case Ok(out) =>
          DedupFirstAppearance(Sources(out.context));
          Ok(RagResponse(out.answer, Dedup(Sources(out.context))))
  }

  // ---------------------------------------------------------------------
  // findSimilarNotes

  /** `doc.pageContent.substring(0, 100)` */
  function Preview(content: string): (p: string)
    ensures |p| <= 100 && StartsWith(content, p)
    ensures |content| <= 100 ==> p == content
  {
    if |content| <= 100 then content else content[..100]
  }

  /** `[[${doc.metadata.source}]]` */
  function Backlink(source: string): string {
    "[[" + source + "]]"
  }

  lemma BacklinkInjective(a: string, b: string)
    requires Backlink(a) == Backlink(b)
    ensures a == b
  {
    assert a == Backlink(a)[2..|Backlink(a)| - 2];
    assert b == Backlink(b)[2..|Backlink(b)| - 2];
  }

  /** The line listed for a note: `[[source]]: <first 100 characters>...` */
  function NoteLine(doc: Doc): string {
    Backlink(doc.source) + ": " + Preview(doc.pageContent) + "..."
  }

  /** For each distinct source, the first hit that has it, in hit order. */
  function FirstHits(docs: seq<Doc>): (r: seq<Doc>)
    ensures |r| == |Dedup(Sources(docs))|
    ensures forall k :: 0 <= k < |r| ==> r[k].source == Dedup(Sources(docs))[k] && r[k] in docs
  {
    var d := Dedup(Sources(docs));
    seq(|d|, k requires 0 <= k < |d| => docs[FirstIndex(Sources(docs), d[k])])
  }

  lemma FirstHitsAppend(docs: seq<Doc>, doc: Doc)
    ensures doc.source in Sources(docs) ==> FirstHits(docs + [doc]) == FirstHits(docs)
    ensures doc.source !in Sources(docs) ==> FirstHits(docs + [doc]) == FirstHits(docs) + [doc]
  {
    var all := docs + [doc];
    assert Sources(all) == Sources(docs) + [doc.source];
    assert Sources(all)[..|Sources(all)| - 1] == Sources(docs);
    var d, e := Dedup(Sources(docs)), Dedup(Sources(all));
    forall k | 0 <= k < |d|
      ensures FirstIndex(Sources(all), d[k]) == FirstIndex(Sources(docs), d[k])
    {
      FirstIndexAppend(Sources(docs), doc.source, d[k]);
    }
    if doc.source !in Sources(docs) {
      FirstIndexAppend(Sources(docs), doc.source, doc.source);
    }
  }

  /** The text `findSimilarNotes` returns for the hits of its similarity search. */
  function SimilarNotesText(docs: seq<Doc>): string {
    var first := FirstHits(docs);
    Join(seq(|first|, k requires 0 <= k < |first| => NoteLine(first[k])), "\n")
  }

  /**
    The JavaScript `Map` of `findSimilarNotes`, keyed by `[[source]]`, as its
    keys in insertion order (`order`) and its contents (`entries`): it lists
    the note line of each of the documents `first`, in order.
  */
  ghost predicate MapLists(order: seq<string>, entries: map<string, string>, first: seq<Doc>) {
    && |order| == |first|
    && (forall k :: 0 <= k < |order| ==> order[k] == Backlink(first[k].source))
    && entries.Keys == (set k | 0 <= k < |order| :: order[k])
    && (forall k :: 0 <= k < |order| ==> entries[order[k]] == NoteLine(first[k]))
  }

  /** Adding an entry for a document whose backlink is not yet a key extends the listing by its line. */
  lemma MapListsAdd(order: seq<string>, entries: map<string, string>, first: seq<Doc>, doc: Doc)
    requires MapLists(order, entries, first)
    requires Backlink(doc.source) !in entries
    ensures MapLists(order + [Backlink(doc.source)], entries[Backlink(doc.source) := NoteLine(doc)], first + [doc])
  {
    var order', entries' := order + [Backlink(doc.source)], entries[Backlink(doc.source) := NoteLine(doc)];
    var first' := first + [doc];
    var keys, keys' := (set j | 0 <= j < |order| :: order[j]), (set j | 0 <= j < |order'| :: order'[j]);
    forall k | 0 <= k < |order|
      ensures order'[k] in keys && entries'[order'[k]] == NoteLine(first'[k])
    {
      assert order[k] in keys;
    }
    forall x | x in keys ensures x in keys' {
      var j :| 0 <= j < |order| && order[j] == x;
      assert order'[j] == x;
    }
    assert order'[|order|] in keys';
    assert keys' == keys + {Backlink(doc.source)};
  }

  lemma MapListsStep(order: seq<string>, entries: map<string, string>, docs: seq<Doc>, doc: Doc)
    requires MapLists(order, entries, FirstHits(docs))
    ensures Backlink(doc.source) in entries <==> doc.source in Sources(docs)
    ensures doc.source !in Sources(docs) ==>
      MapLists(order + [Backlink(doc.source)], entries[Backlink(doc.source) := NoteLine(doc)], FirstHits(docs + [doc]))
    ensures doc.source in Sources(docs) ==> MapLists(order, entries, FirstHits(docs + [doc]))
  {
    FirstHitsAppend(docs, doc);
    var first := FirstHits(docs);
    if Backlink(doc.source) in entries {
      var k :| 0 <= k < |order| && order[k] == Backlink(doc.source);
      BacklinkInjective(first[k].source, doc.source);
    } else if doc.source !in Sources(docs) {
      MapListsAdd(order, entries, first, doc);
    }
  }

  /**
    `findSimilarNotes`: "" when the search throws or finds nothing; otherwise
    one line per distinct source, built from the first hit for it, in hit
    order, joined by newlines.
  */
  method FindSimilarNotes(hits: Result<seq<Doc>, string>) returns (notes: string)
    ensures hits.Err? ==> notes == ""
    ensures hits.Ok? ==> notes == SimilarNotesText(hits.value)
    ensures hits.Ok? ==> (notes == "" <==> hits.value == [])
  {
    if hits.Err? {
      return "";
    }
    var similarDocs := hits.value;
    if |similarDocs| == 0 {
      return "";
    }
    var order: seq<string> := [];
    var uniqueBacklinks: map<string, string> := map[];
    for i := 0 to |similarDocs|
      invariant MapLists(order, uniqueBacklinks, FirstHits(similarDocs[..i]))
    {
      var doc := similarDocs[i];
      assert similarDocs[..i + 1] == similarDocs[..i] + [doc];
      MapListsStep(order, uniqueBacklinks, similarDocs[..i], doc);
      var backlink := "[[" + doc.source + "]]";
      if backlink !in uniqueBacklinks {
        var entry := backlink + ": " + Preview(doc.pageContent) + "...";
        uniqueBacklinks := uniqueBacklinks[backlink := entry];
        order := order + [backlink];
      }
    }
    assert similarDocs[..|similarDocs|] == similarDocs;
    var lines := seq(|order|, k requires 0 <= k < |order| => uniqueBacklinks[order[k]]);
    notes := Join(lines, "\n");
    MapListing(order, uniqueBacklinks, similarDocs);
  }

  /** The `Map`'s values, in insertion order and joined by newlines, are the listing, which is not empty for any hit. */
  lemma MapListing(order: seq<string>, entries: map<string, string>, docs: seq<Doc>)
    requires docs != [] && MapLists(order, entries, FirstHits(docs))
    ensures var lines := seq(|order|, k requires 0 <= k < |order| => entries[order[k]]);
      Join(lines, "\n") == SimilarNotesText(docs) && SimilarNotesText(docs) != ""
  {
    var lines := seq(|order|, k requires 0 <= k < |order| => entries[order[k]]);
    var first := FirstHits(docs);
    assert lines == seq(|first|, k requires 0 <= k < |first| => NoteLine(first[k]));
    assert Sources(docs)[0] in Dedup(Sources(docs));
    assert lines[0] != "";
    assert Join(lines, "\n")[..|lines[0]|] == lines[0] by {
      if |lines| > 1 {
        assert Join(lines, "\n") == lines[0] + "\n" + Join(lines[1..], "\n");
      }
    }
  }

  // ---------------------------------------------------------------------
  // Indexing: processFiles, indexNotes, getIndexedFilesCount

  /** A vault file: its path, its extension and the outcome of `cachedRead` on it. */
  datatype NoteFile = NoteFile(path: string, extension: string, content: Result<string, string>)

  /** A call `progressCallback((i + 1) / totalFiles)`, kept as the pair `(i + 1, totalFiles)`. */
  datatype Progress = Progress(done: nat, total: nat)

  /** The documents built for the chunks of one file: chunk `j` carries `{ source: path, chunk: j }`. */
  function FileDocs(path: string, chunks: seq<string>): (docs: seq<Doc>)
    ensures |docs| == |chunks|
    ensures forall j :: 0 <= j < |docs| ==> docs[j] == Doc(chunks[j], path, j)
  {
    seq(|chunks|, j requires 0 <= j < |chunks| => Doc(chunks[j], path, j))
  }

  /**
    The documents `addDocuments` stores before the first one it throws on;
    `accepts(doc)` is whether the vector store (and the embeddings behind it)
    takes `doc` without throwing.
  */
  function AcceptedPrefix(docs: seq<Doc>, accepts: Doc -> bool): (r: seq<Doc>)
    ensures |r| <= |docs| && r == docs[..|r|]
    ensures forall j :: 0 <= j < |r| ==> accepts(r[j])
    ensures |r| < |docs| ==> !accepts(docs[|r|])
  {
    if docs == [] then []
    else if accepts(docs[0]) then [docs[0]] + AcceptedPrefix(docs[1..], accepts)
    else []
  }

  /** A prefix that is all accepted and is followed by a rejected document, or by nothing, is the accepted prefix. */
  lemma AcceptedPrefixAt(docs: seq<Doc>, accepts: Doc -> bool, n: nat)
    requires n <= |docs|
    requires forall j :: 0 <= j < n ==> accepts(docs[j])
    requires n < |docs| ==> !accepts(docs[n])
    ensures AcceptedPrefix(docs, accepts) == docs[..n]
  {
  }

  /** What indexing one file adds to the vector store: nothing when the read throws. */
  function Added(file: NoteFile, accepts: Doc -> bool): seq<Doc> {
    match file.content
    case Err(_) => []
    case Ok(content) => AcceptedPrefix(FileDocs(file.path, Chunks(content, ChunkSize)), accepts)
  }

  /** Whether the `try` block of `processFiles` completes for the file: it is read and every chunk is stored. */
  predicate Succeeds(file: NoteFile, accepts: Doc -> bool) {
    file.content.Ok? && |Added(file, accepts)| == |Chunks(file.content.value, ChunkSize)|
  }

  /**
    The paths `processFiles` leaves in `indexedFiles` when `ok(file)` says
    whether indexing `file` completed.
  */
  function IndexedPaths(files: seq<NoteFile>, ok: NoteFile -> bool): (r: seq<string>)
    ensures |r| <= |files|
  {
    if files == [] then []
    else
      var last := files[|files| - 1];
      IndexedPaths(files[..|files| - 1], ok) + (if ok(last) then [last.path] else [])
  }

  /** The documents `processFiles` adds to the vector store when `added(file)` is what indexing `file` stores. */
  function StoredDocs(files: seq<NoteFile>, added: NoteFile -> seq<Doc>): seq<Doc> {
    if files == [] then []
    else StoredDocs(files[..|files| - 1], added) + added(files[|files| - 1])
  }

  /** The progress reports of `processFiles` over `total` files, after the first `n`. */
  function Reports(n: nat, total: nat): seq<Progress> {
    seq(n, i requires 0 <= i < n => Progress(i + 1, total))
  }

  /** `allFiles`: the vault files with extension `md`, in vault order. */
  function MarkdownFiles(files: seq<NoteFile>): (r: seq<NoteFile>)
    ensures |r| <= |files|
    ensures forall f :: f in r <==> f in files && f.extension == "md"
  {
    if files == [] then []
    else MarkdownFiles(files[..|files| - 1]) + (if files[|files| - 1].extension == "md" then [files[|files| - 1]] else [])
  }

  /** Indexing a list of files in two parts indexes the parts one after the other. */
  lemma {:induction false} IndexedPathsAppend(a: seq<NoteFile>, b: seq<NoteFile>, ok: NoteFile -> bool, added: NoteFile -> seq<Doc>)
    ensures IndexedPaths(a + b, ok) == IndexedPaths(a, ok) + IndexedPaths(b, ok)
    ensures StoredDocs(a + b, added) == StoredDocs(a, added) + StoredDocs(b, added)
  {
    if b == [] {
      assert a + b == a;
    } else {
      var init := b[..|b| - 1];
      assert (a + b)[..|a + b| - 1] == a + init;
      IndexedPathsAppend(a, init, ok, added);
    }
  }

  /** `indexedFiles` holds exactly the paths of the files whose indexing completed. */
  lemma {:induction false} IndexedPathsMembership(files: seq<NoteFile>, ok: NoteFile -> bool)
    ensures forall k :: 0 <= k < |IndexedPaths(files, ok)| ==>
      exists i :: 0 <= i < |files| && files[i].path == IndexedPaths(files, ok)[k] && ok(files[i])
    ensures forall i :: 0 <= i < |files| && ok(files[i]) ==> files[i].path in IndexedPaths(files, ok)
  {
    if files != [] {
      var init := files[..|files| - 1];
      IndexedPathsMembership(init, ok);
      var r, ri := IndexedPaths(files, ok), IndexedPaths(init, ok);
      forall k | 0 <= k < |IndexedPaths(files, ok)|
        ensures exists i :: 0 <= i < |files| && files[i].path == IndexedPaths(files, ok)[k] && ok(files[i])
      {
        if k < |ri| {
          var i :| 0 <= i < |init| && init[i].path == ri[k] && ok(init[i]);
          assert files[i] == init[i];
        } else {
          assert files[|files| - 1].path == r[k];
        }
      }
      forall i | 0 <= i < |files| && ok(files[i])
        ensures files[i].path in r
      {
        if i < |init| {
          assert init[i] == files[i];
        }
      }
      assert forall k :: 0 <= k < |IndexedPaths(files, ok)| ==>
        exists i :: 0 <= i < |files| && files[i].path == IndexedPaths(files, ok)[k] && ok(files[i]);
    } else {
      assert IndexedPaths(files, ok) == [];
    }
  }

  lemma AppendAssoc(a: seq<Doc>, b: seq<Doc>, c: seq<Doc>)
    ensures a + b + c == a + (b + c)
  {
  }

  /** One more file: `indexedFiles` gains its path when its indexing completes, and the store its documents. */
  lemma IndexedPathsSnoc(files: seq<NoteFile>, i: nat, ok: NoteFile -> bool, added: NoteFile -> seq<Doc>)
    requires i < |files|
    ensures IndexedPaths(files[..i + 1], ok) == IndexedPaths(files[..i], ok) + (if ok(files[i]) then [files[i].path] else [])
    ensures StoredDocs(files[..i + 1], added) == StoredDocs(files[..i], added) + added(files[i])
  {
    assert files[..i + 1][..i] == files[..i];
  }

  /** When every file's indexing completes, `indexedFiles` lists every path, in order. */
  lemma {:induction false} IndexedPathsAllSucceed(files: seq<NoteFile>, ok: NoteFile -> bool)
    requires forall i :: 0 <= i < |files| ==> ok(files[i])
    ensures IndexedPaths(files, ok) == seq(|files|, i requires 0 <= i < |files| => files[i].path)
  {
    if files != [] {
      IndexedPathsAllSucceed(files[..|files| - 1], ok);
    }
  }

  /**
    Every chunk of an indexed file is in the store, in order and numbered
    from 0, so the stored chunks of the file hold the file's words.
  */
  lemma IndexedFileStored(file: NoteFile, accepts: Doc -> bool)
    requires Succeeds(file, accepts)
    ensures Added(file, accepts) == FileDocs(file.path, Chunks(file.content.value, ChunkSize))
    ensures ChunkTokens(Contents(Added(file, accepts))) == Tokens(file.content.value)
  {
    var chunks := Chunks(file.content.value, ChunkSize);
    FullPrefix(FileDocs(file.path, chunks), accepts);
    FileDocsContents(file.path, chunks);
    ChunksPreserveWords(file.content.value, ChunkSize);
  }

  /** The `pageContent` of each document, in order. */
  function Contents(docs: seq<Doc>): (r: seq<string>)
    ensures |r| == |docs| && forall k :: 0 <= k < |docs| ==> r[k] == docs[k].pageContent
  {
    seq(|docs|, k requires 0 <= k < |docs| => docs[k].pageContent)
  }

  lemma FullPrefix(docs: seq<Doc>, accepts: Doc -> bool)
    requires |AcceptedPrefix(docs, accepts)| == |docs|
    ensures AcceptedPrefix(docs, accepts) == docs
  {
  }

  lemma FileDocsContents(path: string, chunks: seq<string>)
    ensures Contents(FileDocs(path, chunks)) == chunks
  {
  }

  /** No document indexing stores holds a newline, so its listing line stays one line. */
  lemma AddedNoNewline(file: NoteFile, accepts: Doc -> bool)
    ensures forall k :: 0 <= k < |Added(file, accepts)| ==> '\n' !in Added(file, accepts)[k].pageContent
  {
    if file.content.Ok? {
      var chunks := Chunks(file.content.value, ChunkSize);
      ChunksSpaced(file.content.value, ChunkSize);
      var docs := FileDocs(file.path, chunks);
      forall k | 0 <= k < |Added(file, accepts)|
        ensures '\n' !in Added(file, accepts)[k].pageContent
      {
        assert Added(file, accepts)[k] == docs[k];
      }
    }
  }

  /**
    A `RAGManager`: the embeddings client chosen at construction, the list
    of indexed paths and the documents of its in-memory vector store.
  */
  class RagManager {
    const revision: Revision
    const provider: string
    const embeddings: EmbeddingClient
    var indexedFiles: seq<string>
    var store: seq<Doc>

    constructor (revision: Revision, settings: RagSettings)
      ensures this.revision == revision
      ensures provider == ProviderOf(settings)
      ensures embeddings == EmbeddingsFor(revision, settings)
      ensures indexedFiles == [] && store == []
    {
      this.revision := revision;
      provider := ProviderOf(settings);
      embeddings := EmbeddingsFor(revision, settings);
      indexedFiles := [];
      store := [];
    }

    /** `getIndexedFilesCount` */
    function IndexedFilesCount(): (n: nat)
      reads this
      ensures n == |indexedFiles|
    {
      |indexedFiles|
    }

    /**
      The inner loop of `processFiles`: each chunk of the file at `path` is
      added as its own document; `ok` is false when an `addDocuments` call
      throws, in which case the chunks added before it stay in the store.
    */
    method AddChunks(path: string, chunks: seq<string>, accepts: Doc -> bool) returns (ok: bool)
      modifies this`store
      ensures store == old(store) + AcceptedPrefix(FileDocs(path, chunks), accepts)
      ensures ok <==> |AcceptedPrefix(FileDocs(path, chunks), accepts)| == |chunks|
    {
      var docs := FileDocs(path, chunks);
      ok := true;
      var j := 0;
      while j < |chunks|
        invariant 0 <= j <= |chunks|
        invariant store == old(store) + docs[..j]
        invariant forall k :: 0 <= k < j ==> accepts(docs[k])
      {
        var doc := Doc(chunks[j], path, j);
        if !accepts(doc) {
          ok := false;
          break;
        }
        assert docs[..j + 1] == docs[..j] + [doc];
        store := store + [doc];
        j := j + 1;
      }
      AcceptedPrefixAt(docs, accepts, j);
    }

    /**
      The `try` block of `processFiles` for one file: read it, chunk it and
      add its chunks; `ok` is whether it completed without throwing.
    */
    method IndexFile(file: NoteFile, accepts: Doc -> bool) returns (ok: bool)
      modifies this`store
      ensures store == old(store) + Added(file, accepts)
      ensures ok <==> Succeeds(file, accepts)
    {
      if file.content.Err? {
        return false;
      }
      var chunks := SplitIntoChunks(file.content.value, ChunkSize);
      ok := AddChunks(file.path, chunks, accepts);
    }

    /** One iteration of `processFiles`: the file is indexed and, when that completes, its path is recorded. */
    method IndexAndRecord(file: NoteFile, accepts: Doc -> bool)
      modifies this`indexedFiles, this`store
      ensures indexedFiles == old(indexedFiles) + (if Succeeds(file, accepts) then [file.path] else [])
      ensures store == old(store) + Added(file, accepts)
    {
      var done := IndexFile(file, accepts);
      if done {
        indexedFiles := indexedFiles + [file.path];
      }
    }

    /**
      `processFiles`: `indexedFiles` is reset and then lists, in order, the
      files whose indexing completed; progress is reported once per file,
      failed or not.
    */
    method ProcessFiles(files: seq<NoteFile>, accepts: Doc -> bool) returns (progress: seq<Progress>)
      modifies this`indexedFiles, this`store
      ensures indexedFiles == IndexedPaths(files, f => Succeeds(f, accepts))
      ensures store == old(store) + StoredDocs(files, f => Added(f, accepts))
      ensures progress == Reports(|files|, |files|)
    {
      ghost var ok, added := f => Succeeds(f, accepts), f => Added(f, accepts);
      indexedFiles := [];
      progress := [];
      for i := 0 to |files|
        invariant indexedFiles == IndexedPaths(files[..i], ok)
        invariant store == old(store) + StoredDocs(files[..i], added)
        invariant |progress| == i && forall k :: 0 <= k < i ==> progress[k] == Progress(k + 1, |files|)
      {
        IndexedPathsSnoc(files, i, ok, added);
        ghost var before := StoredDocs(files[..i], added);
        IndexAndRecord(files[i], accepts);
        AppendAssoc(old(store), before, added(files[i]));
        progress := progress + [Progress(i + 1, |files|)];
      }
      assert files[..|files|] == files;
    }

    /**
      `indexNotes` once the vault is ready: the markdown files are processed
      when there is at least one; otherwise nothing changes, and in particular
      `indexedFiles` is not reset.
    */
    method IndexNotes(vaultFiles: seq<NoteFile>, accepts: Doc -> bool) returns (progress: seq<Progress>)
      modifies this`indexedFiles, this`store
      ensures MarkdownFiles(vaultFiles) == [] ==> indexedFiles == old(indexedFiles) && store == old(store) && progress == []
      ensures MarkdownFiles(vaultFiles) != [] ==>
        && indexedFiles == IndexedPaths(MarkdownFiles(vaultFiles), f => Succeeds(f, accepts))
        && store == old(store) + StoredDocs(MarkdownFiles(vaultFiles), f => Added(f, accepts))
        && progress == Reports(|MarkdownFiles(vaultFiles)|, |MarkdownFiles(vaultFiles)|)
    {
      var allFiles := MarkdownFiles(vaultFiles);
      if |allFiles| > 0 {
        progress := ProcessFiles(allFiles, accepts);
      } else {
        progress := [];
      }
    }
  }
}
