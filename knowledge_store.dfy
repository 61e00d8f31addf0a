/**
 * `KnowledgeStore` of knowledge_store.py: a document log (knowledge_store.jsonl),
 * a matrix of embedding rows with a parallel list of entries, a faiss inner-product
 * index over the rows, and the pickle file (knowledge_index.pkl) they are saved to.
 * The embedding model and the faiss search are given as oracles; files are values.
 */
module KnowledgeStore {
  import opened Wrappers
  import opened Strings
  import opened Chunker

  const DefaultDim: nat := 384
  const ModelName: string := "sentence-transformers/all-MiniLM-L6-v2"
  const Untitled: string := "(bez názvu)"
  const SnippetChars: nat := 450
  /** What numpy says when `np.vstack` is given rows of another width. */
  const VstackError: string := "all the input array dimensions except for the concatenation axis must match exactly"

  /** `DocMeta`: one document as recorded in the log. */
  datatype DocMeta = DocMeta(id: string, title: string, source: string, tags: seq<string>, createdAt: int)

  /** The extra key of an entry: none for manual notes, `url` for web pages, `file` for files. */
  datatype Origin = Manual | FromUrl(url: string) | FromFile(file: string)

  /**
   * One element of `_entries`, the metadata of one vector row; a key missing from
   * an entry read back from the pickle file reads as "" (or no tags).
   */
  datatype Entry = Entry(docId: string, title: string, source: string, tags: seq<string>, chunk: string, origin: Origin)

  type Row = seq<real>

  /** A numpy array of shape `(|rows|, width)`. */
  datatype Matrix = Matrix(rows: seq<Row>, width: nat)

  /** A faiss `IndexFlatIP` of dimension `dim` holding `rows`. */
  datatype FlatIndex = FlatIndex(dim: nat, rows: seq<Row>)

  /** One line of knowledge_store.jsonl. */
  datatype LogLine = BlankLine | DocLine(meta: DocMeta)

  /**
   * What knowledge_index.pkl holds: either something `pickle.load` or the key
   * lookups reject, or the saved dictionary (`dim` is None when the key is absent).
   */
  datatype IndexBlob = Unreadable | Pickled(vectors: Matrix, entries: seq<Entry>, dim: Option<nat>, model: string)

  /** The sentence-transformers model: it maps a text to a row of `width` numbers. */
  datatype Embedder = Embedder(encode: string -> Row, width: nat)

  /** One `(score, idx)` pair of faiss's answer; `idx` is -1 where faiss found fewer rows. */
  datatype Hit = Hit(score: real, idx: int)

  /** faiss's `index.search(q, k)`. */
  type Faiss = (FlatIndex, Row, nat) -> seq<Hit>

  datatype SearchResult = SearchResult(title: string, source: string, tags: seq<string>, score: real, snippet: string)

  /**
   * An `os.listdir` entry: its name, whether it is a regular file, the text read
   * from it, and the clock reading (`_now_ts()`) taken when it is added.
   */
  datatype FolderEntry = FolderEntry(name: string, isFile: bool, text: string, addedAt: int)

  /** The `{"docs": …, "chunks": …}` answer of `reindex_folder`. */
  datatype Counts = Counts(docs: nat, chunks: nat)

  function Min(a: int, b: int): int {
    if a < b then a else b
  }

  // ---------- the document log ----------

  /** The documents `_load_store` reads back from the log: one per non-blank line, in order. */
  function DocsOf(log: seq<LogLine>): (docs: seq<DocMeta>)
    ensures |docs| <= |log|
  {
    if log == [] then []
    else DocsOf(log[..|log| - 1]) + (match log[|log| - 1] case BlankLine => [] case DocLine(m) => [m])
  }

  /** Reading two logs one after the other reads the documents of both, in order. */
  lemma {:induction false} DocsOfConcat(a: seq<LogLine>, b: seq<LogLine>)
    ensures DocsOf(a + b) == DocsOf(a) + DocsOf(b)
    decreases |b|
  {
    if b == [] {
      assert a + b == a;
    } else {
      var b' := b[..|b| - 1];
      DocsOfConcat(a, b');
      assert (a + b)[..|a + b| - 1] == a + b';
      assert (a + b)[|a + b| - 1] == b[|b| - 1];
    }
  }

  /** `f"doc-{n+1}"` for a store that holds `n` documents. */
  function DocId(n: nat): string {
    "doc-" + NatToString(n + 1)
  }

  /** Document ids issued at different store sizes differ. */
  lemma DocIdInjective(a: nat, b: nat)
    requires DocId(a) == DocId(b)
    ensures a == b
  {
    assert NatToString(a + 1) == DocId(a)[4..];
    assert NatToString(b + 1) == DocId(b)[4..];
    NatToStringInjective(a + 1, b + 1);
  }

  // ---------- the index file ----------

  datatype Loaded = Loaded(vectors: Matrix, entries: seq<Entry>, dim: nat)

  /**
   * Whether `_load_index` keeps what the file holds: the file exists, unpickles
   * to the dictionary, and faiss accepts its rows into an index of its `dim`.
   */
  predicate Loadable(file: Option<IndexBlob>) {
    file.Some? && file.value.Pickled? && file.value.vectors.width == file.value.dim.GetOr(DefaultDim)
  }

  /**
   * The `_vectors`, `_entries` and `_dim` that `_load_index` leaves, from the file
   * (None when it does not exist) and the `_dim` it starts with. Every failure
   * falls back to an empty matrix and no entries, of the dimension reached so far.
   */
  function LoadIndexState(file: Option<IndexBlob>, dim: nat): (l: Loaded)
    ensures Loadable(file) ==> l == Loaded(file.value.vectors, file.value.entries, file.value.vectors.width)
    ensures !Loadable(file) ==> l.vectors == Matrix([], l.dim) && l.entries == []
    ensures !Loadable(file) && file.Some? && file.value.Pickled? ==> l.dim == file.value.dim.GetOr(DefaultDim)
    ensures !(file.Some? && file.value.Pickled?) ==> l.dim == dim
  {
    if file.Some? && file.value.Pickled? then
      var d := file.value.dim.GetOr(DefaultDim);
      if file.value.vectors.width == d then Loaded(file.value.vectors, file.value.entries, d)
      else Loaded(Matrix([], d), [], d)
    else Loaded(Matrix([], dim), [], dim)
  }

  /**
   * Loading what `_save_index` wrote gives back its rows and entries exactly when
   * the rows are as wide as the saved `_dim`; otherwise the load falls back to
   * empty (the width of the first batch is never written to `_dim`).
   */
  lemma SaveLoadRoundTrip(v: Matrix, es: seq<Entry>, dim: nat, model: string, dim0: nat)
    ensures LoadIndexState(Some(Pickled(v, es, Some(dim), model)), dim0) == Loaded(v, es, dim) <==> v.width == dim
  {
    if v.width != dim {
      assert LoadIndexState(Some(Pickled(v, es, Some(dim), model)), dim0).vectors.width == dim;
    }
  }

  // ---------- appending rows ----------

  /** The part of the store `_add_vectors` changes: `_vectors`, `_entries` and `_index`. */
  datatype Rows = Rows(vectors: Matrix, entries: seq<Entry>, index: FlatIndex)

  /** `vectors.size == 0`. */
  predicate EmptyBatch(batch: Matrix) {
    |batch.rows| == 0 || batch.width == 0
  }

  /**
   * What `_add_vectors` leaves in `_vectors`, `_entries` and `_index`; None when
   * `np.vstack` raises because the batch has another width than the stored rows.
   */
  function AddRows(s: Rows, batch: Matrix, batchEntries: seq<Entry>): (r: Option<Rows>)
    ensures r.None? <==> !EmptyBatch(batch) && s.vectors.rows != [] && batch.width != s.vectors.width
    ensures EmptyBatch(batch) ==> r == Some(s)
  {
    if EmptyBatch(batch) then Some(s)
    else if s.vectors.rows == [] then Some(Rows(batch, batchEntries, FlatIndex(batch.width, batch.rows)))
    else if batch.width != s.vectors.width then None
    else Some(Rows(Matrix(s.vectors.rows + batch.rows, s.vectors.width), s.entries + batchEntries,
                   FlatIndex(s.index.dim, s.index.rows + batch.rows)))
  }

  /**
   * On an aligned store, adding an aligned batch appends the batch's rows and
   * entries after the old ones, so row count and entry count stay equal.
   */
  lemma AddRowsAppends(s: Rows, batch: Matrix, batchEntries: seq<Entry>)
    requires |s.vectors.rows| == |s.entries| && |batch.rows| == |batchEntries| && 0 < batch.width
    requires AddRows(s, batch, batchEntries).Some?
    ensures var a := AddRows(s, batch, batchEntries).value;
      && a.vectors.rows == s.vectors.rows + batch.rows
      && a.entries == s.entries + batchEntries
      && |a.vectors.rows| == |a.entries|
  {
    if s.vectors.rows == [] {
      assert s.entries == [];
    }
  }

  /** The index holds exactly the stored rows, at their width. */
  predicate IndexMirrors(s: Rows) {
    s.index.rows == s.vectors.rows && (s.vectors.rows != [] ==> s.index.dim == s.vectors.width)
  }

  /** Adding rows keeps the index holding exactly the stored rows. */
  lemma AddRowsKeepsIndex(s: Rows, batch: Matrix, batchEntries: seq<Entry>)
    requires IndexMirrors(s) && AddRows(s, batch, batchEntries).Some?
    ensures IndexMirrors(AddRows(s, batch, batchEntries).value)
  {
  }

  // ---------- ingesting a text ----------

  /** `self._embed(texts)`: no rows, of width `_dim`, for no texts. */
  function Embed(texts: seq<string>, emb: Embedder, dim: nat): (m: Matrix)
    ensures |m.rows| == |texts|
    ensures texts != [] ==> m.width == emb.width
  {
    if texts == [] then Matrix([], dim)
    else Matrix(seq(|texts|, k requires 0 <= k < |texts| => emb.encode(texts[k])), emb.width)
  }

  /** The entries built for the chunks of one document, one per chunk, in order. */
  function EntriesFor(meta: DocMeta, chunks: seq<string>, origin: Origin): (es: seq<Entry>)
    ensures |es| == |chunks|
  {
    seq(|chunks|, k requires 0 <= k < |chunks| => Entry(meta.id, meta.title, meta.source, meta.tags, chunks[k], origin))
  }

  /** Every entry built for a document carries its id and one of its chunks, in order. */
  lemma EntriesForDoc(meta: DocMeta, chunks: seq<string>, origin: Origin)
    ensures forall k :: 0 <= k < |chunks| ==>
      EntriesFor(meta, chunks, origin)[k].docId == meta.id && EntriesFor(meta, chunks, origin)[k].chunk == chunks[k]
  {
  }

  /** The chunks `_chunk_text` makes of a text with the default window. */
  function DefaultChunks(text: string): seq<string> {
    Chunks(text, DefaultMaxChars, DefaultOverlap)
  }

  // ---------- search ----------

  /** faiss answers with at most `k` pairs. */
  ghost predicate FaissAnswersAtMost(faiss: Faiss) {
    forall ix, q, k :: |faiss(ix, q, k)| <= k
  }

  /** The result dictionary built from an entry. */
  function ToResult(e: Entry, score: real): SearchResult {
    SearchResult(if e.title == [] then Untitled else e.title, e.source, e.tags, score, PyPrefix(e.chunk, SnippetChars))
  }

  /** The results of the loop over faiss's pairs: pairs whose index is not a stored row are skipped. */
  function Results(entries: seq<Entry>, hits: seq<Hit>): (out: seq<SearchResult>)
    ensures |out| <= |hits|
    ensures forall r <- out :: r.title != [] && |r.snippet| <= SnippetChars
    ensures forall r <- out :: exists h <- hits :: 0 <= h.idx < |entries| && r == ToResult(entries[h.idx], h.score)
  {
    if hits == [] then []
    else
      var h := hits[|hits| - 1];
      Results(entries, hits[..|hits| - 1]) + (if 0 <= h.idx < |entries| then [ToResult(entries[h.idx], h.score)] else [])
  }

  /** Every pair that names a stored row gives a result. */
  lemma {:induction false} ResultsCount(entries: seq<Entry>, hits: seq<Hit>)
    requires forall h <- hits :: 0 <= h.idx < |entries|
    ensures |Results(entries, hits)| == |hits|
    decreases |hits|
  {
    if hits != [] {
      ResultsCount(entries, hits[..|hits| - 1]);
    }
  }

  // ---------- reindexing ----------

  /** A regular file whose lower-cased name ends in `.md`, `.txt` or `.pdf`. */
  predicate Indexable(e: FolderEntry) {
    e.isFile && (EndsWith(Lower(e.name), ".md") || EndsWith(Lower(e.name), ".txt") || EndsWith(Lower(e.name), ".pdf"))
  }

  /** The listing's indexable files, in listing order. */
  function Indexed(listing: seq<FolderEntry>): (r: seq<FolderEntry>)
    ensures |r| <= |listing|
  {
    if listing == [] then []
    else Indexed(listing[..|listing| - 1]) + (if Indexable(listing[|listing| - 1]) then [listing[|listing| - 1]] else [])
  }

  /** The number of chunks the files are cut into. */
  function ChunkTotal(files: seq<FolderEntry>): nat {
    if files == [] then 0 else ChunkTotal(files[..|files| - 1]) + |DefaultChunks(files[|files| - 1].text)|
  }

  /** What one listing entry adds: its indexable files and their chunks. */
  function EntryCounts(e: FolderEntry): Counts {
    Counts(|Indexed([e])|, ChunkTotal(Indexed([e])))
  }

  /** A single listing entry counts one document and its chunks when it is indexable, else nothing. */
  lemma EntryCountsOf(e: FolderEntry)
    ensures Indexable(e) ==> EntryCounts(e) == Counts(1, |DefaultChunks(e.text)|)
    ensures !Indexable(e) ==> EntryCounts(e) == Counts(0, 0)
  {
    var one := [e];
    assert one[..|one| - 1] == [];
    if Indexable(e) {
      assert Indexed(one) == [e];
      assert ChunkTotal(one) == |DefaultChunks(e.text)|;
    } else {
      assert Indexed(one) == [];
    }
  }

  /** The totals after the first `i` listing entries. */
  function Tally(listing: seq<FolderEntry>, i: nat): Counts
    requires i <= |listing|
  {
    Counts(|Indexed(listing[..i])|, ChunkTotal(Indexed(listing[..i])))
  }

  /** The totals grow entry by entry. */
  lemma TallyStep(listing: seq<FolderEntry>, i: nat, c: Counts)
    requires i < |listing| && c == Tally(listing, i)
    ensures Tally(listing, i + 1) == Counts(c.docs + EntryCounts(listing[i]).docs, c.chunks + EntryCounts(listing[i]).chunks)
  {
    ReindexStep(listing, i);
  }

  /** One more listing entry adds its own indexable files and chunks to the totals. */
  lemma ReindexStep(listing: seq<FolderEntry>, i: nat)
    requires i < |listing|
    ensures Indexed(listing[..i + 1]) == Indexed(listing[..i]) + Indexed([listing[i]])
    ensures ChunkTotal(Indexed(listing[..i + 1])) == ChunkTotal(Indexed(listing[..i])) + ChunkTotal(Indexed([listing[i]]))
  {
    IndexedStep(listing, i);
    var e := listing[i];
    assert Indexed([e]) == Indexed([]) + (if Indexable(e) then [e] else []);
    if Indexable(e) {
      ChunkTotalStep(Indexed(listing[..i]), e);
      assert ChunkTotal([e]) == ChunkTotal([]) + |DefaultChunks(e.text)| by {
        assert [e][..0] == [];
      }
    } else {
      assert Indexed(listing[..i]) + [] == Indexed(listing[..i]);
    }
  }

  lemma IndexedStep(listing: seq<FolderEntry>, i: nat)
    requires i < |listing|
    ensures Indexed(listing[..i + 1]) == Indexed(listing[..i]) + (if Indexable(listing[i]) then [listing[i]] else [])
  {
    assert listing[..i + 1][..i] == listing[..i];
  }

  lemma ChunkTotalStep(files: seq<FolderEntry>, f: FolderEntry)
    ensures ChunkTotal(files + [f]) == ChunkTotal(files) + |DefaultChunks(f.text)|
  {
    assert (files + [f])[..|files|] == files;
  }

  /** A listing with no indexable file adds no document and no chunk. */
  lemma {:induction false} NothingIndexable(listing: seq<FolderEntry>)
    requires forall e <- listing :: !Indexable(e)
    ensures Indexed(listing) == [] && ChunkTotal(Indexed(listing)) == 0
    decreases |listing|
  {
    if listing != [] {
      NothingIndexable(listing[..|listing| - 1]);
    }
  }

  /** The document `add_from_file` records for a listed file when `n` documents are stored. */
  function FileMeta(f: FolderEntry, n: nat): DocMeta {
    DocMeta(DocId(n), f.name, "file", [], f.addedAt)
  }

  /** The entries `add_from_file` builds for that file: one per chunk, each naming the file. */
  function FileEntries(f: FolderEntry, n: nat): seq<Entry> {
    EntriesFor(FileMeta(f, n), DefaultChunks(f.text), FromFile(f.name))
  }

  /** The documents recorded for `files` added one after another to a store of `start` documents. */
  function FolderDocs(files: seq<FolderEntry>, start: nat): (r: seq<DocMeta>)
    ensures |r| == |files|
  {
    if files == [] then []
    else FolderDocs(files[..|files| - 1], start) + [FileMeta(files[|files| - 1], start + |files| - 1)]
  }

  /**
   * The `k`-th document recorded is the `k`-th file's: numbered `start + k`,
   * titled by the file's name and stamped with the clock reading of its own add.
   */
  lemma {:induction false} FolderDocsSpec(files: seq<FolderEntry>, start: nat)
    ensures forall k :: 0 <= k < |files| ==>
      FolderDocs(files, start)[k] == DocMeta(DocId(start + k), files[k].name, "file", [], files[k].addedAt)
    decreases |files|
  {
    if files != [] {
      var init := files[..|files| - 1];
      FolderDocsSpec(init, start);
      forall k | 0 <= k < |files| - 1
        ensures FolderDocs(files, start)[k] == DocMeta(DocId(start + k), files[k].name, "file", [], files[k].addedAt)
      {
        assert files[k] == init[k];
      }
    }
  }

  /** The entries built for `files` added one after another to a store of `start` documents. */
  function FolderEntries(files: seq<FolderEntry>, start: nat): seq<Entry> {
    if files == [] then []
    else FolderEntries(files[..|files| - 1], start) + FileEntries(files[|files| - 1], start + |files| - 1)
  }

  /** One more listing entry appends its document, if it is indexable. */
  lemma FolderDocsStep(listing: seq<FolderEntry>, i: nat, start: nat)
    requires i < |listing|
    ensures var before := Indexed(listing[..i]); var e := listing[i];
      FolderDocs(Indexed(listing[..i + 1]), start)
      == FolderDocs(before, start) + (if Indexable(e) then [FileMeta(e, start + |before|)] else [])
  {
    IndexedStep(listing, i);
    var before := Indexed(listing[..i]);
    if Indexable(listing[i]) {
      FolderDocsSnoc(before, listing[i], start);
    } else {
      assert before + [] == before;
    }
  }

  /** One more indexable file appends its entries; any other entry appends nothing. */
  lemma FolderEntriesGrow(before: seq<FolderEntry>, after: seq<FolderEntry>, e: FolderEntry, start: nat)
    requires after == before + (if Indexable(e) then [e] else [])
    ensures Indexable(e) ==> FolderEntries(after, start) == FolderEntries(before, start) + FileEntries(e, start + |before|)
    ensures !Indexable(e) ==> FolderEntries(after, start) == FolderEntries(before, start)
  {
    if Indexable(e) {
      FolderEntriesSnoc(before, e, start);
    } else {
      assert after == before;
    }
  }

  lemma FolderDocsSnoc(files: seq<FolderEntry>, f: FolderEntry, start: nat)
    ensures FolderDocs(files + [f], start) == FolderDocs(files, start) + [FileMeta(f, start + |files|)]
  {
    var all := files + [f];
    assert all[..|all| - 1] == files;
  }

  lemma FolderEntriesSnoc(files: seq<FolderEntry>, f: FolderEntry, start: nat)
    ensures FolderEntries(files + [f], start) == FolderEntries(files, start) + FileEntries(f, start + |files|)
  {
    var all := files + [f];
    assert all[..|all| - 1] == files;
  }

  lemma Concat3<T>(x0: seq<T>, x1: seq<T>, x2: seq<T>, a: seq<T>, b: seq<T>, c: seq<T>)
    requires x1 == x0 + a && x2 == x1 + b && c == a + b
    ensures x2 == x0 + c
  {
  }

  /**
   * What `reindex_folder` has added after the first `i` listing entries: the
   * documents `docs` extend `docs0` by one per indexable file and, on an aligned
   * store, the entries `entries` extend `entries0` by those files' entries.
   */
  ghost predicate Reindexed(listing: seq<FolderEntry>, i: nat, width: nat, aligned: bool,
                            docs0: seq<DocMeta>, entries0: seq<Entry>, docs: seq<DocMeta>, entries: seq<Entry>)
    requires i <= |listing|
  {
    && docs == docs0 + FolderDocs(Indexed(listing[..i]), |docs0|)
    && (aligned ==> entries == entries0 + (if width == 0 then [] else FolderEntries(Indexed(listing[..i]), |docs0|)))
  }

  /**
   * What `reindex_folder` leaves behind when adding the `i`-th listing entry
   * fails in `np.vstack`: that entry is an indexable file whose document was
   * already recorded, after those of the files before it, while the entries are
   * only those of the files before it.
   */
  ghost predicate ReindexFailed(listing: seq<FolderEntry>, i: nat, width: nat, aligned: bool,
                                docs0: seq<DocMeta>, entries0: seq<Entry>, docs: seq<DocMeta>, entries: seq<Entry>)
    requires i < |listing|
  {
    && Indexable(listing[i])
    && docs == docs0 + FolderDocs(Indexed(listing[..i + 1]), |docs0|)
    && (aligned ==> entries == entries0 + (if width == 0 then [] else FolderEntries(Indexed(listing[..i]), |docs0|)))
  }

  /** The documents `reindex_folder` has recorded grow by the next entry's document. */
  lemma FolderDocsAppend(listing: seq<FolderEntry>, i: nat, docs0: seq<DocMeta>, docs1: seq<DocMeta>, docs2: seq<DocMeta>)
    requires i < |listing|
    requires docs1 == docs0 + FolderDocs(Indexed(listing[..i]), |docs0|)
    requires docs2 == docs1 + (if Indexable(listing[i]) then [FileMeta(listing[i], |docs1|)] else [])
    ensures docs2 == docs0 + FolderDocs(Indexed(listing[..i + 1]), |docs0|)
  {
    FolderDocsStep(listing, i, |docs0|);
    var before := Indexed(listing[..i]);
    var step := if Indexable(listing[i]) then [FileMeta(listing[i], |docs0| + |before|)] else [];
    assert |docs1| == |docs0| + |before|;
    Concat3(docs0, docs1, docs2, FolderDocs(before, |docs0|), step, FolderDocs(Indexed(listing[..i + 1]), |docs0|));
  }

  /** The entries `reindex_folder` has added grow by the next entry's entries. */
  lemma FolderEntriesAppend(listing: seq<FolderEntry>, i: nat, start: nat, n: nat,
                            entries0: seq<Entry>, entries1: seq<Entry>, entries2: seq<Entry>)
    requires i < |listing| && n == start + |Indexed(listing[..i])|
    requires entries1 == entries0 + FolderEntries(Indexed(listing[..i]), start)
    requires entries2 == entries1 + (if Indexable(listing[i]) then FileEntries(listing[i], n) else [])
    ensures entries2 == entries0 + FolderEntries(Indexed(listing[..i + 1]), start)
  {
    var before := Indexed(listing[..i]);
    IndexedStep(listing, i);
    FolderEntriesGrow(before, Indexed(listing[..i + 1]), listing[i], start);
    var step := if Indexable(listing[i]) then FileEntries(listing[i], n) else [];
    assert FolderEntries(Indexed(listing[..i + 1]), start) == FolderEntries(before, start) + step;
    Concat3(entries0, entries1, entries2, FolderEntries(before, start), step, FolderEntries(Indexed(listing[..i + 1]), start));
  }

  // ---------- the store ----------

  class Store {
    var docs: seq<DocMeta>
    /** knowledge_store.jsonl. */
    var storeLog: seq<LogLine>
    var vectors: Matrix
    var entries: seq<Entry>
    var index: FlatIndex
    var dim: nat
    /** knowledge_index.pkl; None while it does not exist. */
    var indexFile: Option<IndexBlob>
    const modelName: string

    /**
     * The index holds exactly the stored rows at their width, and the documents
     * are what the log reads back as.
     */
    ghost predicate Valid()
      reads this
    {
      IndexMirrors(State()) && docs == DocsOf(storeLog)
    }

    function State(): Rows
      reads this
    {
      Rows(vectors, entries, index)
    }

    /** One entry per stored row. */
    predicate Aligned()
      reads this
    {
      |vectors.rows| == |entries|
    }

    /** What `_save_index` writes. */
    function Snapshot(): IndexBlob
      reads this
    {
      Pickled(vectors, entries, Some(dim), modelName)
    }

    /**
     * `KnowledgeStore(root)`: `storeFile` is the log (None when it does not exist,
     * in which case an empty one is created) and `pickle` the index file.
     */
    constructor (storeFile: Option<seq<LogLine>>, pickle: Option<IndexBlob>)
      ensures Valid()
      ensures storeLog == storeFile.GetOr([]) && indexFile == pickle && modelName == ModelName
      ensures var l := LoadIndexState(pickle, DefaultDim);
        vectors == l.vectors && entries == l.entries && dim == l.dim
    {
      modelName := ModelName;
      dim := DefaultDim;
      storeLog := storeFile.GetOr([]);
      indexFile := pickle;
      docs := [];
      vectors := Matrix([], DefaultDim);
      entries := [];
      index := FlatIndex(DefaultDim, []);
      new;
      LoadStore();
      LoadIndex();
    }

    /** `_load_store`: the documents of the non-blank log lines, in order. */
    method LoadStore()
      modifies this
      ensures docs == DocsOf(storeLog)
      ensures storeLog == old(storeLog) && vectors == old(vectors) && entries == old(entries)
      ensures index == old(index) && dim == old(dim) && indexFile == old(indexFile)
    {
      var lines := storeLog;
      var loaded: seq<DocMeta> := [];
      var i := 0;
      while i < |lines|
        invariant 0 <= i <= |lines|
        invariant loaded == DocsOf(lines[..i])
      {
        assert lines[..i + 1][..i] == lines[..i];
        if lines[i].DocLine? {
          loaded := loaded + [lines[i].meta];
        }
        i := i + 1;
      }
      assert lines[..|lines|] == lines;
      docs := loaded;
    }

    /** `_save_doc`: one line appended to the log and one document to the list. */
    method SaveDoc(meta: DocMeta)
      requires Valid()
      modifies this
      ensures Valid()
      ensures storeLog == old(storeLog) + [DocLine(meta)] && docs == old(docs) + [meta]
      ensures vectors == old(vectors) && entries == old(entries) && index == old(index)
      ensures dim == old(dim) && indexFile == old(indexFile)
    {
      storeLog := storeLog + [DocLine(meta)];
      docs := docs + [meta];
      assert storeLog[..|storeLog| - 1] == old(storeLog);
    }

    /** `_load_index`, with the fallback to an empty index of the current `_dim`. */
    method LoadIndex()
      modifies this
      ensures var l := LoadIndexState(indexFile, old(dim));
        vectors == l.vectors && entries == l.entries && dim == l.dim && index == FlatIndex(l.dim, l.vectors.rows)
      ensures docs == old(docs) && storeLog == old(storeLog) && indexFile == old(indexFile)
    {
      if indexFile.Some? && indexFile.value.Pickled? {
        var data := indexFile.value;
        vectors := data.vectors;
        entries := data.entries;
        dim := data.dim.GetOr(DefaultDim);
        index := FlatIndex(dim, []);
        // faiss refuses rows whose width is not the index dimension
        if vectors.width == dim {
          index := FlatIndex(dim, vectors.rows);
          return;
        }
      }
      index := FlatIndex(dim, []);
      vectors := Matrix([], dim);
      entries := [];
    }

    /** `_save_index`. */
    method SaveIndex()
      modifies this
      ensures indexFile == Some(old(Snapshot()))
      ensures docs == old(docs) && storeLog == old(storeLog) && vectors == old(vectors)
      ensures entries == old(entries) && index == old(index) && dim == old(dim)
    {
      indexFile := Some(Pickled(vectors, entries, Some(dim), modelName));
    }

    /**
     * `_add_vectors`: `ok` is false when `np.vstack` raises, and then nothing has
     * changed; an empty batch changes nothing and saves nothing.
     */
    method AddVectors(batch: Matrix, batchEntries: seq<Entry>) returns (ok: bool)
      requires Valid()
      modifies this
      ensures Valid()
      ensures var a := AddRows(old(State()), batch, batchEntries);
        (ok <==> a.Some?) && State() == (if ok then a.value else old(State()))
      ensures indexFile == if !ok || EmptyBatch(batch) then old(indexFile) else Some(Snapshot())
      ensures docs == old(docs) && storeLog == old(storeLog) && dim == old(dim)
    {
      if EmptyBatch(batch) {
        return true;
      }
      if vectors.rows == [] {
        vectors := batch;
        entries := batchEntries;
        index := FlatIndex(batch.width, batch.rows);
      } else {
        if batch.width != vectors.width {
          return false;
        }
        vectors := Matrix(vectors.rows + batch.rows, vectors.width);
        entries := entries + batchEntries;
        index := FlatIndex(index.dim, index.rows + batch.rows);
      }
      SaveIndex();
      ok := true;
    }

    /**
     * The pipeline shared by `add_manual`, `add_from_url` and `add_from_file`: the
     * document is recorded first, then its chunks are embedded and added. The
     * answer is `(doc_id, number of chunks)`, or the error `_add_vectors` raised.
     */
    method Ingest(title: string, source: string, tags: seq<string>, text: string, origin: Origin, now: int, emb: Embedder)
      returns (r: Result<(string, nat), string>)
      requires Valid()
      modifies this
      ensures Valid() && dim == old(dim)
      ensures docs == old(docs) + [DocMeta(DocId(|old(docs)|), title, source, tags, now)]
      ensures var meta := DocMeta(DocId(|old(docs)|), title, source, tags, now);
        var chunks := DefaultChunks(text);
        var a := AddRows(old(State()), Embed(chunks, emb, old(dim)), EntriesFor(meta, chunks, origin));
        && (r.Ok? <==> a.Some?)
        && State() == (if r.Ok? then a.value else old(State()))
        && r == (if r.Ok? then Ok((meta.id, |chunks|)) else Err(VstackError))
      ensures old(Aligned()) ==> Aligned()
      ensures var meta := DocMeta(DocId(|old(docs)|), title, source, tags, now);
        r.Ok? && old(Aligned()) ==>
          entries == old(entries) + (if emb.width == 0 then [] else EntriesFor(meta, DefaultChunks(text), origin))
    {
      var meta := DocMeta(DocId(|docs|), title, source, tags, now);
      SaveDoc(meta);
      r := AddChunks(meta, text, origin, emb);
    }

    /** The second half of the pipeline: chunk, embed, add. */
    method AddChunks(meta: DocMeta, text: string, origin: Origin, emb: Embedder)
      returns (r: Result<(string, nat), string>)
      requires Valid()
      modifies this
      ensures Valid() && dim == old(dim) && docs == old(docs)
      ensures var chunks := DefaultChunks(text);
        var a := AddRows(old(State()), Embed(chunks, emb, old(dim)), EntriesFor(meta, chunks, origin));
        && (r.Ok? <==> a.Some?)
        && State() == (if r.Ok? then a.value else old(State()))
        && r == (if r.Ok? then Ok((meta.id, |chunks|)) else Err(VstackError))
      ensures old(Aligned()) ==> Aligned()
      ensures r.Ok? && old(Aligned()) ==>
        entries == old(entries) + (if emb.width == 0 then [] else EntriesFor(meta, DefaultChunks(text), origin))
    {
      var chunks := DefaultChunks(text);
      var batch := Embed(chunks, emb, dim);
      var batchEntries := EntriesFor(meta, chunks, origin);
      if Aligned() && !EmptyBatch(batch) && AddRows(State(), batch, batchEntries).Some? {
        AddRowsAppends(State(), batch, batchEntries);
      }
      var ok := AddVectors(batch, batchEntries);
      if !ok {
        return Err(VstackError);
      }
      r := Ok((meta.id, |chunks|));
    }

    /**
     * `add_manual`: one document titled `title` (or "(bez názvu)"), source
     * "manual"; on an aligned store its entries, one per chunk, follow the old
     * ones. Blank content still records the document, with no chunk.
     */
    method AddManual(title: string, content: string, tags: seq<string>, now: int, emb: Embedder)
      returns (r: Result<(string, nat), string>)
      requires Valid()
      modifies this
      ensures Valid()
      ensures var meta := DocMeta(DocId(|old(docs)|), if title == [] then Untitled else title, "manual", tags, now);
        var chunks := DefaultChunks(content);
        var a := AddRows(old(State()), Embed(chunks, emb, old(dim)), EntriesFor(meta, chunks, Manual));
        && docs == old(docs) + [meta]
        && (r.Ok? <==> a.Some?) && State() == (if r.Ok? then a.value else old(State()))
        && r == (if r.Ok? then Ok((meta.id, |chunks|)) else Err(VstackError))
        && (old(Aligned()) ==> Aligned())
        && (r.Ok? && old(Aligned()) ==>
              entries == old(entries) + (if emb.width == 0 then [] else EntriesFor(meta, chunks, Manual)))
      ensures r.Err? <==> old(vectors.rows) != [] && DefaultChunks(content) != [] && 0 < emb.width && emb.width != old(vectors.width)
      ensures AllSpace(content) ==> r.Ok? && r.value.1 == 0 && State() == old(State())
    {
      ChunksEmptyIffBlank(content, DefaultMaxChars, DefaultOverlap);
      r := Ingest(if title == [] then Untitled else title, "manual", tags, content, Manual, now, emb);
    }

    /**
     * `add_from_url` once the page is fetched: `contentType` is the response's
     * content type, `pageTitle` the text of the HTML `<title>` when there is one,
     * `text` the extracted text. A PDF (by content type or by URL) keeps the URL
     * as title; tags are ["web"] and every entry records the URL.
     */
    method AddFromUrl(url: string, contentType: string, pageTitle: Option<string>, text: string, now: int, emb: Embedder)
      returns (r: Result<(string, nat), string>)
      requires Valid()
      modifies this
      ensures Valid()
      ensures var isPdf := Contains(Lower(contentType), "pdf") || EndsWith(Lower(url), ".pdf");
        var title := if !isPdf && pageTitle.Some? && Strip(pageTitle.value) != [] then Strip(pageTitle.value) else url;
        var meta := DocMeta(DocId(|old(docs)|), title, "url", ["web"], now);
        var chunks := DefaultChunks(text);
        var a := AddRows(old(State()), Embed(chunks, emb, old(dim)), EntriesFor(meta, chunks, FromUrl(url)));
        && docs == old(docs) + [meta]
        && (r.Ok? <==> a.Some?) && State() == (if r.Ok? then a.value else old(State()))
        && r == (if r.Ok? then Ok((meta.id, |chunks|)) else Err(VstackError))
        && (old(Aligned()) ==> Aligned())
        && (r.Ok? && old(Aligned()) ==>
              entries == old(entries) + (if emb.width == 0 then [] else EntriesFor(meta, chunks, FromUrl(url))))
    {
      var ctype := Lower(contentType);
      var title := url;
      if !(Contains(ctype, "pdf") || EndsWith(Lower(url), ".pdf")) {
        if pageTitle.Some? {
          title := Strip(pageTitle.value);
        }
      }
      r := Ingest(if title == [] then url else title, "url", ["web"], text, FromUrl(url), now, emb);
    }

    /**
     * `add_from_file` once the file is read: `base` is the file's base name and
     * `text` its text. The title is `title` or else the base name; every entry
     * records the base name.
     */
    method AddFromFile(base: string, text: string, title: string, tags: seq<string>, now: int, emb: Embedder)
      returns (r: Result<(string, nat), string>)
      requires Valid()
      modifies this
      ensures Valid()
      ensures var meta := DocMeta(DocId(|old(docs)|), if title == [] then base else title, "file", tags, now);
        var chunks := DefaultChunks(text);
        var a := AddRows(old(State()), Embed(chunks, emb, old(dim)), EntriesFor(meta, chunks, FromFile(base)));
        && docs == old(docs) + [meta]
        && (r.Ok? <==> a.Some?) && State() == (if r.Ok? then a.value else old(State()))
        && r == (if r.Ok? then Ok((meta.id, |chunks|)) else Err(VstackError))
        && (old(Aligned()) ==> Aligned())
        && (r.Ok? && old(Aligned()) ==>
              entries == old(entries) + (if emb.width == 0 then [] else EntriesFor(meta, chunks, FromFile(base))))
    {
      r := Ingest(if title == [] then base else title, "file", tags, text, FromFile(base), now, emb);
    }

    /**
     * The body of `reindex_folder`'s loop for one listing entry: an indexable
     * file is added as a document titled by its name; the answer counts the
     * documents and chunks added.
     */
    method ReindexEntry(e: FolderEntry, emb: Embedder) returns (r: Result<Counts, string>)
      requires Valid()
      modifies this
      ensures Valid() && (old(Aligned()) ==> Aligned())
      ensures r.Ok? ==> r.value == EntryCounts(e)
      ensures r.Ok? ==> docs == old(docs) + (if Indexable(e) then [FileMeta(e, |old(docs)|)] else [])
      ensures r.Ok? && old(Aligned()) ==>
        entries == old(entries) + (if Indexable(e) && emb.width != 0 then FileEntries(e, |old(docs)|) else [])
      ensures r.Err? ==> Indexable(e) && docs == old(docs) + [FileMeta(e, |old(docs)|)] && entries == old(entries)
    {
      EntryCountsOf(e);
      if !Indexable(e) {
        return Ok(Counts(0, 0));
      }
      var res := AddFromFile(e.name, e.text, "", [], e.addedAt, emb);
      if res.Err? {
        return Err(res.error);
      }
      r := Ok(Counts(1, res.value.1));
    }

    /**
     * One pass of `reindex_folder`'s loop: the `i`-th listing entry is handled and
     * the running counts `added` grow by what it added.
     */
    method ReindexNext(listing: seq<FolderEntry>, i: nat, added: Counts, emb: Embedder,
                       ghost docs0: seq<DocMeta>, ghost entries0: seq<Entry>, ghost aligned: bool)
      returns (r: Result<Counts, string>)
      requires Valid() && i < |listing| && (aligned ==> Aligned()) && added == Tally(listing, i)
      requires Reindexed(listing, i, emb.width, aligned, docs0, entries0, docs, entries)
      modifies this
      ensures Valid() && (aligned ==> Aligned())
      ensures r.Ok? ==> r.value == Tally(listing, i + 1)
      ensures r.Ok? ==> Reindexed(listing, i + 1, emb.width, aligned, docs0, entries0, docs, entries)
      ensures r.Err? ==> ReindexFailed(listing, i, emb.width, aligned, docs0, entries0, docs, entries)
    {
      ghost var docs1, entries1 := docs, entries;
      ghost var n := |docs1|;
      assert n == |docs0| + |Indexed(listing[..i])|;
      r := ReindexEntry(listing[i], emb);
      FolderDocsAppend(listing, i, docs0, docs1, docs);
      if r.Ok? {
        TallyStep(listing, i, added);
        r := Ok(Counts(added.docs + r.value.docs, added.chunks + r.value.chunks));
        if aligned && emb.width != 0 {
          FolderEntriesAppend(listing, i, |docs0|, n, entries0, entries1, entries);
        }
      }
    }

    /**
     * `reindex_folder` over a listing of the folder (not of its sub-folders):
     * every indexable file is added again as a new document titled by its name,
     * its entries follow the old ones, and the answer counts those files and
     * their chunks. When `np.vstack` fails on the file at `failed`, the
     * documents of the files up to and including it are already recorded.
     */
    method ReindexFolder(listing: seq<FolderEntry>, emb: Embedder) returns (r: Result<Counts, string>, ghost failed: nat)
      requires Valid()
      modifies this
      ensures Valid() && (old(Aligned()) ==> Aligned())
      ensures r.Ok? ==> r.value == Counts(|Indexed(listing)|, ChunkTotal(Indexed(listing)))
      ensures r.Ok? ==> docs == old(docs) + FolderDocs(Indexed(listing), |old(docs)|)
      ensures r.Ok? && old(Aligned()) ==>
        entries == old(entries) + (if emb.width == 0 then [] else FolderEntries(Indexed(listing), |old(docs)|))
      ensures r.Err? ==>
        failed < |listing| && ReindexFailed(listing, failed, emb.width, old(Aligned()), old(docs), old(entries), docs, entries)
    {
      assert listing[..0] == [];
      r, failed := ReindexLoop(listing, emb, docs, entries, Aligned());
      if r.Ok? {
        assert listing[..|listing|] == listing;
      }
    }

    /**
     * The loop of `reindex_folder`, from a store whose documents are `docs0` and
     * entries `entries0`: it stops at the first entry whose add fails.
     */
    method ReindexLoop(listing: seq<FolderEntry>, emb: Embedder, ghost docs0: seq<DocMeta>, ghost entries0: seq<Entry>, ghost aligned: bool)
      returns (r: Result<Counts, string>, ghost failed: nat)
      requires Valid() && docs == docs0 && entries == entries0 && (aligned ==> Aligned())
      modifies this
      ensures Valid() && (aligned ==> Aligned())
      ensures r.Ok? ==> r.value == Tally(listing, |listing|)
      ensures r.Ok? ==> Reindexed(listing, |listing|, emb.width, aligned, docs0, entries0, docs, entries)
      ensures r.Err? ==> failed < |listing| && ReindexFailed(listing, failed, emb.width, aligned, docs0, entries0, docs, entries)
    {
      assert listing[..0] == [];
      var added := Counts(0, 0);
      var i := 0;
      while i < |listing|
        invariant 0 <= i <= |listing| && Valid() && (aligned ==> Aligned())
        invariant added == Tally(listing, i)
        invariant Reindexed(listing, i, emb.width, aligned, docs0, entries0, docs, entries)
      {
        var res := ReindexNext(listing, i, added, emb, docs0, entries0, aligned);
        if res.Err? {
          return Err(res.error), i;
        }
        added := res.value;
        i := i + 1;
      }
      r, failed := Ok(added), 0;
    }

    /**
     * `search`: nothing for a blank query or an empty store; otherwise the results
     * for faiss's `min(top_k, N)` best rows, skipping pairs that name no row. The
     * store is not changed.
     */
    method Search(query: string, topK: int, emb: Embedder, faiss: Faiss) returns (out: seq<SearchResult>)
      requires Valid() && 1 <= topK && FaissAnswersAtMost(faiss)
      ensures AllSpace(query) || vectors.rows == [] ==> out == []
      ensures !AllSpace(query) && vectors.rows != [] ==>
        out == Results(entries, faiss(index, emb.encode(query), Min(topK, |vectors.rows|)))
      ensures |out| <= topK && |out| <= |vectors.rows|
      ensures forall r <- out :: r.title != [] && |r.snippet| <= SnippetChars
    {
      StripBlank(query);
      if Strip(query) == [] || |vectors.rows| == 0 {
        return [];
      }
      var q := Embed([query], emb, dim);
      var hits := faiss(index, q.rows[0], Min(topK, |vectors.rows|));
      out := [];
      var i := 0;
      while i < |hits|
        invariant 0 <= i <= |hits|
        invariant out == Results(entries, hits[..i])
      {
        var h := hits[i];
        assert hits[..i + 1][..i] == hits[..i];
        if 0 <= h.idx < |entries| {
          out := out + [ToResult(entries[h.idx], h.score)];
        }
        i := i + 1;
      }
      assert hits[..|hits|] == hits;
    }
  }
}
