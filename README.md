# otec_fura core, modelled in Dafny

This project models the core of `otec_fura`, a small FastAPI service with a browser client. The core has seven parts:

- **Vector knowledge store** (`knowledge_store.py`): a log of documents, a matrix of embedding rows with one entry per row, and a faiss index over the rows. It supports chunking, ingesting notes, files and pages, folder reindexing and search.
- **BM25 retriever** (`api/search_knowledge.py`): reads the `.txt` files of the knowledge folder once, then ranks documents for a query and returns snippets.
- **API-key decisions**: the bearer-token lookup of `main.py`, the key index and allow/401/403 dispatch of `middleware.py`, and `get_user_from_token` of `scripts/user_utils.py`.
- **Request decisions of `main.py`**: the `top_k` clamps and the branching of `/crawl`.
- **User-file edits**: approving and showing a key in `admin_tools.py`, and adding an account in `scripts/create_user.py`.
- **Memory logs** (`api/get_memory.py`): filtering the public and private JSONL logs, and appending to the private one.
- **Client helpers** (`webui/script.js`): HTML escaping, the seven-day chat history in `localStorage`, the memory choice and prompt composition.

Each source file becomes one module: `Chunker`, `KnowledgeStore`, `SearchKnowledge`, `Api` (main.py), `Middleware`, `UserUtils`, `AdminTools`, `CreateUser`, `Memory` and `WebUi`. The shared modules are `Wrappers` (Option/Result), `Strings` (the Python string operations used: `strip`, `lower`, `split`, `splitlines`, `\w+` and `\s+` runs) and `Users` (the user record of `data/users.json`).

Code that changes state keeps that form in the model:

- `KnowledgeStore.Store`, `SearchKnowledge.KnowledgeBase`, `Middleware.KeyCache`, `Users.UsersDb`, `Memory.MemoryDir` and `WebUi.ChatUi` are classes whose methods update fields.
- The loops of the source are methods with loop invariants, each proved equal to a specification function.
- The lemmas then prove what the source promises about those functions.

Some inputs are outside the model and are passed in as given values:

- The embedding model, faiss's search, `math.log`, bcrypt, API-key generation and `json.dumps`/`json.loads` are passed in as functions.
- File contents, directory listings and clock readings are passed in as values.

The model follows the code. Two of the program's own tests expect something else:

- **Reindexing** (`tests/test_knowledge_store.py:24-37`). The test expects files in sub-folders to be found, and a second reindex to leave three documents and three rows. The code lists only the folder itself and adds every file again as a new document (`KnowledgeStore.Store.ReindexFolder`).
- **BM25 reloads** (`tests/test_search_knowledge_reload.py:15`). The test calls `reload_knowledge` and expects a file added after the first search to be found. The code has no such function: once `_loaded` is set, the folder is never read again (`SearchKnowledge.KnowledgeBase.LoadKnowledge`).

Some other behaviour of the code is worth stating plainly:

- **Short texts.** A text of at most `max_chars` characters can still be cut at a sentence end. One chunk is only guaranteed when the normalised text is shorter than `0.6 * max_chars` (`Chunker.ShortTextOneChunk`).
- **Empty content.** Empty or blank content is recorded as a document with zero chunks (`KnowledgeStore.Store.AddManual`).
- **Embedding width.** Reindexing does no dimension check of its own. It fails only when `np.vstack` meets rows of another width (`KnowledgeStore.AddRows`).
- **Undecodable files.** Only `OSError` is caught while reading. A `.txt` file that is not UTF-8 therefore makes every search raise. Each attempt also appends the readable texts that come before that file again, because `_loaded` stays false (`SearchKnowledge.KnowledgeBase.Search`).

## Model

| member | source | states |
|---|---|---|
| Chunker.ChunkText | knowledge_store.py:21-39 | the chunking loop returns exactly the chunks of the window specification; every chunk is non-empty, trimmed, at most `max_chars` long and a substring of the whitespace-collapsed, trimmed text |
| Chunker.CutWindow | knowledge_store.py:29-34 | the loop's window end is the end the window specification gives |
| Chunker.WindowEnd | knowledge_store.py:29-34 | a window is non-empty, at most `max_chars` long, within the text, and ends before the text's end only when cut at least 0.6·`max_chars` in |
| Chunker.Windows | knowledge_store.py:26-38 | the first window starts at the cursor and every window lies within the text |
| Chunker.WindowsShape | knowledge_store.py:28-38 | each window starts strictly after the previous one, at `max(0, j - overlap)`, no later than the previous end; only the last window reaches the end of the text (the cursor strictly increases, so the loop ends) |
| Chunker.WindowsCover | knowledge_store.py:28-38 | every position of the text from the cursor on lies in some window |
| Chunker.CollapseShape | knowledge_store.py:22 | after `re.sub(r'\s+', ' ', …)` the only whitespace is a single space, never two in a row, and the first character is whitespace exactly when it was before |
| Chunker.CollapseKeepsBlankness | knowledge_store.py:22 | collapsing whitespace keeps a text blank exactly when it was blank |
| Chunker.NormalizeShape | knowledge_store.py:22 | the normalised text is trimmed and its only whitespace is the plain space |
| Chunker.NormalizeBlank | knowledge_store.py:22-24 | the normalised text is empty exactly when the input is empty or all whitespace |
| Chunker.FirstSentenceEndSpec | knowledge_store.py:32 | the search finds the earliest `.`/`!`/`?` followed by whitespace or the window end, and misses none |
| Chunker.SentenceMatchEndSpec | knowledge_store.py:32 | `re.search(r'.*?[.!?](\s|$)', cut)` matches exactly when a sentence ends in the window, and `m.end()` lies just after the first such end and its whitespace |
| Chunker.NonEmpty | knowledge_store.py:39 | the final filter keeps only non-empty chunks, each one of the cut pieces |
| Chunker.ChunksWellFormed | knowledge_store.py:35-39 | every chunk is trimmed, at most `max_chars` long and occurs in the normalised text |
| Chunker.ChunksEnds | knowledge_store.py:26-37 | for non-blank text the first chunk is a prefix of the normalised text and the last chunk a suffix |
| Chunker.ChunksEmptyIffBlank | knowledge_store.py:22-24 | chunking returns `[]` exactly for empty or whitespace-only text |
| Chunker.ShortTextOneChunk | knowledge_store.py:29-37 | a normalised text shorter than 0.6·`max_chars` is one chunk equal to that text |
| KnowledgeStore.DocsOfConcat | knowledge_store.py:65-79 | reading a log that has lines appended reads the old documents followed by the new ones, so a reload reproduces the appended list |
| KnowledgeStore.DocIdInjective | knowledge_store.py:139 | `doc-{n+1}` ids issued at different store sizes differ |
| KnowledgeStore.LoadIndexState | knowledge_store.py:81-100 | a readable index file whose rows fit its `dim` (default 384) is loaded as saved; any failure leaves an empty matrix and no entries |
| KnowledgeStore.SaveLoadRoundTrip | knowledge_store.py:81-110 | loading what `_save_index` wrote gives back the rows and entries exactly when the rows are as wide as the saved `_dim` |
| KnowledgeStore.AddRows | knowledge_store.py:124-134 | `_add_vectors` fails exactly when a non-empty batch of another width meets non-empty stored rows; an empty batch changes nothing |
| KnowledgeStore.AddRowsAppends | knowledge_store.py:124-134 | rows and entries each grow by the batch, the old ones stay a prefix, and row count equals entry count afterwards |
| KnowledgeStore.AddRowsKeepsIndex | knowledge_store.py:126-134 | the faiss index keeps holding exactly the stored rows at their width |
| KnowledgeStore.Embed | knowledge_store.py:117-122 | `_embed` gives one row per text, of the model's width; no texts give no rows |
| KnowledgeStore.EntriesFor | knowledge_store.py:144-145 | one entry per chunk |
| KnowledgeStore.EntriesForDoc | knowledge_store.py:144-145 | every entry carries the document's id and its chunk, in chunk order |
| KnowledgeStore.Results | knowledge_store.py:228-239 | at most one result per faiss pair, each from a pair naming a stored row; the title is never empty and the snippet has at most 450 characters |
| KnowledgeStore.ResultsCount | knowledge_store.py:229-231 | when every pair names a stored row, every pair gives a result |
| KnowledgeStore.Indexed | knowledge_store.py:213-217 | the indexable files are a sub-list of the listing |
| KnowledgeStore.TallyStep | knowledge_store.py:213-220 | the counts after one more listing entry add that entry's documents and chunks |
| KnowledgeStore.ReindexStep | knowledge_store.py:213-220 | one more listing entry contributes its own indexable file and its chunk count |
| KnowledgeStore.NothingIndexable | knowledge_store.py:213-221 | a listing without regular `.md`/`.txt`/`.pdf` files adds no document and no chunk |
| KnowledgeStore.Store.constructor | knowledge_store.py:50-62 | the store starts from the log's documents and the loaded or fallback index, with the default dimension and model name |
| KnowledgeStore.Store.LoadStore | knowledge_store.py:65-74 | `_docs` is the documents of the non-blank log lines, in order |
| KnowledgeStore.Store.SaveDoc | knowledge_store.py:76-79 | one log line and one document are appended; nothing else changes |
| KnowledgeStore.Store.LoadIndex | knowledge_store.py:81-100 | rows, entries and `_dim` become the loaded state, and the index holds the loaded rows |
| KnowledgeStore.Store.SaveIndex | knowledge_store.py:102-110 | the index file becomes the current rows, entries, `_dim` and model name |
| KnowledgeStore.Store.AddVectors | knowledge_store.py:124-135 | the new rows, entries and index are those `AddRows` gives, or unchanged on failure; the file is rewritten only after a non-empty successful append |
| KnowledgeStore.Store.Ingest | knowledge_store.py:138-147 | the document is recorded first, with the next `doc-n` id; its chunks are embedded and appended; the answer is `(id, number of chunks)` or the `vstack` error |
| KnowledgeStore.Store.AddChunks | knowledge_store.py:142-147 | the chunks of the text are embedded and appended with their entries; the answer counts the chunks |
| KnowledgeStore.Store.AddManual | knowledge_store.py:138-147 | exactly one `DocMeta` is appended, with id `doc-(n+1)`, title `(bez názvu)` when empty and source `manual`; on an aligned store one entry per chunk, carrying that id, follows the old entries; blank content records the document with 0 chunks; failure happens exactly on a width mismatch |
| KnowledgeStore.Store.AddFromUrl | knowledge_store.py:155-183 | exactly one `DocMeta` is appended: the next `doc-n` id, titled with the page title (the URL for PDFs or untitled pages), source `url`, tags `["web"]`; the rows and entries are those of `AddRows` over the text's chunks, each entry carrying the URL, or the old state on a width mismatch; an aligned store stays aligned and gains one entry per chunk; the answer is `(id, chunk count)` |
| KnowledgeStore.Store.AddFromFile | knowledge_store.py:185-206 | exactly one `DocMeta` is appended: the next `doc-n` id, titled with the given title or the base name, source `file`; the rows and entries are those of `AddRows` over the text's chunks, each entry carrying the base name, or the old state on a width mismatch; an aligned store stays aligned and gains one entry per chunk; the answer is `(id, chunk count)` |
| KnowledgeStore.Store.ReindexEntry | knowledge_store.py:199-220 | a listing entry adds a document, numbered next, titled by its name and stamped with its own clock reading, exactly when it is an indexable file, together with its chunks' entries on an aligned store, and reports its counts; on a `vstack` error the document is already recorded and the entries are unchanged |
| KnowledgeStore.Store.ReindexFolder | knowledge_store.py:208-221 | every indexable file of the listing is added again as a new document, in listing order, numbered on from the old documents; an aligned store gains exactly those files' chunk entries; `docs` is the number of such files and `chunks` the sum of their chunk counts; when the file at `failed` hits a `vstack` error, the documents up to and including it are recorded and the entries are those of the files before it |
| KnowledgeStore.Store.ReindexNext | knowledge_store.py:213-220 | one loop step: the counts and the documents and entries recorded so far cover the listing up to and including the next entry, or, on an error, the failure state of `ReindexFailed` |
| KnowledgeStore.Store.ReindexLoop | knowledge_store.py:211-220 | the loop ends with the counts, documents and entries of the whole listing, or stops at the first failing file, leaving the failure state of `ReindexFailed` |
| KnowledgeStore.FolderDocsSpec | knowledge_store.py:198-200 | the `k`-th document a reindex records is the `k`-th indexable file's, with id `doc-(start+k+1)`, its name as title, source `file`, no tags, and `created_at` the clock reading of that file's own `add_from_file` |
| KnowledgeStore.FolderDocsStep | knowledge_store.py:213-218 | one more listing entry appends its document exactly when it is indexable |
| KnowledgeStore.FolderEntriesGrow | knowledge_store.py:213-218 | one more listing entry appends its chunk entries exactly when it is indexable, and nothing otherwise |
| KnowledgeStore.FolderDocsAppend | knowledge_store.py:213-218 | the documents recorded so far plus the next entry's are those of the longer listing prefix |
| KnowledgeStore.FolderEntriesAppend | knowledge_store.py:213-218 | the entries recorded so far plus the next entry's are those of the longer listing prefix |
| KnowledgeStore.EntryCountsOf | knowledge_store.py:215-220 | an indexable entry counts one document and its chunk count; any other counts nothing |
| KnowledgeStore.Store.Search | knowledge_store.py:223-239 | a blank query or empty store gives `[]`; otherwise the results for faiss's `min(top_k, N)` pairs, skipping pairs naming no row; at most `top_k` and `N` results, titles never empty, snippets at most 450 characters; the store is not modified |
| SearchKnowledge.Tokenize | api/search_knowledge.py:52 | tokens are non-empty runs of word characters of the lowercased text |
| SearchKnowledge.TokenizeSplit | api/search_knowledge.py:52 | a non-word character separates tokens: the tokens of `a + [c] + b` are those of `a` followed by those of `b` |
| SearchKnowledge.TokenizeEmpty | api/search_knowledge.py:86-88 | a text has no tokens exactly when it has no word character |
| SearchKnowledge.Texts | api/search_knowledge.py:46-52 | the reading loop appends at most one document per file |
| SearchKnowledge.TextsSpec | api/search_knowledge.py:46-52 | every document is some file's text; when every file decodes, every readable file's text is a document |
| SearchKnowledge.TokensOf | api/search_knowledge.py:52 | one token list per document |
| SearchKnowledge.TotalLenBound | api/search_knowledge.py:58-59 | each document's length is at most the total token count |
| SearchKnowledge.AvgLenPositive | api/search_knowledge.py:58-59 | `_avgdl` is non-negative, and positive once some document has a token |
| SearchKnowledge.AddDocSpec | api/search_knowledge.py:64 | `df.update(set(tokens))` adds one to each distinct token of the document and to nothing else |
| SearchKnowledge.DfSpec | api/search_knowledge.py:62-64 | a term is counted exactly when some document holds it; its count is the number of documents holding it, between 1 and N |
| SearchKnowledge.IdfPositive | api/search_knowledge.py:65-66 | every term of some document has an idf, and it is positive |
| SearchKnowledge.DocLen | api/search_knowledge.py:93 | `len(tokens) or 1` is at least 1 and is the length of a non-empty document |
| SearchKnowledge.TermScorePositive | api/search_knowledge.py:101 | a held query token with positive idf adds a positive BM25 term (k1 = 1.5, b = 0.75) |
| SearchKnowledge.ScoreSign | api/search_knowledge.py:95-102 | a document's score is never negative, and positive exactly when it holds a query token |
| SearchKnowledge.ScoreDoc | api/search_knowledge.py:93-102 | the inner scoring loop computes the document's score |
| SearchKnowledge.ScoreAll | api/search_knowledge.py:91-102 | the outer loop computes one score per document |
| SearchKnowledge.CountDocFreq | api/search_knowledge.py:62-64 | the document-frequency loop builds the counts `DfSpec` describes |
| SearchKnowledge.Insert | api/search_knowledge.py:106 | one insertion step of the stable sort keeps every index and adds the new one |
| SearchKnowledge.InsertSorted | api/search_knowledge.py:106 | inserting keeps the list in descending score order, ties in document order |
| SearchKnowledge.Rank | api/search_knowledge.py:106 | `sorted(range(n), …)` lists each document index exactly once |
| SearchKnowledge.RankSorted | api/search_knowledge.py:106 | the ranking is in descending score order with ties in document order, as Python's stable sort gives |
| SearchKnowledge.Picked | api/search_knowledge.py:106-108 | the kept indexes are a sub-list of the ranked ones |
| SearchKnowledge.PickedSpec | api/search_knowledge.py:106-108 | the filter keeps exactly the positively scored indexes, in ranking order |
| SearchKnowledge.PickedConcat | api/search_knowledge.py:106-108 | filtering a concatenation filters each part |
| SearchKnowledge.PickedSound | api/search_knowledge.py:107-108 | every kept index was listed and scores above zero |
| SearchKnowledge.PickedAllPositive | api/search_knowledge.py:107-108 | a list of positively scored indexes passes the filter whole |
| SearchKnowledge.PickedComplete | api/search_knowledge.py:107-108 | a listed index that scores above zero is kept |
| SearchKnowledge.PickedTop | api/search_knowledge.py:106-108 | filtering the first `top_k` of a ranking gives the first `top_k` of the filtered ranking, because the filter only ever drops a tail of zero scores |
| SearchKnowledge.TopPositive | api/search_knowledge.py:106-108 | a positive index ranked at or after position `t` means the first `t` all score above zero |
| SearchKnowledge.PositiveBefore | api/search_knowledge.py:106 | everything ranked before a positively scored index scores above zero |
| SearchKnowledge.SortedDistinct | api/search_knowledge.py:106 | a list in ranking order names no index twice |
| SearchKnowledge.PickedCount | api/search_knowledge.py:106-108 | the filtered full ranking has exactly as many indexes as there are positively scored documents |
| SearchKnowledge.TopOrdered | api/search_knowledge.py:106-108 | the top hits are positively scored and in ranking order, and are all positive documents when `top_k ≥ N` |
| SearchKnowledge.TopBest | api/search_knowledge.py:106-108 | for `top_k ≥ 0` the top hits are the first `top_k` filtered ones, `min(top_k, #positive)` of them, and no left-out positive document ranks before a hit |
| SearchKnowledge.LeftOutAfter | api/search_knowledge.py:106-108 | a positively scored index left out of the filtered first `top_k` of a ranking ranks after every index kept |
| SearchKnowledge.SnippetSpec | api/search_knowledge.py:110-116 | the snippet is the first line mentioning a query token, stripped, or the whole document when no line does |
| SearchKnowledge.PickSnippet | api/search_knowledge.py:110-115 | the snippet loop, with its early `break`, returns that snippet |
| SearchKnowledge.CollectResults | api/search_knowledge.py:105-116 | the result loop gives one snippet per kept index, in ranking order |
| SearchKnowledge.SearchNothing | api/search_knowledge.py:83-88 | an empty query, one without word tokens, or no documents give `[]` |
| SearchKnowledge.DocScoresSign | api/search_knowledge.py:95-102 | a document scores above zero exactly when it holds a query token |
| SearchKnowledge.HitsSpec | api/search_knowledge.py:106-108 | the hits are positively scored and in ranking order; for `top_k ≥ 0` they are the first `top_k` of the filtered full ranking, there are `min(top_k, #positive)` of them, and every positively scored document left out ranks after every hit; with `top_k ≥ N` they are all positively scored documents |
| SearchKnowledge.SearchHits | api/search_knowledge.py:104-118 | the results are the snippets of documents holding a query token, in non-increasing score order; for `top_k ≥ 0` they are the first `top_k` of the unbounded hits, `min(top_k, #relevant)` of them, and every relevant document left out ranks after every hit; with `top_k ≥ N` every such document appears |
| SearchKnowledge.KnowledgeBase.constructor | api/search_knowledge.py:27-31 | the module starts with no documents, no idf, `_avgdl` 0 and `_loaded` false |
| SearchKnowledge.KnowledgeBase.ReadFiles | api/search_knowledge.py:46-52 | the readable texts and their tokens are appended in `glob` order; a file that is not UTF-8 stops the loop with an error |
| SearchKnowledge.KnowledgeBase.LoadKnowledge | api/search_knowledge.py:34-68 | nothing changes once loaded; a missing or empty folder loads no documents; otherwise the documents are the folder's texts and the statistics are theirs; a decode error leaves `_loaded` false after appending the texts before it |
| SearchKnowledge.KnowledgeBase.Search | api/search_knowledge.py:71-118 | fails exactly when the folder holds an undecodable file; otherwise returns the specified BM25 results for the folder's documents, reading the folder only on the first call |
| Api.LoadUsers | main.py:30-34 | a missing or unparsable users file gives `[]` |
| Api.FindUserByToken | main.py:36-42 | a blank token finds nobody |
| Api.FindUserByTokenSpec | main.py:36-42 | the user found is the first approved one holding the stripped token; nobody is found exactly when the token is blank or no approved user holds it |
| Api.AuthHeaderToToken | main.py:44-49 | a missing or empty header gives no token, any other header a token |
| Api.BearerToken | main.py:46-48 | a stripped header starting with `bearer ` in any case gives the rest after the seventh character, stripped |
| Api.PlainToken | main.py:46-49 | any other header is the token, stripped |
| Api.CurrentUser | main.py:51-56 | every failure is a 401 `Neplatný token` |
| Api.CurrentUserSpec | main.py:51-56 | the request passes exactly when an approved user holds the header's token, and then as such a user |
| Api.ClampTopK | main.py:92 | `max(1, min(hi, k))` lies in `[1, hi]` and keeps values already in range |
| Api.SearchTopK | main.py:92 | `/knowledge/search` passes a `top_k` in `[1, 20]` |
| Api.ContextTopK | main.py:124 | `/get_context` passes a `top_k` in `[1, 10]` |
| Api.CrawlDecision | main.py:96-108 | a 400 happens exactly when neither raw text nor URL is given |
| Api.CrawlDecisionSpec | main.py:97-108 | raw text wins over a URL; a note keeps a given title and given tags, and otherwise gets title `Interní poznámka` and tags `["note"]`; a URL alone is fetched; otherwise 400 `Missing URL or raw_text` |
| Api.CrawlOutcome | main.py:101-107 | a failed URL ingest is a 400 |
| Users.FirstWhereSpec | main.py:39-42 | the `for … if …: return` loops find the first record satisfying the test, and none means no record does |
| Middleware.KeyIndexSpec | middleware.py:34-39 | a key is in the index exactly when some record has it as a truthy `api_key`, and it maps to the last such record |
| Middleware.FileIndex | middleware.py:24-33 | a missing or malformed users file gives an empty index |
| Middleware.BuildIndex | middleware.py:34-39 | the indexing loop builds that index |
| Middleware.ExtractApiKey | middleware.py:42-58 | an extracted key is never empty |
| Middleware.ExtractApiKeySpec | middleware.py:44-58 | `bearer <key>` (any case) gives the key, one word gives that word, and any other shape falls back to a truthy `api_key` query parameter, then to nothing |
| Middleware.SingleWordHeader | middleware.py:49-51 | a one-word header is the key whatever the query parameter says |
| Middleware.Decide | middleware.py:69-87 | allowlisted paths pass with no user; outside them, no key is a 401 |
| Middleware.DecideSpec | middleware.py:74-83 | a request passes only as an approved user whose record holds the key; a key nobody holds or an unapproved holder is a 403 |
| Middleware.KeyCache.LoadUsersIndex | middleware.py:14-40 | the cached index is returned unchanged; otherwise the file's index is built and cached |
| Middleware.KeyCache.Dispatch | middleware.py:69-87 | the decision for the extracted key against the index; the index is loaded, and cached, only for a keyed request outside the allowlist |
| UserUtils.SecondFieldSpec | scripts/user_utils.py:16 | the token is what follows `Bearer ` up to the next space |
| UserUtils.GetUserFromToken | scripts/user_utils.py:11-25 | every failure is a 401 or a 403 |
| UserUtils.GetUserFromTokenSpec | scripts/user_utils.py:11-25 | a header not starting with exactly `Bearer ` is a 401; the first holder of the token decides: unapproved is a 403 `Účet nebyl schválen` (and only then), approved is the answer; so no unapproved user is returned |
| AdminTools.Approve | admin_tools.py:25-29 | approving keeps the list's length |
| AdminTools.ApproveSpec | admin_tools.py:23-31 | only the first record with the name changes, and only its `approved` flag; an unknown name leaves the list unchanged |
| AdminTools.ApproveIdempotent | admin_tools.py:27 | approving twice equals approving once |
| AdminTools.ApproveUser | admin_tools.py:23-31 | the list becomes the approved list; a known name saves once and reports approval, an unknown one saves nothing and reports not found |
| AdminTools.ShowOutcomeSpec | admin_tools.py:34-40 | not found exactly when nobody has the name; otherwise the first such record's key, or `KeyError` when it has none |
| AdminTools.ShowApiKey | admin_tools.py:34-40 | the loop prints that outcome |
| AdminTools.ParseCommand | admin_tools.py:44-56 | fewer than two words is the usage message |
| AdminTools.ParseCommandSpec | admin_tools.py:48-56 | `approve` and `show` run exactly with one name, `list` whatever follows, and anything else is an invalid command |
| CreateUser.OrTyped | scripts/create_user.py:28-29 | a non-empty option wins over the stripped typed answer |
| CreateUser.CreateOutcome | scripts/create_user.py:31-49 | the only aborts are the two messages |
| CreateUser.CreateOutcomeSpec | scripts/create_user.py:31-50 | a mismatched confirmation aborts first, then a taken name; otherwise exactly one record is appended, carrying the name, email, approval flag and password hash, with earlier records kept; distinct usernames stay distinct |
| CreateUser.Create | scripts/create_user.py:28-52 | an abort leaves the file unsaved; success saves the appended list once and answers `User '…' created. API key: …` |
| Memory.BlankIsStripEmpty | api/get_memory.py:14 | a line is skipped exactly when `line.strip()` is empty |
| Memory.LoadJsonl | api/get_memory.py:10-14 | a missing file has no records |
| Memory.Decoded | api/get_memory.py:13-14 | at most one record per line |
| Memory.DecodedSnoc | api/get_memory.py:13-19 | a file with one more line reads one more record at the end, unless the line is blank |
| Memory.Matches | api/get_memory.py:27-29 | at most one text per record |
| Memory.MatchesSpec | api/get_memory.py:27-29 | every returned text contains the lowercased query and belongs to a record; every matching record's text is returned |
| Memory.MatchesAppend | api/get_memory.py:26-34 | filtering two logs in turn equals filtering their concatenation, keeping file order |
| Memory.MatchesEmpty | api/get_memory.py:23-29 | an empty query returns every record's text |
| Memory.LoadMemoryContext | api/get_memory.py:21-36 | there are no more results than records in the two logs |
| Memory.LoadMemoryContextSpec | api/get_memory.py:21-36 | public matches come before private ones, in file order; an empty or missing query returns every text; missing files contribute nothing |
| Memory.MemoryDir.AppendToMemory | api/get_memory.py:38-44 | exactly one encoded `{ts, text}` line is appended to the user's private log, which is created when missing; nothing else changes |
| Memory.AppendThenLoad | api/get_memory.py:10-44 | after an append the record is the log's last record, and its text joins the context exactly when it matches the query |
| WebUi.EscapeHtml | webui/script.js:62-64 | escaping never shortens the text |
| WebUi.EscapeHtmlSafe | webui/script.js:63 | the escaped text contains no `<`, `>`, `"` or `'` |
| WebUi.EscapeHtmlPlain | webui/script.js:63 | text without the five special characters is unchanged |
| WebUi.UnescapeEscape | webui/script.js:62-64 | decoding the five entities gives back the original text, so escaping loses nothing |
| WebUi.LsGet | webui/script.js:34 | the stored value, or the default when the key is absent or does not parse |
| WebUi.Fresh | webui/script.js:41 | the TTL filter never lengthens the history |
| WebUi.FreshSpec | webui/script.js:38-43 | exactly the messages younger than seven days are kept, in order; the whole list is kept exactly when none expired |
| WebUi.FreshSnoc | webui/script.js:41 | filtering a list with one more message filters the list, then the message |
| WebUi.PushThenLoad | webui/script.js:38-48 | a pushed message survives the next load, last, until seven days have passed |
| WebUi.CurrentMemorySpec | webui/script.js:72-75 | the first checked radio's value, or `public` when none is checked |
| WebUi.ChatUi.constructor | webui/script.js:30-31 | start-up loads the fresh history with nothing attached |
| WebUi.ChatUi.LoadHistory | webui/script.js:38-44 | the stored messages younger than seven days; storage is rewritten only when some were dropped |
| WebUi.ChatUi.PushHistory | webui/script.js:45-48 | exactly one message stamped `now` is appended, and the whole list is stored |
| WebUi.ChatUi.ComposePrompt | webui/script.js:238-241 | without an attachment the text unchanged; with one, text, separator and attachment by length |
| WebUi.ChatUi.ComposePromptParts | webui/script.js:238-241 | with an attachment the prompt is the text, then `\n\n---\nPřiložený soubor (text):\n`, then the attachment |

## Left out

- File, network and `localStorage` I/O. Logs, pickle files, folders and storage slots are values: sequences of records, an optional blob, a listing.
- JSON and pickle byte formats. `json.dumps`/`json.loads` are given functions, and the model assumes they round-trip where a lemma needs it (`Memory.AppendThenLoad`).
- JSON values of unexpected type: a malformed JSONL line, a non-string `text`, a users file that is not a list, or a stored history that parses to something other than a list of messages. Where the source raises on these, the model does not say so. A JSON `null` field is modelled like a missing one. So `AdminTools.ShowOutcome` gives `KeyError` for a `null` `api_key`, where show_apikey (admin_tools.py:38) prints `None`.
- The embedding model, numpy and faiss. `_embed` is a function from text to a row of fixed width, and faiss's search is a function returning `(score, idx)` pairs. L2 normalisation and float32 conversion are not modelled.
- `_fetch_url`, HTML parsing and PDF extraction in `add_from_url`/`add_from_file`. The fetched content type, page title and extracted text are inputs.
- `list_users` in admin_tools.py, which only prints the records.
- The users-file bootstrap at import time of main.py, and the `/auth/me`, `/knowledge/add`, `/admin/reindex_knowledge` and `/get_context` route bodies beyond the decisions above.
- `load_users` failures in scripts/user_utils.py, admin_tools.py and scripts/create_user.py, which raise on a missing or malformed file. These functions take the parsed list.
- Floating point. BM25 scores, idf and `_avgdl` are exact reals, and `math.log` is an oracle assumed positive above 1.
- The 0.6 threshold of the chunker is compared exactly as `5·e ≥ 3·max_chars`.
- Clocks (`time.time`, `datetime.utcnow`, `Date.now`), bcrypt, `getpass`/`input` and `generate_api_key`. Their values are parameters; a folder reindex takes one clock reading per listed file (`KnowledgeStore.FolderEntry.addedAt`), as each `add_from_file` call reads the clock itself.
- The DOM, event handlers and network calls of webui/script.js. The module-level `history` and `attachedText` are the fields of `WebUi.ChatUi`.
- Unicode: `\w`, `\s` and `str.lower()` are modelled for ASCII, Latin-1 (including the ordinal indicators, superscript digits, micro sign and fractions that `\w` matches) and Latin Extended-A. Latin Extended-B counts as word characters but is not case-mapped (Python lowers U+0181 to U+0253, for instance). Other scripts are non-word characters. `Strings.LowerChar` leaves U+0130 as it is, while Python lowers it to the two code points `i` and U+0307.
- `glob("**/*.txt")` order and the set of files it finds are given, and the knowledge folder is taken as fixed for the life of the process.
- Chunker.ChunkText: requires `overlap < 0.6·max_chars`. With other parameters the source's loop need not end, which a terminating model cannot express. The defaults 900/150 qualify.
- KnowledgeStore.Store.Search: requires `top_k ≥ 1`, which both endpoints guarantee by clamping (main.py:92, 124). What faiss does with `k ≤ 0` is not modelled.
- KnowledgeStore.Store.Search: does not relate the scores to the embeddings, since faiss is an oracle. It states the result list in terms of faiss's answer.
