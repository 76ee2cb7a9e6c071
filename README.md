# Text finder: index and query engine, in Dafny

This project models the core of a small full-text search service written in Rust on Rocket.
The service keeps PDF documents, or uploaded texts, in memory. Each document carries a word-count index from normalized token to number of occurrences.
The service answers these requests:

- searches of one or more words, each result giving per-document counts and a total;
- corpus statistics;
- upload, listing, deletion by id and deletion of everything.

The model has eight modules, one per part of the program:

- `Wrappers` holds `Option` and `Result`.
- `Collections` holds the iterator adaptors the Rust code chains, on `seq`: `map`, `filter`, `filter_map`, `fold`, `sum` and a fork-join model of rayon's `par_iter().map().collect()`. It also has the sum of a map's values.
- `Str` holds the parts of Rust's `str` the program relies on: `char::is_whitespace` (the full White_Space list), `split_whitespace`, `trim` and the UTF-8 length `len()`.
- `Models` holds the records `Document`, `DocumentInfo`, `PerDocCount` and `WordResult`.
- `TextProcessor` holds `normalize_token`, `tokenize` and the map-rebuilding `build_word_counts` of `utils/text_processor.rs`.
- `SearchService` holds single-word search, the recursive cross-check of its total, the sequential and parallel multi-word searches, and the query splitter of `services/search_service.rs`.
- `DocumentService` holds document creation, dataset loading after text extraction with ids `0..n-1`, and the corpus statistics of `services/document_service.rs`.
- `AppServer` holds the single-file server `mainss.rs`:
  - its entry-based `build_word_counts`;
  - `filter_docs_with_word`, and the prefiltering `search_single_word`, modelled by `AppServer.SearchSingleWordPrefiltered` and proved equal to `SearchService.SearchSingleWord`;
  - the document store `AppState` as a class, with fields `docs: seq<Document>` and `nextId: nat`.

`AppState` keeps one invariant, `Valid()`:

- ids strictly increase along the store, so they are unique;
- every id is below `nextId`;
- every document's index is `BuildWordCounts` of its own text.

The handlers that change the store (upload, delete, delete-all) are methods. Each states the whole new state and preserves `Valid()`. The read-only handlers (list, stats, search) are functions that read the store and state their results in terms of the stored documents. Stats also requires `Valid()`, which its word total relies on.

Letters, digits and lower-casing are the ASCII ones. Whitespace is Unicode's White_Space set, which is what `char::is_whitespace` tests.

## Model

| member | source | states |
|---|---|---|
| Collections.Map | text-search-api/src/utils/text_processor.rs:13 | `map` keeps the length, and element i is `f` of input element i |
| Collections.Filter | text-search-api/src/utils/text_processor.rs:14 | `filter` keeps exactly the elements satisfying the predicate, and is no longer than its input |
| Collections.FilterMap | text-search-api/src/services/search_service.rs:31-46 | every output of `filter_map` comes from an input for which the closure gave `Some`; every such `Some` value is output |
| Collections.ParMap | text-search-api/src/services/search_service.rs:14-19 | the fork-join map returns one result per input |
| Collections.ParMapIsMap | text-search-api/src/services/search_service.rs:14-19 | the fork-join parallel map gives the same sequence, in the same order, as the sequential map |
| Collections.FilterMapAfterFilter | mainss.rs:163-179 | filtering first by a predicate outside of which the closure always gives `None` leaves the `filter_map` result unchanged |
| Collections.SumValuesRemove | text-search-api/src/services/document_service.rs:106 | the sum of a map's values is any one value plus the sum of the rest, so it does not depend on iteration order |
| Collections.SumValuesUpdate | text-search-api/src/services/document_service.rs:106 | setting one key to `v` changes the sum of the values by `v` minus the old value (0 if absent) |
| Collections.FoldLeftConcat | text-search-api/src/utils/text_processor.rs:19-28 | `fold` runs left to right: folding a concatenation folds the second part into the first part's result |
| Collections.SumZero | text-search-api/src/services/search_service.rs:68 | `sum` is zero exactly when every element is zero |
| Collections.CountOf | text-search-api/src/services/search_service.rs:76-80 | `get(k).copied().unwrap_or(0)` is the key's value when present and 0 when absent |
| Str.SplitWhitespace | text-search-api/src/services/search_service.rs:8 | every fragment of `split_whitespace` is non-empty and contains no whitespace |
| Str.SplitWord | text-search-api/src/utils/text_processor.rs:12 | a non-empty text without whitespace is a single fragment, itself |
| Str.SplitAtWhitespace | text-search-api/src/utils/text_processor.rs:12 | a whitespace character separates fragments: the fragments of `a + [c] + b` are those of `a` followed by those of `b`; with SplitWord this makes the fragments the maximal non-whitespace runs |
| Str.SplitKeepsNonWhitespace | text-search-api/src/utils/text_processor.rs:12 | the fragments concatenated in order are exactly the text's non-whitespace characters in order |
| Str.SplitUnwords | text-search-api/src/utils/text_processor.rs:12 | non-empty whitespace-free words joined by spaces split back into the same words |
| Str.Trim | mainss.rs:275 | `trim` yields the slice `s[i..j]` with only whitespace before `i` and after `j`, and that slice neither starts nor ends with whitespace; it is empty exactly when the input is all whitespace; it leaves whitespace-free input alone |
| Str.TrimParts | mainss.rs:275 | what `trim_start` and then `trim_end` leave is that slice, with the same four properties |
| Str.Utf8Len | text-search-api/src/services/document_service.rs:109 | a text's UTF-8 length lies between its character count and four times it |
| Str.Utf8LenBounds | text-search-api/src/services/document_service.rs:109 | the sum of the characters' UTF-8 widths lies between the character count and four times it, and equals the character count for ASCII text |
| TextProcessor.Lower | text-search-api/src/utils/text_processor.rs:8 | an upper-case letter becomes the lower-case letter at the same place in the alphabet; every other character is unchanged; alphanumerics stay alphanumerics |
| TextProcessor.NormalizeToken | text-search-api/src/utils/text_processor.rs:3-9 | every character of the result is alphanumeric and already lower-case, and the result is no longer than the input |
| TextProcessor.NormalizeTokenChar | text-search-api/src/utils/text_processor.rs:3-9 | one character: an alphanumeric is kept in its lower-case form, anything else is dropped; with NormalizeTokenConcat this fixes the result on every input |
| TextProcessor.NormalizeTokenFixpoint | text-search-api/src/utils/text_processor.rs:3-9 | a string is unchanged by normalization exactly when it is a normalized token |
| TextProcessor.NormalizeTokenIdempotent | text-search-api/src/utils/text_processor.rs:3-9 | normalizing twice equals normalizing once |
| TextProcessor.NormalizeTokenConcat | text-search-api/src/utils/text_processor.rs:3-9 | normalization distributes over concatenation, since it works character by character |
| TextProcessor.Tokenize | text-search-api/src/utils/text_processor.rs:11-16 | every token is non-empty and normalized; there are no more tokens than whitespace fragments |
| TextProcessor.TokenizeFragments | text-search-api/src/utils/text_processor.rs:12-15 | normalizing a fragment list and dropping empty results concatenates each fragment's own token, in order |
| TextProcessor.TokenizeInFragmentOrder | text-search-api/src/utils/text_processor.rs:11-16 | the tokens are, in fragment order, the non-empty normalizations of the text's fragments |
| TextProcessor.TokenizeMembers | text-search-api/src/utils/text_processor.rs:11-16 | a string is a token of the text exactly when it is non-empty and the normalization of one of its fragments |
| TextProcessor.TokenizeUnwords | text-search-api/src/utils/text_processor.rs:11-16 | normalized tokens joined by spaces tokenize back to themselves |
| TextProcessor.RebuildStep | text-search-api/src/utils/text_processor.rs:21-27 | one fold step sets the word to its old count (or 0) plus one, and keeps every other key and value |
| TextProcessor.FoldCounts | text-search-api/src/utils/text_processor.rs:18-28 | folding tokens into a map adds the tokens as keys and each token's multiplicity to its count |
| TextProcessor.BuildWordCounts | text-search-api/src/utils/text_processor.rs:18-28 | the keys are exactly the distinct tokens of the text, each mapped to its multiplicity, which is at least 1 |
| TextProcessor.FoldCountsSum | text-search-api/src/utils/text_processor.rs:18-28 | folding tokens into a map raises the sum of its values by the number of tokens |
| TextProcessor.BuildWordCountsSum | text-search-api/src/utils/text_processor.rs:18-28 | the counts of a text's index add up to its number of tokens |
| SearchService.SplitQueryIntoWords | text-search-api/src/services/search_service.rs:6-12 | the words are the whitespace fragments of the query, in order, each non-empty and whitespace-free |
| SearchService.MatchEntry | text-search-api/src/services/search_service.rs:33-45 | the closure gives an entry exactly when the document's count of the word is positive, and that entry carries the document's id, name and count |
| SearchService.PerDoc | text-search-api/src/services/search_service.rs:31-46 | `per_doc` has no more entries than there are documents, and every entry's count is positive |
| SearchService.PerDocMembers | text-search-api/src/services/search_service.rs:31-46 | `per_doc` has an entry, with that document's id, name and count, for exactly the documents whose index gives the word a positive count |
| SearchService.PerDocOrder | text-search-api/src/services/search_service.rs:31-46 | `per_doc` keeps store order: the entries of a concatenation are those of the first part followed by those of the second |
| SearchService.PerDocSingle | text-search-api/src/services/search_service.rs:33-45 | one document contributes its (id, name, count) entry when its count is positive, otherwise nothing |
| SearchService.CalculateTotalCount | text-search-api/src/services/search_service.rs:67-69 | the total is zero exactly when every entry's count is zero |
| SearchService.CountWordRecursive | text-search-api/src/services/search_service.rs:71-83 | the walk never returns less than its accumulator; its exact value is given by RecursiveCountIsTotal |
| SearchService.TotalCountConcat | text-search-api/src/services/search_service.rs:67-69 | the total over concatenated entry lists is the sum of the two totals |
| SearchService.TotalCountCons | text-search-api/src/services/search_service.rs:67-69 | the total over a store with one more document in front grows by that document's count, 0 when absent |
| SearchService.RecursiveCountIsTotal | text-search-api/src/services/search_service.rs:71-83 | the recursive walk from `index` returns `acc` plus the total of the entries of the remaining documents |
| SearchService.DebugTotalMatchesRecursive | text-search-api/src/services/search_service.rs:50-58 | the debug assertion holds: the iterative total equals `count_word_recursive(docs, word, 0, 0)` |
| SearchService.SearchSingleWord | text-search-api/src/services/search_service.rs:28-65 | the result word is the normalized raw word; the entries are `per_doc` of the store for that word, so PerDocMembers and PerDocOrder apply; all counts are positive; the total is the sum of the entries and equals the recursive count |
| SearchService.SearchNothingFound | text-search-api/src/services/search_service.rs:31-48 | `per_doc` is empty exactly when no index counts the word, and the total is 0 exactly when `per_doc` is empty |
| SearchService.SearchWordsSequential | text-search-api/src/services/search_service.rs:21-26 | one result per word; result i is the single-word search of word i |
| SearchService.SearchWordsParallel | text-search-api/src/services/search_service.rs:14-19 | the parallel search returns exactly the sequential search's results |
| DocumentService.CreateDocument | text-search-api/src/services/document_service.rs:87-99 | the document's id, name, content and index equal the arguments |
| DocumentService.ProcessPdfFile | text-search-api/src/services/document_service.rs:44-85 | a file is kept exactly when its text was extracted and is not blank; the kept file has its name, its text and that text's index |
| DocumentService.AssignIds | text-search-api/src/services/document_service.rs:35-41 | the i-th processed document gets id `start + i` and keeps its name, text and index |
| DocumentService.AssignIdsConcat | text-search-api/src/services/document_service.rs:35-41 | numbering a concatenation numbers the second part from where the first stopped |
| DocumentService.AssignIdsKeepsAll | text-search-api/src/services/document_service.rs:35-41 | every processed document appears among the numbered ones with its name and text |
| DocumentService.LoadPdfsFromDataset | text-search-api/src/services/document_service.rs:8-42 | a missing folder gives no documents; otherwise the documents are the files that yield text, in folder order, numbered 0, 1, ... by `enumerate`; there are at most as many documents as files, and each index is built from its non-blank text |
| DocumentService.AssignIdsAppendOption | text-search-api/src/services/document_service.rs:35-41 | numbering zero or one more processed document gives it the id equal to the number before it |
| DocumentService.LoadAppendFile | text-search-api/src/services/document_service.rs:30-41 | one more file in the folder adds, after the documents loaded so far, exactly one document under the next id when its text is extracted and not blank, and nothing otherwise |
| DocumentService.LoadedDocumentsComeFromFiles | text-search-api/src/services/document_service.rs:30-41 | every loaded document is a dataset file with that name whose extracted text is the document's content |
| DocumentService.LoadedDocumentsCoverFiles | text-search-api/src/services/document_service.rs:30-41 | every file whose text was extracted and is not blank is loaded, with its name and text |
| DocumentService.DocWords | text-search-api/src/services/document_service.rs:106 | a document's word total, `values().sum()` of its index, is at least every single word's count |
| DocumentService.DocBytes | text-search-api/src/services/document_service.rs:109 | a document's byte size lies between its character count and four times it |
| DocumentService.CalculateDocStats | text-search-api/src/services/document_service.rs:102-118 | the document count is the list's length; no documents gives (0, 0, 0, 0); otherwise the average times the count is the word total |
| DocumentService.StatsConcat | text-search-api/src/services/document_service.rs:104-109 | the word and byte totals of a concatenation are the sums of the parts' totals |
| DocumentService.TotalWordsIsTokenCount | text-search-api/src/services/document_service.rs:104-107 | when every index was built from its text, the word total is the total number of tokens of the texts |
| AppServer.EntryStep | mainss.rs:113-116 | the entry-based update `*acc.entry(word).or_insert(0) += 1` gives the same map as the rebuilding fold step |
| AppServer.EntryFoldIsRebuildFold | mainss.rs:110-117 | folding with the entry-based step equals folding with the rebuilding step, from any start map |
| AppServer.BuildWordCountsEntry | mainss.rs:110-117 | the entry-based `build_word_counts` builds exactly the index the rebuilding one builds |
| AppServer.HasWord | mainss.rs:125 | the `filter` predicate holds of a document exactly when the word is a key of its index |
| AppServer.FilterDocsWithWord | mainss.rs:123-127 | the prefiltered documents are exactly the stored documents whose index has the word as a key |
| AppServer.SearchSingleWordPrefiltered | mainss.rs:160-195 | the prefiltering search gives the same result as the unfiltered one, so its total equals the recursive `count_word` total |
| AppServer.RequestWords | mainss.rs:272-277 | each requested word is trimmed and blank ones dropped: every result is non-empty with no whitespace at either end |
| AppServer.RequestWordsOrder | mainss.rs:272-277 | the word list keeps request order, each requested word contributing its trimmed form unless it is blank |
| AppServer.ProcessUpload | mainss.rs:205-207 | one uploaded file becomes its name, its text and the index of that text |
| AppServer.ProcessFiles | mainss.rs:202-218 | the parallel and sequential branches both give, in input order, each file's name and text with the index of that text |
| AppServer.AppendNumbered | mainss.rs:221-234 | appending indexed documents numbered from `nextId` keeps the ids ascending and below the new `nextId`, and keeps every index built from its text |
| AppServer.FilterKeepsAscending | mainss.rs:305 | `retain` keeps the ids ascending |
| AppServer.RetainRemovesOne | mainss.rs:305-307 | with ascending ids, retaining the documents whose id differs from a present id removes exactly one document |
| AppServer.ListedIdsUnique | mainss.rs:243-255 | with ascending ids, no id is listed twice |
| AppServer.AppState.constructor | mainss.rs:348-351 | the managed state starts with no documents and next id 0 |
| AppServer.AppState.FromDataset | text-search-api/src/main.rs:40-49 | the services' state starts with the loaded dataset, and the next id is the number of loaded documents |
| AppServer.AppState.PushProcessed | mainss.rs:221-234 | the processed documents are pushed in order under ids `nextId, nextId + 1, ...`; `nextId` grows by their number; the assigned ids are returned in order |
| AppServer.AppState.StoreProcessed | mainss.rs:220-234 | the store becomes the old store followed by the numbered documents, and the invariant is kept |
| AppServer.AppState.UploadFiles | mainss.rs:197-241 | the store becomes the old store followed by the files with their own text's index, numbered from the old `nextId`; `nextId` grows by the number of files; the response gives the new store size (old size plus files) and the consecutive ids |
| AppServer.AppState.ListDocs | mainss.rs:243-255 | one entry per stored document, in store order, with its id and name |
| AppServer.AppState.GetStats | mainss.rs:257-268 | the document count is the store size; the word total is the number of tokens of the stored texts; the byte total is their UTF-8 size |
| AppServer.AppState.Search | mainss.rs:270-294 | whichever branch runs, one result per trimmed non-empty requested word, in request order, each the single-word search of that word |
| AppServer.AppState.DeleteDoc | mainss.rs:297-319 | an absent id gives NotFound and leaves the store unchanged; a present id removes exactly that document, keeps the rest in order and reports the new length; the invariant is kept |
| AppServer.AppState.DeleteAllDocs | mainss.rs:321-330 | the store becomes empty, the next id 0, and the response reports success with 0 remaining |
| AppServer.DeleteAllThenUpload | mainss.rs:321-330 | after delete-all, an upload of one file stores it alone under id 0 |

## Left out

- HTTP and Rocket plumbing is not modelled: route attributes, `Json` wrappers, status codes, CORS and launch. Only the logic inside the handlers is.
- `RwLock`, the atomic `next_id` and its orderings are not modelled. Each handler that changes the store is one method on a sequentially owned `AppState`, which is what holding the write lock gives. Each read-only handler is a function that reads that state, which is what holding the read lock gives.
- rayon's scheduling is not modelled. `par_iter().map().collect()` is a fork-join map that splits at the middle, and it is proved equal to the sequential map.
- Reading the dataset folder is not modelled: `read_dir` and its panic, the `.pdf` extension filter, `fs::read`, base64 and PDF extraction with its `catch_unwind`. The loader receives the outcome of the folder-existence check: `None` for a missing folder, which gives no documents, or `Some` of the folder's PDF files in `read_dir` order. Each file carries its name and either its extracted text or the failure (`PdfFile`). `utils/pdf_handler.rs` is not part of this model.
- The progress and warning output of the loader and the services is not modelled.
- `Str.IsWhitespace` is modelled exactly. `TextProcessor.IsAlnum` and `TextProcessor.Lower` cover ASCII only. Rust's Unicode `is_alphanumeric` and `to_lowercase` would accept more characters, and can change a string's length.
- DocumentService.CalculateDocStats: the average is an exact rational (`real`), not an `f64`, so rounding is not modelled.
- `usize` overflow is not modelled. This covers counts and totals that could exceed `usize::MAX`, and `fetch_add` wrapping `next_id` around. Integers are unbounded.
- The copies in `mainss.rs` of `normalize_token` (lines 95-101), `tokenize` (103-108), `count_total_occurrences` (119-121), `count_word` (129-141) and `calculate_doc_stats` (143-158) are modelled once. They are the same code as their `text-search-api` counterparts, so those members stand for both.
- Snippets and documents-with-all-words are not modelled. The response types declare fields for them, but no function computes them.
- The benchmark route in `routes/search_routes.rs` and its wall-clock timings are not modelled.
- The text of the NotFound message is not modelled; `DeleteError.NotFound` carries the id.
- `text-search-ui/src/api.js`, the browser's HTTP client, is not part of this model.
- The sum of a map's values (`Collections.SumValues`) is a ghost function: it picks keys by choice and is proved independent of the order. So `DocumentService.CalculateDocStats` and `AppServer.AppState.GetStats` are ghost.
