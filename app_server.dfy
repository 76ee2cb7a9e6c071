/**
 * The single-file server (mainss.rs): its own variants of index building and
 * single-word search, and the document store `AppState` with the logic of
 * the upload, list, stats, search, delete and delete-all handlers.
 */
module AppServer {
  import opened Wrappers
  import opened Collections
  import opened Str
  import opened TextProcessor
  import opened Models
  import opened SearchService
  import opened DocumentService

  datatype UploadedFile = UploadedFile(name: string, content: string)

  datatype UploadResponse = UploadResponse(totalFiles: nat, docIds: seq<DocId>)

  datatype DeleteResponse = DeleteResponse(success: bool, remaining: nat)

  datatype DeleteAllResponse = DeleteAllResponse(success: bool, remaining: nat)

  /** The handler's 404 "Document with id {} not found". */
  datatype DeleteError = NotFound(id: DocId)

  /** One step of this file's `build_word_counts`: `*acc.entry(word).or_insert(0) += 1`. */
  function EntryStep(acc: map<string, nat>, word: string): (r: map<string, nat>)
    ensures r == RebuildStep(acc, word)
  {
    acc[word := CountOf(acc, word) + 1]
  }

  lemma {:induction false} EntryFoldIsRebuildFold(acc: map<string, nat>, ts: seq<string>)
    ensures FoldLeft(EntryStep, acc, ts) == FoldLeft(RebuildStep, acc, ts)
    decreases |ts|
  {
    if ts != [] {
      EntryFoldIsRebuildFold(EntryStep(acc, ts[0]), ts[1..]);
    }
  }

  /** This file's `build_word_counts` builds the same index as the rebuilding fold. */
  function BuildWordCountsEntry(text: string): (r: map<string, nat>)
    ensures r == BuildWordCounts(text)
  {
    EntryFoldIsRebuildFold(map[], Tokenize(text));
    FoldLeft(EntryStep, map[], Tokenize(text))
  }

  function HasWord(word: string): (r: Document -> bool)
    ensures forall d :: r(d) <==> word in d.wordCounts
  {
    (doc: Document) => word in doc.wordCounts
  }

  /** `filter_docs_with_word`: the documents whose index has the word as a key, in store order. */
  function FilterDocsWithWord(docs: seq<Document>, word: string): (r: seq<Document>)
    ensures forall d :: d in r ==> d in docs && word in d.wordCounts
    ensures forall d :: d in docs && word in d.wordCounts ==> d in r
  {
    Filter(HasWord(word), docs)
  }

  /**
   * This file's `search_single_word`: it first narrows the store to the
   * documents that have the word, then keeps the positive counts; the result
   * is the one the services' search gives, so its total passes the debug check
   * against `count_word`.
   */
  function SearchSingleWordPrefiltered(docs: seq<Document>, rawWord: string): (r: WordResult)
    ensures r == SearchSingleWord(docs, rawWord)
    ensures r.totalCount == CountWordRecursive(docs, r.word, 0, 0)
  {
    var word := NormalizeToken(rawWord);
    var relevantDocs := FilterDocsWithWord(docs, word);
    var perDoc := PerDoc(relevantDocs, word);
    var totalCount := CalculateTotalCount(perDoc);
    FilterMapAfterFilter(HasWord(word), Matcher(word), docs);
    WordResult(word, totalCount, perDoc)
  }

  function PrefilteredSearcher(docs: seq<Document>): string -> WordResult
  {
    w => SearchSingleWordPrefiltered(docs, w)
  }

  /** A word with no whitespace at either end, and not empty. */
  predicate TrimmedWord(w: string)
  {
    w != [] && NotWhitespace(w[0]) && NotWhitespace(w[|w| - 1])
  }

  lemma RequestWordsTrimmed(requested: seq<string>)
    ensures forall w :: w in Filter(NonEmpty, Map(Trim, requested)) ==> TrimmedWord(w)
  {
    forall w | w in Filter(NonEmpty, Map(Trim, requested)) ensures TrimmedWord(w) {
      var i :| 0 <= i < |requested| && Map(Trim, requested)[i] == w;
    }
  }

  /** The `search` handler's word list: each requested word trimmed, empty ones dropped. */
  function RequestWords(requested: seq<string>): (r: seq<string>)
    ensures |r| <= |requested|
    ensures forall w :: w in r ==> TrimmedWord(w)
  {
    RequestWordsTrimmed(requested);
    Filter(NonEmpty, Map(Trim, requested))
  }

  /** The request's words keep request order, each contributing its trimmed form unless blank. */
  lemma RequestWordsOrder(a: seq<string>, b: seq<string>, w: string)
    ensures RequestWords(a + b) == RequestWords(a) + RequestWords(b)
    ensures RequestWords([w]) == if AllWhitespace(w) then [] else [Trim(w)]
  {
    MapConcat(Trim, a, b);
    FilterConcat(NonEmpty, Map(Trim, a), Map(Trim, b));
    assert Map(Trim, [w]) == [Trim(w)];
  }

  /** What the upload handler computes for one file before taking the lock. */
  function ProcessUpload(f: UploadedFile): (r: Processed)
    ensures r == Processed(f.name, f.content, BuildWordCounts(f.content))
  {
    Processed(f.name, f.content, BuildWordCountsEntry(f.content))
  }

  /**
   * The upload handler's `processed_docs`: parallel for two files or more,
   * sequential otherwise. Both give, in input order, each file with the index
   * of its own text.
   */
  function ProcessFiles(files: seq<UploadedFile>): (r: seq<Processed>)
    ensures |r| == |files|
    ensures forall k :: 0 <= k < |files| ==>
      r[k] == Processed(files[k].name, files[k].content, BuildWordCounts(files[k].content))
  {
    ParMapIsMap(ProcessUpload, files);
    if |files| >= 2 then ParMap(ProcessUpload, files) else Map(ProcessUpload, files)
  }

  /** Ids strictly increase along the store. */
  ghost predicate Ascending(docs: seq<Document>)
  {
    forall i, j :: 0 <= i < j < |docs| ==> docs[i].id < docs[j].id
  }

  /** Every id is below `bound`. */
  ghost predicate IdsBelow(docs: seq<Document>, bound: nat)
  {
    forall i :: 0 <= i < |docs| ==> docs[i].id < bound
  }

  /** Every index is the one built from its document's text. */
  ghost predicate Indexed(docs: seq<Document>)
  {
    forall i :: 0 <= i < |docs| ==> docs[i].wordCounts == BuildWordCounts(docs[i].content)
  }

  ghost predicate HasId(docs: seq<Document>, id: DocId)
  {
    exists d :: d in docs && d.id == id
  }

  function IdIsNot(id: DocId): Document -> bool
  {
    (d: Document) => d.id != id
  }

  lemma AscendingTail(docs: seq<Document>)
    requires Ascending(docs) && docs != []
    ensures Ascending(docs[1..])
    ensures forall e :: e in docs[1..] ==> docs[0].id < e.id
  {
    var rest := docs[1..];
    forall i, j | 0 <= i < j < |rest| ensures rest[i].id < rest[j].id {
      assert rest[i] == docs[i + 1] && rest[j] == docs[j + 1];
    }
    forall e | e in rest ensures docs[0].id < e.id {
      var k :| 0 <= k < |rest| && rest[k] == e;
      assert rest[k] == docs[k + 1];
    }
  }

  lemma AscendingCons(d: Document, rest: seq<Document>)
    requires Ascending(rest) && forall e :: e in rest ==> d.id < e.id
    ensures Ascending([d] + rest)
  {
    var all := [d] + rest;
    forall i, j | 0 <= i < j < |all| ensures all[i].id < all[j].id {
      assert all[j] == rest[j - 1] && rest[j - 1] in rest;
      if i > 0 { assert all[i] == rest[i - 1]; }
    }
  }

  /** Storing indexed documents under the next ids keeps the store's invariant, with the bound moved past them. */
  lemma AppendNumbered(before: seq<Document>, start: nat, processed: seq<Processed>)
    requires Ascending(before) && IdsBelow(before, start) && Indexed(before)
    requires forall k :: 0 <= k < |processed| ==> processed[k].wordCounts == BuildWordCounts(processed[k].content)
    ensures var all := before + AssignIds(start, processed);
      Ascending(all) && IdsBelow(all, start + |processed|) && Indexed(all)
  {
    var added := AssignIds(start, processed);
    var all := before + added;
    forall i, j | 0 <= i < j < |all| ensures all[i].id < all[j].id {
      if j < |before| {
        assert all[i] == before[i] && all[j] == before[j];
      } else if i < |before| {
        assert all[i] == before[i] && all[j] == added[j - |before|];
      } else {
        assert all[i] == added[i - |before|] && all[j] == added[j - |before|];
      }
    }
    forall i | 0 <= i < |all|
      ensures all[i].id < start + |processed| && all[i].wordCounts == BuildWordCounts(all[i].content)
    {
      if i < |before| {
        assert all[i] == before[i];
      } else {
        assert all[i] == added[i - |before|];
      }
    }
  }

  /** The ids `start, start + 1, ..., start + n - 1`. */
  function IdRange(start: nat, n: nat): (r: seq<DocId>)
    ensures |r| == n
    ensures forall k :: 0 <= k < n ==> r[k] == start + k
  {
    seq(n, k requires 0 <= k => start + k)
  }

  lemma IdRangeNext(start: nat, n: nat)
    ensures IdRange(start, n + 1) == IdRange(start, n) + [start + n]
  {
  }

  /** `docs` is `before` followed by the first `i` processed documents, numbered from `start`. */
  ghost predicate StoredAfter(docs: seq<Document>, before: seq<Document>, start: nat, processed: seq<Processed>, i: nat)
  {
    && i <= |processed|
    && |docs| == |before| + i
    && docs[..|before|] == before
    && forall k :: 0 <= k < i ==>
      docs[|before| + k] == Document(start + k, processed[k].name, processed[k].content, processed[k].wordCounts)
  }

  lemma StoredAfterNext(docs: seq<Document>, before: seq<Document>, start: nat, processed: seq<Processed>, i: nat)
    requires i < |processed| && StoredAfter(docs, before, start, processed, i)
    ensures StoredAfter(docs + [Document(start + i, processed[i].name, processed[i].content, processed[i].wordCounts)],
      before, start, processed, i + 1)
  {
    var doc := Document(start + i, processed[i].name, processed[i].content, processed[i].wordCounts);
    var all := docs + [doc];
    assert all[..|before|] == docs[..|before|];
    forall k | 0 <= k < i + 1 ensures all[|before| + k] ==
      Document(start + k, processed[k].name, processed[k].content, processed[k].wordCounts)
    {
      if k < i { assert all[|before| + k] == docs[|before| + k]; }
    }
  }

  lemma StoredAfterAll(docs: seq<Document>, before: seq<Document>, start: nat, processed: seq<Processed>)
    requires StoredAfter(docs, before, start, processed, |processed|)
    ensures docs == before + AssignIds(start, processed)
  {
    var r := before + AssignIds(start, processed);
    forall k | 0 <= k < |docs| ensures docs[k] == r[k] {
      if k < |before| {
        assert docs[k] == docs[..|before|][k];
      } else {
        var j := k - |before|;
        assert docs[|before| + j] == Document(start + j, processed[j].name, processed[j].content, processed[j].wordCounts);
      }
    }
  }

  /** Removing documents keeps the ids ascending. */
  lemma {:induction false} FilterKeepsAscending(p: Document -> bool, docs: seq<Document>)
    requires Ascending(docs)
    ensures Ascending(Filter(p, docs))
    decreases |docs|
  {
    if docs != [] {
      var d, rest := docs[0], docs[1..];
      AscendingTail(docs);
      FilterKeepsAscending(p, rest);
      var kept := Filter(p, rest);
      if p(d) {
        assert Filter(p, docs) == [d] + kept;
        AscendingCons(d, kept);
      } else {
        assert Filter(p, docs) == kept;
      }
    }
  }

  /** With ascending ids, retaining the documents whose id differs removes exactly one when the id is present. */
  lemma {:induction false} RetainRemovesOne(docs: seq<Document>, id: DocId)
    requires Ascending(docs) && HasId(docs, id)
    ensures |Filter(IdIsNot(id), docs)| == |docs| - 1
    decreases |docs|
  {
    var d, rest := docs[0], docs[1..];
    assert docs == [d] + rest;
    AscendingTail(docs);
    if d.id == id {
      forall i | 0 <= i < |rest| ensures IdIsNot(id)(rest[i]) {
        assert rest[i] in rest;
      }
      FilterKeepsAll(IdIsNot(id), rest);
    } else {
      var e :| e in docs && e.id == id;
      assert e in rest;
      RetainRemovesOne(rest, id);
    }
  }

  /** The listed ids are unique: each id names one document. */
  lemma ListedIdsUnique(docs: seq<Document>)
    requires Ascending(docs)
    ensures forall i, j :: 0 <= i < |docs| && 0 <= j < |docs| && Map(Info, docs)[i].id == Map(Info, docs)[j].id ==> i == j
  {
  }

  function Info(d: Document): DocumentInfo
  {
    DocumentInfo(d.id, d.name)
  }

  /**
   * `AppState`: the documents in store order and the next id to hand out.
   * Ids strictly increase along the store and stay below `nextId`, and
   * every index is the one built from its document's text.
   */
  class AppState {
    var docs: seq<Document>
    var nextId: nat

    ghost predicate Valid()
      reads this
    {
      Ascending(docs) && IdsBelow(docs, nextId) && Indexed(docs)
    }

    /** The state `build_rocket` manages: no documents, next id 0. */
    constructor ()
      ensures Valid() && docs == [] && nextId == 0
    {
      docs := [];
      nextId := 0;
    }

    /** The services' start-up state: the dataset's documents, with `next_id` continuing after them. */
    constructor FromDataset(dataset: Option<seq<PdfFile>>)
      ensures Valid() && docs == LoadPdfsFromDataset(dataset) && nextId == |docs|
    {
      var loaded := LoadPdfsFromDataset(dataset);
      docs := loaded;
      nextId := |loaded|;
    }

    /**
     * The loop of the locked part of `upload_files`: each processed document
     * is pushed under the next id, in order. An internal step of
     * StoreProcessed: it does not promise Valid(), which StoreProcessed
     * re-establishes through AppendNumbered.
     */
    method PushProcessed(processed: seq<Processed>) returns (newIds: seq<DocId>)
      modifies this
      ensures docs == old(docs) + AssignIds(old(nextId), processed)
      ensures nextId == old(nextId) + |processed|
      ensures newIds == IdRange(old(nextId), |processed|)
    {
      ghost var before, start := docs, nextId;
      newIds := [];
      var i := 0;
      while i < |processed|
        invariant 0 <= i <= |processed|
        invariant nextId == start + i
        invariant StoredAfter(docs, before, start, processed, i)
        invariant newIds == IdRange(start, i)
      {
        var p := processed[i];
        StoredAfterNext(docs, before, start, processed, i);
        IdRangeNext(start, i);
        newIds := newIds + [nextId];
        docs := docs + [Document(nextId, p.name, p.content, p.wordCounts)];
        nextId := nextId + 1;
        i := i + 1;
      }
      StoredAfterAll(docs, before, start, processed);
    }

    /** The locked part of `upload_files`, which keeps the store's invariant. */
    method StoreProcessed(processed: seq<Processed>) returns (newIds: seq<DocId>)
      requires Valid()
      requires forall k :: 0 <= k < |processed| ==> processed[k].wordCounts == BuildWordCounts(processed[k].content)
      modifies this
      ensures Valid()
      ensures docs == old(docs) + AssignIds(old(nextId), processed)
      ensures nextId == old(nextId) + |processed|
      ensures newIds == IdRange(old(nextId), |processed|)
    {
      AppendNumbered(docs, nextId, processed);
      newIds := PushProcessed(processed);
    }

    /**
     * `upload_files`: the files are indexed, then stored in input order with
     * ids `nextId, nextId + 1, ...`; the response gives the new store size and
     * the assigned ids.
     */
    method UploadFiles(files: seq<UploadedFile>) returns (resp: UploadResponse)
      requires Valid()
      modifies this
      ensures Valid()
      ensures docs == old(docs) + AssignIds(old(nextId), ProcessFiles(files))
      ensures nextId == old(nextId) + |files|
      ensures resp.totalFiles == |docs| == |old(docs)| + |files|
      ensures resp.docIds == IdRange(old(nextId), |files|)
    {
      var processed := ProcessFiles(files);
      var newIds := StoreProcessed(processed);
      resp := UploadResponse(|docs|, newIds);
    }

    /** `list_docs`: id and name of every document, in store order. */
    function ListDocs(): (r: seq<DocumentInfo>)
      reads this
      ensures |r| == |docs|
      ensures forall i :: 0 <= i < |docs| ==> r[i].id == docs[i].id && r[i].name == docs[i].name
    {
      Map(Info, docs)
    }

    /** `get_stats` (integer counters): the word total is the number of tokens of the stored texts. */
    ghost function GetStats(): (s: DocStats)
      requires Valid()
      reads this
      ensures s.totalDocs == |docs|
      ensures s.totalWords == Sum(Map(TokenCount, docs))
      ensures s.totalBytes == Sum(Map(DocBytes, docs))
    {
      assert forall d :: d in docs ==> d.wordCounts == BuildWordCounts(d.content);
      TotalWordsIsTokenCount(docs);
      CalculateDocStats(docs)
    }

    /**
     * `search`: one result per trimmed, non-empty requested word, in request
     * order, whichever of the sequential and parallel branches runs.
     */
    function Search(requested: seq<string>): (r: seq<WordResult>)
      reads this
      ensures r == SearchWordsSequential(docs, RequestWords(requested))
    {
      var words := RequestWords(requested);
      ParMapIsMap(PrefilteredSearcher(docs), words);
      assert Map(PrefilteredSearcher(docs), words) == SearchWordsSequential(docs, words);
      if |words| <= 1 then Map(PrefilteredSearcher(docs), words)
      else ParMap(PrefilteredSearcher(docs), words)
    }

    /**
     * `delete_doc`: retains the documents whose id differs; when that removes
     * nothing the id was absent and the store is unchanged, otherwise exactly
     * that one document is gone and the rest keep their order.
     */
    method DeleteDoc(id: DocId) returns (r: Result<DeleteResponse, DeleteError>)
      requires Valid()
      modifies this
      ensures Valid() && nextId == old(nextId)
      ensures !HasId(old(docs), id) ==> r == Err(NotFound(id)) && docs == old(docs)
      ensures HasId(old(docs), id) ==>
        && r == Ok(DeleteResponse(true, |docs|))
        && docs == Filter(IdIsNot(id), old(docs))
        && |docs| == |old(docs)| - 1
    {
      var before := |docs|;
      ghost var was := docs;
      docs := Filter(IdIsNot(id), docs);
      FilterKeepsAscending(IdIsNot(id), was);
      if HasId(was, id) {
        RetainRemovesOne(was, id);
      } else {
        assert forall i :: 0 <= i < |was| ==> IdIsNot(id)(was[i]) by {
          forall i | 0 <= i < |was| ensures IdIsNot(id)(was[i]) { assert was[i] in was; }
        }
        FilterKeepsAll(IdIsNot(id), was);
      }
      forall i | 0 <= i < |docs|
        ensures docs[i].id < nextId && docs[i].wordCounts == BuildWordCounts(docs[i].content)
      {
        assert docs[i] in was;
      }
      if |docs| == before {
        r := Err(NotFound(id));
      } else {
        r := Ok(DeleteResponse(true, |docs|));
      }
    }

    /** `delete_all_docs`: no documents, and the next id is 0 again. */
    method DeleteAllDocs() returns (r: DeleteAllResponse)
      modifies this
      ensures Valid() && docs == [] && nextId == 0
      ensures r == DeleteAllResponse(true, 0)
    {
      docs := [];
      nextId := 0;
      r := DeleteAllResponse(true, 0);
    }
  }

  /** After delete-all, the next uploaded document gets id 0. */
  method DeleteAllThenUpload(state: AppState, file: UploadedFile) returns (resp: UploadResponse)
    requires state.Valid()
    modifies state
    ensures resp.docIds == [0] && resp.totalFiles == 1
    ensures state.docs == [Document(0, file.name, file.content, BuildWordCounts(file.content))]
  {
    var _ := state.DeleteAllDocs();
    resp := state.UploadFiles([file]);
    assert |resp.docIds| == 1;
  }
}
