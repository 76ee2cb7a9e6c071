/**
 * Document creation, dataset loading after text extraction, and corpus
 * statistics (services/document_service.rs).
 */
module DocumentService {
  import opened Wrappers
  import opened Collections
  import opened Str
  import opened TextProcessor
  import opened Models

  /** `create_document` */
  function CreateDocument(id: DocId, name: string, content: string, wordCounts: WordCounts): (d: Document)
    ensures d.id == id && d.name == name && d.content == content && d.wordCounts == wordCounts
  {
    Document(id, name, content, wordCounts)
  }

  /**
   * A PDF file of the dataset folder, as reading and extraction left it: its
   * file name, and its text unless reading, decoding or extracting failed.
   */
  datatype PdfFile = PdfFile(fileName: string, extracted: Option<string>)

  /**
   * `process_pdf_file` once the text is extracted: a failed extraction or a
   * blank text skips the file; otherwise the text is indexed.
   */
  function ProcessPdfFile(file: PdfFile): (r: Option<Processed>)
    ensures r.Some? <==> file.extracted.Some? && !AllWhitespace(file.extracted.value)
    ensures r.Some? ==> r.value.name == file.fileName && r.value.content == file.extracted.value
    ensures r.Some? ==> r.value.wordCounts == BuildWordCounts(r.value.content)
  {
    match file.extracted
    case None => None
    case Some(content) =>
      if Trim(content) == [] then None
      else Some(Processed(file.fileName, content, BuildWordCounts(content)))
  }

  /**
   * The `enumerate`/`create_document` step: the i-th processed document gets
   * id `start + i` and keeps its name, text and index.
   */
  function AssignIds(start: nat, processed: seq<Processed>): (docs: seq<Document>)
    ensures |docs| == |processed|
    ensures forall k :: 0 <= k < |docs| ==>
      && docs[k].id == start + k
      && docs[k].name == processed[k].name
      && docs[k].content == processed[k].content
      && docs[k].wordCounts == processed[k].wordCounts
    decreases |processed|
  {
    if processed == [] then []
    else
      var p := processed[0];
      [CreateDocument(start, p.name, p.content, p.wordCounts)] + AssignIds(start + 1, processed[1..])
  }

  /** Numbering a concatenation numbers the second part from where the first stopped. */
  lemma AssignIdsConcat(start: nat, a: seq<Processed>, b: seq<Processed>)
    ensures AssignIds(start, a + b) == AssignIds(start, a) + AssignIds(start + |a|, b)
  {
    var l, r := AssignIds(start, a + b), AssignIds(start, a) + AssignIds(start + |a|, b);
    forall k | 0 <= k < |l| ensures l[k] == r[k] {
      if k < |a| { assert (a + b)[k] == a[k]; } else { assert (a + b)[k] == b[k - |a|]; }
    }
  }

  /**
   * `load_pdfs_from_dataset`, given the folder's PDF files (None when the
   * folder does not exist): the files that yield text, numbered from 0, each
   * indexed from its own text.
   */
  function LoadPdfsFromDataset(dataset: Option<seq<PdfFile>>): (docs: seq<Document>)
    ensures dataset.None? ==> docs == []
    ensures dataset.Some? ==> docs == AssignIds(0, FilterMap(ProcessPdfFile, dataset.value))
    ensures dataset.Some? ==> |docs| <= |dataset.value|
    ensures forall k :: 0 <= k < |docs| ==> docs[k].id == k
    ensures forall k :: 0 <= k < |docs| ==>
      docs[k].wordCounts == BuildWordCounts(docs[k].content) && !AllWhitespace(docs[k].content)
  {
    match dataset
    case None => []
    case Some(files) =>
      var processed := FilterMap(ProcessPdfFile, files);
      var docs := AssignIds(0, processed);
      forall k | 0 <= k < |docs|
        ensures docs[k].wordCounts == BuildWordCounts(docs[k].content) && !AllWhitespace(docs[k].content)
      {
        assert processed[k] in processed;
      }
      docs
  }

  /** Numbering zero or one more processed document gives it the id after the others. */
  lemma AssignIdsAppendOption(a: seq<Processed>, o: Option<Processed>)
    ensures AssignIds(0, a + AsSeq(o)) == AssignIds(0, a) +
      match o
      case Some(p) => [Document(|a|, p.name, p.content, p.wordCounts)]
      case None => []
  {
    AssignIdsConcat(0, a, AsSeq(o));
  }

  /**
   * Files are loaded in folder order: one more file adds, after the documents
   * loaded so far, one document under the next id exactly when it yields text.
   */
  lemma LoadAppendFile(files: seq<PdfFile>, f: PdfFile)
    ensures var before := LoadPdfsFromDataset(Some(files));
      LoadPdfsFromDataset(Some(files + [f])) == before +
        match ProcessPdfFile(f)
        case Some(p) => [Document(|before|, p.name, p.content, p.wordCounts)]
        case None => []
  {
    var a := FilterMap(ProcessPdfFile, files);
    FilterMapConcat(ProcessPdfFile, files, [f]);
    assert FilterMap(ProcessPdfFile, [f]) == AsSeq(ProcessPdfFile(f)) by { assert [f][1..] == []; }
    AssignIdsAppendOption(a, ProcessPdfFile(f));
  }

  /** Every loaded document is a dataset file whose text could be extracted. */
  lemma LoadedDocumentsComeFromFiles(files: seq<PdfFile>)
    ensures forall d :: d in LoadPdfsFromDataset(Some(files)) ==>
      exists f :: f in files && f.fileName == d.name && f.extracted == Some(d.content)
  {
    var processed := FilterMap(ProcessPdfFile, files);
    var docs := AssignIds(0, processed);
    forall d | d in docs
      ensures exists f :: f in files && f.fileName == d.name && f.extracted == Some(d.content)
    {
      var k :| 0 <= k < |docs| && docs[k] == d;
      var p := processed[k];
      assert p in processed;
      var f :| f in files && ProcessPdfFile(f) == Some(p);
    }
  }

  /** Numbering keeps every processed document, under some id. */
  lemma AssignIdsKeepsAll(start: nat, processed: seq<Processed>)
    ensures forall p :: p in processed ==>
      exists d :: d in AssignIds(start, processed) && d.name == p.name && d.content == p.content
  {
    var docs := AssignIds(start, processed);
    forall p | p in processed ensures exists d :: d in docs && d.name == p.name && d.content == p.content {
      var k :| 0 <= k < |processed| && processed[k] == p;
      assert docs[k] in docs;
    }
  }

  /** Every dataset file whose text could be extracted and is not blank is loaded. */
  lemma LoadedDocumentsCoverFiles(files: seq<PdfFile>)
    ensures forall f :: f in files && ProcessPdfFile(f).Some? ==>
      exists d :: d in LoadPdfsFromDataset(Some(files)) && d.name == f.fileName && Some(d.content) == f.extracted
  {
    var processed := FilterMap(ProcessPdfFile, files);
    AssignIdsKeepsAll(0, processed);
  }

  /** The integer part of `calculate_doc_stats`, plus the average as an exact rational. */
  datatype DocStats = DocStats(totalDocs: nat, totalWords: nat, totalBytes: nat, avgWords: real)

  /** The number of words a document's index counts; no single word counts more. */
  ghost function DocWords(d: Document): (r: nat)
    ensures forall w :: w in d.wordCounts ==> d.wordCounts[w] <= r
  {
    forall w | w in d.wordCounts ensures d.wordCounts[w] <= SumValues(d.wordCounts) {
      SumValuesRemove(d.wordCounts, w);
    }
    SumValues(d.wordCounts)
  }

  /** The document's size in UTF-8 bytes. */
  function DocBytes(d: Document): (r: nat)
    ensures |d.content| <= r <= 4 * |d.content|
  {
    Utf8Len(d.content)
  }

  /**
   * `calculate_doc_stats`: document count, the sum of every index's values,
   * the sum of the content lengths in bytes, and their average (0 when there
   * are no documents).
   */
  ghost function CalculateDocStats(docs: seq<Document>): (s: DocStats)
    ensures s.totalDocs == |docs|
    ensures docs == [] ==> s == DocStats(0, 0, 0, 0.0)
    ensures s.totalDocs > 0 ==> s.avgWords * s.totalDocs as real == s.totalWords as real
  {
    var totalDocs := |docs|;
    var totalWords := Sum(Map(DocWords, docs));
    var totalBytes := Sum(Map(DocBytes, docs));
    var avgWords := if totalDocs > 0 then totalWords as real / totalDocs as real else 0.0;
    DocStats(totalDocs, totalWords, totalBytes, avgWords)
  }

  /** The counters of a concatenation are the sums of the parts' counters. */
  lemma StatsConcat(a: seq<Document>, b: seq<Document>)
    ensures CalculateDocStats(a + b).totalWords == CalculateDocStats(a).totalWords + CalculateDocStats(b).totalWords
    ensures CalculateDocStats(a + b).totalBytes == CalculateDocStats(a).totalBytes + CalculateDocStats(b).totalBytes
  {
    MapConcat(DocWords, a, b);
    SumConcat(Map(DocWords, a), Map(DocWords, b));
    MapConcat(DocBytes, a, b);
    SumConcat(Map(DocBytes, a), Map(DocBytes, b));
  }

  function TokenCount(d: Document): nat
  {
    |Tokenize(d.content)|
  }

  /** When every index was built from its document's text, the word total is the number of tokens. */
  lemma {:induction false} TotalWordsIsTokenCount(docs: seq<Document>)
    requires forall d :: d in docs ==> d.wordCounts == BuildWordCounts(d.content)
    ensures CalculateDocStats(docs).totalWords == Sum(Map(TokenCount, docs))
    decreases |docs|
  {
    if docs != [] {
      var d, rest := docs[0], docs[1..];
      assert docs == [d] + rest;
      assert d in docs;
      BuildWordCountsSum(d.content);
      TotalWordsIsTokenCount(rest);
      StatsConcat([d], rest);
      MapConcat(TokenCount, [d], rest);
      SumConcat(Map(TokenCount, [d]), Map(TokenCount, rest));
      assert Map(DocWords, [d]) == [DocWords(d)];
      assert Map(TokenCount, [d]) == [TokenCount(d)];
    }
  }
}
