/**
 * The query engine (services/search_service.rs): single-word search over the
 * store snapshot, and the sequential and parallel multi-word searches.
 */
module SearchService {
  import opened Wrappers
  import opened Collections
  import opened Str
  import opened TextProcessor
  import opened Models

  /** `split_query_into_words`: trimming the fragments and dropping empty ones changes nothing. */
  function SplitQueryIntoWords(query: string): (r: seq<string>)
    ensures r == SplitWhitespace(query)
    ensures forall w :: w in r ==> w != [] && NoWhitespace(w)
  {
    var fragments := SplitWhitespace(query);
    var trimmed := Map(Trim, fragments);
    assert trimmed == fragments by {
      forall i | 0 <= i < |fragments| ensures trimmed[i] == fragments[i] {
        assert fragments[i] in fragments;
      }
    }
    assert forall i :: 0 <= i < |fragments| ==> NonEmpty(fragments[i]) by {
      forall i | 0 <= i < |fragments| ensures NonEmpty(fragments[i]) { assert fragments[i] in fragments; }
    }
    FilterKeepsAll(NonEmpty, fragments);
    Filter(NonEmpty, trimmed)
  }

  /**
   * The `filter_map` closure of `search_single_word`: a document contributes
   * an entry when its index maps the word to a positive count.
   */
  function MatchEntry(word: string, doc: Document): (r: Option<PerDocCount>)
    ensures r.Some? <==> CountOf(doc.wordCounts, word) > 0
    ensures r.Some? ==> r.value == PerDocCount(doc.id, doc.name, CountOf(doc.wordCounts, word))
  {
    if word in doc.wordCounts && doc.wordCounts[word] > 0
    then Some(PerDocCount(doc.id, doc.name, doc.wordCounts[word]))
    else None
  }

  function Matcher(word: string): Document -> Option<PerDocCount>
  {
    doc => MatchEntry(word, doc)
  }

  /** The `per_doc` list of `search_single_word`. */
  function PerDoc(docs: seq<Document>, word: string): (r: seq<PerDocCount>)
    ensures |r| <= |docs|
    ensures forall e :: e in r ==> e.count > 0
  {
    var r := FilterMap(Matcher(word), docs);
    forall e | e in r ensures e.count > 0 {
      var d :| d in docs && Matcher(word)(d) == Some(e);
    }
    r
  }

  /**
   * `per_doc` holds one entry, carrying id, name and count, for exactly the
   * documents whose index gives the word a positive count.
   */
  lemma PerDocMembers(docs: seq<Document>, word: string)
    ensures forall e :: e in PerDoc(docs, word) ==> e.count > 0
    ensures forall e :: e in PerDoc(docs, word) ==>
      exists d :: d in docs && e == PerDocCount(d.id, d.name, CountOf(d.wordCounts, word))
    ensures forall d :: d in docs && CountOf(d.wordCounts, word) > 0 ==>
      PerDocCount(d.id, d.name, CountOf(d.wordCounts, word)) in PerDoc(docs, word)
  {
    var r := PerDoc(docs, word);
    forall d | d in docs && CountOf(d.wordCounts, word) > 0
      ensures PerDocCount(d.id, d.name, CountOf(d.wordCounts, word)) in r
    {
      assert Matcher(word)(d).Some?;
    }
  }

  /** `per_doc` keeps store order: the entries of a concatenation are the entries of each part. */
  lemma PerDocOrder(a: seq<Document>, b: seq<Document>, word: string)
    ensures PerDoc(a + b, word) == PerDoc(a, word) + PerDoc(b, word)
  {
    FilterMapConcat(Matcher(word), a, b);
  }

  /** The entry a single document contributes. */
  lemma PerDocSingle(d: Document, word: string)
    ensures PerDoc([d], word) ==
      if CountOf(d.wordCounts, word) > 0 then [PerDocCount(d.id, d.name, CountOf(d.wordCounts, word))] else []
  {
    assert [d][1..] == [];
  }

  function EntryCount(e: PerDocCount): nat
  {
    e.count
  }

  /** `calculate_total_count`: the sum of the entries' counts. */
  function CalculateTotalCount(perDoc: seq<PerDocCount>): (r: nat)
    ensures r == 0 <==> forall e :: e in perDoc ==> e.count == 0
  {
    var counts := Map(EntryCount, perDoc);
    SumZero(counts);
    assert (forall e :: e in perDoc ==> e.count == 0) <==> (forall i :: 0 <= i < |counts| ==> counts[i] == 0) by {
      if forall i :: 0 <= i < |counts| ==> counts[i] == 0 {
        forall e | e in perDoc ensures e.count == 0 {
          var i :| 0 <= i < |perDoc| && perDoc[i] == e;
          assert counts[i] == 0;
        }
      }
    }
    Sum(counts)
  }

  /** `count_word_recursive`: walks the documents from `index`, accumulating every count (zero when absent). */
  function CountWordRecursive(docs: seq<Document>, word: string, index: nat, acc: nat): (r: nat)
    ensures acc <= r
    decreases |docs| - index
  {
    if index >= |docs| then acc
    else CountWordRecursive(docs, word, index + 1, acc + CountOf(docs[index].wordCounts, word))
  }

  lemma TotalCountConcat(a: seq<PerDocCount>, b: seq<PerDocCount>)
    ensures CalculateTotalCount(a + b) == CalculateTotalCount(a) + CalculateTotalCount(b)
  {
    MapConcat(EntryCount, a, b);
    SumConcat(Map(EntryCount, a), Map(EntryCount, b));
  }

  /** A document followed by others: its own count comes first in the total. */
  lemma TotalCountCons(d: Document, rest: seq<Document>, word: string)
    ensures CalculateTotalCount(PerDoc([d] + rest, word))
         == CountOf(d.wordCounts, word) + CalculateTotalCount(PerDoc(rest, word))
  {
    PerDocOrder([d], rest, word);
    PerDocSingle(d, word);
    TotalCountConcat(PerDoc([d], word), PerDoc(rest, word));
    if CountOf(d.wordCounts, word) > 0 {
      assert Map(EntryCount, PerDoc([d], word)) == [CountOf(d.wordCounts, word)];
    }
  }

  /** The recursive walk from `index` adds to `acc` the total of the entries of the remaining documents. */
  lemma {:induction false} RecursiveCountIsTotal(docs: seq<Document>, word: string, index: nat, acc: nat)
    requires index <= |docs|
    ensures CountWordRecursive(docs, word, index, acc) == acc + CalculateTotalCount(PerDoc(docs[index..], word))
    decreases |docs| - index
  {
    if index < |docs| {
      var d, tail := docs[index], docs[index + 1..];
      var acc' := acc + CountOf(d.wordCounts, word);
      assert CountWordRecursive(docs, word, index, acc) == CountWordRecursive(docs, word, index + 1, acc');
      RecursiveCountIsTotal(docs, word, index + 1, acc');
      assert docs[index..] == [d] + tail;
      TotalCountCons(d, tail, word);
    } else {
      assert docs[index..] == [];
    }
  }

  /** The debug assertion of `search_single_word`: the iterative total equals the recursive one. */
  lemma DebugTotalMatchesRecursive(docs: seq<Document>, word: string)
    ensures CalculateTotalCount(PerDoc(docs, word)) == CountWordRecursive(docs, word, 0, 0)
  {
    RecursiveCountIsTotal(docs, word, 0, 0);
    assert docs[0..] == docs;
  }

  /**
   * `search_single_word`: the normalized word, its per-document entries
   * (positive counts only, store order) and their total, which the debug
   * build re-checks against `count_word_recursive`.
   */
  function SearchSingleWord(docs: seq<Document>, rawWord: string): (r: WordResult)
    ensures r.word == NormalizeToken(rawWord)
    ensures r.perDoc == PerDoc(docs, r.word)
    ensures r.totalCount == CalculateTotalCount(r.perDoc)
    ensures forall e :: e in r.perDoc ==> e.count > 0
    ensures r.totalCount == CountWordRecursive(docs, r.word, 0, 0)
  {
    var word := NormalizeToken(rawWord);
    var perDoc := PerDoc(docs, word);
    var totalCount := CalculateTotalCount(perDoc);
    PerDocMembers(docs, word);
    DebugTotalMatchesRecursive(docs, word);
    WordResult(word, totalCount, perDoc)
  }

  /** A word no document counts gives no entries and a zero total, and only such a word does. */
  lemma SearchNothingFound(docs: seq<Document>, rawWord: string)
    ensures var r := SearchSingleWord(docs, rawWord);
      (r.perDoc == [] <==> forall d :: d in docs ==> CountOf(d.wordCounts, r.word) == 0)
      && (r.totalCount == 0 <==> r.perDoc == [])
  {
    var r := SearchSingleWord(docs, rawWord);
    PerDocMembers(docs, r.word);
    if r.perDoc != [] {
      var e := r.perDoc[0];
      assert e in r.perDoc;
      var counts := Map(EntryCount, r.perDoc);
      assert counts[0] == e.count > 0;
      assert r.totalCount >= counts[0];
    }
  }

  function Searcher(docs: seq<Document>): string -> WordResult
  {
    w => SearchSingleWord(docs, w)
  }

  /** `search_words_sequential`: one result per word, in word order. */
  function SearchWordsSequential(docs: seq<Document>, words: seq<string>): (r: seq<WordResult>)
    ensures |r| == |words|
    ensures forall i :: 0 <= i < |words| ==> r[i] == SearchSingleWord(docs, words[i])
  {
    Map(Searcher(docs), words)
  }

  /** `search_words_parallel`: the same results as the sequential search, in the same order. */
  function SearchWordsParallel(docs: seq<Document>, words: seq<string>): (r: seq<WordResult>)
    ensures r == SearchWordsSequential(docs, words)
  {
    ParMapIsMap(Searcher(docs), words);
    ParMap(Searcher(docs), words)
  }
}
