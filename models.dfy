/**
 * The records the service passes around (models/document.rs and
 * models/response.rs). `usize` becomes `nat`; a `HashMap<String, usize>`
 * becomes a `map<string, nat>`.
 */
module Models {

  type DocId = nat

  /** Token -> number of occurrences in one document. */
  type WordCounts = map<string, nat>

  datatype Document = Document(id: DocId, name: string, content: string, wordCounts: WordCounts)

  datatype DocumentInfo = DocumentInfo(id: DocId, name: string)

  /** One document's share of a word's occurrences. */
  datatype PerDocCount = PerDocCount(docId: DocId, docName: string, count: nat)

  /** The outcome of searching one word across the whole store. */
  datatype WordResult = WordResult(word: string, totalCount: nat, perDoc: seq<PerDocCount>)

  /** A document's name, its text and the index built from that text, before it gets an id. */
  datatype Processed = Processed(name: string, content: string, wordCounts: WordCounts)
}
