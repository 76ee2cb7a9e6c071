/**
 * Tokenizer and word-count index builder (utils/text_processor.rs).
 * A token is a whitespace-separated fragment with every non-alphanumeric
 * character removed and the rest lower-cased; empty tokens are dropped.
 * Letters and digits are the ASCII ones.
 */
module TextProcessor {
  import opened Collections
  import opened Str

  /** `char::is_alphanumeric`, on ASCII. */
  predicate IsAlnum(c: char)
  {
    ('a' <= c <= 'z') || ('A' <= c <= 'Z') || ('0' <= c <= '9')
  }

  /** `to_lowercase` of one character, on ASCII. */
  function Lower(c: char): (r: char)
    ensures 'A' <= c <= 'Z' ==> 'a' <= r <= 'z' && r as int - 'a' as int == c as int - 'A' as int
    ensures !('A' <= c <= 'Z') ==> r == c
    ensures IsAlnum(r) <==> IsAlnum(c)
  {
    if 'A' <= c <= 'Z' then (c as int + 32) as char else c
  }

  /** A normalized token: alphanumeric characters only, none of them upper-case. */
  predicate IsToken(t: string)
  {
    forall i :: 0 <= i < |t| ==> IsAlnum(t[i]) && Lower(t[i]) == t[i]
  }

  /** `normalize_token`: keep the alphanumeric characters, then lower-case them. */
  function NormalizeToken(t: string): (r: string)
    ensures IsToken(r)
    ensures |r| <= |t|
  {
    var kept := Filter(IsAlnum, t);
    var r := Map(Lower, kept);
    assert forall i :: 0 <= i < |r| ==> IsAlnum(kept[i]) by {
      forall i | 0 <= i < |r| ensures IsAlnum(kept[i]) { assert kept[i] in kept; }
    }
    r
  }

  /**
   * One character: an alphanumeric is kept in its lower-case form, anything
   * else is dropped. With NormalizeTokenConcat this fixes the result on every input.
   */
  lemma NormalizeTokenChar(c: char)
    ensures NormalizeToken([c]) == if IsAlnum(c) then [Lower(c)] else []
  {
    assert [c][1..] == [];
  }

  /** The normalized tokens are exactly the fixed points of normalization. */
  lemma NormalizeTokenFixpoint(t: string)
    ensures NormalizeToken(t) == t <==> IsToken(t)
  {
    if IsToken(t) {
      FilterKeepsAll(IsAlnum, t);
      assert Map(Lower, t) == t;
    }
  }

  /** Normalizing twice is normalizing once. */
  lemma NormalizeTokenIdempotent(t: string)
    ensures NormalizeToken(NormalizeToken(t)) == NormalizeToken(t)
  {
    NormalizeTokenFixpoint(NormalizeToken(t));
  }

  /** Normalization works character by character, so it distributes over concatenation. */
  lemma NormalizeTokenConcat(a: string, b: string)
    ensures NormalizeToken(a + b) == NormalizeToken(a) + NormalizeToken(b)
  {
    FilterConcat(IsAlnum, a, b);
    MapConcat(Lower, Filter(IsAlnum, a), Filter(IsAlnum, b));
  }

  predicate NonEmpty(w: string)
  {
    w != []
  }

  /** `tokenize`: split on whitespace, normalize each fragment, drop the empty ones. */
  function Tokenize(text: string): (r: seq<string>)
    ensures forall t :: t in r ==> t != [] && IsToken(t)
    ensures |r| <= |SplitWhitespace(text)|
  {
    var r := Filter(NonEmpty, Map(NormalizeToken, SplitWhitespace(text)));
    assert forall t :: t in r ==> t in Map(NormalizeToken, SplitWhitespace(text));
    r
  }

  /** The token a fragment contributes, if any. */
  function TokenOf(fragment: string): seq<string>
  {
    var t := NormalizeToken(fragment);
    if t == [] then [] else [t]
  }

  /** Each fragment contributes its own token, in fragment order. */
  lemma {:induction false} TokenizeFragments(fragments: seq<string>)
    ensures Filter(NonEmpty, Map(NormalizeToken, fragments)) == Flatten(Map(TokenOf, fragments))
    decreases |fragments|
  {
    if fragments != [] {
      var f, rest := fragments[0], fragments[1..];
      assert fragments == [f] + rest;
      MapConcat(NormalizeToken, [f], rest);
      FilterConcat(NonEmpty, [NormalizeToken(f)], Map(NormalizeToken, rest));
      assert Map(TokenOf, fragments)[1..] == Map(TokenOf, rest);
      TokenizeFragments(rest);
    }
  }

  /** Tokenize yields, in order, the non-empty normalization of each fragment of the text. */
  lemma TokenizeInFragmentOrder(text: string)
    ensures Tokenize(text) == Flatten(Map(TokenOf, SplitWhitespace(text)))
  {
    TokenizeFragments(SplitWhitespace(text));
  }

  /** A token occurs in `tokenize(text)` exactly when it is the non-empty normalization of a fragment. */
  lemma TokenizeMembers(text: string, t: string)
    ensures t in Tokenize(text) <==> t != [] && exists f :: f in SplitWhitespace(text) && NormalizeToken(f) == t
  {
    var fragments := SplitWhitespace(text);
    var normalized := Map(NormalizeToken, fragments);
    if t in Tokenize(text) {
      assert t in normalized;
      var i :| 0 <= i < |normalized| && normalized[i] == t;
      assert fragments[i] in fragments;
    }
    if t != [] && exists f :: f in fragments && NormalizeToken(f) == t {
      var f :| f in fragments && NormalizeToken(f) == t;
      var i :| 0 <= i < |fragments| && fragments[i] == f;
      assert normalized[i] == t;
    }
  }

  /** Round trip: tokens written out with spaces between them tokenize back to themselves. */
  lemma TokenizeUnwords(ws: seq<string>)
    requires forall w :: w in ws ==> w != [] && IsToken(w)
    ensures Tokenize(Unwords(ws)) == ws
  {
    forall w | w in ws ensures NoWhitespace(w) {
      forall i | 0 <= i < |w| ensures !IsWhitespace(w[i]) { assert IsAlnum(w[i]); }
    }
    SplitUnwords(ws);
    forall i | 0 <= i < |ws| ensures NormalizeToken(ws[i]) == ws[i] {
      assert ws[i] in ws;
      NormalizeTokenFixpoint(ws[i]);
    }
    assert Map(NormalizeToken, ws) == ws;
    FilterKeepsAll(NonEmpty, ws);
    assert forall i :: 0 <= i < |ws| ==> NonEmpty(ws[i]) by {
      forall i | 0 <= i < |ws| ensures NonEmpty(ws[i]) { assert ws[i] in ws; }
    }
  }

  /**
   * One step of the `build_word_counts` fold: the map is rebuilt from every
   * other entry plus `(word, old count or 0, plus one)`.
   */
  function RebuildStep(acc: map<string, nat>, word: string): (r: map<string, nat>)
    ensures r.Keys == acc.Keys + {word}
    ensures r[word] == CountOf(acc, word) + 1
    ensures forall k :: k in acc && k != word ==> r[k] == acc[k]
  {
    var count := CountOf(acc, word) + 1;
    (map k | k in acc && k != word :: acc[k]) + map[word := count]
  }

  /** Folding tokens into a map adds each token's multiplicity to its count. */
  lemma {:induction false} FoldCounts(acc: map<string, nat>, ts: seq<string>)
    ensures forall w :: w in FoldLeft(RebuildStep, acc, ts) <==> w in acc || w in ts
    ensures forall w :: CountOf(FoldLeft(RebuildStep, acc, ts), w) == CountOf(acc, w) + multiset(ts)[w]
    decreases |ts|
  {
    if ts != [] {
      var next := RebuildStep(acc, ts[0]);
      FoldCounts(next, ts[1..]);
      assert ts == [ts[0]] + ts[1..];
      assert multiset(ts) == multiset([ts[0]]) + multiset(ts[1..]);
      forall w ensures CountOf(next, w) == CountOf(acc, w) + (if w == ts[0] then 1 else 0) {
      }
    }
  }

  /**
   * `build_word_counts`: the keys are exactly the distinct tokens of the text,
   * and each value is that token's multiplicity (hence at least one).
   */
  function BuildWordCounts(text: string): (r: map<string, nat>)
    ensures forall w :: w in r <==> w in Tokenize(text)
    ensures forall w :: w in r ==> r[w] == multiset(Tokenize(text))[w] && r[w] >= 1
  {
    var r := FoldLeft(RebuildStep, map[], Tokenize(text));
    FoldCounts(map[], Tokenize(text));
    assert forall w :: w in r ==> r[w] == CountOf(r, w);
    r
  }

  /** Folding tokens into a map raises the sum of its values by the number of tokens. */
  lemma {:induction false} FoldCountsSum(acc: map<string, nat>, ts: seq<string>)
    ensures SumValues(FoldLeft(RebuildStep, acc, ts)) == SumValues(acc) + |ts|
    decreases |ts|
  {
    if ts != [] {
      var w := ts[0];
      var next := RebuildStep(acc, w);
      assert next == acc[w := CountOf(acc, w) + 1];
      SumValuesUpdate(acc, w, CountOf(acc, w) + 1);
      FoldCountsSum(next, ts[1..]);
    }
  }

  /** The counts of a text's index add up to its number of tokens. */
  lemma BuildWordCountsSum(text: string)
    ensures SumValues(BuildWordCounts(text)) == |Tokenize(text)|
  {
    FoldCountsSum(map[], Tokenize(text));
  }
}
