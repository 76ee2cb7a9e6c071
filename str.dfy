/**
 * The parts of Rust's `str` the service relies on: `char::is_whitespace`,
 * `split_whitespace`, `trim` and the UTF-8 byte length `len()`.
 */
module Str {
  import opened Collections

  /** The Unicode White_Space property, which `char::is_whitespace` tests. */
  predicate IsWhitespace(c: char)
  {
    ('\t' <= c <= '\r') || c == ' ' || c == '\U{85}' || c == '\U{A0}' || c == '\U{1680}'
    || ('\U{2000}' <= c <= '\U{200A}') || c == '\U{2028}' || c == '\U{2029}'
    || c == '\U{202F}' || c == '\U{205F}' || c == '\U{3000}'
  }

  predicate NotWhitespace(c: char)
  {
    !IsWhitespace(c)
  }

  predicate NoWhitespace(w: string)
  {
    forall i :: 0 <= i < |w| ==> !IsWhitespace(w[i])
  }

  predicate AllWhitespace(w: string)
  {
    forall i :: 0 <= i < |w| ==> IsWhitespace(w[i])
  }

  /** Length of the longest prefix of `s` without whitespace. */
  function WordLen(s: string): (n: nat)
    ensures n <= |s|
    ensures NoWhitespace(s[..n])
    ensures n < |s| ==> IsWhitespace(s[n])
    decreases |s|
  {
    if s == [] || IsWhitespace(s[0]) then 0 else 1 + WordLen(s[1..])
  }

  /** `s.split_whitespace()`: the maximal runs of non-whitespace characters, in order. */
  function SplitWhitespace(s: string): (r: seq<string>)
    ensures forall w :: w in r ==> w != [] && NoWhitespace(w)
    decreases |s|
  {
    if s == [] then []
    else if IsWhitespace(s[0]) then SplitWhitespace(s[1..])
    else
      var n := WordLen(s);
      [s[..n]] + SplitWhitespace(s[n..])
  }

  /** The words joined, each followed by one space. */
  function Unwords(ws: seq<string>): string
    decreases |ws|
  {
    if ws == [] then [] else ws[0] + [' '] + Unwords(ws[1..])
  }

  /** Splitting loses exactly the whitespace: the fragments, concatenated, are `s` without it. */
  lemma {:induction false} SplitKeepsNonWhitespace(s: string)
    ensures Flatten(SplitWhitespace(s)) == Filter(NotWhitespace, s)
    decreases |s|
  {
    if s != [] {
      assert s == [s[0]] + s[1..];
      if IsWhitespace(s[0]) {
        SplitKeepsNonWhitespace(s[1..]);
      } else {
        var n := WordLen(s);
        assert s == s[..n] + s[n..];
        SplitKeepsNonWhitespace(s[n..]);
        FilterConcat(NotWhitespace, s[..n], s[n..]);
        FilterKeepsAll(NotWhitespace, s[..n]);
        assert Flatten(SplitWhitespace(s)) == s[..n] + Flatten(SplitWhitespace(s[n..]));
      }
    }
  }

  /** A whitespace-free word followed by whitespace is exactly one leading run. */
  lemma WordLenOfWord(w: string, t: string)
    requires NoWhitespace(w) && t != [] && IsWhitespace(t[0])
    ensures WordLen(w + t) == |w|
  {
    var s := w + t;
    assert forall i :: 0 <= i < |w| ==> !IsWhitespace(s[i]) by {
      forall i | 0 <= i < |w| ensures !IsWhitespace(s[i]) { assert s[i] == w[i]; }
    }
    assert IsWhitespace(s[|w|]);
    forall j | |w| < j <= |s| ensures !NoWhitespace(s[..j]) {
      assert s[..j][|w|] == s[|w|];
    }
  }

  /** Round trip: words free of whitespace, joined by spaces, split back into the same words. */
  lemma {:induction false} SplitUnwords(ws: seq<string>)
    requires forall w :: w in ws ==> w != [] && NoWhitespace(w)
    ensures SplitWhitespace(Unwords(ws)) == ws
    decreases |ws|
  {
    if ws != [] {
      var w, s := ws[0], Unwords(ws);
      var rest := Unwords(ws[1..]);
      assert w in ws;
      assert s == w + ([' '] + rest);
      assert s[0] == w[0];
      WordLenOfWord(w, [' '] + rest);
      var n := WordLen(s);
      assert s[..n] == w;
      assert s[n..] == [' '] + rest;
      assert ([' '] + rest)[1..] == rest;
      assert forall v :: v in ws[1..] ==> v in ws;
      SplitUnwords(ws[1..]);
    }
  }

  /** A text without whitespace is one run, whatever follows it. */
  lemma {:induction false} WordLenOfRun(w: string)
    requires NoWhitespace(w)
    ensures WordLen(w) == |w|
    decreases |w|
  {
    if w != [] {
      assert !IsWhitespace(w[0]);
      assert NoWhitespace(w[1..]) by {
        forall i | 0 <= i < |w[1..]| ensures !IsWhitespace(w[1..][i]) { assert w[1..][i] == w[i + 1]; }
      }
      WordLenOfRun(w[1..]);
    }
  }

  /** A non-empty word without whitespace is a single fragment. */
  lemma SplitWord(w: string)
    requires w != [] && NoWhitespace(w)
    ensures SplitWhitespace(w) == [w]
  {
    WordLenOfRun(w);
    assert w[..|w|] == w && w[|w|..] == [];
  }

  /** The leading run does not reach past the first whitespace, so text appended after it does not change it. */
  lemma {:induction false} WordLenAppend(x: string, y: string)
    requires WordLen(x) < |x|
    ensures WordLen(x + y) == WordLen(x)
    decreases |x|
  {
    if !IsWhitespace(x[0]) {
      assert (x + y)[0] == x[0];
      assert (x + y)[1..] == x[1..] + y;
      WordLenAppend(x[1..], y);
    }
  }

  /**
   * A whitespace character separates fragments: the fragments of `a`, then
   * those of `b`. With SplitWord this fixes the fragments of every text, as
   * the maximal runs of non-whitespace characters.
   */
  lemma {:induction false} SplitAtWhitespace(a: string, c: char, b: string)
    requires IsWhitespace(c)
    ensures SplitWhitespace(a + [c] + b) == SplitWhitespace(a) + SplitWhitespace(b)
    decreases |a|
  {
    var s := a + [c] + b;
    if a == [] {
      assert s == [c] + b && s[1..] == b;
    } else if IsWhitespace(a[0]) {
      assert s[0] == a[0];
      assert s[1..] == a[1..] + [c] + b;
      SplitAtWhitespace(a[1..], c, b);
    } else {
      assert s[0] == a[0];
      var m := WordLen(a);
      if m < |a| {
        WordLenAppend(a, [c] + b);
        assert s == a + ([c] + b);
        assert s[..m] == a[..m];
        assert s[m..] == a[m..] + [c] + b;
        SplitAtWhitespace(a[m..], c, b);
      } else {
        assert a[..m] == a;
        WordLenOfWord(a, [c] + b);
        assert s == a + ([c] + b);
        assert s[..m] == a && s[m..] == [c] + b;
        assert ([c] + b)[1..] == b;
        assert a[m..] == [];
      }
    }
  }

  /** `trim_start()` */
  function TrimStart(s: string): (r: string)
    ensures |r| <= |s| && r == s[|s| - |r|..]
    ensures AllWhitespace(s[..|s| - |r|])
    ensures r == [] || !IsWhitespace(r[0])
    decreases |s|
  {
    if s != [] && IsWhitespace(s[0]) then
      var t := s[1..];
      var r := TrimStart(t);
      var dropped := s[..|s| - |r|];
      forall i | 0 <= i < |dropped| ensures IsWhitespace(dropped[i]) {
        if i > 0 { assert dropped[i] == t[..|t| - |r|][i - 1]; }
      }
      r
    else s
  }

  /** `trim_end()` */
  function TrimEnd(s: string): (r: string)
    ensures |r| <= |s| && r == s[..|r|]
    ensures AllWhitespace(s[|r|..])
    ensures r == [] || !IsWhitespace(r[|r| - 1])
    decreases |s|
  {
    if s != [] && IsWhitespace(s[|s| - 1]) then
      var t := s[..|s| - 1];
      var r := TrimEnd(t);
      forall i | 0 <= i < |s| - |r| ensures IsWhitespace(s[|r|..][i]) {
        if i < |t| - |r| { assert s[|r|..][i] == t[|r|..][i]; }
      }
      r
    else s
  }

  /** Cutting the end whitespace off a suffix of `s` leaves a slice of `s` followed only by whitespace. */
  lemma TrimSlice(s: string, i: nat, a: string, r: string)
    requires i <= |s| && a == s[i..]
    requires |r| <= |a| && r == a[..|r|] && AllWhitespace(a[|r|..])
    ensures r == s[i..i + |r|] && AllWhitespace(s[i + |r|..])
  {
    var tail := s[i + |r|..];
    assert tail == a[|r|..];
  }

  /**
   * A slice of `s` with only whitespace before and after it, and not starting
   * or ending with whitespace, is empty exactly when `s` is blank, and is all
   * of `s` when `s` has no whitespace.
   */
  lemma WhitespaceBoundedSlice(s: string, i: nat, j: nat)
    requires i <= j <= |s| && AllWhitespace(s[..i]) && AllWhitespace(s[j..])
    requires i == j || (!IsWhitespace(s[i]) && !IsWhitespace(s[j - 1]))
    ensures i == j <==> AllWhitespace(s)
    ensures NoWhitespace(s) ==> i == 0 && j == |s|
  {
    if i == j {
      forall k | 0 <= k < |s| ensures IsWhitespace(s[k]) {
        if k < i { assert s[..i][k] == s[k]; } else { assert s[j..][k - j] == s[k]; }
      }
    }
    assert i > 0 ==> IsWhitespace(s[0]) by {
      if i > 0 { assert s[..i][0] == s[0]; }
    }
    assert j < |s| ==> IsWhitespace(s[j]) by {
      if j < |s| { assert s[j..][0] == s[j]; }
    }
  }

  /** What `trim_start` and then `trim_end` leave of `s`: the slice between its leading and trailing whitespace. */
  lemma TrimParts(s: string, a: string, r: string)
    requires |a| <= |s| && a == s[|s| - |a|..] && AllWhitespace(s[..|s| - |a|])
    requires a == [] || !IsWhitespace(a[0])
    requires |r| <= |a| && r == a[..|r|] && AllWhitespace(a[|r|..])
    requires r == [] || !IsWhitespace(r[|r| - 1])
    ensures exists i, j :: 0 <= i <= j <= |s| && r == s[i..j] && AllWhitespace(s[..i]) && AllWhitespace(s[j..])
    ensures r == [] || (!IsWhitespace(r[0]) && !IsWhitespace(r[|r| - 1]))
    ensures r == [] <==> AllWhitespace(s)
    ensures NoWhitespace(s) ==> r == s
  {
    var i := |s| - |a|;
    var j := i + |r|;
    TrimSlice(s, i, a, r);
    assert r != [] ==> r[0] == a[0] == s[i] && r[|r| - 1] == s[j - 1];
    WhitespaceBoundedSlice(s, i, j);
  }

  /** `trim()`: `s` without its leading and trailing whitespace. */
  function Trim(s: string): (r: string)
    ensures exists i, j :: 0 <= i <= j <= |s| && r == s[i..j] && AllWhitespace(s[..i]) && AllWhitespace(s[j..])
    ensures r == [] || (!IsWhitespace(r[0]) && !IsWhitespace(r[|r| - 1]))
    ensures r == [] <==> AllWhitespace(s)
    ensures NoWhitespace(s) ==> r == s
  {
    var a := TrimStart(s);
    var r := TrimEnd(a);
    TrimParts(s, a, r);
    r
  }

  /** Bytes needed to encode `c` in UTF-8. */
  function Utf8Width(c: char): nat
  {
    if c as int < 0x80 then 1
    else if c as int < 0x800 then 2
    else if c as int < 0x1_0000 then 3
    else 4
  }

  /** `s.len()`: the length of `s` in UTF-8 bytes. */
  function Utf8Len(s: string): (r: nat)
    ensures |s| <= r <= 4 * |s|
  {
    Utf8LenBounds(s);
    Sum(Map(Utf8Width, s))
  }

  /** Every character takes one to four bytes; ASCII text takes one byte per character. */
  lemma {:induction false} Utf8LenBounds(s: string)
    ensures |s| <= Sum(Map(Utf8Width, s)) <= 4 * |s|
    ensures (forall i :: 0 <= i < |s| ==> s[i] as int < 0x80) ==> Sum(Map(Utf8Width, s)) == |s|
    decreases |s|
  {
    if s != [] {
      assert s == [s[0]] + s[1..];
      MapConcat(Utf8Width, [s[0]], s[1..]);
      assert Map(Utf8Width, s) == [Utf8Width(s[0])] + Map(Utf8Width, s[1..]);
      Utf8LenBounds(s[1..]);
    }
  }
}
