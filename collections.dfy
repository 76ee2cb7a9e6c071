/**
 * The iterator adaptors the service is written with (`map`, `filter`,
 * `filter_map`, `fold`, `sum`, and rayon's order-preserving parallel `map`),
 * as functions on sequences, together with the two map helpers it uses:
 * `get(k).copied().unwrap_or(0)` and `values().sum()`.
 */
module Collections {
  import opened Wrappers

  /** `iter().map(f).collect()` */
  function Map<T, U>(f: T -> U, s: seq<T>): (r: seq<U>)
    ensures |r| == |s|
    ensures forall i :: 0 <= i < |s| ==> r[i] == f(s[i])
    decreases |s|
  {
    if s == [] then [] else [f(s[0])] + Map(f, s[1..])
  }

  /** `iter().filter(p).collect()` */
  function Filter<T>(p: T -> bool, s: seq<T>): (r: seq<T>)
    ensures |r| <= |s|
    ensures forall x :: x in r ==> x in s && p(x)
    ensures forall x :: x in s && p(x) ==> x in r
    decreases |s|
  {
    if s == [] then []
    else (if p(s[0]) then [s[0]] else []) + Filter(p, s[1..])
  }

  /** `iter().filter_map(f).collect()` */
  function FilterMap<T, U>(f: T -> Option<U>, s: seq<T>): (r: seq<U>)
    ensures |r| <= |s|
    ensures forall y :: y in r ==> exists x :: x in s && f(x) == Some(y)
    ensures forall x :: x in s && f(x).Some? ==> f(x).value in r
    decreases |s|
  {
    if s == [] then []
    else AsSeq(f(s[0])) + FilterMap(f, s[1..])
  }

  /** The zero or one elements an Option holds. */
  function AsSeq<U>(o: Option<U>): seq<U>
  {
    match o
    case Some(y) => [y]
    case None => []
  }

  /** `into_iter().fold(acc, f)` */
  function FoldLeft<A, T>(f: (A, T) -> A, acc: A, s: seq<T>): A
    decreases |s|
  {
    if s == [] then acc else FoldLeft(f, f(acc, s[0]), s[1..])
  }

  /** `iter().sum()` over unbounded naturals */
  function Sum(s: seq<nat>): nat
    decreases |s|
  {
    if s == [] then 0 else s[0] + Sum(s[1..])
  }

  /** A sum is zero exactly when every element is. */
  lemma {:induction false} SumZero(s: seq<nat>)
    ensures Sum(s) == 0 <==> forall i :: 0 <= i < |s| ==> s[i] == 0
    decreases |s|
  {
    if s != [] {
      SumZero(s[1..]);
      assert forall i :: 0 < i < |s| ==> s[i] == s[1..][i - 1];
    }
  }

  /**
   * rayon's `par_iter().map(f).collect()`: the input is split in halves, each
   * half is mapped independently, and the pieces are joined in index order.
   */
  function ParMap<T, U>(f: T -> U, s: seq<T>): (r: seq<U>)
    ensures |r| == |s|
    decreases |s|
  {
    if |s| == 0 then []
    else if |s| == 1 then [f(s[0])]
    else ParMap(f, s[..|s| / 2]) + ParMap(f, s[|s| / 2..])
  }

  /** Concatenation of a sequence of strings (or any sequences). */
  function Flatten<T>(ss: seq<seq<T>>): seq<T>
    decreases |ss|
  {
    if ss == [] then [] else ss[0] + Flatten(ss[1..])
  }

  lemma {:induction false} MapConcat<T, U>(f: T -> U, a: seq<T>, b: seq<T>)
    ensures Map(f, a + b) == Map(f, a) + Map(f, b)
  {
    var l, r := Map(f, a + b), Map(f, a) + Map(f, b);
    assert |l| == |r|;
    forall i | 0 <= i < |l| ensures l[i] == r[i] {
      if i < |a| { assert (a + b)[i] == a[i]; } else { assert (a + b)[i] == b[i - |a|]; }
    }
  }

  /** Filtering distributes over concatenation: the kept elements stay in input order. */
  lemma {:induction false} FilterConcat<T>(p: T -> bool, a: seq<T>, b: seq<T>)
    ensures Filter(p, a + b) == Filter(p, a) + Filter(p, b)
    decreases |a|
  {
    if a == [] {
      assert a + b == b;
    } else {
      assert (a + b)[0] == a[0];
      assert (a + b)[1..] == a[1..] + b;
      FilterConcat(p, a[1..], b);
    }
  }

  /** A filter keeps everything exactly when every element passes it. */
  lemma {:induction false} FilterKeepsAll<T>(p: T -> bool, s: seq<T>)
    ensures (forall i :: 0 <= i < |s| ==> p(s[i])) <==> Filter(p, s) == s
    ensures |Filter(p, s)| == |s| ==> Filter(p, s) == s
    decreases |s|
  {
    if s != [] {
      FilterKeepsAll(p, s[1..]);
      if !p(s[0]) {
        assert |Filter(p, s)| == |Filter(p, s[1..])| < |s|;
      } else {
        assert Filter(p, s) == [s[0]] + Filter(p, s[1..]);
        if forall i :: 0 <= i < |s| ==> p(s[i]) {
          assert forall i :: 0 <= i < |s[1..]| ==> p(s[1..][i]) by {
            forall i | 0 <= i < |s[1..]| ensures p(s[1..][i]) { assert s[1..][i] == s[i + 1]; }
          }
        }
        if Filter(p, s) == s {
          assert Filter(p, s[1..]) == s[1..];
          forall i | 0 <= i < |s| ensures p(s[i]) {
            if i > 0 { assert s[i] == s[1..][i - 1]; }
          }
        }
      }
    }
  }

  lemma {:induction false} FilterMapConcat<T, U>(f: T -> Option<U>, a: seq<T>, b: seq<T>)
    ensures FilterMap(f, a + b) == FilterMap(f, a) + FilterMap(f, b)
    decreases |a|
  {
    if a == [] {
      assert a + b == b;
    } else {
      assert (a + b)[0] == a[0];
      assert (a + b)[1..] == a[1..] + b;
      FilterMapConcat(f, a[1..], b);
    }
  }

  /** Dropping, before a `filter_map`, elements it would discard anyway changes nothing. */
  lemma {:induction false} FilterMapAfterFilter<T, U>(p: T -> bool, f: T -> Option<U>, s: seq<T>)
    requires forall x :: x in s && !p(x) ==> f(x) == None
    ensures FilterMap(f, Filter(p, s)) == FilterMap(f, s)
    decreases |s|
  {
    if s != [] {
      FilterMapAfterFilter(p, f, s[1..]);
      var head := if p(s[0]) then [s[0]] else [];
      FilterMapConcat(f, head, Filter(p, s[1..]));
      if p(s[0]) {
        assert FilterMap(f, head) == AsSeq(f(s[0])) by {
          assert head[1..] == [];
        }
      }
    }
  }

  lemma {:induction false} SumConcat(a: seq<nat>, b: seq<nat>)
    ensures Sum(a + b) == Sum(a) + Sum(b)
    decreases |a|
  {
    if a == [] {
      assert a + b == b;
    } else {
      assert (a + b)[1..] == a[1..] + b;
      SumConcat(a[1..], b);
    }
  }

  /** A fold runs left to right: the second part is folded into the first part's result. */
  lemma {:induction false} FoldLeftConcat<A, T>(f: (A, T) -> A, acc: A, a: seq<T>, b: seq<T>)
    ensures FoldLeft(f, acc, a + b) == FoldLeft(f, FoldLeft(f, acc, a), b)
    decreases |a|
  {
    if a == [] {
      assert a + b == b;
    } else {
      assert (a + b)[0] == a[0];
      assert (a + b)[1..] == a[1..] + b;
      FoldLeftConcat(f, f(acc, a[0]), a[1..], b);
    }
  }

  /** The fork-join map returns exactly what the sequential map returns. */
  lemma {:induction false} ParMapIsMap<T, U>(f: T -> U, s: seq<T>)
    ensures ParMap(f, s) == Map(f, s)
    decreases |s|
  {
    if |s| >= 2 {
      var mid := |s| / 2;
      ParMapIsMap(f, s[..mid]);
      ParMapIsMap(f, s[mid..]);
      assert s == s[..mid] + s[mid..];
      MapConcat(f, s[..mid], s[mid..]);
    }
  }

  /** `map.get(&k).copied().unwrap_or(0)` */
  function CountOf(m: map<string, nat>, k: string): (r: nat)
    ensures k in m ==> r == m[k]
    ensures k !in m ==> r == 0
  {
    if k in m then m[k] else 0
  }

  /** Some key of a non-empty map; fixed once, so every use picks the same one. */
  ghost function PickKey(m: map<string, nat>): string
    requires m.Keys != {}
  {
    var k :| k in m.Keys; k
  }

  /** `map.values().sum()` (the order of summation does not matter, see SumValuesRemove). */
  ghost function SumValues(m: map<string, nat>): nat
    decreases |m.Keys|
  {
    if m.Keys == {} then 0
    else
      var k := PickKey(m);
      assert (m - {k}).Keys == m.Keys - {k};
      m[k] + SumValues(m - {k})
  }

  /** Any key can be summed first, whichever key SumValues happens to pick. */
  lemma {:induction false} SumValuesRemove(m: map<string, nat>, k: string)
    requires k in m
    ensures SumValues(m) == m[k] + SumValues(m - {k})
    decreases |m.Keys|
  {
    var j := PickKey(m);
    if j != k {
      assert (m - {j}).Keys == m.Keys - {j};
      assert (m - {k}).Keys == m.Keys - {k};
      SumValuesRemove(m - {j}, k);
      SumValuesRemove(m - {k}, j);
      assert (m - {j}) - {k} == (m - {k}) - {j};
    }
  }

  /** Setting one key changes the sum by the difference of its old and new values. */
  lemma SumValuesUpdate(m: map<string, nat>, k: string, v: nat)
    ensures SumValues(m[k := v]) + CountOf(m, k) == SumValues(m) + v
  {
    SumValuesRemove(m[k := v], k);
    if k in m {
      SumValuesRemove(m, k);
      assert m[k := v] - {k} == m - {k};
    } else {
      assert m[k := v] - {k} == m;
    }
  }
}
