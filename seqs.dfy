/** Small sequence and map helpers shared by the model: an order-preserving map over a
    sequence (Rust's `iter().map().collect()`), the concatenation of per-element sequences (what
    nested `for` loops pushing into one `Vec` build), and the sum of the sizes of a map's buckets. */
module Seqs {

  /** `s.iter().map(f).collect()`: same length, element k is `f(s[k])`. */
  function MapSeq<A, B>(f: A -> B, s: seq<A>): (r: seq<B>)
    ensures |r| == |s|
  {
    if s == [] then [] else MapSeq(f, s[..|s| - 1]) + [f(s[|s| - 1])]
  }

  /** Element k of the image is the image of element k. */
  lemma {:induction false} MapSeqIndex<A, B>(f: A -> B, s: seq<A>)
    ensures forall k :: 0 <= k < |s| ==> MapSeq(f, s)[k] == f(s[k])
    decreases |s|
  {
    if s != [] {
      MapSeqIndex(f, s[..|s| - 1]);
    }
  }

  /** Appending one element to the input appends its image to the output. */
  lemma MapSeqSnoc<A, B>(f: A -> B, s: seq<A>, x: A)
    ensures MapSeq(f, s + [x]) == MapSeq(f, s) + [f(x)]
  {
    assert (s + [x])[..|s|] == s;
  }

  /** Mapping a concatenation is concatenating the images: the map keeps the order of its input. */
  lemma {:induction false} MapSeqAppend<A, B>(f: A -> B, a: seq<A>, b: seq<A>)
    ensures MapSeq(f, a + b) == MapSeq(f, a) + MapSeq(f, b)
    decreases |b|
  {
    if b == [] {
      assert a + b == a;
    } else {
      var b', x := b[..|b| - 1], b[|b| - 1];
      assert a + b == (a + b') + [x];
      assert b == b' + [x];
      MapSeqSnoc(f, a + b', x);
      MapSeqSnoc(f, b', x);
      MapSeqAppend(f, a, b');
    }
  }

  /** The sum of the values of a map whose values are natural numbers. The key picked at each
      step is arbitrary; SumRemove shows that the choice does not matter. */
  ghost function Sum<K>(m: map<K, nat>): nat
    decreases |m|
  {
    if m == map[] then 0
    else
      var k :| k in m;
      m[k] + Sum(m - {k})
  }

  /** Any key can be taken out first. */
  lemma {:induction false} SumRemove<K>(m: map<K, nat>, k: K)
    requires k in m
    ensures Sum(m) == m[k] + Sum(m - {k})
    decreases |m|
  {
    var j :| j in m && Sum(m) == m[j] + Sum(m - {j});
    if j != k {
      var mj := m - {j};
      var mk := m - {k};
      assert k in mj && j in mk;
      assert |mj| < |m| && |mk| < |m|;
      SumRemove(mj, k);
      SumRemove(mk, j);
      assert mj - {k} == mk - {j};
    }
  }

  /** Replacing (or adding) one entry changes the sum by exactly that entry. */
  lemma SumUpdate<K>(m: map<K, nat>, k: K, v: nat)
    ensures Sum(m[k := v]) == v + Sum(m - {k})
  {
    SumRemove(m[k := v], k);
    assert m[k := v] - {k} == m - {k};
  }

  /** `s.iter().flat_map(f)`: the sequences `f(s[0])`, `f(s[1])`, ... one after the other. */
  function FlatMap<A, B>(f: A -> seq<B>, s: seq<A>): seq<B> {
    if s == [] then [] else FlatMap(f, s[..|s| - 1]) + f(s[|s| - 1])
  }

  lemma FlatMapSnoc<A, B>(f: A -> seq<B>, s: seq<A>, x: A)
    ensures FlatMap(f, s + [x]) == FlatMap(f, s) + f(x)
  {
    assert (s + [x])[..|s|] == s;
  }

  /** Flattening a concatenation is concatenating the flattenings. */
  lemma {:induction false} FlatMapAppend<A, B>(f: A -> seq<B>, a: seq<A>, b: seq<A>)
    ensures FlatMap(f, a + b) == FlatMap(f, a) + FlatMap(f, b)
    decreases |b|
  {
    if b == [] {
      assert a + b == a;
    } else {
      var b', x := b[..|b| - 1], b[|b| - 1];
      assert a + b == (a + b') + [x];
      assert b == b' + [x];
      FlatMapSnoc(f, a + b', x);
      FlatMapSnoc(f, b', x);
      FlatMapAppend(f, a, b');
    }
  }

  /** Element `j` of `f(s[i])` sits at position |FlatMap(f, s[..i])| + j: outer order first, then
      inner order. */
  lemma FlatMapPosition<A, B>(f: A -> seq<B>, s: seq<A>, i: int, j: int)
    requires 0 <= i < |s| && 0 <= j < |f(s[i])|
    ensures |FlatMap(f, s[..i])| + j < |FlatMap(f, s)|
    ensures FlatMap(f, s)[|FlatMap(f, s[..i])| + j] == f(s[i])[j]
  {
    assert s == s[..i] + [s[i]] + s[i + 1..];
    FlatMapSnoc(f, s[..i], s[i]);
    FlatMapAppend(f, s[..i] + [s[i]], s[i + 1..]);
  }

  /** Conversely, every element of the flattening comes from one such position. */
  lemma {:induction false} FlatMapSource<A, B>(f: A -> seq<B>, s: seq<A>, k: int) returns (i: int, j: int)
    requires 0 <= k < |FlatMap(f, s)|
    ensures 0 <= i < |s| && 0 <= j < |f(s[i])|
    ensures k == |FlatMap(f, s[..i])| + j
    ensures FlatMap(f, s)[k] == f(s[i])[j]
    decreases |s|
  {
    var pre := s[..|s| - 1];
    assert s == pre + [s[|s| - 1]];
    if k < |FlatMap(f, pre)| {
      i, j := FlatMapSource(f, pre, k);
      assert pre[..i] == s[..i];
    } else {
      i, j := |s| - 1, k - |FlatMap(f, pre)|;
    }
  }

  /** `ks` lists every element of `s` exactly once, in some order: how iterating a `HashMap`'s keys
      (whose order Rust leaves unspecified) is described here. */
  predicate Enumerates<K>(ks: seq<K>, s: set<K>) {
    && (forall i, j :: 0 <= i < j < |ks| ==> ks[i] != ks[j])
    && (forall k :: k in s ==> k in ks)
    && (forall i :: 0 <= i < |ks| ==> ks[i] in s)
  }

  /** Every finite set can be listed. */
  lemma {:induction false} EnumerationExists<K>(s: set<K>) returns (ks: seq<K>)
    ensures Enumerates(ks, s) && |ks| == |s|
    decreases |s|
  {
    if s == {} {
      ks := [];
    } else {
      var x :| x in s;
      var rest := EnumerationExists(s - {x});
      ks := [x] + rest;
      assert forall i :: 0 < i < |ks| ==> ks[i] == rest[i - 1];
    }
  }

  /** Some listing exists (the form a `:|` choice needs). */
  lemma SomeEnumeration<K>(s: set<K>)
    ensures exists ks :: Enumerates(ks, s)
  {
    var ks := EnumerationExists(s);
  }
}
