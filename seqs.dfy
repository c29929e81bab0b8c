/**
 * Filtering a sequence, and what it means to keep the relative order of a
 * sequence: the facts every "loop that appends the records that pass a test"
 * of the handlers rests on.
 */
module Seqs {

  /** The elements of s that satisfy p, in the order they have in s. */
  function Filter<T>(s: seq<T>, p: T -> bool): (r: seq<T>)
    ensures |r| <= |s|
    ensures forall k :: 0 <= k < |r| ==> p(r[k])
  {
    if s == [] then []
    else Filter(s[..|s| - 1], p) + (if p(s[|s| - 1]) then [s[|s| - 1]] else [])
  }

  /** Appending one element to the input appends it to the output exactly when it passes. */
  lemma FilterSnoc<T>(s: seq<T>, x: T, p: T -> bool)
    ensures Filter(s + [x], p) == Filter(s, p) + (if p(x) then [x] else [])
  {
    assert (s + [x])[..|s|] == s;
  }

  lemma {:induction false} FilterMembership<T>(s: seq<T>, p: T -> bool)
    ensures forall x :: x in Filter(s, p) <==> x in s && p(x)
  {
    if s != [] {
      var init, last := s[..|s| - 1], s[|s| - 1];
      FilterMembership(init, p);
      assert s == init + [last];
    }
  }

  /** A test that every element passes keeps the whole sequence. */
  lemma {:induction false} FilterAll<T>(s: seq<T>, p: T -> bool)
    requires forall k :: 0 <= k < |s| ==> p(s[k])
    ensures Filter(s, p) == s
  {
    if s != [] {
      var init := s[..|s| - 1];
      FilterAll(init, p);
      assert s == init + [s[|s| - 1]];
    }
  }

  /** A test and its negation split a sequence into two parts that together hold each element once. */
  lemma {:induction false} FilterComplement<T>(s: seq<T>, p: T -> bool, q: T -> bool)
    requires forall x :: q(x) == !p(x)
    ensures multiset(Filter(s, p)) + multiset(Filter(s, q)) == multiset(s)
    ensures |Filter(s, p)| + |Filter(s, q)| == |s|
  {
    if s != [] {
      var init, last := s[..|s| - 1], s[|s| - 1];
      FilterComplement(init, p, q);
      assert s == init + [last];
      assert multiset(s) == multiset(init) + multiset{last};
      if p(last) {
        assert Filter(s, p) == Filter(init, p) + [last];
        assert Filter(s, q) == Filter(init, q);
      } else {
        assert Filter(s, p) == Filter(init, p);
        assert Filter(s, q) == Filter(init, q) + [last];
      }
    }
  }

  /** An element that passes the test keeps a position of its own in the filtered sequence. */
  lemma {:induction false} FilterIndex<T>(s: seq<T>, p: T -> bool, q: nat) returns (k: nat)
    requires q < |s| && p(s[q])
    ensures k < |Filter(s, p)| && Filter(s, p)[k] == s[q]
  {
    var init, last := s[..|s| - 1], s[|s| - 1];
    assert s == init + [last];
    if q == |s| - 1 {
      k := |Filter(init, p)|;
      assert Filter(s, p) == Filter(init, p) + [last];
    } else {
      assert s[q] == init[q];
      k := FilterIndex(init, p, q);
      assert Filter(s, p)[..|Filter(init, p)|] == Filter(init, p);
    }
  }

  lemma MultisetHeadTail<T>(s: seq<T>)
    requires s != []
    ensures multiset(s) == multiset{s[0]} + multiset(s[1..])
  {
    assert s == [s[0]] + s[1..];
  }

  /** idx lists, in increasing order, the positions in b at which the elements of a are found. */
  ghost predicate Embedding<T>(idx: seq<nat>, a: seq<T>, b: seq<T>)
  {
    && |idx| == |a|
    && (forall k :: 0 <= k < |idx| ==> idx[k] < |b| && a[k] == b[idx[k]])
    && (forall k, l :: 0 <= k < l < |idx| ==> idx[k] < idx[l])
  }

  /** a is obtained from b by leaving elements out, the rest keeping their relative order. */
  ghost predicate IsSubsequence<T>(a: seq<T>, b: seq<T>)
  {
    exists idx :: Embedding(idx, a, b)
  }

  /** The positions in s of the elements Filter keeps. */
  lemma {:induction false} FilterEmbedding<T>(s: seq<T>, p: T -> bool) returns (idx: seq<nat>)
    ensures Embedding(idx, Filter(s, p), s)
  {
    if s == [] {
      idx := [];
    } else {
      var init, last := s[..|s| - 1], s[|s| - 1];
      var prev := FilterEmbedding(init, p);
      assert s == init + [last];
      FilterSnoc(init, last, p);
      if p(last) {
        EmbeddingAppends(prev, Filter(init, p), init, last);
        idx := prev + [|init|];
      } else {
        EmbeddingExtends(prev, Filter(init, p), init, last);
        idx := prev;
      }
    }
  }

  lemma FilterIsSubsequence<T>(s: seq<T>, p: T -> bool)
    ensures IsSubsequence(Filter(s, p), s)
  {
    var idx := FilterEmbedding(s, p);
  }

  /** An embedding into b is one into b + [x]. */
  lemma EmbeddingExtends<T>(idx: seq<nat>, a: seq<T>, b: seq<T>, x: T)
    requires Embedding(idx, a, b)
    ensures Embedding(idx, a, b + [x])
  {
    forall k | 0 <= k < |idx| ensures idx[k] < |b + [x]| && a[k] == (b + [x])[idx[k]] {
      assert (b + [x])[idx[k]] == b[idx[k]];
    }
  }

  /** Matching x to the new last position extends an embedding of a into b to one of a + [x] into b + [x]. */
  lemma EmbeddingAppends<T>(idx: seq<nat>, a: seq<T>, b: seq<T>, x: T)
    requires Embedding(idx, a, b)
    ensures Embedding(idx + [|b|], a + [x], b + [x])
  {
    var idx', a', b' := idx + [|b|], a + [x], b + [x];
    forall k | 0 <= k < |idx'| ensures idx'[k] < |b'| && a'[k] == b'[idx'[k]] {
      if k < |idx| {
        assert idx'[k] == idx[k] && a'[k] == a[k] && b'[idx[k]] == b[idx[k]];
      }
    }
    forall k, l | 0 <= k < l < |idx'| ensures idx'[k] < idx'[l] {
      assert idx'[k] == idx[k];
    }
  }


  ghost predicate Distinct<T>(s: seq<T>)
  {
    forall i, j :: 0 <= i < j < |s| ==> s[i] != s[j]
  }
}
