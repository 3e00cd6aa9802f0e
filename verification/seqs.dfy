/** Sequences without repeats: Python's idiom of appending an element to a
    list only when it is not already there. */
module Seqs {

  predicate Distinct<T(==,!new)>(s: seq<T>) {
    forall i, j :: 0 <= i < j < |s| ==> s[i] != s[j]
  }

  /** The elements of `s`, each once, in the order of their first appearance. */
  function Dedup<T(==,!new)>(s: seq<T>): (r: seq<T>)
    ensures forall x :: x in r <==> x in s
    ensures Distinct(r)
    ensures |r| <= |s|
  {
    if s == [] then []
    else
      var init := s[..|s| - 1];
      var x := s[|s| - 1];
      var d := Dedup(init);
      assert forall y :: y in s <==> y in init || y == x by { assert s == init + [x]; }
      if x in d then d else d + [x]
  }

  /** Appending one element: it is kept exactly when it is new. */
  lemma DedupSnoc<T(!new)>(s: seq<T>, x: T)
    ensures Dedup(s + [x]) == if x in s then Dedup(s) else Dedup(s) + [x]
  {
    assert (s + [x])[..|s|] == s;
  }

  /** A sequence without repeats is its own deduplication. */
  lemma {:induction false} DedupDistinct<T(!new)>(s: seq<T>)
    requires Distinct(s)
    ensures Dedup(s) == s
  {
    if s != [] {
      var init := s[..|s| - 1];
      assert Distinct(init);
      DedupDistinct(init);
      assert s == init + [s[|s| - 1]];
      DedupSnoc(init, s[|s| - 1]);
    }
  }

  /** An element's first appearance decides its place: when `a` comes
      before `b` in the result, `a` occurs in `s` before the first `b`. */
  lemma {:induction false} DedupFirstSeen<T(!new)>(s: seq<T>, i: nat, j: nat)
    requires i < j < |Dedup(s)|
    ensures exists p, q :: 0 <= p < q < |s| && s[p] == Dedup(s)[i] && s[q] == Dedup(s)[j]
                           && Dedup(s)[j] !in s[..q]
  {
    var init := s[..|s| - 1];
    var x := s[|s| - 1];
    assert s == init + [x];
    var d := Dedup(init);
    if j < |d| {
      DedupFirstSeen(init, i, j);
      var p, q :| 0 <= p < q < |init| && init[p] == d[i] && init[q] == d[j] && d[j] !in init[..q];
      assert s[..q] == init[..q];
    } else {
      assert Dedup(s)[j] == x && x !in init;
      assert Dedup(s)[i] in init;
      var p :| 0 <= p < |init| && init[p] == Dedup(s)[i];
      assert s[..|s| - 1] == init;
    }
  }

  lemma ConcatAssoc<T>(a: seq<T>, b: seq<T>, c: seq<T>)
    ensures a + (b + c) == (a + b) + c
  {
  }

  /** Appending the head and then the rest appends the whole. */
  lemma HeadThenRest<T>(a: seq<T>, d: seq<T>)
    requires d != []
    ensures a + [d[0]] + d[1..] == a + d
  {
    assert d == [d[0]] + d[1..];
  }

  /** A prefix of a prefix is a prefix. */
  lemma PrefixOfPrefix<T>(a: seq<T>, b: seq<T>, c: seq<T>)
    requires |a| <= |b| <= |c| && c[..|b|] == b && b[..|a|] == a
    ensures c[..|a|] == a
  {
    assert c[..|a|] == c[..|b|][..|a|];
  }
}
