/** `Array.prototype.filter` and the order-preserving subsequence relation it produces. */
module Sequences {

  /** `s.filter(keep)`: the elements of `s` that `keep` accepts, in their order. */
  function Filter<T>(s: seq<T>, keep: T -> bool): (r: seq<T>)
    ensures |r| <= |s|
  {
    if s == [] then []
    else (if keep(s[0]) then [s[0]] else []) + Filter(s[1..], keep)
  }

  /** What a filter returns comes from `s` and is accepted; what `s` holds and is accepted is returned. */
  lemma {:induction false} FilterMembers<T>(s: seq<T>, keep: T -> bool)
    ensures var r := Filter(s, keep);
            && (forall i :: 0 <= i < |r| ==> r[i] in s && keep(r[i]))
            && (forall i :: 0 <= i < |s| && keep(s[i]) ==> s[i] in r)
  {
    if s != [] {
      FilterMembers(s[1..], keep);
      var r := Filter(s, keep);
      var rest := Filter(s[1..], keep);
      assert r == (if keep(s[0]) then [s[0]] else []) + rest;
      forall i | 0 <= i < |s| && keep(s[i])
        ensures s[i] in r
      {
        if i > 0 {
          assert s[i] == s[1..][i - 1];
        }
      }
      forall i | 0 <= i < |r|
        ensures r[i] in s && keep(r[i])
      {
        var offset := if keep(s[0]) then 1 else 0;
        if i == 0 && keep(s[0]) {
          assert r[i] == s[0];
        } else {
          assert r[i] == rest[i - offset];
          var j :| 0 <= j < |s[1..]| && s[1..][j] == rest[i - offset];
          assert s[j + 1] == r[i];
        }
      }
    }
  }

  /**
   * A filter keeps every accepted element as many times as `s` holds it, and drops every
   * other element entirely: equal elements are neither merged nor duplicated.
   */
  lemma {:induction false} FilterMultiset<T>(s: seq<T>, keep: T -> bool)
    ensures forall x :: multiset(Filter(s, keep))[x] == if keep(x) then multiset(s)[x] else 0
  {
    if s != [] {
      FilterMultiset(s[1..], keep);
      var head := if keep(s[0]) then [s[0]] else [];
      assert Filter(s, keep) == head + Filter(s[1..], keep);
      assert s == [s[0]] + s[1..];
      assert multiset(s) == multiset([s[0]]) + multiset(s[1..]);
      assert multiset(Filter(s, keep)) == multiset(head) + multiset(Filter(s[1..], keep));
    }
  }

  /** `r` is `s` with some elements left out and the rest in their order. */
  predicate SubsequenceOf<T(==)>(r: seq<T>, s: seq<T>)
    decreases |s|
  {
    if r == [] then true
    else if s == [] then false
    else if r[0] == s[0] then SubsequenceOf(r[1..], s[1..])
    else SubsequenceOf(r, s[1..])
  }

  /** A filter keeps the order of what it keeps. */
  lemma {:induction false} FilterIsSubsequence<T>(s: seq<T>, keep: T -> bool)
    ensures SubsequenceOf(Filter(s, keep), s)
  {
    if s != [] {
      FilterIsSubsequence(s[1..], keep);
      var rest := Filter(s[1..], keep);
      if keep(s[0]) {
        assert Filter(s, keep) == [s[0]] + rest;
        assert ([s[0]] + rest)[1..] == rest;
      } else {
        assert Filter(s, keep) == rest;
        SubsequenceOfTail(rest, s);
      }
    }
  }

  /** Dropping the first element of the longer sequence, when it is not needed, keeps the relation. */
  lemma {:induction false} SubsequenceOfTail<T>(r: seq<T>, s: seq<T>)
    requires s != [] && SubsequenceOf(r, s[1..])
    ensures SubsequenceOf(r, s)
    decreases |s|, 0
  {
    if r != [] && r[0] == s[0] {
      // `r[1..]` is a subsequence of `s[1..]` because `r` is
      SubsequenceDropHead(r, s[1..]);
    }
  }

  /** A subsequence without its head is still a subsequence. */
  lemma {:induction false} SubsequenceDropHead<T>(r: seq<T>, s: seq<T>)
    requires r != [] && SubsequenceOf(r, s)
    ensures SubsequenceOf(r[1..], s)
    decreases |s|, 1
  {
    if s != [] {
      if r[0] == s[0] {
        if r[1..] != [] {
          SubsequenceOfTail(r[1..], s);
        }
      } else {
        SubsequenceDropHead(r, s[1..]);
        if r[1..] != [] {
          SubsequenceOfTail(r[1..], s);
        }
      }
    }
  }

  /** The i-th element a filter returns comes from `s` and is accepted. */
  lemma FilterAccepts<T>(s: seq<T>, keep: T -> bool, i: nat)
    requires i < |Filter(s, keep)|
    ensures Filter(s, keep)[i] in s && keep(Filter(s, keep)[i])
  {
    FilterMembers(s, keep);
  }

  /** An element of `s` that the filter accepts is returned. */
  lemma FilterKeeps<T>(s: seq<T>, keep: T -> bool, i: nat)
    requires i < |s| && keep(s[i])
    ensures s[i] in Filter(s, keep)
  {
    FilterMembers(s, keep);
  }

  /** A filter that accepts every element returns the sequence itself. */
  lemma {:induction false} FilterKeepsAll<T>(s: seq<T>, keep: T -> bool)
    requires forall i :: 0 <= i < |s| ==> keep(s[i])
    ensures Filter(s, keep) == s
  {
    if s != [] {
      FilterKeepsAll(s[1..], keep);
    }
  }

  /** Filtering distributes over concatenation. */
  lemma {:induction false} FilterAppend<T>(a: seq<T>, b: seq<T>, keep: T -> bool)
    ensures Filter(a + b, keep) == Filter(a, keep) + Filter(b, keep)
  {
    if a != [] {
      FilterAppend(a[1..], b, keep);
      assert (a + b)[1..] == a[1..] + b;
    } else {
      assert a + b == b;
    }
  }
}
