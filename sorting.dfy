/** `Array.prototype.sort` with a comparator that is a total preorder,
    written as insertion sort. Its result is characterised by its contract
    alone: ascending, and a permutation of the input. */
module Sorting {
  import opened Common

  ghost predicate IsTotalPreorder<T(!new)>(le: (T, T) -> bool) {
    && (forall a, b :: le(a, b) || le(b, a))
    && (forall a, b, c :: le(a, b) && le(b, c) ==> le(a, c))
  }

  predicate Ascending<T>(s: seq<T>, le: (T, T) -> bool) {
    forall i, j :: 0 <= i < j < |s| ==> le(s[i], s[j])
  }

  /** Inserts `x` before the first element it does not exceed. */
  function Insert<T(!new)>(s: seq<T>, x: T, le: (T, T) -> bool): (r: seq<T>)
    requires IsTotalPreorder(le)
    requires Ascending(s, le)
    ensures multiset(r) == multiset(s) + multiset{x}
    ensures Ascending(r, le)
  {
    if s == [] then [x]
    else if le(x, s[0]) then
      assert forall j :: 0 <= j < |s| ==> le(x, s[j]) by {
        forall j | 0 <= j < |s| ensures le(x, s[j]) {
          if j > 0 { assert le(s[0], s[j]); }
        }
      }
      [x] + s
    else
      var tail := Insert(s[1..], x, le);
      InsertBehindHead(s, x, tail, le);
      [s[0]] + tail
  }

  /** When `x` goes after the head, the head followed by the tail with `x`
      inserted is ascending and holds `x` besides the elements of `s`. */
  lemma InsertBehindHead<T(!new)>(s: seq<T>, x: T, tail: seq<T>, le: (T, T) -> bool)
    requires IsTotalPreorder(le) && Ascending(s, le) && s != [] && !le(x, s[0])
    requires multiset(tail) == multiset(s[1..]) + multiset{x} && Ascending(tail, le)
    ensures multiset([s[0]] + tail) == multiset(s) + multiset{x}
    ensures Ascending([s[0]] + tail, le)
  {
    assert s == [s[0]] + s[1..];
    assert forall y :: y in multiset(tail) ==> le(s[0], y) by {
      forall y | y in multiset(tail) ensures le(s[0], y) {
        assert y in multiset(s[1..]) || y == x;
        if y != x {
          var j :| 0 <= j < |s[1..]| && s[1..][j] == y;
          assert s[j + 1] == y;
        }
      }
    }
    assert forall j :: 0 <= j < |tail| ==> le(s[0], tail[j]) by {
      forall j | 0 <= j < |tail| ensures le(s[0], tail[j]) {
        assert tail[j] in multiset(tail);
      }
    }
  }

  /** The sorted permutation of `s`. */
  function Sort<T(!new)>(s: seq<T>, le: (T, T) -> bool): (r: seq<T>)
    requires IsTotalPreorder(le)
    ensures multiset(r) == multiset(s)
    ensures Ascending(r, le)
  {
    if s == [] then []
    else
      assert s == [s[0]] + s[1..];
      Insert(Sort(s[1..], le), s[0], le)
  }

  /** Same multiset, same length. */
  lemma PermutationLength<T>(a: seq<T>, b: seq<T>)
    requires multiset(a) == multiset(b)
    ensures |a| == |b|
  {
    assert |multiset(a)| == |a| && |multiset(b)| == |b|;
  }

  /** A duplicate-free sequence stays duplicate-free under permutation. */
  lemma {:induction false} PermutationDistinct<T>(a: seq<T>, b: seq<T>)
    requires multiset(a) == multiset(b) && Distinct(a)
    ensures Distinct(b)
  {
    forall i, j | 0 <= i < j < |b| ensures b[i] != b[j] {
      if b[i] == b[j] {
        var x := b[i];
        assert multiset(b)[x] >= 2 by {
          assert b == b[..i] + [x] + b[i + 1..j] + [x] + b[j + 1..];
          assert multiset(b) == multiset(b[..i]) + multiset{x} + multiset(b[i + 1..j]) + multiset{x} + multiset(b[j + 1..]);
        }
        DistinctCountAtMostOne(a, x);
        assert false;
      }
    }
  }

  lemma {:induction false} DistinctCountAtMostOne<T>(a: seq<T>, x: T)
    requires Distinct(a)
    ensures multiset(a)[x] <= 1
  {
    if a != [] {
      assert a == [a[0]] + a[1..];
      assert Distinct(a[1..]) by {
        forall i, j | 0 <= i < j < |a[1..]| ensures a[1..][i] != a[1..][j] {
          assert a[i + 1] != a[j + 1];
        }
      }
      DistinctCountAtMostOne(a[1..], x);
      if a[0] == x {
        assert x !in a[1..] by {
          forall j | 0 <= j < |a[1..]| ensures a[1..][j] != x {
            assert a[0] != a[j + 1];
          }
        }
      }
    }
  }

  /** Dropping elements keeps a sequence ascending. */
  lemma {:induction false} SubsequenceAscending<T>(a: seq<T>, b: seq<T>, le: (T, T) -> bool)
    requires IsSubsequence(a, b) && Ascending(b, le)
    ensures Ascending(a, le)
    decreases |b|
  {
    if a != [] {
      assert Ascending(b[1..], le) by {
        forall i, j | 0 <= i < j < |b[1..]| ensures le(b[1..][i], b[1..][j]) {
          assert le(b[i + 1], b[j + 1]);
        }
      }
      if a[0] == b[0] && IsSubsequence(a[1..], b[1..]) {
        SubsequenceAscending(a[1..], b[1..], le);
        SubsequenceMembers(a[1..], b[1..]);
        forall i, j | 0 <= i < j < |a| ensures le(a[i], a[j]) {
          if i == 0 {
            assert a[j] == a[1..][j - 1] && a[1..][j - 1] in a[1..];
            var k :| 0 <= k < |b[1..]| && b[1..][k] == a[j];
            assert le(b[0], b[k + 1]);
          } else {
            assert a[i] == a[1..][i - 1] && a[j] == a[1..][j - 1];
          }
        }
      } else {
        SubsequenceAscending(a, b[1..], le);
      }
    }
  }
}
