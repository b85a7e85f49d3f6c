/** Small shared vocabulary: optional values and the `max id + 1` rule
    that every preset editor uses to mint a fresh id. */
module Common {

  /** A JavaScript value that may be `undefined`/`null` (None) or present. */
  datatype Option<+T> = None | Some(value: T) {
    /** `x || d` for a value whose only falsy form is absence. */
    function GetOr(default: T): T {
      match this
      case Some(v) => v
      case None => default
    }
  }

  /** The content of an `<input type="number">`: its text, which the browser
      keeps either empty or numeric, and the number `parseFloat` reads from
      that text (meaningful only when the text is not empty, since
      `parseFloat('')` is NaN). */
  datatype NumberField = NumberField(text: string, value: real)

  /** A field after `setX('')`. */
  const EmptyField := NumberField("", 0.0)

  /** `parseFloat(text) || 0`: the empty text reads as NaN, and NaN as well
      as 0 fall back to 0. */
  function FloatOrZero(field: NumberField): (r: real)
    ensures field.text == "" ==> r == 0.0
    ensures field.text != "" ==> r == field.value
  {
    if field.text == "" then 0.0 else field.value
  }

  /** Truncation toward zero, what `parseInt` does to a decimal text. */
  function Truncate(x: real): (n: int)
    ensures x >= 0.0 ==> n as real <= x < n as real + 1.0
    ensures x < 0.0 ==> n as real - 1.0 < x <= n as real
  {
    if x >= 0.0 then x.Floor else -((-x).Floor)
  }

  /** `parseInt(text) || 0` for a plain decimal text. */
  function IntOrZero(field: NumberField): (r: int)
    ensures field.text == "" ==> r == 0
    ensures field.text != "" ==> r == Truncate(field.value)
  {
    if field.text == "" then 0 else Truncate(field.value)
  }

  /** An integer's text reads back as that integer. */
  lemma TruncateInteger(n: int)
    ensures Truncate(n as real) == n
  {
  }

  /** `Math.max(...ids, 0)`: the largest id, or 0 when there is none larger. */
  function MaxOrZero(ids: seq<int>): (m: int)
    ensures m >= 0
    ensures forall i :: 0 <= i < |ids| ==> ids[i] <= m
    ensures m == 0 || m in ids
  {
    if ids == [] then 0
    else
      var rest := MaxOrZero(ids[1..]);
      if ids[0] > rest then ids[0] else rest
  }

  /** `Math.max(...ids, 0) + 1`: an id above every existing one. */
  function NextId(ids: seq<int>): (r: int)
    ensures r >= 1
    ensures forall i :: 0 <= i < |ids| ==> ids[i] < r
    ensures r !in ids
  {
    MaxOrZero(ids) + 1
  }

  /** No two positions hold the same value. */
  predicate Distinct<T(==)>(s: seq<T>) {
    forall i, j :: 0 <= i < j < |s| ==> s[i] != s[j]
  }

  /** The tail of a duplicate-free sequence is duplicate-free and lacks the head. */
  lemma DistinctTail<T>(s: seq<T>)
    requires s != []
    ensures Distinct(s) ==> Distinct(s[1..]) && s[0] !in s[1..]
  {
    if Distinct(s) {
      forall j | 0 <= j < |s[1..]| ensures s[1..][j] != s[0] {
        assert s[j + 1] != s[0];
      }
    }
  }

  /** Appending a value that does not occur keeps a sequence duplicate-free. */
  lemma {:induction false} DistinctAppend<T>(s: seq<T>, x: T)
    requires Distinct(s) && x !in s
    ensures Distinct(s + [x])
  {
    forall i, j | 0 <= i < j < |s + [x]|
      ensures (s + [x])[i] != (s + [x])[j]
    {
      if j == |s| {
        assert s[i] in s;
      }
    }
  }

  /** A duplicate-free sequence has as many elements as the set of its values. */
  lemma {:induction false} DistinctCardinality<T>(s: seq<T>)
    requires Distinct(s)
    ensures |set x | x in s| == |s|
  {
    if s != [] {
      DistinctTail(s);
      DistinctCardinality(s[1..]);
      assert s == [s[0]] + s[1..];
      assert (set x | x in s) == {s[0]} + (set x | x in s[1..]);
    }
  }

  /** `a` is `b` with some elements dropped: the rest in their old order. */
  predicate IsSubsequence<T(==)>(a: seq<T>, b: seq<T>)
    decreases |b|
  {
    a == [] || (b != [] && ((a[0] == b[0] && IsSubsequence(a[1..], b[1..])) || IsSubsequence(a, b[1..])))
  }

  /** `s.filter(keep)`. */
  function Filter<T(==,!new)>(s: seq<T>, keep: T -> bool): (r: seq<T>)
    ensures forall x :: x in r <==> x in s && keep(x)
    ensures forall x :: multiset(r)[x] == if keep(x) then multiset(s)[x] else 0
    ensures IsSubsequence(r, s)
    ensures Distinct(s) ==> Distinct(r)
    ensures |r| <= |s|
  {
    if s == [] then []
    else
      var rest := Filter(s[1..], keep);
      DistinctTail(s);
      assert s == [s[0]] + s[1..];
      assert multiset(s) == multiset{s[0]} + multiset(s[1..]);
      if keep(s[0]) then
        assert ([s[0]] + rest)[1..] == rest;
        [s[0]] + rest
      else rest
  }

  /** How many elements of `s` satisfy `p`. */
  function Count<T>(s: seq<T>, p: T -> bool): (n: nat)
    ensures n <= |s|
  {
    if s == [] then 0 else (if p(s[0]) then 1 else 0) + Count(s[1..], p)
  }

  /** A filter keeps as many elements as satisfy its predicate. */
  lemma {:induction false} FilterCount<T(!new)>(s: seq<T>, keep: T -> bool)
    ensures |Filter(s, keep)| == Count(s, keep)
  {
    if s != [] {
      FilterCount(s[1..], keep);
    }
  }

  /** `s.map(key)`. */
  function KeysOf<T, K>(s: seq<T>, key: T -> K): (ks: seq<K>)
    ensures |ks| == |s|
    ensures forall i :: 0 <= i < |s| ==> ks[i] == key(s[i])
  {
    if s == [] then [] else [key(s[0])] + KeysOf(s[1..], key)
  }

  /** No two elements of `s` share a key. */
  predicate UniqueKeys<T, K(==)>(s: seq<T>, key: T -> K) {
    forall i, j :: 0 <= i < j < |s| ==> key(s[i]) != key(s[j])
  }

  /** `s.map(x => matches(x) ? update(x) : x)`. */
  function MapWhere<T>(s: seq<T>, matches: T -> bool, update: T -> T): (r: seq<T>)
    ensures |r| == |s|
    ensures forall i :: 0 <= i < |s| ==> r[i] == if matches(s[i]) then update(s[i]) else s[i]
  {
    if s == [] then []
    else [if matches(s[0]) then update(s[0]) else s[0]] + MapWhere(s[1..], matches, update)
  }

  /** Every element of a subsequence comes from the sequence. */
  lemma {:induction false} SubsequenceMembers<T>(a: seq<T>, b: seq<T>)
    requires IsSubsequence(a, b)
    ensures forall x :: x in a ==> x in b
    decreases |b|
  {
    if a != [] {
      if a[0] == b[0] && IsSubsequence(a[1..], b[1..]) {
        SubsequenceMembers(a[1..], b[1..]);
        assert a == [a[0]] + a[1..] && b == [b[0]] + b[1..];
      } else {
        SubsequenceMembers(a, b[1..]);
        assert b == [b[0]] + b[1..];
      }
    }
  }

  /** Dropping elements cannot make two keys equal. */
  lemma {:induction false} SubsequenceUniqueKeys<T, K>(a: seq<T>, b: seq<T>, key: T -> K)
    requires IsSubsequence(a, b) && UniqueKeys(b, key)
    ensures UniqueKeys(a, key)
    decreases |b|
  {
    if a != [] {
      assert UniqueKeys(b[1..], key) by {
        forall i, j | 0 <= i < j < |b[1..]| ensures key(b[1..][i]) != key(b[1..][j]) {
          assert key(b[i + 1]) != key(b[j + 1]);
        }
      }
      if a[0] == b[0] && IsSubsequence(a[1..], b[1..]) {
        SubsequenceUniqueKeys(a[1..], b[1..], key);
        SubsequenceMembers(a[1..], b[1..]);
        forall i, j | 0 <= i < j < |a| ensures key(a[i]) != key(a[j]) {
          if i == 0 {
            assert a[j] == a[1..][j - 1] && a[1..][j - 1] in a[1..];
            var k :| 0 <= k < |b[1..]| && b[1..][k] == a[j];
            assert key(b[0]) != key(b[k + 1]);
          } else {
            assert a[i] == a[1..][i - 1] && a[j] == a[1..][j - 1];
          }
        }
      } else {
        SubsequenceUniqueKeys(a, b[1..], key);
      }
    }
  }

  /** Appending an element whose key is new keeps keys unique. */
  lemma AppendUniqueKey<T, K>(s: seq<T>, x: T, key: T -> K)
    requires UniqueKeys(s, key)
    requires forall i :: 0 <= i < |s| ==> key(s[i]) != key(x)
    ensures UniqueKeys(s + [x], key)
  {
    forall i, j | 0 <= i < j < |s + [x]| ensures key((s + [x])[i]) != key((s + [x])[j]) {
      if j < |s| {
        assert (s + [x])[i] == s[i] && (s + [x])[j] == s[j];
      }
    }
  }

  /** With unique keys, every element but the one carrying `k` (if any)
      has a key other than `k`. */
  lemma {:induction false} CountOtherKeys<T, K>(s: seq<T>, key: T -> K, k: K, keep: T -> bool)
    requires UniqueKeys(s, key)
    requires forall x :: keep(x) <==> key(x) != k
    ensures Count(s, keep) == if k in KeysOf(s, key) then |s| - 1 else |s|
  {
    if s != [] {
      var tail := s[1..];
      assert UniqueKeys(tail, key) by {
        forall i, j | 0 <= i < j < |tail| ensures key(tail[i]) != key(tail[j]) {
          assert key(s[i + 1]) != key(s[j + 1]);
        }
      }
      CountOtherKeys(tail, key, k, keep);
      assert KeysOf(s, key) == [key(s[0])] + KeysOf(tail, key);
      if key(s[0]) == k {
        forall m | 0 <= m < |tail| ensures KeysOf(tail, key)[m] != k {
          assert key(s[0]) != key(s[m + 1]);
        }
      }
    }
  }

  lemma {:induction false} SubsequenceReflexive<T>(s: seq<T>)
    ensures IsSubsequence(s, s)
  {
    if s != [] {
      SubsequenceReflexive(s[1..]);
    }
  }

  /** A filter that keeps every element returns the sequence itself. */
  lemma {:induction false} FilterKeepsAll<T(!new)>(s: seq<T>, keep: T -> bool)
    requires forall i :: 0 <= i < |s| ==> keep(s[i])
    ensures Filter(s, keep) == s
  {
    if s != [] {
      FilterKeepsAll(s[1..], keep);
      assert s == [s[0]] + s[1..];
    }
  }
}
