/**
 * The sorts the source calls (`sort_by`, `sort_by_key`, `Vec::sort`) as one
 * insertion sort over a total preorder.  Each caller supplies its comparison.
 */
module Sorting {
  import opened Text

  ghost predicate TotalPreorder<T(!new)>(le: (T, T) -> bool) {
    (forall a, b :: le(a, b) || le(b, a)) &&
    (forall a, b, c :: le(a, b) && le(b, c) ==> le(a, c))
  }

  predicate SortedBy<T>(s: seq<T>, le: (T, T) -> bool) {
    forall i, j :: 0 <= i < j < |s| ==> le(s[i], s[j])
  }

  function InsertSorted<T(!new)>(x: T, s: seq<T>, le: (T, T) -> bool): (r: seq<T>)
    requires TotalPreorder(le) && SortedBy(s, le)
    ensures SortedBy(r, le)
    ensures multiset(r) == multiset(s) + multiset{x}
  {
    if s == [] then [x]
    else if le(x, s[0]) then [x] + s
    else
      var rest := InsertSorted(x, s[1..], le);
      assert s == [s[0]] + s[1..];
      assert forall y | y in multiset(rest) :: le(s[0], y);
      [s[0]] + rest
  }

  /** The sorted permutation of `s`. */
  function SortBy<T(!new)>(s: seq<T>, le: (T, T) -> bool): (r: seq<T>)
    requires TotalPreorder(le)
    ensures SortedBy(r, le)
    ensures multiset(r) == multiset(s)
  {
    if s == [] then []
    else
      assert s == s[..|s| - 1] + [s[|s| - 1]];
      InsertSorted(s[|s| - 1], SortBy(s[..|s| - 1], le), le)
  }

  // ---------------------------------------------------------------------------
  // Sorting records by a text key (`a.name.cmp(&b.name)`)
  // ---------------------------------------------------------------------------

  /** Compare two records by their key, as `String::cmp` does. */
  function ByKey<T>(key: T -> string): (T, T) -> bool {
    (a: T, b: T) => StrLe(key(a), key(b))
  }

  lemma ByKeyTotal<T(!new)>(key: T -> string)
    ensures TotalPreorder(ByKey(key))
  {
    forall a: T, b: T
      ensures ByKey(key)(a, b) || ByKey(key)(b, a)
    {
      StrLeTotalPreorder(key(a), key(b), key(b));
    }
    forall a: T, b: T, c: T | ByKey(key)(a, b) && ByKey(key)(b, c)
      ensures ByKey(key)(a, c)
    {
      StrLeTotalPreorder(key(a), key(b), key(c));
    }
  }

  predicate KeysDistinct<T>(s: seq<T>, key: T -> string) {
    forall i, j :: 0 <= i < j < |s| ==> key(s[i]) != key(s[j])
  }

  predicate StrictlyIncreasing<T>(s: seq<T>, key: T -> string) {
    forall i, j :: 0 <= i < j < |s| ==> StrLess(key(s[i]), key(s[j]))
  }

  /** Sorted with no key repeated is strictly increasing. */
  lemma SortedDistinctIsStrict<T>(s: seq<T>, key: T -> string)
    requires SortedBy(s, ByKey(key)) && KeysDistinct(s, key)
    ensures StrictlyIncreasing(s, key)
  {
  }

  lemma {:induction false} DistinctOccursOnce<T>(s: seq<T>, key: T -> string, x: T)
    requires KeysDistinct(s, key)
    ensures multiset(s)[x] <= 1
    decreases |s|
  {
    if s != [] {
      var t := s[1..];
      assert s == [s[0]] + t;
      assert KeysDistinct(t, key) by {
        forall i, j | 0 <= i < j < |t| ensures key(t[i]) != key(t[j]) {
          assert t[i] == s[i + 1] && t[j] == s[j + 1];
        }
      }
      DistinctOccursOnce(t, key, x);
      if s[0] == x {
        assert x !in t by {
          forall j | 0 <= j < |t| ensures t[j] != x {
            assert key(s[0]) != key(s[j + 1]);
          }
        }
      }
    }
  }

  lemma OccursTwice<T>(s: seq<T>, i: nat, j: nat)
    requires i < j < |s| && s[i] == s[j]
    ensures multiset(s)[s[i]] >= 2
  {
    assert s == s[..j] + [s[j]] + s[j + 1..];
    assert s[i] in s[..j];
  }

  /** Reordering keeps keys distinct. */
  lemma PermutationKeepsKeysDistinct<T>(s: seq<T>, r: seq<T>, key: T -> string)
    requires multiset(r) == multiset(s) && KeysDistinct(s, key)
    ensures KeysDistinct(r, key)
  {
    forall i, j | 0 <= i < j < |r|
      ensures key(r[i]) != key(r[j])
    {
      if key(r[i]) == key(r[j]) {
        assert r[i] in multiset(s) && r[j] in multiset(s);
        var a :| 0 <= a < |s| && s[a] == r[i];
        var b :| 0 <= b < |s| && s[b] == r[j];
        assert a == b;
        OccursTwice(r, i, j);
        DistinctOccursOnce(s, key, r[i]);
      }
    }
  }

  lemma EmptyWhenSameElements<T>(a: seq<T>, b: seq<T>)
    ensures (forall x :: x in a <==> x in b) && b == [] ==> a == []
  {
    if a != [] {
      assert a[0] in a;
    }
  }

  /**
   * A strictly increasing sequence is determined by its elements: whatever
   * order the records were found in, the sorted listing is the same.
   */
  lemma {:induction false} StrictlyIncreasingUnique<T>(a: seq<T>, b: seq<T>, key: T -> string)
    requires StrictlyIncreasing(a, key) && StrictlyIncreasing(b, key)
    requires forall x :: x in a <==> x in b
    ensures a == b
    decreases |a|
  {
    EmptyWhenSameElements(a, b);
    EmptyWhenSameElements(b, a);
    if a != [] && b != [] {
      assert a[0] in a && b[0] in b;
      var k :| 0 <= k < |b| && b[k] == a[0];
      var n :| 0 <= n < |a| && a[n] == b[0];
      if k > 0 {
        if n > 0 {
          StrLessTransitive(key(a[0]), key(a[n]), key(a[0]));
        }
        StrLessIrreflexive(key(a[0]));
      }
      forall x
        ensures x in a[1..] <==> x in b[1..]
      {
        if x in a[1..] {
          var i :| 0 <= i < |a| - 1 && a[1..][i] == x;
          assert a[i + 1] == x && x in b;
          var j :| 0 <= j < |b| && b[j] == x;
          if j == 0 { StrLessIrreflexive(key(a[0])); }
          assert b[1..][j - 1] == x;
        }
        if x in b[1..] {
          var i :| 0 <= i < |b| - 1 && b[1..][i] == x;
          assert b[i + 1] == x && x in a;
          var j :| 0 <= j < |a| && a[j] == x;
          if j == 0 { StrLessIrreflexive(key(b[0])); }
          assert a[1..][j - 1] == x;
        }
      }
      StrictlyIncreasingUnique(a[1..], b[1..], key);
      assert a == [a[0]] + a[1..] && b == [b[0]] + b[1..];
    }
  }
}
