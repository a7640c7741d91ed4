/**
 * The array operations the pages use as expressions: `filter`, `filter(...).length`,
 * `Array.from(new Set(xs))` and a numeric descending `sort`.
 */
module Collections {
  import opened Wrappers

  /** `s.filter(keep)`: the elements satisfying `keep`, in their original order. */
  function Filter<T>(s: seq<T>, keep: T -> bool): (r: seq<T>)
    ensures |r| <= |s|
    ensures forall i :: 0 <= i < |r| ==> r[i] in s && keep(r[i])
    ensures forall i :: 0 <= i < |s| && keep(s[i]) ==> s[i] in r
  {
    if s == [] then []
    else
      assert s == [s[0]] + s[1..];
      (if keep(s[0]) then [s[0]] else []) + Filter(s[1..], keep)
  }

  /** Filtering commutes with concatenation, so it never reorders what it keeps. */
  lemma {:induction false} FilterConcat<T>(a: seq<T>, b: seq<T>, keep: T -> bool)
    ensures Filter(a + b, keep) == Filter(a, keep) + Filter(b, keep)
  {
    if a != [] {
      assert (a + b)[1..] == a[1..] + b;
      FilterConcat(a[1..], b, keep);
    } else {
      assert a + b == b;
    }
  }

  /** A filter that keeps everything is the identity; one that keeps nothing is empty. */
  lemma {:induction false} FilterAllOrNone<T>(s: seq<T>, keep: T -> bool)
    ensures (forall i :: 0 <= i < |s| ==> keep(s[i])) ==> Filter(s, keep) == s
    ensures (forall i :: 0 <= i < |s| ==> !keep(s[i])) ==> Filter(s, keep) == []
  {
    if s != [] {
      FilterAllOrNone(s[1..], keep);
      assert forall i :: 1 <= i < |s| ==> s[1..][i - 1] == s[i];
    }
  }

  /** `s.filter(keep).length`. */
  function Count<T>(s: seq<T>, keep: T -> bool): (n: nat)
    ensures n <= |s|
  {
    |Filter(s, keep)|
  }

  predicate NoDuplicates<T(==)>(s: seq<T>) {
    forall i, j :: 0 <= i < j < |s| ==> s[i] != s[j]
  }

  /** `Array.from(new Set(s))`: every value of `s` exactly once, in order of first occurrence. */
  function Distinct<T(==)>(s: seq<T>): (r: seq<T>)
    ensures NoDuplicates(r)
    ensures forall i :: 0 <= i < |r| ==> r[i] in s
    ensures forall i :: 0 <= i < |s| ==> s[i] in r
    decreases |s|
  {
    if s == [] then []
    else
      var d := Distinct(s[..|s| - 1]);
      assert s == s[..|s| - 1] + [s[|s| - 1]];
      if s[|s| - 1] in d then d else d + [s[|s| - 1]]
  }

  /** The index of the first occurrence of `x` in `s`. */
  function FirstIndex<T(==)>(s: seq<T>, x: T): (i: nat)
    requires x in s
    ensures i < |s| && s[i] == x
    ensures forall j :: 0 <= j < i ==> s[j] != x
  {
    if s[0] == x then 0 else 1 + FirstIndex(s[1..], x)
  }

  lemma {:induction false} FirstIndexInPrefix<T>(p: seq<T>, t: seq<T>, x: T)
    requires x in p
    ensures FirstIndex(p + t, x) == FirstIndex(p, x)
  {
    var i := FirstIndex(p, x);
    var k := FirstIndex(p + t, x);
    assert (p + t)[i] == x;
    assert k <= i;
    assert p[k] == x;
  }

  /** `Distinct` lists values in the order in which they first occur. */
  lemma {:induction false} DistinctKeepsFirstOccurrenceOrder<T>(s: seq<T>, i: nat, j: nat)
    requires i < j < |Distinct(s)|
    ensures FirstIndex(s, Distinct(s)[i]) < FirstIndex(s, Distinct(s)[j])
    decreases |s|
  {
    var p := s[..|s| - 1];
    var last := s[|s| - 1];
    var d := Distinct(p);
    assert s == p + [last];
    if last in d {
      DistinctKeepsFirstOccurrenceOrder(p, i, j);
      FirstIndexInPrefix(p, [last], d[i]);
      FirstIndexInPrefix(p, [last], d[j]);
    } else if j < |d| {
      DistinctKeepsFirstOccurrenceOrder(p, i, j);
      FirstIndexInPrefix(p, [last], d[i]);
      FirstIndexInPrefix(p, [last], d[j]);
    } else {
      assert Distinct(s)[j] == last && last !in p;
      FirstIndexInPrefix(p, [last], d[i]);
      assert FirstIndex(s, last) == |s| - 1;
    }
  }

  predicate SortedDescending(s: seq<int>) {
    forall i, j :: 0 <= i < j < |s| ==> s[i] >= s[j]
  }

  predicate StrictlyDescending(s: seq<int>) {
    forall i, j :: 0 <= i < j < |s| ==> s[i] > s[j]
  }

  function InsertDescending(x: int, s: seq<int>): (r: seq<int>)
    requires SortedDescending(s)
    ensures SortedDescending(r)
    ensures multiset(r) == multiset(s) + multiset{x}
    ensures forall y :: y in r ==> y == x || y in s
  {
    if s == [] || x >= s[0] then [x] + s
    else
      assert s == [s[0]] + s[1..];
      var rest := InsertDescending(x, s[1..]);
      ConsDescending(s[0], rest);
      [s[0]] + rest
  }

  /** A head no smaller than every element of a descending tail keeps the list descending. */
  lemma ConsDescending(h: int, t: seq<int>)
    requires SortedDescending(t) && forall y :: y in t ==> y <= h
    ensures SortedDescending([h] + t)
  {
    var r := [h] + t;
    forall i, j | 0 <= i < j < |r| ensures r[i] >= r[j] {
      assert r[j] == t[j - 1] && t[j - 1] in t;
      if i > 0 {
        assert r[i] == t[i - 1];
      }
    }
  }

  /** `s.sort((a, b) => b - a)`: the same values, largest first. */
  function SortDescending(s: seq<int>): (r: seq<int>)
    ensures SortedDescending(r)
    ensures multiset(r) == multiset(s)
  {
    if s == [] then []
    else
      assert s == [s[0]] + s[1..];
      InsertDescending(s[0], SortDescending(s[1..]))
  }

  /** A sorted list without repeated values is strictly decreasing. */
  lemma SortedDistinctIsStrict(s: seq<int>)
    requires SortedDescending(s) && NoDuplicates(s)
    ensures StrictlyDescending(s)
  {
  }

  /** Sorting keeps "no repeated values". */
  lemma SortKeepsNoDuplicates(s: seq<int>)
    requires NoDuplicates(s)
    ensures NoDuplicates(SortDescending(s))
  {
    var r := SortDescending(s);
    forall i | 0 <= i < |r| ensures multiset(r)[r[i]] <= 1 {
      NoDuplicatesCountsOnce(s, r[i]);
    }
    CountsAtMostOnce(r);
  }

  lemma {:induction false} CountsAtMostOnce<T>(r: seq<T>)
    requires forall i :: 0 <= i < |r| ==> multiset(r)[r[i]] <= 1
    ensures NoDuplicates(r)
  {
    if r != [] {
      assert r == [r[0]] + r[1..];
      assert multiset(r) == multiset{r[0]} + multiset(r[1..]);
      forall i | 0 <= i < |r[1..]| ensures multiset(r[1..])[r[1..][i]] <= 1 {
        assert r[1..][i] == r[i + 1];
      }
      CountsAtMostOnce(r[1..]);
      if r[0] in r[1..] {
        assert false;
      }
      forall j | 0 < j < |r| ensures r[0] != r[j] {
        assert r[j] == r[1..][j - 1];
      }
    }
  }

  lemma {:induction false} NoDuplicatesCountsOnce<T>(s: seq<T>, x: T)
    requires NoDuplicates(s)
    ensures multiset(s)[x] <= 1
  {
    if s != [] {
      assert s == [s[0]] + s[1..];
      NoDuplicatesCountsOnce(s[1..], x);
      if s[0] == x {
        assert x !in s[1..];
      }
    }
  }

  /** `entries.find(e => e.key === key)?.value`: the value of the first entry with that key. */
  function Lookup<K(==), V>(entries: seq<(K, V)>, key: K): (found: Option<V>)
    ensures found.None? <==> forall i :: 0 <= i < |entries| ==> entries[i].0 != key
    ensures found.Some? ==> exists i :: 0 <= i < |entries| && entries[i] == (key, found.value)
                                        && forall j :: 0 <= j < i ==> entries[j].0 != key
  {
    if entries == [] then None
    else if entries[0].0 == key then Some(entries[0].1)
    else
      var rest := Lookup(entries[1..], key);
      if rest.Some? then
        ghost var i :| 0 <= i < |entries[1..]| && entries[1..][i] == (key, rest.value)
                       && forall j :: 0 <= j < i ==> entries[1..][j].0 != key;
        assert entries[i + 1] == (key, rest.value);
        rest
      else rest
  }
}
