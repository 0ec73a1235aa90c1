/** Kotlin's `sortedByDescending { key }` followed by `take(n)`: a stable
    sort into non-increasing key order, and the first `n` elements of it.
    Keys are compared as reals; integer keys are converted exactly. */
module Sorting {
  import opened Common

  predicate SortedDesc<T>(s: seq<T>, key: T -> real) {
    forall i, j | 0 <= i < j < |s| :: key(s[i]) >= key(s[j])
  }

  /** The elements of `s` whose key is `k`, in their order in `s`. */
  function WithKey<T>(s: seq<T>, key: T -> real, k: real): (r: seq<T>)
    ensures |r| <= |s|
  {
    if |s| == 0 then []
    else (if key(s[0]) == k then [s[0]] else []) + WithKey(s[1..], key, k)
  }

  lemma WithKeyAppend<T>(a: seq<T>, b: seq<T>, key: T -> real, k: real)
    ensures WithKey(a + b, key, k) == WithKey(a, key, k) + WithKey(b, key, k)
  {
    if |a| > 0 {
      assert (a + b)[1..] == a[1..] + b;
    } else {
      assert a + b == b;
    }
  }

  /** Inserts `x` into a sorted sequence after every element with a strictly
      larger key and before the rest, so that `x` precedes its ties. */
  function Insert<T>(x: T, s: seq<T>, key: T -> real): (r: seq<T>)
    requires SortedDesc(s, key)
    ensures |r| == |s| + 1
    ensures multiset(r) == multiset(s) + multiset{x}
    ensures SortedDesc(r, key)
    ensures forall k :: WithKey(r, key, k) ==
              (if key(x) == k then [x] else []) + WithKey(s, key, k)
  {
    if |s| == 0 then [x]
    else if key(s[0]) <= key(x) then
      InsertFront(x, s, key);
      [x] + s
    else
      var t := Insert(x, s[1..], key);
      assert s == [s[0]] + s[1..];
      HeadBoundsRest(x, s, t, key);
      ConsSorted(s[0], t, key);
      InsertBehind(x, s, t, key);
      [s[0]] + t
  }

  lemma InsertFront<T>(x: T, s: seq<T>, key: T -> real)
    requires SortedDesc(s, key) && |s| > 0 && key(s[0]) <= key(x)
    ensures SortedDesc([x] + s, key)
    ensures forall k :: WithKey([x] + s, key, k) ==
              (if key(x) == k then [x] else []) + WithKey(s, key, k)
  {
    forall k ensures WithKey([x] + s, key, k) == (if key(x) == k then [x] else []) + WithKey(s, key, k) {
      assert ([x] + s)[1..] == s;
    }
  }

  lemma InsertBehind<T>(x: T, s: seq<T>, t: seq<T>, key: T -> real)
    requires |s| > 0 && key(s[0]) > key(x)
    requires forall k :: WithKey(t, key, k) == (if key(x) == k then [x] else []) + WithKey(s[1..], key, k)
    ensures forall k :: WithKey([s[0]] + t, key, k) ==
              (if key(x) == k then [x] else []) + WithKey(s, key, k)
  {
    forall k ensures WithKey([s[0]] + t, key, k) ==
        (if key(x) == k then [x] else []) + WithKey(s, key, k) {
      InsertBehindAt(x, s, t, key, k);
    }
  }

  lemma InsertBehindAt<T>(x: T, s: seq<T>, t: seq<T>, key: T -> real, k: real)
    requires |s| > 0 && key(s[0]) > key(x)
    requires WithKey(t, key, k) == (if key(x) == k then [x] else []) + WithKey(s[1..], key, k)
    ensures WithKey([s[0]] + t, key, k) == (if key(x) == k then [x] else []) + WithKey(s, key, k)
  {
    var h := WithKey([s[0]], key, k);
    var w := WithKey(s[1..], key, k);
    assert s == [s[0]] + s[1..];
    WithKeyAppend([s[0]], t, key, k);
    WithKeyAppend([s[0]], s[1..], key, k);
    assert [s[0]][1..] == [];
    assert h == if key(s[0]) == k then [s[0]] else [];
    if key(x) == k {
      assert h == [];
    }
  }

  lemma HeadBoundsRest<T>(x: T, s: seq<T>, t: seq<T>, key: T -> real)
    requires SortedDesc(s, key) && |s| > 0 && key(s[0]) > key(x)
    requires multiset(t) == multiset(s[1..]) + multiset{x}
    ensures forall i | 0 <= i < |t| :: key(t[i]) <= key(s[0])
  {
    forall i | 0 <= i < |t| ensures key(t[i]) <= key(s[0]) {
      assert t[i] in multiset(t);
      if t[i] != x {
        assert t[i] in multiset(s[1..]);
        var j :| 0 <= j < |s[1..]| && s[1..][j] == t[i];
        assert s[j + 1] == t[i];
      }
    }
  }

  lemma ConsSorted<T>(h: T, t: seq<T>, key: T -> real)
    requires SortedDesc(t, key)
    requires forall i | 0 <= i < |t| :: key(t[i]) <= key(h)
    ensures SortedDesc([h] + t, key)
  {
    forall i, j | 0 <= i < j < |t| + 1 ensures key(([h] + t)[i]) >= key(([h] + t)[j]) {
      assert ([h] + t)[j] == t[j - 1];
      if i > 0 {
        assert ([h] + t)[i] == t[i - 1];
      }
    }
  }

  /** `sortedByDescending(key)`: a permutation in non-increasing key order
      that keeps the input order among equal keys. */
  function SortDesc<T>(s: seq<T>, key: T -> real): (r: seq<T>)
    ensures |r| == |s|
    ensures multiset(r) == multiset(s)
    ensures SortedDesc(r, key)
    ensures forall k :: WithKey(r, key, k) == WithKey(s, key, k)
  {
    if |s| == 0 then []
    else
      var t := SortDesc(s[1..], key);
      assert s == [s[0]] + s[1..];
      Insert(s[0], t, key)
  }

  /** Sequences that are permutations of each other have the same elements. */
  lemma PermutationMembers<T>(a: seq<T>, b: seq<T>)
    requires multiset(a) == multiset(b)
    ensures forall e :: e in a <==> e in b
  {
    forall e ensures e in a <==> e in b {
      assert e in a <==> e in multiset(a);
      assert e in b <==> e in multiset(b);
    }
  }

  /** Taking a prefix keeps, for every key, a prefix of the elements with
      that key. */
  lemma WithKeyPrefix<T>(s: seq<T>, n: nat, key: T -> real, k: real)
    requires n <= |s|
    ensures WithKey(s[..n], key, k) <= WithKey(s, key, k)
  {
    assert s == s[..n] + s[n..];
    WithKeyAppend(s[..n], s[n..], key, k);
  }

  /** A prefix of a sorted sequence holds elements whose keys are at least
      those of the elements left out. */
  lemma SortedPrefixDominates<T>(t: seq<T>, m: nat, key: T -> real)
    requires m <= |t| && SortedDesc(t, key)
    ensures forall x, y | x in t[..m] && y in multiset(t) - multiset(t[..m]) ::
              key(y) <= key(x)
  {
    assert t == t[..m] + t[m..];
    assert multiset(t) == multiset(t[..m]) + multiset(t[m..]);
    forall x, y | x in t[..m] && y in multiset(t) - multiset(t[..m])
      ensures key(y) <= key(x)
    {
      assert y in multiset(t[m..]);
      assert y in t[m..];
      var i :| 0 <= i < m && t[..m][i] == x;
      var j :| 0 <= j < |t[m..]| && t[m..][j] == y;
      assert t[i] == x && t[m + j] == y;
    }
  }

  /** `sortedByDescending(key).take(n)`: fails for a negative count, as
      `take` does; otherwise the at most `n` elements with the largest keys,
      in non-increasing key order, ties in input order. */
  function TopBy<T>(s: seq<T>, n: int, key: T -> real): (r: Result<seq<T>>)
    ensures n < 0 <==> r.Err?
    ensures r.Err? ==> r.error == InvalidArgument
    ensures r.Ok? ==> |r.value| == if n < |s| then n else |s|
    ensures r.Ok? ==> SortedDesc(r.value, key)
    ensures r.Ok? ==> multiset(r.value) <= multiset(s)
    ensures r.Ok? ==> forall k :: WithKey(r.value, key, k) <= WithKey(s, key, k)
    ensures r.Ok? ==> forall x, y | x in r.value && y in multiset(s) - multiset(r.value) ::
              key(y) <= key(x)
  {
    if n < 0 then Err(InvalidArgument)
    else
      var t := SortDesc(s, key);
      var m := if n < |t| then n else |t|;
      assert t == t[..m] + t[m..];
      assert multiset(t) == multiset(t[..m]) + multiset(t[m..]);
      forall k ensures WithKey(t[..m], key, k) <= WithKey(s, key, k) {
        WithKeyPrefix(t, m, key, k);
      }
      SortedPrefixDominates(t, m, key);
      Ok(t[..m])
  }
}
