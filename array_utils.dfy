/**
 * The canonicalisation utilities of `src/utils/array.ts`:
 * `sortByLengthAndLexicographically` (in place on an array),
 * `getArrayMap` (index a list by a key, last element wins) and
 * `mergeArrayByKey` (key-indexed union in first-insertion order).
 * A property name `key: keyof T` becomes a key function `key: T -> K`.
 */
module ArrayUtils {
  import opened Common
  import opened Strings

  // ---------------------------------------------------------------------
  // sortByLengthAndLexicographically
  // ---------------------------------------------------------------------

  /**
   * `arr.sort(...)` with the length-then-lexicographic comparator: the
   * array is reordered in place into a sorted permutation of itself
   * (nothing is dropped or duplicated).
   */
  method SortByLengthAndLexicographically(a: array<string>)
    modifies a
    ensures SortedByLengthLex(a[..])
    ensures multiset(a[..]) == multiset(old(a[..]))
    ensures a[..] == SortLengthLex(old(a[..]))
  {
    var i := 0;
    while i < a.Length
      invariant 0 <= i <= a.Length
      invariant forall p, q :: 0 <= p < q < i ==> LengthLexLe(a[p], a[q])
      invariant multiset(a[..]) == multiset(old(a[..]))
    {
      var j := i;
      while j > 0 && !LengthLexLe(a[j - 1], a[j])
        invariant 0 <= j <= i < a.Length
        invariant forall p, q :: 0 <= p < q <= i && p != j && q != j ==> LengthLexLe(a[p], a[q])
        invariant forall q :: j < q <= i ==> LengthLexLe(a[j], a[q])
        invariant multiset(a[..]) == multiset(old(a[..]))
      {
        LengthLexLeTotal(a[j - 1], a[j]);
        a[j - 1], a[j] := a[j], a[j - 1];
        j := j - 1;
      }
      forall p | 0 <= p < j
        ensures LengthLexLe(a[p], a[j])
      {
        if p < j - 1 {
          LengthLexLeTransitive(a[p], a[j - 1], a[j]);
        }
      }
      i := i + 1;
    }
    SortLengthLexSpec(old(a[..]));
    SortedPermutationUnique(a[..], SortLengthLex(old(a[..])));
  }

  /** Inserts `x` into a sorted list before the first element it precedes. */
  function InsertSorted(x: string, s: seq<string>): seq<string> {
    if s == [] then [x]
    else if LengthLexLe(x, s[0]) then [x] + s
    else [s[0]] + InsertSorted(x, s[1..])
  }

  /**
   * The sorted order of `s` under the length-then-lexicographic comparator,
   * as a functional insertion sort: the reference the in-place sort is
   * proved against.
   */
  function SortLengthLex(s: seq<string>): seq<string> {
    if s == [] then [] else InsertSorted(s[0], SortLengthLex(s[1..]))
  }

  lemma {:induction false} InsertSortedMultiset(x: string, s: seq<string>)
    ensures multiset(InsertSorted(x, s)) == multiset(s) + multiset{x}
  {
    if s != [] {
      assert s == [s[0]] + s[1..];
      if !LengthLexLe(x, s[0]) {
        InsertSortedMultiset(x, s[1..]);
      }
    }
  }

  /** Every element of a sorted list follows its head. */
  lemma SortedHeadBelow(s: seq<string>, q: nat)
    requires SortedByLengthLex(s) && 0 < q < |s|
    ensures LengthLexLe(s[0], s[q])
  {
  }

  lemma {:induction false} InsertSortedSpec(x: string, s: seq<string>)
    requires SortedByLengthLex(s)
    ensures SortedByLengthLex(InsertSorted(x, s))
    ensures multiset(InsertSorted(x, s)) == multiset(s) + multiset{x}
  {
    InsertSortedMultiset(x, s);
    if s == [] {
    } else if !LengthLexLe(x, s[0]) {
      InsertSortedSpec(x, s[1..]);
      LengthLexLeTotal(x, s[0]);
      var r := InsertSorted(x, s[1..]);
      forall q | 0 <= q < |r|
        ensures LengthLexLe(s[0], r[q])
      {
        assert r[q] in multiset(r);
        if r[q] != x {
          assert r[q] in multiset(s[1..]);
          var k :| 0 <= k < |s[1..]| && s[1..][k] == r[q];
          SortedHeadBelow(s, k + 1);
        }
      }
      assert InsertSorted(x, s) == [s[0]] + r;
    } else {
      var r := [x] + s;
      forall p, q | 0 <= p < q < |r|
        ensures LengthLexLe(r[p], r[q])
      {
        if p == 0 && q > 1 {
          SortedHeadBelow(s, q - 1);
          LengthLexLeTransitive(x, s[0], s[q - 1]);
        }
      }
    }
  }

  /** The reference sort returns a sorted permutation of its input. */
  lemma {:induction false} SortLengthLexSpec(s: seq<string>)
    ensures SortedByLengthLex(SortLengthLex(s))
    ensures multiset(SortLengthLex(s)) == multiset(s)
  {
    if s != [] {
      SortLengthLexSpec(s[1..]);
      InsertSortedSpec(s[0], SortLengthLex(s[1..]));
      assert s == [s[0]] + s[1..];
    }
  }

  /**
   * Two sorted permutations of the same strings are equal: the order is
   * total, so the sorted result does not depend on the sort's stability.
   */
  lemma {:induction false} SortedPermutationUnique(s: seq<string>, t: seq<string>)
    requires SortedByLengthLex(s) && SortedByLengthLex(t)
    requires multiset(s) == multiset(t)
    ensures s == t
    decreases |s|
  {
    assert |t| == |multiset(t)| == |multiset(s)| == |s|;
    if |s| > 0 {
      assert s[0] in multiset(t) && t[0] in multiset(s);
      SortedHeadFirst(t, s[0]);
      SortedHeadFirst(s, t[0]);
      LengthLexLeAntisymmetric(s[0], t[0]);
      TailMultiset(s, t);
      SortedPermutationUnique(s[1..], t[1..]);
      assert s == [s[0]] + s[1..] && t == [t[0]] + t[1..];
    }
  }

  lemma SortedHeadFirst(s: seq<string>, x: string)
    requires SortedByLengthLex(s) && x in s
    ensures LengthLexLe(s[0], x)
  {
    var i :| 0 <= i < |s| && s[i] == x;
    if i == 0 {
      LengthLexLeReflexive(x);
    }
  }

  lemma TailMultiset<T>(s: seq<T>, t: seq<T>)
    requires |s| > 0 && |t| > 0 && s[0] == t[0] && multiset(s) == multiset(t)
    ensures multiset(s[1..]) == multiset(t[1..])
  {
    assert s == [s[0]] + s[1..] && t == [t[0]] + t[1..];
    forall x
      ensures multiset(s[1..])[x] == multiset(t[1..])[x]
    {
      assert multiset(s)[x] == multiset{s[0]}[x] + multiset(s[1..])[x];
      assert multiset(t)[x] == multiset{t[0]}[x] + multiset(t[1..])[x];
    }
  }

  // ---------------------------------------------------------------------
  // Keys, first and last occurrences
  // ---------------------------------------------------------------------

  /** Some element of `s` has key `k`. */
  predicate HasKey<T, K(==)>(s: seq<T>, key: T -> K, k: K)
    decreases |s|
  {
    |s| > 0 && (key(s[|s| - 1]) == k || HasKey(s[..|s| - 1], key, k))
  }

  lemma HasKeySnoc<T, K>(s: seq<T>, x: T, key: T -> K, k: K)
    ensures HasKey(s + [x], key, k) <==> key(x) == k || HasKey(s, key, k)
  {
    assert (s + [x])[..|s|] == s;
  }

  lemma {:induction false} HasKeyAppend<T, K>(s: seq<T>, t: seq<T>, key: T -> K, k: K)
    ensures HasKey(s + t, key, k) <==> HasKey(s, key, k) || HasKey(t, key, k)
    decreases |t|
  {
    if t == [] {
      assert s + t == s;
    } else {
      var n := |t| - 1;
      assert s + t == (s + t[..n]) + [t[n]];
      HasKeySnoc(s + t[..n], t[n], key, k);
      HasKeyAppend(s, t[..n], key, k);
    }
  }

  lemma {:induction false} HasKeyIndex<T, K>(s: seq<T>, key: T -> K, k: K)
    ensures HasKey(s, key, k) <==> exists i :: 0 <= i < |s| && key(s[i]) == k
    decreases |s|
  {
    if |s| > 0 {
      var n := |s| - 1;
      HasKeyIndex(s[..n], key, k);
      if HasKey(s[..n], key, k) {
        var i :| 0 <= i < n && key(s[..n][i]) == k;
        assert key(s[i]) == k;
      }
      if exists i :: 0 <= i < |s| && key(s[i]) == k {
        var i :| 0 <= i < |s| && key(s[i]) == k;
        if i < n {
          assert key(s[..n][i]) == k;
        }
      }
    }
  }

  lemma HasKeyAt<T, K>(s: seq<T>, key: T -> K, i: nat)
    requires i < |s|
    ensures HasKey(s, key, key(s[i]))
  {
    HasKeyIndex(s, key, key(s[i]));
    assert 0 <= i < |s| && key(s[i]) == key(s[i]);
  }

  /** The last element of `s` whose key is `k`. */
  function LastWithKey<T, K(==)>(s: seq<T>, key: T -> K, k: K): (x: T)
    requires HasKey(s, key, k)
    ensures key(x) == k
    decreases |s|
  {
    var n := |s| - 1;
    if key(s[n]) == k then s[n] else LastWithKey(s[..n], key, k)
  }

  /** The first element of `s` whose key is `k`. */
  function FirstWithKey<T, K(==)>(s: seq<T>, key: T -> K, k: K): (x: T)
    requires HasKey(s, key, k)
    ensures key(x) == k
    decreases |s|
  {
    var n := |s| - 1;
    if HasKey(s[..n], key, k) then FirstWithKey(s[..n], key, k) else s[n]
  }

  lemma LastWithKeySnoc<T, K>(s: seq<T>, x: T, key: T -> K, k: K)
    requires HasKey(s + [x], key, k)
    ensures key(x) != k ==> HasKey(s, key, k)
    ensures LastWithKey(s + [x], key, k) == if key(x) == k then x else LastWithKey(s, key, k)
  {
    assert (s + [x])[..|s|] == s;
  }

  lemma FirstWithKeySnoc<T, K>(s: seq<T>, x: T, key: T -> K, k: K)
    requires HasKey(s + [x], key, k)
    ensures FirstWithKey(s + [x], key, k) == if HasKey(s, key, k) then FirstWithKey(s, key, k) else x
  {
    assert (s + [x])[..|s|] == s;
  }

  /** No two elements share a key. */
  predicate DistinctKeys<T, K(==)>(s: seq<T>, key: T -> K) {
    forall i, j :: 0 <= i < j < |s| ==> key(s[i]) != key(s[j])
  }

  /** In a list whose keys are distinct, the element with key `key(s[i])` is `s[i]`. */
  lemma {:induction false} WithKeyDistinct<T, K>(s: seq<T>, key: T -> K, i: nat)
    requires DistinctKeys(s, key) && i < |s|
    ensures HasKey(s, key, key(s[i]))
    ensures LastWithKey(s, key, key(s[i])) == s[i]
    ensures FirstWithKey(s, key, key(s[i])) == s[i]
    decreases |s|
  {
    var n := |s| - 1;
    HasKeyIndex(s, key, key(s[i]));
    HasKeyIndex(s[..n], key, key(s[n]));
    if i < n {
      assert s[..n][i] == s[i];
      WithKeyDistinct(s[..n], key, i);
    }
  }

  /**
   * The keys of `s` in first-seen order, each once: the key order of a
   * JavaScript `Map` filled by `set` calls in the order of `s`.
   */
  function KeyOrder<T, K(==)>(s: seq<T>, key: T -> K): seq<K>
    decreases |s|
  {
    if s == [] then []
    else
      var n := |s| - 1;
      if HasKey(s[..n], key, key(s[n])) then KeyOrder(s[..n], key)
      else KeyOrder(s[..n], key) + [key(s[n])]
  }

  lemma KeyOrderSnoc<T, K>(s: seq<T>, x: T, key: T -> K)
    ensures KeyOrder(s + [x], key)
         == if HasKey(s, key, key(x)) then KeyOrder(s, key) else KeyOrder(s, key) + [key(x)]
  {
    assert (s + [x])[..|s|] == s;
  }

  /** `KeyOrder` lists exactly the keys that occur, each once. */
  lemma {:induction false} KeyOrderMembers<T, K>(s: seq<T>, key: T -> K)
    ensures forall k :: k in KeyOrder(s, key) <==> HasKey(s, key, k)
    ensures forall i :: 0 <= i < |KeyOrder(s, key)| ==> HasKey(s, key, KeyOrder(s, key)[i])
    ensures forall i, j :: 0 <= i < j < |KeyOrder(s, key)| ==> KeyOrder(s, key)[i] != KeyOrder(s, key)[j]
    decreases |s|
  {
    if s != [] {
      var n := |s| - 1;
      KeyOrderMembers(s[..n], key);
      if !HasKey(s[..n], key, key(s[n])) {
        assert key(s[n]) !in KeyOrder(s[..n], key);
      }
    }
  }

  /** The keys of a list without repeated keys, in list order. */
  lemma {:induction false} KeyOrderOfDistinct<T, K>(s: seq<T>, key: T -> K)
    requires DistinctKeys(s, key)
    ensures |KeyOrder(s, key)| == |s|
    ensures forall i :: 0 <= i < |s| ==> KeyOrder(s, key)[i] == key(s[i])
    decreases |s|
  {
    if s != [] {
      var n := |s| - 1;
      KeyOrderOfDistinct(s[..n], key);
      HasKeyIndex(s[..n], key, key(s[n]));
    }
  }

  /** Appending only keys already seen does not change the first-seen order. */
  lemma {:induction false} KeyOrderAbsorbs<T, K>(s: seq<T>, more: seq<T>, key: T -> K)
    requires forall i :: 0 <= i < |more| ==> HasKey(s, key, key(more[i]))
    ensures KeyOrder(s + more, key) == KeyOrder(s, key)
    decreases |more|
  {
    if more == [] {
      assert s + more == s;
    } else {
      var n := |more| - 1;
      assert s + more == (s + more[..n]) + [more[n]];
      KeyOrderAbsorbs(s, more[..n], key);
      KeyOrderSnoc(s + more[..n], more[n], key);
      HasKeyAppend(s, more[..n], key, key(more[n]));
    }
  }

  /** The keys of `t` in first-seen order that do not occur in `s`. */
  function NewKeys<T, K(==)>(t: seq<T>, s: seq<T>, key: T -> K): seq<K>
    decreases |t|
  {
    if t == [] then []
    else
      var n := |t| - 1;
      if HasKey(s, key, key(t[n])) || HasKey(t[..n], key, key(t[n])) then NewKeys(t[..n], s, key)
      else NewKeys(t[..n], s, key) + [key(t[n])]
  }

  /**
   * First-seen order over a concatenation: the first list's keys in
   * first-seen order, then the second list's new keys in first-seen order.
   */
  lemma {:induction false} KeyOrderAppend<T, K>(s: seq<T>, t: seq<T>, key: T -> K)
    ensures KeyOrder(s + t, key) == KeyOrder(s, key) + NewKeys(t, s, key)
    decreases |t|
  {
    if t == [] {
      assert s + t == s;
    } else {
      var n := |t| - 1;
      assert s + t == (s + t[..n]) + [t[n]];
      KeyOrderAppend(s, t[..n], key);
      KeyOrderSnoc(s + t[..n], t[n], key);
      HasKeyAppend(s, t[..n], key, key(t[n]));
    }
  }

  // ---------------------------------------------------------------------
  // getArrayMap
  // ---------------------------------------------------------------------

  /**
   * `getArrayMap(arr, key)`: a map from every key that occurs in `arr` to
   * the last element carrying it.
   */
  method GetArrayMap<T, K(==)>(arr: seq<T>, key: T -> K) returns (m: map<K, T>)
    ensures forall k :: k in m <==> HasKey(arr, key, k)
    ensures forall k :: k in m ==> HasKey(arr, key, k) && m[k] == LastWithKey(arr, key, k)
  {
    m := map[];
    var i := 0;
    while i < |arr|
      invariant 0 <= i <= |arr|
      invariant forall k :: k in m <==> HasKey(arr[..i], key, k)
      invariant forall k :: k in m ==> HasKey(arr[..i], key, k) && m[k] == LastWithKey(arr[..i], key, k)
    {
      assert arr[..i + 1] == arr[..i] + [arr[i]];
      forall k
        ensures HasKey(arr[..i + 1], key, k) <==> key(arr[i]) == k || HasKey(arr[..i], key, k)
      {
        HasKeySnoc(arr[..i], arr[i], key, k);
      }
      forall k | HasKey(arr[..i + 1], key, k)
        ensures LastWithKey(arr[..i + 1], key, k) == if key(arr[i]) == k then arr[i] else LastWithKey(arr[..i], key, k)
      {
        LastWithKeySnoc(arr[..i], arr[i], key, k);
      }
      m := m[key(arr[i]) := arr[i]];
      i := i + 1;
    }
    assert arr[..i] == arr;
  }

  /**
   * What `getArrayMap` promises, stated by position: an element after which
   * no element shares its key is the one its key maps to.
   */
  lemma {:induction false} LastWithKeyIsLast<T, K>(s: seq<T>, key: T -> K, i: nat)
    requires i < |s|
    requires forall j :: i < j < |s| ==> key(s[j]) != key(s[i])
    ensures HasKey(s, key, key(s[i]))
    ensures LastWithKey(s, key, key(s[i])) == s[i]
    decreases |s|
  {
    HasKeyIndex(s, key, key(s[i]));
    var n := |s| - 1;
    if i < n {
      assert s[..n][i] == s[i];
      LastWithKeyIsLast(s[..n], key, i);
    }
  }

  // ---------------------------------------------------------------------
  // mergeArrayByKey
  // ---------------------------------------------------------------------

  /**
   * The element `mergeArrayByKey` keeps for key `k`. Filling the map from
   * `arr1` overwrites, so within `arr1` the last element wins; from `arr2`
   * a key already present is overwritten only when `replace` is set (so the
   * last `arr2` element wins), and a new key takes the first `arr2` element
   * unless later ones replace it.
   */
  function MergeWinner<T, K(==)>(arr1: seq<T>, arr2: seq<T>, key: T -> K, replace: bool, k: K): (x: T)
    requires HasKey(arr1, key, k) || HasKey(arr2, key, k)
    ensures key(x) == k
  {
    if replace then
      if HasKey(arr2, key, k) then LastWithKey(arr2, key, k) else LastWithKey(arr1, key, k)
    else
      if HasKey(arr1, key, k) then LastWithKey(arr1, key, k) else FirstWithKey(arr2, key, k)
  }

  /** One more element of the second list: the step the second loop of `mergeArrayByKey` takes. */
  lemma MergeWinnerSnoc<T, K>(arr1: seq<T>, arr2: seq<T>, x: T, key: T -> K, replace: bool, k: K)
    requires HasKey(arr1, key, k) || HasKey(arr2 + [x], key, k)
    ensures key(x) != k ==> HasKey(arr1, key, k) || HasKey(arr2, key, k)
    ensures MergeWinner(arr1, arr2 + [x], key, replace, k)
         == if key(x) != k then MergeWinner(arr1, arr2, key, replace, k)
            else if replace || !(HasKey(arr1, key, k) || HasKey(arr2, key, k)) then x
            else MergeWinner(arr1, arr2, key, replace, k)
  {
    HasKeySnoc(arr2, x, key, k);
    if HasKey(arr2 + [x], key, k) {
      LastWithKeySnoc(arr2, x, key, k);
      FirstWithKeySnoc(arr2, x, key, k);
    }
  }

  /** The `Map` and its key order after the first loop has run over `done`. */
  ghost predicate FirstLoop<T, K>(m: map<K, T>, order: seq<K>, done: seq<T>, key: T -> K) {
    && order == KeyOrder(done, key)
    && (forall k | k in order :: k in m)
    && (forall k | k in m :: HasKey(done, key, k) && m[k] == LastWithKey(done, key, k))
  }

  lemma FirstLoopStep<T, K>(m: map<K, T>, order: seq<K>, done: seq<T>, x: T, key: T -> K)
    requires FirstLoop(m, order, done, key)
    ensures FirstLoop(m[key(x) := x], if key(x) in m then order else order + [key(x)], done + [x], key)
  {
    KeyOrderSnoc(done, x, key);
    KeyOrderMembers(done, key);
    assert key(x) in m <==> HasKey(done, key, key(x)) by {
      if HasKey(done, key, key(x)) {
        assert key(x) in order;
      }
    }
    forall k | k in m[key(x) := x]
      ensures HasKey(done + [x], key, k)
      ensures m[key(x) := x][k] == LastWithKey(done + [x], key, k)
    {
      HasKeySnoc(done, x, key, k);
      LastWithKeySnoc(done, x, key, k);
    }
  }

  /** The `Map` and its key order after the second loop has run over `done`. */
  ghost predicate SecondLoop<T, K>(m: map<K, T>, order: seq<K>, arr1: seq<T>, done: seq<T>, key: T -> K, replace: bool) {
    && order == KeyOrder(arr1 + done, key)
    && (forall k | k in order :: k in m)
    && (forall k | k in m ::
          (HasKey(arr1, key, k) || HasKey(done, key, k)) && m[k] == MergeWinner(arr1, done, key, replace, k))
  }

  lemma SecondLoopStart<T, K>(m: map<K, T>, order: seq<K>, arr1: seq<T>, key: T -> K, replace: bool)
    requires FirstLoop(m, order, arr1, key)
    ensures SecondLoop(m, order, arr1, [], key, replace)
  {
    assert arr1 + [] == arr1;
  }

  lemma SecondLoopStep<T, K>(m: map<K, T>, order: seq<K>, arr1: seq<T>, done: seq<T>, x: T, key: T -> K, replace: bool)
    requires SecondLoop(m, order, arr1, done, key, replace)
    ensures key(x) in m ==> SecondLoop(if replace then m[key(x) := x] else m, order, arr1, done + [x], key, replace)
    ensures key(x) !in m ==> SecondLoop(m[key(x) := x], order + [key(x)], arr1, done + [x], key, replace)
  {
    assert arr1 + (done + [x]) == (arr1 + done) + [x];
    KeyOrderSnoc(arr1 + done, x, key);
    KeyOrderMembers(arr1 + done, key);
    HasKeyAppend(arr1, done, key, key(x));
    assert key(x) in m <==> HasKey(arr1, key, key(x)) || HasKey(done, key, key(x)) by {
      if HasKey(arr1 + done, key, key(x)) {
        assert key(x) in order;
      }
    }
    var m' := if key(x) in m && !replace then m else m[key(x) := x];
    forall k | k in m'
      ensures HasKey(arr1, key, k) || HasKey(done + [x], key, k)
      ensures m'[k] == MergeWinner(arr1, done + [x], key, replace, k)
    {
      HasKeySnoc(done, x, key, k);
      MergeWinnerSnoc(arr1, done, x, key, replace, k);
    }
  }

  /** The result of `mergeArrayByKey(arr1, arr2, key, replace)`. */
  function MergeByKey<T, K(==)>(arr1: seq<T>, arr2: seq<T>, key: T -> K, replace: bool): seq<T>
  {
    var ks := KeyOrder(arr1 + arr2, key);
    seq(|ks|, i requires 0 <= i < |ks| =>
      MergedKeyOccurs(arr1, arr2, key, i);
      MergeWinner(arr1, arr2, key, replace, ks[i]))
  }

  lemma MergedKeyOccurs<T, K>(arr1: seq<T>, arr2: seq<T>, key: T -> K, i: nat)
    requires i < |KeyOrder(arr1 + arr2, key)|
    ensures HasKey(arr1, key, KeyOrder(arr1 + arr2, key)[i]) || HasKey(arr2, key, KeyOrder(arr1 + arr2, key)[i])
  {
    var ks := KeyOrder(arr1 + arr2, key);
    KeyOrderMembers(arr1 + arr2, key);
    assert ks[i] in ks;
    HasKeyAppend(arr1, arr2, key, ks[i]);
  }

  /**
   * `mergeArrayByKey`: fills a `Map` from `arr1`, then adds `arr2`'s new
   * keys (and, with `replace`, overwrites existing ones), and returns the
   * map's values in key-insertion order.
   */
  method MergeArrayByKey<T, K(==)>(arr1: seq<T>, arr2: seq<T>, key: T -> K, replace: bool)
    returns (r: seq<T>)
    ensures r == MergeByKey(arr1, arr2, key, replace)
  {
    var m: map<K, T> := map[];
    var order: seq<K> := [];  // the Map's key-insertion order
    var i := 0;
    while i < |arr1|
      invariant 0 <= i <= |arr1|
      invariant FirstLoop(m, order, arr1[..i], key)
    {
      var k := key(arr1[i]);
      FirstLoopStep(m, order, arr1[..i], arr1[i], key);
      assert arr1[..i + 1] == arr1[..i] + [arr1[i]];
      if k !in m {
        order := order + [k];
      }
      m := m[k := arr1[i]];
      i := i + 1;
    }
    assert arr1[..i] == arr1;
    SecondLoopStart(m, order, arr1, key, replace);
    var j := 0;
    while j < |arr2|
      invariant 0 <= j <= |arr2|
      invariant SecondLoop(m, order, arr1, arr2[..j], key, replace)
    {
      var k := key(arr2[j]);
      SecondLoopStep(m, order, arr1, arr2[..j], arr2[j], key, replace);
      assert arr2[..j + 1] == arr2[..j] + [arr2[j]];
      if k in m {
        if replace {
          m := m[k := arr2[j]];
        }
      } else {
        m := m[k := arr2[j]];
        order := order + [k];
      }
      j := j + 1;
    }
    assert arr2[..j] == arr2;
    r := seq(|order|, p requires 0 <= p < |order| => m[order[p]]);
  }

  /**
   * The merge holds exactly one element per distinct key of the two
   * inputs: the first list's keys in first-seen order, then the second
   * list's new keys in first-seen order.
   */
  lemma MergeKeys<T, K>(arr1: seq<T>, arr2: seq<T>, key: T -> K, replace: bool)
    ensures |MergeByKey(arr1, arr2, key, replace)| == |KeyOrder(arr1, key) + NewKeys(arr2, arr1, key)|
    ensures forall i :: 0 <= i < |MergeByKey(arr1, arr2, key, replace)| ==>
              key(MergeByKey(arr1, arr2, key, replace)[i]) == (KeyOrder(arr1, key) + NewKeys(arr2, arr1, key))[i]
    ensures DistinctKeys(MergeByKey(arr1, arr2, key, replace), key)
    ensures forall k :: HasKey(MergeByKey(arr1, arr2, key, replace), key, k)
                    <==> HasKey(arr1, key, k) || HasKey(arr2, key, k)
  {
    var r := MergeByKey(arr1, arr2, key, replace);
    KeyOrderAppend(arr1, arr2, key);
    KeyOrderMembers(arr1 + arr2, key);
    forall k
      ensures HasKey(r, key, k) <==> HasKey(arr1, key, k) || HasKey(arr2, key, k)
    {
      HasKeyIndex(r, key, k);
      HasKeyAppend(arr1, arr2, key, k);
      var ks := KeyOrder(arr1 + arr2, key);
      if HasKey(r, key, k) {
        var i :| 0 <= i < |r| && key(r[i]) == k;
        assert ks[i] == k;
        assert k in ks;
      }
      if HasKey(arr1 + arr2, key, k) {
        assert k in ks;
        var i :| 0 <= i < |ks| && ks[i] == k;
        assert 0 <= i < |r| && key(r[i]) == k;
      }
    }
  }

  /** Without `replace`, every key of the first list keeps the first list's (last) element. */
  lemma MergeKeepsExisting<T, K>(arr1: seq<T>, arr2: seq<T>, key: T -> K, i: nat)
    requires i < |MergeByKey(arr1, arr2, key, false)|
    requires HasKey(arr1, key, key(MergeByKey(arr1, arr2, key, false)[i]))
    ensures MergeByKey(arr1, arr2, key, false)[i]
         == LastWithKey(arr1, key, key(MergeByKey(arr1, arr2, key, false)[i]))
  {
  }

  /** With `replace`, every key of the second list takes the second list's (last) element. */
  lemma MergeReplaces<T, K>(arr1: seq<T>, arr2: seq<T>, key: T -> K, i: nat)
    requires i < |MergeByKey(arr1, arr2, key, true)|
    requires HasKey(arr2, key, key(MergeByKey(arr1, arr2, key, true)[i]))
    ensures MergeByKey(arr1, arr2, key, true)[i]
         == LastWithKey(arr2, key, key(MergeByKey(arr1, arr2, key, true)[i]))
  {
  }

  /**
   * Without `replace`, merging into a list with distinct keys that already
   * holds every incoming key returns that list unchanged.
   */
  lemma MergeAbsorbs<T, K>(arr1: seq<T>, arr2: seq<T>, key: T -> K)
    requires DistinctKeys(arr1, key)
    requires forall i :: 0 <= i < |arr2| ==> HasKey(arr1, key, key(arr2[i]))
    ensures MergeByKey(arr1, arr2, key, false) == arr1
  {
    KeyOrderAbsorbs(arr1, arr2, key);
    KeyOrderOfDistinct(arr1, key);
    var r := MergeByKey(arr1, arr2, key, false);
    forall i | 0 <= i < |arr1|
      ensures r[i] == arr1[i]
    {
      WithKeyDistinct(arr1, key, i);
    }
  }

  /** Merging the same incoming list a second time changes nothing. */
  lemma MergeIdempotent<T, K>(arr1: seq<T>, arr2: seq<T>, key: T -> K)
    ensures MergeByKey(MergeByKey(arr1, arr2, key, false), arr2, key, false)
         == MergeByKey(arr1, arr2, key, false)
  {
    var m := MergeByKey(arr1, arr2, key, false);
    MergeKeys(arr1, arr2, key, false);
    forall i | 0 <= i < |arr2|
      ensures HasKey(m, key, key(arr2[i]))
    {
      HasKeyAt(arr2, key, i);
      assert HasKey(arr2, key, key(arr2[i]));
      assert HasKey(arr1, key, key(arr2[i])) || HasKey(arr2, key, key(arr2[i]));
    }
    MergeAbsorbs(m, arr2, key);
  }

  /** An empty second list returns the first one when its keys are distinct. */
  lemma MergeEmptySecond<T, K>(arr1: seq<T>, key: T -> K, replace: bool)
    requires DistinctKeys(arr1, key)
    ensures MergeByKey(arr1, [], key, replace) == arr1
  {
    assert arr1 + [] == arr1;
    KeyOrderOfDistinct(arr1, key);
    var r := MergeByKey(arr1, [], key, replace);
    forall i | 0 <= i < |arr1|
      ensures r[i] == arr1[i]
    {
      WithKeyDistinct(arr1, key, i);
    }
  }

  /** An empty first list returns the second one when its keys are distinct. */
  lemma MergeEmptyFirst<T, K>(arr2: seq<T>, key: T -> K, replace: bool)
    requires DistinctKeys(arr2, key)
    ensures MergeByKey([], arr2, key, replace) == arr2
  {
    assert [] + arr2 == arr2;
    KeyOrderOfDistinct(arr2, key);
    var r := MergeByKey([], arr2, key, replace);
    forall i | 0 <= i < |arr2|
      ensures r[i] == arr2[i]
    {
      WithKeyDistinct(arr2, key, i);
    }
  }
}
