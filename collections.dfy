// Sequence helpers shared by the modules: Array.prototype.find, a sort by an
// integer key (Array.prototype.sort with a numeric comparator), and the facts
// about permutations that the sort's callers need.
module Collections {
  import opened Wrappers

  /** The first element of `s` that satisfies `p`, as `Array.prototype.find` returns it. */
  function FindFirst<T>(s: seq<T>, p: T -> bool): (r: Option<T>)
    ensures r.None? <==> forall i :: 0 <= i < |s| ==> !p(s[i])
    ensures r.Some? ==> exists i :: 0 <= i < |s| && s[i] == r.value && p(s[i]) &&
                                    forall j :: 0 <= j < i ==> !p(s[j])
  {
    if s == [] then None
    else if p(s[0]) then Some(s[0])
    else
      var r := FindFirst(s[1..], p);
      assert forall i :: 0 < i < |s| ==> s[i] == s[1..][i - 1];
      r
  }

  /** Appending elements never changes what `find` returns once the prefix already has a match. */
  lemma {:induction false} FindFirstAppend<T>(s: seq<T>, extra: seq<T>, p: T -> bool)
    requires FindFirst(s, p).Some?
    ensures FindFirst(s + extra, p) == FindFirst(s, p)
  {
    if !p(s[0]) {
      assert (s + extra)[1..] == s[1..] + extra;
      FindFirstAppend(s[1..], extra, p);
    }
  }

  /** When the prefix has no match, `find` over the concatenation is `find` over the rest. */
  lemma {:induction false} FindFirstSkipsMiss<T>(s: seq<T>, extra: seq<T>, p: T -> bool)
    requires FindFirst(s, p).None?
    ensures FindFirst(s + extra, p) == FindFirst(extra, p)
  {
    if s == [] {
      assert s + extra == extra;
    } else {
      assert (s + extra)[1..] == s[1..] + extra;
      FindFirstSkipsMiss(s[1..], extra, p);
    }
  }

  /** When at most one element satisfies `p`, `find` does not depend on the order of the sequence. */
  lemma FindFirstPermutation<T>(s: seq<T>, t: seq<T>, p: T -> bool)
    requires multiset(s) == multiset(t)
    requires forall i, j :: 0 <= i < j < |s| && p(s[i]) ==> !p(s[j])
    ensures FindFirst(s, p) == FindFirst(t, p)
  {
    var rs, rt := FindFirst(s, p), FindFirst(t, p);
    if rs.Some? {
      assert rs.value in multiset(t);
    }
    if rt.Some? {
      assert rt.value in multiset(s);
    }
    if rs.Some? && rt.Some? {
      var i :| 0 <= i < |s| && s[i] == rs.value;
      var j :| 0 <= j < |s| && s[j] == rt.value;
      if i < j {
        assert !p(s[j]);
      } else if j < i {
        assert !p(s[i]);
      }
    }
  }

  /** `s` is ordered by ascending `key`. */
  predicate SortedBy<T>(s: seq<T>, key: T -> int) {
    forall i, j :: 0 <= i < j < |s| ==> key(s[i]) <= key(s[j])
  }

  /** `s` holds no two elements with the same projection `f`. */
  predicate InjectiveOn<T, U(==)>(s: seq<T>, f: T -> U) {
    forall i, j :: 0 <= i < j < |s| ==> f(s[i]) != f(s[j])
  }

  function Insert<T>(x: T, s: seq<T>, key: T -> int): (r: seq<T>)
    ensures multiset(r) == multiset(s) + multiset{x}
    ensures |r| == |s| + 1
  {
    if s == [] then [x]
    else if key(x) <= key(s[0]) then [x] + s
    else
      assert s == [s[0]] + s[1..];
      [s[0]] + Insert(x, s[1..], key)
  }

  lemma ConsSorted<T>(a: T, t: seq<T>, key: T -> int)
    requires SortedBy(t, key)
    requires forall i :: 0 <= i < |t| ==> key(a) <= key(t[i])
    ensures SortedBy([a] + t, key)
  {
    var r := [a] + t;
    forall i, j | 0 <= i < j < |r| ensures key(r[i]) <= key(r[j]) {
      assert r[j] == t[j - 1];
      if i > 0 {
        assert r[i] == t[i - 1];
      }
    }
  }

  lemma {:induction false} InsertSorted<T>(x: T, s: seq<T>, key: T -> int)
    requires SortedBy(s, key)
    ensures SortedBy(Insert(x, s, key), key)
  {
    if s != [] && key(x) > key(s[0]) {
      var tail := s[1..];
      assert SortedBy(tail, key) by {
        forall i, j | 0 <= i < j < |tail| ensures key(tail[i]) <= key(tail[j]) {
          assert tail[i] == s[i + 1] && tail[j] == s[j + 1];
        }
      }
      InsertSorted(x, tail, key);
      var t := Insert(x, tail, key);
      forall i | 0 <= i < |t| ensures key(s[0]) <= key(t[i]) {
        assert t[i] in multiset(t);
        if t[i] != x {
          assert t[i] in multiset(tail);
          var k :| 0 <= k < |tail| && tail[k] == t[i];
          assert s[k + 1] == t[i];
        }
      }
      ConsSorted(s[0], t, key);
    } else if s != [] {
      assert forall i :: 0 <= i < |s| ==> key(x) <= key(s[i]) by {
        forall i | 0 < i < |s| ensures key(s[0]) <= key(s[i]) {}
      }
      ConsSorted(x, s, key);
    }
  }

  /** Sorts `s` by ascending `key`, keeping elements with equal keys in their input order. */
  function SortBy<T>(s: seq<T>, key: T -> int): (r: seq<T>)
    ensures SortedBy(r, key)
    ensures multiset(r) == multiset(s)
    ensures |r| == |s|
  {
    if s == [] then []
    else
      assert s == [s[0]] + s[1..];
      var sorted := SortBy(s[1..], key);
      InsertSorted(s[0], sorted, key);
      Insert(s[0], sorted, key)
  }

  /** The elements of `s` whose key is `k`, in order. */
  function WithKey<T>(s: seq<T>, key: T -> int, k: int): seq<T>
    decreases |s|
  {
    if s == [] then [] else (if key(s[0]) == k then [s[0]] else []) + WithKey(s[1..], key, k)
  }

  lemma WithKeyCons<T>(a: T, t: seq<T>, key: T -> int, k: int)
    ensures WithKey([a] + t, key, k) == (if key(a) == k then [a] else []) + WithKey(t, key, k)
  {
    assert ([a] + t)[0] == a && ([a] + t)[1..] == t;
  }

  /** Inserting past a smaller head: the head keeps its place before the inserted element. */
  lemma InsertPastHead<T>(x: T, s: seq<T>, key: T -> int, k: int)
    requires s != [] && key(x) > key(s[0])
    requires WithKey(Insert(x, s[1..], key), key, k) == (if key(x) == k then [x] else []) + WithKey(s[1..], key, k)
    ensures WithKey(Insert(x, s, key), key, k) == (if key(x) == k then [x] else []) + WithKey(s, key, k)
  {
    var t := Insert(x, s[1..], key);
    assert Insert(x, s, key) == [s[0]] + t;
    WithKeyCons(s[0], t, key, k);
    if key(s[0]) == k {
      assert key(x) != k;
    }
  }

  /** `Insert` puts the new element before every element with the same key. */
  lemma {:induction false} InsertBeforeEqual<T>(x: T, s: seq<T>, key: T -> int, k: int)
    ensures WithKey(Insert(x, s, key), key, k) == (if key(x) == k then [x] else []) + WithKey(s, key, k)
    decreases |s|
  {
    if s == [] {
      WithKeyCons(x, [], key, k);
    } else if key(x) <= key(s[0]) {
      WithKeyCons(x, s, key, k);
    } else {
      InsertBeforeEqual(x, s[1..], key, k);
      InsertPastHead(x, s, key, k);
    }
  }

  /** The sort is stable: for every key, the elements with that key keep their input order. */
  lemma {:induction false} SortStable<T>(s: seq<T>, key: T -> int, k: int)
    ensures WithKey(SortBy(s, key), key, k) == WithKey(s, key, k)
    decreases |s|
  {
    if s != [] {
      SortStable(s[1..], key, k);
      InsertBeforeEqual(s[0], SortBy(s[1..], key), key, k);
    }
  }

  /** `s` without its element at index `k`. */
  function RemoveAt<T>(s: seq<T>, k: nat): (r: seq<T>)
    requires k < |s|
    ensures multiset(r) == multiset(s) - multiset{s[k]}
    ensures |r| == |s| - 1
    ensures forall i :: 0 <= i < |r| ==> r[i] == s[if i < k then i else i + 1]
  {
    var r := s[..k] + s[k + 1..];
    assert s == s[..k] + [s[k]] + s[k + 1..];
    assert forall i :: 0 <= i < |r| ==> r[i] == s[if i < k then i else i + 1];
    r
  }

  lemma InjectiveRemoveAt<T, U>(s: seq<T>, k: nat, f: T -> U)
    requires k < |s| && InjectiveOn(s, f)
    ensures InjectiveOn(RemoveAt(s, k), f)
  {
    var r := RemoveAt(s, k);
    forall i, j | 0 <= i < j < |r| ensures f(r[i]) != f(r[j]) {
      assert r[i] == s[if i < k then i else i + 1];
      assert r[j] == s[if j < k then j else j + 1];
    }
  }

  lemma MemberOfRemoveAt<T, U>(s: seq<T>, k: nat, x: T, f: T -> U)
    requires k < |s| && InjectiveOn(s, f)
    requires x in multiset(RemoveAt(s, k))
    ensures f(x) != f(s[k])
  {
    var r := RemoveAt(s, k);
    var m :| 0 <= m < |r| && r[m] == x;
    assert r[m] == s[if m < k then m else m + 1];
  }

  lemma InjectiveTail<T, U>(s: seq<T>, f: T -> U)
    requires s != [] && InjectiveOn(s, f)
    ensures InjectiveOn(s[1..], f)
    ensures forall i :: 0 <= i < |s[1..]| ==> f(s[1..][i]) != f(s[0])
  {
    forall i, j | 0 <= i < j < |s[1..]| ensures f(s[1..][i]) != f(s[1..][j]) {
      assert s[1..][i] == s[i + 1] && s[1..][j] == s[j + 1];
    }
    forall i | 0 <= i < |s[1..]| ensures f(s[1..][i]) != f(s[0]) {
      assert s[1..][i] == s[i + 1];
    }
  }

  lemma InjectiveCons<T, U>(x: T, s: seq<T>, f: T -> U)
    requires InjectiveOn(s, f)
    requires forall i :: 0 <= i < |s| ==> f(s[i]) != f(x)
    ensures InjectiveOn([x] + s, f)
  {
    var r := [x] + s;
    forall i, j | 0 <= i < j < |r| ensures f(r[i]) != f(r[j]) {
      assert r[j] == s[j - 1];
      if i > 0 {
        assert r[i] == s[i - 1];
      }
    }
  }

  /** A property every element of `s` has, every element of a permutation of `s` has too. */
  lemma PermutationKeepsAll<T>(s: seq<T>, t: seq<T>, p: T -> bool)
    requires multiset(s) == multiset(t)
    requires forall i :: 0 <= i < |s| ==> p(s[i])
    ensures forall x :: x in t ==> p(x)
  {
    forall x | x in t ensures p(x) {
      assert x in multiset(s);
      var i :| 0 <= i < |s| && s[i] == x;
    }
  }

  lemma {:induction false} PermutationKeepsInjective<T, U>(s: seq<T>, t: seq<T>, f: T -> U)
    requires multiset(s) == multiset(t)
    requires InjectiveOn(s, f)
    ensures InjectiveOn(t, f)
  {
    if t != [] {
      var k :| 0 <= k < |s| && s[k] == t[0] by {
        assert t[0] in multiset(s);
      }
      var s' := RemoveAt(s, k);
      var t' := t[1..];
      assert multiset(t') == multiset(s') by {
        assert t == [t[0]] + t';
      }
      assert InjectiveOn(t', f) by {
        InjectiveRemoveAt(s, k, f);
        PermutationKeepsInjective(s', t', f);
      }
      assert forall j :: 0 <= j < |t'| ==> f(t'[j]) != f(t[0]) by {
        forall j | 0 <= j < |t'| ensures f(t'[j]) != f(t[0]) {
          assert t'[j] in multiset(t');
          MemberOfRemoveAt(s, k, t'[j], f);
        }
      }
      InjectiveCons(t[0], t', f);
      assert t == [t[0]] + t';
    }
  }

}
