/** The stable sort by a key, and what makes it the only one. */
module StableSort {
  function Insert<T>(s: seq<T>, x: T, key: T -> int): seq<T> {
    if s == [] then [x]
    else
      var n := |s| - 1;
      if key(s[n]) <= key(x) then s + [x] else Insert(s[..n], x, key) + [s[n]]
  }

  function SortBy<T>(s: seq<T>, key: T -> int): seq<T> {
    if s == [] then [] else Insert(SortBy(s[..|s| - 1], key), s[|s| - 1], key)
  }

  ghost predicate Ascending<T>(s: seq<T>, key: T -> int) {
    forall i, j :: 0 <= i < j < |s| ==> key(s[i]) <= key(s[j])
  }

  /** The elements of one key, in order. */
  function WithKey<T>(s: seq<T>, key: T -> int, k: int): seq<T> {
    if s == [] then []
    else
      var n := |s| - 1;
      WithKey(s[..n], key, k) + if key(s[n]) == k then [s[n]] else []
  }

  lemma WithKeySnoc<T>(s: seq<T>, x: T, key: T -> int, k: int)
    ensures WithKey(s + [x], key, k) == WithKey(s, key, k) + if key(x) == k then [x] else []
  {
    assert (s + [x])[..|s|] == s;
  }

  lemma {:induction false} InsertSame<T>(s: seq<T>, x: T, key: T -> int)
    ensures multiset(Insert(s, x, key)) == multiset(s) + multiset{x}
  {
    if s != [] {
      var n := |s| - 1;
      InsertSame(s[..n], x, key);
      assert s == s[..n] + [s[n]];
    }
  }

  lemma {:induction false} SortSame<T>(s: seq<T>, key: T -> int)
    ensures multiset(SortBy(s, key)) == multiset(s)
  {
    hide Insert;
    if s != [] {
      var n := |s| - 1;
      SortSame(s[..n], key);
      InsertSame(SortBy(s[..n], key), s[n], key);
      assert s == s[..n] + [s[n]];
    }
  }

  lemma {:induction false} InsertAscending<T>(s: seq<T>, x: T, key: T -> int)
    requires Ascending(s, key)
    ensures Ascending(Insert(s, x, key), key)
    ensures Insert(s, x, key) != []
    ensures var t := Insert(s, x, key); key(t[|t| - 1]) == key(x) || (s != [] && key(t[|t| - 1]) == key(s[|s| - 1]))
  {
    if s != [] {
      var n := |s| - 1;
      if key(s[n]) > key(x) {
        InsertAscending(s[..n], x, key);
      }
    }
  }

  lemma {:induction false} SortAscending<T>(s: seq<T>, key: T -> int)
    ensures Ascending(SortBy(s, key), key)
  {
    if s != [] {
      SortAscending(s[..|s| - 1], key);
      InsertAscending(SortBy(s[..|s| - 1], key), s[|s| - 1], key);
    }
  }

  lemma {:induction false} InsertKeeps<T>(s: seq<T>, x: T, key: T -> int, k: int)
    requires Ascending(s, key)
    ensures WithKey(Insert(s, x, key), key, k) == WithKey(s, key, k) + if key(x) == k then [x] else []
  {
    if s == [] {
      WithKeySnoc(s, x, key, k);
      assert s + [x] == [x];
    } else {
      var n := |s| - 1;
      if key(s[n]) <= key(x) {
        WithKeySnoc(s, x, key, k);
      } else {
        InsertKeeps(s[..n], x, key, k);
        WithKeySnoc(Insert(s[..n], x, key), s[n], key, k);
      }
    }
  }

  /** Equal keys keep their order. */
  lemma {:induction false} SortStable<T>(s: seq<T>, key: T -> int, k: int)
    ensures WithKey(SortBy(s, key), key, k) == WithKey(s, key, k)
  {
    hide Insert;
    if s != [] {
      var n := |s| - 1;
      SortStable(s[..n], key, k);
      SortAscending(s[..n], key);
      InsertKeeps(SortBy(s[..n], key), s[n], key, k);
      WithKeySnoc(s[..n], s[n], key, k);
    }
  }

  lemma {:induction false} InKey<T>(s: seq<T>, key: T -> int, i: nat)
    requires i < |s|
    ensures WithKey(s, key, key(s[i])) != []
  {
    if i < |s| - 1 { InKey(s[..|s| - 1], key, i); }
  }

  lemma {:induction false} FromKey<T>(s: seq<T>, key: T -> int, k: int)
    requires WithKey(s, key, k) != []
    ensures exists i :: 0 <= i < |s| && key(s[i]) == k
  {
    var n := |s| - 1;
    if key(s[n]) != k {
      FromKey(s[..n], key, k);
      var i :| 0 <= i < n && key(s[..n][i]) == k;
      assert key(s[i]) == k;
    }
  }

  lemma LastBound<T>(s: seq<T>, t: seq<T>, key: T -> int)
    requires Ascending(t, key) && s != [] && WithKey(t, key, key(s[|s| - 1])) == WithKey(s, key, key(s[|s| - 1]))
    ensures t != [] && key(s[|s| - 1]) <= key(t[|t| - 1])
  {
    InKey(s, key, |s| - 1);
    FromKey(t, key, key(s[|s| - 1]));
  }

  /** There is only one stable ascending arrangement. */
  lemma {:induction false} StableUnique<T>(s: seq<T>, t: seq<T>, key: T -> int)
    requires Ascending(s, key) && Ascending(t, key)
    requires forall k :: WithKey(s, key, k) == WithKey(t, key, k)
    ensures s == t
    decreases |s|
  {
    if s == [] {
      if t != [] {
        LastBound(t, s, key);
      }
    } else {
      LastBound(s, t, key);
      LastBound(t, s, key);
      var n, m := |s| - 1, |t| - 1;
      assert s == s[..n] + [s[n]] && t == t[..m] + [t[m]];
      hide WithKey;
      forall j
        ensures WithKey(s[..n], key, j) == WithKey(t[..m], key, j) && (j == key(s[n]) ==> s[n] == t[m])
      {
        DropLast(s[..n], s[n], t[..m], t[m], key, j);
      }
      assert s[n] == t[m];
      PrefixAscending(s, n, key);
      PrefixAscending(t, m, key);
      StableUnique(s[..n], t[..m], key);
    }
  }

  lemma PrefixAscending<T>(s: seq<T>, n: nat, key: T -> int)
    requires n <= |s| && Ascending(s, key)
    ensures Ascending(s[..n], key)
  {
  }

  lemma DropLast<T>(a: seq<T>, x: T, b: seq<T>, y: T, key: T -> int, j: int)
    requires key(x) == key(y) && WithKey(a + [x], key, j) == WithKey(b + [y], key, j)
    ensures WithKey(a, key, j) == WithKey(b, key, j) && (j == key(x) ==> x == y)
  {
    WithKeySnoc(a, x, key, j);
    WithKeySnoc(b, y, key, j);
    if j == key(x) {
      LastEqual(WithKey(a, key, j), x, WithKey(b, key, j), y);
    } else {
      assert WithKey(a, key, j) + [] == WithKey(a, key, j) && WithKey(b, key, j) + [] == WithKey(b, key, j);
    }
  }

  lemma LastEqual<T>(a: seq<T>, x: T, b: seq<T>, y: T)
    requires a + [x] == b + [y]
    ensures a == b && x == y
  {
    assert (a + [x])[..|a|] == a && (b + [y])[..|b|] == b;
    assert (a + [x])[|a|] == x && (b + [y])[|b|] == y;
  }
}
