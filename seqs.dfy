/** Generic sequence operations standing for SQL WHERE / ORDER BY / LIMIT and for
    `Array.prototype.filter` and `findIndex`.  Predicates are passed as a named
    two-argument function together with its argument, so that the same predicate
    value can be named again in lemmas. */
module Seqs {
  import opened Wrappers

  /** The elements of `s` that satisfy `keep(_, arg)`, in their original order. */
  function Filter<T(!new), A>(s: seq<T>, keep: (T, A) -> bool, arg: A): (r: seq<T>)
    ensures |r| <= |s|
    ensures forall x :: x in r <==> x in s && keep(x, arg)
    ensures forall x :: multiset(r)[x] == if keep(x, arg) then multiset(s)[x] else 0
    decreases |s|
  {
    if |s| == 0 then []
    else
      assert s == [s[0]] + s[1..];
      var rest := Filter(s[1..], keep, arg);
      if keep(s[0], arg) then [s[0]] + rest else rest
  }

  /** `r` is obtained from `s` by deleting elements (relative order kept). */
  predicate IsSubsequence<T(==)>(r: seq<T>, s: seq<T>)
    decreases |s|
  {
    if |r| == 0 then true
    else if |s| == 0 then false
    else if r[0] == s[0] then IsSubsequence(r[1..], s[1..])
    else IsSubsequence(r, s[1..])
  }

  lemma {:induction false} FilterIsSubsequence<T(!new), A>(s: seq<T>, keep: (T, A) -> bool, arg: A)
    ensures IsSubsequence(Filter(s, keep, arg), s)
    decreases |s|
  {
    if |s| > 0 {
      FilterIsSubsequence(s[1..], keep, arg);
      var rest := Filter(s[1..], keep, arg);
      if !keep(s[0], arg) && |rest| > 0 {
        SkipHead(rest, s);
      }
    }
  }

  /** Dropping the head of `s` keeps every subsequence of `s[1..]` a subsequence of `s`. */
  lemma {:induction false} SkipHead<T>(r: seq<T>, s: seq<T>)
    requires |s| > 0 && IsSubsequence(r, s[1..])
    ensures IsSubsequence(r, s)
    decreases |s| + |r|
  {
    if |r| > 0 && r[0] == s[0] {
      DropFirst(r, s[1..]);
    }
  }

  /** Dropping the head of `r` keeps it a subsequence. */
  lemma {:induction false} DropFirst<T>(r: seq<T>, t: seq<T>)
    requires |r| > 0 && IsSubsequence(r, t)
    ensures IsSubsequence(r[1..], t)
    decreases |t| + |r|
  {
    if r[0] == t[0] {
      if |r[1..]| > 0 {
        SkipHead(r[1..], t);
      }
    } else {
      DropFirst(r, t[1..]);
      if |r[1..]| > 0 {
        SkipHead(r[1..], t);
      }
    }
  }

  /** A predicate that holds of every element leaves the sequence as it is. */
  lemma {:induction false} FilterKeepsAll<T(!new), A>(s: seq<T>, keep: (T, A) -> bool, arg: A)
    requires forall i :: 0 <= i < |s| ==> keep(s[i], arg)
    ensures Filter(s, keep, arg) == s
    decreases |s|
  {
    if |s| > 0 {
      FilterKeepsAll(s[1..], keep, arg);
    }
  }

  /** Two sequences that agree on every element the predicate can see filter alike. */
  lemma {:induction false} FilterAgrees<T(!new), A>(s: seq<T>, t: seq<T>, keep: (T, A) -> bool, arg: A)
    requires |s| == |t|
    requires forall i :: 0 <= i < |s| ==> keep(s[i], arg) == keep(t[i], arg)
    requires forall i :: 0 <= i < |s| && keep(s[i], arg) ==> s[i] == t[i]
    ensures Filter(s, keep, arg) == Filter(t, keep, arg)
    decreases |s|
  {
    if |s| > 0 {
      FilterAgrees(s[1..], t[1..], keep, arg);
    }
  }

  /** Filtering distributes over concatenation. */
  lemma {:induction false} FilterAppend<T(!new), A>(s: seq<T>, t: seq<T>, keep: (T, A) -> bool, arg: A)
    ensures Filter(s + t, keep, arg) == Filter(s, keep, arg) + Filter(t, keep, arg)
    decreases |s|
  {
    if |s| == 0 {
      assert s + t == t;
    } else {
      assert (s + t)[1..] == s[1..] + t;
      FilterAppend(s[1..], t, keep, arg);
    }
  }

  /** Index of the first element satisfying `p(_, arg)` (`findIndex`, or the first row of a SELECT). */
  function Find<T, A>(s: seq<T>, p: (T, A) -> bool, arg: A): (r: Option<nat>)
    ensures r.None? <==> forall i :: 0 <= i < |s| ==> !p(s[i], arg)
    ensures r.Some? ==> r.value < |s| && p(s[r.value], arg)
    ensures r.Some? ==> forall i :: 0 <= i < r.value ==> !p(s[i], arg)
    decreases |s|
  {
    if |s| == 0 then None
    else if p(s[0], arg) then Some(0)
    else
      match Find(s[1..], p, arg)
      case None => None
      case Some(k) => Some(k + 1)
  }

  /** The first element satisfying `p(_, arg)`: `const [row] = await db.select()...where(...)`. */
  function First<T, A>(s: seq<T>, p: (T, A) -> bool, arg: A): (r: Option<T>)
    ensures r.None? <==> forall i :: 0 <= i < |s| ==> !p(s[i], arg)
    ensures r.Some? ==> exists i :: 0 <= i < |s| && s[i] == r.value && p(s[i], arg)
  {
    match Find(s, p, arg)
    case None => None
    case Some(i) => Some(s[i])
  }

  ghost predicate SortedBy<T>(s: seq<T>, key: T -> int)
  {
    forall i, j :: 0 <= i < j < |s| ==> key(s[i]) <= key(s[j])
  }

  /** Inserts `x` before the first element whose key is not smaller. */
  function InsertSorted<T>(x: T, s: seq<T>, key: T -> int): (r: seq<T>)
    requires SortedBy(s, key)
    ensures |r| == |s| + 1
    ensures multiset(r) == multiset(s) + multiset{x}
    ensures SortedBy(r, key)
    ensures r[0] == x || (|s| > 0 && r[0] == s[0])
    decreases |s|
  {
    if |s| == 0 then [x]
    else if key(x) <= key(s[0]) then [x] + s
    else
      assert s == [s[0]] + s[1..];
      var rest := InsertSorted(x, s[1..], key);
      assert forall j :: 0 <= j < |rest| ==> key(s[0]) <= key(rest[j]) by {
        forall j | 0 <= j < |rest| ensures key(s[0]) <= key(rest[j]) {
          assert key(s[0]) <= key(rest[0]);
          assert key(rest[0]) <= key(rest[j]) || j == 0;
        }
      }
      [s[0]] + rest
  }

  /** An ordering by `key`, ascending: ORDER BY key (a descending order uses a negated key). */
  function SortBy<T>(s: seq<T>, key: T -> int): (r: seq<T>)
    ensures |r| == |s|
    ensures multiset(r) == multiset(s)
    ensures SortedBy(r, key)
    decreases |s|
  {
    if |s| == 0 then []
    else
      assert s == [s[0]] + s[1..];
      InsertSorted(s[0], SortBy(s[1..], key), key)
  }

  /** Sorting keeps exactly the elements it was given. */
  lemma SortByMembers<T>(s: seq<T>, key: T -> int)
    ensures forall x :: x in SortBy(s, key) <==> x in s
  {
    var r := SortBy(s, key);
    forall x ensures x in r <==> x in s {
      assert x in r <==> x in multiset(r);
      assert x in s <==> x in multiset(s);
    }
  }

  /** In a sorted sequence, an element with a copy beyond the first `k` positions has a key
      no smaller than any of those `k`. */
  lemma SortedPrefixBefore<T>(h: seq<T>, key: T -> int, k: nat, x: T)
    requires SortedBy(h, key) && k <= |h|
    requires multiset(h[..k])[x] < multiset(h)[x]
    ensures forall i :: 0 <= i < k ==> key(h[i]) <= key(x)
  {
    assert h == h[..k] + h[k..];
    assert multiset(h) == multiset(h[..k]) + multiset(h[k..]);
    assert x in multiset(h[k..]);
    var m :| k <= m < |h| && h[m] == x by {
      assert x in h[k..];
      var m' :| 0 <= m' < |h[k..]| && h[k..][m'] == x;
      assert h[k + m'] == x;
    }
  }

  /** Serial keys: every key is below the next one to be handed out, and no two rows share one. */
  ghost predicate Serial<T>(s: seq<T>, key: T -> int, next: int)
  {
    (forall i :: 0 <= i < |s| ==> key(s[i]) < next)
    && (forall i, j :: 0 <= i < j < |s| ==> key(s[i]) != key(s[j]))
  }

  /** Appending a row keyed with the next serial value keeps the keys serial. */
  lemma SerialAppend<T>(s: seq<T>, key: T -> int, next: int, x: T)
    requires Serial(s, key, next) && key(x) == next
    ensures Serial(s + [x], key, next + 1)
  {
  }

  /** A row-by-row rewrite that keeps every key keeps the keys serial. */
  lemma SerialSameKeys<T>(s: seq<T>, t: seq<T>, key: T -> int, next: int)
    requires Serial(s, key, next)
    requires |t| == |s| && forall i :: 0 <= i < |s| ==> key(t[i]) == key(s[i])
    ensures Serial(t, key, next)
  {
  }

  /** Deleting rows keeps the keys serial. */
  lemma {:induction false} SerialFilter<T(!new), A>(s: seq<T>, keep: (T, A) -> bool, arg: A, key: T -> int, next: int)
    requires Serial(s, key, next)
    ensures Serial(Filter(s, keep, arg), key, next)
    decreases |s|
  {
    if |s| > 0 {
      SerialFilter(s[1..], keep, arg, key, next);
      var rest := Filter(s[1..], keep, arg);
      assert forall j :: 0 <= j < |rest| ==> key(rest[j]) != key(s[0]) && key(rest[j]) < next by {
        forall j | 0 <= j < |rest| ensures key(rest[j]) != key(s[0]) && key(rest[j]) < next {
          assert rest[j] in s[1..];
          var k :| 0 <= k < |s[1..]| && s[1..][k] == rest[j];
          assert s[k + 1] == rest[j];
        }
      }
      if keep(s[0], arg) {
        assert Filter(s, keep, arg) == [s[0]] + rest;
        SerialCons(s[0], rest, key, next);
      } else {
        assert Filter(s, keep, arg) == rest;
      }
    }
  }

  lemma SerialCons<T>(x: T, s: seq<T>, key: T -> int, next: int)
    requires Serial(s, key, next) && key(x) < next
    requires forall j :: 0 <= j < |s| ==> key(s[j]) != key(x)
    ensures Serial([x] + s, key, next)
  {
    var t := [x] + s;
    assert forall j :: 1 <= j < |t| ==> t[j] == s[j - 1];
  }

  /** The first `n` elements, or all of them when there are fewer: LIMIT n. */
  function Take<T>(s: seq<T>, n: nat): (r: seq<T>)
    ensures |r| == if n < |s| then n else |s|
    ensures r == s[..|r|]
  {
    if n < |s| then s[..n] else s
  }
}
