/** `copy.sort((a, b) => key(b) - key(a))`: the stable sort the pages run on a fresh copy.
    Array.prototype.sort is stable, so its result is fixed by the comparator: largest key
    first, and elements with equal keys in their original order. */
module Ordering {

  /** Largest key first. */
  predicate SortedDesc<T>(s: seq<T>, key: T -> int) {
    forall i, j :: 0 <= i < j < |s| ==> key(s[j]) <= key(s[i])
  }

  /** Puts `x` before the first element whose key is not larger than its own, so that `x`
      stays ahead of the elements with the same key. */
  function Insert<T>(x: T, s: seq<T>, key: T -> int): (r: seq<T>)
    requires SortedDesc(s, key)
    ensures |r| == |s| + 1
    ensures multiset(r) == multiset(s) + multiset{x}
    ensures SortedDesc(r, key)
    decreases |s|
  {
    if s == [] || key(s[0]) <= key(x) then
      SortedCons(x, s, key);
      [x] + s
    else
      SortedTail(s, key);
      var rest := Insert(x, s[1..], key);
      InsertBelowHead(x, s, key, rest);
      [s[0]] + rest
  }

  lemma SortedTail<T>(s: seq<T>, key: T -> int)
    requires s != [] && SortedDesc(s, key)
    ensures SortedDesc(s[1..], key)
  {
    forall i, j | 0 <= i < j < |s| - 1 ensures key(s[1..][j]) <= key(s[1..][i]) {
      assert s[1..][i] == s[i + 1] && s[1..][j] == s[j + 1];
    }
  }

  /** Putting `x` in front of a sorted sequence whose largest key is not above its own. */
  lemma SortedCons<T>(x: T, s: seq<T>, key: T -> int)
    requires SortedDesc(s, key) && (s == [] || key(s[0]) <= key(x))
    ensures SortedDesc([x] + s, key)
  {
    forall i, j | 0 <= i < j < |s| + 1 ensures key(([x] + s)[j]) <= key(([x] + s)[i]) {
      if i == 0 {
        assert key(s[j - 1]) <= key(s[0]);
      } else {
        assert ([x] + s)[i] == s[i - 1] && ([x] + s)[j] == s[j - 1];
      }
    }
  }

  /** `x` went into the tail, so the head stays ahead of every element. */
  lemma InsertBelowHead<T>(x: T, s: seq<T>, key: T -> int, rest: seq<T>)
    requires s != [] && key(x) < key(s[0]) && SortedDesc(s, key) && SortedDesc(rest, key)
    requires multiset(rest) == multiset(s[1..]) + multiset{x}
    ensures multiset([s[0]] + rest) == multiset(s) + multiset{x}
    ensures SortedDesc([s[0]] + rest, key)
  {
    assert s == [s[0]] + s[1..];
    if rest != [] {
      assert rest[0] in multiset(rest);
      if rest[0] != x {
        assert rest[0] in s[1..];
        var k :| 0 <= k < |s| - 1 && s[1..][k] == rest[0];
        assert s[k + 1] == rest[0];
      }
    }
    SortedCons(s[0], rest, key);
  }

  /** The sorted copy: a permutation of `s` with the largest key first. */
  function SortDesc<T>(s: seq<T>, key: T -> int): (r: seq<T>)
    ensures |r| == |s|
    ensures multiset(r) == multiset(s)
    ensures SortedDesc(r, key)
    decreases |s|
  {
    if s == [] then []
    else
      assert s == [s[0]] + s[1..];
      Insert(s[0], SortDesc(s[1..], key), key)
  }

  /** The elements of `s` whose key is `k`, in their order in `s`. */
  function WithKey<T>(s: seq<T>, key: T -> int, k: int): seq<T>
    decreases |s|
  {
    if s == [] then []
    else (if key(s[0]) == k then [s[0]] else []) + WithKey(s[1..], key, k)
  }

  lemma {:induction false} WithKeyAppend<T>(a: seq<T>, b: seq<T>, key: T -> int, k: int)
    ensures WithKey(a + b, key, k) == WithKey(a, key, k) + WithKey(b, key, k)
    decreases |a|
  {
    if a == [] {
      assert a + b == b;
    } else {
      var head := if key(a[0]) == k then [a[0]] else [];
      assert (a + b)[0] == a[0];
      assert (a + b)[1..] == a[1..] + b;
      assert WithKey(a + b, key, k) == head + WithKey(a[1..] + b, key, k);
      WithKeyAppend(a[1..], b, key, k);
      assert head + (WithKey(a[1..], key, k) + WithKey(b, key, k))
          == (head + WithKey(a[1..], key, k)) + WithKey(b, key, k);
    }
  }

  /** The part of `WithKey` one element contributes. */
  function KeyPart<T>(x: T, key: T -> int, k: int): seq<T> {
    if key(x) == k then [x] else []
  }

  lemma WithKeyCons<T>(x: T, s: seq<T>, key: T -> int, k: int)
    ensures WithKey([x] + s, key, k) == KeyPart(x, key, k) + WithKey(s, key, k)
  {
    assert ([x] + s)[1..] == s;
  }

  lemma {:induction false} InsertStable<T>(x: T, s: seq<T>, key: T -> int, k: int)
    requires SortedDesc(s, key)
    ensures WithKey(Insert(x, s, key), key, k) == WithKey([x] + s, key, k)
    decreases |s|
  {
    if s != [] && key(x) < key(s[0]) {
      SortedTail(s, key);
      var rest := Insert(x, s[1..], key);
      var hs, hx := KeyPart(s[0], key, k), KeyPart(x, key, k);
      // `s[0]` has a larger key than `x`, so at most one of them has the key `k`.
      assert hs + hx == hx + hs;
      assert s == [s[0]] + s[1..];
      calc {
        WithKey(Insert(x, s, key), key, k);
        WithKey([s[0]] + rest, key, k);
        { WithKeyCons(s[0], rest, key, k); }
        hs + WithKey(rest, key, k);
        { InsertStable(x, s[1..], key, k); }
        hs + WithKey([x] + s[1..], key, k);
        { WithKeyCons(x, s[1..], key, k); }
        hs + (hx + WithKey(s[1..], key, k));
        hx + (hs + WithKey(s[1..], key, k));
        { WithKeyCons(s[0], s[1..], key, k); }
        hx + WithKey(s, key, k);
        { WithKeyCons(x, s, key, k); }
        WithKey([x] + s, key, k);
      }
    }
  }

  /** Stability: among the elements with any one key, the sort keeps the original order. */
  lemma {:induction false} SortStable<T>(s: seq<T>, key: T -> int, k: int)
    ensures WithKey(SortDesc(s, key), key, k) == WithKey(s, key, k)
    decreases |s|
  {
    if s != [] {
      var t := SortDesc(s[1..], key);
      InsertStable(s[0], t, key, k);
      SortStable(s[1..], key, k);
      assert ([s[0]] + t)[1..] == t;
    }
  }

  lemma SortedPrefix<T>(s: seq<T>, key: T -> int, n: nat)
    requires SortedDesc(s, key) && n <= |s|
    ensures SortedDesc(s[..n], key)
  {
    forall i, j | 0 <= i < j < n ensures key(s[..n][j]) <= key(s[..n][i]) {
      assert s[..n][i] == s[i] && s[..n][j] == s[j];
    }
  }

  /** A prefix of a sorted sequence holds its largest keys: nothing after it is larger than
      anything in it. */
  lemma PrefixHoldsLargest<T>(s: seq<T>, key: T -> int, n: nat, x: T, y: T)
    requires SortedDesc(s, key) && n <= |s|
    requires x in s[..n] && y in s[n..]
    ensures key(y) <= key(x)
  {
    var i :| 0 <= i < n && s[..n][i] == x;
    var j :| 0 <= j < |s| - n && s[n..][j] == y;
    assert s[i] == x && s[n + j] == y;
  }
}
