/** The array helpers the pages use: `slice(0, n)` and `filter`. */
module Seqs {

  function Min(a: int, b: int): int {
    if a <= b then a else b
  }

  /** `s.slice(0, n)` for `n >= 0`: the first `n` elements, or all of them when there are fewer. */
  function Take<T>(s: seq<T>, n: nat): (r: seq<T>)
    ensures |r| == Min(n, |s|)
    ensures forall i :: 0 <= i < |r| ==> r[i] == s[i]
    ensures forall x :: x in r ==> x in s
  {
    s[..Min(n, |s|)]
  }

  /** What `slice(0, n)` leaves behind: `s` is the slice followed by the rest, as a sequence
      and as a multiset. */
  lemma TakeRest<T>(s: seq<T>, n: nat)
    ensures Take(s, n) == s[..|Take(s, n)|]
    ensures s == Take(s, n) + s[|Take(s, n)|..]
    ensures multiset(s) == multiset(Take(s, n)) + multiset(s[|Take(s, n)|..])
  {
    var m := |Take(s, n)|;
    assert s == s[..m] + s[m..];
  }

  /** `s.filter(p)`: the elements that satisfy `p`, in their original order. */
  function Filter<T(!new)>(s: seq<T>, p: T -> bool): (r: seq<T>)
    ensures |r| <= |s|
    ensures forall x :: x in r <==> x in s && p(x)
    decreases |s|
  {
    if s == [] then []
    else
      var rest := Filter(s[1..], p);
      assert s == [s[0]] + s[1..];
      if p(s[0]) then [s[0]] + rest else rest
  }

  /** Filtering distributes over concatenation, which is what keeping the original order means. */
  lemma {:induction false} FilterAppend<T(!new)>(a: seq<T>, b: seq<T>, p: T -> bool)
    ensures Filter(a + b, p) == Filter(a, p) + Filter(b, p)
    decreases |a|
  {
    if a != [] {
      var head := if p(a[0]) then [a[0]] else [];
      assert (a + b)[0] == a[0];
      assert (a + b)[1..] == a[1..] + b;
      assert Filter(a + b, p) == head + Filter(a[1..] + b, p);
      assert Filter(a, p) == head + Filter(a[1..], p);
      FilterAppend(a[1..], b, p);
      assert head + (Filter(a[1..], p) + Filter(b, p)) == (head + Filter(a[1..], p)) + Filter(b, p);
    } else {
      assert a + b == b;
    }
  }
}
