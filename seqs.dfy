/** Sequence helpers shared by the server and the dashboard models:
    `Array.prototype.slice(start)` as JavaScript defines it, and the
    "newest n entries" view that bounded histories keep. */
module Seqs {

  function Min(a: int, b: int): int { if a <= b then a else b }

  function Max(a: int, b: int): int { if a >= b then a else b }

  /** `s.slice(start)`: a negative start counts back from the end (and is
      cut off at the beginning), a non-negative one is cut off at the end. */
  function SliceFrom<T>(s: seq<T>, start: int): (r: seq<T>)
    ensures |r| <= |s|
    ensures r == s[|s| - |r|..]
  {
    if start < 0 then s[Max(|s| + start, 0)..] else s[Min(start, |s|)..]
  }

  /** The last min(n, |s|) entries of s, oldest first. */
  function Newest<T>(n: nat, s: seq<T>): (r: seq<T>)
  {
    s[|s| - Min(n, |s|)..]
  }

  /** `slice(-n)` with n >= 1 keeps exactly the newest n entries, in order;
      `slice(-0)` is `slice(0)` and keeps everything. */
  lemma SliceFromEnd<T>(s: seq<T>, n: int)
    ensures n >= 1 ==> SliceFrom(s, -n) == Newest(n, s)
    ensures n >= 1 ==> |SliceFrom(s, -n)| == Min(n, |s|)
    ensures n == 0 ==> SliceFrom(s, -n) == s
    ensures n < 0 ==> SliceFrom(s, -n) == s[Min(-n, |s|)..]
  {
  }

  /** `slice(-n)` applied to every sequence of a map. */
  function SliceEach<K, T>(m: map<K, seq<T>>, n: int): (r: map<K, seq<T>>)
    ensures r.Keys == m.Keys
    ensures n >= 1 ==> forall k <- m.Keys :: r[k] == Newest(n, m[k])
    ensures n == 0 ==> r == m
    ensures n < 0 ==> forall k <- m.Keys :: r[k] == m[k][Min(-n, |m[k]|)..]
  {
    var r := map k | k in m :: SliceFrom(m[k], -n);
    assert n >= 1 ==> forall k <- m.Keys :: r[k] == Newest(n, m[k]) by {
      forall k <- m.Keys { SliceFromEnd(m[k], n); }
    }
    assert n == 0 ==> r == m by {
      if n == 0 {
        forall k <- m.Keys ensures r[k] == m[k] { SliceFromEnd(m[k], n); }
        assert r.Keys == m.Keys;
      }
    }
    assert n < 0 ==> forall k <- m.Keys :: r[k] == m[k][Min(-n, |m[k]|)..] by {
      forall k <- m.Keys { SliceFromEnd(m[k], n); }
    }
    r
  }

  /** Newest keeps at most n entries and, when it drops any, drops the oldest. */
  lemma NewestShape<T>(n: nat, s: seq<T>)
    ensures |Newest(n, s)| == Min(n, |s|)
    ensures |s| <= n ==> Newest(n, s) == s
    ensures |s| > n ==> Newest(n, s) == s[|s| - n..]
  {
  }

  /** Taking the newest n of a longer history and then adding more is the same
      as adding first and then taking the newest n. */
  lemma {:induction false} NewestAppend<T>(n: nat, s: seq<T>, t: seq<T>)
    ensures Newest(n, Newest(n, s) + t) == Newest(n, s + t)
  {
    var k := Min(n, |s|);
    assert Newest(n, s) + t == (s + t)[|s| - k..];
  }
}
