/** Substring search and cutting into equal blocks. */
module Sequences {
  lemma Associate<T>(a: seq<T>, b: seq<T>, c: seq<T>)
    ensures a + b + c == a + (b + c)
  {}

  lemma Unit<T>(a: seq<T>)
    ensures a + [] == a && [] + a == a
  {}

  /** The position of the first `x`, or the length when there is none. */
  function IndexOf<T(==)>(s: seq<T>, x: T): (i: nat)
    ensures i <= |s|
    ensures i < |s| ==> s[i] == x
    ensures forall k | 0 <= k < i :: s[k] != x
    ensures i == |s| <==> x !in s
  {
    if s == [] || s[0] == x then 0 else 1 + IndexOf(s[1..], x)
  }

  lemma IndexOfFirst<T>(a: seq<T>, x: T, b: seq<T>)
    requires x !in a
    ensures IndexOf(a + [x] + b, x) == |a|
  {
    assert (a + [x] + b)[|a|] == x;
  }

  predicate EndsWith(s: string, t: string) {
    |t| <= |s| && forall i | 0 <= i < |t| :: s[|s| - |t| + i] == t[i]
  }

  predicate OccursAt(s: string, t: string, i: nat) {
    i + |t| <= |s| && s[i..i + |t|] == t
  }

  /** `t` is a substring of `s`. */
  predicate Contains(s: string, t: string) {
    exists i: nat | i <= |s| :: OccursAt(s, t, i)
  }

  lemma OccursInFront(s: string, c: char, t: string, i: nat)
    requires i + |t| <= |s|
    ensures OccursAt(s + [c], t, i) <==> OccursAt(s, t, i)
  {
    assert (s + [c])[i..i + |t|] == s[i..i + |t|];
  }

  /** A substring of `s + [c]` is a substring of `s` or a suffix ending in `c`. */
  lemma ContainsSnoc(s: string, c: char, t: string)
    requires t != ""
    ensures Contains(s + [c], t) <==> Contains(s, t) || EndsWith(s + [c], t)
  {
    var u := s + [c];
    if Contains(s, t) {
      var i: nat :| i <= |s| && OccursAt(s, t, i);
      OccursInFront(s, c, t, i);
    }
    if EndsWith(u, t) {
      assert OccursAt(u, t, |u| - |t|);
    }
    if Contains(u, t) {
      var i: nat :| i <= |u| && OccursAt(u, t, i);
      if i + |t| <= |s| {
        OccursInFront(s, c, t, i);
      } else {
        assert i == |u| - |t| && u[i..i + |t|] == u[i..];
      }
    }
  }

  lemma ContainsPrefix(s: string, n: nat, t: string)
    requires n <= |s|
    ensures Contains(s[..n], t) ==> Contains(s, t)
  {
    if Contains(s[..n], t) {
      var i: nat :| i <= n && OccursAt(s[..n], t, i);
      assert s[..n][i..i + |t|] == s[i..i + |t|];
      assert OccursAt(s, t, i);
    }
  }

  /** The complete blocks of `k` characters of `s`, in order. */
  function FullBlocks(s: string, k: nat): (bs: seq<string>)
    requires k > 0
    ensures forall i | 0 <= i < |bs| :: |bs[i]| == k
  {
    if |s| < k then [] else [s[..k]] + FullBlocks(s[k..], k)
  }

  /** What is left of `s` after its complete blocks. */
  function Leftover(s: string, k: nat): (r: string)
    requires k > 0
    ensures |r| < k && |r| <= |s|
    ensures |s| < k ==> r == s
  {
    if |s| < k then s else Leftover(s[k..], k)
  }

  /** `s` cut into blocks of `k` characters, the last possibly shorter, none empty. */
  function Blocks(s: string, k: nat): (bs: seq<string>)
    requires k > 0
    ensures forall i | 0 <= i < |bs| :: 0 < |bs[i]| <= k
  {
    FullBlocks(s, k) + if Leftover(s, k) == "" then [] else [Leftover(s, k)]
  }

  function Join(bs: seq<string>): string {
    if bs == [] then "" else bs[0] + Join(bs[1..])
  }

  lemma {:induction false} BlocksSnoc(s: string, c: char, k: nat)
    requires k > 0
    ensures |Leftover(s, k)| + 1 == k ==>
              Leftover(s + [c], k) == "" && FullBlocks(s + [c], k) == FullBlocks(s, k) + [Leftover(s, k) + [c]]
    ensures |Leftover(s, k)| + 1 < k ==>
              Leftover(s + [c], k) == Leftover(s, k) + [c] && FullBlocks(s + [c], k) == FullBlocks(s, k)
  {
    if |s| < k {
      if |s| + 1 == k {
        assert (s + [c])[..k] == s + [c];
        assert (s + [c])[k..] == "";
      }
    } else {
      assert (s + [c])[..k] == s[..k];
      assert (s + [c])[k..] == s[k..] + [c];
      BlocksSnoc(s[k..], c, k);
    }
  }

  lemma {:induction false} JoinConcat(a: seq<string>, b: seq<string>)
    ensures Join(a + b) == Join(a) + Join(b)
  {
    if a == [] {
      assert a + b == b;
    } else {
      assert (a + b)[1..] == a[1..] + b;
      JoinConcat(a[1..], b);
    }
  }

  lemma {:induction false} FullBlocksJoin(s: string, k: nat)
    requires k > 0
    ensures Join(FullBlocks(s, k)) + Leftover(s, k) == s
  {
    if |s| >= k {
      var rest := FullBlocks(s[k..], k);
      FullBlocksJoin(s[k..], k);
      assert ([s[..k]] + rest)[1..] == rest;
      assert s == s[..k] + (Join(rest) + Leftover(s[k..], k));
    }
  }

  /** Cutting into blocks loses and moves nothing. */
  lemma BlocksJoin(s: string, k: nat)
    requires k > 0
    ensures Join(Blocks(s, k)) == s
  {
    FullBlocksJoin(s, k);
    var last := if Leftover(s, k) == "" then [] else [Leftover(s, k)];
    JoinConcat(FullBlocks(s, k), last);
    assert Join(last) == Leftover(s, k) by {
      if last != [] { assert last[1..] == []; }
    }
  }
}
