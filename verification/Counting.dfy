/** How often an element occurs in a sequence, and taking one element out. */
module Counting {
  function Once(b: bool): nat {
    if b then 1 else 0
  }

  function Without<T>(s: seq<T>, i: nat): (r: seq<T>)
    requires i < |s|
    ensures |r| == |s| - 1
  {
    s[..i] + s[i + 1..]
  }

  lemma CutAt<T>(s: seq<T>, i: nat)
    requires i < |s|
    ensures s == s[..i] + [s[i]] + s[i + 1..]
  {}

  function Tally<T(==)>(s: seq<T>, x: T): nat {
    multiset(s)[x]
  }

  lemma TallyEmpty<T>(x: T)
    ensures Tally([], x) == 0
  {}

  lemma TallySnoc<T>(s: seq<T>, y: T, x: T)
    ensures Tally(s + [y], x) == Tally(s, x) + Once(y == x)
  {}

  lemma TallyWithout<T>(s: seq<T>, i: nat, x: T)
    requires i < |s|
    ensures Tally(s, x) == Tally(Without(s, i), x) + Once(s[i] == x)
  {
    CutAt(s, i);
  }
}
