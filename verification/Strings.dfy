/** The server's string helpers: trimming, ASCII lower case, counting UTF-8 code points. */
module Strings {
  import opened Characters

  function TrimLeft(s: string): (r: string)
    ensures |r| <= |s|
    ensures r != "" ==> !IsSpace(r[0])
    ensures s != "" && !IsSpace(s[0]) ==> r == s
  {
    if s != "" && IsSpace(s[0]) then TrimLeft(s[1..]) else s
  }

  function TrimRight(s: string): (r: string)
    ensures |r| <= |s| && r == s[..|r|]
    ensures r != "" ==> !IsSpace(r[|r| - 1])
    ensures s != "" && !IsSpace(s[|s| - 1]) ==> r == s
  {
    if s != "" && IsSpace(s[|s| - 1]) then TrimRight(s[..|s| - 1]) else s
  }

  function Trim(s: string): string {
    TrimLeft(TrimRight(s))
  }

  /** No white space at either end. */
  predicate IsTrimmed(s: string) {
    s == "" || (!IsSpace(s[0]) && !IsSpace(s[|s| - 1]))
  }

  lemma {:induction false} TrimLeftSuffix(s: string)
    ensures TrimLeft(s) == s[|s| - |TrimLeft(s)|..]
  {
    if s != "" && IsSpace(s[0]) { TrimLeftSuffix(s[1..]); }
  }

  /** Trimming gives a trimmed string and is the identity on trimmed ones. */
  lemma TrimTrims(s: string)
    ensures IsTrimmed(Trim(s)) && |Trim(s)| <= |s|
    ensures IsTrimmed(s) ==> Trim(s) == s
  {
    TrimLeftSuffix(TrimRight(s));
  }

  lemma SplitAt(s: string, k: nat)
    requires k <= |s|
    ensures s == s[..k] + s[k..]
  {}

  /** Everything trimmed away is white space. */
  lemma TrimCutsSpace(s: string) returns (before: string, after: string)
    ensures s == before + Trim(s) + after && AllSpace(before) && AllSpace(after)
  {
    var r, t := TrimRight(s), Trim(s);
    LeftCut(r);
    RightCut(s);
    TrimLeftSuffix(r);
    before, after := r[..|r| - |t|], s[|r|..];
    SplitAt(r, |r| - |t|);
    SplitAt(s, |r|);
    hide TrimLeft, TrimRight, AllSpace;
  }

  lemma {:induction false} LeftCut(s: string)
    ensures AllSpace(s[..|s| - |TrimLeft(s)|])
  {
    if s != "" && IsSpace(s[0]) {
      LeftCut(s[1..]);
      var cut := s[..|s| - |TrimLeft(s)|];
      assert cut == [s[0]] + s[1..][..|s[1..]| - |TrimLeft(s[1..])|];
    }
  }

  lemma {:induction false} RightCut(s: string)
    ensures AllSpace(s[|TrimRight(s)|..])
  {
    if s != "" && IsSpace(s[|s| - 1]) {
      var front := s[..|s| - 1];
      RightCut(front);
      assert s[|TrimRight(s)|..] == front[|TrimRight(front)|..] + [s[|s| - 1]];
    }
  }

  function Lower(c: char): char {
    if 'A' <= c <= 'Z' then ((c as int) + 32) as char else c
  }

  function ToLowerCase(s: string): (r: string)
    ensures |r| == |s| && forall i | 0 <= i < |s| :: r[i] == Lower(s[i])
  {
    seq(|s|, i requires 0 <= i < |s| => Lower(s[i]))
  }

  predicate IsLower(s: string) {
    forall i | 0 <= i < |s| :: Lower(s[i]) == s[i]
  }

  lemma LowerLowers(s: string)
    ensures IsLower(ToLowerCase(s))
    ensures IsLower(s) ==> ToLowerCase(s) == s
  {}

  /** A UTF-8 continuation byte: its two high bits are 10. */
  predicate IsContinuation(c: char) {
    0x80 <= c as int <= 0xBF
  }

  function CodePoints(s: string): (n: nat)
    ensures n <= |s|
  {
    if s == "" then 0
    else CodePoints(s[..|s| - 1]) + if IsContinuation(s[|s| - 1]) then 0 else 1
  }

  /** Lower-case strings are those without the capitals of ASCII, and lower-casing moves those alone, by 32. */
  lemma LowerByBytes(s: string)
    ensures IsLower(s) <==> forall c | c in s :: !('A' <= c <= 'Z')
    ensures forall i | 0 <= i < |s| ::
              ToLowerCase(s)[i] == if 'A' <= s[i] <= 'Z' then (s[i] as int + 32) as char else s[i]
  {
    assert forall i | 0 <= i < |s| :: s[i] in s;
  }

  /** The bytes of a string that do not count are those from 0x80 to 0xBF. */
  lemma {:induction false} CodePointsByBytes(s: string)
    ensures CodePoints(s) + |set i | 0 <= i < |s| && 0x80 <= s[i] as int <= 0xBF| == |s|
    decreases |s|
  {
    if s != "" {
      var front, n := s[..|s| - 1], |s| - 1;
      var before := set i | 0 <= i < |front| && 0x80 <= front[i] as int <= 0xBF;
      var all := set i | 0 <= i < |s| && 0x80 <= s[i] as int <= 0xBF;
      CodePointsByBytes(front);
      assert all == before + if 0x80 <= s[n] as int <= 0xBF then {n} else {};
    }
  }
}
