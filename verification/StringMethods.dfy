/** The string helpers as the loops they are. */
module StringMethods {
  import opened Characters
  import opened Strings

  method LTrim(s: string) returns (r: string)
    ensures r == TrimLeft(s)
  {
    var start := 0;
    while start < |s| && IsSpace(s[start])
      invariant 0 <= start <= |s|
      invariant TrimLeft(s[start..]) == TrimLeft(s)
    {
      assert s[start..][1..] == s[start + 1..];
      start := start + 1;
    }
    r := s[start..];
  }

  method RTrim(s: string) returns (r: string)
    ensures r == TrimRight(s)
  {
    var end := |s|;
    assert s[..end] == s;
    while end > 0 && IsSpace(s[end - 1])
      invariant 0 <= end <= |s|
      invariant TrimRight(s[..end]) == TrimRight(s)
    {
      assert s[..end][..end - 1] == s[..end - 1];
      end := end - 1;
    }
    r := s[..end];
  }

  method TrimBoth(s: string) returns (r: string)
    ensures r == Trim(s)
  {
    r := RTrim(s);
    r := LTrim(r);
  }

  method MakeLowerCase(s: string) returns (r: string)
    ensures r == ToLowerCase(s)
  {
    r := "";
    for i := 0 to |s|
      invariant |r| == i && forall k | 0 <= k < i :: r[k] == Lower(s[k])
    {
      r := r + [Lower(s[i])];
    }
  }

  method CountUtf8CodePoints(s: string) returns (count: nat)
    ensures count == CodePoints(s)
  {
    count := 0;
    for i := 0 to |s|
      invariant count == CodePoints(s[..i])
    {
      assert s[..i + 1][..i] == s[..i];
      if !IsContinuation(s[i]) {
        count := count + 1;
      }
    }
    assert s[..|s|] == s;
  }

  /** `isBlank`: the scan stops at the first character that is not white space. */
  method IsBlank(s: string) returns (blank: bool)
    ensures blank <==> AllSpace(s)
  {
    for i := 0 to |s|
      invariant forall k | 0 <= k < i :: IsSpace(s[k])
    {
      if !IsSpace(s[i]) { return false; }
    }
    blank := true;
  }
}
