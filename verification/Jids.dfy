/** XMPP addresses: parsing, printing, and when the one undoes the other. */
module Jids {
  import opened Sequences
  import opened Strings

  datatype Result<T> = Ok(value: T) | MalformedJid

  datatype Jid = Jid(localPart: string, domainPart: string, resourcePart: string)

  const MAX_CODE_POINTS: nat := 1023

  predicate FitsPart(s: string) {
    CodePoints(s) <= MAX_CODE_POINTS
  }

  function Normalize(s: string): string {
    Trim(ToLowerCase(s))
  }

  function ParseLocalPart(s: string): Result<string> {
    var part := Normalize(s);
    if FitsPart(part) then Ok(part) else MalformedJid
  }

  function ParseDomainPart(s: string): Result<string> {
    var part := Normalize(s);
    if part != "" && FitsPart(part) then Ok(part) else MalformedJid
  }

  function ParseResourcePart(s: string): Result<string> {
    var part := Trim(s);
    if FitsPart(part) then Ok(part) else MalformedJid
  }

  /** The constructor from components. */
  function Make(localPart: string, domainPart: string, resourcePart: string): Result<Jid> {
    match (ParseLocalPart(localPart), ParseDomainPart(domainPart), ParseResourcePart(resourcePart))
    case (Ok(l), Ok(d), Ok(r)) => Ok(Jid(l, d, r))
    case _ => MalformedJid
  }

  /** The resource follows the first slash. */
  function ResourceOf(t: string): string {
    var slash := IndexOf(t, '/');
    if slash < |t| then t[slash + 1..] else ""
  }

  function BareOf(t: string): string {
    t[..IndexOf(t, '/')]
  }

  /** The local part precedes the first `@` of what is left. */
  function LocalOf(bare: string): string {
    var at := IndexOf(bare, '@');
    if at < |bare| then bare[..at] else ""
  }

  function DomainOf(bare: string): string {
    var at := IndexOf(bare, '@');
    if at < |bare| then bare[at + 1..] else bare
  }

  function Cut(t: string): Jid {
    Jid(LocalOf(BareOf(t)), DomainOf(BareOf(t)), ResourceOf(t))
  }

  /** The constructor from a string. */
  function Parse(s: string): Result<Jid> {
    var t := Trim(s);
    if t == "" then MalformedJid
    else
      var parts := Cut(t);
      Make(parts.localPart, parts.domainPart, parts.resourcePart)
  }

  function BareText(j: Jid): string {
    (if j.localPart == "" then "" else j.localPart + "@") + j.domainPart
  }

  /** The cached full string. */
  function Print(j: Jid): string {
    BareText(j) + if j.resourcePart == "" then "" else "/" + j.resourcePart
  }

  function ToBareJid(j: Jid): Result<Jid> {
    Make(j.localPart, j.domainPart, "")
  }

  /** What both constructors establish. */
  predicate IsNormal(j: Jid) {
    && IsTrimmed(j.localPart) && IsLower(j.localPart) && FitsPart(j.localPart)
    && IsTrimmed(j.domainPart) && IsLower(j.domainPart) && FitsPart(j.domainPart) && j.domainPart != ""
    && IsTrimmed(j.resourcePart) && FitsPart(j.resourcePart)
  }

  lemma NormalizeNormal(s: string)
    ensures IsTrimmed(Normalize(s)) && IsLower(Normalize(s))
    ensures IsTrimmed(s) && IsLower(s) ==> Normalize(s) == s
  {
    var t := ToLowerCase(s);
    TrimTrims(t);
    LowerLowers(s);
    TrimLeftSuffix(TrimRight(t));
  }

  /** Constructing from normal parts gives them back; constructing from any gives normal ones. */
  lemma MakeNormal(l: string, d: string, r: string)
    ensures Make(l, d, r).Ok? ==> IsNormal(Make(l, d, r).value)
    ensures IsNormal(Jid(l, d, r)) ==> Make(l, d, r) == Ok(Jid(l, d, r))
  {
    NormalizeNormal(l);
    NormalizeNormal(d);
    TrimTrims(r);
    hide Trim, Normalize;
  }

  /** Components make a JID exactly when, lowered and trimmed, they are normal parts; that JID is made of them. */
  lemma MakeExactly(l: string, d: string, r: string)
    ensures var j := Jid(Normalize(l), Normalize(d), Trim(r));
            Make(l, d, r) == if IsNormal(j) then Ok(j) else MalformedJid
  {
    NormalizeNormal(l);
    NormalizeNormal(d);
    TrimTrims(r);
    hide Trim, Normalize;
  }

  lemma ParseNormal(s: string)
    ensures Parse(s).Ok? ==> IsNormal(Parse(s).value)
  {
    var parts := Cut(Trim(s));
    MakeNormal(parts.localPart, parts.domainPart, parts.resourcePart);
    hide Make, IsNormal, Cut;
  }

  // ----- what printing keeps apart

  predicate Lacks(s: string, c: char) {
    c !in s
  }

  /** The delimiters are where a reader of the printed form will look for them. */
  predicate IsDelimited(j: Jid) {
    && Lacks(j.localPart, '@') && Lacks(j.localPart, '/') && Lacks(j.domainPart, '/')
    && (j.localPart != "" || Lacks(j.domainPart, '@'))
  }

  lemma IndexOfNone(a: string, c: char)
    requires Lacks(a, c)
    ensures IndexOf(a, c) == |a|
  {}

  lemma CutSlash(bare: string, resource: string)
    requires Lacks(bare, '/')
    ensures var t := bare + if resource == "" then "" else "/" + resource;
            BareOf(t) == bare && ResourceOf(t) == resource
  {
    if resource == "" {
      assert bare + "" == bare;
      IndexOfNone(bare, '/');
    } else {
      assert bare + ("/" + resource) == bare + ['/'] + resource;
      IndexOfFirst(bare, '/', resource);
    }
  }

  lemma CutAt(l: string, d: string)
    requires Lacks(l, '@')
    ensures LocalOf(l + ['@'] + d) == l && DomainOf(l + ['@'] + d) == d
    ensures Lacks(d, '@') ==> LocalOf(d) == "" && DomainOf(d) == d
  {
    IndexOfFirst(l, '@', d);
    if Lacks(d, '@') { IndexOfNone(d, '@'); }
  }

  lemma BareLacksSlash(j: Jid)
    requires IsDelimited(j)
    ensures Lacks(BareText(j), '/')
  {}

  /** Cutting the printed form gives the parts back when they are delimited. */
  lemma CutPrint(j: Jid)
    requires IsDelimited(j)
    ensures Cut(Print(j)) == j
  {
    BareLacksSlash(j);
    CutSlash(BareText(j), j.resourcePart);
    CutAt(j.localPart, j.domainPart);
    assert "" + j.domainPart == j.domainPart;
    hide Lacks, BareOf, ResourceOf, LocalOf, DomainOf;
  }

  /** What a cut produces is delimited, but for a domain left with an `@` behind an empty local part. */
  lemma CutDelimited(t: string)
    ensures var j := Cut(t); Lacks(j.localPart, '@') && Lacks(j.localPart, '/') && Lacks(j.domainPart, '/')
  {}

  lemma PrintTrimmed(j: Jid)
    requires IsNormal(j)
    ensures Trim(Print(j)) == Print(j) && Print(j) != ""
  {
    var s := Print(j);
    assert s[0] == if j.localPart == "" then j.domainPart[0] else j.localPart[0];
    assert s[|s| - 1] == if j.resourcePart == "" then j.domainPart[|j.domainPart| - 1]
                         else j.resourcePart[|j.resourcePart| - 1];
    assert IsTrimmed(s);
    TrimTrims(s);
  }

  predicate IsDelimiter(c: char) {
    c == '@' || c == '/'
  }

  /** Normalizing a part brings in no delimiter and makes it no longer. */
  lemma NormalizeLacks(s: string, c: char)
    requires IsDelimiter(c) && Lacks(s, c)
    ensures Lacks(Normalize(s), c)
  {
    var t := ToLowerCase(s);
    var before, after := TrimCutsSpace(t);
    assert Lacks(t, c);
    forall i | 0 <= i < |Trim(t)|
      ensures Trim(t)[i] != c
    {
      assert Trim(t)[i] == t[|before| + i];
    }
  }

  lemma NormalizeShortens(s: string)
    ensures |Normalize(s)| <= |s|
  {
    TrimTrims(ToLowerCase(s));
  }

  lemma PrintWithoutLocal(j: Jid)
    requires j.localPart == ""
    ensures Print(j) == j.domainPart + if j.resourcePart == "" then "" else "/" + j.resourcePart
  {
    assert "" + j.domainPart == j.domainPart;
  }

  /** The domain `Parse` reads back from a JID printed without a local part, cut at its first `@`. */
  lemma UndelimitedDomain(j: Jid)
    requires IsNormal(j) && j.localPart == "" && Lacks(j.domainPart, '/') && '@' in j.domainPart
    ensures |Cut(Print(j)).domainPart| < |j.domainPart|
  {
    assert |DomainOf(j.domainPart)| < |j.domainPart|;
    PrintWithoutLocal(j);
    CutSlash(j.domainPart, j.resourcePart);
    hide Print, BareOf, ResourceOf, LocalOf, DomainOf;
  }

  /**
   * For every JID, however built, parsing its printed form gives it back exactly when its delimiters
   * are where they will be looked for.
   */
  lemma RoundTripExactly(j: Jid)
    requires IsNormal(j)
    ensures Parse(Print(j)) == Ok(j) <==> IsDelimited(j)
  {
    PrintTrimmed(j);
    var parts := Cut(Print(j));
    if IsDelimited(j) {
      CutPrint(j);
      MakeNormal(j.localPart, j.domainPart, j.resourcePart);
    }
    if Parse(Print(j)) == Ok(j) {
      MadeParts(parts, j);
      CutDelimited(Print(j));
      NormalizeLacks(parts.localPart, '@');
      NormalizeLacks(parts.localPart, '/');
      NormalizeLacks(parts.domainPart, '/');
      NormalizeShortens(parts.domainPart);
      if j.localPart == "" && '@' in j.domainPart {
        UndelimitedDomain(j);
      }
    }
    hide Cut, Make, Print, Normalize, IsNormal;
  }

  lemma MadeParts(parts: Jid, j: Jid)
    requires Make(parts.localPart, parts.domainPart, parts.resourcePart) == Ok(j)
    ensures j.localPart == Normalize(parts.localPart) && j.domainPart == Normalize(parts.domainPart)
  {}

  /** What is read from strings: normal parts, and no delimiter in them but an `@` in the domain. */
  predicate IsReadable(j: Jid) {
    IsNormal(j) && Lacks(j.localPart, '@') && Lacks(j.localPart, '/') && Lacks(j.domainPart, '/')
  }

  lemma ParsedReadable(s: string)
    ensures Parse(s).Ok? ==> IsReadable(Parse(s).value)
  {
    if Parse(s).Ok? {
      var j, parts := Parse(s).value, Cut(Trim(s));
      ParseNormal(s);
      MadeParts(parts, j);
      CutDelimited(Trim(s));
      NormalizeLacks(parts.localPart, '@');
      NormalizeLacks(parts.localPart, '/');
      NormalizeLacks(parts.domainPart, '/');
    }
    hide Cut, Make, Normalize, IsNormal, Trim;
  }

  /** A JID read from a string prints back to itself exactly when it has a local part or a domain without `@`. */
  lemma ParsedRoundTrip(s: string)
    requires Parse(s).Ok?
    ensures var j := Parse(s).value; Parse(Print(j)) == Ok(j) <==> j.localPart != "" || '@' !in j.domainPart
  {
    ParsedReadable(s);
    RoundTripExactly(Parse(s).value);
    hide Parse, Print, IsNormal;
  }

  /** Comparing cached strings compares parts. */
  lemma EqualStringsEqualParts(a: Jid, b: Jid)
    requires IsNormal(a) && IsNormal(b) && IsDelimited(a) && IsDelimited(b)
    ensures Print(a) == Print(b) <==> a == b
  {
    CutPrint(a);
    CutPrint(b);
  }

  // ----- JIDs read from strings

  ghost predicate IsParsed(j: Jid) {
    exists s: string :: Parse(s) == Ok(j)
  }

  lemma ParseCut(s: string, j: Jid)
    requires Trim(s) == s && s != "" && Cut(s) == j && IsNormal(j)
    ensures Parse(s) == Ok(j)
  {
    MakeNormal(j.localPart, j.domainPart, j.resourcePart);
    hide Cut, IsNormal, Make;
  }

  lemma AtTrimmed(s: string)
    requires Trim(s) == s && s != ""
    ensures Trim("@" + s) == "@" + s
  {
    TrimTrims(s);
    TrimTrims("@" + s);
  }

  lemma CutBehindAt(domain: string, resource: string)
    requires Lacks(domain, '/')
    ensures Cut(("@" + domain) + if resource == "" then "" else "/" + resource) == Jid("", domain, resource)
  {
    CutSlash("@" + domain, resource);
    assert "" + ['@'] + domain == "@" + domain;
    CutAt("", domain);
    hide BareOf, ResourceOf, LocalOf, DomainOf;
  }

  /** Behind an `@` of its own, a domain is read as it stands. */
  lemma ReadBehindAt(j: Jid)
    requires IsNormal(j) && j.localPart == "" && Lacks(j.domainPart, '/')
    ensures Parse("@" + Print(j)) == Ok(j)
  {
    var tail := if j.resourcePart == "" then "" else "/" + j.resourcePart;
    PrintTrimmed(j);
    PrintWithoutLocal(j);
    CutBehindAt(j.domainPart, j.resourcePart);
    hide Trim, Cut, Make, IsNormal, Print, Parse;
    AtTrimmed(Print(j));
    Associate("@", j.domainPart, tail);
    ParseCut("@" + Print(j), j);
  }

  /** And each such JID is read from some string. */
  lemma ParsedExactly(j: Jid)
    ensures IsParsed(j) <==> IsReadable(j)
  {
    if IsParsed(j) {
      var s: string :| Parse(s) == Ok(j);
      ParsedReadable(s);
    }
    if IsReadable(j) {
      if IsDelimited(j) {
        RoundTripExactly(j);
      } else {
        ReadBehindAt(j);
      }
    }
    hide Parse, IsNormal, Print;
  }

  // ----- namesakes

  /** The only other JID that may print as `j` does: its bare form as the domain, or that domain cut at its `@`. */
  function Other(j: Jid): Jid {
    if j.localPart != "" then Jid("", BareText(j), j.resourcePart)
    else Jid(LocalOf(j.domainPart), DomainOf(j.domainPart), j.resourcePart)
  }

  /** Whether that JID is one that can be read. */
  predicate HasNamesake(j: Jid) {
    if j.localPart != "" then FitsPart(BareText(j))
    else
      var local, domain := LocalOf(j.domainPart), DomainOf(j.domainPart);
      '@' in j.domainPart && local != "" && domain != "" && IsTrimmed(local) && IsTrimmed(domain)
  }

  /** What a printed form tells: the bare form and the resource. */
  lemma PrintTells(j: Jid)
    requires IsReadable(j)
    ensures BareOf(Print(j)) == BareText(j) && ResourceOf(Print(j)) == j.resourcePart
  {
    assert Lacks(BareText(j), '/');
    CutSlash(BareText(j), j.resourcePart);
    hide BareOf, ResourceOf, IsNormal;
  }

  /** And the bare form tells where a local part ends. */
  lemma BareTells(j: Jid)
    requires IsReadable(j)
    ensures j.localPart != "" ==> LocalOf(BareText(j)) == j.localPart && DomainOf(BareText(j)) == j.domainPart
    ensures j.localPart == "" ==> BareText(j) == j.domainPart
  {
    CutAt(j.localPart, j.domainPart);
    assert "" + j.domainPart == j.domainPart;
    assert j.localPart + "@" == j.localPart + ['@'];
    hide LocalOf, DomainOf, IsNormal;
  }

  lemma SamePrint(j: Jid, k: Jid)
    requires IsReadable(j) && IsReadable(k) && Print(j) == Print(k)
    ensures k == j || k == Other(j)
  {
    PrintTells(j);
    PrintTells(k);
    BareTells(j);
    BareTells(k);
    hide BareOf, ResourceOf, LocalOf, DomainOf, Print, BareText, IsNormal;
  }

  lemma {:induction false} FitsFront(s: string, n: nat)
    requires n <= |s|
    ensures CodePoints(s[..n]) <= CodePoints(s)
    decreases |s|
  {
    if n < |s| {
      assert s[..|s| - 1][..n] == s[..n];
      FitsFront(s[..|s| - 1], n);
    } else {
      assert s[..n] == s;
    }
  }

  lemma {:induction false} FitsBack(s: string, n: nat)
    requires n <= |s|
    ensures CodePoints(s[n..]) <= CodePoints(s)
    decreases |s|
  {
    if n < |s| {
      assert s[..|s| - 1][n..] == s[n..][..|s[n..]| - 1];
      FitsBack(s[..|s| - 1], n);
    }
  }

  /** With a local part: the other JID is there when its domain fits. */
  lemma OtherOfLocal(j: Jid)
    requires IsReadable(j) && j.localPart != ""
    ensures Other(j) != j && Print(Other(j)) == Print(j)
    ensures IsReadable(Other(j)) <==> FitsPart(BareText(j))
  {
    PrintWithoutLocal(Other(j));
    assert Lacks(BareText(j), '/');
    BareNormal(j);
    hide FitsPart, IsTrimmed, IsLower, CodePoints;
  }

  lemma BareNormal(j: Jid)
    requires IsNormal(j) && j.localPart != ""
    ensures IsTrimmed(BareText(j)) && IsLower(BareText(j)) && BareText(j) != ""
  {}

  lemma CutAtFirst(d: string)
    requires '@' in d
    ensures var at := IndexOf(d, '@');
            && at < |d| && LocalOf(d) == d[..at] && DomainOf(d) == d[at + 1..]
            && d == d[..at] + "@" + d[at + 1..] && Lacks(d[..at], '@')
  {
    var at := IndexOf(d, '@');
    assert Lacks(d[..at], '@') by { assert forall k | 0 <= k < at :: d[..at][k] == d[k]; }
    hide IndexOf, Lacks;
    Around(d, at);
  }

  lemma Around(d: string, at: nat)
    requires at < |d| && d[at] == '@'
    ensures d == d[..at] + "@" + d[at + 1..]
  {
    assert d == d[..at] + [d[at]] + d[at + 1..];
  }

  lemma HalvesNormal(d: string, at: nat)
    requires at < |d| && IsLower(d) && Lacks(d, '/')
    ensures IsLower(d[..at]) && IsLower(d[at + 1..]) && Lacks(d[..at], '/') && Lacks(d[at + 1..], '/')
  {}

  lemma PrintParts(j: Jid)
    ensures Print(j) == BareText(j) + if j.resourcePart == "" then "" else "/" + j.resourcePart
  {}

  lemma OtherReadable(j: Jid)
    requires IsReadable(j) && j.localPart == "" && '@' in j.domainPart
    ensures var local, domain := LocalOf(j.domainPart), DomainOf(j.domainPart);
            IsReadable(Other(j)) <==> domain != "" && IsTrimmed(local) && IsTrimmed(domain)
  {
    hide CodePoints, IndexOf, LocalOf, DomainOf, IsTrimmed, IsLower, Lacks;
    Halves(j.domainPart);
    EmptyIsTrimmed();
  }

  lemma EmptyIsTrimmed()
    ensures IsTrimmed("") && IsLower("")
  {}

  /** The two parts a domain is cut into at its first `@` fit and are lower-case as it is. */
  lemma Halves(d: string)
    requires '@' in d && IsLower(d) && Lacks(d, '/') && FitsPart(d)
    ensures var local, domain := LocalOf(d), DomainOf(d);
            && IsLower(local) && Lacks(local, '/') && Lacks(local, '@') && FitsPart(local)
            && IsLower(domain) && Lacks(domain, '/') && FitsPart(domain)
  {
    hide CodePoints, LocalOf, DomainOf, IsLower, Lacks;
    var at := IndexOf(d, '@');
    CutAtFirst(d);
    FitsFront(d, at);
    FitsBack(d, at + 1);
    HalvesNormal(d, at);
  }

  lemma OtherPrints(j: Jid)
    requires j.localPart == "" && '@' in j.domainPart
    ensures Print(Other(j)) == Print(j) && Other(j) != j <==> LocalOf(j.domainPart) != ""
  {
    var d, at := j.domainPart, IndexOf(j.domainPart, '@');
    CutAtFirst(d);
    PrintWithoutLocal(j);
    PrintParts(Other(j));
    hide IndexOf, LocalOf, DomainOf, Print;
    if LocalOf(d) == "" {
      PrintWithoutLocal(Other(j));
      TailsDiffer(DomainOf(d), d, if j.resourcePart == "" then "" else "/" + j.resourcePart);
    }
  }

  lemma TailsDiffer(a: string, b: string, tail: string)
    requires |a| < |b|
    ensures a + tail != b + tail
  {
    assert |a + tail| < |b + tail|;
  }

  /** Without one: it is there when the domain has an `@` between two nonempty trimmed strings. */
  lemma OtherOfDomain(j: Jid)
    requires IsReadable(j) && j.localPart == ""
    ensures Other(j) != j && IsReadable(Other(j)) && Print(Other(j)) == Print(j) <==> HasNamesake(j)
  {
    if '@' in j.domainPart {
      OtherReadable(j);
      OtherPrints(j);
      hide IsReadable, Print, Other, LocalOf, DomainOf;
    }
  }

  /**
   * A JID read from a string shares its printed form, and so compares equal, with a different JID read
   * from a string exactly when it has a namesake.
   */
  lemma NamesakeExactly(j: Jid)
    requires IsParsed(j)
    ensures (exists k: Jid :: IsParsed(k) && k != j && Print(k) == Print(j)) <==> HasNamesake(j)
  {
    hide Parse, Print, IsReadable, HasNamesake, IsParsed, Other;
    ParsedExactly(j);
    ParsedExactly(Other(j));
    OtherIsNamesake(j);
    if k: Jid :| IsParsed(k) && k != j && Print(k) == Print(j) {
      ParsedExactly(k);
      SamePrint(j, k);
    }
  }

  lemma OtherIsNamesake(j: Jid)
    requires IsReadable(j)
    ensures Other(j) != j && IsReadable(Other(j)) && Print(Other(j)) == Print(j) <==> HasNamesake(j)
  {
    if j.localPart != "" {
      OtherOfLocal(j);
    } else {
      OtherOfDomain(j);
    }
    hide IsReadable, Print, Other;
  }

  /** So `@a@b` reads as a JID that prints as, and compares equal to, the different JID `a@b`. */
  lemma EqualStringsDifferentParts()
    ensures Parse("@a@b") == Ok(Jid("", "a@b", "")) && Parse("a@b") == Ok(Jid("a", "b", ""))
    ensures Print(Jid("", "a@b", "")) == Print(Jid("a", "b", "")) == "a@b"
  {
    var j, k := Jid("a", "b", ""), Jid("", "a@b", "");
    assert IsNormal(j) && IsDelimited(j) && IsNormal(k);
    assert BareText(j) == "a@b" && Print(j) == "a@b";
    PrintWithoutLocal(k);
    assert "a@b" + "" == "a@b" && "@" + "a@b" == "@a@b";
    hide IsNormal, IsDelimited, Parse, Print, BareText;
    ReadBehindAt(k);
    RoundTripExactly(j);
  }

  /** The bare form of any JID can be made, and is the printed form cut at its first slash. */
  lemma BareIsCut(j: Jid)
    requires IsNormal(j)
    ensures ToBareJid(j) == Ok(Jid(j.localPart, j.domainPart, ""))
    ensures Lacks(j.localPart, '/') && Lacks(j.domainPart, '/') ==>
              Print(ToBareJid(j).value) == Print(j)[..IndexOf(Print(j), '/')]
  {
    MakeNormal(j.localPart, j.domainPart, "");
    if Lacks(j.localPart, '/') && Lacks(j.domainPart, '/') {
      assert Lacks(BareText(j), '/');
      CutSlash(BareText(j), j.resourcePart);
      assert BareText(j) + "" == BareText(j);
    }
    hide IndexOf, Make, ResourceOf;
  }

  // ----- case and length, by the bytes

  /** `a` and `b` differ at most in which of their ASCII letters are capitals. */
  predicate DifferInCase(a: string, b: string) {
    |a| == |b| &&
    forall i | 0 <= i < |a| ::
      || a[i] == b[i]
      || ('A' <= a[i] <= 'Z' && b[i] as int == a[i] as int + 32)
      || ('A' <= b[i] <= 'Z' && a[i] as int == b[i] as int + 32)
  }

  lemma SameLower(a: string, b: string)
    requires DifferInCase(a, b)
    ensures ToLowerCase(a) == ToLowerCase(b)
  {
    LowerByBytes(a);
    LowerByBytes(b);
    hide Lower;
    assert forall i | 0 <= i < |a| :: ToLowerCase(a)[i] == ToLowerCase(b)[i];
  }

  /** Case makes no difference in the local part and the domain, which hold no capitals, and all in the resource. */
  lemma CaseFolded(l: string, d: string, r: string, l': string, d': string)
    requires DifferInCase(l, l') && DifferInCase(d, d')
    ensures Make(l, d, r) == Make(l', d', r)
    ensures Make(l, d, r).Ok? ==>
              && Make(l, d, r).value.resourcePart == Trim(r)
              && (forall c | c in Make(l, d, r).value.localPart :: !('A' <= c <= 'Z'))
              && (forall c | c in Make(l, d, r).value.domainPart :: !('A' <= c <= 'Z'))
  {
    SameLower(l, l');
    SameLower(d, d');
    MakeNormal(l, d, r);
    if Make(l, d, r).Ok? {
      LowerByBytes(Make(l, d, r).value.localPart);
      LowerByBytes(Make(l, d, r).value.domainPart);
    }
    hide ToLowerCase, Trim, IsLower;
  }

  function Repeated(c: char, n: nat): string {
    if n == 0 then "" else Repeated(c, n - 1) + [c]
  }

  lemma {:induction false} RepeatedA(n: nat)
    ensures |Repeated('a', n)| == n == CodePoints(Repeated('a', n))
    ensures forall i | 0 <= i < n :: Repeated('a', n)[i] == 'a'
  {
    if n > 0 {
      RepeatedA(n - 1);
      assert Repeated('a', n)[..n - 1] == Repeated('a', n - 1);
    }
  }

  lemma RepeatedNormal(n: nat)
    ensures Normalize(Repeated('a', n)) == Trim(Repeated('a', n)) == Repeated('a', n)
  {
    RepeatedA(n);
    NormalizeNormal(Repeated('a', n));
    TrimTrims(Repeated('a', n));
    hide Trim, ToLowerCase, CodePoints, Normalize, Repeated;
  }

  /** Each part may have 1023 code points, and the domain must have one. */
  lemma PartLengths(l: nat, d: nat, r: nat)
    ensures Make(Repeated('a', l), Repeated('a', d), Repeated('a', r)).Ok? <==>
            l <= 1023 && 1 <= d <= 1023 && r <= 1023
  {
    RepeatedA(l);
    RepeatedA(d);
    RepeatedA(r);
    RepeatedNormal(l);
    RepeatedNormal(d);
    RepeatedNormal(r);
    hide Normalize, Trim, CodePoints, Repeated;
  }
}
