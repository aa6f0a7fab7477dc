/** The JID object: parts and cached string, assigned by its constructors' parsers. */
module JidObject {
  import opened Sequences
  import opened StringMethods
  import Jids

  class Jid {
    var localPart: string
    var domainPart: string
    var resourcePart: string
    var fullJid: string

    function Contents(): Jids.Jid
      reads this
    {
      Jids.Jid(localPart, domainPart, resourcePart)
    }

    /** A constructed JID: normal parts, and the cache is their printed form. */
    ghost predicate Valid()
      reads this
    {
      Jids.IsNormal(Contents()) && fullJid == Jids.Print(Contents())
    }

    /** Storage for a JID under construction. */
    constructor ()
      ensures Contents() == Jids.Jid("", "", "") && fullJid == ""
    {
      localPart, domainPart, resourcePart, fullJid := "", "", "", "";
    }

    static method ParsePart(s: string, lower: bool, mayBeEmpty: bool) returns (r: Jids.Result<string>)
      ensures lower && mayBeEmpty ==> r == Jids.ParseLocalPart(s)
      ensures lower && !mayBeEmpty ==> r == Jids.ParseDomainPart(s)
      ensures !lower && mayBeEmpty ==> r == Jids.ParseResourcePart(s)
    {
      var part := s;
      if lower {
        part := MakeLowerCase(part);
      }
      part := TrimBoth(part);
      if part == "" && !mayBeEmpty { return Jids.MalformedJid; }
      var count := CountUtf8CodePoints(part);
      if count > Jids.MAX_CODE_POINTS { return Jids.MalformedJid; }
      r := Jids.Ok(part);
    }

    static method FindFirst(s: string, c: char) returns (i: nat)
      ensures i == IndexOf(s, c)
    {
      i := 0;
      assert s[0..] == s;
      while i < |s| && s[i] != c
        invariant 0 <= i <= |s|
        invariant IndexOf(s, c) == i + IndexOf(s[i..], c)
      {
        assert s[i..][1..] == s[i + 1..];
        i := i + 1;
      }
    }

    method RebuildCachedFullJid() returns (ok: bool)
      modifies this`fullJid
      ensures ok <==> domainPart != ""
      ensures fullJid == if ok then Jids.Print(Contents()) else old(fullJid)
    {
      if domainPart == "" { return false; }
      fullJid := "";
      if localPart != "" {
        fullJid := fullJid + localPart + "@";
      }
      fullJid := fullJid + domainPart;
      if resourcePart != "" {
        fullJid := fullJid + "/" + resourcePart;
      }
      ok := true;
      Cached();
    }

    /** The cache built piece by piece is the printed form. */
    lemma Cached()
      ensures Jids.Print(Contents()) ==
              ("" + (if localPart == "" then "" else localPart + "@") + domainPart) +
              if resourcePart == "" then "" else "/" + resourcePart
    {}

    /** The constructor from components; on failure nothing is assigned. */
    method Assemble(l: string, d: string, r: string) returns (ok: bool)
      modifies this
      ensures ok <==> Jids.Make(l, d, r).Ok?
      ensures ok ==> Valid() && Contents() == Jids.Make(l, d, r).value
      ensures !ok ==> Contents() == old(Contents()) && fullJid == old(fullJid)
    {
      Jids.MakeNormal(l, d, r);
      hide Jids.IsNormal;
      var domain := ParsePart(d, true, false);
      var local := ParsePart(l, true, true);
      var resource := ParsePart(r, false, true);
      if domain.MalformedJid? || local.MalformedJid? || resource.MalformedJid? { return false; }
      domainPart, localPart, resourcePart := domain.value, local.value, resource.value;
      ok := RebuildCachedFullJid();
    }

    /** The constructor from a string. */
    method ParseFullJid(s: string) returns (ok: bool)
      modifies this
      ensures ok <==> Jids.Parse(s).Ok?
      ensures ok ==> Valid() && Contents() == Jids.Parse(s).value
      ensures !ok ==> Contents() == old(Contents()) && fullJid == old(fullJid)
    {
      hide Jids.Make, Jids.IsNormal, Jids.Print;
      var trimmed := TrimBoth(s);
      if trimmed == "" { return false; }
      var bare, resource, local, domain := trimmed, "", "", "";
      var slash := FindFirst(trimmed, '/');
      if slash < |trimmed| {
        resource := trimmed[slash + 1..];
        bare := trimmed[..slash];
      }
      assert bare == Jids.BareOf(trimmed);
      var at := FindFirst(bare, '@');
      if at < |bare| {
        local, domain := bare[..at], bare[at + 1..];
      } else {
        domain := bare;
      }
      assert Jids.Cut(trimmed) == Jids.Jid(local, domain, resource);
      ok := Assemble(local, domain, resource);
    }

    method ToBareJid() returns (bare: Jid)
      requires Valid()
      ensures fresh(bare) && bare.Valid()
      ensures bare.Contents() == Jids.Jid(localPart, domainPart, "")
    {
      bare := new Jid();
      Jids.BareIsCut(Contents());
      var ok := bare.Assemble(localPart, domainPart, "");
    }
  }
}
