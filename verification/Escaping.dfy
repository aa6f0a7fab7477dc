/** Character escaping on output, and the reference expansion of XML 1.0 sections 4.1 and 4.6. */
module Escaping {
  import opened Sequences

  function TextEscape(c: char): (r: string)
    ensures '<' !in r && r != ""
  {
    if c == '<' then "&lt;"
    else if c == '>' then "&gt;"
    else if c == '&' then "&amp;"
    else [c]
  }

  function EscapeText(s: string): (r: string)
    ensures '<' !in r && |r| >= |s|
  {
    if s == "" then "" else TextEscape(s[0]) + EscapeText(s[1..])
  }

  function AttributeEscape(c: char): (r: string)
    ensures '"' !in r && r != ""
  {
    if c == '"' then "&quot;"
    else if c == '&' then "&amp;"
    else if c == '<' then "&lt;"
    else if c == '\t' then "&#x9;"
    else if c == '\n' then "&#xA;"
    else if c == '\r' then "&#xD;"
    else [c]
  }

  function EscapeAttribute(s: string): (r: string)
    ensures '"' !in r && |r| >= |s|
  {
    if s == "" then "" else AttributeEscape(s[0]) + EscapeAttribute(s[1..])
  }

  // ----- what a reader of the XML sees

  datatype Reference = Known(c: char) | Unknown

  function DigitValue(c: char): nat {
    if '0' <= c <= '9' then (c - '0') as nat
    else if 'a' <= c <= 'f' then (c - 'a') as nat + 10
    else if 'A' <= c <= 'F' then (c - 'A') as nat + 10
    else 16
  }

  predicate IsNumber(s: string, base: nat) {
    s != "" && forall i | 0 <= i < |s| :: DigitValue(s[i]) < base
  }

  function NumberValue(s: string, base: nat): nat {
    if s == "" then 0 else NumberValue(s[..|s| - 1], base) * base + DigitValue(s[|s| - 1])
  }

  function CodePoint(n: nat): Reference {
    if n < 0xD800 || 0xE000 <= n < 0x11_0000 then Known(n as char) else Unknown
  }

  /** What stands between `&` and `;`: a predefined entity or a character number. */
  function Resolve(name: string): Reference {
    if name == "lt" then Known('<')
    else if name == "gt" then Known('>')
    else if name == "amp" then Known('&')
    else if name == "apos" then Known('\'')
    else if name == "quot" then Known('"')
    else if |name| > 2 && name[..2] == "#x" && IsNumber(name[2..], 16) then CodePoint(NumberValue(name[2..], 16))
    else if |name| > 1 && name[..1] == "#" && IsNumber(name[1..], 10) then CodePoint(NumberValue(name[1..], 10))
    else Unknown
  }

  /** Replace every reference by the character it names; anything else stays. */
  function Expand(s: string): string
    decreases |s|
  {
    if s == "" then ""
    else
      var n := IndexOf(s, ';');
      if s[0] == '&' && n < |s| && Resolve(s[1..n]).Known? then [Resolve(s[1..n]).c] + Expand(s[n + 1..])
      else [s[0]] + Expand(s[1..])
  }

  lemma ExpandReference(name: string, rest: string)
    requires ';' !in name && Resolve(name).Known?
    ensures Expand("&" + name + ";" + rest) == [Resolve(name).c] + Expand(rest)
  {
    var s := "&" + name + ";" + rest;
    assert s == ("&" + name) + [';'] + rest;
    IndexOfFirst("&" + name, ';', rest);
    assert s[1..|name| + 1] == name;
    assert s[|name| + 2..] == rest;
  }

  lemma Numbers()
    ensures Resolve("#x9") == Known('\t') && Resolve("#xA") == Known('\n') && Resolve("#xD") == Known('\r')
  {
    assert "#x9"[2..] == "9" && "#xA"[2..] == "A" && "#xD"[2..] == "D";
    assert "#x9"[..2] == "#x" && "#xA"[..2] == "#x" && "#xD"[..2] == "#x";
    assert NumberValue("9"[..0], 16) == 0 && NumberValue("A"[..0], 16) == 0 && NumberValue("D"[..0], 16) == 0;
    assert NumberValue("9", 16) == 9 && NumberValue("A", 16) == 10 && NumberValue("D", 16) == 13;
  }

  lemma ExpandTextEscape(c: char, rest: string)
    ensures Expand(TextEscape(c) + rest) == [c] + Expand(rest)
  {
    var name := if c == '<' then "lt" else if c == '>' then "gt" else "amp";
    if c == '<' || c == '>' || c == '&' {
      ExpandReference(name, rest);
      assert TextEscape(c) == "&" + name + ";";
    } else {
      assert ([c] + rest)[1..] == rest;
    }
  }

  lemma EscapeName(c: char) returns (name: string)
    requires c == '"' || c == '&' || c == '<' || c == '\t' || c == '\n' || c == '\r'
    ensures AttributeEscape(c) == "&" + name + ";" && Resolve(name) == Known(c) && ';' !in name
  {
    Numbers();
    name := if c == '"' then "quot" else if c == '&' then "amp" else if c == '<' then "lt"
    else if c == '\t' then "#x9" else if c == '\n' then "#xA" else "#xD";
  }

  lemma ExpandAttributeEscape(c: char, rest: string)
    ensures Expand(AttributeEscape(c) + rest) == [c] + Expand(rest)
  {
    if c == '"' || c == '&' || c == '<' || c == '\t' || c == '\n' || c == '\r' {
      var name := EscapeName(c);
      assert AttributeEscape(c) == "&" + name + ";";
      hide Resolve, AttributeEscape;
      ExpandReference(name, rest);
    } else {
      assert ([c] + rest)[1..] == rest;
    }
  }

  /** Reference expansion inverts text escaping. */
  lemma {:induction false} ExpandEscapedText(s: string)
    ensures Expand(EscapeText(s)) == s
  {
    if s != "" {
      ExpandTextEscape(s[0], EscapeText(s[1..]));
      ExpandEscapedText(s[1..]);
    }
  }

  /** Reference expansion inverts attribute escaping. */
  lemma {:induction false} ExpandEscapedAttribute(s: string)
    ensures Expand(EscapeAttribute(s)) == s
  {
    if s != "" {
      ExpandAttributeEscape(s[0], EscapeAttribute(s[1..]));
      ExpandEscapedAttribute(s[1..]);
    }
  }

  lemma {:induction false} EscapeTextConcat(a: string, b: string)
    ensures EscapeText(a + b) == EscapeText(a) + EscapeText(b)
  {
    if a == "" {
      assert a + b == b;
    } else {
      assert (a + b)[1..] == a[1..] + b;
      EscapeTextConcat(a[1..], b);
    }
  }

  lemma EscapeTextSnoc(s: string, c: char)
    ensures EscapeText(s + [c]) == EscapeText(s) + TextEscape(c)
  {
    EscapeTextConcat(s, [c]);
    assert EscapeText([c]) == TextEscape(c) + EscapeText([c][1..]);
  }

  lemma {:induction false} EscapeAttributeSnoc(s: string, c: char)
    ensures EscapeAttribute(s + [c]) == EscapeAttribute(s) + AttributeEscape(c)
  {
    if s == "" {
      assert s + [c] == [c];
    } else {
      assert (s + [c])[1..] == s[1..] + [c];
      EscapeAttributeSnoc(s[1..], c);
    }
  }

  /** Each character that is escaped, and its escape; nothing else changes. */
  lemma Escapes(c: char)
    ensures EscapeText("<") == "&lt;" && EscapeText(">") == "&gt;" && EscapeText("&") == "&amp;"
    ensures c != '<' && c != '>' && c != '&' ==> EscapeText([c]) == [c]
    ensures EscapeAttribute("<") == "&lt;" && EscapeAttribute("&") == "&amp;" && EscapeAttribute("\"") == "&quot;"
    ensures EscapeAttribute("\t") == "&#x9;" && EscapeAttribute("\n") == "&#xA;" && EscapeAttribute("\r") == "&#xD;"
    ensures c != '<' && c != '&' && c != '"' && c != '\t' && c != '\n' && c != '\r' ==> EscapeAttribute([c]) == [c]
  {
    forall d: char
      ensures EscapeText([d]) == TextEscape(d) && EscapeAttribute([d]) == AttributeEscape(d)
    {
      OneEscape(d);
    }
    hide EscapeText, EscapeAttribute;
    assert EscapeText(['<']) == "&lt;" && EscapeText(['>']) == "&gt;" && EscapeText(['&']) == "&amp;";
    assert EscapeAttribute(['<']) == "&lt;" && EscapeAttribute(['&']) == "&amp;" && EscapeAttribute(['"']) == "&quot;";
    assert EscapeAttribute(['\t']) == "&#x9;" && EscapeAttribute(['\n']) == "&#xA;";
    assert EscapeAttribute(['\r']) == "&#xD;";
  }

  lemma OneEscape(d: char)
    ensures EscapeText([d]) == TextEscape(d) && EscapeAttribute([d]) == AttributeEscape(d)
  {
    assert [d][1..] == "" && TextEscape(d) + "" == TextEscape(d) && AttributeEscape(d) + "" == AttributeEscape(d);
  }

  lemma {:induction false} EscapeAttributeConcat(a: string, b: string)
    ensures EscapeAttribute(a + b) == EscapeAttribute(a) + EscapeAttribute(b)
  {
    if a == "" {
      assert a + b == b;
    } else {
      assert (a + b)[1..] == a[1..] + b;
      EscapeAttributeConcat(a[1..], b);
    }
  }
}
