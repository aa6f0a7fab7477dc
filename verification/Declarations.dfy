/** XML declarations: which attributes are accepted, what is printed, and how it is read back. */
module Declarations {
  import opened Characters
  import opened Sequences
  import opened Tokens
  import opened Machine
  import opened Grammar
  import opened Recognition
  import opened XmlTree
  import opened RoundTrip

  predicate IsEncodingName(s: string) {
    s != "" && IsLetter(s[0]) &&
    forall i | 0 <= i < |s| :: IsLetter(s[i]) || IsDigit(s[i]) || s[i] == '.' || s[i] == '_' || s[i] == '-'
  }

  /** The pairs `setAttribute` stores; it throws on any other. */
  predicate Accepts(key: string, value: string) {
    if key == "version" then value == "1.0" || value == "1.1"
    else if key == "encoding" then IsEncodingName(value)
    else if key == "standalone" then value == "yes" || value == "no"
    else false
  }

  predicate ValidDeclaration(attributes: map<string, string>) {
    forall k | k in attributes :: Accepts(k, attributes[k])
  }

  /** One call: a rejected pair changes nothing. */
  function SetAttribute(attributes: map<string, string>, key: string, value: string): map<string, string> {
    if Accepts(key, value) then attributes[key := value] else attributes
  }

  function SetAll(attributes: map<string, string>, calls: seq<(string, string)>): map<string, string>
    decreases |calls|
  {
    if calls == [] then attributes
    else SetAll(SetAttribute(attributes, calls[0].0, calls[0].1), calls[1..])
  }

  lemma {:induction false} SetAllValid(attributes: map<string, string>, calls: seq<(string, string)>)
    requires ValidDeclaration(attributes)
    ensures ValidDeclaration(SetAll(attributes, calls))
    decreases |calls|
  {
    if calls != [] {
      SetAllValid(SetAttribute(attributes, calls[0].0, calls[0].1), calls[1..]);
    }
  }

  /** The base class's checks never reject what the declaration's own checks let through. */
  lemma AcceptedPassesBase(key: string, value: string)
    requires Accepts(key, value)
    ensures IsXmlName(key) && IsCharacterData(value)
  {}

  /** The pairs a declaration takes, by their bytes. */
  lemma DeclarationPairs(value: string)
    ensures Accepts("version", value) <==> value == "1.0" || value == "1.1"
    ensures Accepts("standalone", value) <==> value == "yes" || value == "no"
    ensures Accepts("encoding", value) <==>
            && value != "" && ('A' <= value[0] <= 'Z' || 'a' <= value[0] <= 'z')
            && forall c | c in value ::
                 || 'A' <= c <= 'Z' || 'a' <= c <= 'z' || '0' <= c <= '9' || c == '.' || c == '_' || c == '-'
    ensures Accepts("encoding", "UTF-8")
    ensures forall key | key != "version" && key != "standalone" && key != "encoding" :: !Accepts(key, value)
  {
    assert forall i | 0 <= i < |value| :: value[i] in value;
  }

  /** What a declaration with all three is written as. */
  lemma DeclarationBytes(version: string, encoding: string, standalone: string)
    ensures SerializeDeclaration(map["version" := version, "encoding" := encoding, "standalone" := standalone]) ==
            "<?xml" + (" version=\"" + version + "\"") + (" encoding=\"" + encoding + "\"") +
            (" standalone=\"" + standalone + "\"") + "?>"
  {
    assert " " + "version" + "=\"" == " version=\"";
    assert " " + "encoding" + "=\"" == " encoding=\"";
    assert " " + "standalone" + "=\"" == " standalone=\"";
  }

  function Written(key: string, value: string): string {
    " " + key + "=\"" + value + "\""
  }

  function WrittenIfSet(attributes: map<string, string>, key: string): string {
    if key in attributes then Written(key, attributes[key]) else ""
  }

  /** The fixed order is version, encoding, standalone, whatever order they were set in. */
  function SerializeDeclaration(attributes: map<string, string>): string
    requires "version" in attributes
  {
    "<?xml" + WrittenIfSet(attributes, "version") + WrittenIfSet(attributes, "encoding")
    + WrittenIfSet(attributes, "standalone") + "?>"
  }

  // ----- reading it back

  function Plain(key: string, value: string): Attribute {
    Attribute(" ", key, "", "", '"', value)
  }

  function OptionalAttribute(attributes: map<string, string>, key: string): seq<Attribute> {
    if key in attributes then [Plain(key, attributes[key])] else []
  }

  function DeclarationAttributes(attributes: map<string, string>): seq<Attribute> {
    OptionalAttribute(attributes, "version") + OptionalAttribute(attributes, "encoding")
    + OptionalAttribute(attributes, "standalone")
  }

  function DeclarationMarkup(attributes: map<string, string>): Markup {
    Element(Head(true, "xml", DeclarationAttributes(attributes)), "", false)
  }

  lemma PlainText(key: string, value: string)
    ensures AttributeText(Plain(key, value)) == Written(key, value)
  {
    var t := " " + key;
    assert t + "" == t && t + "=" + "" == t + "=";
    assert t + "=" + ['"'] == t + "=\"";
  }

  lemma OptionalText(before: seq<Attribute>, attributes: map<string, string>, key: string)
    ensures AttributesText(before + OptionalAttribute(attributes, key)) ==
            AttributesText(before) + WrittenIfSet(attributes, key)
  {
    if key in attributes {
      PlainText(key, attributes[key]);
      AttributesSnoc(before, Plain(key, attributes[key]));
    } else {
      assert before + [] == before;
    }
  }

  lemma DeclarationText(attributes: map<string, string>)
    requires "version" in attributes
    ensures MarkupText(DeclarationMarkup(attributes)) == SerializeDeclaration(attributes)
  {
    var first, second := OptionalAttribute(attributes, "version"), OptionalAttribute(attributes, "encoding");
    OptionalText([], attributes, "version");
    assert [] + first == first;
    OptionalText(first, attributes, "encoding");
    OptionalText(first + second, attributes, "standalone");
    assert "<?" + "xml" == "<?xml";
    var v, e, s :=
      WrittenIfSet(attributes, "version"), WrittenIfSet(attributes, "encoding"), WrittenIfSet(attributes, "standalone");
    assert AttributesText(DeclarationAttributes(attributes)) == "" + v + e + s;
    hide WrittenIfSet, OptionalAttribute, AttributesText, DeclarationAttributes;
    Flat("<?xml", v, e, s);
    assert "<?xml" + ("" + v + e + s) + "" == "<?xml" + ("" + v + e + s);
  }

  lemma Flat(a: string, b: string, c: string, d: string)
    ensures a + ("" + b + c + d) == a + b + c + d
  {}

  /** The entries of `attributes` whose names are among `keys`. */
  function Only(attributes: map<string, string>, keys: set<string>): map<string, string> {
    map k | k in keys && k in attributes :: attributes[k]
  }

  lemma OptionalMap(before: seq<Attribute>, attributes: map<string, string>, keys: set<string>, key: string)
    requires AttributeMap(before) == Only(attributes, keys)
    ensures AttributeMap(before + OptionalAttribute(attributes, key)) == Only(attributes, keys + {key})
  {
    if key in attributes {
      AttributesSnoc(before, Plain(key, attributes[key]));
    } else {
      assert before + [] == before;
    }
  }

  lemma DeclarationMap(attributes: map<string, string>)
    requires ValidDeclaration(attributes)
    ensures AttributeMap(DeclarationAttributes(attributes)) == attributes
  {
    var first, second := OptionalAttribute(attributes, "version"), OptionalAttribute(attributes, "encoding");
    assert [] + first == first;
    OptionalMap([], attributes, {}, "version");
    OptionalMap(first, attributes, {} + {"version"}, "encoding");
    OptionalMap(first + second, attributes, {} + {"version"} + {"encoding"}, "standalone");
    hide AttributeMap, OptionalAttribute;
    assert Only(attributes, {} + {"version"} + {"encoding"} + {"standalone"}) == attributes by {
      assert forall k | k in attributes :: Accepts(k, attributes[k]);
    }
  }

  predicate FitsDeclaration(max: Limit, attributes: map<string, string>) {
    forall k | k in attributes :: |k| <= max && |attributes[k]| <= max
  }

  lemma PlainValid(max: Limit, key: string, value: string)
    requires Accepts(key, value)
    ensures ValidAttribute(max, Plain(key, value)) <==> |key| <= max && |value| <= max
  {
    assert AllName(key) && AllSpace(" ") && AllSpace("");
    assert '"' !in value;
  }

  lemma OptionalValid(max: Limit, attributes: map<string, string>, key: string)
    requires ValidDeclaration(attributes)
    ensures (forall a | a in OptionalAttribute(attributes, key) :: a.before == " ")
    ensures (forall a | a in OptionalAttribute(attributes, key) :: ValidAttribute(max, a)) <==>
            (key in attributes ==> |key| <= max && |attributes[key]| <= max)
  {
    if key in attributes {
      PlainValid(max, key, attributes[key]);
      assert Plain(key, attributes[key]) in OptionalAttribute(attributes, key);
    }
    hide ValidAttribute;
  }

  lemma DeclarationValid(max: Limit, attributes: map<string, string>)
    requires ValidDeclaration(attributes)
    ensures ValidMarkup(max, DeclarationMarkup(attributes)) <==> FitsDeclaration(max, attributes)
  {
    OptionalValid(max, attributes, "version");
    OptionalValid(max, attributes, "encoding");
    OptionalValid(max, attributes, "standalone");
    OnlyThreeKeys(attributes);
    assert ValidName(max, "xml") && AllSpace("");
    var as' := DeclarationAttributes(attributes);
    hide ValidName, ValidAttribute, OptionalAttribute, Accepts, ValidDeclaration;
    assert (forall i | 0 <= i < |as'| :: ValidAttribute(max, as'[i])) <==>
           (forall a | a in as' :: ValidAttribute(max, a));
  }

  lemma OnlyThreeKeys(attributes: map<string, string>)
    requires ValidDeclaration(attributes)
    ensures forall k | k in attributes :: k == "version" || k == "encoding" || k == "standalone"
  {
    assert forall k | k in attributes :: Accepts(k, attributes[k]);
  }

  function DeclarationDocument(attributes: map<string, string>): Document {
    Document([Item("", DeclarationMarkup(attributes))], "")
  }

  lemma DocumentOfDeclaration(max: Limit, attributes: map<string, string>)
    requires ValidDeclaration(attributes) && "version" in attributes
    ensures var d := DeclarationDocument(attributes);
            && DocumentText(d) == SerializeDeclaration(attributes)
            && DocumentTokens(max, d) == [XmlToken(TokenType.Declaration, "xml", attributes)]
            && (ValidDocument(max, d) <==> FitsDeclaration(max, attributes))
  {
    DeclarationText(attributes);
    DeclarationMap(attributes);
    DeclarationValid(max, attributes);
    LoneMarkup(max, DeclarationMarkup(attributes));
    hide DocumentText, DocumentTokens, ValidDocument, ValidMarkup, MarkupText, FitsDeclaration, DeclarationAttributes;
  }

  /**
   * Declaration round trip. Whatever calls built it, a declaration with a version is read back as
   * one DECLARATION token named `xml` whose attributes are exactly those stored, and it is rejected
   * exactly when a stored name or value exceeds the buffer.
   */
  lemma DeclarationRoundTrip(max: Limit, calls: seq<(string, string)>)
    requires "version" in SetAll(map[], calls)
    ensures var attributes := SetAll(map[], calls);
            var m := Run(max, START, SerializeDeclaration(attributes));
            && (m.error == NoError <==> FitsDeclaration(max, attributes))
            && (m.error == NoError ==>
                  m.tokens == [XmlToken(TokenType.Declaration, "xml", attributes)] && m.state == State.Text)
  {
    var attributes := SetAll(map[], calls);
    SetAllValid(map[], calls);
    var w := SerializeDeclaration(attributes);
    var d, large := DeclarationDocument(attributes), max + |w|;
    ValuesFit(large, attributes, w);
    hide SetAll, ValidDeclaration, SerializeDeclaration, DeclarationDocument, DocumentText, DocumentTokens,
      FitsDeclaration, Run;
    DocumentOfDeclaration(max, attributes);
    DocumentOfDeclaration(large, attributes);
    ReadIffLegal(max, large, d);
    if ValidDocument(max, d) {
      DocumentRun(max, d);
    }
  }

  lemma ValuesFit(max: Limit, attributes: map<string, string>, w: string)
    requires ValidDeclaration(attributes) && "version" in attributes && w == SerializeDeclaration(attributes)
    requires |w| <= max
    ensures FitsDeclaration(max, attributes)
  {}
}
