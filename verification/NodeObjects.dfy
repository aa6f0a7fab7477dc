/** The parts of the node classes that change in place: text content, attributes, declarations. */
module NodeObjects {
  import opened Options
  import opened Sequences
  import opened Escaping
  import opened XmlTree
  import Declarations

  /** Why a setter threw. */
  datatype SetResult = Stored | InvalidName | InvalidValue

  // ----- writing to the end of a stream

  method WriteTextCharacter(os: string, c: char) returns (r: string)
    ensures r == os + TextEscape(c)
  {
    if c == '<' {
      r := os + "&lt;";
    } else if c == '>' {
      r := os + "&gt;";
    } else if c == '&' {
      r := os + "&amp;";
    } else {
      r := os + [c];
    }
  }

  method WriteText(os: string, content: string) returns (r: string)
    ensures r == os + EscapeText(content)
  {
    r := os;
    for i := 0 to |content|
      invariant r == os + EscapeText(content[..i])
    {
      EscapeTextSnoc(content[..i], content[i]);
      assert content[..i + 1] == content[..i] + [content[i]];
      Associate(os, EscapeText(content[..i]), TextEscape(content[i]));
      hide EscapeText, TextEscape;
      r := WriteTextCharacter(r, content[i]);
    }
    assert content[..|content|] == content;
  }

  method WriteAttributeCharacter(os: string, c: char) returns (r: string)
    ensures r == os + AttributeEscape(c)
  {
    if c == '"' {
      r := os + "&quot;";
    } else if c == '&' {
      r := os + "&amp;";
    } else if c == '<' {
      r := os + "&lt;";
    } else if c == '\t' {
      r := os + "&#x9;";
    } else if c == '\n' {
      r := os + "&#xA;";
    } else if c == '\r' {
      r := os + "&#xD;";
    } else {
      r := os + [c];
    }
  }

  method WriteAttributeValue(os: string, value: string) returns (r: string)
    ensures r == os + EscapeAttribute(value)
  {
    r := os;
    for i := 0 to |value|
      invariant r == os + EscapeAttribute(value[..i])
    {
      EscapeAttributeSnoc(value[..i], value[i]);
      assert value[..i + 1] == value[..i] + [value[i]];
      Associate(os, EscapeAttribute(value[..i]), AttributeEscape(value[i]));
      hide EscapeAttribute, AttributeEscape;
      r := WriteAttributeCharacter(r, value[i]);
    }
    assert value[..|value|] == value;
  }

  lemma Regroup(a: string, b: string, c: string, d: string)
    ensures a + b + c + d == a + (b + c + d)
  {}

  /** One attribute, its value escaped character by character. */
  method WriteAttribute(os: string, key: string, value: string) returns (r: string)
    ensures r == os + SerializeAttribute(key, value)
  {
    var opening := " " + key + "=\"";
    r := WriteAttributeValue(os + opening, value);
    r := r + "\"";
    hide EscapeAttribute;
    Regroup(os, opening, EscapeAttribute(value), "\"");
  }

  method WriteAttributes(os: string, attributes: map<string, string>) returns (r: string)
    ensures r == os + SerializeAttributes(attributes)
  {
    r := os;
    var rest := attributes.Keys;
    ghost var done: seq<string> := [];
    while rest != {}
      invariant rest <= attributes.Keys
      invariant done + SortedKeys(rest) == SortedKeys(attributes.Keys)
      invariant forall k | k in done :: k in attributes
      invariant r == os + SerializeKeys(attributes, done)
      decreases rest
    {
      FirstExists(rest);
      var key :| key in rest && forall k | k in rest :: Before(key, k);
      NextKey(attributes, done, rest, key);
      hide SerializeAttribute, SerializeKeys, SortedKeys, Before;
      Associate(os, SerializeKeys(attributes, done), SerializeAttribute(key, attributes[key]));
      r := WriteAttribute(r, key, attributes[key]);
      done := done + [key];
      rest := rest - {key};
    }
    assert done + [] == done;
  }

  /** `serialize` of a tag node and of a text node. */
  method WriteNode(os: string, n: Node) returns (r: string)
    ensures r == os + Serialize(n)
    decreases n, 1
  {
    match n
    case TextNode(content) =>
      r := WriteText(os, content);
    case TagNode(name, attributes, children) =>
      r := WriteAttributes(os + ("<" + name), attributes);
      Associate(os, "<" + name, SerializeAttributes(attributes));
      ghost var opening := "<" + name + SerializeAttributes(attributes);
      hide SerializeAttributes;
      if children == [] {
        r := r + "/>";
        return;
      }
      r := WriteNodes(r + ">", children);
      r := r + ("</" + name + ">");
      hide SerializeAll;
      Tag(os, opening, SerializeAll(children), "</" + name + ">");
  }

  lemma Tag(os: string, opening: string, children: string, close: string)
    ensures os + opening + ">" + children + close == os + (opening + ">" + children + close)
  {}

  /** `serialize` of a container: its children in order. */
  method WriteNodes(os: string, ns: seq<Node>) returns (r: string)
    ensures r == os + SerializeAll(ns)
    decreases ns, 0
  {
    r := os;
    var i := 0;
    assert ns[0..] == ns;
    while i < |ns|
      invariant 0 <= i <= |ns|
      invariant r + SerializeAll(ns[i..]) == os + SerializeAll(ns)
    {
      assert ns[i..][1..] == ns[i + 1..];
      ghost var before := r;
      hide Serialize;
      r := WriteNode(r, ns[i]);
      Associate(before, Serialize(ns[i]), SerializeAll(ns[i + 1..]));
      i := i + 1;
    }
  }

  class TextContent {
    var content: string

    ghost predicate Valid()
      reads this
    {
      IsCharacterData(content)
    }

    /** Throws, and builds nothing, on character data XML forbids. */
    static method Create(content: string) returns (r: Option<TextContent>)
      ensures r.Some? <==> IsCharacterData(content)
      ensures r.Some? ==> fresh(r.value) && r.value.Valid() && r.value.content == content
    {
      if !IsCharacterData(content) { return None; }
      var node := new TextContent(content);
      r := Some(node);
    }

    constructor (content: string)
      requires IsCharacterData(content)
      ensures Valid() && this.content == content
    {
      this.content := content;
    }

    method SetContent(text: string) returns (r: SetResult)
      requires Valid()
      modifies this
      ensures Valid()
      ensures r == (if IsCharacterData(text) then Stored else InvalidValue)
      ensures content == if r == Stored then text else old(content)
    {
      if !IsCharacterData(text) { return InvalidValue; }
      content := text;
      r := Stored;
    }

    method Append(text: string) returns (r: SetResult)
      requires Valid()
      modifies this
      ensures Valid()
      ensures r == (if IsCharacterData(text) then Stored else InvalidValue)
      ensures content == if r == Stored then old(content) + text else old(content)
    {
      if !IsCharacterData(text) { return InvalidValue; }
      content := content + text;
      r := Stored;
    }

    /** Writes to the end of `os`. */
    method Serialize(os: string) returns (r: string)
      ensures r == os + EscapeText(content)
    {
      r := WriteText(os, content);
    }
  }

  // ----- editing attributes

  datatype Edit = SetTo(key: string, value: string) | Remove(key: string)

  predicate IsAccepted(e: Edit) {
    e.SetTo? ==> IsXmlName(e.key) && IsCharacterData(e.value)
  }

  function ApplyEdit(attributes: map<string, string>, e: Edit): map<string, string> {
    if !IsAccepted(e) then attributes
    else
      match e
      case SetTo(key, value) => attributes[key := value]
      case Remove(key) => attributes - {key}
  }

  /** The attributes of a node after a sequence of calls. */
  function Edited(edits: seq<Edit>): map<string, string> {
    if edits == [] then map[] else ApplyEdit(Edited(edits[..|edits| - 1]), edits[|edits| - 1])
  }

  predicate Touches(e: Edit, key: string) {
    IsAccepted(e) && e.key == key
  }

  /** The last accepted edit of `key`. */
  predicate IsLastEdit(edits: seq<Edit>, key: string, i: nat) {
    i < |edits| && Touches(edits[i], key) && forall k | i < k < |edits| :: !Touches(edits[k], key)
  }

  lemma LastEditSnoc(edits: seq<Edit>, e: Edit, key: string, i: nat)
    ensures IsLastEdit(edits + [e], key, i) <==>
            if Touches(e, key) then i == |edits| else IsLastEdit(edits, key, i)
  {
    var all := edits + [e];
    assert forall k | 0 <= k < |edits| :: all[k] == edits[k];
    assert all[|edits|] == e;
    hide Touches;
  }

  /** Whatever calls are made, a key has the value of its last accepted edit, if that set one. */
  lemma {:induction false} LookupIsLastEdit(edits: seq<Edit>, key: string, value: string)
    ensures ValidAttributes(Edited(edits))
    ensures key in Edited(edits) && Edited(edits)[key] == value <==>
            exists i: nat :: IsLastEdit(edits, key, i) && edits[i] == SetTo(key, value)
    decreases |edits|
  {
    if edits != [] {
      var front, e := edits[..|edits| - 1], edits[|edits| - 1];
      LookupIsLastEdit(front, key, value);
      assert edits == front + [e];
      forall i: nat
        ensures IsLastEdit(edits, key, i) <==> if Touches(e, key) then i == |front| else IsLastEdit(front, key, i)
      {
        LastEditSnoc(front, e, key, i);
      }
      if Touches(e, key) {
        assert IsLastEdit(edits, key, |front|);
      } else {
        assert forall i: nat | IsLastEdit(front, key, i) :: edits[i] == front[i];
      }
      hide IsLastEdit, IsXmlName, IsCharacterData;
    }
  }

  class Attributes {
    var attributes: map<string, string>

    ghost predicate Valid()
      reads this
    {
      ValidAttributes(attributes)
    }

    constructor ()
      ensures Valid() && attributes == map[]
    {
      attributes := map[];
    }

    /** The name is checked before the value. */
    method SetAttribute(key: string, value: string) returns (r: SetResult)
      requires Valid()
      modifies this
      ensures Valid()
      ensures r == (if !IsXmlName(key) then InvalidName else if !IsCharacterData(value) then InvalidValue else Stored)
      ensures attributes == ApplyEdit(old(attributes), SetTo(key, value))
    {
      if !IsXmlName(key) { return InvalidName; }
      if !IsCharacterData(value) { return InvalidValue; }
      attributes := attributes[key := value];
      r := Stored;
    }

    method GetAttribute(key: string) returns (r: Option<string>)
      ensures r == if key in attributes then Some(attributes[key]) else None
    {
      r := if key in attributes then Some(attributes[key]) else None;
    }

    method RemoveAttribute(key: string) returns (r: Option<string>)
      requires Valid()
      modifies this
      ensures Valid()
      ensures r == if key in old(attributes) then Some(old(attributes)[key]) else None
      ensures attributes == ApplyEdit(old(attributes), Remove(key)) == old(attributes) - {key}
    {
      if key !in attributes {
        r := None;
      } else {
        r := Some(attributes[key]);
        attributes := attributes - {key};
      }
    }

    /** Writes the attributes in key order, as iterating the ordered map does. */
    method Serialize(os: string) returns (r: string)
      ensures r == os + SerializeAttributes(attributes)
    {
      r := WriteAttributes(os, attributes);
    }
  }

  lemma NextKey(attributes: map<string, string>, done: seq<string>, rest: set<string>, key: string)
    requires IsFirst(key, rest) && rest <= attributes.Keys && forall k | k in done :: k in attributes
    ensures done + [key] + SortedKeys(rest - {key}) == done + SortedKeys(rest)
    ensures SerializeKeys(attributes, done + [key]) ==
            SerializeKeys(attributes, done) + SerializeAttribute(key, attributes[key])
  {
    BeforeTotal(key, FirstKey(rest));
    Associate(done, [key], SortedKeys(rest - {key}));
    assert (done + [key])[..|done|] == done;
  }

  /** A tag node under construction: its attributes are set and fresh children appended in place. */
  class Element {
    const name: string
    var attributes: map<string, string>
    var children: seq<Node>

    function Contents(): Node
      reads this
    {
      Node.TagNode(name, attributes, children)
    }

    ghost predicate Valid()
      reads this
    {
      ValidNode(Contents())
    }

    static method Create(name: string) returns (r: Option<Element>)
      ensures r.Some? <==> IsXmlName(name)
      ensures r.Some? ==> fresh(r.value) && r.value.Valid() && r.value.Contents() == Node.TagNode(name, map[], [])
    {
      if !IsXmlName(name) { return None; }
      var node := new Element(name);
      r := Some(node);
    }

    constructor (name: string)
      requires IsXmlName(name)
      ensures Valid() && Contents() == Node.TagNode(name, map[], [])
    {
      this.name, attributes, children := name, map[], [];
    }

    /** A node for an empty tag: each of the token's attributes is set, in some order, until one is refused. */
    static method OfToken(name: string, values: map<string, string>) returns (r: Option<Element>)
      ensures r.Some? <==> IsXmlName(name) && ValidAttributes(values)
      ensures r.Some? ==> fresh(r.value) && r.value.Valid() && r.value.Contents() == Node.TagNode(name, values, [])
    {
      hide IsXmlName, IsCharacterData;
      r := Create(name);
      if r.None? { return; }
      var node := r.value;
      var rest := values.Keys;
      while rest != {}
        invariant rest <= values.Keys && node.Valid() && node.children == []
        invariant node.attributes == map k | k in values && k !in rest :: values[k]
        decreases rest
      {
        var key :| key in rest;
        var stored := node.Set(key, values[key]);
        if stored != Stored { return None; }
        rest := rest - {key};
      }
      assert node.attributes == values;
    }

    method Set(key: string, value: string) returns (r: SetResult)
      requires Valid()
      modifies this`attributes
      ensures Valid()
      ensures r == (if !IsXmlName(key) then InvalidName else if !IsCharacterData(value) then InvalidValue else Stored)
      ensures attributes == ApplyEdit(old(attributes), SetTo(key, value))
    {
      if !IsXmlName(key) { return InvalidName; }
      if !IsCharacterData(value) { return InvalidValue; }
      attributes := attributes[key := value];
      r := Stored;
    }

    /** A fresh text node goes to the end, unless its text is refused. */
    method AppendText(text: string) returns (r: SetResult)
      requires Valid()
      modifies this`children
      ensures Valid()
      ensures r == (if IsCharacterData(text) then Stored else InvalidValue)
      ensures children == if r == Stored then old(children) + [Node.TextNode(text)] else old(children)
    {
      if !IsCharacterData(text) { return InvalidValue; }
      children := children + [Node.TextNode(text)];
      r := Stored;
    }

    /** Appends a tag node that its own consumer has finished building. */
    method AppendTag(child: Element)
      requires Valid() && child.Valid() && child != this
      modifies this`children
      ensures Valid() && children == old(children) + [child.Contents()]
    {
      children := children + [child.Contents()];
    }

    method Serialize(os: string) returns (r: string)
      ensures r == os + XmlTree.Serialize(Contents())
    {
      r := WriteNode(os, Contents());
    }
  }

  class DeclarationNode {
    var attributes: map<string, string>

    ghost predicate Valid()
      reads this
    {
      Declarations.ValidDeclaration(attributes)
    }

    /** The tag name of a declaration must be `xml`. */
    static method Create(name: string) returns (r: Option<DeclarationNode>)
      ensures r.Some? <==> name == "xml"
      ensures r.Some? ==> fresh(r.value) && r.value.Valid() && r.value.attributes == map[]
    {
      if name != "xml" { return None; }
      var node := new DeclarationNode();
      r := Some(node);
    }

    constructor ()
      ensures Valid() && attributes == map[]
    {
      attributes := map[];
    }

    method SetAttribute(key: string, value: string) returns (accepted: bool)
      requires Valid()
      modifies this
      ensures Valid()
      ensures accepted == Declarations.Accepts(key, value)
      ensures attributes == Declarations.SetAttribute(old(attributes), key, value)
    {
      if key == "version" {
        if value != "1.0" && value != "1.1" { return false; }
      } else if key == "encoding" {
        if !Declarations.IsEncodingName(value) { return false; }
      } else if key == "standalone" {
        if value != "yes" && value != "no" { return false; }
      } else {
        return false;
      }
      Declarations.AcceptedPassesBase(key, value);
      attributes := attributes[key := value];
      accepted := true;
    }

    method WriteIfSet(os: string, key: string) returns (r: string)
      ensures r == os + Declarations.WrittenIfSet(attributes, key)
    {
      r := os;
      if key in attributes {
        r := r + " " + key + "=\"" + attributes[key] + "\"";
      }
    }

    /** Throws when no version has been set. */
    method Serialize(os: string) returns (r: Option<string>)
      ensures r.Some? <==> "version" in attributes
      ensures r.Some? ==> r.value == os + Declarations.SerializeDeclaration(attributes)
    {
      if "version" !in attributes { return None; }
      hide Declarations.WrittenIfSet;
      var t := WriteIfSet("<?xml", "version");
      t := WriteIfSet(t, "encoding");
      t := WriteIfSet(t, "standalone");
      r := Some(os + (t + "?>"));
    }
  }
}
