/** XML trees as the node classes build them, and the bytes they serialize to. */
module XmlTree {
  import opened Characters
  import opened Escaping

  datatype Node =
    | TextNode(content: string)
    | TagNode(name: string, attributes: map<string, string>, children: seq<Node>)

  predicate IsNameStart(c: char) {
    IsLetter(c) || c == ':' || c == '_'
  }

  predicate IsXmlName(name: string) {
    name != "" && IsNameStart(name[0]) &&
    forall i | 1 <= i < |name| :: IsNameStart(name[i]) || IsDigit(name[i]) || name[i] == '.' || name[i] == '-'
  }

  predicate IsCharacterData(value: string) {
    forall i | 0 <= i < |value| :: value[i] >= ' ' || value[i] == '\t' || value[i] == '\n' || value[i] == '\r'
  }

  predicate ValidAttributes(attributes: map<string, string>) {
    forall k | k in attributes :: IsXmlName(k) && IsCharacterData(attributes[k])
  }

  /** What the constructors and setters of the node classes let through. */
  predicate ValidNode(n: Node)
    decreases n
  {
    match n
    case TextNode(content) => IsCharacterData(content)
    case TagNode(name, attributes, children) =>
      IsXmlName(name) && ValidAttributes(attributes) && forall i | 0 <= i < |children| :: ValidNode(children[i])
  }

  predicate ValidNodes(ns: seq<Node>) {
    forall i | 0 <= i < |ns| :: ValidNode(ns[i])
  }

  // ----- the order in which attributes are written: by name, byte by byte

  predicate Before(a: string, b: string) {
    a == "" || (b != "" && (a[0] < b[0] || (a[0] == b[0] && Before(a[1..], b[1..]))))
  }

  lemma {:induction false} BeforeTotal(a: string, b: string)
    ensures Before(a, b) || Before(b, a)
    ensures Before(a, b) && Before(b, a) ==> a == b
  {
    if a != "" && b != "" {
      BeforeTotal(a[1..], b[1..]);
      assert a == [a[0]] + a[1..] && b == [b[0]] + b[1..];
    }
  }

  lemma {:induction false} BeforeTransitive(a: string, b: string, c: string)
    requires Before(a, b) && Before(b, c)
    ensures Before(a, c)
  {
    if a != "" && a[0] == b[0] && b[0] == c[0] {
      BeforeTransitive(a[1..], b[1..], c[1..]);
    }
  }

  ghost predicate IsFirst(k: string, keys: set<string>) {
    k in keys && forall k' | k' in keys :: Before(k, k')
  }

  lemma {:induction false} FirstExists(keys: set<string>)
    requires keys != {}
    ensures exists k :: IsFirst(k, keys)
    decreases keys
  {
    var x :| x in keys;
    if keys == {x} {
      BeforeTotal(x, x);
      assert IsFirst(x, keys);
    } else {
      var rest := keys - {x};
      FirstExists(rest);
      var y :| IsFirst(y, rest);
      BeforeTotal(x, y);
      BeforeTotal(x, x);
      var k := if Before(x, y) then x else y;
      forall k' | k' in keys
        ensures Before(k, k')
      {
        if k == x && k' != x { BeforeTransitive(x, y, k'); }
      }
      assert IsFirst(k, keys);
    }
  }

  ghost function FirstKey(keys: set<string>): (k: string)
    requires keys != {}
    ensures IsFirst(k, keys)
  {
    FirstExists(keys);
    var k :| IsFirst(k, keys);
    k
  }

  ghost function SortedKeys(keys: set<string>): (ks: seq<string>)
    ensures forall k :: k in ks <==> k in keys
    decreases keys
  {
    if keys == {} then [] else [FirstKey(keys)] + SortedKeys(keys - {FirstKey(keys)})
  }

  predicate Increasing(ks: seq<string>) {
    forall i, j | 0 <= i < j < |ks| :: Before(ks[i], ks[j]) && ks[i] != ks[j]
  }

  /** Attributes are written once each, in strictly increasing order of their names. */
  lemma {:induction false} KeysAreSorted(keys: set<string>)
    ensures Increasing(SortedKeys(keys))
    decreases keys
  {
    if keys != {} {
      var first := FirstKey(keys);
      var rest, ks := SortedKeys(keys - {first}), SortedKeys(keys);
      KeysAreSorted(keys - {first});
      assert ks == [first] + rest;
      forall i, j | 0 <= i < j < |ks|
        ensures Before(ks[i], ks[j]) && ks[i] != ks[j]
      {
        assert ks[j] == rest[j - 1] && rest[j - 1] in rest;
        if i > 0 { assert ks[i] == rest[i - 1]; }
      }
    }
  }

  lemma {:induction false} BeforeAscends(a: string, b: string)
    requires Before(a, b) && a != b
    ensures a < b || exists k | 0 <= k < |a| && k < |b| :: a[..k] == b[..k] && a[k] < b[k]
  {
    if a == "" {
    } else if a[0] < b[0] {
      assert a[..0] == b[..0];
    } else {
      assert a == [a[0]] + a[1..] && b == [b[0]] + b[1..];
      BeforeAscends(a[1..], b[1..]);
      if k: nat :| k < |a[1..]| && k < |b[1..]| && a[1..][..k] == b[1..][..k] && a[1..][k] < b[1..][k] {
        assert a[..k + 1] == [a[0]] + a[1..][..k] && b[..k + 1] == [b[0]] + b[1..][..k];
        assert a[k + 1] < b[k + 1];
      }
    }
  }

  /**
   * The order is that of the names' bytes: a name comes before another that continues it, or that has
   * the larger byte where they first differ.
   */
  lemma KeysAscend(keys: set<string>, i: nat, j: nat)
    requires i < j < |SortedKeys(keys)|
    ensures var a, b := SortedKeys(keys)[i], SortedKeys(keys)[j];
            a < b || exists k | 0 <= k < |a| && k < |b| :: a[..k] == b[..k] && a[k] < b[k]
  {
    KeysAreSorted(keys);
    BeforeAscends(SortedKeys(keys)[i], SortedKeys(keys)[j]);
    hide SortedKeys;
  }

  // ----- which names and characters

  /** Node names are the tokenizer's names that do not start with a digit, a hyphen or a dot. */
  lemma XmlNames(name: string)
    ensures IsXmlName(name) <==>
            && name != ""
            && (forall i | 0 <= i < |name| ::
                  || 'A' <= name[i] <= 'Z' || 'a' <= name[i] <= 'z' || '0' <= name[i] <= '9'
                  || name[i] == '_' || name[i] == '-' || name[i] == ':' || name[i] == '.')
            && !('0' <= name[0] <= '9') && name[0] != '-' && name[0] != '.'
  {
    hide IsNameStart, IsDigit;
    Starts();
  }

  lemma Starts()
    ensures forall c: char :: IsNameStart(c) <==> 'A' <= c <= 'Z' || 'a' <= c <= 'z' || c == '_' || c == ':'
    ensures forall c: char :: IsDigit(c) <==> '0' <= c <= '9'
  {}

  /** The characters refused are the control characters other than tab, newline and carriage return. */
  lemma RefusedCharacters(value: string)
    ensures !IsCharacterData(value) <==>
            exists c | c in value :: c as int <= 8 || 11 <= c as int <= 12 || 14 <= c as int <= 31
  {
    if !IsCharacterData(value) {
      var i :| 0 <= i < |value| && !(value[i] >= ' ' || value[i] == '\t' || value[i] == '\n' || value[i] == '\r');
      assert value[i] in value;
    }
  }

  // ----- serialization

  function SerializeAttribute(name: string, value: string): string {
    " " + name + "=\"" + EscapeAttribute(value) + "\""
  }

  function SerializeKeys(attributes: map<string, string>, keys: seq<string>): string
    requires forall k | k in keys :: k in attributes
  {
    if keys == [] then ""
    else
      var last := keys[|keys| - 1];
      SerializeKeys(attributes, keys[..|keys| - 1]) + SerializeAttribute(last, attributes[last])
  }

  ghost function SerializeAttributes(attributes: map<string, string>): string {
    SerializeKeys(attributes, SortedKeys(attributes.Keys))
  }

  ghost function Serialize(n: Node): string
    decreases n, 1
  {
    match n
    case TextNode(content) => EscapeText(content)
    case TagNode(name, attributes, children) =>
      var opening := "<" + name + SerializeAttributes(attributes);
      if children == [] then opening + "/>" else opening + ">" + SerializeAll(children) + "</" + name + ">"
  }

  ghost function SerializeAll(ns: seq<Node>): string
    decreases ns, 0
  {
    if ns == [] then "" else Serialize(ns[0]) + SerializeAll(ns[1..])
  }

  lemma OneKey(k: string)
    ensures SortedKeys({k}) == [k]
  {
    assert FirstKey({k}) == k && {k} - {k} == {};
    assert SortedKeys({k}) == [k] + SortedKeys({});
  }

  lemma OneAttribute(k: string, v: string)
    ensures SerializeAttributes(map[k := v]) == " " + k + "=\"" + EscapeAttribute(v) + "\""
    ensures SerializeAttributes(map[]) == ""
  {
    var m := map[k := v];
    assert m.Keys == {k};
    OneKey(k);
    assert [k][..0] == [];
    assert SerializeKeys(m, []) == "";
    var nothing: map<string, string> := map[];
    assert nothing.Keys == {} && SortedKeys({}) == [];
    hide EscapeAttribute;
  }

  /** The bytes of a tag without children, with one text child, and with an attribute. */
  lemma TagBytes(name: string, k: string, v: string, text: string)
    ensures Serialize(TagNode(name, map[], [])) == "<" + name + "/>"
    ensures Serialize(TagNode(name, map[k := v], [])) ==
            "<" + name + (" " + k + "=\"" + EscapeAttribute(v) + "\"") + "/>"
    ensures Serialize(TagNode(name, map[], [TextNode(text)])) ==
            "<" + name + ">" + EscapeText(text) + "</" + name + ">"
  {
    OneAttribute(k, v);
    hide SerializeAttributes, EscapeAttribute, EscapeText;
    assert "<" + name + "" == "<" + name;
    OnlyChild(TextNode(text));
  }

  lemma OnlyChild(n: Node)
    ensures SerializeAll([n]) == Serialize(n)
  {
    assert [n][1..] == [];
    assert Serialize(n) + "" == Serialize(n);
  }
}
