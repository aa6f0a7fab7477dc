/** The bytes of each reply. */
module ReplyBytes {
  import opened Escaping
  import opened Sequences
  import opened SessionSteps
  import opened XmlTree
  import opened Replies

  // ----- trees

  lemma Childless(name: string, attributes: map<string, string>)
    ensures Serialize(TagNode(name, attributes, [])) == "<" + name + SerializeAttributes(attributes) + "/>"
  {
    hide SerializeAttributes;
  }

  lemma Parent(name: string, attributes: map<string, string>, children: seq<Node>)
    requires children != []
    ensures Serialize(TagNode(name, attributes, children)) ==
            "<" + name + SerializeAttributes(attributes) + ">" + SerializeAll(children) + "</" + name + ">"
  {
    hide SerializeAttributes, SerializeAll;
  }

  /** A tag without attributes around its only child. */
  lemma Around(name: string, child: Node)
    ensures Serialize(TagNode(name, map[], [child])) == "<" + name + ">" + Serialize(child) + "</" + name + ">"
  {
    Parent(name, map[], [child]);
    OneAttribute("", "");
    OnlyChild(child);
    Unit("<" + name);
    hide Serialize, SerializeAll, SerializeAttributes;
  }

  lemma TwoChildren(a: Node, b: Node)
    ensures SerializeAll([a, b]) == Serialize(a) + Serialize(b)
  {
    assert [a, b][1..] == [b];
    OnlyChild(b);
    hide Serialize;
  }

  /** A namespace or other value that needs no escaping. */
  lemma PlainAttribute(k: string, v: string)
    requires IsPlain(v)
    ensures SerializeAttributes(map[k := v]) == " " + k + "=\"" + v + "\""
  {
    OneAttribute(k, v);
    PlainValue(v);
    hide SerializeAttributes, EscapeAttribute, IsPlain;
  }

  lemma LangBeforeNamespace()
    ensures SortedKeys({"xmlns", "xml:lang"}) == ["xml:lang"] + ["xmlns"]
  {
    var keys := {"xmlns", "xml:lang"};
    assert Before("xml:lang", "xmlns") && !Before("xmlns", "xml:lang") by { LangBefore(); }
    assert IsFirst(FirstKey(keys), keys);
    assert FirstKey(keys) == "xml:lang";
    assert keys - {"xml:lang"} == {"xmlns"};
    OneKey("xmlns");
    hide Before;
  }

  lemma LangBefore()
    ensures Before("xml:lang", "xmlns") && !Before("xmlns", "xml:lang")
  {
    assert "xml:lang"[1..] == "ml:lang" && "ml:lang"[1..] == "l:lang" && "l:lang"[1..] == ":lang";
    assert "xmlns"[1..] == "mlns" && "mlns"[1..] == "lns" && "lns"[1..] == "ns";
    assert Before(":lang", "ns") && !Before("ns", ":lang");
    assert Before("l:lang", "lns") && !Before("lns", "l:lang");
    assert Before("ml:lang", "mlns") && !Before("mlns", "ml:lang");
  }

  lemma TwoAttributes(m: map<string, string>, a: string, b: string)
    requires a in m && b in m && SortedKeys(m.Keys) == [a] + [b]
    ensures SerializeAttributes(m) == SerializeAttribute(a, m[a]) + SerializeAttribute(b, m[b])
  {
    var ks := [a] + [b];
    assert ks[..1] == [a] && ks[1] == b && [a][..0] == [] && [a][0] == a;
    assert SerializeKeys(m, []) == "";
    hide SerializeAttribute, SortedKeys;
    assert SerializeKeys(m, [a]) == SerializeKeys(m, [a][..0]) + SerializeAttribute(a, m[a]);
    assert SerializeKeys(m, ks) == SerializeKeys(m, ks[..1]) + SerializeAttribute(b, m[b]);
    Unit(SerializeAttribute(a, m[a]));
  }

  lemma LangAndNamespace(v: string)
    requires IsPlain(v)
    ensures SerializeAttributes(map["xmlns" := v] + map["xml:lang" := "en"]) ==
            " xml:lang=\"en\"" + (" xmlns=\"" + v + "\"")
  {
    hide *;
    var m := map["xmlns" := v] + map["xml:lang" := "en"];
    LangMap(v);
    LangBeforeNamespace();
    EnglishIsPlain();
    PlainPair("xmlns", v);
    PlainPair("xml:lang", "en");
    Literals();
    TwoAttributes(m, "xml:lang", "xmlns");
  }

  lemma LangMap(v: string)
    ensures var m := map["xmlns" := v] + map["xml:lang" := "en"];
            m.Keys == {"xmlns", "xml:lang"} && m["xmlns"] == v && m["xml:lang"] == "en"
  {}

  lemma EnglishIsPlain()
    ensures IsPlain("en")
  {}

  lemma PlainPair(k: string, v: string)
    requires IsPlain(v)
    ensures SerializeAttribute(k, v) == " " + k + "=\"" + v + "\""
  {
    PlainValue(v);
    hide EscapeAttribute;
  }

  lemma Literals()
    ensures " " + "xml:lang" + "=\"" + "en" + "\"" == " xml:lang=\"en\""
    ensures " " + "xmlns" + "=\"" == " xmlns=\""
    ensures " " + "xmlns:stream" + "=\"" == " xmlns:stream=\""
  {}

  predicate IsPlainText(s: string) {
    forall i | 0 <= i < |s| :: s[i] != '<' && s[i] != '>' && s[i] != '&'
  }

  lemma {:induction false} PlainText(s: string)
    requires IsPlainText(s)
    ensures EscapeText(s) == s
  {
    if s != "" {
      PlainText(s[1..]);
      assert s == [s[0]] + s[1..];
    }
  }

  // ----- the replies

  /** The namespaces and texts in them. */
  lemma Constants()
    ensures TLS == "urn:ietf:params:xml:ns:xmpp-tls" && STREAMS == "urn:ietf:params:xml:ns:xmpp-streams"
    ensures ETHERX == "http://etherx.jabber.org/streams" && STREAM == "stream:stream"
    ensures NOT_OPENING == "First element must be an" + " opening stream handler."
    ensures TOO_LARGE == "Stanza size limit of 64KB exceeded."
  {}

  /** ` xmlns="v"`. */
  function Namespace(v: string): string {
    " xmlns=\"" + v + "\""
  }

  lemma NamespaceText(v: string)
    ensures Namespace(v) == " xmlns=\"" + v + "\""
  {}

  lemma NothingAdded(v: string)
    ensures map["xmlns" := v] + map[] == map["xmlns" := v]
  {}

  lemma NamespaceIs(v: string)
    requires IsPlain(v)
    ensures SerializeAttributes(map["xmlns" := v]) == Namespace(v)
  {
    PlainAttribute("xmlns", v);
    Literals();
    hide SerializeAttributes, IsPlain;
  }

  lemma Nodes()
    ensures ReplyText(Reply.Proceed) == Serialize(TagNode("proceed", map["xmlns" := TLS], []))
    ensures ReplyText(Features) == Serialize(TagNode("stream:features", map[],
              [TagNode("starttls", map["xmlns" := TLS], [TagNode("required", map[], [])])]))
    ensures ReplyText(BadFormatError) == Serialize(TagNode("stream:stream", map["xmlns:stream" := ETHERX],
              [TagNode("stream:error", map[], Condition("bad-format", map[], NOT_OPENING))]))
    ensures ReplyText(TlsRequiredError) == Serialize(TagNode("stream:error", map[],
              Condition("policy-violation", map["xml:lang" := "en"], "TLS is required")))
    ensures ReplyText(InternalError) == Serialize(TagNode("stream:error", map[],
              Condition("internal-server-error", map["xml:lang" := "en"], "An unexpected error occurred.")))
    ensures IsPlain(TLS) && IsPlain(STREAMS) && IsPlain(ETHERX)
  {
    StreamsPlain();
    OthersPlain();
    hide Serialize, Condition, IsPlain;
  }

  lemma ProceedBytes()
    ensures ReplyText(Reply.Proceed) == "<proceed" + Namespace(TLS) + "/>"
  {
    Names();
    hide *;
    Nodes();
    NamespaceIs(TLS);
    Childless("proceed", map["xmlns" := TLS]);
  }

  lemma FeaturesBytes()
    ensures ReplyText(Features) ==
            "<stream:features>" + ("<starttls" + Namespace(TLS) + ">" + "<required/>" + "</starttls>") +
            "</stream:features>"
  {
    Names();
    hide *;
    var required := TagNode("required", map[], []);
    Nodes();
    Bare("required");
    OnlyChild(required);
    Parent("starttls", map["xmlns" := TLS], [required]);
    NamespaceIs(TLS);
    Around("stream:features", TagNode("starttls", map["xmlns" := TLS], [required]));
  }

  lemma Bare(name: string)
    ensures Serialize(TagNode(name, map[], [])) == "<" + name + "/>"
  {
    TagBytes(name, "", "", "");
    hide Serialize;
  }

  lemma Names()
    ensures "<" + "required" + "/>" == "<required/>" && "<" + "proceed" == "<proceed"
    ensures "<" + "starttls" == "<starttls" && "</" + "starttls" + ">" == "</starttls>"
    ensures "<" + "stream:features" + ">" == "<stream:features>"
    ensures "</" + "stream:features" + ">" == "</stream:features>"
  {}

  lemma ErrorNames()
    ensures "<" + "stream:error" + ">" == "<stream:error>" && "</" + "stream:error" + ">" == "</stream:error>"
    ensures "<" + "stream:stream" == "<stream:stream" && "</" + "stream:stream" + ">" == "</stream:stream>"
  {}

  lemma ConditionNames()
    ensures "<" + "bad-format" == "<bad-format" && "<" + "policy-violation" == "<policy-violation"
    ensures "<" + "internal-server-error" == "<internal-server-error"
  {}

  /** The condition of an error and its text, whose attributes are written as `written`. */
  lemma ConditionBytes(name: string, attributes: map<string, string>, written: string, text: string)
    requires SerializeAttributes(map["xmlns" := STREAMS] + attributes) == written && IsPlainText(text)
    ensures SerializeAll(Condition(name, attributes, text)) ==
            "<" + name + Namespace(STREAMS) + "/>" + ("<text" + written + ">" + text + "</text>")
  {
    hide *;
    var both := map["xmlns" := STREAMS] + attributes;
    ConditionNodes(name, attributes, text);
    StreamsIsPlain();
    NamespaceIs(STREAMS);
    Childless(name, map["xmlns" := STREAMS]);
    TextTag(both, written, text);
    TwoChildren(TagNode(name, map["xmlns" := STREAMS], []), TagNode("text", both, [TextNode(text)]));
  }

  lemma StreamsIsPlain()
    ensures IsPlain(STREAMS)
  {
    StreamsPlain();
  }

  lemma TextTag(attributes: map<string, string>, written: string, text: string)
    requires SerializeAttributes(attributes) == written && IsPlainText(text)
    ensures Serialize(TagNode("text", attributes, [TextNode(text)])) == "<text" + written + ">" + text + "</text>"
  {
    TextNames();
    hide *;
    TextBytes(text);
    Parent("text", attributes, [TextNode(text)]);
    OnlyChild(TextNode(text));
  }

  lemma TextNames()
    ensures "<" + "text" == "<text" && "</" + "text" + ">" == "</text>"
  {}

  lemma TextBytes(text: string)
    requires IsPlainText(text)
    ensures Serialize(TextNode(text)) == text
  {
    PlainText(text);
    hide EscapeText;
  }

  lemma ConditionNodes(name: string, attributes: map<string, string>, text: string)
    ensures Condition(name, attributes, text) ==
            [TagNode(name, map["xmlns" := STREAMS], []),
             TagNode("text", map["xmlns" := STREAMS] + attributes, [TextNode(text)])]
  {}

  lemma ShortTextsPlain()
    ensures IsPlainText("TLS is required") && IsPlainText("An unexpected error occurred.")
  {}

  lemma NotOpeningPlain()
    ensures IsPlainText(NOT_OPENING)
  {
    assert IsPlainText("First element must be an") && IsPlainText(" opening stream handler.");
    BothPlain("First element must be an", " opening stream handler.");
  }

  lemma BothPlain(a: string, b: string)
    requires IsPlainText(a) && IsPlainText(b)
    ensures IsPlainText(a + b)
  {}

  lemma ErrorAround(children: seq<Node>)
    requires children != []
    ensures Serialize(TagNode("stream:error", map[], children)) ==
            "<stream:error>" + SerializeAll(children) + "</stream:error>"
  {
    ErrorNames();
    Parent("stream:error", map[], children);
    OneAttribute("", "");
    Unit("<" + "stream:error");
    hide *;
  }

  lemma TlsRequiredBytes()
    ensures ReplyText(TlsRequiredError) ==
            "<stream:error>" +
            ("<policy-violation" + Namespace(STREAMS) + "/>" +
             ("<text" + (" xml:lang=\"en\"" + Namespace(STREAMS)) + ">" + "TLS is required" + "</text>")) +
            "</stream:error>"
  {
    var lang := map["xml:lang" := "en"];
    ErrorNames();
    ConditionNames();
    ConditionNodes("policy-violation", lang, "TLS is required");
    hide *;
    Nodes();
    ShortTextsPlain();
    LangAndNamespace(STREAMS);
    NamespaceText(STREAMS);
    ConditionBytes("policy-violation", lang, " xml:lang=\"en\"" + Namespace(STREAMS), "TLS is required");
    ErrorAround(Condition("policy-violation", lang, "TLS is required"));
  }

  lemma InternalErrorBytes()
    ensures ReplyText(InternalError) ==
            "<stream:error>" +
            ("<internal-server-error" + Namespace(STREAMS) + "/>" +
             ("<text" + (" xml:lang=\"en\"" + Namespace(STREAMS)) + ">" + "An unexpected error occurred." +
              "</text>")) +
            "</stream:error>"
  {
    var lang := map["xml:lang" := "en"];
    ErrorNames();
    ConditionNames();
    ConditionNodes("internal-server-error", lang, "An unexpected error occurred.");
    hide *;
    Nodes();
    ShortTextsPlain();
    LangAndNamespace(STREAMS);
    NamespaceText(STREAMS);
    ConditionBytes("internal-server-error", lang, " xml:lang=\"en\"" + Namespace(STREAMS),
                   "An unexpected error occurred.");
    ErrorAround(Condition("internal-server-error", lang, "An unexpected error occurred."));
  }

  lemma BadFormatBytes()
    ensures ReplyText(BadFormatError) ==
            "<stream:stream" + (" xmlns:stream=\"" + ETHERX + "\"") + ">" +
            ("<stream:error>" +
             ("<bad-format" + Namespace(STREAMS) + "/>" +
              ("<text" + Namespace(STREAMS) + ">" + NOT_OPENING + "</text>")) +
             "</stream:error>") +
            "</stream:stream>"
  {
    ErrorNames();
    ConditionNames();
    Literals();
    ConditionNodes("bad-format", map[], NOT_OPENING);
    hide *;
    Nodes();
    NotOpeningPlain();
    var children := Condition("bad-format", map[], NOT_OPENING);
    NothingAdded(STREAMS);
    NamespaceIs(STREAMS);
    ConditionBytes("bad-format", map[], Namespace(STREAMS), NOT_OPENING);
    ErrorAround(children);
    var error := TagNode("stream:error", map[], children);
    OnlyChild(error);
    Parent("stream:stream", map["xmlns:stream" := ETHERX], [error]);
    PlainAttribute("xmlns:stream", ETHERX);
  }

  // ----- replies sent as text

  /** ` key='value'`. */
  function Pair(key: string, value: string): string {
    " " + key + "='" + value + "'"
  }

  lemma WrittenSnoc(attributes: seq<(string, string)>, key: string, value: string)
    ensures Written(attributes + [(key, value)]) == Written(attributes) + Pair(key, value)
  {
    assert (attributes + [(key, value)])[..|attributes|] == attributes;
  }

  lemma HeaderBytes()
    ensures ReplyText(StreamHeader) ==
            "<" + "stream:stream" +
            ("" + Pair("xmlns", "jabber:client") + Pair("xmlns:stream", ETHERX) + Pair("id", "err-1") +
             Pair("from", "example.com") + Pair("version", "1.0")) + ">"
    ensures ReplyText(StreamEnd) == "</" + "stream:stream" + ">"
  {
    hide Written, Pair;
    var a1 := [] + [("xmlns", "jabber:client")];
    var a2 := a1 + [("xmlns:stream", ETHERX)];
    var a3 := a2 + [("id", "err-1")];
    var a4 := a3 + [("from", "example.com")];
    assert HEADER_ATTRIBUTES == a4 + [("version", "1.0")];
    assert Written([]) == "" by { NothingWritten(); }
    WrittenSnoc([], "xmlns", "jabber:client");
    WrittenSnoc(a1, "xmlns:stream", ETHERX);
    WrittenSnoc(a2, "id", "err-1");
    WrittenSnoc(a3, "from", "example.com");
    WrittenSnoc(a4, "version", "1.0");
  }

  lemma NothingWritten()
    ensures Written([]) == ""
  {}

  lemma RestartBytes()
    ensures ReplyText(RestartError) ==
            ReplyText(StreamHeader) + "<stream:error>" +
            ("<policy-violation" + ("" + Pair("xmlns", STREAMS)) + "/>") +
            ("<text" + ("" + Pair("xmlns", STREAMS) + Pair("xml:lang", "en")) + ">") +
            ("Stanza size limit of 64KB exceeded." + "</text>") + "</stream:error>" + ReplyText(StreamEnd)
  {
    hide Written, Pair;
    NothingWritten();
    WrittenSnoc([], "xmlns", STREAMS);
    WrittenSnoc([("xmlns", STREAMS)], "xml:lang", "en");
    assert [] + [("xmlns", STREAMS)] == [("xmlns", STREAMS)];
    assert TEXT_ATTRIBUTES == [("xmlns", STREAMS)] + [("xml:lang", "en")];
  }
}
