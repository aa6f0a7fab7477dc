/** Main results about the tokenizer: it accepts exactly the grammar and reports exactly its tokens. */
module Recognition {
  import opened Sequences
  import opened Tokens
  import opened Machine
  import opened Grammar
  import opened Parsing
  import opened Progress
  import opened Simulation
  import opened Inversion

  lemma StartDescribed(max: Limit)
    ensures Describes(max, NOTHING, START) && ParseText(NOTHING) == ""
  {
    assert TextTokens(FullBlocks("", max)) == [];
  }

  lemma {:induction false} ReadingOf(max: Limit, w: string) returns (s: Parse)
    requires Run(max, START, w).error == NoError
    ensures ParseText(s) == w && Describes(max, s, Run(max, START, w))
    decreases |w|
  {
    hide Step, Describes, ParseText, ExtendParse;
    if w == "" {
      s := NOTHING;
      StartDescribed(max);
    } else {
      var v, c := w[..|w| - 1], w[|w| - 1];
      Last(w);
      RunSnoc(max, START, v, c);
      var m := Run(max, START, v);
      if m.error != NoError {
        ErrorLatches(max, m, [c]);
        RunConcat(max, START, v, [c]);
      }
      var s0 := ReadingOf(max, v);
      s := ReadingOneMore(max, s0, m, c);
    }
  }

  /**
   * Soundness and losslessness. After any input read without error, the input is a sequence of
   * legal lexemes plus one lexeme in progress, and the configuration is the one they stand for: the
   * tokens reported are those of the lexemes, and state and buffers hold the rest.
   */
  lemma Soundness(max: Limit, w: string)
    ensures Run(max, START, w).error == NoError ==>
              exists s: Parse :: ParseText(s) == w && Describes(max, s, Run(max, START, w))
  {
    hide Step, Describes, ParseText;
    if Run(max, START, w).error == NoError {
      var s := ReadingOf(max, w);
    }
  }

  lemma ReadingOneMore(max: Limit, s: Parse, m: Config, c: char) returns (s': Parse)
    requires Describes(max, s, m) && Step(max, m, c).error == NoError
    ensures Describes(max, s', Step(max, m, c)) && ParseText(s') == ParseText(s) + [c]
  {
    ParseAgrees(max, s, m, c);
    ParseRecords(max, s, c);
    AgreesDescribes(max, s, m, c);
    hide Step, ParseText, ExtendParse, Agrees;
    s' := ExtendParse(max, s, c).parse;
  }

  /** Completeness: every legal sequence of lexemes, finished or not, is read without error. */
  lemma {:induction false} Completeness(max: Limit, s: Parse)
    requires ValidParse(max, s)
    ensures Describes(max, s, Run(max, START, ParseText(s)))
    decreases |ParseText(s)|
  {
    hide Step, Describes, ParseText, ExtendParse;
    StartDescribed(max);
    if s != NOTHING {
      var s0, c := Predecessor(max, s);
      ParseRecords(max, s0, c);
      Completeness(max, s0);
      var m := Run(max, START, ParseText(s0));
      ParseAgrees(max, s0, m, c);
      RunSnoc(max, START, ParseText(s0), c);
      assert Describes(max, s, Step(max, m, c)) by { AgreesDescribes(max, s0, m, c); }
    }
  }

  lemma AgreesDescribes(max: Limit, s: Parse, m: Config, c: char)
    requires Agrees(max, s, m, c)
    ensures ExtendParse(max, s, c).Parsed? ==> Describes(max, ExtendParse(max, s, c).parse, Step(max, m, c))
    ensures ExtendParse(max, s, c).Parsed? <==> Step(max, m, c).error == NoError
  {
    hide Step, ExtendParse;
  }

  /** An input has at most one reading: the grammar is unambiguous. */
  lemma {:induction false} Unambiguous(max: Limit, s1: Parse, s2: Parse)
    requires ValidParse(max, s1) && ValidParse(max, s2) && ParseText(s1) == ParseText(s2)
    ensures s1 == s2
    decreases |ParseText(s1)|
  {
    hide ParseText, ExtendParse;
    StartDescribed(max);
    if s1 == NOTHING || s2 == NOTHING {
      var s := if s1 == NOTHING then s2 else s1;
      if s != NOTHING {
        var s0, c := Predecessor(max, s);
        ParseRecords(max, s0, c);
        assert false;
      }
    } else {
      var t1, c1 := Predecessor(max, s1);
      var t2, c2 := Predecessor(max, s2);
      ParseRecords(max, t1, c1);
      ParseRecords(max, t2, c2);
      SameSnoc(ParseText(t1), c1, ParseText(t2), c2);
      Unambiguous(max, t1, t2);
    }
  }

  lemma SameSnoc(a: string, c: char, b: string, d: char)
    requires a + [c] == b + [d]
    ensures a == b && c == d
  {
    assert a == (a + [c])[..|a|] && b == (b + [d])[..|b|];
    assert c == (a + [c])[|a|] && d == (b + [d])[|b|];
  }

  function DocumentParse(d: Document): Parse {
    Parse(d.items, d.text, NoMarkup)
  }

  /** A legal document is read without error and reported as its tokens; trailing text is kept. */
  lemma DocumentRun(max: Limit, d: Document)
    requires ValidDocument(max, d)
    ensures var m := Run(max, START, DocumentText(d));
            && m.error == NoError && m.errors == []
            && m.state == State.Text && m.buffer == Leftover(d.text, max)
            && m.tokens == DocumentTokens(max, d)
  {
    assert DocumentText(d) == DocumentText(d) + "" == ParseText(DocumentParse(d));
    Completeness(max, DocumentParse(d));
  }

  /** A document of one lexeme. */
  lemma LoneMarkup(max: Limit, markup: Markup)
    ensures var d := Document([Item("", markup)], "");
            && DocumentText(d) == MarkupText(markup)
            && DocumentTokens(max, d) == MarkupTokens(max, markup)
            && (ValidDocument(max, d) <==> ValidMarkup(max, markup))
  {
    var item, t, ts := Item("", markup), MarkupText(markup), MarkupTokens(max, markup);
    ItemsSnoc(max, [], item);
    assert ItemsText([]) == "" && ItemsTokens(max, []) == [];
    assert TextRunTokens(max, "") == [] && TextTokens(FullBlocks("", max)) == [];
    assert [item] == [] + [item] && [item][0] == item;
    hide MarkupText, MarkupTokens, ItemsText, ItemsTokens, ValidMarkup, TextRunTokens, TextTokens, FullBlocks;
    Unit(t);
    Unit(ts);
    Unit("");
    Unit<XmlToken>([]);
  }

  /** Input ends between lexemes, without error, exactly when it is a legal document. */
  lemma AcceptsExactlyTheGrammar(max: Limit, w: string)
    ensures (Run(max, START, w).error == NoError && Run(max, START, w).state == State.Text)
            <==> exists d: Document :: ValidDocument(max, d) && DocumentText(d) == w
  {
    var m := Run(max, START, w);
    if m.error == NoError && m.state == State.Text {
      var s := ReadingOf(max, w);
      var d := Document(s.items, s.text);
      assert DocumentText(d) == DocumentText(d) + "" == ParseText(s);
      assert ValidDocument(max, d);
    }
    forall d: Document | ValidDocument(max, d) && DocumentText(d) == w
      ensures m.error == NoError && m.state == State.Text
    {
      DocumentRun(max, d);
    }
  }

  /** Any input is read without error exactly when it is a legal, possibly unfinished, parse. */
  lemma ErrorFreeExactly(max: Limit, w: string)
    ensures Run(max, START, w).error == NoError
            <==> exists s: Parse :: ValidParse(max, s) && ParseText(s) == w
  {
    if Run(max, START, w).error == NoError {
      var s := ReadingOf(max, w);
    }
    forall s: Parse | ValidParse(max, s) && ParseText(s) == w
      ensures Run(max, START, w).error == NoError
    {
      Completeness(max, s);
    }
  }

  /** In any split into calls, a legal document gives its tokens. */
  lemma DocumentInChunks(max: Limit, d: Document, chunks: seq<string>)
    requires ValidDocument(max, d) && Join(chunks) == DocumentText(d)
    ensures RunChunks(max, START, chunks).tokens == DocumentTokens(max, d)
    ensures RunChunks(max, START, chunks).errors == []
  {
    ChunkIndependence(max, START, chunks);
    DocumentRun(max, d);
  }
}
