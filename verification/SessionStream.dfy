/** A session over the byte stream: its tokenizer and its reads. */
module SessionStream {
  import opened Sequences
  import opened Tokens
  import opened Machine
  import opened Grammar
  import opened SessionSteps
  import opened SessionLanguage
  import opened Recognition

  /** A byte, and the surroundings in which the session handles the token it completes. */
  datatype Byte = Byte(c: char, env: Environment)

  datatype Read = Read(bytes: string, env: Environment)

  /** What a step or a read adds to the observer's log. */
  function NewTokens(before: Config, after: Config): seq<XmlToken> {
    if |before.tokens| <= |after.tokens| then after.tokens[|before.tokens|..] else []
  }

  lemma StepKeepsTokens(max: Limit, m: Config, c: char)
    ensures m.tokens <= Step(max, m, c).tokens
  {
    if m.error == NoError {
      match m.state
      case Text =>
      case StartTagName =>
      case CData =>
      case Special =>
      case Comment =>
      case _ =>
    }
  }

  lemma {:induction false} RunKeepsTokens(max: Limit, m: Config, w: string)
    ensures m.tokens <= Run(max, m, w).tokens
    decreases |w|
  {
    hide Step;
    if w != "" {
      StepKeepsTokens(max, m, w[0]);
      RunKeepsTokens(max, Step(max, m, w[0]), w[1..]);
    }
  }

  function Inputs(ts: seq<XmlToken>, env: Environment): seq<Input> {
    if ts == [] then [] else [Input(ts[0], env)] + Inputs(ts[1..], env)
  }

  lemma {:induction false} InputsConcat(a: seq<XmlToken>, b: seq<XmlToken>, env: Environment)
    ensures Inputs(a + b, env) == Inputs(a, env) + Inputs(b, env)
    decreases |a|
  {
    if a == [] {
      assert a + b == b;
    } else {
      assert (a + b)[1..] == a[1..] + b;
      InputsConcat(a[1..], b, env);
    }
  }

  lemma {:induction false} HearResponds(s: Session, ts: seq<XmlToken>, env: Environment)
    ensures Hear(s, ts, env) == Respond(s, Inputs(ts, env))
    decreases |ts|
  {
    hide OnXmlToken;
    if ts != [] && !IsDone(s) {
      assert Inputs(ts, env)[1..] == Inputs(ts[1..], env);
      HearResponds(OnXmlToken(s, ts[0], env), ts[1..], env);
    }
  }

  /** The tokens a byte stream completes, each with the surroundings of its last byte. */
  function StreamInputs(max: Limit, m: Config, bs: seq<Byte>): seq<Input>
    decreases |bs|
  {
    if bs == [] then []
    else
      var m' := Step(max, m, bs[0].c);
      Inputs(NewTokens(m, m'), bs[0].env) + StreamInputs(max, m', bs[1..])
  }

  function Bytes(w: string, env: Environment): seq<Byte> {
    if w == "" then [] else [Byte(w[0], env)] + Bytes(w[1..], env)
  }

  function Spread(rs: seq<Read>): seq<Byte> {
    if rs == [] then [] else Bytes(rs[0].bytes, rs[0].env) + Spread(rs[1..])
  }

  function Chars(bs: seq<Byte>): string {
    if bs == [] then "" else [bs[0].c] + Chars(bs[1..])
  }

  lemma {:induction false} StreamInputsConcat(max: Limit, m: Config, a: seq<Byte>, b: seq<Byte>)
    ensures StreamInputs(max, m, a + b) ==
            StreamInputs(max, m, a) + StreamInputs(max, Run(max, m, Chars(a)), b)
    decreases |a|
  {
    hide Step;
    if a == [] {
      assert a + b == b;
    } else {
      assert (a + b)[1..] == a[1..] + b;
      var m' := Step(max, m, a[0].c);
      StreamInputsConcat(max, m', a[1..], b);
      assert Chars(a)[1..] == Chars(a[1..]);
      Associate(Inputs(NewTokens(m, m'), a[0].env), StreamInputs(max, m', a[1..]),
                StreamInputs(max, Run(max, m', Chars(a[1..])), b));
    }
  }

  lemma {:induction false} BytesChars(w: string, env: Environment)
    ensures Chars(Bytes(w, env)) == w
    decreases |w|
  {
    if w != "" {
      assert Bytes(w, env)[1..] == Bytes(w[1..], env);
      BytesChars(w[1..], env);
    }
  }

  lemma NewTokensCompose(m0: Config, m1: Config, m2: Config)
    requires m0.tokens <= m1.tokens <= m2.tokens
    ensures NewTokens(m0, m2) == NewTokens(m0, m1) + NewTokens(m1, m2)
  {}

  /** In one read, handling the read's tokens together is handling each as its last byte arrives. */
  lemma {:induction false} ReadInputs(max: Limit, m: Config, w: string, env: Environment)
    ensures StreamInputs(max, m, Bytes(w, env)) == Inputs(NewTokens(m, Run(max, m, w)), env)
    decreases |w|
  {
    hide Step;
    if w != "" {
      var m' := Step(max, m, w[0]);
      assert Bytes(w, env)[1..] == Bytes(w[1..], env);
      ReadInputs(max, m', w[1..], env);
      StepKeepsTokens(max, m, w[0]);
      RunKeepsTokens(max, m', w[1..]);
      NewTokensCompose(m, m', Run(max, m', w[1..]));
      hide NewTokens;
      InputsConcat(NewTokens(m, m'), NewTokens(m', Run(max, m', w[1..])), env);
    }
  }

  /** One successful read after another, until the session is done. */
  function Reads(max: Limit, m: Config, s: Session, rs: seq<Read>): Session
    requires !IsDone(s) ==> s.outstandingReads > 0 && !s.stopped && s.connected
    decreases |rs|
  {
    if rs == [] || IsDone(s) then s
    else
      var m' := Run(max, m, rs[0].bytes);
      var s' := OnRead(s, ReadEnd.Tokens(NewTokens(m, m'), rs[0].env));
      ReadKeepsGoing(s, NewTokens(m, m'), rs[0].env);
      Reads(max, m', s', rs[1..])
  }

  lemma {:induction false} HearKeepsGoing(s: Session, ts: seq<XmlToken>, env: Environment)
    requires s.connected && !s.stopped && !s.shutDown
    ensures var s' := Hear(s, ts, env);
            s'.outstandingReads == s.outstandingReads && (!IsDone(s') ==> s'.connected && !s'.stopped)
    decreases |ts|
  {
    hide IsElement, IsBlankText, Opens, Closes;
    if ts != [] && !IsDone(s) && !IsDone(OnXmlToken(s, ts[0], env)) {
      HearKeepsGoing(OnXmlToken(s, ts[0], env), ts[1..], env);
    }
  }

  /** A read that leaves the session going leaves the next read outstanding. */
  lemma ReadKeepsGoing(s: Session, ts: seq<XmlToken>, env: Environment)
    requires s.outstandingReads > 0 && s.connected && !s.stopped && !IsDone(s)
    ensures var s' := OnRead(s, ReadEnd.Tokens(ts, env));
            !IsDone(s') ==> s'.outstandingReads > 0 && !s'.stopped && s'.connected
  {
    hide Hear;
    HearKeepsGoing(s.(outstandingReads := s.outstandingReads - 1), ts, env);
  }

  /** The session without its count of outstanding reads, which tokens do not touch. */
  function Core(s: Session): Session {
    s.(outstandingReads := 0)
  }

  lemma SendCore(s: Session, r: Reply)
    ensures Core(Send(s, r)) == Send(Core(s), r)
    ensures Core(Shutdown(s)) == Shutdown(Core(s))
    ensures Core(Shutdown(Send(s, r))) == Shutdown(Send(Core(s), r))
  {}

  lemma StartCore(s: Session)
    ensures Core(OnStart(s)) == OnStart(Core(s))
  {
    SendCore(s, StreamHeader);
    SendCore(Send(s, StreamHeader), Features);
    SendCore(Send(s, StreamHeader), InternalError);
    hide Send, Shutdown;
  }

  lemma StanzaCore(s: Session, name: string, env: Environment)
    ensures Core(OnStanza(s, name, env)) == OnStanza(Core(s), name, env)
  {
    SendCore(s, TlsRequiredError);
    SendCore(s, Proceed);
    hide Send, Shutdown;
  }

  lemma BeforeStreamCore(s: Session, t: XmlToken, env: Environment)
    ensures Core(BeforeStream(s, t, env)) == BeforeStream(Core(s), t, env)
  {
    hide IsBlankText, Opens, Send, Shutdown, OnStart;
    if t.kind == TokenType.Declaration || IsBlankText(t) {
    } else if !Opens(t) {
      SendCore(s, BadFormatError);
    } else {
      StartCore(s.(handler := if env.secure then Unimplemented else Negotiation));
    }
  }

  lemma InStreamCore(s: Session, t: XmlToken, env: Environment)
    ensures Core(InStream(s, t, env)) == InStream(Core(s), t, env)
  {
    hide IsBlankText, Opens, Closes, IsElement, Send, Shutdown, OnStanza;
    if IsBlankText(t) {
    } else if Closes(t) {
      SendCore(s, StreamEnd);
    } else if t.kind == TokenType.EmptyTag {
      StanzaCore(s, t.content, env);
    } else if Opens(t) {
      SendCore(s, RestartError);
    }
  }

  lemma TokenCore(s: Session, t: XmlToken, env: Environment)
    ensures Core(OnXmlToken(s, t, env)) == OnXmlToken(Core(s), t, env)
  {
    BeforeStreamCore(s, t, env);
    InStreamCore(s, t, env);
    hide BeforeStream, InStream;
  }

  lemma {:induction false} HearCore(s: Session, ts: seq<XmlToken>, env: Environment)
    ensures Core(Hear(s, ts, env)) == Hear(Core(s), ts, env)
    decreases |ts|
  {
    hide OnXmlToken;
    if ts != [] && !IsDone(s) {
      TokenCore(s, ts[0], env);
      HearCore(OnXmlToken(s, ts[0], env), ts[1..], env);
    }
  }

  lemma ReadCore(s: Session, ts: seq<XmlToken>, env: Environment)
    requires s.outstandingReads > 0 && s.connected && !s.stopped && !IsDone(s)
    ensures Core(OnRead(s, ReadEnd.Tokens(ts, env))) == Respond(Core(s), Inputs(ts, env))
  {
    HearCore(s.(outstandingReads := s.outstandingReads - 1), ts, env);
    HearResponds(Core(s), ts, env);
    hide Hear, Respond;
  }

  lemma DoneStays(s: Session, w: seq<Input>)
    requires IsDone(s)
    ensures Respond(s, w) == s
  {}

  /** Reads refine tokens: the session ends as if the tokens of the byte stream had come one by one. */
  lemma {:induction false} ReadsRespond(max: Limit, m: Config, s: Session, rs: seq<Read>)
    requires !IsDone(s) ==> s.outstandingReads > 0 && !s.stopped && s.connected
    ensures Core(Reads(max, m, s, rs)) == Respond(Core(s), StreamInputs(max, m, Spread(rs)))
    decreases |rs|
  {
    hide Step, Run, OnRead;
    if IsDone(s) {
      DoneStays(Core(s), StreamInputs(max, m, Spread(rs)));
    } else if rs != [] {
      var w, env := rs[0].bytes, rs[0].env;
      var m' := Run(max, m, w);
      var ts := NewTokens(m, m');
      ReadKeepsGoing(s, ts, env);
      var s' := OnRead(s, ReadEnd.Tokens(ts, env));
      ReadsRespond(max, m', s', rs[1..]);
      ReadCore(s, ts, env);
      ReadInputs(max, m, w, env);
      BytesChars(w, env);
      StreamInputsConcat(max, m, Bytes(w, env), Spread(rs[1..]));
      RespondConcat(Core(s), Inputs(ts, env), StreamInputs(max, m', Spread(rs[1..])));
      hide NewTokens, Respond, StreamInputs;
    }
  }

  /**
   * Where the reads fall makes no difference: two ways of reading the same bytes, with security and
   * TLS settings changing at the same bytes, leave the session the same, replies and all, but for
   * its count of outstanding reads.
   */
  lemma ReadBoundariesInvisible(max: Limit, a: seq<Read>, b: seq<Read>)
    requires Spread(a) == Spread(b)
    ensures Core(Reads(max, START, Start(CREATED), a)) == Core(Reads(max, START, Start(CREATED), b))
  {
    ReadsRespond(max, START, Start(CREATED), a);
    ReadsRespond(max, START, Start(CREATED), b);
  }

  lemma {:induction false} RespondCore(s: Session, w: seq<Input>)
    ensures Core(Respond(s, w)) == Respond(Core(s), w)
    decreases |w|
  {
    hide OnXmlToken;
    if w != [] && !IsDone(s) {
      TokenCore(s, w[0].token, w[0].env);
      RespondCore(OnXmlToken(s, w[0].token, w[0].env), w[1..]);
    }
  }

  lemma ReadsAnswer(max: Limit, rs: seq<Read>)
    ensures Reads(max, START, Start(CREATED), rs).replies ==
            Respond(Start(CREATED), StreamInputs(max, START, Spread(rs))).replies
  {
    ReadsRespond(max, START, Start(CREATED), rs);
    RespondCore(Start(CREATED), StreamInputs(max, START, Spread(rs)));
    hide Respond, Reads, StreamInputs;
  }

  /** Whatever bytes arrive and however they are read, the reply log is a word of the reply language. */
  lemma BytesAnsweredInLanguage(max: Limit, rs: seq<Read>)
    ensures IsWord(Reads(max, START, Start(CREATED), rs).replies)
  {
    ReadsAnswer(max, rs);
    var ns, e := RepliesInLanguage(StreamInputs(max, START, Spread(rs)));
    hide Respond, Reads, StreamInputs;
    assert Reads(max, START, Start(CREATED), rs).replies == Log(ns, e);
  }

  /** A legal document, in any split into reads, is answered as its tokens are. */
  lemma DocumentAnswered(max: Limit, d: Document, env: Environment, rs: seq<Read>)
    requires ValidDocument(max, d) && Spread(rs) == Bytes(DocumentText(d), env)
    ensures Reads(max, START, Start(CREATED), rs).replies ==
            Respond(Start(CREATED), Inputs(DocumentTokens(max, d), env)).replies
  {
    var w := DocumentText(d);
    ReadsAnswer(max, rs);
    ReadInputs(max, START, w, env);
    DocumentRun(max, d);
    hide Respond, Reads, StreamInputs, Run, DocumentTokens;
    assert NewTokens(START, Run(max, START, w)) == DocumentTokens(max, d);
  }
}
