/** The session object: its flags, its handler and the log of what it sends, updated in place. */
module ClientSession {
  import opened Tokens
  import opened Machine
  import opened SessionSteps
  import opened SessionLanguage
  import opened SessionStream
  import Tokenizer = XmlStreamTokenizer
  import StringMethods
  import opened NodeObjects

  class ClientSession {
    const tokenizer: Tokenizer.XmlStreamTokenizer
    var activeStreamHandler: Handler
    var isStopped: bool
    var isShutdown: bool
    var isConnected: bool
    var completionNotified: bool
    var threw: bool

    // Calls into the connection, and what the owner and the client have been told.
    var outstandingReads: nat
    var cancels: nat
    var closes: nat
    var completions: nat
    var upgrades: nat
    var replies: seq<Reply>

    function Contents(): Session
      reads this
    {
      Session(activeStreamHandler, isStopped, isShutdown, isConnected, completionNotified, threw,
              outstandingReads, cancels, closes, completions, upgrades, replies)
    }

    constructor (limit: Limit)
      ensures Contents() == CREATED
      ensures fresh(tokenizer) && tokenizer.limit == limit && tokenizer.Contents() == START
    {
      tokenizer := new Tokenizer.XmlStreamTokenizer(limit);
      activeStreamHandler, isStopped, isShutdown, isConnected := NoHandler, true, false, true;
      completionNotified, threw := false, false;
      outstandingReads, cancels, closes, completions, upgrades, replies := 0, 0, 0, 0, 0, [];
    }

    method SendReply(r: Reply)
      modifies this
      ensures Contents() == Send(old(Contents()), r)
    {
      if !isShutdown && isConnected {
        replies := replies + [r];
      }
    }

    method Stop()
      modifies this
      ensures Contents() == SessionSteps.Stop(old(Contents()))
    {
      var wasStopped := isStopped;
      isStopped := true;
      if !wasStopped && isConnected {
        cancels := cancels + 1;
      }
    }

    method NotifyCompletion()
      modifies this
      ensures Contents() == SessionSteps.NotifyCompletion(old(Contents()))
    {
      var wasNotified := completionNotified;
      completionNotified := true;
      if wasNotified { return; }
      completions := completions + 1;
    }

    method Shutdown()
      modifies this
      ensures Contents() == SessionSteps.Shutdown(old(Contents()))
    {
      var wasShutdown := isShutdown;
      isShutdown := true;
      if wasShutdown { return; }
      Stop();
      if !isConnected {
        NotifyCompletion();
        return;
      }
      isConnected := false;
      closes := closes + 1;
      NotifyCompletion();
    }

    method Process()
      modifies this
      ensures Contents() == ScheduleRead(old(Contents()))
    {
      if isStopped || isShutdown || !isConnected { return; }
      outstandingReads := outstandingReads + 1;
    }

    method Start()
      modifies this
      ensures Contents() == SessionSteps.Start(old(Contents()))
    {
      if isShutdown { return; }
      isStopped := false;
      Process();
    }

    method UpgradeTcpConnectionToTls(env: Environment)
      modifies this
      ensures Contents() == UpgradeToTls(old(Contents()), env)
    {
      if !env.tlsReady {
        Shutdown();
        return;
      }
      upgrades := upgrades + 1;
    }

    /** `onStart` of the handler just activated. */
    method StartStream()
      modifies this
      ensures Contents() == OnStart(old(Contents()))
    {
      SendReply(StreamHeader);
      if activeStreamHandler == Negotiation {
        SendReply(Features);
      } else {
        SendReply(InternalError);
        Shutdown();
      }
    }

    /** `onStanza` of the active handler. */
    method HandleStanza(name: string, env: Environment)
      modifies this
      ensures Contents() == OnStanza(old(Contents()), name, env)
    {
      if activeStreamHandler == Unimplemented { return; }
      if name != STARTTLS {
        SendReply(TlsRequiredError);
        Shutdown();
        return;
      }
      SendReply(Reply.Proceed);
      UpgradeTcpConnectionToTls(env);
    }

    method OnXmlToken(t: XmlToken, env: Environment)
      modifies this
      ensures Contents() == SessionSteps.OnXmlToken(old(Contents()), t, env)
    {
      if t.kind == TokenType.Comment { return; }
      var blank := false;
      if t.kind == TokenType.TextContent {
        blank := StringMethods.IsBlank(t.content);
      }
      assert blank <==> IsBlankText(t);
      hide IsBlankText;
      if activeStreamHandler == NoHandler {
        if t.kind == TokenType.Declaration || blank { return; }
        if t.kind != TokenType.OpenTag || t.content != STREAM {
          SendReply(BadFormatError);
          Shutdown();
          return;
        }
        activeStreamHandler := if env.secure then Unimplemented else Negotiation;
        StartStream();
        return;
      }
      if blank { return; }
      if t.kind == TokenType.CloseTag && t.content == STREAM {
        SendReply(StreamEnd);
        activeStreamHandler := NoHandler;
        return;
      }
      if t.kind == TokenType.EmptyTag {
        var node := Element.OfToken(t.content, t.attributes);
        if node.None? {
          threw := true;
          return;
        }
        HandleStanza(node.value.name, env);
        return;
      }
      if t.kind == TokenType.OpenTag && t.content == STREAM {
        SendReply(RestartError);
        Shutdown();
      }
    }

    /** The observer calls of one read, up to the one that ends the session. */
    method HearTokens(ts: seq<XmlToken>, env: Environment)
      modifies this
      ensures Contents() == Hear(old(Contents()), ts, env)
    {
      hide SessionSteps.OnXmlToken;
      var index := 0;
      while index < |ts| && !isShutdown && !threw
        invariant 0 <= index <= |ts|
        invariant Hear(Contents(), ts[index..], env) == Hear(old(Contents()), ts, env)
      {
        assert ts[index..][1..] == ts[index + 1..];
        OnXmlToken(ts[index], env);
        index := index + 1;
      }
    }

    /** The callback given to `read`. */
    method OnRead(error: bool, bytes: string, env: Environment)
      requires outstandingReads > 0
      modifies this, tokenizer
      ensures Contents() == SessionSteps.OnRead(
                              old(Contents()),
                              if error then ReadError
                              else
                                ReadEnd.Tokens(
                                  NewTokens(old(tokenizer.Contents()),
                                            Run(tokenizer.limit, old(tokenizer.Contents()), bytes)),
                                  env))
      ensures !error && !old(isStopped || isShutdown) && old(isConnected) && !threw ==>
                tokenizer.Contents() == Run(tokenizer.limit, old(tokenizer.Contents()), bytes)
    {
      hide SessionSteps.OnXmlToken, Hear, Run;
      outstandingReads := outstandingReads - 1;
      if error || isStopped || isShutdown || !isConnected {
        if !isShutdown && isConnected {
          Shutdown();
        }
        return;
      }
      var heard := |tokenizer.tokens|;
      tokenizer.Process(bytes);
      RunKeepsTokens(tokenizer.limit, old(tokenizer.Contents()), bytes);
      HearTokens(tokenizer.tokens[heard..], env);
      if !threw {
        Process();
      }
    }

    /**
     * Successful reads end one after the other until the session is done. A session served from its
     * start, however its bytes are split, leaves a word of the reply language.
     */
    method Serve(rs: seq<Read>)
      requires !IsDone(Contents()) ==> outstandingReads > 0 && !isStopped && isConnected
      modifies this, tokenizer
      ensures Contents() == Reads(tokenizer.limit, old(tokenizer.Contents()), old(Contents()), rs)
      ensures old(Contents()) == SessionSteps.Start(CREATED) && old(tokenizer.Contents()) == START ==> IsWord(replies)
    {
      hide SessionSteps.OnRead, Run, IsWord;
      var i := 0;
      assert rs[0..] == rs;
      while i < |rs| && !isShutdown && !threw
        invariant 0 <= i <= |rs|
        invariant !IsDone(Contents()) ==> outstandingReads > 0 && !isStopped && isConnected
        invariant Reads(tokenizer.limit, tokenizer.Contents(), Contents(), rs[i..]) ==
                  Reads(tokenizer.limit, old(tokenizer.Contents()), old(Contents()), rs)
      {
        ghost var m, s := tokenizer.Contents(), Contents();
        assert rs[i..][0] == rs[i] && rs[i..][1..] == rs[i + 1..];
        ReadKeepsGoing(s, NewTokens(m, Run(tokenizer.limit, m, rs[i].bytes)), rs[i].env);
        OnRead(false, rs[i].bytes, rs[i].env);
        i := i + 1;
      }
      if old(Contents()) == SessionSteps.Start(CREATED) && old(tokenizer.Contents()) == START {
        BytesAnsweredInLanguage(tokenizer.limit, rs);
      }
    }
  }
}
