/** The tokenizer object: fields updated in place, one byte at a time. */
module XmlStreamTokenizer {
  import opened Characters
  import opened Sequences
  import opened Tokens
  import opened Machine

  const BLOCK_SIZE: nat := 4096

  class XmlStreamTokenizer {
    const limit: Limit
    var state: State
    var buffer: string
    var attributeName: string
    var specialPrefix: string
    var quote: char
    var error: TokenizationError
    var currentToken: XmlToken

    // What the registered observer has been told.
    var tokens: seq<XmlToken>
    var errors: seq<TokenizationError>

    function Contents(): Config
      reads this
    {
      Config(state, buffer, attributeName, specialPrefix, quote, error, currentToken, tokens, errors)
    }

    constructor (limit: Limit)
      ensures this.limit == limit && Contents() == START
    {
      this.limit := limit;
      state, buffer, attributeName, specialPrefix, quote := State.Text, "", "", "", 0 as char;
      error, currentToken, tokens, errors := NoError, EMPTY_TOKEN, [], [];
    }

    method Fail(e: TokenizationError)
      modifies this
      ensures Contents() == Machine.Fail(old(Contents()), e)
    {
      error := e;
      errors := errors + [e];
    }

    method EmitToken(token: XmlToken)
      modifies this
      ensures Contents() == Machine.Emit(old(Contents()), token)
    {
      tokens := tokens + [token];
    }

    method EmitText(text: string)
      modifies this
      ensures Contents() == Machine.EmitText(old(Contents()), text)
    {
      if text != "" {
        EmitToken(XmlToken(TokenType.TextContent, text, map[]));
      }
    }

    /** `_buffer += character`, then the size check. */
    method Append(c: char)
      modifies this
      ensures Contents() == Machine.Grow(limit, old(Contents()), c)
    {
      buffer := buffer + [c];
      if |buffer| > limit {
        Fail(BufferSizeExhausted);
      }
    }

    method TakeName(next: State)
      modifies this
      ensures Contents() == Machine.Name(old(Contents()), next)
    {
      currentToken := currentToken.(content := buffer);
      buffer := "";
      state := next;
    }

    method TakeAttributeName(next: State)
      modifies this
      ensures Contents() == old(Contents()).(attributeName := old(buffer), buffer := "", state := next)
    {
      attributeName := buffer;
      buffer := "";
      state := next;
    }

    method ConsumeText(c: char)
      modifies this
      ensures Contents() == StepText(limit, old(Contents()), c)
    {
      if c == '<' {
        EmitText(buffer);
        buffer := "";
        state := State.AfterOpen;
      } else {
        buffer := buffer + [c];
        if |buffer| >= limit {
          EmitText(buffer);
          buffer := "";
        }
      }
    }

    method ConsumeAfterOpen(c: char)
      modifies this
      ensures Contents() == StepAfterOpen(old(Contents()), c)
    {
      currentToken := EMPTY_TOKEN;
      if c == '/' {
        buffer := "";
        currentToken := currentToken.(kind := TokenType.CloseTag);
        state := State.EndTagName;
      } else if c == '?' {
        buffer := "";
        currentToken := currentToken.(kind := TokenType.Declaration);
        state := State.DeclarationName;
      } else if c == '!' {
        specialPrefix := "";
        state := State.Special;
      } else if IsNameChar(c) {
        buffer := [c];
        currentToken := currentToken.(kind := TokenType.OpenTag);
        state := State.StartTagName;
      } else {
        Fail(MalformedInput);
      }
    }

    method ConsumeTagName(c: char)
      modifies this
      ensures Contents() == StepTagName(limit, old(Contents()), c)
    {
      if IsNameChar(c) {
        Append(c);
      } else if IsSpace(c) {
        if buffer == "" { Fail(MalformedInput); } else { TakeName(State.StartTagBody); }
      } else if c == '>' {
        if buffer == "" {
          Fail(MalformedInput);
        } else {
          currentToken := currentToken.(content := buffer);
          buffer := "";
          EmitToken(currentToken);
          state := State.Text;
        }
      } else if c == '/' {
        if buffer == "" { Fail(MalformedInput); } else { TakeName(State.SelfClosing); }
      } else {
        Fail(MalformedInput);
      }
    }

    method ConsumeTagBody(c: char)
      modifies this
      ensures Contents() == StepTagBody(old(Contents()), c)
    {
      if IsSpace(c) {
      } else if c == '>' {
        EmitToken(currentToken);
        state := State.Text;
      } else if c == '/' {
        state := State.SelfClosing;
      } else if IsNameChar(c) {
        buffer := [c];
        state := State.AttributeName;
      } else {
        Fail(MalformedInput);
      }
    }

    method ConsumeAttributeName(c: char)
      modifies this
      ensures Contents() ==
              StepAttributeName(limit, old(Contents()), c, State.AttributeAfterName, State.AttributeValueStart)
    {
      if IsNameChar(c) {
        Append(c);
      } else if IsSpace(c) {
        TakeAttributeName(State.AttributeAfterName);
      } else if c == '=' {
        TakeAttributeName(State.AttributeValueStart);
      } else {
        Fail(MalformedInput);
      }
    }

    method ConsumeDeclarationAttributeName(c: char)
      modifies this
      ensures Contents() ==
              StepAttributeName(
                limit, old(Contents()), c, State.DeclarationAttributeAfterName, State.DeclarationAttributeValueStart)
    {
      if IsNameChar(c) {
        Append(c);
      } else if IsSpace(c) {
        TakeAttributeName(State.DeclarationAttributeAfterName);
      } else if c == '=' {
        TakeAttributeName(State.DeclarationAttributeValueStart);
      } else {
        Fail(MalformedInput);
      }
    }

    method ConsumeAttributeAfterName(c: char, value: State)
      modifies this
      ensures Contents() == StepAttributeAfterName(old(Contents()), c, value)
    {
      if IsSpace(c) {
      } else if c == '=' {
        state := value;
      } else {
        Fail(MalformedInput);
      }
    }

    method ConsumeAttributeValueStart(c: char, value: State)
      modifies this
      ensures Contents() == StepAttributeValueStart(old(Contents()), c, value)
    {
      if IsSpace(c) {
      } else if c == '\'' || c == '"' {
        quote := c;
        buffer := "";
        state := value;
      } else {
        Fail(MalformedInput);
      }
    }

    method ConsumeAttributeValue(c: char, body: State)
      modifies this
      ensures Contents() == StepAttributeValue(limit, old(Contents()), c, body)
    {
      if c == quote {
        currentToken := currentToken.(attributes := currentToken.attributes[attributeName := buffer]);
        attributeName := "";
        buffer := "";
        state := body;
      } else {
        Append(c);
      }
    }

    method ConsumeEndTagName(c: char)
      modifies this
      ensures Contents() == StepEndTagName(limit, old(Contents()), c)
    {
      if IsNameChar(c) {
        Append(c);
      } else if IsSpace(c) {
        TakeName(State.EndTagBody);
      } else if c == '>' {
        if buffer == "" {
          Fail(MalformedInput);
        } else {
          currentToken := currentToken.(content := buffer);
          buffer := "";
          EmitToken(currentToken);
          state := State.Text;
        }
      } else {
        Fail(MalformedInput);
      }
    }

    method ConsumeDeclarationName(c: char)
      modifies this
      ensures Contents() == StepDeclarationName(limit, old(Contents()), c)
    {
      if IsNameChar(c) {
        Append(c);
      } else if IsSpace(c) {
        if buffer == "" { Fail(MalformedInput); } else { TakeName(State.DeclarationBody); }
      } else if c == '?' {
        if buffer == "" { Fail(MalformedInput); } else { TakeName(State.DeclarationQuestion); }
      } else {
        Fail(MalformedInput);
      }
    }

    method ConsumeDeclarationBody(c: char)
      modifies this
      ensures Contents() == StepDeclarationBody(old(Contents()), c)
    {
      if IsSpace(c) {
      } else if c == '?' {
        state := State.DeclarationQuestion;
      } else if IsNameChar(c) {
        buffer := [c];
        state := State.DeclarationAttributeName;
      } else {
        Fail(MalformedInput);
      }
    }

    method ConsumeSpecial(c: char)
      modifies this
      ensures Contents() == StepSpecial(old(Contents()), c)
    {
      specialPrefix := specialPrefix + [c];
      if specialPrefix == "--" {
        buffer := "";
        state := State.Comment;
      } else if specialPrefix == CDATA_PREFIX {
        buffer := "";
        state := State.CData;
      } else if specialPrefix <= "--" || specialPrefix <= CDATA_PREFIX {
      } else {
        Fail(MalformedInput);
      }
    }

    method ConsumeComment(c: char)
      modifies this
      ensures Contents() == StepComment(limit, old(Contents()), c)
    {
      buffer := buffer + [c];
      if EndsWith(buffer, "-->") {
        EmitToken(XmlToken(TokenType.Comment, buffer[..|buffer| - 3], map[]));
        buffer := "";
        state := State.Text;
      } else if |buffer| > limit {
        Fail(BufferSizeExhausted);
      }
    }

    method ConsumeCData(c: char)
      modifies this
      ensures Contents() == StepCData(limit, old(Contents()), c)
    {
      buffer := buffer + [c];
      if EndsWith(buffer, "]]>") {
        buffer := buffer[..|buffer| - 3];
        EmitText(buffer);
        buffer := "";
        state := State.Text;
      } else if |buffer| >= limit {
        EmitText(buffer[..|buffer| - 2]);
        buffer := buffer[|buffer| - 2..];
      }
    }

    method ConsumeClosing(c: char, isSelfClosing: bool)
      modifies this
      ensures Contents() ==
              if c != '>' then Machine.Fail(old(Contents()), MalformedInput)
              else if isSelfClosing then
                EmitCurrent(old(Contents()).(currentToken := old(currentToken).(kind := TokenType.EmptyTag)))
              else EmitCurrent(old(Contents()))
    {
      if c == '>' {
        if isSelfClosing {
          currentToken := currentToken.(kind := TokenType.EmptyTag);
        }
        EmitToken(currentToken);
        state := State.Text;
      } else {
        Fail(MalformedInput);
      }
    }

    method Consume(c: char)
      modifies this
      ensures Contents() == Step(limit, old(Contents()), c)
    {
      if error != NoError { return; }
      match state {
        case Text => ConsumeText(c);
        case AfterOpen => ConsumeAfterOpen(c);
        case StartTagName => ConsumeTagName(c);
        case StartTagBody => ConsumeTagBody(c);
        case AttributeName => ConsumeAttributeName(c);
        case AttributeAfterName => ConsumeAttributeAfterName(c, State.AttributeValueStart);
        case AttributeValueStart => ConsumeAttributeValueStart(c, State.AttributeValue);
        case AttributeValue => ConsumeAttributeValue(c, State.StartTagBody);
        case EndTagName => ConsumeEndTagName(c);
        case EndTagBody => if !IsSpace(c) { ConsumeClosing(c, false); }
        case DeclarationName => ConsumeDeclarationName(c);
        case DeclarationBody => ConsumeDeclarationBody(c);
        case DeclarationAttributeName => ConsumeDeclarationAttributeName(c);
        case DeclarationAttributeAfterName =>
          ConsumeAttributeAfterName(c, State.DeclarationAttributeValueStart);
        case DeclarationAttributeValueStart =>
          ConsumeAttributeValueStart(c, State.DeclarationAttributeValue);
        case DeclarationAttributeValue => ConsumeAttributeValue(c, State.DeclarationBody);
        case DeclarationQuestion => ConsumeClosing(c, false);
        case SelfClosing => ConsumeClosing(c, true);
        case Special => ConsumeSpecial(c);
        case Comment => ConsumeComment(c);
        case CData => ConsumeCData(c);
      }
    }

    /**
     * Consume a whole stream. It is read in blocks of up to 4096 bytes, and both loops stop at the
     * first error; neither shows in the result.
     */
    method Process(stream: string)
      modifies this
      ensures Contents() == Run(limit, old(Contents()), stream)
    {
      hide Machine.Step;
      if error != NoError {
        ErrorLatches(limit, Contents(), stream);
        return;
      }
      ghost var start := Contents();
      var position := 0;
      while error == NoError && position < |stream|
        invariant position <= |stream|
        invariant Contents() == Run(limit, start, stream[..position])
        decreases |stream| - position, error == NoError
      {
        var count := if |stream| - position < BLOCK_SIZE then |stream| - position else BLOCK_SIZE;
        var index := 0;
        while error == NoError && index < count
          invariant 0 <= index <= count
          invariant index == 0 ==> error == NoError
          invariant Contents() == Run(limit, start, stream[..position + index])
          decreases count - index
        {
          Consume(stream[position + index]);
          assert stream[..position + index + 1] == stream[..position + index] + [stream[position + index]];
          RunSnoc(limit, start, stream[..position + index], stream[position + index]);
          index := index + 1;
        }
        position := position + index;
      }
      assert stream == stream[..position] + stream[position..];
      RunConcat(limit, start, stream[..position], stream[position..]);
      if error != NoError {
        ErrorLatches(limit, Contents(), stream[position..]);
      }
    }
  }
}
