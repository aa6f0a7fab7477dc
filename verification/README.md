# XTRPG server model

A Dafny model of the core of an XMPP server written in C++, with proofs about every input, every
run and every interleaving of its parts:

* the streaming XML tokenizer, a byte machine of 21 states (`Machine`, `XmlStreamTokenizer`), and a
  declarative grammar it is proved equivalent to (`Grammar`, `Parsing`, `Recognition`), with its bytes
  and errors spelled out (`TokenizerBytes`, `ErrorKinds`);
* the XML node classes that build and print trees, and their round trip through the tokenizer
  (`XmlTree`, `NodeObjects`, `Printing`, `RoundTrip`, `Injectivity`, `Declarations`);
* a TCP connection that can be upgraded to TLS, as a step system over pending work (`Connection`,
  `TcpConnection`, and the theorems in `ConnectionProperties`, `ConnectionRuns`, `ConnectionHistory`,
  `ConnectionOutcomes`, `ConnectionOrder`, `ConnectionReads`);
* a client session: tokens in, replies out, over the tokenizer and the connection's reads
  (`SessionSteps`, `SessionTokens`, `SessionLanguage`, `SessionStream`, `SessionBytes`,
  `SessionLifecycle`, `ClientSession`), and its replies as bytes (`Replies`, `ReplyBytes`, `Nesting`);
* one client from end to end: bytes from the connection's reads through the tokenizer to the session,
  and its replies through the connection to the transport (`ClientStack`, `StackRuns`, `StackReads`,
  `StackReplies`, `StackUpgrade`);
* the manager that owns the sessions (`ConnectionManager`, `ClientConnectionManager`);
* XMPP addresses (`Jids`, `JidObject`) and the configuration file (`Configuration`,
  `ConfigurationLaws`, `ConfigurationRoundTrip`, `ConfigManager`).

Each part that updates fields in place is a class whose methods are proved against functions on
values; the theorems are about those functions, and the methods' contracts carry them to the class.
Methods without a row of their own are proved equal to a step function.
`dafny verify dfyconfig.toml` checks the whole project.

## How to read the model

* What the machine and the grammar, or a method and its specification, share is pinned down by theorems
  on literal bytes: white space and names in `TokenizerBytes`, tokens and answers in `SessionTokens`, the
  replies in `ReplyBytes`, tags and escapes in `XmlTree` and `Escaping`, files in `ConfigurationLaws`.
* Bytes are Dafny characters. The theorems quantify over all characters, so they cover bytes.
  Character classes are those of the C locale.
* The tokenizer's buffer limit, 999999 by default, is a parameter of at least 3, the least that
  leaves room for the CDATA terminator. The observer is a log of tokens and errors.
* The grammar states what the machine accepts, which is more than XML 1.0 (Fifth Edition) in some
  places: names may start with a digit, `-` or `.`; no white space is needed between attributes; `--`
  may occur in comments; a closing tag may have no name when white space stands before its `>`.
* Tokens carry escaped text, since the tokenizer expands no references. Reference expansion in the
  sense of sections 4.1 and 4.6 of XML 1.0 is written out in `Escaping` to state what escaping means.
* A connection's API calls, posted handlers and I/O completions are atomic steps. Pending work may
  run in any order and complete with success or any error. What a callback itself calls is taken as
  separate calls after the step that invoked it. It is assumed that the object outlives its handlers.
  Theorems that speak of orderly runs also assume that no upgrade step runs while a handshake is in
  flight; `OverlapReopens` shows what happens otherwise, and the session does not rule it out, since
  it requests an upgrade for every `starttls` (`UpgradesAnswerProceeds`). Theorems about order also
  assume what a strand promises: posted steps run first in, first out.
* In the model of one client the connection's read callbacks are delivered to the session one after the
  other, each at some time after the step that invoked it; the security a token meets is that of the
  connection at the delivery. The owner may stop the session or shut it down at any time.
* Session runs end with the step that shuts the session down or with an exception leaving it: a token
  later in the same read would use the connection pointer the shutdown has cleared. Whether the
  connection is secure, and whether TLS can be set up, are inputs that may change from byte to byte. An
  exception leaves the session when an empty tag in an open stream has a name or an attribute that the
  tokenizer passes and the node classes refuse.
* A reply is a label in the session's log; `Replies` says which bytes it stands for. The theorems about
  those bytes ask for a buffer limit of 35, the length of the longest namespace in them, and the one about
  the logs that byte streams draw for 13, the length of `stream:stream`.
* The manager's sections under its callback lock, and the deletions its I/O context runs, are atomic
  steps; session identities are numbers, and a new session has one not in use.
* A configuration dump visits hash maps in an unspecified order, so the order is a parameter. The
  values modelled are booleans, 64-bit integers and strings.
* Where comments in the source disagree with its code the model follows the code: writing to a closed
  connection does nothing (`TcpConnection.hpp:70-73` says it throws), closing a closed one runs the
  callback (lines 84-87 say it does nothing), and the error for a second stream header speaks of a
  stanza size limit.

## Model

| member | source | states |
|---|---|---|
| `Recognition.AcceptsExactlyTheGrammar` | src/xml/tokenizer/XmlStreamTokenizer.cpp:59-389 | Input ends in TEXT without an error if and only if it is a document of the declarative grammar |
| `TokenizerBytes.SpaceAfterName` | src/xml/tokenizer/XmlStreamTokenizer.cpp:97-200 | For every nonempty string of letters, digits, `_`, `-`, `:` and `.` within the limit, and every string of blanks, tabs, newlines, vertical tabs, form feeds and carriage returns after it: `<name …/>`, `<name …>`, `</name …>` and `<?name …?>` are each read without error as their one token |
| `TokenizerBytes.SpaceAroundAttribute` | src/xml/tokenizer/XmlStreamTokenizer.cpp:129-197 | Such white space may stand before, within and after an attribute, in either quotes; it is stored with its value |
| `TokenizerBytes.RepeatedAttribute` | src/xml/tokenizer/XmlStreamTokenizer.cpp:178-197 | Of a repeated attribute the last value counts |
| `TokenizerBytes.ByteAfterName` | src/xml/tokenizer/XmlStreamTokenizer.cpp:95-127 | After a name a byte is malformed if and only if it is not a letter, a digit, one of `_-:.`, one of the six white-space bytes, `>` or `/`; it exhausts the buffer if and only if it continues a name that already fills the limit |
| `TokenizerBytes.TextReported` | src/xml/tokenizer/XmlStreamTokenizer.cpp:62-75 | Text is reported at the byte that fills the limit and not before |
| `TokenizerBytes.CDataReported` | src/xml/tokenizer/XmlStreamTokenizer.cpp:371-388 | CDATA is one token up to two bytes below the limit, and is cut there when it is a byte longer |
| `ErrorKinds.ErrorKindExactly` | src/xml/tokenizer/XmlStreamTokenizer.cpp:25-28 | The byte at which the tokenizer fails is malformed if and only if no larger limit would read it, and exhausts the buffer if and only if a larger one would |
| `Recognition.ErrorFreeExactly` | src/xml/tokenizer/XmlStreamTokenizer.cpp:59-389 | Input is read without an error if and only if it is legal lexemes followed by at most one legal lexeme in progress |
| `Recognition.Soundness` | src/xml/tokenizer/XmlStreamTokenizer.cpp:59-389 | At every point of an error-free run the bytes consumed split into grammar lexemes and one partial lexeme, the tokens emitted are those the lexemes denote, and the state and buffers hold exactly the rest: no byte is lost, doubled or moved |
| `Recognition.Completeness` | src/xml/tokenizer/XmlStreamTokenizer.cpp:59-389 | Every legal sequence of lexemes, with an unfinished one at its end, is accepted and leaves exactly the configuration it stands for |
| `Recognition.Unambiguous` | src/xml/tokenizer/XmlStreamTokenizer.cpp:59-389 | No byte string has two readings in the grammar |
| `Recognition.DocumentRun` | src/xml/tokenizer/XmlStreamTokenizer.cpp:59-389 | A legal document gives exactly its tokens, no error, and only unflushed trailing text in the buffer |
| `Recognition.DocumentInChunks` | src/xml/tokenizer/XmlStreamTokenizer.cpp:19-58 | A legal document split in any way into `process` calls gives exactly its tokens and no error |
| `EarlyErrors.ViablePrefix` | src/xml/tokenizer/XmlStreamTokenizer.cpp:59-389 | An input can be continued to a legal document if and only if it has been read without error and is not inside a comment too long to be closed; so the error comes at the first byte that makes the input hopeless, comments aside |
| `EarlyErrors.Continuable` | src/xml/tokenizer/XmlStreamTokenizer.cpp:59-389 | From every error-free configuration outside such a comment a continuation to a legal document exists |
| `EarlyErrors.DoomedRun` | src/xml/tokenizer/XmlStreamTokenizer.cpp:357-370 | A comment that can no longer be closed in time never leaves COMMENT except by the buffer error |
| `Machine.ChunkIndependence` | src/xml/tokenizer/XmlStreamTokenizer.cpp:19-58 | Any split of the input into `process` calls gives the tokens, fields and error of a single call |
| `Machine.ErrorLatches` | src/xml/tokenizer/XmlStreamTokenizer.cpp:20-23 | After an error nothing changes any more |
| `Machine.OneError` | src/xml/tokenizer/XmlStreamTokenizer.cpp:25-28 | The observer is told of at most one error, the one that is latched |
| `Machine.NothingAfterError` | src/xml/tokenizer/XmlStreamTokenizer.cpp:52-58 | Tokens, errors and fields are frozen from the byte that fails, whatever follows |
| `TokenizerProperties.ReachableInvariant` | src/xml/tokenizer/XmlStreamTokenizer.cpp:59-389 | On every input: the buffer is at most the limit while there is no error and one byte more ever; the empty-name checks of START_TAG_NAME never fire; OPEN, EMPTY and DECLARATION names are nonempty name characters; CLOSE, TEXT and COMMENT tokens carry no attributes; no TEXT token is empty |
| `TokenizerProperties.CommentExact` | src/xml/tokenizer/XmlStreamTokenizer.cpp:357-365 | A comment token holds exactly the bytes before the first `-->` |
| `TokenizerProperties.CommentIff` | src/xml/tokenizer/XmlStreamTokenizer.cpp:357-370 | A comment is read if and only if its body is at most the limit minus two bytes, and otherwise raises the buffer error |
| `TokenizerProperties.CommentTooLong` | src/xml/tokenizer/XmlStreamTokenizer.cpp:366-369 | Without a terminator the buffer error comes at body byte limit + 1 and not before |
| `TokenizerProperties.CDataExact` | src/xml/tokenizer/XmlStreamTokenizer.cpp:371-388 | For a CDATA body of any length the TEXT tokens join to exactly the bytes before the first `]]>`, also when the terminator straddles a flush; each has at most limit - 2 bytes |
| `TokenizerProperties.Lockstep` | src/xml/tokenizer/XmlStreamTokenizer.cpp:129-197 | From equal attribute maps the tag and the declaration attribute states run in lockstep on any bytes until one of the two bodies reads a terminator: same maps, buffers and errors |
| `XmlStreamTokenizer.XmlStreamTokenizer.constructor` | include/xtrpg/xml/tokenizer/XmlStreamTokenizer.hpp:70-82 | A fresh tokenizer is the start configuration |
| `XmlStreamTokenizer.XmlStreamTokenizer.Process` | src/xml/tokenizer/XmlStreamTokenizer.cpp:19-58 | The nested loops over blocks of 4096 bytes leave the fields and the observer's log that one step per byte of the whole stream gives |
| `XmlStreamTokenizer.XmlStreamTokenizer.Consume` | src/xml/tokenizer/XmlStreamTokenizer.cpp:59-389 | One turn of the state switch on the fields is one step of the machine |
| `Sequences.BlocksJoin` | src/xml/tokenizer/XmlStreamTokenizer.cpp:66-70 | Cutting text at the limit loses and moves nothing |
| `RoundTrip.PrintThenTokenize` | include/xtrpg/xml/node/TagNode.hpp:120-133 | For every valid tag tree whose names and escaped values fit the limit, its serialization, split in any way, is read as its preorder flattening with adjacent text merged, empty text dropped and long text cut into blocks; the tokenizer ends in TEXT with an empty buffer and no error |
| `RoundTrip.ShortTextRoundTrip` | include/xtrpg/xml/node/TagNode.hpp:120-133 | When no run of escaped text exceeds the limit the tokens are the merged preorder itself |
| `RoundTrip.AcceptedIffFits` | include/xtrpg/xml/node/TagNode.hpp:120-133 | A serialized tag tree is read without error if and only if every name and escaped attribute value fits the limit |
| `RoundTrip.ReadIffLegal` | src/xml/tokenizer/XmlStreamTokenizer.cpp:59-389 | A document legal for a larger limit is read without error if and only if it is legal for this one |
| `Injectivity.PrintsAlike` | include/xtrpg/xml/node/TagNode.hpp:120-133 | Two valid tag trees serialize to the same bytes if and only if they are equal once adjacent text is merged and empty text dropped at every level |
| `Injectivity.CanonicalPrints` | include/xtrpg/xml/node/NodeContainer.hpp:96-100 | Merging adjacent text and dropping empty text does not change the output |
| `Injectivity.BuildCanonical` | include/xtrpg/xml/node/TagNode.hpp:120-133 | The tree, up to that normalisation, can be rebuilt from its merged tokens by reference expansion |
| `Printing.PiecesArePrinted` | include/xtrpg/xml/node/TagNode.hpp:120-133 | The recursive serialization is the concatenation of the tree's lexemes in document order |
| `Printing.GroupTokens` | include/xtrpg/xml/node/TagNode.hpp:120-133 | Reading the printed lexemes gives the merged flattening of the tree |
| `Escaping.ExpandEscapedText` | include/xtrpg/xml/node/TextNode.hpp:83-100 | XML 1.0 reference expansion inverts text escaping |
| `Escaping.ExpandEscapedAttribute` | include/xtrpg/xml/node/IAttributes.hpp:96-111 | XML 1.0 reference expansion inverts attribute escaping |
| `Escaping.EscapeText` | include/xtrpg/xml/node/TextNode.hpp:84-99 | Escaped text has no `<`, so it cannot start markup |
| `Escaping.EscapeAttribute` | include/xtrpg/xml/node/IAttributes.hpp:96-111 | An escaped value has no double quote, so it cannot end its attribute |
| `XmlTree.KeysAreSorted` | include/xtrpg/xml/node/IAttributes.hpp:92-93 | Attributes are written once each, in strictly increasing order of their names |
| `XmlTree.KeysAscend` | include/xtrpg/xml/node/IAttributes.hpp:92-93 | That order is by bytes: of two names, the one written first is a proper prefix of the other or has the smaller byte where they first differ |
| `XmlTree.XmlNames` | include/xtrpg/xml/node/XmlName.hpp:11-36 | Node names are exactly the nonempty strings of letters, digits, `_`, `-`, `:` and `.` that do not start with a digit, `-` or `.` |
| `XmlTree.RefusedCharacters` | include/xtrpg/xml/node/XmlCharacter.hpp:11-19 | Text and values are refused if and only if they hold a control character other than tab, newline or carriage return |
| `XmlTree.TagBytes` | include/xtrpg/xml/node/TagNode.hpp:120-133 | The bytes of a tag without content, with an attribute, and with text |
| `Escaping.Escapes` | include/xtrpg/xml/node/IAttributes.hpp:96-111 | The escape of each character that has one, in text and in values; every other character stands for itself |
| `Escaping.EscapeTextConcat` | include/xtrpg/xml/node/TextNode.hpp:84-99 | Text is escaped character by character |
| `Escaping.EscapeAttributeConcat` | include/xtrpg/xml/node/IAttributes.hpp:96-111 | So are values |
| `Declarations.DeclarationRoundTrip` | include/xtrpg/xml/node/DeclarationNode.hpp:59-104 | After any sequence of `setAttribute` calls that sets a version the output is read as one DECLARATION token named `xml` whose attributes are exactly the stored map, if and only if names and values fit the limit |
| `Declarations.DeclarationPairs` | include/xtrpg/xml/node/DeclarationNode.hpp:59-82 | The accepted values of each of the three attributes by their bytes, `UTF-8` among the encodings, and no other attribute |
| `Declarations.DeclarationBytes` | include/xtrpg/xml/node/DeclarationNode.hpp:89-104 | The bytes of a declaration with all three attributes |
| `Declarations.SetAllValid` | include/xtrpg/xml/node/DeclarationNode.hpp:59-82 | Whatever calls are made, only accepted pairs are ever stored |
| `NodeObjects.TextContent.SetContent` | include/xtrpg/xml/node/TextNode.hpp:62-67 | Replaces the content, or throws and keeps it when a character is not allowed |
| `NodeObjects.TextContent.Append` | include/xtrpg/xml/node/TextNode.hpp:72-77 | Adds to the content, or throws and keeps it |
| `NodeObjects.WriteText` | include/xtrpg/xml/node/TextNode.hpp:83-100 | The character loop writes the escaped text |
| `NodeObjects.Attributes.SetAttribute` | include/xtrpg/xml/node/IAttributes.hpp:42-50 | Stores the pair or throws for a bad name before a bad value, and then stores nothing |
| `NodeObjects.LookupIsLastEdit` | include/xtrpg/xml/node/IAttributes.hpp:42-73 | After any sequence of `setAttribute` and `removeAttribute` calls a key holds a value if and only if its last accepted edit set that value, and every stored pair is a valid one |
| `NodeObjects.Attributes.RemoveAttribute` | include/xtrpg/xml/node/IAttributes.hpp:67-73 | Returns what was stored and leaves every other attribute |
| `NodeObjects.WriteAttributes` | include/xtrpg/xml/node/IAttributes.hpp:92-114 | The loops over the ordered map and over each value write the attributes in order, escaped |
| `NodeObjects.WriteNode` | include/xtrpg/xml/node/TagNode.hpp:120-133 | The recursive writer produces the serialization of the tree |
| `NodeObjects.WriteNodes` | include/xtrpg/xml/node/NodeContainer.hpp:96-100 | The loop over the children writes them in order |
| `NodeObjects.Element.Create` | include/xtrpg/xml/node/ITagname.hpp:18-22 | A tag node exists exactly for valid XML names |
| `NodeObjects.Element.OfToken` | src/xmpp/session/ClientSession.cpp:195-200 | The node built for an empty tag by setting each of the token's attributes exists if and only if its name and attributes are valid, and holds them all |
| `NodeObjects.Element.AppendText` | include/xtrpg/xml/node/NodeContainer.hpp:69-77 | A fresh text node goes to the end of the children unless its text is refused |
| `NodeObjects.Element.AppendTag` | include/xtrpg/xml/node/TagNode.hpp:92-102 | A fresh tag node built by its consumer goes to the end of the children |
| `NodeObjects.Element.Serialize` | include/xtrpg/xml/node/TagNode.hpp:120-133 | The node under construction writes the serialization of the tree built so far |
| `NodeObjects.DeclarationNode.SetAttribute` | include/xtrpg/xml/node/DeclarationNode.hpp:59-82 | Accepts exactly the declaration's attributes and values, and stores nothing otherwise |
| `NodeObjects.DeclarationNode.Serialize` | include/xtrpg/xml/node/DeclarationNode.hpp:89-104 | Throws exactly when no version is set; otherwise writes version, encoding, standalone in this order |
| `ConnectionProperties.CallbacksConserved` | src/network/TcpConnection.cpp:58-206 | Along every run, overlapping upgrades included, each callback given to `read` or `close` has been invoked or waits in exactly one place among posted steps, reads in flight and the close-callback list; with multiplicity, so none is lost or doubled |
| `ConnectionRuns.EveryCallbackInvoked` | src/network/TcpConnection.cpp:58-206 | Without overlapping upgrades, once no work is pending every read and close callback ever handed in has been invoked, exactly as often as it was handed in |
| `ConnectionRuns.ForwardOnly` | src/network/TcpConnection.cpp:16-56 | Without overlapping upgrades the state only moves forward through INSECURE, SECURE, CLOSING, CLOSED |
| `ConnectionRuns.OverlapReopens` | src/network/TcpConnection.cpp:21-54 | The assumption is needed: from every state in which an upgrade step overlaps a handshake three more handlers take the connection to CLOSED and then to SECURE |
| `ConnectionRuns.CloseCallbacksAfterClosed` | src/network/TcpConnection.cpp:160-206 | Without overlapping upgrades, a close callback runs only when the connection is CLOSED, and then none is left waiting |
| `ConnectionRuns.CloseStepNeverSecure` | src/network/TcpConnection.cpp:178-200 | Without overlapping upgrades a posted close step always finds CLOSING or CLOSED, so the TLS shutdown branch is never taken |
| `ConnectionRuns.ClosingDrains` | src/network/TcpConnection.cpp:160-206 | After `close`, handlers run in any order with any outcomes are no more than the pending work, and when all have run the state is CLOSED with no callback waiting |
| `ConnectionRuns.HandlersTerminate` | src/network/TcpConnection.cpp:16-206 | Without overlapping upgrades, between calls only so many handlers can run: the pending work bounds every schedule, also while the connection is open |
| `ConnectionProperties.ApplyInvariant` | src/network/TcpConnection.cpp:16-206 | Every step that is not an overlapping upgrade keeps the invariant relating state, flags, pending work, announcements and callbacks |
| `ConnectionProperties.ApplyPlaces` | src/network/TcpConnection.cpp:58-206 | One step moves each callback from one place to another or invokes it; only API calls add any |
| `ConnectionHistory.AnnouncementsExactly` | include/xtrpg/network/TcpConnection.hpp:140-145 | Without overlapping upgrades the sequences of states announced to listeners are exactly seven |
| `ConnectionHistory.ClosedTwiceExactly` | src/network/TcpConnection.cpp:31-54 | Without overlapping upgrades CLOSED is announced twice if and only if the posted close step runs when the connection is CLOSED already, and that happens only to a close that began while a handshake was in flight |
| `ConnectionHistory.ClosedSocket` | src/network/TcpConnection.cpp:160-206 | Without overlapping upgrades a connection that reports CLOSED still has its socket open if and only if a handshake had ended before the close began, because the plain close path closes the socket object the TLS stream was moved out of |
| `ConnectionHistory.SocketLeftOpen` | src/network/TcpConnection.cpp:160-206 | It does happen: a run from an accepted connection, closed once it is secure, that ends CLOSED with the socket open |
| `ConnectionHistory.ClosedThenSecure` | src/network/TcpConnection.cpp:16-56 | A run from an accepted connection, with two upgrades asked for at once, that reaches CLOSED and goes on to SECURE |
| `ConnectionOutcomes.ClosesExactly` | src/network/TcpConnection.cpp:16-206 | An open connection stops being open if and only if it is asked to close or an operation in flight fails |
| `ConnectionOutcomes.SecuresExactly` | src/network/TcpConnection.cpp:31-54 | It becomes secure if and only if a handshake succeeds while it is open |
| `ConnectionOutcomes.FinishesExactly` | src/network/TcpConnection.cpp:160-206 | A closing connection reports CLOSED if and only if its handshake ends or, with none in flight, its close step runs |
| `ConnectionReads.SuccessDelivers` | src/network/TcpConnection.cpp:79-114 | A read that succeeds calls its reader at once with exactly its bytes, and does nothing else |
| `ConnectionReads.DataDelivered` | src/network/TcpConnection.cpp:58-116 | Along every run, overlapping upgrades included, the data given to a reader are exactly the bytes with which its reads succeeded, in order |
| `ConnectionReads.ErrorsDelivered` | src/network/TcpConnection.cpp:58-116 | Along every run a reader is told an error, or has it waiting for the close, exactly as often as its reads failed with that code, and 125 also once for each call or posted step that found the connection not open |
| `ConnectionReads.ErrorsTold` | src/network/TcpConnection.cpp:58-116 | Without overlapping upgrades none of these is still waiting once the connection is CLOSED |
| `ConnectionReads.OpenReads` | src/network/TcpConnection.cpp:58-99 | On an open connection a call posts the read's step and the step starts the read |
| `ConnectionReads.CallbacksInOrder` | src/network/TcpConnection.cpp:7-14 | Close callbacks are invoked in the order of the list, each with what it stands for |
| `ConnectionReads.CloseQueues` | src/network/TcpConnection.cpp:160-175 | A close callback goes to the end of the list, or at CLOSED is invoked at once |
| `ConnectionReads.NothingPosted` | src/network/TcpConnection.cpp:16-176 | Calls on a connection that is not open post nothing but cancel steps |
| `ConnectionReads.CancelsExactly` | src/network/TcpConnection.cpp:118-183 | The socket's operations are cancelled exactly by a cancel step on an open connection and by a close step amid a handshake |
| `ConnectionReads.TlsShutdown` | src/network/TcpConnection.cpp:184-198 | A close step that meets a secure connection, as only overlapping upgrades bring about, shuts TLS down first; its end closes the socket, reports CLOSED and invokes the close callbacks |
| `ConnectionReads.OverlapClosesSocket` | src/network/TcpConnection.cpp:21-30 | An overlapping upgrade destroys the TLS stream with the socket in it |
| `ConnectionOutcomes.ResultsAreReal` | src/network/TcpConnection.cpp:58-116 | Along every run the data and errors given to read callbacks are those with which operations ended, or the abort of a connection no longer open |
| `ConnectionOutcomes.WritesSent` | src/network/TcpConnection.cpp:130-158 | No payload is given to the transport more often than it was written, and while the connection stays open none is lost |
| `ConnectionOutcomes.NothingSentAfterClose` | src/network/TcpConnection.cpp:130-158 | Once the connection is no longer open it stays so and its transport is given nothing more, whatever was still posted |
| `ConnectionOrder.SentInOrder` | src/network/TcpConnection.cpp:130-158 | With the strand's posted steps run first in, first out, and operations in flight ending in any order, what the transport has been given is a prefix of what was written, in the order of the calls; while the connection is open the rest is queued in that order |
| `ConnectionOutcomes.OpenAndIdleHasSent` | src/network/TcpConnection.cpp:130-158 | With nothing pending on an open connection what was written is what was sent |
| `TcpConnection.TcpConnection.DispatchCloseCallbacks` | src/network/TcpConnection.cpp:7-14 | Empties the list and invokes what it held in order, once each |
| `TcpConnection.TcpConnection.EndHandshake` | src/network/TcpConnection.cpp:31-54 | Finishes a close in progress, closes on failure, or turns SECURE |
| `TcpConnection.TcpConnection.Close` | src/network/TcpConnection.cpp:160-206 | Invokes, queues or starts closing according to the state |
| `TcpConnection.TcpConnection.RunClose` | src/network/TcpConnection.cpp:178-205 | Leaves a pending handshake to finish the close, or closes and dispatches |
| `TcpConnection.TcpConnection.RunPending` | src/network/TcpConnection.cpp:16-206 | Running any pending handler on the fields is one step of the connection |
| `TcpConnection.TcpConnection.RunCancel` | src/network/TcpConnection.cpp:119-127 | The posted step of `cancelRead` cancels the operations on the socket, unless the connection is no longer open |
| `TcpConnection.TcpConnection.Drain` | src/network/TcpConnection.cpp:160-206 | Once closing, a loop that runs any pending work with any outcome until none is left ends CLOSED with no close callback waiting and every callback handed in invoked, as often |
| `SessionTokens.OutsideStream` | src/xmpp/session/ClientSession.cpp:110-168 | What every token draws outside a stream and what becomes of the session, by the token's kind and text alone: comments, declarations and text of the six white-space bytes nothing, `stream:stream` the header with features or with the internal error, anything else the bad-format error and the end |
| `SessionTokens.InsideStream` | src/xmpp/session/ClientSession.cpp:170-262 | The same inside a stream: `</stream:stream>` the end tag, a second `<stream:stream>` the restart error, an empty `starttls` proceed, any other empty element the policy error, an empty tag that makes no element an exception, and everything else nothing |
| `SessionTokens.LiveStates` | src/xmpp/session/ClientSession.cpp:110-262 | Over tokens a live session is always in one of these two states, as the client's last stream tag says |
| `SessionTokens.EndedRead` | src/xmpp/session/ClientSession.cpp:81-89 | A read that fails, or ends after the session was stopped, shuts the session down unanswered |
| `SessionTokens.Starting` | src/xmpp/session/ClientSession.cpp:33-39 | Starting asks for a read, unless the session has shut down |
| `SessionTokens.Stopping` | src/xmpp/session/ClientSession.cpp:41-45 | The first stop cancels the read and later ones do nothing |
| `SessionLanguage.RepliesExactly` | src/xmpp/session/ClientSession.cpp:110-265 | The reply logs of sessions, over all tokens and all moments of becoming secure, are exactly the words (header, features, proceed*, end)* followed by one of: nothing, an open stream, a bad-format error, a header with an internal error, an open stream with a policy error |
| `SessionLanguage.RepliesInLanguage` | src/xmpp/session/ClientSession.cpp:110-265 | Every reply log is such a word, the handler and the shutdown flag agree with how it ends, and it is inside a stream if and only if the last stream tag the session handled opened one |
| `SessionLanguage.ErrorIsLast` | src/xmpp/session/ClientSession.cpp:135-152 | A stream error is the last reply, and the session has shut down |
| `SessionLanguage.ProceedAnswersStarttls` | include/xtrpg/xmpp/stream/NegotiationStreamHandler.hpp:38-65 | A token is answered with `proceed` if and only if it is a valid empty `starttls` element and the last stream tag before it opened a stream |
| `SessionLanguage.AnswersFromHistory` | src/xmpp/session/ClientSession.cpp:110-265 | What a live session answers to a token is determined by the token, the security, and whether the last stream tag before it opened a stream |
| `SessionLanguage.EndsExactly` | src/xmpp/session/ClientSession.cpp:110-315 | A live session is done after a token if and only if the answer is a stream error, TLS cannot be set up for a proceed, or an empty tag in an open stream has a name or attribute the node classes refuse |
| `ReplyBytes.Constants` | include/xtrpg/xmpp/stream/NegotiationStreamHandler.hpp:17-65 | The namespaces and texts of the replies |
| `ReplyBytes.HeaderBytes` | include/xtrpg/xmpp/stream/NegotiationStreamHandler.hpp:17-22 | The bytes of the stream header and of the end tag |
| `ReplyBytes.FeaturesBytes` | include/xtrpg/xmpp/stream/NegotiationStreamHandler.hpp:26-31 | The bytes of the features |
| `ReplyBytes.ProceedBytes` | include/xtrpg/xmpp/stream/NegotiationStreamHandler.hpp:58-60 | The bytes of `proceed` |
| `ReplyBytes.TlsRequiredBytes` | include/xtrpg/xmpp/stream/NegotiationStreamHandler.hpp:42-54 | The bytes of the policy error |
| `ReplyBytes.BadFormatBytes` | src/xmpp/session/ClientSession.cpp:137-150 | The bytes of the bad-format error |
| `ReplyBytes.InternalErrorBytes` | include/xtrpg/xmpp/stream/UnimplementedStreamHandler.hpp:17-34 | The bytes of the internal error |
| `ReplyBytes.RestartBytes` | src/xmpp/session/ClientSession.cpp:250-258 | The bytes of the restart error |
| `Replies.RepliesAreRead` | include/xtrpg/xmpp/stream/NegotiationStreamHandler.hpp:17-65 | All bytes of any reply log, in any chunks, are read by the tokenizer without error as the tokens of the replies one after the other, and leave it between lexemes |
| `Replies.TreeReplyTokens` | include/xtrpg/xmpp/stream/NegotiationStreamHandler.hpp:26-31 | The tokens of a reply built as a tree are the tree's own |
| `Nesting.SessionsNest` | src/xmpp/session/ClientSession.cpp:110-265 | The tags in everything a session sends nest by name; at the end only the stream can be open, and it is if and only if the last stream tag of the client that was handled opened one, so an error inside a stream leaves it open |
| `Nesting.PrintedTreesNest` | include/xtrpg/xml/node/TagNode.hpp:120-133 | The tags of every printed tree nest by name and leave open what was open before it |
| `SessionLanguage.UpgradesAnswerProceeds` | src/xmpp/session/ClientSession.cpp:281-315 | TLS is requested once for each proceed, except one whose TLS settings fail, which ends the session |
| `SessionLanguage.HandlerTracksStream` | src/xmpp/session/ClientSession.cpp:154-191 | While a session is alive its handler tells exactly whether the last stream tag opened a stream |
| `SessionStream.ReadBoundariesInvisible` | src/xmpp/session/ClientSession.cpp:77-94 | Two ways of splitting the same bytes into reads, with security changes fixed to byte positions, leave the same session: replies, upgrades, shutdown and all |
| `SessionStream.ReadsRespond` | src/xmpp/session/ClientSession.cpp:77-94 | Reads refine tokens: the session ends as if the tokens of the byte stream had come one by one |
| `SessionStream.BytesAnsweredInLanguage` | src/xmpp/session/ClientSession.cpp:77-94 | Whatever bytes arrive in whatever reads, the reply log is a word of the language |
| `SessionBytes.ByteLogsExactly` | src/xmpp/session/ClientSession.cpp:77-94 | The reply logs drawn by byte streams, in whatever reads, with security going from false to true at most once, are exactly the words of the language |
| `SessionStream.DocumentAnswered` | src/xmpp/session/ClientSession.cpp:77-94 | A document of the tokenizer's grammar, in any reads, is answered as the tokens the grammar gives it |
| `SessionLifecycle.CompletesOnce` | src/xmpp/session/ClientSession.cpp:47-108 | In every run: at most one read outstanding; the connection is closed and the owner told exactly once if the session has shut down and never otherwise; and when no read is outstanding it has shut down, unless an exception left it |
| `SessionLifecycle.SilentAfterShutdown` | src/xmpp/session/ClientSession.cpp:47-75 | After shutdown nothing is sent, requested, closed or reported again |
| `SessionLifecycle.ApplyInvariant` | src/xmpp/session/ClientSession.cpp:33-108 | Every event keeps the flags, counters and the outstanding read in step |
| `ClientSession.ClientSession.Shutdown` | src/xmpp/session/ClientSession.cpp:47-63 | The first call stops, gives up the connection with a close, and reports completion; later ones do nothing |
| `ClientSession.ClientSession.OnRead` | src/xmpp/session/ClientSession.cpp:81-93 | The read callback feeds the tokenizer, handles its tokens and schedules the next read, or shuts down |
| `ClientSession.ClientSession.OnXmlToken` | src/xmpp/session/ClientSession.cpp:110-265 | The branches of the token handler on the session's fields, with the node it builds, are one step of the reply automaton |
| `ClientSession.ClientSession.Serve` | src/xmpp/session/ClientSession.cpp:77-94 | A loop of reads on the fields and the tokenizer leaves the session as if the tokens of the bytes had come one by one; served from its start it has sent a word of the language |
| `ClientStack.FinishReadIsOnRead` | src/xmpp/session/ClientSession.cpp:81-93 | With tokenizer and connection attached the read callback still does to the session what it does alone, security being that of the connection |
| `ClientStack.RequestsInOrder` | src/xmpp/session/ClientSession.cpp:47-75 | A session's calls reach its connection in order: `proceed` is written before the upgrade, and what is said before the read is cancelled and the connection closed |
| `StackReads.BytesReachTokenizer` | src/xmpp/session/ClientSession.cpp:77-94 | In every run of one client the tokenizer has read exactly the bytes of the reads the session listened to; they are a prefix of the bytes the connection's reads received, and all of them when the session is not stopped and has been told of every read |
| `StackReads.RepliesAnswerReads` | src/xmpp/session/ClientSession.cpp:77-94 | Its replies are those of a session alone with these reads, however they are delivered and whenever the owner or the network intervenes |
| `StackRuns.ApplyAgrees` | src/xmpp/session/ClientSession.cpp:33-108 | Every step of session, tokenizer and connection together keeps them in agreement: the reads and the close the session counts are the ones the connection holds or has answered, and a session that has shut down has closed its connection |
| `StackRuns.DeliveryAwaited` | src/xmpp/session/ClientSession.cpp:77-94 | Every callback the connection invokes is the session's close or a read the session is waiting for |
| `StackRuns.DeletedAtMostOnce` | src/xmpp/session/ClientSession.cpp:47-63 | In every run without overlapping upgrades the close callback that deletes the connection is invoked at most once, and only when the session has shut down and the connection is CLOSED |
| `StackRuns.EndsDeletedOnce` | src/xmpp/session/ClientSession.cpp:47-63 | When nothing is pending and the session has been told of every callback, it has shut down or an exception has left it; if it has shut down, completion was reported once, the connection is CLOSED and it has been deleted exactly once |
| `StackRuns.ShutdownRunsOut` | src/xmpp/session/ClientSession.cpp:47-63 | After shutdown, handlers and callbacks in any order and with any outcomes are exactly as many as the work and callbacks outstanding, and when all have run the connection is CLOSED and has been deleted exactly once |
| `StackRuns.ShutdownFinishes` | src/xmpp/session/ClientSession.cpp:47-63 | From every state in which the session has shut down a run to such an end exists |
| `StackReplies.RepliesSentInOrder` | src/xmpp/session/ClientSession.cpp:65-75 | With the strand first in, first out, the transport has been given a prefix of the session's replies, in order, each once; while the connection is open the rest is queued in order |
| `StackReplies.SentIsPrefixOfWord` | src/xmpp/session/ClientSession.cpp:65-75 | Whatever bytes the client sends and however they arrive, whatever fails and whenever the owner stops or shuts down the session: the bytes given to the transport are a prefix of the text of a word of the reply language |
| `StackReplies.SentIsReadable` | src/xmpp/session/ClientSession.cpp:65-75 | Those bytes, cut off anywhere and split in any way, are read by a tokenizer of this repository without error |
| `StackUpgrade.HandshakeFollowsProceed` | include/xtrpg/xmpp/stream/NegotiationStreamHandler.hpp:58-64 | With the strand first in, first out, when an upgrade step runs on an open connection the last payload its transport has been given is `proceed` |
| `ConnectionManager.HandedOverOnce` | src/xmpp/ClientConnectionManager.cpp:51-93 | In every interleaving of accepts, completions, posted deletions and destruction each session made is in exactly one place: registered, deletion posted, held by the destructor, or deleted |
| `ConnectionManager.AllDeletedOnce` | src/xmpp/ClientConnectionManager.cpp:14-49 | When the destructor returns exactly the sessions made have been deleted, each once |
| `ConnectionManager.OnlyCompletedHandedOver` | src/xmpp/ClientConnectionManager.cpp:72-90 | Until destruction begins only sessions that completed are handed over for deletion |
| `ConnectionManager.CompletedIsHandedOver` | src/xmpp/ClientConnectionManager.cpp:72-90 | A session that completes while the manager runs is handed over for deletion, for good |
| `ConnectionManager.EachStartedAndEnded` | src/xmpp/ClientConnectionManager.cpp:14-93 | In every interleaving each session made has had its callbacks installed and been started exactly once; a session is deleted only after it was handed over by completing or told to shut down with its callback cleared, never both, and when the destructor returns each has been one or the other exactly once |
| `ConnectionManager.LogInOrder` | src/xmpp/ClientConnectionManager.cpp:14-93 | In every interleaving a session's callbacks are installed right before it is started, its completion callback is cleared right before it is shut down, and once one is shut down nothing else is done with any |
| `ConnectionManager.StopsExactly` | src/xmpp/ClientConnectionManager.cpp:51-70 | A session is stopped once for each time its connection reports CLOSED while the manager runs; a connection is refused exactly when it is accepted after shutdown has begun |
| `ConnectionManager.Accepting` | src/xmpp/ClientConnectionManager.cpp:51-62 | A new session goes to the end of the vector |
| `ConnectionManager.ShutdownFinishes` | src/xmpp/ClientConnectionManager.cpp:14-49 | A destructor that has begun can always finish, leaving nothing registered or posted |
| `ClientConnectionManager.ClientConnectionManager.OnObservation` | src/xmpp/ClientConnectionManager.cpp:51-93 | Registers a new session, installs its callbacks and starts it, or refuses the connection during shutdown |
| `ClientConnectionManager.ClientConnectionManager.OnCompletion` | src/xmpp/ClientConnectionManager.cpp:72-90 | Takes the session out of the vector and posts its deletion, unless shutting down or already gone |
| `ClientConnectionManager.ClientConnectionManager.Destroy` | src/xmpp/ClientConnectionManager.cpp:14-49 | Without interference every registered session has its callback cleared and is shut down, in order, and then everything posted and everything registered is deleted, in this order, each once |
| `Jids.RoundTripExactly` | src/xmpp/Jid.cpp:12-76 | For every JID, however built, parsing its printed form gives the same three parts back if and only if the local part has no `@` or slash, the domain has no slash, and the local part is nonempty or the domain has no `@` |
| `Jids.ParsedRoundTrip` | src/xmpp/Jid.cpp:12-76 | A JID that came from a string round-trips if and only if its local part is nonempty or its domain has no `@` |
| `Jids.EqualStringsEqualParts` | include/xtrpg/xmpp/Jid.hpp:101-109 | On such JIDs comparing cached strings is comparing parts |
| `Jids.ParsedExactly` | src/xmpp/Jid.cpp:12-53 | A JID can be read from some string if and only if its parts are normal, the local part has no `@` or slash and the domain has no slash |
| `Jids.NamesakeExactly` | include/xtrpg/xmpp/Jid.hpp:101-109 | A JID read from a string compares equal to a different JID read from a string if and only if it has a local part and its bare form is short enough for a domain, or it has none and its domain consists of two nonempty trimmed strings around its first `@` |
| `Jids.EqualStringsDifferentParts` | src/xmpp/Jid.cpp:36-44 | The concrete case: `@a@b` and `a@b` parse to JIDs that print the same and differ in their parts |
| `Jids.BareIsCut` | include/xtrpg/xmpp/Jid.hpp:48-58 | The bare JID of any JID can be constructed, and is the printed form cut at its first slash when no part before the resource contains one |
| `Jids.ParseNormal` | src/xmpp/Jid.cpp:78-111 | Every parsed JID has trimmed parts within 1023 code points, lower-case local and domain parts, and a nonempty domain |
| `Jids.MakeNormal` | include/xtrpg/xmpp/Jid.hpp:36-42 | So has every JID built from components, and normal components are kept as they are |
| `Jids.MakeExactly` | include/xtrpg/xmpp/Jid.hpp:36-42 | Components make a JID if and only if, lowered and trimmed, they are within the limits and the domain is not empty, and the JID consists of them |
| `Jids.CaseFolded` | src/xmpp/Jid.cpp:78-111 | Strings that differ in the case of ASCII letters make equal local parts and domains, which hold no capitals; the resource keeps its case |
| `Jids.PartLengths` | src/xmpp/Jid.cpp:78-111 | Each part may have 1023 code points and no more, and the domain must have one |
| `Strings.LowerByBytes` | include/xtrpg/utils/String.hpp:30-33 | Lowering moves `A` to `Z` by 32 and nothing else |
| `Strings.CodePointsByBytes` | include/xtrpg/utils/String.hpp:35-45 | The bytes that do not count are those from 0x80 to 0xBF |
| `Strings.TrimCutsSpace` | include/xtrpg/utils/String.hpp:15-28 | Trimming removes only white space, from the two ends |
| `Strings.TrimTrims` | include/xtrpg/utils/String.hpp:25-28 | The result has no white space at its ends, and trimmed strings stay |
| `StringMethods.TrimBoth` | include/xtrpg/utils/String.hpp:25-28 | Right then left trimming computes the trimmed string |
| `StringMethods.MakeLowerCase` | include/xtrpg/utils/String.hpp:30-33 | Lowers the ASCII capitals and nothing else |
| `StringMethods.CountUtf8CodePoints` | include/xtrpg/utils/String.hpp:35-45 | Counts the bytes that are not UTF-8 continuation bytes |
| `StringMethods.IsBlank` | include/xtrpg/utils/String.hpp:8-12 | True exactly when every character is white space |
| `JidObject.Jid.ParseFullJid` | src/xmpp/Jid.cpp:12-53 | Fails exactly on malformed strings and then assigns nothing; otherwise assigns the parts and the cached string |
| `JidObject.Jid.Assemble` | include/xtrpg/xmpp/Jid.hpp:36-42 | The same for construction from components |
| `JidObject.Jid.RebuildCachedFullJid` | src/xmpp/Jid.cpp:58-76 | Fails exactly on an empty domain; otherwise the cache is the printed form |
| `JidObject.Jid.ParsePart` | src/xmpp/Jid.cpp:78-111 | The three part parsers |
| `JidObject.Jid.ToBareJid` | include/xtrpg/xmpp/Jid.hpp:56-58 | A new valid JID with the same local part and domain and no resource; it never fails |
| `ConfigurationRoundTrip.DumpThenLoad` | src/config/ConfigManager.cpp:42-91 | For boolean, 64-bit integer and newline-free string values, single-line sections and descriptions, and plain keys, loading a manager's own dump, walked in any order, keeps exactly its entries, sets every file override to the value that was effective, and touches nothing else |
| `ConfigurationLaws.Tiers` | include/xtrpg/config/ConfigManager.hpp:48-50 | The command line counts before the file and the file before the default |
| `ConfigurationLaws.CommandLineStays` | src/config/ConfigManager.cpp:42-91 | Whatever text is loaded, a value given on the command line stays in effect |
| `ConfigurationLaws.FileCounts` | src/config/ConfigManager.cpp:42-91 | The line of a plain key and value under a section header takes effect unless the command line says otherwise, whatever the default; an absent entry is made with the default false |
| `ConfigurationLaws.GlobalCounts` | src/config/ConfigManager.cpp:44 | Before any header the section is `global` |
| `ConfigurationLaws.WhiteInLine` | src/config/ConfigManager.cpp:47-66 | White space around a line, around its key and before its value makes no difference |
| `ConfigurationLaws.IgnoredLine` | src/config/ConfigManager.cpp:50-60 | Blank lines, lines that begin with `#` and lines without `=` say nothing |
| `ConfigurationLaws.LastLine` | src/config/ConfigManager.cpp:46 | The last line need not end in a newline |
| `ConfigurationLaws.ValueForms` | include/xtrpg/config/ConfigManager.hpp:151-163 | How each kind of value is written |
| `ConfigurationLaws.LoneQuote` | src/config/ConfigManager.cpp:75-78 | A lone quote is read as the empty text |
| `ConfigurationLaws.UnreadableWord` | src/config/ConfigManager.cpp:84-87 | A word that starts no number, text or fraction makes the load throw |
| `ConfigurationLaws.DecimalForm` | include/xtrpg/config/ConfigManager.hpp:151-163 | Integers are written in decimal, digit by digit |
| `ConfigurationLaws.NumberForms` | src/config/ConfigManager.cpp:86 | White space before a number, a plus sign and what follows its digits make no difference, a minus sign negates, and no digits or a value outside 64 bits is an exception |
| `ConfigurationLaws.DumpBytes` | src/config/ConfigManager.cpp:153-176 | The bytes of the dump of one entry, with and without its description |
| `ConfigurationRoundTrip.EffectiveUnchanged` | include/xtrpg/config/ConfigManager.hpp:48-50 | Under the same conditions no effective value changes |
| `ConfigurationRoundTrip.KeyLineExactly` | src/config/ConfigManager.cpp:60-88 | A dumped key line reads back as its key and value if and only if the key has no `=`, does not start with `#`, a blank or a carriage return, and does not end with a blank |
| `ConfigurationRoundTrip.OnlyPlainValuesLoad` | src/config/ConfigManager.cpp:60-88 | Whatever text is loaded, no entry gets an override with a newline or outside 64 bits, so the condition on values is needed |
| `ConfigurationRoundTrip.FormatRead` | include/xtrpg/config/ConfigManager.hpp:151-163 | The formatted form of a boolean, a 64-bit integer or any string is read back as that value |
| `ConfigurationRoundTrip.LinesOfUnlines` | src/config/ConfigManager.cpp:46 | Lines written out are the lines read back |
| `Decimals.DecimalRoundTrip` | src/config/ConfigManager.cpp:86 | Reading a written integer gives it back, for every 64-bit integer |
| `ConfigManager.ConfigManager.LoadTomlFile` | src/config/ConfigManager.cpp:42-91 | The line loop leaves the values the line-by-line specification gives, also when a bad number ends it early |
| `ConfigManager.ConfigManager.HandleLine` | src/config/ConfigManager.cpp:47-88 | One turn of the loop |
| `ConfigManager.ConfigManager.Assign` | src/config/ConfigManager.cpp:73 | Indexing and assigning creates absent sections and entries and changes only the file override of one |
| `ConfigManager.ConfigManager.DumpResolvedConfig` | src/config/ConfigManager.cpp:153-176 | The nested loops write the dump of the walk |

## Left out

- Sockets, Asio, OpenSSL, certificates, acceptors, signals, threads, `main` and console output: they
  appear only as pending work that completes with success or an error.
- Interleavings inside one handler and the lifetime of memory: handlers are atomic, and no claim is
  made about use after deletion.
- The tokenizer's place in a read after an exception has left the session: nothing is read from then on.
- What a state listener does during an announcement: announcements are a log.
- Appending a node that already has a parent (`NodeContainer::append` of a node pointer) and the walk
  to its ancestors: children are fresh nodes, and trees are values once appended, so aliasing between
  trees is not captured.
- Tokens that follow the session's shutdown in the same read.
- Stream restart after TLS, SASL, resource binding and stanza trees, which the server does not
  implement; `_ptrCurrentXmlNode` is never set and is not a field of the model.
- Delivery of written bytes to the peer: `Write` may drop its payload when a close wins the race.
- PRECIS, IDNA and the octet limits of RFC 7622: the model counts and lowers what the code counts and
  lowers. Ordering and hashing of JIDs are not modelled.
- ConfigManager.ConfigManager.LoadTomlFile: ends the modelled load at a line whose value has a `.`
  outside quotes, where the code stores a floating-point number, or is empty, where it takes the first
  character of an empty string. The assignments before a line that throws are kept; what the caller then
  does is not modelled.
- ConfigManager.ConfigManager.HandleLine: says of such a line only that it ends the modelled load.
- Command-line parsing, help output, module registration and `TlsConfig`.
