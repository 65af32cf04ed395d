/**
 * The server-to-client message: its type, its two tokens, the two renderings
 * (wire line and display sentence) and the client's decoder of wire lines.
 */
module Codec {
  import opened Wrappers
  import opened Text
  import opened Patterns

  datatype MessageType = OK | ERROR | MESSAGE | NEW_NICKNAME | JOINED | LEFT | BYE | PRIVATE

  /** A type and two tokens; a token the type does not use is "". */
  datatype Message = Message(kind: MessageType, token1: string, token2: string)

  /** The one-argument constructor: both tokens empty. */
  function Bare(kind: MessageType): (m: Message)
    ensures m.kind == kind && m.token1 == "" && m.token2 == ""
  {
    Message(kind, "", "")
  }

  /** The two-argument constructor: the second token empty. */
  function WithToken(kind: MessageType, token1: string): (m: Message)
    ensures m.kind == kind && m.token1 == token1 && m.token2 == ""
  {
    Message(kind, token1, "")
  }

  /** The word that opens each wire line. */
  function Keyword(kind: MessageType): string {
    match kind
    case OK => "OK"
    case ERROR => "ERROR"
    case MESSAGE => "MESSAGE"
    case NEW_NICKNAME => "NEWNICK"
    case JOINED => "JOINED"
    case LEFT => "LEFT"
    case BYE => "BYE"
    case PRIVATE => "PRIVATE"
  }

  /** The wire form without its line end. ERROR carries no text on the wire. */
  function Wire(m: Message): string {
    match m.kind
    case OK | ERROR | BYE => Keyword(m.kind)
    case JOINED | LEFT => Keyword(m.kind) + " " + m.token1
    case MESSAGE | NEW_NICKNAME | PRIVATE => Keyword(m.kind) + " " + m.token1 + " " + m.token2
  }

  /** The sentence the client displays, without its line end. */
  function Pretty(m: Message): string {
    match m.kind
    case OK => "Command successful."
    case ERROR => "Error. " + m.token1
    case MESSAGE => m.token1 + ": " + m.token2
    case NEW_NICKNAME => m.token1 + " is now known as " + m.token2
    case JOINED => m.token1 + " has joined the room."
    case LEFT => m.token1 + " left the room."
    case BYE => "Disconnected..."
    case PRIVATE => "<" + m.token1 + ">: " + m.token2
  }

  /** toString(pretty): either rendering, closed by exactly one appended newline. */
  function Render(m: Message, pretty: bool): (r: string)
    ensures |r| > 0 && r[|r| - 1] == '\n'
    ensures r[..|r| - 1] == (if pretty then Pretty(m) else Wire(m))
  {
    (if pretty then Pretty(m) else Wire(m)) + "\n"
  }

  // ------------------------------------------------------------ decoding

  const MessagePattern := Pattern("MESSAGE ", TokenAndText)
  const NewNickPattern := Pattern("NEWNICK ", TwoTokens)
  const JoinedPattern := Pattern("JOINED ", OneToken)
  const LeftPattern := Pattern("LEFT ", OneToken)
  const PrivatePattern := Pattern("PRIVATE ", TokenAndText)

  /**
   * parse_string: OK and ERROR on an exact match, then MESSAGE, NEWNICK,
   * JOINED and LEFT found anywhere in the text, then BYE on an exact match,
   * then PRIVATE found anywhere; anything else is an ERROR with no text.
   */
  function Parse(text: string): (m: Message)
    ensures m.kind == OK <==> text == "OK"
    ensures m.kind == BYE <==> text == "BYE"
    ensures m.kind in {OK, ERROR, BYE} ==> m.token1 == "" && m.token2 == ""
    ensures m.kind in {MESSAGE, NEW_NICKNAME, JOINED, LEFT, PRIVATE} ==> IsToken(m.token1)
    ensures m.kind in {JOINED, LEFT} ==> m.token2 == ""
    ensures m.kind == NEW_NICKNAME ==> IsToken(m.token2)
    ensures m.kind in {MESSAGE, PRIVATE} ==> IsText(m.token2)
    // The first pattern found wins, in the order the decoder tries them.
    ensures m.kind == MESSAGE <==> Find(MessagePattern, text).Some?
    ensures m.kind == NEW_NICKNAME <==>
      Find(MessagePattern, text).None? && Find(NewNickPattern, text).Some?
    ensures m.kind == JOINED <==>
      Find(MessagePattern, text).None? && Find(NewNickPattern, text).None? && Find(JoinedPattern, text).Some?
    ensures m.kind == LEFT <==>
      && Find(MessagePattern, text).None? && Find(NewNickPattern, text).None? && Find(JoinedPattern, text).None?
      && Find(LeftPattern, text).Some?
    ensures m.kind == PRIVATE <==>
      && text != "BYE" && Find(MessagePattern, text).None? && Find(NewNickPattern, text).None?
      && Find(JoinedPattern, text).None? && Find(LeftPattern, text).None? && Find(PrivatePattern, text).Some?
    // A decoded message carries the groups of the pattern that was found.
    ensures m.kind in {MESSAGE, NEW_NICKNAME, JOINED, LEFT, PRIVATE} ==>
      var found := Find(PatternFor(m.kind), text);
      found.Some? && m.token1 == found.value.first && m.token2 == found.value.second
    // ERROR: the exact word, or nothing recognised at all.
    ensures m.kind == ERROR <==>
      && text != "OK" && text != "BYE" && Find(MessagePattern, text).None? && Find(NewNickPattern, text).None?
      && Find(JoinedPattern, text).None? && Find(LeftPattern, text).None? && Find(PrivatePattern, text).None?
  {
    ExactWordsMatchNoPattern();
    if text == "OK" then Bare(OK)
    else if text == "ERROR" then Bare(ERROR)
    else if Find(MessagePattern, text).Some? then Found(MESSAGE, Find(MessagePattern, text))
    else if Find(NewNickPattern, text).Some? then Found(NEW_NICKNAME, Find(NewNickPattern, text))
    else if Find(JoinedPattern, text).Some? then Found(JOINED, Find(JoinedPattern, text))
    else if Find(LeftPattern, text).Some? then Found(LEFT, Find(LeftPattern, text))
    else if text == "BYE" then Bare(BYE)
    else if Find(PrivatePattern, text).Some? then Found(PRIVATE, Find(PrivatePattern, text))
    else Bare(ERROR)
  }

  /** The pattern whose match decodes to `kind`. */
  function PatternFor(kind: MessageType): Pattern
    requires kind in {MESSAGE, NEW_NICKNAME, JOINED, LEFT, PRIVATE}
  {
    match kind
    case MESSAGE => MessagePattern
    case NEW_NICKNAME => NewNickPattern
    case JOINED => JoinedPattern
    case LEFT => LeftPattern
    case PRIVATE => PrivatePattern
  }

  /** The words decoded by an exact test hold no space, so no pattern matches them. */
  lemma ExactWordsMatchNoPattern()
    ensures forall w | w in {"OK", "ERROR", "BYE"} ::
      && Find(MessagePattern, w).None? && Find(NewNickPattern, w).None? && Find(JoinedPattern, w).None?
      && Find(LeftPattern, w).None? && Find(PrivatePattern, w).None?
  {
    forall w | w in {"OK", "ERROR", "BYE"}
      ensures && Find(MessagePattern, w).None? && Find(NewNickPattern, w).None? && Find(JoinedPattern, w).None?
              && Find(LeftPattern, w).None? && Find(PrivatePattern, w).None?
    {
      NoSpaceNoMatch(MessagePattern, w);
      NoSpaceNoMatch(NewNickPattern, w);
      NoSpaceNoMatch(JoinedPattern, w);
      NoSpaceNoMatch(LeftPattern, w);
      NoSpaceNoMatch(PrivatePattern, w);
    }
  }

  /** The message a successful match yields: its groups become the tokens. */
  function Found(kind: MessageType, m: Option<Match>): Message
    requires m.Some?
  {
    Message(kind, m.value.first, m.value.second)
  }
}
