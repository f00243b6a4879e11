/** The ZeroScript lexer: its events, its transition table, and what one call returns. */
module ZsLexTable {

  datatype Event =
    | Letter | Hyphen | Plus | Period | Digit | OpenQuote | Whitespace | Newline
    | OpenList | CloseList | Finished | Slash | Underscore | Colon | Comma
    | Asterisk | Caret | Percent | CloseQuote | Other

  datatype State = ExpectingToken | ReadingFunction | ReadingNumber | ReadingString

  datatype TokenType = Function | Compose | String | Number | Open | Close | Invalid | Null

  /** The event for each character; the end of the text reads as '\0'. */
  function EventOf(c: char): Event {
    if c == '\0' then Finished
    else if 'A' <= c <= 'Z' || 'a' <= c <= 'z' then Letter
    else if '0' <= c <= '9' then Digit
    else match c
      case '-' => Hyphen
      case '+' => Plus
      case '/' => Slash
      case '_' => Underscore
      case '.' => Period
      case ',' => Comma
      case ':' => Colon
      case '*' => Asterisk
      case '^' => Caret
      case '%' => Percent
      case '<' => OpenQuote
      case '>' => CloseQuote
      case '(' => OpenList
      case ')' => CloseList
      case ' ' => Whitespace
      case '\t' => Whitespace
      case '\n' => Newline
      case _ => Other
  }

  /** The text at a position; a '\0' ends it like its end does. */
  function Peek(input: string, p: nat): char {
    if p < |input| then input[p] else '\0'
  }

  function Advance(input: string, p: nat): nat {
    if Peek(input, p) != '\0' then p + 1 else p
  }

  /** What the lexer keeps from one character to the next, and from one text to the next:
      its state, its token buffer up to the closing '\0', and the size of the token so
      far. A new token resets the size but leaves the buffer as it was. */
  datatype Core = Core(state: State, text: string, size: nat, kind: TokenType) {
    predicate Valid() { size <= |text| }

    function Restart(): Core { this.(size := 0, kind := Null) }

    function Store(c: char): Core
      requires Valid()
    {
      this.(text := text[..size] + [c], size := size + 1)
    }
  }

  const FRESH := Core(ExpectingToken, "", 0, Function)

  /** A step either reads on, or ends the call, perhaps pushing back the character. */
  datatype Move = Continue(core: Core) | Stop(core: Core, pushBack: bool)

  function Done(core: Core, kind: TokenType, pushBack: bool): Move {
    Stop(core.(kind := kind, state := ExpectingToken), pushBack)
  }

  function Begin(core: Core, c: char, state: State): Move {
    Continue(core.Restart().Store(c).(state := state))
  }

  /** The transition table. */
  function Dispatch(core: Core, c: char): Move
    requires core.Valid()
  {
    match core.state
    case ExpectingToken => (match EventOf(c)
      case Letter => Begin(core, c, ReadingFunction)
      case Hyphen | Plus | Period | Digit => Begin(core, c, ReadingNumber)
      case OpenQuote => Continue(core.Restart().(state := ReadingString))
      case Whitespace | Newline => Continue(core)
      case OpenList => Done(core, Open, false)
      case CloseList => Done(core, Close, false)
      case Finished => Done(core, Null, false)
      case _ => Done(core, Invalid, false))
    case ReadingFunction => (match EventOf(c)
      case Letter | Digit | Hyphen | Period | Slash | Underscore => Continue(core.Store(c))
      case Whitespace | Newline | Finished => Done(core, Function, false)
      case Colon => Done(core, Compose, false)
      case OpenList | CloseList => Done(core, Function, true)
      case _ => Done(core, Invalid, false))
    case ReadingNumber => (match EventOf(c)
      case Digit | Letter | Hyphen | Plus | Slash | Period | Comma | Colon | Asterisk | Caret | Percent =>
        Continue(core.Store(c))
      case CloseList => Done(core, Number, true)
      case Whitespace | Newline | Finished => Done(core, Number, false)
      case _ => Done(core, Invalid, false))
    case ReadingString => (match EventOf(c)
      case CloseQuote => Done(core, String, false)
      case Finished => Stop(core.Store('\n'), false)
      case Newline => Continue(core.Store('\n'))
      case _ => Continue(core.Store(c)))
  }

  datatype Result = Result(core: Core, ptr: nat)

  /** Acts on a character just read; `p` is the position after it. */
  function Handle(input: string, p: nat, core: Core, c: char): (r: Result)
    requires core.Valid()
    ensures r.core.Valid()
    requires c != '\0' ==> p <= |input|
    decreases |input| - p, if c == '\0' then 0 else 2
  {
    match Dispatch(core, c)
    case Stop(core', pushBack) => Result(core', if pushBack && p > 0 then p - 1 else p)
    case Continue(core') => Scan(input, p, core')
  }

  /** One call: reads on from position `p` until the table stops. */
  function Scan(input: string, p: nat, core: Core): (r: Result)
    requires core.Valid()
    ensures r.core.Valid()
    decreases |input| - p, 1
  {
    Handle(input, Advance(input, p), core, Peek(input, p))
  }
}
