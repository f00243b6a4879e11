/** The ZeroScript lexer as the object it is: fields updated by actions, driven by a state
    machine that runs until no event is left. */
module ZsLex {
  import opened ZsLexTable
  import opened Wrappers

  class Lexer {
    var input: string
    var inputPtr: nat
    var token: string      // the token buffer, up to its first '\0'
    var tokenSize: nat
    var kind: TokenType
    var current: char
    var state: State
    var event: Event
    var nextEvent: Option<Event>
    var cycles: nat

    ghost predicate Valid()
      reads this
    {
      tokenSize <= |token| && inputPtr <= |input|
    }

    ghost function AsCore(): Core
      reads this
    {
      Core(state, token, tokenSize, kind)
    }

    constructor ()
      ensures Valid() && AsCore() == FRESH
    {
      input, inputPtr, token, tokenSize, kind := "", 0, "", 0, Function;
      current, state, event, nextEvent, cycles := '\0', ExpectingToken, Finished, None, 0;
    }

    // ----- actions

    method StartNewToken()
      modifies this`tokenSize, this`kind
      ensures tokenSize == 0 && kind == Null
    {
      tokenSize := 0;
      kind := Null;
    }

    method StoreTheCharacter()
      requires tokenSize <= |token|
      modifies this`token, this`tokenSize
      ensures token == old(token)[..old(tokenSize)] + [current] && tokenSize == old(tokenSize) + 1
    {
      token := token[..tokenSize] + [current];
      tokenSize := tokenSize + 1;
    }

    method StoreNewlineCharacter()
      requires tokenSize <= |token|
      modifies this`token, this`tokenSize, this`current
      ensures token == old(token)[..old(tokenSize)] + ['\n'] && tokenSize == old(tokenSize) + 1
    {
      current := '\n';
      StoreTheCharacter();
    }

    /** Reads a character and sets its event; stays at the end of the text. */
    method ParseNextCharacter()
      requires inputPtr <= |input|
      modifies this`current, this`inputPtr, this`nextEvent
      ensures current == Peek(input, old(inputPtr)) && inputPtr == Advance(input, old(inputPtr))
      ensures nextEvent == Some(EventOf(current)) && inputPtr <= |input|
    {
      current := if inputPtr < |input| then input[inputPtr] else '\0';
      if current != '\0' {
        inputPtr := inputPtr + 1;
      }
      nextEvent := Some(EventOf(current));
    }

    method PushBackToPrevious()
      modifies this`inputPtr
      ensures inputPtr == if old(inputPtr) > 0 then old(inputPtr) - 1 else 0
    {
      if inputPtr > 0 {
        inputPtr := inputPtr - 1;
      }
    }

    // ----- the state machine

    /** The lexer made this move when its pointer was at `p`. */
    ghost predicate Moved(m: Move, p: nat)
      reads this
    {
      match m
      case Continue(core) =>
        && AsCore() == core && current == Peek(input, p) && inputPtr == Advance(input, p)
        && nextEvent == Some(EventOf(current))
      case Stop(core, pushBack) =>
        && AsCore() == core && nextEvent == None
        && inputPtr == if pushBack && p > 0 then p - 1 else p
    }

    /** Stores the character and reads the next one. */
    method TakeTheCharacter()
      requires Valid()
      modifies this
      ensures Valid() && input == old(input) && cycles == old(cycles)
      ensures Moved(Continue(old(AsCore()).Store(old(current))), old(inputPtr))
    {
      StoreTheCharacter();
      ParseNextCharacter();
    }

    /** Stores a newline and reads the next character. */
    method TakeNewline()
      requires Valid()
      modifies this
      ensures Valid() && input == old(input) && cycles == old(cycles)
      ensures Moved(Continue(old(AsCore()).Store('\n')), old(inputPtr))
    {
      StoreNewlineCharacter();
      ParseNextCharacter();
    }

    /** Acts on one event: the branch of the state machine for the current state. */
    method Transition()
      requires Valid() && event == EventOf(current) && nextEvent == None
      modifies this
      ensures Valid() && input == old(input)
      ensures Moved(Dispatch(old(AsCore()), old(current)), old(inputPtr))
      ensures cycles == old(cycles)
    {
      match state
      case ExpectingToken => ExpectToken();
      case ReadingFunction => ReadFunction();
      case ReadingNumber => ReadNumber();
      case ReadingString => ReadString();
    }

    method ExpectToken()
      requires Valid() && event == EventOf(current) && nextEvent == None && state == ExpectingToken
      modifies this
      ensures Valid() && input == old(input) && cycles == old(cycles)
      ensures Moved(Dispatch(old(AsCore()), old(current)), old(inputPtr))
    {
      match event
      case Letter =>
        StartNewToken();
        TakeTheCharacter();
        state := ReadingFunction;
      case Hyphen | Plus | Period | Digit =>
        StartNewToken();
        TakeTheCharacter();
        state := ReadingNumber;
      case OpenQuote =>
        StartNewToken();
        ParseNextCharacter();
        state := ReadingString;
      case Whitespace | Newline =>
        ParseNextCharacter();
      case OpenList => kind := Open;
      case CloseList => kind := Close;
      case Finished => kind := Null;
      case _ => kind := Invalid;
    }

    method ReadFunction()
      requires Valid() && event == EventOf(current) && nextEvent == None && state == ReadingFunction
      modifies this
      ensures Valid() && input == old(input) && cycles == old(cycles)
      ensures Moved(Dispatch(old(AsCore()), old(current)), old(inputPtr))
    {
      match event
      case Letter | Digit | Hyphen | Period | Slash | Underscore =>
        TakeTheCharacter();
      case Whitespace | Newline | Finished =>
        kind := Function;
        state := ExpectingToken;
      case Colon =>
        kind := Compose;
        state := ExpectingToken;
      case OpenList | CloseList =>
        kind := Function;
        PushBackToPrevious();
        state := ExpectingToken;
      case _ =>
        kind := Invalid;
        state := ExpectingToken;
    }

    method ReadNumber()
      requires Valid() && event == EventOf(current) && nextEvent == None && state == ReadingNumber
      modifies this
      ensures Valid() && input == old(input) && cycles == old(cycles)
      ensures Moved(Dispatch(old(AsCore()), old(current)), old(inputPtr))
    {
      match event
      case Digit | Letter | Hyphen | Plus | Slash | Period | Comma | Colon | Asterisk | Caret | Percent =>
        TakeTheCharacter();
      case CloseList =>
        kind := Number;
        PushBackToPrevious();
        state := ExpectingToken;
      case Whitespace | Newline | Finished =>
        kind := Number;
        state := ExpectingToken;
      case _ =>
        kind := Invalid;
        state := ExpectingToken;
    }

    method ReadString()
      requires Valid() && event == EventOf(current) && nextEvent == None && state == ReadingString
      modifies this
      ensures Valid() && input == old(input) && cycles == old(cycles)
      ensures Moved(Dispatch(old(AsCore()), old(current)), old(inputPtr))
    {
      match event
      case CloseQuote =>
        kind := String;
        state := ExpectingToken;
      case Finished => StoreNewlineCharacter();
      case Newline =>
        TakeNewline();
      case _ =>
        TakeTheCharacter();
    }

    /** Runs until no event is left: from the character just read, one whole call. */
    method FsmExecute()
      requires Valid() && nextEvent == Some(EventOf(current))
      modifies this
      ensures Valid() && input == old(input) && nextEvent == None
      ensures Result(AsCore(), inputPtr) == Handle(input, old(inputPtr), old(AsCore()), old(current))
    {
      ghost var goal := Handle(input, inputPtr, AsCore(), current);
      while nextEvent != None
        invariant Valid() && input == old(input)
        invariant nextEvent != None ==>
          nextEvent == Some(EventOf(current)) && Handle(input, inputPtr, AsCore(), current) == goal
        invariant nextEvent == None ==> Result(AsCore(), inputPtr) == goal
        decreases nextEvent != None, |input| - inputPtr, current != '\0'
      {
        cycles := cycles + 1;
        event := nextEvent.value;
        nextEvent := None;
        Transition();
      }
    }

    method Next() returns (type_: TokenType)
      requires Valid()
      modifies this
      ensures Valid() && input == old(input) && type_ == kind
      ensures Result(AsCore(), inputPtr) == Scan(input, old(inputPtr), old(AsCore()))
    {
      ParseNextCharacter();
      FsmExecute();
      type_ := kind;
    }

    method First(text: string) returns (type_: TokenType)
      requires Valid()
      modifies this
      ensures Valid() && input == text && type_ == kind
      ensures Result(AsCore(), inputPtr) == Scan(text, 0, old(AsCore()))
    {
      input := text;
      inputPtr := 0;
      type_ := Next();
    }
  }
}
