/** The lexer state machine (`src/lexer/mod.rs`, `src/lexer/state.rs`), proved against a word-splitting
    definition that has no cursor, no states and no backing up. */
module Lexing {
  import opened Wrappers
  import opened Text
  import opened Tokens

  const END := Item(LitEof, "")

  /** The item for text gathered before a separator; nothing for no text. */
  function Word(acc: string): seq<Item> {
    if acc == "" then [] else [Item(CheckKeyword(acc), acc)]
  }

  /** The items of a condition text: `acc` is the word under construction, `rest` is unread. */
  function Lex(acc: string, rest: string): (items: seq<Item>)
    decreases |rest|
  {
    if ONE_OF <= rest then [Item(StmtOneOf, acc + ONE_OF)] + Lex("", rest[4..])
    else if ALL_OF <= rest then [Item(StmtAllOf, acc + ALL_OF)] + Lex("", rest[6..])
    else if rest == "" then Word(acc) + [END]
    else if rest[0] == ')' then Word(acc) + ([Item(SepRpar, ")")] + Lex("", rest[1..]))
    else if rest[0] == '(' then [Item(SepLpar, acc + "(")] + Lex("", rest[1..])
    else if rest[0] == '|' then [Item(SepPipe, acc + "|"), Item(Unsupported, rest[1..]), END]
    else if IsWhitespace(rest[0]) then Word(acc) + Lex("", TrimStart(rest))
    else Lex(acc + [rest[0]], rest[1..])
  }

  lemma ConcatEmpty<T>(a: seq<T>)
    ensures [] + a == a
  {
  }

  lemma ConcatAssociates<T>(a: seq<T>, b: seq<T>, c: seq<T>)
    ensures a + (b + c) == (a + b) + c
  {
  }

  // ----- the same definition on positions of one input, which is what the cursor walks over

  predicate StartsAt(input: string, i: nat, word: string) {
    i + |word| <= |input| && forall k :: 0 <= k < |word| ==> input[i + k] == word[k]
  }

  function SkipAt(input: string, i: nat): (j: nat)
    requires i <= |input|
    ensures i <= j <= |input|
    decreases |input| - i
  {
    if i == |input| || !IsWhitespace(input[i]) then i else SkipAt(input, i + 1)
  }

  function LexAt(input: string, start: nat, i: nat): seq<Item>
    requires start <= i <= |input|
    decreases |input| - i
  {
    if StartsAt(input, i, ONE_OF) then [Item(StmtOneOf, input[start..i + 4])] + LexAt(input, i + 4, i + 4)
    else if StartsAt(input, i, ALL_OF) then [Item(StmtAllOf, input[start..i + 6])] + LexAt(input, i + 6, i + 6)
    else if i == |input| then Word(input[start..i]) + [END]
    else if input[i] == ')' then
      Word(input[start..i]) + ([Item(SepRpar, ")")] + LexAt(input, i + 1, i + 1))
    else if input[i] == '(' then [Item(SepLpar, input[start..i + 1])] + LexAt(input, i + 1, i + 1)
    else if input[i] == '|' then
      [Item(SepPipe, input[start..i + 1]), Item(Unsupported, input[i + 1..]), END]
    else if IsWhitespace(input[i]) then
      var j := SkipAt(input, i + 1);
      Word(input[start..i]) + LexAt(input, j, j)
    else LexAt(input, start, i + 1)
  }

  lemma {:induction false} SkipAtTrims(input: string, i: nat)
    requires i <= |input|
    ensures TrimStart(input[i..]) == input[SkipAt(input, i)..]
    decreases |input| - i
  {
    if i < |input| && IsWhitespace(input[i]) {
      assert input[i..][1..] == input[i + 1..];
      SkipAtTrims(input, i + 1);
    }
  }

  lemma StartsAtIsPrefix(input: string, i: nat, word: string)
    requires i <= |input|
    ensures StartsAt(input, i, word) <==> word <= input[i..]
    ensures StartsAt(input, i, word) ==> input[..i] + word <= input
  {
    if word <= input[i..] {
      assert forall k :: 0 <= k < |word| ==> input[i..][k] == word[k];
    }
  }

  /** Walking a cursor over the input computes the word-splitting definition. */
  lemma {:induction false} LexAtIsLex(input: string, start: nat, i: nat)
    requires start <= i <= |input|
    ensures LexAt(input, start, i) == Lex(input[start..i], input[i..])
    decreases |input| - i, 1
  {
    StartsAtIsPrefix(input, i, ONE_OF);
    StartsAtIsPrefix(input, i, ALL_OF);
    if StartsAt(input, i, ONE_OF) {
      LexAtIsLex(input, i + 4, i + 4);
      LexAtStatement(input, start, i, ONE_OF);
    } else if StartsAt(input, i, ALL_OF) {
      LexAtIsLex(input, i + 6, i + 6);
      LexAtStatement(input, start, i, ALL_OF);
    } else if i < |input| {
      LexAtChar(input, start, i);
      if input[i] in "()" {
        LexAtIsLex(input, i + 1, i + 1);
        EmptySlice(input, i + 1);
      } else {
        LexAtIsLexWord(input, start, i);
      }
    }
  }

  lemma {:induction false} LexAtIsLexWord(input: string, start: nat, i: nat)
    requires start <= i < |input| && input[i] !in "()"
    requires !StartsAt(input, i, ONE_OF) && !StartsAt(input, i, ALL_OF)
    requires !(ONE_OF <= input[i..]) && !(ALL_OF <= input[i..])
    ensures LexAt(input, start, i) == Lex(input[start..i], input[i..])
    decreases |input| - i, 0
  {
    LexAtChar(input, start, i);
    if IsWhitespace(input[i]) {
      var j := SkipAt(input, i + 1);
      SkipAtTrims(input, i);
      LexAtIsLex(input, j, j);
      EmptySlice(input, j);
    } else if input[i] != '|' {
      LexAtIsLex(input, start, i + 1);
    }
  }

  lemma EmptySlice(input: string, i: nat)
    requires i <= |input|
    ensures input[i..i] == ""
  {
  }

  lemma LexAtStatement(input: string, start: nat, i: nat, word: string)
    requires start <= i && StartsAt(input, i, word)
    ensures input[start..i] + word == input[start..i + |word|]
    ensures input[i..][|word|..] == input[i + |word|..] && input[i + |word|..i + |word|] == ""
  {
  }

  lemma LexAtChar(input: string, start: nat, i: nat)
    requires start <= i < |input|
    ensures input[start..i] + [input[i]] == input[start..i + 1]
    ensures input[i..][1..] == input[i + 1..] && input[i..][0] == input[i]
  {
  }

  datatype LexState =
    | Condition | OneOf | AllOf | Eof | Pipe | Lpar | Rpar | RparWithTokens
    | AccumulateBeforeWhitespace | Whitespace | Aggregation

  /** The cursor never leaves `start <= position <= |input|`; each state knows why it was entered. */
  ghost predicate ValidAt(input: string, start: nat, position: nat, state: Option<LexState>) {
    && start <= position <= |input|
    && match state
       case None => start == position == |input|
       case Some(Condition) => true
       case Some(OneOf) => StartsAt(input, position, ONE_OF)
       case Some(AllOf) => StartsAt(input, position, ALL_OF)
       case Some(Eof) => position == |input|
       case Some(Pipe) => start < position
       case Some(Lpar) => start < position
       case Some(Rpar) => start < position && input[start..position] == ")"
       case Some(RparWithTokens) => start < position && input[position - 1] == ')'
       case Some(AccumulateBeforeWhitespace) => start < position && IsWhitespace(input[position - 1])
       case Some(Whitespace) => start == position < |input| && IsWhitespace(input[position])
       case Some(Aggregation) => start == position
  }

  /** The items still to come from a state. */
  ghost function Future(input: string, start: nat, position: nat, state: Option<LexState>): seq<Item>
    requires ValidAt(input, start, position, state)
  {
    match state
    case None => []
    case Some(Condition) => LexAt(input, start, position)
    case Some(OneOf) => [Item(StmtOneOf, input[start..position + 4])] + LexAt(input, position + 4, position + 4)
    case Some(AllOf) => [Item(StmtAllOf, input[start..position + 6])] + LexAt(input, position + 6, position + 6)
    case Some(Eof) => Word(input[start..position]) + [END]
    case Some(Pipe) => [Item(SepPipe, input[start..position]), Item(Unsupported, input[position..]), END]
    case Some(Lpar) => [Item(SepLpar, input[start..position])] + LexAt(input, position, position)
    case Some(Rpar) => [Item(SepRpar, ")")] + LexAt(input, position, position)
    case Some(RparWithTokens) =>
      Word(input[start..position - 1]) + ([Item(SepRpar, ")")] + LexAt(input, position, position))
    case Some(AccumulateBeforeWhitespace) =>
      var j := SkipAt(input, position);
      Word(input[start..position - 1]) + LexAt(input, j, j)
    case Some(Whitespace) =>
      var j := SkipAt(input, position);
      LexAt(input, j, j)
    case Some(Aggregation) => [Item(Unsupported, input[position..]), END]
  }

  /** Decreases at every state change although two of the states move the cursor back. */
  ghost function Measure(input: string, position: nat, state: Option<LexState>): nat
    requires position <= |input|
  {
    var unread := |input| - position;
    match state
    case None => 0
    case Some(Eof) => 1
    case Some(Whitespace) => 4 * unread + 1
    case Some(Aggregation) => 4 * unread + 2
    case Some(OneOf) => 4 * unread + 2
    case Some(AllOf) => 4 * unread + 2
    case Some(Condition) => 4 * unread + 3
    case Some(Lpar) => 4 * unread + 5
    case Some(Rpar) => 4 * unread + 5
    case Some(Pipe) => 4 * unread + 5
    case Some(RparWithTokens) => 4 * unread + 6
    case Some(AccumulateBeforeWhitespace) => 4 * unread + 6
  }

  /** The state entered after reading one character in the condition state. */
  function AfterChar(c: char): LexState {
    if c == ')' then RparWithTokens
    else if c == '(' then Lpar
    else if c == '|' then Pipe
    else if IsWhitespace(c) then AccumulateBeforeWhitespace
    else Condition
  }

  lemma ReadChar(input: string, start: nat, position: nat)
    requires start <= position < |input|
    requires !StartsAt(input, position, ONE_OF) && !StartsAt(input, position, ALL_OF)
    ensures ValidAt(input, start, position + 1, Some(AfterChar(input[position])))
    ensures Future(input, start, position, Some(Condition))
            == Future(input, start, position + 1, Some(AfterChar(input[position])))
  {
  }

  /** Backing up over the whitespace character after a word. */
  lemma LeaveWord(input: string, start: nat, position: nat)
    requires ValidAt(input, start, position, Some(AccumulateBeforeWhitespace))
    ensures ValidAt(input, position - 1, position - 1, Some(Whitespace))
    ensures Future(input, start, position, Some(AccumulateBeforeWhitespace))
            == Word(input[start..position - 1]) + Future(input, position - 1, position - 1, Some(Whitespace))
    ensures Measure(input, position - 1, Some(Whitespace)) < Measure(input, position, Some(AccumulateBeforeWhitespace))
  {
    assert SkipAt(input, position - 1) == SkipAt(input, position);
  }

  class Lexer {
    const input: string
    var start: nat
    var position: nat
    var width: nat
    var items: seq<Item>  // what has been sent down the channel

    constructor (input: string)
      ensures this.input == input && start == position == width == 0 && items == []
    {
      this.input := input;
      start, position, width, items := 0, 0, 0, [];
    }

    ghost predicate Valid(state: Option<LexState>)
      reads this
    {
      ValidAt(input, start, position, state) 
      && (state == Some(RparWithTokens) || state == Some(AccumulateBeforeWhitespace) ==> width == 1)
    }

    /** What every state function does: the items it sends and those still to come after it are the items that
        were to come before it. */
    twostate predicate Advances(before: Option<LexState>, sent: seq<Item>, new after: Option<LexState>)
      requires old(Valid(before))
      reads this
    {
      && Valid(after)
      && items == old(items) + sent
      && Future(input, old(start), old(position), before) == sent + Future(input, start, position, after)
      && Measure(input, position, after) < Measure(input, old(position), before)
    }

    method NextChar() returns (c: Option<char>)
      requires position <= |input|
      modifies this`position, this`width
      ensures old(position) == |input| ==> c == None && position == old(position) && width == 0
      ensures old(position) < |input| ==> c == Some(input[old(position)]) && position == old(position) + 1 && width == 1
    {
      if position >= |input| {
        width := 0;
        return None;
      }
      c := Some(input[position]);
      width := 1;
      position := position + width;
    }

    method Backup()
      requires width <= position
      modifies this`position, this`width
      ensures position == old(position) - old(width) && width == 0
    {
      if position > 0 && width > 0 {
        position := position - width;
        width := 0;
      }
    }

    method Ignore()
      modifies this`start
      ensures start == position
    {
      start := position;
    }

    method Emit(token: Token)
      requires start <= position <= |input|
      modifies this`start, this`items
      ensures items == old(items) + [Item(token, input[old(start)..position])] && start == position
      ensures input[start..position] == ""
    {
      items := items + [Item(token, input[start..position])];
      Ignore();
    }

    method LexCondition() returns (next: Option<LexState>, ghost sent: seq<Item>)
      requires Valid(Some(Condition))
      modifies this`position, this`width
      ensures Advances(Some(Condition), sent, next)
    {
      sent := [];
      ghost var future := Future(input, start, position, Some(Condition));
      ConcatEmpty(future);
      next := Some(Condition);
      while next == Some(Condition)
        invariant Valid(next) && next != None && position >= old(position)
        invariant Future(input, start, position, next) == future
        invariant next != Some(Condition)
                  ==> Measure(input, position, next) < Measure(input, old(position), Some(Condition))
        decreases next == Some(Condition), |input| - position
      {
        next := StepCondition();
      }
    }

    /** One round of the condition loop. */
    method StepCondition() returns (next: Option<LexState>)
      requires Valid(Some(Condition))
      modifies this`position, this`width
      ensures Valid(next) && next != None
      ensures Future(input, start, position, next) == old(Future(input, start, position, Some(Condition)))
      ensures if next == Some(Condition) then position == old(position) + 1
              else position >= old(position)
                   && Measure(input, position, next) < Measure(input, old(position), Some(Condition))
    {
      if StartsAt(input, position, ONE_OF) {
        return Some(OneOf);
      }
      if StartsAt(input, position, ALL_OF) {
        return Some(AllOf);
      }
      if position < |input| {
        ReadChar(input, start, position);
      }
      var c := NextChar();
      match c {
        case None => next := Some(Eof);
        case Some(ch) => next := Some(AfterChar(ch));
      }
    }

    method LexOneOf() returns (next: Option<LexState>, ghost sent: seq<Item>)
      requires Valid(Some(OneOf))
      modifies this
      ensures Advances(Some(OneOf), sent, next)
    {
      position := position + |ONE_OF|;
      sent := [Item(StmtOneOf, input[start..position])];
      Emit(StmtOneOf);
      next := Some(Condition);
    }

    method LexAllOf() returns (next: Option<LexState>, ghost sent: seq<Item>)
      requires Valid(Some(AllOf))
      modifies this
      ensures Advances(Some(AllOf), sent, next)
    {
      position := position + |ALL_OF|;
      sent := [Item(StmtAllOf, input[start..position])];
      Emit(StmtAllOf);
      next := Some(Condition);
    }

    /** Sends the gathered word, if there is one. */
    method EmitWord()
      requires start <= position <= |input|
      modifies this`start, this`items
      ensures items == old(items) + Word(input[old(start)..position]) && start == position
      ensures input[start..position] == ""
    {
      if position > start {
        var token := CheckKeyword(input[start..position]);
        Emit(token);
      }
    }

    method LexEof() returns (next: Option<LexState>, ghost sent: seq<Item>)
      requires Valid(Some(Eof))
      modifies this
      ensures Advances(Some(Eof), sent, next)
    {
      sent := Word(input[start..position]) + [END];
      EmitWord();
      Emit(LitEof);
      next := None;
    }

    method LexPipe() returns (next: Option<LexState>, ghost sent: seq<Item>)
      requires Valid(Some(Pipe))
      modifies this
      ensures Advances(Some(Pipe), sent, next)
    {
      sent := [Item(SepPipe, input[start..position])];
      Emit(SepPipe);
      next := Some(Aggregation);
    }

    method LexLpar() returns (next: Option<LexState>, ghost sent: seq<Item>)
      requires Valid(Some(Lpar))
      modifies this
      ensures Advances(Some(Lpar), sent, next)
    {
      sent := [Item(SepLpar, input[start..position])];
      Emit(SepLpar);
      next := Some(Condition);
    }

    /** Skips whitespace, then reads one more character. */
    method SkipThenRead() returns (next: Option<LexState>)
      requires start == position <= |input|
      modifies this`start, this`position, this`width
      ensures var j := SkipAt(input, old(position));
        if j == |input| then next == Some(Eof) && start == position == j
        else next == Some(Rpar) && start == j && position == j + 1 && input[start..position] == [input[j]]
    {
      while true
        invariant start == position <= |input|
        invariant SkipAt(input, position) == SkipAt(input, old(position))
        decreases |input| - position
      {
        var c := NextChar();
        match c {
          case None => return Some(Eof);
          case Some(ch) =>
            if IsWhitespace(ch) {
              Ignore();
            } else {
              return Some(Rpar);
            }
        }
      }
    }

    /** Sends the text before a closing parenthesis unless it classifies as nothing. */
    method EmitUnlessNil()
      requires start <= position <= |input|
      modifies this`start, this`items
      ensures items == old(items) + Word(input[old(start)..position]) && start == position
    {
      var token := CheckKeyword(input[start..position]);
      if token != Nil {
        Emit(token);
      }
    }

    /** The closing parenthesis is put back and the word before it is sent. The skip then finds no whitespace
        and reads the parenthesis again. */
    method LexRparWithTokens() returns (next: Option<LexState>, ghost sent: seq<Item>)
      requires Valid(Some(RparWithTokens))
      modifies this
      ensures Advances(Some(RparWithTokens), sent, next)
    {
      Backup();
      sent := Word(input[start..position]);
      assert SkipAt(input, position) == position;
      EmitUnlessNil();
      next := SkipThenRead();
    }

    method LexRpar() returns (next: Option<LexState>, ghost sent: seq<Item>)
      requires Valid(Some(Rpar))
      modifies this
      ensures Advances(Some(Rpar), sent, next)
    {
      sent := [Item(SepRpar, input[start..position])];
      Emit(SepRpar);
      next := Some(Condition);
    }

    method LexAccumulateBeforeWhitespace() returns (next: Option<LexState>, ghost sent: seq<Item>)
      requires Valid(Some(AccumulateBeforeWhitespace))
      modifies this
      ensures Advances(Some(AccumulateBeforeWhitespace), sent, next)
    {
      ghost var behind := position - 1;
      LeaveWord(input, start, position);
      sent := Word(input[start..behind]);
      ghost var rest := Future(input, behind, behind, Some(Whitespace));
      assert old(Future(input, start, position, Some(AccumulateBeforeWhitespace))) == sent + rest;
      Backup();
      EmitWord();
      next := Some(Whitespace);
      assert start == position == behind;
    }

    method LexWhitespace() returns (next: Option<LexState>, ghost sent: seq<Item>)
      requires Valid(Some(Whitespace))
      modifies this
      ensures Advances(Some(Whitespace), sent, next)
    {
      sent := [];
      while true
        invariant old(position) <= start == position <= |input| && items == old(items)
        invariant SkipAt(input, position) == SkipAt(input, old(position))
        decreases |input| - position
      {
        var c := NextChar();
        match c {
          case None =>
            return Some(Eof), sent;
          case Some(ch) =>
            if !IsWhitespace(ch) {
              Backup();
              return Some(Condition), sent;
            } else {
              Ignore();
            }
        }
      }
    }

    method LexAggregation() returns (next: Option<LexState>, ghost sent: seq<Item>)
      requires Valid(Some(Aggregation))
      modifies this
      ensures Advances(Some(Aggregation), sent, next)
    {
      sent := [Item(Unsupported, input[position..]), END];
      position := |input|;
      assert input[start..position] == input[old(position)..];
      Emit(Unsupported);
      Emit(LitEof);
      next := None;
    }

    /** One dispatch of the state machine. */
    method ProcessState(state: LexState) returns (next: Option<LexState>, ghost sent: seq<Item>)
      requires Valid(Some(state))
      modifies this
      ensures Advances(Some(state), sent, next)
    {
      match state
      case Condition => next, sent := LexCondition();
      case OneOf => next, sent := LexOneOf();
      case AllOf => next, sent := LexAllOf();
      case Eof => next, sent := LexEof();
      case Pipe => next, sent := LexPipe();
      case Lpar => next, sent := LexLpar();
      case Rpar => next, sent := LexRpar();
      case RparWithTokens => next, sent := LexRparWithTokens();
      case AccumulateBeforeWhitespace => next, sent := LexAccumulateBeforeWhitespace();
      case Whitespace => next, sent := LexWhitespace();
      case Aggregation => next, sent := LexAggregation();
    }

    /** Terminates on every input, having sent exactly the items of the input's words. */
    method Scan()
      requires start == position == 0 && items == []
      modifies this
      ensures items == Lex("", input)
      ensures start == position == |input|
    {
      var state := Some(Condition);
      LexAtIsLex(input, 0, 0);
      assert input[0..0] == "" && input[0..] == input;
      while state.Some?
        invariant Valid(state)
        invariant items + Future(input, start, position, state) == Lex("", input)
        decreases Measure(input, position, state)
      {
        ghost var before := items;
        ghost var sent;
        state, sent := ProcessState(state.value);
        ConcatAssociates(before, sent, Future(input, start, position, state));
      }
    }
  }
}
