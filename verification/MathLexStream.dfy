/**
 * The lexer as the source writes it: a character stream that is read forward, one token list and one
 * stack of open commands (`lexId`, `lexSpace`, `lexCommand` and `lexCharStream` of
 * examples/data-objects/math/src/mathExpr.ts).
 */
module MathLexStream {
  import opened MathLexer
  import opened Options

  class Lexer {
    const cmds: Commands
    const chars: string
    var index: nat
    var tokens: seq<Token>
    var cmdStack: seq<nat>

    constructor (cmds: Commands, chars: string)
      ensures this.cmds == cmds && this.chars == chars && State() == START
    {
      this.cmds, this.chars := cmds, chars;
      index, tokens, cmdStack := 0, [], [];
    }

    ghost function State(): LexState
      reads this
    {
      LexState(index, tokens, cmdStack)
    }

    /** The next character, if there is one, after which the stream stands behind it. */
    method Get() returns (c: Option<char>)
      requires index <= |chars|
      modifies this`index
      ensures c == if old(index) < |chars| then Some(chars[old(index)]) else None
      ensures index == if old(index) < |chars| then old(index) + 1 else old(index)
    {
      if index < |chars| {
        c := Some(chars[index]);
        index := index + 1;
      } else {
        c := None;
      }
    }

    method LexId() returns (id: string)
      requires index <= |chars|
      modifies this`index
      ensures index == SkipLetters(chars, old(index))
      ensures id == chars[old(index)..index]
    {
      var start := index;
      var ch := Get();
      while ch.Some? && IsLetter(ch.value)
        invariant start <= index <= |chars|
        invariant if ch.Some? then index > start && ch.value == chars[index - 1] else index == |chars|
        invariant SkipLetters(chars, start) == SkipLetters(chars, if ch.Some? then index - 1 else index)
        decreases |chars| - index, ch.Some?
      {
        ch := Get();
      }
      if ch.Some? {
        index := index - 1;
      }
      id := chars[start..index];
    }

    method LexNumber() returns (tok: Token)
      requires index < |chars| && IsDigit(chars[index])
      modifies this`index
      ensures index == SkipDigits(chars, old(index))
      ensures tok == Simple(INT, old(index), index, chars[old(index)..index])
    {
      var start := index;
      var ch := Get();
      while ch.Some? && IsDigit(ch.value)
        invariant start <= index <= |chars|
        invariant if ch.Some? then index > start && ch.value == chars[index - 1] else index == |chars|
        invariant SkipDigits(chars, start) == SkipDigits(chars, if ch.Some? then index - 1 else index)
        decreases |chars| - index, ch.Some?
      {
        ch := Get();
      }
      if ch.Some? {
        index := index - 1;
      }
      tok := Simple(INT, start, index, chars[start..index]);
    }

    method LexSpace()
      requires index < |chars| && chars[index] == ' '
      modifies this`index, this`tokens
      ensures index == SkipSpaces(chars, old(index))
      ensures tokens == old(tokens) + [Simple(SPACE, old(index), index, "")]
    {
      var startPos := index;
      while index < |chars| && chars[index] == ' '
        invariant startPos <= index <= |chars|
        invariant SkipSpaces(chars, startPos) == SkipSpaces(chars, index)
        invariant tokens == old(tokens)
      {
        index := index + 1;
      }
      tokens := tokens + [Simple(SPACE, startPos, index, "")];
    }

    /** Reads a command name; an unknown one stops the lexer. */
    method LexBackslash() returns (ok: bool)
      requires GoodState(chars, State()) && index < |chars|
      modifies this
      ensures ok <==> LexCommand(cmds, chars, old(State())).Some?
      ensures ok ==> State() == LexCommand(cmds, chars, old(State())).value
    {
      var startPos := index;
      index := index + 1;
      var key := LexId();
      if key !in cmds {
        return false;
      }
      var cmd := cmds[key];
      if cmd.arity > 0 && index < |chars| {
        index := index + 1;
      }
      var tok := CommandToken(if cmd.isVariable then VAR else COMMAND, startPos, index, key, cmd.arity);
      if cmd.arity > 0 {
        cmdStack := cmdStack + [|tokens|];
      }
      tokens := tokens + [tok];
      ok := true;
    }

    method LexCloseBrace()
      requires GoodState(chars, State()) && index < |chars|
      modifies this
      ensures State() == CloseBrace(chars, old(State()))
    {
      var start := index;
      if cmdStack == [] {
        index := index + 1;
        tokens := tokens + [Simple(RCURLY, start, index, "")];
        return;
      }
      hide LexMath, Step, Run, NextToken;
      var top := cmdStack[|cmdStack| - 1];
      var cmd := tokens[top];
      assert cmd.remaining > 0;
      var number := |tokens|;
      if cmd.remaining > 1 {
        index := Advance(chars, index, 1);
      }
      index := Advance(chars, index, 1);
      var paramIndex := cmd.arity - cmd.remaining;
      if cmd.remaining == 1 {
        cmdStack := cmdStack[..|cmdStack| - 1];
        tokens := tokens[top := cmd.(remaining := 0, endTok := Some(number))];
        tokens := tokens + [Token(ENDCOMMAND, start, index, "", 0, 0, None, Some(top), paramIndex)];
      } else {
        tokens := tokens[top := cmd.(remaining := cmd.remaining - 1)];
        tokens := tokens + [Token(MIDCOMMAND, start, index, "", 0, 0, None, Some(top), paramIndex)];
      }
    }

    /** The token of a character that does not concern the command stack, or nothing for a stray one. */
    method LexOther()
      requires GoodState(chars, State()) && index < |chars|
      requires chars[index] != '\\' && chars[index] != '^' && chars[index] != '_' && chars[index] != '}'
      modifies this`index, this`tokens
      ensures Some(State()) == Step(cmds, chars, old(State()))
    {
      var pos := index;
      var c := chars[index];
      if IsLetter(c) {
        index := index + 1;
        var kind := if index < |chars| && chars[index] == ':' then PATTERNVAR else VAR;
        tokens := tokens + [Simple(kind, pos, index, [c])];
      } else if IsDigit(c) {
        var tok := LexNumber();
        tokens := tokens + [tok];
      } else if c == '=' {
        index := index + 1;
        if index < |chars| && chars[index] == '>' {
          index := index + 1;
          tokens := tokens + [Simple(IMPLY, pos, pos + 2, "")];
        } else {
          tokens := tokens + [Simple(EQUALS, pos, pos + 1, "")];
        }
      } else if c == ' ' {
        LexSpace();
      } else if c == '?' || c == ':' {
        index := index + 1;
        var text := LexId();
        tokens := tokens + [Simple(if c == '?' then PATTERNVAR else PATTERNTYPE, pos + 1, index, text)];
      } else {
        if PunctKind(c).Some? {
          tokens := tokens + [Simple(PunctKind(c).value, pos, pos + 1, "")];
        }
        index := index + 1;
      }
    }

    /** A superscript or a subscript is a command with one operand; its brace is taken along. */
    method LexSuperscript()
      requires GoodState(chars, State()) && index < |chars|
      modifies this
      ensures State() == LexScript(chars, old(State()))
    {
      var pos := index;
      cmdStack := cmdStack + [|tokens|];
      tokens := tokens + [CommandToken(COMMAND, pos, pos + 2, [chars[pos]], 1)];
      index := Advance(chars, index, 2);
    }

    /** One turn of the main loop, by the next character; false when the command it starts is unknown. */
    method LexNext() returns (ok: bool)
      requires GoodState(chars, State()) && index < |chars|
      modifies this
      ensures ok <==> Step(cmds, chars, old(State())).Some?
      ensures ok ==> State() == Step(cmds, chars, old(State())).value
    {
      hide GoodState, LexCommand, LexScript, CloseBrace, NextToken;
      var c := chars[index];
      ok := true;
      if c == '\\' {
        ok := LexBackslash();
      } else if c == '^' || c == '_' {
        LexSuperscript();
      } else if c == '}' {
        LexCloseBrace();
      } else {
        LexOther();
      }
    }

    /** The main loop computes what `Run` says, and stops early exactly when `Run` has no result. */
    method LexCharStream() returns (ok: bool)
      requires GoodState(chars, State())
      modifies this
      ensures ok <==> Run(cmds, chars, old(State())).Some?
      ensures ok ==> State() == Run(cmds, chars, old(State())).value
    {
      hide Step, Waiting, DistinctStack;
      while index < |chars|
        invariant GoodState(chars, State())
        invariant Run(cmds, chars, old(State())) == Run(cmds, chars, State())
        decreases |chars| - index
      {
        var known := LexNext();
        if !known {
          return false;
        }
      }
      ok := true;
    }
  }
}
