/**
 * The precedence-climbing parser, and the grammar it recognises
 * (`parsePrimary` and `parseExpr` of examples/data-objects/math/src/mathExpr.ts).
 */
module MathParser {
  import opened MathExpr
  import opened MathConstants
  import opened MathLexer
  import opened Options

  // ---------- Precedences ----------

  const NONE: nat := 0
  const PREC_IMPLIES: nat := 1
  const PREC_REL: nat := 2
  const PREC_LOG: nat := 3
  const PREC_IN: nat := 4
  const PREC_ADD: nat := 5
  const PREC_MUL: nat := 6
  const PREC_NEG: nat := 7

  function Precedence(op: Operator): nat {
    match op
    case IMPLIES => PREC_IMPLIES
    case VDASH => PREC_IMPLIES
    case EQ => PREC_REL
    case LEQ => PREC_REL
    case GEQ => PREC_REL
    case CONG => PREC_REL
    case EQUIV => PREC_REL
    case AND => PREC_LOG
    case OR => PREC_LOG
    case IN => PREC_IN
    case NOTIN => PREC_IN
    case SUBSET => PREC_IN
    case SUBSETEQ => PREC_IN
    case OWNS => PREC_IN
    case ADD => PREC_ADD
    case SUB => PREC_ADD
    case SETMINUS => PREC_ADD
    case PLUSMINUS => PREC_ADD
    case MUL => PREC_MUL
    case DIV => PREC_MUL
    case INTERSECTION => PREC_MUL
    case UNION => PREC_MUL
    case _ => 8
  }

  /** The tokens at which the operator loop ends. */
  predicate IsStop(kind: TokenType) {
    kind == CPAREN || kind == COMMA || kind == MIDCOMMAND || kind == ENDCOMMAND
  }

  predicate StartsPrimary(kind: TokenType) {
    kind == INT || kind == VAR || kind == PATTERNVAR || kind == OPAREN
  }

  /** What a token means between operands: an operator, or the implied product before a primary. */
  function InfixOf(kind: TokenType): Option<Operator> {
    match kind
    case PLUS => Some(ADD)
    case MINUS => Some(SUB)
    case SLASH => Some(DIV)
    case EQUALS => Some(EQ)
    case IMPLY => Some(IMPLIES)
    case _ => if StartsPrimary(kind) then Some(MUL) else None
  }

  // ---------- The parser ----------

  /**
   * `Throws` stands for the failure on a token without properties; `Outside` for commands and tuples,
   * which this model leaves out.
   */
  datatype Parse = Parsed(e: Expr, next: nat) | Throws | Outside

  function ParseDigits(digits: string): nat {
    if digits == "" then 0
    else ParseDigits(digits[..|digits| - 1]) * 10 + DigitValue(digits[|digits| - 1])
  }

  function DigitValue(c: char): nat {
    if IsDigit(c) then c as nat - '0' as nat else 0
  }

  function TypeNamed(text: string): PatternVarType {
    if text == "const" then Const
    else if text == "var" then Var
    else if text == "expr" then PatternVarType.Expr
    else Any
  }

  function MarkParenthesized(e: Expr): Expr {
    if e.Binop? then e.(parenthesized := true) else e
  }

  function Negated(e: Expr): Expr {
    if IsConstant(e) then Negate(e) else Unop(e)
  }

  predicate Progress(toks: seq<Token>, i: nat, r: Parse)
    requires i <= |toks|
  {
    r.Parsed? ==> i <= r.next <= |toks| && (i < |toks| ==> i < r.next)
  }

  function ParsePrimary(toks: seq<Token>, i: nat): (r: Parse)
    requires i <= |toks|
    ensures Progress(toks, i, r)
    decreases |toks| - i, 0
  {
    if i == |toks| then Parsed(Error, i)
    else
      match toks[i].kind
      case OPAREN => (
        match ParseExpr(toks, i + 1, NONE)
        case Parsed(e, j) =>
          if j == |toks| then Parsed(e, j)
          else if toks[j].kind == CPAREN then Parsed(MarkParenthesized(e), j + 1)
          else if toks[j].kind == COMMA then Outside
          else Parsed(Error, j + 1)
        case other => other)
      case COMMAND => Outside
      case INT => Parsed(Integer(ParseDigits(toks[i].text)), i + 1)
      case VAR => Parsed(Variable(toks[i].text), i + 1)
      case PATTERNVAR =>
        if i + 1 < |toks| && toks[i + 1].kind == PATTERNTYPE
        then Parsed(PatternVar(toks[i].text, TypeNamed(toks[i + 1].text)), i + 2)
        else Parsed(PatternVar(toks[i].text, Any), i + 1)
      case _ => Parsed(Error, i + 1)
  }

  function ParseExpr(toks: seq<Token>, i: nat, prec: nat): (r: Parse)
    requires i <= |toks|
    ensures Progress(toks, i, r)
    decreases |toks| - i, 1
  {
    var usub := i < |toks| && toks[i].kind == MINUS;
    match ParsePrimary(toks, if usub then i + 1 else i)
    case Parsed(e, j) =>
      var left := if usub then Negated(e) else e;
      if j == |toks| then Parsed(left, j) else ParseLoop(toks, j, left, prec)
    case other => other
  }

  /** The operator loop, with the operand read so far. */
  function ParseLoop(toks: seq<Token>, j: nat, left: Expr, prec: nat): (r: Parse)
    requires j <= |toks|
    ensures r.Parsed? ==> j <= r.next <= |toks|
    decreases |toks| - j, 2
  {
    if j == |toks| || IsStop(toks[j].kind) then Parsed(left, j)
    else if toks[j].kind == COMMAND then Outside
    else
      var infix := InfixOf(toks[j].kind);
      if infix.None? then Throws
      else
        var op := infix.value;
        if prec < Precedence(op) then
          match ParseExpr(toks, if StartsPrimary(toks[j].kind) then j else j + 1, Precedence(op))
          case Parsed(right, m) => ParseLoop(toks, m, Bin(op, left, right), prec)
          case other => other
        else Parsed(left, j)
  }

  function NotSpaces(toks: seq<Token>): seq<Token> {
    if toks == [] then []
    else (if toks[0].kind == SPACE then [] else [toks[0]]) + NotSpaces(toks[1..])
  }

  /** `parse`: the expression at the start of a text. */
  function ParseText(cmds: Commands, s: string): Option<Expr> {
    var lexed := LexMath(cmds, s);
    if lexed.None? then None
    else
      match ParseExpr(NotSpaces(lexed.value.tokens), 0, NONE)
      case Parsed(e, _) => Some(e)
      case _ => None
  }

  // ---------- The token stream of the source ----------

  class TokenStream {
    const tokens: seq<Token>
    var index: nat

    constructor (tokens: seq<Token>)
      ensures this.tokens == tokens && index == 0
    {
      this.tokens, index := tokens, 0;
    }

    /** The kind of the next token; None at the end of input. */
    function Peek(): Option<TokenType>
      reads this
    {
      if index < |tokens| then Some(tokens[index].kind) else None
    }

    method Primary() returns (r: Parse)
      requires index <= |tokens|
      modifies this`index
      ensures r == ParsePrimary(tokens, old(index))
      ensures r.Parsed? ==> index == r.next
      decreases |tokens| - index, 0
    {
      if index == |tokens| {
        return Parsed(Error, index);
      }
      var tok := tokens[index];
      index := index + 1;
      match tok.kind {
        case OPAREN =>
          r := Expression(NONE);
          if r.Parsed? && index < |tokens| {
            var close := tokens[index].kind;
            if close == CPAREN {
              index := index + 1;
              r := Parsed(MarkParenthesized(r.e), index);
            } else if close == COMMA {
              r := Outside;
            } else {
              index := index + 1;
              r := Parsed(Error, index);
            }
          }
        case COMMAND =>
          r := Outside;
        case INT =>
          r := Parsed(Integer(ParseDigits(tok.text)), index);
        case VAR =>
          r := Parsed(Variable(tok.text), index);
        case PATTERNVAR =>
          var pvarType := Any;
          if Peek() == Some(PATTERNTYPE) {
            pvarType := TypeNamed(tokens[index].text);
            index := index + 1;
          }
          r := Parsed(PatternVar(tok.text, pvarType), index);
        case _ =>
          r := Parsed(Error, index);
      }
    }

    /** The primary at the start of an expression, after a minus sign if there is one. */
    method Leading() returns (r: Parse)
      requires index <= |tokens|
      modifies this`index
      ensures r == LeadingOperand(tokens, old(index))
      ensures r.Parsed? ==> index == r.next
      decreases |tokens| - index, 1
    {
      hide ParsePrimary, Negated;
      var usub := Peek() == Some(MINUS);
      if usub {
        index := index + 1;
      }
      r := Primary();
      if r.Parsed? && usub {
        r := Parsed(Negated(r.e), index);
      }
    }

    /** The loop of `parseExpr` reads exactly what the recursive definition says. */
    method Expression(prec: nat) returns (r: Parse)
      requires index <= |tokens|
      modifies this`index
      ensures r == ParseExpr(tokens, old(index), prec)
      ensures r.Parsed? ==> index == r.next
      decreases |tokens| - index, 2
    {
      hide ParseExpr, ParseLoop, LeadingOperand, InfixOf, StartsPrimary, IsStop, Precedence;
      ParseExprIs(tokens, index, prec);
      r := Leading();
      if !r.Parsed? {
        return;
      }
      var left := r.e;
      var tok := Peek();
      while tok.Some? && !IsStop(tok.value)
        invariant index <= |tokens| && tok == Peek()
        invariant index == old(index) ==> tok.None?
        invariant index >= old(index)
        invariant ParseExpr(tokens, old(index), prec) == ParseLoop(tokens, index, left, prec)
        decreases |tokens| - index
      {
        ParseLoopIs(tokens, index, left, prec);
        if tok.value == COMMAND {
          return Outside;
        }
        var infix := InfixOf(tok.value);
        if infix.None? {
          return Throws;
        }
        if prec >= Precedence(infix.value) {
          return Parsed(left, index);
        }
        if !StartsPrimary(tok.value) {
          index := index + 1;
        }
        r := Expression(Precedence(infix.value));
        if !r.Parsed? {
          return;
        }
        left := Bin(infix.value, left, r.e);
        tok := Peek();
      }
      ParseLoopIs(tokens, index, left, prec);
      r := Parsed(left, index);
    }
  }

  /** The operand at the start of an expression, negated after a minus sign. */
  function LeadingOperand(toks: seq<Token>, i: nat): (r: Parse)
    requires i <= |toks|
    ensures Progress(toks, i, r)
  {
    var usub := i < |toks| && toks[i].kind == MINUS;
    match ParsePrimary(toks, if usub then i + 1 else i)
    case Parsed(e, j) => Parsed(if usub then Negated(e) else e, j)
    case other => other
  }

  lemma ParseExprIs(toks: seq<Token>, i: nat, prec: nat)
    requires i <= |toks|
    ensures
      var first := LeadingOperand(toks, i);
      && Progress(toks, i, first)
      && ParseExpr(toks, i, prec) == if first.Parsed? then ParseLoop(toks, first.next, first.e, prec) else first
  {
    hide ParsePrimary, Negated;
  }

  lemma ParseLoopIs(toks: seq<Token>, j: nat, left: Expr, prec: nat)
    requires j <= |toks|
    ensures j == |toks| || IsStop(toks[j].kind) ==> ParseLoop(toks, j, left, prec) == Parsed(left, j)
    ensures j < |toks| && !IsStop(toks[j].kind) ==>
      ParseLoop(toks, j, left, prec) == ParseOperator(toks, j, left, prec)
  {
    hide ParseExpr;
  }

  /** One turn of the operator loop and what follows it. */
  function ParseOperator(toks: seq<Token>, j: nat, left: Expr, prec: nat): Parse
    requires j < |toks|
  {
    var infix := InfixOf(toks[j].kind);
    if toks[j].kind == COMMAND then Outside
    else if infix.None? then Throws
    else if prec >= Precedence(infix.value) then Parsed(left, j)
    else
      match ParseExpr(toks, if StartsPrimary(toks[j].kind) then j else j + 1, Precedence(infix.value))
      case Parsed(right, m) => ParseLoop(toks, m, Bin(infix.value, left, right), prec)
      case other => other
  }
}
