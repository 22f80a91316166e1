/**
 * The printer with minimal parentheses, and the theorem that the parser undoes it
 * (`exprToTex` of examples/data-objects/math/src/mathExpr.ts, in input mode).
 */
module MathPrinter {
  import opened MathExpr
  import opened MathLexer
  import opened MathParser
  import opened MathGrammar
  import opened MathText

  // ---------- Decimal numbers ----------

  function Decimal(n: nat): string {
    if n < 10 then [DigitChar(n)] else Decimal(n / 10) + [DigitChar(n % 10)]
  }

  function DigitChar(d: nat): char
    requires d < 10
  {
    '0' + d as char
  }

  lemma {:induction false} DecimalIsNumber(n: nat)
    ensures AllDigits(Decimal(n)) && ParseDigits(Decimal(n)) == n
  {
    var last := DigitChar(n % 10);
    assert IsDigit(last) && DigitValue(last) == n % 10;
    if n < 10 {
      assert ParseDigits([last]) == ParseDigits([]) * 10 + DigitValue(last);
    } else {
      DecimalIsNumber(n / 10);
      assert Decimal(n)[..|Decimal(n)| - 1] == Decimal(n / 10);
    }
  }

  function IntegerText(n: int): string {
    if n < 0 then "-" + Decimal(-n) else Decimal(n)
  }

  // ---------- Printing ----------

  /** The trees printed here: letters, integers, unary minus and the operators without a command. */
  predicate Writable(e: Expr) {
    match e
    case Integer(_) => true
    case Variable(x) => |x| == 1 && IsLetter(x[0])
    case Unop(o) => Writable(o)
    case Binop(op, l, r, _) => IsPlainOp(op) && Writable(l) && Writable(r)
    case _ => false
  }

  predicate IsPlainOp(op: Operator) {
    op == ADD || op == SUB || op == MUL || op == EQ
  }

  /** A binary operation gets parentheses when the context binds at least as tightly. */
  predicate ShowsParens(e: Expr, prev: nat, left: bool)
    requires e.Binop?
  {
    e.parenthesized || if left then Precedence(e.op) < prev else Precedence(e.op) <= prev
  }

  function Print(e: Expr, prev: nat, left: bool): string
    requires Writable(e)
  {
    match e
    case Integer(n) => IntegerText(n)
    case Variable(x) => x
    case Unop(o) => "-" + Print(o, PREC_NEG, false)
    case Binop(op, l, r, _) =>
      var text := Print(l, Precedence(op), true) + OperatorText(op) + Print(r, Precedence(op), false);
      if ShowsParens(e, prev, left) then "(" + text + ")" else text
  }

  function PrintText(e: Expr): string
    requires Writable(e)
  {
    Print(e, NONE, false)
  }

  /** The syntax tree the printer has in mind. */
  function SynOf(e: Expr, prev: nat, left: bool): Syn
    requires Writable(e)
  {
    match e
    case Integer(n) => if n < 0 then Neg(Syn.Num(Decimal(-n))) else Syn.Num(Decimal(n))
    case Variable(x) => Syn.Var(x[0])
    case Unop(o) => Neg(SynOf(o, PREC_NEG, false))
    case Binop(op, l, r, _) =>
      var s := Infix(op, SynOf(l, Precedence(op), true), SynOf(r, Precedence(op), false));
      if ShowsParens(e, prev, left) then Paren(s) else s
  }

  lemma {:induction false} PrintIsText(e: Expr, prev: nat, left: bool)
    requires Writable(e)
    ensures Print(e, prev, left) == Text(SynOf(e, prev, left))
  {
    match e {
      case Unop(o) => PrintIsText(o, PREC_NEG, false);
      case Binop(op, l, r, _) =>
        PrintIsText(l, Precedence(op), true);
        PrintIsText(r, Precedence(op), false);
      case _ =>
    }
  }

  // ---------- Which trees can be read back ----------

  /** The printed text ends in a digit. */
  predicate EndsInInteger(e: Expr, prev: nat, left: bool) {
    match e
    case Integer(_) => true
    case Unop(o) => EndsInInteger(o, PREC_NEG, false)
    case Binop(op, _, r, _) => !ShowsParens(e, prev, left) && EndsInInteger(r, Precedence(op), false)
    case _ => false
  }

  /** The printed text starts with a minus sign even though nothing else shows where the tree begins. */
  predicate IsSigned(e: Expr) {
    e.Unop? || (e.Integer? && e.value < 0)
  }

  /**
   * Unary minus stands over neither a constant nor another unary minus and is no right factor, and a
   * number never follows a left factor that ends in a number.
   */
  predicate Printable(e: Expr) {
    match e
    case Unop(o) => !IsConstant(o) && !o.Unop? && Printable(o)
    case Binop(op, l, r, _) =>
      && Printable(l) && Printable(r)
      && (op == MUL ==> !IsSigned(r) && (r.Integer? ==> !EndsInInteger(l, PREC_MUL, true)))
    case _ => true
  }

  lemma {:induction false} PrintableFits(e: Expr, prev: nat, left: bool)
    requires Writable(e) && Printable(e)
    ensures Fits(SynOf(e, prev, left))
  {
    hide Decimal, EndsInInteger;
    match e {
      case Unop(o) => PrintableFits(o, PREC_NEG, false);
      case Binop(op, l, r, _) =>
        PrintableFits(l, Precedence(op), true);
        PrintableFits(r, Precedence(op), false);
      case _ =>
    }
  }

  lemma {:induction false} PrintableLexes(e: Expr, prev: nat, left: bool, next: char)
    requires Writable(e) && Printable(e)
    requires next != ':' && (IsDigit(next) ==> !EndsInInteger(e, prev, left))
    ensures Lexable(SynOf(e, prev, left), next)
  {
    match e {
      case Integer(n) => DecimalIsNumber(if n < 0 then -n else n);
      case Unop(o) => PrintableLexes(o, PREC_NEG, false, next);
      case Binop(op, l, r, _) =>
        var inner := if ShowsParens(e, prev, left) then ')' else next;
        PrintableLexes(r, Precedence(op), false, inner);
        FirstPrinted(r, Precedence(op), false);
        PrintableLexes(l, Precedence(op), true, FirstOf(OperatorText(op), First(SynOf(r, Precedence(op), false))));
      case _ =>
    }
  }

  /** How printed text can start. */
  lemma {:induction false} FirstPrinted(e: Expr, prev: nat, left: bool)
    requires Writable(e)
    ensures First(SynOf(e, prev, left)) != ':'
    ensures IsDigit(First(SynOf(e, prev, left))) ==> e.Integer? || (e.Binop? && !ShowsParens(e, prev, left))
  {
    match e {
      case Integer(n) => DecimalIsNumber(if n < 0 then -n else n);
      case Binop(op, l, r, _) => FirstPrinted(l, Precedence(op), true);
      case _ =>
    }
  }

  /** The tree without the marks of the parentheses in its input. */
  function Shape(e: Expr): Expr {
    match e
    case Binop(op, l, r, _) => Bin(op, Shape(l), Shape(r))
    case Unop(o) => Unop(Shape(o))
    case _ => e
  }

  lemma {:induction false} TreeOfPrinted(e: Expr, prev: nat, left: bool)
    requires Writable(e) && Printable(e)
    ensures Shape(Tree(SynOf(e, prev, left))) == Shape(e)
    ensures IsConstant(Tree(SynOf(e, prev, left))) == IsConstant(e)
  {
    hide SynOf, Tree, Precedence;
    match e {
      case Unop(o) =>
        TreeOfPrinted(o, PREC_NEG, false);
        UnopTree(o, prev, left);
      case Binop(op, l, r, _) =>
        TreeOfPrinted(l, Precedence(op), true);
        TreeOfPrinted(r, Precedence(op), false);
        BinopTree(e, prev, left);
      case _ => LeafTree(e, prev, left);
    }
  }

  lemma LeafTree(e: Expr, prev: nat, left: bool)
    requires Writable(e) && !e.Unop? && !e.Binop?
    ensures Shape(Tree(SynOf(e, prev, left))) == Shape(e) && IsConstant(Tree(SynOf(e, prev, left))) == IsConstant(e)
  {
    if e.Integer? {
      DecimalIsNumber(if e.value < 0 then -e.value else e.value);
    }
  }

  lemma UnopTree(o: Expr, prev: nat, left: bool)
    requires Writable(Unop(o)) && Printable(Unop(o)) && Shape(Tree(SynOf(o, PREC_NEG, false))) == Shape(o)
    requires IsConstant(Tree(SynOf(o, PREC_NEG, false))) == IsConstant(o)
    ensures Shape(Tree(SynOf(Unop(o), prev, left))) == Shape(Unop(o))
    ensures !IsConstant(Tree(SynOf(Unop(o), prev, left)))
  {
  }

  lemma BinopTree(e: Expr, prev: nat, left: bool)
    requires e.Binop? && Writable(e)
    requires Shape(Tree(SynOf(e.operand1, Precedence(e.op), true))) == Shape(e.operand1)
    requires Shape(Tree(SynOf(e.operand2, Precedence(e.op), false))) == Shape(e.operand2)
    ensures Shape(Tree(SynOf(e, prev, left))) == Shape(e) && !IsConstant(Tree(SynOf(e, prev, left)))
  {
    hide ShowsParens, Precedence;
  }

  /** The parser undoes the printer. */
  lemma ParserUndoesPrinter(cmds: Commands, e: Expr)
    requires Writable(e) && Printable(e)
    ensures var parsed := ParseText(cmds, PrintText(e));
      parsed.Some? && Shape(parsed.value) == Shape(e)
  {
    hide *;
    PrintTextIs(e);
    PrintIsText(e, 0, false);
    PrintableFits(e, 0, false);
    NothingFollows(e);
    PrintableLexes(e, 0, false, '\0');
    TreeOfPrinted(e, 0, false);
    ParseTextReads(cmds, SynOf(e, 0, false));
  }

  lemma PrintTextIs(e: Expr)
    requires Writable(e)
    ensures PrintText(e) == Print(e, 0, false)
  {
    hide Print;
  }

  lemma NothingFollows(e: Expr)
    ensures !IsDigit('\0')
  {
  }
}
