/**
 * The rule tables as they are written down, as text. The parser turns each text into the pattern and the template
 * whose soundness MathSimplify proves, so rewriting by the texts is rewriting by the rules
 * (`simplifyExpr`, `normalize`, `matchS`, `buildExpr` and `buildIfMatch` of
 * examples/data-objects/math/src/mathExpr.ts).
 */
module MathRuleText {
  import opened MathExpr
  import opened MathLexer
  import opened MathMatch
  import opened MathParser
  import opened MathGrammar
  import opened MathSimplify
  import opened MathText
  import opened Options
  import R = MathRules

  datatype RuleText = RuleText(pattern: string, template: string, exec: R.Exec)

  // ---------- Rewriting by texts ----------

  /** `buildIfMatch`: pattern and template are parsed anew each time they are used; None when no rule applies. */
  function BuildFromTexts(cmds: Commands, ts: seq<RuleText>, e: Expr): Option<Expr>
    requires Plain(e)
  {
    if ts == [] then None
    else
      var built := BuildFromText(cmds, ts[0], e);
      if built.Some? then built else BuildFromTexts(cmds, ts[1..], e)
  }

  function BuildFromText(cmds: Commands, t: RuleText, e: Expr): Option<Expr>
    requires Plain(e)
  {
    var pattern := ParseText(cmds, t.pattern);
    if pattern.None? then None
    else
      var (matched, env) := Match(pattern.value, e, map[], false);
      var env' := if matched then R.RunExec(t.exec, env) else None;
      var template := ParseText(cmds, t.template);
      if env'.Some? && template.Some? then Some(Subst(template.value, env'.value)) else None
  }

  /** The parser reads the texts as the patterns and templates of the rules. */
  predicate Reads(cmds: Commands, ts: seq<RuleText>, rs: seq<R.Rule>) {
    |ts| == |rs| && forall k :: 0 <= k < |ts| ==> ReadsRule(cmds, ts[k], rs[k])
  }

  predicate ReadsRule(cmds: Commands, t: RuleText, r: R.Rule) {
    && ParseText(cmds, t.pattern) == Some(r.pattern) && ParseText(cmds, t.template) == Some(r.template)
    && t.exec == r.exec
  }

  function ResultOf(f: Option<R.Firing>): Option<Expr> {
    if f.Some? then Some(f.value.result) else None
  }

  /** Texts that are read as rules rewrite like the rules. */
  lemma {:induction false} TextsBuild(cmds: Commands, ts: seq<RuleText>, rs: seq<R.Rule>, e: Expr)
    requires Reads(cmds, ts, rs) && Plain(e)
    ensures BuildFromTexts(cmds, ts, e) == ResultOf(R.BuildIfMatch(rs, e))
  {
    hide ParseText, Match, R.RunExec, Subst;
    if ts != [] {
      assert ReadsRule(cmds, ts[0], rs[0]);
      assert Reads(cmds, ts[1..], rs[1..]) by {
        forall k | 0 <= k < |ts| - 1 ensures ReadsRule(cmds, ts[1..][k], rs[1..][k]) {
          assert ReadsRule(cmds, ts[k + 1], rs[k + 1]);
        }
      }
      TextsBuild(cmds, ts[1..], rs[1..], e);
    }
  }

  // ---------- Words ----------

  /** A syntax tree with its text and the expression it means. */
  datatype Word = Word(syn: Syn, text: string, tree: Expr)

  predicate Sound(w: Word, next: char) {
    Fits(w.syn) && Lexable(w.syn, next) && Text(w.syn) == w.text && Tree(w.syn) == w.tree
  }

  function Letter(c: char): Word { Word(Syn.Var(c), [c], Variable([c])) }
  function Digit(c: char): Word { Word(Syn.Num([c]), [c], Integer(DigitValue(c))) }
  function Name(n: string): Word { Word(Pat(n, true, None), "?" + n, PatternVar(n, Any)) }

  function Typed(n: string, t: string): Word {
    Word(Pat(n, true, Some(t)), "?" + n + ":" + t, PatternVar(n, TypeNamed(t)))
  }

  /** A letter with a type, without a mark. */
  function TypedLetter(c: char, t: string): Word {
    Word(Pat([c], false, Some(t)), [c] + ":" + t, PatternVar([c], TypeNamed(t)))
  }

  function Join(op: Operator, l: Word, r: Word, text: string): Word {
    Word(Infix(op, l.syn, r.syn), text, Bin(op, l.tree, r.tree))
  }

  function Times(l: Word, r: Word): Word { Join(MUL, l, r, l.text + r.text) }
  function Over(l: Word, r: Word): Word { Join(DIV, l, r, l.text + "/" + r.text) }
  function Plus(l: Word, r: Word): Word { Join(ADD, l, r, l.text + "+" + r.text) }
  function Minus(l: Word, r: Word): Word { Join(SUB, l, r, l.text + "-" + r.text) }
  function Equals(l: Word, r: Word): Word { Join(EQ, l, r, l.text + "=" + r.text) }
  function Group(w: Word): Word { Word(Paren(w.syn), "(" + w.text + ")", MarkParenthesized(w.tree)) }
  function Opposite(w: Word): Word { Word(Neg(w.syn), "-" + w.text, Negated(w.tree)) }

  predicate Primary(w: Word) { IsPrimary(w.syn) }

  /** Words without an operator bind more tightly than any operator. */
  function Level(w: Word): nat { if w.syn.Infix? then Precedence(w.syn.op) else 9 }

  function Head(w: Word): char { First(w.syn) }

  lemma TimesSound(l: Word, r: Word, next: char)
    requires Sound(l, Head(r)) && Sound(r, next) && Level(l) >= PREC_MUL && Primary(r)
    ensures Sound(Times(l, r), next)
  {
  }

  lemma JoinSound(op: Operator, l: Word, r: Word, next: char)
    requires op == DIV || op == ADD || op == SUB || op == EQ
    requires Sound(l, OperatorText(op)[0]) && Sound(r, next) && Level(l) >= Precedence(op) && Level(r) > Precedence(op)
    ensures Sound(Join(op, l, r, l.text + OperatorText(op) + r.text), next)
  {
  }

  lemma GroupSound(w: Word, next: char)
    requires Sound(w, ')')
    ensures Sound(Group(w), next)
  {
  }

  lemma OppositeSound(w: Word, next: char)
    requires Sound(w, next) && Primary(w)
    ensures Sound(Opposite(w), next)
  {
  }

  /** How words are put together, operator by operator. */
  lemma Laws()
    ensures forall l, r, next :: Sound(l, Head(r)) && Sound(r, next) && Level(l) >= 6 && Primary(r) ==>
      Sound(Times(l, r), next)
    ensures forall l, r, next :: Sound(l, '/') && Sound(r, next) && Level(l) >= 6 && Level(r) > 6 ==>
      Sound(Over(l, r), next)
    ensures forall l, r, next :: Sound(l, '+') && Sound(r, next) && Level(l) >= 5 && Level(r) > 5 ==>
      Sound(Plus(l, r), next)
    ensures forall l, r, next :: Sound(l, '-') && Sound(r, next) && Level(l) >= 5 && Level(r) > 5 ==>
      Sound(Minus(l, r), next)
    ensures forall l, r, next :: Sound(l, '=') && Sound(r, next) && Level(l) >= 2 && Level(r) > 2 ==>
      Sound(Equals(l, r), next)
    ensures forall w, next :: Sound(w, ')') ==> Sound(Group(w), next)
    ensures forall w, next :: Sound(w, next) && Primary(w) ==> Sound(Opposite(w), next)
  {
    hide Sound, Level, Primary, Head, Group, Opposite;
    forall l, r, next | Sound(l, Head(r)) && Sound(r, next) && Level(l) >= 6 && Primary(r)
      ensures Sound(Times(l, r), next) {
      TimesSound(l, r, next);
    }
    forall l, r, next | Sound(l, '/') && Sound(r, next) && Level(l) >= 6 && Level(r) > 6
      ensures Sound(Over(l, r), next) {
      JoinSound(DIV, l, r, next);
    }
    forall l, r, next | Sound(l, '+') && Sound(r, next) && Level(l) >= 5 && Level(r) > 5
      ensures Sound(Plus(l, r), next) {
      JoinSound(ADD, l, r, next);
    }
    forall l, r, next | Sound(l, '-') && Sound(r, next) && Level(l) >= 5 && Level(r) > 5
      ensures Sound(Minus(l, r), next) {
      JoinSound(SUB, l, r, next);
    }
    forall l, r, next | Sound(l, '=') && Sound(r, next) && Level(l) >= 2 && Level(r) > 2
      ensures Sound(Equals(l, r), next) {
      JoinSound(EQ, l, r, next);
    }
    forall w, next | Sound(w, ')') ensures Sound(Group(w), next) {
      GroupSound(w, next);
    }
    forall w, next | Sound(w, next) && Primary(w) ensures Sound(Opposite(w), next) {
      OppositeSound(w, next);
    }
  }

  lemma Levels()
    ensures forall l, r :: Level(Times(l, r)) == 6 && Head(Times(l, r)) == Head(l)
    ensures forall l, r :: Level(Over(l, r)) == 6 && Head(Over(l, r)) == Head(l)
    ensures forall l, r :: Level(Plus(l, r)) == 5 && Head(Plus(l, r)) == Head(l)
    ensures forall l, r :: Level(Minus(l, r)) == 5 && Head(Minus(l, r)) == Head(l)
    ensures forall w :: Level(Group(w)) == 9 && Head(Group(w)) == '(' && Primary(Group(w))
    ensures forall w :: Level(Opposite(w)) == 9 && Head(Opposite(w)) == '-'
  {
  }

  lemma Letters()
    ensures forall c, next :: IsLetter(c) && next != ':' ==> Sound(Letter(c), next)
    ensures forall c :: Head(Letter(c)) == c && Level(Letter(c)) == 9 && Primary(Letter(c))
    ensures IsLetter('a') && IsLetter('b') && IsLetter('c') && IsLetter('d')
    ensures forall next :: !IsDigit(next) ==> Sound(Digit('0'), next) && Sound(Digit('1'), next)
    ensures forall c :: Head(Digit(c)) == c && Level(Digit(c)) == 9 && Primary(Digit(c))
    ensures !IsDigit('a') && !IsDigit('/') && !IsDigit('?') && !IsDigit('\0')
  {
  }

  lemma Names()
    ensures forall n, next :: AllLetters(n) && !IsLetter(next) ==> Sound(Name(n), next)
    ensures forall n, t, next :: AllLetters(n) && AllLetters(t) && !IsLetter(next) ==> Sound(Typed(n, t), next)
    ensures forall n :: Head(Name(n)) == '?' && Level(Name(n)) == 9 && Primary(Name(n))
    ensures forall n, t :: Head(Typed(n, t)) == '?' && Level(Typed(n, t)) == 9 && Primary(Typed(n, t))
    ensures Sound(TypedLetter('b', "const"), '\0') && Primary(TypedLetter('b', "const"))
    ensures !IsLetter('+') && !IsLetter('-') && !IsLetter('=') && !IsLetter('?') && !IsLetter('(') && !IsLetter(')')
    ensures !IsLetter('\0')
  {
  }

  /** The names and types that the tables use. */
  lemma Alphabet()
    ensures AllLetters("a") && AllLetters("b") && AllLetters("c") && AllLetters("d") && AllLetters("e")
    ensures AllLetters("n") && AllLetters("v") && AllLetters("x") && AllLetters("ca") && AllLetters("cb")
    ensures AllLetters("as") && AllLetters("bs") && AllLetters("al") && AllLetters("bl") && AllLetters("ar")
    ensures AllLetters("br") && AllLetters("const") && AllLetters("expr") && AllLetters("var")
  {
  }

  predicate IsWord(w: Word, text: string, tree: Expr) {
    w.text == text && w.tree == tree
  }

  /** How the names are spelled: in terms, in products and in equations. */
  lemma TermSpelling()
    ensures IsWord(Typed("a", "const"), "?a:const", R.C("a")) && IsWord(Typed("b", "const"), "?b:const", R.C("b"))
    ensures IsWord(Typed("d", "const"), "?d:const", R.C("d")) && IsWord(Name("c"), "?c", R.P("c"))
    ensures IsWord(Name("d"), "?d", R.P("d")) && IsWord(Name("e"), "?e", R.P("e"))
    ensures IsWord(Name("n"), "?n", R.P("n")) && IsWord(Name("x"), "?x", R.P("x"))
    ensures IsWord(Typed("e", "expr"), "?e:expr", R.E("e")) && IsWord(TypedLetter('b', "const"), "b:const", R.C("b"))
  {
  }

  lemma FactorSpelling()
    ensures IsWord(Typed("c", "const"), "?c:const", R.C("c")) && IsWord(Typed("ca", "const"), "?ca:const", R.C("ca"))
    ensures IsWord(Typed("cb", "const"), "?cb:const", R.C("cb")) && IsWord(Name("c"), "?c", R.P("c"))
    ensures IsWord(Name("v"), "?v", R.P("v")) && IsWord(Name("e"), "?e", R.P("e"))
    ensures IsWord(Name("ca"), "?ca", R.P("ca")) && IsWord(Name("cb"), "?cb", R.P("cb"))
    ensures IsWord(Typed("e", "expr"), "?e:expr", R.E("e"))
    ensures IsWord(Typed("v", "var"), "?v:var", PatternVar("v", PatternVarType.Var))
  {
  }

  lemma EquationSpelling()
    ensures IsWord(Typed("al", "const"), "?al:const", R.C("al")) && IsWord(Typed("bl", "const"), "?bl:const", R.C("bl"))
    ensures IsWord(Typed("ar", "const"), "?ar:const", R.C("ar")) && IsWord(Typed("br", "const"), "?br:const", R.C("br"))
    ensures IsWord(Name("x"), "?x", R.P("x")) && IsWord(Name("as"), "?as", R.P("as"))
    ensures IsWord(Name("bs"), "?bs", R.P("bs"))
  {
  }

  // ---------- Entries of a table ----------

  datatype Entry = Entry(pattern: Word, template: Word)

  predicate AllSound(es: seq<Entry>) {
    forall k :: 0 <= k < |es| ==> Sound(es[k].pattern, '\0') && Sound(es[k].template, '\0')
  }

  predicate Spells(e: Entry, t: RuleText, r: R.Rule) {
    && e.pattern.text == t.pattern && e.template.text == t.template
    && e.pattern.tree == r.pattern && e.template.tree == r.template && t.exec == r.exec
  }

  lemma EntriesRead(cmds: Commands, es: seq<Entry>, ts: seq<RuleText>, rs: seq<R.Rule>)
    requires AllSound(es) && |es| == |ts| == |rs| && forall k :: 0 <= k < |es| ==> Spells(es[k], ts[k], rs[k])
    ensures Reads(cmds, ts, rs)
  {
    hide Sound, ParseText;
    forall k | 0 <= k < |ts| ensures ReadsRule(cmds, ts[k], rs[k]) {
      assert Spells(es[k], ts[k], rs[k]);
      SoundReads(cmds, es[k].pattern);
      SoundReads(cmds, es[k].template);
    }
  }

  lemma SoundReads(cmds: Commands, w: Word)
    requires Sound(w, '\0')
    ensures ParseText(cmds, w.text) == Some(w.tree)
  {
    hide Fits, Lexable, Text, Tree, ParseText;
    ParseTextReads(cmds, w.syn);
  }

  // ---------- The tables ----------

  function UnitTexts(): seq<RuleText> {
    [ RuleText("1a", "a", R.NoExec),
      RuleText("a1", "a", R.NoExec),
      RuleText("a/1", "a", R.NoExec),
      RuleText("0/a", "0", R.NoExec) ]
  }

  function UnitEntries(): seq<Entry> {
    var a, one := Letter('a'), Digit('1');
    [ Entry(Times(one, a), a),
      Entry(Times(a, one), a),
      Entry(Over(a, one), a),
      Entry(Over(Digit('0'), a), Digit('0')) ]
  }

  function NegativeConstantTexts(): seq<RuleText> {
    [ RuleText("-" + "b:const", "?n", R.NegateIfNegative),
      RuleText("a--b", "a+b", R.NoExec),
      RuleText("a" + "-" + "?b:const", "a" + "+" + "?n", R.NegateIfNegative),
      RuleText("a" + "+" + "?b:const", "a" + "-" + "?n", R.NegateIfNegative),
      RuleText("a" + "-" + ("?b:const" + "?c"), "a" + "+" + ("?n" + "?c"), R.NegateIfNegative) ]
  }

  function NegativeConstantEntries(): seq<Entry> {
    var a, b, c, n := Letter('a'), Typed("b", "const"), Name("c"), Name("n");
    [ Entry(Opposite(TypedLetter('b', "const")), n),
      Entry(Minus(a, Opposite(Letter('b'))), Plus(a, Letter('b'))),
      Entry(Minus(a, b), Plus(a, n)),
      Entry(Plus(a, b), Minus(a, n)),
      Entry(Minus(a, Times(b, c)), Plus(a, Times(n, c))) ]
  }

  function ProductTexts(): seq<RuleText> {
    [ RuleText("a(bc)", "(ab)c", R.NoExec),
      RuleText("a(b+c)", "ab+ac", R.NoExec),
      RuleText("a(b-c)", "ab-ac", R.NoExec),
      RuleText("(a+b)c", "ac+bc", R.NoExec),
      RuleText("(a-b)c", "ac-bc", R.NoExec) ]
  }

  function ProductEntries(): seq<Entry> {
    var a, b, c := Letter('a'), Letter('b'), Letter('c');
    [ Entry(Times(a, Group(Times(b, c))), Times(Group(Times(a, b)), c)),
      Entry(Times(a, Group(Plus(b, c))), Plus(Times(a, b), Times(a, c))),
      Entry(Times(a, Group(Minus(b, c))), Minus(Times(a, b), Times(a, c))),
      Entry(Times(Group(Plus(a, b)), c), Plus(Times(a, c), Times(b, c))),
      Entry(Times(Group(Minus(a, b)), c), Minus(Times(a, c), Times(b, c))) ]
  }

  function ConstantFirstTexts(): seq<RuleText> {
    [ RuleText("?v:var" + "?c:const", "?c" + "?v", R.NoExec),
      RuleText("(" + ("?ca:const" + "?e:expr") + ")" + "?cb:const", "(" + ("?ca" + "?cb") + ")" + "?e", R.NoExec),
      RuleText("?ca:const" + ("(" + ("?cb:const" + "?e:expr") + ")"), "(" + ("?ca" + "?cb") + ")" + "?e", R.NoExec),
      RuleText("?e:expr" + "?c:const", "?c" + "?e", R.NoExec) ]
  }

  function ConstantFirstEntries(): seq<Entry> {
    var e, c, ca, cb := Typed("e", "expr"), Typed("c", "const"), Typed("ca", "const"), Typed("cb", "const");
    var merged := Times(Group(Times(Name("ca"), Name("cb"))), Name("e"));
    [ Entry(Times(Typed("v", "var"), c), Times(Name("c"), Name("v"))),
      Entry(Times(Group(Times(ca, e)), cb), merged),
      Entry(Times(ca, Group(Times(cb, e))), merged),
      Entry(Times(e, c), Times(Name("c"), Name("e"))) ]
  }

  function NegativeFactorTexts(): seq<RuleText> {
    [ RuleText("?ca:const" + ("(" + ("-" + "?cb:const") + ")"), "-1" + "?ca" + "?cb", R.NoExec),
      RuleText("a(-b)", "-1ab", R.NoExec) ]
  }

  function NegativeFactorEntries(): seq<Entry> {
    var a, b, minusOne := Letter('a'), Letter('b'), Opposite(Digit('1'));
    var ca, cb := Typed("ca", "const"), Typed("cb", "const");
    [ Entry(Times(ca, Group(Opposite(cb))), Times(Times(minusOne, Name("ca")), Name("cb"))),
      Entry(Times(a, Group(Opposite(b))), Times(Times(minusOne, a), b)) ]
  }

  function MinusTexts(): seq<RuleText> {
    [ RuleText("a+-b", "a-b", R.NoExec),
      RuleText("a--bc", "a+bc", R.NoExec),
      RuleText("a--(bc)", "a+bc", R.NoExec),
      RuleText("a+-bc", "a-bc", R.NoExec),
      RuleText("a-(b-c)", "a+c-b", R.NoExec),
      RuleText("-(a-b)", "b-a", R.NoExec) ]
  }

  function MinusEntries(): seq<Entry> {
    var a, b, c := Letter('a'), Letter('b'), Letter('c');
    [ Entry(Plus(a, Opposite(b)), Minus(a, b)),
      Entry(Minus(a, Times(Opposite(b), c)), Plus(a, Times(b, c))),
      Entry(Minus(a, Opposite(Group(Times(b, c)))), Plus(a, Times(b, c))),
      Entry(Plus(a, Times(Opposite(b), c)), Minus(a, Times(b, c))),
      Entry(Minus(a, Group(Minus(b, c))), Minus(Plus(a, c), b)),
      Entry(Opposite(Group(Minus(a, b))), Minus(b, a)) ]
  }

  function SumTexts(): seq<RuleText> {
    [ RuleText("a+(b+c)", "a+b+c", R.NoExec),
      RuleText("a-(b+c)", "a-b-c", R.NoExec),
      RuleText("a+(b-c)", "a+b-c", R.NoExec),
      RuleText("-1a", "-a", R.NoExec),
      RuleText("-a+b", "b-a", R.NoExec) ]
  }

  function SumEntries(): seq<Entry> {
    var a, b, c := Letter('a'), Letter('b'), Letter('c');
    [ Entry(Plus(a, Group(Plus(b, c))), Plus(Plus(a, b), c)),
      Entry(Minus(a, Group(Plus(b, c))), Minus(Minus(a, b), c)),
      Entry(Plus(a, Group(Minus(b, c))), Minus(Plus(a, b), c)),
      Entry(Times(Opposite(Digit('1')), a), Opposite(a)),
      Entry(Plus(Opposite(a), b), Minus(b, a)) ]
  }

  function LikeTermTexts(): seq<RuleText> {
    [ RuleText("?a:const" + "?x" + "+" + ("?b:const" + "?x"), "?c" + "?x", R.FoldConstants(ADD, false)),
      RuleText("?a:const" + "?x" + "-" + "?d:const" + "+" + ("?b:const" + "?x"),
               "?c" + "?x" + "-" + "?d", R.FoldConstants(ADD, false)) ]
  }

  function LikeTermEntries(): seq<Entry> {
    var x, ax := Name("x"), Times(Typed("a", "const"), Name("x"));
    var bx, cx := Times(Typed("b", "const"), x), Times(Name("c"), x);
    [ Entry(Plus(ax, bx), cx),
      Entry(Plus(Minus(ax, Typed("d", "const")), bx), Minus(cx, Name("d"))) ]
  }

  function FoldTexts(): seq<RuleText> {
    [ RuleText("?e:expr" + "+" + "?a:const" + "+" + "?b:const", "?e" + "+" + "?c", R.FoldConstants(ADD, false)),
      RuleText("?e:expr" + "+" + "?a:const" + "-" + "?b:const", "?e" + "+" + "?c", R.FoldConstants(SUB, false)),
      RuleText("?e:expr" + "-" + "?a:const" + "+" + "?b:const", "?e" + "+" + "?c", R.FoldConstants(SUB, true)),
      RuleText("?e:expr" + "-" + "?a:const" + "-" + "?b:const", "?e" + "-" + "?c", R.FoldConstants(ADD, false)),
      RuleText("?a:const" + "+" + "?e:expr" + "-" + "?b:const", "?e" + "+" + "?c", R.FoldConstants(SUB, false)),
      RuleText("?a:const" + "+" + "?e:expr" + "+" + "?b:const", "?e" + "+" + "?c", R.FoldConstants(ADD, false)) ]
  }

  function FoldEntries(): seq<Entry> {
    var e, a, b := Typed("e", "expr"), Typed("a", "const"), Typed("b", "const");
    var more, less := Plus(Name("e"), Name("c")), Minus(Name("e"), Name("c"));
    [ Entry(Plus(Plus(e, a), b), more),
      Entry(Minus(Plus(e, a), b), more),
      Entry(Plus(Minus(e, a), b), more),
      Entry(Minus(Minus(e, a), b), less),
      Entry(Minus(Plus(a, e), b), more),
      Entry(Plus(Plus(a, e), b), more) ]
  }

  function BothSidesTexts(): seq<RuleText> {
    [ RuleText("?al:const" + "?x" + "-" + "?bl:const" + "=" + ("?ar:const" + "?x" + "-" + "?br:const"),
               "?as" + "?x" + "=" + "?bs", R.CombineCoeffs(true, true)),
      RuleText("?al:const" + "?x" + "-" + "?bl:const" + "=" + ("?ar:const" + "?x" + "+" + "?br:const"),
               "?as" + "?x" + "=" + "?bs", R.CombineCoeffs(true, false)),
      RuleText("?al:const" + "?x" + "+" + "?bl:const" + "=" + ("?ar:const" + "?x" + "-" + "?br:const"),
               "?as" + "?x" + "=" + "?bs", R.CombineCoeffs(false, true)),
      RuleText("?al:const" + "?x" + "+" + "?bl:const" + "=" + ("?ar:const" + "?x" + "+" + "?br:const"),
               "?as" + "?x" + "=" + "?bs", R.CombineCoeffs(false, false)) ]
  }

  function BothSidesEntries(): seq<Entry> {
    var alx, bl := Times(Typed("al", "const"), Name("x")), Typed("bl", "const");
    var arx, br := Times(Typed("ar", "const"), Name("x")), Typed("br", "const");
    var solved := Equals(Times(Name("as"), Name("x")), Name("bs"));
    [ Entry(Equals(Minus(alx, bl), Minus(arx, br)), solved),
      Entry(Equals(Minus(alx, bl), Plus(arx, br)), solved),
      Entry(Equals(Plus(alx, bl), Minus(arx, br)), solved),
      Entry(Equals(Plus(alx, bl), Plus(arx, br)), solved) ]
  }

  function NormalizerTexts(): seq<RuleText> {
    [ RuleText("a/b=c/d", "ad=bc", R.NoExec),
      RuleText("a/b=c", "a=bc", R.NoExec),
      RuleText("a=c/d", "ad=c", R.NoExec) ]
  }

  function NormalizerEntries(): seq<Entry> {
    var a, b, c, d := Letter('a'), Letter('b'), Letter('c'), Letter('d');
    [ Entry(Equals(Over(a, b), Over(c, d)), Equals(Times(a, d), Times(b, c))),
      Entry(Equals(Over(a, b), c), Equals(a, Times(b, c))),
      Entry(Equals(a, Over(c, d)), Equals(Times(a, d), c)) ]
  }

  lemma LetterEntriesSound()
    ensures AllSound(UnitEntries()) && AllSound(ProductEntries())
    ensures AllSound(MinusEntries()) && AllSound(SumEntries())
    ensures AllSound(NormalizerEntries())
  {
    hide Sound, Level, Head, Primary, Times, Over, Plus, Minus, Equals, Group, Opposite, Letter, Digit, Name, Typed,
      TypedLetter, IsLetter, IsDigit, AllLetters;
    Laws();
    Levels();
    Letters();
  }

  lemma TermEntriesSound()
    ensures AllSound(NegativeConstantEntries()) && AllSound(LikeTermEntries())
    ensures AllSound(FoldEntries())
  {
    hide Sound, Level, Head, Primary, Times, Over, Plus, Minus, Equals, Group, Opposite, Letter, Digit, Name, Typed,
      TypedLetter, IsLetter, IsDigit, AllLetters;
    Laws();
    Levels();
    Letters();
    Names();
    Alphabet();
  }

  lemma FactorEntriesSound()
    ensures AllSound(ConstantFirstEntries()) && AllSound(NegativeFactorEntries())
  {
    hide Sound, Level, Head, Primary, Times, Over, Plus, Minus, Equals, Group, Opposite, Letter, Digit, Name, Typed,
      TypedLetter, IsLetter, IsDigit, AllLetters;
    Laws();
    Levels();
    Letters();
    Names();
    Alphabet();
  }

  lemma EquationEntriesSound()
    ensures AllSound(BothSidesEntries())
  {
    hide Sound, Level, Head, Primary, Times, Over, Plus, Minus, Equals, Group, Opposite, Letter, Digit, Name, Typed,
      TypedLetter, IsLetter, IsDigit, AllLetters;
    Laws();
    Levels();
    Letters();
    Names();
    Alphabet();
  }

  lemma UnitTextsRead(cmds: Commands)
    ensures Reads(cmds, UnitTexts(), R.UnitRules())
  {
    hide AllSound, ReadsRule;
    LetterEntriesSound();
    EntriesRead(cmds, UnitEntries(), UnitTexts(), R.UnitRules());
  }

  lemma NegativeConstantTextsRead(cmds: Commands)
    ensures Reads(cmds, NegativeConstantTexts(), R.NegativeConstantRules())
  {
    hide AllSound, ReadsRule, Name, Typed, TypedLetter;
    TermEntriesSound();
    TermSpelling();
    EntriesRead(cmds, NegativeConstantEntries(), NegativeConstantTexts(), R.NegativeConstantRules());
  }

  lemma ProductSpelled()
    ensures "a" + ("(" + ("b" + "c") + ")") == "a(bc)" && "(" + ("a" + "b") + ")" + "c" == "(ab)c"
    ensures "a" + ("(" + ("b" + "+" + "c") + ")") == "a(b+c)" && "a" + "b" + "+" + ("a" + "c") == "ab+ac"
    ensures "a" + ("(" + ("b" + "-" + "c") + ")") == "a(b-c)" && "a" + "b" + "-" + ("a" + "c") == "ab-ac"
    ensures "(" + ("a" + "+" + "b") + ")" + "c" == "(a+b)c" && "a" + "c" + "+" + ("b" + "c") == "ac+bc"
    ensures "(" + ("a" + "-" + "b") + ")" + "c" == "(a-b)c" && "a" + "c" + "-" + ("b" + "c") == "ac-bc"
  {
    hide *;
  }

  lemma ProductTextsRead(cmds: Commands)
    ensures Reads(cmds, ProductTexts(), R.ProductRules())
  {
    hide AllSound, ReadsRule;
    LetterEntriesSound();
    ProductSpelled();
    EntriesRead(cmds, ProductEntries(), ProductTexts(), R.ProductRules());
  }

  lemma ConstantFirstTextsRead(cmds: Commands)
    ensures Reads(cmds, ConstantFirstTexts(), R.ConstantFirstRules())
  {
    hide AllSound, ReadsRule, Name, Typed, TypedLetter;
    FactorEntriesSound();
    FactorSpelling();
    EntriesRead(cmds, ConstantFirstEntries(), ConstantFirstTexts(), R.ConstantFirstRules());
  }

  lemma NegativeFactorTextsRead(cmds: Commands)
    ensures Reads(cmds, NegativeFactorTexts(), R.NegativeFactorRules())
  {
    hide AllSound, ReadsRule, Name, Typed, TypedLetter;
    FactorEntriesSound();
    FactorSpelling();
    EntriesRead(cmds, NegativeFactorEntries(), NegativeFactorTexts(), R.NegativeFactorRules());
  }

  lemma MinusSpelled()
    ensures "a" + "+" + ("-" + "b") == "a+-b" && "a" + "-" + "b" == "a-b"
    ensures "a" + "-" + ("-" + "b" + "c") == "a--bc" && "a" + "+" + ("b" + "c") == "a+bc"
    ensures "a" + "-" + ("-" + ("(" + ("b" + "c") + ")")) == "a--(bc)" && "a" + "+" + ("-" + "b" + "c") == "a+-bc"
    ensures "a" + "-" + ("b" + "c") == "a-bc" && "a" + "-" + ("(" + ("b" + "-" + "c") + ")") == "a-(b-c)"
    ensures "a" + "+" + "c" + "-" + "b" == "a+c-b" && "-" + ("(" + ("a" + "-" + "b") + ")") == "-(a-b)"
    ensures "b" + "-" + "a" == "b-a"
  {
    hide *;
  }

  lemma MinusTextsRead(cmds: Commands)
    ensures Reads(cmds, MinusTexts(), R.MinusRules())
  {
    hide AllSound, ReadsRule;
    LetterEntriesSound();
    MinusSpelled();
    EntriesRead(cmds, MinusEntries(), MinusTexts(), R.MinusRules());
  }

  lemma SumSpelled()
    ensures "a" + "+" + ("(" + ("b" + "+" + "c") + ")") == "a+(b+c)" && "a" + "+" + "b" + "+" + "c" == "a+b+c"
    ensures "a" + "-" + ("(" + ("b" + "+" + "c") + ")") == "a-(b+c)" && "a" + "-" + "b" + "-" + "c" == "a-b-c"
    ensures "a" + "+" + ("(" + ("b" + "-" + "c") + ")") == "a+(b-c)" && "a" + "+" + "b" + "-" + "c" == "a+b-c"
    ensures "-" + "1" + "a" == "-1a" && "-" + "a" == "-a"
    ensures "-" + "a" + "+" + "b" == "-a+b" && "b" + "-" + "a" == "b-a"
  {
    hide *;
  }

  lemma SumTextsRead(cmds: Commands)
    ensures Reads(cmds, SumTexts(), R.SumRules())
  {
    hide AllSound, ReadsRule;
    LetterEntriesSound();
    SumSpelled();
    EntriesRead(cmds, SumEntries(), SumTexts(), R.SumRules());
  }

  lemma LikeTermTextsRead(cmds: Commands)
    ensures Reads(cmds, LikeTermTexts(), R.LikeTermRules())
  {
    hide AllSound, ReadsRule, Name, Typed, TypedLetter;
    TermEntriesSound();
    TermSpelling();
    EntriesRead(cmds, LikeTermEntries(), LikeTermTexts(), R.LikeTermRules());
  }

  lemma FoldTextsRead(cmds: Commands)
    ensures Reads(cmds, FoldTexts(), R.FoldRules())
  {
    hide AllSound, ReadsRule, Name, Typed, TypedLetter;
    TermEntriesSound();
    TermSpelling();
    EntriesRead(cmds, FoldEntries(), FoldTexts(), R.FoldRules());
  }

  lemma BothSidesTextsRead(cmds: Commands)
    ensures Reads(cmds, BothSidesTexts(), R.BothSidesRules())
  {
    hide AllSound, ReadsRule, Name, Typed, TypedLetter;
    EquationEntriesSound();
    EquationSpelling();
    EntriesRead(cmds, BothSidesEntries(), BothSidesTexts(), R.BothSidesRules());
  }

  lemma NormalizerSpelled()
    ensures "a" + "/" + "b" + "=" + ("c" + "/" + "d") == "a/b=c/d" && "a" + "d" + "=" + ("b" + "c") == "ad=bc"
    ensures "a" + "/" + "b" + "=" + "c" == "a/b=c" && "a" + "=" + ("b" + "c") == "a=bc"
    ensures "a" + "=" + ("c" + "/" + "d") == "a=c/d" && "a" + "d" + "=" + "c" == "ad=c"
  {
    hide *;
  }

  lemma NormalizerTextsRead(cmds: Commands)
    ensures Reads(cmds, NormalizerTexts(), R.NormalizerRules())
  {
    hide AllSound, ReadsRule;
    LetterEntriesSound();
    NormalizerSpelled();
    EntriesRead(cmds, NormalizerEntries(), NormalizerTexts(), R.NormalizerRules());
  }

  /** The table of `simplifyExpr`, in its order. */
  function SimplifierTexts(): seq<RuleText> {
    UnitTexts() + NegativeConstantTexts() + ProductTexts() + ConstantFirstTexts() + NegativeFactorTexts() + MinusTexts()
    + SumTexts() + LikeTermTexts() + FoldTexts() + BothSidesTexts()
  }

  lemma ReadsConcat(cmds: Commands, ts: seq<RuleText>, us: seq<RuleText>, rs: seq<R.Rule>, qs: seq<R.Rule>)
    requires Reads(cmds, ts, rs) && Reads(cmds, us, qs)
    ensures Reads(cmds, ts + us, rs + qs)
  {
    hide ReadsRule;
  }

  /** The parser reads the whole table as the rules that are proved sound. */
  lemma SimplifierTextsRead(cmds: Commands)
    ensures Reads(cmds, SimplifierTexts(), R.SimplifierRules())
  {
    hide *;
    TablesAreGroups();
    UnitTextsRead(cmds);
    var ts, rs := UnitTexts(), R.UnitRules();
    NegativeConstantTextsRead(cmds);
    ReadsConcat(cmds, ts, NegativeConstantTexts(), rs, R.NegativeConstantRules());
    ts, rs := ts + NegativeConstantTexts(), rs + R.NegativeConstantRules();
    ProductTextsRead(cmds);
    ReadsConcat(cmds, ts, ProductTexts(), rs, R.ProductRules());
    ts, rs := ts + ProductTexts(), rs + R.ProductRules();
    ConstantFirstTextsRead(cmds);
    ReadsConcat(cmds, ts, ConstantFirstTexts(), rs, R.ConstantFirstRules());
    ts, rs := ts + ConstantFirstTexts(), rs + R.ConstantFirstRules();
    NegativeFactorTextsRead(cmds);
    ReadsConcat(cmds, ts, NegativeFactorTexts(), rs, R.NegativeFactorRules());
    ts, rs := ts + NegativeFactorTexts(), rs + R.NegativeFactorRules();
    MinusTextsRead(cmds);
    ReadsConcat(cmds, ts, MinusTexts(), rs, R.MinusRules());
    ts, rs := ts + MinusTexts(), rs + R.MinusRules();
    SumTextsRead(cmds);
    ReadsConcat(cmds, ts, SumTexts(), rs, R.SumRules());
    ts, rs := ts + SumTexts(), rs + R.SumRules();
    LikeTermTextsRead(cmds);
    ReadsConcat(cmds, ts, LikeTermTexts(), rs, R.LikeTermRules());
    ts, rs := ts + LikeTermTexts(), rs + R.LikeTermRules();
    FoldTextsRead(cmds);
    ReadsConcat(cmds, ts, FoldTexts(), rs, R.FoldRules());
    ts, rs := ts + FoldTexts(), rs + R.FoldRules();
    BothSidesTextsRead(cmds);
    ReadsConcat(cmds, ts, BothSidesTexts(), rs, R.BothSidesRules());
  }

  lemma TablesAreGroups()
    ensures SimplifierTexts()
      == UnitTexts() + NegativeConstantTexts() + ProductTexts() + ConstantFirstTexts() + NegativeFactorTexts()
       + MinusTexts() + SumTexts() + LikeTermTexts() + FoldTexts() + BothSidesTexts()
    ensures R.SimplifierRules()
      == R.UnitRules() + R.NegativeConstantRules() + R.ProductRules() + R.ConstantFirstRules()
       + R.NegativeFactorRules() + R.MinusRules() + R.SumRules() + R.LikeTermRules() + R.FoldRules()
       + R.BothSidesRules()
  {
    hide UnitTexts, NegativeConstantTexts, ProductTexts, ConstantFirstTexts, NegativeFactorTexts, MinusTexts, SumTexts,
      LikeTermTexts, FoldTexts, BothSidesTexts;
  }

  // ---------- Rewriting by the tables ----------

  /** Rewriting by the table of texts of `simplifyExpr` is rewriting by its rules. */
  lemma SimplifierBuilds(cmds: Commands, e: Expr)
    requires Plain(e)
    ensures BuildFromTexts(cmds, SimplifierTexts(), e) == ResultOf(R.BuildIfMatch(R.SimplifierRules(), e))
  {
    SimplifierTextsRead(cmds);
    TextsBuild(cmds, SimplifierTexts(), R.SimplifierRules(), e);
  }

  /** The same for `normalize`. */
  lemma NormalizerBuilds(cmds: Commands, e: Expr)
    requires Plain(e)
    ensures BuildFromTexts(cmds, NormalizerTexts(), e) == ResultOf(R.BuildIfMatch(R.NormalizerRules(), e))
  {
    NormalizerTextsRead(cmds);
    TextsBuild(cmds, NormalizerTexts(), R.NormalizerRules(), e);
  }

  /** So what either table makes of an expression has its value, if the names that the rule repeats are bound safely. */
  lemma TextsPreserve(cmds: Commands, e: Expr, normalize: bool)
    requires Plain(e)
    ensures
      var f := R.BuildIfMatch(if normalize then R.NormalizerRules() else R.SimplifierRules(), e);
      var built := BuildFromTexts(cmds, if normalize then NormalizerTexts() else SimplifierTexts(), e);
      built == ResultOf(f) && (built.Some? && R.SafeFiring(f.value) ==> Preserves(e, built.value))
  {
    hide *;
    var rules := if normalize then R.NormalizerRules() else R.SimplifierRules();
    if normalize {
      NormalizerBuilds(cmds, e);
    } else {
      SimplifierBuilds(cmds, e);
    }
    BuildIfMatchIsFiring(rules, e);
    ResultIs(R.BuildIfMatch(rules, e));
    if R.BuildIfMatch(rules, e).Some? && R.SafeFiring(R.BuildIfMatch(rules, e).value) {
      RuleInTables(R.BuildIfMatch(rules, e).value.rule);
      FiringPreserves(R.BuildIfMatch(rules, e).value.rule, e);
    }
  }

  lemma RuleInTables(rule: R.Rule)
    ensures rule in R.SimplifierRules() || rule in R.NormalizerRules() ==> InTables(rule)
  {
  }

  lemma ResultIs(f: Option<R.Firing>)
    ensures ResultOf(f) == if f.Some? then Some(f.value.result) else None
  {
  }
}
