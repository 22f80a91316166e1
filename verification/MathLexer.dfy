/**
 * The lexer of the math engine: tokens with positions, and the stack of commands whose brace groups
 * are still open (`lexCharStream`, `lexCommand`, `posAtToken` and `tokenAtPos` of
 * examples/data-objects/math/src/mathExpr.ts).
 */
module MathLexer {
  import opened Common
  import opened Options

  datatype TokenType =
    | VAR | PATTERNVAR | PATTERNTYPE | INT | COMMAND | RCURLY | MIDCOMMAND | ENDCOMMAND | SPACE | NEWLINE
    | MINUS | PLUS | SLASH | OPAREN | CPAREN | COMMA | IMPLY | EQUALS

  /**
   * Tokens refer to each other by their position in the token list. `remaining` counts the operands
   * a command still waits for; `endTok` is the token that ended its last operand.
   */
  datatype Token = Token(
    kind: TokenType, start: nat, end: nat, text: string,
    arity: nat, remaining: nat, endTok: Option<nat>,
    paramCmd: Option<nat>, paramIndex: int)

  datatype CmdInfo = CmdInfo(arity: nat, isVariable: bool)

  type Commands = map<string, CmdInfo>

  function Simple(kind: TokenType, start: nat, end: nat, text: string): Token {
    Token(kind, start, end, text, 0, 0, None, None, 0)
  }

  function CommandToken(kind: TokenType, start: nat, end: nat, key: string, arity: nat): Token {
    Token(kind, start, end, key, arity, arity, None, None, 0)
  }

  predicate IsLetter(c: char) {
    'a' <= c <= 'z' || 'A' <= c <= 'Z'
  }

  predicate IsDigit(c: char) {
    '0' <= c <= '9'
  }

  /** The letters and digits, one by one. */
  lemma CharactersAre(c: char)
    ensures IsLetter(c) <==>
      || c in {'a', 'b', 'c', 'd', 'e', 'f', 'g', 'h', 'i', 'j', 'k', 'l', 'm',
              'n', 'o', 'p', 'q', 'r', 's', 't', 'u', 'v', 'w', 'x', 'y', 'z'}
      || c in {'A', 'B', 'C', 'D', 'E', 'F', 'G', 'H', 'I', 'J', 'K', 'L', 'M',
              'N', 'O', 'P', 'Q', 'R', 'S', 'T', 'U', 'V', 'W', 'X', 'Y', 'Z'}
    ensures IsDigit(c) <==> c in {'0', '1', '2', '3', '4', '5', '6', '7', '8', '9'}
  {
    var n := c as int;
    assert c == n as char;
  }

  /** The first position from i on whose character is not in the class. */
  function SkipLetters(s: string, i: nat): (j: nat)
    requires i <= |s|
    ensures i <= j <= |s|
    ensures forall k :: i <= k < j ==> IsLetter(s[k])
    ensures j < |s| ==> !IsLetter(s[j])
    decreases |s| - i
  {
    if i < |s| && IsLetter(s[i]) then SkipLetters(s, i + 1) else i
  }

  function SkipDigits(s: string, i: nat): (j: nat)
    requires i <= |s|
    ensures i <= j <= |s|
    ensures forall k :: i <= k < j ==> IsDigit(s[k])
    ensures j < |s| ==> !IsDigit(s[j])
    decreases |s| - i
  {
    if i < |s| && IsDigit(s[i]) then SkipDigits(s, i + 1) else i
  }

  function SkipSpaces(s: string, i: nat): (j: nat)
    requires i <= |s|
    ensures i <= j <= |s|
    ensures forall k :: i <= k < j ==> s[k] == ' '
    ensures j < |s| ==> s[j] != ' '
    decreases |s| - i
  {
    if i < |s| && s[i] == ' ' then SkipSpaces(s, i + 1) else i
  }

  /** The stream never advances past its end. */
  function Advance(s: string, i: nat, n: nat): nat {
    if i + n > |s| then |s| else i + n
  }

  datatype LexState = LexState(index: nat, tokens: seq<Token>, stack: seq<nat>)

  /** Every command on the stack is a token that waits for at least one more operand. */
  predicate Waiting(st: LexState) {
    forall i :: 0 <= i < |st.stack| ==> st.stack[i] < |st.tokens| && st.tokens[st.stack[i]].remaining > 0
  }

  predicate DistinctStack(st: LexState) {
    forall i, j :: 0 <= i < j < |st.stack| ==> st.stack[i] < st.stack[j]
  }

  predicate GoodState(s: string, st: LexState) {
    st.index <= |s| && Waiting(st) && DistinctStack(st)
  }

  function Push(st: LexState, tok: Token): (r: LexState)
    requires Waiting(st) && DistinctStack(st)
    ensures Waiting(r) && DistinctStack(r)
  {
    st.(index := tok.end, tokens := st.tokens + [tok])
  }

  /** None when the command is not in the table: the source then fails on the missing entry. */
  function LexCommand(cmds: Commands, s: string, st: LexState): (r: Option<LexState>)
    requires GoodState(s, st) && st.index < |s|
    ensures r.Some? ==> GoodState(s, r.value) && r.value.index > st.index
  {
    var keyEnd := SkipLetters(s, st.index + 1);
    var key := s[st.index + 1..keyEnd];
    if key !in cmds then None
    else
      var cmd := cmds[key];
      var kind := if cmd.isVariable then VAR else COMMAND;
      var end := if cmd.arity > 0 then Advance(s, keyEnd, 1) else keyEnd;
      var st' := Push(st, CommandToken(kind, st.index, end, key, cmd.arity));
      Some(if cmd.arity > 0 then st'.(stack := st.stack + [|st.tokens|]) else st')
  }

  /** `^` and `_` take the character after them, whatever it is. */
  function LexScript(s: string, st: LexState): (r: LexState)
    requires GoodState(s, st) && st.index < |s|
    ensures GoodState(s, r) && r.index > st.index
  {
    var tok := CommandToken(COMMAND, st.index, st.index + 2, [s[st.index]], 1);
    LexState(Advance(s, st.index, 2), st.tokens + [tok], st.stack + [|st.tokens|])
  }

  /** A closing brace ends an operand of the innermost open command. */
  function CloseBrace(s: string, st: LexState): (r: LexState)
    requires GoodState(s, st) && st.index < |s|
    ensures GoodState(s, r) && r.index > st.index
  {
    if st.stack == [] then Push(st, Simple(RCURLY, st.index, st.index + 1, ""))
    else
      var top := st.stack[|st.stack| - 1];
      var cmd := st.tokens[top];
      var last := cmd.remaining == 1;
      var end := Advance(s, if last then st.index else Advance(s, st.index, 1), 1);
      var kind := if last then ENDCOMMAND else MIDCOMMAND;
      var tok := Token(kind, st.index, end, "", 0, 0, None, Some(top), cmd.arity - cmd.remaining);
      var cmd' := cmd.(remaining := cmd.remaining - 1, endTok := if last then Some(|st.tokens|) else cmd.endTok);
      LexState(end, st.tokens[top := cmd'] + [tok], if last then st.stack[..|st.stack| - 1] else st.stack)
  }

  function PunctKind(c: char): Option<TokenType> {
    match c
    case '/' => Some(SLASH)
    case '+' => Some(PLUS)
    case ',' => Some(COMMA)
    case '-' => Some(MINUS)
    case '(' => Some(OPAREN)
    case ')' => Some(CPAREN)
    case '\n' => Some(NEWLINE)
    case _ => None
  }

  /** The next token, for a character that does not concern the command stack. */
  function NextToken(s: string, i: nat): (r: Option<Token>)
    requires i < |s|
    ensures r.Some? ==> i < r.value.end <= |s|
  {
    var c := s[i];
    if IsLetter(c) then
      Some(Simple(if i + 1 < |s| && s[i + 1] == ':' then PATTERNVAR else VAR, i, i + 1, [c]))
    else if IsDigit(c) then
      var end := SkipDigits(s, i);
      Some(Simple(INT, i, end, s[i..end]))
    else if c == '=' then
      Some(if i + 1 < |s| && s[i + 1] == '>' then Simple(IMPLY, i, i + 2, "") else Simple(EQUALS, i, i + 1, ""))
    else if c == ' ' then Some(Simple(SPACE, i, SkipSpaces(s, i), ""))
    else if c == '?' || c == ':' then
      var end := SkipLetters(s, i + 1);
      Some(Simple(if c == '?' then PATTERNVAR else PATTERNTYPE, i + 1, end, s[i + 1..end]))
    else if PunctKind(c).Some? then Some(Simple(PunctKind(c).value, i, i + 1, ""))
    else None
  }

  /** One turn of the main loop. */
  function Step(cmds: Commands, s: string, st: LexState): (r: Option<LexState>)
    requires GoodState(s, st) && st.index < |s|
    ensures r.Some? ==> GoodState(s, r.value) && r.value.index > st.index
  {
    var c := s[st.index];
    if c == '\\' then LexCommand(cmds, s, st)
    else if c == '^' || c == '_' then Some(LexScript(s, st))
    else if c == '}' then Some(CloseBrace(s, st))
    else
      var tok := NextToken(s, st.index);
      // Anything else is not expected here, an opening brace included: it is reported and skipped.
      Some(if tok.Some? then Push(st, tok.value) else st.(index := st.index + 1))
  }

  /** The main loop, to the end of the text. */
  function Run(cmds: Commands, s: string, st: LexState): (r: Option<LexState>)
    requires GoodState(s, st)
    ensures r.Some? ==> GoodState(s, r.value) && r.value.index == |s|
    decreases |s| - st.index
  {
    if st.index == |s| then Some(st)
    else
      var next := Step(cmds, s, st);
      if next.None? then None else Run(cmds, s, next.value)
  }

  const START := LexState(0, [], [])

  function LexMath(cmds: Commands, s: string): Option<LexState> {
    Run(cmds, s, START)
  }

  // ---------- Well-formed text ----------

  datatype Item =
    | Letter(c: char)
    | TypedLetter(c: char)
    | Number(digits: string)
    | Punct(c: char)
    | Equal
    | Arrow
    | Spaces(n: nat)
    | PatName(name: string)
    | PatType(name: string)
    | Symbol(key: string)
    | Group(script: bool, key: string, args: Args)

  datatype Items = Empty | Then(head: Item, tail: Items)

  datatype Args = Last(arg: Items) | More(first: Items, more: Args)

  function Blank(n: nat): string {
    if n == 0 then "" else " " + Blank(n - 1)
  }

  /** A script is `^` or `_`, any other group a backslash command. */
  function GroupHead(script: bool, key: string): string {
    (if script then key else "\\" + key) + "{"
  }

  function ItemText(item: Item): string {
    match item
    case Letter(c) => [c]
    case TypedLetter(c) => [c]
    case Number(digits) => digits
    case Punct(c) => [c]
    case Equal => "="
    case Arrow => "=>"
    case Spaces(n) => Blank(n)
    case PatName(name) => "?" + name
    case PatType(name) => ":" + name
    case Symbol(key) => "\\" + key
    case Group(script, key, args) => GroupHead(script, key) + ArgsText(args)
  }

  function ItemsText(items: Items): string {
    match items
    case Empty => ""
    case Then(head, tail) => ItemText(head) + ItemsText(tail)
  }

  /** The operands of a command, after its first opening brace. */
  function ArgsText(args: Args): string {
    match args
    case Last(arg) => ItemsText(arg) + "}"
    case More(first, more) => ItemsText(first) + "}{" + ArgsText(more)
  }

  function Count(args: Args): nat {
    match args
    case Last(_) => 1
    case More(_, more) => 1 + Count(more)
  }

  predicate AllLetters(s: string) {
    forall i :: 0 <= i < |s| ==> IsLetter(s[i])
  }

  /** An item is what the lexer reads when the text goes on with `next` ('\0' at the end). */
  predicate FitsItem(cmds: Commands, item: Item, next: char) {
    match item
    case Letter(c) => IsLetter(c) && next != ':'
    case TypedLetter(c) => IsLetter(c) && next == ':'
    case Number(digits) => digits != "" && (forall i :: 0 <= i < |digits| ==> IsDigit(digits[i])) && !IsDigit(next)
    case Punct(c) => PunctKind(c).Some?
    case Equal => next != '>'
    case Arrow => true
    case Spaces(n) => n > 0 && next != ' '
    case PatName(name) => AllLetters(name) && !IsLetter(next)
    case PatType(name) => AllLetters(name) && !IsLetter(next)
    case Symbol(key) => AllLetters(key) && !IsLetter(next) && key in cmds && cmds[key].arity == 0
    case Group(script, key, args) =>
      && FitsArgs(cmds, args)
      && if script then (key == "^" || key == "_") && Count(args) == 1
         else AllLetters(key) && key in cmds && cmds[key].arity == Count(args)
  }

  function FirstChar(items: Items, next: char): char {
    var text := ItemsText(items);
    if text == "" then next else text[0]
  }

  predicate FitsItems(cmds: Commands, items: Items, next: char) {
    match items
    case Empty => true
    case Then(head, tail) => FitsItem(cmds, head, FirstChar(tail, next)) && FitsItems(cmds, tail, next)
  }

  predicate FitsArgs(cmds: Commands, args: Args) {
    match args
    case Last(arg) => FitsItems(cmds, arg, '}')
    case More(first, more) => FitsItems(cmds, first, '}') && FitsArgs(cmds, more)
  }

  // ---------- The tokens of well-formed text ----------

  function LeafToken(cmds: Commands, item: Item, pos: nat): Token {
    match item
    case Letter(c) => Simple(VAR, pos, pos + 1, [c])
    case TypedLetter(c) => Simple(PATTERNVAR, pos, pos + 1, [c])
    case Number(digits) => Simple(INT, pos, pos + |digits|, digits)
    case Punct(c) => Simple(if PunctKind(c).Some? then PunctKind(c).value else SPACE, pos, pos + 1, "")
    case Equal => Simple(EQUALS, pos, pos + 1, "")
    case Arrow => Simple(IMPLY, pos, pos + 2, "")
    case Spaces(n) => Simple(SPACE, pos, pos + n, "")
    case PatName(name) => Simple(PATTERNVAR, pos + 1, pos + 1 + |name|, name)
    case PatType(name) => Simple(PATTERNTYPE, pos + 1, pos + 1 + |name|, name)
    case Symbol(key) =>
      CommandToken(if key in cmds && cmds[key].isVariable then VAR else COMMAND, pos, pos + 1 + |key|, key, 0)
    case _ => Simple(SPACE, pos, pos, "")
  }

  /** The tokens of an item at position `pos`, the first of them being token number `base`. */
  function ItemTokens(cmds: Commands, item: Item, pos: nat, base: nat): seq<Token>
    decreases item, 1
  {
    match item
    case Group(script, key, args) =>
      var start := pos + |GroupHead(script, key)|;
      var kind := if !script && key in cmds && cmds[key].isVariable then VAR else COMMAND;
      var body := ArgsTokens(cmds, args, start, base + 1, base, 0);
      [CommandToken(kind, pos, start, key, Count(args)).(remaining := 0, endTok := Some(base + |body|))] + body
    case _ => [LeafToken(cmds, item, pos)]
  }

  function ItemsTokens(cmds: Commands, items: Items, pos: nat, base: nat): seq<Token>
    decreases items, 1
  {
    match items
    case Empty => []
    case Then(head, tail) =>
      var first := ItemTokens(cmds, head, pos, base);
      first + ItemsTokens(cmds, tail, pos + |ItemText(head)|, base + |first|)
  }

  /** Each operand but the last is closed by a MIDCOMMAND, the last by the ENDCOMMAND. */
  function ArgsTokens(cmds: Commands, args: Args, pos: nat, base: nat, cmd: nat, k: int): (r: seq<Token>)
    ensures r != []
    decreases args, 0
  {
    match args
    case Last(arg) =>
      var first := ItemsTokens(cmds, arg, pos, base);
      var close := pos + |ItemsText(arg)|;
      first + [Token(ENDCOMMAND, close, close + 1, "", 0, 0, None, Some(cmd), k)]
    case More(arg, more) =>
      var first := ItemsTokens(cmds, arg, pos, base);
      var close := pos + |ItemsText(arg)|;
      first + [Token(MIDCOMMAND, close, close + 2, "", 0, 0, None, Some(cmd), k)]
      + ArgsTokens(cmds, more, close + 2, base + |first| + 1, cmd, k + 1)
  }

  // ---------- Lexing well-formed text ----------

  predicate TextAt(s: string, i: nat, t: string) {
    i + |t| <= |s| && forall k :: 0 <= k < |t| ==> t[k] == s[i + k]
  }

  function NextChar(s: string, i: nat): char {
    if i < |s| then s[i] else '\0'
  }

  lemma TextAtConcat(s: string, i: nat, t: string, u: string)
    ensures TextAt(s, i, t + u) <==> TextAt(s, i, t) && TextAt(s, i + |t|, u)
  {
    if TextAt(s, i, t + u) {
      assert forall k :: 0 <= k < |t| ==> t[k] == (t + u)[k];
      assert forall k :: 0 <= k < |u| ==> u[k] == (t + u)[|t| + k];
    }
  }

  lemma TextAtSlice(s: string, i: nat, t: string)
    requires TextAt(s, i, t)
    ensures s[i..i + |t|] == t
  {
  }

  /** The character classes stop where the item does. */
  lemma SkipsLetters(s: string, i: nat, name: string)
    requires TextAt(s, i, name) && AllLetters(name) && !IsLetter(NextChar(s, i + |name|))
    ensures SkipLetters(s, i) == i + |name|
  {
    forall k | i <= k < i + |name| ensures IsLetter(s[k]) {
      assert name[k - i] == s[k];
    }
  }

  lemma SkipsDigits(s: string, i: nat, digits: string)
    requires TextAt(s, i, digits) && (forall k :: 0 <= k < |digits| ==> IsDigit(digits[k]))
        && !IsDigit(NextChar(s, i + |digits|))
    ensures SkipDigits(s, i) == i + |digits|
  {
    forall k | i <= k < i + |digits| ensures IsDigit(s[k]) {
      assert digits[k - i] == s[k];
    }
  }

  lemma SkipsSpaces(s: string, i: nat, n: nat)
    requires TextAt(s, i, Blank(n)) && NextChar(s, i + n) != ' '
    ensures SkipSpaces(s, i) == i + n
  {
    BlankIs(n);
    forall k | i <= k < i + n ensures s[k] == ' ' {
      assert Blank(n)[k - i] == s[k];
    }
  }

  lemma {:induction false} BlankIs(n: nat)
    ensures |Blank(n)| == n && forall k :: 0 <= k < n ==> Blank(n)[k] == ' '
  {
    if n > 0 {
      BlankIs(n - 1);
    }
  }

  predicate FitsAt(cmds: Commands, s: string, i: nat, item: Item) {
    TextAt(s, i, ItemText(item)) && FitsItem(cmds, item, NextChar(s, i + |ItemText(item)|))
  }

  lemma NextTokenNumber(cmds: Commands, s: string, i: nat, item: Item)
    requires item.Number? && FitsAt(cmds, s, i, item)
    ensures i < |s| && IsDigit(s[i]) && NextToken(s, i) == Some(LeafToken(cmds, item, i))
  {
    assert s[i] == item.digits[0];
    SkipsDigits(s, i, item.digits);
    TextAtSlice(s, i, item.digits);
  }

  lemma NextTokenSpaces(cmds: Commands, s: string, i: nat, item: Item)
    requires item.Spaces? && FitsAt(cmds, s, i, item)
    ensures |ItemText(item)| == item.n > 0
    ensures i < |s| && s[i] == ' ' && NextToken(s, i) == Some(LeafToken(cmds, item, i))
  {
    BlankIs(item.n);
    assert s[i] == Blank(item.n)[0];
    SkipsSpaces(s, i, item.n);
  }

  lemma NextTokenName(cmds: Commands, s: string, i: nat, item: Item)
    requires (item.PatName? || item.PatType?) && FitsAt(cmds, s, i, item)
    ensures i < |s| && (s[i] == '?' || s[i] == ':') && NextToken(s, i) == Some(LeafToken(cmds, item, i))
  {
    var c := if item.PatName? then "?" else ":";
    assert ItemText(item) == c + item.name;
    TextAtConcat(s, i, c, item.name);
    assert s[i] == c[0];
    SkipsLetters(s, i + 1, item.name);
    TextAtSlice(s, i + 1, item.name);
  }

  lemma NextTokenChar(cmds: Commands, s: string, i: nat, item: Item)
    requires item.Letter? || item.TypedLetter? || item.Punct? || item.Equal? || item.Arrow?
    requires FitsAt(cmds, s, i, item)
    ensures i < |s| && s[i] != '\\' && s[i] != '^' && s[i] != '_' && s[i] != '}'
    ensures NextToken(s, i) == Some(LeafToken(cmds, item, i))
  {
    assert s[i] == ItemText(item)[0];
    if item.Arrow? {
      assert s[i + 1] == ItemText(item)[1];
    }
  }

  predicate IsLeaf(item: Item) {
    !item.Group?
  }

  function AfterItem(cmds: Commands, st: LexState, item: Item): LexState {
    LexState(st.index + |ItemText(item)|, st.tokens + ItemTokens(cmds, item, st.index, |st.tokens|), st.stack)
  }

  lemma StepSymbol(cmds: Commands, s: string, st: LexState, item: Item)
    requires GoodState(s, st) && item.Symbol? && FitsAt(cmds, s, st.index, item)
    ensures st.index < |s| && Step(cmds, s, st) == Some(AfterItem(cmds, st, item))
  {
    var i := st.index;
    TextAtConcat(s, i, "\\", item.key);
    assert s[i] == "\\"[0];
    SkipsLetters(s, i + 1, item.key);
    TextAtSlice(s, i + 1, item.key);
  }

  lemma StepSimple(cmds: Commands, s: string, st: LexState, item: Item)
    requires GoodState(s, st) && IsLeaf(item) && !item.Symbol? && st.index < |s|
    requires s[st.index] != '\\' && s[st.index] != '^' && s[st.index] != '_' && s[st.index] != '}'
    requires NextToken(s, st.index) == Some(LeafToken(cmds, item, st.index))
    ensures LeafToken(cmds, item, st.index).end == st.index + |ItemText(item)| ==>
      Step(cmds, s, st) == Some(AfterItem(cmds, st, item))
  {
    hide NextToken, LeafToken, ItemText;
  }

  lemma LeafEnd(cmds: Commands, item: Item, i: nat)
    requires IsLeaf(item)
    ensures LeafToken(cmds, item, i).end == i + |ItemText(item)|
  {
    if item.Spaces? {
      BlankIs(item.n);
    }
  }

  /** One turn of the loop reads one item that opens no command. */
  lemma StepLeaf(cmds: Commands, s: string, st: LexState, item: Item)
    requires GoodState(s, st) && IsLeaf(item) && FitsAt(cmds, s, st.index, item)
    ensures st.index < |s| && Step(cmds, s, st) == Some(AfterItem(cmds, st, item))
  {
    hide NextToken, FitsAt, LeafToken, Step, ItemText, GoodState, AfterItem;
    LeafEnd(cmds, item, st.index);
    if item.Symbol? {
      StepSymbol(cmds, s, st, item);
    } else {
      if item.Number? {
        NextTokenNumber(cmds, s, st.index, item);
      } else if item.Spaces? {
        NextTokenSpaces(cmds, s, st.index, item);
      } else if item.PatName? || item.PatType? {
        NextTokenName(cmds, s, st.index, item);
      } else {
        NextTokenChar(cmds, s, st.index, item);
      }
      StepSimple(cmds, s, st, item);
    }
  }

  function Finished(cmd: Token, close: nat): Token {
    cmd.(remaining := 0, endTok := Some(close))
  }

  /** The state once the operands of the command on top of the stack have been read. */
  function AfterArgs(cmds: Commands, st: LexState, args: Args): LexState
    requires st.stack != [] && st.stack[|st.stack| - 1] < |st.tokens|
  {
    var top := st.stack[|st.stack| - 1];
    var cmd := st.tokens[top];
    var body := ArgsTokens(cmds, args, st.index, |st.tokens|, top, cmd.arity - cmd.remaining);
    LexState(
      st.index + |ArgsText(args)|,
      Joined(Replaced(st.tokens, top, Finished(cmd, |st.tokens| + |body| - 1)), body),
      st.stack[..|st.stack| - 1])
  }

  function AfterItems(cmds: Commands, st: LexState, items: Items): LexState {
    LexState(st.index + |ItemsText(items)|, st.tokens + ItemsTokens(cmds, items, st.index, |st.tokens|), st.stack)
  }

  /** The loop gets from one state to the other. */
  ghost predicate Reaches(cmds: Commands, s: string, st: LexState, st': LexState) {
    GoodState(s, st) && GoodState(s, st') && Run(cmds, s, st) == Run(cmds, s, st')
  }

  lemma StepReaches(cmds: Commands, s: string, st: LexState, st': LexState)
    requires GoodState(s, st) && st.index < |s| && Step(cmds, s, st) == Some(st')
    ensures Reaches(cmds, s, st, st')
  {
  }

  /** Reading a list of items appends exactly their tokens and leaves the stack as it was. */
  lemma {:induction false} LexItems(cmds: Commands, s: string, st: LexState, items: Items, next: char)
    requires GoodState(s, st) && TextAt(s, st.index, ItemsText(items))
    requires next == NextChar(s, st.index + |ItemsText(items)|) && FitsItems(cmds, items, next)
    ensures Reaches(cmds, s, st, AfterItems(cmds, st, items))
    decreases items, 1
  {
    match items {
      case Empty => assert AfterItems(cmds, st, items) == st;
      case Then(head, tail) =>
        var mid := AfterItem(cmds, st, head);
        TextAtConcat(s, st.index, ItemText(head), ItemsText(tail));
        FirstCharAt(s, mid.index, tail, next);
        AfterHead(cmds, st, items);
        hide AfterItem, AfterItems, ItemsText, ItemText, FitsItem, GoodState, FirstChar, Run, TextAt;
        LexItem(cmds, s, st, head);
        LexItems(cmds, s, mid, tail, next);
    }
  }

  lemma AfterHead(cmds: Commands, st: LexState, items: Items)
    requires items.Then?
    ensures AfterItems(cmds, AfterItem(cmds, st, items.head), items.tail) == AfterItems(cmds, st, items)
  {
    hide ItemTokens, ItemText;
    var first := ItemTokens(cmds, items.head, st.index, |st.tokens|);
    var rest := ItemsTokens(cmds, items.tail, st.index + |ItemText(items.head)|, |st.tokens| + |first|);
    assert st.tokens + first + rest == st.tokens + (first + rest);
  }

  lemma FirstCharAt(s: string, i: nat, tail: Items, next: char)
    requires TextAt(s, i, ItemsText(tail)) && next == NextChar(s, i + |ItemsText(tail)|)
    ensures FirstChar(tail, next) == NextChar(s, i)
  {
    if ItemsText(tail) != "" {
      assert ItemsText(tail)[0] == s[i + 0];
    }
  }

  lemma {:induction false} LexItem(cmds: Commands, s: string, st: LexState, item: Item)
    requires GoodState(s, st) && FitsAt(cmds, s, st.index, item)
    ensures Reaches(cmds, s, st, AfterItem(cmds, st, item))
    decreases item, 1
  {
    if IsLeaf(item) {
      StepLeaf(cmds, s, st, item);
      StepReaches(cmds, s, st, AfterItem(cmds, st, item));
    } else {
      var inside := Opened(cmds, st, item);
      OpenGroup(cmds, s, st, item);
      StepReaches(cmds, s, st, inside);
      LexArgs(cmds, s, inside, item.args);
      GroupClosed(cmds, st, item);
    }
  }

  /** The state after the head of a group, with the command on the stack. */
  function Opened(cmds: Commands, st: LexState, item: Item): LexState
    requires item.Group?
  {
    var kind := if !item.script && item.key in cmds && cmds[item.key].isVariable then VAR else COMMAND;
    var end := st.index + |GroupHead(item.script, item.key)|;
    LexState(end, st.tokens + [CommandToken(kind, st.index, end, item.key, Count(item.args))], st.stack + [|st.tokens|])
  }

  lemma OpenGroup(cmds: Commands, s: string, st: LexState, item: Item)
    requires GoodState(s, st) && item.Group? && FitsAt(cmds, s, st.index, item)
    ensures st.index < |s| && Step(cmds, s, st) == Some(Opened(cmds, st, item))
    ensures TextAt(s, Opened(cmds, st, item).index, ArgsText(item.args))
  {
    TextAtConcat(s, st.index, GroupHead(item.script, item.key), ArgsText(item.args));
    assert ItemText(item) == GroupHead(item.script, item.key) + ArgsText(item.args);
    if item.script {
      OpenScript(cmds, s, st, item);
    } else {
      OpenCommand(cmds, s, st, item);
    }
  }

  lemma OpenScript(cmds: Commands, s: string, st: LexState, item: Item)
    requires GoodState(s, st) && item.Group? && item.script
    requires (item.key == "^" || item.key == "_") && Count(item.args) == 1
    requires TextAt(s, st.index, GroupHead(true, item.key))
    ensures st.index < |s| && Step(cmds, s, st) == Some(Opened(cmds, st, item))
  {
    hide CloseBrace, NextToken, LexCommand, ArgsTokens, FitsArgs;
    var i := st.index;
    var head := GroupHead(true, item.key);
    assert s[i] == head[0] && s[i + 1] == head[1];
    assert item.key == [s[i]];
  }

  lemma OpenCommand(cmds: Commands, s: string, st: LexState, item: Item)
    requires GoodState(s, st) && item.Group? && !item.script
    requires AllLetters(item.key) && item.key in cmds && cmds[item.key].arity == Count(item.args)
    requires TextAt(s, st.index, GroupHead(false, item.key))
    ensures st.index < |s| && Step(cmds, s, st) == Some(Opened(cmds, st, item))
  {
    hide CloseBrace, NextToken, LexScript;
    var i := st.index;
    TextAtConcat(s, i, "\\" + item.key, "{");
    TextAtConcat(s, i, "\\", item.key);
    assert s[i] == "\\"[0];
    assert s[i + 1 + |item.key|] == "{"[0];
    SkipsLetters(s, i + 1, item.key);
    TextAtSlice(s, i + 1, item.key);
  }

  lemma GroupClosed(cmds: Commands, st: LexState, item: Item)
    requires item.Group?
    ensures AfterArgs(cmds, Opened(cmds, st, item), item.args) == AfterItem(cmds, st, item)
  {
    var inside := Opened(cmds, st, item);
    var base := |st.tokens|;
    var cmd := inside.tokens[base];
    var body := ArgsTokens(cmds, item.args, inside.index, base + 1, base, 0);
    var cmd' := cmd.(remaining := 0, endTok := Some(base + |body|));
    assert ItemTokens(cmds, item, st.index, base) == [cmd'] + body;
    assert ItemText(item) == GroupHead(item.script, item.key) + ArgsText(item.args);
    hide ItemTokens, ArgsTokens, ItemText, ArgsText, GroupHead;
    assert inside.stack[..|inside.stack| - 1] == st.stack;
    assert Replaced(inside.tokens, base, cmd') == st.tokens + [cmd'];
    assert st.tokens + [cmd'] + body == st.tokens + ([cmd'] + body);
  }

  /** Reading the operands closes the command: n - 1 inner braces, one last one, and the stack is popped. */
  lemma {:induction false} LexArgs(cmds: Commands, s: string, st: LexState, args: Args)
    requires GoodState(s, st) && st.stack != [] && st.tokens[st.stack[|st.stack| - 1]].remaining == Count(args)
    requires TextAt(s, st.index, ArgsText(args)) && FitsArgs(cmds, args)
    ensures Reaches(cmds, s, st, AfterArgs(cmds, st, args))
    decreases args, 0
  {
    match args {
      case Last(arg) =>
        var mid := AfterItems(cmds, st, arg);
        LastText(s, st.index, arg);
        hide Step, Run, ArgsText, ItemsText, TextAt, AfterArgs, GoodState, FitsItems, Count;
        LexItems(cmds, s, st, arg, '}');
        CloseLast(cmds, s, st, mid, arg);
        StepReaches(cmds, s, mid, AfterArgs(cmds, st, args));
      case More(arg, more) =>
        var mid := AfterItems(cmds, st, arg);
        MoreText(s, st.index, arg, more);
        hide Step, Run, ArgsText, ItemsText, TextAt, AfterArgs, GoodState, FitsItems;
        LexItems(cmds, s, st, arg, '}');
        var next := AfterOperand(cmds, st, arg);
        CloseMiddle(cmds, s, st, mid, arg);
        StepReaches(cmds, s, mid, next);
        AfterOperandIs(cmds, st, arg);
        LexArgs(cmds, s, next, more);
        ArgsJoined(cmds, st, arg, more);
    }
  }

  lemma LastText(s: string, i: nat, arg: Items)
    requires TextAt(s, i, ArgsText(Last(arg)))
    ensures TextAt(s, i, ItemsText(arg)) && NextChar(s, i + |ItemsText(arg)|) == '}'
    ensures i + |ItemsText(arg)| < |s|
  {
    TextAtConcat(s, i, ItemsText(arg), "}");
    assert s[i + |ItemsText(arg)|] == "}"[0];
  }

  lemma MoreText(s: string, i: nat, arg: Items, more: Args)
    requires TextAt(s, i, ArgsText(More(arg, more)))
    ensures TextAt(s, i, ItemsText(arg)) && NextChar(s, i + |ItemsText(arg)|) == '}'
    ensures i + |ItemsText(arg)| + 1 < |s|
    ensures TextAt(s, i + |ItemsText(arg)| + 2, ArgsText(more))
  {
    TextAtConcat(s, i, ItemsText(arg) + "}{", ArgsText(more));
    TextAtConcat(s, i, ItemsText(arg), "}{");
    assert s[i + |ItemsText(arg)|] == "}{"[0];
    assert s[i + |ItemsText(arg)| + 1] == "}{"[1];
  }

  function Joined<T>(ts: seq<T>, us: seq<T>): (r: seq<T>)
    ensures |r| == |ts| + |us|
    ensures us != [] ==> r != []
  {
    ts + us
  }

  function Replaced<T>(ts: seq<T>, i: nat, t: T): (r: seq<T>)
    requires i < |ts|
    ensures |r| == |ts| && r[i] == t
  {
    ts[i := t]
  }

  lemma UpdateFront<T>(ts: seq<T>, us: seq<T>, i: nat, t: T)
    requires i < |ts|
    ensures (ts + us)[i] == ts[i]
    ensures Replaced(ts + us, i, t) == Replaced(ts, i, t) + us
    ensures (ts + us)[i := t] == Replaced(ts + us, i, t)
  {
  }

  /** What a closing brace does when the tokens since the open command are `us`. */
  lemma CloseBraceIs(cmds: Commands, s: string, st: LexState, ts: seq<Token>, us: seq<Token>)
    requires GoodState(s, st) && st.index < |s| && s[st.index] == '}'
    requires st.stack != [] && st.stack[|st.stack| - 1] < |ts| && st.tokens == ts + us
    requires ts[st.stack[|st.stack| - 1]].remaining > 1 ==> st.index + 1 < |s|
    ensures
      var top := st.stack[|st.stack| - 1];
      var cmd := ts[top];
      var end := st.index + if cmd.remaining == 1 then 1 else 2;
      Step(cmds, s, st)
        == Some(LexState(end, Joined(Replaced(ts, top, CountedDown(cmd, |ts + us|)), us + [Closer(cmd, top, st.index)]),
        if cmd.remaining == 1 then st.stack[..|st.stack| - 1] else st.stack))
  {
    hide Step, Advance, Replaced, CountedDown, Closer, SkipLetters;
    var top := st.stack[|st.stack| - 1];
    var cmd := ts[top];
    assert st.tokens[top] == cmd && cmd.remaining > 0;
    BraceStep(cmds, s, st);
    BraceCloses(s, st, cmd);
    UpdateFront(ts, us, top, CountedDown(cmd, |ts + us|));
    Associates(Replaced(ts, top, CountedDown(cmd, |ts + us|)), us, [Closer(cmd, top, st.index)]);
  }

  lemma BraceStep(cmds: Commands, s: string, st: LexState)
    requires GoodState(s, st) && st.index < |s| && s[st.index] == '}'
    ensures Step(cmds, s, st) == Some(CloseBrace(s, st))
  {
    hide LexCommand, LexScript, NextToken, CloseBrace;
  }

  lemma BraceCloses(s: string, st: LexState, cmd: Token)
    requires GoodState(s, st) && st.index < |s| && st.stack != []
    requires cmd == st.tokens[st.stack[|st.stack| - 1]] && (cmd.remaining > 1 ==> st.index + 1 < |s|)
    ensures
      var top := st.stack[|st.stack| - 1];
      CloseBrace(s, st) == LexState(
        st.index + if cmd.remaining == 1 then 1 else 2,
        st.tokens[top := CountedDown(cmd, |st.tokens|)] + [Closer(cmd, top, st.index)],
        if cmd.remaining == 1 then st.stack[..|st.stack| - 1] else st.stack)
  {
  }

  /** The command after one of its operands ended; the closing token will be number `close`. */
  function CountedDown(cmd: Token, close: nat): Token
    requires cmd.remaining > 0
  {
    cmd.(remaining := cmd.remaining - 1, endTok := if cmd.remaining == 1 then Some(close) else cmd.endTok)
  }

  /** The token that ends an operand of `cmd`, which is token number `top`. */
  function Closer(cmd: Token, top: nat, pos: nat): Token {
    if cmd.remaining == 1 then Token(ENDCOMMAND, pos, pos + 1, "", 0, 0, None, Some(top), cmd.arity - cmd.remaining)
    else Token(MIDCOMMAND, pos, pos + 2, "", 0, 0, None, Some(top), cmd.arity - cmd.remaining)
  }

  lemma CloseLast(cmds: Commands, s: string, st: LexState, mid: LexState, arg: Items)
    requires GoodState(s, st) && st.stack != [] && st.tokens[st.stack[|st.stack| - 1]].remaining == 1
    requires mid == AfterItems(cmds, st, arg) && GoodState(s, mid) && mid.index < |s| && s[mid.index] == '}'
    ensures Step(cmds, s, mid) == Some(AfterArgs(cmds, st, Last(arg)))
  {
    hide *;
    TopIsToken(s, st);
    var top := st.stack[|st.stack| - 1];
    var cmd := st.tokens[top];
    var first := ItemsTokens(cmds, arg, st.index, |st.tokens|);
    AfterItemsIs(cmds, st, arg);
    LastUnfold(cmds, st, arg);
    CountedDownLast(cmd, |st.tokens + first|);
    AfterArgsIs(cmds, st, Last(arg), top, cmd, first + [Closer(cmd, top, mid.index)]);
    CloseBraceIs(cmds, s, mid, st.tokens, first);
  }

  lemma CountedDownLast(cmd: Token, close: nat)
    requires cmd.remaining == 1
    ensures CountedDown(cmd, close) == Finished(cmd, close)
  {
  }

  lemma LastUnfold(cmds: Commands, st: LexState, arg: Items)
    requires st.stack != [] && st.stack[|st.stack| - 1] < |st.tokens|
        && st.tokens[st.stack[|st.stack| - 1]].remaining == 1
    ensures |ArgsText(Last(arg))| == |ItemsText(arg)| + 1
    ensures
      var top := st.stack[|st.stack| - 1];
      var cmd := st.tokens[top];
      ArgsTokens(cmds, Last(arg), st.index, |st.tokens|, top, cmd.arity - cmd.remaining)
      == ItemsTokens(cmds, arg, st.index, |st.tokens|) + [Closer(cmd, top, st.index + |ItemsText(arg)|)]
  {
    hide ItemsTokens, ItemsText;
  }

  /** The tokens of an inner operand and the brace that closes it. */
  function ClosedOperand(cmds: Commands, st: LexState, arg: Items): seq<Token>
    requires st.stack != [] && st.stack[|st.stack| - 1] < |st.tokens|
  {
    var top := st.stack[|st.stack| - 1];
    ItemsTokens(cmds, arg, st.index, |st.tokens|) + [Closer(st.tokens[top], top, st.index + |ItemsText(arg)|)]
  }

  function AfterOperand(cmds: Commands, st: LexState, arg: Items): LexState
    requires st.stack != [] && st.stack[|st.stack| - 1] < |st.tokens|
        && st.tokens[st.stack[|st.stack| - 1]].remaining > 1
  {
    var top := st.stack[|st.stack| - 1];
    LexState(st.index + |ItemsText(arg)| + 2,
             Joined(Replaced(st.tokens, top, CountedDown(st.tokens[top], 0)), ClosedOperand(cmds, st, arg)), st.stack)
  }

  lemma CloseMiddle(cmds: Commands, s: string, st: LexState, mid: LexState, arg: Items)
    requires GoodState(s, st) && st.stack != [] && st.tokens[st.stack[|st.stack| - 1]].remaining > 1
    requires mid == AfterItems(cmds, st, arg) && GoodState(s, mid) && mid.index + 1 < |s| && s[mid.index] == '}'
    ensures Step(cmds, s, mid) == Some(AfterOperand(cmds, st, arg))
  {
    hide *;
    var top := st.stack[|st.stack| - 1];
    var first := ItemsTokens(cmds, arg, st.index, |st.tokens|);
    TopIsToken(s, st);
    AfterItemsIs(cmds, st, arg);
    AfterOperandShape(cmds, st, arg, top, first);
    CountedDownInside(st.tokens[top], |st.tokens + first|);
    CloseBraceIs(cmds, s, mid, st.tokens, first);
  }

  lemma TopIsToken(s: string, st: LexState)
    requires GoodState(s, st) && st.stack != []
    ensures st.stack[|st.stack| - 1] < |st.tokens|
  {
  }

  lemma AfterItemsIs(cmds: Commands, st: LexState, items: Items)
    ensures var mid := AfterItems(cmds, st, items);
      && mid.index == st.index + |ItemsText(items)| && mid.stack == st.stack
      && mid.tokens == st.tokens + ItemsTokens(cmds, items, st.index, |st.tokens|)
  {
  }

  lemma AfterOperandShape(cmds: Commands, st: LexState, arg: Items, top: nat, first: seq<Token>)
    requires st.stack != [] && top == st.stack[|st.stack| - 1] < |st.tokens| && st.tokens[top].remaining > 1
    requires first == ItemsTokens(cmds, arg, st.index, |st.tokens|)
    ensures AfterOperand(cmds, st, arg) == LexState(st.index + |ItemsText(arg)| + 2,
      Joined(Replaced(st.tokens, top, CountedDown(st.tokens[top], 0)),
             first + [Closer(st.tokens[top], top, st.index + |ItemsText(arg)|)]),
      st.stack)
  {
    hide Joined, Replaced, CountedDown, Closer, ItemsTokens, ItemsText;
  }

  lemma CountedDownInside(cmd: Token, close: nat)
    requires cmd.remaining > 1
    ensures CountedDown(cmd, close) == CountedDown(cmd, 0)
  {
  }

  lemma ArgsJoined(cmds: Commands, st: LexState, arg: Items, more: Args)
    requires st.stack != [] && st.stack[|st.stack| - 1] < |st.tokens|
        && st.tokens[st.stack[|st.stack| - 1]].remaining > 1
    ensures AfterArgs(cmds, AfterOperand(cmds, st, arg), more) == AfterArgs(cmds, st, More(arg, more))
  {
    hide *;
    AfterOperandIs(cmds, st, arg);
    var top := st.stack[|st.stack| - 1];
    var cmd := st.tokens[top];
    var k := cmd.arity - cmd.remaining;
    var head := ClosedOperand(cmds, st, arg);
    var next := AfterOperand(cmds, st, arg);
    var less := next.tokens[top];
    var body := ArgsTokens(cmds, more, next.index, |st.tokens| + |head|, top, k + 1);
    var done := Finished(cmd, |st.tokens| + |head| + |body| - 1);
    ArgsUnfold(cmds, st, arg, more);
    AfterArgsIs(cmds, next, more, top, less, body);
    AfterArgsIs(cmds, st, More(arg, more), top, cmd, Joined(head, body));
    JoinTokens(st.tokens, top, less, done, head, body);
  }

  lemma AfterOperandIs(cmds: Commands, st: LexState, arg: Items)
    requires st.stack != [] && st.stack[|st.stack| - 1] < |st.tokens|
        && st.tokens[st.stack[|st.stack| - 1]].remaining > 1
    ensures
      var next := AfterOperand(cmds, st, arg);
      var top := st.stack[|st.stack| - 1];
      var head := ClosedOperand(cmds, st, arg);
      && next.index == st.index + |ItemsText(arg)| + 2 && next.stack == st.stack
      && |next.tokens| == |st.tokens| + |head|
      && next.tokens[top] == CountedDown(st.tokens[top], 0)
      && next.tokens[top].arity - next.tokens[top].remaining == st.tokens[top].arity - st.tokens[top].remaining + 1
      && (forall close :: Finished(next.tokens[top], close) == Finished(st.tokens[top], close))
      && next.tokens == Joined(Replaced(st.tokens, top, next.tokens[top]), head)
  {
    hide ItemsTokens, ItemsText, ClosedOperand;
    var top := st.stack[|st.stack| - 1];
    UpdateFront(Replaced(st.tokens, top, CountedDown(st.tokens[top], 0)), ClosedOperand(cmds, st, arg), top,
      st.tokens[top]);
  }

  lemma AfterArgsIs(cmds: Commands, st: LexState, args: Args, top: nat, cmd: Token, body: seq<Token>)
    requires st.stack != [] && st.stack[|st.stack| - 1] == top < |st.tokens| && st.tokens[top] == cmd
    requires body == ArgsTokens(cmds, args, st.index, |st.tokens|, top, cmd.arity - cmd.remaining) && body != []
    ensures AfterArgs(cmds, st, args)
         == LexState(st.index + |ArgsText(args)|,
                     Joined(Replaced(st.tokens, top, Finished(cmd, |st.tokens| + |body| - 1)), body),
                     st.stack[..|st.stack| - 1])
  {
    hide ArgsTokens, ArgsText, Replaced;
  }

  lemma JoinTokens<T>(ts: seq<T>, top: nat, less: T, done: T, head: seq<T>, body: seq<T>)
    requires top < |ts|
    ensures Joined(Replaced(Joined(Replaced(ts, top, less), head), top, done), body)
        == Joined(Replaced(ts, top, done), Joined(head, body))
  {
    UpdateFront(Replaced(ts, top, less), head, top, done);
    assert Replaced(Replaced(ts, top, less), top, done) == Replaced(ts, top, done);
    Associates(Replaced(ts, top, done), head, body);
  }

  lemma ArgsUnfold(cmds: Commands, st: LexState, arg: Items, more: Args)
    requires st.stack != [] && st.stack[|st.stack| - 1] < |st.tokens|
        && st.tokens[st.stack[|st.stack| - 1]].remaining > 1
    ensures |ArgsText(More(arg, more))| == |ItemsText(arg)| + 2 + |ArgsText(more)|
    ensures
      var top := st.stack[|st.stack| - 1];
      var k := st.tokens[top].arity - st.tokens[top].remaining;
      var head := ClosedOperand(cmds, st, arg);
      ArgsTokens(cmds, More(arg, more), st.index, |st.tokens|, top, k)
      == Joined(head, ArgsTokens(cmds, more, st.index + |ItemsText(arg)| + 2, |st.tokens| + |head|, top, k + 1))
  {
    hide ItemsTokens, ItemsText;
  }

  /** The lexer reads every well-formed text to its end and leaves no command open. */
  lemma LexWellFormed(cmds: Commands, items: Items)
    requires FitsItems(cmds, items, '\0')
    ensures LexMath(cmds, ItemsText(items)) == Some(LexState(|ItemsText(items)|, ItemsTokens(cmds, items, 0, 0), []))
  {
    var s := ItemsText(items);
    hide ItemsTokens, ItemsText, FitsItems, Step;
    LexItems(cmds, s, START, items, '\0');
    var end := AfterItems(cmds, START, items);
    assert end == LexState(|s|, ItemsTokens(cmds, items, 0, 0), []);
    assert Run(cmds, s, end) == Some(end);
  }

  // ---------- Single characters ----------

  /** A punctuation mark is a token of its own kind, without operands. */
  lemma PunctuationLexes(cmds: Commands, c: char, kind: TokenType)
    requires (c, kind) in {('/', SLASH), ('+', PLUS), (',', COMMA), ('-', MINUS), ('(', OPAREN), (')', CPAREN),
                           ('\n', NEWLINE), ('=', EQUALS)}
    ensures LexMath(cmds, [c]) == Some(LexState(1, [Token(kind, 0, 1, "", 0, 0, None, None, 0)], []))
  {
    hide LexMath, NextToken;
    PunctuationToken(c, kind);
    OneCharacter(cmds, c);
  }

  lemma PunctuationToken(c: char, kind: TokenType)
    requires (c, kind) in {('/', SLASH), ('+', PLUS), (',', COMMA), ('-', MINUS), ('(', OPAREN), (')', CPAREN),
                           ('\n', NEWLINE), ('=', EQUALS)}
    ensures NextToken([c], 0) == Some(Token(kind, 0, 1, "", 0, 0, None, None, 0))
  {
  }

  /** Characters that mean nothing, an opening brace included, are passed over. */
  lemma StrayIsSkipped(cmds: Commands, c: char)
    requires !IsLetter(c) && !IsDigit(c)
    requires c !in {'/', '+', ',', '-', '(', ')', '\n', '=', ' ', '?', ':', '\\', '^', '_', '}'}
    ensures LexMath(cmds, [c]) == Some(LexState(1, [], []))
  {
    OneCharacter(cmds, c);
  }

  lemma OneCharacter(cmds: Commands, c: char)
    requires c !in {'\\', '^', '_', '}'}
    ensures var tok := NextToken([c], 0);
      LexMath(cmds, [c]) == Some(LexState(1, if tok.Some? then [tok.value] else [], []))
  {
    hide NextToken, Step, Run;
    OneStep(cmds, c);
    OneRound(cmds, c, Step(cmds, [c], START).value);
  }

  lemma OneStep(cmds: Commands, c: char)
    requires c !in {'\\', '^', '_', '}'}
    ensures var tok := NextToken([c], 0);
      Step(cmds, [c], START) == Some(LexState(1, if tok.Some? then [tok.value] else [], []))
  {
    hide NextToken, LexCommand, LexScript, CloseBrace, Run;
    var tok := NextToken([c], 0);
    if tok.Some? {
      assert tok.value.end == 1;
      assert START.tokens + [tok.value] == [tok.value];
      assert Push(START, tok.value) == LexState(1, [tok.value], []);
    }
  }

  lemma OneRound(cmds: Commands, c: char, end: LexState)
    requires Step(cmds, [c], START) == Some(end) && end.index == 1
    ensures LexMath(cmds, [c]) == Some(end)
  {
    hide Step;
    assert Run(cmds, [c], end) == Some(end);
  }
}
