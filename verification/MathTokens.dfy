/**
 * What the tokens of a well-formed text are good for: every command is closed by braces of its own,
 * and the tokens tile the text, so that token numbers and text positions can be exchanged
 * (`lexCharStream`, `posAtToken` and `tokenAtPos` of examples/data-objects/math/src/mathExpr.ts).
 */
module MathTokens {
  import opened MathLexer
  import opened Options

  // ---------- Commands and the braces that close them ----------

  /** How many of the tokens of a kind end an operand of command c. */
  function Closers(toks: seq<Token>, kind: TokenType, c: nat): nat {
    if toks == [] then 0
    else (if toks[0].kind == kind && toks[0].paramCmd == Some(c) then 1 else 0) + Closers(toks[1..], kind, c)
  }

  lemma {:induction false} ClosersConcat(ts: seq<Token>, us: seq<Token>, kind: TokenType, c: nat)
    ensures Closers(ts + us, kind, c) == Closers(ts, kind, c) + Closers(us, kind, c)
  {
    if ts == [] {
      assert ts + us == us;
    } else {
      assert (ts + us)[1..] == ts[1..] + us;
      ClosersConcat(ts[1..], us, kind, c);
    }
  }

  /** No token ends an operand of a command outside [from, to). */
  predicate ClosesWithin(toks: seq<Token>, from: nat, to: nat) {
    forall i :: 0 <= i < |toks| && toks[i].paramCmd.Some? ==> from <= toks[i].paramCmd.value < to
  }

  lemma {:induction false} NoClosers(toks: seq<Token>, kind: TokenType, c: nat)
    requires forall i :: 0 <= i < |toks| ==> toks[i].paramCmd != Some(c)
    ensures Closers(toks, kind, c) == 0
  {
    if toks != [] {
      NoClosers(toks[1..], kind, c);
    }
  }

  /** Whatever opens between tokens c and `end` is closed before `end`. */
  predicate EndsBefore(toks: seq<Token>, base: nat, c: nat, end: nat) {
    forall j :: 0 <= j < |toks| && c < base + j < end && toks[j].endTok.Some? ==> toks[j].endTok.value < end
  }

  /** Token `c` of the list that starts with token number `base` is a command closed by its own braces. */
  predicate ClosedCommand(toks: seq<Token>, base: nat, c: nat)
    requires base <= c < base + |toks|
  {
    var cmd := toks[c - base];
    cmd.arity > 0 ==>
      && cmd.remaining == 0
      && Closers(toks, MIDCOMMAND, c) == cmd.arity - 1
      && Closers(toks, ENDCOMMAND, c) == 1
      && cmd.endTok.Some? && c < cmd.endTok.value < base + |toks|
      && toks[cmd.endTok.value - base].kind == ENDCOMMAND
      && toks[cmd.endTok.value - base].paramCmd == Some(c)
      && EndsBefore(toks, base, c, cmd.endTok.value)
  }

  /** Token number i ends an operand of command c at the depth of c: whatever opened in between is closed before it. */
  predicate AtDepth(toks: seq<Token>, base: nat, c: nat, i: nat) {
    && c < i && EndsBefore(toks, base, c, i)
    && (base <= c < base + |toks| ==> toks[c - base].endTok.Some? && i <= toks[c - base].endTok.value)
  }

  /** Each token that ends an operand does so at the depth of its command, no later than the end of the command. */
  predicate OwnDepth(toks: seq<Token>, base: nat) {
    forall i :: 0 <= i < |toks| && toks[i].paramCmd.Some? ==> AtDepth(toks, base, toks[i].paramCmd.value, base + i)
  }

  predicate Balanced(toks: seq<Token>, base: nat) {
    && ClosesWithin(toks, base, base + |toks|) && OwnDepth(toks, base)
    && (forall i :: 0 <= i < |toks| && toks[i].endTok.Some? ==> base <= toks[i].endTok.value < base + |toks|)
    && forall c :: base <= c < base + |toks| ==> ClosedCommand(toks, base, c)
  }

  predicate NoneCloses(toks: seq<Token>, c: nat) {
    forall i :: 0 <= i < |toks| ==> toks[i].paramCmd != Some(c)
  }

  /** A closed command stays closed among tokens that have nothing to do with it. */
  lemma ClosedInside(pre: seq<Token>, part: seq<Token>, post: seq<Token>, all: seq<Token>, base: nat, c: nat)
    requires all == pre + part + post
    requires base + |pre| <= c < base + |pre| + |part| && ClosedCommand(part, base + |pre|, c)
    requires NoneCloses(pre, c) && NoneCloses(post, c)
    ensures ClosedCommand(all, base, c)
  {
    forall kind ensures Closers(all, kind, c) == Closers(part, kind, c) {
      ClosersConcat(pre + part, post, kind, c);
      ClosersConcat(pre, part, kind, c);
      NoClosers(pre, kind, c);
      NoClosers(post, kind, c);
    }
    hide Closers, NoneCloses;
    var cmd := part[c - base - |pre|];
    assert all[c - base] == cmd;
    if cmd.arity > 0 {
      var end := cmd.endTok.value;
      assert all[end - base] == part[end - base - |pre|];
      forall j | 0 <= j < |all| && c < base + j < end && all[j].endTok.Some? ensures all[j].endTok.value < end {
        assert all[j] == part[j - |pre|];
      }
    }
  }

  predicate EndsWithin(toks: seq<Token>, base: nat) {
    forall i :: 0 <= i < |toks| && toks[i].endTok.Some? ==> base <= toks[i].endTok.value < base + |toks|
  }

  /** Depths are kept when the tokens that follow end operands of their own, or of commands before them all. */
  lemma OwnDepthConcat(ts: seq<Token>, us: seq<Token>, base: nat)
    requires OwnDepth(ts, base) && OwnDepth(us, base + |ts|) && EndsWithin(ts, base)
    requires forall i :: 0 <= i < |us| && us[i].paramCmd.Some? ==>
      us[i].paramCmd.value < base || base + |ts| <= us[i].paramCmd.value
    ensures OwnDepth(ts + us, base)
  {
    var all := ts + us;
    forall i | 0 <= i < |all| && all[i].paramCmd.Some? ensures AtDepth(all, base, all[i].paramCmd.value, base + i) {
      if i < |ts| {
        DepthBefore(ts, us, base, all[i].paramCmd.value, i);
      } else {
        assert AtDepth(us, base + |ts|, us[i - |ts|].paramCmd.value, base + i);
        DepthAfter(ts, us, base, all[i].paramCmd.value, i);
      }
    }
  }

  lemma DepthBefore(ts: seq<Token>, us: seq<Token>, base: nat, c: nat, i: nat)
    requires i < |ts| && AtDepth(ts, base, c, base + i)
    ensures AtDepth(ts + us, base, c, base + i)
  {
    var all := ts + us;
    forall j | 0 <= j < |all| && c < base + j < base + i && all[j].endTok.Some? ensures all[j].endTok.value < base + i {
      assert all[j] == ts[j];
    }
  }

  lemma DepthAfter(ts: seq<Token>, us: seq<Token>, base: nat, c: nat, i: nat)
    requires |ts| <= i < |ts| + |us| && AtDepth(us, base + |ts|, c, base + i) && EndsWithin(ts, base)
    requires c < base || base + |ts| <= c
    ensures AtDepth(ts + us, base, c, base + i)
  {
    var all := ts + us;
    forall j | 0 <= j < |all| && c < base + j < base + i && all[j].endTok.Some? ensures all[j].endTok.value < base + i {
      if j < |ts| {
        assert all[j] == ts[j];
      } else {
        assert all[j] == us[j - |ts|];
      }
    }
  }

  lemma BalancedConcat(ts: seq<Token>, us: seq<Token>, base: nat)
    requires Balanced(ts, base) && Balanced(us, base + |ts|)
    ensures Balanced(ts + us, base)
  {
    var all := ts + us;
    forall c | base <= c < base + |all| ensures ClosedCommand(all, base, c) {
      hide ClosedCommand;
      if c < base + |ts| {
        assert ClosedCommand(ts, base, c);
        assert all == [] + ts + us;
        ClosedInside([], ts, us, all, base, c);
      } else {
        assert ClosedCommand(us, base + |ts|, c);
        assert all == ts + us + [];
        ClosedInside(ts, us, [], all, base, c);
      }
    }
    hide ClosedCommand, AtDepth;
    OwnDepthConcat(ts, us, base);
    forall i | 0 <= i < |all|
      ensures all[i].paramCmd.Some? ==> base <= all[i].paramCmd.value < base + |all|
      ensures all[i].endTok.Some? ==> base <= all[i].endTok.value < base + |all|
    {
      assert all[i] == if i < |ts| then ts[i] else us[i - |ts|];
    }
  }

  lemma {:induction false} ItemsBalanced(cmds: Commands, items: Items, pos: nat, base: nat)
    ensures Balanced(ItemsTokens(cmds, items, pos, base), base)
    decreases items, 1
  {
    match items {
      case Empty =>
      case Then(head, tail) =>
        var first := ItemTokens(cmds, head, pos, base);
        ItemBalanced(cmds, head, pos, base);
        ItemsBalanced(cmds, tail, pos + |ItemText(head)|, base + |first|);
        BalancedConcat(first, ItemsTokens(cmds, tail, pos + |ItemText(head)|, base + |first|), base);
    }
  }

  lemma {:induction false} ItemBalanced(cmds: Commands, item: Item, pos: nat, base: nat)
    ensures Balanced(ItemTokens(cmds, item, pos, base), base)
    decreases item, 1
  {
    hide Balanced, BalancedArgs, ArgsTokens;
    if item.Group? {
      var start := pos + |GroupHead(item.script, item.key)|;
      var body := ArgsTokens(cmds, item.args, start, base + 1, base, 0);
      var head := ItemTokens(cmds, item, pos, base)[0];
      assert ItemTokens(cmds, item, pos, base) == [head] + body;
      CountPositive(item.args);
      ArgsBalanced(cmds, item.args, start, base + 1, base, 0);
      GroupBalanced(head, body, base, Count(item.args));
    } else {
      LeafBalanced(LeafToken(cmds, item, pos), base);
    }
  }

  lemma LeafBalanced(tok: Token, base: nat)
    requires tok.arity == 0 && tok.paramCmd.None? && tok.endTok.None?
    ensures Balanced([tok], base)
  {
  }

  /** The tokens of n operands of command `cmd`, which comes before them. */
  predicate BalancedArgs(toks: seq<Token>, base: nat, cmd: nat, n: nat) {
    && toks != [] && cmd < base && OwnDepth(toks, base)
    && toks[|toks| - 1].kind == ENDCOMMAND && toks[|toks| - 1].paramCmd == Some(cmd)
    && Closers(toks, MIDCOMMAND, cmd) == n - 1
    && Closers(toks, ENDCOMMAND, cmd) == 1
    && (forall i :: 0 <= i < |toks| && toks[i].paramCmd.Some? ==>
          toks[i].paramCmd.value == cmd || base <= toks[i].paramCmd.value < base + |toks|)
    && (forall i :: 0 <= i < |toks| && toks[i].endTok.Some? ==> base <= toks[i].endTok.value < base + |toks| - 1)
    && forall c :: base <= c < base + |toks| ==> ClosedCommand(toks, base, c)
  }

  lemma GroupBalanced(head: Token, body: seq<Token>, base: nat, n: nat)
    requires BalancedArgs(body, base + 1, base, n)
    requires head.arity == n > 0 && head.remaining == 0 && head.paramCmd.None? && head.endTok == Some(base + |body|)
    requires head.kind == COMMAND || head.kind == VAR
    ensures Balanced([head] + body, base)
  {
    hide ClosedCommand, OwnDepth, Closers;
    var all := [head] + body;
    forall c | base < c < base + |all| ensures ClosedCommand(all, base, c) {
      assert ClosedCommand(body, base + 1, c);
      assert all == [head] + body + [];
      ClosedInside([head], body, [], all, base, c);
    }
    GroupClosed(head, body, base, n);
    GroupDepth(head, body, base, n);
    forall i | 0 < i < |all|
      ensures all[i].paramCmd.Some? ==> base <= all[i].paramCmd.value < base + |all|
      ensures all[i].endTok.Some? ==> base <= all[i].endTok.value < base + |all|
    {
      assert all[i] == body[i - 1];
    }
  }

  lemma GroupDepth(head: Token, body: seq<Token>, base: nat, n: nat)
    requires BalancedArgs(body, base + 1, base, n) && head.paramCmd.None? && head.endTok == Some(base + |body|)
    ensures OwnDepth([head] + body, base)
  {
    hide ClosedCommand, Closers, AtDepth;
    var all := [head] + body;
    forall i | 0 <= i < |all| && all[i].paramCmd.Some? ensures AtDepth(all, base, all[i].paramCmd.value, base + i) {
      assert all[i] == body[i - 1];
      assert AtDepth(body, base + 1, body[i - 1].paramCmd.value, base + 1 + (i - 1));
      GroupDepthAt(head, body, base, all[i].paramCmd.value, i);
    }
  }

  lemma GroupDepthAt(head: Token, body: seq<Token>, base: nat, c: nat, i: nat)
    requires 0 < i <= |body| && AtDepth(body, base + 1, c, base + i) && c >= base
    requires head.endTok == Some(base + |body|)
    ensures AtDepth([head] + body, base, c, base + i)
  {
    var all := [head] + body;
    forall j | 0 <= j < |all| && c < base + j < base + i && all[j].endTok.Some? ensures all[j].endTok.value < base + i {
      assert all[j] == body[j - 1];
    }
    assert c > base ==> all[c - base] == body[c - base - 1];
  }

  lemma GroupClosed(head: Token, body: seq<Token>, base: nat, n: nat)
    requires BalancedArgs(body, base + 1, base, n)
    requires head.arity == n > 0 && head.remaining == 0 && head.paramCmd.None? && head.endTok == Some(base + |body|)
    ensures ClosedCommand([head] + body, base, base)
  {
    assert ([head] + body)[1..] == body;
  }

  lemma {:induction false} ArgsBalanced(cmds: Commands, args: Args, pos: nat, base: nat, cmd: nat, k: int)
    requires cmd < base
    ensures BalancedArgs(ArgsTokens(cmds, args, pos, base, cmd, k), base, cmd, Count(args))
    decreases args, 0
  {
    var arg := if args.Last? then args.arg else args.first;
    var first := ItemsTokens(cmds, arg, pos, base);
    var close := pos + |ItemsText(arg)|;
    ItemsBalanced(cmds, arg, pos, base);
    if args.Last? {
      var tok := Token(ENDCOMMAND, close, close + 1, "", 0, 0, None, Some(cmd), k);
      assert ArgsTokens(cmds, args, pos, base, cmd, k) == first + [tok];
      hide ItemsTokens, ItemsText, Balanced, BalancedArgs, ArgsTokens;
      LastOperandBalanced(first, tok, base, cmd);
    } else {
      var tok := Token(MIDCOMMAND, close, close + 2, "", 0, 0, None, Some(cmd), k);
      var rest := ArgsTokens(cmds, args.more, close + 2, base + |first| + 1, cmd, k + 1);
      assert ArgsTokens(cmds, args, pos, base, cmd, k) == first + [tok] + rest;
      ArgsBalanced(cmds, args.more, close + 2, base + |first| + 1, cmd, k + 1);
      CountPositive(args.more);
      hide ItemsTokens, ItemsText, Balanced, BalancedArgs, ArgsTokens;
      MiddleOperandBalanced(first, tok, rest, base, cmd, Count(args.more));
    }
  }

  lemma CountPositive(args: Args)
    ensures Count(args) > 0
  {
  }

  predicate IsCloser(tok: Token, kind: TokenType, cmd: nat) {
    tok.kind == kind && tok.arity == 0 && tok.endTok.None? && tok.paramCmd == Some(cmd)
  }

  lemma LastOperandBalanced(first: seq<Token>, tok: Token, base: nat, cmd: nat)
    requires Balanced(first, base) && cmd < base && IsCloser(tok, ENDCOMMAND, cmd)
    ensures BalancedArgs(first + [tok], base, cmd, 1)
  {
    var all := first + [tok];
    forall kind ensures Closers(all, kind, cmd) == Closers([tok], kind, cmd) {
      NoClosers(first, kind, cmd);
      ClosersConcat(first, [tok], kind, cmd);
    }
    SingleCloser(tok);
    hide Closers;
    forall c | base <= c < base + |all| ensures ClosedCommand(all, base, c) {
      hide ClosedCommand;
      if c < base + |first| {
        assert ClosedCommand(first, base, c);
        assert all == [] + first + [tok];
        ClosedInside([], first, [tok], all, base, c);
      } else {
        NoCommand(all, base, c);
      }
    }
    LastDepth(first, tok, base, cmd);
  }

  lemma LastDepth(first: seq<Token>, tok: Token, base: nat, cmd: nat)
    requires Balanced(first, base) && cmd < base && tok.paramCmd == Some(cmd)
    ensures OwnDepth(first + [tok], base)
  {
    hide ClosedCommand, AtDepth;
    LoneDepth(tok, base + |first|, cmd);
    OwnDepthConcat(first, [tok], base);
  }

  lemma LoneDepth(tok: Token, base: nat, cmd: nat)
    requires cmd < base && tok.paramCmd == Some(cmd)
    ensures OwnDepth([tok], base)
  {
  }

  lemma SingleCloser(tok: Token)
    ensures forall kind, c: nat ::
      Closers([tok], kind, c) == if tok.kind == kind && tok.paramCmd == Some(c) then 1 else 0
  {
    assert [tok][1..] == [];
  }

  lemma MiddleOperandBalanced(first: seq<Token>, tok: Token, rest: seq<Token>, base: nat, cmd: nat, n: nat)
    requires Balanced(first, base) && cmd < base && IsCloser(tok, MIDCOMMAND, cmd)
    requires BalancedArgs(rest, base + |first| + 1, cmd, n) && n > 0
    ensures BalancedArgs(first + [tok] + rest, base, cmd, n + 1)
  {
    hide ClosedCommand, OwnDepth, Closers;
    var front := first + [tok];
    var all := front + rest;
    forall kind ensures Closers(all, kind, cmd) == Closers([tok], kind, cmd) + Closers(rest, kind, cmd) {
      ClosersConcat(front, rest, kind, cmd);
      ClosersConcat(first, [tok], kind, cmd);
      NoClosers(first, kind, cmd);
    }
    SingleCloser(tok);
    MiddleClosed(first, tok, rest, base, cmd, n);
    forall i | 0 <= i < |all|
      ensures all[i].paramCmd.Some? ==> all[i].paramCmd.value == cmd || base <= all[i].paramCmd.value < base + |all|
      ensures all[i].endTok.Some? ==> base <= all[i].endTok.value < base + |all| - 1
    {
      assert all[i] == if i < |first| then first[i] else if i == |first| then tok else rest[i - |front|];
    }
    assert all[|all| - 1] == rest[|rest| - 1];
    MiddleDepth(first, tok, rest, base, cmd, n);
  }

  lemma MiddleClosed(first: seq<Token>, tok: Token, rest: seq<Token>, base: nat, cmd: nat, n: nat)
    requires Balanced(first, base) && cmd < base && IsCloser(tok, MIDCOMMAND, cmd)
    requires BalancedArgs(rest, base + |first| + 1, cmd, n)
    ensures var all := first + [tok] + rest; forall c :: base <= c < base + |all| ==> ClosedCommand(all, base, c)
  {
    hide ClosedCommand, OwnDepth, Closers;
    var front := first + [tok];
    var all := front + rest;
    forall c | base <= c < base + |all| ensures ClosedCommand(all, base, c) {
      if c < base + |first| {
        assert ClosedCommand(first, base, c);
        assert all == [] + first + ([tok] + rest);
        ClosedInside([], first, [tok] + rest, all, base, c);
      } else if c > base + |first| {
        assert ClosedCommand(rest, base + |front|, c);
        assert all == front + rest + [];
        ClosedInside(front, rest, [], all, base, c);
      } else {
        assert all[c - base] == tok;
        NoCommand(all, base, c);
      }
    }
  }

  lemma MiddleDepth(first: seq<Token>, tok: Token, rest: seq<Token>, base: nat, cmd: nat, n: nat)
    requires Balanced(first, base) && cmd < base && IsCloser(tok, MIDCOMMAND, cmd)
    requires BalancedArgs(rest, base + |first| + 1, cmd, n)
    ensures OwnDepth(first + [tok] + rest, base)
  {
    hide ClosedCommand, AtDepth, Closers;
    var front := first + [tok];
    LastDepth(first, tok, base, cmd);
    assert EndsWithin(front, base) by {
      forall i | 0 <= i < |front| && front[i].endTok.Some?
        ensures base <= front[i].endTok.value < base + |front|
      {
        assert front[i] == if i < |first| then first[i] else tok;
      }
    }
    OwnDepthConcat(front, rest, base);
  }

  lemma NoCommand(toks: seq<Token>, base: nat, c: nat)
    requires base <= c < base + |toks| && toks[c - base].arity == 0
    ensures ClosedCommand(toks, base, c)
  {
  }

  /** Every command of a well-formed text is closed by n - 1 MIDCOMMANDs and one ENDCOMMAND of its own. */
  lemma CommandsClosed(cmds: Commands, items: Items)
    requires FitsItems(cmds, items, '\0')
    ensures var r := LexMath(cmds, ItemsText(items));
      r.Some? && r.value.stack == [] && Balanced(r.value.tokens, 0)
  {
    LexWellFormed(cmds, items);
    ItemsBalanced(cmds, items, 0, 0);
  }

  // ---------- Tokens and positions ----------

  /** The tokens cover the text from `from` to `to` without a gap, each of them something. */
  predicate Tiles(toks: seq<Token>, from: nat, to: nat) {
    if toks == [] then from == to
    else toks[0].start == from && toks[0].end > from && Tiles(toks[1..], toks[0].end, to)
  }

  lemma {:induction false} TilesConcat(ts: seq<Token>, us: seq<Token>, from: nat, mid: nat, to: nat)
    requires Tiles(ts, from, mid)
    ensures Tiles(ts + us, from, to) <==> Tiles(us, mid, to)
  {
    if ts == [] {
      assert ts + us == us;
    } else {
      assert (ts + us)[1..] == ts[1..] + us;
      TilesConcat(ts[1..], us, ts[0].end, mid, to);
    }
  }

  /** The position of a token as the editor computes it, from the lengths of the tokens before it. */
  method PosAtToken(tokIndex: nat, tokens: seq<Token>) returns (pos: int)
    ensures pos == TotalLength(tokens[..if tokIndex < |tokens| then tokIndex else |tokens|])
  {
    pos := 0;
    var i := 0;
    while i < tokIndex
      invariant i <= tokIndex && i <= |tokens|
      invariant pos == TotalLength(tokens[..i])
    {
      if i >= |tokens| {
        return pos;
      }
      TotalLengthSnoc(tokens[..i], tokens[i]);
      assert tokens[..i] + [tokens[i]] == tokens[..i + 1];
      pos := pos + (tokens[i].end - tokens[i].start);
      i := i + 1;
    }
  }

  method TokenAtPos(mathCursor: nat, tokens: seq<Token>) returns (index: nat)
    ensures index <= |tokens|
    ensures index < |tokens| ==> tokens[index].start == mathCursor
    ensures forall i :: 0 <= i < index ==> tokens[i].start != mathCursor
  {
    index := 0;
    while index < |tokens|
      invariant index <= |tokens|
      invariant forall i :: 0 <= i < index ==> tokens[i].start != mathCursor
    {
      if tokens[index].start == mathCursor {
        return;
      }
      index := index + 1;
    }
  }

  function TotalLength(toks: seq<Token>): int {
    if toks == [] then 0 else toks[0].end - toks[0].start + TotalLength(toks[1..])
  }

  lemma {:induction false} TotalLengthSnoc(toks: seq<Token>, tok: Token)
    ensures TotalLength(toks + [tok]) == TotalLength(toks) + tok.end - tok.start
  {
    if toks == [] {
      assert toks + [tok] == [tok];
    } else {
      assert (toks + [tok])[1..] == toks[1..] + [tok];
      TotalLengthSnoc(toks[1..], tok);
    }
  }

  /** On tokens that tile a text from 0, summing lengths gives the start of each token. */
  lemma {:induction false} TilesPositions(toks: seq<Token>, from: nat, to: nat, i: nat)
    requires Tiles(toks, from, to) && i <= |toks|
    ensures from + TotalLength(toks[..i]) == if i < |toks| then toks[i].start else to
    ensures forall k :: 0 <= k < i ==> from <= toks[k].start < from + TotalLength(toks[..i])
  {
    if i > 0 {
      assert toks[..i][1..] == toks[1..][..i - 1];
      TilesPositions(toks[1..], toks[0].end, to, i - 1);
      TilesAhead(toks[1..], toks[0].end, to, i - 1);
      forall k | 0 <= k < i ensures from <= toks[k].start < from + TotalLength(toks[..i]) {
        if k > 0 {
          assert toks[1..][k - 1] == toks[k];
        }
      }
    }
  }

  lemma {:induction false} TilesAhead(toks: seq<Token>, from: nat, to: nat, i: nat)
    requires Tiles(toks, from, to) && i <= |toks|
    ensures TotalLength(toks[..i]) >= 0
  {
    if i > 0 {
      assert toks[..i][1..] == toks[1..][..i - 1];
      TilesAhead(toks[1..], toks[0].end, to, i - 1);
    }
  }

  /** `tokenAtPos` undoes `posAtToken`, and conversely on the starts of tokens. */
  method PositionRoundTrip(tokens: seq<Token>, to: nat, tokIndex: nat) returns (pos: int, index: nat)
    requires Tiles(tokens, 0, to) && tokIndex <= |tokens|
    ensures pos == if tokIndex < |tokens| then tokens[tokIndex].start else to
    ensures index == tokIndex
  {
    pos := PosAtToken(tokIndex, tokens);
    TilesPositions(tokens, 0, to, tokIndex);
    TilesAhead(tokens, 0, to, tokIndex);
    index := TokenAtPos(pos, tokens);
    TilesPositions(tokens, 0, to, index);
  }

  /** Pattern names and types drop their `?` or `:` from the token. */
  predicate NoPatterns(items: Items) {
    match items
    case Empty => true
    case Then(head, tail) => NoPatternsItem(head) && NoPatterns(tail)
  }

  predicate NoPatternsItem(item: Item) {
    match item
    case PatName(_) => false
    case PatType(_) => false
    case Group(_, _, args) => NoPatternsArgs(args)
    case _ => true
  }

  predicate NoPatternsArgs(args: Args) {
    match args
    case Last(arg) => NoPatterns(arg)
    case More(first, more) => NoPatterns(first) && NoPatternsArgs(more)
  }

  /** A list of tokens that has a gap, or does not start where it should. */
  predicate Broken(toks: seq<Token>, from: nat) {
    toks != [] && (toks[0].start != from || toks[0].end <= from || Broken(toks[1..], toks[0].end))
  }

  lemma {:induction false} BrokenNeverTiles(ts: seq<Token>, from: nat, to: nat)
    requires Broken(ts, from)
    ensures !Tiles(ts, from, to)
  {
    if ts[0].start == from && ts[0].end > from {
      BrokenNeverTiles(ts[1..], ts[0].end, to);
    }
  }

  lemma {:induction false} BrokenFront(ts: seq<Token>, us: seq<Token>, from: nat)
    requires Broken(ts, from)
    ensures Broken(ts + us, from)
  {
    if ts[0].start == from && ts[0].end > from {
      assert (ts + us)[1..] == ts[1..] + us;
      BrokenFront(ts[1..], us, ts[0].end);
    }
  }

  lemma {:induction false} BrokenBack(ts: seq<Token>, us: seq<Token>, from: nat, mid: nat)
    requires Tiles(ts, from, mid) && Broken(us, mid)
    ensures Broken(ts + us, from)
  {
    if ts == [] {
      assert ts + us == us;
    } else {
      assert (ts + us)[1..] == ts[1..] + us;
      BrokenBack(ts[1..], us, ts[0].end, mid);
    }
  }

  predicate TilesIff(whole: bool, toks: seq<Token>, from: nat, to: nat) {
    if whole then Tiles(toks, from, to) else Broken(toks, from)
  }

  lemma TilesIffConcat(p: bool, ts: seq<Token>, q: bool, us: seq<Token>, from: nat, mid: nat, to: nat)
    requires TilesIff(p, ts, from, mid) && TilesIff(q, us, mid, to)
    ensures TilesIff(p && q, ts + us, from, to)
  {
    if !p {
      BrokenFront(ts, us, from);
    } else if !q {
      BrokenBack(ts, us, from, mid);
    } else {
      TilesConcat(ts, us, from, mid, to);
    }
  }

  lemma {:induction false} ItemsTile(cmds: Commands, items: Items, next: char, pos: nat, base: nat)
    requires FitsItems(cmds, items, next)
    ensures TilesIff(NoPatterns(items), ItemsTokens(cmds, items, pos, base), pos, pos + |ItemsText(items)|)
    decreases items, 1
  {
    match items {
      case Empty =>
      case Then(head, tail) =>
        var first := ItemTokens(cmds, head, pos, base);
        var mid := pos + |ItemText(head)|;
        ItemTiles(cmds, head, FirstChar(tail, next), pos, base);
        ItemsTile(cmds, tail, next, mid, base + |first|);
        TilesIffConcat(NoPatternsItem(head), first, NoPatterns(tail), ItemsTokens(cmds, tail, mid, base + |first|),
                       pos, mid, mid + |ItemsText(tail)|);
    }
  }

  lemma {:induction false} ItemTiles(cmds: Commands, item: Item, next: char, pos: nat, base: nat)
    requires FitsItem(cmds, item, next)
    ensures TilesIff(NoPatternsItem(item), ItemTokens(cmds, item, pos, base), pos, pos + |ItemText(item)|)
    decreases item, 1
  {
    if item.Group? {
      var start := pos + |GroupHead(item.script, item.key)|;
      var toks := ItemTokens(cmds, item, pos, base);
      ArgsTile(cmds, item.args, start, base + 1, base, 0);
      assert toks[1..] == ArgsTokens(cmds, item.args, start, base + 1, base, 0);
    } else {
      LeafEnd(cmds, item, pos);
      var tok := LeafToken(cmds, item, pos);
      assert ItemTokens(cmds, item, pos, base) == [tok];
      assert [tok][1..] == [];
      if item.Spaces? {
        BlankIs(item.n);
      }
    }
  }

  lemma {:induction false} ArgsTile(cmds: Commands, args: Args, pos: nat, base: nat, cmd: nat, k: int)
    requires FitsArgs(cmds, args)
    ensures TilesIff(NoPatternsArgs(args), ArgsTokens(cmds, args, pos, base, cmd, k), pos, pos + |ArgsText(args)|)
    decreases args, 0
  {
    var arg := if args.Last? then args.arg else args.first;
    var first := ItemsTokens(cmds, arg, pos, base);
    var close := pos + |ItemsText(arg)|;
    ItemsTile(cmds, arg, '}', pos, base);
    match args {
      case Last(_) =>
        var tok := Token(ENDCOMMAND, close, close + 1, "", 0, 0, None, Some(cmd), k);
        OneTile(tok);
        TilesIffConcat(NoPatterns(arg), first, true, [tok], pos, close, close + 1);
      case More(_, more) =>
        var tok := Token(MIDCOMMAND, close, close + 2, "", 0, 0, None, Some(cmd), k);
        var rest := ArgsTokens(cmds, more, close + 2, base + |first| + 1, cmd, k + 1);
        OneTile(tok);
        ArgsTile(cmds, more, close + 2, base + |first| + 1, cmd, k + 1);
        TilesIffConcat(NoPatterns(arg), first, true, [tok], pos, close, close + 2);
        TilesIffConcat(NoPatterns(arg), first + [tok], NoPatternsArgs(more), rest, pos, close + 2,
          pos + |ArgsText(args)|);
    }
  }

  lemma OneTile(tok: Token)
    requires tok.start < tok.end
    ensures Tiles([tok], tok.start, tok.end)
  {
    assert [tok][1..] == [];
  }

  /** The tokens tile a well-formed text exactly when no pattern name or type occurs in it. */
  lemma TokensTile(cmds: Commands, items: Items)
    requires FitsItems(cmds, items, '\0')
    ensures var r := LexMath(cmds, ItemsText(items));
      r.Some? && (Tiles(r.value.tokens, 0, |ItemsText(items)|) <==> NoPatterns(items))
  {
    hide *;
    LexWellFormed(cmds, items);
    ItemsTile(cmds, items, '\0', 0, 0);
    TilesIffMeans(NoPatterns(items), ItemsTokens(cmds, items, 0, 0), 0, |ItemsText(items)|);
  }

  /** The only token of ?a starts behind the mark. */
  lemma MarkIsUntiled(cmds: Commands)
    ensures var r := LexMath(cmds, "?a");
      r.Some? && r.value.tokens == [Simple(PATTERNVAR, 1, 2, "a")] && !Tiles(r.value.tokens, 0, 2)
  {
    hide *;
    MarkedName(cmds);
    LexWellFormed(cmds, Then(PatName("a"), Empty));
    NotTiled(Simple(PATTERNVAR, 1, 2, "a"), 2);
  }

  lemma MarkedName(cmds: Commands)
    ensures var items := Then(PatName("a"), Empty);
      && ItemsText(items) == "?a" && FitsItems(cmds, items, '\0')
      && ItemsTokens(cmds, items, 0, 0) == [Simple(PATTERNVAR, 1, 2, "a")]
    ensures Simple(PATTERNVAR, 1, 2, "a").start == 1
  {
    assert ItemsText(Then(PatName("a"), Empty)) == "?a";
  }

  lemma NotTiled(tok: Token, to: nat)
    requires tok.start != 0
    ensures !Tiles([tok], 0, to)
  {
  }

  lemma TilesIffMeans(whole: bool, toks: seq<Token>, from: nat, to: nat)
    requires TilesIff(whole, toks, from, to)
    ensures Tiles(toks, from, to) <==> whole
  {
    if !whole {
      BrokenNeverTiles(toks, from, to);
    }
  }
}
