/** ParseExpression() and its helpers as a function on the remaining tokens, and
    the main theorem about the compiler front end: parsing and then rotating
    gives exactly the conventional reading of every error-free expression. */
module ExpressionParser {
  import opened Tokens
  import opened ParseTrees
  import opened Precedence

  /** A tree (Nil stands for the NULL of a failed parse), the tokens that remain,
      and whether no parse error was reported. */
  datatype Parsed = Parsed(tree: Tree<()>, rest: seq<Token>, ok: bool)

  /** The tokenizer reports the end of the function over and over. */
  function LookAhead(input: seq<Token>): Token {
    if input == [] then EndOfFunction else input[0]
  }

  function Skip(input: seq<Token>): seq<Token> {
    if input == [] then [] else input[1..]
  }

  /** "60% Force": the percentage sign belongs to the action, not to the expression. */
  predicate PercentageOfAction(input: seq<Token>) {
    LookAhead(input) == Binary(Percentage) && LookAhead(Skip(input)).KeywordForce?
  }

  /** The expression goes on with an infix operator. */
  predicate Continues(input: seq<Token>) {
    IsInfix(LookAhead(input)) && !PercentageOfAction(input)
  }

  function ParseExpression(input: seq<Token>): (p: Parsed)
    ensures |p.rest| <= |input|
    decreases |input|, 1
  {
    var first := ParseFirstOperand(input);
    var op := LookAhead(first.rest);
    if first.tree.Nil? || !Continues(first.rest) then first
    else if op.Binary? then
      var second := ParseExpression(Skip(first.rest));
      Parsed(Infix((), op, first.tree, Nil, second.tree), second.rest, first.ok && second.ok)
    else
      var thenPart := ParseExpression(Skip(first.rest));
      if LookAhead(thenPart.rest).ConditionalElse? then
        var elsePart := ParseExpression(Skip(thenPart.rest));
        Parsed(Infix((), op, first.tree, thenPart.tree, elsePart.tree), elsePart.rest,
               first.ok && thenPart.ok && elsePart.ok)
      else
        Parsed(Infix((), op, first.tree, thenPart.tree, Nil), Skip(thenPart.rest), false)
  }

  function ParseFirstOperand(input: seq<Token>): (p: Parsed)
    ensures |p.rest| <= |input|
    ensures !p.tree.Nil? ==> |p.rest| < |input|
    decreases |input|, 0
  {
    var token := LookAhead(input);
    if token.BracketOpen? then
      var inner := ParseExpression(Skip(input));
      var close := LookAhead(inner.rest);
      Parsed(Prefix((), token, [close], inner.tree), Skip(inner.rest), inner.ok && ClosesBracket(token.open, close))
    else if IsUnary(token) then
      var arg := ParseExpression(Skip(input));
      Parsed(Prefix((), token, [], arg.tree), arg.rest, arg.ok)
    else if token.Identifier? || token.Number? then
      Parsed(Atom((), token), Skip(input), true)
    else
      Parsed(Nil, input, false)
  }

  // ---------- Soundness ----------

  lemma {:induction false} ParsedFirstOperandIsSound(input: seq<Token>)
    requires ParseFirstOperand(input).ok
    ensures var p := ParseFirstOperand(input);
            && IsExpression(p.tree) && IsNaive(p.tree) && input == Spelling(p.tree) + p.rest
            && (IsOperand(p.tree) || !Continues(p.rest))
    decreases |input|, 0
  {
    var token := LookAhead(input);
    if IsUnary(token) {
      ParsedExpressionIsSound(Skip(input));
      var inner := ParseExpression(Skip(input));
      if token.BracketOpen? {
        BracketInput(input, inner.tree, inner.rest);
      } else {
        UnaryInput(input, inner.tree, inner.rest);
      }
    } else {
      assert input == [token] + Skip(input);
    }
  }

  lemma BracketInput(input: seq<Token>, arg: Tree<()>, afterArg: seq<Token>)
    requires input != [] && afterArg != [] && Skip(input) == Spelling(arg) + afterArg
    ensures input == Spelling(Prefix((), input[0], [afterArg[0]], arg)) + Skip(afterArg)
  {
    assert input == [input[0]] + (Spelling(arg) + ([afterArg[0]] + Skip(afterArg)));
  }

  lemma UnaryInput(input: seq<Token>, arg: Tree<()>, rest: seq<Token>)
    requires input != [] && Skip(input) == Spelling(arg) + rest
    ensures input == Spelling(Prefix((), input[0], [], arg)) + rest
  {
    assert input == [input[0]] + (Spelling(arg) + rest);
  }

  lemma {:induction false} ParsedExpressionIsSound(input: seq<Token>)
    requires ParseExpression(input).ok
    ensures var p := ParseExpression(input);
            && IsExpression(p.tree) && IsNaive(p.tree)
            && input == Spelling(p.tree) + p.rest && !Continues(p.rest)
    decreases |input|, 1
  {
    var first := ParseFirstOperand(input);
    ParsedFirstOperandIsSound(input);
    if Continues(first.rest) {
      var second := ParseExpression(Skip(first.rest));
      ParsedExpressionIsSound(Skip(first.rest));
      if LookAhead(first.rest).Binary? {
        BinaryInput(first.tree, first.rest, second.tree, second.rest);
      } else {
        var elsePart := ParseExpression(Skip(second.rest));
        ParsedExpressionIsSound(Skip(second.rest));
        TernaryInput(first.tree, first.rest, second.tree, second.rest, elsePart.tree, elsePart.rest);
      }
    }
  }

  lemma BinaryInput(left: Tree<()>, afterLeft: seq<Token>, right: Tree<()>, rest: seq<Token>)
    requires afterLeft != [] && !afterLeft[0].ConditionalIf?
    requires Skip(afterLeft) == Spelling(right) + rest
    ensures Spelling(left) + afterLeft == Spelling(Infix((), afterLeft[0], left, Nil, right)) + rest
  {
    assert afterLeft == [afterLeft[0]] + (Spelling(right) + rest);
  }

  lemma TernaryInput(left: Tree<()>, afterLeft: seq<Token>, mid: Tree<()>, afterMid: seq<Token>,
                     right: Tree<()>, rest: seq<Token>)
    requires afterLeft != [] && afterLeft[0].ConditionalIf?
    requires afterMid != [] && afterMid[0].ConditionalElse?
    requires Skip(afterLeft) == Spelling(mid) + afterMid
    requires Skip(afterMid) == Spelling(right) + rest
    ensures Spelling(left) + afterLeft == Spelling(Infix((), afterLeft[0], left, mid, right)) + rest
  {
    var opening := [afterLeft[0]] + Spelling(mid) + [afterMid[0]];
    assert afterLeft == opening + (Spelling(right) + rest);
    assert Opening(afterLeft[0], Spelling(mid)) == opening;
  }

  // ---------- Completeness ----------

  lemma LookAheadOf(token: Token, tail: seq<Token>)
    ensures LookAhead([token] + tail) == token && Skip([token] + tail) == tail
  {
  }

  lemma {:induction false} OperandIsParsed(t: Tree<()>, rest: seq<Token>)
    requires IsExpression(t) && IsNaive(t) && !t.Infix?
    requires IsOperand(t) || !Continues(rest)
    ensures ParseFirstOperand(Spelling(t) + rest) == Parsed(t, rest, true)
    decreases t, 0
  {
    assert t.ref == ();
    match t
    case Atom(_, token) => LookAheadOf(token, rest);
    case Prefix(_, token, close, arg) =>
      var input := Spelling(t) + rest;
      PrefixInput(t, rest);
      if token.BracketOpen? {
        LookAheadOf(close[0], rest);
        ExpressionIsParsed(arg, [close[0]] + rest);
        assert ParseExpression(Skip(input)) == Parsed(arg, [close[0]] + rest, true);
        assert close == [close[0]];
      } else {
        ExpressionIsParsed(arg, rest);
        assert ParseExpression(Skip(input)) == Parsed(arg, rest, true);
      }
  }

  lemma PrefixInput(t: Tree<()>, rest: seq<Token>)
    requires IsExpression(t) && t.Prefix?
    ensures var input := Spelling(t) + rest;
            && LookAhead(input) == t.token
            && (t.token.BracketOpen? ==> Skip(input) == Spelling(t.arg) + ([t.close[0]] + rest))
            && (!t.token.BracketOpen? ==> Skip(input) == Spelling(t.arg) + rest)
  {
    assert Spelling(t) + rest == [t.token] + (Spelling(t.arg) + (t.close + rest));
    if t.token.BracketOpen? {
      assert t.close == [t.close[0]];
    } else {
      assert t.close + rest == rest;
    }
  }

  lemma {:induction false} ExpressionIsParsed(t: Tree<()>, rest: seq<Token>)
    requires IsExpression(t) && IsNaive(t) && !Continues(rest)
    ensures ParseExpression(Spelling(t) + rest) == Parsed(t, rest, true)
    decreases t, 1
  {
    if !t.Infix? {
      OperandIsParsed(t, rest);
    } else if t.token.ConditionalIf? {
      var afterMid := [ConditionalElse] + (Spelling(t.right) + rest);
      var afterLeft := [t.token] + (Spelling(t.mid) + afterMid);
      LookAheadOf(ConditionalElse, Spelling(t.right) + rest);
      LookAheadOf(t.token, Spelling(t.mid) + afterMid);
      TernaryInput(t.left, afterLeft, t.mid, afterMid, t.right, rest);
      ExpressionIsParsed(t.right, rest);
      ExpressionIsParsed(t.mid, afterMid);
      OperandIsParsed(t.left, afterLeft);
      TernaryIsParsed(t, rest, afterLeft, afterMid);
    } else {
      var afterLeft := [t.token] + (Spelling(t.right) + rest);
      LookAheadOf(t.token, Spelling(t.right) + rest);
      BinaryInput(t.left, afterLeft, t.right, rest);
      ExpressionIsParsed(t.right, rest);
      FirstTokenIsNoForce(t.right, rest);
      OperandIsParsed(t.left, afterLeft);
      BinaryIsParsed(t, rest, afterLeft);
    }
  }

  lemma BinaryIsParsed(t: Tree<()>, rest: seq<Token>, afterLeft: seq<Token>)
    requires t.Infix? && t.token.Binary? && t.mid.Nil? && !t.left.Nil?
    requires ParseFirstOperand(Spelling(t) + rest) == Parsed(t.left, afterLeft, true)
    requires LookAhead(afterLeft) == t.token && Continues(afterLeft)
    requires ParseExpression(Skip(afterLeft)) == Parsed(t.right, rest, true)
    ensures ParseExpression(Spelling(t) + rest) == Parsed(t, rest, true)
  {
    assert t.ref == ();
  }

  lemma TernaryIsParsed(t: Tree<()>, rest: seq<Token>, afterLeft: seq<Token>, afterMid: seq<Token>)
    requires t.Infix? && t.token.ConditionalIf? && !t.left.Nil?
    requires ParseFirstOperand(Spelling(t) + rest) == Parsed(t.left, afterLeft, true)
    requires LookAhead(afterLeft) == t.token
    requires ParseExpression(Skip(afterLeft)) == Parsed(t.mid, afterMid, true)
    requires LookAhead(afterMid).ConditionalElse?
    requires ParseExpression(Skip(afterMid)) == Parsed(t.right, rest, true)
    ensures ParseExpression(Spelling(t) + rest) == Parsed(t, rest, true)
  {
    assert t.ref == ();
  }

  lemma {:induction false} FirstTokenIsNoForce(t: Tree<()>, rest: seq<Token>)
    requires IsExpression(t)
    ensures !LookAhead(Spelling(t) + rest).KeywordForce?
  {
    match t
    case Atom(_, token) =>
    case Prefix(_, token, _, arg) =>
    case Infix(_, token, left, mid, right) =>
      FirstTokenIsNoForce(left, (Opening(token, Spelling(mid)) + Spelling(right)) + rest);
      assert Spelling(t) + rest == Spelling(left) + ((Opening(token, Spelling(mid)) + Spelling(right)) + rest);
  }

  // ---------- Main results ----------

  /** Every expression without parse error is read in the conventional way, and
      nothing but its own tokens is read. */
  lemma ErrorFreeExpressionIsWellRead(table: OperatorTable, input: seq<Token>)
    requires ProperTable(table) && ParseExpression(input).ok
    ensures var p := ParseExpression(input);
            && WellRead(table, Rotated(table, p.tree))
            && Spelling(Rotated(table, p.tree)) + p.rest == input
            && !Continues(p.rest)
  {
    ParsedExpressionIsSound(input);
    RotatedNaiveIsWellRead(table, ParseExpression(input).tree);
  }

  /** Every conventional reading is the result of parsing and rotating its tokens. */
  lemma EveryReadingIsFound(table: OperatorTable, t: Tree<()>, rest: seq<Token>)
    requires ProperTable(table) && WellRead(table, t) && !Continues(rest)
    ensures var p := ParseExpression(Spelling(t) + rest);
            p.ok && p.rest == rest && Rotated(table, p.tree) == t
  {
    UnrolledShape(t);
    RotatedUnrolled(table, t);
    ExpressionIsParsed(Unrolled(t), rest);
  }

  /** A token sequence has at most one conventional reading. */
  lemma ReadingIsUnique(table: OperatorTable, t: Tree<()>, u: Tree<()>)
    requires ProperTable(table) && WellRead(table, t) && WellRead(table, u)
    requires Spelling(t) == Spelling(u)
    ensures t == u
  {
    EveryReadingIsFound(table, t, []);
    EveryReadingIsFound(table, u, []);
  }

  /** The parser accepts exactly the spellings of expressions. */
  lemma AcceptedExactlyWhenSpelled(input: seq<Token>)
    ensures (ParseExpression(input).ok && ParseExpression(input).rest == [])
       <==> exists t: Tree<()> :: IsExpression(t) && Spelling(t) == input
  {
    var p := ParseExpression(input);
    if p.ok && p.rest == [] {
      ParsedExpressionIsSound(input);
      assert IsExpression(p.tree) && Spelling(p.tree) == input;
    }
    if t: Tree<()> :| IsExpression(t) && Spelling(t) == input {
      UnrolledShape(t);
      ExpressionIsParsed(Unrolled(t), []);
      assert input + [] == input;
    }
  }

  /** The reading under the priorities of the program itself. */
  lemma SourceReading(input: seq<Token>)
    requires ParseExpression(input).ok
    ensures var p := ParseExpression(input);
            var t := Rotated(SOURCE_TABLE, p.tree);
            && WellRead(SOURCE_TABLE, t) && Spelling(t) + p.rest == input
            && forall u: Tree<()> :: WellRead(SOURCE_TABLE, u) && Spelling(u) + p.rest == input ==> u == t
  {
    SourceTableIsProper();
    ErrorFreeExpressionIsWellRead(SOURCE_TABLE, input);
    var p := ParseExpression(input);
    var t := Rotated(SOURCE_TABLE, p.tree);
    forall u: Tree<()> | WellRead(SOURCE_TABLE, u) && Spelling(u) + p.rest == input
      ensures u == t
    {
      EveryReadingIsFound(SOURCE_TABLE, u, p.rest);
    }
  }

  function BracketRank(b: Bracket): nat {
    match b case Round => 1 case Square => 2 case Curly => 3
  }

  /** Closing brackets are not compared with the opening one as the error message
      promises: "(1]" is accepted. A bracket may be closed by its own or any later kind. */
  lemma BracketAcceptedExactlyWhen(open: Bracket, t: Tree<()>, close: Bracket, rest: seq<Token>)
    requires IsExpression(t) && IsNaive(t)
    ensures ParseFirstOperand([BracketOpen(open)] + (Spelling(t) + ([BracketClose(close)] + rest))).ok
       <==> BracketRank(open) <= BracketRank(close)
  {
    var input := [BracketOpen(open)] + (Spelling(t) + ([BracketClose(close)] + rest));
    LookAheadOf(BracketClose(close), rest);
    LookAheadOf(BracketOpen(open), Spelling(t) + ([BracketClose(close)] + rest));
    ExpressionIsParsed(t, [BracketClose(close)] + rest);
    assert ParseExpression(Skip(input)) == Parsed(t, [BracketClose(close)] + rest, true);
  }

  lemma MismatchedBracketsAccepted()
    ensures ParseFirstOperand([BracketOpen(Round), Number("1"), BracketClose(Square)]).ok
    ensures !ParseFirstOperand([BracketOpen(Square), Number("1"), BracketClose(Round)]).ok
  {
    var t: Tree<()> := Atom((), Number("1"));
    BracketAcceptedExactlyWhen(Round, t, Square, []);
    BracketAcceptedExactlyWhen(Square, t, Round, []);
    assert [BracketOpen(Round)] + (Spelling(t) + ([BracketClose(Square)] + []))
        == [BracketOpen(Round), Number("1"), BracketClose(Square)];
    assert [BracketOpen(Square)] + (Spelling(t) + ([BracketClose(Round)] + []))
        == [BracketOpen(Square), Number("1"), BracketClose(Round)];
  }
}
