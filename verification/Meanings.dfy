/** What expressions and function bodies evaluate to, told by their tokens and their
    lines: laws that do not speak of trees or of the walk over their nodes. */
module Meanings {
  import opened Tokens
  import opened ParseTrees
  import opened Precedence
  import opened ExpressionParser
  import opened OperatorPrecedence
  import opened WhenSequences
  import opened FunctionBodies
  import W = WrittenBodies

  // ---------- Expressions ----------

  /** The tokens are an expression, as a whole. */
  predicate IsRead(tokens: seq<Token>) {
    ParseExpression(tokens).ok && ParseExpression(tokens).rest == []
  }

  function ValueOf<E>(sem: Semantics<E>, tokens: seq<Token>, e: E): real {
    Value(sem, Reading(tokens), e)
  }

  lemma ReadingIsThere(tokens: seq<Token>)
    requires IsRead(tokens)
    ensures var t := Reading(tokens); IsExpression(t) && FollowsManual(t) && Spelling(t) == tokens
  {
    hide FollowsManual, ParseExpression;
    ReadingFollowsManual(tokens);
    var t := Reading(tokens);
    assert IsExpression(t) && FollowsManual(t) && Spelling(t) + [] == tokens;
  }

  /** An expression in brackets has its own value. */
  lemma BracketsKeepValue<E>(sem: Semantics<E>, open: Bracket, tokens: seq<Token>, close: Token, e: E)
    requires IsRead(tokens) && ClosesBracket(open, close)
    ensures var whole := [BracketOpen(open)] + tokens + [close];
            IsRead(whole) && Outer(Reading(whole)) == {} && ValueOf(sem, whole, e) == ValueOf(sem, tokens, e)
  {
    hide FollowsManual, ParseExpression, Reading;
    ReadingIsThere(tokens);
    var t := Prefix((), BracketOpen(open), [close], Reading(tokens));
    BracketsFollowManual(t);
    ReadingOf(t);
  }

  lemma BracketsFollowManual(t: Tree<()>)
    requires t.Prefix? && t.token.BracketOpen? && FollowsManual(t.arg)
    ensures FollowsManual(t)
  {
  }

  /** c ? a : b has the value of a or of b, as c is not zero or zero. c must not be a
      conditional itself, unless it is in brackets; a and b may be. */
  lemma ConditionalChooses<E>(sem: Semantics<E>, c: seq<Token>, a: seq<Token>, b: seq<Token>, e: E)
    requires IsRead(c) && IsRead(a) && IsRead(b) && ConditionalIf !in Outer(Reading(c))
    ensures var whole := c + [ConditionalIf] + a + [ConditionalElse] + b;
            && IsRead(whole)
            && ValueOf(sem, whole, e) == if ValueOf(sem, c, e) != 0.0 then ValueOf(sem, a, e) else ValueOf(sem, b, e)
  {
    hide FollowsManual, ParseExpression, Reading, LeftOf, RightOf, Outer, WellRead;
    ReadingIsThere(c);
    ReadingIsThere(a);
    ReadingIsThere(b);
    ManualIsWellRead(Reading(a));
    ConditionalIsLoosest(Reading(c), Reading(b));
    InfixFollowsManual(Reading(c), ConditionalIf, Reading(a), Reading(b));
    var t := Infix((), ConditionalIf, Reading(c), Reading(a), Reading(b));
    ReadingOf(t);
    InfixSpelling(t);
    assert c + ([ConditionalIf] + a + [ConditionalElse]) + b == c + [ConditionalIf] + a + [ConditionalElse] + b;
  }

  lemma ConditionalIsLoosest(left: Tree<()>, right: Tree<()>)
    requires IsExpression(left) && IsExpression(right) && ConditionalIf !in Outer(left)
    ensures forall u | u in Outer(left) :: LeftOf(u, ConditionalIf)
    ensures forall u | u in Outer(right) && IsInfix(u) :: RightOf(u, ConditionalIf)
  {
    hide BindsTighter, SameCategory, RightToLeft;
    OuterIsOperators(left);
    OuterIsOperators(right);
    forall u | u in Outer(left) ensures LeftOf(u, ConditionalIf) {
      TableFollowsManual(u, ConditionalIf);
    }
    forall u | u in Outer(right) && IsInfix(u) ensures RightOf(u, ConditionalIf) {
      TableFollowsManual(u, ConditionalIf);
      TableFollowsManual(ConditionalIf, u);
    }
  }

  /** a op b, where no operator in a or b binds looser than op: the operator applied to
      both values, except that "and" and "or" give the truth of both values together. */
  lemma OperatorApplies<E>(sem: Semantics<E>, a: seq<Token>, op: BinaryOperator, b: seq<Token>, e: E)
    requires IsRead(a) && IsRead(b)
    requires forall u | u in Outer(Reading(a)) :: LeftOf(u, Binary(op))
    requires forall u | u in Outer(Reading(b)) && IsInfix(u) :: RightOf(u, Binary(op))
    ensures var whole := a + [Binary(op)] + b;
            var x, y := ValueOf(sem, a, e), ValueOf(sem, b, e);
            && IsRead(whole)
            && ValueOf(sem, whole, e) ==
                 if op.LogicalAnd? then if x != 0.0 && y != 0.0 then 1.0 else 0.0
                 else if op.LogicalOr? then if x == 0.0 && y == 0.0 then 0.0 else 1.0
                 else sem.binary(op, x, y)
  {
    hide FollowsManual, ParseExpression, Reading, LeftOf, RightOf;
    ReadingIsThere(a);
    ReadingIsThere(b);
    InfixFollowsManual(Reading(a), Binary(op), Nil, Reading(b));
    var t := Infix((), Binary(op), Reading(a), Nil, Reading(b));
    ReadingOf(t);
    InfixSpelling(t);
  }

  /** Only the values of parts matter: one part may be replaced by another of its value. */
  function Replaced<R(==)>(t: Tree<R>, part: Tree<R>, other: Tree<R>): Tree<R> {
    if t == part then other
    else
      match t
      case Prefix(_, _, _, arg) => t.(arg := Replaced(arg, part, other))
      case Infix(_, _, left, mid, right) =>
        t.(left := Replaced(left, part, other), mid := Replaced(mid, part, other),
           right := Replaced(right, part, other))
      case _ => t
  }

  lemma {:induction false} ReplacedKeepsValue<R, E>(sem: Semantics<E>, t: Tree<R>, part: Tree<R>, other: Tree<R>, e: E)
    requires Value(sem, part, e) == Value(sem, other, e)
    ensures Value(sem, Replaced(t, part, other), e) == Value(sem, t, e)
  {
    if t != part {
      match t
      case Prefix(_, _, _, arg) => ReplacedKeepsValue(sem, arg, part, other, e);
      case Infix(_, _, left, mid, right) =>
        ReplacedKeepsValue(sem, left, part, other, e);
        ReplacedKeepsValue(sem, mid, part, other, e);
        ReplacedKeepsValue(sem, right, part, other, e);
      case _ =>
    }
  }

  // ---------- When-conditions ----------

  /** The user variables when line k is reached. */
  ghost function EnvAt<E>(sem: Semantics<E>, lines: seq<W.Line>, k: nat, e: E): E
    requires k <= |lines|
    decreases k, 1
  {
    if k == 0 then e
    else
      var before := EnvAt(sem, lines, k - 1, e);
      if Counts(sem, lines, k - 1, e) && lines[k - 1].order.SetVariable?
      then sem.setVariable(lines[k - 1].order.name, before) else before
  }

  /** Line j is the last open-ended when-condition before line k. */
  predicate Governs(lines: seq<W.Line>, j: nat, k: nat)
    requires k <= |lines|
  {
    j < k && lines[j].OpenLine? && forall m | j < m < k :: lines[m].OrderLine?
  }

  /** The last open-ended when-condition before line k was true, or there is none. */
  ghost predicate InForce<E>(sem: Semantics<E>, lines: seq<W.Line>, k: nat, e: E)
    requires k <= |lines|
    decreases k, 0
  {
    forall j: nat | j < k && Governs(lines, j, k) :: Value(sem, lines[j].cond, EnvAt(sem, lines, j, e)) != 0.0
  }

  /** Line k has an order, is in force, and its condition is true. */
  ghost predicate Counts<E>(sem: Semantics<E>, lines: seq<W.Line>, k: nat, e: E)
    requires k < |lines|
    decreases k, 2
  {
    && lines[k].OrderLine? && InForce(sem, lines, k, e)
    && Value(sem, lines[k].cond, EnvAt(sem, lines, k, e)) != 0.0
  }

  /** Nothing but user variables has been set before line k. */
  ghost predicate NothingDone<E>(sem: Semantics<E>, lines: seq<W.Line>, k: nat, e: E)
    requires k <= |lines|
  {
    forall j: nat | j < k && Counts(sem, lines, j, e) :: lines[j].order.SetVariable?
  }

  lemma ForceAfter<E>(sem: Semantics<E>, lines: seq<W.Line>, k: nat, e: E)
    requires k < |lines|
    ensures InForce(sem, lines, k + 1, e) <==>
              if lines[k].OpenLine? then Value(sem, lines[k].cond, EnvAt(sem, lines, k, e)) != 0.0
              else InForce(sem, lines, k, e)
  {
    hide EnvAt, Value;
    if lines[k].OpenLine? {
      var n := k + 1;
      assert Governs(lines, k, n);
      assert forall j: nat | j < n && Governs(lines, j, n) :: j == k;
    } else {
      assert forall j: nat | j < k :: Governs(lines, j, k + 1) <==> Governs(lines, j, k);
      assert !Governs(lines, k, k + 1);
    }
  }

  lemma LinesStep<E>(sem: Semantics<E>, lines: seq<W.Line>, guard: bool, e: E)
    requires lines != []
    ensures var hit := Value(sem, lines[0].cond, e) != 0.0;
            Scan(sem, W.LinesTree(lines), guard, e) ==
              if lines[0].OpenLine? then Scan(sem, W.LinesTree(lines[1..]), hit, e)
              else if !guard || !hit then Scan(sem, W.LinesTree(lines[1..]), guard, e)
              else
                var outcome := ActionOutcome(sem, W.OrderTree(lines[0].order), e);
                if SetsVariable(W.OrderTree(lines[0].order))
                then Scan(sem, W.LinesTree(lines[1..]), guard, outcome.1) else outcome
  {
  }

  lemma OrderSets<E>(sem: Semantics<E>, order: W.Order, e: E)
    requires W.IsOrder(IsExpression, order)
    ensures SetsVariable(W.OrderTree(order)) <==> order.SetVariable?
    ensures order.SetVariable? ==> ActionOutcome(sem, W.OrderTree(order), e) == (0.0, sem.setVariable(order.name, e))
  {
  }

  /** What an order gives: the value of its node's name, of its expression, or of a raise
      of that amount. Only setting a user variable changes the environment. */
  lemma OrderGives<E>(sem: Semantics<E>, order: W.Order, e: E)
    requires W.IsOrder(IsExpression, order)
    ensures ActionOutcome(sem, W.OrderTree(order), e) ==
              match order
              case Do(_) =>
                var name := if HasName(order.action) then W.OwnWord(order.action) else "Error: invalid token ID";
                (sem.identifier(name, e), e)
              case ReturnValue(_) => (Value(sem, order.value, e), e)
              case RaiseToAmount(_) => (sem.raise(RaiseToBigBlinds, Value(sem, order.value, e), e), e)
              case RaiseByAmount(_) => (sem.raise(RaiseByBigBlinds, Value(sem, order.value, e), e), e)
              case RaiseByPercentage(_) => (sem.raise(RaiseByPercentagedPotsize, Value(sem, order.value, e), e), e)
              case SetVariable(_) => (0.0, sem.setVariable(order.name, e))
  {
  }

  /** The scan from line k on, with the guard and the user variables of line k. */
  lemma {:induction false} ScanFrom<E>(sem: Semantics<E>, lines: seq<W.Line>, k: nat, e: E)
    requires W.AreLines(IsExpression, lines) && k <= |lines| && NothingDone(sem, lines, k, e)
    ensures Scan(sem, W.LinesTree(lines), true, e)
            == Scan(sem, W.LinesTree(lines[k..]), InForce(sem, lines, k, e), EnvAt(sem, lines, k, e))
  {
    hide Scan, Value, InForce, EnvAt, ActionOutcome, SetsVariable, IsExpression, W.LinesTree, W.OrderTree, W.IsOrder;
    if k == 0 {
      NothingBefore(sem, lines, e);
      assert lines[0..] == lines;
    } else {
      var j := k - 1;
      ScanFrom(sem, lines, j, e);
      LinesStep(sem, lines[j..], InForce(sem, lines, j, e), EnvAt(sem, lines, j, e));
      assert lines[j..][1..] == lines[k..] && lines[j..][0] == lines[j];
      ForceAfter(sem, lines, j, e);
      EnvAfter(sem, lines, j, e);
      if lines[j].OrderLine? {
        assert W.IsLine(IsExpression, lines[j]);
        OrderSets(sem, lines[j].order, EnvAt(sem, lines, j, e));
      }
    }
  }

  lemma NothingBefore<E>(sem: Semantics<E>, lines: seq<W.Line>, e: E)
    ensures InForce(sem, lines, 0, e) && EnvAt(sem, lines, 0, e) == e
  {
  }

  lemma EnvAfter<E>(sem: Semantics<E>, lines: seq<W.Line>, j: nat, e: E)
    requires j < |lines|
    ensures EnvAt(sem, lines, j + 1, e) ==
              if Counts(sem, lines, j, e) && lines[j].order.SetVariable?
              then sem.setVariable(lines[j].order.name, EnvAt(sem, lines, j, e)) else EnvAt(sem, lines, j, e)
  {
  }

  /** The first line that counts and does more than setting a user variable gives the
      result: its condition is true, and so is the last open-ended one before it. */
  lemma FirstLineDecides<E>(sem: Semantics<E>, lines: seq<W.Line>, k: nat, e: E)
    requires W.AreLines(IsExpression, lines) && k < |lines|
    requires Counts(sem, lines, k, e) && !lines[k].order.SetVariable? && NothingDone(sem, lines, k, e)
    ensures Meaning(sem, W.BodyTree(W.Lines(lines)), e)
            == ActionOutcome(sem, W.OrderTree(lines[k].order), EnvAt(sem, lines, k, e))
  {
    hide Value, InForce, EnvAt, ActionOutcome, SetsVariable, IsExpression, W.OrderTree, W.IsOrder;
    ScanFrom(sem, lines, k, e);
    LinesStep(sem, lines[k..], InForce(sem, lines, k, e), EnvAt(sem, lines, k, e));
    assert W.IsLine(IsExpression, lines[k]);
    OrderSets(sem, lines[k].order, EnvAt(sem, lines, k, e));
    LinesAreWhen(lines);
  }

  lemma LinesAreWhen(lines: seq<W.Line>)
    requires lines != []
    ensures W.LinesTree(lines).When? || W.LinesTree(lines).OpenWhen?
  {
  }

  /** Without such a line the result is zero, with all user variables set. */
  lemma NoLineDecides<E>(sem: Semantics<E>, lines: seq<W.Line>, e: E)
    requires lines != [] && W.AreLines(IsExpression, lines) && NothingDone(sem, lines, |lines|, e)
    ensures Meaning(sem, W.BodyTree(W.Lines(lines)), e) == (0.0, EnvAt(sem, lines, |lines|, e))
  {
    hide Value, InForce, EnvAt, ActionOutcome, SetsVariable, IsExpression, W.OrderTree, W.IsOrder;
    ScanFrom(sem, lines, |lines|, e);
    LinesAreWhen(lines);
    assert lines[|lines|..] == [];
  }
}
