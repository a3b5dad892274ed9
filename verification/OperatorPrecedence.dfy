/** What the program's own priorities mean for expressions: the operators bind as
    the table of the user manual lists them
    (Documentation/Chapters/oh_script/oh_script_syntax.lyx), from the tightest
    category to the loosest, each with the direction in which it groups. */
module OperatorPrecedence {
  import opened Tokens
  import opened ParseTrees
  import opened Precedence
  import opened ExpressionParser

  datatype Category = Category(operators: set<Token>, rightToLeft: bool)

  const CATEGORIES := 14

  /** The categories in the order of the manual. */
  function Manual(i: nat): Category
    requires i < CATEGORIES
  {
    match i
    // exponentiation, unary
    case 0 => Category({Binary(Exponentiation), Binary(Log)}, true)
    case 1 => Category({Unary(LogicalNot), Unary(BinaryNot), Unary(UnaryMinus), Unary(BitCount)}, true)
    // multiplicative, additive, bitwise shift
    case 2 => Category({Binary(Multiplication), Binary(Division), Binary(Modulo), Binary(Percentage)}, false)
    case 3 => Category({Binary(Plus), Binary(Minus)}, false)
    case 4 => Category({Binary(BitShiftLeft), Binary(BitShiftRight)}, false)
    // relational, equality
    case 5 => Category({Binary(Smaller), Binary(Greater), Binary(SmallerOrEqual), Binary(GreaterOrEqual)}, false)
    case 6 => Category({Binary(Equality), Binary(NotEqual), Binary(ApproximatelyEqual)}, false)
    // bitwise and, xor, or
    case 7 => Category({Binary(BinaryAnd)}, false)
    case 8 => Category({Binary(BinaryXOr)}, false)
    case 9 => Category({Binary(BinaryOr)}, false)
    // logical and, xor, or
    case 10 => Category({Binary(LogicalAnd)}, false)
    case 11 => Category({Binary(LogicalXOr)}, false)
    case 12 => Category({Binary(LogicalOr)}, false)
    // conditional
    case _ => Category({ConditionalIf}, true)
  }

  predicate Listed(t: Token, i: nat) {
    i < CATEGORIES && t in Manual(i).operators
  }

  /** t stands in an earlier category than u. */
  ghost predicate BindsTighter(t: Token, u: Token) {
    exists i: nat, j: nat | i < j :: Listed(t, i) && Listed(u, j)
  }

  ghost predicate SameCategory(t: Token, u: Token) {
    exists i: nat :: Listed(t, i) && Listed(u, i)
  }

  ghost predicate RightToLeft(t: Token) {
    exists i: nat :: Listed(t, i) && Manual(i).rightToLeft
  }

  predicate IsOperator(t: Token) {
    IsInfix(t) || t.Unary?
  }

  // ---------- The table against the manual ----------

  lemma ListedAt(t: Token, i: nat)
    requires IsOperator(t)
    ensures Listed(t, i) <==> i == 14 - SourcePriority(t)
  {
    if t.Unary? {
      assert t.prefix.UnaryMinus? || t.prefix.LogicalNot? || t.prefix.BinaryNot? || t.prefix.BitCount?;
    }
  }

  lemma DirectionAt(t: Token)
    requires IsInfix(t)
    ensures var i := 14 - SourcePriority(t);
            0 <= i < CATEGORIES && Manual(i).rightToLeft == SourceRightAssociative(t)
  {
  }

  /** The priorities and the associativity of the program are those of the manual. */
  lemma TableFollowsManual(t: Token, u: Token)
    requires IsOperator(t) && IsOperator(u)
    ensures BindsTighter(t, u) <==> SourcePriority(t) > SourcePriority(u)
    ensures SameCategory(t, u) <==> SourcePriority(t) == SourcePriority(u)
    ensures IsInfix(t) ==> (RightToLeft(t) <==> SourceRightAssociative(t))
  {
    hide Listed;
    forall i: nat ensures Listed(t, i) <==> i == 14 - SourcePriority(t) { ListedAt(t, i); }
    forall i: nat ensures Listed(u, i) <==> i == 14 - SourcePriority(u) { ListedAt(u, i); }
    assert SourcePriority(t) <= 14 && SourcePriority(u) <= 14;
    assert Listed(t, 14 - SourcePriority(t)) && Listed(u, 14 - SourcePriority(u));
    if IsInfix(t) { DirectionAt(t); }
  }

  // ---------- Reading as the manual says ----------

  /** The operators of an expression that are neither in brackets nor between "?" and ":". */
  function Outer<R>(t: Tree<R>): set<Token> {
    match t
    case Prefix(_, token, _, arg) => if token.BracketOpen? then {} else {token} + Outer(arg)
    case Infix(_, token, left, _, right) => Outer(left) + {token} + Outer(right)
    case _ => {}
  }

  /** u may stand to the left of an operator, within its operand. */
  ghost predicate LeftOf(u: Token, token: Token) {
    BindsTighter(u, token) || (SameCategory(u, token) && !RightToLeft(token))
  }

  ghost predicate RightOf(u: Token, token: Token) {
    BindsTighter(u, token) || (SameCategory(u, token) && RightToLeft(token))
  }

  /** In no operand is there a looser operator outside brackets, and none of the same
      category on the side to which the category does not group. Behind an operator a
      unary operator may follow in any case. */
  ghost predicate FollowsManual<R>(t: Tree<R>) {
    match t
    case Prefix(_, token, _, arg) =>
      FollowsManual(arg) && (token.Unary? ==> forall u | u in Outer(arg) && IsInfix(u) :: BindsTighter(u, token))
    case Infix(_, token, left, mid, right) =>
      && FollowsManual(left) && FollowsManual(mid) && FollowsManual(right)
      && (forall u | u in Outer(left) :: LeftOf(u, token))
      && (forall u | u in Outer(right) && IsInfix(u) :: RightOf(u, token))
    case _ => true
  }

  lemma {:induction false} OuterIsOperators<R>(t: Tree<R>)
    requires IsExpression(t)
    ensures forall u | u in Outer(t) :: IsOperator(u)
  {
    match t
    case Prefix(_, _, _, arg) => OuterIsOperators(arg);
    case Infix(_, _, left, _, right) => OuterIsOperators(left); OuterIsOperators(right);
    case _ =>
  }

  lemma SidesByTable(u: Token, token: Token)
    requires IsOperator(u) && IsOperator(token)
    ensures IsInfix(token) ==> (LeftOf(u, token) <==> TighterThan(SOURCE_TABLE, u, token))
    ensures IsInfix(token) ==> (RightOf(u, token) <==> !LooserThan(SOURCE_TABLE, u, token))
    ensures IsInfix(u) && token.Unary? ==> (BindsTighter(u, token) <==> !LooserThan(SOURCE_TABLE, u, token))
  {
    hide BindsTighter, SameCategory, RightToLeft;
    TableFollowsManual(u, token);
    TableFollowsManual(token, u);
    assert !SourceRightAssociative(Unary(UnaryMinus)) && (token.Unary? ==> !SourceRightAssociative(token));
    assert IsInfix(u) ==> SourcePriority(u) != 13;
  }

  /** What ends tighter than an operator has only operators that may stand to its left. */
  lemma {:induction false} OuterOnTheLeft<R>(t: Tree<R>, parent: Token, u: Token)
    requires IsExpression(t) && LeftOperandsBind(SOURCE_TABLE, t) && EndBindsTighter(SOURCE_TABLE, t, parent)
    requires u in Outer(t)
    ensures TighterThan(SOURCE_TABLE, u, parent)
  {
    match t
    case Prefix(_, token, _, arg) =>
      if u != token { OuterOnTheLeft(arg, parent, u); }
    case Infix(_, token, left, _, right) =>
      if u in Outer(left) {
        OuterOnTheLeft(left, token, u);
      } else if u != token {
        OuterOnTheLeft(right, parent, u);
      }
    case _ =>
  }

  lemma WellReadParts<R>(table: OperatorTable, t: Tree<R>)
    requires WellRead(table, t)
    ensures t.Prefix? ==> WellRead(table, t.arg)
    ensures t.Infix? ==> WellRead(table, t.left) && WellRead(table, t.right) && EndBindsTighter(table, t.left, t.token)
    ensures t.Infix? && t.token.ConditionalIf? ==> WellRead(table, t.mid)
  {
  }

  /** What is left behind an operator or a unary operator after rotation has no looser
      infix operators. */
  lemma {:induction false} OuterOnTheRight<R>(t: Tree<R>, u: Token)
    requires WellRead(SOURCE_TABLE, t) && (t.Infix? || (t.Prefix? && t.token.Unary?))
    requires u in Outer(RightMost(t)) && IsInfix(u)
    ensures !LooserThan(SOURCE_TABLE, u, t.token)
  {
    var right := RightMost(t);
    WellReadParts(SOURCE_TABLE, t);
    WellReadParts(SOURCE_TABLE, right);
    match right
    case Prefix(_, token, _, arg) =>
      OuterOnTheRight(right, u);
    case Infix(_, token, left, _, last) =>
      if u in Outer(left) {
        OuterOnTheLeft(left, token, u);
      } else if u != token {
        OuterOnTheRight(right, u);
      }
    case _ =>
  }

  lemma {:induction false} WellReadFollowsManual<R>(t: Tree<R>)
    requires WellRead(SOURCE_TABLE, t)
    ensures FollowsManual(t)
  {
    hide BindsTighter, SameCategory, RightToLeft;
    match t
    case Prefix(_, token, _, arg) =>
      WellReadFollowsManual(arg);
      OuterIsOperators(arg);
      if token.Unary? {
        forall u | u in Outer(arg) && IsInfix(u) ensures BindsTighter(u, token) {
          OuterOnTheRight(t, u);
          SidesByTable(u, token);
        }
      }
    case Infix(_, token, left, mid, right) =>
      WellReadFollowsManual(left);
      if token.ConditionalIf? { WellReadFollowsManual(mid); }
      WellReadFollowsManual(right);
      OuterIsOperators(left);
      OuterIsOperators(right);
      forall u | u in Outer(left) ensures LeftOf(u, token) {
        OuterOnTheLeft(left, token, u);
        SidesByTable(u, token);
      }
      forall u | u in Outer(right) && IsInfix(u) ensures RightOf(u, token) {
        OuterOnTheRight(t, u);
        SidesByTable(u, token);
      }
    case _ =>
  }

  lemma {:induction false} OuterEnds<R>(t: Tree<R>, parent: Token)
    requires IsExpression(t) && forall u | u in Outer(t) :: TighterThan(SOURCE_TABLE, u, parent)
    ensures EndBindsTighter(SOURCE_TABLE, t, parent)
  {
    match t
    case Prefix(_, token, _, arg) =>
      if !token.BracketOpen? { OuterEnds(arg, parent); }
    case Infix(_, _, _, _, right) => OuterEnds(right, parent);
    case _ =>
  }

  lemma {:induction false} ManualIsWellRead<R>(t: Tree<R>)
    requires IsExpression(t) && FollowsManual(t)
    ensures WellRead(SOURCE_TABLE, t)
  {
    hide BindsTighter, SameCategory, RightToLeft;
    match t
    case Prefix(_, token, _, arg) =>
      ManualIsWellRead(arg);
      if token.BracketOpen? {
        SourceTableIsProper();
        BracketsNeverRotate(SOURCE_TABLE, t);
      } else if arg.Infix? {
        SidesByTable(arg.token, token);
      }
    case Infix(_, token, left, mid, right) =>
      ManualIsWellRead(left);
      if token.ConditionalIf? { ManualIsWellRead(mid); }
      ManualIsWellRead(right);
      OuterIsOperators(left);
      forall u | u in Outer(left) ensures TighterThan(SOURCE_TABLE, u, token) { SidesByTable(u, token); }
      OuterEnds(left, token);
      if right.Infix? { SidesByTable(right.token, token); }
      assert FullyRotated(SOURCE_TABLE, mid) && LeftOperandsBind(SOURCE_TABLE, mid);
    case _ =>
  }

  // ---------- Main results ----------

  /** What parsing and rotating makes of tokens, under the program's own table. */
  function Reading(input: seq<Token>): Tree<()> {
    Rotated(SOURCE_TABLE, ParseExpression(input).tree)
  }

  /** Every expression without error is read as the manual says, and no other tree with
      these tokens follows the manual. */
  lemma ReadingFollowsManual(input: seq<Token>)
    requires ParseExpression(input).ok
    ensures var rest := ParseExpression(input).rest;
            forall t: Tree<()> ::
              IsExpression(t) && FollowsManual(t) && Spelling(t) + rest == input <==> t == Reading(input)
  {
    hide FollowsManual;
    SourceReading(input);
    var rest := ParseExpression(input).rest;
    forall t: Tree<()>
      ensures IsExpression(t) && FollowsManual(t) && Spelling(t) + rest == input <==> t == Reading(input)
    {
      if IsExpression(t) && FollowsManual(t) && Spelling(t) + rest == input { ManualIsWellRead(t); }
      if t == Reading(input) { WellReadFollowsManual(t); }
    }
  }

  // ---------- Two operators in a row ----------

  /** An atom or a bracket expression. */
  ghost predicate IsClosed(t: Tree<()>) {
    WellRead(SOURCE_TABLE, t) && IsOperand(t)
  }

  /** A binary operator, or a conditional with its middle part. */
  ghost predicate IsInfixWith(op: Token, mid: Tree<()>) {
    if op.ConditionalIf? then WellRead(SOURCE_TABLE, mid) else op.Binary? && mid.Nil?
  }

  /** An infix operator, up to the operand behind it. */
  function Written(op: Token, mid: Tree<()>): seq<Token> {
    Opening(op, Spelling(mid))
  }

  lemma ClosedHasNoOperators(t: Tree<()>)
    requires IsClosed(t)
    ensures Outer(t) == {} && IsExpression(t) && FollowsManual(t)
  {
    hide BindsTighter, SameCategory, RightToLeft, FollowsManual;
    WellReadFollowsManual(t);
  }

  lemma MiddleFollowsManual(op: Token, mid: Tree<()>)
    requires IsInfixWith(op, mid)
    ensures FollowsManual(mid) && IsInfix(op) && (op.ConditionalIf? ==> IsExpression(mid))
  {
    if op.ConditionalIf? { WellReadFollowsManual(mid); }
  }

  /** A tree that follows the manual is the reading of its tokens. */
  lemma ReadingOf(t: Tree<()>)
    requires IsExpression(t) && FollowsManual(t)
    ensures ParseExpression(Spelling(t)).ok && ParseExpression(Spelling(t)).rest == [] && Reading(Spelling(t)) == t
  {
    hide FollowsManual, ParseExpression;
    ManualIsWellRead(t);
    SourceTableIsProper();
    EveryReadingIsFound(SOURCE_TABLE, t, []);
    assert Spelling(t) + [] == Spelling(t);
  }

  lemma InfixFollowsManual(left: Tree<()>, op: Token, mid: Tree<()>, right: Tree<()>)
    requires IsInfixWith(op, mid) && IsExpression(left) && IsExpression(right)
    requires FollowsManual(left) && FollowsManual(right)
    requires forall u | u in Outer(left) :: LeftOf(u, op)
    requires forall u | u in Outer(right) && IsInfix(u) :: RightOf(u, op)
    ensures var t := Infix((), op, left, mid, right);
            IsExpression(t) && FollowsManual(t) && Outer(t) == Outer(left) + {op} + Outer(right)
  {
    hide LeftOf, RightOf;
    MiddleFollowsManual(op, mid);
  }

  lemma SpellingParts(t: Tree<()>)
    requires t.Infix?
    ensures Spelling(t) == Spelling(t.left) + (Written(t.token, t.mid) + Spelling(t.right))
  {
  }

  lemma Associates(a: seq<Token>, b: seq<Token>, c: seq<Token>)
    ensures a + (b + c) == a + b + c
  {
  }

  lemma InfixSpelling(t: Tree<()>)
    requires t.Infix?
    ensures Spelling(t) == Spelling(t.left) + Written(t.token, t.mid) + Spelling(t.right)
  {
    hide *;
    SpellingParts(t);
    Associates(Spelling(t.left), Written(t.token, t.mid), Spelling(t.right));
  }

  lemma SidesOfPair(op: Token, op': Token)
    requires IsInfix(op) && IsInfix(op')
    ensures LeftOf(op, op') <==> BindsTighter(op, op') || (SameCategory(op, op') && !RightToLeft(op))
    ensures LeftOf(op, op') <==> !RightOf(op', op)
  {
    hide BindsTighter, SameCategory, RightToLeft;
    TableFollowsManual(op, op');
    TableFollowsManual(op', op);
  }

  lemma PairToTheLeft(x: Tree<()>, op: Token, mid: Tree<()>, y: Tree<()>, op': Token, mid': Tree<()>, z: Tree<()>)
    requires IsClosed(x) && IsClosed(y) && IsClosed(z) && IsInfixWith(op, mid) && IsInfixWith(op', mid')
    requires LeftOf(op, op')
    ensures var t := Infix((), op', Infix((), op, x, mid, y), mid', z);
            && IsExpression(t) && FollowsManual(t)
            && Spelling(t) == Spelling(x) + Written(op, mid) + Spelling(y) + Written(op', mid') + Spelling(z)
  {
    hide *;
    ClosedHasNoOperators(x);
    ClosedHasNoOperators(y);
    ClosedHasNoOperators(z);
    InfixFollowsManual(x, op, mid, y);
    var first := Infix((), op, x, mid, y);
    InfixFollowsManual(first, op', mid', z);
    InfixSpelling(first);
    InfixSpelling(Infix((), op', first, mid', z));
  }

  lemma PairToTheRight(x: Tree<()>, op: Token, mid: Tree<()>, y: Tree<()>, op': Token, mid': Tree<()>, z: Tree<()>)
    requires IsClosed(x) && IsClosed(y) && IsClosed(z) && IsInfixWith(op, mid) && IsInfixWith(op', mid')
    requires RightOf(op', op)
    ensures var t := Infix((), op, x, mid, Infix((), op', y, mid', z));
            && IsExpression(t) && FollowsManual(t)
            && Spelling(t) == Spelling(x) + Written(op, mid) + Spelling(y) + Written(op', mid') + Spelling(z)
  {
    hide *;
    ClosedHasNoOperators(x);
    ClosedHasNoOperators(y);
    ClosedHasNoOperators(z);
    InfixFollowsManual(y, op', mid', z);
    var second := Infix((), op', y, mid', z);
    InfixFollowsManual(x, op, mid, second);
    InfixSpelling(second);
    InfixSpelling(Infix((), op, x, mid, second));
    assert Spelling(x) + Written(op, mid) + (Spelling(y) + Written(op', mid') + Spelling(z))
        == Spelling(x) + Written(op, mid) + Spelling(y) + Written(op', mid') + Spelling(z);
  }

  /** Of two operators in a row the tighter one groups first, wherever it stands, and
      two of one category group in its direction. */
  lemma PairIsGrouped(x: Tree<()>, op: Token, mid: Tree<()>, y: Tree<()>, op': Token, mid': Tree<()>, z: Tree<()>)
    requires IsClosed(x) && IsClosed(y) && IsClosed(z) && IsInfixWith(op, mid) && IsInfixWith(op', mid')
    ensures var input := Spelling(x) + Written(op, mid) + Spelling(y) + Written(op', mid') + Spelling(z);
            && ParseExpression(input).ok && ParseExpression(input).rest == []
            && Reading(input) ==
                 if BindsTighter(op, op') || (SameCategory(op, op') && !RightToLeft(op))
                 then Infix((), op', Infix((), op, x, mid, y), mid', z)
                 else Infix((), op, x, mid, Infix((), op', y, mid', z))
  {
    hide *;
    MiddleFollowsManual(op, mid);
    MiddleFollowsManual(op', mid');
    SidesOfPair(op, op');
    if LeftOf(op, op') {
      PairToTheLeft(x, op, mid, y, op', mid', z);
      ReadingOf(Infix((), op', Infix((), op, x, mid, y), mid', z));
    } else {
      PairToTheRight(x, op, mid, y, op', mid', z);
      ReadingOf(Infix((), op, x, mid, Infix((), op', y, mid', z)));
    }
  }

  lemma UnaryFollowsManual(u: UnaryOperator, arg: Tree<()>)
    requires IsExpression(arg) && FollowsManual(arg)
    requires forall v | v in Outer(arg) && IsInfix(v) :: BindsTighter(v, Unary(u))
    ensures var t := Prefix((), Unary(u), [], arg);
            && IsExpression(t) && FollowsManual(t) && !IsInfix(Unary(u))
            && Outer(t) == {Unary(u)} + Outer(arg) && Spelling(t) == [Unary(u)] + Spelling(arg)
  {
    hide BindsTighter;
    assert [Unary(u)] + Spelling(arg) + [] == [Unary(u)] + Spelling(arg);
  }

  lemma UnaryAgainst(u: UnaryOperator, op: Token)
    requires IsInfix(op)
    ensures LeftOf(Unary(u), op) <==> !BindsTighter(op, Unary(u))
  {
    hide BindsTighter, SameCategory, RightToLeft;
    TableFollowsManual(op, Unary(u));
    TableFollowsManual(Unary(u), op);
    assert SourcePriority(op) != 13;
  }

  /** A unary operator takes the operator behind its operand with it exactly if that one
      is tighter. */
  lemma UnaryIsGrouped(u: UnaryOperator, x: Tree<()>, op: Token, mid: Tree<()>, y: Tree<()>)
    requires IsClosed(x) && IsClosed(y) && IsInfixWith(op, mid)
    ensures Reading([Unary(u)] + Spelling(x) + Written(op, mid) + Spelling(y)) ==
              if BindsTighter(op, Unary(u)) then Prefix((), Unary(u), [], Infix((), op, x, mid, y))
              else Infix((), op, Prefix((), Unary(u), [], x), mid, y)
  {
    hide *;
    ClosedHasNoOperators(x);
    ClosedHasNoOperators(y);
    MiddleFollowsManual(op, mid);
    UnaryAgainst(u, op);
    var input := [Unary(u)] + Spelling(x) + Written(op, mid) + Spelling(y);
    if BindsTighter(op, Unary(u)) {
      InfixFollowsManual(x, op, mid, y);
      var inner := Infix((), op, x, mid, y);
      UnaryFollowsManual(u, inner);
      ReadingOf(Prefix((), Unary(u), [], inner));
      InfixSpelling(inner);
      assert [Unary(u)] + (Spelling(x) + Written(op, mid) + Spelling(y)) == input;
    } else {
      UnaryFollowsManual(u, x);
      var head := Prefix((), Unary(u), [], x);
      InfixFollowsManual(head, op, mid, y);
      ReadingOf(Infix((), op, head, mid, y));
      InfixSpelling(Infix((), op, head, mid, y));
    }
  }

  /** Behind an operator a unary operator takes its own operand alone. */
  lemma UnaryMayFollow(x: Tree<()>, op: Token, mid: Tree<()>, u: UnaryOperator, y: Tree<()>)
    requires IsClosed(x) && IsClosed(y) && IsInfixWith(op, mid)
    ensures Reading(Spelling(x) + Written(op, mid) + [Unary(u)] + Spelling(y)) ==
              Infix((), op, x, mid, Prefix((), Unary(u), [], y))
  {
    hide *;
    ClosedHasNoOperators(x);
    ClosedHasNoOperators(y);
    UnaryFollowsManual(u, y);
    var operand := Prefix((), Unary(u), [], y);
    InfixFollowsManual(x, op, mid, operand);
    var t := Infix((), op, x, mid, operand);
    ReadingOf(t);
    InfixSpelling(t);
    assert Spelling(x) + Written(op, mid) + ([Unary(u)] + Spelling(y))
        == Spelling(x) + Written(op, mid) + [Unary(u)] + Spelling(y);
  }

  /** 1 + 2 * 3 is 1 + (2 * 3), and -2 ** 2 is -(2 ** 2). */
  lemma Examples()
    ensures var one: Tree<()>, two: Tree<()>, three: Tree<()> :=
              Atom((), Number("1")), Atom((), Number("2")), Atom((), Number("3"));
            && Reading([Number("1"), Binary(Plus), Number("2"), Binary(Multiplication), Number("3")])
               == Infix((), Binary(Plus), one, Nil, Infix((), Binary(Multiplication), two, Nil, three))
            && Reading([Unary(UnaryMinus), Number("2"), Binary(Exponentiation), Number("2")])
               == Prefix((), Unary(UnaryMinus), [], Infix((), Binary(Exponentiation), two, Nil, two))
  {
    hide BindsTighter, SameCategory, RightToLeft, Reading, ParseExpression;
    var one: Tree<()>, two: Tree<()>, three: Tree<()> :=
      Atom((), Number("1")), Atom((), Number("2")), Atom((), Number("3"));
    assert [Number("1")] + [Binary(Plus)] + [Number("2")] + [Binary(Multiplication)] + [Number("3")]
        == [Number("1"), Binary(Plus), Number("2"), Binary(Multiplication), Number("3")];
    PairIsGrouped(one, Binary(Plus), Nil, two, Binary(Multiplication), Nil, three);
    TableFollowsManual(Binary(Plus), Binary(Multiplication));
    assert [Unary(UnaryMinus)] + [Number("2")] + [Binary(Exponentiation)] + [Number("2")]
        == [Unary(UnaryMinus), Number("2"), Binary(Exponentiation), Number("2")];
    UnaryIsGrouped(UnaryMinus, two, Binary(Exponentiation), Nil, two);
    TableFollowsManual(Binary(Exponentiation), Unary(UnaryMinus));
  }

  /** The natural logarithm, which the manual writes as "ln a", is classified as a binary
      operator: an expression that begins with it is an error, whatever follows. */
  lemma LogarithmIsNoPrefix(rest: seq<Token>)
    ensures !ParseExpression([Binary(Log)] + rest).ok
  {
    LookAheadOf(Binary(Log), rest);
  }
}
