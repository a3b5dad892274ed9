/** ParseFunctionBody() on the remaining tokens: single expressions and
    OpenPPL when-sequences with their actions. */
module FunctionBodies {
  import opened Common
  import opened Tokens
  import opened ParseTrees
  import opened Precedence
  import opened ExpressionParser
  import opened ParseTreeNodes

  // ---------- Actions ----------

  /** kOpenPPLActionStrings with kOpenPPLActionConstants. */
  const ACTION_NAMES: seq<(string, ActionKind)> := [
    ("Bet", Raise), ("Call", Call), ("Fold", Fold), ("Play", Call), ("Beep", Beep),
    ("Raise", Raise), ("RaiseTo", RaiseTo), ("RaiseBy", RaiseBy), ("Check", Check),
    ("Allin", RaiseMax), ("BetMin", Raise), ("BetFourthPot", RaiseFourthPot),
    ("BetThirdPot", RaiseThirdPot), ("BetHalfPot", RaiseHalfPot),
    ("BetTwoThirdPot", RaiseTwoThirdPot), ("BetThreeFourthPot", RaiseThreeFourthPot),
    ("BetPot", RaisePot), ("BetMax", RaiseMax), ("RaiseMin", Raise),
    ("RaiseFourthPot", RaiseFourthPot), ("RaiseThirdPot", RaiseThirdPot),
    ("RaiseHalfPot", RaiseHalfPot), ("RaiseTwoThirdPot", RaiseTwoThirdPot),
    ("RaiseThreeFourthPot", RaiseThreeFourthPot), ("RaisePot", RaisePot),
    ("RaiseMax", RaiseMax), ("Set", SetUserVariable)]

  /** The first entry of the table with that name, letter case aside, or the table's length. */
  function ActionIndex(name: string, from: nat): (i: nat)
    requires from <= |ACTION_NAMES|
    ensures from <= i <= |ACTION_NAMES|
    decreases |ACTION_NAMES| - from
  {
    if from == |ACTION_NAMES| || LowerCase(ACTION_NAMES[from].0) == LowerCase(name) then from
    else ActionIndex(name, from + 1)
  }

  /** LookAhead(true): an identifier that names an action is taken as that action;
      a name in the wrong letter case is an error. */
  function ExpectAction(input: seq<Token>): (r: (seq<Token>, bool))
    ensures |r.0| == |input|
  {
    if input != [] && input[0].Identifier? then
      var i := ActionIndex(input[0].name, 0);
      if i < |ACTION_NAMES| then
        ([Action(ACTION_NAMES[i].1)] + input[1..], input[0].name == ACTION_NAMES[i].0)
      else (input, true)
    else (input, true)
  }

  /** TokenString() of an action: the name of the node for a predefined action.
      Four of the bet sizes have no string. */
  function ActionName(action: ActionKind): string {
    match action
    case Beep => "Beep" case Fold => "Fold" case Check => "Check" case Call => "Call"
    case Raise => "Raise" case RaiseTo => "RaiseTo" case RaiseBy => "RaiseBy"
    case RaiseHalfPot => "RaiseHalfPot" case RaisePot => "RaisePot" case RaiseMax => "RaiseMax"
    case Return => "Return" case SetUserVariable => "Set"
    case _ => "Error: invalid token ID"
  }

  predicate HasName(action: ActionKind) {
    !action.RaiseFourthPot? && !action.RaiseThirdPot? && !action.RaiseTwoThirdPot? && !action.RaiseThreeFourthPot?
  }

  /** The node of a predefined action identifies the action exactly when the
      action has a string of its own. */
  lemma NamedActionsAreTold(action: ActionKind)
    ensures (forall other: ActionKind :: ActionName(other) == ActionName(action) ==> other == action)
       <==> HasName(action)
  {
    if HasName(action) {
      forall other: ActionKind | ActionName(other) == ActionName(action) ensures other == action {
        NameLengths(action, other);
      }
    } else {
      assert ActionName(RaiseFourthPot) == ActionName(RaiseThirdPot) == ActionName(action);
    }
  }

  lemma NameLengths(a: ActionKind, b: ActionKind)
    requires HasName(a) && ActionName(a) == ActionName(b)
    ensures a == b
  {
    var n, m := ActionName(a), ActionName(b);
    assert |n| == |m| && n[0] == m[0] && n[1] == m[1];
    if |n| == 7 {
      assert n[5] == m[5];
    } else if |n| == 8 {
      assert n[6] == m[6];
    }
  }

  predicate IsUserVariableName(name: string) {
    (|name| >= 4 && LowerCase(name[..4]) == "user") || (|name| >= 3 && name[..3] == "me_")
  }

  function ExpectForce(input: seq<Token>): (r: (seq<Token>, bool))
    ensures |r.0| <= |input|
  {
    if !LookAhead(input).KeywordForce? then (Skip(input), false)
    else if LookAhead(Skip(input)).UnsupportedDelay? then (Skip(Skip(Skip(input))), false)
    else (Skip(input), true)
  }

  function ThenForce(p: Parsed): (q: Parsed)
    ensures |q.rest| <= |p.rest|
  {
    var force := ExpectForce(p.rest);
    Parsed(p.tree, force.0, p.ok && force.1)
  }

  /** RaiseTo N and RaiseBy N or N%, up to Force. */
  function ParseAmount(kind: Token, input: seq<Token>): (p: Parsed)
    ensures |p.rest| <= |input|
  {
    var token := LookAhead(input);
    if token.Number? || token.Identifier? || token.BracketOpen? then
      var amount := ParseExpression(input);
      if kind.RaiseByBigBlinds? && LookAhead(amount.rest) == Binary(Percentage) then
        Parsed(Prefix((), RaiseByPercentagedPotsize, [], amount.tree), Skip(amount.rest), amount.ok)
      else Parsed(Prefix((), kind, [], amount.tree), amount.rest, amount.ok)
    else Parsed(Nil, input, false)
  }

  /** An action without the keyword Force. */
  function ParseActionBody(input: seq<Token>): (p: Parsed)
    requires LookAhead(input).Action?
    ensures |p.rest| < |input|
  {
    var rest := Skip(input);
    match input[0].action
    case Return => ParseExpression(rest)
    case RaiseTo => ParseAmount(RaiseToBigBlinds, rest)
    case RaiseBy => ParseAmount(RaiseByBigBlinds, rest)
    case SetUserVariable =>
      if LookAhead(rest).Identifier? && IsUserVariableName(rest[0].name)
      then Parsed(Atom((), UserVariable(rest[0].name)), Skip(rest), true)
      else Parsed(Nil, Skip(rest), false)
    case action => Parsed(Atom((), Identifier(ActionName(action))), rest, true)
  }

  function ParseAction(input: seq<Token>): (p: Parsed)
    requires LookAhead(input).Action?
    ensures |p.rest| < |input|
  {
    var body := ParseActionBody(input);
    if input[0].action.SetUserVariable? then body else ThenForce(body)
  }

  // ---------- Bodies ----------

  predicate IsEnd(token: Token) {
    token.EndOfFile? || token.EndOfFunction?
  }

  function ParseWhenSequence(input: seq<Token>): (p: Parsed)
    ensures |p.rest| <= |input|
    decreases |input|
  {
    if !LookAhead(input).ConditionalWhen? then Parsed(Nil, input, true)
    else
      var cond := ParseExpression(Skip(input));
      var (next, named) := ExpectAction(cond.rest);
      if LookAhead(next).Action? then
        var action := ParseAction(next);
        var others := ParseWhenSequence(action.rest);
        Parsed(When((), cond.tree, action.tree, others.tree), others.rest, cond.ok && named && action.ok && others.ok)
      else if LookAhead(next).ConditionalWhen? then
        var others := ParseWhenSequence(next);
        Parsed(OpenWhen((), cond.tree, others.tree), others.rest, cond.ok && others.ok)
      else
        Parsed(OpenWhen((), cond.tree, Nil), next, cond.ok && IsEnd(LookAhead(next)))
  }

  function ParseBodyOnly(input: seq<Token>): (p: Parsed) {
    if IsEnd(LookAhead(input)) then Parsed(Atom((), Number("0")), input, true)
    else if LookAhead(input).ConditionalWhen? then ParseWhenSequence(input)
    else ParseExpression(input)
  }

  /** A whole body, with the check that nothing follows it. */
  function ParseBody(input: seq<Token>): (p: Parsed) {
    var body := ParseBodyOnly(input);
    Parsed(body.tree, Skip(body.rest), body.ok && IsEnd(LookAhead(body.rest)))
  }

  // ---------- Soundness ----------

  predicate IsNaiveAction<R>(t: Tree<R>) {
    IsActionTree(t) && if t.Prefix? && !IsExpression(t) then IsNaive(t.arg) else IsNaive(t)
  }

  predicate IsNaiveSequence<R>(t: Tree<R>) {
    match t
    case Nil => true
    case When(_, cond, action, next) =>
      IsExpression(cond) && IsNaive(cond) && IsNaiveAction(action) && IsNaiveSequence(next)
    case OpenWhen(_, cond, next) => IsExpression(cond) && IsNaive(cond) && IsNaiveSequence(next)
    case _ => false
  }

  predicate WellReadAction<R>(table: OperatorTable, t: Tree<R>) {
    IsActionTree(t) && if IsExpression(t) then WellRead(table, t) else t.Prefix? ==> WellRead(table, t.arg)
  }

  /** Every expression of the body is read in the conventional way. */
  predicate WellReadBody<R>(table: OperatorTable, t: Tree<R>) {
    match t
    case Nil => true
    case When(_, cond, action, next) =>
      WellRead(table, cond) && WellReadAction(table, action) && WellReadBody(table, next)
    case OpenWhen(_, cond, next) => WellRead(table, cond) && WellReadBody(table, next)
    case _ => WellReadAction(table, t)
  }

  lemma ParsedActionIsSound(input: seq<Token>)
    requires LookAhead(input).Action? && ParseAction(input).ok
    ensures IsNaiveAction(ParseAction(input).tree)
  {
    var rest := Skip(input);
    match input[0].action
    case Return => ParsedExpressionIsSound(rest);
    case RaiseTo => ParsedExpressionIsSound(rest);
    case RaiseBy => ParsedExpressionIsSound(rest);
    case _ =>
  }

  lemma {:induction false} ParsedSequenceIsSound(input: seq<Token>)
    requires ParseWhenSequence(input).ok
    ensures IsNaiveSequence(ParseWhenSequence(input).tree)
    decreases |input|
  {
    if LookAhead(input).ConditionalWhen? {
      ParsedExpressionIsSound(Skip(input));
      var (next, _) := ExpectAction(ParseExpression(Skip(input)).rest);
      if LookAhead(next).Action? {
        ParsedActionIsSound(next);
        ParsedSequenceIsSound(ParseAction(next).rest);
      } else if LookAhead(next).ConditionalWhen? {
        ParsedSequenceIsSound(next);
      }
    }
  }

  lemma RotatedActionIsWellRead<R>(table: OperatorTable, t: Tree<R>)
    requires ProperTable(table) && IsNaiveAction(t)
    ensures WellReadAction(table, Rotated(table, t))
  {
    if IsExpression(t) {
      RotatedNaiveIsWellRead(table, t);
    } else if t.Prefix? {
      RotatedNaiveIsWellRead(table, t.arg);
    }
  }

  lemma {:induction false} RotatedSequenceIsWellRead<R>(table: OperatorTable, t: Tree<R>)
    requires ProperTable(table) && IsNaiveSequence(t)
    ensures WellReadBody(table, Rotated(table, t))
  {
    match t
    case Nil =>
    case When(_, cond, action, next) =>
      RotatedNaiveIsWellRead(table, cond);
      RotatedActionIsWellRead(table, action);
      RotatedSequenceIsWellRead(table, next);
    case OpenWhen(_, cond, next) =>
      RotatedNaiveIsWellRead(table, cond);
      RotatedSequenceIsWellRead(table, next);
  }

  lemma {:induction false} NaiveSequenceIsSequence<R>(t: Tree<R>)
    requires IsNaiveSequence(t)
    ensures IsWhenSequence(t)
  {
    match t
    case Nil =>
    case When(_, _, _, next) => NaiveSequenceIsSequence(next);
    case OpenWhen(_, _, next) => NaiveSequenceIsSequence(next);
  }

  /** In every error-free body, each condition, each amount and each returned
      expression is read in the conventional way after rotation. */
  lemma ErrorFreeBodyIsWellRead(table: OperatorTable, input: seq<Token>)
    requires ProperTable(table) && ParseBody(input).ok
    ensures IsBody(ParseBody(input).tree) && WellReadBody(table, Rotated(table, ParseBody(input).tree))
  {
    if IsEnd(LookAhead(input)) {
    } else if LookAhead(input).ConditionalWhen? {
      ParsedSequenceIsSound(input);
      NaiveSequenceIsSequence(ParseWhenSequence(input).tree);
      RotatedSequenceIsWellRead(table, ParseWhenSequence(input).tree);
    } else {
      ParsedExpressionIsSound(input);
      RotatedActionIsWellRead(table, ParseExpression(input).tree);
    }
  }
}
