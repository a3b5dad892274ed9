/** How function bodies are written, independently of the parser: which words call
    an action, what stands behind them, and which tree is meant. Parsing finds
    exactly the bodies that are written so. */
module WrittenBodies {
  import opened Common
  import opened Tokens
  import opened ParseTrees
  import opened Precedence
  import opened ExpressionParser
  import opened FunctionBodies

  // ---------- Words ----------

  /** What an action is called. */
  function OwnWord(action: ActionKind): string {
    match action
    case Beep => "Beep" case Fold => "Fold" case Check => "Check" case Call => "Call"
    case Raise => "Raise" case RaiseTo => "RaiseTo" case RaiseBy => "RaiseBy"
    case RaiseFourthPot => "RaiseFourthPot" case RaiseThirdPot => "RaiseThirdPot"
    case RaiseHalfPot => "RaiseHalfPot" case RaiseTwoThirdPot => "RaiseTwoThirdPot"
    case RaiseThreeFourthPot => "RaiseThreeFourthPot" case RaisePot => "RaisePot" case RaiseMax => "RaiseMax"
    case Return => "Return" case SetUserVariable => "Set"
  }

  /** Other words for the same action: a bet is a raise, the least one if no size is told. */
  function OtherWords(action: ActionKind): set<string> {
    match action
    case Call => {"Play"}
    case Raise => {"Bet", "BetMin", "RaiseMin"}
    case RaiseFourthPot => {"BetFourthPot"} case RaiseThirdPot => {"BetThirdPot"}
    case RaiseHalfPot => {"BetHalfPot"} case RaiseTwoThirdPot => {"BetTwoThirdPot"}
    case RaiseThreeFourthPot => {"BetThreeFourthPot"} case RaisePot => {"BetPot"}
    case RaiseMax => {"BetMax", "Allin"}
    case _ => {}
  }

  /** Return is a keyword of its own. */
  predicate IsWordFor(word: string, action: ActionKind) {
    !action.Return? && (word == OwnWord(action) || word in OtherWords(action))
  }

  lemma EntryIsWord(i: nat)
    requires i < |ACTION_NAMES|
    ensures IsWordFor(ACTION_NAMES[i].0, ACTION_NAMES[i].1)
  {
  }

  /** Tells the entries apart by length, first and last letter but one, in lower case. */
  function Place(lower: string): nat
    requires |lower| >= 3
  {
    var n, a, b := |lower|, lower[0], lower[|lower| - 2];
    if n == 3 then if a == 'b' then 0 else 26
    else if n == 4 then if a == 'c' then 1 else if a == 'f' then 2 else if a == 'p' then 3 else 4
    else if n == 5 then if a == 'r' then 5 else if a == 'c' then 8 else 9
    else if n == 6 then if b == 'i' then 10 else if b == 'o' then 16 else 17
    else if n == 7 then if b == 't' then 6 else 7
    else if n == 8 then if b == 'i' then 18 else if b == 'o' then 24 else 25
    else if n == 10 then 13
    else if n == 11 then 12
    else if n == 12 then if a == 'b' then 11 else 21
    else if n == 13 then 20
    else if n == 14 then if a == 'b' then 14 else 19
    else if n == 16 then 22
    else if n == 17 then 15
    else 23
  }

  lemma PlaceOfEntry(i: nat)
    requires i < |ACTION_NAMES|
    ensures |ACTION_NAMES[i].0| >= 3 && Place(LowerCase(ACTION_NAMES[i].0)) == i
  {
  }

  ghost predicate IsEntry(word: string, action: ActionKind) {
    exists i: nat :: i < |ACTION_NAMES| && ACTION_NAMES[i] == (word, action)
  }

  lemma OwnWordIsEntry(action: ActionKind)
    requires !action.Return?
    ensures IsEntry(OwnWord(action), action)
  {
    var i: nat := match action
      case Call => 1 case Fold => 2 case Beep => 4 case Raise => 5 case RaiseTo => 6 case RaiseBy => 7
      case Check => 8 case RaiseFourthPot => 19 case RaiseThirdPot => 20 case RaiseHalfPot => 21
      case RaiseTwoThirdPot => 22 case RaiseThreeFourthPot => 23 case RaisePot => 24 case RaiseMax => 25
      case SetUserVariable => 26;
    assert ACTION_NAMES[i] == (OwnWord(action), action);
  }

  lemma OtherWordIsEntry(word: string, action: ActionKind)
    requires word in OtherWords(action)
    ensures IsEntry(word, action)
  {
    var i: nat := match action
      case Call => 3 case RaiseFourthPot => 11 case RaiseThirdPot => 12 case RaiseHalfPot => 13
      case RaiseTwoThirdPot => 14 case RaiseThreeFourthPot => 15 case RaisePot => 16
      case Raise => if word == "Bet" then 0 else if word == "BetMin" then 10 else 18
      case RaiseMax => if word == "Allin" then 9 else 17;
    assert ACTION_NAMES[i] == (word, action);
  }

  lemma WordIsEntry(word: string, action: ActionKind)
    requires IsWordFor(word, action)
    ensures IsEntry(word, action)
  {
    hide IsEntry, OtherWords, OwnWord;
    if word == OwnWord(action) {
      OwnWordIsEntry(action);
    } else {
      OtherWordIsEntry(word, action);
    }
  }

  lemma {:induction false} IndexOfEntry(i: nat, from: nat)
    requires from <= i < |ACTION_NAMES|
    ensures ActionIndex(ACTION_NAMES[i].0, from) == i
    decreases i - from
  {
    hide Place;
    PlaceOfEntry(i);
    PlaceOfEntry(from);
    if from < i {
      IndexOfEntry(i, from + 1);
    }
  }

  /** The word table has exactly these words, each for its action, and finds them. */
  lemma TableHasTheWords(word: string, action: ActionKind)
    ensures IsWordFor(word, action) <==>
              var i := ActionIndex(word, 0); i < |ACTION_NAMES| && ACTION_NAMES[i] == (word, action)
  {
    hide Place, IsWordFor, ActionIndex;
    var i := ActionIndex(word, 0);
    if IsWordFor(word, action) {
      WordIsEntry(word, action);
      var k: nat :| k < |ACTION_NAMES| && ACTION_NAMES[k] == (word, action);
      IndexOfEntry(k, 0);
    } else if i < |ACTION_NAMES| {
      EntryIsWord(i);
    }
  }

  /** The node of a predefined action is named after it, if the action has a string. */
  lemma NodeHasOwnWord(action: ActionKind)
    ensures ActionName(action) == if HasName(action) then OwnWord(action) else "Error: invalid token ID"
  {
  }

  /** A user variable begins with "user" in any letter case, a memory command with "me_". */
  lemma VariableNamesAre(name: string)
    ensures IsUserVariableName(name) <==>
              || (exists prefix: string, rest: string :: LowerCase(prefix) == "user" && name == prefix + rest)
              || (exists rest: string :: name == "me_" + rest)
  {
    if IsUserVariableName(name) {
      if |name| >= 4 && LowerCase(name[..4]) == "user" {
        assert name == name[..4] + name[4..];
      } else {
        assert name == "me_" + name[3..];
      }
    }
    if prefix: string, rest: string :| LowerCase(prefix) == "user" && name == prefix + rest {
      assert name[..4] == prefix;
    }
  }

  // ---------- Bodies and how they are written ----------

  datatype Order =
    | Do(action: ActionKind)
    | ReturnValue(value: Tree<()>)
    | RaiseToAmount(value: Tree<()>)
    | RaiseByAmount(value: Tree<()>)
    | RaiseByPercentage(value: Tree<()>)
    | SetVariable(name: string)

  /** A when-condition, open-ended or with an order that begins with some word. */
  datatype Line =
    | OpenLine(cond: Tree<()>)
    | OrderLine(cond: Tree<()>, word: Token, order: Order)

  datatype Body = Nothing | Single(value: Tree<()>) | Lines(lines: seq<Line>)

  function ActionOf(order: Order): ActionKind {
    match order
    case Do(action) => action
    case ReturnValue(_) => Return
    case RaiseToAmount(_) => RaiseTo
    case RaiseByAmount(_) | RaiseByPercentage(_) => RaiseBy
    case SetVariable(_) => SetUserVariable
  }

  /** The token stands for the action, or the identifier is a word for it. */
  predicate Calls(word: Token, action: ActionKind) {
    word == Action(action) || (word.Identifier? && IsWordFor(word.name, action))
  }

  function AfterWord(order: Order): seq<Token> {
    match order
    case Do(_) => [KeywordForce]
    case ReturnValue(value) => Spelling(value) + [KeywordForce]
    case RaiseToAmount(value) => Spelling(value) + [KeywordForce]
    case RaiseByAmount(value) => Spelling(value) + [KeywordForce]
    case RaiseByPercentage(value) => Spelling(value) + [Binary(Percentage), KeywordForce]
    case SetVariable(name) => [Identifier(name)]
  }

  function WrittenLine(line: Line): seq<Token> {
    match line
    case OpenLine(cond) => [ConditionalWhen] + Spelling(cond)
    case OrderLine(cond, word, order) => [ConditionalWhen] + Spelling(cond) + [word] + AfterWord(order)
  }

  function WrittenLines(lines: seq<Line>): seq<Token> {
    if lines == [] then [] else WrittenLine(lines[0]) + WrittenLines(lines[1..])
  }

  function Written(body: Body): seq<Token> {
    match body
    case Nothing => []
    case Single(value) => Spelling(value)
    case Lines(lines) => WrittenLines(lines)
  }

  // ---------- The trees that are meant ----------

  function OrderTree(order: Order): Tree<()> {
    match order
    case Do(action) => Atom((), Identifier(if HasName(action) then OwnWord(action) else "Error: invalid token ID"))
    case ReturnValue(value) => value
    case RaiseToAmount(value) => Prefix((), RaiseToBigBlinds, [], value)
    case RaiseByAmount(value) => Prefix((), RaiseByBigBlinds, [], value)
    case RaiseByPercentage(value) => Prefix((), RaiseByPercentagedPotsize, [], value)
    case SetVariable(name) => Atom((), UserVariable(name))
  }

  function LinesTree(lines: seq<Line>): Tree<()> {
    if lines == [] then Nil
    else if lines[0].OpenLine? then OpenWhen((), lines[0].cond, LinesTree(lines[1..]))
    else When((), lines[0].cond, OrderTree(lines[0].order), LinesTree(lines[1..]))
  }

  function BodyTree(body: Body): Tree<()> {
    match body
    case Nothing => Atom((), Number("0"))
    case Single(value) => value
    case Lines(lines) => LinesTree(lines)
  }

  // ---------- Bodies whose expressions are all good ----------

  /** An amount begins with a number, an identifier or a bracket. */
  predicate StartsPlain(tokens: seq<Token>) {
    tokens != [] && (tokens[0].Number? || tokens[0].Identifier? || tokens[0].BracketOpen?)
  }

  ghost predicate IsOrder(good: Tree<()> -> bool, order: Order) {
    match order
    case Do(a) => !a.Return? && !a.RaiseTo? && !a.RaiseBy? && !a.SetUserVariable?
    case ReturnValue(value) => good(value)
    case SetVariable(name) => IsUserVariableName(name)
    case _ => good(order.value) && StartsPlain(Spelling(order.value))
  }

  ghost predicate IsLine(good: Tree<()> -> bool, line: Line) {
    good(line.cond) && (line.OrderLine? ==> Calls(line.word, ActionOf(line.order)) && IsOrder(good, line.order))
  }

  ghost predicate IsWritten(good: Tree<()> -> bool, body: Body) {
    match body
    case Nothing => true
    case Single(value) => good(value)
    case Lines(lines) => lines != [] && forall i | 0 <= i < |lines| :: IsLine(good, lines[i])
  }

  predicate IsNaiveExpression(t: Tree<()>) {
    IsExpression(t) && IsNaive(t)
  }

  // ---------- What is written is parsed ----------

  lemma NoInfixEnds(rest: seq<Token>)
    requires !IsInfix(LookAhead(rest))
    ensures !Continues(rest)
  {
  }

  lemma ExpressionIsRead(t: Tree<()>, rest: seq<Token>, input: seq<Token>)
    requires IsNaiveExpression(t) && !Continues(rest) && input == Spelling(t) + rest
    ensures ParseExpression(input) == Parsed(t, rest, true)
  {
    ExpressionIsParsed(t, rest);
  }

  lemma ForceIsRead(t: Tree<()>, rest: seq<Token>)
    requires !LookAhead(rest).UnsupportedDelay?
    ensures ThenForce(Parsed(t, [KeywordForce] + rest, true)) == Parsed(t, rest, true)
  {
    LookAheadOf(KeywordForce, rest);
  }

  lemma AmountIsParsed(kind: Token, t: Tree<()>, rest: seq<Token>)
    requires kind.RaiseToBigBlinds? || kind.RaiseByBigBlinds?
    requires IsNaiveExpression(t) && StartsPlain(Spelling(t)) && !LookAhead(rest).UnsupportedDelay?
    ensures ParseAmount(kind, Spelling(t) + ([KeywordForce] + rest))
            == Parsed(Prefix((), kind, [], t), [KeywordForce] + rest, true)
    ensures ParseAmount(RaiseByBigBlinds, Spelling(t) + ([Binary(Percentage)] + ([KeywordForce] + rest)))
            == Parsed(Prefix((), RaiseByPercentagedPotsize, [], t), [KeywordForce] + rest, true)
  {
    hide ParseExpression, IsExpression, IsNaive, Spelling;
    LookAheadOf(KeywordForce, rest);
    LookAheadOf(Binary(Percentage), [KeywordForce] + rest);
    ExpressionIsParsed(t, [KeywordForce] + rest);
    ExpressionIsParsed(t, [Binary(Percentage)] + ([KeywordForce] + rest));
  }

  /** The tokens of an action, from the token that calls it. */
  function FromAction(order: Order, rest: seq<Token>): seq<Token> {
    [Action(ActionOf(order))] + (AfterWord(order) + rest)
  }

  /** What stands behind the word, up to the keyword at the end. */
  lemma AfterWordIs(order: Order, rest: seq<Token>)
    ensures var after, ends := AfterWord(order) + rest, [KeywordForce] + rest;
            match order
            case Do(_) => after == ends
            case RaiseByPercentage(_) => after == Spelling(order.value) + ([Binary(Percentage)] + ends)
            case SetVariable(_) => after == [Identifier(order.name)] + rest
            case _ => after == Spelling(order.value) + ends
  {
    hide Spelling;
  }

  lemma OrderBodyIsParsed(order: Order, rest: seq<Token>)
    requires IsOrder(IsNaiveExpression, order) && !LookAhead(rest).UnsupportedDelay?
    ensures ParseActionBody(FromAction(order, rest))
            == Parsed(OrderTree(order), if order.SetVariable? then rest else [KeywordForce] + rest, true)
  {
    hide ParseExpression, ParseAmount, IsNaiveExpression, Spelling, AfterWord, OwnWord, ActionName;
    LookAheadOf(Action(ActionOf(order)), AfterWord(order) + rest);
    LookAheadOf(KeywordForce, rest);
    AfterWordIs(order, rest);
    match order
    case Do(action) => NodeHasOwnWord(action);
    case ReturnValue(t) =>
      NoInfixEnds([KeywordForce] + rest);
      ExpressionIsRead(t, [KeywordForce] + rest, Spelling(t) + ([KeywordForce] + rest));
    case RaiseToAmount(t) => AmountIsParsed(RaiseToBigBlinds, t, rest);
    case RaiseByAmount(t) => AmountIsParsed(RaiseByBigBlinds, t, rest);
    case RaiseByPercentage(t) => AmountIsParsed(RaiseByBigBlinds, t, rest);
    case SetVariable(name) => LookAheadOf(Identifier(name), rest);
  }

  lemma OrderIsParsed(order: Order, rest: seq<Token>)
    requires IsOrder(IsNaiveExpression, order) && !LookAhead(rest).UnsupportedDelay?
    ensures ParseAction(FromAction(order, rest)) == Parsed(OrderTree(order), rest, true)
  {
    hide ParseActionBody, ThenForce, OrderTree, AfterWord;
    LookAheadOf(Action(ActionOf(order)), AfterWord(order) + rest);
    ForceIsRead(OrderTree(order), rest);
    OrderBodyIsParsed(order, rest);
  }

  /** A word for an action is taken as the action. */
  lemma WordIsAction(word: Token, action: ActionKind, tail: seq<Token>)
    requires Calls(word, action)
    ensures ExpectAction([word] + tail) == ([Action(action)] + tail, true)
    ensures !IsInfix(word)
  {
    hide IsWordFor, ActionIndex;
    if word.Identifier? {
      TableHasTheWords(word.name, action);
    }
  }

  ghost predicate AreLines(good: Tree<()> -> bool, lines: seq<Line>) {
    forall i | 0 <= i < |lines| :: IsLine(good, lines[i])
  }

  lemma StartOfLines(lines: seq<Line>, rest: seq<Token>)
    requires IsEnd(LookAhead(rest))
    ensures var next := LookAhead(WrittenLines(lines) + rest);
            if lines == [] then IsEnd(next) else next.ConditionalWhen?
  {
    if lines == [] {
      assert WrittenLines(lines) + rest == rest;
    } else {
      var line := WrittenLine(lines[0]);
      assert line[0].ConditionalWhen?;
      assert (line + WrittenLines(lines[1..]) + rest)[0] == line[0];
    }
  }

  lemma LinesUnfold(lines: seq<Line>)
    ensures lines == [] ==> WrittenLines(lines) == [] && LinesTree(lines) == Nil
    ensures lines != [] ==> WrittenLines(lines) == WrittenLine(lines[0]) + WrittenLines(lines[1..])
    ensures lines != [] ==>
              LinesTree(lines) == if lines[0].OpenLine? then OpenWhen((), lines[0].cond, LinesTree(lines[1..]))
                                  else When((), lines[0].cond, OrderTree(lines[0].order), LinesTree(lines[1..]))
  {
  }

  lemma NoActionExpected(tail: seq<Token>)
    requires !LookAhead(tail).Identifier?
    ensures ExpectAction(tail) == (tail, true)
  {
  }

  lemma OpenLineCases(input: seq<Token>, cond: Tree<()>, tail: seq<Token>, others: Parsed)
    requires LookAhead(input).ConditionalWhen?
    requires ParseExpression(Skip(input)) == Parsed(cond, tail, true) && ExpectAction(tail) == (tail, true)
    requires LookAhead(tail).ConditionalWhen? || (IsEnd(LookAhead(tail)) && others == Parsed(Nil, tail, true))
    requires ParseWhenSequence(tail) == others
    ensures ParseWhenSequence(input) == Parsed(OpenWhen((), cond, others.tree), others.rest, others.ok)
  {
  }

  lemma OpenLineIsParsed(cond: Tree<()>, tail: seq<Token>, others: Parsed)
    requires IsNaiveExpression(cond)
    requires LookAhead(tail).ConditionalWhen? || (IsEnd(LookAhead(tail)) && others == Parsed(Nil, tail, true))
    requires ParseWhenSequence(tail) == others
    ensures ParseWhenSequence(WrittenLine(OpenLine(cond)) + tail)
            == Parsed(OpenWhen((), cond, others.tree), others.rest, others.ok)
  {
    hide ParseExpression, ParseWhenSequence, ExpectAction, Spelling, IsExpression, IsNaive;
    var input := WrittenLine(OpenLine(cond)) + tail;
    assert input == [ConditionalWhen] + (Spelling(cond) + tail);
    LookAheadOf(ConditionalWhen, Spelling(cond) + tail);
    NoInfixEnds(tail);
    ExpressionIsRead(cond, tail, Skip(input));
    NoActionExpected(tail);
    OpenLineCases(input, cond, tail, others);
  }

  lemma OrderLineCases(input: seq<Token>, cond: Tree<()>, afterCond: seq<Token>, action: seq<Token>, order: Parsed,
                       others: Parsed)
    requires LookAhead(input).ConditionalWhen?
    requires ParseExpression(Skip(input)) == Parsed(cond, afterCond, true)
    requires ExpectAction(afterCond) == (action, true) && LookAhead(action).Action?
    requires ParseAction(action) == order && ParseWhenSequence(order.rest) == others
    ensures ParseWhenSequence(input)
            == Parsed(When((), cond, order.tree, others.tree), others.rest, order.ok && others.ok)
  {
  }

  lemma OrderLineIsParsed(cond: Tree<()>, word: Token, order: Order, tail: seq<Token>, others: Parsed)
    requires IsNaiveExpression(cond) && Calls(word, ActionOf(order)) && IsOrder(IsNaiveExpression, order)
    requires !LookAhead(tail).UnsupportedDelay? && ParseWhenSequence(tail) == others
    ensures ParseWhenSequence(WrittenLine(OrderLine(cond, word, order)) + tail)
            == Parsed(When((), cond, OrderTree(order), others.tree), others.rest, others.ok)
  {
    hide ParseExpression, ParseWhenSequence, ParseAction, ExpectAction, Spelling, IsExpression, IsNaive, Calls;
    hide AfterWord, OrderTree, IsOrder, ActionOf;
    var input := WrittenLine(OrderLine(cond, word, order)) + tail;
    var after := AfterWord(order) + tail;
    assert input == [ConditionalWhen] + (Spelling(cond) + ([word] + after));
    LookAheadOf(ConditionalWhen, Spelling(cond) + ([word] + after));
    WordIsAction(word, ActionOf(order), after);
    LookAheadOf(word, after);
    LookAheadOf(Action(ActionOf(order)), after);
    NoInfixEnds([word] + after);
    ExpressionIsRead(cond, [word] + after, Skip(input));
    OrderIsParsed(order, tail);
    OrderLineCases(input, cond, [word] + after, FromAction(order, tail), Parsed(OrderTree(order), tail, true), others);
  }

  lemma NoLinesAreParsed(rest: seq<Token>)
    requires !LookAhead(rest).ConditionalWhen?
    ensures ParseWhenSequence(rest) == Parsed(Nil, rest, true)
  {
  }

  lemma {:induction false} LinesAreParsed(lines: seq<Line>, rest: seq<Token>)
    requires AreLines(IsNaiveExpression, lines) && IsEnd(LookAhead(rest))
    ensures ParseWhenSequence(WrittenLines(lines) + rest) == Parsed(LinesTree(lines), rest, true)
    decreases |lines|
  {
    hide ParseWhenSequence, IsNaiveExpression, IsOrder, Calls, WrittenLine, OrderTree, WrittenLines, LinesTree;
    LinesUnfold(lines);
    if lines == [] {
      assert WrittenLines(lines) + rest == rest;
      NoLinesAreParsed(rest);
    } else {
      var line, tail := lines[0], WrittenLines(lines[1..]) + rest;
      assert IsLine(IsNaiveExpression, line);
      assert WrittenLines(lines) + rest == WrittenLine(line) + tail;
      StartOfLines(lines[1..], rest);
      LinesAreParsed(lines[1..], rest);
      LinesUnfold(lines[1..]);
      var others := Parsed(LinesTree(lines[1..]), rest, true);
      match line
      case OpenLine(cond) =>
        if lines[1..] == [] { assert tail == rest; }
        OpenLineIsParsed(cond, tail, others);
      case OrderLine(cond, word, order) => OrderLineIsParsed(cond, word, order, tail, others);
    }
  }

  lemma StartOfExpression(t: Tree<()>, rest: seq<Token>)
    requires IsExpression(t)
    ensures var next := LookAhead(Spelling(t) + rest); !IsEnd(next) && !next.ConditionalWhen?
  {
    hide Opening;
    match t
    case Infix(_, token, left, mid, right) =>
      var others := Opening(token, Spelling(mid)) + Spelling(right);
      StartOfExpression(left, others + rest);
      assert Spelling(t) + rest == Spelling(left) + (others + rest);
    case _ =>
  }

  /** Every right-nested body is what parsing makes of the tokens it is written with. */
  lemma NaiveBodyIsParsed(body: Body, rest: seq<Token>)
    requires IsWritten(IsNaiveExpression, body) && IsEnd(LookAhead(rest))
    ensures ParseBodyOnly(Written(body) + rest) == Parsed(BodyTree(body), rest, true)
  {
    hide ParseExpression, ParseWhenSequence, WrittenLines, LinesTree, IsLine;
    match body
    case Nothing => assert [] + rest == rest;
    case Single(t) =>
      StartOfExpression(t, rest);
      NoInfixEnds(rest);
      ExpressionIsParsed(t, rest);
    case Lines(lines) =>
      StartOfLines(lines, rest);
      LinesAreParsed(lines, rest);
  }

  // ---------- What is parsed is written ----------

  /** These tokens are read as that order. */
  ghost predicate IsOrderOf(order: Order, action: ActionKind, after: seq<Token>, p: Parsed) {
    && IsOrder(IsNaiveExpression, order) && ActionOf(order) == action
    && after == AfterWord(order) + p.rest && OrderTree(order) == p.tree
  }

  lemma ForceWasRead(p: Parsed)
    requires ThenForce(p).ok
    ensures p.ok && p.rest == [KeywordForce] + ThenForce(p).rest && ThenForce(p).tree == p.tree
  {
  }

  lemma AmountIsWritten(kind: Token, input: seq<Token>)
    requires kind.RaiseToBigBlinds? || kind.RaiseByBigBlinds?
    requires ParseAmount(kind, input).ok
    ensures var amount := ParseExpression(input);
            && IsNaiveExpression(amount.tree) && StartsPlain(Spelling(amount.tree))
            && input == Spelling(amount.tree) + amount.rest
            && ParseAmount(kind, input) ==
                 if kind.RaiseByBigBlinds? && LookAhead(amount.rest) == Binary(Percentage)
                 then Parsed(Prefix((), RaiseByPercentagedPotsize, [], amount.tree), Skip(amount.rest), true)
                 else Parsed(Prefix((), kind, [], amount.tree), amount.rest, true)
  {
    hide ParseExpression;
    ParsedExpressionIsSound(input);
    SpellingIsThere(ParseExpression(input).tree);
  }

  lemma SpellingIsThere(t: Tree<()>)
    requires IsExpression(t)
    ensures Spelling(t) != []
  {
  }

  ghost function AmountOrder(kind: Token, input: seq<Token>): Order {
    var amount := ParseExpression(input);
    if kind.RaiseToBigBlinds? then RaiseToAmount(amount.tree)
    else if LookAhead(amount.rest) == Binary(Percentage) then RaiseByPercentage(amount.tree)
    else RaiseByAmount(amount.tree)
  }

  lemma PlainAmountIsOrder(kind: Token, t: Tree<()>, rest: seq<Token>)
    requires kind.RaiseToBigBlinds? || kind.RaiseByBigBlinds?
    requires IsNaiveExpression(t) && StartsPlain(Spelling(t))
    ensures IsOrderOf(if kind.RaiseToBigBlinds? then RaiseToAmount(t) else RaiseByAmount(t),
                      if kind.RaiseToBigBlinds? then RaiseTo else RaiseBy,
                      Spelling(t) + ([KeywordForce] + rest), Parsed(Prefix((), kind, [], t), rest, true))
  {
    hide IsNaiveExpression, StartsPlain, Spelling;
    assert Spelling(t) + ([KeywordForce] + rest) == Spelling(t) + [KeywordForce] + rest;
  }

  lemma PercentageIsOrder(t: Tree<()>, rest: seq<Token>)
    requires IsNaiveExpression(t) && StartsPlain(Spelling(t))
    ensures IsOrderOf(RaiseByPercentage(t), RaiseBy, Spelling(t) + ([Binary(Percentage)] + ([KeywordForce] + rest)),
                      Parsed(Prefix((), RaiseByPercentagedPotsize, [], t), rest, true))
  {
    hide IsNaiveExpression, StartsPlain, Spelling;
    assert Spelling(t) + ([Binary(Percentage)] + ([KeywordForce] + rest))
        == Spelling(t) + [Binary(Percentage), KeywordForce] + rest;
  }

  lemma AmountIsOrder(kind: Token, input: seq<Token>)
    requires kind.RaiseToBigBlinds? || kind.RaiseByBigBlinds?
    requires ThenForce(ParseAmount(kind, input)).ok
    ensures IsOrderOf(AmountOrder(kind, input), if kind.RaiseToBigBlinds? then RaiseTo else RaiseBy, input,
                      ThenForce(ParseAmount(kind, input)))
  {
    hide ParseExpression, IsNaiveExpression, Spelling, ParseAmount, IsOrderOf, StartsPlain;
    ForceWasRead(ParseAmount(kind, input));
    AmountIsWritten(kind, input);
    var amount := ParseExpression(input);
    var p := ThenForce(ParseAmount(kind, input));
    if kind.RaiseByBigBlinds? && LookAhead(amount.rest) == Binary(Percentage) {
      assert amount.rest == [Binary(Percentage)] + Skip(amount.rest);
      PercentageIsOrder(amount.tree, p.rest);
    } else {
      PlainAmountIsOrder(kind, amount.tree, p.rest);
    }
  }

  lemma ActionIsWritten(input: seq<Token>) returns (order: Order)
    requires LookAhead(input).Action? && ParseAction(input).ok
    ensures IsOrderOf(order, input[0].action, Skip(input), ParseAction(input))
  {
    hide ParseExpression, IsExpression, IsNaive, Spelling, ParseAmount, IsOrderOf;
    var after := Skip(input);
    match input[0].action
    case Return =>
      var p := ParseExpression(after);
      ForceWasRead(p);
      ParsedExpressionIsSound(after);
      order := ReturnValue(p.tree);
      ValueIsOrder(p, after);
    case RaiseTo =>
      order := AmountOrder(RaiseToBigBlinds, after);
      AmountIsOrder(RaiseToBigBlinds, after);
    case RaiseBy =>
      order := AmountOrder(RaiseByBigBlinds, after);
      AmountIsOrder(RaiseByBigBlinds, after);
    case SetUserVariable =>
      order := SetVariable(after[0].name);
      VariableIsOrder(input);
    case action =>
      order := Do(action);
      PredefinedIsOrder(input);
  }

  lemma ValueIsOrder(p: Parsed, after: seq<Token>)
    requires IsNaiveExpression(p.tree) && after == Spelling(p.tree) + p.rest && ThenForce(p).ok
    ensures IsOrderOf(ReturnValue(p.tree), Return, after, ThenForce(p))
  {
    hide IsNaiveExpression, Spelling, ThenForce;
    ForceWasRead(p);
    assert Spelling(p.tree) + ([KeywordForce] + ThenForce(p).rest)
        == Spelling(p.tree) + [KeywordForce] + ThenForce(p).rest;
  }

  lemma VariableIsOrder(input: seq<Token>)
    requires LookAhead(input) == Action(SetUserVariable) && ParseAction(input).ok
    ensures Skip(input) != [] && Skip(input)[0].Identifier?
    ensures IsOrderOf(SetVariable(Skip(input)[0].name), SetUserVariable, Skip(input), ParseAction(input))
  {
    assert Skip(input) == [Skip(input)[0]] + Skip(Skip(input));
  }

  lemma PredefinedIsOrder(input: seq<Token>)
    requires LookAhead(input).Action? && ParseAction(input).ok
    requires var a := input[0].action; !a.Return? && !a.RaiseTo? && !a.RaiseBy? && !a.SetUserVariable?
    ensures IsOrderOf(Do(input[0].action), input[0].action, Skip(input), ParseAction(input))
  {
    NodeHasOwnWord(input[0].action);
    ForceWasRead(ParseActionBody(input));
  }

  lemma ActionIsExpected(input: seq<Token>)
    requires ExpectAction(input).1 && LookAhead(ExpectAction(input).0).Action?
    ensures var action := ExpectAction(input).0[0].action;
            input != [] && Calls(input[0], action) && ExpectAction(input).0 == [Action(action)] + Skip(input)
  {
    hide IsWordFor, ActionIndex;
    if input[0].Identifier? {
      TableHasTheWords(input[0].name, ExpectAction(input).0[0].action);
    }
  }

  lemma NoActionIsExpected(input: seq<Token>)
    requires !LookAhead(ExpectAction(input).0).Action?
    ensures ExpectAction(input).0 == input
  {
  }

  lemma OpenLineIsWritten(input: seq<Token>, cond: Tree<()>, tail: seq<Token>, lines: seq<Line>, rest: seq<Token>)
    requires LookAhead(input).ConditionalWhen? && Skip(input) == Spelling(cond) + tail
    requires tail == WrittenLines(lines) + rest
    ensures input == WrittenLines([OpenLine(cond)] + lines) + rest
    ensures LinesTree([OpenLine(cond)] + lines) == OpenWhen((), cond, LinesTree(lines))
  {
    hide Spelling, WrittenLines, LinesTree;
    assert ([OpenLine(cond)] + lines)[1..] == lines;
    LinesUnfold([OpenLine(cond)] + lines);
    assert input == [ConditionalWhen] + (Spelling(cond) + (WrittenLines(lines) + rest));
  }

  lemma OrderLineIsWritten(input: seq<Token>, line: Line, tail: seq<Token>, lines: seq<Line>, rest: seq<Token>)
    requires LookAhead(input).ConditionalWhen? && line.OrderLine?
    requires Skip(input) == Spelling(line.cond) + ([line.word] + (AfterWord(line.order) + tail))
    requires tail == WrittenLines(lines) + rest
    ensures input == WrittenLines([line] + lines) + rest
    ensures LinesTree([line] + lines) == When((), line.cond, OrderTree(line.order), LinesTree(lines))
  {
    hide AfterWord, OrderTree, Spelling, WrittenLines, LinesTree;
    assert ([line] + lines)[1..] == lines;
    LinesUnfold([line] + lines);
    RegroupLine([ConditionalWhen], Spelling(line.cond), [line.word], AfterWord(line.order), WrittenLines(lines), rest);
    assert input == [ConditionalWhen] + Skip(input);
  }

  lemma RegroupLine(a: seq<Token>, b: seq<Token>, c: seq<Token>, d: seq<Token>, e: seq<Token>, f: seq<Token>)
    ensures a + (b + (c + (d + (e + f)))) == a + b + c + d + e + f
  {
  }

  lemma OneMoreLine(line: Line, lines: seq<Line>)
    requires IsLine(IsNaiveExpression, line) && AreLines(IsNaiveExpression, lines)
    ensures AreLines(IsNaiveExpression, [line] + lines)
  {
  }

  /** What the parser does with a sequence that has no error. */
  lemma SequenceCases(input: seq<Token>)
    requires LookAhead(input).ConditionalWhen? && ParseWhenSequence(input).ok
    ensures var cond := ParseExpression(Skip(input));
            var (next, named) := ExpectAction(cond.rest);
            && cond.ok && |next| < |input|
            && if LookAhead(next).Action? then
                 var action := ParseAction(next);
                 var others := ParseWhenSequence(action.rest);
                 && named && action.ok && others.ok && |action.rest| < |input|
                 && ParseWhenSequence(input)
                    == Parsed(When((), cond.tree, action.tree, others.tree), others.rest, true)
               else
                 var others := ParseWhenSequence(next);
                 && others.ok
                 && ParseWhenSequence(input) == Parsed(OpenWhen((), cond.tree, others.tree), others.rest, true)
  {
  }

  lemma {:induction false} SequenceIsWritten(input: seq<Token>) returns (lines: seq<Line>)
    requires ParseWhenSequence(input).ok
    ensures AreLines(IsNaiveExpression, lines)
    ensures var p := ParseWhenSequence(input); input == WrittenLines(lines) + p.rest && LinesTree(lines) == p.tree
    ensures LookAhead(input).ConditionalWhen? ==> lines != []
    decreases |input|
  {
    hide ParseExpression, ParseWhenSequence, ParseAction, ExpectAction, IsExpression, IsNaive, Spelling, Calls, IsOrder;
    hide WrittenLines, LinesTree;
    if !LookAhead(input).ConditionalWhen? {
      lines := [];
      NoLinesAreParsed(input);
      LinesUnfold([]);
      assert [] + input == input;
    } else {
      SequenceCases(input);
      var cond := ParseExpression(Skip(input));
      ParsedExpressionIsSound(Skip(input));
      var (next, _) := ExpectAction(cond.rest);
      if LookAhead(next).Action? {
        var order := ActionIsWritten(next);
        ActionIsExpected(cond.rest);
        var others := SequenceIsWritten(ParseAction(next).rest);
        var line := OrderLine(cond.tree, cond.rest[0], order);
        OrderIsLine(input, line, next);
        OrderLineIsWritten(input, line, ParseAction(next).rest, others, ParseWhenSequence(input).rest);
        OneMoreLine(line, others);
        lines := [line] + others;
      } else {
        NoActionIsExpected(cond.rest);
        var others := SequenceIsWritten(next);
        OpenLineIsWritten(input, cond.tree, next, others, ParseWhenSequence(input).rest);
        OneMoreLine(OpenLine(cond.tree), others);
        lines := [OpenLine(cond.tree)] + others;
      }
    }
  }

  lemma OrderIsLine(input: seq<Token>, line: Line, next: seq<Token>)
    requires line.OrderLine? && LookAhead(next).Action? && IsNaiveExpression(line.cond)
    requires IsOrderOf(line.order, next[0].action, Skip(next), ParseAction(next)) && Calls(line.word, next[0].action)
    requires var cond := ParseExpression(Skip(input));
             cond.rest != [] && line.word == cond.rest[0] && next == [Action(next[0].action)] + Skip(cond.rest)
    requires Skip(input) == Spelling(line.cond) + ParseExpression(Skip(input)).rest
    ensures IsLine(IsNaiveExpression, line)
    ensures Skip(input) == Spelling(line.cond) + ([line.word] + (AfterWord(line.order) + ParseAction(next).rest))
    ensures ParseAction(next).tree == OrderTree(line.order)
  {
    hide ParseExpression, ParseAction, IsExpression, IsNaive, Spelling, Calls, IsOrder, AfterWord, OrderTree;
    var cond := ParseExpression(Skip(input));
    assert Skip(next) == Skip(cond.rest);
    assert cond.rest == [line.word] + Skip(cond.rest);
  }

  lemma BodyIsWritten(input: seq<Token>) returns (body: Body)
    requires ParseBodyOnly(input).ok
    ensures IsWritten(IsNaiveExpression, body)
    ensures var p := ParseBodyOnly(input); input == Written(body) + p.rest && BodyTree(body) == p.tree
  {
    hide ParseExpression, ParseWhenSequence, IsExpression, IsNaive, Spelling, IsLine, WrittenLines, LinesTree;
    if IsEnd(LookAhead(input)) {
      body := Nothing;
      assert [] + input == input;
    } else if LookAhead(input).ConditionalWhen? {
      var lines := SequenceIsWritten(input);
      body := Lines(lines);
    } else {
      ParsedExpressionIsSound(input);
      body := Single(ParseExpression(input).tree);
    }
  }

  // ---------- The same for conventional readings ----------

  function OrderWith(f: Tree<()> -> Tree<()>, order: Order): Order {
    match order
    case Do(_) | SetVariable(_) => order
    case _ => order.(value := f(order.value))
  }

  function LineWith(f: Tree<()> -> Tree<()>, line: Line): Line {
    if line.OpenLine? then OpenLine(f(line.cond)) else OrderLine(f(line.cond), line.word, OrderWith(f, line.order))
  }

  /** The lines with other expressions. */
  function LinesWith(f: Tree<()> -> Tree<()>, lines: seq<Line>): (r: seq<Line>)
    ensures |r| == |lines| && forall i | 0 <= i < |lines| :: r[i] == LineWith(f, lines[i])
  {
    seq(|lines|, i requires 0 <= i < |lines| => LineWith(f, lines[i]))
  }

  function BodyWith(f: Tree<()> -> Tree<()>, body: Body): Body {
    match body
    case Nothing => Nothing
    case Single(value) => Single(f(value))
    case Lines(lines) => Lines(LinesWith(f, lines))
  }

  /** f makes better trees of good ones, with the same tokens. */
  ghost predicate Improves(f: Tree<()> -> Tree<()>, good: Tree<()> -> bool, better: Tree<()> -> bool) {
    forall t: Tree<()> | good(t) :: better(f(t)) && Spelling(f(t)) == Spelling(t)
  }

  lemma LineImproves(f: Tree<()> -> Tree<()>, good: Tree<()> -> bool, better: Tree<()> -> bool, line: Line)
    requires Improves(f, good, better) && IsLine(good, line)
    ensures IsLine(better, LineWith(f, line)) && WrittenLine(LineWith(f, line)) == WrittenLine(line)
  {
    hide Calls, StartsPlain, Spelling;
  }

  lemma {:induction false} LinesImprove(f: Tree<()> -> Tree<()>, good: Tree<()> -> bool, better: Tree<()> -> bool,
                                        lines: seq<Line>)
    requires Improves(f, good, better) && AreLines(good, lines)
    ensures AreLines(better, LinesWith(f, lines)) && WrittenLines(LinesWith(f, lines)) == WrittenLines(lines)
  {
    hide Improves, IsLine, LineWith, WrittenLine;
    if lines != [] {
      LineImproves(f, good, better, lines[0]);
      LinesImprove(f, good, better, lines[1..]);
      var r := LinesWith(f, lines);
      assert r[1..] == LinesWith(f, lines[1..]);
      assert forall i | 1 <= i < |r| :: r[i] == r[1..][i - 1];
    }
  }

  lemma BodyImproves(f: Tree<()> -> Tree<()>, good: Tree<()> -> bool, better: Tree<()> -> bool, body: Body)
    requires Improves(f, good, better) && IsWritten(good, body)
    ensures IsWritten(better, BodyWith(f, body)) && Written(BodyWith(f, body)) == Written(body)
  {
    hide IsLine, LinesWith;
    if body.Lines? {
      LinesImprove(f, good, better, body.lines);
    }
  }

  /** The expressions of a body, each rotated. */
  lemma RotatedOrder(table: OperatorTable, order: Order)
    ensures Rotated(table, OrderTree(order)) == OrderTree(OrderWith(t => Rotated(table, t), order))
  {
  }

  lemma {:induction false} RotatedLines(table: OperatorTable, lines: seq<Line>)
    ensures Rotated(table, LinesTree(lines)) == LinesTree(LinesWith(t => Rotated(table, t), lines))
  {
    hide OrderTree, OrderWith;
    if lines != [] {
      RotatedLines(table, lines[1..]);
      if lines[0].OrderLine? { RotatedOrder(table, lines[0].order); }
      assert LinesWith(t => Rotated(table, t), lines)[1..] == LinesWith(t => Rotated(table, t), lines[1..]);
    }
  }

  lemma RotatedBody(table: OperatorTable, body: Body)
    ensures Rotated(table, BodyTree(body)) == BodyTree(BodyWith(t => Rotated(table, t), body))
  {
    hide LinesTree, LinesWith;
    if body.Lines? {
      RotatedLines(table, body.lines);
    }
  }

  ghost predicate IsWellRead(table: OperatorTable, body: Body) {
    IsWritten(t => WellRead(table, t), body)
  }

  /** The naive body with the same tokens that rotation brings back. */
  lemma {:induction false} UnrolledLines(table: OperatorTable, lines: seq<Line>)
    requires ProperTable(table) && AreLines(t => WellRead(table, t), lines)
    ensures LinesWith(t => Rotated(table, t), LinesWith(t => Unrolled(t), lines)) == lines
  {
    hide WellRead, Calls;
    forall i | 0 <= i < |lines|
      ensures LineWith(t => Rotated(table, t), LineWith(t => Unrolled(t), lines[i])) == lines[i]
    {
      assert IsLine(t => WellRead(table, t), lines[i]);
      UnrolledLine(table, lines[i]);
    }
  }

  lemma UnrolledLine(table: OperatorTable, line: Line)
    requires ProperTable(table) && IsLine(t => WellRead(table, t), line)
    ensures LineWith(t => Rotated(table, t), LineWith(t => Unrolled(t), line)) == line
  {
    hide WellRead, Calls, Rotated, Unrolled, StartsPlain;
    RotatedUnrolled(table, line.cond);
    if line.OrderLine? && !line.order.Do? && !line.order.SetVariable? {
      RotatedUnrolled(table, line.order.value);
    }
  }

  lemma UnrolledBody(table: OperatorTable, body: Body)
    requires ProperTable(table) && IsWellRead(table, body)
    ensures BodyWith(t => Rotated(table, t), BodyWith(t => Unrolled(t), body)) == body
  {
    hide WellRead, Rotated, Unrolled, LinesWith, IsLine;
    match body
    case Nothing =>
    case Single(value) => RotatedUnrolled(table, value);
    case Lines(lines) => UnrolledLines(table, lines);
  }

  // ---------- Main results ----------

  /** Parsing and rotating the tokens of any body, with whatever words for its actions,
      gives the tree that is meant. */
  lemma EveryBodyIsFound(table: OperatorTable, body: Body, rest: seq<Token>)
    requires ProperTable(table) && IsWellRead(table, body) && IsEnd(LookAhead(rest))
    ensures var p := ParseBody(Written(body) + rest); p.ok && Rotated(table, p.tree) == BodyTree(body)
  {
    hide ParseBodyOnly, IsWritten, Written, BodyTree, BodyWith, WellRead, Rotated, Unrolled;
    var naive := BodyWith(t => Unrolled(t), body);
    assert Improves(t => Unrolled(t), t => WellRead(table, t), IsNaiveExpression) by {
      forall t: Tree<()> | WellRead(table, t)
        ensures IsNaiveExpression(Unrolled(t)) && Spelling(Unrolled(t)) == Spelling(t)
      {
        UnrolledIsNaive(table, t);
      }
    }
    BodyImproves(t => Unrolled(t), t => WellRead(table, t), IsNaiveExpression, body);
    NaiveBodyIsParsed(naive, rest);
    RotatedBody(table, naive);
    UnrolledBody(table, body);
  }

  lemma UnrolledIsNaive(table: OperatorTable, t: Tree<()>)
    requires WellRead(table, t)
    ensures IsNaiveExpression(Unrolled(t)) && Spelling(Unrolled(t)) == Spelling(t)
  {
    UnrolledShape(t);
  }

  /** Every body without error is written in that way: its tokens are those of a body
      whose tree is the one after rotation, and nothing else but the end follows. */
  lemma ErrorFreeBodyIsWritten(table: OperatorTable, input: seq<Token>)
    requires ProperTable(table) && ParseBody(input).ok
    ensures exists body: Body, rest: seq<Token> ::
              && IsWellRead(table, body) && IsEnd(LookAhead(rest)) && input == Written(body) + rest
              && BodyTree(body) == Rotated(table, ParseBody(input).tree)
  {
    hide ParseBodyOnly, IsWritten, Written, BodyTree, BodyWith, WellRead, Rotated, IsNaiveExpression;
    var naive := BodyIsWritten(input);
    assert Improves(t => Rotated(table, t), IsNaiveExpression, t => WellRead(table, t)) by {
      forall t: Tree<()> | IsNaiveExpression(t)
        ensures WellRead(table, Rotated(table, t)) && Spelling(Rotated(table, t)) == Spelling(t)
      {
        NaiveIsRotated(table, t);
      }
    }
    BodyImproves(t => Rotated(table, t), IsNaiveExpression, t => WellRead(table, t), naive);
    RotatedBody(table, naive);
    var body, rest := BodyWith(t => Rotated(table, t), naive), ParseBodyOnly(input).rest;
    assert IsWellRead(table, body) && IsEnd(LookAhead(rest)) && input == Written(body) + rest;
  }

  lemma NaiveIsRotated(table: OperatorTable, t: Tree<()>)
    requires ProperTable(table) && IsNaiveExpression(t)
    ensures WellRead(table, Rotated(table, t)) && Spelling(Rotated(table, t)) == Spelling(t)
  {
    RotatedNaiveIsWellRead(table, t);
  }

  /** The parser accepts exactly the tokens of bodies. */
  lemma AcceptedExactlyWhenWritten(table: OperatorTable, input: seq<Token>)
    requires ProperTable(table)
    ensures ParseBody(input).ok <==>
              exists body: Body, rest: seq<Token> ::
                IsWellRead(table, body) && IsEnd(LookAhead(rest)) && input == Written(body) + rest
  {
    hide ParseBody, IsWellRead, Written;
    if ParseBody(input).ok {
      ErrorFreeBodyIsWritten(table, input);
    }
    if body: Body, rest: seq<Token> :|
      IsWellRead(table, body) && IsEnd(LookAhead(rest)) && input == Written(body) + rest
    {
      EveryBodyIsFound(table, body, rest);
    }
  }
}
