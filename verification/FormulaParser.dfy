/** CFormulaParser: recursive descent over the tokens that builds parse-tree
    nodes on the heap. Each method is proved against the function of the same
    name on token sequences. */
module FormulaParser {
  import opened Tokens
  import opened ParseTrees
  import opened ParseTreeNodes
  import opened BackPatching
  import opened E = ExpressionParser
  import opened WhenLists
  import B = FunctionBodies

  /** The tree without its nodes. */
  function Erased<R>(t: Tree<R>): Tree<()> {
    match t
    case Nil => Nil
    case Atom(_, token) => Atom((), token)
    case Prefix(_, token, close, arg) => Prefix((), token, close, Erased(arg))
    case Infix(_, token, left, mid, right) => Infix((), token, Erased(left), Erased(mid), Erased(right))
    case When(_, cond, action, next) => When((), Erased(cond), Erased(action), Erased(next))
    case OpenWhen(_, cond, next) => OpenWhen((), Erased(cond), Erased(next))
  }

  /** A new tree on the heap. */
  ghost predicate Built(node: ParseTreeNode?, t: NodeTree)
    reads Nodes(t)
  {
    Linked(node, t) && Distinct(t)
  }

  method NewNode(token: Token, first: ParseTreeNode?, second: ParseTreeNode?, third: ParseTreeNode?)
    returns (node: ParseTreeNode)
    ensures fresh(node) && node.nodeType == token
    ensures node.first == first && node.second == second && node.third == third
  {
    node := new ParseTreeNode();
    node.nodeType := token;
    node.first, node.second, node.third := first, second, third;
  }

  lemma InfixIsBuilt(node: ParseTreeNode, t: NodeTree)
    requires t.Infix? && t.ref == node && node.nodeType == t.token
    requires Built(node.first, t.left)
    requires if t.token.ConditionalIf? then Built(node.second, t.mid) && Built(node.third, t.right)
             else Built(node.second, t.right) && t.mid.Nil? && node.third == null
    requires {node} !! Nodes(t.left) !! Nodes(t.mid) !! Nodes(t.right)
    ensures Built(node, t)
    ensures Nodes(t) == {node} + Nodes(t.left) + Nodes(t.mid) + Nodes(t.right)
    ensures Erased(t) == Infix((), t.token, Erased(t.left), Erased(t.mid), Erased(t.right))
  {
  }

  lemma NothingIsBuilt()
    ensures Built(null, Nil) && Nodes(Nil) == {} && Erased<ParseTreeNode>(Nil) == Nil
  {
  }

  /** What ParseExpression() does after its first operand. */
  lemma ExpressionCases(input: seq<Token>)
    ensures var first := ParseFirstOperand(input);
            var op := E.LookAhead(first.rest);
            var second := E.ParseExpression(Skip(first.rest));
            var elsePart := if E.LookAhead(second.rest).ConditionalElse? then E.ParseExpression(Skip(second.rest))
                            else Parsed(Nil, Skip(second.rest), false);
            E.ParseExpression(input)
            == if first.tree.Nil? || (!op.Binary? && !op.ConditionalIf?) || PercentageOfAction(first.rest) then first
               else if op.Binary? then
                 Parsed(Infix((), op, first.tree, Nil, second.tree), second.rest, first.ok && second.ok)
               else
                 Parsed(Infix((), op, first.tree, second.tree, elsePart.tree), elsePart.rest,
                        first.ok && second.ok && elsePart.ok)
    ensures PercentageOfAction(ParseFirstOperand(input).rest)
       <==> var rest := ParseFirstOperand(input).rest;
            E.LookAhead(rest) == Binary(Percentage) && E.LookAhead(Skip(rest)).KeywordForce?
    ensures var rest := ParseFirstOperand(input).rest;
            E.LookAhead(rest) == Binary(Percentage) ==> [Binary(Percentage)] + Skip(rest) == rest
    ensures var rest := ParseFirstOperand(input).rest;
            E.LookAhead(rest).Binary? || E.LookAhead(rest).ConditionalIf? ==> |Skip(rest)| < |rest|
  {
  }

  lemma FirstOperandCases(input: seq<Token>)
    ensures var token := E.LookAhead(input);
            && ((token.Identifier? || token.Number?) ==>
                  ParseFirstOperand(input) == Parsed(Atom((), token), Skip(input), true))
            && (!token.Identifier? && !token.Number? && !token.BracketOpen? && !IsUnary(token) ==>
                  ParseFirstOperand(input) == Parsed(Nil, input, false) == E.ParseExpression(input))
  {
  }

  lemma NothingBuilt(node: ParseTreeNode?, t: NodeTree)
    requires Built(node, t)
    ensures Erased(t).Nil? <==> t.Nil?
    ensures node == null <==> t.Nil?
  {
  }

  class FormulaParser {
    // the tokens not yet accepted
    var remaining: seq<Token>
    // CParseErrors: whether any error was reported
    var error: bool

    constructor (tokens: seq<Token>)
      ensures remaining == tokens && !error
    {
      remaining, error := tokens, false;
    }

    function LookAhead(): Token
      reads this
    {
      E.LookAhead(remaining)
    }

    method GetToken() returns (token: Token)
      modifies this`remaining
      ensures token == E.LookAhead(old(remaining)) && remaining == Skip(old(remaining))
    {
      token := LookAhead();
      remaining := Skip(remaining);
    }

    method Error()
      modifies this`error
      ensures error
    {
      error := true;
    }

    method ParseSimpleExpression() returns (node: ParseTreeNode?, ghost t: NodeTree)
      requires LookAhead().Identifier? || LookAhead().Number?
      modifies this`remaining
      ensures Built(node, t) && fresh(Nodes(t)) && !t.Nil?
      ensures Erased(t) == Atom((), E.LookAhead(old(remaining))) && remaining == Skip(old(remaining))
    {
      var terminal := GetToken();
      node := NewNode(terminal, null, null, null);
      t := Atom(node, terminal);
    }

    method ParseBracketExpression() returns (node: ParseTreeNode?, ghost t: NodeTree)
      requires LookAhead().BracketOpen?
      modifies this
      ensures Built(node, t) && fresh(Nodes(t)) && !t.Nil?
      ensures var p := ParseFirstOperand(old(remaining));
              Erased(t) == p.tree && remaining == p.rest && error == (old(error) || !p.ok)
      decreases |remaining|, 0
    {
      var opening := GetToken();
      ghost var s;
      var expression;
      expression, s := ParseExpression();
      NodesExist(s);
      ghost var close := LookAhead();
      ExpectMatchingBracketClose(opening.open);
      node := NewNode(opening, expression, null, null);
      t := Prefix(node, opening, [close], s);
    }

    method ExpectMatchingBracketClose(opening: Bracket)
      modifies this
      ensures remaining == Skip(old(remaining))
      ensures error == (old(error) || !ClosesBracket(opening, E.LookAhead(old(remaining))))
    {
      var close := GetToken();
      // the cases fall through
      if opening.Round? && close == BracketClose(Round) { return; }
      if (opening.Round? || opening.Square?) && close == BracketClose(Square) { return; }
      if close == BracketClose(Curly) { return; }
      Error();
    }

    method ParseUnaryExpression() returns (node: ParseTreeNode?, ghost t: NodeTree)
      requires LookAhead().Unary?
      modifies this
      ensures Built(node, t) && fresh(Nodes(t)) && !t.Nil?
      ensures var p := ParseFirstOperand(old(remaining));
              Erased(t) == p.tree && remaining == p.rest && error == (old(error) || !p.ok)
      decreases |remaining|, 0
    {
      var operator := GetToken();
      ghost var s;
      var expression;
      expression, s := ParseExpression();
      NodesExist(s);
      node := NewNode(operator, expression, null, null);
      t := Prefix(node, operator, [], s);
    }

    /** The branches of ParseExpression() that read the first operand. */
    method ParseOperand() returns (node: ParseTreeNode?, ghost t: NodeTree)
      modifies this
      ensures Built(node, t) && fresh(Nodes(t))
      ensures var p := ParseFirstOperand(old(remaining));
              Erased(t) == p.tree && remaining == p.rest && error == (old(error) || !p.ok)
      ensures t.Nil? <==> Erased(t).Nil?
      ensures node == null <==> t.Nil?
      decreases |remaining|, 1
    {
      hide Nodes, Linked, Distinct, ParseFirstOperand;
      FirstOperandCases(remaining);
      NothingIsBuilt();
      var token := LookAhead();
      if token.BracketOpen? {
        node, t := ParseBracketExpression();
      } else if IsUnary(token) {
        node, t := ParseUnaryExpression();
      } else if token.Identifier? || token.Number? {
        node, t := ParseSimpleExpression();
      } else {
        Error();
        node, t := null, Nil;
      }
      NothingBuilt(node, t);
    }

    method ParseExpression() returns (node: ParseTreeNode?, ghost t: NodeTree)
      modifies this
      ensures Built(node, t) && fresh(Nodes(t))
      ensures var p := E.ParseExpression(old(remaining));
              Erased(t) == p.tree && remaining == p.rest && error == (old(error) || !p.ok)
      decreases |remaining|, 2
    {
      hide Built, Nodes, E.ParseExpression, ParseFirstOperand, PercentageOfAction, Erased;
      ExpressionCases(remaining);
      NothingIsBuilt();
      var first, left := ParseOperand();
      if first == null {
        return first, left;
      }
      NodesExist(left);
      var token;
      token := LookAhead();
      if token.Binary? {
        var op := GetToken();
        if token == Binary(Percentage) && LookAhead().KeywordForce? {
          // push back the percentage operator
          remaining := [Binary(Percentage)] + remaining;
          return first, left;
        }
        var second;
        ghost var right;
        second, right := ParseExpression();
        NodesExist(right);
        node := NewNode(token, first, second, null);
        t := Infix(node, token, left, Nil, right);
        InfixIsBuilt(node, t);
      } else if token.ConditionalIf? {
        var thenPart, elsePart;
        ghost var mid, right;
        thenPart, elsePart, mid, right := ParseConditionalPartialThenElseExpressions();
        NodesExist(mid);
        NodesExist(right);
        node := NewNode(token, first, thenPart, elsePart);
        t := Infix(node, token, left, mid, right);
        InfixIsBuilt(node, t);
      } else {
        node, t := first, left;
      }
    }

    method ParseConditionalPartialThenElseExpressions()
      returns (thenPart: ParseTreeNode?, elsePart: ParseTreeNode?, ghost mid: NodeTree, ghost right: NodeTree)
      requires LookAhead().ConditionalIf?
      modifies this
      ensures Built(thenPart, mid) && Built(elsePart, right)
      ensures fresh(Nodes(mid)) && fresh(Nodes(right)) && Nodes(mid) !! Nodes(right)
      ensures var p := E.ParseExpression(Skip(old(remaining)));
              var found := E.LookAhead(p.rest).ConditionalElse?;
              var q := if found then E.ParseExpression(Skip(p.rest)) else Parsed(Nil, Skip(p.rest), false);
              && Erased(mid) == p.tree && Erased(right) == q.tree && remaining == q.rest
              && error == (old(error) || !p.ok || !q.ok)
      decreases |remaining|, 0
    {
      var token := GetToken();
      thenPart, mid := ParseExpression();
      NodesExist(mid);
      // ":" expected
      token := GetToken();
      if !token.ConditionalElse? {
        Error();
        elsePart, right := null, Nil;
      } else {
        elsePart, right := ParseExpression();
      }
    }

    // ---------- Actions ----------

    /** LookAhead(true) */
    method LookAheadForAction() returns (token: Token)
      modifies this
      ensures var r := B.ExpectAction(old(remaining));
              remaining == r.0 && token == E.LookAhead(r.0) && error == (old(error) || !r.1)
    {
      var r := B.ExpectAction(remaining);
      remaining := r.0;
      if !r.1 { Error(); }
      token := LookAhead();
    }

    method ExpectKeywordForce()
      modifies this
      ensures var r := B.ExpectForce(old(remaining)); remaining == r.0 && error == (old(error) || !r.1)
    {
      var token := GetToken();
      if token.KeywordForce? {
        token := LookAhead();
        if token.UnsupportedDelay? {
          Error();
          token := GetToken();
          token := GetToken();
        }
        return;
      }
      Error();
    }

    /** ParseOpenPPLRaiseToExpression() and ParseOpenPPLRaiseByExpression() */
    method ParseAmount(kind: Token) returns (node: ParseTreeNode?, ghost t: NodeTree)
      requires kind.RaiseToBigBlinds? || kind.RaiseByBigBlinds?
      modifies this
      ensures Built(node, t) && fresh(Nodes(t))
      ensures var p := B.ParseAmount(kind, old(remaining));
              Erased(t) == p.tree && remaining == p.rest && error == (old(error) || !p.ok)
    {
      var token := LookAhead();
      if !token.Number? && !token.Identifier? && !token.BracketOpen? {
        Error();
        return null, Nil;
      }
      var expression;
      ghost var s;
      expression, s := ParseExpression();
      NodesExist(s);
      var action := kind;
      if kind.RaiseByBigBlinds? {
        token := LookAhead();
        if token == Binary(Percentage) {
          token := GetToken();
          action := RaiseByPercentagedPotsize;
        }
      }
      node := NewNode(action, expression, null, null);
      t := Prefix(node, action, [], s);
    }

    method ParseOpenPPLUserVar() returns (node: ParseTreeNode?, ghost t: NodeTree)
      modifies this
      ensures Built(node, t) && fresh(Nodes(t)) && remaining == Skip(old(remaining))
      ensures var token := E.LookAhead(old(remaining));
              if token.Identifier? && B.IsUserVariableName(token.name)
              then Erased(t) == Atom((), UserVariable(token.name)) && error == old(error)
              else t == Nil && error
    {
      var token := GetToken();
      if !token.Identifier? || !B.IsUserVariableName(token.name) {
        Error();
        return null, Nil;
      }
      node := NewNode(UserVariable(token.name), null, null, null);
      t := Atom(node, UserVariable(token.name));
    }

    method ParseActionBody() returns (action: ActionKind, node: ParseTreeNode?, ghost t: NodeTree)
      requires LookAhead().Action?
      modifies this
      ensures action == E.LookAhead(old(remaining)).action
      ensures Built(node, t) && fresh(Nodes(t))
      ensures var p := B.ParseActionBody(old(remaining));
              Erased(t) == p.tree && remaining == p.rest && error == (old(error) || !p.ok)
    {
      hide Built, Nodes, Erased, E.ParseExpression, B.ParseAmount;
      var token := GetToken();
      action := token.action;
      match action
      case Return => node, t := ParseExpression();
      case RaiseTo => node, t := ParseAmount(RaiseToBigBlinds);
      case RaiseBy => node, t := ParseAmount(RaiseByBigBlinds);
      case SetUserVariable =>
        NothingIsBuilt();
        node, t := ParseOpenPPLUserVar();
      case _ =>
        var name := Identifier(B.ActionName(action));
        node := NewNode(name, null, null, null);
        t := Atom(node, name);
        LeafIsBuilt(node, t);
    }

    method ParseOpenPPLAction() returns (node: ParseTreeNode?, ghost t: NodeTree)
      requires LookAhead().Action?
      modifies this
      ensures Built(node, t) && fresh(Nodes(t))
      ensures var p := B.ParseAction(old(remaining));
              Erased(t) == p.tree && remaining == p.rest && error == (old(error) || !p.ok)
    {
      hide Built, Nodes, Erased, B.ParseActionBody, B.ExpectForce;
      var action;
      action, node, t := ParseActionBody();
      NodesExist(t);
      if !action.SetUserVariable? {
        ExpectKeywordForce();
      }
    }

    // ---------- Bodies ----------

    /** One round of the loop below, up to the condition: the new when-condition
        is chained to the last one. */
    method ParseWhenCondition(last: ParseTreeNode?, lastIsOpen: bool,
                              ghost items: seq<NodeTree>, ghost all: set<ParseTreeNode>)
      returns (when: ParseTreeNode, ghost c: NodeTree, ghost listed: set<ParseTreeNode>)
      requires LookAhead().ConditionalWhen?
      requires Listed(items, all)
      requires last == if items == [] then null else Root(items[|items| - 1])
      requires last != null ==> (lastIsOpen <==> items[|items| - 1].OpenWhen?)
      modifies this, all
      ensures Listed(items + [OpenWhen(when, c, Nil)], listed) && fresh(listed - all)
      ensures fresh(when)
      ensures var p := E.ParseExpression(Skip(old(remaining)));
              Erased(c) == p.tree && remaining == p.rest && error == (old(error) || !p.ok)
    {
      hide Linked, Distinct, Nodes, Built, Erased, E.ParseExpression, ItemLinked;
      LastIsListed(items, all);
      var token := GetToken();
      var condition;
      condition, c := ParseExpression();
      NodesExist(c);
      when := NewNode(ConditionalWhen, condition, null, null);
      NewItem(when, c);
      ghost var x := OpenWhen(when, c, Nil);
      Append(last, lastIsOpen, when, items, all, x);
      listed := all + OwnNodes(x);
    }

    method ParseOpenEndedWhenConditionSequence() returns (first: ParseTreeNode?, ghost t: NodeTree)
      modifies this
      ensures Built(first, t) && fresh(Nodes(t))
      ensures forall r | r in Openers(t) :: r.third == null
      ensures var p := B.ParseWhenSequence(old(remaining));
              Erased(t) == p.tree && remaining == p.rest && error == (old(error) || !p.ok)
    {
      hide Linked, Distinct, Nodes, OwnNodes, Listed, ItemLinked, IsItem, Built, Join, Erased, Openers;
      hide ReadSoFar, E.ParseExpression, B.ParseAction, B.ExpectAction, B.ParseWhenSequence;
      var last: ParseTreeNode?, lastIsOpen := null, false;
      first := null;
      ghost var input, good := remaining, true;
      ghost var items: seq<NodeTree>, all: set<ParseTreeNode> := [], {};
      StartOfList(input);
      var token := LookAhead();
      while token.ConditionalWhen?
        invariant token == LookAhead()
        invariant Listed(items, all) && fresh(all)
        invariant ReadSoFar(input, items, remaining, good) && error == (old(error) || !good)
        invariant (first == null) == (items == [])
        invariant first != null ==> first == Root(items[0])
        invariant last == if items == [] then null else Root(items[|items| - 1])
        invariant last != null ==> (lastIsOpen <==> items[|items| - 1].OpenWhen?)
        decreases |remaining|
      {
        ghost var before := remaining;
        var when;
        ghost var c, listed;
        when, c, listed := ParseWhenCondition(last, lastIsOpen, items, all);
        ghost var x := OpenWhen(when, c, Nil);
        if first == null {
          first := when;
        }
        last := when;
        WhenCases(before);
        ghost var cond := E.ParseExpression(Skip(before));
        ghost var expected := B.ExpectAction(cond.rest);
        token := LookAheadForAction();
        if token.Action? {
          var action;
          ghost var a;
          action, a := ParseOpenPPLAction();
          NodesExist(a);
          BuiltParts(action, a);
          SetAction(when, action, items, listed, c, a);
          lastIsOpen := false;
          token := LookAhead();
          ghost var fine := cond.ok && expected.1 && B.ParseAction(expected.0).ok;
          ErasedWhen(when, c, a);
          ReadOne(input, items, before, good, When(when, c, a, Nil), remaining, fine);
          items, all, good := items + [When(when, c, a, Nil)], listed + Nodes(a), good && fine;
        } else {
          ghost var fine := cond.ok && (token.ConditionalWhen? || B.IsEnd(token));
          ErasedOpenWhen(when, c);
          ReadOne(input, items, before, good, x, remaining, fine);
          items, all, good := items + [x], listed, good && fine;
          if token.ConditionalWhen? {
            lastIsOpen := true;
          } else if B.IsEnd(token) {
            break;
          } else {
            Error();
            break;
          }
        }
      }
      ListedItems(items, all);
      t := Join(items, Nil);
      ListedIsLinked(items, all);
      EndOfList(input, items, remaining, good);
      LinkedIsBuilt(first, t);
    }
  }

  lemma LinkedIsBuilt(node: ParseTreeNode?, t: NodeTree)
    requires Linked(node, t) && Distinct(t)
    ensures Built(node, t)
  {
  }

  lemma ErasedWhen(when: ParseTreeNode, c: NodeTree, a: NodeTree)
    ensures Erased(When(when, c, a, Nil)) == When((), Erased(c), Erased(a), Nil)
  {
  }

  lemma ErasedOpenWhen(when: ParseTreeNode, c: NodeTree)
    ensures Erased(OpenWhen(when, c, Nil)) == OpenWhen((), Erased(c), Nil)
  {
  }

  lemma LastIsListed(items: seq<NodeTree>, all: set<ParseTreeNode>)
    requires Listed(items, all)
    ensures items != [] ==> Root(items[|items| - 1]) != null && Root(items[|items| - 1]) in all
  {
  }

  lemma NewItem(when: ParseTreeNode, c: NodeTree)
    requires Built(when.first, c) && when.second == null && when.third == null
    requires when.nodeType == ConditionalWhen && when !in Nodes(c)
    ensures var x := OpenWhen(when, c, Nil);
            && IsItem(x) && ItemLinked(x, null) && OwnNodes(x) == {when} + Nodes(c) && Root(x) == when
  {
  }

  lemma BuiltParts(node: ParseTreeNode?, t: NodeTree)
    requires Built(node, t)
    ensures Linked(node, t) && Distinct(t)
  {
  }

  function ErasedItems(items: seq<NodeTree>): (es: seq<Tree<()>>)
    requires forall x | x in items :: x.When? || x.OpenWhen?
    ensures |es| == |items| && forall e | e in es :: e.When? || e.OpenWhen?
  {
    var es := seq(|items|, i requires 0 <= i < |items| => Erased(items[i]));
    assert forall i | 0 <= i < |es| :: items[i] in items && es[i] == Erased(items[i]);
    es
  }

  lemma {:induction false} ErasedJoin(items: seq<NodeTree>)
    requires forall x | x in items :: x.When? || x.OpenWhen?
    ensures Erased(Join(items, Nil)) == Join(ErasedItems(items), Nil)
  {
    if items != [] {
      ErasedJoin(items[1..]);
      assert ErasedItems(items)[1..] == ErasedItems(items[1..]);
    }
  }

  /** The items were read from the input before the remaining tokens, without
      error if good. */
  ghost predicate ReadSoFar(input: seq<Token>, items: seq<NodeTree>, remaining: seq<Token>, good: bool) {
    && (forall x | x in items :: x.When? || x.OpenWhen?)
    && var p := B.ParseWhenSequence(remaining);
       B.ParseWhenSequence(input) == Parsed(Join(ErasedItems(items), p.tree), p.rest, good && p.ok)
  }

  lemma StartOfList(input: seq<Token>)
    ensures ReadSoFar(input, [], input, true)
    ensures Listed([], {})
  {
  }

  lemma EndOfList(input: seq<Token>, items: seq<NodeTree>, remaining: seq<Token>, good: bool)
    requires ReadSoFar(input, items, remaining, good) && !E.LookAhead(remaining).ConditionalWhen?
    ensures B.ParseWhenSequence(input) == Parsed(Erased(Join(items, Nil)), remaining, good)
  {
    ErasedJoin(items);
  }

  /** What one round of the loop reads, given what comes after the condition. */
  lemma WhenCases(before: seq<Token>)
    requires E.LookAhead(before).ConditionalWhen?
    ensures var cond := E.ParseExpression(Skip(before));
            var expected := B.ExpectAction(cond.rest);
            var token := E.LookAhead(expected.0);
            && |expected.0| < |before|
            && (token.Action? ==>
                  var action := B.ParseAction(expected.0);
                  var others := B.ParseWhenSequence(action.rest);
                  && |action.rest| < |before|
                  && B.ParseWhenSequence(before)
                     == Parsed(When((), cond.tree, action.tree, others.tree), others.rest,
                               (cond.ok && expected.1 && action.ok) && others.ok))
            && (!token.Action? ==>
                  var others := B.ParseWhenSequence(expected.0);
                  && expected.1
                  && B.ParseWhenSequence(before)
                     == Parsed(OpenWhen((), cond.tree, others.tree), others.rest,
                               (cond.ok && (token.ConditionalWhen? || B.IsEnd(token))) && others.ok))
  {
  }

  lemma ReadOne(input: seq<Token>, items: seq<NodeTree>, before: seq<Token>, good: bool,
                x: NodeTree, after: seq<Token>, fine: bool)
    requires ReadSoFar(input, items, before, good)
    requires x.When? || x.OpenWhen?
    requires var p := B.ParseWhenSequence(after);
             B.ParseWhenSequence(before) == Parsed(Erased(x).(next := p.tree), p.rest, fine && p.ok)
    ensures ReadSoFar(input, items + [x], after, good && fine)
  {
    var p := B.ParseWhenSequence(after);
    assert ErasedItems(items + [x]) == ErasedItems(items) + [Erased(x)];
    JoinLast(ErasedItems(items), Erased(x), p.tree);
  }

  lemma LeafIsBuilt(node: ParseTreeNode, t: NodeTree)
    requires t.Atom? && t.ref == node && node.nodeType == t.token
    requires node.first == null && node.second == null && node.third == null
    ensures Built(node, t) && Nodes(t) == {node} && Erased(t) == Atom((), t.token)
  {
  }
}
