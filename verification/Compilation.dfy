/** From the tokens of a function to its value: parsing, back-patching, rotation
    and evaluation together. */
module Compilation {
  import opened Tokens
  import opened ParseTrees
  import opened ParseTreeNodes
  import opened ParseTreeRotator
  import opened WhenSequences
  import opened BackPatching
  import opened FunctionBodies
  import opened ExpressionParser
  import opened FormulaParser
  import V = FunctionValues
  import W = WrittenBodies

  // ---------- Trees and their erasure ----------

  lemma {:induction false} ErasedExpression<R>(t: Tree<R>)
    ensures IsExpression(Erased(t)) == IsExpression(t)
    ensures Erased(t).Nil? == t.Nil?
  {
    match t
    case Prefix(_, _, _, arg) => ErasedExpression(arg);
    case Infix(_, _, left, mid, right) => ErasedExpression(left); ErasedExpression(mid); ErasedExpression(right);
    case _ =>
  }

  lemma ErasedAction<R>(t: Tree<R>)
    ensures IsActionTree(Erased(t)) == IsActionTree(t)
  {
    ErasedExpression(t);
    if t.Prefix? { ErasedExpression(t.arg); }
  }

  lemma {:induction false} ErasedSequence<R>(t: Tree<R>)
    ensures IsWhenSequence(Erased(t)) == IsWhenSequence(t)
  {
    match t
    case When(_, cond, action, next) => ErasedExpression(cond); ErasedAction(action); ErasedSequence(next);
    case OpenWhen(_, cond, next) => ErasedExpression(cond); ErasedSequence(next);
    case _ =>
  }

  lemma {:induction false} ErasedSettled<R>(table: OperatorTable, t: Tree<R>)
    ensures Erased(Settled(table, t)) == Settled(table, Erased(t))
    decreases RightMost(t)
  {
    assert RightMost(Erased(t)) == Erased(RightMost(t));
    if NeedsLeftRotation(table, t) {
      var lowered := WithRightMost(t, RightMost(t).left);
      ErasedSettled(table, lowered);
      assert Erased(lowered) == WithRightMost(Erased(t), RightMost(Erased(t)).left);
    }
  }

  lemma {:induction false} ErasedRotated<R>(table: OperatorTable, t: Tree<R>)
    ensures Erased(Rotated(table, t)) == Rotated(table, Erased(t))
  {
    match t
    case Nil =>
    case Atom(_, _) =>
    case Prefix(_, _, _, arg) =>
      ErasedRotated(table, arg);
      ErasedSettled(table, Prepared(table, t));
    case Infix(_, _, left, mid, right) =>
      ErasedRotated(table, left);
      ErasedRotated(table, mid);
      ErasedRotated(table, right);
      ErasedSettled(table, Prepared(table, t));
    case When(_, cond, action, next) =>
      ErasedRotated(table, cond);
      ErasedRotated(table, action);
      ErasedRotated(table, next);
    case OpenWhen(_, cond, next) =>
      ErasedRotated(table, cond);
      ErasedRotated(table, next);
  }

  lemma {:induction false} ErasedValue<R, E>(sem: Semantics<E>, t: Tree<R>, e: E)
    ensures Value(sem, Erased(t), e) == Value(sem, t, e)
  {
    match t
    case Prefix(_, _, _, arg) => ErasedValue(sem, arg, e);
    case Infix(_, _, left, mid, right) =>
      ErasedValue(sem, left, e);
      ErasedValue(sem, mid, e);
      ErasedValue(sem, right, e);
    case _ =>
  }

  lemma ErasedOutcome<R, E>(sem: Semantics<E>, t: Tree<R>, e: E)
    ensures ActionOutcome(sem, Erased(t), e) == ActionOutcome(sem, t, e)
    ensures SetsVariable(Erased(t)) == SetsVariable(t)
  {
    ErasedValue(sem, t, e);
    if t.Prefix? { ErasedValue(sem, t.arg, e); }
  }

  lemma {:induction false} ErasedScan<R, E>(sem: Semantics<E>, t: Tree<R>, guard: bool, e: E)
    ensures Scan(sem, Erased(t), guard, e) == Scan(sem, t, guard, e)
    decreases t
  {
    match t
    case When(_, cond, action, next) =>
      ErasedValue(sem, cond, e);
      ErasedOutcome(sem, action, e);
      ErasedScan(sem, next, guard, e);
      ErasedScan(sem, next, guard, ActionOutcome(sem, action, e).1);
    case OpenWhen(_, cond, next) =>
      ErasedValue(sem, cond, e);
      ErasedScan(sem, next, Value(sem, cond, e) != 0.0, e);
    case _ =>
  }

  lemma ErasedMeaning<R, E>(sem: Semantics<E>, t: Tree<R>, e: E)
    ensures Meaning(sem, Erased(t), e) == Meaning(sem, t, e)
  {
    ErasedScan(sem, t, true, e);
    ErasedOutcome(sem, t, e);
  }

  // ---------- The compiler ----------

  lemma SequenceOfTokens(tokens: seq<Token>, t: NodeTree)
    requires ParseWhenSequence(tokens).ok && Erased(t) == ParseWhenSequence(tokens).tree
    ensures IsWhenSequence(t) && IsBody(t)
  {
    ParsedSequenceIsSound(tokens);
    NaiveSequenceIsSequence(Erased(t));
    ErasedSequence(t);
  }

  lemma ExpressionOfTokens(tokens: seq<Token>, t: NodeTree)
    requires ParseExpression(tokens).ok && Erased(t) == ParseExpression(tokens).tree
    ensures Threaded(t) && IsBody(t)
  {
    ParsedExpressionIsSound(tokens);
    ErasedExpression(t);
  }

  /** ParseFunctionBody(): when-sequences are back-patched, unless parsing has
      failed already. */
  method ParseFunctionBody(parser: FormulaParser) returns (body: ParseTreeNode?, ghost t: NodeTree)
    requires !parser.error
    modifies parser
    ensures Built(body, t) && fresh(Nodes(t))
    ensures var p := ParseBodyOnly(old(parser.remaining));
            Erased(t) == p.tree && parser.remaining == p.rest && parser.error == !p.ok
    ensures !parser.error ==> IsBody(t) && Threaded(t)
  {
    hide Linked, Threaded, Nodes, Erased, ParseExpression, ParseWhenSequence, IsWhenSequence, IsActionTree, Distinct;
    ghost var tokens := parser.remaining;
    var token := parser.LookAhead();
    if IsEnd(token) {
      body := NewNode(Number("0"), null, null, null);
      t := Atom(body, Number("0"));
      LeafIsBuilt(body, t);
      NumberIsBody(t);
    } else if token.ConditionalWhen? {
      body, t := parser.ParseOpenEndedWhenConditionSequence();
      NodesExist(t);
      if !parser.error {
        SequenceOfTokens(tokens, t);
        BackPatchOpenEndedWhenConditionSequence(body, t);
      }
    } else {
      body, t := parser.ParseExpression();
      if !parser.error {
        ExpressionOfTokens(tokens, t);
      }
    }
  }

  lemma NumberIsBody(t: NodeTree)
    requires t.Atom? && t.token.Number?
    ensures IsBody(t) && Threaded(t)
  {
  }

  /** ParseSingleFormula() for functions: the body, the check that nothing follows
      it, and the rotation. */
  method Compile(tokens: seq<Token>) returns (ok: bool, root: ParseTreeNode?, ghost t: NodeTree)
    ensures ok == ParseBody(tokens).ok
    ensures ok ==> Built(root, t) && Threaded(t) && IsBody(t) && fresh(Nodes(t))
    ensures ok ==> Erased(t) == Rotated(SOURCE_TABLE, ParseBody(tokens).tree)
  {
    hide Linked, Threaded, Nodes, Erased, IsBody, ParseBodyOnly;
    var parser := new FormulaParser(tokens);
    var body;
    body, t := ParseFunctionBody(parser);
    NodesExist(t);
    var token := parser.GetToken();
    if !IsEnd(token) {
      parser.Error();
    }
    ok, root := !parser.error, null;
    if ok {
      root := RotateFunction(SOURCE_TABLE, body, t);
      RotatedIsBody(SOURCE_TABLE, t);
      ErasedRotated(SOURCE_TABLE, t);
      t := Rotated(SOURCE_TABLE, t);
    }
  }

  /** The value of a function is the meaning of its conventional reading: for
      when-sequences, a left-to-right scan. Whatever body is written there is the one. */
  method CompileAndEvaluate<E>(tokens: seq<Token>, sem: Semantics<E>, e: E)
    returns (ok: bool, value: real, after: E)
    ensures ok == ParseBody(tokens).ok
    ensures ok ==> var reading := Rotated(SOURCE_TABLE, ParseBody(tokens).tree);
                   WellReadBody(SOURCE_TABLE, reading) && (value, after) == Meaning(sem, reading, e)
    ensures forall body: W.Body, rest: seq<Token>
              | W.IsWellRead(SOURCE_TABLE, body) && IsEnd(LookAhead(rest)) && tokens == W.Written(body) + rest ::
              ok && (value, after) == Meaning(sem, W.BodyTree(body), e)
  {
    hide W.IsWellRead, W.Written, W.BodyTree;
    hide Linked, Threaded, Nodes, Erased, IsBody, ParseBody, WellReadBody, Meaning;
    var root;
    ghost var t;
    ok, root, t := Compile(tokens);
    value, after := 0.0, e;
    if ok {
      SourceTableIsProper();
      ErrorFreeBodyIsWellRead(SOURCE_TABLE, tokens);
      ErasedMeaning(sem, t, e);
      NodesExist(t);
      value, after := EvaluateSibbling(sem, root, t, e);
    }
    forall body: W.Body, rest: seq<Token>
      | W.IsWellRead(SOURCE_TABLE, body) && IsEnd(LookAhead(rest)) && tokens == W.Written(body) + rest
      ensures ok && (value, after) == Meaning(sem, W.BodyTree(body), e)
    {
      SourceTableIsProper();
      W.EveryBodyIsFound(SOURCE_TABLE, body, rest);
    }
  }

  /** What cached evaluation gives for a function is what its nodes on the heap give,
      with every identifier at its plain value. */
  lemma CachedValueIsHeapValue<E(!new)>(sem: Semantics<E>, library: V.Library, name: string, t: NodeTree,
                                        s: V.State<E>)
    requires V.SetNothing(library) && V.Consistent(sem, library, s)
    requires name in library && library[name] == V.Function(Erased(t)) && V.Ends(sem, library, name, s.depth, s.env)
    ensures V.Call(sem, library, name, s).0 == Meaning(V.CacheFree(sem, library), t, s.env).0
  {
    hide V.Call, V.CacheFree, V.Consistent, V.PlainValue, V.SetNothing;
    V.HeartbeatIsTrue(sem, library, name, s);
    V.CacheFreeRecursion(sem, library, name, s.depth, s.env);
    ErasedMeaning(V.CacheFree(sem, library), t, s.env);
  }
}
