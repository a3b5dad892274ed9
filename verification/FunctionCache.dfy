/** The functions and lists of a formula as objects with cached results (CFunction.cpp
    and CFunctionCollection.cpp). Evaluation fills the caches as it goes; each method
    is proved against the function of FunctionValues that it is.

    Function bodies are values here; WhenSequences has their evaluation on the heap. */
module FunctionCache {
  import opened Tokens
  import opened ParseTreeNodes
  import opened WhenSequences
  import opened V = FunctionValues

  class ScriptObject {
    const script: Script
    var cachedResult: real
    var isResultCached: bool
    /** How often the body has been evaluated since the cache was cleared. */
    ghost var evaluations: nat

    constructor (script: Script)
      ensures this.script == script && !isResultCached && cachedResult == UNDEFINED_ZERO && evaluations == 0
    {
      this.script := script;
      isResultCached, cachedResult, evaluations := false, UNDEFINED_ZERO, 0;
    }

    method ClearCache()
      modifies this
      ensures !isResultCached && cachedResult == UNDEFINED_ZERO && evaluations == 0
    {
      cachedResult := 0.0;
      isResultCached := false;
      evaluations := 0;
    }

    method SetValue(value: real)
      modifies this
      ensures isResultCached && cachedResult == value && evaluations == old(evaluations)
    {
      cachedResult := value;
      isResultCached := true;
    }
  }

  class FunctionCollection {
    const functionMap: map<string, ScriptObject>
    /** The global counter of nested evaluations. */
    var recursionDepth: nat

    ghost function Library(): Library {
      map n | n in functionMap :: functionMap[n].script
    }

    ghost function Objects(): set<object> {
      set n | n in functionMap :: functionMap[n]
    }

    /** Every name has its own object, only names of functions have a body, and a
        result that is not cached is zero. */
    ghost predicate Valid()
      reads Objects()
    {
      && (forall m, n | m in functionMap && n in functionMap && m != n :: functionMap[m] != functionMap[n])
      && (forall n | n in functionMap && functionMap[n].script.Function? :: IsFunction(n) || IsOpenPPLSymbol(n))
      && (forall n | n in functionMap && !functionMap[n].isResultCached ::
            functionMap[n].cachedResult == UNDEFINED_ZERO)
    }

    ghost function Cached(): map<string, real>
      reads Objects()
    {
      map n | n in functionMap && functionMap[n].isResultCached :: functionMap[n].cachedResult
    }

    ghost function Evaluations(): map<string, nat>
      reads Objects()
    {
      map n | n in functionMap :: functionMap[n].evaluations
    }

    /** The state of evaluation, with the user variables and all other symbols. */
    ghost function Now<E>(e: E): State<E>
      reads this, Objects()
    {
      State(Cached(), recursionDepth, e, Evaluations(), true)
    }

    ghost method Enter(name: string, o: ScriptObject)
      requires Valid() && name in functionMap && functionMap[name] == o
      modifies o`evaluations
      ensures Valid() && Cached() == old(Cached())
      ensures Evaluations() == old(Evaluations())[name := old(o.evaluations) + 1]
    {
      o.evaluations := o.evaluations + 1;
    }

    method CacheResult(ghost name: string, o: ScriptObject, value: real)
      requires Valid() && name in functionMap && functionMap[name] == o
      modifies o`cachedResult, o`isResultCached
      ensures Valid() && Cached() == old(Cached())[name := value] && Evaluations() == old(Evaluations())
    {
      o.cachedResult := value;
      o.isResultCached := true;
    }

    /** The case that the body has to be evaluated; the caller counts the depth. */
    method EvaluateUncached<E(!new)>(sem: Semantics<E>, e: E, ghost name: string, o: ScriptObject)
      returns (after: E)
      requires Valid() && name in functionMap && functionMap[name] == o && o.script.Function?
      requires !o.isResultCached && 0 < recursionDepth <= MAX_RECURSION_DEPTH
      modifies this`recursionDepth, Objects()
      ensures Valid() && recursionDepth > 0
      ensures (o.cachedResult, Now(after).(depth := recursionDepth - 1))
              == V.Call(sem, Library(), name, old(Now(e)).(depth := old(recursionDepth) - 1))
      decreases RoomAt(recursionDepth), 6
    {
      hide Run;
      ghost var s := Now(e).(depth := recursionDepth - 1);
      Enter(name, o);
      assert Now(e) == Entered(s, name);
      hide V.Call, Valid, Cached, Evaluations;
      ObjectIs(name, o);
      CachedCallIs(sem, Library(), name, s);
      var value;
      value, after := EvaluateBody(sem, e, o.script.body);
      ghost var r := Run(sem, Library(), o.script.body, Entered(s, name));
      CacheResult(name, o, value);
      ObjectIs(name, o);
      assert Now(after).(depth := recursionDepth - 1) == Left(r.1, name, value);
    }

    /** An object in the state of evaluation. */
    lemma ObjectIs(name: string, o: ScriptObject)
      requires Valid() && name in functionMap && functionMap[name] == o
      ensures name in Library() && Library()[name] == o.script
      ensures o.isResultCached <==> name in Cached()
      ensures if o.isResultCached then Cached()[name] == o.cachedResult else o.cachedResult == UNDEFINED_ZERO
    {}

    /** CFunction::Evaluate() */
    method EvaluateFunction<E(!new)>(sem: Semantics<E>, e: E, ghost name: string, o: ScriptObject)
      returns (result: real, after: E)
      requires Valid() && name in functionMap && functionMap[name] == o && !o.script.List?
      modifies this`recursionDepth, Objects()
      ensures Valid() && (result, Now(after)) == V.Call(sem, Library(), name, old(Now(e)))
      decreases RoomAt(recursionDepth), 0
    {
      hide V.Call, Valid, Cached, Evaluations, Library;
      ObjectIs(name, o);
      CallWithoutBody(sem, Library(), name, Now(e));
      after := e;
      recursionDepth := recursionDepth + 1;
      if recursionDepth > MAX_RECURSION_DEPTH {
        recursionDepth := recursionDepth + 1;
        return UNDEFINED_ZERO, e;
      }
      if o.isResultCached {
        // keep the cached result
      } else if o.script.Function? {
        after := EvaluateUncached(sem, e, name, o);
      }
      recursionDepth := recursionDepth - 1;
      result := o.cachedResult;
    }

    /** EvaluateSymbol() */
    method EvaluateSymbol<E(!new)>(sem: Semantics<E>, e: E, name: string)
      returns (handled: bool, result: real, after: E)
      requires Valid()
      modifies this`recursionDepth, Objects()
      ensures Valid() && handled == IsScriptName(name)
      ensures if handled then (result, Now(after)) == Symbol(sem, Library(), name, old(Now(e)))
              else result == UNDEFINED_RESULT && Now(after) == old(Now(e))
      decreases RoomAt(recursionDepth), 1
    {
      hide V.Call, Valid, Cached, Evaluations;
      result, after := UNDEFINED_RESULT, e;
      if IsFunction(name) || IsList(name) || IsOpenPPLSymbol(name) {
        if name !in functionMap {
          return true, UNDEFINED_ZERO, e;
        }
        var o := functionMap[name];
        ObjectIs(name, o);
        CallWithoutBody(sem, Library(), name, Now(e));
        if o.script.List? {
          return true, o.script.value, e;
        }
        result, after := EvaluateFunction(sem, e, name, o);
        return true, result, after;
      }
      return false, result, after;
    }

    /** The symbol engines in turn: this one, then all others. */
    method EvaluateIdentifier<E(!new)>(sem: Semantics<E>, e: E, name: string) returns (result: real, after: E)
      requires Valid()
      modifies this`recursionDepth, Objects()
      ensures Valid() && (result, Now(after)) == Symbol(sem, Library(), name, old(Now(e)))
      decreases RoomAt(recursionDepth), 2
    {
      hide V.Call, Valid, Cached, Evaluations;
      var handled;
      handled, result, after := EvaluateSymbol(sem, e, name);
      if !handled {
        result := sem.identifier(name, e);
      }
    }

    method EvaluateExpression<E(!new)>(sem: Semantics<E>, e: E, t: Body) returns (value: real, after: E)
      requires Valid()
      modifies this`recursionDepth, Objects()
      ensures Valid() && (value, Now(after)) == Expression(sem, Library(), t, old(Now(e)))
      decreases RoomAt(recursionDepth), 3, t
    {
      hide Symbol, Valid, Cached, Evaluations, Library;
      after := e;
      match t
      case Atom(_, Number(literal)) => value := sem.number(literal);
      case Atom(_, Identifier(name)) => value, after := EvaluateIdentifier(sem, e, name);
      case Prefix(_, Unary(op), _, arg) =>
        value, after := EvaluateExpression(sem, e, arg);
        value := sem.unary(op, value);
      case Prefix(_, BracketOpen(_), _, arg) => value, after := EvaluateExpression(sem, e, arg);
      case Infix(_, Binary(op), left, _, right) =>
        var first;
        first, after := EvaluateExpression(sem, e, left);
        // short circuiting
        if op.LogicalAnd? && first == 0.0 { return 0.0, after; }
        if op.LogicalOr? && first != 0.0 { return 1.0, after; }
        var second;
        second, after := EvaluateExpression(sem, after, right);
        value := if op.LogicalAnd? || op.LogicalOr? then Truth(second != 0.0) else sem.binary(op, first, second);
      case Infix(_, ConditionalIf, left, mid, right) =>
        var first;
        first, after := EvaluateExpression(sem, e, left);
        value, after := EvaluateExpression(sem, after, if first != 0.0 then mid else right);
      case _ => value := 0.0;
    }

    method EvaluateAction<E(!new)>(sem: Semantics<E>, e: E, t: Body) returns (value: real, after: E)
      requires Valid()
      modifies this`recursionDepth, Objects()
      ensures Valid() && (value, Now(after)) == V.Action(sem, Library(), t, old(Now(e)))
      decreases RoomAt(recursionDepth), 4
    {
      hide Expression, Valid;
      if SetsVariable(t) {
        value, after := UNDEFINED_ZERO, sem.setVariable(t.token.variable, e);
      } else if t.Prefix? && !IsUnary(t.token) {
        value, after := EvaluateExpression(sem, e, t.arg);
        value := sem.raise(t.token, value, after);
      } else {
        value, after := EvaluateExpression(sem, e, t);
      }
    }

    /** The walk over the when-conditions, or a single action or expression. */
    method EvaluateBody<E(!new)>(sem: Semantics<E>, e: E, t: Body) returns (value: real, after: E)
      requires Valid()
      modifies this`recursionDepth, Objects()
      ensures Valid() && (value, Now(after)) == Run(sem, Library(), t, old(Now(e)))
      decreases RoomAt(recursionDepth), 5
    {
      hide Expression, V.Action, Valid, Library;
      if !t.When? && !t.OpenWhen? {
        value, after := EvaluateAction(sem, e, t);
        return;
      }
      after := e;
      var rest := t;
      while rest.When? || rest.OpenWhen?
        invariant Valid() && recursionDepth >= old(recursionDepth)
        invariant Walk(sem, Library(), t, old(Now(e))) == Walk(sem, Library(), rest, Now(after))
        decreases Conditions(rest)
      {
        var first;
        first, after := EvaluateExpression(sem, after, rest.cond);
        SectionSkipped(rest.next);
        if rest.When? && first != 0.0 {
          value, after := EvaluateAction(sem, after, rest.action);
          if !SetsVariable(rest.action) { return; }
        }
        rest := if rest.When? || first != 0.0 then rest.next else NextOpenEnded(rest.next);
      }
      value := UNDEFINED_ZERO;
    }

    // ---------- Whole heartbeats ----------

    /** Evaluate(): any function, at any time in a heartbeat. If the state is
        consistent and no function sets a user variable, the result is the plain value
        and the state stays consistent, unless plain evaluation meets an error. */
    method Evaluate<E(!new)>(sem: Semantics<E>, e: E, name: string) returns (result: real, after: E)
      requires Valid()
      modifies this`recursionDepth, Objects()
      ensures Valid()
      ensures if IsScriptName(name) then (result, Now(after)) == Symbol(sem, Library(), name, old(Now(e)))
              else result == UNDEFINED_RESULT && Now(after) == old(Now(e))
      ensures SetNothing(Library()) && Consistent(sem, Library(), old(Now(e))) && IsScriptName(name)
              && (name in functionMap ==> Ends(sem, Library(), name, old(recursionDepth), e)) ==>
                && result == PlainValue(sem, Library(), name, e)
                && recursionDepth == old(recursionDepth) && Consistent(sem, Library(), Now(after))
                && forall n | n in functionMap :: functionMap[n].evaluations <= 1
    {
      hide V.Call, Valid, Consistent, Ends, SetNothing, Cached, Evaluations;
      ghost var s := Now(e);
      var handled;
      handled, result, after := EvaluateSymbol(sem, e, name);
      if SetNothing(Library()) && Consistent(sem, Library(), s) && handled {
        if name in functionMap && Ends(sem, Library(), name, s.depth, e) {
          HeartbeatIsTrue(sem, Library(), name, s);
        }
        if name in functionMap ==> Ends(sem, Library(), name, s.depth, e) {
          OnceEachObject(sem, after);
        }
      }
    }

    lemma OnceEachObject<E(!new)>(sem: Semantics<E>, e: E)
      requires Consistent(sem, Library(), Now(e))
      ensures forall n | n in functionMap :: functionMap[n].evaluations <= 1
    {
      forall n | n in functionMap ensures functionMap[n].evaluations <= 1 {
        assert IsOnce(Now(e), n);
      }
    }

    ghost predicate IsClear(n: string)
      requires n in functionMap
      reads functionMap[n]
    {
      var o := functionMap[n];
      !o.isResultCached && o.cachedResult == UNDEFINED_ZERO && o.evaluations == 0
    }

    /** ClearCache(): afterwards nothing is cached, so the state is consistent with
        whatever the next heartbeat brings. */
    method ClearCache()
      requires Valid()
      requires forall n | n in functionMap && !IsFunction(n) && !IsOpenPPLSymbol(n) :: IsClear(n)
      modifies Objects()
      ensures Valid() && forall n | n in functionMap :: IsClear(n)
    {
      var left := functionMap.Keys;
      while left != {}
        invariant left <= functionMap.Keys && Valid()
        invariant forall n | n in functionMap && (n !in left || (!IsFunction(n) && !IsOpenPPLSymbol(n))) :: IsClear(n)
      {
        var n :| n in left;
        if IsFunction(n) || IsOpenPPLSymbol(n) {
          functionMap[n].ClearCache();
        }
        left := left - {n};
      }
    }

    lemma ClearIsConsistent<E(!new)>(sem: Semantics<E>, e: E)
      requires Valid() && forall n | n in functionMap :: IsClear(n)
      ensures Consistent(sem, Library(), Now(e))
    {
      forall n ensures IsOnce(Now(e), n) {
        assert n in functionMap ==> IsClear(n);
      }
      assert Cached() == map[] by {
        assert forall n | n in functionMap :: IsClear(n);
      }
    }
  }
}
