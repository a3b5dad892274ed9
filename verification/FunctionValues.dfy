/** What the functions of a formula evaluate to, with the result cache and the
    recursion counter of CFunction.cpp and the lookup of CFunctionCollection.cpp,
    for any library: functions may call themselves and set user variables.

    The same evaluation without a cache gives the plain values. Where no user
    variable is set and the recursion ends in time, the cache makes no difference. */
module FunctionValues {
  import opened Tokens
  import opened ParseTrees
  import opened ParseTreeNodes
  import opened WhenSequences

  const MAX_RECURSION_DEPTH := 100
  const UNDEFINED_RESULT := -1.0
  const UNDEFINED_ZERO := 0.0

  predicate IsFunction(name: string) { |name| >= 2 && name[..2] == "f$" }

  predicate IsList(name: string) { |name| >= 4 && name[..4] == "list" }

  predicate IsOpenPPLSymbol(name: string) { |name| >= 1 && 'A' <= name[0] <= 'Z' }

  /** The names the function collection answers for. */
  predicate IsScriptName(name: string) {
    IsFunction(name) || IsList(name) || IsOpenPPLSymbol(name)
  }

  /** These are the names that begin with "f$", with "list", or with a capital. */
  lemma ScriptNamesAre(name: string)
    ensures IsScriptName(name) <==>
              || (exists rest: string :: name == "f$" + rest)
              || (exists rest: string :: name == "list" + rest)
              || (exists c: char, rest: string :: 'A' <= c <= 'Z' && name == [c] + rest)
  {
    if IsFunction(name) { assert name == "f$" + name[2..]; }
    if IsList(name) { assert name == "list" + name[4..]; }
    if IsOpenPPLSymbol(name) { assert name == [name[0]] + name[1..]; }
  }

  type Body = Tree<()>

  /** A hand list with its value for the cards of the user, a function without
      a parse tree, or a function with one. */
  datatype Script = List(value: real) | Empty | Function(body: Body)

  type Library = map<string, Script>

  /** The number of when-conditions. */
  function Conditions(t: Body): nat {
    if t.When? || t.OpenWhen? then 1 + Conditions(t.next) else 0
  }

  lemma {:induction false} SectionSkipped(t: Body)
    ensures Conditions(NextOpenEnded(t)) <= Conditions(t)
    ensures SetsNothing(t) ==> SetsNothing(NextOpenEnded(t))
  {
    if t.When? {
      SectionSkipped(t.next);
    }
  }

  /** No action sets a user variable. */
  predicate SetsNothing(t: Body) {
    match t
    case When(_, _, action, next) => !SetsVariable(action) && SetsNothing(next)
    case OpenWhen(_, _, next) => SetsNothing(next)
    case _ => !SetsVariable(t)
  }

  ghost predicate SetNothing(library: Library) {
    forall f | f in library && library[f].Function? :: SetsNothing(library[f].body)
  }

  // ---------- Evaluation ----------

  /** Everything that evaluation changes: the cached results, the global counter of
      nested evaluations, the user variables, and how often each body has been
      evaluated. Plain evaluation keeps no results. */
  datatype State<!E> = State(cached: map<string, real>, depth: nat, env: E, evaluations: map<string, nat>, keeps: bool)

  function Count<E>(s: State<E>, name: string): nat {
    if name in s.evaluations then s.evaluations[name] else 0
  }

  /** How much deeper the recursion may get. */
  function RoomAt(depth: nat): nat {
    if depth < MAX_RECURSION_DEPTH then MAX_RECURSION_DEPTH - depth else 0
  }

  function Room<E>(s: State<E>): nat { RoomAt(s.depth) }

  function Entered<E>(s: State<E>, name: string): State<E> {
    if s.keeps then s.(depth := s.depth + 1, evaluations := s.evaluations[name := Count(s, name) + 1])
    else s.(depth := s.depth + 1)
  }

  function Left<E>(s: State<E>, name: string, value: real): State<E>
    requires s.depth > 0
  {
    if s.keeps then s.(depth := s.depth - 1, cached := s.cached[name := value]) else s.(depth := s.depth - 1)
  }

  /** The counter never falls. Nothing is kept without a cache, and user variables
      stay where none is set. */
  ghost predicate Follows<E>(library: Library, quiet: bool, s: State<E>, after: State<E>) {
    && after.depth >= s.depth && after.keeps == s.keeps
    && (!s.keeps ==> after.cached == s.cached && after.evaluations == s.evaluations)
    && (SetNothing(library) && quiet ==> after.env == s.env)
  }

  /** CFunction::Evaluate() and the value of a list: a cached result, or the value
      of the body; beyond the limit an error, zero, and a counter two higher. */
  ghost function Call<E>(sem: Semantics<E>, library: Library, name: string, s: State<E>): (r: (real, State<E>))
    requires name in library
    ensures Follows(library, true, s, r.1)
    decreases Room(s), 0
  {
    if library[name].List? then (library[name].value, s)
    else if s.depth >= MAX_RECURSION_DEPTH then (UNDEFINED_ZERO, s.(depth := s.depth + 2))
    else if name in s.cached then (s.cached[name], s)
    else if library[name].Empty? then (UNDEFINED_ZERO, s)
    else
      var r := Run(sem, library, library[name].body, Entered(s, name));
      (r.0, Left(r.1, name, r.0))
  }

  /** EvaluateSymbol(): a function or list that does not exist is zero; any other
      name is left to the other symbol engines. */
  ghost function Symbol<E>(sem: Semantics<E>, library: Library, name: string, s: State<E>): (r: (real, State<E>))
    ensures Follows(library, true, s, r.1)
    decreases Room(s), 1
  {
    if !IsScriptName(name) then (sem.identifier(name, s.env), s)
    else if name !in library then (UNDEFINED_ZERO, s)
    else Call(sem, library, name, s)
  }

  ghost function Expression<E>(sem: Semantics<E>, library: Library, t: Body, s: State<E>): (r: (real, State<E>))
    ensures Follows(library, true, s, r.1)
    decreases Room(s), 2, t
  {
    match t
    case Atom(_, Number(literal)) => (sem.number(literal), s)
    case Atom(_, Identifier(name)) => Symbol(sem, library, name, s)
    case Prefix(_, Unary(op), _, arg) =>
      var r := Expression(sem, library, arg, s);
      (sem.unary(op, r.0), r.1)
    case Prefix(_, BracketOpen(_), _, arg) => Expression(sem, library, arg, s)
    case Infix(_, Binary(op), left, _, right) =>
      var first := Expression(sem, library, left, s);
      if op.LogicalAnd? && first.0 == 0.0 then (0.0, first.1)
      else if op.LogicalOr? && first.0 != 0.0 then (1.0, first.1)
      else
        var second := Expression(sem, library, right, first.1);
        var value :=
          if op.LogicalAnd? || op.LogicalOr? then Truth(second.0 != 0.0) else sem.binary(op, first.0, second.0);
        (value, second.1)
    case Infix(_, ConditionalIf, left, mid, right) =>
      var first := Expression(sem, library, left, s);
      Expression(sem, library, if first.0 != 0.0 then mid else right, first.1)
    case _ => (0.0, s)
  }

  ghost function Action<E>(sem: Semantics<E>, library: Library, t: Body, s: State<E>): (r: (real, State<E>))
    ensures Follows(library, !SetsVariable(t), s, r.1)
    decreases Room(s), 3
  {
    if SetsVariable(t) then (0.0, s.(env := sem.setVariable(t.token.variable, s.env)))
    else if t.Prefix? && !IsUnary(t.token) then
      var r := Expression(sem, library, t.arg, s);
      (sem.raise(t.token, r.0, r.1.env), r.1)
    else Expression(sem, library, t, s)
  }

  /** The walk over the edges of the when-conditions. */
  ghost function Walk<E>(sem: Semantics<E>, library: Library, t: Body, s: State<E>): (r: (real, State<E>))
    ensures Follows(library, SetsNothing(t), s, r.1)
    decreases Room(s), 4, Conditions(t)
  {
    match t
    case When(_, cond, action, next) =>
      var first := Expression(sem, library, cond, s);
      if first.0 == 0.0 then Walk(sem, library, next, first.1)
      else
        var second := Action(sem, library, action, first.1);
        if SetsVariable(action) then Walk(sem, library, next, second.1) else second
    case OpenWhen(_, cond, next) =>
      var first := Expression(sem, library, cond, s);
      SectionSkipped(next);
      Walk(sem, library, if first.0 != 0.0 then next else NextOpenEnded(next), first.1)
    case _ => (0.0, s)
  }

  /** A body: when-conditions, or a single action or expression. */
  ghost function Run<E>(sem: Semantics<E>, library: Library, t: Body, s: State<E>): (r: (real, State<E>))
    ensures Follows(library, SetsNothing(t), s, r.1)
    decreases Room(s), 5
  {
    if t.When? || t.OpenWhen? then Walk(sem, library, t, s) else Action(sem, library, t, s)
  }

  // ---------- Plain evaluation ----------

  function Plain<E>(depth: nat, e: E): State<E> { State(map[], depth, e, map[], false) }

  /** Plain evaluation from this depth meets no error. */
  ghost predicate Ends<E>(sem: Semantics<E>, library: Library, name: string, depth: nat, e: E) {
    name in library && Call(sem, library, name, Plain(depth, e)).1.depth == depth
  }

  /** The value of a function or list: what does not exist is zero. */
  ghost function PlainValue<E>(sem: Semantics<E>, library: Library, name: string, e: E): real {
    if name in library then Call(sem, library, name, Plain(0, e)).0 else UNDEFINED_ZERO
  }

  /** A function that plain evaluation can call at this depth. */
  ghost predicate Reachable<E>(sem: Semantics<E>, library: Library, name: string, depth: nat, e: E) {
    name in library && library[name].Function? && Ends(sem, library, name, depth, e)
  }

  /** All cached results are plain values. */
  ghost predicate TrueCache<E>(sem: Semantics<E>, library: Library, s: State<E>) {
    forall n | n in s.cached ::
      Reachable(sem, library, n, 0, s.env) && s.cached[n] == PlainValue(sem, library, n, s.env)
  }

  /** Evaluated once if it is cached, and not at all otherwise. */
  predicate IsOnce<E>(s: State<E>, name: string) {
    Count(s, name) == if name in s.cached then 1 else 0
  }

  ghost predicate OnceEach<E>(sem: Semantics<E>, library: Library, s: State<E>, depth: nat) {
    forall n | Reachable(sem, library, n, depth, s.env) :: IsOnce(s, n)
  }

  predicate SameFor<E>(s: State<E>, after: State<E>, name: string) {
    && Count(after, name) == Count(s, name) && (name in after.cached <==> name in s.cached)
    && (name in s.cached ==> after.cached[name] == s.cached[name])
  }

  ghost predicate Untouched<E>(sem: Semantics<E>, library: Library, s: State<E>, after: State<E>, depth: nat) {
    forall n | !Reachable(sem, library, n, depth, s.env) :: SameFor(s, after, n)
  }

  /** A state in which the cache makes no difference to what plain evaluation can
      call at this depth. */
  ghost predicate Fits<E>(sem: Semantics<E>, library: Library, s: State<E>, depth: nat) {
    && SetNothing(library)
    && if s.keeps then TrueCache(sem, library, s) && OnceEach(sem, library, s, depth) else s.cached == map[]
  }

  /** An evaluation has kept this, and only concerned what can be called. */
  ghost predicate Kept<E>(sem: Semantics<E>, library: Library, s: State<E>, after: State<E>, depth: nat) {
    && after.env == s.env && after.keeps == s.keeps && Fits(sem, library, after, depth)
    && (s.keeps ==> Untouched(sem, library, s, after, depth))
  }

  /** An evaluation does what plain evaluation does at this depth: without an error
      if it has as much room, and with the same value if there is no error. */
  ghost predicate Agrees<E>(sem: Semantics<E>, library: Library, s: State<E>, depth: nat,
                            r: (real, State<E>), plain: (real, State<E>))
  {
    && (s.depth <= depth ==> r.1.depth == s.depth)
    && (r.1.depth == s.depth ==> r.0 == plain.0 && Kept(sem, library, s, r.1, depth))
  }

  lemma NothingChanged<E(!new)>(sem: Semantics<E>, library: Library, s: State<E>, depth: nat)
    requires Fits(sem, library, s, depth)
    ensures Kept(sem, library, s, s, depth)
  {
    hide Ends;
  }

  lemma KeptOn<E(!new)>(sem: Semantics<E>, library: Library, s: State<E>, t: State<E>, u: State<E>, depth: nat)
    requires Kept(sem, library, s, t, depth) && Kept(sem, library, t, u, depth)
    ensures Kept(sem, library, s, u, depth)
  {
    hide Ends, Count;
  }

  /** One evaluation after the other. */
  lemma AgreesOn<E(!new)>(sem: Semantics<E>, library: Library, s: State<E>, depth: nat,
                          r: (real, State<E>), plain: (real, State<E>), r': (real, State<E>), plain': (real, State<E>))
    requires Agrees(sem, library, s, depth, r, plain) && s.depth <= r.1.depth <= r'.1.depth
    requires r.1.depth == s.depth ==> Agrees(sem, library, r.1, depth, r', plain')
    ensures Agrees(sem, library, s, depth, r', plain')
  {
    hide Kept;
    if r.1.depth == s.depth && r'.1.depth == s.depth {
      KeptOn(sem, library, s, r.1, r'.1, depth);
    }
  }

  /** Without an error plain evaluation changes nothing. */
  lemma PlainStays<E(!new)>(library: Library, depth: nat, e: E, after: State<E>)
    requires SetNothing(library) && Follows(library, true, Plain(depth, e), after) && after.depth == depth
    ensures after == Plain(depth, e)
  {}

  /** The largest depth from which plain evaluation still ends. */
  lemma Highest<E(!new)>(sem: Semantics<E>, library: Library, name: string, depth: nat, e: E) returns (top: nat)
    requires Reachable(sem, library, name, depth, e)
    ensures depth <= top < MAX_RECURSION_DEPTH
    ensures Ends(sem, library, name, top, e) && !Ends(sem, library, name, top + 1, e)
    decreases RoomAt(depth)
  {
    assert depth < MAX_RECURSION_DEPTH;
    if Ends(sem, library, name, depth + 1, e) {
      top := Highest(sem, library, name, depth + 1, e);
    } else {
      top := depth;
    }
  }

  // ---------- The cache makes no difference ----------

  lemma AgreeList<E(!new)>(sem: Semantics<E>, library: Library, name: string, s: State<E>, depth: nat)
    requires Fits(sem, library, s, depth) && name in library && Ends(sem, library, name, depth, s.env)
    requires !library[name].Function? || s.depth >= MAX_RECURSION_DEPTH
    ensures Agrees(sem, library, s, depth, Call(sem, library, name, s), Call(sem, library, name, Plain(depth, s.env)))
  {
    hide Fits, Kept;
    NothingChanged(sem, library, s, depth);
    if name in s.cached {
      CachedAreFunctions(sem, library, s, depth, name);
    }
  }

  lemma CachedAreFunctions<E(!new)>(sem: Semantics<E>, library: Library, s: State<E>, depth: nat, name: string)
    requires Fits(sem, library, s, depth) && name in s.cached
    ensures Reachable(sem, library, name, 0, s.env) && s.cached[name] == PlainValue(sem, library, name, s.env)
  {}

  /** Plain evaluation at another depth. */
  lemma {:induction false} PlainCall<E(!new)>(sem: Semantics<E>, library: Library, name: string, at: nat, depth: nat,
                                              e: E)
    requires SetNothing(library) && Ends(sem, library, name, depth, e)
    ensures at <= depth ==> Ends(sem, library, name, at, e)
    ensures Ends(sem, library, name, at, e) ==>
              Call(sem, library, name, Plain(at, e)).0 == Call(sem, library, name, Plain(depth, e)).0
    decreases RoomAt(depth), 0
  {
    if library[name].Function? && depth < MAX_RECURSION_DEPTH && at < MAX_RECURSION_DEPTH {
      var body := library[name].body;
      BodyStays(sem, library, name, depth, e);
      hide *;
      PlainFits(sem, library, at + 1, depth + 1, e);
      AgreeRun(sem, library, body, Plain(at + 1, e), depth + 1);
      PlainCalls(sem, library, name, at, e);
      PlainCalls(sem, library, name, depth, e);
      AgreeMeans(sem, library, Plain(at + 1, e), depth + 1, Run(sem, library, body, Plain(at + 1, e)),
                 Run(sem, library, body, Plain(depth + 1, e)));
    }
  }

  lemma PlainFits<E(!new)>(sem: Semantics<E>, library: Library, at: nat, depth: nat, e: E)
    requires SetNothing(library)
    ensures Fits(sem, library, Plain(at, e), depth)
  {}

  lemma AgreeMeans<E(!new)>(sem: Semantics<E>, library: Library, s: State<E>, depth: nat,
                            r: (real, State<E>), plain: (real, State<E>))
    requires Agrees(sem, library, s, depth, r, plain)
    ensures s.depth <= depth ==> r.1.depth == s.depth
    ensures r.1.depth == s.depth ==> r.0 == plain.0
  {}

  /** What a plain call of a function is. */
  lemma PlainCalls<E(!new)>(sem: Semantics<E>, library: Library, name: string, depth: nat, e: E)
    requires name in library && library[name].Function? && depth < MAX_RECURSION_DEPTH
    ensures var r := Run(sem, library, library[name].body, Plain(depth + 1, e));
            && Call(sem, library, name, Plain(depth, e)).0 == r.0 && r.1.depth >= depth + 1
            && (Ends(sem, library, name, depth, e) <==> r.1.depth == depth + 1)
  {
    hide Run;
    assert Entered(Plain(depth, e), name) == Plain(depth + 1, e);
  }

  lemma BodyStays<E(!new)>(sem: Semantics<E>, library: Library, name: string, depth: nat, e: E)
    requires SetNothing(library) && Ends(sem, library, name, depth, e) && library[name].Function?
    ensures depth < MAX_RECURSION_DEPTH && SetsNothing(library[name].body)
    ensures Run(sem, library, library[name].body, Plain(depth + 1, e)).1.depth == depth + 1
  {
    hide Run, SetsNothing;
    if depth < MAX_RECURSION_DEPTH {
      PlainCalls(sem, library, name, depth, e);
    }
  }

  /** What can be called deeper down can be called here. */
  lemma Deeper<E(!new)>(sem: Semantics<E>, library: Library, depth: nat, deep: nat, e: E)
    requires SetNothing(library) && depth <= deep
    ensures forall n | Reachable(sem, library, n, deep, e) :: Reachable(sem, library, n, depth, e)
    decreases RoomAt(deep), 1
  {
    forall n | Reachable(sem, library, n, deep, e) ensures Reachable(sem, library, n, depth, e) {
      PlainCall(sem, library, n, depth, deep, e);
    }
  }

  lemma EnteredFits<E(!new)>(sem: Semantics<E>, library: Library, name: string, s: State<E>, depth: nat, top: nat)
    requires Fits(sem, library, s, depth) && s.keeps && !Reachable(sem, library, name, top + 1, s.env)
    requires forall n | Reachable(sem, library, n, top + 1, s.env) :: Reachable(sem, library, n, depth, s.env)
    ensures Fits(sem, library, Entered(s, name), top + 1)
  {
    hide Reachable, PlainValue;
    var entered := Entered(s, name);
    assert entered.cached == s.cached && entered.env == s.env;
    assert TrueCache(sem, library, entered);
    forall n | Reachable(sem, library, n, top + 1, entered.env) ensures IsOnce(entered, n) {
      assert Reachable(sem, library, n, depth, s.env) && IsOnce(s, n) && n != name;
    }
    assert OnceEach(sem, library, entered, top + 1);
  }

  /** The result is entered into the cache. */
  lemma LeftIsKept<E(!new)>(sem: Semantics<E>, library: Library, name: string, s: State<E>, depth: nat, top: nat,
                            after: State<E>, value: real)
    requires Fits(sem, library, s, depth) && s.keeps && name !in s.cached
    requires Reachable(sem, library, name, depth, s.env) && !Reachable(sem, library, name, top + 1, s.env)
    requires forall n | Reachable(sem, library, n, top + 1, s.env) :: Reachable(sem, library, n, depth, s.env)
    requires Kept(sem, library, Entered(s, name), after, top + 1) && after.depth == s.depth + 1
    requires Reachable(sem, library, name, 0, s.env) && value == PlainValue(sem, library, name, s.env)
    ensures Kept(sem, library, s, Left(after, name, value), depth)
  {
    hide Reachable, PlainValue;
    var entered, left := Entered(s, name), Left(after, name, value);
    forall n | n != name && !Reachable(sem, library, n, top + 1, s.env) ensures SameFor(s, left, n) {
      assert SameFor(entered, after, n);
    }
    assert SameFor(entered, after, name);
    assert IsOnce(s, name);
    forall n | Reachable(sem, library, n, depth, s.env) ensures IsOnce(left, n) {
      if n != name && Reachable(sem, library, n, top + 1, s.env) {
        assert IsOnce(after, n);
      } else if n != name {
        assert IsOnce(s, n) && SameFor(s, left, n);
      }
    }
  }

  lemma CachedCallIs<E(!new)>(sem: Semantics<E>, library: Library, name: string, s: State<E>)
    requires name in library && library[name].Function? && s.depth < MAX_RECURSION_DEPTH && name !in s.cached
    ensures var r := Run(sem, library, library[name].body, Entered(s, name));
            && r.1.depth >= s.depth + 1 && Entered(s, name).depth == s.depth + 1 && Entered(s, name).env == s.env
            && Call(sem, library, name, s) == (r.0, Left(r.1, name, r.0))
  {
    hide Run;
  }

  /** The cases in which no body is evaluated. */
  lemma CallWithoutBody<E>(sem: Semantics<E>, library: Library, name: string, s: State<E>)
    requires name in library
    ensures !library[name].List? && s.depth >= MAX_RECURSION_DEPTH ==>
              Call(sem, library, name, s) == (UNDEFINED_ZERO, s.(depth := s.depth + 2))
    ensures !library[name].List? && s.depth < MAX_RECURSION_DEPTH && name in s.cached ==>
              Call(sem, library, name, s) == (s.cached[name], s)
    ensures library[name].Empty? && s.depth < MAX_RECURSION_DEPTH && name !in s.cached ==>
              Call(sem, library, name, s) == (UNDEFINED_ZERO, s)
    ensures library[name].List? ==> Call(sem, library, name, s) == (library[name].value, s)
  {}

  /** What comes out of the body comes out of the call. */
  lemma KeptResult<E(!new)>(sem: Semantics<E>, library: Library, name: string, s: State<E>, depth: nat, top: nat)
    requires Fits(sem, library, s, depth) && s.keeps && depth <= top < MAX_RECURSION_DEPTH
    requires Reachable(sem, library, name, depth, s.env) && !Reachable(sem, library, name, top + 1, s.env)
    requires s.depth < MAX_RECURSION_DEPTH && name !in s.cached && name in library && library[name].Function?
    requires forall n | Reachable(sem, library, n, top + 1, s.env) :: Reachable(sem, library, n, depth, s.env)
    requires Reachable(sem, library, name, 0, s.env)
    requires Call(sem, library, name, Plain(top, s.env)).0 == PlainValue(sem, library, name, s.env)
             == Call(sem, library, name, Plain(depth, s.env)).0
    requires var body, entered := library[name].body, Entered(s, name);
             Agrees(sem, library, entered, top + 1, Run(sem, library, body, entered),
                    Run(sem, library, body, Plain(top + 1, s.env)))
    ensures Agrees(sem, library, s, depth, Call(sem, library, name, s), Call(sem, library, name, Plain(depth, s.env)))
  {
    hide *;
    var e, body := s.env, library[name].body;
    CachedCallIs(sem, library, name, s);
    PlainCalls(sem, library, name, top, e);
    var r := Run(sem, library, body, Entered(s, name));
    var plain := Run(sem, library, body, Plain(top + 1, e));
    AgreeMeans(sem, library, Entered(s, name), top + 1, r, plain);
    AgreeKeeps(sem, library, Entered(s, name), top + 1, r, plain);
    if r.1.depth == s.depth + 1 {
      LeftIsKept(sem, library, name, s, depth, top, r.1, r.0);
    }
    LeftIs(r.1, name, r.0);
    TheyAgree(sem, library, s, depth, Call(sem, library, name, s), Call(sem, library, name, Plain(depth, e)));
  }

  lemma KeptCall<E(!new)>(sem: Semantics<E>, library: Library, name: string, s: State<E>, depth: nat)
    requires Fits(sem, library, s, depth) && s.keeps && Reachable(sem, library, name, depth, s.env)
    requires s.depth < MAX_RECURSION_DEPTH && name !in s.cached
    ensures Agrees(sem, library, s, depth, Call(sem, library, name, s), Call(sem, library, name, Plain(depth, s.env)))
    decreases RoomAt(depth), 1
  {
    var e := s.env;
    assert SetNothing(library);
    var top := Highest(sem, library, name, depth, e);
    assert Reachable(sem, library, name, top, e) && !Reachable(sem, library, name, top + 1, e);
    hide *;
    NowReachable(sem, library, name, depth, e);
    NowReachable(sem, library, name, top, e);
    Deeper(sem, library, depth, top + 1, e);
    EnteredFits(sem, library, name, s, depth, top);
    BodyStays(sem, library, name, top, e);
    CachedCallIs(sem, library, name, s);
    AgreeRun(sem, library, library[name].body, Entered(s, name), top + 1);
    PlainCall(sem, library, name, 0, top, e);
    PlainCall(sem, library, name, depth, top, e);
    PlainValueIs(sem, library, name, e);
    KeptResult(sem, library, name, s, depth, top);
  }

  lemma AgreeKeeps<E(!new)>(sem: Semantics<E>, library: Library, s: State<E>, depth: nat,
                            r: (real, State<E>), plain: (real, State<E>))
    requires Agrees(sem, library, s, depth, r, plain)
    ensures r.1.depth == s.depth ==> Kept(sem, library, s, r.1, depth)
  {
    hide Kept;
  }

  lemma TheyAgree<E(!new)>(sem: Semantics<E>, library: Library, s: State<E>, depth: nat,
                           r: (real, State<E>), plain: (real, State<E>))
    requires s.depth <= depth ==> r.1.depth == s.depth
    requires r.1.depth == s.depth ==> r.0 == plain.0 && Kept(sem, library, s, r.1, depth)
    ensures Agrees(sem, library, s, depth, r, plain)
  {
    hide Kept;
  }

  lemma NowReachable<E(!new)>(sem: Semantics<E>, library: Library, name: string, depth: nat, e: E)
    requires Reachable(sem, library, name, depth, e)
    ensures name in library && library[name].Function? && Ends(sem, library, name, depth, e)
    ensures Ends(sem, library, name, 0, e) ==> Reachable(sem, library, name, 0, e)
  {
    hide Ends;
  }

  lemma PlainValueIs<E(!new)>(sem: Semantics<E>, library: Library, name: string, e: E)
    requires name in library
    ensures PlainValue(sem, library, name, e) == Call(sem, library, name, Plain(0, e)).0
  {
    hide Call;
  }

  lemma LeftIs<E>(s: State<E>, name: string, value: real)
    requires s.depth > 0
    ensures Left(s, name, value).depth == s.depth - 1
  {}

  lemma AgreeCall<E(!new)>(sem: Semantics<E>, library: Library, name: string, s: State<E>, depth: nat)
    requires Fits(sem, library, s, depth) && Ends(sem, library, name, depth, s.env)
    ensures Agrees(sem, library, s, depth, Call(sem, library, name, s), Call(sem, library, name, Plain(depth, s.env)))
    decreases RoomAt(depth), 2
  {
    var e := s.env;
    if !library[name].Function? || s.depth >= MAX_RECURSION_DEPTH {
      AgreeList(sem, library, name, s, depth);
    } else if name in s.cached {
      CachedAreFunctions(sem, library, s, depth, name);
      PlainCall(sem, library, name, 0, depth, e);
      NothingChanged(sem, library, s, depth);
      hide Kept, Fits, Run;
    } else if s.keeps {
      hide Fits, Agrees, Call;
      KeptCall(sem, library, name, s, depth);
    } else {
      NotKeptCall(sem, library, name, s, depth);
    }
  }

  lemma NotKeptCall<E(!new)>(sem: Semantics<E>, library: Library, name: string, s: State<E>, depth: nat)
    requires Fits(sem, library, s, depth) && Reachable(sem, library, name, depth, s.env)
    requires s.depth < MAX_RECURSION_DEPTH && !s.keeps
    ensures Agrees(sem, library, s, depth, Call(sem, library, name, s), Call(sem, library, name, Plain(depth, s.env)))
    decreases RoomAt(depth), 1
  {
    var e, body := s.env, library[name].body;
    assert s.cached == map[];
    assert Fits(sem, library, Entered(s, name), depth + 1);
    BodyStays(sem, library, name, depth, e);
    CachedCallIs(sem, library, name, s);
    PlainCalls(sem, library, name, depth, e);
    AgreeRun(sem, library, body, Entered(s, name), depth + 1);
    hide Run, Ends, Call;
  }

  lemma AgreeSymbol<E(!new)>(sem: Semantics<E>, library: Library, name: string, s: State<E>, depth: nat)
    requires Fits(sem, library, s, depth) && Symbol(sem, library, name, Plain(depth, s.env)).1.depth == depth
    ensures Agrees(sem, library, s, depth, Symbol(sem, library, name, s),
                   Symbol(sem, library, name, Plain(depth, s.env)))
    decreases RoomAt(depth), 3
  {
    hide Fits, Kept, Call;
    NothingChanged(sem, library, s, depth);
    if IsScriptName(name) && name in library {
      AgreeCall(sem, library, name, s, depth);
    }
  }

  /** Two evaluations, the second one where the first one has led to. */
  lemma PlainFirst<E(!new)>(library: Library, depth: nat, e: E, first: State<E>, last: State<E>)
    requires SetNothing(library) && Follows(library, true, Plain(depth, e), first) && first.depth <= last.depth == depth
    ensures first == Plain(depth, e)
  {
    PlainStays(library, depth, e, first);
  }

  lemma ErrorBefore<E(!new)>(sem: Semantics<E>, library: Library, s: State<E>, depth: nat,
                             first: (real, State<E>), plainFirst: (real, State<E>),
                             r: (real, State<E>), plain: (real, State<E>))
    requires Agrees(sem, library, s, depth, first, plainFirst) && s.depth < first.1.depth <= r.1.depth
    ensures Agrees(sem, library, s, depth, r, plain)
  {
    hide Kept;
  }

  /** The same with another value that both have. */
  lemma AgreesWith<E(!new)>(sem: Semantics<E>, library: Library, s: State<E>, depth: nat,
                            r: (real, State<E>), plain: (real, State<E>),
                            r': (real, State<E>), plain': (real, State<E>))
    requires Agrees(sem, library, s, depth, r, plain) && r'.1 == r.1
    requires r.1.depth == s.depth && r.0 == plain.0 ==> r'.0 == plain'.0
    ensures Agrees(sem, library, s, depth, r', plain')
  {
    hide Kept;
  }

  lemma FitsAfter<E(!new)>(sem: Semantics<E>, library: Library, s: State<E>, depth: nat,
                           r: (real, State<E>), plain: (real, State<E>))
    requires Agrees(sem, library, s, depth, r, plain) && r.1.depth == s.depth
    ensures r.0 == plain.0 && Fits(sem, library, r.1, depth) && r.1.env == s.env
  {
    hide Fits;
  }

  lemma AgreeBinary<E(!new)>(sem: Semantics<E>, library: Library, t: Body, s: State<E>, depth: nat)
    requires Fits(sem, library, s, depth) && t.Infix? && t.token.Binary?
    requires Expression(sem, library, t, Plain(depth, s.env)).1.depth == depth
    ensures Agrees(sem, library, s, depth, Expression(sem, library, t, s),
                   Expression(sem, library, t, Plain(depth, s.env)))
    decreases RoomAt(depth), 4, t, 0
  {
    var plain := Plain(depth, s.env);
    var r, p := Expression(sem, library, t, s), Expression(sem, library, t, plain);
    var r1, p1 := Expression(sem, library, t.left, s), Expression(sem, library, t.left, plain);
    var op := t.token.operator;
    assert SetNothing(library);
    PlainFirst(library, depth, s.env, p1.1, p.1);
    AgreeExpression(sem, library, t.left, s, depth);
    if r1.1.depth > s.depth {
      ErrorBefore(sem, library, s, depth, r1, p1, r, p);
    } else {
      FitsAfter(sem, library, s, depth, r1, p1);
      if (op.LogicalAnd? && r1.0 == 0.0) || (op.LogicalOr? && r1.0 != 0.0) {
        AgreesWith(sem, library, s, depth, r1, p1, r, p);
      } else {
        var r2, p2 := Expression(sem, library, t.right, r1.1), Expression(sem, library, t.right, plain);
        AgreeExpression(sem, library, t.right, r1.1, depth);
        AgreesOn(sem, library, s, depth, r1, p1, r2, p2);
        AgreesWith(sem, library, s, depth, r2, p2, r, p);
      }
    }
  }

  lemma AgreeConditional<E(!new)>(sem: Semantics<E>, library: Library, t: Body, s: State<E>, depth: nat)
    requires Fits(sem, library, s, depth) && t.Infix? && t.token.ConditionalIf?
    requires Expression(sem, library, t, Plain(depth, s.env)).1.depth == depth
    ensures Agrees(sem, library, s, depth, Expression(sem, library, t, s),
                   Expression(sem, library, t, Plain(depth, s.env)))
    decreases RoomAt(depth), 4, t, 0
  {
    var plain := Plain(depth, s.env);
    var r, p := Expression(sem, library, t, s), Expression(sem, library, t, plain);
    var r1, p1 := Expression(sem, library, t.left, s), Expression(sem, library, t.left, plain);
    assert SetNothing(library);
    PlainFirst(library, depth, s.env, p1.1, p.1);
    AgreeExpression(sem, library, t.left, s, depth);
    if r1.1.depth > s.depth {
      ErrorBefore(sem, library, s, depth, r1, p1, r, p);
    } else {
      FitsAfter(sem, library, s, depth, r1, p1);
      AgreeExpression(sem, library, if r1.0 != 0.0 then t.mid else t.right, r1.1, depth);
      AgreesOn(sem, library, s, depth, r1, p1, r, p);
    }
  }

  lemma {:induction false} AgreeExpression<E(!new)>(sem: Semantics<E>, library: Library, t: Body, s: State<E>,
                                                    depth: nat)
    requires Fits(sem, library, s, depth) && Expression(sem, library, t, Plain(depth, s.env)).1.depth == depth
    ensures Agrees(sem, library, s, depth, Expression(sem, library, t, s),
                   Expression(sem, library, t, Plain(depth, s.env)))
    decreases RoomAt(depth), 4, t, 1
  {
    hide Fits, Kept, Symbol;
    var plain := Plain(depth, s.env);
    match t
    case Atom(_, Identifier(name)) => AgreeSymbol(sem, library, name, s, depth);
    case Prefix(_, Unary(op), _, arg) =>
      AgreeExpression(sem, library, arg, s, depth);
      AgreesWith(sem, library, s, depth, Expression(sem, library, arg, s), Expression(sem, library, arg, plain),
                 Expression(sem, library, t, s), Expression(sem, library, t, plain));
    case Prefix(_, BracketOpen(_), _, arg) => AgreeExpression(sem, library, arg, s, depth);
    case Infix(_, Binary(_), _, _, _) => AgreeBinary(sem, library, t, s, depth);
    case Infix(_, ConditionalIf, _, _, _) => AgreeConditional(sem, library, t, s, depth);
    case _ => NothingChanged(sem, library, s, depth);
  }

  lemma AgreeAction<E(!new)>(sem: Semantics<E>, library: Library, t: Body, s: State<E>, depth: nat)
    requires Fits(sem, library, s, depth) && !SetsVariable(t)
    requires Action(sem, library, t, Plain(depth, s.env)).1.depth == depth
    ensures Agrees(sem, library, s, depth, Action(sem, library, t, s), Action(sem, library, t, Plain(depth, s.env)))
    decreases RoomAt(depth), 5
  {
    hide Fits, Kept, Expression;
    var plain := Plain(depth, s.env);
    if t.Prefix? && !IsUnary(t.token) {
      var r, p := Expression(sem, library, t.arg, s), Expression(sem, library, t.arg, plain);
      AgreeExpression(sem, library, t.arg, s, depth);
      EnvStays(sem, library, t.arg, s, depth);
      AgreesWith(sem, library, s, depth, r, p, Action(sem, library, t, s), Action(sem, library, t, plain));
    } else {
      AgreeExpression(sem, library, t, s, depth);
    }
  }

  lemma EnvStays<E(!new)>(sem: Semantics<E>, library: Library, t: Body, s: State<E>, depth: nat)
    requires Fits(sem, library, s, depth)
    ensures Expression(sem, library, t, s).1.env == s.env
    ensures Expression(sem, library, t, Plain(depth, s.env)).1.env == s.env
  {
    hide Expression;
  }

  lemma {:induction false} AgreeWalk<E(!new)>(sem: Semantics<E>, library: Library, t: Body, s: State<E>, depth: nat)
    requires Fits(sem, library, s, depth) && SetsNothing(t)
    requires Walk(sem, library, t, Plain(depth, s.env)).1.depth == depth
    ensures Agrees(sem, library, s, depth, Walk(sem, library, t, s), Walk(sem, library, t, Plain(depth, s.env)))
    decreases RoomAt(depth), 6, Conditions(t)
  {
    var plain := Plain(depth, s.env);
    if t.When? || t.OpenWhen? {
      var r, p := Walk(sem, library, t, s), Walk(sem, library, t, plain);
      var r1, p1 := Expression(sem, library, t.cond, s), Expression(sem, library, t.cond, plain);
      assert SetNothing(library);
      PlainFirst(library, depth, s.env, p1.1, p.1);
      AgreeExpression(sem, library, t.cond, s, depth);
      hide Expression, Action, Fits, Kept, Agrees;
      if r1.1.depth > s.depth {
        ErrorBefore(sem, library, s, depth, r1, p1, r, p);
      } else {
        FitsAfter(sem, library, s, depth, r1, p1);
        SectionSkipped(t.next);
        if t.When? && r1.0 != 0.0 {
          AgreeAction(sem, library, t.action, r1.1, depth);
        } else {
          AgreeWalk(sem, library, if t.When? || r1.0 != 0.0 then t.next else NextOpenEnded(t.next), r1.1, depth);
        }
        AgreesOn(sem, library, s, depth, r1, p1, r, p);
      }
    } else {
      NothingChanged(sem, library, s, depth);
    }
  }

  lemma AgreeRun<E(!new)>(sem: Semantics<E>, library: Library, t: Body, s: State<E>, depth: nat)
    requires Fits(sem, library, s, depth) && SetsNothing(t)
    requires Run(sem, library, t, Plain(depth, s.env)).1.depth == depth
    ensures Agrees(sem, library, s, depth, Run(sem, library, t, s), Run(sem, library, t, Plain(depth, s.env)))
    decreases RoomAt(depth), 7
  {
    hide Fits, Agrees, Walk, Action;
    if t.When? || t.OpenWhen? {
      AgreeWalk(sem, library, t, s, depth);
    } else {
      AgreeAction(sem, library, t, s, depth);
    }
  }

  // ---------- Heartbeats ----------

  /** Every cached result is a plain value, after exactly one evaluation, and nothing
      else has been evaluated. */
  ghost predicate Consistent<E>(sem: Semantics<E>, library: Library, s: State<E>) {
    s.keeps && TrueCache(sem, library, s) && forall n :: IsOnce(s, n)
  }

  /** If no user variable is set, a consistent state stays consistent, and the result
      is the plain value, whenever plain evaluation ends within the limit from here:
      the cache makes no difference. */
  lemma HeartbeatIsTrue<E(!new)>(sem: Semantics<E>, library: Library, name: string, s: State<E>)
    requires SetNothing(library) && Consistent(sem, library, s) && Ends(sem, library, name, s.depth, s.env)
    ensures var r := Call(sem, library, name, s);
            && r.0 == PlainValue(sem, library, name, s.env)
            && r.1.depth == s.depth && r.1.env == s.env && Consistent(sem, library, r.1)
  {
    hide Call, Ends;
    NowInLibrary(sem, library, name, s.depth, s.env);
    var r, plain := Call(sem, library, name, s), Call(sem, library, name, Plain(s.depth, s.env));
    AgreeCall(sem, library, name, s, s.depth);
    PlainCall(sem, library, name, 0, s.depth, s.env);
    StaysConsistent(sem, library, s, s.depth, r, plain);
  }

  lemma NowInLibrary<E(!new)>(sem: Semantics<E>, library: Library, name: string, depth: nat, e: E)
    requires Ends(sem, library, name, depth, e)
    ensures name in library
  {}

  lemma StaysConsistent<E(!new)>(sem: Semantics<E>, library: Library, s: State<E>, depth: nat,
                                 r: (real, State<E>), plain: (real, State<E>))
    requires Consistent(sem, library, s) && s.depth <= depth && Agrees(sem, library, s, depth, r, plain)
    ensures Consistent(sem, library, r.1) && r.0 == plain.0 && r.1.depth == s.depth && r.1.env == s.env
  {
    hide Reachable, PlainValue;
    forall n ensures IsOnce(r.1, n) {
      if !Reachable(sem, library, n, depth, s.env) {
        assert SameFor(s, r.1, n) && IsOnce(s, n);
      }
    }
  }

  /** Where a user variable is set, the cache does make a difference: a function that
      reads the variable keeps its old value for the rest of the heartbeat. */
  lemma VariableMakesStale<E(!new)>(sem: Semantics<E>, library: Library, name: string, variable: string,
                                    s: State<E>, changed: E)
    requires name in library && library[name] == Function(Atom((), Identifier(variable))) && !IsScriptName(variable)
    requires Consistent(sem, library, s) && name in s.cached && s.depth < MAX_RECURSION_DEPTH
    requires sem.identifier(variable, changed) != sem.identifier(variable, s.env)
    ensures Call(sem, library, name, s.(env := changed)).0 != PlainValue(sem, library, name, changed)
  {
    hide Reachable, Ends, SetNothing;
    ReadsVariable(sem, library, name, variable, s.env);
    ReadsVariable(sem, library, name, variable, changed);
    CallWithoutBody(sem, library, name, s.(env := changed));
  }

  lemma ReadsVariable<E>(sem: Semantics<E>, library: Library, name: string, variable: string, e: E)
    requires name in library && library[name] == Function(Atom((), Identifier(variable))) && !IsScriptName(variable)
    ensures PlainValue(sem, library, name, e) == sem.identifier(variable, e)
  {
    var body: Body := Atom((), Identifier(variable));
    var entered := Entered(Plain(0, e), name);
    assert Action(sem, library, body, entered) == Expression(sem, library, body, entered);
    assert Run(sem, library, body, entered) == Symbol(sem, library, variable, entered);
  }

  // ---------- The meaning of plain values ----------

  ghost function SymbolValue<E>(sem: Semantics<E>, library: Library, name: string, e: E): real {
    if IsScriptName(name) then PlainValue(sem, library, name, e) else sem.identifier(name, e)
  }

  /** The semantics in which every identifier stands for its plain value. */
  ghost function CacheFree<E>(sem: Semantics<E>, library: Library): Semantics<E> {
    sem.(identifier := (n: string, e: E) => SymbolValue(sem, library, n, e))
  }

  /** What an identifier is worth: a list has its value, an empty function and any missing
      function or list are zero, and other names belong to other engines. */
  lemma IdentifiersAreWorth<E(!new)>(sem: Semantics<E>, library: Library, name: string, e: E)
    ensures CacheFree(sem, library).identifier(name, e) ==
              if !IsScriptName(name) then sem.identifier(name, e)
              else if name !in library || library[name].Empty? then 0.0
              else if library[name].List? then library[name].value
              else PlainValue(sem, library, name, e)
  {
    hide Run;
    if name in library { PlainValueIs(sem, library, name, e); }
  }

  lemma SymbolIsValue<E(!new)>(sem: Semantics<E>, library: Library, name: string, depth: nat, e: E)
    requires SetNothing(library) && Symbol(sem, library, name, Plain(depth, e)).1.depth == depth
    ensures Symbol(sem, library, name, Plain(depth, e)).0 == SymbolValue(sem, library, name, e)
  {
    hide Call;
    if IsScriptName(name) && name in library {
      PlainCall(sem, library, name, 0, depth, e);
    }
  }

  lemma {:induction false} ExpressionIsValue<E(!new)>(sem: Semantics<E>, library: Library, t: Body, depth: nat, e: E)
    requires SetNothing(library) && Expression(sem, library, t, Plain(depth, e)).1.depth == depth
    ensures Expression(sem, library, t, Plain(depth, e)).0 == Value(CacheFree(sem, library), t, e)
    decreases t
  {
    hide Symbol, SymbolValue, SetNothing;
    var plain := Plain(depth, e);
    match t
    case Atom(_, Identifier(name)) => SymbolIsValue(sem, library, name, depth, e);
    case Prefix(_, _, _, arg) =>
      if IsUnary(t.token) {
        ExpressionIsValue(sem, library, arg, depth, e);
      }
    case Infix(_, token, left, mid, right) =>
      if token.Binary? || token.ConditionalIf? {
        var first, last := Expression(sem, library, left, plain).1, Expression(sem, library, t, plain).1;
        PlainFirst(library, depth, e, first, last);
        ExpressionIsValue(sem, library, left, depth, e);
        SecondIsValue(sem, library, t, depth, e);
      }
    case _ =>
  }

  lemma SecondIsValue<E(!new)>(sem: Semantics<E>, library: Library, t: Body, depth: nat, e: E)
    requires SetNothing(library) && t.Infix? && (t.token.Binary? || t.token.ConditionalIf?)
    requires Expression(sem, library, t, Plain(depth, e)).1.depth == depth
    requires Expression(sem, library, t.left, Plain(depth, e))
             == (Value(CacheFree(sem, library), t.left, e), Plain(depth, e))
    ensures Expression(sem, library, t, Plain(depth, e)).0 == Value(CacheFree(sem, library), t, e)
    decreases t, 0
  {
    hide Symbol, SymbolValue, SetNothing;
    var first := Value(CacheFree(sem, library), t.left, e);
    if t.token.ConditionalIf? {
      ExpressionIsValue(sem, library, if first != 0.0 then t.mid else t.right, depth, e);
    } else if !(t.token.operator.LogicalAnd? && first == 0.0) && !(t.token.operator.LogicalOr? && first != 0.0) {
      ExpressionIsValue(sem, library, t.right, depth, e);
    }
  }

  lemma ActionIsOutcome<E(!new)>(sem: Semantics<E>, library: Library, t: Body, depth: nat, e: E)
    requires SetNothing(library) && !SetsVariable(t) && Action(sem, library, t, Plain(depth, e)).1.depth == depth
    ensures (Action(sem, library, t, Plain(depth, e)).0, e) == ActionOutcome(CacheFree(sem, library), t, e)
  {
    hide Expression, SetNothing;
    if t.Prefix? && !IsUnary(t.token) {
      PlainStays(library, depth, e, Expression(sem, library, t.arg, Plain(depth, e)).1);
      ExpressionIsValue(sem, library, t.arg, depth, e);
    } else {
      ExpressionIsValue(sem, library, t, depth, e);
    }
  }

  lemma {:induction false} WalkIsScan<E(!new)>(sem: Semantics<E>, library: Library, t: Body, depth: nat, e: E)
    requires SetNothing(library) && SetsNothing(t) && Walk(sem, library, t, Plain(depth, e)).1.depth == depth
    ensures Walk(sem, library, t, Plain(depth, e)).0 == Scan(CacheFree(sem, library), t, true, e).0
    decreases Conditions(t)
  {
    hide Expression, Action, ActionOutcome, SetNothing, CacheFree;
    var plain := Plain(depth, e);
    if t.When? || t.OpenWhen? {
      var first := Expression(sem, library, t.cond, plain);
      PlainFirst(library, depth, e, first.1, Walk(sem, library, t, plain).1);
      ExpressionIsValue(sem, library, t.cond, depth, e);
      SectionSkipped(t.next);
      if t.When? && first.0 != 0.0 {
        ActionIsOutcome(sem, library, t.action, depth, e);
      } else if t.When? || first.0 != 0.0 {
        WalkIsScan(sem, library, t.next, depth, e);
      } else {
        WalkIsScan(sem, library, NextOpenEnded(t.next), depth, e);
        ScanSkipsSection(CacheFree(sem, library), t.next, e);
      }
    }
  }

  lemma RunIsMeaning<E(!new)>(sem: Semantics<E>, library: Library, t: Body, depth: nat, e: E)
    requires SetNothing(library) && SetsNothing(t) && Run(sem, library, t, Plain(depth, e)).1.depth == depth
    ensures Run(sem, library, t, Plain(depth, e)).0 == Meaning(CacheFree(sem, library), t, e).0
  {
    hide Walk, Action, ActionOutcome, CacheFree;
    if t.When? || t.OpenWhen? {
      WalkIsScan(sem, library, t, depth, e);
    } else {
      ActionIsOutcome(sem, library, t, depth, e);
    }
  }

  /** Plain evaluation that ends is the plain recursion: a function means what its
      body means, with every identifier at its value. */
  lemma CacheFreeRecursion<E(!new)>(sem: Semantics<E>, library: Library, name: string, depth: nat, e: E)
    requires SetNothing(library) && Reachable(sem, library, name, depth, e)
    ensures PlainValue(sem, library, name, e) == Meaning(CacheFree(sem, library), library[name].body, e).0
  {
    hide Run, CacheFree, Meaning;
    PlainCall(sem, library, name, 0, depth, e);
    BodyStays(sem, library, name, 0, e);
    PlainCalls(sem, library, name, 0, e);
    RunIsMeaning(sem, library, library[name].body, 1, e);
  }

  // ---------- Libraries without cycles ----------

  /** The identifiers of a body. */
  function Names(t: Body): set<string> {
    match t
    case Atom(_, token) => if token.Identifier? then {token.name} else {}
    case Prefix(_, _, _, arg) => Names(arg)
    case Infix(_, _, left, mid, right) => Names(left) + Names(mid) + Names(right)
    case When(_, cond, action, next) => Names(cond) + Names(action) + Names(next)
    case OpenWhen(_, cond, next) => Names(cond) + Names(next)
    case Nil => {}
  }

  lemma {:induction false} FewerNames(t: Body)
    ensures Names(NextOpenEnded(t)) <= Names(t)
  {
    if t.When? {
      FewerNames(t.next);
    }
  }

  /** Functions only refer to functions of a lower rank. */
  ghost predicate Acyclic(library: Library, rank: string -> nat) {
    forall f, n | f in library && library[f].Function? && n in Names(library[f].body) && n in library ::
      rank(n) < rank(f)
  }

  ghost predicate NamesBelow(library: Library, rank: string -> nat, t: Body, bound: nat) {
    forall n | n in Names(t) && n in library :: rank(n) < bound
  }

  /** Without cycles plain evaluation ends, unless the functions are nested too deeply. */
  lemma {:induction false} AcyclicEnds<E(!new)>(sem: Semantics<E>, library: Library, rank: string -> nat,
                                                name: string, depth: nat, e: E)
    requires Acyclic(library, rank) && name in library && rank(name) + depth < MAX_RECURSION_DEPTH
    ensures Ends(sem, library, name, depth, e)
    decreases rank(name), 4
  {
    if library[name].Function? {
      hide Run;
      PlainCalls(sem, library, name, depth, e);
      var body := library[name].body;
      assert NamesBelow(library, rank, body, rank(name));
      RunEnds(sem, library, rank, body, Plain(depth + 1, e), rank(name));
    }
  }

  ghost predicate HasRoom<E>(library: Library, rank: string -> nat, t: Body, s: State<E>, bound: nat) {
    && Acyclic(library, rank) && NamesBelow(library, rank, t, bound) && s.depth + bound <= MAX_RECURSION_DEPTH
    && !s.keeps && s.cached == map[] && s.evaluations == map[]
  }

  lemma {:induction false} ExpressionEnds<E(!new)>(sem: Semantics<E>, library: Library, rank: string -> nat, t: Body,
                                                   s: State<E>, bound: nat)
    requires HasRoom(library, rank, t, s, bound)
    ensures Expression(sem, library, t, s).1.depth == s.depth
    decreases bound, 0, t
  {
    hide Acyclic, Call;
    match t
    case Atom(_, Identifier(name)) =>
      if IsScriptName(name) && name in library {
        assert s == Plain(s.depth, s.env);
        AcyclicEnds(sem, library, rank, name, s.depth, s.env);
      }
    case Prefix(_, _, _, arg) => ExpressionEnds(sem, library, rank, arg, s, bound);
    case Infix(_, _, left, mid, right) =>
      ExpressionEnds(sem, library, rank, left, s, bound);
      var first := Expression(sem, library, left, s).1;
      ExpressionEnds(sem, library, rank, mid, first, bound);
      ExpressionEnds(sem, library, rank, right, first, bound);
    case _ =>
  }

  lemma ActionEnds<E(!new)>(sem: Semantics<E>, library: Library, rank: string -> nat, t: Body, s: State<E>, bound: nat)
    requires HasRoom(library, rank, t, s, bound)
    ensures Action(sem, library, t, s).1.depth == s.depth
    decreases bound, 1
  {
    hide Acyclic, Expression;
    ExpressionEnds(sem, library, rank, t, s, bound);
    if t.Prefix? {
      ExpressionEnds(sem, library, rank, t.arg, s, bound);
    }
  }

  lemma {:induction false} WalkEnds<E(!new)>(sem: Semantics<E>, library: Library, rank: string -> nat, t: Body,
                                             s: State<E>, bound: nat)
    requires HasRoom(library, rank, t, s, bound)
    ensures Walk(sem, library, t, s).1.depth == s.depth
    decreases bound, 2, Conditions(t)
  {
    hide Acyclic, Expression, Action;
    if t.When? || t.OpenWhen? {
      ExpressionEnds(sem, library, rank, t.cond, s, bound);
      var first := Expression(sem, library, t.cond, s);
      SectionSkipped(t.next);
      FewerNames(t.next);
      if t.When? && first.0 != 0.0 {
        ActionEnds(sem, library, rank, t.action, first.1, bound);
        WalkEnds(sem, library, rank, t.next, Action(sem, library, t.action, first.1).1, bound);
      } else {
        var next := if t.When? || first.0 != 0.0 then t.next else NextOpenEnded(t.next);
        WalkEnds(sem, library, rank, next, first.1, bound);
      }
    }
  }

  lemma RunEnds<E(!new)>(sem: Semantics<E>, library: Library, rank: string -> nat, t: Body, s: State<E>, bound: nat)
    requires HasRoom(library, rank, t, s, bound)
    ensures Run(sem, library, t, s).1.depth == s.depth
    decreases bound, 3
  {
    hide HasRoom, Walk, Action;
    if t.When? || t.OpenWhen? {
      WalkEnds(sem, library, rank, t, s, bound);
    } else {
      ActionEnds(sem, library, rank, t, s, bound);
    }
  }

  // ---------- Functions that call themselves ----------

  /** Beyond the limit every function is zero. */
  lemma ExhaustedIsZero<E>(sem: Semantics<E>, library: Library, name: string, s: State<E>)
    requires name in library && !library[name].List? && s.depth >= MAX_RECURSION_DEPTH
    ensures Call(sem, library, name, s) == (UNDEFINED_ZERO, s.(depth := s.depth + 2))
  {}

  /** A function that is nothing but itself. */
  ghost predicate CallsItself(library: Library, name: string) {
    IsScriptName(name) && name in library && library[name] == Function(Atom((), Identifier(name)))
  }

  /** An endless recursion gives zero, and leaves the counter two higher. */
  lemma {:induction false} EndlessRecursion<E>(sem: Semantics<E>, library: Library, name: string, s: State<E>)
    requires CallsItself(library, name) && name !in s.cached
    ensures Call(sem, library, name, s).0 == UNDEFINED_ZERO && Call(sem, library, name, s).1.depth == s.depth + 2
    decreases Room(s)
  {
    if s.depth < MAX_RECURSION_DEPTH {
      var entered := Entered(s, name);
      var body: Body := Atom((), Identifier(name));
      assert Action(sem, library, body, entered) == Expression(sem, library, body, entered);
      assert Run(sem, library, body, entered) == Symbol(sem, library, name, entered);
      EndlessRecursion(sem, library, name, entered);
    }
  }

  /** The state after some heartbeats: each one clears all cached results, and then
      evaluates this function. */
  ghost function After<E>(sem: Semantics<E>, library: Library, name: string, heartbeats: nat, e: E): State<E>
    requires name in library
  {
    if heartbeats == 0 then State(map[], 0, e, map[], true)
    else
      var s := After(sem, library, name, heartbeats - 1, e);
      Call(sem, library, name, s.(cached := map[], evaluations := map[])).1
  }

  /** The counter never comes back: after fifty heartbeats with such an error every
      function is zero for good. */
  lemma {:induction false} ErrorsAddUp<E>(sem: Semantics<E>, library: Library, name: string, heartbeats: nat, e: E)
    requires CallsItself(library, name)
    ensures After(sem, library, name, heartbeats, e).depth == 2 * heartbeats
    ensures heartbeats >= 50 ==>
              forall n | n in library && !library[n].List? ::
                Call(sem, library, n, After(sem, library, name, heartbeats, e)).0 == UNDEFINED_ZERO
  {
    if heartbeats > 0 {
      ErrorsAddUp(sem, library, name, heartbeats - 1, e);
      var s := After(sem, library, name, heartbeats - 1, e).(cached := map[], evaluations := map[]);
      EndlessRecursion(sem, library, name, s);
    }
    forall n | heartbeats >= 50 && n in library && !library[n].List?
      ensures Call(sem, library, n, After(sem, library, name, heartbeats, e)).0 == UNDEFINED_ZERO
    {
      ExhaustedIsZero(sem, library, n, After(sem, library, name, heartbeats, e));
    }
  }
}
