/** Parse trees as values, and the rotation of CParseTreeRotator on them.

    A tree records, besides the tokens, a reference per node: the heap node it
    stands for (or nothing of interest, for statements about tokens alone). */
module ParseTrees {
  import opened Tokens

  datatype Tree<+R> =
    // a missing operand or the end of a when-sequence
    | Nil
    // identifiers, numbers, predefined actions and user variables
    | Atom(ref: R, token: Token)
    // brackets (with the closing token that was read), unary operators, and
    // the RaiseTo and RaiseBy actions with their amount
    | Prefix(ref: R, token: Token, close: seq<Token>, arg: Tree<R>)
    // binary operators (mid is Nil) and "left ? mid : right"
    | Infix(ref: R, token: Token, left: Tree<R>, mid: Tree<R>, right: Tree<R>)
    // a when-condition with action, and the when-conditions after it
    | When(ref: R, cond: Tree<R>, action: Tree<R>, next: Tree<R>)
    // an open-ended when-condition, and the when-conditions after it
    | OpenWhen(ref: R, cond: Tree<R>, next: Tree<R>)

  // ---------- Shapes the parser builds ----------

  predicate IsExpression<R>(t: Tree<R>) {
    match t
    case Atom(_, token) => token.Identifier? || token.Number?
    case Prefix(_, token, close, arg) =>
      && IsExpression(arg)
      && if token.BracketOpen? then |close| == 1 && ClosesBracket(token.open, close[0])
         else token.Unary? && close == []
    case Infix(_, token, left, mid, right) =>
      && IsExpression(left) && IsExpression(right)
      && if token.ConditionalIf? then IsExpression(mid) else token.Binary? && mid.Nil?
    case _ => false
  }

  /** The tokens of an expression, in the order they are read. */
  function Spelling<R>(t: Tree<R>): seq<Token> {
    match t
    case Atom(_, token) => [token]
    case Prefix(_, token, close, arg) => [token] + Spelling(arg) + close
    case Infix(_, token, left, mid, right) =>
      Spelling(left) + (Opening(token, Spelling(mid)) + Spelling(right))
    case _ => []
  }

  /** An infix operator up to its right operand: "+", or "? then :". */
  function Opening(token: Token, mid: seq<Token>): seq<Token> {
    if token.ConditionalIf? then [token] + mid + [ConditionalElse] else [token]
  }

  /** The nodes of a tree from left to right, each at the place of its token. */
  function InOrder<R>(t: Tree<R>): seq<R> {
    match t
    case Nil => []
    case Atom(ref, _) => [ref]
    case Prefix(ref, _, _, arg) => [ref] + InOrder(arg)
    case Infix(ref, _, left, mid, right) => InOrder(left) + [ref] + InOrder(mid) + InOrder(right)
    case When(ref, cond, action, next) => [ref] + InOrder(cond) + InOrder(action) + InOrder(next)
    case OpenWhen(ref, cond, next) => [ref] + InOrder(cond) + InOrder(next)
  }

  // ---------- Rotation ----------

  /** The operand a left rotation would lift: GetRightMostSibbling(). */
  function RightMost<R>(t: Tree<R>): Tree<R> {
    match t
    case Prefix(_, token, _, arg) => if IsUnary(token) then arg else Nil
    case Infix(_, _, _, _, right) => right
    case _ => Nil
  }

  function WithRightMost<R>(t: Tree<R>, right: Tree<R>): (r: Tree<R>)
    requires !RightMost(t).Nil?
  {
    if t.Prefix? then t.(arg := right) else t.(right := right)
  }

  predicate LooserThan(table: OperatorTable, child: Token, parent: Token) {
    || table.priority(child) < table.priority(parent)
    || (table.priority(child) == table.priority(parent) && !table.rightAssociative(parent))
  }

  predicate NeedsLeftRotation<R>(table: OperatorTable, t: Tree<R>) {
    && RightMost(t).Infix?
    && table.priority(RightMost(t).token) != UNDEFINED
    && LooserThan(table, RightMost(t).token, t.token)
  }

  /** A node whose operands are in order, after all its left rotations. */
  function Settled<R>(table: OperatorTable, t: Tree<R>): (r: Tree<R>)
    decreases RightMost(t)
  {
    if NeedsLeftRotation(table, t) then
      var s := RightMost(t);
      s.(left := Settled(table, WithRightMost(t, s.left)))
    else t
  }

  /** The number of left rotations that Settled performs. */
  function SettleCount<R>(table: OperatorTable, t: Tree<R>): nat
    decreases RightMost(t)
  {
    if NeedsLeftRotation(table, t)
    then 1 + SettleCount(table, WithRightMost(t, RightMost(t).left))
    else 0
  }

  /** The tree after all operands, bottom-up, and then the node itself. */
  function Rotated<R>(table: OperatorTable, t: Tree<R>): (r: Tree<R>)
  {
    match t
    case Nil | Atom(_, _) => t
    case Prefix(_, _, _, arg) => Settled(table, t.(arg := Rotated(table, arg)))
    case Infix(_, _, left, mid, right) =>
      Settled(table, t.(left := Rotated(table, left), mid := Rotated(table, mid), right := Rotated(table, right)))
    case When(_, cond, action, next) =>
      t.(cond := Rotated(table, cond), action := Rotated(table, action), next := Rotated(table, next))
    case OpenWhen(_, cond, next) =>
      t.(cond := Rotated(table, cond), next := Rotated(table, next))
  }

  /** The node itself, over its rotated operands. */
  function Prepared<R>(table: OperatorTable, t: Tree<R>): (r: Tree<R>)
  {
    match t
    case Nil | Atom(_, _) => t
    case Prefix(_, _, _, arg) => t.(arg := Rotated(table, arg))
    case Infix(_, _, left, mid, right) =>
      t.(left := Rotated(table, left), mid := Rotated(table, mid), right := Rotated(table, right))
    case When(_, cond, action, next) =>
      t.(cond := Rotated(table, cond), action := Rotated(table, action), next := Rotated(table, next))
    case OpenWhen(_, cond, next) =>
      t.(cond := Rotated(table, cond), next := Rotated(table, next))
  }

  lemma RotatedIsSettled<R>(table: OperatorTable, t: Tree<R>)
    ensures Rotated(table, t) == Settled(table, Prepared(table, t))
  {
  }

  /** No node is left that would still have to be rotated. */
  predicate FullyRotated<R>(table: OperatorTable, t: Tree<R>) {
    && !NeedsLeftRotation(table, t)
    && match t
       case Nil | Atom(_, _) => true
       case Prefix(_, _, _, arg) => FullyRotated(table, arg)
       case Infix(_, _, left, mid, right) =>
         FullyRotated(table, left) && FullyRotated(table, mid) && FullyRotated(table, right)
       case When(_, cond, action, next) =>
         FullyRotated(table, cond) && FullyRotated(table, action) && FullyRotated(table, next)
       case OpenWhen(_, cond, next) => FullyRotated(table, cond) && FullyRotated(table, next)
  }

  // ---------- Rotation for every table: what moves and what stays ----------

  lemma Reassociate<T>(a: seq<T>, b: seq<T>, c: seq<T>, d: seq<T>, e: seq<T>)
    ensures a + (b + c + d + e) == a + b + c + d + e
  {}

  lemma {:induction false} SettledKeepsInOrder<R>(table: OperatorTable, t: Tree<R>)
    ensures InOrder(Settled(table, t)) == InOrder(t)
    decreases RightMost(t)
  {
    if NeedsLeftRotation(table, t) {
      var s := RightMost(t);
      SettledKeepsInOrder(table, WithRightMost(t, s.left));
      var before := if t.Prefix? then [t.ref] else InOrder(t.left) + [t.ref] + InOrder(t.mid);
      Reassociate(before, InOrder(s.left), [s.ref], InOrder(s.mid), InOrder(s.right));
    }
  }

  lemma {:induction false} RotatedKeepsInOrder<R>(table: OperatorTable, t: Tree<R>)
    ensures InOrder(Rotated(table, t)) == InOrder(t)
  {
    match t
    case Nil =>
    case Atom(_, _) =>
    case Prefix(_, _, _, arg) =>
      RotatedKeepsInOrder(table, arg);
      SettledKeepsInOrder(table, t.(arg := Rotated(table, arg)));
    case Infix(_, _, left, mid, right) =>
      RotatedKeepsInOrder(table, left);
      RotatedKeepsInOrder(table, mid);
      RotatedKeepsInOrder(table, right);
      SettledKeepsInOrder(table,
        t.(left := Rotated(table, left), mid := Rotated(table, mid), right := Rotated(table, right)));
    case When(_, cond, action, next) =>
      RotatedKeepsInOrder(table, cond);
      RotatedKeepsInOrder(table, action);
      RotatedKeepsInOrder(table, next);
    case OpenWhen(_, cond, next) =>
      RotatedKeepsInOrder(table, cond);
      RotatedKeepsInOrder(table, next);
  }

  /** All operands of the node are fully rotated. */
  predicate OperandsRotated<R>(table: OperatorTable, t: Tree<R>) {
    match t
    case Prefix(_, _, _, arg) => FullyRotated(table, arg)
    case Infix(_, _, left, mid, right) =>
      FullyRotated(table, left) && FullyRotated(table, mid) && FullyRotated(table, right)
    case _ => true
  }

  lemma {:induction false} SettledIsFullyRotated<R>(table: OperatorTable, t: Tree<R>)
    requires t.Prefix? || t.Infix?
    requires OperandsRotated(table, t)
    ensures FullyRotated(table, Settled(table, t))
    decreases RightMost(t)
  {
    if NeedsLeftRotation(table, t) {
      SettledIsFullyRotated(table, WithRightMost(t, RightMost(t).left));
    }
  }

  lemma {:induction false} RotatedIsFullyRotated<R>(table: OperatorTable, t: Tree<R>)
    ensures FullyRotated(table, Rotated(table, t))
  {
    match t
    case Nil =>
    case Atom(_, _) =>
    case Prefix(_, _, _, arg) =>
      RotatedIsFullyRotated(table, arg);
      SettledIsFullyRotated(table, t.(arg := Rotated(table, arg)));
    case Infix(_, _, left, mid, right) =>
      RotatedIsFullyRotated(table, left);
      RotatedIsFullyRotated(table, mid);
      RotatedIsFullyRotated(table, right);
      SettledIsFullyRotated(table,
        t.(left := Rotated(table, left), mid := Rotated(table, mid), right := Rotated(table, right)));
    case When(_, cond, action, next) =>
      RotatedIsFullyRotated(table, cond);
      RotatedIsFullyRotated(table, action);
      RotatedIsFullyRotated(table, next);
    case OpenWhen(_, cond, next) =>
      RotatedIsFullyRotated(table, cond);
      RotatedIsFullyRotated(table, next);
  }
}
