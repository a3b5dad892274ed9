/** How many left rotations a rotation takes: at most one for every pair of
    operators, and there are expressions that take as many. */
module RotationCount {
  import opened Tokens
  import opened ParseTrees

  /** Calls of RotateLeft during Rotated(table, t). */
  function Rotations<R>(table: OperatorTable, t: Tree<R>): nat {
    match t
    case Nil | Atom(_, _) => 0
    case Prefix(_, _, _, arg) =>
      Rotations(table, arg) + SettleCount(table, t.(arg := Rotated(table, arg)))
    case Infix(_, _, left, mid, right) =>
      Rotations(table, left) + Rotations(table, mid) + Rotations(table, right)
      + SettleCount(table, t.(left := Rotated(table, left), mid := Rotated(table, mid), right := Rotated(table, right)))
    case When(_, cond, action, next) =>
      Rotations(table, cond) + Rotations(table, action) + Rotations(table, next)
    case OpenWhen(_, cond, next) => Rotations(table, cond) + Rotations(table, next)
  }

  function Operators<R>(t: Tree<R>): nat {
    match t
    case Nil | Atom(_, _) => 0
    case Prefix(_, _, _, arg) => 1 + Operators(arg)
    case Infix(_, _, left, mid, right) => 1 + Operators(left) + Operators(mid) + Operators(right)
    case When(_, cond, action, next) => Operators(cond) + Operators(action) + Operators(next)
    case OpenWhen(_, cond, next) => Operators(cond) + Operators(next)
  }

  function Pairs(n: nat): nat {
    if n == 0 then 0 else (n - 1) + Pairs(n - 1)
  }

  lemma {:induction false} PairsClosedForm(n: nat)
    ensures 2 * Pairs(n) == n * (n - 1)
  {
    if n > 0 {
      PairsClosedForm(n - 1);
    }
  }

  lemma {:induction false} PairsOfSum(a: nat, b: nat)
    ensures Pairs(a) + Pairs(b) <= Pairs(a + b)
  {
    if b > 0 {
      PairsOfSum(a, b - 1);
    }
  }

  lemma {:induction false} SettledKeepsOperators<R>(table: OperatorTable, t: Tree<R>)
    ensures Operators(Settled(table, t)) == Operators(t)
    ensures SettleCount(table, t) <= Operators(RightMost(t))
    decreases RightMost(t)
  {
    if NeedsLeftRotation(table, t) {
      SettledKeepsOperators(table, WithRightMost(t, RightMost(t).left));
    }
  }

  lemma {:induction false} RotatedKeepsOperators<R>(table: OperatorTable, t: Tree<R>)
    ensures Operators(Rotated(table, t)) == Operators(t)
  {
    match t
    case Nil =>
    case Atom(_, _) =>
    case Prefix(_, _, _, arg) =>
      RotatedKeepsOperators(table, arg);
      SettledKeepsOperators(table, t.(arg := Rotated(table, arg)));
    case Infix(_, _, left, mid, right) =>
      RotatedKeepsOperators(table, left);
      RotatedKeepsOperators(table, mid);
      RotatedKeepsOperators(table, right);
      SettledKeepsOperators(table,
        t.(left := Rotated(table, left), mid := Rotated(table, mid), right := Rotated(table, right)));
    case When(_, cond, action, next) =>
      RotatedKeepsOperators(table, cond);
      RotatedKeepsOperators(table, action);
      RotatedKeepsOperators(table, next);
    case OpenWhen(_, cond, next) =>
      RotatedKeepsOperators(table, cond);
      RotatedKeepsOperators(table, next);
  }

  /** x, y and z rotations for a, b and c operators, and one more for each of the last ones. */
  lemma PairsOfOperands(x: nat, a: nat, y: nat, b: nat, z: nat, c: nat)
    requires x <= Pairs(a) && y <= Pairs(b) && z <= Pairs(c)
    ensures x + y + z <= Pairs(a + b + c)
    ensures x + y + z + c <= Pairs(1 + a + b + c)
  {
    PairsOfSum(a, b);
    PairsOfSum(a + b, c);
  }

  lemma RotationsAtNode<R>(table: OperatorTable, t: Tree<R>)
    requires t.Infix? || t.Prefix?
    ensures t.Infix? ==>
              Rotations(table, t)
              <= Rotations(table, t.left) + Rotations(table, t.mid) + Rotations(table, t.right) + Operators(t.right)
    ensures t.Prefix? ==> Rotations(table, t) <= Rotations(table, t.arg) + Operators(t.arg)
  {
    if t.Prefix? {
      RotatedKeepsOperators(table, t.arg);
      SettledKeepsOperators(table, t.(arg := Rotated(table, t.arg)));
    } else {
      RotatedKeepsOperators(table, t.right);
      SettledKeepsOperators(table,
        t.(left := Rotated(table, t.left), mid := Rotated(table, t.mid), right := Rotated(table, t.right)));
    }
  }

  lemma NoPairs()
    ensures Pairs(0) == 0
  {}

  lemma {:induction false} RotationsAtMostPairs<R>(table: OperatorTable, t: Tree<R>)
    ensures Rotations(table, t) <= Pairs(Operators(t))
  {
    hide Pairs, SettleCount;
    NoPairs();
    match t
    case Nil =>
    case Atom(_, _) =>
    case Prefix(_, _, _, arg) =>
      RotationsAtMostPairs(table, arg);
      RotationsAtNode(table, t);
      PairsOfOperands(0, 0, 0, 0, Rotations(table, arg), Operators(arg));
    case Infix(_, _, left, mid, right) =>
      RotationsAtMostPairs(table, left);
      RotationsAtMostPairs(table, mid);
      RotationsAtMostPairs(table, right);
      RotationsAtInfix(table, t);
    case When(_, cond, action, next) =>
      RotationsAtMostPairs(table, cond);
      RotationsAtMostPairs(table, action);
      RotationsAtMostPairs(table, next);
      PairsOfOperands(Rotations(table, cond), Operators(cond), Rotations(table, action), Operators(action),
                      Rotations(table, next), Operators(next));
    case OpenWhen(_, cond, next) =>
      RotationsAtMostPairs(table, cond);
      RotationsAtMostPairs(table, next);
      PairsOfOperands(0, 0, Rotations(table, cond), Operators(cond), Rotations(table, next), Operators(next));
  }

  lemma RotationsAtInfix<R>(table: OperatorTable, t: Tree<R>)
    requires t.Infix?
    requires Rotations(table, t.left) <= Pairs(Operators(t.left))
    requires Rotations(table, t.mid) <= Pairs(Operators(t.mid))
    requires Rotations(table, t.right) <= Pairs(Operators(t.right))
    ensures Rotations(table, t) <= Pairs(Operators(t))
  {
    RotationsAtNode(table, t);
    PairsOfOperands(Rotations(table, t.left), Operators(t.left), Rotations(table, t.mid), Operators(t.mid),
                    Rotations(table, t.right), Operators(t.right));
  }

  /** With n operators there are at most n(n-1)/2 left rotations. */
  lemma RotationsAreQuadratic<R>(table: OperatorTable, t: Tree<R>)
    ensures 2 * Rotations(table, t) <= Operators(t) * (Operators(t) - 1)
  {
    RotationsAtMostPairs(table, t);
    PairsClosedForm(Operators(t));
  }

  // ---------- The bound is attained ----------

  /** The naive tree of "a op a op ... op a" with n operators. */
  function NaiveChain(n: nat, op: Token, a: Token): Tree<()> {
    if n == 0 then Atom((), a) else Infix((), op, Atom((), a), Nil, NaiveChain(n - 1, op, a))
  }

  function LeftChain(n: nat, op: Token, a: Token): Tree<()> {
    if n == 0 then Atom((), a) else Infix((), op, LeftChain(n - 1, op, a), Nil, Atom((), a))
  }

  lemma {:induction false} ChainSettles(table: OperatorTable, n: nat, op: Token, a: Token)
    requires table.priority(op) != UNDEFINED && !table.rightAssociative(op)
    ensures var t := Infix((), op, Atom((), a), Nil, LeftChain(n, op, a));
            Settled(table, t) == LeftChain(n + 1, op, a) && SettleCount(table, t) == n
  {
    if n > 0 {
      ChainSettles(table, n - 1, op, a);
      var t := Infix((), op, Atom((), a), Nil, LeftChain(n, op, a));
      assert WithRightMost(t, RightMost(t).left) == Infix((), op, Atom((), a), Nil, LeftChain(n - 1, op, a));
    }
  }

  lemma {:induction false} ChainRotates(table: OperatorTable, n: nat, op: Token, a: Token)
    requires table.priority(op) != UNDEFINED && !table.rightAssociative(op)
    ensures Rotated(table, NaiveChain(n, op, a)) == LeftChain(n, op, a)
  {
    if n > 0 {
      ChainRotates(table, n - 1, op, a);
      ChainSettles(table, n - 1, op, a);
      OperandChain(table, op, a, NaiveChain(n - 1, op, a));
    }
  }

  lemma {:induction false} ChainRotations(table: OperatorTable, n: nat, op: Token, a: Token)
    requires table.priority(op) != UNDEFINED && !table.rightAssociative(op)
    ensures Rotations(table, NaiveChain(n, op, a)) == Pairs(n)
  {
    if n > 0 {
      ChainRotations(table, n - 1, op, a);
      ChainRotates(table, n - 1, op, a);
      ChainSettles(table, n - 1, op, a);
      OperandChain(table, op, a, NaiveChain(n - 1, op, a));
    }
  }

  lemma {:induction false} ChainOperators(n: nat, op: Token, a: Token)
    ensures Operators(NaiveChain(n, op, a)) == n
  {
    if n > 0 {
      ChainOperators(n - 1, op, a);
    }
  }

  lemma OperandChain(table: OperatorTable, op: Token, a: Token, right: Tree<()>)
    ensures var t := Infix((), op, Atom((), a), Nil, right);
            var below := Infix((), op, Atom((), a), Nil, Rotated(table, right));
            && Rotated(table, t) == Settled(table, below)
            && Rotations(table, t) == Rotations(table, right) + SettleCount(table, below)
  {
  }

  /** A chain of one left-associative operator takes exactly n(n-1)/2 rotations. */
  lemma ChainAttainsBound(table: OperatorTable, n: nat, op: Token, a: Token)
    requires table.priority(op) != UNDEFINED && !table.rightAssociative(op)
    ensures Operators(NaiveChain(n, op, a)) == n
    ensures 2 * Rotations(table, NaiveChain(n, op, a)) == n * (n - 1)
  {
    ChainOperators(n, op, a);
    ChainRotations(table, n, op, a);
    PairsClosedForm(n);
  }
}
