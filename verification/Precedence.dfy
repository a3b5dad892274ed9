/** What the conventional reading of an expression is, independently of how it
    is computed, and the proof that rotating the parser's right-nested trees
    yields exactly that reading. */
module Precedence {
  import opened Tokens
  import opened ParseTrees

  /** `child` binds more tightly than the operator `parent` to its right. */
  predicate TighterThan(table: OperatorTable, child: Token, parent: Token) {
    || table.priority(child) > table.priority(parent)
    || (table.priority(child) == table.priority(parent) && !table.rightAssociative(parent))
  }

  /** Every operator that ends where `t` ends, bracketed parts aside, binds
      more tightly than the operator `parent` that follows `t`. */
  predicate EndBindsTighter<R>(table: OperatorTable, t: Tree<R>, parent: Token) {
    match t
    case Prefix(_, token, close, arg) =>
      token.BracketOpen? || (TighterThan(table, token, parent) && EndBindsTighter(table, arg, parent))
    case Infix(_, token, _, _, right) =>
      TighterThan(table, token, parent) && EndBindsTighter(table, right, parent)
    case _ => true
  }

  predicate LeftOperandsBind<R>(table: OperatorTable, t: Tree<R>) {
    match t
    case Prefix(_, _, _, arg) => LeftOperandsBind(table, arg)
    case Infix(_, token, left, mid, right) =>
      && EndBindsTighter(table, left, token)
      && LeftOperandsBind(table, left) && LeftOperandsBind(table, mid) && LeftOperandsBind(table, right)
    case _ => true
  }

  /** A tree that respects priority and associativity on both sides of every operator. */
  predicate WellRead<R>(table: OperatorTable, t: Tree<R>) {
    IsExpression(t) && FullyRotated(table, t) && LeftOperandsBind(table, t)
  }

  // ---------- Naive trees ----------

  /** Atoms and bracket expressions: what the parser takes as a left operand. */
  predicate IsOperand<R>(t: Tree<R>) {
    t.Atom? || (t.Prefix? && t.token.BracketOpen?)
  }

  /** Right-nested: no operator has an operator as its left operand. */
  predicate IsNaive<R>(t: Tree<R>) {
    match t
    case Prefix(_, _, _, arg) => IsNaive(arg)
    case Infix(_, token, left, mid, right) =>
      IsOperand(left) && IsNaive(left) && (mid.Nil? || IsNaive(mid)) && IsNaive(right)
    case _ => true
  }

  /** The naive tree of "t op mid right": the operator attaches to the last operand of t. */
  function Graft<R>(t: Tree<R>, ref: R, op: Token, mid: Tree<R>, right: Tree<R>): (r: Tree<R>)
    decreases t
  {
    if t.Infix? then t.(right := Graft(t.right, ref, op, mid, right))
    else if t.Prefix? && !t.token.BracketOpen? then t.(arg := Graft(t.arg, ref, op, mid, right))
    else Infix(ref, op, t, mid, right)
  }

  /** The naive tree with the same spelling. */
  function Unrolled<R>(t: Tree<R>): (r: Tree<R>) {
    match t
    case Prefix(_, _, _, arg) => t.(arg := Unrolled(arg))
    case Infix(ref, token, left, mid, right) =>
      Graft(Unrolled(left), ref, token, Unrolled(mid), Unrolled(right))
    case _ => t
  }

  // ---------- Rotation keeps expressions and their spelling ----------

  lemma BracketsNeverRotate<R>(table: OperatorTable, t: Tree<R>)
    requires ProperTable(table) && t.Prefix? && t.token.BracketOpen?
    requires IsExpression(t.arg)
    ensures !NeedsLeftRotation(table, t)
  {
    if t.arg.Infix? {
      assert IsInfix(t.arg.token);
    }
  }

  lemma {:induction false} SettledKeepsExpression<R>(table: OperatorTable, t: Tree<R>)
    requires IsExpression(t)
    ensures IsExpression(Settled(table, t))
    decreases RightMost(t)
  {
    if NeedsLeftRotation(table, t) {
      SettledKeepsExpression(table, WithRightMost(t, RightMost(t).left));
    }
  }

  lemma {:induction false} SettledKeepsSpelling<R>(table: OperatorTable, t: Tree<R>)
    requires ProperTable(table) && IsExpression(t)
    ensures Spelling(Settled(table, t)) == Spelling(t)
    decreases RightMost(t)
  {
    if NeedsLeftRotation(table, t) {
      var s := RightMost(t);
      if t.Prefix? && t.token.BracketOpen? { BracketsNeverRotate(table, t); }
      SettledKeepsSpelling(table, WithRightMost(t, s.left));
      LastOperandSpelling(WithRightMost(t, s.left), s.left, s, Opening(s.token, Spelling(s.mid)) + Spelling(s.right));
    }
  }

  lemma RegroupPrefix<T>(a: T, b: seq<T>, c: seq<T>)
    ensures [a] + (b + c) + [] == ([a] + b + []) + c
  {
  }

  lemma Regroup<T>(a: seq<T>, b: seq<T>, c: seq<T>, d: seq<T>)
    ensures a + (b + (c + d)) == (a + (b + c)) + d
  {
  }

  lemma {:induction false} RotatedKeepsExpression<R>(table: OperatorTable, t: Tree<R>)
    requires IsExpression(t)
    ensures IsExpression(Rotated(table, t))
  {
    match t
    case Atom(_, _) =>
    case Prefix(_, _, _, arg) =>
      RotatedKeepsExpression(table, arg);
      SettledKeepsExpression(table, Prepared(table, t));
    case Infix(_, token, left, mid, right) =>
      RotatedKeepsExpression(table, left);
      if token.ConditionalIf? { RotatedKeepsExpression(table, mid); }
      RotatedKeepsExpression(table, right);
      SettledKeepsExpression(table, Prepared(table, t));
  }

  lemma PreparedIsExpression<R>(table: OperatorTable, t: Tree<R>)
    requires IsExpression(t)
    ensures IsExpression(Prepared(table, t))
  {
    match t
    case Atom(_, _) =>
    case Prefix(_, _, _, arg) => RotatedKeepsExpression(table, arg);
    case Infix(_, token, left, mid, right) =>
      RotatedKeepsExpression(table, left);
      if token.ConditionalIf? { RotatedKeepsExpression(table, mid); }
      RotatedKeepsExpression(table, right);
  }

  lemma {:induction false} RotatedKeepsSpelling<R>(table: OperatorTable, t: Tree<R>)
    requires ProperTable(table) && IsExpression(t)
    ensures Spelling(Rotated(table, t)) == Spelling(t)
  {
    match t
    case Atom(_, _) =>
    case Prefix(_, _, _, arg) =>
      RotatedKeepsSpelling(table, arg);
      PreparedIsExpression(table, t);
      SettledKeepsSpelling(table, Prepared(table, t));
    case Infix(_, token, left, mid, right) =>
      RotatedKeepsSpelling(table, left);
      if token.ConditionalIf? { RotatedKeepsSpelling(table, mid); }
      RotatedKeepsSpelling(table, right);
      PreparedIsExpression(table, t);
      SettledKeepsSpelling(table, Prepared(table, t));
  }

  // ---------- The rotated naive tree is well read ----------

  /** Lowering a node below its right operand leaves the right end of that operand
      in place, with the lowered node before it. */
  lemma {:induction false} SettledEnd<R>(table: OperatorTable, t: Tree<R>, parent: Token)
    requires ProperTable(table) && IsExpression(t) && (t.Infix? || t.token.Unary?)
    requires TighterThan(table, t.token, parent) && EndBindsTighter(table, RightMost(t), parent)
    ensures EndBindsTighter(table, Settled(table, t), parent)
  {
  }

  lemma {:induction false} SettledLeftOperandsBind<R>(table: OperatorTable, t: Tree<R>)
    requires ProperTable(table) && IsExpression(t) && LeftOperandsBind(table, t)
    ensures LeftOperandsBind(table, Settled(table, t))
    decreases RightMost(t)
  {
    if NeedsLeftRotation(table, t) {
      var s := RightMost(t);
      assert IsInfix(s.token);
      if t.Prefix? && t.token.BracketOpen? {
        BracketsNeverRotate(table, t);
      } else {
        var lowered := WithRightMost(t, s.left);
        assert IsInfix(t.token) || t.token.Unary?;
        SettledLeftOperandsBind(table, lowered);
        assert TighterThan(table, t.token, s.token);
        SettledEnd(table, lowered, s.token);
      }
    }
  }

  lemma {:induction false} RotatedOperand<R>(table: OperatorTable, t: Tree<R>)
    requires ProperTable(table) && IsExpression(t) && IsOperand(t)
    ensures IsOperand(Rotated(table, t))
  {
    if t.Prefix? {
      PreparedIsExpression(table, t);
      BracketsNeverRotate(table, Prepared(table, t));
    }
  }

  lemma {:induction false} RotatedLeftOperandsBind<R>(table: OperatorTable, t: Tree<R>)
    requires ProperTable(table) && IsExpression(t) && IsNaive(t)
    ensures LeftOperandsBind(table, Rotated(table, t))
  {
    PreparedIsExpression(table, t);
    match t
    case Atom(_, _) =>
    case Prefix(_, _, _, arg) =>
      RotatedLeftOperandsBind(table, arg);
      SettledLeftOperandsBind(table, Prepared(table, t));
    case Infix(_, token, left, mid, right) =>
      RotatedLeftOperandsBind(table, left);
      RotatedLeftOperandsBind(table, right);
      if token.ConditionalIf? {
        RotatedLeftOperandsBind(table, mid);
      }
      RotatedOperand(table, left);
      SettledLeftOperandsBind(table, Prepared(table, t));
  }

  /** Rotating a right-nested tree reads its tokens in the conventional way. */
  lemma RotatedNaiveIsWellRead<R>(table: OperatorTable, t: Tree<R>)
    requires ProperTable(table) && IsExpression(t) && IsNaive(t)
    ensures WellRead(table, Rotated(table, t))
    ensures Spelling(Rotated(table, t)) == Spelling(t)
    ensures InOrder(Rotated(table, t)) == InOrder(t)
  {
    RotatedKeepsExpression(table, t);
    RotatedKeepsSpelling(table, t);
    RotatedIsFullyRotated(table, t);
    RotatedLeftOperandsBind(table, t);
    RotatedKeepsInOrder(table, t);
  }

  // ---------- Every well-read tree comes back from its naive tree ----------

  lemma {:induction false} GraftIsNaive<R>(t: Tree<R>, ref: R, op: Token, mid: Tree<R>, right: Tree<R>)
    requires IsExpression(t) && IsNaive(t) && IsExpression(right) && IsNaive(right)
    requires if op.ConditionalIf? then IsExpression(mid) && IsNaive(mid) else op.Binary? && mid.Nil?
    ensures IsExpression(Graft(t, ref, op, mid, right)) && IsNaive(Graft(t, ref, op, mid, right))
  {
    if t.Infix? {
      GraftIsNaive(t.right, ref, op, mid, right);
    } else if t.Prefix? && !t.token.BracketOpen? {
      GraftIsNaive(t.arg, ref, op, mid, right);
    }
  }

  lemma {:induction false} GraftSpelling<R>(
      t: Tree<R>, ref: R, op: Token, mid: Tree<R>, right: Tree<R>, tail: seq<Token>)
    requires IsExpression(t)
    requires tail == Opening(op, Spelling(mid)) + Spelling(right)
    ensures Spelling(Graft(t, ref, op, mid, right)) == Spelling(t) + tail
    decreases t
  {
    if t.Infix? {
      GraftSpelling(t.right, ref, op, mid, right, tail);
      LastOperandSpelling(t, t.right, Graft(t.right, ref, op, mid, right), tail);
    } else if t.Prefix? && !t.token.BracketOpen? {
      GraftSpelling(t.arg, ref, op, mid, right, tail);
      LastOperandSpelling(t, t.arg, Graft(t.arg, ref, op, mid, right), tail);
    }
  }

  /** What follows the last operand follows the whole tree. */
  lemma LastOperandSpelling<R>(t: Tree<R>, last: Tree<R>, longer: Tree<R>, tail: seq<Token>)
    requires (t.Infix? && last == t.right) || (t.Prefix? && t.close == [] && last == t.arg)
    requires Spelling(longer) == Spelling(last) + tail
    ensures Spelling(if t.Infix? then t.(right := longer) else t.(arg := longer)) == Spelling(t) + tail
  {
    if t.Infix? {
      Regroup(Spelling(t.left), Opening(t.token, Spelling(t.mid)), Spelling(last), tail);
    } else {
      RegroupPrefix(t.token, Spelling(last), tail);
    }
  }

  lemma {:induction false} UnrolledShape<R>(t: Tree<R>)
    requires IsExpression(t)
    ensures IsExpression(Unrolled(t)) && IsNaive(Unrolled(t))
    ensures Spelling(Unrolled(t)) == Spelling(t)
  {
    match t
    case Atom(_, _) =>
    case Prefix(_, _, _, arg) => UnrolledShape(arg);
    case Infix(ref, token, left, mid, right) =>
      UnrolledShape(left);
      UnrolledShape(right);
      if token.ConditionalIf? { UnrolledShape(mid); }
      GraftIsNaive(Unrolled(left), ref, token, Unrolled(mid), Unrolled(right));
      GraftSpelling(Unrolled(left), ref, token, Unrolled(mid), Unrolled(right),
                    Opening(token, Spelling(mid)) + Spelling(right));
  }

  /** If the settled node ends tighter than `op`, so did the operand it had, and
      `op` is looser than the node: it would be lifted above it. */
  lemma SettledEndConverse<R>(table: OperatorTable, t: Tree<R>, op: Token)
    requires ProperTable(table) && IsExpression(t) && (t.Infix? || t.token.Unary?)
    requires IsInfix(op)
    requires EndBindsTighter(table, Settled(table, t), op)
    ensures EndBindsTighter(table, RightMost(t), op)
    ensures LooserThan(table, op, t.token)
  {
    if NeedsLeftRotation(table, t) {
      var s := RightMost(t);
      assert IsInfix(s.token);
      assert TighterThan(table, s.token, op);
    }
    assert IsInfix(t.token) || t.token.Unary?;
  }

  /** A node whose right operand is topped by a looser operator settles below that operator. */
  lemma SettledUnder<R>(table: OperatorTable, t: Tree<R>, top: Tree<R>)
    requires ProperTable(table) && !RightMost(t).Nil? && top.Infix? && IsInfix(top.token)
    requires top.left == RightMost(t) && LooserThan(table, top.token, t.token)
    ensures Settled(table, WithRightMost(t, top)) == top.(left := Settled(table, t))
  {
    assert WithRightMost(WithRightMost(t, top), top.left) == t;
  }

  predicate IsOpen<R>(t: Tree<R>) {
    t.Infix? || (t.Prefix? && t.token.Unary?)
  }

  function LastOperand<R>(t: Tree<R>): Tree<R>
    requires IsOpen(t)
  {
    if t.Infix? then t.right else t.arg
  }

  lemma GraftedBelow<R>(table: OperatorTable, t: Tree<R>, ref: R, op: Token, mid: Tree<R>, right: Tree<R>)
    requires IsOpen(t)
    ensures !RightMost(Prepared(table, t)).Nil? ==>
              Rotated(table, Graft(t, ref, op, mid, right))
              == Settled(table, WithRightMost(Prepared(table, t),
                                              Rotated(table, Graft(LastOperand(t), ref, op, mid, right))))
    ensures RightMost(Prepared(table, t)) == Rotated(table, LastOperand(t))
  {
  }

  lemma {:induction false} RotatedGraft<R>(
      table: OperatorTable, t: Tree<R>, ref: R, op: Token, mid: Tree<R>, right: Tree<R>)
    requires ProperTable(table) && IsInfix(op)
    requires IsExpression(t) && IsNaive(t) && EndBindsTighter(table, Rotated(table, t), op)
    requires !NeedsLeftRotation(table, Infix(ref, op, Nil, Nil, Rotated(table, right)))
    ensures Rotated(table, Graft(t, ref, op, mid, right))
         == Infix(ref, op, Rotated(table, t), Rotated(table, mid), Rotated(table, right))
    decreases t
  {
    if IsOpen(t) {
      var below := Prepared(table, t);
      var last := LastOperand(t);
      PreparedIsExpression(table, t);
      SettledEndConverse(table, below, op);
      GraftedBelow(table, t, ref, op, mid, right);
      RotatedGraft(table, last, ref, op, mid, right);
      SettledUnder(table, below, Infix(ref, op, Rotated(table, last), Rotated(table, mid), Rotated(table, right)));
    } else {
      GraftedAtOperand(table, t, ref, op, mid, right);
    }
  }

  lemma GraftedAtOperand<R>(table: OperatorTable, t: Tree<R>, ref: R, op: Token, mid: Tree<R>, right: Tree<R>)
    requires IsExpression(t) && !IsOpen(t)
    requires !NeedsLeftRotation(table, Infix(ref, op, Nil, Nil, Rotated(table, right)))
    ensures Rotated(table, Graft(t, ref, op, mid, right))
         == Infix(ref, op, Rotated(table, t), Rotated(table, mid), Rotated(table, right))
  {
  }

  lemma {:induction false} RotatedUnrolled<R>(table: OperatorTable, t: Tree<R>)
    requires ProperTable(table) && WellRead(table, t)
    ensures Rotated(table, Unrolled(t)) == t
  {
    match t
    case Atom(_, _) =>
    case Prefix(_, _, _, arg) => RotatedUnrolled(table, arg);
    case Infix(ref, token, left, mid, right) =>
      UnrolledShape(left);
      RotatedUnrolled(table, left);
      RotatedUnrolled(table, right);
      if token.ConditionalIf? { RotatedUnrolled(table, mid); }
      assert IsInfix(token);
      RotatedGraft(table, Unrolled(left), ref, token, Unrolled(mid), Unrolled(right));
  }
}
