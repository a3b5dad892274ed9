/** CParseTreeRotator on the heap. Where the source passes the address of the
    parent's pointer, these methods return the node that pointer must hold and
    the caller stores it. */
module ParseTreeRotator {
  import opened Tokens
  import opened ParseTrees
  import opened ParseTreeNodes
  import opened Precedence
  import opened RotationCount

  // ---------- Rotation keeps the nodes ----------

  lemma {:induction false} SettledKeepsNodes(table: OperatorTable, t: NodeTree)
    requires Distinct(t)
    ensures Nodes(Settled(table, t)) == Nodes(t) && Distinct(Settled(table, t))
    decreases RightMost(t)
  {
    if NeedsLeftRotation(table, t) {
      SettledKeepsNodes(table, WithRightMost(t, RightMost(t).left));
    }
  }

  lemma {:induction false} RotatedKeepsNodes(table: OperatorTable, t: NodeTree)
    requires Distinct(t)
    ensures Nodes(Rotated(table, t)) == Nodes(t) && Distinct(Rotated(table, t))
  {
    match t
    case Nil =>
    case Atom(_, _) =>
    case Prefix(_, _, _, arg) =>
      RotatedKeepsNodes(table, arg);
      SettledKeepsNodes(table, t.(arg := Rotated(table, arg)));
    case Infix(_, _, left, mid, right) =>
      RotatedKeepsNodes(table, left);
      RotatedKeepsNodes(table, mid);
      RotatedKeepsNodes(table, right);
      SettledKeepsNodes(table,
        t.(left := Rotated(table, left), mid := Rotated(table, mid), right := Rotated(table, right)));
    case When(_, cond, action, next) =>
      RotatedKeepsNodes(table, cond);
      RotatedKeepsNodes(table, action);
      RotatedKeepsNodes(table, next);
    case OpenWhen(_, cond, next) =>
      RotatedKeepsNodes(table, cond);
      RotatedKeepsNodes(table, next);
  }

  lemma RotatedIsBody(table: OperatorTable, t: NodeTree)
    requires IsBody(t)
    ensures IsBody(Rotated(table, t)) && IsBody(Prepared(table, t))
  {
    if IsWhenSequence(t) {
      RotatedIsWhenSequence(table, t);
    } else {
      RotatedIsAction(table, t);
    }
  }

  lemma RotatedIsAction(table: OperatorTable, t: NodeTree)
    requires IsActionTree(t)
    ensures IsActionTree(Rotated(table, t)) && IsActionTree(Prepared(table, t))
  {
    if IsExpression(t) {
      RotatedKeepsExpression(table, t);
      PreparedIsExpression(table, t);
    } else if t.Prefix? {
      RotatedKeepsExpression(table, t.arg);
    }
  }

  lemma {:induction false} RotatedIsWhenSequence(table: OperatorTable, t: NodeTree)
    requires IsWhenSequence(t)
    ensures IsWhenSequence(Rotated(table, t)) && Prepared(table, t) == Rotated(table, t)
    ensures Root(NextOpenEnded(Rotated(table, t))) == Root(NextOpenEnded(t))
  {
    match t
    case Nil =>
    case When(_, cond, action, next) =>
      RotatedKeepsExpression(table, cond);
      RotatedIsAction(table, action);
      RotatedIsWhenSequence(table, next);
    case OpenWhen(_, cond, next) =>
      RotatedKeepsExpression(table, cond);
      RotatedIsWhenSequence(table, next);
  }

  // ---------- The parts of a node ----------

  lemma BodyParts(t: NodeTree)
    requires IsBody(t)
    ensures IsBody(FirstOf(t)) && IsBody(SecondOf(t)) && IsBody(ThirdOf(t))
  {
  }

  /** An open-ended when-condition is recognised by its second pointer alone. */
  lemma OpenEndedExactlyWhen(t: NodeTree)
    requires !t.Nil? && Linked(t.ref, t) && IsBody(t)
    ensures t.ref.IsOpenEndedWhenCondition() <==> t.OpenWhen?
  {
    if t.When? {
      assert Linked(t.ref.second, t.action);
    } else if t.OpenWhen? && !t.next.Nil? {
      assert IsWhenSequence(t.next);
      assert Linked(t.ref.second, t.next);
    }
  }

  lemma RightMostIsLinked(t: NodeTree)
    requires !t.Nil? && Linked(t.ref, t) && IsBody(t) && !RightMost(t).Nil?
    ensures t.ref.GetRightMostSibbling() == RightMost(t).ref
    ensures Linked(RightMost(t).ref, RightMost(t)) && IsExpression(RightMost(t))
  {
    assert Linked(RightMost(t).ref, RightMost(t));
  }

  // ---------- The methods ----------

  lemma {:induction false} NextOpenEndedIsWhen(n: ParseTreeNode?, t: NodeTree)
    requires Linked(n, t) && IsWhenSequence(t)
    ensures var o := NextOpenEnded(t);
            o.OpenWhen? ==> o.ref in Nodes(t) && o.ref.nodeType.ConditionalWhen?
    ensures NextOpenEnded(t).Nil? || NextOpenEnded(t).OpenWhen?
  {
    if t.When? {
      NextOpenEndedIsWhen(t.ref.third, t.next);
    }
  }

  lemma NothingToRotate(t: NodeTree)
    requires !t.Nil? && Linked(t.ref, t) && IsBody(t) && Threaded(t) && RightMost(t).Nil?
    ensures var r := t.ref.GetRightMostSibbling();
            r != null ==> r in Nodes(t) && r.nodeType.ConditionalWhen?
  {
    match t
    case When(ref, _, _, next) =>
      assert Linked(ref.third, next) && IsWhenSequence(next);
    case OpenWhen(ref, _, next) =>
      assert IsWhenSequence(next);
      NextOpenEndedIsWhen(ref.second, next);
    case _ =>
  }

  method NeedsLeftRotationOf(table: OperatorTable, node: ParseTreeNode?, ghost t: NodeTree) returns (needed: bool)
    requires Linked(node, t) && IsBody(t) && Threaded(t)
    ensures needed == NeedsLeftRotation(table, t)
  {
    if node == null { return false; }
    if RightMost(t).Nil? { NothingToRotate(t); } else { RightMostIsLinked(t); }
    var rightMost := node.GetRightMostSibbling();
    if rightMost == null { return false; }
    var sibblingsType := rightMost.nodeType;
    if sibblingsType.Identifier? || sibblingsType.Number? { return false; }
    if sibblingsType.BracketOpen? { return false; }
    if IsUnary(sibblingsType) { return false; }
    if sibblingsType.ConditionalWhen? { return false; }
    var sibblingsPriority := table.priority(sibblingsType);
    if sibblingsPriority == UNDEFINED { return false; }
    var myPriority := table.priority(node.nodeType);
    if sibblingsPriority < myPriority { return true; }
    if sibblingsPriority == myPriority
       && !table.rightAssociative(node.nodeType)
       && !IsUnary(rightMost.nodeType) {
      return true;
    }
    return false;
  }

  lemma LiftedIsDistinct(t: NodeTree)
    requires Distinct(t) && RightMost(t).Infix?
    ensures var s := RightMost(t);
            var lowered := WithRightMost(t, s.left);
            && Distinct(lowered) && Distinct(s.(left := lowered))
            && Nodes(t) == Nodes(lowered) + {s.ref} + Nodes(s.mid) + Nodes(s.right)
            && Nodes(lowered) !! ({s.ref} + Nodes(s.mid) + Nodes(s.right))
  {
  }

  /** A node whose other operands are in place takes a new left operand. */
  lemma WithLeftIsLinked(s: NodeTree, left: NodeTree)
    requires s.Infix? && s.ref.nodeType == s.token
    requires Linked(s.ref.first, left)
    requires Linked(s.ref.second, SecondOf(s)) && Linked(s.ref.third, ThirdOf(s))
    ensures Linked(s.ref, s.(left := left))
  {
  }

  /** A node takes a new right operand. */
  method Lower(node: ParseTreeNode, sibbling: ParseTreeNode?, ghost t: NodeTree, ghost right: NodeTree)
    requires Linked(node, t) && Distinct(t) && IsExpression(t) && !RightMost(t).Nil?
    requires Linked(sibbling, right) && Nodes(right) <= Nodes(RightMost(t))
    modifies node
    ensures Linked(node, WithRightMost(t, right))
  {
    PartsOf(t);
    NodesExist(t);
    NodesExist(right);
    node.SetRightMostSibbling(sibbling);
    assert Linked(sibbling, right);
  }

  lemma PartsAreLinked(n: ParseTreeNode?, t: NodeTree)
    requires Linked(n, t) && !t.Nil?
    ensures n == t.ref
    ensures t.ref.nodeType == TypeOf(t)
    ensures Linked(t.ref.first, FirstOf(t)) && Linked(t.ref.second, SecondOf(t))
    ensures if t.OpenWhen? then t.next.Nil? ==> t.ref.third == null else Linked(t.ref.third, ThirdOf(t))
  {
  }

  /** One rotation: the right operand moves up, the node becomes its left operand. */
  method Lift(node: ParseTreeNode, ghost t: NodeTree) returns (root: ParseTreeNode)
    requires Linked(node, t) && Distinct(t) && IsExpression(t) && RightMost(t).Infix?
    modifies t.ref, RightMost(t).ref
    ensures var s := RightMost(t);
            && root == s.ref && root.nodeType == s.token
            && Linked(root.first, WithRightMost(t, s.left)) && root.first == node
            && Linked(root.second, SecondOf(s)) && Linked(root.third, ThirdOf(s))
  {
    hide Linked;
    ghost var s := RightMost(t);
    PartsAreLinked(node, t);
    RightMostIsLinked(t);
    PartsAreLinked(s.ref, s);
    LiftedIsDistinct(t);
    PartsOf(s);
    NodesExist(t);
    root := node.GetRightMostSibbling();
    var rightLeftSibbling := root.GetLeftMostSibbling();
    Lower(node, rightLeftSibbling, t, s.left);
    root.SetLeftMostSibbling(node);
  }

  method RotateLeft(table: OperatorTable, node: ParseTreeNode, ghost t: NodeTree)
    returns (root: ParseTreeNode, ghost rotations: nat)
    requires Linked(node, t) && Distinct(t) && IsExpression(t)
    requires NeedsLeftRotation(table, t)
    modifies Nodes(t)
    ensures Linked(root, Settled(table, t))
    ensures rotations == SettleCount(table, t)
    decreases RightMost(t), 0
  {
    hide Linked;
    ghost var s := RightMost(t);
    ghost var lowered := WithRightMost(t, s.left);
    LiftedIsDistinct(t);
    PartsOf(s);
    NodesExist(t);
    root := Lift(node, t);
    var newLeft, more := RotateLeftAsLongAsNecessary(table, node, lowered);
    SettledKeepsNodes(table, lowered);
    NodesExist(lowered);
    root.first := newLeft;
    rotations := 1 + more;
    WithLeftIsLinked(s, Settled(table, lowered));
  }

  method RotateLeftAsLongAsNecessary(table: OperatorTable, node: ParseTreeNode, ghost t: NodeTree)
    returns (root: ParseTreeNode, ghost rotations: nat)
    requires Linked(node, t) && Distinct(t) && IsExpression(t)
    modifies Nodes(t)
    ensures Linked(root, Settled(table, t))
    ensures rotations == SettleCount(table, t)
    decreases RightMost(t), 1
  {
    root, rotations := node, 0;
    NodesExist(t);
    var needed := NeedsLeftRotationOf(table, node, t);
    if needed {
      root, rotations := RotateLeft(table, node, t);
    }
  }

  /** The children are in place: so is the node over them. */
  lemma PreparedIsLinked(table: OperatorTable, t: NodeTree)
    requires !t.Nil? && t.ref.nodeType == TypeOf(t)
    requires Linked(t.ref.first, Rotated(table, FirstOf(t))) && Linked(t.ref.second, Rotated(table, SecondOf(t)))
    requires if t.OpenWhen? then t.next.Nil? ==> t.ref.third == null
             else Linked(t.ref.third, Rotated(table, ThirdOf(t)))
    ensures Linked(t.ref, Prepared(table, t))
  {
    assert t.OpenWhen? ==> (Rotated(table, t.next).Nil? <==> t.next.Nil?);
  }

  lemma NullIsLinked(n: ParseTreeNode?, t: NodeTree)
    requires Linked(n, t)
    ensures n == Root(t) && (n == null <==> t.Nil?)
  {
  }

  lemma ThreadedParts(t: NodeTree)
    requires IsBody(t) && Threaded(t)
    ensures Threaded(FirstOf(t)) && Threaded(SecondOf(t)) && Threaded(ThirdOf(t))
    ensures t.OpenWhen? ==> t.ref.third == Root(NextOpenEnded(t.next))
  {
    match t
    case When(_, cond, action, _) =>
      assert IsExpression(cond) && IsActionTree(action);
    case OpenWhen(_, cond, _) =>
      assert IsExpression(cond);
    case Infix(_, _, left, mid, right) =>
      assert IsExpression(left) && IsExpression(right) && (mid.Nil? || IsExpression(mid));
    case Prefix(_, _, _, arg) =>
      assert IsExpression(arg);
    case _ =>
  }

  /** Rotated parts do not change the kind of a when-condition. */
  lemma OpenEndedStays(table: OperatorTable, t: NodeTree)
    requires !t.Nil? && IsBody(t) && t.ref.nodeType == TypeOf(t)
    requires Linked(t.ref.second, Rotated(table, SecondOf(t)))
    requires t.OpenWhen? && t.next.Nil? ==> t.ref.third == null
    ensures t.ref.IsOpenEndedWhenCondition() <==> t.OpenWhen?
  {
    if t.When? {
      RotatedIsAction(table, t.action);
      NullIsLinked(t.ref.second, Rotated(table, t.action));
    } else if t.OpenWhen? {
      RotatedIsWhenSequence(table, t.next);
    }
  }

  lemma PartsOfRotation(table: OperatorTable, t: NodeTree)
    requires !t.Nil? && IsBody(t) && Distinct(t)
    ensures Rotations(table, t) == Rotations(table, FirstOf(t)) + Rotations(table, SecondOf(t))
                                 + Rotations(table, ThirdOf(t)) + SettleCount(table, Prepared(table, t))
    ensures Size(t) == 1 + Size(FirstOf(t)) + Size(SecondOf(t)) + Size(ThirdOf(t))
    ensures t.OpenWhen? ==> Rotations(table, ThirdOf(t)) == 0 && Size(ThirdOf(t)) == 0
    ensures NeedsLeftRotation(table, Prepared(table, t)) ==> IsExpression(Prepared(table, t))
    ensures Nodes(Prepared(table, t)) == Nodes(t) && Distinct(Prepared(table, t))
    ensures Nodes(Rotated(table, FirstOf(t))) == Nodes(FirstOf(t))
    ensures Nodes(Rotated(table, SecondOf(t))) == Nodes(SecondOf(t))
    ensures Nodes(Rotated(table, ThirdOf(t))) == Nodes(ThirdOf(t))
  {
    var p := Prepared(table, t);
    RotatedKeepsNodes(table, FirstOf(t));
    RotatedKeepsNodes(table, SecondOf(t));
    RotatedKeepsNodes(table, ThirdOf(t));
    PartsOf(t);
    PartsOf(p);
    if IsActionTree(t) { RotatedIsAction(table, t); }
  }

  lemma PreparedIsThreaded(table: OperatorTable, t: NodeTree)
    requires IsBody(t) && !t.Nil?
    requires Threaded(Rotated(table, SecondOf(t))) && (t.OpenWhen? || Threaded(Rotated(table, ThirdOf(t))))
    requires t.OpenWhen? ==> t.ref.third == Root(NextOpenEnded(t.next))
    ensures Threaded(Prepared(table, t))
    ensures Threaded(Rotated(table, t))
  {
    if t.OpenWhen? {
      RotatedIsWhenSequence(table, t.next);
    } else if !t.When? {
      RotatedIsAction(table, t);
    }
  }

  /** Rotate(): the siblings first, bottom-up, then the node. The edge of an
      open-ended when-condition to the next one is skipped, as that node is also
      reached on another path; every node is visited exactly once. */
  method Rotate(table: OperatorTable, node: ParseTreeNode?, ghost t: NodeTree)
    returns (root: ParseTreeNode?, ghost rotations: nat, ghost visits: nat)
    requires Linked(node, t) && Distinct(t) && IsBody(t) && Threaded(t)
    modifies Nodes(t)
    ensures Linked(root, Rotated(table, t)) && Threaded(Rotated(table, t))
    ensures rotations == Rotations(table, t) && visits == Size(t)
    decreases Size(t)
  {
    hide Linked;
    NullIsLinked(node, t);
    if node == null {
      return null, 0, 0;
    }
    rotations, visits := RotateSiblings(table, node, t);
    ghost var p := Prepared(table, t);
    PartsOfRotation(table, t);
    RotatedIsBody(table, t);
    RotatedIsSettled(table, t);
    NodesExist(t);
    root := node;
    var needed := NeedsLeftRotationOf(table, node, p);
    if needed {
      ghost var more;
      root, more := RotateLeft(table, node, p);
      rotations := rotations + more;
      assert IsExpression(p);
      SettledKeepsExpression(table, p);
    }
  }

  method RotateSiblings(table: OperatorTable, node: ParseTreeNode, ghost t: NodeTree)
    returns (ghost rotations: nat, ghost visits: nat)
    requires Linked(node, t) && Distinct(t) && IsBody(t) && Threaded(t) && !t.Nil?
    modifies Nodes(t)
    ensures Linked(node, Prepared(table, t)) && Threaded(Prepared(table, t))
    ensures rotations + SettleCount(table, Prepared(table, t)) == Rotations(table, t) && visits == Size(t)
    decreases Size(t), 0
  {
    hide *;
    PartsOf(t);
    PartsOfRotation(table, t);
    PartsAreLinked(node, t);
    BodyParts(t);
    ThreadedParts(t);
    NodesExist(t);
    var first, r1, v1 := Rotate(table, node.first, FirstOf(t));
    node.first := first;
    var second, r2, v2 := Rotate(table, node.second, SecondOf(t));
    node.second := second;
    rotations, visits := r1 + r2, 1 + v1 + v2;
    OpenEndedStays(table, t);
    if !node.IsOpenEndedWhenCondition() {
      var third, r3, v3 := Rotate(table, node.third, ThirdOf(t));
      node.third := third;
      rotations, visits := rotations + r3, visits + v3;
    }
    PreparedIsLinked(table, t);
    PreparedIsThreaded(table, t);
  }

  // ---------- The self-check ----------

  lemma FullyRotatedByParts(table: OperatorTable, t: NodeTree)
    requires !t.Nil? && IsBody(t)
    ensures FullyRotated(table, t)
       <==> && FullyRotated(table, FirstOf(t)) && FullyRotated(table, SecondOf(t)) && FullyRotated(table, ThirdOf(t))
            && !NeedsLeftRotation(table, t)
    ensures FullyRotated<ParseTreeNode>(table, Nil)
  {
  }

  /** VerifyCorrectRotation(): whether all its assertions hold. */
  method VerifyCorrectRotation(table: OperatorTable, node: ParseTreeNode?, ghost t: NodeTree) returns (ok: bool)
    requires Linked(node, t) && Distinct(t) && IsBody(t) && Threaded(t)
    ensures ok <==> FullyRotated(table, t)
    decreases Size(t)
  {
    hide *;
    NullIsLinked(node, t);
    if node == null {
      NullIsNil(node, t);
      return true;
    }
    PartsAreLinked(node, t);
    BodyParts(t);
    PartsOf(t);
    ThreadedParts(t);
    FullyRotatedByParts(table, t);
    OpenEndedExactlyWhen(t);
    NodesExist(t);
    var firstOk := VerifyCorrectRotation(table, node.first, FirstOf(t));
    var secondOk := VerifyCorrectRotation(table, node.second, SecondOf(t));
    var thirdOk := true;
    if !node.IsOpenEndedWhenCondition() {
      thirdOk := VerifyCorrectRotation(table, node.third, ThirdOf(t));
    } else {
      OpenEndedHasNoThird(table, t);
    }
    var needed := NeedsLeftRotationOf(table, node, t);
    ok := firstOk && secondOk && thirdOk && !needed;
  }

  lemma NullIsNil(n: ParseTreeNode?, t: NodeTree)
    requires n == null && n == Root(t)
    ensures t.Nil? && forall table: OperatorTable :: FullyRotated(table, t)
  {
  }

  lemma OpenEndedHasNoThird(table: OperatorTable, t: NodeTree)
    requires t.OpenWhen?
    ensures FullyRotated(table, ThirdOf(t))
  {
  }

  /** Rotating a whole function: the self-check afterwards never fails. */
  method RotateFunction(table: OperatorTable, body: ParseTreeNode?, ghost t: NodeTree)
    returns (root: ParseTreeNode?)
    requires Linked(body, t) && Distinct(t) && IsBody(t) && Threaded(t)
    modifies Nodes(t)
    ensures Linked(root, Rotated(table, t)) && Threaded(Rotated(table, t))
    ensures Distinct(Rotated(table, t)) && Nodes(Rotated(table, t)) == Nodes(t)
  {
    hide Linked, Threaded;
    ghost var rotations, visits;
    root, rotations, visits := Rotate(table, body, t);
    RotatedKeepsNodes(table, t);
    RotatedIsBody(table, t);
    RotatedIsFullyRotated(table, t);
    NodesExist(t);
    var ok := VerifyCorrectRotation(table, root, Rotated(table, t));
    assert ok;
  }
}
