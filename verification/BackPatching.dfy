/** BackPatchOpenEndedWhenConditionSequence(): the false-edges of open-ended
    when-conditions. */
module BackPatching {
  import opened Tokens
  import opened ParseTrees
  import opened ParseTreeNodes
  import opened ParseTreeRotator

  /** The open-ended when-conditions of a sequence, in order. */
  ghost function Openers(t: NodeTree): (os: seq<ParseTreeNode>)
    ensures forall r | r in os :: r in Nodes(t)
  {
    match t
    case When(_, _, _, next) => Openers(next)
    case OpenWhen(ref, _, next) => [ref] + Openers(next)
    case _ => []
  }

  /** All when-conditions of a sequence, in order. */
  ghost function Conditions(t: NodeTree): (cs: seq<ParseTreeNode>)
    ensures forall r | r in cs :: r in Nodes(t)
  {
    match t
    case When(ref, _, _, next) => [ref] + Conditions(next)
    case OpenWhen(ref, _, next) => [ref] + Conditions(next)
    case _ => []
  }

  /** Rotating never replaces a when-condition: the same nodes stay in the
      same order, open-ended ones included. */
  lemma {:induction false} RotatedKeepsConditions(table: OperatorTable, t: NodeTree)
    requires IsWhenSequence(t)
    ensures Conditions(Rotated(table, t)) == Conditions(t)
    ensures Openers(Rotated(table, t)) == Openers(t)
  {
    RotatedIsWhenSequence(table, t);
    match t
    case Nil =>
    case When(_, _, _, next) => RotatedKeepsConditions(table, next);
    case OpenWhen(_, _, next) => RotatedKeepsConditions(table, next);
    case _ => assert false;
  }

  lemma {:induction false} NextOpenEndedIsFirst(t: NodeTree)
    ensures Root(NextOpenEnded(t)) == if Openers(t) == [] then null else Openers(t)[0]
  {
    if t.When? {
      NextOpenEndedIsFirst(t.next);
    }
  }

  /** The open-ended when-condition at position i leads to the one after it. */
  ghost predicate LeadsOn(os: seq<ParseTreeNode>, i: nat)
    requires i < |os|
    reads os[i]
  {
    os[i].third == if i + 1 < |os| then os[i + 1] else null
  }

  lemma {:induction false} ThreadedByPosition(t: NodeTree, os: seq<ParseTreeNode>)
    requires os == Openers(t)
    requires forall i: nat | i < |os| :: LeadsOn(os, i)
    ensures Threaded(t)
  {
    match t
    case When(_, _, _, next) => ThreadedByPosition(next, os);
    case OpenWhen(ref, _, next) =>
      var tail := os[1..];
      assert os[0] == ref && tail == Openers(next) && LeadsOn(os, 0);
      forall i: nat | i < |tail| ensures LeadsOn(tail, i) {
        assert LeadsOn(os, i + 1);
      }
      ThreadedByPosition(next, tail);
      NextOpenEndedIsFirst(next);
    case _ =>
  }

  lemma {:induction false} OpenersDiffer(t: NodeTree, i: nat, j: nat)
    requires Distinct(t) && i < j < |Openers(t)|
    ensures Openers(t)[i] != Openers(t)[j]
  {
    match t
    case When(_, _, _, next) => OpenersDiffer(next, i, j);
    case OpenWhen(_, _, next) =>
      if i > 0 {
        OpenersDiffer(next, i - 1, j - 1);
      } else {
        assert Openers(t)[j] in Openers(next);
      }
    case _ =>
  }

  // ---------- One when-condition at a time ----------

  /** The when-conditions of a sequence, each with all that follows it. */
  ghost function Suffixes(t: NodeTree): set<NodeTree> {
    match t
    case When(_, _, _, next) => {t} + Suffixes(next)
    case OpenWhen(_, _, next) => {t} + Suffixes(next)
    case _ => {}
  }

  /** A when-condition without its successors. */
  ghost function OwnNodes(s: NodeTree): (own: set<ParseTreeNode>)
    ensures own <= Nodes(s)
  {
    match s
    case When(ref, cond, action, _) => {ref} + Nodes(cond) + Nodes(action)
    case OpenWhen(ref, cond, _) => {ref} + Nodes(cond)
    case _ => {}
  }

  ghost predicate OwnLinked(s: NodeTree)
    reads OwnNodes(s)
  {
    match s
    case When(ref, cond, action, next) =>
      && ref.nodeType == ConditionalWhen
      && Linked(ref.first, cond) && Linked(ref.second, action) && ref.third == Root(next)
    case OpenWhen(ref, cond, next) =>
      && ref.nodeType == ConditionalWhen
      && Linked(ref.first, cond) && ref.second == Root(next) && (next.Nil? ==> ref.third == null)
    case _ => true
  }

  lemma {:induction false} LinkedOneByOne(t: NodeTree)
    requires IsWhenSequence(t)
    ensures Linked(Root(t), t) <==> forall s | s in Suffixes(t) :: OwnLinked(s)
  {
    match t
    case When(_, _, _, next) =>
      LinkedOneByOne(next);
      assert OwnLinked(t) && Linked(Root(next), next) ==> Linked(Root(t), t);
    case OpenWhen(_, _, next) =>
      LinkedOneByOne(next);
      assert OwnLinked(t) && Linked(Root(next), next) ==> Linked(Root(t), t);
    case _ =>
  }

  lemma {:induction false} SuffixIsSequence(t: NodeTree, s: NodeTree)
    requires IsWhenSequence(t) && Distinct(t) && s in Suffixes(t)
    ensures IsWhenSequence(s) && Distinct(s) && Nodes(s) <= Nodes(t) && Suffixes(s) <= Suffixes(t)
    ensures s.When? || s.OpenWhen?
  {
    if s != t {
      SuffixIsSequence(t.next, s);
    }
  }

  lemma {:induction false} SuffixesApart(t: NodeTree, s: NodeTree, u: NodeTree)
    requires IsWhenSequence(t) && Distinct(t) && s in Suffixes(t) && u in Suffixes(t) && s != u
    ensures OwnNodes(s) !! OwnNodes(u)
  {
    if s != t { SuffixIsSequence(t.next, s); }
    if u != t { SuffixIsSequence(t.next, u); }
    if s != t && u != t {
      SuffixesApart(t.next, s, u);
    }
  }

  /** The node at the front of a sequence, as the loop below sees it. */
  lemma SequenceHead(n: ParseTreeNode?, t: NodeTree)
    requires n == Root(t) && n != null && IsWhenSequence(t) && Distinct(t)
    requires forall s | s in Suffixes(t) :: OwnLinked(s)
    ensures t.When? || t.OpenWhen?
    ensures n == t.ref && n.nodeType.ConditionalWhen? && n in OwnNodes(t)
    ensures n.IsOpenEndedWhenCondition() <==> t.OpenWhen?
    ensures t.When? ==> n.third == Root(t.next) && Openers(t) == Openers(t.next)
    ensures t.OpenWhen? ==> n.second == Root(t.next) && Openers(t) == [n] + Openers(t.next)
    ensures IsWhenSequence(t.next) && Size(t.next) < Size(t) && Distinct(t.next)
    ensures Suffixes(t) == {t} + Suffixes(t.next)
  {
    LinkedOneByOne(t);
    OpenEndedExactlyWhen(t);
    assert OwnLinked(t);
  }

  /** The first k - 1 open-ended when-conditions are threaded, the others not yet. */
  ghost predicate ThreadedUpTo(os: seq<ParseTreeNode>, k: nat)
    reads os
  {
    && (forall i: nat | i < k - 1 && i < |os| :: LeadsOn(os, i))
    && (forall i: nat | i < |os| && i >= k - 1 :: os[i].third == null)
  }

  lemma ThreadingComplete(os: seq<ParseTreeNode>)
    requires ThreadedUpTo(os, |os|)
    ensures forall i: nat | i < |os| :: LeadsOn(os, i)
  {
  }

  /** The false-edge of an open-ended when-condition with a successor is set:
      everything else stays in place. */
  method SetFalseEdge(last: ParseTreeNode, target: ParseTreeNode, ghost t: NodeTree, ghost opener: NodeTree,
                      ghost k: nat)
    requires IsWhenSequence(t) && Distinct(t)
    requires forall s | s in Suffixes(t) :: OwnLinked(s)
    requires opener in Suffixes(t) && opener.OpenWhen? && opener.ref == last && !opener.next.Nil?
    requires 0 < k < |Openers(t)| && last == Openers(t)[k - 1] && target == Openers(t)[k]
    requires ThreadedUpTo(Openers(t), k)
    modifies last
    ensures forall s | s in Suffixes(t) :: OwnLinked(s)
    ensures ThreadedUpTo(Openers(t), k + 1)
  {
    hide Linked;
    ghost var os := Openers(t);
    SuffixIsSequence(t, opener);
    NodesExist(t);
    assert OwnLinked(opener);
    assert forall i: nat | i < k - 1 :: LeadsOn(os, i);
    last.SetRightMostSibbling(target);
    assert OwnLinked(opener);
    forall s | s in Suffixes(t) ensures OwnLinked(s) {
      if s != opener {
        SuffixIsSequence(t, s);
        SuffixesApart(t, s, opener);
      }
    }
    forall i: nat | i < |os| && i != k - 1 ensures os[i] != last {
      if i < k - 1 { OpenersDiffer(t, i, k - 1); } else { OpenersDiffer(t, k - 1, i); }
    }
    forall i: nat | i < k ensures LeadsOn(os, i) {
      assert os[i] in os;
    }
    forall i: nat | k <= i < |os| ensures os[i].third == null {
      assert os[i] in os;
    }
  }

  method BackPatchOpenEndedWhenConditionSequence(first: ParseTreeNode?, ghost t: NodeTree)
    requires Linked(first, t) && IsWhenSequence(t) && Distinct(t)
    requires forall r | r in Openers(t) :: r.third == null
    modifies Nodes(t)
    ensures Linked(first, t) && Threaded(t)
  {
    hide Linked, Threaded, IsWhenSequence, Distinct, OwnLinked, LeadsOn;
    ghost var os := Openers(t);
    ghost var rest, opener, k := t, t, 0;
    var last: ParseTreeNode? := null;
    var current := first;
    NullIsLinked(first, t);
    LinkedOneByOne(t);
    NodesExist(t);
    while current != null
      invariant forall s | s in Suffixes(t) :: OwnLinked(s)
      invariant current == Root(rest) && IsWhenSequence(rest) && Distinct(rest)
      invariant Suffixes(rest) <= Suffixes(t)
      invariant k <= |os| && Openers(rest) == os[k..]
      invariant last == if k == 0 then null else os[k - 1]
      invariant last != null ==> opener in Suffixes(t) && opener.OpenWhen? && opener.ref == last
                                 && (rest.Nil? || !opener.next.Nil?)
      invariant ThreadedUpTo(os, k)
      decreases Size(rest)
    {
      SequenceHead(current, rest);
      if current.IsOpenEndedWhenCondition() {
        // the false-edge of the last open-ended when-condition leads here
        assert os[k] == current;
        if last != null {
          assert last in os;
          SetFalseEdge(last, current, t, opener, k);
          SequenceHead(current, rest);
        }
        last := current;
        opener := rest;
        k := k + 1;
        current := current.second;
        rest := rest.next;
      } else if current.IsWhenConditionWithAction() {
        var rightMost := current.GetRightMostSibbling();
        if rightMost != null { SequenceHead(rightMost, rest.next); }
        if rightMost == null || !rightMost.IsAnyKindOfWhenCondition() {
          break;
        }
        current := rightMost;
        rest := rest.next;
      } else {
        assert false;
      }
    }
    assert k == |os|;
    ThreadingComplete(os);
    LinkedOneByOne(t);
    ThreadedByPosition(t, os);
  }

  // ---------- The graph has no cycles ----------

  lemma {:induction false} NextOpenEndedIsAhead(t: NodeTree)
    requires IsWhenSequence(t)
    ensures var o := Root(NextOpenEnded(t)); o == null || o in Conditions(t)
    ensures Root(t) == if Conditions(t) == [] then null else Conditions(t)[0]
  {
    if t.When? {
      NextOpenEndedIsAhead(t.next);
    }
  }

  /** Every edge between when-conditions leads forward in the list: the graph that
      evaluation walks has no cycle. */
  lemma {:induction false} EdgesLeadForward(t: NodeTree, i: nat)
    requires Linked(Root(t), t) && IsWhenSequence(t) && Threaded(t)
    requires i < |Conditions(t)|
    ensures var cs := Conditions(t);
            && (cs[i].third == null || cs[i].third in cs[i + 1..])
            && (cs[i].second == null || !cs[i].second.nodeType.ConditionalWhen? || cs[i].second in cs[i + 1..])
  {
    var cs := Conditions(t);
    assert cs[1..] == Conditions(t.next);
    if i == 0 {
      NextOpenEndedIsAhead(t.next);
      if t.When? {
        assert Linked(t.ref.second, t.action);
      }
    } else {
      EdgesLeadForward(t.next, i - 1);
      assert cs[1..][i - 1] == cs[i] && cs[1..][i..] == cs[i + 1..];
    }
  }
}
