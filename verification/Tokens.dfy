/** The tokens of OH-script and OpenPPL and the tables that classify them
    (OpenHoldem/TokenizerConstants.h and OpenHoldem/TokenizerConstants.cpp).

    Tokens that the tables put into one class share a constructor. A token is
    also what a parse-tree node stores as its type, so identifiers, numbers and
    user-variable assignments carry their text. */
module Tokens {

  datatype BinaryOperator =
    | Plus | Minus | Multiplication | Division | Modulo | Exponentiation | Log
    | Equality | ApproximatelyEqual
    | Smaller | SmallerOrEqual | Greater | GreaterOrEqual | NotEqual
    | LogicalAnd | LogicalOr | LogicalXOr
    | BinaryAnd | BinaryOr | BinaryXOr
    | BitShiftLeft | BitShiftRight | Percentage

  datatype UnaryOperator = UnaryMinus | LogicalNot | BinaryNot | BitCount

  datatype Bracket = Round | Square | Curly

  datatype ActionKind =
    | Beep | Fold | Check | Call | Raise | RaiseTo | RaiseBy
    | RaiseFourthPot | RaiseThirdPot | RaiseHalfPot | RaiseTwoThirdPot | RaiseThreeFourthPot
    | RaisePot | RaiseMax | Return | SetUserVariable

  datatype Token =
    | EndOfFile | EndOfFunction
    | Binary(operator: BinaryOperator)
    | Unary(prefix: UnaryOperator)
    | ConditionalIf | ConditionalElse | ConditionalWhen
    | BracketOpen(open: Bracket)
    | BracketClose(close: Bracket)
    | Identifier(name: string) | Number(literal: string) | Cards(cards: string)
    | DoubleShebang
    | Action(action: ActionKind)
    | KeywordForce | UnsupportedDelay
    // node types that are no tokens
    | RaiseByBigBlinds | RaiseToBigBlinds | RaiseByPercentagedPotsize
    | UserVariable(variable: string)

  /** Brackets count as unary: they get a node with a single operand. */
  predicate IsUnary(t: Token) {
    t.Unary? || t.BracketOpen?
  }

  predicate IsTernary(t: Token) {
    t.ConditionalIf? || t.ConditionalWhen?
  }

  /** The operators that stand between two operands; "? then :" counts as one
      such operator that carries its middle part. */
  predicate IsInfix(t: Token) {
    t.Binary? || t.ConditionalIf?
  }

  /** The closing brackets the parser takes for an opening one. The switch has
      no breaks, so a bracket also closes with any later kind. */
  predicate ClosesBracket(open: Bracket, token: Token) {
    && token.BracketClose?
    && match open
       case Round => true
       case Square => token.close.Square? || token.close.Curly?
       case Curly => token.close.Curly?
  }

  const UNDEFINED: int := -1

  /** Priorities and associativity as the rotator consults them. The rotator's
      own properties are proved for every such table. */
  datatype OperatorTable = OperatorTable(priority: Token -> int, rightAssociative: Token -> bool)

  function BinaryPriority(op: BinaryOperator): int {
    match op
    case Plus | Minus => 11
    case Multiplication | Division | Modulo | Percentage => 12
    case Exponentiation | Log => 14
    case Equality | ApproximatelyEqual | NotEqual => 8
    case Smaller | SmallerOrEqual | Greater | GreaterOrEqual => 9
    case LogicalAnd => 4
    case LogicalXOr => 3
    case LogicalOr => 2
    case BinaryAnd => 7
    case BinaryXOr => 6
    case BinaryOr => 5
    case BitShiftLeft | BitShiftRight => 10
  }

  function SourcePriority(t: Token): int {
    match t
    case Binary(op) => BinaryPriority(op)
    case Unary(_) => 13
    case ConditionalIf | ConditionalWhen => 1
    case BracketOpen(_) => 0
    case EndOfFile | EndOfFunction | ConditionalElse | BracketClose(_) => UNDEFINED
    case Identifier(_) | Number(_) | Cards(_) | DoubleShebang => UNDEFINED
    // The table has no initialisers for the actions and keywords: they are zero.
    case _ => 0
  }

  predicate SourceRightAssociative(t: Token) {
    t == Binary(Exponentiation) || t == Binary(Log) || t.ConditionalIf?
  }

  const SOURCE_TABLE: OperatorTable := OperatorTable(SourcePriority, SourceRightAssociative)

  /** What a table must satisfy for rotation to give the conventional reading:
      every infix operator has a priority, brackets bind loosest, and operators
      of equal priority agree on associativity. Unary operators may stand at
      any height. */
  ghost predicate ProperTable(table: OperatorTable) {
    && (forall t | IsInfix(t) :: table.priority(t) != UNDEFINED)
    && (forall t: Token, b: Token | IsInfix(t) && b.BracketOpen? :: table.priority(b) < table.priority(t))
    && (forall t: Token, u: Token | IsInfix(t) && (IsInfix(u) || u.Unary?) && table.priority(t) == table.priority(u) ::
          table.rightAssociative(t) == table.rightAssociative(u))
  }

  lemma AssociativityFollowsPriority(t: Token)
    requires IsInfix(t) || t.Unary?
    ensures SourceRightAssociative(t) <==> (SourcePriority(t) == 14 || SourcePriority(t) == 1)
    ensures SourcePriority(t) > 0
  {
  }

  lemma SourceTableIsProper()
    ensures ProperTable(SOURCE_TABLE)
  {
    forall t: Token, u: Token
      | IsInfix(t) && (IsInfix(u) || u.Unary?) && SOURCE_TABLE.priority(t) == SOURCE_TABLE.priority(u)
      ensures SOURCE_TABLE.rightAssociative(t) == SOURCE_TABLE.rightAssociative(u)
    {
      AssociativityFollowsPriority(t);
      AssociativityFollowsPriority(u);
    }
    forall t | IsInfix(t) ensures SOURCE_TABLE.priority(t) > 0 {
      AssociativityFollowsPriority(t);
    }
    assert forall b: Token | b.BracketOpen? :: SOURCE_TABLE.priority(b) == 0;
  }
}
