/** The tables made at startup from the list of the 169 kinds of starting hands
    (CIteratorThread.cpp): the ranks for weighted prwin, and the vanilla table of
    all hands for enhanced prwin.

    The list itself is an input: any order of all the kinds. */
module HandRanks {
  import opened Common

  const CARDS_PER_DECK := 52
  const KINDS := 169
  const HANDS := 1326
  const RANK_TABLE_SIZE := 170
  const MAX_PLAYERS := 10
  const VANILLA_LEVEL := 1024
  const VANILLA_LIMIT := 820
  const FIRST_THIRD := 442
  const SECOND_THIRD := 884

  predicate IsCard(c: int) { 0 <= c < CARDS_PER_DECK }

  // ---------- Kinds of hands ----------

  /** A kind of starting hands, by ranks from 0, the two, to 12, the ace. */
  datatype Kind = Pair(rank: nat) | Suited(hi: nat, lo: nat) | Offsuit(hi: nat, lo: nat) {
    predicate Valid() {
      if Pair? then rank < 13 else lo < hi < 13
    }

    /** The place in the rank tables. */
    function Offset(): nat {
      if Pair? then rank * 13 + rank else hi * 13 + lo
    }

    function Code(): nat {
      if Offsuit? then lo * 13 + hi else Offset()
    }
  }

  function KindOf(a: int, b: int): (k: Kind)
    requires IsCard(a) && IsCard(b) && a != b
    ensures k.Valid()
  {
    var hi := if a % 13 < b % 13 then b % 13 else a % 13;
    var lo := if a % 13 < b % 13 then a % 13 else b % 13;
    if hi == lo then Pair(hi) else if a / 13 == b / 13 then Suited(hi, lo) else Offsuit(hi, lo)
  }

  /** All the kinds, each of them once. */
  ghost predicate IsOrder(order: seq<Kind>) {
    && |order| == KINDS && (forall i | 0 <= i < KINDS :: order[i].Valid())
    && forall i, j | 0 <= i < j < KINDS :: order[i] != order[j]
  }

  function KindOfCode(c: nat): Kind {
    if c % 13 < c / 13 then Suited(c / 13, c % 13)
    else if c % 13 == c / 13 then Pair(c / 13)
    else Offsuit(c % 13, c / 13)
  }

  lemma CodeTells(k: Kind)
    requires k.Valid()
    ensures k.Code() < KINDS && KindOfCode(k.Code()) == k
  {
    assert k.Pair? ==> (k.rank * 13 + k.rank) / 13 == k.rank;
    assert k.Suited? ==> (k.hi * 13 + k.lo) / 13 == k.hi;
    assert k.Offsuit? ==> (k.lo * 13 + k.hi) / 13 == k.lo;
  }

  lemma {:induction false} CodesBound(s: set<Kind>, n: nat)
    requires forall k | k in s :: k.Valid() && k.Code() < n
    ensures |s| <= n
  {
    if n == 0 {
      assert forall k :: k !in s;
    } else {
      var k := KindOfCode(n - 1);
      forall k' | k' in s - {k} ensures k'.Code() < n - 1 {
        CodeTells(k');
      }
      CodesBound(s - {k}, n - 1);
      SubsetIsNoLarger(s, s - {k} + {k});
    }
  }

  /** No kind is missing in an order. */
  lemma PlaceOf(order: seq<Kind>, k: Kind) returns (i: nat)
    requires IsOrder(order) && k.Valid()
    ensures i < KINDS && order[i] == k
  {
    var s := set k' | k' in order;
    DistinctCount(order);
    if k !in order {
      forall k' | k' in s + {k} ensures k'.Valid() && k'.Code() < KINDS {
        CodeTells(k');
      }
      CodesBound(s + {k}, KINDS);
      assert false;
    }
    i :| i < KINDS && order[i] == k;
  }

  // ---------- The ranks ----------

  /** The rank table of the suited kinds, or of the others, after the first n kinds. */
  function Ranked(before: seq<int>, order: seq<Kind>, n: nat, suited: bool): (ranks: seq<int>)
    requires n <= |order| && |before| == RANK_TABLE_SIZE && forall i | 0 <= i < |order| :: order[i].Valid()
    ensures |ranks| == RANK_TABLE_SIZE
  {
    if n == 0 then before
    else
      var ranks := Ranked(before, order, n - 1, suited);
      if order[n - 1].Suited? == suited then ranks[order[n - 1].Offset() := n] else ranks
  }

  lemma OffsetTells(k: Kind, k': Kind)
    requires k.Valid() && k'.Valid() && k.Suited? == k'.Suited? && k.Offset() == k'.Offset()
    ensures k == k'
  {
    assert k.Pair? ==> (k.rank * 13 + k.rank) / 13 == k.rank;
    assert !k.Pair? ==> (k.hi * 13 + k.lo) / 13 == k.hi;
    assert k'.Pair? ==> (k'.rank * 13 + k'.rank) / 13 == k'.rank;
    assert !k'.Pair? ==> (k'.hi * 13 + k'.lo) / 13 == k'.hi;
  }

  lemma {:induction false} RankedAt(before: seq<int>, order: seq<Kind>, n: nat, i: nat)
    requires IsOrder(order) && i < n <= KINDS && |before| == RANK_TABLE_SIZE
    ensures Ranked(before, order, n, order[i].Suited?)[order[i].Offset()] == i + 1
  {
    if i < n - 1 {
      RankedAt(before, order, n - 1, i);
      if order[n - 1].Suited? == order[i].Suited? && order[n - 1].Offset() == order[i].Offset() {
        OffsetTells(order[n - 1], order[i]);
      }
    }
  }

  /** The rank that a hand is looked up with. */
  function RankOf(suited: seq<int>, offsuited: seq<int>, card1: int, card2: int): int
    requires |suited| == |offsuited| == RANK_TABLE_SIZE && IsCard(card1) && IsCard(card2)
  {
    var hi := if card2 % 13 > card1 % 13 then card2 % 13 else card1 % 13;
    var lo := if card2 % 13 > card1 % 13 then card1 % 13 else card2 % 13;
    if card1 / 13 == card2 / 13 then suited[hi * 13 + lo] else offsuited[hi * 13 + lo]
  }

  /** A hand of two cards is looked up, in either order, under the place of its kind. */
  lemma RanksArePlaces(before: seq<int>, before': seq<int>, order: seq<Kind>, a: int, b: int) returns (i: nat)
    requires IsOrder(order) && |before| == |before'| == RANK_TABLE_SIZE && IsCard(a) && IsCard(b) && a != b
    ensures i < KINDS && order[i] == KindOf(a, b)
    ensures var suited, offsuited := Ranked(before, order, KINDS, true), Ranked(before', order, KINDS, false);
            RankOf(suited, offsuited, a, b) == RankOf(suited, offsuited, b, a) == i + 1
  {
    i := PlaceOf(order, KindOf(a, b));
    RankedAt(if order[i].Suited? then before else before', order, KINDS, i);
  }

  lemma TablesRank(before: seq<int>, before': seq<int>, order: seq<Kind>)
    requires IsOrder(order) && |before| == |before'| == RANK_TABLE_SIZE
    ensures var suited, offsuited := Ranked(before, order, KINDS, true), Ranked(before', order, KINDS, false);
            forall a: nat, b: nat | a < b < CARDS_PER_DECK ::
              0 < RankOf(suited, offsuited, a, b) <= KINDS
              && order[RankOf(suited, offsuited, a, b) - 1] == KindOf(a, b)
  {
    hide Ranked, RankOf, KindOf;
    forall a: nat, b: nat | a < b < CARDS_PER_DECK
      ensures var suited, offsuited := Ranked(before, order, KINDS, true), Ranked(before', order, KINDS, false);
              0 < RankOf(suited, offsuited, a, b) <= KINDS
              && order[RankOf(suited, offsuited, a, b) - 1] == KindOf(a, b)
    {
      var i := RanksArePlaces(before, before', order, a, b);
    }
  }

  // ---------- The hands of a kind ----------

  /** The order of the two cards does not matter. */
  predicate SameHand(h: (int, int), h': (int, int)) { h == h' || h == (h'.1, h'.0) }

  /** The suits of the two cards in the hands of a kind. */
  function SuitsOf(kind: Kind): (suits: seq<(nat, nat)>)
    ensures |suits| == if kind.Pair? then 6 else if kind.Suited? then 4 else 12
    ensures forall w | 0 <= w < |suits| :: suits[w].0 < 4 && suits[w].1 < 4
  {
    match kind
    case Pair(_) => [(0, 1), (0, 2), (0, 3), (1, 2), (1, 3), (2, 3)]
    case Suited(_, _) => [(0, 0), (1, 1), (2, 2), (3, 3)]
    case Offsuit(_, _) =>
      [(0, 1), (0, 2), (0, 3), (1, 0), (1, 2), (1, 3), (2, 0), (2, 1), (2, 3), (3, 0), (3, 1), (3, 2)]
  }

  function High(kind: Kind): nat { if kind.Pair? then kind.rank else kind.hi }

  function Low(kind: Kind): nat { if kind.Pair? then kind.rank else kind.lo }

  function HandOf(kind: Kind, suits: (nat, nat)): (int, int) {
    (High(kind) + 13 * suits.0, Low(kind) + 13 * suits.1)
  }

  function HandsOf(kind: Kind): (hands: seq<(int, int)>)
    ensures |hands| == |SuitsOf(kind)|
    ensures forall w | 0 <= w < |hands| :: hands[w] == HandOf(kind, SuitsOf(kind)[w])
  {
    seq(|SuitsOf(kind)|, w requires 0 <= w < |SuitsOf(kind)| => HandOf(kind, SuitsOf(kind)[w]))
  }

  lemma CardParts(rank: nat, suit: nat)
    requires rank < 13 && suit < 4
    ensures IsCard(rank + 13 * suit) && (rank + 13 * suit) % 13 == rank && (rank + 13 * suit) / 13 == suit
  {}

  lemma HandsAreOfTheKind(kind: Kind, w: nat)
    requires kind.Valid() && w < |HandsOf(kind)|
    ensures var h := HandsOf(kind)[w]; IsCard(h.0) && IsCard(h.1) && h.0 != h.1 && KindOf(h.0, h.1) == kind
  {
    var suits := SuitsOf(kind)[w];
    CardParts(High(kind), suits.0);
    CardParts(Low(kind), suits.1);
    SuitsDiffer(kind, w);
  }

  lemma SuitsDiffer(kind: Kind, w: nat)
    requires w < |SuitsOf(kind)|
    ensures SuitsOf(kind)[w].0 == SuitsOf(kind)[w].1 <==> kind.Suited?
  {}

  /** The suits are in the list once. */
  lemma SuitsAreUnique(kind: Kind, w: nat, w': nat)
    requires w < w' < |SuitsOf(kind)|
    ensures SuitsOf(kind)[w] != SuitsOf(kind)[w']
    ensures kind.Pair? ==> SuitsOf(kind)[w] != (SuitsOf(kind)[w'].1, SuitsOf(kind)[w'].0)
  {}

  lemma HandsDiffer(kind: Kind, w: nat, w': nat)
    requires kind.Valid() && w < w' < |HandsOf(kind)|
    ensures !SameHand(HandsOf(kind)[w], HandsOf(kind)[w'])
  {
    hide SuitsOf;
    SuitsAreUnique(kind, w, w');
    var suits, suits' := SuitsOf(kind)[w], SuitsOf(kind)[w'];
    CardParts(High(kind), suits.0);
    CardParts(Low(kind), suits.1);
    CardParts(High(kind), suits'.0);
    CardParts(Low(kind), suits'.1);
  }

  /** Where the suits of a hand of the kind are in the list. */
  function SuitsPlace(kind: Kind, s: nat, t: nat): int {
    if kind.Suited? then s
    else if kind.Offsuit? then 3 * s + if t < s then t else t - 1
    else if s == 0 then t - 1
    else if s == 1 then t + 1
    else 5
  }

  lemma SuitsAreListed(kind: Kind, s: nat, t: nat)
    requires s < 4 && t < 4 && (s == t <==> kind.Suited?) && (kind.Pair? ==> s < t)
    ensures 0 <= SuitsPlace(kind, s, t) < |SuitsOf(kind)|
    ensures SuitsOf(kind)[SuitsPlace(kind, s, t)] == (s, t)
  {
    var suits := SuitsOf(kind);
    if kind.Pair? {
      assert suits == [(0, 1), (0, 2), (0, 3), (1, 2), (1, 3), (2, 3)];
    } else if kind.Suited? {
      assert suits == [(0, 0), (1, 1), (2, 2), (3, 3)];
    }
  }

  lemma PartsOf(a: int)
    requires IsCard(a)
    ensures 0 <= a / 13 < 4 && 0 <= a % 13 < 13 && a % 13 + 13 * (a / 13) == a
  {}

  /** Every hand is among those of its kind. */
  lemma HandIsAmong(a: int, b: int) returns (w: nat)
    requires IsCard(a) && IsCard(b) && a != b
    ensures w < |HandsOf(KindOf(a, b))| && SameHand(HandsOf(KindOf(a, b))[w], (a, b))
  {
    hide SuitsOf, SuitsPlace;
    PartsOf(a);
    PartsOf(b);
    var kind := KindOf(a, b);
    var swap := if a % 13 == b % 13 then b / 13 < a / 13 else a % 13 < b % 13;
    var s, t := if swap then b / 13 else a / 13, if swap then a / 13 else b / 13;
    SuitsAreListed(kind, s, t);
    w := SuitsPlace(kind, s, t);
    assert HandsOf(kind)[w] == HandOf(kind, (s, t));
  }

  // ---------- The list of all hands ----------

  /** The hands of the first n kinds. */
  function Listed(order: seq<Kind>, n: nat): seq<(int, int)>
    requires n <= |order|
  {
    if n == 0 then [] else Listed(order, n - 1) + HandsOf(order[n - 1])
  }

  lemma ListGrowsBy(order: seq<Kind>, n: nat)
    requires n < |order|
    ensures Listed(order, n + 1) == Listed(order, n) + HandsOf(order[n])
  {}

  lemma {:induction false} ListedAt(order: seq<Kind>, n: nat, i: nat, w: nat)
    requires i < n <= |order| && w < |HandsOf(order[i])|
    ensures var j := |Listed(order, i)| + w; j < |Listed(order, n)| && Listed(order, n)[j] == HandsOf(order[i])[w]
  {
    hide HandsOf, Listed;
    ListGrowsBy(order, n - 1);
    if i < n - 1 {
      ListedAt(order, n - 1, i, w);
    }
  }

  lemma {:induction false} ListedFrom(order: seq<Kind>, n: nat, j: nat) returns (i: nat, w: nat)
    requires n <= |order| && j < |Listed(order, n)|
    ensures i < n && w < |HandsOf(order[i])| && j == |Listed(order, i)| + w
    ensures Listed(order, n)[j] == HandsOf(order[i])[w]
  {
    var m := |Listed(order, n - 1)|;
    if j < m {
      i, w := ListedFrom(order, n - 1, j);
    } else {
      i, w := n - 1, j - m;
    }
  }

  lemma KindIsUnordered(h: (int, int), h': (int, int))
    requires IsCard(h.0) && IsCard(h.1) && h.0 != h.1 && SameHand(h, h')
    ensures IsCard(h'.0) && IsCard(h'.1) && h'.0 != h'.1 && KindOf(h.0, h.1) == KindOf(h'.0, h'.1)
  {}

  /** Two entries of the list are never the same hand, and each is a hand. */
  lemma EntriesDiffer(order: seq<Kind>, j: nat, j': nat)
    requires IsOrder(order) && j < |Listed(order, KINDS)| && j' < |Listed(order, KINDS)|
    ensures var h := Listed(order, KINDS)[j]; IsCard(h.0) && IsCard(h.1) && h.0 != h.1
    ensures SameHand(Listed(order, KINDS)[j], Listed(order, KINDS)[j']) ==> j == j'
  {
    hide HandsOf, KindOf;
    var i, w := ListedFrom(order, KINDS, j);
    var i', w' := ListedFrom(order, KINDS, j');
    var h, h' := HandsOf(order[i])[w], HandsOf(order[i'])[w'];
    HandsAreOfTheKind(order[i], w);
    HandsAreOfTheKind(order[i'], w');
    if SameHand(h, h') {
      KindIsUnordered(h, h');
      assert order[i] == order[i'];
      assert i == i';
      if w < w' {
        HandsDiffer(order[i], w, w');
      } else if w' < w {
        HandsDiffer(order[i], w', w);
      }
    }
  }

  /** Every hand is in the list exactly once. */
  lemma EveryHandIsListedOnce(order: seq<Kind>, a: int, b: int) returns (j: nat)
    requires IsOrder(order) && IsCard(a) && IsCard(b) && a != b
    ensures j < |Listed(order, KINDS)|
    ensures forall j': nat | j' < |Listed(order, KINDS)| :: SameHand(Listed(order, KINDS)[j'], (a, b)) <==> j' == j
  {
    hide HandsOf, KindOf, Listed, IsOrder;
    var i := PlaceOf(order, KindOf(a, b));
    var w := HandIsAmong(a, b);
    OrderIsLong(order);
    ListedAt(order, KINDS, i, w);
    j := |Listed(order, i)| + w;
    forall j': nat | j' < |Listed(order, KINDS)| && SameHand(Listed(order, KINDS)[j'], (a, b)) ensures j' == j {
      EntriesDiffer(order, j', j);
    }
  }

  lemma OrderIsLong(order: seq<Kind>)
    requires IsOrder(order)
    ensures |order| == KINDS && forall i | 0 <= i < KINDS :: order[i].Valid()
  {}

  /** The hands of which both cards are below n. */
  function HandsBelow(n: nat): set<(int, int)> {
    set a, b | 0 <= a < b < n :: (a, b)
  }

  function HandsWith(b: nat, n: nat): set<(int, int)> {
    set a | 0 <= a < n :: (a, b)
  }

  lemma {:induction false} HandsWithCount(b: nat, n: nat)
    ensures |HandsWith(b, n)| == n
  {
    if n == 0 {
      assert HandsWith(b, n) == {};
    } else {
      HandsWithCount(b, n - 1);
      assert HandsWith(b, n) == HandsWith(b, n - 1) + {(n - 1, b)};
    }
  }

  lemma MoreHandsBelow(n: nat)
    ensures |HandsBelow(n + 1)| == |HandsBelow(n)| + n
  {
    HandsWithCount(n, n);
    assert HandsBelow(n + 1) == HandsBelow(n) + HandsWith(n, n);
    assert HandsBelow(n) !! HandsWith(n, n);
  }

  lemma {:induction false} HandsBelowCount(n: nat)
    ensures 2 * |HandsBelow(n)| == n * (n - 1)
  {
    if n == 0 {
      assert HandsBelow(n) == {};
    } else {
      hide HandsBelow;
      HandsBelowCount(n - 1);
      MoreHandsBelow(n - 1);
      TriangleGrows(n);
    }
  }

  lemma TriangleGrows(n: nat)
    requires n >= 1
    ensures n * (n - 1) == (n - 1) * (n - 2) + 2 * (n - 1)
  {}

  function Normal(h: (int, int)): (int, int) { if h.0 < h.1 then h else (h.1, h.0) }

  /** The list is as long as there are hands. */
  lemma ListIsComplete(order: seq<Kind>)
    requires IsOrder(order)
    ensures |Listed(order, KINDS)| == HANDS
  {
    hide Listed, IsOrder, KindOf;
    OrderIsLong(order);
    var hands := Listed(order, KINDS);
    var normal := seq(|hands|, j requires 0 <= j < |hands| => Normal(hands[j]));
    forall j, j' | 0 <= j < j' < |hands| ensures normal[j] != normal[j'] {
      EntriesDiffer(order, j, j');
    }
    DistinctCount(normal);
    HandsBelowCount(CARDS_PER_DECK);
    forall h ensures h in normal <==> h in HandsBelow(CARDS_PER_DECK) {
      NormalHands(order, normal, h);
    }
    assert (set h | h in normal) == HandsBelow(CARDS_PER_DECK);
  }

  lemma NormalHands(order: seq<Kind>, normal: seq<(int, int)>, h: (int, int))
    requires IsOrder(order) && |normal| == |Listed(order, KINDS)|
    requires forall j | 0 <= j < |normal| :: normal[j] == Normal(Listed(order, KINDS)[j])
    ensures h in normal <==> h in HandsBelow(CARDS_PER_DECK)
  {
    hide Listed, IsOrder, KindOf;
    if h in normal {
      var j: nat :| j < |normal| && normal[j] == h;
      EntriesDiffer(order, j, j);
    }
    if h in HandsBelow(CARDS_PER_DECK) {
      var j := EveryHandIsListedOnce(order, h.0, h.1);
      assert normal[j] == h;
    }
  }

  // ---------- The vanilla table ----------

  /** How one chair is weighted in the enhanced dealer. */
  datatype Chair = Chair(ignore: bool, limit: nat, level: int, rankhi: seq<int>, ranklo: seq<int>, weight: seq<int>)
  {
    /** Hands of two different cards, the first of which may be dealt. */
    predicate Valid() {
      && |rankhi| == |ranklo| == |weight| == HANDS && 1 <= limit <= HANDS && level >= 1
      && forall j | 0 <= j < limit :: IsCard(rankhi[j]) && IsCard(ranklo[j]) && rankhi[j] != ranklo[j]
    }
  }

  /** The upper third is always dealt, the next one less and less, the last one never. */
  function VanillaWeight(j: nat): nat {
    if j < FIRST_THIRD then VANILLA_LEVEL
    else if j < SECOND_THIRD then VANILLA_LEVEL * (SECOND_THIRD - j) / FIRST_THIRD
    else 0
  }

  /** A chair with the table of all hands. */
  ghost predicate IsVanilla(chair: Chair, order: seq<Kind>)
    requires IsOrder(order)
  {
    && |Listed(order, KINDS)| == |chair.rankhi| == |chair.ranklo| == |chair.weight| == HANDS
    && chair.level == VANILLA_LEVEL && chair.limit == VANILLA_LIMIT
    && forall j | 0 <= j < HANDS ::
         (chair.rankhi[j], chair.ranklo[j]) == Listed(order, KINDS)[j] && chair.weight[j] == VanillaWeight(j)
  }

  /** The table made at startup is one that the enhanced dealer can work with. */
  lemma VanillaIsValid(chair: Chair, order: seq<Kind>)
    requires IsOrder(order) && IsVanilla(chair, order)
    ensures chair.Valid()
  {
    hide Listed, IsOrder;
    OrderIsLong(order);
    forall j | 0 <= j < VANILLA_LIMIT
      ensures IsCard(chair.rankhi[j]) && IsCard(chair.ranklo[j]) && chair.rankhi[j] != chair.ranklo[j]
    {
      assert (chair.rankhi[j], chair.ranklo[j]) == Listed(order, KINDS)[j];
      EntriesDiffer(order, j, j);
    }
  }

  /** The weights fall along the table, and none within the limit is zero. */
  lemma VanillaWeightsFall(i: nat, j: nat)
    requires i <= j
    ensures VanillaWeight(i) >= VanillaWeight(j) && (VanillaWeight(j) > 0 <==> j < SECOND_THIRD)
    ensures VANILLA_LIMIT <= SECOND_THIRD
  {
  }

  /** The hands of a kind are in the two halves of the table, from this index on. */
  ghost predicate HandsFrom(rankhi: seq<int>, ranklo: seq<int>, kind: Kind, from: nat) {
    && from + |HandsOf(kind)| <= |rankhi| == |ranklo|
    && forall w | 0 <= w < |HandsOf(kind)| :: (rankhi[from + w], ranklo[from + w]) == HandsOf(kind)[w]
  }

  lemma PairHandsAreAll(j: nat, rankhi: seq<int>, ranklo: seq<int>)
    requires rankhi == [j, j, j, j + 13, j + 13, j + 26]
    requires ranklo == [j + 13, j + 26, j + 39, j + 26, j + 39, j + 39]
    ensures HandsFrom(rankhi, ranklo, Pair(j), 0)
  {}

  lemma SuitedHandsAreAll(j: nat, k: nat, rankhi: seq<int>, ranklo: seq<int>)
    requires rankhi == [j, j + 13, j + 26, j + 39]
    requires ranklo == [k, k + 13, k + 26, k + 39]
    ensures HandsFrom(rankhi, ranklo, Suited(j, k), 0)
  {}

  lemma OffsuitHandsAreAll(j: nat, k: nat, rankhi: seq<int>, ranklo: seq<int>)
    requires rankhi == [j, j, j, j + 13, j + 13, j + 13, j + 26, j + 26, j + 26, j + 39, j + 39, j + 39]
    requires ranklo == [k + 13, k + 26, k + 39, k, k + 26, k + 39, k, k + 13, k + 39, k, k + 13, k + 26]
    ensures HandsFrom(rankhi, ranklo, Offsuit(j, k), 0)
  {}

  lemma SliceHolds(rankhi: seq<int>, ranklo: seq<int>, kind: Kind, v: nat)
    requires v + |HandsOf(kind)| <= |rankhi| == |ranklo|
    requires HandsFrom(rankhi[v..v + |HandsOf(kind)|], ranklo[v..v + |HandsOf(kind)|], kind, 0)
    ensures HandsFrom(rankhi, ranklo, kind, v)
  {
    hide HandsOf;
    var hi, lo := rankhi[v..v + |HandsOf(kind)|], ranklo[v..v + |HandsOf(kind)|];
    forall w | 0 <= w < |HandsOf(kind)| ensures (rankhi[v + w], ranklo[v + w]) == HandsOf(kind)[w] {
      assert (hi[0 + w], lo[0 + w]) == HandsOf(kind)[w];
    }
  }

  /** The table starts with the hands of the first n kinds. */
  ghost predicate ListedSoFar(rankhi: seq<int>, ranklo: seq<int>, order: seq<Kind>, n: nat)
    requires n <= |order|
  {
    && |Listed(order, n)| <= |rankhi| == |ranklo|
    && forall j | 0 <= j < |Listed(order, n)| :: (rankhi[j], ranklo[j]) == Listed(order, n)[j]
  }

  lemma NothingListed(rankhi: seq<int>, ranklo: seq<int>, order: seq<Kind>)
    requires |rankhi| == |ranklo|
    ensures ListedSoFar(rankhi, ranklo, order, 0) && |Listed(order, 0)| == 0
  {}

  lemma OneMoreKind(rankhi: seq<int>, ranklo: seq<int>, rankhi': seq<int>, ranklo': seq<int>, order: seq<Kind>, n: nat)
    requires n < |order| && ListedSoFar(rankhi, ranklo, order, n) && |rankhi'| == |rankhi|
    requires HandsFrom(rankhi', ranklo', order[n], |Listed(order, n)|)
    requires rankhi'[..|Listed(order, n)|] == rankhi[..|Listed(order, n)|]
    requires ranklo'[..|Listed(order, n)|] == ranklo[..|Listed(order, n)|]
    ensures ListedSoFar(rankhi', ranklo', order, n + 1)
    ensures |Listed(order, n + 1)| == |Listed(order, n)| + |HandsOf(order[n])|
  {
    hide HandsOf;
    var m := |Listed(order, n)|;
    forall j | 0 <= j < |Listed(order, n + 1)| ensures (rankhi'[j], ranklo'[j]) == Listed(order, n + 1)[j] {
      if j < m {
        assert rankhi'[j] == rankhi'[..m][j] && ranklo'[j] == ranklo'[..m][j];
      } else {
        assert (rankhi'[m + (j - m)], ranklo'[m + (j - m)]) == HandsOf(order[n])[j - m];
      }
    }
  }

  lemma {:induction false} ListGrows(order: seq<Kind>, n: nat, m: nat)
    requires n <= m <= |order|
    ensures |Listed(order, n)| <= |Listed(order, m)|
  {
    hide HandsOf;
    if n < m {
      ListGrows(order, n, m - 1);
    }
  }

  /** The tables of the simulation. */
  class PrwinTables {
    const suited: array<int>
    const offsuited: array<int>
    const rankhi: array<int>
    const ranklo: array<int>
    const weight: array<int>
    const chairs: array<Chair>
    var limit: nat
    var level: int
    var ignore: bool

    ghost predicate Valid() {
      && suited.Length == offsuited.Length == RANK_TABLE_SIZE && suited != offsuited
      && rankhi.Length == ranklo.Length == weight.Length == HANDS
      && rankhi != ranklo && rankhi != weight && ranklo != weight
      && suited !in {rankhi, ranklo, weight} && offsuited !in {rankhi, ranklo, weight}
      && chairs.Length == MAX_PLAYERS
    }

    constructor (order: seq<Kind>)
      requires IsOrder(order)
      ensures Valid() && fresh({suited, offsuited, rankhi, ranklo, weight}) && fresh(chairs)
      ensures forall a: nat, b: nat | a < b < CARDS_PER_DECK ::
                && 0 < RankOf(suited[..], offsuited[..], a, b) <= KINDS
                && order[RankOf(suited[..], offsuited[..], a, b) - 1] == KindOf(a, b)
      ensures forall i | 0 <= i < MAX_PLAYERS :: IsVanilla(chairs[i], order) && chairs[i].Valid() && !chairs[i].ignore
    {
      suited := new int[RANK_TABLE_SIZE](_ => 0);
      offsuited := new int[RANK_TABLE_SIZE](_ => 0);
      rankhi := new int[HANDS](_ => 0);
      ranklo := new int[HANDS](_ => 0);
      weight := new int[HANDS](_ => 0);
      chairs := new Chair[MAX_PLAYERS](_ => Chair(false, 0, 0, [], [], []));
      limit, level, ignore := 0, 0, false;
      new;
      hide IsVanilla, IsOrder, Ranked;
      ghost var zeros, zeros' := suited[..], offsuited[..];
      InitHandranktTableForPrwin(order);
      TablesRank(zeros, zeros', order);
    }

    static method PutThree(a: array<int>, v: nat, x: int, y: int, z: int)
      requires v + 3 <= a.Length
      modifies a
      ensures a[..v + 3] == old(a[..v]) + [x, y, z]
    {
      a[v], a[v + 1], a[v + 2] := x, y, z;
    }

    method PutPairHands(j: nat, v: nat)
      requires Valid() && Pair(j).Valid() && v + 6 <= HANDS
      modifies rankhi, ranklo
      ensures HandsFrom(rankhi[..], ranklo[..], Pair(j), v)
      ensures rankhi[..v] == old(rankhi[..v]) && ranklo[..v] == old(ranklo[..v])
    {
      hide HandsOf, SuitsOf;
      PutThree(rankhi, v, j, j, j);
      PutThree(rankhi, v + 3, j + 13, j + 13, j + 26);
      PutThree(ranklo, v, j + 13, j + 26, j + 39);
      PutThree(ranklo, v + 3, j + 26, j + 39, j + 39);
      PairHandsAreAll(j, rankhi[v..v + 6], ranklo[v..v + 6]);
      SliceHolds(rankhi[..], ranklo[..], Pair(j), v);
    }

    method PutSuitedHands(j: nat, k: nat, v: nat)
      requires Valid() && Suited(j, k).Valid() && v + 4 <= HANDS
      modifies rankhi, ranklo
      ensures HandsFrom(rankhi[..], ranklo[..], Suited(j, k), v)
      ensures rankhi[..v] == old(rankhi[..v]) && ranklo[..v] == old(ranklo[..v])
    {
      rankhi[v], rankhi[v + 1], rankhi[v + 2], rankhi[v + 3] := j, j + 13, j + 26, j + 39;
      ranklo[v], ranklo[v + 1], ranklo[v + 2], ranklo[v + 3] := k, k + 13, k + 26, k + 39;
      hide HandsOf, SuitsOf;
      ghost var hi, lo := rankhi[v..v + 4], ranklo[v..v + 4];
      SuitedHandsAreAll(j, k, hi, lo);
      SliceHolds(rankhi[..], ranklo[..], Suited(j, k), v);
    }

    method PutOffsuitHands(j: nat, k: nat, v: nat)
      requires Valid() && Offsuit(j, k).Valid() && v + 12 <= HANDS
      modifies rankhi, ranklo
      ensures HandsFrom(rankhi[..], ranklo[..], Offsuit(j, k), v)
      ensures rankhi[..v] == old(rankhi[..v]) && ranklo[..v] == old(ranklo[..v])
    {
      hide HandsOf, SuitsOf;
      PutThree(rankhi, v, j, j, j);
      PutThree(rankhi, v + 3, j + 13, j + 13, j + 13);
      PutThree(rankhi, v + 6, j + 26, j + 26, j + 26);
      PutThree(rankhi, v + 9, j + 39, j + 39, j + 39);
      assert rankhi[v..v + 12] == [j, j, j, j + 13, j + 13, j + 13, j + 26, j + 26, j + 26, j + 39, j + 39, j + 39];
      PutThree(ranklo, v, k + 13, k + 26, k + 39);
      PutThree(ranklo, v + 3, k, k + 26, k + 39);
      PutThree(ranklo, v + 6, k, k + 13, k + 39);
      PutThree(ranklo, v + 9, k, k + 13, k + 26);
      OffsuitHandsAreAll(j, k, rankhi[v..v + 12], ranklo[v..v + 12]);
      SliceHolds(rankhi[..], ranklo[..], Offsuit(j, k), v);
    }

    /** The cases of the table: pairs, suited hands and all others. */
    method PutHands(kind: Kind, v: nat)
      requires Valid() && kind.Valid() && v + |HandsOf(kind)| <= HANDS
      modifies rankhi, ranklo
      ensures HandsFrom(rankhi[..], ranklo[..], kind, v)
      ensures rankhi[..v] == old(rankhi[..v]) && ranklo[..v] == old(ranklo[..v])
    {
      match kind
      case Pair(j) => PutPairHands(j, v);
      case Suited(j, k) => PutSuitedHands(j, k, v);
      case Offsuit(j, k) => PutOffsuitHands(j, k, v);
    }

    /** The ranks and the hands of all kinds. */
    method PutKinds(order: seq<Kind>)
      requires Valid() && IsOrder(order)
      modifies suited, offsuited, rankhi, ranklo
      ensures suited[..] == Ranked(old(suited[..]), order, KINDS, true)
      ensures offsuited[..] == Ranked(old(offsuited[..]), order, KINDS, false)
      ensures ListedSoFar(rankhi[..], ranklo[..], order, KINDS)
    {
      hide Listed, HandsOf, HandsFrom, IsOrder, ListedSoFar;
      OrderIsLong(order);
      ListIsComplete(order);
      var v := 0;
      NothingListed(rankhi[..], ranklo[..], order);
      for i := 0 to KINDS
        invariant suited[..] == Ranked(old(suited[..]), order, i, true)
        invariant offsuited[..] == Ranked(old(offsuited[..]), order, i, false)
        invariant ListedSoFar(rankhi[..], ranklo[..], order, i) && v == |Listed(order, i)|
      {
        PutRank(order[i], i + 1);
        ghost var hi, lo := rankhi[..], ranklo[..];
        NextHandsFit(order, i);
        PutHands(order[i], v);
        OneMoreKind(hi, lo, rankhi[..], ranklo[..], order, i);
        v := v + |HandsOf(order[i])|;
      }
    }

    method PutRank(kind: Kind, rank: int)
      requires Valid() && kind.Valid()
      modifies suited, offsuited
      ensures suited[..] == if kind.Suited? then old(suited[..])[kind.Offset() := rank] else old(suited[..])
      ensures offsuited[..] == if kind.Suited? then old(offsuited[..]) else old(offsuited[..])[kind.Offset() := rank]
    {
      if kind.Suited? {
        suited[kind.Offset()] := rank;
      } else {
        offsuited[kind.Offset()] := rank;
      }
    }

    method PutWeights()
      requires Valid()
      modifies weight, this`level, this`limit
      ensures level == VANILLA_LEVEL && limit == VANILLA_LIMIT
      ensures forall j | 0 <= j < HANDS :: weight[j] == VanillaWeight(j)
    {
      level := 1024;
      limit := 820;
      for i := 0 to FIRST_THIRD
        invariant level == VANILLA_LEVEL && limit == VANILLA_LIMIT
        invariant forall j | 0 <= j < i :: weight[j] == VanillaWeight(j)
      {
        weight[i] := level;
      }
      for i := FIRST_THIRD to SECOND_THIRD
        invariant level == VANILLA_LEVEL && limit == VANILLA_LIMIT
        invariant forall j | 0 <= j < i :: weight[j] == VanillaWeight(j)
      {
        weight[i] := level * (SECOND_THIRD - i) / FIRST_THIRD;
      }
      for i := SECOND_THIRD to HANDS
        invariant level == VANILLA_LEVEL && limit == VANILLA_LIMIT
        invariant forall j | 0 <= j < i :: weight[j] == VanillaWeight(j)
      {
        weight[i] := 0;
      }
    }

    /** The vanilla table is copied to all chairs. */
    method CloneVanillaChairToAllOtherChairs()
      requires Valid()
      modifies chairs
      ensures forall i | 0 <= i < MAX_PLAYERS ::
                chairs[i] == Chair(ignore, limit, level, rankhi[..], ranklo[..], weight[..])
    {
      for i := 0 to MAX_PLAYERS
        invariant forall k | 0 <= k < i ::
                    chairs[k] == Chair(ignore, limit, level, rankhi[..], ranklo[..], weight[..])
      {
        chairs[i] := Chair(ignore, limit, level, rankhi[..], ranklo[..], weight[..]);
      }
    }

    /** All tables are made of the order of the kinds, and all chairs are alike. */
    method InitHandranktTableForPrwin(order: seq<Kind>)
      requires Valid() && IsOrder(order)
      modifies this`level, this`limit, suited, offsuited, rankhi, ranklo, weight, chairs
      ensures suited[..] == Ranked(old(suited[..]), order, KINDS, true)
      ensures offsuited[..] == Ranked(old(offsuited[..]), order, KINDS, false)
      ensures forall i | 0 <= i < MAX_PLAYERS ::
                IsVanilla(chairs[i], order) && chairs[i].Valid() && chairs[i].ignore == ignore
    {
      hide Listed, HandsOf, HandsFrom, IsOrder, ListedSoFar, VanillaWeight;
      OrderIsLong(order);
      ListIsComplete(order);
      PutKinds(order);
      PutWeights();
      CloneVanillaChairToAllOtherChairs();
      ghost var chair := chairs[0];
      VanillaMade(chair, order);
      VanillaIsValid(chair, order);
    }
  }

  lemma NextHandsFit(order: seq<Kind>, i: nat)
    requires IsOrder(order) && i < KINDS
    ensures |Listed(order, i)| + |HandsOf(order[i])| <= HANDS
  {
    hide HandsOf;
    ListIsComplete(order);
    ListGrows(order, i + 1, KINDS);
  }

  lemma VanillaMade(chair: Chair, order: seq<Kind>)
    requires IsOrder(order) && |chair.weight| == HANDS && chair.level == VANILLA_LEVEL && chair.limit == VANILLA_LIMIT
    requires |chair.rankhi| == HANDS && ListedSoFar(chair.rankhi, chair.ranklo, order, KINDS)
    requires forall j | 0 <= j < HANDS :: chair.weight[j] == VanillaWeight(j)
    ensures IsVanilla(chair, order)
  {
    hide Listed, VanillaWeight, IsOrder;
    ListIsComplete(order);
  }
}
