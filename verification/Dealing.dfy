/** Card dealing for the win-probability simulation (CIteratorThread.cpp): the
    swap dealer, the standard dealer and the enhanced dealer.

    The values of rand() are an input: a finite list of raw values to come. A
    dealer that runs out of them has not returned yet; everything is stated for
    those that do return, whatever the values. */
module Dealing {
  import opened Common
  import opened HandRanks

  const CARDS_PER_PLAYER := 2
  const COMMUNITY_CARDS := 5
  const MAX_OPPONENTS := 22
  const RAND_MAX := 0x7FFF

  predicate Distinct(s: seq<int>) {
    forall i, j | 0 <= i < j < |s| :: s[i] != s[j]
  }

  predicate IsRandom(random: seq<int>) {
    forall i | 0 <= i < |random| :: 0 <= random[i] <= RAND_MAX
  }

  // ---------- Rejection sampling ----------

  /** The largest multiple of limit that the raw values reach. */
  function Accepted(max: nat, limit: nat): nat
    requires limit >= 1
  {
    (max / limit) * limit
  }

  /** The accepted raw values, below a bound, that give this index. */
  function Preimage(bound: nat, limit: nat, index: nat): set<nat>
    requires limit >= 1
  {
    set raw: nat | raw < bound && raw % limit == index
  }

  lemma BlockHasOne(q: nat, limit: nat, index: nat, raw: nat)
    requires index < limit && q * limit <= raw < (q + 1) * limit
    ensures raw % limit == index <==> raw == q * limit + index
  {
    var r := raw - q * limit;
    assert raw == q * limit + r && 0 <= r < limit;
    RemainderIs(q, limit, r);
  }

  lemma {:induction false} MultiplesAreApart(d: nat, q: nat, limit: nat)
    requires d < q
    ensures d * limit + limit <= q * limit
    decreases q
  {
    NextMultiple(q - 1, limit);
    if d < q - 1 {
      MultiplesAreApart(d, q - 1, limit);
    }
  }

  lemma NextMultiple(q: nat, limit: nat)
    ensures (q + 1) * limit == q * limit + limit
  {}

  lemma QuotientIsUnique(d: nat, m: nat, q: nat, r: nat, limit: nat)
    requires d * limit + m == q * limit + r && m < limit && r < limit
    ensures m == r
  {
    if d < q {
      MultiplesAreApart(d, q, limit);
    } else if q < d {
      MultiplesAreApart(q, d, limit);
    }
  }

  lemma RemainderIs(q: nat, limit: nat, r: nat)
    requires r < limit
    ensures (q * limit + r) % limit == r
  {
    var n := q * limit + r;
    assert n == (n / limit) * limit + n % limit;
    QuotientIsUnique(n / limit, n % limit, q, r, limit);
  }

  /** One more block of raw values has one more that gives the index. */
  lemma OneMoreBlock(q: nat, limit: nat, index: nat)
    requires index < limit
    ensures var raw := q * limit + index;
            raw !in Preimage(q * limit, limit, index)
            && Preimage((q + 1) * limit, limit, index) == Preimage(q * limit, limit, index) + {raw}
  {
    NextMultiple(q, limit);
    RemainderIs(q, limit, index);
    forall n: nat | q * limit <= n < (q + 1) * limit ensures n % limit == index <==> n == q * limit + index {
      BlockHasOne(q, limit, index, n);
    }
  }

  lemma {:induction false} BlocksHaveOneEach(q: nat, limit: nat, index: nat)
    requires index < limit
    ensures |Preimage(q * limit, limit, index)| == q
  {
    hide Preimage;
    if q == 0 {
      NoValues(limit, index);
    } else {
      BlocksHaveOneEach(q - 1, limit, index);
      OneMoreBlock(q - 1, limit, index);
    }
  }

  lemma NoValues(limit: nat, index: nat)
    requires index < limit
    ensures Preimage(0 * limit, limit, index) == {}
  {}

  /** Rejection sampling is unbiased: every index is the result of equally many
      accepted raw values, and at least one. */
  lemma SamplingIsUnbiased(max: nat, limit: nat, index: nat)
    requires 1 <= limit <= max && index < limit
    ensures |Preimage(Accepted(max, limit), limit, index)| == max / limit >= 1
    ensures Accepted(max, limit) <= max
  {
    BlocksHaveOneEach(max / limit, limit, index);
  }

  /** The raw values below a bound with a remainder below m. */
  function Remainders(d: nat, m: nat, bound: nat): set<nat>
    requires d >= 1
  {
    set raw: nat | raw < bound && raw % d < m
  }

  lemma OneMoreRaw(d: nat, m: nat, n: nat)
    requires d >= 1
    ensures |Remainders(d, m, n + 1)| == |Remainders(d, m, n)| + if n % d < m then 1 else 0
  {
    assert Remainders(d, m, n + 1) == Remainders(d, m, n) + if n % d < m then {n} else {};
  }

  lemma {:induction false} RemaindersInBlock(d: nat, m: nat, q: nat, e: nat)
    requires 1 <= d && e <= d
    ensures |Remainders(d, m, q * d + e)| == |Remainders(d, m, q * d)| + if e <= m then e else m
  {
    hide Remainders;
    if e > 0 {
      RemaindersInBlock(d, m, q, e - 1);
      RemainderIs(q, d, e - 1);
      OneMoreRaw(d, m, q * d + e - 1);
    }
  }

  /** Every block has m of them. */
  lemma {:induction false} RemaindersCount(d: nat, m: nat, q: nat)
    requires m <= d && 1 <= d
    ensures |Remainders(d, m, q * d)| == q * m
  {
    if q == 0 {
      assert Remainders(d, m, 0) == {};
    } else {
      hide Remainders;
      RemaindersCount(d, m, q - 1);
      RemaindersInBlock(d, m, q - 1, d);
      NextMultiple(q - 1, d);
      NextMultiple(q - 1, m);
    }
  }

  // ---------- Shuffling ----------

  function Swapped(s: seq<int>, i: nat, j: nat): (t: seq<int>)
    requires i < |s| && j < |s|
    ensures |t| == |s| && multiset(t) == multiset(s)
  {
    s[i := s[j]][j := s[i]]
  }

  /** Each raw value chooses the card that goes to the highest place still open. */
  function Shuffled(s: seq<int>, n: nat, raw: seq<int>): (t: seq<int>)
    requires n <= |s| && n <= |raw| && IsRandom(raw)
    ensures |t| == |s| && t[n..] == s[n..]
    decreases n
  {
    if n == 0 then s
    else
      var t := Shuffled(Swapped(s, raw[0] % n, n - 1), n - 1, raw[1..]);
      assert t[n..] == t[n - 1..][1..];
      t
  }

  lemma {:induction false} ShuffledIsPermutation(s: seq<int>, n: nat, raw: seq<int>)
    requires n <= |s| && n <= |raw| && IsRandom(raw)
    ensures multiset(Shuffled(s, n, raw)) == multiset(s)
    decreases n
  {
    if n > 0 {
      ShuffledIsPermutation(Swapped(s, raw[0] % n, n - 1), n - 1, raw[1..]);
    }
  }

  lemma SwappedIsDistinct(s: seq<int>, i: nat, j: nat)
    requires Distinct(s) && i < |s| && j < |s|
    ensures Distinct(Swapped(s, i, j))
  {}

  /** A shuffled deck has the same cards, all different. */
  lemma {:induction false} ShuffledIsDistinct(s: seq<int>, n: nat, raw: seq<int>)
    requires n <= |s| && n <= |raw| && IsRandom(raw) && Distinct(s)
    ensures Distinct(Shuffled(s, n, raw))
    decreases n
  {
    hide Swapped;
    if n > 0 {
      SwappedIsDistinct(s, raw[0] % n, n - 1);
      ShuffledIsDistinct(Swapped(s, raw[0] % n, n - 1), n - 1, raw[1..]);
    }
  }

  function Sorted(): (s: seq<int>)
    ensures |s| == CARDS_PER_DECK && forall i | 0 <= i < |s| :: s[i] == i
  {
    seq(CARDS_PER_DECK, i => i)
  }

  ghost predicate IsDeck(s: seq<int>) {
    |s| == CARDS_PER_DECK && Distinct(s) && forall c :: c in s <==> IsCard(c)
  }

  lemma ShuffledIsDeck(raw: seq<int>)
    requires |raw| >= CARDS_PER_DECK && IsRandom(raw)
    ensures IsDeck(Shuffled(Sorted(), CARDS_PER_DECK, raw))
  {
    hide Shuffled;
    var s := Sorted();
    var t := Shuffled(s, CARDS_PER_DECK, raw);
    ShuffledIsDistinct(s, CARDS_PER_DECK, raw);
    ShuffledIsPermutation(s, CARDS_PER_DECK, raw);
    forall c ensures c in t <==> IsCard(c) {
      assert c in multiset(t) <==> c in multiset(s);
      assert IsCard(c) ==> s[c] == c;
    }
  }

  lemma SwappedAt(s: seq<int>, i: nat, j: nat)
    requires i < |s| && j < |s|
    ensures Swapped(s, i, j)[j] == s[i]
  {}

  lemma FirstChoice(s: seq<int>, n: nat, raw: seq<int>)
    requires 0 < n <= |s| && n <= |raw| && IsRandom(raw)
    ensures Shuffled(s, n, raw) == Shuffled(Swapped(s, raw[0] % n, n - 1), n - 1, raw[1..])
    ensures Shuffled(s, n, raw)[n - 1] == s[raw[0] % n]
  {
    hide Swapped;
    SwappedAt(s, raw[0] % n, n - 1);
    var t := Swapped(s, raw[0] % n, n - 1);
    assert Shuffled(t, n - 1, raw[1..])[n - 1..][0] == t[n - 1..][0];
  }

  /** Different choices give different decks. */
  lemma {:induction false} ChoicesAreVisible(s: seq<int>, n: nat, raw: seq<int>, raw': seq<int>, k: nat)
    requires Distinct(s) && k < n <= |s| && n <= |raw| && n <= |raw'| && IsRandom(raw) && IsRandom(raw')
    ensures Shuffled(s, n, raw) == Shuffled(s, n, raw') ==> raw[k] % (n - k) == raw'[k] % (n - k)
    decreases k
  {
    hide Shuffled, Swapped;
    FirstChoice(s, n, raw);
    FirstChoice(s, n, raw');
    if k > 0 && Shuffled(s, n, raw) == Shuffled(s, n, raw') {
      SwappedIsDistinct(s, raw[0] % n, n - 1);
      ChoicesAreVisible(Swapped(s, raw[0] % n, n - 1), n - 1, raw[1..], raw'[1..], k - 1);
    }
  }

  lemma SameBelow(s: seq<int>, goal: seq<int>, n: nat)
    requires n <= |s| == |goal| && multiset(s) == multiset(goal) && s[n..] == goal[n..]
    ensures multiset(s[..n]) == multiset(goal[..n])
  {
    assert s == s[..n] + s[n..] && goal == goal[..n] + goal[n..];
    assert multiset(s) == multiset(s[..n]) + multiset(s[n..]);
    assert multiset(goal) == multiset(goal[..n]) + multiset(goal[n..]);
    assert multiset(s[..n]) == multiset(s) - multiset(s[n..]);
    assert multiset(goal[..n]) == multiset(goal) - multiset(goal[n..]);
  }

  lemma PlaceOf(s: seq<int>, goal: seq<int>, n: nat) returns (i: nat)
    requires 0 < n <= |s| == |goal| && multiset(s) == multiset(goal) && s[n..] == goal[n..]
    ensures i < n && s[i] == goal[n - 1]
    ensures Swapped(s, i, n - 1)[n - 1..] == goal[n - 1..]
  {
    SameBelow(s, goal, n);
    assert goal[..n][n - 1] in multiset(goal[..n]);
    assert goal[n - 1] in s[..n];
    i :| i < n && s[i] == goal[n - 1];
    assert goal[n - 1..] == [goal[n - 1]] + goal[n..];
    assert Swapped(s, i, n - 1)[n - 1..] == [s[i]] + s[n..];
  }

  /** Every order of the deck is the result of some choices. */
  lemma {:induction false} EveryOrderIsReached(s: seq<int>, goal: seq<int>, n: nat) returns (raw: seq<int>)
    requires n <= |s| == |goal| && n <= RAND_MAX && multiset(s) == multiset(goal) && s[n..] == goal[n..]
    ensures |raw| == n && IsRandom(raw) && Shuffled(s, n, raw) == goal
    decreases n
  {
    hide Shuffled, Swapped;
    if n == 0 {
      raw := [];
      NothingLeft(s, raw);
      assert s[0..] == s && goal[0..] == goal;
    } else {
      var i := PlaceOf(s, goal, n);
      var t := Swapped(s, i, n - 1);
      var rest := EveryOrderIsReached(t, goal, n - 1);
      raw := [i] + rest;
      assert raw[1..] == rest;
      SmallRemainder(i, n);
      FirstChoice(s, n, raw);
      assert Shuffled(s, n, raw) == Shuffled(t, n - 1, rest);
    }
  }

  lemma NothingLeft(s: seq<int>, raw: seq<int>)
    requires IsRandom(raw)
    ensures Shuffled(s, 0, raw) == s
  {}

  lemma SmallRemainder(i: nat, n: nat)
    requires i < n
    ensures i % n == i
  {}

  // ---------- Cards in and out of use ----------

  function Cards(s: seq<int>): set<int> {
    set c | c in s
  }

  /** The cards of a deck that are not in use, in order. */
  function Unused(deck: seq<int>, used: set<int>): seq<int> {
    if deck == [] then []
    else Unused(deck[..|deck| - 1], used) + if deck[|deck| - 1] in used then [] else [deck[|deck| - 1]]
  }

  lemma {:induction false} UnusedAreDistinct(deck: seq<int>, used: set<int>)
    requires Distinct(deck)
    ensures Distinct(Unused(deck, used)) && Cards(Unused(deck, used)) == Cards(deck) - used
  {
    if deck != [] {
      var n := |deck| - 1;
      UnusedAreDistinct(deck[..n], used);
      var before := Unused(deck[..n], used);
      assert deck == deck[..n] + [deck[n]] && deck[n] !in deck[..n];
      assert Cards(deck) == Cards(deck[..n]) + {deck[n]};
      assert deck[n] !in Cards(before);
      assert Cards(before + [deck[n]]) == Cards(before) + {deck[n]};
    }
  }

  lemma DistinctCardsCount(s: seq<int>)
    requires Distinct(s)
    ensures |Cards(s)| == |s|
  {
    DistinctCount(s);
  }

  /** At least as many cards are left as the deck has more cards than are used. */
  lemma UnusedAreEnough(deck: seq<int>, used: set<int>)
    requires Distinct(deck)
    ensures |Unused(deck, used)| >= |deck| - |used|
  {
    UnusedAreDistinct(deck, used);
    DistinctCardsCount(deck);
    DistinctCardsCount(Unused(deck, used));
    assert Cards(deck) <= Cards(Unused(deck, used)) + used;
    SubsetIsNoLarger(Cards(deck), Cards(Unused(deck, used)) + used);
    UnionIsNoLarger(Cards(Unused(deck, used)), used);
  }

  /** Hands and common cards that are dealt while some cards are known: all of
      them different, and all of them new. */
  ghost predicate FairDeal(known: set<int>, hands: seq<int>, common: set<int>) {
    && Distinct(hands)
    && (forall c | c in hands :: IsCard(c) && c !in known && c !in common)
    && (forall c | c in common :: IsCard(c) && c !in known)
  }

  lemma {:induction false} UnusedOfPrefix(deck: seq<int>, used: set<int>, x: nat)
    requires x <= |deck|
    ensures |Unused(deck[..x], used)| <= |Unused(deck, used)|
    ensures Unused(deck, used)[..|Unused(deck[..x], used)|] == Unused(deck[..x], used)
  {
    if x < |deck| {
      var n := |deck| - 1;
      UnusedOfPrefix(deck[..n], used, x);
      assert deck[..n][..x] == deck[..x];
    } else {
      assert deck[..x] == deck;
    }
  }

  lemma NextUnused(deck: seq<int>, used: set<int>, x: nat)
    requires x < |deck|
    ensures Unused(deck[..x + 1], used) == Unused(deck[..x], used) + if deck[x] in used then [] else [deck[x]]
  {
    assert deck[..x + 1][..x] == deck[..x];
  }

  /** The first unused cards of the deck: the hands, and the common cards after
      them. */
  ghost predicate DealtFromFront(deck: seq<int>, known: set<int>, hands: seq<int>, common: set<int>, m: nat) {
    var cards := Unused(deck, known);
    |hands| <= m <= |cards| && hands == cards[..|hands|] && common == Cards(cards[|hands|..m])
  }

  /** A deal from the front of a deck is fair. */
  lemma FrontOfDeckIsFair(deck: seq<int>, known: set<int>, hands: seq<int>, common: set<int>, m: nat)
    requires IsDeck(deck) && DealtFromFront(deck, known, hands, common, m)
    ensures FairDeal(known, hands, common) && |common| == m - |hands|
  {
    var cards := Unused(deck, known);
    UnusedAreDistinct(deck, known);
    DistinctCardsCount(cards[|hands|..m]);
    forall c | c in cards ensures IsCard(c) && c !in known {
      assert c in Cards(cards);
    }
  }

  // ---------- The dealers ----------

  /** A raw value that GetRandomCard() takes. */
  predicate IsGood(raw: int, used: set<int>)
    requires 0 <= raw
  {
    raw % 0x40 < CARDS_PER_DECK && raw % 0x40 !in used
  }

  ghost predicate NoneGood(raw: seq<int>, used: set<int>)
    requires IsRandom(raw)
  {
    forall i | 0 <= i < |raw| :: !IsGood(raw[i], used)
  }

  /** The first good value is the card, and those after it remain. */
  ghost predicate FirstGood(raw: seq<int>, rest: seq<int>, used: set<int>, card: int)
    requires IsRandom(raw) && |rest| < |raw|
  {
    var k := |raw| - |rest| - 1;
    rest == raw[k + 1..] && raw[k] % 0x40 == card && NoneGood(raw[..k], used)
  }

  /** The search for a random card can only end, but then with some value, as long
      as not the whole deck is in use. */
  lemma SearchCanEnd(used: set<int>)
    ensures (exists raw | 0 <= raw <= RAND_MAX :: IsGood(raw, used)) <==> (exists c | IsCard(c) :: c !in used)
  {
    forall c | IsCard(c) && c !in used ensures IsGood(c, used) {
      SmallRemainder(c, 0x40);
    }
    forall raw | 0 <= raw <= RAND_MAX && IsGood(raw, used) ensures IsCard(raw % 0x40) && raw % 0x40 !in used {
    }
  }

  /** The raw values below a bound that draw a card. */
  function Draws(card: int, used: set<int>, bound: nat): set<nat> {
    set raw: nat | raw < bound && IsGood(raw, used) && raw % 0x40 == card
  }

  lemma DrawsAre(card: int, used: set<int>, bound: nat)
    requires IsCard(card) && card !in used
    ensures Draws(card, used, bound) == Remainders(0x40, card + 1, bound) - Remainders(0x40, card, bound)
    ensures |Draws(card, used, bound)| == |Remainders(0x40, card + 1, bound)| - |Remainders(0x40, card, bound)|
  {
    assert Remainders(0x40, card, bound) <= Remainders(0x40, card + 1, bound);
  }

  /** A random card is drawn without bias: in every block of 64 raw values each free card
      has one, and a used one none. */
  lemma CardsAreDrawnEvenly(card: int, used: set<int>, q: nat)
    requires IsCard(card)
    ensures |Draws(card, used, q * 0x40)| == if card in used then 0 else q
  {
    if card in used {
      assert Draws(card, used, q * 0x40) == {};
    } else {
      hide *;
      DrawsAre(card, used, q * 0x40);
      RemaindersCount(0x40, card, q);
      RemaindersCount(0x40, card + 1, q);
      Distributes(q, card + 1, card);
    }
  }

  /** A deal under way: every card so far is new, and in use from now on. */
  ghost predicate UnderWay(known: set<int>, hands: seq<int>, used: set<int>) {
    Distinct(hands) && (forall c | c in hands :: IsCard(c) && c !in known) && used == known + Cards(hands)
  }

  lemma NobodyYet(known: set<int>)
    ensures UnderWay(known, [], known)
  {}

  /** New community cards, which are in use now. */
  ghost predicate CommonDealt(known: set<int>, common: set<int>, used: set<int>, n: nat) {
    |common| == n && common !! known && used == known + common && forall c | c in common :: IsCard(c)
  }

  /** The parameters of the weighting, and the rank tables. */
  datatype Weighting =
    Weighting(willplay: int, wontplay: int, topclip: int, mustplay: int, suited: seq<int>, offsuited: seq<int>)
  {
    predicate Valid() { |suited| == |offsuited| == RANK_TABLE_SIZE }

    function Rank(card1: int, card2: int): int
      requires Valid() && IsCard(card1) && IsCard(card2)
    {
      RankOf(suited, offsuited, card1, card2)
    }
  }

  /** Whether a hand of this rank is decided by a raw value. */
  predicate IsSloped(w: Weighting, rank: int) {
    w.mustplay < rank < w.wontplay && (rank <= w.topclip || (rank > w.willplay && w.wontplay - w.willplay >= 3))
  }

  /** Whether a hand of this rank is played; raw only matters on the slopes. */
  predicate InRange(w: Weighting, rank: int, raw: int) {
    && rank < w.wontplay
    && (IsSloped(w, rank) ==>
          if rank <= w.topclip then rank > w.topclip * (1 - raw)
          else rank < w.willplay + raw % (w.wontplay - w.willplay))
  }

  /** The slope of the best hands is no slope: below the top clip a hand that is not
      always played is rejected by the raw value zero alone. */
  lemma TopClipRejectsOnlyZero(w: Weighting, rank: int, raw: nat)
    requires 1 <= rank <= w.topclip && w.mustplay < rank < w.wontplay
    ensures InRange(w, rank, raw) <==> raw != 0
  {
    if raw != 0 {
      NotPositive(w.topclip, 1 - raw);
    }
  }

  lemma NotPositive(a: int, b: int)
    requires a >= 0 && b <= 0
    ensures a * b <= 0
  {}

  /** The raw values below a bound that let a hand of this rank through. */
  function LetThrough(w: Weighting, rank: int, bound: nat): set<nat> {
    set raw: nat | raw < bound && InRange(w, rank, raw)
  }

  predicate IsPoor(w: Weighting, rank: int) {
    w.mustplay < rank < w.wontplay && rank > w.topclip && rank > w.willplay && w.wontplay - w.willplay >= 3
  }

  /** On the slope of the poor hands each further rank lets one raw value less of
      every wontplay - willplay through, down to none at the last rank. */
  lemma PoorHandsAreOnASlope(w: Weighting, rank: int, q: nat)
    requires IsPoor(w, rank)
    ensures |LetThrough(w, rank, q * (w.wontplay - w.willplay))| == q * (w.wontplay - rank - 1)
  {
    var d, m := w.wontplay - w.willplay, rank - w.willplay + 1;
    RemaindersCount(d, d, q);
    RemaindersCount(d, m, q);
    assert LetThrough(w, rank, q * d) == Remainders(d, d, q * d) - Remainders(d, m, q * d);
    assert Remainders(d, m, q * d) <= Remainders(d, d, q * d);
    Distributes(q, d, m);
  }

  /** In these regions of the graph a hand is played for sure. */
  predicate IsSure(w: Weighting, rank: int) {
    && rank < w.wontplay
    && (rank <= w.mustplay || w.topclip < rank <= w.willplay
        || (rank > w.topclip && rank > w.willplay && w.wontplay - w.willplay < 3))
  }

  /** No raw value rejects a hand exactly if it is always played, or in the region
      between top clip and willplay, or behind willplay with no room for a slope. */
  lemma SureExactlyWhen(w: Weighting, rank: int)
    ensures (forall raw: nat :: InRange(w, rank, raw)) <==> IsSure(w, rank)
  {
    assert InRange(w, rank, 0) ==> IsSure(w, rank);
  }

  /** Every raw value rejects a hand exactly if its rank is never played, or the last
      one of the slope. */
  lemma HopelessExactlyWhen(w: Weighting, rank: int)
    requires rank >= 1
    ensures (forall raw: nat :: !InRange(w, rank, raw)) <==>
              rank >= w.wontplay || (IsPoor(w, rank) && rank == w.wontplay - 1)
  {
    if rank < w.wontplay {
      if rank <= w.topclip {
        assert InRange(w, rank, 1);
      } else if IsPoor(w, rank) && rank < w.wontplay - 1 {
        var d := w.wontplay - w.willplay;
        assert (d - 1) % d == d - 1;
        assert InRange(w, rank, d - 1);
      } else if !IsPoor(w, rank) {
        assert InRange(w, rank, 0);
      }
    }
  }

  lemma Distributes(q: nat, d: nat, m: nat)
    requires m <= d
    ensures q * d - q * m == q * (d - m)
  {}

  /** No weighted hand ranks as low as the hands that are never played. */
  ghost predicate Playable(w: Weighting, hands: seq<int>, bigBlindFree: bool)
    requires w.Valid()
  {
    w.willplay != 0 ==>
      forall i | 0 <= i && 2 * i + 1 < |hands| && !(i == 0 && bigBlindFree) ::
        IsCard(hands[2 * i]) && IsCard(hands[2 * i + 1]) && w.Rank(hands[2 * i], hands[2 * i + 1]) < w.wontplay
  }

  predicate AreChairs(opponents: seq<int>) {
    forall m | 0 <= m < |opponents| :: 0 <= opponents[m] < MAX_PLAYERS
  }

  /** The chairs to deal to, up to chair n. */
  function Opponents(userchair: int, playing: set<int>, n: nat): (chairs: seq<int>)
    ensures |chairs| <= n
    ensures forall m | 0 <= m < |chairs| :: 0 <= chairs[m] < n && chairs[m] in playing && chairs[m] != userchair
    ensures n <= MAX_PLAYERS ==> AreChairs(chairs)
  {
    if n == 0 then []
    else Opponents(userchair, playing, n - 1) + if n - 1 == userchair || n - 1 !in playing then [] else [n - 1]
  }

  /** A hand that may be dealt to a chair. */
  ghost predicate Allowed(chair: Chair, a: int, b: int)
    requires chair.Valid()
  {
    exists j: nat | j < chair.limit :: chair.rankhi[j] == a && chair.ranklo[j] == b && chair.weight[j] > 0
  }

  predicate AllValid(chairs: seq<Chair>) {
    |chairs| == MAX_PLAYERS && forall i | 0 <= i < MAX_PLAYERS :: chairs[i].Valid()
  }

  /** Each opponent has a hand that his chair allows, unless he is not weighted. */
  ghost predicate AllAllowed(chairs: seq<Chair>, free: set<int>, opponents: seq<int>, hands: seq<int>)
    requires AllValid(chairs)
    requires AreChairs(opponents) && |hands| == 2 * |opponents|
  {
    forall m | 0 <= m < |opponents| && !chairs[opponents[m]].ignore && opponents[m] !in free ::
      Allowed(chairs[opponents[m]], hands[2 * m], hands[2 * m + 1])
  }

  /** A hand of two new cards. */
  predicate NewHand(used: set<int>, a: int, b: int) {
    IsCard(a) && IsCard(b) && a != b && a !in used && b !in used
  }

  // ---------- What the raw values deal ----------

  /** What is dealt and the values after it, or nothing if there are too few. */
  datatype Deal<T> = Out | Dealt(value: T, rest: seq<int>)

  /** The card of the first good value. */
  function DrawnCard(used: set<int>, raw: seq<int>): (r: Deal<int>)
    requires IsRandom(raw)
    ensures r.Dealt? ==> |r.rest| < |raw| && IsRandom(r.rest) && IsCard(r.value) && r.value !in used
  {
    if raw == [] then Out
    else if IsGood(raw[0], used) then Dealt(raw[0] % 0x40, raw[1..])
    else DrawnCard(used, raw[1..])
  }

  /** Two cards, one after the other. */
  function DrawnHand(used: set<int>, raw: seq<int>): (r: Deal<(int, int)>)
    requires IsRandom(raw)
    ensures r.Dealt? ==>
              |r.rest| < |raw| && IsRandom(r.rest) && NewHand(used, r.value.0, r.value.1)
  {
    match DrawnCard(used, raw)
    case Out => Out
    case Dealt(a, rest) =>
      match DrawnCard(used + {a}, rest)
      case Out => Out
      case Dealt(b, rest') => Dealt((a, b), rest')
  }

  /** Whether a hand is in range, which may cost a value. */
  function DrawnRange(w: Weighting, rank: int, raw: seq<int>): Deal<bool> {
    if !IsSloped(w, rank) then Dealt(InRange(w, rank, 0), raw)
    else if raw == [] then Out
    else Dealt(InRange(w, rank, raw[0]), raw[1..])
  }

  /** The first hand drawn that is in range. */
  function WeightedHand(w: Weighting, free: bool, used: set<int>, raw: seq<int>): (r: Deal<(int, int)>)
    requires IsRandom(raw) && w.Valid()
    ensures r.Dealt? ==> IsRandom(r.rest)
    decreases |raw|
  {
    match DrawnHand(used, raw)
    case Out => Out
    case Dealt(h, rest) =>
      if w.willplay == 0 || free then Dealt(h, rest)
      else
        match DrawnRange(w, w.Rank(h.0, h.1), rest)
        case Out => Out
        case Dealt(inRange, rest') => if inRange then Dealt(h, rest') else WeightedHand(w, free, used, rest')
  }

  /** The next hand drawn is dealt at once, without a value spent on it, if it is sure or
      no hand is weighted; it is passed over at once if its rank is never played; and
      otherwise one value decides. */
  lemma WeightedHandIs(w: Weighting, free: bool, used: set<int>, raw: seq<int>)
    requires IsRandom(raw) && w.Valid() && DrawnHand(used, raw).Dealt?
    ensures var h, rest := DrawnHand(used, raw).value, DrawnHand(used, raw).rest;
            var rank := w.Rank(h.0, h.1);
            WeightedHand(w, free, used, raw) ==
              if w.willplay == 0 || free || IsSure(w, rank) then Dealt(h, rest)
              else if rank >= w.wontplay then WeightedHand(w, free, used, rest)
              else if rest == [] then Out
              else if InRange(w, rank, rest[0]) then Dealt(h, rest[1..])
              else WeightedHand(w, free, used, rest[1..])
  {
    hide DrawnHand, RankOf;
    var h := DrawnHand(used, raw).value;
    if !(w.willplay == 0 || free) {
      var rank := w.Rank(h.0, h.1);
      assert IsSloped(w, rank) <==> !IsSure(w, rank) && rank < w.wontplay;
    }
  }

  /** The hands from the i-th one to the n-th one. */
  function StandardHands(w: Weighting, bigBlindFree: bool, used: set<int>, i: nat, n: nat, raw: seq<int>)
    : (r: Deal<seq<int>>)
    requires IsRandom(raw) && w.Valid() && i <= n
    ensures r.Dealt? ==> IsRandom(r.rest)
    decreases n - i
  {
    if i == n then Dealt([], raw)
    else
      match WeightedHand(w, bigBlindFree && i == 0, used, raw)
      case Out => Out
      case Dealt(h, rest) =>
        Behind([h.0, h.1], StandardHands(w, bigBlindFree, used + {h.0, h.1}, i + 1, n, rest))
  }

  /** These cards before those of a deal. */
  function Behind(hands: seq<int>, deal: Deal<seq<int>>): Deal<seq<int>> {
    match deal
    case Out => Out
    case Dealt(more, rest) => Dealt(hands + more, rest)
  }

  lemma BehindNothing(a: seq<int>)
    ensures Behind(a, Out) == Out
  {}

  lemma BehindAll(a: seq<int>, rest: seq<int>)
    ensures Behind(a, Dealt([], rest)) == Dealt(a, rest)
  {
    assert a + [] == a;
  }

  lemma BehindBoth(a: seq<int>, b: seq<int>, deal: Deal<seq<int>>)
    ensures Behind(a, Behind(b, deal)) == Behind(a + b, deal) && Behind([], deal) == deal
  {
    if deal.Dealt? {
      assert a + (b + deal.value) == (a + b) + deal.value;
      assert [] + deal.value == deal.value;
    }
  }

  /** The board that is missing, card by card. */
  function CommonCards(used: set<int>, n: nat, raw: seq<int>): Deal<set<int>>
    requires IsRandom(raw)
    decreases n
  {
    if n == 0 then Dealt({}, raw)
    else
      match DrawnCard(used, raw)
      case Out => Out
      case Dealt(card, rest) => Among({card}, CommonCards(used + {card}, n - 1, rest))
  }

  function Among(cards: set<int>, deal: Deal<set<int>>): Deal<set<int>> {
    match deal
    case Out => Out
    case Dealt(more, rest) => Dealt(cards + more, rest)
  }

  lemma AmongNothing(a: set<int>)
    ensures Among(a, Out) == Out
  {}

  lemma AmongAll(a: set<int>, rest: seq<int>)
    ensures Among(a, Dealt({}, rest)) == Dealt(a, rest)
  {
    assert a + {} == a;
  }

  lemma AmongBoth(a: set<int>, b: set<int>, deal: Deal<set<int>>)
    ensures Among(a, Among(b, deal)) == Among(a + b, deal) && Among({}, deal) == deal
  {
    if deal.Dealt? {
      assert a + (b + deal.value) == (a + b) + deal.value;
      assert {} + deal.value == deal.value;
    }
  }

  lemma NextCommon(used: set<int>, n: nat, raw: seq<int>)
    requires IsRandom(raw) && n > 0
    ensures var first := DrawnCard(used, raw);
            CommonCards(used, n, raw) ==
              if first.Out? then Out
              else Among({first.value}, CommonCards(used + {first.value}, n - 1, first.rest))
  {
    hide DrawnCard, Among;
  }

  lemma NoMoreCommon(used: set<int>, raw: seq<int>)
    requires IsRandom(raw)
    ensures CommonCards(used, 0, raw) == Dealt({}, raw)
  {}

  /** The common cards are new and different. */
  lemma {:induction false} CommonCardsAreNew(used: set<int>, n: nat, raw: seq<int>)
    requires IsRandom(raw)
    ensures var deal := CommonCards(used, n, raw);
            deal.Dealt? ==> CommonDealt(used, deal.value, used + deal.value, n)
    decreases n
  {
    hide DrawnCard, CommonCards;
    if n == 0 {
      NoMoreCommon(used, raw);
    } else {
      NextCommon(used, n, raw);
      var first := DrawnCard(used, raw);
      if first.Dealt? {
        CommonCardsAreNew(used + {first.value}, n - 1, first.rest);
      }
    }
  }

  /** The common cards after the hands. */
  function WithCommon(used: set<int>, n: nat, hands: Deal<seq<int>>)
    : Deal<(seq<int>, set<int>)>
    requires hands.Dealt? ==> IsRandom(hands.rest)
  {
    match hands
    case Out => Out
    case Dealt(cards, rest) =>
      match CommonCards(used + Cards(cards), n, rest)
      case Out => Out
      case Dealt(common, rest') => Dealt((cards, common), rest')
  }

  /** A random hand for a chair that is not weighted, or one of its table. */
  function ChairHand(chair: Chair, free: bool, used: set<int>, raw: seq<int>): (r: Deal<(int, int)>)
    requires IsRandom(raw) && chair.Valid()
    ensures r.Dealt? ==> IsRandom(r.rest)
  {
    if chair.ignore || free then DrawnHand(used, raw)
    else
      match Chosen(chair, used, raw)
      case Out => Out
      case Dealt(j, rest) => Dealt((chair.rankhi[j], chair.ranklo[j]), rest)
  }

  /** The hands of the opponents, one after the other. */
  function EnhancedHands(chairs: seq<Chair>, free: set<int>, opponents: seq<int>, used: set<int>, raw: seq<int>)
    : (r: Deal<seq<int>>)
    requires IsRandom(raw) && AllValid(chairs) && AreChairs(opponents)
    ensures r.Dealt? ==> IsRandom(r.rest)
    decreases |opponents|
  {
    if opponents == [] then Dealt([], raw)
    else
      match ChairHand(chairs[opponents[0]], opponents[0] in free, used, raw)
      case Out => Out
      case Dealt(h, rest) =>
        Behind([h.0, h.1], EnhancedHands(chairs, free, opponents[1..], used + {h.0, h.1}, rest))
  }

  lemma UnweightedHand(w: Weighting, free: bool, used: set<int>, raw: seq<int>)
    requires IsRandom(raw) && w.Valid() && (w.willplay == 0 || free)
    ensures WeightedHand(w, free, used, raw) == DrawnHand(used, raw)
  {
  }

  /** The i-th hand of the standard dealer and those behind it. */
  lemma NextStandardHand(w: Weighting, bigBlindFree: bool, used: set<int>, i: nat, n: nat, raw: seq<int>)
    requires IsRandom(raw) && w.Valid() && i < n
    ensures var first := WeightedHand(w, bigBlindFree && i == 0, used, raw);
            StandardHands(w, bigBlindFree, used, i, n, raw) ==
              if first.Out? then Out
              else Behind([first.value.0, first.value.1],
                          StandardHands(w, bigBlindFree, used + {first.value.0, first.value.1}, i + 1, n, first.rest))
  {
    hide WeightedHand, Behind;
  }

  lemma NextEnhancedHand(chairs: seq<Chair>, free: set<int>, opponents: seq<int>, used: set<int>, raw: seq<int>)
    requires IsRandom(raw) && AllValid(chairs) && AreChairs(opponents) && opponents != []
    ensures var first := ChairHand(chairs[opponents[0]], opponents[0] in free, used, raw);
            EnhancedHands(chairs, free, opponents, used, raw) ==
              if first.Out? then Out
              else
                var h, others := first.value, opponents[1..];
                Behind([h.0, h.1], EnhancedHands(chairs, free, others, used + {h.0, h.1}, first.rest))
  {
    hide ChairHand, Behind;
  }

  lemma FreeChair(chair: Chair, free: bool, used: set<int>, raw: seq<int>)
    requires IsRandom(raw) && chair.Valid() && (chair.ignore || free)
    ensures ChairHand(chair, free, used, raw) == DrawnHand(used, raw)
  {
  }

  /** To opponents that are ignored or free the enhanced dealer deals what the standard
      dealer does without weighting. */
  lemma {:induction false} UnweightedDealersAgree(
      chairs: seq<Chair>, free: set<int>, opponents: seq<int>, w: Weighting, bigBlindFree: bool, used: set<int>,
      i: nat, raw: seq<int>)
    requires IsRandom(raw) && AllValid(chairs) && AreChairs(opponents) && w.Valid() && w.willplay == 0
    requires forall m | 0 <= m < |opponents| :: chairs[opponents[m]].ignore || opponents[m] in free
    ensures EnhancedHands(chairs, free, opponents, used, raw)
            == StandardHands(w, bigBlindFree, used, i, i + |opponents|, raw)
    decreases |opponents|
  {
    hide ChairHand, WeightedHand, DrawnHand, Behind, EnhancedHands, StandardHands;
    if opponents == [] {
      NobodyIsDealt(chairs, free, w, bigBlindFree, used, i, raw);
    } else {
      NextEnhancedHand(chairs, free, opponents, used, raw);
      NextStandardHand(w, bigBlindFree, used, i, i + |opponents|, raw);
      FreeChair(chairs[opponents[0]], opponents[0] in free, used, raw);
      UnweightedHand(w, bigBlindFree && i == 0, used, raw);
      var first := DrawnHand(used, raw);
      if first.Dealt? {
        DrawnRest(used, raw);
        UnweightedDealersAgree(chairs, free, opponents[1..], w, bigBlindFree, used + {first.value.0, first.value.1},
                               i + 1, first.rest);
      }
    }
  }

  lemma DrawnRest(used: set<int>, raw: seq<int>)
    requires IsRandom(raw)
    ensures DrawnHand(used, raw).Dealt? ==> IsRandom(DrawnHand(used, raw).rest)
  {
  }

  lemma NobodyIsDealt(chairs: seq<Chair>, free: set<int>, w: Weighting, bigBlindFree: bool, used: set<int>, i: nat,
                      raw: seq<int>)
    requires IsRandom(raw) && AllValid(chairs) && w.Valid()
    ensures EnhancedHands(chairs, free, [], used, raw) == Dealt([], raw)
    ensures StandardHands(w, bigBlindFree, used, i, i, raw) == Dealt([], raw)
  {
  }

  /** A big blind that may play anything has the next two cards, as without weighting, and
      the hands behind his are weighted as ever. */
  lemma BigBlindPlaysAnything(w: Weighting, used: set<int>, n: nat, raw: seq<int>)
    requires IsRandom(raw) && w.Valid() && n > 0
    ensures var first := DrawnHand(used, raw);
            StandardHands(w, true, used, 0, n, raw) ==
              if first.Out? then Out
              else Behind([first.value.0, first.value.1],
                          StandardHands(w, false, used + {first.value.0, first.value.1}, 1, n, first.rest))
  {
    hide WeightedHand, DrawnHand, Behind, StandardHands;
    NextStandardHand(w, true, used, 0, n, raw);
    UnweightedHand(w, true, used, raw);
    var first := DrawnHand(used, raw);
    if first.Dealt? {
      DrawnRest(used, raw);
      FreeOnlyOnce(w, used + {first.value.0, first.value.1}, 1, n, first.rest);
    }
  }

  lemma {:induction false} FreeOnlyOnce(w: Weighting, used: set<int>, i: nat, n: nat, raw: seq<int>)
    requires IsRandom(raw) && w.Valid() && 0 < i <= n
    ensures StandardHands(w, true, used, i, n, raw) == StandardHands(w, false, used, i, n, raw)
    decreases n - i
  {
    hide WeightedHand, Behind;
    if i < n {
      var first := WeightedHand(w, false, used, raw);
      if first.Dealt? {
        FreeOnlyOnce(w, used + {first.value.0, first.value.1}, i + 1, n, first.rest);
      }
    }
  }

  // ---------- The choice of a weighted hand ----------

  /** The raw values from the first one below the bound on. */
  function Skipped(raw: seq<int>, bound: int): (rest: seq<int>)
    ensures |rest| <= |raw| && (rest != [] ==> rest[0] < bound)
  {
    if raw == [] || raw[0] < bound then raw else Skipped(raw[1..], bound)
  }

  predicate IsLive(chair: Chair, used: set<int>, j: nat)
    requires chair.Valid() && j < chair.limit
  {
    chair.rankhi[j] !in used && chair.ranklo[j] !in used
  }

  /** The hand that the raw values choose for a chair, and the values after it. A
      hand with a dead card costs one value, a rejected hand two. */
  function Chosen(chair: Chair, used: set<int>, raw: seq<int>): (r: Deal<nat>)
    requires chair.Valid() && IsRandom(raw)
    ensures r.Dealt? ==> r.value < chair.limit && IsRandom(r.rest)
    decreases |raw|
  {
    if raw == [] then Out
    else
      var j := raw[0] % chair.limit;
      if raw[0] >= Accepted(RAND_MAX, chair.limit) || !IsLive(chair, used, j) then Chosen(chair, used, raw[1..])
      else if chair.level <= chair.weight[j] then Dealt(j, raw[1..])
      else if |raw| == 1 then Out
      else if raw[1] % chair.level < chair.weight[j] then Dealt(j, raw[2..])
      else Chosen(chair, used, raw[2..])
  }

  lemma {:induction false} ChoiceWaits(chair: Chair, used: set<int>, raw: seq<int>, rest: seq<int>)
    requires chair.Valid() && IsRandom(raw) && rest == Skipped(raw, Accepted(RAND_MAX, chair.limit))
    ensures IsRandom(rest) && Chosen(chair, used, raw) == Chosen(chair, used, rest)
  {
    if raw != [] && raw[0] >= Accepted(RAND_MAX, chair.limit) {
      ChoiceWaits(chair, used, raw[1..], rest);
    }
  }

  /** What the first value chooses, once it is accepted. */
  lemma ChoiceOf(chair: Chair, used: set<int>, raw: seq<int>)
    requires chair.Valid() && IsRandom(raw) && raw != [] && raw[0] < Accepted(RAND_MAX, chair.limit)
    ensures var j := raw[0] % chair.limit;
            Chosen(chair, used, raw) ==
              if !IsLive(chair, used, j) then Chosen(chair, used, raw[1..])
              else if chair.level <= chair.weight[j] then Dealt(j, raw[1..])
              else if |raw| == 1 then Out
              else if raw[1] % chair.level < chair.weight[j] then Dealt(j, raw[2..])
              else Chosen(chair, used, raw[2..])
  {}

  /** The search for a hand can only end, but then with some values, as long as
      some hand within the limit has a weight and no dead card. */
  lemma HandCanBeFound(chair: Chair, used: set<int>)
    requires chair.Valid()
    ensures (exists raw | IsRandom(raw) :: Chosen(chair, used, raw).Dealt?) <==>
              exists j: nat | j < chair.limit :: IsLive(chair, used, j) && chair.weight[j] > 0
  {
    hide IsLive;
    forall j: nat | j < chair.limit && IsLive(chair, used, j) && chair.weight[j] > 0
      ensures IsRandom([j, 0]) && Chosen(chair, used, [j, 0]).Dealt?
    {
      FirstIndexIsAccepted(chair.limit, j);
      SmallRemainder(j, chair.limit);
      SmallRemainder(0, chair.level);
    }
    forall raw | IsRandom(raw) && Chosen(chair, used, raw).Dealt?
      ensures exists j: nat | j < chair.limit :: IsLive(chair, used, j) && chair.weight[j] > 0
    {
      ChosenIsLive(chair, used, raw);
    }
  }

  lemma FirstIndexIsAccepted(limit: nat, j: nat)
    requires 1 <= limit <= HANDS && j < limit
    ensures j < Accepted(RAND_MAX, limit) <= RAND_MAX
  {
    NextMultiple(RAND_MAX / limit - 1, limit);
  }

  lemma {:induction false} ChosenIsLive(chair: Chair, used: set<int>, raw: seq<int>)
    requires chair.Valid() && IsRandom(raw) && Chosen(chair, used, raw).Dealt?
    ensures var j := Chosen(chair, used, raw).value; j < chair.limit && IsLive(chair, used, j) && chair.weight[j] > 0
    decreases |raw|
  {
    hide IsLive;
    var j := raw[0] % chair.limit;
    if raw[0] >= Accepted(RAND_MAX, chair.limit) || !IsLive(chair, used, j) {
      ChosenIsLive(chair, used, raw[1..]);
    } else if chair.level > chair.weight[j] && raw[1] % chair.level >= chair.weight[j] {
      ChosenIsLive(chair, used, raw[2..]);
    }
  }

  /** At the vanilla table the search can end as long as some hand within the limit
      has no dead card. */
  lemma VanillaSearchCanEnd(chair: Chair, order: seq<Kind>, used: set<int>)
    requires IsOrder(order) && IsVanilla(chair, order) && chair.Valid()
    ensures (exists raw | IsRandom(raw) :: Chosen(chair, used, raw).Dealt?) <==>
              exists j: nat | j < VANILLA_LIMIT :: IsLive(chair, used, j)
  {
    hide IsLive, Chosen, Listed, IsOrder, VanillaWeight;
    HandCanBeFound(chair, used);
    forall j: nat | j < VANILLA_LIMIT ensures chair.weight[j] > 0 {
      VanillaWeightsFall(j, VANILLA_LIMIT);
    }
  }

  /** The raw values that choose a hand at once. */
  function ChoosesAtOnce(chair: Chair, used: set<int>, j: nat): set<nat>
    requires chair.Valid()
  {
    set raw: nat | raw <= RAND_MAX && Chosen(chair, used, [raw]) == Dealt(j, [])
  }

  /** The pairs of raw values that choose a hand and let it pass. */
  function ChoosesAndPasses(chair: Chair, used: set<int>, j: nat): set<(nat, nat)>
    requires chair.Valid()
  {
    set raw: nat, luck: nat
      | raw <= RAND_MAX && luck <= RAND_MAX && Chosen(chair, used, [raw, luck]) == Dealt(j, [])
      :: (raw, luck)
  }

  function Product(a: set<nat>, b: set<nat>): set<(nat, nat)> {
    set x, y | x in a && y in b :: (x, y)
  }

  function With(x: nat, b: set<nat>): set<(nat, nat)> {
    set y | y in b :: (x, y)
  }

  lemma {:induction false} WithCount(x: nat, b: set<nat>)
    ensures |With(x, b)| == |b|
  {
    if b == {} {
      assert With(x, b) == {};
    } else {
      var y :| y in b;
      WithCount(x, b - {y});
      assert With(x, b) == With(x, b - {y}) + {(x, y)};
    }
  }

  lemma {:induction false} ProductCount(a: set<nat>, b: set<nat>)
    ensures |Product(a, b)| == |a| * |b|
  {
    if a == {} {
      assert Product(a, b) == {};
    } else {
      var x :| x in a;
      ProductCount(a - {x}, b);
      WithCount(x, b);
      assert Product(a, b) == Product(a - {x}, b) + With(x, b);
      assert Product(a - {x}, b) !! With(x, b);
      NextMultiple(|a| - 1, |b|);
    }
  }

  /** Every hand that is always dealt is chosen at once by equally many values. */
  lemma ChoiceIsEven(chair: Chair, used: set<int>, j: nat)
    requires chair.Valid() && j < chair.limit && IsLive(chair, used, j) && chair.level <= chair.weight[j]
    ensures |ChoosesAtOnce(chair, used, j)| == RAND_MAX / chair.limit
  {
    hide IsLive, Accepted;
    SamplingIsUnbiased(RAND_MAX, chair.limit, j);
    hide Chosen;
    var chosen := Preimage(Accepted(RAND_MAX, chair.limit), chair.limit, j);
    forall raw: nat | raw <= RAND_MAX ensures Chosen(chair, used, [raw]) == Dealt(j, []) <==> raw in chosen {
      OneChooses(chair, used, j, raw);
    }
    assert ChoosesAtOnce(chair, used, j) == chosen;
  }

  /** Every other hand is chosen and let pass by pairs of values in proportion to
      its weight, if the level divides the number of raw values. */
  lemma ChoiceIsWeighted(chair: Chair, used: set<int>, j: nat)
    requires chair.Valid() && j < chair.limit && IsLive(chair, used, j) && 0 <= chair.weight[j] < chair.level
    requires (RAND_MAX + 1) % chair.level == 0
    ensures |ChoosesAndPasses(chair, used, j)| ==
              (RAND_MAX / chair.limit) * ((RAND_MAX + 1) / chair.level * chair.weight[j])
  {
    hide IsLive, Accepted, Chosen, Product;
    var chosen := Preimage(Accepted(RAND_MAX, chair.limit), chair.limit, j);
    var passes := Remainders(chair.level, chair.weight[j], RAND_MAX + 1);
    SamplingIsUnbiased(RAND_MAX, chair.limit, j);
    PassesCount(chair.level, chair.weight[j]);
    forall raw: nat, luck: nat | raw <= RAND_MAX && luck <= RAND_MAX
      ensures Chosen(chair, used, [raw, luck]) == Dealt(j, []) <==> raw in chosen && luck in passes
    {
      PairChooses(chair, used, j, raw, luck);
    }
    ChoosesAndPassesIs(chair, used, j, chosen, passes);
    ProductCount(chosen, passes);
  }

  lemma ChoosesAndPassesIs(chair: Chair, used: set<int>, j: nat, chosen: set<nat>, passes: set<nat>)
    requires chair.Valid() && forall raw | raw in chosen + passes :: raw <= RAND_MAX
    requires forall raw: nat, luck: nat | raw <= RAND_MAX && luck <= RAND_MAX ::
               Chosen(chair, used, [raw, luck]) == Dealt(j, []) <==> raw in chosen && luck in passes
    ensures ChoosesAndPasses(chair, used, j) == Product(chosen, passes)
  {
    hide Chosen;
  }

  lemma PassesCount(level: nat, weight: nat)
    requires weight < level && (RAND_MAX + 1) % level == 0
    ensures |Remainders(level, weight, RAND_MAX + 1)| == (RAND_MAX + 1) / level * weight
  {
    hide Remainders;
    var q := (RAND_MAX + 1) / level;
    assert q * level == RAND_MAX + 1;
    RemaindersCount(level, weight, q);
  }

  lemma OneChooses(chair: Chair, used: set<int>, j: nat, raw: nat)
    requires chair.Valid() && j < chair.limit && IsLive(chair, used, j) && raw <= RAND_MAX
    ensures Chosen(chair, used, [raw]) == Dealt(j, []) <==>
              raw < Accepted(RAND_MAX, chair.limit) && raw % chair.limit == j && chair.level <= chair.weight[j]
  {
    hide IsLive, Accepted;
    assert [raw][1..] == [];
  }

  lemma PairChooses(chair: Chair, used: set<int>, j: nat, raw: nat, luck: nat)
    requires chair.Valid() && j < chair.limit && IsLive(chair, used, j) && 0 <= chair.weight[j] < chair.level
    requires raw <= RAND_MAX && luck <= RAND_MAX
    ensures Chosen(chair, used, [raw, luck]) == Dealt(j, []) <==>
              raw < Accepted(RAND_MAX, chair.limit) && raw % chair.limit == j && luck % chair.level < chair.weight[j]
  {
    hide IsLive, Accepted;
    assert [raw, luck][1..] == [luck] && [raw, luck][2..] == [];
    OneChooses(chair, used, j, luck);
    assert Chosen(chair, used, []) == Out;
  }

  class Dealer {
    /** The values of rand() to come. */
    var random: seq<int>
    const deck: array<int>
    const ocard: array<int>
    var usedCards: set<int>
    var addlcomCards: set<int>
    var ncomCards: nat

    ghost predicate Valid()
      reads this
    {
      && deck.Length == CARDS_PER_DECK && ocard.Length == MAX_OPPONENTS * CARDS_PER_PLAYER && deck != ocard
      && ncomCards <= COMMUNITY_CARDS && IsRandom(random)
    }

    method Rand() returns (ok: bool, raw: int)
      requires Valid()
      modifies this`random
      ensures Valid() && 0 <= raw <= RAND_MAX
      ensures ok == (old(random) != [])
      ensures if ok then old(random) == [raw] + random else random == []
    {
      if random == [] {
        return false, 0;
      }
      raw := random[0];
      random := random[1..];
      return true, raw;
    }

    method Shuffle() returns (ok: bool)
      requires Valid()
      modifies this`random, deck
      ensures Valid() && (ok <==> |old(random)| >= CARDS_PER_DECK)
      ensures ok ==> IsDeck(deck[..]) && deck[..] == Shuffled(Sorted(), CARDS_PER_DECK, old(random))
    {
      hide Shuffled, Swapped, IsDeck;
      ghost var raw := random;
      var n := CARDS_PER_DECK;
      for i := 0 to n
        invariant random == raw && forall k | 0 <= k < i :: deck[k] == k
      {
        deck[i] := i;
      }
      assert deck[..] == Sorted();
      if |random| < n {
        random := [];
        return false;
      }
      while n >= 1
        invariant 0 <= n <= CARDS_PER_DECK && n <= |random| && Valid() && IsRandom(raw)
        invariant Shuffled(deck[..], n, random) == Shuffled(Sorted(), CARDS_PER_DECK, raw)
      {
        FirstChoice(deck[..], n, random);
        var selected := PlaceCard(n);
        n := n - 1;
      }
      NothingLeft(deck[..], random);
      ShuffledIsDeck(raw);
      return true;
    }

    /** Swaps a random card of the first n with the last of them. */
    method PlaceCard(n: nat) returns (selected: nat)
      requires Valid() && 1 <= n <= CARDS_PER_DECK && random != []
      modifies this`random, deck
      ensures Valid() && random == old(random)[1..]
      ensures selected == old(random)[0] % n && deck[..] == Swapped(old(deck[..]), selected, n - 1)
    {
      var drawn, value := Rand();
      selected := value % n;
      if selected != n - 1 {
        deck[selected], deck[n - 1] := deck[n - 1], deck[selected];
      }
      assert deck[..] == Swapped(old(deck[..]), selected, n - 1);
    }

    /** The position of the next card that is not in use. */
    method ScanDeck(from: nat) returns (x: nat)
      requires Valid() && from <= CARDS_PER_DECK
      requires |Unused(deck[..][..from], usedCards)| < |Unused(deck[..], usedCards)|
      ensures from <= x < CARDS_PER_DECK && deck[x] !in usedCards
      ensures Unused(deck[..][..x], usedCards) == Unused(deck[..][..from], usedCards)
    {
      x := from;
      WholeDeck(deck[..]);
      while deck[x] in usedCards && x < CARDS_PER_DECK
        invariant from <= x < CARDS_PER_DECK
        invariant Unused(deck[..][..x], usedCards) == Unused(deck[..][..from], usedCards)
        decreases CARDS_PER_DECK - x
      {
        NextUnused(deck[..], usedCards, x);
        x := x + 1;
      }
    }

    /** The swap dealer deals the unused cards from the front of a shuffled deck, and
        its scan stays inside the deck whenever the cards it needs fit in. */
    method SwapDealingAlgorithmForMoreThan13Opponents(nopponents: nat) returns (ok: bool)
      requires Valid() && 13 < nopponents <= MAX_OPPONENTS
      requires |usedCards| + nopponents * CARDS_PER_PLAYER + COMMUNITY_CARDS - ncomCards <= CARDS_PER_DECK
      modifies this`random, this`addlcomCards, deck, ocard
      ensures Valid() && (ok <==> |old(random)| >= CARDS_PER_DECK)
      ensures ok ==>
        var n := nopponents * CARDS_PER_PLAYER;
        && IsDeck(deck[..])
        && DealtFromFront(deck[..], usedCards, ocard[..n], addlcomCards, n + COMMUNITY_CARDS - ncomCards)
        && FairDeal(usedCards, ocard[..n], addlcomCards) && |addlcomCards| == COMMUNITY_CARDS - ncomCards
    {
      hide Unused, IsDeck, FairDeal, Cards, Shuffled;
      ok := Shuffle();
      if !ok { return; }
      DeckIsEnough(deck[..], usedCards);
      var n := nopponents * CARDS_PER_PLAYER;
      var x := DealOpponents(n);
      DealCommonCards(n, x);
      FrontOfDeckIsFair(deck[..], usedCards, ocard[..n], addlcomCards, n + COMMUNITY_CARDS - ncomCards);
    }

    method DealOpponents(n: nat) returns (x: nat)
      requires Valid() && n <= ocard.Length && n <= |Unused(deck[..], usedCards)|
      modifies ocard
      ensures x <= CARDS_PER_DECK && |Unused(deck[..][..x], usedCards)| == n
      ensures ocard[..n] == Unused(deck[..], usedCards)[..n]
    {
      hide Unused;
      ghost var order := deck[..];
      NothingBefore(order, usedCards);
      x := 0;
      for i := 0 to n
        invariant x <= CARDS_PER_DECK && deck[..] == order
        invariant |Unused(order[..x], usedCards)| == i && ocard[..i] == Unused(order, usedCards)[..i]
      {
        x := ScanDeck(x);
        TakeCard(order, usedCards, x);
        ocard[i] := deck[x];
        x := x + 1;
      }
    }

    method DealCommonCards(n: nat, from: nat)
      requires Valid() && from <= CARDS_PER_DECK && |Unused(deck[..][..from], usedCards)| == n
      requires n + COMMUNITY_CARDS - ncomCards <= |Unused(deck[..], usedCards)|
      modifies this`addlcomCards
      ensures addlcomCards == Cards(Unused(deck[..], usedCards)[n..n + COMMUNITY_CARDS - ncomCards])
    {
      hide Unused;
      ghost var order := deck[..];
      ghost var cards := Unused(order, usedCards);
      var x := from;
      addlcomCards := {};
      for i := 0 to COMMUNITY_CARDS - ncomCards
        invariant 0 <= x <= CARDS_PER_DECK && |Unused(order[..x], usedCards)| == n + i
        invariant addlcomCards == Cards(cards[n..n + i])
      {
        x := ScanDeck(x);
        TakeCard(order, usedCards, x);
        assert cards[n..n + i + 1] == cards[n..n + i] + [cards[n + i]];
        addlcomCards := addlcomCards + {deck[x]};
        x := x + 1;
      }
    }

    /** The first of the coming raw values that is a card and not in use. */
    method GetRandomCard() returns (ok: bool, card: int)
      requires Valid()
      modifies this`random
      ensures Valid() && |random| <= |old(random)|
      ensures ok ==>
        && |random| < |old(random)| && IsCard(card) && card !in usedCards
        && FirstGood(old(random), random, usedCards, card)
      ensures !ok ==> random == [] && NoneGood(old(random), usedCards)
      ensures DrawnCard(usedCards, old(random)) == if ok then Dealt(card, random) else Out
    {
      ghost var k := 0;
      while true
        invariant Valid() && k + |random| == |old(random)| && random == old(random)[k..]
        invariant forall i | 0 <= i < k :: !IsGood(old(random)[i], usedCards)
        invariant DrawnCard(usedCards, random) == DrawnCard(usedCards, old(random))
        decreases |random|
      {
        var drawn, raw := Rand();
        if !drawn {
          return false, 0;
        }
        card := raw % 0x40;
        if card < CARDS_PER_DECK && card !in usedCards {
          return true, card;
        }
        k := k + 1;
      }
    }

    /** Each draw is new: the additional community cards. */
    method DealAdditionalCommonCards() returns (ok: bool)
      requires Valid()
      modifies this`random, this`usedCards, this`addlcomCards
      ensures Valid() && (!ok ==> random == [])
      ensures ok ==> CommonDealt(old(usedCards), addlcomCards, usedCards, COMMUNITY_CARDS - ncomCards)
      ensures CommonCards(old(usedCards), COMMUNITY_CARDS - ncomCards, old(random))
              == if ok then Dealt(addlcomCards, random) else Out
    {
      hide FirstGood, NoneGood, IsRandom, CommonDealt, DrawnCard, Among, CommonCards;
      ghost var n := COMMUNITY_CARDS - ncomCards;
      ghost var goal := CommonCards(usedCards, n, random);
      CommonCardsAreNew(usedCards, n, random);
      AmongBoth({}, {}, goal);
      addlcomCards := {};
      for i := 0 to COMMUNITY_CARDS - ncomCards
        invariant Valid() && usedCards == old(usedCards) + addlcomCards
        invariant Among(addlcomCards, CommonCards(usedCards, n - i, random)) == goal
      {
        NextCommon(usedCards, n - i, random);
        var drawn, card := GetRandomCard();
        if !drawn {
          AmongNothing(addlcomCards);
          return false;
        }
        AmongBoth(addlcomCards, {card}, CommonCards(usedCards + {card}, n - i - 1, random));
        usedCards := usedCards + {card};
        addlcomCards := addlcomCards + {card};
      }
      NoMoreCommon(usedCards, random);
      AmongAll(addlcomCards, random);
      return true;
    }

    /** Two random cards that go to position i. */
    method DealTwoCards(i: nat) returns (ok: bool)
      requires Valid() && i + 1 < ocard.Length
      modifies this`random, this`usedCards, ocard
      ensures Valid() && |random| <= |old(random)| && (ok ==> |random| < |old(random)|)
      ensures ocard[..i] == old(ocard[..i]) && (!ok ==> random == [])
      ensures ok ==> NewHand(old(usedCards), ocard[i], ocard[i + 1])
      ensures ok ==> usedCards == old(usedCards) + {ocard[i], ocard[i + 1]}
      ensures DrawnHand(old(usedCards), old(random)) == if ok then Dealt((ocard[i], ocard[i + 1]), random) else Out
    {
      hide DrawnCard, FirstGood, NoneGood;
      var drawn, card := GetRandomCard();
      if !drawn { return false; }
      usedCards := usedCards + {card};
      ocard[i] := card;
      drawn, card := GetRandomCard();
      if !drawn { return false; }
      usedCards := usedCards + {card};
      ocard[i + 1] := card;
      return true;
    }

    /** Whether a hand is played; the cases on a slope are decided by a draw. */
    method IsHandInWeightedRange(w: Weighting, card1: int, card2: int) returns (ok: bool, inRange: bool)
      requires Valid() && w.Valid() && IsCard(card1) && IsCard(card2)
      modifies this`random
      ensures Valid() && |random| <= |old(random)|
      ensures var rank := w.Rank(card1, card2);
              if IsSloped(w, rank)
              then ok == (old(random) != [])
                   && (ok ==> random == old(random)[1..] && inRange == InRange(w, rank, old(random)[0]))
              else ok && random == old(random) && forall raw :: inRange == InRange(w, rank, raw)
      ensures (ok && inRange ==> w.Rank(card1, card2) < w.wontplay) && (!ok ==> random == [])
    {
      var suit1, suit2 := card1 / 13, card2 / 13;
      var rank1, rank2 := card1 % 13, card2 % 13;
      if rank2 > rank1 {
        rank1, rank2 := rank2, rank1;
      }
      var rank := if suit1 == suit2 then w.suited[rank1 * 13 + rank2] else w.offsuited[rank1 * 13 + rank2];
      if rank >= w.wontplay { return true, false; }
      if rank <= w.mustplay { return true, true; }
      if rank > w.topclip && rank <= w.willplay { return true, true; }
      if rank <= w.topclip {
        var drawn, raw := Rand();
        return drawn, rank > w.topclip * (1 - raw);
      }
      var distance := w.wontplay - w.willplay;
      if distance < 3 { return true, true; }
      var drawn, raw := Rand();
      return drawn, rank < w.willplay + raw % distance;
    }

    /** Draws hands for position i until one is in range; the cards of a rejected
        hand are put back. */
    method DealWeightedHand(i: nat, w: Weighting, free: bool) returns (ok: bool)
      requires Valid() && w.Valid() && i + 1 < ocard.Length
      modifies this`random, this`usedCards, ocard
      ensures Valid() && ocard[..i] == old(ocard[..i]) && (!ok ==> random == [])
      ensures ok ==> NewHand(old(usedCards), ocard[i], ocard[i + 1])
      ensures ok ==> usedCards == old(usedCards) + {ocard[i], ocard[i + 1]}
      ensures ok && w.willplay != 0 && !free ==> w.Rank(ocard[i], ocard[i + 1]) < w.wontplay
      ensures WeightedHand(w, free, old(usedCards), old(random))
              == if ok then Dealt((ocard[i], ocard[i + 1]), random) else Out
    {
      hide DrawnHand, InRange;
      var tempUsedCards := usedCards;
      while true
        invariant Valid() && ocard[..i] == old(ocard[..i])
        invariant WeightedHand(w, free, tempUsedCards, random) == WeightedHand(w, free, tempUsedCards, old(random))
        decreases |random|
      {
        usedCards := tempUsedCards;
        ok := DealTwoCards(i);
        if !ok || w.willplay == 0 || free { return; }
        hide IsSloped;
        var drawn, inRange := IsHandInWeightedRange(w, ocard[i], ocard[i + 1]);
        if !drawn { return false; }
        if inRange { return; }
      }
    }

    /** The hands of the standard dealer. */
    method DealStandardHands(n: nat, w: Weighting, bigBlindFree: bool) returns (ok: bool)
      requires Valid() && w.Valid() && 2 * n <= ocard.Length
      modifies this`random, this`usedCards, ocard
      ensures Valid() && (!ok ==> random == [])
      ensures ok ==> UnderWay(old(usedCards), ocard[..2 * n], usedCards) && Playable(w, ocard[..2 * n], bigBlindFree)
      ensures StandardHands(w, bigBlindFree, old(usedCards), 0, n, old(random))
              == if ok then Dealt(ocard[..2 * n], random) else Out
    {
      hide UnderWay, NewHand, FairDeal, Cards, Playable, RankOf, WeightedHand, Behind;
      NobodyPlays(w, bigBlindFree);
      NobodyYet(usedCards);
      ghost var goal := StandardHands(w, bigBlindFree, usedCards, 0, n, random);
      BehindBoth([], [], goal);
      for i := 0 to n
        invariant Valid() && UnderWay(old(usedCards), ocard[..2 * i], usedCards)
        invariant Playable(w, ocard[..2 * i], bigBlindFree)
        invariant Behind(ocard[..2 * i], StandardHands(w, bigBlindFree, usedCards, i, n, random)) == goal
      {
        ghost var before, used := ocard[..2 * i], usedCards;
        ok := DealWeightedHand(2 * i, w, bigBlindFree && i == 0);
        if !ok {
          BehindNothing(before);
          return;
        }
        var h := (ocard[2 * i], ocard[2 * i + 1]);
        BehindBoth(before, [h.0, h.1], StandardHands(w, bigBlindFree, usedCards, i + 1, n, random));
        HandIsNew(old(usedCards), before, used, h.0, h.1);
        OneMorePlays(w, before, bigBlindFree, used, h.0, h.1);
        assert ocard[..2 * (i + 1)] == before + [h.0, h.1];
      }
      BehindAll(ocard[..2 * n], random);
      ok := true;
    }

    /** The standard dealer: whatever is drawn, all cards are different and new, and
        exactly they are in use afterwards, so rejected hands leave no trace. */
    method StandardDealingAlgorithmForUpTo13Opponents(nopponents: int, w: Weighting, bigBlindFree: bool)
      returns (ok: bool)
      requires Valid() && w.Valid() && nopponents <= 13
      modifies this`random, this`usedCards, this`addlcomCards, ocard
      ensures Valid() && (!ok ==> random == [])
      ensures ok ==>
        var hands := ocard[..if nopponents < 1 then CARDS_PER_PLAYER else nopponents * CARDS_PER_PLAYER];
        && FairDeal(old(usedCards), hands, addlcomCards) && |addlcomCards| == COMMUNITY_CARDS - ncomCards
        && usedCards == old(usedCards) + Cards(hands) + addlcomCards
        && Playable(w, hands, bigBlindFree)
      ensures
        var n := if nopponents < 1 then 1 else nopponents;
        WithCommon(old(usedCards), COMMUNITY_CARDS - ncomCards,
                   StandardHands(w, bigBlindFree, old(usedCards), 0, n, old(random)))
        == if ok then Dealt((ocard[..2 * n], addlcomCards), random) else Out
    {
      hide UnderWay, FairDeal, Cards, Playable, RankOf, StandardHands, CommonCards;
      var n := if nopponents < 1 then 1 else nopponents;
      ok := DealStandardHands(n, w, bigBlindFree);
      if !ok { return; }
      ghost var used := usedCards;
      UsedUnderWay(old(usedCards), ocard[..2 * n], used);
      ok := DealAdditionalCommonCards();
      if ok {
        DealIsFair(old(usedCards), ocard[..2 * n], used, addlcomCards);
      }
    }

    /** A hand of the chair's table, chosen without bias by rejection, whose cards are
        not in use, and that its weight lets pass. */
    method ChooseHand(chair: Chair) returns (ok: bool, j: nat)
      requires Valid() && chair.Valid()
      modifies this`random
      ensures Valid() && (!ok ==> random == [])
      ensures Chosen(chair, usedCards, old(random)) == if ok then Dealt(j, random) else Out
      ensures ok ==> j < chair.limit && chair.weight[j] > 0 && NewHand(usedCards, chair.rankhi[j], chair.ranklo[j])
    {
      j := 0;
      while true
        invariant Valid() && Chosen(chair, usedCards, random) == Chosen(chair, usedCards, old(random))
        decreases |random|
      {
        hide Chosen, Skipped, Accepted;
        ghost var rest := Skipped(random, Accepted(RAND_MAX, chair.limit));
        ChoiceWaits(chair, usedCards, random, rest);
        var drawn, raw := DrawAccepted(chair.limit);
        if !drawn { return false, 0; }
        ChoiceOf(chair, usedCards, rest);
        assert rest[1..] == random;
        j := raw % chair.limit;
        if chair.rankhi[j] !in usedCards && chair.ranklo[j] !in usedCards {
          if chair.level <= chair.weight[j] { return true, j; }
          drawn, raw := Rand();
          if !drawn { return false, 0; }
          assert rest[2..] == random;
          if raw % chair.level < chair.weight[j] { return true, j; }
        }
      }
    }

    /** Draws until a raw value is accepted. */
    method DrawAccepted(limit: nat) returns (ok: bool, raw: int)
      requires Valid() && limit >= 1
      modifies this`random
      ensures Valid() && (ok ==> |random| < |old(random)|)
      ensures Skipped(old(random), Accepted(RAND_MAX, limit)) == if ok then [raw] + random else []
      ensures if ok then 0 <= raw < Accepted(RAND_MAX, limit) else random == []
    {
      var randfix := Accepted(RAND_MAX, limit);
      while true
        invariant Valid() && |random| <= |old(random)|
        invariant Skipped(random, randfix) == Skipped(old(random), randfix)
        decreases |random|
      {
        ok, raw := Rand();
        if !ok || raw < randfix { return; }
      }
    }

    method DealToChair(chair: Chair, free: bool, k: nat) returns (ok: bool)
      requires Valid() && chair.Valid() && k + 1 < ocard.Length
      modifies this`random, this`usedCards, ocard
      ensures Valid() && ocard[..k] == old(ocard[..k]) && (!ok ==> random == [])
      ensures ok ==> NewHand(old(usedCards), ocard[k], ocard[k + 1])
      ensures ok ==> usedCards == old(usedCards) + {ocard[k], ocard[k + 1]}
      ensures ok && !chair.ignore && !free ==> Allowed(chair, ocard[k], ocard[k + 1])
      ensures ChairHand(chair, free, old(usedCards), old(random))
              == if ok then Dealt((ocard[k], ocard[k + 1]), random) else Out
    {
      hide Allowed, DrawnHand, Chosen;
      // first the special cases that are not weighted
      if chair.ignore || free {
        ok := DealTwoCards(k);
        return;
      }
      var j;
      ok, j := ChooseHand(chair);
      if !ok { return; }
      ocard[k] := chair.rankhi[j];
      ocard[k + 1] := chair.ranklo[j];
      usedCards := usedCards + {ocard[k], ocard[k + 1]};
      AllowedHand(chair, j);
    }

    /** The hands of the enhanced dealer. */
    method DealToChairs(chairs: seq<Chair>, userchair: int, playing: set<int>, free: set<int>) returns (ok: bool)
      requires Valid() && AllValid(chairs)
      modifies this`random, this`usedCards, ocard
      ensures Valid() && (!ok ==> random == [])
      ensures
        var opponents := Opponents(userchair, playing, MAX_PLAYERS);
        var hands := ocard[..2 * |opponents|];
        && EnhancedHands(chairs, free, opponents, old(usedCards), old(random))
           == (if ok then Dealt(hands, random) else Out)
        && (ok ==> UnderWay(old(usedCards), hands, usedCards) && AllAllowed(chairs, free, opponents, hands))
    {
      hide UnderWay, NewHand, Cards, Allowed, AllAllowed, ChairHand, Behind, EnhancedHands, Opponents, AllValid;
      hide AreChairs;
      ghost var all := Opponents(userchair, playing, MAX_PLAYERS);
      ghost var goal := EnhancedHands(chairs, free, all, usedCards, random);
      BehindBoth([], [], goal);
      NoOpponents(userchair, playing);
      NoCards();
      EnhancedHandsAreFair(chairs, free, all, usedCards, random);
      var k := 0;
      ghost var m := 0;
      assert all[0..] == all;
      for i := 0 to MAX_PLAYERS
        invariant Valid() && k == 2 * m <= 2 * i && m == |Opponents(userchair, playing, i)| <= |all|
        invariant usedCards == old(usedCards) + Cards(ocard[..k])
        invariant AreChairs(all[m..])
        invariant Behind(ocard[..k], EnhancedHands(chairs, free, all[m..], usedCards, random)) == goal
      {
        NextOpponent(userchair, playing, i, MAX_PLAYERS);
        if i == userchair || i !in playing {
          continue;
        }
        ghost var before := ocard[..k];
        assert all[m] == Opponents(userchair, playing, i + 1)[m] == i;
        RestAreChairs(all[m..]);
        NextHand(chairs, free, all[m..], usedCards, random);
        ChairIsValid(chairs, i);
        ok := DealToChair(chairs[i], i in free, k);
        if !ok {
          BehindNothing(before);
          return;
        }
        var h := (ocard[k], ocard[k + 1]);
        assert all[m..][1..] == all[m + 1..];
        BehindBoth(before, [h.0, h.1], EnhancedHands(chairs, free, all[m + 1..], usedCards, random));
        TwoMoreCards(before, h.0, h.1);
        assert ocard[..k + 2] == before + [h.0, h.1];
        k, m := k + 2, m + 1;
      }
      NoMoreHands(chairs, free, all[m..], usedCards, random);
      BehindAll(ocard[..k], random);
      ok := true;
    }

    /** The enhanced dealer: a fair deal to all opponents, each with a hand that his
        chair allows. free holds the big blind while he is not weighted. */
    method EnhancedDealingAlgorithm(chairs: seq<Chair>, userchair: int, playing: set<int>, free: set<int>)
      returns (ok: bool)
      requires Valid() && AllValid(chairs)
      modifies this`random, this`usedCards, this`addlcomCards, ocard
      ensures Valid() && (!ok ==> random == [])
      ensures ok ==>
        var opponents := Opponents(userchair, playing, MAX_PLAYERS);
        var hands := ocard[..2 * |opponents|];
        && FairDeal(old(usedCards), hands, addlcomCards) && |addlcomCards| == COMMUNITY_CARDS - ncomCards
        && usedCards == old(usedCards) + Cards(hands) + addlcomCards
        && AllAllowed(chairs, free, opponents, hands)
      ensures
        var opponents := Opponents(userchair, playing, MAX_PLAYERS);
        WithCommon(old(usedCards), COMMUNITY_CARDS - ncomCards,
                   EnhancedHands(chairs, free, opponents, old(usedCards), old(random)))
        == if ok then Dealt((ocard[..2 * |opponents|], addlcomCards), random) else Out
    {
      hide UnderWay, FairDeal, Cards, AllAllowed, EnhancedHands, CommonCards, Opponents;
      ok := DealToChairs(chairs, userchair, playing, free);
      if !ok { return; }
      ghost var n := 2 * |Opponents(userchair, playing, MAX_PLAYERS)|;
      ghost var used := usedCards;
      UsedUnderWay(old(usedCards), ocard[..n], used);
      ok := DealAdditionalCommonCards();
      if ok {
        DealIsFair(old(usedCards), ocard[..n], used, addlcomCards);
      }
    }
  }

  lemma RestAreChairs(opponents: seq<int>)
    requires AreChairs(opponents) && opponents != []
    ensures AreChairs(opponents[1..])
  {}

  lemma NoCards()
    ensures Cards([]) == {}
  {}

  lemma TwoMoreCards(hands: seq<int>, a: int, b: int)
    ensures Cards(hands + [a, b]) == Cards(hands) + {a, b}
  {}

  /** A hand dealt to a chair is new, and one that the chair allows. */
  lemma ChairHandIsFair(chair: Chair, free: bool, used: set<int>, raw: seq<int>)
    requires IsRandom(raw) && chair.Valid() && ChairHand(chair, free, used, raw).Dealt?
    ensures var h := ChairHand(chair, free, used, raw).value;
            NewHand(used, h.0, h.1) && (!chair.ignore && !free ==> Allowed(chair, h.0, h.1))
  {
    hide DrawnHand, Chosen;
    if !chair.ignore && !free {
      ChosenIsLive(chair, used, raw);
      AllowedHand(chair, Chosen(chair, used, raw).value);
    }
  }

  /** The hands of the enhanced dealer are new and different, and ones that the
      chairs allow. */
  lemma EnhancedHandsAreFair(chairs: seq<Chair>, free: set<int>, opponents: seq<int>, used: set<int>, raw: seq<int>)
    requires IsRandom(raw) && AllValid(chairs)
    requires AreChairs(opponents)
    ensures var deal := EnhancedHands(chairs, free, opponents, used, raw);
            deal.Dealt? ==>
              && |deal.value| == 2 * |opponents|
              && UnderWay(used, deal.value, used + Cards(deal.value))
              && AllAllowed(chairs, free, opponents, deal.value)
  {
    hide UnderWay, AllAllowed, EnhancedHands, Cards, AllValid;
    NobodyYet(used);
    NobodyAllowed(chairs, free);
    MoreHandsAreFair(chairs, free, [], [], used, opponents, used, raw);
    assert [] + opponents == opponents;
    var deal := EnhancedHands(chairs, free, opponents, used, raw);
    if deal.Dealt? {
      assert [] + deal.value == deal.value;
    }
  }

  lemma {:induction false} MoreHandsAreFair(chairs: seq<Chair>, free: set<int>, served: seq<int>, hands: seq<int>,
                                            known: set<int>, opponents: seq<int>, used: set<int>, raw: seq<int>)
    requires IsRandom(raw) && AllValid(chairs) && |hands| == 2 * |served| && UnderWay(known, hands, used)
    requires AreChairs(served)
    requires AreChairs(opponents)
    requires AllAllowed(chairs, free, served, hands)
    ensures var deal := EnhancedHands(chairs, free, opponents, used, raw);
            deal.Dealt? ==>
              && |deal.value| == 2 * |opponents|
              && UnderWay(known, hands + deal.value, used + Cards(deal.value))
              && AllAllowed(chairs, free, served + opponents, hands + deal.value)
    decreases |opponents|
  {
    hide UnderWay, AllAllowed, Allowed, EnhancedHands, ChairHand, Cards, NewHand, AllValid;
    if opponents == [] {
      NoMoreHands(chairs, free, opponents, used, raw);
      NoCards();
      assert served + [] == served && hands + [] == hands && used + {} == used;
    } else {
      NextHand(chairs, free, opponents, used, raw);
      ChairIsValid(chairs, opponents[0]);
      var first := ChairHand(chairs[opponents[0]], opponents[0] in free, used, raw);
      if first.Dealt? {
        var h, rest := first.value, first.rest;
        ChairHandIsFair(chairs[opponents[0]], opponents[0] in free, used, raw);
        HandIsNew(known, hands, used, h.0, h.1);
        OneMoreAllowed(chairs, free, served, opponents[0], hands, h.0, h.1);
        MoreHandsAreFair(chairs, free, served + [opponents[0]], hands + [h.0, h.1], known, opponents[1..],
                         used + {h.0, h.1}, rest);
        assert served + [opponents[0]] + opponents[1..] == served + opponents;
        var more := EnhancedHands(chairs, free, opponents[1..], used + {h.0, h.1}, rest);
        if more.Dealt? {
          CardsOfBoth([h.0, h.1], more.value);
          TwoMoreCards([], h.0, h.1);
          NoCards();
          assert [] + [h.0, h.1] == [h.0, h.1];
          assert hands + [h.0, h.1] + more.value == hands + ([h.0, h.1] + more.value);
          assert used + {h.0, h.1} + Cards(more.value) == used + Cards([h.0, h.1] + more.value);
        }
      }
    }
  }

  lemma CardsOfBoth(a: seq<int>, b: seq<int>)
    ensures Cards(a + b) == Cards(a) + Cards(b)
  {}

  lemma NextHand(chairs: seq<Chair>, free: set<int>, opponents: seq<int>, used: set<int>, raw: seq<int>)
    requires IsRandom(raw) && AllValid(chairs) && opponents != []
    requires AreChairs(opponents)
    ensures var first := ChairHand(chairs[opponents[0]], opponents[0] in free, used, raw);
            EnhancedHands(chairs, free, opponents, used, raw) ==
              if first.Out? then Out
              else
                var h, rest := first.value, first.rest;
                Behind([h.0, h.1], EnhancedHands(chairs, free, opponents[1..], used + {h.0, h.1}, rest))
  {
    hide ChairHand, Behind;
  }

  lemma NoMoreHands(chairs: seq<Chair>, free: set<int>, opponents: seq<int>, used: set<int>, raw: seq<int>)
    requires IsRandom(raw) && AllValid(chairs) && opponents == []
    ensures EnhancedHands(chairs, free, opponents, used, raw) == Dealt([], raw)
  {}

  lemma ChairIsValid(chairs: seq<Chair>, i: nat)
    requires AllValid(chairs) && i < MAX_PLAYERS
    ensures |chairs| == MAX_PLAYERS && chairs[i].Valid()
  {}

  lemma NoOpponents(userchair: int, playing: set<int>)
    ensures Opponents(userchair, playing, 0) == []
  {}

  /** The chairs up to chair i come first. */
  lemma {:induction false} NextOpponent(userchair: int, playing: set<int>, i: nat, n: nat)
    requires i < n
    ensures var first, more := Opponents(userchair, playing, i), Opponents(userchair, playing, i + 1);
            && (if i == userchair || i !in playing then more == first else more == first + [i])
            && more <= Opponents(userchair, playing, n)
  {
    if i + 1 < n {
      NextOpponent(userchair, playing, i, n - 1);
    }
  }

  lemma HandIsNew(known: set<int>, hands: seq<int>, used: set<int>, a: int, b: int)
    requires UnderWay(known, hands, used) && NewHand(used, a, b)
    ensures UnderWay(known, hands + [a, b], used + {a, b})
  {
    var more := hands + [a, b];
    assert Cards(more) == Cards(hands) + {a, b};
    assert a !in Cards(hands) && b !in Cards(hands);
  }

  lemma UsedUnderWay(known: set<int>, hands: seq<int>, used: set<int>)
    requires UnderWay(known, hands, used)
    ensures used == known + Cards(hands)
  {}

  lemma DealIsFair(known: set<int>, hands: seq<int>, used: set<int>, common: set<int>)
    requires UnderWay(known, hands, used) && common !! used && forall c | c in common :: IsCard(c)
    ensures FairDeal(known, hands, common) && used == known + Cards(hands)
  {
    assert forall c | c in hands :: c in Cards(hands);
  }

  lemma NobodyPlays(w: Weighting, bigBlindFree: bool)
    requires w.Valid()
    ensures Playable(w, [], bigBlindFree)
  {}

  lemma OneMorePlays(w: Weighting, hands: seq<int>, bigBlindFree: bool, used: set<int>, a: int, b: int)
    requires w.Valid() && |hands| % 2 == 0 && Playable(w, hands, bigBlindFree) && NewHand(used, a, b)
    requires w.willplay != 0 && !(bigBlindFree && hands == []) ==> w.Rank(a, b) < w.wontplay
    ensures Playable(w, hands + [a, b], bigBlindFree)
  {
    hide RankOf;
    var more := hands + [a, b];
    forall i | 0 <= i && 2 * i + 1 < |more| && !(i == 0 && bigBlindFree) && w.willplay != 0
      ensures IsCard(more[2 * i]) && IsCard(more[2 * i + 1]) && w.Rank(more[2 * i], more[2 * i + 1]) < w.wontplay
    {
      if 2 * i + 1 < |hands| {
        assert more[2 * i] == hands[2 * i] && more[2 * i + 1] == hands[2 * i + 1];
      }
    }
  }

  lemma NobodyAllowed(chairs: seq<Chair>, free: set<int>)
    requires AllValid(chairs)
    ensures AllAllowed(chairs, free, [], [])
  {}

  lemma OneMoreAllowed(chairs: seq<Chair>, free: set<int>, opponents: seq<int>, i: nat, hands: seq<int>,
                       a: int, b: int)
    requires AllValid(chairs)
    requires AreChairs(opponents) && |hands| == 2 * |opponents|
    requires AllAllowed(chairs, free, opponents, hands) && i < MAX_PLAYERS
    requires !chairs[i].ignore && i !in free ==> Allowed(chairs[i], a, b)
    ensures AllAllowed(chairs, free, opponents + [i], hands + [a, b])
  {
    hide Allowed;
  }

  lemma AllowedHand(chair: Chair, j: nat)
    requires chair.Valid() && j < chair.limit && chair.weight[j] > 0
    ensures Allowed(chair, chair.rankhi[j], chair.ranklo[j])
  {}

  lemma DeckIsEnough(deck: seq<int>, used: set<int>)
    requires IsDeck(deck)
    ensures |Unused(deck, used)| >= CARDS_PER_DECK - |used|
  {
    hide Unused;
    UnusedAreEnough(deck, used);
  }

  lemma NothingBefore(deck: seq<int>, used: set<int>)
    ensures Unused(deck[..0], used) == []
  {}

  lemma WholeDeck(deck: seq<int>)
    ensures deck[..|deck|] == deck
  {}

  lemma TakeCard(deck: seq<int>, used: set<int>, x: nat)
    requires x < |deck| && deck[x] !in used
    ensures var i := |Unused(deck[..x], used)|;
            && i < |Unused(deck, used)| && Unused(deck, used)[i] == deck[x]
            && |Unused(deck[..x + 1], used)| == i + 1
            && Unused(deck, used)[..i + 1] == Unused(deck, used)[..i] + [deck[x]]
  {
    NextUnused(deck, used, x);
    UnusedOfPrefix(deck, used, x + 1);
  }
}
