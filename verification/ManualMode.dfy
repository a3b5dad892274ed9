/** The chip ledger of the ManualMode table simulator (ManualModeDlg.cpp).

    All amounts are whole cents: on them the two-digit strings of the dialog are
    exact. */
module ManualMode {
  const PLAYERS := 10
  const COMMUNITY_CARDS := 5
  const CC0 := 20
  const CARDS := 25
  const CARD_NOCARD := 0xfe
  const CARD_BACK := 0xff
  const NOT_FOUND := -1

  datatype Stakes = Stakes(sblind: int, bblind: int, fixedLimit: bool)
  {
    predicate Valid() { 0 <= sblind <= bblind }
  }

  datatype State = State(bets: seq<int>, balances: seq<int>, cards: seq<int>, usedCards: set<int>,
                         pot: int, lastCommon: int)
  {
    ghost predicate Valid() {
      && |bets| == |balances| == PLAYERS && |cards| == CARDS
      && (forall i | 0 <= i < PLAYERS :: bets[i] >= 0 && balances[i] >= 0)
    }

    /** All the money on the table. */
    function Total(): int {
      Sum(bets) + Sum(balances) + pot
    }
  }

  function Sum(s: seq<int>): int {
    if s == [] then 0 else Sum(s[..|s| - 1]) + s[|s| - 1]
  }

  predicate Visible(card: int) { card != CARD_NOCARD && card != CARD_BACK }

  /** The number of community cards on the board, of the first n places. */
  function CommonCards(cards: seq<int>, n: nat): (count: int)
    requires |cards| == CARDS && n <= COMMUNITY_CARDS
    ensures 0 <= count <= n
  {
    if n == 0 then 0 else CommonCards(cards, n - 1) + if Visible(cards[CC0 + n - 1]) then 1 else 0
  }

  function BettingRound(cards: seq<int>): int
    requires |cards| == CARDS
  {
    var n := CommonCards(cards, COMMUNITY_CARDS);
    if n <= 2 then 1 else n - 1
  }

  function MaxBet(bets: seq<int>): (max: int)
    ensures max >= 0 && forall i | 0 <= i < |bets| :: bets[i] <= max
    ensures max == 0 || max in bets
  {
    if bets == [] then 0
    else var below := MaxBet(bets[..|bets| - 1]); if bets[|bets| - 1] > below then bets[|bets| - 1] else below
  }

  /** The bet to match; before the flop at least the next blind. */
  function CurrentBet(stakes: Stakes, s: State): int
    requires |s.cards| == CARDS
  {
    var max := MaxBet(s.bets);
    if BettingRound(s.cards) == 1 && max == 0 then stakes.sblind
    else if BettingRound(s.cards) == 1 && max == stakes.sblind then stakes.bblind
    else max
  }

  /** The first chair with visible cards. */
  function UserchairFrom(cards: seq<int>, i: nat): (chair: int)
    requires |cards| == CARDS && i <= PLAYERS
    ensures chair == NOT_FOUND || (i <= chair < PLAYERS && Visible(cards[2 * chair]))
    ensures forall k | i <= k < (if chair == NOT_FOUND then PLAYERS else chair) :: !Visible(cards[2 * k])
    decreases PLAYERS - i
  {
    if i == PLAYERS then NOT_FOUND else if Visible(cards[2 * i]) then i else UserchairFrom(cards, i + 1)
  }

  // ---------- Actions ----------

  datatype Action =
    | Fold(chair: nat) | Call(chair: nat) | Raise(chair: nat) | AllIn(chair: nat)
    | Swag(chair: nat, amount: int) | SetCard(place: nat, card: int)

  /** What the dialog demands of an action: a chair or a place of a card. */
  predicate Possible(a: Action) {
    if a.SetCard? then a.place < CARDS else a.chair < PLAYERS
  }

  /** Moves an amount from a balance to the bet. */
  function Put(s: State, chair: nat, amount: int): State
    requires |s.bets| == |s.balances| == PLAYERS && chair < PLAYERS
  {
    s.(bets := s.bets[chair := s.bets[chair] + amount], balances := s.balances[chair := s.balances[chair] - amount])
  }

  function AtMost(amount: int, limit: int): int {
    if amount > limit then limit else amount
  }

  function RaiseAmount(stakes: Stakes, s: State): int
    requires |s.cards| == CARDS
  {
    if BettingRound(s.cards) >= 3 && stakes.fixedLimit then 2 * stakes.bblind else stakes.bblind
  }

  /** A bet of any size by the user: nothing is taken out, all-in if it is all he
      has, and nothing happens below the current bet. */
  function Swagged(stakes: Stakes, s: State, chair: nat, amount: int): State
    requires s.Valid() && chair < PLAYERS
  {
    var user := UserchairFrom(s.cards, 0);
    var bet := if user == NOT_FOUND then 0 else s.bets[user];
    var total := bet + if user == NOT_FOUND then 0 else s.balances[user];
    if amount < bet then s
    else if amount >= total then Put(s, chair, s.balances[chair])
    else if amount < CurrentBet(stakes, s) then s
    else Put(s, user, amount - bet)
  }

  /** The bets go into the pot when the flop, the turn or the river comes. */
  function Scraped(s: State): State
    requires s.Valid()
  {
    var n := CommonCards(s.cards, COMMUNITY_CARDS);
    var t := s.(lastCommon := n);
    if (s.lastCommon == 0 && n > 0) || (s.lastCommon == 3 && n > 3) || (s.lastCommon == 4 && n > 4) then
      t.(pot := s.pot + Sum(s.bets), bets := seq(PLAYERS, i => 0))
    else t
  }

  function Without(used: set<int>, card: int): set<int> {
    if Visible(card) then used - {card} else used
  }

  function CardSet(s: State, place: nat, card: int): State
    requires s.Valid() && place < CARDS
  {
    var t := s.(cards := s.cards[place := card], usedCards := Without(s.usedCards, s.cards[place]) + {card});
    if place >= CC0 then Scraped(t) else t
  }

  function Folded(s: State, chair: nat): State
    requires s.Valid() && chair < PLAYERS
  {
    s.(usedCards := Without(Without(s.usedCards, s.cards[2 * chair]), s.cards[2 * chair + 1]),
       cards := s.cards[2 * chair := CARD_NOCARD][2 * chair + 1 := CARD_NOCARD])
  }

  function Step(stakes: Stakes, s: State, a: Action): State
    requires s.Valid() && Possible(a)
  {
    match a
    case Fold(chair) => Folded(s, chair)
    case Call(chair) => Put(s, chair, AtMost(CurrentBet(stakes, s) - s.bets[chair], s.balances[chair]))
    case Raise(chair) =>
      Put(s, chair, AtMost(CurrentBet(stakes, s) + RaiseAmount(stakes, s) - s.bets[chair], s.balances[chair]))
    case AllIn(chair) => Put(s, chair, s.balances[chair])
    case Swag(chair, amount) => Swagged(stakes, s, chair, amount)
    case SetCard(place, card) => CardSet(s, place, card)
  }

  // ---------- Conservation ----------

  lemma {:induction false} SumOfUpdate(s: seq<int>, i: nat, x: int)
    requires i < |s|
    ensures Sum(s[i := x]) == Sum(s) - s[i] + x
  {
    var n := |s| - 1;
    if i < n {
      SumOfUpdate(s[..n], i, x);
      assert s[i := x][..n] == s[..n][i := x];
    } else {
      assert s[i := x][..n] == s[..n];
    }
  }

  lemma {:induction false} SumOfZeros(n: nat)
    ensures Sum(seq(n, i => 0)) == 0
  {
    if n > 0 {
      SumOfZeros(n - 1);
      assert seq(n, i => 0)[..n - 1] == seq(n - 1, i => 0);
    }
  }

  lemma PutKeepsTotal(s: State, chair: nat, amount: int)
    requires |s.bets| == |s.balances| == PLAYERS && chair < PLAYERS
    ensures Put(s, chair, amount).Total() == s.Total()
  {
    SumOfUpdate(s.bets, chair, s.bets[chair] + amount);
    SumOfUpdate(s.balances, chair, s.balances[chair] - amount);
  }

  /** The current bet is never below a player's own bet. */
  lemma CurrentBetCovers(stakes: Stakes, s: State, chair: nat)
    requires stakes.Valid() && s.Valid() && chair < PLAYERS
    ensures CurrentBet(stakes, s) >= s.bets[chair]
  {}

  lemma SwagIsPut(stakes: Stakes, s: State, chair: nat, amount: int)
    requires stakes.Valid() && s.Valid() && chair < PLAYERS
    ensures var t := Swagged(stakes, s, chair, amount); t.Valid() && t.Total() == s.Total()
  {
    var user := UserchairFrom(s.cards, 0);
    PutKeepsTotal(s, chair, s.balances[chair]);
    if user != NOT_FOUND {
      PutKeepsTotal(s, user, amount - s.bets[user]);
    }
  }

  /** Every action keeps the money on the table and makes no balance negative. */
  lemma StepKeepsLedger(stakes: Stakes, s: State, a: Action)
    requires stakes.Valid() && s.Valid() && Possible(a)
    ensures Step(stakes, s, a).Valid() && Step(stakes, s, a).Total() == s.Total()
  {
    hide CurrentBet;
    match a
    case Fold(_) =>
    case Call(chair) =>
      CurrentBetCovers(stakes, s, chair);
      PutKeepsTotal(s, chair, AtMost(CurrentBet(stakes, s) - s.bets[chair], s.balances[chair]));
    case Raise(chair) =>
      CurrentBetCovers(stakes, s, chair);
      var more := CurrentBet(stakes, s) + RaiseAmount(stakes, s) - s.bets[chair];
      PutKeepsTotal(s, chair, AtMost(more, s.balances[chair]));
    case AllIn(chair) => PutKeepsTotal(s, chair, s.balances[chair]);
    case Swag(chair, amount) => SwagIsPut(stakes, s, chair, amount);
    case SetCard(_, _) => SumOfZeros(PLAYERS);
  }

  /** The state after a run of actions. */
  function Run(stakes: Stakes, s: State, actions: seq<Action>): (t: State)
    requires stakes.Valid() && s.Valid() && forall a | a in actions :: Possible(a)
    ensures t.Valid()
    decreases |actions|
  {
    if actions == [] then s
    else
      StepKeepsLedger(stakes, s, actions[0]);
      Run(stakes, Step(stakes, s, actions[0]), actions[1..])
  }

  /** Any sequence of actions keeps the sum of balances, bets and pot. */
  lemma {:induction false} RunKeepsTotal(stakes: Stakes, s: State, actions: seq<Action>)
    requires stakes.Valid() && s.Valid() && forall a | a in actions :: Possible(a)
    ensures Run(stakes, s, actions).Total() == s.Total()
    decreases |actions|
  {
    if actions != [] {
      StepKeepsLedger(stakes, s, actions[0]);
      RunKeepsTotal(stakes, Step(stakes, s, actions[0]), actions[1..]);
    }
  }

  /** After a call the player has matched the bet that was to be matched, or is
      all-in. */
  lemma CallMatchesOrIsAllIn(stakes: Stakes, s: State, chair: nat)
    requires stakes.Valid() && s.Valid() && chair < PLAYERS
    ensures var t := Step(stakes, s, Call(chair));
            t.bets[chair] == CurrentBet(stakes, s) || (t.balances[chair] == 0 && t.bets[chair] < CurrentBet(stakes, s))
  {
    CurrentBetCovers(stakes, s, chair);
  }

  lemma MaxBetAfter(bets: seq<int>, i: nat, x: int)
    requires i < |bets| && x >= MaxBet(bets)
    ensures MaxBet(bets[i := x]) == x
  {
    var t := bets[i := x];
    assert t[i] == x;
    assert forall j | 0 <= j < |t| :: t[j] <= x;
  }

  /** With enough money, the caller's bet is the current bet afterwards, too, except
      when nobody had bet before the flop: then the call is the small blind, and
      the big blind becomes the bet to match. */
  lemma CallStaysMatchedWhen(stakes: Stakes, s: State, chair: nat)
    requires stakes.Valid() && s.Valid() && chair < PLAYERS
    requires CurrentBet(stakes, s) - s.bets[chair] <= s.balances[chair]
    ensures var t := Step(stakes, s, Call(chair));
            t.bets[chair] == CurrentBet(stakes, t) <==>
              !(BettingRound(s.cards) == 1 && MaxBet(s.bets) == 0 && 0 < stakes.sblind < stakes.bblind)
  {
    MaxBetAfter(s.bets, chair, CurrentBet(stakes, s));
  }

  /** A swag of the user leaves everything as it is, or tops the current bet, or
      puts him all-in. */
  lemma SwagTopsOrIsAllIn(stakes: Stakes, s: State, user: nat, amount: int)
    requires stakes.Valid() && s.Valid() && user < PLAYERS && UserchairFrom(s.cards, 0) == user
    ensures var t := Step(stakes, s, Swag(user, amount));
            || t == s || t.balances[user] == 0
            || (t.bets[user] == amount >= CurrentBet(stakes, s) && t.bets[user] >= s.bets[user])
    ensures var t, all := Step(stakes, s, Swag(user, amount)), s.bets[user] + s.balances[user];
            && (amount >= all ==> t.bets[user] == all && t.balances[user] == 0)
            && (CurrentBet(stakes, s) <= amount < all ==> t.bets[user] == amount && t.balances[user] == all - amount)
            && (amount < CurrentBet(stakes, s) && amount < all ==> t == s)
  {
    CurrentBetCovers(stakes, s, user);
    assert s.bets[user := s.bets[user]] == s.bets && s.balances[user := s.balances[user]] == s.balances;
  }

  /** A raise tops the bet to match by the big blind, or with a fixed limit and at least
      four cards on the board by two of them; or the player is all-in with less. */
  lemma RaiseTopsOrIsAllIn(stakes: Stakes, s: State, chair: nat)
    requires stakes.Valid() && s.Valid() && chair < PLAYERS
    ensures var t := Step(stakes, s, Raise(chair));
            var big := stakes.fixedLimit && CommonCards(s.cards, COMMUNITY_CARDS) >= 4;
            var bet := CurrentBet(stakes, s) + (if big then 2 else 1) * stakes.bblind;
            && t.bets[chair] + t.balances[chair] == s.bets[chair] + s.balances[chair]
            && if bet <= s.bets[chair] + s.balances[chair] then t.bets[chair] == bet else t.balances[chair] == 0
  {
    CurrentBetCovers(stakes, s, chair);
  }

  lemma AllInBetsEverything(stakes: Stakes, s: State, chair: nat)
    requires s.Valid() && chair < PLAYERS
    ensures var t := Step(stakes, s, AllIn(chair));
            t.balances[chair] == 0 && t.bets[chair] == s.bets[chair] + s.balances[chair]
  {
  }

  /** A bet is the matter of one player: nothing else changes. */
  lemma OnlyThePlayerBets(stakes: Stakes, s: State, a: Action)
    requires s.Valid() && Possible(a) && !a.SetCard? && !a.Fold?
    requires a.Swag? ==> UserchairFrom(s.cards, 0) == a.chair
    ensures var t := Step(stakes, s, a);
            && (forall i | 0 <= i < PLAYERS && i != a.chair ::
                  t.bets[i] == s.bets[i] && t.balances[i] == s.balances[i])
            && t.cards == s.cards && t.usedCards == s.usedCards && t.pot == s.pot && t.lastCommon == s.lastCommon
  {
    hide CurrentBet;
  }

  // ---------- The cards ----------

  lemma {:induction false} OneMoreCommon(cards: seq<int>, place: nat, card: int, n: nat)
    requires |cards| == CARDS && CC0 <= place < CARDS && n <= COMMUNITY_CARDS
    ensures CommonCards(cards[place := card], n) ==
              CommonCards(cards, n) + if place >= CC0 + n || Visible(card) == Visible(cards[place]) then 0
                                      else if Visible(card) then 1 else -1
  {
    if n > 0 {
      OneMoreCommon(cards, place, card, n - 1);
    }
  }

  /** A board that is dealt one card at a time takes all bets into the pot with its first
      card, with the turn and with the river, and with no other card. */
  lemma BoardCollectsBets(stakes: Stakes, s: State, place: nat, card: int)
    requires s.Valid() && CC0 <= place < CARDS && !Visible(s.cards[place]) && Visible(card)
    requires s.lastCommon == CommonCards(s.cards, COMMUNITY_CARDS)
    ensures var t, n := Step(stakes, s, SetCard(place, card)), s.lastCommon;
            && t.lastCommon == CommonCards(t.cards, COMMUNITY_CARDS) == n + 1
            && t.balances == s.balances && t.cards == s.cards[place := card]
            && if n == 0 || n == 3 || n == 4
               then t.pot == s.pot + Sum(s.bets) && forall i | 0 <= i < PLAYERS :: t.bets[i] == 0
               else t.pot == s.pot && t.bets == s.bets
  {
    OneMoreCommon(s.cards, place, card, COMMUNITY_CARDS);
  }

  /** The visible cards are different, and they are the used ones. */
  ghost predicate CardsAreUsed(s: State)
    requires s.Valid()
  {
    && (forall i, j | 0 <= i < j < CARDS :: Visible(s.cards[i]) ==> s.cards[i] != s.cards[j])
    && (forall c | Visible(c) :: c in s.usedCards <==> c in s.cards)
  }

  /** The menu does not offer used cards. */
  predicate Offered(s: State, a: Action) {
    a.SetCard? && Visible(a.card) ==> a.card !in s.usedCards
  }

  lemma CardSetIsUsed(s: State, place: nat, card: int)
    requires s.Valid() && place < CARDS && CardsAreUsed(s) && (Visible(card) ==> card !in s.usedCards)
    ensures CardsAreUsed(
              s.(cards := s.cards[place := card], usedCards := Without(s.usedCards, s.cards[place]) + {card}))
  {
    var t := s.(cards := s.cards[place := card], usedCards := Without(s.usedCards, s.cards[place]) + {card});
    forall c | Visible(c) ensures c in t.usedCards <==> c in t.cards {
      if c in t.cards {
        var i :| 0 <= i < CARDS && t.cards[i] == c;
        assert i != place ==> s.cards[i] in s.cards;
      }
      if c in t.usedCards && c != card {
        var i :| 0 <= i < CARDS && s.cards[i] == c;
        assert t.cards[i] == c;
      }
      assert t.cards[place] == card;
    }
  }

  lemma UncoveredIsUsed(s: State, place: nat)
    requires s.Valid() && place < CARDS && CardsAreUsed(s)
    ensures var t := s.(cards := s.cards[place := CARD_NOCARD], usedCards := Without(s.usedCards, s.cards[place]));
            t.Valid() && CardsAreUsed(t)
  {
    CardSetIsUsed(s, place, CARD_NOCARD);
  }

  /** Every action keeps the used cards what is visible, as long as only offered cards are set. */
  lemma StepKeepsCards(stakes: Stakes, s: State, a: Action)
    requires stakes.Valid() && s.Valid() && Possible(a) && CardsAreUsed(s) && Offered(s, a)
    ensures Step(stakes, s, a).Valid() && CardsAreUsed(Step(stakes, s, a))
  {
    StepKeepsLedger(stakes, s, a);
    match a
    case Fold(chair) =>
      UncoveredIsUsed(s, 2 * chair);
      UncoveredIsUsed(s.(cards := s.cards[2 * chair := CARD_NOCARD],
                         usedCards := Without(s.usedCards, s.cards[2 * chair])), 2 * chair + 1);
    case SetCard(place, card) => CardSetIsUsed(s, place, card);
    case _ =>
  }

  /** Who folds has no visible cards any more; all other cards and all money stay. */
  lemma FoldTakesTheCards(stakes: Stakes, s: State, chair: nat)
    requires s.Valid() && chair < PLAYERS
    ensures var t := Step(stakes, s, Fold(chair));
            && !Visible(t.cards[2 * chair]) && !Visible(t.cards[2 * chair + 1])
            && (forall i | 0 <= i < CARDS && i / 2 != chair :: t.cards[i] == s.cards[i])
            && t.bets == s.bets && t.balances == s.balances && t.pot == s.pot
            && UserchairFrom(t.cards, 0) != chair
  {
  }

  // ---------- The dialog ----------

  class Dialog {
    const stakes: Stakes
    const playerbet: array<int>
    const playerbalance: array<int>
    const card: array<int>
    var usedCards: set<int>
    var pot: int
    var ncommoncardsLast: int
    var clickChair: int
    var clickLoc: int
    var raiseAmount: int

    ghost function Now(): State
      reads this, playerbet, playerbalance, card
    {
      State(playerbet[..], playerbalance[..], card[..], usedCards, pot, ncommoncardsLast)
    }

    ghost predicate Valid()
      reads this, playerbet, playerbalance, card
    {
      stakes.Valid() && Now().Valid() && playerbet != playerbalance && playerbet != card && playerbalance != card
    }

    method CountCommonCards() returns (n: int)
      requires Valid()
      ensures n == CommonCards(card[..], COMMUNITY_CARDS)
    {
      n := 0;
      for i := 0 to COMMUNITY_CARDS
        invariant n == CommonCards(card[..], i)
      {
        if card[CC0 + i] != CARD_NOCARD && card[CC0 + i] != CARD_BACK {
          n := n + 1;
        }
      }
    }

    method GetBr() returns (br: int)
      requires Valid()
      ensures br == BettingRound(card[..]) && 1 <= br <= 4
    {
      var n := CountCommonCards();
      br := if n <= 2 then 1 else if n == 3 then 2 else if n == 4 then 3 else 4;
    }

    method GetCurrentBet() returns (bet: int)
      requires Valid()
      ensures bet == CurrentBet(stakes, Now())
    {
      bet := 0;
      for i := 0 to PLAYERS
        invariant bet == MaxBet(playerbet[..i])
      {
        assert playerbet[..i + 1][..i] == playerbet[..i];
        if playerbet[i] > bet {
          bet := playerbet[i];
        }
      }
      assert playerbet[..PLAYERS] == playerbet[..];
      var br := GetBr();
      if br == 1 {
        if bet == 0 {
          bet := stakes.sblind;
        } else if bet == stakes.sblind {
          bet := stakes.bblind;
        }
      }
    }

    method Userchair() returns (chair: int)
      requires Valid()
      ensures chair == UserchairFrom(card[..], 0)
    {
      for i := 0 to PLAYERS
        invariant UserchairFrom(card[..], 0) == UserchairFrom(card[..], i)
      {
        if card[2 * i] != CARD_BACK && card[2 * i] != CARD_NOCARD {
          return i;
        }
      }
      return NOT_FOUND;
    }

    /** Puts an amount of a player's balance into his bet. */
    method PutIn(chair: nat, amount: int)
      requires Valid() && chair < PLAYERS && 0 <= amount <= playerbalance[chair]
      modifies playerbet, playerbalance
      ensures Valid() && Now() == Put(old(Now()), chair, amount)
    {
      playerbet[chair] := amount + playerbet[chair];
      playerbalance[chair] := playerbalance[chair] - amount;
    }

    method DoCall()
      requires Valid() && 0 <= clickChair < PLAYERS
      modifies playerbet, playerbalance
      ensures Valid() && Now() == Step(stakes, old(Now()), Call(clickChair))
    {
      var bet := GetCurrentBet();
      CurrentBetCovers(stakes, Now(), clickChair);
      var diff := bet - playerbet[clickChair];
      if diff > playerbalance[clickChair] {
        diff := playerbalance[clickChair];
      }
      PutIn(clickChair, diff);
    }

    method DoRaise()
      requires Valid() && 0 <= clickChair < PLAYERS
      modifies playerbet, playerbalance
      ensures Valid() && Now() == Step(stakes, old(Now()), Raise(clickChair))
    {
      var br := GetBr();
      var raise := if br >= 3 && stakes.fixedLimit then stakes.bblind * 2 else stakes.bblind;
      var bet := GetCurrentBet();
      CurrentBetCovers(stakes, Now(), clickChair);
      var diff := bet + raise - playerbet[clickChair];
      if diff > playerbalance[clickChair] {
        diff := playerbalance[clickChair];
      }
      PutIn(clickChair, diff);
    }

    method DoAllin()
      requires Valid() && 0 <= clickChair < PLAYERS
      modifies playerbet, playerbalance
      ensures Valid() && Now() == Step(stakes, old(Now()), AllIn(clickChair))
    {
      playerbet[clickChair] := playerbet[clickChair] + playerbalance[clickChair];
      playerbalance[clickChair] := 0;
    }

    method DoFold()
      requires Valid() && 0 <= clickChair < PLAYERS
      modifies this`usedCards, card
      ensures Valid() && Now() == Step(stakes, old(Now()), Fold(clickChair))
    {
      var first, second := 2 * clickChair, 2 * clickChair + 1;
      if card[first] != CARD_NOCARD && card[first] != CARD_BACK {
        usedCards := usedCards - {card[first]};
      }
      if card[second] != CARD_NOCARD && card[second] != CARD_BACK {
        usedCards := usedCards - {card[second]};
      }
      card[first] := CARD_NOCARD;
      card[second] := CARD_NOCARD;
    }

    /** ExecuteSwag(); the amount is forgotten afterwards. */
    method ExecuteSwag()
      requires Valid() && 0 <= clickChair < PLAYERS
      modifies this`raiseAmount, playerbet, playerbalance
      ensures Valid() && Now() == Step(stakes, old(Now()), Swag(clickChair, old(raiseAmount)))
      ensures raiseAmount == 0
    {
      var user := Userchair();
      var myBet := if user == NOT_FOUND then 0 else playerbet[user];
      var myTotal := myBet + if user == NOT_FOUND then 0 else playerbalance[user];
      var bet := GetCurrentBet();
      if raiseAmount < myBet {
        // no money can be taken out of the pot
      } else if raiseAmount >= myTotal {
        DoAllin();
      } else if raiseAmount < bet {
        // does not top the previous raise
      } else {
        var remaining := myTotal - raiseAmount;
        playerbet[user] := raiseAmount;
        playerbalance[user] := remaining;
      }
      raiseAmount := 0;
    }

    method CollectBets()
      requires Valid()
      modifies this`pot, playerbet
      ensures Valid() && pot == old(pot + Sum(playerbet[..])) && playerbet[..] == seq(PLAYERS, i => 0)
    {
      ghost var bets := playerbet[..];
      for i := 0 to PLAYERS
        invariant Valid() && pot == old(pot) + Sum(bets[..i])
        invariant playerbet[..i] == seq(i, k => 0) && playerbet[i..] == bets[i..]
      {
        assert bets[..i + 1][..i] == bets[..i];
        pot := pot + playerbet[i];
        playerbet[i] := 0;
      }
      assert bets[..PLAYERS] == bets;
    }

    method DoScrapeBetsIntoPot()
      requires Valid()
      modifies this`pot, this`ncommoncardsLast, playerbet
      ensures Valid() && Now() == Scraped(old(Now()))
    {
      var n := CountCommonCards();
      if ncommoncardsLast == 0 && n > 0 {
        CollectBets();
      } else if ncommoncardsLast == 3 && n > 3 {
        CollectBets();
      } else if ncommoncardsLast == 4 && n > 4 {
        CollectBets();
      }
      ncommoncardsLast := n;
    }

    method SetCard(c: int)
      requires Valid() && 0 <= clickLoc < CARDS
      modifies this`usedCards, this`pot, this`ncommoncardsLast, playerbet, card
      ensures Valid() && Now() == Step(stakes, old(Now()), Action.SetCard(clickLoc, c))
    {
      if card[clickLoc] != CARD_NOCARD && card[clickLoc] != CARD_BACK {
        usedCards := usedCards - {card[clickLoc]};
      }
      card[clickLoc] := c;
      usedCards := usedCards + {c};
      if clickLoc >= CC0 {
        DoScrapeBetsIntoPot();
      }
    }
  }
}
