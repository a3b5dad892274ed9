/** The detector of new hands, as implemented in CHandresetDetector.cpp: nine
    unreliable methods, and a vote over the last three heartbeats. */
module HandresetDetector {
  import opened Common

  datatype Method =
    | DealerChair | UserCards | HandNumber | CommunityCards | Potsize
    | OpponentsPlaying | IncreasingBalance | BlindLevel | NewSmallBlind

  function Mask(m: Method): bv32 {
    match m
    case DealerChair => 0x100
    case UserCards => 0x80
    case HandNumber => 0x40
    case CommunityCards => 0x20
    case Potsize => 0x10
    case OpponentsPlaying => 0x8
    case IncreasingBalance => 0x4
    case BlindLevel => 0x2
    case NewSmallBlind => 0x1
  }

  /** Appends one bit at the lower end. */
  function Appended(u: bv32, bit: bool): bv32 {
    (u << 1) | (if bit then 1 else 0)
  }

  function NineBits(a: bool, b: bool, c: bool, d: bool, e: bool, f: bool, g: bool, h: bool, i: bool): bv32 {
    Appended(Appended(Appended(Appended(Appended(
      Appended(Appended(Appended(Appended(0, a), b), c), d), e), f), g), h), i)
  }

  /** The bit-vector of a set of methods: the first method has the highest bit. */
  function Bits(fired: set<Method>): bv32 {
    NineBits(DealerChair in fired, UserCards in fired, HandNumber in fired, CommunityCards in fired,
             Potsize in fired, OpponentsPlaying in fired, IncreasingBalance in fired,
             BlindLevel in fired, NewSmallBlind in fired)
  }

  // ---------- Counting bits ----------

  function Sums(x: bv32, high: bv32, mask: bv32): bv32 {
    (x & mask) + (high & mask)
  }

  function Sums0(n: bv32): bv32 { Sums(n, n >> 1, 0x5555_5555) }
  function Sums1(n: bv32): bv32 { Sums(n, n >> 2, 0x3333_3333) }
  function Sums2(n: bv32): bv32 { Sums(n, n >> 4, 0x0F0F_0F0F) }
  function Sums3(n: bv32): bv32 { Sums(n, n >> 8, 0x00FF_00FF) }
  function Sums4(n: bv32): bv32 { Sums(n, n >> 16, 0x0000_FFFF) }

  /** The number of bits, summed up in fields of doubling width. */
  function Bitcount(n: bv32): bv32 { Sums4(Sums3(Sums2(Sums1(Sums0(n))))) }

  /** At most one bit is set, and only at the lower end of a field. */
  predicate AtMostOne(n: bv32, units: bv32) { n & (n - 1) == 0 && n & units == n }

  lemma Layer0(n: bv32)
    ensures AtMostOne(n, 0xFFFF_FFFF) <==> AtMostOne(Sums0(n), 0x5555_5555)
    ensures Sums0(n) & (Sums0(n) >> 1) & 0x5555_5555 == 0
  {}

  lemma Layer1(n: bv32)
    requires n & (n >> 1) & 0x5555_5555 == 0
    ensures AtMostOne(n, 0x5555_5555) <==> AtMostOne(Sums1(n), 0x1111_1111)
    ensures Sums1(n) & 0x8888_8888 == 0
  {}

  lemma Layer2(n: bv32)
    requires n & 0x8888_8888 == 0
    ensures AtMostOne(n, 0x1111_1111) <==> AtMostOne(Sums2(n), 0x0101_0101)
    ensures Sums2(n) & 0xF0F0_F0F0 == 0
  {}

  lemma Layer3(n: bv32)
    requires n & 0xF0F0_F0F0 == 0
    ensures AtMostOne(n, 0x0101_0101) <==> AtMostOne(Sums3(n), 0x0001_0001)
    ensures Sums3(n) & 0xFFE0_FFE0 == 0
  {}

  lemma Layer4(n: bv32)
    requires n & 0xFFE0_FFE0 == 0
    ensures AtMostOne(n, 0x0001_0001) <==> AtMostOne(Sums4(n), 0x0000_0001)
  {}

  /** The count in parallel fields reaches two exactly when a second bit
      remains once the lowest one is removed: no field ever overflows. */
  lemma BitcountReachesTwo(n: bv32)
    ensures Bitcount(n) >= 2 <==> n & (n - 1) != 0
  {
    Layer0(n);
    Layer1(Sums0(n));
    Layer2(Sums1(Sums0(n)));
    Layer3(Sums2(Sums1(Sums0(n))));
    Layer4(Sums3(Sums2(Sums1(Sums0(n)))));
    assert AtMostOne(Bitcount(n), 1) <==> AtMostOne(n, 0xFFFF_FFFF);
    AtMostOneUnit(Bitcount(n));
  }

  lemma AtMostOneUnit(n: bv32)
    ensures AtMostOne(n, 1) <==> n < 2
  {}

  /** The bit-vector u has exactly the bits of these methods. */
  ghost predicate Represents(u: bv32, fired: set<Method>) {
    u & 0x1FF == u && forall m :: m in fired <==> Has(u, m)
  }

  predicate Has(u: bv32, m: Method) { Hits(u, Mask(m)) }

  predicate Hits(u: bv32, mask: bv32) { u & mask != 0 }

  function Or(u: bv32, v: bv32): bv32 { u | v }

  lemma NineBitsMask(a: bool, b: bool, c: bool, d: bool, e: bool, f: bool, g: bool, h: bool, i: bool)
    ensures var u := NineBits(a, b, c, d, e, f, g, h, i);
            && u & 0x1FF == u
            && (u & 0x100 != 0 <==> a) && (u & 0x80 != 0 <==> b) && (u & 0x40 != 0 <==> c)
            && (u & 0x20 != 0 <==> d) && (u & 0x10 != 0 <==> e) && (u & 0x8 != 0 <==> f)
            && (u & 0x4 != 0 <==> g) && (u & 0x2 != 0 <==> h) && (u & 0x1 != 0 <==> i)
  {}

  lemma NineBitsHave(a: bool, b: bool, c: bool, d: bool, e: bool, f: bool, g: bool, h: bool, i: bool)
    ensures var u := NineBits(a, b, c, d, e, f, g, h, i);
            && u & 0x1FF == u
            && (Hits(u, 0x100) <==> a) && (Hits(u, 0x80) <==> b) && (Hits(u, 0x40) <==> c)
            && (Hits(u, 0x20) <==> d) && (Hits(u, 0x10) <==> e) && (Hits(u, 0x8) <==> f)
            && (Hits(u, 0x4) <==> g) && (Hits(u, 0x2) <==> h) && (Hits(u, 0x1) <==> i)
  {
    hide NineBits;
    NineBitsMask(a, b, c, d, e, f, g, h, i);
  }

  lemma BitsRepresent(fired: set<Method>)
    ensures Represents(Bits(fired), fired)
  {
    hide NineBits, Hits;
    NineBitsHave(DealerChair in fired, UserCards in fired, HandNumber in fired, CommunityCards in fired,
                 Potsize in fired, OpponentsPlaying in fired, IncreasingBalance in fired,
                 BlindLevel in fired, NewSmallBlind in fired);
  }

  lemma UnionOfBits(u: bv32, v: bv32, mask: bv32)
    ensures Hits(Or(u, v), mask) <==> Hits(u, mask) || Hits(v, mask)
  {
    Distributes(u, v, mask);
    NothingInUnion(u & mask, v & mask);
  }

  lemma Distributes(u: bv32, v: bv32, mask: bv32)
    ensures Or(u, v) & mask == Or(u & mask, v & mask)
  {}

  lemma NothingInUnion(u: bv32, v: bv32)
    ensures Or(u, v) == 0 <==> u == 0 && v == 0
  {}

  lemma UnionHas(u: bv32, v: bv32, m: Method)
    ensures Has(Or(u, v), m) <==> Has(u, m) || Has(v, m)
  {
    hide Mask, Hits, Or;
    UnionOfBits(u, v, Mask(m));
  }

  lemma UnionWithin(u: bv32, v: bv32)
    requires u & 0x1FF == u && v & 0x1FF == v
    ensures Or(u, v) & 0x1FF == Or(u, v)
  {}

  lemma UnionRepresents(u: bv32, v: bv32, a: set<Method>, b: set<Method>)
    requires Represents(u, a) && Represents(v, b)
    ensures Represents(Or(u, v), a + b)
  {
    hide Has, Or;
    UnionWithin(u, v);
    forall m ensures m in a + b <==> Has(Or(u, v), m) {
      UnionHas(u, v, m);
    }
  }

  /** Two different methods fired. */
  ghost predicate TwoMethods(fired: set<Method>) {
    exists m, n :: m != n && m in fired && n in fired
  }

  lemma TwoBits(u: bv32, m: Method, n: Method)
    requires m != n && Has(u, m) && Has(u, n)
    ensures u & (u - 1) != 0
  {}

  lemma LowestBit(u: bv32) returns (m: Method)
    requires u != 0 && u & 0x1FF == u
    ensures Has(u, m) && !Has(u & (u - 1), m)
  {
    m := if u & 0x1 != 0 then NewSmallBlind else if u & 0x2 != 0 then BlindLevel
         else if u & 0x4 != 0 then IncreasingBalance else if u & 0x8 != 0 then OpponentsPlaying
         else if u & 0x10 != 0 then Potsize else if u & 0x20 != 0 then CommunityCards
         else if u & 0x40 != 0 then HandNumber else if u & 0x80 != 0 then UserCards
         else DealerChair;
  }

  lemma RestOfBits(u: bv32, m: Method)
    requires u & 0x1FF == u
    ensures (u & (u - 1)) & 0x1FF == u & (u - 1)
    ensures Has(u & (u - 1), m) ==> Has(u, m)
  {}

  /** Counting bits is counting different methods, as far as two. */
  lemma BitcountCountsMethods(u: bv32, fired: set<Method>)
    requires Represents(u, fired)
    ensures Bitcount(u) >= 2 <==> TwoMethods(fired)
  {
    hide Bitcount, Has;
    BitcountReachesTwo(u);
    if TwoMethods(fired) {
      var m, n :| m != n && m in fired && n in fired;
      TwoBits(u, m, n);
    } else if u & (u - 1) != 0 {
      RestOfBits(u, DealerChair);
      var m := LowestBit(u);
      var n := LowestBit(u & (u - 1));
      RestOfBits(u, n);
      assert false;
    }
  }

  // ---------- The state machine ----------

  /** What one heartbeat brings: the methods that fire, and whether exactly one
      opponent was dealt in. */
  datatype Beat = Beat(fired: set<Method>, headsup: bool)

  /** The bit-vectors of this and the last two heartbeats, and the results. */
  datatype State = State(newest: bv32, middle: bv32, oldest: bv32,
                         isReset: bool, handsPlayed: nat, handsPlayedHeadsup: nat)

  const CLEARED := State(0, 0, 0, false, 0, 0)

  /** Different bits are set in the three vectors together. */
  predicate DifferentBits(u: bv32, v: bv32, w: bv32) {
    Bitcount(Or(Or(u, v), w)) >= 2
  }

  function Step(s: State, beat: Beat): State {
    var fired := Bits(beat.fired);
    if DifferentBits(s.middle, s.newest, fired) then
      State(0, 0, 0, true, s.handsPlayed + 1, if beat.headsup then s.handsPlayedHeadsup + 1 else 0)
    else
      State(fired, s.newest, s.middle, false, s.handsPlayed, s.handsPlayedHeadsup)
  }

  /** The state after the first n heartbeats. */
  function Run(start: State, beats: seq<Beat>, n: nat): State
    requires n <= |beats|
  {
    if n == 0 then start else Step(Run(start, beats, n - 1), beats[n - 1])
  }

  // ---------- Resets by the full history ----------

  /** What fired at heartbeat j, as long as no reset has happened in heartbeats
      j to n - 1. */
  ghost function Unused(beats: seq<Beat>, j: int, n: nat): set<Method>
    requires n <= |beats|
    decreases n, 0
  {
    if 0 <= j < n && forall r: nat | j <= r < n :: !ResetAt(beats, r) then beats[j].fired else {}
  }

  /** Two different methods fired within the last three heartbeats and since the
      previous reset. */
  ghost predicate ResetAt(beats: seq<Beat>, k: nat)
    requires k < |beats|
    decreases k, 1
  {
    TwoMethods(Unused(beats, k - 2, k) + Unused(beats, k - 1, k) + beats[k].fired)
  }

  ghost predicate SlotsHold(s: State, beats: seq<Beat>, n: nat)
    requires n <= |beats|
  {
    && Represents(s.newest, Unused(beats, n - 1, n))
    && Represents(s.middle, Unused(beats, n - 2, n))
    && Represents(s.oldest, Unused(beats, n - 3, n))
  }

  lemma UnusedNext(beats: seq<Beat>, j: int, k: nat)
    requires k < |beats| && j < k
    ensures Unused(beats, j, k + 1) == if ResetAt(beats, k) then {} else Unused(beats, j, k)
  {}

  lemma NothingRepresents()
    ensures Represents(0, {})
  {}

  lemma DifferentBitsAreMethods(u: bv32, v: bv32, w: bv32, a: set<Method>, b: set<Method>, c: set<Method>)
    requires Represents(u, a) && Represents(v, b) && Represents(w, c)
    ensures DifferentBits(u, v, w) <==> TwoMethods(a + b + c)
  {
    hide Bitcount, Or, TwoMethods, Represents;
    UnionRepresents(u, v, a, b);
    UnionRepresents(Or(u, v), w, a + b, c);
    BitcountCountsMethods(Or(Or(u, v), w), a + b + c);
  }

  /** One step from a state that remembers the last heartbeats. */
  lemma StepFollowsHistory(s: State, beats: seq<Beat>, k: nat)
    requires k < |beats| && SlotsHold(s, beats, k)
    ensures Step(s, beats[k]).isReset == ResetAt(beats, k)
    ensures SlotsHold(Step(s, beats[k]), beats, k + 1)
  {
    hide Bits, DifferentBits, Represents, TwoMethods, Unused;
    var before, last, now := Unused(beats, k - 2, k), Unused(beats, k - 1, k), beats[k].fired;
    BitsRepresent(now);
    DifferentBitsAreMethods(s.middle, s.newest, Bits(now), before, last, now);
    UnusedNext(beats, k - 1, k);
    UnusedNext(beats, k - 2, k);
    UnusedNow(beats, k);
    NothingRepresents();
  }

  lemma UnusedNow(beats: seq<Beat>, k: nat)
    requires k < |beats|
    ensures Unused(beats, k, k + 1) == if ResetAt(beats, k) then {} else beats[k].fired
  {}

  /** Over every run from cleared slots: a reset is reported exactly when two
      different methods fired within the last three heartbeats since the
      previous reset, and hands played counts these resets. */
  lemma {:induction false} ResetsFollowHistory(beats: seq<Beat>, n: nat)
    requires n <= |beats|
    ensures SlotsHold(Run(CLEARED, beats, n), beats, n)
    ensures Run(CLEARED, beats, n).isReset == (n > 0 && ResetAt(beats, n - 1))
    ensures Run(CLEARED, beats, n).handsPlayed == |Resets(beats, n)|
  {
    hide Bits, Bitcount, TwoMethods, Represents;
    if n == 0 {
      NothingRepresents();
    } else {
      ResetsFollowHistory(beats, n - 1);
      StepFollowsHistory(Run(CLEARED, beats, n - 1), beats, n - 1);
    }
  }

  /** The resets among the first n heartbeats, each as its headsup flag. */
  ghost function Resets(beats: seq<Beat>, n: nat): seq<bool>
    requires n <= |beats|
  {
    if n == 0 then []
    else if ResetAt(beats, n - 1) then Resets(beats, n - 1) + [beats[n - 1].headsup]
    else Resets(beats, n - 1)
  }

  // ---------- The counters ----------

  function Firings(beats: seq<Beat>, n: nat): nat
    requires n <= |beats|
  {
    if n == 0 then 0 else Firings(beats, n - 1) + |beats[n - 1].fired|
  }

  lemma TwoMethodsAreTwo(fired: set<Method>)
    requires TwoMethods(fired)
    ensures |fired| >= 2
  {
    var m, n :| m != n && m in fired && n in fired;
    SubsetIsNoLarger({m, n}, fired);
  }

  lemma NothingUnusedYet(beats: seq<Beat>)
    ensures Unused(beats, -1, 0) == Unused(beats, -2, 0) == Unused(beats, -3, 0) == {}
  {}

  /** The firings that can still be used, and twice the hands, never exceed all
      firings: none of them is used by two resets. */
  lemma {:induction false} FiringsAreUsedOnce(beats: seq<Beat>, n: nat)
    requires n <= |beats|
    ensures 2 * |Resets(beats, n)| + |Unused(beats, n - 1, n)|
            + |Unused(beats, n - 2, n)| + |Unused(beats, n - 3, n)| <= Firings(beats, n)
  {
    hide TwoMethods, Unused;
    if n == 0 {
      NothingUnusedYet(beats);
    } else {
      var k := n - 1;
      FiringsAreUsedOnce(beats, k);
      var before, last, now := Unused(beats, k - 2, k), Unused(beats, k - 1, k), beats[k].fired;
      UnusedNext(beats, k - 1, k);
      UnusedNext(beats, k - 2, k);
      UnusedNow(beats, k);
      if ResetAt(beats, k) {
        TwoMethodsAreTwo(before + last + now);
        UnionIsNoLarger(before, last);
        UnionIsNoLarger(before + last, now);
      }
    }
  }

  /** Hands played is at most half of all firings. */
  lemma HandsAreAtMostHalfTheFirings(beats: seq<Beat>, n: nat)
    requires n <= |beats|
    ensures 2 * Run(CLEARED, beats, n).handsPlayed <= Firings(beats, n)
  {
    hide *;
    ResetsFollowHistory(beats, n);
    FiringsAreUsedOnce(beats, n);
  }

  /** h is the length of the longest run of true at the end of the flags. */
  ghost predicate LatestRun(flags: seq<bool>, h: nat) {
    && h <= |flags|
    && (forall i | |flags| - h <= i < |flags| :: flags[i])
    && (h < |flags| ==> !flags[|flags| - h - 1])
  }

  /** The headsup counter is the length of the latest unbroken run of headsup
      resets. */
  lemma {:induction false} HeadsupCounterIsLatestRun(beats: seq<Beat>, n: nat)
    requires n <= |beats|
    ensures LatestRun(Resets(beats, n), Run(CLEARED, beats, n).handsPlayedHeadsup)
  {
    hide Bits, Bitcount, Represents, ResetAt;
    if n > 0 {
      HeadsupCounterIsLatestRun(beats, n - 1);
      ResetsFollowHistory(beats, n - 1);
      StepFollowsHistory(Run(CLEARED, beats, n - 1), beats, n - 1);
    }
  }

  // ---------- Slots that were never cleared ----------

  /** The reports of a run from these slots, for every history the reports of a
      run from cleared ones. */
  ghost predicate ReportsAsCleared(start: State) {
    forall beats: seq<Beat>, n: nat | 0 < n <= |beats| ::
      Run(start, beats, n).isReset == Run(CLEARED, beats, n).isReset
  }

  ghost predicate SameSlots(s: State, t: State) {
    s.newest == t.newest && s.middle == t.middle && s.isReset == t.isReset
  }

  lemma {:induction false} OldestSlotIsForgotten(start: State, beats: seq<Beat>, n: nat)
    requires start.newest == 0 && start.middle == 0 && 0 < n <= |beats|
    ensures SameSlots(Run(start, beats, n), Run(CLEARED, beats, n))
  {
    hide Bits, DifferentBits;
    if n > 1 {
      OldestSlotIsForgotten(start, beats, n - 1);
    } else {
      assert Run(start, beats, 0) == start && Run(CLEARED, beats, 0) == CLEARED;
    }
  }

  lemma OneBit(m: Method)
    ensures !DifferentBits(0, 0, Bits({m}))
  {
    hide DifferentBits, Bits, Represents;
    NothingRepresents();
    BitsRepresent({m});
    DifferentBitsAreMethods(0, 0, Bits({m}), {}, {}, {m});
    assert {} + {} + {m} == {m};
  }

  /** With a bit left over, some single method is taken for two. */
  lemma LeftOver(middle: bv32, newest: bv32) returns (m: Method)
    requires middle != 0 || newest != 0
    ensures DifferentBits(middle, newest, Bits({m}))
  {
    var u := Or(middle, newest);
    assert u != 0 by { NothingInUnion(middle, newest); }
    m := if u == 0x100 then NewSmallBlind else DealerChair;
    assert Bits({m}) == if u == 0x100 then 1 else 0x100;
    TwoBitsTogether(u);
    BitcountReachesTwo(Or(u, Bits({m})));
  }

  lemma TwoBitsTogether(u: bv32)
    requires u != 0
    ensures var v := Or(u, if u == 0x100 then 1 else 0x100); v & (v - 1) != 0
  {}

  /** The constructor leaves the slots alone. Whatever they hold, the reports are
      those of cleared slots if and only if the first two slots are empty. */
  lemma UnclearedSlotsReportCorrectlyWhen(start: State)
    ensures ReportsAsCleared(start) <==> start.newest == 0 && start.middle == 0
  {
    hide DifferentBits, Bits;
    if start.newest == 0 && start.middle == 0 {
      forall beats: seq<Beat>, n: nat | 0 < n <= |beats|
        ensures Run(start, beats, n).isReset == Run(CLEARED, beats, n).isReset
      {
        OldestSlotIsForgotten(start, beats, n);
      }
    } else {
      var m := LeftOver(start.middle, start.newest);
      OneBit(m);
      var beats := [Beat({m}, false)];
      assert Run(start, beats, 0) == start && Run(CLEARED, beats, 0) == CLEARED;
      assert Run(start, beats, 1).isReset && !Run(CLEARED, beats, 1).isReset;
    }
  }

  // ---------- The detector ----------

  const MAX_PLAYERS := 10
  const UNDEFINED := -1
  const CARD_UNDEFINED := 0xfd

  /** What the scraper and the symbol engines know at a heartbeat. */
  datatype Table = Table(
    dealerchair: int, userchair: int, nchairs: nat, userHasKnownCards: bool, holeCards: seq<(int, int)>,
    handnumber: string, minDigits: int, maxDigits: int, pot: real, commonCards: int,
    nopponentsplaying: int, nopponentsdealt: int, bblind: real, balances: seq<real>, bets: seq<real>)
  {
    predicate Valid() {
      |holeCards| == |balances| == |bets| == MAX_PLAYERS && 2 <= nchairs <= MAX_PLAYERS
    }

    predicate IsValidDealerChair(chair: int) {
      0 <= chair < nchairs
    }

    predicate IsValidHandNumber(number: string) {
      minDigits > 0 && maxDigits > 0 ==> minDigits <= |number| <= maxDigits
    }

    /** A bet below the big blind. */
    ghost predicate SmallBlindExists(blind: real)
      requires Valid()
    {
      exists i | 0 <= i < nchairs :: 0.0 < bets[i] < blind
    }
  }

  datatype Symbols = Symbols(
    dealerchair: int, playercards: (int, int), handnumber: string, potsize: real, communityCards: int,
    nopponentsplaying: int, bblind: real, balances: seq<real>)
  {
    predicate Valid() {
      |balances| == MAX_PLAYERS
    }

    /** The symbols at the next heartbeat: a dealer or hand number that is not
        valid leaves the old one in place. */
    function Updated(table: Table): (now: Symbols)
      requires table.Valid()
      ensures now.Valid()
    {
      Symbols(
        if table.IsValidDealerChair(table.dealerchair) then table.dealerchair else dealerchair,
        if 0 <= table.userchair < table.nchairs then table.holeCards[table.userchair]
        else (CARD_UNDEFINED, CARD_UNDEFINED),
        if table.IsValidHandNumber(table.handnumber) then table.handnumber else handnumber,
        table.pot, table.commonCards, table.nopponentsplaying, table.bblind, table.balances)
    }
  }

  /** Some balance is higher than the compared one, which is positive. */
  ghost predicate Increased(balances: seq<real>, compared: seq<real>)
    requires |balances| == |compared| == MAX_PLAYERS
  {
    exists i | 0 <= i < MAX_PLAYERS :: balances[i] > compared[i] > 0.0
  }

  ghost predicate Fires(m: Method, now: Symbols, last: Symbols, smallBlindExisted: bool, table: Table)
    requires now.Valid() && last.Valid() && table.Valid()
  {
    match m
    case DealerChair =>
      && now.dealerchair != last.dealerchair
      && table.IsValidDealerChair(now.dealerchair) && table.IsValidDealerChair(last.dealerchair)
    case UserCards =>
      table.userHasKnownCards
      && now.playercards.0 != last.playercards.0 && now.playercards.1 != last.playercards.1
    case HandNumber =>
      && now.handnumber != last.handnumber
      && table.IsValidHandNumber(now.handnumber) && table.IsValidHandNumber(last.handnumber)
    case CommunityCards => now.communityCards < last.communityCards && now.communityCards == 0
    case Potsize =>
      now.potsize < last.potsize && table.bblind <= now.potsize < 6.0 * table.bblind && now.communityCards == 0
    case OpponentsPlaying => now.nopponentsplaying > last.nopponentsplaying && now.communityCards == 0
    case IncreasingBalance => Increased(now.balances, last.balances)
    case BlindLevel => now.bblind != last.bblind && now.bblind != 0.0 && last.bblind != 0.0
    case NewSmallBlind =>
      table.SmallBlindExists(now.bblind) && !smallBlindExisted && now.communityCards == 0
  }

  ghost function Firing(now: Symbols, last: Symbols, smallBlindExisted: bool, table: Table): set<Method>
    requires now.Valid() && last.Valid() && table.Valid()
  {
    set m: Method | Fires(m, now, last, smallBlindExisted, table)
  }

  lemma {:induction false} RunOfPrefix(start: State, beats: seq<Beat>, beat: Beat, n: nat)
    requires n <= |beats|
    ensures Run(start, beats + [beat], n) == Run(start, beats, n)
  {
    hide Step;
    if n > 0 {
      RunOfPrefix(start, beats, beat, n - 1);
    }
  }

  lemma {:induction false} RunOfMore(start: State, beats: seq<Beat>, beat: Beat)
    ensures Run(start, beats + [beat], |beats| + 1) == Step(Run(start, beats, |beats|), beat)
  {
    RunOfPrefix(start, beats, beat, |beats|);
  }

  // ---------- What is compared ----------

  /** The symbols of this and of the last heartbeat. */
  datatype View = View(now: Symbols, last: Symbols, smallBlindExisted: bool)
  {
    predicate Valid() {
      now.Valid() && last.Valid()
    }
  }

  /** The symbols after a heartbeat. The code does not store balances; `stores` is
      for a detector that does. */
  ghost function NextView(v: View, table: Table, stores: bool): (w: View)
    requires v.Valid() && table.Valid()
    ensures w.Valid()
  {
    var now := v.now.Updated(table);
    View(now, if stores then now else now.(balances := v.last.balances), table.SmallBlindExists(now.bblind))
  }

  /** The beat that a heartbeat brings. */
  ghost function BeatOf(v: View, table: Table): Beat
    requires v.Valid() && table.Valid()
  {
    Beat(Firing(v.now.Updated(table), v.last, v.smallBlindExisted, table), table.nopponentsdealt == 1)
  }

  predicate AllValid(tables: seq<Table>) {
    forall t | t in tables :: t.Valid()
  }

  /** The symbols after all heartbeats of a history. */
  ghost function ViewAfter(v: View, tables: seq<Table>, stores: bool): (w: View)
    requires v.Valid() && AllValid(tables)
    ensures w.Valid()
  {
    if tables == [] then v
    else NextView(ViewAfter(v, tables[..|tables| - 1], stores), tables[|tables| - 1], stores)
  }

  /** The beats of a history. */
  ghost function BeatsOf(v: View, tables: seq<Table>, stores: bool): (beats: seq<Beat>)
    requires v.Valid() && AllValid(tables)
    ensures |beats| == |tables|
  {
    if tables == [] then []
    else
      var before := tables[..|tables| - 1];
      BeatsOf(v, before, stores) + [BeatOf(ViewAfter(v, before, stores), tables[|tables| - 1])]
  }

  lemma OneMoreTable(v: View, tables: seq<Table>, table: Table, stores: bool)
    requires v.Valid() && AllValid(tables) && table.Valid()
    ensures AllValid(tables + [table])
    ensures ViewAfter(v, tables + [table], stores) == NextView(ViewAfter(v, tables, stores), table, stores)
    ensures BeatsOf(v, tables + [table], stores)
            == BeatsOf(v, tables, stores) + [BeatOf(ViewAfter(v, tables, stores), table)]
  {
    assert (tables + [table])[..|tables|] == tables;
  }

  // ---------- The methods by the history ----------

  /** The last dealer chair that was one when it was shown. */
  function LatestChair(initial: int, tables: seq<Table>): int {
    if tables == [] then initial
    else
      var t := tables[|tables| - 1];
      if 0 <= t.dealerchair < t.nchairs then t.dealerchair else LatestChair(initial, tables[..|tables| - 1])
  }

  /** The number has as many digits as the table expects, if it expects any. */
  predicate HasDigits(t: Table, number: string) {
    t.minDigits <= 0 || t.maxDigits <= 0 || t.minDigits <= |number| <= t.maxDigits
  }

  /** The last hand number that had the expected number of digits. */
  function LatestNumber(initial: string, tables: seq<Table>): string {
    if tables == [] then initial
    else
      var t := tables[|tables| - 1];
      if HasDigits(t, t.handnumber) then t.handnumber else LatestNumber(initial, tables[..|tables| - 1])
  }

  /** The cards of the user's chair, if there is one. */
  function CardsOf(t: Table): (int, int)
    requires t.Valid()
  {
    if 0 <= t.userchair < t.nchairs then t.holeCards[t.userchair] else (CARD_UNDEFINED, CARD_UNDEFINED)
  }

  ghost predicate ShowsSmallBlind(t: Table)
    requires t.Valid()
  {
    exists i | 0 <= i < t.nchairs :: 0.0 < t.bets[i] && t.bets[i] < t.bblind
  }

  /** What a heartbeat is compared with. */
  datatype Shown = Shown(chair: int, cards: (int, int), handnumber: string, pot: real, commonCards: int,
                         opponents: int, bblind: real, smallBlind: bool)

  /** What the heartbeats before have shown; for the first one, what the detector happens
      to hold. */
  ghost function ShownBy(v: View, tables: seq<Table>): Shown
    requires v.Valid() && AllValid(tables)
  {
    if tables == [] then
      Shown(v.last.dealerchair, v.last.playercards, v.last.handnumber, v.last.potsize, v.last.communityCards,
            v.last.nopponentsplaying, v.last.bblind, v.smallBlindExisted)
    else
      var t := tables[|tables| - 1];
      Shown(LatestChair(v.now.dealerchair, tables), CardsOf(t), LatestNumber(v.now.handnumber, tables), t.pot,
            t.commonCards, t.nopponentsplaying, t.bblind, ShowsSmallBlind(t))
  }

  /** Whether a method fires at the last of these heartbeats. */
  ghost predicate HistoryTells(m: Method, v: View, tables: seq<Table>)
    requires v.Valid() && AllValid(tables) && tables != []
  {
    var t := tables[|tables| - 1];
    var before := ShownBy(v, tables[..|tables| - 1]);
    match m
    case DealerChair =>
      // another chair than before, and both are chairs of this table
      var chair := LatestChair(v.now.dealerchair, tables);
      chair != before.chair && 0 <= chair < t.nchairs && 0 <= before.chair < t.nchairs
    case UserCards =>
      // known cards, and both are others than before
      t.userHasKnownCards && CardsOf(t).0 != before.cards.0 && CardsOf(t).1 != before.cards.1
    case HandNumber =>
      var number := LatestNumber(v.now.handnumber, tables);
      number != before.handnumber && HasDigits(t, number) && HasDigits(t, before.handnumber)
    case CommunityCards => t.commonCards == 0 && before.commonCards > 0
    case Potsize =>
      // less than before, and between one and six big blinds before the flop
      t.pot < before.pot && t.pot >= t.bblind && t.pot < 6.0 * t.bblind && t.commonCards == 0
    case OpponentsPlaying => t.nopponentsplaying > before.opponents && t.commonCards == 0
    case IncreasingBalance =>
      exists i | 0 <= i < MAX_PLAYERS :: v.last.balances[i] > 0.0 && t.balances[i] > v.last.balances[i]
    case BlindLevel => t.bblind != 0.0 && before.bblind != 0.0 && t.bblind != before.bblind
    case NewSmallBlind => t.commonCards == 0 && ShowsSmallBlind(t) && !before.smallBlind
  }

  /** These are the methods that fire at the last of these heartbeats. */
  ghost predicate AreTold(fired: set<Method>, v: View, tables: seq<Table>)
    requires v.Valid() && AllValid(tables) && tables != []
  {
    forall m: Method :: m in fired <==> HistoryTells(m, v, tables)
  }

  lemma {:induction false} ViewShows(v: View, tables: seq<Table>)
    requires v.Valid() && AllValid(tables)
    ensures var w := ViewAfter(v, tables, false);
            && w.now.dealerchair == LatestChair(v.now.dealerchair, tables)
            && w.now.handnumber == LatestNumber(v.now.handnumber, tables)
            && w.last.balances == v.last.balances
            && Shown(w.last.dealerchair, w.last.playercards, w.last.handnumber, w.last.potsize, w.last.communityCards,
                     w.last.nopponentsplaying, w.last.bblind, w.smallBlindExisted) == ShownBy(v, tables)
  {
    if tables != [] {
      ViewShows(v, tables[..|tables| - 1]);
      var t := tables[|tables| - 1];
      assert t.Valid();
      assert ShowsSmallBlind(t) <==> t.SmallBlindExists(t.bblind);
    }
  }

  lemma LatestOfMore(v: View, tables: seq<Table>)
    requires v.Valid() && AllValid(tables) && tables != []
    ensures var before, t := tables[..|tables| - 1], tables[|tables| - 1];
            var now := ViewAfter(v, before, false).now.Updated(t);
            && now.dealerchair == LatestChair(v.now.dealerchair, tables)
            && now.handnumber == LatestNumber(v.now.handnumber, tables)
  {
    ViewShows(v, tables[..|tables| - 1]);
  }

  lemma FiringIsTold(m: Method, v: View, tables: seq<Table>)
    requires v.Valid() && AllValid(tables) && tables != []
    ensures var w, t := ViewAfter(v, tables[..|tables| - 1], false), tables[|tables| - 1];
            Fires(m, w.now.Updated(t), w.last, w.smallBlindExisted, t) <==> HistoryTells(m, v, tables)
  {
    hide ViewAfter, LatestChair, LatestNumber, ShownBy;
    ViewShows(v, tables[..|tables| - 1]);
    LatestOfMore(v, tables);
    var t := tables[|tables| - 1];
    assert t.Valid();
    assert ShowsSmallBlind(t) <==> t.SmallBlindExists(t.bblind);
  }

  /** A method fires at a heartbeat exactly when what it shows and what was shown before
      tell so. */
  lemma MethodsFollowHistory(v: View, tables: seq<Table>)
    requires v.Valid() && AllValid(tables) && tables != []
    ensures AreTold(BeatsOf(v, tables, false)[|tables| - 1].fired, v, tables)
  {
    hide Fires, HistoryTells, ViewAfter;
    assert tables[|tables| - 1].Valid();
    forall m: Method
      ensures m in BeatsOf(v, tables, false)[|tables| - 1].fired <==> HistoryTells(m, v, tables)
    {
      FiringIsTold(m, v, tables);
    }
  }

  // ---------- Balances that are never stored ----------

  /** Where one of two balances is positive they are the same. */
  predicate SameWherePositive(a: seq<real>, b: seq<real>)
    requires |a| == |b| == MAX_PLAYERS
  {
    forall i | 0 <= i < MAX_PLAYERS :: a[i] == b[i] || (a[i] <= 0.0 && b[i] <= 0.0)
  }

  /** Zero for all players but one. */
  function OneBalance(i: nat, x: real): (balances: seq<real>)
    requires i < MAX_PLAYERS
    ensures |balances| == MAX_PLAYERS
    ensures forall k | 0 <= k < MAX_PLAYERS :: balances[k] == if k == i then x else 0.0
  {
    seq(MAX_PLAYERS, k => if k == i then x else 0.0)
  }

  lemma OneBalanceIncreased(i: nat, x: real, compared: seq<real>)
    requires i < MAX_PLAYERS && |compared| == MAX_PLAYERS
    ensures Increased(OneBalance(i, x), compared) <==> x > compared[i] > 0.0
  {
    if x > compared[i] > 0.0 {
      assert OneBalance(i, x)[i] > compared[i] > 0.0;
    }
  }

  /** Comparing with other balances than the previous ones decides every time as
      meant if and only if they are the same wherever one of them is positive. */
  lemma OtherBalancesDecideRightlyWhen(compared: seq<real>, previous: seq<real>)
    requires |compared| == |previous| == MAX_PLAYERS
    ensures (forall now: seq<real> | |now| == MAX_PLAYERS :: Increased(now, compared) <==> Increased(now, previous))
       <==> SameWherePositive(compared, previous)
  {
    if SameWherePositive(compared, previous) {
      forall now: seq<real> | |now| == MAX_PLAYERS ensures Increased(now, compared) <==> Increased(now, previous) {
        forall i | 0 <= i < MAX_PLAYERS ensures now[i] > compared[i] > 0.0 <==> now[i] > previous[i] > 0.0 {
        }
      }
    } else {
      var i :| 0 <= i < MAX_PLAYERS && compared[i] != previous[i] && (compared[i] > 0.0 || previous[i] > 0.0);
      var higher := if compared[i] > previous[i] then compared[i] else previous[i];
      var x := if compared[i] > 0.0 && previous[i] > 0.0 then higher else higher + 1.0;
      OneBalanceIncreased(i, x, compared);
      OneBalanceIncreased(i, x, previous);
    }
  }

  /** A heartbeat at which nothing fires but a new hand number or higher balances. */
  function QuietTable(handnumber: string, balances: seq<real>): (table: Table)
    requires |balances| == MAX_PLAYERS
    ensures table.Valid()
  {
    Table(UNDEFINED, UNDEFINED, 2, false, seq(MAX_PLAYERS, i => (0, 0)), handnumber, 0, 0, 0.0, 3, 0, 0, 0.0,
          balances, seq(MAX_PLAYERS, i => 0.0))
  }

  lemma QuietBeat(v: View, handnumber: string, balances: seq<real>, stores: bool)
    requires v.Valid() && |balances| == MAX_PLAYERS
    ensures var w := NextView(v, QuietTable(handnumber, balances), stores);
            && w.now.dealerchair == w.last.dealerchair && w.last.handnumber == handnumber
            && w.last.balances == if stores then balances else v.last.balances
    ensures v.now.dealerchair == v.last.dealerchair ==>
              BeatOf(v, QuietTable(handnumber, balances)).fired
              == (if handnumber != v.last.handnumber then {HandNumber} else {})
                 + (if Increased(balances, v.last.balances) then {IncreasingBalance} else {})
  {
  }

  const ZERO: seq<real> := [0.0, 0.0, 0.0, 0.0, 0.0, 0.0, 0.0, 0.0, 0.0, 0.0]

  lemma ZeroIsNoIncrease(compared: seq<real>)
    requires |compared| == MAX_PLAYERS
    ensures !Increased(ZERO, compared) && !Increased(compared, ZERO)
  {
  }

  /** Three heartbeats with empty seats, one with some balances, and one with other
      balances and a new hand number. */
  function Heartbeats(first: seq<real>, second: seq<real>): (tables: seq<Table>)
    requires |first| == |second| == MAX_PLAYERS
    ensures AllValid(tables) && |tables| == 5
  {
    [QuietTable("", ZERO), QuietTable("", ZERO), QuietTable("", ZERO), QuietTable("", first), QuietTable("1", second)]
  }

  class Detector {
    var now: Symbols
    var last: Symbols
    var smallBlindExisted: bool
    const slots: array<bv32>
    var isReset: bool
    var handsPlayed: nat
    var handsPlayedHeadsup: nat

    ghost const start: State
    ghost const first: View
    ghost var tables: seq<Table>
    ghost var beats: seq<Beat>

    /** The detector is where its run has taken it, and the balances it compares
        with are still those of its construction. */
    ghost predicate Valid()
      reads this, slots
    {
      && slots.Length == 3 && first.Valid() && AllValid(tables)
      && View(now, last, smallBlindExisted) == ViewAfter(first, tables, false)
      && beats == BeatsOf(first, tables, false)
      && last.balances == first.last.balances
      && State(slots[0], slots[1], slots[2], isReset, handsPlayed, handsPlayedHeadsup)
         == Run(start, beats, |beats|)
    }

    /** The slots, the symbols and the old values keep what they happen to hold. */
    constructor (garbage: array<bv32>, before: View)
      requires garbage.Length == 3 && before.Valid()
      ensures Valid() && tables == [] && slots == garbage
      ensures start == State(garbage[0], garbage[1], garbage[2], false, 0, 0)
      ensures first.last == before.last && first.now.dealerchair == UNDEFINED && first.now.handnumber == ""
    {
      var undefined := before.now.(playercards := (CARD_UNDEFINED, CARD_UNDEFINED), dealerchair := UNDEFINED,
                                   handnumber := "");
      now, last, smallBlindExisted := undefined, before.last, before.smallBlindExisted;
      first := before.(now := undefined);
      slots := garbage;
      isReset, handsPlayed, handsPlayedHeadsup := false, 0, 0;
      start := State(garbage[0], garbage[1], garbage[2], false, 0, 0);
      tables, beats := [], [];
    }

    method SmallBlindExists(table: Table) returns (found: bool)
      requires table.Valid()
      ensures found == table.SmallBlindExists(now.bblind)
    {
      for i := 0 to table.nchairs
        invariant forall k | 0 <= k < i :: !(0.0 < table.bets[k] < now.bblind)
      {
        if 0.0 < table.bets[i] && table.bets[i] < now.bblind {
          return true;
        }
      }
      return false;
    }

    method IsHandresetByIncreasingBalance(table: Table) returns (fires: bool)
      requires now.Valid() && last.Valid() && table.Valid()
      ensures fires == Fires(IncreasingBalance, now, last, smallBlindExisted, table)
    {
      for i := 0 to MAX_PLAYERS
        invariant forall k | 0 <= k < i :: !(now.balances[k] > last.balances[k] > 0.0)
      {
        if now.balances[i] > last.balances[i] && last.balances[i] > 0.0 {
          return true;
        }
      }
      return false;
    }

    method IsHandresetBy(m: Method, table: Table) returns (fires: bool)
      requires now.Valid() && last.Valid() && table.Valid()
      ensures fires == Fires(m, now, last, smallBlindExisted, table)
    {
      match m
      case DealerChair =>
        fires := now.dealerchair != last.dealerchair
          && table.IsValidDealerChair(now.dealerchair) && table.IsValidDealerChair(last.dealerchair);
      case UserCards =>
        fires := table.userHasKnownCards
          && now.playercards.0 != last.playercards.0 && now.playercards.1 != last.playercards.1;
      case HandNumber =>
        fires := now.handnumber != last.handnumber
          && table.IsValidHandNumber(now.handnumber) && table.IsValidHandNumber(last.handnumber);
      case CommunityCards =>
        fires := now.communityCards < last.communityCards && now.communityCards == 0;
      case Potsize =>
        fires := now.potsize < last.potsize && now.potsize >= table.bblind
          && now.potsize < 6.0 * table.bblind && now.communityCards == 0;
      case OpponentsPlaying =>
        fires := now.nopponentsplaying > last.nopponentsplaying && now.communityCards == 0;
      case IncreasingBalance =>
        fires := IsHandresetByIncreasingBalance(table);
      case BlindLevel =>
        fires := now.bblind != last.bblind && now.bblind != 0.0 && last.bblind != 0.0;
      case NewSmallBlind =>
        var smallBlind := SmallBlindExists(table);
        fires := smallBlind && !smallBlindExisted && now.communityCards == 0;
    }

    method BitVectorFiringHandresetMethods(table: Table) returns (fired: bv32)
      requires now.Valid() && last.Valid() && table.Valid()
      ensures fired == Bits(Firing(now, last, smallBlindExisted, table))
    {
      hide Appended, Fires;
      var bit := IsHandresetBy(DealerChair, table);
      fired := Appended(0, bit);
      bit := IsHandresetBy(UserCards, table);
      fired := Appended(fired, bit);
      bit := IsHandresetBy(HandNumber, table);
      fired := Appended(fired, bit);
      bit := IsHandresetBy(CommunityCards, table);
      fired := Appended(fired, bit);
      bit := IsHandresetBy(Potsize, table);
      fired := Appended(fired, bit);
      bit := IsHandresetBy(OpponentsPlaying, table);
      fired := Appended(fired, bit);
      bit := IsHandresetBy(IncreasingBalance, table);
      fired := Appended(fired, bit);
      bit := IsHandresetBy(BlindLevel, table);
      fired := Appended(fired, bit);
      bit := IsHandresetBy(NewSmallBlind, table);
      fired := Appended(fired, bit);
    }

    /** The vote of this heartbeat; the new beat is not yet part of the history. */
    method CalculateIsHandreset(table: Table)
      requires slots.Length == 3 && now.Valid() && last.Valid() && table.Valid()
      requires State(slots[0], slots[1], slots[2], isReset, handsPlayed, handsPlayedHeadsup)
               == Run(start, beats, |beats|)
      modifies this`isReset, this`handsPlayed, this`handsPlayedHeadsup, slots
      ensures State(slots[0], slots[1], slots[2], isReset, handsPlayed, handsPlayedHeadsup)
              == Step(Run(start, beats, |beats|),
                      Beat(Firing(now, last, smallBlindExisted, table), table.nopponentsdealt == 1))
    {
      hide Bits, DifferentBits, Firing, Run;
      slots[2] := slots[1];
      slots[1] := slots[0];
      slots[0] := BitVectorFiringHandresetMethods(table);
      if DifferentBits(slots[2], slots[1], slots[0]) {
        isReset := true;
        handsPlayed := handsPlayed + 1;
        if table.nopponentsdealt == 1 {
          handsPlayedHeadsup := handsPlayedHeadsup + 1;
        } else {
          handsPlayedHeadsup := 0;
        }
        slots[0] := 0;
        slots[1] := 0;
        slots[2] := 0;
      } else {
        isReset := false;
      }
    }

    /** The old balances are not stored. */
    method StoreOldValuesForComparisonOnNextHeartbeat(table: Table)
      requires now.Valid() && last.Valid() && table.Valid()
      modifies this`last, this`smallBlindExisted
      ensures last == now.(balances := old(last.balances))
      ensures smallBlindExisted == table.SmallBlindExists(now.bblind)
    {
      last := now.(balances := last.balances);
      smallBlindExisted := SmallBlindExists(table);
    }

    /** GetNewSymbolValues(), CalculateIsHandreset() and storing the old values. */
    method Heartbeat(t: Table)
      requires Valid() && t.Valid()
      modifies this, slots
      ensures Valid() && tables == old(tables) + [t]
      ensures now == old(now).Updated(t)
      ensures beats == old(beats) + [BeatOf(View(old(now), old(last), old(smallBlindExisted)), t)]
    {
      hide Firing, Step, Run, ViewAfter, BeatsOf, AllValid, Symbols.Updated;
      ghost var view := View(now, last, smallBlindExisted);
      OneMoreTable(first, tables, t, false);
      RunOfMore(start, beats, BeatOf(view, t));
      now := now.Updated(t);
      CalculateIsHandreset(t);
      StoreOldValuesForComparisonOnNextHeartbeat(t);
      tables := tables + [t];
      beats := beats + [BeatOf(view, t)];
    }

    /** One heartbeat, or nothing as long as there are no symbol engines. With
        cleared slots at the start, the report afterwards is the vote over the
        history, and the history tells which methods fire; balances are compared with
        those of the construction. */
    method OnNewHeartbeat(table: Option<Table>)
      requires Valid() && (table.Some? ==> table.value.Valid())
      modifies this, slots
      ensures Valid()
      ensures table.None? ==> unchanged(this) && unchanged(slots)
      ensures table.Some? ==> tables == old(tables) + [table.value] && now == old(now).Updated(table.value)
      ensures table.Some? ==>
                AreTold(beats[|beats| - 1].fired, first, tables)
                && (beats[|beats| - 1].headsup <==> table.value.nopponentsdealt == 1)
      ensures table.Some? ==>
                (IncreasingBalance in beats[|beats| - 1].fired <==>
                   Increased(table.value.balances, first.last.balances))
      ensures table.Some? && start.newest == 0 && start.middle == 0 ==> isReset == ResetAt(beats, |beats| - 1)
    {
      if table.None? { return; }
      hide Firing, ResetAt, Step, Run, Increased, ViewAfter, BeatOf, BeatsOf, Symbols.Updated, AreTold;
      ghost var view := View(now, last, smallBlindExisted);
      Heartbeat(table.value);
      IncreaseIsFiring(view, table.value);
      MethodsFollowHistory(first, tables);
      LastReport(start, beats);
    }
  }

  lemma LastReport(start: State, beats: seq<Beat>)
    requires beats != []
    ensures start.newest == 0 && start.middle == 0 ==>
              Run(start, beats, |beats|).isReset == ResetAt(beats, |beats| - 1)
  {
    hide Step, ResetAt, Run;
    if start.newest == 0 && start.middle == 0 {
      OldestSlotIsForgotten(start, beats, |beats|);
      ResetsFollowHistory(beats, |beats|);
    }
  }

  lemma IncreaseIsFiring(v: View, table: Table)
    requires v.Valid() && table.Valid()
    ensures IncreasingBalance in BeatOf(v, table).fired <==> Increased(table.balances, v.last.balances)
    ensures BeatOf(v, table).headsup <==> table.nopponentsdealt == 1
  {
    hide Increased;
  }

  // ---------- What that does to the reports ----------

  /** The beats of those heartbeats: at the last one a new hand number, and balances
      that seem to have increased at the last two. */
  lemma BeatsOfHeartbeats(v: View, first: seq<real>, second: seq<real>, stores: bool)
    requires v.Valid() && |first| == |second| == MAX_PLAYERS
    ensures var beats := BeatsOf(v, Heartbeats(first, second), stores);
            var g := v.last.balances;
            && beats[1].fired == {} && beats[2].fired == {}
            && beats[3].fired == (if Increased(first, if stores then ZERO else g) then {IncreasingBalance} else {})
            && beats[4].fired == {HandNumber}
                 + (if Increased(second, if stores then first else g) then {IncreasingBalance} else {})
  {
    hide BeatOf, NextView, Increased, QuietTable;
    var zero, a, b := QuietTable("", ZERO), QuietTable("", first), QuietTable("1", second);
    var v0 := v;
    var v1 := NextView(v0, zero, stores);
    var v2 := NextView(v1, zero, stores);
    var v3 := NextView(v2, zero, stores);
    var v4 := NextView(v3, a, stores);
    QuietBeat(v0, "", ZERO, stores);
    QuietBeat(v1, "", ZERO, stores);
    QuietBeat(v2, "", ZERO, stores);
    QuietBeat(v3, "", first, stores);
    QuietBeat(v4, "1", second, stores);
    ZeroIsNoIncrease(v1.last.balances);
    ZeroIsNoIncrease(v2.last.balances);
    BeatsOneByOne(v, zero, zero, zero, a, b, stores);
  }

  lemma BeatsOneByOne(v: View, a: Table, b: Table, c: Table, d: Table, e: Table, stores: bool)
    requires v.Valid() && a.Valid() && b.Valid() && c.Valid() && d.Valid() && e.Valid()
    ensures var v1 := NextView(v, a, stores);
            var v2 := NextView(v1, b, stores);
            var v3 := NextView(v2, c, stores);
            var v4 := NextView(v3, d, stores);
            BeatsOf(v, [a, b, c, d, e], stores)
            == [BeatOf(v, a), BeatOf(v1, b), BeatOf(v2, c), BeatOf(v3, d), BeatOf(v4, e)]
  {
    hide BeatOf, NextView, BeatsOf, ViewAfter;
    NoTables(v, stores);
    OneMoreTable(v, [], a, stores);
    OneMoreTable(v, [a], b, stores);
    OneMoreTable(v, [a, b], c, stores);
    OneMoreTable(v, [a, b, c], d, stores);
    OneMoreTable(v, [a, b, c, d], e, stores);
    assert [] + [a] == [a] && [a] + [b] == [a, b] && [a, b] + [c] == [a, b, c];
    assert [a, b, c] + [d] == [a, b, c, d] && [a, b, c, d] + [e] == [a, b, c, d, e];
  }

  lemma NoTables(v: View, stores: bool)
    requires v.Valid()
    ensures ViewAfter(v, [], stores) == v && BeatsOf(v, [], stores) == []
  {
  }

  /** After two quiet heartbeats the vote is about the last two. */
  lemma VoteOnLastTwo(beats: seq<Beat>)
    requires |beats| == 5 && beats[1].fired == {} && beats[2].fired == {} && beats[3].fired <= {IncreasingBalance}
    requires HandNumber in beats[4].fired && beats[4].fired <= {HandNumber, IncreasingBalance}
    ensures ResetAt(beats, 4) <==>
              IncreasingBalance in beats[3].fired || IncreasingBalance in beats[4].fired
  {
    assert !ResetAt(beats, 3) by {
      assert Unused(beats, 1, 3) == {} && Unused(beats, 2, 3) == {};
    }
    assert Unused(beats, 2, 4) == {} && Unused(beats, 3, 4) == beats[3].fired;
  }

  /** At the last of the heartbeats the detector's report is not that of one that stores balances. */
  ghost predicate LastReportDiffers(v: View, tables: seq<Table>)
    requires v.Valid() && AllValid(tables)
  {
    var k := |tables| - 1;
    tables != [] && ResetAt(BeatsOf(v, tables, false), k) != ResetAt(BeatsOf(v, tables, true), k)
  }

  /** Whatever the old balances hold when the detector is constructed, there is a
      history in which its report is not that of a detector that stores balances. */
  lemma NoOldBalancesReportRightly(v: View)
    requires v.Valid()
    ensures exists tables: seq<Table> :: AllValid(tables) && LastReportDiffers(v, tables)
  {
    hide BeatsOf, Heartbeats, ResetAt, Increased;
    var g := v.last.balances;
    var i: nat, first, second := 0, OneBalance(0, 1.0), OneBalance(0, 2.0);
    if k :| 0 <= k < MAX_PLAYERS && g[k] > 0.0 {
      i := k;
      first, second := OneBalance(k, g[k] + 1.0), OneBalance(k, g[k] + 1.0);
    }
    OneBalanceIncreased(i, first[i], g);
    OneBalanceIncreased(i, second[i], g);
    OneBalanceIncreased(i, second[i], first);
    OneBalanceIncreased(i, first[i], ZERO);
    var tables := Heartbeats(first, second);
    BeatsOfHeartbeats(v, first, second, false);
    BeatsOfHeartbeats(v, first, second, true);
    VoteOnLastTwo(BeatsOf(v, tables, false));
    VoteOnLastTwo(BeatsOf(v, tables, true));
    assert AllValid(tables) && LastReportDiffers(v, tables);
  }
}
