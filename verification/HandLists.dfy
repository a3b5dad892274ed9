/** Hand lists (COHScriptList.cpp): the matrix of hands, the text generated from
    it, and the parsing of that text (CFormulaParser::ParseListBody()). */
module HandLists {
  import opened Common

  const RANKS := 13
  const RANK_ACE := 14
  const UNDEFINED := -1

  type Rank = r: int | 2 <= r <= 14 witness 2

  /** A cell of the matrix: row and column. */
  type Cell = c: (nat, nat) | c.0 < 13 && c.1 < 13 witness (0, 0)

  // ---------- Hands and cells ----------

  /** The cell that two ranks in this order stand for: suited if the first one
      is higher. */
  function CellAt(first: Rank, second: Rank): Cell { (second - 2, first - 2) }

  function CellOf(first: Rank, second: Rank, suited: bool): Cell {
    var high := if first < second then second else first;
    var low := if first < second then first else second;
    if suited then CellAt(high, low) else CellAt(low, high)
  }

  /** Two descriptions mean the same cell exactly when they have the same two
      ranks in any order, and the same suitedness unless it is a pair. */
  lemma CellsAreHands(first: Rank, second: Rank, suited: bool, first': Rank, second': Rank, suited': bool)
    ensures CellOf(first, second, suited) == CellOf(first', second', suited') <==>
              multiset{first, second} == multiset{first', second'} && (suited == suited' || first == second)
  {
    var m, m' := multiset{first, second}, multiset{first', second'};
    if m == m' {
      assert first in m' && second in m' && first' in m && second' in m;
    } else {
      assert !(first == first' && second == second') && !(first == second' && second == first');
    }
  }

  /** Once a hand is set, IsOnList() tells so for that hand, in either order of
      the ranks, and every other hand is as it was. */
  lemma SetChangesOneHand(cells: set<Cell>, first: Rank, second: Rank, suited: bool,
                          first': Rank, second': Rank, suited': bool)
    ensures CellOf(first', second', suited') in cells + {CellOf(first, second, suited)} <==>
              || CellOf(first', second', suited') in cells
              || (multiset{first, second} == multiset{first', second'} && (suited == suited' || first == second))
  {
    hide CellOf;
    CellsAreHands(first, second, suited, first', second', suited');
  }

  // ---------- Tokens of a list ----------

  predicate IsDigit(c: char) { '0' <= c <= '9' }

  predicate IsAlpha(c: char) { 'a' <= c <= 'z' || 'A' <= c <= 'Z' }

  predicate IsHexDigit(c: char) { IsDigit(c) || 'a' <= c <= 'f' || 'A' <= c <= 'F' }

  predicate InIdentifier(c: char) { IsAlpha(c) || IsDigit(c) || c == '$' || c == '_' }

  predicate InNumber(c: char) { IsHexDigit(c) || c == '.' || c == 'x' }

  const KEYWORDS := {"or", "not", "mod", "and", "xor", "set", "when", "bitor", "delay", "force",
                     "return", "bitand", "bitxor", "bitnot"}

  function RankOf(c: char): int {
    if '2' <= c <= '9' then c as int - '0' as int
    else if c == 'T' || c == 't' then 10
    else if c == 'J' || c == 'j' then 11
    else if c == 'Q' || c == 'q' then 12
    else if c == 'K' || c == 'k' then 13
    else if c == 'A' || c == 'a' then 14
    else UNDEFINED
  }

  predicate IsCardRankCharacter(c: char) { IsDigit(c) || RankOf(c) != UNDEFINED }

  /** The position after a run of characters of one kind. */
  function RunEnd(text: string, from: nat, kind: char -> bool): (end: nat)
    requires from <= |text|
    ensures from <= end <= |text|
    ensures forall i | from <= i < end :: kind(text[i])
    ensures end < |text| ==> !kind(text[end])
    decreases |text| - from
  {
    if from < |text| && kind(text[from]) then RunEnd(text, from + 1, kind) else from
  }

  lemma {:induction false} RunEndIs(text: string, from: nat, kind: char -> bool, end: nat)
    requires from <= end <= |text|
    requires forall i | from <= i < end :: kind(text[i])
    requires end < |text| ==> !kind(text[end])
    ensures RunEnd(text, from, kind) == end
    decreases end - from
  {
    if from < end {
      RunEndIs(text, from + 1, kind, end);
    }
  }

  datatype Token = Hand(word: string) | EndOfFunction | Unexpected

  /** A digit, a card and an "s" or "o" are a hand; everything else that starts
      with a digit is a number. */
  predicate IsSuitedDigits(text: string, i: nat) {
    && i + 2 < |text| && IsCardRankCharacter(text[i + 1])
    && (Lower(text[i + 2]) == 's' || Lower(text[i + 2]) == 'o')
  }

  predicate InLine(c: char) { c != '\n' }

  predicate StartsComment(text: string, i: nat, second: char) {
    i + 1 < |text| && text[i] == '/' && text[i + 1] == second
  }

  /** The position of the star and the slash that end a comment, if there are any. */
  function StarSlash(text: string, from: nat): (end: nat)
    requires from <= |text|
    ensures from <= end <= |text|
    ensures end < |text| ==> end + 1 < |text| && text[end] == '*' && text[end + 1] == '/'
    ensures forall i | from <= i < end && i + 1 < |text| :: !(text[i] == '*' && text[i + 1] == '/')
    decreases |text| - from
  {
    if from + 1 >= |text| then |text|
    else if text[from] == '*' && text[from + 1] == '/' then from
    else StarSlash(text, from + 1)
  }

  predicate StartsWord(c: char) { IsAlpha(c) || c == '$' || IsDigit(c) || c == '.' }

  /** An identifier, a number or a hand, and the position after it. */
  function WordAt(text: string, i: nat): (r: (Token, nat))
    requires i < |text| && StartsWord(text[i])
    ensures i < r.1 <= |text|
  {
    if IsAlpha(text[i]) || text[i] == '$' then
      var end := RunEnd(text, i, InIdentifier);
      (if LowerCase(text[i..end]) in KEYWORDS then Unexpected else Hand(text[i..end]), end)
    else
      var end := if IsSuitedDigits(text, i) then i + 3 else RunEnd(text, i, InNumber);
      (Hand(text[i..end]), end)
  }

  /** The token that starts here, or the one after a comment. The search for the end
      of a comment begins at its first slash, so three characters may be a whole
      comment; one that does not end is no token. */
  function TokenAt(text: string, i: nat): (r: (Token, nat))
    requires i <= |text|
    ensures i <= r.1 <= |text| && (r.0.Hand? ==> i < r.1)
    decreases |text| - i, 0
  {
    if i == |text| then (EndOfFunction, i)
    else if StartsWord(text[i]) then WordAt(text, i)
    else if StartsComment(text, i, '/') then
      var end := RunEnd(text, i, InLine);
      if end == |text| then (Unexpected, i) else NextToken(text, end + 1)
    else if StartsComment(text, i, '*') then
      var end := StarSlash(text, i);
      if end == |text| then (Unexpected, i) else NextToken(text, end + 2)
    else (Unexpected, i)
  }

  /** The next token and the position after it. */
  function NextToken(text: string, from: nat): (r: (Token, nat))
    requires from <= |text|
    ensures from <= r.1 <= |text| && (r.0.Hand? ==> from < r.1)
    decreases |text| - from, 1
  {
    TokenAt(text, RunEnd(text, from, IsSpace))
  }

  // ---------- Parsing ----------

  /** The cell a list member stands for, if it is valid. */
  function CellOfWord(word: string): Option<Cell> {
    if |word| < 2 || |word| > 3 then None
    else
      var first, second := Lower(word[0]), Lower(word[1]);
      if RankOf(first) < 0 || RankOf(second) < 0 then None
      else if |word| == 2 then
        if first == second then Some(CellOf(RankOf(first), RankOf(second), false)) else None
      else if Lower(word[2]) == 's' then Some(CellOf(RankOf(first), RankOf(second), true))
      else if Lower(word[2]) == 'o' then Some(CellOf(RankOf(first), RankOf(second), false))
      else None
  }

  /** Whether a text is a proper list from a position on, and the cells it leaves
      set: parsing ends at the first word that is no hand. */
  function Parsed(text: string, from: nat, cells: set<Cell>): (bool, set<Cell>)
    requires from <= |text|
    decreases |text| - from
  {
    match NextToken(text, from)
    case (EndOfFunction, _) => (true, cells)
    case (Unexpected, _) => (false, cells)
    case (Hand(word), end) =>
      match CellOfWord(word)
      case None => (false, cells)
      case Some(cell) => Parsed(text, end, cells + {cell})
  }

  // ---------- Printing ----------

  function CharOf(rank: Rank): char { CARD_CHARS[rank - 2] }

  datatype HoleCards = HoleCards(first: Rank, second: Rank, suited: bool)

  /** A hand as the text has it; a pair has no suit. */
  function Word(h: HoleCards): string {
    [CharOf(h.first), CharOf(h.second)] + if h.first == h.second then "" else if h.suited then "s" else "o"
  }

  function Spelled(hands: seq<HoleCards>): string {
    if hands == [] then "" else Word(hands[0]) + " " + Spelled(hands[1..])
  }

  /** The pairs of a matrix, from i downwards. */
  function Pairs(cells: set<Cell>, i: int): seq<HoleCards>
    requires i <= RANK_ACE
    decreases i
  {
    if i < 2 then []
    else (if CellAt(i, i) in cells then [HoleCards(i, i, false)] else []) + Pairs(cells, i - 1)
  }

  /** The unpaired hands with the higher rank i and the lower one from j downwards. */
  function Row(cells: set<Cell>, suited: bool, i: int, j: int): seq<HoleCards>
    requires j < i <= RANK_ACE
    decreases j
  {
    if j < 2 then []
    else (if CellOf(i, j, suited) in cells then [HoleCards(i, j, suited)] else []) + Row(cells, suited, i, j - 1)
  }

  function Rows(cells: set<Cell>, suited: bool, i: int): seq<HoleCards>
    requires i <= RANK_ACE
    decreases i
  {
    if i < 2 then [] else Row(cells, suited, i, i - 1) + Rows(cells, suited, i - 1)
  }

  function Line(hands: seq<HoleCards>): string {
    if hands == [] then "" else Spelled(hands) + "\n"
  }

  /** Pairs, suited and offsuited hands, a line each. */
  function Text(cells: set<Cell>): string {
    Line(Pairs(cells, RANK_ACE)) + Line(Rows(cells, true, RANK_ACE)) + Line(Rows(cells, false, RANK_ACE))
  }

  // ---------- Round trip ----------

  lemma RankOfChar(rank: Rank)
    ensures RankOf(Lower(CharOf(rank))) == rank
    ensures IsCardRankCharacter(CharOf(rank))
    ensures if rank <= 9 then IsDigit(CharOf(rank)) else IsAlpha(CharOf(rank)) && CharOf(rank) in "TJQKA"
  {}

  lemma CharsDiffer(rank: Rank, rank': Rank)
    ensures Lower(CharOf(rank)) == Lower(CharOf(rank')) ==> rank == rank'
  {
    RankOfChar(rank);
    RankOfChar(rank');
  }

  /** Every word stands for its own cell. */
  lemma WordMeansItsCell(h: HoleCards)
    ensures CellOfWord(Word(h)) == Some(CellOf(h.first, h.second, h.suited))
  {
    RankOfChar(h.first);
    RankOfChar(h.second);
    CharsDiffer(h.first, h.second);
  }

  /** The word has the letter of this rank at that place, in either case. */
  predicate HasRank(word: string, i: nat, rank: Rank) {
    i < |word| && Lower(word[i]) == Lower(CharOf(rank))
  }

  lemma RankIsLetter(c: char)
    ensures RankOf(Lower(c)) >= 0 ==> 2 <= RankOf(Lower(c)) <= 14 && Lower(CharOf(RankOf(Lower(c)))) == Lower(c)
  {}

  /** Exactly these words are hands: a pair without a suit, and any two ranks with an "s"
      or an "o", in either letter case. Of a pair the suit does not matter. */
  lemma HandWordsAre(word: string, cell: Cell)
    ensures CellOfWord(word) == Some(cell) <==>
              || (exists r: Rank ::
                    |word| == 2 && HasRank(word, 0, r) && HasRank(word, 1, r) && cell == CellOf(r, r, false))
              || (exists r: Rank, q: Rank ::
                    && |word| == 3 && HasRank(word, 0, r) && HasRank(word, 1, q)
                    && ((Lower(word[2]) == 's' && cell == CellOf(r, q, true))
                        || (Lower(word[2]) == 'o' && cell == CellOf(r, q, false))))
  {
    hide CharOf, CellOf;
    if 2 <= |word| <= 3 {
      RankIsLetter(word[0]);
      RankIsLetter(word[1]);
      forall r: Rank ensures RankOf(Lower(CharOf(r))) == r { RankOfChar(r); }
      var first, second := RankOf(Lower(word[0])), RankOf(Lower(word[1]));
      if first >= 0 && second >= 0 {
        assert HasRank(word, 0, first) && HasRank(word, 1, second);
      }
    }
  }

  lemma WordIsNoKeyword(h: HoleCards)
    requires IsAlpha(CharOf(h.first))
    ensures LowerCase(Word(h)) !in KEYWORDS
  {
    RankOfChar(h.first);
    var l := LowerCase(Word(h));
    assert l[0] == Lower(CharOf(h.first));
    assert |l| == 3 ==> l[2] == Lower(Word(h)[2]) && l[2] in "so";
    assert l[0] in "tjqka";
  }

  /** A position of the text where this word is written, with a blank after it. */
  predicate WrittenAt(text: string, from: nat, word: string) {
    from + |word| < |text| && text[from..from + |word|] == word && text[from + |word|] == ' '
  }

  lemma WrittenChars(text: string, from: nat, word: string, i: nat)
    requires WrittenAt(text, from, word) && i < |word|
    ensures text[from + i] == word[i]
  {
    assert text[from..from + |word|][i] == text[from + i];
  }

  /** The higher rank comes first. */
  predicate Ordered(h: HoleCards) {
    h.first >= h.second
  }

  lemma IdentifierIsOneToken(text: string, from: nat, h: HoleCards)
    requires WrittenAt(text, from, Word(h)) && h.first > 9
    ensures StartsWord(text[from]) && !IsSpace(text[from]) && WordAt(text, from) == (Hand(Word(h)), from + |Word(h)|)
  {
    var w := Word(h);
    RankOfChar(h.first);
    RankOfChar(h.second);
    forall i | from <= i < from + |w| ensures InIdentifier(text[i]) {
      WrittenChars(text, from, w, i - from);
    }
    WordIsNoKeyword(h);
    hide KEYWORDS, LowerCase, CharOf, RankOf;
    RunEndIs(text, from, InIdentifier, from + |w|);
  }

  lemma NumberIsOneToken(text: string, from: nat, h: HoleCards)
    requires WrittenAt(text, from, Word(h)) && h.first == h.second <= 9
    ensures StartsWord(text[from]) && !IsSpace(text[from]) && WordAt(text, from) == (Hand(Word(h)), from + |Word(h)|)
  {
    var w := Word(h);
    RankOfChar(h.first);
    WrittenChars(text, from, w, 0);
    WrittenChars(text, from, w, 1);
    RunEndIs(text, from, InNumber, from + |w|);
  }

  lemma SuitedDigitsAreOneToken(text: string, from: nat, h: HoleCards)
    requires WrittenAt(text, from, Word(h)) && h.second < h.first <= 9
    ensures StartsWord(text[from]) && !IsSpace(text[from]) && WordAt(text, from) == (Hand(Word(h)), from + |Word(h)|)
  {
    var w := Word(h);
    RankOfChar(h.first);
    RankOfChar(h.second);
    WrittenChars(text, from, w, 0);
    WrittenChars(text, from, w, 1);
    WrittenChars(text, from, w, 2);
    assert IsSuitedDigits(text, from);
  }

  /** High cards make identifiers, low pairs numbers, other low cards a token of
      their own; each is read as the one word it is. */
  lemma WordIsOneToken(text: string, from: nat, h: HoleCards)
    requires WrittenAt(text, from, Word(h)) && Ordered(h)
    ensures NextToken(text, from) == (Hand(Word(h)), from + |Word(h)|)
  {
    hide TokenAt, WrittenAt, Word, WordAt, StartsWord;
    if h.first > 9 {
      IdentifierIsOneToken(text, from, h);
    } else if h.first == h.second {
      NumberIsOneToken(text, from, h);
    } else {
      SuitedDigitsAreOneToken(text, from, h);
    }
    NextIsWord(text, from);
  }

  lemma NextIsWord(text: string, from: nat)
    requires from < |text| && StartsWord(text[from]) && !IsSpace(text[from])
    ensures NextToken(text, from) == WordAt(text, from)
  {
    hide WordAt, StartsWord;
    RunEndIs(text, from, IsSpace, from);
  }

  lemma TokenAfterBlank(text: string, from: nat)
    requires from < |text| && IsSpace(text[from])
    ensures NextToken(text, from) == NextToken(text, from + 1)
  {
    hide TokenAt;
    assert RunEnd(text, from, IsSpace) == RunEnd(text, from + 1, IsSpace);
  }

  /** A comment up to the end of its line changes nothing. */
  lemma LineCommentIsSkipped(text: string, from: nat, end: nat, cells: set<Cell>)
    requires from + 1 < end < |text| && text[from] == text[from + 1] == '/' && text[end] == '\n'
    requires forall i | from < i < end :: text[i] != '\n'
    ensures Parsed(text, from, cells) == Parsed(text, end + 1, cells)
  {
    hide WordAt;
    RunEndIs(text, from, IsSpace, from);
    RunEndIs(text, from, InLine, end);
    assert StartsComment(text, from, '/');
    SameToken(text, from, end + 1, cells);
  }

  lemma {:induction false} StarSlashIs(text: string, from: nat, end: nat)
    requires from <= end && end + 1 < |text| && text[end] == '*' && text[end + 1] == '/'
    requires forall i | from <= i < end :: !(text[i] == '*' && text[i + 1] == '/')
    ensures StarSlash(text, from) == end
    decreases end - from
  {
    if from < end {
      StarSlashIs(text, from + 1, end);
    }
  }

  /** A comment up to the first star and slash behind its first slash changes nothing. */
  lemma CommentIsSkipped(text: string, from: nat, end: nat, cells: set<Cell>)
    requires from < end && end + 1 < |text| && text[from] == '/' && text[from + 1] == '*'
    requires text[end] == '*' && text[end + 1] == '/'
    requires forall i | from < i < end :: !(text[i] == '*' && text[i + 1] == '/')
    ensures Parsed(text, from, cells) == Parsed(text, end + 2, cells)
  {
    hide WordAt;
    RunEndIs(text, from, IsSpace, from);
    StarSlashIs(text, from, end);
    assert StartsComment(text, from, '*');
    SameToken(text, from, end + 2, cells);
  }

  lemma SameToken(text: string, from: nat, to: nat, cells: set<Cell>)
    requires from <= to <= |text| && NextToken(text, from) == NextToken(text, to)
    ensures Parsed(text, from, cells) == Parsed(text, to, cells)
  {
    hide NextToken, CellOfWord;
  }

  lemma BlankIsSkipped(text: string, from: nat, cells: set<Cell>)
    requires from < |text| && IsSpace(text[from])
    ensures Parsed(text, from, cells) == Parsed(text, from + 1, cells)
  {
    hide NextToken, CellOfWord;
    TokenAfterBlank(text, from);
  }

  function CellsOf(hands: seq<HoleCards>): set<Cell> {
    set h | h in hands :: CellOf(h.first, h.second, h.suited)
  }

  /** The text has this part at a position. */
  predicate At(text: string, from: nat, part: string) {
    from + |part| <= |text| && text[from..from + |part|] == part
  }

  lemma PartsAt(text: string, from: nat, a: string, b: string)
    requires At(text, from, a + b)
    ensures At(text, from, a) && At(text, from + |a|, b)
  {
    var part := text[from..from + |a + b|];
    assert part[..|a|] == a && part[|a|..] == b;
  }

  lemma HandAt(text: string, from: nat, h: HoleCards)
    requires At(text, from, Word(h)) && At(text, from + |Word(h)|, " ")
    ensures WrittenAt(text, from, Word(h))
  {
    assert text[from + |Word(h)|..from + |Word(h)| + 1][0] == ' ';
  }

  /** Reading one word and the blank after it. */
  lemma WordIsRead(text: string, from: nat, h: HoleCards, cells: set<Cell>)
    requires At(text, from, Word(h)) && At(text, from + |Word(h)|, " ") && Ordered(h)
    ensures Parsed(text, from, cells)
            == Parsed(text, from + |Word(h)| + 1, cells + {CellOf(h.first, h.second, h.suited)})
  {
    hide NextToken, CellOfWord, Word, Parsed, CellOf;
    HandAt(text, from, h);
    WordIsOneToken(text, from, h);
    WordMeansItsCell(h);
    ReadStep(text, from, h, cells);
    BlankIsSkipped(text, from + |Word(h)|, cells + {CellOf(h.first, h.second, h.suited)});
  }

  lemma ReadStep(text: string, from: nat, h: HoleCards, cells: set<Cell>)
    requires from <= |text| && NextToken(text, from) == (Hand(Word(h)), from + |Word(h)|)
    requires CellOfWord(Word(h)) == Some(CellOf(h.first, h.second, h.suited))
    ensures Parsed(text, from, cells)
            == Parsed(text, from + |Word(h)|, cells + {CellOf(h.first, h.second, h.suited)})
  {
    hide NextToken, CellOfWord, Word, CellOf;
  }

  /** Reading the spelling of some hands sets their cells, and goes on behind. */
  lemma {:induction false} HandsAreRead(text: string, from: nat, hands: seq<HoleCards>, cells: set<Cell>)
    requires At(text, from, Spelled(hands))
    requires forall h | h in hands :: Ordered(h)
    ensures Parsed(text, from, cells) == Parsed(text, from + |Spelled(hands)|, cells + CellsOf(hands))
    decreases |hands|
  {
    hide At, Parsed, Word, Ordered, CellOf;
    if hands == [] {
      assert cells + CellsOf(hands) == cells;
    } else {
      var h, tail := hands[0], hands[1..];
      PartsAt(text, from, Word(h) + " ", Spelled(tail));
      PartsAt(text, from, Word(h), " ");
      WordIsRead(text, from, h, cells);
      FirstCell(hands);
      var first := cells + {CellOf(h.first, h.second, h.suited)};
      HandsAreRead(text, from + |Word(h)| + 1, tail, first);
      assert first + CellsOf(tail) == cells + CellsOf(hands);
    }
  }

  lemma FirstCell(hands: seq<HoleCards>)
    requires hands != []
    ensures CellsOf(hands) == {CellOf(hands[0].first, hands[0].second, hands[0].suited)} + CellsOf(hands[1..])
  {
    assert hands == [hands[0]] + hands[1..];
    CellsOfMore([hands[0]], hands[1..]);
  }

  lemma LineIsRead(text: string, from: nat, hands: seq<HoleCards>, cells: set<Cell>)
    requires At(text, from, Line(hands))
    requires forall h | h in hands :: Ordered(h)
    ensures Parsed(text, from, cells) == Parsed(text, from + |Line(hands)|, cells + CellsOf(hands))
  {
    hide Parsed, Spelled, Ordered;
    if hands == [] {
      assert cells + CellsOf(hands) == cells;
    } else {
      var n := |Spelled(hands)|;
      PartsAt(text, from, Spelled(hands), "\n");
      assert text[from + n..from + n + 1][0] == '\n';
      HandsAreRead(text, from, hands, cells);
      BlankIsSkipped(text, from + n, cells + CellsOf(hands));
    }
  }

  lemma {:induction false} PairsAreListed(cells: set<Cell>, i: int)
    requires i <= RANK_ACE
    ensures forall h | h in Pairs(cells, i) :: Ordered(h)
    ensures forall c: Cell :: c in CellsOf(Pairs(cells, i)) <==> c in cells && c.0 == c.1 && c.0 + 2 <= i
    decreases i
  {
    if i >= 2 {
      PairsAreListed(cells, i - 1);
      CellsOfMore(if CellAt(i, i) in cells then [HoleCards(i, i, false)] else [], Pairs(cells, i - 1));
    }
  }

  lemma CellsOfMore(a: seq<HoleCards>, b: seq<HoleCards>)
    ensures CellsOf(a + b) == CellsOf(a) + CellsOf(b)
  {}

  lemma {:induction false} RowIsListed(cells: set<Cell>, suited: bool, i: int, j: int)
    requires j < i <= RANK_ACE
    ensures forall h | h in Row(cells, suited, i, j) :: Ordered(h)
    ensures forall c: Cell :: c in CellsOf(Row(cells, suited, i, j)) <==>
      c in cells && (if suited then c.1 + 2 == i && c.0 + 2 <= j else c.0 + 2 == i && c.1 + 2 <= j)
    decreases j
  {
    if j >= 2 {
      RowIsListed(cells, suited, i, j - 1);
      var first := if CellOf(i, j, suited) in cells then [HoleCards(i, j, suited)] else [];
      CellsOfMore(first, Row(cells, suited, i, j - 1));
    }
  }

  lemma {:induction false} RowsAreListed(cells: set<Cell>, suited: bool, i: int)
    requires i <= RANK_ACE
    ensures forall h | h in Rows(cells, suited, i) :: Ordered(h)
    ensures forall c: Cell :: c in CellsOf(Rows(cells, suited, i)) <==>
      c in cells && (if suited then c.0 < c.1 && c.1 + 2 <= i else c.1 < c.0 && c.0 + 2 <= i)
    decreases i
  {
    if i >= 2 {
      RowIsListed(cells, suited, i, i - 1);
      RowsAreListed(cells, suited, i - 1);
      CellsOfMore(Row(cells, suited, i, i - 1), Rows(cells, suited, i - 1));
    }
  }

  /** The three parts of the text have every cell among them. */
  lemma AllCellsAreListed(cells: set<Cell>)
    ensures CellsOf(Pairs(cells, RANK_ACE)) + CellsOf(Rows(cells, true, RANK_ACE))
            + CellsOf(Rows(cells, false, RANK_ACE)) == cells
  {
    hide CellsOf, Pairs, Rows;
    PairsAreListed(cells, RANK_ACE);
    RowsAreListed(cells, true, RANK_ACE);
    RowsAreListed(cells, false, RANK_ACE);
  }

  lemma EndIsRead(text: string, cells: set<Cell>)
    ensures Parsed(text, |text|, cells) == (true, cells)
  {
    RunEndIs(text, |text|, IsSpace, |text|);
    assert TokenAt(text, |text|) == (EndOfFunction, |text|);
  }

  /** Parsing the text of any matrix into an empty list restores the matrix. */
  lemma TextRestoresMatrix(cells: set<Cell>)
    ensures Parsed(Text(cells), 0, {}) == (true, cells)
  {
    hide CellsOf, Pairs, Rows, Line, At, Parsed, Ordered;
    var text := Text(cells);
    var pairs, suited, offsuited := Pairs(cells, RANK_ACE), Rows(cells, true, RANK_ACE), Rows(cells, false, RANK_ACE);
    PairsAreListed(cells, RANK_ACE);
    RowsAreListed(cells, true, RANK_ACE);
    RowsAreListed(cells, false, RANK_ACE);
    var a, b := |Line(pairs)|, |Line(suited)|;
    WholeAt(text);
    PartsAt(text, 0, Line(pairs) + Line(suited), Line(offsuited));
    PartsAt(text, 0, Line(pairs), Line(suited));
    LineIsRead(text, 0, pairs, {});
    LineIsRead(text, a, suited, {} + CellsOf(pairs));
    LineIsRead(text, a + b, offsuited, {} + CellsOf(pairs) + CellsOf(suited));
    AllCellsAreListed(cells);
    EndIsRead(text, cells);
    assert {} + CellsOf(pairs) + CellsOf(suited) + CellsOf(offsuited) == cells;
  }

  lemma WholeAt(text: string)
    ensures At(text, 0, text)
  {
    assert text[0..|text|] == text;
  }

  // ---------- Growing texts ----------

  lemma SpelledIsEmpty(hands: seq<HoleCards>)
    ensures Spelled(hands) == "" <==> hands == []
  {}

  lemma {:induction false} SpelledParts(a: seq<HoleCards>, b: seq<HoleCards>)
    ensures Spelled(a + b) == Spelled(a) + Spelled(b)
  {
    hide Word;
    if a == [] {
      assert a + b == b;
    } else {
      SpelledParts(a[1..], b);
      assert (a + b)[0] == a[0];
      assert (a + b)[1..] == a[1..] + b;
      var first, tail, end := Word(a[0]) + " ", Spelled(a[1..]), Spelled(b);
      assert first + (tail + end) == first + tail + end;
    }
  }

  lemma SpelledOne(h: HoleCards)
    ensures Spelled([h]) == Word(h) + " "
  {
    assert [h][1..] == [];
  }

  lemma AppendedText(before: string, a: string, b: string)
    ensures before + (a + b) == before + a + b
  {}

  lemma NoPairs(cells: set<Cell>)
    ensures Spelled(Pairs(cells, 1)) == ""
  {}

  lemma PairsStart(cells: set<Cell>, i: int, before: string)
    requires 2 <= i <= RANK_ACE
    ensures before + Spelled(Pairs(cells, i)) ==
            before + (if CellAt(i, i) in cells then [CharOf(i), CharOf(i)] + " " else "") + Spelled(Pairs(cells, i - 1))
  {
    hide CellAt, CharOf, Spelled;
    var h := HoleCards(i, i, false);
    var first, rest := if CellAt(i, i) in cells then [h] else [], Pairs(cells, i - 1);
    SpelledOne(h);
    SpelledIsEmpty([]);
    SpelledParts(first, rest);
    AppendedText(before, Spelled(first), Spelled(rest));
  }

  lemma RowStart(cells: set<Cell>, suited: bool, i: int, j: int, before: string)
    requires 2 <= j < i <= RANK_ACE
    ensures before + Spelled(Row(cells, suited, i, j)) ==
            before + (if CellOf(i, j, suited) in cells
                      then ([CharOf(i), CharOf(j)] + if suited then "s" else "o") + " " else "")
            + Spelled(Row(cells, suited, i, j - 1))
  {
    hide CellOf, CharOf, Spelled;
    var h := HoleCards(i, j, suited);
    var first, rest := if CellOf(i, j, suited) in cells then [h] else [], Row(cells, suited, i, j - 1);
    SpelledOne(h);
    SpelledIsEmpty([]);
    SpelledParts(first, rest);
    AppendedText(before, Spelled(first), Spelled(rest));
  }

  lemma RowEnd(cells: set<Cell>, suited: bool, i: int, j: int, before: string)
    requires j < 2 && j < i <= RANK_ACE
    ensures before + Spelled(Row(cells, suited, i, j)) == before
  {}

  lemma RowsStart(cells: set<Cell>, suited: bool, i: int, before: string)
    requires 2 <= i <= RANK_ACE
    ensures before + Spelled(Rows(cells, suited, i)) ==
            before + Spelled(Row(cells, suited, i, i - 1)) + Spelled(Rows(cells, suited, i - 1))
  {
    SpelledParts(Row(cells, suited, i, i - 1), Rows(cells, suited, i - 1));
  }

  lemma RowsEnd(cells: set<Cell>, suited: bool, i: int, before: string)
    requires i < 2
    ensures before + Spelled(Rows(cells, suited, i)) == before
    ensures Spelled(Rows(cells, suited, RANK_ACE)) == "" <==> Rows(cells, suited, RANK_ACE) == []
  {
    SpelledIsEmpty(Rows(cells, suited, RANK_ACE));
  }

  // ---------- The list ----------

  class HandList {
    const matrix: array2<bool>
    var functionText: string

    ghost predicate Valid() {
      matrix.Length0 == RANKS && matrix.Length1 == RANKS
    }

    ghost function Cells(): set<Cell>
      requires Valid()
      reads matrix
    {
      set i: nat, j: nat | i < 13 && j < 13 && matrix[i, j] :: (i, j)
    }

    constructor (text: string)
      ensures Valid() && Cells() == {} && functionText == text && fresh(matrix)
    {
      matrix := new bool[RANKS, RANKS]((i, j) => false);
      functionText := text;
    }

    method Clear()
      requires Valid()
      modifies matrix
      ensures Cells() == {}
    {
      for i := 0 to RANKS
        invariant forall k: nat, j: nat | k < i && j < RANKS :: !matrix[k, j]
      {
        for j := 0 to RANKS
          invariant forall k: nat, l: nat | k < i && l < RANKS :: !matrix[k, l]
          invariant forall l: nat | l < j :: !matrix[i, l]
        {
          matrix[i, j] := false;
        }
      }
    }

    method SetAt(first: Rank, second: Rank)
      requires Valid()
      modifies matrix
      ensures Cells() == old(Cells()) + {CellAt(first, second)}
    {
      matrix[second - 2, first - 2] := true;
      assert CellAt(first, second) in Cells();
      assert forall c | c in old(Cells()) :: c in Cells();
    }

    method Set(first: Rank, second: Rank, suited: bool)
      requires Valid()
      modifies matrix
      ensures Cells() == old(Cells()) + {CellOf(first, second, suited)}
    {
      var high, low := first, second;
      if high < low {
        high, low := low, high;
      }
      if suited {
        SetAt(high, low);
      } else {
        SetAt(low, high);
      }
    }

    method Remove(first: Rank, second: Rank)
      requires Valid()
      modifies matrix
      ensures Cells() == old(Cells()) - {CellAt(first, second)}
    {
      matrix[second - 2, first - 2] := false;
      assert forall c | c in old(Cells()) && c != CellAt(first, second) :: c in Cells();
    }

    predicate IsAt(first: Rank, second: Rank)
      requires Valid()
      reads matrix
      ensures IsAt(first, second) <==> CellAt(first, second) in Cells()
    {
      matrix[second - 2, first - 2]
    }

    method IsOnList(first: Rank, second: Rank, suited: bool) returns (found: bool)
      requires Valid()
      ensures found == (CellOf(first, second, suited) in Cells())
    {
      var high, low := first, second;
      if high < low {
        high, low := low, high;
      }
      found := if suited then IsAt(high, low) else IsAt(low, high);
    }

    method SetMember(member: string) returns (ok: bool)
      requires Valid()
      modifies matrix
      ensures ok == CellOfWord(member).Some?
      ensures Cells() == old(Cells()) + if ok then {CellOfWord(member).value} else {}
    {
      if |member| < 2 || |member| > 3 {
        return false;
      }
      var firstChar, secondChar := Lower(member[0]), Lower(member[1]);
      var first, second := RankOf(firstChar), RankOf(secondChar);
      if first < 0 || second < 0 {
        return false;
      }
      if |member| == 2 {
        if firstChar == secondChar {
          Set(first, second, false);
          return true;
        }
        return false;
      }
      var suit := Lower(member[2]);
      if suit == 's' {
        Set(first, second, true);
      } else if suit == 'o' {
        Set(first, second, false);
      } else {
        return false;
      }
      return true;
    }

    /** ParseListBody() */
    method Parse(text: string) returns (ok: bool)
      requires Valid()
      modifies matrix
      ensures (ok, Cells()) == Parsed(text, 0, old(Cells()))
    {
      hide CellOfWord;
      var (token, next) := NextToken(text, 0);
      ghost var at: nat := 0;
      while !token.EndOfFunction?
        invariant at <= next <= |text| && NextToken(text, at) == (token, next)
        invariant Parsed(text, at, Cells()) == Parsed(text, 0, old(Cells()))
        decreases |text| - at
      {
        if token.Unexpected? {
          return false;
        }
        ghost var before := Cells();
        var valid := SetMember(token.word);
        if !valid {
          assert Cells() == before;
          return false;
        }
        at := next;
        var following := NextToken(text, next);
        token, next := following.0, following.1;
      }
      return true;
    }

    /** The line of the suited or of the offsuited hands. */
    method GenerateLine(suited: bool) returns (result: string)
      requires Valid()
      ensures result == Line(Rows(Cells(), suited, RANK_ACE))
    {
      hide Word, Row, Rows, Spelled, CellOf;
      result := "";
      var anyHandAdded := false;
      var i := RANK_ACE;
      while i >= 2
        invariant 1 <= i <= RANK_ACE
        invariant result + Spelled(Rows(Cells(), suited, i)) == Spelled(Rows(Cells(), suited, RANK_ACE))
        invariant anyHandAdded == (result != "")
      {
        var j := i - 1;
        ghost var before := result;
        RowsStart(Cells(), suited, i, result);
        while j >= 2
          invariant 1 <= j < i
          invariant result + Spelled(Row(Cells(), suited, i, j)) == before + Spelled(Row(Cells(), suited, i, i - 1))
          invariant anyHandAdded == (result != "")
        {
          RowStart(Cells(), suited, i, j, result);
          var found := IsOnList(i, j, suited);
          if found {
            result := result + ([CharOf(i), CharOf(j)] + if suited then "s" else "o") + " ";
            anyHandAdded := true;
          }
          j := j - 1;
        }
        RowEnd(Cells(), suited, i, j, result);
        i := i - 1;
      }
      RowsEnd(Cells(), suited, i, result);
      if anyHandAdded {
        result := result + "\n";
      }
    }

    /** The line of the pairs. */
    method GeneratePairs() returns (result: string)
      requires Valid()
      ensures result == Line(Pairs(Cells(), RANK_ACE))
    {
      hide Spelled, Pairs, CharOf, CellAt, Word;
      ghost var cells := Cells();
      result := "";
      var anyHandAdded := false;
      var i := RANK_ACE;
      NoPairs(cells);
      while i >= 2
        invariant 1 <= i <= RANK_ACE
        invariant result + Spelled(Pairs(cells, i)) == Spelled(Pairs(cells, RANK_ACE))
        invariant anyHandAdded == (result != "")
      {
        PairsStart(cells, i, result);
        if IsAt(i, i) {
          result := result + ([CharOf(i), CharOf(i)] + " ");
          anyHandAdded := true;
        }
        i := i - 1;
      }
      SpelledIsEmpty(Pairs(cells, RANK_ACE));
      if anyHandAdded {
        result := result + "\n";
      }
    }

    method GenerateFunctionTextFromHandlistMatrix()
      requires Valid()
      modifies this`functionText
      ensures functionText == Text(Cells())
    {
      hide Line, Pairs, Rows;
      var pairs := GeneratePairs();
      var suited := GenerateLine(true);
      var offsuited := GenerateLine(false);
      functionText := pairs + suited + offsuited;
    }
  }
}
