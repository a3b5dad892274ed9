/** The lines of a tablemap file (CTablemap.cpp): how each kind of record is
    printed, and how a line is read back. */
module TablemapLines {
  import opened Common
  import opened Numerals

  type Int32 = n: int | -LONG_MAX - 1 <= n <= LONG_MAX
  type UInt32 = n: int | 0 <= n <= ULONG_MAX

  const HASH_GROUPS := 4
  const FONT_GROUPS := 8
  const MAX_SINGLE_CHAR_WIDTH := 31
  const MAX_IMAGE_SIZE := 200 * 150

  /** What "%d" prints of an unsigned value, and what is stored of a signed one. */
  function Signed(n: UInt32): Int32 { if n > LONG_MAX then n - ULONG_MAX - 1 else n }

  function Unsigned(n: Int32): UInt32 { if n < 0 then n + ULONG_MAX + 1 else n }

  // ---------- Records ----------

  datatype Size = Size(name: string, width: Int32, height: Int32)

  /** A string, also called symbol. */
  datatype Symbol = Symbol(name: string, text: string)

  datatype Region = Region(name: string, left: UInt32, top: UInt32, right: UInt32, bottom: UInt32,
                           color: UInt32, radius: Int32, transform: string)

  /** The columns of a character, one bit for each pixel. */
  type Columns = x: seq<UInt32> | |x| <= MAX_SINGLE_CHAR_WIDTH

  datatype Font = Font(ch: char, x: Columns, hexmash: string)

  datatype HashPoint = HashPoint(x: UInt32, y: UInt32)

  datatype HashValue = HashValue(name: string, hash: UInt32)

  datatype Image = Image(name: string, width: Int32, height: Int32, pixels: seq<UInt32>)

  const NUL := '\0'

  // ---------- Trimming ----------

  function TrimLeft(s: string): (t: string)
    ensures t != "" ==> !IsSpace(t[0])
  {
    if s != "" && IsSpace(s[0]) then TrimLeft(s[1..]) else s
  }

  function TrimRight(s: string): (t: string)
    ensures |t| <= |s| && t == s[..|t|] && (t != "" ==> !IsSpace(t[|t| - 1]))
  {
    if s != "" && IsSpace(s[|s| - 1]) then TrimRight(s[..|s| - 1]) else s
  }

  /** CString::Trim() */
  function Trim(s: string): (t: string)
    ensures t != "" ==> !IsSpace(t[0]) && !IsSpace(t[|t| - 1])
  {
    TrimRight(TrimLeft(s))
  }

  predicate AllSpace(s: string) {
    forall c | c in s :: IsSpace(c)
  }

  lemma {:induction false} TrimLeftIs(left: string, s: string)
    requires AllSpace(left) && s != "" && !IsSpace(s[0])
    ensures TrimLeft(left + s) == s
  {
    if left == "" {
      assert left + s == s;
    } else {
      assert left[0] in left && (left + s)[1..] == left[1..] + s;
      TrimLeftIs(left[1..], s);
    }
  }

  lemma {:induction false} TrimRightIs(s: string, right: string)
    requires AllSpace(right) && s != "" && !IsSpace(s[|s| - 1])
    ensures TrimRight(s + right) == s
  {
    if right == "" {
      assert s + right == s;
    } else {
      var n := |right| - 1;
      assert right[n] in right && (s + right)[..|s + right| - 1] == s + right[..n];
      TrimRightIs(s, right[..n]);
    }
  }

  /** Trimming takes the white space away on both sides, and nothing else. */
  lemma TrimIs(left: string, s: string, right: string)
    requires AllSpace(left) && AllSpace(right) && s != "" && !IsSpace(s[0]) && !IsSpace(s[|s| - 1])
    ensures Trim(left + s + right) == s
  {
    assert left + s + right == left + (s + right);
    TrimLeftIs(left, s + right);
    TrimRightIs(s, right);
  }

  lemma {:induction false} LeftOf(s: string) returns (left: string)
    ensures AllSpace(left) && s == left + TrimLeft(s)
  {
    if s != "" && IsSpace(s[0]) {
      var rest := LeftOf(s[1..]);
      left := [s[0]] + rest;
    } else {
      left := "";
    }
  }

  lemma {:induction false} RightOf(s: string) returns (right: string)
    ensures AllSpace(right) && s == TrimRight(s) + right
  {
    if s != "" && IsSpace(s[|s| - 1]) {
      var front, last := s[..|s| - 1], s[|s| - 1];
      var t := TrimRight(front);
      assert TrimRight(s) == t;
      hide *;
      var rest := RightOf(front);
      right := rest + [last];
      OneMoreSpace(rest, last);
      Joined(t, rest, [last]);
      assert s == front + [last];
    } else {
      right := "";
    }
  }

  lemma Joined(a: string, b: string, c: string)
    ensures (a + b) + c == a + (b + c)
  {}

  lemma OneMoreSpace(s: string, c: char)
    requires AllSpace(s) && IsSpace(c)
    ensures AllSpace(s + [c])
  {}

  lemma Trimmed(s: string) returns (left: string, right: string)
    ensures AllSpace(left) && AllSpace(right) && s == left + Trim(s) + right
  {
    left := LeftOf(s);
    right := RightOf(TrimLeft(s));
    assert s == left + (Trim(s) + right);
  }

  /** No white space, so that it does not end a token. */
  predicate NoSpace(s: string) {
    forall c | c in s :: !IsSpace(c)
  }

  // ---------- Printing ----------

  function SizeLine(s: Size): string {
    "z$" + PadRight(s.name, 16) + " " + (Decimal(s.width) + " " + (" " + Decimal(s.height)))
  }

  function SymbolLine(s: Symbol): string {
    "s$" + PadRight(s.name, 25) + " " + s.text
  }

  function Corners(r: Region): string {
    PadLeft(Decimal(Signed(r.left)), 3) + " " + (PadLeft(Decimal(Signed(r.top)), 3) + " "
    + (PadLeft(Decimal(Signed(r.right)), 3) + " " + PadLeft(Decimal(Signed(r.bottom)), 3)))
  }

  function Style(r: Region): string {
    PadLeft(Hex(r.color), 8) + " " + (PadLeft(Decimal(r.radius), 4) + " " + r.transform)
  }

  function RegionLine(r: Region): string {
    "r$" + PadRight(r.name, 18) + " " + (Corners(r) + " " + Style(r))
  }

  function GroupDigit(group: nat): char
    requires group < FONT_GROUPS
  {
    '0' + group as char
  }

  function ColumnsText(x: seq<UInt32>): string {
    if x == [] then "" else ColumnsText(x[..|x| - 1]) + " " + Hex(x[|x| - 1])
  }

  function FontLine(group: nat, f: Font): string
    requires group < FONT_GROUPS
  {
    ['t', GroupDigit(group), '$', f.ch] + ColumnsText(f.x)
  }

  function PointLine(group: nat, p: HashPoint): string
    requires group < HASH_GROUPS
  {
    ['p', GroupDigit(group), '$'] + PadLeft(Decimal(Signed(p.x)), 4) + " " + PadLeft(Decimal(Signed(p.y)), 4)
  }

  function HashLine(group: nat, h: HashValue): string
    requires group < HASH_GROUPS
  {
    ['h', GroupDigit(group), '$'] + PadRight(h.name, 18) + " " + Hex8(h.hash)
  }

  function ImageLine(i: Image): string {
    "i$" + PadRight(i.name, 16) + " " + (PadRight(Decimal(i.width), 3) + " " + PadRight(Decimal(i.height), 3))
  }

  /** A pixel with its highest byte, alpha, moved to the end. */
  function PixelText(pixel: UInt32): string {
    var text := Hex8(pixel);
    Mid(text, 2, 6) + Mid(text, 0, 2)
  }

  function RowLine(pixels: seq<UInt32>): string {
    if pixels == [] then "" else RowLine(pixels[..|pixels| - 1]) + PixelText(pixels[|pixels| - 1])
  }

  /** CString::Mid() */
  function Mid(s: string, from: nat, count: nat): string {
    if from >= |s| then "" else if from + count > |s| then s[from..] else s[from..from + count]
  }

  // ---------- Reading ----------

  datatype Line =
    | Skipped | SyntaxError | RegionSizeError | UnknownLineType
    | SizeRecord(size: Size)
    // a string, whose text is still to be read
    | SymbolHeader(kind: string)
    | SymbolRecord(symbol: Symbol) | RegionRecord(region: Region) | FontRecord(fontGroup: nat, font: Font)
    | PointRecord(group: nat, point: HashPoint) | HashRecord(group: nat, value: HashValue)
    | ImageHeader(name: string, width: Int32, height: Int32)
  {
    /** A line that has been read completely, with a group that exists. */
    predicate Valid() {
      && !SymbolHeader? && (PointRecord? || HashRecord? ==> group < HASH_GROUPS)
      && (FontRecord? ==> fontGroup < FONT_GROUPS)
    }
  }

  const VERSIONS := {".wsdb1", ".ohdb1", ".ohdb2", ".osdb1", ".osdb2"}

  predicate StartsWith(s: string, prefix: string) {
    |prefix| <= |s| && s[..|prefix|] == prefix
  }

  /** A letter, the digit of a group, and a dollar sign. */
  predicate HasGroup(s: string, letter: char, groups: nat) {
    |s| >= 3 && s[0] == letter && s[1] >= '0' && s[1] as int < '0' as int + groups && s[2] == '$'
  }

  function Field(ts: seq<string>, k: nat): string {
    if k < |ts| then ts[k] else ""
  }

  /** CString::operator[], with the NUL behind the last character. */
  function CharAt(s: string, k: nat): char {
    if k < |s| then s[k] else NUL
  }

  /** The tokens that are read as columns; those behind are ignored. */
  function ColumnTokens(ts: seq<string>): (hexes: seq<string>)
    ensures |hexes| <= MAX_SINGLE_CHAR_WIDTH
  {
    if |ts| > MAX_SINGLE_CHAR_WIDTH then ts[..MAX_SINGLE_CHAR_WIDTH] else ts
  }

  function ValuesOf(hexes: seq<string>): (x: seq<UInt32>)
    ensures |x| == |hexes| && forall k | 0 <= k < |x| :: x[k] == Strtoul(hexes[k])
  {
    seq(|hexes|, k requires 0 <= k < |hexes| => Strtoul(hexes[k]) as UInt32)
  }

  /** The columns as one text, by which a character is looked up. */
  function Mash(hexes: seq<string>): string {
    if hexes == [] then "" else Mash(hexes[..|hexes| - 1]) + hexes[|hexes| - 1]
  }

  /** Strings whose name says that they are in lower case, and strings that are skipped. */
  predicate IsLowered(name: string) { StartsWith(name, "sitename") || StartsWith(name, "network") }

  predicate IsHashType(name: string) { StartsWith(name, "h") && Mid(name, 2, 4) == "type" }

  /** The text of a string is the rest of its line. */
  function SymbolOf(name: string, rest: string): Line {
    var text := Trim(rest);
    if text == "" then SyntaxError
    else if IsHashType(name) then Skipped
    else SymbolRecord(Symbol(name, if IsLowered(name) then LowerCase(text) else text))
  }

  /** Reads a line that has been trimmed. */
  function Read(line: string): (record: Line)
    requires line != "" && !IsSpace(line[0])
    ensures record.Valid()
  {
    NotEmpty(line);
    var record := Parsed(Tokens(line));
    if record.SymbolHeader? then
      KindIsFirst(line);
      SymbolOf(record.kind[2..], line[|record.kind|..])
    else record
  }

  lemma NotEmpty(line: string)
    requires line != "" && !IsSpace(line[0])
    ensures Tokens(line) != []
  {}

  lemma KindIsFirst(line: string)
    requires line != "" && !IsSpace(line[0])
    ensures Tokens(line) != [] && |Tokens(line)[0]| <= |line|
    ensures Parsed(Tokens(line)).SymbolHeader? ==> 2 <= |Parsed(Tokens(line)).kind| <= |line|
  {
    NotEmpty(line);
    assert Tokens(line)[0] == line[..WordEnd(line)];
    hide Tokens, WordEnd, Parsed;
    HeaderKind(Tokens(line));
  }

  lemma HeaderKind(ts: seq<string>)
    requires ts != []
    ensures Parsed(ts).SymbolHeader? ==> Parsed(ts).kind == ts[0] && |ts[0]| >= 2
  {
    hide Atol, Strtoul, ColumnTokens, Mash, HasGroup;
  }

  function RegionOf(ts: seq<string>): Region
    requires |ts| >= 8 && |ts[0]| >= 2
  {
    Region(ts[0][2..], Unsigned(Atol(ts[1])), Unsigned(Atol(ts[2])), Unsigned(Atol(ts[3])), Unsigned(Atol(ts[4])),
           Strtoul(ts[5]), Atol(ts[6]), ts[7])
  }

  /** Reads a font or a hash; the second number of a hash point may be missing. */
  function ParsedGroup(ts: seq<string>): (line: Line)
    requires ts != []
    requires HasGroup(ts[0], 't', FONT_GROUPS) || HasGroup(ts[0], 'p', HASH_GROUPS) || HasGroup(ts[0], 'h', HASH_GROUPS)
    ensures line.Valid()
  {
    var kind := ts[0];
    if HasGroup(kind, 't', FONT_GROUPS) then
      var hexes := ColumnTokens(ts[1..]);
      FontRecord((kind[1] - '0') as nat, Font(CharAt(kind, 3), ValuesOf(hexes), Mash(hexes)))
    else if |ts| < 2 then SyntaxError
    else if HasGroup(kind, 'p', HASH_GROUPS) then
      PointRecord((kind[1] - '0') as nat, HashPoint(Unsigned(Atol(ts[1])), Unsigned(Atol(Field(ts, 2)))))
    else HashRecord((kind[1] - '0') as nat, HashValue(kind[3..], Strtoul(ts[1])))
  }

  /** Reads a line by its tokens. */
  function Parsed(ts: seq<string>): (line: Line)
    requires ts != []
    ensures line.SymbolHeader? || line.Valid()
  {
    var kind := ts[0];
    if StartsWith(kind, "//") || kind in VERSIONS then Skipped
    else if StartsWith(kind, "z$") then
      if |ts| < 3 then SyntaxError else SizeRecord(Size(kind[2..], Atol(ts[1]), Atol(ts[2])))
    else if StartsWith(kind, "s$") then SymbolHeader(kind)
    else if StartsWith(kind, "r$") then
      if |ts| < 8 then SyntaxError
      else RegionRecord(RegionOf(ts))
    else if StartsWith(kind, "t$") then SyntaxError
    else if HasGroup(kind, 't', FONT_GROUPS) || HasGroup(kind, 'p', HASH_GROUPS) || HasGroup(kind, 'h', HASH_GROUPS)
    then ParsedGroup(ts)
    else if StartsWith(kind, "i$") then
      if |ts| < 3 then SyntaxError
      else if Atol(ts[1]) * Atol(ts[2]) > MAX_IMAGE_SIZE then RegionSizeError
      else ImageHeader(kind[2..], Atol(ts[1]), Atol(ts[2]))
    else UnknownLineType
  }

  /** How records begin, and how many tokens they need. Fonts of one old version are known
      and always an error. */
  const KINDS: seq<(string, nat)> := [
    ("z$", 3), ("s$", 1), ("r$", 8), ("i$", 3),
    ("t0$", 1), ("t1$", 1), ("t2$", 1), ("t3$", 1), ("t4$", 1), ("t5$", 1), ("t6$", 1), ("t7$", 1),
    ("p0$", 2), ("p1$", 2), ("p2$", 2), ("p3$", 2), ("h0$", 2), ("h1$", 2), ("h2$", 2), ("h3$", 2)]

  predicate IsKind(kind: string, i: nat) {
    i < |KINDS| && StartsWith(kind, KINDS[i].0)
  }

  lemma KindIs(kind: string, i: nat)
    requires i < |KINDS|
    ensures i < 4 ==> (IsKind(kind, i) <==> StartsWith(kind, ["z$", "s$", "r$", "i$"][i]))
    ensures 4 <= i < 12 ==>
              (IsKind(kind, i) <==> HasGroup(kind, 't', FONT_GROUPS) && kind[1] as int == '0' as int + i - 4)
    ensures 12 <= i < 16 ==>
              (IsKind(kind, i) <==> HasGroup(kind, 'p', HASH_GROUPS) && kind[1] as int == '0' as int + i - 12)
    ensures 16 <= i ==>
              (IsKind(kind, i) <==> HasGroup(kind, 'h', HASH_GROUPS) && kind[1] as int == '0' as int + i - 16)
    ensures KINDS[i].1 == if i == 0 || i == 3 then 3 else if i == 2 then 8 else if i >= 12 then 2 else 1
  {
    assert |KINDS[i].0| >= 2;
    if |kind| >= |KINDS[i].0| {
      assert kind[..|KINDS[i].0|][0] == kind[0] && kind[..|KINDS[i].0|][1] == kind[1];
      if i >= 4 {
        assert kind[..|KINDS[i].0|][2] == kind[2];
        assert kind[..3] == [kind[0], kind[1], kind[2]];
      }
    }
  }

  lemma GroupIsKind(kind: string)
    ensures HasGroup(kind, 't', FONT_GROUPS) ==> IsKind(kind, 4 + (kind[1] as int - '0' as int))
    ensures HasGroup(kind, 'p', HASH_GROUPS) ==> IsKind(kind, 12 + (kind[1] as int - '0' as int))
    ensures HasGroup(kind, 'h', HASH_GROUPS) ==> IsKind(kind, 16 + (kind[1] as int - '0' as int))
  {
    hide IsKind;
    if HasGroup(kind, 't', FONT_GROUPS) { KindIs(kind, 4 + (kind[1] as int - '0' as int)); }
    if HasGroup(kind, 'p', HASH_GROUPS) { KindIs(kind, 12 + (kind[1] as int - '0' as int)); }
    if HasGroup(kind, 'h', HASH_GROUPS) { KindIs(kind, 16 + (kind[1] as int - '0' as int)); }
  }

  /** What a line is read as, for each beginning. */
  lemma ParsedAs(ts: seq<string>, i: nat)
    requires ts != [] && !StartsWith(ts[0], "//") && ts[0] !in VERSIONS
    requires i < |KINDS| && IsKind(ts[0], i)
    ensures !Parsed(ts).UnknownLineType? && (Parsed(ts).SyntaxError? <==> |ts| < KINDS[i].1)
  {
    hide IsKind, Atol, Strtoul, ColumnTokens, Mash, ValuesOf;
    KindIs(ts[0], i);
  }

  lemma KnownIsKind(ts: seq<string>)
    requires ts != [] && !StartsWith(ts[0], "//") && ts[0] !in VERSIONS
    requires !Parsed(ts).UnknownLineType? && !StartsWith(ts[0], "t$")
    ensures exists i: nat :: i < |KINDS| && IsKind(ts[0], i)
  {
    hide IsKind, Atol, Strtoul, ColumnTokens, Mash, ValuesOf;
    GroupIsKind(ts[0]);
    KindIs(ts[0], 0);
    KindIs(ts[0], 1);
    KindIs(ts[0], 2);
    KindIs(ts[0], 3);
  }

  lemma OldFontsFail(ts: seq<string>, i: nat)
    requires ts != [] && StartsWith(ts[0], "t$")
    ensures Parsed(ts).SyntaxError?
    ensures i < |KINDS| ==> !IsKind(ts[0], i)
  {
    hide IsKind, Atol, Strtoul, ColumnTokens, Mash, ValuesOf;
    assert ts[0][..2] == ['t', '$'];
    assert ts[0][0] == 't' && ts[0][1] == '$';
    assert forall v | v in VERSIONS :: v[0] == '.';
    if i < |KINDS| { KindIs(ts[0], i); }
  }

  /** A line that is no comment and no version has an unknown type if it begins like no
      record, and a syntax error if it has too few tokens for its record. */
  lemma LineFailsExactlyWhen(ts: seq<string>)
    requires ts != [] && !StartsWith(ts[0], "//") && ts[0] !in VERSIONS
    ensures Parsed(ts).UnknownLineType? <==>
              !StartsWith(ts[0], "t$") && forall i: nat | i < |KINDS| :: !IsKind(ts[0], i)
    ensures Parsed(ts).SyntaxError? <==>
              StartsWith(ts[0], "t$") || exists i: nat :: i < |KINDS| && IsKind(ts[0], i) && |ts| < KINDS[i].1
  {
    hide *;
    if StartsWith(ts[0], "t$") {
      OldFontsFail(ts, 0);
    } else {
      forall i: nat | i < |KINDS| && IsKind(ts[0], i)
        ensures !Parsed(ts).UnknownLineType? && (Parsed(ts).SyntaxError? <==> |ts| < KINDS[i].1)
      {
        ParsedAs(ts, i);
      }
      if !Parsed(ts).UnknownLineType? { KnownIsKind(ts); }
    }
  }

  /** The pixel at a position of a row, with alpha back in front. */
  function PixelAt(row: string, x: nat): UInt32 {
    Strtoul(Mid(row, x * 8 + 6, 2) + Mid(row, x * 8, 6))
  }

  function PixelsOfRow(row: string, width: nat): (pixels: seq<UInt32>)
    ensures |pixels| == width
  {
    if width == 0 then [] else PixelsOfRow(row, width - 1) + [PixelAt(row, width - 1)]
  }

  // ---------- Every line is read back ----------

  lemma SolidName(prefix: string, name: string)
    requires Solid(prefix) && NoSpace(name)
    ensures Solid(prefix + name)
  {
    assert (prefix + name)[0] == prefix[0];
    forall c | c in prefix + name ensures !IsSpace(c) {
      assert c in prefix || c in name;
    }
  }

  /** The name of a record, padded, is one token. */
  lemma TokensOfName(prefix: string, name: string, width: nat)
    requires Solid(prefix) && NoSpace(name)
    ensures Tokens(prefix + PadRight(name, width)) == [prefix + name]
  {
    SolidName(prefix, name);
    TokensOfSolid(prefix + name);
    TokensOfPadded(prefix + name, |prefix| + (if width > |name| then width else |name|));
    assert prefix + PadRight(name, width)
           == PadRight(prefix + name, |prefix| + (if width > |name| then width else |name|));
  }

  lemma TokensOfDecimal(n: Int32, width: nat)
    ensures Tokens(PadLeft(Decimal(n), width)) == [Decimal(n)]
    ensures Tokens(PadRight(Decimal(n), width)) == [Decimal(n)]
    ensures Tokens(Decimal(n)) == [Decimal(n)]
  {
    AtolOfDecimal(n);
    TokensOfSolid(Decimal(n));
    TokensOfPadded(Decimal(n), width);
  }

  lemma TokensOfHex(n: UInt32, width: nat)
    ensures Tokens(PadLeft(Hex(n), width)) == [Hex(n)] && Strtoul(Hex(n)) == n
    ensures Tokens(Hex8(n)) == [Hex8(n)] && Strtoul(Hex8(n)) == n
  {
    StrtoulOfHex(n, "");
    assert "" + Hex(n) == Hex(n);
    TokensOfSolid(Hex(n));
    TokensOfPadded(Hex(n), width);
    StrtoulOfHex(n, Times('0', 8 - |Hex(n)|));
    TokensOfSolid(Hex8(n));
  }

  lemma SizeTokens(s: Size)
    requires NoSpace(s.name)
    ensures Tokens(SizeLine(s)) == ["z$" + s.name, Decimal(s.width), Decimal(s.height)]
  {
    hide Decimal, PadRight, Tokens;
    var name, width, height := "z$" + PadRight(s.name, 16), Decimal(s.width), Decimal(s.height);
    TokensOfName("z$", s.name, 16);
    TokensOfDecimal(s.width, 0);
    TokensOfDecimal(s.height, 0);
    TokensOfBlank(height);
    TokensOfParts(width, " " + height);
    TokensOfParts(name, width + " " + (" " + height));
  }

  lemma TokensOfBlank(s: string)
    ensures Tokens(" " + s) == Tokens(s)
  {
    TokensOfParts("", s);
    assert "" + " " + s == " " + s;
  }

  /** Every size record is read back as it was. */
  lemma SizeIsRead(s: Size)
    requires NoSpace(s.name)
    ensures Tokens(SizeLine(s)) != [] && Parsed(Tokens(SizeLine(s))) == SizeRecord(s)
  {
    SizeTokens(s);
    AtolOfDecimal(s.width);
    AtolOfDecimal(s.height);
    var ts := Tokens(SizeLine(s));
    hide Tokens, Atol;
    NotSkipped("z$", s.name);
  }

  lemma NotSkipped(prefix: string, name: string)
    requires |prefix| >= 2 && prefix[0] in "zsrtphi"
    ensures var kind := prefix + name;
            !StartsWith(kind, "//") && kind !in VERSIONS && kind[|prefix|..] == name && StartsWith(kind, prefix)
  {
    var kind := prefix + name;
    assert kind[0] == prefix[0];
    assert forall v | v in VERSIONS :: v[0] == '.';
    assert kind[..2][0] == kind[0] != '/';
  }

  // ---------- Regions ----------

  lemma CornerTokens(r: Region)
    ensures Tokens(Corners(r)) == [Decimal(Signed(r.left)), Decimal(Signed(r.top)),
                                   Decimal(Signed(r.right)), Decimal(Signed(r.bottom))]
  {
    hide Decimal, PadLeft, Tokens;
    TokensOfDecimal(Signed(r.left), 3);
    TokensOfDecimal(Signed(r.top), 3);
    TokensOfDecimal(Signed(r.right), 3);
    TokensOfDecimal(Signed(r.bottom), 3);
    var left, top := PadLeft(Decimal(Signed(r.left)), 3), PadLeft(Decimal(Signed(r.top)), 3);
    var right, bottom := PadLeft(Decimal(Signed(r.right)), 3), PadLeft(Decimal(Signed(r.bottom)), 3);
    TokensOfParts(right, bottom);
    TokensOfParts(top, right + " " + bottom);
    TokensOfParts(left, top + " " + (right + " " + bottom));
  }

  lemma StyleTokens(r: Region)
    requires Solid(r.transform)
    ensures Tokens(Style(r)) == [Hex(r.color), Decimal(r.radius), r.transform]
  {
    hide Decimal, Hex, PadLeft, Tokens;
    TokensOfHex(r.color, 8);
    TokensOfDecimal(r.radius, 4);
    TokensOfSolid(r.transform);
    TokensOfParts(PadLeft(Decimal(r.radius), 4), r.transform);
    TokensOfParts(PadLeft(Hex(r.color), 8), PadLeft(Decimal(r.radius), 4) + " " + r.transform);
  }

  lemma RegionTokens(r: Region)
    requires NoSpace(r.name) && Solid(r.transform)
    ensures Tokens(RegionLine(r)) == ["r$" + r.name] + Tokens(Corners(r)) + Tokens(Style(r))
  {
    hide Corners, Style, PadRight, Tokens;
    TokensOfName("r$", r.name, 18);
    TokensOfParts(Corners(r), Style(r));
    TokensOfParts("r$" + PadRight(r.name, 18), Corners(r) + " " + Style(r));
  }

  lemma RegionOfTokens(name: string, ts: seq<string>)
    requires |ts| == 8 && ts[0] == "r$" + name
    ensures Parsed(ts) == RegionRecord(Region(name, Unsigned(Atol(ts[1])), Unsigned(Atol(ts[2])), Unsigned(Atol(ts[3])),
                                              Unsigned(Atol(ts[4])), Strtoul(ts[5]), Atol(ts[6]), ts[7]))
  {
    hide Atol, Strtoul, Unsigned;
    NotSkipped("r$", name);
    NoOther("r$", name);
  }

  /** Every region is read back as it was. */
  lemma RegionIsRead(r: Region)
    requires NoSpace(r.name) && Solid(r.transform)
    ensures Tokens(RegionLine(r)) != [] && Parsed(Tokens(RegionLine(r))) == RegionRecord(r)
  {
    hide Tokens, Atol, Strtoul, Decimal, Hex, Corners, Style, RegionLine, Parsed;
    RegionTokens(r);
    CornerTokens(r);
    StyleTokens(r);
    RegionOfTokens(r.name, Tokens(RegionLine(r)));
    AtolOfDecimal(Signed(r.left));
    AtolOfDecimal(Signed(r.top));
    AtolOfDecimal(Signed(r.right));
    AtolOfDecimal(Signed(r.bottom));
    AtolOfDecimal(r.radius);
    TokensOfHex(r.color, 8);
  }

  /** The two letters of a record are not those of another kind. */
  lemma NoOther(prefix: string, name: string)
    requires |prefix| == 2 && prefix[0] in "zsri" && prefix[1] == '$'
    ensures var kind := prefix + name;
            && (StartsWith(kind, "z$") <==> prefix[0] == 'z') && (StartsWith(kind, "r$") <==> prefix[0] == 'r')
            && (StartsWith(kind, "s$") <==> prefix[0] == 's')
            && !StartsWith(kind, "t$") && !HasGroup(kind, 't', FONT_GROUPS)
            && !HasGroup(kind, 'p', HASH_GROUPS) && !HasGroup(kind, 'h', HASH_GROUPS)
  {
    var kind := prefix + name;
    assert kind[..2] == prefix && kind[0] == prefix[0];
    assert "z$"[0] == 'z' && "r$"[0] == 'r' && "s$"[0] == 's' && "t$"[0] == 't';
    assert prefix == [prefix[0], '$'];
  }

  // ---------- Strings ----------

  function SymbolAsRead(s: Symbol): Line { SymbolOf(s.name, s.text) }

  /** A string that is read back as it was. */
  predicate IsStable(s: Symbol) {
    Trim(s.text) == s.text && !IsHashType(s.name) && (IsLowered(s.name) ==> LowerCase(s.text) == s.text)
  }

  lemma SymbolComesBackExactlyWhen(s: Symbol)
    requires Trim(s.text) != ""
    ensures SymbolAsRead(s) == SymbolRecord(s) <==> IsStable(s)
    ensures SymbolAsRead(s).SymbolRecord? ==> IsStable(SymbolAsRead(s).symbol)
    ensures SymbolAsRead(s).SymbolRecord? || SymbolAsRead(s).Skipped?
  {
    hide Trim, LowerCase;
    NothingAround(Trim(s.text));
    LowerKeepsTrimmed(Trim(s.text));
  }

  lemma LowerKeepsTrimmed(t: string)
    requires t != "" && !IsSpace(t[0]) && !IsSpace(t[|t| - 1])
    ensures Trim(LowerCase(t)) == LowerCase(t) == LowerCase(LowerCase(t))
  {
    hide Trim, Lower, IsSpace;
    forall c: char ensures Lower(Lower(c)) == Lower(c) && IsSpace(Lower(c)) == IsSpace(c) {
      LowerOnce(c);
    }
    var lower := LowerCase(t);
    NothingAround(lower);
    assert forall i | 0 <= i < |lower| :: LowerCase(lower)[i] == Lower(lower[i]) == lower[i];
  }

  lemma LowerOnce(c: char)
    ensures Lower(Lower(c)) == Lower(c) && IsSpace(Lower(c)) == IsSpace(c)
  {}

  lemma NothingAround(t: string)
    requires t != "" && !IsSpace(t[0]) && !IsSpace(t[|t| - 1])
    ensures Trim(t) == t
  {
    hide Trim, IsSpace;
    TrimIs("", t, "");
    assert "" + t + "" == t;
  }

  /** The line of a string without the white space at its end. */
  lemma SymbolLineTrimmed(s: Symbol, left: string, right: string)
    requires AllSpace(left) && AllSpace(right) && s.text == left + Trim(s.text) + right && Trim(s.text) != ""
    ensures Trim(SymbolLine(s)) == "s$" + PadRight(s.name, 25) + " " + (left + Trim(s.text))
  {
    hide Trim, PadRight;
    var t := Trim(s.text);
    var line := "s$" + PadRight(s.name, 25) + " " + (left + t);
    assert SymbolLine(s) == "" + line + right;
    assert line[|line| - 1] == t[|t| - 1];
    TrimIs("", line, right);
  }

  /** The name ends at the blank, and the text comes behind it. */
  lemma SymbolHasText(name: string, left: string, t: string)
    requires NoSpace(name) && AllSpace(left) && t != "" && !IsSpace(t[0]) && !IsSpace(t[|t| - 1])
    ensures var line := "s$" + PadRight(name, 25) + " " + (left + t);
            && Tokens(line) != [] && Tokens(line)[0] == "s$" + name && |name| + 2 <= |line|
            && Trim(line[|name| + 2..]) == t
  {
    hide Tokens, Trim;
    var line := "s$" + PadRight(name, 25) + " " + (left + t);
    TokensOfName("s$", name, 25);
    TokensOfParts("s$" + PadRight(name, 25), left + t);
    var blanks := Times(' ', 25 - |name|) + " " + left;
    assert line[|name| + 2..] == blanks + t + "";
    TrimIs(blanks, t, "");
  }

  /** Every string is read back with its text trimmed, in lower case where the name
      says so, or not at all. */
  lemma SymbolIsRead(s: Symbol)
    requires NoSpace(s.name) && Trim(s.text) != ""
    ensures var line := Trim(SymbolLine(s)); line != "" && Read(line) == SymbolAsRead(s)
  {
    hide Trim, Tokens, PadRight, Read, SymbolOf, SymbolLine;
    var left, right := Trimmed(s.text);
    var line := Trim(SymbolLine(s));
    SymbolLineTrimmed(s, left, right);
    SymbolHasText(s.name, left, Trim(s.text));
    ReadOfSymbol(line, s.name);
    SameText(s.name, line[|s.name| + 2..], s.text);
  }

  lemma ReadOfSymbol(line: string, name: string)
    requires line != "" && !IsSpace(line[0])
    requires Tokens(line) != [] && Tokens(line)[0] == "s$" + name && |name| + 2 <= |line|
    ensures Read(line) == SymbolOf(name, line[|name| + 2..])
  {
    hide Tokens, Parsed, SymbolOf;
    SymbolKind(name, Tokens(line));
  }

  lemma SameText(name: string, rest: string, text: string)
    requires Trim(rest) == Trim(text)
    ensures SymbolOf(name, rest) == SymbolOf(name, text)
  {
    hide Trim;
  }

  lemma SymbolKind(name: string, ts: seq<string>)
    requires ts != [] && ts[0] == "s$" + name
    ensures Parsed(ts) == SymbolHeader("s$" + name) && ("s$" + name)[2..] == name
  {
    hide Atol, Strtoul, ColumnTokens, Mash;
    NotSkipped("s$", name);
    NoOther("s$", name);
  }

  // ---------- Fonts ----------

  function HexesOf(x: seq<UInt32>): (hexes: seq<string>)
    ensures |hexes| == |x| && forall k | 0 <= k < |x| :: hexes[k] == Hex(x[k])
  {
    if x == [] then [] else HexesOf(x[..|x| - 1]) + [Hex(x[|x| - 1])]
  }

  lemma {:induction false} TokensOfColumns(x: seq<UInt32>)
    ensures Tokens(ColumnsText(x)) == HexesOf(x)
    ensures if x == [] then ColumnsText(x) == "" else ColumnsText(x) != "" && ColumnsText(x)[0] == ' '
  {
    hide Tokens, Hex;
    if x == [] {
      TokensOfNothing();
    } else {
      var n := |x| - 1;
      TokensOfColumns(x[..n]);
      TokensOfHex(x[n], 0);
      TokensOfHexAlone(x[n]);
      TokensOfParts(ColumnsText(x[..n]), Hex(x[n]));
    }
  }

  lemma TokensOfNothing()
    ensures Tokens("") == []
  {}

  lemma TokensOfHexAlone(n: UInt32)
    ensures Tokens(Hex(n)) == [Hex(n)]
  {
    StrtoulOfHex(n, "");
    assert "" + Hex(n) == Hex(n);
    TokensOfSolid(Hex(n));
  }

  lemma HexValues(x: seq<UInt32>)
    ensures ValuesOf(HexesOf(x)) == x
  {
    forall k | 0 <= k < |x| ensures Strtoul(Hex(x[k])) == x[k] {
      TokensOfHex(x[k], 0);
    }
  }

  /** The font that is read for a printed one: a blank is lost, and the text for
      looking it up is made of its columns. */
  function FontAsRead(f: Font): Font {
    Font(if f.ch == ' ' then NUL else f.ch, f.x, Mash(HexesOf(f.x)))
  }

  /** The kind of the line: the character belongs to it unless it is a blank. */
  function FontKind(group: nat, ch: char): string
    requires group < FONT_GROUPS
  {
    ['t', GroupDigit(group), '$'] + if ch == ' ' then "" else [ch]
  }

  lemma FontTokens(group: nat, f: Font)
    requires group < FONT_GROUPS && (IsSpace(f.ch) ==> f.ch == ' ')
    ensures Tokens(FontLine(group, f)) == [FontKind(group, f.ch)] + HexesOf(f.x)
  {
    hide Tokens, HexesOf, ColumnsText;
    var kind, columns := FontKind(group, f.ch), ColumnsText(f.x);
    TokensOfColumns(f.x);
    TokensOfSolid(kind);
    if f.ch == ' ' {
      assert FontLine(group, f) == kind + " " + columns;
      TokensOfParts(kind, columns);
    } else if f.x == [] {
      assert columns == "" && FontLine(group, f) == kind;
    } else {
      assert columns == " " + columns[1..];
      TokensOfBlank(columns[1..]);
      assert FontLine(group, f) == kind + " " + columns[1..];
      TokensOfParts(kind, columns[1..]);
    }
  }

  lemma FontKindIs(group: nat, ch: char)
    requires group < FONT_GROUPS
    ensures var kind := FontKind(group, ch);
            && !StartsWith(kind, "//") && kind !in VERSIONS
            && !StartsWith(kind, "z$") && !StartsWith(kind, "s$") && !StartsWith(kind, "r$") && !StartsWith(kind, "t$")
            && HasGroup(kind, 't', FONT_GROUPS) && (kind[1] - '0') as nat == group
            && CharAt(kind, 3) == if ch == ' ' then NUL else ch
  {
    var kind := FontKind(group, ch);
    assert kind[0] == 't' && kind[1] == GroupDigit(group) && kind[2] == '$';
    assert forall v | v in VERSIONS :: v[0] == '.';
    assert kind[..2][0] == 't' && kind[..2][1] != '$';
  }

  lemma FontIsRead(group: nat, f: Font)
    requires group < FONT_GROUPS && (IsSpace(f.ch) ==> f.ch == ' ')
    ensures Tokens(FontLine(group, f)) != []
    ensures Parsed(Tokens(FontLine(group, f))) == FontRecord(group, FontAsRead(f))
  {
    FontTokens(group, f);
    FontKindIs(group, f.ch);
    HexValues(f.x);
    var ts := Tokens(FontLine(group, f));
    hide Tokens, HexesOf, FontKind, HasGroup, StartsWith, CharAt;
    assert ts[1..] == HexesOf(f.x) == ColumnTokens(ts[1..]);
  }

  /** A font that is read back as it was. */
  predicate FontFits(f: Font) { FontAsRead(f) == f }

  lemma FontComesBackExactlyWhen(f: Font)
    ensures FontFits(f) <==> f.ch != ' ' && f.hexmash == Mash(HexesOf(f.x))
    ensures FontFits(FontAsRead(f))
  {}

  // ---------- Hash points ----------

  /** A group's records are of no other kind. */
  lemma GroupKind(letter: char, group: nat, name: string)
    requires group < HASH_GROUPS && (letter == 'p' || letter == 'h')
    ensures var kind := [letter, GroupDigit(group), '$'] + name;
            && !StartsWith(kind, "//") && kind !in VERSIONS && kind[3..] == name
            && !StartsWith(kind, "z$") && !StartsWith(kind, "s$") && !StartsWith(kind, "r$")
            && !StartsWith(kind, "t$") && !HasGroup(kind, 't', FONT_GROUPS)
            && (HasGroup(kind, 'p', HASH_GROUPS) <==> letter == 'p')
            && (HasGroup(kind, 'h', HASH_GROUPS) <==> letter == 'h')
            && (kind[1] - '0') as nat == group
  {
    var kind := [letter, GroupDigit(group), '$'] + name;
    assert kind[0] == letter && kind[1] == GroupDigit(group) && kind[2] == '$';
    assert forall v | v in VERSIONS :: v[0] == '.';
    assert kind[..2][0] == letter;
  }

  lemma GroupIsSolid(letter: char, group: nat)
    requires group < HASH_GROUPS && (letter == 'p' || letter == 'h')
    ensures Solid([letter, GroupDigit(group), '$'])
  {}

  lemma BlankInFront(x: string)
    requires |x| <= 3
    ensures PadLeft(x, 4) == " " + PadLeft(x, 3)
  {
    PeelBlank(4 - |x|);
  }

  lemma BlankMoved(a: string, b: string, c: string)
    ensures a + (" " + b) + " " + c == a + " " + (b + " " + c)
  {}

  /** A short first number is a token of its own. */
  lemma ShortPointTokens(group: nat, p: HashPoint)
    requires group < HASH_GROUPS && |Decimal(Signed(p.x))| <= 3
    ensures Tokens(PointLine(group, p)) == [['p', GroupDigit(group), '$'], Decimal(Signed(p.x)), Decimal(Signed(p.y))]
  {
    var kind, x, y := ['p', GroupDigit(group), '$'], Decimal(Signed(p.x)), PadLeft(Decimal(Signed(p.y)), 4);
    GroupIsSolid('p', group);
    hide Tokens, PadLeft, Decimal, Signed, Solid, GroupDigit;
    BlankInFront(x);
    TokensOfSolid(kind);
    TokensOfDecimal(Signed(p.x), 3);
    TokensOfDecimal(Signed(p.y), 4);
    TokensOfParts(PadLeft(x, 3), y);
    TokensOfParts(kind, PadLeft(x, 3) + " " + y);
    BlankMoved(kind, PadLeft(x, 3), y);
  }

  /** A longer first number sticks to the name of the record. */
  lemma LongPointTokens(group: nat, p: HashPoint)
    requires group < HASH_GROUPS && |Decimal(Signed(p.x))| >= 4
    ensures Tokens(PointLine(group, p))
            == [['p', GroupDigit(group), '$'] + Decimal(Signed(p.x)), Decimal(Signed(p.y))]
  {
    var kind, x, y := ['p', GroupDigit(group), '$'], Decimal(Signed(p.x)), PadLeft(Decimal(Signed(p.y)), 4);
    assert PadLeft(x, 4) == x;
    AtolOfDecimal(Signed(p.x));
    hide Tokens, PadLeft, Decimal;
    GroupIsSolid('p', group);
    SolidName(kind, x);
    TokensOfSolid(kind + x);
    TokensOfDecimal(Signed(p.y), 4);
    TokensOfParts(kind + x, y);
    assert PointLine(group, p) == (kind + x) + " " + y;
  }

  lemma ShortPointIsRead(group: nat, p: HashPoint)
    requires group < HASH_GROUPS && |Decimal(Signed(p.x))| <= 3
    ensures Tokens(PointLine(group, p)) != [] && Parsed(Tokens(PointLine(group, p))) == PointRecord(group, p)
  {
    ShortPointTokens(group, p);
    AtolOfDecimal(Signed(p.x));
    AtolOfDecimal(Signed(p.y));
    GroupKind('p', group, "");
    assert ['p', GroupDigit(group), '$'] + "" == ['p', GroupDigit(group), '$'];
    hide Tokens, Atol, Decimal, Solid, PointLine;
  }

  /** The x takes the place of y, and y is lost. */
  lemma LongPointIsRead(group: nat, p: HashPoint)
    requires group < HASH_GROUPS && |Decimal(Signed(p.x))| >= 4
    ensures Tokens(PointLine(group, p)) != []
    ensures Parsed(Tokens(PointLine(group, p))) == PointRecord(group, HashPoint(p.y, 0))
  {
    LongPointTokens(group, p);
    AtolOfDecimal(Signed(p.y));
    NothingIsZero();
    GroupKind('p', group, Decimal(Signed(p.x)));
    hide Tokens, Atol, Decimal, Solid, PointLine;
  }

  /** The point that is read for a printed one. */
  function AsRead(p: HashPoint): HashPoint {
    if -99 <= Signed(p.x) <= 999 then p else HashPoint(p.y, 0)
  }

  lemma PointIsReadAs(group: nat, p: HashPoint)
    requires group < HASH_GROUPS
    ensures Tokens(PointLine(group, p)) != []
    ensures Parsed(Tokens(PointLine(group, p))) == PointRecord(group, AsRead(p))
  {
    hide Tokens, Decimal, PointLine, Parsed;
    ShortDecimals(Signed(p.x));
    if |Decimal(Signed(p.x))| <= 3 {
      ShortPointIsRead(group, p);
    } else {
      LongPointIsRead(group, p);
    }
  }

  /** A hash point is read back as it was if and only if its x is printed with at
      most three characters: the format leaves no other blank before it. */
  lemma PointIsReadExactlyWhen(group: nat, p: HashPoint)
    requires group < HASH_GROUPS
    ensures Tokens(PointLine(group, p)) != []
    ensures Parsed(Tokens(PointLine(group, p))) == PointRecord(group, p) <==> -99 <= Signed(p.x) <= 999
  {
    PointIsReadAs(group, p);
    hide Tokens, Decimal, PointLine, Parsed;
  }

  lemma NothingIsZero()
    ensures Atol("") == 0
  {
    var t := "";
    assert t[..DigitRun(t, 10)] == "";
  }

  // ---------- Hash values ----------

  lemma HashTokens(group: nat, h: HashValue)
    requires group < HASH_GROUPS && NoSpace(h.name)
    ensures Tokens(HashLine(group, h)) == [['h', GroupDigit(group), '$'] + h.name, Hex8(h.hash)]
  {
    var kind := ['h', GroupDigit(group), '$'];
    hide Tokens, Hex8, PadRight;
    GroupIsSolid('h', group);
    TokensOfName(kind, h.name, 18);
    TokensOfHex(h.hash, 0);
    TokensOfParts(kind + PadRight(h.name, 18), Hex8(h.hash));
  }

  /** Every hash value is read back as it was. */
  lemma HashIsRead(group: nat, h: HashValue)
    requires group < HASH_GROUPS && NoSpace(h.name)
    ensures Tokens(HashLine(group, h)) != [] && Parsed(Tokens(HashLine(group, h))) == HashRecord(group, h)
  {
    hide Tokens, Strtoul, Hex8;
    HashTokens(group, h);
    TokensOfHex(h.hash, 0);
    GroupKind('h', group, h.name);
  }

  // ---------- Images ----------

  lemma ImageTokens(i: Image)
    requires NoSpace(i.name)
    ensures Tokens(ImageLine(i)) == ["i$" + i.name, Decimal(i.width), Decimal(i.height)]
  {
    var name := "i$" + PadRight(i.name, 16);
    var width, height := PadRight(Decimal(i.width), 3), PadRight(Decimal(i.height), 3);
    hide Decimal, PadRight, Tokens;
    TokensOfName("i$", i.name, 16);
    TokensOfDecimal(i.width, 3);
    TokensOfDecimal(i.height, 3);
    TokensOfParts(width, height);
    TokensOfParts(name, width + " " + height);
  }

  /** Every image header is read back, unless the image is too large. */
  lemma ImageHeaderIsRead(i: Image)
    requires NoSpace(i.name)
    ensures Tokens(ImageLine(i)) != []
    ensures Parsed(Tokens(ImageLine(i)))
            == if i.width * i.height > MAX_IMAGE_SIZE then RegionSizeError else ImageHeader(i.name, i.width, i.height)
  {
    ImageTokens(i);
    AtolOfDecimal(i.width);
    AtolOfDecimal(i.height);
    hide Tokens, Atol, Decimal;
    NotSkipped("i$", i.name);
    NoOther("i$", i.name);
  }

  lemma PartOfRow(row: string, x: nat, part: string)
    requires x * 8 + 8 <= |row| && row[x * 8..x * 8 + 8] == part
    ensures Mid(row, x * 8 + 6, 2) == part[6..8] && Mid(row, x * 8, 6) == part[0..6]
  {}

  lemma AlphaToTheEnd(text: string)
    requires |text| == 8
    ensures var part := Mid(text, 2, 6) + Mid(text, 0, 2); |part| == 8 && part[6..8] + part[0..6] == text
  {
    var part := Mid(text, 2, 6) + Mid(text, 0, 2);
    assert part == text[2..8] + text[0..2];
    assert part[6..8] == text[0..2] && part[0..6] == text[2..8];
    assert text[0..2] + text[2..8] == text;
  }

  /** Moving alpha to the end and back to the front. */
  lemma PixelIsRead(row: string, x: nat, pixel: UInt32)
    requires x * 8 + 8 <= |row| && row[x * 8..x * 8 + 8] == PixelText(pixel)
    ensures PixelAt(row, x) == pixel
  {
    hide Mid, Strtoul, Hex8;
    HexHasAtMostEightDigits(pixel);
    TokensOfHex(pixel, 0);
    AlphaToTheEnd(Hex8(pixel));
    PartOfRow(row, x, PixelText(pixel));
  }

  lemma {:induction false} RowHasPixels(pixels: seq<UInt32>)
    ensures |RowLine(pixels)| == 8 * |pixels|
    ensures forall x | 0 <= x < |pixels| :: RowLine(pixels)[x * 8..x * 8 + 8] == PixelText(pixels[x])
  {
    hide PixelText;
    if pixels != [] {
      var n := |pixels| - 1;
      RowHasPixels(pixels[..n]);
      PixelTextLength(pixels[n]);
      var before, row := RowLine(pixels[..n]), RowLine(pixels);
      assert row == before + PixelText(pixels[n]);
      forall x | 0 <= x < |pixels| ensures row[x * 8..x * 8 + 8] == PixelText(pixels[x]) {
        if x < n {
          assert row[x * 8..x * 8 + 8] == before[x * 8..x * 8 + 8];
        }
      }
    }
  }

  lemma PixelTextLength(pixel: UInt32)
    ensures |PixelText(pixel)| == 8
  {
    HexHasAtMostEightDigits(pixel);
  }

  lemma {:induction false} RowIsReadUpTo(row: string, pixels: seq<UInt32>, width: nat)
    requires width <= |pixels| && |row| == 8 * |pixels|
    requires forall x | 0 <= x < |pixels| :: row[x * 8..x * 8 + 8] == PixelText(pixels[x])
    ensures PixelsOfRow(row, width) == pixels[..width]
  {
    hide PixelAt, PixelText;
    if width > 0 {
      RowIsReadUpTo(row, pixels, width - 1);
      PixelIsRead(row, width - 1, pixels[width - 1]);
    }
  }

  /** Every row of pixels is read back as it was. */
  lemma RowIsRead(pixels: seq<UInt32>)
    ensures PixelsOfRow(RowLine(pixels), |pixels|) == pixels
  {
    RowHasPixels(pixels);
    RowIsReadUpTo(RowLine(pixels), pixels, |pixels|);
    assert pixels[..|pixels|] == pixels;
  }
}
