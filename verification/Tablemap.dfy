/** Tablemaps (CTablemap.cpp): saving all records to a file and loading them
    again. */
module Tablemap {
  import opened Common
  import opened Numerals
  import opened TablemapLines

  datatype Maps = Maps(z: map<string, Size>, s: map<string, Symbol>, r: map<string, Region>,
                       t: seq<map<string, Font>>, p: seq<map<UInt32, HashPoint>>, h: seq<map<UInt32, HashValue>>,
                       i: map<UInt32, Image>)
  {
    predicate Valid() { |t| == FONT_GROUPS && |p| == |h| == HASH_GROUPS }
  }

  const NO_FONTS: seq<map<string, Font>> := [map[], map[], map[], map[], map[], map[], map[], map[]]
  const EMPTY := Maps(map[], map[], map[], NO_FONTS, [map[], map[], map[], map[]], [map[], map[], map[], map[]], map[])

  datatype Status = Success | ErrEof | ErrVersion | ErrSyntax | ErrRegionSize | ErrUnknownLineType

  /** std::map::insert(): an existing entry stays. */
  function Insert<K, V>(m: map<K, V>, k: K, v: V): map<K, V> {
    if k in m then m else m[k := v]
  }

  function PointKey(p: HashPoint): UInt32 {
    (p.x % 0x1_0000) * 0x1_0000 + p.y % 0x1_0000
  }

  // ---------- Loading ----------

  function AtLeastZero(n: int): nat { if n < 0 then 0 else n }

  function PixelsOfRows(rows: seq<string>, width: nat): seq<UInt32> {
    if rows == [] then [] else PixelsOfRow(rows[0], width) + PixelsOfRows(rows[1..], width)
  }

  datatype Next = Stop(status: Status) | Go(rest: seq<string>, maps: Maps)

  /** What follows a line: an image takes as many more lines as it is high. index
      stands for CreateI$Index(). */
  function After(index: Image -> UInt32, record: Line, rest: seq<string>, m: Maps): (next: Next)
    requires m.Valid() && record.Valid()
    ensures next.Go? ==> next.maps.Valid() && |next.rest| <= |rest|
  {
    match record
    case Skipped => Go(rest, m)
    case SyntaxError => Stop(ErrSyntax)
    case RegionSizeError => Stop(ErrRegionSize)
    case UnknownLineType => Stop(ErrUnknownLineType)
    case SizeRecord(s) => Go(rest, m.(z := Insert(m.z, s.name, s)))
    case SymbolRecord(s) => Go(rest, m.(s := Insert(m.s, s.name, s)))
    case RegionRecord(r) => Go(rest, m.(r := Insert(m.r, r.name, r)))
    case FontRecord(g, f) => Go(rest, m.(t := m.t[g := Insert(m.t[g], f.hexmash, f)]))
    case PointRecord(g, p) => Go(rest, m.(p := m.p[g := Insert(m.p[g], PointKey(p), p)]))
    case HashRecord(g, h) => Go(rest, m.(h := m.h[g := Insert(m.h[g], h.hash, h)]))
    case ImageHeader(name, width, height) =>
      var n := AtLeastZero(height);
      if n > |rest| then Stop(ErrSyntax)
      else
        var image := Image(name, width, height, PixelsOfRows(rest[..n], AtLeastZero(width)));
        Go(rest[n..], m.(i := Insert(m.i, index(image), image)))
  }

  function AfterLine(index: Image -> UInt32, line: string, rest: seq<string>, m: Maps): (next: Next)
    requires m.Valid()
    ensures next.Go? ==> next.maps.Valid() && |next.rest| <= |rest|
  {
    var trimmed := Trim(line);
    if trimmed == "" then Go(rest, m) else After(index, Read(trimmed), rest, m)
  }

  function Load(index: Image -> UInt32, lines: seq<string>, m: Maps): (Status, Maps)
    requires m.Valid()
    decreases |lines|
  {
    if lines == [] then (Success, m)
    else
      match AfterLine(index, lines[0], lines[1..], m)
      case Stop(status) => (status, m)
      case Go(rest, maps) => Load(index, rest, maps)
  }

  function SkipEmpty(lines: seq<string>): seq<string> {
    if lines != [] && lines[0] == "" then SkipEmpty(lines[1..]) else lines
  }

  /** Loading a file: its first line that is not empty tells the version. */
  function LoadFile(index: Image -> UInt32, file: seq<string>): (Status, Maps) {
    var lines := SkipEmpty(file);
    if lines == [] then (ErrEof, EMPTY)
    else if !StartsWith(lines[0], ".ohdb2") && !StartsWith(lines[0], ".osdb2") then (ErrVersion, EMPTY)
    else Load(index, lines, EMPTY)
  }

  // ---------- Saving ----------

  /** The records in the order in which they are written. */
  datatype Order = Order(sizes: seq<Size>, symbols: seq<Symbol>, regions: seq<Region>, fonts: seq<seq<Font>>,
                         points: seq<seq<HashPoint>>, hashes: seq<seq<HashValue>>, images: seq<Image>)
  {
    predicate Valid() { |fonts| == FONT_GROUPS && |points| == |hashes| == HASH_GROUPS }
  }

  function SizeLines(sizes: seq<Size>): seq<string> {
    if sizes == [] then [] else [SizeLine(sizes[0])] + SizeLines(sizes[1..])
  }

  function SymbolLines(symbols: seq<Symbol>): seq<string> {
    if symbols == [] then [] else [SymbolLine(symbols[0])] + SymbolLines(symbols[1..])
  }

  function RegionLines(regions: seq<Region>): seq<string> {
    if regions == [] then [] else [RegionLine(regions[0])] + RegionLines(regions[1..])
  }

  /** An image that has all its pixels. */
  predicate IsImage(i: Image) {
    i.width >= 0 && i.height >= 0 && |i.pixels| == i.width * i.height
  }

  function FirstRow(pixels: seq<UInt32>, width: nat): seq<UInt32> {
    if width <= |pixels| then pixels[..width] else pixels
  }

  function OtherRows(pixels: seq<UInt32>, width: nat): seq<UInt32> {
    if width <= |pixels| then pixels[width..] else []
  }

  function RowLines(pixels: seq<UInt32>, width: nat, height: nat): seq<string>
    decreases height
  {
    if height == 0 then []
    else [RowLine(FirstRow(pixels, width))] + RowLines(OtherRows(pixels, width), width, height - 1)
  }

  function ImageText(i: Image): seq<string> {
    [ImageLine(i)] + RowLines(i.pixels, AtLeastZero(i.width), AtLeastZero(i.height))
  }

  function ImageLines(images: seq<Image>): seq<string> {
    if images == [] then [] else ImageText(images[0]) + ImageLines(images[1..])
  }

  function SectionHeader(title: string): seq<string> {
    ["//", "// " + title, "//", ""]
  }

  function Section(title: string, body: seq<string>): seq<string> {
    SectionHeader(title) + body + [""]
  }

  function FontGroupLines(group: nat, fonts: seq<Font>): seq<string>
    requires group < FONT_GROUPS
  {
    if fonts == [] then [] else [FontLine(group, fonts[0])] + FontGroupLines(group, fonts[1..])
  }

  function PointGroupLines(group: nat, points: seq<HashPoint>): seq<string>
    requires group < HASH_GROUPS
  {
    if points == [] then [] else [PointLine(group, points[0])] + PointGroupLines(group, points[1..])
  }

  function HashGroupLines(group: nat, hashes: seq<HashValue>): seq<string>
    requires group < HASH_GROUPS
  {
    if hashes == [] then [] else [HashLine(group, hashes[0])] + HashGroupLines(group, hashes[1..])
  }

  function FontLines(fonts: seq<seq<Font>>, from: nat): seq<string>
    requires |fonts| == FONT_GROUPS && from <= FONT_GROUPS
    decreases FONT_GROUPS - from
  {
    if from == FONT_GROUPS then [] else FontGroupLines(from, fonts[from]) + FontLines(fonts, from + 1)
  }

  function PointLines(points: seq<seq<HashPoint>>, from: nat): seq<string>
    requires |points| == HASH_GROUPS && from <= HASH_GROUPS
    decreases HASH_GROUPS - from
  {
    if from == HASH_GROUPS then [] else PointGroupLines(from, points[from]) + PointLines(points, from + 1)
  }

  function HashLines(hashes: seq<seq<HashValue>>, from: nat): seq<string>
    requires |hashes| == HASH_GROUPS && from <= HASH_GROUPS
    decreases HASH_GROUPS - from
  {
    if from == HASH_GROUPS then [] else HashGroupLines(from, hashes[from]) + HashLines(hashes, from + 1)
  }

  function Preamble(version: string, time: string): seq<string> {
    [".osdb2", "", "// OpenScrape " + version, "", "// " + time, "// 32 bits per pixel", ""]
  }

  function Sections(o: Order): seq<string>
    requires o.Valid()
  {
    Section("sizes", SizeLines(o.sizes))
    + (Section("strings", SymbolLines(o.symbols))
    + (Section("regions", RegionLines(o.regions))
    + (Section("fonts", FontLines(o.fonts, 0))
    + (Section("points", PointLines(o.points, 0))
    + (Section("hash", HashLines(o.hashes, 0))
    + (Section("images", ImageLines(o.images)) + []))))))
  }

  function File(o: Order, version: string, time: string): seq<string>
    requires o.Valid()
  {
    Preamble(version, time) + Sections(o)
  }

  // ---------- Lines that are trimmed ----------

  /** All white space consists of blanks. */
  predicate Plain(s: string) {
    forall c | c in s :: IsSpace(c) ==> c == ' '
  }

  lemma PlainParts(a: string, b: string)
    requires Plain(a) && Plain(b)
    ensures Plain(a + b)
  {
    forall c | c in a + b && IsSpace(c) ensures c == ' ' {
      assert c in a || c in b;
    }
  }

  lemma {:induction false} TrimLeftKeepsTokens(s: string)
    requires Plain(s)
    ensures Tokens(TrimLeft(s)) == Tokens(s) && Plain(TrimLeft(s))
  {
    if s != "" && IsSpace(s[0]) {
      assert s[0] in s;
      TrimLeftKeepsTokens(s[1..]);
    }
  }

  lemma {:induction false} TrimRightKeepsTokens(s: string)
    requires Plain(s)
    ensures Tokens(TrimRight(s)) == Tokens(s)
  {
    if s != "" && IsSpace(s[|s| - 1]) {
      var t := s[..|s| - 1];
      assert s[|s| - 1] in s;
      TrimRightKeepsTokens(t);
      assert s == t + " " + "";
      TokensOfParts(t, "");
    }
  }

  lemma TrimKeepsTokens(s: string)
    requires Plain(s)
    ensures Tokens(Trim(s)) == Tokens(s)
  {
    TrimLeftKeepsTokens(s);
    TrimRightKeepsTokens(TrimLeft(s));
  }

  lemma SolidIsPlain(s: string)
    requires NoSpace(s)
    ensures Plain(s)
  {}

  lemma PaddedIsPlain(s: string, width: nat)
    requires NoSpace(s)
    ensures Plain(PadLeft(s, width)) && Plain(PadRight(s, width))
  {
    PlainParts(Times(' ', width - |s|), s);
    PlainParts(s, Times(' ', width - |s|));
  }

  lemma NumbersArePlain(n: Int32, u: UInt32, width: nat)
    ensures Plain(Decimal(n)) && Plain(PadLeft(Decimal(n), width)) && Plain(PadRight(Decimal(n), width))
    ensures Plain(PadLeft(Hex(u), width)) && Plain(Hex8(u))
  {
    AtolOfDecimal(n);
    PaddedIsPlain(Decimal(n), width);
    StrtoulOfHex(u, "");
    assert "" + Hex(u) == Hex(u);
    PaddedIsPlain(Hex(u), width);
    StrtoulOfHex(u, Times('0', 8 - |Hex(u)|));
  }

  lemma PrefixesArePlain()
    ensures Plain("") && Plain(" ") && Plain("z$") && Plain("r$") && Plain("i$") && Plain("//")
  {}

  /** Two plain parts with a blank between them. */
  lemma PlainPair(a: string, b: string)
    requires Plain(a) && Plain(b)
    ensures Plain(a + " " + b)
  {
    PlainParts(a, " ");
    PlainParts(a + " ", b);
  }

  lemma NameIsPlain(prefix: string, name: string, width: nat)
    requires Plain(prefix) && NoSpace(name)
    ensures Plain(prefix + PadRight(name, width))
  {
    PaddedIsPlain(name, width);
    PlainParts(prefix, PadRight(name, width));
  }

  lemma SizeLineIsPlain(s: Size)
    requires NoSpace(s.name)
    ensures Plain(SizeLine(s))
  {
    hide Plain, NoSpace, Decimal, PadRight;
    PrefixesArePlain();
    NumbersArePlain(s.width, 0, 0);
    NumbersArePlain(s.height, 0, 0);
    NameIsPlain("z$", s.name, 16);
    PlainParts(" ", Decimal(s.height));
    PlainPair(Decimal(s.width), " " + Decimal(s.height));
    PlainPair("z$" + PadRight(s.name, 16), Decimal(s.width) + " " + (" " + Decimal(s.height)));
  }

  lemma RegionLineIsPlain(r: Region)
    requires NoSpace(r.name) && NoSpace(r.transform)
    ensures Plain(RegionLine(r))
  {
    hide Plain, NoSpace, Decimal, Hex, PadRight, PadLeft, Signed;
    PrefixesArePlain();
    NumbersArePlain(Signed(r.left), 0, 3);
    NumbersArePlain(Signed(r.top), 0, 3);
    NumbersArePlain(Signed(r.right), 0, 3);
    NumbersArePlain(Signed(r.bottom), r.color, 3);
    NumbersArePlain(r.radius, r.color, 4);
    NumbersArePlain(0, r.color, 8);
    NameIsPlain("r$", r.name, 18);
    SolidIsPlain(r.transform);
    var left, top := PadLeft(Decimal(Signed(r.left)), 3), PadLeft(Decimal(Signed(r.top)), 3);
    var right, bottom := PadLeft(Decimal(Signed(r.right)), 3), PadLeft(Decimal(Signed(r.bottom)), 3);
    PlainPair(right, bottom);
    PlainPair(top, right + " " + bottom);
    PlainPair(left, top + " " + (right + " " + bottom));
    PlainPair(PadLeft(Decimal(r.radius), 4), r.transform);
    PlainPair(PadLeft(Hex(r.color), 8), PadLeft(Decimal(r.radius), 4) + " " + r.transform);
    PlainPair(Corners(r), Style(r));
    PlainPair("r$" + PadRight(r.name, 18), Corners(r) + " " + Style(r));
  }

  lemma GroupIsPlain(letter: char, group: nat)
    requires group < HASH_GROUPS && !IsSpace(letter)
    ensures Plain([letter, GroupDigit(group), '$'])
  {}

  lemma {:induction false} ColumnsArePlain(x: seq<UInt32>)
    ensures Plain(ColumnsText(x))
  {
    hide Plain, Hex;
    if x == [] {
      PrefixesArePlain();
    } else {
      var n := |x| - 1;
      ColumnsArePlain(x[..n]);
      NumbersArePlain(0, x[n], 0);
      assert PadLeft(Hex(x[n]), 0) == Hex(x[n]);
      PlainPair(ColumnsText(x[..n]), Hex(x[n]));
    }
  }

  lemma FontLineIsPlain(group: nat, f: Font)
    requires group < FONT_GROUPS && (IsSpace(f.ch) ==> f.ch == ' ')
    ensures Plain(FontLine(group, f))
  {
    ColumnsArePlain(f.x);
    FontStartIsPlain(group, f.ch);
    hide Plain, ColumnsText;
    PlainParts(['t', GroupDigit(group), '$', f.ch], ColumnsText(f.x));
  }

  lemma FontStartIsPlain(group: nat, ch: char)
    requires group < FONT_GROUPS && (IsSpace(ch) ==> ch == ' ')
    ensures Plain(['t', GroupDigit(group), '$', ch])
  {}

  lemma PointLineIsPlain(group: nat, p: HashPoint)
    requires group < HASH_GROUPS
    ensures Plain(PointLine(group, p))
  {
    GroupIsPlain('p', group);
    hide Plain, Decimal, PadLeft, Signed, GroupDigit;
    NumbersArePlain(Signed(p.x), 0, 4);
    NumbersArePlain(Signed(p.y), 0, 4);
    PlainParts(['p', GroupDigit(group), '$'], PadLeft(Decimal(Signed(p.x)), 4));
    PlainPair(['p', GroupDigit(group), '$'] + PadLeft(Decimal(Signed(p.x)), 4), PadLeft(Decimal(Signed(p.y)), 4));
  }

  lemma HashLineIsPlain(group: nat, h: HashValue)
    requires group < HASH_GROUPS && NoSpace(h.name)
    ensures Plain(HashLine(group, h))
  {
    GroupIsPlain('h', group);
    hide Plain, Hex8, PadRight, GroupDigit, NoSpace;
    NumbersArePlain(0, h.hash, 0);
    NameIsPlain(['h', GroupDigit(group), '$'], h.name, 18);
    PlainPair(['h', GroupDigit(group), '$'] + PadRight(h.name, 18), Hex8(h.hash));
  }

  lemma ImageLineIsPlain(i: Image)
    requires NoSpace(i.name)
    ensures Plain(ImageLine(i))
  {
    hide Plain, NoSpace, Decimal, PadRight;
    PrefixesArePlain();
    NumbersArePlain(i.width, 0, 3);
    NumbersArePlain(i.height, 0, 3);
    NameIsPlain("i$", i.name, 16);
    PlainPair(PadRight(Decimal(i.width), 3), PadRight(Decimal(i.height), 3));
    PlainPair("i$" + PadRight(i.name, 16), PadRight(Decimal(i.width), 3) + " " + PadRight(Decimal(i.height), 3));
  }

  // ---------- Loading what has been saved ----------

  /** The first line is read as this record. */
  lemma LineIsLoaded(index: Image -> UInt32, line: string, record: Line, tail: seq<string>, m: Maps)
    requires m.Valid() && Plain(line) && Tokens(line) != [] && Parsed(Tokens(line)) == record && record.Valid()
    ensures var next := After(index, record, tail, m);
            next.Go? ==> Load(index, [line] + tail, m) == Load(index, next.rest, next.maps)
  {
    hide Parsed, After, Plain, Trim, Tokens;
    TrimKeepsTokens(line);
    NothingTrimmed(line);
    RecordIsLoaded(index, line, record, tail, m);
  }

  lemma NothingTrimmed(line: string)
    requires Tokens(Trim(line)) != []
    ensures Trim(line) != ""
  {}

  lemma RecordIsLoaded(index: Image -> UInt32, line: string, record: Line, tail: seq<string>, m: Maps)
    requires m.Valid() && Trim(line) != "" && Read(Trim(line)) == record
    ensures var next := After(index, record, tail, m);
            next.Go? ==> Load(index, [line] + tail, m) == Load(index, next.rest, next.maps)
  {
    hide Read, After, Trim;
    assert ([line] + tail)[1..] == tail;
  }

  predicate IsSkipped(line: string) {
    Trim(line) == "" || Read(Trim(line)).Skipped?
  }

  lemma LineIsSkipped(index: Image -> UInt32, line: string, tail: seq<string>, m: Maps)
    requires m.Valid() && IsSkipped(line)
    ensures Load(index, [line] + tail, m) == Load(index, tail, m)
  {
    assert ([line] + tail)[1..] == tail;
    hide Trim, Read;
  }

  lemma {:induction false} LinesAreSkipped(index: Image -> UInt32, lines: seq<string>, tail: seq<string>, m: Maps)
    requires m.Valid() && forall l | l in lines :: IsSkipped(l)
    ensures Load(index, lines + tail, m) == Load(index, tail, m)
    decreases |lines|
  {
    hide Load, IsSkipped;
    if lines == [] {
      assert lines + tail == tail;
    } else {
      LineIsSkipped(index, lines[0], lines[1..] + tail, m);
      LinesAreSkipped(index, lines[1..], tail, m);
      assert lines + tail == [lines[0]] + (lines[1..] + tail);
    }
  }

  lemma SizeIsLoaded(index: Image -> UInt32, s: Size, tail: seq<string>, m: Maps)
    requires m.Valid() && NoSpace(s.name)
    ensures Load(index, [SizeLine(s)] + tail, m) == Load(index, tail, m.(z := Insert(m.z, s.name, s)))
  {
    hide Load, Tokens, Parsed, Plain, SizeLine, Insert;
    SizeLineIsPlain(s);
    SizeIsRead(s);
    LineIsLoaded(index, SizeLine(s), SizeRecord(s), tail, m);
  }

  /** A string that is read, and one that is skipped. */
  lemma SymbolIsLoaded(index: Image -> UInt32, s: Symbol, tail: seq<string>, m: Maps)
    requires m.Valid() && NoSpace(s.name) && Trim(s.text) != ""
    ensures Load(index, [SymbolLine(s)] + tail, m)
            == Load(index, tail, if !SymbolAsRead(s).SymbolRecord? then m
                                 else var r := SymbolAsRead(s).symbol; m.(s := Insert(m.s, r.name, r)))
  {
    hide Load, Read, Trim, SymbolLine, Insert;
    SymbolIsRead(s);
    SymbolComesBackExactlyWhen(s);
    RecordIsLoaded(index, SymbolLine(s), SymbolAsRead(s), tail, m);
  }

  lemma FontIsLoaded(index: Image -> UInt32, g: nat, f: Font, tail: seq<string>, m: Maps)
    requires m.Valid() && g < FONT_GROUPS && (IsSpace(f.ch) ==> f.ch == ' ')
    ensures var r := FontAsRead(f);
            Load(index, [FontLine(g, f)] + tail, m)
            == Load(index, tail, m.(t := m.t[g := Insert(m.t[g], r.hexmash, r)]))
  {
    hide Load, Tokens, Parsed, Plain, FontLine, Insert, FontAsRead;
    FontLineIsPlain(g, f);
    FontIsRead(g, f);
    LineIsLoaded(index, FontLine(g, f), FontRecord(g, FontAsRead(f)), tail, m);
  }

  lemma RegionIsLoaded(index: Image -> UInt32, r: Region, tail: seq<string>, m: Maps)
    requires m.Valid() && NoSpace(r.name) && Solid(r.transform)
    ensures Load(index, [RegionLine(r)] + tail, m) == Load(index, tail, m.(r := Insert(m.r, r.name, r)))
  {
    hide Load, Tokens, Parsed, Plain, RegionLine, Insert;
    RegionLineIsPlain(r);
    RegionIsRead(r);
    LineIsLoaded(index, RegionLine(r), RegionRecord(r), tail, m);
  }

  lemma PointIsLoaded(index: Image -> UInt32, g: nat, p: HashPoint, tail: seq<string>, m: Maps)
    requires m.Valid() && g < HASH_GROUPS
    ensures Load(index, [PointLine(g, p)] + tail, m)
            == Load(index, tail, m.(p := m.p[g := Insert(m.p[g], PointKey(AsRead(p)), AsRead(p))]))
  {
    hide Load, Tokens, Parsed, Plain, PointLine, Insert;
    PointLineIsPlain(g, p);
    PointIsReadAs(g, p);
    LineIsLoaded(index, PointLine(g, p), PointRecord(g, AsRead(p)), tail, m);
  }

  lemma HashIsLoaded(index: Image -> UInt32, g: nat, h: HashValue, tail: seq<string>, m: Maps)
    requires m.Valid() && g < HASH_GROUPS && NoSpace(h.name)
    ensures Load(index, [HashLine(g, h)] + tail, m)
            == Load(index, tail, m.(h := m.h[g := Insert(m.h[g], h.hash, h)]))
  {
    hide Load, Tokens, Parsed, Plain, HashLine, Insert;
    HashLineIsPlain(g, h);
    HashIsRead(g, h);
    LineIsLoaded(index, HashLine(g, h), HashRecord(g, h), tail, m);
  }

  lemma {:induction false} RowsAreRead(pixels: seq<UInt32>, width: nat, height: nat)
    requires |pixels| == width * height
    ensures PixelsOfRows(RowLines(pixels, width, height), width) == pixels
    ensures |RowLines(pixels, width, height)| == height
    decreases height
  {
    hide RowLine, PixelsOfRow, FirstRow, OtherRows;
    if height > 0 {
      OneRowLess(pixels, width, height);
      RowIsRead(pixels[..width]);
      RowsAreRead(pixels[width..], width, height - 1);
      var rows := RowLines(pixels, width, height);
      assert rows[1..] == RowLines(pixels[width..], width, height - 1);
      assert pixels[..width] + pixels[width..] == pixels;
    }
  }

  lemma OneRowLess(pixels: seq<UInt32>, width: nat, height: nat)
    requires height > 0 && |pixels| == width * height
    ensures width <= |pixels| && |pixels[width..]| == width * (height - 1)
    ensures FirstRow(pixels, width) == pixels[..width] && OtherRows(pixels, width) == pixels[width..]
  {
    assert width * height == width * (height - 1) + width;
  }

  lemma ImageIsLoaded(index: Image -> UInt32, i: Image, tail: seq<string>, m: Maps)
    requires m.Valid() && NoSpace(i.name) && IsImage(i) && i.width * i.height <= MAX_IMAGE_SIZE
    ensures Load(index, ImageText(i) + tail, m) == Load(index, tail, m.(i := Insert(m.i, index(i), i)))
  {
    hide Load, Tokens, Parsed, Plain, ImageLine, RowLines, PixelsOfRows, Insert;
    var rows := RowLines(i.pixels, i.width, i.height);
    ImageLineIsPlain(i);
    ImageHeaderIsRead(i);
    RowsAreRead(i.pixels, i.width, i.height);
    LineIsLoaded(index, ImageLine(i), ImageHeader(i.name, i.width, i.height), rows + tail, m);
    assert ImageText(i) + tail == [ImageLine(i)] + (rows + tail);
    assert (rows + tail)[..i.height] == rows && (rows + tail)[i.height..] == tail;
  }

  // ---------- Whole maps ----------

  function AddAll<K, V>(m: map<K, V>, vs: seq<V>, key: V -> K): map<K, V>
    decreases |vs|
  {
    if vs == [] then m else AddAll(Insert(m, key(vs[0]), vs[0]), vs[1..], key)
  }

  /** The values of a map, in some order, each stored under its own key. */
  ghost predicate Enumerates<K, V>(vs: seq<V>, m: map<K, V>, key: V -> K) {
    && (forall v | v in vs :: key(v) in m && m[key(v)] == v)
    && (forall k | k in m :: key(m[k]) == k && m[k] in vs)
  }

  lemma {:induction false} AddAllAgrees<K, V>(m: map<K, V>, vs: seq<V>, key: V -> K, goal: map<K, V>)
    requires forall k | k in m :: k in goal && goal[k] == m[k]
    requires forall v | v in vs :: key(v) in goal && goal[key(v)] == v
    ensures var r := AddAll(m, vs, key);
            && (forall k | k in r :: k in goal && goal[k] == r[k])
            && (forall k | k in m :: k in r) && (forall v | v in vs :: key(v) in r)
    decreases |vs|
  {
    if vs != [] {
      var more := Insert(m, key(vs[0]), vs[0]);
      AddAllAgrees(more, vs[1..], key, goal);
      assert key(vs[0]) in more;
    }
  }

  /** Inserting all values of a map, in any order, builds the map again. */
  lemma AddAllRestores<K, V>(vs: seq<V>, key: V -> K, goal: map<K, V>)
    requires Enumerates(vs, goal, key)
    ensures AddAll(map[], vs, key) == goal
  {
    AddAllAgrees(map[], vs, key, goal);
    var r := AddAll(map[], vs, key);
    forall k | k in goal ensures k in r {
      assert goal[k] in vs && key(goal[k]) == k;
    }
  }

  function SizeKey(s: Size): string { s.name }

  function SymbolKey(s: Symbol): string { s.name }

  function FontKey(f: Font): string { f.hexmash }

  function RegionKey(r: Region): string { r.name }

  function HashKey(h: HashValue): UInt32 { h.hash }

  lemma {:induction false} SizesAreLoaded(index: Image -> UInt32, vs: seq<Size>, tail: seq<string>, m: Maps)
    requires m.Valid() && forall v | v in vs :: NoSpace(v.name)
    ensures Load(index, SizeLines(vs) + tail, m) == Load(index, tail, m.(z := AddAll(m.z, vs, SizeKey)))
    decreases |vs|
  {
    hide Load, SizeLine, NoSpace;
    if vs == [] {
      assert SizeLines(vs) + tail == tail;
    } else {
      var rest := SizeLines(vs[1..]);
      assert SizeLines(vs) + tail == [SizeLine(vs[0])] + (rest + tail);
      SizeIsLoaded(index, vs[0], rest + tail, m);
      SizesAreLoaded(index, vs[1..], tail, m.(z := Insert(m.z, vs[0].name, vs[0])));
    }
  }

  /** The strings that are read for the printed ones. */
  function AllSymbolsAsRead(vs: seq<Symbol>): seq<Symbol> {
    if vs == [] then []
    else
      var first := SymbolAsRead(vs[0]);
      (if first.SymbolRecord? then [first.symbol] else []) + AllSymbolsAsRead(vs[1..])
  }

  lemma {:induction false} SymbolsAreLoaded(index: Image -> UInt32, vs: seq<Symbol>, tail: seq<string>, m: Maps)
    requires m.Valid() && forall v | v in vs :: NoSpace(v.name) && Trim(v.text) != ""
    ensures Load(index, SymbolLines(vs) + tail, m)
            == Load(index, tail, m.(s := AddAll(m.s, AllSymbolsAsRead(vs), SymbolKey)))
    decreases |vs|
  {
    hide Load, SymbolLine, NoSpace, SymbolAsRead, Trim;
    if vs == [] {
      assert SymbolLines(vs) + tail == tail;
    } else {
      var rest := SymbolLines(vs[1..]);
      assert SymbolLines(vs) + tail == [SymbolLine(vs[0])] + (rest + tail);
      SymbolIsLoaded(index, vs[0], rest + tail, m);
      if SymbolAsRead(vs[0]).SymbolRecord? {
        var first := SymbolAsRead(vs[0]).symbol;
        SymbolsAreLoaded(index, vs[1..], tail, m.(s := Insert(m.s, first.name, first)));
        assert AllSymbolsAsRead(vs)[1..] == AllSymbolsAsRead(vs[1..]);
      } else {
        SymbolsAreLoaded(index, vs[1..], tail, m);
        assert AllSymbolsAsRead(vs) == AllSymbolsAsRead(vs[1..]);
      }
    }
  }

  lemma {:induction false} RegionsAreLoaded(index: Image -> UInt32, vs: seq<Region>, tail: seq<string>, m: Maps)
    requires m.Valid() && forall v | v in vs :: NoSpace(v.name) && Solid(v.transform)
    ensures Load(index, RegionLines(vs) + tail, m) == Load(index, tail, m.(r := AddAll(m.r, vs, RegionKey)))
    decreases |vs|
  {
    hide Load, RegionLine, NoSpace, Solid;
    if vs == [] {
      assert RegionLines(vs) + tail == tail;
    } else {
      var rest := RegionLines(vs[1..]);
      assert RegionLines(vs) + tail == [RegionLine(vs[0])] + (rest + tail);
      RegionIsLoaded(index, vs[0], rest + tail, m);
      RegionsAreLoaded(index, vs[1..], tail, m.(r := Insert(m.r, vs[0].name, vs[0])));
    }
  }

  /** The points that are read for the printed ones. */
  function AllAsRead(vs: seq<HashPoint>): seq<HashPoint> {
    if vs == [] then [] else [AsRead(vs[0])] + AllAsRead(vs[1..])
  }

  lemma {:induction false} PointGroupIsLoaded(index: Image -> UInt32, g: nat, vs: seq<HashPoint>,
                                                    tail: seq<string>, m: Maps)
    requires m.Valid() && g < HASH_GROUPS
    ensures Load(index, PointGroupLines(g, vs) + tail, m)
            == Load(index, tail, m.(p := m.p[g := AddAll(m.p[g], AllAsRead(vs), PointKey)]))
    decreases |vs|
  {
    hide Load, PointLine, AsRead, PointKey;
    if vs == [] {
      assert PointGroupLines(g, vs) + tail == tail && m.p[g := m.p[g]] == m.p;
    } else {
      var rest := PointGroupLines(g, vs[1..]);
      var first := AsRead(vs[0]);
      assert PointGroupLines(g, vs) + tail == [PointLine(g, vs[0])] + (rest + tail);
      PointIsLoaded(index, g, vs[0], rest + tail, m);
      var more := m.(p := m.p[g := Insert(m.p[g], PointKey(first), first)]);
      PointGroupIsLoaded(index, g, vs[1..], tail, more);
      assert AllAsRead(vs)[1..] == AllAsRead(vs[1..]);
      assert more.p[g := AddAll(more.p[g], AllAsRead(vs[1..]), PointKey)]
             == m.p[g := AddAll(m.p[g], AllAsRead(vs), PointKey)];
    }
  }

  lemma {:induction false} HashGroupIsLoaded(index: Image -> UInt32, g: nat, vs: seq<HashValue>,
                                                   tail: seq<string>, m: Maps)
    requires m.Valid() && g < HASH_GROUPS && forall v | v in vs :: NoSpace(v.name)
    ensures Load(index, HashGroupLines(g, vs) + tail, m)
            == Load(index, tail, m.(h := m.h[g := AddAll(m.h[g], vs, HashKey)]))
    decreases |vs|
  {
    hide Load, HashLine, NoSpace;
    if vs == [] {
      assert HashGroupLines(g, vs) + tail == tail && m.h[g := m.h[g]] == m.h;
    } else {
      var rest := HashGroupLines(g, vs[1..]);
      assert HashGroupLines(g, vs) + tail == [HashLine(g, vs[0])] + (rest + tail);
      HashIsLoaded(index, g, vs[0], rest + tail, m);
      var more := m.(h := m.h[g := Insert(m.h[g], vs[0].hash, vs[0])]);
      HashGroupIsLoaded(index, g, vs[1..], tail, more);
      assert more.h[g := AddAll(more.h[g], vs[1..], HashKey)] == m.h[g := AddAll(m.h[g], vs, HashKey)];
    }
  }

  /** The fonts that are read for the printed ones. */
  function AllFontsAsRead(vs: seq<Font>): seq<Font> {
    if vs == [] then [] else [FontAsRead(vs[0])] + AllFontsAsRead(vs[1..])
  }

  lemma {:induction false} FontGroupIsLoaded(index: Image -> UInt32, g: nat, vs: seq<Font>, tail: seq<string>, m: Maps)
    requires m.Valid() && g < FONT_GROUPS && forall v | v in vs :: IsSpace(v.ch) ==> v.ch == ' '
    ensures Load(index, FontGroupLines(g, vs) + tail, m)
            == Load(index, tail, m.(t := m.t[g := AddAll(m.t[g], AllFontsAsRead(vs), FontKey)]))
    decreases |vs|
  {
    hide Load, FontLine, FontAsRead;
    if vs == [] {
      assert FontGroupLines(g, vs) + tail == tail && m.t[g := m.t[g]] == m.t;
    } else {
      var rest := FontGroupLines(g, vs[1..]);
      var first := FontAsRead(vs[0]);
      assert FontGroupLines(g, vs) + tail == [FontLine(g, vs[0])] + (rest + tail);
      FontIsLoaded(index, g, vs[0], rest + tail, m);
      var more := m.(t := m.t[g := Insert(m.t[g], first.hexmash, first)]);
      FontGroupIsLoaded(index, g, vs[1..], tail, more);
      assert AllFontsAsRead(vs)[1..] == AllFontsAsRead(vs[1..]);
      assert more.t[g := AddAll(more.t[g], AllFontsAsRead(vs[1..]), FontKey)]
             == m.t[g := AddAll(m.t[g], AllFontsAsRead(vs), FontKey)];
    }
  }

  lemma {:induction false} ImagesAreLoaded(index: Image -> UInt32, vs: seq<Image>, tail: seq<string>, m: Maps)
    requires m.Valid() && forall v | v in vs :: NoSpace(v.name) && IsImage(v) && v.width * v.height <= MAX_IMAGE_SIZE
    ensures Load(index, ImageLines(vs) + tail, m) == Load(index, tail, m.(i := AddAll(m.i, vs, index)))
    decreases |vs|
  {
    hide Load, ImageText, NoSpace, IsImage;
    if vs == [] {
      assert ImageLines(vs) + tail == tail;
    } else {
      var rest := ImageLines(vs[1..]);
      assert ImageLines(vs) + tail == ImageText(vs[0]) + (rest + tail);
      ImageIsLoaded(index, vs[0], rest + tail, m);
      ImagesAreLoaded(index, vs[1..], tail, m.(i := Insert(m.i, index(vs[0]), vs[0])));
    }
  }

  function AddGroups<K, V>(ms: seq<map<K, V>>, vss: seq<seq<V>>, from: nat, key: V -> K): (r: seq<map<K, V>>)
    requires |ms| == |vss| && from <= |ms|
    ensures |r| == |ms|
    decreases |ms| - from
  {
    if from == |ms| then ms
    else AddGroups(ms[from := AddAll(ms[from], vss[from], key)], vss, from + 1, key)
  }

  lemma {:induction false} AddGroupsRestores<K, V>(ms: seq<map<K, V>>, vss: seq<seq<V>>, from: nat, key: V -> K,
                                                   goal: seq<map<K, V>>)
    requires |ms| == |vss| == |goal| && from <= |ms|
    requires forall g | 0 <= g < |ms| :: Enumerates(vss[g], goal[g], key)
    requires forall g | 0 <= g < |ms| :: ms[g] == if g < from then goal[g] else map[]
    ensures AddGroups(ms, vss, from, key) == goal
    decreases |ms| - from
  {
    hide Enumerates, AddAll;
    if from < |ms| {
      AddAllRestores(vss[from], key, goal[from]);
      AddGroupsRestores(ms[from := AddAll(ms[from], vss[from], key)], vss, from + 1, key, goal);
    }
  }

  function GroupsAsRead(vss: seq<seq<HashPoint>>): (r: seq<seq<HashPoint>>)
    ensures |r| == |vss| && forall g | 0 <= g < |r| :: r[g] == AllAsRead(vss[g])
  {
    seq(|vss|, g requires 0 <= g < |vss| => AllAsRead(vss[g]))
  }

  lemma {:induction false} PointsAreLoaded(index: Image -> UInt32, vss: seq<seq<HashPoint>>, from: nat,
                                           tail: seq<string>, m: Maps)
    requires m.Valid() && |vss| == HASH_GROUPS && from <= HASH_GROUPS
    ensures Load(index, PointLines(vss, from) + tail, m)
            == Load(index, tail, m.(p := AddGroups(m.p, GroupsAsRead(vss), from, PointKey)))
    decreases HASH_GROUPS - from
  {
    hide Load, PointGroupLines, AllAsRead, AddAll;
    if from == HASH_GROUPS {
      assert PointLines(vss, from) + tail == tail;
    } else {
      var rest := PointLines(vss, from + 1);
      assert PointLines(vss, from) + tail == PointGroupLines(from, vss[from]) + (rest + tail);
      PointGroupIsLoaded(index, from, vss[from], rest + tail, m);
      var more := m.p[from := AddAll(m.p[from], AllAsRead(vss[from]), PointKey)];
      PointsAreLoaded(index, vss, from + 1, tail, m.(p := more));
    }
  }

  function FontGroupsAsRead(vss: seq<seq<Font>>): (r: seq<seq<Font>>)
    ensures |r| == |vss| && forall g | 0 <= g < |r| :: r[g] == AllFontsAsRead(vss[g])
  {
    seq(|vss|, g requires 0 <= g < |vss| => AllFontsAsRead(vss[g]))
  }

  lemma {:induction false} FontsAreLoaded(index: Image -> UInt32, vss: seq<seq<Font>>, from: nat,
                                          tail: seq<string>, m: Maps)
    requires m.Valid() && |vss| == FONT_GROUPS && from <= FONT_GROUPS
    requires forall g | 0 <= g < FONT_GROUPS :: forall v | v in vss[g] :: IsSpace(v.ch) ==> v.ch == ' '
    ensures Load(index, FontLines(vss, from) + tail, m)
            == Load(index, tail, m.(t := AddGroups(m.t, FontGroupsAsRead(vss), from, FontKey)))
    decreases FONT_GROUPS - from
  {
    hide Load, FontGroupLines, AllFontsAsRead, AddAll;
    if from == FONT_GROUPS {
      assert FontLines(vss, from) + tail == tail;
    } else {
      var rest := FontLines(vss, from + 1);
      assert FontLines(vss, from) + tail == FontGroupLines(from, vss[from]) + (rest + tail);
      FontGroupIsLoaded(index, from, vss[from], rest + tail, m);
      var more := m.t[from := AddAll(m.t[from], AllFontsAsRead(vss[from]), FontKey)];
      FontsAreLoaded(index, vss, from + 1, tail, m.(t := more));
    }
  }

  // ---------- Which points come back ----------

  predicate FitsField(p: HashPoint) { AsRead(p) == p }

  lemma {:induction false} ReadPoints(vs: seq<HashPoint>, w: HashPoint) returns (v: HashPoint)
    requires w in AllAsRead(vs)
    ensures v in vs && w == AsRead(v)
    decreases |vs|
  {
    if w == AsRead(vs[0]) {
      v := vs[0];
    } else {
      v := ReadPoints(vs[1..], w);
    }
  }

  lemma {:induction false} FittingPointsAreRead(vs: seq<HashPoint>)
    requires forall v | v in vs :: FitsField(v)
    ensures AllAsRead(vs) == vs
  {
    if vs != [] {
      FittingPointsAreRead(vs[1..]);
      assert FitsField(vs[0]);
      assert vs == [vs[0]] + vs[1..];
    }
  }

  lemma {:induction false} AddedValues<K, V>(m: map<K, V>, vs: seq<V>, key: V -> K, k: K)
    requires k in AddAll(m, vs, key)
    ensures AddAll(m, vs, key)[k] in vs || (k in m && AddAll(m, vs, key)[k] == m[k])
    decreases |vs|
  {
    if vs != [] {
      AddedValues(Insert(m, key(vs[0]), vs[0]), vs[1..], key, k);
    }
  }

  /** A point that does not fit comes back only as another one that does not fit
      either; so not all of them can. */
  lemma UnfitPointIsLost(vs: seq<HashPoint>, goal: map<UInt32, HashPoint>, p: HashPoint)
    requires Enumerates(vs, goal, PointKey) && p in vs && !FitsField(p)
    ensures AddAll(map[], AllAsRead(vs), PointKey) != goal
  {
    hide PointKey;
    var r := AddAll(map[], AllAsRead(vs), PointKey);
    if r == goal {
      AddedValues(map[], AllAsRead(vs), PointKey, PointKey(p));
      var v := ReadPoints(vs, p);
      AddedValues(map[], AllAsRead(vs), PointKey, PointKey(v));
      var u := ReadPoints(vs, v);
      assert false;
    }
  }

  lemma GroupComesBackExactlyWhen(vs: seq<HashPoint>, goal: map<UInt32, HashPoint>)
    requires Enumerates(vs, goal, PointKey)
    ensures AddAll(map[], AllAsRead(vs), PointKey) == goal <==> forall v | v in vs :: FitsField(v)
  {
    hide PointKey, FitsField, AllAsRead, AddAll, Enumerates;
    if forall v | v in vs :: FitsField(v) {
      FittingPointsAreRead(vs);
      AddAllRestores(vs, PointKey, goal);
    } else {
      var p :| p in vs && !FitsField(p);
      UnfitPointIsLost(vs, goal, p);
    }
  }

  lemma {:induction false} GroupsOneByOne<K, V>(ms: seq<map<K, V>>, vss: seq<seq<V>>, from: nat, key: V -> K, g: nat)
    requires |ms| == |vss| && from <= |ms| && g < |ms|
    ensures AddGroups(ms, vss, from, key)[g] == if g < from then ms[g] else AddAll(ms[g], vss[g], key)
    decreases |ms| - from
  {
    hide AddAll;
    if from < |ms| {
      GroupsOneByOne(ms[from := AddAll(ms[from], vss[from], key)], vss, from + 1, key, g);
    }
  }

  /** The hash points after loading. */
  function PointsLoaded(vss: seq<seq<HashPoint>>): (r: seq<map<UInt32, HashPoint>>)
    requires |vss| == HASH_GROUPS
    ensures |r| == HASH_GROUPS
  {
    AddGroups(EMPTY.p, GroupsAsRead(vss), 0, PointKey)
  }

  ghost predicate AllFit(vss: seq<seq<HashPoint>>) {
    forall g | 0 <= g < |vss| :: GroupFits(vss[g])
  }

  ghost predicate GroupFits(vs: seq<HashPoint>) {
    forall v | v in vs :: FitsField(v)
  }

  lemma PointsComeBackExactlyWhen(vss: seq<seq<HashPoint>>, goal: seq<map<UInt32, HashPoint>>)
    requires |vss| == |goal| == HASH_GROUPS
    requires forall g | 0 <= g < HASH_GROUPS :: Enumerates(vss[g], goal[g], PointKey)
    ensures PointsLoaded(vss) == goal <==> AllFit(vss)
  {
    hide Enumerates, FitsField, AddAll, AddGroups, AllAsRead, GroupsAsRead, PointKey;
    forall g | 0 <= g < HASH_GROUPS ensures PointsLoaded(vss)[g] == goal[g] <==> GroupFits(vss[g]) {
      GroupsOneByOne(EMPTY.p, GroupsAsRead(vss), 0, PointKey, g);
      GroupComesBackExactlyWhen(vss[g], goal[g]);
    }
  }

  // ---------- Which strings and fonts come back ----------

  /** If only fitting records are read, and fitting ones as they are, the map comes
      back if and only if all its records fit. */
  lemma ComesBackExactlyWhen<K, V>(vs: seq<V>, read: seq<V>, key: V -> K, goal: map<K, V>, fits: V -> bool)
    requires Enumerates(vs, goal, key) && (forall v | v in read :: fits(v))
    requires (forall v | v in vs :: fits(v)) ==> read == vs
    ensures AddAll(map[], read, key) == goal <==> forall v | v in vs :: fits(v)
  {
    var r := AddAll(map[], read, key);
    if r == goal {
      forall v | v in vs ensures fits(v) {
        AddedValues(map[], read, key, key(v));
      }
    } else if forall v | v in vs :: fits(v) {
      AddAllRestores(vs, key, goal);
    }
  }

  lemma {:induction false} SymbolsAsReadFit(vs: seq<Symbol>)
    requires forall v | v in vs :: Trim(v.text) != ""
    ensures forall v | v in AllSymbolsAsRead(vs) :: IsStable(v)
    ensures (forall v | v in vs :: IsStable(v)) ==> AllSymbolsAsRead(vs) == vs
  {
    hide Trim, IsStable, SymbolAsRead;
    if vs != [] {
      SymbolsAsReadFit(vs[1..]);
      SymbolComesBackExactlyWhen(vs[0]);
      assert vs == [vs[0]] + vs[1..];
    }
  }

  ghost predicate AllStable(vs: seq<Symbol>) {
    forall v | v in vs :: IsStable(v)
  }

  /** The strings come back if and only if they are trimmed, in lower case where
      their names say so, and none is one of those that are skipped. */
  lemma SymbolsComeBackExactlyWhen(vs: seq<Symbol>, goal: map<string, Symbol>)
    requires Enumerates(vs, goal, SymbolKey) && forall v | v in vs :: Trim(v.text) != ""
    ensures AddAll(map[], AllSymbolsAsRead(vs), SymbolKey) == goal <==> AllStable(vs)
  {
    hide Trim, IsStable, AllSymbolsAsRead, Enumerates, AddAll;
    SymbolsAsReadFit(vs);
    ComesBackExactlyWhen(vs, AllSymbolsAsRead(vs), SymbolKey, goal, IsStable);
  }

  lemma {:induction false} FontsAsReadFit(vs: seq<Font>)
    ensures forall v | v in AllFontsAsRead(vs) :: FontFits(v)
    ensures (forall v | v in vs :: FontFits(v)) ==> AllFontsAsRead(vs) == vs
  {
    hide FontAsRead;
    if vs != [] {
      FontsAsReadFit(vs[1..]);
      FontComesBackExactlyWhen(vs[0]);
      assert vs == [vs[0]] + vs[1..];
      assert FontFits(FontAsRead(vs[0]));
    }
  }

  ghost predicate FontGroupFits(vs: seq<Font>) {
    forall v | v in vs :: FontFits(v)
  }

  ghost predicate AllFontsFit(vss: seq<seq<Font>>) {
    forall g | 0 <= g < |vss| :: FontGroupFits(vss[g])
  }

  lemma FontGroupComesBackExactlyWhen(vs: seq<Font>, goal: map<string, Font>)
    requires Enumerates(vs, goal, FontKey)
    ensures AddAll(map[], AllFontsAsRead(vs), FontKey) == goal <==> FontGroupFits(vs)
  {
    hide FontFits, AllFontsAsRead, Enumerates, AddAll;
    FontsAsReadFit(vs);
    ComesBackExactlyWhen(vs, AllFontsAsRead(vs), FontKey, goal, FontFits);
  }

  /** The fonts after loading. */
  function FontsLoaded(vss: seq<seq<Font>>): (r: seq<map<string, Font>>)
    requires |vss| == FONT_GROUPS
    ensures |r| == FONT_GROUPS
  {
    AddGroups(NO_FONTS, FontGroupsAsRead(vss), 0, FontKey)
  }

  lemma FontsComeBackExactlyWhen(vss: seq<seq<Font>>, goal: seq<map<string, Font>>)
    requires |vss| == |goal| == FONT_GROUPS
    requires forall g | 0 <= g < FONT_GROUPS :: Enumerates(vss[g], goal[g], FontKey)
    ensures FontsLoaded(vss) == goal <==> AllFontsFit(vss)
  {
    hide Enumerates, FontGroupFits, AddAll, AddGroups, AllFontsAsRead, FontGroupsAsRead;
    forall g | 0 <= g < FONT_GROUPS ensures FontsLoaded(vss)[g] == goal[g] <==> FontGroupFits(vss[g]) {
      GroupsOneByOne(NO_FONTS, FontGroupsAsRead(vss), 0, FontKey, g);
      FontGroupComesBackExactlyWhen(vss[g], goal[g]);
    }
  }

  lemma {:induction false} HashesAreLoaded(index: Image -> UInt32, vss: seq<seq<HashValue>>, from: nat,
                                           tail: seq<string>, m: Maps)
    requires m.Valid() && |vss| == HASH_GROUPS && from <= HASH_GROUPS
    requires forall g | 0 <= g < HASH_GROUPS :: forall v | v in vss[g] :: NoSpace(v.name)
    ensures Load(index, HashLines(vss, from) + tail, m)
            == Load(index, tail, m.(h := AddGroups(m.h, vss, from, HashKey)))
    decreases HASH_GROUPS - from
  {
    hide Load, HashGroupLines, NoSpace, AddAll;
    if from == HASH_GROUPS {
      assert HashLines(vss, from) + tail == tail;
    } else {
      var rest := HashLines(vss, from + 1);
      assert HashLines(vss, from) + tail == HashGroupLines(from, vss[from]) + (rest + tail);
      HashGroupIsLoaded(index, from, vss[from], rest + tail, m);
      var more := m.h[from := AddAll(m.h[from], vss[from], HashKey)];
      HashesAreLoaded(index, vss, from + 1, tail, m.(h := more));
    }
  }

  // ---------- Whole files ----------

  lemma CommentIsSkipped(text: string)
    requires Plain(text)
    ensures IsSkipped("// " + text)
  {
    PrefixesArePlain();
    PlainPair("//", text);
    assert "// " + text == "//" + " " + text;
    TrimKeepsTokens("// " + text);
    TokensOfSolid("//");
    TokensOfParts("//", text);
    hide Tokens, Trim;
  }

  lemma SlashesAreSkipped()
    ensures IsSkipped("//")
  {
    PrefixesArePlain();
    TrimKeepsTokens("//");
    TokensOfSolid("//");
    hide Tokens, Trim;
  }

  lemma VersionIsSkipped()
    ensures IsSkipped(".osdb2")
  {
    TokensOfSolid(".osdb2");
    SolidIsPlain(".osdb2");
    TrimKeepsTokens(".osdb2");
    hide Tokens, Trim;
  }

  lemma OtherLinesAreSkipped()
    ensures IsSkipped("") && IsSkipped("//") && IsSkipped(".osdb2")
  {
    SlashesAreSkipped();
    VersionIsSkipped();
    hide Parsed, Tokens;
  }

  lemma SectionIsLoaded(index: Image -> UInt32, title: string, body: seq<string>, tail: seq<string>, m: Maps,
                        after: Maps)
    requires m.Valid() && after.Valid() && Plain(title)
    requires Load(index, body + ([""] + tail), m) == Load(index, [""] + tail, after)
    ensures Load(index, Section(title, body) + tail, m) == Load(index, tail, after)
  {
    hide Load, IsSkipped, Plain;
    OtherLinesAreSkipped();
    CommentIsSkipped(title);
    var header := ["//", "// " + title, "//", ""];
    LinesAreSkipped(index, header, body + ([""] + tail), m);
    LineIsSkipped(index, "", tail, after);
    assert Section(title, body) + tail == header + (body + ([""] + tail));
  }

  /** A text in one line that is not blank. */
  predicate IsText(s: Symbol) {
    NoSpace(s.name) && Trim(s.text) != "" && '\n' !in s.text && '\r' !in s.text
  }

  /** A character in one line. */
  predicate IsCharacter(f: Font) {
    f.ch != NUL && (IsSpace(f.ch) ==> f.ch == ' ')
  }

  /** Names have no blanks, texts have no line breaks, and images have all their
      pixels and are not too large. */
  ghost predicate Printable(o: Order)
    requires o.Valid()
  {
    && (forall v | v in o.sizes :: NoSpace(v.name))
    && (forall v | v in o.symbols :: IsText(v))
    && (forall g | 0 <= g < FONT_GROUPS :: forall v | v in o.fonts[g] :: IsCharacter(v))
    && (forall v | v in o.regions :: NoSpace(v.name) && Solid(v.transform))
    && (forall g | 0 <= g < HASH_GROUPS :: forall v | v in o.hashes[g] :: NoSpace(v.name))
    && (forall v | v in o.images :: NoSpace(v.name) && IsImage(v) && v.width * v.height <= MAX_IMAGE_SIZE)
  }

  /** The order lists the maps, and every record is stored under its key. */
  ghost predicate Lists(o: Order, m: Maps, index: Image -> UInt32)
    requires o.Valid() && m.Valid()
  {
    && Enumerates(o.sizes, m.z, SizeKey) && Enumerates(o.regions, m.r, RegionKey)
    && Enumerates(o.symbols, m.s, SymbolKey)
    && (forall g | 0 <= g < FONT_GROUPS :: Enumerates(o.fonts[g], m.t[g], FontKey))
    && (forall g | 0 <= g < HASH_GROUPS :: Enumerates(o.points[g], m.p[g], PointKey))
    && (forall g | 0 <= g < HASH_GROUPS :: Enumerates(o.hashes[g], m.h[g], HashKey))
    && Enumerates(o.images, m.i, index)
  }

  lemma LiteralsArePlain()
    ensures Plain("OpenScrape ") && Plain("32 bits per pixel")
  {
    WordsArePlain();
    hide Plain;
    PlainParts("OpenScrape", " ");
    assert "OpenScrape" + " " == "OpenScrape ";
    PlainPair("per", "pixel");
    PlainPair("bits", "per" + " " + "pixel");
    PlainPair("32", "bits" + " " + ("per" + " " + "pixel"));
    assert "32" + " " + ("bits" + " " + ("per" + " " + "pixel")) == "32 bits per pixel";
  }

  lemma WordsArePlain()
    ensures Plain("OpenScrape") && Plain(" ") && Plain("32") && Plain("bits") && Plain("per") && Plain("pixel")
  {}

  lemma PreambleComments(version: string, time: string)
    requires Plain(version) && Plain(time)
    ensures IsSkipped("// OpenScrape " + version) && IsSkipped("// " + time) && IsSkipped("// 32 bits per pixel")
  {
    hide IsSkipped, Plain;
    LiteralsArePlain();
    PlainParts("OpenScrape ", version);
    CommentIsSkipped("OpenScrape " + version);
    assert "// " + ("OpenScrape " + version) == "// OpenScrape " + version;
    CommentIsSkipped(time);
    CommentIsSkipped("32 bits per pixel");
    assert "// " + "32 bits per pixel" == "// 32 bits per pixel";
  }

  lemma PreambleIsSkipped(index: Image -> UInt32, version: string, time: string, tail: seq<string>)
    requires Plain(version) && Plain(time)
    ensures Load(index, Preamble(version, time) + tail, EMPTY) == Load(index, tail, EMPTY)
  {
    hide Load, IsSkipped, Plain;
    OtherLinesAreSkipped();
    PreambleComments(version, time);
    LinesAreSkipped(index, Preamble(version, time), tail, EMPTY);
  }

  /** What is loaded from a file. */
  function Loaded(o: Order, m: Maps): (loaded: Maps)
    requires o.Valid() && m.Valid()
    ensures loaded.Valid()
  {
    m.(s := AddAll(map[], AllSymbolsAsRead(o.symbols), SymbolKey),
       t := FontsLoaded(o.fonts),
       p := PointsLoaded(o.points))
  }

  /** The first sections of a file. */
  lemma FirstSectionsAreLoaded(index: Image -> UInt32, o: Order, m: Maps, tail: seq<string>)
    requires o.Valid() && m.Valid() && Printable(o) && Lists(o, m, index)
    ensures Load(index, Section("sizes", SizeLines(o.sizes)) + (Section("strings", SymbolLines(o.symbols))
                        + (Section("regions", RegionLines(o.regions)) + tail)), EMPTY)
            == Load(index, tail, EMPTY.(z := m.z, s := Loaded(o, m).s, r := m.r))
  {
    hide Load, Section, Printable, Lists, SizeLines, SymbolLines, RegionLines, Plain, PointsLoaded, FontsLoaded;
    TitlesArePlain();
    var regions := Section("regions", RegionLines(o.regions)) + tail;
    var strings := Section("strings", SymbolLines(o.symbols)) + regions;
    var m1 := EMPTY.(z := m.z);
    var m2 := m1.(s := Loaded(o, m).s);
    var m3 := m2.(r := m.r);
    SizesRestored(index, o, m, [""] + strings, EMPTY);
    SectionIsLoaded(index, "sizes", SizeLines(o.sizes), strings, EMPTY, m1);
    SymbolsRead(index, o, m, [""] + regions, m1);
    SectionIsLoaded(index, "strings", SymbolLines(o.symbols), regions, m1, m2);
    RegionsRestored(index, o, m, [""] + tail, m2);
    SectionIsLoaded(index, "regions", RegionLines(o.regions), tail, m2, m3);
  }

  /** All sections of a file, one after the other. */
  lemma SectionsAreLoaded(index: Image -> UInt32, o: Order, m: Maps)
    requires o.Valid() && m.Valid() && Printable(o) && Lists(o, m, index)
    ensures Load(index, Sections(o), EMPTY) == (Success, Loaded(o, m))
  {
    hide Load, Section, Printable, Lists, SizeLines, RegionLines, SymbolLines, FontLines, PointLines, HashLines;
    hide ImageLines, Plain, PointsLoaded, FontsLoaded, AddAll;
    TitlesArePlain();
    var images := Section("images", ImageLines(o.images)) + [];
    var hash := Section("hash", HashLines(o.hashes, 0)) + images;
    var points := Section("points", PointLines(o.points, 0)) + hash;
    var fonts := Section("fonts", FontLines(o.fonts, 0)) + points;
    var m1 := EMPTY.(z := m.z, s := Loaded(o, m).s, r := m.r);
    var m2 := m1.(t := FontsLoaded(o.fonts));
    var m3 := m2.(p := PointsLoaded(o.points));
    var m4 := m3.(h := m.h);
    FirstSectionsAreLoaded(index, o, m, fonts);
    FontsRead(index, o, m, [""] + points, m1);
    SectionIsLoaded(index, "fonts", FontLines(o.fonts, 0), points, m1, m2);
    PointsRead(index, o, [""] + hash, m2);
    SectionIsLoaded(index, "points", PointLines(o.points, 0), hash, m2, m3);
    HashesRestored(index, o, m, [""] + images, m3);
    SectionIsLoaded(index, "hash", HashLines(o.hashes, 0), images, m3, m4);
    ImagesRestored(index, o, m, [""] + [], m4);
    SectionIsLoaded(index, "images", ImageLines(o.images), [], m4, Loaded(o, m));
    EndIsLoaded(index, Loaded(o, m));
  }

  lemma SymbolsRead(index: Image -> UInt32, o: Order, m: Maps, tail: seq<string>, start: Maps)
    requires o.Valid() && m.Valid() && start.Valid() && Printable(o) && start.s == map[]
    ensures Load(index, SymbolLines(o.symbols) + tail, start) == Load(index, tail, start.(s := Loaded(o, m).s))
  {
    hide Load, SymbolLines, NoSpace, Trim, AddAll, AllSymbolsAsRead, FontsLoaded, PointsLoaded;
    SymbolsAreLoaded(index, o.symbols, tail, start);
  }

  lemma FontsRead(index: Image -> UInt32, o: Order, m: Maps, tail: seq<string>, start: Maps)
    requires o.Valid() && m.Valid() && start.Valid() && Printable(o) && start.t == NO_FONTS
    ensures Load(index, FontLines(o.fonts, 0) + tail, start) == Load(index, tail, start.(t := FontsLoaded(o.fonts)))
  {
    hide Load, FontLines, AddGroups;
    FontsAreLoaded(index, o.fonts, 0, tail, start);
  }

  lemma EndIsLoaded(index: Image -> UInt32, m: Maps)
    requires m.Valid()
    ensures Load(index, [], m) == (Success, m)
  {}

  lemma TitlesArePlain()
    ensures Plain("sizes") && Plain("strings") && Plain("regions") && Plain("fonts") && Plain("points")
    ensures Plain("hash") && Plain("images")
  {}

  lemma SizesRestored(index: Image -> UInt32, o: Order, m: Maps, tail: seq<string>, start: Maps)
    requires o.Valid() && m.Valid() && start.Valid() && Printable(o) && Lists(o, m, index) && start.z == map[]
    ensures Load(index, SizeLines(o.sizes) + tail, start) == Load(index, tail, start.(z := m.z))
  {
    hide Load, SizeLines, NoSpace, Enumerates;
    SizesAreLoaded(index, o.sizes, tail, start);
    AddAllRestores(o.sizes, SizeKey, m.z);
  }

  lemma RegionsRestored(index: Image -> UInt32, o: Order, m: Maps, tail: seq<string>, start: Maps)
    requires o.Valid() && m.Valid() && start.Valid() && Printable(o) && Lists(o, m, index) && start.r == map[]
    ensures Load(index, RegionLines(o.regions) + tail, start) == Load(index, tail, start.(r := m.r))
  {
    hide Load, RegionLines, NoSpace, Solid, Enumerates;
    RegionsAreLoaded(index, o.regions, tail, start);
    AddAllRestores(o.regions, RegionKey, m.r);
  }

  lemma PointsRead(index: Image -> UInt32, o: Order, tail: seq<string>, start: Maps)
    requires o.Valid() && start.Valid() && start.p == EMPTY.p
    ensures Load(index, PointLines(o.points, 0) + tail, start) == Load(index, tail, start.(p := PointsLoaded(o.points)))
  {
    hide Load, PointLines, AddGroups;
    PointsAreLoaded(index, o.points, 0, tail, start);
  }

  lemma HashesRestored(index: Image -> UInt32, o: Order, m: Maps, tail: seq<string>, start: Maps)
    requires o.Valid() && m.Valid() && start.Valid() && Printable(o) && Lists(o, m, index) && start.h == EMPTY.h
    ensures Load(index, HashLines(o.hashes, 0) + tail, start) == Load(index, tail, start.(h := m.h))
  {
    hide Load, HashLines, NoSpace, Enumerates, AddGroups;
    HashesAreLoaded(index, o.hashes, 0, tail, start);
    AddGroupsRestores(start.h, o.hashes, 0, HashKey, m.h);
  }

  lemma ImagesRestored(index: Image -> UInt32, o: Order, m: Maps, tail: seq<string>, start: Maps)
    requires o.Valid() && m.Valid() && start.Valid() && Printable(o) && Lists(o, m, index) && start.i == map[]
    ensures Load(index, ImageLines(o.images) + tail, start) == Load(index, tail, start.(i := m.i))
  {
    hide Load, ImageLines, NoSpace, IsImage, Enumerates;
    ImagesAreLoaded(index, o.images, tail, start);
    AddAllRestores(o.images, index, m.i);
  }

  /** Loading a file that lists all records of some maps, in whatever order,
      succeeds and restores exactly these maps, if and only if all strings are
      stable and all fonts and hash points fit; the strings come back as the strings
      alone allow, and so do fonts and hash points. All other maps are restored in
      any case. */
  lemma FileRestoresMapsExactlyWhen(index: Image -> UInt32, o: Order, m: Maps, version: string, time: string)
    requires o.Valid() && m.Valid() && Printable(o) && Lists(o, m, index) && Plain(version) && Plain(time)
    ensures var (status, loaded) := LoadFile(index, File(o, version, time));
            && status == Success && loaded.(s := m.s, t := m.t, p := m.p) == m
            && (loaded.s == m.s <==> AllStable(o.symbols))
            && (loaded.t == m.t <==> AllFontsFit(o.fonts))
            && (loaded.p == m.p <==> AllFit(o.points))
            && (loaded == m <==> AllStable(o.symbols) && AllFontsFit(o.fonts) && AllFit(o.points))
  {
    hide Load, LoadFile, Printable, Plain, Sections, PointsLoaded, FontsLoaded, AddAll, AllSymbolsAsRead;
    hide AllFit, AllFontsFit, AllStable, Enumerates, File, Preamble;
    FileStarts(index, o, version, time);
    PreambleIsSkipped(index, version, time, Sections(o));
    SectionsAreLoaded(index, o, m);
    TextsAreSomething(o);
    SymbolsComeBackExactlyWhen(o.symbols, m.s);
    FontsComeBackExactlyWhen(o.fonts, m.t);
    PointsComeBackExactlyWhen(o.points, m.p);
  }

  lemma TextsAreSomething(o: Order)
    requires o.Valid() && Printable(o)
    ensures forall v | v in o.symbols :: Trim(v.text) != ""
  {
    hide Trim;
  }

  lemma FileStarts(index: Image -> UInt32, o: Order, version: string, time: string)
    requires o.Valid()
    ensures LoadFile(index, File(o, version, time)) == Load(index, Preamble(version, time) + Sections(o), EMPTY)
  {
    hide Load, Sections;
    var file := File(o, version, time);
    assert file[0] == ".osdb2" && SkipEmpty(file) == file;
  }

  // ---------- Files that are refused ----------

  lemma {:induction false} RecordsAreNotRefused(index: Image -> UInt32, lines: seq<string>, m: Maps)
    requires m.Valid()
    ensures Load(index, lines, m).0 != ErrEof && Load(index, lines, m).0 != ErrVersion
    decreases |lines|
  {
    hide Read, Trim;
    if lines != [] {
      var next := AfterLine(index, lines[0], lines[1..], m);
      if next.Go? {
        RecordsAreNotRefused(index, next.rest, next.maps);
      }
    }
  }

  lemma {:induction false} EmptyLinesAreSkipped(blank: seq<string>, lines: seq<string>)
    requires (forall l | l in blank :: l == "") && (lines == [] || lines[0] != "")
    ensures SkipEmpty(blank + lines) == lines
  {
    if blank == [] {
      assert blank + lines == lines;
    } else {
      assert forall l | l in blank[1..] :: l in blank;
      EmptyLinesAreSkipped(blank[1..], lines);
      assert (blank + lines)[1..] == blank[1..] + lines;
      assert blank[0] in blank;
    }
  }

  /** The first line that is not empty stands at k. */
  ghost predicate StartsAt(file: seq<string>, k: nat) {
    k < |file| && file[k] != "" && forall j: nat | j < k :: file[j] == ""
  }

  lemma {:induction false} FindStart(file: seq<string>, k: nat) returns (start: nat)
    requires k <= |file| && forall j: nat | j < k :: file[j] == ""
    ensures start <= |file| && (forall j: nat | j < start :: file[j] == "") && (start < |file| ==> file[start] != "")
    decreases |file| - k
  {
    if k < |file| && file[k] == "" {
      start := FindStart(file, k + 1);
    } else {
      start := k;
    }
  }

  /** A file is refused at its end if all lines are empty, and for its version if its first
      other line begins with neither of the two current versions; no other file is. */
  lemma RefusedExactlyWhen(index: Image -> UInt32, file: seq<string>)
    ensures LoadFile(index, file).0 == ErrEof <==> forall l | l in file :: l == ""
    ensures LoadFile(index, file).0 == ErrVersion <==>
              exists k: nat ::
                StartsAt(file, k) && !StartsWith(file[k], ".ohdb2") && !StartsWith(file[k], ".osdb2")
  {
    hide Load, StartsWith;
    var k := FindStart(file, 0);
    EmptyLinesAreSkipped(file[..k], file[k..]);
    assert file[..k] + file[k..] == file;
    RecordsAreNotRefused(index, file[k..], EMPTY);
    if k < |file| {
      assert file[k] in file && StartsAt(file, k);
    }
  }

  lemma OldVersionIsSkipped()
    ensures IsSkipped(".ohdb2")
  {
    TokensOfSolid(".ohdb2");
    SolidIsPlain(".ohdb2");
    TrimKeepsTokens(".ohdb2");
    hide Tokens, Trim;
  }

  /** A file of OpenHoldem loads as one of OpenScrape with the same records. */
  lemma VersionsLoadAlike(index: Image -> UInt32, blank: seq<string>, rest: seq<string>)
    requires forall l | l in blank :: l == ""
    ensures LoadFile(index, blank + ([".ohdb2"] + rest)) == Load(index, rest, EMPTY)
    ensures LoadFile(index, blank + ([".osdb2"] + rest)) == Load(index, rest, EMPTY)
  {
    hide Load, IsSkipped;
    OldVersionIsSkipped();
    VersionIsSkipped();
    EmptyLinesAreSkipped(blank, [".ohdb2"] + rest);
    EmptyLinesAreSkipped(blank, [".osdb2"] + rest);
    LineIsSkipped(index, ".ohdb2", rest, EMPTY);
    LineIsSkipped(index, ".osdb2", rest, EMPTY);
  }

  // ---------- Records under their keys ----------

  ghost predicate Keyed<K, V>(m: map<K, V>, key: V -> K) {
    forall k | k in m :: key(m[k]) == k
  }

  /** Every record is stored under its own key. */
  ghost predicate AllKeyed(m: Maps, index: Image -> UInt32)
    requires m.Valid()
  {
    && Keyed(m.z, SizeKey) && Keyed(m.s, SymbolKey) && Keyed(m.r, RegionKey) && Keyed(m.i, index)
    && (forall g | 0 <= g < FONT_GROUPS :: Keyed(m.t[g], FontKey))
    && (forall g | 0 <= g < HASH_GROUPS :: Keyed(m.p[g], PointKey) && Keyed(m.h[g], HashKey))
  }

  lemma NothingIsKeyed(index: Image -> UInt32)
    ensures AllKeyed(EMPTY, index)
  {}

  lemma MapsAreKeyed(m: Maps, index: Image -> UInt32)
    requires m.Valid() && AllKeyed(m, index)
    ensures Keyed(m.z, SizeKey) && Keyed(m.s, SymbolKey) && Keyed(m.r, RegionKey) && Keyed(m.i, index)
    ensures forall g | 0 <= g < FONT_GROUPS :: Keyed(m.t[g], FontKey)
    ensures forall g | 0 <= g < HASH_GROUPS :: Keyed(m.p[g], PointKey) && Keyed(m.h[g], HashKey)
  {
    hide Keyed;
  }

  lemma AfterIsKeyed(index: Image -> UInt32, record: Line, rest: seq<string>, m: Maps)
    requires m.Valid() && AllKeyed(m, index) && record.Valid()
    ensures var next := After(index, record, rest, m); next.Go? ==> AllKeyed(next.maps, index)
  {
    hide PointKey;
  }

  class Tablemap {
    const index: Image -> UInt32
    var z: map<string, Size>
    var s: map<string, Symbol>
    var r: map<string, Region>
    var t: seq<map<string, Font>>
    var p: seq<map<UInt32, HashPoint>>
    var h: seq<map<UInt32, HashValue>>
    var i: map<UInt32, Image>

    function Now(): Maps
      reads this
    {
      Maps(z, s, r, t, p, h, i)
    }

    ghost predicate Valid()
      reads this
    {
      Now().Valid() && AllKeyed(Now(), index)
    }

    constructor (index: Image -> UInt32)
      ensures Valid() && Now() == EMPTY && this.index == index
    {
      hide AllKeyed;
      NothingIsKeyed(index);
      this.index := index;
      z, s, r, i := map[], map[], map[], map[];
      t, p, h := NO_FONTS, EMPTY.p, EMPTY.h;
    }

    method ClearTablemap()
      modifies this
      ensures Valid() && Now() == EMPTY
    {
      hide AllKeyed;
      NothingIsKeyed(index);
      z, s, r, i := map[], map[], map[], map[];
      t, p, h := NO_FONTS, EMPTY.p, EMPTY.h;
    }

    /** CString::Tokenize(): the next token, or nothing at the end. */
    method Tokenize(line: string, pos: nat) returns (token: string, next: nat)
      requires pos <= |line|
      ensures pos <= next <= |line|
      ensures Tokens(line[pos..]) == if token == "" then [] else [token] + Tokens(line[next..])
    {
      hide Tokens;
      var start := pos;
      while start < |line| && IsBlank(line[start])
        invariant pos <= start <= |line| && Tokens(line[pos..]) == Tokens(line[start..])
      {
        BlankSkipped(line, start);
        start := start + 1;
      }
      next := start;
      while next < |line| && !IsBlank(line[next])
        invariant start <= next <= |line| && forall k | start <= k < next :: !IsBlank(line[k])
      {
        next := next + 1;
      }
      token := line[start..next];
      WordTaken(line, start, next);
    }

    /** Reads one line, token by token. */
    method ReadLine(line: string) returns (record: Line)
      requires line != "" && !IsSpace(line[0])
      ensures record == Read(line)
    {
      hide Tokens, Atol, Strtoul, Unsigned, Trim, ColumnTokens, ValuesOf, Mash;
      var kind, pos := Tokenize(line, 0);
      assert line[0..] == line;
      NotEmpty(line);
      if StartsWith(kind, "//") { return Skipped; }
      if kind in VERSIONS { return Skipped; }
      if StartsWith(kind, "z$") {
        record := ReadSize(line, kind, pos);
      } else if StartsWith(kind, "s$") {
        KindIsFirst(line);
        record := ReadSymbol(kind[2..], line[|kind|..]);
      } else if StartsWith(kind, "r$") {
        record := ReadRegion(line, kind, pos);
      } else if StartsWith(kind, "t$") {
        // the group is out of range
        return SyntaxError;
      } else if HasGroup(kind, 't', FONT_GROUPS) {
        var hexes := ReadColumns(line, pos);
        record := FontRecord((kind[1] - '0') as nat, Font(CharAt(kind, 3), ValuesOf(hexes), Mash(hexes)));
      } else if HasGroup(kind, 'p', HASH_GROUPS) {
        var x, y;
        x, pos := Tokenize(line, pos);
        if x == "" { return SyntaxError; }
        // a missing y is read as zero
        y, pos := Tokenize(line, pos);
        record := PointRecord((kind[1] - '0') as nat, HashPoint(Unsigned(Atol(x)), Unsigned(Atol(y))));
      } else if HasGroup(kind, 'h', HASH_GROUPS) {
        var hash;
        hash, pos := Tokenize(line, pos);
        if hash == "" { return SyntaxError; }
        record := HashRecord((kind[1] - '0') as nat, HashValue(kind[3..], Strtoul(hash)));
      } else if StartsWith(kind, "i$") {
        var width, height;
        width, pos := Tokenize(line, pos);
        if width == "" { return SyntaxError; }
        height, pos := Tokenize(line, pos);
        if height == "" { return SyntaxError; }
        if Atol(width) * Atol(height) > MAX_IMAGE_SIZE { return RegionSizeError; }
        record := ImageHeader(kind[2..], Atol(width), Atol(height));
      } else {
        record := UnknownLineType;
      }
    }

    method ReadSymbol(name: string, rest: string) returns (record: Line)
      ensures record == SymbolOf(name, rest)
    {
      hide Trim;
      var text := Trim(rest);
      if text == "" { return SyntaxError; }
      if IsHashType(name) { return Skipped; }
      if IsLowered(name) {
        text := LowerCase(text);
      }
      record := SymbolRecord(Symbol(name, text));
    }

    /** Reads at most as many columns as a character has. */
    method ReadColumns(line: string, from: nat) returns (hexes: seq<string>)
      requires from <= |line|
      ensures hexes == ColumnTokens(Tokens(line[from..]))
    {
      hide Tokens;
      hexes := [];
      var token, pos := Tokenize(line, from);
      while token != "" && |hexes| <= 30
        invariant 0 <= pos <= |line| && |hexes| <= MAX_SINGLE_CHAR_WIDTH
        invariant Tokens(line[from..]) == hexes + (if token == "" then [] else [token] + Tokens(line[pos..]))
        decreases MAX_SINGLE_CHAR_WIDTH - |hexes|
      {
        assert hexes + ([token] + Tokens(line[pos..])) == hexes + [token] + Tokens(line[pos..]);
        hexes := hexes + [token];
        token, pos := Tokenize(line, pos);
      }
    }

    method ReadSize(line: string, kind: string, pos: nat) returns (record: Line)
      requires pos <= |line| && StartsWith(kind, "z$")
      ensures var ts := Tokens(line[pos..]);
              record == if |ts| < 2 then SyntaxError else SizeRecord(Size(kind[2..], Atol(ts[0]), Atol(ts[1])))
    {
      hide Tokens, Atol;
      var width, next := Tokenize(line, pos);
      if width == "" { return SyntaxError; }
      var height;
      height, next := Tokenize(line, next);
      if height == "" { return SyntaxError; }
      record := SizeRecord(Size(kind[2..], Atol(width), Atol(height)));
    }

    method ReadRegion(line: string, kind: string, pos: nat) returns (record: Line)
      requires pos <= |line| && StartsWith(kind, "r$")
      ensures var ts := Tokens(line[pos..]);
              record == if |ts| < 7 then SyntaxError
                        else RegionRecord(Region(kind[2..], Unsigned(Atol(ts[0])), Unsigned(Atol(ts[1])),
                                                 Unsigned(Atol(ts[2])), Unsigned(Atol(ts[3])), Strtoul(ts[4]),
                                                 Atol(ts[5]), ts[6]))
    {
      hide Tokens, Atol, Strtoul, Unsigned;
      var left, next := Tokenize(line, pos);
      if left == "" { return SyntaxError; }
      var top, right, bottom, color, radius, transform;
      top, next := Tokenize(line, next);
      if top == "" { return SyntaxError; }
      right, next := Tokenize(line, next);
      if right == "" { return SyntaxError; }
      bottom, next := Tokenize(line, next);
      if bottom == "" { return SyntaxError; }
      color, next := Tokenize(line, next);
      if color == "" { return SyntaxError; }
      radius, next := Tokenize(line, next);
      if radius == "" { return SyntaxError; }
      transform, next := Tokenize(line, next);
      if transform == "" { return SyntaxError; }
      record := RegionRecord(Region(kind[2..], Unsigned(Atol(left)), Unsigned(Atol(top)), Unsigned(Atol(right)),
                                    Unsigned(Atol(bottom)), Strtoul(color), Atol(radius), transform));
    }

    /** Enters a record into its map, unless one with its key is there already. */
    method InsertRecord(record: Line)
      requires Valid() && !record.ImageHeader? && record.Valid()
      modifies this
      ensures Valid()
      ensures After(index, record, [], old(Now())).Go? ==> Now() == After(index, record, [], old(Now())).maps
      ensures !After(index, record, [], old(Now())).Go? ==> Now() == old(Now())
    {
      AfterIsKeyed(index, record, [], Now());
      match record
      case SizeRecord(size) => z := Insert(z, size.name, size);
      case SymbolRecord(symbol) => s := Insert(s, symbol.name, symbol);
      case FontRecord(g, font) => t := t[g := Insert(t[g], font.hexmash, font)];
      case RegionRecord(region) => r := Insert(r, region.name, region);
      case PointRecord(g, point) => p := p[g := Insert(p[g], PointKey(point), point)];
      case HashRecord(g, value) => h := h[g := Insert(h[g], value.hash, value)];
      case _ =>
    }

    method InsertImage(image: Image)
      requires Valid()
      modifies this`i
      ensures Valid() && Now() == old(Now()).(i := Insert(old(i), index(image), image))
    {
      i := Insert(i, index(image), image);
    }

    /** Reads the rows of an image, pixel by pixel. */
    method ReadPixels(rows: seq<string>, width: nat) returns (pixels: seq<UInt32>)
      ensures pixels == PixelsOfRows(rows, width)
    {
      pixels := [];
      for y := 0 to |rows|
        invariant pixels + PixelsOfRows(rows[y..], width) == PixelsOfRows(rows, width)
      {
        var row: seq<UInt32> := [];
        for x := 0 to width
          invariant row == PixelsOfRow(rows[y], x)
        {
          row := row + [PixelAt(rows[y], x)];
        }
        assert rows[y..][0] == rows[y] && rows[y..][1..] == rows[y + 1..];
        NextRow(pixels, row, PixelsOfRows(rows[y + 1..], width));
        pixels := pixels + row;
      }
    }

    /** Loads a file, record by record. */
    method LoadTablemap(file: seq<string>) returns (status: Status)
      modifies this
      ensures Valid() && (status, Now()) == LoadFile(index, file)
    {
      hide Load, AllKeyed, After, Read, Trim, PixelsOfRows;
      ClearTablemap();
      var k := 0;
      while k < |file| && file[k] == ""
        invariant k <= |file| && SkipEmpty(file[k..]) == SkipEmpty(file) && Valid() && Now() == EMPTY
      {
        assert file[k..][1..] == file[k + 1..];
        k := k + 1;
      }
      if k == |file| { return ErrEof; }
      if !StartsWith(file[k], ".ohdb2") && !StartsWith(file[k], ".osdb2") { return ErrVersion; }
      status := LoadRecords(file[k..]);
    }

    method LoadRecords(lines: seq<string>) returns (status: Status)
      requires Valid()
      modifies this
      ensures Valid() && (status, Now()) == Load(index, lines, old(Now()))
    {
      hide AllKeyed, After, Read, Trim, PixelsOfRows;
      var rest := lines;
      while rest != []
        invariant Valid() && Load(index, rest, Now()) == Load(index, lines, old(Now()))
        decreases |rest|
      {
        var line := Trim(rest[0]);
        if line == "" {
          rest := rest[1..];
          continue;
        }
        var record := ReadLine(line);
        rest := rest[1..];
        ghost var next := After(index, record, rest, Now());
        AfterIsWhat(index, record, rest, Now());
        if record.ImageHeader? {
          var n := AtLeastZero(record.height);
          if n > |rest| { return ErrSyntax; }
          var pixels := ReadPixels(rest[..n], AtLeastZero(record.width));
          InsertImage(Image(record.name, record.width, record.height, pixels));
          rest := rest[n..];
          assert next == Go(rest, Now());
        } else {
          InsertRecord(record);
          if record.SyntaxError? { return ErrSyntax; }
          if record.RegionSizeError? { return ErrRegionSize; }
          if record.UnknownLineType? { return ErrUnknownLineType; }
          assert next == Go(rest, Now());
        }
      }
      status := Success;
    }

    /** Goes through all values of a map. */
    method Values<K(==), V>(m: map<K, V>, ghost key: V -> K) returns (vs: seq<V>)
      requires Keyed(m, key)
      ensures Enumerates(vs, m, key)
    {
      vs := [];
      var left := m.Keys;
      while left != {}
        invariant left <= m.Keys
        invariant forall v | v in vs :: key(v) in m && m[key(v)] == v
        invariant forall k | k in m && k !in left :: m[k] in vs
      {
        var k :| k in left;
        vs := vs + [m[k]];
        left := left - {k};
      }
    }

    method WriteSectionHeader(file: seq<string>, title: string) returns (longer: seq<string>)
      ensures longer == file + SectionHeader(title)
    {
      longer := file + ["//"];
      longer := longer + ["// " + title];
      longer := longer + ["//"];
      longer := longer + [""];
    }

    method WriteSizes(file: seq<string>, vs: seq<Size>) returns (longer: seq<string>)
      ensures longer == file + SizeLines(vs)
    {
      hide SizeLine;
      longer := file;
      for n := 0 to |vs|
        invariant longer + SizeLines(vs[n..]) == file + SizeLines(vs)
      {
        assert vs[n..][0] == vs[n] && vs[n..][1..] == vs[n + 1..];
        NextLines(longer, [SizeLine(vs[n])], SizeLines(vs[n + 1..]));
        longer := longer + [SizeLine(vs[n])];
      }
    }

    method WriteSymbols(file: seq<string>, vs: seq<Symbol>) returns (longer: seq<string>)
      ensures longer == file + SymbolLines(vs)
    {
      hide SymbolLine;
      longer := file;
      for n := 0 to |vs|
        invariant longer + SymbolLines(vs[n..]) == file + SymbolLines(vs)
      {
        assert vs[n..][0] == vs[n] && vs[n..][1..] == vs[n + 1..];
        NextLines(longer, [SymbolLine(vs[n])], SymbolLines(vs[n + 1..]));
        longer := longer + [SymbolLine(vs[n])];
      }
    }

    method WriteFontGroup(file: seq<string>, g: nat, vs: seq<Font>) returns (longer: seq<string>)
      requires g < FONT_GROUPS
      ensures longer == file + FontGroupLines(g, vs)
    {
      hide ColumnsText;
      longer := file;
      for n := 0 to |vs|
        invariant longer + FontGroupLines(g, vs[n..]) == file + FontGroupLines(g, vs)
      {
        var line := WriteFont(g, vs[n]);
        assert vs[n..][0] == vs[n] && vs[n..][1..] == vs[n + 1..];
        NextLines(longer, [line], FontGroupLines(g, vs[n + 1..]));
        longer := longer + [line];
      }
    }

    method WriteFont(g: nat, f: Font) returns (line: string)
      requires g < FONT_GROUPS
      ensures line == FontLine(g, f)
    {
      hide Hex;
      line := ['t', GroupDigit(g), '$', f.ch];
      for k := 0 to |f.x|
        invariant line == ['t', GroupDigit(g), '$', f.ch] + ColumnsText(f.x[..k])
      {
        assert f.x[..k + 1][..k] == f.x[..k];
        line := line + " " + Hex(f.x[k]);
      }
      assert f.x[..|f.x|] == f.x;
    }

    method WriteFonts(file: seq<string>) returns (longer: seq<string>, ghost vss: seq<seq<Font>>)
      requires Valid()
      ensures |vss| == FONT_GROUPS && forall g | 0 <= g < FONT_GROUPS :: Enumerates(vss[g], t[g], FontKey)
      ensures longer == file + FontLines(vss, 0)
    {
      hide Enumerates, FontGroupLines, FontKey, Keyed, AllKeyed;
      MapsAreKeyed(Now(), index);
      vss := [];
      longer := file;
      for g := 0 to FONT_GROUPS
        invariant |vss| == g && forall k | 0 <= k < g :: Enumerates(vss[k], t[k], FontKey)
        invariant longer == file + FontLinesUpTo(vss)
      {
        var vs := Values(t[g], FontKey);
        longer := WriteFontGroup(longer, g, vs);
        vss := vss + [vs];
        assert vss[..g] + [vs] == vss;
      }
      FontLinesInOrder(vss, FONT_GROUPS);
      assert vss[..FONT_GROUPS] == vss;
    }

    method WriteRegions(file: seq<string>, vs: seq<Region>) returns (longer: seq<string>)
      ensures longer == file + RegionLines(vs)
    {
      hide RegionLine;
      longer := file;
      for n := 0 to |vs|
        invariant longer + RegionLines(vs[n..]) == file + RegionLines(vs)
      {
        assert vs[n..][0] == vs[n] && vs[n..][1..] == vs[n + 1..];
        NextLines(longer, [RegionLine(vs[n])], RegionLines(vs[n + 1..]));
        longer := longer + [RegionLine(vs[n])];
      }
    }

    method WritePointGroup(file: seq<string>, g: nat, vs: seq<HashPoint>) returns (longer: seq<string>)
      requires g < HASH_GROUPS
      ensures longer == file + PointGroupLines(g, vs)
    {
      hide PointLine;
      longer := file;
      for n := 0 to |vs|
        invariant longer + PointGroupLines(g, vs[n..]) == file + PointGroupLines(g, vs)
      {
        assert vs[n..][0] == vs[n] && vs[n..][1..] == vs[n + 1..];
        NextLines(longer, [PointLine(g, vs[n])], PointGroupLines(g, vs[n + 1..]));
        longer := longer + [PointLine(g, vs[n])];
      }
    }

    method WriteHashGroup(file: seq<string>, g: nat, vs: seq<HashValue>) returns (longer: seq<string>)
      requires g < HASH_GROUPS
      ensures longer == file + HashGroupLines(g, vs)
    {
      hide HashLine;
      longer := file;
      for n := 0 to |vs|
        invariant longer + HashGroupLines(g, vs[n..]) == file + HashGroupLines(g, vs)
      {
        assert vs[n..][0] == vs[n] && vs[n..][1..] == vs[n + 1..];
        NextLines(longer, [HashLine(g, vs[n])], HashGroupLines(g, vs[n + 1..]));
        longer := longer + [HashLine(g, vs[n])];
      }
    }

    method WritePoints(file: seq<string>) returns (longer: seq<string>, ghost vss: seq<seq<HashPoint>>)
      requires Valid()
      ensures |vss| == HASH_GROUPS && forall g | 0 <= g < HASH_GROUPS :: Enumerates(vss[g], p[g], PointKey)
      ensures longer == file + PointLines(vss, 0)
    {
      hide Enumerates, PointGroupLines, PointKey, Keyed, AllKeyed;
      MapsAreKeyed(Now(), index);
      vss := [];
      longer := file;
      for g := 0 to HASH_GROUPS
        invariant |vss| == g && forall k | 0 <= k < g :: Enumerates(vss[k], p[k], PointKey)
        invariant longer == file + PointLinesUpTo(vss)
      {
        var vs := Values(p[g], PointKey);
        longer := WritePointGroup(longer, g, vs);
        vss := vss + [vs];
        assert vss[..g] + [vs] == vss;
      }
      PointLinesInOrder(vss, HASH_GROUPS);
      assert vss[..HASH_GROUPS] == vss;
    }

    method WriteHashes(file: seq<string>) returns (longer: seq<string>, ghost vss: seq<seq<HashValue>>)
      requires Valid()
      ensures |vss| == HASH_GROUPS && forall g | 0 <= g < HASH_GROUPS :: Enumerates(vss[g], h[g], HashKey)
      ensures longer == file + HashLines(vss, 0)
    {
      hide Enumerates, HashGroupLines, HashKey, Keyed, AllKeyed;
      MapsAreKeyed(Now(), index);
      vss := [];
      longer := file;
      for g := 0 to HASH_GROUPS
        invariant |vss| == g && forall k | 0 <= k < g :: Enumerates(vss[k], h[k], HashKey)
        invariant longer == file + HashLinesUpTo(vss)
      {
        var vs := Values(h[g], HashKey);
        longer := WriteHashGroup(longer, g, vs);
        vss := vss + [vs];
        assert vss[..g] + [vs] == vss;
      }
      HashLinesInOrder(vss, HASH_GROUPS);
      assert vss[..HASH_GROUPS] == vss;
    }

    method WriteRows(file: seq<string>, pixels: seq<UInt32>, width: nat, height: nat) returns (longer: seq<string>)
      ensures longer == file + RowLines(pixels, width, height)
    {
      hide PixelText;
      longer := file;
      var rest := pixels;
      for y := 0 to height
        invariant longer + RowLines(rest, width, height - y) == file + RowLines(pixels, width, height)
      {
        var row := FirstRow(rest, width);
        var text := "";
        for x := 0 to |row|
          invariant text == RowLine(row[..x])
        {
          assert row[..x + 1][..x] == row[..x];
          text := text + PixelText(row[x]);
        }
        assert row[..|row|] == row;
        NextLines(longer, [text], RowLines(OtherRows(rest, width), width, height - y - 1));
        longer := longer + [text];
        rest := OtherRows(rest, width);
      }
    }

    method WriteImages(file: seq<string>, vs: seq<Image>) returns (longer: seq<string>)
      ensures longer == file + ImageLines(vs)
    {
      hide ImageLine, RowLines;
      longer := file;
      for n := 0 to |vs|
        invariant longer + ImageLines(vs[n..]) == file + ImageLines(vs)
      {
        assert vs[n..][0] == vs[n] && vs[n..][1..] == vs[n + 1..];
        NextLines(longer, ImageText(vs[n]), ImageLines(vs[n + 1..]));
        ghost var before := longer;
        longer := longer + [ImageLine(vs[n])];
        longer := WriteRows(longer, vs[n].pixels, AtLeastZero(vs[n].width), AtLeastZero(vs[n].height));
        assert longer == before + ImageText(vs[n]);
      }
    }

    method SaveFirstSections(file: seq<string>)
      returns (longer: seq<string>, ghost sizes: seq<Size>, ghost symbols: seq<Symbol>, ghost regions: seq<Region>)
      requires Valid()
      ensures Enumerates(sizes, z, SizeKey) && Enumerates(symbols, s, SymbolKey) && Enumerates(regions, r, RegionKey)
      ensures longer == file + Section("sizes", SizeLines(sizes)) + Section("strings", SymbolLines(symbols))
                        + Section("regions", RegionLines(regions))
    {
      hide SizeLines, SymbolLines, RegionLines, Enumerates, SectionHeader, Keyed, AllKeyed;
      MapsAreKeyed(Now(), index);
      longer := WriteSectionHeader(file, "sizes");
      var zs := Values(z, SizeKey);
      longer := WriteSizes(longer, zs);
      longer := longer + [""];
      ghost var s1 := longer;
      assert s1 == file + Section("sizes", SizeLines(zs));
      longer := WriteSectionHeader(longer, "strings");
      var ss := Values(s, SymbolKey);
      longer := WriteSymbols(longer, ss);
      longer := longer + [""];
      ghost var s2 := longer;
      assert s2 == s1 + Section("strings", SymbolLines(ss));
      longer := WriteSectionHeader(longer, "regions");
      var rs := Values(r, RegionKey);
      longer := WriteRegions(longer, rs);
      longer := longer + [""];
      assert longer == s2 + Section("regions", RegionLines(rs));
      sizes, symbols, regions := zs, ss, rs;
    }

    method SaveGroups(file: seq<string>)
      returns (longer: seq<string>, ghost fonts: seq<seq<Font>>, ghost points: seq<seq<HashPoint>>,
               ghost hashes: seq<seq<HashValue>>)
      requires Valid()
      ensures |fonts| == FONT_GROUPS && |points| == |hashes| == HASH_GROUPS
      ensures forall g | 0 <= g < FONT_GROUPS :: Enumerates(fonts[g], t[g], FontKey)
      ensures forall g | 0 <= g < HASH_GROUPS :: Enumerates(points[g], p[g], PointKey)
      ensures forall g | 0 <= g < HASH_GROUPS :: Enumerates(hashes[g], h[g], HashKey)
      ensures longer == file + Section("fonts", FontLines(fonts, 0)) + Section("points", PointLines(points, 0))
                        + Section("hash", HashLines(hashes, 0))
    {
      hide FontLines, PointLines, HashLines, Enumerates, SectionHeader, Keyed, AllKeyed;
      longer := WriteSectionHeader(file, "fonts");
      longer, fonts := WriteFonts(longer);
      longer := longer + [""];
      ghost var s1 := longer;
      assert s1 == file + Section("fonts", FontLines(fonts, 0));
      longer := WriteSectionHeader(longer, "points");
      longer, points := WritePoints(longer);
      longer := longer + [""];
      ghost var s2 := longer;
      assert s2 == s1 + Section("points", PointLines(points, 0));
      longer := WriteSectionHeader(longer, "hash");
      longer, hashes := WriteHashes(longer);
      longer := longer + [""];
      assert longer == s2 + Section("hash", HashLines(hashes, 0));
    }

    /** Writes all records. Loading the file restores the maps if and only if all
        strings are stable and all fonts and hash points fit. */
    method SaveTablemap(version: string, time: string) returns (file: seq<string>)
      requires Valid()
      ensures exists order: Order :: order.Valid() && Lists(order, Now(), index) && file == File(order, version, time)
      ensures NamesPrintable(Now()) && Plain(version) && Plain(time) ==>
                (LoadFile(index, file) == (Success, Now()) <==>
                   StringsFit(Now()) && FontsFit(Now()) && PointsFit(Now()))
    {
      hide Section, SizeLines, SymbolLines, RegionLines, FontLines, PointLines, HashLines, ImageLines, Enumerates;
      hide LoadFile, File, NamesPrintable, StringsFit, FontsFit, PointsFit, Plain, Keyed, AllKeyed, Lists, Preamble;
      ghost var sizes, symbols, regions, fonts, points, hashes;
      file, sizes, symbols, regions := SaveFirstSections(Preamble(version, time));
      file, fonts, points, hashes := SaveGroups(file);
      ghost var s6 := file;
      file := WriteSectionHeader(file, "images");
      MapsAreKeyed(Now(), index);
      var images := Values(i, index);
      file := WriteImages(file, images);
      file := file + [""];
      LastSection(s6, "images", ImageLines(images));
      ghost var order := Order(sizes, symbols, regions, fonts, points, hashes, images);
      AllAreListed(order, Now(), index);
      SectionsInOrder(order, version, time);
      SavedFileIsLoaded(order, Now(), index, version, time);
    }
  }

  lemma LastSection(file: seq<string>, title: string, body: seq<string>)
    ensures file + SectionHeader(title) + body + [""] == file + Section(title, body)
  {}

  lemma AllAreListed(o: Order, m: Maps, index: Image -> UInt32)
    requires o.Valid() && m.Valid()
    requires Enumerates(o.sizes, m.z, SizeKey) && Enumerates(o.symbols, m.s, SymbolKey)
    requires Enumerates(o.regions, m.r, RegionKey) && Enumerates(o.images, m.i, index)
    requires forall g | 0 <= g < FONT_GROUPS :: Enumerates(o.fonts[g], m.t[g], FontKey)
    requires forall g | 0 <= g < HASH_GROUPS :: Enumerates(o.points[g], m.p[g], PointKey)
    requires forall g | 0 <= g < HASH_GROUPS :: Enumerates(o.hashes[g], m.h[g], HashKey)
    ensures Lists(o, m, index)
  {
    hide Enumerates;
  }

  lemma SavedFileIsLoaded(o: Order, m: Maps, index: Image -> UInt32, version: string, time: string)
    requires o.Valid() && m.Valid() && Lists(o, m, index)
    ensures NamesPrintable(m) && Plain(version) && Plain(time) ==>
              (LoadFile(index, File(o, version, time)) == (Success, m) <==>
                 StringsFit(m) && FontsFit(m) && PointsFit(m))
  {
    hide LoadFile, Printable, NamesPrintable, Plain, File, PointsFit, FontsFit, StringsFit, Enumerates;
    hide AllFit, AllStable, AllFontsFit;
    if NamesPrintable(m) && Plain(version) && Plain(time) {
      ListedArePrintable(o, m, index);
      FileRestoresMapsExactlyWhen(index, o, m, version, time);
      ListedStringsFit(o.symbols, m);
      ListedFontsFit(o.fonts, m);
      ListedPointsFit(o.points, m);
    }
  }

  /** All strings are trimmed, in lower case where their names say so, and none is
      one of those that the loader skips. */
  ghost predicate StringsFit(m: Maps) {
    forall k | k in m.s ::
      && Trim(m.s[k].text) == m.s[k].text && !IsHashType(m.s[k].name)
      && (IsLowered(m.s[k].name) ==> LowerCase(m.s[k].text) == m.s[k].text)
  }

  /** No character is a blank, and each is looked up by its columns as they are printed. */
  ghost predicate FontsFit(m: Maps)
    requires m.Valid()
  {
    forall g | 0 <= g < FONT_GROUPS :: forall k | k in m.t[g] ::
      m.t[g][k].ch != ' ' && m.t[g][k].hexmash == Mash(HexesOf(m.t[g][k].x))
  }

  lemma ListedStringsFit(vs: seq<Symbol>, m: Maps)
    requires Enumerates(vs, m.s, SymbolKey)
    ensures AllStable(vs) <==> StringsFit(m)
  {
    hide Trim, IsHashType, IsLowered;
    if StringsFit(m) {
      forall v | v in vs ensures IsStable(v) {
        assert m.s[SymbolKey(v)] == v;
      }
    }
    if AllStable(vs) {
      forall k | k in m.s ensures IsStable(m.s[k]) {
        assert m.s[k] in vs;
      }
    }
  }

  lemma ListedFontsFit(vss: seq<seq<Font>>, m: Maps)
    requires m.Valid() && |vss| == FONT_GROUPS
    requires forall g | 0 <= g < FONT_GROUPS :: Enumerates(vss[g], m.t[g], FontKey)
    ensures AllFontsFit(vss) <==> FontsFit(m)
  {
    hide FontFits, Mash, HexesOf;
    forall f: Font ensures FontFits(f) <==> f.ch != ' ' && f.hexmash == Mash(HexesOf(f.x)) {
      FontComesBackExactlyWhen(f);
    }
    if FontsFit(m) {
      forall g, v | 0 <= g < FONT_GROUPS && v in vss[g] ensures FontFits(v) {
        assert m.t[g][FontKey(v)] == v;
      }
    }
    if AllFontsFit(vss) {
      forall g, k | 0 <= g < FONT_GROUPS && k in m.t[g] ensures FontFits(m.t[g][k]) {
        assert FontGroupFits(vss[g]) && m.t[g][k] in vss[g];
      }
    }
  }

  /** Names have no blanks, texts have no line breaks, and images have all their
      pixels and are not too large. */
  ghost predicate NamesPrintable(m: Maps)
    requires m.Valid()
  {
    && (forall k | k in m.z :: NoSpace(m.z[k].name))
    && (forall k | k in m.r :: NoSpace(m.r[k].name) && Solid(m.r[k].transform))
    && (forall g | 0 <= g < HASH_GROUPS :: forall k | k in m.h[g] :: NoSpace(m.h[g][k].name))
    && (forall k | k in m.s :: IsText(m.s[k]))
    && (forall g | 0 <= g < FONT_GROUPS :: forall k | k in m.t[g] :: IsCharacter(m.t[g][k]))
    && (forall k | k in m.i ::
          NoSpace(m.i[k].name) && IsImage(m.i[k]) && m.i[k].width * m.i[k].height <= MAX_IMAGE_SIZE)
  }

  /** The x of every hash point is printed with at most three characters. */
  ghost predicate PointsFit(m: Maps)
    requires m.Valid()
  {
    forall g | 0 <= g < HASH_GROUPS :: forall k | k in m.p[g] :: -99 <= Signed(m.p[g][k].x) <= 999
  }

  lemma ListedArePrintable(o: Order, m: Maps, index: Image -> UInt32)
    requires o.Valid() && m.Valid() && Lists(o, m, index) && NamesPrintable(m)
    ensures Printable(o)
  {
    hide NoSpace, Solid, IsImage, IsText, IsCharacter, HashKey, FontKey, SymbolKey;
  }

  lemma FitsExactlyWhen(p: HashPoint)
    ensures FitsField(p) <==> -99 <= Signed(p.x) <= 999
  {}

  lemma ListedPointsFit(vss: seq<seq<HashPoint>>, m: Maps)
    requires m.Valid() && |vss| == HASH_GROUPS
    requires forall g | 0 <= g < HASH_GROUPS :: Enumerates(vss[g], m.p[g], PointKey)
    ensures AllFit(vss) <==> PointsFit(m)
  {
    hide PointKey, FitsField, Signed;
    forall p: HashPoint ensures FitsField(p) <==> -99 <= Signed(p.x) <= 999 {
      FitsExactlyWhen(p);
    }
    if PointsFit(m) {
      forall g, v | 0 <= g < HASH_GROUPS && v in vss[g] ensures FitsField(v) {
        assert PointKey(v) in m.p[g];
      }
    }
    if AllFit(vss) {
      forall g, k | 0 <= g < HASH_GROUPS && k in m.p[g] ensures -99 <= Signed(m.p[g][k].x) <= 999 {
        assert GroupFits(vss[g]) && m.p[g][k] in vss[g];
      }
    }
  }

  /** The sections written one after the other make the file. */
  lemma SectionsInOrder(o: Order, version: string, time: string)
    requires o.Valid()
    ensures Preamble(version, time) + Section("sizes", SizeLines(o.sizes)) + Section("strings", SymbolLines(o.symbols))
            + Section("regions", RegionLines(o.regions)) + Section("fonts", FontLines(o.fonts, 0))
            + Section("points", PointLines(o.points, 0)) + Section("hash", HashLines(o.hashes, 0))
            + Section("images", ImageLines(o.images)) == File(o, version, time)
  {
    hide Section, SizeLines, SymbolLines, RegionLines, FontLines, PointLines, HashLines, ImageLines, Preamble;
    var images := Section("images", ImageLines(o.images));
    var hash := Section("hash", HashLines(o.hashes, 0));
    var points := Section("points", PointLines(o.points, 0));
    var fonts := Section("fonts", FontLines(o.fonts, 0));
    var regions := Section("regions", RegionLines(o.regions));
    var strings := Section("strings", SymbolLines(o.symbols));
    var sizes := Section("sizes", SizeLines(o.sizes));
    var s1 := Preamble(version, time) + sizes;
    var s2 := s1 + strings;
    var s3 := s2 + regions;
    var s4 := s3 + fonts;
    var s5 := s4 + points;
    assert images == images + [];
    NextLines(s5, hash, images);
    NextLines(s4, points, hash + images);
    NextLines(s3, fonts, points + (hash + images));
    NextLines(s2, regions, fonts + (points + (hash + images)));
    NextLines(s1, strings, regions + (fonts + (points + (hash + images))));
    NextLines(Preamble(version, time), sizes, strings + (regions + (fonts + (points + (hash + images)))));
  }

  lemma NextLines(a: seq<string>, b: seq<string>, c: seq<string>)
    ensures (a + b) + c == a + (b + c)
  {}

  function FontLinesUpTo(vss: seq<seq<Font>>): seq<string>
    requires |vss| <= FONT_GROUPS
  {
    if vss == [] then [] else FontLinesUpTo(vss[..|vss| - 1]) + FontGroupLines(|vss| - 1, vss[|vss| - 1])
  }

  lemma {:induction false} FontLinesInOrder(vss: seq<seq<Font>>, k: nat)
    requires k <= |vss| == FONT_GROUPS
    ensures FontLinesUpTo(vss[..k]) + FontLines(vss, k) == FontLines(vss, 0)
  {
    hide FontGroupLines;
    if k > 0 {
      FontLinesInOrder(vss, k - 1);
      assert vss[..k][..k - 1] == vss[..k - 1];
      NextLines(FontLinesUpTo(vss[..k - 1]), FontGroupLines(k - 1, vss[k - 1]), FontLines(vss, k));
    }
  }

  function PointLinesUpTo(vss: seq<seq<HashPoint>>): seq<string>
    requires |vss| <= HASH_GROUPS
  {
    if vss == [] then [] else PointLinesUpTo(vss[..|vss| - 1]) + PointGroupLines(|vss| - 1, vss[|vss| - 1])
  }

  lemma {:induction false} PointLinesInOrder(vss: seq<seq<HashPoint>>, k: nat)
    requires k <= |vss| == HASH_GROUPS
    ensures PointLinesUpTo(vss[..k]) + PointLines(vss, k) == PointLines(vss, 0)
  {
    hide PointGroupLines;
    if k > 0 {
      PointLinesInOrder(vss, k - 1);
      assert vss[..k][..k - 1] == vss[..k - 1];
      NextLines(PointLinesUpTo(vss[..k - 1]), PointGroupLines(k - 1, vss[k - 1]), PointLines(vss, k));
    }
  }

  function HashLinesUpTo(vss: seq<seq<HashValue>>): seq<string>
    requires |vss| <= HASH_GROUPS
  {
    if vss == [] then [] else HashLinesUpTo(vss[..|vss| - 1]) + HashGroupLines(|vss| - 1, vss[|vss| - 1])
  }

  lemma {:induction false} HashLinesInOrder(vss: seq<seq<HashValue>>, k: nat)
    requires k <= |vss| == HASH_GROUPS
    ensures HashLinesUpTo(vss[..k]) + HashLines(vss, k) == HashLines(vss, 0)
  {
    hide HashGroupLines;
    if k > 0 {
      HashLinesInOrder(vss, k - 1);
      assert vss[..k][..k - 1] == vss[..k - 1];
      NextLines(HashLinesUpTo(vss[..k - 1]), HashGroupLines(k - 1, vss[k - 1]), HashLines(vss, k));
    }
  }

  lemma NextRow(a: seq<UInt32>, b: seq<UInt32>, c: seq<UInt32>)
    ensures (a + b) + c == a + (b + c)
  {}

  /** The kinds of records one by one. */
  lemma AfterIsWhat(index: Image -> UInt32, record: Line, rest: seq<string>, m: Maps)
    requires m.Valid() && record.Valid()
    ensures var alone, next := After(index, record, [], m), After(index, record, rest, m);
            if record.SyntaxError? then alone == next == Stop(ErrSyntax)
            else if record.RegionSizeError? then alone == next == Stop(ErrRegionSize)
            else if record.UnknownLineType? then alone == next == Stop(ErrUnknownLineType)
            else record.ImageHeader? || (alone.Go? && next == Go(rest, alone.maps))
    ensures record.ImageHeader? ==>
              var n := AtLeastZero(record.height);
              After(index, record, rest, m)
              == if n > |rest| then Stop(ErrSyntax)
                 else var image := Image(record.name, record.width, record.height,
                                         PixelsOfRows(rest[..n], AtLeastZero(record.width)));
                      Go(rest[n..], m.(i := Insert(m.i, index(image), image)))
  {
    hide PixelsOfRows, Insert;
  }

  lemma BlankSkipped(line: string, start: nat)
    requires start < |line| && IsBlank(line[start])
    ensures Tokens(line[start..]) == Tokens(line[start + 1..])
  {
    assert line[start..][1..] == line[start + 1..];
  }

  lemma WordTaken(line: string, start: nat, next: nat)
    requires start <= next <= |line| && (forall k | start <= k < next :: !IsBlank(line[k]))
    requires next < |line| ==> IsBlank(line[next])
    requires start < |line| ==> start < next
    ensures Tokens(line[start..]) == if start == next then [] else [line[start..next]] + Tokens(line[next..])
  {
    var rest := line[start..];
    if start < next {
      WordEndIs(rest, next - start);
      assert rest[..next - start] == line[start..next] && rest[next - start..] == line[next..];
      assert rest[0] == line[start];
    }
  }
}
