/** The text format of tile maps: what SaveFile prints and LoadFile reads back. */
module TilemapText {
  import opened Geometry
  import opened Ordered
  import opened Sequences
  import opened TilemapModel

  const INT32_MAX := 0x7FFF_FFFF
  const INT32_MIN := -0x8000_0000

  // ---------- numbers ----------

  predicate IsDigit(c: char) { '0' <= c <= '9' }

  predicate IsSpace(c: char) { c == ' ' || c == '\t' || c == '\n' || c == '\r' || c == 11 as char || c == 12 as char }

  function DigitValue(c: char): nat
    requires IsDigit(c)
  {
    c as int - '0' as int
  }

  function DigitChar(d: nat): (c: char)
    requires d < 10
    ensures IsDigit(c) && DigitValue(c) == d
  {
    ('0' as int + d) as char
  }

  function ShowNat(n: nat): string {
    if n < 10 then [DigitChar(n)] else ShowNat(n / 10) + [DigitChar(n % 10)]
  }

  function ShowInt(n: int): string {
    if n < 0 then "-" + ShowNat(-n) else ShowNat(n)
  }

  function SkipSpaces(s: string): string {
    if s != [] && IsSpace(s[0]) then SkipSpaces(s[1..]) else s
  }

  /** The number that a run of digits continues, and what follows the run. */
  function ReadDigits(s: string, acc: nat): (nat, string) {
    if s != [] && IsDigit(s[0]) then ReadDigits(s[1..], 10 * acc + DigitValue(s[0])) else (acc, s)
  }

  /** Formatted input of a 32-bit integer into a variable that holds `old`.  At the end of
      the stream nothing is stored; a text that is no number stores 0, and one out of range
      the nearest bound. */
  datatype Read = Read(ok: bool, value: int, rest: string)

  function ReadInt(s: string, oldValue: int): Read {
    var t := SkipSpaces(s);
    if t == [] then Read(false, oldValue, []) else ReadNumber(t)
  }

  function ReadNumber(t: string): Read {
    var negative := t != [] && t[0] == '-';
    var u := if t != [] && (t[0] == '-' || t[0] == '+') then t[1..] else t;
    if u == [] || !IsDigit(u[0]) then Read(false, 0, u)
    else
      var (n, rest) := ReadDigits(u, 0);
      var v: int := if negative then 0 - n else n;
      if v > INT32_MAX then Read(false, INT32_MAX, rest)
      else if v < INT32_MIN then Read(false, INT32_MIN, rest)
      else Read(true, v, rest)
  }

  // ---------- loading ----------

  /** The digits of a text, whatever stands between them. */
  function Digits(s: string): seq<int> {
    if s == [] then [] else DigitOf(s[0]) + Digits(s[1..])
  }

  function DigitOf(c: char): seq<int> { if IsDigit(c) then [DigitValue(c)] else [] }

  function LoadedTile(raw: seq<int>, total: nat, index: nat): Tile {
    var value := if index < |raw| then raw[index] else 0;
    Tile(value, if total + index < |raw| then raw[total + index] != 0 else value == 0)
  }

  lemma {:induction false} IndexInBounds(width: nat, height: nat, x: nat, y: nat)
    requires x < width && y < height
    ensures y * width + x < width * height
  {
    assert (y + 1) * width <= height * width;
  }

  function Filled(width: nat, height: nat, raw: seq<int>): (m: RawTilemap)
    ensures m.Valid()
  {
    Tilemap(Cell(width, height),
            seq(height, y requires 0 <= y < height =>
              seq(width, x requires 0 <= x < width => LoadedTile(raw, width * height, y * width + x))))
  }

  /** The header of a file and the digits behind it.  After a failed read the stream
      yields nothing more, and a size that was not reached keeps its old value. */
  datatype Header = Header(width: int, height: int, raw: seq<int>)

  function ReadHeader(size: Cell, text: string): Header {
    var w := ReadInt(text, size.x);
    if !w.ok then Header(w.value, size.y, [])
    else
      var h := ReadInt(w.rest, size.y);
      Header(w.value, h.value, if h.ok then Digits(h.rest) else [])
  }

  /** What LoadFile leaves in a map of the given size; a negative size makes the allocation
      throw. */
  function Load(size: Cell, text: string): Option<RawTilemap> {
    var h := ReadHeader(size, text);
    if h.width < 0 || h.height < 0 then None else Some(Filled(h.width, h.height, h.raw))
  }

  // ---------- saving ----------

  function ValuesLine(row: seq<Tile>): string {
    if row == [] then [] else ShowInt(row[0].value) + ValuesLine(row[1..])
  }

  function WalkableLine(row: seq<Tile>): string {
    if row == [] then [] else (if row[0].walkable then "1" else "0") + WalkableLine(row[1..])
  }

  function ValuesText(rows: seq<seq<Tile>>): string {
    if rows == [] then [] else ValuesLine(rows[0]) + "\n" + ValuesText(rows[1..])
  }

  function WalkableText(rows: seq<seq<Tile>>): string {
    if rows == [] then [] else WalkableLine(rows[0]) + "\n" + WalkableText(rows[1..])
  }

  function Save(m: RawTilemap): string
    requires m.Valid()
  {
    ShowInt(m.size.x) + "\n" + ShowInt(m.size.y) + "\n" + ValuesText(m.tiles) + "\n" + WalkableText(m.tiles)
  }

  // ---------- round trips ----------

  lemma {:induction false} ShowNatIsRead(n: nat, t: string)
    ensures ShowNat(n) != [] && IsDigit(ShowNat(n)[0])
    ensures ReadDigits(ShowNat(n) + t, 0) == ReadDigits(t, n)
  {
    if n < 10 {
      assert (ShowNat(n) + t)[1..] == t;
    } else {
      var d := [DigitChar(n % 10)];
      ShowNatIsRead(n / 10, d + t);
      assert ShowNat(n) + t == ShowNat(n / 10) + (d + t);
      assert (d + t)[1..] == t;
    }
  }

  /** A printed size is read back, up to the line break that follows it. */
  lemma {:induction false} SizeRoundTrip(n: nat, t: string, oldValue: int)
    requires n <= INT32_MAX
    ensures ReadInt(ShowInt(n) + ("\n" + t), oldValue) == Read(true, n, "\n" + t)
    ensures ReadInt("\n" + (ShowInt(n) + ("\n" + t)), oldValue) == Read(true, n, "\n" + t)
  {
    var s := ShowInt(n) + ("\n" + t);
    ShowNatIsRead(n, "\n" + t);
    assert s[0] == ShowNat(n)[0];
    assert SkipSpaces(s) == s;
    assert ("\n" + s)[1..] == s;
    assert SkipSpaces("\n" + s) == s;
    assert ReadDigits("\n" + t, n) == (n, "\n" + t);
  }

  /** Every number is read back from its text, and one that does not fit 32 bits as the nearest
      bound, with the stream failed. */
  lemma {:induction false} NumberIsRead(n: int, t: string, oldValue: int)
    requires t == "" || !IsDigit(t[0])
    ensures var v := if n > INT32_MAX then INT32_MAX else if n < INT32_MIN then INT32_MIN else n;
      ReadInt(ShowInt(n) + t, oldValue) == Read(v == n, v, t)
  {
    if n < 0 { NegativeIsRead(-n, t, oldValue); } else { NaturalIsRead(n, t, oldValue); }
  }

  lemma {:induction false} NaturalIsRead(n: nat, t: string, oldValue: int)
    requires t == "" || !IsDigit(t[0])
    ensures ReadInt(ShowNat(n) + t, oldValue) == if n > INT32_MAX then Read(false, INT32_MAX, t) else Read(true, n, t)
  {
    ShowNatIsRead(n, t);
    var s := ShowNat(n) + t;
    assert s[0] == ShowNat(n)[0] && SkipSpaces(s) == s;
    assert ReadDigits(t, n) == (n, t);
  }

  lemma {:induction false} NegativeIsRead(n: nat, t: string, oldValue: int)
    requires t == "" || !IsDigit(t[0])
    ensures ReadInt("-" + ShowNat(n) + t, oldValue) == if n > 0x8000_0000 then Read(false, INT32_MIN, t) else Read(true, 0 - n, t)
  {
    ShowNatIsRead(n, t);
    var s, u := "-" + ShowNat(n) + t, ShowNat(n) + t;
    assert s[0] == '-' && s[1..] == u && u[0] == ShowNat(n)[0];
    assert SkipSpaces(s) == s;
    assert ReadDigits(t, n) == (n, t);
  }

  lemma {:induction false} DigitsCons(c: char, t: string)
    ensures Digits([c] + t) == DigitOf(c) + Digits(t)
  {
  }

  lemma {:induction false} DigitsAppend(a: string, b: string)
    ensures Digits(a + b) == Digits(a) + Digits(b)
  {
    if a == [] {
      assert a + b == b;
    } else {
      var c, t := a[0], a[1..];
      DigitsAppend(t, b);
      DigitsCons(c, t + b);
      Assoc([c], t, b);
      assert [c] + t == a;
      Assoc(DigitOf(c), Digits(t), Digits(b));
    }
  }

  /** The values, or the walkable bits, of a row as digits. */
  function RowValues(row: seq<Tile>): seq<int> { seq(|row|, x requires 0 <= x < |row| => row[x].value) }

  function RowBits(row: seq<Tile>): seq<int> { seq(|row|, x requires 0 <= x < |row| => if row[x].walkable then 1 else 0) }

  predicate RowIsDigits(row: seq<Tile>) { forall x :: 0 <= x < |row| ==> 0 <= row[x].value < 10 }

  predicate AllDigits(m: RawTilemap) { forall y :: 0 <= y < |m.tiles| ==> RowIsDigits(m.tiles[y]) }

  lemma {:induction false} ValuesLineDigits(row: seq<Tile>)
    requires RowIsDigits(row)
    ensures Digits(ValuesLine(row)) == RowValues(row)
  {
    if row != [] {
      var v := ShowInt(row[0].value);
      ValuesLineDigits(row[1..]);
      DigitsAppend(v, ValuesLine(row[1..]));
      assert v[1..] == [] && Digits(v) == [row[0].value];
      assert RowValues(row) == [row[0].value] + RowValues(row[1..]);
    }
  }

  lemma {:induction false} WalkableLineDigits(row: seq<Tile>)
    ensures Digits(WalkableLine(row)) == RowBits(row)
  {
    if row != [] {
      var v := if row[0].walkable then "1" else "0";
      WalkableLineDigits(row[1..]);
      DigitsAppend(v, WalkableLine(row[1..]));
      assert v[1..] == [] && Digits(v) == [if row[0].walkable then 1 else 0];
      assert RowBits(row) == [if row[0].walkable then 1 else 0] + RowBits(row[1..]);
    }
  }

  function ValueRows(rows: seq<seq<Tile>>): seq<seq<int>> {
    seq(|rows|, y requires 0 <= y < |rows| => RowValues(rows[y]))
  }

  function BitRows(rows: seq<seq<Tile>>): seq<seq<int>> {
    seq(|rows|, y requires 0 <= y < |rows| => RowBits(rows[y]))
  }

  lemma {:induction false} LineBreak(line: string, text: string)
    ensures Digits(line + "\n" + text) == Digits(line) + Digits(text)
  {
    DigitsAppend(line + "\n", text);
    DigitsAppend(line, "\n");
    assert Digits("\n") == [] by { assert "\n"[1..] == []; }
  }

  lemma {:induction false} ValuesTextDigits(rows: seq<seq<Tile>>)
    requires forall y :: 0 <= y < |rows| ==> RowIsDigits(rows[y])
    ensures Digits(ValuesText(rows)) == Concat(ValueRows(rows))
  {
    if rows != [] {
      ValuesLineDigits(rows[0]);
      ValuesTextDigits(rows[1..]);
      LineBreak(ValuesLine(rows[0]), ValuesText(rows[1..]));
      assert ValueRows(rows)[1..] == ValueRows(rows[1..]);
    }
  }

  lemma {:induction false} WalkableTextDigits(rows: seq<seq<Tile>>)
    ensures Digits(WalkableText(rows)) == Concat(BitRows(rows))
  {
    if rows != [] {
      WalkableLineDigits(rows[0]);
      WalkableTextDigits(rows[1..]);
      LineBreak(WalkableLine(rows[0]), WalkableText(rows[1..]));
      assert BitRows(rows)[1..] == BitRows(rows[1..]);
    }
  }

  lemma {:induction false} Regroup(a: string, b: string, c: string)
    ensures a + "\n" + b + "\n" + c == a + ("\n" + (b + ("\n" + c)))
  {
  }

  /** A header followed by some body is read back as the size and the digits of the body. */
  lemma {:induction false} HeaderRoundTrip(size: Cell, width: nat, height: nat, body: string)
    requires width <= INT32_MAX && height <= INT32_MAX
    ensures ReadHeader(size, ShowInt(width) + "\n" + ShowInt(height) + "\n" + body) == Header(width, height, Digits(body))
  {
    SizeRoundTrip(width, ShowInt(height) + ("\n" + body), size.x);
    SizeRoundTrip(height, body, size.y);
    Regroup(ShowInt(width), ShowInt(height), body);
    DigitsCons('\n', body);
  }

  /** Filling from the digits of a value grid followed by a walkable grid. */
  lemma {:induction false} FilledRoundTrip(m: RawTilemap, raw: seq<int>)
    requires m.Valid() && raw == Concat(ValueRows(m.tiles)) + Concat(BitRows(m.tiles))
    ensures Filled(m.size.x, m.size.y, raw) == m
  {
    var width, height, total := m.size.x, m.size.y, m.size.x * m.size.y;
    ConcatLength(ValueRows(m.tiles), width);
    var f := Filled(width, height, raw);
    forall y, x | 0 <= y < height && 0 <= x < width
      ensures f.tiles[y][x] == m.tiles[y][x]
    {
      ConcatAt(ValueRows(m.tiles), width, y, x);
      ConcatAt(BitRows(m.tiles), width, y, x);
      IndexInBounds(width, height, x, y);
    }
    assert forall y :: 0 <= y < height ==> f.tiles[y] == m.tiles[y];
  }

  /** Without a walkable grid a cell is walkable exactly if its value is 0. */
  lemma {:induction false} FilledFromValues(m: RawTilemap, raw: seq<int>)
    requires m.Valid() && raw == Concat(ValueRows(m.tiles))
    requires forall y, x :: 0 <= y < |m.tiles| && 0 <= x < |m.tiles[y]| ==> (m.tiles[y][x].walkable <==> m.tiles[y][x].value == 0)
    ensures Filled(m.size.x, m.size.y, raw) == m
  {
    var width, height := m.size.x, m.size.y;
    ConcatLength(ValueRows(m.tiles), width);
    var f := Filled(width, height, raw);
    forall y, x | 0 <= y < height && 0 <= x < width
      ensures f.tiles[y][x] == m.tiles[y][x]
    {
      ConcatAt(ValueRows(m.tiles), width, y, x);
      IndexInBounds(width, height, x, y);
      assert f.tiles[y][x] == LoadedTile(raw, width * height, y * width + x);
      assert m.tiles[y][x].value == raw[y * width + x];
    }
    assert forall y :: 0 <= y < height ==> f.tiles[y] == m.tiles[y];
  }

  lemma {:induction false} SavedMapLoads(size: Cell, m: RawTilemap)
    requires m.Valid() && m.size.x <= INT32_MAX && m.size.y <= INT32_MAX && AllDigits(m)
    ensures Load(size, Save(m)) == Some(m)
  {
    var body := ValuesText(m.tiles) + "\n" + WalkableText(m.tiles);
    assert Save(m) == ShowInt(m.size.x) + "\n" + ShowInt(m.size.y) + "\n" + body;
    HeaderRoundTrip(size, m.size.x, m.size.y, body);
    LineBreak(ValuesText(m.tiles), WalkableText(m.tiles));
    ValuesTextDigits(m.tiles);
    WalkableTextDigits(m.tiles);
    FilledRoundTrip(m, Digits(body));
  }

  /** Whatever the text, the loaded values are single digits. */
  lemma {:induction false} LoadedValuesAreDigits(size: Cell, text: string)
    ensures Load(size, text).Some? ==> AllDigits(Load(size, text).value)
  {
    var h := ReadHeader(size, text);
    DigitsAreSmall(ReadInt(ReadInt(text, size.x).rest, size.y).rest);
    if h.width >= 0 && h.height >= 0 { FilledIsDigits(h.width, h.height, h.raw); }
  }

  lemma {:induction false} DigitsAreSmall(s: string)
    ensures forall i :: 0 <= i < |Digits(s)| ==> 0 <= Digits(s)[i] < 10
  {
    if s != [] { DigitsAreSmall(s[1..]); }
  }

  lemma {:induction false} FilledIsDigits(width: nat, height: nat, raw: seq<int>)
    requires forall i :: 0 <= i < |raw| ==> 0 <= raw[i] < 10
    ensures AllDigits(Filled(width, height, raw))
  {
    var m := Filled(width, height, raw);
    forall y | 0 <= y < height
      ensures RowIsDigits(m.tiles[y])
    {
      forall x | 0 <= x < width
        ensures 0 <= m.tiles[y][x].value < 10
      {
        assert m.tiles[y][x] == LoadedTile(raw, width * height, y * width + x);
      }
    }
  }

  /** What a file means: behind its two numbers each digit is a value, row by row, and after
      all the values a walkable bit; a value that is missing is 0, and a tile whose bit is
      missing is walkable if its value is 0. */
  lemma {:induction false} LoadedTiles(size: Cell, width: nat, height: nat, body: string, x: nat, y: nat)
    requires width <= INT32_MAX && height <= INT32_MAX && x < width && y < height
    ensures var m := Load(size, ShowInt(width) + "\n" + ShowInt(height) + "\n" + body);
      && m.Some? && m.value.size == Cell(width, height) && |m.value.tiles| == height && |m.value.tiles[y]| == width
      && var raw, at, bit := Digits(body), x + y * width, x + y * width + width * height;
         var tile := m.value.tiles[y][x];
         && 0 <= at < bit
         && (at < |raw| ==> tile.value == raw[at]) && (at >= |raw| ==> tile.value == 0)
         && (bit < |raw| ==> (tile.walkable <==> raw[bit] != 0)) && (bit >= |raw| ==> (tile.walkable <==> tile.value == 0))
  {
    HeaderRoundTrip(size, width, height, body);
    FilledAt(width, height, Digits(body), x, y);
  }

  lemma {:induction false} FilledAt(width: nat, height: nat, raw: seq<int>, x: nat, y: nat)
    requires x < width && y < height
    ensures var m, at, bit := Filled(width, height, raw), x + y * width, x + y * width + width * height;
      && 0 <= at < bit && m.tiles[y][x] == LoadedTile(raw, width * height, at)
      && (bit < |raw| ==> at < |raw|)
  {
    IndexInBounds(width, height, x, y);
  }

  /** A file, letter by letter: three columns and one row, with a wall in the middle. */
  lemma {:induction false} SavedText()
    ensures Save(Tilemap(Cell(3, 1), [[Tile(0, true), Tile(1, false), Tile(9, true)]])) == "3\n1\n019\n\n101\n"
  {
    var row := [Tile(0, true), Tile(1, false), Tile(9, true)];
    ShownLine(Tile(9, true), []);
    ShownLine(Tile(1, false), [Tile(9, true)]);
    ShownLine(Tile(0, true), [Tile(1, false), Tile(9, true)]);
    assert row == [Tile(0, true)] + [Tile(1, false), Tile(9, true)];
    ShownRow(row);
  }

  lemma {:induction false} ShownLine(tile: Tile, row: seq<Tile>)
    requires 0 <= tile.value < 10
    ensures ValuesLine([tile] + row) == [DigitChar(tile.value)] + ValuesLine(row)
    ensures WalkableLine([tile] + row) == (if tile.walkable then "1" else "0") + WalkableLine(row)
  {
    assert ([tile] + row)[1..] == row;
  }

  lemma {:induction false} ShownRow(row: seq<Tile>)
    ensures ValuesText([row]) == ValuesLine(row) + "\n" && WalkableText([row]) == WalkableLine(row) + "\n"
  {
    var none: seq<seq<Tile>> := [];
    assert [row][1..] == none;
  }

  /** A saved map loads as itself exactly if all its values are single digits. */
  lemma {:induction false} RoundTripIff(size: Cell, m: RawTilemap)
    requires m.Valid() && m.size.x <= INT32_MAX && m.size.y <= INT32_MAX
    ensures Load(size, Save(m)) == Some(m) <==> AllDigits(m)
  {
    if AllDigits(m) {
      SavedMapLoads(size, m);
    } else {
      LoadedValuesAreDigits(size, Save(m));
    }
  }

  /** A file that holds only the value grid loads with every cell walkable whose value is 0. */
  lemma {:induction false} ValueGridLoads(size: Cell, m: RawTilemap)
    requires m.Valid() && m.size.x <= INT32_MAX && m.size.y <= INT32_MAX && AllDigits(m)
    requires forall y, x :: 0 <= y < |m.tiles| && 0 <= x < |m.tiles[y]| ==> (m.tiles[y][x].walkable <==> m.tiles[y][x].value == 0)
    ensures Load(size, ShowInt(m.size.x) + "\n" + ShowInt(m.size.y) + "\n" + ValuesText(m.tiles)) == Some(m)
  {
    HeaderRoundTrip(size, m.size.x, m.size.y, ValuesText(m.tiles));
    ValuesTextDigits(m.tiles);
    FilledFromValues(m, Digits(ValuesText(m.tiles)));
  }

  // ---------- the maps that the program's own writers make ----------

  /** Who writes to a map: SetMapSize, LoadFile, and the editor's click on a tile. */
  datatype Edit = Resize(size: Cell) | LoadText(text: string) | Pick(pos: Cell)

  function Blank(size: Cell): RawTilemap
    requires size.x >= 0 && size.y >= 0
  {
    Tilemap(size, seq(size.y, _ => seq(size.x, _ => Tile(0, true))))
  }

  /** The map after an edit; None if the edit throws. */
  function Edited(m: RawTilemap, e: Edit): Option<RawTilemap>
    requires m.Valid()
  {
    match e
    case Resize(size) => if size.x < 0 || size.y < 0 then None else Some(Blank(size))
    case LoadText(text) => Load(m.size, text)
    case Pick(pos) => if m.GetTileAt(pos).None? then Some(m) else Some(Picked(m, pos))
  }

  function Picked(m: RawTilemap, pos: Cell): RawTilemap
    requires m.Valid() && m.GetTileAt(pos).Some?
  {
    m.(tiles := m.tiles[pos.y := m.tiles[pos.y][pos.x := Tile(1, false)]])
  }

  /** What the edits do: a resized map is all 0 and walkable; a click puts a wall of value 1
      where it lands, and nowhere else; and a click beside the map does nothing. */
  lemma {:induction false} EditOutcome(m: RawTilemap, size: Cell, pos: Cell, x: nat, y: nat)
    requires m.Valid()
    ensures Edited(m, Resize(size)).None? <==> size.x < 0 || size.y < 0
    ensures x < size.x && y < size.y ==> Edited(m, Resize(size)).value.tiles[y][x] == Tile(0, true)
    ensures Edited(m, Pick(pos)).Some? && Edited(m, Pick(pos)).value.size == m.size && Edited(m, Pick(pos)).value.Valid()
    ensures x < m.size.x && y < m.size.y ==>
      Edited(m, Pick(pos)).value.tiles[y][x] == if pos == Cell(x, y) then Tile(1, false) else m.tiles[y][x]
  {
  }

  /** A map of single digits whose size fits the field that holds it. */
  predicate Savable(m: RawTilemap) { m.Valid() && AllDigits(m) && m.size.x <= INT32_MAX && m.size.y <= INT32_MAX }

  predicate FitsInt32(e: Edit) { e.Resize? ==> e.size.x <= INT32_MAX && e.size.y <= INT32_MAX }

  lemma {:induction false} EditKeepsSavable(m: RawTilemap, e: Edit)
    requires Savable(m) && FitsInt32(e)
    ensures Edited(m, e).Some? ==> Savable(Edited(m, e).value)
  {
    match e
    case Resize(_) =>
    case LoadText(text) => LoadedValuesAreDigits(m.size, text);
    case Pick(pos) =>
      if m.GetTileAt(pos).Some? {
        PickKeepsDigits(m, pos);
      }
  }

  lemma {:induction false} PickKeepsDigits(m: RawTilemap, pos: Cell)
    requires m.Valid() && AllDigits(m) && m.GetTileAt(pos).Some?
    ensures Picked(m, pos).Valid() && AllDigits(Picked(m, pos))
  {
    assert RowIsDigits(m.tiles[pos.y][pos.x := Tile(1, false)]);
  }

  /** The maps that a new map runs through under these edits. */
  ghost predicate IsEditRun(maps: seq<RawTilemap>, edits: seq<Edit>) {
    && |maps| == |edits| + 1 && maps[0] == Tilemap(Cell(0, 0), [])
    && forall i :: 0 <= i < |edits| ==> FitsInt32(edits[i]) && EditAt(maps, edits, i)
  }

  ghost predicate EditAt(maps: seq<RawTilemap>, edits: seq<Edit>, i: nat)
    requires |maps| == |edits| + 1 && i < |edits|
  {
    maps[i].Valid() && Edited(maps[i], edits[i]) == Some(maps[i + 1])
  }

  lemma {:induction false} EditedMapsAreSavable(maps: seq<RawTilemap>, edits: seq<Edit>, i: nat)
    requires IsEditRun(maps, edits) && i < |maps|
    ensures Savable(maps[i])
  {
    if i > 0 {
      EditedMapsAreSavable(maps, edits, i - 1);
      assert EditAt(maps, edits, i - 1);
      EditKeepsSavable(maps[i - 1], edits[i - 1]);
    }
  }

  /** Whatever a new map has gone through, saving and loading it again gives it back. */
  lemma {:induction false} EditedMapsSurvive(maps: seq<RawTilemap>, edits: seq<Edit>, i: nat, size: Cell)
    requires IsEditRun(maps, edits) && i < |maps|
    ensures maps[i].Valid() && Load(size, Save(maps[i])) == Some(maps[i])
  {
    EditedMapsAreSavable(maps, edits, i);
    SavedMapLoads(size, maps[i]);
  }

  /** One turn of the loop that collects digits. */
  lemma {:induction false} TakeDigit(raw: seq<int>, rest: string)
    requires rest != ""
    ensures raw + DigitOf(rest[0]) + Digits(rest[1..]) == raw + Digits(rest)
  {
  }

  // ---------- the map object ----------

  class TilemapObject {
    var mapSize: Cell
    var tiles: seq<seq<Tile>>

    ghost function Value(): RawTilemap
      reads this
    {
      RawTilemap.Tilemap(mapSize, tiles)
    }

    constructor ()
      ensures Value() == RawTilemap.Tilemap(Cell(0, 0), [])
    {
      mapSize, tiles := Cell(0, 0), [];
    }

    /** Allocates the tiles; a negative size makes the allocation throw. */
    method SetMapSize(size: Cell) returns (threw: bool)
      modifies this
      ensures mapSize == size
      ensures threw <==> size.x < 0 || size.y < 0
      ensures if threw then tiles == old(tiles) else Value() == Blank(size)
    {
      mapSize := size;
      if size.x < 0 || size.y < 0 {
        return true;
      }
      tiles := seq(size.y, _ => seq(size.x, _ => Tile(0, true)));
      return false;
    }

    method GetTileAt(pos: Cell) returns (tile: Option<Tile>)
      requires Value().Valid()
      ensures tile == Value().GetTileAt(pos)
    {
      if pos.x < 0 || pos.x >= mapSize.x || pos.y < 0 || pos.y >= mapSize.y {
        return None;
      }
      return Some(tiles[pos.y][pos.x]);
    }

    /** The text branch of `LoadFile`; `file` is the content, if the file can be opened. */
    method LoadFile(file: Option<string>) returns (threw: bool)
      modifies this
      ensures file.None? ==> !threw && Value() == old(Value())
      ensures file.Some? ==> (threw <==> Load(old(mapSize), file.value).None?)
      ensures file.Some? && !threw ==> Value() == Load(old(mapSize), file.value).value
    {
      if file.None? {
        return false;
      }
      var first := ReadInt(file.value, mapSize.x);
      mapSize := Cell(first.value, mapSize.y);
      var stream := "";
      if first.ok {
        var second := ReadInt(first.rest, mapSize.y);
        mapSize := Cell(first.value, second.value);
        stream := if second.ok then second.rest else "";
      }
      threw := SetMapSize(mapSize);
      if threw {
        return;
      }
      var raw := ReadRaw(stream);
      assert Header(mapSize.x, mapSize.y, raw) == ReadHeader(old(mapSize), file.value);
      Fill(raw);
    }

    method ReadRaw(stream: string) returns (raw: seq<int>)
      ensures raw == Digits(stream)
    {
      raw := [];
      var rest := stream;
      while rest != ""
        invariant raw + Digits(rest) == Digits(stream)
        decreases |rest|
      {
        var ch := rest[0];
        TakeDigit(raw, rest);
        rest := rest[1..];
        if IsDigit(ch) {
          raw := raw + [DigitValue(ch)];
        } else {
          assert raw + DigitOf(ch) == raw;
        }
      }
      assert raw + Digits("") == raw;
    }

    method Fill(raw: seq<int>)
      requires Value().Valid()
      modifies this`tiles
      ensures Value() == Filled(mapSize.x, mapSize.y, raw)
    {
      var width, height := mapSize.x, mapSize.y;
      var totalTiles := width * height;
      ghost var f := Filled(width, height, raw);
      for y := 0 to height
        invariant |tiles| == height
        invariant forall k :: y <= k < height ==> |tiles[k]| == width
        invariant forall k :: 0 <= k < y ==> tiles[k] == f.tiles[k]
      {
        var row := FillRow(raw, totalTiles, width, y);
        assert row == f.tiles[y];
        tiles := tiles[y := row];
      }
      assert tiles == f.tiles;
    }

    method FillRow(raw: seq<int>, totalTiles: nat, width: nat, y: nat) returns (row: seq<Tile>)
      ensures |row| == width
      ensures forall x :: 0 <= x < width ==> row[x] == LoadedTile(raw, totalTiles, y * width + x)
    {
      row := [];
      for x := 0 to width
        invariant |row| == x
        invariant forall k :: 0 <= k < x ==> row[k] == LoadedTile(raw, totalTiles, y * width + k)
      {
        var index := y * width + x;
        var value := if index < |raw| then raw[index] else 0;
        var walkableIndex := totalTiles + index;
        var walkable := if walkableIndex < |raw| then raw[walkableIndex] != 0 else value == 0;
        row := row + [Tile(value, walkable)];
      }
    }

    /** The text branch of `SaveFile`. */
    method SaveFile() returns (text: string)
      requires Value().Valid()
      ensures text == Save(Value())
    {
      text := ShowInt(mapSize.x) + "\n";
      text := text + ShowInt(mapSize.y) + "\n";
      for y := 0 to mapSize.y
        invariant text + ValuesText(tiles[y..]) == ShowInt(mapSize.x) + "\n" + ShowInt(mapSize.y) + "\n" + ValuesText(tiles)
      {
        var line := PrintValues(tiles[y]);
        assert tiles[y..][1..] == tiles[y + 1..];
        Assoc(text, line + "\n", ValuesText(tiles[y + 1..]));
        text := text + (line + "\n");
      }
      assert text + ValuesText(tiles[mapSize.y..]) == text;
      text := text + "\n";
      ghost var before := text;
      for y := 0 to mapSize.y
        invariant text + WalkableText(tiles[y..]) == before + WalkableText(tiles)
      {
        var line := PrintWalkable(tiles[y]);
        assert tiles[y..][1..] == tiles[y + 1..];
        Assoc(text, line + "\n", WalkableText(tiles[y + 1..]));
        text := text + (line + "\n");
      }
      assert text + WalkableText(tiles[mapSize.y..]) == text;
    }

    method PrintValues(row: seq<Tile>) returns (line: string)
      ensures line == ValuesLine(row)
    {
      line := "";
      for x := 0 to |row|
        invariant line + ValuesLine(row[x..]) == ValuesLine(row)
      {
        assert row[x..][1..] == row[x + 1..];
        Assoc(line, ShowInt(row[x].value), ValuesLine(row[x + 1..]));
        line := line + ShowInt(row[x].value);
      }
      assert line + ValuesLine(row[|row|..]) == line;
    }

    method PrintWalkable(row: seq<Tile>) returns (line: string)
      ensures line == WalkableLine(row)
    {
      line := "";
      for x := 0 to |row|
        invariant line + WalkableLine(row[x..]) == WalkableLine(row)
      {
        var bit := if row[x].walkable then "1" else "0";
        assert row[x..][1..] == row[x + 1..];
        Assoc(line, bit, WalkableLine(row[x + 1..]));
        line := line + bit;
      }
      assert line + WalkableLine(row[|row|..]) == line;
    }
  }
}
