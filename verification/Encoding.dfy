/** The byte streams that are fed to hash functions, and why equal streams mean equal
    content: each one can be read back. */
module Encoding {
  import opened Wrappers

  type Byte = b: int | 0 <= b < 256

  type Bytes = seq<Byte>

  // ----- canonical rows: 0xff for NULL, 0x00 with a length and the bytes, 0xfe at the end

  datatype Cell = Absent | Present(bytes: Bytes)

  type Cells = seq<Cell>

  const TWO64 := 0x1_0000_0000_0000_0000

  /** The k low-order bytes of n, least significant first. */
  function LittleEndian(n: nat, k: nat): Bytes {
    if k == 0 then [] else [n % 256] + LittleEndian(n / 256, k - 1)
  }

  function FromLittleEndian(s: Bytes): nat {
    if s == [] then 0 else s[0] + 256 * FromLittleEndian(s[1..])
  }

  function Power256(k: nat): nat {
    if k == 0 then 1 else 256 * Power256(k - 1)
  }

  lemma {:induction false} LittleEndianRoundTrip(n: nat, k: nat)
    requires n < Power256(k)
    ensures |LittleEndian(n, k)| == k && FromLittleEndian(LittleEndian(n, k)) == n
  {
    if k > 0 {
      LittleEndianRoundTrip(n / 256, k - 1);
      assert LittleEndian(n, k)[1..] == LittleEndian(n / 256, k - 1);
    }
  }

  lemma Power256Of8()
    ensures Power256(8) == TWO64
  {
    assert Power256(4) == 0x1_0000_0000;
  }

  function CellBytes(c: Cell): Bytes {
    match c
    case Absent => [0xff]
    case Present(raw) => [0x00] + LittleEndian(|raw|, 8) + raw
  }

  function CellsBytes(cells: Cells): Bytes {
    if cells == [] then [] else CellBytes(cells[0]) + CellsBytes(cells[1..])
  }

  function RowBytes(cells: Cells): Bytes {
    CellsBytes(cells) + [0xfe]
  }

  function StreamBytes(rows: seq<Cells>): Bytes {
    if rows == [] then [] else RowBytes(rows[0]) + StreamBytes(rows[1..])
  }

  /** Lengths are written as 64-bit numbers. */
  ghost predicate Fits(cells: Cells) {
    forall i | 0 <= i < |cells| && cells[i].Present? :: |cells[i].bytes| < TWO64
  }

  ghost predicate AllFit(rows: seq<Cells>) {
    forall i | 0 <= i < |rows| :: Fits(rows[i])
  }

  /** Reads cells up to the end mark of a row. */
  function ReadRow(s: Bytes): Option<(Cells, Bytes)>
    decreases |s|
  {
    if s == [] then None
    else if s[0] == 0xfe then Some(([], s[1..]))
    else if s[0] == 0xff then WithCell(Absent, ReadRow(s[1..]))
    else if s[0] == 0x00 && |s| >= 9 && |s| - 9 >= FromLittleEndian(s[1..9]) then
      var n := FromLittleEndian(s[1..9]);
      WithCell(Present(s[9..9 + n]), ReadRow(s[9 + n..]))
    else None
  }

  function WithCell(c: Cell, r: Option<(Cells, Bytes)>): Option<(Cells, Bytes)> {
    match r
    case Some((cells, rest)) => Some(([c] + cells, rest))
    case None => None
  }

  lemma ReadPresent(length: Bytes, raw: Bytes, rest: Bytes)
    requires |length| == 8 && FromLittleEndian(length) == |raw|
    ensures ReadRow([0x00] + length + raw + rest) == WithCell(Present(raw), ReadRow(rest))
  {
    var s := [0x00] + length + raw + rest;
    assert s[1..9] == length;
    assert s[9..9 + |raw|] == raw && s[9 + |raw|..] == rest;
  }

  lemma ReadOneCell(c: Cell, rest: Bytes)
    requires c.Present? ==> |c.bytes| < TWO64
    ensures ReadRow(CellBytes(c) + rest) == WithCell(c, ReadRow(rest))
  {
    match c
    case Absent =>
      assert ([0xff] + rest)[1..] == rest;
    case Present(raw) =>
      var length := LittleEndian(|raw|, 8);
      Power256Of8();
      LittleEndianRoundTrip(|raw|, 8);
      ReadPresent(length, raw, rest);
  }

  lemma {:induction false} RowRoundTrip(cells: Cells, rest: Bytes)
    requires Fits(cells)
    ensures ReadRow(RowBytes(cells) + rest) == Some((cells, rest))
  {
    if cells == [] {
      assert RowBytes(cells) + rest == [0xfe] + rest;
    } else {
      assert Fits(cells[1..]) by {
        assert forall i | 0 <= i < |cells[1..]| :: cells[1..][i] == cells[i + 1];
      }
      RowRoundTrip(cells[1..], rest);
      ReadOneCell(cells[0], RowBytes(cells[1..]) + rest);
      assert RowBytes(cells) + rest == CellBytes(cells[0]) + (RowBytes(cells[1..]) + rest);
      assert cells == [cells[0]] + cells[1..];
    }
  }

  /** Equal streams come only from equal sequences of rows, whatever their widths. */
  lemma {:induction false} StreamsAreUnique(a: seq<Cells>, b: seq<Cells>)
    requires AllFit(a) && AllFit(b) && StreamBytes(a) == StreamBytes(b)
    ensures a == b
  {
    if a == [] || b == [] {
      assert |StreamBytes(a)| == 0;
    } else {
      RowRoundTrip(a[0], StreamBytes(a[1..]));
      RowRoundTrip(b[0], StreamBytes(b[1..]));
      assert forall i | 0 <= i < |a[1..]| :: a[1..][i] == a[i + 1];
      assert forall i | 0 <= i < |b[1..]| :: b[1..][i] == b[i + 1];
      StreamsAreUnique(a[1..], b[1..]);
      assert a == [a[0]] + a[1..] && b == [b[0]] + b[1..];
    }
  }

  lemma {:induction false} CellsAppend(cells: Cells, c: Cell)
    ensures CellsBytes(cells + [c]) == CellsBytes(cells) + CellBytes(c)
  {
    if cells == [] {
      assert cells + [c] == [c] && CellsBytes([c]) == CellBytes(c) + [];
    } else {
      assert (cells + [c])[1..] == cells[1..] + [c];
      CellsAppend(cells[1..], c);
    }
  }

  lemma {:induction false} StreamConcat(a: seq<Cells>, b: seq<Cells>)
    ensures StreamBytes(a + b) == StreamBytes(a) + StreamBytes(b)
  {
    if a == [] {
      assert a + b == b;
    } else {
      assert (a + b)[1..] == a[1..] + b;
      StreamConcat(a[1..], b);
    }
  }

  // ----- evidence fields: decimal length, ':', the bytes, '|'

  const COLON: Byte := 58
  const BAR: Byte := 124
  const MINUS: Byte := 45

  function Digit(d: nat): Byte
    requires d < 10
  {
    48 + d
  }

  function Decimal(n: nat): Bytes {
    if n < 10 then [Digit(n)] else Decimal(n / 10) + [Digit(n % 10)]
  }

  predicate IsDigit(b: Byte) {
    48 <= b < 58
  }

  /** Reads decimal digits, continuing a number already begun, up to the first other byte. */
  function ReadDecimal(s: Bytes, begun: nat): (nat, Bytes)
    decreases |s|
  {
    if s != [] && IsDigit(s[0]) then ReadDecimal(s[1..], begun * 10 + (s[0] - 48)) else (begun, s)
  }

  lemma {:induction false} DecimalRoundTrip(n: nat, rest: Bytes)
    ensures ReadDecimal(Decimal(n) + rest, 0) == ReadDecimal(rest, n)
  {
    if n < 10 {
      assert ([Digit(n)] + rest)[1..] == rest;
    } else {
      var more := [Digit(n % 10)] + rest;
      DecimalRoundTrip(n / 10, more);
      assert Decimal(n) + rest == Decimal(n / 10) + more;
      assert more[1..] == rest;
    }
  }

  /** Decimal text of a signed integer. */
  function IntText(n: int): Bytes {
    if n < 0 then [MINUS] + Decimal(-n) else Decimal(n)
  }

  lemma {:induction false} DecimalStart(n: nat)
    ensures Decimal(n) != [] && IsDigit(Decimal(n)[0])
  {
    if n >= 10 {
      DecimalStart(n / 10);
    }
  }

  lemma IntTextIsUnique(a: int, b: int)
    requires IntText(a) == IntText(b)
    ensures a == b
  {
    var m, n := if a < 0 then -a else a, if b < 0 then -b else b;
    DecimalStart(m);
    DecimalStart(n);
    assert a < 0 ==> IntText(a)[1..] == Decimal(m);
    assert b < 0 ==> IntText(b)[1..] == Decimal(n);
    DecimalRoundTrip(m, []);
    DecimalRoundTrip(n, []);
    assert Decimal(m) + [] == Decimal(m) && Decimal(n) + [] == Decimal(n);
  }

  function FieldBytes(value: Bytes): Bytes {
    Decimal(|value|) + [COLON] + value + [BAR]
  }

  function FieldsBytes(fields: seq<Bytes>): Bytes {
    if fields == [] then [] else FieldBytes(fields[0]) + FieldsBytes(fields[1..])
  }

  function ReadField(s: Bytes): Option<(Bytes, Bytes)> {
    var (n, rest) := ReadDecimal(s, 0);
    if |rest| >= n + 2 && rest[0] == COLON && rest[n + 1] == BAR then Some((rest[1..n + 1], rest[n + 2..]))
    else None
  }

  lemma FieldRoundTrip(value: Bytes, rest: Bytes)
    ensures ReadField(FieldBytes(value) + rest) == Some((value, rest))
  {
    var more := [COLON] + value + [BAR] + rest;
    DecimalRoundTrip(|value|, more);
    assert FieldBytes(value) + rest == Decimal(|value|) + more;
    assert more[1..|value| + 1] == value && more[|value| + 2..] == rest;
  }

  /** Equal field streams come only from equal field lists. */
  lemma {:induction false} FieldsAreUnique(a: seq<Bytes>, b: seq<Bytes>)
    requires FieldsBytes(a) == FieldsBytes(b)
    ensures a == b
  {
    if a == [] || b == [] {
      assert |FieldsBytes(a)| == 0;
    } else {
      FieldRoundTrip(a[0], FieldsBytes(a[1..]));
      FieldRoundTrip(b[0], FieldsBytes(b[1..]));
      FieldsAreUnique(a[1..], b[1..]);
      assert a == [a[0]] + a[1..] && b == [b[0]] + b[1..];
    }
  }

  lemma {:induction false} FieldsConcat(a: seq<Bytes>, b: seq<Bytes>)
    ensures FieldsBytes(a + b) == FieldsBytes(a) + FieldsBytes(b)
  {
    if a == [] {
      assert a + b == b;
    } else {
      assert (a + b)[1..] == a[1..] + b;
      FieldsConcat(a[1..], b);
    }
  }

  // ----- the formats, byte by byte

  function Word(b0: nat, b1: nat, b2: nat, b3: nat): nat {
    b0 + 0x100 * b1 + 0x1_0000 * b2 + 0x100_0000 * b3
  }

  /** Eight bytes, the least significant first. */
  lemma LittleEndianFormat(n: nat, b0: Byte, b1: Byte, b2: Byte, b3: Byte, b4: Byte, b5: Byte, b6: Byte, b7: Byte)
    requires n == Word(b0, b1, b2, b3) + 0x1_0000_0000 * Word(b4, b5, b6, b7)
    ensures LittleEndian(n, 8) == [b0, b1, b2, b3, b4, b5, b6, b7]
  {
    var high := Word(b4, b5, b6, b7);
    FourBytes(n, b0, b1, b2, b3, high, 4);
    FourBytes(high, b4, b5, b6, b7, 0, 0);
  }

  lemma FourBytes(n: nat, b0: Byte, b1: Byte, b2: Byte, b3: Byte, high: nat, k: nat)
    requires n == Word(b0, b1, b2, b3) + 0x1_0000_0000 * high
    ensures LittleEndian(n, k + 4) == [b0, b1, b2, b3] + LittleEndian(high, k)
  {
    var n1: nat := (b1 as nat) + 0x100 * (b2 as nat) + 0x1_0000 * (b3 as nat) + 0x100_0000 * high;
    var n2: nat := (b2 as nat) + 0x100 * (b3 as nat) + 0x1_0000 * high;
    var n3: nat := (b3 as nat) + 0x100 * high;
    LittleEndianStep(n, b0, n1, k + 3);
    LittleEndianStep(n1, b1, n2, k + 2);
    LittleEndianStep(n2, b2, n3, k + 1);
    LittleEndianStep(n3, b3, high, k);
  }

  lemma LittleEndianStep(n: nat, low: Byte, high: nat, k: nat)
    requires n == (low as nat) + 256 * high
    ensures LittleEndian(n, k + 1) == [low] + LittleEndian(high, k)
  {
  }

  /** NULL is 0xff; a value is 0x00, its length in eight bytes, and its bytes; a row ends in 0xfe. */
  lemma RowFormat(cells: Cells, raw: Bytes)
    ensures RowBytes([]) == [0xfe]
    ensures RowBytes([Absent] + cells) == [0xff] + RowBytes(cells)
    ensures RowBytes([Present(raw)] + cells) == ([0x00] + LittleEndian(|raw|, 8) + raw) + RowBytes(cells)
  {
    FirstCell(Absent, cells);
    FirstCell(Present(raw), cells);
  }

  lemma FirstCell(c: Cell, cells: Cells)
    ensures RowBytes([c] + cells) == CellBytes(c) + RowBytes(cells)
  {
    assert ([c] + cells)[1..] == cells;
    Grouped(CellBytes(c), CellsBytes(cells), [0xfe]);
  }

  lemma Grouped(a: Bytes, b: Bytes, c: Bytes)
    ensures a + b + c == a + (b + c)
  {
  }

  lemma StreamFormat(row: Cells, rows: seq<Cells>)
    ensures StreamBytes([]) == [] && StreamBytes([row] + rows) == RowBytes(row) + StreamBytes(rows)
  {
    assert ([row] + rows)[1..] == rows;
  }

  /** Numbers are written in decimal, without leading zeros and with a minus sign if negative;
      a field is its length, a colon, its bytes and a bar. */
  lemma FieldFormat(q: nat, d: nat, value: Bytes, fields: seq<Bytes>)
    requires d < 10
    ensures Decimal(d) == [48 + d] && (q > 0 ==> Decimal(10 * q + d) == Decimal(q) + [48 + d] && IntText(-(q as int)) == [45] + Decimal(q))
    ensures IntText(q) == Decimal(q)
    ensures FieldsBytes([]) == []
    ensures FieldsBytes([value] + fields) == (Decimal(|value|) + [58] + value + [124]) + FieldsBytes(fields)
  {
    assert ([value] + fields)[1..] == fields;
    assert (10 * q + d) / 10 == q;
  }
}
