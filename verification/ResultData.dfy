/** The extended data layout: a header, a grid of null indicators, a grid of rows. */
module ResultData {
  import opened Arithmetic
  import opened Wrappers
  import opened Bytes

  const HEADER_LENGTH: nat := 20
  const TWO_63: nat := 0x8000_0000_0000_0000

  /** An int of 64 bits: arithmetic on it wraps around. */
  function Wrap64(n: int): int {
    (n + TWO_63) % (2 * TWO_63) - TWO_63
  }

  datatype Grid = Grid(raw: seq<byte>, rowCount: u32, columnCount: u16, indicatorSize: u16, rowSize: u32)

  /** The number of bytes a grid with these dimensions takes up. */
  function Need(rowCount: nat, columnCount: nat, indicatorSize: nat, rowSize: nat): nat {
    HEADER_LENGTH + rowCount * (columnCount * indicatorSize + rowSize)
  }

  function NeedOf(g: Grid): nat {
    Need(g.rowCount, g.columnCount, g.indicatorSize, g.rowSize)
  }

  function HeaderOf(d: seq<byte>): Grid
    requires |d| >= HEADER_LENGTH
  {
    Grid(d, Get32(d[4..8]), Get16(d[8..10]), Get16(d[10..12]), Get32(d[16..20]))
  }

  /** parseResultData, whose size check is made in 64-bit arithmetic. */
  function Parse(d: seq<byte>): Option<Grid> {
    if |d| < HEADER_LENGTH then None
    else
      var g := HeaderOf(d);
      if Wrap64(NeedOf(g)) > |d| then None else Some(g)
  }

  function CellStart(cols: nat, size: nat, r: nat, c: nat): nat {
    HEADER_LENGTH + size * (r * cols + c)
  }

  function CellsEnd(rows: nat, cols: nat, size: nat): nat {
    HEADER_LENGTH + rows * cols * size
  }

  /** Where the indicator of a cell starts. */
  function IndicatorAt(g: Grid, row: nat, col: nat): nat {
    CellStart(g.columnCount, g.indicatorSize, row, col)
  }

  function RowsAt(g: Grid): nat {
    CellsEnd(g.rowCount, g.columnCount, g.indicatorSize)
  }

  function RowAt(g: Grid, row: nat): nat {
    RowsAt(g) + row * g.rowSize
  }

  function Signed16(n: u16): int {
    if n < 0x8000 then n else n - 0x1_0000
  }

  /** The null indicator of a cell; it is read as two bytes whatever the indicator size. */
  function Indicator(g: Grid, row: nat, col: nat): int
    requires g.indicatorSize != 0 ==> IndicatorAt(g, row, col) + 2 <= |g.raw|
  {
    if g.indicatorSize == 0 then 0
    else Signed16(Get16(g.raw[IndicatorAt(g, row, col)..IndicatorAt(g, row, col) + 2]))
  }

  function Row(g: Grid, row: nat): seq<byte>
    requires RowAt(g, row) + g.rowSize <= |g.raw|
  {
    g.raw[RowAt(g, row)..RowAt(g, row) + g.rowSize]
  }

  // ----- The size check -----

  /** A grid the check accepts really is all there exactly when its size does not overflow. */
  lemma AcceptedMeansPresent(d: seq<byte>)
    requires Parse(d).Some? && |d| < TWO_63
    ensures var g := Parse(d).value; NeedOf(g) <= |d| <==> NeedOf(g) < TWO_63
  {
  }

  /** And a grid that is all there is accepted. */
  lemma PresentMeansAccepted(d: seq<byte>)
    requires HEADER_LENGTH <= |d| < TWO_63 && NeedOf(HeaderOf(d)) <= |d|
    ensures Parse(d) == Some(HeaderOf(d))
  {
  }

  /** The sizes that pass: 2^31 rows of 2^15 indicators of 2^15 bytes and 3 * 2^30 bytes of data, in no bytes at all. */
  const OVERFLOWING: seq<byte> :=
    U32(0) + U32(0x8000_0000) + U16(0x8000) + U16(0x8000) + U32(0) + U32(0xC000_0000)

  lemma AnOverflowPasses()
    ensures Parse(OVERFLOWING).Some? && NeedOf(Parse(OVERFLOWING).value) > |OVERFLOWING|
  {
    var d := OVERFLOWING;
    assert d[4..8] == U32(0x8000_0000) && d[8..10] == U16(0x8000);
    assert d[10..12] == U16(0x8000) && d[16..20] == U32(0xC000_0000);
    GetU32(0x8000_0000);
    GetU32(0xC000_0000);
    assert NeedOf(HeaderOf(d)) == 20 + 0x8000_0000 * 0x1_0000_0000;
  }

  // ----- Addressing -----

  /** Cell numbers in row-major order are below the number of cells, and distinct cells have distinct numbers. */
  lemma CellNumber(rows: nat, cols: nat, r: nat, c: nat)
    requires r < rows && c < cols
    ensures r * cols + c + 1 <= rows * cols
  {
    MulMonotone(r + 1, rows, cols);
    assert (r + 1) * cols == r * cols + cols;
  }

  lemma CellNumberInjective(cols: nat, r: nat, c: nat, r': nat, c': nat)
    requires c < cols && c' < cols && (r, c) != (r', c')
    ensures r * cols + c != r' * cols + c'
  {
    if r < r' {
      MulMonotone(r + 1, r', cols);
      assert (r + 1) * cols == r * cols + cols;
    } else if r' < r {
      MulMonotone(r' + 1, r, cols);
      assert (r' + 1) * cols == r' * cols + cols;
    }
  }

  lemma NeedIsRowsEnd(g: Grid)
    ensures NeedOf(g) == RowsAt(g) + g.rowCount * g.rowSize && RowsAt(g) <= NeedOf(g)
  {
    var n, k, s: int := g.rowCount, g.columnCount * g.indicatorSize, g.rowSize;
    assert n * (k + s) == n * k + n * s;
    assert g.rowCount * g.columnCount * g.indicatorSize == n * k;
  }

  /** Item k of n items of one size ends within the n items. */
  lemma Inside(k: nat, n: nat, size: nat)
    requires k < n
    ensures k * size + size <= n * size && size * k == k * size
  {
    MulMonotone(k + 1, n, size);
    assert (k + 1) * size == k * size + size;
  }

  lemma CellEnds(rows: nat, cols: nat, size: nat, r: nat, c: nat)
    requires r < rows && c < cols
    ensures CellStart(cols, size, r, c) + size <= CellsEnd(rows, cols, size)
  {
    CellNumber(rows, cols, r, c);
    Inside(r * cols + c, rows * cols, size);
  }

  /** In a grid that is all there, every row is in bounds. */
  lemma RowInBounds(g: Grid, r: nat)
    requires NeedOf(g) <= |g.raw| && r < g.rowCount
    ensures RowsAt(g) <= RowAt(g, r) && RowAt(g, r) + g.rowSize <= |g.raw|
  {
    hide NeedOf, RowsAt;
    NeedIsRowsEnd(g);
    Inside(r, g.rowCount, g.rowSize);
  }

  /** And so is every indicator, before the rows. */
  lemma CellInBounds(g: Grid, r: nat, c: nat)
    requires NeedOf(g) <= |g.raw| && r < g.rowCount && c < g.columnCount
    ensures HEADER_LENGTH <= IndicatorAt(g, r, c) && IndicatorAt(g, r, c) + g.indicatorSize <= RowsAt(g) <= |g.raw|
  {
    hide NeedOf, IndicatorAt, RowsAt;
    NeedIsRowsEnd(g);
    CellBeforeRows(g, r, c);
  }

  lemma CellBeforeRows(g: Grid, r: nat, c: nat)
    requires r < g.rowCount && c < g.columnCount
    ensures HEADER_LENGTH <= IndicatorAt(g, r, c) && IndicatorAt(g, r, c) + g.indicatorSize <= RowsAt(g)
  {
    hide CellsEnd;
    CellEnds(g.rowCount, g.columnCount, g.indicatorSize, r, c);
  }

  predicate Disjoint(a: nat, b: nat, size: nat) {
    a + size <= b || b + size <= a
  }

  lemma Apart(size: nat, x: nat, y: nat, base: nat)
    requires x != y
    ensures Disjoint(base + x * size, base + y * size, size)
    ensures Disjoint(base + size * x, base + size * y, size)
  {
    if x < y {
      Inside(x, y, size);
    } else {
      Inside(y, x, size);
    }
    assert size * x == x * size && size * y == y * size;
  }

  lemma CellsApart(cols: nat, size: nat, r: nat, c: nat, r': nat, c': nat)
    requires c < cols && c' < cols && (r, c) != (r', c')
    ensures Disjoint(CellStart(cols, size, r, c), CellStart(cols, size, r', c'), size)
  {
    CellNumberInjective(cols, r, c, r', c');
    Apart(size, r * cols + c, r' * cols + c', HEADER_LENGTH);
  }

  /** Distinct cells have disjoint indicators, and distinct rows are disjoint. */
  lemma NoOverlap(g: Grid, r: nat, c: nat, r': nat, c': nat)
    requires r < g.rowCount && r' < g.rowCount && c < g.columnCount && c' < g.columnCount
    ensures (r, c) != (r', c') ==> Disjoint(IndicatorAt(g, r, c), IndicatorAt(g, r', c'), g.indicatorSize)
    ensures r != r' ==> Disjoint(RowAt(g, r), RowAt(g, r'), g.rowSize)
  {
    hide CellStart;
    if (r, c) != (r', c') {
      CellsApart(g.columnCount, g.indicatorSize, r, c, r', c');
    }
    if r != r' {
      hide RowsAt;
      Apart(g.rowSize, r, r', RowsAt(g));
    }
  }

  /** Every pair of cells is read from bytes of their own. */
  ghost predicate ReadsApart(g: Grid) {
    forall r: nat, c: nat, r': nat, c': nat ::
      r < g.rowCount && r' < g.rowCount && c < g.columnCount && c' < g.columnCount && (r, c) != (r', c') ==>
        Disjoint(IndicatorAt(g, r, c), IndicatorAt(g, r', c'), 2)
  }

  /**
   * The two-byte reads of indicators keep apart exactly when the declared size
   * is at least two, or there is at most one cell.
   */
  lemma TwoByteReads(g: Grid)
    requires g.indicatorSize != 0
    ensures ReadsApart(g) <==>
            || g.indicatorSize >= 2 || g.rowCount == 0 || g.columnCount == 0
            || (g.rowCount == 1 && g.columnCount == 1)
  {
    if g.indicatorSize >= 2 {
      forall r: nat, c: nat, r': nat, c': nat |
          r < g.rowCount && r' < g.rowCount && c < g.columnCount && c' < g.columnCount && (r, c) != (r', c')
        ensures Disjoint(IndicatorAt(g, r, c), IndicatorAt(g, r', c'), 2)
      {
        NoOverlap(g, r, c, r', c');
      }
    } else if g.rowCount > 0 && g.columnCount > 1 {
      assert !Disjoint(IndicatorAt(g, 0, 0), IndicatorAt(g, 0, 1), 2);
    } else if g.rowCount > 1 && g.columnCount > 0 {
      assert !Disjoint(IndicatorAt(g, 0, 0), IndicatorAt(g, 1, 0), 2);
    }
  }

  /** The reads of all indicators, of two bytes each, stay within the data; without indicators nothing is read. */
  ghost predicate ReadsInBounds(g: Grid) {
    g.indicatorSize != 0 ==>
      forall r: nat, c: nat :: r < g.rowCount && c < g.columnCount ==> IndicatorAt(g, r, c) + 2 <= |g.raw|
  }

  /**
   * In a grid that is all there, no indicator is read past the end of the
   * data exactly if the indicator size is not 1, or there is no cell, or
   * something follows the indicators.
   */
  lemma IndicatorReadsInBounds(g: Grid)
    requires NeedOf(g) <= |g.raw|
    ensures ReadsInBounds(g) <==>
            g.indicatorSize != 1 || g.rowCount == 0 || g.columnCount == 0 || |g.raw| > RowsAt(g)
  {
    hide NeedOf, IndicatorAt, RowsAt;
    forall r: nat, c: nat | r < g.rowCount && c < g.columnCount
      ensures IndicatorAt(g, r, c) + g.indicatorSize <= RowsAt(g) <= |g.raw|
    {
      CellInBounds(g, r, c);
    }
    if g.indicatorSize == 1 && g.rowCount > 0 && g.columnCount > 0 {
      LastCell(g);
    }
  }

  lemma LastCell(g: Grid)
    requires g.indicatorSize == 1 && g.rowCount > 0 && g.columnCount > 0
    ensures IndicatorAt(g, g.rowCount - 1, g.columnCount - 1) + 1 == RowsAt(g)
  {
    var n, k: int := g.rowCount, g.columnCount;
    assert (n - 1) * k + k == n * k;
  }

  /** One row of one column, its indicator one byte long, and no data. */
  const SHORT: seq<byte> := U32(0) + U32(1) + U16(1) + U16(1) + U32(0) + U32(0) + [0]

  /** An accepted grid, all there, whose only indicator is read past the end of the data. */
  lemma AnIndicatorOverruns()
    ensures Parse(SHORT).Some?
    ensures var g := Parse(SHORT).value; NeedOf(g) == |SHORT| && !ReadsInBounds(g) && IndicatorAt(g, 0, 0) + 2 > |g.raw|
  {
    var d := SHORT;
    assert d[4..8] == U32(1) && d[8..10] == U16(1) && d[10..12] == U16(1) && d[16..20] == U32(0);
    GetU32(1);
    GetU32(0);
    GetU16(1);
    assert HeaderOf(d) == Grid(d, 1, 1, 1, 0);
    assert NeedOf(HeaderOf(d)) == 21;
    IndicatorReadsInBounds(HeaderOf(d));
  }

  // ----- One row of parameter-marker data -----

  function Offset(lengths: seq<u32>, i: nat): nat
    requires i <= |lengths|
  {
    if i == 0 then 0 else Offset(lengths, i - 1) + lengths[i - 1]
  }

  function RecordSize(lengths: seq<u32>): nat {
    Offset(lengths, |lengths|)
  }

  lemma {:induction false} OffsetMonotone(lengths: seq<u32>, i: nat, j: nat)
    requires i <= j <= |lengths|
    ensures Offset(lengths, i) <= Offset(lengths, j)
  {
    if i < j {
      OffsetMonotone(lengths, i, j - 1);
    }
  }

  /** Encoded values, one for each field and of that field's length, or None for NULL. */
  predicate Matches(lengths: seq<u32>, values: seq<Option<seq<byte>>>) {
    |values| == |lengths| && forall i :: 0 <= i < |values| && values[i].Some? ==> |values[i].value| == lengths[i]
  }

  function IndicatorBytes(v: Option<seq<byte>>): (b: seq<byte>)
    ensures |b| == 2
  {
    if v.None? then U16(0xFFFF) else Zeros(2)
  }

  function FieldBytes(length: u32, v: Option<seq<byte>>): seq<byte> {
    if v.None? then Zeros(length) else v.value
  }

  function Indicators(values: seq<Option<seq<byte>>>, n: nat): (b: seq<byte>)
    requires n <= |values|
    ensures |b| == 2 * n
  {
    if n == 0 then [] else Indicators(values, n - 1) + IndicatorBytes(values[n - 1])
  }

  function Fields(lengths: seq<u32>, values: seq<Option<seq<byte>>>, n: nat): (b: seq<byte>)
    requires Matches(lengths, values) && n <= |lengths|
    ensures |b| == Offset(lengths, n)
  {
    if n == 0 then [] else Fields(lengths, values, n - 1) + FieldBytes(lengths[n - 1], values[n - 1])
  }

  function ParameterHeader(lengths: seq<u32>): (b: seq<byte>)
    ensures |b| == HEADER_LENGTH
  {
    U32(1) + U32(1) + U16(Cut16(|lengths|)) + U16(2) + Zeros(4) + U32(Cut32(RecordSize(lengths)))
  }

  function ParameterData(lengths: seq<u32>, values: seq<Option<seq<byte>>>): seq<byte>
    requires Matches(lengths, values)
  {
    ParameterHeader(lengths) + Indicators(values, |values|) + Fields(lengths, values, |lengths|)
  }

  /** What a buffer holds once the header, and the indicators and fields of the first n values, are in it. */
  function Filled(lengths: seq<u32>, values: seq<Option<seq<byte>>>, n: nat): (b: seq<byte>)
    requires Matches(lengths, values) && n <= |lengths| && Offset(lengths, n) <= RecordSize(lengths)
    ensures |b| == HEADER_LENGTH + 2 * |lengths| + RecordSize(lengths)
  {
    ParameterHeader(lengths) + Indicators(values, n) + Zeros(2 * (|lengths| - n))
    + Fields(lengths, values, n) + Zeros(RecordSize(lengths) - Offset(lengths, n))
  }

  method PutHeader(b: array<byte>, lengths: seq<u32>)
    requires b.Length >= HEADER_LENGTH && b[..] == Zeros(b.Length)
    modifies b
    ensures b[..] == ParameterHeader(lengths) + Zeros(b.Length - HEADER_LENGTH)
  {
    hide U16, U32, Zeros;
    PutCounts(b, lengths);
    ghost var counts := U32(1) + U32(1) + U16(Cut16(|lengths|)) + U16(2);
    SplitZeros(b.Length - 12, 4);
    Fill(b, 16, counts + Zeros(4), U32(Cut32(RecordSize(lengths))));
  }

  method PutCounts(b: array<byte>, lengths: seq<u32>)
    requires b.Length >= HEADER_LENGTH && b[..] == Zeros(b.Length)
    modifies b
    ensures b[..] == U32(1) + U32(1) + U16(Cut16(|lengths|)) + U16(2) + Zeros(b.Length - 12)
  {
    hide U16, U32, Zeros;
    var token, count := U32(1), U16(Cut16(|lengths|));
    assert b[..] == [] + Zeros(b.Length);
    Fill(b, 0, [], token);
    assert [] + token == token;
    Fill(b, 4, token, token);
    Fill(b, 8, token + token, count);
    Fill(b, 10, token + token + count, U16(2));
  }

  lemma IndicatorFilled(lengths: seq<u32>, values: seq<Option<seq<byte>>>, i: nat, was: seq<byte>)
    requires Matches(lengths, values) && i < |lengths| && Offset(lengths, i) + lengths[i] <= RecordSize(lengths)
    requires was == Filled(lengths, values, i)
    requires values[i].None?
    ensures var at := HEADER_LENGTH + 2 * i;
      was[..at] + U16(0xFFFF) + was[at + 2..] == Filled(lengths, values, i + 1)
  {
    hide U16, ParameterHeader, Indicators, Fields, Offset, Zeros, RecordSize;
    OneMore(lengths, values, i);
    var a := ParameterHeader(lengths) + Indicators(values, i);
    var rest := Zeros(RecordSize(lengths) - Offset(lengths, i));
    var b := Fields(lengths, values, i) + rest;
    assert was == a + Zeros(2 * (|lengths| - i)) + b;
    PutOverZeros(a, 2 * (|lengths| - i), b, U16(0xFFFF));
    SplitZeros(|rest|, lengths[i]);
  }

  lemma FieldFilled(lengths: seq<u32>, values: seq<Option<seq<byte>>>, i: nat, was: seq<byte>)
    requires Matches(lengths, values) && i < |lengths| && Offset(lengths, i) + lengths[i] <= RecordSize(lengths)
    requires was == Filled(lengths, values, i)
    requires values[i].Some?
    ensures var at := HEADER_LENGTH + 2 * |lengths| + Offset(lengths, i);
      was[..at] + values[i].value + was[at + lengths[i]..] == Filled(lengths, values, i + 1)
  {
    hide ParameterHeader, Indicators, Fields, Offset;
    OneMore(lengths, values, i);
    var a := ParameterHeader(lengths) + Indicators(values, i) + Zeros(2 * (|lengths| - i)) + Fields(lengths, values, i);
    var n := RecordSize(lengths) - Offset(lengths, i);
    assert was == a + Zeros(n) + [];
    PutOverZeros(a, n, [], values[i].value);
    SplitZeros(2 * (|lengths| - i), 2);
  }

  lemma OneMore(lengths: seq<u32>, values: seq<Option<seq<byte>>>, i: nat)
    requires Matches(lengths, values) && i < |lengths|
    ensures Indicators(values, i + 1) == Indicators(values, i) + IndicatorBytes(values[i])
    ensures Fields(lengths, values, i + 1) == Fields(lengths, values, i) + FieldBytes(lengths[i], values[i])
    ensures Offset(lengths, i + 1) == Offset(lengths, i) + lengths[i]
  {
  }

  lemma NothingFilled(lengths: seq<u32>, values: seq<Option<seq<byte>>>)
    requires Matches(lengths, values)
    ensures Filled(lengths, values, 0) == ParameterHeader(lengths) + Zeros(2 * |lengths| + RecordSize(lengths))
  {
    SplitZeros(2 * |lengths| + RecordSize(lengths), 2 * |lengths|);
  }

  lemma AllFilled(lengths: seq<u32>, values: seq<Option<seq<byte>>>)
    requires Matches(lengths, values)
    ensures Filled(lengths, values, |lengths|) == ParameterData(lengths, values)
  {
  }

  method PutNull(b: array<byte>, lengths: seq<u32>, values: seq<Option<seq<byte>>>, i: nat)
    requires Matches(lengths, values) && i < |lengths| && Offset(lengths, i + 1) <= RecordSize(lengths)
    requires b[..] == Filled(lengths, values, i) && values[i].None?
    modifies b
    ensures b[..] == Filled(lengths, values, i + 1)
  {
    assert b.Length == |b[..]|;
    IndicatorFilled(lengths, values, i, b[..]);
    hide U16, Offset, Filled;
    Put(b, HEADER_LENGTH + 2 * i, U16(0xFFFF));
  }

  method PutField(b: array<byte>, lengths: seq<u32>, values: seq<Option<seq<byte>>>, i: nat, off: nat)
    requires Matches(lengths, values) && i < |lengths| && off == Offset(lengths, i)
    requires Offset(lengths, i + 1) <= RecordSize(lengths)
    requires b[..] == Filled(lengths, values, i) && values[i].Some?
    modifies b
    ensures b[..] == Filled(lengths, values, i + 1)
  {
    assert b.Length == |b[..]|;
    FieldFilled(lengths, values, i, b[..]);
    OneMore(lengths, values, i);
    hide Offset, Filled;
    Put(b, HEADER_LENGTH + 2 * |lengths| + off, values[i].value);
  }

  /** encodeParameterData: one row, with two-byte indicators. */
  method EncodeParameterData(lengths: seq<u32>, values: seq<Option<seq<byte>>>) returns (d: seq<byte>)
    requires Matches(lengths, values)
    ensures d == ParameterData(lengths, values)
  {
    hide ParameterHeader, Filled, ParameterData;
    var b := new byte[HEADER_LENGTH + 2 * |lengths| + RecordSize(lengths)](_ => 0);
    assert b[..] == Zeros(b.Length);
    PutHeader(b, lengths);
    NothingFilled(lengths, values);
    var off: nat := 0;
    for i := 0 to |lengths|
      invariant off == Offset(lengths, i) <= RecordSize(lengths)
      invariant b[..] == Filled(lengths, values, i)
    {
      OffsetMonotone(lengths, i + 1, |lengths|);
      if values[i].None? {
        PutNull(b, lengths, values, i);
      } else {
        PutField(b, lengths, values, i, off);
      }
      off := off + lengths[i];
    }
    AllFilled(lengths, values);
    return b[..];
  }

  lemma {:induction false} IndicatorSlice(values: seq<Option<seq<byte>>>, i: nat, n: nat)
    requires i < n <= |values|
    ensures Indicators(values, n)[2 * i..2 * i + 2] == IndicatorBytes(values[i])
  {
    if i < n - 1 {
      IndicatorSlice(values, i, n - 1);
      assert Indicators(values, n)[2 * i..2 * i + 2] == Indicators(values, n - 1)[2 * i..2 * i + 2];
    }
  }

  lemma {:induction false} FieldSlice(lengths: seq<u32>, values: seq<Option<seq<byte>>>, i: nat, n: nat)
    requires Matches(lengths, values) && i < n <= |lengths|
    ensures Offset(lengths, i) + lengths[i] <= Offset(lengths, n)
    ensures Fields(lengths, values, n)[Offset(lengths, i)..Offset(lengths, i) + lengths[i]]
         == FieldBytes(lengths[i], values[i])
  {
    hide FieldBytes;
    OneMore(lengths, values, n - 1);
    var lo, hi := Offset(lengths, i), Offset(lengths, i) + lengths[i];
    var before := Fields(lengths, values, n - 1);
    if i < n - 1 {
      FieldSlice(lengths, values, i, n - 1);
      SlicePrefix(before, FieldBytes(lengths[n - 1], values[n - 1]), lo, hi);
    } else {
      assert (before + FieldBytes(lengths[i], values[i]))[lo..] == FieldBytes(lengths[i], values[i]);
    }
  }

  /** The grid that parameter-marker data is, when its counts fit their fields. */
  function ParameterGrid(lengths: seq<u32>, values: seq<Option<seq<byte>>>): Grid
    requires Matches(lengths, values) && |lengths| < 0x1_0000 && RecordSize(lengths) < 0x1_0000_0000
  {
    Grid(ParameterData(lengths, values), 1, |lengths|, 2, RecordSize(lengths))
  }

  lemma ParameterHeaderFields(lengths: seq<u32>, d: seq<byte>)
    requires |lengths| < 0x1_0000 && RecordSize(lengths) < 0x1_0000_0000
    requires |d| >= HEADER_LENGTH && d[..HEADER_LENGTH] == ParameterHeader(lengths)
    ensures HeaderOf(d) == Grid(d, 1, |lengths|, 2, RecordSize(lengths))
  {
    hide U16, U32, Get16, Get32;
    var h := ParameterHeader(lengths);
    assert d[4..8] == h[4..8] == U32(1) && d[8..10] == h[8..10] == U16(|lengths|) && d[10..12] == h[10..12] == U16(2);
    assert d[16..20] == h[16..20] == U32(RecordSize(lengths));
    GetU32(1);
    GetU16(|lengths|);
    GetU16(2);
    GetU32(RecordSize(lengths));
  }

  /**
   * Reading back what EncodeParameterData wrote: a one-row grid, whose
   * indicator is -1 exactly for NULL, and whose row holds each value at the
   * sum of the lengths before it.
   */
  lemma ParameterRoundTrip(lengths: seq<u32>, values: seq<Option<seq<byte>>>)
    requires Matches(lengths, values) && |lengths| < 0x1_0000 && RecordSize(lengths) < 0x1_0000_0000
    ensures Parse(ParameterData(lengths, values)) == Some(ParameterGrid(lengths, values))
    ensures NeedOf(ParameterGrid(lengths, values)) == |ParameterData(lengths, values)|
    ensures Row(ParameterGrid(lengths, values), 0) == Fields(lengths, values, |lengths|)
  {
    hide ParameterHeader, Indicators, Fields;
    var d := ParameterData(lengths, values);
    assert d[..HEADER_LENGTH] == ParameterHeader(lengths);
    ParameterHeaderFields(lengths, d);
  }

  lemma ParameterCell(lengths: seq<u32>, values: seq<Option<seq<byte>>>, i: nat)
    requires Matches(lengths, values) && |lengths| < 0x1_0000 && RecordSize(lengths) < 0x1_0000_0000 && i < |lengths|
    ensures var g := ParameterGrid(lengths, values);
      && IndicatorAt(g, 0, i) + 2 <= |g.raw|
      && Indicator(g, 0, i) == if values[i].None? then -1 else 0
  {
    hide ParameterHeader, Indicators, Fields;
    var g := ParameterGrid(lengths, values);
    IndicatorSlice(values, i, |values|);
    GetU16(0xFFFF);
    var at := HEADER_LENGTH + 2 * i;
    assert IndicatorAt(g, 0, i) == at;
    assert g.raw[at..at + 2] == Indicators(values, |values|)[2 * i..2 * i + 2];
  }

  lemma ParameterField(lengths: seq<u32>, values: seq<Option<seq<byte>>>, i: nat)
    requires Matches(lengths, values) && |lengths| < 0x1_0000 && RecordSize(lengths) < 0x1_0000_0000 && i < |lengths|
    ensures var g := ParameterGrid(lengths, values);
      && RowAt(g, 0) + g.rowSize <= |g.raw|
      && Offset(lengths, i) + lengths[i] <= |Row(g, 0)|
      && Row(g, 0)[Offset(lengths, i)..Offset(lengths, i) + lengths[i]] == FieldBytes(lengths[i], values[i])
  {
    hide ParameterHeader, Indicators, Fields;
    ParameterRoundTrip(lengths, values);
    FieldSlice(lengths, values, i, |lengths|);
  }

  // ----- Result data as a server lays it out -----

  type i16 = n: int | -0x8000 <= n < 0x8000

  /** One row: an indicator for each column, and the bytes of the row. */
  datatype Delivered = Delivered(indicators: seq<i16>, data: seq<byte>)

  predicate RowsFit(rows: seq<Delivered>, cols: nat, rowSize: nat) {
    forall i :: 0 <= i < |rows| ==> |rows[i].indicators| == cols && |rows[i].data| == rowSize
  }

  /** The indicators of the first n rows, row by row. */
  function Flat(rows: seq<Delivered>, cols: nat, rowSize: nat, n: nat): (vs: seq<i16>)
    requires RowsFit(rows, cols, rowSize) && n <= |rows|
    ensures |vs| == n * cols
  {
    if n == 0 then []
    else
      assert n * cols == (n - 1) * cols + cols;
      Flat(rows, cols, rowSize, n - 1) + rows[n - 1].indicators
  }

  /** An indicator in `size` bytes, of which the first two count. */
  function Cell(v: i16, size: nat): (b: seq<byte>)
    requires size >= 2
    ensures |b| == size
  {
    U16(if v < 0 then v + 0x1_0000 else v) + Zeros(size - 2)
  }

  function Cells(vs: seq<i16>, size: nat, n: nat): (b: seq<byte>)
    requires size >= 2 && n <= |vs|
    ensures |b| == n * size
  {
    if n == 0 then []
    else
      assert n * size == (n - 1) * size + size;
      Cells(vs, size, n - 1) + Cell(vs[n - 1], size)
  }

  function RowBytes(rows: seq<Delivered>, cols: nat, rowSize: nat, n: nat): (b: seq<byte>)
    requires RowsFit(rows, cols, rowSize) && n <= |rows|
    ensures |b| == n * rowSize
  {
    if n == 0 then []
    else
      assert n * rowSize == (n - 1) * rowSize + rowSize;
      RowBytes(rows, cols, rowSize, n - 1) + rows[n - 1].data
  }

  predicate LayoutFits(rows: seq<Delivered>, cols: nat, size: nat, rowSize: nat) {
    && |rows| < 0x1_0000_0000 && cols < 0x1_0000 && 2 <= size < 0x1_0000 && rowSize < 0x1_0000_0000
    && RowsFit(rows, cols, rowSize)
  }

  function LayoutHeader(
    token: seq<byte>, reserved: seq<byte>, rows: nat, cols: nat, size: nat, rowSize: nat
  ): (b: seq<byte>)
    requires |token| == 4 && |reserved| == 4
    requires rows < 0x1_0000_0000 && cols < 0x1_0000 && size < 0x1_0000 && rowSize < 0x1_0000_0000
    ensures |b| == 20
  {
    token + U32(rows) + U16(cols) + U16(size) + reserved + U32(rowSize)
  }

  function Layout(
    token: seq<byte>, reserved: seq<byte>, rows: seq<Delivered>, cols: nat, size: nat, rowSize: nat
  ): seq<byte>
    requires |token| == 4 && |reserved| == 4 && LayoutFits(rows, cols, size, rowSize)
  {
    var vs := Flat(rows, cols, rowSize, |rows|);
    LayoutHeader(token, reserved, |rows|, cols, size, rowSize)
    + Cells(vs, size, |vs|) + RowBytes(rows, cols, rowSize, |rows|)
  }

  lemma LayoutHeaderReads(
    token: seq<byte>, reserved: seq<byte>, rows: nat, cols: nat, size: nat, rowSize: nat, rest: seq<byte>
  )
    requires |token| == 4 && |reserved| == 4
    requires rows < 0x1_0000_0000 && cols < 0x1_0000 && size < 0x1_0000 && rowSize < 0x1_0000_0000
    ensures var d := LayoutHeader(token, reserved, rows, cols, size, rowSize) + rest;
      HeaderOf(d) == Grid(d, rows, cols, size, rowSize)
  {
    hide Get16, Get32, U16, U32;
    var d := LayoutHeader(token, reserved, rows, cols, size, rowSize) + rest;
    assert d[4..8] == U32(rows) && d[8..10] == U16(cols) && d[10..12] == U16(size) && d[16..20] == U32(rowSize);
    GetU32(rows);
    GetU16(cols);
    GetU16(size);
    GetU32(rowSize);
  }

  lemma {:induction false} FlatAt(rows: seq<Delivered>, cols: nat, rowSize: nat, r: nat, c: nat, n: nat)
    requires RowsFit(rows, cols, rowSize) && r < n <= |rows| && c < cols
    ensures r * cols + c < n * cols && Flat(rows, cols, rowSize, n)[r * cols + c] == rows[r].indicators[c]
  {
    CellNumber(n, cols, r, c);
    assert n * cols == (n - 1) * cols + cols;
    if r < n - 1 {
      FlatAt(rows, cols, rowSize, r, c, n - 1);
    }
  }

  lemma {:induction false} CellAt(vs: seq<i16>, size: nat, i: nat, n: nat)
    requires size >= 2 && i < n <= |vs|
    ensures i * size + size <= n * size
    ensures Cells(vs, size, n)[i * size..i * size + size] == Cell(vs[i], size)
  {
    hide Cell;
    Inside(i, n, size);
    assert n * size == (n - 1) * size + size;
    var before, last := Cells(vs, size, n - 1), Cell(vs[n - 1], size);
    if i < n - 1 {
      CellAt(vs, size, i, n - 1);
      SlicePrefix(before, last, i * size, i * size + size);
    } else {
      SliceSuffix(before, last);
    }
  }

  lemma {:induction false} RowBytesAt(rows: seq<Delivered>, cols: nat, rowSize: nat, r: nat, n: nat)
    requires RowsFit(rows, cols, rowSize) && r < n <= |rows|
    ensures r * rowSize + rowSize <= n * rowSize
    ensures RowBytes(rows, cols, rowSize, n)[r * rowSize..r * rowSize + rowSize] == rows[r].data
  {
    Inside(r, n, rowSize);
    assert n * rowSize == (n - 1) * rowSize + rowSize;
    var before, last := RowBytes(rows, cols, rowSize, n - 1), rows[n - 1].data;
    if r < n - 1 {
      RowBytesAt(rows, cols, rowSize, r, n - 1);
      SlicePrefix(before, last, r * rowSize, r * rowSize + rowSize);
    } else {
      SliceSuffix(before, last);
    }
  }

  lemma CellReads(v: i16, size: nat, rest: seq<byte>)
    requires size >= 2
    ensures Signed16(Get16((Cell(v, size) + rest)[0..2])) == v
  {
    var n: u16 := if v < 0 then v + 0x1_0000 else v;
    assert (Cell(v, size) + rest)[0..2] == U16(n);
    GetU16(n);
  }

  /** A slice of the middle part. */
  lemma SliceOfMiddle(a: seq<byte>, b: seq<byte>, c: seq<byte>, i: nat, j: nat)
    requires i <= j <= |b|
    ensures (a + b + c)[|a| + i..|a| + j] == b[i..j]
  {
  }

  /**
   * Result data as a server lays it out, with anything behind it, is accepted;
   * and each indicator, and each row, is found where the server put it.
   */
  lemma LayoutReadsBack(
    token: seq<byte>, reserved: seq<byte>, rows: seq<Delivered>, cols: nat, size: nat, rowSize: nat, extra: seq<byte>,
    r: nat, c: nat
  )
    requires |token| == 4 && |reserved| == 4 && LayoutFits(rows, cols, size, rowSize) && r < |rows| && c < cols
    requires |Layout(token, reserved, rows, cols, size, rowSize) + extra| < TWO_63
    ensures var d := Layout(token, reserved, rows, cols, size, rowSize) + extra;
      var g := Grid(d, |rows|, cols, size, rowSize);
      && Parse(d) == Some(g)
      && IndicatorAt(g, r, c) + 2 <= |d| && Indicator(g, r, c) == rows[r].indicators[c]
      && RowAt(g, r) + rowSize <= |d| && Row(g, r) == rows[r].data
  {
    hide U16, U32, Get16, Get32, LayoutHeader, Cell, Cells, Flat, RowBytes, Signed16, NeedOf, CellStart, CellsEnd;
    var header := LayoutHeader(token, reserved, |rows|, cols, size, rowSize);
    var vs := Flat(rows, cols, rowSize, |rows|);
    var cells, data := Cells(vs, size, |vs|), RowBytes(rows, cols, rowSize, |rows|);
    var d := Layout(token, reserved, rows, cols, size, rowSize) + extra;
    var g := Grid(d, |rows|, cols, size, rowSize);
    InFourParts(header, cells, data, extra);
    LayoutAccepted(g, token, reserved, |rows|, cells + data + extra);
    FlatAt(rows, cols, rowSize, r, c, |rows|);
    Addresses(g, r, c);
    CellInLayout(header, vs, size, data + extra, r * cols + c, IndicatorAt(g, r, c));
    RowInLayout(header + cells, rows, cols, rowSize, extra, r);
  }

  lemma InFourParts(a: seq<byte>, b: seq<byte>, c: seq<byte>, d: seq<byte>)
    ensures a + b + c + d == a + (b + c + d) == a + b + (c + d)
  {
  }

  lemma Addresses(g: Grid, r: nat, c: nat)
    ensures IndicatorAt(g, r, c) == 20 + (r * g.columnCount + c) * g.indicatorSize
    ensures RowsAt(g) == 20 + g.rowCount * g.columnCount * g.indicatorSize
  {
  }

  /** A grid that is all there, by its header and its length. */
  lemma LayoutAccepted(g: Grid, token: seq<byte>, reserved: seq<byte>, rows: nat, rest: seq<byte>)
    requires |token| == 4 && |reserved| == 4 && rows == g.rowCount
    requires g.raw == LayoutHeader(token, reserved, rows, g.columnCount, g.indicatorSize, g.rowSize) + rest
    requires |rest| >= g.rowCount * g.columnCount * g.indicatorSize + g.rowCount * g.rowSize && |g.raw| < TWO_63
    ensures Parse(g.raw) == Some(g)
  {
    hide LayoutHeader, NeedOf, HeaderOf, Parse;
    LayoutHeaderReads(token, reserved, rows, g.columnCount, g.indicatorSize, g.rowSize, rest);
    NeedIsRowsEnd(g);
    PresentMeansAccepted(g.raw);
  }

  /** Row r, behind the header and the indicators. */
  lemma RowInLayout(before: seq<byte>, rows: seq<Delivered>, cols: nat, rowSize: nat, extra: seq<byte>, r: nat)
    requires RowsFit(rows, cols, rowSize) && r < |rows|
    ensures var d := before + RowBytes(rows, cols, rowSize, |rows|) + extra;
      var at := |before| + r * rowSize;
      at + rowSize <= |d| && d[at..at + rowSize] == rows[r].data
  {
    hide RowBytes;
    RowBytesAt(rows, cols, rowSize, r, |rows|);
    SliceOfMiddle(before, RowBytes(rows, cols, rowSize, |rows|), extra, r * rowSize, r * rowSize + rowSize);
  }

  /** Indicator i of the flat list, behind the header. */
  lemma CellInLayout(header: seq<byte>, vs: seq<i16>, size: nat, rest: seq<byte>, i: nat, at: nat)
    requires |header| == 20 && size >= 2 && i < |vs| && at == 20 + i * size
    ensures var d := header + Cells(vs, size, |vs|) + rest;
      at + 2 <= |d| && Signed16(Get16(d[at..at + 2])) == vs[i]
  {
    hide U16, Get16, Signed16, Cell, Cells;
    CellAt(vs, size, i, |vs|);
    var cells := Cells(vs, size, |vs|);
    SliceOfMiddle(header, cells, rest, i * size, i * size + 2);
    assert cells[i * size..i * size + 2] == cells[i * size..i * size + size][0..2];
    assert Cell(vs[i], size) + [] == Cell(vs[i], size);
    CellReads(vs[i], size, []);
  }

  /** The header of parameter data: 1, one row, the number of values, two-byte indicators, and the size of the row. */
  lemma ParameterBytes(lengths: seq<u32>)
    requires |lengths| < 0x1_0000 && RecordSize(lengths) < 0x1_0000_0000
    ensures var b := ParameterHeader(lengths);
      && |b| == 20 && Spelt(b, 0, 4) == 1 && Spelt(b, 4, 4) == 1 && Spelt(b, 8, 2) == |lengths| && Spelt(b, 10, 2) == 2
      && b[12..16] == [0, 0, 0, 0] && Spelt(b, 16, 4) == RecordSize(lengths)
  {
    hide U16, U32, Spelt, RecordSize;
    var b := ParameterHeader(lengths);
    assert b[0..4] == U32(1) && b[4..8] == U32(1) && b[8..10] == U16(|lengths|) && b[10..12] == U16(2);
    assert b[16..20] == U32(RecordSize(lengths));
    SpeltFour(b, 0, 1);
    SpeltFour(b, 4, 1);
    SpeltPair(b, 8, |lengths|);
    SpeltPair(b, 10, 2);
    SpeltFour(b, 16, RecordSize(lengths));
  }
}
