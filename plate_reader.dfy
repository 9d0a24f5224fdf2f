/** Reading a plate-reader export (the DATA sheet of a CLARIOstar workbook)
    into a time vector and a wells-by-cycles array.

    For cycle k of a plate with R rows, the sheet holds the header text
    "Cycle ... (...)" in column 0 of row 12 + (R + 4) * k, and the reading of
    well (row r, column c) in column 1 + c of row 15 + (R + 4) * k + r. Well
    (r, c) is stored at flat index r * COLS + c; the three-dimensional matrix
    is a C-order reshape of the flat array, so it shares the same storage. */
module PlateReader {
  import opened Common
  import opened CycleTime

  /** A spreadsheet cell as the workbook reader returns it: a number, or
      text (an empty cell reads as the empty text). */
  datatype Cell = Number(x: real) | Text(s: string)

  /** The DATA sheet, row by row. */
  type Sheet = seq<seq<Cell>>

  /** Why loading fails; each stands for an exception of the source. */
  datatype LoadError =
    | NegativeDimension                     // numpy refuses a negative array size
    | OutOfSheet(row: nat, col: nat)        // the cell lies outside the sheet
    | HeaderNotText(row: nat, col: nat)     // the header regex is applied to a number
    | ReadingNotNumber(row: nat, col: nat)  // a non-empty text cannot be stored as a float

  function CellAt(sheet: Sheet, row: nat, col: nat): Option<Cell>
  {
    if row < |sheet| && col < |sheet[row]| then Some(sheet[row][col]) else None
  }

  // ---------------------------------------------------------------------
  // Layout of the DATA sheet.

  function HeaderRow(rows: nat, k: nat): nat { 12 + (rows + 4) * k }

  function ReadingRow(rows: nat, k: nat, r: nat): nat { 15 + (rows + 4) * k + r }

  function ReadingCol(c: nat): nat { 1 + c }

  lemma MulMonotone(a: nat, b: nat, m: nat)
    requires a <= b
    ensures m * a <= m * b
  {
  }

  /** The readings of cycle k lie strictly between its header and the
      header of cycle k + 1. */
  lemma CycleBlock(rows: nat, k: nat, r: nat)
    requires r < rows
    ensures HeaderRow(rows, k) < ReadingRow(rows, k, r)
    ensures ReadingRow(rows, k, r) + 2 <= HeaderRow(rows, k + 1)
  {
    assert (rows + 4) * (k + 1) == (rows + 4) * k + rows + 4;
  }

  /** Later cycles start further down the sheet. */
  lemma HeaderRowIncreasing(rows: nat, k1: nat, k2: nat)
    requires k1 < k2
    ensures HeaderRow(rows, k1 + 1) <= HeaderRow(rows, k2)
    ensures HeaderRow(rows, k1) < HeaderRow(rows, k2)
  {
    MulMonotone(k1 + 1, k2, rows + 4);
    assert (rows + 4) * (k1 + 1) == (rows + 4) * k1 + rows + 4;
  }

  /** No two cells of the layout coincide: every header and every reading
      has a row of its own (a reading shares it only with the readings of
      the same plate row). */
  lemma ReadingRowsDistinct(rows: nat, k1: nat, r1: nat, k2: nat, r2: nat)
    requires r1 < rows && r2 < rows
    requires k1 != k2 || r1 != r2
    ensures ReadingRow(rows, k1, r1) != ReadingRow(rows, k2, r2)
    ensures ReadingRow(rows, k1, r1) != HeaderRow(rows, k2)
  {
    CycleBlock(rows, k1, r1);
    CycleBlock(rows, k2, r2);
    if k1 < k2 {
      HeaderRowIncreasing(rows, k1, k2);
    } else if k2 < k1 {
      HeaderRowIncreasing(rows, k2, k1);
    }
  }

  // ---------------------------------------------------------------------
  // Flat well index.

  /** The index of well (r, c) in the flat array. */
  function FlatIndex(rows: nat, cols: nat, r: nat, c: nat): (i: nat)
    requires r < rows && c < cols
    ensures i < rows * cols
  {
    MulMonotone(r + 1, rows, cols);
    r * cols + c
  }

  /** Different wells have different flat indices. */
  lemma FlatIndexInjective(rows: nat, cols: nat, r1: nat, c1: nat, r2: nat, c2: nat)
    requires r1 < rows && c1 < cols && r2 < rows && c2 < cols
    requires FlatIndex(rows, cols, r1, c1) == FlatIndex(rows, cols, r2, c2)
    ensures r1 == r2 && c1 == c2
  {
    if r1 < r2 {
      MulMonotone(r1 + 1, r2, cols);
    } else if r2 < r1 {
      MulMonotone(r2 + 1, r1, cols);
    }
  }

  /** Every flat index belongs to a well: the index is a bijection between
      the wells and [0, rows * cols). */
  lemma FlatIndexOnto(rows: nat, cols: nat, i: nat)
    requires i < rows * cols
    ensures cols > 0 && i / cols < rows
    ensures FlatIndex(rows, cols, i / cols, i % cols) == i
  {
    var r, c := i / cols, i % cols;
    assert i == r * cols + c;
    if r >= rows {
      MulMonotone(rows, r, cols);
    }
  }

  // ---------------------------------------------------------------------
  // What each cell contributes.

  /** The time of cycle k: the header cell must be text, which is parsed
      into seconds (None when neither header pattern matches). */
  function Header(sheet: Sheet, rows: nat, k: nat): Result<Option<nat>, LoadError>
  {
    var row := HeaderRow(rows, k);
    match CellAt(sheet, row, 0)
    case None => Failure(OutOfSheet(row, 0))
    case Some(Number(_)) => Failure(HeaderNotText(row, 0))
    case Some(Text(s)) => Success(ParseTime(s))
  }

  /** The reading of well (r, c) in cycle k: a blank cell is a missing
      reading (None, NaN in the source), a number is stored as it is. */
  function Reading(sheet: Sheet, rows: nat, k: nat, r: nat, c: nat): Result<Option<real>, LoadError>
  {
    var row, col := ReadingRow(rows, k, r), ReadingCol(c);
    match CellAt(sheet, row, col)
    case None => Failure(OutOfSheet(row, col))
    case Some(Number(x)) => Success(Some(x))
    case Some(Text(s)) => if s == "" then Success(None) else Failure(ReadingNotNumber(row, col))
  }

  function ErrorOf<T>(r: Result<T, LoadError>): Option<LoadError>
  {
    if r.Failure? then Some(r.error) else None
  }

  function First(a: Option<LoadError>, b: Option<LoadError>): Option<LoadError>
  {
    if a.Some? then a else b
  }

  // The first failing cell, in the order the loops visit them: cycle by
  // cycle, the header first, then column by column, row by row.

  function ColumnError(sheet: Sheet, rows: nat, k: nat, c: nat, r: nat): Option<LoadError>
    decreases rows - r
  {
    if r >= rows then None
    else First(ErrorOf(Reading(sheet, rows, k, r, c)), ColumnError(sheet, rows, k, c, r + 1))
  }

  function ColumnsError(sheet: Sheet, rows: nat, cols: nat, k: nat, c: nat): Option<LoadError>
    decreases cols - c
  {
    if c >= cols then None
    else First(ColumnError(sheet, rows, k, c, 0), ColumnsError(sheet, rows, cols, k, c + 1))
  }

  function CycleError(sheet: Sheet, rows: nat, cols: nat, k: nat): Option<LoadError>
  {
    First(ErrorOf(Header(sheet, rows, k)), ColumnsError(sheet, rows, cols, k, 0))
  }

  function SheetError(sheet: Sheet, rows: nat, cols: nat, cycles: nat, k: nat): Option<LoadError>
    decreases cycles - k
  {
    if k >= cycles then None
    else First(CycleError(sheet, rows, cols, k), SheetError(sheet, rows, cols, cycles, k + 1))
  }

  /** Every cell the loops visit can be read. */
  predicate Readable(sheet: Sheet, rows: nat, cols: nat, cycles: nat)
  {
    (forall k | 0 <= k < cycles :: Header(sheet, rows, k).Success?) &&
    (forall k, r, c | 0 <= k < cycles && 0 <= r < rows && 0 <= c < cols ::
       Reading(sheet, rows, k, r, c).Success?)
  }

  lemma {:induction false} ColumnErrorNone(sheet: Sheet, rows: nat, k: nat, c: nat, r: nat)
    ensures ColumnError(sheet, rows, k, c, r).None?
        <==> forall r' | r <= r' < rows :: Reading(sheet, rows, k, r', c).Success?
    decreases rows - r
  {
    if r < rows {
      ColumnErrorNone(sheet, rows, k, c, r + 1);
    }
  }

  lemma {:induction false} ColumnsErrorNone(sheet: Sheet, rows: nat, cols: nat, k: nat, c: nat)
    ensures ColumnsError(sheet, rows, cols, k, c).None?
        <==> forall r, c' | 0 <= r < rows && c <= c' < cols :: Reading(sheet, rows, k, r, c').Success?
    decreases cols - c
  {
    if c < cols {
      ColumnErrorNone(sheet, rows, k, c, 0);
      ColumnsErrorNone(sheet, rows, cols, k, c + 1);
      if ColumnsError(sheet, rows, cols, k, c).None? {
        forall r, c' | 0 <= r < rows && c <= c' < cols
          ensures Reading(sheet, rows, k, r, c').Success?
        {
          if c' == c {
            assert ColumnError(sheet, rows, k, c, 0).None?;
          }
        }
      }
    }
  }

  lemma {:induction false} SheetErrorNone(sheet: Sheet, rows: nat, cols: nat, cycles: nat, k: nat)
    ensures SheetError(sheet, rows, cols, cycles, k).None?
        <==> (forall k' | k <= k' < cycles :: Header(sheet, rows, k').Success?) &&
             (forall k', r, c | k <= k' < cycles && 0 <= r < rows && 0 <= c < cols ::
                Reading(sheet, rows, k', r, c).Success?)
    decreases cycles - k
  {
    if k < cycles {
      ColumnsErrorNone(sheet, rows, cols, k, 0);
      SheetErrorNone(sheet, rows, cols, cycles, k + 1);
      if SheetError(sheet, rows, cols, cycles, k).None? {
        forall k', r, c | k <= k' < cycles && 0 <= r < rows && 0 <= c < cols
          ensures Reading(sheet, rows, k', r, c).Success?
        {
          if k' == k {
            assert ColumnsError(sheet, rows, cols, k, 0).None?;
          }
        }
      }
    }
  }

  /** Loading fails exactly when some visited cell cannot be read. */
  lemma LoadFailsIffUnreadable(sheet: Sheet, rows: nat, cols: nat, cycles: nat)
    ensures SheetError(sheet, rows, cols, cycles, 0).None? <==> Readable(sheet, rows, cols, cycles)
  {
    SheetErrorNone(sheet, rows, cols, cycles, 0);
  }

  // ---------------------------------------------------------------------
  // The loaded assay.

  class Assay {
    const rows: nat
    const cols: nat
    const cycles: nat
    /** Seconds since the start, per cycle; None where the header was not
        recognised. */
    const time: array<Option<nat>>
    /** Readings per well (flat index) and cycle; None for a missing one. */
    const well: array2<Option<real>>

    predicate Valid()
    {
      time.Length == cycles && well.Length0 == rows * cols && well.Length1 == cycles
    }

    /** Every cycle's time and every well's reading as the sheet gives them. */
    predicate Loaded(sheet: Sheet)
      requires Valid()
      reads time, well
    {
      (forall k | 0 <= k < cycles :: Header(sheet, rows, k) == Success(time[k])) &&
      (forall k, r, c | 0 <= k < cycles && 0 <= r < rows && 0 <= c < cols ::
         Reading(sheet, rows, k, r, c) == Success(well[FlatIndex(rows, cols, r, c), k]))
    }

    /** The arrays start out as zeros. */
    constructor(rows: nat, cols: nat, cycles: nat)
      ensures this.rows == rows && this.cols == cols && this.cycles == cycles
      ensures Valid() && fresh(time) && fresh(well)
      ensures forall k | 0 <= k < cycles :: time[k] == Some(0)
      ensures forall i, k | 0 <= i < rows * cols && 0 <= k < cycles :: well[i, k] == Some(0.0)
    {
      this.rows := rows;
      this.cols := cols;
      this.cycles := cycles;
      time := new Option<nat>[cycles](_ => Some(0));
      well := new Option<real>[rows * cols, cycles]((_, _) => Some(0.0));
    }

    /** The cycle loop: fills every cycle in turn and stops at the first
        cell that cannot be read. */
    method Fill(sheet: Sheet) returns (err: Option<LoadError>)
      requires Valid()
      modifies time, well
      ensures err == SheetError(sheet, rows, cols, cycles, 0)
      ensures err.None? ==> Loaded(sheet)
    {
      var idx := 0;
      while idx < cycles
        invariant idx <= cycles
        invariant SheetError(sheet, rows, cols, cycles, 0) == SheetError(sheet, rows, cols, cycles, idx)
        invariant forall k | 0 <= k < idx :: Header(sheet, rows, k) == Success(time[k])
        invariant forall k, r, c | 0 <= k < idx && 0 <= r < rows && 0 <= c < cols ::
          Reading(sheet, rows, k, r, c) == Success(well[FlatIndex(rows, cols, r, c), k])
      {
        err := FillCycle(sheet, idx);
        if err.Some? {
          return;
        }
        idx := idx + 1;
      }
      err := None;
    }

    /** One cycle: the time from the header, then the column loop. */
    method FillCycle(sheet: Sheet, idx: nat) returns (err: Option<LoadError>)
      requires Valid() && idx < cycles
      modifies time, well
      ensures err == CycleError(sheet, rows, cols, idx)
      ensures err.None? ==> Header(sheet, rows, idx) == Success(time[idx])
      ensures err.None? ==> forall r, c | 0 <= r < rows && 0 <= c < cols ::
        Reading(sheet, rows, idx, r, c) == Success(well[FlatIndex(rows, cols, r, c), idx])
      ensures forall k | 0 <= k < cycles && k != idx :: time[k] == old(time[k])
      ensures forall k, r, c | 0 <= k < cycles && k != idx && 0 <= r < rows && 0 <= c < cols ::
        well[FlatIndex(rows, cols, r, c), k] == old(well[FlatIndex(rows, cols, r, c), k])
    {
      var header := Header(sheet, rows, idx);
      if header.Failure? {
        return Some(header.error);
      }
      time[idx] := header.value;
      var col := 0;
      while col < cols
        invariant col <= cols
        invariant CycleError(sheet, rows, cols, idx) == ColumnsError(sheet, rows, cols, idx, col)
        invariant Header(sheet, rows, idx) == Success(time[idx])
        invariant forall r, c | 0 <= r < rows && 0 <= c < col ::
          Reading(sheet, rows, idx, r, c) == Success(well[FlatIndex(rows, cols, r, c), idx])
        invariant forall k | 0 <= k < cycles && k != idx :: time[k] == old(time[k])
        invariant forall k, r, c | 0 <= k < cycles && k != idx && 0 <= r < rows && 0 <= c < cols ::
          well[FlatIndex(rows, cols, r, c), k] == old(well[FlatIndex(rows, cols, r, c), k])
      {
        err := FillColumn(sheet, idx, col);
        if err.Some? {
          return;
        }
        col := col + 1;
      }
      err := None;
    }

    /** One column of one cycle: the row loop. */
    method FillColumn(sheet: Sheet, idx: nat, col: nat) returns (err: Option<LoadError>)
      requires Valid() && idx < cycles && col < cols
      modifies well
      ensures err == ColumnError(sheet, rows, idx, col, 0)
      ensures err.None? ==> forall r | 0 <= r < rows ::
        Reading(sheet, rows, idx, r, col) == Success(well[FlatIndex(rows, cols, r, col), idx])
      ensures forall k, r, c | 0 <= k < cycles && 0 <= r < rows && 0 <= c < cols && (k != idx || c != col) ::
        well[FlatIndex(rows, cols, r, c), k] == old(well[FlatIndex(rows, cols, r, c), k])
    {
      var row := 0;
      while row < rows
        invariant row <= rows
        invariant ColumnError(sheet, rows, idx, col, 0) == ColumnError(sheet, rows, idx, col, row)
        invariant forall r | 0 <= r < row ::
          Reading(sheet, rows, idx, r, col) == Success(well[FlatIndex(rows, cols, r, col), idx])
        invariant forall k, r, c | 0 <= k < cycles && 0 <= r < rows && 0 <= c < cols && (k != idx || c != col) ::
          well[FlatIndex(rows, cols, r, c), k] == old(well[FlatIndex(rows, cols, r, c), k])
      {
        var reading := Reading(sheet, rows, idx, row, col);
        if reading.Failure? {
          return Some(reading.error);
        }
        var i := FlatIndex(rows, cols, row, col);
        forall r, c | 0 <= r < rows && 0 <= c < cols && (r != row || c != col)
          ensures FlatIndex(rows, cols, r, c) != i
        {
          if FlatIndex(rows, cols, r, c) == i {
            FlatIndexInjective(rows, cols, r, c, row, col);
          }
        }
        well[i, idx] := reading.value;
        row := row + 1;
      }
      err := None;
    }

    /** The reshaped view: entry [r][c][k] is the reading of well (r, c) in
        cycle k, taken from the same storage as the flat array. */
    function Matrix(): (m: seq<seq<seq<Option<real>>>>)
      requires Valid()
      reads well
      ensures |m| == rows
      ensures forall r | 0 <= r < rows :: |m[r]| == cols
      ensures forall r, c | 0 <= r < rows && 0 <= c < cols :: |m[r][c]| == cycles
      ensures forall r, c, k | 0 <= r < rows && 0 <= c < cols && 0 <= k < cycles ::
        m[r][c][k] == well[FlatIndex(rows, cols, r, c), k]
    {
      seq(rows, r requires 0 <= r < rows reads well =>
        seq(cols, c requires 0 <= c < cols reads well =>
          seq(cycles, k requires 0 <= k < cycles reads well => well[FlatIndex(rows, cols, r, c), k])))
    }
  }

  /** The constructor of the source: allocate, fill, and fail with the first
      unreadable cell. */
  method Load(sheet: Sheet, rows: int, cols: int, cycles: int) returns (result: Result<Assay, LoadError>)
    ensures rows < 0 || cols < 0 || cycles < 0 ==> result == Failure(NegativeDimension)
    ensures rows >= 0 && cols >= 0 && cycles >= 0 ==>
      result.Failure? == SheetError(sheet, rows, cols, cycles, 0).Some? &&
      (result.Failure? ==> result.error == SheetError(sheet, rows, cols, cycles, 0).value) &&
      (result.Success? ==>
         var a := result.value;
         fresh(a) && fresh(a.time) && fresh(a.well) && a.Valid() &&
         a.rows == rows && a.cols == cols && a.cycles == cycles && a.Loaded(sheet))
  {
    if rows < 0 || cols < 0 || cycles < 0 {
      return Failure(NegativeDimension);
    }
    var a := new Assay(rows, cols, cycles);
    var err := a.Fill(sheet);
    if err.Some? {
      return Failure(err.value);
    }
    return Success(a);
  }

  /** In a loaded assay a blank reading cell is missing and a numeric one is
      its number, wherever the matrix is looked at. */
  lemma MatrixReading(a: Assay, sheet: Sheet, k: nat, r: nat, c: nat)
    requires a.Valid() && a.Loaded(sheet)
    requires k < a.cycles && r < a.rows && c < a.cols
    ensures CellAt(sheet, ReadingRow(a.rows, k, r), ReadingCol(c)) == Some(Text("")) ==> a.Matrix()[r][c][k] == None
    ensures forall x: real :: CellAt(sheet, ReadingRow(a.rows, k, r), ReadingCol(c)) == Some(Number(x)) ==>
      a.Matrix()[r][c][k] == Some(x)
  {
    assert Reading(sheet, a.rows, k, r, c) == Success(a.well[FlatIndex(a.rows, a.cols, r, c), k]);
  }

  /** In a loaded assay the time of a cycle is its header parsed. */
  lemma TimeOfHeader(a: Assay, sheet: Sheet, k: nat, s: string)
    requires a.Valid() && a.Loaded(sheet)
    requires k < a.cycles
    requires CellAt(sheet, HeaderRow(a.rows, k), 0) == Some(Text(s))
    ensures a.time[k] == ParseTime(s)
  {
    assert Header(sheet, a.rows, k) == Success(a.time[k]);
  }
}
