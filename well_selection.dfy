/** Selecting wells of a loaded plate by reference ("C3", "c3", "B2:D4") and
    averaging their time series, as the fitter set-up does for the data
    wells and the control wells.

    A single reference "Xn" names the well in row X (A is 0) and column n - 1,
    where n is read with Python's int() and a column of -1 (from "X0") wraps to
    the last column. A range "Xa:Yb" takes rows X..Y and columns a..b, both
    ends inclusive, through Python slices (clipped to the plate, and empty when
    reversed); only the first character after each row letter is read as the
    column. The selected series are stacked in reference order, each range
    row by row; a missing reading anywhere in the stack is an error, and
    otherwise the result is the mean of the stack, cycle by cycle. */
module WellSelection {
  import opened Common
  import opened Text

  /** One well's readings, cycle by cycle; None is a missing reading. */
  type Series = seq<Option<real>>

  /** The assay matrix: plate row, plate column, then the series. */
  type Plate = seq<seq<Series>>

  /** The exceptions the selection raises. */
  datatype SelectError =
    | IndexError      // a string, the plate or a row indexed out of range
    | KeyError        // a row character that is not a letter A-Z
    | ValueError      // a column that is not an integer
    | MissingReading  // a selected well has a missing reading

  /** Every plate row has `cols` wells. */
  predicate Rectangular(m: Plate, cols: nat)
  {
    forall r | 0 <= r < |m| :: |m[r]| == cols
  }

  /** The matrix of an assay with `cols` columns and `cycles` cycles. */
  predicate Shaped(m: Plate, cols: nat, cycles: nat)
  {
    Rectangular(m, cols) && forall r, c | 0 <= r < |m| && 0 <= c < cols :: |m[r][c]| == cycles
  }

  // ---------------------------------------------------------------------
  // Row letters and columns.

  /** The table from letters to row numbers: A is 0, ..., Z is 25; any other
      character is missing from it. */
  function LetterToNumber(ch: char): Option<nat>
  {
    if 'A' <= ch <= 'Z' then Some(ch as nat - 'A' as nat) else None
  }

  function NumberToLetter(n: nat): (ch: char)
    requires n < 26
    ensures IsUpper(ch)
  {
    (n + 'A' as nat) as char
  }

  /** The table is a bijection between the 26 upper-case letters and 0..25. */
  lemma LetterNumberBijection(ch: char, n: nat)
    requires n < 26
    ensures LetterToNumber(NumberToLetter(n)) == Some(n)
    ensures LetterToNumber(ch) == Some(n) <==> ch == NumberToLetter(n)
    ensures LetterToNumber(ch).Some? <==> IsUpper(ch)
  {
  }

  function Row(ch: char): Result<nat, SelectError>
  {
    var n := LetterToNumber(ch);
    if n.Some? then Success(n.value) else Failure(KeyError)
  }

  /** `int(text) - 1`. */
  function Column(text: string): Result<int, SelectError>
  {
    var n := ParseInt(text);
    if n.Some? then Success(n.value - 1) else Failure(ValueError)
  }

  /** Where a Python slice bound `i` falls in a sequence of length `len`:
      negative bounds count from the end, and the result is clipped. */
  function SliceBound(len: nat, i: int): (b: nat)
    ensures b <= len
    ensures 0 <= i <= len ==> b == i
    ensures -(len as int) <= i < 0 ==> b == i + len
    ensures i > len ==> b == len
    ensures i < -(len as int) ==> b == 0
  {
    if i < 0 then (if i + len < 0 then 0 else i + len) else if i > len then len else i
  }

  /** The text before the first ':' (all of `s` when there is none): the
      first element of `s.split(":")`. */
  function Field(s: string): (f: string)
    ensures f <= s && ':' !in f
    ensures |f| < |s| ==> s[|f|] == ':'
  {
    if s == [] || s[0] == ':' then [] else [s[0]] + Field(s[1..])
  }

  // ---------------------------------------------------------------------
  // One reference.

  /** A single well "Xn", already upper-cased. */
  function SingleWell(m: Plate, cols: nat, cycles: nat, s: string): Result<Series, SelectError>
    requires Shaped(m, cols, cycles)
  {
    if s == [] then Failure(IndexError) else
    var row :- Row(s[0]);
    var col :- Column(s[1..]);
    if row >= |m| then Failure(IndexError)
    else if col < -(cols as int) || col >= cols then Failure(IndexError)
    else Success(m[row][if col < 0 then col + cols else col])
  }

  /** The slice bounds (first row, row after the last, first column, column
      after the last) of a range "Xa:Yb", already upper-cased. */
  function RangeBounds(rows: nat, cols: nat, s: string): (r: Result<(nat, nat, nat, nat), SelectError>)
    requires ':' in s
    ensures r.Success? ==> r.value.0 <= rows && r.value.1 <= rows && r.value.2 <= cols && r.value.3 <= cols
  {
    var first := Field(s);
    assert |first| < |s| by {
      if |first| == |s| { assert false; }
    }
    FieldBounds(rows, cols, first, Field(s[|first| + 1..]))
  }

  /** The slice bounds read from the text before the ':' and the text after
      it up to any second ':': the row letters first, then one column
      character each. */
  function FieldBounds(rows: nat, cols: nat, first: string, second: string): (r: Result<(nat, nat, nat, nat), SelectError>)
    ensures r.Success? ==> r.value.0 <= rows && r.value.1 <= rows && r.value.2 <= cols && r.value.3 <= cols
  {
    if first == [] then Failure(IndexError) else
    var startRow :- Row(first[0]);
    if second == [] then Failure(IndexError) else
    var endRow :- Row(second[0]);
    if |first| < 2 then Failure(IndexError) else
    var startCol :- Column([first[1]]);
    if |second| < 2 then Failure(IndexError) else
    var endCol :- Column([second[1]]);
    Success((SliceBound(rows, startRow), SliceBound(rows, endRow + 1),
             SliceBound(cols, startCol), SliceBound(cols, endCol + 1)))
  }

  /** Columns `clo` up to `chi` of one plate row. */
  function RowSlice(row: seq<Series>, clo: nat, chi: nat): seq<Series>
    requires clo <= |row| && chi <= |row|
  {
    if clo < chi then row[clo..chi] else []
  }

  /** The wells of rows `lo` up to `hi`, row after row. */
  function RangeWells(m: Plate, cols: nat, lo: nat, hi: nat, clo: nat, chi: nat): seq<Series>
    requires Rectangular(m, cols) && hi <= |m| && clo <= cols && chi <= cols
    decreases hi
  {
    if hi <= lo then [] else RangeWells(m, cols, lo, hi - 1, clo, chi) + RowSlice(m[hi - 1], clo, chi)
  }

  /** The series one reference contributes to the stack. */
  function Block(m: Plate, cols: nat, cycles: nat, ref: string): Result<seq<Series>, SelectError>
    requires Shaped(m, cols, cycles)
  {
    var s := Upper(ref);
    if ':' in s then
      var b :- RangeBounds(|m|, cols, s);
      Success(RangeWells(m, cols, b.0, b.1, b.2, b.3))
    else
      var w :- SingleWell(m, cols, cycles, s);
      Success([w])
  }

  /** The series of every block in order, or the first failing block's
      error. */
  function Gather(blocks: seq<Result<seq<Series>, SelectError>>): Result<seq<Series>, SelectError>
  {
    if blocks == [] then Success([]) else
    var front :- Gather(blocks[..|blocks| - 1]);
    var last :- blocks[|blocks| - 1];
    Success(front + last)
  }

  /** Each reference's block. */
  function Blocks(m: Plate, cols: nat, cycles: nat, refs: seq<string>): (bs: seq<Result<seq<Series>, SelectError>>)
    requires Shaped(m, cols, cycles)
    ensures |bs| == |refs|
  {
    seq(|refs|, i requires 0 <= i < |refs| => Block(m, cols, cycles, refs[i]))
  }

  /** All references' series in order, or the first reference's error. */
  function Stack(m: Plate, cols: nat, cycles: nat, refs: seq<string>): Result<seq<Series>, SelectError>
    requires Shaped(m, cols, cycles)
  {
    Gather(Blocks(m, cols, cycles, refs))
  }

  // ---------------------------------------------------------------------
  // The mean.

  predicate HasMissing(wells: seq<Series>)
  {
    exists i, k | 0 <= i < |wells| && 0 <= k < |wells[i]| :: wells[i][k].None?
  }

  predicate Complete(wells: seq<Series>, cycles: nat)
  {
    forall i | 0 <= i < |wells| :: |wells[i]| == cycles && forall k | 0 <= k < cycles :: wells[i][k].Some?
  }

  /** The sum of the stack at cycle k. */
  function Total(wells: seq<Series>, cycles: nat, k: nat): real
    requires Complete(wells, cycles) && k < cycles
  {
    if wells == [] then 0.0 else Total(wells[..|wells| - 1], cycles, k) + wells[|wells| - 1][k].value
  }

  /** Sum over the stack divided by its height; an empty stack gives 0/0,
      which is NaN in every cycle. */
  function Average(wells: seq<Series>, cycles: nat): (a: Series)
    requires Complete(wells, cycles)
    ensures |a| == cycles
  {
    if |wells| == 0 then seq(cycles, _ => None)
    else seq(cycles, k requires 0 <= k < cycles => Some(Total(wells, cycles, k) / (|wells| as real)))
  }

  /** What `parse_wells` returns for a list of references. */
  function Select(m: Plate, cols: nat, cycles: nat, refs: seq<string>): Result<Series, SelectError>
    requires Shaped(m, cols, cycles)
  {
    var wells :- Stack(m, cols, cycles, refs);
    if HasMissing(wells) then Failure(MissingReading)
    else
      StackShaped(m, cols, cycles, refs);
      Success(Average(wells, cycles))
  }

  /** Every block that succeeds holds series of `cycles` readings. */
  predicate BlocksShaped(bs: seq<Result<seq<Series>, SelectError>>, cycles: nat)
  {
    forall i, j | 0 <= i < |bs| && bs[i].Success? && 0 <= j < |bs[i].value| :: |bs[i].value[j]| == cycles
  }

  lemma {:induction false} GatherShaped(bs: seq<Result<seq<Series>, SelectError>>, cycles: nat)
    requires BlocksShaped(bs, cycles)
    ensures Gather(bs).Success? ==> forall i | 0 <= i < |Gather(bs).value| :: |Gather(bs).value[i]| == cycles
  {
    if bs != [] {
      var front := bs[..|bs| - 1];
      assert BlocksShaped(front, cycles) by {
        forall i | 0 <= i < |front| ensures front[i] == bs[i] { }
      }
      GatherShaped(front, cycles);
    }
  }

  /** Every series on the stack is one of the plate's. */
  lemma StackShaped(m: Plate, cols: nat, cycles: nat, refs: seq<string>)
    requires Shaped(m, cols, cycles)
    ensures Stack(m, cols, cycles, refs).Success? ==>
      forall i | 0 <= i < |Stack(m, cols, cycles, refs).value| :: |Stack(m, cols, cycles, refs).value[i]| == cycles
  {
    var bs := Blocks(m, cols, cycles, refs);
    forall i | 0 <= i < |bs| ensures bs[i].Success? ==> forall j | 0 <= j < |bs[i].value| :: |bs[i].value[j]| == cycles {
      BlockShaped(m, cols, cycles, refs[i]);
    }
    GatherShaped(bs, cycles);
  }

  lemma BlockShaped(m: Plate, cols: nat, cycles: nat, ref: string)
    requires Shaped(m, cols, cycles)
    ensures Block(m, cols, cycles, ref).Success? ==>
      forall i | 0 <= i < |Block(m, cols, cycles, ref).value| :: |Block(m, cols, cycles, ref).value[i]| == cycles
  {
    var s := Upper(ref);
    if ':' in s {
      var b := RangeBounds(|m|, cols, s);
      if b.Success? {
        RangeWellsShaped(m, cols, cycles, b.value.0, b.value.1, b.value.2, b.value.3);
      }
    }
  }

  /** The number of columns a range spans. */
  function Width(clo: nat, chi: nat): nat
  {
    if clo < chi then chi - clo else 0
  }

  /** a * w, built up one row of w at a time; the range lemmas below are
      stated with it (it equals the product, TimesIsProduct). */
  function Times(a: nat, w: nat): nat
  {
    if a == 0 then 0 else Times(a - 1, w) + w
  }

  lemma {:induction false} TimesIsProduct(a: nat, w: nat)
    ensures Times(a, w) == a * w
  {
    if a > 0 {
      TimesIsProduct(a - 1, w);
      assert a * w == (a - 1) * w + w;
    }
  }

  /** A range over rows lo..hi-1 holds (hi - lo) * Width(clo, chi) wells. */
  lemma {:induction false} RangeWellsLength(m: Plate, cols: nat, lo: nat, hi: nat, clo: nat, chi: nat)
    requires Rectangular(m, cols) && hi <= |m| && clo <= cols && chi <= cols
    requires lo <= hi
    ensures |RangeWells(m, cols, lo, hi, clo, chi)| == Times(hi - lo, Width(clo, chi))
    decreases hi
  {
    if lo < hi {
      RangeWellsLength(m, cols, lo, hi - 1, clo, chi);
    }
  }

  /** The range is stacked row-major: well (r, c) sits at position
      (r - lo) * (chi - clo) + (c - clo). */
  lemma RangeWellsIndex(m: Plate, cols: nat, lo: nat, hi: nat, clo: nat, chi: nat, r: nat, c: nat)
    requires Rectangular(m, cols) && hi <= |m| && clo <= cols && chi <= cols
    requires lo <= r < hi && clo <= c < chi
    ensures 0 <= (r - lo) * Width(clo, chi) + (c - clo) < |RangeWells(m, cols, lo, hi, clo, chi)| &&
            RangeWells(m, cols, lo, hi, clo, chi)[(r - lo) * Width(clo, chi) + (c - clo)] == m[r][c]
  {
    RangeWellsPosition(m, cols, lo, hi, clo, chi, r, c);
    TimesIsProduct(r - lo, Width(clo, chi));
  }

  /** The same, with the position built up row by row. */
  lemma {:induction false} RangeWellsPosition(m: Plate, cols: nat, lo: nat, hi: nat, clo: nat, chi: nat, r: nat, c: nat)
    requires Rectangular(m, cols) && hi <= |m| && clo <= cols && chi <= cols
    requires lo <= r < hi && clo <= c < chi
    ensures Times(r - lo, Width(clo, chi)) + (c - clo) < |RangeWells(m, cols, lo, hi, clo, chi)| &&
            RangeWells(m, cols, lo, hi, clo, chi)[Times(r - lo, Width(clo, chi)) + (c - clo)] == m[r][c]
    decreases hi
  {
    if r < hi - 1 {
      RangeWellsPosition(m, cols, lo, hi - 1, clo, chi, r, c);
      var front := RangeWells(m, cols, lo, hi - 1, clo, chi);
      var last := RowSlice(m[hi - 1], clo, chi);
      assert RangeWells(m, cols, lo, hi, clo, chi) == front + last;
      ConcatIndexFront(front, last, Times(r - lo, Width(clo, chi)) + (c - clo));
    } else {
      RangeWellsIndexLastRow(m, cols, lo, r, clo, chi, c);
    }
  }

  lemma RangeWellsIndexLastRow(m: Plate, cols: nat, lo: nat, n: nat, clo: nat, chi: nat, c: nat)
    requires Rectangular(m, cols) && n < |m| && clo <= cols && chi <= cols
    requires lo <= n && clo <= c < chi
    ensures Times(n - lo, Width(clo, chi)) + (c - clo) < |RangeWells(m, cols, lo, n + 1, clo, chi)| &&
            RangeWells(m, cols, lo, n + 1, clo, chi)[Times(n - lo, Width(clo, chi)) + (c - clo)] == m[n][c]
  {
    var front := RangeWells(m, cols, lo, n, clo, chi);
    var last := RowSlice(m[n], clo, chi);
    assert RangeWells(m, cols, lo, n + 1, clo, chi) == front + last;
    RangeWellsLength(m, cols, lo, n, clo, chi);
    assert |last| == chi - clo && last[c - clo] == m[n][c];
    ConcatIndex(front, last, Times(n - lo, Width(clo, chi)) + (c - clo));
  }

  lemma ConcatIndexFront<T>(a: seq<T>, b: seq<T>, i: nat)
    requires i < |a|
    ensures i < |a + b| && (a + b)[i] == a[i]
  {
  }

  lemma ConcatIndex<T>(a: seq<T>, b: seq<T>, i: nat)
    requires |a| <= i < |a| + |b|
    ensures i < |a + b| && (a + b)[i] == b[i - |a|]
  {
  }

  /** Every well of a range is a well of the plate. */
  lemma {:induction false} RangeWellsShaped(m: Plate, cols: nat, cycles: nat, lo: nat, hi: nat, clo: nat, chi: nat)
    requires Shaped(m, cols, cycles) && hi <= |m| && clo <= cols && chi <= cols
    ensures forall i | 0 <= i < |RangeWells(m, cols, lo, hi, clo, chi)| ::
      |RangeWells(m, cols, lo, hi, clo, chi)[i]| == cycles
    decreases hi
  {
    if lo < hi {
      RangeWellsShaped(m, cols, cycles, lo, hi - 1, clo, chi);
    }
  }


  // ---------------------------------------------------------------------
  // The selection loop.

  /** The first block that fails decides the error. */
  lemma {:induction false} GatherStopsAt(bs: seq<Result<seq<Series>, SelectError>>, i: nat)
    requires i < |bs| && Gather(bs[..i]).Success? && bs[i].Failure?
    ensures Gather(bs) == Failure(bs[i].error)
  {
    var front := bs[..|bs| - 1];
    if i < |bs| - 1 {
      assert front[..i] == bs[..i] && front[i] == bs[i];
      GatherStopsAt(front, i);
    } else {
      assert front == bs[..i];
    }
  }

  /** One more block that succeeds puts its series on top of the stack. */
  lemma GatherStep(bs: seq<Result<seq<Series>, SelectError>>, i: nat)
    requires i < |bs| && Gather(bs[..i]).Success? && bs[i].Success?
    ensures Gather(bs[..i + 1]) == Success(Gather(bs[..i]).value + bs[i].value)
  {
    assert bs[..i + 1][..i] == bs[..i] && bs[..i + 1][i] == bs[i];
  }

  /** One more plate row appends that row's slice. */
  lemma RangeWellsStep(m: Plate, cols: nat, lo: nat, n: nat, clo: nat, chi: nat)
    requires Rectangular(m, cols) && lo <= n < |m| && clo <= cols && chi <= cols
    ensures RangeWells(m, cols, lo, n + 1, clo, chi) == RangeWells(m, cols, lo, n, clo, chi) + RowSlice(m[n], clo, chi)
  {
  }

  /** Appending one more row's slice extends the stacked range by that row. */
  lemma AppendRow(m: Plate, cols: nat, wells: seq<Series>, lo: nat, n: nat, clo: nat, chi: nat)
    requires Rectangular(m, cols) && lo <= n < |m| && clo <= cols && chi <= cols
    ensures (wells + RangeWells(m, cols, lo, n, clo, chi)) + RowSlice(m[n], clo, chi) ==
            wells + RangeWells(m, cols, lo, n + 1, clo, chi)
  {
    RangeWellsStep(m, cols, lo, n, clo, chi);
    assert (wells + RangeWells(m, cols, lo, n, clo, chi)) + RowSlice(m[n], clo, chi) ==
           wells + (RangeWells(m, cols, lo, n, clo, chi) + RowSlice(m[n], clo, chi));
  }

  /** Stacks the rows of a range selection, one plate row at a time. */
  method AppendRange(m: Plate, cols: nat, wells: seq<Series>, lo: nat, hi: nat, clo: nat, chi: nat) returns (out: seq<Series>)
    requires Rectangular(m, cols) && lo <= |m| && hi <= |m| && clo <= cols && chi <= cols
    ensures out == wells + RangeWells(m, cols, lo, hi, clo, chi)
  {
    out := wells;
    var row := lo;
    while row < hi
      invariant lo <= row <= |m|
      invariant row <= hi || row == lo
      invariant out == wells + RangeWells(m, cols, lo, row, clo, chi)
    {
      var slice := RowSlice(m[row], clo, chi);
      AppendRow(m, cols, wells, lo, row, clo, chi);
      out := out + slice;
      row := row + 1;
    }
    assert RangeWells(m, cols, lo, row, clo, chi) == RangeWells(m, cols, lo, hi, clo, chi);
  }

  /** `parse_wells`: stacks the series of every reference in turn (a range
      row by row), then refuses a missing reading or returns the mean. */
  method ParseWells(m: Plate, cols: nat, cycles: nat, refs: seq<string>) returns (result: Result<Series, SelectError>)
    requires Shaped(m, cols, cycles)
    ensures result == Select(m, cols, cycles, refs)
  {
    ghost var bs := Blocks(m, cols, cycles, refs);
    var wells: seq<Series> := [];
    for i := 0 to |refs|
      invariant Gather(bs[..i]) == Success(wells)
    {
      assert bs[i] == Block(m, cols, cycles, refs[i]);
      var s := Upper(refs[i]);
      if ':' in s {
        var bounds := RangeBounds(|m|, cols, s);
        if bounds.Failure? {
          GatherStopsAt(bs, i);
          return Failure(bounds.error);
        }
        var (lo, hi, clo, chi) := bounds.value;
        GatherStep(bs, i);
        wells := AppendRange(m, cols, wells, lo, hi, clo, chi);
      } else {
        var well := SingleWell(m, cols, cycles, s);
        if well.Failure? {
          GatherStopsAt(bs, i);
          return Failure(well.error);
        }
        GatherStep(bs, i);
        wells := wells + [well.value];
      }
    }
    assert bs[..|refs|] == bs;
    if HasMissing(wells) {
      return Failure(MissingReading);
    }
    StackShaped(m, cols, cycles, refs);
    return Success(Average(wells, cycles));
  }
}
