/** What `parse_wells` promises about the references it accepts: which
    wells a reference names, how ranges are read, and how the mean treats
    order, repetition and missing readings. */
module WellProperties {
  import opened Common
  import opened Text
  import opened WellSelection
  import PlateReader

  // ---------------------------------------------------------------------
  // Single references.

  /** The well an upper-cased single reference names, once its column
      digits are read. */
  lemma SingleWellValue(m: Plate, cols: nat, cycles: nat, u: char, digits: string)
    requires Shaped(m, cols, cycles)
    requires IsNumeral(digits)
    ensures SingleWell(m, cols, cycles, [u] + digits) ==
      match LetterToNumber(u)
      case None => Failure(KeyError)
      case Some(row) =>
        var n := Decimal(digits);
        if row >= |m| || cols < n || cols == 0 then Failure(IndexError)
        else Success(m[row][if n == 0 then cols - 1 else n - 1])
  {
    assert ([u] + digits)[1..] == digits;
    ParseIntUnsigned(digits);
  }

  /** A reference "Xn" (any case) selects well (X, n - 1); "X0" wraps to the
      last column; a letter outside A..Z is a KeyError, and a row or column
      beyond the plate an IndexError. */
  lemma SingleWellOf(m: Plate, cols: nat, cycles: nat, letter: char, digits: string)
    requires Shaped(m, cols, cycles)
    requires letter != ':' && IsNumeral(digits)
    ensures Block(m, cols, cycles, [letter] + digits) ==
      match LetterToNumber(UpperChar(letter))
      case None => Failure(KeyError)
      case Some(row) =>
        var n := Decimal(digits);
        if row >= |m| || cols < n || cols == 0 then Failure(IndexError)
        else Success([m[row][if n == 0 then cols - 1 else n - 1]])
  {
    var ref := [letter] + digits;
    var s := Upper(ref);
    assert s == [UpperChar(letter)] + digits && ':' !in s by {
      forall i | 1 <= i < |s| ensures s[i] == digits[i - 1] {
        assert ref[i] == digits[i - 1];
      }
    }
    var w := SingleWell(m, cols, cycles, s);
    assert Block(m, cols, cycles, ref) == if w.Success? then Success([w.value]) else Failure(w.error);
    SingleWellValue(m, cols, cycles, UpperChar(letter), digits);
  }

  /** References are case-insensitive: "b3" selects what "B3" does. */
  lemma CaseInsensitive(m: Plate, cols: nat, cycles: nat, ref: string)
    requires Shaped(m, cols, cycles)
    ensures Block(m, cols, cycles, ref) == Block(m, cols, cycles, Upper(ref))
  {
    UpperIdempotent(ref);
  }

  // ---------------------------------------------------------------------
  // Ranges.

  /** The first field of `p + q` when `p` holds no ':'. */
  lemma {:induction false} FieldAfter(p: string, q: string)
    requires ':' !in p
    ensures Field(p + q) == p + Field(q)
  {
    if p != [] {
      assert (p + q)[0] == p[0] && (p + q)[1..] == p[1..] + q;
      FieldAfter(p[1..], q);
      assert [p[0]] + (p[1..] + Field(q)) == p + Field(q);
    } else {
      assert p + q == q;
    }
  }

  lemma UpperAppend(a: string, b: string)
    ensures Upper(a + b) == Upper(a) + Upper(b)
  {
  }

  lemma UpperColon(s: string)
    requires ':' !in s
    ensures ':' !in Upper(s)
  {
    forall i | 0 <= i < |s| ensures Upper(s)[i] != ':' {
      assert s[i] != ':';
    }
  }

  /** A range whose upper-cased text splits into the same two leading
      characters of each field selects the same wells. */
  lemma SameBounds(m: Plate, cols: nat, cycles: nat, ref: string, ref': string)
    requires Shaped(m, cols, cycles)
    requires ':' in Upper(ref) && ':' in Upper(ref')
    requires RangeBounds(|m|, cols, Upper(ref)) == RangeBounds(|m|, cols, Upper(ref'))
    ensures Block(m, cols, cycles, ref) == Block(m, cols, cycles, ref')
  {
  }

  /** The bounds depend on the first two characters of each field only. */
  lemma FieldBoundsOfPrefixes(rows: nat, cols: nat, f: string, t: string, f': string, t': string)
    requires |f| >= 2 && |f'| >= 2 && f[..2] == f'[..2]
    requires |t| >= 2 && |t'| >= 2 && t[..2] == t'[..2]
    ensures FieldBounds(rows, cols, f, t) == FieldBounds(rows, cols, f', t')
  {
    assert f[0] == f'[0] && f[1] == f'[1] by { assert f[..2][0] == f[0] && f[..2][1] == f[1]; }
    assert t[0] == t'[0] && t[1] == t'[1] by { assert t[..2][0] == t[0] && t[..2][1] == t[1]; }
  }

  lemma BoundsOfFields(rows: nat, cols: nat, s: string, s': string)
    requires ':' in s && ':' in s'
    requires |Field(s)| >= 2 && |Field(s')| >= 2 && Field(s)[..2] == Field(s')[..2]
    requires |Field(s)| < |s| && |Field(s')| < |s'|
    requires var t, t' := Field(s[|Field(s)| + 1..]), Field(s'[|Field(s')| + 1..]);
      |t| >= 2 && |t'| >= 2 && t[..2] == t'[..2]
    ensures RangeBounds(rows, cols, s) == RangeBounds(rows, cols, s')
  {
    var f, f' := Field(s), Field(s');
    FieldBoundsOfPrefixes(rows, cols, f, Field(s[|f| + 1..]), f', Field(s'[|f'| + 1..]));
  }

  /** A column of a range is read from one character only, and whatever
      follows it up to the next ':' (or after a second ':') is ignored:
      "A10:B12" selects what "A1:B1" does. */
  lemma RangeReadsOneDigit(m: Plate, cols: nat, cycles: nat, a: char, x: char, t0: string, b: char, y: char, t1: string)
    requires Shaped(m, cols, cycles)
    requires a != ':' && x != ':' && b != ':' && y != ':' && ':' !in t0
    ensures Block(m, cols, cycles, [a, x] + t0 + [':', b, y] + t1) == Block(m, cols, cycles, [a, x, ':', b, y])
  {
    var long := [a, x] + t0 + [':', b, y] + t1;
    var short := [a, x, ':', b, y];
    var ua, ux, ub, uy := UpperChar(a), UpperChar(x), UpperChar(b), UpperChar(y);
    var u0, u1 := Upper(t0), Upper(t1);
    UpperColon(t0);
    var s := Upper(long);
    assert s == [ua, ux] + u0 + [':', ub, uy] + u1 by {
      UpperAppend([a, x] + t0 + [':', b, y], t1);
      UpperAppend([a, x] + t0, [':', b, y]);
      UpperAppend([a, x], t0);
    }
    var s' := Upper(short);
    assert s' == [ua, ux] + [':', ub, uy];
    var p := [ua, ux] + u0;
    assert ':' !in p;
    assert s == p + ([':'] + ([ub, uy] + u1));
    FieldAfter(p, [':'] + ([ub, uy] + u1));
    assert Field(s) == p;
    assert s[|p| + 1..] == [ub, uy] + u1;
    FieldAfter([ub, uy], u1);
    FieldAfter([ua, ux], [':', ub, uy]);
    assert Field(s') == [ua, ux];
    assert s'[2 + 1..] == [ub, uy];
    FieldAfter([ub, uy], []);
    assert ':' in s && ':' in s' by {
      assert s[|p|] == ':' && s'[2] == ':';
    }
    assert p[..2] == [ua, ux];
    assert ([ub, uy] + Field(u1))[..2] == [ub, uy];
    assert [ub, uy] + [] == [ub, uy];
    BoundsOfFields(|m|, cols, s, s');
    SameBounds(m, cols, cycles, long, short);
  }

  /** Column "x" of a range is int(x) - 1. */
  lemma ColumnOfDigit(x: char)
    requires IsDigit(x)
    ensures Column([x]) == Success(DigitValue(x) - 1)
  {
    assert Decimal([x]) == DigitValue(x) by {
      assert [x][..0] == [];
    }
    ParseIntUnsigned([x]);
  }

  /** The slice bounds of a range "Aa:Bb" read from its fields. */
  lemma FieldBoundsOfRange(rows: nat, cols: nat, ua: char, x: char, ub: char, y: char, ra: nat, rb: nat)
    requires Row(ua) == Success(ra) && Row(ub) == Success(rb)
    requires IsDigit(x) && IsDigit(y)
    ensures FieldBounds(rows, cols, [ua, x], [ub, y]) ==
      Success((SliceBound(rows, ra), SliceBound(rows, rb + 1),
               SliceBound(cols, DigitValue(x) as int - 1), SliceBound(cols, DigitValue(y))))
  {
    ColumnOfDigit(x);
    ColumnOfDigit(y);
  }

  /** The slice bounds of a range "Aa:Bb" of letters and digits. */
  lemma BoundsOfRange(rows: nat, cols: nat, a: char, x: char, b: char, y: char, ra: nat, rb: nat)
    requires LetterToNumber(UpperChar(a)) == Some(ra) && LetterToNumber(UpperChar(b)) == Some(rb)
    requires IsDigit(x) && IsDigit(y)
    ensures ':' in Upper([a, x, ':', b, y])
    ensures RangeBounds(rows, cols, Upper([a, x, ':', b, y])) ==
      Success((SliceBound(rows, ra), SliceBound(rows, rb + 1),
               SliceBound(cols, DigitValue(x) as int - 1), SliceBound(cols, DigitValue(y))))
  {
    var ua, ub := UpperChar(a), UpperChar(b);
    var s := Upper([a, x, ':', b, y]);
    assert s == [ua, x, ':', ub, y];
    assert ':' in s by { assert s[2] == ':'; }
    assert Field(s) == [ua, x] by {
      assert s == [ua, x] + [':', ub, y];
      FieldAfter([ua, x], [':', ub, y]);
      assert [ua, x] + [] == [ua, x];
    }
    assert Field(s[3..]) == [ub, y] by {
      assert s[3..] == [ub, y] + [];
      FieldAfter([ub, y], []);
    }
    assert RangeBounds(rows, cols, s) == FieldBounds(rows, cols, [ua, x], [ub, y]);
    FieldBoundsOfRange(rows, cols, ua, x, ub, y, ra, rb);
  }

  lemma BlockOfBounds(m: Plate, cols: nat, cycles: nat, ref: string, lo: nat, hi: nat, clo: nat, chi: nat)
    requires Shaped(m, cols, cycles)
    requires ':' in Upper(ref) && RangeBounds(|m|, cols, Upper(ref)) == Success((lo, hi, clo, chi))
    ensures hi <= |m| && clo <= cols && chi <= cols
    ensures Block(m, cols, cycles, ref) == Success(RangeWells(m, cols, lo, hi, clo, chi))
  {
  }

  /** A range "Aa:Bb" of letters and digits, with a <= b within the plate,
      selects rows A through B and columns a through b, both ends included
      (RangeWellsCount and RangeWellsInclusive count and place them). */
  lemma RangeOf(m: Plate, cols: nat, cycles: nat, a: char, x: char, b: char, y: char, ra: nat, rb: nat)
    requires Shaped(m, cols, cycles)
    requires LetterToNumber(UpperChar(a)) == Some(ra) && LetterToNumber(UpperChar(b)) == Some(rb)
    requires IsDigit(x) && IsDigit(y)
    requires ra <= rb < |m| && 1 <= DigitValue(x) <= DigitValue(y) <= cols
    ensures Block(m, cols, cycles, [a, x, ':', b, y]) == Success(RangeWells(m, cols, ra, rb + 1, DigitValue(x) - 1, DigitValue(y)))
  {
    BoundsOfRange(|m|, cols, a, x, b, y, ra, rb);
    BlockOfBounds(m, cols, cycles, [a, x, ':', b, y], ra, rb + 1, DigitValue(x) - 1, DigitValue(y));
  }

  /** Rows ra..rb and columns cx..cy (counted from 1), both inclusive, hold
      (rb - ra + 1) * (cy - cx + 1) wells. */
  lemma RangeWellsCount(m: Plate, cols: nat, ra: nat, rb: nat, cx: nat, cy: nat)
    requires Rectangular(m, cols)
    requires ra <= rb < |m| && 1 <= cx <= cy <= cols
    ensures |RangeWells(m, cols, ra, rb + 1, cx - 1, cy)| == (rb - ra + 1) * (cy - cx + 1)
  {
    assert |RangeWells(m, cols, ra, rb + 1, cx - 1, cy)| == Times(rb - ra + 1, cy - cx + 1) by {
      assert Width(cx - 1, cy) == cy - cx + 1 && rb + 1 - ra == rb - ra + 1;
      RangeWellsLength(m, cols, ra, rb + 1, cx - 1, cy);
    }
    TimesIsProduct(rb - ra + 1, cy - cx + 1);
  }

  /** The same wells are stacked row by row: well (r, c) sits at position
      (r - ra) * (cy - cx + 1) + (c + 1 - cx). */
  lemma RangeWellsInclusive(m: Plate, cols: nat, ra: nat, rb: nat, cx: nat, cy: nat, r: nat, c: nat)
    requires Rectangular(m, cols)
    requires ra <= rb < |m| && 1 <= cx <= cy <= cols
    requires ra <= r <= rb && cx <= c + 1 <= cy
    ensures var i := (r - ra) * (cy - cx + 1) + (c + 1 - cx);
      0 <= i < |RangeWells(m, cols, ra, rb + 1, cx - 1, cy)| && RangeWells(m, cols, ra, rb + 1, cx - 1, cy)[i] == m[r][c]
  {
    var w := cy - cx + 1;
    assert Width(cx - 1, cy) == w && c - (cx - 1) == c + 1 - cx;
    RangeWellsIndex(m, cols, ra, rb + 1, cx - 1, cy, r, c);
  }

  lemma {:induction false} RangeWellsEmpty(m: Plate, cols: nat, lo: nat, hi: nat, clo: nat, chi: nat)
    requires Rectangular(m, cols) && hi <= |m| && clo <= cols && chi <= cols
    requires hi <= lo || chi <= clo
    ensures RangeWells(m, cols, lo, hi, clo, chi) == []
    decreases hi
  {
    if lo < hi {
      RangeWellsEmpty(m, cols, lo, hi - 1, clo, chi);
    }
  }

  /** A range whose end row or end column comes before its start selects no
      well and is not rejected; on its own it yields NaN in every cycle. */
  lemma ReversedRangeEmpty(m: Plate, cols: nat, cycles: nat, a: char, x: char, b: char, y: char, ra: nat, rb: nat)
    requires Shaped(m, cols, cycles)
    requires LetterToNumber(UpperChar(a)) == Some(ra) && LetterToNumber(UpperChar(b)) == Some(rb)
    requires IsDigit(x) && IsDigit(y)
    requires rb < ra || DigitValue(y) < DigitValue(x)
    ensures Block(m, cols, cycles, [a, x, ':', b, y]) == Success([])
    ensures Select(m, cols, cycles, [[a, x, ':', b, y]]) == Success(seq(cycles, _ => None))
  {
    var ref := [a, x, ':', b, y];
    var cx, cy := DigitValue(x), DigitValue(y);
    var lo, hi := SliceBound(|m|, ra), SliceBound(|m|, rb + 1);
    var clo, chi := SliceBound(cols, cx as int - 1), SliceBound(cols, cy);
    BoundsOfRange(|m|, cols, a, x, b, y, ra, rb);
    BlockOfBounds(m, cols, cycles, ref, lo, hi, clo, chi);
    assert hi <= lo || chi <= clo;
    RangeWellsEmpty(m, cols, lo, hi, clo, chi);
    StackOne(m, cols, cycles, ref);
  }

  // ---------------------------------------------------------------------
  // The stack.

  /** Gathering two lists of blocks is gathering each, the one on top of the
      other, or the first error met. */
  lemma {:induction false} GatherConcat(a: seq<Result<seq<Series>, SelectError>>, b: seq<Result<seq<Series>, SelectError>>)
    ensures Gather(a).Failure? ==> Gather(a + b) == Gather(a)
    ensures Gather(a).Success? && Gather(b).Failure? ==> Gather(a + b) == Gather(b)
    ensures Gather(a).Success? && Gather(b).Success? ==> Gather(a + b) == Success(Gather(a).value + Gather(b).value)
  {
    if b == [] {
      assert a + b == a;
      if Gather(a).Success? {
        assert Gather(a).value + [] == Gather(a).value;
      }
    } else {
      var front := b[..|b| - 1];
      assert (a + b)[..|a + b| - 1] == a + front;
      assert (a + b)[|a + b| - 1] == b[|b| - 1];
      GatherConcat(a, front);
      var x, y, z := Gather(a), Gather(front), b[|b| - 1];
      if x.Success? && y.Success? && z.Success? {
        assert x.value + y.value + z.value == x.value + (y.value + z.value);
      }
    }
  }

  lemma GatherOne(x: Result<seq<Series>, SelectError>)
    ensures Gather([x]) == x
  {
    assert [x][..0] == [];
    if x.Success? {
      assert [] + x.value == x.value;
    }
  }

  lemma StackOne(m: Plate, cols: nat, cycles: nat, ref: string)
    requires Shaped(m, cols, cycles)
    ensures Stack(m, cols, cycles, [ref]) == Block(m, cols, cycles, ref)
  {
    assert Blocks(m, cols, cycles, [ref]) == [Block(m, cols, cycles, ref)];
    GatherOne(Block(m, cols, cycles, ref));
  }

  lemma BlocksConcat(m: Plate, cols: nat, cycles: nat, a: seq<string>, b: seq<string>)
    requires Shaped(m, cols, cycles)
    ensures Blocks(m, cols, cycles, a + b) == Blocks(m, cols, cycles, a) + Blocks(m, cols, cycles, b)
  {
  }

  /** Taking the last element off one of two permutations and a matching
      element off the other leaves two permutations. */
  lemma RemoveOne<T>(front: seq<T>, e: T, ys: seq<T>, j: nat)
    requires j < |ys| && ys[j] == e && multiset(front + [e]) == multiset(ys)
    ensures multiset(front) == multiset(ys[..j] + ys[j + 1..])
  {
    var p, q := ys[..j], ys[j + 1..];
    assert ys == p + [e] + q;
    assert multiset(ys) == multiset(p + q) + multiset{e};
    assert multiset(front + [e]) == multiset(front) + multiset{e};
    assert multiset(front) == multiset(front + [e]) - multiset{e};
    assert multiset(p + q) == multiset(ys) - multiset{e};
  }

  /** Reordering the blocks reorders the stack: the same series, each as
      often, and it succeeds whenever the original does. */
  lemma {:induction false} GatherPermutation(bs: seq<Result<seq<Series>, SelectError>>, cs: seq<Result<seq<Series>, SelectError>>)
    requires multiset(bs) == multiset(cs)
    requires Gather(bs).Success?
    ensures Gather(cs).Success?
    ensures multiset(Gather(cs).value) == multiset(Gather(bs).value)
    decreases |bs|
  {
    if bs == [] {
      assert |cs| == |multiset(cs)| == 0;
      assert cs == [];
    } else {
      var e := bs[|bs| - 1];
      var front := bs[..|bs| - 1];
      assert bs == front + [e];
      assert e in multiset(cs);
      var j :| 0 <= j < |cs| && cs[j] == e;
      var p, q := cs[..j], cs[j + 1..];
      assert cs == p + [e] + q;
      RemoveOne(front, e, cs, j);
      GatherPermutation(front, p + q);
      GatherInsert(p, e, q);
      assert Gather(bs).value == Gather(front).value + e.value;
    }
  }

  /** Putting one more block that succeeds among the others adds its series
      to the stack. */
  lemma GatherInsert(p: seq<Result<seq<Series>, SelectError>>, e: Result<seq<Series>, SelectError>, q: seq<Result<seq<Series>, SelectError>>)
    requires Gather(p + q).Success? && e.Success?
    ensures Gather(p + [e] + q).Success?
    ensures multiset(Gather(p + [e] + q).value) == multiset(Gather(p + q).value) + multiset(e.value)
  {
    GatherConcat(p, q);
    GatherConcat(p + [e], q);
    GatherConcat(p, [e]);
    GatherOne(e);
    var sp, se, sq := Gather(p).value, e.value, Gather(q).value;
    assert Gather(p + [e] + q).value == sp + se + sq;
    assert multiset(sp + se + sq) == multiset(sp + sq) + multiset(se);
  }

  /** Reordering the references reorders their blocks. */
  lemma {:induction false} BlocksPermutation(m: Plate, cols: nat, cycles: nat, refs: seq<string>, other: seq<string>)
    requires Shaped(m, cols, cycles)
    requires multiset(refs) == multiset(other)
    ensures multiset(Blocks(m, cols, cycles, refs)) == multiset(Blocks(m, cols, cycles, other))
    decreases |refs|
  {
    if refs == [] {
      assert |other| == |multiset(other)| == 0;
    } else {
      var r := refs[|refs| - 1];
      var front := refs[..|refs| - 1];
      assert refs == front + [r];
      assert r in multiset(other);
      var j :| 0 <= j < |other| && other[j] == r;
      var p, q := other[..j], other[j + 1..];
      assert other == p + [r] + q;
      RemoveOne(front, r, other, j);
      BlocksPermutation(m, cols, cycles, front, p + q);
      BlocksConcat(m, cols, cycles, front, [r]);
      BlocksConcat(m, cols, cycles, p + [r], q);
      BlocksConcat(m, cols, cycles, p, [r]);
      BlocksConcat(m, cols, cycles, p, q);
    }
  }

  /** Reordering the references reorders the stack and keeps its success. */
  lemma StackPermutation(m: Plate, cols: nat, cycles: nat, refs: seq<string>, other: seq<string>)
    requires Shaped(m, cols, cycles)
    requires multiset(refs) == multiset(other)
    requires Stack(m, cols, cycles, refs).Success?
    ensures Stack(m, cols, cycles, other).Success?
    ensures multiset(Stack(m, cols, cycles, other).value) == multiset(Stack(m, cols, cycles, refs).value)
  {
    BlocksPermutation(m, cols, cycles, refs, other);
    GatherPermutation(Blocks(m, cols, cycles, refs), Blocks(m, cols, cycles, other));
  }

  /** Every series of a block that succeeds is on the stack. */
  lemma {:induction false} GatherHolds(bs: seq<Result<seq<Series>, SelectError>>, i: nat, j: nat)
    requires Gather(bs).Success? && i < |bs|
    ensures bs[i].Success?
    ensures j < |bs[i].value| ==> bs[i].value[j] in Gather(bs).value
  {
    var front := bs[..|bs| - 1];
    if i < |bs| - 1 {
      assert front[i] == bs[i];
      GatherHolds(front, i, j);
    }
  }

  // ---------------------------------------------------------------------
  // The mean.

  lemma {:induction false} TotalConcat(x: seq<Series>, y: seq<Series>, cycles: nat, k: nat)
    requires Complete(x, cycles) && Complete(y, cycles) && k < cycles
    ensures Complete(x + y, cycles)
    ensures Total(x + y, cycles, k) == Total(x, cycles, k) + Total(y, cycles, k)
  {
    assert Complete(x + y, cycles) by {
      forall i | 0 <= i < |x + y| ensures |(x + y)[i]| == cycles && forall k' | 0 <= k' < cycles :: (x + y)[i][k'].Some? {
        if i < |x| { assert (x + y)[i] == x[i]; } else { assert (x + y)[i] == y[i - |x|]; }
      }
    }
    if y == [] {
      assert x + y == x;
    } else {
      var front := y[..|y| - 1];
      assert (x + y)[..|x + y| - 1] == x + front;
      assert (x + y)[|x + y| - 1] == y[|y| - 1];
      TotalConcat(x, front, cycles, k);
    }
  }

  lemma TotalOfOne(w: Series, cycles: nat, k: nat)
    requires |w| == cycles && (forall k' | 0 <= k' < cycles :: w[k'].Some?) && k < cycles
    ensures Complete([w], cycles)
    ensures Total([w], cycles, k) == w[k].value
  {
    assert [w][..0] == [];
  }

  /** The sum at a cycle does not depend on the order of the stack. */
  lemma {:induction false} TotalPermutation(x: seq<Series>, y: seq<Series>, cycles: nat, k: nat)
    requires Complete(x, cycles) && Complete(y, cycles) && k < cycles
    requires multiset(x) == multiset(y)
    ensures Total(x, cycles, k) == Total(y, cycles, k)
    decreases |x|
  {
    if x == [] {
      assert |y| == |multiset(y)| == 0;
      assert y == [];
    } else {
      var e := x[|x| - 1];
      var front := x[..|x| - 1];
      assert x == front + [e];
      assert e in multiset(y);
      var j :| 0 <= j < |y| && y[j] == e;
      var p, q := y[..j], y[j + 1..];
      RemoveOne(front, e, y, j);
      assert y == p + [e] + q;
      TotalInsert(p, e, q, cycles, k);
      assert Complete(front, cycles) by {
        assert forall i | 0 <= i < |front| :: front[i] == x[i];
      }
      TotalPermutation(front, p + q, cycles, k);
    }
  }

  /** Putting one more complete well among the others adds its reading to
      the sum. */
  lemma TotalInsert(p: seq<Series>, e: Series, q: seq<Series>, cycles: nat, k: nat)
    requires Complete(p + [e] + q, cycles) && k < cycles
    ensures Complete(p + q, cycles) && |e| == cycles && e[k].Some?
    ensures Total(p + [e] + q, cycles, k) == Total(p + q, cycles, k) + e[k].value
  {
    var all := p + [e] + q;
    assert all[|p|] == e;
    assert Complete(p, cycles) && Complete(q, cycles) by {
      assert forall i | 0 <= i < |p| :: p[i] == all[i];
      assert forall i | 0 <= i < |q| :: q[i] == all[|p| + 1 + i];
    }
    TotalOfOne(e, cycles, k);
    TotalConcat(p, q, cycles, k);
    TotalConcat(p, [e], cycles, k);
    TotalConcat(p + [e], q, cycles, k);
  }

  /** Missing readings do not depend on the order of the stack either. */
  lemma MissingPermutation(x: seq<Series>, y: seq<Series>)
    requires multiset(x) == multiset(y)
    ensures HasMissing(x) <==> HasMissing(y)
  {
    if HasMissing(x) {
      var i, k :| 0 <= i < |x| && 0 <= k < |x[i]| && x[i][k].None?;
      assert x[i] in multiset(y);
      var j :| 0 <= j < |y| && y[j] == x[i];
    }
    if HasMissing(y) {
      var i, k :| 0 <= i < |y| && 0 <= k < |y[i]| && y[i][k].None?;
      assert y[i] in multiset(x);
      var j :| 0 <= j < |x| && x[j] == y[i];
    }
  }

  lemma SameSelection(m: Plate, cols: nat, cycles: nat, refs: seq<string>, other: seq<string>)
    requires Shaped(m, cols, cycles)
    requires multiset(refs) == multiset(other)
    requires Stack(m, cols, cycles, refs).Success?
    ensures Select(m, cols, cycles, other) == Select(m, cols, cycles, refs)
  {
    StackPermutation(m, cols, cycles, refs, other);
    var x, y := Stack(m, cols, cycles, refs).value, Stack(m, cols, cycles, other).value;
    MissingPermutation(x, y);
    if !HasMissing(x) {
      StackShaped(m, cols, cycles, refs);
      StackShaped(m, cols, cycles, other);
      assert |x| == |multiset(x)| == |multiset(y)| == |y|;
      forall k | 0 <= k < cycles ensures Total(x, cycles, k) == Total(y, cycles, k) {
        TotalPermutation(x, y, cycles, k);
      }
      assert Average(x, cycles) == Average(y, cycles);
    }
  }

  /** The selection does not depend on the order of the references: a
      reordering fails exactly when the original does, and when every
      reference can be selected it gives the same mean (or the same refusal
      of a missing reading). */
  lemma SelectPermutation(m: Plate, cols: nat, cycles: nat, refs: seq<string>, other: seq<string>)
    requires Shaped(m, cols, cycles)
    requires multiset(refs) == multiset(other)
    ensures Select(m, cols, cycles, other).Success? <==> Select(m, cols, cycles, refs).Success?
    ensures Stack(m, cols, cycles, refs).Success? ==> Select(m, cols, cycles, other) == Select(m, cols, cycles, refs)
  {
    if Stack(m, cols, cycles, refs).Success? {
      SameSelection(m, cols, cycles, refs, other);
    } else if Stack(m, cols, cycles, other).Success? {
      SameSelection(m, cols, cycles, other, refs);
    }
  }

  /** The selection of a stack that holds complete wells. */
  lemma SelectOfWells(m: Plate, cols: nat, cycles: nat, refs: seq<string>, wells: seq<Series>)
    requires Shaped(m, cols, cycles)
    requires Stack(m, cols, cycles, refs) == Success(wells) && Complete(wells, cycles)
    ensures Select(m, cols, cycles, refs) == Success(Average(wells, cycles))
  {
  }

  /** One reference naming one complete well yields that well's readings. */
  lemma SelectOfOne(m: Plate, cols: nat, cycles: nat, ref: string, w: Series)
    requires Shaped(m, cols, cycles)
    requires Block(m, cols, cycles, ref) == Success([w])
    requires forall k | 0 <= k < |w| :: w[k].Some?
    ensures Select(m, cols, cycles, [ref]) == Success(w)
  {
    StackOne(m, cols, cycles, ref);
    BlockShaped(m, cols, cycles, ref);
    assert |[w][0]| == cycles;
    assert Complete([w], cycles);
    SelectOfWells(m, cols, cycles, [ref], [w]);
    forall k | 0 <= k < cycles ensures Average([w], cycles)[k] == w[k] {
      TotalOfOne(w, cycles, k);
    }
    assert Average([w], cycles) == w;
  }

  /** A well named twice counts twice: the mean of "a, a, b" weighs a's
      readings 2/3 and b's 1/3. */
  lemma DuplicatesWeighted(m: Plate, cols: nat, cycles: nat, a: string, b: string, s: Series, t: Series)
    requires Shaped(m, cols, cycles)
    requires Block(m, cols, cycles, a) == Success([s]) && Block(m, cols, cycles, b) == Success([t])
    requires forall k | 0 <= k < |s| :: s[k].Some?
    requires forall k | 0 <= k < |t| :: t[k].Some?
    ensures |s| == cycles && |t| == cycles
    ensures Select(m, cols, cycles, [a, a, b]) ==
      Success(seq(cycles, k requires 0 <= k < cycles => Some((2.0 * s[k].value + t[k].value) / 3.0)))
  {
    BlockShaped(m, cols, cycles, a);
    BlockShaped(m, cols, cycles, b);
    assert |[s][0]| == cycles && |[t][0]| == cycles;
    StackOfThree(m, cols, cycles, a, b, s, t);
    AverageOfThree(s, t, cycles);
    SelectOfWells(m, cols, cycles, [a, a, b], [s, s, t]);
  }

  lemma AverageOfThree(s: Series, t: Series, cycles: nat)
    requires |s| == cycles && |t| == cycles
    requires forall k | 0 <= k < cycles :: s[k].Some? && t[k].Some?
    ensures Complete([s, s, t], cycles)
    ensures Average([s, s, t], cycles) ==
      seq(cycles, k requires 0 <= k < cycles => Some((2.0 * s[k].value + t[k].value) / 3.0))
  {
    var wells := [s, s, t];
    assert Complete(wells, cycles);
    forall k | 0 <= k < cycles
      ensures Total(wells, cycles, k) == 2.0 * s[k].value + t[k].value
    {
      TotalOfOne(s, cycles, k);
      assert [s, s][..1] == [s];
      assert Complete([s, s], cycles);
      assert Total([s, s], cycles, k) == s[k].value + s[k].value;
      assert wells[..2] == [s, s];
    }
    assert |wells| as real == 3.0;
  }

  lemma GatherOfThree(x: seq<Series>, y: seq<Series>, z: seq<Series>)
    ensures Gather([Success(x), Success(y), Success(z)]) == Success(x + y + z)
  {
    var bs := [Success(x), Success(y), Success(z)];
    var b1, b2 := bs[..1], bs[..2];
    assert Gather(b1) == Success(x) by {
      assert b1 == [Success(x)];
      GatherOne(Success(x));
    }
    assert Gather(b2) == Success(x + y) by {
      assert b2[..1] == b1 && b2[1] == Success(y);
    }
    assert bs[..2] == b2 && bs[2] == Success(z);
  }

  lemma BlocksOfThree(m: Plate, cols: nat, cycles: nat, a: string, b: string, c: string)
    requires Shaped(m, cols, cycles)
    ensures Blocks(m, cols, cycles, [a, b, c]) == [Block(m, cols, cycles, a), Block(m, cols, cycles, b), Block(m, cols, cycles, c)]
  {
    var refs := [a, b, c];
    var bs := Blocks(m, cols, cycles, refs);
    assert bs[0] == Block(m, cols, cycles, refs[0]);
    assert bs[1] == Block(m, cols, cycles, refs[1]);
    assert bs[2] == Block(m, cols, cycles, refs[2]);
  }

  lemma StackOfThree(m: Plate, cols: nat, cycles: nat, a: string, b: string, s: Series, t: Series)
    requires Shaped(m, cols, cycles)
    requires Block(m, cols, cycles, a) == Success([s]) && Block(m, cols, cycles, b) == Success([t])
    ensures Stack(m, cols, cycles, [a, a, b]) == Success([s, s, t])
  {
    BlocksOfThree(m, cols, cycles, a, a, b);
    GatherOfThree([s], [s], [t]);
    assert [s] + [s] + [t] == [s, s, t];
  }

  /** There is no partial mean: a missing reading in any selected well
      refuses the whole selection. */
  lemma MissingRejected(m: Plate, cols: nat, cycles: nat, refs: seq<string>, i: nat, j: nat, k: nat)
    requires Shaped(m, cols, cycles)
    requires Stack(m, cols, cycles, refs).Success?
    requires i < |refs| && Block(m, cols, cycles, refs[i]).Success?
    requires j < |Block(m, cols, cycles, refs[i]).value| && k < |Block(m, cols, cycles, refs[i]).value[j]|
    requires Block(m, cols, cycles, refs[i]).value[j][k].None?
    ensures Select(m, cols, cycles, refs) == Failure(MissingReading)
  {
    var bs := Blocks(m, cols, cycles, refs);
    assert bs[i] == Block(m, cols, cycles, refs[i]);
    GatherHolds(bs, i, j);
    var wells := Stack(m, cols, cycles, refs).value;
    var n :| 0 <= n < |wells| && wells[n] == bs[i].value[j];
    assert wells[n][k].None?;
  }

  // ---------------------------------------------------------------------
  // The plate a loaded assay hands over.

  /** The reshaped readings of a loaded assay have one row per plate row,
      `cols` wells in each and one reading per cycle in each well: the
      shape `parse_wells` selects from. */
  lemma LoadedPlateShaped(a: PlateReader.Assay)
    requires a.Valid()
    ensures |a.Matrix()| == a.rows && Shaped(a.Matrix(), a.cols, a.cycles)
  {
  }
}
