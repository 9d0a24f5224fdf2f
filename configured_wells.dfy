/** What the fitter schema's well-reference pattern guarantees to the well
    selection: a reference the schema accepts never names a missing row
    letter or an unreadable column, so selecting it can only fail because the
    plate is too small; an accepted range never fails at all. */
module ConfiguredWells {
  import opened Common
  import opened Text
  import opened WellSelection
  import opened WellProperties
  import ConfigSchema

  /** An upper-case letter is its own upper case and has a row number. */
  lemma UpperLetterRow(ch: char)
    requires IsUpper(ch)
    ensures UpperChar(ch) == ch && LetterToNumber(ch).Some?
  {
  }

  /** An accepted single reference "Xn" selects a well or is an IndexError. */
  lemma AcceptedSingle(m: Plate, cols: nat, cycles: nat, ref: string)
    requires Shaped(m, cols, cycles) && ConfigSchema.WellPart(ref)
    ensures ':' !in ref
    ensures Block(m, cols, cycles, ref).Success? || Block(m, cols, cycles, ref) == Failure(IndexError)
  {
    var letter, digits := ref[0], ref[1..];
    assert ref == [letter] + digits;
    UpperLetterRow(letter);
    SingleWellOf(m, cols, cycles, letter, digits);
    assert ':' !in ref by {
      forall i | 1 <= i < |ref| ensures ref[i] != ':' {
        assert ref[i] == digits[i - 1];
      }
    }
  }

  /** The newline the pattern's `$` lets through is white space to int(). */
  lemma SingleNewline(m: Plate, cols: nat, cycles: nat, ref: string)
    requires Shaped(m, cols, cycles) && ConfigSchema.WellPart(ref)
    ensures ':' !in ref + "\n"
    ensures Block(m, cols, cycles, ref + "\n") == Block(m, cols, cycles, ref)
  {
    AcceptedSingle(m, cols, cycles, ref);
    var t := ref + "\n";
    assert ':' !in t by {
      forall i | 0 <= i < |t| ensures t[i] != ':' {
        if i < |ref| { assert t[i] == ref[i]; }
      }
    }
    var digits := ref[1..];
    assert Upper(ref) == ref && Upper(t) == t by {
      UpperLetterRow(ref[0]);
      assert forall i | 1 <= i < |ref| :: ref[i] == digits[i - 1];
      UpperAppend(ref, "\n");
    }
    assert t[1..] == [] + (digits + "\n");
    ParseIntPadded([], digits, "\n");
  }

  /** An accepted range "Xa:Yb", with anything after it, is read from its
      letters and first digits and always selects its wells. */
  lemma AcceptedRange(m: Plate, cols: nat, cycles: nat, p: string, q: string, tail: string)
    requires Shaped(m, cols, cycles) && ConfigSchema.WellPart(p) && ConfigSchema.WellPart(q)
    ensures Block(m, cols, cycles, p + ":" + q + tail) == Block(m, cols, cycles, [p[0], p[1], ':', q[0], q[1]])
    ensures Block(m, cols, cycles, p + ":" + q + tail).Success?
  {
    var a, x, b, y := p[0], p[1], q[0], q[1];
    assert p == [a, x] + p[2..] && q == [b, y] + q[2..];
    assert p + ":" + q + tail == [a, x] + p[2..] + [':', b, y] + (q[2..] + tail);
    assert ':' !in p[2..] by {
      forall i | 0 <= i < |p[2..]| ensures p[2..][i] != ':' {
        assert p[2..][i] == p[1..][i + 1];
      }
    }
    assert IsDigit(x) && IsDigit(y) by {
      assert x == p[1..][0] && y == q[1..][0];
    }
    RangeReadsOneDigit(m, cols, cycles, a, x, p[2..], b, y, q[2..] + tail);
    UpperLetterRow(a);
    UpperLetterRow(b);
    var ra, rb := LetterToNumber(a).value, LetterToNumber(b).value;
    BoundsOfRange(|m|, cols, a, x, b, y, ra, rb);
  }

  /** A range reference as the pattern splits it, "Xa:Yb" at `i`. */
  lemma SplitRange(m: Plate, cols: nat, cycles: nat, ref: string, i: nat, tail: string)
    requires Shaped(m, cols, cycles)
    requires i < |ref| && ref[i] == ':' && ConfigSchema.WellPart(ref[..i]) && ConfigSchema.WellPart(ref[i + 1..])
    ensures Block(m, cols, cycles, ref + tail).Success?
  {
    assert ref + tail == ref[..i] + ":" + ref[i + 1..] + tail;
    AcceptedRange(m, cols, cycles, ref[..i], ref[i + 1..], tail);
  }

  /** Every reference the schema accepts is read without a KeyError or a
      ValueError; an accepted range never fails. */
  lemma AcceptedReference(m: Plate, cols: nat, cycles: nat, ref: string)
    requires Shaped(m, cols, cycles) && ConfigSchema.WellRefValid(ref)
    ensures Block(m, cols, cycles, ref).Success? || Block(m, cols, cycles, ref) == Failure(IndexError)
    ensures ':' in ref ==> Block(m, cols, cycles, ref).Success?
  {
    if ConfigSchema.WellPart(ref) {
      AcceptedSingle(m, cols, cycles, ref);
    } else if ConfigSchema.WellPattern(ref) {
      var i :| 0 <= i < |ref| && ref[i] == ':' && ConfigSchema.WellPart(ref[..i]) && ConfigSchema.WellPart(ref[i + 1..]);
      SplitRange(m, cols, cycles, ref, i, []);
      assert ref + [] == ref;
    } else {
      var s := ref[..|ref| - 1];
      assert ref == s + "\n";
      if ConfigSchema.WellPart(s) {
        SingleNewline(m, cols, cycles, s);
        AcceptedSingle(m, cols, cycles, s);
      } else {
        var i :| 0 <= i < |s| && s[i] == ':' && ConfigSchema.WellPart(s[..i]) && ConfigSchema.WellPart(s[i + 1..]);
        SplitRange(m, cols, cycles, s, i, "\n");
      }
    }
  }

  /** Gathering blocks that are each a success or an IndexError gives a
      success or an IndexError. */
  lemma {:induction false} GatherOnlyIndexErrors(bs: seq<Result<seq<Series>, SelectError>>)
    requires forall i | 0 <= i < |bs| :: bs[i].Success? || bs[i] == Failure(IndexError)
    ensures Gather(bs).Success? || Gather(bs) == Failure(IndexError)
    decreases |bs|
  {
    if bs != [] {
      GatherOnlyIndexErrors(bs[..|bs| - 1]);
    }
  }

  /** A list of well references the schema accepts selects a mean, a
      MissingReading or an IndexError; never a KeyError or ValueError. */
  lemma AcceptedList(m: Plate, cols: nat, cycles: nat, v: ConfigSchema.Yaml)
    requires Shaped(m, cols, cycles) && ConfigSchema.WellList(v)
    ensures var refs := seq(|v.items|, i requires 0 <= i < |v.items| => v.items[i].s);
      var r := Select(m, cols, cycles, refs);
      r.Success? || r == Failure(MissingReading) || r == Failure(IndexError)
  {
    var refs := seq(|v.items|, i requires 0 <= i < |v.items| => v.items[i].s);
    var bs := Blocks(m, cols, cycles, refs);
    forall i | 0 <= i < |bs| ensures bs[i].Success? || bs[i] == Failure(IndexError) {
      AcceptedReference(m, cols, cycles, refs[i]);
    }
    GatherOnlyIndexErrors(bs);
  }
}
