/** The cycle-time header of a plate-reader export, such as
    "Cycle 3 (1 h 2 min 3 s)", read as a whole number of seconds.

    The source tries two regular expressions with `re.match` (anchored at the
    start only):
      pattern 1   Cycle (\d+) \((\d+)(?: h)?(?: (\d+) min)?(?: (\d+) s)?\)
      pattern 2   Cycle (\d+) \((\d+) min(?: (\d+) s)?\)
    and returns nothing when neither matches. Both are written here as
    deterministic left-to-right parsers. Greedy choices never need undoing in
    these patterns: a digit run is always followed by a required non-digit,
    and every optional group starts with a space followed by a digit or by a
    fixed letter that no later part of the pattern can start with, so the
    backtracking matcher and the greedy parser accept the same strings with
    the same groups. */
module CycleTime {
  import opened Common
  import opened Text

  /** Removes the literal `lit` from the front of `s`, character by
      character. */
  function Literal(s: string, lit: string): Option<string>
  {
    if lit == [] then Some(s)
    else if s != [] && s[0] == lit[0] then Literal(s[1..], lit[1..])
    else None
  }

  /** `(\d+)`: the greedy digit run at the front of `s`, its value (Python's
      `int` of the group) and what follows it. */
  function Number(s: string): Option<(nat, string)>
  {
    var n := DigitRun(s);
    if n == 0 then None else Some((Decimal(s[..n]), s[n..]))
  }

  /** `(?: lit)?` */
  function Skip(s: string, lit: string): string
  {
    var r := Literal(s, lit);
    if r.Some? then r.value else s
  }

  /** `(?: (\d+)<unit>)?` with `unit` one of " min" and " s": the group's
      number, 0 when the group is absent, and what follows. */
  function Group(s: string, unit: string): (nat, string)
  {
    var afterSpace := Literal(s, " ");
    if afterSpace.None? then (0, s) else
    var number := Number(afterSpace.value);
    if number.None? then (0, s) else
    var afterUnit := Literal(number.value.1, unit);
    if afterUnit.None? then (0, s) else (number.value.0, afterUnit.value)
  }

  /** `Cycle (\d+) \(`, common to both patterns: what follows the opening
      parenthesis. The cycle number is read and dropped. */
  function Opening(s: string): Option<string>
  {
    var afterWord :- Literal(s, "Cycle ");
    var cycle :- Number(afterWord);
    Literal(cycle.1, " (")
  }

  /** Pattern 1: the leading number is hours whether or not " h" follows it;
      absent minutes and seconds count as 0. */
  function MatchHms(s: string): Option<nat>
  {
    var afterParen :- Opening(s);
    var hours :- Number(afterParen);
    HmsRest(hours.0, hours.1)
  }

  /** Pattern 1 after the hours: `(?: h)?(?: (\d+) min)?(?: (\d+) s)?\)`. */
  function HmsRest(hours: nat, s: string): Option<nat>
  {
    var minutes := Group(Skip(s, " h"), " min");
    var seconds := Group(minutes.1, " s");
    var tail :- Literal(seconds.1, ")");
    Some(3600 * hours + 60 * minutes.0 + seconds.0)
  }

  /** Pattern 2: minutes are mandatory, seconds optional. */
  function MatchMs(s: string): Option<nat>
  {
    var afterParen :- Opening(s);
    var minutes :- Number(afterParen);
    MsRest(minutes.0, minutes.1)
  }

  /** Pattern 2 after the minutes: ` min(?: (\d+) s)?\)`. */
  function MsRest(minutes: nat, s: string): Option<nat>
  {
    var afterMin :- Literal(s, " min");
    var seconds := Group(afterMin, " s");
    var tail :- Literal(seconds.1, ")");
    Some(60 * minutes + seconds.0)
  }

  /** `parse_time`: pattern 2 is tried only when pattern 1 fails; None when
      both fail (the source prints a message and returns None). */
  function ParseTime(s: string): Option<nat>
  {
    var first := MatchHms(s);
    if first.Some? then first else MatchMs(s)
  }

  // ---------------------------------------------------------------------
  // The headers the instrument writes, and what they parse to.

  /** " <digits><unit>" when present, "" when absent. */
  function GroupText(d: Option<string>, unit: string): string
  {
    if d.Some? then " " + (d.value + unit) else ""
  }

  /** The value of an optional numeral, 0 when absent. */
  function GroupValue(d: Option<string>): nat
  {
    if d.Some? then Decimal(d.value) else 0
  }

  /** "Cycle <n> (<H>[ h][ <M> min][ <S> s])" followed by arbitrary text. */
  function HmsText(cd: string, hd: string, hUnit: bool, md: Option<string>, sd: Option<string>, tail: string): string
  {
    "Cycle " + (cd + (" (" + (hd + ((if hUnit then " h" else "") +
      (GroupText(md, " min") + (GroupText(sd, " s") + (")" + tail)))))))
  }

  /** "Cycle <n> (<M> min[ <S> s])" followed by arbitrary text. */
  function MsText(cd: string, md: string, sd: Option<string>, tail: string): string
  {
    "Cycle " + (cd + (" (" + (md + (" min" + (GroupText(sd, " s") + (")" + tail))))))
  }

  lemma {:induction false} LiteralOf(lit: string, rest: string)
    ensures Literal(lit + rest, lit) == Some(rest)
  {
    if lit != [] {
      assert (lit + rest)[0] == lit[0];
      assert (lit + rest)[1..] == lit[1..] + rest;
      LiteralOf(lit[1..], rest);
    } else {
      assert lit + rest == rest;
    }
  }

  /** A literal fails to match at the first character that differs. */
  lemma {:induction false} LiteralMismatch(s: string, lit: string, i: nat)
    requires i < |lit| && (i >= |s| || s[i] != lit[i])
    requires forall j :: 0 <= j < i && j < |s| ==> s[j] == lit[j]
    ensures Literal(s, lit) == None
  {
    if i > 0 && s != [] {
      LiteralMismatch(s[1..], lit[1..], i - 1);
    }
  }

  lemma {:induction false} NumberOf(d: string, rest: string)
    requires IsNumeral(d)
    requires rest == [] || !IsDigit(rest[0])
    ensures Number(d + rest) == Some((Decimal(d), rest))
  {
    DigitRunOfNumeral(d, rest);
    assert (d + rest)[..|d|] == d;
    assert (d + rest)[|d|..] == rest;
  }

  /** A group that is present yields its number. */
  lemma GroupPresent(d: string, unit: string, rest: string)
    requires IsNumeral(d)
    requires unit == " min" || unit == " s"
    ensures Group(" " + (d + (unit + rest)), unit) == (Decimal(d), rest)
  {
    LiteralOf(" ", d + (unit + rest));
    NumberOf(d, unit + rest);
    LiteralOf(unit, rest);
  }

  /** A group is absent when the text does not start with a space. */
  lemma GroupAbsentNoSpace(s: string, unit: string)
    requires s == [] || s[0] != ' '
    ensures Group(s, unit) == (0, s)
  {
    LiteralMismatch(s, " ", 0);
  }

  /** A group is absent when its number is followed by something other
      than its unit. */
  lemma GroupAbsentOtherUnit(d: string, rest: string, unit: string)
    requires IsNumeral(d)
    requires rest == [] || !IsDigit(rest[0])
    requires Literal(rest, unit) == None
    ensures Group(" " + (d + rest), unit) == (0, " " + (d + rest))
  {
    LiteralOf(" ", d + rest);
    NumberOf(d, rest);
  }

  /** The seconds group, present or absent, then the closing parenthesis. */
  lemma SecondsThenClose(sd: Option<string>, tail: string)
    requires sd.Some? ==> IsNumeral(sd.value)
    ensures Group(GroupText(sd, " s") + (")" + tail), " s") == (GroupValue(sd), ")" + tail)
  {
    if sd.Some? {
      assert GroupText(sd, " s") + (")" + tail) == " " + (sd.value + (" s" + (")" + tail)));
      GroupPresent(sd.value, " s", ")" + tail);
    } else {
      assert GroupText(sd, " s") + (")" + tail) == ")" + tail;
      GroupAbsentNoSpace(")" + tail, " s");
    }
  }

  /** The minutes group, present or absent, before the seconds group. */
  lemma MinutesThenRest(md: Option<string>, sd: Option<string>, tail: string)
    requires md.Some? ==> IsNumeral(md.value)
    requires sd.Some? ==> IsNumeral(sd.value)
    ensures Group(GroupText(md, " min") + (GroupText(sd, " s") + (")" + tail)), " min")
         == (GroupValue(md), GroupText(sd, " s") + (")" + tail))
  {
    var after := GroupText(sd, " s") + (")" + tail);
    if md.Some? {
      assert GroupText(md, " min") + after == " " + (md.value + (" min" + after));
      GroupPresent(md.value, " min", after);
    } else {
      assert GroupText(md, " min") + after == after;
      if sd.Some? {
        var rest := " s" + (")" + tail);
        assert after == " " + (sd.value + rest);
        LiteralMismatch(rest, " min", 1);
        GroupAbsentOtherUnit(sd.value, rest, " min");
      } else {
        assert after == ")" + tail;
        GroupAbsentNoSpace(after, " min");
      }
    }
  }

  /** What follows the hours (after an optional " h") never starts with a
      digit, and " h" does not match it. */
  lemma GroupsStart(md: Option<string>, sd: Option<string>, tail: string)
    requires md.Some? ==> IsNumeral(md.value)
    requires sd.Some? ==> IsNumeral(sd.value)
    ensures GroupText(md, " min") + (GroupText(sd, " s") + (")" + tail)) != []
    ensures !IsDigit((GroupText(md, " min") + (GroupText(sd, " s") + (")" + tail)))[0])
    ensures Literal(GroupText(md, " min") + (GroupText(sd, " s") + (")" + tail)), " h") == None
  {
    var g := GroupText(md, " min") + (GroupText(sd, " s") + (")" + tail));
    if md.Some? {
      GroupTextThen(md.value, " min", GroupText(sd, " s") + (")" + tail));
      assert g[1] == md.value[0];
      LiteralMismatch(g, " h", 1);
    } else if sd.Some? {
      GroupTextThen(sd.value, " s", ")" + tail);
      assert g[1] == sd.value[0];
      LiteralMismatch(g, " h", 1);
    } else {
      assert g == ")" + tail;
      LiteralMismatch(g, " h", 0);
    }
  }

  lemma {:induction false} OpeningOf(cd: string, rest: string)
    requires IsNumeral(cd)
    ensures Opening("Cycle " + (cd + (" (" + rest))) == Some(rest)
  {
    LiteralOf("Cycle ", cd + (" (" + rest));
    NumberOf(cd, " (" + rest);
    LiteralOf(" (", rest);
  }

  /** Pattern 1 after the hours of a first-form header. */
  lemma HmsRestOf(hours: nat, hUnit: bool, md: Option<string>, sd: Option<string>, tail: string)
    requires md.Some? ==> IsNumeral(md.value)
    requires sd.Some? ==> IsNumeral(sd.value)
    ensures HmsRest(hours, (if hUnit then " h" else "") + (GroupText(md, " min") + (GroupText(sd, " s") + (")" + tail))))
         == Some(3600 * hours + 60 * GroupValue(md) + GroupValue(sd))
  {
    var groups := GroupText(md, " min") + (GroupText(sd, " s") + (")" + tail));
    var s := (if hUnit then " h" else "") + groups;
    assert Skip(s, " h") == groups by {
      if hUnit {
        LiteralOf(" h", groups);
      } else {
        GroupsStart(md, sd, tail);
        assert s == groups;
      }
    }
    MinutesThenRest(md, sd, tail);
    var afterMinutes := GroupText(sd, " s") + (")" + tail);
    assert Group(groups, " min") == (GroupValue(md), afterMinutes);
    SecondsThenClose(sd, tail);
    assert Group(afterMinutes, " s") == (GroupValue(sd), ")" + tail);
    LiteralOf(")", tail);
  }

  /** Both patterns read the cycle number, then the first number after the
      parenthesis, identically; they differ only in what follows it. */
  lemma {:induction false} FirstNumberOf(cd: string, nd: string, rest: string)
    requires IsNumeral(cd) && IsNumeral(nd)
    requires rest == [] || !IsDigit(rest[0])
    ensures MatchHms("Cycle " + (cd + (" (" + (nd + rest)))) == HmsRest(Decimal(nd), rest)
    ensures MatchMs("Cycle " + (cd + (" (" + (nd + rest)))) == MsRest(Decimal(nd), rest)
  {
    OpeningOf(cd, nd + rest);
    NumberOf(nd, rest);
  }

  /** Pattern 1 on a header of the first form: 3600*H + 60*M + S, whatever
      the cycle number, whether or not " h" is written, whatever follows
      the closing parenthesis; an absent M or S counts as 0. */
  lemma {:induction false} HmsTextParses(cd: string, hd: string, hUnit: bool, md: Option<string>, sd: Option<string>, tail: string)
    requires IsNumeral(cd) && IsNumeral(hd)
    requires md.Some? ==> IsNumeral(md.value)
    requires sd.Some? ==> IsNumeral(sd.value)
    ensures ParseTime(HmsText(cd, hd, hUnit, md, sd, tail)) == Some(3600 * Decimal(hd) + 60 * GroupValue(md) + GroupValue(sd))
  {
    var groups := GroupText(md, " min") + (GroupText(sd, " s") + (")" + tail));
    var afterHours := (if hUnit then " h" else "") + groups;
    GroupsStart(md, sd, tail);
    assert afterHours != [] && !IsDigit(afterHours[0]) by {
      if hUnit { assert afterHours[0] == ' '; } else { assert afterHours == groups; }
    }
    FirstNumberOf(cd, hd, afterHours);
    HmsRestOf(Decimal(hd), hUnit, md, sd, tail);
  }

  /** After the first number, a unit other than " h" leaves pattern 1 with
      no closing parenthesis. */
  lemma UnitStopsPatternOne(n: nat, rest: string)
    requires |rest| >= 2 && rest[0] == ' ' && rest[1] != 'h' && !IsDigit(rest[1])
    ensures HmsRest(n, rest) == None
  {
    LiteralMismatch(rest, " h", 1);
    assert " " + rest[1..] == rest;
    LiteralOf(" ", rest[1..]);
    assert rest[1..][0] == rest[1];
    assert Number(rest[1..]) == None;
    LiteralMismatch(rest, ")", 0);
  }

  /** Pattern 2 after the minutes of a second-form header. */
  lemma MsRestOf(minutes: nat, sd: Option<string>, tail: string)
    requires sd.Some? ==> IsNumeral(sd.value)
    ensures MsRest(minutes, " min" + (GroupText(sd, " s") + (")" + tail))) == Some(60 * minutes + GroupValue(sd))
  {
    LiteralOf(" min", GroupText(sd, " s") + (")" + tail));
    SecondsThenClose(sd, tail);
    LiteralOf(")", tail);
  }

  /** Pattern 2 on a header of the second form, after pattern 1 fails on
      it: 60*M + S, S optional. */
  lemma {:induction false} MsTextParses(cd: string, md: string, sd: Option<string>, tail: string)
    requires IsNumeral(cd) && IsNumeral(md)
    requires sd.Some? ==> IsNumeral(sd.value)
    ensures ParseTime(MsText(cd, md, sd, tail)) == Some(60 * Decimal(md) + GroupValue(sd))
  {
    var afterNumber := " min" + (GroupText(sd, " s") + (")" + tail));
    assert afterNumber[0] == ' ' && afterNumber[1] == 'm';
    FirstNumberOf(cd, md, afterNumber);
    UnitStopsPatternOne(Decimal(md), afterNumber);
    MsRestOf(Decimal(md), sd, tail);
    assert MsText(cd, md, sd, tail) == "Cycle " + (cd + (" (" + (md + afterNumber)));
  }

  /** A seconds-only header, "Cycle <n> (<S> s)", matches neither pattern. */
  lemma {:induction false} SecondsOnlyFails(cd: string, sd: string, tail: string)
    requires IsNumeral(cd) && IsNumeral(sd)
    ensures ParseTime("Cycle " + (cd + (" (" + (sd + (" s)" + tail))))) == None
  {
    var afterNumber := " s)" + tail;
    FirstNumberOf(cd, sd, afterNumber);
    UnitStopsPatternOne(Decimal(sd), afterNumber);
    LiteralMismatch(afterNumber, " min", 1);
  }

  /** The cycle number is read and dropped: replacing it changes nothing. */
  lemma {:induction false} CycleNumberIgnored(d1: string, d2: string, rest: string)
    requires IsNumeral(d1) && IsNumeral(d2)
    ensures ParseTime("Cycle " + (d1 + (" (" + rest))) == ParseTime("Cycle " + (d2 + (" (" + rest)))
  {
    OpeningOf(d1, rest);
    OpeningOf(d2, rest);
  }

  // ---------------------------------------------------------------------
  // Only headers of the two forms parse.

  /** `s` is a first-form header, "Cycle <n> (<H>[ h][ <M> min][ <S> s])"
      followed by any text, worth `v` seconds. */
  ghost predicate HmsHeader(s: string, v: nat)
  {
    exists cd: string, hd: string, hUnit: bool, md: Option<string>, sd: Option<string>, tail: string ::
      IsNumeral(cd) && IsNumeral(hd) && (md.Some? ==> IsNumeral(md.value)) && (sd.Some? ==> IsNumeral(sd.value)) &&
      s == HmsText(cd, hd, hUnit, md, sd, tail) && v == 3600 * Decimal(hd) + 60 * GroupValue(md) + GroupValue(sd)
  }

  /** `s` is a second-form header, "Cycle <n> (<M> min[ <S> s])" followed
      by any text, worth `v` seconds. */
  ghost predicate MsHeader(s: string, v: nat)
  {
    exists cd: string, md: string, sd: Option<string>, tail: string ::
      IsNumeral(cd) && IsNumeral(md) && (sd.Some? ==> IsNumeral(sd.value)) &&
      s == MsText(cd, md, sd, tail) && v == 60 * Decimal(md) + GroupValue(sd)
  }

  /** What a literal match removes is the literal itself. */
  lemma {:induction false} LiteralPrefix(s: string, lit: string)
    requires Literal(s, lit).Some?
    ensures s == lit + Literal(s, lit).value
  {
    if lit != [] {
      LiteralPrefix(s[1..], lit[1..]);
      assert s == [lit[0]] + s[1..];
      assert lit == [lit[0]] + lit[1..];
    }
  }

  /** A number is read from the numeral at the front of the text. */
  lemma NumberPrefix(s: string)
    requires Number(s).Some?
    ensures IsNumeral(s[..DigitRun(s)])
    ensures s == s[..DigitRun(s)] + Number(s).value.1 && Number(s).value.0 == Decimal(s[..DigitRun(s)])
  {
    DigitRunMaximal(s);
  }

  /** An optional literal, present or not, followed by what is left. */
  lemma SkipPrefix(s: string, lit: string)
    ensures s == (if Literal(s, lit).Some? then lit else "") + Skip(s, lit)
  {
    if Literal(s, lit).Some? {
      LiteralPrefix(s, lit);
    }
  }

  /** A group that is present: a space, a numeral and the unit. */
  lemma GroupPresentPrefix(s: string, unit: string) returns (digits: string)
    requires Literal(s, " ").Some? && Number(Literal(s, " ").value).Some?
    requires Literal(Number(Literal(s, " ").value).value.1, unit).Some?
    ensures IsNumeral(digits)
    ensures s == GroupText(Some(digits), unit) + Group(s, unit).1 && Group(s, unit).0 == Decimal(digits)
  {
    var afterSpace := Literal(s, " ").value;
    var number := Number(afterSpace).value;
    var afterUnit := Literal(number.1, unit).value;
    assert Group(s, unit) == (number.0, afterUnit);
    LiteralPrefix(s, " ");
    NumberPrefix(afterSpace);
    LiteralPrefix(number.1, unit);
    digits := afterSpace[..DigitRun(afterSpace)];
    assert s == " " + (digits + (unit + afterUnit));
    GroupTextThen(digits, unit, afterUnit);
  }

  lemma GroupTextThen(digits: string, unit: string, rest: string)
    ensures GroupText(Some(digits), unit) + rest == " " + (digits + (unit + rest))
  {
    assert (" " + (digits + unit)) + rest == " " + ((digits + unit) + rest);
  }

  /** An optional group, present or absent, followed by what is left. */
  lemma GroupPrefix(s: string, unit: string) returns (d: Option<string>)
    ensures d.Some? ==> IsNumeral(d.value)
    ensures s == GroupText(d, unit) + Group(s, unit).1 && Group(s, unit).0 == GroupValue(d)
  {
    if Literal(s, " ").Some? && Number(Literal(s, " ").value).Some? &&
       Literal(Number(Literal(s, " ").value).value.1, unit).Some?
    {
      var digits := GroupPresentPrefix(s, unit);
      d := Some(digits);
    } else {
      d := None;
      assert Group(s, unit) == (0, s);
      assert s == "" + s;
    }
  }

  /** The common opening of both patterns, with the cycle number it read. */
  lemma OpeningPrefix(s: string) returns (cd: string)
    requires Opening(s).Some?
    ensures IsNumeral(cd) && s == "Cycle " + (cd + (" (" + Opening(s).value))
  {
    var a1 := Literal(s, "Cycle ").value;
    LiteralPrefix(s, "Cycle ");
    NumberPrefix(a1);
    var a2 := Number(a1).value.1;
    cd := a1[..DigitRun(a1)];
    LiteralPrefix(a2, " (");
  }

  /** Pattern 1 after the hours matches only an optional " h", the two
      optional groups and the closing parenthesis. */
  lemma HmsRestPrefix(hours: nat, a: string) returns (hUnit: bool, md: Option<string>, sd: Option<string>, tail: string)
    requires HmsRest(hours, a).Some?
    ensures (md.Some? ==> IsNumeral(md.value)) && (sd.Some? ==> IsNumeral(sd.value))
    ensures a == (if hUnit then " h" else "") + (GroupText(md, " min") + (GroupText(sd, " s") + (")" + tail)))
    ensures HmsRest(hours, a).value == 3600 * hours + 60 * GroupValue(md) + GroupValue(sd)
  {
    hUnit := Literal(a, " h").Some?;
    SkipPrefix(a, " h");
    var b1 := Skip(a, " h");
    md := GroupPrefix(b1, " min");
    var b2 := Group(b1, " min").1;
    sd := GroupPrefix(b2, " s");
    var b3 := Group(b2, " s").1;
    LiteralPrefix(b3, ")");
    tail := Literal(b3, ")").value;
  }

  /** Pattern 2 after the minutes matches only " min", the optional seconds
      group and the closing parenthesis. */
  lemma MsRestPrefix(minutes: nat, a: string) returns (sd: Option<string>, tail: string)
    requires MsRest(minutes, a).Some?
    ensures sd.Some? ==> IsNumeral(sd.value)
    ensures a == " min" + (GroupText(sd, " s") + (")" + tail))
    ensures MsRest(minutes, a).value == 60 * minutes + GroupValue(sd)
  {
    LiteralPrefix(a, " min");
    var b1 := Literal(a, " min").value;
    sd := GroupPrefix(b1, " s");
    var b2 := Group(b1, " s").1;
    LiteralPrefix(b2, ")");
    tail := Literal(b2, ")").value;
  }

  /** Pattern 1 matches only first-form headers, and yields their value. */
  lemma MatchHmsForm(s: string)
    requires MatchHms(s).Some?
    ensures HmsHeader(s, MatchHms(s).value)
  {
    var a3 := Opening(s).value;
    var cd := OpeningPrefix(s);
    NumberPrefix(a3);
    var hd, a4 := a3[..DigitRun(a3)], Number(a3).value.1;
    assert HmsRest(Decimal(hd), a4) == MatchHms(s);
    var hUnit, md, sd, tail := HmsRestPrefix(Decimal(hd), a4);
    assert s == HmsText(cd, hd, hUnit, md, sd, tail);
  }

  /** Pattern 2 matches only second-form headers, and yields their value. */
  lemma MatchMsForm(s: string)
    requires MatchMs(s).Some?
    ensures MsHeader(s, MatchMs(s).value)
  {
    var a3 := Opening(s).value;
    var cd := OpeningPrefix(s);
    NumberPrefix(a3);
    var md, a4 := a3[..DigitRun(a3)], Number(a3).value.1;
    assert MsRest(Decimal(md), a4) == MatchMs(s);
    var sd, tail := MsRestPrefix(Decimal(md), a4);
    assert s == MsText(cd, md, sd, tail);
  }

  /** A first-form header parses to its value. */
  lemma HmsHeaderParses(s: string, v: nat)
    requires HmsHeader(s, v)
    ensures ParseTime(s) == Some(v)
  {
    var cd: string, hd: string, hUnit: bool, md: Option<string>, sd: Option<string>, tail: string :|
      IsNumeral(cd) && IsNumeral(hd) && (md.Some? ==> IsNumeral(md.value)) && (sd.Some? ==> IsNumeral(sd.value)) &&
      s == HmsText(cd, hd, hUnit, md, sd, tail) && v == 3600 * Decimal(hd) + 60 * GroupValue(md) + GroupValue(sd);
    HmsTextParses(cd, hd, hUnit, md, sd, tail);
  }

  /** A second-form header parses to its value. */
  lemma MsHeaderParses(s: string, v: nat)
    requires MsHeader(s, v)
    ensures ParseTime(s) == Some(v)
  {
    var cd: string, md: string, sd: Option<string>, tail: string :|
      IsNumeral(cd) && IsNumeral(md) && (sd.Some? ==> IsNumeral(sd.value)) &&
      s == MsText(cd, md, sd, tail) && v == 60 * Decimal(md) + GroupValue(sd);
    MsTextParses(cd, md, sd, tail);
  }

  /** `parse_time` yields `v` exactly for the headers of the two forms worth
      `v` seconds. */
  lemma ParseTimeExactly(s: string, v: nat)
    ensures ParseTime(s) == Some(v) <==> HmsHeader(s, v) || MsHeader(s, v)
  {
    if ParseTime(s) == Some(v) {
      if MatchHms(s).Some? {
        MatchHmsForm(s);
      } else {
        MatchMsForm(s);
      }
    }
    if HmsHeader(s, v) {
      HmsHeaderParses(s, v);
    }
    if MsHeader(s, v) {
      MsHeaderParses(s, v);
    }
  }

  /** Any other text gives None: the source's print path. */
  lemma ParseTimeNone(s: string)
    ensures ParseTime(s).None? <==> forall v: nat :: !HmsHeader(s, v) && !MsHeader(s, v)
  {
    forall v: nat ensures ParseTime(s) == Some(v) <==> HmsHeader(s, v) || MsHeader(s, v) {
      ParseTimeExactly(s, v);
    }
  }

  // The examples below hold for every cycle number and every text after the
  // closing parenthesis.

  lemma FullText(cd: string, tail: string)
    ensures HmsText(cd, "1", true, Some("2"), Some("3"), tail) == "Cycle " + (cd + (" (1 h 2 min 3 s)" + tail))
  {
    assert GroupText(Some("2"), " min") == " 2 min";
    assert GroupText(Some("3"), " s") == " 3 s";
    assert " (" + ("1" + (" h" + (" 2 min" + (" 3 s" + (")" + tail))))) == " (1 h 2 min 3 s)" + tail;
  }

  lemma ExampleFull(cd: string, tail: string)
    requires IsNumeral(cd)
    ensures ParseTime("Cycle " + (cd + (" (1 h 2 min 3 s)" + tail))) == Some(3723)
  {
    FullText(cd, tail);
    assert 3600 * Decimal("1") + 60 * GroupValue(Some("2")) + GroupValue(Some("3")) == 3723 by {
      assert Decimal("1") == 1 && Decimal("2") == 2 && Decimal("3") == 3;
    }
    HmsTextParses(cd, "1", true, Some("2"), Some("3"), tail);
  }

  /** Hours are taken from the first number even without " h". */
  lemma ExampleBareHours(cd: string, tail: string)
    requires IsNumeral(cd)
    ensures ParseTime("Cycle " + (cd + (" (5)" + tail))) == Some(18000)
  {
    HmsTextParses(cd, "5", false, None, None, tail);
    assert " (" + ("5" + ("" + ("" + ("" + (")" + tail))))) == " (5)" + tail;
  }

  lemma ExampleMinutesSeconds(cd: string, tail: string)
    requires IsNumeral(cd)
    ensures ParseTime("Cycle " + (cd + (" (4 min 5 s)" + tail))) == Some(245)
  {
    assert MsText(cd, "4", Some("5"), tail) == "Cycle " + (cd + (" (4 min 5 s)" + tail)) by {
      assert GroupText(Some("5"), " s") == " 5 s";
      assert " (" + ("4" + (" min" + (" 5 s" + (")" + tail)))) == " (4 min 5 s)" + tail;
    }
    assert 60 * Decimal("4") + GroupValue(Some("5")) == 245 by {
      assert Decimal("4") == 4 && Decimal("5") == 5;
    }
    MsTextParses(cd, "4", Some("5"), tail);
  }

  lemma ExampleMinutes(cd: string, tail: string)
    requires IsNumeral(cd)
    ensures ParseTime("Cycle " + (cd + (" (2 min)" + tail))) == Some(120)
  {
    MsTextParses(cd, "2", None, tail);
    assert " (" + ("2" + (" min" + ("" + (")" + tail)))) == " (2 min)" + tail;
  }

  /** A header carrying seconds only is not recognised. */
  lemma ExampleSecondsOnly(cd: string, tail: string)
    requires IsNumeral(cd)
    ensures ParseTime("Cycle " + (cd + (" (30 s)" + tail))) == None
  {
    SecondsOnlyFails(cd, "30", tail);
    assert " (" + ("30" + (" s)" + tail)) == " (30 s)" + tail;
  }
}
