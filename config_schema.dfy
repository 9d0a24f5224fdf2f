/** The configuration schemas: which YAML documents are accepted before an
    assay is loaded and a model fitted. Each schema is a predicate over the
    loaded document. A `Use(float)` field also has the value the schema
    coerces it to, although the program goes on with the document as
    loaded. */
module ConfigSchema {
  import opened Common
  import opened Text

  /** A loaded YAML value. A mapping keeps its entries in document order. */
  datatype Yaml =
    | Null
    | Bool(b: bool)
    | Int(i: int)
    | Float(f: real)
    | Str(s: string)
    | List(items: seq<Yaml>)
    | Dict(entries: seq<(Yaml, Yaml)>)

  // ---------------------------------------------------------------------
  // Python's type tests and conversions.

  /** `isinstance(v, int)`: a bool is an int in Python. */
  predicate IsInt(v: Yaml) { v.Int? || v.Bool? }

  /** `isinstance(v, float) or isinstance(v, int)`. */
  predicate IsNumber(v: Yaml) { v.Int? || v.Bool? || v.Float? }

  predicate EndsWith(s: string, suffix: string)
  {
    |suffix| <= |s| && s[|s| - |suffix|..] == suffix
  }

  function Pow10(n: nat): (p: nat)
    ensures p >= 1
  {
    if n == 0 then 1 else 10 * Pow10(n - 1)
  }

  /** The value of the decimal numeral `whole` "." `frac`. */
  function Fixed(whole: string, frac: string): real
  {
    Decimal(whole) as real + Decimal(frac) as real / Pow10(|frac|) as real
  }

  /** The value of a decimal mantissa "d", "d.", "d.f" or ".f" that makes up
      all of `m`, with at least one digit. */
  function Mantissa(m: string): Option<real>
  {
    var n := DigitRun(m);
    var whole := m[..n];
    if n == |m| then (if n == 0 then None else Some(Decimal(whole) as real))
    else if m[n] != '.' then None
    else
      var frac := m[n + 1..];
      if !AllDigits(frac) || (n == 0 && frac == []) then None
      else Some(Fixed(whole, frac))
  }

  /** The index of the first 'e' or 'E' in `s`, or |s|. */
  function ExponentMark(s: string): (i: nat)
    ensures i <= |s|
    ensures forall j | 0 <= j < i :: s[j] != 'e' && s[j] != 'E'
    ensures i < |s| ==> s[i] == 'e' || s[i] == 'E'
  {
    if s == [] || s[0] == 'e' || s[0] == 'E' then 0 else 1 + ExponentMark(s[1..])
  }

  /** `m` times ten to the power `e`. */
  function Shift(m: real, e: int): real
  {
    if e >= 0 then m * Pow10(e) as real else m / Pow10(-e) as real
  }

  /** The unsigned value of a mantissa with an optional exponent, which
      has its own sign. */
  function Magnitude(body: string): Option<real>
  {
    var e := ExponentMark(body);
    var mantissa :- Mantissa(body[..e]);
    if e == |body| then Some(mantissa)
    else
      var (down, digits) := Unsigned(body[e + 1..]);
      if !IsNumeral(digits) then None
      else Some(Shift(mantissa, if down then -(Decimal(digits) as int) else Decimal(digits)))
  }

  /** Python's `float(s)` on decimal text: surrounding white space, a sign
      and the magnitude. */
  function ParseFloat(s: string): Option<real>
  {
    var (negative, body) := Unsigned(Strip(s));
    var magnitude :- Magnitude(body);
    Some(if negative then -magnitude else magnitude)
  }

  /** `float(v)`, which `Use(float)` applies: numbers and bools convert,
      decimal text is parsed, anything else raises. */
  function ToFloat(v: Yaml): Option<real>
  {
    match v
    case Int(i) => Some(i as real)
    case Bool(b) => Some(if b then 1.0 else 0.0)
    case Float(f) => Some(f)
    case Str(s) => ParseFloat(s)
    case _ => None
  }

  // ---------------------------------------------------------------------
  // Mappings.

  /** A mapping whose keys are exactly the given strings: a missing key and
      a key the schema does not name are both errors. */
  predicate ExactKeys(v: Yaml, keys: set<string>)
  {
    v.Dict? &&
    (forall i | 0 <= i < |v.entries| :: v.entries[i].0.Str? && v.entries[i].0.s in keys) &&
    (forall k | k in keys :: exists i | 0 <= i < |v.entries| :: v.entries[i].0 == Str(k))
  }

  /** Every entry's value passes the check its key selects. */
  predicate EachField(v: Yaml, check: (string, Yaml) -> bool)
    requires v.Dict?
  {
    forall i | 0 <= i < |v.entries| :: v.entries[i].0.Str? && check(v.entries[i].0.s, v.entries[i].1)
  }

  /** A loaded mapping holds each key once: the loader keeps one entry per
      key. */
  predicate UniqueKeys(v: Yaml)
  {
    v.Dict? && forall i, j | 0 <= i < j < |v.entries| :: v.entries[i].0 != v.entries[j].0
  }

  /** The keys of a mapping. */
  function KeySet(v: Yaml): set<Yaml>
    requires v.Dict?
  {
    set i | 0 <= i < |v.entries| :: v.entries[i].0
  }

  /** The keys a schema names, as YAML strings. */
  function Named(keys: set<string>): set<Yaml>
  {
    set k | k in keys :: Str(k)
  }

  /** The value of the first entry keyed `k`, Null when there is none. */
  function Find(entries: seq<(Yaml, Yaml)>, k: string): Yaml
  {
    if entries == [] then Null
    else if entries[0].0 == Str(k) then entries[0].1
    else Find(entries[1..], k)
  }

  /** `v[k]`: the value under the key `k`. */
  function Get(v: Yaml, k: string): Yaml
  {
    if v.Dict? then Find(v.entries, k) else Null
  }

  const AssayKeys: set<string> := {"file_path", "cols", "rows"}
  const ParamKeys: set<string> := {"init_guess", "max", "min"}
  const ModelKeys: set<string> := {"func_path", "parameters", "y0", "max_value"}
  const IntegrationKeys: set<string> := {"atol", "rtol", "method"}
  const FitterKeys: set<string> := {"data_wells", "control_wells"}
  const ConfigKeys: set<string> := {"title", "assay", "model", "integration", "fitter"}

  // ---------------------------------------------------------------------
  // The schemas.

  predicate AssayField(key: string, v: Yaml)
  {
    if key == "file_path" then v.Str? && EndsWith(v.s, ".xls")
    else if key == "cols" || key == "rows" then IsInt(v)
    else false
  }

  /** `assay_schema`. */
  predicate AssayValid(v: Yaml)
  {
    ExactKeys(v, AssayKeys) && EachField(v, AssayField)
  }

  predicate ParamField(key: string, v: Yaml)
  {
    ToFloat(v).Some?
  }

  /** `param_schema`: the three bounds of one parameter, each coerced to a
      float; nothing relates them to each other. */
  predicate ParamValid(v: Yaml)
  {
    ExactKeys(v, ParamKeys) && EachField(v, ParamField)
  }

  /** What `param_schema` returns: the same keys, every value converted. */
  function CoerceParam(v: Yaml): (r: Option<Yaml>)
    ensures r.Some? <==> ParamValid(v)
    ensures r.Some? ==> (
      r.value.Dict? && |r.value.entries| == |v.entries| &&
      forall i | 0 <= i < |v.entries| ::
        r.value.entries[i].0 == v.entries[i].0 && ToFloat(v.entries[i].1).Some? &&
        r.value.entries[i].1 == Float(ToFloat(v.entries[i].1).value))
  {
    if !ParamValid(v) then None
    else Some(Dict(seq(|v.entries|, i requires 0 <= i < |v.entries| =>
      (v.entries[i].0, Float(ToFloat(v.entries[i].1).value)))))
  }

  predicate ParametersField(key: string, v: Yaml)
  {
    ParamValid(v)
  }

  /** `parameters_schema`: any string names a parameter. The key `str` is
      not optional, so at least one parameter must be given. */
  predicate ParametersValid(v: Yaml)
  {
    v.Dict? && |v.entries| >= 1 && EachField(v, ParametersField)
  }

  predicate ModelField(key: string, v: Yaml)
  {
    if key == "func_path" then v.Str? && EndsWith(v.s, ".py")
    else if key == "parameters" then ParametersValid(v)
    else if key == "y0" then v.List? && forall i | 0 <= i < |v.items| :: IsNumber(v.items[i])
    else if key == "max_value" then ToFloat(v).Some?
    else false
  }

  /** `model_schema`. */
  predicate ModelValid(v: Yaml)
  {
    ExactKeys(v, ModelKeys) && EachField(v, ModelField)
  }

  predicate IntegrationField(key: string, v: Yaml)
  {
    if key == "atol" || key == "rtol" then ToFloat(v).Some?
    else if key == "method" then v.Str?
    else false
  }

  /** `integration_schema`: the method is any string here. */
  predicate IntegrationValid(v: Yaml)
  {
    ExactKeys(v, IntegrationKeys) && EachField(v, IntegrationField)
  }

  /** One upper-case letter and one or two digits. */
  predicate WellPart(s: string)
  {
    2 <= |s| <= 3 && IsUpper(s[0]) && AllDigits(s[1..])
  }

  /** The whole of `s` is "Xn" or "Xn:Ym". */
  predicate WellPattern(s: string)
  {
    WellPart(s) || exists i | 0 <= i < |s| :: s[i] == ':' && WellPart(s[..i]) && WellPart(s[i + 1..])
  }

  /** The well-reference regular expression, anchored with `^` and `$`;
      Python's `$` also matches just before a final newline. */
  predicate WellRefValid(s: string)
  {
    WellPattern(s) || (s != [] && s[|s| - 1] == '\n' && WellPattern(s[..|s| - 1]))
  }

  predicate WellList(v: Yaml)
  {
    v.List? && forall i | 0 <= i < |v.items| :: v.items[i].Str? && WellRefValid(v.items[i].s)
  }

  predicate FitterField(key: string, v: Yaml)
  {
    if key == "data_wells" || key == "control_wells" then WellList(v) else false
  }

  /** `fitter_schema`. */
  predicate FitterValid(v: Yaml)
  {
    ExactKeys(v, FitterKeys) && EachField(v, FitterField)
  }

  predicate ConfigField(key: string, v: Yaml)
  {
    if key == "title" then v.Str?
    else if key == "assay" then AssayValid(v)
    else if key == "model" then ModelValid(v)
    else if key == "integration" then IntegrationValid(v)
    else if key == "fitter" then FitterValid(v)
    else false
  }

  /** `config_schema`: the whole configuration document. */
  predicate ConfigValid(v: Yaml)
  {
    ExactKeys(v, ConfigKeys) && EachField(v, ConfigField)
  }

  // ---------------------------------------------------------------------
  // Numbers written as text.

  lemma ParseFloatOf(s: string, negative: bool, body: string)
    requires Unsigned(Strip(s)) == (negative, body) && Magnitude(body).Some?
    ensures ParseFloat(s) == Some(if negative then -Magnitude(body).value else Magnitude(body).value)
  {
  }

  /** Without an exponent the magnitude is the mantissa. */
  lemma MagnitudePlain(body: string)
    requires ExponentMark(body) == |body|
    ensures Magnitude(body) == Mantissa(body)
  {
    assert body[..|body|] == body;
  }

  /** A negative exponent divides the mantissa. */
  lemma MagnitudeScaledDown(body: string, e: nat, digits: string)
    requires e == ExponentMark(body) && e < |body| && Mantissa(body[..e]).Some?
    requires Unsigned(body[e + 1..]) == (true, digits) && IsNumeral(digits)
    ensures Magnitude(body) == Some(Shift(Mantissa(body[..e]).value, -(Decimal(digits) as int)))
  {
  }

  lemma MantissaOfNumeral(d: string)
    requires IsNumeral(d)
    ensures Mantissa(d) == Some(Decimal(d) as real)
  {
    DigitRunOfNumeral(d, []);
    assert d + [] == d;
  }

  lemma MantissaOfFraction(d: string, f: string)
    requires IsNumeral(d) && AllDigits(f)
    ensures Mantissa(d + "." + f) == Some(Fixed(d, f))
  {
    var m := d + "." + f;
    var n := DigitRun(m);
    assert n == |d| by {
      assert m == d + ("." + f);
      DigitRunOfNumeral(d, "." + f);
    }
    assert m[..n] == d && m[n] == '.' && m[n + 1..] == f;
  }

  lemma ExponentMarkOfNumeral(d: string, rest: string)
    requires AllDigits(d)
    ensures ExponentMark(d + rest) == |d| + ExponentMark(rest)
    decreases |d|
  {
    if d != [] {
      assert (d + rest)[0] == d[0] && (d + rest)[1..] == d[1..] + rest;
      ExponentMarkOfNumeral(d[1..], rest);
    } else {
      assert d + rest == rest;
    }
  }

  lemma ExponentMarkNone(d: string)
    requires AllDigits(d)
    ensures ExponentMark(d) == |d|
  {
    ExponentMarkOfNumeral(d, []);
    assert d + [] == d;
  }

  lemma MagnitudeOfNumeral(d: string)
    requires IsNumeral(d)
    ensures Magnitude(d) == Some(Decimal(d) as real)
  {
    ExponentMarkNone(d);
    MagnitudePlain(d);
    MantissaOfNumeral(d);
  }

  /** float("n") == n for a numeral. */
  lemma ParseFloatNumeral(d: string)
    requires IsNumeral(d)
    ensures ParseFloat(d) == Some(Decimal(d) as real)
  {
    assert Unsigned(Strip(d)) == (false, d) by { StripBare(d); }
    MagnitudeOfNumeral(d);
    ParseFloatOf(d, false, d);
  }

  lemma NegativeText(d: string)
    requires IsNumeral(d)
    ensures Unsigned(Strip("-" + d)) == (true, d)
  {
    var t := "-" + d;
    assert t[0] == '-' && t[|t| - 1] == d[|d| - 1];
    StripBare(t);
    assert t[1..] == d;
  }

  /** float("-n") == -n. */
  lemma ParseFloatNegative(d: string)
    requires IsNumeral(d)
    ensures ParseFloat("-" + d) == Some(-(Decimal(d) as real))
  {
    var t := "-" + d;
    NegativeText(d);
    MagnitudeOfNumeral(d);
    ParseFloatOf(t, true, d);
  }

  /** float("n.f") == n + f / 10^|f|. */
  lemma ParseFloatFraction(d: string, f: string)
    requires IsNumeral(d) && AllDigits(f)
    ensures ParseFloat(d + "." + f) == Some(Fixed(d, f))
  {
    var t := d + "." + f;
    assert Unsigned(Strip(t)) == (false, t) by {
      assert t[0] == d[0];
      assert !IsSpace(t[|t| - 1]) by {
        if f == [] { assert t[|t| - 1] == '.'; } else { assert t[|t| - 1] == f[|f| - 1]; }
      }
      StripBare(t);
    }
    assert Magnitude(t) == Some(Fixed(d, f)) by {
      assert ExponentMark(t) == |t| by {
        assert t == d + ("." + f);
        ExponentMarkOfNumeral(d, "." + f);
        assert ("." + f)[1..] == f;
        ExponentMarkNone(f);
      }
      MagnitudePlain(t);
      MantissaOfFraction(d, f);
    }
    ParseFloatOf(t, false, t);
  }

  lemma ExponentParts(d: string, k: string)
    requires AllDigits(d)
    ensures ExponentMark(d + "e-" + k) == |d|
    ensures (d + "e-" + k)[..|d|] == d
    ensures Unsigned((d + "e-" + k)[|d| + 1..]) == (true, k)
  {
    var t := d + "e-" + k;
    assert t == d + ("e-" + k);
    ExponentMarkOfNumeral(d, "e-" + k);
    assert t[|d| + 1..] == "-" + k;
    assert ("-" + k)[1..] == k;
  }

  lemma MagnitudeOfExponent(d: string, k: string)
    requires IsNumeral(d) && IsNumeral(k)
    ensures Magnitude(d + "e-" + k) == Some(Shift(Decimal(d) as real, -(Decimal(k) as int)))
  {
    var t := d + "e-" + k;
    ExponentParts(d, k);
    MantissaOfNumeral(d);
    MagnitudeScaledDown(t, |d|, k);
  }

  /** float("ne-k") == n / 10^k: PyYAML reads "1e-6" without a dot as text,
      and `Use(float)` still converts it. */
  lemma ParseFloatExponent(d: string, k: string)
    requires IsNumeral(d) && IsNumeral(k)
    ensures ParseFloat(d + "e-" + k) == Some(Shift(Decimal(d) as real, -(Decimal(k) as int)))
  {
    var t := d + "e-" + k;
    assert Unsigned(Strip(t)) == (false, t) by {
      assert t[0] == d[0] && t[|t| - 1] == k[|k| - 1];
      StripBare(t);
    }
    MagnitudeOfExponent(d, k);
    ParseFloatOf(t, false, t);
  }

  // ---------------------------------------------------------------------
  // What each schema accepts.

  /** An entry's value is what a lookup of its key finds, when no earlier
      entry has that key. */
  lemma {:induction false} FindAt(entries: seq<(Yaml, Yaml)>, k: string, i: nat)
    requires i < |entries| && entries[i].0 == Str(k)
    requires forall j | 0 <= j < i :: entries[j].0 != Str(k)
    ensures Find(entries, k) == entries[i].1
  {
    if i > 0 {
      assert entries[0].0 != Str(k);
      assert forall j | 0 <= j < i - 1 :: entries[1..][j] == entries[j + 1];
      FindAt(entries[1..], k, i - 1);
    }
  }

  /** `ExactKeys` says that the mapping's keys are exactly the named ones:
      none is missing and there is no other. */
  lemma ExactKeysMeans(v: Yaml, keys: set<string>)
    requires v.Dict?
    ensures ExactKeys(v, keys) <==> KeySet(v) == Named(keys)
  {
    if KeySet(v) == Named(keys) {
      forall i | 0 <= i < |v.entries| ensures v.entries[i].0.Str? && v.entries[i].0.s in keys {
        assert v.entries[i].0 in KeySet(v);
      }
      forall k | k in keys ensures exists i | 0 <= i < |v.entries| :: v.entries[i].0 == Str(k) {
        assert Str(k) in Named(keys);
      }
    }
    if ExactKeys(v, keys) {
      forall x | x in KeySet(v) ensures x in Named(keys) {
        var i :| 0 <= i < |v.entries| && v.entries[i].0 == x;
        assert x == Str(x.s);
      }
      forall x | x in Named(keys) ensures x in KeySet(v) {
        var k :| k in keys && x == Str(k);
        var i :| 0 <= i < |v.entries| && v.entries[i].0 == Str(k);
      }
    }
  }

  /** A key that a section's schema does not name makes that section
      fail. */
  lemma UnlistedKeyRefused(v: Yaml, key: Yaml)
    requires v.Dict? && key in KeySet(v)
    ensures key !in Named(AssayKeys) ==> !AssayValid(v)
    ensures key !in Named(ParamKeys) ==> !ParamValid(v)
    ensures key !in Named(ModelKeys) ==> !ModelValid(v)
    ensures key !in Named(IntegrationKeys) ==> !IntegrationValid(v)
    ensures key !in Named(FitterKeys) ==> !FitterValid(v)
    ensures key !in Named(ConfigKeys) ==> !ConfigValid(v)
  {
    ExactKeysMeans(v, AssayKeys);
    ExactKeysMeans(v, ParamKeys);
    ExactKeysMeans(v, ModelKeys);
    ExactKeysMeans(v, IntegrationKeys);
    ExactKeysMeans(v, FitterKeys);
    ExactKeysMeans(v, ConfigKeys);
  }

  /** A key that a section's schema names may not be left out. */
  lemma MissingKeyRefused(v: Yaml, k: string)
    requires v.Dict? && Str(k) !in KeySet(v)
    ensures k in AssayKeys ==> !AssayValid(v)
    ensures k in ParamKeys ==> !ParamValid(v)
    ensures k in ModelKeys ==> !ModelValid(v)
    ensures k in IntegrationKeys ==> !IntegrationValid(v)
    ensures k in FitterKeys ==> !FitterValid(v)
    ensures k in ConfigKeys ==> !ConfigValid(v)
  {
    ExactKeysMeans(v, AssayKeys);
    ExactKeysMeans(v, ParamKeys);
    ExactKeysMeans(v, ModelKeys);
    ExactKeysMeans(v, IntegrationKeys);
    ExactKeysMeans(v, FitterKeys);
    ExactKeysMeans(v, ConfigKeys);
  }

  /** Every entry of `v` is an entry of `w`. */
  lemma EntriesIncluded(v: Yaml, w: Yaml)
    requires v.Dict? && w.Dict? && multiset(v.entries) == multiset(w.entries)
    ensures forall i | 0 <= i < |v.entries| :: v.entries[i] in w.entries
  {
    forall i | 0 <= i < |v.entries| ensures v.entries[i] in w.entries {
      assert v.entries[i] in multiset(v.entries);
    }
  }

  lemma KeySetIncluded(v: Yaml, w: Yaml)
    requires v.Dict? && w.Dict? && multiset(v.entries) == multiset(w.entries)
    ensures KeySet(v) <= KeySet(w)
  {
    EntriesIncluded(v, w);
    forall x | x in KeySet(v) ensures x in KeySet(w) {
      var i :| 0 <= i < |v.entries| && v.entries[i].0 == x;
      var j :| 0 <= j < |w.entries| && w.entries[j] == v.entries[i];
    }
  }

  lemma EachFieldIncluded(v: Yaml, w: Yaml, check: (string, Yaml) -> bool)
    requires v.Dict? && w.Dict? && multiset(v.entries) == multiset(w.entries)
    requires EachField(w, check)
    ensures EachField(v, check)
  {
    EntriesIncluded(v, w);
    forall i | 0 <= i < |v.entries| ensures v.entries[i].0.Str? && check(v.entries[i].0.s, v.entries[i].1) {
      var j :| 0 <= j < |w.entries| && w.entries[j] == v.entries[i];
    }
  }

  /** Reordering a mapping's entries changes neither its keys nor what its
      fields pass. */
  lemma Reordered(v: Yaml, w: Yaml, keys: set<string>, check: (string, Yaml) -> bool)
    requires v.Dict? && w.Dict? && multiset(v.entries) == multiset(w.entries)
    ensures ExactKeys(v, keys) == ExactKeys(w, keys)
    ensures EachField(v, check) == EachField(w, check)
  {
    KeySetIncluded(v, w);
    KeySetIncluded(w, v);
    ExactKeysMeans(v, keys);
    ExactKeysMeans(w, keys);
    if EachField(w, check) { EachFieldIncluded(v, w, check); }
    if EachField(v, check) { EachFieldIncluded(w, v, check); }
  }

  /** The order of a mapping's entries matters to no schema. */
  lemma OrderIrrelevant(v: Yaml, w: Yaml)
    requires v.Dict? && w.Dict? && multiset(v.entries) == multiset(w.entries)
    ensures AssayValid(v) == AssayValid(w) && ParamValid(v) == ParamValid(w)
    ensures ParametersValid(v) == ParametersValid(w) && ModelValid(v) == ModelValid(w)
    ensures IntegrationValid(v) == IntegrationValid(w) && FitterValid(v) == FitterValid(w)
    ensures ConfigValid(v) == ConfigValid(w)
  {
    Reordered(v, w, AssayKeys, AssayField);
    Reordered(v, w, ParamKeys, ParamField);
    Reordered(v, w, {}, ParametersField);
    assert |v.entries| == |multiset(v.entries)| == |w.entries|;
    Reordered(v, w, ModelKeys, ModelField);
    Reordered(v, w, IntegrationKeys, IntegrationField);
    Reordered(v, w, FitterKeys, FitterField);
    Reordered(v, w, ConfigKeys, ConfigField);
  }

  /** What `EachField` checks entry by entry, a lookup checks key by key. */
  lemma FieldsByKey(v: Yaml, keys: set<string>, check: (string, Yaml) -> bool)
    requires UniqueKeys(v) && ExactKeys(v, keys)
    ensures EachField(v, check) <==> forall k | k in keys :: check(k, Get(v, k))
  {
    forall i | 0 <= i < |v.entries| ensures Get(v, v.entries[i].0.s) == v.entries[i].1 {
      FindAt(v.entries, v.entries[i].0.s, i);
    }
    if EachField(v, check) {
      forall k | k in keys ensures check(k, Get(v, k)) {
        var i :| 0 <= i < |v.entries| && v.entries[i].0 == Str(k);
      }
    }
  }

  /** An assay section is accepted exactly when it has the three keys, in
      any order, the workbook path ends in ".xls" and both dimensions are
      ints (a bool counts as one); an ".xlsx" workbook is refused. */
  lemma AssayOf(v: Yaml)
    requires UniqueKeys(v)
    ensures AssayValid(v) <==>
      ExactKeys(v, AssayKeys) && Get(v, "file_path").Str? && EndsWith(Get(v, "file_path").s, ".xls") &&
      IsInt(Get(v, "cols")) && IsInt(Get(v, "rows"))
    ensures Get(v, "file_path").Str? && EndsWith(Get(v, "file_path").s, ".xlsx") ==> !AssayValid(v)
  {
    if ExactKeys(v, AssayKeys) {
      FieldsByKey(v, AssayKeys, AssayField);
    }
    var path := Get(v, "file_path");
    if path.Str? && EndsWith(path.s, ".xlsx") {
      assert path.s[|path.s| - 1] == 'x';
    }
  }

  /** A model section is accepted exactly when it has the four keys, the
      function file ends in ".py", at least one parameter is given and each
      is valid, y0 lists numbers only, and max_value converts to a float. */
  lemma ModelOf(v: Yaml)
    requires UniqueKeys(v)
    ensures ModelValid(v) <==>
      ExactKeys(v, ModelKeys) && Get(v, "func_path").Str? && EndsWith(Get(v, "func_path").s, ".py") &&
      ParametersValid(Get(v, "parameters")) &&
      Get(v, "y0").List? && (forall i | 0 <= i < |Get(v, "y0").items| :: IsNumber(Get(v, "y0").items[i])) &&
      ToFloat(Get(v, "max_value")).Some?
  {
    if ExactKeys(v, ModelKeys) {
      FieldsByKey(v, ModelKeys, ModelField);
      assert "func_path" in ModelKeys && "parameters" in ModelKeys && "y0" in ModelKeys && "max_value" in ModelKeys;
    }
  }

  /** A fitter section is accepted exactly when it has its two keys and
      both well lists hold references the pattern accepts. */
  lemma FitterOf(v: Yaml)
    requires UniqueKeys(v)
    ensures FitterValid(v) <==>
      ExactKeys(v, FitterKeys) && WellList(Get(v, "data_wells")) && WellList(Get(v, "control_wells"))
  {
    if ExactKeys(v, FitterKeys) {
      FieldsByKey(v, FitterKeys, FitterField);
    }
  }

  /** The whole document: its five keys, a title and the four sections,
      each valid. */
  lemma ConfigOf(v: Yaml)
    requires UniqueKeys(v)
    ensures ConfigValid(v) <==>
      ExactKeys(v, ConfigKeys) && Get(v, "title").Str? && AssayValid(Get(v, "assay")) && ModelValid(Get(v, "model")) &&
      IntegrationValid(Get(v, "integration")) && FitterValid(Get(v, "fitter"))
  {
    ConfigByFields(v);
    assert ConfigField("title", Get(v, "title")) == Get(v, "title").Str?;
    assert ConfigField("assay", Get(v, "assay")) == AssayValid(Get(v, "assay"));
    assert ConfigField("model", Get(v, "model")) == ModelValid(Get(v, "model"));
    assert ConfigField("integration", Get(v, "integration")) == IntegrationValid(Get(v, "integration"));
    assert ConfigField("fitter", Get(v, "fitter")) == FitterValid(Get(v, "fitter"));
  }

  /** The whole document, key by key. */
  lemma ConfigByFields(v: Yaml)
    requires UniqueKeys(v)
    ensures ConfigValid(v) <==>
      ExactKeys(v, ConfigKeys) && ConfigField("title", Get(v, "title")) && ConfigField("assay", Get(v, "assay")) &&
      ConfigField("model", Get(v, "model")) && ConfigField("integration", Get(v, "integration")) &&
      ConfigField("fitter", Get(v, "fitter"))
  {
    if ExactKeys(v, ConfigKeys) {
      FiveFieldsByKey(v, ConfigKeys, ConfigField, "title", "assay", "model", "integration", "fitter");
    }
  }

  /** A mapping with five named keys passes a check exactly when the value
      under each key does. */
  lemma FiveFieldsByKey(v: Yaml, keys: set<string>, check: (string, Yaml) -> bool,
                        a: string, b: string, c: string, d: string, e: string)
    requires UniqueKeys(v) && ExactKeys(v, keys) && keys == {a, b, c, d, e}
    ensures EachField(v, check) <==>
      check(a, Get(v, a)) && check(b, Get(v, b)) && check(c, Get(v, c)) && check(d, Get(v, d)) && check(e, Get(v, e))
  {
    FieldsByKey(v, keys, check);
  }

  /** A parameter is accepted exactly when it has its three bounds, each
      converting to a float: min <= init_guess <= max is not checked. */
  lemma ParamOf(v: Yaml)
    requires UniqueKeys(v)
    ensures ParamValid(v) <==>
      ExactKeys(v, ParamKeys) && ToFloat(Get(v, "init_guess")).Some? && ToFloat(Get(v, "max")).Some? &&
      ToFloat(Get(v, "min")).Some?
  {
    if ExactKeys(v, ParamKeys) {
      FieldsByKey(v, ParamKeys, ParamField);
    }
  }

  /** Bounds in the wrong order pass: min = 10 > max = 1 is accepted. */
  lemma BoundsUnchecked()
    ensures ParamValid(Dict([(Str("init_guess"), Int(5)), (Str("max"), Int(1)), (Str("min"), Int(10))]))
  {
    var v := Dict([(Str("init_guess"), Int(5)), (Str("max"), Int(1)), (Str("min"), Int(10))]);
    assert ExactKeys(v, ParamKeys) by {
      assert v.entries[0].0 == Str("init_guess") && v.entries[1].0 == Str("max") && v.entries[2].0 == Str("min");
    }
    ThreeFields("init_guess", "max", "min", Int(5), Int(1), Int(10), ParamField);
  }

  /** Three entries under three string keys pass a check field by field. */
  lemma ThreeFields(k0: string, k1: string, k2: string, x0: Yaml, x1: Yaml, x2: Yaml, check: (string, Yaml) -> bool)
    ensures EachField(Dict([(Str(k0), x0), (Str(k1), x1), (Str(k2), x2)]), check) <==>
      check(k0, x0) && check(k1, x1) && check(k2, x2)
  {
    var v := Dict([(Str(k0), x0), (Str(k1), x1), (Str(k2), x2)]);
    assert v.entries[0] == (Str(k0), x0) && v.entries[1] == (Str(k1), x1) && v.entries[2] == (Str(k2), x2);
  }

  /** An empty parameters mapping is refused, by the parameters schema
      itself and so by the model schema. */
  lemma ParametersNonEmpty()
    ensures !ParametersValid(Dict([]))
    ensures !ModelField("parameters", Dict([]))
  {
  }

  /** `model.y0` takes ints, floats and bools, and may be empty; text or
      null is refused. */
  lemma InitialValues(b: bool, i: int, f: real, s: string)
    ensures ModelField("y0", List([]))
    ensures ModelField("y0", List([Bool(b), Int(i), Float(f)]))
    ensures !ModelField("y0", List([Str(s)]))
    ensures !ModelField("y0", List([Null]))
  {
    assert List([Str(s)]).items[0] == Str(s);
    assert List([Null]).items[0] == Null;
  }

  /** An integration section is accepted exactly when it has the three
      keys and both tolerances convert to floats: any text names the
      method at this stage. */
  lemma AnyMethod(v: Yaml)
    requires UniqueKeys(v)
    ensures IntegrationValid(v) <==>
      ExactKeys(v, IntegrationKeys) && ToFloat(Get(v, "atol")).Some? && ToFloat(Get(v, "rtol")).Some? &&
      Get(v, "method").Str?
  {
    if ExactKeys(v, IntegrationKeys) {
      FieldsByKey(v, IntegrationKeys, IntegrationField);
    }
  }

  // ---------------------------------------------------------------------
  // Well references.

  /** A reference must start with an upper-case letter: "b3" is refused
      here although the selector would read it as "B3". */
  lemma LowercaseRejected(s: string)
    requires s != [] && IsLower(s[0])
    ensures !WellRefValid(s)
  {
  }

  /** A single reference "Xn" or "Xnn", with or without a final newline. */
  lemma SingleRefValid(letter: char, digits: string)
    requires IsUpper(letter) && 1 <= |digits| <= 2 && AllDigits(digits)
    ensures WellRefValid([letter] + digits)
    ensures WellRefValid([letter] + digits + "\n")
  {
    var s := [letter] + digits;
    assert s[1..] == digits;
    assert (s + "\n")[..|s + "\n"| - 1] == s;
  }

  /** Three digits are one too many. */
  lemma ThreeDigitsRejected(letter: char, digits: string)
    requires AllDigits(digits) && |digits| == 3
    ensures !WellRefValid([letter] + digits)
  {
    var t := [letter] + digits;
    assert forall i | 1 <= i < |t| :: t[i] == digits[i - 1];
    assert t[|t| - 1] != '\n';
  }
}
