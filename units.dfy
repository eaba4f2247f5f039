/**
 * Size strings and result units of simpleperf.py: `parse_size` turns a size
 * such as "10KB" into a byte count, `parse_size_result` divides a byte count
 * back by the multiplier of a result format, and `unit_per_second` names the
 * rate unit that goes with a format. Division is exact real division here.
 */
module Units {
  import opened Wrappers
  import opened Text

  /** The keys of the `units` dictionaries. */
  datatype Unit = B | KB | MB

  /** `units[key]`: decimal multiples of 1000. */
  function Multiplier(u: Unit): (m: nat)
    ensures m > 0
  {
    match u
    case B => 1
    case KB => 1000
    case MB => 1000 * 1000
  }

  /** The dictionary key of a unit: lower-case letters only. */
  function Key(u: Unit): (k: string)
    ensures k != [] && forall i :: 0 <= i < |k| ==> 'a' <= k[i] <= 'z'
  {
    match u
    case B => "b"
    case KB => "kb"
    case MB => "mb"
  }

  /** The unit as users usually write it: B, KB, MB, which lower-case to the key. */
  function UpperKey(u: Unit): (k: string)
    ensures |k| == |Key(u)|
    ensures forall i :: 0 <= i < |k| ==> 'A' <= k[i] <= 'Z' && LowerChar(k[i]) == Key(u)[i]
  {
    match u
    case B => "B"
    case KB => "KB"
    case MB => "MB"
  }

  /** `key in units`, and which unit it names. */
  function Lookup(key: string): Option<Unit> {
    if key == "b" then Some(B)
    else if key == "kb" then Some(KB)
    else if key == "mb" then Some(MB)
    else None
  }

  /** A key is found exactly when it is the key of a unit, and then it names that unit. */
  lemma LookupMeaning(key: string)
    ensures forall u :: Lookup(key) == Some(u) <==> key == Key(u)
  {
  }

  lemma LookupFound(key: string, u: Unit)
    requires Lookup(key) == Some(u)
    ensures key == Key(u)
  {
  }

  lemma LookupKey(u: Unit)
    ensures Lookup(Key(u)) == Some(u)
  {
  }

  /** `s.strip().lower()`. */
  function Normalize(s: string): string {
    Lower(Strip(s))
  }

  /** The two ways `parse_size` raises `ValueError`. */
  datatype SizeError =
    | InvalidSizeUnit  // the non-digit characters are not a key of `units`
    | InvalidLiteral   // `int('')`: there are no digits at all

  /** A valid unit means the normalized string holds only letters and digits, so the non-letters are its digits. */
  lemma UnitLeavesDigits(t: string, u: Unit)
    requires NonDigits(t) == Key(u)
    ensures NonLetters(t) == Digits(t)
  {
    forall i | 0 <= i < |t|
      ensures IsAlpha(t[i]) || IsDigit(t[i])
    {
      if !IsDigit(t[i]) {
        NonDigitsKeeps(t, i);
      }
    }
    NonLettersAreDigits(t);
  }

  /**
   * `parse_size(size_str)`: `None` stays `None`; otherwise the string is
   * stripped and lower-cased, its non-letters are read as the number and its
   * non-digits must name a unit.
   */
  function ParseSize(sizeStr: Option<string>): (r: Result<Option<nat>, SizeError>)
    ensures sizeStr.None? <==> r == Ok(None)
  {
    if sizeStr.None? then Ok(None)
    else
      var t := Normalize(sizeStr.value);
      var size := NonLetters(t);
      var unit := NonDigits(t);
      match Lookup(unit)
      case None => Err(InvalidSizeUnit)
      case Some(u) =>
        LookupFound(unit, u);
        UnitLeavesDigits(t, u);
        if size == [] then Err(InvalidLiteral) else Ok(Some(DecimalValue(size) * Multiplier(u)))
  }

  /**
   * What `parse_size` computes, stated without its filters: after strip and
   * lower, the non-digit characters must be exactly b, kb or mb, there must be
   * at least one digit, and the result is the digits read in order as a
   * decimal number times the unit's multiplier.
   */
  lemma ParseSizeMeaning(s: string)
    ensures var t := Normalize(s);
      match Lookup(NonDigits(t))
      case None => ParseSize(Some(s)) == Err(InvalidSizeUnit)
      case Some(u) =>
        if forall i :: 0 <= i < |t| ==> !IsDigit(t[i]) then ParseSize(Some(s)) == Err(InvalidLiteral)
        else ParseSize(Some(s)) == Ok(Some(DecimalValue(Digits(t)) * Multiplier(u)))
  {
    var t := Normalize(s);
    DigitsEmpty(t);
    if Lookup(NonDigits(t)).Some? {
      LookupFound(NonDigits(t), Lookup(NonDigits(t)).value);
      UnitLeavesDigits(t, Lookup(NonDigits(t)).value);
    }
  }

  /**
   * `parse_size_result(size, result_format)`: the byte count expressed in the
   * format's unit; `ValueError` for a format that is not b, kb or mb after
   * strip and lower.
   */
  function ParseSizeResult(size: int, resultFormat: string): (r: Result<real, SizeError>)
    ensures match Lookup(Normalize(resultFormat))
      case None => r == Err(InvalidSizeUnit)
      case Some(u) => r.Ok? && r.value * Multiplier(u) as real == size as real
  {
    match Lookup(Normalize(resultFormat))
    case None => Err(InvalidSizeUnit)
    case Some(u) =>
      DivideBack(size, Multiplier(u));
      Ok(size as real / Multiplier(u) as real)
  }

  /** `parse_size_result` with a format naming `u` divides by the multiplier of `u`. */
  lemma ParseSizeResultIn(size: int, resultFormat: string, u: Unit)
    requires Lookup(Normalize(resultFormat)) == Some(u)
    ensures ParseSizeResult(size, resultFormat) == Ok(size as real / Multiplier(u) as real)
  {
  }

  lemma DivideBack(size: int, m: nat)
    requires m > 0
    ensures (size as real / m as real) * m as real == size as real
  {
  }

  /** `unitsPerSecond`: the rate label of each unit. */
  function RateLabel(u: Unit): string {
    match u
    case B => "Bps"
    case KB => "Kbps"
    case MB => "Mbps"
  }

  /** `unit_per_second(result_format)`; `None` stands for the `KeyError` of any other format. */
  function UnitPerSecond(resultFormat: string): (r: Option<string>)
    ensures r.Some? <==> Lookup(Normalize(resultFormat)).Some?
    ensures forall u :: Lookup(Normalize(resultFormat)) == Some(u) ==> r == Some(RateLabel(u))
  {
    match Lookup(Normalize(resultFormat))
    case None => None
    case Some(u) => Some(RateLabel(u))
  }

  /** Every successful parse is a whole number of the written unit. */
  lemma ParseSizeMultiple(s: string, u: Unit)
    requires Lookup(NonDigits(Normalize(s))) == Some(u)
    requires ParseSize(Some(s)).Ok?
    ensures ParseSize(Some(s)).value.Some?
    ensures ParseSize(Some(s)).value.value % Multiplier(u) == 0
  {
    ParseSizeMeaning(s);
    WholeMultiple(DecimalValue(Digits(Normalize(s))), u);
  }

  lemma WholeMultiple(n: nat, u: Unit)
    ensures (n * Multiplier(u)) % Multiplier(u) == 0
  {
    match u {
      case B =>
      case KB => assert n * 1000 == 1000 * n;
      case MB => assert n * 1000000 == 1000000 * n;
    }
  }

  /** Case and surrounding whitespace do not matter: parsing the normalized string gives the same outcome. */
  lemma ParseSizeNormalized(s: string)
    ensures ParseSize(Some(Normalize(s))) == ParseSize(Some(s))
  {
    NormalizeIdempotent(s);
  }

  lemma StripDigitsThenLetters(d: string, k: string)
    requires d != [] && AllDigits(d)
    requires k != [] && forall i :: 0 <= i < |k| ==> 'a' <= k[i] <= 'z'
    ensures Strip(d + k) == d + k
  {
    var s := d + k;
    assert s[0] == d[0] && s[|s| - 1] == k[|k| - 1];
    StripTrimmed(s);
  }

  lemma LowerDigitsThenLetters(d: string, k: string)
    requires AllDigits(d)
    requires forall i :: 0 <= i < |k| ==> 'a' <= k[i] <= 'z'
    ensures Lower(d + k) == d + k
  {
    var s := d + k;
    assert forall i :: 0 <= i < |s| ==> IsDigit(s[i]) || 'a' <= s[i] <= 'z';
    LowerUnchanged(s);
  }

  /** A string of digits followed by lower-case letters is its own normal form. */
  lemma DigitsThenLettersNormal(d: string, k: string)
    requires d != [] && AllDigits(d)
    requires k != [] && forall i :: 0 <= i < |k| ==> 'a' <= k[i] <= 'z'
    ensures Normalize(d + k) == d + k
  {
    StripDigitsThenLetters(d, k);
    LowerDigitsThenLetters(d, k);
  }

  /** The decimal rendering of `n` followed by a unit key parses to `n` times the multiplier. */
  lemma ParseSizeOfRendering(n: nat, u: Unit)
    ensures ParseSize(Some(DecimalString(n) + Key(u))) == Ok(Some(n * Multiplier(u)))
  {
    var d, k := DecimalString(n), Key(u);
    var s := d + k;
    DigitsThenLettersNormal(d, k);
    DigitsAppend(d, k);
    NonDigitsAppend(d, k);
    FiltersOfDigits(d);
    FiltersOfLetters(k);
    assert NonDigits(s) == k;
    assert Digits(s) == d;
    LookupKey(u);
    ParseSizeMeaning(s);
    assert s[0] == d[0];
    DecimalRoundTrip(n);
  }

  lemma DivideMultiple(n: nat, m: nat)
    requires m > 0
    ensures (n * m) as real / m as real == n as real
  {
    assert (n * m) as real == n as real * m as real;
  }

  /**
   * Round trip: converting the parsed byte count back into the unit that was
   * written (or any format naming the same unit) gives the number that was written.
   */
  lemma ParseSizeRoundTrip(s: string, resultFormat: string)
    requires ParseSize(Some(s)).Ok?
    requires Lookup(Normalize(resultFormat)) == Lookup(NonDigits(Normalize(s)))
    ensures ParseSize(Some(s)).value.Some?
    ensures ParseSizeResult(ParseSize(Some(s)).value.value, resultFormat) == Ok(DecimalValue(Digits(Normalize(s))) as real)
  {
    var t := Normalize(s);
    ParseSizeMeaning(s);
    var u := Lookup(NonDigits(t)).value;
    var n := DecimalValue(Digits(t));
    assert ParseSize(Some(s)) == Ok(Some(n * Multiplier(u)));
    DivideMultiple(n, Multiplier(u));
  }

  /** `unit_per_second` is defined on exactly the formats `parse_size_result` accepts, and no two units share a label. */
  lemma RateLabelMatchesFormat(size: int, resultFormat: string)
    ensures UnitPerSecond(resultFormat).Some? <==> ParseSizeResult(size, resultFormat).Ok?
    ensures forall u, v :: RateLabel(u) == RateLabel(v) ==> u == v
  {
  }

  lemma LowerUpperRendering(d: string, u: Unit)
    requires AllDigits(d)
    ensures Lower(d + UpperKey(u)) == d + Key(u)
  {
    var k := UpperKey(u);
    var s := d + k;
    var l := Lower(s);
    forall i | 0 <= i < |d|
      ensures l[i] == d[i]
    {
      assert s[i] == d[i] && IsDigit(d[i]);
    }
    forall i | |d| <= i < |s|
      ensures l[i] == Key(u)[i - |d|]
    {
      assert s[i] == k[i - |d|];
    }
    assert l == d + Key(u);
  }

  /** The upper-case spelling of a unit normalizes to its key. */
  lemma NormalizeUpperKey(u: Unit)
    ensures Normalize(UpperKey(u)) == Key(u)
  {
    var k := UpperKey(u);
    StripTrimmed(k);
    var l := Lower(k);
    assert forall i :: 0 <= i < |k| ==> l[i] == Key(u)[i];
  }

  /** Digits followed by an upper-case unit normalize to the digits followed by the key. */
  lemma NormalizeUpperRendering(d: string, u: Unit)
    requires d != [] && AllDigits(d)
    ensures Normalize(d + UpperKey(u)) == d + Key(u)
  {
    var k := UpperKey(u);
    var s := d + k;
    assert IsDigit(s[0]) by { assert s[0] == d[0]; }
    assert 'A' <= s[|s| - 1] <= 'Z' by { assert s[|s| - 1] == k[|k| - 1]; }
    StripTrimmed(s);
    LowerUpperRendering(d, u);
  }

  /** The decimal rendering of `n` followed by an upper-case unit parses to `n` times the multiplier. */
  lemma ParseSizeOfUpperRendering(n: nat, u: Unit)
    ensures ParseSize(Some(DecimalString(n) + UpperKey(u))) == Ok(Some(n * Multiplier(u)))
  {
    var s := DecimalString(n) + UpperKey(u);
    NormalizeUpperRendering(DecimalString(n), u);
    ParseSizeNormalized(s);
    ParseSizeOfRendering(n, u);
  }
}
