/**
 * What `parse_size` gives for concrete sizes, proved for each: the accepted
 * spellings and the ways a size string is refused, and a size that the
 * argparse action admits but `parse_size` refuses.
 */
module SizeExamples {
  import opened Wrappers
  import opened Text
  import opened Units
  import Arguments

  lemma RenderFiveThousand()
    ensures DecimalString(5000) == "5000"
  {
    assert DecimalString(5) == "5";
    assert DecimalString(50) == "50";
    assert DecimalString(500) == "500";
  }

  /** `parse_size("5000B")` is 5000. */
  lemma ParseSizeBytesExample()
    ensures ParseSize(Some("5000B")) == Ok(Some(5000))
  {
    RenderFiveThousand();
    assert "5000B" == DecimalString(5000) + UpperKey(B);
    ParseSizeOfUpperRendering(5000, B);
  }

  /** `parse_size("10KB")` is 10000. */
  lemma ParseSizeKiloExample()
    ensures ParseSize(Some("10KB")) == Ok(Some(10000))
  {
    assert DecimalString(10) == "10";
    assert "10KB" == DecimalString(10) + UpperKey(KB);
    ParseSizeOfUpperRendering(10, KB);
  }

  /** Digits and unit letters may interleave: `parse_size("1k0b")` is 10000. */
  lemma ParseSizeInterleavedExample()
    ensures ParseSize(Some("1k0b")) == Ok(Some(10000))
  {
    StripTrimmed("1k0b");
    LowerUnchanged("1k0b");
    assert NonDigits("1k0b") == "kb";
    assert Digits("1k0b") == "10";
    assert DecimalValue("10") == 10 by { assert "10"[..1] == "1"; }
    ParseSizeMeaning("1k0b");
  }

  /** An unknown unit letter raises `ValueError('Invalid size unit')`. */
  lemma ParseSizeUnknownUnitExample()
    ensures ParseSize(Some("10XB")) == Err(InvalidSizeUnit)
  {
    StripTrimmed("10XB");
    var l := Lower("10XB");
    assert l[2] == 'x';
    assert NonDigits(l)[0] == 'x';
  }

  /** A decimal point is not a digit, so it ends up in the unit: "1.5kb" is refused. */
  lemma ParseSizeFractionExample()
    ensures ParseSize(Some("1.5kb")) == Err(InvalidSizeUnit)
  {
    StripTrimmed("1.5kb");
    LowerUnchanged("1.5kb");
    assert NonDigits("1.5kb") == ".kb";
  }

  /** Inner whitespace survives `strip()` and ends up in the unit: "5 kb" is refused. */
  lemma ParseSizeInnerSpaceExample()
    ensures ParseSize(Some("5 kb")) == Err(InvalidSizeUnit)
  {
    StripTrimmed("5 kb");
    LowerUnchanged("5 kb");
    assert NonDigits("5 kb") == " kb";
  }

  /** A unit without digits fails in `int('')`. */
  lemma ParseSizeNoDigitsExample()
    ensures ParseSize(Some("KB")) == Err(InvalidLiteral)
  {
    StripTrimmed("KB");
    var l := Lower("KB");
    assert l == "kb";
    FiltersOfLetters("kb");
    ParseSizeMeaning("KB");
  }

  /** A size without digits passes `ParseSizeAction` and only fails later, in `parse_size`. */
  lemma ParseSizeActionAdmitsNoDigits(ns: Arguments.Namespace, dest: Arguments.Dest)
    ensures Arguments.ParseSizeAction(ns, dest, "KB").Ok?
    ensures ParseSize(Some("KB")) == Err(InvalidLiteral)
  {
    ParseSizeNoDigitsExample();
    Arguments.ParseSizeActionAgrees(ns, dest, "KB");
  }
}
