/**
 * The string operations `parse_size` and its relatives rely on, restricted to
 * ASCII: `str.strip()`, `str.lower()`, `str.isalpha()`, `str.isdigit()`,
 * the `''.join(char for char in s if ...)` filters and `int()` of a digit string.
 * Characters outside ASCII are treated as neither whitespace, letter nor digit.
 */
module Text {

  /** `c.isspace()` on ASCII: space, \t \n \v \f \r and the separators \x1c-\x1f. */
  predicate IsSpace(c: char) {
    c == ' ' || (9 <= c as int <= 13) || (28 <= c as int <= 31)
  }

  /** `c.isalpha()` on ASCII. */
  predicate IsAlpha(c: char) {
    ('a' <= c <= 'z') || ('A' <= c <= 'Z')
  }

  /** `c.isdigit()` on ASCII. */
  predicate IsDigit(c: char) {
    '0' <= c <= '9'
  }

  predicate AllDigits(s: string) {
    forall i :: 0 <= i < |s| ==> IsDigit(s[i])
  }

  function LowerChar(c: char): (d: char)
    ensures IsSpace(d) <==> IsSpace(c)
    ensures IsDigit(d) <==> IsDigit(c)
    ensures IsAlpha(d) <==> IsAlpha(c)
    ensures !('A' <= d <= 'Z')
  {
    if 'A' <= c <= 'Z' then (c as int + 32) as char else c
  }

  /** `s.lower()`: every upper-case ASCII letter is replaced by its lower-case form. */
  function Lower(s: string): (r: string)
    ensures |r| == |s|
    ensures forall i :: 0 <= i < |s| ==> r[i] == LowerChar(s[i])
  {
    seq(|s|, i requires 0 <= i < |s| => LowerChar(s[i]))
  }

  /** Leading whitespace removed: what is left is a suffix of `s` starting with a non-space. */
  function TrimStart(s: string): (r: string)
    ensures |r| <= |s| && r == s[|s| - |r|..]
    ensures r == [] || !IsSpace(r[0])
    ensures forall i :: 0 <= i < |s| - |r| ==> IsSpace(s[i])
  {
    if s != [] && IsSpace(s[0]) then TrimStart(s[1..]) else s
  }

  /** Trailing whitespace removed: what is left is a prefix of `s` ending with a non-space. */
  function TrimEnd(s: string): (r: string)
    ensures |r| <= |s| && r == s[..|r|]
    ensures r == [] || !IsSpace(r[|r| - 1])
    ensures forall i :: |r| <= i < |s| ==> IsSpace(s[i])
  {
    if s != [] && IsSpace(s[|s| - 1]) then TrimEnd(s[..|s| - 1]) else s
  }

  /** `s.strip()`. */
  function Strip(s: string): string {
    TrimEnd(TrimStart(s))
  }

  /** The characters of `s` that are not letters, in order (`''.join(c for c in s if not c.isalpha())`). */
  function NonLetters(s: string): (r: string)
    ensures |r| <= |s|
  {
    if s == [] then [] else (if IsAlpha(s[0]) then [] else [s[0]]) + NonLetters(s[1..])
  }

  /** The characters of `s` that are not digits, in order (`''.join(c for c in s if not c.isdigit())`). */
  function NonDigits(s: string): (r: string)
    ensures |r| <= |s|
  {
    if s == [] then [] else (if IsDigit(s[0]) then [] else [s[0]]) + NonDigits(s[1..])
  }

  /** The digit characters of `s`, in order. */
  function Digits(s: string): (r: string)
    ensures |r| <= |s| && AllDigits(r)
  {
    if s == [] then [] else (if IsDigit(s[0]) then [s[0]] else []) + Digits(s[1..])
  }

  function DigitValue(c: char): (v: nat)
    requires IsDigit(c)
    ensures v < 10
  {
    c as int - '0' as int
  }

  function DigitChar(v: nat): (c: char)
    requires v < 10
    ensures IsDigit(c) && DigitValue(c) == v
  {
    ('0' as int + v) as char
  }

  /**
   * `int(s)` for a non-empty string of decimal digits (leading zeros allowed).
   * It also gives 0 for the empty string, where `int('')` raises: callers that
   * follow the source (`Units.ParseSize`) refuse the empty string themselves.
   */
  function DecimalValue(s: string): nat
    requires AllDigits(s)
  {
    if s == [] then 0 else 10 * DecimalValue(s[..|s| - 1]) + DigitValue(s[|s| - 1])
  }

  /** `str(n)` for a natural number: its decimal digits without leading zeros. */
  function DecimalString(n: nat): (r: string)
    ensures r != [] && AllDigits(r)
    ensures |r| > 1 ==> r[0] != '0'
  {
    if n < 10 then [DigitChar(n)] else DecimalString(n / 10) + [DigitChar(n % 10)]
  }

  /** Reading back the decimal rendering of `n` gives `n`. */
  lemma {:induction false} DecimalRoundTrip(n: nat)
    ensures DecimalValue(DecimalString(n)) == n
  {
    if n >= 10 {
      var s := DecimalString(n);
      assert s[..|s| - 1] == DecimalString(n / 10);
      DecimalRoundTrip(n / 10);
    }
  }

  lemma {:induction false} NonLettersAppend(a: string, b: string)
    ensures NonLetters(a + b) == NonLetters(a) + NonLetters(b)
  {
    if a != [] {
      assert (a + b)[1..] == a[1..] + b;
      NonLettersAppend(a[1..], b);
    } else {
      assert a + b == b;
    }
  }

  lemma {:induction false} NonDigitsAppend(a: string, b: string)
    ensures NonDigits(a + b) == NonDigits(a) + NonDigits(b)
  {
    if a != [] {
      assert (a + b)[1..] == a[1..] + b;
      NonDigitsAppend(a[1..], b);
    } else {
      assert a + b == b;
    }
  }

  /** A character that is not a digit is kept by the non-digit filter. */
  lemma {:induction false} NonDigitsKeeps(s: string, i: nat)
    requires i < |s| && !IsDigit(s[i])
    ensures s[i] in NonDigits(s)
  {
    if i > 0 {
      NonDigitsKeeps(s[1..], i - 1);
    }
  }

  /** The digit filter is empty exactly when the string holds no digit. */
  lemma {:induction false} DigitsEmpty(s: string)
    ensures Digits(s) == [] <==> forall i :: 0 <= i < |s| ==> !IsDigit(s[i])
  {
    if s != [] {
      DigitsEmpty(s[1..]);
      assert forall i :: 1 <= i < |s| ==> s[i] == s[1..][i - 1];
    }
  }

  lemma {:induction false} DigitsAppend(a: string, b: string)
    ensures Digits(a + b) == Digits(a) + Digits(b)
  {
    if a != [] {
      assert (a + b)[1..] == a[1..] + b;
      DigitsAppend(a[1..], b);
    } else {
      assert a + b == b;
    }
  }

  /** In a string made of letters and digits only, the non-letters are exactly the digits. */
  lemma {:induction false} NonLettersAreDigits(s: string)
    requires forall i :: 0 <= i < |s| ==> IsAlpha(s[i]) || IsDigit(s[i])
    ensures NonLetters(s) == Digits(s)
  {
    if s != [] {
      NonLettersAreDigits(s[1..]);
    }
  }

  /** Filters of a string of digits: every character is kept as a digit, none as a non-digit. */
  lemma {:induction false} FiltersOfDigits(s: string)
    requires AllDigits(s)
    ensures Digits(s) == s && NonDigits(s) == []
  {
    if s != [] {
      FiltersOfDigits(s[1..]);
      assert s == [s[0]] + s[1..];
    }
  }

  /** Filters of a string of letters: every character is kept as a non-digit, none as a digit. */
  lemma {:induction false} FiltersOfLetters(s: string)
    requires forall i :: 0 <= i < |s| ==> IsAlpha(s[i])
    ensures Digits(s) == [] && NonDigits(s) == s
  {
    if s != [] {
      FiltersOfLetters(s[1..]);
      assert s == [s[0]] + s[1..];
    }
  }

  /** Lower-casing a string without upper-case letters changes nothing. */
  lemma LowerUnchanged(s: string)
    requires forall i :: 0 <= i < |s| ==> !('A' <= s[i] <= 'Z')
    ensures Lower(s) == s
  {
  }

  /** Stripping a string that neither starts nor ends with whitespace changes nothing. */
  lemma StripTrimmed(s: string)
    requires s == [] || (!IsSpace(s[0]) && !IsSpace(s[|s| - 1]))
    ensures Strip(s) == s
  {
  }

  /** `s.strip().lower()` is a fixed point of `strip().lower()`. */
  lemma {:induction false} NormalizeIdempotent(s: string)
    ensures Lower(Strip(Lower(Strip(s)))) == Lower(Strip(s))
  {
    var t := Lower(Strip(s));
    StripTrimmed(t);
    var u := Lower(t);
    assert forall i :: 0 <= i < |t| ==> LowerChar(t[i]) == t[i];
    assert u == t;
  }

  /** The chunks joined in order (`data += chunk` over a sequence of chunks). */
  function Concat(chunks: seq<string>): string {
    if chunks == [] then [] else chunks[0] + Concat(chunks[1..])
  }

  /** The sum of the chunks' lengths (`total += len(chunk)` over a sequence of chunks). */
  function TotalLength(chunks: seq<string>): nat {
    if chunks == [] then 0 else |chunks[0]| + TotalLength(chunks[1..])
  }

  lemma {:induction false} ConcatAppend(chunks: seq<string>, c: string)
    ensures Concat(chunks + [c]) == Concat(chunks) + c
  {
    if chunks == [] {
      assert chunks + [c] == [c];
      assert Concat([c]) == c + Concat([]);
    } else {
      assert (chunks + [c])[1..] == chunks[1..] + [c];
      ConcatAppend(chunks[1..], c);
    }
  }

  lemma {:induction false} TotalLengthAppend(chunks: seq<string>, c: string)
    ensures TotalLength(chunks + [c]) == TotalLength(chunks) + |c|
  {
    if chunks == [] {
      assert chunks + [c] == [c];
    } else {
      assert (chunks + [c])[1..] == chunks[1..] + [c];
      TotalLengthAppend(chunks[1..], c);
    }
  }

  /** The joined chunks are as long as the chunks together. */
  lemma {:induction false} ConcatLength(chunks: seq<string>)
    ensures |Concat(chunks)| == TotalLength(chunks)
  {
    if chunks != [] {
      ConcatLength(chunks[1..]);
    }
  }
}
