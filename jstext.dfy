/**
 * The JavaScript string built-ins the game relies on, on the arguments it
 * gives them: `Number.prototype.toString(radix)` and `String(n)` for integral
 * numbers, `String.prototype.padStart` with a one-character filler, the
 * remainder operator `%`, and `String.prototype.replace` with a string pattern
 * (first occurrence only, with the `$` substitution patterns of the
 * replacement string).
 */
module JsText {
  import opened Wrappers

  // ---------------------------------------------------------------- digits

  predicate IsAlnum(c: char) {
    '0' <= c <= '9' || 'a' <= c <= 'z' || 'A' <= c <= 'Z'
  }

  /** The value of a digit character; letters of either case stand for 10..35. */
  function DigitValue(c: char): (v: nat)
    requires IsAlnum(c)
    ensures v < 36
  {
    if '0' <= c <= '9' then c as int - '0' as int
    else if 'a' <= c <= 'z' then c as int - 'a' as int + 10
    else c as int - 'A' as int + 10
  }

  predicate IsDigitOf(c: char, radix: nat) {
    IsAlnum(c) && DigitValue(c) < radix
  }

  predicate AllDigits(s: string, radix: nat) {
    forall i :: 0 <= i < |s| ==> IsDigitOf(s[i], radix)
  }

  predicate IsUpperLetter(c: char) {
    'A' <= c <= 'Z'
  }

  /** The digit `toString` writes for the value d: `0`-`9`, then lower-case `a`-`z`. */
  function DigitChar(d: nat): (c: char)
    requires d < 36
    ensures IsAlnum(c) && DigitValue(c) == d && !IsUpperLetter(c)
  {
    if d < 10 then (48 + d) as char else (97 + d - 10) as char
  }

  /** `n.toString(radix)` for a non-negative integer n: no leading zeros, lower-case letters. */
  function ToRadix(n: nat, radix: nat): (s: string)
    requires 2 <= radix <= 36
    ensures |s| >= 1
    ensures forall i :: 0 <= i < |s| ==> IsDigitOf(s[i], radix) && !IsUpperLetter(s[i])
    decreases n
  {
    if n < radix then [DigitChar(n)] else ToRadix(n / radix, radix) + [DigitChar(n % radix)]
  }

  /** The value of a string of digits, read most significant digit first. */
  function ParseDigits(s: string, radix: nat): nat
    requires AllDigits(s, radix)
    decreases |s|
  {
    if s == [] then 0 else ParseDigits(s[..|s| - 1], radix) * radix + DigitValue(s[|s| - 1])
  }

  /** Reading back what `toString(radix)` wrote gives the number. */
  lemma {:induction false} ToRadixRoundTrip(n: nat, radix: nat)
    requires 2 <= radix <= 36
    ensures AllDigits(ToRadix(n, radix), radix)
    ensures ParseDigits(ToRadix(n, radix), radix) == n
    decreases n
  {
    var s := ToRadix(n, radix);
    if n < radix {
      assert s[..|s| - 1] == [];
    } else {
      var q := ToRadix(n / radix, radix);
      var d := DigitChar(n % radix);
      assert s == q + [d];
      assert s[..|s| - 1] == q;
      DivDecreases(n, radix);
      ToRadixRoundTrip(n / radix, radix);
      var p := ParseDigits(q, radix);
      assert p == n / radix;
      assert ParseDigits(s, radix) == p * radix + DigitValue(d);
      DivMod(n, radix);
    }
  }

  lemma DivDecreases(n: nat, radix: nat)
    requires radix >= 2 && n >= radix
    ensures n / radix < n
  {
    var q := n / radix;
    assert n == q * radix + n % radix;
    assert q * radix == q + q * (radix - 1);
    assert q * (radix - 1) >= 0;
    assert q >= 1;
  }

  lemma DivMod(n: nat, radix: nat)
    requires radix > 0
    ensures n == (n / radix) * radix + n % radix
  {
  }

  /** One digit below the radix, at most two below its square. */
  lemma ToRadixLength(n: nat, radix: nat)
    requires 2 <= radix <= 36
    ensures |ToRadix(n, radix)| == 1 <==> n < radix
    ensures n < radix * radix ==> |ToRadix(n, radix)| <= 2
  {
    if n >= radix && n < radix * radix {
      assert (n / radix) * radix <= n;
      assert n / radix < radix;
    }
  }

  /** A leading '0' does not change the value of a digit string. */
  lemma {:induction false} LeadingZero(s: string, radix: nat)
    requires 2 <= radix
    requires AllDigits(s, radix)
    ensures AllDigits(['0'] + s, radix)
    ensures ParseDigits(['0'] + s, radix) == ParseDigits(s, radix)
    decreases |s|
  {
    var t := ['0'] + s;
    if s != [] {
      assert t[..|t| - 1] == ['0'] + s[..|s| - 1];
      LeadingZero(s[..|s| - 1], radix);
    } else {
      assert t[..|t| - 1] == [];
    }
  }

  /** Any run of leading '0's leaves the value unchanged. */
  lemma {:induction false} LeadingZeros(z: string, s: string, radix: nat)
    requires 2 <= radix
    requires forall i :: 0 <= i < |z| ==> z[i] == '0'
    requires AllDigits(s, radix)
    ensures AllDigits(z + s, radix)
    ensures ParseDigits(z + s, radix) == ParseDigits(s, radix)
    decreases |z|
  {
    if z != [] {
      assert z + s == ['0'] + (z[1..] + s);
      LeadingZeros(z[1..], s, radix);
      LeadingZero(z[1..] + s, radix);
    } else {
      assert z + s == s;
    }
  }

  // ------------------------------------------------------------ numbers

  /** `String(n)` for an integral number n. */
  function NumberToString(n: int): (s: string)
    ensures n >= 0 ==> AllDigits(s, 10) && ParseDigits(s, 10) == n
    ensures n < 0 ==> |s| >= 2 && s[0] == '-' && AllDigits(s[1..], 10) && ParseDigits(s[1..], 10) == -n
  {
    if n < 0 then
      ToRadixRoundTrip(-n, 10);
      assert ("-" + ToRadix(-n, 10))[1..] == ToRadix(-n, 10);
      "-" + ToRadix(-n, 10)
    else
      ToRadixRoundTrip(n, 10);
      ToRadix(n, 10)
  }

  /** `String(n)` starts with a minus sign exactly for negative n, and with a digit otherwise. */
  lemma NumberSign(n: int)
    ensures |NumberToString(n)| >= 1
    ensures NumberToString(n)[0] == '-' <==> n < 0
    ensures n >= 0 ==> IsDigitOf(NumberToString(n)[0], 10)
  {
  }

  /** The `%` operator on integers: truncating, so the remainder takes the sign of the dividend. */
  function JsRem(a: int, b: int): (r: int)
    requires b > 0
    ensures a >= 0 ==> 0 <= r < b && r == a % b
    ensures a < 0 ==> -b < r <= 0
  {
    if a >= 0 then a % b else -((-a) % b)
  }

  // -------------------------------------------------------------- padding

  /** `s.padStart(targetLength, fill)` for a one-character filler. */
  function PadStart(s: string, targetLength: int, fill: char): (r: string)
    ensures |r| == if targetLength > |s| then targetLength else |s|
    ensures r[|r| - |s|..] == s
    ensures forall i :: 0 <= i < |r| - |s| ==> r[i] == fill
  {
    if targetLength <= |s| then s else seq(targetLength - |s|, _ => fill) + s
  }

  /** Padding a digit string with '0's keeps its value. */
  lemma ZeroPaddedValue(s: string, targetLength: int, radix: nat)
    requires 2 <= radix
    requires AllDigits(s, radix)
    ensures AllDigits(PadStart(s, targetLength, '0'), radix)
    ensures ParseDigits(PadStart(s, targetLength, '0'), radix) == ParseDigits(s, radix)
  {
    var r := PadStart(s, targetLength, '0');
    var z := r[..|r| - |s|];
    assert r == z + s;
    LeadingZeros(z, s, radix);
  }

  // ------------------------------------------------------------- searching

  predicate OccursAt(text: string, pattern: string, i: int) {
    0 <= i && i + |pattern| <= |text| && text[i..i + |pattern|] == pattern
  }

  /** The first position at or after `from` where `pattern` occurs. */
  function IndexFrom(text: string, pattern: string, from: nat): (r: Option<nat>)
    ensures r.Some? ==> from <= r.value && OccursAt(text, pattern, r.value)
    ensures r.Some? ==> forall j :: from <= j < r.value ==> !OccursAt(text, pattern, j)
    ensures r.None? ==> forall j :: from <= j ==> !OccursAt(text, pattern, j)
    decreases |text| - from
  {
    if from + |pattern| > |text| then None
    else if text[from..from + |pattern|] == pattern then Some(from)
    else IndexFrom(text, pattern, from + 1)
  }

  /** `text.indexOf(pattern)`, with `-1` as None. */
  function IndexOf(text: string, pattern: string): (r: Option<nat>)
    ensures r.Some? ==> OccursAt(text, pattern, r.value)
    ensures r.Some? ==> forall j :: 0 <= j < r.value ==> !OccursAt(text, pattern, j)
    ensures r.None? <==> forall j :: !OccursAt(text, pattern, j)
  {
    IndexFrom(text, pattern, 0)
  }

  /** The number of (possibly overlapping) positions where a non-empty pattern occurs. */
  function Occurrences(text: string, pattern: string): nat
    requires |pattern| > 0
    decreases |text|
  {
    if |text| < |pattern| then 0
    else (if text[..|pattern|] == pattern then 1 else 0) + Occurrences(text[1..], pattern)
  }

  /** A text without the pattern's first character holds no occurrence of it. */
  lemma {:induction false} NoOccurrences(text: string, pattern: string)
    requires |pattern| > 0 && pattern[0] !in text
    ensures Occurrences(text, pattern) == 0
    decreases |text|
  {
    if |text| >= |pattern| {
      assert text[..|pattern|][0] == text[0];
      NoOccurrences(text[1..], pattern);
    }
  }

  /**
   * A pattern whose first character appears in neither its own tail nor the
   * text around it occurs exactly once in `before + pattern + after`.
   */
  lemma {:induction false} ExactlyOnce(before: string, pattern: string, after: string)
    requires |pattern| > 0
    requires pattern[0] !in before && pattern[0] !in pattern[1..] && pattern[0] !in after
    ensures Occurrences(before + pattern + after, pattern) == 1
    decreases |before|
  {
    var t := before + pattern + after;
    if before == [] {
      assert t[..|pattern|] == pattern;
      assert t[1..] == pattern[1..] + after;
      NoOccurrences(pattern[1..] + after, pattern);
    } else {
      assert t[..|pattern|][0] == before[0];
      assert t[1..] == before[1..] + pattern + after;
      ExactlyOnce(before[1..], pattern, after);
    }
  }

  // ------------------------------------------------------------- replacing

  /**
   * The replacement text of `replace` for a string pattern (no capture
   * groups): `$$` is `$`, `$&` the matched text, `` $` `` the text before the
   * match, `$'` the text after it; every other `$` stands for itself.
   */
  function Substitution(replacement: string, matched: string, before: string, after: string): string
    decreases |replacement|
  {
    if replacement == [] then []
    else if replacement[0] == '$' && |replacement| >= 2 && replacement[1] in "$&`'" then
      var expansion :=
        if replacement[1] == '$' then "$"
        else if replacement[1] == '&' then matched
        else if replacement[1] == '`' then before
        else after;
      expansion + Substitution(replacement[2..], matched, before, after)
    else [replacement[0]] + Substitution(replacement[1..], matched, before, after)
  }

  /** A replacement without `$` is inserted verbatim. */
  lemma {:induction false} SubstitutionVerbatim(replacement: string, matched: string, before: string, after: string)
    requires '$' !in replacement
    ensures Substitution(replacement, matched, before, after) == replacement
    decreases |replacement|
  {
    if replacement != [] {
      assert replacement == [replacement[0]] + replacement[1..];
      SubstitutionVerbatim(replacement[1..], matched, before, after);
    }
  }

  /** `text.replace(pattern, replacement)` with a string pattern. */
  function Replace(text: string, pattern: string, replacement: string): string {
    match IndexOf(text, pattern)
    case None => text
    case Some(i) =>
      text[..i]
      + Substitution(replacement, pattern, text[..i], text[i + |pattern|..])
      + text[i + |pattern|..]
  }

  /** A pattern that does not occur leaves the text unchanged. */
  lemma ReplaceAbsent(text: string, pattern: string, replacement: string)
    requires forall j :: !OccursAt(text, pattern, j)
    ensures Replace(text, pattern, replacement) == text
  {
  }

  /**
   * Only the first occurrence is replaced: the text before it and everything
   * after it, later occurrences included, are kept as they were.
   */
  lemma ReplaceFirst(text: string, pattern: string, replacement: string, i: nat)
    requires OccursAt(text, pattern, i)
    requires forall j :: 0 <= j < i ==> !OccursAt(text, pattern, j)
    requires '$' !in replacement
    ensures Replace(text, pattern, replacement) == text[..i] + replacement + text[i + |pattern|..]
  {
    var k := IndexOf(text, pattern);
    assert k.Some?;
    assert k.value == i;
    SubstitutionVerbatim(replacement, pattern, text[..i], text[i + |pattern|..]);
  }

  /**
   * When the text before the pattern lacks the pattern's first character, the
   * pattern placed after it is the first occurrence, and `replace` puts the
   * replacement exactly there.
   */
  lemma ReplaceAfter(before: string, pattern: string, after: string, replacement: string)
    requires |pattern| > 0 && pattern[0] !in before
    requires '$' !in replacement
    ensures Replace(before + pattern + after, pattern, replacement) == before + replacement + after
  {
    var text := before + pattern + after;
    var i := |before|;
    assert text[..i] == before && text[i..i + |pattern|] == pattern && text[i + |pattern|..] == after;
    forall j | 0 <= j < i ensures !OccursAt(text, pattern, j) {
      assert text[j] == before[j] != pattern[0];
      if j + |pattern| <= |text| {
        assert text[j..j + |pattern|][0] == text[j];
      }
    }
    ReplaceFirst(text, pattern, replacement, i);
  }
}
