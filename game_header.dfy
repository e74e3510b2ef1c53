/**
 * What the header shows: the clock as `mm:ss`, three hearts for the lives,
 * and the best record or the "no record" label.
 */
module GameHeader {
  import opened Wrappers
  import JsText
  import I18n

  // ---------------------------------------------------------------- clock

  /** `n.toString().padStart(2, '0')`. */
  function Pad2(n: nat): string {
    JsText.PadStart(JsText.ToRadix(n, 10), 2, '0')
  }

  /** A two-digit-or-longer decimal field whose value is n. */
  lemma Pad2Digits(n: nat)
    ensures JsText.AllDigits(Pad2(n), 10) && JsText.ParseDigits(Pad2(n), 10) == n
  {
    JsText.ToRadixRoundTrip(n, 10);
    JsText.ZeroPaddedValue(JsText.ToRadix(n, 10), 2, 10);
  }

  /**
   * `formatTime(seconds)`: the minutes padded to at least two digits, `:`,
   * and the seconds within the minute padded to two; five characters with
   * the colon at index 2 for anything under 100 minutes.
   */
  function FormatTime(seconds: nat): (r: string)
    ensures |r| >= 5 && r[|r| - 3] == ':'
    ensures seconds < 6000 ==> |r| == 5 && r[2] == ':'
  {
    var mins := seconds / 60;
    var secs := seconds % 60;
    Pad2Length(mins);
    Pad2Length(secs);
    assert seconds < 6000 ==> mins < 100;
    JoinFields(Pad2(mins), Pad2(secs));
    Pad2(mins) + ":" + Pad2(secs)
  }

  /** `a:b` with a two-character b: the colon sits right after a, three from the end. */
  lemma JoinFields(a: string, b: string)
    requires |b| == 2
    ensures var r := a + ":" + b;
      |r| == |a| + 3 && r[|a|] == ':' && r[..|a|] == a && r[|a| + 1..] == b
  {
  }

  lemma Pad2Length(n: nat)
    ensures |Pad2(n)| >= 2 && (n < 100 ==> |Pad2(n)| == 2)
  {
    JsText.ToRadixLength(n, 10);
  }

  /** The digits before the colon. */
  function MinutesField(r: string): string
    requires |r| >= 3
  {
    r[..|r| - 3]
  }

  /** The two digits after the colon. */
  function SecondsField(r: string): string
    requires |r| >= 2
  {
    r[|r| - 2..]
  }

  /** The two fields of the clock are the padded minutes and the padded seconds within the minute. */
  lemma FormatTimeFields(seconds: nat)
    ensures MinutesField(FormatTime(seconds)) == Pad2(seconds / 60)
    ensures SecondsField(FormatTime(seconds)) == Pad2(seconds % 60)
  {
    Pad2Length(seconds % 60);
    JoinFields(Pad2(seconds / 60), Pad2(seconds % 60));
  }

  /** Reading the two fields back gives the minutes and the seconds within the minute, and so the total. */
  lemma FormatTimeRoundTrip(seconds: nat)
    ensures JsText.AllDigits(MinutesField(FormatTime(seconds)), 10)
    ensures JsText.AllDigits(SecondsField(FormatTime(seconds)), 10)
    ensures JsText.ParseDigits(SecondsField(FormatTime(seconds)), 10) < 60
    ensures JsText.ParseDigits(MinutesField(FormatTime(seconds)), 10) * 60
          + JsText.ParseDigits(SecondsField(FormatTime(seconds)), 10) == seconds
  {
    FormatTimeFields(seconds);
    Pad2Digits(seconds / 60);
    Pad2Digits(seconds % 60);
  }

  // --------------------------------------------------------------- hearts

  /** The three hearts, `true` for a full one: heart i is full when i < remainingLives. */
  function Hearts(remainingLives: int): (hs: seq<bool>)
    ensures |hs| == 3
  {
    seq(3, i => i < remainingLives)
  }

  function FullCount(hs: seq<bool>): nat
    decreases |hs|
  {
    if hs == [] then 0 else (if hs[0] then 1 else 0) + FullCount(hs[1..])
  }

  /**
   * As many hearts are full as there are lives, capped to 0..3, and the
   * full ones come first.
   */
  lemma HeartsShowLives(remainingLives: int)
    ensures FullCount(Hearts(remainingLives)) ==
      if remainingLives < 0 then 0 else if remainingLives > 3 then 3 else remainingLives
    ensures forall i, j :: 0 <= i < j < 3 && Hearts(remainingLives)[j] ==> Hearts(remainingLives)[i]
  {
    var hs := Hearts(remainingLives);
    assert hs == [0 < remainingLives, 1 < remainingLives, 2 < remainingLives];
    assert hs[1..] == [1 < remainingLives, 2 < remainingLives];
    assert hs[1..][1..] == [2 < remainingLives];
    assert hs[1..][1..][1..] == [];
    assert FullCount(hs[1..][1..][1..]) == 0;
    assert FullCount(hs[1..][1..]) == if 2 < remainingLives then 1 else 0;
  }

  // ---------------------------------------------------------- best record

  /** `bestRecord !== null ? bestRecord : t('noBest')`. */
  function BestText(bestRecord: Option<int>, lang: I18n.Language): string {
    match bestRecord
    case Some(n) => JsText.NumberToString(n)
    case None => I18n.Translation(lang, I18n.NoBest)
  }

  /** A recorded best never reads as the "no record" label, in either language. */
  lemma BestTextDistinguishesNone(n: int, lang: I18n.Language, other: I18n.Language)
    ensures BestText(Some(n), lang) != BestText(None, other)
  {
    var noBest := I18n.Translation(other, I18n.NoBest);
    assert noBest[0] == 'N' || noBest[0] == '無';
    JsText.NumberSign(n);
    if n >= 0 {
      assert JsText.IsDigitOf(JsText.NumberToString(n)[0], 10);
    }
  }

  /** Two records the header shows alike are the same record. */
  lemma BestTextInjective(a: int, b: int, lang: I18n.Language)
    requires BestText(Some(a), lang) == BestText(Some(b), lang)
    ensures a == b
  {
    JsText.NumberSign(a);
    JsText.NumberSign(b);
  }
}
