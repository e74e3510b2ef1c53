/**
 * The colour-pair generator: up to 50 random base colours, each followed by a
 * nested search over hue, saturation and lightness offsets, accepting the
 * first candidate whose CIE76 distance from the base is within 30% of the
 * level's target, and falling back to a fixed table when none is.
 *
 * The floating-point colour science (HSL to RGB, RGB to L*a*b*, the CIE76
 * distance) is a parameter of the model (`Science`); the random numbers are
 * one `AttemptDraw` per attempt.
 */
module Colors {
  import opened Wrappers
  import JsText
  import Types

  type Channel = c: int | 0 <= c <= 255

  datatype Rgb = Rgb(r: Channel, g: Channel, b: Channel)

  datatype Lab = Lab(l: real, a: real, b: real)

  datatype Hsl = Hsl(h: int, s: int, l: int)

  /** Two `#rrggbb` strings: the colour of every tile but one, and the odd one out. */
  datatype ColorPair = ColorPair(base: string, different: string)

  /** `hslToRgb`, `rgbToLab` and `deltaE`, which compute in floating point. */
  datatype Science = Science(hslToRgb: (int, int, int) -> Rgb, rgbToLab: Rgb -> Lab, deltaE: (Lab, Lab) -> real)

  /**
   * The random numbers of one attempt: the base hue, saturation and
   * lightness, the directions of the saturation and lightness offsets, and
   * the direction of the hue offset drawn afresh for each candidate (one
   * candidate per offset triple).
   */
  datatype AttemptDraw = AttemptDraw(h: int, s: int, l: int, satUp: bool, lightUp: bool, hueUp: (int, int, int) -> bool)

  const Attempts: nat := 50

  /** The ranges `Math.floor(Math.random() * n)` gives the base colour. */
  predicate DrawInRange(d: AttemptDraw) {
    0 <= d.h < 360 && 40 <= d.s < 80 && 40 <= d.l < 70
  }

  function Sign(up: bool): int {
    if up then 1 else -1
  }

  // ------------------------------------------------------------- offsets

  /** The largest hue offset tried at a level: 30 degrees at level 1, 3 fewer per level, at least 1. */
  function HueShift(level: int): (r: int)
    ensures r >= 1
    ensures level >= 1 ==> r <= 30
  {
    var shift := 30 - (level - 1) * 3;
    if shift > 1 then shift else 1
  }

  lemma HueShiftValues()
    ensures HueShift(1) == 30 && HueShift(Types.MaxLevel) == 3
    ensures forall a, b :: a <= b ==> HueShift(a) >= HueShift(b)
  {
  }

  /** The values a `for (x = start; x >= 1; x -= 2)` loop runs through. */
  function StepDown(start: int): seq<int>
    decreases start
  {
    if start < 1 then [] else [start] + StepDown(start - 2)
  }

  /** The loop runs through start, start - 2, ... while at least 1: ceil(start / 2) values. */
  lemma {:induction false} StepDownValues(start: int)
    ensures |StepDown(start)| == if start >= 1 then (start + 1) / 2 else 0
    ensures forall i :: 0 <= i < |StepDown(start)| ==> StepDown(start)[i] == start - 2 * i && StepDown(start)[i] >= 1
    decreases start
  {
    if start >= 1 {
      StepDownValues(start - 2);
      var r := StepDown(start);
      forall i | 0 <= i < |r| ensures r[i] == start - 2 * i && r[i] >= 1 {
        if i > 0 {
          assert r[i] == StepDown(start - 2)[i - 1];
        }
      }
    }
  }

  lemma StepDownUnfold(start: int)
    requires start >= 1
    ensures StepDown(start) == [start] + StepDown(start - 2)
    ensures StepDown(start)[0] == start && StepDown(start)[1..] == StepDown(start - 2)
  {
  }

  /** The hue offsets tried at a level. */
  function HueDeltas(level: int): seq<int> {
    StepDown(HueShift(level))
  }

  /** The saturation and lightness offsets: 5, 3, 1. */
  function SlDeltas(): (r: seq<int>)
    ensures r == [5, 3, 1]
  {
    StepDown(5)
  }

  /** `(h + offset + 360) % 360` with the truncating `%`. */
  function WrapHue(h: int, offset: int): (r: int)
    ensures 0 <= h < 360 && -360 <= offset <= 360 ==> 0 <= r < 360 && r == (h + offset) % 360
  {
    JsText.JsRem(h + offset + 360, 360)
  }

  /** `Math.max(0, Math.min(100, x))`. */
  function Clamp(x: int): (r: int)
    ensures 0 <= r <= 100
    ensures 0 <= x <= 100 ==> r == x
  {
    if x > 100 then 100 else if x < 0 then 0 else x
  }

  /**
   * The perturbed colour for one offset triple. For a base drawn in range
   * and the offsets the search uses, the hue stays in [0, 360) and the
   * saturation and lightness are shifted by exactly their offsets: the
   * clamping never bites.
   */
  function Candidate(d: AttemptDraw, hDelta: int, sDelta: int, lDelta: int): (c: Hsl)
    ensures 0 <= c.s <= 100 && 0 <= c.l <= 100
    ensures DrawInRange(d) && 1 <= hDelta <= 30 && 0 <= sDelta <= 5 && 0 <= lDelta <= 5 ==>
      0 <= c.h < 360 && c.s == d.s + sDelta * Sign(d.satUp) && c.l == d.l + lDelta * Sign(d.lightUp)
  {
    Hsl(WrapHue(d.h, hDelta * Sign(d.hueUp(hDelta, sDelta, lDelta))),
        Clamp(d.s + sDelta * Sign(d.satUp)),
        Clamp(d.l + lDelta * Sign(d.lightUp)))
  }

  // ------------------------------------------------------------ acceptance

  function RealAbs(x: real): real {
    if x < 0.0 then -x else x
  }

  /** `Math.abs(dE - targetDeltaE) < targetDeltaE * 0.3`, over exact reals. */
  predicate WithinTolerance(dE: real, target: real) {
    RealAbs(dE - target) < target * 0.3
  }

  function BaseRgb(sc: Science, d: AttemptDraw): Rgb {
    sc.hslToRgb(d.h, d.s, d.l)
  }

  function CandidateRgb(sc: Science, d: AttemptDraw, hDelta: int, sDelta: int, lDelta: int): Rgb {
    var c := Candidate(d, hDelta, sDelta, lDelta);
    sc.hslToRgb(c.h, c.s, c.l)
  }

  predicate Accepted(sc: Science, target: real, d: AttemptDraw, hDelta: int, sDelta: int, lDelta: int) {
    WithinTolerance(
      sc.deltaE(sc.rgbToLab(BaseRgb(sc, d)), sc.rgbToLab(CandidateRgb(sc, d, hDelta, sDelta, lDelta))),
      target)
  }

  function PairAt(sc: Science, d: AttemptDraw, hDelta: int, sDelta: int, lDelta: int): ColorPair {
    ColorPair(ToHex(BaseRgb(sc, d)), ToHex(CandidateRgb(sc, d, hDelta, sDelta, lDelta)))
  }

  // ---------------------------------------------------------------- search

  /** Element i of `xs` gives a result and no element before it does. */
  predicate FirstAt<T>(xs: seq<T>, step: T -> Option<ColorPair>, i: int) {
    0 <= i < |xs| && step(xs[i]).Some? && forall j :: 0 <= j < i ==> step(xs[j]).None?
  }

  /** The result of the first element for which `step` gives one; none when no element does. */
  function FirstSome<T>(xs: seq<T>, step: T -> Option<ColorPair>): Option<ColorPair>
    decreases |xs|
  {
    if xs == [] then None
    else match step(xs[0])
      case Some(p) => Some(p)
      case None => FirstSome(xs[1..], step)
  }

  /**
   * `FirstSome` returns the result of the first element that gives one, every
   * earlier element giving none; it returns none exactly when no element gives one.
   */
  lemma {:induction false} FirstSomeFinds<T>(xs: seq<T>, step: T -> Option<ColorPair>)
    ensures FirstSome(xs, step).Some? ==> exists i :: FirstAt(xs, step, i) && step(xs[i]) == FirstSome(xs, step)
    ensures FirstSome(xs, step).None? <==> forall i :: 0 <= i < |xs| ==> step(xs[i]).None?
    decreases |xs|
  {
    if xs == [] {
    } else if step(xs[0]).Some? {
      assert FirstAt(xs, step, 0);
    } else {
      FirstSomeFinds(xs[1..], step);
      var r := FirstSome(xs, step);
      if r.Some? {
        var i :| FirstAt(xs[1..], step, i) && step(xs[1..][i]) == r;
        forall j | 0 <= j < i + 1 ensures step(xs[j]).None? {
          if j > 0 {
            assert xs[j] == xs[1..][j - 1];
          }
        }
        assert FirstAt(xs, step, i + 1) && step(xs[i + 1]) == r;
      } else {
        forall i | 0 <= i < |xs| ensures step(xs[i]).None? {
          if i > 0 {
            assert xs[i] == xs[1..][i - 1];
          }
        }
      }
    }
  }

  lemma FirstSomeUnfold<T>(xs: seq<T>, step: T -> Option<ColorPair>)
    requires xs != []
    ensures FirstSome(xs, step) == if step(xs[0]).Some? then step(xs[0]) else FirstSome(xs[1..], step)
  {
  }

  /** The innermost loop body: one candidate, accepted or not. */
  function LightStep(sc: Science, target: real, d: AttemptDraw, hDelta: int, sDelta: int): int -> Option<ColorPair> {
    (lDelta: int) =>
      if Accepted(sc, target, d, hDelta, sDelta, lDelta) then Some(PairAt(sc, d, hDelta, sDelta, lDelta)) else None
  }

  function TryLightness(sc: Science, target: real, d: AttemptDraw, hDelta: int, sDelta: int): Option<ColorPair> {
    FirstSome(SlDeltas(), LightStep(sc, target, d, hDelta, sDelta))
  }

  function SatStep(sc: Science, target: real, d: AttemptDraw, hDelta: int): int -> Option<ColorPair> {
    (sDelta: int) => TryLightness(sc, target, d, hDelta, sDelta)
  }

  function TrySaturation(sc: Science, target: real, d: AttemptDraw, hDelta: int): Option<ColorPair> {
    FirstSome(SlDeltas(), SatStep(sc, target, d, hDelta))
  }

  function HueStep(sc: Science, target: real, d: AttemptDraw): int -> Option<ColorPair> {
    (hDelta: int) => TrySaturation(sc, target, d, hDelta)
  }

  /** One attempt: the nested search around one base colour. */
  function TryAttempt(sc: Science, target: real, level: int, d: AttemptDraw): Option<ColorPair> {
    FirstSome(HueDeltas(level), HueStep(sc, target, d))
  }

  function AttemptStep(sc: Science, target: real, level: int): AttemptDraw -> Option<ColorPair> {
    (d: AttemptDraw) => TryAttempt(sc, target, level, d)
  }

  function TryAttempts(sc: Science, target: real, level: int, draws: seq<AttemptDraw>): Option<ColorPair> {
    FirstSome(draws, AttemptStep(sc, target, level))
  }

  /** The fallback `BACKUP_COLOR_PAIRS[(level - 1) % 6]`. */
  function Fallback(level: int): (p: ColorPair)
    requires level >= 1
    ensures exists i :: 0 <= i < |Types.BackupColorPairs| && p == ColorPair(Types.BackupColorPairs[i].0, Types.BackupColorPairs[i].1)
    ensures p == ColorPair(Types.BackupColorPairs[(level - 1) % 6].0, Types.BackupColorPairs[(level - 1) % 6].1)
  {
    var pair := Types.BackupColorPairs[JsText.JsRem(level - 1, |Types.BackupColorPairs|)];
    ColorPair(pair.0, pair.1)
  }

  /** What `generateColorPair(targetDeltaE, level)` returns for the given random numbers. */
  function Generate(sc: Science, target: real, level: int, draws: seq<AttemptDraw>): ColorPair
    requires level >= 1
  {
    match TryAttempts(sc, target, level, draws)
    case Some(p) => p
    case None => Fallback(level)
  }

  /** The largest number of candidates the search can evaluate at a level. */
  function MaxCandidates(level: int): nat {
    Attempts * (|HueDeltas(level)| * |SlDeltas()| * |SlDeltas()|)
  }

  /** 50 attempts of ceil(hueShift / 2) hue offsets and 3 x 3 saturation and lightness offsets. */
  lemma MaxCandidatesValue(level: int)
    requires level >= 1
    ensures MaxCandidates(level) == 50 * ((HueShift(level) + 1) / 2) * 9
    ensures MaxCandidates(level) <= 50 * 15 * 9
  {
    StepDownValues(HueShift(level));
  }

  // -------------------------------------------------- what the search finds

  predicate InSearch(level: int, draws: seq<AttemptDraw>, a: int, i: int, j: int, k: int) {
    0 <= a < |draws| && 0 <= i < |HueDeltas(level)| && 0 <= j < 3 && 0 <= k < 3
  }

  /** Candidate (i, j, k) of attempt a of the search. */
  predicate AcceptedAt(sc: Science, target: real, level: int, draws: seq<AttemptDraw>, a: int, i: int, j: int, k: int)
    requires InSearch(level, draws, a, i, j, k)
  {
    Accepted(sc, target, draws[a], HueDeltas(level)[i], SlDeltas()[j], SlDeltas()[k])
  }

  function PairOf(sc: Science, level: int, draws: seq<AttemptDraw>, a: int, i: int, j: int, k: int): ColorPair
    requires InSearch(level, draws, a, i, j, k)
  {
    PairAt(sc, draws[a], HueDeltas(level)[i], SlDeltas()[j], SlDeltas()[k])
  }

  /** (a', i', j', k') comes before (a, i, j, k) in the order the nested loops try candidates. */
  predicate TriedBefore(a': int, i': int, j': int, k': int, a: int, i: int, j: int, k: int) {
    a' < a || (a' == a && (i' < i || (i' == i && (j' < j || (j' == j && k' < k)))))
  }

  /** The first accepted lightness offset, in loop order, or none exactly when none is accepted. */
  lemma TryLightnessFinds(sc: Science, target: real, d: AttemptDraw, hDelta: int, sDelta: int)
    ensures TryLightness(sc, target, d, hDelta, sDelta).Some? ==>
      exists k :: 0 <= k < 3 && Accepted(sc, target, d, hDelta, sDelta, SlDeltas()[k]) &&
        TryLightness(sc, target, d, hDelta, sDelta).value == PairAt(sc, d, hDelta, sDelta, SlDeltas()[k]) &&
        forall k' :: 0 <= k' < k ==> !Accepted(sc, target, d, hDelta, sDelta, SlDeltas()[k'])
    ensures TryLightness(sc, target, d, hDelta, sDelta).None? ==>
      forall k :: 0 <= k < 3 ==> !Accepted(sc, target, d, hDelta, sDelta, SlDeltas()[k])
  {
    var f := LightStep(sc, target, d, hDelta, sDelta);
    var r := TryLightness(sc, target, d, hDelta, sDelta);
    FirstSomeFinds(SlDeltas(), f);
    if r.Some? {
      var k :| FirstAt(SlDeltas(), f, k) && f(SlDeltas()[k]) == r;
      forall k' | 0 <= k' < k ensures !Accepted(sc, target, d, hDelta, sDelta, SlDeltas()[k']) {
        assert f(SlDeltas()[k']).None?;
      }
      assert Accepted(sc, target, d, hDelta, sDelta, SlDeltas()[k]);
    } else {
      forall k | 0 <= k < 3 ensures !Accepted(sc, target, d, hDelta, sDelta, SlDeltas()[k]) {
        assert f(SlDeltas()[k]).None?;
      }
    }
  }

  /** The first accepted (saturation, lightness) pair of offsets, in loop order, or none exactly when none is accepted. */
  lemma TrySaturationFinds(sc: Science, target: real, d: AttemptDraw, hDelta: int)
    ensures TrySaturation(sc, target, d, hDelta).Some? ==>
      exists j, k :: 0 <= j < 3 && 0 <= k < 3 &&
        Accepted(sc, target, d, hDelta, SlDeltas()[j], SlDeltas()[k]) &&
        TrySaturation(sc, target, d, hDelta).value == PairAt(sc, d, hDelta, SlDeltas()[j], SlDeltas()[k]) &&
        forall j', k' :: 0 <= j' < 3 && 0 <= k' < 3 && TriedBefore(0, 0, j', k', 0, 0, j, k) ==>
          !Accepted(sc, target, d, hDelta, SlDeltas()[j'], SlDeltas()[k'])
    ensures TrySaturation(sc, target, d, hDelta).None? ==>
      forall j, k :: 0 <= j < 3 && 0 <= k < 3 ==> !Accepted(sc, target, d, hDelta, SlDeltas()[j], SlDeltas()[k])
  {
    var f := SatStep(sc, target, d, hDelta);
    var r := TrySaturation(sc, target, d, hDelta);
    FirstSomeFinds(SlDeltas(), f);
    if r.Some? {
      var j :| FirstAt(SlDeltas(), f, j) && f(SlDeltas()[j]) == r;
      TryLightnessFinds(sc, target, d, hDelta, SlDeltas()[j]);
      var k :| 0 <= k < 3 && Accepted(sc, target, d, hDelta, SlDeltas()[j], SlDeltas()[k]) &&
        r.value == PairAt(sc, d, hDelta, SlDeltas()[j], SlDeltas()[k]) &&
        forall k' :: 0 <= k' < k ==> !Accepted(sc, target, d, hDelta, SlDeltas()[j], SlDeltas()[k']);
      forall j', k' | 0 <= j' < 3 && 0 <= k' < 3 && TriedBefore(0, 0, j', k', 0, 0, j, k)
        ensures !Accepted(sc, target, d, hDelta, SlDeltas()[j'], SlDeltas()[k'])
      {
        if j' < j {
          assert f(SlDeltas()[j']).None?;
          TryLightnessFinds(sc, target, d, hDelta, SlDeltas()[j']);
        }
      }
    } else {
      forall j, k | 0 <= j < 3 && 0 <= k < 3
        ensures !Accepted(sc, target, d, hDelta, SlDeltas()[j], SlDeltas()[k])
      {
        assert f(SlDeltas()[j]).None?;
        TryLightnessFinds(sc, target, d, hDelta, SlDeltas()[j]);
      }
    }
  }

  /** Candidate (i, j, k) of one attempt passes, and none the loops try before it within the attempt does. */
  ghost predicate FirstInAttempt(sc: Science, target: real, level: int, d: AttemptDraw, i: int, j: int, k: int) {
    0 <= i < |HueDeltas(level)| && 0 <= j < 3 && 0 <= k < 3 &&
    Accepted(sc, target, d, HueDeltas(level)[i], SlDeltas()[j], SlDeltas()[k]) &&
    forall i', j', k' :: 0 <= i' < |HueDeltas(level)| && 0 <= j' < 3 && 0 <= k' < 3 && TriedBefore(0, i', j', k', 0, i, j, k) ==>
      !Accepted(sc, target, d, HueDeltas(level)[i'], SlDeltas()[j'], SlDeltas()[k'])
  }

  /** The first accepted candidate of one attempt, in loop order, or none exactly when none is accepted. */
  lemma TryAttemptFinds(sc: Science, target: real, level: int, d: AttemptDraw)
    ensures TryAttempt(sc, target, level, d).Some? ==>
      exists i, j, k :: FirstInAttempt(sc, target, level, d, i, j, k) &&
        TryAttempt(sc, target, level, d).value == PairAt(sc, d, HueDeltas(level)[i], SlDeltas()[j], SlDeltas()[k])
    ensures TryAttempt(sc, target, level, d).None? ==>
      forall i, j, k :: 0 <= i < |HueDeltas(level)| && 0 <= j < 3 && 0 <= k < 3 ==>
        !Accepted(sc, target, d, HueDeltas(level)[i], SlDeltas()[j], SlDeltas()[k])
  {
    var hs := HueDeltas(level);
    var f := HueStep(sc, target, d);
    var r := TryAttempt(sc, target, level, d);
    FirstSomeFinds(hs, f);
    if r.Some? {
      var i :| FirstAt(hs, f, i) && f(hs[i]) == r;
      TrySaturationFinds(sc, target, d, hs[i]);
      var j, k :| 0 <= j < 3 && 0 <= k < 3 && Accepted(sc, target, d, hs[i], SlDeltas()[j], SlDeltas()[k]) &&
        r.value == PairAt(sc, d, hs[i], SlDeltas()[j], SlDeltas()[k]) &&
        forall j', k' :: 0 <= j' < 3 && 0 <= k' < 3 && TriedBefore(0, 0, j', k', 0, 0, j, k) ==>
          !Accepted(sc, target, d, hs[i], SlDeltas()[j'], SlDeltas()[k']);
      forall i', j', k' | 0 <= i' < |hs| && 0 <= j' < 3 && 0 <= k' < 3 && TriedBefore(0, i', j', k', 0, i, j, k)
        ensures !Accepted(sc, target, d, hs[i'], SlDeltas()[j'], SlDeltas()[k'])
      {
        if i' < i {
          assert f(hs[i']).None?;
          TrySaturationFinds(sc, target, d, hs[i']);
        } else {
          assert TriedBefore(0, 0, j', k', 0, 0, j, k);
        }
      }
      assert FirstInAttempt(sc, target, level, d, i, j, k);
    } else {
      forall i, j, k | 0 <= i < |hs| && 0 <= j < 3 && 0 <= k < 3
        ensures !Accepted(sc, target, d, hs[i], SlDeltas()[j], SlDeltas()[k])
      {
        assert f(hs[i]).None?;
        TrySaturationFinds(sc, target, d, hs[i]);
      }
    }
  }

  /** Candidate (i, j, k) of attempt a passes, and no candidate the loops try before it does. */
  ghost predicate FirstAccepted(sc: Science, target: real, level: int, draws: seq<AttemptDraw>, a: int, i: int, j: int, k: int) {
    InSearch(level, draws, a, i, j, k) && AcceptedAt(sc, target, level, draws, a, i, j, k) &&
    forall a', i', j', k' :: InSearch(level, draws, a', i', j', k') && TriedBefore(a', i', j', k', a, i, j, k) ==>
      !AcceptedAt(sc, target, level, draws, a', i', j', k')
  }

  /** Attempts that find nothing have no accepted candidate. */
  lemma FailedAttemptsReject(sc: Science, target: real, level: int, draws: seq<AttemptDraw>, n: int)
    requires n <= |draws|
    requires forall a :: 0 <= a < n ==> TryAttempt(sc, target, level, draws[a]).None?
    ensures forall a, i, j, k :: InSearch(level, draws, a, i, j, k) && a < n ==> !AcceptedAt(sc, target, level, draws, a, i, j, k)
  {
    forall a, i, j, k | InSearch(level, draws, a, i, j, k) && a < n
      ensures !AcceptedAt(sc, target, level, draws, a, i, j, k)
    {
      TryAttemptFinds(sc, target, level, draws[a]);
    }
  }

  /** A candidate that comes first within its attempt, after attempts with none accepted, comes first overall. */
  lemma FirstWithinAttempt(sc: Science, target: real, level: int, draws: seq<AttemptDraw>, a: int, i: int, j: int, k: int)
    requires InSearch(level, draws, a, i, j, k) && AcceptedAt(sc, target, level, draws, a, i, j, k)
    requires forall a', i', j', k' :: InSearch(level, draws, a', i', j', k') && a' < a ==> !AcceptedAt(sc, target, level, draws, a', i', j', k')
    requires FirstInAttempt(sc, target, level, draws[a], i, j, k)
    ensures FirstAccepted(sc, target, level, draws, a, i, j, k)
  {
    forall a', i', j', k' | InSearch(level, draws, a', i', j', k') && TriedBefore(a', i', j', k', a, i, j, k)
      ensures !AcceptedAt(sc, target, level, draws, a', i', j', k')
    {
      if a' == a {
        assert TriedBefore(0, i', j', k', 0, i, j, k);
      }
    }
  }

  /** When some attempt finds a pair, it is the pair of the first accepted candidate. */
  lemma AttemptsFindFirst(sc: Science, target: real, level: int, draws: seq<AttemptDraw>)
    requires TryAttempts(sc, target, level, draws).Some?
    ensures exists a, i, j, k :: (FirstAccepted(sc, target, level, draws, a, i, j, k) &&
      TryAttempts(sc, target, level, draws).value == PairOf(sc, level, draws, a, i, j, k))
  {
    var f := AttemptStep(sc, target, level);
    var r := TryAttempts(sc, target, level, draws);
    FirstSomeFinds(draws, f);
    var a :| FirstAt(draws, f, a) && f(draws[a]) == r;
    assert forall a' :: 0 <= a' < a ==> f(draws[a']).None?;
    FailedAttemptsReject(sc, target, level, draws, a);
    TryAttemptFinds(sc, target, level, draws[a]);
    var hs := HueDeltas(level);
    var i, j, k :| FirstInAttempt(sc, target, level, draws[a], i, j, k) &&
      r.value == PairAt(sc, draws[a], hs[i], SlDeltas()[j], SlDeltas()[k]);
    FirstWithinAttempt(sc, target, level, draws, a, i, j, k);
  }

  /**
   * The generator's result has one of two forms: the first candidate, in the
   * order attempt, hue offset, saturation offset, lightness offset, that
   * passes the tolerance test, paired with its own attempt's base colour;
   * or, exactly when no candidate of any attempt passes, the level's
   * fallback pair.
   */
  lemma {:induction false} GenerateForms(sc: Science, target: real, level: int, draws: seq<AttemptDraw>)
    requires level >= 1
    ensures var p := Generate(sc, target, level, draws);
      (exists a, i, j, k :: FirstAccepted(sc, target, level, draws, a, i, j, k) && p == PairOf(sc, level, draws, a, i, j, k))
      || ((forall a, i, j, k :: InSearch(level, draws, a, i, j, k) ==> !AcceptedAt(sc, target, level, draws, a, i, j, k))
          && p == Fallback(level))
  {
    var f := AttemptStep(sc, target, level);
    if TryAttempts(sc, target, level, draws).Some? {
      AttemptsFindFirst(sc, target, level, draws);
    } else {
      FirstSomeFinds(draws, f);
      assert forall a :: 0 <= a < |draws| ==> f(draws[a]).None?;
      FailedAttemptsReject(sc, target, level, draws, |draws|);
    }
  }

  // ---------------------------------------------------------------- toHex

  /** `c.toString(16).padStart(2, '0')`. */
  function Hex2(c: Channel): string {
    JsText.PadStart(JsText.ToRadix(c, 16), 2, '0')
  }

  lemma Hex2Digits(c: Channel)
    ensures |Hex2(c)| == 2 && JsText.AllDigits(Hex2(c), 16) && Types.NoUpperCase(Hex2(c))
    ensures JsText.ParseDigits(Hex2(c), 16) == c
  {
    var s := JsText.ToRadix(c, 16);
    JsText.ToRadixLength(c, 16);
    JsText.ToRadixRoundTrip(c, 16);
    JsText.ZeroPaddedValue(s, 2, 16);
    var h := Hex2(c);
    forall i | 0 <= i < |h| ensures !JsText.IsUpperLetter(h[i]) {
      if i < |h| - |s| {
        assert h[i] == '0';
      } else {
        assert h[i] == h[|h| - |s|..][i - (|h| - |s|)] == s[i - (|h| - |s|)];
      }
    }
  }

  /**
   * `#` followed by the three channels as two lower-case hexadecimal digits
   * each; reading a group back gives its channel.
   */
  function ToHex(rgb: Rgb): (s: string)
    ensures Types.IsHexColor(s) && Types.NoUpperCase(s)
    ensures Types.ChannelValue(s, 0) == rgb.r
    ensures Types.ChannelValue(s, 1) == rgb.g
    ensures Types.ChannelValue(s, 2) == rgb.b
  {
    Hex2Digits(rgb.r);
    Hex2Digits(rgb.g);
    Hex2Digits(rgb.b);
    HexJoin(Hex2(rgb.r), Hex2(rgb.g), Hex2(rgb.b));
    "#" + Hex2(rgb.r) + Hex2(rgb.g) + Hex2(rgb.b)
  }

  /** `#` and three lower-case two-digit groups make a colour code whose groups are those three. */
  lemma HexJoin(x: string, y: string, z: string)
    requires |x| == 2 && |y| == 2 && |z| == 2
    requires JsText.AllDigits(x, 16) && JsText.AllDigits(y, 16) && JsText.AllDigits(z, 16)
    requires Types.NoUpperCase(x) && Types.NoUpperCase(y) && Types.NoUpperCase(z)
    ensures var s := "#" + x + y + z;
      Types.IsHexColor(s) && Types.NoUpperCase(s) &&
      Types.Group(s, 0) == x && Types.Group(s, 1) == y && Types.Group(s, 2) == z
  {
    var s := "#" + x + y + z;
    assert s[1..] == x + y + z;
    assert s[1..3] == x && s[3..5] == y && s[5..7] == z;
  }

  /** Distinct colours get distinct codes. */
  lemma ToHexInjective(x: Rgb, y: Rgb)
    requires ToHex(x) == ToHex(y)
    ensures x == y
  {
  }

  // ------------------------------------------------------------- patterns

  const Patterns: seq<string> := [
    "repeating-linear-gradient(45deg, transparent, transparent 2px, rgba(0,0,0,0.1) 2px, rgba(0,0,0,0.1) 4px)",
    "repeating-linear-gradient(-45deg, transparent, transparent 2px, rgba(0,0,0,0.1) 2px, rgba(0,0,0,0.1) 4px)",
    "radial-gradient(circle at 50% 50%, rgba(0,0,0,0.1) 2px, transparent 2px)",
    "linear-gradient(90deg, transparent 48%, rgba(0,0,0,0.1) 48%, rgba(0,0,0,0.1) 52%, transparent 52%)"
  ]

  /**
   * `patterns[index % patterns.length]`; a negative index that is not a
   * multiple of 4 gives a negative remainder and so `undefined` (None).
   */
  function GetPattern(index: int): (r: Option<string>)
    ensures index >= 0 ==> r == Some(Patterns[index % 4])
    ensures index < 0 ==> (r.Some? <==> index % 4 == 0)
  {
    var k := JsText.JsRem(index, |Patterns|);
    if k >= 0 then Some(Patterns[k]) else None
  }

  /** The overlay repeats every four indices. */
  lemma PatternPeriod(index: int)
    requires index >= 0
    ensures GetPattern(index + 4) == GetPattern(index)
  {
  }

  // -------------------------------------------------------------- the loops

  /**
   * `generateColorPair(targetDeltaE, level)`: 50 attempts, each searching
   * around a fresh base colour and returning the first accepted pair, then
   * the fallback. `tried` counts the candidates evaluated.
   */
  method GenerateColorPair(sc: Science, targetDeltaE: real, level: int, draws: seq<AttemptDraw>)
    returns (pair: ColorPair, ghost tried: nat)
    requires level >= 1
    requires |draws| == Attempts
    ensures pair == Generate(sc, targetDeltaE, level, draws)
    ensures tried <= MaxCandidates(level)
  {
    var hueShift := HueShift(level);
    ghost var perAttempt := 9 * |StepDown(hueShift)|;
    tried := 0;
    var attempt := 0;
    while attempt < Attempts
      invariant 0 <= attempt <= Attempts
      invariant TryAttempts(sc, targetDeltaE, level, draws) == FirstSome(draws[attempt..], AttemptStep(sc, targetDeltaE, level))
      invariant tried <= attempt * perAttempt
    {
      var found, n := SearchAround(sc, targetDeltaE, hueShift, draws[attempt]);
      CountStep(attempt, perAttempt, tried, n);
      tried := tried + n;
      assert draws[attempt..][0] == draws[attempt] && draws[attempt..][1..] == draws[attempt + 1..];
      FirstSomeUnfold(draws[attempt..], AttemptStep(sc, targetDeltaE, level));
      if found.Some? {
        pair := found.value;
        return;
      }
      attempt := attempt + 1;
    }
    var pairIndex := JsText.JsRem(level - 1, |Types.BackupColorPairs|);
    pair := ColorPair(Types.BackupColorPairs[pairIndex].0, Types.BackupColorPairs[pairIndex].1);
  }

  /**
   * One attempt's hue loop around the base colour of draw d, stopping at the
   * first offset whose saturation loop finds a pair.
   */
  method SearchAround(sc: Science, targetDeltaE: real, hueShift: int, d: AttemptDraw)
    returns (found: Option<ColorPair>, ghost tried: nat)
    requires hueShift >= 1
    ensures found == FirstSome(StepDown(hueShift), HueStep(sc, targetDeltaE, d))
    ensures tried <= 9 * |StepDown(hueShift)|
  {
    var baseRgb := sc.hslToRgb(d.h, d.s, d.l);
    var baseLab := sc.rgbToLab(baseRgb);
    var satShift := if d.satUp then 1 else -1;
    var lightShift := if d.lightUp then 1 else -1;
    tried := 0;
    var hDelta := hueShift;
    while hDelta >= 1
      invariant -1 <= hDelta <= hueShift
      invariant FirstSome(StepDown(hueShift), HueStep(sc, targetDeltaE, d)) == FirstSome(StepDown(hDelta), HueStep(sc, targetDeltaE, d))
      invariant tried == 9 * (|StepDown(hueShift)| - |StepDown(hDelta)|)
    {
      ghost var n;
      found, n := SearchSaturation(sc, targetDeltaE, d, baseRgb, baseLab, satShift, lightShift, hDelta);
      assert HueStep(sc, targetDeltaE, d)(hDelta) == found;
      StepDownUnfold(hDelta);
      if found.Some? {
        HitFirst(hDelta, HueStep(sc, targetDeltaE, d));
        tried := tried + n;
        return;
      }
      tried := tried + 9;
      SkipFirst(hDelta, HueStep(sc, targetDeltaE, d));
      hDelta := hDelta - 2;
    }
    found := None;
  }

  /** The saturation loop for one hue offset: the first of 5, 3, 1 whose lightness loop finds a pair. */
  method SearchSaturation(sc: Science, targetDeltaE: real, d: AttemptDraw, baseRgb: Rgb, baseLab: Lab,
                          satShift: int, lightShift: int, hDelta: int)
    returns (found: Option<ColorPair>, ghost tried: nat)
    requires baseRgb == BaseRgb(sc, d) && baseLab == sc.rgbToLab(baseRgb)
    requires satShift == Sign(d.satUp) && lightShift == Sign(d.lightUp)
    ensures found == TrySaturation(sc, targetDeltaE, d, hDelta)
    ensures tried <= 9 && (found.None? ==> tried == 9)
  {
    tried := 0;
    var sDelta := 5;
    SearchStarts(sc, targetDeltaE, d, hDelta, sDelta);
    while sDelta >= 1
      invariant -1 <= sDelta <= 5
      invariant TrySaturation(sc, targetDeltaE, d, hDelta) == FirstSome(StepDown(sDelta), SatStep(sc, targetDeltaE, d, hDelta))
      invariant tried == 3 * (3 - |StepDown(sDelta)|)
    {
      ghost var n;
      found, n := SearchLightness(sc, targetDeltaE, d, baseRgb, baseLab, satShift, lightShift, hDelta, sDelta);
      assert SatStep(sc, targetDeltaE, d, hDelta)(sDelta) == found;
      StepDownUnfold(sDelta);
      if found.Some? {
        HitFirst(sDelta, SatStep(sc, targetDeltaE, d, hDelta));
        tried := tried + n;
        return;
      }
      tried := tried + 3;
      SkipFirst(sDelta, SatStep(sc, targetDeltaE, d, hDelta));
      sDelta := sDelta - 2;
    }
    found := None;
  }

  /** The lightness loop for one hue and saturation offset: the first of 5, 3, 1 giving an accepted candidate. */
  method SearchLightness(sc: Science, targetDeltaE: real, d: AttemptDraw, baseRgb: Rgb, baseLab: Lab,
                         satShift: int, lightShift: int, hDelta: int, sDelta: int)
    returns (found: Option<ColorPair>, ghost tried: nat)
    requires baseRgb == BaseRgb(sc, d) && baseLab == sc.rgbToLab(baseRgb)
    requires satShift == Sign(d.satUp) && lightShift == Sign(d.lightUp)
    ensures found == TryLightness(sc, targetDeltaE, d, hDelta, sDelta)
    ensures tried <= 3 && (found.None? ==> tried == 3)
  {
    tried := 0;
    var lDelta := 5;
    SearchStarts(sc, targetDeltaE, d, hDelta, sDelta);
    while lDelta >= 1
      invariant -1 <= lDelta <= 5
      invariant TryLightness(sc, targetDeltaE, d, hDelta, sDelta) == FirstSome(StepDown(lDelta), LightStep(sc, targetDeltaE, d, hDelta, sDelta))
      invariant tried == 3 - |StepDown(lDelta)|
    {
      var newH := WrapHue(d.h, hDelta * (if d.hueUp(hDelta, sDelta, lDelta) then 1 else -1));
      var newS := Clamp(d.s + sDelta * satShift);
      var newL := Clamp(d.l + lDelta * lightShift);
      assert Hsl(newH, newS, newL) == Candidate(d, hDelta, sDelta, lDelta);
      var diffRgb := sc.hslToRgb(newH, newS, newL);
      var diffLab := sc.rgbToLab(diffRgb);
      var dE := sc.deltaE(baseLab, diffLab);
      tried := tried + 1;
      StepDownUnfold(lDelta);
      if WithinTolerance(dE, targetDeltaE) {
        found := Some(ColorPair(ToHex(baseRgb), ToHex(diffRgb)));
        assert LightStep(sc, targetDeltaE, d, hDelta, sDelta)(lDelta) == found;
        HitFirst(lDelta, LightStep(sc, targetDeltaE, d, hDelta, sDelta));
        return;
      }
      assert LightStep(sc, targetDeltaE, d, hDelta, sDelta)(lDelta).None?;
      SkipFirst(lDelta, LightStep(sc, targetDeltaE, d, hDelta, sDelta));
      lDelta := lDelta - 2;
    }
    found := None;
  }

  /** A loop step whose body finds nothing moves on to the next value. */
  lemma SkipFirst(start: int, step: int -> Option<ColorPair>)
    requires start >= 1 && step(start).None?
    ensures FirstSome(StepDown(start), step) == FirstSome(StepDown(start - 2), step)
  {
    StepDownUnfold(start);
    FirstSomeUnfold(StepDown(start), step);
  }

  /** A loop step whose body finds a pair returns it. */
  lemma HitFirst(start: int, step: int -> Option<ColorPair>)
    requires start >= 1 && step(start).Some?
    ensures FirstSome(StepDown(start), step) == step(start)
  {
    StepDownUnfold(start);
    FirstSomeUnfold(StepDown(start), step);
  }

  /** The saturation and lightness loops start at 5. */
  lemma SearchStarts(sc: Science, target: real, d: AttemptDraw, hDelta: int, sDelta: int)
    ensures TryLightness(sc, target, d, hDelta, sDelta) == FirstSome(StepDown(5), LightStep(sc, target, d, hDelta, sDelta))
    ensures TrySaturation(sc, target, d, hDelta) == FirstSome(StepDown(5), SatStep(sc, target, d, hDelta))
  {
  }

  /** Adding one attempt's candidates keeps the count within the attempts made so far. */
  lemma CountStep(attempt: int, perAttempt: int, tried: int, n: int)
    requires 0 <= attempt < Attempts && 0 <= perAttempt
    requires tried <= attempt * perAttempt && n <= perAttempt
    ensures tried + n <= (attempt + 1) * perAttempt <= Attempts * perAttempt
  {
    assert (attempt + 1) * perAttempt == attempt * perAttempt + perAttempt;
    assert Attempts * perAttempt - (attempt + 1) * perAttempt == (Attempts - attempt - 1) * perAttempt;
    assert (Attempts - attempt - 1) * perAttempt >= 0;
  }
}
