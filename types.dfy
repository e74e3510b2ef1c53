/**
 * The static tables of the game: the ten level configurations and the six
 * fallback colour pairs, with the facts about them that the rest of the
 * game relies on (increasing difficulty, grid sizes, colour notation).
 */
module Types {
  import JsText

  /** One row of the level table; `deltaE` is the CIE76 colour distance the level aims for. */
  datatype LevelConfig = LevelConfig(level: int, gridCols: int, gridRows: int, cellSize: int, deltaE: real)

  const MaxLevel: int := 10

  const LevelConfigs: seq<LevelConfig> := [
    LevelConfig(1, 3, 3, 120, 8.0),
    LevelConfig(2, 3, 3, 110, 7.0),
    LevelConfig(3, 3, 3, 100, 6.0),
    LevelConfig(4, 4, 4, 90, 5.0),
    LevelConfig(5, 4, 4, 80, 4.0),
    LevelConfig(6, 5, 5, 70, 3.5),
    LevelConfig(7, 5, 5, 65, 3.0),
    LevelConfig(8, 5, 5, 60, 2.5),
    LevelConfig(9, 5, 6, 55, 0.8),
    LevelConfig(10, 5, 6, 50, 0.5)
  ]

  /** The table lookup `LEVEL_CONFIGS[level - 1]`; the source has no entry outside 1..10. */
  function Config(level: int): (c: LevelConfig)
    requires 1 <= level <= MaxLevel
    ensures c == LevelConfigs[level - 1] && c.level == level
    ensures 3 <= c.gridCols && 3 <= c.gridRows && c.deltaE > 0.0
  {
    LevelConfigs[level - 1]
  }

  /** The number of tiles of a level's grid. */
  function CellCount(level: int): (n: nat)
    requires 1 <= level <= MaxLevel
    ensures 9 <= n <= 30
  {
    Config(level).gridCols * Config(level).gridRows
  }

  /** Ten entries, entry i describing level i + 1. */
  lemma LevelNumbers()
    ensures |LevelConfigs| == MaxLevel
    ensures forall i :: 0 <= i < |LevelConfigs| ==> LevelConfigs[i].level == i + 1
  {
  }

  /** Each level asks for a strictly smaller colour distance than the one before: from 8 down to 0.5. */
  lemma DeltaEDecreasing()
    ensures Config(1).deltaE == 8.0 && Config(MaxLevel).deltaE == 0.5
    ensures forall a, b :: 1 <= a < b <= MaxLevel ==> Config(a).deltaE > Config(b).deltaE
  {
  }

  /** Grids never shrink: 9 tiles for levels 1-3, 30 for levels 9-10. */
  lemma CellCountNonDecreasing()
    ensures forall a, b :: 1 <= a <= b <= MaxLevel ==> CellCount(a) <= CellCount(b)
    ensures forall a :: 1 <= a <= 3 ==> CellCount(a) == 9
    ensures forall a :: 9 <= a <= MaxLevel ==> CellCount(a) == 30
  {
  }

  /** Tiles get strictly smaller: from 120 down to 50 pixels. */
  lemma CellSizeDecreasing()
    ensures Config(1).cellSize == 120 && Config(MaxLevel).cellSize == 50
    ensures forall a, b :: 1 <= a < b <= MaxLevel ==> Config(a).cellSize > Config(b).cellSize
  {
  }

  // ------------------------------------------------------- colour notation

  /** `#rrggbb`: a '#' and six hexadecimal digits of either case. */
  predicate IsHexColor(s: string) {
    |s| == 7 && s[0] == '#' && forall i :: 1 <= i < 7 ==> JsText.IsDigitOf(s[i], 16)
  }

  predicate NoLowerCase(s: string) {
    forall i :: 0 <= i < |s| ==> !('a' <= s[i] <= 'z')
  }

  predicate NoUpperCase(s: string) {
    forall i :: 0 <= i < |s| ==> !JsText.IsUpperLetter(s[i])
  }

  /** The two hexadecimal digits of channel k (0 red, 1 green, 2 blue). */
  function Group(s: string, k: nat): (g: string)
    requires IsHexColor(s) && k < 3
    ensures |g| == 2 && JsText.AllDigits(g, 16)
  {
    s[1 + 2 * k..3 + 2 * k]
  }

  /** The value 0..255 of channel k. */
  function ChannelValue(s: string, k: nat): (v: nat)
    requires IsHexColor(s) && k < 3
  {
    JsText.ParseDigits(Group(s, k), 16)
  }

  /** How many of the three channels two colours disagree on. */
  function DifferingChannels(a: string, b: string): (n: nat)
    requires IsHexColor(a) && IsHexColor(b)
    ensures n <= 3
  {
    (if Group(a, 0) != Group(b, 0) then 1 else 0)
    + (if Group(a, 1) != Group(b, 1) then 1 else 0)
    + (if Group(a, 2) != Group(b, 2) then 1 else 0)
  }

  // ---------------------------------------------------- fallback colours

  const BackupColorPairs: seq<(string, string)> := [
    ("#C8C8C8", "#C0C8C8"),
    ("#646464", "#646364"),
    ("#0096C8", "#0095C8"),
    ("#FFC8C8", "#FFC7C8"),
    ("#64C864", "#64C964"),
    ("#9696FF", "#9695FF")
  ]

  /** Six pairs, each of two `#RRGGBB` colours. */
  lemma BackupPairsShape()
    ensures |BackupColorPairs| == 6
    ensures forall i :: 0 <= i < |BackupColorPairs| ==> IsHexColor(BackupColorPairs[i].0) && IsHexColor(BackupColorPairs[i].1)
  {
  }

  /** The fallback colours are written in upper case. */
  lemma BackupPairsUpperCase()
    ensures forall i :: 0 <= i < |BackupColorPairs| ==> NoLowerCase(BackupColorPairs[i].0) && NoLowerCase(BackupColorPairs[i].1)
  {
  }

  /** Two colours that agree on every digit outside channel k, and not inside it, differ in that channel only. */
  lemma OnlyChannelDiffers(a: string, b: string, k: nat)
    requires IsHexColor(a) && IsHexColor(b) && k < 3
    requires a[1 + 2 * k] != b[1 + 2 * k] || a[2 + 2 * k] != b[2 + 2 * k]
    requires forall j :: 1 <= j < 7 && j != 1 + 2 * k && j != 2 + 2 * k ==> a[j] == b[j]
    ensures DifferingChannels(a, b) == 1
  {
    forall c | 0 <= c < 3
      ensures Group(a, c) == Group(b, c) <==> c != k
    {
      if c != k {
        assert Group(a, c)[0] == a[1 + 2 * c] == b[1 + 2 * c] == Group(b, c)[0];
        assert Group(a, c)[1] == a[2 + 2 * c] == b[2 + 2 * c] == Group(b, c)[1];
      } else {
        assert Group(a, c)[0] == a[1 + 2 * c] && Group(b, c)[0] == b[1 + 2 * c];
        assert Group(a, c)[1] == a[2 + 2 * c] && Group(b, c)[1] == b[2 + 2 * c];
      }
    }
  }

  /** The two colours of every fallback pair differ in exactly one channel. */
  lemma BackupPairsDifferInOneChannel()
    ensures forall i :: 0 <= i < |BackupColorPairs| ==>
      IsHexColor(BackupColorPairs[i].0) && IsHexColor(BackupColorPairs[i].1) &&
      DifferingChannels(BackupColorPairs[i].0, BackupColorPairs[i].1) == 1
  {
    BackupPairsShape();
    OnlyChannelDiffers(BackupColorPairs[0].0, BackupColorPairs[0].1, 0);
    OnlyChannelDiffers(BackupColorPairs[1].0, BackupColorPairs[1].1, 1);
    OnlyChannelDiffers(BackupColorPairs[2].0, BackupColorPairs[2].1, 1);
    OnlyChannelDiffers(BackupColorPairs[3].0, BackupColorPairs[3].1, 1);
    OnlyChannelDiffers(BackupColorPairs[4].0, BackupColorPairs[4].1, 1);
    OnlyChannelDiffers(BackupColorPairs[5].0, BackupColorPairs[5].1, 1);
  }
}
