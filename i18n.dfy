/**
 * The two translation tables and `t(key, params)`: look the key up in the
 * current language's table, then, for each parameter in entry order, replace
 * the first `{name}` in the text by the parameter's value.
 */
module I18n {
  import opened Wrappers
  import JsText

  datatype Language = ZhTW | En

  datatype Key =
    | Title | Level | Time | Lives | BestRecord | NoBest | Reset | NextLevel | Retry
    | LevelComplete | GameOver | AllComplete | Congratulations | YourScore | AverageReach
    | BelowAverage | ShareResult | StartGame | ColorBlindMode | CorrectAnswer
    | ClickDifferent | WrongClick | LivesRemaining

  /** `translations[lang][key]`. */
  function Translation(lang: Language, key: Key): string {
    match lang
    case ZhTW => (
      match key
      case Title => "色感大測試"
      case Level => "關卡"
      case Time => "時間"
      case Lives => "生命"
      case BestRecord => "最佳紀錄"
      case NoBest => "無"
      case Reset => "重置"
      case NextLevel => "下一關"
      case Retry => "重試"
      case LevelComplete => "過關！"
      case GameOver => "遊戲結束"
      case AllComplete => "全部通關！"
      case Congratulations => "恭喜你！"
      case YourScore => "你達到第 {level} 關"
      case AverageReach => "~80%以上玩家可以完成第6關"
      case BelowAverage => "閣下色感判斷比較弱，建議給眼科醫生作檢查"
      case ShareResult => "分享結果"
      case StartGame => "開始遊戲"
      case ColorBlindMode => "色盲輔助模式"
      case CorrectAnswer => "正確答案！"
      case ClickDifferent => "點擊顏色不同的方格"
      case WrongClick => "點錯了！"
      case LivesRemaining => "剩餘 {lives} 次機會")
    case En => (
      match key
      case Title => "Color Sense Test"
      case Level => "Level"
      case Time => "Time"
      case Lives => "Lives"
      case BestRecord => "Best"
      case NoBest => "None"
      case Reset => "Reset"
      case NextLevel => "Next Level"
      case Retry => "Retry"
      case LevelComplete => "Level Complete!"
      case GameOver => "Game Over"
      case AllComplete => "All Complete!"
      case Congratulations => "Congratulations!"
      case YourScore => "You reached level {level}"
      case AverageReach => "~80% of players can complete level 6"
      case BelowAverage => "Your color perception seems weaker, consider consulting an eye doctor"
      case ShareResult => "Share Result"
      case StartGame => "Start Game"
      case ColorBlindMode => "Color Blind Mode"
      case CorrectAnswer => "Correct Answer!"
      case ClickDifferent => "Click the different colored tile"
      case WrongClick => "Wrong!"
      case LivesRemaining => "{lives} lives remaining")
  }

  /** A parameter value: a string or an (integral) number. */
  datatype Value = Text(s: string) | Number(n: int)

  /** `String(v)`. */
  function ValueString(v: Value): string {
    match v
    case Text(s) => s
    case Number(n) => JsText.NumberToString(n)
  }

  /** `{name}`. */
  function Placeholder(name: string): (p: string)
    ensures |p| == |name| + 2 && p[0] == '{' && p[|p| - 1] == '}' && p[1..|p| - 1] == name
  {
    "{" + name + "}"
  }

  /** One step of the `forEach`: `text.replace(`{${k}}`, String(v))`. */
  function ApplyParam(text: string, param: (string, Value)): string {
    JsText.Replace(text, Placeholder(param.0), ValueString(param.1))
  }

  /** The `forEach` over the parameters, in entry order, each acting on the previous result. */
  function ApplyAll(text: string, params: seq<(string, Value)>): string
    decreases |params|
  {
    if params == [] then text else ApplyAll(ApplyParam(text, params[0]), params[1..])
  }

  /** What `t(key, params)` returns; `params` is None when the argument is omitted. */
  function Translate(lang: Language, key: Key, params: Option<seq<(string, Value)>>): string {
    match params
    case None => Translation(lang, key)
    case Some(ps) => ApplyAll(Translation(lang, key), ps)
  }

  /** `t`, with its loop over the entries reassigning `text`. */
  method T(lang: Language, key: Key, params: Option<seq<(string, Value)>>) returns (text: string)
    ensures text == Translate(lang, key, params)
  {
    text := Translation(lang, key);
    if params.Some? {
      var ps := params.value;
      var i := 0;
      while i < |ps|
        invariant 0 <= i <= |ps|
        invariant ApplyAll(text, ps[i..]) == ApplyAll(Translation(lang, key), ps)
      {
        var (k, v) := ps[i];
        assert ps[i..][0] == ps[i] && ps[i..][1..] == ps[i + 1..];
        text := JsText.Replace(text, "{" + k + "}", ValueString(v));
        i := i + 1;
      }
    }
  }

  // --------------------------------------------------------------- lemmas

  /** Without parameters, or with none in the record, the text is the table entry verbatim. */
  lemma NoParamsVerbatim(lang: Language, key: Key)
    ensures Translate(lang, key, None) == Translation(lang, key)
    ensures Translate(lang, key, Some([])) == Translation(lang, key)
  {
  }

  /** Parameters act in entry order: one more entry is one more replacement, on the result so far. */
  lemma {:induction false} ApplyAppend(text: string, params: seq<(string, Value)>, last: (string, Value))
    ensures ApplyAll(text, params + [last]) == ApplyParam(ApplyAll(text, params), last)
    decreases |params|
  {
    if params == [] {
      assert [] + [last] == [last];
    } else {
      assert (params + [last])[0] == params[0];
      assert (params + [last])[1..] == params[1..] + [last];
      ApplyAppend(ApplyParam(text, params[0]), params[1..], last);
    }
  }

  /** A parameter whose placeholder does not occur leaves the text unchanged. */
  lemma AbsentParam(text: string, param: (string, Value))
    requires forall j :: !JsText.OccursAt(text, Placeholder(param.0), j)
    ensures ApplyParam(text, param) == text
  {
    JsText.ReplaceAbsent(text, Placeholder(param.0), ValueString(param.1));
  }

  /** A number is written with digits and a minus sign only, so it is inserted verbatim. */
  lemma NumberHasNoDollar(n: int)
    ensures '$' !in JsText.NumberToString(n)
  {
    var s := JsText.NumberToString(n);
    if n >= 0 {
      assert forall i :: 0 <= i < |s| ==> JsText.IsAlnum(s[i]);
    } else {
      assert forall i :: 1 <= i < |s| ==> s[i] == s[1..][i - 1] && JsText.IsAlnum(s[i]);
    }
  }

  /**
   * Only the first placeholder is replaced: with the text written as
   * `before + {name} + after`, `before` holding no `{`, a number parameter
   * goes exactly between `before` and `after`, and any later `{name}` in
   * `after` stays.
   */
  lemma FirstPlaceholderReplaced(before: string, name: string, after: string, n: int)
    requires '{' !in before
    ensures ApplyParam(before + Placeholder(name) + after, (name, Number(n))) ==
      before + JsText.NumberToString(n) + after
  {
    NumberHasNoDollar(n);
    JsText.ReplaceAfter(before, Placeholder(name), after, JsText.NumberToString(n));
  }

  /** Where `{level}` and `{lives}` sit in the four table entries that hold one. */
  lemma YourScoreEnForm()
    ensures Translation(En, YourScore) == "You reached level " + Placeholder("level") + ""
  {
  }

  lemma YourScoreZhForm()
    ensures Translation(ZhTW, YourScore) == "你達到第 " + Placeholder("level") + " 關"
  {
  }

  lemma LivesRemainingEnForm()
    ensures Translation(En, LivesRemaining) == "" + Placeholder("lives") + " lives remaining"
  {
  }

  lemma LivesRemainingZhForm()
    ensures Translation(ZhTW, LivesRemaining) == "剩餘 " + Placeholder("lives") + " 次機會"
  {
  }

  /** In both languages `yourScore` holds `{level}` exactly once. */
  lemma YourScoreHasOnePlaceholder(lang: Language)
    ensures JsText.Occurrences(Translation(lang, YourScore), Placeholder("level")) == 1
  {
    match lang
    case En =>
      YourScoreEnForm();
      JsText.ExactlyOnce("You reached level ", Placeholder("level"), "");
    case ZhTW =>
      YourScoreZhForm();
      JsText.ExactlyOnce("你達到第 ", Placeholder("level"), " 關");
  }

  /** In both languages `livesRemaining` holds `{lives}` exactly once. */
  lemma LivesRemainingHasOnePlaceholder(lang: Language)
    ensures JsText.Occurrences(Translation(lang, LivesRemaining), Placeholder("lives")) == 1
  {
    match lang
    case En =>
      LivesRemainingEnForm();
      JsText.ExactlyOnce("", Placeholder("lives"), " lives remaining");
    case ZhTW =>
      LivesRemainingZhForm();
      JsText.ExactlyOnce("剩餘 ", Placeholder("lives"), " 次機會");
  }

  /** A record with one entry is one replacement. */
  lemma SingleParam(text: string, param: (string, Value))
    ensures ApplyAll(text, [param]) == ApplyParam(text, param)
  {
    assert [param][1..] == [];
  }

  /** A text with one `{name}` after a stretch without `{`, and one number parameter for it. */
  lemma OneNumberParam(text: string, before: string, name: string, after: string, n: int)
    requires text == before + Placeholder(name) + after
    requires '{' !in before
    ensures ApplyAll(text, [(name, Number(n))]) == before + JsText.NumberToString(n) + after
  {
    SingleParam(text, (name, Number(n)));
    FirstPlaceholderReplaced(before, name, after, n);
  }

  /** The result dialog's score line for any level number. */
  lemma YourScoreText(lang: Language, level: int)
    ensures Translate(lang, YourScore, Some([("level", Number(level))])) ==
      match lang
      case En => "You reached level " + JsText.NumberToString(level)
      case ZhTW => "你達到第 " + JsText.NumberToString(level) + " 關"
  {
    match lang
    case En =>
      YourScoreEnForm();
      OneNumberParam(Translation(En, YourScore), "You reached level ", "level", "", level);
    case ZhTW =>
      YourScoreZhForm();
      OneNumberParam(Translation(ZhTW, YourScore), "你達到第 ", "level", " 關", level);
  }

  /** The lives line for any number of lives. */
  lemma LivesRemainingText(lang: Language, lives: int)
    ensures Translate(lang, LivesRemaining, Some([("lives", Number(lives))])) ==
      match lang
      case En => JsText.NumberToString(lives) + " lives remaining"
      case ZhTW => "剩餘 " + JsText.NumberToString(lives) + " 次機會"
  {
    match lang
    case En =>
      LivesRemainingEnForm();
      OneNumberParam(Translation(En, LivesRemaining), "", "lives", " lives remaining", lives);
    case ZhTW =>
      LivesRemainingZhForm();
      OneNumberParam(Translation(ZhTW, LivesRemaining), "剩餘 ", "lives", " 次機會", lives);
  }
}
