/** The weather icon: which animation a condition text selects, and the icon's
    pixel size. */
module WeatherLottie {
  import opened Wrappers
  import Text

  datatype Condition = Thunderstorms | Rain | Snow | Fog | PartlyCloudy | Clear

  /** An animation: the condition it shows, in its day or night variant. */
  datatype Animation = Animation(condition: Condition, day: bool)

  datatype Size = Sm | Md | Lg

  /** Some keyword occurs in `text`. */
  predicate MentionsAny(text: string, keywords: seq<string>)
    decreases |keywords|
  {
    |keywords| > 0 && (Text.Contains(text, keywords[0]) || MentionsAny(text, keywords[1..]))
  }

  /** The keyword groups in the order they are tried. */
  const Priority: seq<(Condition, seq<string>)> := [
    (Thunderstorms, ["thunder", "lightning", "storm"]),
    (Rain, ["rain", "shower", "drizzle"]),
    (Snow, ["snow", "flurries", "ice"]),
    (Fog, ["fog", "haze", "mist"]),
    (PartlyCloudy, ["cloud", "overcast", "partly"]),
    (Clear, ["clear", "sunny"])
  ]

  /** The condition of the first group that `text` mentions; clear when none does. */
  function FirstMatch(text: string, groups: seq<(Condition, seq<string>)>): Condition
    decreases |groups|
  {
    if |groups| == 0 then Clear
    else if MentionsAny(text, groups[0].1) then groups[0].0
    else FirstMatch(text, groups[1..])
  }

  /** The component's selection: the condition is lower-cased, the keyword tests
      are tried in order, anything unrecognised shows the clear sky, and the day
      variant is used unless `isDayTime` is given as false. */
  function ClassifyCondition(condition: string, isDayTime: Option<bool>): (a: Animation)
    ensures a.day == isDayTime.GetOr(true)
    ensures Text.Contains(Text.Lower(condition), "storm") ==> a.condition == Thunderstorms
  {
    var text := Text.Lower(condition);
    var day := isDayTime.GetOr(true);
    if Text.Contains(text, "thunder") || Text.Contains(text, "lightning") || Text.Contains(text, "storm") then
      Animation(Thunderstorms, day)
    else if Text.Contains(text, "rain") || Text.Contains(text, "shower") || Text.Contains(text, "drizzle") then
      Animation(Rain, day)
    else if Text.Contains(text, "snow") || Text.Contains(text, "flurries") || Text.Contains(text, "ice") then
      Animation(Snow, day)
    else if Text.Contains(text, "fog") || Text.Contains(text, "haze") || Text.Contains(text, "mist") then
      Animation(Fog, day)
    else if Text.Contains(text, "cloud") || Text.Contains(text, "overcast") || Text.Contains(text, "partly") then
      Animation(PartlyCloudy, day)
    else if Text.Contains(text, "clear") || Text.Contains(text, "sunny") then
      Animation(Clear, day)
    else
      Animation(Clear, day)
  }

  lemma MentionsThree(text: string, a: string, b: string, c: string)
    ensures MentionsAny(text, [a, b, c]) <==> Text.Contains(text, a) || Text.Contains(text, b) || Text.Contains(text, c)
  {
    assert [a, b, c][1..] == [b, c];
    assert [b, c][1..] == [c];
    assert [c][1..] == [];
    assert !MentionsAny(text, []);
    assert MentionsAny(text, [c]) <==> Text.Contains(text, c);
    assert MentionsAny(text, [b, c]) <==> Text.Contains(text, b) || Text.Contains(text, c);
  }

  /** The selection is the first keyword group, in priority order, that the
      lower-cased condition mentions. */
  lemma {:induction false} ClassifyFollowsPriority(condition: string, isDayTime: Option<bool>)
    ensures ClassifyCondition(condition, isDayTime).condition == FirstMatch(Text.Lower(condition), Priority)
  {
    var text := Text.Lower(condition);
    MentionsThree(text, "thunder", "lightning", "storm");
    MentionsThree(text, "rain", "shower", "drizzle");
    MentionsThree(text, "snow", "flurries", "ice");
    MentionsThree(text, "fog", "haze", "mist");
    MentionsThree(text, "cloud", "overcast", "partly");
    assert MentionsAny(text, ["clear", "sunny"]) <==> Text.Contains(text, "clear") || Text.Contains(text, "sunny") by {
      assert ["clear", "sunny"][1..] == ["sunny"];
      assert ["sunny"][1..] == [];
    }
    var p := Priority;
    assert p[1..][1..][1..][1..][1..][1..] == [];
  }

  /** Upper and lower case select the same animation. */
  lemma ClassifyIgnoresCase(condition: string, isDayTime: Option<bool>)
    ensures ClassifyCondition(Text.Lower(condition), isDayTime) == ClassifyCondition(condition, isDayTime)
  {
    Text.LowerIdempotent(condition);
  }

  /** A condition that names only clear-sky keywords, or no keyword at all,
      shows the clear-sky animation: the two cases cannot be told apart. */
  lemma UnknownLooksClear(condition: string, isDayTime: Option<bool>)
    requires forall g :: 0 <= g < |Priority| - 1 ==> !MentionsAny(Text.Lower(condition), Priority[g].1)
    ensures ClassifyCondition(condition, isDayTime) == Animation(Clear, isDayTime.GetOr(true))
  {
    ClassifyFollowsPriority(condition, isDayTime);
    var text := Text.Lower(condition);
    var p := Priority;
    assert !MentionsAny(text, p[0].1) && !MentionsAny(text, p[1].1) && !MentionsAny(text, p[2].1);
    assert !MentionsAny(text, p[3].1) && !MentionsAny(text, p[4].1);
    assert p[1..][1..][1..][1..][1..][1..] == [];
  }

  /** The square icon size in pixels; medium when no size is given. */
  function Pixels(size: Option<Size>): (r: (nat, nat))
    ensures r.0 == r.1
    ensures size == Some(Sm) <==> r.0 == 40
    ensures size.None? || size == Some(Md) <==> r.0 == 60
    ensures size == Some(Lg) <==> r.0 == 80
  {
    match size.GetOr(Md)
    case Sm => (40, 40)
    case Md => (60, 60)
    case Lg => (80, 80)
  }
}
