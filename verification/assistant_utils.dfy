/** Texts chosen from the stored preferences: greeting, input placeholder,
    description, assistant name, and the unit used to display a file size. */
module AssistantUtils {
  import opened LocalStorage

  /** The greeting table, by gender and language. */
  function Greetings(g: Gender, l: Language): (r: seq<string>)
    ensures |r| > 0
    ensures g == Neutral ==> |r| == 4
    ensures g != Neutral ==> |r| == 3
  {
    match (g, l)
    case (Neutral, En) => ["Hello", "Hi", "Hey there", "Welcome"]
    case (Neutral, Hi) => ["नमस्ते", "हेलो", "हाय", "स्वागत है"]
    case (Male, En) => ["Hello Sir", "Hi there Sir", "Welcome Sir"]
    case (Male, Hi) => ["नमस्ते श्रीमान", "हेलो सर", "स्वागत है श्रीमान"]
    case (Female, En) => ["Hello Ma'am", "Hi there Ma'am", "Welcome Ma'am"]
    case (Female, Hi) => ["नमस्ते मैडम", "हेलो मैडम", "स्वागत है मैडम"]
  }

  /** `Math.floor(u * n)` for a `Math.random()` draw `u`: always a valid index. */
  function PickIndex(u: real, n: nat): (i: nat)
    requires 0.0 <= u < 1.0
    requires n > 0
    ensures i < n
  {
    assert u * n as real < n as real by {
      assert (1.0 - u) * n as real > 0.0;
    }
    (u * n as real).Floor
  }

  /** `getGreeting`: a greeting from the table for the stored gender and
      language, followed by `, <name>` when a name is stored, and by `!`. */
  function GetGreeting(s: Store, u: real): (r: string)
    requires 0.0 <= u < 1.0
    ensures var p := GetStoredPreferences(s);
      exists i :: 0 <= i < |Greetings(p.gender, p.language)| &&
        var g := Greetings(p.gender, p.language)[i];
        (p.name != "" ==> r == g + ", " + p.name + "!") && (p.name == "" ==> r == g + "!")
  {
    var p := GetStoredPreferences(s);
    var list := Greetings(p.gender, p.language);
    var g := list[PickIndex(u, |list|)];
    if p.name != "" then g + ", " + p.name + "!" else g + "!"
  }

  /** Once a name is saved, every greeting addresses the user by it, drawn
      from the table of the gender and language already chosen. */
  lemma GreetingNamesUser(s: Store, name: string, u: real)
    requires name != ""
    requires 0.0 <= u < 1.0
    ensures var p := GetStoredPreferences(s);
      var r := GetGreeting(UpdatePreference(s, SetName(name)).0, u);
      exists i :: 0 <= i < |Greetings(p.gender, p.language)| &&
        r == Greetings(p.gender, p.language)[i] + ", " + name + "!"
  {
    var p := GetStoredPreferences(s);
    var s' := UpdatePreference(s, SetName(name)).0;
    var q := GetStoredPreferences(s');
    assert q.name == name && q.gender == p.gender && q.language == p.language;
    var r := GetGreeting(s', u);
    var i :| 0 <= i < |Greetings(q.gender, q.language)| &&
      var g := Greetings(q.gender, q.language)[i];
      (q.name != "" ==> r == g + ", " + q.name + "!") && (q.name == "" ==> r == g + "!");
    assert r == Greetings(p.gender, p.language)[i] + ", " + name + "!";
  }

  /** The text for the stored language: the English one exactly when English
      is stored (or nothing is), else the Hindi one. */
  function Localized(s: Store, en: string, hi: string): (r: string)
    ensures GetStoredPreferences(s).language == En ==> r == en
    ensures GetStoredPreferences(s).language == Hi ==> r == hi
    ensures s.prefs.None? ==> r == en
  {
    match GetStoredPreferences(s).language
    case En => en
    case Hi => hi
  }

  /** `getPlaceholderText`. */
  function GetPlaceholderText(s: Store): (r: string)
    ensures GetStoredPreferences(s).language == En ==> r == "Ask me anything..."
    ensures GetStoredPreferences(s).language == Hi ==> r == "कुछ भी पूछें..."
  {
    Localized(s, "Ask me anything...", "कुछ भी पूछें...")
  }

  /** `getDescriptionText`. */
  function GetDescriptionText(s: Store): (r: string)
    ensures GetStoredPreferences(s).language == En ==>
      r == "I can help you search the web, analyze documents, and answer your questions"
    ensures GetStoredPreferences(s).language == Hi ==>
      r == "मैं आपको वेब खोज, दस्तावेज़ विश्लेषण और आपके प्रश्नों के उत्तर देने में मदद कर सकता हूं"
  {
    Localized(s,
      "I can help you search the web, analyze documents, and answer your questions",
      "मैं आपको वेब खोज, दस्तावेज़ विश्लेषण और आपके प्रश्नों के उत्तर देने में मदद कर सकता हूं")
  }

  /** `getAssistantName`. */
  function GetAssistantName(s: Store): (r: string)
    ensures GetStoredPreferences(s).gender == Male <==> r == "Aiden"
    ensures GetStoredPreferences(s).gender == Female <==> r == "Sophia"
    ensures GetStoredPreferences(s).gender == Neutral <==> r == "Mitra"
  {
    match GetStoredPreferences(s).gender
    case Male => "Aiden"
    case Female => "Sophia"
    case Neutral => "Mitra"
  }

  /** After the user picks a gender, the assistant's name follows it, and a
      fresh store (no preferences yet) is greeted by "Mitra". */
  lemma AssistantNameFollowsGender(s: Store, g: Gender)
    ensures var r := GetAssistantName(UpdatePreference(s, SetGender(g)).0);
      r == (if g == Male then "Aiden" else if g == Female then "Sophia" else "Mitra")
    ensures GetAssistantName(EmptyStore) == "Mitra"
  {
  }

  datatype SizeUnit = B | KB | MB

  /** The unit `formatFileSize` prints for a size in bytes. */
  function FileSizeUnit(bytes: int): (u: SizeUnit)
    ensures u == B <==> bytes < 1024
    ensures u == KB <==> 1024 <= bytes < 1024 * 1024
    ensures u == MB <==> bytes >= 1024 * 1024
  {
    if bytes < 1024 then B
    else if bytes < 1024 * 1024 then KB
    else MB
  }
}
