/**
 * Environment themes (js/gui.js): the THEMES table, the choice of the next
 * theme, the attribute string a theme is applied with, and the light
 * settings written for it.
 */
module Themes {
  import opened Wrappers
  import opened Separated
  import opened Sequences

  /** A theme field's value. Every number in the table is a whole number of tenths. */
  datatype Value = Str(s: string) | Num(tenths: int) | Flag(b: bool)

  datatype Setting = Setting(field: string, value: Value)

  /** `Object.keys(THEMES)`: the table's own keys in insertion order. */
  const Names: seq<string> := ["night", "starry", "egypt", "forest", "dream", "volcano"]

  const NightSettings: seq<Setting> := [
    Setting("preset", Str("night")),
    Setting("skyType", Str("gradient")),
    Setting("skyColor", Str("#0d0d1a")),
    Setting("horizonColor", Str("#191970")),
    Setting("fog", Num(8)),
    Setting("flatShading", Flag(false)),
    Setting("ground", Str("flat")),
    Setting("groundTexture", Str("none")),
    Setting("groundColor", Str("#0a0a0a")),
    Setting("groundColor2", Str("#0a0a14")),
    Setting("grid", Str("none")),
    Setting("shadow", Flag(true)),
    Setting("playArea", Num(15)),
    Setting("lighting", Str("point")),
    Setting("lightPosition", Str("0 2.5 -0.5"))]

  /** The shape shared by the five other themes. */
  function LitTheme(name: string, ambient: string, directional: string, intensityTenths: int): seq<Setting>
  {
    [Setting("preset", Str(name)),
     Setting("lighting", Str("point")),
     Setting("lightPosition", Str("0 2.5 -0.5")),
     Setting("ambientColor", Str(ambient)),
     Setting("directionalColor", Str(directional)),
     Setting("lightIntensity", Num(intensityTenths)),
     Setting("shadow", Flag(true))]
  }

  /** `THEMES[name]`, for a key of the table. */
  function SettingsOf(name: string): (s: seq<Setting>)
    requires name in Names
    ensures |s| == if name == "night" then 15 else 7
    ensures s[0] == Setting("preset", Str(name))
  {
    if name == "night" then NightSettings
    else if name == "starry" then LitTheme("starry", "#b9d5ff", "#ffffff", 15)
    else if name == "egypt" then LitTheme("egypt", "#fff2cc", "#ffffe0", 15)
    else if name == "forest" then LitTheme("forest", "#c9e6ca", "#f5faf5", 15)
    else if name == "dream" then LitTheme("dream", "#e7d8f5", "#ffffff", 15)
    else LitTheme("volcano", "#ff8c7a", "#ffccaa", 17)
  }

  /** `names.indexOf(x)`, -1 when absent (an undefined preset is never found). */
  function IndexOf(names: seq<string>, x: Option<string>): (k: int)
    ensures -1 <= k < |names|
    ensures k == -1 <==> x.None? || x.value !in names
    ensures k >= 0 ==> names[k] == x.value && x.value !in names[..k]
    decreases |names|
  {
    if x.None? || |names| == 0 then -1
    else if names[0] == x.value then 0
    else
      var k := IndexOf(names[1..], x);
      if k == -1 then -1
      else
        assert names[..k + 1] == [names[0]] + names[1..][..k];
        k + 1
  }

  /** `themeName && THEMES[themeName]`, looking at the table's own keys only. */
  predicate IsKnown(themeName: Option<string>)
  {
    themeName.Some? && themeName.value in Names
  }

  /** The key after the current preset, wrapping around; an unknown preset gives the first key. */
  function CycleFrom(currentPreset: Option<string>): (next: string)
    ensures next in Names
    ensures currentPreset.None? || currentPreset.value !in Names ==> next == Names[0]
  {
    Names[(IndexOf(Names, currentPreset) + 1) % |Names|]
  }

  /** The theme `_themeSwitch` applies. */
  function ChooseTheme(themeName: Option<string>, currentPreset: Option<string>): (next: string)
    ensures next in Names
    ensures IsKnown(themeName) ==> next == themeName.value
    ensures !IsKnown(themeName) && (currentPreset.None? || currentPreset.value !in Names) ==> next == "night"
  {
    if IsKnown(themeName) then themeName.value else CycleFrom(currentPreset)
  }

  lemma NamesDistinct()
    ensures Distinct(Names)
  {
    assert Names[0] != Names[1] && Names[0] != Names[2];
  }

  lemma IndexOfFinds(names: seq<string>, i: nat)
    requires Distinct(names) && i < |names|
    ensures IndexOf(names, Some(names[i])) == i
  {
  }

  /** Cycling from the i-th key gives the next key in table order; volcano wraps to night. */
  lemma CycleStepsInTableOrder(themeName: Option<string>, i: nat)
    requires !IsKnown(themeName) && i < |Names|
    ensures ChooseTheme(themeName, Some(Names[i])) == Names[(i + 1) % |Names|]
    ensures Names[i] == "volcano" ==> ChooseTheme(themeName, Some(Names[i])) == "night"
  {
    KeyPosition(i);
    assert ChooseTheme(themeName, Some(Names[i])) == CycleFrom(Some(Names[i]));
  }

  /** Each key is found at its own position, and volcano is the last key. */
  lemma KeyPosition(i: nat)
    requires i < |Names|
    ensures IndexOf(Names, Some(Names[i])) == i
    ensures Names[i] == "volcano" <==> i == 5
    ensures CycleFrom(Some(Names[i])) == Names[(i + 1) % |Names|]
    ensures i == 5 ==> CycleFrom(Some(Names[i])) == "night"
  {
    KeyIndex(i);
    VolcanoIsLast(i);
  }

  lemma KeyIndex(i: nat)
    requires i < |Names|
    ensures IndexOf(Names, Some(Names[i])) == i
  {
    NamesDistinct();
    IndexOfFinds(Names, i);
  }

  lemma VolcanoIsLast(i: nat)
    requires i < |Names|
    ensures Names[i] == "volcano" <==> i == 5
  {
    NamesDistinct();
    assert Names[5] == "volcano";
  }

  /** Property names every object inherits from Object.prototype; each one looks up a truthy value. */
  const PrototypeNames: seq<string> := [
    "constructor", "__defineGetter__", "__defineSetter__", "hasOwnProperty",
    "__lookupGetter__", "__lookupSetter__", "isPrototypeOf", "propertyIsEnumerable",
    "toString", "valueOf", "__proto__", "toLocaleString"]

  /** The choice as the code writes it: `THEMES[themeName]` also finds inherited properties. */
  function ChooseThemeAsWritten(themeName: Option<string>, currentPreset: Option<string>): (next: string)
    ensures next in Names || next in PrototypeNames
    ensures themeName.Some? && themeName.value in PrototypeNames ==> next == themeName.value
  {
    if themeName.Some? && themeName.value != "" && (themeName.value in Names || themeName.value in PrototypeNames)
    then themeName.value
    else CycleFrom(currentPreset)
  }

  /** The written choice can name something that is not a theme at all. */
  lemma InheritedNameIsChosen()
    ensures ChooseThemeAsWritten(Some("constructor"), Some("night")) == "constructor"
    ensures "constructor" !in Names
  {
  }

  /** Apart from inherited property names, the written choice and the corrected one agree. */
  lemma AsWrittenAgreesOnOwnKeys(themeName: Option<string>, currentPreset: Option<string>)
    requires themeName.None? || themeName.value !in PrototypeNames
    ensures ChooseThemeAsWritten(themeName, currentPreset) == ChooseTheme(themeName, currentPreset)
  {
  }

  // ---------------------------------------------------------------------
  // The attribute string.
  // ---------------------------------------------------------------------

  function DigitChar(d: nat): (ch: char)
    requires d < 10
    ensures '0' <= ch <= '9'
  {
    (48 + d) as char
  }

  /** The number a string of decimal digits spells. */
  function DecimalValue(s: string): int
    decreases |s|
  {
    if s == [] then 0 else 10 * DecimalValue(s[..|s| - 1]) + (s[|s| - 1] as int - '0' as int)
  }

  /** Decimal digits of n, no leading zeros. */
  function NatText(n: nat): (s: string)
    ensures |s| >= 1
    ensures forall i :: 0 <= i < |s| ==> '0' <= s[i] <= '9'
    ensures DecimalValue(s) == n
    ensures |s| == 1 || s[0] != '0'
    decreases n
  {
    if n < 10 then [DigitChar(n)]
    else
      var s := NatText(n / 10) + [DigitChar(n % 10)];
      assert s[..|s| - 1] == NatText(n / 10);
      s
  }

  /** How `${value}` prints a number of tenths: 8 prints "0.8", 15 prints "1.5", 20 prints "2". */
  function NumText(tenths: int): (s: string)
    ensures forall i :: 0 <= i < |s| ==> '0' <= s[i] <= '9' || s[i] == '.' || s[i] == '-'
    ensures |s| >= 1
    ensures s[0] == '-' <==> tenths < 0
    ensures '.' in s <==> tenths % 10 != 0
  {
    var m := if tenths < 0 then -tenths else tenths;
    (if tenths < 0 then "-" else "") + NatText(m / 10)
    + (if m % 10 == 0 then "" else "." + [DigitChar(m % 10)])
  }

  /** The table's numbers print as JavaScript prints 0.8, 1.5 and 1.7. */
  lemma TableNumbersPrint()
    ensures NumText(8) == "0.8" && NumText(15) == "1.5" && NumText(17) == "1.7"
  {
    assert NatText(0) == "0" && NatText(1) == "1";
  }

  /** `${value}`: only the empty string prints as nothing. */
  function Text(v: Value): (t: string)
    ensures t == "" <==> v == Str("")
  {
    match v
    case Str(s) => s
    case Num(t) => NumText(t)
    case Flag(b) => if b then "true" else "false"
  }

  /** JavaScript truthiness of a field value. */
  predicate Truthy(v: Value)
  {
    match v
    case Str(s) => s != ""
    case Num(t) => t != 0
    case Flag(b) => b
  }

  /** `theme[field]`: the first setting with that name. */
  function Field(settings: seq<Setting>, field: string): (v: Option<Value>)
    ensures v.Some? ==> exists i :: 0 <= i < |settings| && settings[i] == Setting(field, v.value)
    ensures v.None? ==> forall i :: 0 <= i < |settings| ==> settings[i].field != field
  {
    FieldFrom(settings, field, 0)
  }

  function FieldFrom(settings: seq<Setting>, field: string, k: nat): (v: Option<Value>)
    ensures v.Some? ==> exists i :: k <= i < |settings| && settings[i] == Setting(field, v.value)
    ensures v.None? ==> forall i :: k <= i < |settings| ==> settings[i].field != field
    decreases |settings| - k
  {
    if k >= |settings| then None
    else if settings[k].field == field then Some(settings[k].value)
    else FieldFrom(settings, field, k + 1)
  }

  /** The `key: value` text of each setting. */
  function EntryTexts(settings: seq<Setting>): (r: seq<string>)
    ensures |r| == |settings|
  {
    seq(|settings|, i requires 0 <= i < |settings| => settings[i].field + ": " + Text(settings[i].value))
  }

  /** `themeString`: the entries joined by "; "; it starts with the first entry and is empty only for no entries. */
  function Attribute(settings: seq<Setting>): (s: string)
    ensures s == "" <==> |settings| == 0
    ensures |settings| >= 1 ==> EntryTexts(settings)[0] <= s
  {
    Join(EntryTexts(settings), "; ")
  }

  /** The (key, text) pairs a theme's string stands for. */
  function Rendered(settings: seq<Setting>): (r: seq<(string, string)>)
    ensures |r| == |settings|
  {
    seq(|settings|, i requires 0 <= i < |settings| => (settings[i].field, Text(settings[i].value)))
  }

  /** Reads an attribute string back: split on "; ", then each entry on ": ". */
  function ParseAttribute(s: string): Option<seq<(string, string)>>
  {
    ParseEntries(Split(s, "; "))
  }

  function ParseEntries(entries: seq<string>): Option<seq<(string, string)>>
    decreases |entries|
  {
    if |entries| == 0 then Some([])
    else
      var kv := Split(entries[0], ": ");
      var rest := ParseEntries(entries[1..]);
      if |kv| != 2 || rest.None? then None
      else Some([(kv[0], kv[1])] + rest.value)
  }

  /** Neither separator occurs. */
  predicate Clean(s: string)
  {
    !Occurs("; ", s) && !Occurs(": ", s)
  }

  lemma EntryIsClean(key: string, text: string)
    requires Clean(key) && Clean(text)
    ensures !Occurs("; ", key + ": " + text)
    ensures Split(key + ": " + text, ": ") == [key, text]
  {
    OccursNeedsChar("; ", ": ", ';');
    if Occurs("; ", key + ": ") {
      OccursInConcat("; ", key, ": ");
    }
    if Occurs("; ", key + ": " + text) {
      OccursInConcat("; ", key + ": ", text);
    }
    assert Join([key, text], ": ") == key + ": " + text;
    SplitJoin([key, text], ": ");
  }

  lemma {:induction false} ParseEntriesOfTexts(settings: seq<Setting>)
    requires forall i :: 0 <= i < |settings| ==> Clean(settings[i].field) && Clean(Text(settings[i].value))
    ensures ParseEntries(EntryTexts(settings)) == Some(Rendered(settings))
    decreases |settings|
  {
    if |settings| > 0 {
      var key, text := settings[0].field, Text(settings[0].value);
      var entries := EntryTexts(settings);
      assert Clean(key) && Clean(text);
      EntryIsClean(key, text);
      SettingsTail(settings);
      ParseEntriesOfTexts(settings[1..]);
      assert ParseEntries(entries) == Some([(key, text)] + Rendered(settings[1..]));
    }
  }

  /** The entry texts and the rendered pairs of a non-empty list, split into head and tail. */
  lemma SettingsTail(settings: seq<Setting>)
    requires |settings| > 0
    ensures EntryTexts(settings)[0] == settings[0].field + ": " + Text(settings[0].value)
    ensures EntryTexts(settings)[1..] == EntryTexts(settings[1..])
    ensures Rendered(settings) == [(settings[0].field, Text(settings[0].value))] + Rendered(settings[1..])
  {
  }

  /** Round trip: when no key or value text holds "; " or ": ", the attribute string reads back as the entries in order. */
  lemma AttributeRoundTrip(settings: seq<Setting>)
    requires |settings| >= 1
    requires forall i :: 0 <= i < |settings| ==> Clean(settings[i].field) && Clean(Text(settings[i].value))
    ensures ParseAttribute(Attribute(settings)) == Some(Rendered(settings))
  {
    forall i | 0 <= i < |settings|
      ensures !Occurs("; ", EntryTexts(settings)[i])
    {
      EntryIsClean(settings[i].field, Text(settings[i].value));
    }
    SplitJoin(EntryTexts(settings), "; ");
    ParseEntriesOfTexts(settings);
  }

  /** Neither ';' nor ':' appears. */
  predicate Plain(s: string)
  {
    ';' !in s && ':' !in s
  }

  predicate PlainSettings(settings: seq<Setting>)
  {
    forall i :: 0 <= i < |settings| ==>
      Plain(settings[i].field) && (settings[i].value.Str? ==> Plain(settings[i].value.s))
  }

  lemma PlainIsClean(s: string)
    requires Plain(s)
    ensures Clean(s)
  {
    OccursNeedsChar("; ", s, ';');
    OccursNeedsChar(": ", s, ':');
  }

  lemma TextIsPlain(v: Value)
    requires v.Str? ==> Plain(v.s)
    ensures Plain(Text(v))
  {
    if v.Num? {
      var t := Text(v);
      if ';' in t || ':' in t {
        var j :| 0 <= j < |t| && (t[j] == ';' || t[j] == ':');
      }
    }
  }

  /*
   * The literal keys and values of the table, checked for plainness a few at a time:
   * each literal unfolds into one fact per character, and a batch of about five keeps
   * every proof obligation small. SharedLiteralsArePlain gathers the batches.
   */
  lemma NightFieldsArePlain()
    ensures Plain("preset") && Plain("skyType") && Plain("skyColor") && Plain("horizonColor") && Plain("fog")
  {
  }

  lemma NightGroundFieldsArePlain()
    ensures Plain("flatShading") && Plain("ground") && Plain("groundTexture") && Plain("groundColor")
  {
  }

  lemma NightOtherFieldsArePlain()
    ensures Plain("groundColor2") && Plain("grid") && Plain("shadow") && Plain("playArea") && Plain("lighting")
  {
  }

  lemma NightValuesArePlain()
    ensures Plain("lightPosition") && Plain("night") && Plain("gradient") && Plain("#0d0d1a") && Plain("#191970")
  {
  }

  lemma SharedValuesArePlain()
    ensures Plain("flat") && Plain("none") && Plain("#0a0a0a") && Plain("#0a0a14") && Plain("point")
  {
  }

  lemma SharedFieldsArePlain()
    ensures Plain("0 2.5 -0.5") && Plain("ambientColor") && Plain("directionalColor") && Plain("lightIntensity")
  {
  }

  /** Every literal the night settings and the lit-theme template use. */
  lemma SharedLiteralsArePlain()
    ensures Plain("preset") && Plain("skyType") && Plain("skyColor") && Plain("horizonColor") && Plain("fog")
    ensures Plain("flatShading") && Plain("ground") && Plain("groundTexture") && Plain("groundColor")
    ensures Plain("groundColor2") && Plain("grid") && Plain("shadow") && Plain("playArea") && Plain("lighting")
    ensures Plain("lightPosition") && Plain("night") && Plain("gradient") && Plain("#0d0d1a") && Plain("#191970")
    ensures Plain("flat") && Plain("none") && Plain("#0a0a0a") && Plain("#0a0a14") && Plain("point")
    ensures Plain("0 2.5 -0.5") && Plain("ambientColor") && Plain("directionalColor") && Plain("lightIntensity")
  {
    NightFieldsArePlain();
    NightGroundFieldsArePlain();
    NightOtherFieldsArePlain();
    NightValuesArePlain();
    SharedValuesArePlain();
    SharedFieldsArePlain();
  }

  lemma ThemeNamesArePlain()
    ensures Plain("starry") && Plain("egypt") && Plain("forest") && Plain("dream") && Plain("volcano")
  {
  }

  lemma ColoursArePlain()
    ensures Plain("#b9d5ff") && Plain("#ffffff") && Plain("#fff2cc") && Plain("#ffffe0") && Plain("#c9e6ca")
  {
  }

  lemma MoreColoursArePlain()
    ensures Plain("#f5faf5") && Plain("#e7d8f5") && Plain("#ff8c7a") && Plain("#ffccaa")
  {
  }

  lemma LitThemeIsPlain(name: string, ambient: string, directional: string, tenths: int)
    requires Plain(name) && Plain(ambient) && Plain(directional)
    ensures PlainSettings(LitTheme(name, ambient, directional, tenths))
  {
    SharedLiteralsArePlain();
  }

  lemma TableIsPlain(name: string)
    requires name in Names
    ensures PlainSettings(SettingsOf(name))
  {
    SharedLiteralsArePlain();
    ThemeNamesArePlain();
    ColoursArePlain();
    MoreColoursArePlain();
    if name == "night" {
    } else if name == "starry" {
      LitThemeIsPlain("starry", "#b9d5ff", "#ffffff", 15);
    } else if name == "egypt" {
      LitThemeIsPlain("egypt", "#fff2cc", "#ffffe0", 15);
    } else if name == "forest" {
      LitThemeIsPlain("forest", "#c9e6ca", "#f5faf5", 15);
    } else if name == "dream" {
      LitThemeIsPlain("dream", "#e7d8f5", "#ffffff", 15);
    } else {
      LitThemeIsPlain("volcano", "#ff8c7a", "#ffccaa", 17);
    }
  }

  /** Every key and value text in the table is free of both separators. */
  lemma TableIsClean(name: string)
    requires name in Names
    ensures forall i :: 0 <= i < |SettingsOf(name)| ==>
              Clean(SettingsOf(name)[i].field) && Clean(Text(SettingsOf(name)[i].value))
  {
    var settings := SettingsOf(name);
    TableIsPlain(name);
    forall i | 0 <= i < |settings|
      ensures Clean(settings[i].field) && Clean(Text(settings[i].value))
    {
      TextIsPlain(settings[i].value);
      PlainIsClean(settings[i].field);
      PlainIsClean(Text(settings[i].value));
    }
  }

  /** Every theme's string reads back as its own entries. */
  lemma ThemeAttributeRoundTrip(name: string)
    requires name in Names
    ensures ParseAttribute(Attribute(SettingsOf(name))) == Some(Rendered(SettingsOf(name)))
  {
    TableIsClean(name);
    AttributeRoundTrip(SettingsOf(name));
  }

  /** Each theme's `preset` field names the theme itself, so cycling from an applied theme moves to the next key. */
  lemma PresetIsOwnName(name: string)
    requires name in Names
    ensures Field(SettingsOf(name), "preset") == Some(Str(name))
  {
  }

  // ---------------------------------------------------------------------
  // Lights.
  // ---------------------------------------------------------------------

  /** The `light` attribute strings for the ambient and the main directional light. */
  datatype Lights = Lights(ambient: string, directional: string)

  /** `value || '#fff'` for a colour field. */
  function ColourOrWhite(v: Option<Value>): (c: string)
    ensures v.Some? && Truthy(v.value) ==> c == Text(v.value)
    ensures v.None? || !Truthy(v.value) ==> c == "#fff"
    ensures c != ""
  {
    if v.Some? && Truthy(v.value) then Text(v.value) else "#fff"
  }

  function AmbientLight(colour: string): string
  {
    "color: " + colour + "; intensity: 0.5"
  }

  function DirectionalLight(colour: string): string
  {
    "color: " + colour + "; intensity: 0.8; castShadow: true"
  }

  /**
   * The lights `_themeSwitch` writes. Night has its own dim colours; starry's fixed
   * strings are exactly its own ambientColor and directionalColor; the other themes
   * read horizonColor and directionalColor, falling back to white.
   */
  function LightsFor(name: string): (l: Lights)
    requires name in Names
    ensures name != "night" ==>
              l.directional == DirectionalLight(ColourOrWhite(Field(SettingsOf(name), "directionalColor")))
    ensures name == "starry" ==>
              l.ambient == AmbientLight(ColourOrWhite(Field(SettingsOf(name), "ambientColor")))
    ensures name != "night" && name != "starry" ==>
              l.ambient == AmbientLight(ColourOrWhite(Field(SettingsOf(name), "horizonColor")))
  {
    if name == "night" then
      Lights("color: #0a1025; intensity: 0.25", "color: #2c4073; intensity: 0.5; castShadow: true")
    else if name == "starry" then
      LitThemeFields("starry", "#b9d5ff", "#ffffff", 15);
      Lights(AmbientLight("#b9d5ff"), DirectionalLight("#ffffff"))
    else
      var settings := SettingsOf(name);
      Lights(AmbientLight(ColourOrWhite(Field(settings, "horizonColor"))),
             DirectionalLight(ColourOrWhite(Field(settings, "directionalColor"))))
  }

  lemma LitThemeFields(name: string, ambient: string, directional: string, tenths: int)
    ensures Field(LitTheme(name, ambient, directional, tenths), "horizonColor") == None
    ensures Field(LitTheme(name, ambient, directional, tenths), "ambientColor") == Some(Str(ambient))
    ensures Field(LitTheme(name, ambient, directional, tenths), "directionalColor") == Some(Str(directional))
  {
    var settings := LitTheme(name, ambient, directional, tenths);
    assert FieldFrom(settings, "ambientColor", 3) == Some(Str(ambient));
    assert FieldFrom(settings, "directionalColor", 4) == Some(Str(directional));
  }

  /**
   * The other themes have no horizonColor, so their ambient light is white (their
   * ambientColor field is never read); the directional light takes directionalColor.
   */
  lemma OtherThemesLights(name: string)
    requires name in Names && name != "night" && name != "starry"
    ensures Field(SettingsOf(name), "horizonColor") == None
    ensures LightsFor(name).ambient == AmbientLight("#fff")
    ensures Field(SettingsOf(name), "directionalColor").Some?
    ensures LightsFor(name).directional == DirectionalLight(Text(Field(SettingsOf(name), "directionalColor").value))
  {
    if name == "egypt" {
      LitThemeFields("egypt", "#fff2cc", "#ffffe0", 15);
    } else if name == "forest" {
      LitThemeFields("forest", "#c9e6ca", "#f5faf5", 15);
    } else if name == "dream" {
      LitThemeFields("dream", "#e7d8f5", "#ffffff", 15);
    } else {
      LitThemeFields("volcano", "#ff8c7a", "#ffccaa", 17);
    }
  }

  // ---------------------------------------------------------------------
  // _themeSwitch.
  // ---------------------------------------------------------------------

  datatype SwitchOutcome =
    | NoEnvironment                                         // no [environment] entity: returns null
    | Applied(theme: string, attribute: string, lights: Lights)
    | ApplyFailed(previous: Option<string>)                 // a setAttribute threw: returns the previous preset

  /**
   * `_themeSwitch(themeName)`, given whether the environment entity exists, its
   * current preset, and whether applying the settings throws.
   */
  function ThemeSwitch(environmentFound: bool, currentPreset: Option<string>, themeName: Option<string>,
                       applyThrows: bool): (o: SwitchOutcome)
    ensures o.NoEnvironment? <==> !environmentFound
    ensures o.ApplyFailed? <==> environmentFound && applyThrows
    ensures o.ApplyFailed? ==> o.previous == currentPreset
    ensures o.Applied? ==> o.theme in Names && (IsKnown(themeName) ==> o.theme == themeName.value)
    ensures o.Applied? ==> o.theme == ChooseTheme(themeName, currentPreset)
    ensures o.Applied? ==> ParseAttribute(o.attribute) == Some(Rendered(SettingsOf(o.theme)))
    ensures o.Applied? ==> o.lights == LightsFor(o.theme)
  {
    if !environmentFound then NoEnvironment
    else if applyThrows then ApplyFailed(currentPreset)
    else
      var next := ChooseTheme(themeName, currentPreset);
      ThemeAttributeRoundTrip(next);
      Applied(next, Attribute(SettingsOf(next)), LightsFor(next))
  }

  /** The value `_themeSwitch` returns. */
  function Returned(o: SwitchOutcome): (r: Option<string>)
    ensures o.NoEnvironment? ==> r.None?
    ensures o.Applied? ==> r == Some(o.theme)
    ensures o.ApplyFailed? ==> r == o.previous
  {
    match o
    case NoEnvironment => None
    case Applied(theme, _, _) => Some(theme)
    case ApplyFailed(previous) => previous
  }

  /**
   * What `_themeSwitch` returns for given inputs: null without an environment,
   * the previous preset when applying throws, and otherwise the name of a key
   * of the table, the one requested when it is a key.
   */
  lemma SwitchReturns(environmentFound: bool, currentPreset: Option<string>, themeName: Option<string>,
                      applyThrows: bool)
    ensures Returned(ThemeSwitch(environmentFound, currentPreset, themeName, applyThrows))
              == if !environmentFound then None
                 else if applyThrows then currentPreset
                 else Some(ChooseTheme(themeName, currentPreset))
    ensures environmentFound && !applyThrows ==>
              Returned(ThemeSwitch(environmentFound, currentPreset, themeName, applyThrows)).value in Names
  {
  }
}
