/**
 * Themes of the custom element: a theme is an object of CSS settings plus the
 * style generator, modelled as a map from property names to values.
 */
module Theme {

  /** A theme entry: a CSS fragment, or the `generateStyles` function (its template is not modelled). */
  datatype ThemeValue = Css(text: string) | StyleGenerator

  /** The property names the default theme defines. */
  const DefaultNames: set<string> := {
    "backgroundColor", "textColor", "borderColor", "hoverBorderColor", "selectedBgColor",
    "selectedTextColor", "inputBorderColor", "groupLabelColor", "groupLabelBgColor",
    "groupLabelBorderColor", "borderWidth", "borderRadius", "fontSize", "padding", "itemPadding",
    "groupItemPadding", "maxHeight", "width", "dropdownShadow", "transitionSpeed", "additionalStyles",
    "generateStyles"
  }

  /** A property name the defaults do not define. */
  type ExtraName = n: string | n !in DefaultNames witness "zIndex"

  /**
   * A theme property name: the ones the default theme defines, and any other
   * name a custom theme may add (`Other`, which cannot spell a default name, so
   * every property name has exactly one key).
   */
  datatype Key =
    BackgroundColor | TextColor | BorderColor | HoverBorderColor | SelectedBgColor |
    SelectedTextColor | InputBorderColor | GroupLabelColor | GroupLabelBgColor |
    GroupLabelBorderColor | BorderWidth | BorderRadius | FontSize | Padding | ItemPadding |
    GroupItemPadding | MaxHeight | Width | DropdownShadow | TransitionSpeed | AdditionalStyles |
    GenerateStyles | Other(name: ExtraName)

  /** The property name a key stands for. */
  function Name(k: Key): string
  {
    match k
    case BackgroundColor => "backgroundColor"
    case TextColor => "textColor"
    case BorderColor => "borderColor"
    case HoverBorderColor => "hoverBorderColor"
    case SelectedBgColor => "selectedBgColor"
    case SelectedTextColor => "selectedTextColor"
    case InputBorderColor => "inputBorderColor"
    case GroupLabelColor => "groupLabelColor"
    case GroupLabelBgColor => "groupLabelBgColor"
    case GroupLabelBorderColor => "groupLabelBorderColor"
    case BorderWidth => "borderWidth"
    case BorderRadius => "borderRadius"
    case FontSize => "fontSize"
    case Padding => "padding"
    case ItemPadding => "itemPadding"
    case GroupItemPadding => "groupItemPadding"
    case MaxHeight => "maxHeight"
    case Width => "width"
    case DropdownShadow => "dropdownShadow"
    case TransitionSpeed => "transitionSpeed"
    case AdditionalStyles => "additionalStyles"
    case GenerateStyles => "generateStyles"
    case Other(name) => name
  }

  /** `FilteredSelectDefaultTheme`. */
  const DefaultTheme: map<Key, ThemeValue> := map[
    BackgroundColor := Css("white"),
    TextColor := Css("black"),
    BorderColor := Css("black"),
    HoverBorderColor := Css("black"),
    SelectedBgColor := Css("black"),
    SelectedTextColor := Css("white"),
    InputBorderColor := Css("#ccc"),
    GroupLabelColor := Css("#333"),
    GroupLabelBgColor := Css("white"),
    GroupLabelBorderColor := Css("#ccc"),
    BorderWidth := Css("1px"),
    BorderRadius := Css("0px"),
    FontSize := Css("14px"),
    Padding := Css("0.25rem 0.5rem"),
    ItemPadding := Css("0.25rem"),
    GroupItemPadding := Css("0.25rem 1rem"),
    MaxHeight := Css("10rem"),
    Width := Css("100%"),
    DropdownShadow := Css("0 2px 4px rgba(0,0,0,0.2)"),
    TransitionSpeed := Css("0.2s"),
    AdditionalStyles := Css(""),
    GenerateStyles := StyleGenerator
  ]

  /** The default theme defines every named property, each a CSS value except the generator. */
  lemma DefaultThemeKeys()
    ensures forall k :: k in DefaultTheme <==> !k.Other?
    ensures forall k :: k in DefaultTheme ==> (DefaultTheme[k].Css? <==> k != GenerateStyles)
  {
  }

  /**
   * Every named key's name is listed, so no `Other` key spells it: as in the
   * object spread, a custom setting for a default property overrides that property.
   * (The named keys are exactly the default theme's keys, by `DefaultThemeKeys`.)
   */
  lemma OtherNeverSpellsADefault()
    ensures forall k: Key :: !k.Other? ==> Name(k) in DefaultNames
    ensures forall k: Key, o: Key :: !k.Other? && o.Other? ==> Name(k) != Name(o)
  {
    forall k: Key | !k.Other?
      ensures Name(k) in DefaultNames
    {
      NamedKeyIsListed(k);
    }
  }

  lemma NamedKeyIsListed(k: Key)
    requires !k.Other?
    ensures Name(k) in DefaultNames
  {
  }

  /** The theme `createFilteredSelectTheme(custom)` builds: the defaults, each key of `custom` overriding. */
  function Merged(custom: map<Key, ThemeValue>): map<Key, ThemeValue>
  {
    DefaultTheme + custom
  }

  /** A merged theme has the default keys and the custom ones; custom values win, the rest are defaults. */
  lemma MergedValues(custom: map<Key, ThemeValue>)
    ensures Merged(custom).Keys == DefaultTheme.Keys + custom.Keys
    ensures forall k :: k in custom ==> Merged(custom)[k] == custom[k]
    ensures forall k :: k in DefaultTheme && k !in custom ==> Merged(custom)[k] == DefaultTheme[k]
  {
  }

  /**
   * `createFilteredSelectTheme(custom)`: a fresh copy of the defaults, then one
   * assignment per key of `custom`, in whatever order the keys come.
   */
  method CreateTheme(custom: map<Key, ThemeValue>) returns (theme: map<Key, ThemeValue>)
    ensures theme == Merged(custom)
  {
    theme := DefaultTheme;
    var remaining := custom.Keys;
    while remaining != {}
      invariant remaining <= custom.Keys
      invariant theme == DefaultTheme + (custom - remaining)
      decreases remaining
    {
      var key :| key in remaining;
      theme := theme[key := custom[key]];
      remaining := remaining - {key};
    }
    assert custom - {} == custom;
  }

  /** Called without an argument (`customTheme = {}`), the helper returns the defaults. */
  lemma NoArgumentGivesDefaults()
    ensures Merged(map[]) == DefaultTheme
  {
    assert DefaultTheme + map[] == DefaultTheme;
  }

  /** The overrides of `FilteredSelectDarkTheme`. */
  const DarkOverrides: map<Key, ThemeValue> := map[
    BackgroundColor := Css("#333"),
    TextColor := Css("#eee"),
    BorderColor := Css("#666"),
    HoverBorderColor := Css("#999"),
    SelectedBgColor := Css("#0066cc"),
    SelectedTextColor := Css("white"),
    InputBorderColor := Css("#666"),
    GroupLabelColor := Css("#ccc"),
    GroupLabelBgColor := Css("#333"),
    GroupLabelBorderColor := Css("#666"),
    BorderRadius := Css("4px"),
    DropdownShadow := Css("0 2px 8px rgba(0,0,0,0.5)")
  ]

  /** The overrides of `FilteredSelectRoundedTheme`. */
  const RoundedOverrides: map<Key, ThemeValue> := map[
    BorderColor := Css("#ccc"),
    HoverBorderColor := Css("#0066cc"),
    SelectedBgColor := Css("#0066cc"),
    BorderRadius := Css("20px"),
    ItemPadding := Css("0.5rem 1rem"),
    GroupItemPadding := Css("0.5rem 1.5rem"),
    FontSize := Css("16px"),
    DropdownShadow := Css("0 4px 8px rgba(0,0,0,0.1)"),
    TransitionSpeed := Css("0.3s")
  ]

  /** `FilteredSelectDarkTheme`. */
  const DarkTheme: map<Key, ThemeValue> := Merged(DarkOverrides)

  /** `FilteredSelectRoundedTheme`. */
  const RoundedTheme: map<Key, ThemeValue> := Merged(RoundedOverrides)

  /** Both example themes only override existing settings: they have the default keys and no others. */
  lemma ExampleThemesKeepTheKeys()
    ensures DarkTheme.Keys == DefaultTheme.Keys
    ensures RoundedTheme.Keys == DefaultTheme.Keys
  {
    assert DarkOverrides.Keys <= DefaultTheme.Keys;
    assert RoundedOverrides.Keys <= DefaultTheme.Keys;
  }

  /** The dark theme's own settings: dark colours and 4px corners. */
  lemma DarkThemeColours()
    ensures DarkTheme[BackgroundColor] == Css("#333") && DarkTheme[TextColor] == Css("#eee")
    ensures DarkTheme[SelectedBgColor] == Css("#0066cc") && DarkTheme[BorderRadius] == Css("4px")
  {
    assert BackgroundColor in DarkOverrides && TextColor in DarkOverrides;
    assert SelectedBgColor in DarkOverrides && BorderRadius in DarkOverrides;
  }

  /** What the dark theme does not override stays as by default: sizes, spacing, timing, the generator. */
  lemma DarkThemeKeepsDefaults()
    ensures DarkTheme[BorderWidth] == Css("1px") && DarkTheme[FontSize] == Css("14px")
    ensures DarkTheme[ItemPadding] == Css("0.25rem") && DarkTheme[TransitionSpeed] == Css("0.2s")
    ensures DarkTheme[GenerateStyles] == StyleGenerator
  {
    KeepsDefault(DarkOverrides, BorderWidth);
    KeepsDefault(DarkOverrides, FontSize);
    KeepsDefault(DarkOverrides, ItemPadding);
    KeepsDefault(DarkOverrides, TransitionSpeed);
    KeepsDefault(DarkOverrides, GenerateStyles);
  }

  /** The rounded theme's own settings: 20px corners, roomier items, 16px text, a softer shadow. */
  lemma RoundedThemeShapes()
    ensures RoundedTheme[BorderRadius] == Css("20px") && RoundedTheme[FontSize] == Css("16px")
    ensures RoundedTheme[ItemPadding] == Css("0.5rem 1rem") && RoundedTheme[TransitionSpeed] == Css("0.3s")
    ensures RoundedTheme[DropdownShadow] == Css("0 4px 8px rgba(0,0,0,0.1)")
  {
  }

  /** The rounded theme keeps the default colours, border width and generator. */
  lemma RoundedThemeKeepsDefaults()
    ensures RoundedTheme[BackgroundColor] == Css("white") && RoundedTheme[TextColor] == Css("black")
    ensures RoundedTheme[BorderWidth] == Css("1px") && RoundedTheme[GenerateStyles] == StyleGenerator
  {
    KeepsDefault(RoundedOverrides, BackgroundColor);
    KeepsDefault(RoundedOverrides, TextColor);
    KeepsDefault(RoundedOverrides, BorderWidth);
    KeepsDefault(RoundedOverrides, GenerateStyles);
  }

  lemma KeepsDefault(custom: map<Key, ThemeValue>, k: Key)
    requires k in DefaultTheme && k !in custom
    ensures Merged(custom)[k] == DefaultTheme[k]
  {
  }
}
