/** The theme state of src/context/ThemeContext.js: two custom themes built by
    overriding colours of the react-native-paper base themes, a provider that
    starts on the light one, and a toggle that flips between the two. */
module ThemeContext {

  /** A react-native-paper theme: its `colors` record, and every other field
      (dark flag, roundness, fonts, ...) as an opaque record the model only copies. */
  datatype Theme = Theme(settings: map<string, string>, colors: map<string, string>)

  const BRAND_PRIMARY: string := "#f97827"
  const BRAND_ACCENT: string := "#03DAC5"

  /** The colours the light theme sets over the base light palette. */
  const LIGHT_OVERRIDES: map<string, string> := map[
    "primary" := BRAND_PRIMARY,
    "accent" := BRAND_ACCENT,
    "primaryContainer" := "#FFE0B2"]

  /** The colours the dark theme sets over the base dark palette. */
  const DARK_OVERRIDES: map<string, string> := map[
    "primary" := BRAND_PRIMARY,
    "accent" := BRAND_ACCENT,
    "background" := "#121212",
    "surface" := "#242424",
    "primaryContainer" := "#333333",
    "text" := "#FFFFFF",
    "onPrimary" := "#000000",
    "onSurface" := "#FFFFFF"]

  /** `{...base, ...overrides}`: the keys of both, each overridden key taking
      its new value and every other key keeping the base's. */
  function Spread(base: map<string, string>, overrides: map<string, string>): (m: map<string, string>)
    ensures m.Keys == base.Keys + overrides.Keys
    ensures forall k :: k in overrides ==> m[k] == overrides[k]
    ensures forall k :: k in base && k !in overrides ==> m[k] == base[k]
  {
    base + overrides
  }

  /** `{...MD3LightTheme, colors: {...MD3LightTheme.colors, ...}}` */
  function CustomLightTheme(base: Theme): Theme {
    Theme(base.settings, Spread(base.colors, LIGHT_OVERRIDES))
  }

  /** `{...MD3DarkTheme, colors: {...MD3DarkTheme.colors, ...}}` */
  function CustomDarkTheme(base: Theme): Theme {
    Theme(base.settings, Spread(base.colors, DARK_OVERRIDES))
  }

  /** The light theme changes `primary`, `accent` and `primaryContainer`, and
      nothing else of its base. */
  lemma LightThemeChangesOnlyItsOverrides(base: Theme)
    ensures CustomLightTheme(base).settings == base.settings
    ensures CustomLightTheme(base).colors.Keys == base.colors.Keys + {"primary", "accent", "primaryContainer"}
    ensures CustomLightTheme(base).colors["primary"] == "#f97827"
    ensures CustomLightTheme(base).colors["accent"] == "#03DAC5"
    ensures CustomLightTheme(base).colors["primaryContainer"] == "#FFE0B2"
    ensures forall k :: k in base.colors && k !in {"primary", "accent", "primaryContainer"} ==>
      CustomLightTheme(base).colors[k] == base.colors[k]
  {
  }

  /** The dark theme sets exactly its eight listed colours; the rest come from
      its base. */
  lemma DarkThemeChangesOnlyItsOverrides(base: Theme)
    ensures CustomDarkTheme(base).settings == base.settings
    ensures CustomDarkTheme(base).colors.Keys == base.colors.Keys + DARK_OVERRIDES.Keys
    ensures DARK_OVERRIDES.Keys == {"primary", "accent", "background", "surface", "primaryContainer", "text", "onPrimary", "onSurface"}
    ensures CustomDarkTheme(base).colors["background"] == "#121212"
    ensures CustomDarkTheme(base).colors["surface"] == "#242424"
    ensures CustomDarkTheme(base).colors["primaryContainer"] == "#333333"
    ensures CustomDarkTheme(base).colors["text"] == "#FFFFFF"
    ensures CustomDarkTheme(base).colors["onPrimary"] == "#000000"
    ensures CustomDarkTheme(base).colors["onSurface"] == "#FFFFFF"
    ensures forall k :: k in base.colors && k !in DARK_OVERRIDES ==> CustomDarkTheme(base).colors[k] == base.colors[k]
  {
  }

  /** Whatever the base palettes, both themes carry the brand orange and mint. */
  lemma ThemesShareBrandColours(lightBase: Theme, darkBase: Theme)
    ensures CustomLightTheme(lightBase).colors["primary"] == CustomDarkTheme(darkBase).colors["primary"] == "#f97827"
    ensures CustomLightTheme(lightBase).colors["accent"] == CustomDarkTheme(darkBase).colors["accent"] == "#03DAC5"
  {
  }

  /** Whatever the base palettes, the two themes differ (in `primaryContainer`),
      so comparing a theme with the light one by value tells the two constants
      apart just as the source's comparison by reference does. */
  lemma ThemesDiffer(lightBase: Theme, darkBase: Theme)
    ensures CustomLightTheme(lightBase) != CustomDarkTheme(darkBase)
  {
    assert CustomLightTheme(lightBase).colors["primaryContainer"] == "#FFE0B2";
    assert CustomDarkTheme(darkBase).colors["primaryContainer"] == "#333333";
  }

  /** The theme `createContext` offers a consumer outside any provider: the
      light theme itself, hence never a dark one. */
  function DefaultContextTheme(lightBase: Theme): (t: Theme)
    ensures t == CustomLightTheme(lightBase)
    ensures forall darkBase :: t != CustomDarkTheme(darkBase)
    ensures "primaryContainer" in t.colors && t.colors["primaryContainer"] == "#FFE0B2"
  {
    var t := CustomLightTheme(lightBase);
    assert forall darkBase :: t != CustomDarkTheme(darkBase) by {
      forall darkBase ensures t != CustomDarkTheme(darkBase) {
        ThemesDiffer(lightBase, darkBase);
      }
    }
    t
  }

  /** The updater `toggleTheme` passes to `setTheme`:
      `current === light ? dark : light`. */
  function NextTheme(current: Theme, light: Theme, dark: Theme): (r: Theme)
    ensures r == light || r == dark
  {
    if current == light then dark else light
  }

  /** On two distinct themes the updater alternates, and two toggles return to
      the start. */
  lemma ToggleFlips(current: Theme, light: Theme, dark: Theme)
    requires light != dark
    requires current == light || current == dark
    ensures NextTheme(current, light, dark) != current
    ensures NextTheme(NextTheme(current, light, dark), light, dark) == current
  {
  }

  /** A state that is neither theme toggles to the light one. */
  lemma ToggleFromElsewhere(current: Theme, light: Theme, dark: Theme)
    requires current != light
    ensures NextTheme(current, light, dark) == light
  {
  }

  /** `ThemeProvider`: the `theme` state of `useState`, and `toggleTheme`. */
  class ThemeProvider {
    const light: Theme
    const dark: Theme
    var theme: Theme

    /** The state is always one of the two theme constants, which differ. */
    ghost predicate Valid()
      reads this
    {
      light != dark && (theme == light || theme == dark)
    }

    /** `useState(CustomLightTheme)`, given the library's base themes. */
    constructor (lightBase: Theme, darkBase: Theme)
      ensures light == CustomLightTheme(lightBase) && dark == CustomDarkTheme(darkBase)
      ensures theme == light
      ensures Valid()
    {
      light := CustomLightTheme(lightBase);
      dark := CustomDarkTheme(darkBase);
      theme := CustomLightTheme(lightBase);
      ThemesDiffer(lightBase, darkBase);
    }

    method ToggleTheme()
      requires Valid()
      modifies this
      ensures Valid()
      ensures old(theme) == light ==> theme == dark
      ensures old(theme) == dark ==> theme == light
      ensures theme != old(theme)
    {
      theme := NextTheme(theme, light, dark);
    }
  }
}
