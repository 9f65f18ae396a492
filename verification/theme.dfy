/**
  The colour theme: six presets, the user's choice of preset, partial custom
  colours and a dark-mode flag, and the effective palette they resolve to
  (preset, then custom colours, then the dark-mode overrides). Also the
  background gradient derived from the background colour, and the service that
  keeps the current theme.
*/
module Theme {
  import opened Wrappers
  import opened Text

  /** The seven keys of a palette (`keyof ThemeColors`). */
  datatype ColorKey = Primary | Secondary | Accent | Background | Surface | TextColor | TextSecondary

  /** A full palette: one colour string per key. */
  datatype ThemeColors = ThemeColors(
    primary: string, secondary: string, accent: string,
    background: string, surface: string, text: string, textSecondary: string)
  {
    function Get(k: ColorKey): string {
      match k
      case Primary => primary
      case Secondary => secondary
      case Accent => accent
      case Background => background
      case Surface => surface
      case TextColor => text
      case TextSecondary => textSecondary
    }
  }

  /** `{ ...base, ...over }` with a partial palette on top. */
  function Overlay(base: ThemeColors, over: map<ColorKey, string>): (r: ThemeColors)
    ensures forall k :: r.Get(k) == if k in over then over[k] else base.Get(k)
  {
    ThemeColors(
      if Primary in over then over[Primary] else base.primary,
      if Secondary in over then over[Secondary] else base.secondary,
      if Accent in over then over[Accent] else base.accent,
      if Background in over then over[Background] else base.background,
      if Surface in over then over[Surface] else base.surface,
      if TextColor in over then over[TextColor] else base.text,
      if TextSecondary in over then over[TextSecondary] else base.textSecondary)
  }

  datatype Preset = Preset(id: string, name: string, description: string, colors: ThemeColors)

  /** `THEME_PRESETS`, in display order. */
  const Presets: seq<Preset> := [
    Preset("indigo-purple", "Indigo Purple", "Professional and modern",
      ThemeColors("#6366f1", "#8b5cf6", "#ec4899", "#f1f5f9", "#ffffff", "#1e293b", "#64748b")),
    Preset("ocean-blue", "Ocean Blue", "Calm and serene",
      ThemeColors("#0ea5e9", "#06b6d4", "#0891b2", "#f0f9ff", "#ffffff", "#0c4a6e", "#0369a1")),
    Preset("emerald-green", "Emerald Green", "Fresh and natural",
      ThemeColors("#10b981", "#059669", "#047857", "#f0fdf4", "#ffffff", "#064e3b", "#065f46")),
    Preset("sunset-orange", "Sunset Orange", "Warm and energetic",
      ThemeColors("#f97316", "#ea580c", "#dc2626", "#fff7ed", "#ffffff", "#7c2d12", "#9a3412")),
    Preset("rose-pink", "Rose Pink", "Elegant and feminine",
      ThemeColors("#f43f5e", "#e11d48", "#be185d", "#fdf2f8", "#ffffff", "#831843", "#9d174d")),
    Preset("slate-gray", "Slate Gray", "Minimal and clean",
      ThemeColors("#64748b", "#475569", "#334155", "#f8fafc", "#ffffff", "#1e293b", "#475569"))
  ]

  /** `DARK_MODE_COLORS`: the four surface and text colours dark mode forces. */
  const DarkOverrides: map<ColorKey, string> := map[
    Background := "#0f172a",
    Surface := "#1e293b",
    TextColor := "#f1f5f9",
    TextSecondary := "#cbd5e1"
  ]

  /** The user's theme: a preset id (possibly unknown), partial custom colours and
      the dark-mode flag. */
  datatype UserTheme = UserTheme(currentPreset: string, customColors: map<ColorKey, string>, isDarkMode: bool)

  /** The theme with nothing saved: the first preset, no custom colours, light. */
  const DefaultTheme: UserTheme := UserTheme("indigo-purple", map[], false)

  // ---------------------------------------------------------------------------
  // Preset lookup
  // ---------------------------------------------------------------------------

  /** `ps.find(p => p.id === id)`. */
  function FindIn(ps: seq<Preset>, id: string): (r: Option<Preset>)
    ensures r.Some? ==> exists i ::
      && 0 <= i < |ps| && ps[i] == r.value && r.value.id == id
      && forall j :: 0 <= j < i ==> ps[j].id != id
    ensures r.None? <==> forall i :: 0 <= i < |ps| ==> ps[i].id != id
  {
    if |ps| == 0 then None
    else if ps[0].id == id then Some(ps[0])
    else
      var r := FindIn(ps[1..], id);
      assert forall i :: 1 <= i < |ps| ==> ps[i] == ps[1..][i - 1];
      r
  }

  /** `getPresetById(id)`: the preset with that id, or nothing. */
  function PresetById(id: string): Option<Preset> {
    FindIn(Presets, id)
  }

  /** The preset a theme resolves to: its own, or the first one for an unknown id
      (`find(...) || THEME_PRESETS[0]`). */
  function PresetOrFirst(id: string): (p: Preset)
    ensures PresetById(id).Some? ==> p == PresetById(id).value
    ensures PresetById(id).None? ==> p == Presets[0]
  {
    PresetById(id).GetOr(Presets[0])
  }

  /** `getEffectiveColors(theme)`: the preset's palette, then the custom colours,
      then (in dark mode) the dark overrides. */
  function EffectiveColors(t: UserTheme): (r: ThemeColors)
    ensures forall k ::
      r.Get(k) == if t.isDarkMode && k in DarkOverrides then DarkOverrides[k]
                  else if k in t.customColors then t.customColors[k]
                  else PresetOrFirst(t.currentPreset).colors.Get(k)
  {
    var colors := Overlay(PresetOrFirst(t.currentPreset).colors, t.customColors);
    if t.isDarkMode then Overlay(colors, DarkOverrides) else colors
  }

  /** An unknown preset id resolves exactly like the first preset, while
      `getPresetById` finds nothing for it. */
  lemma UnknownPresetFallsBack(t: UserTheme)
    requires forall i :: 0 <= i < |Presets| ==> Presets[i].id != t.currentPreset
    ensures PresetById(t.currentPreset).None?
    ensures EffectiveColors(t) == EffectiveColors(t.(currentPreset := Presets[0].id))
  {
    assert PresetById(Presets[0].id) == Some(Presets[0]);
  }

  /** The primary, secondary and accent colours: the keys dark mode leaves alone. */
  predicate IsBrandKey(k: ColorKey) {
    k.Primary? || k.Secondary? || k.Accent?
  }

  /** Dark mode overrides exactly the four keys that are not brand keys. */
  lemma DarkOverrideKeys(k: ColorKey)
    ensures k in DarkOverrides <==> !IsBrandKey(k)
  {
  }

  /** Dark mode leaves the primary, secondary and accent colours alone and forces
      the other four, whatever the custom colours say. */
  lemma DarkModeScope(t: UserTheme, k: ColorKey)
    ensures IsBrandKey(k) ==>
      EffectiveColors(t.(isDarkMode := true)).Get(k) == EffectiveColors(t.(isDarkMode := false)).Get(k)
    ensures !IsBrandKey(k) ==> EffectiveColors(t.(isDarkMode := true)).Get(k) == DarkOverrides[k]
  {
    DarkOverrideKeys(k);
  }

  /** In light mode a custom colour wins over the preset, and a key without one
      shows the preset's colour. */
  lemma CustomOverridesPreset(t: UserTheme, k: ColorKey)
    requires !t.isDarkMode
    ensures k in t.customColors ==> EffectiveColors(t).Get(k) == t.customColors[k]
    ensures k !in t.customColors ==> EffectiveColors(t).Get(k) == PresetOrFirst(t.currentPreset).colors.Get(k)
  {
  }

  // ---------------------------------------------------------------------------
  // The theme service
  // ---------------------------------------------------------------------------

  /** What local storage holds under the theme key: nothing (or ""), text that
      does not parse, or a saved theme. */
  datatype Stored = Missing | Corrupt | Saved(theme: UserTheme)

  /** `loadTheme()`: the saved theme, else the default. */
  function LoadTheme(stored: Stored): (t: UserTheme)
    ensures stored.Saved? ==> t == stored.theme
    ensures !stored.Saved? ==> t == DefaultTheme
  {
    if stored.Saved? then stored.theme else DefaultTheme
  }

  /** The service's state: the current theme and what it last stored. */
  datatype Service = Service(current: UserTheme, stored: Stored)

  /** The service as constructed from storage. */
  function Start(stored: Stored): (s: Service)
    ensures s.current == LoadTheme(stored)
  {
    Service(LoadTheme(stored), stored)
  }

  /** `getCurrentTheme()`: a copy of the current theme. */
  function CurrentTheme(s: Service): UserTheme {
    s.current
  }

  /** `updateTheme(t)`: make `t` current and save it. */
  function UpdateTheme(s: Service, t: UserTheme): (r: Service)
    ensures r.stored == Saved(t)
  {
    Service(t, Saved(t))
  }

  /** After an update the service reports the new theme, and a service started
      afresh from what was saved reports it too. */
  lemma UpdateThenRead(s: Service, t: UserTheme)
    ensures CurrentTheme(UpdateTheme(s, t)) == t
    ensures CurrentTheme(Start(UpdateTheme(s, t).stored)) == t
  {
  }

  /** With nothing saved the theme is the first preset, without custom colours,
      in light mode, and it resolves to that preset's palette. */
  lemma NothingSavedIsDefault(stored: Stored)
    requires !stored.Saved?
    ensures CurrentTheme(Start(stored)) == DefaultTheme
    ensures DefaultTheme.currentPreset == Presets[0].id && DefaultTheme.customColors == map[]
      && !DefaultTheme.isDarkMode
    ensures EffectiveColors(DefaultTheme) == Presets[0].colors
  {
    assert PresetById(Presets[0].id) == Some(Presets[0]);
  }
}
