/**
  The theme picker: its own copy of the chosen preset, the custom colours and
  the dark-mode flag, and the handlers that change them. Every handler also
  emits the theme it applies at once.
*/
module ColorPicker {
  import opened Theme

  /** The picker's state, taken from the current theme when it is created. */
  datatype Picker = Picker(selectedPreset: string, customColors: map<ColorKey, string>, isDarkMode: bool)

  /** The picker as created from the current theme. */
  function Open(t: UserTheme): (p: Picker)
    ensures Emitted(p) == t
  {
    Picker(t.currentPreset, t.customColors, t.isDarkMode)
  }

  /** The theme the picker's state stands for. */
  function Emitted(p: Picker): UserTheme {
    UserTheme(p.selectedPreset, p.customColors, p.isDarkMode)
  }

  /** `handlePresetChange(id)`: select the preset and apply it without custom
      colours. The picker's own custom colours are left as they were. */
  function PresetChange(p: Picker, id: string): (r: (Picker, UserTheme))
    ensures r.0.selectedPreset == id
    ensures r.0.customColors == p.customColors && r.0.isDarkMode == p.isDarkMode
    ensures r.1 == UserTheme(id, map[], p.isDarkMode)
  {
    (p.(selectedPreset := id), UserTheme(id, map[], p.isDarkMode))
  }

  /** `handleCustomColorChange(k, v)`: set one custom colour and apply the result. */
  function CustomColorChange(p: Picker, k: ColorKey, v: string): (r: (Picker, UserTheme))
    ensures r.1 == Emitted(r.0)
    ensures r.0.selectedPreset == p.selectedPreset && r.0.isDarkMode == p.isDarkMode
    ensures k in r.0.customColors && r.0.customColors[k] == v
    ensures forall j :: j != k ==>
      (j in r.0.customColors <==> j in p.customColors)
      && (j in p.customColors ==> r.0.customColors[j] == p.customColors[j])
  {
    var q := p.(customColors := p.customColors[k := v]);
    (q, Emitted(q))
  }

  /** `handleDarkModeToggle()`: flip dark mode and apply the result. */
  function DarkToggle(p: Picker): (r: (Picker, UserTheme))
    ensures r.1 == Emitted(r.0)
    ensures r.0.isDarkMode == !p.isDarkMode
    ensures r.0.selectedPreset == p.selectedPreset && r.0.customColors == p.customColors
  {
    var q := p.(isDarkMode := !p.isDarkMode);
    (q, Emitted(q))
  }

  /** `resetToDefault()`: back to the first preset, no custom colours, light. */
  function Reset(p: Picker): (r: (Picker, UserTheme))
    ensures r.1 == Emitted(r.0)
    ensures r.0.selectedPreset == Presets[0].id && r.0.customColors == map[] && !r.0.isDarkMode
  {
    var q := Picker("indigo-purple", map[], false);
    (q, Emitted(q))
  }

  /** The preset the picker shows: the selected one, or the first for an unknown id. */
  function ShownPreset(p: Picker): (r: Preset)
    ensures PresetById(p.selectedPreset).Some? ==> r.id == p.selectedPreset
  {
    PresetOrFirst(p.selectedPreset)
  }

  /** The value a colour input shows: `customColors[key] || value`, so a custom
      colour that is the empty string shows the preset's colour. */
  function DisplayColor(p: Picker, k: ColorKey): (r: string)
    ensures k in p.customColors && p.customColors[k] != "" ==> r == p.customColors[k]
    ensures k !in p.customColors || p.customColors[k] == "" ==> r == ShownPreset(p).colors.Get(k)
  {
    if k in p.customColors && p.customColors[k] != "" then p.customColors[k]
    else ShownPreset(p).colors.Get(k)
  }

  /** Toggling dark mode twice restores the picker and re-applies the theme it
      started from. */
  lemma DarkToggleTwice(p: Picker)
    ensures DarkToggle(DarkToggle(p).0).0 == p
    ensures DarkToggle(DarkToggle(p).0).1 == Emitted(p)
  {
  }

  /** Reset applies exactly the theme the service starts from when nothing is
      saved, and the picker then resolves to the first preset's palette. */
  lemma ResetIsDefault(p: Picker)
    ensures Reset(p).1 == DefaultTheme
    ensures EffectiveColors(Reset(p).1) == Presets[0].colors
  {
    NothingSavedIsDefault(Missing);
  }

  /** A preset change applies no custom colours, but the picker keeps the old
      ones: the next dark-mode toggle applies them again on top of the new
      preset. */
  lemma StaleCustomColorsReturn(p: Picker, id: string)
    ensures PresetChange(p, id).1.customColors == map[]
    ensures DarkToggle(PresetChange(p, id).0).1 == UserTheme(id, p.customColors, !p.isDarkMode)
  {
  }

  /** In light mode, with no empty custom colour, each colour input shows the
      colour the emitted theme resolves to. */
  lemma DisplayMatchesEffective(p: Picker, k: ColorKey)
    requires !p.isDarkMode
    requires k in p.customColors ==> p.customColors[k] != ""
    ensures DisplayColor(p, k) == EffectiveColors(Emitted(p)).Get(k)
  {
    CustomOverridesPreset(Emitted(p), k);
  }

  /** An empty custom colour shows the preset's colour in the input but resolves
      to the empty string in the applied palette. */
  lemma EmptyCustomColorDiffers(p: Picker, k: ColorKey)
    requires !p.isDarkMode && k in p.customColors && p.customColors[k] == ""
    ensures DisplayColor(p, k) == ShownPreset(p).colors.Get(k)
    ensures EffectiveColors(Emitted(p)).Get(k) == ""
  {
    CustomOverridesPreset(Emitted(p), k);
  }
}
