/**
 * The theme records of `lib/slideThemes.ts` and their lookup by name.
 *
 * Overlay opacities are fractions in the source; here they are whole
 * hundredths (0.35 is 35).
 */
module SlideThemes {
  import opened Wrappers

  datatype Palette = Palette(background: string, foreground: string, accent: string, muted: string)

  /** `direction` is one of "top-bottom", "bottom-top", "left-right", "right-left" by the type, any string at run time. */
  datatype Gradient = Gradient(enabled: bool, direction: string, from: string, to: string)

  datatype Overlay = Overlay(enabled: bool, color: string, opacityHundredths: nat)

  datatype ImageStyle = ImageStyle(radius: int, shadow: bool, overlayOnImage: bool)

  datatype ExportRules = ExportRules(pdfForceExactColors: Option<bool>, pptxAllowOverlay: Option<bool>)

  datatype SlideTheme = SlideTheme(
    name: string,
    backgroundClass: string,
    textClass: string,
    accentClass: string,
    titleSize: string,
    bulletSize: string,
    fontFamily: string,
    palette: Palette,
    gradient: Option<Gradient>,
    overlay: Option<Overlay>,
    imageStyle: Option<ImageStyle>,
    exportRules: Option<ExportRules>)

  /** The shared `base` sizes and font, and the shared `baseRules`. */
  const TitleSize: string := "text-4xl"
  const BulletSize: string := "text-xl"
  const FontFamily: string := "font-sans"
  const BaseImageStyle: ImageStyle := ImageStyle(20, true, false)
  const BaseExportRules: ExportRules := ExportRules(Some(true), Some(true))

  function MakeTheme(name: string, bg: string, text: string, accent: string, palette: Palette,
                     gradient: Gradient, overlay: Overlay): SlideTheme {
    SlideTheme(name, bg, text, accent, TitleSize, BulletSize, FontFamily, palette,
      Some(gradient), Some(overlay), Some(BaseImageStyle), Some(BaseExportRules))
  }

  const DefaultTheme: SlideTheme := MakeTheme("Default", "bg-white", "text-zinc-900", "text-blue-600",
    Palette("#ffffff", "#111111", "#2563eb", "#64748b"),
    Gradient(false, "top-bottom", "#ffffff", "#ffffff"), Overlay(false, "#000000", 35))

  const DarkTheme: SlideTheme := MakeTheme("Dark", "bg-zinc-950", "text-zinc-50", "text-sky-300",
    Palette("#0b0f19", "#ffffff", "#38bdf8", "#94a3b8"),
    Gradient(false, "top-bottom", "#0b0f19", "#0b0f19"), Overlay(false, "#000000", 45))

  const SunsetTheme: SlideTheme := MakeTheme("Sunset", "bg-orange-50", "text-zinc-900", "text-orange-600",
    Palette("#fff7ed", "#111111", "#ea580c", "#7c2d12"),
    Gradient(false, "top-bottom", "#fff7ed", "#fed7aa"), Overlay(false, "#000000", 35))

  const ForestTheme: SlideTheme := MakeTheme("Forest", "bg-emerald-50", "text-zinc-900", "text-emerald-700",
    Palette("#ecfdf5", "#0f172a", "#047857", "#065f46"),
    Gradient(false, "top-bottom", "#ecfdf5", "#bbf7d0"), Overlay(false, "#000000", 35))

  const RoyalTheme: SlideTheme := MakeTheme("Royal", "bg-indigo-50", "text-zinc-900", "text-indigo-700",
    Palette("#eef2ff", "#0f172a", "#4338ca", "#475569"),
    Gradient(false, "left-right", "#eef2ff", "#e0e7ff"), Overlay(false, "#000000", 35))

  const MinimalTheme: SlideTheme := MakeTheme("Minimal", "bg-white", "text-zinc-950", "text-zinc-900",
    Palette("#ffffff", "#0a0a0a", "#111111", "#52525b"),
    Gradient(false, "top-bottom", "#ffffff", "#ffffff"), Overlay(false, "#000000", 35))

  /** `slideThemes`, in the order of the picker. */
  const Themes: seq<SlideTheme> := [DefaultTheme, DarkTheme, MinimalTheme, RoyalTheme, ForestTheme, SunsetTheme]

  /** `themes.find((t) => t.name === name)`. */
  function Find(themes: seq<SlideTheme>, name: Option<string>): (r: Option<SlideTheme>)
    ensures r.Some? ==> r.value in themes && name == Some(r.value.name)
    ensures r.None? ==> forall t :: t in themes ==> name != Some(t.name)
  {
    if themes == [] then None
    else if name == Some(themes[0].name) then Some(themes[0])
    else Find(themes[1..], name)
  }

  /** `getThemeByName`. */
  function GetThemeByName(name: Option<string>): (r: SlideTheme)
    ensures r in Themes
  {
    var found := Find(Themes, name);
    if found.Some? then found.value else DefaultTheme
  }

  /** The six names, as written. */
  lemma ThemeNames()
    ensures |Themes| == 6
    ensures Themes[0].name == "Default" && Themes[1].name == "Dark" && Themes[2].name == "Minimal"
    ensures Themes[3].name == "Royal" && Themes[4].name == "Forest" && Themes[5].name == "Sunset"
  {
  }

  /** No two themes share a name, so the lookup is unambiguous. */
  lemma ThemeNamesDistinct()
    ensures forall i, j :: 0 <= i < j < |Themes| ==> Themes[i].name != Themes[j].name
  {
    ThemeNames();
    assert "Default"[1] != "Dark"[1];
    forall i, j | 0 <= i < j < |Themes| ensures Themes[i].name != Themes[j].name {
      assert Themes[i].name[0] != Themes[j].name[0] || (i == 0 && j == 1);
    }
  }

  /** The first theme of the list is the default one. */
  lemma FirstIsDefault()
    ensures Themes[0] == DefaultTheme && DefaultTheme.name == "Default"
  {
  }

  /** A name some theme carries finds exactly that theme; any other name, or none, finds the default. */
  lemma GetThemeByNameSpec(name: Option<string>)
    ensures forall i :: 0 <= i < |Themes| && name == Some(Themes[i].name) ==> GetThemeByName(name) == Themes[i]
    ensures (forall t :: t in Themes ==> name != Some(t.name)) ==> GetThemeByName(name) == DefaultTheme
    ensures name.None? ==> GetThemeByName(name) == DefaultTheme
  {
    ThemeNamesDistinct();
    var r := GetThemeByName(name);
    forall i | 0 <= i < |Themes| && name == Some(Themes[i].name) ensures r == Themes[i] {
      var f := Find(Themes, name);
      assert f.Some?;
      var j :| 0 <= j < |Themes| && Themes[j] == f.value;
      assert Themes[j].name == Themes[i].name;
    }
  }

  /** Looking a theme up by its own name gives it back. */
  lemma GetThemeByOwnName(t: SlideTheme)
    requires t in Themes
    ensures GetThemeByName(Some(t.name)) == t
  {
    GetThemeByNameSpec(Some(t.name));
  }
}
