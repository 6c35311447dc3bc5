/** The colour theme (assets/js/modules/theme-manager.js): the `data-theme`
    attribute of `<html>`, the shared state's theme, the stored theme, the
    `theme-color` meta tag and the `.theme-icon` elements. The system colour
    scheme is an input, as is the outcome of each media-query change. */
module ThemeManager {
  import opened JsBuiltins
  import opened Dom
  import opened SharedState

  const DarkColor: string := "#0b0d12"
  const LightColor: string := "#f8fafc"

  /** `getCurrentTheme`: the attribute, or `dark` when it is missing or empty. */
  function GetCurrentTheme(doc: Document): (theme: string)
    reads doc
    ensures doc.dataTheme.Some? && doc.dataTheme.value != "" ==> theme == doc.dataTheme.value
    ensures doc.dataTheme.None? || doc.dataTheme.value == "" ==> theme == "dark"
  {
    if doc.dataTheme.Some? && doc.dataTheme.value != "" then doc.dataTheme.value else "dark"
  }

  /** The theme `toggleTheme` switches to. */
  function Flipped(theme: string): (r: string)
    ensures IsThemeName(r)
    ensures r == "light" <==> theme == "dark"
  {
    if theme == "dark" then "light" else "dark"
  }

  /** Toggling twice restores `dark` and `light`; any other theme ends up `light`. */
  lemma FlipTwice(theme: string)
    ensures Flipped(Flipped(theme)) == theme <==> IsThemeName(theme)
    ensures !IsThemeName(theme) ==> Flipped(Flipped(theme)) == "light"
  {
  }

  /** The `theme-color` content for a theme. */
  function MetaColor(theme: string): string {
    if theme == "dark" then DarkColor else LightColor
  }

  /** What each `.theme-icon` shows: a sun offering the light theme while the
      theme is dark, a moon offering the dark theme otherwise. */
  function IconFor(theme: string): ThemeIcon {
    if theme == "dark" then ThemeIcon("\U{2600}\U{FE0F}", "Cambiar a tema claro", "Cambiar a tema claro")
    else ThemeIcon("\U{1F319}", "Cambiar a tema oscuro", "Cambiar a tema oscuro")
  }

  /** The meta colour and the icons agree: both show dark exactly for `dark`,
      every other value getting the light appearance, and the icon's label and
      title are the same text. */
  lemma AppearanceAgrees(theme: string)
    ensures MetaColor(theme) == DarkColor <==> theme == "dark"
    ensures IconFor(theme) == IconFor("dark") <==> theme == "dark"
    ensures theme != "dark" ==> MetaColor(theme) == MetaColor("light") && IconFor(theme) == IconFor("light")
    ensures IconFor(theme).ariaLabel == IconFor(theme).title
  {
    assert IconFor("dark").text != IconFor("light").text by {
      assert IconFor("dark").text[0] != IconFor("light").text[0];
    }
    assert DarkColor != LightColor by {
      assert DarkColor[1] != LightColor[1];
    }
  }

  /** `applyTheme`: `data-theme` and the stored theme become `theme` whatever it
      is; the shared state takes it only when it is `dark` or `light`; the meta
      colour is set (the tag made when missing) and every icon is redrawn. */
  method ApplyTheme(st: AppState, doc: Document, theme: string)
    modifies st`theme, st`storage, doc`dataTheme, doc`metaThemeColor, doc`themeIcons
    ensures doc.dataTheme == Some(theme)
    ensures theme != "" ==> GetCurrentTheme(doc) == theme
    ensures st.theme == if IsThemeName(theme) then theme else old(st.theme)
    ensures st.storage == old(st.storage)[ThemeKey := theme]
    ensures doc.metaThemeColor == Some(MetaColor(theme))
    ensures |doc.themeIcons| == |old(doc.themeIcons)|
    ensures forall i :: 0 <= i < |doc.themeIcons| ==> doc.themeIcons[i] == IconFor(theme)
  {
    doc.dataTheme := Some(theme);
    st.SetTheme(theme);
    st.storage := st.storage[ThemeKey := theme];
    doc.metaThemeColor := Some(MetaColor(theme));
    var i := 0;
    while i < |doc.themeIcons|
      invariant 0 <= i <= |doc.themeIcons| == |old(doc.themeIcons)|
      invariant forall j :: 0 <= j < i ==> doc.themeIcons[j] == IconFor(theme)
      invariant doc.dataTheme == Some(theme) && doc.metaThemeColor == Some(MetaColor(theme))
      invariant st.theme == (if IsThemeName(theme) then theme else old(st.theme))
      invariant st.storage == old(st.storage)[ThemeKey := theme]
    {
      doc.themeIcons := doc.themeIcons[i := IconFor(theme)];
      i := i + 1;
    }
  }

  /** `loadTheme`: the stored theme when there is a non-empty one, whatever its
      value, else the system's. Afterwards a non-empty theme is always stored. */
  method LoadTheme(st: AppState, doc: Document, prefersDark: bool) returns (theme: string)
    modifies st`theme, st`storage, doc`dataTheme, doc`metaThemeColor, doc`themeIcons
    ensures ThemeKey in old(st.storage) && old(st.storage)[ThemeKey] != "" ==> theme == old(st.storage)[ThemeKey]
    ensures ThemeKey !in old(st.storage) || old(st.storage)[ThemeKey] == "" ==> theme == SystemTheme(prefersDark)
    ensures doc.dataTheme == Some(theme) && GetCurrentTheme(doc) == theme
    ensures st.theme == if IsThemeName(theme) then theme else old(st.theme)
    ensures st.storage == old(st.storage)[ThemeKey := theme]
    ensures ThemeKey in st.storage && st.storage[ThemeKey] == theme != ""
    ensures doc.metaThemeColor == Some(MetaColor(theme))
    ensures |doc.themeIcons| == |old(doc.themeIcons)|
    ensures forall i :: 0 <= i < |doc.themeIcons| ==> doc.themeIcons[i] == IconFor(theme)
  {
    var systemTheme := SystemTheme(prefersDark);
    theme := StoredOr(st.storage, ThemeKey, systemTheme);
    ApplyTheme(st, doc, theme);
  }

  /** `toggleTheme`: the other theme, a missing attribute counting as dark. */
  method ToggleTheme(st: AppState, doc: Document)
    modifies st`theme, st`storage, doc`dataTheme, doc`metaThemeColor, doc`themeIcons
    ensures doc.dataTheme == Some(Flipped(old(GetCurrentTheme(doc))))
    ensures st.theme == Flipped(old(GetCurrentTheme(doc)))
    ensures GetCurrentTheme(doc) == st.theme && IsThemeName(st.theme)
    ensures st.storage == old(st.storage)[ThemeKey := st.theme]
    ensures doc.metaThemeColor == Some(MetaColor(st.theme))
    ensures |doc.themeIcons| == |old(doc.themeIcons)|
    ensures forall i :: 0 <= i < |doc.themeIcons| ==> doc.themeIcons[i] == IconFor(st.theme)
  {
    var currentTheme := GetCurrentTheme(doc);
    var newTheme := Flipped(currentTheme);
    ApplyTheme(st, doc, newTheme);
  }

  /** `setTheme`: `dark` and `light` are applied, anything else falls back to `dark`. */
  method SetTheme(st: AppState, doc: Document, theme: string)
    modifies st`theme, st`storage, doc`dataTheme, doc`metaThemeColor, doc`themeIcons
    ensures var applied := if IsThemeName(theme) then theme else "dark";
      && doc.dataTheme == Some(applied) && st.theme == applied
      && st.storage == old(st.storage)[ThemeKey := applied]
      && doc.metaThemeColor == Some(MetaColor(applied))
    ensures GetCurrentTheme(doc) == st.theme && IsThemeName(st.theme)
    ensures |doc.themeIcons| == |old(doc.themeIcons)|
    ensures forall i :: 0 <= i < |doc.themeIcons| ==> doc.themeIcons[i] == IconFor(st.theme)
  {
    if theme == "dark" || theme == "light" {
      ApplyTheme(st, doc, theme);
    } else {
      ApplyTheme(st, doc, "dark");
    }
  }

  /** The `change` listener on the colour-scheme query: the system's theme is
      applied only while no non-empty theme is stored. */
  method SystemPreferenceChanged(st: AppState, doc: Document, matches: bool)
    modifies st`theme, st`storage, doc`dataTheme, doc`metaThemeColor, doc`themeIcons
    ensures ThemeKey in old(st.storage) && old(st.storage)[ThemeKey] != "" ==>
              && st.theme == old(st.theme) && st.storage == old(st.storage)
              && doc.dataTheme == old(doc.dataTheme) && doc.metaThemeColor == old(doc.metaThemeColor)
              && doc.themeIcons == old(doc.themeIcons)
    ensures ThemeKey !in old(st.storage) || old(st.storage)[ThemeKey] == "" ==>
              && doc.dataTheme == Some(SystemTheme(matches)) && st.theme == SystemTheme(matches)
              && st.storage == old(st.storage)[ThemeKey := SystemTheme(matches)]
              && doc.metaThemeColor == Some(MetaColor(SystemTheme(matches)))
              && |doc.themeIcons| == |old(doc.themeIcons)|
              && (forall i :: 0 <= i < |doc.themeIcons| ==> doc.themeIcons[i] == IconFor(SystemTheme(matches)))
  {
    if !(ThemeKey in st.storage && st.storage[ThemeKey] != "") {
      var newTheme := SystemTheme(matches);
      ApplyTheme(st, doc, newTheme);
    }
  }
}
