/** The page's shared state (assets/js/modules/app-state.js), kept as one
    explicit record. Besides the fields the class declares, it holds the ones the
    managers read and write on it without any declaration (the floating-logo
    list and its pause flag, the project catalogue and cursor, the toast queue)
    and `window.localStorage`, which its setters persist to. */
module SharedState {
  import opened JsBuiltins
  import opened Dom

  /** One floating logo. A speed left undefined counts as no movement. */
  datatype Logo = Logo(element: Option<ElementId>, x: real, y: real, size: real,
                       speedX: Option<real>, speedY: Option<real>,
                       rotation: real, rotationSpeed: Option<real>)

  /** A catalogue entry; `link` is `None` when the project has none. */
  datatype Project = Project(id: int, title: string, longDescription: string, link: Option<string>)

  /** A toast in the queue: its element and what that element shows. */
  datatype Toast = Toast(element: ElementId, kind: string, icon: string, message: string, duration: int)

  const ThemeKey: string := "theme"
  const LanguageKey: string := "language"

  predicate IsThemeName(value: string) {
    value == "dark" || value == "light"
  }

  /** `localStorage.getItem(key) || fallback`: a missing or empty entry falls back. */
  function StoredOr(storage: map<string, string>, key: string, fallback: string): (r: string)
    ensures key in storage && storage[key] != "" ==> r == storage[key]
    ensures key !in storage || storage[key] == "" ==> r == fallback
  {
    if key in storage && storage[key] != "" then storage[key] else fallback
  }

  function SystemTheme(prefersDark: bool): (theme: string)
    ensures IsThemeName(theme)
    ensures theme == "dark" <==> prefersDark
  {
    if prefersDark then "dark" else "light"
  }

  /** A preference a setter persisted is what the next page load reads back,
      whatever its value: a stored theme such as `blue`, which the theme setter
      would refuse, is taken as is. A preference `reset` removed gives way to
      the fallback. */
  lemma PreferenceReload(storage: map<string, string>, key: string, value: string, fallback: string)
    ensures value != "" ==> StoredOr(storage[key := value], key, fallback) == value
    ensures StoredOr(storage - {key}, key, fallback) == fallback
    ensures StoredOr(map[ThemeKey := "blue"], ThemeKey, fallback) == "blue" && !IsThemeName("blue")
  {
  }

  class AppState {
    var theme: string
    var language: string
    var user: Option<string>
    var notifications: seq<string>
    var settings: map<string, string>

    /** `window.localStorage`. */
    var storage: map<string, string>

    /** `None` while the list is not an array (it starts out undefined). */
    var floatingLogos: Option<seq<Logo>>
    var isLogoAnimationPaused: bool
    var projects: seq<Project>
    var currentProjectIndex: int
    var toastQueue: seq<Toast>

    /** `prefersDark` is what `matchMedia('(prefers-color-scheme: dark)')` reports;
        `catalogue` is the project list the page carries. */
    constructor (saved: map<string, string>, prefersDark: bool, catalogue: seq<Project>)
      ensures theme == StoredOr(saved, ThemeKey, SystemTheme(prefersDark))
      ensures language == StoredOr(saved, LanguageKey, "es")
      ensures user == None && notifications == [] && settings == map[]
      ensures storage == saved
      ensures floatingLogos == None && !isLogoAnimationPaused
      ensures projects == catalogue && currentProjectIndex == 0 && toastQueue == []
    {
      theme := StoredOr(saved, ThemeKey, SystemTheme(prefersDark));
      language := StoredOr(saved, LanguageKey, "es");
      user := None;
      notifications := [];
      settings := map[];
      storage := saved;
      floatingLogos := None;
      isLogoAnimationPaused := false;
      projects := catalogue;
      currentProjectIndex := 0;
      toastQueue := [];
    }

    /** The `theme` setter: only `dark` and `light` are taken, and persisted. */
    method SetTheme(value: string)
      modifies this`theme, this`storage
      ensures IsThemeName(value) ==> theme == value && storage == old(storage)[ThemeKey := value]
      ensures !IsThemeName(value) ==> theme == old(theme) && storage == old(storage)
    {
      if IsThemeName(value) {
        theme := value;
        storage := storage[ThemeKey := value];
      }
    }

    /** The `language` setter: any value is taken, and persisted. */
    method SetLanguage(value: string)
      modifies this`language, this`storage
      ensures language == value && storage == old(storage)[LanguageKey := value]
    {
      language := value;
      storage := storage[LanguageKey := value];
    }

    method SetUser(value: Option<string>)
      modifies this`user
      ensures user == value
    {
      user := value;
    }

    method AddNotification(notification: string)
      modifies this`notifications
      ensures notifications == old(notifications) + [notification]
    {
      notifications := notifications + [notification];
    }

    method ClearNotifications()
      modifies this`notifications
      ensures notifications == []
    {
      notifications := [];
    }

    /** `{ ...settings, ...newSettings }`: every old key stays, new keys win. */
    method UpdateSettings(newSettings: map<string, string>)
      modifies this`settings
      ensures settings.Keys == old(settings).Keys + newSettings.Keys
      ensures forall k :: k in newSettings ==> settings[k] == newSettings[k]
      ensures forall k :: k in old(settings) && k !in newSettings ==> settings[k] == old(settings)[k]
    {
      settings := settings + newSettings;
    }

    /** Back to the defaults, and both preferences forgotten. */
    method Reset()
      modifies this`theme, this`language, this`user, this`notifications, this`settings, this`storage
      ensures theme == "dark" && language == "es" && user == None
      ensures notifications == [] && settings == map[]
      ensures storage == old(storage) - {ThemeKey, LanguageKey}
      ensures ThemeKey !in storage && LanguageKey !in storage
    {
      theme := "dark";
      language := "es";
      user := None;
      notifications := [];
      settings := map[];
      storage := storage - {ThemeKey, LanguageKey};
    }
  }
}
