/** Translations (assets/js/modules/language-manager.js): the Spanish and
    English dictionaries, `getText` with its key fallback and placeholder
    substitution, and `applyLanguage` / `toggleLanguage` acting on the shared
    state and the `data-i18n` elements. Parameter objects are given as their
    `Object.entries` lists. */
module LanguageManager {
  import opened JsBuiltins
  import opened Dom
  import opened SharedState
  import ToastManager

  /** Language code to key to text. */
  type Dictionary = map<string, map<string, string>>

  const Spanish: map<string, string> := map[
    "navHome" := "Inicio",
    "navAbout" := "Acerca",
    "navSkills" := "Habilidades",
    "navProjects" := "Proyectos",
    "navExperience" := "Experiencia",
    "navContact" := "Contacto",
    "navHire" := "Contrátame",
    "heroAvailable" := "Disponible para nuevos proyectos",
    "heroTitle1" := "Transformando ideas en",
    "heroTitle2" := "experiencias digitales excepcionales",
    "heroSubtitle" := "Soy NovaVisionWeb, desarrollador full-stack senior con 10+ años de experiencia..."
  ]

  const English: map<string, string> := map[
    "navHome" := "Home",
    "navAbout" := "About",
    "navSkills" := "Skills",
    "navProjects" := "Projects",
    "navExperience" := "Experience",
    "navContact" := "Contact",
    "navHire" := "Hire Me",
    "heroAvailable" := "Available for new projects",
    "heroTitle1" := "Transforming ideas into",
    "heroTitle2" := "exceptional digital experiences",
    "heroSubtitle" := "I'm NovaVisionWeb, a senior full-stack developer with 10+ years of experience..."
  ]

  /** The page's `translations` object. */
  const Translations: Dictionary := map["es" := Spanish, "en" := English]

  // ---------------------------------------------------------------------------
  // Placeholders
  // ---------------------------------------------------------------------------

  /** The text `{name}` that a parameter called `name` replaces. */
  function Placeholder(name: string): string {
    "{" + name + "}"
  }

  /** The replacement loop of `getText` and `applyLanguage`: each parameter, in
      order, replaces the first occurrence of its placeholder in the text so far. */
  function ApplyParams(text: string, params: seq<(string, string)>): string
    decreases |params|
  {
    if params == [] then text
    else ApplyParams(ReplaceFirst(text, Placeholder(params[0].0), params[0].1), params[1..])
  }

  /** The parameters act one after the other: the last one works on the text
      the others have left. */
  lemma {:induction false} ApplyParamsInOrder(text: string, params: seq<(string, string)>, last: (string, string))
    ensures ApplyParams(text, params + [last]) ==
              ReplaceFirst(ApplyParams(text, params), Placeholder(last.0), last.1)
    decreases |params|
  {
    if params == [] {
      assert params + [last] == [last];
    } else {
      assert (params + [last])[1..] == params[1..] + [last];
      ApplyParamsInOrder(ReplaceFirst(text, Placeholder(params[0].0), params[0].1), params[1..], last);
    }
  }

  /** A text with no `{` comes out unchanged: no placeholder occurs in it, so
      no replacement ever happens. */
  lemma {:induction false} ApplyParamsWithoutBraces(text: string, params: seq<(string, string)>)
    requires '{' !in text
    ensures ApplyParams(text, params) == text
    decreases |params|
  {
    if params != [] {
      var pat := Placeholder(params[0].0);
      forall j | 0 <= j ensures !OccursAt(text, pat, j) {
        if j + |pat| <= |text| {
          assert text[j..j + |pat|][0] == text[j] && text[j] in text;
          assert pat[0] == '{';
        }
      }
      ApplyParamsWithoutBraces(text, params[1..]);
    }
  }

  /** One parameter whose value holds no `$` is spliced in where its placeholder
      first occurs, and the rest of the text, later occurrences included, stays. */
  lemma ApplyOneParam(text: string, name: string, value: string, k: int)
    requires IsFirstOccurrence(text, Placeholder(name), k)
    requires '$' !in value
    ensures ApplyParams(text, [(name, value)]) == text[..k] + value + text[k + |Placeholder(name)|..]
  {
    ReplaceFirstKeepsRest(text, Placeholder(name), value, k);
  }

  // ---------------------------------------------------------------------------
  // getText
  // ---------------------------------------------------------------------------

  /** `translations[language][key] || key`, for a language that has a dictionary. */
  function Lookup(table: map<string, string>, key: string): (text: string)
    ensures key in table && table[key] != "" ==> text == table[key]
    ensures key !in table || table[key] == "" ==> text == key
  {
    if key in table && table[key] != "" then table[key] else key
  }

  /** `getText(key, params)` while the current language is `language`; `None`
      when that language has no dictionary, where the source raises a TypeError. */
  function GetText(dict: Dictionary, language: string, key: string, params: seq<(string, string)>): (r: Option<string>)
    ensures r.None? <==> language !in dict
    ensures r.Some? ==> r.value == ApplyParams(Lookup(dict[language], key), params)
  {
    if language !in dict then None else Some(ApplyParams(Lookup(dict[language], key), params))
  }

  /** Without parameters the text is the translation when there is a non-empty
      one, and the key itself otherwise. */
  lemma GetTextWithoutParams(dict: Dictionary, language: string, key: string)
    requires language in dict
    ensures key in dict[language] && dict[language][key] != "" ==>
              GetText(dict, language, key, []) == Some(dict[language][key])
    ensures key !in dict[language] || dict[language][key] == "" ==>
              GetText(dict, language, key, []) == Some(key)
  {
  }

  /** A key with no translation and no `{` comes back as it is, whatever the parameters. */
  lemma GetTextFallsBackToKey(dict: Dictionary, language: string, key: string, params: seq<(string, string)>)
    requires language in dict && (key !in dict[language] || dict[language][key] == "")
    requires '{' !in key
    ensures GetText(dict, language, key, params) == Some(key)
  {
    ApplyParamsWithoutBraces(key, params);
  }

  /** Neither dictionary has `toastLanguageChanged`, so the toast shown on a
      language change carries the key itself, not a sentence with the language. */
  lemma LanguageChangedMessageIsKey(language: string, name: string)
    requires language == "es" || language == "en"
    ensures GetText(Translations, language, "toastLanguageChanged", [("language", name)]) == Some("toastLanguageChanged")
  {
    assert "toastLanguageChanged" !in Translations[language];
    GetTextFallsBackToKey(Translations, language, "toastLanguageChanged", [("language", name)]);
  }

  // ---------------------------------------------------------------------------
  // Switching language
  // ---------------------------------------------------------------------------

  /** The language `toggleLanguage` switches to. */
  function Toggled(language: string): (r: string)
    ensures r == "en" || r == "es"
    ensures r != language || (language != "es" && language != "en")
  {
    if language == "es" then "en" else "es"
  }

  /** Toggling twice gets back exactly the two supported languages; any other
      value ends up English. */
  lemma ToggleTwice(language: string)
    ensures Toggled(Toggled(language)) == language <==> language == "es" || language == "en"
    ensures language != "es" && language != "en" ==> Toggled(Toggled(language)) == "en"
  {
  }

  /** What `applyLanguage` leaves in one `data-i18n` element: the translation of
      its key, with its parameters applied, when that translation is non-empty;
      its old text otherwise. */
  function Translated(dict: Dictionary, language: string, el: TaggedElement): (r: TaggedElement)
    ensures r.key == el.key && r.params == el.params
  {
    if language in dict && el.key in dict[language] && dict[language][el.key] != "" then
      var text := dict[language][el.key];
      el.(text := if el.params.Some? then ApplyParams(text, el.params.value) else text)
    else el
  }

  /** Only elements with a non-empty translation change, and the new text depends
      only on the key and parameters, so translating again changes nothing. */
  lemma TranslatedIsStable(dict: Dictionary, language: string, el: TaggedElement)
    ensures Translated(dict, language, el) != el ==>
              language in dict && el.key in dict[language] && dict[language][el.key] != ""
    ensures Translated(dict, language, Translated(dict, language, el)) == Translated(dict, language, el)
  {
  }

  /** An element whose key has a non-empty translation gets the text `getText`
      gives for that key and its parameters (none when it has no
      `data-i18n-params`); any other element keeps its text. */
  lemma TranslatedAgreesWithGetText(dict: Dictionary, language: string, el: TaggedElement)
    requires language in dict
    ensures el.key in dict[language] && dict[language][el.key] != "" ==>
              Translated(dict, language, el).text ==
                GetText(dict, language, el.key, if el.params.Some? then el.params.value else []).value
    ensures el.key !in dict[language] || dict[language][el.key] == "" ==>
              Translated(dict, language, el) == el
  {
  }

  /** Switching to another language and back restores every element whose key
      both languages translate. */
  lemma TranslatedRoundTrip(dict: Dictionary, from: string, to: string, el: TaggedElement)
    requires from in dict && to in dict
    requires el.key in dict[from] && dict[from][el.key] != ""
    requires el.key in dict[to] && dict[to][el.key] != ""
    ensures Translated(dict, from, Translated(dict, to, el)) == Translated(dict, from, el)
  {
  }

  /** `applyLanguage`: the state's language and the stored one become `language`,
      each `data-i18n` element is retranslated, and `<html lang>` is set. */
  method ApplyLanguage(st: AppState, doc: Document, language: string)
    modifies st`language, st`storage, doc`tagged, doc`lang
    ensures st.language == language
    ensures st.storage == old(st.storage)[LanguageKey := language]
    ensures |doc.tagged| == |old(doc.tagged)|
    ensures forall i :: 0 <= i < |doc.tagged| ==> doc.tagged[i] == Translated(Translations, language, old(doc.tagged)[i])
    ensures doc.lang == Some(language)
  {
    st.SetLanguage(language);
    st.storage := st.storage[LanguageKey := language];
    var i := 0;
    while i < |doc.tagged|
      invariant 0 <= i <= |doc.tagged| == |old(doc.tagged)|
      invariant st.language == language && st.storage == old(st.storage)[LanguageKey := language]
      invariant forall j :: 0 <= j < i ==> doc.tagged[j] == Translated(Translations, language, old(doc.tagged)[j])
      invariant forall j :: i <= j < |doc.tagged| ==> doc.tagged[j] == old(doc.tagged)[j]
    {
      var el := doc.tagged[i];
      if language in Translations && el.key in Translations[language] && Translations[language][el.key] != "" {
        var text := Translations[language][el.key];
        if el.params.Some? {
          var finalText := text;
          var k := 0;
          var params := el.params.value;
          while k < |params|
            invariant 0 <= k <= |params|
            invariant ApplyParams(finalText, params[k..]) == ApplyParams(text, params)
          {
            assert params[k..][1..] == params[k + 1..];
            finalText := ReplaceFirst(finalText, Placeholder(params[k].0), params[k].1);
            k := k + 1;
          }
          assert params[k..] == [];
          doc.tagged := doc.tagged[i := el.(text := finalText)];
        } else {
          doc.tagged := doc.tagged[i := el.(text := text)];
        }
      }
      i := i + 1;
    }
    doc.lang := Some(language);
  }

  /** `toggleLanguage`: apply the other language, then show a success toast. */
  method ToggleLanguage(st: AppState, doc: Document)
    modifies st`language, st`storage, st`toastQueue, doc`tagged, doc`lang, doc`toastLayer, doc`nextId
    ensures st.language == Toggled(old(st.language))
    ensures st.storage == old(st.storage)[LanguageKey := st.language]
    ensures |doc.tagged| == |old(doc.tagged)|
    ensures forall i :: 0 <= i < |doc.tagged| ==> doc.tagged[i] == Translated(Translations, st.language, old(doc.tagged)[i])
    ensures doc.lang == Some(st.language)
    ensures doc.nextId == old(doc.nextId) + 1
    ensures doc.hasToastContainer ==>
              st.toastQueue == old(st.toastQueue) + [Toast(old(doc.nextId), "success", "check-circle", "toastLanguageChanged", 3000)]
    ensures !doc.hasToastContainer ==> st.toastQueue == old(st.toastQueue)
    ensures doc.hasToastContainer ==> doc.toastLayer == old(doc.toastLayer) + [old(doc.nextId)]
    ensures !doc.hasToastContainer ==> doc.toastLayer == old(doc.toastLayer)
    ensures old(ToastManager.Mirrored(st, doc)) ==> ToastManager.Mirrored(st, doc)
  {
    var newLanguage := Toggled(st.language);
    ApplyLanguage(st, doc, newLanguage);
    var name := if newLanguage == "es" then "Español" else "English";
    var message := GetText(Translations, st.language, "toastLanguageChanged", [("language", name)]);
    LanguageChangedMessageIsKey(st.language, name);
    ToastManager.Show(st, doc, ToastManager.ToastOptions(Some("success"), Some(message.value), Some(3000)));
  }
}
