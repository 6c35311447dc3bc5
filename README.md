# Portfolio page: state and rules layer

This project models the state-and-rules layer of a portfolio web page's scripts, proved in Dafny. The DOM wiring around that layer is not modelled. The layer covers:

- **Floating logos:** the list of floating technology logos, its per-frame movement pass, clear and pause/resume, the canvas size and the displayed count.
- **Project section:** the modal's cursor with wrap-around navigation, lookup by id, the disabled rules of the modal buttons, and the category filter.
- **Validators:** the string validators (email, phone, emptiness, length bounds) and the layout breakpoints, including their second copies in the two utility modules.
- **Theme and language:** the theme and language state machines, with persisted preferences and a dictionary lookup with `{param}` substitution.
- **Toasts:** the toast queue (show, hide, clear all).
- **Contact form:** per-field validation and the submit handler.

## How the model is built

**Shared state.** `SharedState.AppState` is one explicit state record. It holds:

- the five fields `app-state.js` declares (theme, language, user, notifications, settings);
- `window.localStorage`, as a `map<string, string>`;
- the fields the managers read and write without any declaration: `floatingLogos`, `isLogoAnimationPaused`, `projects`, `currentProjectIndex` and `toastQueue`.

Every manager method takes this one instance. The model does not reproduce the modules' `import { AppState }` binding, which binds the class and not the exported singleton. Because of this, `ThemeManager.applyTheme` here goes through the validating theme setter.

**Document.** The page's document is the class `Dom.Document`.

- A `has...` field says whether an element the scripts look up is present. No modelled operation changes these fields.
- The other fields hold what the scripts write: attributes, texts, classes, the children of the logo and toast layers, and the form controls.
- `nextId` names the next element `document.createElement` makes. This is how a new logo or toast gets a fresh element.

**Exceptions.** A JavaScript exception that the source lets escape is modelled as a `Completion`, either `Normal` or `TypeError`. The model raises it in these cases:

- `getText` reading `translations[language]` for a language that has no dictionary;
- `updateModalNavigation` reading `project.link` when the cursor is outside the catalogue;
- `navigateProject` reading the title of a project that does not exist, which happens on an empty catalogue.

`handleContactFormSubmit` is an `async` function (form-manager.js:93), so a TypeError raised inside it, through `validateField` or its own `getText` calls, rejects the promise it returns instead of propagating to the caller as a thrown exception. Its `TypeError` completion stands for that rejection.

The source also throws where it reads the undeclared shared fields before anything assigns them. The model gives those fields starting values instead; see the constructor line under "Left out".

**Method contracts.** Each method states the new value of every field its `modifies` clause names. The properties the source promises are proved:

- as lemmas about the specification functions (`Pass`, `NextIndex`, `Toggled`, `Flipped`, `GetText`, `Verdict`, `ValidatedAll`, …);
- as invariants the methods preserve (`LogoGenerator.Consistent`, `ToastManager.Mirrored`).

**Inputs.** Random draws, the viewport size, the canvas container size, the system colour-scheme preference and the parsed `data-i18n-params` are parameters.

## Model

| member | source | states |
|---|---|---|
| SharedState.PreferenceReload | assets/js/modules/app-state.js:3-5 | a preference a setter persisted is what the next page load reads back, whatever its value (a stored `blue` becomes the theme although the theme setter refuses it); one that `reset` removed gives way to the fallback |
| SharedState.SystemTheme | assets/js/modules/app-state.js:4 | the system preference always gives a valid theme, `dark` exactly when the dark scheme matches |
| SharedState.AppState.constructor | assets/js/modules/app-state.js:2-9 | theme is the saved value, else the system preference; language is the saved value, else `es`; no user, no notifications, empty settings; the fields the class never declares get the starting values the managers need (see the constructor line under "Left out") |
| SharedState.AppState.SetTheme | assets/js/modules/app-state.js:16-23 | only `dark` and `light` are taken, and they are persisted under `theme`; any other value leaves both the theme and the storage unchanged |
| SharedState.AppState.SetLanguage | assets/js/modules/app-state.js:30-33 | any value is taken and persisted under `language` |
| SharedState.AppState.SetUser | assets/js/modules/app-state.js:40-42 | the user becomes the given value |
| SharedState.AppState.AddNotification | assets/js/modules/app-state.js:45-47 | exactly one item is appended at the end |
| SharedState.AppState.ClearNotifications | assets/js/modules/app-state.js:49-51 | the list becomes empty |
| SharedState.AppState.UpdateSettings | assets/js/modules/app-state.js:54-56 | the keys are the union of the old and new keys; new keys override, and old keys not overridden keep their values |
| SharedState.AppState.Reset | assets/js/modules/app-state.js:59-70 | theme `dark`, language `es`, no user, no notifications, empty settings; both storage keys are removed and every other entry is kept |
| Validators.IsValidEmailMatchesPattern | assets/js/utils/validators.js:8-11 | the validator accepts exactly the strings matching `^[^\s@]+@[^\s@]+\.[^\s@]+$`, read as a pattern with witnesses for the `@` and the `.` |
| Validators.ValidEmailShape | assets/js/utils/validators.js:9 | an accepted address has no whitespace, exactly one `@`, and a non-empty part before it |
| Validators.EmailExamples | assets/js/utils/validators.js:9 | `a@b.c` is accepted; `a@b` and the empty string are not |
| Validators.IsValidPhoneMatchesPattern | assets/js/utils/validators.js:28-31 | the validator accepts exactly an optional `+` followed by a non-empty run of digits, whitespace, `-`, `(` and `)`; a `+` can only lead; a lone `+` is rejected |
| Validators.IsNotEmpty | assets/js/utils/validators.js:36-38 | true exactly when the value is present and has a character that trimming would keep |
| Validators.LengthBoundsMonotone | assets/js/utils/validators.js:43-52 | a minimum length that holds also holds for every smaller minimum, and a maximum for every larger maximum |
| DomHelpers.IsValidEmail | assets/js/utils/dom-helpers.js:12-15 | the second copy, read as a split at `@` into two whitespace-free pieces with a `.` strictly inside the second, accepts exactly the strings matching the pattern |
| DomHelpers.EmailChecksAgree | assets/js/utils/dom-helpers.js:12-15 | the split-at-`@` reading of this copy and the first-`@` reading of the validators copy accept the same strings |
| DomHelpers.BreakpointsPartition | assets/js/utils/dom-helpers.js:69-71 | each width is exactly one of mobile and desktop; tablet implies mobile and not desktop; widths up to 767 are mobile and not tablet |
| Helpers.BreakpointsPartition | assets/js/utils/helpers.js:63-65 | the same partition for the breakpoint copies in this module |
| Helpers.BreakpointsAgree | assets/js/utils/helpers.js:63-65 | each of the three predicates agrees with its copy in the DOM-helpers module on every width |
| LanguageManager.GetText | assets/js/modules/language-manager.js:110-119 | fails with a TypeError exactly when the language has no dictionary; otherwise gives the looked-up text with the parameters substituted in order |
| LanguageManager.GetTextWithoutParams | assets/js/modules/language-manager.js:110-118 | with no parameters, the stored non-empty translation comes back unchanged, and otherwise the key does |
| LanguageManager.GetTextFallsBackToKey | assets/js/modules/language-manager.js:111-118 | a key with no translation, and with no `{` in it, comes back as itself whatever the parameters |
| LanguageManager.ApplyParamsInOrder | assets/js/modules/language-manager.js:114-116 | parameters apply in order: the last one replaces the first occurrence of its placeholder in the result of the ones before it |
| LanguageManager.ApplyOneParam | assets/js/modules/language-manager.js:115 | one parameter replaces only the first occurrence of `{name}`, and leaves the text before and after that occurrence untouched |
| LanguageManager.ApplyParamsWithoutBraces | assets/js/modules/language-manager.js:114-116 | a text with no `{` is unchanged by any parameters |
| LanguageManager.LanguageChangedMessageIsKey | assets/js/modules/language-manager.js:103-107 | neither dictionary has `toastLanguageChanged`, so the toggle toast shows that key |
| LanguageManager.Toggled | assets/js/modules/language-manager.js:99-100 | the toggle always gives `en` or `es`, and it changes `es` and `en` to the other one |
| LanguageManager.ToggleTwice | assets/js/modules/language-manager.js:99-100 | two toggles restore the language exactly when it was `es` or `en`; any other value ends at `en` |
| LanguageManager.Translated | assets/js/modules/language-manager.js:72-88 | rewriting an element's text keeps its key and its parameters |
| LanguageManager.TranslatedAgreesWithGetText | assets/js/modules/language-manager.js:72-88 | an element whose key has a non-empty translation gets the text `getText` gives for its key and parameters; any other element is left as it is |
| LanguageManager.TranslatedIsStable | assets/js/modules/language-manager.js:72-88 | an element changes only when its key has a non-empty translation, and translating twice is the same as translating once |
| LanguageManager.TranslatedRoundTrip | assets/js/modules/language-manager.js:72-88 | for a key translated in both languages, translating to another language and back gives the same text as translating back directly |
| LanguageManager.ApplyLanguage | assets/js/modules/language-manager.js:66-96 | state language and stored `language` become the argument; each tagged element is translated and nothing else about it changes; `lang` becomes the argument |
| LanguageManager.ToggleLanguage | assets/js/modules/language-manager.js:98-108 | applies the toggled language, then shows a success toast with `toastLanguageChanged` for 3000 ms: when the toast container exists, the toast is queued and its new element appended to the container, which keeps mirroring the queue; otherwise neither changes |
| ThemeManager.Flipped | assets/js/modules/theme-manager.js:97-98 | the toggle always gives a valid theme, and it is `light` exactly when the current one is `dark` |
| ThemeManager.FlipTwice | assets/js/modules/theme-manager.js:96-101 | two toggles restore the theme exactly when it was `dark` or `light`; anything else ends at `light` |
| ThemeManager.AppearanceAgrees | assets/js/modules/theme-manager.js:67-94 | meta colour `#0b0d12` and the sun icon exactly for `dark`; every other value gets `#f8fafc` and the moon; the icon's label and title are the same text |
| ThemeManager.ApplyTheme | assets/js/modules/theme-manager.js:43-65 | `data-theme` and stored `theme` become the argument, so `getCurrentTheme` reads a non-empty argument back; the state theme becomes the argument when it is valid; the meta colour and every icon follow it |
| ThemeManager.LoadTheme | assets/js/modules/theme-manager.js:28-41 | applies the saved theme when one is stored, without validating it, and the system preference otherwise: attribute, stored entry (other entries kept), state theme when valid, meta colour and icons; afterwards a theme is always stored |
| ThemeManager.ToggleTheme | assets/js/modules/theme-manager.js:96-101 | applies the flip of the current attribute, where a missing attribute counts as `dark` |
| ThemeManager.SetTheme | assets/js/modules/theme-manager.js:150-157 | applies `dark` or `light` as given; any other value becomes `dark` |
| ThemeManager.SystemPreferenceChanged | assets/js/modules/theme-manager.js:131-142 | a preference change applies the system theme (attribute, state, storage, meta colour and icons) only when no theme is stored, and otherwise nothing changes |
| ToastManager.IconFor | assets/js/modules/toast-manager.js:25-40 | `success` gives `check-circle`, `error` gives `exclamation-circle`, `warning` gives `exclamation-triangle`, and exactly the other types give `info-circle` |
| ToastManager.ToastOf | assets/js/modules/toast-manager.js:14-18 | a given type, message and duration are used as they are, the icon following the type; the defaults are type `info` (with its icon), an empty message and 3000 ms |
| ToastManager.RemoveFirstDropsOne | assets/js/modules/toast-manager.js:94-97 | removal drops exactly one toast when the element is queued, and is a no-op otherwise |
| ToastManager.RemoveFirstAt | assets/js/modules/toast-manager.js:94-97 | removal takes out exactly the first entry for that element, keeping everything before and after it in order |
| ToastManager.RemoveFirstMirrors | assets/js/modules/toast-manager.js:84-99 | on a queue with distinct elements, removing a toast from the queue matches removing its element from the container |
| ToastManager.Show | assets/js/modules/toast-manager.js:13-82 | with a container, exactly one toast, built with the defaults and icon mapping, is appended to both the queue and the container; with none, nothing is appended; queue and container stay in step |
| ToastManager.Hide | assets/js/modules/toast-manager.js:84-99 | the element leaves the container and the first queue entry for it leaves the queue; queue and container stay in step |
| ToastManager.ClearAll | assets/js/modules/toast-manager.js:101-108 | every queued toast is hidden and the queue is emptied; when queue and container were in step, the container ends empty |
| LogoGenerator.Load | assets/js/modules/logo-generator.js:13-17 | an undefined logo list becomes empty, and an existing one is kept |
| LogoGenerator.NewLogoRanges | assets/js/modules/logo-generator.js:151-178 | a new logo starts at `y = innerHeight` with size in [30,70), upward speed in (-3.5,-1.5], sideways and spin speeds in [-0.75,0.75), rotation in [0,360) and, when the viewport is at least as wide as the logo, a start inside the viewport's width |
| LogoGenerator.GenerateLogo | assets/js/modules/logo-generator.js:134-190 | an unknown type or a missing layer changes nothing; otherwise exactly one new logo on a fresh element is appended to the list and the layer, and the count is updated |
| LogoGenerator.ClearAll | assets/js/modules/logo-generator.js:192-202 | the layer is emptied, the list has no entries, and the displayed count is 0 |
| LogoGenerator.UpdateLogoCount | assets/js/modules/logo-generator.js:289-295 | the displayed count equals the list's length |
| LogoGenerator.ResizeCanvas | assets/js/modules/logo-generator.js:65-74 | the width is the container's width when positive, else 1200; the height is the container's height when positive, else 400 |
| LogoGenerator.PassAppend | assets/js/modules/logo-generator.js:229-283 | a pass distributes over concatenation, so survivors keep their relative order |
| LogoGenerator.PassMembers | assets/js/modules/logo-generator.js:229-283 | the list after a pass holds exactly the advanced survivors, and never grows |
| LogoGenerator.NoBottomEdge | assets/js/modules/logo-generator.js:277-282 | a logo with an element survives whenever it is within 200 of the top, left and right edges, however far below the bottom it is |
| LogoGenerator.PassKeepsMirror | assets/js/modules/logo-generator.js:229-283 | after a pass the list still mirrors the layer, with the elements of leaving logos removed |
| LogoGenerator.PassElements | assets/js/modules/logo-generator.js:277-282 | the elements of the survivors are the old elements minus those of the logos that left |
| LogoGenerator.SweepLogos | assets/js/modules/logo-generator.js:229-283 | the reverse in-place loop, which advances entries and splices out those with no element or out of bounds, leaves exactly the pass of the list, and removes from the layer exactly the leaving elements |
| LogoGenerator.UpdateLogos | assets/js/modules/logo-generator.js:211-287 | a list that is not an array is reset to empty and nothing else changes; otherwise the list becomes its pass, the leaving elements leave the layer and the count is updated |
| LogoGenerator.AnimateFrame | assets/js/modules/logo-generator.js:204-209 | while paused, a frame changes no logo, layer or count; otherwise it is one `updateLogos`: a missing list becomes empty and nothing else changes, or the list becomes its pass, the leaving elements leave the layer and the count follows |
| LogoGenerator.RandomKind | assets/js/modules/logo-generator.js:111-118 | a draw in [0,1) always picks a logo type, each type taking one quarter of the range in declaration order |
| LogoGenerator.HandleAction | assets/js/modules/logo-generator.js:102-132 | `pause` and `resume` set and clear the flag and change nothing else; `clear` empties list, layer and count; a logo type, or `random` with the type its draw picks, appends one new logo on a fresh element to list and layer and updates the count when the layer exists; anything else changes nothing |
| ProjectManager.NextIndex | assets/js/modules/project-manager.js:154-165 | for an in-range index of a non-empty catalogue, the new index stays in range |
| ProjectManager.NextIndexIsModular | assets/js/modules/project-manager.js:157-162 | next is `index+1` wrapping to 0 after the last index; prev is `index-1` wrapping to `length-1` before 0 |
| ProjectManager.NavigateRoundTrip | assets/js/modules/project-manager.js:154-165 | next followed by prev, and prev followed by next, restore the index |
| ProjectManager.EmptyCatalogueHasNoTarget | assets/js/modules/project-manager.js:154-165 | on an empty catalogue next lands on 0 and prev from 0 on -1, neither of them a project |
| ProjectManager.VisitTextIsKey | assets/js/modules/project-manager.js:197-199 | neither dictionary has `modalVisit`, so the visit button shows that key |
| ProjectManager.UpdateModalNavigation | assets/js/modules/project-manager.js:184-201 | prev and next are disabled exactly when there are at most one project; visit is disabled exactly when the current project has no link; a missing current project is a TypeError |
| ProjectManager.OpenProjectModal | assets/js/modules/project-manager.js:120-144 | the cursor moves to the first project with that id, the modal opens showing it, the body stops scrolling and the buttons are refreshed as `updateModalNavigation` does; an unknown id or a missing modal changes nothing |
| ProjectManager.CloseProjectModal | assets/js/modules/project-manager.js:146-152 | the modal closes and the body scrolls again |
| ProjectManager.NavigateProject | assets/js/modules/project-manager.js:154-182 | the cursor takes one wrapping step; the modal text shows the new project when present and is otherwise kept; the buttons are refreshed as `updateModalNavigation` does; a missing project with modal text present is a TypeError that leaves text and buttons unchanged |
| ProjectManager.CardShownForJoinedCategories | assets/js/modules/project-manager.js:40-42 | a card is shown exactly for the filter `all` and for each of its comma-separated categories |
| ProjectManager.SpacesAreKept | assets/js/modules/project-manager.js:40-42 | categories are compared untrimmed, so `app` does not match `web, app` but ` app` does |
| ProjectManager.FilterClick | assets/js/modules/project-manager.js:21-58 | exactly the clicked button becomes active, and each card is shown exactly when the filter predicate holds for it |
| FormManager.VerdictMeaning | assets/js/modules/form-manager.js:38-64 | a field passes exactly when it is not required or not empty after trimming, and it is not an email field, or it is blank, or its trimmed value matches the email pattern |
| FormManager.RequiredComesFirst | assets/js/modules/form-manager.js:49-57 | a blank required field fails with `formRequired`, whatever its type; a blank non-required field passes, even an email field |
| FormManager.PaddingIsIgnored | assets/js/modules/form-manager.js:39 | the value is trimmed before any check, so a valid address padded with whitespace passes |
| FormManager.ValidatedIsStable | assets/js/modules/form-manager.js:43-84 | from a clean field, validation leaves it clean and flagged invalid exactly when it fails; repeating it changes nothing; the value is untouched |
| FormManager.MessagesAreKeys | assets/js/modules/form-manager.js:49-57 | neither dictionary has the form's message keys, so the error texts are the keys themselves |
| FormManager.ClearFieldError | assets/js/modules/form-manager.js:82-91 | the invalid flag is removed and so is the first error text |
| FormManager.ShowFieldError | assets/js/modules/form-manager.js:66-80 | the message is appended as an error text and the field is flagged invalid |
| FormManager.ValidateField | assets/js/modules/form-manager.js:38-64 | returns whether the field passes; after a normal return the field is flagged invalid exactly when it failed; a failing field in a language with no dictionary is a TypeError |
| FormManager.AllPassStep | assets/js/modules/form-manager.js:98-102 | all fields of a longer prefix pass exactly when all of the shorter prefix pass and the next field passes |
| FormManager.ValidatedAll | assets/js/modules/form-manager.js:98-102 | validating every field keeps the number of fields |
| FormManager.ValidatedAllAt | assets/js/modules/form-manager.js:98-102 | every field is validated by itself, independently of the others |
| FormManager.ValidatedAllMarksFailures | assets/js/modules/form-manager.js:98-102 | after validating a clean form, exactly the failing fields are flagged invalid |
| FormManager.ValidateAll | assets/js/modules/form-manager.js:96-102 | every field is validated, without stopping at the first failure, and the result is true exactly when all fields pass; a failing field in a language without a dictionary raises at that field, after the fields up to it were validated and with the rest untouched |
| FormManager.ResetForm | assets/js/modules/form-manager.js:131 | every field gets its default value back |
| FormManager.HandleContactFormSubmit | assets/js/modules/form-manager.js:93-146 | an invalid submission flags the fields, shows an error toast (5000 ms) and returns without resetting; a valid one shows a success toast, resets the form and sets the form message; each toast's element is appended to the container, which keeps mirroring the queue; a rejection (language without a dictionary) shows no toast and leaves the message, with the fields validated up to where the loop stopped |

## Left out

- `assets/js/main.js` (bootstrap, retries and polyfills), `navigation-manager.js`, `animation-manager.js` and `accessibility-manager.js` are not part of this model. They are DOM event wiring and cosmetic effects.
- Module `init` functions and event-listener registration (`bindButtons`, `initContactForm`, `initProjectModals`, `initModalNavigation`, `bindEvents`, `ToastManager.init`, `LanguageManager.init`). Each handler they register is modelled as a method called directly.
- The canvas glow drawing in `updateLogos` (logo-generator.js:249-274), `initCanvas`, and the `requestAnimationFrame` re-scheduling in `animate`. These are canvas calls and floating-point trigonometry. A frame is one call of `AnimateFrame`.
- Timers:
  - the toast's automatic hide and its 300 ms removal delay;
  - the 5000 ms clearing of the form message;
  - the filter's card fade timers.
  `ToastManager.Hide` removes a toast at once, and a card's `shown` is the state it settles in.
- `debounce`, `throttle`, `wait`, `smoothScroll`, `isValidUrl`, `formatDate`, `formatNumber`, `generateId`, `copyToClipboard`, `lazyLoadImages`, `prefetchResources` and `prefersReducedMotion`. They depend on timers, frames, float easing or browser APIs.
- Browser APIs not modelled:
  - `CustomEvent` dispatch, `window.open`, `console` output, `FormData` and the logged form data;
  - registration of `matchMedia` listeners; the preference arrives as a parameter;
  - `JSON.parse` of `data-i18n-params`; the parameters arrive as a list of pairs in `Object.entries` order.
- Inline styles set for looks (colours, font sizes, transitions) and class names other than `active` and `is-invalid`.
- Floating point: positions, sizes and speeds are `real`. No rounding, `NaN` or infinity is modelled.
- Strings are sequences of characters. Lengths are not counted in UTF-16 code units, and `toString()` of non-string values is not modelled.
- Dictionary lookups do not see keys inherited from `Object.prototype`.
- Project ids are integers. `parseInt` yielding `NaN` from a card without a numeric `data-project` is not modelled.
- A card without a `data-category` attribute is not modelled. In the source it ends in a TypeError inside the filter loop.
- A logo entry that is itself `null`, and a `floatingLogos` that is a truthy non-array value. `None` models the undefined list only.
- The `<meta name="theme-color">` element that `updateMetaThemeColor` creates when it is missing. The model keeps only its content and does not give it an element id.
- The `div` that `showFieldError` creates. The model keeps only its text among the field's error texts and does not give it an element id.
- Each form control is assumed to be the only control in its parent. So `clearFieldError` removes an error text belonging to that control.
- SharedState.AppState.constructor: it starts `floatingLogos` undefined, `isLogoAnimationPaused` false, `toastQueue` empty, `projects` as the page's catalogue and `currentProjectIndex` at 0. The source never assigns the last three before reading them. The only assignment, `toastQueue = []` at toast-manager.js:107, follows a `forEach` on the undefined queue and is never reached. As written:
  - `show` throws a TypeError at toast-manager.js:78, after the toast element is already appended;
  - so `handleContactFormSubmit` never reaches `form.reset()` or the form message (form-manager.js:131-142);
  - `openProjectModal` throws at project-manager.js:128.
  The model does not reproduce these failures: it follows the one explicit state record the managers are written against.
- LogoGenerator.HandleAction: the logo type only chooses the SVG of the new element, which the model does not keep. So the new entry is the same for every type.
- FormManager.ValidateField: the field is looked up by position in the form, not by object identity.
