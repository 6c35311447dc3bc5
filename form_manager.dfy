/** The contact form (assets/js/modules/form-manager.js): per-field
    validation with an error element in the field's parent, and the submit
    handler that validates every field and either reports the failure or
    resets the form. Every control is modelled as the only one in its parent,
    so the `.form-error` elements of its parent are its own. */
module FormManager {
  import opened JsBuiltins
  import opened Dom
  import opened SharedState
  import Validators
  import LanguageManager
  import ToastManager

  /** The message key of the first rule the trimmed value breaks, `None` when
      it breaks none: a required field must not be blank, and a non-blank email
      field must hold an address. */
  function Verdict(required: bool, kind: string, raw: string): Option<string> {
    var value := Trim(raw);
    if required && value == "" then Some("formRequired")
    else if kind == "email" && value != "" && !Validators.IsValidEmail(value) then Some("formInvalidEmail")
    else None
  }

  /** A field passes exactly when it is not required or not blank, and it is not
      an email field or blank or (trimmed) matches the address pattern. */
  lemma VerdictMeaning(required: bool, kind: string, raw: string)
    ensures Verdict(required, kind, raw).None? <==>
              && (!required || Validators.IsNotEmpty(Some(raw)))
              && (kind != "email" || AllWhitespace(raw) || Validators.EmailPattern(Trim(raw)))
  {
    TrimSpec(raw);
    Validators.IsValidEmailMatchesPattern(Trim(raw));
    if Validators.IsNotEmpty(Some(raw)) {
      var i :| 0 <= i < |raw| && !IsWhitespace(raw[i]);
      assert !AllWhitespace(raw);
    }
  }

  /** The required rule comes first: a blank required email field is reported as
      missing, never as malformed; a blank optional email field passes. */
  lemma RequiredComesFirst(kind: string, raw: string)
    requires AllWhitespace(raw)
    ensures Verdict(true, kind, raw) == Some("formRequired")
    ensures Verdict(false, kind, raw) == None
  {
    TrimSpec(raw);
  }

  /** Surrounding whitespace is ignored: a padded valid address passes. */
  lemma PaddingIsIgnored(required: bool, email: string, before: string, after: string)
    requires Validators.IsValidEmail(email) && AllWhitespace(before) && AllWhitespace(after)
    ensures Verdict(required, "email", before + email + after) == None
  {
    Validators.ValidEmailShape(email);
    TrimOfPadded(before, email, after);
  }

  // ---------------------------------------------------------------------------
  // One field
  // ---------------------------------------------------------------------------

  /** The field's current value breaks no rule. */
  predicate Passes(f: FormField) {
    Verdict(f.required, f.kind, f.value).None?
  }

  /** At most one error element, present exactly while the field is marked invalid. */
  predicate Clean(f: FormField) {
    |f.errors| <= 1 && (f.invalid <==> |f.errors| == 1)
  }

  /** The field once `clearFieldError` has run: unmarked, first error element gone. */
  function Cleared(f: FormField): FormField {
    f.(invalid := false, errors := if f.errors == [] then [] else f.errors[1..])
  }

  /** The field once `validateField` has run: cleared, then, when a rule is
      broken and the current language has a dictionary, marked with the
      message `getText` gives for the rule's key. (Without a dictionary the
      lookup raises before anything is marked.) */
  function Validated(translations: LanguageManager.Dictionary, f: FormField, language: string): FormField {
    var v := Verdict(f.required, f.kind, f.value);
    if v.None? || language !in translations then Cleared(f)
    else
      var message := LanguageManager.Lookup(translations[language], v.value);
      Cleared(f).(invalid := true, errors := Cleared(f).errors + [message])
  }

  /** Validation keeps a field clean, marks it exactly when it fails (and the
      message could be looked up), leaves its value alone, and validating again
      changes nothing. */
  lemma ValidatedIsStable(translations: LanguageManager.Dictionary, f: FormField, language: string)
    requires Clean(f)
    ensures Clean(Validated(translations, f, language))
    ensures Validated(translations, f, language).invalid <==> !Passes(f) && language in translations
    ensures Validated(translations, Validated(translations, f, language), language) == Validated(translations, f, language)
    ensures Validated(translations, f, language).value == f.value
  {
  }

  /** Neither dictionary has the form's keys, so every error reads as its key. */
  lemma MessagesAreKeys(language: string, key: string)
    requires language == "es" || language == "en"
    requires key in {"formRequired", "formInvalidEmail", "formError", "formSuccess"}
    ensures LanguageManager.GetText(LanguageManager.Translations, language, key, []) == Some(key)
  {
    LanguageManager.GetTextFallsBackToKey(LanguageManager.Translations, language, key, []);
  }

  method ClearFieldError(doc: Document, i: nat)
    requires i < |doc.fields|
    modifies doc`fields
    ensures doc.fields == old(doc.fields)[i := Cleared(old(doc.fields)[i])]
  {
    var field := doc.fields[i];
    field := field.(invalid := false);
    if field.errors != [] {
      field := field.(errors := field.errors[1..]);
    }
    doc.fields := doc.fields[i := field];
  }

  method ShowFieldError(doc: Document, i: nat, message: string)
    requires i < |doc.fields|
    modifies doc`fields
    ensures doc.fields == old(doc.fields)[i := old(doc.fields)[i].(invalid := true, errors := old(doc.fields)[i].errors + [message])]
  {
    var field := doc.fields[i];
    field := field.(errors := field.errors + [message]);
    field := field.(invalid := true);
    doc.fields := doc.fields[i := field];
  }

  /** `validateField`: clear the old error, then report the first broken rule.
      The result is `true` exactly when no rule is broken, and then the field is
      left unmarked; looking up the message raises when the current language has
      no dictionary. */
  method ValidateField(st: AppState, doc: Document, i: nat) returns (valid: bool, c: Completion)
    requires i < |doc.fields|
    modifies doc`fields
    ensures valid <==> Passes(old(doc.fields)[i])
    ensures c == TypeError <==> !valid && st.language !in LanguageManager.Translations
    ensures doc.fields == old(doc.fields)[i := Validated(LanguageManager.Translations, old(doc.fields)[i], st.language)]
    ensures c == Normal ==> (valid <==> !doc.fields[i].invalid)
  {
    var field := doc.fields[i];
    ClearFieldError(doc, i);
    var verdict := Verdict(field.required, field.kind, field.value);
    valid := verdict.None?;
    c := Normal;
    if !valid {
      var errorMessage := LanguageManager.GetText(LanguageManager.Translations, st.language, verdict.value, []);
      if errorMessage.None? {
        return false, TypeError;
      }
      ShowFieldError(doc, i, errorMessage.value);
    }
  }

  // ---------------------------------------------------------------------------
  // Submitting
  // ---------------------------------------------------------------------------

  /** Every field passes. */
  predicate AllPass(fields: seq<FormField>) {
    forall j :: 0 <= j < |fields| ==> Passes(fields[j])
  }

  lemma AllPassStep(fields: seq<FormField>, i: nat)
    requires i < |fields|
    ensures AllPass(fields[..i + 1]) <==> AllPass(fields[..i]) && Passes(fields[i])
  {
    var longer, shorter := fields[..i + 1], fields[..i];
    assert longer[i] == fields[i];
    assert forall j :: 0 <= j < i ==> longer[j] == shorter[j];
  }

  /** Every field once validated, in form order. */
  function ValidatedAll(translations: LanguageManager.Dictionary, fields: seq<FormField>, language: string): (r: seq<FormField>)
    ensures |r| == |fields|
  {
    if fields == [] then []
    else ValidatedAll(translations, fields[..|fields| - 1], language) + [Validated(translations, fields[|fields| - 1], language)]
  }

  /** Field by field, `ValidatedAll` is `Validated`. */
  lemma {:induction false} ValidatedAllAt(translations: LanguageManager.Dictionary, fields: seq<FormField>, language: string, j: int)
    requires 0 <= j < |fields|
    ensures ValidatedAll(translations, fields, language)[j] == Validated(translations, fields[j], language)
  {
    if j < |fields| - 1 {
      ValidatedAllAt(translations, fields[..|fields| - 1], language, j);
    }
  }

  /** Validating every field of a clean form, in a language with a dictionary,
      leaves it clean, with exactly the failing fields marked. */
  lemma ValidatedAllMarksFailures(translations: LanguageManager.Dictionary, fields: seq<FormField>, language: string)
    requires language in translations
    requires forall j :: 0 <= j < |fields| ==> Clean(fields[j])
    ensures forall j :: 0 <= j < |fields| ==>
              && Clean(ValidatedAll(translations, fields, language)[j])
              && (ValidatedAll(translations, fields, language)[j].invalid <==> !Passes(fields[j]))
  {
    forall j | 0 <= j < |fields|
      ensures Clean(ValidatedAll(translations, fields, language)[j])
      ensures ValidatedAll(translations, fields, language)[j].invalid <==> !Passes(fields[j])
    {
      ValidatedAllAt(translations, fields, language, j);
      ValidatedIsStable(translations, fields[j], language);
    }
  }

  /** The fields once the validation loop has raised at field `k`: every field
      before it passes, `k` fails, and the fields up to and including `k` have
      been validated while the rest are untouched. */
  predicate StoppedAt(fields0: seq<FormField>, fields: seq<FormField>, language: string, k: int) {
    && 0 <= k < |fields0|
    && AllPass(fields0[..k])
    && !Passes(fields0[k])
    && fields == ValidatedAll(LanguageManager.Translations, fields0[..k + 1], language) + fields0[k + 1..]
  }

  /** One turn of the validation loop: validating the next field extends the
      validated prefix by one. */
  lemma ValidateStep(translations: LanguageManager.Dictionary, fields0: seq<FormField>, i: nat, language: string, before: seq<FormField>)
    requires i < |fields0|
    requires before == ValidatedAll(translations, fields0[..i], language) + fields0[i..]
    ensures |before| == |fields0| && before[i] == fields0[i]
    ensures before[i := Validated(translations, before[i], language)] ==
              ValidatedAll(translations, fields0[..i + 1], language) + fields0[i + 1..]
  {
    var done := ValidatedAll(translations, fields0[..i], language);
    ReplaceNext(done, fields0[i..], Validated(translations, fields0[i], language));
    assert fields0[..i + 1][..i] == fields0[..i];
    assert fields0[i..][1..] == fields0[i + 1..];
  }

  /** Replacing the first field of `rest` by `x` after a prefix. */
  lemma ReplaceNext<T>(done: seq<T>, rest: seq<T>, x: T)
    requires rest != []
    ensures (done + rest)[|done| := x] == done + [x] + rest[1..]
  {
    var s := (done + rest)[|done| := x];
    assert s[..|done|] == done && s[|done|] == x && s[|done| + 1..] == rest[1..];
    assert s == s[..|done|] + [s[|done|]] + s[|done| + 1..];
  }

  /** `form.reset()`: each control back to its default value; marks and error
      elements stay. */
  function ResetValue(f: FormField): FormField {
    f.(value := f.defaultValue)
  }

  /** `handleContactFormSubmit`: every field is validated (none is skipped after
      a failure); on any failure an error toast is shown and nothing else
      happens; otherwise a success toast is shown, the form is reset and the
      form message set. */
  method HandleContactFormSubmit(st: AppState, doc: Document) returns (c: Completion)
    modifies doc`fields, st`toastQueue, doc`toastLayer, doc`nextId, doc`formMessage
    ensures st.language !in LanguageManager.Translations ==> c == TypeError
    ensures st.language in LanguageManager.Translations ==> c == Normal && doc.nextId == old(doc.nextId) + 1
    ensures st.language in LanguageManager.Translations && !AllPass(old(doc.fields)) ==>
              && doc.fields == ValidatedAll(LanguageManager.Translations, old(doc.fields), st.language)
              && (doc.hasToastContainer ==>
                    st.toastQueue == old(st.toastQueue) + [Toast(old(doc.nextId), "error", "exclamation-circle",
                      LanguageManager.GetText(LanguageManager.Translations, st.language, "formError", []).value, 5000)])
              && doc.formMessage == old(doc.formMessage)
    ensures st.language in LanguageManager.Translations && AllPass(old(doc.fields)) ==>
              && |doc.fields| == |old(doc.fields)|
              && (forall j :: 0 <= j < |doc.fields| ==>
                    doc.fields[j] == ResetValue(ValidatedAll(LanguageManager.Translations, old(doc.fields), st.language)[j]))
              && (doc.hasToastContainer ==>
                    st.toastQueue == old(st.toastQueue) + [Toast(old(doc.nextId), "success", "check-circle",
                      LanguageManager.GetText(LanguageManager.Translations, st.language, "formSuccess", []).value, 5000)])
              && doc.formMessage == (if doc.hasFormMessage
                                     then LanguageManager.GetText(LanguageManager.Translations, st.language, "formSuccess", []).value
                                     else old(doc.formMessage))
    ensures !doc.hasToastContainer ==> st.toastQueue == old(st.toastQueue)
    ensures c == Normal && doc.hasToastContainer ==> doc.toastLayer == old(doc.toastLayer) + [old(doc.nextId)]
    ensures !doc.hasToastContainer ==> doc.toastLayer == old(doc.toastLayer)
    ensures old(ToastManager.Mirrored(st, doc)) ==> ToastManager.Mirrored(st, doc)
    ensures c == TypeError ==>
              && st.toastQueue == old(st.toastQueue) && doc.toastLayer == old(doc.toastLayer)
              && doc.nextId == old(doc.nextId) && doc.formMessage == old(doc.formMessage)
              && (AllPass(old(doc.fields)) ==>
                    doc.fields == ValidatedAll(LanguageManager.Translations, old(doc.fields), st.language))
              && (!AllPass(old(doc.fields)) ==> exists k :: StoppedAt(old(doc.fields), doc.fields, st.language, k))
  {
    var isValid, checked := ValidateAll(st, doc);
    if checked == TypeError {
      return TypeError;
    }
    if !isValid {
      var errorText := LanguageManager.GetText(LanguageManager.Translations, st.language, "formError", []);
      if errorText.None? {
        return TypeError;
      }
      ToastManager.Show(st, doc, ToastManager.ToastOptions(Some("error"), Some(errorText.value), Some(5000)));
      return Normal;
    }
    var successText := LanguageManager.GetText(LanguageManager.Translations, st.language, "formSuccess", []);
    if successText.None? {
      return TypeError;
    }
    ToastManager.Show(st, doc, ToastManager.ToastOptions(Some("success"), Some(successText.value), Some(5000)));
    ResetForm(doc);
    if doc.hasFormMessage {
      doc.formMessage := successText.value;
    }
    c := Normal;
  }

  /** The `forEach` of the submit handler: every field is validated, with no
      stop at the first failure; only a raised error ends it early. */
  method ValidateAll(st: AppState, doc: Document) returns (isValid: bool, c: Completion)
    modifies doc`fields
    ensures c == TypeError <==> st.language !in LanguageManager.Translations && !AllPass(old(doc.fields))
    ensures c == Normal ==>
              && (isValid <==> AllPass(old(doc.fields)))
              && doc.fields == ValidatedAll(LanguageManager.Translations, old(doc.fields), st.language)
    ensures c == TypeError ==> exists k :: StoppedAt(old(doc.fields), doc.fields, st.language, k)
  {
    ghost var fields0 := doc.fields;
    isValid := true;
    var i := 0;
    while i < |doc.fields|
      invariant 0 <= i <= |doc.fields| == |fields0|
      invariant isValid <==> AllPass(fields0[..i])
      invariant doc.fields == ValidatedAll(LanguageManager.Translations, fields0[..i], st.language) + fields0[i..]
      invariant st.language !in LanguageManager.Translations ==> isValid
    {
      ghost var before := doc.fields;
      ValidateStep(LanguageManager.Translations, fields0, i, st.language, before);
      var fieldValid, fc := ValidateField(st, doc, i);
      AllPassStep(fields0, i);
      if fc == TypeError {
        assert StoppedAt(fields0, doc.fields, st.language, i);
        return false, TypeError;
      }
      if !fieldValid {
        isValid := false;
      }
      i := i + 1;
    }
    assert fields0[..i] == fields0;
    c := Normal;
  }

  /** `form.reset()`. */
  method ResetForm(doc: Document)
    modifies doc`fields
    ensures |doc.fields| == |old(doc.fields)|
    ensures forall j :: 0 <= j < |doc.fields| ==> doc.fields[j] == ResetValue(old(doc.fields)[j])
  {
    var k := 0;
    while k < |doc.fields|
      invariant 0 <= k <= |doc.fields| == |old(doc.fields)|
      invariant forall j :: 0 <= j < k ==> doc.fields[j] == ResetValue(old(doc.fields)[j])
      invariant forall j :: k <= j < |doc.fields| ==> doc.fields[j] == old(doc.fields)[j]
    {
      doc.fields := doc.fields[k := ResetValue(doc.fields[k])];
      k := k + 1;
    }
  }
}
