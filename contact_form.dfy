/** The contact form controller: per-field feedback on blur and focus, and
    the submit flow that validates every entry, refuses to send while any
    field is invalid or the bot check has no token, hands the sanitized
    values to the mail service and always clears the loading state. */
module ContactForm {
  import opened Wrappers
  import opened Language
  import opened Validation

  /** One `[name, value]` pair of `new FormData(form).entries()`. */
  datatype Entry = Entry(name: string, value: string)

  /** A field's `.form-group`: its `error` and `success` classes and the text
      of its `.error-message` element (`None` when the group has none). */
  datatype Group = Group(error: bool, success: bool, errorText: Option<string>)

  datatype StatusKind = Success | Error

  /** The three messages the submit listener can put in the banner. */
  datatype Notice = FixErrors | Sent | SendFailed

  /** The `#formStatus` banner: hidden, or showing `NoticeText(notice, lang)`
      with the class of `kind`. */
  datatype Status = Hidden | Shown(kind: StatusKind, notice: Notice, lang: Lang)

  /** The outcome of `emailjs.send`: resolved, or rejected or thrown. */
  datatype Delivery = Delivered | Failed

  /** The `templateParams` handed to `emailjs.send`; a field the form did
      not validate is `None` (`undefined`). */
  datatype Payload = Payload(
    fromName: Option<string>,
    fromEmail: Option<string>,
    message: Option<string>,
    turnstileToken: string,
    toEmail: string)

  /** What the page provides: the `#formStatus` and `#submitBtn` elements,
      the Turnstile script and its `#turnstile-widget` container, and the
      EmailJS script. */
  datatype Env = Env(
    statusBox: bool,
    submitButton: bool,
    turnstileLoaded: bool,
    widgetContainer: bool,
    emailjsLoaded: bool)

  /** The state the controller changes. `groups` is keyed by the id of each
      field element that has a form group; `widgetRendered` is
      `turnstileWidgetId !== null`; `outbox` records every `emailjs.send`
      call; `formResets` and `captchaResets` count `contactForm.reset()` and
      `turnstile.reset` calls. */
  datatype FormState = FormState(
    groups: map<string, Group>,
    status: Status,
    loading: bool,
    widgetRendered: bool,
    outbox: seq<Payload>,
    formResets: nat,
    captchaResets: nat)

  const Recipient := "mcor63@gmail.com"

  /** The fields that get blur and focus listeners. */
  const WatchedFields: seq<string> := ["user_name", "user_email", "message"]

  /** The text of a banner message in each language; none is empty. */
  function NoticeText(notice: Notice, lang: Lang): (r: string)
    ensures |r| > 0
  {
    match notice
    case FixErrors =>
      if lang == Es then "Por favor corrige los errores en el formulario"
      else "Please correct the errors in the form"
    case Sent =>
      if lang == Es then "¡Mensaje enviado con éxito! Te responderé pronto."
      else "Message sent successfully! I will reply soon."
    case SendFailed =>
      if lang == Es then "Hubo un error al enviar el mensaje. Por favor intenta nuevamente o contáctame directamente por email."
      else "There was an error sending the message. Please try again or contact me directly by email."
  }

  // ---------------------------------------------------------------------
  // The DOM effects, as state updates

  /** `updateFieldUI` for one group. The message of an invalid result is
      always present (`Validation.InvalidCarriesMessage`); were it absent,
      assigning `undefined` to `textContent` would clear the element, which
      is the empty text written here. */
  function UpdateFieldUI(g: Group, v: ValidationResult): (r: Group)
    ensures r.error == !v.valid && r.success == v.valid
    ensures r.errorText.Some? <==> g.errorText.Some?
    ensures v.valid ==> r.errorText == g.errorText
    ensures !v.valid && g.errorText.Some? && v.message.Some? ==> r.errorText == v.message
  {
    if v.valid then g.(error := false, success := true)
    else g.(error := true, success := false,
            errorText := if g.errorText.Some? then Some(v.message.GetOr("")) else None)
  }

  function ClearGroup(g: Group): (r: Group)
    ensures !r.error && !r.success && r.errorText == g.errorText
  {
    g.(error := false, success := false)
  }

  /** `showStatus`: a page without the banner is left as it is. */
  function ShowStatus(s: FormState, env: Env, kind: StatusKind, notice: Notice, lang: Lang): (r: FormState)
    ensures r == s.(status := r.status)
    ensures env.statusBox ==> r.status == Shown(kind, notice, lang)
    ensures !env.statusBox ==> r == s
  {
    if env.statusBox then s.(status := Shown(kind, notice, lang)) else s
  }

  /** `setLoadingState`: a page without the submit button is left as it is. */
  function SetLoadingState(s: FormState, env: Env, loading: bool): (r: FormState)
    ensures r == s.(loading := r.loading)
    ensures r.loading == (if env.submitButton then loading else s.loading)
  {
    if env.submitButton then s.(loading := loading) else s
  }

  /** `typeof turnstile !== 'undefined' && turnstileWidgetId !== null` */
  predicate CaptchaActive(s: FormState, env: Env) {
    env.turnstileLoaded && s.widgetRendered
  }

  /** `resetForm`: the form is reset, every group loses both classes, and the
      widget is reset when there is one. */
  function ResetForm(s: FormState, env: Env): (r: FormState)
    ensures r.formResets == s.formResets + 1
    ensures r.captchaResets == s.captchaResets + (if CaptchaActive(s, env) then 1 else 0)
    ensures r.groups.Keys == s.groups.Keys
    ensures forall k :: k in r.groups ==> !r.groups[k].error && !r.groups[k].success && r.groups[k].errorText == s.groups[k].errorText
    ensures r == s.(groups := r.groups, formResets := r.formResets, captchaResets := r.captchaResets)
  {
    s.(formResets := s.formResets + 1,
       groups := map k | k in s.groups :: ClearGroup(s.groups[k]),
       captchaResets := if CaptchaActive(s, env) then s.captchaResets + 1 else s.captchaResets)
  }

  /** The `load` listener of `initTurnstile`. */
  function RenderCaptcha(s: FormState, env: Env): (r: FormState)
    ensures r == s.(widgetRendered := r.widgetRendered)
    ensures r.widgetRendered <==> s.widgetRendered || (env.turnstileLoaded && env.widgetContainer)
  {
    if env.turnstileLoaded && env.widgetContainer then s.(widgetRendered := true) else s
  }

  /** The `blur` listener: validate the field and show the outcome. */
  function Blur(s: FormState, fieldName: string, value: string, lang: Lang): (r: FormState)
    ensures r == s.(groups := r.groups) && r.groups.Keys == s.groups.Keys
    ensures fieldName !in WatchedFields || fieldName !in s.groups ==> r == s
  {
    if fieldName in WatchedFields && fieldName in s.groups then
      s.(groups := s.groups[fieldName := UpdateFieldUI(s.groups[fieldName], ValidateField(fieldName, value, lang))])
    else
      s
  }

  /** The `focus` listener: only the `error` class is removed. */
  function Focus(s: FormState, fieldName: string): (r: FormState)
    ensures r == s.(groups := r.groups) && r.groups.Keys == s.groups.Keys
    ensures forall k :: k in s.groups ==>
      r.groups[k] == (if k == fieldName && k in WatchedFields then s.groups[k].(error := false) else s.groups[k])
  {
    if fieldName in WatchedFields && fieldName in s.groups then
      s.(groups := s.groups[fieldName := s.groups[fieldName].(error := false)])
    else
      s
  }

  /** Leaving a watched field marks its group valid or invalid by
      `validateField`, shows the rule's message in the group's message
      element, and touches nothing else; focusing it again removes only the
      `error` class. */
  lemma BlurFeedback(s: FormState, fieldName: string, value: string, lang: Lang)
    requires fieldName in WatchedFields && fieldName in s.groups
    ensures var r, v := Blur(s, fieldName, value, lang), ValidateField(fieldName, value, lang);
      && r == s.(groups := r.groups)
      && r.groups.Keys == s.groups.Keys
      && (forall k :: k in s.groups && k != fieldName ==> r.groups[k] == s.groups[k])
      && r.groups[fieldName].error == !v.valid
      && r.groups[fieldName].success == v.valid
      && (!v.valid && s.groups[fieldName].errorText.Some? ==> r.groups[fieldName].errorText == v.message)
      && (v.valid ==> r.groups[fieldName].errorText == s.groups[fieldName].errorText)
      && Focus(r, fieldName).groups[fieldName] == r.groups[fieldName].(error := false)
  {
    InvalidCarriesMessage(fieldName, value, lang);
  }

  // ---------------------------------------------------------------------
  // The submit flow

  /** The variables of the validation loop: the groups, `isValid` and
      `validatedData`. */
  datatype Checked = Checked(groups: map<string, Group>, allValid: bool, data: map<string, string>)

  /** `validateField` at the language current when the listener runs. */
  function FieldValidator(lang: Lang): (string, string) -> ValidationResult {
    (fieldName, value) => ValidateField(fieldName, value, lang)
  }

  /** One turn of the validation loop. An entry whose field has no element
      is skipped entirely. */
  function CheckEntry(c: Checked, e: Entry, validate: (string, string) -> ValidationResult, sanitize: string -> string): (r: Checked)
    ensures r.groups.Keys == c.groups.Keys
    ensures r.allValid ==> c.allValid
    ensures r.data.Keys <= c.data.Keys + {e.name}
  {
    var v := validate(e.name, e.value);
    if e.name in c.groups then
      Checked(c.groups[e.name := UpdateFieldUI(c.groups[e.name], v)],
              c.allValid && v.valid,
              if v.valid then c.data[e.name := sanitize(e.value)] else c.data)
    else
      c
  }

  /** The validation loop over `entries`, in order; it never adds or removes a group. */
  function CheckEntries(groups: map<string, Group>, entries: seq<Entry>, validate: (string, string) -> ValidationResult,
                        sanitize: string -> string): (c: Checked)
    ensures c.groups.Keys == groups.Keys
    decreases |entries|
  {
    if entries == [] then Checked(groups, true, map[])
    else CheckEntry(CheckEntries(groups, entries[..|entries| - 1], validate, sanitize), entries[|entries| - 1], validate, sanitize)
  }

  function Lookup(data: map<string, string>, key: string): Option<string> {
    if key in data then Some(data[key]) else None
  }

  /** The `templateParams`: the three validated fields, `undefined` where
      the loop stored none, the token and the fixed recipient. */
  function MakePayload(data: map<string, string>, token: string): (p: Payload)
    ensures p.toEmail == Recipient && p.turnstileToken == token
    ensures p.fromName.Some? <==> "user_name" in data
    ensures p.fromEmail.Some? <==> "user_email" in data
    ensures p.message.Some? <==> "message" in data
    ensures p.fromName.Some? ==> p.fromName.value == data["user_name"]
    ensures p.fromEmail.Some? ==> p.fromEmail.value == data["user_email"]
    ensures p.message.Some? ==> p.message.value == data["message"]
  {
    Payload(Lookup(data, "user_name"), Lookup(data, "user_email"), Lookup(data, "message"), token, Recipient)
  }

  /** The `submit` listener, with the language current when it runs, the
      sanitizer, the token the widget returns and the outcome of the send. */
  function Submit(s: FormState, env: Env, entries: seq<Entry>, lang: Lang, sanitize: string -> string,
                  token: string, delivery: Delivery): (r: FormState)
    ensures r.groups.Keys == s.groups.Keys && r.widgetRendered == s.widgetRendered
    ensures |s.outbox| <= |r.outbox| <= |s.outbox| + 1 && r.outbox[..|s.outbox|] == s.outbox
  {
    SubmitWith(s, env, entries, FieldValidator(lang), lang, sanitize, token, delivery)
  }

  /** The submit flow for any field validator. */
  function SubmitWith(s: FormState, env: Env, entries: seq<Entry>, validate: (string, string) -> ValidationResult,
                      lang: Lang, sanitize: string -> string, token: string, delivery: Delivery): (r: FormState)
    ensures r.groups.Keys == s.groups.Keys && r.widgetRendered == s.widgetRendered
    ensures |s.outbox| <= |r.outbox| <= |s.outbox| + 1 && r.outbox[..|s.outbox|] == s.outbox
  {
    AfterValidation(s, env, CheckEntries(s.groups, entries, validate, sanitize), lang, token, delivery)
  }

  /** What the `submit` listener does once its validation loop has produced `c`. */
  function AfterValidation(s: FormState, env: Env, c: Checked, lang: Lang, token: string, delivery: Delivery): (r: FormState)
    ensures r.groups.Keys == c.groups.Keys && r.widgetRendered == s.widgetRendered
    ensures |s.outbox| <= |r.outbox| <= |s.outbox| + 1 && r.outbox[..|s.outbox|] == s.outbox
    ensures !c.allValid ==> r.outbox == s.outbox && r.loading == s.loading && r.formResets == s.formResets
    ensures c.allValid && env.submitButton ==> !r.loading
  {
    var checked := s.(groups := c.groups);
    if !c.allValid then
      ShowStatus(checked, env, Error, FixErrors, lang)
    else
      var busy := SetLoadingState(checked, env, true);
      var captcha := CaptchaActive(s, env);
      var done :=
        if captcha && token == "" then
          ShowStatus(busy, env, Error, SendFailed, lang)
        else if !env.emailjsLoaded then
          ShowStatus(busy, env, Error, SendFailed, lang)
        else
          var sent := busy.(outbox := busy.outbox + [MakePayload(c.data, if captcha then token else "")]);
          if delivery == Delivered then ResetForm(ShowStatus(sent, env, Success, Sent, lang), env)
          else ShowStatus(sent, env, Error, SendFailed, lang);
      SetLoadingState(done, env, false)
  }

  // ---------------------------------------------------------------------
  // Properties of the validation loop, for any validator

  /** Entry `e` validates, or its field has no element. */
  predicate EntryAccepted(groups: map<string, Group>, e: Entry, validate: (string, string) -> ValidationResult) {
    e.name in groups ==> validate(e.name, e.value).valid
  }

  predicate AllAccepted(groups: map<string, Group>, entries: seq<Entry>, validate: (string, string) -> ValidationResult) {
    forall i :: 0 <= i < |entries| ==> EntryAccepted(groups, entries[i], validate)
  }

  /** Entry `i` validates and its field has an element. */
  predicate Validated(groups: map<string, Group>, entries: seq<Entry>, validate: (string, string) -> ValidationResult, i: int) {
    0 <= i < |entries| && entries[i].name in groups && validate(entries[i].name, entries[i].value).valid
  }

  /** Entry `i` is the last one of its field. */
  predicate LastOfField(entries: seq<Entry>, i: int) {
    0 <= i < |entries| && forall j :: i < j < |entries| ==> entries[j].name != entries[i].name
  }

  /** One turn of the loop touches only the group and the data of its own field. */
  lemma CheckEntryEffect(c: Checked, e: Entry, validate: (string, string) -> ValidationResult, sanitize: string -> string)
    ensures var d := CheckEntry(c, e, validate, sanitize);
      var ok := e.name in c.groups && validate(e.name, e.value).valid;
      && d.groups.Keys == c.groups.Keys
      && (forall k :: k in c.groups && k != e.name ==> d.groups[k] == c.groups[k])
      && (e.name in c.groups ==> d.groups[e.name] == UpdateFieldUI(c.groups[e.name], validate(e.name, e.value)))
      && (ok ==> d.data == c.data[e.name := sanitize(e.value)])
      && (!ok ==> d.data == c.data)
      && d.allValid == (c.allValid && (e.name in c.groups ==> validate(e.name, e.value).valid))
  {
  }

  /** `isValid` ends true exactly when every entry whose field has an element validates. */
  lemma {:induction false} CheckEntriesAllValid(groups: map<string, Group>, entries: seq<Entry>,
                                                validate: (string, string) -> ValidationResult, sanitize: string -> string)
    ensures CheckEntries(groups, entries, validate, sanitize).allValid <==> AllAccepted(groups, entries, validate)
    decreases |entries|
  {
    if entries != [] {
      var init := entries[..|entries| - 1];
      CheckEntriesAllValid(groups, init, validate, sanitize);
      assert forall i :: 0 <= i < |init| ==> init[i] == entries[i];
    }
  }

  /** Entry `i` is the last validated entry of field `k`, and `value` is its sanitized value. */
  predicate LastValidated(groups: map<string, Group>, entries: seq<Entry>, validate: (string, string) -> ValidationResult,
                          sanitize: string -> string, k: string, value: string, i: int)
  {
    && Validated(groups, entries, validate, i) && entries[i].name == k && value == sanitize(entries[i].value)
    && forall j :: i < j < |entries| && entries[j].name == k ==> !Validated(groups, entries, validate, j)
  }

  /** `validatedData` maps a field to the sanitized value of the last
      validated entry of that field, and holds no other field. */
  lemma {:induction false} CheckEntriesData(groups: map<string, Group>, entries: seq<Entry>,
                                            validate: (string, string) -> ValidationResult, sanitize: string -> string)
    ensures forall k :: k in CheckEntries(groups, entries, validate, sanitize).data ==>
      exists i :: LastValidated(groups, entries, validate, sanitize, k, CheckEntries(groups, entries, validate, sanitize).data[k], i)
    ensures forall i :: Validated(groups, entries, validate, i) ==> entries[i].name in CheckEntries(groups, entries, validate, sanitize).data
    decreases |entries|
  {
    if entries != [] {
      var n := |entries| - 1;
      var init, e := entries[..n], entries[n];
      CheckEntriesData(groups, init, validate, sanitize);
      var before := CheckEntries(groups, init, validate, sanitize);
      var c := CheckEntries(groups, entries, validate, sanitize);
      assert c == CheckEntry(before, e, validate, sanitize);
      CheckEntryEffect(before, e, validate, sanitize);
      var ok := e.name in before.groups && validate(e.name, e.value).valid;
      assert ok <==> Validated(groups, entries, validate, n);
      assert forall i :: 0 <= i < n ==> init[i] == entries[i];
      assert forall i :: Validated(groups, init, validate, i) <==> i < n && Validated(groups, entries, validate, i);
      forall k | k in c.data
        ensures exists i :: LastValidated(groups, entries, validate, sanitize, k, c.data[k], i)
      {
        if k == e.name && ok {
          assert LastValidated(groups, entries, validate, sanitize, k, c.data[k], n);
        } else {
          assert k in before.data && c.data[k] == before.data[k];
          var i :| LastValidated(groups, init, validate, sanitize, k, before.data[k], i);
          assert LastValidated(groups, entries, validate, sanitize, k, c.data[k], i);
        }
      }
      forall i | Validated(groups, entries, validate, i)
        ensures entries[i].name in c.data
      {
        if i < n {
          assert Validated(groups, init, validate, i);
        }
      }
    }
  }

  /** After the loop, the group of a field with no entry is untouched, and
      the group of every other field shows the outcome of its last entry. */
  lemma {:induction false} CheckEntriesGroups(groups: map<string, Group>, entries: seq<Entry>,
                                              validate: (string, string) -> ValidationResult, sanitize: string -> string)
    ensures var c := CheckEntries(groups, entries, validate, sanitize);
      && (forall k :: k in groups && (forall i :: 0 <= i < |entries| ==> entries[i].name != k) ==> c.groups[k] == groups[k])
      && (forall i :: LastOfField(entries, i) && entries[i].name in groups ==>
            && c.groups[entries[i].name].error == !validate(entries[i].name, entries[i].value).valid
            && c.groups[entries[i].name].success == validate(entries[i].name, entries[i].value).valid)
    decreases |entries|
  {
    if entries != [] {
      var n := |entries| - 1;
      var init, e := entries[..n], entries[n];
      CheckEntriesGroups(groups, init, validate, sanitize);
      var before := CheckEntries(groups, init, validate, sanitize);
      var c := CheckEntries(groups, entries, validate, sanitize);
      assert c == CheckEntry(before, e, validate, sanitize);
      CheckEntryEffect(before, e, validate, sanitize);
      assert forall i :: 0 <= i < n ==> init[i] == entries[i];
      forall k | k in groups && (forall i :: 0 <= i < |entries| ==> entries[i].name != k)
        ensures c.groups[k] == groups[k]
      {
        assert entries[n].name != k;
        assert forall i :: 0 <= i < |init| ==> init[i].name != k;
      }
      forall i | LastOfField(entries, i) && entries[i].name in groups
        ensures c.groups[entries[i].name].error == !validate(entries[i].name, entries[i].value).valid
        ensures c.groups[entries[i].name].success == validate(entries[i].name, entries[i].value).valid
      {
        if i < n {
          assert LastOfField(init, i);
          assert entries[i].name != e.name;
        }
      }
    }
  }

  // ---------------------------------------------------------------------
  // Properties of the submit flow, for any validator

  /** With any entry of a present field invalid, the flow shows the
      aggregate error and stops: nothing is sent, the loading state is
      never set, nothing is reset. */
  lemma SubmitAbortsOnInvalid(s: FormState, env: Env, entries: seq<Entry>, validate: (string, string) -> ValidationResult,
                              lang: Lang, sanitize: string -> string, token: string, delivery: Delivery)
    requires exists i :: 0 <= i < |entries| && !EntryAccepted(s.groups, entries[i], validate)
    ensures var r := SubmitWith(s, env, entries, validate, lang, sanitize, token, delivery);
      && r.outbox == s.outbox
      && r.loading == s.loading
      && r.formResets == s.formResets && r.captchaResets == s.captchaResets
      && r.status == (if env.statusBox then Shown(Error, FixErrors, lang) else s.status)
  {
    CheckEntriesAllValid(s.groups, entries, validate, sanitize);
  }

  /** The mail service is called exactly when every present field is valid,
      the bot check (when active) has a token, and EmailJS is loaded; the
      call is recorded once, addressed to the site owner, with the token. */
  lemma SubmitSendsOnlyWhenReady(s: FormState, env: Env, entries: seq<Entry>, validate: (string, string) -> ValidationResult,
                                 lang: Lang, sanitize: string -> string, token: string, delivery: Delivery)
    ensures var r := SubmitWith(s, env, entries, validate, lang, sanitize, token, delivery);
      && (r.outbox != s.outbox <==>
            AllAccepted(s.groups, entries, validate) && (CaptchaActive(s, env) ==> token != "") && env.emailjsLoaded)
      && (r.outbox == s.outbox || (
            && |r.outbox| == |s.outbox| + 1 && r.outbox[..|s.outbox|] == s.outbox
            && r.outbox[|s.outbox|] == MakePayload(CheckEntries(s.groups, entries, validate, sanitize).data,
                                                   if CaptchaActive(s, env) then token else "")))
  {
    CheckEntriesAllValid(s.groups, entries, validate, sanitize);
    var r := SubmitWith(s, env, entries, validate, lang, sanitize, token, delivery);
    if r.outbox != s.outbox {
      assert r.outbox[..|s.outbox|] == s.outbox;
    }
  }

  /** A field of the payload is the sanitized value of a validated entry of
      that field; it is missing only when no validated entry of that field
      exists. */
  ghost predicate CarriesField(groups: map<string, Group>, entries: seq<Entry>, validate: (string, string) -> ValidationResult,
                         sanitize: string -> string, name: string, field: Option<string>)
  {
    && (field.Some? ==> exists i :: Validated(groups, entries, validate, i) && entries[i].name == name && field.value == sanitize(entries[i].value))
    && (field.None? ==> forall i :: Validated(groups, entries, validate, i) ==> entries[i].name != name)
  }

  /** The payload built from the loop's `validatedData` (the one
      `SubmitSendsOnlyWhenReady` shows is sent) carries only sanitized
      values of validated entries, the recipient and the token. */
  lemma PayloadIsSanitized(groups: map<string, Group>, entries: seq<Entry>, validate: (string, string) -> ValidationResult,
                           sanitize: string -> string, token: string)
    ensures var p := MakePayload(CheckEntries(groups, entries, validate, sanitize).data, token);
      && CarriesField(groups, entries, validate, sanitize, "user_name", p.fromName)
      && CarriesField(groups, entries, validate, sanitize, "user_email", p.fromEmail)
      && CarriesField(groups, entries, validate, sanitize, "message", p.message)
      && p.toEmail == Recipient
      && p.turnstileToken == token
  {
    CheckEntriesData(groups, entries, validate, sanitize);
  }

  /** With every field valid but the bot check active and its token empty,
      nothing is sent and the generic failure is shown. */
  lemma SubmitBlockedWithoutToken(s: FormState, env: Env, entries: seq<Entry>, validate: (string, string) -> ValidationResult,
                                  lang: Lang, sanitize: string -> string, delivery: Delivery)
    requires AllAccepted(s.groups, entries, validate) && CaptchaActive(s, env)
    ensures var r := SubmitWith(s, env, entries, validate, lang, sanitize, "", delivery);
      && r.outbox == s.outbox
      && r.formResets == s.formResets
      && r.status == (if env.statusBox then Shown(Error, SendFailed, lang) else s.status)
  {
    CheckEntriesAllValid(s.groups, entries, validate, sanitize);
  }

  /** Whatever the outcome, a submission that got past validation leaves the
      button out of its loading state; one that did not never touched it. */
  lemma SubmitClearsLoading(s: FormState, env: Env, entries: seq<Entry>, validate: (string, string) -> ValidationResult,
                            lang: Lang, sanitize: string -> string, token: string, delivery: Delivery)
    ensures var r := SubmitWith(s, env, entries, validate, lang, sanitize, token, delivery);
      && (AllAccepted(s.groups, entries, validate) && env.submitButton ==> !r.loading)
      && (!AllAccepted(s.groups, entries, validate) ==> r.loading == s.loading)
      && (env.submitButton && !s.loading ==> !r.loading)
  {
    CheckEntriesAllValid(s.groups, entries, validate, sanitize);
  }

  /** A delivered message shows the success banner, resets the form once,
      resets the widget when there is one, and leaves every group without
      its `error` and `success` classes. */
  lemma SubmitSuccessResets(s: FormState, env: Env, entries: seq<Entry>, validate: (string, string) -> ValidationResult,
                            lang: Lang, sanitize: string -> string, token: string)
    requires AllAccepted(s.groups, entries, validate) && (CaptchaActive(s, env) ==> token != "") && env.emailjsLoaded
    ensures var r := SubmitWith(s, env, entries, validate, lang, sanitize, token, Delivered);
      && r.status == (if env.statusBox then Shown(Success, Sent, lang) else s.status)
      && r.formResets == s.formResets + 1
      && r.captchaResets == (if CaptchaActive(s, env) then s.captchaResets + 1 else s.captchaResets)
      && r.groups.Keys == s.groups.Keys
      && forall k :: k in r.groups ==> !r.groups[k].error && !r.groups[k].success
  {
    CheckEntriesAllValid(s.groups, entries, validate, sanitize);
  }

  /** A failed delivery shows the generic failure and keeps the field
      feedback of the validation loop; nothing is reset. */
  lemma SubmitFailureKeepsForm(s: FormState, env: Env, entries: seq<Entry>, validate: (string, string) -> ValidationResult,
                               lang: Lang, sanitize: string -> string, token: string)
    requires AllAccepted(s.groups, entries, validate)
    ensures var r := SubmitWith(s, env, entries, validate, lang, sanitize, token, Failed);
      && r.status == (if env.statusBox then Shown(Error, SendFailed, lang) else s.status)
      && r.formResets == s.formResets && r.captchaResets == s.captchaResets
      && r.groups == CheckEntries(s.groups, entries, validate, sanitize).groups
  {
    CheckEntriesAllValid(s.groups, entries, validate, sanitize);
  }

  /** With the site's own validator: a message is sent only when every
      submitted entry whose field has an element passes `validateField` in
      the current language, and, with the bot check active, only with a
      token. */
  lemma SubmitSendsOnlyValidFields(s: FormState, env: Env, entries: seq<Entry>, lang: Lang, sanitize: string -> string,
                                   token: string, delivery: Delivery)
    requires Submit(s, env, entries, lang, sanitize, token, delivery).outbox != s.outbox
    ensures forall i :: 0 <= i < |entries| && entries[i].name in s.groups ==> ValidateField(entries[i].name, entries[i].value, lang).valid
    ensures CaptchaActive(s, env) ==> token != ""
    ensures env.emailjsLoaded
  {
    SubmitSendsOnlyWhenReady(s, env, entries, FieldValidator(lang), lang, sanitize, token, delivery);
    assert AllAccepted(s.groups, entries, FieldValidator(lang));
  }

  // ---------------------------------------------------------------------
  // The controller

  /** The module-level state of `contact-form.js` with the parts of the
      document it changes. `language` is the language module whose flag
      `getCurrentLang` reads; `sanitize` is `sanitizeInput`. */
  class ContactFormController {
    const env: Env
    const sanitize: string -> string
    const language: LanguageSwitcher
    var groups: map<string, Group>
    var status: Status
    var loading: bool
    var widgetRendered: bool
    var outbox: seq<Payload>
    var formResets: nat
    var captchaResets: nat

    function State(): FormState
      reads this
    {
      FormState(groups, status, loading, widgetRendered, outbox, formResets, captchaResets)
    }

    constructor (env: Env, sanitize: string -> string, language: LanguageSwitcher, groups: map<string, Group>)
      ensures this.env == env && this.sanitize == sanitize && this.language == language
      ensures State() == FormState(groups, Hidden, false, false, [], 0, 0)
    {
      this.env := env;
      this.sanitize := sanitize;
      this.language := language;
      this.groups := groups;
      this.status := Hidden;
      this.loading := false;
      this.widgetRendered := false;
      this.outbox := [];
      this.formResets := 0;
      this.captchaResets := 0;
    }

    /** The `load` listener registered by `initTurnstile`. */
    method OnLoad()
      modifies this
      ensures State() == RenderCaptcha(old(State()), env)
    {
      if env.turnstileLoaded && env.widgetContainer {
        widgetRendered := true;
      }
    }

    method OnBlur(fieldName: string, value: string)
      modifies this
      ensures State() == Blur(old(State()), fieldName, value, language.currentLang)
    {
      if fieldName in WatchedFields && fieldName in groups {
        var validation := ValidateField(fieldName, value, language.currentLang);
        UpdateFieldGroup(fieldName, validation);
      }
    }

    method OnFocus(fieldName: string)
      modifies this
      ensures State() == Focus(old(State()), fieldName)
    {
      if fieldName in WatchedFields && fieldName in groups {
        groups := groups[fieldName := groups[fieldName].(error := false)];
      }
    }

    method UpdateFieldGroup(fieldName: string, validation: ValidationResult)
      requires fieldName in groups
      modifies this
      ensures State() == old(State()).(groups := old(groups)[fieldName := UpdateFieldUI(old(groups)[fieldName], validation)])
    {
      var group := groups[fieldName];
      if validation.valid {
        group := group.(error := false, success := true);
      } else {
        group := group.(error := true, success := false);
        if group.errorText.Some? {
          group := group.(errorText := Some(validation.message.GetOr("")));
        }
      }
      groups := groups[fieldName := group];
    }

    method ShowStatusBanner(kind: StatusKind, notice: Notice, lang: Lang)
      modifies this
      ensures State() == ShowStatus(old(State()), env, kind, notice, lang)
    {
      if env.statusBox {
        status := Shown(kind, notice, lang);
      }
    }

    method SetLoading(isLoading: bool)
      modifies this
      ensures State() == SetLoadingState(old(State()), env, isLoading)
    {
      if env.submitButton {
        loading := isLoading;
      }
    }

    /** `resetForm`: the `forEach` over the form groups. */
    method Reset()
      modifies this
      ensures State() == ResetForm(old(State()), env)
    {
      formResets := formResets + 1;
      var pending := groups.Keys;
      while pending != {}
        invariant pending <= groups.Keys == old(groups).Keys
        invariant forall k :: k in groups ==> groups[k] == if k in pending then old(groups)[k] else ClearGroup(old(groups)[k])
        invariant State() == old(State()).(formResets := old(formResets) + 1, groups := groups)
        decreases pending
      {
        var k :| k in pending;
        groups := groups[k := groups[k].(error := false, success := false)];
        pending := pending - {k};
      }
      if env.turnstileLoaded && widgetRendered {
        captchaResets := captchaResets + 1;
      }
    }

    /** The `for … of formData.entries()` loop of the `submit` listener:
        every entry of a field with a group updates that group, and
        `isValid` and `validatedData` are accumulated. */
    method ValidateEntries(entries: seq<Entry>, lang: Lang) returns (isValid: bool, validatedData: map<string, string>)
      modifies this
      ensures Checked(groups, isValid, validatedData) == CheckEntries(old(groups), entries, FieldValidator(lang), sanitize)
      ensures State() == old(State()).(groups := groups)
    {
      isValid := true;
      validatedData := map[];
      var i := 0;
      while i < |entries|
        invariant 0 <= i <= |entries|
        invariant CheckEntries(old(groups), entries[..i], FieldValidator(lang), sanitize) == Checked(groups, isValid, validatedData)
        invariant State() == old(State()).(groups := groups)
      {
        var entry := entries[i];
        var validation := ValidateField(entry.name, entry.value, lang);
        if entry.name in groups {
          UpdateFieldGroup(entry.name, validation);
          if !validation.valid {
            isValid := false;
          } else {
            validatedData := validatedData[entry.name := sanitize(entry.value)];
          }
        }
        assert entries[..i + 1][..i] == entries[..i];
        i := i + 1;
      }
      assert entries[..i] == entries;
    }

    /** The `submit` listener of `initFormSubmission`. */
    method OnSubmit(entries: seq<Entry>, token: string, delivery: Delivery)
      modifies this
      ensures State() == Submit(old(State()), env, entries, language.currentLang, sanitize, token, delivery)
    {
      var lang := language.currentLang;
      var isValid, validatedData := ValidateEntries(entries, lang);

      if !isValid {
        ShowStatusBanner(Error, FixErrors, lang);
        return;
      }

      SetLoading(true);

      // try
      var failed := false;
      var turnstileToken := "";
      if env.turnstileLoaded && widgetRendered {
        turnstileToken := token;
        if turnstileToken == "" {
          failed := true;
        }
      }
      if !failed {
        var templateParams := MakePayload(validatedData, turnstileToken);
        if env.emailjsLoaded {
          outbox := outbox + [templateParams];
          if delivery == Delivered {
            ShowStatusBanner(Success, Sent, lang);
            Reset();
          } else {
            failed := true;
          }
        } else {
          failed := true;
        }
      }
      // catch
      if failed {
        ShowStatusBanner(Error, SendFailed, lang);
      }
      // finally
      SetLoading(false);
    }
  }
}
