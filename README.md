# Portfolio site: contact form and language switcher

This project models the two pieces of the portfolio site's browser code that
carry logic: the contact form (`js/modules/contact-form.js`) and the
Spanish/English language switcher (`js/modules/language.js`). It proves
properties of both models in Dafny.

- `wrappers.dfy` (`Wrappers`): an `Option` type. `None` stands for an absent
  DOM element or attribute, and for a missing entry in a JavaScript object.
- `jsstring.dfy` (`JsString`): the string primitives the validator relies on.
  - `String.prototype.trim`, over the ECMAScript white-space and
    line-terminator characters. The same set is the regular-expression class `\s`.
  - `length` in UTF-16 code units.
  - Character counting, for the email pattern.
- `language.dfy` (`Language`):
  - the current-language flag;
  - the page as a sequence of element records, each with its `data-es`/`data-en`
    texts, its `data-es-placeholder`/`data-en-placeholder` texts, its content
    and its placeholder;
  - `toggleLanguage`, `getCurrentLang`, `setLanguage` and `init`. These are a
    specification over a `Page` value, and the class `LanguageSwitcher`,
    whose methods update the state in place with the loops of the source.
- `validation.dfy` (`Validation`):
  - the `validationRules` table;
  - the two regular expressions, written out as predicates;
  - `validateField`, with its checks applied in the order required, minimum
    length, maximum length, pattern, the first failing check choosing the
    message in the current language.
- `contact_form.dfy` (`ContactForm`):
  - the effects of `updateFieldUI`, `showStatus`, `resetForm` and
    `setLoadingState` on a `FormState` value;
  - the blur and focus listeners;
  - the Turnstile `load` listener;
  - the `submit` listener. Its validation loop is a fold, `CheckEntries`, and
    the rest is a decision flow, `AfterValidation`.
  - The class `ContactFormController` performs the same steps imperatively.
    Each of its methods is proved to produce the state the specification
    function gives.

Inputs the code receives from the outside are parameters:
- the entries of `FormData`;
- the Turnstile token;
- whether `emailjs.send` resolved (`Delivered`) or was rejected or threw (`Failed`);
- which optional page elements and third-party scripts exist (`Env`);
- the `sanitizeInput` function.

## Model

| member | source | states |
|---|---|---|
| JsString.Trim | js/modules/contact-form.js:98 | `value.trim()` is a contiguous slice of the value, obtained by removing only white space from each end, and it neither starts nor ends with white space |
| JsString.TrimEmptyIff | js/modules/contact-form.js:98 | `!value.trim()` holds exactly when every character of the value is white space |
| JsString.TrimIdempotent | js/modules/contact-form.js:106-122 | each check trims the value again, and trimming a trimmed value changes nothing |
| JsString.TrimOfSolid | js/modules/contact-form.js:98 | a non-empty value that neither starts nor ends with white space is its own trim |
| JsString.Utf16Length | js/modules/contact-form.js:106 | `length` counts UTF-16 code units: at least the number of characters and at most twice it |
| JsString.Utf16LengthOfBasicPlane | js/modules/contact-form.js:114 | for text in the Basic Multilingual Plane, `length` is the number of characters |
| Validation.RuleLookups | js/modules/contact-form.js:31-83 | the rule table has exactly the keys `user_name`, `user_email` and `message`, each bound to its rule (bounds 2/100, none, 10/1000) |
| Validation.ApplyRule | js/modules/contact-form.js:129 | a valid result carries no message |
| Validation.ApplyRuleSpec | js/modules/contact-form.js:97-129 | a rule accepts the trimmed value exactly when none of its checks rejects it, and a rejection carries the message of the first rejecting check in the order required, minLength, maxLength, pattern |
| Validation.ValidateField | js/modules/contact-form.js:91-95 | a field name with no rule is valid with no message, and no valid result carries a message |
| Validation.ValidateFieldSpec | js/modules/contact-form.js:91-130 | a field with a rule is valid exactly when no check rejects the trimmed value; an invalid result comes from a field with a rule and carries the current language's message for the first failing check |
| Validation.FirstFailureUnique | js/modules/contact-form.js:97-127 | at most one check is the first to fail, so the message of an invalid result is determined |
| Validation.RequiredTakesPrecedence | js/modules/contact-form.js:98-103 | a value made only of white space, for a required field, is rejected with that field's `required` message whatever the other checks would say |
| Validation.UserNameRule | js/modules/contact-form.js:32-50 | on a trimmed value, the `user_name` rule accepts exactly a length from 2 to 100 inclusive that matches the name pattern, and each failure gives its exact Spanish or English message |
| Validation.UserEmailRule | js/modules/contact-form.js:52-65 | on a trimmed value, the `user_email` rule has no length checks: it accepts exactly what the email pattern matches, with the exact required and pattern messages |
| Validation.MessageRule | js/modules/contact-form.js:66-82 | on a trimmed value, the `message` rule accepts exactly a length from 10 to 1000 inclusive, with the exact required, minimum and maximum messages |
| Validation.UserNameValidation | js/modules/contact-form.js:32-50 | `validateField('user_name', v)` is valid exactly when `v.trim()` has 2 to 100 code units and matches the pattern, and gives the message of the first failing check |
| Validation.UserEmailValidation | js/modules/contact-form.js:52-65 | `validateField('user_email', v)` is valid exactly when `v.trim()` matches the email pattern, and gives the required or pattern message otherwise |
| Validation.MessageValidation | js/modules/contact-form.js:66-82 | `validateField('message', v)` is valid exactly when `v.trim()` has 10 to 1000 code units, and gives the required, minimum or maximum message otherwise |
| Validation.InvalidCarriesMessage | js/modules/contact-form.js:37-81 | the table defines a message for every check that a rule can fail, in both languages, so every invalid result carries a message |
| Validation.NamePatternChars | js/modules/contact-form.js:36 | a value the name pattern matches is non-empty and holds no digit, `@`, `.` or `<`: only the class's letters and white space |
| Validation.EmailSplitShape | js/modules/contact-form.js:54 | a value the email pattern matches, with its `@` and `.` at the matched positions, has exactly one `@` and no white space |
| Validation.ShapeEmailSplit | js/modules/contact-form.js:54 | conversely, a value with one `@`, no white space and a `.` after the `@` with text on both sides is matched at those positions |
| Validation.EmailPatternIff | js/modules/contact-form.js:54 | the email pattern accepts exactly the strings with one `@` that is not first, no white space, and a `.` after the `@` with text on both sides |
| Validation.LettersOnly | js/modules/contact-form.js:36 | a string of ASCII letters keeps one code unit per letter after trimming, and its trimmed form matches the name pattern exactly when it is non-empty |
| Validation.LetterName | js/modules/contact-form.js:32-50 | a name made of ASCII letters is valid exactly when it has 2 to 100 letters, both bounds inclusive |
| Validation.AsciiMessage | js/modules/contact-form.js:66-82 | a message of visible ASCII characters is valid exactly when it has 10 to 1000 characters; one of 1001 or more gets the maximum-length message, and a shorter one the minimum-length message |
| Validation.PlainAddressMatches | js/modules/contact-form.js:54 | the trimmed `a@b.com` matches the email pattern |
| Validation.EmailExample | js/modules/contact-form.js:52-65 | `a@b.com` is a valid email address in either language |
| ContactForm.NoticeText | js/modules/contact-form.js:290-351 | each of the three banner messages has a non-empty text in each language, the exact strings of the listener |
| ContactForm.UpdateFieldUI | js/modules/contact-form.js:137-151 | the group gets `error` exactly when the result is invalid and `success` exactly when it is valid; a valid result leaves the message text alone; an invalid one writes its message into the message element when the group has one, and a group without one gains none |
| ContactForm.ClearGroup | js/modules/contact-form.js:182-184 | a group loses both `error` and `success` and keeps its message text |
| ContactForm.ShowStatus | js/modules/contact-form.js:158-171 | only the banner changes: when the page has one, it shows the given kind and message; otherwise nothing changes |
| ContactForm.SetLoadingState | js/modules/contact-form.js:196-202 | only the loading state changes, to the argument when the page has a submit button; otherwise nothing changes |
| ContactForm.ResetForm | js/modules/contact-form.js:176-190 | the form is reset once; every group keeps its place and message text and loses both classes; the widget is reset exactly when Turnstile is loaded and a widget was rendered; nothing else changes |
| ContactForm.RenderCaptcha | js/modules/contact-form.js:221-236 | only the widget flag changes, and it ends set exactly when it was set already or the Turnstile script and its container exist |
| ContactForm.Blur | js/modules/contact-form.js:241-250 | only the groups change, none is added or removed, and a field without a listener or without a group changes nothing |
| ContactForm.Focus | js/modules/contact-form.js:252-255 | a watched field with a group loses only its `error` class, and every other group is untouched |
| ContactForm.BlurFeedback | js/modules/contact-form.js:241-258 | leaving a watched field marks its group `error` or `success` according to `validateField` and writes the rule's message into the group's message element; no other group or state changes; a later focus removes only `error` |
| ContactForm.CheckEntries | js/modules/contact-form.js:275-287 | the validation loop neither adds nor removes a form group |
| ContactForm.CheckEntry | js/modules/contact-form.js:276-286 | one turn of the loop keeps the set of groups, never sets `isValid` back to true, and stores data only under its own field name |
| ContactForm.CheckEntriesAllValid | js/modules/contact-form.js:275-287 | `isValid` ends true exactly when every entry whose field has an element validates |
| ContactForm.CheckEntriesData | js/modules/contact-form.js:275-287 | `validatedData` holds exactly the fields that have a validated entry, each mapped to the sanitized value of the last such entry |
| ContactForm.CheckEntriesGroups | js/modules/contact-form.js:275-287 | a group whose field has no entry is untouched, and every other group shows the outcome of its field's last entry |
| ContactForm.SubmitAbortsOnInvalid | js/modules/contact-form.js:289-296 | if any entry of a present field is invalid, the aggregate error is shown, nothing is sent, the loading state is never set and nothing is reset |
| ContactForm.SubmitSendsOnlyWhenReady | js/modules/contact-form.js:298-339 | the mail service is called, exactly once and with the payload built from `validatedData`, exactly when every present field is valid, the active Turnstile widget gave a token, and EmailJS is loaded |
| ContactForm.MakePayload | js/modules/contact-form.js:313-319 | each of the three payload fields is present exactly when the loop stored its field, and then holds the stored value; the token is passed through and the recipient is the site owner |
| ContactForm.AfterValidation | js/modules/contact-form.js:289-357 | after the loop, no group is added or removed and the widget is untouched; at most one message is sent and earlier sends are kept; an invalid form sends nothing, leaves the loading state and resets nothing; a valid one always ends with the loading state cleared when there is a button |
| ContactForm.SubmitWith | js/modules/contact-form.js:267-357 | for any field validator, a submission keeps the set of groups and the widget, and sends at most one message while keeping earlier sends |
| ContactForm.Submit | js/modules/contact-form.js:267-357 | the same for the site's own `validateField` at the current language |
| ContactForm.PayloadIsSanitized | js/modules/contact-form.js:313-319 | each payload field is the sanitized value of a validated entry of that field, or absent when there is none; the recipient is the site owner and the token is passed through |
| ContactForm.SubmitBlockedWithoutToken | js/modules/contact-form.js:303-310 | with the widget active and an empty token, nothing is sent, nothing is reset and the generic failure is shown |
| ContactForm.SubmitClearsLoading | js/modules/contact-form.js:353-356 | a submission that passed validation always ends out of the loading state, and one that did not never touches it |
| ContactForm.SubmitSuccessResets | js/modules/contact-form.js:332-339 | a delivered message shows the success banner, resets the form once, resets an active widget, and leaves every group without `error` and `success` |
| ContactForm.SubmitFailureKeepsForm | js/modules/contact-form.js:344-352 | a failed delivery shows the generic failure, resets nothing and keeps the field feedback of the validation loop |
| ContactForm.SubmitSendsOnlyValidFields | js/modules/contact-form.js:267-357 | with the site's own validator, a message is sent only if every entry of a present field passes `validateField` in the current language, the active widget gave a token, and EmailJS is loaded |
| ContactForm.ContactFormController.constructor | js/modules/contact-form.js:28 | the controller starts with no widget rendered, no status shown, no loading state and nothing sent |
| ContactForm.ContactFormController.OnLoad | js/modules/contact-form.js:221-236 | the widget is rendered exactly when the Turnstile script and its container exist |
| ContactForm.ContactFormController.OnBlur | js/modules/contact-form.js:246-249 | the new state is the blur step of the specification, for the switcher's current language |
| ContactForm.ContactFormController.OnFocus | js/modules/contact-form.js:252-255 | the new state is the focus step: only the field's `error` class is removed |
| ContactForm.ContactFormController.UpdateFieldGroup | js/modules/contact-form.js:137-151 | only the field's group changes, as `updateFieldUI` prescribes |
| ContactForm.ContactFormController.ShowStatusBanner | js/modules/contact-form.js:158-171 | the banner shows the message when the page has one, and nothing else changes |
| ContactForm.ContactFormController.SetLoading | js/modules/contact-form.js:196-202 | the loading state follows the argument when the page has a submit button, and nothing else changes |
| ContactForm.ContactFormController.Reset | js/modules/contact-form.js:176-190 | one form reset; every group loses both classes; the widget is reset only when active |
| ContactForm.ContactFormController.ValidateEntries | js/modules/contact-form.js:275-287 | the loop's groups, `isValid` and `validatedData` are those of the `CheckEntries` fold, and nothing else changes |
| ContactForm.ContactFormController.OnSubmit | js/modules/contact-form.js:267-357 | the new state is the submit flow of the specification, for the switcher's current language, the given token and the given delivery outcome |
| Language.Flip | js/modules/language.js:18 | toggling always changes the language |
| Language.FlipInvolution | js/modules/language.js:18 | `es` becomes `en`, `en` becomes `es`, and two flips restore the language |
| Language.Parse | js/modules/language.js:56 | exactly the codes `es` and `en` are accepted, each as its own language |
| Language.RelabelAll | js/modules/language.js:25-40 | the rewrite keeps every element, in order |
| Language.LabelFor | js/modules/language.js:21 | the button reads `EN` exactly when a click switches to English and `ES` exactly when it switches to Spanish |
| Language.Render | js/modules/language.js:18-40 | the flag becomes the given language, the label is rewritten for it exactly when the page has one, and no element is added or removed |
| Language.Toggle | js/modules/language.js:17-41 | the flag always changes, `es` becoming `en` and `en` becoming `es`; the label exists afterwards exactly when it existed before; no element is added or removed |
| Language.RelabelAllAt | js/modules/language.js:25-40 | each element is rewritten on its own, in place |
| Language.ShowText | js/modules/language.js:25-32 | only the content of an element with both text attributes changes, to the text of the language as markup for `UL` and as text otherwise; any other element is untouched |
| Language.ShowPlaceholder | js/modules/language.js:35-40 | only the placeholder changes, and only to the language's non-empty placeholder variant of an element that has both; an empty variant leaves it as it was |
| Language.Relabel | js/modules/language.js:25-40 | an element's content becomes the new language's text when it has both text attributes; its placeholder changes only to a non-empty new-language placeholder; nothing else changes |
| Language.ToggleEffect | js/modules/language.js:17-41 | the flag flips; the label reads `EN` in Spanish and `ES` in English; every element with both texts shows the new language's text, as markup for `UL` and as text otherwise; a placeholder is overwritten only by a non-empty one; nothing else changes |
| Language.RelabelTwiceIff | js/modules/language.js:25-40 | rewriting an element for the other language and back restores it exactly when it was already shown consistently with the language |
| Language.ToggleTwiceIff | js/modules/language.js:17-41 | two toggles restore the flag and leave every element with both texts showing the original language's text; they restore the whole page exactly when it was displayed consistently with its flag |
| Language.ToggleKeepsSynced | js/modules/language.js:17-41 | a page displayed consistently with its flag stays so after a toggle |
| Language.SetLanguageAsWritten | js/modules/language.js:55-60 | an unknown code changes nothing; a valid code leaves the flag on the other language and the page rendered for that other language, the assigned code being discarded |
| Language.SetLanguageEnSelectsSpanish | js/modules/language.js:55-59 | as written, `setLanguage('en')` leaves Spanish selected and `setLanguage('es')` leaves English selected |
| Language.SetLanguageIntended | js/modules/language.js:51-54 | the corrected `setLanguage`: an unknown code changes nothing; a valid code selects that language, whose code is the one given, and keeps every element |
| Language.SetLanguageIntendedEffect | js/modules/language.js:51-54 | the corrected `setLanguage` selects the requested language and shows every tagged element in it; an unknown code changes nothing |
| Language.LanguageSwitcher.constructor | js/modules/language.js:12 | the module starts in Spanish |
| Language.LanguageSwitcher.Init | js/modules/language.js:65-69 | `init` sets the flag to Spanish and changes nothing else |
| Language.LanguageSwitcher.GetCurrentLang | js/modules/language.js:47-49 | returns the flag's code, always `es` or `en`, without changing state |
| Language.LanguageSwitcher.ToggleLanguage | js/modules/language.js:17-41 | the two `forEach` loops and the label update produce exactly the toggled page of the specification |
| Language.LanguageSwitcher.SetLanguage | js/modules/language.js:55-60 | the new state is `setLanguage` as written: assignment then toggle |

## Left out

- `sanitizeInput` (in `js/modules/utils.js`) depends on how the browser serialises the DOM. It is an arbitrary function given to the controller, and every property holds for any such function.
- The Turnstile and EmailJS SDKs are not modelled. The token `turnstile.getResponse` returns is an input, and a falsy token (`''`, `null` or `undefined`) is the empty string. The outcome of `emailjs.send` is an input. The EmailJS service and template identifiers and `initEmailJS` are not modelled.
- Console logging is not modelled.
- The `showStatus` auto-hide timers and its icon markup are not modelled. The banner records its kind and which of the three messages it shows, in which language; `NoticeText` gives the exact text.
- ContactForm.ContactFormController.OnSubmit: the `await` on `emailjs.send` is treated as atomic. The success and failure messages use the language read when the listener started, although the source reads `getCurrentLang()` again after the `await`, when a toggle may have happened in between.
- `contactForm.reset()` is counted in `formResets`, but the field values it clears are not modelled, because no later step reads them. `resetForm` looks the form up again and skips the reset when it is missing; the model always counts it, because the only caller is the listener attached to that form.
- Every field element is assumed to have a `.form-group` ancestor, because the source would throw on `formGroup.querySelector` without one. Fields and their groups are keyed by the element id, which the page's form uses as the field name too.
- `FormData` entries are modelled as text: the form has no file inputs.
- The page's elements are values in a sequence, not shared DOM nodes, so element identity and aliasing are not modelled. The elements do not change except through the switcher.
- `initFormValidation`, `initFormSubmission` and `initTurnstile` only register listeners. The listeners themselves are modelled: `OnBlur`, `OnFocus`, `OnSubmit` and `OnLoad`.
- `js/modules/animations.js`, `js/modules/navigation.js`, the timers `debounce`/`throttle` of `js/modules/utils.js`, and `js/main.js` are not part of this model. They are animation, scrolling, timing and start-up wiring.

## Findings

| source | as written | input that shows it | evidently intended | confidence | as-written member | corrected member |
|---|---|---|---|---|---|---|
| js/modules/language.js:55-60 | `setLanguage` assigns the requested code and then calls `toggleLanguage()`, which flips it | `setLanguage('en')` from any state leaves `currentLang` at `'es'` and the page rendered in Spanish | the page ends up in the requested language, as the doc comment at lines 51-54 says | not executed | Language.SetLanguageEnSelectsSpanish | Language.SetLanguageIntendedEffect |

`Language.LanguageSwitcher.SetLanguage` follows the code as written. No other part of the model calls `setLanguage`, and neither does the site: `js/main.js:39` exposes only `toggleLanguage` to the page, so the defect stays latent in the shipped site. The corrected behaviour is `Language.SetLanguageIntended`, which renders the page directly in the requested language.
