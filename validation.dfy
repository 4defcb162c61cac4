/** Field validation of the contact form: a constant rule table and a
    validator that applies the checks of a field's rule in a fixed order,
    the first failing check choosing the message in the current language. */
module Validation {
  import opened Wrappers
  import opened JsString
  import opened Language

  /** The checks a rule may carry, in the order they are applied. */
  datatype Check = Required | MinLength | MaxLength | Pattern

  function Rank(c: Check): nat {
    match c
    case Required => 0
    case MinLength => 1
    case MaxLength => 2
    case Pattern => 3
  }

  /** The two regular expressions of the table. */
  datatype PatternKind = NamePattern | EmailPattern

  /** The messages of one language, `errorMessages[lang]`; an entry the
      table does not define is `None`. */
  datatype Messages = Messages(
    required: Option<string>,
    minLength: Option<string>,
    maxLength: Option<string>,
    pattern: Option<string>)

  /** One entry of the rule table. A length bound of 0 stands for an absent
      bound: the validator tests the bound for truthiness before comparing. */
  datatype Rule = Rule(
    required: bool,
    minLength: nat,
    maxLength: nat,
    pattern: Option<PatternKind>,
    es: Messages,
    en: Messages)

  const UserName := Rule(true, 2, 100, Some(NamePattern),
    Messages(
      Some("Por favor ingresa tu nombre"),
      Some("El nombre debe tener al menos 2 caracteres"),
      Some("El nombre no puede exceder 100 caracteres"),
      Some("El nombre solo puede contener letras y espacios")),
    Messages(
      Some("Please enter your name"),
      Some("Name must be at least 2 characters"),
      Some("Name cannot exceed 100 characters"),
      Some("Name can only contain letters and spaces")))

  const UserEmail := Rule(true, 0, 0, Some(EmailPattern),
    Messages(
      Some("Por favor ingresa tu correo electrónico"), None, None,
      Some("Por favor ingresa un correo electrónico válido")),
    Messages(
      Some("Please enter your email address"), None, None,
      Some("Please enter a valid email address")))

  const MessageText := Rule(true, 10, 1000, None,
    Messages(
      Some("Por favor escribe un mensaje"),
      Some("El mensaje debe tener al menos 10 caracteres"),
      Some("El mensaje no puede exceder 1000 caracteres"),
      None),
    Messages(
      Some("Please write a message"),
      Some("Message must be at least 10 characters"),
      Some("Message cannot exceed 1000 characters"),
      None))

  /** `validationRules`, keyed by the form field's name. */
  const ValidationRules: map<string, Rule> :=
    map["user_name" := UserName, "user_email" := UserEmail, "message" := MessageText]

  // ---------------------------------------------------------------------
  // The two patterns, written out as predicates on the trimmed value

  /** A character of the class `[a-zA-ZáéíóúÁÉÍÓÚñÑ\s]`. */
  predicate IsNameChar(c: char) {
    ('a' <= c <= 'z') || ('A' <= c <= 'Z') || c in "áéíóúÁÉÍÓÚñÑ" || IsWhitespace(c)
  }

  /** `/^[a-zA-ZáéíóúÁÉÍÓÚñÑ\s]+$/` */
  predicate MatchesName(s: string) {
    |s| > 0 && forall i :: 0 <= i < |s| ==> IsNameChar(s[i])
  }

  /** Every character is in `[^\s@]`. */
  predicate NoSpaceOrAt(s: string) {
    forall i :: 0 <= i < |s| ==> !IsWhitespace(s[i]) && s[i] != '@'
  }

  /** `/^[^\s@]+@[^\s@]+\.[^\s@]+$/` matches `s` with its `@` at index `at`
      and its literal `.` at index `dot`. */
  predicate EmailSplit(s: string, at: int, dot: int) {
    && 0 < at && at + 1 < dot && dot + 1 < |s|
    && s[at] == '@' && s[dot] == '.'
    && NoSpaceOrAt(s[..at]) && NoSpaceOrAt(s[at + 1..dot]) && NoSpaceOrAt(s[dot + 1..])
  }

  /** `/^[^\s@]+@[^\s@]+\.[^\s@]+$/` */
  predicate MatchesEmail(s: string) {
    exists at, dot | 0 <= at < |s| && 0 <= dot < |s| :: EmailSplit(s, at, dot)
  }

  function Matches(p: PatternKind, s: string): bool {
    match p
    case NamePattern => MatchesName(s)
    case EmailPattern => MatchesEmail(s)
  }

  // ---------------------------------------------------------------------
  // The validator

  /** `{valid, message}`; `message` is `None` where the result has none. */
  datatype ValidationResult = ValidationResult(valid: bool, message: Option<string>)

  /** `rules.errorMessages[lang][check]`, `None` when the table has no entry. */
  function ErrorMessage(rule: Rule, lang: Lang, check: Check): Option<string> {
    var m := if lang == Es then rule.es else rule.en;
    match check
    case Required => m.required
    case MinLength => m.minLength
    case MaxLength => m.maxLength
    case Pattern => m.pattern
  }

  /** Check `c` of `rule` rejects the trimmed value `t`. */
  predicate Fails(rule: Rule, c: Check, t: string) {
    match c
    case Required => rule.required && t == []
    case MinLength => rule.minLength != 0 && Utf16Length(t) < rule.minLength
    case MaxLength => rule.maxLength != 0 && Utf16Length(t) > rule.maxLength
    case Pattern => rule.pattern.Some? && !Matches(rule.pattern.value, t)
  }

  /** `c` rejects `t` and no check applied before it does. */
  predicate FirstFailure(rule: Rule, c: Check, t: string) {
    Fails(rule, c, t) && forall d :: Rank(d) < Rank(c) ==> !Fails(rule, d, t)
  }

  function Reject(rule: Rule, lang: Lang, c: Check): ValidationResult {
    ValidationResult(false, ErrorMessage(rule, lang, c))
  }

  lemma PassesEveryCheck(rule: Rule, t: string)
    requires !Fails(rule, Required, t) && !Fails(rule, MinLength, t)
    requires !Fails(rule, MaxLength, t) && !Fails(rule, Pattern, t)
    ensures forall c :: !Fails(rule, c, t)
  {
    forall c ensures !Fails(rule, c, t) {
      match c
      case Required =>
      case MinLength =>
      case MaxLength =>
      case Pattern =>
    }
  }

  /** The checks of `rule` applied to the trimmed value `t` in order, the
      first failure deciding the result. */
  function ApplyRule(rule: Rule, t: string, lang: Lang): (r: ValidationResult)
    ensures r.valid ==> r.message == None
  {
    if rule.required && t == [] then Reject(rule, lang, Required)
    else if rule.minLength != 0 && Utf16Length(t) < rule.minLength then Reject(rule, lang, MinLength)
    else if rule.maxLength != 0 && Utf16Length(t) > rule.maxLength then Reject(rule, lang, MaxLength)
    else if rule.pattern.Some? && !Matches(rule.pattern.value, t) then Reject(rule, lang, Pattern)
    else ValidationResult(true, None)
  }

  /** `validateField(fieldName, value)` with `lang` the current language: a
      name without a rule is valid with no message; otherwise the rule is
      applied to the trimmed value. */
  function ValidateField(fieldName: string, value: string, lang: Lang): (r: ValidationResult)
    ensures fieldName !in ValidationRules ==> r == ValidationResult(true, None)
    ensures r.valid ==> r.message == None
  {
    if fieldName !in ValidationRules then
      ValidationResult(true, None)
    else
      ApplyRule(ValidationRules[fieldName], Trim(value), lang)
  }

  /** A rule accepts `t` exactly when none of its checks rejects it, and a
      rejection carries the message of the first check that does. */
  lemma ApplyRuleSpec(rule: Rule, t: string, lang: Lang)
    ensures var r := ApplyRule(rule, t, lang);
      && (r.valid <==> forall c :: !Fails(rule, c, t))
      && (!r.valid ==> exists c :: FirstFailure(rule, c, t) && r.message == ErrorMessage(rule, lang, c))
  {
    if rule.required && t == [] {
      assert FirstFailure(rule, Required, t);
    } else if rule.minLength != 0 && Utf16Length(t) < rule.minLength {
      assert FirstFailure(rule, MinLength, t);
    } else if rule.maxLength != 0 && Utf16Length(t) > rule.maxLength {
      assert FirstFailure(rule, MaxLength, t);
    } else if rule.pattern.Some? && !Matches(rule.pattern.value, t) {
      assert FirstFailure(rule, Pattern, t);
    } else {
      PassesEveryCheck(rule, t);
    }
  }

  /** A field with a rule is validated by applying it to the trimmed value. */
  lemma ValidateByRule(fieldName: string, value: string, lang: Lang)
    requires fieldName in ValidationRules
    ensures ValidateField(fieldName, value, lang) == ApplyRule(ValidationRules[fieldName], Trim(value), lang)
  {
  }

  /** What `validateField` promises: a field without a rule is valid with no
      message; a field with one is valid exactly when no check of its rule
      rejects the trimmed value, and otherwise carries the message, in the
      current language, of the first check in the order required, minimum
      length, maximum length, pattern that does. */
  lemma ValidateFieldSpec(fieldName: string, value: string, lang: Lang)
    ensures var r := ValidateField(fieldName, value, lang);
      && (fieldName !in ValidationRules ==> r == ValidationResult(true, None))
      && (r.valid ==> r.message == None)
      && (fieldName in ValidationRules ==> (r.valid <==> forall c :: !Fails(ValidationRules[fieldName], c, Trim(value))))
      && (!r.valid ==>
            && fieldName in ValidationRules
            && exists c :: FirstFailure(ValidationRules[fieldName], c, Trim(value)) &&
                 r.message == ErrorMessage(ValidationRules[fieldName], lang, c))
  {
    if fieldName in ValidationRules {
      ApplyRuleSpec(ValidationRules[fieldName], Trim(value), lang);
    }
  }

  // ---------------------------------------------------------------------
  // Properties

  /** At most one check is the first to fail, so the message is determined. */
  lemma FirstFailureUnique(rule: Rule, c: Check, d: Check, t: string)
    requires FirstFailure(rule, c, t) && FirstFailure(rule, d, t)
    ensures c == d
  {
  }

  /** The table's entries: exactly the three form fields. */
  lemma RuleLookups()
    ensures "user_name" in ValidationRules && ValidationRules["user_name"] == UserName
    ensures "user_email" in ValidationRules && ValidationRules["user_email"] == UserEmail
    ensures "message" in ValidationRules && ValidationRules["message"] == MessageText
    ensures forall k :: k in ValidationRules ==> k == "user_name" || k == "user_email" || k == "message"
  {
  }

  /** The required check comes first: a blank value for a required field is
      rejected with that field's `required` message whatever else holds. */
  lemma RequiredTakesPrecedence(fieldName: string, value: string, lang: Lang)
    requires fieldName in ValidationRules && ValidationRules[fieldName].required
    requires AllWhitespace(value)
    ensures ValidateField(fieldName, value, lang)
      == ValidationResult(false, ErrorMessage(ValidationRules[fieldName], lang, Required))
  {
    TrimEmptyIff(value);
    ValidateByRule(fieldName, value, lang);
  }

  /** The `user_name` rule on an already trimmed value. */
  lemma UserNameRule(t: string, lang: Lang)
    ensures var r := ApplyRule(UserName, t, lang);
      && (r.valid <==> 2 <= Utf16Length(t) <= 100 && MatchesName(t))
      && (t == [] ==> r.message == Some(if lang == Es then "Por favor ingresa tu nombre" else "Please enter your name"))
      && (t != [] && Utf16Length(t) < 2 ==>
            r.message == Some(if lang == Es then "El nombre debe tener al menos 2 caracteres" else "Name must be at least 2 characters"))
      && (Utf16Length(t) > 100 ==>
            r.message == Some(if lang == Es then "El nombre no puede exceder 100 caracteres" else "Name cannot exceed 100 characters"))
      && (2 <= Utf16Length(t) <= 100 && !MatchesName(t) ==>
            r.message == Some(if lang == Es then "El nombre solo puede contener letras y espacios" else "Name can only contain letters and spaces"))
  {
    if t == [] {
      assert Utf16Length(t) == 0;
    }
  }

  /** The `user_email` rule on an already trimmed value: no length bounds. */
  lemma UserEmailRule(t: string, lang: Lang)
    ensures var r := ApplyRule(UserEmail, t, lang);
      && (r.valid <==> MatchesEmail(t))
      && (t == [] ==> r.message == Some(if lang == Es then "Por favor ingresa tu correo electrónico" else "Please enter your email address"))
      && (t != [] && !MatchesEmail(t) ==>
            r.message == Some(if lang == Es then "Por favor ingresa un correo electrónico válido" else "Please enter a valid email address"))
  {
    if t == [] {
      assert !MatchesEmail(t);
    }
  }

  /** The `message` rule on an already trimmed value: no pattern. */
  lemma MessageRule(t: string, lang: Lang)
    ensures var r := ApplyRule(MessageText, t, lang);
      && (r.valid <==> 10 <= Utf16Length(t) <= 1000)
      && (t == [] ==> r.message == Some(if lang == Es then "Por favor escribe un mensaje" else "Please write a message"))
      && (t != [] && Utf16Length(t) < 10 ==>
            r.message == Some(if lang == Es then "El mensaje debe tener al menos 10 caracteres" else "Message must be at least 10 characters"))
      && (Utf16Length(t) > 1000 ==>
            r.message == Some(if lang == Es then "El mensaje no puede exceder 1000 caracteres" else "Message cannot exceed 1000 characters"))
  {
    if t == [] {
      assert Utf16Length(t) == 0;
    }
  }

  /** `user_name`: a trimmed length from 2 to 100 code units, inclusive, and
      only letters, Spanish accented letters and whitespace; the checks
      report in the order required, minimum, maximum, pattern. */
  lemma UserNameValidation(value: string, lang: Lang)
    ensures var r, t := ValidateField("user_name", value, lang), Trim(value);
      && (r.valid <==> 2 <= Utf16Length(t) <= 100 && MatchesName(t))
      && (t == [] ==> r.message == Some(if lang == Es then "Por favor ingresa tu nombre" else "Please enter your name"))
      && (t != [] && Utf16Length(t) < 2 ==>
            r.message == Some(if lang == Es then "El nombre debe tener al menos 2 caracteres" else "Name must be at least 2 characters"))
      && (Utf16Length(t) > 100 ==>
            r.message == Some(if lang == Es then "El nombre no puede exceder 100 caracteres" else "Name cannot exceed 100 characters"))
      && (2 <= Utf16Length(t) <= 100 && !MatchesName(t) ==>
            r.message == Some(if lang == Es then "El nombre solo puede contener letras y espacios" else "Name can only contain letters and spaces"))
  {
    RuleLookups();
    ValidateByRule("user_name", value, lang);
    UserNameRule(Trim(value), lang);
  }

  /** `user_email`: no length bounds, so only the required check and the
      pattern apply. */
  lemma UserEmailValidation(value: string, lang: Lang)
    ensures var r, t := ValidateField("user_email", value, lang), Trim(value);
      && (r.valid <==> MatchesEmail(t))
      && (t == [] ==> r.message == Some(if lang == Es then "Por favor ingresa tu correo electrónico" else "Please enter your email address"))
      && (t != [] && !MatchesEmail(t) ==>
            r.message == Some(if lang == Es then "Por favor ingresa un correo electrónico válido" else "Please enter a valid email address"))
  {
    RuleLookups();
    ValidateByRule("user_email", value, lang);
    UserEmailRule(Trim(value), lang);
  }

  /** `message`: a trimmed length from 10 to 1000 code units, inclusive, and no pattern. */
  lemma MessageValidation(value: string, lang: Lang)
    ensures var r, t := ValidateField("message", value, lang), Trim(value);
      && (r.valid <==> 10 <= Utf16Length(t) <= 1000)
      && (t == [] ==> r.message == Some(if lang == Es then "Por favor escribe un mensaje" else "Please write a message"))
      && (t != [] && Utf16Length(t) < 10 ==>
            r.message == Some(if lang == Es then "El mensaje debe tener al menos 10 caracteres" else "Message must be at least 10 characters"))
      && (Utf16Length(t) > 1000 ==>
            r.message == Some(if lang == Es then "El mensaje no puede exceder 1000 caracteres" else "Message cannot exceed 1000 characters"))
  {
    RuleLookups();
    ValidateByRule("message", value, lang);
    MessageRule(Trim(value), lang);
  }

  /** The table holds a message, in both languages, for every check that a
      field's rule can fail, so every invalid result carries a message. */
  lemma InvalidCarriesMessage(fieldName: string, value: string, lang: Lang)
    ensures var r := ValidateField(fieldName, value, lang);
      !r.valid ==> r.message.Some?
  {
    RuleLookups();
    if fieldName == "user_name" {
      UserNameValidation(value, lang);
    } else if fieldName == "user_email" {
      UserEmailValidation(value, lang);
    } else if fieldName == "message" {
      MessageValidation(value, lang);
    }
  }

  /** The name pattern admits no digit, `@`, `.` or other punctuation:
      every character of a match is a letter of the class or white space. */
  lemma NamePatternChars(s: string)
    requires MatchesName(s)
    ensures |s| > 0
    ensures forall i :: 0 <= i < |s| ==> !('0' <= s[i] <= '9') && s[i] != '@' && s[i] != '.' && s[i] != '<'
  {
    forall i | 0 <= i < |s| ensures !('0' <= s[i] <= '9') && s[i] != '@' && s[i] != '.' && s[i] != '<' {
      assert IsNameChar(s[i]);
    }
  }

  /** An `@` at `at`, after at least one character, and a `.` at `dot`
      with at least one character between them and one after it. */
  predicate DottedAfterAt(s: string, at: int, dot: int) {
    0 < at && at + 1 < dot && dot + 1 < |s| && s[at] == '@' && s[dot] == '.'
  }

  /** An email address the pattern accepts has a non-empty part before a
      single `@`, no whitespace, and a `.` with text on both sides after the
      `@`; and every such string is accepted. */
  lemma EmailPatternIff(s: string)
    ensures MatchesEmail(s) <==>
      && Count(s, '@') == 1
      && NoWhitespace(s)
      && exists at, dot | 0 <= at < |s| && 0 <= dot < |s| :: DottedAfterAt(s, at, dot)
  {
    if MatchesEmail(s) {
      var at, dot :| 0 <= at < |s| && 0 <= dot < |s| && EmailSplit(s, at, dot);
      EmailSplitShape(s, at, dot);
      assert DottedAfterAt(s, at, dot);
    }
    if && Count(s, '@') == 1 && NoWhitespace(s)
       && exists at, dot | 0 <= at < |s| && 0 <= dot < |s| :: DottedAfterAt(s, at, dot)
    {
      var at, dot :| 0 <= at < |s| && 0 <= dot < |s| && DottedAfterAt(s, at, dot);
      ShapeEmailSplit(s, at, dot);
    }
  }

  lemma EmailSplitShape(s: string, at: int, dot: int)
    requires EmailSplit(s, at, dot)
    ensures Count(s, '@') == 1 && NoWhitespace(s)
  {
    forall i | 0 <= i < |s| ensures !IsWhitespace(s[i]) && (s[i] == '@' <==> i == at) {
      if i < at {
        assert s[..at][i] == s[i];
      } else if at < i < dot {
        assert s[at + 1..dot][i - at - 1] == s[i];
      } else if dot < i {
        assert s[dot + 1..][i - dot - 1] == s[i];
      }
    }
    CountAround(s, at, '@');
  }

  lemma ShapeEmailSplit(s: string, at: int, dot: int)
    requires Count(s, '@') == 1 && NoWhitespace(s) && DottedAfterAt(s, at, dot)
    ensures EmailSplit(s, at, dot)
  {
    CountAround(s, at, '@');
    forall i | 0 <= i < at ensures s[i] != '@' {
      assert s[..at][i] == s[i];
    }
    forall i | at < i < |s| ensures s[i] != '@' {
      assert s[at + 1..][i - at - 1] == s[i];
    }
  }

  /** A value of visible ASCII characters is its own trim, and its length is
      its number of characters. */
  lemma PrintableAscii(s: string)
    requires |s| > 0 && forall i :: 0 <= i < |s| ==> '!' <= s[i] <= '~'
    ensures Trim(s) == s && Utf16Length(s) == |s|
  {
    TrimOfSolid(s);
    Utf16LengthOfBasicPlane(s);
  }

  /** A plain address is valid. */
  lemma EmailExample(lang: Lang)
    ensures ValidateField("user_email", "a@b.com", lang).valid
  {
    PlainAddressMatches();
    UserEmailValidation("a@b.com", lang);
  }

  lemma PlainAddressMatches()
    ensures MatchesEmail(Trim("a@b.com"))
  {
    var email := "a@b.com";
    PrintableAscii(email);
    assert EmailSplit(email, 1, 3);
  }

  /** A message of visible ASCII characters is valid exactly when it has
      from 10 to 1000 characters, both bounds inclusive; a shorter one gets
      the minimum-length message and a longer one the maximum-length message. */
  lemma AsciiMessage(m: string, lang: Lang)
    requires m != [] && forall i :: 0 <= i < |m| ==> '!' <= m[i] <= '~'
    ensures var r := ValidateField("message", m, lang);
      && (r.valid <==> 10 <= |m| <= 1000)
      && (|m| < 10 ==> r.message == Some(if lang == Es then "El mensaje debe tener al menos 10 caracteres" else "Message must be at least 10 characters"))
      && (|m| > 1000 ==> r.message == Some(if lang == Es then "El mensaje no puede exceder 1000 caracteres" else "Message cannot exceed 1000 characters"))
  {
    assert Trim(m) != [] && Utf16Length(Trim(m)) == |m| by {
      PrintableAscii(m);
    }
    MessageValidation(m, lang);
  }

  /** A name of ASCII letters is valid exactly when it has from 2 to 100
      letters, both bounds inclusive; so "Jo" is the shortest valid one. */
  lemma LetterName(m: string, lang: Lang)
    requires forall i :: 0 <= i < |m| ==> 'a' <= m[i] <= 'z' || 'A' <= m[i] <= 'Z'
    ensures ValidateField("user_name", m, lang).valid <==> 2 <= |m| <= 100
  {
    LettersOnly(m);
    UserNameValidation(m, lang);
  }

  lemma LettersOnly(m: string)
    requires forall i :: 0 <= i < |m| ==> 'a' <= m[i] <= 'z' || 'A' <= m[i] <= 'Z'
    ensures Utf16Length(Trim(m)) == |m| && (MatchesName(Trim(m)) <==> m != [])
  {
    if m == [] {
      TrimEmptyIff(m);
    } else {
      PrintableAscii(m);
      assert MatchesName(m);
    }
  }
}
