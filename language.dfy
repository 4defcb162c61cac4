/** The language switcher: a page-wide current-language flag and the
    rewrite of every element that carries a Spanish and an English variant
    of its text or of its placeholder. */
module Language {
  import opened Wrappers

  /** The two language codes, `'es'` and `'en'`. */
  datatype Lang = Es | En

  function Code(l: Lang): string {
    match l
    case Es => "es"
    case En => "en"
  }

  /** The other language: `currentLang === 'es' ? 'en' : 'es'`. */
  function Flip(l: Lang): (r: Lang)
    ensures r != l
  {
    if l == Es then En else Es
  }

  /** The codes `setLanguage` accepts; every other string is refused. */
  function Parse(code: string): (r: Option<Lang>)
    ensures r.Some? <==> code == "es" || code == "en"
    ensures r.Some? ==> Code(r.value) == code
  {
    if code == "es" then Some(Es)
    else if code == "en" then Some(En)
    else None
  }

  /** What an element displays: plain text (`textContent`) or markup
      (`innerHTML`, used for `UL` elements so that a variant may hold list items). */
  datatype Content = Text(text: string) | Markup(html: string)

  /** One element of the page. Each optional attribute is `None` when absent;
      the tag name is upper case, as the DOM reports it. */
  datatype Element = Element(
    tagName: string,
    dataEs: Option<string>,
    dataEn: Option<string>,
    content: Content,
    dataEsPlaceholder: Option<string>,
    dataEnPlaceholder: Option<string>,
    placeholder: string)

  /** Matched by the selector `[data-es][data-en]`. */
  predicate HasTexts(e: Element) {
    e.dataEs.Some? && e.dataEn.Some?
  }

  /** Matched by the selector `[data-es-placeholder][data-en-placeholder]`. */
  predicate HasPlaceholders(e: Element) {
    e.dataEsPlaceholder.Some? && e.dataEnPlaceholder.Some?
  }

  /** `getAttribute('data-' + lang)` */
  function TextAttr(e: Element, l: Lang): string
    requires HasTexts(e)
  {
    if l == Es then e.dataEs.value else e.dataEn.value
  }

  /** `getAttribute('data-' + lang + '-placeholder')` */
  function PlaceholderAttr(e: Element, l: Lang): string
    requires HasPlaceholders(e)
  {
    if l == Es then e.dataEsPlaceholder.value else e.dataEnPlaceholder.value
  }

  /** The content an element shows once `text` is written into it. */
  function Shown(e: Element, text: string): Content {
    if e.tagName == "UL" then Markup(text) else Text(text)
  }

  /** The first `forEach` of `toggleLanguage`, for one element: only the
      content of an element with both text variants changes. */
  function ShowText(l: Lang, e: Element): (r: Element)
    ensures r.(content := e.content) == e
    ensures HasTexts(e) ==> r.content == Shown(e, TextAttr(e, l))
    ensures !HasTexts(e) ==> r == e
  {
    if HasTexts(e) then e.(content := Shown(e, TextAttr(e, l))) else e
  }

  /** The second `forEach` of `toggleLanguage`, for one element: only the
      placeholder changes, and only to a non-empty variant; an empty variant
      leaves the placeholder as it was. */
  function ShowPlaceholder(l: Lang, e: Element): (r: Element)
    ensures r.(placeholder := e.placeholder) == e
    ensures r.placeholder != e.placeholder ==> HasPlaceholders(e) && r.placeholder == PlaceholderAttr(e, l) != ""
    ensures HasPlaceholders(e) && PlaceholderAttr(e, l) != "" ==> r.placeholder == PlaceholderAttr(e, l)
  {
    if HasPlaceholders(e) && PlaceholderAttr(e, l) != "" then
      e.(placeholder := PlaceholderAttr(e, l))
    else
      e
  }

  /** Both loops for one element: the content shows `l`'s text variant when
      the element has both, the placeholder takes `l`'s variant when the
      element has both and it is not empty, and nothing else changes. */
  function Relabel(l: Lang, e: Element): (r: Element)
    ensures r.(content := e.content, placeholder := e.placeholder) == e
    ensures r.content == (if HasTexts(e) then Shown(e, TextAttr(e, l)) else e.content)
    ensures r.placeholder == (if HasPlaceholders(e) && PlaceholderAttr(e, l) != "" then PlaceholderAttr(e, l) else e.placeholder)
  {
    ShowPlaceholder(l, ShowText(l, e))
  }

  /** Both loops over the whole page, in document order. */
  function RelabelAll(l: Lang, es: seq<Element>): (r: seq<Element>)
    ensures |r| == |es|
  {
    if es == [] then [] else [Relabel(l, es[0])] + RelabelAll(l, es[1..])
  }

  /** The label of the language button: the language a click switches to. */
  function LabelFor(l: Lang): (r: string)
    ensures r == "EN" <==> Flip(l) == En
    ensures r == "ES" <==> Flip(l) == Es
  {
    if l == Es then "EN" else "ES"
  }

  /** The state the module works on: the flag, the text of the `#lang-text`
      element (`None` when the page has none) and the page's elements in
      document order. */
  datatype Page = Page(lang: Lang, langText: Option<string>, elements: seq<Element>)

  /** Sets the flag to `l` and rewrites the button label and every tagged element for it. */
  function Render(p: Page, l: Lang): (r: Page)
    ensures r.lang == l
    ensures r.langText.Some? <==> p.langText.Some?
    ensures r.langText.Some? ==> r.langText.value == LabelFor(l)
    ensures |r.elements| == |p.elements|
  {
    Page(l, if p.langText.Some? then Some(LabelFor(l)) else None, RelabelAll(l, p.elements))
  }

  /** `toggleLanguage` */
  function Toggle(p: Page): (r: Page)
    ensures r.lang == Flip(p.lang) && r.lang != p.lang
    ensures Code(r.lang) == (if Code(p.lang) == "es" then "en" else "es")
    ensures r.langText.Some? <==> p.langText.Some?
    ensures |r.elements| == |p.elements|
  {
    Render(p, Flip(p.lang))
  }

  /** `setLanguage` as written: assign the code, then toggle. */
  function SetLanguageAsWritten(p: Page, code: string): (r: Page)
    ensures Parse(code).None? ==> r == p
    ensures Parse(code).Some? ==> r.lang == Flip(Parse(code).value) && r.lang != Parse(code).value
    ensures Parse(code).Some? ==> r == Render(p, Flip(Parse(code).value))
  {
    match Parse(code)
    case None => p
    case Some(l) => Toggle(p.(lang := l))
  }

  /** `setLanguage` as its documentation describes it: the page ends up in
      the requested language. */
  function SetLanguageIntended(p: Page, code: string): (r: Page)
    ensures Parse(code).None? ==> r == p
    ensures Parse(code).Some? ==> r.lang == Parse(code).value && Code(r.lang) == code
    ensures |r.elements| == |p.elements|
  {
    match Parse(code)
    case None => p
    case Some(l) => Render(p, l)
  }

  /** The element in `l`'s state from which a double toggle comes back
      unchanged: its text is `l`'s variant, and its placeholder is the one a
      toggle to `l` would leave. */
  predicate ElementSynced(l: Lang, e: Element) {
    && (HasTexts(e) ==> e.content == Shown(e, TextAttr(e, l)))
    && (HasPlaceholders(e) ==>
          if PlaceholderAttr(e, l) != "" then e.placeholder == PlaceholderAttr(e, l)
          else PlaceholderAttr(e, Flip(l)) == "" || e.placeholder == PlaceholderAttr(e, Flip(l)))
  }

  /** The page is displayed consistently with its flag. */
  predicate Synced(p: Page) {
    && (p.langText.Some? ==> p.langText.value == LabelFor(p.lang))
    && forall i :: 0 <= i < |p.elements| ==> ElementSynced(p.lang, p.elements[i])
  }

  // ---------------------------------------------------------------------
  // Properties of the specification

  lemma FlipInvolution(l: Lang)
    ensures Flip(Flip(l)) == l && Flip(Es) == En && Flip(En) == Es
  {
  }

  /** `RelabelAll` rewrites each element on its own and keeps the order. */
  lemma {:induction false} RelabelAllAt(l: Lang, es: seq<Element>)
    ensures |RelabelAll(l, es)| == |es|
    ensures forall i :: 0 <= i < |es| ==> RelabelAll(l, es)[i] == Relabel(l, es[i])
  {
    if es != [] {
      RelabelAllAt(l, es[1..]);
      forall i | 0 < i < |es| ensures RelabelAll(l, es)[i] == Relabel(l, es[i]) {
        assert es[1..][i - 1] == es[i];
      }
    }
  }

  /** What `toggleLanguage` does: the flag flips, the label names the other
      language, every element tagged with both text variants shows the new
      language's variant (as markup for `UL`, as text otherwise), a placeholder
      is overwritten only by a non-empty variant, and nothing else changes. */
  lemma ToggleEffect(p: Page)
    ensures var q := Toggle(p);
      && q.lang == Flip(p.lang)
      && q.langText == (if p.langText.Some? then Some(if q.lang == Es then "EN" else "ES") else None)
      && |q.elements| == |p.elements|
      && forall i :: 0 <= i < |p.elements| ==>
           var e, r := p.elements[i], q.elements[i];
           && r.(content := e.content, placeholder := e.placeholder) == e
           && r.content == (if HasTexts(e) then (if e.tagName == "UL" then Markup(TextAttr(e, q.lang)) else Text(TextAttr(e, q.lang))) else e.content)
           && r.placeholder == (if HasPlaceholders(e) && PlaceholderAttr(e, q.lang) != "" then PlaceholderAttr(e, q.lang) else e.placeholder)
  {
    var l := Flip(p.lang);
    RelabelAllAt(l, p.elements);
  }

  /** Rewriting for `l` after rewriting for the other language gives the
      element back exactly when it was already shown in `l`. */
  lemma RelabelTwiceIff(l: Lang, e: Element)
    ensures Relabel(l, Relabel(Flip(l), e)) == e <==> ElementSynced(l, e)
  {
    var r := Relabel(l, Relabel(Flip(l), e));
    if ElementSynced(l, e) {
      assert r.content == e.content;
      assert r.placeholder == e.placeholder;
    } else if HasTexts(e) && e.content != Shown(e, TextAttr(e, l)) {
      assert r.content != e.content;
    } else {
      assert r.placeholder != e.placeholder;
    }
  }

  /** Toggling twice restores the flag, the label and the content and
      placeholder of every element exactly when the page was displayed
      consistently with its flag; from any page, the second toggle leaves
      every element tagged with both text variants in the original language. */
  lemma {:induction false} ToggleTwiceIff(p: Page)
    ensures Toggle(Toggle(p)).lang == p.lang
    ensures Toggle(Toggle(p)) == p <==> Synced(p)
    ensures forall i :: 0 <= i < |p.elements| && HasTexts(p.elements[i]) ==>
      Toggle(Toggle(p)).elements[i].content == Shown(p.elements[i], TextAttr(p.elements[i], p.lang))
  {
    var l := p.lang;
    var mid := RelabelAll(Flip(l), p.elements);
    var back := RelabelAll(l, mid);
    RelabelAllAt(Flip(l), p.elements);
    RelabelAllAt(l, mid);
    FlipInvolution(l);
    assert Toggle(Toggle(p)).elements == back;
    forall i | 0 <= i < |p.elements|
      ensures back[i] == Relabel(l, Relabel(Flip(l), p.elements[i]))
      ensures back[i] == p.elements[i] <==> ElementSynced(l, p.elements[i])
    {
      RelabelTwiceIff(l, p.elements[i]);
    }
    if Synced(p) {
      assert back == p.elements;
    }
    if Toggle(Toggle(p)) == p {
      forall i | 0 <= i < |p.elements| ensures ElementSynced(l, p.elements[i]) {
        assert back[i] == p.elements[i];
      }
    }
  }

  /** A consistently displayed page stays consistent under a toggle. */
  lemma {:induction false} ToggleKeepsSynced(p: Page)
    requires Synced(p)
    ensures Synced(Toggle(p))
  {
    var l := Flip(p.lang);
    RelabelAllAt(l, p.elements);
    FlipInvolution(p.lang);
    forall i | 0 <= i < |p.elements| ensures ElementSynced(l, RelabelAll(l, p.elements)[i]) {
      var e := p.elements[i];
      assert ElementSynced(p.lang, e);
    }
  }

  /** The discrepancy on a concrete call: `setLanguage('en')` leaves Spanish selected. */
  lemma SetLanguageEnSelectsSpanish(p: Page)
    ensures SetLanguageAsWritten(p, "en").lang == Es
    ensures SetLanguageAsWritten(p, "es").lang == En
  {
    assert Parse("en") == Some(En);
    assert Parse("es") == Some(Es);
  }

  /** The corrected `setLanguage`: a valid code selects that language and the
      page is displayed in it; any other code changes nothing. */
  lemma {:induction false} SetLanguageIntendedEffect(p: Page, code: string)
    ensures Parse(code).None? ==> SetLanguageIntended(p, code) == p
    ensures Parse(code).Some? ==>
      && SetLanguageIntended(p, code).lang == Parse(code).value
      && Code(SetLanguageIntended(p, code).lang) == code
      && forall i :: 0 <= i < |p.elements| && HasTexts(p.elements[i]) ==>
           SetLanguageIntended(p, code).elements[i].content == Shown(p.elements[i], TextAttr(p.elements[i], Parse(code).value))
  {
    if Parse(code).Some? {
      RelabelAllAt(Parse(code).value, p.elements);
    }
  }

  // ---------------------------------------------------------------------
  // The module's state and its exported functions

  /** The module-level state of `language.js` together with the part of the
      document it rewrites. */
  class LanguageSwitcher {
    var currentLang: Lang
    var langText: Option<string>
    var elements: seq<Element>

    function Snapshot(): Page
      reads this
    {
      Page(currentLang, langText, elements)
    }

    /** Module load: `let currentLang = 'es'`. */
    constructor (langText: Option<string>, elements: seq<Element>)
      ensures Snapshot() == Page(Es, langText, elements)
    {
      this.currentLang := Es;
      this.langText := langText;
      this.elements := elements;
    }

    /** `init`: resets the flag to Spanish and touches nothing else. */
    method Init()
      modifies this
      ensures Snapshot() == old(Snapshot()).(lang := Es)
    {
      currentLang := Es;
    }

    /** `getCurrentLang` */
    method GetCurrentLang() returns (code: string)
      ensures code == Code(currentLang)
      ensures code == "es" || code == "en"
    {
      code := if currentLang == Es then "es" else "en";
    }

    /** `toggleLanguage` */
    method ToggleLanguage()
      modifies this
      ensures Snapshot() == Toggle(old(Snapshot()))
    {
      currentLang := if currentLang == Es then En else Es;
      if langText.Some? {
        langText := Some(if currentLang == Es then "EN" else "ES");
      }

      ghost var lang, text := currentLang, langText;
      var n := |elements|;
      var i := 0;
      while i < n
        invariant 0 <= i <= n == |elements|
        invariant currentLang == lang && langText == text
        invariant forall k :: 0 <= k < i ==> elements[k] == ShowText(currentLang, old(elements)[k])
        invariant forall k :: i <= k < n ==> elements[k] == old(elements)[k]
      {
        var element := elements[i];
        if element.dataEs.Some? && element.dataEn.Some? {
          var text := if currentLang == Es then element.dataEs.value else element.dataEn.value;
          if element.tagName == "UL" {
            elements := elements[i := element.(content := Markup(text))];
          } else {
            elements := elements[i := element.(content := Text(text))];
          }
        }
        i := i + 1;
      }

      i := 0;
      while i < n
        invariant 0 <= i <= n == |elements|
        invariant currentLang == lang && langText == text
        invariant forall k :: 0 <= k < i ==> elements[k] == Relabel(currentLang, old(elements)[k])
        invariant forall k :: i <= k < n ==> elements[k] == ShowText(currentLang, old(elements)[k])
      {
        var element := elements[i];
        if element.dataEsPlaceholder.Some? && element.dataEnPlaceholder.Some? {
          var placeholder := if currentLang == Es then element.dataEsPlaceholder.value else element.dataEnPlaceholder.value;
          if placeholder != "" {
            elements := elements[i := element.(placeholder := placeholder)];
          }
        }
        i := i + 1;
      }

      RelabelAllAt(currentLang, old(elements));
      assert elements == RelabelAll(currentLang, old(elements));
    }

    /** `setLanguage`, as written: a valid code is assigned and then
        `toggleLanguage` runs, which flips it. */
    method SetLanguage(lang: string)
      modifies this
      ensures Snapshot() == SetLanguageAsWritten(old(Snapshot()), lang)
    {
      if lang == "es" || lang == "en" {
        currentLang := if lang == "es" then Es else En;
        ToggleLanguage();
      }
    }
  }
}
