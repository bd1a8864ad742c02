/**
 * The view helper that renders a support level as a badge, modelled as the
 * badge's class and text rather than as HTML.
 */
module StakeholdersHelper {
  import opened Values

  /** The codes the helper knows, each with its badge colour. */
  const SUPPORT_LEVEL_CLASSES: seq<(string, string)> :=
    [("strong_support", "success"), ("support", "info"), ("neutral", "secondary"),
     ("oppose", "warning"), ("strong_oppose", "danger")]

  const FALLBACK_CLASS := "secondary"

  const SUPPORT_LEVEL_SCOPE := "stakeholder.support_level."

  /** A `<span>`: nothing for a blank level, otherwise its class attribute and its text. */
  datatype Badge = NoBadge | Badge(cssClass: string, text: string)

  /** The `case` over the level: a listed code gets its colour, anything else the fallback. */
  function BadgeClass(level: Value): string
  {
    if level == Str("strong_support") then "success"
    else if level == Str("support") then "info"
    else if level == Str("neutral") then "secondary"
    else if level == Str("oppose") then "warning"
    else if level == Str("strong_oppose") then "danger"
    else FALLBACK_CLASS
  }

  /** The `case` agrees with the table: a listed code gets its colour, any other value the fallback. */
  lemma BadgeClassMatchesTable(level: Value)
    ensures forall k :: 0 <= k < |SUPPORT_LEVEL_CLASSES| && level == Str(SUPPORT_LEVEL_CLASSES[k].0) ==>
                          BadgeClass(level) == SUPPORT_LEVEL_CLASSES[k].1
    ensures (forall k :: 0 <= k < |SUPPORT_LEVEL_CLASSES| ==> level != Str(SUPPORT_LEVEL_CLASSES[k].0))
      ==> BadgeClass(level) == FALLBACK_CLASS
  {
    var t := SUPPORT_LEVEL_CLASSES;
    assert t[0].0 == "strong_support" && t[1].0 == "support" && t[2].0 == "neutral";
    assert t[3].0 == "oppose" && t[4].0 == "strong_oppose";
  }

  /** `support_level_badge(support_level)`. */
  function SupportLevelBadge(level: Value, tr: Translations): (r: Badge)
    ensures Blank(level) <==> r == NoBadge
    ensures Present(level) ==> r.cssClass == "badge badge-" + BadgeClass(level)
    ensures Present(level) ==> r.text == Translate(tr, SUPPORT_LEVEL_SCOPE + ToS(level), ToS(level))
  {
    if Blank(level) then NoBadge
    else Badge("badge badge-" + BadgeClass(level), Translate(tr, SUPPORT_LEVEL_SCOPE + ToS(level), ToS(level)))
  }

  /**
   * The colour of every badge is one of Bootstrap's five contextual classes,
   * and an untranslated code is shown as itself.
   */
  lemma BadgeClassesAreContextual(level: Value, tr: Translations)
    requires Present(level)
    ensures BadgeClass(level) in {"success", "info", "secondary", "warning", "danger"}
    ensures SUPPORT_LEVEL_SCOPE + ToS(level) !in tr ==> SupportLevelBadge(level, tr).text == ToS(level)
  {
  }

  /** An unknown code, an integer and a code with different case all fall back to "secondary". */
  lemma BadgeClassExamples()
    ensures BadgeClass(Str("Strong_Support")) == FALLBACK_CLASS
    ensures BadgeClass(Int(1)) == FALLBACK_CLASS
    ensures BadgeClass(Str("oppose")) == "warning"
  {
    assert "Strong_Support"[0] != "strong_support"[0];
  }
}
