/**
 * Shared vocabulary of the model: the dynamically typed attribute values the
 * plugin passes around, Rails' notion of a blank value, Ruby's `to_s`, and
 * the translation table that `I18n.t` consults.
 */
module Values {

  datatype Option<+T> = None | Some(value: T)

  /** An attribute or request-parameter value: Ruby `nil`, a String or an Integer. */
  datatype Value = Nil | Str(s: string) | Int(i: int)

  /** The characters Ruby's `[[:space:]]` class matches, which `String#blank?` uses. */
  predicate IsRubySpace(c: char)
  {
    c == ' ' || c == '\t' || c == '\n' || c == '\r' || c == '\U{B}' || c == '\U{C}'
    || c == '\U{85}' || c == '\U{A0}' || c == '\U{1680}' || ('\U{2000}' <= c <= '\U{200A}')
    || c == '\U{2028}' || c == '\U{2029}' || c == '\U{202F}' || c == '\U{205F}' || c == '\U{3000}'
  }

  /** `String#blank?`: empty or whitespace only. */
  predicate BlankString(s: string)
  {
    forall k :: 0 <= k < |s| ==> IsRubySpace(s[k])
  }

  /** `Object#blank?` on the three kinds of value: nil is blank, an Integer never is. */
  predicate Blank(v: Value)
  {
    match v
    case Nil => true
    case Str(s) => BlankString(s)
    case Int(_) => false
  }

  predicate Present(v: Value)
  {
    !Blank(v)
  }

  function Digit(d: nat): char
    requires d < 10
  {
    "0123456789"[d]
  }

  /** Decimal rendering of a natural number, as `Integer#to_s` writes it. */
  function NatToString(n: nat): (r: string)
    ensures |r| > 0
    ensures forall k :: 0 <= k < |r| ==> '0' <= r[k] <= '9'
    decreases n
  {
    if n < 10 then [Digit(n)] else NatToString(n / 10) + [Digit(n % 10)]
  }

  function IntToString(i: int): (r: string)
    ensures |r| > 0
  {
    if i < 0 then "-" + NatToString(-i) else NatToString(i)
  }

  /** `to_s`: nil becomes the empty string. */
  function ToS(v: Value): (r: string)
    ensures v.Nil? ==> r == ""
    ensures v.Str? ==> r == v.s
    ensures v.Int? ==> |r| > 0
  {
    match v
    case Nil => ""
    case Str(s) => s
    case Int(i) => IntToString(i)
  }

  /** The value of `v.to_s.length`, which Rails' length validator measures. */
  function Length(v: Value): nat
  {
    |ToS(v)|
  }

  /** The translation table of the current locale: key to translated text. */
  type Translations = map<string, string>

  /** `I18n.t(key, default: d)`. */
  function Translate(tr: Translations, key: string, default: string): (r: string)
    ensures key in tr ==> r == tr[key]
    ensures key !in tr ==> r == default
  {
    if key in tr then tr[key] else default
  }

  /** `I18n.t(key)` without a default: a missing key yields the i18n gem's marker text. */
  function TranslateOrMissing(tr: Translations, key: string): (r: string)
    ensures key in tr ==> r == tr[key]
    ensures key !in tr ==> r == "translation missing: " + key
  {
    Translate(tr, key, "translation missing: " + key)
  }
}
