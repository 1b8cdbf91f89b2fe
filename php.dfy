/**
 * PHP scalar values as post meta and WordPress calls hand them back, with
 * the three conversions the plugin relies on: truthiness (`if ($v)`,
 * `empty($v)`, `?:`), `(int)` and string interpolation.
 *
 * `Wp` bundles the WordPress and PHP routines the model does not look
 * inside: the post meta store, titles and excerpts, the escaping helpers,
 * `strtotime`, `date` and `date_i18n`, and `number_format`.
 */
module Php {

  import opened Wrappers

  datatype PhpValue = PStr(s: string) | PInt(n: int) | PBool(b: bool) | PNull

  /** The five scalars PHP converts to `false`. */
  const FalsyValues: set<PhpValue> := {PStr(""), PStr("0"), PInt(0), PBool(false), PNull}

  /** PHP's boolean conversion: '' and '0', 0, false and null are false. */
  predicate Truthy(v: PhpValue): (b: bool)
    ensures b <==> v !in FalsyValues
  {
    match v
    case PStr(s) => s != "" && s != "0"
    case PInt(n) => n != 0
    case PBool(b) => b
    case PNull => false
  }

  /** Truthiness of a plain string (a title, an excerpt, a form field). */
  predicate TruthyString(s: string) { Truthy(PStr(s)) }

  /** Decimal digits of a natural number. */
  function NatToDecimal(n: nat): (r: string)
    ensures |r| > 0
    ensures forall i :: 0 <= i < |r| ==> '0' <= r[i] <= '9'
    ensures r == "0" <==> n == 0
  {
    var d := ['0' + (n % 10) as char];
    if n < 10 then d else NatToDecimal(n / 10) + d
  }

  /** `(string)` of a scalar. */
  function ToStr(v: PhpValue): (r: string)
    ensures TruthyString(r) <==> Truthy(v)
  {
    match v
    case PStr(s) => s
    case PInt(n) => if n < 0 then "-" + NatToDecimal(-n) else NatToDecimal(n)
    case PBool(b) => if b then "1" else ""
    case PNull => ""
  }

  predicate IsDigit(c: char) { '0' <= c <= '9' }

  /** The value of the leading run of decimal digits of `s`. */
  function LeadingDigitsValue(s: string, acc: nat): nat
    decreases |s|
  {
    if |s| > 0 && IsDigit(s[0])
    then LeadingDigitsValue(s[1..], acc * 10 + (s[0] as int - '0' as int))
    else acc
  }

  /** A leading run of whitespace, as PHP's numeric-string prefix allows. */
  function SkipSpaces(s: string): string
    decreases |s|
  {
    if |s| > 0 && (s[0] == ' ' || s[0] == '\t' || s[0] == '\n' || s[0] == '\r'
                   || s[0] == '\U{0B}' || s[0] == '\U{0C}')
    then SkipSpaces(s[1..]) else s
  }

  /** `(int)` of a string: optional whitespace and sign, then the leading digits. */
  function StringToInt(s: string): int {
    var t := SkipSpaces(s);
    if |t| > 0 && t[0] == '-' then -(LeadingDigitsValue(t[1..], 0) as int)
    else if |t| > 0 && t[0] == '+' then LeadingDigitsValue(t[1..], 0)
    else LeadingDigitsValue(t, 0)
  }

  /**
   * `(int)` of a scalar. A value that casts to a non-zero integer is truthy;
   * for a non-string the converse holds too (a string such as `'abc'` is
   * truthy and casts to 0).
   */
  function ToInt(v: PhpValue): (r: int)
    ensures r != 0 ==> Truthy(v)
    ensures !v.PStr? ==> (r != 0 <==> Truthy(v))
  {
    match v
    case PStr(s) => StringToInt(s)
    case PInt(n) => n
    case PBool(b) => if b then 1 else 0
    case PNull => 0
  }

  /** The WordPress and PHP routines the model takes as given. */
  datatype Wp = Wp(
    meta: (int, string) -> PhpValue,      // get_post_meta($id, $key, true); '' when absent
    title: int -> string,                 // get_the_title
    excerpt: int -> string,               // get_the_excerpt
    escHtml: string -> string,            // esc_html
    escUrl: string -> string,             // esc_url
    rawUrlEncode: string -> string,       // rawurlencode
    nl2br: string -> string,              // nl2br
    trimWords: string -> string,          // wp_trim_words($s, 25, '…')
    money: PhpValue -> string,            // number_format((float) $v, 2)
    strtotime: string -> Option<int>,     // strtotime; None for false
    date: (string, int) -> string,        // date($format, $ts)
    dateI18n: (string, int) -> string,    // date_i18n($format, $ts)
    siteTimestamp: string -> Option<int>  // strtotime(get_date_from_gmt(gmdate(..., strtotime($s))))
  )
}
