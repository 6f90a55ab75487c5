/** The PHP value semantics the admin class leans on: `empty()`, the short
    ternary `?:`, `implode(', ', …)` and the decimal rendering of an integer. */
module PhpValues {

  datatype Option<+T> = None | Some(value: T)

  /** A value as the snapshot carries it: `null`, a string, or a list of
      strings (a taxonomy with no assigned terms has the value `array()`). */
  datatype Value = Null | Str(s: string) | List(items: seq<string>)

  /** `empty()` on a string: both "" and "0" are empty in PHP. */
  predicate EmptyString(s: string) {
    s == "" || s == "0"
  }

  /** `empty()` on a snapshot value. */
  predicate IsEmpty(v: Value) {
    match v
    case Null => true
    case Str(s) => EmptyString(s)
    case List(items) => |items| == 0
  }

  /** An optional string setting that PHP treats as true: set, and neither "" nor "0". */
  predicate Truthy(setting: Option<string>) {
    setting.Some? && !EmptyString(setting.value)
  }

  /** `$setting ?: $fallback` for an optional string setting: the setting when
      it is truthy, the fallback when it is unset, "" or "0". */
  function OrElse(setting: Option<string>, fallback: string): string {
    if Truthy(setting) then setting.value else fallback
  }

  /** The separator every `implode` in the admin class uses. */
  const Separator: string := ", "

  /** `implode(', ', xs)`. */
  function Join(xs: seq<string>): string {
    if |xs| == 0 then ""
    else if |xs| == 1 then xs[0]
    else xs[0] + Separator + Join(xs[1..])
  }

  /** `empty(implode(', ', xs))` holds exactly for the empty list and for a
      single element that is itself empty: two or more elements always leave
      a separator behind, even when every element is "". */
  lemma JoinEmptyIff(xs: seq<string>)
    ensures EmptyString(Join(xs)) <==> |xs| == 0 || (|xs| == 1 && EmptyString(xs[0]))
  {
  }

  /* ---- decimal rendering of integers (PHP's int to string conversion) ---- */

  predicate IsDigit(c: char) {
    '0' <= c <= '9'
  }

  predicate AllDigits(s: string) {
    forall i :: 0 <= i < |s| ==> IsDigit(s[i])
  }

  function DigitChar(d: int): (c: char)
    requires 0 <= d < 10
    ensures IsDigit(c) && c as int - '0' as int == d
  {
    (d + '0' as int) as char
  }

  /** The decimal digits of `n`, most significant first, without leading zeros. */
  function NatToString(n: nat): (s: string)
    ensures |s| > 0 && AllDigits(s)
    ensures |s| > 1 ==> s[0] != '0'
    decreases n
  {
    if n < 10 then [DigitChar(n)] else NatToString(n / 10) + [DigitChar(n % 10)]
  }

  /** The value of a string of decimal digits. */
  function ParseNat(s: string): nat
    requires AllDigits(s)
  {
    if |s| == 0 then 0 else ParseNat(s[..|s| - 1]) * 10 + (s[|s| - 1] as int - '0' as int)
  }

  lemma {:induction false} NatToStringRoundTrip(n: nat)
    ensures ParseNat(NatToString(n)) == n
    decreases n
  {
    if n >= 10 {
      var s := NatToString(n);
      var prefix := NatToString(n / 10);
      assert s[..|s| - 1] == prefix;
      NatToStringRoundTrip(n / 10);
    }
  }

  /** PHP's rendering of an int: an optional minus sign, then the digits. */
  function IntToString(n: int): string {
    if n < 0 then "-" + NatToString(-n) else NatToString(n)
  }

  /** The integer a rendered int denotes (the inverse of `IntToString`). */
  function ParseInt(s: string): int
    requires |s| > 0
    requires AllDigits(if s[0] == '-' then s[1..] else s)
  {
    if s[0] == '-' then -(ParseNat(s[1..]) as int) else ParseNat(s)
  }

  lemma IntToStringRoundTrip(n: int)
    ensures |IntToString(n)| > 0
    ensures AllDigits(if IntToString(n)[0] == '-' then IntToString(n)[1..] else IntToString(n))
    ensures ParseInt(IntToString(n)) == n
  {
    if n < 0 {
      var s := IntToString(n);
      assert s[1..] == NatToString(-n);
      NatToStringRoundTrip(-n);
    } else {
      NatToStringRoundTrip(n);
    }
  }
}
