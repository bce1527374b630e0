/** JavaScript values as the build script hands them around, and the
    failure-compatible wrappers the model uses for the script's exceptions. */
module Values {

  datatype Option<+T> = None | Some(value: T)

  datatype Result<+T, +E> = Ok(value: T) | Err(error: E)

  /** The exceptions the modelled code can throw. */
  datatype JsError =
    | TypeError   // reading a property of `undefined`
    | RangeError  // `toISOString` on an invalid date

  /** A JavaScript value as seen through the two conversions the script
      applies to it: `shown` is the text `String(v)` gives (what a template
      literal or a `replace` callback inserts), and `truthy` is whether
      `v || ""` keeps `v`. The two are independent: `0` is falsy but shows
      as "0", `[]` is truthy but shows as "". */
  datatype Value = Value(shown: string, truthy: bool)

  /** A JavaScript string: truthy exactly when it is not empty. */
  function Str(s: string): Value {
    Value(s, s != [])
  }

  /** `undefined`, e.g. a front-matter field that is absent. */
  const Undefined: Value := Value("undefined", false)

  predicate IsDigit(c: char) {
    '0' <= c <= '9'
  }

  /** Decimal text of a non-negative integer, as `String(n)` gives it: one or
      more digits, with no leading zero unless `n` is zero. */
  function Decimal(n: nat): (r: string)
    ensures |r| > 0 && forall i :: 0 <= i < |r| ==> IsDigit(r[i])
    ensures r[0] == '0' ==> n == 0
    decreases n
  {
    var digit := ['0' + (n % 10) as char];
    if n < 10 then digit else Decimal(n / 10) + digit
  }

  /** The number a string of decimal digits denotes. */
  function DigitsValue(s: string): nat
    requires forall i :: 0 <= i < |s| ==> IsDigit(s[i])
  {
    if s == [] then 0
    else
      assert IsDigit(s[|s| - 1]);
      DigitsValue(s[..|s| - 1]) * 10 + (s[|s| - 1] as int - '0' as int)
  }

  /** `String(n)` spells `n`: reading the digits back gives `n`. */
  lemma {:induction false} DecimalRoundTrip(n: nat)
    ensures DigitsValue(Decimal(n)) == n
    decreases n
  {
    if n >= 10 {
      DecimalRoundTrip(n / 10);
      var r := Decimal(n);
      assert r[..|r| - 1] == Decimal(n / 10);
    }
  }

  /** A JavaScript number holding a non-negative integer. */
  function Number(n: nat): Value {
    Value(Decimal(n), n != 0)
  }
}
