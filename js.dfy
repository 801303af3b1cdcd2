/** JavaScript values as they reach the application from JSON bodies and
    document-store snapshots, with the coercions the code applies to them:
    truthiness (`||`, `!`), nullishness (`??`), `String(v)` and `Number(v)`.
    Numbers are integral here; fractions and NaN are not values of this model. */
module Js {

  datatype Option<+T> = None | Some(value: T) {
    function GetOr(default: T): T {
      if Some? then value else default
    }
  }

  /** A dynamically typed value. A Firestore `Timestamp` carries its instant
      in milliseconds since the epoch and the text `toDate().toISOString()`
      gives for it. */
  datatype Value =
    | Undefined
    | Null
    | Bool(b: bool)
    | Num(n: int)
    | Str(s: string)
    | Timestamp(millis: int, iso: string)
    | Object

  /** `!!v` */
  predicate Truthy(v: Value) {
    match v
    case Undefined => false
    case Null => false
    case Bool(b) => b
    case Num(n) => n != 0
    case Str(s) => s != ""
    case _ => true
  }

  /** `v === null || v === undefined`, the values `??` replaces */
  predicate Nullish(v: Value) {
    v.Undefined? || v.Null?
  }

  /** `s || d` for an optional string field: missing and empty both give `d` */
  function OrElse(s: Option<string>, d: string): (r: string)
    ensures s.Some? && s.value != "" ==> r == s.value
    ensures s.None? || s.value == "" ==> r == d
  {
    if s.Some? && s.value != "" then s.value else d
  }

  // ---------------------------------------------------------------------
  // Decimal digits

  predicate IsDigit(c: char) {
    '0' <= c <= '9'
  }

  predicate AllDigits(s: string) {
    forall i :: 0 <= i < |s| ==> IsDigit(s[i])
  }

  function Digit(d: nat): (c: char)
    requires d < 10
    ensures IsDigit(c) && c as int - '0' as int == d
  {
    ('0' as int + d) as char
  }

  /** The value of a string of decimal digits, most significant first */
  function DigitsValue(s: string): nat
    requires AllDigits(s)
  {
    if s == [] then 0
    else DigitsValue(s[..|s| - 1]) * 10 + (s[|s| - 1] as int - '0' as int)
  }

  /** `String(n)` for a non-negative integer */
  function Decimal(n: nat): (s: string)
    ensures |s| >= 1 && AllDigits(s)
    ensures n < 10 <==> |s| == 1
    ensures 10 <= n < 100 <==> |s| == 2
    ensures s[0] == '0' ==> n == 0
  {
    if n < 10 then [Digit(n)] else Decimal(n / 10) + [Digit(n % 10)]
  }

  lemma {:induction false} DecimalRoundTrip(n: nat)
    ensures DigitsValue(Decimal(n)) == n
  {
    if n >= 10 {
      DecimalRoundTrip(n / 10);
      var s := Decimal(n);
      assert s[..|s| - 1] == Decimal(n / 10);
    }
  }

  /** A number from 1000 to 9999 has four digits. */
  lemma FourDigits(n: nat)
    requires 1000 <= n < 10000
    ensures |Decimal(n)| == 4
  {
    assert |Decimal(n / 10)| == |Decimal(n / 10 / 10)| + 1;
  }

  /** `String(n)` for any integer */
  function IntString(n: int): (s: string)
    ensures |s| >= 1
    ensures s[0] == '-' <==> n < 0
  {
    if n < 0 then "-" + Decimal(-n) else Decimal(n)
  }

  /** `Number(s)` for a string: the empty string is 0, an optionally signed
      run of decimal digits is its value; None stands for NaN. */
  function StringToNumber(s: string): Option<int> {
    if s == "" then Some(0)
    else if (s[0] == '-' || s[0] == '+') && |s| > 1 && AllDigits(s[1..]) then
      var magnitude: int := DigitsValue(s[1..]);
      Some(if s[0] == '-' then -magnitude else magnitude)
    else if AllDigits(s) then Some(DigitsValue(s))
    else None
  }

  /** `Number(v)`; None stands for NaN */
  function ToNumber(v: Value): Option<int> {
    match v
    case Undefined => None
    case Null => Some(0)
    case Bool(b) => Some(if b then 1 else 0)
    case Num(n) => Some(n)
    case Str(s) => StringToNumber(s)
    case _ => None
  }

  /** `String(v)`; a Firestore Timestamp prints its whole seconds and the
      nanoseconds that remain. */
  function ToJsString(v: Value): string {
    match v
    case Undefined => "undefined"
    case Null => "null"
    case Bool(b) => if b then "true" else "false"
    case Num(n) => IntString(n)
    case Str(s) => s
    case Timestamp(ms, _) =>
      "Timestamp(seconds=" + IntString(ms / 1000) + ", nanoseconds=" + IntString(ms % 1000 * 1000000) + ")"
    case Object => "[object Object]"
  }

  /** `Number(String(n)) === n` for every integer */
  lemma NumberOfStringOfInt(n: int)
    ensures ToNumber(Str(ToJsString(Num(n)))) == Some(n)
  {
    var s := IntString(n);
    if n < 0 {
      assert s[1..] == Decimal(-n);
      DecimalRoundTrip(-n);
      assert StringToNumber(s) == Some(n);
    } else {
      DecimalRoundTrip(n);
      assert s[0] != '-' && s[0] != '+';
      assert StringToNumber(s) == Some(DigitsValue(s));
    }
  }

  // ---------------------------------------------------------------------
  // Two-digit padding used for calendar dates and times of day

  /** `n < 10 ? "0" + n : "" + n` */
  function Pad(n: nat): (s: string)
    ensures AllDigits(s)
    ensures n < 100 ==> |s| == 2 && DigitsValue(s) == n
    ensures n < 100 ==> (s[0] == '0' <==> n < 10)
    ensures n >= 100 ==> s == Decimal(n)
  {
    DecimalRoundTrip(n);
    if n < 10 then
      var s := "0" + Decimal(n);
      assert s[..1] == "0";
      s
    else Decimal(n)
  }

  /** Every two-digit text is the padding of its own value. */
  lemma PadReadsBack(s: string)
    requires |s| == 2 && AllDigits(s)
    ensures DigitsValue(s) < 100 && Pad(DigitsValue(s)) == s
  {
    TwoDigitsValue(s);
    var p := Pad(DigitsValue(s));
    TwoDigitsValue(p);
    assert IsDigit(p[0]) && IsDigit(p[1]) && IsDigit(s[0]) && IsDigit(s[1]);
    assert p[0] == s[0] && p[1] == s[1];
  }

  lemma TwoDigitsValue(s: string)
    requires |s| == 2 && AllDigits(s)
    ensures DigitsValue(s) == (s[0] as int - '0' as int) * 10 + (s[1] as int - '0' as int)
  {
    var first := s[..1];
    assert first[..0] == [];
    assert DigitsValue(first) == s[0] as int - '0' as int;
  }
}
