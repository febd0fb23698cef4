/** The few JavaScript value semantics the catalog relies on when it derives a
    product's identity: truthiness, the `||` operator and `String(...)`. */
module JsValues {

  /** A scalar JavaScript value as found in a product's `id` or `itemId` field.
      Numbers are integral here. */
  datatype JsValue = Undefined | Str(s: string) | Num(n: int)

  /** JavaScript truthiness: `undefined`, `""` and `0` are falsy. */
  predicate Truthy(v: JsValue)
    ensures Truthy(v) <==> v != Undefined && v != Str("") && v != Num(0)
  {
    match v
    case Undefined => false
    case Str(s) => s != ""
    case Num(n) => n != 0
  }

  /** `a || b`: the left operand when it is truthy, otherwise the right one. */
  function Or(a: JsValue, b: JsValue): (r: JsValue)
    ensures Truthy(r) <==> Truthy(a) || Truthy(b)
    ensures Truthy(a) ==> r == a
    ensures !Truthy(a) ==> r == b
  {
    if Truthy(a) then a else b
  }

  /** The decimal digit of `d`. */
  function DigitChar(d: nat): (c: char)
    requires d < 10
    ensures '0' <= c <= '9'
    ensures c as int - '0' as int == d
  {
    ('0' as int + d) as char
  }

  /** The decimal numeral of `n`, without leading zeros. */
  function Decimal(n: nat): (r: string)
    ensures |r| >= 1
    ensures forall i :: 0 <= i < |r| ==> '0' <= r[i] <= '9'
    ensures n >= 10 ==> |r| >= 2
  {
    if n < 10 then [DigitChar(n)] else Decimal(n / 10) + [DigitChar(n % 10)]
  }

  /** Two numbers with the same numeral are equal. */
  lemma {:induction false} DecimalInjective(a: nat, b: nat)
    requires Decimal(a) == Decimal(b)
    ensures a == b
  {
    if a >= 10 && b >= 10 {
      var da, db := Decimal(a), Decimal(b);
      assert da[|da| - 1] == DigitChar(a % 10);
      assert db[|db| - 1] == DigitChar(b % 10);
      assert da[..|da| - 1] == Decimal(a / 10);
      assert db[..|db| - 1] == Decimal(b / 10);
      DecimalInjective(a / 10, b / 10);
    } else if a < 10 && b < 10 {
      assert Decimal(a)[0] == DigitChar(a);
      assert Decimal(b)[0] == DigitChar(b);
    }
  }

  /** `String(v)`: `"undefined"`, the string itself, or the decimal numeral,
      which starts with `-` exactly for a negative number. */
  function ToJsString(v: JsValue): (r: string)
    ensures v.Undefined? ==> r == "undefined"
    ensures v.Str? ==> r == v.s
    ensures v.Num? ==> |r| >= 1 && (r[0] == '-' <==> v.n < 0)
    ensures Truthy(v) ==> r != ""
  {
    match v
    case Undefined => "undefined"
    case Str(s) => s
    case Num(n) => if n < 0 then "-" + Decimal(-n) else Decimal(n)
  }

  /** Distinct numeric ids have distinct identity strings. */
  lemma NumberStringsInjective(a: int, b: int)
    requires ToJsString(Num(a)) == ToJsString(Num(b))
    ensures a == b
  {
    var sa, sb := ToJsString(Num(a)), ToJsString(Num(b));
    if a < 0 {
      assert b < 0 by { assert sa[0] == '-'; }
      assert sa[1..] == Decimal(-a);
      assert sb[1..] == Decimal(-b);
      DecimalInjective(-a, -b);
    } else {
      assert b >= 0 by { assert sa[0] != '-'; }
      DecimalInjective(a, b);
    }
  }
}
