/**
 The JavaScript values that reach the handlers from a JSON request body or a
 live-channel payload, with the three coercions the handlers apply to them:
 truthiness (`!x`, `x || d`), `String(x)` (template literals and `parseInt`),
 and `parseInt(x)` with no radix.
 */
module JsValues {
  import opened Wrappers
  import opened Text

  /** `Number.MAX_SAFE_INTEGER`, 2^53 - 1. */
  const MaxSafeInteger: int := 0x1F_FFFF_FFFF_FFFF

  /** The numbers a payload can carry in this model: the safe integers, every one of
      which a double holds exactly and `String()` writes in plain decimal. */
  type SafeInt = n: int | -MaxSafeInteger <= n <= MaxSafeInteger

  /** A field of a payload. `Undefined` is a missing field. Numbers are safe integers;
      an object is its own properties, which, coming from JSON, are never functions. */
  datatype JsValue =
    | Undefined
    | Null
    | Bool(b: bool)
    | Num(n: SafeInt)
    | Str(s: string)
    | Arr(items: seq<JsValue>)
    | Obj(props: map<string, JsValue>)

  /** JavaScript truthiness: `undefined`, `null`, `false`, `0` and `""` are falsy. */
  predicate Truthy(v: JsValue) {
    match v
    case Undefined => false
    case Null => false
    case Bool(b) => b
    case Num(n) => n != 0
    case Str(s) => s != []
    case Arr(_) => true
    case Obj(_) => true
  }

  /** `value.length` as the live-channel validation reads it: strings and arrays
      have one, every other value yields `undefined`. */
  function LengthOf(v: JsValue): Option<nat> {
    match v
    case Str(s) => Some(|s|)
    case Arr(items) => Some(|items|)
    case _ => None
  }

  /** `String(value)` throws a TypeError: an object with an own `toString` property
      that is not a function (so `valueOf`, which returns the object itself, gives no
      primitive either), or an array holding such a value, since `join` converts every
      element that is not `undefined` or `null`. */
  predicate StringThrows(v: JsValue)
    decreases v
  {
    match v
    case Obj(props) => "toString" in props
    case Arr(items) => exists k :: 0 <= k < |items| && StringThrows(items[k])
    case _ => false
  }

  /** `String(value)`, also what `${value}` produces, for a value it does not throw on. */
  function ToString(v: JsValue): string
    requires !StringThrows(v)
    decreases v, 1
  {
    match v
    case Undefined => "undefined"
    case Null => "null"
    case Bool(b) => if b then "true" else "false"
    case Num(n) => IntToString(n)
    case Str(s) => s
    case Arr(items) => ElementsToString(items)
    case Obj(_) => "[object Object]"
  }

  /** `items.join(",")`, where `undefined` and `null` elements render as empty strings. */
  function ElementsToString(items: seq<JsValue>): string
    requires forall k :: 0 <= k < |items| ==> !StringThrows(items[k])
    decreases items, 0
  {
    if items == [] then []
    else
      var head := if items[0].Undefined? || items[0].Null? then [] else ToString(items[0]);
      if |items| == 1 then head else head + "," + ElementsToString(items[1..])
  }

  /** `v || {}`: the payload itself when truthy, otherwise an empty object. */
  function OrEmpty(v: JsValue): (r: JsValue)
    ensures Truthy(r)
    ensures Truthy(v) ==> r == v
    ensures !Truthy(v) ==> r == Obj(map[])
  {
    if Truthy(v) then v else Obj(map[])
  }

  /** The property `name` of a value, as `const { name } = v` reads it, for the
      property names the handlers read, which no string, array or primitive has. */
  function Property(v: JsValue, name: string): JsValue {
    match v
    case Obj(props) => if name in props then props[name] else Undefined
    case _ => Undefined
  }

  /** `const { name } = data || {}`, for the two fields the handlers read: a missing,
      falsy or non-object payload yields `undefined`. */
  lemma PayloadField(data: JsValue, name: string)
    requires name == "question" || name == "documentId"
    ensures Property(OrEmpty(data), name) == (if data.Obj? && name in data.props then data.props[name] else Undefined)
  {
  }

  /** The value of a digit character in the given radix (10 or 16), if it is one. */
  function DigitValue(c: char, radix: nat): Option<nat> {
    if '0' <= c <= '9' && (c as int - '0' as int) < radix then Some(c as int - '0' as int)
    else if radix == 16 && 'a' <= c <= 'f' then Some(c as int - 'a' as int + 10)
    else if radix == 16 && 'A' <= c <= 'F' then Some(c as int - 'A' as int + 10)
    else None
  }

  /** The longest prefix of `s` made of digits of the radix. */
  function DigitPrefix(s: string, radix: nat): (r: string)
    ensures |r| <= |s| && r == s[..|r|]
    ensures forall k :: 0 <= k < |r| ==> DigitValue(r[k], radix).Some?
    ensures |r| == |s| || DigitValue(s[|r|], radix).None?
  {
    if s != [] && DigitValue(s[0], radix).Some? then [s[0]] + DigitPrefix(s[1..], radix) else []
  }

  /** The number a string of digits denotes, most significant digit first. */
  function DigitsValue(ds: string, radix: nat): nat
    requires forall k :: 0 <= k < |ds| ==> DigitValue(ds[k], radix).Some?
  {
    if ds == [] then 0
    else DigitsValue(ds[..|ds| - 1], radix) * radix + DigitValue(ds[|ds| - 1], radix).value
  }

  /** The unsigned part of `parseInt`: a `0x`/`0X` prefix selects radix 16, then the
      longest run of digits is read; `None` (NaN) when there is no digit. */
  function ParseUnsigned(u: string): Option<nat> {
    var hex := |u| >= 2 && u[0] == '0' && (u[1] == 'x' || u[1] == 'X');
    var radix := if hex then 16 else 10;
    var ds := DigitPrefix(if hex then u[2..] else u, radix);
    if ds == [] then None else Some(DigitsValue(ds, radix))
  }

  /** `parseInt(s)` with no radix: leading white space skipped and one optional sign
      read before the unsigned part; `None` is NaN. */
  function ParseInt(s: string): Option<int> {
    var t := TrimStart(s);
    if t != [] && t[0] == '-' then
      match ParseUnsigned(t[1..])
      case None => None
      case Some(v) => Some(0 - v)
    else if t != [] && t[0] == '+' then
      match ParseUnsigned(t[1..])
      case None => None
      case Some(v) => Some(v as int)
    else
      match ParseUnsigned(t)
      case None => None
      case Some(v) => Some(v as int)
  }

  /** A string of decimal digits is its own longest digit prefix in radix 10. */
  lemma {:induction false} DigitPrefixOfDigits(s: string)
    requires forall k :: 0 <= k < |s| ==> IsDecimalDigit(s[k])
    ensures DigitPrefix(s, 10) == s
    decreases |s|
  {
    if s != [] {
      DigitPrefixOfDigits(s[1..]);
    }
  }

  /** The digits of `NatToString(n)` denote `n`. */
  lemma {:induction false} DigitsValueOfNatToString(n: nat)
    ensures forall k :: 0 <= k < |NatToString(n)| ==> DigitValue(NatToString(n)[k], 10).Some?
    ensures DigitsValue(NatToString(n), 10) == n
    decreases n
  {
    NatToStringDigits(n);
    var ds := NatToString(n);
    if n >= 10 {
      DigitsValueOfNatToString(n / 10);
      assert ds[..|ds| - 1] == NatToString(n / 10);
    }
  }

  /** The unsigned reader recovers every natural number from its decimal rendering. */
  lemma ParseUnsignedOfNatToString(m: nat)
    ensures ParseUnsigned(NatToString(m)) == Some(m)
  {
    var digits := NatToString(m);
    NatToStringDigits(m);
    DigitsValueOfNatToString(m);
    DigitPrefixOfDigits(digits);
    var hex := |digits| >= 2 && digits[0] == '0' && (digits[1] == 'x' || digits[1] == 'X');
    assert !hex by {
      if |digits| >= 2 {
        assert IsDecimalDigit(digits[1]);
      }
    }
    assert DigitPrefix(digits, 10) == digits;
  }

  /** `parseInt` reads back the decimal rendering of every integer. */
  lemma ParseIntOfIntToString(n: int)
    ensures ParseInt(IntToString(n)) == Some(n)
  {
    var m: nat := if n < 0 then -n else n;
    var digits := NatToString(m);
    NatToStringDigits(m);
    ParseUnsignedOfNatToString(m);
    var s := IntToString(n);
    assert !IsSpace(s[0]);
    assert TrimStart(s) == s;
    if n < 0 {
      assert s[1..] == digits;
    } else {
      assert s == digits;
    }
  }

  /** Round trip: `parseInt(String(n)) === n` for every number a payload carries, so a
      numeric document id in a request finds the document with that id. */
  lemma ParseIntOfToString(n: SafeInt)
    ensures ParseInt(ToString(Num(n))) == Some(n as int)
  {
    ParseIntOfIntToString(n);
  }
}
