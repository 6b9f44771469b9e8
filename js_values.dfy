/** JavaScript values as the attendance code sees them, with the operators it
    applies to them: `??`, `||`, property access, `String(x)` and `Number(s)`. */
module JsValues {
  import opened Options
  import opened JsText

  /** A JavaScript value. A number is the decimal `units / 10^scale`, which
      is how every number reaching this code (JSON, the database driver, the
      location provider) is written. */
  datatype JsVal =
    | Undefined
    | Null
    | Bool(b: bool)
    | Num(units: int, scale: nat)
    | Str(s: string)
    | Arr(items: seq<JsVal>)
    | Obj(fields: map<string, JsVal>)

  /** `v === null || typeof v === 'undefined'` */
  predicate IsNullish(v: JsVal) {
    v.Undefined? || v.Null?
  }

  /** JavaScript truthiness (`!!v`). */
  predicate Truthy(v: JsVal) {
    match v
    case Undefined => false
    case Null => false
    case Bool(b) => b
    case Num(u, _) => u != 0
    case Str(s) => s != ""
    case _ => true
  }

  /** `v === 0` (also true of `-0`). */
  predicate IsZero(v: JsVal) {
    v.Num? && v.units == 0
  }

  /** `v?.key`. A property of anything but an object (including the ones
      this code reads on arrays and primitives) is `undefined`. */
  function Prop(v: JsVal, key: string): JsVal {
    if v.Obj? && key in v.fields then v.fields[key] else Undefined
  }

  /** `a || b` */
  function Or(a: JsVal, b: JsVal): JsVal {
    if Truthy(a) then a else b
  }

  /** `a ?? b` */
  function Nullish(a: JsVal, b: JsVal): JsVal {
    if IsNullish(a) then b else a
  }

  /** The position of the first of `keys` whose property on `v` is neither
      `null` nor `undefined`, or `|keys|` when there is none. */
  function FirstPresent(v: JsVal, keys: seq<string>): (k: nat)
    ensures k <= |keys|
    ensures forall j | 0 <= j < k :: IsNullish(Prop(v, keys[j]))
    ensures k < |keys| ==> !IsNullish(Prop(v, keys[k]))
  {
    if |keys| == 0 then 0
    else if !IsNullish(Prop(v, keys[0])) then 0
    else 1 + FirstPresent(v, keys[1..])
  }

  /** The alias chain `v[keys[0]] ?? v[keys[1]] ?? … ?? fallback`: the value
      of the first alias that is present, else the fallback. */
  function Coalesce(v: JsVal, keys: seq<string>, fallback: JsVal): (r: JsVal)
    ensures var k := FirstPresent(v, keys);
            r == if k < |keys| then Prop(v, keys[k]) else fallback
  {
    if |keys| == 0 then fallback
    else Nullish(Prop(v, keys[0]), Coalesce(v, keys[1..], fallback))
  }

  /** A chain with a non-nullish fallback never yields a nullish value. */
  lemma CoalesceNotNullish(v: JsVal, keys: seq<string>, fallback: JsVal)
    requires !IsNullish(fallback)
    ensures !IsNullish(Coalesce(v, keys, fallback))
  {
  }

  // ---------------------------------------------------------------- String(x)

  /** The number `units / 10^scale` as a real. */
  function NumValue(units: int, scale: nat): real {
    units as real / Pow10(scale) as real
  }

  /** The shortest decimal for the same number: trailing fraction zeros
      dropped (CanonicalValue shows the number is the same). */
  function Canonical(units: int, scale: nat): (r: (int, nat))
    ensures r.1 <= scale
    ensures r.1 > 0 ==> r.0 % 10 != 0
    decreases scale
  {
    if scale > 0 && units % 10 == 0 then Canonical(units / 10, scale - 1)
    else (units, scale)
  }

  /** Dropping trailing zeros keeps the value. */
  lemma {:induction false} CanonicalValue(units: int, scale: nat)
    ensures var r := Canonical(units, scale); NumValue(r.0, r.1) == NumValue(units, scale)
    decreases scale
  {
    if scale > 0 && units % 10 == 0 {
      CanonicalValue(units / 10, scale - 1);
      ScaleDown(units / 10, scale - 1);
      assert 10 * (units / 10) == units;
    }
  }

  /** Dropping a trailing zero digit and one place of scale keeps the value. */
  lemma ScaleDown(q: int, s: nat)
    ensures NumValue(10 * q, s + 1) == NumValue(q, s)
  {
    var p := Pow10(s) as real;
    assert Pow10(s + 1) as real == 10.0 * p;
    var x := q as real / p;
    assert x * p == q as real;
    assert x * (10.0 * p) == (10 * q) as real;
  }

  /** `String(n)` for a number written in positional notation. */
  function NumToStr(units: int, scale: nat): string {
    var (u, s) := Canonical(units, scale);
    DecimalText(u, s)
  }

  /** The text `[-]digits[.digits]` of `u / 10^s`, with exactly `s` fraction digits. */
  function DecimalText(u: int, s: nat): string {
    if s == 0 then IntToString(u)
    else
      var a: nat := if u < 0 then -u else u;
      (if u < 0 then "-" else "") + FractionText(a, s)
  }

  /** The unsigned text `a / 10^s` with exactly `s` fraction digits. */
  function FractionText(a: nat, s: nat): string
    requires s > 0
  {
    var p := Pow10(s);
    DivMod(a, p);
    NatToString(a / p) + "." + PadZeros(NatToString(a % p), s)
  }

  /** `String(v)`. */
  function ToStr(v: JsVal): string {
    match v
    case Undefined => "undefined"
    case Null => "null"
    case Bool(b) => if b then "true" else "false"
    case Num(u, s) => NumToStr(u, s)
    case Str(s) => s
    case Arr(items) => ItemsText(items)
    case Obj(_) => "[object Object]"
  }

  /** `items.join(',')`: each item's text, `null` and `undefined` as empty. */
  function ItemsText(items: seq<JsVal>): string
    decreases items
  {
    if |items| == 0 then ""
    else
      var first := if IsNullish(items[0]) then "" else ToStr(items[0]);
      if |items| == 1 then first else first + "," + ItemsText(items[1..])
  }

  /** `v === null || typeof v === 'undefined' ? '' : String(v).trim()`, the
      idiom the screen and the controller use to read a text field. */
  function TrimmedText(v: JsVal): (r: string)
    ensures Unpadded(r)
    ensures IsNullish(v) ==> r == ""
    ensures v.Str? ==> r == Trim(v.s)
  {
    if IsNullish(v) then "" else Trim(ToStr(v))
  }

  /** The first of `keys` present on `v` exists, and its text trims to `text`. */
  predicate FirstAliasTrimsTo(v: JsVal, keys: seq<string>, text: string) {
    exists k | 0 <= k < |keys| ::
      && (forall j | 0 <= j < k :: IsNullish(Prop(v, keys[j])))
      && !IsNullish(Prop(v, keys[k]))
      && Trim(ToStr(Prop(v, keys[k]))) == text
  }

  /** Reading an alias chain with a `null` fallback and trimming it gives a
      non-empty `text` exactly when the first present alias trims to it. */
  lemma CoalesceTrimsTo(v: JsVal, keys: seq<string>, text: string)
    requires text != ""
    ensures TrimmedText(Coalesce(v, keys, Null)) == text <==> FirstAliasTrimsTo(v, keys, text)
  {
    var k := FirstPresent(v, keys);
    if FirstAliasTrimsTo(v, keys, text) {
      var k' :| 0 <= k' < |keys|
        && (forall j | 0 <= j < k' :: IsNullish(Prop(v, keys[j])))
        && !IsNullish(Prop(v, keys[k']))
        && Trim(ToStr(Prop(v, keys[k']))) == text;
      assert k' == k;
    }
  }

  // ---------------------------------------------------------------- Number(s)

  /** The length of the run of decimal digits that starts `s`. */
  function DigitRun(s: string): (k: nat)
    ensures k <= |s| && AllDigits(s[..k])
    ensures forall j | 0 <= j < k :: IsDigit(s[j])
    ensures k < |s| ==> !IsDigit(s[k])
  {
    if s != [] && IsDigit(s[0]) then
      var k := 1 + DigitRun(s[1..]);
      assert s[..k] == [s[0]] + s[1..][..k - 1];
      k
    else 0
  }

  /** An unsigned decimal literal `digits`, `digits.`, `.digits` or
      `digits.digits` (at least one digit), as the pair (numerator, scale)
      of the decimal `numerator / 10^scale` it denotes. */
  function UnsignedDecimal(b: string): Option<(nat, nat)> {
    var k := DigitRun(b);
    if k == |b| then
      if k > 0 then Some((DigitsValue(b), 0)) else None
    else if b[k] == '.' && AllDigits(b[k + 1..]) && (k > 0 || k + 1 < |b|) then
      var n := |b| - k - 1;
      Some((DigitsValue(b[..k]) * Pow10(n) + DigitsValue(b[k + 1..]), n))
    else None
  }

  /** `Number(text)` for a string; `None` stands for NaN. The empty (or
      all-blank) string is 0; exponent, hexadecimal and `Infinity` forms are
      not decimal literals here and read as NaN. */
  function NumberOf(text: string): Option<real> {
    var t := Trim(text);
    if t == "" then Some(0.0)
    else if t[0] == '-' then
      match UnsignedDecimal(t[1..])
      case Some((m, n)) => Some(NumValue(-(m as int), n))
      case None => None
    else
      match UnsignedDecimal(if t[0] == '+' then t[1..] else t)
      case Some((m, n)) => Some(NumValue(m, n))
      case None => None
  }

  /** `s.replace(from, to)` with a one-character string pattern: only the
      first occurrence is replaced. */
  function ReplaceFirst(s: string, from: char, to: char): (r: string)
    ensures |r| == |s|
    ensures from !in s ==> r == s
  {
    if s == [] then []
    else if s[0] == from then [to] + s[1..]
    else [s[0]] + ReplaceFirst(s[1..], from, to)
  }

  // ---------------------------------------------------------------- round trip

  lemma {:induction false} DigitRunAll(s: string)
    requires AllDigits(s)
    ensures DigitRun(s) == |s|
  {
  }

  /** `i.f` reads as the decimal `(i * 10^|f| + f) / 10^|f|`. */
  lemma {:induction false} DecimalPointValue(i: string, f: string)
    requires AllDigits(i) && AllDigits(f) && |i| > 0
    ensures UnsignedDecimal(i + "." + f)
         == Some((DigitsValue(i) * Pow10(|f|) + DigitsValue(f), |f|))
  {
    var b := i + "." + f;
    var k := DigitRun(b);
    assert !IsDigit(b[|i|]);
    assert forall j | 0 <= j < |i| :: IsDigit(b[j]);
    assert k == |i|;
    assert b[..k] == i;
    assert b[k + 1..] == f;
    assert DigitsValue(b[..k]) == DigitsValue(i);
    assert DigitsValue(b[k + 1..]) == DigitsValue(f);
    var r := UnsignedDecimal(b);
    assert r.Some? && r.value.1 == |f|;
    assert r.value.0 == DigitsValue(i) * Pow10(|f|) + DigitsValue(f);
  }

  /** The unsigned fraction text reads back as `a / 10^s`. */
  lemma {:induction false} FractionTextValue(a: nat, s: nat)
    requires s > 0
    ensures UnsignedDecimal(FractionText(a, s)) == Some((a, s))
  {
    var p := Pow10(s);
    var q, m := a / p, a % p;
    DivMod(a, p);
    var i := NatToString(q);
    var f0 := NatToString(m);
    NatToStringLength(m, s);
    var f := PadZeros(f0, s);
    assert f == Zeros(s - |f0|) + f0;
    LeadingZerosValue(s - |f0|, f0);
    NatToStringValue(m);
    NatToStringValue(q);
    assert |f| == s && DigitsValue(f) == m && DigitsValue(i) == q;
    assert FractionText(a, s) == i + "." + f;
    DecimalPointValue(i, f);
  }

  lemma DivMod(a: nat, p: nat)
    requires p > 0
    ensures a / p >= 0 && 0 <= a % p < p
    ensures a / p * p + a % p == a
  {
  }

  /** A numeral reads back as its integer. */
  lemma NumeralValue(x: nat)
    ensures UnsignedDecimal(NatToString(x)) == Some((x, 0))
  {
    DigitRunAll(NatToString(x));
    NatToStringValue(x);
  }

  /** An unsigned literal that starts and ends with a digit reads the same
      through `Number`. */
  lemma {:induction false} UnsignedValue(b: string, m: nat, n: nat)
    requires b != [] && IsDigit(b[0]) && IsDigit(b[|b| - 1])
    requires UnsignedDecimal(b) == Some((m, n))
    ensures NumberOf(b) == Some(NumValue(m, n))
  {
    assert Unpadded(b);
    TrimUnpadded(b);
    assert b[0] != '-' && b[0] != '+';
  }

  /** The same literal after a minus sign reads as the negated value. */
  lemma {:induction false} NegatedValue(b: string, m: nat, n: nat)
    requires b != [] && IsDigit(b[0]) && IsDigit(b[|b| - 1])
    requires UnsignedDecimal(b) == Some((m, n))
    ensures NumberOf("-" + b) == Some(NumValue(-(m as int), n))
  {
    var t := "-" + b;
    assert t[0] == '-' && t[|t| - 1] == b[|b| - 1];
    assert Unpadded(t);
    TrimUnpadded(t);
    assert t[1..] == b;
  }

  /** Reading back the text of a decimal gives its value. */
  lemma {:induction false} DecimalTextValue(u: int, s: nat)
    ensures NumberOf(DecimalText(u, s)) == Some(NumValue(u, s))
  {
    var a: nat := if u < 0 then -u else u;
    var b := if s == 0 then NatToString(a) else FractionText(a, s);
    if s == 0 {
      NumeralValue(a);
    } else {
      FractionTextValue(a, s);
      var i, f := NatToString(a / Pow10(s)), PadZeros(NatToString(a % Pow10(s)), s);
      assert b == i + "." + f;
      assert b[0] == i[0] && b[|b| - 1] == f[|f| - 1];
    }
    if u < 0 {
      NegatedValue(b, a, s);
      assert DecimalText(u, s) == "-" + b;
    } else {
      UnsignedValue(b, a, s);
      assert DecimalText(u, s) == b;
    }
  }

  /** `Number(String(n))` gives back `n`: printing a number and reading it
      again is the identity, which is what `toNumber` relies on when it
      stringifies a numeric coordinate. */
  lemma {:induction false} NumberOfNumToStr(units: int, scale: nat)
    ensures NumberOf(NumToStr(units, scale)) == Some(NumValue(units, scale))
  {
    var (u, s) := Canonical(units, scale);
    DecimalTextValue(u, s);
    CanonicalValue(units, scale);
  }
}
