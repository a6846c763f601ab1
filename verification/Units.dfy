/** Values with units of PostgreSQL parameters (patroni/utils.py), in exact arithmetic. */
module Units {
  import opened Wrappers

  // ------------------------------------------------------------------ numbers at the front of a string

  predicate IsSpace(c: char) { c == ' ' || '\t' <= c <= '\r' || '\U{1c}' <= c <= '\U{1f}' }

  function StripLeft(s: string): string {
    if s != "" && IsSpace(s[0]) then StripLeft(s[1..]) else s
  }

  function StripRight(s: string): string {
    if s != "" && IsSpace(s[|s| - 1]) then StripRight(s[..|s| - 1]) else s
  }

  function Strip(s: string): string { StripRight(StripLeft(s)) }

  function DigitValue(c: char): nat {
    if '0' <= c <= '9' then c as int - '0' as int
    else if 'a' <= c <= 'f' then c as int - 'a' as int + 10
    else if 'A' <= c <= 'F' then c as int - 'A' as int + 10
    else 99
  }

  /** How many characters at the front are digits. */
  function Span(s: string, radix: nat): (n: nat)
    ensures n <= |s|
  {
    if s != "" && DigitValue(s[0]) < radix then 1 + Span(s[1..], radix) else 0
  }

  function Number(digits: string, radix: nat): nat {
    if digits == "" then 0
    else Number(digits[..|digits| - 1], radix) * radix + DigitValue(digits[|digits| - 1])
  }

  function SignLength(s: string): (n: nat)
    ensures n <= |s|
  {
    if s != "" && (s[0] == '+' || s[0] == '-') then 1 else 0
  }

  datatype Long = Long(value: Option<int>, rest: string)

  /** `strtol` with base 0: the first of hexadecimal, octal and decimal that matches. */
  function StrToL(text: string, strict: bool): Long {
    var s := Strip(text);
    var long := Magnitude(s[SignLength(s)..]);
    match long.value
    case Some(n) => Long(Some(if s[0] == '-' then -n else n), long.rest)
    case None => Long(if strict then None else Some(1), s)
  }

  function Magnitude(body: string): (long: Long)
    ensures long.value.Some? ==> body != ""
  {
    if "0x" <= body && Span(body[2..], 16) > 0 then
      var n := Span(body[2..], 16);
      Long(Some(Number(body[2..2 + n], 16)), body[2 + n..])
    else if body != "" && body[0] == '0' then
      var n := 1 + Span(body[1..], 8);
      Long(Some(Number(body[..n], 8)), body[n..])
    else if Span(body, 10) > 0 then
      var n := Span(body, 10);
      Long(Some(Number(body[..n], 10)), body[n..])
    else
      Long(None, body)
  }

  function Power10(n: nat): (p: real)
    ensures p > 0.0
  {
    if n == 0 then 1.0 else 10.0 * Power10(n - 1)
  }

  /** The length of a number with an optional decimal point, 0 if there is none. */
  function MantissaLength(s: string): (n: nat)
    ensures n <= |s|
  {
    var i := Span(s, 10);
    if i < |s| && s[i] == '.' && Span(s[i + 1..], 10) > 0 then i + 1 + Span(s[i + 1..], 10) else i
  }

  function Mantissa(s: string): real {
    var i := Span(s, 10);
    if i < |s| then Decimals(Number(s[..i], 10), Number(s[i + 1..], 10), |s| - i - 1)
    else Number(s, 10) as real
  }

  function Decimals(whole: nat, fraction: nat, places: nat): real {
    whole as real + fraction as real / Power10(places)
  }

  datatype Double = Double(value: Option<real>, rest: string)

  /** `strtod`. */
  function StrToD(text: string): Double {
    var s := Strip(text);
    var double := Unsigned(s[SignLength(s)..]);
    match double.value
    case Some(v) => Double(Some(if s[0] == '-' then -v else v), double.rest)
    case None => Double(None, s)
  }

  function Unsigned(body: string): (double: Double)
    ensures double.value.Some? ==> body != ""
  {
    var n := MantissaLength(body);
    if n == 0 then Double(None, body) else WithExponent(Mantissa(body[..n]), body[n..])
  }

  function WithExponent(m: real, tail: string): (double: Double)
    ensures double.value.Some?
  {
    if tail != "" && (tail[0] == 'e' || tail[0] == 'E') then
      var j := SignLength(tail[1..]);
      var k := Span(tail[1 + j..], 10);
      if k == 0 then Double(Some(m), tail)
      else Double(Some(Shifted(m, tail[1] == '-', Number(tail[1 + j..1 + j + k], 10))), tail[1 + j + k..])
    else Double(Some(m), tail)
  }

  function Shifted(m: real, down: bool, places: nat): real {
    if down then m / Power10(places) else m * Power10(places)
  }

  function Decimal(n: nat): string {
    if n < 10 then ['0' + n as char] else Decimal(n / 10) + ['0' + (n % 10) as char]
  }

  function Str(v: int): string { if v < 0 then "-" + Decimal(-v) else Decimal(v) }

  // ------------------------------------------------------------------ units

  datatype Unit = TB | GB | MB | KB | B | Day | Hour | Min | S | Ms | Us

  function Text(u: Unit): string {
    match u
    case TB => "TB" case GB => "GB" case MB => "MB" case KB => "kB" case B => "B"
    case Day => "d" case Hour => "h" case Min => "min" case S => "s" case Ms => "ms" case Us => "us"
  }

  const UNITS: seq<Unit> := [TB, GB, MB, KB, B, Day, Hour, Min, S, Ms, Us]

  function Named(text: string, units: seq<Unit>): Option<Unit> {
    if units == [] then None
    else if text == Text(units[0]) then Some(units[0])
    else Named(text, units[1..])
  }

  predicate IsBase(u: Unit) { u in [B, KB, MB, Ms, S, Min] }

  /** The units of a conversion table in its order, largest first. */
  function Table(base: Unit): seq<Unit>
  {
    if base in [B, KB, MB] then [TB, GB, MB, KB, B]
    else if base in [Ms, S, Min] then [Day, Hour, Min, S, Ms, Us]
    else []
  }

  /** The conversion table: how many `base` one `unit` is. */
  function Factor(unit: Unit, base: Unit): (f: real)
    requires IsBase(base) && unit in Table(base)
    ensures f > 0.0
  {
    match unit
    case TB => (match base case B => 1099511627776.0 case KB => 1073741824.0 case _ => 1048576.0)
    case GB => (match base case B => 1073741824.0 case KB => 1048576.0 case _ => 1024.0)
    case MB => (match base case B => 1048576.0 case KB => 1024.0 case _ => 1.0)
    case KB => (match base case B => 1024.0 case KB => 1.0 case _ => 1.0 / 1024.0)
    case B => (match base case B => 1.0 case KB => 1.0 / 1024.0 case _ => 1.0 / 1048576.0)
    case Day => (match base case Ms => 86400000.0 case S => 86400.0 case _ => 1440.0)
    case Hour => (match base case Ms => 3600000.0 case S => 3600.0 case _ => 60.0)
    case Min => (match base case Ms => 60000.0 case S => 60.0 case _ => 1.0)
    case S => (match base case Ms => 1000.0 case S => 1.0 case _ => 1.0 / 60.0)
    case Ms => (match base case Ms => 1.0 case S => 1.0 / 1000.0 case _ => 1.0 / 60000.0)
    case Us => (match base case Ms => 1.0 / 1000.0 case S => 1.0 / 1000000.0 case _ => 1.0 / 60000000.0)
  }

  /** `round_order`: the unit that a value in `unit` is rounded to. */
  function Smaller(unit: Unit): Option<Unit> {
    match unit
    case TB => Some(GB) case GB => Some(MB) case MB => Some(KB) case KB => Some(B)
    case Day => Some(Hour) case Hour => Some(Min) case Min => Some(S) case S => Some(Ms) case Ms => Some(Us)
    case B => None case Us => None
  }

  lemma SmallerInTable(unit: Unit, base: Unit)
    requires unit in Table(base) && Smaller(unit).Some?
    ensures Smaller(unit).value in Table(base)
  {}

  /** The rounding of a converted value to the next smaller unit. */
  function ToSmaller(v: real, unit: Unit, base: Unit): real
    requires IsBase(base) && unit in Table(base)
  {
    match Smaller(unit)
    case None => v
    case Some(w) =>
      SmallerInTable(unit, base);
      ToMultiple(v, Factor(w, base))
  }

  function ToMultiple(v: real, step: real): real
    requires step > 0.0
  {
    Round(v / step) as real * step
  }

  function Scaled(v: real, factor: real, multiplier: int): real
    requires multiplier != 0
  {
    v * (factor / multiplier as real)
  }

  /** Python's `round`: to the nearest integer, halves to the even one. */
  function Round(x: real): int {
    var low := x.Floor;
    var part := x - low as real;
    if part < 0.5 || (part == 0.5 && low % 2 == 0) then low else low + 1
  }

  datatype Outcome<T> = Value(value: T) | Invalid | DivisionByZero

  function ConvertToBaseUnit(value: real, unit: string, baseUnit: string): Outcome<real> {
    var base := StrToL(baseUnit, false);
    var u, b := Named(unit, UNITS), Named(base.rest, UNITS);
    if u.None? || b.None? || !IsBase(b.value) || u.value !in Table(b.value) then Invalid
    else if base.value.value == 0 then DivisionByZero
    else
      Value(ToSmaller(Scaled(value, Factor(u.value, b.value), base.value.value), u.value, b.value))
  }

  function ConvertIntFromBaseUnit(value: int, baseUnit: string): Option<string> {
    var base := StrToL(baseUnit, false);
    var b := Named(base.rest, UNITS);
    if b.None? || !IsBase(b.value) then None
    else Print(value * base.value.value, b.value, Table(b.value))
  }

  /** The loop of `convert_int_from_base_unit` over the table. */
  function Print(v: int, base: Unit, units: seq<Unit>): Option<string>
    requires IsBase(base) && forall u <- units :: u in Table(base)
  {
    if units == [] then None
    else if Accepts(v, units[0], base) then
      Some(Str(Quotient(v, Factor(units[0], base))) + Text(units[0]))
    else Print(v, base, units[1..])
  }

  function Quotient(v: int, factor: real): int
    requires factor > 0.0
  {
    Round(v as real / factor)
  }

  predicate Accepts(v: int, unit: Unit, base: Unit)
    requires IsBase(base) && unit in Table(base)
  {
    var f := Factor(unit, base);
    f <= 1.0 || Divides(f.Floor, v)
  }

  predicate Divides(n: int, v: int)
    requires n > 0
  {
    v % n == 0
  }

  /** `parse_int`. */
  function ParseInt(text: string, baseUnit: string): Outcome<int> {
    var long := StrToL(text, true);
    if long.rest != "" && long.rest[0] in ['.', 'e', 'E'] then
      var double := StrToD(text);
      Rounded(double.value, double.rest, baseUnit)
    else
      Rounded(if long.value.Some? then Some(long.value.value as real) else None, long.rest, baseUnit)
  }

  function Rounded(value: Option<real>, rest: string, baseUnit: string): Outcome<int> {
    if value.None? then Invalid
    else if Strip(rest) == "" then Value(Round(value.value))
    else
      match ConvertToBaseUnit(value.value, Strip(rest), baseUnit)
      case Value(v) => Value(Round(v))
      case Invalid => Invalid
      case DivisionByZero => DivisionByZero
  }

  // ------------------------------------------------------------------ printing and reading back

  predicate AllDigits(s: string) { forall i :: 0 <= i < |s| ==> '0' <= s[i] <= '9' }

  lemma DigitReadsBack(digits: string, d: nat)
    requires d < 10
    ensures var s := digits + ['0' + d as char]; Number(s, 10) == Number(digits, 10) * 10 + d
  {
    var s := digits + ['0' + d as char];
    assert s[..|s| - 1] == digits;
  }

  lemma {:induction false} DecimalReadsBack(n: nat)
    ensures Decimal(n) != "" && AllDigits(Decimal(n)) && Number(Decimal(n), 10) == n
    ensures Decimal(n)[0] == '0' <==> n == 0
    ensures n == 0 ==> Decimal(n) == "0"
  {
    DigitReadsBack(if n >= 10 then Decimal(n / 10) else "", n % 10);
    if n >= 10 {
      DecimalReadsBack(n / 10);
      assert Decimal(n) == Decimal(n / 10) + ['0' + (n % 10) as char];
    } else {
      assert Decimal(n) == "" + ['0' + n as char];
    }
    hide Number;
  }

  lemma {:induction false} SpanOfDigits(digits: string, rest: string)
    requires AllDigits(digits)
    requires rest != "" ==> DigitValue(rest[0]) >= 10
    ensures Span(digits + rest, 10) == |digits|
  {
    if digits == "" {
      assert digits + rest == rest;
    } else {
      assert (digits + rest)[1..] == digits[1..] + rest;
      SpanOfDigits(digits[1..], rest);
    }
  }

  /** Nothing at the front or end of a unit's name is a digit, a space or part of a number. */
  lemma TextShape(u: Unit)
    ensures Text(u) != "" && !IsSpace(Text(u)[0]) && !IsSpace(Text(u)[|Text(u)| - 1])
    ensures Strip(Text(u)) == Text(u)
    ensures Text(u)[0] !in ['.', 'e', 'E', 'x', '+', '-'] && (DigitValue(Text(u)[0]) >= 10)
  {}

  lemma TextsDiffer(u: Unit, w: Unit)
    requires u != w
    ensures |Text(u)| != |Text(w)| || Text(u)[0] != Text(w)[0]
  {}

  lemma NameOfText(u: Unit)
    ensures Named(Text(u), UNITS) == Some(u)
  {
    assert u in UNITS;
    NamedText(u, UNITS);
  }

  lemma {:induction false} NamedText(u: Unit, units: seq<Unit>)
    requires u in units
    ensures Named(Text(u), units) == Some(u)
  {
    if units[0] != u {
      TextsDiffer(units[0], u);
      NamedText(u, units[1..]);
    }
  }

  lemma ZeroReadsBack(u: Unit)
    ensures Magnitude("0" + Text(u)) == Long(Some(0), Text(u))
  {
    var body := "0" + Text(u);
    TextShape(u);
    assert body[1] == Text(u)[0] && body[1..] == Text(u);
    assert !("0x" <= body);
    assert Span(body[1..], 8) == 0;
    assert Number(body[..1], 8) == 0 by { assert body[..1][..0] == ""; }
  }

  lemma DecimalMagnitude(n: nat, u: Unit)
    ensures Magnitude(Decimal(n) + Text(u)) == Long(Some(n), Text(u))
  {
    DecimalReadsBack(n);
    TextShape(u);
    if n == 0 {
      ZeroReadsBack(u);
    } else {
      var digits := Decimal(n);
      var body := digits + Text(u);
      assert body[0] == digits[0];
      assert body[..|digits|] == digits && body[|digits|..] == Text(u);
      SpanOfDigits(digits, Text(u));
      hide Decimal, Text, Number, Span;
      assert !("0x" <= body);
    }
  }

  lemma StripKeeps(s: string)
    requires s != "" && !IsSpace(s[0]) && !IsSpace(s[|s| - 1])
    ensures Strip(s) == s
  {}

  lemma StrShape(v: int)
    ensures Str(v) != "" && !IsSpace(Str(v)[0])
    ensures Str(v)[0] == '-' <==> v < 0
    ensures Str(v)[SignLength(Str(v))..] == Decimal(if v < 0 then -v else v)
  {
    DecimalReadsBack(if v < 0 then -v else v);
  }

  lemma {:induction false} StrReadsBack(v: int, u: Unit, strict: bool)
    ensures StrToL(Str(v) + Text(u), strict) == Long(Some(v), Text(u))
  {
    hide Decimal, Text, Str, Magnitude, IsSpace, Strip, Number, Span, DigitValue;
    var s := Str(v) + Text(u);
    StrShape(v);
    TextShape(u);
    DecimalMagnitude(if v < 0 then -v else v, u);
    assert s[0] == Str(v)[0] && s[|s| - 1] == Text(u)[|Text(u)| - 1];
    StripKeeps(s);
    var i := SignLength(s);
    assert i == SignLength(Str(v));
    assert s[i..] == Str(v)[i..] + Text(u);
  }

  /** `x` of the base unit are a whole number of `unit`. */
  ghost predicate Exact(x: int, k: int, unit: Unit, base: Unit)
    requires IsBase(base) && unit in Table(base)
  {
    Amount(k, Factor(unit, base)) == x as real
  }

  function Amount(k: int, factor: real): real { k as real * factor }

  ghost predicate Representable(x: int, unit: Unit, base: Unit)
    requires IsBase(base) && unit in Table(base)
  {
    exists k :: Exact(x, k, unit, base)
  }

  lemma RoundOfInt(k: int)
    ensures Round(k as real) == k
  {}

  lemma WholeFactor(unit: Unit, base: Unit) returns (n: int)
    requires IsBase(base) && unit in Table(base) && Factor(unit, base) >= 1.0
    ensures n >= 1 && Factor(unit, base) == n as real && Factor(unit, base).Floor == n
  {
    n := Factor(unit, base).Floor;
  }

  lemma AcceptedIsExact(x: int, unit: Unit, base: Unit)
    requires IsBase(base) && unit in Table(base) && Factor(unit, base) >= 1.0 && Accepts(x, unit, base)
    ensures Exact(x, Quotient(x, Factor(unit, base)), unit, base)
  {
    hide Factor, Quotient, Amount, Divides, Table, IsBase;
    var n := WholeFactor(unit, base);
    if n == 1 { OneDivides(x); }
    DivideExactly(x, n);
  }

  lemma ExactIsAccepted(x: int, k: int, unit: Unit, base: Unit)
    requires IsBase(base) && unit in Table(base) && Factor(unit, base) >= 1.0 && Exact(x, k, unit, base)
    ensures Accepts(x, unit, base)
  {
    var n := WholeFactor(unit, base);
    hide Factor, Amount, Divides;
    assert x == k * n by { AmountOfInt(k, n); }
    MultipleHasNoRemainder(x, k, n);
  }

  /** The test the printer makes finds the units that represent a value exactly. */
  lemma RepresentableIff(x: int, unit: Unit, base: Unit)
    requires IsBase(base) && unit in Table(base) && Factor(unit, base) >= 1.0
    ensures Representable(x, unit, base) <==> Accepts(x, unit, base)
  {
    if Accepts(x, unit, base) { AcceptedIsExact(x, unit, base); }
    if k :| Exact(x, k, unit, base) { ExactIsAccepted(x, k, unit, base); }
  }

  lemma OneDivides(x: int)
    ensures Divides(1, x)
  {}

  lemma DivideExactly(x: int, n: int)
    requires n >= 1 && Divides(n, x)
    ensures Amount(Quotient(x, n as real), n as real) == x as real
  {
    var k := x / n;
    assert x == k * n;
    Scale(x, k, n);
    RoundOfInt(k);
  }

  lemma AmountOfInt(k: int, n: int)
    ensures Amount(k, n as real) == (k * n) as real
  {}

  lemma ProductAsReal(k: int, n: int)
    ensures (k * n) as real == k as real * n as real
  {}

  lemma Scale(x: int, k: int, n: int)
    requires n >= 1 && x == k * n
    ensures x as real == k as real * n as real && x as real / n as real == k as real
  {
    ProductAsReal(k, n);
  }

  lemma MultipleHasNoRemainder(x: int, k: int, n: int)
    requires n >= 1 && x == k * n
    ensures Divides(n, x)
  {
    var q, r := x / n, x % n;
    assert x == q * n + r;
    var d := k - q;
    assert d * n == r by { assert d * n == k * n - q * n; }
    if d >= 1 { AtLeast(d, n); }
    if d <= -1 { AtLeast(-d, n); }
  }

  lemma AtLeast(d: int, n: int)
    requires d >= 1 && n >= 1
    ensures d * n >= n && -d * n <= -n
  {}

  /** Above the base unit, the next smaller unit is at least the base unit. */
  lemma NextFactor(i: nat, base: Unit)
    requires IsBase(base) && i < |Table(base)| && Factor(Table(base)[i], base) > 1.0
    ensures i + 1 < |Table(base)| && Factor(Table(base)[i + 1], base) >= 1.0
  {}

  /** The printed unit is the largest in the table that represents the value exactly. */
  lemma {:induction false} PrintsLargest(x: int, base: Unit, from: nat) returns (i: nat, k: int)
    requires IsBase(base) && from < |Table(base)| && Factor(Table(base)[from], base) >= 1.0
    requires forall j :: 0 <= j < from ==> !Representable(x, Table(base)[j], base)
    decreases |Table(base)| - from
    ensures from <= i < |Table(base)| && Factor(Table(base)[i], base) >= 1.0
    ensures Print(x, base, Table(base)[from..]) == Some(Str(k) + Text(Table(base)[i]))
    ensures Exact(x, k, Table(base)[i], base)
    ensures forall j :: 0 <= j < i ==> !Representable(x, Table(base)[j], base)
  {
    hide Factor, Table, Text, Str, Quotient, Amount, Divides, IsBase;
    var u := Table(base)[from];
    RepresentableIff(x, u, base);
    if Accepts(x, u, base) {
      i, k := from, Quotient(x, Factor(u, base));
      AcceptedIsExact(x, u, base);
    } else {
      NextFactor(from, base);
      assert Table(base)[from..][1..] == Table(base)[from + 1..];
      i, k := PrintsLargest(x, base, from + 1);
    }
  }

  /** The rounding to the next smaller unit keeps `v`. */
  predicate OnGrid(v: int, unit: Unit, base: Unit)
    requires IsBase(base) && unit in Table(base)
  {
    match Smaller(unit)
    case None => true
    case Some(w) => SmallerInTable(unit, base); Accepts(v, w, base)
  }

  lemma FractionsKeepIntegers(v: int, unit: Unit, base: Unit)
    requires IsBase(base) && unit in Table(base) && Factor(unit, base) >= 1.0
    requires Smaller(unit).Some? && Smaller(unit).value in Table(base) && Factor(Smaller(unit).value, base) < 1.0
    ensures ToSmaller(v as real, unit, base) == v as real
  {
    var f := Factor(Smaller(unit).value, base);
    var n := if base in [B, KB, MB] then 1024 else if base == Min then 60 else 1000;
    assert v as real / f == (v * n) as real;
    RoundOfInt(v * n);
  }

  lemma MultipleKeepsIff(v: int, n: int) returns (r: int)
    requires n >= 1
    ensures ToMultiple(v as real, n as real) == r as real
    ensures r == v <==> Divides(n, v)
  {
    var k := Quotient(v, n as real);
    hide Round, Divides;
    r := k * n;
    ProductAsReal(k, n);
    if Divides(n, v) { DivideExactly(v, n); }
    if r == v { MultipleHasNoRemainder(v, k, n); }
  }

  lemma WholeStepKeepsIff(v: int, unit: Unit, base: Unit) returns (r: int)
    requires IsBase(base) && unit in Table(base)
    requires Smaller(unit).Some? && Smaller(unit).value in Table(base) && Factor(Smaller(unit).value, base) >= 1.0
    ensures ToSmaller(v as real, unit, base) == r as real
    ensures r == v <==> OnGrid(v, unit, base)
  {
    var w := Smaller(unit).value;
    hide Factor, Table, Smaller, Divides, IsBase, ToMultiple;
    var n := WholeFactor(w, base);
    if n == 1 { OneDivides(v); }
    r := MultipleKeepsIff(v, n);
  }

  lemma RoundingKeepsIff(v: int, unit: Unit, base: Unit) returns (r: int)
    requires IsBase(base) && unit in Table(base) && Factor(unit, base) >= 1.0
    ensures ToSmaller(v as real, unit, base) == r as real
    ensures r == v <==> OnGrid(v, unit, base)
  {
    r := v;
    hide Factor, Table, Smaller, Round, Divides;
    if Smaller(unit).Some? {
      SmallerInTable(unit, base);
      if Factor(Smaller(unit).value, base) < 1.0 {
        FractionsKeepIntegers(v, unit, base);
      } else {
        r := WholeStepKeepsIff(v, unit, base);
      }
    }
  }

  lemma ScaledBack(v: int, m: int, k: int, f: real)
    requires m != 0 && Amount(k, f) == (v * m) as real
    ensures Scaled(k as real, f, m) == v as real
  {
    ProductAsReal(v, m);
    assert k as real * (f / m as real) == (k as real * f) / m as real;
  }

  predicate IsBaseUnit(baseUnit: string, m: int, base: Unit) {
    IsBase(base) && StrToL(baseUnit, false) == Long(Some(m), Text(base))
  }

  lemma Converts(value: real, u: Unit, baseUnit: string, m: int, base: Unit)
    requires IsBaseUnit(baseUnit, m, base) && m != 0 && u in Table(base)
    ensures ConvertToBaseUnit(value, Text(u), baseUnit) == Value(ToSmaller(Scaled(value, Factor(u, base), m), u, base))
  {
    hide Factor, Table, Text, StrToL, Named, IsBase, ToSmaller, Scaled;
    NameOfText(base);
    NameOfText(u);
  }

  /** What `parse_int` makes of a printed number and unit. */
  lemma ReadsPrinted(k: int, u: Unit, baseUnit: string)
    ensures ParseInt(Str(k) + Text(u), baseUnit) == Rounded(Some(k as real), Text(u), baseUnit)
    ensures Strip(Text(u)) == Text(u) && Text(u) != ""
  {
    TextShape(u);
    StrReadsBack(k, u, true);
    hide Text, Str, StrToL, StrToD, Strip, Rounded;
  }

  lemma ReadsConverted(v: int, m: int, k: int, u: Unit, baseUnit: string, base: Unit)
    requires IsBaseUnit(baseUnit, m, base) && m != 0 && u in Table(base) && Exact(v * m, k, u, base)
    ensures ParseInt(Str(k) + Text(u), baseUnit) == Value(Round(ToSmaller(v as real, u, base)))
  {
    hide Table, Text, Str, StrToL, Strip, IsBase, ToSmaller, Round, ParseInt, ConvertToBaseUnit, Factor, Scaled;
    ReadsPrinted(k, u, baseUnit);
    Converts(k as real, u, baseUnit, m, base);
    ScaledBack(v, m, k, Factor(u, base));
  }

  /** What is printed reads back as the same value exactly if the value is on the grid of the
      unit below the printed one. A multiplier in the base unit can put it off that grid. */
  lemma RoundTripIff(v: int, baseUnit: string, m: int, base: Unit) returns (i: nat, k: int)
    requires IsBaseUnit(baseUnit, m, base) && m != 0
    ensures i < |Table(base)| && Factor(Table(base)[i], base) >= 1.0
    ensures ConvertIntFromBaseUnit(v, baseUnit) == Some(Str(k) + Text(Table(base)[i]))
    ensures Exact(v * m, k, Table(base)[i], base)
    ensures forall j :: 0 <= j < i ==> !Representable(v * m, Table(base)[j], base)
    ensures ParseInt(ConvertIntFromBaseUnit(v, baseUnit).value, baseUnit) == Value(v) <==>
        OnGrid(v, Table(base)[i], base)
  {
    FirstFactor(base);
    NameOfText(base);
    hide Factor, Table, Text, Str, StrToL, Named, IsBase, OnGrid, ToSmaller, Print, Representable, Exact, Round,
        ParseInt;
    i, k := PrintsLargest(v * m, base, 0);
    var u := Table(base)[i];
    assert Table(base)[0..] == Table(base);
    assert ConvertIntFromBaseUnit(v, baseUnit) == Print(v * m, base, Table(base));
    ReadsConverted(v, m, k, u, baseUnit, base);
    var r := RoundingKeepsIff(v, u, base);
    RoundOfInt(r);
  }

  lemma FirstFactor(base: Unit)
    requires IsBase(base)
    ensures Table(base) != [] && Factor(Table(base)[0], base) >= 1.0
  {}

  /** A larger unit is a whole number of each smaller one. */
  lemma Ratio(unit: Unit, base: Unit) returns (n: int)
    requires IsBase(base) && unit in Table(base) && Smaller(unit).Some? && Smaller(unit).value in Table(base)
    ensures Factor(unit, base) == n as real * Factor(Smaller(unit).value, base)
  {
    n := if unit in [TB, GB, MB, KB] then 1024 else if unit == Day then 24 else if unit in [S, Ms] then 1000 else 60;
  }

  lemma PlainIsOnGrid(v: int, k: int, unit: Unit, base: Unit)
    requires IsBase(base) && unit in Table(base) && Factor(unit, base) >= 1.0 && Exact(v, k, unit, base)
    ensures OnGrid(v, unit, base)
  {
    hide Factor, Table, Smaller, IsBase, Divides, Amount;
    if Smaller(unit).Some? {
      var w := Smaller(unit).value;
      SmallerInTable(unit, base);
      if Factor(w, base) >= 1.0 {
        var n := Ratio(unit, base);
        Nested(v, k, n, Factor(unit, base), Factor(w, base));
        ExactIsAccepted(v, k * n, w, base);
      }
    }
  }

  lemma Nested(v: int, k: int, n: int, f: real, g: real)
    requires f == n as real * g && Amount(k, f) == v as real
    ensures Amount(k * n, g) == v as real
  {
    ProductAsReal(k, n);
  }

  lemma PlainBase(base: Unit)
    ensures StrToL(Text(base), false) == Long(Some(1), Text(base))
  {
    TextShape(base);
    var s := Text(base);
    assert s[0] != '0';
    hide Text, Strip, DigitValue, Number;
    assert s[0..] == s;
  }

  /** For a plain base unit every integer survives printing and parsing. */
  lemma PlainRoundTrip(v: int, base: Unit)
    requires IsBase(base)
    ensures ConvertIntFromBaseUnit(v, Text(base)).Some?
    ensures ParseInt(ConvertIntFromBaseUnit(v, Text(base)).value, Text(base)) == Value(v)
  {
    PlainBase(base);
    hide Factor, Table, StrToL, Text, IsBase, ParseInt, ConvertIntFromBaseUnit, OnGrid, Representable;
    var i, k := RoundTripIff(v, Text(base), 1, base);
    PlainIsOnGrid(v, k, Table(base)[i], base);
  }

  /** 1TB in units of 16MB is 65536, which reads back as 0. */
  lemma LargeMultiplierLoses()
    ensures var baseUnit := Str(16384) + Text(KB);
      ConvertIntFromBaseUnit(65536, baseUnit).Some? &&
        ParseInt(ConvertIntFromBaseUnit(65536, baseUnit).value, baseUnit) != Value(65536)
  {
    var baseUnit := Str(16384) + Text(KB);
    TerabyteOffGrid();
    hide Factor, Table, StrToL, Text, Str, IsBase, ParseInt, ConvertIntFromBaseUnit, OnGrid, Exact, Representable;
    StrReadsBack(16384, KB, false);
    var i, k := RoundTripIff(65536, baseUnit, 16384, KB);
    assert 65536 * 16384 == 1073741824;
    assert i == 0 && Table(KB)[i] == TB;
  }

  lemma TerabyteOffGrid()
    ensures IsBase(KB) && Table(KB) != [] && Table(KB)[0] == TB
    ensures Representable(1073741824, TB, KB)
    ensures !OnGrid(65536, TB, KB)
  {
    assert Exact(1073741824, 1, TB, KB);
    assert 65536 % 1048576 == 65536;
  }

  // ------------------------------------------------------------------ the table and the rounding

  /** Bytes, and microseconds. */
  function Size(u: Unit): real {
    match u
    case B => 1.0
    case KB => 1024.0
    case MB => 1024.0 * 1024.0
    case GB => 1024.0 * 1024.0 * 1024.0
    case TB => 1024.0 * 1024.0 * 1024.0 * 1024.0
    case Us => 1.0
    case Ms => 1000.0
    case S => 1000.0 * 1000.0
    case Min => 60.0 * 1000000.0
    case Hour => 60.0 * 60.0 * 1000000.0
    case Day => 24.0 * 60.0 * 60.0 * 1000000.0
  }

  /** Every entry of the table is the ratio of two sizes. */
  lemma FactorIsRatio(unit: Unit, base: Unit)
    requires IsBase(base) && unit in Table(base)
    ensures Factor(unit, base) * Size(base) == Size(unit)
  {}

  /** A table has all units of its kind, the largest first. */
  lemma TableIsComplete(unit: Unit, base: Unit)
    requires IsBase(base)
    ensures unit in Table(base) <==> (unit in [TB, GB, MB, KB, B] <==> base in [MB, KB, B])
    ensures forall i, j :: 0 <= i < j < |Table(base)| ==> Size(Table(base)[i]) > Size(Table(base)[j])
  {}

  /** Rounding takes the nearest integer, and of two the even one. */
  lemma RoundsToNearest(x: real)
    ensures -0.5 <= x - Round(x) as real <= 0.5
    ensures x - x.Floor as real == 0.5 ==> Round(x) % 2 == 0
  {
    var low := x.Floor;
    assert low as real <= x < low as real + 1.0;
    assert (low + 1) as real == low as real + 1.0;
  }

  // ------------------------------------------------------------------ numbers in any notation

  function DigitOf(d: nat): char
    requires d < 16
  {
    "0123456789abcdef"[d]
  }

  function InRadix(n: nat, radix: nat): string
    requires 2 <= radix <= 16
  {
    if n < radix then [DigitOf(n)] else InRadix(n / radix, radix) + [DigitOf(n % radix)]
  }

  predicate AllBelow(digits: string, radix: nat) {
    forall i :: 0 <= i < |digits| ==> DigitValue(digits[i]) < radix
  }

  lemma ValueOfDigit(d: nat)
    requires d < 16
    ensures DigitValue(DigitOf(d)) == d
  {}

  /** Digits in any notation denote the number they are printed for. */
  lemma {:induction false} RadixReadsBack(n: nat, radix: nat)
    requires 2 <= radix <= 16
    ensures InRadix(n, radix) != "" && AllBelow(InRadix(n, radix), radix) && Number(InRadix(n, radix), radix) == n
  {
    hide Number, DigitValue, DigitOf;
    var digits := InRadix(n, radix);
    if n < radix {
      ValueOfDigit(n);
      NumberAppends("", DigitOf(n), radix);
      assert digits == "" + [DigitOf(n)];
    } else {
      var d := n % radix;
      ValueOfDigit(d);
      RadixReadsBack(n / radix, radix);
      NumberAppends(InRadix(n / radix, radix), DigitOf(d), radix);
      QuotientAndRest(n, radix);
    }
  }

  lemma NumberAppends(digits: string, c: char, radix: nat)
    ensures Number(digits + [c], radix) == Number(digits, radix) * radix + DigitValue(c)
    ensures Number("", radix) == 0
  {
    assert (digits + [c])[..|digits + [c]| - 1] == digits;
  }

  lemma QuotientAndRest(n: nat, radix: nat)
    requires radix > 0
    ensures n == (n / radix) * radix + n % radix && n % radix < radix
  {}

  lemma {:induction false} SpanIsAll(digits: string, rest: string, radix: nat)
    requires AllBelow(digits, radix) && (rest == "" || DigitValue(rest[0]) >= radix)
    ensures Span(digits + rest, radix) == |digits|
  {
    if digits == "" {
      assert digits + rest == rest;
    } else {
      assert (digits + rest)[1..] == digits[1..] + rest;
      SpanIsAll(digits[1..], rest, radix);
    }
  }

  lemma LeadingZero(digits: string, radix: nat)
    ensures Number("0" + digits, radix) == Number(digits, radix)
    decreases |digits|
  {
    if digits == "" {
      assert ("0" + digits)[..0] == "";
    } else {
      LeadingZero(digits[..|digits| - 1], radix);
      assert ("0" + digits)[..|digits|] == "0" + digits[..|digits| - 1];
    }
  }

  /** After `0x` come hexadecimal digits, as many as there are. */
  lemma HexMagnitude(digits: string, rest: string)
    requires digits != "" && AllBelow(digits, 16) && (rest == "" || DigitValue(rest[0]) >= 16)
    ensures Magnitude("0x" + digits + rest) == Long(Some(Number(digits, 16)), rest)
  {
    var body := "0x" + digits + rest;
    assert body[2..] == digits + rest;
    SpanIsAll(digits, rest, 16);
    assert body[2..2 + |digits|] == digits && body[2 + |digits|..] == rest;
    assert "0x" <= body;
  }

  /** After another leading zero come octal digits. */
  lemma OctalMagnitude(digits: string, rest: string)
    requires AllBelow(digits, 8) && (rest == "" || DigitValue(rest[0]) >= 8)
    requires digits == "" && rest != "" ==> rest[0] != 'x'
    ensures Magnitude("0" + digits + rest) == Long(Some(Number(digits, 8)), rest)
  {
    var body := "0" + digits + rest;
    assert body[1..] == digits + rest;
    SpanIsAll(digits, rest, 8);
    LeadingZero(digits, 8);
    assert body[..1 + |digits|] == "0" + digits && body[1 + |digits|..] == rest;
    assert !("0x" <= body) by {
      if |body| > 1 { assert body[1] == if digits != "" then digits[0] else rest[0]; }
    }
  }

  /** Otherwise digits are decimal. */
  lemma DecimalsMagnitude(digits: string, rest: string)
    requires digits != "" && digits[0] != '0' && AllBelow(digits, 10) && (rest == "" || DigitValue(rest[0]) >= 10)
    ensures Magnitude(digits + rest) == Long(Some(Number(digits, 10)), rest)
  {
    var body := digits + rest;
    SpanIsAll(digits, rest, 10);
    assert body[0] == digits[0] && body[..|digits|] == digits && body[|digits|..] == rest;
  }

  /** What does not begin with a digit is no number. */
  lemma NoMagnitude(body: string)
    requires body == "" || DigitValue(body[0]) >= 10
    ensures Magnitude(body) == Long(None, body)
  {}

  ghost predicate AllSpace(s: string) { forall i :: 0 <= i < |s| ==> IsSpace(s[i]) }

  /** What a sign may stand before. */
  predicate IsUnsigned(body: string) {
    body != "" && !IsSpace(body[0]) && !IsSpace(body[|body| - 1]) && body[0] != '+' && body[0] != '-'
  }

  lemma SignSplits(before: string, sign: string, body: string, after: string)
    requires AllSpace(before) && AllSpace(after) && sign in ["", "+", "-"] && IsUnsigned(body)
    ensures var s := Strip(before + sign + body + after);
            && s == sign + body && s[SignLength(s)..] == body && (s[0] == '-' <==> sign == "-")
  {
    var s := sign + body;
    assert s[0] == (if sign == "" then body[0] else sign[0]);
    assert s[|s| - 1] == body[|body| - 1];
    StripsSpace(before, s, after);
    assert before + sign + body + after == before + s + after;
  }

  /** White space around the text and a sign before the number are allowed; without a number the
      text is left as it is, and 1 is assumed where that is wanted. */
  lemma SignedReads(before: string, sign: string, body: string, after: string, strict: bool)
    requires AllSpace(before) && AllSpace(after) && sign in ["", "+", "-"] && IsUnsigned(body)
    ensures StrToL(before + sign + body + after, strict) ==
            match Magnitude(body).value
            case Some(n) => Long(Some(if sign == "-" then -n else n), Magnitude(body).rest)
            case None => Long(if strict then None else Some(1), sign + body)
  {
    hide Strip, Magnitude, AllSpace, IsUnsigned;
    SignSplits(before, sign, body, after);
  }

  lemma SignedDoubleReads(before: string, sign: string, body: string, after: string)
    requires AllSpace(before) && AllSpace(after) && sign in ["", "+", "-"] && IsUnsigned(body)
    ensures StrToD(before + sign + body + after) ==
            match Unsigned(body).value
            case Some(v) => Double(Some(if sign == "-" then -v else v), Unsigned(body).rest)
            case None => Double(None, sign + body)
  {
    hide Strip, Unsigned, AllSpace, IsUnsigned;
    SignSplits(before, sign, body, after);
  }

  lemma {:induction false} StripsSpace(before: string, s: string, after: string)
    requires AllSpace(before) && AllSpace(after)
    requires s != "" && !IsSpace(s[0]) && !IsSpace(s[|s| - 1])
    ensures Strip(before + s + after) == s
  {
    StripsLeft(before, s + after);
    assert before + s + after == before + (s + after);
    StripsRight(s, after);
  }

  lemma {:induction false} StripsLeft(before: string, s: string)
    requires AllSpace(before) && s != "" && !IsSpace(s[0])
    ensures StripLeft(before + s) == s
  {
    if before == "" {
      assert before + s == s;
    } else {
      assert (before + s)[1..] == before[1..] + s;
      StripsLeft(before[1..], s);
    }
  }

  lemma {:induction false} StripsRight(s: string, after: string)
    requires AllSpace(after) && s != "" && !IsSpace(s[|s| - 1])
    ensures StripRight(s + after) == s
    decreases |after|
  {
    if after == "" {
      assert s + after == s;
    } else {
      var n := |after| - 1;
      assert (s + after)[..|s + after| - 1] == s + after[..n];
      StripsRight(s, after[..n]);
    }
  }

  // ------------------------------------------------------------------ numbers with a fraction

  /** Digits after a decimal point count as so many tenths, hundredths and so on. */
  lemma FractionReads(whole: string, fraction: string, rest: string)
    requires AllBelow(whole, 10) && fraction != "" && AllBelow(fraction, 10)
    requires rest == "" || (DigitValue(rest[0]) >= 10 && rest[0] != 'e' && rest[0] != 'E')
    ensures Unsigned(whole + "." + fraction + rest) ==
            Double(Some(Decimals(Number(whole, 10), Number(fraction, 10), |fraction|)), rest)
  {
    var number := whole + "." + fraction;
    FractionLength(whole, fraction, rest);
    FractionValue(whole, fraction);
    hide Mantissa, MantissaLength, Number, Power10, DigitValue, AllBelow, Decimals;
    assert (number + rest)[..|number|] == number && (number + rest)[|number|..] == rest;
  }

  /** An exponent moves the point, to the left where it is negative. */
  lemma ExponentReads(digits: string, e: char, sign: string, places: string, rest: string)
    requires digits != "" && AllBelow(digits, 10) && places != "" && AllBelow(places, 10)
    requires e in ['e', 'E'] && sign in ["", "+", "-"] && (rest == "" || DigitValue(rest[0]) >= 10)
    ensures Unsigned(digits + [e] + sign + places + rest) ==
            Double(Some(Shifted(Number(digits, 10) as real, sign == "-", Number(places, 10))), rest)
  {
    hide Mantissa, MantissaLength, Number, Power10, DigitValue, AllBelow, WithExponent;
    var tail := [e] + sign + places + rest;
    var body := digits + tail;
    assert digits + [e] + sign + places + rest == body;
    EIsNoDigit(e);
    WholeLength(digits, tail);
    WholeValue(digits);
    TailReads(Number(digits, 10) as real, e, sign, places, rest);
    assert body[..|digits|] == digits && body[|digits|..] == tail;
  }

  lemma TailReads(m: real, e: char, sign: string, places: string, rest: string)
    requires places != "" && AllBelow(places, 10) && e in ['e', 'E'] && sign in ["", "+", "-"]
    requires rest == "" || DigitValue(rest[0]) >= 10
    ensures WithExponent(m, [e] + sign + places + rest) ==
        Double(Some(Shifted(m, sign == "-", Number(places, 10))), rest)
  {
    ExponentSplits(e, sign, places, rest);
    hide Number, DigitValue, AllBelow, Span, Shifted, SignLength;
  }

  lemma EIsNoDigit(e: char)
    requires e in ['e', 'E']
    ensures DigitValue(e) >= 10 && e != '.'
  {}

  lemma WholeValue(digits: string)
    requires AllBelow(digits, 10)
    ensures Mantissa(digits) == Number(digits, 10) as real
  {
    SpanIsAll(digits, "", 10);
    assert digits + "" == digits;
  }

  lemma WholeLength(digits: string, tail: string)
    requires AllBelow(digits, 10) && tail != "" && DigitValue(tail[0]) >= 10 && tail[0] != '.'
    ensures MantissaLength(digits + tail) == |digits|
  {
    SpanIsAll(digits, tail, 10);
    assert (digits + tail)[|digits|] == tail[0];
  }

  lemma ExponentSplits(e: char, sign: string, places: string, rest: string)
    requires places != "" && AllBelow(places, 10) && sign in ["", "+", "-"] && (rest == "" || DigitValue(rest[0]) >= 10)
    ensures var tail := [e] + sign + places + rest; var j := |sign|;
            && SignLength(tail[1..]) == j && Span(tail[1 + j..], 10) == |places|
            && tail[1 + j..1 + j + |places|] == places && tail[1 + j + |places|..] == rest
            && (tail[1] == '-' <==> sign == "-") && tail[0] == e
  {
    var tail := [e] + sign + places + rest;
    assert tail[1..] == sign + places + rest;
    assert tail[1] == (if sign == "" then places[0] else sign[0]);
    assert tail[1 + |sign|..] == places + rest;
    SpanIsAll(places, rest, 10);
  }

  lemma FractionLength(whole: string, fraction: string, rest: string)
    requires AllBelow(whole, 10) && fraction != "" && AllBelow(fraction, 10)
    requires rest == "" || DigitValue(rest[0]) >= 10
    ensures MantissaLength(whole + "." + fraction + rest) == |whole + "." + fraction|
  {
    var s := whole + "." + fraction + rest;
    SpanIsAll(whole, "." + fraction + rest, 10);
    assert whole + ("." + fraction + rest) == s;
    SpanIsAll(fraction, rest, 10);
    assert s[|whole|] == '.' && s[|whole| + 1..] == fraction + rest;
    hide Span;
  }

  lemma FractionValue(whole: string, fraction: string)
    requires AllBelow(whole, 10) && fraction != "" && AllBelow(fraction, 10)
    ensures Mantissa(whole + "." + fraction) == Decimals(Number(whole, 10), Number(fraction, 10), |fraction|)
  {
    var number := whole + "." + fraction;
    SpanIsAll(whole, "." + fraction, 10);
    assert whole + ("." + fraction) == number;
    assert number[..|whole|] == whole && number[|whole| + 1..] == fraction;
    hide Span, Number, Power10, Decimals;
  }

  /** A fraction in tenths, hundredths and so on, taken so many times, is a whole number. */
  lemma DecimalsAre(whole: nat, fraction: nat, places: nat)
    ensures (Decimals(whole, fraction, places) - whole as real) * Power10(places) == fraction as real
  {
    var p, f := Power10(places), fraction as real;
    assert Decimals(whole, fraction, places) - whole as real == f / p;
    DividedTimes(f, p);
  }

  lemma ShiftsAre(m: real, places: nat)
    ensures Shifted(m, true, places) * Power10(places) == m && Shifted(m, false, places) == m * Power10(places)
  {
    hide Power10;
    DividedTimes(m, Power10(places));
  }

  lemma DividedTimes(x: real, p: real)
    requires p > 0.0
    ensures (x / p) * p == x
  {}

  /** Powers of ten. */
  lemma {:induction false} Power10Adds(a: nat, b: nat)
    ensures Power10(1) == 10.0 && Power10(a + b) == Power10(a) * Power10(b)
  {
    if a > 0 { Power10Adds(a - 1, b); }
  }

  // ------------------------------------------------------------------ when there is no result

  /** A printed number reads as itself without a unit; its unit must be in the table of the base
      unit; and a multiplier of zero in the base unit is an error. */
  lemma PrintedOutcome(k: int, u: Unit, baseUnit: string, m: int, base: Unit)
    requires IsBaseUnit(baseUnit, m, base)
    ensures ParseInt(Str(k) + Text(u), baseUnit) == Invalid <==> u !in Table(base)
    ensures ParseInt(Str(k) + Text(u), baseUnit) == DivisionByZero <==> u in Table(base) && m == 0
  {
    ReadsPrinted(k, u, baseUnit);
    NameOfText(u);
    NameOfText(base);
    hide Factor, Table, Text, Str, StrToL, StrToD, Strip, Named, IsBase, ToSmaller, Scaled, Round, ParseInt;
  }

  /** No table, no result. */
  lemma UnknownBase(v: int, k: int, u: Unit, baseUnit: string)
    requires forall base | IsBase(base) :: StrToL(baseUnit, false).rest != Text(base)
    ensures ConvertIntFromBaseUnit(v, baseUnit) == None
    ensures ParseInt(Str(k) + Text(u), baseUnit) == Invalid
  {
    NamedIsText(StrToL(baseUnit, false).rest, UNITS);
    ReadsPrinted(k, u, baseUnit);
    hide Factor, Table, Text, Str, StrToL, StrToD, Strip, Named, ToSmaller, Scaled, Round, ParseInt, Print;
  }

  lemma {:induction false} NamedIsText(text: string, units: seq<Unit>)
    ensures Named(text, units).Some? ==> text == Text(Named(text, units).value)
  {
    if units != [] { NamedIsText(text, units[1..]); }
  }

  lemma NoUnitReads(k: int, baseUnit: string)
    ensures ParseInt(Str(k), baseUnit) == Value(k)
  {
    var n: nat := if k < 0 then -k else k;
    DecimalReadsBack(n);
    StrShape(k);
    var s := Str(k);
    var digits := Decimal(n);
    assert s[|s| - 1] == digits[|digits| - 1];
    StripKeeps(s);
    DecimalsBelow(digits);
    if n == 0 { OctalMagnitude("", ""); assert digits == "0" + "" + ""; }
    else { DecimalsMagnitude(digits, ""); assert digits + "" == digits; }
    assert s[SignLength(s)..] == digits;
    RoundOfInt(k);
    hide Decimal, Str, Magnitude, Strip, Round, Number;
    assert StrToL(s, true) == Long(Some(k), "");
    EmptyStrips();
  }

  lemma EmptyStrips()
    ensures Strip("") == ""
  {}

  lemma DecimalsBelow(digits: string)
    requires AllDigits(digits)
    ensures AllBelow(digits, 10)
  {}

  /** A number with a decimal point is read with its fraction, and rounded after the conversion. */
  lemma FractionIsParsed(n: nat, fraction: string, u: Unit, baseUnit: string)
    requires fraction != "" && AllBelow(fraction, 10)
    ensures ParseInt(Decimal(n) + "." + fraction + Text(u), baseUnit) ==
            Rounded(Some(Decimals(n, Number(fraction, 10), |fraction|)), Text(u), baseUnit)
  {
    LongStopsAtPoint(n, fraction, u);
    DoubleGoesOn(n, fraction, u);
    hide Decimal, Text, Rounded, Decimals, Number, StrToL, StrToD, AllBelow;
  }

  lemma LongStopsAtPoint(n: nat, fraction: string, u: Unit)
    requires fraction != ""
    ensures StrToL(Decimal(n) + "." + fraction + Text(u), true) == Long(Some(n), "." + fraction + Text(u))
  {
    hide Decimal, Text, Magnitude, IsUnsigned, Strip;
    var tail := "." + fraction + Text(u);
    var text := Decimal(n) + "." + fraction + Text(u);
    assert text == Decimal(n) + tail && "" + "" + text + "" == text;
    PointedText(n, fraction, u);
    NumberBeforePoint(n, tail);
    NothingIsSpace();
    SignedReads("", "", text, "", true);
    hide StrToL;
  }

  lemma DoubleGoesOn(n: nat, fraction: string, u: Unit)
    requires fraction != "" && AllBelow(fraction, 10)
    ensures StrToD(Decimal(n) + "." + fraction + Text(u)) ==
            Double(Some(Decimals(n, Number(fraction, 10), |fraction|)), Text(u))
  {
    hide Decimal, Text, IsUnsigned, Strip, Decimals, Number, AllBelow, DigitValue, Unsigned, StrToD;
    var text := Decimal(n) + "." + fraction + Text(u);
    assert "" + "" + text + "" == text;
    PointedText(n, fraction, u);
    FractionReads(Decimal(n), fraction, Text(u));
    NothingIsSpace();
    SignedDoubleReads("", "", text, "");
  }

  lemma NothingIsSpace()
    ensures AllSpace("")
  {}

  lemma PointedText(n: nat, fraction: string, u: Unit)
    requires fraction != ""
    ensures AllBelow(Decimal(n), 10) && Number(Decimal(n), 10) == n
    ensures DigitValue(Text(u)[0]) >= 10 && Text(u)[0] != 'e' && Text(u)[0] != 'E' && Text(u) != ""
    ensures IsUnsigned(Decimal(n) + "." + fraction + Text(u))
  {
    var text := Decimal(n) + "." + fraction + Text(u);
    DecimalReadsBack(n);
    DecimalsBelow(Decimal(n));
    TextShape(u);
    hide Decimal, Text, Number;
    assert text[0] == Decimal(n)[0] && text[|text| - 1] == Text(u)[|Text(u)| - 1];
  }

  lemma NumberBeforePoint(n: nat, tail: string)
    requires tail != "" && tail[0] == '.'
    ensures Magnitude(Decimal(n) + tail) == Long(Some(n), tail)
  {
    DecimalReadsBack(n);
    DecimalsBelow(Decimal(n));
    if n == 0 {
      OctalMagnitude("", tail);
      assert "0" + "" + tail == "0" + tail;
      assert Number("", 8) == 0;
    } else {
      DecimalsMagnitude(Decimal(n), tail);
    }
  }
}
