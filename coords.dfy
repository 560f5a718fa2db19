/**
 * Right ascension and declination as sexagesimal values (fold/coords.py):
 * their range checks, the validating constructors, parsing from and
 * formatting to `H:MM:SS.ffff` text, exact conversion to and from radians,
 * and the `__cmp__` ordering; `OnSkyCoordinate` pairs the two.
 *
 * Reals are exact here: `math.pi` is the real PI below, Python's float
 * rounding is not modelled, and `'%07.4f'` rounds exactly (half to even).
 */
module Coords {
  import opened Wrappers
  import opened Text

  /** `math.pi`, as the decimal that Python prints for it. */
  const PI: real := 3.141592653589793

  /** The exceptions the module raises; `DeclinationRangeError` is declared in the source but never raised. */
  datatype CoordError =
    | ValueError                           // a constructor's range check failed
    | DeclinationParseError(text: string)
    | RightAscensionParseError(text: string)
    | RightAscensionRangeError(radians: real)
    | UnboundLocalError                    // `minute += 1` on an unassigned local
    | TypeError                            // `__cmp__` against a value of another type

  datatype RightAscension = RightAscension(hour: int, minute: int, second: real)

  /** The sign is kept apart from the degree, minute and second fields. */
  datatype Declination = Declination(sign: int, degree: int, minute: int, second: real)

  /** The operand of a comparison: one of the two angle types, or anything else. */
  datatype Comparand = RaOperand(ra: RightAscension) | DecOperand(dec: Declination) | OtherOperand

  // ---------------------------------------------------------------------------
  // Range checks and constructors

  /** `dec_ok`: the poles carry no minutes or seconds; elsewhere the degree lies strictly between -90 and 90. */
  predicate DecOk(sign: int, degree: int, minute: int, second: real): (ok: bool)
    ensures ok <==>
      (sign == -1 || sign == 1) &&
      ((degree == 90 && minute == 0 && second == 0.0) ||
       (-90 < degree < 90 && 0 <= minute <= 59 && 0.0 <= second < 60.0))
  {
    if sign != -1 && sign != 1 then false
    else if degree == 90 then minute == 0 && second == 0.0
    else if -90 < degree < 90 then 0 <= minute <= 59 && 0.0 <= second < 60.0
    else false
  }

  /** `ra_ok`. */
  predicate RaOk(hour: int, minute: int, second: real): (ok: bool)
    ensures ok <==> 0 <= hour <= 23 && 0 <= minute <= 59 && 0.0 <= second < 60.0
  {
    if !(0 <= hour <= 23) then false
    else if !(0 <= minute <= 59) then false
    else 0.0 <= second < 60.0
  }

  predicate DecValid(x: Declination) { DecOk(x.sign, x.degree, x.minute, x.second) }

  predicate RaValid(x: RightAscension) { RaOk(x.hour, x.minute, x.second) }

  /** `Declination(sign, degree, minute, second)`: ValueError exactly when `dec_ok` fails, else the fields as given. */
  function NewDeclination(sign: int, degree: int, minute: int, second: real): (r: Result<Declination, CoordError>)
    ensures r.Ok? <==> DecOk(sign, degree, minute, second)
    ensures r.Ok? ==> r.value == Declination(sign, degree, minute, second)
    ensures r.Err? ==> r.error == ValueError
  {
    if !DecOk(sign, degree, minute, second) then Err(ValueError)
    else Ok(Declination(sign, degree, minute, second))
  }

  /** `RightAscension(hour, minute, second)`: ValueError exactly when `ra_ok` fails, else the fields as given. */
  function NewRightAscension(hour: int, minute: int, second: real): (r: Result<RightAscension, CoordError>)
    ensures r.Ok? <==> RaOk(hour, minute, second)
    ensures r.Ok? ==> r.value == RightAscension(hour, minute, second)
    ensures r.Err? ==> r.error == ValueError
  {
    if !RaOk(hour, minute, second) then Err(ValueError)
    else Ok(RightAscension(hour, minute, second))
  }

  // ---------------------------------------------------------------------------
  // Radians

  /** Python's `int()` of a float: truncation toward zero. */
  function Trunc(x: real): (n: int)
    ensures x >= 0.0 ==> 0 <= n && n as real <= x < n as real + 1.0
    ensures x < 0.0 ==> n <= 0 && n as real - 1.0 < x <= n as real
  {
    if x >= 0.0 then x.Floor else -((-x).Floor)
  }

  /** `RightAscension.to_radians`; a valid right ascension lies in [0, 2*PI). */
  function RaToRadians(x: RightAscension): (r: real)
    ensures RaValid(x) ==> 0.0 <= r < 2.0 * PI
  {
    PI * (x.hour as real / 12.0 + x.minute as real / 720.0 + x.second / 43200.0)
  }

  /** `Declination.to_radians`. */
  function DecToRadians(x: Declination): real
  {
    PI * x.sign as real * (x.degree as real / 180.0 + x.minute as real / 10800.0 + x.second / 648000.0)
  }

  /** A valid declination lies in [-PI/2, PI/2], and on its ends exactly at degree 90. */
  lemma DecRadiansRange(x: Declination)
    requires DecValid(x)
    ensures -PI / 2.0 <= DecToRadians(x) <= PI / 2.0
    ensures (DecToRadians(x) == PI / 2.0 || DecToRadians(x) == -PI / 2.0) <==> x.degree == 90
  {
    var m := x.degree as real / 180.0 + x.minute as real / 10800.0 + x.second / 648000.0;
    assert x.degree == 90 ==> m == 0.5;
    assert x.degree != 90 ==> -0.5 < m < 0.5;
    if x.sign == 1 {
      assert DecToRadians(x) == PI * m;
    } else {
      assert DecToRadians(x) == -(PI * m);
    }
  }

  /** `RightAscension.from_radians`: successive base-24/60/60 digit extraction behind a range guard. */
  function RaFromRadians(rad: real): (r: Result<RightAscension, CoordError>)
    ensures r.Err? ==> r.error == ValueError || r.error == RightAscensionRangeError(rad)
  {
    if !(0.00001 < rad < 2.0 * PI + 0.00001) then Err(RightAscensionRangeError(rad))
    else
      var hourFr := 12.0 * (rad / PI);
      var hour := Trunc(hourFr);
      var minuteFr := 60.0 * (hourFr - hour as real);
      var minute := Trunc(minuteFr);
      var second := 60.0 * (minuteFr - minute as real);
      NewRightAscension(hour, minute, second)
  }

  /**
   * The guard lets through (1e-5, 2*PI + 1e-5); of that window, [2*PI, 2*PI + 1e-5)
   * gives hour 24 and fails in the constructor, so exactly (1e-5, 2*PI) succeeds.
   */
  lemma RaFromRadiansDomain(rad: real)
    ensures RaFromRadians(rad).Ok? <==> 0.00001 < rad < 2.0 * PI
    ensures RaFromRadians(rad) == Err(RightAscensionRangeError(rad)) <==> !(0.00001 < rad < 2.0 * PI + 0.00001)
    ensures RaFromRadians(rad) == Err(ValueError) <==> 2.0 * PI <= rad < 2.0 * PI + 0.00001
  {
    if 0.00001 < rad < 2.0 * PI + 0.00001 {
      var hourFr := 12.0 * (rad / PI);
      assert hourFr == rad * (12.0 / PI);
      assert rad < 2.0 * PI <==> hourFr < 24.0;
    }
  }

  /** What `from_radians` builds converts back to the radians it was built from. */
  lemma RaFromRadiansInverse(rad: real)
    requires RaFromRadians(rad).Ok?
    ensures RaToRadians(RaFromRadians(rad).value) == rad
  {
    var hourFr := 12.0 * (rad / PI);
    var x := RaFromRadians(rad).value;
    var minuteFr := 60.0 * (hourFr - x.hour as real);
    assert x.second == 60.0 * (minuteFr - x.minute as real);
    assert x.hour as real / 12.0 + x.minute as real / 720.0 + x.second / 43200.0 == hourFr / 12.0;
    assert hourFr / 12.0 == rad / PI;
  }

  /**
   * In exact arithmetic `from_radians(x.to_radians())` gives `x` back, as long as the
   * radians pass the guard's lower bound of 1e-5.
   */
  lemma RaRadiansRoundTrip(x: RightAscension)
    requires RaValid(x) && RaToRadians(x) > 0.00001
    ensures RaFromRadians(RaToRadians(x)) == Ok(x)
  {
    var rad := RaToRadians(x);
    var hourFr := 12.0 * (rad / PI);
    var frac := x.minute as real / 60.0 + x.second / 3600.0;
    assert hourFr == x.hour as real + frac;
    assert 0.0 <= frac < 1.0;
    assert Trunc(hourFr) == x.hour;
    var minuteFr := 60.0 * (hourFr - x.hour as real);
    assert minuteFr == x.minute as real + x.second / 60.0;
    assert Trunc(minuteFr) == x.minute;
  }

  /** 00:00:00 converts to 0 radians, which the guard of `from_radians` rejects. */
  lemma RaZeroNotRebuilt()
    ensures RaFromRadians(RaToRadians(RightAscension(0, 0, 0.0))) == Err(RightAscensionRangeError(0.0))
  {
  }

  /**
   * `Declination.from_radians`: the sign is split off (`rad >= 0` gives +1), then the
   * degrees are extracted like the hours of a right ascension. There is no guard of its own.
   */
  function DecFromRadians(rad: real): (r: Result<Declination, CoordError>)
    ensures r.Err? ==> r.error == ValueError
    ensures r.Ok? ==> r.value.sign == (if rad >= 0.0 then 1 else -1)
  {
    var sign := if rad >= 0.0 then 1 else -1;
    var tmp := if rad >= 0.0 then rad else -rad;
    var degreeFr := 180.0 * tmp / PI;
    var degree := Trunc(degreeFr);
    var minuteFr := 60.0 * (degreeFr - degree as real);
    var minute := Trunc(minuteFr);
    var second := 60.0 * (minuteFr - minute as real);
    NewDeclination(sign, degree, minute, second)
  }

  /** Only the constructor can fail, and it fails exactly outside [-PI/2, PI/2]. */
  lemma DecFromRadiansDomain(rad: real)
    ensures DecFromRadians(rad).Ok? <==> -PI / 2.0 <= rad <= PI / 2.0
  {
    var tmp := if rad >= 0.0 then rad else -rad;
    var degreeFr := 180.0 * tmp / PI;
    assert degreeFr == tmp * (180.0 / PI);
    assert tmp <= PI / 2.0 <==> degreeFr <= 90.0;
    var degree := Trunc(degreeFr);
    var minuteFr := 60.0 * (degreeFr - degree as real);
    if degreeFr > 90.0 && degree == 90 {
      assert minuteFr > 0.0;
    }
  }

  /** What `from_radians` builds converts back to the radians it was built from. */
  lemma DecFromRadiansInverse(rad: real)
    requires DecFromRadians(rad).Ok?
    ensures DecToRadians(DecFromRadians(rad).value) == rad
  {
    var x := DecFromRadians(rad).value;
    var tmp := if rad >= 0.0 then rad else -rad;
    var degreeFr := 180.0 * tmp / PI;
    var minuteFr := 60.0 * (degreeFr - x.degree as real);
    assert x.second == 60.0 * (minuteFr - x.minute as real);
    var m := x.degree as real / 180.0 + x.minute as real / 10800.0 + x.second / 648000.0;
    assert m == degreeFr / 180.0;
    assert PI * m == tmp;
    if rad >= 0.0 {
      assert DecToRadians(x) == PI * m;
    } else {
      assert DecToRadians(x) == -(PI * m);
    }
  }

  /**
   * In exact arithmetic `from_radians(x.to_radians())` gives `x` back for a declination
   * with a non-negative degree field, except that a zero angle comes back with sign +1.
   */
  lemma DecRadiansRoundTrip(x: Declination)
    requires DecValid(x) && x.degree >= 0
    ensures var r := DecFromRadians(DecToRadians(x));
      && r.Ok?
      && (x.degree == 0 && x.minute == 0 && x.second == 0.0 ==> r.value == Declination(1, 0, 0, 0.0))
      && (x.degree != 0 || x.minute != 0 || x.second != 0.0 ==> r.value == x)
  {
    var rad := DecToRadians(x);
    DecRadiansMagnitude(x);
    DecDigitsOfMagnitude(x, if rad >= 0.0 then rad else -rad);
    DecFromRadiansFields(rad, x.degree, x.minute, x.second);
  }

  /** The size of a declination's radians is PI times its size in half-turns; they are negative exactly for a non-zero southern angle. */
  lemma DecRadiansMagnitude(x: Declination)
    requires DecValid(x) && x.degree >= 0
    ensures var m := x.degree as real / 180.0 + x.minute as real / 10800.0 + x.second / 648000.0;
      var rad := DecToRadians(x);
      && (if rad >= 0.0 then rad else -rad) == PI * m
      && (rad >= 0.0 <==> x.sign == 1 || (x.degree == 0 && x.minute == 0 && x.second == 0.0))
  {
    var m := x.degree as real / 180.0 + x.minute as real / 10800.0 + x.second / 648000.0;
    assert m >= 0.0;
    assert m == 0.0 <==> x.degree == 0 && x.minute == 0 && x.second == 0.0;
    if x.sign == 1 {
      assert DecToRadians(x) == PI * m;
    } else {
      assert DecToRadians(x) == -(PI * m);
    }
  }

  /** When the digit extraction of `from_radians` yields the given fields, the result is the constructor applied to them. */
  lemma DecFromRadiansFields(rad: real, degree: int, minute: int, second: real)
    requires var tmp := if rad >= 0.0 then rad else -rad;
      var degreeFr := 180.0 * tmp / PI;
      var minuteFr := 60.0 * (degreeFr - degree as real);
      Trunc(degreeFr) == degree && Trunc(minuteFr) == minute && 60.0 * (minuteFr - minute as real) == second
    ensures DecFromRadians(rad) == NewDeclination(if rad >= 0.0 then 1 else -1, degree, minute, second)
  {
  }

  /** The digit extraction of `from_radians`, applied to the size of `x` in radians, gives back its fields. */
  lemma DecDigitsOfMagnitude(x: Declination, tmp: real)
    requires DecValid(x) && x.degree >= 0
    requires tmp == PI * (x.degree as real / 180.0 + x.minute as real / 10800.0 + x.second / 648000.0)
    ensures var degreeFr := 180.0 * tmp / PI;
      var minuteFr := 60.0 * (degreeFr - x.degree as real);
      Trunc(degreeFr) == x.degree && Trunc(minuteFr) == x.minute && 60.0 * (minuteFr - x.minute as real) == x.second
  {
    var degreeFr := 180.0 * tmp / PI;
    var frac := x.minute as real / 60.0 + x.second / 3600.0;
    assert degreeFr == x.degree as real + frac;
    assert 0.0 <= frac < 1.0;
    assert Trunc(degreeFr) == x.degree;
    var minuteFr := 60.0 * (degreeFr - x.degree as real);
    assert minuteFr == x.minute as real + x.second / 60.0;
    assert Trunc(minuteFr) == x.minute;
  }

  // ---------------------------------------------------------------------------
  // Ordering

  /** A right ascension in seconds of time. */
  function RaSeconds(x: RightAscension): real
  {
    ((x.hour * 60 + x.minute) * 60) as real + x.second
  }

  /**
   * `RightAscension.__cmp__`: the difference of the two totals in seconds; TypeError for
   * any other operand. Its sign orders right ascensions as their radians do.
   */
  function RaCompare(a: RightAscension, other: Comparand): (r: Result<real, CoordError>)
    ensures r.Err? <==> !other.RaOperand?
    ensures r.Err? ==> r.error == TypeError
    ensures r.Ok? ==> (r.value < 0.0 <==> RaToRadians(a) < RaToRadians(other.ra))
    ensures r.Ok? ==> (r.value == 0.0 <==> RaToRadians(a) == RaToRadians(other.ra))
  {
    if other.RaOperand? then Ok(RaSeconds(a) - RaSeconds(other.ra)) else Err(TypeError)
  }

  /** Comparison is reflexive and antisymmetric. */
  lemma RaCompareAntisymmetric(a: RightAscension, b: RightAscension)
    ensures RaCompare(a, RaOperand(a)) == Ok(0.0)
    ensures RaCompare(a, RaOperand(b)).value == -RaCompare(b, RaOperand(a)).value
  {
  }

  /** The total `Declination.__cmp__` computes: the sign multiplies degrees and minutes but not seconds. */
  function DecCompareKey(x: Declination): real
  {
    (x.sign * (x.degree * 60 + x.minute) * 60) as real + x.second
  }

  /** `Declination.__cmp__`, as written: the difference of the two keys; TypeError for any other operand. */
  function DecCompare(a: Declination, other: Comparand): (r: Result<real, CoordError>)
    ensures r.Err? <==> !other.DecOperand?
    ensures r.Err? ==> r.error == TypeError
  {
    if other.DecOperand? then Ok(DecCompareKey(a) - DecCompareKey(other.dec)) else Err(TypeError)
  }

  /** Comparison is reflexive and antisymmetric. */
  lemma DecCompareAntisymmetric(a: Declination, b: Declination)
    ensures DecCompare(a, DecOperand(a)) == Ok(0.0)
    ensures DecCompare(a, DecOperand(b)).value == -DecCompare(b, DecOperand(a)).value
  {
  }

  /**
   * As written, `__cmp__` ranks -10:00:30 above -10:00:00 although it lies further south:
   * the unsigned seconds push a southern declination north.
   */
  lemma DecCompareSecondsUnsigned()
    ensures var a := Declination(-1, 10, 0, 30.0);
            var b := Declination(-1, 10, 0, 0.0);
            DecValid(a) && DecValid(b) &&
            DecCompare(a, DecOperand(b)) == Ok(30.0) && DecToRadians(a) < DecToRadians(b)
  {
  }

  /** The unsigned size of a declination in arc-seconds. */
  function DecMagnitude(x: Declination): real
  {
    ((x.degree * 60 + x.minute) * 60) as real + x.second
  }

  /** `Declination.__cmp__` as evidently intended: the sign applies to the whole angle. */
  function DecCompareSigned(a: Declination, other: Comparand): (r: Result<real, CoordError>)
    ensures r.Err? <==> !other.DecOperand?
    ensures r.Err? ==> r.error == TypeError
  {
    if other.DecOperand? then Ok(a.sign as real * DecMagnitude(a) - other.dec.sign as real * DecMagnitude(other.dec))
    else Err(TypeError)
  }

  /** With the sign applied to the whole angle, comparison orders declinations as their radians do. */
  lemma DecCompareSignedOrder(a: Declination, b: Declination)
    requires DecValid(a) && DecValid(b)
    ensures DecCompareSigned(a, DecOperand(b)).value < 0.0 <==> DecToRadians(a) < DecToRadians(b)
    ensures DecCompareSigned(a, DecOperand(b)).value == 0.0 <==> DecToRadians(a) == DecToRadians(b)
  {
    var u, v := a.sign as real * DecMagnitude(a), b.sign as real * DecMagnitude(b);
    DecCompareSignedValue(a, b);
    SignedRadians(a);
    SignedRadians(b);
    ScaleOrder(PI / 648000.0, DecCompareSigned(a, DecOperand(b)).value, DecToRadians(a), DecToRadians(b), u, v);
  }

  /** Two declinations compare by the difference of their signed sizes in arc-seconds. */
  lemma DecCompareSignedValue(a: Declination, b: Declination)
    ensures DecCompareSigned(a, DecOperand(b)).Ok?
    ensures DecCompareSigned(a, DecOperand(b)).value == a.sign as real * DecMagnitude(a) - b.sign as real * DecMagnitude(b)
  {
    var other := DecOperand(b);
    assert other.dec == b;
  }

  /** A difference `c` of two reals has the sign of the difference of their images under a positive factor. */
  lemma ScaleOrder(k: real, c: real, x: real, y: real, u: real, v: real)
    requires k > 0.0 && c == u - v && x == k * u && y == k * v
    ensures c < 0.0 <==> x < y
    ensures c == 0.0 <==> x == y
  {
    assert x - y == k * c;
  }

  lemma SignedRadians(x: Declination)
    requires x.sign == 1 || x.sign == -1
    ensures DecToRadians(x) == (PI / 648000.0) * (x.sign as real * DecMagnitude(x))
  {
    if x.sign == 1 {
      assert DecToRadians(x) == PI * (x.degree as real / 180.0 + x.minute as real / 10800.0 + x.second / 648000.0);
    } else {
      assert DecToRadians(x) == -(PI * (x.degree as real / 180.0 + x.minute as real / 10800.0 + x.second / 648000.0));
    }
  }

  // ---------------------------------------------------------------------------
  // Sexagesimal text: matching

  /** The text of a seconds group: its leading digits, and the digits after its `.` (empty when there is none). */
  datatype Decimal = Decimal(whole: string, fraction: string)

  /** The named groups of a match; the short patterns have no seconds group. */
  datatype Groups = Groups(major: string, minute: string, second: Option<Decimal>)

  predicate WellFormed(g: Groups)
  {
    && AllDigits(g.major) && 1 <= |g.major| <= 2
    && AllDigits(g.minute) && 1 <= |g.minute| <= 2
    && (g.second.Some? ==>
          AllDigits(g.second.value.whole) && 1 <= |g.second.value.whole| <= 2 && AllDigits(g.second.value.fraction))
  }

  /** `float()` of a seconds group, exactly. */
  function DecimalValue(d: Decimal): (v: real)
    requires AllDigits(d.whole) && AllDigits(d.fraction)
  {
    DigitsValue(d.whole) as real + DigitsValue(d.fraction) as real / Pow10(|d.fraction|) as real
  }

  /**
   * `\d{1,2}` followed by the literal `c` (not a digit), matched at `i`: the index of `c`.
   * Backtracking cannot help here, so the digit run at `i` must be one or two long.
   */
  function DigitsThen(s: string, i: nat, c: char): (r: Option<nat>)
    requires i <= |s| && !IsDigit(c)
    ensures r.Some? ==> i < r.value <= i + 2 && r.value < |s| && s[r.value] == c && AllDigits(s[i..r.value])
  {
    var j := RunEnd(s, i, Digit);
    assert AllDigits(s[i..j]);
    if i < j <= i + 2 && j < |s| && s[j] == c then Some(j) else None
  }

  /** `\d{1,2}` at the end of a pattern: greedy, so it takes two digits when there are two. */
  function DigitsGreedy(s: string, i: nat): (r: Option<nat>)
    requires i <= |s|
    ensures r.Some? ==> i < r.value <= i + 2 && r.value <= |s| && AllDigits(s[i..r.value])
  {
    var j := RunEnd(s, i, Digit);
    if j == i then None
    else
      var e := if j > i + 2 then i + 2 else j;
      assert AllDigits(s[i..e]);
      Some(e)
  }

  /** `(\d{1,2}\.\d*|\d{1,2})` at `i`: the end of the match and the group's text. */
  function SecondsGroup(s: string, i: nat): (r: Option<(nat, Decimal)>)
    requires i <= |s|
    ensures r.Some? ==> i < r.value.0 <= |s|
    ensures r.Some? ==> var d := r.value.1;
      AllDigits(d.whole) && 1 <= |d.whole| <= 2 && AllDigits(d.fraction)
  {
    match DigitsThen(s, i, '.')
    case Some(j) =>
      var e := RunEnd(s, j + 1, Digit);
      assert AllDigits(s[j + 1..e]);
      Some((e, Decimal(s[i..j], s[j + 1..e])))
    case None =>
      match DigitsGreedy(s, i)
      case Some(j) => Some((j, Decimal(s[i..j], "")))
      case None => None
  }

  /**
   * `\d{1,2}:\d{1,2}:(\d{1,2}\.\d*|\d{1,2})` (RA1, and DEC1 after its sign) matched at `i`:
   * anchored there, not at the end of the text.
   */
  function MatchLong(s: string, i: nat): (r: Option<Groups>)
    requires i <= |s|
    ensures r.Some? ==> WellFormed(r.value) && r.value.second.Some?
  {
    match DigitsThen(s, i, ':')
    case None => None
    case Some(a) =>
      match DigitsThen(s, a + 1, ':')
      case None => None
      case Some(b) =>
        match SecondsGroup(s, b + 1)
        case None => None
        case Some(sec) => Some(Groups(s[i..a], s[a + 1..b], Some(sec.1)))
  }

  /** `\d{1,2}:\d{1,2}` (RA2, and DEC2 after its sign) matched at `i`. */
  function MatchShort(s: string, i: nat): (r: Option<Groups>)
    requires i <= |s|
    ensures r.Some? ==> WellFormed(r.value) && r.value.second.None?
  {
    match DigitsThen(s, i, ':')
    case None => None
    case Some(a) =>
      match DigitsGreedy(s, a + 1)
      case None => None
      case Some(b) => Some(Groups(s[i..a], s[a + 1..b], None))
  }

  /**
   * The length of the `(-|\+)?` group. Were the rest of the pattern to fail after a sign,
   * backtracking to an empty sign would leave a sign character where a digit is needed.
   */
  function SignLength(s: string): (k: nat)
    ensures k <= |s|
  {
    if s != [] && (s[0] == '-' || s[0] == '+') then 1 else 0
  }

  /**
   * `Declination.from_sexagesimal`: DEC1 first, then DEC2 (seconds 0); no match is a
   * DeclinationParseError, out-of-range numbers a ValueError from the constructor.
   */
  function DecFromSexagesimal(s: string): (r: Result<Declination, CoordError>)
    ensures r.Ok? ==> DecValid(r.value) && 0 <= r.value.degree && 0 <= r.value.minute
    ensures r.Ok? ==> r.value.sign == if s != [] && s[0] == '-' then -1 else 1
    ensures r.Ok? && MatchLong(s, SignLength(s)).None? ==> r.value.second == 0.0
    ensures r.Err? ==> r.error == ValueError || r.error == DeclinationParseError(s)
    ensures r == Err(DeclinationParseError(s)) <==>
      MatchLong(s, SignLength(s)).None? && MatchShort(s, SignLength(s)).None?
  {
    var k := SignLength(s);
    var sign := if k == 1 && s[0] == '-' then -1 else 1;
    match MatchLong(s, k)
    case Some(g) =>
      NewDeclination(sign, DigitsValue(g.major), DigitsValue(g.minute), DecimalValue(g.second.value))
    case None =>
      match MatchShort(s, k)
      case Some(g) => NewDeclination(sign, DigitsValue(g.major), DigitsValue(g.minute), 0.0)
      case None => Err(DeclinationParseError(s))
  }

  /**
   * `RightAscension.from_sexagesimal`: RA1 first, then RA2 (seconds 0); no match is a
   * RightAscensionParseError, out-of-range numbers a ValueError from the constructor.
   */
  function RaFromSexagesimal(s: string): (r: Result<RightAscension, CoordError>)
    ensures r.Ok? ==> RaValid(r.value)
    ensures r.Ok? && MatchLong(s, 0).None? ==> r.value.second == 0.0
    ensures r.Err? ==> r.error == ValueError || r.error == RightAscensionParseError(s)
    ensures r == Err(RightAscensionParseError(s)) <==> MatchLong(s, 0).None? && MatchShort(s, 0).None?
  {
    match MatchLong(s, 0)
    case Some(g) =>
      NewRightAscension(DigitsValue(g.major), DigitsValue(g.minute), DecimalValue(g.second.value))
    case None =>
      match MatchShort(s, 0)
      case Some(g) => NewRightAscension(DigitsValue(g.major), DigitsValue(g.minute), 0.0)
      case None => Err(RightAscensionParseError(s))
  }

  /** The hour field may not exceed 23: `24:00` matches RA2 but fails in the constructor. */
  lemma RaHour24Rejected()
    ensures RaFromSexagesimal("24:00") == Err(ValueError)
  {
    var s := "24:00";
    RunEndAt(s, 0, 2, Digit);
    RunEndAt(s, 3, 5, Digit);
    assert s[0..2] == "24" && s[3..5] == "00";
    assert MatchShort(s, 0) == Some(Groups("24", "00", None));
  }

  // ---------------------------------------------------------------------------
  // Sexagesimal text: formatting

  /** The integer nearest to `x`; a tie goes to the even neighbour, as `'%.4f'` rounds. */
  function RoundHalfEven(x: real): (n: int)
    ensures x - 0.5 <= n as real <= x + 0.5
  {
    var f := x.Floor;
    var d := x - f as real;
    if d < 0.5 then f
    else if d > 0.5 then f + 1
    else if f % 2 == 0 then f else f + 1
  }

  /** The seconds in units of 1e-4, as `'%07.4f'` rounds them; at most 600000 for valid seconds. */
  function SecondsTicks(second: real): (n: int)
    ensures 0.0 <= second ==> 0 <= n
    ensures second < 60.0 ==> n <= 600000
  {
    RoundHalfEven(second * 10000.0)
  }

  /** `'%07.4f'` of `n` ten-thousandths: at least two integer digits, a point, four decimals. */
  function FormatTicks(n: nat): (r: string)
    ensures |r| >= 7
  {
    NatDigitsLength(n % 10000, 4);
    ZeroPad(NatDigits(n / 10000), 2) + "." + ZeroPad(NatDigits(n % 10000), 4)
  }

  /** Python's `'%07.4f' % second` for a non-negative `second`. */
  function FormatSeconds(second: real): (r: string)
    requires 0.0 <= second
    ensures |r| >= 7
  {
    FormatTicks(SecondsTicks(second))
  }

  /** The four decimals of `FormatTicks`. */
  function Decimals(n: nat): string
  {
    ZeroPad(NatDigits(n % 10000), 4)
  }

  /** The layout of the seconds text: two digits, a point, four digits; it starts with `6` exactly when it reads 60.0000. */
  lemma FormatTicksShape(n: nat)
    requires n <= 600000
    ensures FormatTicks(n) == FormatInt(n / 10000, 2) + "." + Decimals(n)
    ensures |Decimals(n)| == 4 && AllDigits(Decimals(n)) && DigitsValue(Decimals(n)) == n % 10000
    ensures FormatTicks(n)[0] == '6' <==> n == 600000
    ensures n == 600000 ==> "0" + FormatTicks(n)[1..] == FormatTicks(0)
  {
    DecimalsShape(n);
    FormatTicksLead(n);
    if n == 600000 {
      FormatTicksCarry(n);
    }
  }

  /** The leading character of the seconds text is the tens digit of the whole seconds. */
  lemma FormatTicksLead(n: nat)
    requires n <= 600000
    ensures FormatTicks(n)[0] == '6' <==> n == 600000
  {
    var d := n / 10000 / 10;
    DecimalsShape(n);
    TwoDigits(n / 10000);
    assert FormatTicks(n)[0] == DigitChar(d);
    assert d == 6 <==> n == 600000;
    assert DigitChar(d) == '6' <==> d == 6;
  }

  /** The four decimals are digits and spell the ticks below a whole second. */
  lemma DecimalsShape(n: nat)
    ensures FormatTicks(n) == FormatInt(n / 10000, 2) + "." + Decimals(n)
    ensures |Decimals(n)| == 4 && AllDigits(Decimals(n)) && DigitsValue(Decimals(n)) == n % 10000
  {
    NatDigitsLength(n % 10000, 4);
    ZeroPadValue(NatDigits(n % 10000), 4);
    DigitsRoundTrip(n % 10000);
  }

  /** Sixty-odd seconds with their `6` replaced by `0` are the same text a minute less. */
  lemma FormatTicksCarry(n: nat)
    requires 600000 <= n < 610000
    ensures "0" + FormatTicks(n)[1..] == FormatTicks(n - 600000)
  {
    var m := n - 600000;
    DecimalsShape(n);
    DecimalsShape(m);
    TwoDigits(n / 10000);
    TwoDigits(m / 10000);
    assert n / 10000 == 60 && m / 10000 == 0 && n % 10000 == m % 10000;
    assert DigitChar(0) == '0';
    ReplaceLead(DigitChar(6), DigitChar(0), Decimals(m));
  }

  /** Replacing the leading character of `[a, b] + "." + d` by `0` gives `[b, b] + "." + d` when `b` is `0`. */
  lemma ReplaceLead(a: char, b: char, d: string)
    requires b == '0'
    ensures "0" + ([a, b] + "." + d)[1..] == [b, b] + "." + d
  {
    assert ([a, b] + "." + d)[1..] == [b] + "." + d;
  }

  /** `'%s%s:%s:%s'`: the final layout of both formatters (a right ascension has an empty sign). */
  function Layout(sign: string, major: string, minute: string, second: string): string
  {
    sign + major + ":" + minute + ":" + second
  }

  /** Where the sign and the first character of the major field sit in a laid-out text. */
  lemma LayoutHead(p: string, a: string, b: string, c: string)
    requires |p| == 1 && a != []
    ensures var s := Layout(p, a, b, c); |s| >= 2 && s[0] == p[0] && s[1] == a[0]
  {
    assert Layout(p, a, b, c) == p + a + (":" + b + ":" + c);
  }

  /** The printed widths: seven characters of seconds, two of minute, at least two of degree or hour. */
  lemma FieldWidths(second: real, major: int, minute: int)
    requires 0.0 <= second < 60.0 && 0 <= minute <= 99
    ensures |SecondsText(second)| == 7 && |FormatInt(minute, 2)| == 2 && |FormatInt(major, 2)| >= 2
    ensures 0 <= major <= 99 ==> |FormatInt(major, 2)| == 2
  {
    var n := SecondsTicks(second);
    var m := if n < 600000 then n else 0;
    FormatTicksShape(m);
    TwoDigits(m / 10000);
    TwoDigits(minute);
    if 0 <= major <= 99 {
      TwoDigits(major);
    }
  }

  /** Whether `'%07.4f'` prints the seconds as 60.0000, the case both formatters test by a leading `6`. */
  function SecondsCarry(second: real): (carry: bool)
    requires 0.0 <= second < 60.0
    ensures carry <==> SecondsTicks(second) == 600000
  {
    FormatTicksShape(SecondsTicks(second));
    FormatSeconds(second)[0] == '6'
  }

  /** The seconds text both formatters write: 60.0000 is rewritten as 00.0000. */
  function SecondsText(second: real): (r: string)
    requires 0.0 <= second < 60.0
    ensures SecondsTicks(second) < 600000 ==> r == FormatTicks(SecondsTicks(second))
    ensures SecondsTicks(second) == 600000 ==> r == FormatTicks(0)
  {
    FormatTicksShape(SecondsTicks(second));
    var secondStr := FormatSeconds(second);
    if secondStr[0] == '6' then "0" + secondStr[1..] else secondStr
  }

  /**
   * The degree and minute that `Declination.to_sexagesimal` prints, as written: a carry out of
   * the seconds is kept only when the minute overflows, so below minute 59 it is lost.
   */
  function DecFields(x: Declination): (r: (int, int))
    requires DecValid(x)
    ensures !SecondsCarry(x.second) || x.minute < 59 ==> r == (x.degree, x.minute)
    ensures SecondsCarry(x.second) && x.minute == 59 ==> r == (x.degree + 1, 0)
  {
    var minute := x.minute + 1;
    if SecondsCarry(x.second) && minute >= 60 then (x.degree + 1, minute - 60)
    else (x.degree, x.minute)
  }

  /** The degree and minute a full carry gives: the minute goes up, overflowing into the degree. */
  function DecFieldsCarried(x: Declination): (r: (int, int))
    requires DecValid(x)
    ensures !SecondsCarry(x.second) ==> r == (x.degree, x.minute)
    ensures SecondsCarry(x.second) && x.minute < 59 ==> r == (x.degree, x.minute + 1)
    ensures SecondsCarry(x.second) && x.minute == 59 ==> r == (x.degree + 1, 0)
  {
    var minute := if SecondsCarry(x.second) then x.minute + 1 else x.minute;
    if minute >= 60 then (x.degree + 1, minute - 60) else (x.degree, minute)
  }

  /** `Declination.to_sexagesimal`, as written (the sign is +1 or -1 for a valid declination, so its ValueError branch is dead). */
  function DecToSexagesimal(x: Declination): (r: string)
    requires DecValid(x)
    ensures |r| >= 14 && r[0] == (if x.sign == 1 then '+' else '-')
    ensures 0 <= x.degree ==> |r| == 14
  {
    var fields := DecFields(x);
    var p := if x.sign == 1 then "+" else "-";
    FieldWidths(x.second, fields.0, fields.1);
    LayoutHead(p, FormatInt(fields.0, 2), FormatInt(fields.1, 2), SecondsText(x.second));
    Layout(p, FormatInt(fields.0, 2), FormatInt(fields.1, 2), SecondsText(x.second))
  }

  /** `Declination.to_sexagesimal` as evidently intended: a carry always reaches the minute field. */
  function DecToSexagesimalCarried(x: Declination): (r: string)
    requires DecValid(x)
    ensures |r| >= 14 && r[0] == (if x.sign == 1 then '+' else '-')
    ensures 0 <= x.degree ==> |r| == 14
  {
    var fields := DecFieldsCarried(x);
    var p := if x.sign == 1 then "+" else "-";
    FieldWidths(x.second, fields.0, fields.1);
    LayoutHead(p, FormatInt(fields.0, 2), FormatInt(fields.1, 2), SecondsText(x.second));
    Layout(p, FormatInt(fields.0, 2), FormatInt(fields.1, 2), SecondsText(x.second))
  }

  /**
   * `RightAscension.to_sexagesimal`, as written: when the seconds round to 60.0000 the
   * carry branch reads the unassigned local `minute` and raises.
   */
  function RaToSexagesimal(x: RightAscension): (r: Result<string, CoordError>)
    requires RaValid(x)
    ensures r.Err? <==> SecondsTicks(x.second) == 600000
    ensures r.Err? ==> r.error == UnboundLocalError
    ensures r.Ok? ==> r.value == Layout("", FormatInt(x.hour, 2), FormatInt(x.minute, 2), FormatTicks(SecondsTicks(x.second)))
  {
    var hourStr := FormatInt(x.hour, 2);
    var minuteStr := FormatInt(x.minute, 2);
    if SecondsCarry(x.second) then Err(UnboundLocalError)
    else Ok(Layout("", hourStr, minuteStr, FormatSeconds(x.second)))
  }

  /** The hour and minute a full carry gives: minute into hour, the hour wrapping at 24. */
  function RaFieldsCarried(x: RightAscension): (r: (int, int))
    requires RaValid(x)
    ensures !SecondsCarry(x.second) ==> r == (x.hour, x.minute)
    ensures SecondsCarry(x.second) && x.minute < 59 ==> r == (x.hour, x.minute + 1)
    ensures SecondsCarry(x.second) && x.minute == 59 && x.hour < 23 ==> r == (x.hour + 1, 0)
    ensures SecondsCarry(x.second) && x.minute == 59 && x.hour == 23 ==> r == (0, 0)
  {
    var minute := if SecondsCarry(x.second) then x.minute + 1 else x.minute;
    var rollover := minute >= 60;
    var hour := if rollover then x.hour + 1 else x.hour;
    (if hour >= 24 then hour - 24 else hour, if rollover then minute - 60 else minute)
  }

  /** `RightAscension.to_sexagesimal` as evidently intended: minute and hour carry, the hour wrapping at 24. */
  function RaToSexagesimalCarried(x: RightAscension): (r: string)
    requires RaValid(x)
    ensures |r| == 13
  {
    var fields := RaFieldsCarried(x);
    FieldWidths(x.second, fields.0, fields.1);
    Layout("", FormatInt(fields.0, 2), FormatInt(fields.1, 2), SecondsText(x.second))
  }

  // ---------------------------------------------------------------------------
  // OnSkyCoordinate

  datatype OnSkyCoordinate = OnSkyCoordinate(ra: RightAscension, dec: Declination)

  predicate SkyValid(c: OnSkyCoordinate) { RaValid(c.ra) && DecValid(c.dec) }

  /** `OnSkyCoordinate.from_sexagesimal`: the right ascension is parsed, and can fail, first. */
  function SkyFromSexagesimal(raText: string, decText: string): (r: Result<OnSkyCoordinate, CoordError>)
    ensures r.Ok? ==> SkyValid(r.value)
    ensures r.Ok? <==> RaFromSexagesimal(raText).Ok? && DecFromSexagesimal(decText).Ok?
    ensures RaFromSexagesimal(raText).Err? ==> r == Err(RaFromSexagesimal(raText).error)
    ensures r.Ok? ==> r.value.ra == RaFromSexagesimal(raText).value && r.value.dec == DecFromSexagesimal(decText).value
  {
    match RaFromSexagesimal(raText)
    case Err(e) => Err(e)
    case Ok(ra) =>
      match DecFromSexagesimal(decText)
      case Err(e) => Err(e)
      case Ok(dec) => Ok(OnSkyCoordinate(ra, dec))
  }

  /** `OnSkyCoordinate.to_sexagesimal`: the pair of texts, raising where the right ascension's formatter raises. */
  function SkyToSexagesimal(c: OnSkyCoordinate): (r: Result<(string, string), CoordError>)
    requires SkyValid(c)
    ensures r.Err? <==> SecondsTicks(c.ra.second) == 600000
    ensures r.Ok? ==> r.value == (RaToSexagesimal(c.ra).value, DecToSexagesimal(c.dec))
  {
    match RaToSexagesimal(c.ra)
    case Err(e) => Err(e)
    case Ok(raText) => Ok((raText, DecToSexagesimal(c.dec)))
  }

  /** `OnSkyCoordinate.from_radians`: the right ascension is converted, and can fail, first. */
  function SkyFromRadians(raRad: real, decRad: real): (r: Result<OnSkyCoordinate, CoordError>)
    ensures r.Ok? ==> SkyValid(r.value)
    ensures r.Ok? <==> RaFromRadians(raRad).Ok? && DecFromRadians(decRad).Ok?
  {
    match RaFromRadians(raRad)
    case Err(e) => Err(e)
    case Ok(ra) =>
      match DecFromRadians(decRad)
      case Err(e) => Err(e)
      case Ok(dec) => Ok(OnSkyCoordinate(ra, dec))
  }

  /** `OnSkyCoordinate.to_radians`. */
  function SkyToRadians(c: OnSkyCoordinate): (r: (real, real))
    ensures SkyValid(c) ==> 0.0 <= r.0 < 2.0 * PI
  {
    (RaToRadians(c.ra), DecToRadians(c.dec))
  }

  /** A coordinate converts to radians and back unchanged (see the two component round trips for the conditions). */
  lemma SkyRadiansRoundTrip(c: OnSkyCoordinate)
    requires SkyValid(c) && RaToRadians(c.ra) > 0.00001 && c.dec.degree >= 0
    requires !(c.dec.sign == -1 && c.dec.degree == 0 && c.dec.minute == 0 && c.dec.second == 0.0)
    ensures SkyFromRadians(SkyToRadians(c).0, SkyToRadians(c).1) == Ok(c)
  {
    RaRadiansRoundTrip(c.ra);
    DecRadiansRoundTrip(c.dec);
  }

  /** Radians that make a coordinate come back from it unchanged. */
  lemma SkyFromRadiansInverse(raRad: real, decRad: real)
    requires SkyFromRadians(raRad, decRad).Ok?
    ensures SkyToRadians(SkyFromRadians(raRad, decRad).value) == (raRad, decRad)
  {
    RaFromRadiansInverse(raRad);
    DecFromRadiansInverse(decRad);
  }
}
