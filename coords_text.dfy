/**
 * Reading formatted coordinates back: the text `to_sexagesimal` writes matches the
 * patterns `from_sexagesimal` accepts, and yields the same fields with the seconds
 * rounded to four decimals. The carry cases show what the formatters do with seconds
 * that round up to a full minute.
 */
module CoordsText {
  import opened Wrappers
  import opened Text
  import opened Coords

  /** Where each piece of a laid-out text followed by `t` sits. */
  lemma LayoutAt(p: string, a: string, b: string, c: string, t: string)
    requires |a| == 2 && |b| == 2 && |c| == 7
    ensures var s := Layout(p, a, b, c) + t; var o := |p|;
      && |s| == o + 13 + |t|
      && (p != [] ==> s[0] == p[0])
      && s[o] == a[0] && s[o + 1] == a[1] && s[o + 2] == ':'
      && s[o + 3] == b[0] && s[o + 4] == b[1] && s[o + 5] == ':'
      && s[o..o + 2] == a && s[o + 3..o + 5] == b
      && (forall k | 0 <= k < 7 :: s[o + 6 + k] == c[k])
      && (t != [] ==> s[o + 13] == t[0])
  {
    var s := Layout(p, a, b, c) + t;
    assert s == p + (a + (":" + (b + (":" + (c + t)))));
  }

  /** The long pattern on a text that has its shape at `o`, the seconds' decimals running to `e`. */
  lemma MatchLongAt(s: string, o: nat, e: nat)
    requires o + 9 <= e <= |s|
    requires IsDigit(s[o]) && IsDigit(s[o + 1]) && s[o + 2] == ':'
    requires IsDigit(s[o + 3]) && IsDigit(s[o + 4]) && s[o + 5] == ':'
    requires IsDigit(s[o + 6]) && IsDigit(s[o + 7]) && s[o + 8] == '.'
    requires forall k | o + 9 <= k < e :: IsDigit(s[k])
    requires e == |s| || !IsDigit(s[e])
    ensures MatchLong(s, o) == Some(Groups(s[o..o + 2], s[o + 3..o + 5], Some(Decimal(s[o + 6..o + 8], s[o + 9..e]))))
  {
    DigitsThenAt(s, o, o + 2, ':');
    DigitsThenAt(s, o + 3, o + 5, ':');
    SecondsPointAt(s, o + 6, o + 8, e);
    MatchLongFrom(s, o, o + 2, o + 5, o + 6, s[o..o + 2], s[o + 3..o + 5]);
  }

  /** Where the pieces of the seconds text sit. */
  lemma SecondsTextAt(n: int)
    requires 0 <= n < 600000
    ensures var c := FormatTicks(n);
      && |c| == 7 && c[0..2] == FormatInt(n / 10000, 2) && c[2] == '.' && c[3..] == Decimals(n)
      && IsDigit(c[0]) && IsDigit(c[1]) && forall k | 3 <= k < 7 :: IsDigit(c[k])
  {
    FormatTicksShape(n);
    var w, f := FormatInt(n / 10000, 2), Decimals(n);
    TwoDigits(n / 10000);
    PointAt(w, f);
  }

  lemma PointAt(w: string, f: string)
    requires |w| == 2 && |f| == 4 && AllDigits(w) && AllDigits(f)
    ensures var c := w + "." + f;
      && |c| == 7 && c[0..2] == w && c[2] == '.' && c[3..] == f
      && IsDigit(c[0]) && IsDigit(c[1]) && forall k | 3 <= k < 7 :: IsDigit(c[k])
  {
    var c := w + "." + f;
    assert c[3..] == f;
    assert c[0..2] == w;
  }

  /** The seconds text of `n` ticks reads as `n` ten-thousandths. */
  lemma TicksValue(n: int)
    requires 0 <= n < 600000
    ensures DecimalValue(Decimal(FormatInt(n / 10000, 2), Decimals(n))) == n as real / 10000.0
  {
    FormatTicksShape(n);
    assert Pow10(4) == 10000;
    assert DigitsValue(FormatInt(n / 10000, 2)) == n / 10000;
  }

  /** The long pattern on any laid-out text whose pieces have the shape of two-digit fields and seconds. */
  lemma MatchLayout(s: string, p: string, a: string, b: string, c: string, t: string)
    requires |a| == 2 && IsDigit(a[0]) && IsDigit(a[1])
    requires |b| == 2 && IsDigit(b[0]) && IsDigit(b[1])
    requires |c| == 7 && IsDigit(c[0]) && IsDigit(c[1]) && c[2] == '.'
    requires forall k | 3 <= k < 7 :: IsDigit(c[k])
    requires t == [] || !IsDigit(t[0])
    requires s == Layout(p, a, b, c) + t
    ensures p != [] ==> |s| >= 1 && s[0] == p[0]
    ensures MatchLong(s, |p|) == Some(Groups(a, b, Some(Decimal(c[0..2], c[3..]))))
  {
    var o := |p|;
    LayoutAt(p, a, b, c, t);
    assert s[o..o + 2] == a && s[o + 3..o + 5] == b;
    assert s[o + 6..o + 8] == c[0..2];
    assert s[o + 9..o + 13] == c[3..];
    MatchLongAt(s, o, o + 13);
  }

  /** The groups `to_sexagesimal`'s layout gives: the two fields and the seconds split at the point. */
  function LaidOutGroups(major: int, minute: int, n: int): Groups
    requires 0 <= major <= 99 && 0 <= minute <= 99 && 0 <= n < 600000
  {
    Groups(FormatInt(major, 2), FormatInt(minute, 2), Some(Decimal(FormatInt(n / 10000, 2), Decimals(n))))
  }

  /**
   * A laid-out text with two-digit fields and seconds below sixty matches DEC1 / RA1 right
   * after the sign, and its groups are the two fields and the seconds text.
   */
  lemma ReadBack(s: string, p: string, major: int, minute: int, n: int, t: string)
    requires 0 <= major <= 99 && 0 <= minute <= 99 && 0 <= n < 600000
    requires t == [] || !IsDigit(t[0])
    requires s == Layout(p, FormatInt(major, 2), FormatInt(minute, 2), FormatTicks(n)) + t
    ensures p != [] ==> |s| >= 1 && s[0] == p[0]
    ensures MatchLong(s, |p|) == Some(LaidOutGroups(major, minute, n))
  {
    var c := FormatTicks(n);
    TwoDigits(major);
    TwoDigits(minute);
    SecondsTextAt(n);
    assert Decimal(c[0..2], c[3..]) == LaidOutGroups(major, minute, n).second.value;
    MatchLayout(s, p, FormatInt(major, 2), FormatInt(minute, 2), c, t);
  }

  /** The groups of a laid-out coordinate read back as the numbers written, the seconds to four decimals. */
  lemma GroupValues(major: int, minute: int, n: int)
    requires 0 <= major <= 99 && 0 <= minute <= 99 && 0 <= n < 600000
    ensures DigitsValue(FormatInt(major, 2)) == major && DigitsValue(FormatInt(minute, 2)) == minute
    ensures AllDigits(Decimals(n))
    ensures DecimalValue(LaidOutGroups(major, minute, n).second.value) == n as real / 10000.0
  {
    TwoDigits(major);
    TwoDigits(minute);
    FormatTicksShape(n);
    TicksValue(n);
  }

  /** A text whose DEC1 groups are known parses to the declination they spell. */
  lemma DecFromLong(s: string, g: Groups, sign: int, degree: int, minute: int, second: real)
    requires |s| >= 1 && ((sign == 1 && s[0] == '+') || (sign == -1 && s[0] == '-'))
    requires MatchLong(s, 1) == Some(g)
    requires DigitsValue(g.major) == degree && DigitsValue(g.minute) == minute
    requires g.second.Some? && DecimalValue(g.second.value) == second
    requires DecOk(sign, degree, minute, second)
    ensures DecFromSexagesimal(s) == Ok(Declination(sign, degree, minute, second))
  {
    assert SignLength(s) == 1;
  }

  /** A text whose RA1 groups are known parses to the right ascension they spell. */
  lemma RaFromLong(s: string, g: Groups, hour: int, minute: int, second: real)
    requires MatchLong(s, 0) == Some(g)
    requires DigitsValue(g.major) == hour && DigitsValue(g.minute) == minute
    requires g.second.Some? && DecimalValue(g.second.value) == second
    requires RaOk(hour, minute, second)
    ensures RaFromSexagesimal(s) == Ok(RightAscension(hour, minute, second))
  {
  }

  /** A signed laid-out text reads back as the declination it spells. */
  lemma ReadDec(s: string, p: string, sign: int, degree: int, minute: int, n: int, t: string)
    requires (sign == 1 && p == "+") || (sign == -1 && p == "-")
    requires 0 <= degree <= 99 && 0 <= minute <= 99 && 0 <= n < 600000
    requires t == [] || !IsDigit(t[0])
    requires s == Layout(p, FormatInt(degree, 2), FormatInt(minute, 2), FormatTicks(n)) + t
    requires DecOk(sign, degree, minute, n as real / 10000.0)
    ensures DecFromSexagesimal(s) == Ok(Declination(sign, degree, minute, n as real / 10000.0))
  {
    var g := LaidOutGroups(degree, minute, n);
    assert |s| >= 1 && s[0] == p[0] && MatchLong(s, 1) == Some(g) by {
      ReadBack(s, p, degree, minute, n, t);
      assert |p| == 1;
    }
    GroupValues(degree, minute, n);
    DecFromLong(s, g, sign, degree, minute, n as real / 10000.0);
  }

  /** An unsigned laid-out text reads back as the right ascension it spells. */
  lemma ReadRa(s: string, hour: int, minute: int, n: int, t: string)
    requires 0 <= hour <= 99 && 0 <= minute <= 99 && 0 <= n < 600000
    requires t == [] || !IsDigit(t[0])
    requires s == Layout("", FormatInt(hour, 2), FormatInt(minute, 2), FormatTicks(n)) + t
    requires RaOk(hour, minute, n as real / 10000.0)
    ensures RaFromSexagesimal(s) == Ok(RightAscension(hour, minute, n as real / 10000.0))
  {
    var g := LaidOutGroups(hour, minute, n);
    assert MatchLong(s, 0) == Some(g) by {
      ReadBack(s, "", hour, minute, n, t);
    }
    GroupValues(hour, minute, n);
    RaFromLong(s, g, hour, minute, n as real / 10000.0);
  }

  // ---------------------------------------------------------------------------
  // Reading any sexagesimal text

  /** A `\d{1,2}` group: one or two digits. */
  predicate Field(d: string)
  {
    1 <= |d| <= 2 && AllDigits(d)
  }

  /** The `(-|\+)?` group's sign: -1 for `-`, +1 for `+` or nothing. */
  function SignOf(p: string): int
  {
    if p == "-" then -1 else 1
  }

  /** The characters of `s` from `i` up to `j` are digits. */
  predicate DigitsBetween(s: string, i: nat, j: nat)
  {
    i <= j <= |s| && forall k | i <= k < j :: IsDigit(s[k])
  }

  /** `\d{1,2}` then the literal `c`, on a text with one or two digits at `i` and `c` right after them. */
  lemma DigitsThenAt(s: string, i: nat, j: nat, c: char)
    requires i < j <= i + 2 && j < |s| && DigitsBetween(s, i, j) && s[j] == c && !IsDigit(c)
    ensures DigitsThen(s, i, c) == Some(j)
  {
    RunEndAt(s, i, j, Digit);
  }

  /** The seconds group with a point: whole digits from `c` to the point at `p`, fraction digits from there to `e`. */
  lemma SecondsPointAt(s: string, c: nat, p: nat, e: nat)
    requires c < p <= c + 2 && p < |s| && DigitsBetween(s, c, p) && s[p] == '.'
    requires DigitsBetween(s, p + 1, e) && (e == |s| || !IsDigit(s[e]))
    ensures SecondsGroup(s, c) == Some((e, Decimal(s[c..p], s[p + 1..e])))
  {
    DigitsThenAt(s, c, p, '.');
    RunEndAt(s, p + 1, e, Digit);
  }

  /** The seconds group without a point: the one or two digits from `c` to `e`. */
  lemma SecondsWholeAt(s: string, c: nat, e: nat)
    requires c < e <= c + 2 && DigitsBetween(s, c, e)
    requires e == |s| || (!IsDigit(s[e]) && s[e] != '.')
    ensures SecondsGroup(s, c) == Some((e, Decimal(s[c..e], "")))
  {
    RunEndAt(s, c, e, Digit);
    assert DigitsThen(s, c, '.') == None;
  }

  /** DEC1 / RA1 at `o` on a text whose two fields `d1` and `d2` end at the colons `a` and `b`, the seconds starting at `c`. */
  lemma MatchLongFrom(s: string, o: nat, a: nat, b: nat, c: nat, d1: string, d2: string)
    requires o <= |s| && a < |s| && DigitsThen(s, o, ':') == Some(a) && DigitsThen(s, a + 1, ':') == Some(b)
    requires s[o..a] == d1 && s[a + 1..b] == d2 && c == b + 1
    ensures SecondsGroup(s, c).Some? ==> MatchLong(s, o) == Some(Groups(d1, d2, Some(SecondsGroup(s, c).value.1)))
  {
  }

  /** DEC2 / RA2 at `o` on a text with a field, a colon at `a` and a field up to `b`; DEC1 / RA1 fail unless `:` and a digit follow. */
  lemma MatchShortFrom(s: string, o: nat, a: nat, b: nat)
    requires o < a <= o + 2 && a + 1 < b <= a + 3 && b <= |s|
    requires DigitsBetween(s, o, a) && s[a] == ':' && DigitsBetween(s, a + 1, b)
    requires b == |s| || !IsDigit(s[b])
    ensures MatchShort(s, o) == Some(Groups(s[o..a], s[a + 1..b], None))
    ensures !(b + 1 < |s| && s[b] == ':' && IsDigit(s[b + 1])) ==> MatchLong(s, o) == None
  {
    DigitsThenAt(s, o, a, ':');
    RunEndAt(s, a + 1, b, Digit);
    if b < |s| && s[b] == ':' && !(b + 1 < |s| && IsDigit(s[b + 1])) {
      RunEndAt(s, b + 1, b + 1, Digit);
      assert SecondsGroup(s, b + 1) == None;
    }
  }

  /** A slice equal to a digit string holds digits only. */
  lemma DigitsOfSlice(s: string, i: nat, j: nat, d: string)
    requires i <= j <= |s| && s[i..j] == d && AllDigits(d)
    ensures DigitsBetween(s, i, j)
  {
    forall k | i <= k < j
      ensures IsDigit(s[k])
    {
      assert s[k] == s[i..j][k - i];
    }
  }

  /** Where the pieces of `p + d1 + ":" + d2 + ":" + r` sit. */
  lemma FieldsLayout(p: string, d1: string, d2: string, r: string)
    ensures var s := p + d1 + ":" + d2 + ":" + r;
      var a := |p| + |d1|; var b := a + 1 + |d2|;
      && |s| == b + 1 + |r|
      && s[|p|..a] == d1 && s[a] == ':' && s[a + 1..b] == d2 && s[b] == ':' && s[b + 1..] == r
  {
    var s := p + d1 + ":" + d2 + ":" + r;
    var a := |p| + |d1|;
    var b := a + 1 + |d2|;
    assert s == (p + d1) + ":" + (d2 + ":" + r);
    assert s[|p|..a] == d1;
    assert s == (p + d1 + ":" + d2) + (":" + r);
    assert s[a + 1..b] == d2;
  }

  /** Where the pieces of `w + "." + f + t` sit. */
  lemma PointLayout(w: string, f: string, t: string)
    ensures var r := w + "." + f + t;
      && |r| == |w| + 1 + |f| + |t|
      && r[..|w|] == w && r[|w|] == '.' && r[|w| + 1..|w| + 1 + |f|] == f && r[|w| + 1 + |f|..] == t
  {
    var r := w + "." + f + t;
    assert r == (w + ".") + f + t;
    assert r[|w| + 1..|w| + 1 + |f|] == f;
  }

  /** Two fields that sit between the colons at `a` and `b` end where the field patterns stop. */
  lemma FieldEnds(s: string, o: nat, a: nat, b: nat, d1: string, d2: string)
    requires Field(d1) && Field(d2) && a == o + |d1| && b == a + 1 + |d2| && b < |s|
    requires s[o..a] == d1 && s[a] == ':' && s[a + 1..b] == d2 && s[b] == ':'
    ensures IsDigit(s[o]) && DigitsThen(s, o, ':') == Some(a) && DigitsThen(s, a + 1, ':') == Some(b)
  {
    DigitsOfSlice(s, o, a, d1);
    DigitsOfSlice(s, a + 1, b, d2);
    DigitsThenAt(s, o, a, ':');
    DigitsThenAt(s, a + 1, b, ':');
  }

  /** Where the pieces of a DEC1 / RA1 text after a prefix `q` sit. */
  lemma LongFields(q: string, d1: string, d2: string, r: string)
    ensures var s := q + d1 + ":" + d2 + ":" + r;
      var o, a := |q|, |q| + |d1|; var b := a + 1 + |d2|;
      && b < |s| && s[b + 1..] == r && s[..o] == q
      && s[o..a] == d1 && s[a] == ':' && s[a + 1..b] == d2 && s[b] == ':'
  {
    var s := q + d1 + ":" + d2 + ":" + r;
    FieldsLayout(q, d1, d2, r);
    assert s == q + (d1 + ":" + d2 + ":" + r);
  }

  /** The groups of a DEC1 / RA1 match right after a prefix `q`, on a text that holds two fields and a seconds group there. */
  lemma LongGroups(q: string, d1: string, d2: string, r: string, c: nat)
    requires Field(d1) && Field(d2) && c == |q| + |d1| + 1 + |d2| + 1
    ensures var s := q + d1 + ":" + d2 + ":" + r;
      && c <= |s| && s[c..] == r && s[..|q|] == q && IsDigit(s[|q|])
      && (SecondsGroup(s, c).Some? ==> MatchLong(s, |q|) == Some(Groups(d1, d2, Some(SecondsGroup(s, c).value.1))))
  {
    var s := q + d1 + ":" + d2 + ":" + r;
    LongFields(q, d1, d2, r);
    FieldEnds(s, |q|, |q| + |d1|, c - 1, d1, d2);
    MatchLongFrom(s, |q|, |q| + |d1|, c - 1, c, d1, d2);
  }

  /** A seconds text with a point, followed by a text that does not start with a digit, is that seconds group. */
  lemma PointGroup(s: string, c: nat, w: string, f: string, t: string)
    requires Field(w) && AllDigits(f) && (t == [] || !IsDigit(t[0]))
    requires c <= |s| && s[c..] == w + "." + f + t
    ensures SecondsGroup(s, c) == Some((c + |w| + 1 + |f|, Decimal(w, f)))
  {
    PointLayout(w, f, t);
    var p := c + |w|;
    var e := p + 1 + |f|;
    assert s[c..p] == s[c..][..|w|];
    assert s[p + 1..e] == s[c..][|w| + 1..|w| + 1 + |f|];
    assert s[p] == s[c..][|w|];
    if e < |s| {
      assert s[e] == s[c..][|w| + 1 + |f|] == t[0];
    }
    DigitsOfSlice(s, c, p, w);
    DigitsOfSlice(s, p + 1, e, f);
    SecondsPointAt(s, c, p, e);
  }

  /** A seconds group without a fraction is worth its whole seconds. */
  lemma WholeValue(w: string)
    requires AllDigits(w)
    ensures DecimalValue(Decimal(w, "")) == DigitsValue(w) as real
  {
    assert DigitsValue("") == 0 && Pow10(0) == 1;
  }

  /** A seconds text without a point, followed by neither a digit nor a point, is that seconds group. */
  lemma WholeGroup(s: string, c: nat, w: string, t: string)
    requires Field(w) && (t == [] || (!IsDigit(t[0]) && t[0] != '.'))
    requires c <= |s| && s[c..] == w + t
    ensures SecondsGroup(s, c) == Some((c + |w|, Decimal(w, "")))
  {
    var e := c + |w|;
    assert s[c..e] == s[c..][..|w|] == w;
    if e < |s| {
      assert s[e] == s[c..][|w|] == t[0];
    }
    DigitsOfSlice(s, c, e, w);
    SecondsWholeAt(s, c, e);
  }

  /** The groups of a DEC2 / RA2 match right after a prefix `q`, on a text that holds two fields there. */
  lemma ShortGroups(q: string, d1: string, d2: string, t: string)
    requires Field(d1) && Field(d2) && (t == [] || !IsDigit(t[0]))
    ensures var s := q + d1 + ":" + d2 + t; |s| > |q| && s[..|q|] == q && IsDigit(s[|q|])
    ensures MatchShort(q + d1 + ":" + d2 + t, |q|) == Some(Groups(d1, d2, None))
    ensures !(|t| >= 2 && t[0] == ':' && IsDigit(t[1])) ==> MatchLong(q + d1 + ":" + d2 + t, |q|) == None
  {
    var s := q + d1 + ":" + d2 + t;
    var o, a := |q|, |q| + |d1|;
    var b := a + 1 + |d2|;
    assert s == q + (d1 + ":" + d2 + t);
    assert s == (q + d1) + ":" + (d2 + t);
    assert s[o..a] == d1;
    assert s == (q + d1 + ":" + d2) + t;
    assert s[a + 1..b] == d2;
    if b < |s| {
      assert s[b] == t[0];
      if b + 1 < |s| {
        assert s[b + 1] == t[1];
      }
    }
    DigitsOfSlice(s, o, a, d1);
    DigitsOfSlice(s, a + 1, b, d2);
    MatchShortFrom(s, o, a, b);
  }

  /** The sign group is the optional sign `p` when a digit follows it. */
  lemma SignLengthOf(p: string, s: string)
    requires (p == "" || p == "+" || p == "-") && |s| > |p| && s[..|p|] == p && IsDigit(s[|p|])
    ensures SignLength(s) == |p|
    ensures (|p| == 1 && s[0] == '-') <==> p == "-"
  {
    if p != "" {
      assert s[0] == s[..1][0] == p[0];
    }
  }

  /** `Declination.from_sexagesimal` once DEC1 has matched after the sign group, its seconds group ending at `sec.0`. */
  lemma DecOfLong(s: string, p: string, d1: string, d2: string, c: nat, sec: (nat, Decimal))
    requires (p == "" || p == "+" || p == "-") && |s| > |p| && s[..|p|] == p && IsDigit(s[|p|])
    requires c <= |s| && SecondsGroup(s, c) == Some(sec)
    requires SecondsGroup(s, c).Some? ==> MatchLong(s, |p|) == Some(Groups(d1, d2, Some(SecondsGroup(s, c).value.1)))
    ensures DecFromSexagesimal(s) == NewDeclination(SignOf(p), DigitsValue(d1), DigitsValue(d2), DecimalValue(sec.1))
  {
    SignLengthOf(p, s);
  }

  /** `Declination.from_sexagesimal` once DEC1 has failed and DEC2 has matched after the sign group. */
  lemma DecOfShort(s: string, p: string, g: Groups)
    requires (p == "" || p == "+" || p == "-") && |s| > |p| && s[..|p|] == p && IsDigit(s[|p|])
    requires MatchLong(s, |p|) == None && MatchShort(s, |p|) == Some(g)
    ensures DecFromSexagesimal(s) == NewDeclination(SignOf(p), DigitsValue(g.major), DigitsValue(g.minute), 0.0)
  {
    SignLengthOf(p, s);
  }

  /**
   * `Declination.from_sexagesimal` on any DEC1 text whose seconds have a point: the declination
   * with the sign read, the degree and minute as `int()` reads them and the seconds as `float()`
   * reads them, or ValueError from the constructor when these are out of range.
   */
  lemma DecParseLong(p: string, d1: string, d2: string, w: string, f: string, t: string)
    requires p == "" || p == "+" || p == "-"
    requires Field(d1) && Field(d2) && Field(w) && AllDigits(f)
    requires t == [] || !IsDigit(t[0])
    ensures DecFromSexagesimal(p + d1 + ":" + d2 + ":" + w + "." + f + t)
      == NewDeclination(SignOf(p), DigitsValue(d1), DigitsValue(d2), DecimalValue(Decimal(w, f)))
  {
    var r := w + "." + f + t;
    var s := p + d1 + ":" + d2 + ":" + w + "." + f + t;
    assert s == p + d1 + ":" + d2 + ":" + r;
    var c := |p| + |d1| + 1 + |d2| + 1;
    LongGroups(p, d1, d2, r, c);
    PointGroup(s, c, w, f, t);
    DecOfLong(s, p, d1, d2, c, (c + |w| + 1 + |f|, Decimal(w, f)));
  }

  /** The same when the seconds have no point: they are the whole seconds `int()` of the group gives. */
  lemma DecParseWhole(p: string, d1: string, d2: string, w: string, t: string)
    requires p == "" || p == "+" || p == "-"
    requires Field(d1) && Field(d2) && Field(w)
    requires t == [] || (!IsDigit(t[0]) && t[0] != '.')
    ensures DecFromSexagesimal(p + d1 + ":" + d2 + ":" + w + t)
      == NewDeclination(SignOf(p), DigitsValue(d1), DigitsValue(d2), DigitsValue(w) as real)
  {
    var r := w + t;
    var s := p + d1 + ":" + d2 + ":" + w + t;
    assert s == p + d1 + ":" + d2 + ":" + r;
    var c := |p| + |d1| + 1 + |d2| + 1;
    LongGroups(p, d1, d2, r, c);
    WholeGroup(s, c, w, t);
    DecOfLong(s, p, d1, d2, c, (c + |w|, Decimal(w, "")));
    WholeValue(w);
  }

  /** `Declination.from_sexagesimal` on a DEC2 text that DEC1 does not match: the seconds are 0. */
  lemma DecParseShort(p: string, d1: string, d2: string, t: string)
    requires p == "" || p == "+" || p == "-"
    requires Field(d1) && Field(d2)
    requires t == [] || !IsDigit(t[0])
    requires !(|t| >= 2 && t[0] == ':' && IsDigit(t[1]))
    ensures DecFromSexagesimal(p + d1 + ":" + d2 + t) == NewDeclination(SignOf(p), DigitsValue(d1), DigitsValue(d2), 0.0)
  {
    ShortGroups(p, d1, d2, t);
    DecOfShort(p + d1 + ":" + d2 + t, p, Groups(d1, d2, None));
  }

  /** `RightAscension.from_sexagesimal` once RA1 has matched at the start, its seconds group ending at `sec.0`. */
  lemma RaOfLong(s: string, d1: string, d2: string, c: nat, sec: (nat, Decimal))
    requires c <= |s| && SecondsGroup(s, c) == Some(sec)
    requires SecondsGroup(s, c).Some? ==> MatchLong(s, 0) == Some(Groups(d1, d2, Some(SecondsGroup(s, c).value.1)))
    ensures RaFromSexagesimal(s) == NewRightAscension(DigitsValue(d1), DigitsValue(d2), DecimalValue(sec.1))
  {
  }

  /** `RightAscension.from_sexagesimal` once RA1 has failed and RA2 has matched at the start. */
  lemma RaOfShort(s: string, g: Groups)
    requires MatchLong(s, 0) == None && MatchShort(s, 0) == Some(g)
    ensures RaFromSexagesimal(s) == NewRightAscension(DigitsValue(g.major), DigitsValue(g.minute), 0.0)
  {
  }

  /** `RightAscension.from_sexagesimal` on any RA1 text whose seconds have a point: the fields as read, or ValueError. */
  lemma RaParseLong(d1: string, d2: string, w: string, f: string, t: string)
    requires Field(d1) && Field(d2) && Field(w) && AllDigits(f)
    requires t == [] || !IsDigit(t[0])
    ensures RaFromSexagesimal(d1 + ":" + d2 + ":" + w + "." + f + t)
      == NewRightAscension(DigitsValue(d1), DigitsValue(d2), DecimalValue(Decimal(w, f)))
  {
    var r := w + "." + f + t;
    var s := d1 + ":" + d2 + ":" + w + "." + f + t;
    assert "" + d1 == d1;
    assert s == "" + d1 + ":" + d2 + ":" + r;
    var c := |d1| + 1 + |d2| + 1;
    LongGroups("", d1, d2, r, c);
    PointGroup(s, c, w, f, t);
    RaOfLong(s, d1, d2, c, (c + |w| + 1 + |f|, Decimal(w, f)));
  }

  /** The same when the seconds have no point. */
  lemma RaParseWhole(d1: string, d2: string, w: string, t: string)
    requires Field(d1) && Field(d2) && Field(w)
    requires t == [] || (!IsDigit(t[0]) && t[0] != '.')
    ensures RaFromSexagesimal(d1 + ":" + d2 + ":" + w + t)
      == NewRightAscension(DigitsValue(d1), DigitsValue(d2), DigitsValue(w) as real)
  {
    var r := w + t;
    var s := d1 + ":" + d2 + ":" + w + t;
    assert "" + d1 == d1;
    assert s == "" + d1 + ":" + d2 + ":" + r;
    var c := |d1| + 1 + |d2| + 1;
    LongGroups("", d1, d2, r, c);
    WholeGroup(s, c, w, t);
    RaOfLong(s, d1, d2, c, (c + |w|, Decimal(w, "")));
    WholeValue(w);
  }

  /** `RightAscension.from_sexagesimal` on an RA2 text that RA1 does not match: the seconds are 0. */
  lemma RaParseShort(d1: string, d2: string, t: string)
    requires Field(d1) && Field(d2)
    requires t == [] || !IsDigit(t[0])
    requires !(|t| >= 2 && t[0] == ':' && IsDigit(t[1]))
    ensures RaFromSexagesimal(d1 + ":" + d2 + t) == NewRightAscension(DigitsValue(d1), DigitsValue(d2), 0.0)
  {
    var s := "" + d1 + ":" + d2 + t;
    assert s == d1 + ":" + d2 + t;
    ShortGroups("", d1, d2, t);
    RaOfShort(s, Groups(d1, d2, None));
  }

  /** The example texts below, split into the pieces the patterns see. */
  lemma ExampleTexts()
    ensures "00:48:33.9" == "00" + ":" + "48" + ":" + "33" + "." + "9" + ""
    ensures "+34:12:08.0" == "+" + "34" + ":" + "12" + ":" + "08" + "." + "0" + ""
    ensures "5:3:7.25" == "" + "5" + ":" + "3" + ":" + "7" + "." + "25" + ""
    ensures "12:34" == "12" + ":" + "34" + ""
    ensures "-95:00" == "-" + "95" + ":" + "00" + ""
  {
  }

  /** The RA text of the module's self-test, piece by piece. */
  lemma SelfTestRaPieces()
    ensures RaFromSexagesimal("00" + ":" + "48" + ":" + "33" + "." + "9" + "") == Ok(RightAscension(0, 48, 33.9))
  {
    SelfTestRaValues();
    RaParseLong("00", "48", "33", "9", "");
  }

  lemma SelfTestRaValues()
    ensures DigitsValue("00") == 0 && DigitsValue("48") == 48 && DecimalValue(Decimal("33", "9")) == 33.9
  {
    assert DigitsValue("33") == 33 && DigitsValue("9") == 9 && Pow10(1) == 10;
  }

  /** The module's self-test reads the RA `00:48:33.9` as 0h 48m 33.9s. */
  lemma SelfTestRa(s: string)
    requires s == "00:48:33.9"
    ensures RaFromSexagesimal(s) == Ok(RightAscension(0, 48, 33.9))
  {
    ExampleTexts();
    SelfTestRaPieces();
  }

  /** The declination text of the module's self-test, piece by piece. */
  lemma SelfTestDecPieces()
    ensures DecFromSexagesimal("+" + "34" + ":" + "12" + ":" + "08" + "." + "0" + "") == Ok(Declination(1, 34, 12, 8.0))
  {
    SelfTestDecValues();
    DecParseLong("+", "34", "12", "08", "0", "");
  }

  lemma SelfTestDecValues()
    ensures DigitsValue("34") == 34 && DigitsValue("12") == 12 && DecimalValue(Decimal("08", "0")) == 8.0
  {
    assert DigitsValue("08") == 8 && DigitsValue("0") == 0 && Pow10(1) == 10;
  }

  /** The module's self-test reads the declination `+34:12:08.0` as +34° 12' 8". */
  lemma SelfTestDec(s: string)
    requires s == "+34:12:08.0"
    ensures DecFromSexagesimal(s) == Ok(Declination(1, 34, 12, 8.0))
  {
    ExampleTexts();
    SelfTestDecPieces();
  }

  /** Single-digit fields, no sign and a two-digit fraction, piece by piece. */
  lemma UnpaddedDecPieces()
    ensures DecFromSexagesimal("" + "5" + ":" + "3" + ":" + "7" + "." + "25" + "") == Ok(Declination(1, 5, 3, 7.25))
  {
    UnpaddedDecValues();
    DecParseLong("", "5", "3", "7", "25", "");
  }

  lemma UnpaddedDecValues()
    ensures DigitsValue("5") == 5 && DigitsValue("3") == 3 && DecimalValue(Decimal("7", "25")) == 7.25
  {
    assert DigitsValue("7") == 7 && DigitsValue("25") == 25 && Pow10(2) == 100;
  }

  /** `5:3:7.25` has single-digit fields and no sign: a positive declination 5° 3' 7.25". */
  lemma UnpaddedDec(s: string)
    requires s == "5:3:7.25"
    ensures DecFromSexagesimal(s) == Ok(Declination(1, 5, 3, 7.25))
  {
    ExampleTexts();
    UnpaddedDecPieces();
  }

  /** An RA text without seconds, piece by piece. */
  lemma ShortRaPieces()
    ensures RaFromSexagesimal("12" + ":" + "34" + "") == Ok(RightAscension(12, 34, 0.0))
  {
    RaParseShort("12", "34", "");
    assert DigitsValue("12") == 12 && DigitsValue("34") == 34;
  }

  /** `12:34` is read by RA2: 12h 34m with the seconds 0. */
  lemma ShortRa(s: string)
    requires s == "12:34"
    ensures RaFromSexagesimal(s) == Ok(RightAscension(12, 34, 0.0))
  {
    ExampleTexts();
    ShortRaPieces();
  }

  /** A declination text whose degree is out of range, piece by piece. */
  lemma OutOfRangeDecPieces()
    ensures DecFromSexagesimal("-" + "95" + ":" + "00" + "") == Err(ValueError)
  {
    DecParseShort("-", "95", "00", "");
    assert DigitsValue("95") == 95;
  }

  /** `-95:00` matches DEC2 but no declination has 95 degrees: the constructor raises ValueError. */
  lemma OutOfRangeDec(s: string)
    requires s == "-95:00"
    ensures DecFromSexagesimal(s) == Err(ValueError)
  {
    ExampleTexts();
    OutOfRangeDecPieces();
  }

  // ---------------------------------------------------------------------------
  // Round trips

  /**
   * A declination whose seconds do not round up to a full minute: reading back the text of
   * `to_sexagesimal` (followed by any text that does not start with a digit) gives the same
   * sign, degree and minute, and the seconds rounded to four decimals.
   */
  lemma DecTextRoundTrip(x: Declination, t: string)
    requires DecValid(x) && 0 <= x.degree && SecondsTicks(x.second) < 600000
    requires t == [] || !IsDigit(t[0])
    ensures var r := DecFromSexagesimal(DecToSexagesimal(x) + t);
      r.Ok? && r.value == Declination(x.sign, x.degree, x.minute, SecondsTicks(x.second) as real / 10000.0)
  {
    var s := DecToSexagesimal(x) + t;
    var fields := DecFields(x);
    ReadDec(s, if x.sign == 1 then "+" else "-", x.sign, fields.0, fields.1, SecondsTicks(x.second), t);
  }

  /** The same for a right ascension: its text is well formed and reads back rounded. */
  lemma RaTextRoundTrip(x: RightAscension, t: string)
    requires RaValid(x) && SecondsTicks(x.second) < 600000
    requires t == [] || !IsDigit(t[0])
    ensures RaToSexagesimal(x).Ok?
    ensures var r := RaFromSexagesimal(RaToSexagesimal(x).value + t);
      r.Ok? && r.value == RightAscension(x.hour, x.minute, SecondsTicks(x.second) as real / 10000.0)
  {
    ReadRa(RaToSexagesimal(x).value + t, x.hour, x.minute, SecondsTicks(x.second), t);
  }

  /** As written, a carry out of the seconds below minute 59 is lost: the text reads back a minute short. */
  lemma DecCarryKeepsMinute(x: Declination, t: string)
    requires DecValid(x) && 0 <= x.degree && SecondsTicks(x.second) == 600000 && x.minute < 59
    requires t == [] || !IsDigit(t[0])
    ensures var r := DecFromSexagesimal(DecToSexagesimal(x) + t);
      r.Ok? && r.value == Declination(x.sign, x.degree, x.minute, 0.0)
  {
    var s := DecToSexagesimal(x) + t;
    var fields := DecFields(x);
    ReadDec(s, if x.sign == 1 then "+" else "-", x.sign, fields.0, fields.1, 0, t);
  }

  /** At minute 59 the carry does reach the degree, and the minute reads 00. */
  lemma DecCarryRollsOver(x: Declination, t: string)
    requires DecValid(x) && 0 <= x.degree && SecondsTicks(x.second) == 600000 && x.minute == 59
    requires t == [] || !IsDigit(t[0])
    ensures var r := DecFromSexagesimal(DecToSexagesimal(x) + t);
      r.Ok? && r.value == Declination(x.sign, x.degree + 1, 0, 0.0)
  {
    var s := DecToSexagesimal(x) + t;
    var fields := DecFields(x);
    ReadDec(s, if x.sign == 1 then "+" else "-", x.sign, fields.0, fields.1, 0, t);
  }

  /**
   * As written, a carry out of the seconds is lost unless the minute is 59: the text reads
   * back one minute short. With minute 59 the degree goes up and the minute reads 00.
   */
  lemma DecCarryAsWritten(x: Declination, t: string)
    requires DecValid(x) && 0 <= x.degree && SecondsTicks(x.second) == 600000
    requires t == [] || !IsDigit(t[0])
    ensures var r := DecFromSexagesimal(DecToSexagesimal(x) + t);
      && r.Ok?
      && (x.minute < 59 ==> r.value == Declination(x.sign, x.degree, x.minute, 0.0))
      && (x.minute == 59 ==> r.value == Declination(x.sign, x.degree + 1, 0, 0.0))
  {
    if x.minute < 59 {
      DecCarryKeepsMinute(x, t);
    } else {
      DecCarryRollsOver(x, t);
    }
  }

  lemma AppendEmpty(s: string)
    ensures s + "" == s
  {
  }

  /** +10:20:59.99999 is printed as +10:20:00.0000, a minute short. */
  lemma DecCarryLosesMinute()
    ensures DecValid(Declination(1, 10, 20, 59.99999))
    ensures DecFromSexagesimal(DecToSexagesimal(Declination(1, 10, 20, 59.99999))) == Ok(Declination(1, 10, 20, 0.0))
  {
    var x := Declination(1, 10, 20, 59.99999);
    assert SecondsTicks(59.99999) == 600000;
    DecCarryKeepsMinute(x, "");
    AppendEmpty(DecToSexagesimal(x));
  }

  /** 01:02:59.99999 has seconds that round to 60.0000, so formatting it raises. */
  lemma RaCarryRaises()
    ensures RaValid(RightAscension(1, 2, 59.99999))
    ensures RaToSexagesimal(RightAscension(1, 2, 59.99999)) == Err(UnboundLocalError)
  {
    assert SecondsTicks(59.99999) == 600000;
  }

  /** No group can start at a character that is not a digit. */
  lemma NoDigitNoMatch(s: string, i: nat)
    requires i < |s| && !IsDigit(s[i])
    ensures MatchLong(s, i).None? && MatchShort(s, i).None?
  {
    RunEndAt(s, i, i, Digit);
  }

  /**
   * `dec_ok` admits a negative degree beside the sign field; `'%02d'` then prints it with its
   * own minus after the sign, and no pattern of `from_sexagesimal` accepts a second sign.
   * The one negative degree that escapes is -1 at minute 59 when the seconds carry: it prints 00.
   */
  lemma DecNegativeDegreeUnread(x: Declination, t: string)
    requires DecValid(x) && x.degree < 0
    requires !(x.degree == -1 && x.minute == 59 && SecondsCarry(x.second))
    ensures var s := DecToSexagesimal(x) + t;
      |s| >= 2 && s[1] == '-' && DecFromSexagesimal(s) == Err(DeclinationParseError(s))
  {
    var u := DecToSexagesimal(x);
    DecTextHead(x);
    assert FormatInt(DecFields(x).0, 2)[0] == '-';
    assert (u + t)[0] == u[0] && (u + t)[1] == u[1];
    SecondSignUnread(u + t);
  }

  /** The text of a declination starts with its sign and then the first character of its degree. */
  lemma DecTextHead(x: Declination)
    requires DecValid(x)
    ensures var s := DecToSexagesimal(x);
      |s| >= 2 && s[0] == (if x.sign == 1 then '+' else '-') && s[1] == FormatInt(DecFields(x).0, 2)[0]
  {
    var fields := DecFields(x);
    LayoutHead(if x.sign == 1 then "+" else "-", FormatInt(fields.0, 2), FormatInt(fields.1, 2), SecondsText(x.second));
  }

  /** A sign followed by a minus: neither pattern gets past the sign. */
  lemma SecondSignUnread(s: string)
    requires |s| >= 2 && (s[0] == '+' || s[0] == '-') && s[1] == '-'
    ensures DecFromSexagesimal(s) == Err(DeclinationParseError(s))
  {
    assert SignLength(s) == 1;
    NoDigitNoMatch(s, 1);
  }

  /** Declination(1, -5, 0, 0.0) passes `dec_ok`, yet its text `+-5:00:00.0000` does not parse. */
  lemma NegativeDegreeUnread()
    ensures DecValid(Declination(1, -5, 0, 0.0))
    ensures var s := DecToSexagesimal(Declination(1, -5, 0, 0.0));
      s[..2] == "+-" && DecFromSexagesimal(s) == Err(DeclinationParseError(s))
  {
    var x := Declination(1, -5, 0, 0.0);
    DecNegativeDegreeUnread(x, "");
    AppendEmpty(DecToSexagesimal(x));
  }

  /** The size the corrected declination text should read back as: the rounded seconds on the fields. */
  function RoundedDecMagnitude(x: Declination): real
  {
    ((x.degree * 60 + x.minute) * 60) as real + SecondsTicks(x.second) as real / 10000.0
  }

  /** The arithmetic without a carry: the fields with the rounded seconds are valid and have the rounded size. */
  lemma DecPlainTotal(x: Declination)
    requires DecValid(x) && 0 <= x.degree && SecondsTicks(x.second) < 600000
    ensures DecOk(x.sign, x.degree, x.minute, SecondsTicks(x.second) as real / 10000.0)
    ensures DecMagnitude(Declination(x.sign, x.degree, x.minute, SecondsTicks(x.second) as real / 10000.0)) == RoundedDecMagnitude(x)
  {
    if x.degree == 90 {
      assert SecondsTicks(x.second) == RoundHalfEven(0.0) == 0;
    }
  }

  /** With no carry the corrected declination text reads back as the fields and the rounded seconds. */
  lemma DecCarriedReadPlain(x: Declination, t: string)
    requires DecValid(x) && 0 <= x.degree && SecondsTicks(x.second) < 600000
    requires t == [] || !IsDigit(t[0])
    ensures var r := DecFromSexagesimal(DecToSexagesimalCarried(x) + t);
      r.Ok? && DecValid(r.value) && r.value.sign == x.sign && DecMagnitude(r.value) == RoundedDecMagnitude(x)
  {
    var s := DecToSexagesimalCarried(x) + t;
    var fields := DecFieldsCarried(x);
    assert fields == (x.degree, x.minute);
    DecPlainTotal(x);
    ReadDec(s, if x.sign == 1 then "+" else "-", x.sign, fields.0, fields.1, SecondsTicks(x.second), t);
  }

  /** The arithmetic of a declination carry: the value one minute on has the rounded size. */
  lemma DecCarryTotal(x: Declination, degree: int, minute: int)
    requires DecValid(x) && 0 <= x.degree && SecondsTicks(x.second) == 600000
    requires (x.minute < 59 && degree == x.degree && minute == x.minute + 1) ||
             (x.minute == 59 && degree == x.degree + 1 && minute == 0)
    ensures 0 <= degree <= 90 && DecOk(x.sign, degree, minute, 0.0)
    ensures DecMagnitude(Declination(x.sign, degree, minute, 0.0)) == RoundedDecMagnitude(x)
  {
  }

  /** With a carry below minute 59 the corrected declination text reads back a minute on. */
  lemma DecCarriedReadMinute(x: Declination, t: string)
    requires DecValid(x) && 0 <= x.degree && SecondsTicks(x.second) == 600000 && x.minute < 59
    requires t == [] || !IsDigit(t[0])
    ensures var r := DecFromSexagesimal(DecToSexagesimalCarried(x) + t);
      r.Ok? && DecValid(r.value) && r.value.sign == x.sign && DecMagnitude(r.value) == RoundedDecMagnitude(x)
  {
    var s := DecToSexagesimalCarried(x) + t;
    var fields := DecFieldsCarried(x);
    DecCarryTotal(x, fields.0, fields.1);
    ReadDec(s, if x.sign == 1 then "+" else "-", x.sign, fields.0, fields.1, 0, t);
  }

  /** With a carry at minute 59 the corrected declination text reads back a degree on. */
  lemma DecCarriedReadDegree(x: Declination, t: string)
    requires DecValid(x) && 0 <= x.degree && SecondsTicks(x.second) == 600000 && x.minute == 59
    requires t == [] || !IsDigit(t[0])
    ensures var r := DecFromSexagesimal(DecToSexagesimalCarried(x) + t);
      r.Ok? && DecValid(r.value) && r.value.sign == x.sign && DecMagnitude(r.value) == RoundedDecMagnitude(x)
  {
    var s := DecToSexagesimalCarried(x) + t;
    var fields := DecFieldsCarried(x);
    DecCarryTotal(x, fields.0, fields.1);
    ReadDec(s, if x.sign == 1 then "+" else "-", x.sign, fields.0, fields.1, 0, t);
  }

  /**
   * With the carry done in full, the text reads back as a valid declination of the same sign
   * whose size is the original's with the seconds rounded to four decimals.
   */
  lemma DecTextRoundTripCarried(x: Declination, t: string)
    requires DecValid(x) && 0 <= x.degree
    requires t == [] || !IsDigit(t[0])
    ensures var r := DecFromSexagesimal(DecToSexagesimalCarried(x) + t);
      r.Ok? && DecValid(r.value) && r.value.sign == x.sign && DecMagnitude(r.value) == RoundedDecMagnitude(x)
  {
    if SecondsTicks(x.second) < 600000 {
      DecCarriedReadPlain(x, t);
    } else if x.minute < 59 {
      DecCarriedReadMinute(x, t);
    } else {
      DecCarriedReadDegree(x, t);
    }
  }

  /** The total a corrected RA text should read back as: the rounded seconds, less a day at 24h. */
  function RoundedRaSeconds(x: RightAscension): real
  {
    var rounded := ((x.hour * 60 + x.minute) * 60) as real + SecondsTicks(x.second) as real / 10000.0;
    if rounded < 86400.0 then rounded else rounded - 86400.0
  }

  /** The arithmetic of a carry: the value one minute on has the rounded total. */
  lemma RaCarryTotal(x: RightAscension, hour: int, minute: int)
    requires RaValid(x) && SecondsTicks(x.second) == 600000
    requires (x.minute < 59 && hour == x.hour && minute == x.minute + 1) ||
             (x.minute == 59 && x.hour < 23 && hour == x.hour + 1 && minute == 0) ||
             (x.minute == 59 && x.hour == 23 && hour == 0 && minute == 0)
    ensures RaValid(RightAscension(hour, minute, 0.0))
    ensures RaSeconds(RightAscension(hour, minute, 0.0)) == RoundedRaSeconds(x)
  {
  }

  /** The arithmetic without a carry: the fields and the rounded seconds have the rounded total. */
  lemma RaPlainTotal(x: RightAscension)
    requires RaValid(x) && SecondsTicks(x.second) < 600000
    ensures RaSeconds(RightAscension(x.hour, x.minute, SecondsTicks(x.second) as real / 10000.0)) == RoundedRaSeconds(x)
  {
  }

  /** With no carry the corrected RA text reads back as the fields and the rounded seconds. */
  lemma RaCarriedReadPlain(x: RightAscension, t: string)
    requires RaValid(x) && SecondsTicks(x.second) < 600000
    requires t == [] || !IsDigit(t[0])
    ensures var r := RaFromSexagesimal(RaToSexagesimalCarried(x) + t);
      r.Ok? && RaValid(r.value) && RaSeconds(r.value) == RoundedRaSeconds(x)
  {
    var s := RaToSexagesimalCarried(x) + t;
    var fields := RaFieldsCarried(x);
    assert fields == (x.hour, x.minute);
    RaPlainTotal(x);
    ReadRa(s, fields.0, fields.1, SecondsTicks(x.second), t);
  }

  /** With a carry below minute 59 the corrected RA text reads back a minute on. */
  lemma RaCarriedReadMinute(x: RightAscension, t: string)
    requires RaValid(x) && SecondsTicks(x.second) == 600000 && x.minute < 59
    requires t == [] || !IsDigit(t[0])
    ensures var r := RaFromSexagesimal(RaToSexagesimalCarried(x) + t);
      r.Ok? && RaValid(r.value) && RaSeconds(r.value) == RoundedRaSeconds(x)
  {
    var s := RaToSexagesimalCarried(x) + t;
    var fields := RaFieldsCarried(x);
    RaCarryTotal(x, fields.0, fields.1);
    ReadRa(s, fields.0, fields.1, 0, t);
  }

  /** With a carry at minute 59 of hour 0 to 22 the corrected RA text reads back an hour on. */
  lemma RaCarriedReadHour(x: RightAscension, t: string)
    requires RaValid(x) && SecondsTicks(x.second) == 600000 && x.minute == 59 && x.hour < 23
    requires t == [] || !IsDigit(t[0])
    ensures var r := RaFromSexagesimal(RaToSexagesimalCarried(x) + t);
      r.Ok? && RaValid(r.value) && RaSeconds(r.value) == RoundedRaSeconds(x)
  {
    var s := RaToSexagesimalCarried(x) + t;
    var fields := RaFieldsCarried(x);
    RaCarryTotal(x, fields.0, fields.1);
    ReadRa(s, fields.0, fields.1, 0, t);
  }

  /** With a carry at 23:59 the corrected RA text wraps round to midnight. */
  lemma RaCarriedReadMidnight(x: RightAscension, t: string)
    requires RaValid(x) && SecondsTicks(x.second) == 600000 && x.minute == 59 && x.hour == 23
    requires t == [] || !IsDigit(t[0])
    ensures var r := RaFromSexagesimal(RaToSexagesimalCarried(x) + t);
      r.Ok? && RaValid(r.value) && RaSeconds(r.value) == RoundedRaSeconds(x)
  {
    var s := RaToSexagesimalCarried(x) + t;
    var fields := RaFieldsCarried(x);
    RaCarryTotal(x, fields.0, fields.1);
    ReadRa(s, fields.0, fields.1, 0, t);
  }

  /**
   * With the carry done in full, the text reads back as a valid right ascension whose total
   * is the original's with the seconds rounded, less a day when the rounding reaches 24h.
   */
  lemma RaTextRoundTripCarried(x: RightAscension, t: string)
    requires RaValid(x)
    requires t == [] || !IsDigit(t[0])
    ensures var r := RaFromSexagesimal(RaToSexagesimalCarried(x) + t);
      r.Ok? && RaValid(r.value) && RaSeconds(r.value) == RoundedRaSeconds(x)
  {
    if SecondsTicks(x.second) < 600000 {
      RaCarriedReadPlain(x, t);
    } else if x.minute < 59 {
      RaCarriedReadMinute(x, t);
    } else if x.hour < 23 {
      RaCarriedReadHour(x, t);
    } else {
      RaCarriedReadMidnight(x, t);
    }
  }
}
