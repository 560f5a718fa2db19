/**
 * Character classes, decimal digit strings and the few Python 2 `str`
 * operations the modelled code relies on: `'%0<w>d'` formatting, slicing,
 * `strip()`, `split()` and `split(sep)`, and the digit runs that its regular
 * expressions match.
 */
module Text {
  import opened Wrappers

  predicate IsDigit(c: char) { '0' <= c <= '9' }

  /** Whitespace of a Python 2 `str`: what `strip()`, `split()` and `\s` treat as blank. */
  predicate IsSpace(c: char) { c == ' ' || 9 <= c as int <= 13 }

  predicate AllDigits(s: string) { forall i | 0 <= i < |s| :: IsDigit(s[i]) }

  function DigitChar(d: int): (c: char)
    requires 0 <= d <= 9
    ensures IsDigit(c)
  {
    ('0' as int + d) as char
  }

  function DigitValue(c: char): (d: int)
    requires IsDigit(c)
    ensures 0 <= d <= 9 && DigitChar(d) == c
  {
    c as int - '0' as int
  }

  function Pow10(k: nat): (p: nat)
    ensures p >= 1
  {
    if k == 0 then 1 else 10 * Pow10(k - 1)
  }

  /** The value of a string of decimal digits, as `int()` reads it. */
  function DigitsValue(s: string): (n: nat)
    requires AllDigits(s)
    ensures n < Pow10(|s|)
  {
    if s == [] then 0 else DigitsValue(s[..|s| - 1]) * 10 + DigitValue(s[|s| - 1])
  }

  /** `str(n)` for a natural number: its decimal digits, without leading zeros. */
  function NatDigits(n: nat): (s: string)
    ensures 1 <= |s| && AllDigits(s)
  {
    if n < 10 then [DigitChar(n)] else NatDigits(n / 10) + [DigitChar(n % 10)]
  }

  /** Reading back what `str` wrote gives the number again. */
  lemma {:induction false} DigitsRoundTrip(n: nat)
    ensures DigitsValue(NatDigits(n)) == n
  {
    if n >= 10 {
      var s := NatDigits(n);
      assert s[..|s| - 1] == NatDigits(n / 10);
      DigitsRoundTrip(n / 10);
    }
  }

  /** A number below 10^k needs at most k digits. */
  lemma {:induction false} NatDigitsLength(n: nat, k: nat)
    requires 1 <= k && n < Pow10(k)
    ensures |NatDigits(n)| <= k
  {
    if n >= 10 {
      NatDigitsLength(n / 10, k - 1);
    }
  }

  function Zeros(k: nat): (z: string)
    ensures |z| == k && forall i | 0 <= i < k :: z[i] == '0'
  {
    seq(k, _ => '0')
  }

  /** Leading zeros do not change the value of a digit string. */
  lemma {:induction false} LeadingZerosValue(k: nat, s: string)
    requires AllDigits(s)
    ensures AllDigits(Zeros(k) + s) && DigitsValue(Zeros(k) + s) == DigitsValue(s)
  {
    if s != [] {
      var t := Zeros(k) + s;
      assert t[..|t| - 1] == Zeros(k) + s[..|s| - 1];
      LeadingZerosValue(k, s[..|s| - 1]);
    } else {
      assert Zeros(k) + s == Zeros(k);
      ZerosValue(k);
    }
  }

  lemma {:induction false} ZerosValue(k: nat)
    ensures AllDigits(Zeros(k)) && DigitsValue(Zeros(k)) == 0
  {
    if k > 0 {
      assert Zeros(k)[..k - 1] == Zeros(k - 1);
      ZerosValue(k - 1);
    }
  }

  /** Left-pads `s` with zeros to width `w`; a longer `s` is kept whole. */
  function ZeroPad(s: string, w: nat): (r: string)
    ensures |r| == if |s| >= w then |s| else w
    ensures r == Zeros(|r| - |s|) + s
  {
    if |s| >= w then s else Zeros(w - |s|) + s
  }

  lemma ZeroPadValue(s: string, w: nat)
    requires AllDigits(s)
    ensures AllDigits(ZeroPad(s, w)) && DigitsValue(ZeroPad(s, w)) == DigitsValue(s)
  {
    LeadingZerosValue(|ZeroPad(s, w)| - |s|, s);
  }

  /** Python's `'%0<w>d' % n`: the sign counts towards the width. */
  function FormatInt(n: int, w: nat): (r: string)
    ensures n >= 0 ==> AllDigits(r) && DigitsValue(r) == n && |r| >= w
    ensures n < 0 ==> |r| >= 2 && r[0] == '-'
  {
    if n < 0 then "-" + ZeroPad(NatDigits(-n), if w == 0 then 0 else w - 1)
    else
      DigitsRoundTrip(n);
      ZeroPadValue(NatDigits(n), w);
      ZeroPad(NatDigits(n), w)
  }

  /** Two digits, the tens first, for every n in 0..99. */
  lemma TwoDigits(n: int)
    requires 0 <= n <= 99
    ensures FormatInt(n, 2) == [DigitChar(n / 10), DigitChar(n % 10)]
  {
    if n >= 10 {
      assert NatDigits(n / 10) == [DigitChar(n / 10)];
    }
  }

  /** Python's slice `s[a:b]` for non-negative bounds: both are clamped to the length. */
  function Slice(s: string, a: nat, b: nat): (r: string)
    ensures |r| <= |s|
    ensures a <= b <= |s| ==> r == s[a..b]
  {
    var hi := if b <= |s| then b else |s|;
    var lo := if a <= hi then a else hi;
    s[lo..hi]
  }

  /** Python's `s[a:]`: the suffix of `s` that drops `a` characters, empty when `s` is shorter. */
  function SliceFrom(s: string, a: nat): (r: string)
    ensures |r| == if a <= |s| then |s| - a else 0
    ensures r == s[|s| - |r|..]
  {
    if a <= |s| then s[a..] else []
  }

  /** Python's `s.lstrip()`: `s` without its leading whitespace. */
  function LStrip(s: string): string {
    if |s| > 0 && IsSpace(s[0]) then LStrip(s[1..]) else s
  }

  /** Python's `s.rstrip()`: `s` without its trailing whitespace. */
  function RStrip(s: string): string {
    if |s| > 0 && IsSpace(s[|s| - 1]) then RStrip(s[..|s| - 1]) else s
  }

  /** Python's `s.strip()`: `s` without its leading and trailing whitespace. */
  function Strip(s: string): string {
    RStrip(LStrip(s))
  }

  /** `LStrip` drops a blank prefix and keeps the rest, which starts with a non-space. */
  lemma {:induction false} LStripShape(s: string)
    ensures |LStrip(s)| <= |s| && LStrip(s) == s[|s| - |LStrip(s)|..]
    ensures Blank(s[..|s| - |LStrip(s)|])
    ensures LStrip(s) == [] || !IsSpace(LStrip(s)[0])
    decreases |s|
  {
    if |s| > 0 && IsSpace(s[0]) {
      var t := s[1..];
      LStripShape(t);
      var n := |s| - |LStrip(t)|;
      assert s[..n] == [s[0]] + t[..n - 1];
      assert s[n..] == t[n - 1..];
    }
  }

  /** `RStrip` drops a blank suffix and keeps the rest, which ends with a non-space. */
  lemma {:induction false} RStripShape(s: string)
    ensures |RStrip(s)| <= |s| && RStrip(s) == s[..|RStrip(s)|]
    ensures Blank(s[|RStrip(s)|..])
    ensures RStrip(s) == [] || !IsSpace(RStrip(s)[|RStrip(s)| - 1])
    decreases |s|
  {
    if |s| > 0 && IsSpace(s[|s| - 1]) {
      var t := s[..|s| - 1];
      RStripShape(t);
      assert s[|RStrip(s)|..] == t[|RStrip(t)|..] + [s[|s| - 1]];
    }
  }

  /** `Strip` drops whitespace at both ends and nothing else, and what it keeps starts and ends with a non-space. */
  lemma StripSpan(s: string) returns (i: nat, j: nat)
    ensures i <= j <= |s| && Strip(s) == s[i..j]
    ensures Blank(s[..i]) && Blank(s[j..])
    ensures Strip(s) == [] || (!IsSpace(Strip(s)[0]) && !IsSpace(Strip(s)[|Strip(s)| - 1]))
  {
    var l := LStrip(s);
    LStripShape(s);
    RStripShape(l);
    i := |s| - |l|;
    j := i + |RStrip(l)|;
    assert s[j..] == l[|RStrip(l)|..];
  }

  predicate Blank(s: string) { forall m | 0 <= m < |s| :: IsSpace(s[m]) }

  /** The end of the run of characters of one kind (digits, or whitespace, or non-whitespace) that starts at `i`. */
  function RunEnd(s: string, i: nat, kind: CharKind): (j: nat)
    requires i <= |s|
    ensures i <= j <= |s|
    ensures forall k | i <= k < j :: kind.Has(s[k])
    ensures j == |s| || !kind.Has(s[j])
    decreases |s| - i
  {
    if i < |s| && kind.Has(s[i]) then RunEnd(s, i + 1, kind) else i
  }

  datatype CharKind = Digit | Space | NonSpace {
    predicate Has(c: char) {
      match this
      case Digit => IsDigit(c)
      case Space => IsSpace(c)
      case NonSpace => !IsSpace(c)
    }
  }

  /** The run end is determined by where the run stops. */
  lemma {:induction false} RunEndAt(s: string, i: nat, j: nat, kind: CharKind)
    requires i <= j <= |s|
    requires forall k | i <= k < j :: kind.Has(s[k])
    requires j == |s| || !kind.Has(s[j])
    ensures RunEnd(s, i, kind) == j
    decreases j - i
  {
    if i < j {
      RunEndAt(s, i + 1, j, kind);
    }
  }

  /** Python's `s.split()`: the maximal runs of non-whitespace, in order. */
  function Words(s: string): (ws: seq<string>)
    decreases |s|
  {
    var i := RunEnd(s, 0, Space);
    if i == |s| then []
    else
      var j := RunEnd(s, i, NonSpace);
      [s[i..j]] + Words(s[j..])
  }

  /** Every word is a non-empty run without whitespace. */
  lemma {:induction false} WordsShape(s: string)
    ensures forall w | w in Words(s) :: w != [] && forall k | 0 <= k < |w| :: !IsSpace(w[k])
    decreases |s|
  {
    var i := RunEnd(s, 0, Space);
    if i < |s| {
      var j := RunEnd(s, i, NonSpace);
      WordsShape(s[j..]);
      assert Words(s) == [s[i..j]] + Words(s[j..]);
    }
  }

  /** Whether `sep` occurs in `s` at position `i`. */
  predicate OccursAt(s: string, sep: string, i: nat) {
    i + |sep| <= |s| && s[i..i + |sep|] == sep
  }

  predicate Contains(s: string, sep: string) {
    exists i: nat | i <= |s| :: OccursAt(s, sep, i)
  }

  /** The first occurrence of `sep` in `s` at or after `from`. */
  function FindFrom(s: string, sep: string, from: nat): (r: Option<nat>)
    requires |sep| > 0
    ensures r.Some? ==> from <= r.value && OccursAt(s, sep, r.value)
    ensures forall i: nat | from <= i && (r.None? || i < r.value) :: !OccursAt(s, sep, i)
    decreases |s| - from
  {
    if from + |sep| > |s| then None
    else if s[from..from + |sep|] == sep then Some(from)
    else FindFrom(s, sep, from + 1)
  }

  /** Python's `s.split(sep)` for a non-empty separator. */
  function Split(s: string, sep: string): (parts: seq<string>)
    requires |sep| > 0
    ensures |parts| >= 1
    ensures forall p | p in parts :: !Contains(p, sep)
    decreases |s|
  {
    match FindFrom(s, sep, 0)
    case None => [s]
    case Some(i) =>
      assert forall k: nat | OccursAt(s[..i], sep, k) :: OccursAt(s, sep, k);
      [s[..i]] + Split(s[i + |sep|..], sep)
  }

  /** Python's `sep.join(parts)`. */
  function Join(parts: seq<string>, sep: string): string
  {
    if |parts| <= 1 then (if parts == [] then "" else parts[0])
    else parts[0] + sep + Join(parts[1..], sep)
  }

  /** Splitting loses nothing: joining the parts back gives the string. */
  lemma {:induction false} SplitJoin(s: string, sep: string)
    requires |sep| > 0
    ensures Join(Split(s, sep), sep) == s
    decreases |s|
  {
    match FindFrom(s, sep, 0)
    case None =>
    case Some(i) =>
      var rest := s[i + |sep|..];
      SplitJoin(rest, sep);
      assert s == s[..i] + sep + rest;
  }
}
