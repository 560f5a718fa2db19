/**
 * PRESTO `.bestprof` files (fold/bestprof.py): the two value decoders, the table that maps
 * header keys to fields, and `BestprofFile`, which reads the header lines and then the
 * profile lines of a file given as its sequence of lines.
 */
module Bestprof {
  import opened Wrappers
  import opened Text

  /**
   * Python's `float()` and `int()` on a token, `None` where they raise ValueError. Their exact
   * literal grammar is not modelled; every property below holds whatever they are.
   */
  datatype Numeric = Numeric(toFloat: string -> Option<real>, toInt: string -> Option<int>)

  /** The exceptions a decoder can raise; `parse` catches them all and stores None. */
  datatype DecodeError = ValueError | AttributeError

  /** What `setattr` stores on the header: None, a string, a number, or a pair from a decoder. */
  datatype FieldValue =
    | NoneValue
    | Str(text: string)
    | Int(integer: int)
    | Float(number: real)
    | Pair(first: Option<real>, second: Option<real>)

  // ---------------------------------------------------------------------------
  // float_with_error

  const ErrorSeparator: string := "+/-"

  /** `float_with_error`: `N/A` is (None, None); otherwise exactly two floats around one `+/-`. */
  function FloatWithError(num: Numeric, chunk: string): (r: Result<(Option<real>, Option<real>), DecodeError>)
    ensures chunk == "N/A" ==> r == Ok((None, None))
    ensures r.Err? ==> r.error == ValueError
  {
    if chunk == "N/A" then Ok((None, None))
    else
      var parts := Split(chunk, ErrorSeparator);
      if |parts| != 2 then Err(ValueError)
      else
        match (num.toFloat(parts[0]), num.toFloat(parts[1]))
        case (Some(value), Some(error)) => Ok((Some(value), Some(error)))
        case _ => Err(ValueError)
  }

  /** A chunk that decodes, other than `N/A`, is two float texts joined by one `+/-`. */
  lemma FloatWithErrorParts(num: Numeric, chunk: string) returns (a: string, b: string)
    requires chunk != "N/A" && FloatWithError(num, chunk).Ok?
    ensures chunk == a + ErrorSeparator + b
    ensures !Contains(a, ErrorSeparator) && !Contains(b, ErrorSeparator)
    ensures num.toFloat(a).Some? && num.toFloat(b).Some?
    ensures FloatWithError(num, chunk).value == (num.toFloat(a), num.toFloat(b))
  {
    var parts := Split(chunk, ErrorSeparator);
    a, b := parts[0], parts[1];
    SplitJoin(chunk, ErrorSeparator);
    assert parts == [a, b];
    assert parts[1..] == [b];
    assert Join(parts, ErrorSeparator) == a + ErrorSeparator + Join([b], ErrorSeparator);
    assert a in parts && b in parts;
  }

  /** Two float texts without `+/-` joined by one `+/-` decode to their two values. */
  lemma FloatWithErrorOfParts(num: Numeric, a: string, b: string)
    requires !Contains(a, ErrorSeparator) && !Contains(b, ErrorSeparator)
    requires num.toFloat(a).Some? && num.toFloat(b).Some?
    ensures FloatWithError(num, a + ErrorSeparator + b) == Ok((num.toFloat(a), num.toFloat(b)))
  {
    var chunk := a + ErrorSeparator + b;
    assert chunk[|a|] == '+' && chunk[|a| + 1] == '/';
    assert chunk != "N/A";
    SplitAround(a, ErrorSeparator, b);
  }

  /**
   * Splitting `a + sep + b` on `sep` gives `[a, b]` when neither part holds `sep` and `sep`
   * cannot start inside `a` and run into itself (no proper prefix of `sep` is also a suffix of it).
   */
  lemma SplitAround(a: string, sep: string, b: string)
    requires |sep| == 3 && sep[0] != sep[1] && sep[0] != sep[2]
    requires !Contains(a, sep) && !Contains(b, sep)
    ensures Split(a + sep + b, sep) == [a, b]
  {
    var s := a + sep + b;
    assert OccursAt(s, sep, |a|) by {
      assert s[|a|..|a| + |sep|] == sep;
    }
    forall i: nat | i < |a|
      ensures !OccursAt(s, sep, i)
    {
      if i + |sep| <= |a| {
        assert s[i..i + |sep|] == a[i..i + |sep|];
        assert !OccursAt(a, sep, i);
      } else if i + 1 == |a| {
        assert s[i + 1] == sep[0];
      } else {
        assert s[i + 2] == sep[0];
      }
    }
    var found := FindFrom(s, sep, 0);
    assert found == Some(|a|);
    assert s[..|a|] == a;
    assert s[|a| + |sep|..] == b;
    NotFound(b, sep);
  }

  /** A string without `sep` has no first occurrence of it. */
  lemma NotFound(b: string, sep: string)
    requires |sep| > 0 && !Contains(b, sep)
    ensures FindFrom(b, sep, 0) == None
  {
    var f := FindFrom(b, sep, 0);
    assert f.Some? ==> OccursAt(b, sep, f.value);
  }

  // ---------------------------------------------------------------------------
  // prob_parser

  /**
   * SIGMA_REGEXP `~(?P<sigma>\S+)\s+sigma\)` matched at the start of `s`: the group is the
   * run of non-whitespace after `~`. Backtracking cannot help, since a shorter run would leave
   * a non-whitespace character where `\s+` must start, and fewer spaces a space before `sigma)`.
   */
  function SigmaMatch(s: string): (r: Option<string>)
    ensures r.Some? ==> r.value != [] && forall k | 0 <= k < |r.value| :: !IsSpace(r.value[k])
  {
    if |s| == 0 || s[0] != '~' then None
    else
      var j := RunEnd(s, 1, NonSpace);
      var k := RunEnd(s, j, Space);
      if j == 1 || k == j || !OccursAt(s, "sigma)", k) then None
      else Some(s[1..j])
  }

  /** The text `~<group><spaces>sigma)<rest>` matches with that group. */
  lemma SigmaMatchOf(group: string, spaces: string, rest: string)
    requires group != [] && forall k | 0 <= k < |group| :: !IsSpace(group[k])
    requires spaces != [] && forall k | 0 <= k < |spaces| :: IsSpace(spaces[k])
    ensures SigmaMatch("~" + group + spaces + "sigma)" + rest) == Some(group)
  {
    var s := "~" + group + spaces + "sigma)" + rest;
    var j, k := 1 + |group|, 1 + |group| + |spaces|;
    assert s[1..j] == group;
    assert s[j..k] == spaces;
    assert s[k..k + 6] == "sigma)";
    RunEndAt(s, 1, j, NonSpace);
    RunEndAt(s, j, k, Space);
  }

  /** A match has exactly that shape. */
  lemma SigmaMatchParts(s: string) returns (spaces: string, rest: string)
    requires SigmaMatch(s).Some?
    ensures spaces != [] && forall k | 0 <= k < |spaces| :: IsSpace(spaces[k])
    ensures s == "~" + SigmaMatch(s).value + spaces + "sigma)" + rest
  {
    var j := RunEnd(s, 1, NonSpace);
    var k := RunEnd(s, j, Space);
    assert OccursAt(s, "sigma)", k);
    spaces, rest := s[j..k], s[k + 6..];
    assert s[..1] == "~" && s[1..j] == SigmaMatch(s).value && s[k..k + 6] == "sigma)";
    assert s[..j] == s[..1] + s[1..j];
    assert s[..k] == s[..j] + spaces;
    assert s[..k + 6] == s[..k] + "sigma)";
    assert s == s[..k + 6] + rest;
  }

  /**
   * `prob_parser`: `N/A` is a bare None; a chunk without exactly one `(` is a float with no
   * sigma; otherwise the float before `(` and the sigma read by SIGMA_REGEXP after it, the
   * regular expression failing with AttributeError (`m.group` on None).
   */
  function ProbParser(num: Numeric, chunk: string): (r: Result<Option<(real, Option<real>)>, DecodeError>)
    ensures chunk == "N/A" ==> r == Ok(None)
    ensures r.Ok? && chunk != "N/A" ==> r.value.Some?
  {
    if chunk == "N/A" then Ok(None)
    else
      var parts := Split(chunk, "(");
      if |parts| != 2 then
        match num.toFloat(chunk)
        case Some(value) => Ok(Some((value, None)))
        case None => Err(ValueError)
      else
        match num.toFloat(parts[0])
        case None => Err(ValueError)
        case Some(value) =>
          match SigmaMatch(parts[1])
          case None => Err(AttributeError)
          case Some(group) =>
            match num.toFloat(group)
            case None => Err(ValueError)
            case Some(sigma) => Ok(Some((value, Some(sigma))))
  }

  /** Without a `(`, the chunk is a plain float and the sigma is None. */
  lemma ProbParserPlain(num: Numeric, chunk: string)
    requires chunk != "N/A" && !Contains(chunk, "(")
    ensures num.toFloat(chunk).Some? ==> ProbParser(num, chunk) == Ok(Some((num.toFloat(chunk).value, None)))
    ensures num.toFloat(chunk).None? ==> ProbParser(num, chunk) == Err(ValueError)
  {
    NotFound(chunk, "(");
  }

  /** `s` holds the one-character string `[c]` exactly when one of its characters is `c`. */
  lemma ContainsChar(s: string, c: char)
    ensures Contains(s, [c]) <==> exists k | 0 <= k < |s| :: s[k] == c
  {
    if exists k | 0 <= k < |s| :: s[k] == c {
      var k :| 0 <= k < |s| && s[k] == c;
      assert s[k..k + 1] == [c];
      assert OccursAt(s, [c], k);
    }
    if Contains(s, [c]) {
      var i: nat :| i <= |s| && OccursAt(s, [c], i);
      assert s[i..i + 1][0] == s[i];
    }
  }

  /** `<value>(~<sigma> sigma)` reads as the value and the sigma; e.g. `0.001(~3.2 sigma)` as (0.001, 3.2). */
  lemma ProbParserOfParts(num: Numeric, value: string, group: string, spaces: string, rest: string)
    requires !Contains(value, "(") && !Contains(group, "(") && !Contains(rest, "(")
    requires group != [] && forall k | 0 <= k < |group| :: !IsSpace(group[k])
    requires spaces != [] && forall k | 0 <= k < |spaces| :: IsSpace(spaces[k])
    requires num.toFloat(value).Some? && num.toFloat(group).Some?
    ensures var r := ProbParser(num, value + "(" + ("~" + group + spaces + "sigma)" + rest));
      r.Ok? && r.value == Some((num.toFloat(value).value, Some(num.toFloat(group).value)))
  {
    var tail := "~" + group + spaces + "sigma)" + rest;
    var chunk := value + "(" + tail;
    ContainsChar(group, '(');
    ContainsChar(rest, '(');
    ContainsChar(tail, '(');
    forall k | 0 <= k < |tail|
      ensures tail[k] != '('
    {
      if k == 0 {
      } else if k < 1 + |group| {
        assert tail[k] == group[k - 1];
      } else if k < 1 + |group| + |spaces| {
        assert tail[k] == spaces[k - 1 - |group|];
      } else if k < 7 + |group| + |spaces| {
        assert tail[k] == "sigma)"[k - 1 - |group| - |spaces|];
      } else {
        assert tail[k] == rest[k - 7 - |group| - |spaces|];
      }
    }
    SplitAroundOne(value, '(', tail);
    assert chunk[|value|] == '(';
    SigmaMatchOf(group, spaces, rest);
  }

  /** Splitting `a + [c] + b` on `[c]` gives `[a, b]` when neither part holds `c`. */
  lemma SplitAroundOne(a: string, c: char, b: string)
    requires !Contains(a, [c]) && !Contains(b, [c])
    ensures Split(a + [c] + b, [c]) == [a, b]
  {
    var s := a + [c] + b;
    assert OccursAt(s, [c], |a|) by {
      assert s[|a|..|a| + 1] == [c];
    }
    forall i: nat | i < |a|
      ensures !OccursAt(s, [c], i)
    {
      assert s[i..i + 1] == a[i..i + 1];
      assert !OccursAt(a, [c], i);
    }
    assert FindFrom(s, [c], 0) == Some(|a|);
    assert s[..|a|] == a;
    assert s[|a| + 1..] == b;
    NotFound(b, [c]);
  }

  /** A chunk with exactly one `(`: the float before it fails with ValueError, a tail SIGMA_REGEXP rejects with AttributeError. */
  lemma ProbParserOneParen(num: Numeric, value: string, tail: string)
    requires !Contains(value, "(") && !Contains(tail, "(")
    ensures num.toFloat(value).None? ==> ProbParser(num, value + "(" + tail) == Err(ValueError)
    ensures num.toFloat(value).Some? && SigmaMatch(tail).None? ==>
      ProbParser(num, value + "(" + tail) == Err(AttributeError)
    ensures num.toFloat(value).Some? && SigmaMatch(tail).Some? && num.toFloat(SigmaMatch(tail).value).None? ==>
      ProbParser(num, value + "(" + tail) == Err(ValueError)
  {
    var chunk := value + "(" + tail;
    assert chunk[|value|] == '(';
    assert chunk != "N/A";
    SplitAroundOne(value, '(', tail);
  }

  /**
   * Every chunk that reads with a sigma has the shape `<value>(~<group><spaces>sigma)<rest>`,
   * with one `(`, and reads as the float of the value and the float of the group.
   */
  lemma ProbParserSigmaParts(num: Numeric, chunk: string) returns (value: string, group: string, spaces: string, rest: string)
    requires ProbParser(num, chunk).Ok? && ProbParser(num, chunk).value.Some?
    requires ProbParser(num, chunk).value.value.1.Some?
    ensures chunk == value + "(" + ("~" + group + spaces + "sigma)" + rest)
    ensures !Contains(value, "(") && !Contains(group, "(") && !Contains(rest, "(")
    ensures group != [] && forall k | 0 <= k < |group| :: !IsSpace(group[k])
    ensures spaces != [] && forall k | 0 <= k < |spaces| :: IsSpace(spaces[k])
    ensures num.toFloat(value).Some? && num.toFloat(group).Some?
    ensures ProbParser(num, chunk).value.value == (num.toFloat(value).value, Some(num.toFloat(group).value))
  {
    var tail;
    value, tail := SplitTwoParts(chunk, "(");
    group := SigmaMatch(tail).value;
    spaces, rest := SigmaTailParts(tail);
  }

  /** A tail without `(` that SIGMA_REGEXP matches: its group and the text after `sigma)` hold no `(` either. */
  lemma SigmaTailParts(tail: string) returns (spaces: string, rest: string)
    requires SigmaMatch(tail).Some? && !Contains(tail, "(")
    ensures spaces != [] && forall k | 0 <= k < |spaces| :: IsSpace(spaces[k])
    ensures tail == "~" + SigmaMatch(tail).value + spaces + "sigma)" + rest
    ensures !Contains(SigmaMatch(tail).value, "(") && !Contains(rest, "(")
  {
    var group := SigmaMatch(tail).value;
    spaces, rest := SigmaMatchParts(tail);
    assert tail == "~" + group + (spaces + "sigma)" + rest);
    ContainsWithin("~", group, spaces + "sigma)" + rest, "(");
    assert tail == ("~" + group + spaces + "sigma)") + rest + "";
    ContainsWithin("~" + group + spaces + "sigma)", rest, "", "(");
  }

  /** A text that splits into two parts is the first part, the separator and the second. */
  lemma SplitTwoParts(s: string, sep: string) returns (a: string, b: string)
    requires |sep| > 0 && |Split(s, sep)| == 2
    ensures Split(s, sep) == [a, b]
    ensures s == a + sep + b && !Contains(a, sep) && !Contains(b, sep)
  {
    var parts := Split(s, sep);
    a, b := parts[0], parts[1];
    SplitJoin(s, sep);
    assert parts[1..] == [b];
    assert Join(parts, sep) == a + sep + Join([b], sep);
    assert a in parts && b in parts;
  }

  /** A text that holds `sep` inside a larger text: the larger text holds it too. */
  lemma ContainsWithin(a: string, x: string, b: string, sep: string)
    ensures Contains(x, sep) ==> Contains(a + x + b, sep)
  {
    if Contains(x, sep) {
      var i: nat :| i <= |x| && OccursAt(x, sep, i);
      var s := a + x + b;
      assert s[|a| + i..|a| + i + |sep|] == x[i..i + |sep|];
      assert OccursAt(s, sep, |a| + i);
    }
  }

  /** A chunk with two `(` or more does not split in two: it is read whole as a float, with no sigma. */
  lemma ProbParserSeveral(num: Numeric, a: string, b: string, c: string)
    ensures var chunk := a + "(" + b + "(" + c;
      && (num.toFloat(chunk).Some? ==> ProbParser(num, chunk) == Ok(Some((num.toFloat(chunk).value, None))))
      && (num.toFloat(chunk).None? ==> ProbParser(num, chunk) == Err(ValueError))
  {
    var chunk := a + "(" + b + "(" + c;
    assert chunk[|a|] == '(';
    assert chunk != "N/A";
    var first := FindFrom(chunk, "(", 0);
    assert OccursAt(chunk, "(", |a|) by { assert chunk[|a|..|a| + 1] == "("; }
    var i := first.value;
    assert i <= |a|;
    var later := chunk[i + 1..];
    var j := |a| + |b| + 1 - (i + 1);
    assert later[j..j + 1] == "(" by {
      assert chunk[|a| + |b| + 1] == '(';
      assert later[j] == chunk[|a| + |b| + 1];
    }
    assert OccursAt(later, "(", j);
    SplitsInTwo(later, "(");
    assert Split(chunk, "(") == [chunk[..i]] + Split(later, "(");
  }

  /** A text holding `sep` splits into at least two parts. */
  lemma SplitsInTwo(s: string, sep: string)
    requires |sep| > 0 && Contains(s, sep)
    ensures |Split(s, sep)| >= 2
  {
    var i: nat :| i <= |s| && OccursAt(s, sep, i);
    assert FindFrom(s, sep, 0).Some?;
  }

  // ---------------------------------------------------------------------------
  // KEY_VALUE_MAPPING

  /** The converter a header key is read with. */
  datatype Decoder = AsStr | AsFloat | AsInt | AsProb | AsFloatWithError

  /** A table of header keys: attribute name and converter per key. */
  type Table = map<string, (string, Decoder)>

  /** Header key (the text between columns 2 and 19, stripped) to attribute name and converter. */
  const KeyValueMapping: Table := map[
    "Input file" := ("input_file", AsStr),
    "Candidate" := ("candidate", AsStr),
    "Telescope" := ("telescope", AsStr),
    "Epoch_topo" := ("epoch_topo", AsFloat),
    "Epoch_bary (MJD)" := ("epoch_bary_mjd", AsFloat),
    "Epoch_bary" := ("epoch_bary", AsFloat),
    "T_sample" := ("t_sample", AsFloat),
    "Data Folded" := ("data_folded", AsInt),
    "Data Avg" := ("data_avg", AsFloat),
    "Data StdDev" := ("data_stddev", AsFloat),
    "Profile Bins" := ("profile_bins", AsInt),
    "Profile Avg" := ("profile_avg", AsFloat),
    "Profile StdDev" := ("profile_stddev", AsFloat),
    "Reduced chi-sqr" := ("reduced_chi_sq", AsFloat),
    "Prob(Noise)" := ("prob_noise", AsProb),
    "Best DM" := ("best_dm", AsFloat),
    "P_topo (ms)" := ("p_topo", AsFloatWithError),
    "P'_topo (s/s)" := ("p_dot_topo", AsFloatWithError),
    "P''_topo (s/s^2)" := ("p_dot_dot_topo", AsFloatWithError),
    "P_bary (ms)" := ("p_bary", AsFloatWithError),
    "P'_bary (s/s)" := ("p_dot_bary", AsFloatWithError),
    "P''_bary (s/s^2)" := ("p_dot_dot_bary", AsFloatWithError),
    "P_orb (s)" := ("p_orb", AsStr),
    "asin(i)/c (s)" := ("asin_i_over_c", AsStr),
    "eccentricity" := ("eccentricity", AsStr),
    "w (rad)" := ("w_rad", AsStr),
    "T_peri" := ("t_peri", AsStr)
  ]

  /** `profile_bins` is set by the `Profile Bins` key alone, and read with `int`. */
  lemma ProfileBinsKey(key: string)
    requires key in KeyValueMapping && KeyValueMapping[key].0 == "profile_bins"
    ensures key == "Profile Bins" && KeyValueMapping[key].1 == AsInt
  {
  }

  /** Applies a converter to a header value; the result has the converter's shape. */
  function Decode(num: Numeric, d: Decoder, value: string): (r: Result<FieldValue, DecodeError>)
    ensures d == AsStr ==> r == Ok(Str(value))
    ensures d == AsFloat ==> (r.Ok? <==> num.toFloat(value).Some?) && (r.Ok? ==> r.value.Float?)
    ensures d == AsInt ==> (r.Ok? <==> num.toInt(value).Some?) && (r.Ok? ==> r.value.Int?)
    ensures d == AsProb && r.Ok? ==> r.value.NoneValue? || (r.value.Pair? && r.value.first.Some?)
    ensures d == AsFloatWithError && r.Ok? ==> r.value.Pair?
    ensures value == "N/A" && d == AsProb ==> r == Ok(NoneValue)
    ensures value == "N/A" && d == AsFloatWithError ==> r == Ok(Pair(None, None))
  {
    match d
    case AsStr => Ok(Str(value))
    case AsFloat =>
      (match num.toFloat(value)
       case Some(x) => Ok(Float(x))
       case None => Err(ValueError))
    case AsInt =>
      (match num.toInt(value)
       case Some(n) => Ok(Int(n))
       case None => Err(ValueError))
    case AsProb =>
      (match ProbParser(num, value)
       case Err(e) => Err(e)
       case Ok(None) => Ok(NoneValue)
       case Ok(Some((x, sigma))) => Ok(Pair(Some(x), sigma)))
    case AsFloatWithError =>
      (match FloatWithError(num, value)
       case Err(e) => Err(e)
       case Ok((x, error)) => Ok(Pair(x, error)))
  }

  // ---------------------------------------------------------------------------
  // Reading one line

  /** The header key that ends the header (seventeen `#`). */
  const SeparatorKey: string := "#################"

  /** `line[2:19].strip()`. */
  function HeaderKey(line: string): string {
    Strip(Slice(line, 2, 19))
  }

  /** `line[20:].strip()`. */
  function HeaderValue(line: string): string {
    Strip(SliceFrom(line, 20))
  }

  /** A line that `parse` reads as a header line while it is still in the header. */
  predicate IsHeaderLine(line: string) {
    |line| > 0 && line[0] == '#'
  }

  /** A header line, other than the separator, whose key is mapped to attribute `field`. */
  predicate Sets(table: Table, line: string, field: string) {
    IsHeaderLine(line) && HeaderKey(line) != SeparatorKey && HeaderKey(line) in table && table[HeaderKey(line)].0 == field
  }

  /** What a header line with a known key stores: the converted value, or None when conversion raises. */
  function Stored(num: Numeric, table: Table, line: string): FieldValue
    requires HeaderKey(line) in table
  {
    match Decode(num, table[HeaderKey(line)].1, HeaderValue(line))
    case Ok(v) => v
    case Err(_) => NoneValue
  }

  /** What a line does when it is read as a header line. */
  datatype HeaderAction = EndHeader | UnknownKey | SetField(field: string, value: FieldValue)

  /** What a line does when it is read as a profile line; `Raise` is the IndexError of a blank line or a lone bin number. */
  datatype DataAction = Raise | Skip | Append(bin: int, value: real)

  /**
   * A line as the first loop of `parse` sees it: its first character (`line[0]`, None for an empty
   * line), and what it does as a header line and as a profile line. Which of the two applies
   * depends on whether the loop is still in the header.
   */
  datatype LineView = LineView(first: Option<char>, header: HeaderAction, data: DataAction) {
    /** Read in the header, this line sets `field`. */
    predicate SetsField(field: string) {
      first == Some('#') && header.SetField? && header.field == field
    }
  }

  function HeaderActionOf(num: Numeric, table: Table, line: string): (r: HeaderAction)
  {
    var key := HeaderKey(line);
    if key == SeparatorKey then EndHeader
    else if key !in table then UnknownKey
    else SetField(table[key].0, Stored(num, table, line))
  }

  function DataActionOf(num: Numeric, line: string): (r: DataAction)
    ensures r.Raise? <==> |Words(line)| == 0 || (|Words(line)| == 1 && num.toInt(Words(line)[0]).Some?)
    ensures r.Append? <==>
      |Words(line)| >= 2 && num.toInt(Words(line)[0]).Some? && num.toFloat(Words(line)[1]).Some?
    ensures r.Append? ==> r.bin == num.toInt(Words(line)[0]).value && r.value == num.toFloat(Words(line)[1]).value
  {
    var words := Words(line);
    if |words| == 0 then Raise
    else
      match num.toInt(words[0])
      case None => Skip
      case Some(bin) =>
        if |words| < 2 then Raise
        else
          match num.toFloat(words[1])
          case None => Skip
          case Some(value) => Append(bin, value)
  }

  function View(num: Numeric, table: Table, line: string): LineView {
    LineView(if |line| == 0 then None else Some(line[0]), HeaderActionOf(num, table, line), DataActionOf(num, line))
  }

  /** A line sets `field` when read in the header exactly when it is a header line mapped to `field`. */
  lemma ViewSets(num: Numeric, table: Table, line: string, field: string)
    ensures View(num, table, line).SetsField(field) <==> Sets(table, line, field)
    ensures Sets(table, line, field) ==> View(num, table, line).header.value == Stored(num, table, line)
  {
  }

  /** Every line of the file, read. */
  function ReadLines(num: Numeric, table: Table, lines: seq<string>): (views: seq<LineView>)
    ensures |views| == |lines|
  {
    if |lines| == 0 then [] else [View(num, table, lines[0])] + ReadLines(num, table, lines[1..])
  }

  lemma {:induction false} ReadLinesAt(num: Numeric, table: Table, lines: seq<string>, k: nat)
    requires k < |lines|
    ensures ReadLines(num, table, lines)[k] == View(num, table, lines[k])
  {
    if k > 0 {
      ReadLinesAt(num, table, lines[1..], k - 1);
    }
  }

  // ---------------------------------------------------------------------------
  // The first loop of `parse`

  /** The exceptions that escape `parse`. */
  datatype ParseError = IndexError | NonConsecutive | MissingProfileBins | BinCountDiscrepancy

  /** The local state of the first loop of `parse`: `in_header`, `tmp_header` and `tmp_profile`. */
  datatype ScanState = ScanState(inHeader: bool, header: map<string, FieldValue>, pairs: seq<(int, real)>)

  const Start: ScanState := ScanState(true, map[], [])

  /** An attribute of the header, None when it was never set. */
  function FieldOf(header: map<string, FieldValue>, field: string): Option<FieldValue> {
    if field in header then Some(header[field]) else None
  }

  /** One pass of the first loop of `parse`, over a line read as `v`. */
  function Step(st: ScanState, v: LineView): (r: Result<ScanState, ParseError>)
    ensures r.Err? ==> r.error == IndexError
    ensures r.Err? <==> (st.inHeader && v.first.None?) || (!(st.inHeader && v.first == Some('#')) && v.data.Raise?)
    ensures r.Ok? && !(st.inHeader && v.first == Some('#')) ==> r.value.inHeader == st.inHeader && r.value.header == st.header
    ensures r.Ok? && st.inHeader && v.first == Some('#') ==> r.value.pairs == st.pairs
    ensures r.Ok? ==> |st.pairs| <= |r.value.pairs| <= |st.pairs| + 1 && r.value.pairs[..|st.pairs|] == st.pairs
    ensures r.Ok? && |r.value.pairs| > |st.pairs| ==>
      !(st.inHeader && v.first == Some('#')) && v.data.Append? && r.value.pairs[|st.pairs|] == (v.data.bin, v.data.value)
    ensures r.Ok? && st.inHeader && !r.value.inHeader ==> v.first == Some('#') && v.header.EndHeader?
  {
    if st.inHeader && v.first.None? then Err(IndexError)
    else if st.inHeader && v.first == Some('#') then
      match v.header
      case EndHeader => Ok(st.(inHeader := false))
      case UnknownKey => Ok(st)
      case SetField(field, value) => Ok(st.(header := st.header[field := value]))
    else
      match v.data
      case Raise => Err(IndexError)
      case Skip => Ok(st)
      case Append(bin, value) => Ok(st.(pairs := st.pairs + [(bin, value)]))
  }

  /** The state of the first loop of `parse` after the first `k` lines. */
  function Scan(views: seq<LineView>, k: nat): Result<ScanState, ParseError>
    requires k <= |views|
  {
    if k == 0 then Ok(Start)
    else
      match Scan(views, k - 1)
      case Err(e) => Err(e)
      case Ok(st) => Step(st, views[k - 1])
  }

  // ---------------------------------------------------------------------------
  // What `parse` returns

  /** The bin numbers read are exactly 0, 1, 2, ... in file order. */
  predicate Consecutive(pairs: seq<(int, real)>) {
    forall i | 0 <= i < |pairs| :: pairs[i].0 == i
  }

  function Values(pairs: seq<(int, real)>): (r: seq<real>)
    ensures |r| == |pairs| && forall i | 0 <= i < |pairs| :: r[i] == pairs[i].1
  {
    seq(|pairs|, i requires 0 <= i < |pairs| => pairs[i].1)
  }

  /** What `parse` returns, or the exception it raises, once the first loop has ended in `scan`. */
  function Finish(scan: Result<ScanState, ParseError>): (r: Result<(map<string, FieldValue>, seq<real>), ParseError>)
    ensures r.Ok? <==>
      && scan.Ok?
      && Consecutive(scan.value.pairs)
      && FieldOf(scan.value.header, "profile_bins") == Some(Int(|scan.value.pairs|))
    ensures r.Ok? ==>
      && r.value.0 == scan.value.header
      && |r.value.1| == |scan.value.pairs|
      && (forall i | 0 <= i < |r.value.1| :: scan.value.pairs[i] == (i, r.value.1[i]))
      && FieldOf(r.value.0, "profile_bins") == Some(Int(|r.value.1|))
    ensures scan.Err? ==> r == Err(scan.error)
    ensures scan.Ok? && !Consecutive(scan.value.pairs) ==> r == Err(NonConsecutive)
    ensures scan.Ok? && Consecutive(scan.value.pairs) && "profile_bins" !in scan.value.header ==>
      r == Err(MissingProfileBins)
    ensures scan.Ok? && Consecutive(scan.value.pairs) && "profile_bins" in scan.value.header && r.Err? ==>
      r == Err(BinCountDiscrepancy)
  {
    match scan
    case Err(e) => Err(e)
    case Ok(st) =>
      if !Consecutive(st.pairs) then Err(NonConsecutive)
      else if "profile_bins" !in st.header then Err(MissingProfileBins)
      else if st.header["profile_bins"] != Int(|st.pairs|) then Err(BinCountDiscrepancy)
      else Ok((st.header, Values(st.pairs)))
  }

  /** What `parse` returns, or the exception it raises, for a file with these lines. */
  function ParseSpec(num: Numeric, table: Table, lines: seq<string>): Result<(map<string, FieldValue>, seq<real>), ParseError> {
    Finish(Scan(ReadLines(num, table, lines), |lines|))
  }

  // ---------------------------------------------------------------------------
  // Properties of the scan

  /** An IndexError ends the scan: the error is what the whole file gives. */
  lemma {:induction false} ErrorSticks(views: seq<LineView>, i: nat, j: nat)
    requires i <= j <= |views| && Scan(views, i).Err?
    ensures Scan(views, j) == Scan(views, i)
    decreases j
  {
    if j > i {
      ErrorSticks(views, i, j - 1);
    }
  }

  /** A scan that gets through all the lines got through every prefix of them. */
  lemma OkPrefix(views: seq<LineView>, i: nat, j: nat)
    requires i <= j <= |views| && Scan(views, j).Ok?
    ensures Scan(views, i).Ok?
  {
    if Scan(views, i).Err? {
      ErrorSticks(views, i, j);
    }
  }

  /** Once the separator is read the scan stays in profile mode and the header no longer changes. */
  lemma {:induction false} ProfileModeStays(views: seq<LineView>, i: nat, j: nat)
    requires i <= j <= |views| && Scan(views, j).Ok?
    requires Scan(views, i).Ok? && !Scan(views, i).value.inHeader
    ensures !Scan(views, j).value.inHeader
    ensures Scan(views, j).value.header == Scan(views, i).value.header
    decreases j
  {
    if j > i {
      OkPrefix(views, j - 1, j);
      ProfileModeStays(views, i, j - 1);
    }
  }

  /** In the header, the separator line switches to profile mode and changes nothing else. */
  lemma SeparatorEndsHeader(num: Numeric, table: Table, st: ScanState, line: string)
    requires st.inHeader && IsHeaderLine(line) && HeaderKey(line) == SeparatorKey
    ensures Step(st, View(num, table, line)) == Ok(st.(inHeader := false))
  {
  }

  /** In the header, a line whose key the table does not know changes nothing. */
  lemma UnknownKeyIgnored(num: Numeric, table: Table, st: ScanState, line: string)
    requires st.inHeader && IsHeaderLine(line) && HeaderKey(line) != SeparatorKey && HeaderKey(line) !in table
    ensures Step(st, View(num, table, line)) == Ok(st)
  {
  }

  /**
   * A line not read as a header line is split into words: an int and a float in front append
   * that pair, an empty line or a lone int raises IndexError, and any other line is skipped.
   */
  lemma ProfileLine(num: Numeric, table: Table, st: ScanState, line: string)
    requires !(st.inHeader && IsHeaderLine(line))
    ensures var w := Words(line); var r := Step(st, View(num, table, line));
      && (r.Err? <==> |w| == 0 || (|w| == 1 && num.toInt(w[0]).Some?))
      && (|w| >= 2 && num.toInt(w[0]).Some? && num.toFloat(w[1]).Some? ==>
            r == Ok(st.(pairs := st.pairs + [(num.toInt(w[0]).value, num.toFloat(w[1]).value)])))
      && (|w| >= 1 && num.toInt(w[0]).None? ==> r == Ok(st))
      && (|w| >= 2 && num.toInt(w[0]).Some? && num.toFloat(w[1]).None? ==> r == Ok(st))
  {
  }

  /** While still in the header, a line that sets `field` sets it to its value and leaves every other attribute. */
  lemma KnownKeySets(st: ScanState, v: LineView, field: string)
    requires st.inHeader && v.SetsField(field)
    ensures var r := Step(st, v);
      && r.Ok? && r.value.inHeader && r.value.pairs == st.pairs
      && FieldOf(r.value.header, field) == Some(v.header.value)
      && r.value.header.Keys == st.header.Keys + {field}
      && forall f | f in st.header && f != field :: r.value.header[f] == st.header[f]
  {
  }

  /** A line that does not set `field`, or any line after the separator, leaves it as it was. */
  lemma StepKeepsField(st: ScanState, v: LineView, field: string)
    requires (st.inHeader ==> !v.SetsField(field)) && Step(st, v).Ok?
    ensures FieldOf(Step(st, v).value.header, field) == FieldOf(st.header, field)
  {
  }

  /** Lines that do not set `field` leave it as it was. */
  lemma {:induction false} FieldKept(views: seq<LineView>, i: nat, j: nat, field: string)
    requires i <= j <= |views| && Scan(views, j).Ok?
    requires forall k | i <= k < j :: !views[k].SetsField(field)
    ensures Scan(views, i).Ok?
    ensures FieldOf(Scan(views, j).value.header, field) == FieldOf(Scan(views, i).value.header, field)
    decreases j
  {
    OkPrefix(views, i, j);
    if j > i {
      OkPrefix(views, j - 1, j);
      FieldKept(views, i, j - 1, field);
      StepKeepsField(Scan(views, j - 1).value, views[j - 1], field);
    }
  }

  /** Whether line `j` is read in header mode. */
  predicate InHeaderAt(views: seq<LineView>, j: nat)
  {
    j <= |views| && Scan(views, j).Ok? && Scan(views, j).value.inHeader
  }

  /**
   * When a key occurs several times in the header, the last occurrence gives the attribute;
   * lines of the same shape after the separator are data lines and do not count.
   */
  lemma LastSetWins(views: seq<LineView>, k: nat, field: string)
    requires k < |views| && Scan(views, |views|).Ok?
    requires InHeaderAt(views, k)
    requires views[k].SetsField(field)
    requires forall j | k < j < |views| && InHeaderAt(views, j) :: !views[j].SetsField(field)
    ensures FieldOf(Scan(views, |views|).value.header, field) == Some(views[k].header.value)
  {
    SetUntil(views, k, |views|, field);
  }

  /** The value a line sets lasts through the following lines that do not set the same attribute. */
  lemma {:induction false} SetUntil(views: seq<LineView>, k: nat, j: nat, field: string)
    requires k < j <= |views| && Scan(views, j).Ok?
    requires InHeaderAt(views, k)
    requires views[k].SetsField(field)
    requires forall m | k < m < j && InHeaderAt(views, m) :: !views[m].SetsField(field)
    ensures FieldOf(Scan(views, j).value.header, field) == Some(views[k].header.value)
    decreases j
  {
    if j == k + 1 {
      SetAt(views, k, field);
    } else {
      OkPrefix(views, j - 1, j);
      SetUntil(views, k, j - 1, field);
      StepKeepsField(Scan(views, j - 1).value, views[j - 1], field);
    }
  }

  /** A line read in the header that sets `field` gives it that line's value. */
  lemma SetAt(views: seq<LineView>, k: nat, field: string)
    requires k < |views| && Scan(views, k).Ok? && Scan(views, k).value.inHeader
    requires views[k].SetsField(field)
    ensures Scan(views, k + 1).Ok?
    ensures FieldOf(Scan(views, k + 1).value.header, field) == Some(views[k].header.value)
  {
    KnownKeySets(Scan(views, k).value, views[k], field);
  }

  /** Bins are only ever appended: what was read from the first lines stays at the front. */
  lemma {:induction false} PairsGrow(views: seq<LineView>, i: nat, j: nat)
    requires i <= j <= |views| && Scan(views, j).Ok?
    ensures Scan(views, i).Ok?
    ensures |Scan(views, i).value.pairs| <= |Scan(views, j).value.pairs|
    ensures Scan(views, j).value.pairs[..|Scan(views, i).value.pairs|] == Scan(views, i).value.pairs
    decreases j
  {
    OkPrefix(views, i, j);
    if j > i {
      OkPrefix(views, j - 1, j);
      PairsGrow(views, i, j - 1);
      var a := Scan(views, i).value.pairs;
      var b := Scan(views, j - 1).value.pairs;
      var c := Scan(views, j).value.pairs;
      assert c[..|a|] == b[..|a|];
    }
  }

  // ---------------------------------------------------------------------------
  // Properties of `parse` on the lines of a file

  /** An attribute set by no header line is absent from the header. */
  lemma FieldAbsent(num: Numeric, table: Table, lines: seq<string>, field: string)
    requires Scan(ReadLines(num, table, lines), |lines|).Ok?
    requires forall k | 0 <= k < |lines| :: !Sets(table, lines[k], field)
    ensures field !in Scan(ReadLines(num, table, lines), |lines|).value.header
  {
    var views := ReadLines(num, table, lines);
    forall k | 0 <= k < |lines|
      ensures !views[k].SetsField(field)
    {
      ReadLinesAt(num, table, lines, k);
      ViewSets(num, table, lines[k], field);
    }
    FieldKept(views, 0, |lines|, field);
  }

  /** A file without a `Profile Bins` line does not parse. */
  lemma ProfileBinsRequired(num: Numeric, table: Table, lines: seq<string>)
    requires forall k | 0 <= k < |lines| :: !Sets(table, lines[k], "profile_bins")
    ensures ParseSpec(num, table, lines).Err?
  {
    if Scan(ReadLines(num, table, lines), |lines|).Ok? {
      FieldAbsent(num, table, lines, "profile_bins");
    }
  }

  /** A `.bestprof` file without a `Profile Bins` header line does not parse. */
  lemma ProfileBinsLineRequired(num: Numeric, lines: seq<string>)
    requires forall k | 0 <= k < |lines| :: !(IsHeaderLine(lines[k]) && HeaderKey(lines[k]) == "Profile Bins")
    ensures ParseSpec(num, KeyValueMapping, lines).Err?
  {
    forall k | 0 <= k < |lines|
      ensures !Sets(KeyValueMapping, lines[k], "profile_bins")
    {
      if Sets(KeyValueMapping, lines[k], "profile_bins") {
        ProfileBinsKey(HeaderKey(lines[k]));
      }
    }
    ProfileBinsRequired(num, KeyValueMapping, lines);
  }

  /** The last header line for a key gives its attribute, converted, or None when conversion raises. */
  lemma LastHeaderLineWins(num: Numeric, table: Table, lines: seq<string>, k: nat, field: string)
    requires k < |lines| && ParseSpec(num, table, lines).Ok?
    requires InHeaderAt(ReadLines(num, table, lines), k)
    requires Sets(table, lines[k], field)
    requires forall j | k < j < |lines| && InHeaderAt(ReadLines(num, table, lines), j) :: !Sets(table, lines[j], field)
    ensures FieldOf(ParseSpec(num, table, lines).value.0, field) == Some(Stored(num, table, lines[k]))
  {
    var views := ReadLines(num, table, lines);
    forall j | k <= j < |lines|
      ensures views[j].SetsField(field) <==> Sets(table, lines[j], field)
    {
      ReadLinesAt(num, table, lines, j);
      ViewSets(num, table, lines[j], field);
    }
    ReadLinesAt(num, table, lines, k);
    ViewSets(num, table, lines[k], field);
    LastSetWins(views, k, field);
  }

  /** The scan after line `i` is the step of line `i` from the scan before it. */
  lemma ScanStep(num: Numeric, table: Table, lines: seq<string>, i: nat, st: ScanState)
    requires i < |lines| && Scan(ReadLines(num, table, lines), i) == Ok(st)
    ensures Scan(ReadLines(num, table, lines), i + 1) == Step(st, View(num, table, lines[i]))
  {
    ReadLinesAt(num, table, lines, i);
  }

  // ---------------------------------------------------------------------------
  // BestprofFile

  /** A parsed `.bestprof` file: its header attributes, its profile and the pulsar name set by the caller. */
  class BestprofFile {
    var header: map<string, FieldValue>
    var profile: seq<real>
    var psrName: string

    /** The attributes `__init__` assigns once `parse` has returned. */
    constructor (header: map<string, FieldValue>, profile: seq<real>)
      ensures this.header == header && this.profile == profile && psrName == ""
    {
      this.header := header;
      this.profile := profile;
      psrName := "";
    }

    /** `parse` over the lines of the file: the header loop, then the consecutive-bins loop and the bin count. */
    static method Parse(num: Numeric, lines: seq<string>) returns (r: Result<(map<string, FieldValue>, seq<real>), ParseError>)
      ensures r == ParseSpec(num, KeyValueMapping, lines)
    {
      var scan := ScanLines(num, KeyValueMapping, lines);
      if scan.Err? {
        return Err(scan.error);
      }
      var header := scan.value.header;
      var profile := CollectProfile(scan.value.pairs);
      if profile.Err? {
        return Err(profile.error);
      }
      if "profile_bins" !in header {
        return Err(MissingProfileBins);
      }
      if header["profile_bins"] != Int(|profile.value|) {
        return Err(BinCountDiscrepancy);
      }
      return Ok((header, profile.value));
    }

    /** The first loop of `parse`, reading keys with `table`: `in_header`, the header attributes and the (bin, value) pairs, line by line. */
    static method ScanLines(num: Numeric, table: Table, lines: seq<string>) returns (r: Result<ScanState, ParseError>)
      ensures r == Scan(ReadLines(num, table, lines), |lines|)
    {
      ghost var views := ReadLines(num, table, lines);
      var inHeader := true;
      var header: map<string, FieldValue> := map[];
      var pairs: seq<(int, real)> := [];
      var i := 0;
      while i < |lines|
        invariant i <= |lines|
        invariant Scan(views, i) == Ok(ScanState(inHeader, header, pairs))
      {
        var next := ReadLineAt(num, table, lines, i, ScanState(inHeader, header, pairs));
        if next.Err? {
          ErrorSticks(views, i + 1, |lines|);
          return Err(next.error);
        }
        inHeader, header, pairs := next.value.inHeader, next.value.header, next.value.pairs;
        i := i + 1;
      }
      return Ok(ScanState(inHeader, header, pairs));
    }

    /** Line `i` read in the state the first `i` lines left: the scan of the first `i + 1` lines. */
    static method ReadLineAt(num: Numeric, table: Table, lines: seq<string>, i: nat, st: ScanState) returns (r: Result<ScanState, ParseError>)
      requires i < |lines| && Scan(ReadLines(num, table, lines), i) == Ok(st)
      ensures r == Scan(ReadLines(num, table, lines), i + 1)
    {
      ScanStep(num, table, lines, i, st);
      r := ReadLine(num, table, st, lines[i]);
    }

    /** One pass of the first loop of `parse`: a header line while in the header, a profile line otherwise. */
    static method ReadLine(num: Numeric, table: Table, st: ScanState, line: string) returns (r: Result<ScanState, ParseError>)
      ensures r == Step(st, View(num, table, line))
    {
      var inHeader, header, pairs := st.inHeader, st.header, st.pairs;
      if inHeader && |line| == 0 {
        return Err(IndexError);
      }
      if inHeader && line[0] == '#' {
        var key := HeaderKey(line);
        if key == SeparatorKey {
          inHeader := false;
        } else if key in table {
          var decoded := Decode(num, table[key].1, HeaderValue(line));
          if decoded.Ok? {
            header := header[table[key].0 := decoded.value];
          } else {
            header := header[table[key].0 := NoneValue];
          }
        }
      } else {
        var words := Words(line);
        if |words| == 0 {
          return Err(IndexError);
        }
        var bin := num.toInt(words[0]);
        if bin.Some? {
          if |words| < 2 {
            return Err(IndexError);
          }
          var value := num.toFloat(words[1]);
          if value.Some? {
            pairs := pairs + [(bin.value, value.value)];
          }
        }
      }
      return Ok(ScanState(inHeader, header, pairs));
    }

    /** The second loop of `parse`: the values in order, provided the bins count up from 0 by one. */
    static method CollectProfile(pairs: seq<(int, real)>) returns (r: Result<seq<real>, ParseError>)
      ensures r.Ok? <==> Consecutive(pairs)
      ensures r.Ok? ==> r.value == Values(pairs)
      ensures r.Err? ==> r.error == NonConsecutive
    {
      var profile: seq<real> := [];
      var lastBin := -1;
      var k := 0;
      while k < |pairs|
        invariant k <= |pairs| && lastBin == k - 1
        invariant forall j | 0 <= j < k :: pairs[j].0 == j
        invariant |profile| == k && forall j | 0 <= j < k :: profile[j] == pairs[j].1
      {
        if lastBin + 1 != pairs[k].0 {
          return Err(NonConsecutive);
        }
        profile := profile + [pairs[k].1];
        lastBin := pairs[k].0;
        k := k + 1;
      }
      return Ok(profile);
    }

    /** `BestprofFile(filename)`: a new object holding what `parse` returned, or the exception it raised. */
    static method Open(num: Numeric, lines: seq<string>) returns (r: Result<BestprofFile, ParseError>)
      ensures r.Err? <==> ParseSpec(num, KeyValueMapping, lines).Err?
      ensures r.Err? ==> r.error == ParseSpec(num, KeyValueMapping, lines).error
      ensures r.Ok? ==>
        && fresh(r.value) && r.value.psrName == ""
        && (r.value.header, r.value.profile) == ParseSpec(num, KeyValueMapping, lines).value
    {
      var parsed := Parse(num, lines);
      if parsed.Err? {
        return Err(parsed.error);
      }
      var file := new BestprofFile(parsed.value.0, parsed.value.1);
      return Ok(file);
    }

    /** `set_psr_name`: replaces the pulsar name and nothing else. */
    method SetPsrName(name: string)
      modifies this`psrName
      ensures psrName == name
      ensures header == old(header) && profile == old(profile)
    {
      psrName := name;
    }
  }
}
