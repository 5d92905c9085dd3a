/** The text utilities of hashwars/utils/__init__.py: the numeric array spec
    ("array glob") and the d/h/m/s duration formatter, with the string
    primitives they rest on (str.split, str(int), float() on decimal literals). */
module Utils {
  import opened Basics

  // ---------------------------------------------------------------------
  // str.split and str.join
  // ---------------------------------------------------------------------

  /** Python's s.split(sep) for a non-empty separator: cuts at the leftmost
      occurrence, then continues after it, so occurrences never overlap. */
  function Split(s: string, sep: string): (pieces: seq<string>)
    requires sep != []
    ensures |pieces| >= 1
    decreases |s|
  {
    if |s| < |sep| then [s]
    else if s[..|sep|] == sep then [""] + Split(s[|sep|..], sep)
    else
      var rest := Split(s[1..], sep);
      [[s[0]] + rest[0]] + rest[1..]
  }

  /** Python's sep.join(pieces). */
  function Join(pieces: seq<string>, sep: string): string
    requires |pieces| >= 1
  {
    if |pieces| == 1 then pieces[0] else pieces[0] + sep + Join(pieces[1..], sep)
  }

  /** Putting a character in front of the first piece puts it in front of the join. */
  lemma JoinConsFirst(c: char, pieces: seq<string>, sep: string)
    requires |pieces| >= 1
    ensures Join([[c] + pieces[0]] + pieces[1..], sep) == [c] + Join(pieces, sep)
  {
    var p := [[c] + pieces[0]] + pieces[1..];
    if |pieces| > 1 {
      assert p[1..] == pieces[1..];
    }
  }

  /** Splitting loses nothing: joining the pieces back gives the input. */
  lemma {:induction false} SplitJoin(s: string, sep: string)
    requires sep != []
    ensures Join(Split(s, sep), sep) == s
    decreases |s|
  {
    if |s| < |sep| {
    } else if s[..|sep|] == sep {
      var r := Split(s[|sep|..], sep);
      SplitJoin(s[|sep|..], sep);
      assert Split(s, sep) == [""] + r;
      assert Join([""] + r, sep) == "" + sep + Join(r, sep) by {
        assert ([""] + r)[1..] == r;
      }
      assert s == sep + s[|sep|..];
    } else {
      var rest := Split(s[1..], sep);
      SplitJoin(s[1..], sep);
      var p := [[s[0]] + rest[0]] + rest[1..];
      assert Split(s, sep) == p;
      JoinConsFirst(s[0], rest, sep);
      assert [s[0]] + s[1..] == s;
    }
  }

  function CountChar(s: string, c: char): nat
  {
    if s == [] then 0 else (if s[0] == c then 1 else 0) + CountChar(s[1..], c)
  }

  lemma {:induction false} CountCharConcat(a: string, b: string, c: char)
    ensures CountChar(a + b, c) == CountChar(a, c) + CountChar(b, c)
    decreases |a|
  {
    if a != [] {
      assert (a + b)[1..] == a[1..] + b;
      CountCharConcat(a[1..], b, c);
    } else {
      assert a + b == b;
    }
  }

  /** Splitting on one character gives one more piece than there are
      occurrences of that character. */
  lemma {:induction false} SplitCount(s: string, c: char)
    ensures |Split(s, [c])| == CountChar(s, c) + 1
    decreases |s|
  {
    if s != [] {
      SplitCount(s[1..], c);
      assert (s[..1] == [c]) == (s[0] == c);
    }
  }

  /** A string in which the separator cannot start is one piece. */
  lemma {:induction false} SplitNone(s: string, sep: string)
    requires sep != [] && sep[0] !in s
    ensures Split(s, sep) == [s]
    decreases |s|
  {
    if |s| >= |sep| {
      assert s[..|sep|][0] == s[0];
      SplitNone(s[1..], sep);
      assert [s[0]] + s[1..] == s;
    }
  }

  /** The first piece ends at the first separator. */
  lemma {:induction false} SplitAt(a: string, sep: string, b: string)
    requires sep != [] && sep[0] !in a
    ensures Split(a + sep + b, sep) == [a] + Split(b, sep)
    decreases |a|
  {
    var s := a + sep + b;
    if a == [] {
      assert s[..|sep|] == sep;
      assert s[|sep|..] == b;
    } else {
      assert s[0] == a[0] && s[..|sep|][0] == a[0];
      assert s[1..] == a[1..] + sep + b;
      SplitAt(a[1..], sep, b);
      assert [a[0]] + a[1..] == a;
    }
  }

  // ---------------------------------------------------------------------
  // str(int) and float() on decimal literals
  // ---------------------------------------------------------------------

  predicate IsDigit(c: char) { '0' <= c <= '9' }

  predicate AllDigits(s: string) { forall i :: 0 <= i < |s| ==> IsDigit(s[i]) }

  function DigitValue(c: char): (d: nat)
    requires IsDigit(c)
    ensures d < 10
  {
    (c as int - '0' as int) as nat
  }

  function DigitChar(d: nat): (c: char)
    requires d < 10
    ensures IsDigit(c) && DigitValue(c) == d
  {
    ('0' as int + d) as char
  }

  /** The number a string of decimal digits denotes (most significant first). */
  function DigitsValue(s: string): nat
    requires AllDigits(s)
  {
    if s == [] then 0 else DigitsValue(s[..|s| - 1]) * 10 + DigitValue(s[|s| - 1])
  }

  /** The value of the digits after a decimal point: "25" is 0.25. */
  function FractionValue(s: string): (v: real)
    requires AllDigits(s)
    ensures 0.0 <= v < 1.0
  {
    if s == [] then 0.0 else (DigitValue(s[0]) as real + FractionValue(s[1..])) / 10.0
  }

  /** Python's str(n) for n >= 0: the decimal digits of n, read back as n. */
  function NatToString(n: nat): (s: string)
    ensures |s| >= 1 && AllDigits(s)
    decreases n
  {
    if n < 10 then [DigitChar(n)] else NatToString(n / 10) + [DigitChar(n % 10)]
  }

  /** str(n) spells n in decimal. */
  lemma {:induction false} NatToStringValue(n: nat)
    ensures DigitsValue(NatToString(n)) == n
    decreases n
  {
    if n >= 10 {
      var front := NatToString(n / 10);
      NatToStringValue(n / 10);
      assert (front + [DigitChar(n % 10)])[..|front|] == front;
    }
  }

  /** Python's str(i) on any integer. */
  function IntToString(i: int): string
  {
    if i < 0 then "-" + NatToString(-i) else NatToString(i)
  }

  lemma {:induction false} DigitsHaveNo(s: string, c: char)
    requires AllDigits(s) && !IsDigit(c)
    ensures CountChar(s, c) == 0
    decreases |s|
  {
    if s != [] {
      DigitsHaveNo(s[1..], c);
    }
  }

  /** Python's float(s), for the literals the array spec uses: an optional
      sign, then digits with at most one decimal point, and at least one
      digit. Anything else is a ValueError, here None. */
  function ParseDecimal(s: string): (r: Option<real>)
    ensures s == [] ==> r.None?
    ensures r.Some? && s[0] == '-' ==> r.value <= 0.0
    ensures r.Some? && s[0] != '-' ==> r.value >= 0.0
  {
    if |s| > 0 && (s[0] == '-' || s[0] == '+') then
      match ParseUnsigned(s[1..])
      case None => None
      case Some(v) => Some(if s[0] == '-' then -v else v)
    else ParseUnsigned(s)
  }

  function ParseUnsigned(s: string): (r: Option<real>)
    ensures r.Some? ==> r.value >= 0.0
  {
    ParseParts(Split(s, "."))
  }

  /** The pieces of an unsigned literal around its decimal points. */
  function ParseParts(parts: seq<string>): (r: Option<real>)
    requires |parts| >= 1
    ensures r.Some? ==> r.value >= 0.0
  {
    if |parts| > 2 then None
    else
      var whole := parts[0];
      var frac := if |parts| == 2 then parts[1] else "";
      if |whole| + |frac| == 0 || !AllDigits(whole) || !AllDigits(frac) then None
      else Some(DigitsValue(whole) as real + FractionValue(frac))
  }

  /** float(str(n)) == n: the parser reads back what str() writes. */
  lemma ParseNatToString(n: nat)
    ensures ParseDecimal(NatToString(n)) == Some(n as real)
  {
    var s := NatToString(n);
    NatToStringValue(n);
    assert '.' !in s;
    SplitNone(s, ".");
    assert !IsDigit('-') && !IsDigit('+');
    assert s[0] != '-' && s[0] != '+';
  }

  // ---------------------------------------------------------------------
  // numpy.arange on exact reals
  // ---------------------------------------------------------------------

  /** numpy.arange(start, stop, step): the progression start + k*step with
      ceil((stop - start) / step) terms (none when that is negative); a zero
      step raises, here None. */
  function Arange(start: real, stop: real, step: real): (r: Option<seq<real>>)
    ensures r.None? <==> step == 0.0
    ensures r.Some? ==> forall k :: 0 <= k < |r.value| ==> r.value[k] == start + k as real * step
  {
    if step == 0.0 then None
    else Some(seq(RangeLength(Ceil((stop - start) / step)), k => start + k as real * step))
  }

  lemma ScaleLess(k: real, x: real, step: real)
    requires step > 0.0
    ensures k < x <==> k * step < x * step
  {
  }

  lemma ScaleLessNeg(k: real, x: real, step: real)
    requires step < 0.0
    ensures k < x <==> k * step > x * step
  {
  }

  /** The stop value is exclusive, and the progression runs exactly as long
      as it has not reached it: term k exists iff start + k*step lies short
      of stop (below it for a positive step, above it for a negative one). */
  lemma ArangeStopExclusive(start: real, stop: real, step: real, k: nat)
    requires step != 0.0
    ensures step > 0.0 ==> (k < |Arange(start, stop, step).value| <==> start + k as real * step < stop)
    ensures step < 0.0 ==> (k < |Arange(start, stop, step).value| <==> start + k as real * step > stop)
  {
    var x := (stop - start) / step;
    var n := Ceil(x);
    assert k < RangeLength(n) <==> k < n;
    assert k < n <==> (k as real) < x;
    assert x * step == stop - start;
    if step > 0.0 {
      ScaleLess(k as real, x, step);
    } else {
      ScaleLessNeg(k as real, x, step);
    }
  }

  // ---------------------------------------------------------------------
  // array_glob
  // ---------------------------------------------------------------------

  datatype GlobError =
    | BadNumber(field: string)   // float() raised ValueError
    | NotATriple(range: string)  // unpacking into start, stop, step raised ValueError
    | ZeroStep(range: string)    // arange raised on a zero step

  /** Python's s[1:-1]. */
  function InnerSlice(s: string): (r: string)
    ensures |s| >= 2 ==> r == s[1..|s| - 1]
    ensures |s| < 2 ==> r == ""
  {
    if |s| >= 2 then s[1..|s| - 1] else ""
  }

  /** [float(n) for n in fields]: the first field that does not parse raises. */
  function ParseList(fields: seq<string>): Result<seq<real>, GlobError>
  {
    if fields == [] then Ok([])
    else
      match ParseDecimal(fields[0])
      case None => Err(BadNumber(fields[0]))
      case Some(v) =>
        match ParseList(fields[1..])
        case Err(e) => Err(e)
        case Ok(vs) => Ok([v] + vs)
  }

  /** One "start,stop,step" range: exactly three fields, parsed left to right. */
  function ExpandRange(range: string): (r: Result<seq<real>, GlobError>)
    ensures var f := Split(range, ",");
      && (|f| != 3 ==> r == Err(NotATriple(range)))
      && (r.Ok? <==> |f| == 3 && ParseDecimal(f[0]).Some? && ParseDecimal(f[1]).Some?
                     && ParseDecimal(f[2]).Some? && ParseDecimal(f[2]).value != 0.0)
      && (r.Ok? ==> r.value == Arange(ParseDecimal(f[0]).value, ParseDecimal(f[1]).value, ParseDecimal(f[2]).value).value)
  {
    ExpandFields(range, Split(range, ","))
  }

  function ExpandFields(range: string, f: seq<string>): (r: Result<seq<real>, GlobError>)
    ensures |f| != 3 ==> r == Err(NotATriple(range))
    ensures r.Ok? <==> |f| == 3 && ParseDecimal(f[0]).Some? && ParseDecimal(f[1]).Some?
                       && ParseDecimal(f[2]).Some? && ParseDecimal(f[2]).value != 0.0
    ensures r.Ok? ==> r.value == Arange(ParseDecimal(f[0]).value, ParseDecimal(f[1]).value, ParseDecimal(f[2]).value).value
  {
    if |f| != 3 then Err(NotATriple(range))
    else
      var start := ParseDecimal(f[0]);
      var stop := ParseDecimal(f[1]);
      var step := ParseDecimal(f[2]);
      if start.None? then Err(BadNumber(f[0]))
      else if stop.None? then Err(BadNumber(f[1]))
      else if step.None? then Err(BadNumber(f[2]))
      else
        match Arange(start.value, stop.value, step.value)
        case None => Err(ZeroStep(range))
        case Some(vs) => Ok(vs)
  }

  type Expander = string -> Result<seq<real>, GlobError>

  /** The ranges expanded by `expand` and concatenated in order; the first
      failing range's error wins. (The expansion is a parameter so that the
      facts about concatenation below hold for any per-range expansion.) */
  function ExpandRanges(expand: Expander, ranges: seq<string>): Result<seq<real>, GlobError>
    decreases |ranges|
  {
    if ranges == [] then Ok([])
    else
      match ExpandRanges(expand, ranges[..|ranges| - 1])
      case Err(e) => Err(e)
      case Ok(vs) =>
        match expand(ranges[|ranges| - 1])
        case Err(e) => Err(e)
        case Ok(r) => Ok(vs + r)
  }

  /** What array_glob computes: bracketed ranges, or else a comma list. */
  function Glob(spec: string): (r: Result<seq<real>, GlobError>)
    ensures spec == [] ==> r == Err(BadNumber(""))
    ensures !(|spec| > 0 && spec[0] == '[') && r.Ok? ==> |r.value| == CountChar(spec, ',') + 1
  {
    if |spec| > 0 && spec[0] == '[' then ExpandRanges(ExpandRange, Split(InnerSlice(spec), "]["))
    else
      var fields := Split(spec, ",");
      var r := ParseList(fields);
      if r.Ok? then
        ParseListShape(fields);
        SplitCount(spec, ',');
        r
      else r
  }

  /** array_glob: the bracket form accumulates each range onto the values so far. */
  method ArrayGlob(spec: string) returns (r: Result<seq<real>, GlobError>)
    ensures r == Glob(spec)
  {
    if |spec| > 0 && spec[0] == '[' {
      var ranges := Split(InnerSlice(spec), "][");
      var values: seq<real> := [];
      var i := 0;
      while i < |ranges|
        invariant 0 <= i <= |ranges|
        invariant ExpandRanges(ExpandRange, ranges[..i]) == Ok(values)
      {
        assert ranges[..i + 1][..i] == ranges[..i];
        var piece := ExpandRange(ranges[i]);
        if piece.Err? {
          ExpandRangesErrorPersists(ExpandRange, ranges, i + 1);
          return Err(piece.error);
        }
        values := values + piece.value;
        i := i + 1;
      }
      assert ranges[..i] == ranges;
      r := Ok(values);
    } else {
      r := ParseList(Split(spec, ","));
    }
  }

  /** Once a range fails, later ranges are never looked at: the error stands. */
  lemma {:induction false} ExpandRangesErrorPersists(expand: Expander, ranges: seq<string>, i: nat)
    requires i <= |ranges| && ExpandRanges(expand, ranges[..i]).Err?
    ensures ExpandRanges(expand, ranges) == ExpandRanges(expand, ranges[..i])
    decreases |ranges| - i
  {
    if i < |ranges| {
      assert ranges[..i + 1][..i] == ranges[..i];
      ExpandRangesErrorPersists(expand, ranges, i + 1);
    } else {
      assert ranges[..i] == ranges;
    }
  }

  /** A comma list gives one value per field, in field order. */
  lemma {:induction false} ParseListShape(fields: seq<string>)
    requires ParseList(fields).Ok?
    ensures |ParseList(fields).value| == |fields|
    ensures forall i :: 0 <= i < |fields| ==>
      ParseDecimal(fields[i]) == Some(ParseList(fields).value[i])
  {
    if fields != [] {
      ParseListShape(fields[1..]);
    }
  }

  /** array_glob on a comma list: as many values as commas plus one, in order. */
  lemma GlobCommaList(spec: string)
    requires !(|spec| > 0 && spec[0] == '[')
    requires Glob(spec).Ok?
    ensures |Glob(spec).value| == |Split(spec, ",")| == CountChar(spec, ',') + 1
    ensures forall i :: 0 <= i < |Glob(spec).value| ==>
      ParseDecimal(Split(spec, ",")[i]) == Some(Glob(spec).value[i])
  {
    ParseListShape(Split(spec, ","));
    SplitCount(spec, ',');
  }

  lemma ExpandRangesSnoc(expand: Expander, ranges: seq<string>, last: string)
    ensures ExpandRanges(expand, ranges + [last]).Ok? <==>
      ExpandRanges(expand, ranges).Ok? && expand(last).Ok?
    ensures ExpandRanges(expand, ranges + [last]).Ok? ==>
      ExpandRanges(expand, ranges + [last]).value == ExpandRanges(expand, ranges).value + expand(last).value
  {
    assert (ranges + [last])[..|ranges|] == ranges;
  }

  /** Expansion distributes over concatenation of range lists: the ranges
      appear in the output in specification order. */
  lemma {:induction false} ExpandRangesConcat(expand: Expander, p: seq<string>, q: seq<string>)
    requires ExpandRanges(expand, p).Ok? && ExpandRanges(expand, q).Ok?
    ensures ExpandRanges(expand, p + q).Ok?
    ensures ExpandRanges(expand, p + q).value == ExpandRanges(expand, p).value + ExpandRanges(expand, q).value
    decreases |q|
  {
    if q == [] {
      assert p + q == p;
    } else {
      var q', last := q[..|q| - 1], q[|q| - 1];
      assert q == q' + [last];
      assert p + q == (p + q') + [last];
      ExpandRangesSnoc(expand, q', last);
      ExpandRangesConcat(expand, p, q');
      ExpandRangesSnoc(expand, p + q', last);
    }
  }

  /** The sum of the lengths of the expanded ranges, one range at a time. */
  function TotalLength(expand: Expander, ranges: seq<string>): nat
  {
    if ranges == [] then 0
    else
      var here := expand(ranges[|ranges| - 1]);
      TotalLength(expand, ranges[..|ranges| - 1]) + (if here.Ok? then |here.value| else 0)
  }

  /** In bracket form the output length is the sum of the per-range lengths. */
  lemma {:induction false} ExpandRangesLength(expand: Expander, ranges: seq<string>)
    requires ExpandRanges(expand, ranges).Ok?
    ensures |ExpandRanges(expand, ranges).value| == TotalLength(expand, ranges)
    decreases |ranges|
  {
    if ranges != [] {
      ExpandRangesLength(expand, ranges[..|ranges| - 1]);
    }
  }

  lemma SplitRangeExamples()
    ensures Split("1,5,1", ",") == ["1", "5", "1"]
    ensures Split("0.1,1,0.3", ",") == ["0.1", "1", "0.3"]
  {
    SplitIntegerRange();
    SplitFractionRange();
  }

  lemma SplitIntegerRange()
    ensures Split("1,5,1", ",") == ["1", "5", "1"]
  {
    assert "1,5,1" == "1" + "," + ("5" + "," + "1");
    SplitThree("1", "5", "1", ",");
  }

  lemma SplitFractionRange()
    ensures Split("0.1,1,0.3", ",") == ["0.1", "1", "0.3"]
  {
    assert "0.1,1,0.3" == "0.1" + "," + ("1" + "," + "0.3");
    SplitThree("0.1", "1", "0.3", ",");
  }

  /** Three fields joined by a one-character separator none of them contains. */
  lemma SplitThree(a: string, b: string, c: string, sep: string)
    requires |sep| == 1 && sep[0] !in a && sep[0] !in b && sep[0] !in c
    ensures Split(a + sep + (b + sep + c), sep) == [a, b, c]
  {
    SplitNone(c, sep);
    SplitAt(b, sep, c);
    SplitAt(a, sep, b + sep + c);
  }

  lemma ParseIntegerExamples()
    ensures ParseDecimal("1") == Some(1.0) && ParseDecimal("5") == Some(5.0)
  {
    ParseNatToString(1);
    ParseNatToString(5);
    assert NatToString(1) == "1" && NatToString(5) == "5";
  }

  lemma ParseFractionExamples()
    ensures ParseDecimal("0.1") == Some(0.1) && ParseDecimal("0.3") == Some(0.3)
  {
    ParseOneTenth();
    ParseThreeTenths();
  }

  lemma ParseOneTenth()
    ensures ParseDecimal("0.1") == Some(0.1)
  {
    ParseTenths("1");
    assert "0." + "1" == "0.1";
  }

  lemma ParseThreeTenths()
    ensures ParseDecimal("0.3") == Some(0.3)
  {
    ParseTenths("3");
    assert "0." + "3" == "0.3";
  }

  lemma ParseTenths(d: string)
    requires |d| == 1 && IsDigit(d[0])
    ensures ParseDecimal("0." + d) == Some(DigitValue(d[0]) as real / 10.0)
  {
    assert "0." + d == "0" + "." + d;
    ParseFraction("0", d);
    assert d[1..] == [];
  }

  /** A whole part, a point and a fractional part of digits. */
  lemma ParseFraction(w: string, f: string)
    requires |w| >= 1 && IsDigit(w[0]) && AllDigits(w) && AllDigits(f)
    ensures ParseDecimal(w + "." + f) == Some(DigitsValue(w) as real + FractionValue(f))
  {
    var s := w + "." + f;
    assert ParseDecimal(s) == ParseUnsigned(s) by {
      assert s[0] == w[0];
    }
    assert Split(s, ".") == [w, f] by {
      assert '.' !in w && '.' !in f;
      SplitAt(w, ".", f);
      SplitNone(f, ".");
    }
    ParsePartsOf(w, f);
  }

  lemma ParsePartsOf(w: string, f: string)
    requires |w| >= 1 && AllDigits(w) && AllDigits(f)
    ensures ParseParts([w, f]) == Some(DigitsValue(w) as real + FractionValue(f))
  {
  }

  lemma ArangeExamples()
    ensures Arange(1.0, 5.0, 1.0) == Some([1.0, 2.0, 3.0, 4.0])
    ensures Arange(0.1, 1.0, 0.3) == Some([0.1, 0.4, 0.7])
  {
    assert Ceil(4.0) == 4;
    var r := Arange(1.0, 5.0, 1.0).value;
    assert r == [1.0, 2.0, 3.0, 4.0] by {
      assert |r| == 4 && r[0] == 1.0 && r[1] == 2.0 && r[2] == 3.0 && r[3] == 4.0;
    }
    assert Ceil(3.0) == 3;
    var q := Arange(0.1, 1.0, 0.3).value;
    assert q == [0.1, 0.4, 0.7] by {
      assert |q| == 3 && q[0] == 0.1 && q[1] == 0.4 && q[2] == 0.7;
    }
  }

  lemma ExpandRangeExamples()
    ensures ExpandRange("1,5,1") == Ok([1.0, 2.0, 3.0, 4.0])
    ensures ExpandRange("0.1,1,0.3") == Ok([0.1, 0.4, 0.7])
  {
    SplitRangeExamples();
    ArangeExamples();
    ParseFractionExamples();
    ParseIntegerExamples();
    ExpandRangeFrom("1,5,1", 1.0, 5.0, 1.0);
    ExpandRangeFrom("0.1,1,0.3", 0.1, 1.0, 0.3);
  }

  lemma ExpandRangeFrom(range: string, start: real, stop: real, step: real)
    requires |Split(range, ",")| == 3
    requires ParseDecimal(Split(range, ",")[0]) == Some(start)
    requires ParseDecimal(Split(range, ",")[1]) == Some(stop)
    requires ParseDecimal(Split(range, ",")[2]) == Some(step)
    requires step != 0.0
    ensures ExpandRange(range) == Ok(Arange(start, stop, step).value)
  {
  }

  /** The worked examples next to array_glob. */
  lemma GlobExampleOneRange()
    ensures Glob("[1,5,1]") == Ok([1.0, 2.0, 3.0, 4.0])
  {
    BracketSplitExamples();
    ExpandRangeExamples();
    ExpandRangesOneTwo(ExpandRange, "0.1,1,0.3", "1,5,1");
    GlobBracket("[1,5,1]", ["1,5,1"], [1.0, 2.0, 3.0, 4.0]);
  }

  /** Exact arithmetic: 0.1 + 3 * 0.3 reaches the stop value 1 and is excluded,
      so the first range has three values and the second four. */
  lemma GlobExampleTwoRanges()
    ensures Glob("[0.1,1,0.3][1,5,1]") == Ok([0.1, 0.4, 0.7, 1.0, 2.0, 3.0, 4.0])
  {
    BracketSplitExamples();
    TwoRangesExpanded();
    GlobBracket("[0.1,1,0.3][1,5,1]", ["0.1,1,0.3", "1,5,1"], [0.1, 0.4, 0.7, 1.0, 2.0, 3.0, 4.0]);
  }

  lemma TwoRangesExpanded()
    ensures ExpandRanges(ExpandRange, ["0.1,1,0.3", "1,5,1"]) == Ok([0.1, 0.4, 0.7, 1.0, 2.0, 3.0, 4.0])
  {
    TwoRangesConcatenated();
    TwoRangesJoined();
  }

  /** Proof helper: the concatenation of the two ranges' literal values. */
  lemma TwoRangesJoined()
    ensures [0.1, 0.4, 0.7] + [1.0, 2.0, 3.0, 4.0] == [0.1, 0.4, 0.7, 1.0, 2.0, 3.0, 4.0]
  {
  }

  lemma TwoRangesConcatenated()
    ensures ExpandRanges(ExpandRange, ["0.1,1,0.3", "1,5,1"]) == Ok([0.1, 0.4, 0.7] + [1.0, 2.0, 3.0, 4.0])
  {
    ExpandRangeExamples();
    ExpandRangesOneTwo(ExpandRange, "0.1,1,0.3", "1,5,1");
  }

  lemma GlobBracket(spec: string, ranges: seq<string>, values: seq<real>)
    requires |spec| > 0 && spec[0] == '['
    requires Split(InnerSlice(spec), "][") == ranges
    requires ExpandRanges(ExpandRange, ranges) == Ok(values)
    ensures Glob(spec) == Ok(values)
  {
  }

  lemma BracketSplitExamples()
    ensures Split(InnerSlice("[1,5,1]"), "][") == ["1,5,1"]
    ensures Split(InnerSlice("[0.1,1,0.3][1,5,1]"), "][") == ["0.1,1,0.3", "1,5,1"]
  {
    OneBracketSplit();
    TwoBracketSplit();
  }

  lemma OneBracketSplit()
    ensures Split(InnerSlice("[1,5,1]"), "][") == ["1,5,1"]
  {
    InnerSliceOf("1,5,1");
    assert "[1,5,1]" == "[" + "1,5,1" + "]";
    SplitNone("1,5,1", "][");
  }

  lemma TwoBracketSplit()
    ensures Split(InnerSlice("[0.1,1,0.3][1,5,1]"), "][") == ["0.1,1,0.3", "1,5,1"]
  {
    TwoBracketSpelling();
    BracketPairSplit("0.1,1,0.3", "1,5,1");
  }

  lemma TwoBracketSpelling()
    ensures "[0.1,1,0.3][1,5,1]" == "[" + ("0.1,1,0.3" + "][" + "1,5,1") + "]"
  {
  }

  /** Two bracketed ranges split back into the two ranges. */
  lemma BracketPairSplit(a: string, b: string)
    requires ']' !in a && ']' !in b
    ensures Split(InnerSlice("[" + (a + "][" + b) + "]"), "][") == [a, b]
  {
    InnerSliceOf(a + "][" + b);
    SplitAt(a, "][", b);
    SplitNone(b, "][");
  }

  lemma InnerSliceOf(x: string)
    ensures InnerSlice("[" + x + "]") == x
  {
    var s := "[" + x + "]";
    assert s[1..|s| - 1] == x;
  }

  lemma ExpandRangesOneTwo(expand: Expander, a: string, b: string)
    requires expand(a).Ok? && expand(b).Ok?
    ensures ExpandRanges(expand, [b]) == Ok(expand(b).value)
    ensures ExpandRanges(expand, [a, b]) == Ok(expand(a).value + expand(b).value)
  {
    assert [a, b][..1] == [a];
    assert [a][..0] == [] && [b][..0] == [];
    assert [] + expand(a).value == expand(a).value;
    assert [] + expand(b).value == expand(b).value;
  }

  // ---------------------------------------------------------------------
  // format_duration
  // ---------------------------------------------------------------------

  const DAY: int := 86400
  const HOUR: int := 3600
  const MINUTE: int := 60

  /** format_duration: whole days, hours and minutes while the remaining time
      strictly exceeds the unit, then the remaining seconds. */
  function FormatDuration(t: int): (r: string)
    ensures |r| >= 2 && r[|r| - 1] == 's'
    decreases t
  {
    if t > DAY then
      var days := t / DAY;
      NatToString(days) + "d" + FormatDuration(t - days * DAY)
    else if t > HOUR then
      var hours := t / HOUR;
      NatToString(hours) + "h" + FormatDuration(t - hours * HOUR)
    else if t > MINUTE then
      var minutes := t / MINUTE;
      NatToString(minutes) + "m" + FormatDuration(t - minutes * MINUTE)
    else IntToString(t) + "s"
  }

  /** Up to and including a whole minute, the time prints as plain seconds. */
  lemma FormatUpToMinute(t: int)
    requires t <= MINUTE
    ensures FormatDuration(t) == IntToString(t) + "s"
  {
  }

  /** The strict thresholds: a whole day prints as hours, a whole hour as
      minutes, a whole minute as seconds. */
  lemma FormatDurationExamples()
    ensures FormatDuration(60) == "60s"
    ensures FormatDuration(3600) == "60m0s"
    ensures FormatDuration(86400) == "24h0s"
    ensures FormatDuration(90061) == "1d1h1m1s"
  {
    FormatWholeMinute();
    FormatWholeHour();
    FormatWholeDay();
    FormatMixed();
  }

  lemma FormatWholeMinute()
    ensures FormatDuration(60) == "60s"
    ensures FormatDuration(0) == "0s"
    ensures FormatDuration(1) == "1s"
  {
    assert NatToString(6) == "6";
    assert NatToString(60) == NatToString(6) + "0";
  }

  lemma FormatWholeHour()
    ensures FormatDuration(3600) == "60m0s"
  {
    FormatWholeMinute();
    assert 3600 / MINUTE == 60;
    assert NatToString(6) == "6";
    assert NatToString(60) == "60";
  }

  lemma FormatWholeDay()
    ensures FormatDuration(86400) == "24h0s"
  {
    FormatWholeMinute();
    assert 86400 / HOUR == 24;
    assert NatToString(2) == "2";
    assert NatToString(24) == "24";
  }

  lemma FormatMixed()
    ensures FormatDuration(90061) == "1d1h1m1s"
  {
    FormatHourMinuteSecond();
    assert 90061 / DAY == 1 && 90061 - DAY == 3661;
    assert NatToString(1) == "1";
  }

  lemma FormatHourMinuteSecond()
    ensures FormatDuration(3661) == "1h1m1s"
  {
    FormatMinuteSecond();
    assert 3661 / HOUR == 1 && 3661 - HOUR == 61;
    assert NatToString(1) == "1";
  }

  lemma FormatMinuteSecond()
    ensures FormatDuration(61) == "1m1s"
  {
    FormatWholeMinute();
    assert 61 / MINUTE == 1 && 61 - MINUTE == 1;
    assert NatToString(1) == "1";
  }

  /** Reads a printed duration back, one character at a time: count is the
      number spelt by the digits since the last unit letter (digits says
      whether there were any), total the seconds of the fields already
      closed. A field ends in d, h, m or, last of all, s. */
  function ReadFields(s: string, total: int, count: nat, digits: bool): Option<int>
    decreases |s|
  {
    if s == [] then None
    else if IsDigit(s[0]) then ReadFields(s[1..], total, count * 10 + DigitValue(s[0]), true)
    else if !digits then None
    else if s[0] == 's' then (if |s| == 1 then Some(total + count) else None)
    else if s[0] == 'd' then ReadFields(s[1..], total + count * DAY, 0, false)
    else if s[0] == 'h' then ReadFields(s[1..], total + count * HOUR, 0, false)
    else if s[0] == 'm' then ReadFields(s[1..], total + count * MINUTE, 0, false)
    else None
  }

  /** The number of seconds a format_duration string denotes; a leading '-'
      negates a plain count of seconds. */
  function DurationValue(s: string): Option<int>
  {
    if |s| >= 1 && s[0] == '-' then
      match ReadFields(s[1..], 0, 0, false)
      case Some(v) => Some(-v)
      case None => None
    else ReadFields(s, 0, 0, false)
  }

  /** Decimal digits read from the front onto an initial count c. */
  function Accumulate(c: nat, a: string): nat
    requires AllDigits(a)
    decreases |a|
  {
    if a == [] then c else Accumulate(c * 10 + DigitValue(a[0]), a[1..])
  }

  lemma {:induction false} AccumulateSnoc(c: nat, a: string, d: char)
    requires AllDigits(a) && IsDigit(d)
    ensures Accumulate(c, a + [d]) == Accumulate(c, a) * 10 + DigitValue(d)
    decreases |a|
  {
    if a == [] {
      assert [] + [d] == [d];
    } else {
      assert (a + [d])[1..] == a[1..] + [d];
      AccumulateSnoc(c * 10 + DigitValue(a[0]), a[1..], d);
    }
  }

  /** Reading from the front gives the same number as DigitsValue. */
  lemma {:induction false} AccumulateValue(a: string)
    requires AllDigits(a)
    ensures Accumulate(0, a) == DigitsValue(a)
    decreases |a|
  {
    if a != [] {
      var front := a[..|a| - 1];
      AccumulateValue(front);
      AccumulateSnoc(0, front, a[|a| - 1]);
      assert front + [a[|a| - 1]] == a;
    }
  }

  /** A run of digits only adds to the count. */
  lemma {:induction false} ReadDigits(a: string, x: string, total: int, count: nat, digits: bool)
    requires AllDigits(a)
    ensures ReadFields(a + x, total, count, digits) ==
      ReadFields(x, total, Accumulate(count, a), digits || a != [])
    decreases |a|
  {
    if a == [] {
      assert a + x == x;
    } else {
      assert (a + x)[0] == a[0] && (a + x)[1..] == a[1..] + x;
      ReadDigits(a[1..], x, total, count * 10 + DigitValue(a[0]), true);
    }
  }

  /** The seconds in q days, hours or minutes. */
  function FieldSeconds(q: nat, u: char): int
  {
    if u == 'd' then q * DAY else if u == 'h' then q * HOUR else q * MINUTE
  }

  /** The digits of q and then a unit letter close a field of q units. */
  lemma ReadField(q: nat, u: char, rest: string, total: int)
    requires u == 'd' || u == 'h' || u == 'm'
    ensures ReadFields(NatToString(q) + [u] + rest, total, 0, false) == ReadFields(rest, total + FieldSeconds(q, u), 0, false)
  {
    var a := NatToString(q);
    assert a + [u] + rest == a + ([u] + rest);
    ReadDigits(a, [u] + rest, total, 0, false);
    AccumulateValue(a);
    NatToStringValue(q);
    assert ([u] + rest)[0] == u && ([u] + rest)[1..] == rest;
  }

  lemma ReadSeconds(i: nat, total: int)
    ensures ReadFields(NatToString(i) + "s", total, 0, false) == Some(total + i)
  {
    var a := NatToString(i);
    ReadDigits(a, "s", total, 0, false);
    AccumulateValue(a);
    NatToStringValue(i);
  }

  /** format_duration loses nothing: its output reads back as the same number
      of seconds, for every integer input. */
  lemma FormatDurationRoundTrip(t: int)
    ensures DurationValue(FormatDuration(t)) == Some(t)
  {
    if t < 0 {
      NegativeRoundTrip(t);
    } else {
      FieldsRoundTrip(t, 0);
      FormatDurationHead(t);
    }
  }

  /** A negative count prints as a signed number of seconds. */
  lemma NegativeRoundTrip(t: int)
    requires t < 0
    ensures DurationValue(FormatDuration(t)) == Some(t)
  {
    var digits := NatToString(-t) + "s";
    assert FormatDuration(t) == "-" + digits by {
      assert FormatDuration(t) == IntToString(t) + "s";
    }
    ReadSeconds(-t, 0);
    assert ("-" + digits)[1..] == digits;
  }

  lemma {:induction false} FieldsRoundTrip(t: nat, total: int)
    ensures ReadFields(FormatDuration(t), total, 0, false) == Some(total + t)
    decreases t, 1
  {
    if t > DAY {
      DaysField(t, total);
    } else if t > HOUR {
      HoursField(t, total);
    } else if t > MINUTE {
      MinutesField(t, total);
    } else {
      SecondsField(t, total);
    }
  }

  lemma SecondsField(t: nat, total: int)
    requires t <= MINUTE
    ensures ReadFields(FormatDuration(t), total, 0, false) == Some(total + t)
  {
    assert FormatDuration(t) == NatToString(t) + "s";
    ReadSeconds(t, total);
  }

  /** The steps of the round trip where the first field is in days, hours
      or minutes. */
  lemma {:induction false} DaysField(t: nat, total: int)
    requires t > DAY
    ensures ReadFields(FormatDuration(t), total, 0, false) == Some(total + t)
    decreases t, 0
  {
    var q := t / DAY;
    var r := t - q * DAY;
    Remainder(t, DAY);
    FieldsRoundTrip(r, total + q * DAY);
    UnitField(q, r, 'd', DAY, FormatDuration(r), total);
    FormatDurationUnfold(t);
  }

  lemma {:induction false} HoursField(t: nat, total: int)
    requires DAY >= t > HOUR
    ensures ReadFields(FormatDuration(t), total, 0, false) == Some(total + t)
    decreases t, 0
  {
    var q := t / HOUR;
    var r := t - q * HOUR;
    Remainder(t, HOUR);
    FieldsRoundTrip(r, total + q * HOUR);
    UnitField(q, r, 'h', HOUR, FormatDuration(r), total);
    FormatDurationUnfold(t);
  }

  lemma {:induction false} MinutesField(t: nat, total: int)
    requires HOUR >= t > MINUTE
    ensures ReadFields(FormatDuration(t), total, 0, false) == Some(total + t)
    decreases t, 0
  {
    var q := t / MINUTE;
    var r := t - q * MINUTE;
    Remainder(t, MINUTE);
    FieldsRoundTrip(r, total + q * MINUTE);
    UnitField(q, r, 'm', MINUTE, FormatDuration(r), total);
    FormatDurationUnfold(t);
  }

  /** Taking out the whole units of t leaves a remainder in [0, unit). */
  lemma Remainder(t: nat, unit: nat)
    requires unit > 0
    ensures 0 <= t - t / unit * unit < unit
  {
  }

  /** A field of q units in front of a rest that reads back as r more
      seconds reads back as q units plus r seconds. */
  lemma UnitField(q: nat, r: nat, u: char, unit: int, rest: string, total: int)
    requires (u == 'd' && unit == DAY) || (u == 'h' && unit == HOUR) || (u == 'm' && unit == MINUTE)
    requires ReadFields(rest, total + q * unit, 0, false) == Some(total + q * unit + r)
    ensures ReadFields(NatToString(q) + [u] + rest, total, 0, false) == Some(total + q * unit + r)
  {
    ReadField(q, u, rest, total);
  }

  /** The first field format_duration prints, by the size of t. */
  lemma FormatDurationUnfold(t: int)
    ensures t > DAY ==> FormatDuration(t) == NatToString(t / DAY) + ['d'] + FormatDuration(t - t / DAY * DAY)
    ensures DAY >= t > HOUR ==> FormatDuration(t) == NatToString(t / HOUR) + ['h'] + FormatDuration(t - t / HOUR * HOUR)
    ensures HOUR >= t > MINUTE ==> FormatDuration(t) == NatToString(t / MINUTE) + ['m'] + FormatDuration(t - t / MINUTE * MINUTE)
  {
  }

  /** After a whole-unit step the remainder is never negative, so the rest of
      the output does not start with a sign. */
  lemma FormatDurationHead(t: int)
    requires t >= 0
    ensures FormatDuration(t)[0] != '-'
  {
    var r := FormatDuration(t);
    if t > MINUTE {
      var q := if t > DAY then t / DAY else if t > HOUR then t / HOUR else t / MINUTE;
      assert r[0] == NatToString(q)[0];
    } else {
      assert r[0] == NatToString(t)[0];
    }
  }

  /** Days are printed at most once, and only for more than a whole day. */
  lemma {:induction false} DayCount(t: int)
    ensures CountChar(FormatDuration(t), 'd') == (if t > DAY then 1 else 0)
    decreases t
  {
    if t > DAY {
      var q := t / DAY;
      NoDayBelowADay(t - q * DAY);
      DigitsHaveNo(NatToString(q), 'd');
      CountCharConcat(NatToString(q), "d", 'd');
      CountCharConcat(NatToString(q) + "d", FormatDuration(t - q * DAY), 'd');
    } else {
      NoDayBelowADay(t);
    }
  }

  lemma {:induction false} NoDayBelowADay(t: int)
    requires t <= DAY
    ensures CountChar(FormatDuration(t), 'd') == 0
    decreases t
  {
    var unit := if t > HOUR then HOUR else MINUTE;
    if t > MINUTE {
      var q := t / unit;
      var u := if t > HOUR then 'h' else 'm';
      NoDayBelowADay(t - q * unit);
      DigitsHaveNo(NatToString(q), 'd');
      CountCharConcat(NatToString(q), [u], 'd');
      CountCharConcat(NatToString(q) + [u], FormatDuration(t - q * unit), 'd');
    } else if t < 0 {
      DigitsHaveNo(NatToString(-t), 'd');
      CountCharConcat("-", NatToString(-t), 'd');
      CountCharConcat("-" + NatToString(-t), "s", 'd');
    } else {
      DigitsHaveNo(NatToString(t), 'd');
      CountCharConcat(NatToString(t), "s", 'd');
    }
  }
}
