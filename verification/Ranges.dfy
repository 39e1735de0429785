/** Single-range reads: the Range header parser (section 14.1.2 of RFC 9110), the backend's own
    guard, and the response built from the two. */
module Ranges {
  import opened Outcomes
  import opened Text

  /** Go's int64: arithmetic on it is checked to stay in range. */
  newtype int64 = x: int | -0x8000_0000_0000_0000 <= x < 0x8000_0000_0000_0000

  const MAX_INT64 := 0x7FFF_FFFF_FFFF_FFFF

  // ---- decimal numbers ----

  predicate IsDigit(c: char) {
    '0' <= c <= '9'
  }

  predicate AllDigits(s: string) {
    forall i :: 0 <= i < |s| ==> IsDigit(s[i])
  }

  function DigitsValue(s: string): nat
    requires AllDigits(s)
  {
    if s == "" then 0 else DigitsValue(s[..|s| - 1]) * 10 + (s[|s| - 1] as int - '0' as int)
  }

  /** `strconv.ParseInt(s, 10, 64)`: an optional sign, at least one digit, in range. */
  function ParseInt(s: string): Option<int64> {
    var digits := if s != "" && (s[0] == '+' || s[0] == '-') then s[1..] else s;
    if digits == "" || !AllDigits(digits) then None
    else
      var v: int := DigitsValue(digits);
      if s[0] == '-' then (if v <= MAX_INT64 + 1 then Some((-v) as int64) else None)
      else if v <= MAX_INT64 then Some(v as int64)
      else None
  }

  /** A sign in front of digits: a plus changes nothing, a minus negates; int64 reaches one further down
      than up. */
  lemma SignsAreRead(digits: string)
    requires digits != "" && AllDigits(digits)
    ensures var v: int := DigitsValue(digits);
            && ParseInt(digits) == ParseInt("+" + digits) == (if v < 0x8000_0000_0000_0000 then Some(v as int64) else None)
            && ParseInt("-" + digits) == if v <= 0x8000_0000_0000_0000 then Some((-v) as int64) else None
  {
    assert ("+" + digits)[1..] == digits && ("-" + digits)[1..] == digits;
    assert IsDigit(digits[0]);
  }

  function Format(n: nat): string {
    if n < 10 then [('0' as int + n) as char] else Format(n / 10) + [('0' as int + n % 10) as char]
  }

  lemma {:induction false} FormatParses(n: nat)
    ensures Format(n) != "" && AllDigits(Format(n)) && DigitsValue(Format(n)) == n
    ensures n <= MAX_INT64 ==> ParseInt(Format(n)) == Some(n as int64)
  {
    var s := Format(n);
    if n >= 10 {
      FormatParses(n / 10);
      assert s[..|s| - 1] == Format(n / 10);
    } else {
      assert s[..|s| - 1] == "";
    }
    assert IsDigit(s[0]);
  }

  // ---- the header ----

  datatype ByteRange = ByteRange(first: int64, last: int64)

  datatype RangeParse = Ignored | Unsatisfiable | Satisfiable(range: ByteRange)

  const UNIT := "bytes="

  function ParseRange(header: string, size: int64): (r: RangeParse)
    requires size >= 0
    ensures r.Satisfiable? ==> 0 <= r.range.first <= r.range.last < size
  {
    if !(UNIT <= header) then Ignored
    else
      var spec := header[|UNIT|..];
      if ',' in spec then Ignored
      else
        var dash := IndexOf(spec, '-');
        if dash < 0 then Ignored
        else if spec[..dash] == "" then ParseSuffix(spec[dash + 1..], size)
        else ParseSpan(spec[..dash], spec[dash + 1..], size)
  }

  /** "-N": the last N bytes. */
  function ParseSuffix(endText: string, size: int64): (r: RangeParse)
    requires size >= 0
    ensures r.Satisfiable? ==> 0 <= r.range.first <= r.range.last < size
  {
    var n := ParseInt(endText);
    if n.None? || n.value <= 0 then Ignored
    else if size == 0 then Unsatisfiable
    else
      var start := size - n.value;
      Satisfiable(ByteRange(if start < 0 then 0 else start, size - 1))
  }

  /** "A-" and "A-B". */
  function ParseSpan(startText: string, endText: string, size: int64): (r: RangeParse)
    requires size >= 0
    ensures r.Satisfiable? ==> 0 <= r.range.first <= r.range.last < size
  {
    var start := ParseInt(startText);
    if start.None? || start.value < 0 then Ignored
    else if start.value >= size then Unsatisfiable
    else if endText == "" then Satisfiable(ByteRange(start.value, size - 1))
    else
      var end := ParseInt(endText);
      if end.None? || end.value < start.value then Ignored
      else Satisfiable(ByteRange(start.value, if end.value < size - 1 then end.value else size - 1))
  }

  // ---- what a header asks for ----

  datatype RangeSpec = Suffix(length: nat) | From(first: nat) | Span(first: nat, last: nat)

  /** The positions of an object of `size` bytes a range selects. */
  predicate Selects(spec: RangeSpec, size: int64, i: int) {
    0 <= i < size as int &&
    match spec
    case Suffix(n) => i >= size as int - n
    case From(a) => a <= i
    case Span(a, b) => a <= i <= b
  }

  predicate Number(s: string, n: nat) {
    s != "" && AllDigits(s) && DigitsValue(s) == n
  }

  /** Unit names are case-insensitive (section 14.1). */
  predicate IsUnit(unit: string) {
    |unit| == |UNIT| && forall i :: 0 <= i < |unit| ==> Lower(unit[i]) == UNIT[i]
  }

  function Lower(c: char): char {
    if 'A' <= c <= 'Z' then (c as int + 32) as char else c
  }

  /** `header` is a single byte range by the grammar of section 14.1.2: digits only, of any length,
      and a last position that is not before the first. */
  predicate GrammarReads(header: string, unit: string, startText: string, endText: string, spec: RangeSpec) {
    && header == unit + startText + "-" + endText && IsUnit(unit)
    && match spec
       case Suffix(n) => startText == "" && Number(endText, n)
       case From(a) => Number(startText, a) && endText == ""
       case Span(a, b) => Number(startText, a) && Number(endText, b) && a <= b
  }

  ghost predicate WellFormed(header: string) {
    exists unit: string, startText: string, endText: string, spec: RangeSpec :: GrammarReads(header, unit, startText, endText, spec)
  }

  /** `header` is a range as the parser reads numbers. */
  predicate ReadsAs(header: string, startText: string, endText: string, spec: RangeSpec) {
    && header == UNIT + startText + "-" + endText
    && '-' !in startText && ',' !in startText && ',' !in endText
    && match spec
       case Suffix(n) => startText == "" && n > 0 && n <= MAX_INT64 && ParseInt(endText) == Some(n as int64)
       case From(a) => a <= MAX_INT64 && ParseInt(startText) == Some(a as int64) && endText == ""
       case Span(a, b) => a <= b <= MAX_INT64 && ParseInt(startText) == Some(a as int64) && ParseInt(endText) == Some(b as int64)
  }

  lemma UnitSpellings(unit: string)
    ensures IsUnit(unit) <==>
              && |unit| == 6 && unit[0] in {'b', 'B'} && unit[1] in {'y', 'Y'} && unit[2] in {'t', 'T'}
              && unit[3] in {'e', 'E'} && unit[4] in {'s', 'S'} && unit[5] == '='
  {
  }

  predicate Signed(s: string) {
    s != "" && s[0] in {'+', '-'}
  }

  /** A suffix of some length, and every number fits int64. */
  predicate Representable(spec: RangeSpec) {
    match spec
    case Suffix(n) => 0 < n <= MAX_INT64
    case From(a) => a <= MAX_INT64
    case Span(_, b) => b <= MAX_INT64
  }

  /** The parser answers before it reads the last position. */
  predicate StopsEarly(spec: RangeSpec, size: int64) {
    spec.Span? && size as int <= spec.first <= MAX_INT64
  }

  lemma HeaderParts(startText: string, endText: string, size: int64)
    requires size >= 0
    requires '-' !in startText && ',' !in startText && ',' !in endText
    ensures ParseRange(UNIT + startText + "-" + endText, size)
         == if startText == "" then ParseSuffix(endText, size) else ParseSpan(startText, endText, size)
  {
    hide ParseSuffix, ParseSpan;
    var header := UNIT + startText + "-" + endText;
    var spec := startText + "-" + endText;
    assert header == UNIT + spec;
    assert header[|UNIT|..] == spec;
    var dash := IndexOf(spec, '-');
    assert spec[|startText|] == '-';
    assert forall j :: 0 <= j < |startText| ==> spec[j] == startText[j];
    assert dash == |startText|;
    assert spec[..dash] == startText && spec[dash + 1..] == endText;
  }

  /** For every range the parser reads, and every size: the bytes served are exactly the positions
      the range selects, and the answer is "unsatisfiable" exactly when it selects none. */
  lemma ReadMeaning(header: string, startText: string, endText: string, spec: RangeSpec, size: int64)
    requires size >= 0 && ReadsAs(header, startText, endText, spec)
    ensures
      match ParseRange(header, size)
      case Ignored => false
      case Unsatisfiable => forall i: int :: !Selects(spec, size, i)
      case Satisfiable(r) => forall i: int :: r.first as int <= i <= r.last as int <==> Selects(spec, size, i)
  {
    HeaderParts(startText, endText, size);
  }

  lemma NumberParses(s: string, n: nat)
    requires Number(s, n)
    ensures ParseInt(s) == (if n <= MAX_INT64 then Some(n as int64) else None) && !Signed(s) && '-' !in s && ',' !in s
  {
    assert IsDigit(s[0]);
    NoDashInDigits(s);
  }

  /** What the parser reads without a sign is a number, and nothing else is. */
  lemma UnsignedParses(s: string, n: nat)
    requires n <= MAX_INT64 && ParseInt(s) == Some(n as int64)
    ensures Number(s, n) <==> !Signed(s)
  {
    if s != "" && Number(s, n) {
      assert IsDigit(s[0]);
    }
  }

  lemma GrammarTexts(startText: string, endText: string, spec: RangeSpec)
    requires GrammarReads(UNIT + startText + "-" + endText, UNIT, startText, endText, spec)
    ensures '-' !in startText && ',' !in startText && ',' !in endText && !Signed(startText) && !Signed(endText)
    ensures startText != "" ==> !spec.Suffix? && ParseInt(startText) == (if spec.first <= MAX_INT64 then Some(spec.first as int64) else None)
    ensures startText == "" <==> spec.Suffix?
    ensures endText == "" <==> spec.From?
    ensures spec.Suffix? ==> ParseInt(endText) == if spec.length <= MAX_INT64 then Some(spec.length as int64) else None
    ensures spec.Span? ==> ParseInt(endText) == if spec.last <= MAX_INT64 then Some(spec.last as int64) else None
  {
    hide ParseInt;
    match spec
    case Suffix(n) => NumberParses(endText, n);
    case From(a) => NumberParses(startText, a);
    case Span(a, b) => NumberParses(startText, a); NumberParses(endText, b);
  }

  /** For every range of the grammar and every size: the bytes served are exactly the positions it
      selects; "unsatisfiable" is answered only when it selects none; and it is ignored if and only
      if its unit is not in lower case, its suffix has length zero, or a number past int64 is read
      before the answer is known. */
  lemma RangeMeaning(header: string, unit: string, startText: string, endText: string, spec: RangeSpec, size: int64)
    requires size >= 0 && GrammarReads(header, unit, startText, endText, spec)
    ensures ReadsAs(header, startText, endText, spec) <==> unit == UNIT && Representable(spec)
    ensures
      match ParseRange(header, size)
      case Ignored => unit != UNIT || !(Representable(spec) || StopsEarly(spec, size))
      case Unsatisfiable =>
        unit == UNIT && (Representable(spec) || StopsEarly(spec, size)) && forall i: int :: !Selects(spec, size, i)
      case Satisfiable(r) =>
        && unit == UNIT && Representable(spec)
        && forall i: int :: r.first as int <= i <= r.last as int <==> Selects(spec, size, i)
  {
    hide ParseInt;
    assert header[..|UNIT|] == unit;
    if unit == UNIT {
      GrammarTexts(startText, endText, spec);
      HeaderParts(startText, endText, size);
      if ReadsAs(header, startText, endText, spec) {
        ReadMeaning(header, startText, endText, spec, size);
      }
      hide ParseRange;
    }
  }

  /** What the parser reads is in the grammar if and only if neither number carries a sign. */
  lemma ReadsAgainstGrammar(header: string, startText: string, endText: string, spec: RangeSpec)
    requires ReadsAs(header, startText, endText, spec)
    ensures WellFormed(header) <==> !Signed(startText) && !Signed(endText)
  {
    if !Signed(startText) && !Signed(endText) {
      match spec {
        case Suffix(n) => UnsignedParses(endText, n);
        case From(a) => UnsignedParses(startText, a);
        case Span(a, b) => UnsignedParses(startText, a); UnsignedParses(endText, b);
      }
      assert GrammarReads(header, UNIT, startText, endText, spec);
    }
    forall unit: string, st: string, en: string, sp: RangeSpec | GrammarReads(header, unit, st, en, sp)
      ensures !Signed(startText) && !Signed(endText)
    {
      hide ParseInt;
      assert header[..|UNIT|] == unit == UNIT;
      GrammarTexts(st, en, sp);
      SameCut(startText, endText, st, en);
    }
  }

  lemma SameCut(a: string, b: string, c: string, d: string)
    requires UNIT + a + "-" + b == UNIT + c + "-" + d && '-' !in a && '-' !in c
    ensures a == c && b == d
  {
    var x, y := a + "-" + b, c + "-" + d;
    assert UNIT + x == UNIT + a + "-" + b && UNIT + y == UNIT + c + "-" + d;
    assert (UNIT + x)[|UNIT|..] == x && (UNIT + y)[|UNIT|..] == y;
    IndexOfFirst(a, '-', b);
    IndexOfFirst(c, '-', d);
  }

  /** A range is served only for text the parser reads, which is well-formed if and only if it has
      no sign. */
  lemma ServedRangesAreWellFormed(header: string, size: int64) returns (startText: string, endText: string, spec: RangeSpec)
    requires size >= 0 && ParseRange(header, size).Satisfiable?
    ensures ReadsAs(header, startText, endText, spec)
    ensures WellFormed(header) <==> !Signed(startText) && !Signed(endText)
  {
    hide ParseInt;
    var rest := header[|UNIT|..];
    var dash := IndexOf(rest, '-');
    startText, endText := rest[..dash], rest[dash + 1..];
    assert rest == startText + "-" + endText;
    assert header == UNIT + rest;
    if startText == "" {
      spec := Suffix(ParseInt(endText).value as nat);
    } else if endText == "" {
      spec := From(ParseInt(startText).value as nat);
    } else {
      spec := Span(ParseInt(startText).value as nat, ParseInt(endText).value as nat);
    }
    ReadsAgainstGrammar(header, startText, endText, spec);
  }

  /** A start at or past the size is answered "unsatisfiable" whatever follows the dash, even
      text that is no number. */
  lemma EndTextUnreadPastTheSize(startText: string, endText: string, size: int64)
    requires size >= 0
    requires '-' !in startText && ',' !in startText && ',' !in endText && startText != ""
    requires ParseInt(startText).Some? && ParseInt(startText).value >= size
    ensures ParseRange(UNIT + startText + "-" + endText, size) == Unsatisfiable
  {
    HeaderParts(startText, endText, size);
  }

  /** The start text is a number at or past the size. */
  predicate StartsPast(header: string, startText: string, endText: string, size: int64) {
    && header == UNIT + startText + "-" + endText
    && '-' !in startText && ',' !in startText && ',' !in endText
    && ParseInt(startText).Some? && ParseInt(startText).value >= size
  }

  /** A range but for the sign of a number. */
  predicate SignedRange(header: string, startText: string, endText: string, spec: RangeSpec) {
    ReadsAs(header, startText, endText, spec) && (Signed(startText) || Signed(endText))
  }

  /** Malformed text is ignored, as the header's parser promises, if and only if its start is no
      number at or past the size and it is not a range but for a sign. */
  lemma MalformedText(header: string, size: int64)
    requires size >= 0 && !WellFormed(header)
    ensures ParseRange(header, size).Ignored? <==>
              && (!exists startText: string, endText: string :: StartsPast(header, startText, endText, size))
              && (!exists startText: string, endText: string, spec: RangeSpec :: SignedRange(header, startText, endText, spec))
  {
    hide ParseInt, ParseRange, ReadsAs, WellFormed, Signed;
    if ParseRange(header, size).Satisfiable? {
      var startText, endText, spec := ServedRangesAreWellFormed(header, size);
      assert SignedRange(header, startText, endText, spec);
    }
    if ParseRange(header, size).Unsatisfiable? {
      var startText, endText, spec := UnsatisfiableText(header, size);
      if !StartsPast(header, startText, endText, size) {
        ReadsAgainstGrammar(header, startText, endText, spec);
        assert SignedRange(header, startText, endText, spec);
      }
    }
    forall startText: string, endText: string | StartsPast(header, startText, endText, size)
      ensures ParseRange(header, size).Unsatisfiable?
    {
      EmptyIsNoNumber();
      EndTextUnreadPastTheSize(startText, endText, size);
    }
    forall startText: string, endText: string, spec: RangeSpec | SignedRange(header, startText, endText, spec)
      ensures !ParseRange(header, size).Ignored?
    {
      ReadMeaning(header, startText, endText, spec, size);
    }
  }

  lemma EmptyIsNoNumber()
    ensures ParseInt("").None?
  {
  }

  lemma UnsatisfiableText(header: string, size: int64) returns (startText: string, endText: string, spec: RangeSpec)
    requires size >= 0 && ParseRange(header, size).Unsatisfiable?
    ensures ReadsAs(header, startText, endText, spec) || StartsPast(header, startText, endText, size)
  {
    hide ParseInt;
    var rest := header[|UNIT|..];
    var dash := IndexOf(rest, '-');
    startText, endText := rest[..dash], rest[dash + 1..];
    assert rest == startText + "-" + endText;
    assert header == UNIT + rest;
    spec := if startText == "" then Suffix(ParseInt(endText).value as nat) else From(0);
  }

  lemma {:induction false} NoDashInDigits(s: string)
    requires AllDigits(s)
    ensures '-' !in s && ',' !in s
  {
    assert forall i :: 0 <= i < |s| ==> IsDigit(s[i]);
  }

  function RangeHeader(first: nat, last: nat): string {
    UNIT + Format(first) + "-" + Format(last)
  }

  /** Printing an in-bounds range and parsing it gives it back. */
  lemma RangeRoundTrip(r: ByteRange, size: int64)
    requires 0 <= r.first <= r.last < size
    ensures ParseRange(RangeHeader(r.first as nat, r.last as nat), size) == Satisfiable(r)
  {
    var s, e := Format(r.first as nat), Format(r.last as nat);
    FormatParses(r.first as nat);
    FormatParses(r.last as nat);
    NoDashInDigits(s);
    NoDashInDigits(e);
    HeaderParts(s, e, size);
  }

  /** Signs are not in the grammar, and this is served. */
  lemma SignedRangeIsServed()
    ensures ParseRange("bytes=+0-+1", 2) == Satisfiable(ByteRange(0, 1)) && !WellFormed("bytes=+0-+1")
  {
    assert "+0"[1..] == "0" && "+1"[1..] == "1" && "0"[..0] == "" && "1"[..0] == "";
    assert ParseInt("+0") == Some(0) && ParseInt("+1") == Some(1);
    assert "bytes=+0-+1" == UNIT + "+0" + "-" + "+1";
    HeaderParts("+0", "+1", 2);
    hide ParseRange;
    assert ReadsAs("bytes=+0-+1", "+0", "+1", Span(0, 1));
    ReadsAgainstGrammar("bytes=+0-+1", "+0", "+1", Span(0, 1));
  }

  /** Well-formed, selecting the whole object, and ignored. */
  lemma LongNumbersAreIgnored(n: nat, size: int64)
    requires n > MAX_INT64 && size > 0
    ensures WellFormed(RangeHeader(0, n)) && ParseRange(RangeHeader(0, n), size).Ignored?
    ensures forall i: int :: 0 <= i < size as int ==> Selects(Span(0, n), size, i)
  {
    FormatParses(0);
    FormatParses(n);
    var header := RangeHeader(0, n);
    assert GrammarReads(header, UNIT, Format(0), Format(n), Span(0, n));
    RangeMeaning(header, UNIT, Format(0), Format(n), Span(0, n), size);
  }

  /** Well-formed and ignored: an empty suffix, a unit that is not in lower case. */
  lemma ZeroSuffixAndUnitCase(size: int64)
    requires size >= 0
    ensures WellFormed("bytes=-0") && ParseRange("bytes=-0", size).Ignored?
    ensures WellFormed("Bytes=-5") && ParseRange("Bytes=-5", size).Ignored?
  {
    assert "0"[..0] == "" && "5"[..0] == "";
    assert Number("0", 0) && Number("5", 5);
    assert GrammarReads("bytes=-0", UNIT, "", "0", Suffix(0));
    assert GrammarReads("Bytes=-5", "Bytes=", "", "5", Suffix(5));
    hide ParseRange, GrammarReads;
    RangeMeaning("bytes=-0", UNIT, "", "0", Suffix(0), size);
    RangeMeaning("Bytes=-5", "Bytes=", "", "5", Suffix(5), size);
  }

  // ---- serving a range ----

  function ReadRange(data: Bytes, r: ByteRange): Result<Bytes, BackendError>
    requires |data| <= MAX_INT64
  {
    if r.first < 0 || r.last < r.first || r.first as int >= |data| || r.last as int >= |data| then Err(InvalidRange)
    else Ok(data[r.first as int..(r.last - r.first + 1) as int + r.first as int])
  }

  /** `contentLength` and `total` are the header fields, `body` what is streamed. */
  datatype Response =
    | WholeObject(body: Bytes)
    | Partial(range: ByteRange, total: int64, contentLength: int64, body: Bytes)
    | NotSatisfiable(size: int64)

  /** A ranged GET: the size is read first, the bytes later; the object may change between. */
  function ServeRange(header: string, atStat: Bytes, atRead: Bytes): Response
    requires |atStat| <= MAX_INT64 && |atRead| <= MAX_INT64
  {
    var size := |atStat| as int64;
    match ParseRange(header, size)
    case Unsatisfiable => NotSatisfiable(size)
    case Ignored => WholeObject(atRead)
    case Satisfiable(r) =>
      match ReadRange(atRead, r)
      case Err(_) => NotSatisfiable(size)
      case Ok(body) => Partial(r, size, r.last - r.first + 1, body)
  }

  /** With the object unchanged, a partial response carries exactly Content-Length bytes, which
      are the selected ones in order, and the backend's guard never refuses. */
  lemma PartialResponsesAreExact(header: string, data: Bytes)
    requires |data| <= MAX_INT64
    ensures
      var parse := ParseRange(header, |data| as int64);
      var response := ServeRange(header, data, data);
      && (parse.Satisfiable? <==> response.Partial?)
      && (response.Partial? ==>
            && |response.body| == response.contentLength as int > 0
            && response.total as int == |data|
            && forall k :: 0 <= k < |response.body| ==>
                 response.body[k] == data[response.range.first as int + k])
  {
  }

  /** What any other header gets: the whole object as it is read, or "not satisfiable" with the size
      that was looked up. In particular a request without a byte range gets the whole object. */
  lemma OtherResponses(header: string, atStat: Bytes, atRead: Bytes)
    requires |atStat| <= MAX_INT64 && |atRead| <= MAX_INT64
    ensures ParseRange(header, |atStat| as int64).Ignored? <==> ServeRange(header, atStat, atRead).WholeObject?
    ensures ServeRange(header, atStat, atRead).WholeObject? ==> ServeRange(header, atStat, atRead).body == atRead
    ensures ParseRange(header, |atStat| as int64).Unsatisfiable? ==>
              ServeRange(header, atStat, atRead) == NotSatisfiable(|atStat| as int64)
    ensures !("bytes=" <= header) ==> ServeRange(header, atStat, atRead) == WholeObject(atRead)
  {
  }

  /** A range of the grammar that the parser reads, of an object nobody changes: "not satisfiable" with
      the object's size if it selects nothing, else those bytes. */
  lemma ReadRangesAreAnswered(header: string, startText: string, endText: string, spec: RangeSpec, data: Bytes, size: int64)
    requires |data| == size as int && ReadsAs(header, startText, endText, spec)
    ensures var response := ServeRange(header, data, data);
            if exists i: int :: Selects(spec, size, i) then
              && response.Partial? && response.total as int == |data|
              && (forall i: int :: response.range.first as int <= i <= response.range.last as int <==> Selects(spec, size, i))
              && |response.body| == response.contentLength as int > 0
              && forall k :: 0 <= k < |response.body| ==> response.body[k] == data[response.range.first as int + k]
            else response == NotSatisfiable(size)
  {
    ReadMeaning(header, startText, endText, spec, size);
    PartialResponsesAreExact(header, data);
    hide Selects, ReadsAs;
    var parse := ParseRange(header, size);
    if parse.Satisfiable? {
      assert Selects(spec, size, parse.range.first as int);
    }
  }

  /** When the object changed in between, the guard accepts exactly when the range still lies
      inside it, and the length is right even then. */
  lemma ChangedObjects(header: string, atStat: Bytes, atRead: Bytes)
    requires |atStat| <= MAX_INT64 && |atRead| <= MAX_INT64
    requires ParseRange(header, |atStat| as int64).Satisfiable?
    ensures
      var r := ParseRange(header, |atStat| as int64).range;
      var response := ServeRange(header, atStat, atRead);
      && (response.Partial? <==> (r.last as int) < |atRead|)
      && (response.Partial? ==> |response.body| == response.contentLength as int)
  {
  }

  /** Two adjacent ranges put together are the object. */
  lemma AdjacentRangesMakeTheObject(data: Bytes, k: nat)
    requires 0 < k < |data| <= MAX_INT64
    ensures
      var a := ServeRange(RangeHeader(0, k - 1), data, data);
      var b := ServeRange(RangeHeader(k, |data| - 1), data, data);
      a.Partial? && b.Partial? && a.body + b.body == data
  {
    hide ParseRange;
    RangeRoundTrip(ByteRange(0, (k - 1) as int64), |data| as int64);
    RangeRoundTrip(ByteRange(k as int64, (|data| - 1) as int64), |data| as int64);
    assert data[..k] + data[k..] == data;
  }
}
