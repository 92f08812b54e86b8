/** What a media request is charged, read off its Range header. */
module RangeCharge {
  import opened Texts
  import opened Wrappers

  const KIB: nat := 1024
  const MIB: nat := 1024 * 1024
  const NO_RANGE_CHARGE: nat := 512 * KIB
  const OPEN_ENDED_CHARGE: nat := 8 * MIB
  const MIN_CHARGE: nat := 256 * KIB
  const MAX_CHARGE: nat := 4 * MIB
  const U64_MAX: nat := 0xFFFF_FFFF_FFFF_FFFF

  predicate IsSpace(c: char) { c == ' ' || '\t' <= c <= '\r' }

  function TrimStart(s: string): string {
    if s != [] && IsSpace(s[0]) then TrimStart(s[1..]) else s
  }

  function TrimEnd(s: string): string {
    if s != [] && IsSpace(s[|s| - 1]) then TrimEnd(s[..|s| - 1]) else s
  }

  function Trim(s: string): string { TrimEnd(TrimStart(s)) }

  /** The text on either side of the first `c`. */
  function SplitOnce(s: string, c: char): Option<(string, string)> {
    if c !in s then None else Some((Before(s, c), s[|Before(s, c)| + 1..]))
  }

  /** Unsigned parse: an optional plus sign, then digits, nothing larger than 64 bits. */
  function ParseU64(s: string): Option<nat> {
    var digits := if |s| > 1 && s[0] == '+' then s[1..] else s;
    if digits != [] && (forall c | c in digits :: IsDigit(c)) && Value(digits) <= U64_MAX
    then Some(Value(digits)) else None
  }

  function Clamp(size: nat): nat {
    if size < MIN_CHARGE then MIN_CHARGE else if size > MAX_CHARGE then MAX_CHARGE else size
  }

  /** The charge for the two sides of the dash. */
  function SpanBytes(startText: string, endText: string): Option<nat> {
    match ParseU64(startText)
    case None => None
    case Some(start) =>
      if Trim(endText) == "" then Some(OPEN_ENDED_CHARGE) else
        match ParseU64(endText)
        case None => None
        case Some(end) => Some(Clamp(if end > start then end - start else 0))
  }

  /** The charge for what follows the unit: its first range counts. */
  function RangesBytes(ranges: string): Option<nat> {
    match SplitOnce(Trim(Before(ranges, ',')), '-')
    case None => None
    case Some((startText, endText)) => SpanBytes(startText, endText)
  }

  function ApproxRangeBytes(header: string): Option<nat> {
    if "bytes=" <= header then RangesBytes(header[6..]) else None
  }

  lemma BehindUnit(ranges: string)
    ensures ApproxRangeBytes("bytes=" + ranges) == RangesBytes(ranges)
  {
    assert ("bytes=" + ranges)[6..] == ranges;
  }

  function Charge(header: Option<string>): nat {
    match header
    case None => NO_RANGE_CHARGE
    case Some(h) =>
      match ApproxRangeBytes(h)
      case None => NO_RANGE_CHARGE
      case Some(bytes) => bytes
  }

  /** Whatever the client sends, a request costs between 256 KiB and 8 MiB. */
  lemma ChargeInRange(header: Option<string>)
    ensures MIN_CHARGE <= Charge(header) <= OPEN_ENDED_CHARGE
  {}

  /***** What a well-formed header costs *****/

  /** The head before a separator is the only separator-free text that a separator, or the end, follows. */
  lemma BeforeUnique(s: string, c: char, head: string)
    requires head <= s && c !in head
    requires head == s || s[|head|] == c
    ensures Before(s, c) == head
    decreases |s|
  {
    if head != [] {
      assert c !in head[1..] && head[0] == s[0];
      BeforeUnique(s[1..], c, head[1..]);
    }
  }

  lemma TrimmedStays(s: string)
    requires s != [] && !IsSpace(s[0]) && !IsSpace(s[|s| - 1])
    ensures Trim(s) == s
  {}

  /** Nothing but digits and plus signs. */
  predicate Numeral(s: string) { forall c | c in s :: IsDigit(c) || c == '+' }

  lemma ParsedIsNumeral(s: string)
    requires ParseU64(s).Some?
    ensures s != [] && Numeral(s)
  {
    var digits := if |s| > 1 && s[0] == '+' then s[1..] else s;
    forall c | c in s ensures IsDigit(c) || c == '+' {
      assert c == s[0] || c in s[1..];
    }
  }

  /** Which numbers are taken: any below 2^64, also behind a plus sign or a zero; nothing larger, and no bare sign. */
  lemma NumbersTaken(n: nat)
    ensures ParseU64(Decimal(n)) == if n < 0x1_0000_0000_0000_0000 then Some(n) else None
    ensures ParseU64("+" + Decimal(n)) == ParseU64(Decimal(n))
    ensures ParseU64("0" + Decimal(n)) == ParseU64(Decimal(n))
    ensures ParseU64("") == None && ParseU64("+") == None
  {
    var digits := Decimal(n);
    DecimalValue(n);
    assert digits[0] in digits;
    assert ("+" + digits)[1..] == digits;
    LeadingZero(digits);
    assert ("0" + digits)[0] == '0';
  }

  lemma {:induction false} LeadingZero(digits: string)
    requires forall c | c in digits :: IsDigit(c)
    ensures forall c | c in "0" + digits :: IsDigit(c)
    ensures Value("0" + digits) == Value(digits)
    decreases |digits|
  {
    if digits == "" {
      assert ("0" + digits)[..0] == "";
    } else {
      var front := digits[..|digits| - 1];
      assert ("0" + digits)[..|digits|] == "0" + front;
      LeadingZero(front);
    }
  }

  /** A text with anything but digits behind an optional plus sign is no number. */
  lemma OthersRefused(s: string, i: nat)
    requires i < |s| && !IsDigit(s[i]) && !(i == 0 && s[i] == '+')
    ensures ParseU64(s) == None
  {
    assert s[i] in s && (i > 0 ==> s[1..][i - 1] == s[i]);
  }

  function Spec(start: string, end: string): string { start + "-" + end }

  lemma SpecTrimmed(start: string, end: string)
    requires start != [] && Numeral(start) && Numeral(end)
    ensures Trim(Before(Spec(start, end), ',')) == Spec(start, end)
  {
    var spec := Spec(start, end);
    assert ',' !in spec;
    assert spec[0] == start[0] && spec[|spec| - 1] == if end == [] then '-' else end[|end| - 1];
    assert start[0] in start && (end != [] ==> end[|end| - 1] in end);
    TrimmedStays(spec);
  }

  lemma SpecSplits(start: string, end: string)
    requires Numeral(start)
    ensures SplitOnce(Spec(start, end), '-') == Some((start, end))
  {
    var spec := Spec(start, end);
    assert spec[|start|] == '-' && spec[|start| + 1..] == end;
    BeforeUnique(spec, '-', start);
  }

  lemma ParseDecimal(n: nat)
    requires n <= U64_MAX
    ensures ParseU64(Decimal(n)) == Some(n)
  {
    assert Decimal(n)[0] in Decimal(n);
    DecimalValue(n);
  }

  /** The header's two sides are found again. */
  lemma HeaderSpan(start: string, end: string)
    requires start != [] && Numeral(start) && Numeral(end)
    ensures ApproxRangeBytes("bytes=" + Spec(start, end)) == SpanBytes(start, end)
  {
    BehindUnit(Spec(start, end));
    SpecTrimmed(start, end);
    SpecSplits(start, end);
  }

  lemma SpanOf(start: string, end: string, a: nat, b: nat)
    requires ParseU64(start) == Some(a) && ParseU64(end) == Some(b)
    ensures SpanBytes(start, end) == Some(Clamp(if b > a then b - a else 0))
  {
    ParsedIsNumeral(end);
    assert end[0] in end && end[|end| - 1] in end;
    TrimmedStays(end);
  }

  /** MAIN: any two texts the number parser takes, leading zeros and a plus sign included. */
  lemma FiniteRange(start: string, end: string, a: nat, b: nat)
    requires ParseU64(start) == Some(a) && ParseU64(end) == Some(b)
    ensures ApproxRangeBytes("bytes=" + Spec(start, end)) == Some(Clamp(if b > a then b - a else 0))
  {
    assert start != [] && Numeral(start) by { ParsedIsNumeral(start); }
    assert Numeral(end) by { ParsedIsNumeral(end); }
    HeaderSpan(start, end);
    SpanOf(start, end, a, b);
  }

  /** MAIN: `bytes=a-b` costs the span b - a, clamped; an inverted span costs the floor. */
  lemma FiniteRangeCharge(a: nat, b: nat, start: string, end: string)
    requires a <= U64_MAX && b <= U64_MAX && start == Decimal(a) && end == Decimal(b)
    ensures ApproxRangeBytes("bytes=" + Spec(start, end)) == Some(Clamp(if b > a then b - a else 0))
  {
    assert ParseU64(start) == Some(a) by { ParseDecimal(a); }
    assert ParseU64(end) == Some(b) by { ParseDecimal(b); }
    FiniteRange(start, end, a, b);
  }

  /** Only the first of several ranges is read. */
  lemma FirstRangeRead(start: string, end: string, rest: string)
    requires start != [] && Numeral(start) && Numeral(end)
    ensures ApproxRangeBytes("bytes=" + (Spec(start, end) + "," + rest)) == SpanBytes(start, end)
  {
    var spec := Spec(start, end);
    assert Before(spec + "," + rest, ',') == Before(spec, ',') by {
      assert ',' !in spec;
      BeforeUnique(spec + "," + rest, ',', spec);
    }
    BehindUnit(spec + "," + rest);
    SpecTrimmed(start, end);
    SpecSplits(start, end);
  }

  lemma SpecEnds(start: string, end: string)
    requires start != [] && Numeral(start) && Numeral(end)
    ensures var spec := Spec(start, end); spec != [] && !IsSpace(spec[0]) && !IsSpace(spec[|spec| - 1]) && ',' !in spec
  {
    var spec := Spec(start, end);
    assert spec[0] == start[0] && start[0] in start;
    assert spec[|spec| - 1] == if end == [] then '-' else end[|end| - 1];
    assert end != [] ==> end[|end| - 1] in end;
  }

  /** Spaces around a range do not matter. */
  lemma SpacesIgnored(start: string, end: string)
    requires start != [] && Numeral(start) && Numeral(end)
    ensures ApproxRangeBytes("bytes=" + (" " + Spec(start, end) + " ")) == SpanBytes(start, end)
  {
    SpecEnds(start, end);
    SpacesTrimmed(Spec(start, end));
    SpecSplits(start, end);
    SpacedSpan(Spec(start, end), start, end);
  }

  lemma SpacedSpan(spec: string, start: string, end: string)
    requires ',' !in spec && Trim(" " + spec + " ") == spec && SplitOnce(spec, '-') == Some((start, end))
    ensures ApproxRangeBytes("bytes=" + (" " + spec + " ")) == SpanBytes(start, end)
  {
    BehindUnit(" " + spec + " ");
    assert ',' !in " " + spec + " ";
  }

  lemma SpacesTrimmed(s: string)
    requires s != [] && !IsSpace(s[0]) && !IsSpace(s[|s| - 1])
    ensures Trim(" " + s + " ") == s
  {
    var spaced := " " + s + " ";
    assert spaced[1..] == s + " ";
    assert TrimStart(s + " ") == s + " ";
    assert (s + " ")[..|s|] == s;
    assert TrimEnd(s + " ") == TrimEnd(s) == s;
  }

  lemma ClampNumbers(size: nat)
    ensures size <= 262_144 ==> Clamp(size) == 262_144
    ensures 262_144 <= size <= 4_194_304 ==> Clamp(size) == size
    ensures 4_194_304 <= size ==> Clamp(size) == 4_194_304
  {}

  /** MAIN: in numbers: the span itself between 256 KiB and 4 MiB, and these at least and at most. */
  lemma FiniteRangeBytes(a: nat, b: nat)
    requires a <= U64_MAX && b <= U64_MAX
    ensures var cost := Charge(Some("bytes=" + Spec(Decimal(a), Decimal(b))));
            && (b <= a + 262_144 ==> cost == 262_144)
            && (a + 262_144 <= b <= a + 4_194_304 ==> cost == b - a)
            && (a + 4_194_304 <= b ==> cost == 4_194_304)
  {
    ClampNumbers(if b > a then b - a else 0);
    FiniteRangeCharge(a, b, Decimal(a), Decimal(b));
  }

  /** A missing header, one of another unit, and one for a suffix are charged 512 KiB; an open range 8 MiB. */
  lemma OtherCharges(header: string, a: nat, digits: string)
    requires a <= U64_MAX && Numeral(digits)
    ensures Charge(None) == 524_288
    ensures !("bytes=" <= header) ==> Charge(Some(header)) == 524_288
    ensures Charge(Some("bytes=" + ("-" + digits))) == 524_288
    ensures Charge(Some("bytes=" + Spec(Decimal(a), ""))) == 8_388_608
  {
    SuffixUnparsed(digits);
    OpenRangeCharge(a);
  }

  lemma SuffixUnparsed(digits: string)
    requires Numeral(digits)
    ensures ApproxRangeBytes("bytes=" + ("-" + digits)) == None
  {
    var spec := "-" + digits;
    BehindUnit(spec);
    assert ',' !in spec;
    assert spec[|spec| - 1] == if digits == "" then '-' else digits[|digits| - 1];
    assert digits != "" ==> digits[|digits| - 1] in digits;
    TrimmedStays(spec);
  }

  /** MAIN: `bytes=a-` is charged the open-ended amount. */
  lemma OpenRangeCharge(a: nat)
    requires a <= U64_MAX
    ensures ApproxRangeBytes("bytes=" + Spec(Decimal(a), "")) == Some(OPEN_ENDED_CHARGE)
  {
    HeaderSpan(Decimal(a), "");
    ParseDecimal(a);
  }
}
