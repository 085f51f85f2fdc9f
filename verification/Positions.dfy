/** Printing and parsing log positions, and the JSON form of a persistent subscription's start. */
module Positions {
  import opened Wrappers
  import opened CoreTypes

  datatype RevisionOrPosition = Revision(revision: U64) | LogPosition(position: Position)

  datatype StreamPosition = Start | End | At(value: RevisionOrPosition)

  // ---------------------------------------------------------------- printing

  const DIGITS := "0123456789"

  function PrintNat(n: nat): string {
    if n < 10 then [DIGITS[n]] else PrintNat(n / 10) + [DIGITS[n % 10]]
  }

  function PrintPosition(p: Position): string {
    "C:" + PrintNat(p.commit) + "/P:" + PrintNat(p.prepare)
  }

  // ---------------------------------------------------------------- parsing

  predicate IsDigit(c: char) {
    '0' <= c <= '9'
  }

  function DigitValue(c: char): nat
    requires IsDigit(c)
  {
    (c - '0') as nat
  }

  /** A run of digits read into an accumulator; None is an overflow, or no digit at all. */
  function ReadDigits(input: string, value: U64, first: bool): Option<(string, U64)> {
    if input == "" || !IsDigit(input[0]) then
      if first then None else Some((input, value))
    else
      var next := value * 10 + DigitValue(input[0]);
      if next >= U64_LIMIT then None else ReadDigits(input[1..], next, false)
  }

  /** The unsigned number a text begins with, and what follows it. */
  function NumberPrefix(input: string): Option<(string, U64)> {
    ReadDigits(input, 0, true)
  }

  function Tag(tag: string, input: string): Option<string> {
    if tag <= input then Some(input[|tag|..]) else None
  }

  function PositionPrefix(input: string): Option<(string, Position)> {
    match Tag("C:", input)
    case None => None
    case Some(afterTag) =>
      match NumberPrefix(afterTag)
      case None => None
      case Some((afterCommit, commit)) =>
        match Tag("/P:", afterCommit)
        case None => None
        case Some(afterSlash) =>
          match NumberPrefix(afterSlash)
          case None => None
          case Some((rest, prepare)) => Some((rest, Position(commit, prepare)))
  }

  /** A position; what follows it in the text is ignored. */
  function ParsePosition(input: string): Option<Position> {
    match PositionPrefix(input)
    case None => None
    case Some((_, position)) => Some(position)
  }

  /** A whole text as a number: an optional plus sign, then digits and nothing else. */
  function ParseU64(input: string): Option<U64> {
    var digits := if input != "" && input[0] == '+' then input[1..] else input;
    match NumberPrefix(digits)
    case None => None
    case Some((rest, value)) => if rest == "" then Some(value) else None
  }

  function ParseRevisionOrPosition(input: string): Option<RevisionOrPosition> {
    match ParseU64(input)
    case Some(revision) => Some(Revision(revision))
    case None =>
      match ParsePosition(input)
      case Some(position) => Some(LogPosition(position))
      case None => None
  }

  function ParseStreamPosition(input: string): Option<StreamPosition> {
    if input == "-1" || input == "C:-1/P:-1" then Some(End)
    else if input == "0" || input == "C:0/P:0" then Some(Start)
    else
      match ParseRevisionOrPosition(input)
      case Some(value) => Some(At(value))
      case None => None
  }

  // ---------------------------------------------------------------- the JSON form

  datatype Wire = Number(number: int) | Text(text: string)

  function Serialize(start: StreamPosition): Wire {
    match start
    case Start => Number(0)
    case End => Number(-1)
    case At(Revision(revision)) => Number(revision)
    case At(LogPosition(position)) => Text(PrintPosition(position))
  }

  const I64_LIMIT: int := 0x8000_0000_0000_0000

  /** A negative number reaches the signed visitor, any other the unsigned one; None is out of range. */
  function Visit(wire: Wire): Option<StreamPosition> {
    match wire
    case Number(n) =>
      if n == -1 then Some(End)
      else if n == 0 then Some(Start)
      else if 0 < n < U64_LIMIT then Some(At(Revision(n)))
      else if -I64_LIMIT <= n < 0 then Some(At(Revision(n + U64_LIMIT)))
      else None
    case Text(text) => ParseStreamPosition(text)
  }

  // ---------------------------------------------------------------- round trips

  lemma DigitRoundTrip(d: nat)
    requires d < 10
    ensures IsDigit(DIGITS[d]) && DigitValue(DIGITS[d]) == d
  {
  }

  lemma DigitIsRead(d: nat, rest: string, value: U64, first: bool)
    requires d < 10 && value * 10 + d < U64_LIMIT
    ensures ReadDigits([DIGITS[d]] + rest, value, first) == ReadDigits(rest, value * 10 + d, false)
  {
    DigitRoundTrip(d);
    assert ([DIGITS[d]] + rest)[1..] == rest;
  }

  /** Reading a printed number in front of any text leaves that text and the number. */
  lemma {:induction false} PrintedDigitsAreRead(n: U64, rest: string, first: bool)
    ensures ReadDigits(PrintNat(n) + rest, 0, first) == ReadDigits(rest, n, false)
    ensures PrintNat(n) != "" && IsDigit(PrintNat(n)[0])
  {
    DigitRoundTrip(n % 10);
    if n < 10 {
      DigitIsRead(n, rest, 0, first);
    } else {
      var last := [DIGITS[n % 10]];
      assert PrintNat(n) + rest == PrintNat(n / 10) + (last + rest);
      PrintedDigitsAreRead(n / 10, last + rest, first);
      DigitIsRead(n % 10, rest, n / 10, false);
    }
  }

  lemma PrintedNumberIsRead(n: U64, rest: string)
    requires rest == "" || !IsDigit(rest[0])
    ensures NumberPrefix(PrintNat(n) + rest) == Some((rest, n))
  {
    PrintedDigitsAreRead(n, rest, true);
  }

  lemma TagIsRead(tag: string, rest: string)
    ensures Tag(tag, tag + rest) == Some(rest)
  {
    assert (tag + rest)[|tag|..] == rest;
  }

  /** Every position, printed in front of anything but a digit, is read back with what follows it. */
  lemma PrintedPositionIsRead(p: Position, rest: string)
    requires rest == "" || !IsDigit(rest[0])
    ensures PositionPrefix(PrintPosition(p) + rest) == Some((rest, p))
  {
    var prepare := PrintNat(p.prepare) + rest;
    var slash := "/P:" + prepare;
    var commit := PrintNat(p.commit) + slash;
    assert PrintPosition(p) + rest == "C:" + commit;
    TagIsRead("C:", commit);
    PrintedNumberIsRead(p.commit, slash);
    TagIsRead("/P:", prepare);
    PrintedNumberIsRead(p.prepare, rest);
  }

  /** Printing then parsing is the identity on every log position. */
  lemma PositionRoundTrip(p: Position)
    ensures ParsePosition(PrintPosition(p)) == Some(p)
  {
    assert PrintPosition(p) + "" == PrintPosition(p);
    PrintedPositionIsRead(p, "");
  }

  lemma PrintingIsInjective(p: Position, q: Position)
    requires PrintPosition(p) == PrintPosition(q)
    ensures p == q
  {
    PositionRoundTrip(p);
    PositionRoundTrip(q);
  }

  /** A printed position never reads as a revision, and a printed revision reads as itself. */
  lemma RevisionsAndPositionsStayApart(p: Position, revision: U64)
    ensures ParseU64(PrintPosition(p)) == None
    ensures ParseRevisionOrPosition(PrintPosition(p)) == Some(LogPosition(p))
    ensures ParseRevisionOrPosition(PrintNat(revision)) == Some(Revision(revision))
  {
    assert PrintPosition(p)[0] == 'C';
    PositionRoundTrip(p);
    PrintedDigitsAreRead(revision, "", true);
    assert PrintNat(revision) + "" == PrintNat(revision);
  }

  /** The number a run of digits stands for, read after a number already known. */
  function Decimal(value: nat, digits: string): nat
    requires forall i | 0 <= i < |digits| :: '0' <= digits[i] <= '9'
    decreases |digits|
  {
    if digits == "" then value else Decimal(value * 10 + (digits[0] as nat - '0' as nat), digits[1..])
  }

  predicate IsNumber(text: string) {
    text != "" && forall i | 0 <= i < |text| :: '0' <= text[i] <= '9'
  }

  lemma {:induction false} DecimalGrows(value: nat, digits: string)
    requires forall i | 0 <= i < |digits| :: '0' <= digits[i] <= '9'
    ensures Decimal(value, digits) >= value
    decreases |digits|
  {
    if digits != "" { DecimalGrows(value * 10 + (digits[0] as nat - '0' as nat), digits[1..]); }
  }

  /** Digits are read as the decimal number they write, or refused when that exceeds 64 bits. */
  lemma {:induction false} DigitsAreRead(digits: string, rest: string, value: U64, first: bool)
    requires forall i | 0 <= i < |digits| :: '0' <= digits[i] <= '9'
    requires rest == "" || !IsDigit(rest[0])
    requires digits == "" ==> !first
    ensures ReadDigits(digits + rest, value, first)
         == if Decimal(value, digits) < U64_LIMIT then Some((rest, Decimal(value, digits))) else None
    decreases |digits|
  {
    if digits == "" {
      assert digits + rest == rest;
    } else {
      var next := value * 10 + (digits[0] as nat - '0' as nat);
      assert (digits + rest)[1..] == digits[1..] + rest;
      if next < U64_LIMIT {
        DigitsAreRead(digits[1..], rest, next, false);
      } else {
        DecimalGrows(next, digits[1..]);
      }
    }
  }

  /**
   Positions are read in decimal, commit first: whatever number of digits either part is
   written with, and whatever follows it; a part that exceeds 64 bits is refused.
   */
  lemma PositionsAreReadInDecimal(commit: string, prepare: string, rest: string)
    requires IsNumber(commit) && IsNumber(prepare) && (rest == "" || !('0' <= rest[0] <= '9'))
    ensures ParsePosition("C:" + commit + "/P:" + prepare + rest)
         == if Decimal(0, commit) < U64_LIMIT && Decimal(0, prepare) < U64_LIMIT
            then Some(Position(Decimal(0, commit), Decimal(0, prepare)))
            else None
  {
    var second := prepare + rest;
    var slash := "/P:" + second;
    var first := commit + slash;
    assert "C:" + commit + "/P:" + prepare + rest == "C:" + first;
    TagIsRead("C:", first);
    DigitsAreRead(commit, slash, 0, true);
    TagIsRead("/P:", second);
    DigitsAreRead(prepare, rest, 0, true);
  }

  /** A printed number is decimal, without leading zeros. */
  lemma {:induction false} PrintedInDecimal(n: nat)
    ensures IsNumber(PrintNat(n)) && Decimal(0, PrintNat(n)) == n
    ensures PrintNat(n)[0] == '0' ==> n == 0
  {
    if n >= 10 {
      PrintedInDecimal(n / 10);
      DecimalOfSnoc(0, PrintNat(n / 10), DIGITS[n % 10]);
    }
  }

  lemma {:induction false} DecimalOfSnoc(value: nat, digits: string, last: char)
    requires forall i | 0 <= i < |digits| :: '0' <= digits[i] <= '9'
    requires '0' <= last <= '9'
    ensures Decimal(value, digits + [last]) == Decimal(value, digits) * 10 + (last as nat - '0' as nat)
    decreases |digits|
  {
    if digits != "" {
      assert (digits + [last])[1..] == digits[1..] + [last];
      DecimalOfSnoc(value * 10 + (digits[0] as nat - '0' as nat), digits[1..], last);
    }
  }

  /**
   What a text stands for as a start: two texts for the end, two for the beginning, and
   otherwise a decimal revision or a position.
   */
  lemma TextsOfStarts(text: string)
    ensures ParseStreamPosition(text) == Some(End) <==> text == "-1" || text == "C:-1/P:-1"
    ensures ParseStreamPosition(text) == Some(Start) <==> text == "0" || text == "C:0/P:0"
    ensures IsNumber(text) && text != "0" ==>
      ParseStreamPosition(text)
        == if Decimal(0, text) < U64_LIMIT then Some(At(Revision(Decimal(0, text)))) else None
    ensures text != "" && text[0] == 'C' && text != "C:-1/P:-1" && text != "C:0/P:0" ==>
      ParseStreamPosition(text)
        == match ParsePosition(text) case Some(p) => Some(At(LogPosition(p))) case None => None
  {
    if IsNumber(text) { NumbersAreRead(text); }
  }

  /** A whole number is read as itself or not at all, with or without a plus sign. */
  lemma NumbersAreRead(digits: string)
    requires IsNumber(digits)
    ensures ParseU64(digits) == if Decimal(0, digits) < U64_LIMIT then Some(Decimal(0, digits)) else None
    ensures ParseU64("+" + digits) == ParseU64(digits)
    ensures ParsePosition(digits).None?
  {
    assert digits + "" == digits;
    DigitsAreRead(digits, "", 0, true);
    assert ("+" + digits)[1..] == digits;
  }

  /** What a JSON number stands for as a start. */
  lemma NumbersOfStarts(n: int)
    ensures Visit(Number(n)) == Some(End) <==> n == -1
    ensures Visit(Number(n)) == Some(Start) <==> n == 0
    ensures 0 < n < 0x1_0000_0000_0000_0000 ==> Visit(Number(n)) == Some(At(Revision(n)))
    ensures -0x8000_0000_0000_0000 <= n < -1 ==>
      Visit(Number(n)) == Some(At(Revision(0x1_0000_0000_0000_0000 + n)))
  {
  }

  /** What a start reads back as: revision 0 and position C:0/P:0 are the start of the stream. */
  function Collapse(start: StreamPosition): StreamPosition {
    if start == At(Revision(0)) || start == At(LogPosition(Position(0, 0))) then Start else start
  }

  lemma PrintedPositionIsNoKeyword(p: Position)
    ensures PrintPosition(p) != "-1" && PrintPosition(p) != "0" && PrintPosition(p) != "C:-1/P:-1"
    ensures PrintPosition(p) == "C:0/P:0" <==> p == Position(0, 0)
  {
    PrintedDigitsAreRead(p.commit, "", true);
    assert PrintPosition(p)[0] == 'C';
    assert PrintPosition(p)[2] == PrintNat(p.commit)[0];
    var zero := Position(0, 0);
    assert PrintNat(0) == "0";
    assert PrintPosition(zero) == "C:0/P:0";
    if PrintPosition(p) == "C:0/P:0" { PrintingIsInjective(p, zero); }
  }

  /** Every start, written as JSON and read back, is itself up to the two spellings of the beginning. */
  lemma SerializedStartIsReadBack(start: StreamPosition)
    ensures Visit(Serialize(start)) == Some(Collapse(start))
    ensures Visit(Serialize(start)) == Some(start)
       <==> start != At(Revision(0)) && start != At(LogPosition(Position(0, 0)))
  {
    if start.At? && start.value.LogPosition? {
      PrintedPositionIsNoKeyword(start.value.position);
      RevisionsAndPositionsStayApart(start.value.position, 0);
    }
  }
}
