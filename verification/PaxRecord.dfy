/** Bytes, UTF-8 and the one PAX record the restricted archives allow: `<length> path=<value>\n`. */
module PaxRecord {
  import opened Basics

  type Byte = b: int | 0 <= b < 256

  type Bytes = seq<Byte>

  datatype Fault =
    | PartialHeader
    | BadTerminator
    | NotUstar
    | BadNumericField
    | BadChecksum
    | UnsupportedExtension
    | UnsupportedType
    | ConsecutivePax
    | PaxTooLarge
    | Truncated
    | MalformedPax
    | UnsupportedPax
    | PaxWithoutPath
    | NonUtf8Path
    | NonUtf8Metadata
    | TooManyEntries
    | TooManyBytes
    | NotCanonical
    | TrailingData
    | OrphanPax
    | Unterminated

  datatype Result<+T> = Ok(value: T) | Err(fault: Fault)

  const SPACE: Byte := 0x20
  const NEWLINE: Byte := 0x0A
  const SLASH: Byte := 0x2F
  const EQUALS: Byte := 0x3D
  const ZERO: Byte := 0x30

  /** `path` */
  const PATH_KEY: Bytes := [0x70, 0x61, 0x74, 0x68]

  /** `path=` after the space */
  const PATH_PREFIX: Bytes := [0x20, 0x70, 0x61, 0x74, 0x68, 0x3D]

  // ---- UTF-8, section 4 of RFC 3629 ----

  predicate IsTail(b: Byte) {
    0x80 <= b <= 0xBF
  }

  /** The length of the character at the front, or 0 if there is none. */
  function CharacterLength(s: Bytes): (n: nat)
    requires s != []
    ensures n <= |s|
  {
    if s[0] <= 0x7F then 1
    else if |s| >= 2 && 0xC2 <= s[0] <= 0xDF && IsTail(s[1]) then 2
    else if |s| >= 3 && IsTail(s[2]) &&
            ((s[0] == 0xE0 && 0xA0 <= s[1] <= 0xBF) || (s[0] == 0xED && 0x80 <= s[1] <= 0x9F) ||
             ((0xE1 <= s[0] <= 0xEC || 0xEE <= s[0] <= 0xEF) && IsTail(s[1]))) then 3
    else if |s| >= 4 && IsTail(s[2]) && IsTail(s[3]) &&
            ((s[0] == 0xF0 && 0x90 <= s[1] <= 0xBF) || (s[0] == 0xF4 && 0x80 <= s[1] <= 0x8F) ||
             (0xF1 <= s[0] <= 0xF3 && IsTail(s[1]))) then 4
    else 0
  }

  predicate ValidUtf8(s: Bytes)
    decreases |s|
  {
    s == [] || (CharacterLength(s) > 0 && ValidUtf8(s[CharacterLength(s)..]))
  }

  lemma {:induction false} Utf8Concat(a: Bytes, b: Bytes)
    requires ValidUtf8(a) && ValidUtf8(b)
    ensures ValidUtf8(a + b)
    decreases |a|
  {
    if a == [] {
      assert a + b == b;
    } else {
      var n := CharacterLength(a);
      assert CharacterLength(a + b) == n;
      assert (a + b)[n..] == a[n..] + b;
      Utf8Concat(a[n..], b);
    }
  }

  // ---- decimal numbers ----

  predicate IsDigit(b: Byte) {
    0x30 <= b <= 0x39
  }

  predicate AreDigits(s: Bytes) {
    forall i :: 0 <= i < |s| ==> IsDigit(s[i])
  }

  function DecimalValue(s: Bytes): nat
    requires AreDigits(s)
  {
    if s == [] then 0 else DecimalValue(s[..|s| - 1]) * 10 + (s[|s| - 1] - 0x30)
  }

  function Decimal(n: nat): (s: Bytes)
    ensures AreDigits(s) && |s| >= 1
    ensures DecimalValue(s) == n
    ensures s[0] == ZERO ==> n == 0
  {
    if n < 10 then [0x30 + n]
    else
      var s := Decimal(n / 10) + [0x30 + n % 10];
      assert s[..|s| - 1] == Decimal(n / 10);
      s
  }

  function Zeros(n: nat): (s: Bytes)
    ensures |s| == n && forall i :: 0 <= i < n ==> s[i] == ZERO
  {
    seq(n, i => ZERO)
  }

  /** Digits stand for a number up to leading zeros. */
  ghost predicate IsPadded(s: Bytes, d: Bytes) {
    |d| <= |s| && s == Zeros(|s| - |d|) + d
  }

  lemma {:induction false} DigitsAreDecimal(s: Bytes)
    requires AreDigits(s) && s != []
    ensures IsPadded(s, Decimal(DecimalValue(s)))
  {
    var rest, last := s[..|s| - 1], s[|s| - 1];
    assert s == rest + [last];
    assert AreDigits(rest) && IsDigit(last);
    var head := DecimalValue(rest);
    assert DecimalValue(s) == head * 10 + (last - 0x30);
    DecimalAppends(head, last);
    if rest != [] {
      DigitsAreDecimal(rest);
    }
    hide Decimal, DecimalValue, IsPadded;
    if head > 0 {
      PaddedAppend(rest, Decimal(head), last);
    } else {
      PaddedZero(rest, last);
    }
  }

  lemma PaddedAppend(s: Bytes, d: Bytes, last: Byte)
    requires IsPadded(s, d)
    ensures IsPadded(s + [last], d + [last])
  {
    assert s + [last] == Zeros(|s| - |d|) + (d + [last]);
  }

  lemma PaddedZero(s: Bytes, last: Byte)
    requires s == [] || IsPadded(s, [ZERO])
    ensures IsPadded(s + [last], [last])
  {
    if s != [] {
      assert s == Zeros(|s| - 1) + [ZERO];
      assert s == Zeros(|s|);
    }
    assert s + [last] == Zeros(|s|) + [last];
  }

  lemma DecimalAppends(head: nat, last: Byte)
    requires IsDigit(last)
    ensures Decimal(head * 10 + (last - 0x30)) == if head == 0 then [last] else Decimal(head) + [last]
    ensures Decimal(0) == [ZERO] && DecimalValue([]) == 0
  {
  }

  lemma {:induction false} DecimalGrows(m: nat, n: nat)
    requires m <= n
    ensures |Decimal(m)| <= |Decimal(n)|
    decreases n
  {
    if n >= 10 && m >= 10 {
      DecimalGrows(m / 10, n / 10);
    }
  }

  lemma {:induction false} DecimalIsShort(n: nat)
    ensures |Decimal(n)| <= 1 + n / 10
    decreases n
  {
    if n >= 10 {
      DecimalIsShort(n / 10);
    }
  }

  function PowerOfTen(digits: nat): nat {
    if digits == 0 then 1 else 10 * PowerOfTen(digits - 1)
  }

  lemma {:induction false} DecimalDigits(n: nat, digits: nat)
    requires digits >= 1 && n < PowerOfTen(digits)
    ensures |Decimal(n)| <= digits
    decreases digits
  {
    if n >= 10 {
      assert digits > 1;
      DecimalDigits(n / 10, digits - 1);
    }
  }

  lemma {:induction false} DecimalNeeds(n: nat, digits: nat)
    requires digits >= 1 && n >= PowerOfTen(digits)
    ensures |Decimal(n)| > digits
    decreases digits
  {
    if digits > 1 {
      DecimalNeeds(n / 10, digits - 1);
    }
  }

  lemma {:induction false} PowersGrow(few: nat, many: nat)
    requires few <= many
    ensures PowerOfTen(many) >= PowerOfTen(few) + 9 * (many - few)
    ensures PowerOfTen(few) >= 1
    decreases many
  {
    if few < many {
      PowersGrow(few, many - 1);
    } else if few > 0 {
      PowersGrow(few - 1, few - 1);
    }
  }

  // ---- the record's own length ----

  /** `<length> path=` and the newline take the digits of the length and seven bytes more. */
  predicate IsSelfInclusive(length: nat, valueSize: nat) {
    length == |Decimal(length)| + valueSize + 7
  }

  predicate Suffices(valueSize: nat, digits: nat) {
    |Decimal(digits + valueSize + 7)| <= digits
  }

  lemma EnoughDigits(valueSize: nat, digits: nat)
    requires digits >= valueSize + 7
    ensures Suffices(valueSize, digits)
  {
    DecimalIsShort(digits + valueSize + 7);
  }

  /** The least number of digits that suffices for a record with that many. */
  function DigitCount(valueSize: nat, from: nat): (d: nat)
    ensures d >= from && Suffices(valueSize, d)
    ensures forall fewer :: from <= fewer < d ==> !Suffices(valueSize, fewer)
    decreases if from < valueSize + 7 then valueSize + 7 - from else 0
  {
    if Suffices(valueSize, from) then from
    else if from >= valueSize + 7 then
      EnoughDigits(valueSize, from);
      from
    else DigitCount(valueSize, from + 1)
  }

  function RecordLength(valueSize: nat): nat {
    DigitCount(valueSize, 1) + valueSize + 7
  }

  /** Every value has a record whose length counts its own digits. */
  lemma RecordLengthIsExact(valueSize: nat)
    ensures IsSelfInclusive(RecordLength(valueSize), valueSize)
  {
    hide Decimal;
    var d := DigitCount(valueSize, 1);
    hide DigitCount;
    if d > 1 {
      assert !Suffices(valueSize, d - 1);
      DecimalGrows(d - 1 + valueSize + 7, d + valueSize + 7);
    }
  }

  /** There may be two: a value of one byte has records of nine and of ten bytes. */
  lemma LengthIsNotUnique()
    ensures IsSelfInclusive(9, 1) && IsSelfInclusive(10, 1)
  {
    assert Decimal(9) == [0x39] && Decimal(10) == Decimal(1) + [0x30];
  }

  /** Of two lengths for one size, the longer has one byte more: the first number of its digits. */
  lemma LengthsAreAdjacent(a: nat, b: nat, valueSize: nat)
    requires a < b && IsSelfInclusive(a, valueSize) && IsSelfInclusive(b, valueSize)
    ensures b == a + 1 && b == PowerOfTen(|Decimal(a)|)
  {
    var few, many := |Decimal(a)|, |Decimal(b)|;
    hide Decimal;
    if a >= PowerOfTen(few) {
      DecimalNeeds(a, few);
    }
    if b < PowerOfTen(many - 1) {
      DecimalDigits(b, many - 1);
    }
    PowersGrow(few, many - 1);
  }

  /**
   * A size has two self-inclusive lengths, and then two adjacent ones, exactly when its record with
   * some number of digits would end right before the next power of ten.
   */
  lemma TwoLengthsExactly(valueSize: nat)
    ensures (exists a, b :: a < b && IsSelfInclusive(a, valueSize) && IsSelfInclusive(b, valueSize)) <==>
            (exists d: nat :: d >= 1 && valueSize + d + 8 == PowerOfTen(d))
    ensures forall a, b :: a < b && IsSelfInclusive(a, valueSize) && IsSelfInclusive(b, valueSize) ==> b == a + 1
  {
    hide IsSelfInclusive;
    forall a, b | a < b && IsSelfInclusive(a, valueSize) && IsSelfInclusive(b, valueSize)
      ensures b == a + 1 && |Decimal(a)| >= 1 && valueSize + |Decimal(a)| + 8 == PowerOfTen(|Decimal(a)|)
    {
      LengthsAreAdjacent(a, b, valueSize);
      IsItsDigits(a, valueSize);
    }
    if d: nat :| d >= 1 && valueSize + d + 8 == PowerOfTen(d) {
      BothSidesOfPower(valueSize, d);
    }
  }

  lemma IsItsDigits(length: nat, valueSize: nat)
    requires IsSelfInclusive(length, valueSize)
    ensures length == |Decimal(length)| + valueSize + 7
  {
  }

  lemma BothSidesOfPower(valueSize: nat, d: nat)
    requires d >= 1 && valueSize + d + 8 == PowerOfTen(d)
    ensures IsSelfInclusive(PowerOfTen(d) - 1, valueSize) && IsSelfInclusive(PowerOfTen(d), valueSize)
  {
    hide Decimal;
    PowersGrow(d, d + 1);
    PowersGrow(d - 1, d);
    DecimalDigits(PowerOfTen(d) - 1, d);
    DecimalDigits(PowerOfTen(d), d + 1);
    DecimalNeeds(PowerOfTen(d), d);
    if d > 1 {
      DecimalNeeds(PowerOfTen(d) - 1, d - 1);
    }
  }

  function Record(digits: Bytes, value: Bytes): Bytes {
    digits + PATH_PREFIX + value + [NEWLINE]
  }

  function EncodeRecord(value: Bytes): Bytes {
    Record(Decimal(RecordLength(|value|)), value)
  }

  // ---- what the parser accepts ----

  /** Python refuses to convert longer digit strings. */
  const MAX_INT_DIGITS := 4300

  /** The body is exactly one `path` record for the value, its length possibly with leading zeros. */
  ghost predicate IsRecord(body: Bytes, value: Bytes) {
    ValidUtf8(value) &&
    exists digits: Bytes :: RecordDigits(digits, body) && body == Record(digits, value)
  }

  ghost predicate RecordDigits(digits: Bytes, body: Bytes) {
    digits != [] && AreDigits(digits) && |digits| <= MAX_INT_DIGITS && DecimalValue(digits) == |body|
  }

  lemma EncodedIsRecord(value: Bytes, length: nat)
    requires ValidUtf8(value) && IsSelfInclusive(length, |value|) && |Decimal(length)| <= MAX_INT_DIGITS
    ensures IsRecord(Record(Decimal(length), value), value)
    ensures |Record(Decimal(length), value)| == length
  {
    var digits, body := Decimal(length), Record(Decimal(length), value);
    assert RecordDigits(digits, body) && body == Record(digits, value);
  }

  const MAX_PAX_BYTES := 1048576

  lemma SevenDigits(n: nat)
    requires n < 10000000
    ensures |Decimal(n)| <= 7
  {
    assert PowerOfTen(3) == 1000;
    assert PowerOfTen(5) == 100000;
    assert PowerOfTen(7) == 10000000;
    DecimalDigits(n, 7);
  }

  /**
   * Every path has a record, and the parser accepts it exactly when its length field is short enough
   * for Python to convert.
   */
  lemma EveryPathHasRecord(value: Bytes)
    requires ValidUtf8(value)
    ensures |EncodeRecord(value)| == RecordLength(|value|)
    ensures PaxPath(EncodeRecord(value)) == Ok(value) <==> |Decimal(RecordLength(|value|))| <= 4300
  {
    var length := RecordLength(|value|);
    RecordLengthIsExact(|value|);
    PaxPathDecides(EncodeRecord(value), value);
    hide RecordLength, PaxPath;
    if |Decimal(length)| <= MAX_INT_DIGITS {
      EncodedIsRecord(value, length);
    } else if IsRecord(EncodeRecord(value), value) {
      FieldIsFront(Decimal(length), value, EncodeRecord(value));
    }
  }

  /** The digits in front of the first space are the record's length field. */
  lemma FieldIsFront(digits: Bytes, value: Bytes, body: Bytes)
    requires AreDigits(digits) && body == Record(digits, value) && IsRecord(body, value)
    ensures |digits| <= MAX_INT_DIGITS
  {
    var field: Bytes :| RecordDigits(field, body) && body == Record(field, value);
    assert |field| == |digits|;
  }

  /** Up to a megabyte the length field takes at most seven digits. */
  lemma ShortPathHasRecord(value: Bytes)
    requires ValidUtf8(value) && |value| <= MAX_PAX_BYTES
    ensures PaxPath(EncodeRecord(value)) == Ok(value)
    ensures |EncodeRecord(value)| == RecordLength(|value|)
  {
    RecordIsShort(|value|);
    hide Decimal, RecordLength, PaxPath;
    EveryPathHasRecord(value);
  }

  lemma RecordIsShort(valueSize: nat)
    requires valueSize <= MAX_PAX_BYTES
    ensures |Decimal(RecordLength(valueSize))| <= 7
  {
    RecordLengthIsExact(valueSize);
    SevenDigits(8 + valueSize + 7);
    hide Decimal;
    assert Suffices(valueSize, 8);
    assert DigitCount(valueSize, 1) <= 8;
    SevenDigits(RecordLength(valueSize));
  }

  /** `body.find(b" ", position)` */
  function FindSpace(body: Bytes, position: nat): (space: int)
    requires position <= |body|
    ensures space == -1 || position <= space < |body|
    ensures space == -1 ==> forall i :: position <= i < |body| ==> body[i] != SPACE
    ensures space >= 0 ==> body[space] == SPACE && forall i :: position <= i < space ==> body[i] != SPACE
    decreases |body| - position
  {
    if position == |body| then -1
    else if body[position] == SPACE then position
    else FindSpace(body, position + 1)
  }

  /** The index of the first `=`, as `partition` finds it. */
  function FindEquals(record: Bytes): (at: int)
    ensures at == -1 || 0 <= at < |record|
    ensures at == -1 ==> forall i :: 0 <= i < |record| ==> record[i] != EQUALS
    ensures at >= 0 ==> record[at] == EQUALS && forall i :: 0 <= i < at ==> record[i] != EQUALS
  {
    if record == [] then -1
    else if record[0] == EQUALS then 0
    else
      var at := FindEquals(record[1..]);
      if at < 0 then -1 else at + 1
  }

  /** The value of a record that is `path=<value>`. */
  function PathValue(record: Bytes): Result<Bytes> {
    var at := FindEquals(record);
    if at < 0 || record[..at] != PATH_KEY then Err(UnsupportedPax)
    else if !ValidUtf8(record[at + 1..]) then Err(NonUtf8Path)
    else Ok(record[at + 1..])
  }

  lemma PathRecord(record: Bytes, value: Bytes)
    requires ValidUtf8(value)
    ensures record == PATH_KEY + [EQUALS] + value <==> PathValue(record) == Ok(value)
  {
    var at := FindEquals(record);
    if record == PATH_KEY + [EQUALS] + value {
      assert record[4] == EQUALS;
      assert forall i :: 0 <= i < 4 ==> record[i] == PATH_KEY[i] != EQUALS;
      assert at == 4;
      assert record[..4] == PATH_KEY && record[5..] == value;
    }
    if PathValue(record) == Ok(value) {
      assert record == record[..at] + [record[at]] + record[at + 1..];
    }
  }

  /** The digits, the space and the end of the record at the front of the body. */
  lemma FrontRecord(body: Bytes, digits: Bytes, value: Bytes)
    requires RecordDigits(digits, body) && body == Record(digits, value)
    ensures FindSpace(body, 0) == |digits| && body[..|digits|] == digits
    ensures body[|digits| + 1..|body| - 1] == PATH_KEY + [EQUALS] + value && body[|body| - 1] == NEWLINE
    ensures |body| == |digits| + |value| + 7
  {
    assert body[|digits|] == PATH_PREFIX[0] == SPACE;
    assert forall i :: 0 <= i < |digits| ==> body[i] == digits[i];
    assert body[|digits| + 1..|body| - 1] == PATH_PREFIX[1..] + value;
    assert PATH_PREFIX[1..] == PATH_KEY + [EQUALS];
  }

  lemma RecordIsUnique(body: Bytes, a: Bytes, b: Bytes)
    requires IsRecord(body, a) && IsRecord(body, b)
    ensures a == b
  {
    var x: Bytes :| RecordDigits(x, body) && body == Record(x, a);
    var y: Bytes :| RecordDigits(y, body) && body == Record(y, b);
    FrontRecord(body, x, a);
    FrontRecord(body, y, b);
    assert (PATH_KEY + [EQUALS] + a)[5..] == a && (PATH_KEY + [EQUALS] + b)[5..] == b;
  }

  // ---- the parser ----

  datatype Found = Found(value: Bytes, end: nat)

  /** One record at `position`; `found` says that there was one before. */
  function NextRecord(body: Bytes, position: nat, found: bool): (r: Result<Found>)
    requires position < |body|
    ensures r.Ok? ==> position < r.value.end <= |body|
  {
    var space := FindSpace(body, position);
    if space < 0 || space == position || !AreDigits(body[position..space]) || space - position > MAX_INT_DIGITS then
      Err(MalformedPax)
    else
      var length := DecimalValue(body[position..space]);
      if length <= space - position + 2 || position + length > |body| || body[position + length - 1] != NEWLINE then
        Err(MalformedPax)
      else
        var record := body[space + 1..position + length - 1];
        if found then Err(UnsupportedPax)
        else if PathValue(record).Err? then Err(PathValue(record).fault)
        else Ok(Found(PathValue(record).value, position + length))
  }

  function ParseFrom(body: Bytes, position: nat, found: Option<Bytes>): Result<Bytes>
    requires position <= |body|
    decreases |body| - position
  {
    if position == |body| then if found.Some? then Ok(found.value) else Err(PaxWithoutPath)
    else
      var next := NextRecord(body, position, found.Some?);
      if next.Err? then Err(next.fault) else ParseFrom(body, next.value.end, Some(next.value.value))
  }

  function PaxPath(body: Bytes): Result<Bytes> {
    ParseFrom(body, 0, None)
  }

  method ParsePaxPath(body: Bytes) returns (path: Result<Bytes>)
    ensures path == PaxPath(body)
    ensures AcceptsRecords(body, path)
  {
    PaxPathAcceptsRecords(body);
    hide AcceptsRecords, ValidUtf8, DecimalValue, AreDigits, FindSpace, FindEquals;
    var position := 0;
    var found: Option<Bytes> := None;
    while position < |body|
      invariant 0 <= position <= |body|
      invariant PaxPath(body) == ParseFrom(body, position, found)
    {
      ghost var next := NextRecord(body, position, found.Some?);
      assert ParseFrom(body, position, found) ==
             if next.Err? then Err(next.fault) else ParseFrom(body, next.value.end, Some(next.value.value));
      hide ParseFrom;
      var space := FindSpace(body, position);
      if space < 0 || space == position || !AreDigits(body[position..space]) || space - position > MAX_INT_DIGITS {
        return Err(MalformedPax);
      }
      var length := DecimalValue(body[position..space]);
      var end := position + length;
      if length <= space - position + 2 || end > |body| || body[end - 1] != NEWLINE {
        return Err(MalformedPax);
      }
      var record := body[space + 1..end - 1];
      var at := FindEquals(record);
      if at < 0 || record[..at] != PATH_KEY || found.Some? {
        return Err(UnsupportedPax);
      }
      if !ValidUtf8(record[at + 1..]) {
        return Err(NonUtf8Path);
      }
      found := Some(record[at + 1..]);
      position := end;
    }
    path := if found == None then Err(PaxWithoutPath) else Ok(found.value);
  }

  /** The result is a value exactly for the bodies that are a record of it. */
  ghost predicate AcceptsRecords(body: Bytes, path: Result<Bytes>) {
    forall value :: path == Ok(value) <==> IsRecord(body, value)
  }

  lemma PaxPathAcceptsRecords(body: Bytes)
    ensures AcceptsRecords(body, PaxPath(body))
  {
    forall value ensures PaxPath(body) == Ok(value) <==> IsRecord(body, value) {
      PaxPathDecides(body, value);
    }
  }

  /** A second record is refused whatever it holds. */
  lemma NoSecondRecord(body: Bytes, position: nat)
    requires position < |body|
    ensures NextRecord(body, position, true).Err?
  {
    hide AreDigits, DecimalValue, ValidUtf8;
  }

  /** The PAX parser accepts exactly the bodies that are one `path` record, and returns its value. */
  lemma PaxPathDecides(body: Bytes, value: Bytes)
    ensures PaxPath(body) == Ok(value) <==> IsRecord(body, value)
  {
    if body == [] {
      assert !IsRecord(body, value);
    } else {
      var next := NextRecord(body, 0, false);
      if next.Ok? {
        FirstRecordFound(body, next.value);
        if next.value.end == |body| {
          assert body[..|body|] == body;
          assert PaxPath(body) == ParseFrom(body, |body|, Some(next.value.value)) == Ok(next.value.value);
          if IsRecord(body, value) {
            RecordIsUnique(body, value, next.value.value);
          }
        } else {
          NoSecondRecord(body, next.value.end);
          assert PaxPath(body) == ParseFrom(body, next.value.end, Some(next.value.value));
          OnlyOneRecord(body, next.value.end, next.value.value);
        }
      } else if IsRecord(body, value) {
        FrontIsFound(body, value);
      }
    }
  }

  lemma FirstRecordFound(body: Bytes, found: Found)
    requires body != [] && NextRecord(body, 0, false) == Ok(found)
    ensures IsRecord(body[..found.end], found.value)
  {
    hide IsRecord, AreDigits, DecimalValue, PathValue;
    RecordFound(body, FindSpace(body, 0), found.end, found.value);
  }

  lemma FrontIsFound(body: Bytes, value: Bytes)
    requires IsRecord(body, value) && body != []
    ensures NextRecord(body, 0, false) == Ok(Found(value, |body|))
  {
    hide IsRecord, PathValue;
    FrontFacts(body, value);
  }

  /** A record that takes up the whole body leaves room for no other at the front. */
  lemma OnlyOneRecord(body: Bytes, position: nat, value: Bytes)
    requires 0 < position < |body| && IsRecord(body[..position], value)
    ensures forall other :: !IsRecord(body, other)
  {
    FrontLength(body, position, value);
    forall other ensures !IsRecord(body, other) {
      if IsRecord(body, other) {
        assert body[..|body|] == body;
        FrontLength(body, |body|, other);
      }
    }
  }

  /** The number in front of the first space is the length of the record there. */
  lemma FrontLength(body: Bytes, end: nat, value: Bytes)
    requires end <= |body| && IsRecord(body[..end], value)
    ensures var space := FindSpace(body, 0);
            0 <= space && AreDigits(body[..space]) && DecimalValue(body[..space]) == end
  {
    var front := body[..end];
    var digits: Bytes :| RecordDigits(digits, front) && front == Record(digits, value);
    FrontRecord(front, digits, value);
    assert forall i :: 0 <= i < |digits| ==> body[i] == front[i] == digits[i];
    assert body[|digits|] == front[|digits|] == SPACE;
    assert body[..|digits|] == digits;
  }

  /** What the first iteration looks at is forced if the body is a record. */
  lemma FrontFacts(body: Bytes, value: Bytes)
    requires IsRecord(body, value)
    ensures var space := FindSpace(body, 0);
            0 < space <= MAX_INT_DIGITS && AreDigits(body[..space]) && DecimalValue(body[..space]) == |body| &&
            space + 2 < |body| && body[|body| - 1] == NEWLINE &&
            PathValue(body[space + 1..|body| - 1]) == Ok(value)
  {
    var digits: Bytes :| RecordDigits(digits, body) && body == Record(digits, value);
    FrontRecord(body, digits, value);
    hide ValidUtf8, DecimalValue, PathValue, Record, FindSpace;
    PathRecord(body[|digits| + 1..|body| - 1], value);
  }

  /** The checks of one iteration make the front of the body a record. */
  lemma RecordFound(body: Bytes, space: nat, end: nat, value: Bytes)
    requires 0 < space <= MAX_INT_DIGITS && space + 2 < end <= |body| && body[space] == SPACE && body[end - 1] == NEWLINE
    requires AreDigits(body[..space]) && DecimalValue(body[..space]) == end
    requires PathValue(body[space + 1..end - 1]) == Ok(value)
    ensures IsRecord(body[..end], value)
  {
    hide ValidUtf8, DecimalValue, PathValue;
    var digits := body[..space];
    PathIsValid(body[space + 1..end - 1], value);
    RecordAt(body, space, end, value);
    hide Record;
    assert RecordDigits(digits, body[..end]);
  }

  lemma PathIsValid(record: Bytes, value: Bytes)
    requires PathValue(record) == Ok(value)
    ensures ValidUtf8(value) && record == PATH_KEY + [EQUALS] + value
  {
    PathRecord(record, value);
  }

  lemma RecordAt(body: Bytes, space: nat, end: nat, value: Bytes)
    requires space + 2 < end <= |body| && body[space] == SPACE && body[end - 1] == NEWLINE
    requires body[space + 1..end - 1] == PATH_KEY + [EQUALS] + value
    ensures body[..end] == Record(body[..space], value)
  {
    assert PATH_PREFIX == [SPACE] + (PATH_KEY + [EQUALS]);
    assert body[..end] == body[..space] + ([SPACE] + (body[space + 1..end - 1] + [NEWLINE]));
  }
}
