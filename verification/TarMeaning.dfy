/**
 * What the restricted reader accepts, byte by byte: which header fields hold which numbers and texts,
 * that a header with a wrong byte is refused, and the archives that are accepted.
 */
module TarMeaning {
  import opened Basics
  import opened PaxRecord
  import opened TarHeader
  import opened TarEnvelope

  // ---- text and number fields ----

  /** The field holds this text: its bytes, then NUL unless the field is full. */
  ghost predicate HoldsText(field: Bytes, text: Bytes) {
    |text| <= |field| && field[..|text|] == text && (forall i :: 0 <= i < |text| ==> text[i] != 0) &&
    (|text| < |field| ==> field[|text|] == 0)
  }

  /** Spaces, at least one octal digit of the number, spaces, then NUL or the field's end. */
  ghost predicate OctalParts(field: Bytes, n: nat, i: nat, j: nat, k: nat) {
    i < j <= k <= |field| && (k < |field| ==> field[k] == 0) &&
    (forall x :: 0 <= x < i ==> field[x] == 0x20) && (forall x :: j <= x < k ==> field[x] == 0x20) &&
    field[i..j] == Octals(n, j - i) && n < PowerOfEight(j - i)
  }

  ghost predicate HoldsOctal(field: Bytes, n: nat) {
    exists i, j, k :: OctalParts(field, n, i, j, k)
  }

  lemma {:induction false} CutIsText(field: Bytes, text: Bytes)
    ensures Cut(field) == text <==> HoldsText(field, text)
  {
    var c := Cut(field);
    if c == text {
      assert field[..|text|] == text;
    }
    if HoldsText(field, text) {
      assert forall i :: 0 <= i < |text| ==> field[i] == text[i];
      assert |c| == |text|;
    }
  }

  /** Stripping leaves a middle part that blanks surround. */
  lemma {:induction false} StripParts(s: Bytes) returns (i: nat, j: nat)
    ensures i <= j <= |s| && Strip(s) == s[i..j]
    ensures forall x :: 0 <= x < i || j <= x < |s| ==> IsBlank(s[x])
    ensures i < j ==> !IsBlank(s[i]) && !IsBlank(s[j - 1])
    decreases |s|
  {
    if s != [] && IsBlank(s[0]) {
      var a, b := StripParts(s[1..]);
      i, j := a + 1, b + 1;
      assert s[1..][a..b] == s[i..j];
      forall x | 0 <= x < i || j <= x < |s| ensures IsBlank(s[x]) {
        assert x > 0 ==> s[x] == s[1..][x - 1];
      }
    } else if s != [] && IsBlank(s[|s| - 1]) {
      var front := s[..|s| - 1];
      i, j := StripParts(front);
      assert front[i..j] == s[i..j];
      forall x | 0 <= x < i || j <= x < |s| ensures IsBlank(s[x]) {
        assert x < |s| - 1 ==> s[x] == front[x];
      }
    } else {
      i, j := 0, |s|;
      assert s[..] == s;
    }
  }

  /** Stripping a part that ends in other bytes removes the blanks around it. */
  lemma StripFinds(s: Bytes, i: nat, j: nat)
    requires i < j <= |s| && !IsBlank(s[i]) && !IsBlank(s[j - 1])
    requires forall x :: 0 <= x < i || j <= x < |s| ==> IsBlank(s[x])
    ensures Strip(s) == s[i..j]
  {
    var a, b := StripParts(s);
    assert a <= i < b;
    assert a == i && b == j;
  }

  /** Octal digits are those of their value, in that width. */
  lemma {:induction false} DigitsOfValue(s: Bytes)
    requires AreOctal(s)
    ensures OctalValue(s) < PowerOfEight(|s|) && Octals(OctalValue(s), |s|) == s
  {
    if s != [] {
      var front := s[..|s| - 1];
      DigitsOfValue(front);
      assert s == front + [s[|s| - 1]];
    }
  }

  /** A numeric field is read as a number exactly when it holds its digits. */
  lemma OctalDecides(field: Bytes, n: nat)
    ensures ReadOctal(Cut(field)) == Ok(n) <==> HoldsOctal(field, n)
  {
    var c := Cut(field);
    if ReadOctal(c) == Ok(n) {
      var i, j := StripParts(c);
      DigitsOfValue(c[i..j]);
      assert field[i..j] == c[i..j];
      assert OctalParts(field, n, i, j, |c|);
    }
    if HoldsOctal(field, n) {
      var i, j, k :| OctalParts(field, n, i, j, k);
      PartsAreRead(field, n, i, j, k);
    }
  }

  lemma PartsAreRead(field: Bytes, n: nat, i: nat, j: nat, k: nat)
    requires OctalParts(field, n, i, j, k)
    ensures ReadOctal(Cut(field)) == Ok(n)
  {
    var front, digits := field[..k], Octals(n, j - i);
    assert forall x :: i <= x < j ==> field[x] == digits[x - i];
    assert HoldsText(field, front);
    CutIsText(field, front);
    assert front[i] == digits[0] && front[j - 1] == digits[j - 1 - i];
    StripFinds(front, i, j);
    assert front[i..j] == digits;
    OctalsValue(n, j - i);
  }

  // ---- headers ----

  /** The sum of a header's bytes, those of the checksum field counted as spaces. */
  function ChecksumOf(block: Bytes, count: nat): nat
    requires count <= |block|
  {
    if count == 0 then 0
    else ChecksumOf(block, count - 1) + if 148 <= count - 1 < 156 then 0x20 else block[count - 1]
  }

  lemma {:induction false} ChecksumIsSum(block: Bytes, count: nat)
    requires |block| == BLOCK && count <= BLOCK
    ensures ChecksumOf(block, count) == Sum(Blanked(block)[..count])
  {
    var blank := Blanked(block);
    if count > 0 {
      ChecksumIsSum(block, count - 1);
      assert blank[..count][..count - 1] == blank[..count - 1];
      assert blank[..count][count - 1] == blank[count - 1] == if 148 <= count - 1 < 156 then 0x20 else block[count - 1];
    }
  }

  ghost predicate HasType(flag: Byte, kind: Kind) {
    match kind
    case PaxHeader => flag == 0x78
    case RegularFile => flag == 0x30 || flag == 0
    case Directory => flag == 0x35
  }

  /** Magic, checksum, size and type of a header. */
  ghost predicate HeaderSays(block: Bytes, h: Header) {
    |block| == 512 && HoldsText(block[257..263], [0x75, 0x73, 0x74, 0x61, 0x72]) &&
    HoldsOctal(block[148..156], ChecksumOf(block, 512)) && HoldsOctal(block[124..136], h.size) && HasType(block[156], h.kind)
  }

  lemma TypeDecides(block: Bytes, kind: Kind)
    requires |block| == BLOCK
    ensures KindOf(TypeFlag(block)) == Ok(kind) <==> HasType(block[156], kind)
  {
    assert block[156..157] == [block[156]];
    CutIsText([block[156]], if block[156] == 0 then [] else [block[156]]);
  }

  /** A header is read exactly when it says so. */
  lemma HeaderDecides(block: Bytes, h: Header)
    requires |block| == BLOCK
    ensures ParseHeader(block) == Ok(h) <==> HeaderSays(block, h)
  {
    ChecksumIsSum(block, BLOCK);
    assert Blanked(block)[..BLOCK] == Blanked(block);
    CutIsText(block[257..263], USTAR);
    OctalDecides(block[148..156], ChecksumOf(block, 512));
    OctalDecides(block[124..136], h.size);
    TypeDecides(block, h.kind);
    hide Cut, ReadOctal, KindOf, TypeFlag, Blanked, Sum, ChecksumOf, HoldsOctal, HoldsText, HasType;
  }

  ghost predicate HoldsNumber(field: Bytes) {
    exists n :: HoldsOctal(field, n)
  }

  predicate IsOtherExtension(flag: Byte) {
    flag == 0x67 || flag == 0x4C || flag == 0x4B || flag == 0x53
  }

  predicate IsKnown(flag: Byte) {
    flag == 0x78 || flag == 0x30 || flag == 0 || flag == 0x35
  }

  /** Why a header is refused: the first of magic, checksum, size and type that is wrong. */
  ghost predicate Refuses(block: Bytes, fault: Fault)
    requires |block| == 512
  {
    if !HoldsText(block[257..263], [0x75, 0x73, 0x74, 0x61, 0x72]) then fault == NotUstar
    else if !HoldsNumber(block[148..156]) then fault == BadNumericField
    else if !HoldsOctal(block[148..156], ChecksumOf(block, 512)) then fault == BadChecksum
    else if !HoldsNumber(block[124..136]) then fault == BadNumericField
    else if IsOtherExtension(block[156]) then fault == UnsupportedExtension
    else !IsKnown(block[156]) && fault == UnsupportedType
  }

  lemma NumberDecides(field: Bytes)
    ensures ReadOctal(Cut(field)).Ok? <==> HoldsNumber(field)
    ensures ReadOctal(Cut(field)).Err? ==> ReadOctal(Cut(field)).fault == BadNumericField
  {
    if ReadOctal(Cut(field)).Ok? {
      OctalDecides(field, ReadOctal(Cut(field)).value);
    }
    if HoldsNumber(field) {
      var n :| HoldsOctal(field, n);
      OctalDecides(field, n);
    }
  }

  lemma FlagRefused(block: Bytes)
    requires |block| == BLOCK
    ensures KindOf(TypeFlag(block)).Ok? <==> IsKnown(block[156])
    ensures KindOf(TypeFlag(block)).Err? ==>
              KindOf(TypeFlag(block)).fault == if IsOtherExtension(block[156]) then UnsupportedExtension else UnsupportedType
  {
    assert block[156..157] == [block[156]];
    CutIsText([block[156]], if block[156] == 0 then [] else [block[156]]);
  }

  lemma HeaderFaultDecides(block: Bytes)
    requires |block| == BLOCK && ParseHeader(block).Err?
    ensures Refuses(block, ParseHeader(block).fault)
  {
    ChecksumIsSum(block, BLOCK);
    assert Blanked(block)[..BLOCK] == Blanked(block);
    CutIsText(block[257..263], USTAR);
    NumberDecides(block[148..156]);
    NumberDecides(block[124..136]);
    OctalDecides(block[148..156], ChecksumOf(block, 512));
    FlagRefused(block);
    hide Cut, ReadOctal, KindOf, TypeFlag, Blanked, Sum, ChecksumOf, HoldsOctal, HoldsText, HoldsNumber;
  }

  lemma {:induction false} ChecksumMoves(block: Bytes, i: nat, b: Byte, count: nat)
    requires i < |block| && count <= |block| && !(148 <= i < 156)
    ensures ChecksumOf(block[i := b], count) == ChecksumOf(block, count) + if i < count then b - block[i] else 0
  {
    if count > 0 {
      ChecksumMoves(block, i, b, count - 1);
    }
  }

  /** Whatever single byte of an accepted header is changed, outside the checksum itself, it is refused. */
  lemma CorruptionIsRefused(block: Bytes, i: nat, b: Byte)
    requires |block| == BLOCK && ParseHeader(block).Ok?
    requires i < BLOCK && !(148 <= i < 156) && b != block[i]
    ensures ParseHeader(block[i := b]).Err?
  {
    var changed := block[i := b];
    HeaderDecides(block, ParseHeader(block).value);
    ChecksumMoves(block, i, b, BLOCK);
    assert changed[148..156] == block[148..156];
    OctalDecides(block[148..156], ChecksumOf(block, 512));
    if ParseHeader(changed).Ok? {
      HeaderDecides(changed, ParseHeader(changed).value);
      OctalDecides(changed[148..156], ChecksumOf(changed, 512));
      assert false;
    }
  }

  // ---- entries ----

  /** Zero owner and time, the mode of the kind, no owner names, no data in directories. */
  ghost predicate IsCanonical(block: Bytes, h: Header)
    requires |block| == 512
  {
    HoldsOctal(block[100..108], if h.kind == Directory then 493 else 420) && HoldsOctal(block[108..116], 0) &&
    HoldsOctal(block[116..124], 0) && HoldsOctal(block[136..148], 0) && block[265] == 0 && block[297] == 0 &&
    (h.kind == Directory ==> h.size == 0)
  }

  /** The path of a header without a PAX block: the name, after the prefix if there is one. */
  ghost predicate HeaderNames(block: Bytes, path: Bytes)
    requires |block| == 512
  {
    exists name, prefix ::
      HoldsText(block[0..100], name) && HoldsText(block[345..500], prefix) && ValidUtf8(name) && ValidUtf8(prefix) &&
      path == if prefix == [] then name else prefix + [0x2F] + name
  }

  ghost predicate EntrySays(block: Bytes, h: Header, paxPath: Option<Bytes>, e: TarEntry)
    requires |block| == 512
  {
    e.kind == h.kind && e.size == h.size && IsCanonical(block, h) &&
    match paxPath
    case Some(path) => e.path == path
    case None => HeaderNames(block, e.path)
  }

  lemma PathDecides(block: Bytes, path: Bytes)
    requires |block| == BLOCK
    ensures HeaderPath(block) == Ok(path) <==> HeaderNames(block, path)
  {
    var name, prefix := Field(block, 0, 100), Field(block, 345, 155);
    assert block[345..345 + 155] == block[345..500];
    forall text ensures Cut(block[0..100]) == text <==> HoldsText(block[0..100], text) {
      CutIsText(block[0..100], text);
    }
    forall text ensures Cut(block[345..500]) == text <==> HoldsText(block[345..500], text) {
      CutIsText(block[345..500], text);
    }
    hide ValidUtf8, HoldsText, Cut;
    assert HoldsText(block[0..100], name) && HoldsText(block[345..500], prefix);
  }

  lemma EmptyText(field: Bytes)
    requires field != []
    ensures Cut(field) == [] <==> field[0] == 0
  {
  }

  lemma CanonicalDecides(block: Bytes, h: Header)
    requires |block| == BLOCK
    ensures IsCanonical(block, h) <==>
            Octal(block, 100, 8) == Ok(if h.kind == Directory then DIRECTORY_MODE else FILE_MODE) &&
            Octal(block, 108, 8) == Ok(0) && Octal(block, 116, 8) == Ok(0) && Octal(block, 136, 12) == Ok(0) &&
            Field(block, 265, 32) == [] && Field(block, 297, 32) == [] && (h.kind == Directory ==> h.size == 0)
  {
    OctalDecides(block[100..108], if h.kind == Directory then 493 else 420);
    OctalDecides(block[108..116], 0);
    OctalDecides(block[116..124], 0);
    OctalDecides(block[136..148], 0);
    EmptyText(block[265..297]);
    EmptyText(block[297..329]);
    hide Cut, ReadOctal, HoldsOctal;
  }

  /** An entry is taken from its header exactly when the header says so and its metadata is canonical. */
  lemma EntryDecides(block: Bytes, h: Header, paxPath: Option<Bytes>, e: TarEntry)
    requires |block| == BLOCK
    ensures ParseEntry(block, h, paxPath) == Ok(e) <==> EntrySays(block, h, paxPath, e)
  {
    CanonicalDecides(block, h);
    PathDecides(block, e.path);
    assert ValidUtf8([]);
    hide Octal, Field, HeaderPath, HeaderNames, IsCanonical, ValidUtf8;
  }

  // ---- archives ----

  /** The least number of whole blocks that holds these bytes. */
  ghost predicate FillsBlocks(size: nat, padded: nat) {
    size <= padded < size + 512 && padded % 512 == 0
  }

  lemma PaddingDecides(size: nat, padded: nat)
    ensures padded == PaddedSize(size) <==> FillsBlocks(size, padded)
  {
    hide PaddedSize;
    var other := PaddedSize(size);
    if FillsBlocks(size, padded) {
      MultiplesAreApart(padded, other);
    }
  }

  lemma MultiplesAreApart(a: nat, b: nat)
    requires a % 512 == 0 && b % 512 == 0 && a < b + 512 && b < a + 512
    ensures a == b
  {
  }

  ghost predicate PaxSays(p: PaxBlock, path: Bytes) {
    HeaderSays(p.header, Header(PaxHeader, |p.body|)) && |p.body| <= 1048576 &&
    FillsBlocks(|p.body|, |p.body| + |p.padding|) && IsRecord(p.body, path)
  }

  ghost predicate PathSaid(s: Segment, paxPath: Option<Bytes>) {
    if s.pax.None? then paxPath == None else paxPath.Some? && PaxSays(s.pax.value, paxPath.value)
  }

  /** The bytes of one entry: perhaps a PAX block with its path, its header, and its data in whole blocks. */
  ghost predicate SegmentSays(s: Segment, e: TarEntry) {
    e.kind != PaxHeader && HeaderSays(s.header, Header(e.kind, e.size)) && FillsBlocks(e.size, |s.data|) &&
    exists paxPath :: PathSaid(s, paxPath) && EntrySays(s.header, Header(e.kind, e.size), paxPath, e)
  }

  lemma PaxDecides(p: PaxBlock, path: Bytes)
    ensures LegalPax(p) && PaxPath(p.body) == Ok(path) <==> PaxSays(p, path)
  {
    if |p.header| == BLOCK {
      HeaderDecides(p.header, Header(PaxHeader, |p.body|));
    }
    PaddingDecides(|p.body|, |p.body| + |p.padding|);
    PaxPathDecides(p.body, path);
    hide ParseHeader, HeaderSays, IsRecord, PaxPath, PaddedSize, FillsBlocks;
    assert HeaderSays(p.header, Header(PaxHeader, |p.body|)) ==> |p.header| == BLOCK by {
      SaysBlock(p.header, Header(PaxHeader, |p.body|));
    }
  }

  lemma SaysBlock(block: Bytes, h: Header)
    ensures HeaderSays(block, h) ==> |block| == BLOCK
  {
  }

  lemma SegmentDecides(s: Segment, e: TarEntry)
    ensures LegalSegment(s) && EntryOf(s) == e <==> SegmentSays(s, e)
  {
    hide ParseHeader, ParseEntry, HeaderSays, EntrySays, PaxSays, LegalPax, PaddedSize, FillsBlocks, PaxPath;
    SaysBlock(s.header, Header(e.kind, e.size));
    if s.pax.Some? {
      forall path ensures LegalPax(s.pax.value) && PaxPath(s.pax.value.body) == Ok(path) <==> PaxSays(s.pax.value, path) {
        PaxDecides(s.pax.value, path);
      }
    }
    if LegalSegment(s) && EntryOf(s) == e {
      LegalIsSaid(s, e);
    }
    if SegmentSays(s, e) {
      SaidIsLegal(s, e);
    }
  }

  lemma LegalIsSaid(s: Segment, e: TarEntry)
    requires LegalSegment(s) && EntryOf(s) == e
    requires s.pax.Some? ==> forall path ::
               LegalPax(s.pax.value) && PaxPath(s.pax.value.body) == Ok(path) <==> PaxSays(s.pax.value, path)
    ensures SegmentSays(s, e)
  {
    LegalParts(s);
    hide ParseHeader, ParseEntry, HeaderSays, EntrySays, PaxSays, LegalSegment, LegalPax, EntryOf, PaddedSize, FillsBlocks, PaxPath;
    var h := ParseHeader(s.header).value;
    HeaderDecides(s.header, h);
    EntryDecides(s.header, h, PaxPathOf(s), e);
    PaddingDecides(h.size, |s.data|);
    EntryFacts(s);
    assert PathSaid(s, PaxPathOf(s));
  }

  lemma LegalParts(s: Segment)
    requires LegalSegment(s)
    ensures |s.header| == BLOCK && ParseHeader(s.header).Ok?
    ensures var h := ParseHeader(s.header).value;
            h.kind != PaxHeader && |s.data| == PaddedSize(h.size) && ParseEntry(s.header, h, PaxPathOf(s)) == Ok(EntryOf(s))
    ensures s.pax.Some? ==> LegalPax(s.pax.value) && PaxPath(s.pax.value.body).Ok?
  {
    hide ParseHeader, ParseEntry, PaxPath, PaddedSize;
  }

  lemma SaidIsLegal(s: Segment, e: TarEntry)
    requires SegmentSays(s, e) && |s.header| == BLOCK
    requires s.pax.Some? ==> forall path ::
               LegalPax(s.pax.value) && PaxPath(s.pax.value.body) == Ok(path) <==> PaxSays(s.pax.value, path)
    ensures LegalSegment(s) && EntryOf(s) == e
  {
    var h := Header(e.kind, e.size);
    var paxPath :| PathSaid(s, paxPath) && EntrySays(s.header, h, paxPath, e);
    HeaderDecides(s.header, h);
    EntryDecides(s.header, h, paxPath, e);
    PaddingDecides(e.size, |s.data|);
    hide ParseHeader, ParseEntry, HeaderSays, PaxSays, LegalPax, PaddedSize, FillsBlocks, PaxPath, IsCanonical, HeaderNames;
    assert s.pax.Some? ==> LegalPax(s.pax.value);
    assert PaxPathOf(s) == paxPath;
  }

  ghost predicate AllSay(segments: seq<Segment>, entries: seq<TarEntry>) {
    |segments| == |entries| && forall i :: 0 <= i < |segments| ==> SegmentSays(segments[i], entries[i])
  }

  lemma {:induction false} AllDecide(segments: seq<Segment>, entries: seq<TarEntry>)
    ensures AllLegal(segments) && EntriesOf(segments) == entries <==> AllSay(segments, entries)
  {
    hide SegmentSays, LegalSegment, EntryOf;
    if segments == [] {
      assert AllLegal(segments) && EntriesOf(segments) == [];
    } else if entries == [] {
      assert AllLegal(segments) ==> |EntriesOf(segments)| > 0;
    } else {
      SegmentDecides(segments[0], entries[0]);
      AllDecide(segments[1..], entries[1..]);
      FirstSays(segments, entries);
      FirstIsLegal(segments, entries);
    }
  }

  lemma FirstSays(segments: seq<Segment>, entries: seq<TarEntry>)
    requires segments != [] && entries != []
    ensures AllSay(segments, entries) <==> SegmentSays(segments[0], entries[0]) && AllSay(segments[1..], entries[1..])
  {
    hide SegmentSays;
    if SegmentSays(segments[0], entries[0]) && AllSay(segments[1..], entries[1..]) {
      forall i | 0 <= i < |segments| ensures SegmentSays(segments[i], entries[i]) {
        assert i > 0 ==> segments[1..][i - 1] == segments[i] && entries[1..][i - 1] == entries[i];
      }
    }
  }

  lemma FirstIsLegal(segments: seq<Segment>, entries: seq<TarEntry>)
    requires segments != [] && entries != []
    ensures AllLegal(segments) && EntriesOf(segments) == entries <==>
            LegalSegment(segments[0]) && EntryOf(segments[0]) == entries[0] &&
            AllLegal(segments[1..]) && EntriesOf(segments[1..]) == entries[1..]
  {
    hide LegalSegment, EntryOf;
    assert entries == [entries[0]] + entries[1..];
    if LegalSegment(segments[0]) && AllLegal(segments[1..]) {
      forall i | 0 <= i < |segments| ensures LegalSegment(segments[i]) {
        assert i > 0 ==> segments[1..][i - 1] == segments[i];
      }
    }
  }

  /** The stream of these segments, closed by at least two blocks of zeros. */
  ghost predicate IsArchive(stream: Bytes, segments: seq<Segment>, tail: Bytes) {
    stream == Flatten(segments) + tail && |tail| >= 1024 && forall i :: 0 <= i < |tail| ==> tail[i] == 0
  }

  ghost predicate InBudget(entries: seq<TarEntry>, limits: Limits) {
    (limits.maximumEntries.Some? ==> |entries| <= limits.maximumEntries.value) &&
    (limits.maximumBytes.Some? ==> FileBytes(entries) <= limits.maximumBytes.value)
  }

  /**
   * The reader returns these entries exactly when the stream is an archive of segments that say them,
   * within both budgets.
   */
  lemma ReaderDecides(stream: Bytes, limits: Limits, entries: seq<TarEntry>)
    ensures Read(stream, None, [], 0, limits) == Ok(entries) <==>
            exists segments, tail :: IsArchive(stream, segments, tail) && AllSay(segments, entries) && InBudget(entries, limits)
  {
    AcceptsExactlySplits(stream, limits, entries);
    hide Read, Flatten, FileBytes, EntriesOf, AllLegal, AllSay;
    if segments, tail :| Splits(stream, segments, tail) && EntriesOf(segments) == entries &&
                         WithinLimits(|entries|, FileBytes(entries), limits) {
      AllDecide(segments, entries);
      assert IsArchive(stream, segments, tail) && AllSay(segments, entries) && InBudget(entries, limits);
    }
    if segments, tail :| IsArchive(stream, segments, tail) && AllSay(segments, entries) && InBudget(entries, limits) {
      AllDecide(segments, entries);
      assert Splits(stream, segments, tail);
    }
  }

  // ---- UTF-8 ----

  /** Unicode scalar values: code points but the surrogates. */
  predicate IsScalar(n: nat) {
    n < 0xD800 || 0xE000 <= n < 0x110000
  }

  /** The bytes of one character, by section 3 of RFC 3629. */
  function CharacterBytes(n: nat): (s: Bytes)
    requires IsScalar(n)
    ensures |s| >= 1
  {
    if n < 0x80 then [n]
    else if n < 0x800 then [0xC0 + n / 64, 0x80 + n % 64]
    else if n < 0x10000 then [0xE0 + n / 4096, 0x80 + n / 64 % 64, 0x80 + n % 64]
    else [0xF0 + n / 262144, 0x80 + n / 4096 % 64, 0x80 + n / 64 % 64, 0x80 + n % 64]
  }

  function TextBytes(text: seq<nat>): Bytes
    requires forall i :: 0 <= i < |text| ==> IsScalar(text[i])
  {
    if text == [] then [] else CharacterBytes(text[0]) + TextBytes(text[1..])
  }

  lemma CharacterIsRead(n: nat, rest: Bytes)
    requires IsScalar(n)
    ensures CharacterLength(CharacterBytes(n) + rest) == |CharacterBytes(n)|
  {
    var s := CharacterBytes(n);
    assert forall i :: 0 <= i < |s| ==> (s + rest)[i] == s[i];
  }

  lemma DigitsOf64(x: nat, y: nat, z: nat)
    requires y < 64 && z < 64
    ensures (x * 64 + y) / 64 == x && (x * 64 + y) % 64 == y
    ensures var n := x * 4096 + y * 64 + z; n / 4096 == x && n / 64 % 64 == y && n % 64 == z && n / 64 == x * 64 + y
  {
    var n := x * 4096 + y * 64 + z;
    assert n == (x * 64 + y) * 64 + z;
    assert n / 64 == x * 64 + y;
  }

  lemma CharacterIsThere(s: Bytes) returns (n: nat)
    requires s != [] && CharacterLength(s) > 0
    ensures IsScalar(n) && CharacterBytes(n) == s[..CharacterLength(s)]
  {
    var size := CharacterLength(s);
    var first: int := s[0];
    if size == 1 {
      n := first;
    } else if size == 2 {
      n := TwoBytes(first, s[1]);
    } else if size == 3 {
      n := ThreeBytes(first, s[1], s[2]);
    } else {
      n := FourBytes(first, s[1], s[2], s[3]);
    }
    hide CharacterBytes;
    assert s[..size] == if size == 1 then [s[0]] else if size == 2 then [s[0], s[1]]
                        else if size == 3 then [s[0], s[1], s[2]] else [s[0], s[1], s[2], s[3]];
  }

  lemma TwoBytes(a: int, b: int) returns (n: nat)
    requires 0xC2 <= a <= 0xDF && 0x80 <= b <= 0xBF
    ensures IsScalar(n) && CharacterBytes(n) == [a, b]
  {
    n := (a - 0xC0) * 64 + (b - 0x80);
    DigitsOf64(a - 0xC0, b - 0x80, 0);
  }

  lemma ThreeBytes(a: int, b: int, c: int) returns (n: nat)
    requires 0x80 <= b <= 0xBF && 0x80 <= c <= 0xBF
    requires (a == 0xE0 && 0xA0 <= b) || (a == 0xED && b <= 0x9F) || 0xE1 <= a <= 0xEC || 0xEE <= a <= 0xEF
    ensures IsScalar(n) && CharacterBytes(n) == [a, b, c]
  {
    n := (a - 0xE0) * 4096 + (b - 0x80) * 64 + (c - 0x80);
    DigitsOf64(a - 0xE0, b - 0x80, c - 0x80);
  }

  lemma FourBytes(a: int, b: int, c: int, d: int) returns (n: nat)
    requires 0x80 <= b <= 0xBF && 0x80 <= c <= 0xBF && 0x80 <= d <= 0xBF
    requires (a == 0xF0 && 0x90 <= b) || (a == 0xF4 && b <= 0x8F) || 0xF1 <= a <= 0xF3
    ensures IsScalar(n) && CharacterBytes(n) == [a, b, c, d]
  {
    var high := (a - 0xF0) * 64 + (b - 0x80);
    n := high * 4096 + (c - 0x80) * 64 + (d - 0x80);
    DigitsOf64(high, c - 0x80, d - 0x80);
    DigitsOf64(a - 0xF0, b - 0x80, 0);
    assert n == (a - 0xF0) * 262144 + ((b - 0x80) * 4096 + (c - 0x80) * 64 + (d - 0x80));
  }

  ghost predicate Encodes(s: Bytes, text: seq<nat>) {
    (forall i :: 0 <= i < |text| ==> IsScalar(text[i])) && s == TextBytes(text)
  }

  /** Bytes are well-formed exactly when they are the bytes of some text. */
  lemma {:induction false} Utf8Means(s: Bytes)
    ensures ValidUtf8(s) <==> exists text :: Encodes(s, text)
    decreases |s|
  {
    hide CharacterLength, CharacterBytes, IsScalar;
    if s == [] {
      assert Encodes(s, []);
    } else {
      if ValidUtf8(s) {
        var size := CharacterLength(s);
        var n := CharacterIsThere(s);
        Utf8Means(s[size..]);
        var text :| Encodes(s[size..], text);
        assert ([n] + text)[1..] == text && s == s[..size] + s[size..];
        assert Encodes(s, [n] + text);
      }
      if text :| Encodes(s, text) {
        var first := CharacterBytes(text[0]);
        CharacterIsRead(text[0], TextBytes(text[1..]));
        assert s[|first|..] == TextBytes(text[1..]);
        assert Encodes(s[|first|..], text[1..]);
        Utf8Means(s[|first|..]);
      }
    }
  }
}
