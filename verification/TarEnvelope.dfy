/** The restricted envelope reader: a stream of headers and data, its budgets, and what it accepts. */
module TarEnvelope {
  import opened Basics
  import opened PaxRecord
  import opened TarHeader

  datatype Limits = Limits(maximumEntries: Option<nat>, maximumBytes: Option<nat>)

  predicate Exceeds(count: nat, limit: Option<nat>) {
    limit.Some? && count > limit.value
  }

  /** A size rounded up to whole blocks. */
  function PaddedSize(size: nat): (r: nat)
    ensures size <= r < size + BLOCK && r % BLOCK == 0
  {
    (size + BLOCK - 1) / BLOCK * BLOCK
  }

  function FileSize(h: Header): nat {
    if h.kind == RegularFile then h.size else 0
  }

  // ---- the reader as a function of the stream ----

  /** After the first block of zeros. */
  function Finish(rest: Bytes, pending: Option<Bytes>, entries: seq<TarEntry>): Result<seq<TarEntry>> {
    if |rest| < BLOCK then Err(Truncated)
    else if !IsZero(rest[..BLOCK]) then Err(BadTerminator)
    else if !IsZero(rest[BLOCK..]) then Err(TrailingData)
    else if pending.Some? then Err(OrphanPax)
    else Ok(entries)
  }

  /** The path in the PAX block whose header has just been read. */
  function PaxAt(rest: Bytes, h: Header, pending: Option<Bytes>): (r: Result<Bytes>)
    ensures r.Ok? ==> PaddedSize(h.size) <= |rest|
  {
    if pending.Some? then Err(ConsecutivePax)
    else if h.size > MAX_PAX_BYTES then Err(PaxTooLarge)
    else if |rest| < PaddedSize(h.size) then Err(Truncated)
    else PaxPath(rest[..h.size])
  }

  /** The entry whose header has just been read, after `count` others of `extracted` bytes. */
  function EntryAt(
    rest: Bytes, block: Bytes, h: Header, pending: Option<Bytes>, count: nat, extracted: nat, limits: Limits): (r: Result<TarEntry>)
    requires |block| == BLOCK
    ensures r.Ok? ==> PaddedSize(h.size) <= |rest|
  {
    if Exceeds(count + 1, limits.maximumEntries) then Err(TooManyEntries)
    else if h.kind == RegularFile && Exceeds(extracted + h.size, limits.maximumBytes) then Err(TooManyBytes)
    else if |rest| < PaddedSize(h.size) then Err(Truncated)
    else ParseEntry(block, h, pending)
  }

  /** `pending` is the path of a PAX header whose entry has not come yet. */
  function Read(stream: Bytes, pending: Option<Bytes>, entries: seq<TarEntry>, extracted: nat, limits: Limits)
    : Result<seq<TarEntry>>
    decreases |stream|
  {
    if stream == [] then if pending.Some? then Err(OrphanPax) else Err(Unterminated)
    else if |stream| < BLOCK then Err(PartialHeader)
    else
      var block, rest := stream[..BLOCK], stream[BLOCK..];
      if IsZero(block) then Finish(rest, pending, entries)
      else if ParseHeader(block).Err? then Err(ParseHeader(block).fault)
      else
        var h := ParseHeader(block).value;
        if h.kind == PaxHeader then
          var path := PaxAt(rest, h, pending);
          if path.Err? then Err(path.fault)
          else Read(rest[PaddedSize(h.size)..], Some(path.value), entries, extracted, limits)
        else
          var entry := EntryAt(rest, block, h, pending, |entries|, extracted, limits);
          if entry.Err? then Err(entry.fault)
          else Read(rest[PaddedSize(h.size)..], None, entries + [entry.value], extracted + FileSize(h), limits)
  }

  // ---- the reader as it runs ----

  /** The decompressed stream. */
  class Source {
    const data: Bytes
    var position: nat

    ghost predicate Valid()
      reads this
    {
      position <= |data|
    }

    ghost function Rest(): Bytes
      reads this
      requires Valid()
    {
      data[position..]
    }

    constructor (data: Bytes)
      ensures Valid() && Rest() == data
    {
      this.data := data;
      position := 0;
    }

    /** At most `size` bytes; fewer only at the end. */
    method Take(size: nat) returns (chunk: Bytes)
      requires Valid()
      modifies this
      ensures Valid()
      ensures chunk == if size <= |old(Rest())| then old(Rest())[..size] else old(Rest())
      ensures Rest() == old(Rest())[|chunk|..]
    {
      var end := if position + size <= |data| then position + size else |data|;
      chunk := data[position..end];
      position := end;
    }
  }

  const CHUNK := 1048576

  method DiscardExact(source: Source, size: nat) returns (ok: bool)
    requires source.Valid()
    modifies source
    ensures source.Valid()
    ensures ok <==> size <= |old(source.Rest())|
    ensures ok ==> source.Rest() == old(source.Rest())[size..]
  {
    var remaining: nat := size;
    while remaining > 0
      invariant source.Valid() && remaining <= size
      invariant size - remaining <= |old(source.Rest())|
      invariant source.Rest() == old(source.Rest())[size - remaining..]
    {
      var chunk := source.Take(if remaining < CHUNK then remaining else CHUNK);
      if chunk == [] {
        return false;
      }
      remaining := remaining - |chunk|;
    }
    return true;
  }

  lemma ZeroParts(a: Bytes, b: Bytes)
    ensures IsZero(a + b) <==> IsZero(a) && IsZero(b)
  {
    if IsZero(a + b) {
      assert forall i :: 0 <= i < |a| ==> a[i] == (a + b)[i];
      assert forall i :: 0 <= i < |b| ==> b[i] == (a + b)[|a| + i];
    }
  }

  /** The bytes that are left are all zero. */
  method OnlyZeros(source: Source) returns (ok: bool)
    requires source.Valid()
    modifies source
    ensures source.Valid()
    ensures ok <==> IsZero(old(source.Rest()))
  {
    hide IsZero;
    ghost var all := source.Rest();
    var chunk := source.Take(CHUNK);
    assert chunk + source.Rest() == all;
    while chunk != []
      invariant source.Valid()
      invariant IsZero(chunk + source.Rest()) <==> IsZero(all)
      invariant chunk == [] ==> source.Rest() == []
      decreases |chunk| + |source.Rest()|
    {
      ZeroParts(chunk, source.Rest());
      if !IsZero(chunk) {
        return false;
      }
      ghost var rest := source.Rest();
      chunk := source.Take(CHUNK);
      assert chunk + source.Rest() == rest;
    }
    assert chunk + source.Rest() == [];
    NothingIsZero();
    return true;
  }

  lemma NothingIsZero()
    ensures IsZero([])
  {
  }

  method ReadEnvelope(source: Source, limits: Limits) returns (result: Result<seq<TarEntry>>)
    requires source.Valid()
    modifies source
    ensures result == Read(old(source.Rest()), None, [], 0, limits)
  {
    hide ParseHeader, IsZero, PaddedSize, Finish, PaxAt, EntryAt;
    var entries: seq<TarEntry> := [];
    var extracted: nat := 0;
    var pending: Option<Bytes> := None;
    var header := source.Take(BLOCK);
    while header != []
      invariant source.Valid()
      invariant |header| <= BLOCK && (|header| < BLOCK ==> source.Rest() == [])
      invariant Read(old(source.Rest()), None, [], 0, limits) ==
                Read(header + source.Rest(), pending, entries, extracted, limits)
      decreases |header| + |source.Rest()|
    {
      ghost var stream := header + source.Rest();
      if |header| != BLOCK {
        return Err(PartialHeader);
      }
      assert stream[..BLOCK] == header && stream[BLOCK..] == source.Rest();
      if IsZero(header) {
        result := ReadTerminator(source, pending, entries);
        return;
      }
      var parsed := ParseHeader(header);
      if parsed.Err? {
        return Err(parsed.fault);
      }
      var h := parsed.value;
      if h.kind == PaxHeader {
        var path := ReadPax(source, h, pending);
        if path.Err? {
          return Err(path.fault);
        }
        pending := Some(path.value);
      } else {
        var entry := ReadEntry(source, header, h, pending, |entries|, extracted, limits);
        if entry.Err? {
          return Err(entry.fault);
        }
        entries := entries + [entry.value];
        extracted := extracted + FileSize(h);
        pending := None;
      }
      ghost var rest := source.Rest();
      header := source.Take(BLOCK);
      assert header + source.Rest() == rest;
    }
    result := if pending.Some? then Err(OrphanPax) else Err(Unterminated);
  }

  /** Budgets, data and metadata of one entry. */
  method ReadEntry(
      source: Source, header: Bytes, h: Header, pending: Option<Bytes>, count: nat, extracted: nat, limits: Limits)
    returns (entry: Result<TarEntry>)
    requires source.Valid() && |header| == BLOCK
    modifies source
    ensures source.Valid()
    ensures entry == EntryAt(old(source.Rest()), header, h, pending, count, extracted, limits)
    ensures entry.Ok? ==> source.Rest() == old(source.Rest())[PaddedSize(h.size)..]
  {
    if Exceeds(count + 1, limits.maximumEntries) {
      return Err(TooManyEntries);
    }
    if h.kind == RegularFile && Exceeds(extracted + h.size, limits.maximumBytes) {
      return Err(TooManyBytes);
    }
    var complete := DiscardExact(source, PaddedSize(h.size));
    if !complete {
      return Err(Truncated);
    }
    return ParseEntry(header, h, pending);
  }

  /** The rest of the archive after its first block of zeros. */
  method ReadTerminator(source: Source, pending: Option<Bytes>, entries: seq<TarEntry>)
    returns (result: Result<seq<TarEntry>>)
    requires source.Valid()
    modifies source
    ensures source.Valid()
    ensures result == Finish(old(source.Rest()), pending, entries)
  {
    var second := source.Take(BLOCK);
    if |second| != BLOCK {
      return Err(Truncated);
    }
    if !IsZero(second) {
      return Err(BadTerminator);
    }
    var clean := OnlyZeros(source);
    if !clean {
      return Err(TrailingData);
    }
    return if pending.Some? then Err(OrphanPax) else Ok(entries);
  }

  /** The body of a PAX header and its padding. */
  method ReadPax(source: Source, h: Header, pending: Option<Bytes>) returns (path: Result<Bytes>)
    requires source.Valid()
    modifies source
    ensures source.Valid()
    ensures path == PaxAt(old(source.Rest()), h, pending)
    ensures path.Ok? ==> source.Rest() == old(source.Rest())[PaddedSize(h.size)..]
  {
    if pending.Some? {
      return Err(ConsecutivePax);
    }
    if h.size > MAX_PAX_BYTES {
      return Err(PaxTooLarge);
    }
    var body := source.Take(h.size);
    if |body| != h.size {
      return Err(Truncated);
    }
    var complete := DiscardExact(source, PaddedSize(h.size) - h.size);
    if !complete {
      return Err(Truncated);
    }
    path := ParsePaxPath(body);
  }

  // ---- the archives it accepts ----

  datatype PaxBlock = PaxBlock(header: Bytes, body: Bytes, padding: Bytes)

  /** An entry in the stream: perhaps a PAX block, then a header and the padded data. */
  datatype Segment = Segment(pax: Option<PaxBlock>, header: Bytes, data: Bytes)

  predicate LegalPax(p: PaxBlock) {
    |p.header| == BLOCK && ParseHeader(p.header) == Ok(Header(PaxHeader, |p.body|)) && |p.body| <= MAX_PAX_BYTES &&
    |p.body| + |p.padding| == PaddedSize(|p.body|) && PaxPath(p.body).Ok?
  }

  function PaxPathOf(s: Segment): Option<Bytes>
    requires s.pax.Some? ==> LegalPax(s.pax.value)
  {
    if s.pax.None? then None else Some(PaxPath(s.pax.value.body).value)
  }

  predicate LegalSegment(s: Segment) {
    (s.pax.Some? ==> LegalPax(s.pax.value)) &&
    |s.header| == BLOCK && ParseHeader(s.header).Ok? &&
    var h := ParseHeader(s.header).value;
    h.kind != PaxHeader && |s.data| == PaddedSize(h.size) && ParseEntry(s.header, h, PaxPathOf(s)).Ok?
  }

  function EntryOf(s: Segment): TarEntry
    requires LegalSegment(s)
  {
    ParseEntry(s.header, ParseHeader(s.header).value, PaxPathOf(s)).value
  }

  function PaxBytes(p: PaxBlock): Bytes {
    p.header + p.body + p.padding
  }

  function BytesOf(s: Segment): Bytes {
    (if s.pax.None? then [] else PaxBytes(s.pax.value)) + s.header + s.data
  }

  function Flatten(segments: seq<Segment>): Bytes {
    if segments == [] then [] else BytesOf(segments[0]) + Flatten(segments[1..])
  }

  predicate AllLegal(segments: seq<Segment>) {
    forall i :: 0 <= i < |segments| ==> LegalSegment(segments[i])
  }

  function EntriesOf(segments: seq<Segment>): seq<TarEntry>
    requires AllLegal(segments)
  {
    if segments == [] then [] else [EntryOf(segments[0])] + EntriesOf(segments[1..])
  }

  function FileBytes(entries: seq<TarEntry>): nat {
    if entries == [] then 0
    else (if entries[0].kind == RegularFile then entries[0].size else 0) + FileBytes(entries[1..])
  }

  predicate IsTerminator(tail: Bytes) {
    |tail| >= 2 * BLOCK && IsZero(tail)
  }

  predicate Splits(stream: Bytes, segments: seq<Segment>, tail: Bytes) {
    AllLegal(segments) && IsTerminator(tail) && stream == Flatten(segments) + tail
  }

  predicate WithinLimits(count: nat, bytes: nat, limits: Limits) {
    !Exceeds(count, limits.maximumEntries) && !Exceeds(bytes, limits.maximumBytes)
  }

  // ---- one segment at a time ----

  lemma EntryFacts(s: Segment)
    requires LegalSegment(s)
    ensures var h := ParseHeader(s.header).value;
            EntryOf(s).kind == h.kind && EntryOf(s).size == h.size
  {
    hide ParseHeader, Octal, Field, ValidUtf8, HeaderPath, PaxPath;
  }

  /** Reading over the header and data of an entry. */
  lemma ReadHeader(s: Segment, rest: Bytes, entries: seq<TarEntry>, extracted: nat, limits: Limits)
    requires LegalSegment(s)
    ensures Read(s.header + s.data + rest, PaxPathOf(s), entries, extracted, limits) ==
            ReadAfter(EntryOf(s), rest, entries, extracted, limits)
  {
    EntryFacts(s);
    HeaderIsNotZero(s.header);
    hide ParseHeader, ParseEntry, PaxPath, IsZero, PaddedSize, Exceeds, Read, ReadAfter;
    ReadBlock(s.header, s.data, rest, ParseHeader(s.header).value, PaxPathOf(s), EntryOf(s), entries, extracted, limits);
  }

  lemma ReadBlock(block: Bytes, data: Bytes, rest: Bytes, h: Header, pending: Option<Bytes>, e: TarEntry,
                  entries: seq<TarEntry>, extracted: nat, limits: Limits)
    requires |block| == BLOCK && !IsZero(block) && ParseHeader(block) == Ok(h) && h.kind != PaxHeader
    requires |data| == PaddedSize(h.size) && ParseEntry(block, h, pending) == Ok(e) && e.kind == h.kind && e.size == h.size
    ensures Read(block + data + rest, pending, entries, extracted, limits) ==
            ReadAfter(e, rest, entries, extracted, limits)
  {
    hide ParseHeader, ParseEntry, PaxPath, IsZero, PaddedSize, Exceeds;
    var stream := block + data + rest;
    assert stream[..BLOCK] == block && stream[BLOCK..] == data + rest;
    assert (data + rest)[PaddedSize(h.size)..] == rest;
    assert FileBytes([e]) == FileSize(h);
  }

  /** The budgets, then the rest of the stream. */
  function ReadAfter(e: TarEntry, rest: Bytes, entries: seq<TarEntry>, extracted: nat, limits: Limits)
    : Result<seq<TarEntry>>
  {
    var bytes := extracted + FileBytes([e]);
    if Exceeds(|entries| + 1, limits.maximumEntries) then Err(TooManyEntries)
    else if e.kind == RegularFile && Exceeds(bytes, limits.maximumBytes) then Err(TooManyBytes)
    else Read(rest, None, entries + [e], bytes, limits)
  }

  lemma HeaderIsNotZero(block: Bytes)
    requires |block| == BLOCK && ParseHeader(block).Ok?
    ensures !IsZero(block)
  {
    if IsZero(block) {
      ZeroIsNoHeader(block);
    }
  }

  /** Reading over a PAX block. */
  lemma ReadPaxBlock(p: PaxBlock, rest: Bytes, entries: seq<TarEntry>, extracted: nat, limits: Limits)
    requires LegalPax(p)
    ensures Read(PaxBytes(p) + rest, None, entries, extracted, limits) ==
            Read(rest, Some(PaxPath(p.body).value), entries, extracted, limits)
  {
    HeaderIsNotZero(p.header);
    hide ParseHeader, ParseEntry, PaxPath, IsZero, PaddedSize, Exceeds;
    PaxSlices(p, rest);
    hide PaxBytes;
  }

  lemma PaxSlices(p: PaxBlock, rest: Bytes)
    requires |p.header| == BLOCK && |p.body| + |p.padding| == PaddedSize(|p.body|)
    ensures var stream := PaxBytes(p) + rest;
            |stream| >= BLOCK && stream[..BLOCK] == p.header && |stream[BLOCK..]| >= PaddedSize(|p.body|) &&
            stream[BLOCK..][..|p.body|] == p.body && stream[BLOCK..][PaddedSize(|p.body|)..] == rest
  {
    hide PaddedSize;
    var stream, after := PaxBytes(p) + rest, p.body + p.padding + rest;
    assert stream == p.header + after;
    assert stream[..BLOCK] == p.header && stream[BLOCK..] == after;
  }

  lemma SegmentBytes(s: Segment, rest: Bytes)
    ensures s.pax.None? ==> BytesOf(s) + rest == s.header + s.data + rest
    ensures s.pax.Some? ==> BytesOf(s) + rest == PaxBytes(s.pax.value) + (s.header + s.data + rest)
  {
    hide PaxBytes;
    if s.pax.None? {
      assert BytesOf(s) == s.header + s.data;
    }
  }

  lemma ReadSegment(s: Segment, rest: Bytes, entries: seq<TarEntry>, extracted: nat, limits: Limits)
    requires LegalSegment(s)
    ensures Read(BytesOf(s) + rest, None, entries, extracted, limits) ==
            ReadAfter(EntryOf(s), rest, entries, extracted, limits)
  {
    hide Read, ReadAfter, ParseHeader, ParseEntry, PaxPath, LegalPax, PaxBytes, BytesOf;
    ReadHeader(s, rest, entries, extracted, limits);
    SegmentBytes(s, rest);
    if s.pax.Some? {
      ReadPaxBlock(s.pax.value, s.header + s.data + rest, entries, extracted, limits);
    }
  }

  /** The header and data at the front of a stream that is read to the end. */
  lemma FrontHeader(stream: Bytes, pax: Option<PaxBlock>, pending: Option<Bytes>, entries: seq<TarEntry>,
                    extracted: nat, limits: Limits) returns (s: Segment, rest: Bytes)
    requires pax.Some? ==> LegalPax(pax.value)
    requires pending == if pax.None? then None else Some(PaxPath(pax.value.body).value)
    requires Read(stream, pending, entries, extracted, limits).Ok?
    requires |stream| >= BLOCK && !IsZero(stream[..BLOCK])
    requires ParseHeader(stream[..BLOCK]).Ok? && ParseHeader(stream[..BLOCK]).value.kind != PaxHeader
    ensures s.pax == pax && LegalSegment(s) && stream == s.header + s.data + rest
  {
    hide ParseHeader, ParseEntry, PaxPath, IsZero, PaddedSize, Exceeds, LegalPax;
    var block := stream[..BLOCK];
    var size := PaddedSize(ParseHeader(block).value.size);
    assert |stream[BLOCK..]| >= size;
    s := Segment(pax, block, stream[BLOCK..][..size]);
    rest := stream[BLOCK..][size..];
  }

  lemma FrontPax(stream: Bytes, entries: seq<TarEntry>, extracted: nat, limits: Limits)
    returns (p: PaxBlock, rest: Bytes)
    requires Read(stream, None, entries, extracted, limits).Ok?
    requires |stream| >= BLOCK && !IsZero(stream[..BLOCK])
    requires ParseHeader(stream[..BLOCK]).Ok? && ParseHeader(stream[..BLOCK]).value.kind == PaxHeader
    ensures LegalPax(p) && stream == PaxBytes(p) + rest
    ensures |rest| >= BLOCK && !IsZero(rest[..BLOCK])
    ensures ParseHeader(rest[..BLOCK]).Ok? && ParseHeader(rest[..BLOCK]).value.kind != PaxHeader
  {
    hide ParseHeader, ParseEntry, PaxPath, IsZero, PaddedSize, Exceeds;
    var block, after := stream[..BLOCK], stream[BLOCK..];
    var h := ParseHeader(block).value;
    var size := PaddedSize(h.size);
    PaddedIsLarger(h.size);
    assert |after| >= size;
    p := PaxBlock(block, after[..h.size], after[h.size..size]);
    rest := after[size..];
    assert after == p.body + p.padding + rest;
    assert Read(stream, None, entries, extracted, limits) ==
           Read(rest, Some(PaxPath(p.body).value), entries, extracted, limits);
    assert |rest| >= BLOCK;
    assert !IsZero(rest[..BLOCK]);
  }

  lemma PaddedIsLarger(size: nat)
    ensures size <= PaddedSize(size)
  {
  }

  /** A stream that is read to the end and does not start with zeros starts with a legal segment. */
  lemma FrontSegment(stream: Bytes, entries: seq<TarEntry>, extracted: nat, limits: Limits)
    returns (s: Segment, rest: Bytes)
    requires Read(stream, None, entries, extracted, limits).Ok?
    requires |stream| >= BLOCK && !IsZero(stream[..BLOCK])
    ensures LegalSegment(s) && stream == BytesOf(s) + rest
  {
    HeaderNeeded(stream, entries, extracted, limits);
    hide Read, ParseHeader, PaxPath, IsZero, LegalPax, LegalSegment, PaxBytes, BytesOf;
    if ParseHeader(stream[..BLOCK]).value.kind == PaxHeader {
      var p, after := FrontPax(stream, entries, extracted, limits);
      s, rest := HeaderAfterPax(p, after, entries, extracted, limits);
    } else {
      s, rest := FrontHeader(stream, None, None, entries, extracted, limits);
    }
    SegmentBytes(s, rest);
  }

  lemma HeaderAfterPax(p: PaxBlock, after: Bytes, entries: seq<TarEntry>, extracted: nat, limits: Limits)
    returns (s: Segment, rest: Bytes)
    requires LegalPax(p) && Read(PaxBytes(p) + after, None, entries, extracted, limits).Ok?
    requires |after| >= BLOCK && !IsZero(after[..BLOCK])
    requires ParseHeader(after[..BLOCK]).Ok? && ParseHeader(after[..BLOCK]).value.kind != PaxHeader
    ensures s.pax == Some(p) && LegalSegment(s) && after == s.header + s.data + rest
  {
    ReadPaxBlock(p, after, entries, extracted, limits);
    assert PaxPath(p.body).Ok?;
    hide Read, ParseHeader, PaxPath, IsZero, LegalPax, LegalSegment;
    s, rest := FrontHeader(after, Some(p), Some(PaxPath(p.body).value), entries, extracted, limits);
  }

  lemma HeaderNeeded(stream: Bytes, entries: seq<TarEntry>, extracted: nat, limits: Limits)
    requires Read(stream, None, entries, extracted, limits).Ok?
    requires |stream| >= BLOCK && !IsZero(stream[..BLOCK])
    ensures ParseHeader(stream[..BLOCK]).Ok?
  {
    hide ParseHeader, ParseEntry, PaxPath, IsZero, PaddedSize, Exceeds;
  }

  lemma ReadTail(stream: Bytes, entries: seq<TarEntry>, extracted: nat, limits: Limits)
    requires |stream| >= BLOCK ==> IsZero(stream[..BLOCK])
    ensures Read(stream, None, entries, extracted, limits).Ok? <==> IsTerminator(stream)
    ensures IsTerminator(stream) ==> Read(stream, None, entries, extracted, limits) == Ok(entries)
  {
    if |stream| >= BLOCK {
      assert stream == stream[..BLOCK] + stream[BLOCK..];
      if |stream| >= 2 * BLOCK {
        assert stream[BLOCK..] == stream[BLOCK..][..BLOCK] + stream[BLOCK..][BLOCK..];
      }
    }
  }

  // ---- acceptance ----

  lemma FileBytesFirst(e: TarEntry, entries: seq<TarEntry>)
    ensures FileBytes([e] + entries) == FileBytes([e]) + FileBytes(entries)
    ensures FileBytes([]) == 0
  {
    assert ([e] + entries)[1..] == entries;
  }

  /** Reading on adds all the entries, or fails for the budgets alone. */
  predicate ReadsAll(r: Result<seq<TarEntry>>, before: seq<TarEntry>, all: seq<TarEntry>, extracted: nat, limits: Limits) {
    r.Ok? == WithinLimits(|before| + |all|, extracted + FileBytes(all), limits) && (r.Ok? ==> r.value == before + all)
  }

  lemma ReadsOneMore(r: Result<seq<TarEntry>>, e: TarEntry, more: seq<TarEntry>, before: seq<TarEntry>, extracted: nat, limits: Limits)
    requires if WithinLimits(|before| + 1, extracted + FileBytes([e]), limits) then
               ReadsAll(r, before + [e], more, extracted + FileBytes([e]), limits)
             else r.Err?
    ensures ReadsAll(r, before, [e] + more, extracted, limits)
  {
    FileBytesFirst(e, more);
    hide FileBytes;
    assert before + [e] + more == before + ([e] + more);
  }

  lemma {:induction false} ReadSplit(segments: seq<Segment>, tail: Bytes, before: seq<TarEntry>, extracted: nat, limits: Limits)
    requires AllLegal(segments) && IsTerminator(tail) && !Exceeds(extracted, limits.maximumBytes)
    requires !Exceeds(|before|, limits.maximumEntries)
    ensures ReadsAll(Read(Flatten(segments) + tail, None, before, extracted, limits), before, EntriesOf(segments), extracted, limits)
    decreases |segments|
  {
    hide Read, LegalSegment, BytesOf, EntryOf, IsTerminator;
    if segments == [] {
      TerminatorIsZero(tail);
      ReadTail(tail, before, extracted, limits);
      assert [] + tail == tail && before + [] == before;
    } else {
      var s, rest := segments[0], segments[1..];
      var e := EntryOf(s);
      assert Flatten(segments) + tail == BytesOf(s) + (Flatten(rest) + tail);
      assert EntriesOf(segments) == [e] + EntriesOf(rest);
      ReadSegment(s, Flatten(rest) + tail, before, extracted, limits);
      DirectoriesAreFree(e);
      hide FileBytes, Flatten, EntriesOf, ReadsAll;
      if WithinLimits(|before| + 1, extracted + FileBytes([e]), limits) {
        ReadSplit(rest, tail, before + [e], extracted + FileBytes([e]), limits);
      }
      ReadsOneMore(Read(Flatten(segments) + tail, None, before, extracted, limits), e, EntriesOf(rest), before, extracted, limits);
    }
  }

  lemma DirectoriesAreFree(e: TarEntry)
    ensures e.kind != RegularFile ==> FileBytes([e]) == 0
  {
  }

  lemma TerminatorIsZero(tail: Bytes)
    requires IsTerminator(tail)
    ensures |tail| >= BLOCK && IsZero(tail[..BLOCK])
  {
  }

  lemma {:induction false} AcceptedSplits(stream: Bytes, before: seq<TarEntry>, extracted: nat, limits: Limits)
    returns (segments: seq<Segment>, tail: Bytes)
    requires Read(stream, None, before, extracted, limits).Ok?
    ensures Splits(stream, segments, tail)
    decreases |stream|
  {
    hide Read, LegalSegment, BytesOf, EntryOf, IsTerminator, IsZero, Exceeds;
    if |stream| >= BLOCK && !IsZero(stream[..BLOCK]) {
      var s, rest := FrontSegment(stream, before, extracted, limits);
      ReadSegment(s, rest, before, extracted, limits);
      SegmentIsLong(s);
      var more;
      more, tail := AcceptedSplits(rest, before + [EntryOf(s)], extracted + FileBytes([EntryOf(s)]), limits);
      segments := [s] + more;
      assert segments[1..] == more;
      assert stream == BytesOf(s) + (Flatten(more) + tail);
    } else {
      ReadTail(stream, before, extracted, limits);
      segments, tail := [], stream;
      assert [] + tail == stream;
    }
  }

  lemma SegmentIsLong(s: Segment)
    requires LegalSegment(s)
    ensures |BytesOf(s)| >= BLOCK
  {
    hide ParseHeader, ParseEntry, PaxPath, PaddedSize;
  }

  /**
   * A stream is accepted exactly when it is a sequence of legal segments followed by at least two
   * blocks of zeros and nothing else, within both budgets; the result is the segments' entries.
   */
  lemma AcceptsExactlySplits(stream: Bytes, limits: Limits, entries: seq<TarEntry>)
    ensures Read(stream, None, [], 0, limits) == Ok(entries) <==>
            exists segments, tail ::
              Splits(stream, segments, tail) && EntriesOf(segments) == entries &&
              WithinLimits(|entries|, FileBytes(entries), limits)
  {
    hide Read, LegalSegment, BytesOf, EntryOf, IsTerminator, Flatten, EntriesOf, FileBytes;
    if Read(stream, None, [], 0, limits) == Ok(entries) {
      var segments, tail := AcceptedSplits(stream, [], 0, limits);
      ReadSplit(segments, tail, [], 0, limits);
      assert [] + EntriesOf(segments) == EntriesOf(segments);
    }
    if segments, tail :| Splits(stream, segments, tail) && EntriesOf(segments) == entries &&
                         WithinLimits(|entries|, FileBytes(entries), limits) {
      ReadSplit(segments, tail, [], 0, limits);
      assert [] + entries == entries;
    }
  }

  // ---- the split is unique ----

  lemma SamePax(p: PaxBlock, x: Bytes, q: PaxBlock, y: Bytes)
    requires LegalPax(p) && LegalPax(q) && PaxBytes(p) + x == PaxBytes(q) + y
    ensures p == q && x == y
  {
    hide ParseHeader, PaxPath;
    var a, b := PaxBytes(p) + x, PaxBytes(q) + y;
    assert p.header == a[..BLOCK] && q.header == b[..BLOCK];
    var n, m := |p.body|, |p.padding|;
    assert p.body == a[BLOCK..BLOCK + n] && q.body == b[BLOCK..BLOCK + n];
    assert p.padding == a[BLOCK + n..BLOCK + n + m] && q.padding == b[BLOCK + n..BLOCK + n + m];
    assert x == a[BLOCK + n + m..] && y == b[BLOCK + n + m..];
  }

  lemma SameHeader(s: Segment, x: Bytes, t: Segment, y: Bytes)
    requires LegalSegment(s) && LegalSegment(t) && s.header + s.data + x == t.header + t.data + y
    ensures s.header == t.header && s.data == t.data && x == y
  {
    hide ParseHeader, ParseEntry, PaxPath;
    var a, b := s.header + s.data + x, t.header + t.data + y;
    assert s.header == a[..BLOCK] && t.header == b[..BLOCK];
    var n := |s.data|;
    assert s.data == a[BLOCK..BLOCK + n] && t.data == b[BLOCK..BLOCK + n];
    assert x == a[BLOCK + n..] && y == b[BLOCK + n..];
  }

  /** Whether a segment has a PAX block shows in its first header. */
  lemma FirstHeader(s: Segment, rest: Bytes)
    requires LegalSegment(s)
    ensures |BytesOf(s) + rest| >= BLOCK && ParseHeader((BytesOf(s) + rest)[..BLOCK]).Ok?
    ensures s.pax.Some? <==> ParseHeader((BytesOf(s) + rest)[..BLOCK]).value.kind == PaxHeader
  {
    hide ParseHeader, ParseEntry, PaxPath, PaddedSize;
    assert (BytesOf(s) + rest)[..BLOCK] == if s.pax.Some? then s.pax.value.header else s.header;
  }

  lemma SameSegment(s: Segment, x: Bytes, t: Segment, y: Bytes)
    requires LegalSegment(s) && LegalSegment(t) && BytesOf(s) + x == BytesOf(t) + y
    ensures s == t && x == y
  {
    FirstHeader(s, x);
    FirstHeader(t, y);
    PaxIsLegal(s);
    PaxIsLegal(t);
    hide ParseHeader, LegalPax, LegalSegment, PaxBytes, BytesOf;
    SegmentBytes(s, x);
    SegmentBytes(t, y);
    if s.pax.Some? {
      SamePax(s.pax.value, s.header + s.data + x, t.pax.value, t.header + t.data + y);
    }
    SameHeader(s, x, t, y);
  }

  lemma PaxIsLegal(s: Segment)
    requires LegalSegment(s)
    ensures s.pax.Some? ==> LegalPax(s.pax.value)
  {
  }

  lemma SegmentIsNotZero(s: Segment, rest: Bytes, tail: Bytes)
    requires LegalSegment(s) && IsTerminator(tail)
    ensures BytesOf(s) + rest != tail
  {
    FirstHeader(s, rest);
    HeaderIsNotZero((BytesOf(s) + rest)[..BLOCK]);
  }

  /** An accepted stream is made of one sequence of segments only. */
  lemma {:induction false} SplitIsUnique(stream: Bytes, p: seq<Segment>, x: Bytes, q: seq<Segment>, y: Bytes)
    requires Splits(stream, p, x) && Splits(stream, q, y)
    ensures p == q && x == y
    decreases |p|
  {
    hide LegalSegment, BytesOf, IsTerminator;
    if p != [] {
      assert stream == BytesOf(p[0]) + (Flatten(p[1..]) + x);
    }
    if q != [] {
      assert stream == BytesOf(q[0]) + (Flatten(q[1..]) + y);
    }
    if p == [] || q == [] {
      assert p == [] ==> stream == x by { assert [] + x == x; }
      assert q == [] ==> stream == y by { assert [] + y == y; }
      if p != [] { SegmentIsNotZero(p[0], Flatten(p[1..]) + x, y); }
      if q != [] { SegmentIsNotZero(q[0], Flatten(q[1..]) + y, x); }
    } else {
      SameSegment(p[0], Flatten(p[1..]) + x, q[0], Flatten(q[1..]) + y);
      SplitIsUnique(Flatten(p[1..]) + x, p[1..], x, q[1..], y);
      assert p == [p[0]] + p[1..] && q == [q[0]] + q[1..];
    }
  }
}
