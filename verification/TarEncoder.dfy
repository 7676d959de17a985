/** A writer of canonical archives, and the theorem that the restricted reader inverts it. */
module TarEncoder {
  import opened Basics
  import opened PaxRecord
  import opened TarHeader
  import opened TarEnvelope

  /** A path that fits the header is stored there; any other goes into a PAX block, with a stand-in name. */
  datatype Place =
    | InHeader(prefix: Bytes, name: Bytes)
    | InPax(path: Bytes, standIn: Bytes)

  datatype Item = Item(place: Place, kind: Kind, data: Bytes)

  predicate Encodable(item: Item) {
    item.kind != PaxHeader && (item.kind == Directory ==> item.data == []) && |item.data| < MAX_ENTRY_BYTES &&
    match item.place
    case InHeader(prefix, name) => Storable(name, prefix) && ValidUtf8(name) && ValidUtf8(prefix)
    case InPax(path, standIn) =>
      Storable(standIn, []) && ValidUtf8(path) && |path| <= MAX_PAX_BYTES && RecordLength(|path|) <= MAX_PAX_BYTES
  }

  predicate AllEncodable(items: seq<Item>) {
    forall i :: 0 <= i < |items| ==> Encodable(items[i])
  }

  function PathOf(item: Item): Bytes {
    match item.place
    case InHeader(prefix, name) => if prefix == [] then name else prefix + [SLASH] + name
    case InPax(path, _) => path
  }

  /** `././@PaxHeader` */
  const PAX_NAME: Bytes :=
    [0x2E, 0x2F, 0x2E, 0x2F, 0x40, 0x50, 0x61, 0x78, 0x48, 0x65, 0x61, 0x64, 0x65, 0x72]

  function Padding(size: nat): Bytes {
    Nuls(PaddedSize(size) - size)
  }

  function EncodePax(path: Bytes): PaxBlock {
    var body := EncodeRecord(path);
    PaxBlock(EncodeHeader(PAX_NAME, [], PaxHeader, |body|), body, Padding(|body|))
  }

  function EncodeItem(item: Item): Segment
    requires Encodable(item)
  {
    var data := item.data + Padding(|item.data|);
    match item.place
    case InHeader(prefix, name) => Segment(None, EncodeHeader(name, prefix, item.kind, |item.data|), data)
    case InPax(path, standIn) =>
      Segment(Some(EncodePax(path)), EncodeHeader(standIn, [], item.kind, |item.data|), data)
  }

  function EncodeItems(items: seq<Item>): (segments: seq<Segment>)
    requires AllEncodable(items)
  {
    if items == [] then [] else [EncodeItem(items[0])] + EncodeItems(items[1..])
  }

  /** The archive, ending in two or more blocks' worth of zeros. */
  function Encode(items: seq<Item>, zeros: nat): Bytes
    requires AllEncodable(items)
  {
    Flatten(EncodeItems(items)) + Nuls(2 * BLOCK + zeros)
  }

  function EntriesFor(items: seq<Item>): seq<TarEntry> {
    if items == [] then []
    else [TarEntry(PathOf(items[0]), items[0].kind, |items[0].data|)] + EntriesFor(items[1..])
  }

  lemma PaxIsLegal(path: Bytes)
    requires ValidUtf8(path) && |path| <= MAX_PAX_BYTES && RecordLength(|path|) <= MAX_PAX_BYTES
    ensures LegalPax(EncodePax(path)) && PaxPath(EncodePax(path).body) == Ok(path)
  {
    hide ParseHeader, PaxPath, EncodeRecord, IsRecord, EncodeHeader, RecordLength, ValidUtf8, Decimal, PaddedSize;
    var body := EncodeRecord(path);
    ShortPathHasRecord(path);
    PaxNameFits();
    hide Storable;
    EncodedHeaderParses(PAX_NAME, [], PaxHeader, |body|);
  }

  lemma PaxNameFits()
    ensures Storable(PAX_NAME, [])
  {
  }

  lemma ItemIsLegal(item: Item)
    requires Encodable(item)
    ensures LegalSegment(EncodeItem(item))
    ensures EntryOf(EncodeItem(item)) == TarEntry(PathOf(item), item.kind, |item.data|)
  {
    hide ParseHeader, ParseEntry, PaxPath, EncodePax, EncodeHeader, LegalPax, RecordLength, ValidUtf8;
    match item.place
    case InHeader(prefix, name) =>
      EncodedHeaderParses(name, prefix, item.kind, |item.data|);
      EncodedHeaderEntry(name, prefix, item.kind, |item.data|, None);
    case InPax(path, standIn) =>
      PaxIsLegal(path);
      EncodedHeaderParses(standIn, [], item.kind, |item.data|);
      EncodedHeaderEntry(standIn, [], item.kind, |item.data|, Some(path));
  }

  lemma {:induction false} ItemsAreLegal(items: seq<Item>)
    requires AllEncodable(items)
    ensures AllLegal(EncodeItems(items)) && EntriesOf(EncodeItems(items)) == EntriesFor(items)
  {
    hide Encodable, EncodeItem, LegalSegment, EntryOf;
    if items != [] {
      ItemIsLegal(items[0]);
      ItemsAreLegal(items[1..]);
      assert EncodeItems(items)[1..] == EncodeItems(items[1..]);
    }
  }

  /**
   * The reader inverts the writer: an archive of any canonical items is read back as exactly their
   * entries, in order, if they are within the budgets, and is refused if they are not.
   */
  lemma RoundTrip(items: seq<Item>, zeros: nat, limits: Limits)
    requires AllEncodable(items)
    ensures var entries := EntriesFor(items);
            var r := Read(Encode(items, zeros), None, [], 0, limits);
            if WithinLimits(|entries|, FileBytes(entries), limits) then r == Ok(entries) else r.Err?
  {
    hide Encodable, EncodeItem, LegalSegment, EntryOf, Read, Flatten, EncodeItems, EntriesFor, FileBytes;
    ItemsAreLegal(items);
    ReadSplit(EncodeItems(items), Nuls(2 * BLOCK + zeros), [], 0, limits);
    assert [] + EntriesFor(items) == EntriesFor(items);
  }
}
