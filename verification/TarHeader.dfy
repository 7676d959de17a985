/** One 512-byte ustar header: how the restricted reader takes it apart, and how a writer fills it. */
module TarHeader {
  import opened Basics
  import opened PaxRecord

  const BLOCK := 512

  const NUL: Byte := 0

  /** `ustar` */
  const USTAR: Bytes := [0x75, 0x73, 0x74, 0x61, 0x72]

  const FILE_FLAG: Byte := 0x30
  const DIRECTORY_FLAG: Byte := 0x35
  const PAX_FLAG: Byte := 0x78

  /** `g`, `L`, `K` and `S` */
  const REJECTED_FLAGS: set<Byte> := {0x67, 0x4C, 0x4B, 0x53}

  datatype Kind = PaxHeader | RegularFile | Directory

  datatype Header = Header(kind: Kind, size: nat)

  datatype TarEntry = TarEntry(path: Bytes, kind: Kind, size: nat)

  // ---- fields ----

  function Cut(s: Bytes): (r: Bytes)
    ensures |r| <= |s| && forall i :: 0 <= i < |r| ==> r[i] == s[i] && r[i] != NUL
    ensures |r| < |s| ==> s[|r|] == NUL
  {
    if s == [] || s[0] == NUL then [] else [s[0]] + Cut(s[1..])
  }

  /** The bytes of a field up to its first NUL. */
  function Field(block: Bytes, offset: nat, length: nat): Bytes
    requires offset + length <= |block|
  {
    Cut(block[offset..offset + length])
  }

  predicate IsBlank(b: Byte) {
    b == SPACE || b == NUL
  }

  function Strip(s: Bytes): Bytes
    decreases |s|
  {
    if s != [] && IsBlank(s[0]) then Strip(s[1..])
    else if s != [] && IsBlank(s[|s| - 1]) then Strip(s[..|s| - 1])
    else s
  }

  predicate AreOctal(s: Bytes) {
    forall i :: 0 <= i < |s| ==> 0x30 <= s[i] <= 0x37
  }

  function OctalValue(s: Bytes): nat
    requires AreOctal(s)
  {
    if s == [] then 0 else OctalValue(s[..|s| - 1]) * 8 + (s[|s| - 1] - 0x30)
  }

  function ReadOctal(field: Bytes): Result<nat> {
    var value := Strip(field);
    if value == [] || !AreOctal(value) then Err(BadNumericField) else Ok(OctalValue(value))
  }

  function Octal(block: Bytes, offset: nat, length: nat): Result<nat>
    requires offset + length <= |block|
  {
    ReadOctal(Field(block, offset, length))
  }

  function Sum(s: Bytes): nat {
    if s == [] then 0 else Sum(s[..|s| - 1]) + s[|s| - 1]
  }

  const SPACES: Bytes := [0x20, 0x20, 0x20, 0x20, 0x20, 0x20, 0x20, 0x20]

  /** The header with spaces for its checksum. */
  function Blanked(block: Bytes): Bytes
    requires |block| == BLOCK
  {
    block[..148] + SPACES + block[156..]
  }

  function TypeFlag(block: Bytes): Byte
    requires |block| == BLOCK
  {
    if Field(block, 156, 1) == [] then FILE_FLAG else block[156]
  }

  function KindOf(flag: Byte): Result<Kind> {
    if flag in REJECTED_FLAGS then Err(UnsupportedExtension)
    else if flag == PAX_FLAG then Ok(PaxHeader)
    else if flag == FILE_FLAG then Ok(RegularFile)
    else if flag == DIRECTORY_FLAG then Ok(Directory)
    else Err(UnsupportedType)
  }

  /** Magic, checksum, size and type, in the order the reader checks them. */
  function ParseHeader(block: Bytes): Result<Header>
    requires |block| == BLOCK
  {
    var stored, size, kind := Octal(block, 148, 8), Octal(block, 124, 12), KindOf(TypeFlag(block));
    if Field(block, 257, 6) != USTAR then Err(NotUstar)
    else if stored.Err? then Err(stored.fault)
    else if Sum(Blanked(block)) != stored.value then Err(BadChecksum)
    else if size.Err? then Err(size.fault)
    else if kind.Err? then Err(kind.fault)
    else Ok(Header(kind.value, size.value))
  }

  function HeaderPath(block: Bytes): Result<Bytes>
    requires |block| == BLOCK
  {
    var name, prefix := Field(block, 0, 100), Field(block, 345, 155);
    if !ValidUtf8(name) || !ValidUtf8(prefix) then Err(NonUtf8Path)
    else Ok(if prefix == [] then name else prefix + [SLASH] + name)
  }

  const FILE_MODE := 420 // 0o644
  const DIRECTORY_MODE := 493 // 0o755

  /** The metadata read after an entry's data: it must be canonical. */
  function ParseEntry(block: Bytes, h: Header, paxPath: Option<Bytes>): Result<TarEntry>
    requires |block| == BLOCK
  {
    var path := match paxPath case Some(p) => Ok(p) case None => HeaderPath(block);
    var mode, uid, gid, mtime := Octal(block, 100, 8), Octal(block, 108, 8), Octal(block, 116, 8), Octal(block, 136, 12);
    var uname, gname := Field(block, 265, 32), Field(block, 297, 32);
    if path.Err? then Err(path.fault)
    else if mode.Err? || uid.Err? || gid.Err? || mtime.Err? then Err(BadNumericField)
    else if !ValidUtf8(uname) || !ValidUtf8(gname) then Err(NonUtf8Metadata)
    else if mode.value != (if h.kind == Directory then DIRECTORY_MODE else FILE_MODE) ||
            uid.value != 0 || gid.value != 0 || mtime.value != 0 || uname != [] || gname != [] ||
            (h.kind == Directory && h.size != 0) then Err(NotCanonical)
    else Ok(TarEntry(path.value, h.kind, h.size))
  }

  predicate IsZero(s: Bytes) {
    forall i :: 0 <= i < |s| ==> s[i] == NUL
  }

  lemma ZeroIsNoHeader(block: Bytes)
    requires |block| == BLOCK && IsZero(block)
    ensures ParseHeader(block) == Err(NotUstar)
  {
    assert block[257..263][0] == NUL;
    assert Field(block, 257, 6) == [];
  }

  /** A path that an entry takes from its header is well-formed text. */
  lemma HeaderPathIsText(block: Bytes)
    requires |block| == BLOCK && HeaderPath(block).Ok?
    ensures ValidUtf8(HeaderPath(block).value)
  {
    var name, prefix := Field(block, 0, 100), Field(block, 345, 155);
    hide Field;
    assert ValidUtf8([SLASH]) by { assert CharacterLength([SLASH]) == 1; }
    if prefix != [] {
      Utf8Concat(prefix, [SLASH]);
      Utf8Concat(prefix + [SLASH], name);
    }
  }

  // ---- writing a header ----

  function Octals(n: nat, width: nat): (s: Bytes)
    ensures |s| == width && AreOctal(s)
  {
    if width == 0 then [] else Octals(n / 8, width - 1) + [0x30 + n % 8]
  }

  function PowerOfEight(width: nat): nat {
    if width == 0 then 1 else 8 * PowerOfEight(width - 1)
  }

  lemma {:induction false} OctalsValue(n: nat, width: nat)
    requires n < PowerOfEight(width)
    ensures OctalValue(Octals(n, width)) == n
  {
    if width > 0 {
      OctalsValue(n / 8, width - 1);
      assert Octals(n, width)[..width - 1] == Octals(n / 8, width - 1);
    }
  }

  function Nuls(n: nat): (s: Bytes)
    ensures |s| == n && IsZero(s)
  {
    seq(n, i => NUL)
  }

  /** A number in a field of `width + 1` bytes or more: octal digits, then `rest`, which starts with NUL. */
  lemma OctalField(n: nat, width: nat, field: Bytes)
    requires n < PowerOfEight(width) && 0 < width < |field|
    requires field[..width] == Octals(n, width) && field[width] == NUL
    ensures ReadOctal(Cut(field)) == Ok(n)
  {
    CutAt(field, width);
    OctalsValue(n, width);
    hide Octals, OctalValue;
    assert Strip(Octals(n, width)) == Octals(n, width);
  }

  lemma {:induction false} CutAt(s: Bytes, n: nat)
    requires n < |s| && s[n] == NUL && forall i :: 0 <= i < n ==> s[i] != NUL
    ensures Cut(s) == s[..n]
  {
    if n > 0 {
      CutAt(s[1..], n - 1);
      assert s[..n] == [s[0]] + s[1..][..n - 1];
    }
  }

  lemma {:induction false} CutPadded(s: Bytes, n: nat)
    requires forall i :: 0 <= i < |s| ==> s[i] != NUL
    ensures Cut(s + Nuls(n)) == s
  {
    if s == [] {
      assert s + Nuls(n) == Nuls(n);
    } else {
      assert (s + Nuls(n))[1..] == s[1..] + Nuls(n);
      CutPadded(s[1..], n);
    }
  }

  function Padded(s: Bytes, width: nat): (r: Bytes)
    requires |s| <= width
    ensures |r| == width
  {
    s + Nuls(width - |s|)
  }

  datatype Fields = Fields(
    name: Bytes, mode: Bytes, size: Bytes, checksum: Bytes, flag: Byte, prefix: Bytes)

  predicate Sized(f: Fields) {
    |f.name| == 100 && |f.mode| == 8 && |f.size| == 12 && |f.checksum| == 8 && |f.prefix| == 155
  }

  /** Zero owner and time, no link, no owner names, no device. */
  function ByteAt(f: Fields, i: nat): Byte
    requires Sized(f) && i < BLOCK
  {
    if i < 100 then f.name[i]
    else if i < 108 then f.mode[i - 100]
    else if i < 124 then if i == 115 || i == 123 then NUL else ZERO
    else if i < 136 then f.size[i - 124]
    else if i < 148 then if i == 147 then NUL else ZERO
    else if i < 156 then f.checksum[i - 148]
    else if i == 156 then f.flag
    else if i < 257 then NUL
    else if i < 262 then USTAR[i - 257]
    else if i == 263 || i == 264 then ZERO
    else if 345 <= i < 500 then f.prefix[i - 345]
    else NUL
  }

  function Block(f: Fields): (block: Bytes)
    requires Sized(f)
    ensures |block| == BLOCK && forall i :: 0 <= i < BLOCK ==> block[i] == ByteAt(f, i)
  {
    seq(BLOCK, i requires 0 <= i < BLOCK => ByteAt(f, i))
  }

  lemma BlockFields(f: Fields)
    requires Sized(f)
    ensures var b := Block(f);
            b[0..100] == f.name && b[100..108] == f.mode && b[124..136] == f.size && b[148..156] == f.checksum &&
            b[156] == f.flag && b[345..500] == f.prefix
  {
  }

  lemma BlockConstants(f: Fields)
    requires Sized(f)
    ensures var b := Block(f);
            b[108..116] == Octals(0, 7) + [NUL] && b[116..124] == Octals(0, 7) + [NUL] &&
            b[136..148] == Octals(0, 11) + [NUL] && b[257..263] == USTAR + [NUL] &&
            b[265..297] == Nuls(32) && b[297..329] == Nuls(32)
  {
    ZeroOctals(7);
    ZeroOctals(11);
  }

  lemma {:induction false} ZeroOctals(width: nat)
    ensures forall i :: 0 <= i < width ==> Octals(0, width)[i] == ZERO
  {
    if width > 0 {
      ZeroOctals(width - 1);
    }
  }

  lemma {:induction false} SumBound(s: Bytes)
    ensures Sum(s) <= 255 * |s|
  {
    if s != [] {
      SumBound(s[..|s| - 1]);
    }
  }

  /** The fields of a header that carries its own checksum. */
  function Checked(f: Fields): Fields
    requires Sized(f)
  {
    f.(checksum := Octals(Sum(Block(f.(checksum := SPACES))), 6) + [NUL, SPACE])
  }

  /** Every checksum fits: 512 bytes add up to less than 8^6. */
  lemma ChecksumFits(block: Bytes)
    requires |block| == BLOCK
    ensures Sum(block) < PowerOfEight(6)
  {
    SumBound(block);
    assert PowerOfEight(3) == 512;
    assert PowerOfEight(6) == 262144;
  }

  lemma CheckedBlock(f: Fields)
    requires Sized(f)
    ensures Sized(Checked(f))
    ensures Octal(Block(Checked(f)), 148, 8) == Ok(Sum(Blanked(Block(Checked(f)))))
  {
    hide Octals, Sum;
    var blank := Block(f.(checksum := SPACES));
    var sum := Sum(blank);
    var block := Block(Checked(f));
    assert Blanked(block) == blank;
    ChecksumFits(blank);
    BlockFields(Checked(f));
    var field := block[148..156];
    assert field == Octals(sum, 6) + [NUL, SPACE];
    OctalField(sum, 6, field);
  }

  function FlagOf(kind: Kind): Byte {
    match kind
    case PaxHeader => PAX_FLAG
    case RegularFile => FILE_FLAG
    case Directory => DIRECTORY_FLAG
  }

  function ModeOf(kind: Kind): nat {
    if kind == Directory then DIRECTORY_MODE else FILE_MODE
  }

  /** Names a ustar header can hold. */
  predicate Storable(name: Bytes, prefix: Bytes) {
    |name| <= 100 && |prefix| <= 155 &&
    (forall i :: 0 <= i < |name| ==> name[i] != NUL) && forall i :: 0 <= i < |prefix| ==> prefix[i] != NUL
  }

  const MAX_ENTRY_BYTES := 8589934592 // 8^11

  function FieldsOf(name: Bytes, prefix: Bytes, kind: Kind, size: nat): (f: Fields)
    requires Storable(name, prefix)
    ensures Sized(f)
  {
    Fields(Padded(name, 100), Octals(ModeOf(kind), 7) + [NUL], Octals(size, 11) + [NUL], SPACES, FlagOf(kind),
           Padded(prefix, 155))
  }

  function EncodeHeader(name: Bytes, prefix: Bytes, kind: Kind, size: nat): (block: Bytes)
    requires Storable(name, prefix)
    ensures |block| == BLOCK
  {
    CheckedBlock(FieldsOf(name, prefix, kind, size));
    Block(Checked(FieldsOf(name, prefix, kind, size)))
  }

  lemma PowersOfEight()
    ensures PowerOfEight(7) == 2097152 && PowerOfEight(11) == MAX_ENTRY_BYTES
  {
    assert PowerOfEight(3) == 512;
    assert PowerOfEight(5) == 32768;
    assert PowerOfEight(7) == 2097152;
    assert PowerOfEight(9) == 134217728;
  }

  lemma EncodedHeaderParses(name: Bytes, prefix: Bytes, kind: Kind, size: nat)
    requires Storable(name, prefix) && size < MAX_ENTRY_BYTES
    ensures ParseHeader(EncodeHeader(name, prefix, kind, size)) == Ok(Header(kind, size))
  {
    hide Octals, Sum, Block, Blanked, Octal, Field, TypeFlag, PowerOfEight;
    var f := FieldsOf(name, prefix, kind, size);
    var block := EncodeHeader(name, prefix, kind, size);
    CheckedBlock(f);
    BlockFields(Checked(f));
    BlockConstants(Checked(f));
    hide Checked;
    EncodedMagic(block);
    EncodedSize(block, size);
    FlagStays(block);
  }

  lemma EncodedMagic(block: Bytes)
    requires |block| == BLOCK && block[257..263] == USTAR + [NUL]
    ensures Field(block, 257, 6) == USTAR
  {
    CutAt(block[257..263], 5);
    assert (USTAR + [NUL])[..5] == USTAR;
  }

  lemma EncodedSize(block: Bytes, size: nat)
    requires |block| == BLOCK && size < MAX_ENTRY_BYTES && block[124..136] == Octals(size, 11) + [NUL]
    ensures Octal(block, 124, 12) == Ok(size)
  {
    PowersOfEight();
    hide Octals, PowerOfEight, ReadOctal, Cut;
    OctalField(size, 11, block[124..136]);
  }

  lemma FlagStays(block: Bytes)
    requires |block| == BLOCK && block[156] != NUL
    ensures TypeFlag(block) == block[156]
  {
    assert block[156..157] == [block[156]];
    assert Cut([block[156]]) == [block[156]] + Cut([]);
  }

  lemma EncodedHeaderEntry(name: Bytes, prefix: Bytes, kind: Kind, size: nat, paxPath: Option<Bytes>)
    requires Storable(name, prefix) && kind != PaxHeader
    requires kind == Directory ==> size == 0
    requires paxPath == None ==> ValidUtf8(name) && ValidUtf8(prefix)
    ensures ParseEntry(EncodeHeader(name, prefix, kind, size), Header(kind, size), paxPath) ==
            Ok(TarEntry(match paxPath
                        case Some(path) => path
                        case None => if prefix == [] then name else prefix + [SLASH] + name, kind, size))
  {
    hide Octals, Sum, Block, Octal, Field, ValidUtf8;
    var f := Checked(FieldsOf(name, prefix, kind, size));
    var block := EncodeHeader(name, prefix, kind, size);
    BlockFields(f);
    BlockConstants(f);
    hide FieldsOf, EncodeHeader;
    if paxPath == None {
      EncodedPath(block, name, prefix);
    }
    EncodedNumbers(block, kind);
    EncodedOwner(block);
  }

  lemma EncodedOwner(block: Bytes)
    requires |block| == BLOCK && block[265..297] == Nuls(32) && block[297..329] == Nuls(32)
    ensures Field(block, 265, 32) == [] && Field(block, 297, 32) == [] && ValidUtf8([])
  {
    CutPadded([], 32);
    assert [] + Nuls(32) == Nuls(32);
  }

  lemma EncodedPath(block: Bytes, name: Bytes, prefix: Bytes)
    requires |block| == BLOCK && Storable(name, prefix) && ValidUtf8(name) && ValidUtf8(prefix)
    requires block[0..100] == Padded(name, 100) && block[345..500] == Padded(prefix, 155)
    ensures HeaderPath(block) == Ok(if prefix == [] then name else prefix + [SLASH] + name)
  {
    hide ValidUtf8, Cut;
    CutPadded(name, 100 - |name|);
    CutPadded(prefix, 155 - |prefix|);
  }

  lemma EncodedNumbers(block: Bytes, kind: Kind)
    requires |block| == BLOCK && block[100..108] == Octals(ModeOf(kind), 7) + [NUL]
    requires block[108..116] == Octals(0, 7) + [NUL] && block[116..124] == Octals(0, 7) + [NUL]
    requires block[136..148] == Octals(0, 11) + [NUL]
    ensures Octal(block, 100, 8) == Ok(ModeOf(kind)) && Octal(block, 108, 8) == Ok(0) && Octal(block, 116, 8) == Ok(0)
    ensures Octal(block, 136, 12) == Ok(0)
  {
    PowersOfEight();
    hide Octals, ReadOctal, Cut, PowerOfEight;
    OctalField(ModeOf(kind), 7, block[100..108]);
    OctalField(0, 7, block[108..116]);
    OctalField(0, 7, block[116..124]);
    OctalField(0, 11, block[136..148]);
  }
}
