/** Pages and their byte layout (src/pager/page.rs). Hashes, compressors and ciphers are library
    calls: they are the fields of a `Library` value about which only their contracts are known. */
module Pages {
  import opened Wrappers
  import opened Bytes

  type PageId = nat

  datatype PageType =
    | Free | Superblock | FreeList | BTreeInternal | BTreeLeaf | HashBucket | ArtNode4 | ArtNode16 | ArtNode48
    | ArtNode256 | LsmMeta | LsmData | Catalog | Overflow | BloomMeta | BloomData | BloomFilter | InvertedIndex
    | RTreeNode | GraphAdjList | VectorIndex | TimeSeriesBucket | IndexMetadata
  {
    function ToU8(): byte {
      match this
      case Free => 0 case Superblock => 1 case FreeList => 2 case BTreeInternal => 3 case BTreeLeaf => 4
      case HashBucket => 5 case ArtNode4 => 6 case ArtNode16 => 7 case ArtNode48 => 8 case ArtNode256 => 9
      case LsmMeta => 10 case LsmData => 11 case Catalog => 12 case Overflow => 13 case BloomMeta => 14
      case BloomData => 15 case BloomFilter => 16 case InvertedIndex => 17 case RTreeNode => 18
      case GraphAdjList => 19 case VectorIndex => 20 case TimeSeriesBucket => 21 case IndexMetadata => 33
    }

    static function FromU8(v: byte): Option<PageType> {
      match v
      case 0 => Some(Free) case 1 => Some(Superblock) case 2 => Some(FreeList) case 3 => Some(BTreeInternal)
      case 4 => Some(BTreeLeaf) case 5 => Some(HashBucket) case 6 => Some(ArtNode4) case 7 => Some(ArtNode16)
      case 8 => Some(ArtNode48) case 9 => Some(ArtNode256) case 10 => Some(LsmMeta) case 11 => Some(LsmData)
      case 12 => Some(Catalog) case 13 => Some(Overflow) case 16 => Some(BloomFilter) case 17 => Some(InvertedIndex)
      case 18 => Some(RTreeNode) case 19 => Some(GraphAdjList) case 20 => Some(VectorIndex)
      case 21 => Some(TimeSeriesBucket) case 33 => Some(IndexMetadata)
      case _ => None
    }

    /** The types a page can be read back as. */
    predicate Decodable() {
      this != BloomMeta && this != BloomData
    }
  }

  datatype CompressionType = NoCompression | Lz4 | Zstd
  {
    function ToU8(): byte {
      match this case NoCompression => 0 case Lz4 => 1 case Zstd => 2
    }

    static function FromU8(v: byte): Option<CompressionType> {
      match v case 0 => Some(NoCompression) case 1 => Some(Lz4) case 2 => Some(Zstd) case _ => None
    }
  }

  datatype EncryptionType = NoEncryption | Aes256Gcm
  {
    function ToU8(): byte {
      match this case NoEncryption => 0 case Aes256Gcm => 1
    }

    static function FromU8(v: byte): Option<EncryptionType> {
      match v case 0 => Some(NoEncryption) case 1 => Some(Aes256Gcm) case _ => None
    }
  }

  datatype PagerError =
    | InsufficientBuffer | InvalidPageType(tag: byte) | InvalidCompressionType(tag: byte) | InvalidEncryptionType(tag: byte)
    | InvalidDataLength(id: PageId) | ChecksumMismatch(id: PageId) | MissingEncryptionKey | CompressionError
    | DecompressionError | EncryptionError | DecryptionError | InvalidMagic(found: nat) | InvalidPageId(id: PageId)
    | PageNotFound(id: PageId) | PageAlreadyFree(id: PageId) | InternalError | InvalidSuperblock

  datatype PageHeader = PageHeader(
    pageId: PageId, pageType: PageType, compression: CompressionType, encryption: EncryptionType, flags: byte,
    uncompressedSize: nat, compressedSize: nat, virtualPageId: PageId)
  {
    /** Every field fits the width it is stored with. */
    predicate Fits() {
      pageId < U64 && uncompressedSize < U32 && compressedSize < U32 && virtualPageId < U64
    }
  }

  datatype Page = Page(header: PageHeader, data: Bytes)

  function NewPage(id: PageId, t: PageType): Page {
    Page(PageHeader(id, t, NoCompression, NoEncryption, 0, 0, 0, 0), [])
  }

  const HEADER_SIZE := 32
  const CHECKSUM_SIZE := 32
  const NONCE_SIZE := 12

  // ---------------------------------------------------------------------------
  // Library calls
  // ---------------------------------------------------------------------------

  datatype Library = Library(
    sha256: Bytes -> Bytes,
    crc32: Bytes -> nat,
    compress: (CompressionType, Bytes) -> Option<Bytes>,
    decompress: (CompressionType, Bytes) -> Option<Bytes>,
    encrypt: (Bytes, Bytes, Bytes) -> Option<Bytes>,
    decrypt: (Bytes, Bytes, Bytes) -> Option<Bytes>)
  {
    /** Digests have their documented width, and decoding undoes encoding. */
    ghost predicate Valid() {
      && (forall b :: |sha256(b)| == CHECKSUM_SIZE)
      && (forall b :: crc32(b) < U32)
      && (forall k, b :: compress(k, b).Some? ==> decompress(k, compress(k, b).value) == Some(b))
      && (forall key, nonce, b :: encrypt(key, nonce, b).Some? ==> decrypt(key, nonce, encrypt(key, nonce, b).value) == Some(b))
    }
  }

  // ---------------------------------------------------------------------------
  // Header
  // ---------------------------------------------------------------------------

  function HeaderBytes(h: PageHeader): (b: Bytes)
    ensures |b| == HEADER_SIZE
  {
    ToLe(h.pageId, 8) + [h.pageType.ToU8(), h.compression.ToU8(), h.encryption.ToU8(), h.flags]
    + ToLe(h.uncompressedSize, 4) + ToLe(h.compressedSize, 4) + Zeros(4) + ToLe(h.virtualPageId, 8)
  }

  function ParseHeader(b: Bytes): Result<PageHeader, PagerError> {
    if |b| < HEADER_SIZE then Err(InsufficientBuffer)
    else
      var pageId := FromLe(b[0..8]);
      var pageType := PageType.FromU8(b[8]);
      if pageType.None? then Err(InvalidPageType(b[8]))
      else
        var compression := CompressionType.FromU8(b[9]);
        if compression.None? then Err(InvalidCompressionType(b[9]))
        else
          var encryption := EncryptionType.FromU8(b[10]);
          if encryption.None? then Err(InvalidEncryptionType(b[10]))
          else
            Ok(PageHeader(pageId, pageType.value, compression.value, encryption.value, b[11],
                          FromLe(b[12..16]), FromLe(b[16..20]), FromLe(b[24..32])))
  }

  /** Where each field of a header lies. */
  lemma HeaderLayout(h: PageHeader)
    ensures var b := HeaderBytes(h);
            && b[0..8] == ToLe(h.pageId, 8)
            && b[8] == h.pageType.ToU8() && b[9] == h.compression.ToU8() && b[10] == h.encryption.ToU8() && b[11] == h.flags
            && b[12..16] == ToLe(h.uncompressedSize, 4)
            && b[16..20] == ToLe(h.compressedSize, 4)
            && b[24..32] == ToLe(h.virtualPageId, 8)
  {
    Parts(ToLe(h.pageId, 8), [h.pageType.ToU8(), h.compression.ToU8(), h.encryption.ToU8(), h.flags],
          ToLe(h.uncompressedSize, 4), ToLe(h.compressedSize, 4), Zeros(4), ToLe(h.virtualPageId, 8));
  }

  lemma Parts(p0: Bytes, p1: Bytes, p2: Bytes, p3: Bytes, p4: Bytes, p5: Bytes)
    requires |p0| == 8 && |p1| == |p2| == |p3| == |p4| == 4 && |p5| == 8
    ensures var b := p0 + p1 + p2 + p3 + p4 + p5;
            && |b| == 32 && b[0..8] == p0 && b[12..16] == p2 && b[16..20] == p3 && b[24..32] == p5
            && b[8] == p1[0] && b[9] == p1[1] && b[10] == p1[2] && b[11] == p1[3]
  {
  }

  /** A header survives a round trip exactly when its page type is one the decoder knows. */
  lemma HeaderRoundTripIff(h: PageHeader)
    requires h.Fits()
    ensures ParseHeader(HeaderBytes(h)) == Ok(h) <==> h.pageType.Decodable()
    ensures !h.pageType.Decodable() ==> ParseHeader(HeaderBytes(h)) == Err(InvalidPageType(h.pageType.ToU8()))
  {
    HeaderLayout(h);
    Le64(h.pageId);
    Le64(h.virtualPageId);
    Le32(h.uncompressedSize);
    Le32(h.compressedSize);
    hide ToLe, FromLe, HeaderBytes;
    assert CompressionType.FromU8(h.compression.ToU8()) == Some(h.compression);
    assert EncryptionType.FromU8(h.encryption.ToU8()) == Some(h.encryption);
  }

  /** The type codes of the file format, by position, and the one that stands apart. */
  const TypeTable := [
    PageType.Free, PageType.Superblock, PageType.FreeList, BTreeInternal, BTreeLeaf, HashBucket, ArtNode4, ArtNode16,
    ArtNode48, ArtNode256, LsmMeta, LsmData, Catalog, PageType.Overflow, BloomMeta, BloomData, BloomFilter,
    InvertedIndex, RTreeNode, GraphAdjList, VectorIndex, TimeSeriesBucket]

  /** Codes are positions in the table, and a code is read back as its type unless it is 14 or 15. */
  lemma TypeCodes(t: PageType, v: byte)
    ensures (|TypeTable| == 22 && v < 22 && TypeTable[v] == t) || (v == 33 && t == IndexMetadata) <==> t.ToU8() == v
    ensures PageType.FromU8(v) == Some(t) <==> t.ToU8() == v && v != 14 && v != 15
    ensures PageType.FromU8(v).Some? <==> v < 14 || 16 <= v < 22 || v == 33
  {
  }

  lemma OtherCodes(v: byte)
    ensures CompressionType.FromU8(v) == if v < 3 then Some([NoCompression, Lz4, Zstd][v]) else None
    ensures EncryptionType.FromU8(v) == if v < 2 then Some([NoEncryption, Aes256Gcm][v]) else None
    ensures v < 3 ==> [NoCompression, Lz4, Zstd][v].ToU8() == v
    ensures v < 2 ==> [NoEncryption, Aes256Gcm][v].ToU8() == v
  {
  }

  predicate KnownCodes(b: Bytes)
    requires |b| >= 32
  {
    (b[8] < 14 || 16 <= b[8] < 22 || b[8] == 33) && b[9] < 3 && b[10] < 2
  }

  /** The first code that is not known. */
  function CodeError(b: Bytes): PagerError
    requires |b| >= 32
  {
    if !(b[8] < 14 || 16 <= b[8] < 22 || b[8] == 33) then InvalidPageType(b[8])
    else if b[9] >= 3 then InvalidCompressionType(b[9])
    else InvalidEncryptionType(b[10])
  }

  /** Every 32 bytes with known codes are a header, and writing that header gives the bytes back with the
      reserved ones zeroed. */
  lemma ParsedHeaderIs(b: Bytes)
    requires |b| == 32
    ensures ParseHeader(b).Ok? <==> KnownCodes(b)
    ensures !KnownCodes(b) ==>
              ParseHeader(b).error == CodeError(b)
    ensures KnownCodes(b) ==>
              var h := ParseHeader(b).value;
              && HeaderBytes(h) == b[0..20] + [0, 0, 0, 0] + b[24..32]
              && h.pageId == FromLe(b[0..8]) && h.flags == b[11] && h.uncompressedSize == FromLe(b[12..16])
              && h.compressedSize == FromLe(b[16..20]) && h.virtualPageId == FromLe(b[24..32])
              && h.pageType.ToU8() == b[8] && h.compression.ToU8() == b[9] && h.encryption.ToU8() == b[10]
  {
    hide ToLe, FromLe, PageType.FromU8, PageType.ToU8, CompressionType.FromU8, CompressionType.ToU8,
         EncryptionType.FromU8, EncryptionType.ToU8;
    TypeCodes(PageType.Free, b[8]);
    OtherCodes(b[9]);
    OtherCodes(b[10]);
    if KnownCodes(b) {
      TypeCodes(ParseHeader(b).value.pageType, b[8]);
      LeInverse(b[0..8]);
      LeInverse(b[12..16]);
      LeInverse(b[16..20]);
      LeInverse(b[24..32]);
      assert Zeros(4) == [0, 0, 0, 0];
      Joined(b);
    }
  }

  lemma Joined(b: Bytes)
    requires |b| == 32
    ensures b[0..8] + [b[8], b[9], b[10], b[11]] + b[12..16] + b[16..20] + [0, 0, 0, 0] + b[24..32]
            == b[0..20] + [0, 0, 0, 0] + b[24..32]
  {
  }

  // ---------------------------------------------------------------------------
  // Page
  // ---------------------------------------------------------------------------

  /** What is hashed into the trailing checksum. */
  function Digest(lib: Library, h: PageHeader, stored: Bytes): Bytes {
    lib.sha256(HeaderBytes(h) + ToLe(|stored| % U32, 4) + stored)
  }

  function Compressed(lib: Library, kind: CompressionType, data: Bytes): Result<Bytes, PagerError> {
    if kind.NoCompression? then Ok(data)
    else
      var c := lib.compress(kind, data);
      if c.None? then Err(CompressionError) else Ok(c.value)
  }

  /** Encrypted data starts with its nonce. */
  function Encrypted(lib: Library, kind: EncryptionType, key: Option<Bytes>, nonce: Bytes, data: Bytes)
    : Result<Bytes, PagerError>
  {
    if kind.NoEncryption? then Ok(data)
    else if key.None? then Err(MissingEncryptionKey)
    else
      var c := lib.encrypt(key.value, nonce, data);
      if c.None? then Err(EncryptionError) else Ok(nonce + c.value)
  }

  /** The data as stored and the header as written, with both sizes filled in. */
  function Prepared(lib: Library, p: Page, key: Option<Bytes>, nonce: Bytes): Result<(PageHeader, Bytes), PagerError> {
    var c := Compressed(lib, p.header.compression, p.data);
    if c.Err? then Err(c.error)
    else
      var e := Encrypted(lib, p.header.encryption, key, nonce, c.value);
      if e.Err? then Err(e.error)
      else Ok((p.header.(uncompressedSize := |p.data| % U32, compressedSize := |e.value| % U32), e.value))
  }

  /** `Page::to_bytes`; the random nonce is a parameter. */
  function ToBytes(lib: Library, p: Page, pageSize: nat, key: Option<Bytes>, nonce: Bytes): Result<Bytes, PagerError>
    requires pageSize >= CHECKSUM_SIZE
  {
    var r := Prepared(lib, p, key, nonce);
    if r.Err? then Err(r.error)
    else
      var (h, stored) := r.value;
      Ok(Padded(HeaderBytes(h) + stored, pageSize - CHECKSUM_SIZE) + Digest(lib, h, stored))
  }

  function Decrypted(lib: Library, kind: EncryptionType, key: Option<Bytes>, stored: Bytes): Result<Bytes, PagerError> {
    if kind.NoEncryption? then Ok(stored)
    else if key.None? then Err(MissingEncryptionKey)
    else if |stored| < NONCE_SIZE then Err(DecryptionError)
    else
      var d := lib.decrypt(key.value, stored[..NONCE_SIZE], stored[NONCE_SIZE..]);
      if d.None? then Err(DecryptionError) else Ok(d.value)
  }

  function Decompressed(lib: Library, kind: CompressionType, data: Bytes): Result<Bytes, PagerError> {
    if kind.NoCompression? then Ok(data)
    else
      var d := lib.decompress(kind, data);
      if d.None? then Err(DecompressionError) else Ok(d.value)
  }

  function FromStored(lib: Library, h: PageHeader, stored: Bytes, key: Option<Bytes>): Result<Page, PagerError> {
    var d := Decrypted(lib, h.encryption, key, stored);
    if d.Err? then Err(d.error)
    else
      var c := Decompressed(lib, h.compression, d.value);
      if c.Err? then Err(c.error)
      else if |c.value| != h.uncompressedSize then Err(DecompressionError)
      else Ok(Page(h, c.value))
  }

  /** `Page::from_bytes`. */
  function FromBytes(lib: Library, b: Bytes, verify: bool, key: Option<Bytes>): Result<Page, PagerError> {
    if |b| < HEADER_SIZE + CHECKSUM_SIZE then Err(InsufficientBuffer)
    else
      var parsed := ParseHeader(b[0..HEADER_SIZE]);
      if parsed.Err? then Err(parsed.error)
      else
        var h := parsed.value;
        var dataEnd := HEADER_SIZE + h.compressedSize;
        if dataEnd > |b| - CHECKSUM_SIZE then Err(InvalidDataLength(h.pageId))
        else
          var stored := b[HEADER_SIZE..dataEnd];
          if verify && Digest(lib, h, stored) != b[|b| - CHECKSUM_SIZE..] then Err(ChecksumMismatch(h.pageId))
          else FromStored(lib, h, stored, key)
  }

  // ---------------------------------------------------------------------------
  // What decoding does to any bytes
  // ---------------------------------------------------------------------------

  /** The length of the stored data, as the bytes say it. */
  function StoredLength(b: Bytes): nat
    requires |b| >= 32
  {
    FromLe(b[16..20])
  }

  /** There is room for a header, data of the length it names and a digest. */
  predicate WellFormed(b: Bytes) {
    |b| >= 64 && KnownCodes(b) && 32 + StoredLength(b) <= |b| - 32
  }

  /** The last 32 bytes are the hash of the header without its reserved bytes, the length and the stored data. */
  predicate SumIsRight(lib: Library, b: Bytes)
    requires WellFormed(b)
  {
    lib.sha256(b[0..20] + [0, 0, 0, 0] + b[24..32] + b[16..20] + b[32..32 + StoredLength(b)]) == b[|b| - 32..]
  }

  /** Stored data is decrypted with the nonce in its first 12 bytes, then decompressed. */
  predicate Unpacks(lib: Library, compression: byte, encryption: byte, key: Option<Bytes>, stored: Bytes, data: Bytes)
    requires compression < 3
  {
    var kind := [NoCompression, Lz4, Zstd][compression];
    if encryption == 0 then if compression == 0 then data == stored else lib.decompress(kind, stored) == Some(data)
    else
      && key.Some? && |stored| >= 12
      && var c := lib.decrypt(key.value, stored[..12], stored[12..]);
         c.Some? && if compression == 0 then data == c.value else lib.decompress(kind, c.value) == Some(data)
  }

  /** For every byte string: what is not well-formed is refused by name; a digest that is wrong is found exactly
      when verification is on; a right one makes verification invisible; and without it the page is the stored
      data unpacked, if that has the length the header names. */
  lemma DecodeIsExact(lib: Library, b: Bytes, key: Option<Bytes>)
    ensures !WellFormed(b) ==>
              forall verify :: FromBytes(lib, b, verify, key) ==
                Err(if |b| < 64 then InsufficientBuffer
                    else if !KnownCodes(b) then CodeError(b)
                    else InvalidDataLength(FromLe(b[0..8])))
    ensures WellFormed(b) ==>
              && (FromBytes(lib, b, true, key) == Err(ChecksumMismatch(FromLe(b[0..8]))) <==> !SumIsRight(lib, b))
              && (SumIsRight(lib, b) ==> FromBytes(lib, b, true, key) == FromBytes(lib, b, false, key))
              && (forall data :: (FromBytes(lib, b, false, key).Ok? && FromBytes(lib, b, false, key).value.data == data) <==>
                    Unpacks(lib, b[9], b[10], key, b[32..32 + StoredLength(b)], data) && |data| == FromLe(b[12..16]))
              && (FromBytes(lib, b, false, key).Ok? ==> Ok(FromBytes(lib, b, false, key).value.header) == ParseHeader(b[0..32]))
  {
    hide FromBytes, SumIsRight, Unpacks, FromLe, KnownCodes, CodeError, ParseHeader;
    if WellFormed(b) {
      AcceptedIs(lib, b, key);
    } else {
      forall verify ensures FromBytes(lib, b, verify, key) ==
                              Err(if |b| < 64 then InsufficientBuffer
                                  else if !KnownCodes(b) then CodeError(b)
                                  else InvalidDataLength(FromLe(b[0..8])))
      {
        RefusedIs(lib, b, verify, key);
      }
    }
  }

  /** The header of a page, seen in the whole page. */
  lemma HeadIs(b: Bytes)
    requires |b| >= 64
    ensures var parsed := ParseHeader(b[0..32]);
            && (parsed.Ok? <==> KnownCodes(b))
            && (!KnownCodes(b) ==> parsed == Err(CodeError(b)))
            && (KnownCodes(b) ==>
                  && HeaderBytes(parsed.value) == b[0..20] + [0, 0, 0, 0] + b[24..32]
                  && parsed.value.pageId == FromLe(b[0..8]) && parsed.value.compressedSize == StoredLength(b) < U32
                  && parsed.value.uncompressedSize == FromLe(b[12..16])
                  && parsed.value.compression.ToU8() == b[9] && parsed.value.encryption.ToU8() == b[10])
  {
    var head := b[0..32];
    ParsedHeaderIs(head);
    LittleEndian(b[16..20]);
    assert head[0..20] == b[0..20] && head[24..32] == b[24..32] && head[16..20] == b[16..20] && head[12..16] == b[12..16];
    assert head[0..8] == b[0..8];
    hide ParseHeader, HeaderBytes, FromLe;
  }

  lemma RefusedIs(lib: Library, b: Bytes, verify: bool, key: Option<Bytes>)
    requires !WellFormed(b)
    ensures FromBytes(lib, b, verify, key) ==
            Err(if |b| < 64 then InsufficientBuffer
                else if !KnownCodes(b) then CodeError(b)
                else InvalidDataLength(FromLe(b[0..8])))
  {
    hide ParseHeader, HeaderBytes, FromLe, FromStored, Digest, CodeError, KnownCodes;
    if |b| >= 64 {
      HeadIs(b);
    }
  }

  lemma AcceptedIs(lib: Library, b: Bytes, key: Option<Bytes>)
    requires WellFormed(b)
    ensures FromBytes(lib, b, true, key) == Err(ChecksumMismatch(FromLe(b[0..8]))) <==> !SumIsRight(lib, b)
    ensures SumIsRight(lib, b) ==> FromBytes(lib, b, true, key) == FromBytes(lib, b, false, key)
    ensures forall data :: (FromBytes(lib, b, false, key).Ok? && FromBytes(lib, b, false, key).value.data == data) <==>
                           Unpacks(lib, b[9], b[10], key, b[32..32 + StoredLength(b)], data) && |data| == FromLe(b[12..16])
    ensures FromBytes(lib, b, false, key).Ok? ==> Ok(FromBytes(lib, b, false, key).value.header) == ParseHeader(b[0..32])
  {
    hide ParseHeader, HeaderBytes, FromLe, FromStored, Digest, Unpacks, ToLe, KnownCodes, SumIsRight;
    HeadIs(b);
    LeInverse(b[16..20]);
    var h := ParseHeader(b[0..32]).value;
    DigestIs(lib, b, h);
    StoredIs(lib, h, b[32..32 + StoredLength(b)], key);
  }

  lemma DigestIs(lib: Library, b: Bytes, h: PageHeader)
    requires WellFormed(b) && HeaderBytes(h) == b[0..20] + [0, 0, 0, 0] + b[24..32] && ToLe(StoredLength(b), 4) == b[16..20]
    requires StoredLength(b) < U32
    ensures Digest(lib, h, b[32..32 + StoredLength(b)]) == b[|b| - 32..] <==> SumIsRight(lib, b)
  {
    hide HeaderBytes, ToLe, FromLe;
  }

  /** Unpacking stored data in terms of the library. */
  lemma StoredIs(lib: Library, h: PageHeader, stored: Bytes, key: Option<Bytes>)
    ensures forall data :: FromStored(lib, h, stored, key) == Ok(Page(h, data)) <==>
                           && Unpacks(lib, h.compression.ToU8(), h.encryption.ToU8(), key, stored, data)
                           && |data| == h.uncompressedSize
    ensures FromStored(lib, h, stored, key).Ok? ==> FromStored(lib, h, stored, key).value.header == h
    ensures FromStored(lib, h, stored, key).Err? ==> !FromStored(lib, h, stored, key).error.ChecksumMismatch?
  {
  }

  // ---------------------------------------------------------------------------
  // Round trip
  // ---------------------------------------------------------------------------

  lemma StoredRoundTrip(lib: Library, p: Page, key: Option<Bytes>, nonce: Bytes)
    requires lib.Valid() && |nonce| == NONCE_SIZE && |p.data| < U32
    requires Prepared(lib, p, key, nonce).Ok?
    ensures var (h, stored) := Prepared(lib, p, key, nonce).value;
            FromStored(lib, h, stored, key) == Ok(Page(h, p.data))
  {
    var c := Compressed(lib, p.header.compression, p.data).value;
    var (h, stored) := Prepared(lib, p, key, nonce).value;
    if p.header.encryption.Aes256Gcm? {
      var cipher := lib.encrypt(key.value, nonce, c).value;
      assert stored == nonce + cipher;
      assert stored[..NONCE_SIZE] == nonce && stored[NONCE_SIZE..] == cipher;
    }
  }

  /** The output fills the page, and is longer than it exactly when the stored data does not fit. */
  lemma EncodedLength(lib: Library, p: Page, pageSize: nat, key: Option<Bytes>, nonce: Bytes)
    requires lib.Valid() && pageSize >= CHECKSUM_SIZE && ToBytes(lib, p, pageSize, key, nonce).Ok?
    ensures var n, stored := |ToBytes(lib, p, pageSize, key, nonce).value|, Prepared(lib, p, key, nonce).value.1;
            && n == (if pageSize >= |stored| + 64 then pageSize else |stored| + 64)
            && (n == pageSize <==> |stored| + HEADER_SIZE + CHECKSUM_SIZE <= pageSize)
  {
  }

  /** The data as it is stored: compressed, then encrypted behind its nonce; `None` if a library call refuses. */
  function Packed(lib: Library, p: Page, key: Option<Bytes>, nonce: Bytes): Option<Bytes> {
    var c := if p.header.compression.NoCompression? then Some(p.data) else lib.compress(p.header.compression, p.data);
    if c.None? || p.header.encryption.NoEncryption? then c
    else if key.None? then None
    else
      var e := lib.encrypt(key.value, nonce, c.value);
      if e.None? then None else Some(nonce + e.value)
  }

  /** What is written, byte by byte: header with both sizes, packed data, zeros, and the hash of header, length
      and data; an error names the first library call that refused, or the missing key. */
  lemma EncodeIsExact(lib: Library, p: Page, pageSize: nat, key: Option<Bytes>, nonce: Bytes)
    requires lib.Valid() && pageSize >= CHECKSUM_SIZE
    ensures var r, stored := ToBytes(lib, p, pageSize, key, nonce), Packed(lib, p, key, nonce);
            && (r.Ok? <==> stored.Some?)
            && (r.Err? ==>
                  r.error == if !p.header.compression.NoCompression? && lib.compress(p.header.compression, p.data).None? then
                               CompressionError
                             else if key.None? then MissingEncryptionKey
                             else EncryptionError)
            && (r.Ok? ==>
                  var b, n := r.value, |stored.value|;
                  var h := p.header.(uncompressedSize := |p.data| % U32, compressedSize := n % U32);
                  && |b| >= 64 + n && b[0..32] == HeaderBytes(h) && b[32..32 + n] == stored.value
                  && (forall i | 32 + n <= i < |b| - 32 :: b[i] == 0)
                  && b[|b| - 32..] == lib.sha256(b[0..32] + ToLe(n % U32, 4) + stored.value))
  {
    hide HeaderBytes, ToLe;
    var r := Prepared(lib, p, key, nonce);
    if r.Ok? {
      var (h, stored) := r.value;
      assert Packed(lib, p, key, nonce) == Some(stored);
      var front, sum := Padded(HeaderBytes(h) + stored, pageSize - CHECKSUM_SIZE), Digest(lib, h, stored);
      assert |sum| == CHECKSUM_SIZE;
      EncodedParts(HeaderBytes(h), stored, front, sum);
    }
  }

  /** For every compression and encryption, every page size and every data length below 2^32: what was
      written passes verification and comes back with its sizes filled in, or the type is not decodable. */
  lemma {:induction false} PageRoundTripIff(lib: Library, p: Page, pageSize: nat, verify: bool, key: Option<Bytes>, nonce: Bytes)
    requires lib.Valid() && |nonce| == NONCE_SIZE && pageSize >= CHECKSUM_SIZE
    requires p.header.pageId < U64 && p.header.virtualPageId < U64 && |p.data| < U32
    requires Prepared(lib, p, key, nonce).Ok? && |Prepared(lib, p, key, nonce).value.1| < U32
    ensures var (h, stored) := Prepared(lib, p, key, nonce).value;
            var r := FromBytes(lib, ToBytes(lib, p, pageSize, key, nonce).value, verify, key);
            && (p.header.pageType.Decodable() ==> r == Ok(Page(h, p.data)))
            && (!p.header.pageType.Decodable() ==> r == Err(InvalidPageType(p.header.pageType.ToU8())))
  {
    var (h, stored) := Prepared(lib, p, key, nonce).value;
    assert h.Fits() && h.pageType == p.header.pageType && h.compressedSize == |stored|;
    HeaderRoundTripIff(h);
    StoredRoundTrip(lib, p, key, nonce);
    var digest := Digest(lib, h, stored);
    var front := Padded(HeaderBytes(h) + stored, pageSize - CHECKSUM_SIZE);
    assert ToBytes(lib, p, pageSize, key, nonce) == Ok(front + digest);
    assert |digest| == CHECKSUM_SIZE;
    hide *;
    DecodeParts(lib, h, stored, front, verify, key);
  }

  /** Decoding whatever has this header, data and digest in place. */
  lemma DecodeParts(lib: Library, h: PageHeader, stored: Bytes, front: Bytes, verify: bool, key: Option<Bytes>)
    requires h.compressedSize == |stored| && HeaderBytes(h) + stored <= front && |Digest(lib, h, stored)| == CHECKSUM_SIZE
    ensures var parsed := ParseHeader(HeaderBytes(h));
            var r := FromBytes(lib, front + Digest(lib, h, stored), verify, key);
            && (parsed.Err? ==> r == Err(parsed.error))
            && (parsed == Ok(h) ==> r == FromStored(lib, h, stored, key))
  {
    hide HeaderBytes, ParseHeader, FromStored, Digest;
    EncodedParts(HeaderBytes(h), stored, front, Digest(lib, h, stored));
  }

  lemma EncodedParts(head: Bytes, stored: Bytes, front: Bytes, digest: Bytes)
    requires |head| == HEADER_SIZE && |digest| == CHECKSUM_SIZE && head + stored <= front
    ensures var b := front + digest;
            && b[0..HEADER_SIZE] == head
            && b[HEADER_SIZE..HEADER_SIZE + |stored|] == stored
            && b[|b| - CHECKSUM_SIZE..] == digest
  {
    var b := front + digest;
    assert front[..|head + stored|] == head + stored;
    assert b[..|head + stored|] == head + stored;
  }

  // ---------------------------------------------------------------------------
  // Overflow page header
  // ---------------------------------------------------------------------------

  datatype OverflowPageHeader = OverflowPageHeader(nextPageId: nat, dataLength: nat, checksum: nat)
  {
    predicate IsLast() {
      nextPageId == 0
    }

    predicate Fits() {
      nextPageId < U32 && dataLength < U32 && checksum < U32
    }
  }

  const OVERFLOW_MAGIC := 0x4F56_4C46
  const OVERFLOW_HEADER_SIZE := 32

  function OverflowHeaderBytes(h: OverflowPageHeader): (b: Bytes)
    ensures |b| == OVERFLOW_HEADER_SIZE
  {
    ToLe(OVERFLOW_MAGIC, 4) + ToLe(h.nextPageId, 4) + ToLe(h.dataLength, 4) + ToLe(h.checksum, 4) + Zeros(16)
  }

  function ParseOverflowHeader(b: Bytes): Result<OverflowPageHeader, PagerError> {
    if |b| < OVERFLOW_HEADER_SIZE then Err(InsufficientBuffer)
    else
      var magic := FromLe(b[0..4]);
      if magic != OVERFLOW_MAGIC then Err(InvalidMagic(magic))
      else Ok(OverflowPageHeader(FromLe(b[4..8]), FromLe(b[8..12]), FromLe(b[12..16])))
  }

  /** The header is recovered from the front of a page whatever data follows it. */
  lemma OverflowHeaderRoundTrip(h: OverflowPageHeader, data: Bytes)
    requires h.Fits()
    ensures ParseOverflowHeader(OverflowHeaderBytes(h) + data) == Ok(h)
  {
    FourParts(ToLe(OVERFLOW_MAGIC, 4), ToLe(h.nextPageId, 4), ToLe(h.dataLength, 4), ToLe(h.checksum, 4), Zeros(16), data);
    Le32(OVERFLOW_MAGIC);
    Le32(h.nextPageId);
    Le32(h.dataLength);
    Le32(h.checksum);
    hide ToLe, FromLe, Zeros;
  }

  lemma FourParts(p0: Bytes, p1: Bytes, p2: Bytes, p3: Bytes, p4: Bytes, p5: Bytes)
    requires |p0| == |p1| == |p2| == |p3| == 4
    ensures var b := p0 + p1 + p2 + p3 + p4 + p5;
            b[0..4] == p0 && b[4..8] == p1 && b[8..12] == p2 && b[12..16] == p3
  {
  }
}
