/** Overflow chains (src/pager/pagefile.rs): values of any length in linked pages. */
module Overflow {
  import opened Wrappers
  import opened Collections
  import opened Bytes
  import opened Pages
  import opened Lru
  import VersionChains
  import opened PageMappers
  import opened Allocator
  import opened Pagers
  import opened PagerRuns

  // ---------------------------------------------------------------------------
  // One page
  // ---------------------------------------------------------------------------

  datatype Chunk = Chunk(data: Bytes, next: PageId)

  /** The check both readers make before they use a page. */
  function ReadChunk(lib: Library, c: Content): Result<Chunk, PagerError> {
    if !c.pageType.Overflow? then Err(InternalError)
    else
      var header := ParseOverflowHeader(c.data);
      if header.Err? then Err(header.error)
      else if OVERFLOW_HEADER_SIZE + header.value.dataLength > |c.data| then Err(InternalError)
      else
        var data := c.data[OVERFLOW_HEADER_SIZE..OVERFLOW_HEADER_SIZE + header.value.dataLength];
        if lib.crc32(data) != header.value.checksum then Err(InternalError)
        else Ok(Chunk(data, header.value.nextPageId))
  }

  /** The lighter check made when a chain is freed. */
  function ReadNext(c: Content): Result<PageId, PagerError> {
    if !c.pageType.Overflow? then Err(InternalError)
    else
      var header := ParseOverflowHeader(c.data);
      if header.Err? then Err(header.error) else Ok(header.value.nextPageId)
  }

  /** An overflow page by its bytes: the type and the magic number. */
  predicate HasHeader(c: Content) {
    c.pageType.Overflow? && |c.data| >= 32 && c.data[0..4] == [0x46, 0x4C, 0x56, 0x4F]
  }

  /** The length at offset 8 fits, and the checksum at offset 12 is that of the data behind the header. */
  predicate Intact(lib: Library, c: Content) {
    && HasHeader(c) && 32 + FromLe(c.data[8..12]) <= |c.data|
    && lib.crc32(c.data[32..32 + FromLe(c.data[8..12])]) == FromLe(c.data[12..16])
  }

  /** For every page: the readers accept it if and only if its bytes are intact, and take the data and the
      pointer at offset 4 from them; freeing asks for the header only; what is refused is refused by name. */
  lemma ReadChunkIff(lib: Library, c: Content)
    ensures ReadChunk(lib, c) == if Intact(lib, c) then Ok(Chunk(c.data[32..32 + FromLe(c.data[8..12])], FromLe(c.data[4..8])))
        else if HasHeader(c) || !c.pageType.Overflow? then Err(InternalError)
        else if |c.data| < 32 then Err(InsufficientBuffer)
        else Err(InvalidMagic(FromLe(c.data[0..4])))
    ensures ReadNext(c) == if HasHeader(c) then Ok(FromLe(c.data[4..8]))
        else if !c.pageType.Overflow? then Err(InternalError)
        else if |c.data| < 32 then Err(InsufficientBuffer)
        else Err(InvalidMagic(FromLe(c.data[0..4])))
  {
    if |c.data| >= 32 {
      MagicBytes(c.data[0..4]);
    }
    hide FromLe;
  }

  lemma MagicBytes(b: Bytes)
    requires |b| == 4
    ensures FromLe(b) == OVERFLOW_MAGIC <==> b == [0x46, 0x4C, 0x56, 0x4F]
  {
    LittleEndian(b);
    LittleEndian([0x46, 0x4C, 0x56, 0x4F]);
    LeInverse(b);
    LeInverse([0x46, 0x4C, 0x56, 0x4F]);
  }

  /** A page as it is written: the next id keeps only its low 32 bits, and 0 ends the chain. */
  function OverflowContent(lib: Library, data: Bytes, next: Option<PageId>): Content {
    Content(PageType.Overflow,
            OverflowHeaderBytes(OverflowPageHeader(if next.Some? then next.value % U32 else 0, |data| % U32,
                lib.crc32(data))) + data)
  }

  lemma ChunkRoundTrip(lib: Library, data: Bytes, next: Option<PageId>)
    requires lib.Valid() && |data| < U32
    ensures ReadChunk(lib, OverflowContent(lib, data, next)) == Ok(Chunk(data, if next.Some? then next.value % U32 else 0))
    ensures var c := OverflowContent(lib, data, next);
            |c.data| == 32 + |data| && c.data[16..32] == Zeros(16)
  {
    ReservedBytes(lib, data, next);
    hide ParseOverflowHeader, OverflowHeaderBytes, Library.Valid;
    var h := OverflowPageHeader(if next.Some? then next.value % U32 else 0, |data| % U32, lib.crc32(data));
    CrcFits(lib, data);
    OverflowHeaderRoundTrip(h, data);
    Behind(OverflowHeaderBytes(h), data);
  }

  lemma ReservedBytes(lib: Library, data: Bytes, next: Option<PageId>)
    ensures var c := OverflowContent(lib, data, next);
            |c.data| == 32 + |data| && c.data[16..32] == Zeros(16)
  {
    var h := OverflowPageHeader(if next.Some? then next.value % U32 else 0, |data| % U32, lib.crc32(data));
    hide ToLe, Zeros;
    var front := ToLe(OVERFLOW_MAGIC, 4) + ToLe(h.nextPageId, 4) + ToLe(h.dataLength, 4) + ToLe(h.checksum, 4);
    assert OverflowHeaderBytes(h) == front + Zeros(16);
    assert OverflowHeaderBytes(h)[16..32] == Zeros(16);
    assert (OverflowHeaderBytes(h) + data)[16..32] == OverflowHeaderBytes(h)[16..32];
  }

  lemma CrcFits(lib: Library, data: Bytes)
    requires lib.Valid()
    ensures lib.crc32(data) < U32
  {
  }

  lemma Behind(head: Bytes, data: Bytes)
    ensures (head + data)[|head|..|head| + |data|] == data
  {
  }

  // ---------------------------------------------------------------------------
  // Walks and chains
  // ---------------------------------------------------------------------------

  /** What a walk does at a page: go on to another id, stop (0), or fail. */
  function Next(lib: Library, c: Content, whole: bool): Result<PageId, PagerError> {
    if whole then
      var r := ReadChunk(lib, c);
      if r.Ok? then Ok(r.value.next) else Err(r.error)
    else ReadNext(c)
  }

  ghost predicate WalkAt(lib: Library, live: map<PageId, Content>, ids: seq<PageId>, whole: bool, i: nat)
    requires i < |ids|
  {
    && ids[i] in live
    && var r := Next(lib, live[ids[i]], whole);
       if i + 1 < |ids| then r == Ok(ids[i + 1]) && ids[i + 1] != 0 else r.Err? || r == Ok(0)
  }

  /** The pages a walk from `ids[0]` visits before it stops or fails; none if it never does. */
  ghost predicate Walk(lib: Library, live: map<PageId, Content>, ids: seq<PageId>, whole: bool) {
    && ids != []
    && forall i: nat | i < |ids| :: WalkAt(lib, live, ids, whole, i)
  }

  /** A walk of whole pages that meets no error. */
  ghost predicate Chain(lib: Library, live: map<PageId, Content>, ids: seq<PageId>) {
    Walk(lib, live, ids, true) && ids[|ids| - 1] in live && ReadChunk(lib, live[ids[|ids| - 1]]).Ok?
  }

  ghost function ChainData(lib: Library, live: map<PageId, Content>, ids: seq<PageId>): Bytes {
    if ids == [] then []
    else ChainData(lib, live, ids[..|ids| - 1]) + DataAt(lib, live, ids[|ids| - 1])
  }

  ghost function DataAt(lib: Library, live: map<PageId, Content>, id: PageId): Bytes {
    if id in live && ReadChunk(lib, live[id]).Ok? then ReadChunk(lib, live[id]).value.data else []
  }

  /** Every page carries data, as in the chains that allocation makes. */
  ghost predicate NoneEmpty(lib: Library, live: map<PageId, Content>, ids: seq<PageId>) {
    forall i | 0 <= i < |ids| :: DataAt(lib, live, ids[i]) != []
  }

  /** A walk that ends visits no page twice. */
  lemma WalkIsDistinct(lib: Library, live: map<PageId, Content>, ids: seq<PageId>, whole: bool)
    requires Walk(lib, live, ids, whole)
    ensures Distinct(ids)
  {
    forall i: nat, j: nat | i < j < |ids| ensures ids[i] != ids[j] {
      NoReturn(lib, live, ids, whole, i, j);
    }
  }

  lemma {:induction false} NoReturn(lib: Library, live: map<PageId, Content>, ids: seq<PageId>, whole: bool, i: nat, j: nat)
    requires Walk(lib, live, ids, whole) && i < j < |ids|
    ensures ids[i] != ids[j]
    decreases |ids| - j
  {
    hide Next;
    assert WalkAt(lib, live, ids, whole, i) && WalkAt(lib, live, ids, whole, j);
    if j + 1 < |ids| {
      NoReturn(lib, live, ids, whole, i + 1, j + 1);
    }
  }

  /** A chain reads the same as long as its own pages keep their contents. */
  lemma ChainStays(lib: Library, live: map<PageId, Content>, live': map<PageId, Content>, ids: seq<PageId>)
    requires Chain(lib, live, ids)
    requires forall id | id in ids :: id in live && id in live' && live'[id] == live[id]
    ensures Chain(lib, live', ids) && ChainData(lib, live', ids) == ChainData(lib, live, ids)
  {
    hide Next, ReadChunk;
    forall i: nat | i < |ids| ensures WalkAt(lib, live', ids, true, i) {
      assert ids[i] in ids && WalkAt(lib, live, ids, true, i);
    }
    assert ids[|ids| - 1] in ids;
    SameData(lib, live, live', ids);
  }

  lemma {:induction false} SameData(lib: Library, live: map<PageId, Content>, live': map<PageId, Content>, ids: seq<PageId>)
    requires forall id | id in ids :: id in live && id in live' && live'[id] == live[id]
    ensures ChainData(lib, live', ids) == ChainData(lib, live, ids)
  {
    hide ReadChunk;
    if ids != [] {
      SameData(lib, live, live', ids[..|ids| - 1]);
      assert ids[|ids| - 1] in ids;
    }
  }

  predicate Touches(op: PagerRuns.Op, ids: seq<PageId>) {
    (op.Write? || op.Free?) && op.id in ids
  }

  /** A chain survives every run that neither writes nor frees its own pages. */
  lemma {:induction false} ChainSurvivesRun(lib: Library, s: Store, ops: seq<PagerRuns.Op>, ids: seq<PageId>)
    requires Chain(lib, s.live, ids) && forall id | id in ids :: id < s.next
    requires forall op | op in ops :: !Touches(op, ids)
    ensures Chain(lib, After(s, ops).live, ids) && ChainData(lib, After(s, ops).live, ids) == ChainData(lib, s.live, ids)
  {
    hide Chain, ChainData;
    if ops != [] {
      var front, op := ops[..|ops| - 1], ops[|ops| - 1];
      assert op in ops;
      ChainSurvivesRun(lib, s, front, ids);
      var t := After(s, front);
      NextGrows(s, front, 0);
      ChainIsLive(lib, t.live, ids);
      ChainStays(lib, t.live, Step(t, op).live, ids);
    }
  }

  lemma ChainIsLive(lib: Library, live: map<PageId, Content>, ids: seq<PageId>)
    requires Chain(lib, live, ids)
    ensures forall id | id in ids :: id in live
  {
    forall i: nat | i < |ids| ensures ids[i] in live {
      assert WalkAt(lib, live, ids, true, i);
    }
  }

  // ---------------------------------------------------------------------------
  // Cutting a value
  // ---------------------------------------------------------------------------

  function Min(a: nat, b: nat): nat {
    if a < b then a else b
  }

  function Piece(data: Bytes, size: nat, i: nat): Bytes
    requires i * size <= |data|
  {
    data[i * size..Min((i + 1) * size, |data|)]
  }

  lemma PageCount(n: nat, size: nat)
    requires size > 0
    ensures var k := DivCeil(n, size);
            && k * size >= n
            && (n > 0 ==> k > 0 && (k - 1) * size < n)
            && (n == 0 ==> k == 0)
  {
    var k := DivCeil(n, size);
    assert k == (n + size - 1) / size;
    assert n + size - 1 == size * k + (n + size - 1) % size;
  }

  lemma PieceBounds(n: nat, size: nat, i: nat)
    requires size > 0 && i < DivCeil(n, size)
    ensures i * size < n
  {
    PageCount(n, size);
    assert i * size <= (DivCeil(n, size) - 1) * size;
  }

  /** The pages `ids` hold the pieces of `data`, each pointing to the next. */
  ghost predicate WrittenAt(lib: Library, live: map<PageId, Content>, ids: seq<PageId>, data: Bytes, size: nat, i: nat)
    requires i < |ids|
  {
    && ids[i] in live && i * size <= |data|
    && live[ids[i]] == OverflowContent(lib, Piece(data, size, i), if i + 1 < |ids| then Some(ids[i + 1]) else None)
  }

  ghost predicate Written(lib: Library, live: map<PageId, Content>, ids: seq<PageId>, data: Bytes, size: nat, n: nat)
    requires n <= |ids|
  {
    forall i: nat | i < n :: WrittenAt(lib, live, ids, data, size, i)
  }

  /** Written pages form a chain exactly when every id that had to be stored as a pointer fits 32 bits. */
  lemma WrittenIsChainIff(lib: Library, live: map<PageId, Content>, ids: seq<PageId>, data: Bytes, size: nat)
    requires lib.Valid() && 0 < size < U32 && data != [] && |ids| == DivCeil(|data|, size)
    requires Written(lib, live, ids, data, size, |ids|) && forall i | 0 <= i < |ids| :: ids[i] != 0
    ensures Chain(lib, live, ids) <==> forall i | 1 <= i < |ids| :: ids[i] < U32
    ensures ChainData(lib, live, ids) == data && NoneEmpty(lib, live, ids)
  {
    hide ReadChunk, OverflowContent, ChunkAt, DataAt, NoneEmpty;
    PageCount(|data|, size);
    forall i: nat | i < |ids| ensures ChunkAt(lib, live, ids, data, size, i) {
      assert WrittenAt(lib, live, ids, data, size, i);
      WrittenChunk(lib, live, ids, data, size, i);
    }
    PiecesAreNotEmpty(lib, live, ids, data, size);
    ChunksLinkIff(lib, live, ids, data, size);
    PiecesJoin(lib, live, ids, data, size, |ids|);
    assert ids[..|ids|] == ids;
  }

  lemma PiecesAreNotEmpty(lib: Library, live: map<PageId, Content>, ids: seq<PageId>, data: Bytes, size: nat)
    requires size > 0 && |ids| == DivCeil(|data|, size)
    requires forall i: nat | i < |ids| :: ChunkAt(lib, live, ids, data, size, i)
    ensures NoneEmpty(lib, live, ids)
  {
    hide ReadChunk, DivCeil;
    forall i: nat | i < |ids| ensures DataAt(lib, live, ids[i]) != [] {
      assert ChunkAt(lib, live, ids, data, size, i);
      PieceBounds(|data|, size, i);
      assert (i + 1) * size == i * size + size;
    }
  }

  /** Page `i` reads as piece `i` and a 32-bit pointer. */
  ghost predicate ChunkAt(lib: Library, live: map<PageId, Content>, ids: seq<PageId>, data: Bytes, size: nat, i: nat)
    requires i < |ids|
  {
    && ids[i] in live
    && ReadChunk(lib, live[ids[i]]) == Ok(Chunk(PieceOr(data, size, i), if i + 1 < |ids| then ids[i + 1] % U32 else 0))
  }

  lemma ChunksLinkIff(lib: Library, live: map<PageId, Content>, ids: seq<PageId>, data: Bytes, size: nat)
    requires ids != [] && forall i | 0 <= i < |ids| :: ids[i] != 0
    requires forall i: nat | i < |ids| :: ChunkAt(lib, live, ids, data, size, i)
    ensures Chain(lib, live, ids) <==> forall i | 1 <= i < |ids| :: ids[i] < U32
  {
    hide ReadChunk, PieceOr;
    assert ChunkAt(lib, live, ids, data, size, |ids| - 1);
    if Chain(lib, live, ids) {
      forall i | 1 <= i < |ids| ensures ids[i] < U32 {
        assert WalkAt(lib, live, ids, true, i - 1) && ChunkAt(lib, live, ids, data, size, i - 1);
      }
    }
    if forall i | 1 <= i < |ids| :: ids[i] < U32 {
      forall i: nat | i < |ids| ensures WalkAt(lib, live, ids, true, i) {
        assert ChunkAt(lib, live, ids, data, size, i);
      }
    }
  }

  function PieceOr(data: Bytes, size: nat, i: nat): Bytes {
    if i * size <= |data| then Piece(data, size, i) else []
  }

  lemma WrittenChunk(lib: Library, live: map<PageId, Content>, ids: seq<PageId>, data: Bytes, size: nat, i: nat)
    requires lib.Valid() && 0 < size < U32 && i < |ids| && WrittenAt(lib, live, ids, data, size, i)
    ensures ChunkAt(lib, live, ids, data, size, i)
  {
    hide ReadChunk, OverflowContent;
    assert (i + 1) * size == i * size + size;
    ChunkRoundTrip(lib, Piece(data, size, i), if i + 1 < |ids| then Some(ids[i + 1]) else None);
  }

  /** As much of the value as the first `n` pieces hold. */
  function Front(data: Bytes, size: nat, n: nat): Bytes {
    data[..Min(n * size, |data|)]
  }

  /** The first pieces joined are the front of the value. */
  lemma {:induction false} PiecesJoin(lib: Library, live: map<PageId, Content>, ids: seq<PageId>, data: Bytes, size: nat, n: nat)
    requires size > 0 && n <= |ids| == DivCeil(|data|, size)
    requires forall i: nat | i < |ids| :: ChunkAt(lib, live, ids, data, size, i)
    ensures ChainData(lib, live, ids[..n]) == Front(data, size, n)
  {
    hide ReadChunk, DivCeil;
    if n > 0 {
      assert ids[..n][..n - 1] == ids[..n - 1];
      PiecesJoin(lib, live, ids, data, size, n - 1);
      PieceBounds(|data|, size, n - 1);
      assert ChunkAt(lib, live, ids, data, size, n - 1);
      JoinPiece(data, size, n - 1);
    }
  }

  lemma JoinPiece(data: Bytes, size: nat, i: nat)
    requires i * size < |data|
    ensures Front(data, size, i) + PieceOr(data, size, i) == Front(data, size, i + 1)
  {
    assert (i + 1) * size == i * size + size;
  }

  // ---------------------------------------------------------------------------
  // The operations
  // ---------------------------------------------------------------------------

  /** What fits behind an overflow header. */
  function ChunkSize(cfg: Config): (size: nat)
    requires cfg.Valid()
    ensures 0 < size == cfg.pageSize - 96 < cfg.pageSize <= 65536
  {
    cfg.DataSize() - OVERFLOW_HEADER_SIZE
  }

  lemma SizeIsValid(p: Pager)
    requires p.Valid()
    ensures p.cfg.Valid() && p.cfg.lib.Valid() && 4096 <= p.cfg.pageSize <= 65536
  {
    hide Coherence, NoneDirty, Partition;
  }

  method WriteOverflowPage(p: Pager, id: PageId, data: Bytes, next: Option<PageId>) returns (r: Result<(), PagerError>)
    requires p.Valid() && id in p.live && |data| <= ChunkSize(p.cfg)
    modifies p`disk, p`live, p.Shards()
    ensures p.Valid() && r == Ok(())
    ensures p.live == old(p.live)[id := OverflowContent(p.cfg.lib, data, next)]
  {
    hide Pager.Valid, OverflowHeaderBytes, Plain, Storable, Config.Valid;
    SizeIsValid(p);
    var checksum := p.cfg.lib.crc32(data);
    var header := OverflowPageHeader(if next.Some? then next.value % U32 else 0, |data| % U32, checksum);
    var page := NewPage(id, PageType.Overflow);
    page := page.(data := page.data + OverflowHeaderBytes(header));
    page := page.(data := page.data + data);
    assert page.data == OverflowHeaderBytes(header) + data;
    OverflowIsStorable(page.data, p.cfg.pageSize);
    LiveIdFits(p, id);
    StorableIsPlain(id, Content(PageType.Overflow, page.data), p.cfg.pageSize);
    r := p.WritePage(page);
  }

  lemma OverflowIsStorable(data: Bytes, pageSize: nat)
    requires |data| + HEADER_SIZE + CHECKSUM_SIZE <= pageSize
    ensures Storable(Content(PageType.Overflow, data), pageSize)
  {
  }

  /** The ids of a run of allocations. */
  function Numbered(first: PageId, n: nat): (ids: seq<PageId>)
    ensures |ids| == n && forall i | 0 <= i < n :: ids[i] == first + i
  {
    seq(n, i requires 0 <= i < n => first + i)
  }

  /** Only these ids were added. */
  ghost predicate Adds(live: map<PageId, Content>, live': map<PageId, Content>, first: PageId, n: nat) {
    && (forall v | v in live :: v in live' && live'[v] == live[v])
    && (forall v | v in live' :: v in live || first <= v < first + n)
    && (forall v: PageId | first <= v < first + n :: v in live' && v !in live)
  }

  /** The allocation loop: `n` fresh pages, numbered upwards. */
  method AllocatePages(p: Pager, n: nat) returns (r: Result<seq<PageId>, PagerError>)
    requires p.Valid() && p.mapper.mapping.nextVirtualId + n < U64
    modifies p`disk, p`live, p`headerTotalPages, p`headerFreePages, p.mapper, p.freeList, p.superblock
    ensures p.Valid() && r == Ok(Numbered(old(p.mapper.mapping).nextVirtualId, n))
    ensures Adds(old(p.live), p.live, old(p.mapper.mapping).nextVirtualId, n)
    ensures p.mapper.mapping.nextVirtualId == old(p.mapper.mapping).nextVirtualId + n
  {
    hide Pager.Valid, Storable, Plain, Config.Valid, ReadsVirtual;
    SizeIsValid(p);
    OverflowIsStorable([], p.cfg.pageSize);
    var ids := [];
    ghost var first := p.mapper.mapping.nextVirtualId;
    while |ids| < n
      invariant |ids| <= n && p.Valid() && ids == Numbered(first, |ids|)
      invariant Adds(old(p.live), p.live, first, |ids|)
      invariant p.mapper.mapping.nextVirtualId == first + |ids|
      decreases n - |ids|
    {
      ghost var before := p.live;
      var id := p.AllocatePage(PageType.Overflow);
      match id {
        case Err(e) => return Err(e);
        case Ok(v) =>
          AddsOne(old(p.live), before, p.live, first, |ids|, Content(PageType.Overflow, []));
          ids := ids + [v];
      }
    }
    r := Ok(ids);
  }

  lemma AddsOne(live: map<PageId, Content>, mid: map<PageId, Content>, live': map<PageId, Content>, first: PageId, n: nat,
                c: Content)
    requires Adds(live, mid, first, n) && first + n !in mid && live' == mid[first + n := c]
    ensures Adds(live, live', first, n + 1)
  {
  }

  /** A value of any length in as many pages as it needs. Nothing else changes. The pages form a chain
      that reads as the value exactly when no pointer is cut to 32 bits. */
  method AllocateOverflowChain(p: Pager, data: Bytes) returns (r: Result<seq<PageId>, PagerError>)
    requires p.Valid() && p.mapper.mapping.nextVirtualId + DivCeil(|data|, ChunkSize(p.cfg)) < U64
    modifies p`disk, p`live, p`headerTotalPages, p`headerFreePages, p.mapper, p.freeList, p.superblock, p.Shards()
    ensures p.Valid()
    ensures var first, n := old(p.mapper.mapping).nextVirtualId, DivCeil(|data|, ChunkSize(p.cfg));
            && r == Ok(Numbered(first, n))
            && Adds(old(p.live), p.live, first, n)
            && ChainData(p.cfg.lib, p.live, r.value) == data && NoneEmpty(p.cfg.lib, p.live, r.value)
            && (data != [] ==> (Chain(p.cfg.lib, p.live, r.value) <==> n == 1 || first + n <= U32))
            && p.mapper.mapping.nextVirtualId == first + n
  {
    hide Pager.Valid, Config.Valid, Written, Chain, Adds, OverflowContent, Library.Valid, DivCeil, DataAt;
    SizeIsValid(p);
    ghost var first := p.mapper.mapping.nextVirtualId;
    FirstIdIsPositive(p);
    PageCount(|data|, ChunkSize(p.cfg));
    if data == [] {
      AddsNone(p.live, first);
      return Ok([]);
    }
    var size := ChunkSize(p.cfg);
    var n := DivCeil(|data|, size);
    r := AllocatePages(p, n);
    match r {
      case Err(e) => return Err(e);
      case Ok(ids) =>
        var i := 0;
        WrittenNone(p.cfg.lib, p.live, ids, data, size);
        while i < |ids|
          invariant 0 <= i <= |ids| && p.Valid() && Adds(old(p.live), p.live, first, n)
          invariant p.mapper.mapping.nextVirtualId == first + n
          invariant Written(p.cfg.lib, p.live, ids, data, size, i)
        {
          PieceBounds(|data|, size, i);
          var chunk := data[i * size..Min((i + 1) * size, |data|)];
          PieceFits(data, size, i);
          var next := if i + 1 < |ids| then Some(ids[i + 1]) else None;
          ghost var before := p.live;
          AddsRewrite(old(p.live), before, first, n, ids[i], OverflowContent(p.cfg.lib, chunk, next));
          var w := WriteOverflowPage(p, ids[i], chunk, next);
          match w {
            case Err(e) => return Err(e);
            case Ok(_) =>
          }
          WrittenMore(p.cfg.lib, before, ids, data, size, i);
          i := i + 1;
        }
        WrittenIsChainIff(p.cfg.lib, p.live, ids, data, size);
    }
  }

  lemma FirstIdIsPositive(p: Pager)
    requires p.Valid()
    ensures p.mapper.mapping.nextVirtualId >= 2
  {
    hide Coherence, NoneDirty;
  }

  lemma AddsNone(live: map<PageId, Content>, first: PageId)
    ensures Adds(live, live, first, 0)
  {
  }

  lemma AddsRewrite(live: map<PageId, Content>, mid: map<PageId, Content>, first: PageId, n: nat, id: PageId, c: Content)
    requires Adds(live, mid, first, n) && first <= id < first + n
    ensures id in mid && Adds(live, mid[id := c], first, n)
  {
  }

  lemma WrittenNone(lib: Library, live: map<PageId, Content>, ids: seq<PageId>, data: Bytes, size: nat)
    ensures Written(lib, live, ids, data, size, 0)
  {
  }

  lemma PieceFits(data: Bytes, size: nat, i: nat)
    requires i * size < |data|
    ensures i * size <= Min((i + 1) * size, |data|) && |Piece(data, size, i)| <= size
  {
    assert (i + 1) * size == i * size + size;
  }

  lemma WrittenMore(lib: Library, live: map<PageId, Content>, ids: seq<PageId>, data: Bytes, size: nat, i: nat)
    requires i < |ids| && Written(lib, live, ids, data, size, i) && i * size <= |data|
    requires Distinct(ids)
    ensures Written(lib, live[ids[i] := OverflowContent(lib, Piece(data, size, i),
        if i + 1 < |ids| then Some(ids[i + 1]) else None)], ids, data, size, i + 1)
  {
    hide OverflowContent, Piece;
    var live' := live[ids[i] := OverflowContent(lib, Piece(data, size, i), if i + 1 < |ids| then Some(ids[i + 1]) else None)];
    forall j: nat | j < i + 1 ensures WrittenAt(lib, live', ids, data, size, j) {
      if j < i {
        assert WrittenAt(lib, live, ids, data, size, j);
      }
    }
  }

  /** When a pointer is cut to 0 the chain ends early: whoever reads it gets the front of the value. */
  lemma WrappedPointerCutsTheValue(lib: Library, live: map<PageId, Content>, ids: seq<PageId>, data: Bytes, size: nat, k: nat)
    requires lib.Valid() && 0 < size < U32 && |ids| == DivCeil(|data|, size)
    requires Written(lib, live, ids, data, size, |ids|) && forall i | 0 <= i < |ids| :: ids[i] != 0
    requires 1 <= k < |ids| && ids[k] % U32 == 0 && forall i | 1 <= i < k :: ids[i] < U32
    ensures k * size < |data|
    ensures Chain(lib, live, ids[..k]) && ChainData(lib, live, ids[..k]) == data[..k * size]
  {
    hide ReadChunk, OverflowContent, ChunkAt, PieceOr;
    forall i: nat | i < |ids| ensures ChunkAt(lib, live, ids, data, size, i) {
      assert WrittenAt(lib, live, ids, data, size, i);
      WrittenChunk(lib, live, ids, data, size, i);
    }
    PieceBounds(|data|, size, k);
    PiecesJoin(lib, live, ids, data, size, k);
    CutChain(lib, live, ids, data, size, k);
  }

  lemma CutChain(lib: Library, live: map<PageId, Content>, ids: seq<PageId>, data: Bytes, size: nat, k: nat)
    requires forall i: nat | i < |ids| :: ChunkAt(lib, live, ids, data, size, i)
    requires forall i | 0 <= i < |ids| :: ids[i] != 0
    requires 1 <= k < |ids| && ids[k] % U32 == 0 && forall i | 1 <= i < k :: ids[i] < U32
    ensures Chain(lib, live, ids[..k])
  {
    hide ReadChunk, PieceOr;
    forall i: nat | i < k ensures WalkAt(lib, live, ids[..k], true, i) {
      assert ChunkAt(lib, live, ids, data, size, i);
    }
    assert ChunkAt(lib, live, ids, data, size, k - 1);
  }

  /** What reading the pages of a walk comes to. */
  ghost function WalkResult(lib: Library, live: map<PageId, Content>, ids: seq<PageId>): Result<Bytes, PagerError>
    requires ids != [] && ids[|ids| - 1] in live
  {
    var last := ReadChunk(lib, live[ids[|ids| - 1]]);
    if last.Err? then Err(last.error) else Ok(ChainData(lib, live, ids))
  }

  lemma WalkFacts(lib: Library, live: map<PageId, Content>, ids: seq<PageId>, whole: bool, i: nat)
    requires Walk(lib, live, ids, whole) && i < |ids|
    ensures ids[i] in live && ids[|ids| - 1] in live
    ensures whole ==> ReadChunk(lib, live[ids[i]]).Err? ==> i + 1 == |ids|
    ensures whole && ReadChunk(lib, live[ids[i]]).Ok? ==>
              var c := ReadChunk(lib, live[ids[i]]).value;
              && c.data == DataAt(lib, live, ids[i])
              && (c.next == 0 <==> i + 1 == |ids|) && (i + 1 < |ids| ==> c.next == ids[i + 1])
    ensures !whole ==> ReadNext(live[ids[i]]).Err? ==> i + 1 == |ids|
    ensures !whole && ReadNext(live[ids[i]]).Ok? ==>
              var next := ReadNext(live[ids[i]]).value;
              (next == 0 <==> i + 1 == |ids|) && (i + 1 < |ids| ==> next == ids[i + 1])
  {
    hide ReadChunk, ReadNext;
    assert WalkAt(lib, live, ids, whole, i) && WalkAt(lib, live, ids, whole, |ids| - 1);
  }

  /** A walk is read to its end if and only if every page of it is intact. */
  lemma WalkIsIntactIff(lib: Library, live: map<PageId, Content>, ids: seq<PageId>)
    requires Walk(lib, live, ids, true)
    ensures ids != [] && ids[|ids| - 1] in live
    ensures WalkResult(lib, live, ids).Ok? <==> forall i | 0 <= i < |ids| :: ids[i] in live && Intact(lib, live[ids[i]])
  {
    var n := |ids| - 1;
    assert n >= 0;
    hide Walk, ReadChunk, Intact, ChainData, DataAt;
    WalkFacts(lib, live, ids, true, n);
    ReadChunkIff(lib, live[ids[n]]);
    forall i: nat | i < n ensures ids[i] in live && Intact(lib, live[ids[i]]) {
      WalkFacts(lib, live, ids, true, i);
      ReadChunkIff(lib, live[ids[i]]);
    }
  }

  /** Reading follows the pointers and checks every page; the value is the data of the pages in order,
      or the error of the page where the walk fails. `ids` are the pages a walk that ends visits. */
  method ReadOverflowChain(p: Pager, first: PageId, ghost ids: seq<PageId>) returns (r: Result<Bytes, PagerError>)
    requires p.Valid() && ids != [] && ids[0] == first && ids[|ids| - 1] in p.live && Walk(p.cfg.lib, p.live, ids, true)
    modifies p`disk, p`live, p.Shards()
    ensures p.Valid() && p.live == old(p.live) && p.disk == old(p.disk)
    ensures r == WalkResult(p.cfg.lib, p.live, ids)
    ensures r.Ok? <==> forall i | 0 <= i < |ids| :: ids[i] in p.live && Intact(p.cfg.lib, p.live[ids[i]])
  {
    hide Intact, Pager.Valid, ReadFrom, NowCached, StaleRead, Pager.Slot, Pager.Physical, Pager.CacheView, FromLe, Walk,
         ParseOverflowHeader, Plain, Matches;
    WalkIsIntactIff(p.cfg.lib, p.live, ids);
    var result: Bytes := [];
    var current := first;
    ghost var k := 0;
    while true
      invariant k < |ids| && current == ids[k] && result == ChainData(p.cfg.lib, p.live, ids[..k])
      invariant p.Valid() && p.live == old(p.live) && p.disk == old(p.disk)
      decreases |ids| - k
    {
      WalkFacts(p.cfg.lib, p.live, ids, true, k);
      var read := p.ReadPage(current);
      match read {
        case Err(e) => return Err(e);
        case Ok(page) =>
          MatchesMeans(page, current, p.live[current]);
          if !page.header.pageType.Overflow? {
            return Err(InternalError);
          }
          var header := ParseOverflowHeader(page.data);
          if header.Err? {
            return Err(header.error);
          }
          var end := OVERFLOW_HEADER_SIZE + header.value.dataLength;
          if end > |page.data| {
            return Err(InternalError);
          }
          var data := page.data[OVERFLOW_HEADER_SIZE..end];
          if p.cfg.lib.crc32(data) != header.value.checksum {
            return Err(InternalError);
          }
          assert ids[..k + 1][..k] == ids[..k];
          result := result + data;
          if header.value.IsLast() {
            assert ids[..k + 1] == ids;
            return Ok(result);
          }
          current := header.value.nextPageId;
          k := k + 1;
      }
    }
  }

  ghost function Places(m: Mapping, ids: seq<PageId>): seq<PageId> {
    seq(|ids|, i requires 0 <= i < |ids| => m.Translate(ids[i]))
  }

  /** Frees the pages of a walk one by one, in order; a page that fails the header check ends it and
      stays, with everything before it already freed. Each page goes to the end of the free queue. */
  method FreeOverflowChain(p: Pager, first: PageId, ghost ids: seq<PageId>) returns (r: Result<(), PagerError>)
    requires p.Valid() && ids != [] && ids[0] == first && ids[|ids| - 1] in p.live && Walk(p.cfg.lib, p.live, ids, false)
    modifies p`disk, p`live, p`headerTotalPages, p`headerFreePages, p.mapper, p.freeList, p.superblock, p.Shards()
    ensures p.Valid()
    ensures var last := ReadNext(old(p.live)[ids[|ids| - 1]]);
            var freed := if last.Ok? then ids else ids[..|ids| - 1];
            && r == (if last.Ok? then Ok(()) else Err(last.error))
            && p.live == old(p.live) - Ids(freed)
            && p.freeList.freePages == old(p.freeList.freePages) + Places(old(p.mapper.mapping), freed)
    ensures p.mapper.mapping.nextVirtualId == old(p.mapper.mapping).nextVirtualId
    ensures p.superblock.state.nextPageId == old(p.superblock.state).nextPageId
  {
    hide Pager.Valid, Walk, ParseOverflowHeader, Plain, Freed;
    var current := first;
    ghost var k, live, m, free := 0, p.live, p.mapper.mapping, p.freeList.freePages;
    WalkIsDistinct(p.cfg.lib, live, ids, false);
    FreedNone(live, m, free, ids);
    while true
      invariant k < |ids| && current == ids[k] && p.Valid()
      invariant Freed(live, m, free, ids, k, p.live, p.mapper.mapping, p.freeList.freePages)
      invariant p.mapper.mapping.nextVirtualId == m.nextVirtualId
      invariant p.superblock.state.nextPageId == old(p.superblock.state).nextPageId
      decreases |ids| - k
    {
      WalkFacts(p.cfg.lib, live, ids, false, k);
      FreedNext(live, m, free, ids, k, p.live, p.mapper.mapping, p.freeList.freePages);
      var read := p.ReadPage(current);
      match read {
        case Err(e) => return Err(e);
        case Ok(page) =>
          MatchesMeans(page, current, p.live[current]);
          if !page.header.pageType.Overflow? {
            return Err(InternalError);
          }
          var header := ParseOverflowHeader(page.data);
          if header.Err? {
            return Err(header.error);
          }
          var next := if header.value.IsLast() then None else Some(header.value.nextPageId);
          r := p.FreePage(current);
          if r.Err? {
            return;
          }
          k := k + 1;
          if next.None? {
            FreedAll(live, m, free, ids, p.live, p.mapper.mapping, p.freeList.freePages);
            return;
          }
          current := next.value;
      }
    }
  }

  /** The first `k` pages of `ids` are gone from a state. */
  ghost predicate Freed(live: map<PageId, Content>, m: Mapping, free: seq<PageId>, ids: seq<PageId>, k: nat,
                        live': map<PageId, Content>, m': Mapping, free': seq<PageId>)
    requires k <= |ids|
  {
    && live' == live - Ids(ids[..k])
    && m' == m.(entries := m.entries - Ids(ids[..k]))
    && free' == free + Places(m, ids[..k])
  }

  lemma FreedNone(live: map<PageId, Content>, m: Mapping, free: seq<PageId>, ids: seq<PageId>)
    ensures Freed(live, m, free, ids, 0, live, m, free)
  {
    assert Ids(ids[..0]) == {};
    assert live - {} == live && m.entries - {} == m.entries;
  }

  /** The next page is still there, and freeing it makes it one more. */
  lemma FreedNext(live: map<PageId, Content>, m: Mapping, free: seq<PageId>, ids: seq<PageId>, k: nat,
                  live': map<PageId, Content>, m': Mapping, free': seq<PageId>)
    requires k < |ids| && ids[k] in live && Freed(live, m, free, ids, k, live', m', free')
    requires Distinct(ids)
    ensures ids[k] in live' && live'[ids[k]] == live[ids[k]]
    ensures k + 1 == |ids| ==> live' == live - Ids(ids[..|ids| - 1]) && free' == free + Places(m, ids[..|ids| - 1])
    ensures Freed(live, m, free, ids, k + 1, live' - {ids[k]}, m'.(entries := m'.entries - {ids[k]}),
        free' + [m'.Translate(ids[k])])
  {
    var id := ids[k];
    assert ids[..k + 1] == ids[..k] + [id];
    assert Ids(ids[..k + 1]) == Ids(ids[..k]) + {id};
    assert id !in Ids(ids[..k]);
    assert live' - {id} == live - Ids(ids[..k + 1]);
    assert m'.entries - {id} == m.entries - Ids(ids[..k + 1]);
    assert m'.Translate(id) == m.Translate(id);
    assert Places(m, ids[..k + 1]) == Places(m, ids[..k]) + [m.Translate(id)];
  }

  lemma FreedAll(live: map<PageId, Content>, m: Mapping, free: seq<PageId>, ids: seq<PageId>,
                 live': map<PageId, Content>, m': Mapping, free': seq<PageId>)
    requires Freed(live, m, free, ids, |ids|, live', m', free')
    ensures live' == live - Ids(ids) && free' == free + Places(m, ids)
  {
    assert ids[..|ids|] == ids;
  }

  /** A chain can be freed from its first page to its last. */
  lemma ChainIsFreeable(lib: Library, live: map<PageId, Content>, ids: seq<PageId>)
    requires Chain(lib, live, ids)
    ensures Walk(lib, live, ids, false) && ids[|ids| - 1] in live && ReadNext(live[ids[|ids| - 1]]).Ok?
  {
    hide ParseOverflowHeader;
    forall i: nat | i < |ids| ensures WalkAt(lib, live, ids, false, i) {
      assert WalkAt(lib, live, ids, true, i);
    }
  }

  /** Freeing what an allocation added gives back the old contents. */
  lemma FreeUndoesAllocate(live: map<PageId, Content>, live': map<PageId, Content>, first: PageId, n: nat)
    requires Adds(live, live', first, n)
    ensures live' - Ids(Numbered(first, n)) == live
  {
    var ids := Numbered(first, n);
    forall v: PageId ensures v in Ids(ids) <==> first <= v < first + n {
      if first <= v < first + n {
        assert ids[v - first] == v;
      }
    }
  }

  /** Frees what a reference stands for. The number returned for a chain is the one in the reference: it is the
      number of pages freed exactly when that count is right. A walk that fails keeps its last page; a single
      page that is not live is treated as `FreePage` treats it. */
  method FreeValueRef(p: Pager, ref: VersionChains.ValueRef, ghost ids: seq<PageId>) returns (r: Result<nat, PagerError>)
    requires p.Valid()
    requires ref.OverflowChain? ==>
               ids != [] && ids[0] == ref.firstPageId && ids[|ids| - 1] in p.live && Walk(p.cfg.lib, p.live, ids, false)
    modifies p`disk, p`live, p`headerTotalPages, p`headerFreePages, p.mapper, p.freeList, p.superblock, p.Shards()
    ensures p.Valid() || (ref.SinglePage? && ref.pageId !in old(p.live) && r.Ok?)
    ensures match ref
            case Inline => r == Ok(0) && p.live == old(p.live)
            case SinglePage(id, _, _) =>
              if id in old(p.live) then r == Ok(1) && p.live == old(p.live) - {id} && |p.live| == |old(p.live)| - 1
              else
                && p.live == old(p.live) && (r.Ok? ==> r == Ok(1))
                && (r.Err? <==> id < 2 || !Backs(old(p.live.Keys), old(p.mapper.mapping), id))
            case OverflowChain(_, _, count) =>
              var last := ReadNext(old(p.live)[ids[|ids| - 1]]);
              var freed := if last.Ok? then ids else ids[..|ids| - 1];
              && r == (if last.Ok? then Ok(count) else Err(last.error))
              && p.live == old(p.live) - Ids(freed)
              && p.freeList.freePages == old(p.freeList.freePages) + Places(old(p.mapper.mapping), freed)
              && (r.Ok? ==> (|p.live| == |old(p.live)| - r.value <==> count == |ids|))
  {
    hide Pager.Valid, Walk, ReadNext, Backs;
    match ref {
      case Inline => r := Ok(0);
      case SinglePage(id, _, _) =>
        NoSmallIds(p);
        var f := p.FreePage(id);
        match f {
          case Err(e) => return Err(e);
          case Ok(_) => r := Ok(1);
        }
      case OverflowChain(first, _, count) =>
        LostPages(p.cfg.lib, p.live, ids, false);
        var f := FreeOverflowChain(p, first, ids);
        match f {
          case Err(e) => return Err(e);
          case Ok(_) => r := Ok(count);
        }
    }
  }

  lemma NoSmallIds(p: Pager)
    requires p.Valid()
    ensures 0 !in p.live && 1 !in p.live
  {
    hide Partition, Coherence, NoneDirty;
    FreedSlots(p.live.Keys, p.mapper.mapping, p.freeList.freePages, p.superblock.state.nextPageId);
  }

  /** A walk over `n` pages accounts for `n` ids. */
  lemma LostPages(lib: Library, live: map<PageId, Content>, ids: seq<PageId>, whole: bool)
    requires Walk(lib, live, ids, whole)
    ensures |live - Ids(ids)| == |live| - |ids|
  {
    WalkIsDistinct(lib, live, ids, whole);
    forall i: nat | i < |ids| ensures ids[i] in live {
      assert WalkAt(lib, live, ids, whole, i);
    }
    hide Walk;
    DistinctSize(ids);
    assert Ids(ids) <= live.Keys;
    assert (live - Ids(ids)).Keys == live.Keys - Ids(ids);
  }

  // ---------------------------------------------------------------------------
  // A value beside everything else
  // ---------------------------------------------------------------------------

  /** Store `t` is store `s` with the pages `chain` besides. */
  ghost predicate Beside(s: Store, t: Store, chain: map<PageId, Content>) {
    && t.next == s.next
    && s.live.Keys !! chain.Keys
    && t.live == s.live + chain
    && forall id | id in chain :: id < s.next
  }

  lemma StepBeside(s: Store, t: Store, chain: map<PageId, Content>, op: PagerRuns.Op, pageSize: nat)
    requires Beside(s, t, chain) && Legal(s, op, pageSize)
    ensures Legal(t, op, pageSize) && Beside(Step(s, op), Step(t, op), chain) && Answer(s, op) == Answer(t, op)
  {
    hide Storable;
    var s', t' := Step(s, op), Step(t, op);
    assert t'.live == s'.live + chain;
  }

  /** What is legal without a chain is legal beside it and answered in the same way, and leaves it alone. */
  lemma {:induction false} RunBeside(s: Store, t: Store, chain: map<PageId, Content>, ops: seq<PagerRuns.Op>, pageSize: nat)
    requires Beside(s, t, chain) && LegalRun(s, ops, pageSize)
    ensures LegalRun(t, ops, pageSize) && Beside(After(s, ops), After(t, ops), chain)
    ensures forall n | 0 <= n < |ops| :: Answer(After(t, ops[..n]), ops[n]) == Answer(After(s, ops[..n]), ops[n])
  {
    hide Beside, Legal, Step, Answer;
    if ops != [] {
      var front, m := ops[..|ops| - 1], |ops| - 1;
      assert forall n | 0 <= n <= |front| :: front[..n] == ops[..n];
      RunBeside(s, t, chain, front, pageSize);
      assert front == ops[..m] && Legal(After(s, ops[..m]), ops[m], pageSize);
      StepBeside(After(s, front), After(t, front), chain, ops[m], pageSize);
      forall n | 0 <= n < |ops|
        ensures Legal(After(t, ops[..n]), ops[n], pageSize)
        ensures Answer(After(t, ops[..n]), ops[n]) == Answer(After(s, ops[..n]), ops[n])
      {
        if n < m {
          assert Legal(After(t, front[..n]), front[n], pageSize);
          assert front[n] == ops[n];
        }
      }
    }
  }

  /** The pages an allocation has added. */
  ghost function Added(live: map<PageId, Content>, first: PageId, n: nat): map<PageId, Content> {
    map id | id in live && first <= id < first + n :: live[id]
  }

  lemma AddedBeside(live: map<PageId, Content>, live': map<PageId, Content>, first: PageId, n: nat)
    requires Adds(live, live', first, n)
    ensures Beside(Store(live, first + n), Store(live', first + n), Added(live', first, n))
    ensures Added(live', first, n).Keys == Ids(Numbered(first, n))
  {
    var chain, ids := Added(live', first, n), Numbered(first, n);
    forall v: PageId ensures v in Ids(ids) <==> first <= v < first + n {
      if first <= v < first + n {
        assert ids[v - first] == v;
      }
    }
    assert live + chain == live';
  }

  /** A chain put aside reads the same wherever its pages are. */
  lemma ChainBeside(lib: Library, live: map<PageId, Content>, s: Store, t: Store, first: PageId, n: nat)
    requires Chain(lib, live, Numbered(first, n)) && Added(live, first, n).Keys == Ids(Numbered(first, n))
    requires Beside(s, t, Added(live, first, n))
    ensures Chain(lib, t.live, Numbered(first, n))
    ensures ChainData(lib, t.live, Numbered(first, n)) == ChainData(lib, live, Numbered(first, n))
    ensures t.live - Ids(Numbered(first, n)) == s.live
  {
    hide Chain, ChainData;
    var ids, chain := Numbered(first, n), Added(live, first, n);
    forall id | id in ids ensures id in live && id in t.live && t.live[id] == live[id] {
      assert id in Ids(ids) && id in chain;
    }
    ChainStays(lib, live, t.live, ids);
    assert t.live - chain.Keys == s.live;
  }

  /** The round trip: a value is stored, any operations that are legal without it follow, it is read back
      unchanged and freed. The operations answer as if it had never been there, and so do the contents left. */
  method RoundTrip(p: Pager, data: Bytes, ops: seq<PagerRuns.Op>)
      returns (outs: seq<Outcome>, back: Result<Bytes, PagerError>, freed: Result<(), PagerError>)
    requires p.Valid() && data != []
    requires var next, n := p.mapper.mapping.nextVirtualId, DivCeil(|data|, ChunkSize(p.cfg));
             && next + n < U64 && (n == 1 || next + n <= U32)
             && LegalRun(Store(p.live, next + n), ops, p.cfg.pageSize)
    modifies p`disk, p`live, p`headerTotalPages, p`headerFreePages, p.mapper, p.freeList, p.superblock, p.Shards()
    ensures p.Valid() && back == Ok(data) && freed == Ok(())
    ensures var n := DivCeil(|data|, ChunkSize(p.cfg));
            var s := Store(old(p.live), old(p.mapper.mapping).nextVirtualId + n);
            && p.live == After(s, ops).live
            && |outs| == |ops| && forall i | 0 <= i < |ops| :: outs[i] == Answer(After(s, ops[..i]), ops[i])
  {
    hide Pager.Valid, Chain, Walk, Adds, Beside, Added, ChainData, ReadChunk, ReadNext, LegalRun, Answer, After, Places, Ids,
         DivCeil, ChunkSize, WalkResult, Intact, NoneEmpty, Config.Valid, Library.Valid;
    SizeIsValid(p);
    ghost var first, n := p.mapper.mapping.nextVirtualId, DivCeil(|data|, ChunkSize(p.cfg));
    PageCount(|data|, ChunkSize(p.cfg));
    ghost var s := Store(p.live, first + n);
    var stored := AllocateOverflowChain(p, data);
    ghost var live, t := p.live, Store(p.live, first + n);
    AddedBeside(s.live, live, first, n);
    RunBeside(s, t, Added(live, first, n), ops, p.cfg.pageSize);
    outs := PagerRuns.Run(p, ops);
    ChainBeside(p.cfg.lib, live, After(s, ops), After(t, ops), first, n);
    ChainCanBeRead(p.cfg.lib, p.live, stored.value);
    back := ReadOverflowChain(p, stored.value[0], stored.value);
    ChainIsFreeable(p.cfg.lib, p.live, stored.value);
    freed := FreeOverflowChain(p, stored.value[0], stored.value);
  }

  lemma ChainCanBeRead(lib: Library, live: map<PageId, Content>, ids: seq<PageId>)
    requires Chain(lib, live, ids)
    ensures ids != [] && ids[|ids| - 1] in live && Walk(lib, live, ids, true)
    ensures WalkResult(lib, live, ids) == Ok(ChainData(lib, live, ids))
  {
    hide ReadChunk, ChainData;
  }
}
