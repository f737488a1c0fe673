/** The superblock: allocation counters and the inline page mapping (src/pager/superblock.rs). */
module Superblocks {
  import opened Wrappers
  import opened Bytes
  import opened Pages
  import opened PageMappers

  const MAGIC := 0x004E_4B53_5550_4552
  const VERSION := 2
  const SB_HEADER_SIZE := 96
  const INLINE_MAPPER_SIZE := 256
  const SB_SIZE := SB_HEADER_SIZE + INLINE_MAPPER_SIZE

  datatype SuperblockState = SuperblockState(
    totalPages: nat, freePages: nat, firstFreeListPage: PageId, lastFreeListPage: PageId, nextPageId: PageId,
    transactionCounter: nat, lastCheckpointLsn: nat, rootBtreePage: PageId, btreeRowCount: nat,
    pageMapperPage: PageId, pageMapper: Mapping)

  const FreshSuperblock := SuperblockState(2, 0, 0, 0, 2, 0, 0, 0, 0, 0, FreshMapping)

  class Superblock {
    var state: SuperblockState

    constructor ()
      ensures state == FreshSuperblock
    {
      state := FreshSuperblock;
    }

    /** Grows the file by one page. */
    method AllocateNewPage() returns (id: PageId)
      modifies this
      ensures id == old(state).nextPageId
      ensures state == old(state).(nextPageId := id + 1, totalPages := old(state).totalPages + 1)
    {
      id := state.nextPageId;
      state := state.(nextPageId := id + 1);
      state := state.(totalPages := state.totalPages + 1);
    }

    method MarkPageFreed()
      modifies this
      ensures state == old(state).(freePages := old(state).freePages + 1)
    {
      state := state.(freePages := state.freePages + 1);
    }

    method MarkPageAllocated()
      modifies this
      ensures state == old(state).(freePages := if old(state).freePages > 0 then old(state).freePages - 1 else 0)
    {
      if state.freePages > 0 {
        state := state.(freePages := state.freePages - 1);
      }
    }
  }

  // ---------------------------------------------------------------------------
  // Byte codec
  // ---------------------------------------------------------------------------

  /** The twelve header fields in their order on disk. */
  function Fields(s: SuperblockState): (f: seq<nat>)
    ensures |f| == 12
  {
    [MAGIC, VERSION, s.totalPages, s.freePages, s.firstFreeListPage, s.lastFreeListPage, s.nextPageId,
     s.transactionCounter, s.lastCheckpointLsn, s.rootBtreePage, s.btreeRowCount, s.pageMapperPage]
  }

  function FieldBytes(f: seq<nat>): (b: Bytes)
    ensures |b| == 8 * |f|
  {
    if f == [] then [] else ToLe(f[0], 8) + FieldBytes(f[1..])
  }

  /** `es` is the order in which the inline mapping is walked. */
  function Encode(s: SuperblockState, es: seq<Entry>): (b: Bytes)
    ensures |b| == SB_SIZE
  {
    var mapper := MappingBytes(s.pageMapper.nextVirtualId, es);
    FieldBytes(Fields(s)) +
    if |mapper| <= INLINE_MAPPER_SIZE then mapper + Zeros(INLINE_MAPPER_SIZE - |mapper|) else Zeros(INLINE_MAPPER_SIZE)
  }

  function U64At(b: Bytes, offset: nat): nat
    requires offset + 8 <= |b|
  {
    FromLe(b[offset..offset + 8])
  }

  predicate AllZero(b: Bytes) {
    forall i | 0 <= i < |b| :: b[i] == 0
  }

  /** The mapping a version 2 superblock carries. */
  function DecodeInline(b: Bytes, mapperPage: PageId): Result<Mapping, PagerError>
    requires |b| >= SB_HEADER_SIZE
  {
    if mapperPage == 0 && |b| >= SB_SIZE then
      var mapper := b[SB_HEADER_SIZE..SB_SIZE];
      if !AllZero(mapper[0..16]) then DecodeMapping(mapper) else Ok(FreshMapping)
    else Ok(FreshMapping)
  }

  function Decode(b: Bytes): Result<SuperblockState, PagerError> {
    if |b| < SB_HEADER_SIZE then Err(InvalidSuperblock)
    else if U64At(b, 0) != MAGIC then Err(InvalidSuperblock)
    else
      var version := U64At(b, 8);
      if version != 1 && version != 2 then Err(InvalidSuperblock)
      else
        var mapperPage := if version == 1 then 0 else U64At(b, 88);
        var mapper := if version == 1 then Ok(FreshMapping) else DecodeInline(b, mapperPage);
        if mapper.Err? then Err(mapper.error)
        else Ok(SuperblockState(U64At(b, 16), U64At(b, 24), U64At(b, 32), U64At(b, 40), U64At(b, 48), U64At(b, 56),
                                U64At(b, 64), U64At(b, 72), U64At(b, 80), mapperPage, mapper.value))
  }

  // ---------------------------------------------------------------------------
  // Round trip
  // ---------------------------------------------------------------------------

  lemma {:induction false} FieldBytesAt(f: seq<nat>, tail: Bytes, i: nat)
    requires i < |f| && f[i] < U64
    ensures U64At(FieldBytes(f) + tail, 8 * i) == f[i]
    decreases |f|
  {
    hide ToLe, FromLe, FieldBytes, U64At;
    FieldBytesCons(f, tail);
    var rest := FieldBytes(f[1..]) + tail;
    if i == 0 {
      Le64(f[0]);
      FirstAt(ToLe(f[0], 8), rest);
    } else {
      FieldBytesAt(f[1..], tail, i - 1);
      Shifted(ToLe(f[0], 8), rest, 8 * (i - 1));
    }
  }

  lemma FirstAt(first: Bytes, rest: Bytes)
    requires |first| == 8
    ensures U64At(first + rest, 0) == FromLe(first)
  {
    assert (first + rest)[0..8] == first;
  }

  lemma FieldBytesCons(f: seq<nat>, tail: Bytes)
    requires f != []
    ensures FieldBytes(f) + tail == ToLe(f[0], 8) + (FieldBytes(f[1..]) + tail)
  {
    hide ToLe;
  }

  lemma Shifted(first: Bytes, rest: Bytes, offset: nat)
    requires |first| == 8 && offset + 8 <= |rest|
    ensures U64At(first + rest, offset + 8) == U64At(rest, offset)
  {
    assert (first + rest)[offset + 8..offset + 16] == rest[offset..offset + 8];
  }

  ghost predicate StateFits(s: SuperblockState) {
    && (forall i | 0 <= i < 12 :: Fields(s)[i] < U64)
    && PageMappers.Fits(s.pageMapper)
  }

  /** Everything but the mapping is read back from the twelve fields. */
  lemma DecodeHeader(s: SuperblockState, tail: Bytes)
    requires StateFits(s)
    ensures var b := FieldBytes(Fields(s)) + tail;
            var mapper := DecodeInline(b, s.pageMapperPage);
            Decode(b) == if mapper.Err? then Err(mapper.error) else Ok(s.(pageMapper := mapper.value))
  {
    var f := Fields(s);
    forall i | 0 <= i < 12 ensures U64At(FieldBytes(f) + tail, 8 * i) == f[i] {
      FieldBytesAt(f, tail, i);
    }
    var b := FieldBytes(f) + tail;
    assert U64At(b, 8 * 0) == f[0] && U64At(b, 8 * 1) == f[1] && U64At(b, 8 * 2) == f[2] && U64At(b, 8 * 3) == f[3];
    assert U64At(b, 8 * 4) == f[4] && U64At(b, 8 * 5) == f[5] && U64At(b, 8 * 6) == f[6] && U64At(b, 8 * 7) == f[7];
    assert U64At(b, 8 * 8) == f[8] && U64At(b, 8 * 9) == f[9] && U64At(b, 8 * 10) == f[10] && U64At(b, 8 * 11) == f[11];
    hide FieldBytes, U64At, DecodeInline;
  }

  lemma {:induction false} ZeroLe(n: nat, w: nat)
    requires n < Pow256(w)
    ensures AllZero(ToLe(n, w)) <==> n == 0
    decreases w
  {
    if w > 0 {
      ZeroLe(n / 256, w - 1);
      var b := ToLe(n, w);
      assert b[1..] == ToLe(n / 256, w - 1);
      assert AllZero(b) <==> b[0] == 0 && AllZero(b[1..]) by {
        assert forall i | 1 <= i < |b| :: b[i] == b[1..][i - 1];
        assert forall i | 0 <= i < |b| - 1 :: b[1..][i] == b[i + 1];
      }
    }
  }

  lemma ZeroParts(p: Bytes, q: Bytes)
    ensures AllZero(p + q) <==> AllZero(p) && AllZero(q)
  {
    assert forall i | 0 <= i < |p| :: (p + q)[i] == p[i];
    assert forall i | 0 <= i < |q| :: (p + q)[|p| + i] == q[i];
  }

  /** The mapping is really stored in the superblock. */
  ghost predicate StoredInline(s: SuperblockState) {
    && s.pageMapperPage == 0
    && |s.pageMapper.entries| <= 15
    && (s.pageMapper.nextVirtualId != 0 || s.pageMapper.entries != map[])
  }

  lemma InlineMapping(s: SuperblockState, es: seq<Entry>)
    requires StateFits(s) && Lists(es, s.pageMapper.entries)
    ensures DecodeInline(Encode(s, es), s.pageMapperPage) == Ok(if StoredInline(s) then s.pageMapper else FreshMapping)
  {
    InlinePart(s, es);
    var b := Encode(s, es);
    hide Encode, DecodeMapping, AllZero;
    if s.pageMapperPage == 0 {
      if |es| <= 15 {
        var tail := Zeros(INLINE_MAPPER_SIZE - 16 - 16 * |es|);
        HeadIsZero(s.pageMapper.nextVirtualId, es, tail);
        MappingRoundTrip(s.pageMapper, es, tail);
      } else {
        ZerosAreZero();
      }
    }
  }

  lemma InlinePart(s: SuperblockState, es: seq<Entry>)
    ensures Encode(s, es)[SB_HEADER_SIZE..SB_SIZE] ==
            if |es| <= 15 then MappingBytes(s.pageMapper.nextVirtualId, es) + Zeros(INLINE_MAPPER_SIZE - 16 - 16 * |es|)
            else Zeros(INLINE_MAPPER_SIZE)
  {
    hide FieldBytes, Fields, MappingBytes, Zeros;
  }

  lemma ZerosAreZero()
    ensures AllZero(Zeros(INLINE_MAPPER_SIZE)[0..16])
  {
  }

  /** The first sixteen bytes of a stored mapping are zero only for an all-zero mapping. */
  lemma HeadIsZero(next: PageId, es: seq<Entry>, tail: Bytes)
    requires next < U64 && |es| < U64
    ensures var b := MappingBytes(next, es) + tail;
            |b| >= 16 && (AllZero(b[0..16]) <==> next == 0 && es == [])
  {
    hide ToLe, FromLe, EntriesBytes, AllZero;
    var p, q := ToLe(next, 8), ToLe(|es|, 8);
    var b := MappingBytes(next, es) + tail;
    assert b == p + q + (EntriesBytes(es) + tail);
    assert b[0..16] == p + q;
    Widths();
    ZeroLe(next, 8);
    ZeroLe(|es|, 8);
    ZeroParts(p, q);
  }

  /** Decoding what was encoded restores the counters always, and the mapping exactly when it is stored
      inline (at most 15 entries, no separate mapper page, not all-zero) or is the fresh one anyway;
      with more entries the identity mapping comes back, whatever order the map was walked in. */
  lemma SuperblockRoundTripIff(s: SuperblockState, es: seq<Entry>)
    requires StateFits(s) && Lists(es, s.pageMapper.entries)
    ensures Decode(Encode(s, es)) == Ok(s.(pageMapper := if StoredInline(s) then s.pageMapper else FreshMapping))
    ensures Decode(Encode(s, es)) == Ok(s) <==> StoredInline(s) || s.pageMapper == FreshMapping
  {
    InlineMapping(s, es);
    var b := Encode(s, es);
    var tail := b[SB_HEADER_SIZE..];
    assert b == FieldBytes(Fields(s)) + tail;
    DecodeHeader(s, tail);
    hide Encode, Decode, DecodeInline, FieldBytes;
  }

  /** A superblock by its bytes: the magic number and a known version. */
  predicate Recognised(b: Bytes) {
    && |b| >= 96 && b[0..8] == [0x52, 0x45, 0x50, 0x55, 0x53, 0x4B, 0x4E, 0x00]
    && (FromLe(b[8..16]) == 1 || FromLe(b[8..16]) == 2)
  }

  /** A version 2 superblock without a mapper page whose inline area is there and does not start with 16 zeros. */
  predicate CarriesMapping(b: Bytes) {
    Recognised(b) && FromLe(b[8..16]) == 2 && FromLe(b[88..96]) == 0 && |b| >= 352 && !AllZero(b[96..112])
  }

  /** For every byte string: what is read is at fixed offsets, version 1 never has a mapping, and an inline
      mapping that does not decode is the only other reason to refuse. */
  lemma DecodeIff(b: Bytes)
    ensures !Recognised(b) <==> Decode(b) == Err(InvalidSuperblock)
    ensures Recognised(b) ==>
              && (Decode(b).Ok? <==> (CarriesMapping(b) ==> DecodeMapping(b[96..352]).Ok?))
              && (Decode(b).Err? ==> Decode(b).error == InsufficientBuffer)
    ensures Decode(b).Ok? ==>
              var s := Decode(b).value;
              && s.totalPages == FromLe(b[16..24]) && s.freePages == FromLe(b[24..32])
              && s.firstFreeListPage == FromLe(b[32..40]) && s.lastFreeListPage == FromLe(b[40..48])
              && s.nextPageId == FromLe(b[48..56]) && s.transactionCounter == FromLe(b[56..64])
              && s.lastCheckpointLsn == FromLe(b[64..72]) && s.rootBtreePage == FromLe(b[72..80])
              && s.btreeRowCount == FromLe(b[80..88])
              && s.pageMapperPage == (if FromLe(b[8..16]) == 1 then 0 else FromLe(b[88..96]))
              && Ok(s.pageMapper) == if CarriesMapping(b) then DecodeMapping(b[96..352]) else Ok(Mapping(map[], 2))
  {
    hide FromLe, DecodeMapping, AllZero;
    if |b| >= 96 {
      MagicIs(b[0..8]);
    }
    if |b| >= 352 {
      DecodeMappingIff(b[96..352]);
      assert b[96..352][0..16] == b[96..112];
    }
  }

  lemma MagicIs(b: Bytes)
    requires |b| == 8
    ensures FromLe(b) == MAGIC <==> b == [0x52, 0x45, 0x50, 0x55, 0x53, 0x4B, 0x4E, 0x00]
  {
    var magic: Bytes := [0x52, 0x45, 0x50, 0x55, 0x53, 0x4B, 0x4E, 0x00];
    LittleEndian(magic);
    LittleEndian(magic[..4]);
    LittleEndian(magic[4..]);
    LeInverse(b);
    LeInverse(magic);
  }

  /** Sixteen mappings are one too many: all of them are lost. */
  lemma SixteenMappingsAreLost(s: SuperblockState, es: seq<Entry>)
    requires StateFits(s) && Lists(es, s.pageMapper.entries) && |s.pageMapper.entries| >= 16
    ensures Decode(Encode(s, es)) == Ok(s.(pageMapper := FreshMapping)) && Decode(Encode(s, es)) != Ok(s)
  {
    SuperblockRoundTripIff(s, es);
  }
}
