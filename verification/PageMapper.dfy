/** Virtual-to-physical page mapping (src/pager/page_mapper.rs). */
module PageMappers {
  import opened Wrappers
  import opened Collections
  import opened Bytes
  import opened Pages

  /** Only mappings that are not the identity are stored. */
  datatype Mapping = Mapping(entries: map<PageId, PageId>, nextVirtualId: PageId)
  {
    function Translate(id: PageId): PageId {
      if id in entries then entries[id] else id
    }
  }

  const FreshMapping := Mapping(map[], 2)

  type Entry = (PageId, PageId)

  // ---------------------------------------------------------------------------
  // Byte codec
  // ---------------------------------------------------------------------------

  /** `es` is some iteration order of the hash map `m`. */
  ghost predicate Lists(es: seq<Entry>, m: map<PageId, PageId>) {
    && (forall i, j | 0 <= i < j < |es| :: es[i].0 != es[j].0)
    && (forall i | 0 <= i < |es| :: es[i].0 in m && m[es[i].0] == es[i].1)
    && |es| == |m|
  }

  function EntryBytes(e: Entry): (b: Bytes)
    ensures |b| == 16
  {
    ToLe(e.0, 8) + ToLe(e.1, 8)
  }

  function EntriesBytes(es: seq<Entry>): (b: Bytes)
    ensures |b| == 16 * |es|
  {
    if es == [] then [] else EntryBytes(es[0]) + EntriesBytes(es[1..])
  }

  function MappingBytes(next: PageId, es: seq<Entry>): (b: Bytes)
    ensures |b| == 16 + 16 * |es|
  {
    ToLe(next, 8) + ToLe(|es|, 8) + EntriesBytes(es)
  }

  function DecodeEntries(b: Bytes, count: nat, acc: map<PageId, PageId>): Result<map<PageId, PageId>, PagerError>
    decreases count
  {
    if count == 0 then Ok(acc)
    else if |b| < 16 then Err(InsufficientBuffer)
    else DecodeEntries(b[16..], count - 1, acc[FromLe(b[0..8]) := FromLe(b[8..16])])
  }

  function DecodeMapping(b: Bytes): Result<Mapping, PagerError> {
    if |b| < 16 then Err(InsufficientBuffer)
    else
      var m := DecodeEntries(b[16..], FromLe(b[8..16]), map[]);
      if m.Err? then Err(m.error) else Ok(Mapping(m.value, FromLe(b[0..8])))
  }

  function Inserted(es: seq<Entry>, acc: map<PageId, PageId>): map<PageId, PageId> {
    if es == [] then acc else Inserted(es[1..], acc[es[0].0 := es[0].1])
  }

  predicate EntriesFit(es: seq<Entry>) {
    forall i | 0 <= i < |es| :: es[i].0 < U64 && es[i].1 < U64
  }

  lemma ThreeParts(p: Bytes, q: Bytes, r: Bytes)
    requires |p| == |q| == 8
    ensures var b := p + q + r;
            |b| >= 16 && b[0..8] == p && b[8..16] == q && b[16..] == r
  {
  }

  /** Decoding one entry off the front. */
  lemma DecodeStep(e: Entry, rest: Bytes, count: nat, acc: map<PageId, PageId>)
    requires e.0 < U64 && e.1 < U64
    ensures DecodeEntries(EntryBytes(e) + rest, count + 1, acc) == DecodeEntries(rest, count, acc[e.0 := e.1])
  {
    Le64(e.0);
    Le64(e.1);
    ThreeParts(ToLe(e.0, 8), ToLe(e.1, 8), rest);
    hide ToLe, FromLe;
  }

  lemma EntriesCons(es: seq<Entry>, tail: Bytes)
    requires es != []
    ensures EntriesBytes(es) + tail == EntryBytes(es[0]) + (EntriesBytes(es[1..]) + tail)
  {
    hide EntryBytes;
  }

  lemma {:induction false} EntriesRoundTrip(es: seq<Entry>, tail: Bytes, acc: map<PageId, PageId>)
    requires EntriesFit(es)
    ensures DecodeEntries(EntriesBytes(es) + tail, |es|, acc) == Ok(Inserted(es, acc))
    decreases |es|
  {
    hide EntryBytes, FromLe;
    if es != [] {
      EntriesCons(es, tail);
      hide EntriesBytes;
      DecodeStep(es[0], EntriesBytes(es[1..]) + tail, |es| - 1, acc);
      EntriesRoundTrip(es[1..], tail, acc[es[0].0 := es[0].1]);
    } else {
      assert EntriesBytes(es) + tail == tail;
    }
  }

  lemma {:induction false} InsertedAt(es: seq<Entry>, acc: map<PageId, PageId>)
    requires forall i, j | 0 <= i < j < |es| :: es[i].0 != es[j].0
    ensures forall i | 0 <= i < |es| :: es[i].0 in Inserted(es, acc) && Inserted(es, acc)[es[i].0] == es[i].1
    ensures forall k | (forall i | 0 <= i < |es| :: es[i].0 != k) ::
              (k in Inserted(es, acc) <==> k in acc) && (k in acc ==> Inserted(es, acc)[k] == acc[k])
    decreases |es|
  {
    if es != [] {
      var acc' := acc[es[0].0 := es[0].1];
      InsertedAt(es[1..], acc');
      assert forall i | 0 <= i < |es| - 1 :: es[1..][i] == es[i + 1];
    }
  }

  function KeysOf(es: seq<Entry>): set<PageId> {
    set i | 0 <= i < |es| :: es[i].0
  }

  lemma {:induction false} KeysOfSize(es: seq<Entry>)
    requires forall i, j | 0 <= i < j < |es| :: es[i].0 != es[j].0
    ensures |KeysOf(es)| == |es|
  {
    if es != [] {
      var n := |es| - 1;
      KeysOfSize(es[..n]);
      assert KeysOf(es) == KeysOf(es[..n]) + {es[n].0};
      assert es[n].0 !in KeysOf(es[..n]);
    }
  }

  /** An iteration order names every key. */
  lemma ListsAll(es: seq<Entry>, m: map<PageId, PageId>)
    requires Lists(es, m)
    ensures KeysOf(es) == m.Keys
    ensures Inserted(es, map[]) == m
  {
    KeysOfSize(es);
    assert KeysOf(es) <= m.Keys;
    SubsetOfSameSize(KeysOf(es), m.Keys);
    InsertedAt(es, map[]);
    var r := Inserted(es, map[]);
    forall k ensures k in r <==> k in m {
      if k in m {
        assert k in KeysOf(es);
      }
    }
    forall k | k in m ensures r[k] == m[k] {
      assert k in KeysOf(es);
    }
  }

  lemma SubsetOfSameSize(a: set<PageId>, b: set<PageId>)
    requires a <= b && |a| == |b|
    ensures a == b
  {
    if !(b <= a) {
      var x :| x in b && x !in a;
      assert a <= b - {x};
      SubsetSize(a, b - {x});
    }
  }

  ghost predicate Fits(m: Mapping) {
    && m.nextVirtualId < U64
    && |m.entries| < U64
    && forall k | k in m.entries :: k < U64 && m.entries[k] < U64
  }

  /** Whatever order the map is walked in and whatever padding follows, decoding restores the mapping. */
  lemma {:induction false} MappingRoundTrip(m: Mapping, es: seq<Entry>, tail: Bytes)
    requires Fits(m) && Lists(es, m.entries)
    ensures DecodeMapping(MappingBytes(m.nextVirtualId, es) + tail) == Ok(m)
  {
    hide ToLe, FromLe, EntriesBytes, DecodeEntries, Inserted;
    var p, q, r := ToLe(m.nextVirtualId, 8), ToLe(|es|, 8), EntriesBytes(es) + tail;
    assert MappingBytes(m.nextVirtualId, es) + tail == p + q + r;
    ThreeParts(p, q, r);
    Le64(m.nextVirtualId);
    Le64(|es|);
    ListsAll(es, m.entries);
    assert EntriesFit(es);
    EntriesRoundTrip(es, tail, map[]);
  }

  /** Entry `i` of a table of sixteen-byte records: key, then value. */
  function EntryAt(b: Bytes, i: nat): Entry
    requires 16 * i + 16 <= |b|
  {
    (FromLe(b[16 * i..16 * i + 8]), FromLe(b[16 * i + 8..16 * i + 16]))
  }

  function EntriesIn(b: Bytes, count: nat): (es: seq<Entry>)
    requires 16 * count <= |b|
    ensures |es| == count && forall i: nat | i < count :: es[i] == EntryAt(b, i)
  {
    seq(count, i requires 0 <= i < count => EntryAt(b, i))
  }

  lemma {:induction false} DecodeEntriesIs(b: Bytes, count: nat, acc: map<PageId, PageId>)
    ensures DecodeEntries(b, count, acc) ==
            if 16 * count <= |b| then Ok(Inserted(EntriesIn(b, count), acc)) else Err(InsufficientBuffer)
    decreases count
  {
    hide FromLe;
    if count > 0 && |b| >= 16 {
      var rest := b[16..];
      DecodeEntriesIs(rest, count - 1, acc[FromLe(b[0..8]) := FromLe(b[8..16])]);
      if 16 * count <= |b| {
        forall i: nat | i < count - 1 ensures EntryAt(rest, i) == EntryAt(b, i + 1) {
          assert rest[16 * i..16 * i + 8] == b[16 * (i + 1)..16 * (i + 1) + 8];
          assert rest[16 * i + 8..16 * i + 16] == b[16 * (i + 1) + 8..16 * (i + 1) + 16];
        }
        assert EntriesIn(b, count)[1..] == EntriesIn(rest, count - 1);
        assert EntriesIn(b, count)[0] == EntryAt(b, 0);
      }
    }
  }

  /** Of several entries for one key the last stays. */
  lemma {:induction false} LastEntryStays(es: seq<Entry>, acc: map<PageId, PageId>)
    ensures Inserted(es, acc).Keys == acc.Keys + KeysOf(es)
    ensures forall i | 0 <= i < |es| && (forall j | i < j < |es| :: es[j].0 != es[i].0) ::
              es[i].0 in Inserted(es, acc) && Inserted(es, acc)[es[i].0] == es[i].1
    ensures forall k | k in acc && k !in KeysOf(es) :: k in Inserted(es, acc) && Inserted(es, acc)[k] == acc[k]
    decreases |es|
  {
    if es != [] {
      var rest, acc' := es[1..], acc[es[0].0 := es[0].1];
      LastEntryStays(rest, acc');
      assert forall j | 0 <= j < |rest| :: rest[j] == es[j + 1];
      assert forall j | 1 <= j < |es| :: es[j] == rest[j - 1];
      assert KeysOf(es) == {es[0].0} + KeysOf(rest);
      assert (forall j | 0 < j < |es| :: es[j].0 != es[0].0) ==> es[0].0 !in KeysOf(rest);
    }
  }

  /** For every byte string: it is a mapping if and only if the count at offset 8 fits, whatever follows; the
      ids are those of the records from offset 16 on, the last one of an id decides, and the next id is at offset 0. */
  lemma DecodeMappingIff(b: Bytes)
    ensures DecodeMapping(b).Ok? <==> |b| >= 16 && 16 + 16 * FromLe(b[8..16]) <= |b|
    ensures DecodeMapping(b).Err? ==> DecodeMapping(b).error == InsufficientBuffer
    ensures DecodeMapping(b).Ok? ==>
              var m, es := DecodeMapping(b).value, EntriesIn(b[16..], FromLe(b[8..16]));
              && m.nextVirtualId == FromLe(b[0..8])
              && m.entries.Keys == KeysOf(es)
              && forall i | 0 <= i < |es| && (forall j | i < j < |es| :: es[j].0 != es[i].0) ::
                   es[i].0 in m.entries && m.entries[es[i].0] == es[i].1
  {
    hide FromLe, Inserted, KeysOf;
    if |b| >= 16 {
      DecodeEntriesIs(b[16..], FromLe(b[8..16]), map[]);
      if 16 * FromLe(b[8..16]) <= |b[16..]| {
        LastEntryStays(EntriesIn(b[16..], FromLe(b[8..16])), map[]);
      }
    }
  }

  /** No two pages claim the same virtual id; 0 claims none. */
  predicate DistinctVirtual(headers: seq<Entry>) {
    forall i, j | 0 <= i < j < |headers| && headers[i].1 != 0 :: headers[i].1 != headers[j].1
  }

  /** Header `i` is the last of the first `n` that moves its virtual id off the page of the same number. */
  predicate LastMove(headers: seq<Entry>, n: int, i: int) {
    && 0 <= i < n <= |headers| && headers[i].1 != 0 && headers[i].1 != headers[i].0
    && forall j | i < j < n && headers[j].1 != headers[j].0 :: headers[j].1 != headers[i].1
  }

  ghost predicate FollowsMoves(headers: seq<Entry>, n: int, entries: map<PageId, PageId>) {
    forall i | LastMove(headers, n, i) :: headers[i].1 in entries && entries[headers[i].1] == headers[i].0
  }

  lemma NoMoves(headers: seq<Entry>)
    ensures FollowsMoves(headers, 0, map[])
  {
  }

  lemma MoveStep(headers: seq<Entry>, n: nat, entries: map<PageId, PageId>)
    requires n < |headers| && FollowsMoves(headers, n, entries)
    ensures var (physical, virtual) := headers[n];
            FollowsMoves(headers, n + 1, if virtual == 0 || virtual == physical then entries else entries[virtual := physical])
  {
    forall i | LastMove(headers, n + 1, i) && i < n ensures LastMove(headers, n, i) {
    }
  }

  // ---------------------------------------------------------------------------
  // The mapper
  // ---------------------------------------------------------------------------

  class PageMapper {
    var mapping: Mapping
    var dirty: bool

    constructor ()
      ensures mapping == FreshMapping && !dirty
    {
      mapping, dirty := FreshMapping, false;
    }

    /** Each id is issued once: the counter only moves up. */
    method AllocateVirtual() returns (id: PageId)
      modifies this
      ensures id == old(mapping).nextVirtualId
      ensures mapping == old(mapping).(nextVirtualId := id + 1) && dirty
    {
      id := mapping.nextVirtualId;
      mapping := mapping.(nextVirtualId := id + 1);
      dirty := true;
    }

    /** Stored or not, the new translation is `physical` and no other id moves. */
    method Remap(id: PageId, physical: PageId)
      modifies this
      ensures mapping.nextVirtualId == old(mapping).nextVirtualId && dirty
      ensures mapping.entries == if id == physical then old(mapping).entries - {id} else old(mapping).entries[id := physical]
      ensures forall j: PageId :: mapping.Translate(j) == if j == id then physical else old(mapping).Translate(j)
    {
      if id == physical {
        mapping := mapping.(entries := mapping.entries - {id});
      } else {
        mapping := mapping.(entries := mapping.entries[id := physical]);
      }
      dirty := true;
    }

    /** A freed id falls back to the identity. */
    method Unmap(id: PageId)
      modifies this
      ensures mapping == old(mapping).(entries := old(mapping).entries - {id}) && dirty
      ensures forall j: PageId :: mapping.Translate(j) == if j == id then id else old(mapping).Translate(j)
    {
      mapping := mapping.(entries := mapping.entries - {id});
      dirty := true;
    }

    /** The explicit mappings onto a physical page, or its own number if nothing says otherwise. */
    method FindVirtualPagesForPhysical(physical: PageId) returns (r: seq<PageId>)
      ensures forall i, j | 0 <= i < j < |r| :: r[i] != r[j]
      ensures forall v: PageId :: v in r <==>
                          || (v in mapping.entries && mapping.entries[v] == physical)
                          || (v == physical && v !in mapping.entries && forall u | u in mapping.entries ::
                              mapping.entries[u] != physical)
    {
      r := [];
      var rest := mapping.entries.Keys;
      while rest != {}
        invariant rest <= mapping.entries.Keys
        invariant forall i | 0 <= i < |r| :: r[i] in mapping.entries && r[i] !in rest && mapping.entries[r[i]] == physical
        invariant forall i, j | 0 <= i < j < |r| :: r[i] != r[j]
        invariant forall v | v in mapping.entries && v !in rest && mapping.entries[v] == physical :: v in r
        decreases |rest|
      {
        var v :| v in rest;
        if mapping.entries[v] == physical {
          r := r + [v];
        }
        rest := rest - {v};
      }
      assert forall v: PageId :: v in r <==> v in mapping.entries && mapping.entries[v] == physical;
      if r == [] {
        assert forall u | u in mapping.entries :: mapping.entries[u] != physical;
        if physical !in mapping.entries {
          r := [physical];
        }
      } else {
        assert r[0] in mapping.entries && mapping.entries[r[0]] == physical;
      }
    }

    /** The map is walked in an arbitrary order; decoding the result gives the mapping back. */
    method ToBytes() returns (b: Bytes, ghost es: seq<Entry>)
      ensures Lists(es, mapping.entries)
      ensures b == MappingBytes(mapping.nextVirtualId, es)
      ensures Fits(mapping) ==> DecodeMapping(b) == Ok(mapping)
    {
      hide ToLe, FromLe, DecodeMapping, EntriesBytes, Fits;
      b := ToLe(mapping.nextVirtualId, 8) + ToLe(|mapping.entries|, 8);
      es := [];
      NoEntries();
      var rest := mapping.entries.Keys;
      ghost var header := b;
      while rest != {}
        invariant rest <= mapping.entries.Keys
        invariant |es| + |rest| == |mapping.entries|
        invariant forall i, j | 0 <= i < j < |es| :: es[i].0 != es[j].0
        invariant forall i | 0 <= i < |es| ::
                    es[i].0 !in rest && es[i].0 in mapping.entries && mapping.entries[es[i].0] == es[i].1
        invariant b == header + EntriesBytes(es)
        decreases |rest|
      {
        var v :| v in rest;
        b := b + ToLe(v, 8);
        b := b + ToLe(mapping.entries[v], 8);
        EntriesAppend(es, (v, mapping.entries[v]));
        es := es + [(v, mapping.entries[v])];
        rest := rest - {v};
      }
      if Fits(mapping) {
        MappingRoundTrip(mapping, es, []);
        assert b + [] == b;
      }
    }

    /** Loop form of the decoder. */
    static method FromBytes(b: Bytes) returns (r: Result<Mapping, PagerError>)
      ensures r == DecodeMapping(b)
    {
      if |b| < 16 {
        return Err(InsufficientBuffer);
      }
      var next := FromLe(b[0..8]);
      var count := FromLe(b[8..16]);
      var m: map<PageId, PageId> := map[];
      var offset := 16;
      var n := 0;
      assert b[16..] == b[offset..];
      while n < count
        invariant 0 <= n <= count && 16 <= offset <= |b|
        invariant DecodeEntries(b[16..], count, map[]) == DecodeEntries(b[offset..], count - n, m)
      {
        if offset + 16 > |b| {
          return Err(InsufficientBuffer);
        }
        var rest := b[offset..];
        assert rest[0..8] == b[offset..offset + 8] && rest[8..16] == b[offset + 8..offset + 16];
        assert rest[16..] == b[offset + 16..];
        m := m[FromLe(b[offset..offset + 8]) := FromLe(b[offset + 8..offset + 16])];
        offset := offset + 16;
        n := n + 1;
      }
      r := Ok(Mapping(m, next));
    }

    /** Rebuilding from (physical, virtual) header pairs in any order: every named virtual id
        translates to its page, nothing else is mapped, and the next id is above them all. Of several pages
        that claim one id the last decides, unless it is the page of the same number. */
    static method RebuildFromHeaders(headers: seq<Entry>) returns (m: Mapping)
      ensures DistinctVirtual(headers) ==>
                forall i | 0 <= i < |headers| && headers[i].1 != 0 :: m.Translate(headers[i].1) == headers[i].0
      ensures forall i | 0 <= i < |headers| :: headers[i].1 < m.nextVirtualId
      ensures FollowsMoves(headers, |headers|, m.entries)
      ensures forall v | v in m.entries :: (m.entries[v], v) in headers && v != 0 && v != m.entries[v]
      ensures m.nextVirtualId == 3 || exists i | 0 <= i < |headers| :: m.nextVirtualId == headers[i].1 + 1
      ensures m.nextVirtualId >= 3
    {
      hide FollowsMoves;
      var entries: map<PageId, PageId> := map[];
      var maxVirtual := 2;
      NoMoves(headers);
      for n := 0 to |headers|
        invariant maxVirtual >= 2
        invariant maxVirtual == 2 || exists i | 0 <= i < n :: maxVirtual == headers[i].1
        invariant forall i | 0 <= i < n :: headers[i].1 <= maxVirtual
        invariant DistinctVirtual(headers) ==> forall i | 0 <= i < n && headers[i].1 != 0 ::
                    if headers[i].1 in entries then entries[headers[i].1] == headers[i].0 else headers[i].1 == headers[i].0
        invariant forall v | v in entries :: exists i | 0 <= i < n :: headers[i] == (entries[v], v)
        invariant forall v | v in entries :: v != 0 && v != entries[v]
        invariant FollowsMoves(headers, n, entries)
      {
        var (physical, virtual) := headers[n];
        MoveStep(headers, n, entries);
        if virtual == 0 {
          continue;
        }
        assert DistinctVirtual(headers) ==> virtual !in entries;
        if virtual > maxVirtual {
          maxVirtual := virtual;
        }
        if virtual != physical {
          entries := entries[virtual := physical];
        }
      }
      m := Mapping(entries, maxVirtual + 1);
    }
  }

  lemma NoEntries()
    ensures EntriesBytes([]) == []
  {
  }

  lemma {:induction false} EntriesAppend(es: seq<Entry>, e: Entry)
    ensures EntriesBytes(es + [e]) == EntriesBytes(es) + EntryBytes(e)
  {
    if es == [] {
      assert es + [e] == [e];
      assert [e][1..] == [];
    } else {
      assert (es + [e])[1..] == es[1..] + [e];
      EntriesAppend(es[1..], e);
    }
  }
}
