/** Whole runs of the pager against a plain map from ids to contents. */
module PagerRuns {
  import opened Wrappers
  import opened Bytes
  import opened Pages
  import opened PageMappers
  import opened Allocator
  import opened Pagers

  datatype Op =
    | Allocate(pageType: PageType)
    | Free(id: PageId)
    | Read(id: PageId)
    | Write(id: PageId, content: Content)
    | Flush
    | ClearCache

  datatype Outcome = Issued(id: PageId) | Found(content: Content) | Done

  /** What a client can know: the contents of every live id, and the next id. */
  datatype Store = Store(live: map<PageId, Content>, next: PageId)

  /** What a client may ask for. */
  predicate Legal(s: Store, op: Op, pageSize: nat) {
    match op
    case Allocate(t) => s.next + 1 < U64 && Storable(Content(t, []), pageSize)
    case Free(id) => id in s.live
    case Read(id) => id in s.live
    case Write(id, c) => id in s.live && Storable(c, pageSize)
    case Flush => true
    case ClearCache => true
  }

  function Step(s: Store, op: Op): Store {
    match op
    case Allocate(t) => Store(s.live[s.next := Content(t, [])], s.next + 1)
    case Free(id) => s.(live := s.live - {id})
    case Read(_) => s
    case Write(id, c) => s.(live := s.live[id := c])
    case Flush => s
    case ClearCache => s
  }

  function Answer(s: Store, op: Op): Outcome {
    match op
    case Allocate(_) => Issued(s.next)
    case Read(id) => if id in s.live then Found(s.live[id]) else Done
    case _ => Done
  }

  function After(s: Store, ops: seq<Op>): Store {
    if ops == [] then s else Step(After(s, ops[..|ops| - 1]), ops[|ops| - 1])
  }

  predicate LegalRun(s: Store, ops: seq<Op>, pageSize: nat) {
    forall n | 0 <= n < |ops| :: Legal(After(s, ops[..n]), ops[n], pageSize)
  }

  /** Every run on every pager, with any cache and in either write mode, answers as the map does. */
  method Run(p: Pager, ops: seq<Op>) returns (outs: seq<Outcome>)
    requires p.Valid() && LegalRun(Store(p.live, p.mapper.mapping.nextVirtualId), ops, p.cfg.pageSize)
    modifies p`disk, p`live, p`headerTotalPages, p`headerFreePages, p.mapper, p.freeList, p.superblock, p.Shards()
    ensures p.Valid()
    ensures var s := Store(old(p.live), old(p.mapper.mapping).nextVirtualId);
            && Store(p.live, p.mapper.mapping.nextVirtualId) == After(s, ops)
            && |outs| == |ops|
            && forall n | 0 <= n < |ops| :: outs[n] == Answer(After(s, ops[..n]), ops[n])
  {
    hide Pager.Valid, Storable, Answer, Step, Legal;
    ghost var s := Store(p.live, p.mapper.mapping.nextVirtualId);
    outs := [];
    while |outs| < |ops|
      invariant |outs| <= |ops| && p.Valid()
      invariant Store(p.live, p.mapper.mapping.nextVirtualId) == After(s, ops[..|outs|])
      invariant forall n | 0 <= n < |outs| :: outs[n] == Answer(After(s, ops[..n]), ops[n])
      decreases |ops| - |outs|
    {
      var n := |outs|;
      assert ops[..n + 1][..n] == ops[..n];
      var out := Perform(p, ops[n]);
      outs := outs + [out];
    }
    assert ops[..|ops|] == ops;
  }

  /** One operation. */
  method Perform(p: Pager, op: Op) returns (out: Outcome)
    requires p.Valid() && Legal(Store(p.live, p.mapper.mapping.nextVirtualId), op, p.cfg.pageSize)
    modifies p`disk, p`live, p`headerTotalPages, p`headerFreePages, p.mapper, p.freeList, p.superblock, p.Shards()
    ensures p.Valid()
    ensures Store(p.live, p.mapper.mapping.nextVirtualId) == Step(Store(old(p.live), old(p.mapper.mapping).nextVirtualId), op)
    ensures out == Answer(Store(old(p.live), old(p.mapper.mapping).nextVirtualId), op)
  {
    hide Pager.Valid, Storable, Plain;
    out := Done;
    match op {
      case Allocate(t) =>
        var r := p.AllocatePage(t);
        out := Issued(r.value);
      case Free(id) =>
        var _ := p.FreePage(id);
      case Read(id) =>
        var r := p.ReadPage(id);
        MatchesMeans(r.value, id, p.live[id]);
        out := Found(Content(r.value.header.pageType, r.value.data));
      case Write(id, c) =>
        LiveIdFits(p, id);
        StorableIsPlain(id, c, p.cfg.pageSize);
        var _ := p.WritePage(NewPage(id, c.pageType).(data := c.data));
      case Flush =>
        ValidIsCoherent(p);
        var _ := p.FlushCache();
      case ClearCache =>
        ValidIsCoherent(p);
        var _ := p.ClearCache();
    }
  }

  lemma ValidIsCoherent(p: Pager)
    requires p.Valid()
    ensures p.Coherent()
  {
    hide Pager.Coherent;
  }

  lemma LiveIdFits(p: Pager, id: PageId)
    requires p.Valid() && id in p.live
    ensures id < U64
  {
    hide Partition, Coherence, NoneDirty;
    SlotFacts(p.live.Keys, p.mapper.mapping, p.freeList.freePages, p.superblock.state.nextPageId, id);
  }

  lemma StorableIsPlain(id: PageId, c: Content, pageSize: nat)
    requires id < U64 && Storable(c, pageSize)
    ensures Plain(NewPage(id, c.pageType).(data := c.data), pageSize)
  {
  }

  // ---------------------------------------------------------------------------
  // The mapper read backwards
  // ---------------------------------------------------------------------------

  /** In every state of a pager the reverse lookup of a page in use names its one live id. */
  method LiveIdOf(p: Pager, physical: PageId, ghost id: PageId) returns (r: seq<PageId>)
    requires p.Valid() && id in p.live && p.Physical(id) == physical
    ensures r == [id]
  {
    hide Pager.Valid, Partition;
    PartitionOf(p);
    ghost var live, free, next := p.live.Keys, p.freeList.freePages, p.superblock.state.nextPageId;
    r := p.mapper.FindVirtualPagesForPhysical(physical);
    ReverseLookupIsExact(live, p.mapper.mapping, free, next, id, r);
  }

  lemma PartitionOf(p: Pager)
    requires p.Valid()
    ensures Partition(p.live.Keys, p.mapper.mapping, p.freeList.freePages, p.superblock.state.nextPageId)
  {
    hide Partition, Coherence, NoneDirty;
  }

  /** The headers of the live pages, in any order and each once. */
  ghost predicate LiveHeaders(p: Pager, headers: seq<Entry>)
    reads p, p.mapper
  {
    && DistinctVirtual(headers)
    && (forall v | v in p.live :: (p.Physical(v), v) in headers)
    && (forall i | 0 <= i < |headers| :: headers[i].1 in p.live && headers[i].0 == p.Physical(headers[i].1))
  }

  /** In every state of a pager, rebuilding the mapping from the headers of the live pages gives one
      that finds every live page and issues no live id again. */
  method RebuildMapping(p: Pager, headers: seq<Entry>) returns (m: Mapping)
    requires p.Valid() && LiveHeaders(p, headers)
    ensures forall v | v in p.live :: m.Translate(v) == p.Physical(v) && v < m.nextVirtualId
  {
    hide Pager.Valid, Partition;
    PartitionOf(p);
    ghost var live, free, next := p.live.Keys, p.freeList.freePages, p.superblock.state.nextPageId;
    m := PageMapper.RebuildFromHeaders(headers);
    RebuiltAgrees(live, p.mapper.mapping, free, next, headers, m);
  }

  /** The counters of every pager state: all pages below the next one are counted, and apart from the
      two reserved ones each is live or free. */
  lemma PagesAreAccountedFor(p: Pager)
    requires p.Valid()
    ensures p.superblock.state.totalPages == p.superblock.state.nextPageId == 2 + |p.live| + |p.freeList.freePages|
    ensures p.superblock.state.freePages == |p.freeList.freePages| == p.freeList.totalFree
    ensures forall q: PageId | 2 <= q < p.superblock.state.nextPageId ::
              (q in p.freeList.freePages) != (exists v | v in p.live :: p.Physical(v) == q)
    ensures forall u, v | u in p.live && v in p.live && u != v :: p.Physical(u) != p.Physical(v)
  {
    hide Coherence, NoneDirty;
    var free, m := p.freeList.freePages, p.mapper.mapping;
    assert p.live.Keys == set v | v in p.live;
    forall q: PageId | 2 <= q < p.superblock.state.nextPageId
      ensures (q in free) != (exists v | v in p.live :: p.Physical(v) == q)
    {
      if q !in free {
        assert Backs(p.live.Keys, m, q);
        var v :| v in p.live.Keys && m.Translate(v) == q;
        assert p.Physical(v) == q;
      } else {
        forall v | v in p.live ensures p.Physical(v) != q {
          assert LiveOk(m, free, p.superblock.state.nextPageId, v);
        }
      }
    }
  }

  // ---------------------------------------------------------------------------
  // What runs of the map look like
  // ---------------------------------------------------------------------------

  /** The latest contents given to `id`: by a write, or empty from its allocation. */
  function LastStored(s: Store, ops: seq<Op>, id: PageId): Option<Content> {
    if ops == [] then (if id in s.live then Some(s.live[id]) else None)
    else
      var front, op := ops[..|ops| - 1], ops[|ops| - 1];
      match op
      case Write(v, c) => if v == id then Some(c) else LastStored(s, front, id)
      case Allocate(t) => if After(s, front).next == id then Some(Content(t, [])) else LastStored(s, front, id)
      case _ => LastStored(s, front, id)
  }

  /** In every run an id that is live holds what was last stored under it. */
  lemma {:induction false} ReadsSeeTheLastWrite(s: Store, ops: seq<Op>, id: PageId)
    requires id in After(s, ops).live
    ensures LastStored(s, ops, id) == Some(After(s, ops).live[id])
  {
    if ops != [] {
      var front := ops[..|ops| - 1];
      if id in After(s, front).live {
        ReadsSeeTheLastWrite(s, front, id);
      }
    }
  }

  lemma {:induction false} NextGrows(s: Store, ops: seq<Op>, n: nat)
    requires n <= |ops|
    ensures After(s, ops[..n]).next <= After(s, ops).next
  {
    if n < |ops| {
      var front := ops[..|ops| - 1];
      assert front[..n] == ops[..n];
      NextGrows(s, front, n);
    } else {
      assert ops[..n] == ops;
    }
  }

  /** Ids are issued once: two allocations of a run never answer with the same id. */
  lemma IdsAreIssuedOnce(s: Store, ops: seq<Op>, i: nat, j: nat)
    requires i < j < |ops| && ops[i].Allocate? && ops[j].Allocate?
    ensures Answer(After(s, ops[..i]), ops[i]) != Answer(After(s, ops[..j]), ops[j])
  {
    assert ops[..j][..i + 1] == ops[..i + 1] && ops[..i + 1][..i] == ops[..i];
    NextGrows(s, ops[..j], i + 1);
  }

  /** A freed id stays dead for the rest of the run. */
  lemma {:induction false} FreedIdsStayDead(s: Store, ops: seq<Op>, pageSize: nat, n: nat, id: PageId)
    requires LegalRun(s, ops, pageSize) && n <= |ops|
    requires id < After(s, ops[..n]).next && id !in After(s, ops[..n]).live
    ensures id !in After(s, ops).live
  {
    if n < |ops| {
      var front := ops[..|ops| - 1];
      assert forall k | 0 <= k <= |front| :: front[..k] == ops[..k];
      FreedIdsStayDead(s, front, pageSize, n, id);
      NextGrows(s, front, n);
      assert Legal(After(s, front), ops[|ops| - 1], pageSize);
    } else {
      assert ops[..n] == ops;
    }
  }
}
