/** The pager (src/pager/pagefile.rs): virtual page ids over a file of page slots, with an allocator
    and an optional cache. Sequential runs, without compression and encryption. */
module Pagers {
  import opened Wrappers
  import opened Bytes
  import opened Pages
  import opened Lru
  import opened PageCaches
  import opened PageMappers
  import opened FreeLists
  import opened Superblocks
  import opened Allocator

  /** What a client stores under an id. */
  datatype Content = Content(pageType: PageType, data: Bytes)

  datatype Config = Config(lib: Library, pageSize: nat, checksums: bool, key: Option<Bytes>)
  {
    ghost predicate Valid() {
      lib.Valid() && pageSize in {4096, 8192, 16384, 32768, 65536}
    }

    function DataSize(): nat
      requires pageSize >= 64
    {
      pageSize - HEADER_SIZE - CHECKSUM_SIZE
    }
  }

  /** Contents a client may store: they fit, and their type is neither reserved nor undecodable. */
  predicate Storable(c: Content, pageSize: nat) {
    && c.pageType.Decodable() && !c.pageType.Free? && !c.pageType.FreeList?
    && |c.data| + HEADER_SIZE + CHECKSUM_SIZE <= pageSize
  }

  predicate Plain(p: Page, pageSize: nat) {
    && p.header.compression.NoCompression? && p.header.encryption.NoEncryption?
    && p.header.pageId < U64 && p.header.virtualPageId < U64
    && p.header.pageType.Decodable()
    && |p.data| + HEADER_SIZE + CHECKSUM_SIZE <= pageSize
  }

  predicate Matches(p: Page, id: PageId, c: Content) {
    p.header.pageId == id && p.header.pageType == c.pageType && p.data == c.data
  }

  function ReadSlot(cfg: Config, b: Bytes): Result<Page, PagerError> {
    FromBytes(cfg.lib, b, cfg.checksums, cfg.key)
  }

  /** A slot that reads back as page `id` with contents `c`. */
  ghost predicate Holds(cfg: Config, b: Bytes, id: PageId, c: Content) {
    var r := ReadSlot(cfg, b);
    r.Ok? && Matches(r.value, id, c) && Plain(r.value, cfg.pageSize)
  }

  /** A slot that reads back as a page with virtual id `id`. */
  ghost predicate ReadsVirtual(cfg: Config, b: Bytes, id: PageId) {
    ReadSlot(cfg, b).Ok? && ReadSlot(cfg, b).value.header.virtualPageId == id
  }

  function WriteSlot(cfg: Config, p: Page): Result<Bytes, PagerError>
    requires cfg.pageSize >= CHECKSUM_SIZE
  {
    ToBytes(cfg.lib, p, cfg.pageSize, cfg.key, Zeros(NONCE_SIZE))
  }

  /** A plain page fills exactly one slot and is read back from it. */
  lemma WriteHolds(cfg: Config, p: Page)
    requires cfg.Valid() && Plain(p, cfg.pageSize)
    ensures cfg.pageSize >= CHECKSUM_SIZE && WriteSlot(cfg, p).Ok? && |WriteSlot(cfg, p).value| == cfg.pageSize
    ensures Holds(cfg, WriteSlot(cfg, p).value, p.header.pageId, Content(p.header.pageType, p.data))
    ensures ReadsVirtual(cfg, WriteSlot(cfg, p).value, p.header.virtualPageId)
  {
    var nonce := Zeros(NONCE_SIZE);
    assert Prepared(cfg.lib, p, cfg.key, nonce).Ok? && Prepared(cfg.lib, p, cfg.key, nonce).value.1 == p.data;
    assert ToBytes(cfg.lib, p, cfg.pageSize, cfg.key, nonce).Ok?;
    EncodedLength(cfg.lib, p, cfg.pageSize, cfg.key, nonce);
    PageRoundTripIff(cfg.lib, p, cfg.pageSize, cfg.checksums, cfg.key, nonce);
    hide ToBytes, FromBytes, Library.Valid;
  }

  /** With checksums on, a slot is read as a page only if its digest is right, and one that is otherwise
      well-formed is refused for its digest if and only if that is wrong; with checksums off it never is. */
  lemma SlotIsChecked(cfg: Config, b: Bytes)
    ensures ReadSlot(cfg, b).Ok? ==> WellFormed(b) && (cfg.checksums ==> SumIsRight(cfg.lib, b))
    ensures WellFormed(b) ==>
              (ReadSlot(cfg, b) == Err(ChecksumMismatch(FromLe(b[0..8]))) <==> cfg.checksums && !SumIsRight(cfg.lib, b))
  {
    hide FromBytes, WellFormed, SumIsRight, FromLe;
    DecodeIsExact(cfg.lib, b, cfg.key);
    if WellFormed(b) {
      NoDigestError(cfg.lib, b, cfg.key);
    }
  }

  lemma NoDigestError(lib: Library, b: Bytes, key: Option<Bytes>)
    ensures FromBytes(lib, b, false, key).Err? ==> !FromBytes(lib, b, false, key).error.ChecksumMismatch?
  {
    hide FromLe, HeaderBytes;
  }

  /** Reading a slot nothing was written to never yields a page in use. */
  lemma EmptySlot(cfg: Config)
    requires cfg.Valid()
    ensures var r := ReadSlot(cfg, Zeros(cfg.pageSize));
            r.Err? || r.value.header.pageType.Free?
  {
    var b := Zeros(cfg.pageSize);
    assert b[0..HEADER_SIZE][8] == 0;
  }

  ghost predicate StoredIn(cfg: Config, disk: map<PageId, Bytes>, p: PageId, id: PageId, c: Content) {
    p in disk && Holds(cfg, disk[p], id, c)
  }

  const FreeContent := Content(PageType.Free, [])

  function SuperblockPage(sb: SuperblockState): Page {
    NewPage(1, PageType.Superblock).(data := Encode(sb, []))
  }

  /** Page 1 decodes to the given counters. */
  ghost predicate SuperblockOnDisk(cfg: Config, disk: map<PageId, Bytes>, sb: SuperblockState) {
    1 in disk && HoldsSuperblock(cfg, disk[1], sb)
  }

  ghost predicate HoldsSuperblock(cfg: Config, b: Bytes, sb: SuperblockState) {
    && ReadSlot(cfg, b).Ok?
    && ReadSlot(cfg, b).value.header.pageId == 1 && ReadSlot(cfg, b).value.header.pageType.Superblock?
    && Decode(ReadSlot(cfg, b).value.data) == Ok(sb)
  }

  lemma SuperblockIsWritten(cfg: Config, disk: map<PageId, Bytes>, sb: SuperblockState)
    requires cfg.Valid() && StateFits(sb) && sb.pageMapper == FreshMapping
    ensures cfg.pageSize >= CHECKSUM_SIZE && WriteSlot(cfg, SuperblockPage(sb)).Ok?
    ensures SuperblockOnDisk(cfg, disk[1 := WriteSlot(cfg, SuperblockPage(sb)).value], sb)
  {
    WriteHolds(cfg, SuperblockPage(sb));
    SuperblockRoundTripIff(sb, []);
    hide WriteSlot, ReadSlot, Encode, Decode, Config.Valid;
  }

  lemma FreshBooks()
    ensures Partition({}, FreshMapping, [], 2)
    ensures StateFits(FreshSuperblock)
  {
  }

  lemma FitsAfter(sb: SuperblockState, sb': SuperblockState)
    requires StateFits(sb) && sb'.totalPages < U64 && sb'.nextPageId < U64 && sb'.freePages < U64
    requires sb' == sb.(totalPages := sb'.totalPages, nextPageId := sb'.nextPageId, freePages := sb'.freePages)
    ensures StateFits(sb')
  {
    forall i | 0 <= i < 12 ensures Fields(sb')[i] < U64 {
      assert Fields(sb)[i] < U64;
    }
  }

  lemma PlainFree(p: PageId, cfg: Config)
    requires cfg.Valid() && p < U64
    ensures Plain(NewPage(p, PageType.Free), cfg.pageSize)
  {
  }

  /** A free slot is not the slot of a storable page. */
  lemma FreeIsNot(cfg: Config, b: Bytes, p: PageId, id: PageId, c: Content)
    requires Holds(cfg, b, p, FreeContent) && Storable(c, cfg.pageSize)
    ensures !Holds(cfg, b, id, c)
  {
  }

  lemma TotalFits(sb: SuperblockState)
    requires StateFits(sb)
    ensures sb.totalPages < U64 && sb.nextPageId < U64
  {
    assert Fields(sb)[2] < U64 && Fields(sb)[6] < U64;
  }

  // ---------------------------------------------------------------------------
  // Coherence of file, cache and contents, on values
  // ---------------------------------------------------------------------------

  /** A cached page of a live id is its contents; freed ids may linger, but clean, and ids not
      yet issued are never cached. */
  ghost predicate EntryOk(cfg: Config, live: map<PageId, Content>, next: PageId, id: PageId, e: Option<Item>) {
    e.Some? ==>
      && id < next
      && Plain(e.value.page, cfg.pageSize)
      && (id in live ==> Matches(e.value.page, id, live[id]))
      && (e.value.dirty ==> id in live)
  }

  /** A live page is on disk unless the cache holds a newer copy. */
  ghost predicate SlotOk(cfg: Config, disk: map<PageId, Bytes>, live: map<PageId, Content>, m: Mapping, view: View, id: PageId) {
    id in live && !DirtyIn(view, id) ==> StoredIn(cfg, disk, m.Translate(id), id, live[id])
  }

  ghost predicate FreeSlots(cfg: Config, disk: map<PageId, Bytes>, free: seq<PageId>) {
    forall p | p in free :: StoredIn(cfg, disk, p, p, FreeContent)
  }

  ghost predicate AllStorable(cfg: Config, live: map<PageId, Content>) {
    forall v | v in live :: Storable(live[v], cfg.pageSize)
  }

  ghost predicate Coherence(cfg: Config, disk: map<PageId, Bytes>, live: map<PageId, Content>, m: Mapping,
                            free: seq<PageId>, view: View) {
    && FreeSlots(cfg, disk, free)
    && AllStorable(cfg, live)
    && (forall v: PageId :: SlotOk(cfg, disk, live, m, view, v))
    && (forall v: PageId :: EntryOk(cfg, live, m.nextVirtualId, v, Look(view, v)))
  }

  ghost predicate NoneDirty(view: View) {
    forall v: PageId :: !DirtyIn(view, v)
  }

  ghost predicate CleanBut(view: View, id: PageId) {
    forall v: PageId | v != id :: !DirtyIn(view, v)
  }

  /** The two files agree except on slot `p`. */
  ghost predicate SameBut(disk: map<PageId, Bytes>, disk': map<PageId, Bytes>, p: PageId) {
    && disk'.Keys == disk.Keys + {p}
    && forall q | q in disk && q != p :: disk'[q] == disk[q]
  }

  lemma SetSlot(cfg: Config, disk: map<PageId, Bytes>, p: PageId, b: Bytes, id: PageId, c: Content)
    ensures SameBut(disk, disk[p := b], p)
    ensures Holds(cfg, b, id, c) ==> StoredIn(cfg, disk[p := b], p, id, c)
  {
    hide Holds;
  }

  /** The cache may forget clean entries other than `id`. */
  ghost predicate ForgetsOnly(view: View, view': View, id: PageId) {
    forall v: PageId | v != id :: Look(view', v) == Look(view, v) || (Look(view', v) == None && !DirtyIn(view, v))
  }

  /** Storing contents `c` under a live id in its own slot. */
  lemma StoreKeepsCoherence(cfg: Config, disk: map<PageId, Bytes>, disk': map<PageId, Bytes>, live: map<PageId, Content>,
                            m: Mapping,
                            free: seq<PageId>, nextPage: nat, view: View, view': View, id: PageId, c: Content)
    requires Partition(live.Keys, m, free, nextPage) && Coherence(cfg, disk, live, m, free, view)
    requires id in live && Storable(c, cfg.pageSize)
    requires SameBut(disk, disk', m.Translate(id)) && StoredIn(cfg, disk', m.Translate(id), id, c)
    requires ForgetsOnly(view, view', id)
    requires EntryOk(cfg, live[id := c], m.nextVirtualId, id, Look(view', id))
    ensures Coherence(cfg, disk', live[id := c], m, free, view')
  {
    hide Partition, Holds, Plain, Storable, Matches;
    SlotFacts(live.Keys, m, free, nextPage, id);
    var live', p := live[id := c], m.Translate(id);
    StoreKeepsFreeSlots(cfg, disk, disk', free, p);
    forall v: PageId ensures SlotOk(cfg, disk', live', m, view', v) {
      if v != id {
        StoreKeepsSlot(cfg, disk, disk', live, live', m, view, view', v, p);
      }
    }
    forall v: PageId ensures EntryOk(cfg, live', m.nextVirtualId, v, Look(view', v)) {
      assert EntryOk(cfg, live, m.nextVirtualId, v, Look(view, v));
    }
    hide SlotOk, EntryOk, FreeSlots;
  }

  lemma StoreKeepsFreeSlots(cfg: Config, disk: map<PageId, Bytes>, disk': map<PageId, Bytes>, free: seq<PageId>, p: PageId)
    requires FreeSlots(cfg, disk, free) && SameBut(disk, disk', p) && p !in free
    ensures FreeSlots(cfg, disk', free)
  {
    hide Holds;
    forall q | q in free ensures StoredIn(cfg, disk', q, q, FreeContent) {
      assert StoredIn(cfg, disk, q, q, FreeContent);
    }
  }

  lemma StoreKeepsSlot(cfg: Config, disk: map<PageId, Bytes>, disk': map<PageId, Bytes>, live: map<PageId, Content>,
                       live': map<PageId, Content>,
                       m: Mapping, view: View, view': View, v: PageId, p: PageId)
    requires SlotOk(cfg, disk, live, m, view, v) && SameBut(disk, disk', p)
    requires v in live' ==> v in live && live'[v] == live[v] && m.Translate(v) != p
    requires DirtyIn(view, v) ==> DirtyIn(view', v)
    ensures SlotOk(cfg, disk', live', m, view', v)
  {
    hide Holds;
  }

  /** A page may be cached as its id's contents, which are new if it is marked dirty; a page of an id that is
      not live only clean. */
  predicate CanCache(live: map<PageId, Content>, page: Page, dirty: bool, pageSize: nat) {
    && Plain(page, pageSize)
    && var id := page.header.pageId;
       if id in live then Storable(Content(page.header.pageType, page.data), pageSize) && (dirty || Matches(page, id, live[id]))
       else !dirty
  }

  function Updated(live: map<PageId, Content>, page: Page): map<PageId, Content> {
    if page.header.pageId in live then live[page.header.pageId := Content(page.header.pageType, page.data)] else live
  }

  /** Putting a page in the cache. */
  lemma PutKeepsCoherence(cfg: Config, disk: map<PageId, Bytes>, live: map<PageId, Content>, m: Mapping, free: seq<PageId>,
                          view: View, view': View, page: Page, dirty: bool)
    requires Coherence(cfg, disk, live, m, free, view)
    requires var id := page.header.pageId;
             && id < m.nextVirtualId
             && ForgetsOnly(view, view', id)
             && Look(view', id) == Some(Item(page, dirty || DirtyIn(view, id)))
             && CanCache(live, page, dirty, cfg.pageSize)
    ensures Coherence(cfg, disk, Updated(live, page), m, free, view')
  {
    hide Holds, Plain, Storable, StoredIn;
    var id := page.header.pageId;
    var live' := Updated(live, page);
    forall v: PageId ensures SlotOk(cfg, disk, live', m, view', v) && EntryOk(cfg, live', m.nextVirtualId, v, Look(view', v)) {
      assert SlotOk(cfg, disk, live, m, view, v) && EntryOk(cfg, live, m.nextVirtualId, v, Look(view, v));
    }
  }

  /** A new id with empty contents on a page that was nobody's. */
  lemma IssueKeepsCoherence(cfg: Config, disk: map<PageId, Bytes>, disk': map<PageId, Bytes>, live: map<PageId, Content>,
                            m: Mapping,
                            free: seq<PageId>, free': seq<PageId>, nextPage: nat, view: View, p: PageId, c: Content)
    requires Partition(live.Keys, m, free, nextPage) && Coherence(cfg, disk, live, m, free, view)
    requires p == (if free != [] then free[0] else nextPage) && free' == (if free != [] then free[1..] else [])
    requires disk'.Keys == disk.Keys + {1, p} && forall q | q in disk && q != 1 && q != p :: disk'[q] == disk[q]
    requires StoredIn(cfg, disk', p, m.nextVirtualId, c) && Storable(c, cfg.pageSize)
    ensures m.nextVirtualId !in live
    ensures Coherence(cfg, disk', live[m.nextVirtualId := c], Issued(m, p), free', view)
  {
    hide Partition, Holds, Plain, Storable, StoredIn, Issued;
    NewSlotFacts(live.Keys, m, free, nextPage, p);
    var id := m.nextVirtualId;
    var live' := live[id := c];
    FreeSlotsStay(cfg, disk, disk', free, free', p);
    forall v: PageId ensures SlotOk(cfg, disk', live', Issued(m, p), view, v) {
      if v != id {
        SlotStays(cfg, disk, disk', live, live', m, Issued(m, p), view, v);
      }
    }
    forall v: PageId ensures EntryOk(cfg, live', id + 1, v, Look(view, v)) {
      assert EntryOk(cfg, live, id, v, Look(view, v));
    }
    assert Issued(m, p).nextVirtualId == id + 1 by { IssuedNext(m, p); }
  }

  lemma IssuedNext(m: Mapping, p: PageId)
    ensures Issued(m, p).nextVirtualId == m.nextVirtualId + 1
  {
  }

  /** A slot that nobody wrote to keeps what it held. */
  lemma SlotStays(cfg: Config, disk: map<PageId, Bytes>, disk': map<PageId, Bytes>, live: map<PageId, Content>,
                  live': map<PageId, Content>,
                  m: Mapping, m': Mapping, view: View, v: PageId)
    requires SlotOk(cfg, disk, live, m, view, v)
    requires v in live' ==> v in live && live'[v] == live[v] && m'.Translate(v) == m.Translate(v)
    requires v in live' && m.Translate(v) in disk ==> m.Translate(v) in disk' && disk'[m.Translate(v)] == disk[m.Translate(v)]
    ensures SlotOk(cfg, disk', live', m', view, v)
  {
    hide Holds;
  }

  lemma FreeSlotsStay(cfg: Config, disk: map<PageId, Bytes>, disk': map<PageId, Bytes>, free: seq<PageId>,
                      free': seq<PageId>, p: PageId)
    requires FreeSlots(cfg, disk, free)
    requires forall q | q in free :: q >= 2
    requires disk'.Keys == disk.Keys + {1, p} && forall q | q in disk && q != 1 && q != p :: disk'[q] == disk[q]
    requires forall q | q in free' :: q in free || q == p
    requires p in free' ==> StoredIn(cfg, disk', p, p, FreeContent)
    ensures FreeSlots(cfg, disk', free')
  {
    hide Holds;
    forall q | q in free' ensures StoredIn(cfg, disk', q, q, FreeContent) {
      if q != p {
        assert StoredIn(cfg, disk, q, q, FreeContent);
      }
    }
  }

  /** A live id goes and its slot becomes a free page; its cache entry stays behind, clean. */
  lemma FreeKeepsCoherence(cfg: Config, disk: map<PageId, Bytes>, disk': map<PageId, Bytes>, live: map<PageId, Content>,
                           m: Mapping,
                           free: seq<PageId>, nextPage: nat, view: View, id: PageId)
    requires Partition(live.Keys, m, free, nextPage) && Coherence(cfg, disk, live, m, free, view) && NoneDirty(view)
    requires id in live
    requires var p := m.Translate(id);
             && disk'.Keys == disk.Keys + {1, p} && (forall q | q in disk && q != 1 && q != p :: disk'[q] == disk[q])
             && StoredIn(cfg, disk', p, p, FreeContent)
    ensures Coherence(cfg, disk', live - {id}, m.(entries := m.entries - {id}), free + [m.Translate(id)], view)
  {
    hide Partition, Holds, Plain, Storable, StoredIn;
    FreeKeepsPartition(live.Keys, m, free, nextPage, id);
    FreedSlots(live.Keys, m, free, nextPage);
    var live', m', p := live - {id}, m.(entries := m.entries - {id}), m.Translate(id);
    FreeSlotsStay(cfg, disk, disk', free, free + [p], p);
    forall v: PageId ensures SlotOk(cfg, disk', live', m', view, v) {
      if v in live' {
        SlotStays(cfg, disk, disk', live, live', m, m', view, v);
      }
    }
    forall v: PageId ensures EntryOk(cfg, live', m.nextVirtualId, v, Look(view, v)) {
      assert EntryOk(cfg, live, m.nextVirtualId, v, Look(view, v)) && !DirtyIn(view, v);
    }
  }

  lemma FreshCoherence(cfg: Config, disk: map<PageId, Bytes>, view: View)
    requires view == EmptyView
    ensures Coherence(cfg, disk, map[], FreshMapping, [], view) && NoneDirty(view)
  {
  }

  /** A put in two parts: the victim leaves, then the page comes. */
  lemma PutView(view: View, page: Page, dirty: bool, victim: Option<PageId>, evicted: Option<Page>)
    requires victim.Some? ==>
               Look(view, page.header.pageId).None? && victim.value != page.header.pageId && Look(view, victim.value).Some?
    requires evicted == if victim.Some? && DirtyIn(view, victim.value) then Some(Look(view, victim.value).value.page) else None
    ensures evicted.Some? ==>
              && victim.Some? && DirtyIn(view, victim.value) && Look(view, victim.value) == Some(Item(evicted.value, true))
              && ForgetsOnly(view, view[victim.value := None], victim.value)
              && Look(view[victim.value := None], victim.value) == None
    ensures var id := page.header.pageId;
            var mid := if evicted.Some? then view[victim.value := None] else view;
            var view' := (if victim.Some? then view[victim.value := None]
                else view)[id := Some(Item(page, dirty || DirtyIn(view, id)))];
            && ForgetsOnly(mid, view', id)
            && Look(view', id) == Some(Item(page, dirty || DirtyIn(mid, id)))
            && (NoneDirty(view) ==> evicted.None? && Look(view', id) == Some(Item(page, dirty))
                                    && CleanBut(view', id))
  {
    if NoneDirty(view) {
      var id := page.header.pageId;
      assert !DirtyIn(view, id);
      if victim.Some? { assert !DirtyIn(view, victim.value); }
      var view' := (if victim.Some? then view[victim.value := None]
          else view)[id := Some(Item(page, dirty || DirtyIn(view, id)))];
      forall v: PageId | v != id ensures !DirtyIn(view', v) {
        assert !DirtyIn(view, v);
      }
    }
  }

  /** A dirty entry is the newest copy of a live page. */
  lemma DirtyEntry(cfg: Config, disk: map<PageId, Bytes>, live: map<PageId, Content>, m: Mapping, free: seq<PageId>,
                   view: View, v: PageId)
    requires Coherence(cfg, disk, live, m, free, view) && DirtyIn(view, v)
    ensures v in live && Storable(live[v], cfg.pageSize)
    ensures var p := Look(view, v).value.page;
            Plain(p, cfg.pageSize) && p.header.pageId == v && live[v] == Content(p.header.pageType, p.data)
    ensures EntryOk(cfg, live, m.nextVirtualId, v, None)
  {
    assert EntryOk(cfg, live, m.nextVirtualId, v, Look(view, v));
  }

  /** Where the contents of a live id can be read. */
  lemma LiveFacts(cfg: Config, disk: map<PageId, Bytes>, live: map<PageId, Content>, m: Mapping, free: seq<PageId>,
                  view: View, id: PageId)
    requires Coherence(cfg, disk, live, m, free, view) && NoneDirty(view) && id in live
    ensures Storable(live[id], cfg.pageSize)
    ensures m.Translate(id) in disk
    ensures var r := ReadSlot(cfg, disk[m.Translate(id)]);
            r.Ok? && Matches(r.value, id, live[id]) && Plain(r.value, cfg.pageSize)
    ensures Look(view, id).Some? ==>
              Matches(Look(view, id).value.page, id, live[id]) && Plain(Look(view, id).value.page, cfg.pageSize)
  {
    assert SlotOk(cfg, disk, live, m, view, id) && !DirtyIn(view, id);
    assert EntryOk(cfg, live, m.nextVirtualId, id, Look(view, id));
  }

  /** What an id that is not live reads as. */
  ghost predicate StaleRead(view: View, live: map<PageId, Content>, m: Mapping, id: PageId, page: Page) {
    if Look(view, id).Some? then page == Look(view, id).value.page
    else (exists u | u in live :: m.Translate(u) == id && Matches(page, u, live[u])) || Matches(page, id, FreeContent)
  }

  /** A cached page is handed out as it is; a page from the file carries the id asked for. */
  ghost predicate ReadFrom(cfg: Config, view: View, b: Bytes, id: PageId, page: Page) {
    if Look(view, id).Some? then page == Look(view, id).value.page
    else
      && page.header.virtualPageId == id
      && ReadSlot(cfg, b).Ok?
      && var stored := ReadSlot(cfg, b).value;
         page == stored.(header := stored.header.(virtualPageId := id))
  }

  /** A hit leaves the cache's pages alone; a miss leaves the page in the cache. */
  ghost predicate NowCached(view: View, view': View, id: PageId, page: Page) {
    if Look(view, id).Some? then view' == view else Look(view', page.header.pageId) == Some(Item(page, false))
  }

  /** The page that reading the slot of `id` hands out, with its virtual id set. */
  function Labelled(page: Page, id: PageId): Page {
    if page.header.virtualPageId != id then page.(header := page.header.(virtualPageId := id)) else page
  }

  lemma LabelKeeps(page: Page, id: PageId, o: PageId, c: Content, pageSize: nat)
    requires id < U64 && Matches(page, o, c) && Plain(page, pageSize)
    ensures Matches(Labelled(page, id), o, c) && Plain(Labelled(page, id), pageSize)
  {
  }

  /** A page read for a live id can be cached and is its contents. */
  lemma LiveRead(cfg: Config, disk: map<PageId, Bytes>, live: map<PageId, Content>, m: Mapping, free: seq<PageId>,
                 nextPage: nat, view: View, id: PageId)
    requires Partition(live.Keys, m, free, nextPage) && Coherence(cfg, disk, live, m, free, view) && NoneDirty(view)
    requires id in live && m.nextVirtualId < U64
    ensures m.Translate(id) < nextPage && m.Translate(id) in disk && ReadSlot(cfg, disk[m.Translate(id)]).Ok?
    ensures var page := Labelled(ReadSlot(cfg, disk[m.Translate(id)]).value, id);
            && page.header.pageId == id < m.nextVirtualId && CanCache(live, page, false, cfg.pageSize)
            && Updated(live, page) == live && Matches(page, id, live[id]) && Plain(page, cfg.pageSize)
    ensures Look(view, id).Some? ==>
              Matches(Look(view, id).value.page, id, live[id]) && Plain(Look(view, id).value.page, cfg.pageSize)
  {
    hide Partition, Coherence, NoneDirty, Plain, Storable, ReadSlot, Labelled;
    SlotFacts(live.Keys, m, free, nextPage, id);
    LiveFacts(cfg, disk, live, m, free, view, id);
    LabelKeeps(ReadSlot(cfg, disk[m.Translate(id)]).value, id, id, live[id], cfg.pageSize);
  }

  /** A page read for an id that is not live belongs to another live id or is free, and can be cached. */
  lemma StaleSlot(cfg: Config, disk: map<PageId, Bytes>, live: map<PageId, Content>, m: Mapping, free: seq<PageId>,
                  nextPage: nat, view: View, id: PageId)
    requires Partition(live.Keys, m, free, nextPage) && Coherence(cfg, disk, live, m, free, view) && NoneDirty(view)
    requires 2 <= id < nextPage && id !in live && m.nextVirtualId < U64
    ensures id in disk && ReadSlot(cfg, disk[id]).Ok?
    ensures var page := Labelled(ReadSlot(cfg, disk[id]).value, id);
            && page.header.pageId < m.nextVirtualId && CanCache(live, page, false, cfg.pageSize) && Updated(live, page) == live
            && (Look(view, id).None? ==> StaleRead(view, live, m, id, page))
  {
    CountFacts(live.Keys, m, free, nextPage);
    if id in free {
      FreeSlotRead(cfg, disk, live, m, free, view, id);
    } else {
      assert Backs(live.Keys, m, id);
      var u :| u in live.Keys && m.Translate(u) == id;
      hide Coherence, NoneDirty, Partition, Plain, ReadSlot, Labelled, Storable;
      SlotFacts(live.Keys, m, free, nextPage, u);
      LiveFacts(cfg, disk, live, m, free, view, u);
      LabelKeeps(ReadSlot(cfg, disk[id]).value, id, u, live[u], cfg.pageSize);
    }
    hide Coherence, NoneDirty, Partition, Plain, ReadSlot, Labelled;
  }

  lemma FreeSlotRead(cfg: Config, disk: map<PageId, Bytes>, live: map<PageId, Content>, m: Mapping, free: seq<PageId>,
                     view: View, id: PageId)
    requires FreeSlots(cfg, disk, free) && id in free && id !in live && id < m.nextVirtualId < U64
    ensures id in disk && ReadSlot(cfg, disk[id]).Ok?
    ensures var page := Labelled(ReadSlot(cfg, disk[id]).value, id);
            && page.header.pageId < m.nextVirtualId && CanCache(live, page, false, cfg.pageSize) && Updated(live, page) == live
            && (Look(view, id).None? ==> StaleRead(view, live, m, id, page))
  {
    hide Plain, ReadSlot, Labelled, Storable;
    assert StoredIn(cfg, disk, id, id, FreeContent);
    LabelKeeps(ReadSlot(cfg, disk[id]).value, id, id, FreeContent, cfg.pageSize);
  }

  lemma StaleIsIdentity(live: set<PageId>, m: Mapping, free: seq<PageId>, nextPage: nat, id: PageId)
    requires Partition(live, m, free, nextPage) && id !in live
    ensures m.Translate(id) == id
  {
  }

  lemma StaleHit(view: View, live: map<PageId, Content>, m: Mapping, id: PageId)
    ensures Look(view, id).Some? ==> StaleRead(view, live, m, id, Look(view, id).value.page)
  {
  }

  /** With nothing dirty the cache can be dropped. */
  lemma ForgetClean(cfg: Config, disk: map<PageId, Bytes>, live: map<PageId, Content>, m: Mapping, free: seq<PageId>,
                    view: View, empty: View)
    requires Coherence(cfg, disk, live, m, free, view) && NoneDirty(view)
    requires empty == EmptyView
    ensures Coherence(cfg, disk, live, m, free, empty) && NoneDirty(empty)
  {
    forall v: PageId ensures SlotOk(cfg, disk, live, m, empty, v) {
      assert SlotOk(cfg, disk, live, m, view, v) && !DirtyIn(view, v);
    }
  }

  lemma MatchesMeans(p: Page, id: PageId, c: Content)
    ensures Matches(p, id, c) <==> p.header.pageId == id && Content(p.header.pageType, p.data) == c
  {
  }

  /** Replacing one entry. */
  lemma SetView(view: View, id: PageId, e: Option<Item>)
    ensures var view' := view[id := e];
            && ForgetsOnly(view, view', id) && Look(view', id) == e
            && (CleanBut(view, id) ==> CleanBut(view', id))
  {
    var view' := view[id := e];
    forall v: PageId | v != id ensures DirtyIn(view', v) <==> DirtyIn(view, v) {
    }
  }

  lemma CleanEntryOk(cfg: Config, live: map<PageId, Content>, next: PageId, page: Page)
    requires page.header.pageId < next && Plain(page, cfg.pageSize)
    requires page.header.pageId in live && live[page.header.pageId] == Content(page.header.pageType, page.data)
    ensures EntryOk(cfg, live, next, page.header.pageId, Some(Item(page, false)))
    ensures EntryOk(cfg, live, next, page.header.pageId, None)
  {
  }

  lemma SameEmptyView(id: PageId)
    ensures ForgetsOnly(EmptyView, EmptyView, id) && Look(EmptyView, id) == None && NoneDirty(EmptyView)
  {
  }

  lemma NoneDirtyBut(view: View, id: PageId)
    requires CleanBut(view, id)
    requires Look(view, id).Some? ==> !Look(view, id).value.dirty
    ensures NoneDirty(view)
  {
    forall v: PageId ensures !DirtyIn(view, v) {
      if v != id { assert !DirtyIn(view, v); }
    }
  }

  /** A clean put over a cache whose entry for the id is out of date. */
  lemma PutThroughView(view: View, page: Page, victim: Option<PageId>)
    requires NoneDirty(view)
    requires victim.Some? ==>
               Look(view, page.header.pageId).None? && victim.value != page.header.pageId && Look(view, victim.value).Some?
    ensures var id := page.header.pageId;
            var view' := (if victim.Some? then view[victim.value := None]
                else view)[id := Some(Item(page, false || DirtyIn(view, id)))];
            && ForgetsOnly(view[id := None], view', id)
            && Look(view', id) == Some(Item(page, false || DirtyIn(view[id := None], id))) == Some(Item(page, false))
            && NoneDirty(view')
  {
    var id := page.header.pageId;
    var view' := (if victim.Some? then view[victim.value := None] else view)[id := Some(Item(page, false || DirtyIn(view, id)))];
    assert !DirtyIn(view, id);
    forall v: PageId ensures !DirtyIn(view', v) && !DirtyIn(view[id := None], v) {
      assert !DirtyIn(view, v);
    }
    var mid := view[id := None];
    forall v: PageId | v != id ensures Look(view', v) == Look(mid, v) || (Look(view', v) == None && !DirtyIn(mid, v)) {
      assert !DirtyIn(view, v);
      assert Look(mid, v) == Look(view, v);
    }
    assert ForgetsOnly(mid, view', id);
  }

  /** From position `n` on, `dirty` lists what is dirty, each id once. */
  ghost predicate ListedDirty(view: View, dirty: seq<(PageId, Page)>, n: nat) {
    && (forall i, j | 0 <= i < j < |dirty| :: dirty[i].0 != dirty[j].0)
    && (forall i | n <= i < |dirty| :: Look(view, dirty[i].0) == Some(Item(dirty[i].1, true)))
    && (forall v: PageId | DirtyIn(view, v) :: exists i | n <= i < |dirty| :: dirty[i].0 == v)
  }

  lemma ListedStart(view: View, dirty: seq<(PageId, Page)>)
    requires forall i, j | 0 <= i < j < |dirty| :: dirty[i].0 != dirty[j].0
    requires forall i | 0 <= i < |dirty| :: Look(view, dirty[i].0) == Some(Item(dirty[i].1, true))
    requires forall v: PageId | DirtyIn(view, v) :: (v, Look(view, v).value.page) in dirty
    ensures ListedDirty(view, dirty, 0)
  {
    forall v: PageId | DirtyIn(view, v) ensures exists i | 0 <= i < |dirty| :: dirty[i].0 == v {
      var i :| 0 <= i < |dirty| && dirty[i] == (v, Look(view, v).value.page);
      assert dirty[i].0 == v;
    }
  }

  lemma ListedStep(view: View, dirty: seq<(PageId, Page)>, n: nat, e: Option<Item>)
    requires ListedDirty(view, dirty, n) && n < |dirty| && (e.Some? ==> !e.value.dirty)
    ensures ListedDirty(view[dirty[n].0 := e], dirty, n + 1)
    ensures DirtyIn(view, dirty[n].0) && Look(view, dirty[n].0) == Some(Item(dirty[n].1, true))
  {
    var view' := view[dirty[n].0 := e];
    forall v: PageId | DirtyIn(view', v) ensures exists i | n + 1 <= i < |dirty| :: dirty[i].0 == v {
      assert DirtyIn(view, v);
      var i :| n <= i < |dirty| && dirty[i].0 == v;
      assert i != n;
    }
  }

  /** The same ids are cached, with the same pages. */
  ghost predicate SamePages(view: View, view': View) {
    forall v: PageId ::
      && (Look(view, v).Some? <==> Look(view', v).Some?)
      && (Look(view, v).Some? ==> Look(view, v).value.page == Look(view', v).value.page)
  }

  lemma SameStart(view: View)
    ensures SamePages(view, view)
  {
  }

  lemma SameStep(start: View, view: View, id: PageId, page: Page)
    requires SamePages(start, view) && Look(view, id) == Some(Item(page, true))
    ensures SamePages(start, view[id := Some(Item(page, false))])
  {
    var view' := view[id := Some(Item(page, false))];
    forall v: PageId ensures (Look(start, v).Some? <==> Look(view', v).Some?)
                             && (Look(start, v).Some? ==> Look(start, v).value.page == Look(view', v).value.page)
    {
      assert Look(view, v).Some? <==> Look(start, v).Some?;
    }
  }

  lemma ListedDone(view: View, dirty: seq<(PageId, Page)>)
    requires ListedDirty(view, dirty, |dirty|)
    ensures NoneDirty(view)
  {
  }

  /** The superblock's counters: every page below `nextPageId` counts, and `free` of them are free. */
  ghost predicate CountsAgree(sb: SuperblockState, free: nat) {
    && sb.totalPages == sb.nextPageId
    && sb.freePages == free
    && StateFits(sb) && sb.pageMapper == FreshMapping
  }

  lemma ReuseKeepsCounts(sb: SuperblockState, free: nat)
    requires CountsAgree(sb, free + 1)
    ensures sb.freePages > 0 && CountsAgree(sb.(freePages := sb.freePages - 1), free)
  {
    hide StateFits;
    FreeFits(sb);
    TotalFits(sb);
    FitsAfter(sb, sb.(freePages := sb.freePages - 1));
  }

  lemma GrowKeepsCounts(sb: SuperblockState, free: nat)
    requires CountsAgree(sb, free) && sb.nextPageId + 1 < U64
    ensures CountsAgree(sb.(nextPageId := sb.nextPageId + 1, totalPages := sb.totalPages + 1), free)
  {
    hide StateFits;
    FreeFits(sb);
    FitsAfter(sb, sb.(nextPageId := sb.nextPageId + 1, totalPages := sb.totalPages + 1));
  }

  /** All that changes when the front of the free queue is taken. */
  lemma ReuseTakes(live: set<PageId>, m: Mapping, p: PageId, rest: seq<PageId>, sb: SuperblockState)
    requires Partition(live, m, [p] + rest, sb.nextPageId) && CountsAgree(sb, |[p] + rest|)
    ensures sb.freePages > 0 && CountsAgree(sb.(freePages := sb.freePages - 1), |rest|)
    ensures Partition(live + {m.nextVirtualId}, Issued(m, p), rest, sb.nextPageId)
    ensures Taken([p] + rest, sb.nextPageId, p, rest, sb.nextPageId)
  {
    hide Partition, Issued, CountsAgree;
    ReuseKeepsPartition(live, m, p, rest, sb.nextPageId);
    ReuseKeepsCounts(sb, |rest|);
    FreedSlots(live, m, [p] + rest, sb.nextPageId);
    assert p in [p] + rest && ([p] + rest)[1..] == rest;
  }

  /** All that changes when the file grows. */
  lemma GrowTakes(live: set<PageId>, m: Mapping, sb: SuperblockState)
    requires Partition(live, m, [], sb.nextPageId) && CountsAgree(sb, 0) && m.nextVirtualId + 1 < U64
    ensures CountsAgree(sb.(nextPageId := sb.nextPageId + 1, totalPages := sb.totalPages + 1), 0)
    ensures Partition(live + {m.nextVirtualId}, Issued(m, sb.nextPageId), [], sb.nextPageId + 1)
    ensures Taken([], sb.nextPageId, sb.nextPageId, [], sb.nextPageId + 1)
  {
    hide Partition, Issued, CountsAgree;
    CountFacts(live, m, [], sb.nextPageId);
    GrowKeepsPartition(live, m, sb.nextPageId);
    GrowKeepsCounts(sb, 0);
  }

  lemma FreeFits(sb: SuperblockState)
    requires StateFits(sb)
    ensures sb.freePages < U64
  {
    assert Fields(sb)[3] < U64;
  }

  /** Page `p` was taken from the front of the free queue, or from the end of the file if that was empty. */
  predicate Taken(free: seq<PageId>, nextPage: nat, p: PageId, free': seq<PageId>, nextPage': nat) {
    && p < nextPage'
    && if free != [] then p == free[0] && free' == free[1..] && nextPage' == nextPage
       else p == nextPage && free' == [] && nextPage' == nextPage + 1
  }

  lemma SlotSize(cfg: Config)
    requires cfg.Valid()
    ensures cfg.pageSize >= HEADER_SIZE + CHECKSUM_SIZE
  {
  }

  class Pager {
    const cfg: Config
    const writeBack: bool
    const mapper: PageMapper
    const freeList: FreeList
    const superblock: Superblock
    const cache: PageCache?
    var disk: map<PageId, Bytes>          // the file, one slot per physical page; page 0 is not modelled
    var headerTotalPages: nat             // counters of the file header
    var headerFreePages: nat
    ghost var live: map<PageId, Content>  // what the pager stands for

    ghost function Shards(): set<object> {
      if cache == null then {} else set s | s in cache.shards
    }

    ghost predicate CacheOk()
      reads Shards()
    {
      cache != null ==> |cache.shards| == NUM_SHARDS && cache.Valid()
    }

    /** The allocator's books: the partition of the file, and three counters that agree with it. */
    ghost predicate AllocOk()
      reads this, mapper, freeList, superblock
    {
      && freeList.Valid()
      && Partition(live.Keys, mapper.mapping, freeList.freePages, superblock.state.nextPageId)
      && CountsAgree(superblock.state, |freeList.freePages|)
      && mapper.mapping.nextVirtualId < U64
      && SuperblockOnDisk(cfg, disk, superblock.state)
      && (forall p | p in disk :: p < superblock.state.nextPageId)
    }

    function Physical(id: PageId): PageId
      reads mapper
    {
      mapper.mapping.Translate(id)
    }

    ghost function CacheView(): View
      requires CacheOk()
      reads Shards()
    {
      if cache == null then EmptyView else cache.Contents()
    }

    ghost predicate Coherent()
      reads this, mapper, freeList, superblock, Shards()
    {
      && cfg.Valid() && CacheOk() && AllocOk()
      && Coherence(cfg, disk, live, mapper.mapping, freeList.freePages, CacheView())
    }

    ghost predicate NothingDirty()
      reads Shards()
    {
      CacheOk() && NoneDirty(CacheView())
    }

    /** What holds between operations: file, cache and contents agree and nothing waits to be written. */
    ghost predicate Valid()
      reads this, mapper, freeList, superblock, Shards()
    {
      Coherent() && NothingDirty()
    }

    /** The page is cached and at most its entry is dirty. */
    ghost predicate CachedAlone(page: Page, dirty: bool)
      reads Shards()
    {
      CacheOk() && Look(CacheView(), page.header.pageId) == Some(Item(page, dirty)) && CleanBut(CacheView(), page.header.pageId)
    }

    constructor (cfg: Config, cacheCapacity: nat, writeBack: bool)
      requires cfg.Valid()
      ensures Valid() && live == map[] && this.cfg == cfg && this.writeBack == writeBack
      ensures cache == null <==> cacheCapacity == 0
      ensures fresh(mapper) && fresh(freeList) && fresh(superblock) && fresh(Shards())
      ensures mapper.mapping.nextVirtualId == 2 && freeList.freePages == []
      ensures superblock.state.totalPages == superblock.state.nextPageId == 2 && headerTotalPages == 3 && headerFreePages == 0
    {
      hide HoldsSuperblock, Config.Valid, Holds, PageCache.Valid, Partition, StateFits, WriteSlot, Plain, SuperblockPage,
           Coherence, NoneDirty, PageCache.Contents;
      FreshBooks();
      this.cfg := cfg;
      this.writeBack := writeBack;
      live := map[];
      headerTotalPages, headerFreePages := 3, 0;
      superblock := new Superblock();
      freeList := new FreeList();
      if cacheCapacity > 0 {
        cache := new PageCache(cacheCapacity, writeBack);
      } else {
        cache := null;
      }
      mapper := new PageMapper();
      var file: map<PageId, Bytes> := map[];
      SuperblockIsWritten(cfg, file, FreshSuperblock);
      disk := file[1 := WriteSlot(cfg, SuperblockPage(FreshSuperblock)).value];
      new;
      assert AllocOk();
      FreshCoherence(cfg, disk, CacheView());
    }

    /** What the file holds in a slot; beyond its end a read leaves the buffer zeroed. */
    function Slot(p: PageId): Bytes
      reads this
    {
      if p in disk then disk[p] else Zeros(cfg.pageSize)
    }

    /** Writes the page to the slot its id translates to. */
    method WritePageToDisk(page: Page) returns (r: Result<(), PagerError>)
      requires cfg.Valid()
      modifies this`disk
      ensures r.Err? ==> WriteSlot(cfg, page) == Err(r.error) && disk == old(disk)
      ensures r.Ok? ==> SameBut(old(disk), disk, Physical(page.header.pageId))
      ensures Plain(page, cfg.pageSize) ==>
                r == Ok(()) && StoredIn(cfg, disk, Physical(page.header.pageId), page.header.pageId,
                    Content(page.header.pageType, page.data))
    {
      hide Config.Valid, WriteSlot, Holds, Plain, SameBut, StoredIn;
      SlotSize(cfg);
      var physical := mapper.mapping.Translate(page.header.pageId);
      if Plain(page, cfg.pageSize) {
        WriteHolds(cfg, page);
      }
      var bytes := WriteSlot(cfg, page);
      if bytes.Err? {
        return Err(bytes.error);
      }
      SetSlot(cfg, disk, physical, bytes.value, page.header.pageId, Content(page.header.pageType, page.data));
      disk := disk[physical := bytes.value];
      r := Ok(());
    }

    /** Puts a page into the cache and writes back what is pushed out, if it was dirty. A dirty
        page may carry new contents. */
    method CachePut(page: Page, dirty: bool) returns (r: Result<(), PagerError>)
      requires cache != null && Coherent()
      requires CanCache(live, page, dirty, cfg.pageSize) && page.header.pageId < mapper.mapping.nextVirtualId
      modifies this`disk, this`live, Shards()
      ensures r == Ok(()) && Coherent()
      ensures live == Updated(old(live), page)
      ensures old(NothingDirty()) ==> disk == old(disk) && CachedAlone(page, dirty)
    {
      hide Config.Valid, Holds, Plain, Partition, StateFits, PageCache.Valid, HoldsSuperblock, Storable, Coherence,
           Matches, PageCache.Contents, Look, DirtyIn, NoneDirty, CleanBut, ForgetsOnly, SameBut, StoredIn, CanCache;
      ghost var id, view := page.header.pageId, CacheView();
      var evicted, victim := cache.Put(page, dirty);
      PutView(view, page, dirty, victim, evicted);
      ghost var midView := if evicted.Some? then view[victim.value := None] else view;
      if evicted.Some? {
        DirtyEntry(cfg, disk, live, mapper.mapping, freeList.freePages, view, victim.value);
        r := Store(evicted.value, view, midView);
        if r.Err? {
          return;
        }
        assert live == old(live);
      }
      PutKeepsCoherence(cfg, disk, live, mapper.mapping, freeList.freePages, midView, CacheView(), page, dirty);
      live := Updated(live, page);
      assert live.Keys == old(live).Keys;
      r := Ok(());
    }

    /** Writes contents under a live id to its slot, seen against a cache that has changed for that id
        or forgotten clean entries. */
    method Store(page: Page, ghost view: View, ghost view': View) returns (r: Result<(), PagerError>)
      requires cfg.Valid() && AllocOk() && Coherence(cfg, disk, live, mapper.mapping, freeList.freePages, view)
      requires page.header.pageId in live && Plain(page, cfg.pageSize)
      requires Storable(Content(page.header.pageType, page.data), cfg.pageSize)
      requires ForgetsOnly(view, view', page.header.pageId)
      requires Look(view', page.header.pageId) == None || Look(view', page.header.pageId) == Some(Item(page, false))
      modifies this`disk, this`live
      ensures r == Ok(()) && AllocOk() && Coherence(cfg, disk, live, mapper.mapping, freeList.freePages, view')
      ensures live == old(live)[page.header.pageId := Content(page.header.pageType, page.data)]
    {
      hide Config.Valid, Holds, Plain, Partition, StateFits, HoldsSuperblock, Storable, Coherence, Look, ForgetsOnly, EntryOk;
      ghost var id, before, c := page.header.pageId, disk, Content(page.header.pageType, page.data);
      SlotFacts(live.Keys, mapper.mapping, freeList.freePages, superblock.state.nextPageId, id);
      r := WritePageToDisk(page);
      CleanEntryOk(cfg, live[id := c], mapper.mapping.nextVirtualId, page);
      StoreKeepsCoherence(cfg, before, disk, live, mapper.mapping, freeList.freePages, superblock.state.nextPageId, view,
          view', id, c);
      live := live[id := c];
      assert live.Keys == old(live).Keys;
    }

    /** Reading a live id gives the type and data last stored under it; an id whose page would lie
        beyond the file is refused. Any other id reads the page of the same number: what the cache still has
        under it, or else its owner's contents or a free page. A cached page is handed out as it is; one read
        from the file carries the id asked for and is cached. Nothing a client can see changes. */
    method ReadPage(id: PageId) returns (r: Result<Page, PagerError>)
      requires Valid() && (id in live || id >= 2)
      modifies this`disk, this`live, Shards()
      ensures Valid() && live == old(live) && disk == old(disk)
      ensures id in live ==> r.Ok? && Matches(r.value, id, live[id]) && Plain(r.value, cfg.pageSize)
      ensures id !in live && id >= superblock.state.totalPages ==> r == Err(PageNotFound(id))
      ensures id !in live && id < superblock.state.totalPages ==>
                r.Ok? && StaleRead(old(CacheView()), live, mapper.mapping, id, r.value)
      ensures r.Ok? ==> ReadFrom(cfg, old(CacheView()), Slot(Physical(id)), id, r.value)
      ensures r.Ok? && cache != null ==> NowCached(old(CacheView()), CacheView(), id, r.value)
    {
      hide Config.Valid, Holds, Plain, Partition, StateFits, PageCache.Valid, HoldsSuperblock, Storable, Coherence,
           Matches, PageCache.Contents, Look, DirtyIn, NoneDirty, CleanBut, ForgetsOnly, SameBut, StoredIn, CanCache,
           StaleRead, Updated;
      var physical := mapper.mapping.Translate(id);
      ghost var m, free, next, view := mapper.mapping, freeList.freePages, superblock.state.nextPageId, CacheView();
      if id in live {
        LiveRead(cfg, disk, live, m, free, next, view, id);
      } else {
        StaleIsIdentity(live.Keys, m, free, next, id);
        StaleHit(view, live, m, id);
      }
      if physical >= superblock.state.totalPages {
        return Err(PageNotFound(physical));
      }
      if id !in live {
        StaleSlot(cfg, disk, live, m, free, next, view, id);
      }
      if cache != null {
        var hit := cache.Get(id);
        assert CacheView() == view;
        if hit.Some? {
          return Ok(hit.value);
        }
      } else {
        SameEmptyView(id);
      }
      r := ReadSlot(cfg, Slot(physical));
      if r.Err? {
        return;
      }
      var page := r.value;
      if page.header.virtualPageId != id {
        page := page.(header := page.header.(virtualPageId := id));
      }
      if cache != null {
        var put := CachePut(page, false);
        match put {
          case Err(e) => return Err(e);
          case Ok(_) =>
        }
        NoneDirtyBut(CacheView(), page.header.pageId);
      }
      r := Ok(page);
    }

    /** Write-back order: cache first, then disk, then the flag. */
    method WriteBack(page: Page) returns (r: Result<(), PagerError>)
      requires cache != null && Valid()
      requires page.header.pageId in live && Plain(page, cfg.pageSize)
      requires Storable(Content(page.header.pageType, page.data), cfg.pageSize)
      modifies this`disk, this`live, Shards()
      ensures Valid() && r == Ok(())
      ensures live == old(live)[page.header.pageId := Content(page.header.pageType, page.data)]
      ensures Look(CacheView(), page.header.pageId) == Some(Item(page, false))
    {
      hide Config.Valid, Holds, Plain, Partition, StateFits, PageCache.Valid, HoldsSuperblock, Storable, Coherence,
           Matches, PageCache.Contents, Look, DirtyIn, NoneDirty, CleanBut, ForgetsOnly, SameBut, StoredIn;
      var id := page.header.pageId;
      SlotFacts(live.Keys, mapper.mapping, freeList.freePages, superblock.state.nextPageId, id);
      r := CachePut(page, true);
      if r.Err? {
        return;
      }
      ghost var view := CacheView();
      ghost var view' := view[id := Some(Item(page, false))];
      SetView(view, id, Some(Item(page, false)));
      r := Store(page, view, view');
      if r.Err? {
        return;
      }
      var _ := cache.MarkClean(id);
      assert CacheView() == view';
      NoneDirtyBut(view', id);
    }

    /** Write-through order: disk first, then the cache. */
    method WriteThrough(page: Page) returns (r: Result<(), PagerError>)
      requires cache != null && Valid()
      requires page.header.pageId in live && Plain(page, cfg.pageSize)
      requires Storable(Content(page.header.pageType, page.data), cfg.pageSize)
      modifies this`disk, this`live, Shards()
      ensures Valid() && r == Ok(())
      ensures live == old(live)[page.header.pageId := Content(page.header.pageType, page.data)]
      ensures Look(CacheView(), page.header.pageId) == Some(Item(page, false))
    {
      hide Config.Valid, Holds, Plain, Partition, StateFits, PageCache.Valid, HoldsSuperblock, Storable, Coherence,
           Matches, PageCache.Contents, Look, DirtyIn, NoneDirty, CleanBut, ForgetsOnly, SameBut, StoredIn;
      var id := page.header.pageId;
      ghost var view := CacheView();
      SetView(view, id, None);
      r := Store(page, view, view[id := None]);
      if r.Err? {
        return;
      }
      var _, victim := cache.Put(page, false);
      PutThroughView(view, page, victim);
      SlotFacts(live.Keys, mapper.mapping, freeList.freePages, superblock.state.nextPageId, id);
      MatchesMeans(page, id, live[id]);
      PutKeepsCoherence(cfg, disk, live, mapper.mapping, freeList.freePages, view[id := None], CacheView(), page, false);
      assert live[id := live[id]] == live;
      r := Ok(());
    }

    /** In either write mode and with or without a cache, the new contents replace the old ones under
        this id and nothing else changes; nothing is left dirty. */
    method WritePage(page: Page) returns (r: Result<(), PagerError>)
      requires Valid()
      requires page.header.pageId in live && Plain(page, cfg.pageSize)
      requires Storable(Content(page.header.pageType, page.data), cfg.pageSize)
      modifies this`disk, this`live, Shards()
      ensures Valid() && r == Ok(())
      ensures live == old(live)[page.header.pageId := Content(page.header.pageType, page.data)]
      ensures cache != null ==> Look(CacheView(), page.header.pageId) == Some(Item(page, false))
    {
      hide Config.Valid, Holds, Plain, Partition, StateFits, PageCache.Valid, HoldsSuperblock, Storable, Coherence,
           Matches, PageCache.Contents, Look, DirtyIn, NoneDirty, CleanBut, ForgetsOnly, SameBut, StoredIn;
      if cache != null {
        if writeBack {
          r := WriteBack(page);
        } else {
          r := WriteThrough(page);
        }
        return;
      }
      SameEmptyView(page.header.pageId);
      r := Store(page, EmptyView, EmptyView);
    }

    /** Steps 1 to 3 of an allocation: a new id, a recycled or new physical page, and the mapping. */
    method Reserve() returns (virtual: PageId, physical: PageId)
      requires cfg.Valid() && AllocOk() && mapper.mapping.nextVirtualId + 1 < U64
      modifies mapper, freeList, superblock
      ensures virtual == old(mapper.mapping).nextVirtualId
      ensures mapper.mapping == Issued(old(mapper.mapping), physical)
      ensures Taken(old(freeList.freePages), old(superblock.state).nextPageId, physical, freeList.freePages,
          superblock.state.nextPageId)
      ensures freeList.Valid()
      ensures Partition(live.Keys + {virtual}, mapper.mapping, freeList.freePages, superblock.state.nextPageId)
      ensures CountsAgree(superblock.state, |freeList.freePages|)
    {
      hide Config.Valid, Partition, HoldsSuperblock, StateFits, Taken;
      virtual := mapper.AllocateVirtual();
      physical := TakePhysical(old(mapper.mapping));
      mapper.Remap(virtual, physical);
    }

    /** The page that has been free for longest, or a new one at the end of the file. */
    method TakePhysical(ghost m: Mapping) returns (physical: PageId)
      requires freeList.Valid() && m.nextVirtualId + 1 < U64
      requires Partition(live.Keys, m, freeList.freePages, superblock.state.nextPageId)
      requires CountsAgree(superblock.state, |freeList.freePages|)
      modifies freeList, superblock
      ensures Taken(old(freeList.freePages), old(superblock.state).nextPageId, physical, freeList.freePages,
          superblock.state.nextPageId)
      ensures freeList.Valid()
      ensures Partition(live.Keys + {m.nextVirtualId}, Issued(m, physical), freeList.freePages, superblock.state.nextPageId)
      ensures CountsAgree(superblock.state, |freeList.freePages|)
    {
      hide Partition, Issued, CountsAgree, Taken;
      ghost var free, sb := freeList.freePages, superblock.state;
      var popped := freeList.PopPage();
      if popped.Some? {
        physical := popped.value;
        ReuseTakes(live.Keys, m, physical, freeList.freePages, sb);
        superblock.MarkPageAllocated();
      } else {
        GrowTakes(live.Keys, m, sb);
        physical := superblock.AllocateNewPage();
      }
    }

    /** Hands out an id that was never issued before, backed by the page that has been free for longest
        or by a new one, with empty contents of the given type; no other live page is touched. */
    method AllocatePage(pageType: PageType) returns (r: Result<PageId, PagerError>)
      requires Valid() && mapper.mapping.nextVirtualId + 1 < U64
      requires Storable(Content(pageType, []), cfg.pageSize)
      modifies this`disk, this`live, this`headerTotalPages, this`headerFreePages, mapper, freeList, superblock
      ensures Valid()
      ensures r == Ok(old(mapper.mapping).nextVirtualId)
      ensures r.value !in old(live) && live == old(live)[r.value := Content(pageType, [])]
      ensures mapper.mapping.nextVirtualId == r.value + 1
      ensures Physical(r.value) == if old(freeList.freePages) != [] then old(freeList.freePages)[0]
          else old(superblock.state).nextPageId
      ensures freeList.freePages == if old(freeList.freePages) != [] then old(freeList.freePages)[1..] else []
      ensures headerTotalPages == superblock.state.totalPages && headerFreePages == |freeList.freePages|
      ensures Physical(r.value) in disk && ReadsVirtual(cfg, disk[Physical(r.value)], r.value)
    {
      hide Config.Valid, Holds, Partition, StateFits, PageCache.Valid, HoldsSuperblock, WriteSlot, Coherence, NoneDirty,
           PageCache.Contents, ReadsVirtual;
      ghost var m, free, nextPage, view := mapper.mapping, freeList.freePages, superblock.state.nextPageId, CacheView();
      NewSlotFacts(live.Keys, m, free, nextPage, if free != [] then free[0] else nextPage);
      var virtual, physical := Reserve();
      var page := NewPage(virtual, pageType);
      page := page.(header := page.header.(virtualPageId := virtual));
      RecordPage(page, physical);
      IssueKeepsCoherence(cfg, old(disk), disk, live, m, free, freeList.freePages, nextPage, view, physical,
          Content(pageType, []));
      live := live[virtual := Content(pageType, [])];
      assert live.Keys == old(live).Keys + {virtual};
      assert CacheView() == view;
      r := Ok(virtual);
    }

    /** Writes a page to a slot, the counters to the file header and to page 1. */
    method RecordPage(page: Page, physical: PageId)
      requires cfg.Valid() && freeList.Valid() && StateFits(superblock.state) && superblock.state.pageMapper == FreshMapping
      requires Plain(page, cfg.pageSize) && physical >= 2
      modifies this`disk, this`headerTotalPages, this`headerFreePages
      ensures StoredIn(cfg, disk, physical, page.header.pageId, Content(page.header.pageType, page.data))
      ensures ReadsVirtual(cfg, disk[physical], page.header.virtualPageId)
      ensures disk.Keys == old(disk).Keys + {1, physical}
      ensures forall p | p in old(disk) && p != 1 && p != physical :: disk[p] == old(disk)[p]
      ensures SuperblockOnDisk(cfg, disk, superblock.state)
      ensures headerTotalPages == superblock.state.totalPages && headerFreePages == |freeList.freePages|
    {
      hide Config.Valid, Holds, StateFits, HoldsSuperblock, WriteSlot, Plain, ReadsVirtual;
      WriteHolds(cfg, page);
      var bytes := WriteSlot(cfg, page);
      headerTotalPages := superblock.state.totalPages;
      headerFreePages := freeList.totalFree;
      disk := disk[physical := bytes.value];
      WriteSuperblockPage();
    }

    /** Page 1 gets the current counters, around the cache. */
    method WriteSuperblockPage()
      requires cfg.Valid() && StateFits(superblock.state) && superblock.state.pageMapper == FreshMapping
      modifies this`disk
      ensures SuperblockOnDisk(cfg, disk, superblock.state)
      ensures disk.Keys == old(disk).Keys + {1} && forall p | p in old(disk) && p != 1 :: disk[p] == old(disk)[p]
    {
      hide Config.Valid, WriteSlot, HoldsSuperblock, StateFits, SuperblockPage;
      SuperblockIsWritten(cfg, disk, superblock.state);
      var bytes := WriteSlot(cfg, SuperblockPage(superblock.state));
      disk := disk[1 := bytes.value];
    }

    /** Frees a live id. An id that is not live falls back to the physical page of the same number: it
        is refused if that page backs no live id, and otherwise the contents stored there are lost. */
    method FreePage(id: PageId) returns (r: Result<(), PagerError>)
      requires Valid()
      modifies this`disk, this`live, this`headerTotalPages, this`headerFreePages, mapper, freeList, superblock
      ensures id < 2 ==> r == Err(InvalidPageId(id))
      ensures id in old(live) ==>
                && r == Ok(()) && Valid() && live == old(live) - {id}
                && mapper.mapping == old(mapper.mapping).(entries := old(mapper.mapping).entries - {id})
                && headerTotalPages == superblock.state.totalPages && headerFreePages == |freeList.freePages|
      ensures id >= 2 && id !in old(live) ==> (r.Err? <==> !Backs(old(live.Keys), old(mapper.mapping), id))
      ensures r.Ok? ==> freeList.freePages == old(freeList.freePages) + [old(Physical(id))]
      ensures id in old(freeList.freePages) && id !in old(live) ==> r == Err(PageAlreadyFree(id))
      ensures id >= 2 && id !in old(live) && r.Ok? ==>
                live == old(live) && exists u | u in live :: old(Physical(u)) == id && !StoredIn(cfg, disk, id, u, live[u])
      ensures r.Err? ==> Valid() && live == old(live) && disk == old(disk) && freeList.freePages == old(freeList.freePages)
      ensures mapper.mapping.nextVirtualId == old(mapper.mapping).nextVirtualId
      ensures superblock.state.nextPageId == old(superblock.state).nextPageId
    {
      hide Config.Valid, Holds, Partition, StateFits, PageCache.Valid, HoldsSuperblock, WriteSlot, Plain, Storable,
           ReadSlot, Coherence, NoneDirty, PageCache.Contents;
      FreedSlots(live.Keys, mapper.mapping, freeList.freePages, superblock.state.nextPageId);
      if id == 0 || id == 1 {
        return Err(InvalidPageId(id));
      }
      var physical := mapper.mapping.Translate(id);
      FreeTarget(id);
      ghost var owner := Owner(id);
      var page := ReadSlot(cfg, Slot(physical));
      if page.Err? {
        return Err(page.error);
      }
      if page.value.header.pageType.Free? || page.value.header.pageType.FreeList? {
        return Err(PageAlreadyFree(physical));
      }
      CountFacts(live.Keys, mapper.mapping, freeList.freePages, superblock.state.nextPageId);
      ghost var m, free, nextPage, view := mapper.mapping, freeList.freePages, superblock.state.nextPageId, CacheView();
      ReleaseSlot(id, physical);
      if id in live {
        FreeKeepsPartition(live.Keys, m, free, nextPage, id);
        FreeKeepsCoherence(cfg, old(disk), disk, live, m, free, nextPage, view, id);
        live := live - {id};
        assert live.Keys == old(live).Keys - {id};
        assert CacheView() == view;
      } else {
        FreeIsNot(cfg, disk[physical], physical, owner.value, live[owner.value]);
      }
      r := Ok(());
    }

    /** Drops the mapping, queues the page, updates the counters and writes a free page over the slot.
        The source writes the free page first; the four parts are independent of each other. */
    method ReleaseSlot(id: PageId, physical: PageId)
      requires cfg.Valid() && freeList.Valid() && StateFits(superblock.state) && superblock.state.pageMapper == FreshMapping
      requires 2 <= physical < U64 && superblock.state.freePages + 1 < U64
      modifies this`disk, this`headerTotalPages, this`headerFreePages, mapper, freeList, superblock
      ensures StoredIn(cfg, disk, physical, physical, FreeContent)
      ensures disk.Keys == old(disk).Keys + {1, physical}
      ensures forall p | p in old(disk) && p != 1 && p != physical :: disk[p] == old(disk)[p]
      ensures mapper.mapping == old(mapper.mapping).(entries := old(mapper.mapping).entries - {id})
      ensures freeList.Valid() && freeList.freePages == old(freeList.freePages) + [physical]
      ensures superblock.state == old(superblock.state).(freePages := old(superblock.state).freePages + 1)
      ensures StateFits(superblock.state) && SuperblockOnDisk(cfg, disk, superblock.state)
      ensures headerTotalPages == superblock.state.totalPages && headerFreePages == |freeList.freePages|
    {
      hide Config.Valid, Holds, StateFits, HoldsSuperblock, Plain;
      ghost var sb := superblock.state;
      mapper.Unmap(id);
      freeList.PushPage(physical);
      superblock.MarkPageFreed();
      TotalFits(sb);
      FitsAfter(sb, superblock.state);
      PlainFree(physical, cfg);
      RecordPage(NewPage(physical, PageType.Free), physical);
    }

    /** Who owns the page a free would hit. */
    ghost function Owner(id: PageId): (u: Option<PageId>)
      requires Valid() && id >= 2
      reads this, mapper, freeList, superblock, Shards()
    {
      if id in live then Some(id)
      else if Backs(live.Keys, mapper.mapping, id) then var u :| u in live && Physical(u) == id; Some(u)
      else None
    }

    /** The slot a free looks at holds its owner's contents, and without an owner it is free or empty. */
    lemma FreeTarget(id: PageId)
      requires Valid() && id >= 2
      ensures var p, u := Physical(id), Owner(id);
              && (u.Some? ==> u.value in live && Physical(u.value) == p && 2 <= p < superblock.state.nextPageId
                              && ReadSlot(cfg, Slot(p)).Ok?
                                  && ReadSlot(cfg, Slot(p)).value.header.pageType == live[u.value].pageType
                              && Storable(live[u.value], cfg.pageSize)
                              && !live[u.value].pageType.Free? && !live[u.value].pageType.FreeList?)
              && (u.None? ==> ReadSlot(cfg, Slot(p)).Err? || ReadSlot(cfg, Slot(p)).value.header.pageType.Free?)
              && (id !in live ==> p == id && (u.Some? <==> Backs(live.Keys, mapper.mapping, id)))
              && (p in freeList.freePages ==>
                    u.None? && ReadSlot(cfg, Slot(p)).Ok? && ReadSlot(cfg, Slot(p)).value.header.pageType.Free?)
    {
      hide Config.Valid, StateFits, PageCache.Valid, HoldsSuperblock, ReadSlot;
      var p, u, next := Physical(id), Owner(id), superblock.state.nextPageId;
      if u.Some? {
        SlotFacts(live.Keys, mapper.mapping, freeList.freePages, next, u.value);
        LiveFacts(cfg, disk, live, mapper.mapping, freeList.freePages, CacheView(), u.value);
      } else {
        if p in freeList.freePages {
          assert StoredIn(cfg, disk, p, p, FreeContent);
        } else if p >= next {
          EmptySlot(cfg);
        }
      }
    }

    /** From any coherent state, afterwards every live page is on disk and nothing is dirty; the cache keeps
        all its pages. */
    method FlushCache() returns (r: Result<(), PagerError>)
      requires Coherent()
      modifies this`disk, this`live, Shards()
      ensures Valid() && live == old(live) && r == Ok(())
      ensures SamePages(old(CacheView()), CacheView())
    {
      hide Config.Valid, Holds, Plain, Partition, StateFits, PageCache.Valid, HoldsSuperblock, Storable, Coherence,
           Matches, PageCache.Contents, Look, DirtyIn, NoneDirty, CleanBut, ForgetsOnly, SameBut, StoredIn, ListedDirty,
           SamePages;
      SameStart(CacheView());
      if cache != null {
        var dirty := cache.GetDirtyPages();
        ListedStart(CacheView(), dirty);
        var n := 0;
        while n < |dirty|
          invariant 0 <= n <= |dirty| && Coherent() && live == old(live)
          invariant ListedDirty(CacheView(), dirty, n) && SamePages(old(CacheView()), CacheView())
        {
          ghost var view := CacheView();
          var (id, page) := dirty[n];
          ListedStep(view, dirty, n, Some(Item(page, false)));
          SameStep(old(CacheView()), view, id, page);
          DirtyEntry(cfg, disk, live, mapper.mapping, freeList.freePages, view, id);
          SetView(view, id, Some(Item(page, false)));
          r := Store(page, view, view[id := Some(Item(page, false))]);
          if r.Err? {
            return;
          }
          var _ := cache.MarkClean(id);
          assert live == old(live);
          n := n + 1;
        }
        ListedDone(CacheView(), dirty);
      } else {
        SameEmptyView(0);
      }
      r := Ok(());
    }

    /** Emptying the cache loses nothing: what was dirty is written back. */
    method ClearCache() returns (r: Result<(), PagerError>)
      requires Coherent()
      modifies this`disk, this`live, Shards()
      ensures Valid() && live == old(live) && r == Ok(())
      ensures CacheView() == EmptyView
    {
      hide Config.Valid, Holds, Plain, Partition, StateFits, PageCache.Valid, HoldsSuperblock, Storable, Coherence,
           Matches, PageCache.Contents, Look, DirtyIn, NoneDirty, CleanBut, ForgetsOnly, SameBut, StoredIn, ListedDirty;
      SameEmptyView(0);
      if cache != null {
        ghost var rest := CacheView();
        var dirty := cache.Clear();
        ListedStart(rest, dirty);
        var n := 0;
        while n < |dirty|
          invariant 0 <= n <= |dirty| && cfg.Valid() && CacheOk() && AllocOk() && live == old(live)
          invariant CacheView() == EmptyView
          invariant Coherence(cfg, disk, live, mapper.mapping, freeList.freePages, rest)
          invariant ListedDirty(rest, dirty, n)
        {
          var (id, page) := dirty[n];
          ListedStep(rest, dirty, n, None);
          DirtyEntry(cfg, disk, live, mapper.mapping, freeList.freePages, rest, id);
          SetView(rest, id, None);
          r := Store(page, rest, rest[id := None]);
          if r.Err? {
            return;
          }
          assert live == old(live);
          rest := rest[id := None];
          n := n + 1;
        }
        ListedDone(rest, dirty);
        ForgetClean(cfg, disk, live, mapper.mapping, freeList.freePages, rest, CacheView());
      }
      r := Ok(());
    }
  }
}
