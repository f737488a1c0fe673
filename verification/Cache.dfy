/** The sharded page cache of src/pager/cache.rs. Each shard threads a doubly linked recency list
    through its hash map by page ids. */
module PageCaches {
  import opened Wrappers
  import opened Collections
  import opened Bytes
  import opened Pages
  import opened Lru

  datatype CacheEntry = CacheEntry(page: Page, dirty: bool, prev: Option<PageId>, next: Option<PageId>)

  type Entries = map<PageId, CacheEntry>

  datatype CacheStats = CacheStats(hits: nat, misses: nat, evictions: nat, flushes: nat, currentSize: nat, dirtyPages: nat)

  // ---------------------------------------------------------------------------
  // The intrusive list
  // ---------------------------------------------------------------------------

  function At(order: seq<PageId>, i: int): Option<PageId> {
    if 0 <= i < |order| then Some(order[i]) else None
  }

  /** The entry at position `i` points to its neighbours. */
  predicate LinkedAt(e: Entries, order: seq<PageId>, i: nat) {
    i < |order| ==>
      order[i] in e && e[order[i]].prev == At(order, i - 1) && e[order[i]].next == At(order, i + 1)
  }

  /** Following `next` from the head and `prev` from the tail visits exactly `order`. */
  ghost predicate Linked(e: Entries, order: seq<PageId>) {
    && Distinct(order)
    && e.Keys == Ids(order)
    && forall i: nat :: LinkedAt(e, order, i)
  }

  function Items(e: Entries): map<PageId, Item> {
    map id | id in e :: Item(e[id].page, e[id].dirty)
  }

  function SetNext(e: Entries, id: Option<PageId>, next: Option<PageId>): Entries {
    if id.Some? && id.value in e then e[id.value := e[id.value].(next := next)] else e
  }

  function SetPrev(e: Entries, id: Option<PageId>, prev: Option<PageId>): Entries {
    if id.Some? && id.value in e then e[id.value := e[id.value].(prev := prev)] else e
  }

  /** The neighbours of `id` joined to each other. */
  function Bypassed(e: Entries, id: PageId): Entries
    requires id in e
  {
    SetPrev(SetNext(e, e[id].prev, e[id].next), e[id].next, e[id].prev)
  }

  lemma IndexOf(order: seq<PageId>, id: PageId) returns (i: nat)
    requires id in order
    ensures i < |order| && order[i] == id
  {
    i :| 0 <= i < |order| && order[i] == id;
  }

  /** What joining the neighbours changes, position by position. */
  lemma BypassedAt(e: Entries, order: seq<PageId>, i: nat, k: nat)
    requires Linked(e, order) && i < |order| && k < |order| && k != i
    ensures order[i] in e && order[k] in e
    ensures var b := Bypassed(e, order[i]);
            && b.Keys == e.Keys
            && b[order[k]] == e[order[k]].(next := if k + 1 == i then At(order, i + 1) else At(order, k + 1),
                                           prev := if k == i + 1 then At(order, i - 1) else At(order, k - 1))
  {
    assert LinkedAt(e, order, i) && LinkedAt(e, order, k);
    assert i > 0 ==> LinkedAt(e, order, i - 1);
    assert i + 1 < |order| ==> LinkedAt(e, order, i + 1);
  }

  lemma BypassedItems(e: Entries, id: PageId)
    requires id in e
    ensures Items(Bypassed(e, id)) == Items(e)
  {
  }

  /** Taking an entry out leaves a list over the other ids in their old order. */
  lemma DetachedIsLinked(e: Entries, order: seq<PageId>, i: nat)
    requires Linked(e, order) && i < |order|
    ensures order[i] in e
    ensures Linked(Bypassed(e, order[i]) - {order[i]}, Without(order, order[i]))
  {
    hide Without, Bypassed, LinkedAt;
    var id := order[i];
    DetachedKeys(e, order, i);
    var b, w := Bypassed(e, id) - {id}, order[..i] + order[i + 1..];
    forall k: nat ensures LinkedAt(b, w, k) {
      if k < |w| {
        DetachedAt(e, order, i, k);
      } else {
        NoLinkBeyond(b, w, k);
      }
    }
    hide Distinct, Ids;
  }

  lemma NoLinkBeyond(e: Entries, order: seq<PageId>, i: nat)
    requires i >= |order|
    ensures LinkedAt(e, order, i)
  {
  }

  lemma DetachedKeys(e: Entries, order: seq<PageId>, i: nat)
    requires Linked(e, order) && i < |order|
    ensures order[i] in e
    ensures Without(order, order[i]) == order[..i] + order[i + 1..]
    ensures Distinct(Without(order, order[i]))
    ensures (Bypassed(e, order[i]) - {order[i]}).Keys == Ids(Without(order, order[i]))
  {
    hide LinkedAt, Bypassed, Without;
    var id := order[i];
    assert id in Ids(order);
    WithoutAt(order, i);
    WithoutFacts(order, id);
    BypassedKeys(e, id);
    hide Distinct;
  }

  lemma BypassedKeys(e: Entries, id: PageId)
    requires id in e
    ensures Bypassed(e, id).Keys == e.Keys
  {
  }

  lemma DetachedAt(e: Entries, order: seq<PageId>, i: nat, k: nat)
    requires Linked(e, order) && i < |order| && k + 1 < |order|
    ensures order[i] in e
    ensures LinkedAt(Bypassed(e, order[i]) - {order[i]}, order[..i] + order[i + 1..], k)
  {
    var w := order[..i] + order[i + 1..];
    var j := if k < i then k else k + 1;
    assert LinkedAt(e, order, i) && LinkedAt(e, order, j);
    BypassedAt(e, order, i, j);
    hide Bypassed;
    assert w[k] == order[j] && order[j] != order[i];
    assert k > 0 ==> w[k - 1] == order[if k - 1 < i then k - 1 else k];
    assert k + 1 < |w| ==> w[k + 1] == order[if k + 1 < i then k + 1 else k + 2];
  }

  /** Putting a new entry in front of the old head. */
  lemma AttachedIsLinked(e: Entries, order: seq<PageId>, id: PageId, entry: CacheEntry)
    requires Linked(e, order) && id !in e && entry.prev == None && entry.next == At(order, 0)
    ensures Linked(SetPrev(e[id := entry], At(order, 0), Some(id)), [id] + order)
  {
    assert id !in order;
    var a := SetPrev(e[id := entry], At(order, 0), Some(id));
    var o := [id] + order;
    if order != [] {
      assert LinkedAt(e, order, 0);
    }
    forall k: nat ensures LinkedAt(a, o, k) {
      if 0 < k < |o| {
        assert LinkedAt(e, order, k - 1);
        assert o[k] == order[k - 1];
      }
    }
    assert a.Keys == e.Keys + {id};
  }

  lemma LinkedFacts(e: Entries, order: seq<PageId>)
    requires Linked(e, order)
    ensures Distinct(order)
    ensures |e| == |order|
    ensures Lru(order, Items(e)).Valid()
    ensures forall id :: id in e <==> id in order
  {
    DistinctSize(order);
    assert |e| == |e.Keys|;
    assert Items(e).Keys == e.Keys;
  }

  /** `move_to_front` on the map: join the neighbours, then relink the entry before the old head. */
  function Moved(e: Entries, head: Option<PageId>, id: PageId): (m: Entries)
    requires id in e
    ensures Items(m) == Items(e)
  {
    BypassedItems(e, id);
    var b := Bypassed(e, id);
    assert id in Items(e) && Items(b).Keys == b.Keys;
    SetPrev(b[id := b[id].(prev := None, next := head)], head, Some(id))
  }

  lemma MovedIsAttached(e: Entries, head: Option<PageId>, id: PageId) returns (entry: CacheEntry)
    requires id in e
    ensures entry.prev == None && entry.next == head
    ensures Moved(e, head, id) == SetPrev((Bypassed(e, id) - {id})[id := entry], head, Some(id))
  {
    BypassedItems(e, id);
    var b := Bypassed(e, id);
    assert id in Items(b);
    entry := b[id].(prev := None, next := head);
    assert (b - {id})[id := entry] == b[id := entry];
  }

  lemma MovedIsLinked(e: Entries, order: seq<PageId>, id: PageId)
    requires Linked(e, order) && id in e && order != [] && order[0] != id
    ensures Linked(Moved(e, At(order, 0), id), [id] + Without(order, id))
  {
    hide *;
    LinkedFacts(e, order);
    var i := IndexOf(order, id);
    DetachedIsLinked(e, order, i);
    HeadStays(order, id);
    var entry := MovedIsAttached(e, At(order, 0), id);
    AttachedIsLinked(Bypassed(e, id) - {id}, Without(order, id), id, entry);
  }

  lemma HeadStays(order: seq<PageId>, id: PageId)
    requires order != [] && order[0] != id
    ensures At(Without(order, id), 0) == At(order, 0)
  {
  }

  /** The tail after a move is the moved entry's old predecessor if it was the tail itself. */
  lemma TailAfterMove(e: Entries, order: seq<PageId>, id: PageId)
    requires Linked(e, order) && id in e && order != [] && order[0] != id
    ensures var o := [id] + Without(order, id);
            At(o, |o| - 1) == if At(order, |order| - 1) == Some(id) then e[id].prev else At(order, |order| - 1)
    ensures At(order, |order| - 1) == Some(id) ==> e[id].prev.Some?
  {
    hide Linked, LinkedAt, Without, Distinct, Items;
    LinkedFacts(e, order);
    var i := IndexOf(order, id);
    PositionFacts(e, order, i);
    LastOfMoved(order, i);
  }

  lemma PositionFacts(e: Entries, order: seq<PageId>, i: nat)
    requires Linked(e, order) && i < |order|
    ensures order[i] in e && e[order[i]].prev == At(order, i - 1) && e[order[i]].next == At(order, i + 1)
    ensures order[|order| - 1] == order[i] ==> i == |order| - 1
    ensures Without(order, order[i]) == order[..i] + order[i + 1..]
  {
    assert LinkedAt(e, order, i);
    WithoutAt(order, i);
    hide Without;
  }

  lemma LastOfMoved(order: seq<PageId>, i: nat)
    requires 0 < i < |order|
    ensures var o := [order[i]] + (order[..i] + order[i + 1..]);
            |o| == |order| && o[|o| - 1] == if i == |order| - 1 then order[i - 1] else order[|order| - 1]
  {
  }

  /** Removing the entry first and joining its neighbours afterwards comes to the same. */
  lemma RemovedIsLinked(e: Entries, order: seq<PageId>, id: PageId)
    requires Linked(e, order) && id in e
    ensures var (prev, next) := (e[id].prev, e[id].next);
            var r := SetPrev(SetNext(e - {id}, prev, next), next, prev);
            && Linked(r, Without(order, id))
            && Items(r) == Items(e) - {id}
  {
    hide Linked, LinkedAt, Without, Distinct;
    LinkedFacts(e, order);
    var i := IndexOf(order, id);
    PositionFacts(e, order, i);
    NeighboursDiffer(order, i);
    assert order[i] == id;
    DetachedIsLinked(e, order, i);
    RemoveCommutes(e, id);
    BypassedItems(e, id);
    ItemsMinus(Bypassed(e, id), id);
    hide Bypassed, SetNext, SetPrev, Items;
  }

  lemma RemoveCommutes(e: Entries, id: PageId)
    requires id in e && e[id].prev != Some(id) && e[id].next != Some(id)
    ensures var (prev, next) := (e[id].prev, e[id].next);
            SetPrev(SetNext(e - {id}, prev, next), next, prev) == Bypassed(e, id) - {id}
  {
  }

  lemma NeighboursDiffer(order: seq<PageId>, i: nat)
    requires i < |order|
    requires Distinct(order)
    ensures At(order, i - 1) != Some(order[i]) && At(order, i + 1) != Some(order[i])
  {
  }

  lemma ItemsMinus(e: Entries, id: PageId)
    ensures Items(e - {id}) == Items(e) - {id}
  {
  }

  lemma EndsAfterRemove(e: Entries, order: seq<PageId>, id: PageId)
    requires Linked(e, order) && id in e
    ensures var w := Without(order, id);
            && At(w, 0) == (if e[id].prev.Some? then At(order, 0) else e[id].next)
            && At(w, |w| - 1) == (if e[id].next.Some? then At(order, |order| - 1) else e[id].prev)
  {
    hide Linked, LinkedAt, Without, Distinct, Items;
    LinkedFacts(e, order);
    var i := IndexOf(order, id);
    PositionFacts(e, order, i);
    EndsWithout(order, i);
  }

  lemma EndsWithout(order: seq<PageId>, i: nat)
    requires i < |order|
    ensures var w := order[..i] + order[i + 1..];
            && |w| == |order| - 1
            && At(w, 0) == (if i > 0 then At(order, 0) else At(order, 1))
            && At(w, |w| - 1) == (if i + 1 < |order| then At(order, |order| - 1) else At(order, i - 1))
  {
  }

  // ---------------------------------------------------------------------------
  // One shard
  // ---------------------------------------------------------------------------

  /** Keys are page ids, the size is what the counter says and within bounds, and no more pages
      are counted dirty than are. */
  ghost predicate Accounted(l: Lru, capacity: nat, stats: CacheStats) {
    && l.Valid()
    && (forall id | id in l.items :: l.items[id].page.header.pageId == id)
    && stats.currentSize == |l.order| <= Max(1, capacity)
    && stats.dirtyPages <= |DirtyIds(l)|
  }

  /** The statistics after an operation; a put counts an eviction, a mark a flush. */
  function StatsAfter(l: Lru, capacity: nat, op: Op, stats: CacheStats): CacheStats {
    var s := stats.(currentSize := |Apply(l, capacity, op).order|, dirtyPages := Counter(l, capacity, op, stats.dirtyPages));
    match op
    case Get(id) => if id in l.items then s.(hits := s.hits + 1) else s.(misses := s.misses + 1)
    case Put(page, _) => if Victim(l, capacity, page.header.pageId).Some? then s.(evictions := s.evictions + 1) else s
    case Mark(id, dirty) => if !dirty && Leaving(l, id).Some? then s.(flushes := s.flushes + 1) else s
    case _ => s
  }

  /** Every operation keeps the books. */
  lemma StaysAccounted(l: Lru, capacity: nat, op: Op, stats: CacheStats)
    requires Accounted(l, capacity, stats)
    ensures Accounted(Apply(l, capacity, op), capacity, StatsAfter(l, capacity, op, stats))
  {
    ApplyKeepsValid(l, capacity, op);
    CounterStep(l, capacity, op, stats.dirtyPages);
    SizeStep(l, capacity, op);
    ItemsStep(l, capacity, op);
    hide Apply, DirtyIds, Lru.Valid;
  }

  lemma ItemsStep(l: Lru, capacity: nat, op: Op)
    requires forall id | id in l.items :: l.items[id].page.header.pageId == id
    ensures var l' := Apply(l, capacity, op);
            forall id | id in l'.items :: l'.items[id].page.header.pageId == id
  {
    hide Without;
  }

  lemma LinkedSize(e: Entries, order: seq<PageId>)
    requires Linked(e, order)
    ensures |e| == |order|
  {
    LinkedFacts(e, order);
  }

  lemma SameSize(l: Lru, capacity: nat, stats: CacheStats)
    requires Accounted(l, capacity, stats)
    ensures stats.currentSize == |l.order|
  {
    hide DirtyIds, Lru.Valid;
  }

  /** What removing an id amounts to, resident or not. */
  lemma RemoveFacts(e: Entries, order: seq<PageId>, capacity: nat, id: PageId, stats: CacheStats)
    requires Linked(e, order) && Accounted(Lru(order, Items(e)), capacity, stats)
    ensures var l := Lru(order, Items(e));
            && Accounted(Delete(l, id), capacity, StatsAfter(l, capacity, Remove(id), stats))
            && Leaving(l, id) == (if id in e && e[id].dirty then Some(e[id].page) else None)
            && (id !in e ==> Delete(l, id) == l && StatsAfter(l, capacity, Remove(id), stats) == stats)
  {
    hide Linked, Without, DirtyIds, Distinct, Ids, Accounted;
    var l := Lru(order, Items(e));
    StaysAccounted(l, capacity, Remove(id), stats);
    LinkedFacts(e, order);
    DeleteKeepsValid(l, id);
    if id !in e {
      SameSize(l, capacity, stats);
    }
  }

  /** The page a put hands back: the victim's, if it was dirty. */
  function PushedOut(l: Lru, capacity: nat, id: PageId): Option<Page> {
    var v := Victim(l, capacity, id);
    if v.Some? then Leaving(l, v.value) else None
  }

  /** A put of a new id in the steps of the source: make room, push, count. */
  lemma PutVacant(l: Lru, capacity: nat, page: Page, dirty: bool, stats: CacheStats)
    requires page.header.pageId !in l.items
    ensures var id := page.header.pageId;
            var v := Victim(l, capacity, id);
            var evicts := |l.order| >= capacity && l.order != [];
            var room := if evicts then Delete(l, l.order[|l.order| - 1]) else l;
            var s := if evicts then StatsAfter(l, capacity, Remove(l.order[|l.order| - 1]), stats) else stats;
            && v == (if evicts then Some(l.order[|l.order| - 1]) else None)
            && id !in room.items
            && Insert(l, capacity, page, dirty) == Lru([id] + room.order, room.items[id := Item(page, dirty)])
            && StatsAfter(l, capacity, Put(page, dirty), stats) ==
               s.(currentSize := |room.order| + 1,
                  dirtyPages := if dirty then s.dirtyPages + 1 else s.dirtyPages,
                  evictions := if evicts then s.evictions + 1 else s.evictions)
  {
    hide Without;
  }

  lemma AttachedItems(e: Entries, head: Option<PageId>, id: PageId, entry: CacheEntry)
    ensures Items(SetPrev(e[id := entry], head, Some(id))) == Items(e)[id := Item(entry.page, entry.dirty)]
  {
  }

  lemma ItemsDomain(e: Entries)
    ensures Items(e).Keys == e.Keys
  {
  }

  /** Changing a page or its flag leaves the list alone. */
  lemma UpdatedIsLinked(e: Entries, order: seq<PageId>, id: PageId, page: Page, dirty: bool)
    requires Linked(e, order) && id in e
    ensures var e' := e[id := e[id].(page := page, dirty := dirty)];
            Linked(e', order) && Items(e') == Items(e)[id := Item(page, dirty)]
  {
    var e' := e[id := e[id].(page := page, dirty := dirty)];
    forall i: nat ensures LinkedAt(e', order, i) {
      assert LinkedAt(e, order, i);
    }
  }

  lemma GetFacts(e: Entries, order: seq<PageId>, capacity: nat, id: PageId, stats: CacheStats)
    requires Linked(e, order) && Accounted(Lru(order, Items(e)), capacity, stats)
    ensures var l := Lru(order, Items(e));
            && Accounted(Access(l, id), capacity, StatsAfter(l, capacity, Get(id), stats))
            && (id in l.items <==> id in e)
            && (id in e ==> l.items[id].page == e[id].page)
            && StatsAfter(l, capacity, Get(id), stats) ==
               if id in e then stats.(hits := stats.hits + 1) else stats.(misses := stats.misses + 1)
  {
    var l := Lru(order, Items(e));
    StaysAccounted(l, capacity, Get(id), stats);
    if id in e {
      AccessLength(l, id);
    }
    hide Linked, Without, DirtyIds, Distinct, Ids;
  }

  lemma AccessLength(l: Lru, id: PageId)
    requires l.Valid()
    ensures |Access(l, id).order| == |l.order|
  {
    if id in l.items {
      assert id in l.order;
      WithoutLength(l.order, id);
    }
  }

  lemma PutFacts(e: Entries, order: seq<PageId>, capacity: nat, page: Page, dirty: bool, stats: CacheStats)
    requires Linked(e, order) && Accounted(Lru(order, Items(e)), capacity, stats)
    ensures var l, id := Lru(order, Items(e)), page.header.pageId;
            && Accounted(Insert(l, capacity, page, dirty), capacity, StatsAfter(l, capacity, Put(page, dirty), stats))
            && (id in l.items <==> id in e)
            && |e| == |order|
            && (id in e ==> l.items[id].dirty == e[id].dirty && StatsAfter(l, capacity, Put(page, dirty), stats) == stats)
  {
    var l, id := Lru(order, Items(e)), page.header.pageId;
    StaysAccounted(l, capacity, Put(page, dirty), stats);
    LinkedSize(e, order);
    if id in e {
      var l' := l.(items := l.items[id := Item(page, l.items[id].dirty || dirty)]);
      assert l'.items.Keys == l.items.Keys;
      AccessLength(l', id);
    }
    hide Linked, Without, DirtyIds, Distinct, Ids;
  }

  lemma MarkFacts(e: Entries, order: seq<PageId>, capacity: nat, id: PageId, dirty: bool, stats: CacheStats)
    requires Linked(e, order) && Accounted(Lru(order, Items(e)), capacity, stats)
    ensures var l := Lru(order, Items(e));
            && Accounted(SetDirty(l, id, dirty), capacity, StatsAfter(l, capacity, Mark(id, dirty), stats))
            && (id in l.items <==> id in e)
            && (id in e ==>
                  var e' := e[id := e[id].(dirty := dirty)];
                  && Linked(e', order) && SetDirty(l, id, dirty) == Lru(order, Items(e'))
                  && StatsAfter(l, capacity, Mark(id, dirty), stats) ==
                     (if e[id].dirty == dirty then stats
                      else if dirty then stats.(dirtyPages := stats.dirtyPages + 1)
                      else stats.(dirtyPages := Minus1(stats.dirtyPages), flushes := stats.flushes + 1)))
            && (id !in e ==> StatsAfter(l, capacity, Mark(id, dirty), stats) == stats)
  {
    var l := Lru(order, Items(e));
    StaysAccounted(l, capacity, Mark(id, dirty), stats);
    if id in e {
      UpdatedIsLinked(e, order, id, e[id].page, dirty);
    }
    hide Linked, Without, DirtyIds, Distinct, Ids;
  }

  /** `r` lists the dirty entries, each once. */
  ghost predicate ListsDirty(l: Lru, r: seq<(PageId, Page)>) {
    && (forall i, j | 0 <= i < j < |r| :: r[i].0 != r[j].0)
    && (forall i | 0 <= i < |r| :: Leaving(l, r[i].0) == Some(r[i].1))
    && (forall id: PageId | Leaving(l, id).Some? :: (id, Leaving(l, id).value) in r)
  }

  class CacheShard {
    var entries: Entries
    var lruHead: Option<PageId>
    var lruTail: Option<PageId>
    var stats: CacheStats
    const capacity: nat
    ghost var order: seq<PageId>

    /** The links form one list, and it is `order`. */
    ghost predicate ListOk()
      reads this
    {
      && Linked(entries, order)
      && lruHead == At(order, 0)
      && lruTail == At(order, |order| - 1)
    }

    ghost predicate Valid()
      reads this
    {
      ListOk() && Accounted(Model(), capacity, stats)
    }

    /** The reference model this shard stands for. */
    ghost function Model(): Lru
      reads this
    {
      Lru(order, Items(entries))
    }

    constructor (capacity: nat)
      ensures Valid() && Model() == Empty && this.capacity == capacity && stats == CacheStats(0, 0, 0, 0, 0, 0)
    {
      entries, lruHead, lruTail, order := map[], None, None, [];
      stats := CacheStats(0, 0, 0, 0, 0, 0);
      this.capacity := capacity;
    }

    method MoveToFront(id: PageId)
      requires ListOk() && id in entries
      modifies this`entries, this`lruHead, this`lruTail, this`order
      ensures ListOk()
      ensures Model() == Access(old(Model()), id)
    {
      hide Linked, Without, Bypassed, Items, SetNext, SetPrev;
      LinkedFacts(entries, order);
      if lruHead == Some(id) {
        FrontIsFront(order);
        return;
      }
      MovedIsLinked(entries, order, id);
      TailAfterMove(entries, order, id);
      MovedIs(entries, lruHead, id);
      ghost var moved := Moved(entries, lruHead, id);
      var prev, next := entries[id].prev, entries[id].next;
      entries := SetNext(entries, prev, next);
      entries := SetPrev(entries, next, prev);
      if lruTail == Some(id) {
        lruTail := prev;
      }
      entries := entries[id := entries[id].(prev := None, next := lruHead)];
      entries := SetPrev(entries, lruHead, Some(id));
      assert entries == moved;
      lruHead := Some(id);
      lruTail := if lruTail.None? then Some(id) else lruTail;
      order := [id] + Without(order, id);
    }

    /** Takes an entry out of the map and the list. */
    method Unlink(id: PageId) returns (entry: CacheEntry)
      requires ListOk() && id in entries
      modifies this`entries, this`lruHead, this`lruTail, this`order
      ensures ListOk()
      ensures Model() == Delete(old(Model()), id)
      ensures entry == old(entries)[id]
    {
      hide Linked, LinkedAt, Without, Bypassed, SetNext, SetPrev, Items;
      RemovedIsLinked(entries, order, id);
      EndsAfterRemove(entries, order, id);
      entry := entries[id];
      entries := entries - {id};
      entries := SetNext(entries, entry.prev, entry.next);
      if entry.prev.None? {
        lruHead := entry.next;
      }
      entries := SetPrev(entries, entry.next, entry.prev);
      if entry.next.None? {
        lruTail := entry.prev;
      }
      order := Without(order, id);
    }

    /** Returns the removed page if it was dirty; a missing id changes nothing. */
    method RemoveEntry(id: PageId) returns (r: Option<Page>)
      requires Valid()
      modifies this`entries, this`lruHead, this`lruTail, this`order, this`stats
      ensures Valid()
      ensures Model() == Delete(old(Model()), id)
      ensures r == Leaving(old(Model()), id)
      ensures stats == StatsAfter(old(Model()), capacity, Remove(id), old(stats))
    {
      hide Linked, Without, Accounted, DirtyIds, Distinct, Items, Ids, Lru.Valid;
      RemoveFacts(entries, order, capacity, id, stats);
      if id !in entries {
        return None;
      }
      var entry := Unlink(id);
      LinkedSize(entries, order);
      stats := stats.(currentSize := |entries|);
      if entry.dirty {
        stats := stats.(dirtyPages := Minus1(stats.dirtyPages));
        r := Some(entry.page);
      } else {
        r := None;
      }
    }

    /** The tail goes, counted as an eviction. */
    method EvictLru() returns (r: Option<Page>)
      requires Valid()
      modifies this`entries, this`lruHead, this`lruTail, this`order, this`stats
      ensures Valid()
      ensures old(order) == [] ==> r == None && Model() == old(Model()) && stats == old(stats)
      ensures old(order) != [] ==>
                var last := old(order)[|old(order)| - 1];
                && Model() == Delete(old(Model()), last)
                && r == Leaving(old(Model()), last)
                && stats == (var s := StatsAfter(old(Model()), capacity, Remove(last),
                    old(stats)); s.(evictions := s.evictions + 1))
    {
      hide Linked, Without, DirtyIds, Distinct, Items, Ids, Lru.Valid;
      if lruTail.None? {
        return None;
      }
      var tail := lruTail.value;
      stats := stats.(evictions := stats.evictions + 1);
      r := RemoveEntry(tail);
    }

    /** Inserts a new entry before the head. */
    method PushFront(id: PageId, page: Page, dirty: bool)
      requires ListOk() && id !in entries
      modifies this`entries, this`lruHead, this`lruTail, this`order
      ensures ListOk()
      ensures Model() == Lru([id] + old(order), Items(old(entries))[id := Item(page, dirty)])
    {
      hide Linked, LinkedAt, Without, Distinct, Items, Ids;
      var entry := CacheEntry(page, dirty, None, lruHead);
      AttachedIsLinked(entries, order, id, entry);
      AttachedItems(entries, lruHead, id, entry);
      entries := entries[id := entry];
      entries := SetPrev(entries, lruHead, Some(id));
      lruHead := Some(id);
      if lruTail.None? {
        lruTail := Some(id);
      }
      order := [id] + order;
    }

    method Get(id: PageId) returns (r: Option<Page>)
      requires Valid()
      modifies this`entries, this`lruHead, this`lruTail, this`order, this`stats
      ensures Valid()
      ensures Model() == Access(old(Model()), id)
      ensures r == if id in old(Model()).items then Some(old(Model()).items[id].page) else None
      ensures stats == StatsAfter(old(Model()), capacity, Op.Get(id), old(stats))
    {
      hide Linked, Without, Accounted, DirtyIds, Distinct, Items, Ids, Lru.Valid;
      GetFacts(entries, order, capacity, id, stats);
      if id in entries {
        stats := stats.(hits := stats.hits + 1);
        var page := entries[id].page;
        MoveToFront(id);
        r := Some(page);
      } else {
        stats := stats.(misses := stats.misses + 1);
        r := None;
      }
    }

    /** Returns the page that was pushed out, if it was dirty. */
    method Put(page: Page, dirty: bool) returns (r: Option<Page>)
      requires Valid()
      modifies this`entries, this`lruHead, this`lruTail, this`order, this`stats
      ensures Valid()
      ensures Model() == Insert(old(Model()), capacity, page, dirty)
      ensures r == PushedOut(old(Model()), capacity, page.header.pageId)
      ensures stats == StatsAfter(old(Model()), capacity, Op.Put(page, dirty), old(stats))
    {
      hide Linked, Without, Accounted, DirtyIds, Distinct, Items, Ids, Lru.Valid, Delete, Counter;
      var id := page.header.pageId;
      PutFacts(entries, order, capacity, page, dirty, stats);
      if id in entries {
        UpdatedIsLinked(entries, order, id, page, entries[id].dirty || dirty);
        entries := entries[id := entries[id].(page := page, dirty := entries[id].dirty || dirty)];
        MoveToFront(id);
        r := None;
      } else {
        r := PutNew(page, dirty);
      }
    }

    method PutNew(page: Page, dirty: bool) returns (r: Option<Page>)
      requires Valid() && page.header.pageId !in entries
      modifies this`entries, this`lruHead, this`lruTail, this`order, this`stats
      ensures ListOk()
      ensures Model() == Insert(old(Model()), capacity, page, dirty)
      ensures r == PushedOut(old(Model()), capacity, page.header.pageId)
      ensures stats == StatsAfter(old(Model()), capacity, Op.Put(page, dirty), old(stats))
    {
      hide Linked, Without, Accounted, DirtyIds, Distinct, Items, Ids, Lru.Valid, Insert, StatsAfter, Delete, Leaving;
      ItemsDomain(entries);
      LinkedSize(entries, order);
      PutVacant(Model(), capacity, page, dirty, stats);
      if |entries| >= capacity {
        r := EvictLru();
      } else {
        r := None;
      }
      ItemsDomain(entries);
      PushFront(page.header.pageId, page, dirty);
      LinkedSize(entries, order);
      stats := stats.(currentSize := |entries|);
      if dirty {
        stats := stats.(dirtyPages := stats.dirtyPages + 1);
      }
    }

    method MarkDirty(id: PageId) returns (found: bool)
      requires Valid()
      modifies this`entries, this`stats
      ensures Valid()
      ensures Model() == SetDirty(old(Model()), id, true)
      ensures found <==> id in old(Model()).items
      ensures stats == StatsAfter(old(Model()), capacity, Mark(id, true), old(stats))
    {
      hide Linked, Without, Accounted, DirtyIds, Distinct, Items, Ids, Lru.Valid;
      MarkFacts(entries, order, capacity, id, true, stats);
      if id in entries {
        if !entries[id].dirty {
          entries := entries[id := entries[id].(dirty := true)];
          stats := stats.(dirtyPages := stats.dirtyPages + 1);
        } else {
          assert entries[id := entries[id].(dirty := true)] == entries;
        }
        found := true;
      } else {
        found := false;
      }
    }

    method MarkClean(id: PageId) returns (found: bool)
      requires Valid()
      modifies this`entries, this`stats
      ensures Valid()
      ensures Model() == SetDirty(old(Model()), id, false)
      ensures found <==> id in old(Model()).items
      ensures stats == StatsAfter(old(Model()), capacity, Mark(id, false), old(stats))
    {
      hide Linked, Without, Accounted, DirtyIds, Distinct, Items, Ids, Lru.Valid;
      MarkFacts(entries, order, capacity, id, false, stats);
      if id in entries {
        if entries[id].dirty {
          entries := entries[id := entries[id].(dirty := false)];
          stats := stats.(dirtyPages := Minus1(stats.dirtyPages), flushes := stats.flushes + 1);
        } else {
          assert entries[id := entries[id].(dirty := false)] == entries;
        }
        found := true;
      } else {
        found := false;
      }
    }

    /** The dirty entries, each once, in any order. */
    method DirtyPages() returns (r: seq<(PageId, Page)>)
      requires Valid()
      ensures ListsDirty(Model(), r)
    {
      hide Linked, Accounted, Distinct, Ids, At, DirtyIds;
      r := [];
      var rest := entries.Keys;
      while rest != {}
        invariant rest <= entries.Keys
        invariant forall i | 0 <= i < |r| ::
                    r[i].0 in entries && r[i].0 !in rest && r[i] == (r[i].0, entries[r[i].0].page) && entries[r[i].0].dirty
        invariant forall i, j | 0 <= i < j < |r| :: r[i].0 != r[j].0
        invariant forall id | id in entries && id !in rest && entries[id].dirty :: (id, entries[id].page) in r
        decreases |rest|
      {
        var id :| id in rest;
        if entries[id].dirty {
          r := r + [(id, entries[id].page)];
        }
        rest := rest - {id};
      }
    }

    method Clear() returns (r: seq<(PageId, Page)>)
      requires Valid()
      modifies this`entries, this`lruHead, this`lruTail, this`order, this`stats
      ensures Valid()
      ensures Model() == Empty && ListsDirty(old(Model()), r)
      ensures stats == StatsAfter(old(Model()), capacity, Op.Clear, old(stats))
    {
      r := DirtyPages();
      StaysAccounted(Model(), capacity, Op.Clear, stats);
      entries, order, lruHead, lruTail := map[], [], None, None;
      stats := stats.(currentSize := 0, dirtyPages := 0);
      assert Model() == Empty;
    }
  }

  datatype Event = Hit | Miss | Eviction | Flush

  /** What operation `i` of a run is: a read that finds its id or not, a put that makes another id leave, a page
      marked clean that was dirty. */
  ghost predicate Happens(capacity: nat, ops: seq<Op>, i: nat, event: Event)
    requires i < |ops|
  {
    var l, op := Run(capacity, ops[..i]), ops[i];
    match event
    case Hit => op.Get? && op.id in l.items
    case Miss => op.Get? && op.id !in l.items
    case Eviction => op.Put? && exists x :: x in l.items && x !in Apply(l, capacity, op).items
    case Flush => op.Mark? && !op.dirty && op.id in l.items && l.items[op.id].dirty
  }

  ghost function Times(capacity: nat, ops: seq<Op>, n: nat, event: Event): set<nat>
    requires n <= |ops|
  {
    set i: nat | i < n && Happens(capacity, ops, i, event)
  }

  /** The statistics count the events of the first `n` operations. */
  ghost predicate Counted(capacity: nat, ops: seq<Op>, n: nat, stats: CacheStats)
    requires n <= |ops|
  {
    && stats.hits == |Times(capacity, ops, n, Hit)| && stats.misses == |Times(capacity, ops, n, Miss)|
    && stats.evictions == |Times(capacity, ops, n, Eviction)| && stats.flushes == |Times(capacity, ops, n, Flush)|
  }

  lemma NothingCounted(capacity: nat, ops: seq<Op>)
    ensures Counted(capacity, ops, 0, CacheStats(0, 0, 0, 0, 0, 0))
  {
    hide Happens;
    assert forall event :: Times(capacity, ops, 0, event) == {};
  }

  lemma TimesNext(capacity: nat, ops: seq<Op>, n: nat, event: Event)
    requires n < |ops|
    ensures |Times(capacity, ops, n + 1, event)|
            == |Times(capacity, ops, n, event)| + if Happens(capacity, ops, n, event) then 1 else 0
  {
    hide Happens, Run, Apply;
    var before, after := Times(capacity, ops, n, event), Times(capacity, ops, n + 1, event);
    assert n !in before;
    if Happens(capacity, ops, n, event) {
      assert after == before + {n};
    } else {
      assert after == before;
    }
  }

  lemma CountedNext(capacity: nat, ops: seq<Op>, n: nat, stats: CacheStats)
    requires n < |ops| && Counted(capacity, ops, n, stats)
    ensures Counted(capacity, ops, n + 1, StatsAfter(Run(capacity, ops[..n]), capacity, ops[n], stats))
  {
    hide Times, Run;
    TimesNext(capacity, ops, n, Hit);
    TimesNext(capacity, ops, n, Miss);
    TimesNext(capacity, ops, n, Eviction);
    TimesNext(capacity, ops, n, Flush);
    OrderIsRecency(capacity, ops[..n]);
    hide Recent;
    if ops[n].Put? {
      PutEvicts(Run(capacity, ops[..n]), capacity, ops[n].page, ops[n].dirty);
    }
  }

  /** A put makes an id leave if and only if it has a victim. */
  lemma PutEvicts(l: Lru, capacity: nat, page: Page, dirty: bool)
    requires l.Valid()
    ensures Victim(l, capacity, page.header.pageId).Some? <==>
            exists x :: x in l.items && x !in Insert(l, capacity, page, dirty).items
  {
    InsertItems(l, capacity, page, dirty);
    hide Insert, Victim;
    var v := Victim(l, capacity, page.header.pageId);
    if v.Some? {
      assert v.value in l.items && v.value !in Insert(l, capacity, page, dirty).items;
    }
  }

  /** One operation on a shard is one operation on the reference shard. */
  method Perform(shard: CacheShard, op: Op)
    requires shard.Valid()
    modifies shard
    ensures shard.Valid()
    ensures shard.Model() == Apply(old(shard.Model()), shard.capacity, op)
    ensures shard.stats == StatsAfter(old(shard.Model()), shard.capacity, op, old(shard.stats))
  {
    hide CacheShard.Valid, CacheShard.Model, StatsAfter, Insert, Access, SetDirty, Delete;
    match op {
      case Get(id) => var _ := shard.Get(id);
      case Put(page, dirty) => var _ := shard.Put(page, dirty);
      case Mark(id, dirty) =>
        if dirty {
          var _ := shard.MarkDirty(id);
        } else {
          var _ := shard.MarkClean(id);
        }
      case Remove(id) => var _ := shard.RemoveEntry(id);
      case Clear => var _ := shard.Clear();
    }
  }

  /** Every sequence of operations on a new shard: its links and counters are those of the reference run, so
      what is proved of all reference runs holds of the linked list in the hash map. The other statistics count
      the hits, misses, evictions and flushes of the run. */
  method RunShard(capacity: nat, ops: seq<Op>) returns (shard: CacheShard)
    ensures fresh(shard) && shard.Valid() && shard.capacity == capacity
    ensures shard.Model() == Run(capacity, ops)
    ensures shard.stats.dirtyPages == RunCounter(capacity, ops)
    ensures shard.stats.currentSize == |Run(capacity, ops).order|
    ensures Counted(capacity, ops, |ops|, shard.stats)
  {
    hide CacheShard.Valid, CacheShard.Model, Apply, Counter, Counted;
    shard := new CacheShard(capacity);
    NothingCounted(capacity, ops);
    for n := 0 to |ops|
      invariant fresh(shard) && shard.Valid() && shard.capacity == capacity
      invariant shard.Model() == Run(capacity, ops[..n])
      invariant shard.stats.dirtyPages == RunCounter(capacity, ops[..n])
      invariant shard.stats.currentSize == |Run(capacity, ops[..n]).order|
      invariant Counted(capacity, ops, n, shard.stats)
    {
      assert ops[..n + 1][..n] == ops[..n];
      ghost var l, stats := shard.Model(), shard.stats;
      Perform(shard, ops[n]);
      CountersAfter(l, capacity, ops[n], stats);
      CountedNext(capacity, ops, n, stats);
      hide StatsAfter;
    }
    assert ops[..|ops|] == ops;
  }

  lemma CountersAfter(l: Lru, capacity: nat, op: Op, stats: CacheStats)
    ensures StatsAfter(l, capacity, op, stats).dirtyPages == Counter(l, capacity, op, stats.dirtyPages)
    ensures StatsAfter(l, capacity, op, stats).currentSize == |Apply(l, capacity, op).order|
  {
  }

  lemma FrontIsFront(order: seq<PageId>)
    requires order != []
    ensures [order[0]] + Without(order, order[0]) == order
  {
  }

  lemma MovedIs(e: Entries, head: Option<PageId>, id: PageId)
    requires id in e
    ensures var b := SetPrev(SetNext(e, e[id].prev, e[id].next), e[id].next, e[id].prev);
            id in b && Moved(e, head, id) == SetPrev(b[id := b[id].(prev := None, next := head)], head, Some(id))
  {
  }

  // ---------------------------------------------------------------------------
  // The sharded cache
  // ---------------------------------------------------------------------------

  const NUM_SHARDS := 32

  lemma ShardIndex(id: PageId)
    ensures 0 <= id % NUM_SHARDS < NUM_SHARDS
  {
  }

  /** What a cache holds for every id. */
  type View = imap<PageId, Option<Item>>

  ghost const EmptyView: View := imap id: PageId | true :: None

  ghost function Look(view: View, id: PageId): Option<Item> {
    if id in view then view[id] else None
  }

  ghost predicate DirtyIn(view: View, id: PageId) {
    Look(view, id).Some? && Look(view, id).value.dirty
  }

  function PeekIn(models: seq<Lru>, id: PageId): Option<Item>
    requires |models| == NUM_SHARDS
  {
    ShardIndex(id);
    var items := models[id % NUM_SHARDS].items;
    if id in items then Some(items[id]) else None
  }

  ghost function ViewOf(models: seq<Lru>): View
    requires |models| == NUM_SHARDS
  {
    imap id: PageId | true :: PeekIn(models, id)
  }

  ghost predicate Sharded(l: Lru, i: nat) {
    forall id | id in l.items :: id % NUM_SHARDS == i
  }

  lemma LookIn(models: seq<Lru>, id: PageId)
    requires |models| == NUM_SHARDS
    ensures 0 <= id % NUM_SHARDS < NUM_SHARDS
    ensures var items := models[id % NUM_SHARDS].items;
            && Look(ViewOf(models), id) == (if id in items then Some(items[id]) else None)
            && (DirtyIn(ViewOf(models), id) <==> id in items && items[id].dirty)
  {
    ShardIndex(id);
  }

  /** A change to one entry of a shard, seen in the whole cache. */
  lemma EntryInto(models: seq<Lru>, id: PageId, l': Lru, e: Option<Item>)
    requires |models| == NUM_SHARDS && Sharded(models[id % NUM_SHARDS], id % NUM_SHARDS)
    requires var items := models[id % NUM_SHARDS].items;
             l'.items == if e.Some? then items[id := e.value] else items - {id}
    ensures Sharded(l', id % NUM_SHARDS)
    ensures ViewOf(models[id % NUM_SHARDS := l']) == ViewOf(models)[id := e]
  {
    forall j: PageId ensures PeekIn(models[id % NUM_SHARDS := l'], j) == if j == id then e else PeekIn(models, j) {
      ShardIndex(j);
    }
  }

  lemma SameItems(models: seq<Lru>, k: nat, l': Lru)
    requires |models| == NUM_SHARDS && k < NUM_SHARDS && l'.items == models[k].items
    ensures ViewOf(models[k := l']) == ViewOf(models)
    ensures Sharded(models[k], k) ==> Sharded(l', k)
  {
    forall j: PageId ensures PeekIn(models[k := l'], j) == PeekIn(models, j) {
      ShardIndex(j);
    }
  }

  lemma MarkInto(models: seq<Lru>, id: PageId, dirty: bool)
    requires |models| == NUM_SHARDS && Sharded(models[id % NUM_SHARDS], id % NUM_SHARDS)
    ensures var l, view := models[id % NUM_SHARDS], ViewOf(models);
            && Sharded(SetDirty(l, id, dirty), id % NUM_SHARDS)
            && (id in l.items <==> Look(view, id).Some?)
            && ViewOf(models[id % NUM_SHARDS := SetDirty(l, id, dirty)])
               == if id in l.items then view[id := Some(Look(view, id).value.(dirty := dirty))] else view
  {
    hide ViewOf, Sharded;
    var l := models[id % NUM_SHARDS];
    LookIn(models, id);
    if id in l.items {
      EntryInto(models, id, SetDirty(l, id, dirty), Some(l.items[id].(dirty := dirty)));
    } else {
      SameItems(models, id % NUM_SHARDS, l);
    }
  }

  /** `r` lists what is dirty in the first `n` shards, each id once. */
  ghost predicate ListsBelow(models: seq<Lru>, n: nat, r: seq<(PageId, Page)>)
    requires |models| == NUM_SHARDS
  {
    && (forall i, j | 0 <= i < j < |r| :: r[i].0 != r[j].0)
    && (forall i | 0 <= i < |r| :: r[i].0 % NUM_SHARDS < n && PeekIn(models, r[i].0) == Some(Item(r[i].1, true)))
    && (forall id: PageId | id % NUM_SHARDS < n && DirtyAt(models, id) :: (id, PeekIn(models, id).value.page) in r)
  }

  ghost predicate DirtyAt(models: seq<Lru>, id: PageId)
    requires |models| == NUM_SHARDS
  {
    PeekIn(models, id).Some? && PeekIn(models, id).value.dirty
  }

  lemma ListsNone(models: seq<Lru>)
    requires |models| == NUM_SHARDS
    ensures ListsBelow(models, 0, [])
  {
  }

  lemma ListsMore(models: seq<Lru>, n: nat, r: seq<(PageId, Page)>, more: seq<(PageId, Page)>)
    requires |models| == NUM_SHARDS && n < NUM_SHARDS && Sharded(models[n], n)
    requires ListsBelow(models, n, r) && ListsDirty(models[n], more)
    ensures ListsBelow(models, n + 1, r + more)
  {
    forall i | 0 <= i < |more| ensures more[i].0 % NUM_SHARDS == n && PeekIn(models, more[i].0) == Some(Item(more[i].1, true)) {
      assert Leaving(models[n], more[i].0) == Some(more[i].1);
    }
    forall id: PageId | id % NUM_SHARDS == n && DirtyAt(models, id) ensures (id, PeekIn(models, id).value.page) in more {
      assert Leaving(models[n], id).Some?;
    }
  }

  lemma ListsAll(models: seq<Lru>, r: seq<(PageId, Page)>)
    requires |models| == NUM_SHARDS && ListsBelow(models, NUM_SHARDS, r)
    ensures forall i, j | 0 <= i < j < |r| :: r[i].0 != r[j].0
    ensures forall i | 0 <= i < |r| :: Look(ViewOf(models), r[i].0) == Some(Item(r[i].1, true))
    ensures forall id: PageId | DirtyIn(ViewOf(models), id) :: (id, Look(ViewOf(models), id).value.page) in r
  {
    forall id: PageId | DirtyIn(ViewOf(models), id) ensures (id, Look(ViewOf(models), id).value.page) in r {
      ShardIndex(id);
      assert DirtyAt(models, id);
    }
  }

  lemma EmptySharded(n: nat)
    ensures Sharded(Empty, n)
  {
  }

  lemma AllEmpty(models: seq<Lru>)
    requires |models| == NUM_SHARDS && forall i | 0 <= i < NUM_SHARDS :: models[i] == Empty
    ensures ViewOf(models) == EmptyView
  {
    forall id: PageId ensures PeekIn(models, id) == None {
      ShardIndex(id);
    }
  }

  /** A put into the shard of its id, seen in the whole cache. */
  lemma PutInto(models: seq<Lru>, l': Lru, capacity: nat, page: Page, dirty: bool)
    requires |models| == NUM_SHARDS
    requires var l := models[page.header.pageId % NUM_SHARDS];
             l.Valid() && l' == Insert(l, capacity, page, dirty) && Sharded(l, page.header.pageId % NUM_SHARDS)
    ensures var id, view := page.header.pageId, ViewOf(models);
            var victim := Victim(models[id % NUM_SHARDS], capacity, id);
            && (victim.Some? ==> Look(view, id).None? && victim.value != id && Look(view, victim.value).Some?)
            && Sharded(l', id % NUM_SHARDS)
            && ViewOf(models[id % NUM_SHARDS := l'])
               == (if victim.Some? then view[victim.value := None] else view)[id := Some(Item(page, dirty || DirtyIn(view, id)))]
            && PushedOut(models[id % NUM_SHARDS], capacity, id)
               == (if victim.Some? && DirtyIn(view, victim.value) then Some(Look(view, victim.value).value.page) else None)
  {
    hide Insert, Victim, PushedOut;
    InsertItems(models[page.header.pageId % NUM_SHARDS], capacity, page, dirty);
  }

  class PageCache {
    const shards: seq<CacheShard>
    const capacity: nat
    const writeBack: bool

    ghost predicate ShardOk(i: nat)
      requires i < |shards|
      reads shards[i]
    {
      && shards[i].Valid()
      && shards[i].capacity == DivCeil(capacity, NUM_SHARDS)
      && Sharded(shards[i].Model(), i)
    }

    ghost predicate Valid()
      reads shards
    {
      && |shards| == NUM_SHARDS
      && (forall i, j | 0 <= i < j < |shards| :: shards[i] != shards[j])
      && forall i | 0 <= i < |shards| :: ShardOk(i)
    }

    ghost function Models(): (models: seq<Lru>)
      reads shards
      ensures |models| == |shards| && forall i | 0 <= i < |shards| :: models[i] == shards[i].Model()
    {
      seq(|shards|, i requires 0 <= i < |shards| reads shards => shards[i].Model())
    }

    /** What the cache holds, id by id. */
    ghost function Contents(): View
      requires |shards| == NUM_SHARDS
      reads shards
    {
      ViewOf(Models())
    }

    constructor (capacity: nat, writeBack: bool)
      ensures Valid() && fresh(shards) && |shards| == NUM_SHARDS == 32
      ensures this.capacity == capacity && this.writeBack == writeBack
      ensures Contents() == EmptyView
    {
      var shardCapacity := DivCeil(capacity, NUM_SHARDS);
      var made: seq<CacheShard> := [];
      while |made| < NUM_SHARDS
        invariant |made| <= NUM_SHARDS
        invariant forall i | 0 <= i < |made| ::
                    fresh(made[i]) && made[i].Valid() && made[i].Model() == Empty && made[i].capacity == shardCapacity
        invariant forall i, j | 0 <= i < j < |made| :: made[i] != made[j]
        decreases NUM_SHARDS - |made|
      {
        var shard := new CacheShard(shardCapacity);
        made := made + [shard];
      }
      this.capacity := capacity;
      this.writeBack := writeBack;
      shards := made;
      new;
      AllEmpty(Models());
      hide ViewOf;
    }

    method Get(id: PageId) returns (r: Option<Page>)
      requires Valid()
      modifies shards
      ensures Valid()
      ensures Contents() == old(Contents())
      ensures r == if Look(Contents(), id).Some? then Some(Look(Contents(), id).value.page) else None
    {
      hide CacheShard.Valid, StatsAfter, ViewOf, CacheShard.Model, Sharded, Look;
      ghost var before := Models();
      LookIn(before, id);
      var k := id % NUM_SHARDS;
      assert ShardOk(k);
      r := shards[k].Get(id);
      SameItems(before, k, shards[k].Model());
      assert Models() == before[k := shards[k].Model()];
      assert ShardOk(k);
      assert forall i | 0 <= i < NUM_SHARDS && i != k :: old(ShardOk(i)) && ShardOk(i);
    }

    /** Only the new page and at most one other id of its shard are touched; a dirty page that is
        pushed out is handed back. A page is pushed out if and only if the id is new and its shard is full. */
    method Put(page: Page, dirty: bool) returns (r: Option<Page>, ghost victim: Option<PageId>)
      requires Valid()
      modifies shards
      ensures Valid()
      ensures var id, view := page.header.pageId, old(Contents());
              && (victim.Some? ==> Look(view, id).None? && victim.value != id && Look(view, victim.value).Some?)
              && Contents() == (if victim.Some? then view[victim.value := None]
                  else view)[id := Some(Item(page, dirty || DirtyIn(view, id)))]
              && r == (if victim.Some? && DirtyIn(view, victim.value) then Some(Look(view, victim.value).value.page) else None)
      ensures var id, size := page.header.pageId, old(|shards[page.header.pageId % 32].entries|);
              && (victim.Some? <==> Look(old(Contents()), id).None? && size > 0 && size >= DivCeil(capacity, 32))
              && (victim.Some? ==> victim.value % 32 == id % 32)
    {
      hide CacheShard.Valid, Insert, Victim, PushedOut, StatsAfter, ViewOf, CacheShard.Model;
      var id := page.header.pageId;
      ShardIndex(id);
      var k := id % NUM_SHARDS;
      assert ShardOk(k);
      ModelIsValid(shards[k]);
      ghost var before := Models();
      victim := Victim(before[k], shards[k].capacity, id);
      PutRoom(shards[k], id, k);
      LookIn(before, id);
      r := shards[k].Put(page, dirty);
      PutInto(before, shards[k].Model(), shards[k].capacity, page, dirty);
      assert Models() == before[k := shards[k].Model()];
      assert ShardOk(k);
      assert forall i | 0 <= i < NUM_SHARDS && i != k :: old(ShardOk(i)) && ShardOk(i);
    }

    method MarkDirty(id: PageId) returns (found: bool)
      requires Valid()
      modifies shards
      ensures Valid()
      ensures found <==> Look(old(Contents()), id).Some?
      ensures Contents() == if found then old(Contents())[id := Some(Look(old(Contents()), id).value.(dirty := true))]
          else old(Contents())
    {
      hide CacheShard.Valid, StatsAfter, ViewOf, CacheShard.Model, Sharded, SetDirty, Look;
      ghost var before := Models();
      LookIn(before, id);
      var k := id % NUM_SHARDS;
      assert ShardOk(k);
      MarkInto(before, id, true);
      found := shards[k].MarkDirty(id);
      assert Models() == before[k := shards[k].Model()];
      assert ShardOk(k);
      assert forall i | 0 <= i < NUM_SHARDS && i != k :: old(ShardOk(i)) && ShardOk(i);
    }

    method MarkClean(id: PageId) returns (found: bool)
      requires Valid()
      modifies shards
      ensures Valid()
      ensures found <==> Look(old(Contents()), id).Some?
      ensures Contents() == if found then old(Contents())[id := Some(Look(old(Contents()), id).value.(dirty := false))]
          else old(Contents())
    {
      hide CacheShard.Valid, StatsAfter, ViewOf, CacheShard.Model, Sharded, SetDirty, Look;
      ghost var before := Models();
      LookIn(before, id);
      var k := id % NUM_SHARDS;
      assert ShardOk(k);
      MarkInto(before, id, false);
      found := shards[k].MarkClean(id);
      assert Models() == before[k := shards[k].Model()];
      assert ShardOk(k);
      assert forall i | 0 <= i < NUM_SHARDS && i != k :: old(ShardOk(i)) && ShardOk(i);
    }

    /** Returns the page if it was resident and dirty. */
    method Remove(id: PageId) returns (r: Option<Page>)
      requires Valid()
      modifies shards
      ensures Valid()
      ensures r == if DirtyIn(old(Contents()), id) then Some(Look(old(Contents()), id).value.page) else None
      ensures Contents() == old(Contents())[id := None]
    {
      hide CacheShard.Valid, StatsAfter, ViewOf, CacheShard.Model, Sharded, Look, DirtyIn;
      ghost var before := Models();
      LookIn(before, id);
      var k := id % NUM_SHARDS;
      assert ShardOk(k);
      r := shards[k].RemoveEntry(id);
      EntryInto(before, id, shards[k].Model(), None);
      assert Models() == before[k := shards[k].Model()];
      assert ShardOk(k);
      assert forall i | 0 <= i < NUM_SHARDS && i != k :: old(ShardOk(i)) && ShardOk(i);
    }

    /** All dirty pages, each once, shard by shard. */
    method GetDirtyPages() returns (r: seq<(PageId, Page)>)
      requires Valid()
      ensures forall i, j | 0 <= i < j < |r| :: r[i].0 != r[j].0
      ensures forall i | 0 <= i < |r| :: Look(Contents(), r[i].0) == Some(Item(r[i].1, true))
      ensures forall id: PageId | DirtyIn(Contents(), id) :: (id, Look(Contents(), id).value.page) in r
    {
      hide CacheShard.Valid, CacheShard.Model, ListsDirty, ListsBelow, ViewOf, Sharded, Look, DirtyIn;
      r := [];
      ListsNone(Models());
      var n := 0;
      while n < |shards|
        invariant 0 <= n <= |shards|
        invariant ListsBelow(Models(), n, r)
      {
        assert ShardOk(n);
        var more := shards[n].DirtyPages();
        ListsMore(Models(), n, r, more);
        r := r + more;
        n := n + 1;
      }
      ListsAll(Models(), r);
    }

    /** Nothing stays resident, and every page that was dirty is handed back. */
    method Clear() returns (r: seq<(PageId, Page)>)
      requires Valid()
      modifies shards
      ensures Valid()
      ensures Contents() == EmptyView
      ensures forall i, j | 0 <= i < j < |r| :: r[i].0 != r[j].0
      ensures forall i | 0 <= i < |r| :: Look(old(Contents()), r[i].0) == Some(Item(r[i].1, true))
      ensures forall id: PageId | DirtyIn(old(Contents()), id) :: (id, Look(old(Contents()), id).value.page) in r
    {
      hide CacheShard.Valid, CacheShard.Model, ListsDirty, ListsBelow, ViewOf, Sharded, Look, DirtyIn, StatsAfter;
      ghost var before := Models();
      r := [];
      ListsNone(before);
      var n := 0;
      while n < |shards|
        invariant 0 <= n <= |shards| && Valid()
        invariant forall i | n <= i < |shards| :: shards[i].Model() == before[i]
        invariant forall i | 0 <= i < n :: shards[i].Model() == Empty
        invariant ListsBelow(before, n, r)
      {
        assert ShardOk(n);
        var more := shards[n].Clear();
        ListsMore(before, n, r, more);
        r := r + more;
        EmptySharded(n);
        assert ShardOk(n);
        n := n + 1;
      }
      AllEmpty(Models());
      ListsAll(before, r);
    }

    /** The size over all shards, which never exceeds the rounded-up capacity; with capacity 0
        every shard still holds its last page. */
    method Size() returns (size: nat)
      requires Valid()
      ensures size == TotalSize(NUM_SHARDS)
      ensures size <= NUM_SHARDS * Max(1, DivCeil(capacity, NUM_SHARDS))
    {
      hide CacheShard.Valid, DivCeil, Max;
      ghost var bound := Max(1, DivCeil(capacity, NUM_SHARDS));
      size := 0;
      var n := 0;
      while n < |shards|
        invariant 0 <= n <= |shards|
        invariant size == TotalSize(n) <= n * bound
      {
        assert ShardOk(n);
        ShardSize(shards[n]);
        assert (n + 1) * bound == n * bound + bound;
        size := size + |shards[n].entries|;
        n := n + 1;
      }
    }

    /** The counters of the first `n` shards, which are their true sizes. */
    ghost function TotalSize(n: nat): nat
      requires n <= |shards|
      reads shards
    {
      if n == 0 then 0 else TotalSize(n - 1) + shards[n - 1].stats.currentSize
    }
  }

  lemma ShardSize(shard: CacheShard)
    requires shard.Valid()
    ensures |shard.entries| == shard.stats.currentSize <= Max(1, shard.capacity)
  {
    LinkedSize(shard.entries, shard.order);
  }

  lemma PutRoom(shard: CacheShard, id: PageId, k: nat)
    requires shard.Valid() && Sharded(shard.Model(), k)
    ensures var v := Victim(shard.Model(), shard.capacity, id);
            && (v.Some? <==> id !in shard.Model().items && |shard.entries| > 0 && |shard.entries| >= shard.capacity)
            && (v.Some? ==> v.value % NUM_SHARDS == k)
  {
    LinkedFacts(shard.entries, shard.order);
    var v := Victim(shard.Model(), shard.capacity, id);
    if v.Some? {
      assert v.value in shard.order;
    }
  }

  lemma ModelIsValid(shard: CacheShard)
    requires shard.Valid()
    ensures shard.Model().Valid()
  {
  }

  /** What an insertion does to the contents. */
  lemma InsertItems(l: Lru, capacity: nat, page: Page, dirty: bool)
    requires l.Valid()
    ensures var id, l' := page.header.pageId, Insert(l, capacity, page, dirty);
            var v := Victim(l, capacity, id);
            && (v.Some? ==> v.value in l.items && v.value != id && id !in l.items)
            && l'.items == (if v.Some? then l.items - {v.value} else l.items)
                           [id := Item(page, dirty || (id in l.items && l.items[id].dirty))]
            && PushedOut(l, capacity, id) == (if v.Some? && l.items[v.value].dirty then Some(l.items[v.value].page) else None)
  {
    hide Without;
    var v := Victim(l, capacity, page.header.pageId);
    if v.Some? {
      assert v.value in l.order;
    }
  }
}
