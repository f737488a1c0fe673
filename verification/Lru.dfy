/** The reference model of one cache shard: contents, and ids from most to least recently used. */
module Lru {
  import opened Wrappers
  import opened Collections
  import opened Pages

  datatype Item = Item(page: Page, dirty: bool)

  datatype Lru = Lru(order: seq<PageId>, items: map<PageId, Item>)
  {
    predicate Valid() {
      && Distinct(order)
      && items.Keys == Ids(order)
    }
  }

  const Empty := Lru([], map[])

  function Ids(order: seq<PageId>): set<PageId> {
    set x | x in order
  }

  function Without(s: seq<PageId>, x: PageId): seq<PageId> {
    if s == [] then []
    else if s[0] == x then s[1..]
    else [s[0]] + Without(s[1..], x)
  }

  lemma {:induction false} WithoutAt(s: seq<PageId>, i: nat)
    requires Distinct(s) && i < |s|
    ensures Without(s, s[i]) == s[..i] + s[i + 1..]
  {
    if i > 0 {
      WithoutAt(s[1..], i - 1);
      assert s[..i] == [s[0]] + s[1..][..i - 1];
      assert s[1..][i..] == s[i + 1..];
    }
  }

  lemma WithoutFacts(s: seq<PageId>, x: PageId)
    requires Distinct(s)
    ensures Distinct(Without(s, x))
    ensures forall y :: y in Without(s, x) <==> y in s && y != x
    ensures x !in s ==> Without(s, x) == s
  {
    if x in s {
      var i :| 0 <= i < |s| && s[i] == x;
      WithoutAt(s, i);
      var w := s[..i] + s[i + 1..];
      forall y | y in s && y != x ensures y in w {
        var j :| 0 <= j < |s| && s[j] == y;
        assert w[if j < i then j else j - 1] == y;
      }
    } else {
      WithoutAbsent(s, x);
    }
  }

  lemma {:induction false} WithoutAbsent(s: seq<PageId>, x: PageId)
    requires x !in s
    ensures Without(s, x) == s
  {
    if s != [] {
      WithoutAbsent(s[1..], x);
    }
  }

  /** A hit makes the entry the most recent one. */
  function Access(l: Lru, id: PageId): Lru {
    if id in l.items then l.(order := [id] + Without(l.order, id)) else l
  }

  function Delete(l: Lru, id: PageId): Lru {
    Lru(Without(l.order, id), l.items - {id})
  }

  /** The entry an insertion of a new id pushes out. */
  function Victim(l: Lru, capacity: nat, id: PageId): Option<PageId> {
    if id !in l.items && |l.order| >= capacity && l.order != [] then Some(l.order[|l.order| - 1]) else None
  }

  function Insert(l: Lru, capacity: nat, page: Page, dirty: bool): Lru {
    var id := page.header.pageId;
    if id in l.items then
      Access(l.(items := l.items[id := Item(page, l.items[id].dirty || dirty)]), id)
    else
      var v := Victim(l, capacity, id);
      var room := if v.Some? then Delete(l, v.value) else l;
      Lru([id] + room.order, room.items[id := Item(page, dirty)])
  }

  function SetDirty(l: Lru, id: PageId, dirty: bool): Lru {
    if id in l.items then l.(items := l.items[id := l.items[id].(dirty := dirty)]) else l
  }

  /** The page handed back when `id` leaves: only a dirty one. */
  function Leaving(l: Lru, id: PageId): Option<Page> {
    if id in l.items && l.items[id].dirty then Some(l.items[id].page) else None
  }

  ghost function DirtyIds(l: Lru): set<PageId> {
    set id | id in l.items && l.items[id].dirty
  }

  // ---------------------------------------------------------------------------
  // What the order means: recency over whole runs
  // ---------------------------------------------------------------------------

  datatype Op = Get(id: PageId) | Put(page: Page, dirty: bool) | Mark(id: PageId, dirty: bool) | Remove(id: PageId) | Clear

  function Apply(l: Lru, capacity: nat, op: Op): Lru {
    match op
    case Get(id) => Access(l, id)
    case Put(page, dirty) => Insert(l, capacity, page, dirty)
    case Mark(id, dirty) => SetDirty(l, id, dirty)
    case Remove(id) => Delete(l, id)
    case Clear => Empty
  }

  function Run(capacity: nat, ops: seq<Op>): Lru {
    if ops == [] then Empty else Apply(Run(capacity, ops[..|ops| - 1]), capacity, ops[|ops| - 1])
  }

  predicate Uses(op: Op, id: PageId) {
    (op.Get? && op.id == id) || (op.Put? && op.page.header.pageId == id)
  }

  /** The number of the last operation that read or wrote `id`, 0 if none did. */
  function LastUse(ops: seq<Op>, id: PageId): (n: nat)
    ensures n <= |ops|
    ensures n > 0 ==> Uses(ops[n - 1], id)
  {
    if ops == [] then 0
    else if Uses(ops[|ops| - 1], id) then |ops|
    else LastUse(ops[..|ops| - 1], id)
  }

  lemma DeleteKeepsValid(l: Lru, id: PageId)
    requires l.Valid()
    ensures Delete(l, id).Valid()
    ensures id !in l.items ==> Delete(l, id) == l
    ensures id !in Delete(l, id).order
  {
    WithoutFacts(l.order, id);
    hide Without, Distinct;
    if id !in l.items {
      assert id !in l.order && l.items - {id} == l.items;
    }
  }

  lemma PushKeepsValid(l: Lru, id: PageId, item: Item)
    requires l.Valid() && id !in l.items
    ensures Lru([id] + l.order, l.items[id := item]).Valid()
  {
    assert id !in l.order;
  }

  /** A hit is a deletion followed by an insertion at the front. */
  lemma AccessIsPush(l: Lru, id: PageId)
    requires id in l.items
    ensures Access(l, id) == Lru([id] + Delete(l, id).order, Delete(l, id).items[id := l.items[id]])
  {
  }

  lemma ApplyKeepsValid(l: Lru, capacity: nat, op: Op)
    requires l.Valid()
    ensures Apply(l, capacity, op).Valid()
  {
    match op
    case Get(id) =>
      if id in l.items {
        AccessIsPush(l, id);
        DeleteKeepsValid(l, id);
        PushKeepsValid(Delete(l, id), id, l.items[id]);
      }
    case Put(page, dirty) => InsertKeepsValid(l, capacity, page, dirty);
    case Mark(id, dirty) =>
    case Remove(id) => DeleteKeepsValid(l, id);
    case Clear =>
  }

  lemma InsertKeepsValid(l: Lru, capacity: nat, page: Page, dirty: bool)
    requires l.Valid()
    ensures Insert(l, capacity, page, dirty).Valid()
  {
    var id := page.header.pageId;
    if id in l.items {
      var l' := l.(items := l.items[id := Item(page, l.items[id].dirty || dirty)]);
      assert l'.items.Keys == l.items.Keys;
      AccessIsPush(l', id);
      DeleteKeepsValid(l', id);
      hide Without, Distinct;
      PushKeepsValid(Delete(l', id), id, l'.items[id]);
    } else {
      var v := Victim(l, capacity, id);
      if v.Some? {
        DeleteKeepsValid(l, v.value);
      }
      hide Without, Distinct;
      PushKeepsValid(if v.Some? then Delete(l, v.value) else l, id, Item(page, dirty));
    }
  }

  /** Ids from latest to earliest use. */
  predicate Recent(order: seq<PageId>, ops: seq<Op>) {
    forall i, j | 0 <= i < j < |order| :: LastUse(ops, order[i]) > LastUse(ops, order[j])
  }

  lemma {:induction false} RecentWithout(order: seq<PageId>, x: PageId, ops: seq<Op>)
    requires Recent(order, ops)
    ensures Recent(Without(order, x), ops)
    ensures forall y | y in Without(order, x) :: y in order
  {
    if order != [] {
      var rest := order[1..];
      RecentWithout(rest, x, ops);
      hide LastUse;
      if order[0] != x {
        forall y | y in Without(rest, x) ensures LastUse(ops, order[0]) > LastUse(ops, y) {
          var i :| 0 <= i < |rest| && rest[i] == y;
          assert order[i + 1] == y;
        }
        RecentCons(order[0], Without(rest, x), ops);
      }
    }
  }

  lemma RecentCons(x: PageId, order: seq<PageId>, ops: seq<Op>)
    requires Recent(order, ops) && forall y | y in order :: LastUse(ops, x) > LastUse(ops, y)
    ensures Recent([x] + order, ops)
  {
    hide LastUse;
    assert forall j | 0 <= j < |order| :: order[j] in order;
  }

  lemma RecentLater(order: seq<PageId>, ops: seq<Op>)
    requires ops != [] && Recent(order, ops[..|ops| - 1])
    requires forall y | y in order :: !Uses(ops[|ops| - 1], y)
    ensures Recent(order, ops)
  {
    assert forall i | 0 <= i < |order| :: order[i] in order;
  }

  lemma RecentPush(order: seq<PageId>, id: PageId, ops: seq<Op>)
    requires ops != [] && Recent(order, ops[..|ops| - 1])
    requires Uses(ops[|ops| - 1], id) && id !in order
    ensures Recent([id] + order, ops)
  {
    RecentLater(order, ops);
    forall y | y in order ensures LastUse(ops, y) < |ops| {
      assert !Uses(ops[|ops| - 1], y);
    }
    RecentCons(id, order, ops);
  }

  /** In every run the order lists the resident ids from latest to earliest use. */
  lemma {:induction false} OrderIsRecency(capacity: nat, ops: seq<Op>)
    ensures Run(capacity, ops).Valid()
    ensures Recent(Run(capacity, ops).order, ops)
    decreases |ops|
  {
    if ops != [] {
      var before, op := ops[..|ops| - 1], ops[|ops| - 1];
      OrderIsRecency(capacity, before);
      var l := Run(capacity, before);
      ApplyKeepsValid(l, capacity, op);
      StepKeepsRecent(l, capacity, ops);
    }
  }

  lemma StepKeepsRecent(l: Lru, capacity: nat, ops: seq<Op>)
    requires ops != [] && l.Valid() && Recent(l.order, ops[..|ops| - 1])
    ensures Recent(Apply(l, capacity, ops[|ops| - 1]).order, ops)
  {
    var before, op := ops[..|ops| - 1], ops[|ops| - 1];
    match op
    case Get(id) =>
      if id in l.items {
        WithoutFacts(l.order, id);
        RecentWithout(l.order, id, before);
        RecentPush(Without(l.order, id), id, ops);
      } else {
        RecentLater(l.order, ops);
      }
    case Put(page, dirty) =>
      var id := page.header.pageId;
      var gone := if id in l.items || Victim(l, capacity, id).None? then id else Victim(l, capacity, id).value;
      WithoutFacts(l.order, id);
      WithoutFacts(l.order, gone);
      RecentWithout(l.order, gone, before);
      RecentPush(Without(l.order, gone), id, ops);
      assert Apply(l, capacity, op).order == [id] + Without(l.order, gone);
    case Mark(id, dirty) => RecentLater(l.order, ops);
    case Remove(id) =>
      RecentWithout(l.order, id, before);
      RecentLater(Without(l.order, id), ops);
    case Clear =>
  }

  /** In every run the entry that is pushed out is the one whose last use lies furthest back. */
  lemma {:induction false} VictimIsLeastRecentlyUsed(capacity: nat, ops: seq<Op>, id: PageId)
    ensures var l := Run(capacity, ops);
            var v := Victim(l, capacity, id);
            v.Some? ==> v.value in l.items && forall x | x in l.items && x != v.value :: LastUse(ops, v.value) < LastUse(ops, x)
  {
    OrderIsRecency(capacity, ops);
    var l := Run(capacity, ops);
    hide Run, LastUse, Distinct;
    var v := Victim(l, capacity, id);
    if v.Some? {
      assert v.value in l.order;
      forall x | x in l.items && x != v.value ensures LastUse(ops, v.value) < LastUse(ops, x) {
        assert x in l.order;
        var i :| 0 <= i < |l.order| && l.order[i] == x;
        assert l.order[|l.order| - 1] == v.value;
      }
    }
  }

  // ---------------------------------------------------------------------------
  // Accounting over whole runs
  // ---------------------------------------------------------------------------

  lemma {:induction false} WithoutLength(s: seq<PageId>, x: PageId)
    requires x in s
    ensures |Without(s, x)| == |s| - 1
  {
    if s[0] != x {
      WithoutLength(s[1..], x);
    }
  }

  lemma InsertBound(l: Lru, capacity: nat, page: Page, dirty: bool)
    requires l.Valid() && |l.order| <= Max(1, capacity)
    ensures |Insert(l, capacity, page, dirty).order| <= Max(1, capacity)
  {
    var id := page.header.pageId;
    var v := Victim(l, capacity, id);
    if id in l.items {
      assert id in l.order;
      WithoutLength(l.order, id);
    } else if v.Some? {
      WithoutLength(l.order, v.value);
    }
  }

  lemma DeleteBound(l: Lru, id: PageId)
    ensures |Delete(l, id).order| <= |l.order|
  {
    if id in l.order { WithoutLength(l.order, id); } else { WithoutAbsent(l.order, id); }
  }

  lemma SizeStep(l: Lru, capacity: nat, op: Op)
    requires l.Valid() && |l.order| <= Max(1, capacity)
    ensures |Apply(l, capacity, op).order| <= Max(1, capacity)
  {
    match op
    case Get(id) => if id in l.items { assert id in l.order; WithoutLength(l.order, id); }
    case Put(page, dirty) => InsertBound(l, capacity, page, dirty);
    case Mark(id, dirty) =>
    case Remove(id) => DeleteBound(l, id);
    case Clear =>
  }

  /** A shard never outgrows its capacity; with capacity 0 it still keeps the last page put. */
  lemma {:induction false} SizeBound(capacity: nat, ops: seq<Op>)
    ensures Run(capacity, ops).Valid()
    ensures |Run(capacity, ops).order| <= Max(1, capacity)
    decreases |ops|
  {
    if ops != [] {
      var before := ops[..|ops| - 1];
      SizeBound(capacity, before);
      ApplyKeepsValid(Run(capacity, before), capacity, ops[|ops| - 1]);
      SizeStep(Run(capacity, before), capacity, ops[|ops| - 1]);
    }
  }

  lemma {:induction false} DistinctSize(order: seq<PageId>)
    requires Distinct(order)
    ensures |Ids(order)| == |order|
  {
    if order != [] {
      var last := order[|order| - 1];
      var front := order[..|order| - 1];
      DistinctSize(front);
      assert order == front + [last] && last !in front;
      assert Ids(order) == Ids(front) + {last};
    }
  }

  /** In every run a put pushes an entry out if and only if its id is new and the shard is at its limit. */
  lemma EvictsExactlyWhenFull(capacity: nat, ops: seq<Op>, id: PageId)
    ensures var l := Run(capacity, ops);
            Victim(l, capacity, id).Some? <==> id !in l.items && |l.items| == Max(1, capacity)
  {
    SizeBound(capacity, ops);
    var l := Run(capacity, ops);
    DistinctSize(l.order);
    assert |l.items| == |l.items.Keys|;
    hide Run;
  }

  predicate Puts(op: Op, id: PageId) {
    op.Put? && op.page.header.pageId == id
  }

  /** Operation `n` is the last put of the id, and nothing has removed the id since. */
  predicate LastPut(ops: seq<Op>, n: nat, id: PageId) {
    && n < |ops| && Puts(ops[n], id)
    && forall k | n < k < |ops| :: !Puts(ops[k], id) && ops[k] != Remove(id) && !ops[k].Clear?
  }

  /** In every run a resident page is the one put last under its id, and the id was not removed since. */
  lemma {:induction false} ResidentIsLastPut(capacity: nat, ops: seq<Op>, id: PageId) returns (n: nat)
    requires id in Run(capacity, ops).items
    ensures LastPut(ops, n, id) && Run(capacity, ops).items[id].page == ops[n].page
    decreases |ops|
  {
    var m := |ops| - 1;
    var before, op := ops[..m], ops[m];
    if Puts(op, id) {
      n := m;
    } else {
      n := ResidentIsLastPut(capacity, before, id);
    }
  }

  /** The pages an operation hands back to its caller. */
  ghost predicate HandsBack(l: Lru, capacity: nat, op: Op, page: Page) {
    match op
    case Get(_) => false
    case Put(p, _) =>
      var v := Victim(l, capacity, p.header.pageId);
      v.Some? && Leaving(l, v.value) == Some(page)
    case Mark(_, _) => false
    case Remove(id) => Leaving(l, id) == Some(page)
    case Clear => exists id :: Leaving(l, id) == Some(page)
  }

  /** A dirty page stays dirty until it is handed back or marked clean; only a new put replaces its contents. */
  lemma DirtyIsNeverLost(l: Lru, capacity: nat, op: Op, id: PageId)
    requires l.Valid() && id in l.items && l.items[id].dirty
    ensures var l' := Apply(l, capacity, op);
            || (id in l'.items && l'.items[id].dirty
                && (l'.items[id] == l.items[id] || (op.Put? && l'.items[id].page == op.page)))
            || HandsBack(l, capacity, op, l.items[id].page)
            || op == Mark(id, false)
  {
    if op.Clear? {
      assert Leaving(l, id) == Some(l.items[id].page);
    }
  }

  function Minus1(n: nat): nat {
    if n == 0 then 0 else n - 1
  }

  /** The `dirty_pages` counter after an operation, saturating where the source does. */
  function Counter(l: Lru, capacity: nat, op: Op, c: nat): nat {
    match op
    case Get(_) => c
    case Put(page, dirty) =>
      var id := page.header.pageId;
      if id in l.items then c
      else
        var v := Victim(l, capacity, id);
        var c' := if v.Some? && Leaving(l, v.value).Some? then Minus1(c) else c;
        if dirty then c' + 1 else c'
    case Mark(id, dirty) =>
      if id !in l.items || l.items[id].dirty == dirty then c else if dirty then c + 1 else Minus1(c)
    case Remove(id) => if Leaving(l, id).Some? then Minus1(c) else c
    case Clear => 0
  }

  function RunCounter(capacity: nat, ops: seq<Op>): nat {
    if ops == [] then 0
    else
      var before := ops[..|ops| - 1];
      Counter(Run(capacity, before), capacity, ops[|ops| - 1], RunCounter(capacity, before))
  }

  /** A clean resident page is put again as dirty: the one case the counter misses. */
  predicate Uncounted(l: Lru, op: Op) {
    op.Put? && op.dirty && op.page.header.pageId in l.items && !l.items[op.page.header.pageId].dirty
  }

  predicate AlwaysCounted(capacity: nat, ops: seq<Op>) {
    ops == [] ||
    (AlwaysCounted(capacity, ops[..|ops| - 1]) && !Uncounted(Run(capacity, ops[..|ops| - 1]), ops[|ops| - 1]))
  }

  lemma DirtyAfterDelete(l: Lru, id: PageId)
    ensures |DirtyIds(Delete(l, id))| == |DirtyIds(l)| - (if Leaving(l, id).Some? then 1 else 0)
  {
    assert DirtyIds(Delete(l, id)) == DirtyIds(l) - {id};
  }

  lemma DirtyAfterSet(l: Lru, id: PageId, item: Item)
    ensures var l' := l.(items := l.items[id := item]);
            |DirtyIds(l')| == |DirtyIds(l)| - (if Leaving(l, id).Some? then 1 else 0) + (if item.dirty then 1 else 0)
  {
    var l' := l.(items := l.items[id := item]);
    var others := DirtyIds(l) - {id};
    if item.dirty {
      assert DirtyIds(l') == others + {id};
    } else {
      assert DirtyIds(l') == others;
    }
    assert Leaving(l, id).Some? <==> id in DirtyIds(l);
  }

  /** Only the contents matter, not the order. */
  lemma DirtySame(l: Lru, l': Lru)
    requires l.items == l'.items
    ensures DirtyIds(l) == DirtyIds(l')
  {
  }

  lemma CounterPut(l: Lru, capacity: nat, page: Page, dirty: bool, c: nat)
    requires c <= |DirtyIds(l)|
    ensures var op := Put(page, dirty);
            var n := |DirtyIds(Insert(l, capacity, page, dirty))|;
            && Counter(l, capacity, op, c) <= n
            && (c == |DirtyIds(l)| ==> (Counter(l, capacity, op, c) == n <==> !Uncounted(l, op)))
  {
    var id := page.header.pageId;
    var l' := Insert(l, capacity, page, dirty);
    if id in l.items {
      var item := Item(page, l.items[id].dirty || dirty);
      DirtyAfterSet(l, id, item);
      DirtySame(l', l.(items := l.items[id := item]));
    } else {
      var v := Victim(l, capacity, id);
      var room := if v.Some? then Delete(l, v.value) else l;
      if v.Some? { DirtyAfterDelete(l, v.value); }
      assert id !in room.items;
      DirtyAfterSet(room, id, Item(page, dirty));
      DirtySame(l', room.(items := room.items[id := Item(page, dirty)]));
    }
    hide DirtyIds;
  }

  /** From a state where the counter is right, an operation leaves it right if and only if it is not the put
      of a clean resident page as dirty. */
  lemma CounterStep(l: Lru, capacity: nat, op: Op, c: nat)
    requires c <= |DirtyIds(l)|
    ensures var n := |DirtyIds(Apply(l, capacity, op))|;
            && Counter(l, capacity, op, c) <= n
            && (c == |DirtyIds(l)| ==> (Counter(l, capacity, op, c) == n <==> !Uncounted(l, op)))
  {
    hide Without, DirtyIds;
    match op
    case Get(id) => DirtySame(l, Access(l, id));
    case Put(page, dirty) => CounterPut(l, capacity, page, dirty, c);
    case Mark(id, dirty) => if id in l.items { DirtyAfterSet(l, id, l.items[id].(dirty := dirty)); }
    case Remove(id) => DirtyAfterDelete(l, id);
    case Clear => EmptyIsClean();
  }

  lemma EmptyIsClean()
    ensures DirtyIds(Empty) == {}
  {
  }

  /** The counter is the number of dirty pages after every operation of the run. */
  ghost predicate AlwaysExact(capacity: nat, ops: seq<Op>) {
    && (ops != [] ==> AlwaysExact(capacity, ops[..|ops| - 1]))
    && RunCounter(capacity, ops) == |DirtyIds(Run(capacity, ops))|
  }

  /** In every run the counter never exceeds the number of dirty pages. */
  lemma {:induction false} CounterIsLowerBound(capacity: nat, ops: seq<Op>)
    ensures RunCounter(capacity, ops) <= |DirtyIds(Run(capacity, ops))|
    decreases |ops|
  {
    if ops != [] {
      var before, op := ops[..|ops| - 1], ops[|ops| - 1];
      CounterIsLowerBound(capacity, before);
      CounterStep(Run(capacity, before), capacity, op, RunCounter(capacity, before));
    } else {
      EmptyIsClean();
    }
  }

  /** The counter is right all through a run if and only if the run never puts a clean resident page again as
      dirty; the first such put is where it goes wrong. */
  lemma {:induction false} CounterIsExactIff(capacity: nat, ops: seq<Op>)
    ensures AlwaysExact(capacity, ops) <==> AlwaysCounted(capacity, ops)
    decreases |ops|
  {
    hide DirtyIds, Counter, Apply;
    if ops != [] {
      var before, op := ops[..|ops| - 1], ops[|ops| - 1];
      CounterIsExactIff(capacity, before);
      CounterIsLowerBound(capacity, before);
      CounterStep(Run(capacity, before), capacity, op, RunCounter(capacity, before));
    } else {
      EmptyIsClean();
    }
  }

  /** Reading a page in and writing it back is such a run: one page is dirty and none is counted. */
  lemma PutAgainIsMissed(capacity: nat, page: Page)
    ensures var ops := [Put(page, false), Put(page, true)];
            !AlwaysCounted(capacity, ops) && RunCounter(capacity, ops) == 0 && |DirtyIds(Run(capacity, ops))| == 1
  {
    var id := page.header.pageId;
    var ops := [Put(page, false), Put(page, true)];
    var one := [Put(page, false)];
    assert ops[..1] == one && one[..0] == [];
    var l := Insert(Empty, capacity, page, false);
    assert Run(capacity, one) == l && RunCounter(capacity, one) == 0;
    assert l.items == map[id := Item(page, false)];
    assert Run(capacity, ops) == Insert(l, capacity, page, true);
    assert DirtyIds(Run(capacity, ops)) == {id};
  }
}
