/** How live virtual pages and free physical pages share the file, on values. */
module Allocator {
  import opened Wrappers
  import opened Collections
  import opened Bytes
  import opened Pages
  import opened PageMappers

  /** Physical page `p` holds the contents of some live id. */
  predicate Backs(live: set<PageId>, m: Mapping, p: PageId) {
    exists v | v in live :: m.Translate(v) == p
  }

  predicate LiveOk(m: Mapping, free: seq<PageId>, nextPage: nat, v: PageId) {
    && 2 <= v < m.nextVirtualId
    && 2 <= m.Translate(v) < nextPage
    && m.Translate(v) !in free
  }

  /** Every live id has a page of its own, and only live ids are mapped away from themselves. */
  ghost predicate LivePart(live: set<PageId>, m: Mapping, free: seq<PageId>, nextPage: nat) {
    && (forall v | v in live :: LiveOk(m, free, nextPage, v))
    && (forall u, v | u in live && v in live && m.Translate(u) == m.Translate(v) :: u == v)
    && m.entries.Keys <= live
    && (forall v | v in m.entries :: m.entries[v] != v)
  }

  ghost predicate FreePart(free: seq<PageId>, nextPage: nat) {
    && Distinct(free)
    && (forall p | p in free :: 2 <= p < nextPage)
  }

  ghost predicate Covered(live: set<PageId>, m: Mapping, free: seq<PageId>, nextPage: nat) {
    forall p: PageId | 2 <= p < nextPage :: p in free || Backs(live, m, p)
  }

  /** The physical pages from 2 up to `nextPage` are split exactly into the images of the live ids,
      no two alike, and the free queue, without repetition. */
  ghost predicate Partition(live: set<PageId>, m: Mapping, free: seq<PageId>, nextPage: nat) {
    && LivePart(live, m, free, nextPage)
    && FreePart(free, nextPage)
    && Covered(live, m, free, nextPage)
    && nextPage == 2 + |live| + |free| <= m.nextVirtualId
  }

  /** The mapping after `allocate_page` has issued the next id for `p`. */
  function Issued(m: Mapping, p: PageId): Mapping {
    var v := m.nextVirtualId;
    Mapping(if v == p then m.entries - {v} else m.entries[v := p], v + 1)
  }

  lemma IssuedTranslates(live: set<PageId>, m: Mapping, free: seq<PageId>, nextPage: nat, p: PageId)
    requires LivePart(live, m, free, nextPage)
    ensures var v := m.nextVirtualId;
            && v !in live && v !in m.entries
            && Issued(m, p).Translate(v) == p
            && forall u | u in live :: Issued(m, p).Translate(u) == m.Translate(u)
  {
    var v := m.nextVirtualId;
    assert v in live ==> LiveOk(m, free, nextPage, v);
  }

  /** A new id on a page that was in no live id's use. */
  lemma IssueKeepsLivePart(live: set<PageId>, m: Mapping, free: seq<PageId>, nextPage: nat, p: PageId, free': seq<PageId>,
                           nextPage': nat)
    requires LivePart(live, m, free, nextPage) && 2 <= m.nextVirtualId
    requires nextPage <= nextPage' && 2 <= p < nextPage' && p !in free' && forall q | q in free' :: q in free
    requires forall u | u in live :: m.Translate(u) != p
    ensures LivePart(live + {m.nextVirtualId}, Issued(m, p), free', nextPage')
  {
    IssuedTranslates(live, m, free, nextPage, p);
    var v, live', m' := m.nextVirtualId, live + {m.nextVirtualId}, Issued(m, p);
    forall u | u in live' ensures LiveOk(m', free', nextPage', u) {
      if u != v {
        assert LiveOk(m, free, nextPage, u);
      }
    }
  }

  lemma IssueKeepsCovered(live: set<PageId>, m: Mapping, free: seq<PageId>, nextPage: nat, p: PageId, free': seq<PageId>,
                          nextPage': nat)
    requires LivePart(live, m, free, nextPage) && Covered(live, m, free, nextPage)
    requires forall q: PageId | 2 <= q < nextPage' && q != p && q !in free' :: q < nextPage && q !in free
    ensures Covered(live + {m.nextVirtualId}, Issued(m, p), free', nextPage')
  {
    IssuedTranslates(live, m, free, nextPage, p);
    var v, live', m' := m.nextVirtualId, live + {m.nextVirtualId}, Issued(m, p);
    hide LivePart;
    forall q: PageId | 2 <= q < nextPage' && q !in free' ensures Backs(live', m', q) {
      if q == p {
        assert v in live' && m'.Translate(v) == q;
      } else {
        var u :| u in live && m.Translate(u) == q;
        assert u in live' && m'.Translate(u) == q;
      }
    }
  }

  lemma FreePop(p: PageId, rest: seq<PageId>, nextPage: nat)
    requires FreePart([p] + rest, nextPage)
    ensures FreePart(rest, nextPage) && p !in rest && 2 <= p < nextPage
    ensures forall q :: q in [p] + rest <==> q == p || q in rest
  {
    var free := [p] + rest;
    assert free[0] == p && p in free;
    assert forall i | 0 <= i < |rest| :: rest[i] == free[i + 1];
    assert forall q | q in rest :: q in free;
  }

  /** Neither a free page nor one beyond the end belongs to a live id. */
  lemma NotBacking(live: set<PageId>, m: Mapping, free: seq<PageId>, nextPage: nat, p: PageId)
    requires LivePart(live, m, free, nextPage) && (p in free || p >= nextPage)
    ensures forall u | u in live :: m.Translate(u) != p
  {
    forall u | u in live ensures m.Translate(u) != p {
      assert LiveOk(m, free, nextPage, u);
    }
  }

  /** Where a live id's page lies, and who else does not lie there. */
  lemma SlotFacts(live: set<PageId>, m: Mapping, free: seq<PageId>, nextPage: nat, v: PageId)
    requires Partition(live, m, free, nextPage) && v in live
    ensures 2 <= v < m.nextVirtualId && 2 <= m.Translate(v) < nextPage && m.Translate(v) !in free
    ensures forall u | u in live && u != v :: m.Translate(u) != m.Translate(v)
  {
    assert LiveOk(m, free, nextPage, v);
  }

  /** Pages in use or free lie behind the two reserved ones. */
  lemma FreedSlots(live: set<PageId>, m: Mapping, free: seq<PageId>, nextPage: nat)
    requires Partition(live, m, free, nextPage)
    ensures forall q | q in free :: 2 <= q < nextPage
    ensures forall u | u in live :: 2 <= u < m.nextVirtualId && 2 <= m.Translate(u) < nextPage
  {
    forall u | u in live ensures 2 <= u < m.nextVirtualId && 2 <= m.Translate(u) < nextPage {
      assert LiveOk(m, free, nextPage, u);
    }
  }

  lemma CountFacts(live: set<PageId>, m: Mapping, free: seq<PageId>, nextPage: nat)
    requires Partition(live, m, free, nextPage)
    ensures nextPage == 2 + |live| + |free| <= m.nextVirtualId
  {
  }

  /** The page a new id will get belongs to nobody, and the id is new. */
  lemma NewSlotFacts(live: set<PageId>, m: Mapping, free: seq<PageId>, nextPage: nat, p: PageId)
    requires Partition(live, m, free, nextPage) && p == if free != [] then free[0] else nextPage
    ensures p >= 2 && m.nextVirtualId !in live && m.nextVirtualId >= 2
    ensures forall u | u in live :: m.Translate(u) != p && Issued(m, p).Translate(u) == m.Translate(u) >= 2
    ensures Issued(m, p).Translate(m.nextVirtualId) == p
    ensures free != [] ==> p !in free[1..]
    ensures forall q | q in free :: q >= 2
  {
    IssuedTranslates(live, m, free, nextPage, p);
    NotBacking(live, m, free, nextPage, p);
    forall u | u in live ensures m.Translate(u) >= 2 {
      assert LiveOk(m, free, nextPage, u);
    }
    if free != [] {
      assert free == [p] + free[1..];
      FreePop(p, free[1..], nextPage);
    }
  }

  /** A page from the front of the queue backs the new id. */
  lemma ReuseKeepsPartition(live: set<PageId>, m: Mapping, p: PageId, rest: seq<PageId>, nextPage: nat)
    requires Partition(live, m, [p] + rest, nextPage)
    ensures Partition(live + {m.nextVirtualId}, Issued(m, p), rest, nextPage)
  {
    hide LivePart, Covered, FreePart, LiveOk;
    var free := [p] + rest;
    FreePop(p, rest, nextPage);
    NotBacking(live, m, free, nextPage, p);
    IssuedTranslates(live, m, free, nextPage, p);
    IssueKeepsLivePart(live, m, free, nextPage, p, rest, nextPage);
    IssueKeepsCovered(live, m, free, nextPage, p, rest, nextPage);
  }

  /** A page beyond the end of the file backs the new id. */
  lemma GrowKeepsPartition(live: set<PageId>, m: Mapping, nextPage: nat)
    requires Partition(live, m, [], nextPage)
    ensures Partition(live + {m.nextVirtualId}, Issued(m, nextPage), [], nextPage + 1)
  {
    hide LivePart, Covered, LiveOk;
    NotBacking(live, m, [], nextPage, nextPage);
    IssuedTranslates(live, m, [], nextPage, nextPage);
    IssueKeepsLivePart(live, m, [], nextPage, nextPage, [], nextPage + 1);
    IssueKeepsCovered(live, m, [], nextPage, nextPage, [], nextPage + 1);
  }

  /** Unmapping a live id and queueing its page. */
  lemma FreeKeepsPartition(live: set<PageId>, m: Mapping, free: seq<PageId>, nextPage: nat, v: PageId)
    requires Partition(live, m, free, nextPage) && v in live
    ensures Partition(live - {v}, m.(entries := m.entries - {v}), free + [m.Translate(v)], nextPage)
    ensures forall u | u in live && u != v :: m.(entries := m.entries - {v}).Translate(u) == m.Translate(u) != m.Translate(v)
  {
    hide LivePart, Covered, FreePart;
    FreeKeepsLivePart(live, m, free, nextPage, v);
    FreeKeepsCovered(live, m, free, nextPage, v);
    FreePush(free, nextPage, m.Translate(v));
  }

  lemma FreePush(free: seq<PageId>, nextPage: nat, p: PageId)
    requires FreePart(free, nextPage) && p !in free && 2 <= p < nextPage
    ensures FreePart(free + [p], nextPage)
  {
    assert forall i | 0 <= i < |free| :: free[i] in free;
  }

  lemma FreeKeepsLivePart(live: set<PageId>, m: Mapping, free: seq<PageId>, nextPage: nat, v: PageId)
    requires LivePart(live, m, free, nextPage) && v in live
    ensures LivePart(live - {v}, m.(entries := m.entries - {v}), free + [m.Translate(v)], nextPage)
    ensures LiveOk(m, free, nextPage, v)
    ensures forall u | u in live && u != v :: m.(entries := m.entries - {v}).Translate(u) == m.Translate(u) != m.Translate(v)
  {
    var live', m', free' := live - {v}, m.(entries := m.entries - {v}), free + [m.Translate(v)];
    forall u | u in live' ensures LiveOk(m', free', nextPage, u) {
      assert LiveOk(m, free, nextPage, u);
    }
  }

  lemma FreeKeepsCovered(live: set<PageId>, m: Mapping, free: seq<PageId>, nextPage: nat, v: PageId)
    requires Covered(live, m, free, nextPage) && v in live
    ensures Covered(live - {v}, m.(entries := m.entries - {v}), free + [m.Translate(v)], nextPage)
  {
    var p, live', m' := m.Translate(v), live - {v}, m.(entries := m.entries - {v});
    forall q: PageId | 2 <= q < nextPage && q !in free + [p] ensures Backs(live', m', q) {
      assert q !in free && q != p;
      var u :| u in live && m.Translate(u) == q;
      assert u in live' && m'.Translate(u) == q;
    }
  }

  /** The reverse lookup of a page in use names exactly the one live id it belongs to. */
  lemma ReverseLookupIsExact(live: set<PageId>, m: Mapping, free: seq<PageId>, nextPage: nat, v: PageId, r: seq<PageId>)
    requires Partition(live, m, free, nextPage) && v in live
    requires forall i, j | 0 <= i < j < |r| :: r[i] != r[j]
    requires var p := m.Translate(v);
             forall u: PageId :: u in r <==>
               || (u in m.entries && m.entries[u] == p)
               || (u == p && u !in m.entries && forall w | w in m.entries :: m.entries[w] != p)
    ensures r == [v]
  {
    var p := m.Translate(v);
    forall u | u in m.entries && m.entries[u] == p ensures u == v {
      assert u in live && m.Translate(u) == p;
    }
    if v in m.entries {
      assert m.entries[v] == p;
    } else {
      assert v == p;
      assert forall w | w in m.entries :: m.entries[w] == p ==> w == v;
    }
    assert forall u: PageId :: u in r <==> u == v;
    OnlyOne(r, v);
  }

  lemma OnlyOne(r: seq<PageId>, v: PageId)
    requires forall i, j | 0 <= i < j < |r| :: r[i] != r[j]
    requires forall u: PageId :: u in r <==> u == v
    ensures r == [v]
  {
    assert v in r;
    assert r[0] in r && r[|r| - 1] in r;
  }

  /** Rebuilding from the header pairs of all live pages gives a mapping that agrees on every live id. */
  lemma RebuiltAgrees(live: set<PageId>, m: Mapping, free: seq<PageId>, nextPage: nat, headers: seq<Entry>, rebuilt: Mapping)
    requires Partition(live, m, free, nextPage)
    requires forall v | v in live :: (m.Translate(v), v) in headers
    requires forall i | 0 <= i < |headers| && headers[i].1 != 0 :: rebuilt.Translate(headers[i].1) == headers[i].0
    requires forall i | 0 <= i < |headers| :: headers[i].1 < rebuilt.nextVirtualId
    ensures forall v | v in live :: rebuilt.Translate(v) == m.Translate(v) && v < rebuilt.nextVirtualId
  {
    forall v | v in live ensures rebuilt.Translate(v) == m.Translate(v) && v < rebuilt.nextVirtualId {
      assert LiveOk(m, free, nextPage, v);
      var i :| 0 <= i < |headers| && headers[i] == (m.Translate(v), v);
      assert headers[i].1 == v;
    }
  }
}
