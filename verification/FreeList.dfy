/** The in-memory free list (src/pager/freelist.rs): a first-in first-out queue with a counter. */
module FreeLists {
  import opened Wrappers
  import opened Pages

  function Reversed(s: seq<PageId>): (r: seq<PageId>)
    ensures |r| == |s|
    ensures forall i | 0 <= i < |s| :: r[i] == s[|s| - 1 - i]
  {
    seq(|s|, i requires 0 <= i < |s| => s[|s| - 1 - i])
  }

  class FreeList {
    var freePages: seq<PageId>
    var totalFree: nat
    var firstPage: PageId
    var lastPage: PageId

    ghost predicate Valid()
      reads this
    {
      totalFree == |freePages|
    }

    constructor ()
      ensures Valid() && freePages == []
    {
      freePages, totalFree, firstPage, lastPage := [], 0, 0, 0;
    }

    method PushPage(id: PageId)
      requires Valid()
      modifies this
      ensures Valid() && freePages == old(freePages) + [id]
      ensures firstPage == old(firstPage) && lastPage == old(lastPage)
    {
      freePages := freePages + [id];
      totalFree := totalFree + 1;
    }

    /** The page that has been free for longest; the list metadata is reset with the last one. */
    method PopPage() returns (r: Option<PageId>)
      requires Valid()
      modifies this
      ensures Valid()
      ensures r.None? <==> old(freePages) == []
      ensures r.None? ==> freePages == []
      ensures r.Some? ==> [r.value] + freePages == old(freePages)
      ensures r.Some? && freePages == [] ==> firstPage == 0 && lastPage == 0
      ensures r.None? || freePages != [] ==> firstPage == old(firstPage) && lastPage == old(lastPage)
    {
      if freePages == [] {
        return None;
      }
      r := Some(freePages[0]);
      freePages := freePages[1..];
      var prev := totalFree;
      totalFree := totalFree - 1;
      if prev == 1 {
        firstPage := 0;
        lastPage := 0;
      }
    }

    /** Drain the queue into a vector, then push it back last to first. On a first-in first-out queue
        this returns the pages in queue order and leaves them in the opposite one. */
    method SnapshotFreePages() returns (pages: seq<PageId>)
      requires Valid()
      modifies this
      ensures Valid() && pages == old(freePages)
      ensures freePages == Reversed(old(freePages))
      ensures firstPage == old(firstPage) && lastPage == old(lastPage)
    {
      pages := [];
      while freePages != []
        invariant pages + freePages == old(freePages)
        invariant totalFree == old(totalFree) && firstPage == old(firstPage) && lastPage == old(lastPage)
        decreases |freePages|
      {
        pages := pages + [freePages[0]];
        freePages := freePages[1..];
      }
      assert pages == old(freePages);
      var i := |pages|;
      while i > 0
        invariant 0 <= i <= |pages|
        invariant |freePages| == |pages| - i
        invariant forall k | 0 <= k < |freePages| :: freePages[k] == pages[|pages| - 1 - k]
        invariant totalFree == old(totalFree) && firstPage == old(firstPage) && lastPage == old(lastPage)
      {
        i := i - 1;
        freePages := freePages + [pages[i]];
      }
    }
  }

  /** A snapshot of distinct pages leaves the queue as it was exactly when it holds at most one page. */
  lemma SnapshotKeepsOrderIff(s: seq<PageId>)
    requires forall i, j | 0 <= i < j < |s| :: s[i] != s[j]
    ensures Reversed(s) == s <==> |s| <= 1
  {
    if |s| > 1 {
      assert Reversed(s)[0] == s[|s| - 1];
    }
  }

  /** It is undone by the next snapshot. */
  lemma TwoSnapshotsCancel(s: seq<PageId>)
    ensures Reversed(Reversed(s)) == s
  {
  }
}
