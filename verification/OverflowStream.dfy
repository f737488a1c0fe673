/** The incremental reader of overflow chains (src/pager/overflow_stream.rs). */
module OverflowStream {
  import opened Wrappers
  import opened Bytes
  import opened Pages
  import opened Pagers
  import opened Overflow

  ghost function DataFrom(lib: Library, live: map<PageId, Content>, ids: seq<PageId>): Bytes {
    if ids == [] then [] else DataAt(lib, live, ids[0]) + DataFrom(lib, live, ids[1..])
  }

  /** As many bytes behind the header as offset 8 says. */
  function BytesBehind(c: Content): Bytes {
    if |c.data| >= 32 && 32 + FromLe(c.data[8..12]) <= |c.data| then c.data[32..32 + FromLe(c.data[8..12])] else []
  }

  lemma IntactBuffer(lib: Library, c: Content)
    ensures ReadChunk(lib, c).Ok? <==> Intact(lib, c)
    ensures ReadChunk(lib, c).Ok? ==> ReadChunk(lib, c).value.data == BytesBehind(c)
  {
    hide ReadChunk, FromLe;
    ReadChunkIff(lib, c);
  }

  class OverflowChainStream {
    const pager: Pager
    var currentPageId: Option<PageId>
    const totalLength: nat
    var position: nat
    var buffer: Bytes
    var bufferPos: nat
    ghost var rest: seq<PageId>  // the pages not loaded yet

    ghost predicate Valid()
      reads this, pager
    {
      && bufferPos <= |buffer|
      && currentPageId == (if rest == [] then None else Some(rest[0]))
      && (rest != [] ==> Chain(pager.cfg.lib, pager.live, rest))
      && NoneEmpty(pager.cfg.lib, pager.live, rest)
      && position <= totalLength
    }

    /** What is still to come, before the cut at the total length. */
    ghost function Remaining(): Bytes
      requires bufferPos <= |buffer|
      reads this, pager
    {
      buffer[bufferPos..] + DataFrom(pager.cfg.lib, pager.live, rest)
    }

    /** What is still to come. */
    ghost function Left(): Bytes
      requires Valid()
      reads this, pager
    {
      Remaining()[..Min(|Remaining()|, totalLength - position)]
    }

    /** On a readable chain without empty pages the stream stands for its data; any first id is accepted. */
    constructor (pager: Pager, first: PageId, totalLength: nat, ghost ids: seq<PageId>)
      ensures this.pager == pager && this.totalLength == totalLength && position == 0
      ensures (&& ids != [] && ids[0] == first
               && Chain(pager.cfg.lib, pager.live, ids) && NoneEmpty(pager.cfg.lib, pager.live, ids)) ==>
                Valid() && Remaining() == ChainData(pager.cfg.lib, pager.live, ids)
    {
      hide Chain, NoneEmpty, DataAt, DataFrom, ChainData;
      this.pager := pager;
      currentPageId := Some(first);
      this.totalLength := totalLength;
      position := 0;
      buffer := [];
      bufferPos := 0;
      rest := ids;
      new;
      SameEitherWay(pager.cfg.lib, pager.live, ids);
      StartOf(DataFrom(pager.cfg.lib, pager.live, ids));
    }

    /** Checks the current page as the whole reader does and makes its data the buffer. */
    method LoadNextPage() returns (r: Result<(), PagerError>)
      requires pager.Valid() && (currentPageId.Some? ==> currentPageId.value in pager.live)
      modifies this`buffer, this`bufferPos, this`currentPageId, pager`disk, pager`live, pager.Shards()
      ensures pager.Valid() && pager.live == old(pager.live)
      ensures old(currentPageId).None? ==>
                r == Ok(()) && currentPageId == None && buffer == old(buffer) && bufferPos == old(bufferPos)
      ensures old(currentPageId).Some? ==>
                match ReadChunk(pager.cfg.lib, pager.live[old(currentPageId).value])
                case Err(e) =>
                  r == Err(e) && currentPageId == old(currentPageId) && buffer == old(buffer) && bufferPos == old(bufferPos)
                case Ok(c) =>
                  && r == Ok(()) && buffer == c.data && bufferPos == 0
                  && currentPageId == if c.next == 0 then None else Some(c.next)
      ensures old(currentPageId).Some? ==>
                var c := pager.live[old(currentPageId).value];
                (r.Ok? <==> Intact(pager.cfg.lib, c)) && (r.Ok? ==> buffer == BytesBehind(c))
    {
      hide Intact, BytesBehind, ReadFrom, NowCached, StaleRead, Pager.Slot, Pager.Physical, Pager.CacheView, FromLe, Pager.Valid,
           ParseOverflowHeader, Plain, Matches;
      if currentPageId.None? {
        return Ok(());
      }
      var id := currentPageId.value;
      IntactBuffer(pager.cfg.lib, pager.live[id]);
      var read := pager.ReadPage(id);
      match read {
        case Err(e) => return Err(e);
        case Ok(page) =>
          MatchesMeans(page, id, pager.live[id]);
          if !page.header.pageType.Overflow? {
            return Err(InternalError);
          }
          var header := ParseOverflowHeader(page.data);
          if header.Err? {
            return Err(header.error);
          }
          var end := OVERFLOW_HEADER_SIZE + header.value.dataLength;
          if end > |page.data| {
            return Err(InternalError);
          }
          var data := page.data[OVERFLOW_HEADER_SIZE..end];
          if pager.cfg.lib.crc32(data) != header.value.checksum {
            return Err(InternalError);
          }
          buffer := data;
          bufferPos := 0;
          currentPageId := if header.value.IsLast() then None else Some(header.value.nextPageId);
          r := Ok(());
      }
    }

    /** Fills the caller's buffer as far as the value goes: the next bytes of the value, in order, and
        no other byte of the buffer is touched. */
    method Read(buf: array<byte>) returns (r: Result<nat, PagerError>)
      requires pager.Valid() && Valid()
      modifies this`buffer, this`bufferPos, this`currentPageId, this`rest, this`position, buf, pager`disk, pager`live,
          pager.Shards()
      ensures pager.Valid() && pager.live == old(pager.live) && Valid()
      ensures r == Ok(Min(buf.Length, |old(Left())|))
      ensures buf[..r.value] == old(Left())[..r.value] && buf[r.value..] == old(buf[r.value..])
      ensures Left() == old(Left())[r.value..] && position == old(position) + r.value
    {
      hide Pager.Valid, Chain, NoneEmpty, DataAt, DataFrom, Remaining, Copied, Spliced;
      if position >= totalLength {
        CutShort(Remaining(), 0, 0);
        return Ok(0);
      }
      var total := 0;
      ghost var all, bytes := Remaining(), buf[..];
      NothingCopied(bytes, all);
      while total < buf.Length && position < totalLength
        invariant total <= buf.Length && total <= |all| && position == old(position) + total
        invariant pager.Valid() && pager.live == old(pager.live) && Valid()
        invariant Remaining() == all[total..]
        invariant Copied(buf[..], bytes, all, total)
        decreases buf.Length - total
      {
        var more := Refill();
        match more {
          case Err(e) => return Err(e);
          case Ok(any) => if !any { break; }
        }
        ghost var b := buf[..];
        var n := Copy(buf, total);
        CopiedMore(b, bytes, all, total, n);
        total := total + n;
      }
      CopiedMeans(buf[..], bytes, all, total);
      CutShort(all, totalLength - old(position), total);
      r := Ok(total);
    }

    /** Makes sure that a buffered byte is there, unless the chain is at its end. */
    method Refill() returns (r: Result<bool, PagerError>)
      requires pager.Valid() && Valid()
      modifies this`buffer, this`bufferPos, this`currentPageId, this`rest, pager`disk, pager`live, pager.Shards()
      ensures pager.Valid() && pager.live == old(pager.live) && Valid() && Remaining() == old(Remaining())
      ensures r == Ok(Remaining() != []) && (r.value ==> bufferPos < |buffer|)
    {
      hide Pager.Valid, Chain, NoneEmpty, DataAt, DataFrom;
      NothingLeft(pager.cfg.lib, pager.live);
      if bufferPos >= |buffer| {
        if currentPageId.None? {
          return Ok(false);
        }
        FirstOf(pager.cfg.lib, pager.live, rest);
        var load := LoadNextPage();
        match load {
          case Err(e) => return Err(e);
          case Ok(_) =>
        }
        rest := rest[1..];
      }
      r := Ok(|buffer| != 0);
    }

    /** Hands out as many buffered bytes as the caller, the buffer and the total length allow. */
    method Copy(buf: array<byte>, total: nat) returns (n: nat)
      requires Valid() && total < buf.Length && position < totalLength && bufferPos < |buffer|
      modifies this`bufferPos, this`position, buf
      ensures Valid() && n > 0 && position == old(position) + n && total + n <= buf.Length && n <= |old(Remaining())|
      ensures Remaining() == old(Remaining())[n..]
      ensures buf[..] == Spliced(old(buf[..]), total, old(Remaining())[..n])
    {
      hide Chain, NoneEmpty, DataAt, DataFrom, Spliced;
      n := Min(Min(buf.Length - total, |buffer| - bufferPos), totalLength - position);
      CopyInto(buf, total, bufferPos, n);
      SplitAt(buffer, bufferPos, n, DataFrom(pager.cfg.lib, pager.live, rest));
      bufferPos := bufferPos + n;
      position := position + n;
    }

    /** `copy_from_slice` of `n` buffered bytes. */
    method CopyInto(buf: array<byte>, to: nat, from: nat, n: nat)
      requires to + n <= buf.Length && from + n <= |buffer|
      modifies buf
      ensures buf[..] == Spliced(old(buf[..]), to, buffer[from..from + n])
    {
      forall i | 0 <= i < n {
        buf[to + i] := buffer[from + i];
      }
    }
  }

  /** What reads into buffers of the given sizes should return. */
  function CutBy(data: Bytes, sizes: seq<nat>): (outs: seq<Bytes>)
    ensures |outs| == |sizes|
  {
    if sizes == [] then []
    else
      var n := Min(sizes[0], |data|);
      [data[..n]] + CutBy(data[n..], sizes[1..])
  }

  function Join(outs: seq<Bytes>): Bytes {
    if outs == [] then [] else outs[0] + Join(outs[1..])
  }

  function Sum(sizes: seq<nat>): nat {
    if sizes == [] then 0 else sizes[0] + Sum(sizes[1..])
  }

  /** For every sequence of buffers: the outputs concatenate to the front of the value, as long as the
      buffers together or all of it. */
  lemma {:induction false} OutputsJoin(data: Bytes, sizes: seq<nat>)
    ensures Join(CutBy(data, sizes)) == data[..Min(Sum(sizes), |data|)]
  {
    if sizes != [] {
      var n := Min(sizes[0], |data|);
      OutputsJoin(data[n..], sizes[1..]);
      var outs := CutBy(data, sizes);
      assert outs[0] == data[..n] && outs[1..] == CutBy(data[n..], sizes[1..]);
    }
  }

  /** A read into a buffer that is not empty returns nothing only at the end of the value. */
  lemma {:induction false} NothingOnlyAtTheEnd(data: Bytes, sizes: seq<nat>, i: nat)
    requires i < |sizes| && sizes[i] > 0
    ensures CutBy(data, sizes)[i] == [] <==> Sum(sizes[..i]) >= |data|
  {
    var n := Min(sizes[0], |data|);
    if i > 0 {
      NothingOnlyAtTheEnd(data[n..], sizes[1..], i - 1);
      assert sizes[..i][1..] == sizes[1..][..i - 1];
    }
  }

  /** A client reading once with a buffer of the given size. */
  method ReadOne(s: OverflowChainStream, size: nat) returns (out: Bytes)
    requires s.pager.Valid() && s.Valid()
    modifies s, s.pager`disk, s.pager`live, s.pager.Shards()
    ensures s.pager.Valid() && s.pager.live == old(s.pager.live) && s.Valid()
    ensures |out| == Min(size, |old(s.Left())|)
    ensures out == old(s.Left())[..|out|] && s.Left() == old(s.Left())[|out|..]
  {
    hide Pager.Valid, OverflowChainStream.Valid, OverflowChainStream.Left;
    var buf := new byte[size];
    var n := s.Read(buf);
    out := buf[..n.value];
  }

  /** A client reading with buffers of the given sizes. */
  method ReadMany(s: OverflowChainStream, sizes: seq<nat>) returns (outs: seq<Bytes>)
    requires s.pager.Valid() && s.Valid()
    modifies s, s.pager`disk, s.pager`live, s.pager.Shards()
    ensures s.pager.Valid() && s.pager.live == old(s.pager.live) && s.Valid()
    ensures outs == CutBy(old(s.Left()), sizes)
  {
    hide Pager.Valid, OverflowChainStream.Valid, OverflowChainStream.Left, CutBy, SoFar;
    outs := [];
    ghost var all := s.Left();
    NothingYet(all, sizes);
    while |outs| < |sizes|
      invariant |outs| <= |sizes| && s.pager.Valid() && s.pager.live == old(s.pager.live) && s.Valid()
      invariant SoFar(outs, s.Left(), sizes, all)
      decreases |sizes| - |outs|
    {
      ghost var before := s.Left();
      var out := ReadOne(s, sizes[|outs|]);
      OneMoreCut(outs, before, sizes, all, |out|);
      outs := outs + [out];
    }
    AllCut(outs, s.Left(), sizes, all);
  }

  /** The outputs so far, and the cuts of what is left, are the cuts of the whole. */
  ghost predicate SoFar(outs: seq<Bytes>, left: Bytes, sizes: seq<nat>, all: Bytes) {
    |outs| <= |sizes| && outs + CutBy(left, sizes[|outs|..]) == CutBy(all, sizes)
  }

  lemma NothingYet(all: Bytes, sizes: seq<nat>)
    ensures SoFar([], all, sizes, all)
  {
    assert sizes[0..] == sizes;
  }

  /** One read, seen in the cuts that are still to come. */
  lemma OneMoreCut(outs: seq<Bytes>, left: Bytes, sizes: seq<nat>, all: Bytes, n: nat)
    requires SoFar(outs, left, sizes, all) && |outs| < |sizes| && n == Min(sizes[|outs|], |left|)
    ensures SoFar(outs + [left[..n]], left[n..], sizes, all)
  {
    var i := |outs|;
    var rest := sizes[i..];
    assert rest[0] == sizes[i] && rest[1..] == sizes[i + 1..];
    Shift(outs, left[..n], CutBy(left[n..], sizes[i + 1..]));
    hide Min;
  }

  lemma Shift(outs: seq<Bytes>, out: Bytes, rest: seq<Bytes>)
    ensures (outs + [out]) + rest == outs + ([out] + rest)
  {
  }

  lemma AllCut(outs: seq<Bytes>, left: Bytes, sizes: seq<nat>, all: Bytes)
    requires SoFar(outs, left, sizes, all) && |outs| == |sizes|
    ensures outs == CutBy(all, sizes)
  {
    assert sizes[|outs|..] == [];
  }

  /** Reading until nothing comes gives the whole value, cut at the total length. */
  method Drain(s: OverflowChainStream, size: nat) returns (out: Bytes)
    requires s.pager.Valid() && s.Valid() && size > 0
    modifies s, s.pager`disk, s.pager`live, s.pager.Shards()
    ensures s.pager.Valid() && s.pager.live == old(s.pager.live) && s.Valid()
    ensures out == old(s.Left()) && s.Left() == []
  {
    hide Pager.Valid, OverflowChainStream.Valid, OverflowChainStream.Left;
    out := [];
    ghost var all := s.Left();
    var buf := new byte[size];
    while true
      invariant s.pager.Valid() && s.pager.live == old(s.pager.live) && s.Valid() && fresh(buf)
      invariant out + s.Left() == all
      decreases |s.Left()|
    {
      ghost var before := s.Left();
      var n := s.Read(buf);
      MovedOver(out, before, n.value);
      if n.value == 0 {
        return;
      }
      out := out + buf[..n.value];
    }
  }

  lemma MovedOver(out: Bytes, left: Bytes, n: nat)
    requires n <= |left|
    ensures (out + left[..n]) + left[n..] == out + left
    ensures n == 0 ==> left[n..] == left
    ensures left == [] ==> out + left == out
  {
  }

  /** The first `total` bytes of the buffer are the front of the value; the others are as they were. */
  ghost predicate Copied(buf: Bytes, before: Bytes, all: Bytes, total: nat)
    requires total <= |all| && total <= |before|
  {
    buf == all[..total] + before[total..]
  }

  /** A slice overwritten. */
  function Spliced(b: Bytes, at: nat, piece: Bytes): (r: Bytes)
    requires at + |piece| <= |b|
    ensures |r| == |b|
  {
    b[..at] + piece + b[at + |piece|..]
  }

  lemma NothingCopied(before: Bytes, all: Bytes)
    ensures Copied(before, before, all, 0)
  {
  }

  lemma CopiedMore(b: Bytes, before: Bytes, all: Bytes, total: nat, n: nat)
    requires total + n <= |all| && total + n <= |before| == |b| && Copied(b, before, all, total)
    ensures Copied(Spliced(b, total, all[total..][..n]), before, all, total + n)
    ensures all[total..][n..] == all[total + n..]
  {
  }

  lemma CopiedMeans(b: Bytes, before: Bytes, all: Bytes, total: nat)
    requires total <= |all| && total <= |before| && Copied(b, before, all, total)
    ensures |b| == |before| && b[..total] == all[..total] && b[total..] == before[total..]
  {
  }

  /** Cutting at the total length and taking bytes away commute. */
  lemma CutShort(all: Bytes, limit: nat, total: nat)
    requires total <= |all| && total <= limit
    ensures all[..Min(|all|, limit)][total..] == all[total..][..Min(|all[total..]|, limit - total)]
    ensures all[..Min(|all|, limit)][..total] == all[..total]
  {
  }

  lemma StartOf(data: Bytes)
    ensures [][0..] + data == data
  {
  }

  lemma SplitAt(buffer: Bytes, pos: nat, n: nat, more: Bytes)
    requires pos + n <= |buffer|
    ensures (buffer[pos..] + more)[..n] == buffer[pos..pos + n]
    ensures (buffer[pos..] + more)[n..] == buffer[pos + n..] + more
  {
  }

  lemma NothingLeft(lib: Library, live: map<PageId, Content>)
    ensures DataFrom(lib, live, []) == []
  {
  }

  /** What loading the first page of a chain yields, and what it leaves. */
  lemma FirstOf(lib: Library, live: map<PageId, Content>, ids: seq<PageId>)
    requires ids != [] && Chain(lib, live, ids) && NoneEmpty(lib, live, ids)
    ensures ids[0] in live && ReadChunk(lib, live[ids[0]]).Ok?
    ensures var c := ReadChunk(lib, live[ids[0]]).value;
            && c.data != [] && DataFrom(lib, live, ids) == c.data + DataFrom(lib, live, ids[1..])
            && (c.next == 0 <==> ids[1..] == []) && (ids[1..] != [] ==> c.next == ids[1..][0] && Chain(lib, live, ids[1..]))
            && NoneEmpty(lib, live, ids[1..])
  {
    hide ReadChunk;
    WalkFacts(lib, live, ids, true, 0);
    forall i: nat | i < |ids[1..]| ensures WalkAt(lib, live, ids[1..], true, i) {
      assert WalkAt(lib, live, ids, true, i + 1);
    }
  }

  lemma {:induction false} SameEitherWay(lib: Library, live: map<PageId, Content>, ids: seq<PageId>)
    ensures DataFrom(lib, live, ids) == ChainData(lib, live, ids)
  {
    hide DataAt;
    if |ids| > 1 {
      SameEitherWay(lib, live, ids[1..]);
      SameEitherWay(lib, live, ids[..|ids| - 1]);
      SameEitherWay(lib, live, ids[1..][..|ids| - 2]);
      assert ids[..|ids| - 1][1..] == ids[1..][..|ids| - 2];
    } else if |ids| == 1 {
      assert ids[1..] == [] && ids[..0] == [];
    }
  }
}
