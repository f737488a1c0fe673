/** Snapshots (src/snap.rs) and version chains (src/txn/version.rs). */
module VersionChains {
  import opened Wrappers
  import opened Bytes
  import opened Transactions

  datatype ValueRef =
    | Inline
    | SinglePage(pageId: nat, offset: nat, length: nat)
    | OverflowChain(firstPageId: nat, totalLength: nat, pageCount: nat)

  datatype VersionValue = InlineValue(data: Bytes) | External(valueRef: ValueRef)

  /** The linked list of the source: newest version first. */
  datatype VersionChain = VersionChain(
    value: VersionValue, createdBy: TransactionId, commitLsn: Option<Lsn>, prevVersion: Option<VersionChain>)

  /** One link of a chain without its tail. */
  datatype Version = Version(value: VersionValue, createdBy: TransactionId, commitLsn: Option<Lsn>)

  function Head(c: VersionChain): Version {
    Version(c.value, c.createdBy, c.commitLsn)
  }

  function Versions(c: VersionChain): (vs: seq<Version>)
    ensures vs != [] && vs[0] == Head(c)
  {
    [Head(c)] + OlderVersions(c.prevVersion)
  }

  function OlderVersions(o: Option<VersionChain>): seq<Version> {
    if o.None? then [] else Versions(o.value)
  }

  // ---------------------------------------------------------------------------
  // Snapshots
  // ---------------------------------------------------------------------------

  datatype Snapshot = Snapshot(id: nat, name: string, lsn: Lsn, minActiveTxn: TransactionId, activeTxns: set<TransactionId>)
  {
    /** The two-path test of the source. */
    predicate IsVisible(versionLsn: Lsn, createdBy: TransactionId) {
      if versionLsn > lsn then false
      else if createdBy < minActiveTxn then true
      else createdBy !in activeTxns
    }

    /** `minActiveTxn` is a lower bound of the active set, as the constructor leaves it. */
    predicate WellFormed() {
      forall t | t in activeTxns :: minActiveTxn <= t
    }
  }

  /** `Snapshot::new`: the watermark is the least element of the list, or 0 when it is empty. */
  method NewSnapshot(id: nat, name: string, lsn: Lsn, activeTxnList: seq<TransactionId>) returns (s: Snapshot)
    ensures s.id == id && s.name == name && s.lsn == lsn
    ensures s.activeTxns == set t | t in activeTxnList
    ensures activeTxnList == [] ==> s.minActiveTxn == 0
    ensures activeTxnList != [] ==> s.minActiveTxn in activeTxnList
    ensures s.WellFormed()
    ensures forall l: Lsn, t: TransactionId :: s.IsVisible(l, t) <==> l <= lsn && t !in activeTxnList
  {
    var least: Option<TransactionId> := None;
    var active := {};
    for i := 0 to |activeTxnList|
      invariant active == set t | t in activeTxnList[..i]
      invariant least.None? <==> i == 0
      invariant least.Some? ==> least.value in activeTxnList[..i] && forall t | t in active :: least.value <= t
    {
      var t := activeTxnList[i];
      assert activeTxnList[..i + 1] == activeTxnList[..i] + [t];
      if least.None? || t < least.value {
        least := Some(t);
      }
      active := active + {t};
    }
    assert activeTxnList[..|activeTxnList|] == activeTxnList;
    s := Snapshot(id, name, lsn, if least.Some? then least.value else 0, active);
    assert forall t | t in activeTxnList :: t in s.activeTxns;
  }

  // ---------------------------------------------------------------------------
  // Visibility
  // ---------------------------------------------------------------------------

  predicate VisibleTo(v: Version, s: Snapshot) {
    v.commitLsn.Some? && s.IsVisible(v.commitLsn.value, v.createdBy)
  }

  /** The newest visible version. */
  function FirstVisible(vs: seq<Version>, s: Snapshot): (r: Option<Version>)
    ensures r.None? <==> forall v | v in vs :: !VisibleTo(v, s)
    ensures r.Some? ==> r.value in vs && VisibleTo(r.value, s)
  {
    if vs == [] then None
    else if VisibleTo(vs[0], s) then Some(vs[0])
    else
      assert vs == [vs[0]] + vs[1..];
      FirstVisible(vs[1..], s)
  }

  /** Newer versions hide older ones. */
  lemma {:induction false} FirstVisibleSplit(newer: seq<Version>, older: seq<Version>, s: Snapshot)
    ensures FirstVisible(newer + older, s) ==
            if FirstVisible(newer, s).Some? then FirstVisible(newer, s) else FirstVisible(older, s)
  {
    if newer == [] {
      assert newer + older == older;
    } else {
      assert (newer + older)[1..] == newer[1..] + older;
      FirstVisibleSplit(newer[1..], older, s);
    }
  }

  /** The link `k` steps down the chain. */
  function LinkAt(chain: VersionChain, k: nat): Option<VersionChain>
    decreases k
  {
    if k == 0 then Some(chain) else if chain.prevVersion.None? then None else LinkAt(chain.prevVersion.value, k - 1)
  }

  /** The versions of a chain are its links, in order. */
  lemma {:induction false} VersionsAreLinks(chain: VersionChain, k: nat)
    ensures LinkAt(chain, k).Some? <==> k < |Versions(chain)|
    ensures LinkAt(chain, k).Some? ==>
              var c, v := LinkAt(chain, k).value, Versions(chain)[k];
              v.value == c.value && v.createdBy == c.createdBy && v.commitLsn == c.commitLsn
    decreases k
  {
    assert Versions(chain)[1..] == OlderVersions(chain.prevVersion);
    if k > 0 && chain.prevVersion.Some? {
      VersionsAreLinks(chain.prevVersion.value, k - 1);
    }
  }

  predicate VisibleLink(chain: VersionChain, k: nat, s: Snapshot) {
    var c := LinkAt(chain, k);
    c.Some? && c.value.commitLsn.Some? && s.IsVisible(c.value.commitLsn.value, c.value.createdBy)
  }

  /** The walk of `find_visible_version` over the links: the value of the first link that is visible, and
      nothing if and only if none is. */
  method FindVisibleVersion(chain: VersionChain, snapshot: Snapshot) returns (r: Option<VersionValue>)
    ensures forall k: nat | VisibleLink(chain, k, snapshot) && (forall j: nat | j < k :: !VisibleLink(chain, j, snapshot)) ::
              r == Some(LinkAt(chain, k).value.value)
    ensures r.None? <==> forall k: nat :: !VisibleLink(chain, k, snapshot)
    ensures r.None? <==> FirstVisible(Versions(chain), snapshot).None?
    ensures r.Some? ==> r.value == FirstVisible(Versions(chain), snapshot).value.value
  {
    var current := Some(chain);
    ghost var n := 0;
    while current.Some?
      invariant current == LinkAt(chain, n)
      invariant forall j: nat | j < n :: !VisibleLink(chain, j, snapshot)
      invariant current.Some? ==>
                  FirstVisible(Versions(chain), snapshot) == FirstVisible(Versions(current.value), snapshot)
      invariant current.None? ==> FirstVisible(Versions(chain), snapshot).None?
      decreases current
    {
      var version := current.value;
      LinkBelow(chain, n);
      if version.commitLsn.Some? && snapshot.IsVisible(version.commitLsn.value, version.createdBy) {
        assert VisibleLink(chain, n, snapshot);
        return Some(version.value);
      }
      assert Versions(version)[1..] == OlderVersions(version.prevVersion);
      current := version.prevVersion;
      n := n + 1;
    }
    forall k: nat ensures !VisibleLink(chain, k, snapshot) {
      if k >= n {
        NoLinkBelow(chain, n, k);
      }
    }
    r := None;
  }

  lemma {:induction false} LinkBelow(chain: VersionChain, n: nat)
    requires LinkAt(chain, n).Some?
    ensures LinkAt(chain, n + 1) == LinkAt(chain, n).value.prevVersion
    decreases n
  {
    if n > 0 {
      LinkBelow(chain.prevVersion.value, n - 1);
    }
  }

  lemma {:induction false} NoLinkBelow(chain: VersionChain, n: nat, k: nat)
    requires LinkAt(chain, n).None? && n <= k
    ensures LinkAt(chain, k).None?
    decreases n
  {
    if n > 0 && chain.prevVersion.Some? {
      NoLinkBelow(chain.prevVersion.value, n - 1, k - 1);
    }
  }

  // ---------------------------------------------------------------------------
  // Vacuum, as written
  // ---------------------------------------------------------------------------

  predicate Obsolete(v: Version, minVisible: Lsn) {
    v.commitLsn.Some? && v.commitLsn.value < minVisible
  }

  datatype Retained = Retained(chain: VersionChain, budget: nat, freedRefs: seq<ValueRef>)

  function RefOf(v: Version): seq<ValueRef> {
    if v.value.External? then [v.value.valueRef] else []
  }

  /** `retain_obsolete_versions`: rebuild the older part first, then decide about this node. */
  function RetainObsoleteVersions(node: VersionChain, minVisible: Lsn, budget: nat, freedRefs: seq<ValueRef>): (r: Retained)
    decreases node
  {
    var older :=
      if node.prevVersion.None? then (None, budget, freedRefs)
      else
        var p := RetainObsoleteVersions(node.prevVersion.value, minVisible, budget, freedRefs);
        (Some(p.chain), p.budget, p.freedRefs);
    var isObsolete := Obsolete(Head(node), minVisible);
    var keepThisObsolete := isObsolete && older.1 > 0;
    var willBeRemoved := isObsolete && !keepThisObsolete;
    var prevVersion :=
      if willBeRemoved then (if older.0.None? then None else older.0.value.prevVersion) else older.0;
    Retained(
      node.(prevVersion := prevVersion),
      if keepThisObsolete then older.1 - 1 else older.1,
      if willBeRemoved then older.2 + RefOf(Head(node)) else older.2)
  }

  function CountObsolete(vs: seq<Version>, minVisible: Lsn): nat {
    if vs == [] then 0
    else (if Obsolete(vs[0], minVisible) then 1 else 0) + CountObsolete(vs[1..], minVisible)
  }

  datatype Vacuumed = Vacuumed(chain: VersionChain, removed: nat, freedRefs: seq<ValueRef>)

  function Vacuum(chain: VersionChain, minVisible: Lsn): (r: Vacuumed) {
    var obsolete := CountObsolete(Versions(chain), minVisible);
    if obsolete <= 1 then Vacuumed(chain, 0, [])
    else
      var r := RetainObsoleteVersions(chain, minVisible, 1, []);
      Vacuumed(r.chain, obsolete - 1, r.freedRefs)
  }

  // ---------------------------------------------------------------------------
  // What vacuum drops, on every chain
  // ---------------------------------------------------------------------------

  predicate HasObsolete(vs: seq<Version>, minVisible: Lsn) {
    exists v | v in vs :: Obsolete(v, minVisible)
  }

  /** Position `i` directly follows an obsolete version that is not the oldest obsolete one. */
  predicate Dropped(vs: seq<Version>, minVisible: Lsn, i: nat) {
    0 < i < |vs| && Obsolete(vs[i - 1], minVisible) && HasObsolete(vs[i..], minVisible)
  }

  /** The versions from position `i` on whose position is not dropped, in order. */
  function Survivors(vs: seq<Version>, minVisible: Lsn, i: nat): seq<Version>
    requires i <= |vs|
    decreases |vs| - i
  {
    if i == |vs| then []
    else (if Dropped(vs, minVisible, i) then [] else [vs[i]]) + Survivors(vs, minVisible, i + 1)
  }

  /** The refs of obsolete versions other than the oldest obsolete one, oldest first. */
  function FreedFrom(vs: seq<Version>, minVisible: Lsn): seq<ValueRef> {
    if vs == [] then []
    else FreedFrom(vs[1..], minVisible) +
         if Obsolete(vs[0], minVisible) && HasObsolete(vs[1..], minVisible) then RefOf(vs[0]) else []
  }

  /** The recursion read on sequences: an obsolete version with an older obsolete one
      takes its direct predecessor out. */
  function RetainSeq(vs: seq<Version>, minVisible: Lsn): (r: seq<Version>)
    requires vs != []
    ensures r != [] && r[0] == vs[0]
  {
    if |vs| == 1 then vs
    else
      var older := RetainSeq(vs[1..], minVisible);
      [vs[0]] + if Obsolete(vs[0], minVisible) && HasObsolete(vs[1..], minVisible) then older[1..] else older
  }

  /** One node of the recursion, on every chain. */
  lemma {:induction false} RetainedVersions(node: VersionChain, minVisible: Lsn)
    ensures var r, vs := RetainObsoleteVersions(node, minVisible, 1, []), Versions(node);
            && r.budget == (if HasObsolete(vs, minVisible) then 0 else 1)
            && Versions(r.chain) == RetainSeq(vs, minVisible)
            && r.freedRefs == FreedFrom(vs, minVisible)
    decreases node
  {
    var vs := Versions(node);
    assert vs[1..] == OlderVersions(node.prevVersion);
    HasObsoleteCons(vs, minVisible, 0);
    hide HasObsolete;
    assert vs[0..] == vs;
    if node.prevVersion.Some? {
      RetainedVersions(node.prevVersion.value, minVisible);
      var p := RetainObsoleteVersions(node.prevVersion.value, minVisible, 1, []);
      assert Versions(p.chain)[1..] == OlderVersions(p.chain.prevVersion);
    }
  }

  lemma {:induction false} RetainSeqKeepsSurvivors(vs: seq<Version>, minVisible: Lsn, i: nat)
    requires i < |vs|
    ensures RetainSeq(vs[i..], minVisible) == [vs[i]] + Survivors(vs, minVisible, i + 1)
    decreases |vs| - i
  {
    assert vs[i..][0] == vs[i] && vs[i..][1..] == vs[i + 1..];
    if i + 1 < |vs| {
      hide RetainSeq, Survivors, HasObsolete, Obsolete;
      RetainSeqKeepsSurvivors(vs, minVisible, i + 1);
      RetainSeqStep(vs[i..], minVisible);
      SurvivorsStep(vs, minVisible, i + 1);
      SameKept(vs[i], vs[i + 1], Survivors(vs, minVisible, i + 2), Dropped(vs, minVisible, i + 1));
    }
  }

  lemma RetainSeqStep(vs: seq<Version>, minVisible: Lsn)
    requires |vs| > 1
    ensures RetainSeq(vs, minVisible) ==
            [vs[0]] + if Obsolete(vs[0], minVisible) && HasObsolete(vs[1..], minVisible) then RetainSeq(vs[1..], minVisible)[1..]
                      else RetainSeq(vs[1..], minVisible)
  {
    hide Obsolete, HasObsolete;
  }

  lemma SurvivorsStep(vs: seq<Version>, minVisible: Lsn, i: nat)
    requires i < |vs|
    ensures Survivors(vs, minVisible, i)
            == (if Dropped(vs, minVisible, i) then [] else [vs[i]]) + Survivors(vs, minVisible, i + 1)
  {
    hide Dropped;
  }

  lemma SameKept(head: Version, next: Version, rest: seq<Version>, dropped: bool)
    ensures [head] + (if dropped then ([next] + rest)[1..] else [next] + rest)
            == [head] + ((if dropped then [] else [next]) + rest)
  {
  }

  lemma HasObsoleteCons(vs: seq<Version>, minVisible: Lsn, i: nat)
    requires i < |vs|
    ensures HasObsolete(vs[i..], minVisible) <==> Obsolete(vs[i], minVisible) || HasObsolete(vs[i + 1..], minVisible)
    ensures !HasObsolete([], minVisible)
  {
    assert vs[i..] == [vs[i]] + vs[i + 1..];
  }

  /** On every chain, whatever the order of its LSNs: the length drops by exactly the
      returned number, the head is untouched, and the survivors keep their order. */
  lemma {:induction false} VacuumIsExact(chain: VersionChain, minVisible: Lsn)
    ensures var vs, r := Versions(chain), Vacuum(chain, minVisible);
            && Versions(r.chain) == Survivors(vs, minVisible, 0)
            && |Versions(r.chain)| == |vs| - r.removed
            && Head(r.chain) == Head(chain)
            && r.removed == (if CountObsolete(vs, minVisible) == 0 then 0 else CountObsolete(vs, minVisible) - 1)
            && r.freedRefs == FreedFrom(vs, minVisible)
  {
    var vs := Versions(chain);
    assert vs[0..] == vs;
    SurvivorCount(vs, minVisible, 0);
    if CountObsolete(vs, minVisible) <= 1 {
      NothingDropped(vs, minVisible, 0);
      NothingFreed(vs, minVisible);
    } else {
      RetainedVersions(chain, minVisible);
      RetainSeqKeepsSurvivors(vs, minVisible, 0);
    }
  }

  lemma {:induction false} HasObsoleteCount(vs: seq<Version>, minVisible: Lsn)
    ensures HasObsolete(vs, minVisible) <==> CountObsolete(vs, minVisible) > 0
  {
    if vs != [] {
      HasObsoleteCount(vs[1..], minVisible);
      assert vs == [vs[0]] + vs[1..];
    }
  }

  /** The positions dropped after `i` are one fewer than the obsolete versions from `i` on. */
  lemma {:induction false} SurvivorCount(vs: seq<Version>, minVisible: Lsn, i: nat)
    requires i < |vs|
    ensures var n := CountObsolete(vs[i..], minVisible);
            |Survivors(vs, minVisible, i + 1)| == |vs| - i - 1 - (if n == 0 then 0 else n - 1)
    decreases |vs| - i
  {
    assert vs[i..][1..] == vs[i + 1..];
    HasObsoleteCount(vs[i + 1..], minVisible);
    if i + 1 < |vs| {
      SurvivorCount(vs, minVisible, i + 1);
    }
  }

  lemma {:induction false} NothingDropped(vs: seq<Version>, minVisible: Lsn, i: nat)
    requires i <= |vs| && CountObsolete(vs, minVisible) <= 1
    ensures Survivors(vs, minVisible, i) == vs[i..]
    decreases |vs| - i
  {
    if i < |vs| {
      NothingDropped(vs, minVisible, i + 1);
      DroppedNeedsTwo(vs, minVisible, i);
      assert vs[i..] == [vs[i]] + vs[i + 1..];
    }
  }

  lemma DroppedNeedsTwo(vs: seq<Version>, minVisible: Lsn, i: nat)
    ensures Dropped(vs, minVisible, i) ==> CountObsolete(vs, minVisible) >= 2
  {
    if 0 < i < |vs| {
      CountSplit(vs[..i], vs[i..], minVisible);
      assert vs == vs[..i] + vs[i..];
      HasObsoleteCount(vs[..i], minVisible);
      HasObsoleteCount(vs[i..], minVisible);
      assert vs[i - 1] in vs[..i];
    }
  }

  lemma {:induction false} CountSplit(a: seq<Version>, b: seq<Version>, minVisible: Lsn)
    ensures CountObsolete(a + b, minVisible) == CountObsolete(a, minVisible) + CountObsolete(b, minVisible)
  {
    if a == [] {
      assert a + b == b;
    } else {
      assert (a + b)[1..] == a[1..] + b;
      CountSplit(a[1..], b, minVisible);
    }
  }

  lemma {:induction false} NothingFreed(vs: seq<Version>, minVisible: Lsn)
    requires CountObsolete(vs, minVisible) <= 1
    ensures FreedFrom(vs, minVisible) == []
  {
    if vs != [] {
      NothingFreed(vs[1..], minVisible);
      HasObsoleteCount(vs[1..], minVisible);
    }
  }

  // ---------------------------------------------------------------------------
  // When this is what the documentation says
  // ---------------------------------------------------------------------------

  /** Documented: all but the newest of the versions below the watermark go. */
  predicate DocumentedAsDropped(vs: seq<Version>, minVisible: Lsn, i: nat) {
    i < |vs| && Obsolete(vs[i], minVisible) && HasObsolete(vs[..i], minVisible)
  }

  /** No younger version sits between two obsolete ones. */
  predicate ObsoleteAreContiguous(vs: seq<Version>, minVisible: Lsn) {
    forall i, j, k | 0 <= i < j < k < |vs| && Obsolete(vs[i], minVisible) && Obsolete(vs[k], minVisible) ::
      Obsolete(vs[j], minVisible)
  }

  /** Vacuum drops what is documented exactly on chains whose obsolete versions are contiguous. */
  lemma {:induction false} VacuumIsAsDocumentedIff(vs: seq<Version>, minVisible: Lsn)
    ensures (forall i: nat :: Dropped(vs, minVisible, i) <==> DocumentedAsDropped(vs, minVisible, i))
            <==> ObsoleteAreContiguous(vs, minVisible)
  {
    if ObsoleteAreContiguous(vs, minVisible) {
      forall i: nat ensures Dropped(vs, minVisible, i) <==> DocumentedAsDropped(vs, minVisible, i) {
        ContiguousDrop(vs, minVisible, i);
      }
    } else {
      var i, j, k :| 0 <= i < j < k < |vs| && Obsolete(vs[i], minVisible) && Obsolete(vs[k], minVisible)
                     && !Obsolete(vs[j], minVisible);
      var d := GapDropsALiveVersion(vs, minVisible, i, j, k);
    }
  }

  lemma ContiguousDrop(vs: seq<Version>, minVisible: Lsn, i: nat)
    requires ObsoleteAreContiguous(vs, minVisible)
    ensures Dropped(vs, minVisible, i) <==> DocumentedAsDropped(vs, minVisible, i)
  {
    if 0 < i < |vs| {
      assert vs[i - 1] in vs[..i] && vs[i] in vs[i..];
      if HasObsolete(vs[i..], minVisible) && Obsolete(vs[i - 1], minVisible) {
        var v :| v in vs[i..] && Obsolete(v, minVisible);
        var k :| i <= k < |vs| && vs[k] == v;
        assert Obsolete(vs[i], minVisible);
      }
      if HasObsolete(vs[..i], minVisible) && Obsolete(vs[i], minVisible) {
        var v :| v in vs[..i] && Obsolete(v, minVisible);
        var k :| 0 <= k < i && vs[k] == v;
        assert Obsolete(vs[i - 1], minVisible);
      }
    }
  }

  /** Otherwise some version at or above the watermark, or not yet committed, is lost. */
  lemma {:induction false} GapDropsALiveVersion(vs: seq<Version>, minVisible: Lsn, i: nat, j: nat, k: nat) returns (d: nat)
    requires i < j < k < |vs| && Obsolete(vs[i], minVisible) && Obsolete(vs[k], minVisible) && !Obsolete(vs[j], minVisible)
    ensures Dropped(vs, minVisible, d) && !Obsolete(vs[d], minVisible)
    ensures !DocumentedAsDropped(vs, minVisible, d)
    decreases j - i
  {
    if Obsolete(vs[i + 1], minVisible) {
      d := GapDropsALiveVersion(vs, minVisible, i + 1, j, k);
    } else {
      d := i + 1;
      assert vs[k] in vs[d..];
    }
  }

  // ---------------------------------------------------------------------------
  // Meaning on chains in commit order
  // ---------------------------------------------------------------------------

  /** Uncommitted versions come first and commit LSNs do not grow towards older versions. */
  predicate Ordered(vs: seq<Version>) {
    forall i, j | 0 <= i < j < |vs| && vs[i].commitLsn.Some? ::
      vs[j].commitLsn.Some? && vs[j].commitLsn.value <= vs[i].commitLsn.value
  }

  /** How many leading versions are uncommitted or at or above the watermark. */
  function LiveCount(vs: seq<Version>, minVisible: Lsn): (n: nat)
    ensures n <= |vs|
    ensures forall i | 0 <= i < n :: !Obsolete(vs[i], minVisible)
    ensures n < |vs| ==> Obsolete(vs[n], minVisible)
  {
    if vs == [] || Obsolete(vs[0], minVisible) then 0 else 1 + LiveCount(vs[1..], minVisible)
  }

  /** The live versions and the base: the newest version below the watermark. */
  function LiveAndBase(vs: seq<Version>, minVisible: Lsn): seq<Version> {
    var n := LiveCount(vs, minVisible);
    if n < |vs| then vs[..n + 1] else vs
  }

  lemma OrderedObsoleteSuffix(vs: seq<Version>, minVisible: Lsn)
    requires Ordered(vs)
    ensures forall i | LiveCount(vs, minVisible) <= i < |vs| :: Obsolete(vs[i], minVisible)
  {
  }

  lemma {:induction false} SurvivorsInOrder(vs: seq<Version>, minVisible: Lsn, i: nat)
    requires Ordered(vs) && i <= |vs|
    ensures Survivors(vs, minVisible, i) ==
            if i < |LiveAndBase(vs, minVisible)| then LiveAndBase(vs, minVisible)[i..] else []
    decreases |vs| - i
  {
    OrderedObsoleteSuffix(vs, minVisible);
    var kept := LiveAndBase(vs, minVisible);
    if i < |vs| {
      SurvivorsInOrder(vs, minVisible, i + 1);
      assert vs[i] in vs[i..];
      if i < |kept| {
        assert kept[i..] == [vs[i]] + kept[i + 1..];
      }
    }
  }

  /** On an ordered chain vacuum leaves exactly the live versions and the base, and every
      snapshot at or above the watermark for which the base's creator was not active finds
      the version it found before. */
  lemma {:induction false} VacuumKeepsMeaning(chain: VersionChain, minVisible: Lsn, s: Snapshot)
    requires Ordered(Versions(chain))
    requires minVisible <= s.lsn
    requires var vs := Versions(chain);
             var n := LiveCount(vs, minVisible);
             n < |vs| ==> vs[n].createdBy !in s.activeTxns
    ensures var after := Versions(Vacuum(chain, minVisible).chain);
            && after == LiveAndBase(Versions(chain), minVisible)
            && Ordered(after)
            && FirstVisible(after, s) == FirstVisible(Versions(chain), s)
  {
    hide *;
    var vs := Versions(chain);
    VacuumIsExact(chain, minVisible);
    SurvivorsInOrder(vs, minVisible, 0);
    var kept := LiveAndBase(vs, minVisible);
    assert kept[0..] == kept;
    LiveAndBaseSuffices(vs, minVisible, s);
  }

  /** A version committed after LSN `lo` and below `w`. */
  predicate CommittedBetween(vs: seq<Version>, lo: Lsn, w: Lsn) {
    exists i | 0 <= i < |vs| :: CommittedIn(vs[i], lo, w)
  }

  predicate CommittedIn(v: Version, lo: Lsn, w: Lsn) {
    v.commitLsn.Some? && lo < v.commitLsn.value < w
  }

  /** Whoever the snapshot lists as active committed above it. */
  predicate ActiveCommitAbove(s: Snapshot, vs: seq<Version>) {
    forall i | 0 <= i < |vs| && vs[i].createdBy in s.activeTxns && vs[i].commitLsn.Some? ::
      s.lsn < vs[i].commitLsn.value
  }

  /** At any watermark, even one above the snapshot: what the snapshot finds on an ordered chain survives
      a vacuum exactly when nothing was committed between the two, or it finds nothing anyway. */
  lemma VacuumKeepsViewIff(chain: VersionChain, w: Lsn, s: Snapshot)
    requires Ordered(Versions(chain)) && ActiveCommitAbove(s, Versions(chain))
    ensures var vs, after := Versions(chain), Versions(Vacuum(chain, w).chain);
            && after <= vs
            && (CommittedBetween(vs, s.lsn, w) ==> FirstVisible(after, s).None?)
            && (FirstVisible(after, s) == FirstVisible(vs, s) <==> FirstVisible(vs, s).None? || !CommittedBetween(vs, s.lsn, w))
  {
    hide *;
    var vs := Versions(chain);
    VacuumIsExact(chain, w);
    SurvivorsInOrder(vs, w, 0);
    var kept := LiveAndBase(vs, w);
    LiveAndBasePrefix(vs, w);
    assert kept[0..] == kept;
    BaseDecides(vs, w, s);
  }

  lemma LiveAndBasePrefix(vs: seq<Version>, w: Lsn)
    requires vs != []
    ensures LiveAndBase(vs, w) != [] && LiveAndBase(vs, w) <= vs
  {
  }

  lemma BaseDecides(vs: seq<Version>, w: Lsn, s: Snapshot)
    requires Ordered(vs) && ActiveCommitAbove(s, vs)
    ensures var kept := LiveAndBase(vs, w);
            && (CommittedBetween(vs, s.lsn, w) ==> FirstVisible(kept, s).None?)
            && (FirstVisible(kept, s) == FirstVisible(vs, s) <==> FirstVisible(vs, s).None? || !CommittedBetween(vs, s.lsn, w))
  {
    hide *;
    var kept := LiveAndBase(vs, w);
    if CommittedBetween(vs, s.lsn, w) {
      KeptIsTooNew(vs, w, s);
    } else {
      KeptIsEnough(vs, w, s);
    }
  }

  lemma KeptIsTooNew(vs: seq<Version>, w: Lsn, s: Snapshot)
    requires Ordered(vs) && CommittedBetween(vs, s.lsn, w)
    ensures FirstVisible(LiveAndBase(vs, w), s).None?
  {
    hide FirstVisible;
    var kept := LiveAndBase(vs, w);
    var i :| 0 <= i < |vs| && CommittedIn(vs[i], s.lsn, w);
    assert LiveCount(vs, w) <= i;
    forall j | 0 <= j < |kept| ensures !VisibleTo(kept[j], s) {
    }
  }

  lemma KeptIsEnough(vs: seq<Version>, w: Lsn, s: Snapshot)
    requires ActiveCommitAbove(s, vs) && !CommittedBetween(vs, s.lsn, w)
    ensures FirstVisible(LiveAndBase(vs, w), s) == FirstVisible(vs, s)
  {
    var kept, n := LiveAndBase(vs, w), LiveCount(vs, w);
    assert vs == kept + vs[|kept|..];
    FirstVisibleSplit(kept, vs[|kept|..], s);
    if n < |vs| {
      assert !CommittedIn(vs[n], s.lsn, w);
      assert VisibleTo(kept[n], s);
    } else {
      assert kept == vs;
    }
    hide FirstVisible;
  }

  lemma {:induction false} LiveAndBaseSuffices(vs: seq<Version>, minVisible: Lsn, s: Snapshot)
    requires Ordered(vs) && minVisible <= s.lsn && vs != []
    requires var n := LiveCount(vs, minVisible);
             n < |vs| ==> vs[n].createdBy !in s.activeTxns
    ensures var kept := LiveAndBase(vs, minVisible);
            kept != [] && Ordered(kept) && FirstVisible(kept, s) == FirstVisible(vs, s)
  {
    hide FirstVisible;
    var kept := LiveAndBase(vs, minVisible);
    assert vs == kept + vs[|kept|..];
    FirstVisibleSplit(kept, vs[|kept|..], s);
    if |kept| < |vs| {
      assert VisibleTo(kept[|kept| - 1], s);
    } else {
      assert kept == vs;
    }
  }

  // ---------------------------------------------------------------------------
  // Which refs are handed back for freeing
  // ---------------------------------------------------------------------------

  function Refs(vs: seq<Version>): seq<ValueRef> {
    if vs == [] then [] else RefOf(vs[0]) + Refs(vs[1..])
  }

  lemma {:induction false} FreedOfObsolete(vs: seq<Version>, minVisible: Lsn)
    requires vs != [] && forall i | 0 <= i < |vs| :: Obsolete(vs[i], minVisible)
    ensures multiset(FreedFrom(vs, minVisible)) + multiset(RefOf(vs[|vs| - 1])) == multiset(Refs(vs))
  {
    hide *;
    RefsCons(vs);
    FreedCons(vs, minVisible);
    if |vs| > 1 {
      var older := vs[1..];
      assert older[|older| - 1] == vs[|vs| - 1];
      FreedOfObsolete(older, minVisible);
    }
  }

  lemma FreedCons(vs: seq<Version>, minVisible: Lsn)
    requires vs != [] && Obsolete(vs[0], minVisible)
    ensures |vs| == 1 ==> FreedFrom(vs, minVisible) == [] && Refs(vs[1..]) == []
    ensures |vs| > 1 && Obsolete(vs[1], minVisible) ==>
              multiset(FreedFrom(vs, minVisible)) == multiset(FreedFrom(vs[1..], minVisible)) + multiset(RefOf(vs[0]))
  {
    if |vs| > 1 && Obsolete(vs[1], minVisible) {
      assert vs[1] in vs[1..];
    } else if |vs| == 1 {
      assert vs[1..] == [];
    }
  }

  lemma {:induction false} FreedSkipsLive(vs: seq<Version>, minVisible: Lsn)
    ensures FreedFrom(vs, minVisible) == FreedFrom(vs[LiveCount(vs, minVisible)..], minVisible)
  {
    var n := LiveCount(vs, minVisible);
    if n == 0 {
      assert vs[0..] == vs;
    } else {
      FreedSkipsLive(vs[1..], minVisible);
      assert vs[1..][n - 1..] == vs[n..];
    }
  }

  lemma {:induction false} FreedAccount(vs: seq<Version>, minVisible: Lsn)
    requires Ordered(vs) && LiveCount(vs, minVisible) + 1 < |vs|
    ensures var n := LiveCount(vs, minVisible);
            multiset(FreedFrom(vs, minVisible)) + multiset(RefOf(vs[|vs| - 1])) ==
            multiset(RefOf(vs[n])) + multiset(Refs(vs[n + 1..]))
  {
    hide *;
    var n := LiveCount(vs, minVisible);
    OrderedObsoleteSuffix(vs, minVisible);
    FreedSkipsLive(vs, minVisible);
    FreedOfObsolete(vs[n..], minVisible);
    RefsCons(vs[n..]);
    assert vs[n..][1..] == vs[n + 1..];
    assert vs[n..][|vs| - n - 1] == vs[|vs| - 1];
  }

  lemma RefsCons(vs: seq<Version>)
    requires vs != []
    ensures multiset(Refs(vs)) == multiset(RefOf(vs[0])) + multiset(Refs(vs[1..]))
  {
  }

  lemma Cancel(freed: multiset<ValueRef>, oldest: multiset<ValueRef>, base: multiset<ValueRef>, dropped: multiset<ValueRef>)
    requires freed + oldest == base + dropped
    ensures freed == dropped <==> base == oldest
  {
    if base == oldest {
      assert freed == (freed + oldest) - oldest == (base + dropped) - base == dropped;
    }
    if freed == dropped {
      assert oldest == (freed + oldest) - freed == (base + dropped) - dropped == base;
    }
  }

  /** The refs returned are those of the dropped versions with the base's put in and the
      oldest version's left out, so they agree exactly when those two hold the same ref. */
  lemma {:induction false} FreedRefsAreRightIff(chain: VersionChain, minVisible: Lsn)
    requires Ordered(Versions(chain))
    requires LiveCount(Versions(chain), minVisible) + 1 < |Versions(chain)|
    ensures var vs, freed := Versions(chain), multiset(Vacuum(chain, minVisible).freedRefs);
            var n := LiveCount(vs, minVisible);
            && freed + multiset(RefOf(vs[|vs| - 1])) == multiset(RefOf(vs[n])) + multiset(Refs(vs[n + 1..]))
            && (freed == multiset(Refs(vs[n + 1..])) <==> RefOf(vs[n]) == RefOf(vs[|vs| - 1]))
  {
    hide *;
    var vs := Versions(chain);
    var n := LiveCount(vs, minVisible);
    VacuumIsExact(chain, minVisible);
    FreedAccount(vs, minVisible);
    SameRefs(vs[n], vs[|vs| - 1]);
    Cancel(multiset(FreedFrom(vs, minVisible)), multiset(RefOf(vs[|vs| - 1])), multiset(RefOf(vs[n])),
        multiset(Refs(vs[n + 1..])));
  }

  lemma SameRefs(a: Version, b: Version)
    ensures multiset(RefOf(a)) == multiset(RefOf(b)) <==> RefOf(a) == RefOf(b)
  {
    if a.value.External? {
      assert multiset(RefOf(a))[a.value.valueRef] == 1;
    }
    if b.value.External? {
      assert multiset(RefOf(b))[b.value.valueRef] == 1;
    }
  }

  /** A chain that holds all its values itself hands back nothing. */
  lemma {:induction false} InlineChainsFreeNothing(chain: VersionChain, minVisible: Lsn)
    requires forall i | 0 <= i < |Versions(chain)| :: Versions(chain)[i].value.InlineValue?
    ensures Vacuum(chain, minVisible).freedRefs == []
  {
    hide Vacuum;
    VacuumIsExact(chain, minVisible);
    NoRefs(Versions(chain), minVisible);
  }

  lemma {:induction false} NoRefs(vs: seq<Version>, minVisible: Lsn)
    requires forall i | 0 <= i < |vs| :: vs[i].value.InlineValue?
    ensures FreedFrom(vs, minVisible) == []
  {
    if vs != [] {
      NoRefs(vs[1..], minVisible);
    }
  }

  /** Two obsolete external versions: the survivor's own pages are handed back for freeing. */
  lemma FreedRefOfSurvivor(newer: ValueRef, older: ValueRef)
    requires newer != older
    ensures var chain := VersionChain(External(newer), 2, Some(5), Some(VersionChain(External(older), 1, Some(3), None)));
            var r := Vacuum(chain, 9);
            && r.removed == 1
            && Versions(r.chain) == [Version(External(newer), 2, Some(5))]
            && r.freedRefs == [newer]
  {
    var base := VersionChain(External(older), 1, Some(3), None);
    var chain := VersionChain(External(newer), 2, Some(5), Some(base));
    assert Versions(base) == [Head(base)];
    assert Versions(chain) == [Head(chain)] + Versions(base);
    assert CountObsolete(Versions(chain)[1..], 9) == 1;
    assert RetainObsoleteVersions(base, 9, 1, []) == Retained(base, 0, []);
  }
}
