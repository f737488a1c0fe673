/** Multi-version concurrency control as a whole: the write locks of src/txn/conflict.rs, the
    two-step commit of src/txn/transaction.rs, the version chains of a table, and the named
    snapshots and vacuums of src/engine.rs, as one machine over its interleaved steps. */
module Mvcc {
  import opened Wrappers
  import opened Transactions
  import opened VersionChains
  import Conflicts

  type Locks = Conflicts.Locks

  // ---------------------------------------------------------------------------
  // State and steps
  // ---------------------------------------------------------------------------

  /** A snapshot between its two reads: `create_snapshot` holds the registry from the name check on, reads
      the published LSN, and only then the list of active transactions. */
  datatype Creating = Creating(name: string, lsn: Lsn)

  /** How far a vacuum has got: it looks at the registry first; if that was empty it reads the published LSN
      later; and it keeps its watermark over all the tables it sweeps. Nothing is locked in between. */
  datatype Sweep = FoundNone | At(watermark: Lsn)

  datatype State = State(
    chains: map<Key, VersionChain>,
    locks: Locks,
    active: set<TransactionId>,                          // begun in the log, neither committed nor rolled back
    writeSets: map<TransactionId, map<Key, VersionValue>>, // writes not yet flushed into a table
    logged: map<TransactionId, Lsn>,                     // commit record written, not yet published
    walLsn: Lsn,                                         // LSN of the next log record
    currentLsn: Lsn,                                     // latest published LSN
    nextTxn: TransactionId,
    snapshots: map<nat, Snapshot>,
    nextSnapshot: nat,
    creating: Option<Creating>,
    vacuums: map<nat, Sweep>)                            // the vacuums in flight

  const Init := State(map[], map[], {}, map[], map[], 1, 0, 1, map[], 1, None, map[])

  datatype Step =
    | Begin
    | Put(txn: TransactionId, key: Key, value: VersionValue)
    | LogCommit(txn: TransactionId)
    | Flush(txn: TransactionId, key: Key)
    | Stamp(txn: TransactionId, key: Key)
    | Publish(txn: TransactionId)
    | Rollback(txn: TransactionId)
    | ReadLsn(name: string)
    | InsertSnapshot
    | ReleaseSnapshot(id: nat)
    | VacuumLook(vacuum: nat)
    | VacuumFallBack(vacuum: nat)
    | VacuumKeys(vacuum: nat, keys: set<Key>)
    | VacuumEnd(vacuum: nat)

  predicate UncommittedBy(c: VersionChain, txn: TransactionId) {
    c.createdBy == txn && c.commitLsn.None?
  }

  predicate Enabled(st: State, step: Step) {
    match step
    case Begin => true
    case Put(t, k, _) => t in st.active && t in st.writeSets && Conflicts.MayWrite(st.locks, k, t)
    case LogCommit(t) => t in st.active
    case Flush(t, k) => t in st.logged && t in st.writeSets && k in st.writeSets[t]
    case Stamp(t, k) => t in st.logged && k in st.chains && UncommittedBy(st.chains[k], t)
    case Publish(t) => t in st.logged && !HasPendingWork(st, t)
    case Rollback(t) => t in st.active
    case ReadLsn(name) =>
      st.creating.None? && name != "" && forall i | i in st.snapshots :: st.snapshots[i].name != name
    case InsertSnapshot => st.creating.Some?
    case ReleaseSnapshot(id) => st.creating.None? && id in st.snapshots
    case VacuumLook(v) => st.creating.None? && v !in st.vacuums
    case VacuumFallBack(v) => v in st.vacuums && st.vacuums[v].FoundNone?
    case VacuumKeys(v, _) => v in st.vacuums && st.vacuums[v].At?
    case VacuumEnd(v) => v in st.vacuums
  }

  /** Transaction `t` still has to flush or stamp `k`. */
  predicate Pending(st: State, t: TransactionId, k: Key) {
    || (t in st.writeSets && k in st.writeSets[t])
    || (k in st.chains && UncommittedBy(st.chains[k], t))
  }

  predicate HasPendingWork(st: State, t: TransactionId) {
    || (t in st.writeSets && st.writeSets[t] != map[])
    || (exists k | k in st.chains :: UncommittedBy(st.chains[k], t))
  }

  predicate IsLeast(s: set<nat>, m: nat) {
    m in s && forall t | t in s :: m <= t
  }

  /** The least element of a non-empty set. */
  ghost function Least(s: set<nat>): (m: nat)
    requires s != {}
    ensures IsLeast(s, m)
  {
    LeastExists(s);
    var m :| IsLeast(s, m);
    m
  }

  lemma {:induction false} LeastExists(s: set<nat>)
    requires s != {}
    ensures exists m :: IsLeast(s, m)
  {
    var x :| x in s;
    var rest := s - {x};
    if rest == {} {
      assert s == {x};
      assert IsLeast(s, x);
    } else {
      LeastExists(rest);
      var b :| IsLeast(rest, b);
      assert s == rest + {x};
      assert IsLeast(s, if x <= b then x else b);
    }
  }

  function SnapshotLsns(snapshots: map<nat, Snapshot>): set<Lsn> {
    set i | i in snapshots :: snapshots[i].lsn
  }

  /** `min_visible_lsn` as a vacuum meets it. */
  ghost function Look(snapshots: map<nat, Snapshot>): (found: Sweep)
    ensures found.FoundNone? <==> snapshots == map[]
    ensures found.At? ==> IsLeast(SnapshotLsns(snapshots), found.watermark)
    ensures found.At? ==> forall i | i in snapshots :: found.watermark <= snapshots[i].lsn
  {
    var lsns := SnapshotLsns(snapshots);
    assert forall i | i in snapshots :: snapshots[i].lsn in lsns;
    if lsns == {} then FoundNone else At(Least(lsns))
  }

  function Prepend(chains: map<Key, VersionChain>, k: Key, value: VersionValue, t: TransactionId): VersionChain {
    VersionChain(value, t, None, if k in chains then Some(chains[k]) else None)
  }

  /** An operation the source refuses returns an error and leaves the state as it was. */
  ghost function Apply(st: State, step: Step): State {
    if !Enabled(st, step) then st
    else match step
      case Begin =>
        st.(active := st.active + {st.nextTxn}, writeSets := st.writeSets[st.nextTxn := map[]],
            nextTxn := st.nextTxn + 1, walLsn := st.walLsn + 1)
      case Put(t, k, v) =>
        st.(locks := st.locks[k := t], writeSets := st.writeSets[t := st.writeSets[t][k := v]], walLsn := st.walLsn + 1)
      case LogCommit(t) =>
        st.(active := st.active - {t}, logged := st.logged[t := st.walLsn], walLsn := st.walLsn + 1)
      case Flush(t, k) =>
        st.(chains := st.chains[k := Prepend(st.chains, k, st.writeSets[t][k], t)],
            writeSets := st.writeSets[t := st.writeSets[t] - {k}])
      case Stamp(t, k) =>
        st.(chains := st.chains[k := st.chains[k].(commitLsn := Some(st.logged[t]))])
      case Publish(t) =>
        st.(currentLsn := st.logged[t], logged := st.logged - {t}, locks := Conflicts.Released(st.locks, t))
      case Rollback(t) =>
        st.(active := st.active - {t}, writeSets := st.writeSets - {t}, locks := Conflicts.Released(st.locks, t),
            walLsn := st.walLsn + 1)
      case ReadLsn(name) =>
        st.(creating := Some(Creating(name, st.currentLsn)))
      case InsertSnapshot =>
        st.(snapshots := st.snapshots[st.nextSnapshot := TakeSnapshot(st)], nextSnapshot := st.nextSnapshot + 1, creating := None)
      case ReleaseSnapshot(id) =>
        st.(snapshots := st.snapshots - {id})
      case VacuumLook(v) =>
        st.(vacuums := st.vacuums[v := Look(st.snapshots)])
      case VacuumFallBack(v) =>
        st.(vacuums := st.vacuums[v := At(st.currentLsn)])
      case VacuumKeys(v, keys) =>
        st.(chains := Swept(st.chains, keys, st.vacuums[v].watermark))
      case VacuumEnd(v) =>
        st.(vacuums := st.vacuums - {v})
  }

  function Swept(chains: map<Key, VersionChain>, keys: set<Key>, w: Lsn): map<Key, VersionChain> {
    map k | k in chains :: if k in keys then Vacuum(chains[k], w).chain else chains[k]
  }

  /** The snapshot whose LSN has been read, with the transactions that are active now. */
  ghost function TakeSnapshot(st: State): Snapshot
    requires st.creating.Some?
  {
    var c := st.creating.value;
    Snapshot(st.nextSnapshot, c.name, c.lsn, if st.active == {} then 0 else Least(st.active), st.active)
  }

  /** The state after a run, from the first step to the last. */
  ghost function Exec(st: State, steps: seq<Step>): State
    decreases |steps|
  {
    if steps == [] then st else Exec(Apply(st, steps[0]), steps[1..])
  }

  /** The version a snapshot finds for a key. */
  function View(st: State, s: Snapshot, k: Key): Option<Version> {
    if k in st.chains then FirstVisible(Versions(st.chains[k]), s) else None
  }

  // ---------------------------------------------------------------------------
  // The invariant
  // ---------------------------------------------------------------------------

  /** What every chain satisfies in every reachable state. */
  predicate VersionsOk(st: State, vs: seq<Version>) {
    && Ordered(vs)
    && (forall i | 1 <= i < |vs| :: vs[i].commitLsn.Some?)
    && (forall i | 0 <= i < |vs| :: vs[i].createdBy < st.nextTxn && vs[i].createdBy !in st.active)
    && (forall i | 0 <= i < |vs| && vs[i].commitLsn.Some? :: vs[i].commitLsn.value < st.walLsn)
  }

  predicate AllBelow(vs: seq<Version>, lsn: Lsn) {
    forall i | 0 <= i < |vs| && vs[i].commitLsn.Some? :: vs[i].commitLsn.value < lsn
  }

  predicate ChainsOk(st: State) {
    && (forall k | k in st.chains :: VersionsOk(st, Versions(st.chains[k])))
    && (forall k | k in st.chains && st.chains[k].commitLsn.None? ::
          var t := st.chains[k].createdBy;
          && t in st.logged && k in st.locks && st.locks[k] == t
          && (t in st.writeSets ==> k !in st.writeSets[t]))
  }

  /** Whoever is committing a key commits it above everything the key already holds. */
  predicate PendingOk(st: State) {
    forall t, k | t in st.logged && k in st.chains && Pending(st, t, k) ::
      AllBelow(Versions(st.chains[k]), st.logged[t])
  }

  predicate TxnsOk(st: State) {
    && (forall t | t in st.active :: t < st.nextTxn && t !in st.logged && t in st.writeSets)
    && (forall t | t in st.logged :: t < st.nextTxn && st.logged[t] < st.walLsn)
    && (forall t, k | t in st.writeSets && (t in st.active || t in st.logged) && k in st.writeSets[t] ::
          k in st.locks && st.locks[k] == t)
    && st.currentLsn < st.walLsn
  }

  /** A transaction a snapshot lists as active commits above the snapshot, if at all. */
  predicate SnapshotOk(st: State, s: Snapshot) {
    && s.lsn < st.walLsn
    && s.WellFormed()
    && (forall t | t in s.activeTxns :: t < st.nextTxn && (t in st.logged ==> s.lsn < st.logged[t]))
    && (forall k | k in st.chains :: ActiveCommitAbove(s, Versions(st.chains[k])))
  }

  predicate SnapshotsOk(st: State) {
    forall i | i in st.snapshots :: i < st.nextSnapshot && st.snapshots[i].id == i && SnapshotOk(st, st.snapshots[i])
  }

  /** LSNs that were read once lie below everything that will be committed. */
  predicate ReadsOk(st: State) {
    && (st.creating.Some? ==> st.creating.value.lsn < st.walLsn)
    && (forall v | v in st.vacuums && st.vacuums[v].At? :: st.vacuums[v].watermark < st.walLsn)
  }

  predicate Inv(st: State) {
    ChainsOk(st) && PendingOk(st) && TxnsOk(st) && SnapshotsOk(st) && ReadsOk(st)
  }

  lemma InitInv()
    ensures Inv(Init)
  {
  }

  /** A transaction's own step: the chains and the registry stay, LSNs only grow. */
  lemma RegistryStays(st: State, st': State)
    requires SnapshotsOk(st) && ReadsOk(st)
    requires st'.chains == st.chains && st.walLsn <= st'.walLsn && st.nextTxn <= st'.nextTxn
    requires st'.snapshots == st.snapshots && st'.nextSnapshot == st.nextSnapshot
    requires st'.creating == st.creating && st'.vacuums == st.vacuums
    requires forall t | t in st'.logged :: (t in st.logged && st'.logged[t] == st.logged[t]) || st.walLsn <= st'.logged[t]
    requires forall k | k in st.chains :: VersionsOk(st, Versions(st.chains[k]))
    requires forall t | t in st'.active :: t in st.active || st.nextTxn <= t
    ensures SnapshotsOk(st') && ReadsOk(st')
    ensures forall k | k in st.chains :: VersionsOk(st', Versions(st.chains[k]))
  {
    hide Versions, Snapshot.WellFormed, ActiveCommitAbove, Ordered;
    forall k | k in st.chains ensures VersionsOk(st', Versions(st.chains[k])) {
      assert VersionsOk(st, Versions(st.chains[k]));
    }
    forall i | i in st.snapshots ensures SnapshotOk(st', st.snapshots[i]) {
      assert SnapshotOk(st, st.snapshots[i]);
    }
  }

  /** A step of the registry or of a vacuum that reads: chains and transactions stay. */
  lemma TransactionsStay(st: State, st': State)
    requires ChainsOk(st) && PendingOk(st) && TxnsOk(st)
    requires st' == st.(snapshots := st'.snapshots, nextSnapshot := st'.nextSnapshot, creating := st'.creating,
                        vacuums := st'.vacuums)
    ensures ChainsOk(st') && PendingOk(st') && TxnsOk(st')
    ensures forall s :: SnapshotOk(st', s) <==> SnapshotOk(st, s)
  {
    hide Versions, Ordered, AllBelow, ActiveCommitAbove, Snapshot.WellFormed;
    forall k | k in st.chains ensures VersionsOk(st', Versions(st.chains[k])) {
      assert VersionsOk(st, Versions(st.chains[k]));
    }
    forall t, k | t in st.logged && k in st.chains && Pending(st', t, k) ensures AllBelow(Versions(st.chains[k]), st.logged[t]) {
      assert Pending(st, t, k);
    }
  }

  lemma VersionsBelow(st: State, vs: seq<Version>)
    requires VersionsOk(st, vs)
    ensures AllBelow(vs, st.walLsn)
  {
  }

  lemma BeginKeepsInv(st: State)
    requires Inv(st)
    ensures Inv(Apply(st, Begin))
  {
    hide Versions, VersionsOk, SnapshotsOk, ReadsOk, AllBelow, Swept, Look, TakeSnapshot, Prepend;
    RegistryStays(st, Apply(st, Begin));
  }

  lemma PutKeepsInv(st: State, t: TransactionId, k: Key, v: VersionValue)
    requires Inv(st) && Enabled(st, Put(t, k, v))
    ensures Inv(Apply(st, Put(t, k, v)))
  {
    hide Versions, VersionsOk, SnapshotsOk, ReadsOk, AllBelow, Swept, Look, TakeSnapshot, Prepend;
    RegistryStays(st, Apply(st, Put(t, k, v)));
  }

  lemma LogCommitKeepsInv(st: State, t: TransactionId)
    requires Inv(st) && Enabled(st, LogCommit(t))
    ensures Inv(Apply(st, LogCommit(t)))
  {
    hide Versions, VersionsOk, SnapshotsOk, ReadsOk, AllBelow, Swept, Look, TakeSnapshot, Prepend;
    forall k | k in st.chains ensures AllBelow(Versions(st.chains[k]), st.walLsn) {
      VersionsBelow(st, Versions(st.chains[k]));
    }
    RegistryStays(st, Apply(st, LogCommit(t)));
  }

  lemma PublishKeepsInv(st: State, t: TransactionId)
    requires Inv(st) && Enabled(st, Publish(t))
    ensures Inv(Apply(st, Publish(t)))
  {
    hide Versions, VersionsOk, SnapshotsOk, ReadsOk, AllBelow, Swept, Look, TakeSnapshot, Prepend;
    RegistryStays(st, Apply(st, Publish(t)));
  }

  lemma RollbackKeepsInv(st: State, t: TransactionId)
    requires Inv(st) && Enabled(st, Rollback(t))
    ensures Inv(Apply(st, Rollback(t)))
  {
    hide Versions, VersionsOk, SnapshotsOk, ReadsOk, AllBelow, Swept, Look, TakeSnapshot, Prepend;
    RegistryStays(st, Apply(st, Rollback(t)));
  }

  lemma ReadLsnKeepsInv(st: State, name: string)
    requires Inv(st)
    ensures Inv(Apply(st, ReadLsn(name)))
  {
    hide Versions, ChainsOk, PendingOk, SnapshotOk;
    TransactionsStay(st, Apply(st, ReadLsn(name)));
  }

  lemma InsertSnapshotKeepsInv(st: State)
    requires Inv(st) && Enabled(st, InsertSnapshot)
    ensures Inv(Apply(st, InsertSnapshot))
  {
    TransactionsStay(st, Apply(st, InsertSnapshot));
    NewSnapshotIsOk(st);
    hide Versions, ChainsOk, PendingOk, SnapshotOk, TxnsOk;
  }

  lemma NewSnapshotIsOk(st: State)
    requires Inv(st) && Enabled(st, InsertSnapshot)
    ensures SnapshotOk(st, TakeSnapshot(st))
  {
    hide Versions, Ordered, PendingOk, SnapshotsOk, AllBelow;
    forall k | k in st.chains ensures ActiveCommitAbove(TakeSnapshot(st), Versions(st.chains[k])) {
      assert VersionsOk(st, Versions(st.chains[k]));
    }
  }

  lemma ReleaseSnapshotKeepsInv(st: State, id: nat)
    requires Inv(st) && Enabled(st, ReleaseSnapshot(id))
    ensures Inv(Apply(st, ReleaseSnapshot(id)))
  {
    hide Versions, ChainsOk, PendingOk, SnapshotOk, TxnsOk;
    TransactionsStay(st, Apply(st, ReleaseSnapshot(id)));
  }

  /** Looking, falling back and ending touch the vacuum alone. */
  lemma VacuumReadsKeepInv(st: State, step: Step)
    requires Inv(st) && (step.VacuumLook? || step.VacuumFallBack? || step.VacuumEnd?)
    ensures Inv(Apply(st, step))
  {
    LookIsBelow(st);
    assert st.currentLsn < st.walLsn;
    hide Versions, ChainsOk, PendingOk, SnapshotOk, TxnsOk, Look;
    TransactionsStay(st, Apply(st, step));
  }

  lemma LookIsBelow(st: State)
    requires SnapshotsOk(st)
    ensures Look(st.snapshots).At? ==> Look(st.snapshots).watermark < st.walLsn
  {
    if Look(st.snapshots).At? {
      var i :| i in st.snapshots && st.snapshots[i].lsn == Look(st.snapshots).watermark;
      assert SnapshotOk(st, st.snapshots[i]);
    }
  }

  /** Replacing the chain of one key: what the new versions and the new head must satisfy. */
  ghost predicate GoodChain(st: State, k: Key, c: VersionChain) {
    var vs := Versions(c);
    && VersionsOk(st, vs)
    && (c.commitLsn.None? ==>
          && c.createdBy in st.logged && k in st.locks && st.locks[k] == c.createdBy
          && (c.createdBy in st.writeSets ==> k !in st.writeSets[c.createdBy]))
    && (forall t | t in st.logged && ((t in st.writeSets && k in st.writeSets[t]) || UncommittedBy(c, t)) ::
          AllBelow(vs, st.logged[t]))
    && (forall i | i in st.snapshots :: ActiveCommitAbove(st.snapshots[i], vs))
  }

  lemma ChainIsGood(st: State, k: Key)
    requires Inv(st) && k in st.chains
    ensures GoodChain(st, k, st.chains[k])
  {
    hide Versions, Ordered, Snapshot.WellFormed, VersionsOk, AllBelow, ActiveCommitAbove;
    assert forall t | t in st.logged && ((t in st.writeSets && k in st.writeSets[t]) || UncommittedBy(st.chains[k], t)) ::
        Pending(st, t, k);
  }

  /** The invariant is what every chain satisfies, and the bookkeeping without the chains. */
  lemma InvFromChains(st: State)
    requires Inv(st.(chains := map[]))
    requires forall k | k in st.chains :: GoodChain(st, k, st.chains[k])
    ensures Inv(st)
  {
    hide Versions, Ordered, Snapshot.WellFormed, VersionsOk, AllBelow, ActiveCommitAbove;
    var bare := st.(chains := map[]);
    assert ChainsOk(st);
    assert TxnsOk(bare) && TxnsOk(st);
    forall i | i in st.snapshots ensures i < st.nextSnapshot && st.snapshots[i].id == i && SnapshotOk(st, st.snapshots[i]) {
      assert SnapshotOk(bare, st.snapshots[i]);
    }
    forall t, k | t in st.logged && k in st.chains && Pending(st, t, k)
      ensures AllBelow(Versions(st.chains[k]), st.logged[t])
    {
      assert GoodChain(st, k, st.chains[k]);
    }
  }

  lemma InvWithoutChains(st: State)
    requires Inv(st)
    ensures Inv(st.(chains := map[]))
  {
    hide Versions, Ordered, Snapshot.WellFormed, VersionsOk, AllBelow, ActiveCommitAbove;
  }

  lemma FlushKeepsInv(st: State, t: TransactionId, k: Key)
    requires Inv(st) && Enabled(st, Flush(t, k))
    ensures Inv(Apply(st, Flush(t, k)))
  {
    var st' := Apply(st, Flush(t, k));
    forall j | j in st'.chains ensures GoodChain(st', j, st'.chains[j]) {
      if j == k {
        FlushedChainIsGood(st, t, k);
      } else {
        ChainIsGood(st, j);
        OtherChainStaysGood(st, st', j, t, k);
      }
    }
    InvWithoutChains(st);
    FlushBookkeeping(st, t, k);
    InvFromChains(st');
  }

  lemma FlushBookkeeping(st: State, t: TransactionId, k: Key)
    requires Inv(st.(chains := map[])) && Enabled(st, Flush(t, k))
    ensures Inv(Apply(st, Flush(t, k)).(chains := map[]))
  {
    hide Versions, Ordered, Snapshot.WellFormed;
  }

  lemma OtherChainStaysGood(st: State, st': State, j: Key, t: TransactionId, k: Key)
    requires j in st.chains && j != k && GoodChain(st, j, st.chains[j])
    requires t in st.writeSets && k in st.writeSets[t]
    requires st' == st.(chains := st'.chains, writeSets := st.writeSets[t := st.writeSets[t] - {k}])
    ensures GoodChain(st', j, st.chains[j])
  {
    hide Versions, Ordered, AllBelow, ActiveCommitAbove;
  }

  /** A newer version may go on top of committed ones that all lie below it. */
  lemma VersionsOkCons(st: State, h: Version, older: seq<Version>)
    requires VersionsOk(st, older) && forall i | 0 <= i < |older| :: older[i].commitLsn.Some?
    requires h.createdBy < st.nextTxn && h.createdBy !in st.active
    requires h.commitLsn.Some? ==> h.commitLsn.value < st.walLsn && AllBelow(older, h.commitLsn.value)
    ensures VersionsOk(st, [h] + older)
  {
  }

  lemma AllBelowCons(h: Version, older: seq<Version>, lsn: Lsn)
    requires AllBelow(older, lsn) && (h.commitLsn.Some? ==> h.commitLsn.value < lsn)
    ensures AllBelow([h] + older, lsn)
  {
  }

  lemma ActiveCommitAboveCons(s: Snapshot, h: Version, older: seq<Version>)
    requires ActiveCommitAbove(s, older)
    requires h.createdBy in s.activeTxns && h.commitLsn.Some? ==> s.lsn < h.commitLsn.value
    ensures ActiveCommitAbove(s, [h] + older)
  {
  }

  /** The part of a chain below its head. */
  lemma TailIsGood(st: State, k: Key, c: VersionChain)
    requires GoodChain(st, k, c)
    ensures var older := Versions(c)[1..];
            && VersionsOk(st, older)
            && (forall i | 0 <= i < |older| :: older[i].commitLsn.Some?)
            && (forall i | i in st.snapshots :: ActiveCommitAbove(st.snapshots[i], older))
            && (forall t | t in st.logged && UncommittedBy(c, t) :: AllBelow(older, st.logged[t]))
  {
    hide Versions, Snapshot.WellFormed;
    var vs, older := Versions(c), Versions(c)[1..];
    assert forall i | 0 <= i < |older| :: older[i] == vs[i + 1];
  }

  /** A flush moves the value from the write set to the chain; nobody else is about to flush the key. */
  lemma FlushIs(st: State, t: TransactionId, k: Key)
    requires Inv(st) && Enabled(st, Flush(t, k))
    ensures Apply(st, Flush(t, k)) ==
            st.(chains := st.chains[k := Prepend(st.chains, k, st.writeSets[t][k], t)],
                writeSets := st.writeSets[t := st.writeSets[t] - {k}])
    ensures k in st.locks && st.locks[k] == t
    ensures forall u | u in st.logged && u in st.writeSets && k in st.writeSets[u] :: u == t
  {
    hide ChainsOk, PendingOk, SnapshotsOk, ReadsOk;
  }

  lemma SameVersionsOk(st: State, st': State, vs: seq<Version>)
    requires st'.nextTxn == st.nextTxn && st'.active == st.active && st'.walLsn == st.walLsn
    ensures VersionsOk(st', vs) <==> VersionsOk(st, vs)
  {
    hide Ordered;
  }

  lemma FlushedChainIsGood(st: State, t: TransactionId, k: Key)
    requires Inv(st) && Enabled(st, Flush(t, k))
    ensures GoodChain(Apply(st, Flush(t, k)), k, Prepend(st.chains, k, st.writeSets[t][k], t))
  {
    var st', c := Apply(st, Flush(t, k)), Prepend(st.chains, k, st.writeSets[t][k], t);
    FlushIs(st, t, k);
    hide Apply, Inv, Ordered, Snapshot.WellFormed, AllBelow, ActiveCommitAbove, VersionsOk;
    var older := if k in st.chains then Versions(st.chains[k]) else [];
    assert Versions(c) == [Head(c)] + older;
    hide Versions;
    OlderIsGood(st, t, k, older);
    SameVersionsOk(st, st', [Head(c)] + older);
    VersionsOkCons(st, Head(c), older);
    AllBelowCons(Head(c), older, st.logged[t]);
    forall i | i in st.snapshots ensures ActiveCommitAbove(st.snapshots[i], Versions(c)) {
      ActiveCommitAboveCons(st.snapshots[i], Head(c), older);
    }
  }

  /** What lies below a version that is about to be flushed. */
  lemma OlderIsGood(st: State, t: TransactionId, k: Key, older: seq<Version>)
    requires Inv(st) && Enabled(st, Flush(t, k))
    requires older == if k in st.chains then Versions(st.chains[k]) else []
    ensures VersionsOk(st, older) && AllBelow(older, st.logged[t]) && t < st.nextTxn && t !in st.active
    ensures forall i | 0 <= i < |older| :: older[i].commitLsn.Some?
    ensures forall i | i in st.snapshots :: ActiveCommitAbove(st.snapshots[i], older)
  {
    hide Ordered, Snapshot.WellFormed;
    if k in st.chains {
      assert Pending(st, t, k) && st.chains[k].commitLsn.Some?;
      assert Versions(st.chains[k])[0] == Head(st.chains[k]);
      assert VersionsOk(st, older);
      forall i | i in st.snapshots ensures ActiveCommitAbove(st.snapshots[i], older) {
        assert SnapshotOk(st, st.snapshots[i]);
      }
    } else {
      EmptyIsOk(st);
    }
    hide Versions;
  }

  lemma EmptyIsOk(st: State)
    ensures VersionsOk(st, [])
  {
  }

  lemma StampKeepsInv(st: State, t: TransactionId, k: Key)
    requires Inv(st) && Enabled(st, Stamp(t, k))
    ensures Inv(Apply(st, Stamp(t, k)))
  {
    var st' := Apply(st, Stamp(t, k));
    forall j | j in st'.chains ensures GoodChain(st', j, st'.chains[j]) {
      if j == k {
        StampedChainIsGood(st, t, k);
      } else {
        ChainIsGood(st, j);
        assert GoodChain(st, j, st.chains[j]);
        SameBookkeeping(st, st', j, st.chains[j]);
      }
    }
    InvWithoutChains(st);
    assert st'.(chains := map[]) == st.(chains := map[]);
    InvFromChains(st');
  }

  lemma SameBookkeeping(st: State, st': State, j: Key, c: VersionChain)
    requires GoodChain(st, j, c) && st' == st.(chains := st'.chains)
    ensures GoodChain(st', j, c)
  {
    hide Versions, Ordered, AllBelow, ActiveCommitAbove;
  }

  lemma StampedChainIsGood(st: State, t: TransactionId, k: Key)
    requires Inv(st) && Enabled(st, Stamp(t, k))
    ensures GoodChain(st, k, st.chains[k].(commitLsn := Some(st.logged[t])))
  {
    var c := st.chains[k];
    var c' := c.(commitLsn := Some(st.logged[t]));
    var older := OlderVersions(c.prevVersion);
    assert Versions(c)[1..] == older;
    assert Versions(c') == [Head(c')] + older;
    ChainIsGood(st, k);
    TailIsGood(st, k, c);
    assert c.createdBy < st.nextTxn && t !in st.active by { assert Versions(c)[0] == Head(c); }
    hide Versions, OlderVersions, Ordered, Snapshot.WellFormed;
    VersionsOkCons(st, Head(c'), older);
    forall i | i in st.snapshots ensures ActiveCommitAbove(st.snapshots[i], Versions(c')) {
      assert SnapshotOk(st, st.snapshots[i]);
      ActiveCommitAboveCons(st.snapshots[i], Head(c'), older);
    }
    hide AllBelow, ActiveCommitAbove;
  }

  lemma VacuumedChain(c: VersionChain, w: Lsn)
    requires Ordered(Versions(c))
    ensures Versions(Vacuum(c, w).chain) <= Versions(c)
    ensures Head(Vacuum(c, w).chain) == Head(c)
  {
    hide Versions, Vacuum, FirstVisible;
    VacuumKeepsViewIff(c, w, Snapshot(0, "", 0, 0, {}));
  }

  lemma PrefixIsGood(st: State, k: Key, c: VersionChain, c': VersionChain)
    requires GoodChain(st, k, c)
    requires Versions(c') <= Versions(c) && Head(c') == Head(c)
    ensures GoodChain(st, k, c')
  {
    hide Versions;
  }

  lemma VacuumKeepsInv(st: State, v: nat, keys: set<Key>)
    requires Inv(st) && Enabled(st, VacuumKeys(v, keys))
    ensures Inv(Apply(st, VacuumKeys(v, keys)))
  {
    var st' := Apply(st, VacuumKeys(v, keys));
    forall k | k in st'.chains ensures GoodChain(st', k, st'.chains[k]) {
      ChainIsGood(st, k);
      if k in keys {
        VacuumedChain(st.chains[k], st.vacuums[v].watermark);
        PrefixIsGood(st, k, st.chains[k], st'.chains[k]);
      }
      SameBookkeeping(st, st', k, st'.chains[k]);
    }
    InvWithoutChains(st);
    assert st'.(chains := map[]) == st.(chains := map[]);
    InvFromChains(st');
  }

  lemma StepKeepsInv(st: State, step: Step)
    requires Inv(st)
    ensures Inv(Apply(st, step))
  {
    if Enabled(st, step) {
      match step
      case Begin => BeginKeepsInv(st);
      case Put(t, k, v) => PutKeepsInv(st, t, k, v);
      case LogCommit(t) => LogCommitKeepsInv(st, t);
      case Flush(t, k) => FlushKeepsInv(st, t, k);
      case Stamp(t, k) => StampKeepsInv(st, t, k);
      case Publish(t) => PublishKeepsInv(st, t);
      case Rollback(t) => RollbackKeepsInv(st, t);
      case ReadLsn(name) => ReadLsnKeepsInv(st, name);
      case InsertSnapshot => InsertSnapshotKeepsInv(st);
      case ReleaseSnapshot(id) => ReleaseSnapshotKeepsInv(st, id);
      case VacuumKeys(v, keys) => VacuumKeepsInv(st, v, keys);
      case _ => VacuumReadsKeepInv(st, step);
    }
  }

  lemma {:induction false} RunKeepsInv(st: State, steps: seq<Step>)
    requires Inv(st)
    ensures Inv(Exec(st, steps))
    decreases |steps|
  {
    if steps != [] {
      StepKeepsInv(st, steps[0]);
      RunKeepsInv(Apply(st, steps[0]), steps[1..]);
    }
  }

  lemma {:induction false} ExecSplit(st: State, p: seq<Step>, q: seq<Step>)
    ensures Exec(st, p + q) == Exec(Exec(st, p), q)
    decreases |p|
  {
    if p == [] {
      assert p + q == q;
    } else {
      assert (p + q)[1..] == p[1..] + q;
      ExecSplit(Apply(st, p[0]), p[1..], q);
    }
  }

  // ---------------------------------------------------------------------------
  // Snapshot stability
  // ---------------------------------------------------------------------------

  /** No commit at or below `lsn` has work left to do. */
  ghost predicate SettledBelow(st: State, lsn: Lsn) {
    forall t, k | t in st.logged && Pending(st, t, k) :: lsn < st.logged[t]
  }

  /** Something on key `k` is committed, or will be by a commit that is already in the log, after LSN `lo`
      and below `w`. */
  ghost predicate CommitBetween(st: State, k: Key, lo: Lsn, w: Lsn) {
    || (k in st.chains && CommittedBetween(Versions(st.chains[k]), lo, w))
    || (exists t | t in st.logged && Pending(st, t, k) :: lo < st.logged[t] < w)
  }

  /** The vacuum may take away what a snapshot at `lsn` finds for `k`: it has looked at an empty registry and
      not yet read its watermark, or its watermark lies above a commit that hides the snapshot's version. */
  ghost predicate Endangers(st: State, sweep: Sweep, lsn: Lsn, k: Key) {
    match sweep
    case FoundNone => true
    case At(w) => CommitBetween(st, k, lsn, w)
  }

  /** No vacuum in flight endangers anything the snapshot finds. */
  ghost predicate Undisturbed(st: State, s: Snapshot) {
    forall v, k | v in st.vacuums && View(st, s, k).Some? :: !Endangers(st, st.vacuums[v], s.lsn, k)
  }

  lemma StepKeepsSettled(st: State, step: Step, lsn: Lsn)
    requires Inv(st) && SettledBelow(st, lsn) && lsn < st.walLsn
    ensures SettledBelow(Apply(st, step), lsn) && lsn < Apply(st, step).walLsn
  {
    var st' := Apply(st, step);
    LogGrows(st, step);
    forall t, k | t in st'.logged && Pending(st', t, k) ensures lsn < st'.logged[t] {
      PendingFromBefore(st, step, t, k);
    }
    hide Apply, Inv, Pending;
  }

  /** Work that is pending after a step was pending before, or belongs to a commit that was just logged. */
  lemma PendingFromBefore(st: State, step: Step, t: TransactionId, k: Key)
    requires Inv(st) && t in Apply(st, step).logged && Pending(Apply(st, step), t, k)
    ensures Apply(st, step).logged[t] == st.walLsn
            || (t in st.logged && st.logged[t] == Apply(st, step).logged[t] && Pending(st, t, k))
  {
    hide Versions, VersionsOk, SnapshotsOk, PendingOk, ReadsOk, Swept, Look, TakeSnapshot;
    if step.VacuumKeys? && Enabled(st, step) {
      HeadsStay(st, step.keys, st.vacuums[step.vacuum].watermark);
    }
  }

  lemma HeadsStay(st: State, keys: set<Key>, w: Lsn)
    requires ChainsOk(st)
    ensures var swept := Swept(st.chains, keys, w);
            && swept.Keys == st.chains.Keys
            && forall k | k in st.chains ::
                 swept[k].createdBy == st.chains[k].createdBy && swept[k].commitLsn == st.chains[k].commitLsn
  {
    hide Versions, Vacuum;
    forall k | k in st.chains ensures Head(Vacuum(st.chains[k], w).chain) == Head(st.chains[k]) {
      assert VersionsOk(st, Versions(st.chains[k]));
      VacuumedChain(st.chains[k], w);
    }
  }

  lemma LogGrows(st: State, step: Step)
    ensures st.walLsn <= Apply(st, step).walLsn
  {
    hide Swept, Look, TakeSnapshot;
  }

  /** A held snapshot that is settled and undisturbed finds the same version for every key after any step. */
  lemma StepKeepsView(st: State, step: Step, id: nat, k: Key)
    requires Inv(st) && id in st.snapshots
    requires SettledBelow(st, st.snapshots[id].lsn) && Undisturbed(st, st.snapshots[id])
    ensures View(Apply(st, step), st.snapshots[id], k) == View(st, st.snapshots[id], k)
  {
    hide Versions, Vacuum, FirstVisible, Look, TakeSnapshot, Inv;
    if Enabled(st, step) {
      match step
      case Flush(t, j) => if j == k { FlushKeepsView(st, t, k, st.snapshots[id]); }
      case Stamp(t, j) => if j == k { StampKeepsView(st, t, k, st.snapshots[id]); }
      case VacuumKeys(v, keys) =>
        if k in st.chains && k in keys {
          VacuumKeepsView(st, v, id, k);
        }
      case _ =>
    }
  }

  /** An uncommitted version is visible to nobody. */
  lemma FlushKeepsView(st: State, t: TransactionId, k: Key, s: Snapshot)
    requires Enabled(st, Flush(t, k))
    ensures FirstVisible(Versions(Prepend(st.chains, k, st.writeSets[t][k], t)), s) == View(st, s, k)
  {
    var c := Prepend(st.chains, k, st.writeSets[t][k], t);
    var older := if k in st.chains then Versions(st.chains[k]) else [];
    assert Versions(c) == [Head(c)] + older;
    FirstVisibleSplit([Head(c)], older, s);
    assert !VisibleTo(Head(c), s);
  }

  lemma StampKeepsView(st: State, t: TransactionId, k: Key, s: Snapshot)
    requires Enabled(st, Stamp(t, k)) && SettledBelow(st, s.lsn)
    ensures FirstVisible(Versions(st.chains[k].(commitLsn := Some(st.logged[t]))), s) == FirstVisible(Versions(st.chains[k]), s)
  {
    var c := st.chains[k];
    var c' := c.(commitLsn := Some(st.logged[t]));
    assert Pending(st, t, k);
    FirstVisibleSplit([Head(c)], OlderVersions(c.prevVersion), s);
    FirstVisibleSplit([Head(c')], OlderVersions(c.prevVersion), s);
    assert !VisibleTo(Head(c), s) && !VisibleTo(Head(c'), s);
  }

  lemma VacuumKeepsView(st: State, v: nat, id: nat, k: Key)
    requires Inv(st) && id in st.snapshots && k in st.chains && v in st.vacuums && st.vacuums[v].At?
    requires Undisturbed(st, st.snapshots[id])
    ensures var s, c := st.snapshots[id], st.chains[k];
            FirstVisible(Versions(Vacuum(c, st.vacuums[v].watermark).chain), s) == FirstVisible(Versions(c), s)
  {
    hide Versions, Vacuum, FirstVisible, ActiveCommitAbove;
    var s, c, w := st.snapshots[id], st.chains[k], st.vacuums[v].watermark;
    assert VersionsOk(st, Versions(c)) && SnapshotOk(st, s);
    assert View(st, s, k).Some? ==> !Endangers(st, st.vacuums[v], s.lsn, k);
    VacuumKeepsViewIff(c, w, s);
  }

  /** What would endanger a snapshot after a step did so before. */
  lemma StepKeepsUndisturbed(st: State, step: Step, id: nat)
    requires Inv(st) && id in st.snapshots
    requires SettledBelow(st, st.snapshots[id].lsn) && Undisturbed(st, st.snapshots[id])
    ensures Undisturbed(Apply(st, step), st.snapshots[id])
  {
    hide Apply, View, CommitBetween, Inv, SettledBelow;
    var st', s := Apply(st, step), st.snapshots[id];
    forall v, k | v in st'.vacuums && View(st', s, k).Some? ensures !Endangers(st', st'.vacuums[v], s.lsn, k) {
      StepKeepsView(st, step, id, k);
      SweepFromBefore(st, step, id, v);
      assert v in st.vacuums ==> !Endangers(st, st.vacuums[v], s.lsn, k);
      if st'.vacuums[v].At? {
        CommitBetweenFromBefore(st, step, k, s.lsn, st'.vacuums[v].watermark);
        NoRoomBetween(st, k, s.lsn, st'.vacuums[v].watermark);
      }
    }
  }

  /** A vacuum that looks while a snapshot is held gets a watermark at or below it. */
  lemma SweepFromBefore(st: State, step: Step, id: nat, v: nat)
    requires Inv(st) && id in st.snapshots && v in Apply(st, step).vacuums
    ensures var sweep := Apply(st, step).vacuums[v];
            && (sweep.At? ==> sweep.watermark < st.walLsn)
            && (|| (v in st.vacuums && (st.vacuums[v] == sweep || st.vacuums[v].FoundNone?))
                || (sweep.At? && sweep.watermark <= st.snapshots[id].lsn))
  {
    hide Apply, ChainsOk, PendingOk, SnapshotOk;
    SweepAfterStep(st, step, v);
    LookIsBelow(st);
  }

  lemma SweepAfterStep(st: State, step: Step, v: nat)
    requires v in Apply(st, step).vacuums
    ensures var sweep := Apply(st, step).vacuums[v];
            || (v in st.vacuums && sweep == st.vacuums[v])
            || sweep == Look(st.snapshots)
            || (v in st.vacuums && st.vacuums[v].FoundNone? && sweep == At(st.currentLsn))
  {
    hide Swept, TakeSnapshot, Look, HasPendingWork, Prepend;
  }

  lemma NoRoomBetween(st: State, k: Key, lo: Lsn, w: Lsn)
    ensures w <= lo ==> !CommitBetween(st, k, lo, w)
  {
  }

  lemma CommitBetweenFromBefore(st: State, step: Step, k: Key, lo: Lsn, w: Lsn)
    requires Inv(st) && w <= st.walLsn
    ensures CommitBetween(Apply(st, step), k, lo, w) ==> CommitBetween(st, k, lo, w)
  {
    hide Apply, Inv, Pending, CommittedBetween;
    var st' := Apply(st, step);
    if t :| t in st'.logged && Pending(st', t, k) && lo < st'.logged[t] < w {
      PendingFromBefore(st, step, t, k);
    }
    if k in st'.chains && CommittedBetween(Versions(st'.chains[k]), lo, w) {
      CommittedFromBefore(st, step, k, lo, w);
    }
  }

  /** A committed version was there before the step or has just been stamped. */
  lemma CommittedFromBefore(st: State, step: Step, k: Key, lo: Lsn, w: Lsn)
    requires Inv(st) && k in Apply(st, step).chains && CommittedBetween(Versions(Apply(st, step).chains[k]), lo, w)
    ensures CommitBetween(st, k, lo, w)
  {
    hide Apply, Versions, Vacuum, CommittedBetween, Inv;
    OtherChainsStay(st, step, k);
    if Enabled(st, step) {
      match step
      case Flush(t, j) => if j == k { FlushCommitsNothing(st, t, k, lo, w); }
      case Stamp(t, j) => if j == k { StampCommitsPending(st, t, k, lo, w); }
      case VacuumKeys(v, keys) => if k in keys { VacuumCommitsNothing(st, v, keys, k, lo, w); }
      case _ =>
    }
  }

  /** Only flushing, stamping and vacuuming a key change its chain. */
  lemma OtherChainsStay(st: State, step: Step, k: Key)
    ensures var st' := Apply(st, step);
            || (Enabled(st, step) && (step.Flush? || step.Stamp?) && step.key == k)
            || (Enabled(st, step) && step.VacuumKeys? && k in step.keys)
            || ((k in st'.chains <==> k in st.chains) && (k in st.chains ==> st'.chains[k] == st.chains[k]))
  {
    hide Enabled, Look, TakeSnapshot, Vacuum;
  }

  lemma FlushCommitsNothing(st: State, t: TransactionId, k: Key, lo: Lsn, w: Lsn)
    requires Enabled(st, Flush(t, k))
    requires CommittedBetween(Versions(Apply(st, Flush(t, k)).chains[k]), lo, w)
    ensures k in st.chains && CommittedBetween(Versions(st.chains[k]), lo, w)
  {
    hide Versions, CommittedBetween, Swept, Look, TakeSnapshot;
    BetweenCons(Apply(st, Flush(t, k)).chains[k], lo, w);
  }

  lemma StampCommitsPending(st: State, t: TransactionId, k: Key, lo: Lsn, w: Lsn)
    requires Enabled(st, Stamp(t, k))
    requires CommittedBetween(Versions(Apply(st, Stamp(t, k)).chains[k]), lo, w)
    ensures CommitBetween(st, k, lo, w)
  {
    hide Versions, CommittedBetween, Swept, Look, TakeSnapshot;
    assert Pending(st, t, k);
    BetweenCons(Apply(st, Stamp(t, k)).chains[k], lo, w);
    BetweenCons(st.chains[k], lo, w);
  }

  lemma VacuumCommitsNothing(st: State, v: nat, keys: set<Key>, k: Key, lo: Lsn, w: Lsn)
    requires Inv(st) && Enabled(st, VacuumKeys(v, keys)) && k in keys && k in Apply(st, VacuumKeys(v, keys)).chains
    requires CommittedBetween(Versions(Apply(st, VacuumKeys(v, keys)).chains[k]), lo, w)
    ensures k in st.chains && CommittedBetween(Versions(st.chains[k]), lo, w)
  {
    hide Versions, CommittedBetween, Vacuum, Look, TakeSnapshot;
    assert VersionsOk(st, Versions(st.chains[k]));
    VacuumedChain(st.chains[k], st.vacuums[v].watermark);
    BetweenPrefix(Versions(Apply(st, VacuumKeys(v, keys)).chains[k]), Versions(st.chains[k]), lo, w);
  }

  lemma BetweenCons(c: VersionChain, lo: Lsn, w: Lsn)
    ensures CommittedBetween(Versions(c), lo, w) <==>
            || (c.commitLsn.Some? && lo < c.commitLsn.value < w)
            || (c.prevVersion.Some? && CommittedBetween(Versions(c.prevVersion.value), lo, w))
  {
    var vs, older := Versions(c), OlderVersions(c.prevVersion);
    assert CommittedIn(vs[0], lo, w) <==> (c.commitLsn.Some? && lo < c.commitLsn.value < w);
    assert forall i | 0 <= i < |older| :: older[i] == vs[i + 1];
    if i :| 0 <= i < |older| && CommittedIn(older[i], lo, w) {
      assert CommittedIn(vs[i + 1], lo, w);
    }
  }

  lemma BetweenPrefix(part: seq<Version>, vs: seq<Version>, lo: Lsn, w: Lsn)
    requires part <= vs && CommittedBetween(part, lo, w)
    ensures CommittedBetween(vs, lo, w)
  {
    var i :| 0 <= i < |part| && CommittedIn(part[i], lo, w);
    assert vs[i] == part[i];
  }

  lemma SnapshotsPersist(st: State, step: Step, id: nat)
    requires Inv(st) && id < st.nextSnapshot
    ensures id < Apply(st, step).nextSnapshot
    ensures id in Apply(st, step).snapshots ==> id in st.snapshots && Apply(st, step).snapshots[id] == st.snapshots[id]
  {
    hide Swept, Look, TakeSnapshot, ChainsOk, PendingOk, SnapshotOk;
  }

  lemma {:induction false} ReleasedStaysReleased(st: State, steps: seq<Step>, id: nat)
    requires Inv(st) && id < st.nextSnapshot && id !in st.snapshots
    ensures id !in Exec(st, steps).snapshots
    decreases |steps|
  {
    hide Apply, Inv;
    if steps != [] {
      SnapshotsPersist(st, steps[0], id);
      StepKeepsInv(st, steps[0]);
      ReleasedStaysReleased(Apply(st, steps[0]), steps[1..], id);
    }
  }

  lemma HeldFacts(st: State, id: nat)
    requires Inv(st) && id in st.snapshots
    ensures id < st.nextSnapshot && st.snapshots[id].lsn < st.walLsn
  {
    assert SnapshotOk(st, st.snapshots[id]);
  }

  /** A settled and undisturbed snapshot finds the same versions throughout every run that keeps holding it. */
  lemma {:induction false} RunKeepsView(st: State, steps: seq<Step>, id: nat, k: Key)
    requires Inv(st) && id in st.snapshots
    requires SettledBelow(st, st.snapshots[id].lsn) && Undisturbed(st, st.snapshots[id])
    requires id in Exec(st, steps).snapshots
    ensures View(Exec(st, steps), st.snapshots[id], k) == View(st, st.snapshots[id], k)
    decreases |steps|
  {
    hide Apply, Inv, SettledBelow, Undisturbed, View;
    if steps != [] {
      var st' := Apply(st, steps[0]);
      HeldFacts(st, id);
      StepKeepsInv(st, steps[0]);
      StepKeepsSettled(st, steps[0], st.snapshots[id].lsn);
      StepKeepsUndisturbed(st, steps[0], id);
      StepKeepsView(st, steps[0], id, k);
      SnapshotsPersist(st, steps[0], id);
      if id !in st'.snapshots {
        ReleasedStaysReleased(st', steps[1..], id);
      } else {
        RunKeepsView(st', steps[1..], id, k);
      }
    }
  }

  /** Snapshot `id` finds the same version for every key in every run that keeps holding it. */
  ghost predicate Stable(st: State, id: nat)
    requires id in st.snapshots
  {
    forall steps, k | id in Exec(st, steps).snapshots ::
      View(Exec(st, steps), st.snapshots[id], k) == View(st, st.snapshots[id], k)
  }

  /** In every reachable state: a snapshot inserted now is stable if and only if no commit at or below its LSN
      is unfinished and no vacuum in flight endangers what it finds. The first is needed because the commit
      record takes a transaction off the active list before its versions are stamped, the second because a
      vacuum goes on with a watermark it read before the snapshot was in the registry. */
  lemma {:induction false} SnapshotIsStableIff(run: seq<Step>)
    requires Enabled(Exec(Init, run), InsertSnapshot)
    ensures var st := Exec(Init, run);
            var s, taken := TakeSnapshot(st), Apply(st, InsertSnapshot);
            && st.nextSnapshot in taken.snapshots
            && (Stable(taken, st.nextSnapshot) <==> SettledBelow(st, s.lsn) && Undisturbed(st, s))
  {
    hide Exec, Inv, LocksOk;
    InitInv();
    InitLocks();
    RunKeepsInv(Init, run);
    RunKeepsLocks(Init, run);
    StableIff(Exec(Init, run));
  }

  lemma StableIff(st: State)
    requires Inv(st) && LocksOk(st) && Enabled(st, InsertSnapshot)
    ensures var s, taken := TakeSnapshot(st), Apply(st, InsertSnapshot);
            && st.nextSnapshot in taken.snapshots
            && (Stable(taken, st.nextSnapshot) <==> SettledBelow(st, s.lsn) && Undisturbed(st, s))
  {
    var s, taken, id := TakeSnapshot(st), Apply(st, InsertSnapshot), st.nextSnapshot;
    InsertChangesNothingElse(st);
    StepKeepsInv(st, InsertSnapshot);
    StepKeepsLocks(st, InsertSnapshot);
    hide *;
    if SettledBelow(taken, s.lsn) && Undisturbed(taken, s) {
      SafeIsStable(taken, id);
    } else {
      UnsafeIsUnstable(taken, id);
    }
  }

  lemma InsertChangesNothingElse(st: State)
    requires Enabled(st, InsertSnapshot)
    ensures var s, taken := TakeSnapshot(st), Apply(st, InsertSnapshot);
            && st.nextSnapshot in taken.snapshots && taken.snapshots[st.nextSnapshot] == s
            && (SettledBelow(taken, s.lsn) <==> SettledBelow(st, s.lsn))
            && (Undisturbed(taken, s) <==> Undisturbed(st, s))
  {
    hide Versions, FirstVisible, Swept, Look;
    var s, taken := TakeSnapshot(st), Apply(st, InsertSnapshot);
    assert forall t, k :: Pending(taken, t, k) <==> Pending(st, t, k);
    assert forall k :: View(taken, s, k) == View(st, s, k);
    forall k, w: Lsn ensures CommitBetween(taken, k, s.lsn, w) <==> CommitBetween(st, k, s.lsn, w) {
    }
    hide CommitBetween, View;
    forall v, k | v in st.vacuums ensures Endangers(taken, st.vacuums[v], s.lsn, k) <==> Endangers(st, st.vacuums[v], s.lsn, k) {
    }
  }

  lemma SafeIsStable(st: State, id: nat)
    requires Inv(st) && id in st.snapshots
    requires SettledBelow(st, st.snapshots[id].lsn) && Undisturbed(st, st.snapshots[id])
    ensures Stable(st, id)
  {
    hide Exec, Inv, SettledBelow, Undisturbed, View;
    forall steps, k | id in Exec(st, steps).snapshots
      ensures View(Exec(st, steps), st.snapshots[id], k) == View(st, st.snapshots[id], k)
    {
      RunKeepsView(st, steps, id, k);
    }
  }

  // ---------------------------------------------------------------------------
  // How an unsafe snapshot loses what it found
  // ---------------------------------------------------------------------------

  /** Whoever holds a lock still has the key to commit, or has just stamped it. */
  predicate LockOk(st: State, k: Key)
    requires k in st.locks
  {
    var t := st.locks[k];
    || (t in st.active && t in st.writeSets && k in st.writeSets[t])
    || (t in st.logged && (Pending(st, t, k) || (k in st.chains && st.chains[k].commitLsn == Some(st.logged[t]))))
  }

  predicate LocksOk(st: State) {
    forall k | k in st.locks :: LockOk(st, k)
  }

  lemma InitLocks()
    ensures LocksOk(Init)
  {
  }

  lemma HolderHasWork(st: State, k: Key)
    requires Inv(st) && k in st.locks && LockOk(st, k) && st.locks[k] in st.active
    ensures Enabled(st, LogCommit(st.locks[k])) && Pending(Apply(st, LogCommit(st.locks[k])), st.locks[k], k)
  {
    hide ChainsOk, PendingOk, SnapshotsOk, Swept, Look, TakeSnapshot;
  }

  lemma StepKeepsLocks(st: State, step: Step)
    requires Inv(st) && LocksOk(st)
    ensures LocksOk(Apply(st, step))
  {
    hide Inv, Apply, LockOk;
    forall k | k in Apply(st, step).locks ensures LockOk(Apply(st, step), k) {
      LockStaysOk(st, step, k);
    }
  }

  lemma LockStaysOk(st: State, step: Step, k: Key)
    requires Inv(st) && k in Apply(st, step).locks && (k in st.locks ==> LockOk(st, k))
    ensures LockOk(Apply(st, step), k)
  {
    if step.Flush? || step.Stamp? {
      WriteKeepsLock(st, step, k);
    } else if step.VacuumKeys? {
      VacuumKeepsLock(st, step, k);
    } else {
      hide ChainsOk, PendingOk, SnapshotsOk, ReadsOk, Swept, Look, TakeSnapshot, HasPendingWork, Prepend;
    }
  }

  lemma WriteKeepsLock(st: State, step: Step, k: Key)
    requires Inv(st) && (step.Flush? || step.Stamp?) && k in Apply(st, step).locks && (k in st.locks ==> LockOk(st, k))
    ensures LockOk(Apply(st, step), k)
  {
    KeyIsLocked(st, step);
    hide Inv, Swept, Look, TakeSnapshot, HasPendingWork;
  }

  lemma VacuumKeepsLock(st: State, step: Step, k: Key)
    requires Inv(st) && step.VacuumKeys? && k in Apply(st, step).locks && (k in st.locks ==> LockOk(st, k))
    ensures LockOk(Apply(st, step), k)
  {
    if Enabled(st, step) {
      HeadsStay(st, step.keys, st.vacuums[step.vacuum].watermark);
    }
    hide Inv, Swept, Look, TakeSnapshot, HasPendingWork;
  }

  /** Only the holder of a lock flushes and stamps. */
  lemma KeyIsLocked(st: State, step: Step)
    requires Inv(st) && (step.Flush? || step.Stamp?)
    ensures Enabled(st, step) ==> step.key in st.locks && st.locks[step.key] == step.txn
  {
    hide Versions, VersionsOk, SnapshotsOk, PendingOk, ReadsOk;
  }

  lemma {:induction false} RunKeepsLocks(st: State, steps: seq<Step>)
    requires Inv(st) && LocksOk(st)
    ensures LocksOk(Exec(st, steps))
    decreases |steps|
  {
    hide Apply, Inv, LocksOk;
    if steps != [] {
      StepKeepsInv(st, steps[0]);
      StepKeepsLocks(st, steps[0]);
      RunKeepsLocks(Apply(st, steps[0]), steps[1..]);
    }
  }

  /** A run that leaves snapshots and vacuums alone. */
  ghost predicate SameReaders(st: State, st': State) {
    st'.snapshots == st.snapshots && st'.vacuums == st.vacuums && st.walLsn <= st'.walLsn
  }

  predicate HeadIs(st: State, k: Key, lsn: Lsn) {
    k in st.chains && st.chains[k].commitLsn == Some(lsn)
  }

  lemma ExecTwo(st: State, a: Step, b: Step, rest: seq<Step>)
    ensures Exec(st, [a, b] + rest) == Exec(Apply(Apply(st, a), b), rest)
  {
    assert ([a, b] + rest)[1..] == [b] + rest;
    assert ([b] + rest)[1..] == rest;
  }

  lemma ExecOne(st: State, step: Step)
    ensures Exec(st, [step]) == Apply(st, step)
  {
    hide Apply;
    assert [step][1..] == [];
  }

  /** A commit that is in the log can always finish a key. */
  lemma FinishKey(st: State, t: TransactionId, k: Key) returns (steps: seq<Step>)
    requires Inv(st) && t in st.logged && Pending(st, t, k)
    ensures var st' := Exec(st, steps);
            Inv(st') && SameReaders(st, st') && HeadIs(st', k, st.logged[t]) && st'.chains[k].createdBy == t
  {
    hide Exec, Versions, VersionsOk, Swept, Look, TakeSnapshot;
    var flush, stamp := Flush(t, k), Stamp(t, k);
    if t in st.writeSets && k in st.writeSets[t] {
      steps := [flush] + [stamp];
      ExecSplit(st, [flush], [stamp]);
      ExecOne(st, flush);
      ExecOne(Apply(st, flush), stamp);
    } else {
      steps := [stamp];
      ExecOne(st, stamp);
    }
    RunKeepsInv(st, steps);
    hide Inv;
  }

  /** A commit record at or below the snapshot whose writes land after it: the snapshot's view changes. */
  lemma LateCommitShows(st: State, id: nat, t: TransactionId, k: Key) returns (steps: seq<Step>)
    requires Inv(st) && id in st.snapshots && t in st.logged && Pending(st, t, k)
    requires st.logged[t] <= st.snapshots[id].lsn
    ensures id in Exec(st, steps).snapshots
    ensures View(Exec(st, steps), st.snapshots[id], k) != View(st, st.snapshots[id], k)
  {
    steps := FinishKey(st, t, k);
    hide Exec;
    NotYetVisible(st, id, t, k);
    HeadShows(Exec(st, steps), st.snapshots[id], k);
    assert t !in st.snapshots[id].activeTxns by { assert SnapshotOk(st, st.snapshots[id]); }
  }

  lemma HeadShows(st: State, s: Snapshot, k: Key)
    requires k in st.chains && st.chains[k].commitLsn.Some?
    ensures st.chains[k].commitLsn.value <= s.lsn && st.chains[k].createdBy !in s.activeTxns && s.WellFormed() ==>
              View(st, s, k) == Some(Head(st.chains[k]))
  {
  }

  lemma NotYetVisible(st: State, id: nat, t: TransactionId, k: Key)
    requires Inv(st) && id in st.snapshots && t in st.logged && Pending(st, t, k)
    ensures var v := View(st, st.snapshots[id], k);
            v.Some? ==> v.value.commitLsn.Some? && v.value.commitLsn.value < st.logged[t]
  {
    hide Versions, VersionsOk, TxnsOk, SnapshotsOk, ReadsOk, ChainsOk;
  }

  /** A key that nobody has locked can be committed anew. */
  lemma WriteKey(st: State, k: Key) returns (steps: seq<Step>)
    requires Inv(st) && k !in st.locks
    ensures var st' := Exec(st, steps);
            Inv(st') && SameReaders(st, st') && exists lsn | st.walLsn <= lsn :: HeadIs(st', k, lsn)
  {
    hide Exec, Versions, VersionsOk, Swept, Look, TakeSnapshot, ChainsOk, PendingOk, SnapshotsOk, ReadsOk;
    var u := st.nextTxn;
    var begin, put, log := Begin, Put(u, k, InlineValue([])), LogCommit(u);
    var mid := Apply(Apply(Apply(st, begin), put), log);
    StepKeepsInv(st, begin);
    StepKeepsInv(Apply(st, begin), put);
    StepKeepsInv(Apply(Apply(st, begin), put), log);
    ExecTwo(st, begin, put, [log]);
    ExecOne(Apply(Apply(st, begin), put), log);
    var rest := FinishKey(mid, u, k);
    steps := ([begin, put] + [log]) + rest;
    ExecSplit(st, [begin, put] + [log], rest);
    assert HeadIs(Exec(st, steps), k, mid.logged[u]);
  }

  /** Whatever the lock on a key is doing, some run commits the key above a settled snapshot. */
  lemma NewerHead(st: State, id: nat, k: Key) returns (steps: seq<Step>)
    requires Inv(st) && LocksOk(st) && id in st.snapshots && SettledBelow(st, st.snapshots[id].lsn)
    ensures var st' := Exec(st, steps);
            Inv(st') && SameReaders(st, st') && exists lsn | st.snapshots[id].lsn < lsn :: HeadIs(st', k, lsn)
  {
    hide Exec, Inv;
    HeldFacts(st, id);
    if k !in st.locks {
      steps := WriteKey(st, k);
    } else {
      assert LockOk(st, k);
      var t := st.locks[k];
      if t in st.active {
        var mid := Apply(st, LogCommit(t));
        HolderHasWork(st, k);
        StepKeepsInv(st, LogCommit(t));
        ExecOne(st, LogCommit(t));
        var rest := FinishKey(mid, t, k);
        steps := [LogCommit(t)] + rest;
        ExecSplit(st, [LogCommit(t)], rest);
        assert HeadIs(Exec(st, steps), k, mid.logged[t]);
      } else if Pending(st, t, k) {
        steps := FinishKey(st, t, k);
        assert HeadIs(Exec(st, steps), k, st.logged[t]);
      } else if st.snapshots[id].lsn < st.logged[t] {
        steps := [];
        NoSteps(st);
        assert HeadIs(st, k, st.logged[t]);
      } else {
        NothingPending(st, t, st.snapshots[id].lsn);
        var mid := Apply(st, Publish(t));
        StepKeepsInv(st, Publish(t));
        ExecOne(st, Publish(t));
        var rest := WriteKey(mid, k);
        steps := [Publish(t)] + rest;
        ExecSplit(st, [Publish(t)], rest);
      }
    }
  }

  lemma NoSteps(st: State)
    ensures Exec(st, []) == st
  {
  }

  lemma NothingPending(st: State, t: TransactionId, lsn: Lsn)
    requires SettledBelow(st, lsn) && t in st.logged && st.logged[t] <= lsn
    ensures !HasPendingWork(st, t)
  {
    assert forall k :: !Pending(st, t, k);
    assert forall k | k in st.chains :: UncommittedBy(st.chains[k], t) ==> Pending(st, t, k);
    if t in st.writeSets {
      assert forall k | k in st.writeSets[t] :: Pending(st, t, k);
      assert st.writeSets[t] == map[];
    }
  }

  /** An empty transaction can always publish an LSN above everything there is. */
  lemma RaiseLsn(st: State) returns (steps: seq<Step>)
    requires Inv(st)
    ensures var st' := Exec(st, steps);
            Inv(st') && SameReaders(st, st') && st'.chains == st.chains && st.walLsn <= st'.currentLsn
  {
    hide Exec, Versions, VersionsOk, Swept, Look, TakeSnapshot, PendingOk, SnapshotsOk, ReadsOk;
    var u := st.nextTxn;
    steps := [Begin, LogCommit(u)] + [Publish(u)];
    ExecTwo(st, Begin, LogCommit(u), [Publish(u)]);
    ExecOne(Apply(Apply(st, Begin), LogCommit(u)), Publish(u));
    RunKeepsInv(st, steps);
  }

  /** A vacuum above a commit that the snapshot does not see sweeps the snapshot's version away. */
  lemma SweepNow(st: State, id: nat, v: nat, k: Key)
    requires Inv(st) && id in st.snapshots && v in st.vacuums && st.vacuums[v].At? && k in st.chains
    requires CommittedBetween(Versions(st.chains[k]), st.snapshots[id].lsn, st.vacuums[v].watermark)
    ensures View(Apply(st, VacuumKeys(v, {k})), st.snapshots[id], k).None?
    ensures Apply(st, VacuumKeys(v, {k})).snapshots == st.snapshots
  {
    hide Versions, Vacuum, FirstVisible, ActiveCommitAbove, Look, TakeSnapshot;
    assert VersionsOk(st, Versions(st.chains[k])) && SnapshotOk(st, st.snapshots[id]);
    VacuumKeepsViewIff(st.chains[k], st.vacuums[v].watermark, st.snapshots[id]);
  }

  lemma SweepAfter(st: State, mid: State, steps: seq<Step>, id: nat, v: nat, k: Key, lsn: Lsn)
    requires Inv(mid) && Exec(st, steps) == mid && mid.snapshots == st.snapshots && id in st.snapshots
    requires v in mid.vacuums && mid.vacuums[v].At? && HeadIs(mid, k, lsn)
    requires st.snapshots[id].lsn < lsn < mid.vacuums[v].watermark
    ensures var st' := Exec(st, steps + [VacuumKeys(v, {k})]);
            id in st'.snapshots && View(st', st.snapshots[id], k).None?
  {
    hide Exec, Inv, Apply, View;
    ExecSplit(st, steps, [VacuumKeys(v, {k})]);
    ExecOne(mid, VacuumKeys(v, {k}));
    BetweenCons(mid.chains[k], st.snapshots[id].lsn, mid.vacuums[v].watermark);
    SweepNow(mid, id, v, k);
  }

  /** An endangered version is lost in some run. */
  lemma SweepShows(st: State, id: nat, v: nat, k: Key) returns (steps: seq<Step>)
    requires Inv(st) && LocksOk(st) && id in st.snapshots && SettledBelow(st, st.snapshots[id].lsn)
    requires v in st.vacuums && Endangers(st, st.vacuums[v], st.snapshots[id].lsn, k)
    ensures id in Exec(st, steps).snapshots && View(Exec(st, steps), st.snapshots[id], k).None?
  {
    hide Exec, Inv, Apply, View, LocksOk, Pending, CommittedBetween;
    var lsn, sweep := st.snapshots[id].lsn, VacuumKeys(v, {k});
    if st.vacuums[v].FoundNone? {
      steps := SweepLater(st, id, v, k);
    } else if k in st.chains && CommittedBetween(Versions(st.chains[k]), lsn, st.vacuums[v].watermark) {
      SweepNow(st, id, v, k);
      ExecOne(st, sweep);
      steps := [sweep];
    } else {
      var t :| t in st.logged && Pending(st, t, k) && lsn < st.logged[t] < st.vacuums[v].watermark;
      var first := FinishKey(st, t, k);
      SweepAfter(st, Exec(st, first), first, id, v, k, st.logged[t]);
      steps := first + [sweep];
    }
  }

  /** A vacuum that found no snapshot falls back to an LSN published after one was taken. */
  lemma SweepLater(st: State, id: nat, v: nat, k: Key) returns (steps: seq<Step>)
    requires Inv(st) && LocksOk(st) && id in st.snapshots && SettledBelow(st, st.snapshots[id].lsn)
    requires v in st.vacuums && st.vacuums[v].FoundNone?
    ensures id in Exec(st, steps).snapshots && View(Exec(st, steps), st.snapshots[id], k).None?
  {
    hide Exec, Inv, View, LocksOk, Swept, Look, TakeSnapshot;
    var first := NewerHead(st, id, k);
    var a := Exec(st, first);
    var lsn :| st.snapshots[id].lsn < lsn && HeadIs(a, k, lsn);
    HeadIsBelow(a, k);
    var second := RaiseLsn(a);
    var b := Exec(a, second);
    var back := VacuumFallBack(v);
    var c := Apply(b, back);
    StepKeepsInv(b, back);
    ExecSplit(st, first, second);
    ExecSplit(st, first + second, [back]);
    ExecOne(b, back);
    SweepAfter(st, c, (first + second) + [back], id, v, k, lsn);
    steps := ((first + second) + [back]) + [VacuumKeys(v, {k})];
  }

  lemma HeadIsBelow(st: State, k: Key)
    requires Inv(st) && k in st.chains && st.chains[k].commitLsn.Some?
    ensures st.chains[k].commitLsn.value < st.walLsn
  {
    assert VersionsOk(st, Versions(st.chains[k]));
    assert Versions(st.chains[k])[0] == Head(st.chains[k]);
  }

  lemma UnsafeIsUnstable(st: State, id: nat)
    requires Inv(st) && LocksOk(st) && id in st.snapshots
    requires !SettledBelow(st, st.snapshots[id].lsn) || !Undisturbed(st, st.snapshots[id])
    ensures !Stable(st, id)
  {
    hide Exec, Inv, LocksOk, View, Endangers, Pending;
    var s := st.snapshots[id];
    if !SettledBelow(st, s.lsn) {
      var t, k :| t in st.logged && Pending(st, t, k) && st.logged[t] <= s.lsn;
      var steps := LateCommitShows(st, id, t, k);
    } else {
      var v, k :| v in st.vacuums && View(st, s, k).Some? && Endangers(st, st.vacuums[v], s.lsn, k);
      var steps := SweepShows(st, id, v, k);
      assert View(Exec(st, steps), s, k) != View(st, s, k);
    }
  }

  // ---------------------------------------------------------------------------
  // Commits one at a time
  // ---------------------------------------------------------------------------

  /** A run in which a commit record is written only while no other commit is unfinished. */
  ghost predicate OneCommitAtATime(st: State, steps: seq<Step>)
    decreases |steps|
  {
    steps != [] ==>
      && (steps[0].LogCommit? ==> st.logged == map[])
      && OneCommitAtATime(Apply(st, steps[0]), steps[1..])
  }

  /** What serial commits keep: published LSNs only grow, so an LSN that was read is still covered. */
  predicate AtMostOneAbove(st: State) {
    && st.currentLsn < st.walLsn
    && (forall t | t in st.logged :: st.currentLsn < st.logged[t])
    && (forall t, u | t in st.logged && u in st.logged :: t == u)
    && (st.creating.Some? ==> st.creating.value.lsn <= st.currentLsn)
  }

  lemma {:induction false} OneAtATime(st: State, steps: seq<Step>)
    requires Inv(st) && AtMostOneAbove(st) && OneCommitAtATime(st, steps)
    ensures AtMostOneAbove(Exec(st, steps))
    decreases |steps|
  {
    hide Apply, Inv, AtMostOneAbove;
    if steps != [] {
      StepKeepsInv(st, steps[0]);
      OneCommitStep(st, steps[0]);
      OneAtATime(Apply(st, steps[0]), steps[1..]);
    }
  }

  lemma OneCommitStep(st: State, step: Step)
    requires Inv(st) && AtMostOneAbove(st) && (step.LogCommit? ==> st.logged == map[])
    ensures AtMostOneAbove(Apply(st, step))
  {
    hide Versions, ChainsOk, PendingOk, SnapshotsOk, Swept, Look, TakeSnapshot;
    assert TxnsOk(st);
  }

  /** With serialised commits a snapshot is stable if and only if no vacuum in flight endangers it; so every
      snapshot is that is taken while no vacuum is in flight. */
  lemma {:induction false} SerialSnapshotIsStableIff(run: seq<Step>)
    requires OneCommitAtATime(Init, run) && Enabled(Exec(Init, run), InsertSnapshot)
    ensures var st := Exec(Init, run);
            var taken := Apply(st, InsertSnapshot);
            && st.nextSnapshot in taken.snapshots
            && (Stable(taken, st.nextSnapshot) <==> Undisturbed(st, TakeSnapshot(st)))
            && (st.vacuums == map[] ==> Stable(taken, st.nextSnapshot))
  {
    hide Exec, Inv, Stable, View, Endangers, OneCommitAtATime;
    InitInv();
    OneAtATime(Init, run);
    SnapshotIsStableIff(run);
  }

  /** Both transactions have written their commit records, the older one first. */
  function BothLogged(a: Key, b: Key, v: VersionValue): State {
    Init.(locks := map[a := 1, b := 2], writeSets := map[1 := map[a := v], 2 := map[b := v]],
          logged := map[1 := 5, 2 := 6], nextTxn := 3, walLsn := 7)
  }

  lemma RaceStarts(a: Key, b: Key, v: VersionValue)
    requires a != b
    ensures Exec(Init, [Begin, Begin] + ([Put(1, a, v), Put(2, b, v)] + ([LogCommit(1), LogCommit(2)] + [])))
        == BothLogged(a, b, v)
  {
    hide Apply, Exec;
    BothBegin();
    var s1 := Apply(Apply(Init, Begin), Begin);
    BothPut(s1, a, b, v);
    var s2 := Apply(Apply(s1, Put(1, a, v)), Put(2, b, v));
    BothLog(s2, a, b, v);
    ExecTwo(Init, Begin, Begin, [Put(1, a, v), Put(2, b, v)] + ([LogCommit(1), LogCommit(2)] + []));
    ExecTwo(s1, Put(1, a, v), Put(2, b, v), [LogCommit(1), LogCommit(2)] + []);
    ExecTwo(s2, LogCommit(1), LogCommit(2), []);
    NoSteps(BothLogged(a, b, v));
  }

  lemma BothBegin()
    ensures Apply(Apply(Init, Begin), Begin)
            == Init.(active := {1, 2}, writeSets := map[1 := map[], 2 := map[]], nextTxn := 3, walLsn := 3)
  {
  }

  lemma BothPut(st: State, a: Key, b: Key, v: VersionValue)
    requires a != b && st == Init.(active := {1, 2}, writeSets := map[1 := map[], 2 := map[]], nextTxn := 3, walLsn := 3)
    ensures Apply(Apply(st, Put(1, a, v)), Put(2, b, v))
            == st.(locks := map[a := 1, b := 2], writeSets := map[1 := map[a := v], 2 := map[b := v]], walLsn := 5)
  {
    hide Swept, Look, TakeSnapshot;
  }

  lemma BothLog(st: State, a: Key, b: Key, v: VersionValue)
    requires st == Init.(active := {1, 2}, locks := map[a := 1, b := 2], writeSets := map[1 := map[a := v], 2 := map[b := v]],
                         nextTxn := 3, walLsn := 5)
    ensures Apply(Apply(st, LogCommit(1)), LogCommit(2)) == BothLogged(a, b, v)
  {
    hide Swept, Look, TakeSnapshot;
  }

  lemma YoungerPublishesFirst(a: Key, b: Key, v: VersionValue)
    requires a != b
    ensures var st := Exec(BothLogged(a, b, v), [Flush(2, b), Stamp(2, b)] + [Publish(2)]);
            st.currentLsn == 6 && !SettledBelow(st, 6)
  {
    hide Apply, Exec;
    var st := BothLogged(a, b, v);
    YoungerWrites(a, b, v);
    var mid := Apply(Apply(st, Flush(2, b)), Stamp(2, b));
    ExecTwo(st, Flush(2, b), Stamp(2, b), [Publish(2)]);
    ExecOne(mid, Publish(2));
    OlderIsPending(mid, a, b, v);
  }

  lemma YoungerWrites(a: Key, b: Key, v: VersionValue)
    requires a != b
    ensures Apply(Apply(BothLogged(a, b, v), Flush(2, b)), Stamp(2, b))
            == BothLogged(a, b, v).(chains := map[b := VersionChain(v, 2, Some(6), None)],
                                    writeSets := map[1 := map[a := v], 2 := map[]])
  {
    hide Swept, Look, TakeSnapshot;
  }

  lemma OlderIsPending(st: State, a: Key, b: Key, v: VersionValue)
    requires a != b
    requires st == BothLogged(a, b, v).(chains := map[b := VersionChain(v, 2, Some(6), None)],
                                        writeSets := map[1 := map[a := v], 2 := map[]])
    ensures Apply(st, Publish(2)).currentLsn == 6 && !SettledBelow(Apply(st, Publish(2)), 6)
  {
    hide Swept, Look, TakeSnapshot;
    assert Pending(Apply(st, Publish(2)), 1, a);
  }

  /** Two overlapping commits reach an unsettled state: the younger publishes first. */
  lemma RaceIsReachable(a: Key, b: Key, v: VersionValue) returns (run: seq<Step>)
    requires a != b
    ensures Exec(Init, run).currentLsn == 6 && !SettledBelow(Exec(Init, run), 6)
  {
    hide *;
    var start := [Begin, Begin] + ([Put(1, a, v), Put(2, b, v)] + ([LogCommit(1), LogCommit(2)] + []));
    var finish := [Flush(2, b), Stamp(2, b)] + [Publish(2)];
    run := start + finish;
    RaceStarts(a, b, v);
    YoungerPublishesFirst(a, b, v);
    ExecSplit(Init, start, finish);
  }

  /** The table as one finished transaction leaves it. */
  function OneCommit(k: Key, v: VersionValue): State {
    Init.(chains := map[k := VersionChain(v, 1, Some(3), None)], writeSets := map[1 := map[]],
          nextTxn := 2, walLsn := 4, currentLsn := 3)
  }

  /** A vacuum has looked at the empty registry when a snapshot is begun. */
  function LookedTooEarly(k: Key, v: VersionValue): State {
    OneCommit(k, v).(vacuums := map[0 := FoundNone], creating := Some(Creating("s", 3)))
  }

  lemma SerialTwo(st: State, a: Step, b: Step, rest: seq<Step>)
    requires (a.LogCommit? || b.LogCommit?) ==> st.logged == map[]
    requires !a.LogCommit? || !b.LogCommit?
    requires b.LogCommit? ==> Apply(st, a).logged == map[]
    requires OneCommitAtATime(Apply(Apply(st, a), b), rest)
    ensures OneCommitAtATime(st, [a, b] + rest)
  {
    hide Apply;
    assert ([a, b] + rest)[1..] == [b] + rest;
    assert ([b] + rest)[1..] == rest;
  }

  lemma FirstSteps(k: Key, v: VersionValue)
    ensures Apply(Apply(Init, Begin), Put(1, k, v))
            == Init.(active := {1}, locks := map[k := 1], writeSets := map[1 := map[k := v]], nextTxn := 2, walLsn := 3)
  {
  }

  lemma NextSteps(st: State, k: Key, v: VersionValue)
    requires st == Init.(active := {1}, locks := map[k := 1], writeSets := map[1 := map[k := v]], nextTxn := 2, walLsn := 3)
    ensures Apply(Apply(st, LogCommit(1)), Flush(1, k))
            == st.(active := {}, logged := map[1 := 3], walLsn := 4, writeSets := map[1 := map[]],
                   chains := map[k := VersionChain(v, 1, None, None)])
  {
    hide Swept, Look, TakeSnapshot;
  }

  lemma LastSteps(st: State, k: Key, v: VersionValue)
    requires st == Init.(locks := map[k := 1], nextTxn := 2, walLsn := 4, logged := map[1 := 3], writeSets := map[1 := map[]],
                         chains := map[k := VersionChain(v, 1, None, None)])
    ensures Apply(Apply(st, Stamp(1, k)), Publish(1)) == OneCommit(k, v)
  {
    hide Swept, Look, TakeSnapshot;
  }

  lemma OneCommitRun(k: Key, v: VersionValue, rest: seq<Step>)
    requires OneCommitAtATime(OneCommit(k, v), rest)
    ensures var steps := [Begin, Put(1, k, v)] + ([LogCommit(1), Flush(1, k)] + ([Stamp(1, k), Publish(1)] + rest));
            Exec(Init, steps) == Exec(OneCommit(k, v), rest) && OneCommitAtATime(Init, steps)
  {
    hide Apply, Exec, OneCommitAtATime;
    var third := [Stamp(1, k), Publish(1)] + rest;
    var second := [LogCommit(1), Flush(1, k)] + third;
    FirstSteps(k, v);
    var s1 := Apply(Apply(Init, Begin), Put(1, k, v));
    NextSteps(s1, k, v);
    var s2 := Apply(Apply(s1, LogCommit(1)), Flush(1, k));
    LastSteps(s2, k, v);
    ExecTwo(Init, Begin, Put(1, k, v), second);
    ExecTwo(s1, LogCommit(1), Flush(1, k), third);
    ExecTwo(s2, Stamp(1, k), Publish(1), rest);
    SerialTwo(s2, Stamp(1, k), Publish(1), rest);
    SerialTwo(s1, LogCommit(1), Flush(1, k), third);
    SerialTwo(Init, Begin, Put(1, k, v), second);
  }

  lemma LookThenRead(k: Key, v: VersionValue)
    ensures Apply(Apply(OneCommit(k, v), VacuumLook(0)), ReadLsn("s")) == LookedTooEarly(k, v)
  {
    hide Swept, TakeSnapshot;
  }

  /** Even with one commit at a time: a vacuum that found no snapshot is in flight when one is taken, which
      therefore is not stable. */
  lemma VacuumRaceIsReachable(k: Key, v: VersionValue) returns (run: seq<Step>)
    ensures OneCommitAtATime(Init, run) && Enabled(Exec(Init, run), InsertSnapshot)
    ensures var st := Exec(Init, run);
            && SettledBelow(st, TakeSnapshot(st).lsn) && !Undisturbed(st, TakeSnapshot(st))
            && !Stable(Apply(st, InsertSnapshot), st.nextSnapshot)
  {
    hide Exec, OneCommitAtATime, Apply, Stable;
    var look, read := VacuumLook(0), ReadLsn("s");
    var st := OneCommit(k, v);
    NoMoreSteps(LookedTooEarly(k, v));
    LookThenRead(k, v);
    ExecTwo(st, look, read, []);
    SerialTwo(st, look, read, []);
    OneCommitRun(k, v, [look, read] + []);
    run := [Begin, Put(1, k, v)] + ([LogCommit(1), Flush(1, k)] + ([Stamp(1, k), Publish(1)] + ([look, read] + [])));
    SeesTheCommit(k, v);
    SerialSnapshotIsStableIff(run);
  }

  lemma NoMoreSteps(st: State)
    ensures OneCommitAtATime(st, []) && Exec(st, []) == st
  {
  }

  lemma SeesTheCommit(k: Key, v: VersionValue)
    ensures var st := LookedTooEarly(k, v);
            SettledBelow(st, TakeSnapshot(st).lsn) && !Undisturbed(st, TakeSnapshot(st))
  {
    var st := LookedTooEarly(k, v);
    var s := TakeSnapshot(st);
    assert Versions(st.chains[k]) == [Version(v, 1, Some(3))];
    assert View(st, s, k).Some? && Endangers(st, st.vacuums[0], s.lsn, k);
  }

  // ---------------------------------------------------------------------------
  // Reading at a pinned LSN
  // ---------------------------------------------------------------------------

  /** `begin_read_at` builds its snapshot from the LSN alone, with no active transactions.
      In every reachable state this finds what the named snapshot itself finds. */
  lemma {:induction false} ReadAtPinnedLsn(run: seq<Step>, id: nat, k: Key)
    requires id in Exec(Init, run).snapshots
    ensures var st := Exec(Init, run);
            View(st, Snapshot(0, "", st.snapshots[id].lsn, 0, {}), k) == View(st, st.snapshots[id], k)
  {
    InitInv();
    RunKeepsInv(Init, run);
    var st := Exec(Init, run);
    var s := st.snapshots[id];
    assert SnapshotOk(st, s);
    if k in st.chains {
      SameVisibility(Versions(st.chains[k]), s, Snapshot(0, "", s.lsn, 0, {}));
    }
  }

  lemma {:induction false} SameVisibility(vs: seq<Version>, s: Snapshot, bare: Snapshot)
    requires ActiveCommitAbove(s, vs) && bare.lsn == s.lsn && bare.activeTxns == {}
    ensures FirstVisible(vs, bare) == FirstVisible(vs, s)
  {
    if vs != [] {
      assert forall i | 0 <= i < |vs| - 1 :: vs[1..][i] == vs[i + 1];
      SameVisibility(vs[1..], s, bare);
    }
  }
}
