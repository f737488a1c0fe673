/** What snapshots read, in terms of what transactions did: the writes and commits of a run, without the
    version chains (src/txn/transaction.rs, src/txn/version.rs, src/engine.rs). */
module MvccHistory {
  import opened Wrappers
  import opened Transactions
  import opened VersionChains
  import opened Mvcc
  import Conflicts

  // ---------------------------------------------------------------------------
  // The history of a run
  // ---------------------------------------------------------------------------

  /** The last value each transaction put under each key, the LSN of each commit record, the commit LSN of the last
      transaction to publish, and for each key the LSN of the version that the last sweep with something to cut left
      as its oldest. */
  datatype History = History(
    writes: map<(TransactionId, Key), VersionValue>, commits: map<TransactionId, Lsn>, published: Lsn, cut: map<Key, Lsn>)

  const NoHistory := History(map[], map[], 0, map[])

  /** The newest version below the watermark, if there is one. */
  function Base(vs: seq<Version>, w: Lsn): Option<Lsn> {
    var n := LiveCount(vs, w);
    if n < |vs| then vs[n].commitLsn else None
  }

  function Cut(cut: map<Key, Lsn>, chains: map<Key, VersionChain>, keys: set<Key>, w: Lsn): map<Key, Lsn> {
    map k | k in cut.Keys + chains.Keys && (k in cut || (k in keys && Base(Versions(chains[k]), w).Some?)) ::
      if k in chains && k in keys && Base(Versions(chains[k]), w).Some? then Base(Versions(chains[k]), w).value else cut[k]
  }

  ghost function Record(h: History, st: State, step: Step): History {
    if !Enabled(st, step) then h
    else match step
      case Put(t, k, v) => h.(writes := h.writes[(t, k) := v])
      case LogCommit(t) => h.(commits := h.commits[t := st.walLsn])
      case Publish(t) => if t in h.commits then h.(published := h.commits[t]) else h
      case VacuumKeys(v, keys) => h.(cut := Cut(h.cut, st.chains, keys, st.vacuums[v].watermark))
      case _ => h
  }

  ghost function HistoryFrom(h: History, st: State, steps: seq<Step>): History
    decreases |steps|
  {
    if steps == [] then h else HistoryFrom(Record(h, st, steps[0]), Apply(st, steps[0]), steps[1..])
  }

  /** The history of a run from the start. */
  ghost function HistoryOf(run: seq<Step>): History {
    HistoryFrom(NoHistory, Init, run)
  }

  predicate Wrote(h: History, t: TransactionId, k: Key) {
    (t, k) in h.writes
  }

  /** Transaction `t` wrote the key and committed at or below the LSN. */
  predicate Committed(h: History, t: TransactionId, k: Key, lsn: Lsn) {
    Wrote(h, t, k) && t in h.commits && h.commits[t] <= lsn
  }

  /** `t` is the last to commit a write of the key at or below the LSN. */
  ghost predicate LastWriter(h: History, t: TransactionId, k: Key, lsn: Lsn) {
    && Committed(h, t, k, lsn)
    && forall u | u != t && Committed(h, u, k, lsn) :: h.commits[u] < h.commits[t]
  }

  // ---------------------------------------------------------------------------
  // The invariant between history and state
  // ---------------------------------------------------------------------------

  /** Buffered values are the last ones put. */
  ghost predicate Buffered(st: State, h: History) {
    forall t, k | t in st.writeSets && k in st.writeSets[t] :: Wrote(h, t, k) && h.writes[(t, k)] == st.writeSets[t][k]
  }

  ghost predicate CommitsOk(st: State, h: History) {
    && (forall t | t in st.logged :: t in h.commits && h.commits[t] == st.logged[t])
    && (forall t | t in h.commits :: t !in st.active && t < st.nextTxn && h.commits[t] < st.walLsn)
    && (forall t, u | t in h.commits && u in h.commits && t != u :: h.commits[t] != h.commits[u])
    && st.currentLsn == h.published
  }

  /** Whoever wrote a key and is not finished holds its lock, and still buffers it until the commit record. */
  predicate WriterOk(st: State, t: TransactionId, k: Key) {
    && t < st.nextTxn
    && (t in st.active ==> t in st.writeSets && k in st.writeSets[t])
    && (t in st.active || t in st.logged ==> k in st.locks && st.locks[k] == t)
  }

  ghost predicate WritersOk(st: State, h: History) {
    forall t, k | Wrote(h, t, k) :: WriterOk(st, t, k)
  }

  /** A version is the write of a transaction that has a commit record, stamped with its LSN if at all. */
  predicate FromWrite(h: History, k: Key, v: Version) {
    && Wrote(h, v.createdBy, k) && v.value == h.writes[(v.createdBy, k)]
    && v.createdBy in h.commits && (v.commitLsn.Some? ==> v.commitLsn.value == h.commits[v.createdBy])
  }

  predicate AllFromWrites(h: History, k: Key, vs: seq<Version>) {
    forall i | 0 <= i < |vs| :: FromWrite(h, k, vs[i])
  }

  ghost predicate ChainsFromWrites(st: State, h: History) {
    forall k | k in st.chains :: AllFromWrites(h, k, Versions(st.chains[k]))
  }

  predicate Present(vs: seq<Version>, t: TransactionId, lsn: Lsn) {
    exists i | 0 <= i < |vs| :: vs[i].createdBy == t && vs[i].commitLsn == Some(lsn)
  }

  predicate AllAbove(vs: seq<Version>, lsn: Lsn) {
    forall i | 0 <= i < |vs| && vs[i].commitLsn.Some? :: lsn <= vs[i].commitLsn.value
  }

  predicate Unfinished(st: State, t: TransactionId, k: Key) {
    t in st.logged && Pending(st, t, k)
  }

  /** Where a committed write is: about to be flushed or stamped, in the chain, or swept away from under newer ones. */
  predicate Placed(st: State, h: History, t: TransactionId, k: Key)
    requires t in h.commits
  {
    || Unfinished(st, t, k)
    || (k in st.chains && Present(Versions(st.chains[k]), t, h.commits[t]))
    || (k in h.cut && h.commits[t] <= h.cut[k])
  }

  ghost predicate WritesPlaced(st: State, h: History) {
    forall t, k | Wrote(h, t, k) && t in h.commits :: Placed(st, h, t, k)
  }

  /** Whoever is finishing a key commits it above all other committed writes of the key. */
  ghost predicate FinishAbove(st: State, h: History) {
    forall t, u, k | Wrote(h, u, k) && u in h.commits && u != t && Unfinished(st, t, k) :: h.commits[u] < st.logged[t]
  }

  /** The version a sweep left as the oldest is still there, and still the oldest. */
  predicate CutAt(vs: seq<Version>, lsn: Lsn) {
    AllAbove(vs, lsn) && exists i | 0 <= i < |vs| :: vs[i].commitLsn == Some(lsn)
  }

  ghost predicate CutsOk(st: State, h: History) {
    forall k | k in h.cut :: k in st.chains && CutAt(Versions(st.chains[k]), h.cut[k])
  }

  ghost predicate Explains(h: History, st: State) {
    && Buffered(st, h) && CommitsOk(st, h) && WritersOk(st, h)
    && ChainsFromWrites(st, h) && WritesPlaced(st, h) && FinishAbove(st, h) && CutsOk(st, h)
  }

  lemma NothingToExplain()
    ensures Explains(NoHistory, Init)
  {
  }

  // ---------------------------------------------------------------------------
  // Every step keeps it
  // ---------------------------------------------------------------------------

  /** Steps of the registry, and of a vacuum that only reads. */
  lemma ReadersKeep(h: History, st: State, st': State)
    requires Explains(h, st)
    requires st' == st.(snapshots := st'.snapshots, nextSnapshot := st'.nextSnapshot, creating := st'.creating,
                        vacuums := st'.vacuums)
    ensures Explains(h, st')
  {
    hide Versions, Present, AllAbove, AllFromWrites;
    assert forall t, k :: Unfinished(st', t, k) <==> Unfinished(st, t, k);
  }

  /** While no chain changes, committed writes stay where they are. */
  lemma PlacesStay(h: History, h': History, st: State, st': State)
    requires WritesPlaced(st, h) && st'.chains == st.chains && h'.cut == h.cut
    requires forall t: TransactionId, k | Unfinished(st, t, k) :: Unfinished(st', t, k)
    requires forall t: TransactionId, k | Wrote(h', t, k) && t in h'.commits ::
               Unfinished(st', t, k) || (Wrote(h, t, k) && t in h.commits && h'.commits[t] == h.commits[t])
    ensures WritesPlaced(st', h')
  {
    hide Versions, Present, AllAbove, Unfinished, Wrote;
    forall t: TransactionId, k | Wrote(h', t, k) && t in h'.commits ensures Placed(st', h', t, k) {
      if !Unfinished(st', t, k) { assert Placed(st, h, t, k); }
    }
  }

  lemma CutsStay(h: History, h': History, st: State, st': State)
    requires CutsOk(st, h) && st'.chains == st.chains && h'.cut == h.cut
    ensures CutsOk(st', h')
  {
    hide Versions, CutAt;
  }

  /** While nothing is logged, nobody new finishes. */
  lemma AboveStays(h: History, h': History, st: State, st': State)
    requires FinishAbove(st, h) && h'.commits == h.commits
    requires forall t: TransactionId, k | Unfinished(st', t, k) ::
               Unfinished(st, t, k) && t in st.logged && t in st'.logged && st'.logged[t] == st.logged[t]
    requires forall t: TransactionId, k | Wrote(h', t, k) && t in h'.commits :: Wrote(h, t, k)
    ensures FinishAbove(st', h')
  {
    hide Unfinished, Wrote;
    forall t: TransactionId, u: TransactionId, k | Wrote(h', u, k) && u in h'.commits && u != t && Unfinished(st', t, k)
      ensures t in st'.logged && h'.commits[u] < st'.logged[t]
    {
      assert Wrote(h, u, k) && Unfinished(st, t, k);
    }
  }

  /** What the steps that touch no chain do, and what they record. */
  lemma PutIs(h: History, st: State, t: TransactionId, k: Key, v: VersionValue)
    requires Enabled(st, Put(t, k, v))
    ensures Apply(st, Put(t, k, v)) ==
            st.(locks := st.locks[k := t], writeSets := st.writeSets[t := st.writeSets[t][k := v]], walLsn := st.walLsn + 1)
    ensures Record(h, st, Put(t, k, v)) == h.(writes := h.writes[(t, k) := v])
    ensures t in st.active && (k in st.locks ==> st.locks[k] == t)
  {
  }

  lemma LogCommitIs(h: History, st: State, t: TransactionId)
    requires Enabled(st, LogCommit(t))
    ensures Apply(st, LogCommit(t)) ==
            st.(active := st.active - {t}, logged := st.logged[t := st.walLsn], walLsn := st.walLsn + 1)
    ensures Record(h, st, LogCommit(t)) == h.(commits := h.commits[t := st.walLsn])
    ensures t in st.active
  {
  }

  lemma SweepIs(h: History, st: State, v: nat, keys: set<Key>)
    requires Enabled(st, VacuumKeys(v, keys))
    ensures Apply(st, VacuumKeys(v, keys)) == st.(chains := Swept(st.chains, keys, st.vacuums[v].watermark))
    ensures Record(h, st, VacuumKeys(v, keys)) == h.(cut := Cut(h.cut, st.chains, keys, st.vacuums[v].watermark))
  {
  }

  /** Only unfinished transactions that are in the log. */
  lemma UnfinishedIsLogged(st: State)
    ensures forall t: TransactionId, k | Unfinished(st, t, k) :: t in st.logged
  {
  }

  lemma BeginIs(st: State)
    requires Inv(st)
    ensures Apply(st, Begin) == st.(active := st.active + {st.nextTxn}, writeSets := st.writeSets[st.nextTxn := map[]],
                                    nextTxn := st.nextTxn + 1, walLsn := st.walLsn + 1)
    ensures st.nextTxn !in st.logged
  {
    hide ChainsOk, PendingOk, SnapshotsOk, ReadsOk;
  }

  lemma BeginBooks(h: History, st: State)
    requires Inv(st) && Explains(h, st)
    ensures var st' := Apply(st, Begin);
            Buffered(st', h) && CommitsOk(st', h) && WritersOk(st', h) && st'.chains == st.chains && st'.logged == st.logged
    ensures forall t: TransactionId, k :: Unfinished(Apply(st, Begin), t, k) <==> Unfinished(st, t, k)
  {
    hide Inv, Apply, ChainsFromWrites, WritesPlaced, FinishAbove, CutsOk;
    BeginIs(st);
    var st' := Apply(st, Begin);
    forall t: TransactionId, k | Wrote(h, t, k) ensures WriterOk(st', t, k) {
      assert WriterOk(st, t, k);
    }
  }

  lemma BeginKeeps(h: History, st: State)
    requires Inv(st) && Explains(h, st)
    ensures Explains(h, Apply(st, Begin))
  {
    UnfinishedIsLogged(st);
    hide Apply, Inv, Buffered, CommitsOk, WritersOk, WritesPlaced, FinishAbove, CutsOk, AllFromWrites, Versions, Unfinished;
    BeginBooks(h, st);
    CutsStay(h, h, st, Apply(st, Begin));
    PlacesStay(h, h, st, Apply(st, Begin));
    AboveStays(h, h, st, Apply(st, Begin));
  }

  /** A version that is already in a chain is not by an active transaction. */
  lemma ActiveHasNoVersions(h: History, h': History, st: State, t: TransactionId)
    requires ChainsOk(st) && ChainsFromWrites(st, h) && t in st.active
    requires forall u: TransactionId, k | u != t && Wrote(h, u, k) :: Wrote(h', u, k) && h'.writes[(u, k)] == h.writes[(u, k)]
    requires forall u: TransactionId | u != t && u in h.commits :: u in h'.commits && h'.commits[u] == h.commits[u]
    ensures forall k | k in st.chains :: AllFromWrites(h', k, Versions(st.chains[k]))
  {
    forall k | k in st.chains ensures AllFromWrites(h', k, Versions(st.chains[k])) {
      var vs := Versions(st.chains[k]);
      assert VersionsOk(st, vs) && AllFromWrites(h, k, vs);
      hide Versions, Ordered;
      forall i | 0 <= i < |vs| ensures FromWrite(h', k, vs[i]) {
        assert FromWrite(h, k, vs[i]);
      }
    }
  }

  lemma PutWriters(h: History, h': History, st: State, st': State, t: TransactionId, k: Key, v: VersionValue)
    requires Buffered(st, h) && CommitsOk(st, h) && WritersOk(st, h)
    requires t in st.active && t in st.writeSets && t < st.nextTxn && (k in st.locks ==> st.locks[k] == t)
    requires h' == h.(writes := h.writes[(t, k) := v])
    requires st' == st.(locks := st.locks[k := t], writeSets := st.writeSets[t := st.writeSets[t][k := v]],
                        walLsn := st.walLsn + 1)
    ensures Buffered(st', h') && CommitsOk(st', h') && WritersOk(st', h')
  {
    forall u: TransactionId, j | Wrote(h', u, j) ensures WriterOk(st', u, j) {
      if (u, j) != (t, k) { assert Wrote(h, u, j) && WriterOk(st, u, j); }
    }
  }

  lemma PutBooks(h: History, st: State, t: TransactionId, k: Key, v: VersionValue)
    requires Inv(st) && Explains(h, st) && Enabled(st, Put(t, k, v))
    ensures var st', h' := Apply(st, Put(t, k, v)), Record(h, st, Put(t, k, v));
            Buffered(st', h') && CommitsOk(st', h') && WritersOk(st', h')
    ensures forall u: TransactionId, j :: Unfinished(Apply(st, Put(t, k, v)), u, j) <==> Unfinished(st, u, j)
  {
    PutIs(h, st, t, k, v);
    assert t !in st.logged;
    hide Apply, Record, Enabled, Inv, ChainsFromWrites, WritesPlaced, FinishAbove;
    var st', h' := Apply(st, Put(t, k, v)), Record(h, st, Put(t, k, v));
    PutWriters(h, h', st, st', t, k, v);
    hide Buffered, CommitsOk, WritersOk;
    PutFinishesNothing(st, st', t, k, v);
  }

  lemma PutFinishesNothing(st: State, st': State, t: TransactionId, k: Key, v: VersionValue)
    requires t !in st.logged && t in st.writeSets
    requires st' == st.(locks := st.locks[k := t], writeSets := st.writeSets[t := st.writeSets[t][k := v]],
                        walLsn := st.walLsn + 1)
    ensures forall u: TransactionId, j :: Unfinished(st', u, j) <==> Unfinished(st, u, j)
  {
  }

  lemma PutKeeps(h: History, st: State, t: TransactionId, k: Key, v: VersionValue)
    requires Inv(st) && Explains(h, st) && Enabled(st, Put(t, k, v))
    ensures Explains(Record(h, st, Put(t, k, v)), Apply(st, Put(t, k, v)))
  {
    var st', h' := Apply(st, Put(t, k, v)), Record(h, st, Put(t, k, v));
    PutIs(h, st, t, k, v);
    assert ChainsOk(st) && CommitsOk(st, h) && t !in h.commits;
    hide Apply, Record, Enabled, Inv, ChainsOk, Buffered, CommitsOk, WritersOk, WritesPlaced, FinishAbove, CutsOk,
         AllFromWrites, Versions;
    PutBooks(h, st, t, k, v);
    ActiveHasNoVersions(h, h', st, t);
    UnfinishedIsLogged(st);
    hide Unfinished;
    CutsStay(h, h', st, st');
    PlacesStay(h, h', st, st');
    AboveStays(h, h', st, st');
  }

  lemma LogCommitBooks(h: History, st: State, t: TransactionId)
    requires Inv(st) && Explains(h, st) && Enabled(st, LogCommit(t))
    ensures var st', h' := Apply(st, LogCommit(t)), Record(h, st, LogCommit(t));
            Buffered(st', h') && CommitsOk(st', h') && WritersOk(st', h')
    ensures forall u: TransactionId, j | u != t :: Unfinished(Apply(st, LogCommit(t)), u, j) <==> Unfinished(st, u, j)
    ensures forall j | Wrote(h, t, j) :: Unfinished(Apply(st, LogCommit(t)), t, j)
  {
    assert t in st.active && t < st.nextTxn && t !in st.logged;
    hide Apply, Record, Inv, ChainsFromWrites, WritesPlaced, FinishAbove;
    LogCommitIs(h, st, t);
    hide Enabled;
    var st', h' := Apply(st, LogCommit(t)), Record(h, st, LogCommit(t));
    LogCommitRecord(h, h', st, st', t);
    hide CommitsOk, Buffered;
    LogCommitWriters(h, h', st, st', t);
    hide WritersOk;
  }

  lemma LogCommitRecord(h: History, h': History, st: State, st': State, t: TransactionId)
    requires CommitsOk(st, h) && Buffered(st, h) && t in st.active && t < st.nextTxn
    requires h' == h.(commits := h.commits[t := st.walLsn])
    requires st' == st.(active := st.active - {t}, logged := st.logged[t := st.walLsn], walLsn := st.walLsn + 1)
    ensures CommitsOk(st', h') && Buffered(st', h')
  {
  }

  lemma LogCommitWriters(h: History, h': History, st: State, st': State, t: TransactionId)
    requires WritersOk(st, h) && t in st.active && h'.writes == h.writes
    requires st' == st.(active := st.active - {t}, logged := st.logged[t := st.walLsn], walLsn := st.walLsn + 1)
    ensures WritersOk(st', h')
    ensures forall j | Wrote(h, t, j) :: Unfinished(st', t, j)
  {
    forall u: TransactionId, j | Wrote(h', u, j) ensures WriterOk(st', u, j) {
      assert Wrote(h, u, j) && WriterOk(st, u, j);
    }
    forall j | Wrote(h, t, j) ensures Unfinished(st', t, j) {
      assert WriterOk(st, t, j);
    }
  }

  lemma LogCommitAbove(h: History, st: State, t: TransactionId)
    requires Inv(st) && Explains(h, st) && Enabled(st, LogCommit(t))
    ensures FinishAbove(Apply(st, LogCommit(t)), Record(h, st, LogCommit(t)))
  {
    var st', h' := Apply(st, LogCommit(t)), Record(h, st, LogCommit(t));
    assert st' == st.(active := st.active - {t}, logged := st.logged[t := st.walLsn], walLsn := st.walLsn + 1);
    assert h' == h.(commits := h.commits[t := st.walLsn]);
    LogCommitBooks(h, st, t);
    hide Apply, Record, Inv, WritesPlaced, ChainsFromWrites, Buffered;
    forall x: TransactionId, u: TransactionId, j | Wrote(h', u, j) && u in h'.commits && u != x && Unfinished(st', x, j)
      ensures h'.commits[u] < st'.logged[x]
    {
      assert Wrote(h, u, j);
      if x != t {
        LoggedWriterLocks(h, st, t, x, j, u);
      }
    }
  }

  /** The key of an unfinished transaction is not one an active transaction wrote. */
  lemma LoggedWriterLocks(h: History, st: State, t: TransactionId, x: TransactionId, j: Key, u: TransactionId)
    requires Inv(st) && Explains(h, st) && t in st.active && x != t && Unfinished(st, x, j) && Wrote(h, u, j)
    ensures u != t
  {
    hide Unfinished, Inv;
    FinisherLocks(st, x, j);
    assert WriterOk(st, u, j);
  }

  lemma LogCommitKeeps(h: History, st: State, t: TransactionId)
    requires Inv(st) && Explains(h, st) && Enabled(st, LogCommit(t))
    ensures Explains(Record(h, st, LogCommit(t)), Apply(st, LogCommit(t)))
  {
    var st', h' := Apply(st, LogCommit(t)), Record(h, st, LogCommit(t));
    assert ChainsOk(st) && forall j :: !Unfinished(st, t, j);
    hide Apply, Record, Inv, ChainsOk, CutsOk, Buffered, CommitsOk, WritersOk, WritesPlaced, FinishAbove, AllFromWrites,
         Versions;
    LogCommitIs(h, st, t);
    LogCommitBooks(h, st, t);
    LogCommitAbove(h, st, t);
    ActiveHasNoVersions(h, h', st, t);
    hide Unfinished;
    CutsStay(h, h', st, st');
    PlacesStay(h, h', st, st');
  }

  /** A transaction that ends leaves what it wrote: nothing of it is unfinished. */
  lemma EndBooks(h: History, st: State, step: Step)
    requires Inv(st) && Explains(h, st) && Enabled(st, step) && (step.Publish? || step.Rollback?)
    ensures var st', h' := Apply(st, step), Record(h, st, step);
            Buffered(st', h') && CommitsOk(st', h') && WritersOk(st', h') && h' == h.(published := h'.published)
    ensures forall t: TransactionId, k :: Unfinished(Apply(st, step), t, k) <==> Unfinished(st, t, k)
    ensures forall t: TransactionId | t in Apply(st, step).logged :: t in st.logged && Apply(st, step).logged[t] == st.logged[t]
  {
    hide Inv, Apply, Enabled, ChainsFromWrites, WritesPlaced, FinishAbove, CutsOk;
    EndIs(h, st, step);
    hide Record;
    var st', h' := Apply(st, step), Record(h, st, step);
    EndWriters(h, h', st, st', step.txn);
    EndCommits(h, h', st, st', step);
    hide WritersOk, Buffered, CommitsOk;
  }

  lemma EndIs(h: History, st: State, step: Step)
    requires Inv(st) && CommitsOk(st, h) && Enabled(st, step) && (step.Publish? || step.Rollback?)
    ensures var st', h', t := Apply(st, step), Record(h, st, step), step.txn;
            && st'.chains == st.chains && st'.nextTxn == st.nextTxn && st.walLsn <= st'.walLsn
            && st'.active == st.active - {t} && st'.logged == st.logged - {t}
            && st'.writeSets == (if step.Publish? then st.writeSets else st.writeSets - {t})
            && st'.locks == Conflicts.Released(st.locks, t)
            && (step.Publish? ==> t in h.commits && st'.currentLsn == h.commits[t])
            && (step.Rollback? ==> st'.currentLsn == st.currentLsn && t !in st.logged)
            && h' == h.(published := if step.Publish? then h.commits[t] else h.published)
    ensures forall k :: !Unfinished(st, step.txn, k)
  {
    hide Versions, VersionsOk, SnapshotsOk, ReadsOk, PendingOk, Swept, Look, TakeSnapshot, Cut, ChainsOk;
  }

  lemma EndCommits(h: History, h': History, st: State, st': State, step: Step)
    requires CommitsOk(st, h) && (step.Publish? || step.Rollback?)
    requires st'.nextTxn == st.nextTxn && st.walLsn <= st'.walLsn
    requires st'.active == st.active - {step.txn} && st'.logged == st.logged - {step.txn}
    requires h'.commits == h.commits && st'.currentLsn == h'.published
    ensures CommitsOk(st', h')
    ensures forall t: TransactionId | t in st'.logged :: t in st.logged && st'.logged[t] == st.logged[t]
  {
  }

  lemma EndWriters(h: History, h': History, st: State, st': State, t: TransactionId)
    requires Buffered(st, h) && WritersOk(st, h) && h'.writes == h.writes && st'.nextTxn == st.nextTxn
    requires st'.active == st.active - {t} && st'.logged == st.logged - {t}
    requires st'.writeSets == st.writeSets || st'.writeSets == st.writeSets - {t}
    requires st'.locks == Conflicts.Released(st.locks, t)
    ensures Buffered(st', h') && WritersOk(st', h')
  {
    forall u: TransactionId, k | Wrote(h', u, k) ensures WriterOk(st', u, k) {
      assert Wrote(h, u, k) && WriterOk(st, u, k);
    }
  }

  lemma EndKeeps(h: History, st: State, step: Step)
    requires Inv(st) && Explains(h, st) && Enabled(st, step) && (step.Publish? || step.Rollback?)
    ensures Explains(Record(h, st, step), Apply(st, step))
  {
    var st', h' := Apply(st, step), Record(h, st, step);
    assert st'.chains == st.chains;
    EndBooks(h, st, step);
    assert forall t: TransactionId, k | Unfinished(st', t, k) :: t in st'.logged;
    hide Inv, Buffered, CommitsOk, WritersOk, WritesPlaced, FinishAbove, CutsOk, AllFromWrites, Versions, Unfinished, Apply,
         Record;
    CutsStay(h, h', st, st');
    PlacesStay(h, h', st, st');
    AboveStays(h, h', st, st');
    forall k | k in st'.chains ensures AllFromWrites(h', k, Versions(st'.chains[k])) {
      SameWrites(h, h', k, Versions(st'.chains[k]));
    }
  }

  // -- Flush, stamp and sweep: one chain changes ------------------------------

  lemma PresentCons(v: Version, vs: seq<Version>, t: TransactionId, lsn: Lsn)
    ensures Present([v] + vs, t, lsn) <==> (v.createdBy == t && v.commitLsn == Some(lsn)) || Present(vs, t, lsn)
  {
    var all := [v] + vs;
    if Present(vs, t, lsn) {
      var i :| 0 <= i < |vs| && vs[i].createdBy == t && vs[i].commitLsn == Some(lsn);
      assert all[i + 1] == vs[i];
    }
    if v.createdBy == t && v.commitLsn == Some(lsn) {
      assert all[0] == v;
    }
  }

  lemma FromWritesCons(h: History, k: Key, v: Version, vs: seq<Version>)
    ensures AllFromWrites(h, k, [v] + vs) <==> FromWrite(h, k, v) && AllFromWrites(h, k, vs)
  {
    hide FromWrite;
    var all := [v] + vs;
    assert all[0] == v && forall i | 0 <= i < |vs| :: all[i + 1] == vs[i];
  }

  /** Two unfinished transactions never share a key. */
  lemma OneFinisher(st: State, t: TransactionId, u: TransactionId, k: Key)
    requires Inv(st) && Unfinished(st, t, k) && Unfinished(st, u, k)
    ensures t == u
  {
    hide Unfinished, Inv;
    FinisherLocks(st, t, k);
    FinisherLocks(st, u, k);
  }

  lemma FinisherLocks(st: State, t: TransactionId, k: Key)
    requires Inv(st) && Unfinished(st, t, k)
    ensures k in st.locks && st.locks[k] == t
  {
    hide Versions, VersionsOk, SnapshotsOk, ReadsOk, PendingOk;
    if k in st.chains && UncommittedBy(st.chains[k], t) {
      assert ChainsOk(st);
    } else {
      assert TxnsOk(st);
    }
  }

  /** The chain of `k` becomes `c`; the transaction that did it is unfinished with the key before. */
  ghost predicate Rewrites(st: State, st': State, t: TransactionId, k: Key, c: VersionChain) {
    && st'.chains == st.chains[k := c]
    && st'.active == st.active && st'.logged == st.logged && st'.locks == st.locks && st'.nextTxn == st.nextTxn
    && st'.walLsn == st.walLsn && st'.currentLsn == st.currentLsn
    && Unfinished(st, t, k)
    && (forall u, j | Unfinished(st', u, j) :: Unfinished(st, u, j))
    && (forall u, j | Unfinished(st, u, j) && j != k :: Unfinished(st', u, j))
    && (forall u, j | u in st.active && u in st.writeSets && j in st.writeSets[u] :: u in st'.writeSets && j in st'.writeSets[u])
    && (forall u, j | u in st'.writeSets && j in st'.writeSets[u] ::
          u in st.writeSets && j in st.writeSets[u] && st'.writeSets[u][j] == st.writeSets[u][j])
  }

  lemma CutAtCons(v: Version, vs: seq<Version>, lsn: Lsn)
    requires CutAt(vs, lsn) && (v.commitLsn.Some? ==> lsn <= v.commitLsn.value)
    ensures CutAt([v] + vs, lsn)
  {
    var all := [v] + vs;
    assert all[0] == v && forall i | 0 <= i < |vs| :: all[i + 1] == vs[i];
    var i :| 0 <= i < |vs| && vs[i].commitLsn == Some(lsn);
    assert all[i + 1].commitLsn == Some(lsn);
  }

  lemma RewriteKeeps(h: History, st: State, st': State, t: TransactionId, k: Key, c: VersionChain)
    requires Inv(st) && Explains(h, st) && Rewrites(st, st', t, k, c)
    requires AllFromWrites(h, k, Versions(c))
    requires forall u | Wrote(h, u, k) && u in h.commits :: Placed(st', h, u, k)
    requires k in h.cut ==> CutAt(Versions(c), h.cut[k])
    ensures Explains(h, st')
  {
    hide Versions, Present, CutAt, AllFromWrites, Unfinished, Inv;
    forall u, j | Wrote(h, u, j) ensures WriterOk(st', u, j) {
      assert WriterOk(st, u, j);
    }
    forall u, j | Wrote(h, u, j) && u in h.commits ensures Placed(st', h, u, j) {
      if j != k { assert Placed(st, h, u, j); }
    }
    assert forall j | j in st'.chains && j != k :: AllFromWrites(h, j, Versions(st.chains[j]));
  }

  lemma FlushRewrites(st: State, t: TransactionId, k: Key)
    requires Inv(st) && Enabled(st, Flush(t, k))
    ensures Rewrites(st, Apply(st, Flush(t, k)), t, k, Prepend(st.chains, k, st.writeSets[t][k], t))
    ensures Unfinished(Apply(st, Flush(t, k)), t, k)
  {
    hide Versions, VersionsOk, SnapshotsOk, ReadsOk, PendingOk, Swept, Look, TakeSnapshot;
    var st' := Apply(st, Flush(t, k));
    forall u, j | Unfinished(st', u, j) ensures Unfinished(st, u, j) {
    }
    forall u, j | Unfinished(st, u, j) && j != k ensures Unfinished(st', u, j) {
    }
  }

  function Below(st: State, k: Key): seq<Version> {
    if k in st.chains then Versions(st.chains[k]) else []
  }

  lemma FlushFacts(h: History, st: State, t: TransactionId, k: Key)
    requires Buffered(st, h) && CommitsOk(st, h) && ChainsFromWrites(st, h) && CutsOk(st, h) && Enabled(st, Flush(t, k))
    ensures var c := Prepend(st.chains, k, st.writeSets[t][k], t);
            && Apply(st, Flush(t, k)).chains == st.chains[k := c]
            && Versions(c) == [Head(c)] + Below(st, k)
            && FromWrite(h, k, Head(c)) && AllFromWrites(h, k, Below(st, k)) && c.commitLsn.None?
            && (k in h.cut ==> CutAt(Versions(c), h.cut[k]))
  {
    hide FromWrite, AllFromWrites, CutAt;
    NoVersions(h, k);
    if k in h.cut {
      CutAtCons(Version(st.writeSets[t][k], t, None), Versions(st.chains[k]), h.cut[k]);
    }
    assert Wrote(h, t, k) && h.writes[(t, k)] == st.writeSets[t][k];
    assert FromWrite(h, k, Version(st.writeSets[t][k], t, None)) by { FlushedIsWrite(h, k, t); }
  }

  lemma FlushedIsWrite(h: History, k: Key, t: TransactionId)
    requires Wrote(h, t, k) && t in h.commits
    ensures FromWrite(h, k, Version(h.writes[(t, k)], t, None))
  {
  }

  lemma FlushKeeps(h: History, st: State, t: TransactionId, k: Key)
    requires Inv(st) && Explains(h, st) && Enabled(st, Flush(t, k))
    ensures Explains(h, Apply(st, Flush(t, k)))
  {
    var st', c := Apply(st, Flush(t, k)), Prepend(st.chains, k, st.writeSets[t][k], t);
    hide Apply, Inv, Versions, Below, AllFromWrites, FromWrite, Prepend, Buffered, CommitsOk, WritersOk, ChainsFromWrites,
         FinishAbove, Rewrites, Present, CutsOk, CutAt;
    FlushFacts(h, st, t, k);
    FlushRewrites(st, t, k);
    FromWritesCons(h, k, Head(c), Below(st, k));
    forall u: TransactionId | Wrote(h, u, k) && u in h.commits ensures Placed(st', h, u, k) {
      assert Placed(st, h, u, k);
      FlushPlaces(h, st, st', t, u, k, c);
    }
    hide Placed, Explains;
    RewriteKeeps(h, st, st', t, k, c);
  }

  lemma FlushPlaces(h: History, st: State, st': State, t: TransactionId, u: TransactionId, k: Key, c: VersionChain)
    requires Inv(st) && Enabled(st, Flush(t, k)) && u in h.commits && Placed(st, h, u, k)
    requires Unfinished(st', t, k) && st'.chains == st.chains[k := c]
    requires Versions(c) == [Head(c)] + Below(st, k) && c.commitLsn.None?
    ensures Placed(st', h, u, k)
  {
    hide Inv, Versions, Present, Unfinished;
    if Unfinished(st, u, k) {
      OneFinisherFlush(st, t, u, k);
    } else {
      PresentCons(Head(c), Below(st, k), u, h.commits[u]);
    }
  }

  lemma NoVersions(h: History, k: Key)
    ensures AllFromWrites(h, k, [])
  {
  }

  lemma OneFinisherFlush(st: State, t: TransactionId, u: TransactionId, k: Key)
    requires Inv(st) && Enabled(st, Flush(t, k)) && Unfinished(st, u, k)
    ensures t == u
  {
    assert Unfinished(st, t, k);
    OneFinisher(st, t, u, k);
  }

  lemma StampRewrites(st: State, t: TransactionId, k: Key)
    requires Inv(st) && Enabled(st, Stamp(t, k))
    ensures Rewrites(st, Apply(st, Stamp(t, k)), t, k, st.chains[k].(commitLsn := Some(st.logged[t])))
  {
    hide Versions, VersionsOk, SnapshotsOk, ReadsOk, PendingOk, Swept, Look, TakeSnapshot;
    var st' := Apply(st, Stamp(t, k));
    forall u, j | Unfinished(st', u, j) ensures Unfinished(st, u, j) {
    }
    forall u, j | Unfinished(st, u, j) && j != k ensures Unfinished(st', u, j) {
    }
  }

  lemma TwoHeads(was: VersionChain, c: VersionChain)
    requires c.prevVersion == was.prevVersion
    ensures Versions(c) == [Head(c)] + OlderVersions(was.prevVersion)
    ensures Versions(was) == [Head(was)] + OlderVersions(was.prevVersion)
  {
  }

  lemma StampPlaces(h: History, st: State, st': State, t: TransactionId, u: TransactionId, k: Key)
    requires Inv(st) && Explains(h, st) && Enabled(st, Stamp(t, k)) && Wrote(h, u, k) && u in h.commits
    requires st'.chains == st.chains[k := st.chains[k].(commitLsn := Some(st.logged[t]))]
    ensures Placed(st', h, u, k)
  {
    hide Versions, Present, Unfinished, Inv, ChainsFromWrites, Buffered, WritersOk, CutsOk;
    assert h.commits[t] == st.logged[t] by { assert CommitsOk(st, h); }
    assert Placed(st, h, u, k);
    StampIsAbove(h, st, t, u, k);
    hide Explains;
    var was, c := st.chains[k], st.chains[k].(commitLsn := Some(st.logged[t]));
    var older := OlderVersions(was.prevVersion);
    TwoHeads(was, c);
    PresentCons(Head(c), older, u, h.commits[u]);
    PresentCons(Head(was), older, u, h.commits[u]);
  }

  /** The oldest version stays the oldest: what is stamped lies above all that is committed. */
  lemma StampCut(h: History, st: State, t: TransactionId, k: Key)
    requires Inv(st) && Enabled(st, Stamp(t, k)) && k in h.cut && CutAt(Versions(st.chains[k]), h.cut[k])
    ensures CutAt(Versions(st.chains[k].(commitLsn := Some(st.logged[t]))), h.cut[k])
  {
    var was, c := st.chains[k], st.chains[k].(commitLsn := Some(st.logged[t]));
    assert Pending(st, t, k);
    assert AllBelow(Versions(was), st.logged[t]);
    hide Versions, Inv, AllBelow, CutAt;
    TwoHeads(was, c);
    StampedCut(Head(was), Head(c), OlderVersions(was.prevVersion), h.cut[k]);
  }

  lemma StampedCut(was: Version, v: Version, older: seq<Version>, lsn: Lsn)
    requires CutAt([was] + older, lsn) && was.commitLsn.None? && v.commitLsn.Some?
    requires AllBelow([was] + older, v.commitLsn.value)
    ensures CutAt([v] + older, lsn)
  {
    var vs := [was] + older;
    var i :| 0 <= i < |vs| && vs[i].commitLsn == Some(lsn);
    assert i > 0 && older[i - 1] == vs[i];
    assert forall j | 0 <= j < |older| :: older[j] == vs[j + 1];
    CutAtCons(v, older, lsn);
  }

  lemma StampKeeps(h: History, st: State, t: TransactionId, k: Key)
    requires Inv(st) && Explains(h, st) && Enabled(st, Stamp(t, k))
    ensures Explains(h, Apply(st, Stamp(t, k)))
  {
    var st' := Apply(st, Stamp(t, k));
    var was, c := st.chains[k], st.chains[k].(commitLsn := Some(st.logged[t]));
    var older := OlderVersions(was.prevVersion);
    TwoHeads(was, c);
    assert AllFromWrites(h, k, Versions(was));
    assert h.commits[t] == st.logged[t];
    assert st'.chains == st.chains[k := c];
    StampRewrites(st, t, k);
    if k in h.cut {
      StampCut(h, st, t, k);
    }
    hide Versions, OlderVersions, AllFromWrites, Apply, Inv, Rewrites, Placed, Explains, CutAt;
    FromWritesCons(h, k, Head(c), older);
    FromWritesCons(h, k, Head(was), older);
    forall u: TransactionId | Wrote(h, u, k) && u in h.commits ensures Placed(st', h, u, k) {
      StampPlaces(h, st, st', t, u, k);
    }
    RewriteKeeps(h, st, st', t, k, c);
  }

  lemma StampIsAbove(h: History, st: State, t: TransactionId, u: TransactionId, k: Key)
    requires Inv(st) && FinishAbove(st, h) && Enabled(st, Stamp(t, k)) && Wrote(h, u, k) && u in h.commits
    ensures u != t ==> h.commits[u] < st.logged[t] && !Unfinished(st, u, k)
  {
    assert Unfinished(st, t, k);
    if u != t && Unfinished(st, u, k) {
      OneFinisher(st, t, u, k);
    }
  }

  /** A sweep of an ordered chain leaves its base as the oldest version; what it cuts off lies at or below. */
  lemma BaseIsOldest(vs: seq<Version>, w: Lsn, t: TransactionId, lsn: Lsn)
    requires Ordered(vs)
    ensures var kept, base := LiveAndBase(vs, w), Base(vs, w);
            && kept <= vs
            && (base.None? ==> kept == vs)
            && (base.Some? ==> CutAt(kept, base.value))
            && (Present(vs, t, lsn) ==> Present(kept, t, lsn) || (base.Some? && lsn <= base.value))
            && (base.Some? && AllAbove(vs, lsn) ==> lsn <= base.value)
  {
    var kept, n := LiveAndBase(vs, w), LiveCount(vs, w);
    if n < |vs| {
      assert kept[n] == vs[n];
      assert forall j | 0 <= j < |kept| :: kept[j] == vs[j];
      if Present(vs, t, lsn) {
        var i :| 0 <= i < |vs| && vs[i].createdBy == t && vs[i].commitLsn == Some(lsn);
        if i <= n { assert kept[i] == vs[i]; }
      }
    }
  }

  lemma PrefixFromWrites(h: History, k: Key, part: seq<Version>, vs: seq<Version>)
    requires part <= vs && AllFromWrites(h, k, vs)
    ensures AllFromWrites(h, k, part)
  {
    hide FromWrite;
    assert forall j | 0 <= j < |part| :: part[j] == vs[j];
  }

  lemma SweptChain(st: State, keys: set<Key>, w: Lsn, k: Key)
    requires Inv(st) && k in st.chains
    ensures k in Swept(st.chains, keys, w) && Ordered(Versions(st.chains[k]))
    ensures Versions(Swept(st.chains, keys, w)[k]) ==
            if k in keys then LiveAndBase(Versions(st.chains[k]), w) else Versions(st.chains[k])
  {
    hide Versions, Vacuum, Ordered, LiveAndBase, FirstVisible;
    assert VersionsOk(st, Versions(st.chains[k]));
    VacuumKeepsMeaning(st.chains[k], w, Snapshot(0, "", w, 0, {}));
  }

  lemma CutIs(cut: map<Key, Lsn>, chains: map<Key, VersionChain>, keys: set<Key>, w: Lsn, k: Key)
    ensures var cut', swept := Cut(cut, chains, keys, w), k in chains && k in keys && Base(Versions(chains[k]), w).Some?;
            && (k in cut' <==> k in cut || swept)
            && (swept ==> cut'[k] == Base(Versions(chains[k]), w).value)
            && (k in cut && !swept ==> cut'[k] == cut[k])
  {
    hide Versions, Base;
  }

  lemma SweepBooks(h: History, h': History, st: State, st': State, keys: set<Key>, w: Lsn)
    requires ChainsOk(st) && Buffered(st, h) && CommitsOk(st, h) && WritersOk(st, h)
    requires st' == st.(chains := Swept(st.chains, keys, w))
    requires h'.writes == h.writes && h'.commits == h.commits && h'.published == h.published
    ensures Buffered(st', h') && CommitsOk(st', h') && WritersOk(st', h')
    ensures forall t: TransactionId, k :: Unfinished(st', t, k) <==> Unfinished(st, t, k)
  {
    HeadsStay(st, keys, w);
    hide ChainsOk, Swept;
    SameBooks(h, h', st, st');
    hide Buffered, CommitsOk, WritersOk;
  }

  lemma SameBooks(h: History, h': History, st: State, st': State)
    requires Buffered(st, h) && CommitsOk(st, h) && WritersOk(st, h) && st' == st.(chains := st'.chains)
    requires h'.writes == h.writes && h'.commits == h.commits && h'.published == h.published
    ensures Buffered(st', h') && CommitsOk(st', h') && WritersOk(st', h')
  {
    forall t: TransactionId, k | Wrote(h', t, k) ensures WriterOk(st', t, k) {
      assert Wrote(h, t, k) && WriterOk(st, t, k);
    }
  }

  lemma SweepPlaces(h: History, h': History, st: State, st': State, keys: set<Key>, w: Lsn)
    requires Inv(st) && WritesPlaced(st, h) && CutsOk(st, h) && st' == st.(chains := Swept(st.chains, keys, w))
    requires h' == h.(cut := Cut(h.cut, st.chains, keys, w))
    requires forall t: TransactionId, k | Unfinished(st, t, k) :: Unfinished(st', t, k)
    ensures WritesPlaced(st', h')
  {
    hide Inv, Swept, Versions, Present, AllAbove, Unfinished, Ordered, Cut, Base, LiveAndBase;
    forall t: TransactionId, k | Wrote(h', t, k) && t in h'.commits ensures Placed(st', h', t, k) {
      assert Wrote(h, t, k) && Placed(st, h, t, k);
      CutIs(h.cut, st.chains, keys, w, k);
      if k in st.chains {
        SweptChain(st, keys, w, k);
        BaseIsOldest(Versions(st.chains[k]), w, t, if k in h.cut then h.cut[k] else h.commits[t]);
        BaseIsOldest(Versions(st.chains[k]), w, t, h.commits[t]);
      }
    }
  }

  lemma SweepCuts(h: History, h': History, st: State, st': State, keys: set<Key>, w: Lsn)
    requires Inv(st) && CutsOk(st, h) && st' == st.(chains := Swept(st.chains, keys, w))
    requires h' == h.(cut := Cut(h.cut, st.chains, keys, w))
    ensures CutsOk(st', h')
  {
    hide Inv, Swept, Versions, CutAt, Ordered, Cut, Base, LiveAndBase, Present, AllAbove;
    forall k | k in h'.cut ensures k in st'.chains && CutAt(Versions(st'.chains[k]), h'.cut[k]) {
      CutIs(h.cut, st.chains, keys, w, k);
      SweptChain(st, keys, w, k);
      BaseIsOldest(Versions(st.chains[k]), w, 0, 0);
    }
  }

  lemma SweptKeys(chains: map<Key, VersionChain>, keys: set<Key>, w: Lsn)
    ensures Swept(chains, keys, w).Keys == chains.Keys
  {
  }

  lemma SweepFromWrites(h: History, h': History, st: State, st': State, keys: set<Key>, w: Lsn)
    requires Inv(st) && ChainsFromWrites(st, h) && st' == st.(chains := Swept(st.chains, keys, w))
    requires h'.writes == h.writes && h'.commits == h.commits
    ensures ChainsFromWrites(st', h')
  {
    hide Inv, Swept, Versions, AllFromWrites, Ordered, LiveAndBase, Base, CutAt, Present, AllAbove;
    SweptKeys(st.chains, keys, w);
    forall k | k in st'.chains ensures AllFromWrites(h', k, Versions(st'.chains[k])) {
      SweptChain(st, keys, w, k);
      BaseIsOldest(Versions(st.chains[k]), w, 0, 0);
      PrefixFromWrites(h, k, Versions(st'.chains[k]), Versions(st.chains[k]));
      SameWrites(h, h', k, Versions(st'.chains[k]));
    }
  }

  lemma SweepKeeps(h: History, st: State, v: nat, keys: set<Key>)
    requires Inv(st) && Explains(h, st) && Enabled(st, VacuumKeys(v, keys))
    ensures Explains(Record(h, st, VacuumKeys(v, keys)), Apply(st, VacuumKeys(v, keys)))
  {
    var st', h' := Apply(st, VacuumKeys(v, keys)), Record(h, st, VacuumKeys(v, keys));
    var w := st.vacuums[v].watermark;
    SweepIs(h, st, v, keys);
    hide Apply, Record, Enabled, Swept, Cut, Buffered, CommitsOk, WritersOk, WritesPlaced, FinishAbove, ChainsFromWrites, CutsOk;
    assert ChainsOk(st);
    hide Inv;
    SweepBooks(h, h', st, st', keys, w);
    UnfinishedIsLogged(st);
    hide Unfinished;
    SweepPlaces(h, h', st, st', keys, w);
    SweepCuts(h, h', st, st', keys, w);
    SweepFromWrites(h, h', st, st', keys, w);
    AboveStays(h, h', st, st');
  }

  lemma SameWrites(h: History, h': History, k: Key, vs: seq<Version>)
    requires h'.writes == h.writes && h'.commits == h.commits
    ensures AllFromWrites(h', k, vs) <==> AllFromWrites(h, k, vs)
  {
  }

  lemma StepKeepsExplained(h: History, st: State, step: Step)
    requires Inv(st) && Explains(h, st)
    ensures Explains(Record(h, st, step), Apply(st, step))
  {
    if Enabled(st, step) {
      hide Inv, Explains;
      match step
      case Begin => BeginKeeps(h, st);
      case Put(t, k, v) => PutKeeps(h, st, t, k, v);
      case LogCommit(t) => LogCommitKeeps(h, st, t);
      case Flush(t, k) => FlushKeeps(h, st, t, k);
      case Stamp(t, k) => StampKeeps(h, st, t, k);
      case Publish(_) => EndKeeps(h, st, step);
      case Rollback(_) => EndKeeps(h, st, step);
      case VacuumKeys(v, keys) => SweepKeeps(h, st, v, keys);
      case _ => ReadersKeep(h, st, Apply(st, step));
    }
  }

  lemma {:induction false} RunIsExplained(h: History, st: State, steps: seq<Step>)
    requires Inv(st) && Explains(h, st)
    ensures Inv(Exec(st, steps)) && Explains(HistoryFrom(h, st, steps), Exec(st, steps))
    decreases |steps|
  {
    hide Inv, Explains, Record, Apply;
    if steps != [] {
      StepKeepsInv(st, steps[0]);
      StepKeepsExplained(h, st, steps[0]);
      RunIsExplained(Record(h, st, steps[0]), Apply(st, steps[0]), steps[1..]);
    }
  }

  // ---------------------------------------------------------------------------
  // What is read
  // ---------------------------------------------------------------------------

  /** In every run every version is the last value its creator put under the key; the creator has written its
      commit record, and the version carries no other LSN than that record's. */
  lemma VersionsAreCommittedWrites(run: seq<Step>, k: Key, i: nat)
    requires k in Exec(Init, run).chains && i < |Versions(Exec(Init, run).chains[k])|
    ensures var h, v := HistoryOf(run), Versions(Exec(Init, run).chains[k])[i];
            && Wrote(h, v.createdBy, k) && v.value == h.writes[(v.createdBy, k)]
            && v.createdBy in h.commits && (v.commitLsn.Some? ==> v.commitLsn.value == h.commits[v.createdBy])
  {
    InitInv();
    NothingToExplain();
    hide Explains, Inv, Exec, HistoryFrom, Versions;
    RunIsExplained(NoHistory, Init, run);
    ExplainedVersion(HistoryOf(run), Exec(Init, run), k, i);
  }

  /** In every run the published LSN is the commit LSN of the last transaction to publish, not the greatest. */
  lemma PublishedIsLast(run: seq<Step>)
    ensures Exec(Init, run).currentLsn == HistoryOf(run).published
  {
    InitInv();
    NothingToExplain();
    hide Inv, Exec, HistoryFrom;
    RunIsExplained(NoHistory, Init, run);
  }

  /** So it can fall: of two overlapping commits the older publishes last. */
  lemma PublishedLsnCanFall(a: Key, b: Key, v: VersionValue) returns (run: seq<Step>, more: seq<Step>)
    requires a != b
    ensures Exec(Init, run + more).currentLsn < Exec(Init, run).currentLsn
  {
    hide Apply, Exec;
    var start := [Begin, Begin] + ([Put(1, a, v), Put(2, b, v)] + ([LogCommit(1), LogCommit(2)] + []));
    var finish := [Flush(2, b), Stamp(2, b)] + [Publish(2)];
    run, more := start + finish, [Flush(1, a), Stamp(1, a)] + [Publish(1)];
    RaceStarts(a, b, v);
    YoungerWrites(a, b, v);
    ExecSplit(Init, start, finish);
    ExecSplit(Init, run, more);
    var st := BothLogged(a, b, v);
    var mid := Apply(Apply(st, Flush(2, b)), Stamp(2, b));
    ExecTwo(st, Flush(2, b), Stamp(2, b), [Publish(2)]);
    ExecOne(mid, Publish(2));
    var st2 := Apply(mid, Publish(2));
    YoungerIsDone(mid, a, b, v);
    OlderFlushes(st2, a, v);
    OlderStamps(Apply(st2, Flush(1, a)), a, v);
    var mid2 := Apply(Apply(st2, Flush(1, a)), Stamp(1, a));
    ExecTwo(st2, Flush(1, a), Stamp(1, a), [Publish(1)]);
    ExecOne(mid2, Publish(1));
    OlderPublishes(mid2);
  }

  lemma YoungerIsDone(mid: State, a: Key, b: Key, v: VersionValue)
    requires a != b
    requires mid == BothLogged(a, b, v).(chains := map[b := VersionChain(v, 2, Some(6), None)],
                                         writeSets := map[1 := map[a := v], 2 := map[]])
    ensures Apply(mid, Publish(2)) == mid.(currentLsn := 6, logged := map[1 := 5], locks := map[a := 1])
  {
    hide Swept, Look, TakeSnapshot;
  }

  lemma OlderFlushes(st: State, a: Key, v: VersionValue)
    requires a !in st.chains && 1 in st.logged && 1 in st.writeSets && st.writeSets[1] == map[a := v]
    ensures Apply(st, Flush(1, a)) ==
            st.(chains := st.chains[a := VersionChain(v, 1, None, None)], writeSets := st.writeSets[1 := map[]])
  {
    hide Swept, Look, TakeSnapshot;
    assert st.writeSets[1] - {a} == map[];
  }

  lemma OlderStamps(st: State, a: Key, v: VersionValue)
    requires a in st.chains && st.chains[a] == VersionChain(v, 1, None, None) && 1 in st.logged && st.logged[1] == 5
    ensures Apply(st, Stamp(1, a)) == st.(chains := st.chains[a := VersionChain(v, 1, Some(5), None)])
  {
    hide Swept, Look, TakeSnapshot;
  }

  lemma OlderPublishes(st: State)
    requires 1 in st.logged && st.logged[1] == 5 && 1 in st.writeSets && st.writeSets[1] == map[]
    requires forall k | k in st.chains :: st.chains[k].commitLsn.Some?
    ensures Apply(st, Publish(1)).currentLsn == 5
  {
    hide Swept, Look, TakeSnapshot;
  }

  lemma ExplainedVersion(h: History, st: State, k: Key, i: nat)
    requires Explains(h, st) && k in st.chains && i < |Versions(st.chains[k])|
    ensures FromWrite(h, k, Versions(st.chains[k])[i])
  {
    assert AllFromWrites(h, k, Versions(st.chains[k]));
  }

  /** In an ordered chain nothing visible is newer than what is found first. */
  lemma {:induction false} FirstIsNewest(vs: seq<Version>, s: Snapshot, i: nat)
    requires Ordered(vs) && i < |vs| && VisibleTo(vs[i], s)
    ensures FirstVisible(vs, s).Some? && vs[i].commitLsn.value <= FirstVisible(vs, s).value.commitLsn.value
  {
    if VisibleTo(vs[0], s) {
      if i > 0 { assert vs[0].commitLsn.Some?; }
    } else {
      assert vs[1..][i - 1] == vs[i];
      FirstIsNewest(vs[1..], s, i - 1);
    }
  }

  /** The key was swept down to versions that are all newer than the LSN. */
  predicate CutAbove(h: History, k: Key, lsn: Lsn) {
    k in h.cut && lsn < h.cut[k]
  }

  /** A committed write at or below a settled snapshot is in the chain and visible, or was cut off. */
  lemma CommittedIsFound(h: History, st: State, id: nat, t: TransactionId, k: Key)
    requires Inv(st) && Explains(h, st) && id in st.snapshots && SettledBelow(st, st.snapshots[id].lsn)
    requires Committed(h, t, k, st.snapshots[id].lsn)
    ensures k in st.chains
    ensures SeenAt(Versions(st.chains[k]), st.snapshots[id], h.commits[t]) || (k in h.cut && h.commits[t] <= h.cut[k])
  {
    hide Versions, Present, CutAt, SeenAt;
    assert Placed(st, h, t, k);
    assert t in st.logged ==> h.commits[t] == st.logged[t];
    assert !Unfinished(st, t, k);
    assert k in h.cut ==> k in st.chains;
    if k in st.chains && Present(Versions(st.chains[k]), t, h.commits[t]) {
      assert SnapshotOk(st, st.snapshots[id]);
      PresentIsVisible(Versions(st.chains[k]), st.snapshots[id], t, h.commits[t]);
    }
  }

  predicate SeenAt(vs: seq<Version>, s: Snapshot, lsn: Lsn) {
    exists i | 0 <= i < |vs| :: VisibleTo(vs[i], s) && vs[i].commitLsn == Some(lsn)
  }

  lemma PresentIsVisible(vs: seq<Version>, s: Snapshot, t: TransactionId, lsn: Lsn)
    requires Present(vs, t, lsn) && lsn <= s.lsn && ActiveCommitAbove(s, vs)
    ensures SeenAt(vs, s, lsn)
  {
    var i :| 0 <= i < |vs| && vs[i].createdBy == t && vs[i].commitLsn == Some(lsn);
    assert VisibleTo(vs[i], s);
  }

  /** What a held snapshot with no unfinished commit at or below its LSN finds is, in every run and with any
      vacuums, the write of the last transaction to commit the key at or below that LSN. It finds nothing if and
      only if there is no such transaction, or a sweep has left only newer versions. */
  lemma SnapshotReadsLastWrite(run: seq<Step>, id: nat, k: Key)
    requires var st := Exec(Init, run);
             id in st.snapshots && SettledBelow(st, st.snapshots[id].lsn)
    ensures var h, st := HistoryOf(run), Exec(Init, run);
            var s := st.snapshots[id];
            var found := View(st, s, k);
            && (found.Some? ==>
                  var t := found.value.createdBy;
                  && LastWriter(h, t, k, s.lsn)
                  && found.value == Version(h.writes[(t, k)], t, Some(h.commits[t])))
            && (found.None? <==> CutAbove(h, k, s.lsn) || forall t :: !Committed(h, t, k, s.lsn))
  {
    InitInv();
    NothingToExplain();
    hide Explains, Inv, Exec, HistoryFrom;
    RunIsExplained(NoHistory, Init, run);
    ExplainedView(HistoryOf(run), Exec(Init, run), id, k);
  }

  /** No committed write at or below a settled snapshot's LSN is newer than what the snapshot finds. */
  lemma NothingNewer(h: History, st: State, id: nat, t: TransactionId, k: Key)
    requires Inv(st) && Explains(h, st) && id in st.snapshots && SettledBelow(st, st.snapshots[id].lsn)
    requires Committed(h, t, k, st.snapshots[id].lsn)
    ensures var found := View(st, st.snapshots[id], k);
            && (found.Some? ==> found.value.commitLsn.Some? && h.commits[t] <= found.value.commitLsn.value)
            && (found.None? ==> CutAbove(h, k, st.snapshots[id].lsn))
  {
    hide Inv, Explains, SettledBelow, FirstVisible, Versions, SeenAt, Ordered;
    CommittedIsFound(h, st, id, t, k);
    if k in h.cut {
      OldestIsFound(h, st, id, k);
    }
    ChainIsOrdered(st, k);
    NewestIsFound(Versions(st.chains[k]), st.snapshots[id], h.commits[t]);
  }

  lemma ChainIsOrdered(st: State, k: Key)
    requires Inv(st) && k in st.chains
    ensures Ordered(Versions(st.chains[k]))
  {
    hide Versions, Ordered;
    assert VersionsOk(st, Versions(st.chains[k]));
  }

  lemma NewestIsFound(vs: seq<Version>, s: Snapshot, lsn: Lsn)
    requires Ordered(vs)
    ensures FirstVisible(vs, s).Some? ==> FirstVisible(vs, s).value.commitLsn.Some?
    ensures SeenAt(vs, s, lsn) ==> FirstVisible(vs, s).Some? && lsn <= FirstVisible(vs, s).value.commitLsn.value
  {
    hide FirstVisible;
    if SeenAt(vs, s, lsn) {
      var i :| 0 <= i < |vs| && VisibleTo(vs[i], s) && vs[i].commitLsn == Some(lsn);
      FirstIsNewest(vs, s, i);
    }
  }

  /** A snapshot at or above the oldest version of a cut key finds that one or a newer one; one below finds nothing. */
  lemma OldestIsFound(h: History, st: State, id: nat, k: Key)
    requires Inv(st) && Explains(h, st) && id in st.snapshots && k in h.cut
    ensures var s := st.snapshots[id];
            var found := View(st, s, k);
            && (found.None? <==> s.lsn < h.cut[k])
            && (found.Some? ==> found.value.commitLsn.Some? && h.cut[k] <= found.value.commitLsn.value)
  {
    hide Versions, CutAt, ActiveCommitAbove, Ordered, FirstVisible, ChainsOk, PendingOk;
    assert CutAt(Versions(st.chains[k]), h.cut[k]);
    assert SnapshotOk(st, st.snapshots[id]);
    ChainIsOrdered(st, k);
    CutFinds(Versions(st.chains[k]), st.snapshots[id], h.cut[k]);
  }

  lemma CutFinds(vs: seq<Version>, s: Snapshot, lsn: Lsn)
    requires Ordered(vs) && CutAt(vs, lsn) && ActiveCommitAbove(s, vs)
    ensures FirstVisible(vs, s).None? <==> s.lsn < lsn
    ensures FirstVisible(vs, s).Some? ==>
              FirstVisible(vs, s).value.commitLsn.Some? && lsn <= FirstVisible(vs, s).value.commitLsn.value
  {
    hide FirstVisible;
    var i :| 0 <= i < |vs| && vs[i].commitLsn == Some(lsn);
    if lsn <= s.lsn {
      assert VisibleTo(vs[i], s);
      FirstIsNewest(vs, s, i);
    }
  }

  /** What is found is a committed write. */
  lemma FoundIsWrite(h: History, st: State, id: nat, k: Key)
    requires Inv(st) && Explains(h, st) && id in st.snapshots
    ensures var s := st.snapshots[id];
            var found := View(st, s, k);
            found.Some? ==>
              && Committed(h, found.value.createdBy, k, s.lsn)
              && found.value == Version(h.writes[(found.value.createdBy, k)], found.value.createdBy,
                  Some(h.commits[found.value.createdBy]))
  {
    hide Versions, AllFromWrites, FirstVisible, Inv, FromWrite;
    if k in st.chains {
      assert AllFromWrites(h, k, Versions(st.chains[k]));
      FoundFrom(h, k, Versions(st.chains[k]), st.snapshots[id]);
    }
  }

  lemma FoundFrom(h: History, k: Key, vs: seq<Version>, s: Snapshot)
    requires AllFromWrites(h, k, vs)
    ensures var found := FirstVisible(vs, s);
            found.Some? ==>
              && Committed(h, found.value.createdBy, k, s.lsn)
              && found.value == Version(h.writes[(found.value.createdBy, k)], found.value.createdBy,
                  Some(h.commits[found.value.createdBy]))
  {
    hide FirstVisible;
    var found := FirstVisible(vs, s);
    if found.Some? {
      var i :| 0 <= i < |vs| && vs[i] == found.value;
      assert FromWrite(h, k, vs[i]);
    }
  }

  lemma ExplainedView(h: History, st: State, id: nat, k: Key)
    requires Inv(st) && Explains(h, st) && id in st.snapshots && SettledBelow(st, st.snapshots[id].lsn)
    ensures var s := st.snapshots[id];
            var found := View(st, s, k);
            && (found.Some? ==>
                  var t := found.value.createdBy;
                  && LastWriter(h, t, k, s.lsn)
                  && found.value == Version(h.writes[(t, k)], t, Some(h.commits[t])))
            && (found.None? <==> CutAbove(h, k, s.lsn) || forall t :: !Committed(h, t, k, s.lsn))
  {
    assert CommitsOk(st, h);
    if k in h.cut {
      OldestIsFound(h, st, id, k);
    }
    hide Inv, Explains, SettledBelow, View;
    FoundIsWrite(h, st, id, k);
    forall t: TransactionId | Committed(h, t, k, st.snapshots[id].lsn)
      ensures var found := View(st, st.snapshots[id], k);
              if found.Some? then found.value.commitLsn.Some? && h.commits[t] <= found.value.commitLsn.value
              else CutAbove(h, k, st.snapshots[id].lsn)
    {
      NothingNewer(h, st, id, t, k);
    }
  }
}
