/** Write locks per key (src/txn/conflict.rs). */
module Conflicts {
  import opened Wrappers
  import opened Transactions

  type Locks = map<Key, TransactionId>

  /** The two conflict errors, with the transaction that is in the way. */
  datatype Conflict = WriteWrite(key: Key, holder: TransactionId) | ReadWrite(key: Key, writer: TransactionId)

  predicate MayWrite(locks: Locks, key: Key, txn: TransactionId) {
    key in locks ==> locks[key] == txn
  }

  function Released(locks: Locks, txn: TransactionId): Locks {
    map k | k in locks && locks[k] != txn :: locks[k]
  }

  class ConflictDetector {
    var writeLocks: Locks

    constructor ()
      ensures writeLocks == map[]
    {
      writeLocks := map[];
    }

    method CheckWriteConflict(key: Key, txn: TransactionId) returns (r: Result<(), Conflict>)
      ensures r.Ok? <==> MayWrite(writeLocks, key, txn)
      ensures r.Ok? <==> key !in writeLocks || writeLocks[key] == txn
      ensures r.Err? ==> r.error == WriteWrite(key, writeLocks[key]) && writeLocks[key] != txn
    {
      if key in writeLocks && writeLocks[key] != txn {
        return Err(WriteWrite(key, writeLocks[key]));
      }
      r := Ok(());
    }

    /** After a passed check, the key is closed to everyone else and no other lock has moved. */
    method AcquireWriteLock(key: Key, txn: TransactionId)
      modifies this
      ensures writeLocks == old(writeLocks)[key := txn]
      ensures forall u :: MayWrite(writeLocks, key, u) <==> u == txn
      ensures forall k, u | k != key :: MayWrite(writeLocks, k, u) <==> MayWrite(old(writeLocks), k, u)
    {
      writeLocks := writeLocks[key := txn];
    }

    /** Exactly the locks of `txn` become free for everyone. */
    method ReleaseLocks(txn: TransactionId)
      modifies this
      ensures writeLocks == Released(old(writeLocks), txn)
      ensures forall k :: k in writeLocks <==> k in old(writeLocks) && old(writeLocks)[k] != txn
      ensures forall k | k in writeLocks :: writeLocks[k] == old(writeLocks)[k]
      ensures forall k, u :: MayWrite(writeLocks, k, u) <==>
                             MayWrite(old(writeLocks), k, u) || old(writeLocks)[k] == txn
    {
      writeLocks := map k | k in writeLocks && writeLocks[k] != txn :: writeLocks[k];
    }

    /** Passes exactly when no key that was read is locked by another transaction,
        whatever the order in which the read set is met. */
    method CheckReadWriteConflicts(readSet: set<Key>, txn: TransactionId) returns (r: Result<(), Conflict>)
      ensures r.Ok? <==> forall k | k in readSet :: MayWrite(writeLocks, k, txn)
      ensures r.Ok? <==> forall k | k in readSet && k in writeLocks :: writeLocks[k] == txn
      ensures r.Err? ==>
                && r.error.ReadWrite? && r.error.key in readSet && r.error.key in writeLocks
                && r.error.writer == writeLocks[r.error.key] != txn
    {
      var rest := readSet;
      while rest != {}
        invariant rest <= readSet
        invariant forall k | k in readSet - rest :: MayWrite(writeLocks, k, txn)
        decreases |rest|
      {
        var k :| k in rest;
        if k in writeLocks && writeLocks[k] != txn {
          return Err(ReadWrite(k, writeLocks[k]));
        }
        rest := rest - {k};
      }
      r := Ok(());
    }
  }
}
