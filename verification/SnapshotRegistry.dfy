/** The named snapshots of the storage engine (src/engine.rs). */
module SnapshotRegistry {
  import opened Wrappers
  import opened Transactions
  import opened VersionChains
  import opened Mvcc

  datatype EngineError = EmptyName | NameExists | SnapshotNotFound | NotYetCommitted | NotPinned

  /** The characters with the Unicode property White_Space. */
  predicate IsSpace(c: char) {
    var n := c as int;
    || 0x09 <= n <= 0x0D || n == 0x20 || n == 0x85 || n == 0xA0 || n == 0x1680
    || 0x2000 <= n <= 0x200A || n == 0x2028 || n == 0x2029 || n == 0x202F || n == 0x205F || n == 0x3000
  }

  function TrimStart(s: string): (r: string)
    ensures r != "" ==> !IsSpace(r[0])
  {
    if s != "" && IsSpace(s[0]) then TrimStart(s[1..]) else s
  }

  function Trim(s: string): (r: string)
    ensures r != "" ==> !IsSpace(r[|r| - 1])
  {
    TrimEnd(TrimStart(s))
  }

  function TrimEnd(s: string): (r: string)
    ensures r != "" ==> !IsSpace(r[|r| - 1])
    ensures r <= s
  {
    if s != "" && IsSpace(s[|s| - 1]) then TrimEnd(s[..|s| - 1]) else s
  }

  /** The white space code points, one by one. */
  const SpaceCodes: seq<int> := [
    0x9, 0xA, 0xB, 0xC, 0xD, 0x20, 0x85, 0xA0, 0x1680, 0x2000, 0x2001, 0x2002, 0x2003, 0x2004, 0x2005, 0x2006, 0x2007,
    0x2008, 0x2009, 0x200A, 0x2028, 0x2029, 0x202F, 0x205F, 0x3000]

  predicate Listed(c: char) {
    c as int in SpaceCodes
  }

  predicate AllSpace(s: string) {
    forall i | 0 <= i < |s| :: Listed(s[i])
  }

  lemma SpaceIffListed(c: char)
    ensures IsSpace(c) <==> Listed(c)
  {
    var n := c as int;
    if IsSpace(c) {
      var i := if n <= 0xD then n - 9 else if n == 0x20 then 5 else if n == 0x85 then 6 else if n == 0xA0 then 7
          else if n == 0x1680 then 8 else if n <= 0x200A then n - 0x2000 + 9 else if n == 0x2028 then 20
          else if n == 0x2029 then 21 else if n == 0x202F then 22 else if n == 0x205F then 23 else 24;
      assert SpaceCodes[i] == n;
    }
  }

  /** A name is trimmed to what stands between the white space at its two ends. */
  lemma TrimIsExact(s: string, i: nat, j: nat)
    requires i <= j <= |s| && AllSpace(s[..i]) && AllSpace(s[j..])
    requires i < j ==> !AllSpace(s[i..i + 1]) && !AllSpace(s[j - 1..j])
    ensures Trim(s) == s[i..j]
  {
    hide IsSpace, Listed;
    TrimStartAt(s, i, j);
    if i < j {
      SpaceIffListed(s[j - 1]);
      assert s[i..][..j - i] == s[i..j];
      TrimEndAt(s[i..], j - i);
    } else {
      assert s[i..j] == "";
    }
  }

  lemma {:induction false} TrimStartAt(s: string, i: nat, j: nat)
    requires i <= j <= |s| && AllSpace(s[..i]) && AllSpace(s[j..])
    requires i < j ==> !AllSpace(s[i..i + 1])
    ensures TrimStart(s) == if i < j then s[i..] else ""
    decreases |s|
  {
    hide IsSpace, Listed;
    if s != "" {
      SpaceIffListed(s[0]);
      if i > 0 {
        assert s[..i][0] == s[0];
        assert AllSpace(s[1..][..i - 1]) by { assert forall k | 0 <= k < i - 1 :: s[1..][k] == s[..i][k + 1]; }
        assert s[1..][j - 1..] == s[j..] && s[1..][i - 1..] == s[i..];
        assert i < j ==> s[1..][i - 1..i] == s[i..i + 1];
        TrimStartAt(s[1..], i - 1, j - 1);
      } else if j == 0 {
        assert s[j..][0] == s[0];
        assert AllSpace(s[1..][0..]) by { assert forall k | 0 <= k < |s| - 1 :: s[1..][0..][k] == s[j..][k + 1]; }
        TrimStartAt(s[1..], 0, 0);
      } else {
        assert s[0..] == s && s[0..1][0] == s[0];
      }
    }
  }

  lemma {:induction false} TrimEndAt(s: string, j: nat)
    requires 0 < j <= |s| && AllSpace(s[j..]) && !IsSpace(s[j - 1])
    ensures TrimEnd(s) == s[..j]
    decreases |s|
  {
    hide IsSpace, Listed;
    if j < |s| {
      var n := |s| - 1;
      assert s[j..][n - j] == s[n];
      SpaceIffListed(s[n]);
      assert AllSpace(s[..n][j..]) by { assert forall k | 0 <= k < n - j :: s[..n][j..][k] == s[j..][k]; }
      assert s[..n][..j] == s[..j];
      TrimEndAt(s[..n], j);
    } else {
      assert s[..j] == s;
    }
  }

  function SweepOf(looked: Option<Lsn>): Sweep {
    if looked.Some? then At(looked.value) else FoundNone
  }

  lemma SameSnapshot(st: State, s: Snapshot)
    requires st.creating == Some(Creating(s.name, s.lsn)) && st.nextSnapshot == s.id && st.active == s.activeTxns
    requires s.WellFormed() && if s.activeTxns == {} then s.minActiveTxn == 0 else s.minActiveTxn in s.activeTxns
    ensures TakeSnapshot(st) == s
  {
  }

  class Registry {
    var snapshots: map<nat, Snapshot>
    var nextSnapshotId: nat
    var currentLsn: Lsn

    /** Ids are allocated upwards and names are distinct. */
    ghost predicate Valid()
      reads this
    {
      && (forall i | i in snapshots :: i < nextSnapshotId && snapshots[i].id == i)
      && (forall i, j | i in snapshots && j in snapshots && snapshots[i].name == snapshots[j].name :: i == j)
    }

    constructor ()
      ensures Valid() && snapshots == map[] && nextSnapshotId == 1 && currentLsn == 0
    {
      snapshots, nextSnapshotId, currentLsn := map[], 1, 0;
    }

    method NameIsTaken(name: string) returns (taken: bool)
      ensures taken <==> exists i | i in snapshots :: snapshots[i].name == name
    {
      var rest := snapshots.Keys;
      while rest != {}
        invariant rest <= snapshots.Keys
        invariant forall i | i in snapshots.Keys - rest :: snapshots[i].name != name
        decreases |rest|
      {
        var i :| i in rest;
        if snapshots[i].name == name {
          return true;
        }
        rest := rest - {i};
      }
      taken := false;
    }

    /** The published LSN is read first and the list of active transactions, which is a parameter, after it:
        what is inserted is what the machine inserts. */
    method CreateSnapshot(rawName: string, activeTransactions: seq<TransactionId>) returns (r: Result<Snapshot, EngineError>)
      requires Valid()
      modifies this
      ensures Valid() && currentLsn == old(currentLsn)
      ensures r.Err? ==> snapshots == old(snapshots) && nextSnapshotId == old(nextSnapshotId)
      ensures Trim(rawName) == "" <==> r == Err(EmptyName)
      ensures r == Err(NameExists) <==>
              Trim(rawName) != "" && exists i | i in old(snapshots) :: old(snapshots)[i].name == Trim(rawName)
      ensures r.Err? ==> r.error.EmptyName? || r.error.NameExists?
      ensures r.Ok? ==>
                && r.value.id == old(nextSnapshotId) && r.value.id !in old(snapshots)
                && r.value.name == Trim(rawName) && r.value.lsn == currentLsn
                && r.value.WellFormed()
                && r.value.activeTxns == (set t | t in activeTransactions)
                && snapshots == old(snapshots)[r.value.id := r.value]
                && nextSnapshotId == old(nextSnapshotId) + 1
      ensures r.Ok? ==>
                forall st: State | st.creating == Some(Creating(Trim(rawName), currentLsn))
                                   && st.nextSnapshot == old(nextSnapshotId)
                                   && st.active == (set t | t in activeTransactions) ::
                  TakeSnapshot(st) == r.value
    {
      var name := Trim(rawName);
      if name == "" {
        return Err(EmptyName);
      }
      var taken := NameIsTaken(name);
      if taken {
        return Err(NameExists);
      }
      var id := nextSnapshotId;
      nextSnapshotId := nextSnapshotId + 1;
      var snapshot := NewSnapshot(id, name, currentLsn, activeTransactions);
      snapshots := snapshots[snapshot.id := snapshot];
      assert activeTransactions != [] ==> activeTransactions[0] in snapshot.activeTxns;
      forall st: State | st.creating == Some(Creating(name, currentLsn)) && st.nextSnapshot == id
                         && st.active == (set t | t in activeTransactions)
        ensures TakeSnapshot(st) == snapshot
      {
        SameSnapshot(st, snapshot);
      }
      r := Ok(snapshot);
    }

    method ReleaseSnapshot(id: nat) returns (r: Result<(), EngineError>)
      requires Valid()
      modifies this
      ensures Valid() && nextSnapshotId == old(nextSnapshotId) && currentLsn == old(currentLsn)
      ensures snapshots == old(snapshots) - {id}
      ensures r == if id in old(snapshots) then Ok(()) else Err(SnapshotNotFound)
    {
      if id in snapshots {
        snapshots := snapshots - {id};
        r := Ok(());
      } else {
        assert snapshots == snapshots - {id};
        r := Err(SnapshotNotFound);
      }
    }

    /** The least LSN any held snapshot pins, met in any order. */
    method MinVisibleLsn() returns (r: Option<Lsn>)
      ensures r.None? <==> snapshots == map[]
      ensures r.Some? ==> IsLeast(SnapshotLsns(snapshots), r.value)
      ensures SweepOf(r) == Look(snapshots)
    {
      r := None;
      var rest := snapshots.Keys;
      while rest != {}
        invariant rest <= snapshots.Keys
        invariant r.None? ==> rest == snapshots.Keys
        invariant r.Some? ==> r.value in SnapshotLsns(snapshots)
        invariant r.Some? ==> forall i | i in snapshots.Keys - rest :: r.value <= snapshots[i].lsn
        decreases |rest|
      {
        var i :| i in rest;
        assert snapshots[i].lsn in SnapshotLsns(snapshots);
        if r.None? || snapshots[i].lsn < r.value {
          r := Some(snapshots[i].lsn);
        }
        rest := rest - {i};
      }
    }

    /** The second read of a vacuum, after whatever happened since it looked: the watermark it goes on with is
        the one its next step has in the machine. */
    method VacuumWatermark(looked: Option<Lsn>) returns (w: Lsn)
      ensures forall st: State, v: nat | st.currentLsn == currentLsn && v in st.vacuums && st.vacuums[v] == SweepOf(looked) ::
                Apply(st, VacuumFallBack(v)).vacuums[v] == At(w)
    {
      match looked
      case Some(lsn) => w := lsn;
      case None => w := currentLsn;
    }

    method ValidateSnapshotLsn(lsn: Lsn) returns (r: Result<(), EngineError>)
      ensures r.Ok? <==> lsn <= currentLsn && (lsn == 0 || lsn in SnapshotLsns(snapshots))
      ensures r.Err? ==> r.error == if lsn > currentLsn then NotYetCommitted else NotPinned
    {
      if lsn > currentLsn {
        return Err(NotYetCommitted);
      }
      if lsn == 0 {
        return Ok(());
      }
      var rest := snapshots.Keys;
      while rest != {}
        invariant rest <= snapshots.Keys
        invariant forall i | i in snapshots.Keys - rest :: snapshots[i].lsn != lsn
        decreases |rest|
      {
        var i :| i in rest;
        if snapshots[i].lsn == lsn {
          return Ok(());
        }
        rest := rest - {i};
      }
      r := Err(NotPinned);
    }
  }
}
