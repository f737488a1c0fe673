/** The lock hierarchy checker of src/pager/lock_order.rs: one stack of held lock types per thread. */
module LockOrder {
  import opened Wrappers

  datatype LockType = PinTable | Superblock | Header | PageTable | Cache | File
  {
    function Level(): nat {
      match this
      case PinTable => 1
      case Superblock => 2
      case Header => 3
      case PageTable => 4
      case Cache => 5
      case File => 6
    }
  }

  /** The documented order of acquisition. */
  const Hierarchy: seq<LockType> := [PinTable, Superblock, Header, PageTable, Cache, File]

  /** Levels are places in the documented order, which names every type. */
  lemma LevelIsPlace(t: LockType)
    ensures 1 <= t.Level() <= |Hierarchy| && Hierarchy[t.Level() - 1] == t
    ensures forall i | 0 <= i < |Hierarchy| && Hierarchy[i] == t :: i == t.Level() - 1
  {
    var all := Hierarchy;
    assert all[0].PinTable? && all[1].Superblock? && all[2].Header?;
    assert all[3].PageTable? && all[4].Cache? && all[5].File?;
  }

  /** Levels never fall from the bottom of the stack to the top. */
  predicate Sorted(stack: seq<LockType>) {
    forall i, j | 0 <= i < j < |stack| :: stack[i].Level() <= stack[j].Level()
  }

  /** The test of `assert_lock_order`: it looks at the top of the stack only. */
  predicate OrderOk(stack: seq<LockType>, t: LockType) {
    stack == [] || stack[|stack| - 1].Level() <= t.Level()
  }

  /** The stack without its topmost entry of type `t`. */
  function RemoveLast(stack: seq<LockType>, t: LockType): (r: seq<LockType>)
    ensures forall x | x in r :: x in stack
    ensures Sorted(stack) ==> Sorted(r)
  {
    if stack == [] then []
    else
      var n := |stack| - 1;
      if stack[n] == t then stack[..n]
      else
        var below := RemoveLast(stack[..n], t);
        assert forall i | 0 <= i < |below| :: below[i] in stack[..n];
        below + [stack[n]]
  }

  lemma SortedPush(stack: seq<LockType>, t: LockType)
    ensures Sorted(stack + [t]) <==> Sorted(stack) && OrderOk(stack, t)
  {
    var pushed := stack + [t];
    assert forall i | 0 <= i < |stack| :: pushed[i] == stack[i];
    if Sorted(pushed) && stack != [] {
      assert pushed[|stack| - 1].Level() <= pushed[|stack|].Level();
    }
  }

  /** The thread-local stack. */
  class LockStack {
    var stack: seq<LockType>

    constructor ()
      ensures stack == []
    {
      stack := [];
    }

    /** The source panics where this returns false. With entry `i` of the documented order on top, a request
        for entry `j` passes if and only if `i <= j`; on a sorted stack this means that every held lock is at or
        below the level. */
    method AssertLockOrder(t: LockType) returns (ok: bool)
      ensures ok <==> OrderOk(stack, t)
      ensures stack == [] ==> ok
      ensures forall i, j | 0 <= i < |Hierarchy| && 0 <= j < |Hierarchy| && Hierarchy[j] == t ::
                stack != [] && stack[|stack| - 1] == Hierarchy[i] ==> (ok <==> i <= j)
      ensures Sorted(stack) ==> (ok <==> forall held | held in stack :: held.Level() <= t.Level())
    {
      LevelIsPlace(t);
      if stack != [] {
        var last := stack[|stack| - 1];
        LevelIsPlace(last);
        if t.Level() < last.Level() {
          return false;
        }
      }
      ok := true;
    }

    method MarkLockAcquired(t: LockType)
      modifies this
      ensures stack == old(stack) + [t]
      ensures Sorted(stack) <==> Sorted(old(stack)) && OrderOk(old(stack), t)
    {
      stack := stack + [t];
      SortedPush(old(stack), t);
    }

    /** `rposition` then `remove`: the entry after which the type does not occur goes, whether or not the stack
        is sorted; a type that is not held leaves the stack alone. */
    method MarkLockReleased(t: LockType)
      modifies this
      ensures stack == RemoveLast(old(stack), t)
      ensures t !in old(stack) ==> stack == old(stack)
      ensures forall p | 0 <= p < |old(stack)| && old(stack)[p] == t && t !in old(stack)[p + 1..] ::
                stack == old(stack)[..p] + old(stack)[p + 1..]
      ensures Sorted(old(stack)) ==> Sorted(stack)
    {
      hide Sorted, RemoveLast;
      var pos := |stack|;
      assert stack[..pos] == stack;
      while pos > 0
        invariant 0 <= pos <= |stack| && stack == old(stack) && t !in stack[pos..]
        invariant RemoveLast(stack, t) == RemoveLast(stack[..pos], t) + stack[pos..]
      {
        pos := pos - 1;
        RemoveLastStep(stack, t, pos);
        if stack[pos] == t {
          OnePlace(stack, t, pos);
          stack := stack[..pos] + stack[pos + 1..];
          return;
        }
      }
      NothingToRemove(t);
      assert stack[..0] == [] && stack[0..] == stack;
    }
  }

  lemma OnePlace(stack: seq<LockType>, t: LockType, pos: nat)
    requires pos < |stack| && stack[pos] == t && t !in stack[pos + 1..]
    ensures t in stack
    ensures forall p | 0 <= p < |stack| && stack[p] == t && t !in stack[p + 1..] :: p == pos
  {
    forall p | 0 <= p < |stack| && stack[p] == t && t !in stack[p + 1..] ensures p == pos {
      OccursLater(stack, p, pos);
      OccursLater(stack, pos, p);
    }
  }

  lemma OccursLater(stack: seq<LockType>, p: nat, q: nat)
    requires p < |stack| && q < |stack|
    ensures p < q ==> stack[q] in stack[p + 1..]
  {
    if p < q {
      assert stack[p + 1..][q - p - 1] == stack[q];
    }
  }

  lemma RemoveLastStep(stack: seq<LockType>, t: LockType, pos: nat)
    requires pos < |stack|
    ensures RemoveLast(stack[..pos + 1], t) + stack[pos + 1..]
            == if stack[pos] == t then stack[..pos] + stack[pos + 1..] else RemoveLast(stack[..pos], t) + stack[pos..]
  {
    hide Sorted;
    assert stack[..pos + 1][..pos] == stack[..pos];
    assert stack[pos..] == [stack[pos]] + stack[pos + 1..];
  }

  lemma NothingToRemove(t: LockType)
    ensures RemoveLast([], t) == []
  {
  }

  // ---------------------------------------------------------------------------
  // Threads
  // ---------------------------------------------------------------------------

  type Thread = nat

  /** One of the pager's locks; a sharded table has many of one type. */
  datatype Lock = Lock(kind: LockType, instance: nat)

  datatype Status = Status(stack: seq<LockType>, held: seq<Lock>, wanted: Option<Lock>)

  const Idle := Status([], [], None)

  /** Threads not in the map have not touched a lock yet. */
  type State = map<Thread, Status>

  function Of(st: State, t: Thread): Status {
    if t in st then st[t] else Idle
  }

  datatype Step =
    | Ask(t: Thread, lock: Lock)       // assert_lock_order passed, now blocked on the lock
    | Get(t: Thread)                   // the lock was granted, mark_lock_acquired
    | Drop(t: Thread, index: nat)      // any held lock released, mark_lock_released

  predicate Enabled(st: State, step: Step) {
    match step
    case Ask(t, lock) => Of(st, t).wanted.None? && OrderOk(Of(st, t).stack, lock.kind)
    case Get(t) => Of(st, t).wanted.Some?
    case Drop(t, i) => Of(st, t).wanted.None? && i < |Of(st, t).held|
  }

  /** Who is granted a lock is left open, so shared and exclusive locks are both covered. */
  function Apply(st: State, step: Step): State {
    if !Enabled(st, step) then st
    else
      var me := Of(st, step.t);
      st[step.t :=
        match step
        case Ask(_, lock) => me.(wanted := Some(lock))
        case Get(_) => Status(me.stack + [me.wanted.value.kind], me.held + [me.wanted.value], None)
        case Drop(_, i) => me.(stack := RemoveLast(me.stack, me.held[i].kind), held := me.held[..i] + me.held[i + 1..])]
  }

  function Exec(st: State, steps: seq<Step>): State
    decreases |steps|
  {
    if steps == [] then st else Exec(Apply(st, steps[0]), steps[1..])
  }

  function Kinds(held: seq<Lock>): seq<LockType> {
    seq(|held|, i requires 0 <= i < |held| => held[i].kind)
  }

  /** The stack is sorted and is exactly the types of the held locks. */
  predicate StatusOk(s: Status) {
    && Sorted(s.stack)
    && s.stack == Kinds(s.held)
    && (s.wanted.Some? ==> OrderOk(s.stack, s.wanted.value.kind))
  }

  predicate Inv(st: State) {
    forall t | t in st :: StatusOk(st[t])
  }

  /** In a sorted stack equal types are adjacent, so it does not matter which of them is taken out. */
  lemma {:induction false} RemoveAny(stack: seq<LockType>, i: nat)
    requires Sorted(stack) && i < |stack|
    ensures RemoveLast(stack, stack[i]) == stack[..i] + stack[i + 1..]
    decreases |stack|
  {
    var n := |stack| - 1;
    if stack[n] == stack[i] {
      forall k | i <= k <= n ensures stack[k] == stack[i] {
        LevelIsPlace(stack[k]);
        LevelIsPlace(stack[i]);
      }
      assert stack[..n] == stack[..i] + stack[i + 1..];
    } else {
      RemoveAny(stack[..n], i);
      assert stack[..n][..i] == stack[..i];
      assert stack[i + 1..] == stack[..n][i + 1..] + [stack[n]];
    }
  }

  lemma IdleIsOk()
    ensures StatusOk(Idle)
  {
  }

  lemma GetKeepsOk(me: Status)
    requires StatusOk(me) && me.wanted.Some?
    ensures StatusOk(Status(me.stack + [me.wanted.value.kind], me.held + [me.wanted.value], None))
  {
    hide Sorted;
    SortedPush(me.stack, me.wanted.value.kind);
    assert Kinds(me.held + [me.wanted.value]) == me.stack + [me.wanted.value.kind];
  }

  lemma DropKeepsOk(me: Status, i: nat)
    requires StatusOk(me) && i < |me.held| && me.wanted.None?
    ensures StatusOk(me.(stack := RemoveLast(me.stack, me.held[i].kind), held := me.held[..i] + me.held[i + 1..]))
  {
    hide Sorted, RemoveLast;
    RemoveAny(me.stack, i);
    assert Kinds(me.held[..i] + me.held[i + 1..]) == me.stack[..i] + me.stack[i + 1..];
  }

  lemma StepKeepsInv(st: State, step: Step)
    requires Inv(st)
    ensures Inv(Apply(st, step))
  {
    hide Sorted, RemoveLast, Kinds;
    if Enabled(st, step) {
      var me := Of(st, step.t);
      IdleIsOk();
      assert StatusOk(me);
      match step {
        case Ask(_, lock) => assert StatusOk(me.(wanted := Some(lock)));
        case Get(_) => GetKeepsOk(me);
        case Drop(_, i) => DropKeepsOk(me, i);
      }
      hide StatusOk;
    }
  }

  lemma {:induction false} RunKeepsInv(st: State, steps: seq<Step>)
    requires Inv(st)
    ensures Inv(Exec(st, steps))
    decreases |steps|
  {
    if steps != [] {
      StepKeepsInv(st, steps[0]);
      RunKeepsInv(Apply(st, steps[0]), steps[1..]);
    }
  }

  /** Looking at the top is enough: in every run, a thread's stack lists exactly the types of what it
      holds, and the test passes exactly when nothing it holds is above the new lock. */
  lemma {:induction false} TopCheckIsEnough(steps: seq<Step>, t: Thread, kind: LockType)
    ensures var me := Of(Exec(map[], steps), t);
            && Sorted(me.stack)
            && me.stack == Kinds(me.held)
            && (OrderOk(me.stack, kind) <==> forall l | l in me.held :: l.kind.Level() <= kind.Level())
  {
    RunKeepsInv(map[], steps);
    var me := Of(Exec(map[], steps), t);
    hide Exec;
    IdleIsOk();
    assert StatusOk(me);
    hide Sorted;
    TopIsHighest(me.stack, me.held, kind);
  }

  lemma TopIsHighest(stack: seq<LockType>, held: seq<Lock>, kind: LockType)
    requires Sorted(stack) && stack == Kinds(held)
    ensures OrderOk(stack, kind) <==> forall l | l in held :: l.kind.Level() <= kind.Level()
  {
    assert forall i | 0 <= i < |held| :: stack[i] == held[i].kind;
    if stack != [] {
      assert held[|held| - 1] in held;
    }
  }

  // ---------------------------------------------------------------------------
  // Circular wait
  // ---------------------------------------------------------------------------

  /** `a` is blocked on a lock that `b` holds. */
  predicate WaitsFor(st: State, a: Thread, b: Thread) {
    Of(st, a).wanted.Some? && Of(st, a).wanted.value in Of(st, b).held
  }

  predicate CircularWait(st: State, c: seq<Thread>) {
    && c != []
    && (forall i | 0 <= i < |c| - 1 :: WaitsFor(st, c[i], c[i + 1]))
    && WaitsFor(st, c[|c| - 1], c[0])
  }

  function Wanted(st: State, t: Thread): Lock {
    if Of(st, t).wanted.Some? then Of(st, t).wanted.value else Lock(PinTable, 0)
  }

  lemma WaitClimbs(st: State, a: Thread, b: Thread)
    requires Inv(st) && WaitsFor(st, a, b) && Of(st, b).wanted.Some?
    ensures Wanted(st, a).kind.Level() <= Wanted(st, b).kind.Level()
  {
    var held, stack := Of(st, b).held, Of(st, b).stack;
    assert StatusOk(Of(st, b));
    var i :| 0 <= i < |held| && held[i] == Wanted(st, a);
    assert stack[i] == held[i].kind;
  }

  lemma {:induction false} LevelsClimb(st: State, c: seq<Thread>, i: nat, j: nat)
    requires Inv(st) && CircularWait(st, c) && i <= j < |c|
    ensures Wanted(st, c[i]).kind.Level() <= Wanted(st, c[j]).kind.Level()
    decreases j
  {
    if i < j {
      LevelsClimb(st, c, i, j - 1);
      assert WaitsFor(st, c[j - 1], c[j]);
      assert Of(st, c[j]).wanted.Some? by {
        if j < |c| - 1 { assert WaitsFor(st, c[j], c[j + 1]); }
      }
      WaitClimbs(st, c[j - 1], c[j]);
    }
  }

  /** In every run, the threads of a circular wait all wait for locks of one and the same type; and
      either one of them waits for a lock it already holds, or two locks of that type are involved. */
  lemma {:induction false} CircularWaitIsOnOneLevel(steps: seq<Step>, c: seq<Thread>)
    requires CircularWait(Exec(map[], steps), c)
    ensures var st := Exec(map[], steps);
            && (forall i | 0 <= i < |c| :: Wanted(st, c[i]).kind == Wanted(st, c[0]).kind)
            && ((exists i | 0 <= i < |c| :: WaitsFor(st, c[i], c[i])) ||
                (exists i | 0 <= i < |c| :: Wanted(st, c[i]) != Wanted(st, c[0])))
  {
    RunKeepsInv(map[], steps);
    var st := Exec(map[], steps);
    hide Exec;
    var last := |c| - 1;
    assert Of(st, c[0]).wanted.Some? by { if last > 0 { assert WaitsFor(st, c[0], c[1]); } }
    WaitClimbs(st, c[last], c[0]);
    forall i | 0 <= i < |c| ensures Wanted(st, c[i]).kind == Wanted(st, c[0]).kind {
      LevelsClimb(st, c, 0, i);
      LevelsClimb(st, c, i, last);
    }
    if forall i | 0 <= i < |c| :: Wanted(st, c[i]) == Wanted(st, c[0]) {
      assert Wanted(st, c[last]) == Wanted(st, c[0]);
      assert WaitsFor(st, c[0], c[0]);
    }
  }

  // ---------------------------------------------------------------------------
  // When a deadlock is possible
  // ---------------------------------------------------------------------------

  /** A thread asks for a second lock of a type it already holds only if the type is in `nested`. */
  ghost predicate NestsOnly(nested: set<LockType>, st: State, steps: seq<Step>)
    decreases |steps|
  {
    steps != [] ==>
      && (steps[0].Ask? && Enabled(st, steps[0]) && steps[0].lock.kind in Of(st, steps[0].t).stack ==>
            steps[0].lock.kind in nested)
      && NestsOnly(nested, Apply(st, steps[0]), steps[1..])
  }

  predicate NestOk(nested: set<LockType>, s: Status) {
    s.wanted.Some? && s.wanted.value.kind in s.stack ==> s.wanted.value.kind in nested
  }

  lemma {:induction false} RunKeepsNesting(nested: set<LockType>, st: State, steps: seq<Step>)
    requires NestsOnly(nested, st, steps) && forall t | t in st :: NestOk(nested, st[t])
    ensures forall t | t in Exec(st, steps) :: NestOk(nested, Exec(st, steps)[t])
    decreases |steps|
  {
    if steps != [] {
      hide RemoveLast;
      RunKeepsNesting(nested, Apply(st, steps[0]), steps[1..]);
    }
  }

  /** The run ends with the threads of `c` waiting in a circle for locks of type `kind`. */
  ghost predicate Deadlocks(steps: seq<Step>, c: seq<Thread>, kind: LockType) {
    var st := Exec(map[], steps);
    CircularWait(st, c) && Wanted(st, c[0]).kind == kind
  }

  /** Every thread of a circular wait wants a second lock of a type it holds. */
  lemma DeadlockNests(nested: set<LockType>, steps: seq<Step>, c: seq<Thread>, kind: LockType)
    requires NestsOnly(nested, map[], steps) && Deadlocks(steps, c, kind)
    ensures kind in nested
  {
    CircularWaitIsOnOneLevel(steps, c);
    RunKeepsNesting(nested, map[], steps);
    RunKeepsInv(map[], steps);
    var st := Exec(map[], steps);
    hide Exec;
    var me, last := Of(st, c[0]), c[|c| - 1];
    assert StatusOk(me) && NestOk(nested, me);
    assert Wanted(st, last).kind == kind;
    var i :| 0 <= i < |me.held| && me.held[i] == Of(st, last).wanted.value;
    assert me.stack[i] == kind;
    assert me.wanted.Some? by { if |c| > 1 { assert WaitsFor(st, c[0], c[1]); } }
  }

  /** For every set of types that threads may nest: a deadlock on a type is reachable if and only if the type
      is in the set. So threads that never hold two locks of one type never deadlock, and one type that is
      nested is enough for a deadlock. */
  lemma DeadlockIsReachableIff(nested: set<LockType>, kind: LockType)
    ensures (exists steps, c :: NestsOnly(nested, map[], steps) && Deadlocks(steps, c, kind)) <==> kind in nested
  {
    hide NestsOnly, Deadlocks;
    forall steps, c | NestsOnly(nested, map[], steps) && Deadlocks(steps, c, kind) ensures kind in nested {
      DeadlockNests(nested, steps, c, kind);
    }
    if kind in nested {
      var steps := SameLevelDeadlockIsReachable(kind);
      NestsMore({kind}, nested, map[], steps);
    }
  }

  /** Without nesting there is no deadlock at all. */
  lemma NoNestingNoDeadlock(steps: seq<Step>, c: seq<Thread>)
    requires NestsOnly({}, map[], steps)
    ensures !CircularWait(Exec(map[], steps), c)
  {
    hide NestsOnly, Exec;
    if CircularWait(Exec(map[], steps), c) {
      DeadlockNests({}, steps, c, Wanted(Exec(map[], steps), c[0]).kind);
    }
  }

  lemma {:induction false} NestsMore(some: set<LockType>, nested: set<LockType>, st: State, steps: seq<Step>)
    requires some <= nested && NestsOnly(some, st, steps)
    ensures NestsOnly(nested, st, steps)
    decreases |steps|
  {
    if steps != [] {
      NestsMore(some, nested, Apply(st, steps[0]), steps[1..]);
    }
  }

  /** The hierarchy alone does not exclude a deadlock inside a level: two threads, two locks of one type. */
  lemma SameLevelDeadlockIsReachable(kind: LockType) returns (steps: seq<Step>)
    ensures NestsOnly({kind}, map[], steps) && Deadlocks(steps, [0, 1], kind)
  {
    var a, b := Lock(kind, 0), Lock(kind, 1);
    var third := [Ask(0, b), Ask(1, a)] + [];
    var second := [Ask(1, b), Get(1)] + third;
    steps := [Ask(0, a), Get(0)] + second;
    TakeFirst(map[], 0, a);
    var s1: State := map[0 := Status([kind], [a], None)];
    TakeFirst(s1, 1, b);
    var s2: State := s1[1 := Status([kind], [b], None)];
    var s3 := Apply(Apply(s2, Ask(0, b)), Ask(1, a));
    assert WaitsFor(s3, 0, 1) && WaitsFor(s3, 1, 0);
    hide Apply;
    ExecTwo(map[], Ask(0, a), Get(0), second);
    ExecTwo(s1, Ask(1, b), Get(1), third);
    ExecTwo(s2, Ask(0, b), Ask(1, a), []);
    NestsTwo({kind}, s2, Ask(0, b), Ask(1, a), []);
    NestsTwo({kind}, s1, Ask(1, b), Get(1), third);
    NestsTwo({kind}, map[], Ask(0, a), Get(0), second);
  }

  lemma TakeFirst(st: State, t: Thread, lock: Lock)
    requires t !in st
    ensures Apply(Apply(st, Ask(t, lock)), Get(t)) == st[t := Status([lock.kind], [lock], None)]
  {
    assert [] + [lock.kind] == [lock.kind] && [] + [lock] == [lock];
  }

  lemma NestsTwo(nested: set<LockType>, st: State, a: Step, b: Step, rest: seq<Step>)
    requires (a.Ask? ==> a.lock.kind in nested) && (b.Ask? ==> b.lock.kind in nested)
    requires NestsOnly(nested, Apply(Apply(st, a), b), rest)
    ensures NestsOnly(nested, st, [a, b] + rest)
  {
    hide Apply;
    assert ([a, b] + rest)[1..] == [b] + rest;
    assert ([b] + rest)[1..] == rest;
  }

  lemma ExecTwo(st: State, a: Step, b: Step, rest: seq<Step>)
    ensures Exec(st, [a, b] + rest) == Exec(Apply(Apply(st, a), b), rest)
  {
    assert ([a, b] + rest)[1..] == [b] + rest;
    assert ([b] + rest)[1..] == rest;
  }
}
